/**
 * Jobs, crawl runs and resumption (adapters/facts_jobs_store.py): each statement or transaction as one step on the
 * tables, taken by any number of workers in any order. Ids are positions, since the tables only grow.
 */
module JobRules {
  import opened Options
  import opened Queues

  datatype Kind = CrawlPass | Remap

  datatype Status = Queued | Running | Done | Error

  datatype Job = Job(kind: Kind, status: Status, queuedAt: int, startedAt: Option<int>, leaseExpiresAt: Option<int>,
                     finishedAt: Option<int>, errorCode: Option<string>)

  datatype RunStatus = RunRunning | Succeeded | Partial | Failed | Aborted

  datatype Run = Run(job: nat, status: RunStatus, startedAt: int, finishedAt: Option<int>, errorCode: Option<string>)

  datatype Tab = Overview | Admission | MoneyMatters | Academics | CampusLife | Students

  const TABS: seq<Tab> := [Overview, Admission, MoneyMatters, Academics, CampusLife, Students]

  /** A claim that was handed out. Workers keep theirs for as long as they like. */
  datatype Claim = Claim(job: nat, startedAt: int)

  /**
   * `opening` holds, for each worker between the two statements of `get_or_open_run`, the job whose run it is about
   * to open; `claims` is the list of all claims ever handed out. Neither is stored.
   */
  datatype State = State(jobs: seq<Job>, runs: seq<Run>, opening: map<nat, nat>, attempts: map<(int, Tab), int>,
                         claims: seq<Claim>, now: int)

  const START: State := State([], [], map[], map[], [], 0)

  predicate Live(job: Job) {
    job.status == Queued || job.status == Running
  }

  predicate HasLive(jobs: seq<Job>, kind: Kind) {
    exists i :: 0 <= i < |jobs| && jobs[i].kind == kind && Live(jobs[i])
  }

  // -- the statements

  function Enqueue(s: State, kind: Kind): State {
    if HasLive(s.jobs, kind) then s
    else s.(jobs := s.jobs + [Job(kind, Queued, s.now, None, None, None, None)])
  }

  /** The latest end of any run, or the epoch. */
  function LastFinish(runs: seq<Run>): int {
    if runs == [] then 0
    else
      var before := LastFinish(runs[..|runs| - 1]);
      var last := runs[|runs| - 1].finishedAt;
      if last.Some? && last.value > before then last.value else before
  }

  function EnqueueDaily(s: State, interval: int): State {
    if LastFinish(s.runs) < s.now - interval then Enqueue(s, CrawlPass) else s
  }

  /** Since when a job has been queued. */
  function Waits(job: Job): Option<int> {
    if job.status == Queued then Some(job.queuedAt) else None
  }

  function ClaimNext(s: State, lease: int): State {
    var i := Oldest(s.jobs, Waits);
    if i == |s.jobs| then s
    else s.(jobs := s.jobs[i := s.jobs[i].(status := Running, startedAt := Some(s.now),
                                            leaseExpiresAt := Some(s.now + lease))],
            claims := s.claims + [Claim(i, s.now)])
  }

  function Renew(s: State, job: nat, lease: int): State {
    if job < |s.jobs| && s.jobs[job].status == Running
    then s.(jobs := s.jobs[job := s.jobs[job].(leaseExpiresAt := Some(s.now + lease))])
    else s
  }

  predicate Expired(job: Job, now: int) {
    job.status == Running && job.leaseExpiresAt.Some? && job.leaseExpiresAt.value < now
  }

  function SweepJob(job: Job, now: int): Job {
    if Expired(job, now) then job.(status := Queued, startedAt := None, leaseExpiresAt := None) else job
  }

  function Sweep(s: State): State {
    s.(jobs := seq(|s.jobs|, i requires 0 <= i < |s.jobs| => SweepJob(s.jobs[i], s.now)))
  }

  /** The job is running under this very claim. */
  predicate Holds(s: State, job: nat, claimedAt: int) {
    job < |s.jobs| && s.jobs[job].status == Running && s.jobs[job].startedAt == Some(claimedAt)
  }

  function Complete(s: State, job: nat, claimedAt: int, status: Status, errorCode: Option<string>): State {
    if Holds(s, job, claimedAt)
    then s.(jobs := s.jobs[job := s.jobs[job].(status := status, finishedAt := Some(s.now), errorCode := errorCode)])
    else s
  }

  function CloseRun(s: State, run: nat, status: RunStatus, errorCode: Option<string>): State {
    if run < |s.runs| && s.runs[run].status == RunRunning
    then s.(runs := s.runs[run := s.runs[run].(status := status, finishedAt := Some(s.now), errorCode := errorCode)])
    else s
  }

  predicate OpenRunOf(run: Run, job: nat) {
    run.job == job && run.status == RunRunning
  }

  /** The run a lookup finds: the first running one of the job, or the number of runs. */
  function FindRun(runs: seq<Run>, job: nat): (r: nat)
    ensures r <= |runs| && (r < |runs| ==> OpenRunOf(runs[r], job))
    ensures forall i :: 0 <= i < r ==> !OpenRunOf(runs[i], job)
  {
    if runs == [] then 0
    else
      var r := FindRun(runs[..|runs| - 1], job);
      if r < |runs| - 1 then r
      else if OpenRunOf(runs[|runs| - 1], job) then |runs| - 1 else |runs|
  }

  /** The first statement of `get_or_open_run`: a worker that finds no run goes on to open one. */
  function Lookup(s: State, worker: nat, job: nat): State {
    if FindRun(s.runs, job) < |s.runs| then s else s.(opening := s.opening[worker := job])
  }

  /** The second statement. */
  function Open(s: State, worker: nat): State {
    if worker in s.opening
    then s.(runs := s.runs + [Run(s.opening[worker], RunRunning, s.now, None, None)], opening := s.opening - {worker})
    else s
  }

  function MarkCrashed(s: State, job: nat, claimedAt: int, errorCode: Option<string>): State {
    if Holds(s, job, claimedAt)
    then Complete(CloseRun(s, FindRun(s.runs, job), Failed, errorCode), job, claimedAt, Error, errorCode)
    else s
  }

  /** The transaction at the end, or the abortion, of a pass. */
  function Finish(s: State, run: nat, runStatus: RunStatus, job: nat, claimedAt: int, status: Status,
                  errorCode: Option<string>): State
  {
    Complete(CloseRun(s, run, runStatus, errorCode), job, claimedAt, status, errorCode)
  }

  function Stamp(attempts: map<(int, Tab), int>, school: int, tabs: seq<Tab>, now: int): map<(int, Tab), int> {
    if tabs == [] then attempts
    else Stamp(attempts, school, tabs[..|tabs| - 1], now)[(school, tabs[|tabs| - 1]) := now]
  }

  /** One school's transaction: every tab is recorded, whatever came of it. */
  function Attempt(s: State, school: int, readAt: int): State {
    s.(attempts := Stamp(s.attempts, school, TABS, readAt))
  }

  datatype Op =
    | DailyTick(interval: int)
    | EnqueueNow(kind: Kind)
    | ClaimJob(lease: int)
    | RenewLease(job: nat, lease: int)
    | SweepLeases
    | CompleteJob(job: nat, claimedAt: int, status: Status, errorCode: Option<string>)
    | Crashed(job: nat, claimedAt: int, errorCode: Option<string>)
    | LookupRun(worker: nat, job: nat)
    | OpenRun(worker: nat)
    | CloseOneRun(run: nat, runStatus: RunStatus, errorCode: Option<string>)
    | FinishPass(run: nat, runStatus: RunStatus, job: nat, claimedAt: int, status: Status, errorCode: Option<string>)
    | AttemptSchool(school: int, readAt: int)

  /**
   * An operation at a time. Its arguments are whatever a worker remembers, however stale. Only the stamps of a school's
   * pages are late statements of their transaction, so they have an older reading of the clock, `readAt`.
   */
  datatype Event = Event(op: Op, at: int)

  function Apply(s: State, op: Op): State {
    match op
    case DailyTick(interval) => EnqueueDaily(s, interval)
    case EnqueueNow(kind) => Enqueue(s, kind)
    case ClaimJob(lease) => ClaimNext(s, lease)
    case RenewLease(job, lease) => Renew(s, job, lease)
    case SweepLeases => Sweep(s)
    case CompleteJob(job, claimedAt, status, errorCode) => Complete(s, job, claimedAt, status, errorCode)
    case Crashed(job, claimedAt, errorCode) => MarkCrashed(s, job, claimedAt, errorCode)
    case LookupRun(worker, job) => Lookup(s, worker, job)
    case OpenRun(worker) => Open(s, worker)
    case CloseOneRun(run, runStatus, errorCode) => CloseRun(s, run, runStatus, errorCode)
    case FinishPass(run, runStatus, job, claimedAt, status, errorCode) =>
      Finish(s, run, runStatus, job, claimedAt, status, errorCode)
    case AttemptSchool(school, readAt) => Attempt(s, school, readAt)
  }

  function Step(s: State, e: Event): State {
    Apply(s.(now := e.at), e.op)
  }

  function RunFrom(s: State, events: seq<Event>): State
    decreases events
  {
    if events == [] then s else RunFrom(Step(s, events[0]), events[1..])
  }

  /**
   * What callers do: leases are positive, and jobs and runs are only ever finished with a final status. The clock of a
   * transaction is read when it begins.
   */
  predicate Proper(e: Event) {
    match e.op
    case AttemptSchool(school, readAt) => readAt <= e.at
    case ClaimJob(lease) => lease > 0
    case RenewLease(job, lease) => lease > 0
    case CompleteJob(job, claimedAt, status, errorCode) => status == Done || status == Error
    case CloseOneRun(run, runStatus, errorCode) => runStatus != RunRunning
    case FinishPass(run, runStatus, job, claimedAt, status, errorCode) =>
      runStatus != RunRunning && (status == Done || status == Error)
    case _ => true
  }

  predicate Timely(events: seq<Event>, from: int)
    decreases events
  {
    events == [] || (from <= events[0].at && Proper(events[0]) && Timely(events[1..], events[0].at))
  }

  // -- the invariant

  ghost predicate OneLivePerKind(jobs: seq<Job>) {
    forall i, j :: 0 <= i < j < |jobs| && Live(jobs[i]) && Live(jobs[j]) ==> jobs[i].kind != jobs[j].kind
  }

  predicate JobOk(job: Job, now: int) {
    && (job.status == Queued ==> job.startedAt == None && job.leaseExpiresAt == None)
    && (job.status == Running ==>
          && job.startedAt.Some? && job.leaseExpiresAt.Some?
          && job.startedAt.value <= now && job.startedAt.value < job.leaseExpiresAt.value)
  }

  /** A claim handed out for a job, seen from the job as it is now. */
  predicate ClaimOk(c: Claim, jobs: seq<Job>, now: int) {
    && c.job < |jobs| && c.startedAt <= now
    && (jobs[c.job].status == Queued ==> c.startedAt < now)
    && (jobs[c.job].status == Running ==> jobs[c.job].startedAt.Some? && c.startedAt <= jobs[c.job].startedAt.value)
  }

  /** Claims of one job were handed out at strictly increasing times. */
  ghost predicate ClaimsIncrease(claims: seq<Claim>) {
    forall i, j :: 0 <= i < j < |claims| && claims[i].job == claims[j].job ==> claims[i].startedAt < claims[j].startedAt
  }

  ghost predicate Claimed(s: State, job: nat)
    requires job < |s.jobs|
  {
    s.jobs[job].status == Running ==> s.jobs[job].startedAt.Some? && Claim(job, s.jobs[job].startedAt.value) in s.claims
  }

  ghost predicate Inv(s: State) {
    && OneLivePerKind(s.jobs)
    && (forall i :: 0 <= i < |s.jobs| ==> JobOk(s.jobs[i], s.now) && Claimed(s, i))
    && (forall c :: c in s.claims ==> ClaimOk(c, s.jobs, s.now))
    && ClaimsIncrease(s.claims)
  }

  lemma StartInv()
    ensures Inv(START)
  {
  }

  lemma TickKeepsInv(s: State, at: int)
    requires Inv(s) && s.now <= at
    ensures Inv(s.(now := at))
  {
    forall i | 0 <= i < |s.jobs| ensures Claimed(s.(now := at), i) {
      assert Claimed(s, i);
    }
  }

  lemma EnqueueKeepsInv(s: State, kind: Kind)
    requires Inv(s)
    ensures Inv(Enqueue(s, kind))
  {
    var t := Enqueue(s, kind);
    forall i | 0 <= i < |t.jobs| ensures Claimed(t, i) {
      if i < |s.jobs| {
        assert Claimed(s, i);
      }
    }
  }

  /** One job is changed; the claims are not. */
  lemma ChangedJobKeepsInv(s: State, job: nat, changed: Job)
    requires Inv(s) && job < |s.jobs| && s.jobs[job].status == Running
    requires changed.kind == s.jobs[job].kind && JobOk(changed, s.now)
    requires changed.status != Queued && changed.startedAt == s.jobs[job].startedAt
    ensures Inv(s.(jobs := s.jobs[job := changed]))
  {
    var t := s.(jobs := s.jobs[job := changed]);
    forall i | 0 <= i < |t.jobs| ensures Claimed(t, i) {
      assert Claimed(s, i);
    }
    assert Live(s.jobs[job]);
    forall c | c in t.claims ensures ClaimOk(c, t.jobs, t.now) {
      assert ClaimOk(c, s.jobs, s.now);
    }
  }

  lemma ClaimKeepsInv(s: State, lease: int)
    requires Inv(s) && lease > 0
    ensures Inv(ClaimNext(s, lease))
  {
    var i := Oldest(s.jobs, Waits);
    var t := ClaimNext(s, lease);
    if i < |s.jobs| {
      assert Live(s.jobs[i]);
      ClaimOneMore(s, i);
      forall j | 0 <= j < |t.jobs| ensures Claimed(t, j) {
        assert Claimed(s, j);
      }
      forall c | c in t.claims ensures ClaimOk(c, t.jobs, t.now) {
        assert c in s.claims ==> ClaimOk(c, s.jobs, s.now);
      }
    }
  }

  lemma ClaimOneMore(s: State, i: nat)
    requires Inv(s) && i < |s.jobs| && s.jobs[i].status == Queued
    ensures ClaimsIncrease(s.claims + [Claim(i, s.now)])
  {
    forall k | 0 <= k < |s.claims| && s.claims[k].job == i ensures s.claims[k].startedAt < s.now {
      assert s.claims[k] in s.claims;
      assert ClaimOk(s.claims[k], s.jobs, s.now);
    }
  }

  lemma SweepKeepsInv(s: State)
    requires Inv(s)
    ensures Inv(Sweep(s))
  {
    var t := Sweep(s);
    forall i | 0 <= i < |t.jobs| ensures JobOk(t.jobs[i], t.now) && Claimed(t, i) {
      assert JobOk(s.jobs[i], s.now) && Claimed(s, i);
    }
    forall i, j | 0 <= i < j < |t.jobs| && Live(t.jobs[i]) && Live(t.jobs[j]) ensures t.jobs[i].kind != t.jobs[j].kind {
      assert Live(s.jobs[i]) && Live(s.jobs[j]);
    }
    forall c | c in t.claims ensures ClaimOk(c, t.jobs, t.now) {
      assert ClaimOk(c, s.jobs, s.now) && JobOk(s.jobs[c.job], s.now);
    }
  }

  lemma CompleteKeepsInv(s: State, job: nat, claimedAt: int, status: Status, errorCode: Option<string>)
    requires Inv(s) && (status == Done || status == Error)
    ensures Inv(Complete(s, job, claimedAt, status, errorCode))
  {
    hide Inv;
    if Holds(s, job, claimedAt) {
      ChangedJobKeepsInv(s, job, s.jobs[job].(status := status, finishedAt := Some(s.now), errorCode := errorCode));
    }
  }

  lemma RenewKeepsInv(s: State, job: nat, lease: int)
    requires Inv(s) && lease > 0
    ensures Inv(Renew(s, job, lease))
  {
    if job < |s.jobs| && s.jobs[job].status == Running {
      assert JobOk(s.jobs[job], s.now);
      ChangedJobKeepsInv(s, job, s.jobs[job].(leaseExpiresAt := Some(s.now + lease)));
    }
  }

  /** Runs, openers and attempts have no part in the invariant. */
  lemma InvOfJobsOnly(s: State, t: State)
    requires Inv(s) && t.jobs == s.jobs && t.claims == s.claims && t.now == s.now
    ensures Inv(t)
  {
    forall i | 0 <= i < |t.jobs| ensures Claimed(t, i) {
      assert Claimed(s, i);
    }
  }

  lemma StepKeepsInv(s: State, e: Event)
    requires Inv(s) && s.now <= e.at && Proper(e)
    ensures Inv(Step(s, e))
  {
    hide Inv, Enqueue, ClaimNext, Renew, Sweep, Complete, LastFinish, Stamp, FindRun, Holds;
    TickKeepsInv(s, e.at);
    var t := s.(now := e.at);
    match e.op
    case DailyTick(interval) => EnqueueKeepsInv(t, CrawlPass);
    case EnqueueNow(kind) => EnqueueKeepsInv(t, kind);
    case ClaimJob(lease) => ClaimKeepsInv(t, lease);
    case RenewLease(job, lease) => RenewKeepsInv(t, job, lease);
    case SweepLeases => SweepKeepsInv(t);
    case CompleteJob(job, claimedAt, status, errorCode) => CompleteKeepsInv(t, job, claimedAt, status, errorCode);
    case Crashed(job, claimedAt, errorCode) =>
      InvOfJobsOnly(t, CloseRun(t, FindRun(t.runs, job), Failed, errorCode));
      CompleteKeepsInv(CloseRun(t, FindRun(t.runs, job), Failed, errorCode), job, claimedAt, Error, errorCode);
    case FinishPass(run, runStatus, job, claimedAt, status, errorCode) =>
      InvOfJobsOnly(t, CloseRun(t, run, runStatus, errorCode));
      CompleteKeepsInv(CloseRun(t, run, runStatus, errorCode), job, claimedAt, status, errorCode);
    case _ => InvOfJobsOnly(t, Apply(t, e.op));
  }

  /**
   * Over every run: at most one job of a kind is queued or running, and the claims of a job are handed out at
   * strictly increasing times.
   */
  lemma {:induction false} RunKeepsInv(s: State, events: seq<Event>)
    requires Inv(s) && Timely(events, s.now)
    ensures Inv(RunFrom(s, events))
    decreases events
  {
    hide Inv, Step, Proper;
    if events != [] {
      StepKeepsInv(s, events[0]);
      StepTells(s, events[0]);
      RunKeepsInv(Step(s, events[0]), events[1..]);
    }
  }

  lemma CompleteTells(s: State, job: nat, claimedAt: int, status: Status, errorCode: Option<string>)
    ensures var t := Complete(s, job, claimedAt, status, errorCode);
            t == s.(jobs := t.jobs) && |t.jobs| == |s.jobs|
  {
  }

  lemma CloseRunTells(s: State, run: nat, status: RunStatus, errorCode: Option<string>)
    ensures var t := CloseRun(s, run, status, errorCode);
            && t == s.(runs := t.runs) && |t.runs| == |s.runs|
            && (forall i :: 0 <= i < |s.runs| ==> t.runs[i].job == s.runs[i].job)
            && (forall i :: 0 <= i < |s.runs| && s.runs[i].status != RunRunning ==> t.runs[i] == s.runs[i])
            && (status != RunRunning ==>
                  forall i :: 0 <= i < |s.runs| && t.runs[i].status == RunRunning ==> t.runs[i] == s.runs[i])
  {
  }

  /** A step takes the clock to its own time and removes no row. */
  lemma {:induction false} StepTells(s: State, e: Event)
    ensures Step(s, e).now == e.at
    ensures |s.jobs| <= |Step(s, e).jobs| && |s.runs| <= |Step(s, e).runs|
  {
    hide Oldest, LastFinish, FindRun, Stamp, HasLive, SweepJob, Complete, CloseRun, Holds;
    var t := s.(now := e.at);
    match e.op
    case CompleteJob(job, claimedAt, status, errorCode) => CompleteTells(t, job, claimedAt, status, errorCode);
    case CloseOneRun(run, runStatus, errorCode) => CloseRunTells(t, run, runStatus, errorCode);
    case Crashed(job, claimedAt, errorCode) =>
      CloseRunTells(t, FindRun(t.runs, job), Failed, errorCode);
      CompleteTells(CloseRun(t, FindRun(t.runs, job), Failed, errorCode), job, claimedAt, Error, errorCode);
    case FinishPass(run, runStatus, job, claimedAt, status, errorCode) =>
      CloseRunTells(t, run, runStatus, errorCode);
      CompleteTells(CloseRun(t, run, runStatus, errorCode), job, claimedAt, status, errorCode);
    case _ =>
  }

  lemma {:induction false} LastFinishBefore(runs: seq<Run>, t: int)
    ensures LastFinish(runs) < t <==>
      0 < t && forall i :: 0 <= i < |runs| && runs[i].finishedAt.Some? ==> runs[i].finishedAt.value < t
  {
    if runs != [] {
      var front := runs[..|runs| - 1];
      LastFinishBefore(front, t);
      assert forall i :: 0 <= i < |front| ==> runs[i] == front[i];
    }
  }

  /** The daily tick enqueues a pass exactly when none is live and every run that ended did so an interval ago. */
  lemma DailyPassIff(s: State, interval: int)
    ensures |EnqueueDaily(s, interval).jobs| > |s.jobs| <==>
      && (forall i :: 0 <= i < |s.jobs| && Live(s.jobs[i]) ==> s.jobs[i].kind != CrawlPass)
      && 0 < s.now - interval
      && (forall i :: 0 <= i < |s.runs| && s.runs[i].finishedAt.Some? ==> s.runs[i].finishedAt.value < s.now - interval)
  {
    hide LastFinish;
    LastFinishBefore(s.runs, s.now - interval);
  }

  // -- fencing

  /** Completing under a claim has an effect exactly while the job runs and no later claim of it was handed out. */
  lemma LatestClaimOnly(s: State, i: nat, status: Status, errorCode: Option<string>)
    requires Inv(s) && i < |s.claims| && (status == Done || status == Error)
    ensures var c := s.claims[i];
            Complete(s, c.job, c.startedAt, status, errorCode) != s <==>
              c.job < |s.jobs| && s.jobs[c.job].status == Running && IsLatest(s.claims, i)
  {
    var c := s.claims[i];
    assert c in s.claims;
    assert ClaimOk(c, s.jobs, s.now);
    assert Claimed(s, c.job);
    if s.jobs[c.job].status == Running {
      var k :| 0 <= k < |s.claims| && s.claims[k] == Claim(c.job, s.jobs[c.job].startedAt.value);
      LatestIsGreatest(s, i, k);
    }
    CompleteChanges(s, c.job, c.startedAt, status, errorCode);
  }

  lemma CompleteChanges(s: State, job: nat, claimedAt: int, status: Status, errorCode: Option<string>)
    requires status == Done || status == Error
    ensures Complete(s, job, claimedAt, status, errorCode) != s <==> Holds(s, job, claimedAt)
  {
    assert Holds(s, job, claimedAt) ==> Complete(s, job, claimedAt, status, errorCode).jobs[job].status == status;
  }

  ghost predicate IsLatest(claims: seq<Claim>, i: nat)
    requires i < |claims|
  {
    forall k :: i < k < |claims| ==> claims[k].job != claims[i].job
  }

  lemma LatestIsGreatest(s: State, i: nat, k: nat)
    requires Inv(s) && i < |s.claims| && k < |s.claims| && s.claims[i].job == s.claims[k].job
    requires s.claims[k].job < |s.jobs| && s.jobs[s.claims[k].job].status == Running
    requires s.jobs[s.claims[k].job].startedAt == Some(s.claims[k].startedAt)
    ensures IsLatest(s.claims, i) <==> i == k
    ensures s.claims[i].startedAt == s.claims[k].startedAt <==> i == k
  {
    assert ClaimsIncrease(s.claims);
    forall m | 0 <= m < |s.claims| && s.claims[m].job == s.claims[k].job ensures m <= k {
      assert s.claims[m] in s.claims;
      assert ClaimOk(s.claims[m], s.jobs, s.now);
    }
  }

  /** Nor does a crash report under a claim that is not the latest touch anything, the run included. */
  lemma StaleCrashIsNothing(s: State, i: nat, errorCode: Option<string>)
    requires Inv(s) && i < |s.claims| && !IsLatest(s.claims, i)
    ensures MarkCrashed(s, s.claims[i].job, s.claims[i].startedAt, errorCode) == s
  {
    LatestClaimOnly(s, i, Error, errorCode);
    CompleteChanges(s, s.claims[i].job, s.claims[i].startedAt, Error, errorCode);
  }

  predicate Over(job: Job) {
    job.status == Done || job.status == Error
  }

  lemma {:induction false} StepKeepsOver(s: State, e: Event, job: nat)
    requires job < |s.jobs| && Over(s.jobs[job])
    ensures job < |Step(s, e).jobs| && Step(s, e).jobs[job] == s.jobs[job]
  {
    hide Oldest, LastFinish, FindRun, Stamp, HasLive;
    StepTells(s, e);
    var t := s.(now := e.at);
    if e.op.ClaimJob? {
      assert Oldest(t.jobs, Waits) < |t.jobs| ==> t.jobs[Oldest(t.jobs, Waits)].status == Queued;
    }
  }

  /** A finished job is never touched again, by any worker with any claim. */
  lemma {:induction false} OverForEver(s: State, events: seq<Event>, job: nat)
    requires job < |s.jobs| && Over(s.jobs[job])
    ensures job < |RunFrom(s, events).jobs| && RunFrom(s, events).jobs[job] == s.jobs[job]
    decreases events
  {
    hide Step;
    if events != [] {
      StepKeepsOver(s, events[0], job);
      OverForEver(Step(s, events[0]), events[1..], job);
    }
  }

  /** No step but the second half of get-or-open adds a run, and none touches a closed one. */
  lemma {:induction false} OthersOpenNone(s: State, e: Event)
    requires !(e.op.OpenRun? && e.op.worker in s.opening)
    ensures var runs := Step(s, e).runs;
            && |runs| == |s.runs|
            && (forall i :: 0 <= i < |runs| ==> runs[i].job == s.runs[i].job)
            && (forall i :: 0 <= i < |runs| && s.runs[i].status != RunRunning ==> runs[i] == s.runs[i])
            && (Proper(e) ==> forall i :: 0 <= i < |runs| && runs[i].status == RunRunning ==> runs[i] == s.runs[i])
    ensures !e.op.LookupRun? ==> Step(s, e).opening == s.opening
  {
    hide Oldest, LastFinish, FindRun, Stamp, HasLive, SweepJob, Complete, CloseRun, Holds;
    var t := s.(now := e.at);
    match e.op
    case CompleteJob(job, claimedAt, status, errorCode) => CompleteTells(t, job, claimedAt, status, errorCode);
    case CloseOneRun(run, runStatus, errorCode) => CloseRunTells(t, run, runStatus, errorCode);
    case Crashed(job, claimedAt, errorCode) =>
      CloseRunTells(t, FindRun(t.runs, job), Failed, errorCode);
      CompleteTells(CloseRun(t, FindRun(t.runs, job), Failed, errorCode), job, claimedAt, Error, errorCode);
    case FinishPass(run, runStatus, job, claimedAt, status, errorCode) =>
      CloseRunTells(t, run, runStatus, errorCode);
      CompleteTells(CloseRun(t, run, runStatus, errorCode), job, claimedAt, status, errorCode);
    case _ =>
  }

  lemma {:induction false} StepKeepsClosed(s: State, e: Event, run: nat)
    requires run < |s.runs| && s.runs[run].status != RunRunning
    ensures run < |Step(s, e).runs| && Step(s, e).runs[run] == s.runs[run]
  {
    if e.op.OpenRun? && e.op.worker in s.opening {
      assert Step(s, e).runs[..|s.runs|] == s.runs;
    } else {
      hide Step;
      OthersOpenNone(s, e);
    }
  }

  /** A closed run never changes again. */
  lemma {:induction false} ClosedForEver(s: State, events: seq<Event>, run: nat)
    requires run < |s.runs| && s.runs[run].status != RunRunning
    ensures run < |RunFrom(s, events).runs| && RunFrom(s, events).runs[run] == s.runs[run]
    decreases events
  {
    hide Step;
    if events != [] {
      StepKeepsClosed(s, events[0], run);
      ClosedForEver(Step(s, events[0]), events[1..], run);
    }
  }

  // -- one run for a job

  /** The run is the job's only running one, and no worker is about to open another. */
  ghost predicate Settled(s: State, job: nat, run: nat) {
    && run < |s.runs| && OpenRunOf(s.runs[run], job)
    && (forall i :: 0 <= i < |s.runs| && OpenRunOf(s.runs[i], job) ==> i == run)
    && (forall worker :: worker in s.opening ==> s.opening[worker] != job)
  }

  /** The job's running run is the one a lookup finds. */
  lemma SettledIsFound(s: State, job: nat, run: nat)
    requires Settled(s, job, run)
    ensures FindRun(s.runs, job) == run
  {
    assert OpenRunOf(s.runs[run], job);
  }

  lemma {:induction false} StepKeepsSettled(s: State, e: Event, job: nat, run: nat)
    requires Settled(s, job, run) && Proper(e)
    ensures run < |Step(s, e).runs|
    ensures Step(s, e).runs[run].status == RunRunning ==>
      Settled(Step(s, e), job, run) && Step(s, e).runs[run] == s.runs[run]
  {
    SettledIsFound(s, job, run);
    if e.op.OpenRun? && e.op.worker in s.opening {
      OpenKeepsSettled(s, e, job, run);
    } else {
      OthersOpenNone(s, e);
      if e.op.LookupRun? {
        assert Step(s, e).opening == s.opening || Step(s, e).opening == s.opening[e.op.worker := e.op.job];
        assert e.op.job == job ==> Step(s, e).opening == s.opening;
      }
      hide Step, FindRun;
    }
  }

  lemma OpenKeepsSettled(s: State, e: Event, job: nat, run: nat)
    requires Settled(s, job, run) && e.op.OpenRun? && e.op.worker in s.opening
    ensures Settled(Step(s, e), job, run) && Step(s, e).runs[run] == s.runs[run]
  {
    hide FindRun;
  }

  /** Two runs of a job are never running at once. */
  ghost predicate OneRunPerJob(runs: seq<Run>) {
    forall i, j :: 0 <= i < j < |runs| && runs[i].status == RunRunning && runs[j].status == RunRunning ==>
      runs[i].job != runs[j].job
  }

  predicate OpensSecond(s: State, op: Op) {
    op.OpenRun? && op.worker in s.opening && FindRun(s.runs, s.opening[op.worker]) < |s.runs|
  }

  /** What breaks it is exactly an opener whose lookup has been overtaken by another's insert. */
  lemma OneRunBreaksIff(s: State, e: Event)
    requires OneRunPerJob(s.runs)
    requires Proper(e)
    ensures OneRunPerJob(Step(s, e).runs) <==> !OpensSecond(s, e.op)
  {
    hide Oldest, LastFinish, Stamp, HasLive, SweepJob;
    var t := Step(s, e);
    if e.op.OpenRun? && e.op.worker in s.opening {
      var job := s.opening[e.op.worker];
      var r := FindRun(s.runs, job);
      assert t.runs == s.runs + [Run(job, RunRunning, e.at, None, None)];
      if r < |s.runs| {
        assert t.runs[r] == s.runs[r] && t.runs[|s.runs|].job == job;
      } else {
        assert forall i :: 0 <= i < |s.runs| ==> !OpenRunOf(s.runs[i], job);
      }
    } else {
      OthersOpenNone(s, e);
    }
  }

  /** It does happen: a claim, a lookup, an expired lease, a second claim, and both workers open a run. */
  lemma TwoRunsCanBeOpen()
    ensures exists events :: Timely(events, START.now) && !OneRunPerJob(RunFrom(START, events).runs)
  {
    hide RunFrom, Timely, Step, OneRunPerJob;
    var first, second, third := Claim(0, 2), Claim(0, 10), map[1 := 0];
    var s3 := State([Job(CrawlPass, Running, 1, Some(2), Some(7), None, None)], [], third, map[], [first], 3);
    var s4 := State([Job(CrawlPass, Queued, 1, None, None, None, None)], [], third, map[], [first], 9);
    var s6 := State([Job(CrawlPass, Running, 1, Some(10), Some(15), None, None)], [], map[1 := 0, 2 := 0], map[],
                    [first, second], 11);
    var last := [Event(OpenRun(2), 12), Event(OpenRun(1), 13)];
    var later := [Event(ClaimJob(5), 10), Event(LookupRun(2, 0), 11)] + last;
    var all := [Event(EnqueueNow(CrawlPass), 1), Event(ClaimJob(5), 2), Event(LookupRun(1, 0), 3)]
      + ([Event(SweepLeases, 9)] + later);
    BothOpen(s6, last);
    SecondClaim(s4, s6, last);
    Expires(s3, s4, later);
    FirstClaim(s3, [Event(SweepLeases, 9)] + later);
    assert Timely(all, START.now) && !OneRunPerJob(RunFrom(START, all).runs);
  }

  lemma {:induction false} Chain(s: State, e: Event, rest: seq<Event>)
    ensures RunFrom(s, [e] + rest) == RunFrom(Step(s, e), rest)
    ensures Timely([e] + rest, s.now) <==> s.now <= e.at && Proper(e) && Timely(rest, e.at)
  {
    hide Step, Proper;
    assert ([e] + rest)[1..] == rest;
  }

  lemma {:induction false} FirstClaim(s: State, rest: seq<Event>)
    requires s == State([Job(CrawlPass, Running, 1, Some(2), Some(7), None, None)], [], map[1 := 0], map[],
                        [Claim(0, 2)], 3)
    ensures var events := [Event(EnqueueNow(CrawlPass), 1), Event(ClaimJob(5), 2), Event(LookupRun(1, 0), 3)] + rest;
            && RunFrom(START, events) == RunFrom(s, rest)
            && (Timely(events, START.now) <==> Timely(rest, s.now))
  {
    hide *;
    var e1, e2, e3 := Event(EnqueueNow(CrawlPass), 1), Event(ClaimJob(5), 2), Event(LookupRun(1, 0), 3);
    FirstSteps(s);
    Chain(START, e1, [e2, e3] + rest);
    Chain(Step(START, e1), e2, [e3] + rest);
    Chain(Step(Step(START, e1), e2), e3, rest);
    ProperFirst();
    assert [e2, e3] + rest == [e2] + ([e3] + rest);
    assert [e1, e2, e3] + rest == [e1] + ([e2, e3] + rest);
  }

  lemma {:induction false} FirstSteps(s: State)
    requires s == State([Job(CrawlPass, Running, 1, Some(2), Some(7), None, None)], [], map[1 := 0], map[],
                        [Claim(0, 2)], 3)
    ensures var s1 := Step(START, Event(EnqueueNow(CrawlPass), 1));
            var s2 := Step(s1, Event(ClaimJob(5), 2));
            && START.now == 0 && s1.now == 1 && s2.now == 2
            && Step(s2, Event(LookupRun(1, 0), 3)) == s
  {
    FirstEnqueue();
    FirstClaimed(Step(START, Event(EnqueueNow(CrawlPass), 1)));
    hide Enqueue, ClaimNext, FindRun, HasLive, Oldest;
    NoRunFound();
  }

  lemma FirstEnqueue()
    ensures Step(START, Event(EnqueueNow(CrawlPass), 1))
         == State([Job(CrawlPass, Queued, 1, None, None, None, None)], [], map[], map[], [], 1)
  {
  }

  lemma {:induction false} FirstClaimed(s: State)
    requires s == State([Job(CrawlPass, Queued, 1, None, None, None, None)], [], map[], map[], [], 1)
    ensures Step(s, Event(ClaimJob(5), 2))
         == State([Job(CrawlPass, Running, 1, Some(2), Some(7), None, None)], [], map[], map[], [Claim(0, 2)], 2)
  {
    assert Oldest(s.jobs, Waits) == 0;
    hide Oldest;
  }

  lemma NoRunFound()
    ensures FindRun([], 0) == 0
  {
  }

  lemma ProperFirst()
    ensures Proper(Event(EnqueueNow(CrawlPass), 1)) && Proper(Event(ClaimJob(5), 2))
    ensures Proper(Event(LookupRun(1, 0), 3))
  {
  }

  lemma {:induction false} Expires(s: State, after: State, rest: seq<Event>)
    requires s.jobs == [Job(CrawlPass, Running, 1, Some(2), Some(7), None, None)] && s.now == 3
    requires after == s.(jobs := [Job(CrawlPass, Queued, 1, None, None, None, None)], now := 9)
    ensures RunFrom(s, [Event(SweepLeases, 9)] + rest) == RunFrom(after, rest)
    ensures Timely([Event(SweepLeases, 9)] + rest, s.now) <==> Timely(rest, after.now)
  {
    hide RunFrom, Timely;
    assert Step(s, Event(SweepLeases, 9)) == after;
    Chain(s, Event(SweepLeases, 9), rest);
  }

  lemma {:induction false} SecondClaim(s: State, after: State, rest: seq<Event>)
    requires s.jobs == [Job(CrawlPass, Queued, 1, None, None, None, None)] && s.now == 9 && s.runs == []
    requires after == s.(jobs := [Job(CrawlPass, Running, 1, Some(10), Some(15), None, None)],
                         opening := s.opening[2 := 0], claims := s.claims + [Claim(0, 10)], now := 11)
    ensures var events := [Event(ClaimJob(5), 10), Event(LookupRun(2, 0), 11)] + rest;
            && RunFrom(s, events) == RunFrom(after, rest)
            && (Timely(events, s.now) <==> Timely(rest, after.now))
  {
    hide RunFrom, Timely;
    var e1, e2 := Event(ClaimJob(5), 10), Event(LookupRun(2, 0), 11);
    var s1 := after.(opening := s.opening, now := 10);
    assert Oldest(s.jobs, Waits) == 0;
    assert Step(s, e1) == s1;
    assert FindRun([], 0) == 0;
    assert Step(s1, e2) == after;
    Chain(s, e1, [e2] + rest);
    Chain(s1, e2, rest);
    assert [e1, e2] + rest == [e1] + ([e2] + rest);
  }

  lemma {:induction false} BothOpen(s: State, events: seq<Event>)
    requires s.runs == [] && s.opening == map[1 := 0, 2 := 0] && s.now == 11
    requires events == [Event(OpenRun(2), 12), Event(OpenRun(1), 13)]
    ensures Timely(events, s.now) && !OneRunPerJob(RunFrom(s, events).runs)
  {
    hide RunFrom, Timely;
    var e1, e2 := Event(OpenRun(2), 12), Event(OpenRun(1), 13);
    var s1 := Step(s, e1);
    var s2 := Step(s1, e2);
    assert s1.opening == map[1 := 0] && s1.runs == [Run(0, RunRunning, 12, None, None)];
    assert s2.runs == [Run(0, RunRunning, 12, None, None), Run(0, RunRunning, 13, None, None)];
    Chain(s, e1, [e2]);
    Chain(s1, e2, []);
    EndOfRun(s2);
    assert [e1] + [e2] == events && [e2] + [] == [e2];
    assert s2.runs[0].job == s2.runs[1].job;
  }

  lemma EndOfRun(s: State)
    ensures RunFrom(s, []) == s && Timely([], s.now)
  {
  }

  // -- progress

  /** The pages of the school attempted at or after `since`, counted as the query counts them. */
  function CountSince(attempts: map<(int, Tab), int>, school: int, since: int, tabs: seq<Tab>): nat {
    if tabs == [] then 0
    else
      var page := (school, tabs[|tabs| - 1]);
      CountSince(attempts, school, since, tabs[..|tabs| - 1])
      + (if page in attempts && attempts[page] >= since then 1 else 0)
  }

  /** The schools of the crosswalk still to do in a run that began at `since`. */
  function Pending(attempts: map<(int, Tab), int>, schools: set<int>, since: int): set<int> {
    set school | school in schools && CountSince(attempts, school, since, TABS) != 6
  }

  predicate AttemptedSince(attempts: map<(int, Tab), int>, page: (int, Tab), since: int) {
    page in attempts && attempts[page] >= since
  }

  lemma {:induction false} CountIsFull(attempts: map<(int, Tab), int>, school: int, since: int, tabs: seq<Tab>)
    ensures CountSince(attempts, school, since, tabs) <= |tabs|
    ensures CountSince(attempts, school, since, tabs) == |tabs|
       <==> forall tab :: tab in tabs ==> AttemptedSince(attempts, (school, tab), since)
  {
    if tabs != [] {
      var front := tabs[..|tabs| - 1];
      CountIsFull(attempts, school, since, front);
      assert forall tab :: tab in tabs <==> tab in front || tab == tabs[|tabs| - 1];
    }
  }

  lemma AllTabs(tab: Tab)
    ensures tab in TABS
  {
    match tab
    case Overview => assert TABS[0] == tab;
    case Admission => assert TABS[1] == tab;
    case MoneyMatters => assert TABS[2] == tab;
    case Academics => assert TABS[3] == tab;
    case CampusLife => assert TABS[4] == tab;
    case Students => assert TABS[5] == tab;
  }

  /** A school is done exactly when all six of its pages were attempted since the run began. */
  lemma PendingMeans(attempts: map<(int, Tab), int>, schools: set<int>, since: int, school: int)
    requires school in schools
    ensures school !in Pending(attempts, schools, since)
       <==> forall tab :: AttemptedSince(attempts, (school, tab), since)
  {
    CountIsFull(attempts, school, since, TABS);
    forall tab: Tab ensures tab in TABS {
      AllTabs(tab);
    }
    assert |TABS| == 6;
  }

  lemma {:induction false} StampMeans(attempts: map<(int, Tab), int>, school: int, tabs: seq<Tab>, now: int,
                                      page: (int, Tab))
    ensures var after := Stamp(attempts, school, tabs, now);
            && (page.0 == school && page.1 in tabs ==> page in after && after[page] == now)
            && (page.0 != school || page.1 !in tabs ==>
                  (page in after <==> page in attempts) && (page in after ==> after[page] == attempts[page]))
  {
    if tabs != [] {
      StampMeans(attempts, school, tabs[..|tabs| - 1], now, page);
      assert page.1 in tabs <==> page.1 in tabs[..|tabs| - 1] || page.1 == tabs[|tabs| - 1];
    }
  }

  /** The clock reading of the last transaction for the school that a run of events commits. */
  function LastAttempt(events: seq<Event>, school: int): Option<int>
    decreases events
  {
    if events == [] then None
    else
      var later := LastAttempt(events[1..], school);
      if later.Some? then later else OneAttempt(events[0].op, school)
  }

  function OneAttempt(op: Op, school: int): Option<int> {
    if op.AttemptSchool? && op.school == school then Some(op.readAt) else None
  }

  /** The schools left after their last transactions: done if it began after `since`, to do if it began before; without
      one, as before. */
  function Left(before: set<int>, schools: set<int>, since: int, last: int -> Option<int>): set<int> {
    set school | school in schools && match last(school) case None => school in before case Some(r) => r < since
  }

  /** A school's transaction decides about that school and no other; no other step changes the list. */
  lemma {:induction false} StepPending(s: State, e: Event, schools: set<int>, since: int)
    ensures Pending(Step(s, e).attempts, schools, since)
         == Left(Pending(s.attempts, schools, since), schools, since, school => OneAttempt(e.op, school))
  {
    hide Oldest, LastFinish, FindRun, Stamp, HasLive, SweepJob, CountSince;
    var after := Step(s, e).attempts;
    if e.op.AttemptSchool? {
      assert after == Stamp(s.attempts, e.op.school, TABS, e.op.readAt);
      forall school ensures school in Pending(after, schools, since)
                       <==> school in schools && if school == e.op.school then e.op.readAt < since
                                                 else school in Pending(s.attempts, schools, since)
      {
        StampPending(s.attempts, e.op.school, e.op.readAt, schools, since, school);
      }
    } else {
      assert after == s.attempts;
    }
  }

  lemma StampPending(attempts: map<(int, Tab), int>, stamped: int, readAt: int, schools: set<int>, since: int,
                     school: int)
    ensures school in Pending(Stamp(attempts, stamped, TABS, readAt), schools, since)
       <==> school in schools && if school == stamped then readAt < since else school in Pending(attempts, schools, since)
  {
    hide Stamp, CountSince, TABS;
    var after := Stamp(attempts, stamped, TABS, readAt);
    if school in schools {
      PendingMeans(attempts, schools, since, school);
      PendingMeans(after, schools, since, school);
      forall tab ensures AttemptedSince(after, (school, tab), since)
                    <==> if school == stamped then since <= readAt else AttemptedSince(attempts, (school, tab), since)
      {
        AllTabs(tab);
        StampMeans(attempts, stamped, TABS, readAt, (school, tab));
      }
      assert AttemptedSince(after, (school, Overview), since)
        <==> if school == stamped then since <= readAt else AttemptedSince(attempts, (school, Overview), since);
    }
  }

  /** Over every run of events the last transaction of each school decides. */
  lemma {:induction false} RunPending(s: State, events: seq<Event>, schools: set<int>, since: int)
    ensures Pending(RunFrom(s, events).attempts, schools, since)
         == Left(Pending(s.attempts, schools, since), schools, since, school => LastAttempt(events, school))
    decreases events
  {
    hide Step, Pending;
    PendingIsWithin(s.attempts, schools, since);
    if events != [] {
      StepPending(s, events[0], schools, since);
      RunPending(Step(s, events[0]), events[1..], schools, since);
    }
  }

  lemma PendingIsWithin(attempts: map<(int, Tab), int>, schools: set<int>, since: int)
    ensures Pending(attempts, schools, since) <= schools
  {
  }

  /**
   * Progress survives every crash: while a settled run stays open, whatever was claimed, swept, crashed, re-claimed
   * and resumed meanwhile, a lookup still finds it with the same start, and a school is pending for it exactly when
   * its last transaction since began before the run did, or when there was none and it was pending before.
   */
  lemma {:induction false} CrashSafeProgress(s: State, events: seq<Event>, job: nat, run: nat, schools: set<int>)
    requires Settled(s, job, run) && Timely(events, s.now)
    ensures var t := RunFrom(s, events);
            var since := s.runs[run].startedAt;
            && run < |t.runs|
            && Pending(t.attempts, schools, since)
               == Left(Pending(s.attempts, schools, since), schools, since, school => LastAttempt(events, school))
            && (t.runs[run].status == RunRunning ==>
                  Settled(t, job, run) && FindRun(t.runs, job) == run && t.runs[run] == s.runs[run])
    decreases events
  {
    hide Step, Pending, Left, FindRun, Proper, LastAttempt;
    RunPending(s, events, schools, s.runs[run].startedAt);
    if events == [] {
      SettledIsFound(s, job, run);
    } else {
      var e := events[0];
      StepKeepsSettled(s, e, job, run);
      StepTells(s, e);
      if Step(s, e).runs[run].status == RunRunning {
        CrashSafeProgress(Step(s, e), events[1..], job, run, schools);
      } else {
        ClosedForEver(Step(s, e), events[1..], run);
      }
    }
  }

  /** The school's last transaction began before `since`. */
  predicate Late(events: seq<Event>, since: int, school: int) {
    var last := LastAttempt(events, school);
    last.Some? && last.value < since
  }

  /**
   * The list grows exactly when the last transaction of a school that was done began before the run did; otherwise it
   * is the list from before less the schools stepped.
   */
  lemma PendingGrowsIff(s: State, events: seq<Event>, schools: set<int>, since: int)
    ensures var before, after := Pending(s.attempts, schools, since), Pending(RunFrom(s, events).attempts, schools, since);
            && (!(after <= before) <==> exists school :: school in schools - before && Late(events, since, school))
            && ((forall school | school in schools :: !Late(events, since, school)) ==>
                  after == set school | school in before && LastAttempt(events, school).None?)
  {
    hide Pending, RunFrom, LastAttempt;
    RunPending(s, events, schools, since);
    PendingIsWithin(s.attempts, schools, since);
    var before, after := Pending(s.attempts, schools, since), Pending(RunFrom(s, events).attempts, schools, since);
    if school :| school in schools - before && Late(events, since, school) {
      assert school in after;
    }
    if !(after <= before) {
      var school :| school in after && school !in before;
      assert Late(events, since, school);
    }
  }

  /** A transaction from before the run's start, committed late, puts a finished school back on the list. */
  lemma LateAttemptReturns(s: State, school: int, readAt: int, since: int, at: int)
    requires Pending(s.attempts, {school}, since) == {} && readAt < since <= s.now <= at
    ensures var e := Event(AttemptSchool(school, readAt), at);
            Timely([e], s.now) && Pending(Step(s, e).attempts, {school}, since) == {school}
  {
    hide Pending, Step;
    var e := Event(AttemptSchool(school, readAt), at);
    StepPending(s, e, {school}, since);
    assert [e][1..] == [];
  }

  /** No school is left exactly when every page of the crosswalk was attempted since the start. */
  lemma AllAttemptedIff(s: State, events: seq<Event>, schools: set<int>, since: int)
    ensures Left(Pending(s.attempts, schools, since), schools, since, school => LastAttempt(events, school)) == {}
       <==> forall school, tab | school in schools :: AttemptedSince(RunFrom(s, events).attempts, (school, tab), since)
  {
    hide Pending, RunFrom, LastAttempt;
    RunPending(s, events, schools, since);
    var attempts := RunFrom(s, events).attempts;
    PendingIsWithin(attempts, schools, since);
    forall school | school in schools
      ensures school !in Pending(attempts, schools, since) <==> forall tab :: AttemptedSince(attempts, (school, tab), since)
    {
      PendingMeans(attempts, schools, since, school);
    }
    if Pending(attempts, schools, since) != {} {
      var school :| school in Pending(attempts, schools, since);
      assert school in schools;
    }
  }

  // -- what each statement writes

  /** The operation finishes the job under the claim of that time: with which status and error. */
  function Verdict(op: Op, i: nat, claimedAt: Option<int>): Option<(Status, Option<string>)> {
    match op
    case CompleteJob(job, at, status, error) => if job == i && claimedAt == Some(at) then Some((status, error)) else None
    case FinishPass(_, _, job, at, status, error) => if job == i && claimedAt == Some(at) then Some((status, error)) else None
    case Crashed(job, at, error) => if job == i && claimedAt == Some(at) then Some((Error, error)) else None
    case _ => None
  }

  /** What becomes of one job, column by column. */
  function JobAfter(job: Job, i: nat, next: bool, e: Event): Job {
    if next && e.op.ClaimJob? then
      Job(job.kind, Running, job.queuedAt, Some(e.at), Some(e.at + e.op.lease), job.finishedAt, job.errorCode)
    else if job.status != Running then job
    else if e.op.RenewLease? && e.op.job == i then
      Job(job.kind, Running, job.queuedAt, job.startedAt, Some(e.at + e.op.lease), job.finishedAt, job.errorCode)
    else if e.op == SweepLeases && job.leaseExpiresAt.Some? && job.leaseExpiresAt.value < e.at then
      Job(job.kind, Queued, job.queuedAt, None, None, job.finishedAt, job.errorCode)
    else if Verdict(e.op, i, job.startedAt).Some? then
      var (status, error) := Verdict(e.op, i, job.startedAt).value;
      Job(job.kind, status, job.queuedAt, job.startedAt, job.leaseExpiresAt, Some(e.at), error)
    else job
  }

  lemma VerdictWritesJob(s: State, e: Event, i: nat)
    requires i < |s.jobs| && (e.op.CompleteJob? || e.op.Crashed? || e.op.FinishPass?) && s.now == e.at
    ensures i < |Apply(s, e.op).jobs| && Apply(s, e.op).jobs[i] == JobAfter(s.jobs[i], i, false, e)
  {
    hide Oldest, LastFinish, FindRun, Stamp, HasLive, CloseRun;
    var run := if e.op.Crashed? then FindRun(s.runs, e.op.job) else if e.op.FinishPass? then e.op.run else 0;
    var status := if e.op.FinishPass? then e.op.runStatus else Failed;
    var error := if e.op.CompleteJob? || e.op.Crashed? || e.op.FinishPass? then e.op.errorCode else None;
    CloseKeepsJobs(s, run, status, error);
  }

  lemma CloseKeepsJobs(s: State, run: nat, status: RunStatus, error: Option<string>)
    ensures var t := CloseRun(s, run, status, error); t.jobs == s.jobs && t.now == s.now
  {
  }

  lemma LeaseWritesJob(s: State, e: Event, i: nat)
    requires i < |s.jobs| && (e.op.ClaimJob? || e.op.RenewLease? || e.op.SweepLeases?) && s.now == e.at
    ensures i < |Apply(s, e.op).jobs| && Apply(s, e.op).jobs[i] == JobAfter(s.jobs[i], i, IsNext(s.jobs, Waits, i), e)
  {
    NextIsOldest(s.jobs, Waits, i);
    hide Oldest, IsNext;
  }

  lemma EnqueueKeepsJobs(s: State, kind: Kind, interval: int, i: nat)
    requires i < |s.jobs|
    ensures i < |Enqueue(s, kind).jobs| && Enqueue(s, kind).jobs[i] == s.jobs[i]
    ensures i < |EnqueueDaily(s, interval).jobs| && EnqueueDaily(s, interval).jobs[i] == s.jobs[i]
  {
    hide LastFinish, HasLive;
  }

  /** Every step leaves of each job exactly what the columns say. */
  lemma {:induction false} StepWritesJob(s: State, e: Event, i: nat)
    requires i < |s.jobs|
    ensures i < |Step(s, e).jobs| && Step(s, e).jobs[i] == JobAfter(s.jobs[i], i, IsNext(s.jobs, Waits, i), e)
  {
    var t := s.(now := e.at);
    if e.op.CompleteJob? || e.op.Crashed? || e.op.FinishPass? {
      hide *;
      VerdictWritesJob(t, e, i);
      StepIs(s, e);
      NotNext(s.jobs[i], i, IsNext(s.jobs, Waits, i), e);
    } else if e.op.ClaimJob? || e.op.RenewLease? || e.op.SweepLeases? {
      LeaseWritesJob(t, e, i);
    } else {
      OthersWriteNoJob(t, e, i);
    }
  }

  lemma StepIs(s: State, e: Event)
    ensures Step(s, e) == Apply(s.(now := e.at), e.op)
  {
    hide Apply;
  }

  lemma NotNext(job: Job, i: nat, next: bool, e: Event)
    requires !e.op.ClaimJob?
    ensures JobAfter(job, i, next, e) == JobAfter(job, i, false, e)
  {
    hide Verdict;
  }

  lemma OthersWriteNoJob(s: State, e: Event, i: nat)
    requires i < |s.jobs| && s.now == e.at
    requires e.op.DailyTick? || e.op.EnqueueNow? || e.op.LookupRun? || e.op.OpenRun? || e.op.CloseOneRun?
             || e.op.AttemptSchool?
    ensures i < |Apply(s, e.op).jobs| && Apply(s, e.op).jobs[i] == s.jobs[i]
    ensures JobAfter(s.jobs[i], i, IsNext(s.jobs, Waits, i), e) == s.jobs[i]
  {
    hide Enqueue, EnqueueDaily, FindRun, Stamp, IsNext, CloseRun;
    match e.op
    case DailyTick(interval) => EnqueueKeepsJobs(s, CrawlPass, interval, i);
    case EnqueueNow(kind) => EnqueueKeepsJobs(s, kind, 0, i);
    case CloseOneRun(run, status, error) => CloseKeepsJobs(s, run, status, error);
    case _ =>
  }

  /** A new job is queued, of the kind asked for, at the time of the step. */
  lemma StepEnqueues(s: State, e: Event)
    ensures var jobs := Step(s, e).jobs;
            if (e.op.EnqueueNow? && !HasLive(s.jobs, e.op.kind))
               || (e.op.DailyTick? && !HasLive(s.jobs, CrawlPass) && LastFinish(s.runs) < e.at - e.op.interval)
            then |jobs| == |s.jobs| + 1
                 && jobs[|s.jobs|] == Job(if e.op.EnqueueNow? then e.op.kind else CrawlPass, Queued, e.at, None, None, None, None)
            else |jobs| == |s.jobs|
  {
    hide Oldest, LastFinish, FindRun, Stamp, HasLive;
  }

  /** Which run an operation closes, with which status and error. */
  function RunVerdict(s: State, op: Op): Option<(nat, RunStatus, Option<string>)> {
    match op
    case CloseOneRun(run, status, error) => Some((run, status, error))
    case FinishPass(run, status, _, _, _, error) => Some((run, status, error))
    case Crashed(job, at, error) =>
      if job < |s.jobs| && s.jobs[job].status == Running && s.jobs[job].startedAt == Some(at)
      then Some((FindRun(s.runs, job), Failed, error)) else None
    case _ => None
  }

  lemma CompleteKeepsRuns(s: State, job: nat, claimedAt: int, status: Status, error: Option<string>)
    ensures Complete(s, job, claimedAt, status, error).runs == s.runs
  {
    hide Holds;
  }

  lemma QueueKeepsRuns(s: State, op: Op)
    requires op.DailyTick? || op.EnqueueNow? || op.ClaimJob? || op.RenewLease? || op.SweepLeases? || op.CompleteJob?
             || op.LookupRun? || op.AttemptSchool?
    ensures Apply(s, op).runs == s.runs
  {
    hide Oldest, LastFinish, FindRun, Stamp, HasLive, Complete, SweepJob;
    if op.CompleteJob? {
      CompleteKeepsRuns(s, op.job, op.claimedAt, op.status, op.errorCode);
    }
  }

  lemma VerdictWritesRun(s: State, e: Event, r: nat)
    requires r < |s.runs| && s.now == e.at && (e.op.CloseOneRun? || e.op.FinishPass? || e.op.Crashed?)
    ensures |Apply(s, e.op).runs| == |s.runs|
    ensures var verdict := RunVerdict(s, e.op);
            Apply(s, e.op).runs[r]
            == if s.runs[r].status == RunRunning && verdict.Some? && verdict.value.0 == r
               then Run(s.runs[r].job, verdict.value.1, s.runs[r].startedAt, Some(e.at), verdict.value.2)
               else s.runs[r]
  {
    hide FindRun, Complete;
    match e.op
    case CloseOneRun(_, _, _) =>
    case FinishPass(run, runStatus, job, claimedAt, status, error) =>
      CompleteKeepsRuns(CloseRun(s, run, runStatus, error), job, claimedAt, status, error);
    case Crashed(job, claimedAt, error) =>
      CompleteKeepsRuns(CloseRun(s, FindRun(s.runs, job), Failed, error), job, claimedAt, Error, error);
  }

  /** Every step leaves of each run exactly what the columns say, and adds one only for a worker that opens it. */
  lemma {:induction false} StepWritesRun(s: State, e: Event, r: nat)
    requires r < |s.runs|
    ensures r < |Step(s, e).runs|
    ensures var verdict := RunVerdict(s, e.op);
            Step(s, e).runs[r]
            == if s.runs[r].status == RunRunning && verdict.Some? && verdict.value.0 == r
               then Run(s.runs[r].job, verdict.value.1, s.runs[r].startedAt, Some(e.at), verdict.value.2)
               else s.runs[r]
    ensures if e.op.OpenRun? && e.op.worker in s.opening
            then Step(s, e).runs == s.runs + [Run(s.opening[e.op.worker], RunRunning, e.at, None, None)]
            else |Step(s, e).runs| == |s.runs|
  {
    var t := s.(now := e.at);
    StepIs(s, e);
    if e.op.CloseOneRun? || e.op.FinishPass? || e.op.Crashed? {
      hide Apply;
      VerdictWritesRun(t, e, r);
    } else if e.op.OpenRun? {
      hide FindRun;
    } else {
      hide Apply;
      QueueKeepsRuns(t, e.op);
    }
  }

  /** The event finishes the job as it stands. */
  predicate FinishedBy(job: Job, i: nat, e: Event) {
    var verdict := Verdict(e.op, i, job.startedAt);
    verdict.Some? && verdict.value == (job.status, job.errorCode) && job.finishedAt == Some(e.at)
  }

  /** Over every run, a job that comes to an end has the status, the error and the time of one operation that its worker
      sent under the claim it still has. */
  lemma {:induction false} FinishedAsTold(s: State, events: seq<Event>, i: nat)
    requires i < |s.jobs| && Live(s.jobs[i]) && Timely(events, s.now)
    ensures i < |RunFrom(s, events).jobs|
    ensures !Live(RunFrom(s, events).jobs[i]) ==> exists e | e in events :: FinishedBy(RunFrom(s, events).jobs[i], i, e)
    decreases events
  {
    hide Step, IsNext, Proper;
    if events != [] {
      var e, rest := events[0], events[1..];
      var t := Step(s, e);
      StepWritesJob(s, e, i);
      StepTells(s, e);
      if Live(t.jobs[i]) {
        FinishedAsTold(t, rest, i);
        if x :| x in rest && FinishedBy(RunFrom(t, rest).jobs[i], i, x) {
          assert x in events;
        }
      } else {
        OverForEver(t, rest, i);
        assert e in events && FinishedBy(t.jobs[i], i, e);
      }
    }
  }

  // -- runs from the empty tables

  /** In every state that can be reached the invariant holds. */
  lemma EveryRunIsSound(events: seq<Event>)
    requires Timely(events, START.now)
    ensures Inv(RunFrom(START, events))
  {
    hide Inv, RunFrom;
    StartInv();
    RunKeepsInv(START, events);
  }
}
