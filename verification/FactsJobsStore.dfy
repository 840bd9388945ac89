/** The tables of facts jobs, crawl runs and page attempts, and the statements on them (adapters/facts_jobs_store.py). */
module FactsJobsStore {
  import opened Options
  import opened Queues
  import opened JobRules

  class FactsJobsStore {
    var jobs: seq<Job>
    var runs: seq<Run>
    var attempts: map<(int, Tab), int>
    var now: int
    ghost var opening: map<nat, nat>
    ghost var claims: seq<Claim>

    ghost function View(): State
      reads this
    {
      State(jobs, runs, opening, attempts, claims, now)
    }

    constructor ()
      ensures View() == START
    {
      jobs, runs, attempts, now := [], [], map[], 0;
      opening, claims := map[], [];
    }

    method FindLive(kind: Kind) returns (found: bool)
      ensures found <==> HasLive(jobs, kind)
    {
      found := false;
      for i := 0 to |jobs|
        invariant found <==> HasLive(jobs[..i], kind)
      {
        assert jobs[..i + 1] == jobs[..i] + [jobs[i]];
        if jobs[i].kind == kind && Live(jobs[i]) {
          assert jobs[..i + 1][i] == jobs[i];
          found := true;
        }
        assert HasLive(jobs[..i], kind) ==> HasLive(jobs[..i + 1], kind) by {
          assert forall k :: 0 <= k < i ==> jobs[..i + 1][k] == jobs[..i][k];
        }
      }
      assert jobs[..|jobs|] == jobs;
    }

    /** The oldest finish of nothing is the epoch. */
    method FindLastFinish() returns (latest: int)
      ensures latest == LastFinish(runs)
    {
      latest := 0;
      for i := 0 to |runs|
        invariant latest == LastFinish(runs[..i])
      {
        assert runs[..i + 1][..i] == runs[..i];
        if runs[i].finishedAt.Some? && runs[i].finishedAt.value > latest {
          latest := runs[i].finishedAt.value;
        }
      }
      assert runs[..|runs|] == runs;
    }

    method EnqueueDailyPass(interval: int, at: int) returns (enqueued: bool)
      modifies this
      ensures View() == Step(old(View()), Event(DailyTick(interval), at))
      ensures enqueued <==> |jobs| > |old(jobs)|
    {
      hide HasLive, LastFinish;
      now := at;
      var live := FindLive(CrawlPass);
      var latest := FindLastFinish();
      if live || !(latest < now - interval) {
        return false;
      }
      jobs := jobs + [Job(CrawlPass, Queued, now, None, None, None, None)];
      return true;
    }

    method EnqueueNow(kind: Kind, at: int) returns (enqueued: bool)
      modifies this
      ensures View() == Step(old(View()), Event(Op.EnqueueNow(kind), at))
      ensures enqueued <==> |jobs| > |old(jobs)|
    {
      hide HasLive;
      now := at;
      var live := FindLive(kind);
      if live {
        return false;
      }
      jobs := jobs + [Job(kind, Queued, now, None, None, None, None)];
      return true;
    }

    /** Scans for the longest queued job. */
    method ClaimNextJob(lease: int, at: int) returns (claimed: Option<nat>)
      modifies this
      ensures View() == Step(old(View()), Event(ClaimJob(lease), at))
      ensures claimed.Some? ==> claimed.value < |jobs| && JobRules.Holds(View(), claimed.value, at)
      ensures claimed.None? ==> forall i :: 0 <= i < |old(jobs)| ==> old(jobs)[i].status != Queued
    {
      now := at;
      var i := FindOldest(jobs, Waits);
      if i == |jobs| {
        return None;
      }
      jobs := jobs[i := jobs[i].(status := Running, startedAt := Some(now), leaseExpiresAt := Some(now + lease))];
      claims := claims + [Claim(i, now)];
      return Some(i);
    }

    /** None when the job is not running any more. It does not ask under whose claim. */
    method RenewJobLease(job: nat, lease: int, at: int) returns (until: Option<int>)
      modifies this
      ensures View() == Step(old(View()), Event(RenewLease(job, lease), at))
      ensures until.Some? <==> job < |jobs| && jobs[job].status == Running
    {
      now := at;
      if job < |jobs| && jobs[job].status == Running {
        jobs := jobs[job := jobs[job].(leaseExpiresAt := Some(now + lease))];
        return Some(now + lease);
      }
      return None;
    }

    method SweepExpiredLeases(at: int) returns (swept: seq<nat>)
      modifies this
      ensures View() == Step(old(View()), Event(SweepLeases, at))
      ensures forall i: nat :: i in swept <==> i < |jobs| && Expired(old(jobs)[i], at)
    {
      now := at;
      swept := [];
      for i := 0 to |jobs|
        invariant |jobs| == |old(jobs)| && View() == old(View()).(now := at, jobs := jobs)
        invariant forall k :: 0 <= k < i ==> jobs[k] == SweepJob(old(jobs)[k], at)
        invariant forall k :: i <= k < |jobs| ==> jobs[k] == old(jobs)[k]
        invariant forall k: nat :: k in swept <==> k < i && Expired(old(jobs)[k], at)
      {
        if Expired(jobs[i], now) {
          jobs := jobs[i := jobs[i].(status := Queued, startedAt := None, leaseExpiresAt := None)];
          swept := swept + [i];
        }
      }
    }

    /** Silently nothing when the job is not running under this claim. */
    method CompleteJob(job: nat, claimedAt: int, status: Status, errorCode: Option<string>)
      modifies this
      ensures View() == Complete(old(View()), job, claimedAt, status, errorCode)
    {
      if job < |jobs| && jobs[job].status == Running && jobs[job].startedAt == Some(claimedAt) {
        jobs := jobs[job := jobs[job].(status := status, finishedAt := Some(now), errorCode := errorCode)];
      }
    }

    /** Silently nothing when the run is closed. */
    method CloseRun(run: nat, status: RunStatus, errorCode: Option<string>)
      modifies this
      ensures View() == JobRules.CloseRun(old(View()), run, status, errorCode)
    {
      if run < |runs| && runs[run].status == RunRunning {
        runs := runs[run := runs[run].(status := status, finishedAt := Some(now), errorCode := errorCode)];
      }
    }

    method FindRunOf(job: nat) returns (run: nat)
      ensures run == FindRun(runs, job)
    {
      run := 0;
      while run < |runs| && !OpenRunOf(runs[run], job)
        invariant run <= |runs| && forall i :: 0 <= i < run ==> !OpenRunOf(runs[i], job)
      {
        run := run + 1;
      }
      FirstIsFound(runs, job, run);
    }

    /** One transaction: the row is locked, and nothing is written unless it is still running under the claim. */
    method MarkJobCrashed(job: nat, claimedAt: int, errorCode: Option<string>, at: int)
      modifies this
      ensures View() == Step(old(View()), Event(Crashed(job, claimedAt, errorCode), at))
    {
      hide FindRun;
      now := at;
      if job >= |jobs| || jobs[job].status != Running || jobs[job].startedAt != Some(claimedAt) {
        return;
      }
      var run := FindRunOf(job);
      if run < |runs| {
        CloseRun(run, Failed, errorCode);
      }
      CompleteJob(job, claimedAt, Error, errorCode);
    }

    /** The transaction that ends or aborts a pass. */
    method FinishPass(run: nat, runStatus: RunStatus, job: nat, claimedAt: int, status: Status,
                      errorCode: Option<string>, at: int)
      modifies this
      ensures View() == Step(old(View()), Event(Op.FinishPass(run, runStatus, job, claimedAt, status, errorCode), at))
    {
      now := at;
      CloseRun(run, runStatus, errorCode);
      CompleteJob(job, claimedAt, status, errorCode);
    }

    /** The first statement of get-or-open: an existing running run is reused. */
    method LookupRun(ghost worker: nat, job: nat, at: int) returns (existing: Option<nat>)
      modifies this
      ensures View() == Step(old(View()), Event(Op.LookupRun(worker, job), at))
      ensures existing.Some? ==> existing.value < |runs| && OpenRunOf(runs[existing.value], job)
      ensures existing.None? ==> worker in opening && opening[worker] == job
    {
      hide FindRun;
      now := at;
      var run := FindRunOf(job);
      if run < |runs| {
        return Some(run);
      }
      opening := opening[worker := job];
      return None;
    }

    /** The second: the worker that found none opens one, without looking again. */
    method OpenRun(ghost worker: nat, job: nat, at: int) returns (run: nat)
      requires worker in opening && opening[worker] == job
      modifies this
      ensures View() == Step(old(View()), Event(Op.OpenRun(worker), at))
      ensures run < |runs| && OpenRunOf(runs[run], job) && runs[run].startedAt == at
    {
      now := at;
      run := |runs|;
      runs := runs + [Run(job, RunRunning, now, None, None)];
      opening := opening - {worker};
    }

    /** One school's transaction over the outcomes of its six tabs. Its stamps are the clock reading of its begin. */
    method AttemptSchool(school: int, readAt: int, at: int)
      modifies this
      ensures View() == Step(old(View()), Event(Op.AttemptSchool(school, readAt), at))
    {
      hide TABS;
      now := at;
      for i := 0 to |TABS|
        invariant attempts == Stamp(old(attempts), school, TABS[..i], readAt)
        invariant View() == old(View()).(now := at, attempts := attempts)
      {
        assert TABS[..i + 1][..i] == TABS[..i];
        attempts := attempts[(school, TABS[i]) := readAt];
      }
      assert TABS[..|TABS|] == TABS;
    }

    /** The live schools of the crosswalk that still have a page to attempt, in the crosswalk's order. */
    method SchoolsPendingThisRun(crosswalk: seq<int>, since: int) returns (pending: seq<int>)
      ensures forall school :: school in pending <==> school in crosswalk && school in Pending(attempts, ToSet(crosswalk), since)
    {
      hide CountSince;
      pending := [];
      for i := 0 to |crosswalk|
        invariant forall school :: school in pending <==>
                    school in crosswalk[..i] && CountSince(attempts, school, since, TABS) != 6
      {
        var attempted := CountAttempted(crosswalk[i], since);
        if attempted != 6 {
          pending := pending + [crosswalk[i]];
        }
      }
      assert crosswalk[..|crosswalk|] == crosswalk;
    }

    method CountAttempted(school: int, since: int) returns (count: nat)
      ensures count == CountSince(attempts, school, since, TABS)
    {
      hide TABS;
      count := 0;
      for i := 0 to |TABS|
        invariant count == CountSince(attempts, school, since, TABS[..i])
      {
        assert TABS[..i + 1][..i] == TABS[..i];
        if AttemptedSince(attempts, (school, TABS[i]), since) {
          count := count + 1;
        }
      }
      assert TABS[..|TABS|] == TABS;
    }
  }

  function ToSet(schools: seq<int>): set<int> {
    set school | school in schools
  }

  lemma FirstIsFound(runs: seq<Run>, job: nat, run: nat)
    requires run <= |runs| && (run < |runs| ==> OpenRunOf(runs[run], job))
    requires forall i :: 0 <= i < run ==> !OpenRunOf(runs[i], job)
    ensures run == FindRun(runs, job)
  {
    hide OpenRunOf;
  }
}
