/**
 * Sliding-window rate limiting (api/ratelimit.py).
 *
 * The program keeps one pruned deque of admission times per key. The specification keeps every admission for
 * ever and counts those of the last window; nothing below depends on how often a deque was pruned.
 */
module RateLimit {
  import opened Options

  /** At most `limit` admissions in any `window` seconds. */
  datatype Rule = Rule(limit: nat, window: real)

  /** Every admission ever made, in order. */
  type History = seq<real>

  predicate Sorted(h: History) {
    forall i, j :: 0 <= i < j < |h| ==> h[i] <= h[j]
  }

  predicate Before(h: History, now: real) {
    forall i :: 0 <= i < |h| ==> h[i] <= now
  }

  /** The naive count: admissions in (t - window, t]. */
  function CountIn(h: History, window: real, t: real): nat {
    if h == [] then 0
    else CountIn(h[..|h| - 1], window, t) + if t - window < h[|h| - 1] <= t then 1 else 0
  }

  /** No window of the rule, wherever it ends, holds more than the limit. */
  ghost predicate Obeys(h: History, rule: Rule) {
    forall t :: CountIn(h, rule.window, t) <= rule.limit
  }

  predicate Admits(h: History, rule: Rule, t: real) {
    CountIn(h, rule.window, t) < rule.limit
  }

  /** Whether the rule would admit `delay` seconds after `now`, were nothing else admitted. */
  predicate AdmitsAfter(h: History, rule: Rule, now: real, delay: real) {
    Admits(h, rule, now + delay)
  }

  /** The answer is admission exactly when the naive count is under the limit, and otherwise the least wait. */
  ghost predicate Right(h: History, rule: Rule, now: real, wait: Option<real>) {
    && (wait.None? <==> Admits(h, rule, now))
    && (wait.Some? ==>
          && wait.value > 0.0
          && forall delay :: delay >= 0.0 ==> (AdmitsAfter(h, rule, now, delay) <==> delay >= wait.value))
  }

  // -- the naive count

  /** Once all admissions are past, the count only falls. */
  lemma {:induction false} CountFalls(h: History, window: real, now: real, later: real)
    requires Before(h, now) && now <= later
    ensures CountIn(h, window, later) <= CountIn(h, window, now)
  {
    if h != [] {
      CountFalls(h[..|h| - 1], window, now, later);
    }
  }

  /** Admitting only while the count is under the limit keeps every window, at any time, within it. */
  lemma AdmissionObeys(h: History, rule: Rule, now: real)
    requires Before(h, now) && Obeys(h, rule) && Admits(h, rule, now)
    ensures Obeys(h + [now], rule)
  {
    forall t ensures CountIn(h + [now], rule.window, t) <= rule.limit {
      assert (h + [now])[..|h|] == h;
      assert CountIn(h, rule.window, t) <= rule.limit;
      if t >= now {
        CountFalls(h, rule.window, now, t);
      }
    }
  }

  /** A deque that dropped only expired admissions, pruned to `now`, is the history cut to the window. */
  predicate Holds(deque: seq<real>, h: History, cutoff: real) {
    && |deque| <= |h|
    && deque == h[|h| - |deque|..]
    && forall i :: 0 <= i < |h| - |deque| ==> h[i] <= cutoff
  }

  /** Exactly the admissions after `cutoff`, in order. */
  function After(h: History, cutoff: real): seq<real> {
    if h == [] then [] else
    After(h[..|h| - 1], cutoff) + if h[|h| - 1] > cutoff then [h[|h| - 1]] else []
  }

  /** Pruning from the front loses nothing that filtering the whole history would keep. */
  lemma {:induction false} PrunedIsFiltered(deque: seq<real>, h: History, cutoff: real)
    requires Sorted(h) && Holds(deque, h, cutoff)
    requires deque == [] || deque[0] > cutoff
    ensures deque == After(h, cutoff)
    decreases h, 1
  {
    if deque == [] {
      NothingAfter(h, cutoff);
    } else {
      var k := |h| - |deque|;
      assert deque[0] == h[k] && deque[|deque| - 1] == h[|h| - 1];
      PrunedIsFilteredBefore(deque, h, cutoff);
      assert deque == deque[..|deque| - 1] + [h[|h| - 1]];
    }
  }

  lemma {:induction false} NothingAfter(h: History, cutoff: real)
    requires forall i :: 0 <= i < |h| ==> h[i] <= cutoff
    ensures After(h, cutoff) == []
  {
    if h != [] {
      NothingAfter(h[..|h| - 1], cutoff);
    }
  }

  lemma {:induction false} PrunedIsFilteredBefore(deque: seq<real>, h: History, cutoff: real)
    requires Sorted(h) && Holds(deque, h, cutoff) && deque != [] && deque[0] > cutoff
    ensures deque[..|deque| - 1] == After(h[..|h| - 1], cutoff)
    decreases h, 0
  {
    var k := |h| - |deque|;
    var front := h[..|h| - 1];
    assert deque[..|deque| - 1] == front[k..];
    PrunedIsFiltered(deque[..|deque| - 1], front, cutoff);
  }

  /** The length of the filtered history is the naive count. */
  lemma {:induction false} FilteredIsCounted(h: History, window: real, now: real)
    requires Before(h, now)
    ensures |After(h, now - window)| == CountIn(h, window, now)
  {
    if h != [] {
      FilteredIsCounted(h[..|h| - 1], window, now);
    }
  }

  /** As long as the oldest admission of a full window has not expired, nothing has left the window. */
  lemma {:induction false} FullUntilOldestExpires(h: History, deque: seq<real>, window: real, t: real)
    requires Sorted(h) && Before(h, t) && |deque| <= |h| && deque == h[|h| - |deque|..]
    requires deque == [] || deque[0] > t - window
    ensures CountIn(h, window, t) >= |deque|
  {
    if deque != [] {
      var k := |h| - |deque|;
      var front := h[..|h| - 1];
      assert deque[0] == h[k] <= h[|h| - 1];
      assert deque[..|deque| - 1] == front[k..];
      FullUntilOldestExpires(front, deque[..|deque| - 1], window, t);
    }
  }

  /** Once the oldest admission of the window has expired, the window has room for one more. */
  lemma {:induction false} RoomOnceOldestExpires(h: History, deque: seq<real>, window: real, t: real)
    requires Holds(deque, h, t - window) && deque != [] && deque[0] <= t - window
    ensures CountIn(h, window, t) < |deque|
  {
    var k := |h| - |deque|;
    var front := h[..|h| - 1];
    assert deque[0] == h[k];
    if |deque| == 1 {
      NothingLeft(h, window, t);
    } else {
      assert deque[..|deque| - 1] == front[k..];
      RoomOnceOldestExpires(front, deque[..|deque| - 1], window, t);
    }
  }

  lemma {:induction false} NothingLeft(h: History, window: real, t: real)
    requires forall i :: 0 <= i < |h| ==> h[i] <= t - window
    ensures CountIn(h, window, t) == 0
  {
    if h != [] {
      NothingLeft(h[..|h| - 1], window, t);
    }
  }

  /** The wait read off a pruned deque is exact: any shorter one is still refused, any other is not. */
  lemma WaitIsExact(deque: seq<real>, h: History, rule: Rule, now: real)
    requires Sorted(h) && Before(h, now) && Obeys(h, rule) && rule.limit >= 1
    requires Holds(deque, h, now - rule.window) && |deque| >= rule.limit && deque[0] > now - rule.window
    ensures Right(h, rule, now, Some(deque[0] + rule.window - now))
  {
    PrunedIsFiltered(deque, h, now - rule.window);
    FilteredIsCounted(h, rule.window, now);
    assert CountIn(h, rule.window, now) <= rule.limit;
    assert |deque| == rule.limit;
    var wait := deque[0] + rule.window - now;
    forall delay | delay >= 0.0 ensures AdmitsAfter(h, rule, now, delay) <==> delay >= wait {
      if delay >= wait {
        RoomOnceOldestExpires(h, deque, rule.window, now + delay);
      } else {
        FullUntilOldestExpires(h, deque, rule.window, now + delay);
      }
    }
  }

  /** What a deque pruned to `now` answers. */
  lemma AnswerIsRight(deque: seq<real>, h: History, rule: Rule, now: real)
    requires Sorted(h) && Before(h, now) && Obeys(h, rule) && rule.limit >= 1
    requires Holds(deque, h, now - rule.window) && (deque == [] || deque[0] > now - rule.window)
    ensures deque == After(h, now - rule.window)
    ensures |deque| >= rule.limit ==>
      deque[0] + rule.window - now > 0.0 && Right(h, rule, now, Some(deque[0] + rule.window - now))
    ensures |deque| < rule.limit ==> Right(h, rule, now, None)
  {
    PrunedIsFiltered(deque, h, now - rule.window);
    FilteredIsCounted(h, rule.window, now);
    if |deque| >= rule.limit {
      WaitIsExact(deque, h, rule, now);
    }
  }

  lemma HoldsWhenPruned(was: seq<real>, deque: seq<real>, h: History, cutoff: real)
    requires Holds(was, h, cutoff) && |deque| <= |was| && deque == was[|was| - |deque|..]
    requires forall i :: 0 <= i < |was| - |deque| ==> was[i] <= cutoff
    ensures Holds(deque, h, cutoff)
  {
    var k := |h| - |was|;
    forall i | 0 <= i < |h| - |deque| ensures h[i] <= cutoff {
      if i >= k {
        assert h[i] == was[i - k];
      }
    }
  }

  lemma HoldsBehind(deque: seq<real>, h: History, now: real, cutoff: real)
    requires Holds(deque, h, cutoff)
    ensures Holds(deque + [now], h + [now], cutoff)
  {
  }

  lemma HoldsLater(deque: seq<real>, h: History, cutoff: real, later: real)
    requires Holds(deque, h, cutoff) && cutoff <= later
    ensures Holds(deque, h, later)
  {
  }

  // -- two windows, and the header

  /** The longer of the two waits; a window that admits now asks for none. */
  function Longer(a: Option<real>, b: Option<real>): real {
    var x := if a.Some? then a.value else 0.0;
    var y := if b.Some? then b.value else 0.0;
    if x >= y then x else y
  }

  predicate BothAdmitAfter(hour: History, hourRule: Rule, day: History, dayRule: Rule, now: real, delay: real) {
    AdmitsAfter(hour, hourRule, now, delay) && AdmitsAfter(day, dayRule, now, delay)
  }

  /** The wait is the least after which both windows admit: no shorter one will do, and every longer one will. */
  ghost predicate RightForBoth(hour: History, hourRule: Rule, day: History, dayRule: Rule, now: real, wait: real) {
    forall delay :: delay >= 0.0 ==> (BothAdmitAfter(hour, hourRule, day, dayRule, now, delay) <==> delay >= wait)
  }

  /** Both windows admit after a delay exactly when it is at least the longer wait. */
  lemma LongerWaitIsExact(hour: History, hourRule: Rule, day: History, dayRule: Rule, now: real,
                          a: Option<real>, b: Option<real>)
    requires Before(hour, now) && Before(day, now)
    requires Right(hour, hourRule, now, a) && Right(day, dayRule, now, b)
    ensures RightForBoth(hour, hourRule, day, dayRule, now, Longer(a, b))
  {
    hide Before, Admits;
    forall delay | delay >= 0.0
      ensures BothAdmitAfter(hour, hourRule, day, dayRule, now, delay) <==> delay >= Longer(a, b)
    {
      StillAdmits(hour, hourRule, now, delay);
      StillAdmits(day, dayRule, now, delay);
    }
  }

  lemma StillAdmits(h: History, rule: Rule, now: real, delay: real)
    requires Before(h, now) && delay >= 0.0
    ensures Admits(h, rule, now) ==> AdmitsAfter(h, rule, now, delay)
  {
    CountFalls(h, rule.window, now, now + delay);
  }

  function Ceil(x: real): int {
    -(-x).Floor
  }

  /** The Retry-After field of section 10.2.3 of RFC 9110: whole seconds, at least one. */
  function RetryAfter(seconds: real): int {
    if Ceil(seconds) > 1 then Ceil(seconds) else 1
  }

  /** The whole seconds in the header are always long enough, and the fewest positive ones that are. */
  lemma HeaderIsExact(hour: History, hourRule: Rule, day: History, dayRule: Rule, now: real, wait: real,
                      seconds: int)
    requires RightForBoth(hour, hourRule, day, dayRule, now, wait) && seconds >= 1
    ensures BothAdmitAfter(hour, hourRule, day, dayRule, now, seconds as real) <==> seconds >= RetryAfter(wait)
  {
    assert BothAdmitAfter(hour, hourRule, day, dayRule, now, seconds as real) <==> seconds as real >= wait;
    CeilIsLeast(wait, seconds);
  }

  lemma CeilIsLeast(x: real, n: int)
    ensures n as real >= x <==> n >= Ceil(x)
  {
    assert Ceil(x) as real >= x > Ceil(x) as real - 1.0;
  }

  // -- whole runs

  datatype Call = One(key: string, now: real) | Message(user: string, now: real)

  function HourKey(user: string): string { "turns:h:" + user }

  function DayKey(user: string): string { "turns:d:" + user }

  lemma KeysDiffer(user: string, other: string)
    ensures HourKey(user) != DayKey(other)
  {
    assert HourKey(user)[6] == 'h' && DayKey(other)[6] == 'd';
  }

  type Log = map<string, History>

  function Of(log: Log, key: string): History {
    if key in log then log[key] else []
  }

  function Add(log: Log, key: string, now: real): Log {
    log[key := Of(log, key) + [now]]
  }

  /** What one call admits, by naive counting over the complete log. */
  ghost function Serve(rules: string -> Rule, log: Log, call: Call): Log {
    match call
    case One(key, now) => if Admits(Of(log, key), rules(key), now) then Add(log, key, now) else log
    case Message(user, now) =>
      var h, d := HourKey(user), DayKey(user);
      if Admits(Of(log, h), rules(h), now) && Admits(Of(log, d), rules(d), now)
      then Add(Add(log, h, now), d, now) else log
  }

  ghost function Run(rules: string -> Rule, log: Log, calls: seq<Call>): Log
    decreases calls
  {
    if calls == [] then log else Run(rules, Serve(rules, log, calls[0]), calls[1..])
  }

  /** The clock never runs backwards. */
  predicate Monotone(calls: seq<Call>, from: real) {
    calls == [] || (from <= calls[0].now && Monotone(calls[1..], calls[0].now))
  }

  ghost predicate Sound(rules: string -> Rule, log: Log, last: real) {
    forall key :: Sorted(Of(log, key)) && Before(Of(log, key), last) && Obeys(Of(log, key), rules(key))
  }

  lemma AddKeepsSound(rules: string -> Rule, log: Log, key: string, now: real)
    requires Sound(rules, log, now) && Admits(Of(log, key), rules(key), now)
    ensures Sound(rules, Add(log, key, now), now)
  {
    hide Obeys;
    assert Sorted(Of(log, key)) && Before(Of(log, key), now) && Obeys(Of(log, key), rules(key));
    AdmissionObeys(Of(log, key), rules(key), now);
    forall k ensures Sorted(Of(Add(log, key, now), k)) && Before(Of(Add(log, key, now), k), now)
                  && Obeys(Of(Add(log, key, now), k), rules(k))
    {
      assert Sorted(Of(log, k)) && Before(Of(log, k), now) && Obeys(Of(log, k), rules(k));
      SortedBehind(Of(log, key), now);
    }
  }

  lemma SortedBehind(h: History, now: real)
    requires Sorted(h) && Before(h, now)
    ensures Sorted(h + [now]) && Before(h + [now], now)
  {
  }

  lemma SoundLater(rules: string -> Rule, log: Log, last: real, now: real)
    requires Sound(rules, log, last) && last <= now
    ensures Sound(rules, log, now)
  {
    hide Obeys, Sorted;
    forall k ensures Before(Of(log, k), now) {
      assert Before(Of(log, k), last);
    }
  }

  lemma ServeKeepsSound(rules: string -> Rule, log: Log, last: real, call: Call)
    requires Sound(rules, log, last) && last <= call.now
    ensures Sound(rules, Serve(rules, log, call), call.now)
  {
    hide Admits, Sound, HourKey, DayKey;
    SoundLater(rules, log, last, call.now);
    match call
    case One(key, now) =>
      if Admits(Of(log, key), rules(key), now) {
        AddKeepsSound(rules, log, key, now);
      }
    case Message(user, now) =>
      var h, d := HourKey(user), DayKey(user);
      KeysDiffer(user, user);
      if Admits(Of(log, h), rules(h), now) && Admits(Of(log, d), rules(d), now) {
        AddKeepsSound(rules, log, h, now);
        AddKeepsSound(rules, Add(log, h, now), d, now);
      }
  }

  /** Over any run, no window of any key, ending at any time, ever holds more than the key's limit. */
  lemma {:induction false} RunObeys(rules: string -> Rule, log: Log, last: real, calls: seq<Call>,
                                    key: string, t: real)
    requires Sound(rules, log, last) && Monotone(calls, last)
    ensures CountIn(Of(Run(rules, log, calls), key), rules(key).window, t) <= rules(key).limit
    decreases calls
  {
    hide Serve;
    if calls == [] {
      assert Obeys(Of(log, key), rules(key));
    } else {
      ServeKeepsSound(rules, log, last, calls[0]);
      RunObeys(rules, Serve(rules, log, calls[0]), calls[0].now, calls[1..], key, t);
    }
  }

  // -- the calls that were answered with admission

  /** The keys that a call counts against. */
  function KeysOf(call: Call): set<string> {
    match call
    case One(key, _) => {key}
    case Message(user, _) => {HourKey(user), DayKey(user)}
  }

  /** The times of the calls on a key that were answered with admission. */
  function Admitted(calls: seq<Call>, answers: seq<bool>, key: string): History
    requires |calls| == |answers|
  {
    if calls == [] then []
    else
      var n := |calls| - 1;
      Admitted(calls[..n], answers[..n], key) + if answers[n] && key in KeysOf(calls[n]) then [calls[n].now] else []
  }

  /** Each call is answered with admission exactly if every one of its keys has had, in the window up to the call, fewer
      admitted calls than its limit. */
  ghost predicate Answered(rules: string -> Rule, calls: seq<Call>, answers: seq<bool>) {
    && |calls| == |answers|
    && forall i :: 0 <= i < |calls| ==> (answers[i] <==> AllAdmit(rules, calls, answers, i))
  }

  ghost predicate AllAdmit(rules: string -> Rule, calls: seq<Call>, answers: seq<bool>, i: nat)
    requires i < |calls| == |answers|
  {
    forall key :: key in KeysOf(calls[i]) ==> Admits(Admitted(calls[..i], answers[..i], key), rules(key), calls[i].now)
  }

  lemma AnsweredBefore(rules: string -> Rule, calls: seq<Call>, answers: seq<bool>, k: nat)
    requires Answered(rules, calls, answers) && k <= |calls|
    ensures Answered(rules, calls[..k], answers[..k])
  {
    hide Admits, Admitted, KeysOf;
    forall i | 0 <= i < k
      ensures answers[..k][i] <==> AllAdmit(rules, calls[..k], answers[..k], i)
    {
      assert calls[..k][..i] == calls[..i] && answers[..k][..i] == answers[..i];
      assert answers[i] <==> AllAdmit(rules, calls, answers, i);
    }
  }

  /** The times of the calls never go back. */
  predicate InTime(calls: seq<Call>) {
    forall i, j :: 0 <= i < j < |calls| ==> calls[i].now <= calls[j].now
  }

  lemma {:induction false} AdmittedIsPast(calls: seq<Call>, answers: seq<bool>, key: string, now: real)
    requires |calls| == |answers| && InTime(calls) && (calls != [] ==> calls[|calls| - 1].now <= now)
    ensures Sorted(Admitted(calls, answers, key)) && Before(Admitted(calls, answers, key), now)
  {
    if calls != [] {
      var n := |calls| - 1;
      AdmittedIsPast(calls[..n], answers[..n], key, calls[n].now);
    }
  }

  /** Whatever calls come, when each is answered by naive counting of the admitted calls, no window of a key, ending at
      any time, ever holds more admitted calls than its limit. */
  lemma {:induction false} AdmittedObey(rules: string -> Rule, calls: seq<Call>, answers: seq<bool>, key: string)
    requires Answered(rules, calls, answers) && InTime(calls)
    ensures Obeys(Admitted(calls, answers, key), rules(key))
  {
    hide Obeys, Admits;
    if calls == [] {
      NothingObeys(rules(key));
    } else {
      var n := |calls| - 1;
      var before := Admitted(calls[..n], answers[..n], key);
      AnsweredBefore(rules, calls, answers, n);
      AdmittedObey(rules, calls[..n], answers[..n], key);
      AdmittedIsPast(calls[..n], answers[..n], key, calls[n].now);
      if answers[n] && key in KeysOf(calls[n]) {
        assert AllAdmit(rules, calls, answers, n);
        AdmissionObeys(before, rules(key), calls[n].now);
      } else {
        assert before + [] == before;
      }
    }
  }

  lemma NothingObeys(rule: Rule)
    ensures Obeys([], rule)
  {
  }

  // -- the program

  class SlidingWindowLimiter {
    var hits: map<string, seq<real>>
    ghost const rules: string -> Rule
    ghost var log: Log
    ghost var last: real

    ghost predicate Tracks(key: string)
      reads this
    {
      Holds(Deque(key), Of(log, key), last - rules(key).window)
    }

    /** Each deque is the end of its key's history and has dropped only what expired; none is empty. */
    ghost predicate Valid()
      reads this
    {
      && Sound(rules, log, last)
      && (forall key :: Tracks(key))
      && (forall key :: key in hits ==> hits[key] != [])
    }

    /** A missing key reads as an empty deque. */
    function Deque(key: string): seq<real>
      reads this`hits
    {
      if key in hits then hits[key] else []
    }

    constructor (ghost rules: string -> Rule, ghost start: real)
      ensures Valid() && this.rules == rules && log == map[] && last == start
    {
      hits := map[];
      this.rules := rules;
      log := map[];
      last := start;
    }

    /** The read of the clock: expired admissions stay expired. */
    ghost method Tick(now: real)
      requires Valid() && last <= now
      modifies this`last
      ensures Valid() && last == now
    {
      hide Holds;
      SoundLater(rules, log, last, now);
      forall key ensures Holds(Deque(key), Of(log, key), now - rules(key).window) {
        assert Tracks(key);
        HoldsLater(Deque(key), Of(log, key), last - rules(key).window, now - rules(key).window);
      }
      last := now;
    }

    /** Drops what expired from the front of one deque, which is left in the map even when empty. */
    method Prune(key: string, cutoff: real)
      modifies this`hits
      ensures key in hits && hits == old(hits)[key := hits[key]]
      ensures |hits[key]| <= |old(Deque(key))|
      ensures hits[key] == old(Deque(key))[|old(Deque(key))| - |hits[key]|..]
      ensures forall i :: 0 <= i < |old(Deque(key))| - |hits[key]| ==> old(Deque(key))[i] <= cutoff
      ensures hits[key] == [] || hits[key][0] > cutoff
    {
      hits := hits[key := Deque(key)];
      ghost var was := hits[key];
      while hits[key] != [] && hits[key][0] <= cutoff
        invariant key in hits && hits == old(hits)[key := hits[key]]
        invariant |hits[key]| <= |was| && hits[key] == was[|was| - |hits[key]|..]
        invariant forall i :: 0 <= i < |was| - |hits[key]| ==> was[i] <= cutoff
        decreases |hits[key]|
      {
        hits := hits[key := hits[key][1..]];
      }
    }

    /** Prunes and answers, recording nothing. */
    method Peek(key: string, limit: nat, window: real, now: real) returns (wait: Option<real>)
      requires Valid() && now == last && rules(key) == Rule(limit, window) && limit >= 1
      modifies this`hits
      ensures Valid() && Right(Of(log, key), rules(key), now, wait)
      ensures Deque(key) == After(Of(log, key), now - window)
    {
      hide Obeys, Sorted, Before, Right, After, Holds, Of;
      ghost var h := Of(log, key);
      ghost var was := Deque(key);
      assert Tracks(key);
      assert Sorted(h) && Before(h, now) && Obeys(h, rules(key));
      Prune(key, now - window);
      HoldsWhenPruned(was, hits[key], h, now - window);
      AnswerIsRight(hits[key], h, rules(key), now);
      ghost var deque := hits[key];
      if |hits[key]| >= limit {
        assert Kept(old(hits), key);
        forall k ensures Tracks(k) {
          assert old(Tracks(k));
        }
        var left := hits[key][0] + window - now;
        return Some(if left > 0.0 then left else 0.0);
      }
      if hits[key] == [] {
        hits := hits - {key};
      }
      assert Deque(key) == deque && Kept(old(hits), key);
      forall k ensures Tracks(k) {
        assert old(Tracks(k));
      }
      return None;
    }

    /** The other keys' deques are the ones in `was`. */
    ghost predicate Kept(was: map<string, seq<real>>, key: string)
      reads this`hits
    {
      forall k :: k != key ==> ((k in hits <==> k in was) && (k in hits ==> hits[k] == was[k]))
    }

    method Append(key: string, now: real)
      requires Valid() && now == last && Admits(Of(log, key), rules(key), now)
      modifies this`hits, this`log
      ensures Valid() && log == Add(old(log), key, now)
    {
      hide Sound, Holds, Admits;
      AddKeepsSound(rules, log, key, now);
      assert Tracks(key);
      HoldsBehind(Deque(key), Of(log, key), now, last - rules(key).window);
      hits := hits[key := Deque(key) + [now]];
      log := Add(log, key, now);
      forall k ensures Tracks(k) {
        assert old(Tracks(k));
      }
    }

    /** Prunes, answers, and records the admission. */
    method Check(key: string, limit: nat, window: real, now: real) returns (wait: Option<real>)
      requires Valid() && last <= now && rules(key) == Rule(limit, window) && limit >= 1
      modifies this
      ensures Valid() && last == now
      ensures log == Serve(rules, old(log), One(key, now))
      ensures Right(Of(old(log), key), rules(key), now, wait)
      ensures Of(log, key) == Of(old(log), key) + if wait.None? then [now] else []
      ensures forall k :: k != key ==> Of(log, k) == Of(old(log), k)
    {
      hide Admits;
      Tick(now);
      wait := Peek(key, limit, window, now);
      if wait.None? {
        Append(key, now);
      }
    }

    /**
     * Both windows must admit before either records. A refusal changes neither history, and the wait it returns
     * is the least one after which both windows admit.
     */
    method CheckMessage(user: string, perHour: nat, perDay: nat, now: real) returns (wait: Option<real>)
      requires Valid() && last <= now && perHour >= 1 && perDay >= 1
      requires rules(HourKey(user)) == Rule(perHour, 3600.0) && rules(DayKey(user)) == Rule(perDay, 86400.0)
      modifies this
      ensures Valid() && last == now
      ensures log == Serve(rules, old(log), Message(user, now))
      ensures wait.Some? <==> log == old(log)
      ensures wait.None? <==> Admits(Of(old(log), HourKey(user)), Rule(perHour, 3600.0), now)
                              && Admits(Of(old(log), DayKey(user)), Rule(perDay, 86400.0), now)
      ensures wait.None? ==>
        && Of(log, HourKey(user)) == Of(old(log), HourKey(user)) + [now]
        && Of(log, DayKey(user)) == Of(old(log), DayKey(user)) + [now]
      ensures forall k :: k != HourKey(user) && k != DayKey(user) ==> Of(log, k) == Of(old(log), k)
      ensures wait.Some? ==>
        RightForBoth(Of(old(log), HourKey(user)), Rule(perHour, 3600.0),
                     Of(old(log), DayKey(user)), Rule(perDay, 86400.0), now, wait.value)
    {
      hide Admits, Sorted, Obeys, Before, HourKey, DayKey, RightForBoth;
      var hourKey, dayKey := HourKey(user), DayKey(user);
      KeysDiffer(user, user);
      Tick(now);
      assert Before(Of(log, hourKey), now) && Before(Of(log, dayKey), now);
      var hourWait := Peek(hourKey, perHour, 3600.0, now);
      var dayWait := Peek(dayKey, perDay, 86400.0, now);
      if hourWait.Some? || dayWait.Some? {
        LongerWaitIsExact(Of(log, hourKey), rules(hourKey), Of(log, dayKey), rules(dayKey), now, hourWait, dayWait);
        return Some(Longer(hourWait, dayWait));
      }
      Append(hourKey, now);
      Append(dayKey, now);
      assert |Of(log, hourKey)| == |Of(old(log), hourKey)| + 1;
      return None;
    }
  }

  /** What a call must be to be put to a limiter: its keys have the windows of the program and limits of at least one. */
  predicate Served(rules: string -> Rule, call: Call) {
    match call
    case One(key, _) => rules(key).limit >= 1
    case Message(user, _) =>
      && rules(HourKey(user)).limit >= 1 && rules(HourKey(user)).window == 3600.0
      && rules(DayKey(user)).limit >= 1 && rules(DayKey(user)).window == 86400.0
  }

  lemma AdmittedNext(calls: seq<Call>, answers: seq<bool>, i: nat, answer: bool, key: string)
    requires i < |calls| && |answers| == i
    ensures Admitted(calls[..i + 1], answers + [answer], key)
         == Admitted(calls[..i], answers, key) + if answer && key in KeysOf(calls[i]) then [calls[i].now] else []
  {
    assert calls[..i + 1][..i] == calls[..i] && (answers + [answer])[..i] == answers;
  }

  lemma AnsweredNext(rules: string -> Rule, calls: seq<Call>, answers: seq<bool>, i: nat, answer: bool)
    requires i < |calls| && Answered(rules, calls[..i], answers)
    requires answer <==> forall key :: key in KeysOf(calls[i]) ==>
               Admits(Admitted(calls[..i], answers, key), rules(key), calls[i].now)
    ensures Answered(rules, calls[..i + 1], answers + [answer])
  {
    hide Admits, Admitted, KeysOf;
    var made, given := calls[..i + 1], answers + [answer];
    forall j | 0 <= j < |made|
      ensures given[j] <==> AllAdmit(rules, made, given, j)
    {
      assert made[..j] == calls[..i][..j] && given[..j] == answers[..j];
      assert made[..i] == calls[..i] && given[..i] == answers && answers[..i] == answers;
      if j < i {
        assert answers[j] <==> AllAdmit(rules, calls[..i], answers, j);
      }
    }
  }

  /** One call put to a limiter. */
  method Put(limiter: SlidingWindowLimiter, call: Call, ghost rules: string -> Rule, limits: string -> nat,
             windows: string -> real) returns (admitted: bool)
    requires limiter.Valid() && limiter.rules == rules && limiter.last <= call.now && Served(rules, call)
    requires forall key :: rules(key) == Rule(limits(key), windows(key))
    modifies limiter
    ensures limiter.Valid() && limiter.last == call.now
    ensures admitted <==> forall key :: key in KeysOf(call) ==> Admits(Of(old(limiter.log), key), rules(key), call.now)
    ensures forall key :: Of(limiter.log, key)
                       == Of(old(limiter.log), key) + if admitted && key in KeysOf(call) then [call.now] else []
  {
    hide Admits, HourKey, DayKey, Sorted, Obeys, Before, Serve, RightForBoth, AdmitsAfter;
    match call
    case One(key, now) =>
      var wait := limiter.Check(key, limits(key), windows(key), now);
      return wait.None?;
    case Message(user, now) =>
      KeysDiffer(user, user);
      var wait := limiter.CheckMessage(user, limits(HourKey(user)), limits(DayKey(user)), now);
      return wait.None?;
  }

  /** Over every sequence of calls the limiter answers as naive counting of the admitted calls does, and the history of
      each key is exactly the times of its admitted calls. With `AdmittedObey`, admitted calls never exceed a limit. */
  method PutAll(calls: seq<Call>, ghost rules: string -> Rule, limits: string -> nat, windows: string -> real)
    returns (answers: seq<bool>, limiter: SlidingWindowLimiter)
    requires InTime(calls) && (forall call :: call in calls ==> Served(rules, call))
    requires forall key :: rules(key) == Rule(limits(key), windows(key))
    ensures Answered(rules, calls, answers)
    ensures forall key :: Of(limiter.log, key) == Admitted(calls, answers, key)
  {
    hide Admits, KeysOf, Served;
    limiter := new SlidingWindowLimiter(rules, if calls == [] then 0.0 else calls[0].now);
    answers := [];
    for i := 0 to |calls|
      invariant fresh(limiter) && limiter.Valid() && limiter.rules == rules && |answers| == i
      invariant i < |calls| ==> limiter.last <= calls[i].now
      invariant Answered(rules, calls[..i], answers)
      invariant forall key :: Of(limiter.log, key) == Admitted(calls[..i], answers, key)
    {
      assert calls[i] in calls;
      var admitted := Put(limiter, calls[i], rules, limits, windows);
      AnsweredNext(rules, calls, answers, i, admitted);
      forall key
        ensures Of(limiter.log, key) == Admitted(calls[..i + 1], answers + [admitted], key)
      {
        AdmittedNext(calls, answers, i, admitted, key);
      }
      answers := answers + [admitted];
    }
    assert calls[..|calls|] == calls;
  }
}
