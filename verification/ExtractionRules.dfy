/**
 * The lease protocol of extractions (adapters/cds_store.py), each statement as one step. Unlike the facts jobs, a
 * swept extraction is failed for good.
 */
module ExtractionRules {
  import opened Options
  import opened Queues

  datatype Status = Queued | Running | Succeeded | Partial | Failed

  datatype Extraction = Extraction(id: nat, document: nat, status: Status, queuedAt: int, startedAt: Option<int>,
                                   leaseExpiresAt: Option<int>, finishedAt: Option<int>, errorCode: Option<string>)

  datatype Packet = Packet(extraction: nat, domain: string, createdAt: int)

  datatype State = State(rows: seq<Extraction>, packets: seq<Packet>, now: int)

  const START: State := State([], [], 0)

  predicate Final(status: Status) {
    status == Succeeded || status == Partial || status == Failed
  }

  // -- the statements, row by row

  function RenewRow(row: Extraction, id: nat, lease: int, now: int): Extraction {
    if row.id == id && row.status == Running then row.(leaseExpiresAt := Some(now + lease)) else row
  }

  predicate Alive(row: Extraction, now: int) {
    row.status == Running && row.leaseExpiresAt.Some? && row.leaseExpiresAt.value > now
  }

  function CompleteRow(row: Extraction, id: nat, status: Status, errorCode: Option<string>, now: int): Extraction {
    if row.id == id && Alive(row, now)
    then row.(status := status, finishedAt := Some(now), errorCode := errorCode) else row
  }

  predicate Expired(row: Extraction, now: int) {
    row.status == Running && row.leaseExpiresAt.Some? && row.leaseExpiresAt.value < now
  }

  function SweepRow(row: Extraction, errorCode: string, now: int): Extraction {
    if Expired(row, now) then row.(status := Failed, finishedAt := Some(now), errorCode := Some(errorCode)) else row
  }

  function ClaimRow(row: Extraction, lease: int, now: int): Extraction {
    row.(status := Running, startedAt := Some(now), leaseExpiresAt := Some(now + lease))
  }

  /** The fence of a packet: the extraction has no lease, or a live one. Its status is not asked for. */
  predicate Admits(row: Extraction, id: nat, now: int) {
    row.id == id && (row.leaseExpiresAt.None? || row.leaseExpiresAt.value > now)
  }

  predicate Fence(rows: seq<Extraction>, id: nat, now: int) {
    exists i :: 0 <= i < |rows| && Admits(rows[i], id, now)
  }

  predicate Known(rows: seq<Extraction>, id: nat) {
    exists i :: 0 <= i < |rows| && rows[i].id == id
  }

  /** Since when a row has been queued. */
  function Waits(row: Extraction): Option<int> {
    if row.status == Queued then Some(row.queuedAt) else None
  }

  datatype Op =
    | Create(id: nat, document: nat)
    | Claim(lease: int)
    | Renew(id: nat, lease: int)
    | Complete(id: nat, status: Status, errorCode: Option<string>)
    | Sweep(lost: string)
    | InsertPacket(id: nat, domain: string, readAt: int)
    | HumanReview(id: nat, document: nat)

  /**
   * An operation at a time, by any worker, with whatever id it remembers. `at` is the time of the statement and of its
   * clock. Only the insertion of a packet is a later statement of its transaction, so it has an older reading, `readAt`.
   */
  datatype Event = Event(op: Op, at: int)

  function Queue(s: State, id: nat, document: nat): State {
    if Known(s.rows, id) then s
    else s.(rows := s.rows + [Extraction(id, document, Queued, s.now, None, None, None, None)])
  }

  function Review(s: State, id: nat, document: nat): State {
    if Known(s.rows, id) then s
    else s.(rows := s.rows + [Extraction(id, document, Succeeded, s.now, Some(s.now), None, Some(s.now), None)])
  }

  function ClaimNext(s: State, lease: int): State {
    var i := Oldest(s.rows, Waits);
    if i == |s.rows| then s else s.(rows := s.rows[i := ClaimRow(s.rows[i], lease, s.now)])
  }

  function Store(s: State, id: nat, domain: string, readAt: int): State {
    if Fence(s.rows, id, readAt) then s.(packets := s.packets + [Packet(id, domain, readAt)]) else s
  }

  function Apply(s: State, op: Op): State {
    match op
    case Create(id, document) => Queue(s, id, document)
    case HumanReview(id, document) => Review(s, id, document)
    case Claim(lease) => ClaimNext(s, lease)
    case Renew(id, lease) =>
      s.(rows := seq(|s.rows|, i requires 0 <= i < |s.rows| => RenewRow(s.rows[i], id, lease, s.now)))
    case Complete(id, status, errorCode) =>
      s.(rows := seq(|s.rows|, i requires 0 <= i < |s.rows| => CompleteRow(s.rows[i], id, status, errorCode, s.now)))
    case Sweep(lost) =>
      s.(rows := seq(|s.rows|, i requires 0 <= i < |s.rows| => SweepRow(s.rows[i], lost, s.now)))
    case InsertPacket(id, domain, readAt) => Store(s, id, domain, readAt)
  }

  function Step(s: State, e: Event): State {
    Apply(s.(now := e.at), e.op)
  }

  function RunFrom(s: State, events: seq<Event>): State
    decreases events
  {
    if events == [] then s else RunFrom(Step(s, events[0]), events[1..])
  }

  /**
   * Leases are positive, an extraction is only ever completed with a final status, and the clock of a transaction is
   * read when it begins.
   */
  predicate Proper(e: Event) {
    && (e.op.Claim? || e.op.Renew? ==> e.op.lease > 0)
    && (e.op.Complete? ==> Final(e.op.status))
    && (e.op.InsertPacket? ==> e.op.readAt <= e.at)
  }

  predicate Timely(events: seq<Event>, from: int)
    decreases events
  {
    events == [] || (from <= events[0].at && Proper(events[0]) && Timely(events[1..], events[0].at))
  }

  // -- the life of one extraction

  /** Queued to running to one final status; a final row does not change in any column. */
  predicate Moves(before: Extraction, after: Extraction) {
    && before.id == after.id
    && (Final(before.status) ==> after == before)
    && (before.status == Running ==> after.status == Running || Final(after.status))
    && (before.status == Queued ==> after == before || after.status == Running)
  }

  lemma {:induction false} StepMoves(s: State, e: Event, i: nat)
    requires i < |s.rows| && Proper(e)
    ensures i < |Step(s, e).rows| && Moves(s.rows[i], Step(s, e).rows[i])
    ensures Step(s, e).now == e.at
  {
    hide Oldest, Known, Fence;
    if e.op.Claim? {
      assert Oldest(s.rows, Waits) < |s.rows| ==> s.rows[Oldest(s.rows, Waits)].status == Queued;
    }
  }

  /** Over every run a final extraction stays as it is. */
  lemma {:induction false} FinalForEver(s: State, events: seq<Event>, i: nat)
    requires i < |s.rows| && Timely(events, s.now) && Final(s.rows[i].status)
    ensures i < |RunFrom(s, events).rows| && RunFrom(s, events).rows[i] == s.rows[i]
    decreases events
  {
    hide Step, Proper, Final;
    if events != [] {
      StepMoves(s, events[0], i);
      FinalForEver(Step(s, events[0]), events[1..], i);
    }
  }

  /** How often in a run the extraction is finished, by completion or by a sweep. */
  function Finishes(s: State, events: seq<Event>, i: nat): nat
    decreases events
  {
    if events == [] then 0
    else
      var t := Step(s, events[0]);
      Finishes(t, events[1..], i)
      + (if i < |s.rows| && i < |t.rows| && !Final(s.rows[i].status) && Final(t.rows[i].status) then 1 else 0)
  }

  /** Completions and sweeps together finish an extraction at most once, and once it is final exactly once. */
  lemma {:induction false} FinishedOnce(s: State, events: seq<Event>, i: nat)
    requires i < |s.rows| && Timely(events, s.now)
    ensures i < |RunFrom(s, events).rows|
    ensures Finishes(s, events, i) ==
      if Final(RunFrom(s, events).rows[i].status) && !Final(s.rows[i].status) then 1 else 0
    decreases events
  {
    hide Step, Proper, Final;
    if events != [] {
      StepMoves(s, events[0], i);
      FinishedOnce(Step(s, events[0]), events[1..], i);
      if Final(Step(s, events[0]).rows[i].status) {
        FinalForEver(Step(s, events[0]), events[1..], i);
      }
    }
  }

  /** At no time could both a completion and a sweep finish the extraction. */
  lemma CompletionExcludesSweep(row: Extraction, status: Status, errorCode: Option<string>, lost: string, now: int)
    requires Final(status)
    ensures CompleteRow(row, row.id, status, errorCode, now) == row || SweepRow(row, lost, now) == row
    ensures SweepRow(CompleteRow(row, row.id, status, errorCode, now), lost, now)
         == if Alive(row, now) then CompleteRow(row, row.id, status, errorCode, now) else SweepRow(row, lost, now)
    ensures CompleteRow(SweepRow(row, lost, now), row.id, status, errorCode, now)
         == if Expired(row, now) then SweepRow(row, lost, now) else CompleteRow(row, row.id, status, errorCode, now)
  {
  }

  // -- after a sweep

  ghost predicate DistinctIds(rows: seq<Extraction>) {
    forall i, j :: 0 <= i < j < |rows| ==> rows[i].id != rows[j].id
  }

  lemma {:induction false} StepKeepsDistinct(s: State, e: Event)
    requires DistinctIds(s.rows)
    ensures DistinctIds(Step(s, e).rows)
  {
    hide Oldest, Fence;
    var t := Step(s, e);
    if |t.rows| == |s.rows| {
      assert forall i :: 0 <= i < |s.rows| ==> t.rows[i].id == s.rows[i].id;
    } else {
      assert forall i :: 0 <= i < |s.rows| ==> t.rows[i] == s.rows[i];
    }
  }

  /** What a sweep leaves behind: failed, with a lease that is over. */
  predicate Swept(row: Extraction, now: int) {
    row.status == Failed && row.leaseExpiresAt.Some? && row.leaseExpiresAt.value <= now
  }

  lemma SweepLeavesSwept(row: Extraction, errorCode: string, now: int)
    ensures Expired(row, now) ==> Swept(SweepRow(row, errorCode, now), now)
  {
  }

  function PacketsOf(packets: seq<Packet>, id: nat): seq<Packet> {
    if packets == [] then []
    else
      var last := packets[|packets| - 1];
      PacketsOf(packets[..|packets| - 1], id) + (if last.extraction == id then [last] else [])
  }

  /** A packet whose transaction read the clock before the lease was over. */
  function LatePacket(op: Op, id: nat, leaseEnd: int): seq<Packet> {
    if op.InsertPacket? && op.id == id && op.readAt < leaseEnd then [Packet(id, op.domain, op.readAt)] else []
  }

  /**
   * Once an extraction is swept, its row does not change and neither renewal nor completion comes through. A packet
   * comes through exactly when its transaction read the clock before the lease was over, however late it is stored.
   */
  lemma {:induction false} SweptRefuses(s: State, e: Event, i: nat)
    requires i < |s.rows| && Swept(s.rows[i], s.now) && DistinctIds(s.rows) && s.now <= e.at && Proper(e)
    ensures i < |Step(s, e).rows| && Step(s, e).rows[i] == s.rows[i]
    ensures (e.op.Renew? || e.op.Complete?) && e.op.id == s.rows[i].id ==> Step(s, e) == s.(now := e.at)
    ensures PacketsOf(Step(s, e).packets, s.rows[i].id)
         == PacketsOf(s.packets, s.rows[i].id) + LatePacket(e.op, s.rows[i].id, s.rows[i].leaseExpiresAt.value)
  {
    hide Oldest, Known, PacketsOf;
    StepMoves(s, e, i);
    if e.op.InsertPacket? {
      PacketOfSwept(s, e, i);
    } else if e.op.Renew? && e.op.id == s.rows[i].id {
      assert Step(s, e).rows == s.rows;
    } else if e.op.Complete? && e.op.id == s.rows[i].id {
      assert Step(s, e).rows == s.rows;
    }
  }

  lemma {:induction false} PacketOfSwept(s: State, e: Event, i: nat)
    requires i < |s.rows| && Swept(s.rows[i], s.now) && DistinctIds(s.rows) && e.op.InsertPacket?
    ensures PacketsOf(Step(s, e).packets, s.rows[i].id)
         == PacketsOf(s.packets, s.rows[i].id) + LatePacket(e.op, s.rows[i].id, s.rows[i].leaseExpiresAt.value)
  {
    var id := s.rows[i].id;
    if e.op.id == id {
      FenceIsItsRow(s.rows, i, e.op.readAt);
    }
    var p := Packet(e.op.id, e.op.domain, e.op.readAt);
    assert (s.packets + [p])[..|s.packets|] == s.packets;
    assert PacketsOf(s.packets, id) + [] == PacketsOf(s.packets, id);
  }

  /** Only the extraction's own row decides. */
  lemma FenceIsItsRow(rows: seq<Extraction>, i: nat, now: int)
    requires i < |rows| && DistinctIds(rows)
    ensures Fence(rows, rows[i].id, now) <==> rows[i].leaseExpiresAt.None? || rows[i].leaseExpiresAt.value > now
  {
    hide DistinctIds;
    forall j | 0 <= j < |rows| && Admits(rows[j], rows[i].id, now) ensures j == i {
      SameIdSameRow(rows, i, j);
    }
    assert Admits(rows[i], rows[i].id, now) <==> rows[i].leaseExpiresAt.None? || rows[i].leaseExpiresAt.value > now;
  }

  /** The packets of a run whose transactions read the clock before the lease was over. */
  function LatePackets(events: seq<Event>, id: nat, leaseEnd: int): seq<Packet>
    decreases events
  {
    if events == [] then []
    else LatePacket(events[0].op, id, leaseEnd) + LatePackets(events[1..], id, leaseEnd)
  }

  /**
   * Once swept, an extraction is failed for ever, whatever any worker with any claim still tries. Over every run the
   * packets stored for it are exactly those whose transactions read the clock before the lease was over.
   */
  lemma {:induction false} SweptForEver(s: State, events: seq<Event>, i: nat)
    requires i < |s.rows| && Swept(s.rows[i], s.now) && DistinctIds(s.rows) && Timely(events, s.now)
    ensures var t := RunFrom(s, events);
            && i < |t.rows| && t.rows[i] == s.rows[i]
            && PacketsOf(t.packets, s.rows[i].id)
               == PacketsOf(s.packets, s.rows[i].id)
                  + LatePackets(events, s.rows[i].id, s.rows[i].leaseExpiresAt.value)
    decreases events
  {
    hide Step, Proper, PacketsOf, DistinctIds, LatePacket;
    var id, leaseEnd := s.rows[i].id, s.rows[i].leaseExpiresAt.value;
    var was := PacketsOf(s.packets, id);
    if events == [] {
      assert was + [] == was;
    } else {
      SweptRefuses(s, events[0], i);
      StepMoves(s, events[0], i);
      StepKeepsDistinct(s, events[0]);
      SweptForEver(Step(s, events[0]), events[1..], i);
      var one, more := LatePacket(events[0].op, id, leaseEnd), LatePackets(events[1..], id, leaseEnd);
      assert was + one + more == was + (one + more);
    }
  }

  predicate BeginsInTime(e: Event, id: nat, leaseEnd: int) {
    e.op.InsertPacket? && e.op.id == id && e.op.readAt < leaseEnd
  }

  /** A run stores no packet for a swept extraction exactly when no packet's transaction began before its lease ended. */
  lemma {:induction false} NoLatePacketIff(s: State, events: seq<Event>, i: nat)
    requires i < |s.rows| && Swept(s.rows[i], s.now) && DistinctIds(s.rows) && Timely(events, s.now)
    ensures PacketsOf(RunFrom(s, events).packets, s.rows[i].id) == PacketsOf(s.packets, s.rows[i].id)
            <==> forall e | e in events :: !BeginsInTime(e, s.rows[i].id, s.rows[i].leaseExpiresAt.value)
  {
    hide Step, Proper, PacketsOf, DistinctIds, RunFrom, LatePackets;
    SweptForEver(s, events, i);
    NoneLateIff(events, s.rows[i].id, s.rows[i].leaseExpiresAt.value);
    var was := PacketsOf(s.packets, s.rows[i].id);
    var late := LatePackets(events, s.rows[i].id, s.rows[i].leaseExpiresAt.value);
    assert was + late == was <==> late == [] by {
      assert |was + late| == |was| + |late|;
    }
  }

  lemma {:induction false} NoneLateIff(events: seq<Event>, id: nat, leaseEnd: int)
    ensures LatePackets(events, id, leaseEnd) == [] <==> forall e | e in events :: !BeginsInTime(e, id, leaseEnd)
  {
    if events != [] {
      NoneLateIff(events[1..], id, leaseEnd);
      assert forall e :: e in events <==> e == events[0] || e in events[1..];
      assert LatePacket(events[0].op, id, leaseEnd) == [] <==> !BeginsInTime(events[0], id, leaseEnd);
      assert |LatePackets(events, id, leaseEnd)|
          == |LatePacket(events[0].op, id, leaseEnd)| + |LatePackets(events[1..], id, leaseEnd)|;
    }
  }

  /** A packet whose transaction began before the lease was over is stored after the sweep has failed its extraction. */
  lemma PacketAfterSweep(s: State, id: nat, domain: string, lost: string, leaseEnd: int)
    requires s == State([Extraction(id, 0, Running, leaseEnd - 2, Some(leaseEnd - 1), Some(leaseEnd), None, None)], [],
                        leaseEnd - 1)
    ensures var sweep := Event(Sweep(lost), leaseEnd + 1);
            var store := Event(InsertPacket(id, domain, leaseEnd - 1), leaseEnd + 2);
            var swept, after := RunFrom(s, [sweep]), RunFrom(s, [sweep, store]);
            && Timely([sweep, store], s.now)
            && |swept.rows| == 1 && swept.rows[0].status == Failed && after.rows == swept.rows
            && after.packets == [Packet(id, domain, leaseEnd - 1)]
  {
    var sweep, store := Event(Sweep(lost), leaseEnd + 1), Event(InsertPacket(id, domain, leaseEnd - 1), leaseEnd + 2);
    assert [sweep, store][1..] == [store] && [sweep][1..] == [] && [store][1..] == [];
    var swept := Step(s, sweep);
    assert Admits(swept.rows[0], id, leaseEnd - 1);
    var after := Step(swept, store);
    assert RunFrom(swept, []) == swept && RunFrom(after, []) == after;
    assert RunFrom(swept, [store]) == RunFrom(after, []);
  }

  // -- what the packet fence lets through

  /** The lease column follows the life of the row: none until the claim and for a human review, one ever after. */
  predicate LeaseOk(row: Extraction) {
    && (row.status == Queued ==> row.leaseExpiresAt.None?)
    && (row.status == Running || row.status == Partial || row.status == Failed ==> row.leaseExpiresAt.Some?)
    && (row.status == Succeeded && row.leaseExpiresAt.None? ==> row.startedAt == row.finishedAt == Some(row.queuedAt))
  }

  lemma {:induction false} StepKeepsLeaseOk(s: State, e: Event, i: nat)
    requires (forall k :: 0 <= k < |s.rows| ==> LeaseOk(s.rows[k])) && Proper(e)
    requires i < |Step(s, e).rows|
    ensures LeaseOk(Step(s, e).rows[i])
  {
    hide Oldest, Known, Fence;
  }

  lemma {:induction false} StepTicks(s: State, e: Event)
    ensures Step(s, e).now == e.at
  {
    hide Oldest, Known, Fence;
  }

  lemma {:induction false} RunKeepsLeaseOk(s: State, events: seq<Event>, i: nat)
    requires (forall k :: 0 <= k < |s.rows| ==> LeaseOk(s.rows[k])) && Timely(events, s.now)
    requires i < |RunFrom(s, events).rows|
    ensures LeaseOk(RunFrom(s, events).rows[i])
    decreases events
  {
    hide Step, LeaseOk, Proper;
    if events != [] {
      forall k | 0 <= k < |Step(s, events[0]).rows| ensures LeaseOk(Step(s, events[0]).rows[k]) {
        StepKeepsLeaseOk(s, events[0], k);
      }
      StepTicks(s, events[0]);
      RunKeepsLeaseOk(Step(s, events[0]), events[1..], i);
    }
  }

  /**
   * A packet is stored for exactly these extractions: one still queued, a human review, and one whose lease was not
   * over when the packet's transaction began. The last need not be running: between completion and the end of its
   * lease the fence is open as well.
   */
  lemma PacketStoredIff(s: State, e: Event, i: nat)
    requires i < |s.rows| && DistinctIds(s.rows) && (forall k :: 0 <= k < |s.rows| ==> LeaseOk(s.rows[k]))
    requires e.op.InsertPacket? && e.op.id == s.rows[i].id
    ensures var row := s.rows[i];
            Step(s, e).packets != s.packets <==>
              || row.status == Queued
              || (row.status == Succeeded && row.leaseExpiresAt.None?)
              || (row.leaseExpiresAt.Some? && row.leaseExpiresAt.value > e.op.readAt)
  {
    hide LeaseOk;
    LeaseOkMeans(s.rows[i]);
    hide DistinctIds;
    FenceIsItsRow(s.rows, i, e.op.readAt);
  }

  lemma SameIdSameRow(rows: seq<Extraction>, i: nat, j: nat)
    requires DistinctIds(rows) && i < |rows| && j < |rows| && rows[i].id == rows[j].id
    ensures i == j
  {
  }

  lemma LeaseOkMeans(row: Extraction)
    requires LeaseOk(row)
    ensures row.leaseExpiresAt.None? <==>
      row.status == Queued || (row.status == Succeeded && row.leaseExpiresAt.None?)
  {
  }

  /** In every run from the empty tables, ids are distinct and the lease columns are in order. */
  lemma EveryRunIsSound(events: seq<Event>)
    requires Timely(events, START.now)
    ensures DistinctIds(RunFrom(START, events).rows)
    ensures forall i | 0 <= i < |RunFrom(START, events).rows| :: LeaseOk(RunFrom(START, events).rows[i])
  {
    hide LeaseOk, Step;
    RunKeepsDistinct(START, events);
    forall i | 0 <= i < |RunFrom(START, events).rows|
      ensures LeaseOk(RunFrom(START, events).rows[i])
    {
      RunKeepsLeaseOk(START, events, i);
    }
  }

  lemma {:induction false} RunKeepsDistinct(s: State, events: seq<Event>)
    requires DistinctIds(s.rows)
    ensures DistinctIds(RunFrom(s, events).rows)
    decreases events
  {
    hide Step, DistinctIds;
    if events != [] {
      StepKeepsDistinct(s, events[0]);
      RunKeepsDistinct(Step(s, events[0]), events[1..]);
    }
  }

  /** A completed extraction still takes a packet until its lease is over. */
  lemma CompletedStillStores(s: State, id: nat, domain: string, at: int)
    requires s == State([Extraction(id, 0, Running, at - 2, Some(at - 1), Some(at + 1), None, None)], [], at - 1)
    ensures var done := Step(s, Event(Complete(id, Succeeded, None), at));
            && done.rows[0].status == Succeeded
            && Step(done, Event(InsertPacket(id, domain, at), at)).packets == [Packet(id, domain, at)]
  {
    var done := Step(s, Event(Complete(id, Succeeded, None), at));
    assert Admits(done.rows[0], id, at);
  }

  // -- what each statement writes

  /** What becomes of one row, column by column. */
  function RowAfter(row: Extraction, next: bool, e: Event): Extraction {
    if next && e.op.Claim? then
      Extraction(row.id, row.document, Running, row.queuedAt, Some(e.at), Some(e.at + e.op.lease), row.finishedAt,
                 row.errorCode)
    else if row.status != Running || (row.leaseExpiresAt.None? && !e.op.Renew?) then row
    else if e.op.Renew? && e.op.id == row.id then
      Extraction(row.id, row.document, Running, row.queuedAt, row.startedAt, Some(e.at + e.op.lease), row.finishedAt,
                 row.errorCode)
    else if e.op.Complete? && e.op.id == row.id && e.at < row.leaseExpiresAt.value then
      Extraction(row.id, row.document, e.op.status, row.queuedAt, row.startedAt, row.leaseExpiresAt, Some(e.at),
                 e.op.errorCode)
    else if e.op.Sweep? && row.leaseExpiresAt.value < e.at then
      Extraction(row.id, row.document, Failed, row.queuedAt, row.startedAt, row.leaseExpiresAt, Some(e.at),
                 Some(e.op.lost))
    else row
  }

  /** Every step leaves of each row exactly what the columns say, and adds only a queued row or a finished review. */
  lemma {:induction false} StepWritesRow(s: State, e: Event, i: nat)
    requires i < |s.rows|
    ensures i < |Step(s, e).rows| && Step(s, e).rows[i] == RowAfter(s.rows[i], IsNext(s.rows, Waits, i), e)
    ensures var rows := Step(s, e).rows;
            if (e.op.Create? || e.op.HumanReview?) && !Known(s.rows, e.op.id)
            then rows == s.rows + [if e.op.Create?
                                   then Extraction(e.op.id, e.op.document, Queued, e.at, None, None, None, None)
                                   else Extraction(e.op.id, e.op.document, Succeeded, e.at, Some(e.at), None, Some(e.at), None)]
            else |rows| == |s.rows|
  {
    NextIsOldest(s.rows, Waits, i);
    hide Oldest, IsNext, Known, Fence;
  }

  /** The event finishes the row as it stands. */
  predicate FinishedBy(row: Extraction, e: Event) {
    && row.finishedAt == Some(e.at)
    && ((e.op.Complete? && e.op.id == row.id && row.status == e.op.status && row.errorCode == e.op.errorCode)
        || (e.op.Sweep? && row.status == Failed && row.errorCode == Some(e.op.lost)))
  }

  /** Over every run, an extraction that comes to an end has the status, the error and the time of the completion or the
      sweep that ended it. */
  lemma {:induction false} FinishedAsTold(s: State, events: seq<Event>, i: nat)
    requires i < |s.rows| && !Final(s.rows[i].status) && Timely(events, s.now)
    ensures i < |RunFrom(s, events).rows|
    ensures Final(RunFrom(s, events).rows[i].status) ==>
              exists e | e in events :: FinishedBy(RunFrom(s, events).rows[i], e)
    decreases events
  {
    hide Step, IsNext, Proper, Final;
    if events != [] {
      var e, rest := events[0], events[1..];
      var t := Step(s, e);
      StepMoves(s, e, i);
      if Final(t.rows[i].status) {
        FinalForEver(t, rest, i);
        StepFinishes(s, e, i);
        assert e in events;
      } else {
        FinishedAsTold(t, rest, i);
        if x :| x in rest && FinishedBy(RunFrom(t, rest).rows[i], x) {
          assert x in events;
        }
      }
    }
  }

  lemma {:induction false} StepFinishes(s: State, e: Event, i: nat)
    requires i < |s.rows| && !Final(s.rows[i].status) && Proper(e)
    ensures i < |Step(s, e).rows| && (Final(Step(s, e).rows[i].status) ==> FinishedBy(Step(s, e).rows[i], e))
  {
    hide Step, IsNext;
    StepWritesRow(s, e, i);
  }
}
