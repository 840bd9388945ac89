/**
 * Replay-safe history: the pairing check (app/agent_node.py), the run's snapshot (app/run_handle.py) and the
 * messages a terminal update writes (app/turn_persistence.py).
 */
module TurnPersistence {
  import opened Emissions
  import opened Options

  /**
   * One serialized part. A part that is not a dictionary is `Malformed`; every kind other than the tool kinds is
   * `Other`, except the text part that a partial answer is written as.
   */
  datatype Part =
    | Malformed
    | ToolCall(toolCallId: Option<string>, id: Option<string>)
    | ToolReturn(toolCallId: Option<string>, id: Option<string>)
    | Text(content: string)
    | Other

  datatype Kind = Request | Response

  /** `parts` is None when the message carries no list of parts. */
  datatype Message = Message(kind: Kind, parts: Option<seq<Part>>)

  /** The id of a tool part: the first of the two fields that is not empty. */
  function CallId(part: Part): Option<string>
    requires part.ToolCall? || part.ToolReturn?
  {
    if part.toolCallId.Some? && part.toolCallId.value != "" then part.toolCallId
    else if part.id.Some? && part.id.value != "" then part.id
    else None
  }

  predicate Filled(field: Option<string>) {
    field.Some? && field.value != ""
  }

  /** A call and its return are known by the same field: the first, or the second when the first is empty. */
  lemma CallIdMeans(first: Option<string>, second: Option<string>)
    ensures CallId(ToolCall(first, second)) == CallId(ToolReturn(first, second))
    ensures Filled(first) ==> CallId(ToolCall(first, second)) == first
    ensures !Filled(first) && Filled(second) ==> CallId(ToolCall(first, second)) == second
    ensures !Filled(first) && !Filled(second) ==> CallId(ToolCall(first, second)).None?
  {
  }

  // -- what replay needs

  predicate Named(part: Part) {
    && !part.Malformed?
    && (part.ToolCall? || part.ToolReturn? ==> CallId(part).Some?)
  }

  /** All parts in flattened order. */
  function Flat(messages: seq<Message>): seq<Part> {
    if messages == [] then []
    else
      var last := messages[|messages| - 1];
      Flat(messages[..|messages| - 1]) + (if last.parts.Some? then last.parts.value else [])
  }

  datatype Mark = Called | Returned

  /** The calls and returns of one id, in order. */
  function Trace(parts: seq<Part>, id: string): seq<Mark> {
    if parts == [] then []
    else
      var part := parts[|parts| - 1];
      var before := Trace(parts[..|parts| - 1], id);
      if part.ToolCall? && CallId(part) == Some(id) then before + [Called]
      else if part.ToolReturn? && CallId(part) == Some(id) then before + [Returned]
      else before
  }

  function DropCalls(t: seq<Mark>): (r: seq<Mark>)
    ensures |r| <= |t|
  {
    if t != [] && t[|t| - 1] == Called then DropCalls(t[..|t| - 1]) else t
  }

  /** (call+ return)*: every return closes one or more calls, and no call is left over. */
  predicate Paired(t: seq<Mark>)
    decreases |t|
  {
    || t == []
    || (&& |t| >= 2 && t[|t| - 1] == Returned && t[|t| - 2] == Called
        && Paired(DropCalls(t[..|t| - 1])))
  }

  ghost predicate Replayable(messages: seq<Message>) {
    && (forall m :: m in messages ==> m.parts.Some?)
    && (forall part :: part in Flat(messages) ==> Named(part))
    && (forall id :: Paired(Trace(Flat(messages), id)))
  }

  // -- the scanner behind the check

  datatype Phase = Idle | Waiting | Broken

  /** Whether one id waits for its return after its marks so far; an unexpected return breaks it for ever. */
  function Scan(t: seq<Mark>): Phase {
    if t == [] then Idle
    else
      var p := Scan(t[..|t| - 1]);
      if p == Broken then Broken
      else if t[|t| - 1] == Called then Waiting
      else if p == Waiting then Idle else Broken
  }

  /** Repeated calls wait like one, whatever was before them. */
  lemma {:induction false} ScanCalls(t: seq<Mark>)
    requires t != [] && t[|t| - 1] == Called
    ensures Scan(t) == Waiting <==> Scan(DropCalls(t)) == Idle
  {
    var front := t[..|t| - 1];
    if front != [] && front[|front| - 1] == Called {
      ScanCalls(front);
    }
  }

  /** The scanner ends idle exactly on (call+ return)*. */
  lemma {:induction false} ScanDecidesPaired(t: seq<Mark>)
    ensures Paired(t) <==> Scan(t) == Idle
    decreases |t|
  {
    if |t| >= 2 && t[|t| - 1] == Returned {
      var front := t[..|t| - 1];
      if front[|front| - 1] == Called {
        ScanCalls(front);
        ScanDecidesPaired(DropCalls(front));
      }
    }
  }

  /** What the waiting set stands for after a prefix of the parts. */
  ghost predicate Awaits(parts: seq<Part>, waiting: set<string>) {
    && (forall part :: part in parts ==> Named(part))
    && (forall id :: Scan(Trace(parts, id)) == if id in waiting then Waiting else Idle)
  }

  /** A prefix that no continuation can repair. */
  ghost predicate Spoiled(parts: seq<Part>) {
    || (exists part :: part in parts && !Named(part))
    || (exists id :: Scan(Trace(parts, id)) == Broken)
  }

  lemma TraceOfOneMore(parts: seq<Part>, part: Part, id: string)
    ensures Trace(parts + [part], id) == Trace(parts, id)
      + (if part.ToolCall? && CallId(part) == Some(id) then [Called]
         else if part.ToolReturn? && CallId(part) == Some(id) then [Returned] else [])
  {
    assert (parts + [part])[..|parts|] == parts;
  }

  lemma ScanOfOneMore(parts: seq<Part>, part: Part, id: string)
    ensures Scan(Trace(parts + [part], id)) ==
      var p := Scan(Trace(parts, id));
      if part.ToolCall? && CallId(part) == Some(id) then (if p == Broken then Broken else Waiting)
      else if part.ToolReturn? && CallId(part) == Some(id) then (if p == Waiting then Idle else Broken)
      else p
  {
    TraceOfOneMore(parts, part, id);
    assert Trace(parts, id) + [] == Trace(parts, id);
    assert forall m :: (Trace(parts, id) + [m])[..|Trace(parts, id)|] == Trace(parts, id);
  }

  /** What one more part does to the waiting set, when it is not refused. */
  function Admitted(waiting: set<string>, part: Part): set<string> {
    if part.ToolCall? && CallId(part).Some? then waiting + {CallId(part).value}
    else if part.ToolReturn? && CallId(part).Some? then waiting - {CallId(part).value}
    else waiting
  }

  predicate Refused(waiting: set<string>, part: Part) {
    !Named(part) || (part.ToolReturn? && CallId(part).value !in waiting)
  }

  lemma AdmittedAwaits(parts: seq<Part>, waiting: set<string>, part: Part)
    requires Awaits(parts, waiting) && !Refused(waiting, part)
    ensures Awaits(parts + [part], Admitted(waiting, part))
  {
    hide Scan, Trace;
    forall id ensures Scan(Trace(parts + [part], id)) == if id in Admitted(waiting, part) then Waiting else Idle {
      ScanOfOneMore(parts, part, id);
    }
  }

  lemma RefusedSpoils(parts: seq<Part>, waiting: set<string>, part: Part)
    requires Awaits(parts, waiting) && Refused(waiting, part)
    ensures Spoiled(parts + [part])
  {
    hide Scan, Trace;
    if Named(part) {
      ScanOfOneMore(parts, part, CallId(part).value);
    } else {
      assert part in parts + [part];
    }
  }

  lemma {:induction false} SpoiledForEver(parts: seq<Part>, more: seq<Part>)
    requires Spoiled(parts)
    ensures Spoiled(parts + more)
  {
    hide Scan, Trace;
    if more == [] {
      assert parts + more == parts;
    } else {
      var front := more[..|more| - 1];
      var last := more[|more| - 1];
      SpoiledForEver(parts, front);
      assert parts + more == parts + front + [last];
      forall id ensures Scan(Trace(parts + front, id)) == Broken ==> Scan(Trace(parts + front + [last], id)) == Broken {
        ScanOfOneMore(parts + front, last, id);
      }
    }
  }

  lemma SpoiledIsNotReplayable(messages: seq<Message>)
    requires Spoiled(Flat(messages))
    ensures !Replayable(messages)
  {
    hide Scan, Trace, Paired;
    forall id ensures Scan(Trace(Flat(messages), id)) == Broken ==> !Paired(Trace(Flat(messages), id)) {
      ScanDecidesPaired(Trace(Flat(messages), id));
    }
  }

  lemma AwaitsDecides(messages: seq<Message>, waiting: set<string>)
    requires Awaits(Flat(messages), waiting) && forall m :: m in messages ==> m.parts.Some?
    ensures Replayable(messages) <==> waiting == {}
  {
    hide Scan, Trace, Paired;
    forall id ensures Paired(Trace(Flat(messages), id)) <==> id !in waiting {
      ScanDecidesPaired(Trace(Flat(messages), id));
    }
    if waiting != {} {
      var id :| id in waiting;
      assert !Paired(Trace(Flat(messages), id));
    }
  }

  lemma {:induction false} FlatAppend(a: seq<Message>, b: seq<Message>)
    ensures Flat(a + b) == Flat(a) + Flat(b)
  {
    if b == [] {
      assert a + b == a && Flat(a) + [] == Flat(a);
    } else {
      assert (a + b)[..|a + b| - 1] == a + b[..|b| - 1];
      FlatAppend(a, b[..|b| - 1]);
    }
  }

  lemma FlatUpTo(messages: seq<Message>, i: nat)
    requires i < |messages| && messages[i].parts.Some?
    ensures Flat(messages[..i + 1]) == Flat(messages[..i]) + messages[i].parts.value
  {
    assert messages[..i + 1][..i] == messages[..i];
  }

  /** Scans one message's parts. On success `after` is what waits behind them. */
  method ScanParts(ghost seen: seq<Part>, parts: seq<Part>, waiting: set<string>)
    returns (ok: bool, after: set<string>)
    requires Awaits(seen, waiting)
    ensures ok ==> Awaits(seen + parts, after)
    ensures !ok ==> Spoiled(seen + parts)
  {
    hide Awaits, Spoiled, Named;
    after := waiting;
    assert seen + parts[..0] == seen;
    for j := 0 to |parts|
      invariant Awaits(seen + parts[..j], after)
    {
      var part := parts[j];
      assert seen + parts[..j + 1] == seen + parts[..j] + [part];
      assert seen + parts == seen + parts[..j + 1] + parts[j + 1..];
      assert Refused(after, part) ==> Spoiled(seen + parts) by {
        if Refused(after, part) {
          RefusedSpoils(seen + parts[..j], after, part);
          SpoiledForEver(seen + parts[..j + 1], parts[j + 1..]);
        }
      }
      if !Refused(after, part) {
        AdmittedAwaits(seen + parts[..j], after, part);
      }
      var admitted, next := AdmitPart(part, after);
      if !admitted {
        return false, after;
      }
      after := next;
    }
    assert parts[..|parts|] == parts;
    return true, after;
  }

  /** The branches on one part: refuse it, open or close an id, or pass it by. */
  method AdmitPart(part: Part, waiting: set<string>) returns (ok: bool, after: set<string>)
    ensures ok <==> !Refused(waiting, part)
    ensures ok ==> after == Admitted(waiting, part)
  {
    after := waiting;
    if part.Malformed? {
      return false, after;
    }
    if part.ToolCall? {
      var id := CallId(part);
      if id.None? {
        return false, after;
      }
      after := after + {id.value};
    } else if part.ToolReturn? {
      var id := CallId(part);
      if id.None? || id.value !in after {
        return false, after;
      }
      after := after - {id.value};
    }
    return true, after;
  }

  /** The pairing check accepts exactly the replayable histories. */
  method IsProviderReplayable(messages: seq<Message>) returns (ok: bool)
    ensures ok <==> Replayable(messages)
  {
    hide Replayable, Spoiled, Awaits;
    var waiting: set<string> := {};
    NothingAwaits();
    for i := 0 to |messages|
      invariant forall k :: 0 <= k < i ==> messages[k].parts.Some?
      invariant Awaits(Flat(messages[..i]), waiting)
    {
      if messages[i].parts.None? {
        PartlessIsNotReplayable(messages, i);
        return false;
      }
      FlatUpTo(messages, i);
      var whole, after := ScanParts(Flat(messages[..i]), messages[i].parts.value, waiting);
      if !whole {
        SpoiledForEver(Flat(messages[..i + 1]), Flat(messages[i + 1..]));
        FlatAppend(messages[..i + 1], messages[i + 1..]);
        assert messages == messages[..i + 1] + messages[i + 1..];
        SpoiledIsNotReplayable(messages);
        return false;
      }
      waiting := after;
    }
    assert messages[..|messages|] == messages;
    AwaitsDecides(messages, waiting);
    return waiting == {};
  }

  lemma NothingAwaits()
    ensures Awaits(Flat([]), {})
  {
  }

  lemma PartlessIsNotReplayable(messages: seq<Message>, i: nat)
    requires i < |messages| && messages[i].parts.None?
    ensures !Replayable(messages)
  {
    assert messages[i] in messages;
  }

  // -- the partial answer

  /** The response that carries prose streamed but not yet in the history. */
  function PartialResponse(prose: string): Message {
    Message(Response, Some([Text(prose)]))
  }

  /** A text response neither opens nor closes a tool call. */
  lemma TextKeepsTraces(messages: seq<Message>, prose: string, id: string)
    ensures Flat(messages + [PartialResponse(prose)]) == Flat(messages) + [Text(prose)]
    ensures Trace(Flat(messages + [PartialResponse(prose)]), id) == Trace(Flat(messages), id)
  {
    assert (messages + [PartialResponse(prose)])[..|messages|] == messages;
    TraceOfOneMore(Flat(messages), Text(prose), id);
  }

  /** Adding a text response neither makes nor breaks replayability. */
  lemma TextKeepsReplayable(messages: seq<Message>, prose: string)
    ensures Replayable(messages + [PartialResponse(prose)]) <==> Replayable(messages)
  {
    hide Flat, Trace, Paired;
    var longer := messages + [PartialResponse(prose)];
    TextKeepsTraces(messages, prose, "");
    assert forall part :: part in Flat(longer) <==> part in Flat(messages) || part == Text(prose);
    assert forall m :: m in longer <==> m in messages || m == PartialResponse(prose);
    forall id ensures Trace(Flat(longer), id) == Trace(Flat(messages), id) {
      TextKeepsTraces(messages, prose, id);
    }
  }

  predicate EndsInRequest(messages: seq<Message>) {
    messages != [] && messages[|messages| - 1].kind.Request?
  }

  /** The empty-partial rule. */
  function PartialMessages(messages: seq<Message>, emissions: seq<Emission>): (seq<Message>, bool) {
    var prose := Prose(emissions);
    if prose == "" || !EndsInRequest(messages) then (messages, false)
    else (messages + [PartialResponse(prose)], true)
  }

  /** Emissions from a snapshot point on; a negative point is the start, one past the end is the end. */
  function Tail(emissions: seq<Emission>, from: int): seq<Emission> {
    if from <= 0 then emissions else if from >= |emissions| then [] else emissions[from..]
  }

  function AppendLegalUncommittedTail(history: seq<Message>, emissions: seq<Emission>, from: int)
    : (seq<Message>, bool)
  {
    PartialMessages(history, Tail(emissions, from))
  }

  /** The `messages` entry of the one terminal update; None when the entry is absent. */
  function BuildTerminalUpdate(messages: seq<Message>, emissions: seq<Emission>,
                               snapshot: Option<seq<Message>>, from: int): Option<seq<Message>>
  {
    if snapshot.None? then
      var (written, changed) := PartialMessages(messages, emissions);
      if changed then Some(written) else None
    else
      var (written, changed) := AppendLegalUncommittedTail(snapshot.value, emissions, from);
      if snapshot.value != messages || changed then Some(written) else None
  }

  /** The history after a terminal update. */
  function HistoryAfter(messages: seq<Message>, update: Option<seq<Message>>): seq<Message> {
    if update.Some? then update.value else messages
  }

  /** What a history says in text responses that a partial answer wrote behind `base`. */
  function Added(base: seq<Message>, history: seq<Message>): string {
    if |history| == |base| + 1 && history[..|base|] == base && history[|base|].parts.Some?
       && |history[|base|].parts.value| == 1 && history[|base|].parts.value[0].Text?
    then history[|base|].parts.value[0].content else ""
  }

  /**
   * A terminal update keeps a replayable base replayable, leaves the base as it is, and appends exactly the answer
   * text behind the snapshot point when a request can anchor it; without one, or without text, nothing.
   */
  lemma TerminalUpdateIsReplayable(messages: seq<Message>, emissions: seq<Emission>,
                                   snapshot: Option<seq<Message>>, from: int)
    ensures var base := if snapshot.Some? then snapshot.value else messages;
            var late := if snapshot.Some? then Prose(Tail(emissions, from)) else Prose(emissions);
            var after := HistoryAfter(messages, BuildTerminalUpdate(messages, emissions, snapshot, from));
            && (Replayable(after) <==> Replayable(base))
            && base <= after
            && Added(base, after) == (if EndsInRequest(base) then late else "")
            && (after == base <==> late == "" || !EndsInRequest(base))
            && (after == base || after == base + [Message(Response, Some([Text(late)]))])
  {
    hide Replayable;
    var base := if snapshot.Some? then snapshot.value else messages;
    var late := if snapshot.Some? then Prose(Tail(emissions, from)) else Prose(emissions);
    TextKeepsReplayable(base, late);
  }

  /** A snapshot point outside the emissions is read as the nearer end. */
  lemma TailMeans(emissions: seq<Emission>, from: int)
    ensures from < 0 ==> Tail(emissions, from) == emissions
    ensures from > |emissions| ==> Tail(emissions, from) == []
    ensures 0 <= from <= |emissions| ==> Tail(emissions, from) == emissions[from..]
  {
  }

  /** Nothing streamed is both before and behind the snapshot point, and nothing is in neither part. */
  lemma SnapshotSplitsProse(before: seq<Emission>, later: seq<Emission>)
    ensures Prose(before + later) == Prose(before) + Prose(Tail(before + later, |before|))
  {
    ProseSplit(before, later);
    assert Tail(before + later, |before|) == later;
  }

  // -- the run's handle

  class RunHandle {
    var messagesSnapshot: seq<Message>
    var snapshotSeq: nat
    var emissionsLenAtSnapshot: nat

    ghost predicate Valid()
      reads this
    {
      Replayable(messagesSnapshot) && (snapshotSeq == 0 ==> messagesSnapshot == [] && emissionsLenAtSnapshot == 0)
    }

    constructor ()
      ensures Valid() && messagesSnapshot == [] && snapshotSeq == 0
    {
      messagesSnapshot, snapshotSeq, emissionsLenAtSnapshot := [], 0, 0;
    }

    method RecordSnapshot(messages: seq<Message>, emissionsLen: nat)
      modifies this
      ensures messagesSnapshot == messages && snapshotSeq == old(snapshotSeq) + 1
      ensures emissionsLenAtSnapshot == emissionsLen
    {
      messagesSnapshot := messages;
      snapshotSeq := snapshotSeq + 1;
      emissionsLenAtSnapshot := emissionsLen;
    }

    /**
     * Records the run's messages if they are replayable, and otherwise keeps the last snapshot that was. `dumped`
     * is None when the messages could not be serialized to a list of dictionaries.
     */
    method RecordReplayableSnapshot(dumped: Option<seq<Message>>, emissionsLen: nat)
      requires Valid()
      modifies this
      ensures Valid()
      ensures dumped.Some? && Replayable(dumped.value) ==>
        messagesSnapshot == dumped.value && emissionsLenAtSnapshot == emissionsLen
        && snapshotSeq == old(snapshotSeq) + 1
      ensures dumped.None? || !Replayable(dumped.value) ==>
        messagesSnapshot == old(messagesSnapshot) && emissionsLenAtSnapshot == old(emissionsLenAtSnapshot)
        && snapshotSeq == old(snapshotSeq)
    {
      if dumped.None? {
        return;
      }
      var ok := IsProviderReplayable(dumped.value);
      if !ok {
        return;
      }
      RecordSnapshot(dumped.value, emissionsLen);
    }

    /**
     * The terminal update of a failed, cancelled or timed-out run: an empty snapshot counts as none. Whatever
     * happened before, the written history is replayable if the committed one was.
     */
    method TerminalUpdate(messages: seq<Message>, emissions: seq<Emission>) returns (update: Option<seq<Message>>)
      requires Valid()
      ensures var base := if messagesSnapshot != [] then messagesSnapshot else messages;
              var late := if messagesSnapshot != [] then Tail(emissions, emissionsLenAtSnapshot) else emissions;
              var after := HistoryAfter(messages, update);
              && (Replayable(messages) ==> Replayable(after))
              && base <= after
              && Added(base, after) == (if EndsInRequest(base) then Prose(late) else "")
              && (after == base || after == base + [Message(Response, Some([Text(Prose(late))]))])
    {
      hide Replayable;
      var snapshot := if messagesSnapshot != [] then Some(messagesSnapshot) else None;
      TerminalUpdateIsReplayable(messages, emissions, snapshot, emissionsLenAtSnapshot);
      update := BuildTerminalUpdate(messages, emissions, snapshot, emissionsLenAtSnapshot);
    }
  }
}
