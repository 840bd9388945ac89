/** The two replay views of a turn (app/records.py): its answer parts, and its full chronology in segments. */
module Records {
  import opened Emissions

  // A part is an answer emission; a segment is an emission of any kind.
  type Part = Emission
  type Segment = Emission

  // ----- Deduplicating cards

  /** The signatures of the cards in a log. */
  function Signatures(es: seq<Emission>): set<string> {
    set e | e in es && e.Viz? :: e.spec.signature
  }

  /** The log without the cards whose signature came before. */
  function Kept(es: seq<Emission>): seq<Emission> {
    if es == [] then []
    else
      var init, last := es[..|es| - 1], es[|es| - 1];
      Kept(init) + if last.Viz? && last.spec.signature in Signatures(init) then [] else [last]
  }

  class FinalEmissionDeduper {
    var seenViz: set<string>

    constructor ()
      ensures seenViz == {}
    {
      seenViz := {};
    }

    method Keep(e: Emission) returns (keep: bool)
      modifies this
      ensures keep <==> !(e.Viz? && e.spec.signature in old(seenViz))
      ensures seenViz == old(seenViz) + Signatures([e])
    {
      if !e.Viz? {
        return true;
      }
      if e.spec.signature in seenViz {
        return false;
      }
      seenViz := seenViz + {e.spec.signature};
      return true;
    }
  }

  lemma SignaturesSplit(a: seq<Emission>, b: seq<Emission>)
    ensures Signatures(a + b) == Signatures(a) + Signatures(b)
  {
  }

  lemma {:induction false} KeptKeepsSignatures(es: seq<Emission>)
    ensures Signatures(Kept(es)) == Signatures(es)
  {
    if es != [] {
      var init, last := es[..|es| - 1], es[|es| - 1];
      KeptKeepsSignatures(init);
      assert es == init + [last];
      SignaturesSplit(init, [last]);
      SignaturesSplit(Kept(init), Kept(es)[|Kept(init)|..]);
    }
  }

  /** Deduplicating twice is deduplicating once. */
  lemma {:induction false} KeptOnce(es: seq<Emission>)
    ensures Kept(Kept(es)) == Kept(es)
  {
    if es != [] {
      var init, last := es[..|es| - 1], es[|es| - 1];
      KeptOnce(init);
      KeptKeepsSignatures(init);
      if !(last.Viz? && last.spec.signature in Signatures(init)) {
        assert (Kept(init) + [last])[..|Kept(init)|] == Kept(init);
      } else {
        assert Kept(es) == Kept(init);
      }
    }
  }

  // ----- Parts

  /** The text and the cards of a log. */
  function Answers(es: seq<Emission>): seq<Emission> {
    if es == [] then []
    else Answers(es[..|es| - 1]) + if es[|es| - 1].Delta? || es[|es| - 1].Viz? then [es[|es| - 1]] else []
  }

  /** The answer parts: text and cards, each card once, text in one piece between them. */
  function PartsOf(es: seq<Emission>): (parts: seq<Part>)
    ensures IsMerged(parts)
  {
    Merged(Answers(Kept(es)))
  }

  /** All text of the parts. */
  function ProseOf(parts: seq<Part>): string {
    Prose(parts)
  }

  lemma {:induction false} AnswersSplit(a: seq<Emission>, b: seq<Emission>)
    ensures Answers(a + b) == Answers(a) + Answers(b)
  {
    if b == [] {
      assert a + b == a;
    } else {
      assert (a + b)[..|a + b| - 1] == a + b[..|b| - 1];
      AnswersSplit(a, b[..|b| - 1]);
    }
  }

  lemma {:induction false} AnswersProse(es: seq<Emission>)
    ensures Prose(Answers(es)) == Prose(es)
  {
    if es != [] {
      var init, last := es[..|es| - 1], es[|es| - 1];
      AnswersProse(init);
      assert es == init + [last];
      ProseSplit(init, [last]);
      ProseSplit(Answers(init), Answers(es)[|Answers(init)|..]);
      assert [last][1..] == [];
    }
  }

  lemma {:induction false} KeptProse(es: seq<Emission>)
    ensures Prose(Kept(es)) == Prose(es)
  {
    if es != [] {
      var init, last := es[..|es| - 1], es[|es| - 1];
      KeptProse(init);
      assert es == init + [last];
      ProseSplit(init, [last]);
      ProseSplit(Kept(init), Kept(es)[|Kept(init)|..]);
      assert [last][1..] == [];
    }
  }

  /** The prose of the parts is all the answer text that streamed. */
  lemma PartsHoldAllProse(es: seq<Emission>)
    ensures ProseOf(PartsOf(es)) == Prose(es)
  {
    MergedProse(Answers(Kept(es)));
    AnswersProse(Kept(es));
    KeptProse(es);
  }

  /** One more emission. */
  lemma PartsOfMore(es: seq<Emission>, i: nat, before: seq<Emission>)
    requires i < |es| && Merged(before) == PartsOf(es[..i])
    ensures var e := es[i];
            var kept := e.Delta? || (e.Viz? && e.spec.signature !in Signatures(es[..i]));
            PartsOf(es[..i + 1]) == Merged(before + if kept then [e] else [])
    ensures Signatures(es[..i + 1]) == Signatures(es[..i]) + Signatures([es[i]])
  {
    var init, last := es[..i], es[i];
    KeptMore(es, i);
    AnswersOfOne(last);
    hide Kept, Signatures, Merged, Answers;
    var more := if last.Viz? && last.spec.signature in Signatures(init) then [] else [last];
    assert Kept(init) + [] == Kept(init);
    assert Kept(es[..i + 1]) == Kept(init) + more;
    AnswersSplit(Kept(init), more);
    MergedThen(before, Answers(Kept(init)), Answers(more));
  }

  lemma AnswersOfOne(e: Emission)
    ensures Answers([]) == [] && Answers([e]) == if e.Delta? || e.Viz? then [e] else []
  {
    assert [e][..0] == [];
  }

  lemma NoTextAtEnd(es: seq<Emission>)
    ensures Merged(es + [Delta("")]) == Merged(es)
  {
    assert [Delta("")][1..] == [] && es + [] == es;
    MergedBehind(es, [Delta("")], []);
  }

  /** A card closes the run of text before it. */
  lemma MergedEnd(parts: seq<Part>, segment: string, e: Emission)
    requires IsMerged(parts) && (parts != [] ==> parts[|parts| - 1].Viz?) && e.Viz?
    ensures var more := parts + (if segment == "" then [] else [Delta(segment)]) + [e];
            IsMerged(more) && Merged(more + [Delta("")]) == Merged(parts + [Delta(segment)] + [e])
  {
    var more := parts + (if segment == "" then [] else [Delta(segment)]) + [e];
    assert IsMerged(more);
    hide Merged, IsMerged;
    NoTextAtEnd(more);
    if segment == "" {
      MergedEmpty([e]);
      MergedBehind(parts, [Delta("")] + [e], [e]);
      assert parts + [] + [e] == parts + [e];
      assert parts + [Delta("")] + [e] == parts + ([Delta("")] + [e]);
    }
  }

  lemma NoParts()
    ensures IsMerged([]) && Signatures([]) == {} && Merged([] + [Delta("")]) == PartsOf([])
  {
    NoTextAtEnd([]);
  }

  lemma {:induction false} LastPart(parts: seq<Part>, segment: string)
    requires IsMerged(parts) && (parts != [] ==> parts[|parts| - 1].Viz?)
    ensures Merged(parts + [Delta(segment)]) == parts + if segment == "" then [] else [Delta(segment)]
  {
    if segment == "" {
      NoTextAtEnd(parts);
      MergedOfMerged(parts);
    } else {
      MergedOfMerged(parts + [Delta(segment)]);
    }
  }

  method BuildParts(emissions: seq<Emission>) returns (parts: seq<Part>)
    ensures parts == PartsOf(emissions)
  {
    hide Merged, PartsOf, IsMerged;
    parts := [];
    var segment := "";
    var deduper := new FinalEmissionDeduper();
    NoParts();
    for i := 0 to |emissions|
      invariant fresh(deduper) && deduper.seenViz == Signatures(emissions[..i])
      invariant IsMerged(parts) && (parts != [] ==> parts[|parts| - 1].Viz?)
      invariant Merged(parts + [Delta(segment)]) == PartsOf(emissions[..i])
    {
      ghost var before := parts + [Delta(segment)];
      var e := emissions[i];
      PartsOfMore(emissions, i, before);
      if e.Delta? {
        MergedJoin(segment, e.text, []);
        assert [Delta(segment + e.text)] + [] == [Delta(segment + e.text)];
        assert [Delta(segment), Delta(e.text)] + [] == [Delta(segment), Delta(e.text)];
        MergedBehind(parts, [Delta(segment + e.text)], [Delta(segment), Delta(e.text)]);
        assert before + [e] == parts + [Delta(segment), Delta(e.text)];
        segment := segment + e.text;
      } else if e.Viz? {
        var keep := deduper.Keep(e);
        if keep {
          MergedEnd(parts, segment, e);
          ghost var more := parts + (if segment == "" then [] else [Delta(segment)]) + [e];
          if segment != "" {
            parts := parts + [Delta(segment)];
            segment := "";
          }
          parts := parts + [e];
          assert parts == more;
        } else {
          assert before + [] == before;
        }
      } else {
        assert before + [] == before;
      }
    }
    assert emissions[..|emissions|] == emissions;
    LastPart(parts, segment);
    if segment != "" {
      parts := parts + [Delta(segment)];
    }
  }

  // ----- Segments

  /** The place that an emission takes in the chronology. A step or a user message takes one at its first emission
      and is filled with its last payload; everything but text ends the run of text before it. */
  datatype Slot =
    | TextSlot(text: string)
    | ShownSlot(e: Emission)
    | StepSlot(stepId: string)
    | UserSlot(userMessageId: string)
    | Gap

  predicate StepOf(e: Emission, id: string) {
    e.Step? && e.data.stepId == id
  }

  predicate UserOf(e: Emission, id: string) {
    e.User? && e.userMessageId == id
  }

  function SlotOf(before: seq<Emission>, e: Emission): Slot {
    match e
    case Delta(text) => TextSlot(text)
    case Viz(_) => ShownSlot(e)
    case Narration(text) => if text == "" then Gap else ShownSlot(e)
    case Thinking(text) => if text == "" then Gap else ShownSlot(e)
    case Step(data) => if exists b | b in before :: StepOf(b, data.stepId) then Gap else StepSlot(data.stepId)
    case User(_, id, _) => if exists b | b in before :: UserOf(b, id) then Gap else UserSlot(id)
    case Clarify => ShownSlot(e)
  }

  function Slots(es: seq<Emission>): (slots: seq<Slot>)
    ensures |slots| == |es|
  {
    if es == [] then [] else Slots(es[..|es| - 1]) + [SlotOf(es[..|es| - 1], es[|es| - 1])]
  }

  /** The run of text at the end of the slots. */
  function Tail(slots: seq<Slot>): string {
    if slots == [] || !slots[|slots| - 1].TextSlot? then ""
    else Tail(slots[..|slots| - 1]) + slots[|slots| - 1].text
  }

  function Run(text: string): seq<Slot> {
    if text == "" then [] else [TextSlot(text)]
  }

  /** The slots without gaps and with every run of text in one piece, up to the run at the end. */
  function Closed(slots: seq<Slot>): seq<Slot> {
    if slots == [] then []
    else
      var init, last := slots[..|slots| - 1], slots[|slots| - 1];
      if last.TextSlot? then Closed(init)
      else Closed(init) + Run(Tail(init)) + if last.Gap? then [] else [last]
  }

  /** The last emission of a step, or of a user message. */
  function LastStep(es: seq<Emission>, id: string): Emission {
    if es == [] then Clarify
    else if StepOf(es[|es| - 1], id) then es[|es| - 1]
    else LastStep(es[..|es| - 1], id)
  }

  function LastUser(es: seq<Emission>, id: string): Emission {
    if es == [] then Clarify
    else if UserOf(es[|es| - 1], id) then es[|es| - 1]
    else LastUser(es[..|es| - 1], id)
  }

  function Fill(slot: Slot, es: seq<Emission>): Segment {
    match slot
    case TextSlot(text) => Delta(text)
    case ShownSlot(e) => e
    case StepSlot(id) => LastStep(es, id)
    case UserSlot(id) => LastUser(es, id)
    case Gap => Clarify
  }

  function FillAll(slots: seq<Slot>, es: seq<Emission>): seq<Segment> {
    seq(|slots|, i requires 0 <= i < |slots| => Fill(slots[i], es))
  }

  /** The slots of a whole log. */
  function Chronology(es: seq<Emission>): seq<Slot> {
    Closed(Slots(es) + [Gap])
  }

  /** User messages stay only when they were injected into the turn. */
  function Visible(segments: seq<Segment>): seq<Segment> {
    if segments == [] then []
    else
      var init, last := segments[..|segments| - 1], segments[|segments| - 1];
      Visible(init) + if last.User? && !last.injected then [] else [last]
  }

  /** The segments: every place in the chronology of the deduplicated log, with its last payload. */
  function SegmentsOf(es: seq<Emission>): seq<Segment> {
    Visible(FillAll(Chronology(Kept(es)), Kept(es)))
  }

  lemma ClosedMore(slots: seq<Slot>, slot: Slot)
    ensures slot.TextSlot? ==> Closed(slots + [slot]) == Closed(slots) && Tail(slots + [slot]) == Tail(slots) + slot.text
    ensures !slot.TextSlot? ==> Tail(slots + [slot]) == ""
    ensures slot.Gap? ==> Closed(slots + [slot]) == Closed(slots) + Run(Tail(slots))
    ensures !slot.TextSlot? && !slot.Gap? ==> Closed(slots + [slot]) == Closed(slots) + Run(Tail(slots)) + [slot]
  {
    assert (slots + [slot])[..|slots|] == slots;
  }

  // ----- Steps and user messages have one place each

  lemma {:induction false} SlotAt(es: seq<Emission>, i: nat)
    requires i < |es|
    ensures Slots(es)[i] == SlotOf(es[..i], es[i]) && Slots(es)[..i] == Slots(es[..i])
  {
    if i < |es| - 1 {
      SlotAt(es[..|es| - 1], i);
      assert es[..|es| - 1][..i] == es[..i];
      assert Slots(es)[..i] == Slots(es[..|es| - 1])[..i];
    } else {
      assert Slots(es)[..i] == Slots(es[..|es| - 1]);
    }
  }

  /** A slot of a step is where the step is first emitted, so there is at most one. */
  lemma StepSlotIsFirst(es: seq<Emission>, i: nat, id: string)
    requires i < |es|
    ensures Slots(es)[i] == StepSlot(id) <==> StepOf(es[i], id) && forall j | 0 <= j < i :: !StepOf(es[j], id)
  {
    SlotAt(es, i);
    if StepOf(es[i], id) {
      assert (exists b | b in es[..i] :: StepOf(b, id)) <==> exists j | 0 <= j < i :: StepOf(es[j], id) by {
        if j :| 0 <= j < i && StepOf(es[j], id) {
          assert es[..i][j] == es[j];
        }
      }
    }
  }

  // ----- Building the segments in place

  lemma FillAllSplit(a: seq<Slot>, b: seq<Slot>, es: seq<Emission>)
    ensures FillAll(a + b, es) == FillAll(a, es) + FillAll(b, es)
  {
    hide Fill;
  }

  lemma FillRun(text: string, es: seq<Emission>)
    ensures FillAll(Run(text), es) == if text == "" then [] else [Delta(text)]
  {
  }

  /** The place of `e`, if it has one that can be overwritten. */
  predicate PlaceOf(slot: Slot, e: Emission) {
    (slot.StepSlot? && StepOf(e, slot.stepId)) || (slot.UserSlot? && UserOf(e, slot.userMessageId))
  }

  /** One more emission fills its own place, and no other. */
  lemma FillGrown(slot: Slot, es: seq<Emission>, e: Emission)
    ensures Fill(slot, es + [e]) == if PlaceOf(slot, e) then e else Fill(slot, es)
  {
    assert (es + [e])[..|es|] == es;
  }

  lemma FillAllGrown(slots: seq<Slot>, es: seq<Emission>, e: Emission)
    requires forall slot | slot in slots :: !PlaceOf(slot, e)
    ensures FillAll(slots, es + [e]) == FillAll(slots, es)
  {
    hide Fill, PlaceOf;
    forall i | 0 <= i < |slots|
      ensures Fill(slots[i], es + [e]) == Fill(slots[i], es)
    {
      assert slots[i] in slots;
      FillGrown(slots[i], es, e);
    }
  }

  lemma FillAllOverwritten(slots: seq<Slot>, es: seq<Emission>, e: Emission, k: nat)
    requires k < |slots| && forall i | 0 <= i < |slots| :: PlaceOf(slots[i], e) <==> i == k
    ensures FillAll(slots, es + [e]) == FillAll(slots, es)[k := e]
  {
    hide Fill, PlaceOf;
    forall i | 0 <= i < |slots|
      ensures Fill(slots[i], es + [e]) == if i == k then e else Fill(slots[i], es)
    {
      FillGrown(slots[i], es, e);
    }
  }

  /** The index maps know every step and every user message seen so far. */
  ghost predicate Knows(es: seq<Emission>, steps: map<string, nat>, users: map<string, nat>) {
    && (forall id :: id in steps <==> exists b | b in es :: StepOf(b, id))
    && (forall id :: id in users <==> exists b | b in es :: UserOf(b, id))
  }

  /** Every one of them has one place, which its index map gives. */
  ghost predicate Places(closed: seq<Slot>, steps: map<string, nat>, users: map<string, nat>) {
    && (forall id | id in steps :: steps[id] < |closed|)
    && (forall id | id in users :: users[id] < |closed|)
    && (forall i, id | 0 <= i < |closed| :: closed[i] == StepSlot(id) <==> id in steps && steps[id] == i)
    && (forall i, id | 0 <= i < |closed| :: closed[i] == UserSlot(id) <==> id in users && users[id] == i)
  }

  ghost predicate Indexed(closed: seq<Slot>, es: seq<Emission>, steps: map<string, nat>, users: map<string, nat>) {
    Knows(es, steps, users) && Places(closed, steps, users)
  }

  lemma KnowsMore(es: seq<Emission>, e: Emission, steps: map<string, nat>, users: map<string, nat>,
                  steps': map<string, nat>, users': map<string, nat>)
    requires Knows(es, steps, users)
    requires forall id :: id in steps' <==> id in steps || StepOf(e, id)
    requires forall id :: id in users' <==> id in users || UserOf(e, id)
    ensures Knows(es + [e], steps', users')
  {
    forall id
      ensures (exists b | b in es + [e] :: StepOf(b, id)) <==> (exists b | b in es :: StepOf(b, id)) || StepOf(e, id)
      ensures (exists b | b in es + [e] :: UserOf(b, id)) <==> (exists b | b in es :: UserOf(b, id)) || UserOf(e, id)
    {
      assert forall b :: b in es + [e] <==> b in es || b == e;
    }
  }

  /** What the loop has built from the deduplicated emissions `es`. */
  ghost predicate Built(segments: seq<Segment>, delta: string, steps: map<string, nat>, users: map<string, nat>,
                        es: seq<Emission>) {
    && segments == FillAll(Closed(Slots(es)), es)
    && delta == Tail(Slots(es))
    && Indexed(Closed(Slots(es)), es, steps, users)
  }

  lemma SlotsMore(es: seq<Emission>, e: Emission)
    ensures Slots(es + [e]) == Slots(es) + [SlotOf(es, e)]
  {
    assert (es + [e])[..|es|] == es;
  }

  function Flushed(segments: seq<Segment>, delta: string): seq<Segment> {
    segments + if delta == "" then [] else [Delta(delta)]
  }

  lemma PlacesMore(closed: seq<Slot>, more: seq<Slot>, steps: map<string, nat>, users: map<string, nat>)
    requires Places(closed, steps, users)
    requires forall i | 0 <= i < |more| :: !more[i].StepSlot? && !more[i].UserSlot?
    ensures Places(closed + more, steps, users)
  {
    forall i, id | 0 <= i < |closed + more|
      ensures (closed + more)[i] == StepSlot(id) <==> id in steps && steps[id] == i
      ensures (closed + more)[i] == UserSlot(id) <==> id in users && users[id] == i
    {
      if i >= |closed| {
        assert (closed + more)[i] == more[i - |closed|];
      }
    }
  }

  lemma IndexedMore(closed: seq<Slot>, text: string, es: seq<Emission>, e: Emission, steps: map<string, nat>,
                    users: map<string, nat>)
    requires Indexed(closed, es, steps, users)
    requires e.Step? ==> e.data.stepId in steps
    requires e.User? ==> e.userMessageId in users
    ensures Indexed(closed + Run(text), es + [e], steps, users)
  {
    KnowsMore(es, e, steps, users, steps, users);
    hide Knows, Places;
    PlacesMore(closed, Run(text), steps, users);
  }

  /** An emission that takes no place of its own ends the run of text, or adds to it. */
  lemma BuiltText(segments: seq<Segment>, delta: string, steps: map<string, nat>, users: map<string, nat>,
                  es: seq<Emission>, e: Emission)
    requires Built(segments, delta, steps, users, es) && e.Delta?
    ensures Built(segments, delta + e.text, steps, users, es + [e])
  {
    hide Indexed, Fill;
    SlotsMore(es, e);
    ClosedMore(Slots(es), SlotOf(es, e));
    FillAllGrown(Closed(Slots(es)), es, e);
    IndexedMore(Closed(Slots(es)), "", es, e, steps, users);
    assert Closed(Slots(es)) + Run("") == Closed(Slots(es));
  }

  lemma BuiltGap(segments: seq<Segment>, delta: string, steps: map<string, nat>, users: map<string, nat>,
                 es: seq<Emission>, e: Emission)
    requires Built(segments, delta, steps, users, es) && SlotOf(es, e).Gap? && !e.Step? && !e.User?
    ensures Built(Flushed(segments, delta), "", steps, users, es + [e])
  {
    hide Indexed, Fill;
    var closed := Closed(Slots(es));
    SlotsMore(es, e);
    ClosedMore(Slots(es), Gap);
    FillAllSplit(closed, Run(delta), es);
    FillRun(delta, es);
    FillAllGrown(closed + Run(delta), es, e);
    IndexedMore(closed, delta, es, e, steps, users);
  }

  lemma BuiltShown(segments: seq<Segment>, delta: string, steps: map<string, nat>, users: map<string, nat>,
                   es: seq<Emission>, e: Emission)
    requires Built(segments, delta, steps, users, es) && SlotOf(es, e) == ShownSlot(e) && !e.Step? && !e.User?
    ensures Built(Flushed(segments, delta) + [e], "", steps, users, es + [e])
  {
    hide Indexed, Fill;
    var closed := Closed(Slots(es));
    SlotsMore(es, e);
    ClosedMore(Slots(es), ShownSlot(e));
    FillAllSplit(closed, Run(delta), es);
    FillRun(delta, es);
    FillAllSplit(closed + Run(delta), [ShownSlot(e)], es);
    FillAllGrown(closed + Run(delta) + [ShownSlot(e)], es, e);
    FillOne(ShownSlot(e), es);
    IndexedShown(closed, delta, es, e, steps, users);
  }

  lemma FillOne(slot: Slot, es: seq<Emission>)
    ensures FillAll([slot], es) == [Fill(slot, es)]
    ensures slot.ShownSlot? ==> Fill(slot, es) == slot.e
  {
  }

  lemma IndexedShown(closed: seq<Slot>, text: string, es: seq<Emission>, e: Emission, steps: map<string, nat>,
                     users: map<string, nat>)
    requires Indexed(closed, es, steps, users) && !e.Step? && !e.User?
    ensures Indexed(closed + Run(text) + [ShownSlot(e)], es + [e], steps, users)
  {
    IndexedMore(closed, text, es, e, steps, users);
    hide Knows, Places;
    PlacesMore(closed + Run(text), [ShownSlot(e)], steps, users);
  }

  /** A step or user message that was seen before is overwritten where it stands. */
  lemma BuiltOverwritten(segments: seq<Segment>, delta: string, steps: map<string, nat>, users: map<string, nat>,
                         es: seq<Emission>, e: Emission, k: nat)
    requires Built(segments, delta, steps, users, es)
    requires || (e.Step? && e.data.stepId in steps && steps[e.data.stepId] == k)
             || (e.User? && e.userMessageId in users && users[e.userMessageId] == k)
    ensures k < |segments| && Built(Flushed(segments, delta)[k := e], "", steps, users, es + [e])
  {
    var closed := Closed(Slots(es));
    OnePlace(closed, delta, es, e, steps, users, k);
    hide Indexed, Fill, PlaceOf;
    SlotsMore(es, e);
    ClosedMore(Slots(es), Gap);
    FillAllSplit(closed, Run(delta), es);
    FillRun(delta, es);
    FillAllOverwritten(closed + Run(delta), es, e, k);
    IndexedMore(closed, delta, es, e, steps, users);
  }

  lemma OnePlace(closed: seq<Slot>, text: string, es: seq<Emission>, e: Emission, steps: map<string, nat>,
                 users: map<string, nat>, k: nat)
    requires Indexed(closed, es, steps, users)
    requires || (e.Step? && e.data.stepId in steps && steps[e.data.stepId] == k)
             || (e.User? && e.userMessageId in users && users[e.userMessageId] == k)
    ensures k < |closed| && SlotOf(es, e) == Gap
    ensures forall i | 0 <= i < |closed + Run(text)| :: PlaceOf((closed + Run(text))[i], e) <==> i == k
  {
    assert e.Step? ==> closed[k] == StepSlot(e.data.stepId);
    assert e.User? ==> closed[k] == UserSlot(e.userMessageId);
  }

  /** A step that was not seen before takes its place at the end. */
  lemma BuiltNewStep(segments: seq<Segment>, delta: string, steps: map<string, nat>, users: map<string, nat>,
                     es: seq<Emission>, e: Emission)
    requires Built(segments, delta, steps, users, es) && e.Step? && e.data.stepId !in steps
    ensures var segments' := Flushed(segments, delta);
            Built(segments' + [e], "", steps[e.data.stepId := |segments'|], users, es + [e])
  {
    var closed := Closed(Slots(es));
    var slot := StepSlot(e.data.stepId);
    NewPlace(closed, delta, es, e, slot, steps, users);
    IndexedNewStep(closed, delta, es, e, steps, users);
    hide Indexed, Fill, PlaceOf;
    BuiltAtEnd(es, e, slot);
  }

  lemma BuiltNewUser(segments: seq<Segment>, delta: string, steps: map<string, nat>, users: map<string, nat>,
                     es: seq<Emission>, e: Emission)
    requires Built(segments, delta, steps, users, es) && e.User? && e.userMessageId !in users
    ensures var segments' := Flushed(segments, delta);
            Built(segments' + [e], "", steps, users[e.userMessageId := |segments'|], es + [e])
  {
    var closed := Closed(Slots(es));
    var slot := UserSlot(e.userMessageId);
    NewPlace(closed, delta, es, e, slot, steps, users);
    IndexedNewUser(closed, delta, es, e, steps, users);
    hide Indexed, Fill, PlaceOf;
    BuiltAtEnd(es, e, slot);
  }

  lemma BuiltAtEnd(es: seq<Emission>, e: Emission, slot: Slot)
    requires SlotOf(es, e) == slot && PlaceOf(slot, e)
    requires forall s | s in Closed(Slots(es)) + Run(Tail(Slots(es))) :: !PlaceOf(s, e)
    ensures Tail(Slots(es + [e])) == ""
    ensures Closed(Slots(es + [e])) == Closed(Slots(es)) + Run(Tail(Slots(es))) + [slot]
    ensures FillAll(Closed(Slots(es + [e])), es + [e])
         == Flushed(FillAll(Closed(Slots(es)), es), Tail(Slots(es))) + [e]
  {
    hide Fill;
    var closed := Closed(Slots(es));
    var delta := Tail(Slots(es));
    SlotsMore(es, e);
    ClosedMore(Slots(es), slot);
    FillAllSplit(closed, Run(delta), es);
    FillRun(delta, es);
    FillAllGrown(closed + Run(delta), es, e);
    FillAllSplit(closed + Run(delta), [slot], es + [e]);
    FillOne(slot, es + [e]);
    FillGrown(slot, es, e);
  }

  lemma NewPlace(closed: seq<Slot>, text: string, es: seq<Emission>, e: Emission, slot: Slot,
                 steps: map<string, nat>, users: map<string, nat>)
    requires Indexed(closed, es, steps, users)
    requires || (e.Step? && e.data.stepId !in steps && slot == StepSlot(e.data.stepId))
             || (e.User? && e.userMessageId !in users && slot == UserSlot(e.userMessageId))
    ensures SlotOf(es, e) == slot && PlaceOf(slot, e)
    ensures forall s | s in closed + Run(text) :: !PlaceOf(s, e)
  {
  }

  lemma PlacesNewStep(closed: seq<Slot>, id: string, steps: map<string, nat>, users: map<string, nat>)
    requires Places(closed, steps, users) && id !in steps
    ensures Places(closed + [StepSlot(id)], steps[id := |closed|], users)
  {
    var all, steps' := closed + [StepSlot(id)], steps[id := |closed|];
    forall i, k | 0 <= i < |all|
      ensures all[i] == StepSlot(k) <==> k in steps' && steps'[k] == i
      ensures all[i] == UserSlot(k) <==> k in users && users[k] == i
    {
      assert i < |closed| ==> all[i] == closed[i];
    }
  }

  lemma PlacesNewUser(closed: seq<Slot>, id: string, steps: map<string, nat>, users: map<string, nat>)
    requires Places(closed, steps, users) && id !in users
    ensures Places(closed + [UserSlot(id)], steps, users[id := |closed|])
  {
    var all, users' := closed + [UserSlot(id)], users[id := |closed|];
    forall i, k | 0 <= i < |all|
      ensures all[i] == StepSlot(k) <==> k in steps && steps[k] == i
      ensures all[i] == UserSlot(k) <==> k in users' && users'[k] == i
    {
      assert i < |closed| ==> all[i] == closed[i];
    }
  }

  lemma {:induction false} IndexedNewStep(closed: seq<Slot>, text: string, es: seq<Emission>, e: Emission, steps: map<string, nat>,
                       users: map<string, nat>)
    requires Indexed(closed, es, steps, users) && e.Step? && e.data.stepId !in steps
    ensures Indexed(closed + Run(text) + [StepSlot(e.data.stepId)], es + [e],
                    steps[e.data.stepId := |closed + Run(text)|], users)
  {
    KnowsMore(es, e, steps, users, steps[e.data.stepId := |closed + Run(text)|], users);
    hide Knows, Places;
    PlacesMore(closed, Run(text), steps, users);
    PlacesNewStep(closed + Run(text), e.data.stepId, steps, users);
  }

  lemma {:induction false} IndexedNewUser(closed: seq<Slot>, text: string, es: seq<Emission>, e: Emission, steps: map<string, nat>,
                       users: map<string, nat>)
    requires Indexed(closed, es, steps, users) && e.User? && e.userMessageId !in users
    ensures Indexed(closed + Run(text) + [UserSlot(e.userMessageId)], es + [e],
                    steps, users[e.userMessageId := |closed + Run(text)|])
  {
    KnowsMore(es, e, steps, users, steps, users[e.userMessageId := |closed + Run(text)|]);
    hide Knows, Places;
    PlacesMore(closed, Run(text), steps, users);
    PlacesNewUser(closed + Run(text), e.userMessageId, steps, users);
  }

  method BuildSegments(emissions: seq<Emission>) returns (visible: seq<Segment>)
    ensures visible == SegmentsOf(emissions)
  {
    hide Built, Kept, Visible, Chronology;
    var segments: seq<Segment> := [];
    var deltaSegment := "";
    var stepIndexById: map<string, nat> := map[];
    var userIndexById: map<string, nat> := map[];
    var deduper := new FinalEmissionDeduper();
    NothingBuilt();
    for i := 0 to |emissions|
      invariant fresh(deduper) && deduper.seenViz == Signatures(emissions[..i])
      invariant Built(segments, deltaSegment, stepIndexById, userIndexById, Kept(emissions[..i]))
    {
      var e := emissions[i];
      ghost var es := Kept(emissions[..i]);
      KeptMore(emissions, i);
      if e.Delta? {
        BuiltText(segments, deltaSegment, stepIndexById, userIndexById, es, e);
        deltaSegment := deltaSegment + e.text;
        continue;
      }
      if e.Viz? {
        var keep := deduper.Keep(e);
        if !keep {
          continue;
        }
      }
      ghost var segments0, delta0 := segments, deltaSegment;
      BuiltBounds(segments, deltaSegment, stepIndexById, userIndexById, es);
      segments, deltaSegment := FlushDelta(segments, deltaSegment);
      match e
      case Narration(text) =>
        if text != "" {
          BuiltShown(segments0, delta0, stepIndexById, userIndexById, es, e);
          segments := segments + [e];
        } else {
          BuiltGap(segments0, delta0, stepIndexById, userIndexById, es, e);
        }
      case Thinking(text) =>
        if text != "" {
          BuiltShown(segments0, delta0, stepIndexById, userIndexById, es, e);
          segments := segments + [e];
        } else {
          BuiltGap(segments0, delta0, stepIndexById, userIndexById, es, e);
        }
      case Viz(_) =>
        BuiltShown(segments0, delta0, stepIndexById, userIndexById, es, e);
        segments := segments + [e];
      case Step(data) =>
        if data.stepId !in stepIndexById {
          BuiltNewStep(segments0, delta0, stepIndexById, userIndexById, es, e);
          stepIndexById := stepIndexById[data.stepId := |segments|];
          segments := segments + [e];
        } else {
          BuiltOverwritten(segments0, delta0, stepIndexById, userIndexById, es, e, stepIndexById[data.stepId]);
          segments := segments[stepIndexById[data.stepId] := e];
        }
      case User(_, id, _) =>
        if id !in userIndexById {
          BuiltNewUser(segments0, delta0, stepIndexById, userIndexById, es, e);
          userIndexById := userIndexById[id := |segments|];
          segments := segments + [e];
        } else {
          BuiltOverwritten(segments0, delta0, stepIndexById, userIndexById, es, e, userIndexById[id]);
          segments := segments[userIndexById[id] := e];
        }
      case Clarify =>
        BuiltShown(segments0, delta0, stepIndexById, userIndexById, es, e);
        segments := segments + [e];
    }
    assert emissions[..|emissions|] == emissions;
    AllBuilt(segments, deltaSegment, stepIndexById, userIndexById, Kept(emissions));
    segments, deltaSegment := FlushDelta(segments, deltaSegment);
    visible := FilterUsers(segments);
  }

  method FlushDelta(segments: seq<Segment>, delta: string) returns (segments': seq<Segment>, delta': string)
    ensures segments' == Flushed(segments, delta) && delta' == ""
  {
    segments' := segments;
    if delta != "" {
      segments' := segments + [Delta(delta)];
    }
    delta' := "";
  }

  method FilterUsers(segments: seq<Segment>) returns (visible: seq<Segment>)
    ensures visible == Visible(segments)
  {
    visible := [];
    for i := 0 to |segments|
      invariant visible == Visible(segments[..i])
    {
      assert segments[..i + 1][..i] == segments[..i];
      if !segments[i].User? || segments[i].injected {
        visible := visible + [segments[i]];
      }
    }
    assert segments[..|segments|] == segments;
  }

  lemma NothingBuilt()
    ensures Built([], "", map[], map[], Kept([])) && Signatures([]) == {}
  {
  }

  lemma KeptMore(es: seq<Emission>, i: nat)
    requires i < |es|
    ensures Kept(es[..i + 1]) == if es[i].Viz? && es[i].spec.signature in Signatures(es[..i]) then Kept(es[..i])
                                 else Kept(es[..i]) + [es[i]]
    ensures Signatures(es[..i + 1]) == Signatures(es[..i]) + Signatures([es[i]])
  {
    assert es[..i + 1][..i] == es[..i] && es[..i + 1] == es[..i] + [es[i]];
    SignaturesSplit(es[..i], [es[i]]);
  }

  lemma BuiltBounds(segments: seq<Segment>, delta: string, steps: map<string, nat>, users: map<string, nat>,
                    es: seq<Emission>)
    requires Built(segments, delta, steps, users, es)
    ensures forall id | id in steps :: steps[id] < |segments|
    ensures forall id | id in users :: users[id] < |segments|
  {
  }

  lemma AllBuilt(segments: seq<Segment>, delta: string, steps: map<string, nat>, users: map<string, nat>,
                 es: seq<Emission>)
    requires Built(segments, delta, steps, users, es)
    ensures Flushed(segments, delta) == FillAll(Chronology(es), es)
  {
    hide Fill, Indexed;
    ClosedMore(Slots(es), Gap);
    FillAllSplit(Closed(Slots(es)), Run(delta), es);
    FillRun(delta, es);
  }

  // ----- The two views agree

  /** The answers among the slots. */
  function SlotAnswers(slots: seq<Slot>): seq<Emission> {
    if slots == [] then []
    else
      SlotAnswers(slots[..|slots| - 1]) + match slots[|slots| - 1]
                                          case TextSlot(text) => [Delta(text)]
                                          case ShownSlot(e) => if e.Delta? || e.Viz? then [e] else []
                                          case _ => []
  }

  lemma {:induction false} SlotAnswersSplit(a: seq<Slot>, b: seq<Slot>)
    ensures SlotAnswers(a + b) == SlotAnswers(a) + SlotAnswers(b)
  {
    if b == [] {
      assert a + b == a;
    } else {
      assert (a + b)[..|a + b| - 1] == a + b[..|b| - 1];
      SlotAnswersSplit(a, b[..|b| - 1]);
    }
  }

  lemma {:induction false} SlotsHoldAnswers(es: seq<Emission>)
    ensures SlotAnswers(Slots(es)) == Answers(es)
  {
    if es != [] {
      var init := es[..|es| - 1];
      SlotsHoldAnswers(init);
      assert Slots(es)[..|init|] == Slots(init);
    }
  }

  lemma {:induction false} LastStepIsStep(es: seq<Emission>, id: string)
    ensures !LastStep(es, id).Delta? && !LastStep(es, id).Viz? && !LastStep(es, id).User?
    ensures !LastUser(es, id).Delta? && !LastUser(es, id).Viz? && !LastUser(es, id).Step?
    ensures (exists b | b in es :: StepOf(b, id)) ==> StepOf(LastStep(es, id), id)
  {
    if es != [] {
      LastStepIsStep(es[..|es| - 1], id);
    }
  }

  lemma {:induction false} FilledAnswers(slots: seq<Slot>, es: seq<Emission>)
    ensures Answers(FillAll(slots, es)) == SlotAnswers(slots)
  {
    if slots != [] {
      var init, last := slots[..|slots| - 1], slots[|slots| - 1];
      FilledAnswers(init, es);
      assert FillAll(slots, es)[..|init|] == FillAll(init, es);
      if last.StepSlot? {
        LastStepIsStep(es, last.stepId);
      } else if last.UserSlot? {
        LastStepIsStep(es, last.userMessageId);
      }
    }
  }

  lemma {:induction false} VisibleAnswers(segments: seq<Segment>)
    ensures Answers(Visible(segments)) == Answers(segments)
  {
    if segments != [] {
      var init, last := segments[..|segments| - 1], segments[|segments| - 1];
      VisibleAnswers(init);
      if !(last.User? && !last.injected) {
        assert (Visible(init) + [last])[..|Visible(init)|] == Visible(init);
      } else {
        assert Visible(segments) == Visible(init);
      }
    }
  }

  /** Closing the runs merges their text and nothing else. */
  lemma {:induction false} ClosedAnswers(slots: seq<Slot>)
    ensures Merged(SlotAnswers(Closed(slots)) + [Delta(Tail(slots))]) == Merged(SlotAnswers(slots))
  {
    if slots == [] {
      assert [] + [Delta("")] == [Delta("")] + [];
      MergedEmpty([]);
    } else {
      var init, last := slots[..|slots| - 1], slots[|slots| - 1];
      ClosedAnswers(init);
      var closed, tail := SlotAnswers(Closed(init)), Tail(init);
      var more := SlotAnswers(slots)[|SlotAnswers(init)|..];
      assert SlotAnswers(slots) == SlotAnswers(init) + more;
      MergedThen(closed + [Delta(tail)], SlotAnswers(init), more);
      if last.TextSlot? {
        TextsJoin(closed, tail, last.text);
      } else {
        var end := if last.Gap? then [] else [last];
        SlotAnswersSplit(Closed(init), Run(tail));
        SlotAnswersSplit(Closed(init) + Run(tail), end);
        assert [last][..0] == [] && SlotAnswers(end) == more;
        RunAnswers(closed, tail, more);
      }
    }
  }

  lemma TextsJoin(closed: seq<Emission>, tail: string, text: string)
    ensures Merged(closed + [Delta(tail + text)]) == Merged(closed + [Delta(tail)] + [Delta(text)])
  {
    hide Merged;
    MergedJoin(tail, text, []);
    assert [Delta(tail + text)] + [] == [Delta(tail + text)];
    assert [Delta(tail), Delta(text)] + [] == [Delta(tail), Delta(text)];
    MergedBehind(closed, [Delta(tail + text)], [Delta(tail), Delta(text)]);
    assert closed + [Delta(tail), Delta(text)] == closed + [Delta(tail)] + [Delta(text)];
  }

  lemma AnswersOfRun(tail: string)
    ensures SlotAnswers(Run(tail)) == if tail == "" then [] else [Delta(tail)]
  {
    assert Run(tail) != [] ==> Run(tail)[..0] == [];
  }

  lemma {:induction false} RunAnswers(closed: seq<Emission>, tail: string, more: seq<Emission>)
    ensures Merged(closed + SlotAnswers(Run(tail)) + more + [Delta("")]) == Merged(closed + [Delta(tail)] + more)
  {
    AnswersOfRun(tail);
    hide Merged, SlotAnswers, Run;
    NoTextAtEnd(closed + SlotAnswers(Run(tail)) + more);
    if tail == "" {
      MergedEmpty(more);
      MergedBehind(closed, more, [Delta("")] + more);
      assert closed + [] + more == closed + more;
      assert closed + [Delta("")] + more == closed + ([Delta("")] + more);
    }
  }

  /** The answers among the segments, merged, are exactly the parts: the two replay views agree. */
  lemma ViewsAgree(es: seq<Emission>)
    ensures Merged(Answers(SegmentsOf(es))) == PartsOf(es)
  {
    hide Merged, Fill;
    var kept := Kept(es);
    VisibleAnswers(FillAll(Chronology(kept), kept));
    FilledAnswers(Chronology(kept), kept);
    ClosedAnswers(Slots(kept) + [Gap]);
    ClosedMore(Slots(kept), Gap);
    NoTextAtEnd(SlotAnswers(Chronology(kept)));
    SlotAnswersSplit(Slots(kept), [Gap]);
    assert [Gap][..0] == [] && SlotAnswers([Gap]) == [];
    assert SlotAnswers(Slots(kept) + [Gap]) == SlotAnswers(Slots(kept));
    SlotsHoldAnswers(kept);
  }

  /** Deduplicating the cards beforehand changes neither view. */
  lemma DedupFirst(es: seq<Emission>)
    ensures PartsOf(Kept(es)) == PartsOf(es) && SegmentsOf(Kept(es)) == SegmentsOf(es)
  {
    KeptOnce(es);
  }

  // ----- Steps in the chronology

  /** The steps of a log in the order of their first emissions. */
  function FirstSteps(es: seq<Emission>): seq<string> {
    if es == [] then []
    else
      var init, last := es[..|es| - 1], es[|es| - 1];
      FirstSteps(init) + if last.Step? && !(exists b | b in init :: StepOf(b, last.data.stepId)) then [last.data.stepId]
                         else []
  }

  /** The step emissions of a stream. */
  function StepsIn(es: seq<Emission>): seq<Emission> {
    if es == [] then []
    else StepsIn(es[..|es| - 1]) + if es[|es| - 1].Step? then [es[|es| - 1]] else []
  }

  function StepSlotIds(slots: seq<Slot>): seq<string> {
    if slots == [] then []
    else StepSlotIds(slots[..|slots| - 1]) + if slots[|slots| - 1].StepSlot? then [slots[|slots| - 1].stepId] else []
  }

  function LastSteps(ids: seq<string>, es: seq<Emission>): seq<Emission> {
    seq(|ids|, i requires 0 <= i < |ids| => LastStep(es, ids[i]))
  }

  lemma {:induction false} SlotsOfSteps(es: seq<Emission>)
    ensures StepSlotIds(Slots(es)) == FirstSteps(es)
  {
    if es != [] {
      SlotsOfSteps(es[..|es| - 1]);
      assert Slots(es)[..|es| - 1] == Slots(es[..|es| - 1]);
    }
  }

  lemma {:induction false} StepSlotIdsSplit(a: seq<Slot>, b: seq<Slot>)
    ensures StepSlotIds(a + b) == StepSlotIds(a) + StepSlotIds(b)
  {
    if b == [] {
      assert a + b == a;
    } else {
      assert (a + b)[..|a + b| - 1] == a + b[..|b| - 1];
      StepSlotIdsSplit(a, b[..|b| - 1]);
    }
  }

  lemma {:induction false} ClosedSteps(slots: seq<Slot>)
    ensures StepSlotIds(Closed(slots)) == StepSlotIds(slots)
  {
    if slots != [] {
      var init, last := slots[..|slots| - 1], slots[|slots| - 1];
      ClosedSteps(init);
      if !last.TextSlot? {
        var end := if last.Gap? then [] else [last];
        StepSlotIdsSplit(Closed(init), Run(Tail(init)));
        StepSlotIdsSplit(Closed(init) + Run(Tail(init)), end);
        assert Run(Tail(init)) != [] ==> Run(Tail(init))[..0] == [];
        assert [last][..0] == [];
      }
    }
  }

  lemma {:induction false} VisibleSteps(segments: seq<Segment>)
    ensures StepsIn(Visible(segments)) == StepsIn(segments)
  {
    if segments != [] {
      var init, last := segments[..|segments| - 1], segments[|segments| - 1];
      VisibleSteps(init);
      if !(last.User? && !last.injected) {
        assert (Visible(init) + [last])[..|Visible(init)|] == Visible(init);
      } else {
        assert Visible(segments) == Visible(init);
      }
    }
  }

  lemma {:induction false} FilledSteps(slots: seq<Slot>, es: seq<Emission>)
    requires forall slot | slot in slots :: slot.ShownSlot? ==> !slot.e.Step?
    requires forall slot | slot in slots && slot.StepSlot? :: exists b | b in es :: StepOf(b, slot.stepId)
    ensures StepsIn(FillAll(slots, es)) == LastSteps(StepSlotIds(slots), es)
  {
    if slots != [] {
      var init, last := slots[..|slots| - 1], slots[|slots| - 1];
      assert last in slots && forall slot | slot in init :: slot in slots;
      FilledSteps(init, es);
      assert FillAll(slots, es)[..|init|] == FillAll(init, es);
      if last.StepSlot? {
        LastStepIsStep(es, last.stepId);
      } else if last.UserSlot? {
        LastStepIsStep(es, last.userMessageId);
      }
    }
  }

  /** What can stand in a closed chronology. */
  lemma {:induction false} ClosedHolds(slots: seq<Slot>, es: seq<Emission>)
    requires forall slot | slot in slots :: slot.ShownSlot? ==> !slot.e.Step?
    requires forall slot | slot in slots && slot.StepSlot? :: exists b | b in es :: StepOf(b, slot.stepId)
    ensures forall slot | slot in Closed(slots) :: slot.ShownSlot? ==> !slot.e.Step?
    ensures forall slot | slot in Closed(slots) && slot.StepSlot? :: exists b | b in es :: StepOf(b, slot.stepId)
  {
    if slots != [] {
      var init, last := slots[..|slots| - 1], slots[|slots| - 1];
      assert last in slots && forall slot | slot in init :: slot in slots;
      ClosedHolds(init, es);
    }
  }

  lemma {:induction false} SlotsHold(es: seq<Emission>)
    ensures forall slot | slot in Slots(es) :: slot.ShownSlot? ==> !slot.e.Step?
    ensures forall slot | slot in Slots(es) && slot.StepSlot? :: exists b | b in es :: StepOf(b, slot.stepId)
  {
    if es != [] {
      SlotsHold(es[..|es| - 1]);
      assert es[|es| - 1] in es && forall b | b in es[..|es| - 1] :: b in es;
    }
  }

  /** Every step has exactly one segment, the steps stand in the order of their first emissions, and each segment
      holds the last payload of its step. */
  lemma StepSegments(es: seq<Emission>)
    ensures StepsIn(SegmentsOf(es)) == LastSteps(FirstSteps(Kept(es)), Kept(es))
    ensures forall i, j | 0 <= i < j < |FirstSteps(Kept(es))| :: FirstSteps(Kept(es))[i] != FirstSteps(Kept(es))[j]
  {
    hide Fill, Kept;
    var kept := Kept(es);
    var slots := Slots(kept) + [Gap];
    SlotsHold(kept);
    ClosedHolds(slots, kept);
    VisibleSteps(FillAll(Chronology(kept), kept));
    FilledSteps(Chronology(kept), kept);
    ClosedSteps(slots);
    StepSlotIdsSplit(Slots(kept), [Gap]);
    assert [Gap][..0] == [] && StepSlotIds([Gap]) == [];
    SlotsOfSteps(kept);
    FirstStepsDistinct(kept);
  }

  lemma {:induction false} FirstStepsDistinct(es: seq<Emission>)
    ensures forall id :: id in FirstSteps(es) <==> exists b | b in es :: StepOf(b, id)
    ensures forall i, j | 0 <= i < j < |FirstSteps(es)| :: FirstSteps(es)[i] != FirstSteps(es)[j]
  {
    if es != [] {
      var init, last := es[..|es| - 1], es[|es| - 1];
      FirstStepsDistinct(init);
      forall id
        ensures (exists b | b in es :: StepOf(b, id)) <==> (exists b | b in init :: StepOf(b, id)) || StepOf(last, id)
      {
        assert forall b :: b in es <==> b in init || b == last;
      }
      var ids := FirstSteps(init);
      if last.Step? && !(exists b | b in init :: StepOf(b, last.data.stepId)) {
        assert FirstSteps(es) == ids + [last.data.stepId] && last.data.stepId !in ids;
        assert forall id :: id in ids + [last.data.stepId] <==> id in ids || StepOf(last, id);
      } else {
        assert FirstSteps(es) == ids;
        assert last.Step? ==> last.data.stepId in ids;
      }
    }
  }

  /** The slot of anything but text is behind exactly the chronology of what came before. */
  lemma {:induction false} SlotStands(es: seq<Emission>, i: nat)
    requires i < |es| && !SlotOf(es[..i], es[i]).TextSlot? && !SlotOf(es[..i], es[i]).Gap?
    ensures var p := |Chronology(es[..i])|;
            && p < |Chronology(es)|
            && Chronology(es)[p] == SlotOf(es[..i], es[i])
            && Chronology(es)[..p] == Chronology(es[..i])
  {
    hide SlotOf;
    SlotAt(es, i);
    var slots := Slots(es) + [Gap];
    assert slots[..i] == Slots(es[..i]);
    assert slots[..i + 1] == slots[..i] + [slots[i]];
    ClosedMore(slots[..i], slots[i]);
    ClosedMore(slots[..i], Gap);
    ClosedOnlyGrows(slots, i + 1);
  }

  lemma {:induction false} StepSlotStandsAtFirst(es: seq<Emission>, i: nat)
    requires i < |es| && es[i].Step? && forall j | 0 <= j < i :: !StepOf(es[j], es[i].data.stepId)
    ensures var p := |Chronology(es[..i])|;
            && p < |Chronology(es)|
            && Chronology(es)[p] == StepSlot(es[i].data.stepId)
            && Chronology(es)[..p] == Chronology(es[..i])
  {
    hide Chronology, SlotOf;
    SlotAt(es, i);
    StepSlotIsFirst(es, i, es[i].data.stepId);
    SlotStands(es, i);
  }

  lemma {:induction false} ClosedOnlyGrows(slots: seq<Slot>, k: nat)
    requires k <= |slots|
    ensures Closed(slots[..k]) <= Closed(slots)
  {
    if k == |slots| {
      assert slots[..k] == slots;
    } else {
      assert slots[..|slots| - 1][..k] == slots[..k];
      ClosedOnlyGrows(slots[..|slots| - 1], k);
    }
  }

  lemma {:induction false} KeptOnlyGrows(es: seq<Emission>, k: nat)
    requires k <= |es|
    ensures Kept(es[..k]) <= Kept(es)
  {
    if k == |es| {
      assert es[..k] == es;
    } else {
      assert es[..|es| - 1][..k] == es[..k];
      KeptOnlyGrows(es[..|es| - 1], k);
    }
  }

  lemma {:induction false} KeptAreThere(es: seq<Emission>)
    ensures forall e | e in Kept(es) :: e in es
  {
    if es != [] {
      KeptAreThere(es[..|es| - 1]);
    }
  }

  /** Where the first emission of a step is in the deduplicated log. */
  lemma {:induction false} KeptStep(es: seq<Emission>, i: nat)
    requires i < |es| && es[i].Step? && forall j | 0 <= j < i :: !StepOf(es[j], es[i].data.stepId)
    ensures var k := |Kept(es[..i])|;
            && k < |Kept(es)| && Kept(es)[k] == es[i] && Kept(es)[..k] == Kept(es[..i])
            && forall j | 0 <= j < k :: !StepOf(Kept(es)[j], es[i].data.stepId)
  {
    hide Kept, StepOf;
    KeptMore(es, i);
    KeptOnlyGrows(es, i);
    KeptOnlyGrows(es, i + 1);
    KeptAreThere(es[..i]);
    var k := |Kept(es[..i])|;
    forall j | 0 <= j < k
      ensures !StepOf(Kept(es)[j], es[i].data.stepId)
    {
      assert Kept(es)[j] == Kept(es[..i])[j] && Kept(es[..i])[j] in Kept(es[..i]);
    }
  }

  lemma {:induction false} VisibleSplit(a: seq<Segment>, b: seq<Segment>)
    ensures Visible(a + b) == Visible(a) + Visible(b)
  {
    if b == [] {
      assert a + b == a;
    } else {
      assert (a + b)[..|a + b| - 1] == a + b[..|b| - 1];
      VisibleSplit(a, b[..|b| - 1]);
    }
  }

  /** In the segments returned, a step stands where it was first emitted. In front of it are the places of exactly what
      came before, with their last payloads and as far as they are visible; so the text and the cards in front of it
      are those that came before. */
  lemma {:induction false} StepStandsAtFirst(es: seq<Emission>, i: nat) returns (p: nat)
    requires i < |es| && es[i].Step? && forall j | 0 <= j < i :: !StepOf(es[j], es[i].data.stepId)
    ensures p < |SegmentsOf(es)| && SegmentsOf(es)[p] == LastStep(Kept(es), es[i].data.stepId)
    ensures SegmentsOf(es)[..p] == Visible(FillAll(Chronology(Kept(es[..i])), Kept(es)))
    ensures Merged(Answers(SegmentsOf(es)[..p])) == PartsOf(es[..i])
  {
    hide Kept, StepOf, Fill, Chronology, Merged, LastStep;
    var kept, before, id := Kept(es), Kept(es[..i]), es[i].data.stepId;
    KeptStep(es, i);
    StepSlotStandsAtFirst(kept, |before|);
    var slots, n := Chronology(kept), |Chronology(before)|;
    var ahead := FillAll(slots[..n], kept);
    FilledStep(id, kept);
    assert slots == slots[..n] + ([slots[n]] + slots[n + 1..]);
    FillAllSplit(slots[..n], [slots[n]] + slots[n + 1..], kept);
    FillAllSplit([slots[n]], slots[n + 1..], kept);
    VisibleSplit(ahead, FillAll([slots[n]] + slots[n + 1..], kept));
    VisibleSplit([LastStep(kept, id)], FillAll(slots[n + 1..], kept));
    p := |Visible(ahead)|;
    VisibleAnswers(ahead);
    FilledAnswers(slots[..n], kept);
    VisibleAnswers(FillAll(slots[..n], before));
    FilledAnswers(slots[..n], before);
    ViewsAgree(es[..i]);
  }

  lemma FilledStep(id: string, es: seq<Emission>)
    ensures FillAll([StepSlot(id)], es) == [LastStep(es, id)]
    ensures Visible([LastStep(es, id)]) == [LastStep(es, id)]
  {
    LastStepIsStep(es, id);
    assert [LastStep(es, id)][..0] == [];
  }
}
