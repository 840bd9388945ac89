/** What the replay segments of a turn hold, said of the log alone: every entry that is no text, each in its place. */
module SegmentMeaning {
  import opened Emissions
  import opened Records

  // ----- The last payload

  /** The last emission of a step is the payload that the step is left with. */
  lemma {:induction false} LastStepMeans(es: seq<Emission>, id: string, j: nat)
    requires j < |es| && StepOf(es[j], id) && forall k | j < k < |es| :: !StepOf(es[k], id)
    ensures LastStep(es, id) == es[j]
  {
    if j < |es| - 1 {
      LastStepMeans(es[..|es| - 1], id, j);
    }
  }

  lemma {:induction false} LastUserMeans(es: seq<Emission>, id: string, j: nat)
    requires j < |es| && UserOf(es[j], id) && forall k | j < k < |es| :: !UserOf(es[k], id)
    ensures LastUser(es, id) == es[j]
  {
    if j < |es| - 1 {
      LastUserMeans(es[..|es| - 1], id, j);
    }
  }

  // ----- What should stand in the segments

  /** What an emission contributes behind `before` to the segments of the log `es`: a card when it is the first of its
      signature, narration and thinking that is not empty, a clarification, a step when it is first announced, and a
      user message when it first comes; the last two with their last payload, and the message only if it was injected. */
  function Entry(before: seq<Emission>, e: Emission, es: seq<Emission>): seq<Emission> {
    match e
    case Delta(_) => []
    case Viz(spec) => if exists b | b in before :: b.Viz? && b.spec.signature == spec.signature then [] else [e]
    case Narration(text) => if text == "" then [] else [e]
    case Thinking(text) => if text == "" then [] else [e]
    case Clarify => [e]
    case Step(data) => if exists b | b in before :: StepOf(b, data.stepId) then [] else [LastStep(es, data.stepId)]
    case User(_, id, _) =>
      if exists b | b in before :: UserOf(b, id) then []
      else if LastUser(es, id).User? && LastUser(es, id).injected then [LastUser(es, id)] else []
  }

  /** The entries of the beginning `before` of a log `es`, in order. */
  function Entries(before: seq<Emission>, es: seq<Emission>): seq<Emission> {
    if before == [] then []
    else
      var init, last := before[..|before| - 1], before[|before| - 1];
      Entries(init, es) + Entry(init, last, es)
  }

  /** Everything but text. */
  function NonText(segments: seq<Segment>): seq<Segment> {
    if segments == [] then []
    else
      var init, last := segments[..|segments| - 1], segments[|segments| - 1];
      NonText(init) + if last.Delta? then [] else [last]
  }

  /** The segments hold the entries of `before`, and between them its text and its cards as the answer parts have them. */
  ghost predicate Tells(segments: seq<Segment>, before: seq<Emission>, es: seq<Emission>) {
    NonText(segments) == Entries(before, es) && Merged(Answers(segments)) == PartsOf(before)
  }

  // ----- From slots to entries

  /** The slots of everything but text. */
  function EntrySlots(slots: seq<Slot>): seq<Slot> {
    if slots == [] then []
    else
      var init, last := slots[..|slots| - 1], slots[|slots| - 1];
      EntrySlots(init) + if last.TextSlot? || last.Gap? then [] else [last]
  }

  lemma {:induction false} EntrySlotsSplit(a: seq<Slot>, b: seq<Slot>)
    ensures EntrySlots(a + b) == EntrySlots(a) + EntrySlots(b)
  {
    if b == [] {
      assert a + b == a;
    } else {
      assert (a + b)[..|a + b| - 1] == a + b[..|b| - 1];
      EntrySlotsSplit(a, b[..|b| - 1]);
    }
  }

  lemma NoEntryInText(text: string)
    ensures EntrySlots(Run(text)) == []
  {
    assert Run(text) != [] ==> Run(text)[..0] == [];
  }

  lemma OneEntrySlot(slot: Slot)
    ensures EntrySlots([slot]) == if slot.TextSlot? || slot.Gap? then [] else [slot]
  {
    assert [slot][..0] == [];
  }

  lemma {:induction false} ClosedEntrySlots(slots: seq<Slot>)
    ensures EntrySlots(Closed(slots)) == EntrySlots(slots)
  {
    if slots != [] {
      var init, last := slots[..|slots| - 1], slots[|slots| - 1];
      ClosedEntrySlots(init);
      assert slots == init + [last];
      ClosedMore(init, last);
      hide EntrySlots, Closed, Run, Tail;
      EntrySlotsSplit(init, [last]);
      OneEntrySlot(last);
      NoEntryInText(Tail(init));
      EntrySlotsSplit(Closed(init), Run(Tail(init)));
      EntrySlotsSplit(Closed(init) + Run(Tail(init)), [last]);
      assert EntrySlots(init) + [] == EntrySlots(init);
    }
  }

  /** A slot that is filled with text is a slot of text. */
  predicate TextOnly(slots: seq<Slot>) {
    forall slot | slot in slots :: !slot.Gap? && (slot.ShownSlot? ==> !slot.e.Delta?)
  }

  lemma {:induction false} FilledNonText(slots: seq<Slot>, es: seq<Emission>)
    requires TextOnly(slots)
    ensures NonText(FillAll(slots, es)) == FillAll(EntrySlots(slots), es)
  {
    if slots != [] {
      var init, last := slots[..|slots| - 1], slots[|slots| - 1];
      assert last in slots && forall slot | slot in init :: slot in slots;
      FilledNonText(init, es);
      assert FillAll(slots, es)[..|init|] == FillAll(init, es);
      NotText(last, es);
      FillAllSplit(EntrySlots(init), EntrySlots(slots)[|EntrySlots(init)|..], es);
    }
  }

  lemma NotText(slot: Slot, es: seq<Emission>)
    ensures slot.TextSlot? ==> Fill(slot, es).Delta?
    ensures slot.StepSlot? || slot.UserSlot? ==> !Fill(slot, es).Delta?
    ensures slot.ShownSlot? ==> Fill(slot, es) == slot.e
  {
    if slot.StepSlot? {
      LastStepIsStep(es, slot.stepId);
    } else if slot.UserSlot? {
      LastStepIsStep(es, slot.userMessageId);
    }
  }

  lemma {:induction false} VisibleNonText(segments: seq<Segment>)
    ensures NonText(Visible(segments)) == Visible(NonText(segments))
  {
    if segments != [] {
      var init, last := segments[..|segments| - 1], segments[|segments| - 1];
      VisibleNonText(init);
      if last.Delta? {
        assert (Visible(init) + [last])[..|Visible(init)|] == Visible(init);
        assert NonText(segments) == NonText(init);
      } else if last.User? && !last.injected {
        assert (NonText(init) + [last])[..|NonText(init)|] == NonText(init);
        assert Visible(segments) == Visible(init);
      } else {
        assert (Visible(init) + [last])[..|Visible(init)|] == Visible(init);
        assert (NonText(init) + [last])[..|NonText(init)|] == NonText(init);
      }
    }
  }

  lemma {:induction false} SlotsTextOnly(es: seq<Emission>)
    ensures forall slot | slot in Slots(es) :: slot.ShownSlot? ==> !slot.e.Delta?
  {
    if es != [] {
      SlotsTextOnly(es[..|es| - 1]);
    }
  }

  lemma {:induction false} ClosedShown(slots: seq<Slot>)
    requires forall slot | slot in slots :: slot.ShownSlot? ==> !slot.e.Delta?
    ensures TextOnly(Closed(slots))
  {
    if slots != [] {
      var init, last := slots[..|slots| - 1], slots[|slots| - 1];
      assert last in slots && forall slot | slot in init :: slot in slots;
      ClosedShown(init);
    }
  }

  // ----- Deduplicating drops only cards

  lemma {:induction false} KeptHas(es: seq<Emission>, id: string)
    ensures (exists b | b in Kept(es) :: StepOf(b, id)) <==> (exists b | b in es :: StepOf(b, id))
    ensures (exists b | b in Kept(es) :: UserOf(b, id)) <==> (exists b | b in es :: UserOf(b, id))
    ensures LastStep(Kept(es), id) == LastStep(es, id) && LastUser(Kept(es), id) == LastUser(es, id)
  {
    if es != [] {
      var init, last := es[..|es| - 1], es[|es| - 1];
      KeptHas(init, id);
      assert forall b :: b in es <==> b in init || b == last;
      if last.Viz? && last.spec.signature in Signatures(init) {
        assert Kept(es) == Kept(init);
      } else {
        assert (Kept(init) + [last])[..|Kept(init)|] == Kept(init);
        assert forall b :: b in Kept(es) <==> b in Kept(init) || b == last;
      }
    }
  }

  lemma SignatureSeen(es: seq<Emission>, signature: string)
    ensures signature in Signatures(es) <==> exists b | b in es :: b.Viz? && b.spec.signature == signature
  {
  }

  /** One more emission of a log with duplicates. */
  lemma {:induction false} EntryOfSlot(before: seq<Emission>, e: Emission, es: seq<Emission>)
    requires e.User? ==> exists b | b in es :: UserOf(b, e.userMessageId)
    requires !(e.Viz? && e.spec.signature in Signatures(before))
    ensures var slot := SlotOf(Kept(before), e);
            Entry(before, e, es) == if slot.TextSlot? || slot.Gap? then [] else Visible([Fill(slot, Kept(es))])
  {
    hide Kept, Signatures;
    VisibleOne(Fill(SlotOf(Kept(before), e), Kept(es)));
    match e
    case Viz(spec) => SignatureSeen(before, spec.signature);
    case Step(data) =>
      KeptHas(before, data.stepId);
      KeptHas(es, data.stepId);
      LastStepIsStep(es, data.stepId);
    case User(_, id, _) =>
      KeptHas(before, id);
      KeptHas(es, id);
      LastUserIsUser(es, id);
    case _ =>
  }

  lemma VisibleOne(segment: Segment)
    ensures Visible([segment]) == if segment.User? && !segment.injected then [] else [segment]
  {
    assert [segment][..0] == [];
  }

  lemma {:induction false} LastUserIsUser(es: seq<Emission>, id: string)
    requires exists b | b in es :: UserOf(b, id)
    ensures LastUser(es, id).User?
  {
    var init, last := es[..|es| - 1], es[|es| - 1];
    if !UserOf(last, id) {
      var b :| b in es && UserOf(b, id);
      assert b in init;
      LastUserIsUser(init, id);
    }
  }

  lemma {:induction false} KeptEntries(before: seq<Emission>, es: seq<Emission>)
    requires before <= es
    ensures Visible(FillAll(EntrySlots(Slots(Kept(before))), Kept(es))) == Entries(before, es)
  {
    if before != [] {
      var init, last := before[..|before| - 1], before[|before| - 1];
      KeptMore(before, |before| - 1);
      assert before[..|before| - 1 + 1] == before;
      assert last in before && last in es;
      assert Entries(before, es) == Entries(init, es) + Entry(init, last, es);
      hide Kept, Entries, Entry, Signatures, Fill, SlotOf, EntrySlots, Slots, FillAll, Visible;
      KeptEntries(init, es);
      assert Entries(init, es) + [] == Entries(init, es);
      if last.Viz? && last.spec.signature in Signatures(init) {
        DroppedCard(init, last, es);
      } else {
        EntryOfSlot(init, last, es);
        OneMoreEntry(Kept(init), last, Kept(es));
      }
    }
  }

  lemma OneMoreEntry(kept: seq<Emission>, e: Emission, es: seq<Emission>)
    ensures var slot := SlotOf(kept, e);
            Visible(FillAll(EntrySlots(Slots(kept + [e])), es))
            == Visible(FillAll(EntrySlots(Slots(kept)), es))
               + if slot.TextSlot? || slot.Gap? then [] else Visible([Fill(slot, es)])
  {
    hide Fill, SlotOf, EntrySlots, Slots, FillAll, Visible;
    var slot, slots := SlotOf(kept, e), EntrySlots(Slots(kept));
    SlotsMore(kept, e);
    EntrySlotsSplit(Slots(kept), [slot]);
    OneEntrySlot(slot);
    VisibleMore(slots, slot, es);
    assert slots + [] == slots && Visible(FillAll(slots, es)) + [] == Visible(FillAll(slots, es));
  }

  lemma DroppedCard(before: seq<Emission>, e: Emission, es: seq<Emission>)
    requires e.Viz? && e.spec.signature in Signatures(before)
    ensures Entry(before, e, es) == []
  {
    SignatureSeen(before, e.spec.signature);
  }

  lemma VisibleMore(slots: seq<Slot>, slot: Slot, es: seq<Emission>)
    ensures Visible(FillAll(slots + [slot], es)) == Visible(FillAll(slots, es)) + Visible([Fill(slot, es)])
  {
    hide Fill;
    FillAllSplit(slots, [slot], es);
    assert FillAll([slot], es) == [Fill(slot, es)];
    VisibleSplit(FillAll(slots, es), [Fill(slot, es)]);
  }

  /** The places of the beginning of a log, filled with the last payloads of the whole, tell the beginning. */
  lemma PlacesTell(before: seq<Emission>, es: seq<Emission>)
    requires before <= es
    ensures Tells(Visible(FillAll(Chronology(Kept(before)), Kept(es))), before, es)
  {
    hide Kept, Fill, Merged, Entries;
    var kept := Kept(before);
    var slots := Slots(kept) + [Gap];
    var places := Closed(slots);
    SlotsTextOnly(kept);
    ClosedShown(slots);
    ClosedEntrySlots(slots);
    EntrySlotsSplit(Slots(kept), [Gap]);
    OneEntrySlot(Gap);
    assert EntrySlots(Slots(kept)) + [] == EntrySlots(Slots(kept));
    FilledNonText(places, Kept(es));
    VisibleNonText(FillAll(places, Kept(es)));
    KeptEntries(before, es);
    VisibleAnswers(FillAll(places, Kept(es)));
    FilledAnswers(places, Kept(es));
    VisibleAnswers(FillAll(places, kept));
    FilledAnswers(places, kept);
    ViewsAgree(before);
  }

  /** The segments of a log are its entries in order, with its text and cards as the answer parts have them. */
  lemma SegmentsTell(es: seq<Emission>)
    ensures Tells(SegmentsOf(es), es, es)
  {
    PlacesTell(es, es);
  }

  // ----- Where each entry stands

  /** Where an emission that is kept is in the deduplicated log. */
  lemma {:induction false} KeptAt(es: seq<Emission>, i: nat)
    requires i < |es| && !(es[i].Viz? && es[i].spec.signature in Signatures(es[..i]))
    ensures var k := |Kept(es[..i])|;
            k < |Kept(es)| && Kept(es)[k] == es[i] && Kept(es)[..k] == Kept(es[..i])
  {
    hide Kept, Signatures;
    KeptMore(es, i);
    KeptOnlyGrows(es, i);
    KeptOnlyGrows(es, i + 1);
  }

  /** Every entry stands in the segments returned behind exactly what came before it in the log: the entries, the text
      and the cards. */
  lemma {:induction false} EntryStands(es: seq<Emission>, i: nat) returns (p: nat)
    requires i < |es| && Entry(es[..i], es[i], es) != []
    ensures p < |SegmentsOf(es)| && [SegmentsOf(es)[p]] == Entry(es[..i], es[i], es)
    ensures Tells(SegmentsOf(es)[..p], es[..i], es)
  {
    hide Kept, Fill, Chronology, Entry, SlotOf, Signatures, Tells, Visible;
    var before, kept := Kept(es[..i]), Kept(es);
    if es[i].Viz? && es[i].spec.signature in Signatures(es[..i]) {
      DroppedCard(es[..i], es[i], es);
    } else {
      KeptAt(es, i);
      assert es[i] in es;
      EntryOfSlot(es[..i], es[i], es);
      var slot := SlotOf(before, es[i]);
      SlotStands(kept, |before|);
      var slots, n := Chronology(kept), |Chronology(before)|;
      var ahead, one, rest := FillAll(slots[..n], kept), [slot], slots[n + 1..];
      assert slots == slots[..n] + (one + rest);
      FillAllSplit(slots[..n], one + rest, kept);
      FillAllSplit(one, rest, kept);
      assert FillAll(one, kept) == [Fill(slot, kept)];
      VisibleSplit(ahead, FillAll(one + rest, kept));
      VisibleSplit(FillAll(one, kept), FillAll(rest, kept));
      p := |Visible(ahead)|;
      VisibleOne(Fill(slot, kept));
      PlacesTell(es[..i], es);
      assert SegmentsOf(es) == Visible(ahead) + (Visible(FillAll(one, kept)) + Visible(FillAll(rest, kept)));
      assert SegmentsOf(es)[..p] == Visible(ahead);
    }
  }

  // ----- Where text is split

  /** The text since the last emission that is no text. */
  function OpenRun(es: seq<Emission>): string {
    if es == [] || !es[|es| - 1].Delta? then "" else OpenRun(es[..|es| - 1]) + es[|es| - 1].text
  }

  function OneRun(text: string): seq<string> {
    if text == "" then [] else [text]
  }

  /** The runs of text that some other emission has ended. */
  function EndedRuns(es: seq<Emission>): seq<string> {
    if es == [] then []
    else
      var init := es[..|es| - 1];
      EndedRuns(init) + if es[|es| - 1].Delta? then [] else OneRun(OpenRun(init))
  }

  /** The text of each piece of text. */
  function TextsIn(segments: seq<Segment>): seq<string> {
    if segments == [] then []
    else
      var init, last := segments[..|segments| - 1], segments[|segments| - 1];
      TextsIn(init) + if last.Delta? then [last.text] else []
  }

  function TextSlots(slots: seq<Slot>): seq<string> {
    if slots == [] then []
    else
      var init, last := slots[..|slots| - 1], slots[|slots| - 1];
      TextSlots(init) + if last.TextSlot? then [last.text] else []
  }

  lemma {:induction false} TextSlotsSplit(a: seq<Slot>, b: seq<Slot>)
    ensures TextSlots(a + b) == TextSlots(a) + TextSlots(b)
  {
    if b == [] {
      assert a + b == a;
    } else {
      assert (a + b)[..|a + b| - 1] == a + b[..|b| - 1];
      TextSlotsSplit(a, b[..|b| - 1]);
    }
  }

  lemma TextsOfOne(text: string, slot: Slot)
    ensures TextSlots(Run(text)) == OneRun(text)
    ensures !slot.TextSlot? ==> TextSlots([slot]) == []
  {
    assert Run(text) != [] ==> Run(text)[..0] == [];
    assert [slot][..0] == [];
  }

  lemma {:induction false} ClosedTexts(es: seq<Emission>)
    ensures Tail(Slots(es)) == OpenRun(es) && TextSlots(Closed(Slots(es))) == EndedRuns(es)
  {
    if es != [] {
      var init, last := es[..|es| - 1], es[|es| - 1];
      ClosedTexts(init);
      var slot := SlotOf(init, last);
      assert Slots(es) == Slots(init) + [slot];
      ClosedMore(Slots(init), slot);
      assert last.Delta? <==> slot.TextSlot?;
      hide Slots, Closed, Tail, TextSlots, Run;
      TextsOfOne(OpenRun(init), slot);
      TextSlotsSplit(Closed(Slots(init)), Run(Tail(Slots(init))));
      TextSlotsSplit(Closed(Slots(init)) + Run(Tail(Slots(init))), [slot]);
      assert EndedRuns(init) + [] == EndedRuns(init);
    }
  }

  lemma {:induction false} FilledTexts(slots: seq<Slot>, es: seq<Emission>)
    requires TextOnly(slots)
    ensures TextsIn(FillAll(slots, es)) == TextSlots(slots)
  {
    if slots != [] {
      var init, last := slots[..|slots| - 1], slots[|slots| - 1];
      assert last in slots && forall slot | slot in init :: slot in slots;
      FilledTexts(init, es);
      assert FillAll(slots, es)[..|init|] == FillAll(init, es);
      NotText(last, es);
    }
  }

  lemma {:induction false} VisibleTexts(segments: seq<Segment>)
    ensures TextsIn(Visible(segments)) == TextsIn(segments)
  {
    if segments != [] {
      var init, last := segments[..|segments| - 1], segments[|segments| - 1];
      VisibleTexts(init);
      if !(last.User? && !last.injected) {
        assert (Visible(init) + [last])[..|Visible(init)|] == Visible(init);
      } else {
        assert Visible(segments) == Visible(init);
      }
    }
  }

  /** The pieces of text are the runs of text of the log between its other emissions, those included that have no segment
      of their own; only a repeated card does not split a run. */
  lemma TextSegments(es: seq<Emission>)
    ensures TextsIn(SegmentsOf(es)) == EndedRuns(Kept(es)) + OneRun(OpenRun(Kept(es)))
  {
    hide Kept, Fill;
    var kept := Kept(es);
    var slots := Slots(kept) + [Gap];
    SlotsTextOnly(kept);
    ClosedShown(slots);
    ClosedTexts(kept);
    ClosedMore(Slots(kept), Gap);
    TextSlotsSplit(Closed(Slots(kept)), Run(Tail(Slots(kept))));
    TextsOfOne(OpenRun(kept), Gap);
    FilledTexts(Closed(slots), kept);
    VisibleTexts(FillAll(Closed(slots), kept));
  }
}
