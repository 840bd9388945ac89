/** Whole answers through the writer of final answers (app/agent_node.py): over several iterations, with cards staged
    before them, in the middle of them, or not at all. */
module StreamedAnswers {
  import opened Text
  import opened Emissions
  import opened VizPlacement
  import opened VizStripper
  import opened VizScan
  import opened FinalContent

  // ----- Answers with cards

  /** The chunks of all iterations, in order. */
  function Flat(iterations: seq<seq<string>>): seq<string> {
    if iterations == [] then [] else iterations[0] + Flat(iterations[1..])
  }

  /** After `log` with `pending` text, when the chunks `rest` are still to come, the answer is on its way to `goal`. */
  ghost predicate OnItsWay(log: seq<Emission>, pending: string, emitted: set<nat>, rest: seq<string>, cards: seq<Card>,
                           goal: seq<Emission>) {
    log + Resolve(StreamAll(pending, rest, |cards|, emitted), cards) == goal
  }

  lemma OneChunkOn(log: seq<Emission>, pending: string, emitted: set<nat>, chunk: string, rest: seq<string>,
                   cards: seq<Card>, goal: seq<Emission>)
    requires OnItsWay(log, pending, emitted, [chunk] + rest, cards, goal)
    ensures chunk == "" ==> OnItsWay(log, pending, emitted, rest, cards, goal)
    ensures chunk != "" ==>
              var d := Drain(pending + chunk, |cards|, emitted, false);
              OnItsWay(log + Resolve(d.out, cards), d.pending, d.emitted, rest, cards, goal)
  {
    hide Resolve, FlushAll, Drain;
    assert ([chunk] + rest)[1..] == rest;
    if chunk != "" {
      var d := Drain(pending + chunk, |cards|, emitted, false);
      var later := StreamAll(d.pending, rest, |cards|, d.emitted);
      ResolveSplit(d.out, later, cards);
      assert log + Resolve(d.out, cards) + Resolve(later, cards) == log + (Resolve(d.out, cards) + Resolve(later, cards));
    }
  }

  lemma WayStarts(log: seq<Emission>, pending: string, emitted: set<nat>, rest: seq<string>, cards: seq<Card>)
    ensures OnItsWay(log, pending, emitted, rest, cards, log + Resolve(StreamAll(pending, rest, |cards|, emitted), cards))
  {
  }

  lemma WayEnds(log: seq<Emission>, pending: string, emitted: set<nat>, cards: seq<Card>, goal: seq<Emission>)
    requires OnItsWay(log, pending, emitted, [], cards, goal)
    ensures log + Resolve(FlushAll(pending, |cards|, emitted), cards) == goal
  {
    hide FlushAll, Resolve;
  }

  lemma ChunkFirst(chunks: seq<string>, j: nat, later: seq<string>)
    requires j < |chunks|
    ensures chunks[j..] + later == [chunks[j]] + (chunks[j + 1..] + later)
  {
  }

  /** Chunks of a final answer that has started, with cards staged. */
  method StreamPlaced(final: FinalContentPlacementWriter, chunks: seq<string>, ghost later: seq<string>,
                      ghost goal: seq<Emission>)
    requires final.Valid() && final.staged.cards != [] && final.finalStarted && !final.flushed
    requires OnItsWay(final.writer.log, final.placer.pending, final.placer.emittedIndexes, chunks + later,
                      final.staged.cards, goal)
    modifies final`flushed, final.writer, final.placer, final.stripper
    ensures final.Valid() && final.finalStarted && !final.flushed
    ensures unchanged(final.stripper)
    ensures OnItsWay(final.writer.log, final.placer.pending, final.placer.emittedIndexes, later,
                     final.staged.cards, goal)
  {
    hide EachOnce, Drain, OnItsWay, Reads, HoldsBack;
    assert chunks[0..] == chunks;
    for j := 0 to |chunks|
      invariant final.Valid() && final.finalStarted && !final.flushed
      invariant unchanged(final.stripper)
      invariant OnItsWay(final.writer.log, final.placer.pending, final.placer.emittedIndexes,
                         chunks[j..] + later, final.staged.cards, goal)
    {
      ChunkFirst(chunks, j, later);
      OneChunkOn(final.writer.log, final.placer.pending, final.placer.emittedIndexes, chunks[j],
                 chunks[j + 1..] + later, final.staged.cards, goal);
      var _ := final.Write(Text(chunks[j]));
    }
    assert chunks[|chunks|..] + later == later;
  }

  /** The chunks of one iteration. */
  method StreamIteration(final: FinalContentPlacementWriter, chunks: seq<string>, ghost later: seq<string>,
                         ghost goal: seq<Emission>)
    requires final.Valid() && final.staged.cards != []
    requires OnItsWay(final.writer.log, final.placer.pending, final.placer.emittedIndexes, chunks + later,
                      final.staged.cards, goal)
    modifies final, final.writer
    ensures final.Valid() && final.finalStarted && !final.flushed && final.stripper.View() == START
    ensures fresh(final.placer) && fresh(final.stripper)
    ensures OnItsWay(final.writer.log, final.placer.pending, final.placer.emittedIndexes, later,
                     final.staged.cards, goal)
  {
    hide EachOnce, Drain, OnItsWay, HoldsBack;
    final.BeginIteration();
    final.StartFinal();
    StreamPlaced(final, chunks, later, goal);
  }

  /** The terminal flush when all chunks have been written. */
  method FinishStream(final: FinalContentPlacementWriter, ghost goal: seq<Emission>)
    requires final.Valid() && !final.flushed
    requires final.finalStarted && final.staged.cards != [] ==>
               OnItsWay(final.writer.log, final.placer.pending, final.placer.emittedIndexes, [], final.staged.cards, goal)
    modifies final`flushed, final.placer, final.stripper, final.writer
    ensures !old(final.finalStarted) ==> unchanged(final.writer)
    ensures old(final.finalStarted) ==>
              final.writer.log == (if final.staged.cards == [] then old(final.writer.log) else goal)
                                  + Piece(old(Owes(final.stripper.View(), "")))
  {
    hide EachOnce, Resolve, FlushAll, Drain, OnItsWay, HoldsBack, Owes, Piece;
    ghost var log, owed := final.writer.log, Piece(Owes(final.stripper.View(), ""));
    if final.finalStarted && final.staged.cards != [] {
      WayEnds(log, final.placer.pending, final.placer.emittedIndexes, final.staged.cards, goal);
      ghost var rest := Resolve(FlushAll(final.placer.pending, |final.staged.cards|, final.placer.emittedIndexes),
                                final.staged.cards);
      assert log + (rest + owed) == log + rest + owed;
    }
    assert [] + owed == owed;
    final.FlushFinal();
  }

  lemma NothingEachOnce(cards: seq<Card>)
    ensures EachOnce([], [], cards)
  {
  }

  // ----- Text without cards

  lemma PieceSpeaks(log: seq<Emission>, text: string)
    requires forall e | e in log :: e.Delta?
    ensures Prose(log + Piece(text)) == Prose(log) + text
    ensures forall e | e in log + Piece(text) :: e.Delta?
  {
    ProseSplit(log, Piece(text));
    assert [Delta(text)][1..] == [];
  }

  lemma ViewWaits(stripper: StreamingVizMarkerStripper)
    requires stripper.Valid()
    ensures Waits(stripper.View())
  {
    HoldsBackPrefix(stripper.prefix, stripper.scanned, MARKER);
  }

  method StripChunk(final: FinalContentPlacementWriter, chunk: string, ghost text: string, ghost said: string)
    returns (ghost piece: string)
    requires final.Valid() && final.staged.cards == [] && final.finalStarted
    requires forall e | e in final.writer.log :: e.Delta?
    requires Reads(START, text, said, final.stripper.View())
    modifies final`flushed, final.writer, final.placer, final.stripper
    ensures final.Valid() && final.flushed == old(final.flushed) && unchanged(final.placer)
    ensures forall e | e in final.writer.log :: e.Delta?
    ensures Prose(final.writer.log) == Prose(old(final.writer.log)) + piece
    ensures Reads(START, text + chunk, said + piece, final.stripper.View())
  {
    hide EachOnce, Drain, Reads, HoldsBack, Prose, Piece;
    ghost var st, log := final.stripper.View(), final.writer.log;
    piece := final.Write(Text(chunk));
    if chunk == "" {
      piece := "";
      assert text + chunk == text && said + "" == said && Prose(log) + "" == Prose(log);
    } else {
      PieceSpeaks(log, piece);
      ReadsThen(START, text, said, st, chunk, piece, final.stripper.View());
    }
  }

  /** Chunks of a final answer while no card is staged: they are stripped of their markers. */
  method StreamStripped(final: FinalContentPlacementWriter, chunks: seq<string>, ghost text: string, ghost said: string)
    returns (ghost more: string)
    requires final.Valid() && final.staged.cards == [] && final.finalStarted
    requires forall e | e in final.writer.log :: e.Delta?
    requires Reads(START, text, said, final.stripper.View())
    modifies final`flushed, final.writer, final.placer, final.stripper
    ensures final.Valid() && final.flushed == old(final.flushed) && unchanged(final.placer)
    ensures forall e | e in final.writer.log :: e.Delta?
    ensures Prose(final.writer.log) == Prose(old(final.writer.log)) + more
    ensures Reads(START, text + Concat(chunks), said + more, final.stripper.View())
  {
    hide EachOnce, Drain, Reads, HoldsBack, Prose, Concat;
    NoChunks(chunks);
    more := "";
    assert text + "" == text && said + "" == said && Prose(final.writer.log) + "" == Prose(final.writer.log);
    for j := 0 to |chunks|
      invariant final.Valid() && final.finalStarted && final.flushed == old(final.flushed) && unchanged(final.placer)
      invariant forall e | e in final.writer.log :: e.Delta?
      invariant Prose(final.writer.log) == Prose(old(final.writer.log)) + more
      invariant Reads(START, text + Concat(chunks[..j]), said + more, final.stripper.View())
    {
      OneMoreChunk(chunks, j);
      assert text + Concat(chunks[..j + 1]) == text + Concat(chunks[..j]) + chunks[j];
      ghost var piece := StripChunk(final, chunks[j], text + Concat(chunks[..j]), said + more);
      assert said + (more + piece) == said + more + piece;
      assert Prose(old(final.writer.log)) + (more + piece) == Prose(old(final.writer.log)) + more + piece;
      more := more + piece;
    }
    assert chunks[..|chunks|] == chunks;
  }

  // ----- Several iterations

  /** The text of each iteration. */
  function Texts(iterations: seq<seq<string>>): seq<string> {
    seq(|iterations|, i requires 0 <= i < |iterations| => Concat(iterations[i]))
  }

  /** An answer over any number of iterations. With cards staged before it, the text still pending when an iteration
      ends is carried over, so it is streamed as if all its chunks belonged to one iteration; how that compares with
      one flush and with the batch form, `VizPlacement.StreamIsBatch` and `VizCuts` say. Without cards each iteration has
      a fresh stripper, and what the one before it held is gone; how that compares with the scan of the whole text,
      `VizScan.AnewIff` and `VizScan.ShownAnewIff` say. */
  method StreamAnswer(specs: seq<Card>, iterations: seq<seq<string>>) returns (log: seq<Emission>)
    ensures specs != [] ==> log == if iterations == [] then []
                                   else Resolve(StreamAll("", Flat(iterations), |specs|, {}), specs)
    ensures specs == [] ==> (forall e | e in log :: e.Delta?) && Prose(log) == ShownAnew(Texts(iterations))
  {
    if specs == [] {
      log := StreamBareAnswer(iterations);
    } else {
      log := StreamCardAnswer(specs, iterations);
    }
  }

  method StreamCardAnswer(specs: seq<Card>, iterations: seq<seq<string>>) returns (log: seq<Emission>)
    requires specs != []
    ensures log == if iterations == [] then []
                   else Resolve(StreamAll("", Flat(iterations), |specs|, {}), specs)
  {
    hide EachOnce, Resolve, FlushAll, StreamAll, Drain, OnItsWay, HoldsBack;
    ghost var goal := Resolve(StreamAll("", Flat(iterations), |specs|, {}), specs);
    assert [] + goal == goal;
    var cards := new StagedCards();
    cards.cards := specs;
    var writer := new EmissionLog();
    NothingEachOnce(specs);
    var final := new FinalContentPlacementWriter(cards, writer);
    WayStarts([], "", {}, Flat(iterations), specs);
    assert iterations[0..] == iterations;
    for i := 0 to |iterations|
      invariant final.Valid() && final.staged == cards && final.writer == writer && cards.cards == specs
      invariant fresh(cards) && fresh(writer) && fresh(final) && fresh(final.placer) && fresh(final.stripper)
      invariant !final.flushed && final.stripper.View() == START
      invariant if i == 0 then !final.finalStarted && writer.log == [] else final.finalStarted
      invariant OnItsWay(writer.log, final.placer.pending, final.placer.emittedIndexes, Flat(iterations[i..]),
                         specs, goal)
    {
      assert iterations[i..][1..] == iterations[i + 1..];
      StreamIteration(final, iterations[i], Flat(iterations[i + 1..]), goal);
    }
    assert Flat(iterations[|iterations|..]) == [];
    OwesAtStart("");
    FinishStream(final, goal);
    log := writer.log;
  }

  /** One iteration without cards, after the texts of `done`. */
  method StripIteration(final: FinalContentPlacementWriter, chunks: seq<string>, ghost done: seq<string>)
    requires final.Valid() && final.staged.cards == []
    requires (forall e | e in final.writer.log :: e.Delta?) && Prose(final.writer.log) == PutAnew(done)
    modifies final, final.writer
    ensures final.Valid() && final.finalStarted && !final.flushed && fresh(final.placer) && fresh(final.stripper)
    ensures forall e | e in final.writer.log :: e.Delta?
    ensures Prose(final.writer.log) == PutAnew(done + [Concat(chunks)])
    ensures Owes(final.stripper.View(), "") == Held(Concat(chunks))
  {
    hide EachOnce, HoldsBack, Reads, Scan, Concat, Prose, Owes, Strip, Held;
    final.BeginIteration();
    final.StartFinal();
    ReadsNothing(START);
    ghost var said := StreamStripped(final, chunks, "", "");
    assert "" + Concat(chunks) == Concat(chunks) && "" + said == said;
    ViewWaits(final.stripper);
    ReadsAsScan(Concat(chunks), said, final.stripper.View());
    assert (done + [Concat(chunks)])[..|done|] == done;
  }

  method StreamBareAnswer(iterations: seq<seq<string>>) returns (log: seq<Emission>)
    ensures (forall e | e in log :: e.Delta?) && Prose(log) == ShownAnew(Texts(iterations))
  {
    hide EachOnce, HoldsBack, Reads, Scan, Concat, Prose, Owes, PutAnew, Held;
    var cards := new StagedCards();
    var writer := new EmissionLog();
    var final := new FinalContentPlacementWriter(cards, writer);
    ghost var texts := Texts(iterations);
    NoProse();
    for i := 0 to |iterations|
      invariant final.Valid() && final.staged == cards && final.writer == writer && cards.cards == []
      invariant fresh(cards) && fresh(writer) && fresh(final) && fresh(final.placer) && fresh(final.stripper)
      invariant !final.flushed && (i > 0 <==> final.finalStarted)
      invariant forall e | e in writer.log :: e.Delta?
      invariant Prose(writer.log) == PutAnew(texts[..i])
      invariant i > 0 ==> Owes(final.stripper.View(), "") == Held(texts[i - 1])
    {
      assert texts[..i] + [Concat(iterations[i])] == texts[..i + 1];
      StripIteration(final, iterations[i], texts[..i]);
    }
    assert texts[..|texts|] == texts;
    ghost var owed := Owes(final.stripper.View(), "");
    PieceSpeaks(writer.log, owed);
    FinishStream(final, writer.log);
    log := writer.log;
    assert Prose(log) + "" == Prose(log);
  }

  lemma NoProse()
    ensures Prose([]) == "" && PutAnew([]) == ""
  {
  }

  // ----- Cards staged in the middle of an answer

  /** The answer with cards staged behind the chunks `before`: the scan of the text until then, the placement of the text
      that follows, and a held bracket behind all of it. Without cards, the scan of all text. */
  function StagedAnswer(before: seq<string>, specs: seq<Card>, behind: seq<string>): seq<Emission> {
    if specs == [] then Merged([Delta(Strip(Concat(before + behind)))])
    else Merged([Delta(Scan(Concat(before)).out)] + Placed(specs, behind) + [Delta(Held(Concat(before)))])
  }

  /** What the placer shows. */
  function Placed(specs: seq<Card>, behind: seq<string>): seq<Emission> {
    Resolve(StreamAll("", behind, |specs|, {}), specs)
  }

  /** The same answer in the order of its text. */
  function InOrder(before: seq<string>, specs: seq<Card>, behind: seq<string>): seq<Emission> {
    Merged([Delta(Strip(Concat(before)))] + Placed(specs, behind))
  }

  /** A final answer whose cards are staged after the chunks `before`. */
  method StreamStaged(before: seq<string>, specs: seq<Card>, behind: seq<string>) returns (log: seq<Emission>)
    ensures Merged(log) == StagedAnswer(before, specs, behind)
  {
    hide EachOnce, Resolve, FlushAll, StreamAll, Drain, OnItsWay, HoldsBack, Reads, Owes, Strip, Concat, Prose, Scan, Held,
      Merged;
    var cards := new StagedCards();
    var writer := new EmissionLog();
    var final := new FinalContentPlacementWriter(cards, writer);
    final.StartFinal();
    ReadsNothing(START);
    NoProse();
    ghost var goal := [];
    ghost var said := StreamStripped(final, before, "", "");
    assert "" + Concat(before) == Concat(before) && "" + said == said;
    ghost var text := Concat(before);
    ghost var prose := writer.log;
    if specs == [] {
      ghost var more := StreamStripped(final, behind, Concat(before), said);
      said := said + more;
      ConcatSplit(before, behind);
      text := Concat(before + behind);
      prose := writer.log;
    } else {
      NoCardsYet(writer.log, writer.shown, specs);
      cards.cards := specs;
      goal := prose + Placed(specs, behind);
      WayStarts(prose, "", {}, behind, specs);
      assert behind + [] == behind;
      StreamPlaced(final, behind, [], goal);
    }
    ViewWaits(final.stripper);
    ReadsAsScan(text, said, final.stripper.View());
    FinishStream(final, goal);
    log := writer.log;
    StagedMerges(prose, if specs == [] then [] else Placed(specs, behind), Held(text));
  }

  lemma {:induction false} TextMerges(said: seq<Emission>, rest: seq<Emission>)
    requires forall e | e in said :: e.Delta?
    ensures Merged(said + rest) == Merged([Delta(Prose(said))] + rest)
  {
    hide Merged;
    if said == [] {
      assert said + rest == rest;
      MergedEmpty(rest);
    } else {
      assert said[0] in said && forall e | e in said[1..] :: e in said;
      TextMerges(said[1..], rest);
      MergedBehind([said[0]], said[1..] + rest, [Delta(Prose(said[1..]))] + rest);
      assert said + rest == [said[0]] + (said[1..] + rest);
      assert [said[0]] + ([Delta(Prose(said[1..]))] + rest) == [said[0], Delta(Prose(said[1..]))] + rest;
      MergedJoin(said[0].text, Prose(said[1..]), rest);
    }
  }

  lemma PieceMerges(a: seq<Emission>, text: string)
    ensures Merged(a + Piece(text)) == Merged(a + [Delta(text)])
  {
    hide Merged;
    if text == "" {
      MergedEmpty([]);
      MergedBehind(a, [Delta("")] + [], []);
      assert [Delta("")] + [] == [Delta("")];
    }
  }

  lemma StagedMerges(said: seq<Emission>, placed: seq<Emission>, held: string)
    requires forall e | e in said :: e.Delta?
    ensures Merged(said + placed + Piece(held)) == Merged([Delta(Prose(said))] + placed + [Delta(held)])
    ensures placed == [] ==> Merged(said + Piece(held)) == Merged([Delta(Prose(said) + held)])
  {
    hide Merged, Prose, Piece;
    PieceMerges(said + placed, held);
    assert said + placed + [Delta(held)] == said + (placed + [Delta(held)]);
    assert [Delta(Prose(said))] + placed + [Delta(held)] == [Delta(Prose(said))] + (placed + [Delta(held)]);
    TextMerges(said, placed + [Delta(held)]);
    if placed == [] {
      assert said + placed + Piece(held) == said + Piece(held);
      MergedJoin(Prose(said), held, []);
      assert [Delta(Prose(said))] + placed + [Delta(held)] == [Delta(Prose(said)), Delta(held)] + [];
      assert [Delta(Prose(said) + held)] + [] == [Delta(Prose(said) + held)];
    }
  }

  lemma NoCardsYet(log: seq<Emission>, shown: seq<nat>, cards: seq<Card>)
    requires EachOnce(log, shown, [])
    ensures shown == [] && EachOnce(log, shown, cards)
  {
    HasMember(shown);
  }

  lemma HasMember(s: seq<nat>)
    ensures s == [] || exists i :: i in s
  {
    if s != [] {
      assert s[0] in s;
    }
  }

  // ----- When the order is the one of the text

  /** The text in front of the first emission that is no text. */
  function Lead(es: seq<Emission>): string {
    if es == [] || !es[0].Delta? then "" else es[0].text + Lead(es[1..])
  }

  lemma LeadPushed(e: Emission, merged: seq<Emission>)
    ensures Lead(Push(e, merged)) == if e.Delta? then e.text + Lead(merged) else ""
  {
    assert e == Delta("") ==> e.text + Lead(merged) == Lead(merged);
    assert ([e] + merged)[1..] == merged;
    if e.Delta? && merged != [] && merged[0].Delta? {
      assert ([Delta(e.text + merged[0].text)] + merged[1..])[1..] == merged[1..];
      assert e.text + merged[0].text + Lead(merged[1..]) == e.text + (merged[0].text + Lead(merged[1..]));
    }
  }

  lemma {:induction false} LeadMerged(es: seq<Emission>)
    ensures Lead(Merged(es)) == Lead(es)
  {
    hide Push;
    if es != [] {
      LeadMerged(es[1..]);
      LeadPushed(es[0], Merged(es[1..]));
    }
  }

  /** What comes behind a card is not in front of it. */
  lemma {:induction false} LeadBehind(a: seq<Emission>, b: seq<Emission>)
    requires exists e | e in a :: !e.Delta?
    ensures Lead(a + b) == Lead(a)
  {
    if a[0].Delta? {
      assert (a + b)[1..] == a[1..] + b;
      assert a == [a[0]] + a[1..];
      LeadBehind(a[1..], b);
    }
  }

  /** The placer shows every staged card, the first one in particular. */
  lemma {:induction false} ShowsFirst(pending: string, chunks: seq<string>, n: nat, emitted: set<nat>)
    requires n > 0 && 0 !in emitted
    ensures Show(0) in StreamAll(pending, chunks, n, emitted)
    decreases |chunks|
  {
    hide Drain, ShownBy, Fallback;
    if chunks == [] {
      DrainShowsFirst(pending, n, emitted, true);
      FlushParts(pending, n, emitted);
    } else if chunks[0] == "" {
      ShowsFirst(pending, chunks[1..], n, emitted);
    } else {
      var d := Drain(pending + chunks[0], n, emitted, false);
      DrainShowsFirst(pending + chunks[0], n, emitted, false);
      if 0 !in d.emitted {
        ShowsFirst(d.pending, chunks[1..], n, d.emitted);
      }
    }
  }

  lemma DrainShowsFirst(pending: string, n: nat, emitted: set<nat>, final: bool)
    requires 0 !in emitted
    ensures var d := Drain(pending, n, emitted, final); 0 in d.emitted ==> Show(0) in d.out
  {
    hide Drain, ShownBy;
    var d := Drain(pending, n, emitted, final);
    DrainShowsOnce(pending, n, emitted, final);
    if 0 in d.emitted {
      assert 0 in ShownBy(d.out);
      ShownIsShow(d.out, 0);
    }
  }

  lemma {:induction false} ShownIsShow(out: seq<Item>, i: nat)
    requires i in ShownBy(out)
    ensures Show(i) in out
  {
    if out[0] != Show(i) {
      ShownIsShow(out[1..], i);
    }
  }

  lemma {:induction false} ShowIsCard(out: seq<Item>, cards: seq<Card>, i: nat)
    requires Fits(out, |cards|) && Show(i) in out
    ensures exists e | e in Resolve(out, cards) :: !e.Delta?
  {
    var e := if out[0].Say? then Delta(out[0].text) else Viz(cards[out[0].index]);
    assert Resolve(out, cards) == [e] + Resolve(out[1..], cards);
    if out[0].Show? {
      assert e in Resolve(out, cards);
    } else {
      assert forall item | item in out[1..] :: item in out;
      assert out == [out[0]] + out[1..];
      ShowIsCard(out[1..], cards, i);
    }
  }

  lemma PlacedHasCard(specs: seq<Card>, behind: seq<string>)
    requires specs != []
    ensures exists e | e in Placed(specs, behind) :: !e.Delta?
  {
    hide StreamAll, Resolve;
    ShowsFirst("", behind, |specs|, {});
    ShowIsCard(StreamAll("", behind, |specs|, {}), specs, 0);
  }

  /** What the scan has put out and what it holds are the scan. */
  lemma StripIsHeld(text: string)
    ensures Strip(text) == Scan(text).out + Held(text)
  {
    hide Scan, Strip, Owes, Held, Reads;
    ReadsScan(text);
    ScanWaits(text);
    ReadsAsScan(text, Scan(text).out, Scan(text).st);
  }

  lemma LeadOf(text: string, es: seq<Emission>)
    ensures Lead([Delta(text)] + es) == text + Lead(es)
  {
    assert ([Delta(text)] + es)[1..] == es;
  }

  /** With cards staged in the middle the answer is shown in the order of its text if and only if no lone bracket is held
      when they are staged. */
  lemma StagedInOrderIff(before: seq<string>, specs: seq<Card>, behind: seq<string>)
    requires specs != []
    ensures StagedAnswer(before, specs, behind) == InOrder(before, specs, behind) <==> !LeavesBracket(Concat(before))
  {
    hide Scan, Strip, Merged, Concat, Placed, LeavesBracket;
    var text, placed := Concat(before), Placed(specs, behind);
    var out := Scan(text).out;
    StripIsHeld(text);
    var staged, ordered := [Delta(out)] + placed + [Delta(Held(text))], [Delta(Strip(text))] + placed;
    if LeavesBracket(text) {
      PlacedHasCard(specs, behind);
      LeadMerged(staged);
      LeadMerged(ordered);
      LeadOf(Strip(text), placed);
      LeadOf(out, placed + [Delta("[")]);
      assert staged == [Delta(out)] + (placed + [Delta("[")]);
      LeadBehind(placed, [Delta("[")]);
    } else {
      MergedEmpty([]);
      MergedBehind([Delta(out)] + placed, [Delta("")] + [], []);
      assert [Delta("")] + [] == [Delta("")] && [Delta(out)] + placed + [] == [Delta(out)] + placed;
      assert out + "" == out;
    }
  }

  lemma {:induction false} CommutesIff(t: string)
    ensures t + "[" == "[" + t <==> forall c | c in t :: c == '['
  {
    if t != "" {
      var rest := t[1..];
      CommutesIff(rest);
      assert t == [t[0]] + rest && t[0] in t && forall c :: c in t <==> c == t[0] || c in rest;
      assert (t + "[")[0] == t[0] && ("[" + t)[0] == '[';
      if t[0] == '[' {
        assert t + "[" == "[" + (rest + "[") && "[" + t == "[" + ("[" + rest);
        SameBehind("[", rest + "[", "[" + rest);
      }
    }
  }

  /** Its text alone is in order also when only brackets are shown behind the held one. */
  lemma StagedTextInOrderIff(before: seq<string>, specs: seq<Card>, behind: seq<string>)
    requires specs != []
    ensures Prose(StagedAnswer(before, specs, behind)) == Prose(InOrder(before, specs, behind))
            <==> !LeavesBracket(Concat(before)) || forall c | c in Prose(Placed(specs, behind)) :: c == '['
  {
    hide Scan, Strip, Merged, Concat, Placed, LeavesBracket;
    var text, placed := Concat(before), Placed(specs, behind);
    var out, shown := Scan(text).out, Prose(placed);
    StripIsHeld(text);
    ProseOfStaged(out, placed, Held(text));
    ProseOfStaged(Strip(text), placed, "");
    MergedProse([Delta(Strip(text))] + placed);
    if LeavesBracket(text) {
      CommutesIff(shown);
      assert out + "[" + shown == out + ("[" + shown) && out + shown + "[" == out + (shown + "[");
      SameBehind(out, shown + "[", "[" + shown);
    } else {
      assert out + shown + "" == out + shown && out + "" == out;
    }
  }

  lemma ProseOfStaged(text: string, placed: seq<Emission>, held: string)
    ensures Prose(Merged([Delta(text)] + placed + [Delta(held)])) == text + Prose(placed) + held
    ensures Prose([Delta(text)] + placed) == text + Prose(placed)
  {
    hide Merged;
    MergedProse([Delta(text)] + placed + [Delta(held)]);
    ProseSplit([Delta(text)] + placed, [Delta(held)]);
    ProseSplit([Delta(text)], placed);
    assert [Delta(text)][1..] == [] && [Delta(held)][1..] == [];
  }

  /** A bracket before the card is staged, and text behind it: the bracket is shown last. */
  lemma BracketGoesLast(card: Card, text: string)
    requires text != "" && '[' !in text
    ensures Prose(StagedAnswer(["["], [card], [text])) == text + "["
    ensures Prose(InOrder(["["], [card], [text])) == "[" + text
  {
    hide Scan, Strip, Merged, Placed, Concat;
    ConcatOne("[");
    OneBracketHeld();
    ScanShort("[");
    StripIsHeld("[");
    PlacedPlain(card, text);
    ProseOfStaged("", Placed([card], [text]), "[");
    ProseOfStaged("[", Placed([card], [text]), "");
    MergedProse([Delta("[")] + Placed([card], [text]));
    assert "" + text + "[" == text + "[" && "" + "[" == "[";
  }

  lemma PlacedPlain(card: Card, text: string)
    requires text != "" && '[' !in text
    ensures Prose(Placed([card], [text])) == text
  {
    hide Drain, Fallback, Resolve, Prose;
    assert [text] + [] == [text];
    DrainOfPlain(text, 1, {});
    StreamStep(text, [], Drained([Say(text)], "", {}), 1, {});
    StreamEnd(1, {});
    ProseOf([], text, Fallback(1, {}), [card]);
    assert [] + ([Say(text)] + Fallback(1, {})) == [Say(text)] + Fallback(1, {});
  }
}
