/** Placing staged cards at their markers: the batch form (app/viz_placement.py), the streaming form
    (app/agent_node.py) as a function of its pending text, and the agreement of the two. */
module VizPlacement {
  import opened Text
  import opened Emissions

  /** One thing the placement shows: a piece of text, or the staged card with an index. */
  datatype Item = Say(text: string) | Show(index: nat)

  datatype Placed = Placed(out: seq<Item>, emitted: set<nat>)

  /** A piece of text is shown only when there is any. */
  function Spoken(text: string): seq<Item> {
    if text == "" then [] else [Say(text)]
  }

  /** Every card shown is one of the first `n` staged. */
  predicate Fits(out: seq<Item>, n: nat) {
    forall item | item in out && item.Show? :: item.index < n
  }

  /** The emissions that show `out` when `cards` are staged. */
  function Resolve(out: seq<Item>, cards: seq<Card>): seq<Emission>
    requires Fits(out, |cards|)
  {
    if out == [] then []
    else [if out[0].Say? then Delta(out[0].text) else Viz(cards[out[0].index])] + Resolve(out[1..], cards)
  }

  lemma {:induction false} ResolveSplit(a: seq<Item>, b: seq<Item>, cards: seq<Card>)
    requires Fits(a, |cards|) && Fits(b, |cards|)
    ensures Fits(a + b, |cards|) && Resolve(a + b, cards) == Resolve(a, cards) + Resolve(b, cards)
  {
    if a == [] {
      assert a + b == b;
    } else {
      assert (a + b)[1..] == a[1..] + b;
      ResolveSplit(a[1..], b, cards);
    }
  }

  lemma SpokenResolves(text: string, cards: seq<Card>, rest: seq<Emission>)
    ensures Fits(Spoken(text), |cards|)
    ensures Merged(Resolve(Spoken(text), cards) + rest) == Merged([Delta(text)] + rest)
  {
    if text == "" {
      MergedEmpty(rest);
      assert Resolve([], cards) + rest == rest;
    } else {
      assert [Say(text)][1..] == [];
      assert Resolve([Say(text)], cards) == [Delta(text)];
    }
  }

  // ----- Marker values

  /** Whether a marker value names a staged card that has not been shown yet. */
  predicate Names(value: string, n: nat, emitted: set<nat>) {
    IsDigits(value) && 1 <= ToNumber(value) <= n && ToNumber(value) - 1 !in emitted
  }

  /** What a closed marker shows. */
  function CardOf(value: string, n: nat, emitted: set<nat>): (p: Placed)
    ensures Fits(p.out, n)
  {
    if Names(value, n, emitted) then
      var index := ToNumber(value) - 1;
      Placed([Show(index)], emitted + {index})
    else Placed([], emitted)
  }

  /** The cards that no marker has shown, in the order of their staging. */
  function Fallback(n: nat, emitted: set<nat>): (out: seq<Item>)
    ensures forall i: nat :: Show(i) in out <==> i < n && i !in emitted
    ensures forall item | item in out :: item.Show?
    ensures Fits(out, n)
  {
    if n == 0 then [] else Fallback(n - 1, emitted) + if n - 1 in emitted then [] else [Show(n - 1)]
  }

  /** What the fallback shows of one card. */
  function OneLeft(i: nat, emitted: set<nat>): seq<Item> {
    if i in emitted then [] else [Show(i)]
  }

  lemma FallbackStep(n: nat, emitted: set<nat>)
    ensures Fallback(n + 1, emitted) == Fallback(n, emitted) + OneLeft(n, emitted)
  {
  }

  /** No card twice. */
  lemma {:induction false} FallbackOnce(n: nat, emitted: set<nat>)
    ensures forall j, k | 0 <= j < k < |Fallback(n, emitted)| :: Fallback(n, emitted)[j] != Fallback(n, emitted)[k]
  {
    if n > 0 {
      FallbackOnce(n - 1, emitted);
      var init := Fallback(n - 1, emitted);
      assert forall j | 0 <= j < |init| :: init[j] in init;
    }
  }

  // ----- The batch form

  function Before(out: seq<Item>, p: Placed): Placed {
    Placed(out + p.out, p.emitted)
  }

  function Batch(text: string, n: nat, emitted: set<nat>): (p: Placed)
    ensures Fits(p.out, n)
    decreases |text|, 1
  {
    var m := Find(text, MARKER);
    if m == |text| then Placed(Spoken(text), emitted)
    else Before(Spoken(text[..m]), BatchMarker(text[m + |MARKER|..], n, emitted))
  }

  /** The batch form behind a marker opening. */
  function BatchMarker(body: string, n: nat, emitted: set<nat>): (p: Placed)
    ensures Fits(p.out, n)
    decreases |body|, 2
  {
    var e := Find(body, CLOSE);
    if e == |body| || Find(body, MARKER) < e then Batch(body[FindSpace(body)..], n, emitted)
    else
      var card := CardOf(body[..e], n, emitted);
      Before(card.out, Batch(DropJunk(body[e + 2..]), n, card.emitted))
  }

  /** The text with its cards from here on, and behind it the cards that it does not place. */
  function BatchFrom(text: string, n: nat, emitted: set<nat>): (out: seq<Item>)
    ensures Fits(out, n)
  {
    var p := Batch(text, n, emitted);
    p.out + Fallback(n, p.emitted)
  }

  /** `_append_delta`: text joins the text it follows. */
  function AppendDelta(chunks: seq<Emission>, text: string): seq<Emission> {
    if text == "" then chunks
    else if chunks != [] && chunks[|chunks| - 1].Delta? then
      chunks[..|chunks| - 1] + [Delta(chunks[|chunks| - 1].text + text)]
    else chunks + [Delta(text)]
  }

  lemma AppendDeltaMerges(chunks: seq<Emission>, text: string, rest: seq<Emission>)
    requires IsMerged(chunks)
    ensures IsMerged(AppendDelta(chunks, text))
    ensures Merged(AppendDelta(chunks, text) + rest) == Merged(chunks + ([Delta(text)] + rest))
  {
    hide Merged;
    if text == "" {
      MergedEmpty(rest);
      MergedBehind(chunks, rest, [Delta("")] + rest);
    } else if chunks != [] && chunks[|chunks| - 1].Delta? {
      var init := chunks[..|chunks| - 1];
      var last := chunks[|chunks| - 1].text;
      MergedJoin(last, text, rest);
      MergedBehind(init, [Delta(last + text)] + rest, [Delta(last), Delta(text)] + rest);
      assert init + [Delta(last + text)] + rest == init + ([Delta(last + text)] + rest);
      assert chunks + ([Delta(text)] + rest) == init + ([Delta(last), Delta(text)] + rest);
    } else {
      assert chunks + [Delta(text)] + rest == chunks + ([Delta(text)] + rest);
    }
  }

  /** What a loop that has put out `placed` and stands before `text` still has to show. */
  ghost predicate StillShows(placed: seq<Emission>, text: string, emitted: set<nat>, cards: seq<Card>,
                             goal: seq<Emission>) {
    Merged(placed + Resolve(BatchFrom(text, |cards|, emitted), cards)) == goal
  }

  lemma StillShowsText(placed: seq<Emission>, text: string, m: nat, emitted: set<nat>, cards: seq<Card>,
                       goal: seq<Emission>)
    requires StillShows(placed, text, emitted, cards, goal) && IsMerged(placed)
    requires m == Find(text, MARKER) < |text|
    ensures var p := BatchMarker(text[m + |MARKER|..], |cards|, emitted);
            && IsMerged(AppendDelta(placed, text[..m]))
            && Fits(p.out + Fallback(|cards|, p.emitted), |cards|)
            && goal == Merged(AppendDelta(placed, text[..m])
                              + Resolve(p.out + Fallback(|cards|, p.emitted), cards))
  {
    hide Merged, Resolve, BatchMarker, Find, AppendDelta, Fallback;
    var p := BatchMarker(text[m + |MARKER|..], |cards|, emitted);
    var rest := p.out + Fallback(|cards|, p.emitted);
    assert BatchFrom(text, |cards|, emitted) == Spoken(text[..m]) + rest;
    ResolveSplit(Spoken(text[..m]), rest, cards);
    AppendDeltaMerges(placed, text[..m], Resolve(rest, cards));
    SpokenResolves(text[..m], cards, Resolve(rest, cards));
    MergedBehind(placed, Resolve(Spoken(text[..m]), cards) + Resolve(rest, cards),
                 [Delta(text[..m])] + Resolve(rest, cards));
  }

  lemma StillShowsCard(placed: seq<Emission>, body: string, emitted: set<nat>, cards: seq<Card>,
                       goal: seq<Emission>)
    requires var e := Find(body, CLOSE); e < |body| && !(Find(body, MARKER) < e)
    requires var p := BatchMarker(body, |cards|, emitted);
             goal == Merged(placed + Resolve(p.out + Fallback(|cards|, p.emitted), cards))
    ensures var e := Find(body, CLOSE);
            var card := CardOf(body[..e], |cards|, emitted);
            StillShows(placed + Resolve(card.out, cards), DropJunk(body[e + 2..]), card.emitted, cards, goal)
  {
    hide Merged, Resolve, Batch, Find, Fallback, CardOf, DropJunk;
    var e := Find(body, CLOSE);
    var card := CardOf(body[..e], |cards|, emitted);
    var rest := BatchFrom(DropJunk(body[e + 2..]), |cards|, card.emitted);
    var p := BatchMarker(body, |cards|, emitted);
    assert p.out + Fallback(|cards|, p.emitted) == card.out + rest;
    ResolveSplit(card.out, rest, cards);
    assert placed + (Resolve(card.out, cards) + Resolve(rest, cards))
        == placed + Resolve(card.out, cards) + Resolve(rest, cards);
  }

  lemma StillShowsEnd(placed: seq<Emission>, text: string, emitted: set<nat>, cards: seq<Card>,
                      goal: seq<Emission>)
    requires StillShows(placed, text, emitted, cards, goal) && IsMerged(placed)
    requires Find(text, MARKER) == |text|
    ensures AppendDelta(placed, text) + Resolve(Fallback(|cards|, emitted), cards) == goal
  {
    hide Merged, Find, AppendDelta, Fallback;
    var back := Fallback(|cards|, emitted);
    assert BatchFrom(text, |cards|, emitted) == Spoken(text) + back;
    ResolveSplit(Spoken(text), back, cards);
    AppendDeltaMerges(placed, text, Resolve(back, cards));
    SpokenResolves(text, cards, Resolve(back, cards));
    MergedBehind(placed, Resolve(Spoken(text), cards) + Resolve(back, cards), [Delta(text)] + Resolve(back, cards));
    CardsResolve(back, cards);
    MergedOfMerged(AppendDelta(placed, text) + Resolve(back, cards));
  }

  lemma CardsResolve(out: seq<Item>, cards: seq<Card>)
    requires Fits(out, |cards|) && forall item | item in out :: item.Show?
    ensures |Resolve(out, cards)| == |out|
    ensures forall i | 0 <= i < |out| :: Resolve(out, cards)[i].Viz?
  {
    if out != [] {
      assert out[0] in out && forall item | item in out[1..] :: item in out;
      CardsResolve(out[1..], cards);
    }
  }

  lemma Behind(t: string, i: nat, j: nat)
    requires i + j <= |t|
    ensures t[i..][j..] == t[i + j..]
  {
  }

  /** `_marker_junk_end`: the position behind the closing brackets at `cursor`. */
  function MarkerJunkEnd(text: string, cursor: nat): (end: nat)
    requires cursor <= |text|
    ensures cursor <= end <= |text| && text[end..] == DropJunk(text[cursor..])
    decreases |text| - cursor
  {
    if cursor < |text| && text[cursor] == ']' then
      assert text[cursor..][1..] == text[cursor + 1..];
      MarkerJunkEnd(text, cursor + 1)
    else cursor
  }

  /** Behind a marker opening, with the body from there, the whole answer is still on its way to `goal`. */
  ghost predicate StillPlaces(placed: seq<Emission>, body: string, emitted: set<nat>, cards: seq<Card>,
                              goal: seq<Emission>) {
    var p := BatchMarker(body, |cards|, emitted);
    IsMerged(placed) && goal == Merged(placed + Resolve(p.out + Fallback(|cards|, p.emitted), cards))
  }

  /** The part of the loop that deals with one marker, whose body starts at `bodyStart`. */
  method PlaceMarker(finalText: string, bodyStart: nat, placed: seq<Emission>, emittedIndexes: set<nat>,
                     stagedSpecs: seq<Card>, ghost goal: seq<Emission>)
    returns (cursor: nat, placed': seq<Emission>, emitted': set<nat>)
    requires bodyStart <= |finalText|
    requires StillPlaces(placed, finalText[bodyStart..], emittedIndexes, stagedSpecs, goal)
    ensures bodyStart <= cursor <= |finalText| && IsMerged(placed')
    ensures StillShows(placed', finalText[cursor..], emitted', stagedSpecs, goal)
  {
    hide Resolve, Find, StillPlaces, StillShows, FindSpace, IsMerged, CardOf, MarkerJunkEnd;
    cursor, placed', emitted' := bodyStart, placed, emittedIndexes;
    var body := finalText[bodyStart..];
    var markerEnd := Find(body, CLOSE);
    if markerEnd == |body| || Find(body, MARKER) < markerEnd {
      SkipsMarker(finalText, bodyStart, placed, emittedIndexes, stagedSpecs, goal);
      cursor := bodyStart + FindSpace(body);
    } else {
      TakesMarker(finalText, bodyStart, placed, emittedIndexes, stagedSpecs, goal);
      var card := CardOf(body[..markerEnd], |stagedSpecs|, emittedIndexes);
      placed' := placed + Resolve(card.out, stagedSpecs);
      emitted' := card.emitted;
      cursor := MarkerJunkEnd(finalText, bodyStart + markerEnd + 2);
    }
  }

  lemma {:induction false} SkipsMarker(text: string, start: nat, placed: seq<Emission>, emitted: set<nat>,
                                       cards: seq<Card>, goal: seq<Emission>)
    requires start <= |text| && StillPlaces(placed, text[start..], emitted, cards, goal)
    requires var e := Find(text[start..], CLOSE); e == |text[start..]| || Find(text[start..], MARKER) < e
    ensures StillShows(placed, text[start + FindSpace(text[start..])..], emitted, cards, goal) && IsMerged(placed)
  {
    hide Merged, Resolve, BatchMarker, Find, Fallback, StillShows, FindSpace, IsMerged;
    StillShowsOn(placed, text[start..], emitted, cards, goal);
    Behind(text, start, FindSpace(text[start..]));
  }

  lemma {:induction false} TakesMarker(text: string, start: nat, placed: seq<Emission>, emitted: set<nat>,
                                       cards: seq<Card>, goal: seq<Emission>)
    requires start <= |text| && StillPlaces(placed, text[start..], emitted, cards, goal)
    requires var e := Find(text[start..], CLOSE); e < |text[start..]| && !(Find(text[start..], MARKER) < e)
    ensures var e := Find(text[start..], CLOSE);
            var card := CardOf(text[start..][..e], |cards|, emitted);
            && start + e + 2 <= |text|
            && IsMerged(placed + Resolve(card.out, cards))
            && StillShows(placed + Resolve(card.out, cards), text[MarkerJunkEnd(text, start + e + 2)..], card.emitted,
                          cards, goal)
  {
    hide Merged, Resolve, BatchMarker, Find, Fallback, StillShows, FindSpace, DropJunk, IsMerged, CardOf, MarkerJunkEnd;
    var e := Find(text[start..], CLOSE);
    StillShowsCard(placed, text[start..], emitted, cards, goal);
    CardKeepsMerged(placed, text[start..][..e], emitted, cards);
    Behind(text, start, e + 2);
  }

  /** The batch form, with its cursor over the text and its growing list of chunks. */
  method ChunksFromVizMarkers(finalText: string, stagedSpecs: seq<Card>) returns (chunks: seq<Emission>)
    ensures chunks == Merged(Resolve(BatchFrom(finalText, |stagedSpecs|, {}), stagedSpecs))
  {
    hide Merged, Resolve, BatchFrom, BatchMarker, Find, AppendDelta, Fallback, StillShows, IsMerged;
    ghost var goal := Merged(Resolve(BatchFrom(finalText, |stagedSpecs|, {}), stagedSpecs));
    var emittedIndexes: set<nat> := {};
    var placed: seq<Emission> := [];
    var cursor := 0;
    StillShowsStart(finalText, stagedSpecs);
    var m := Find(finalText, MARKER);
    while m < |finalText| - cursor
      invariant cursor <= |finalText| && m == Find(finalText[cursor..], MARKER)
      invariant IsMerged(placed)
      invariant StillShows(placed, finalText[cursor..], emittedIndexes, stagedSpecs, goal)
      decreases |finalText| - cursor
    {
      StillShowsText(placed, finalText[cursor..], m, emittedIndexes, stagedSpecs, goal);
      placed := AppendDelta(placed, finalText[cursor..][..m]);
      Behind(finalText, cursor, m + |MARKER|);
      cursor, placed, emittedIndexes :=
        PlaceMarker(finalText, cursor + m + |MARKER|, placed, emittedIndexes, stagedSpecs, goal);
      m := Find(finalText[cursor..], MARKER);
    }
    StillShowsEnd(placed, finalText[cursor..], emittedIndexes, stagedSpecs, goal);
    chunks := AppendDelta(placed, finalText[cursor..]) + Resolve(Fallback(|stagedSpecs|, emittedIndexes), stagedSpecs);
  }

  lemma StillShowsStart(text: string, cards: seq<Card>)
    ensures IsMerged([]) && text[0..] == text
    ensures StillShows([], text, {}, cards, Merged(Resolve(BatchFrom(text, |cards|, {}), cards)))
  {
    hide Merged, Resolve, BatchFrom;
    var whole := Resolve(BatchFrom(text, |cards|, {}), cards);
    assert [] + whole == whole;
  }

  lemma StillShowsOn(placed: seq<Emission>, body: string, emitted: set<nat>, cards: seq<Card>, goal: seq<Emission>)
    requires var e := Find(body, CLOSE); e == |body| || Find(body, MARKER) < e
    requires var p := BatchMarker(body, |cards|, emitted);
             goal == Merged(placed + Resolve(p.out + Fallback(|cards|, p.emitted), cards))
    ensures StillShows(placed, body[FindSpace(body)..], emitted, cards, goal)
  {
    hide Merged, Resolve, Batch, Find, Fallback, FindSpace;
  }

  lemma CardKeepsMerged(placed: seq<Emission>, value: string, emitted: set<nat>, cards: seq<Card>)
    requires IsMerged(placed)
    ensures IsMerged(placed + Resolve(CardOf(value, |cards|, emitted).out, cards))
  {
    var out := CardOf(value, |cards|, emitted).out;
    CardsResolve(out, cards);
  }

  // ----- The streaming form

  datatype Drained = Drained(out: seq<Item>, pending: string, emitted: set<nat>)

  function Ahead(out: seq<Item>, d: Drained): Drained {
    d.(out := out + d.out)
  }

  /** What draining the pending text shows, and what stays pending. */
  function Drain(pending: string, n: nat, emitted: set<nat>, final: bool): (d: Drained)
    ensures Fits(d.out, n)
    decreases |pending|, 1
  {
    var m := Find(pending, MARKER);
    if m == |pending| then
      var keep := if final then 0 else TrailingMarkerPrefixLen(pending);
      Drained(Spoken(pending[..|pending| - keep]), pending[|pending| - keep..], emitted)
    else Ahead(Spoken(pending[..m]), DrainMarker(pending[m..], n, emitted, final))
  }

  /** Draining when the pending text starts with a marker opening. */
  function DrainMarker(pending: string, n: nat, emitted: set<nat>, final: bool): (d: Drained)
    requires |MARKER| <= |pending|
    ensures Fits(d.out, n)
    decreases |pending|, 0
  {
    var body := pending[|MARKER|..];
    var e := Find(body, CLOSE);
    if e == |body| then
      var w := FindSpace(body);
      if w == |body| then Drained([], if final then "" else pending, emitted)
      else Drain(body[w..], n, emitted, final)
    else
      var card := CardOf(body[..e], n, emitted);
      Ahead(card.out, Drain(DropJunk(body[e + 2..]), n, card.emitted, final))
  }

  /** The final flush of the pending text with the fallback behind it. */
  function FlushAll(pending: string, n: nat, emitted: set<nat>): (out: seq<Item>)
    ensures Fits(out, n)
  {
    var d := Drain(pending, n, emitted, true);
    d.out + Fallback(n, d.emitted)
  }

  /** Feeding the chunks one after the other and flushing. An empty chunk is not fed. */
  function StreamAll(pending: string, chunks: seq<string>, n: nat, emitted: set<nat>): (out: seq<Item>)
    ensures Fits(out, n)
    decreases |chunks|
  {
    if chunks == [] then FlushAll(pending, n, emitted)
    else if chunks[0] == "" then StreamAll(pending, chunks[1..], n, emitted)
    else
      var d := Drain(pending + chunks[0], n, emitted, false);
      d.out + StreamAll(d.pending, chunks[1..], n, d.emitted)
  }

  // ----- Texts for which the chunking does not matter

  /** A marker body is never closed at all, or it is closed before any whitespace and by exactly two brackets. */
  predicate ClosedInTime(body: string) {
    var e := Find(body, CLOSE);
    e == |body| || (e < FindSpace(body) && (e + 2 < |body| ==> body[e + 2] != ']'))
  }

  /** Every marker that a drain of the whole text comes to is closed in time. */
  predicate CutSafe(text: string)
    decreases |text|
  {
    var m := Find(text, MARKER);
    m == |text|
    || (var body := text[m + |MARKER|..];
        var e := Find(body, CLOSE);
        ClosedInTime(body) && (e == |body| || CutSafe(body[e + 2..])))
  }

  /** Closed in time, and no further marker opens before the closing pair. */
  predicate ClosedCleanly(body: string) {
    ClosedInTime(body) && (Find(body, CLOSE) == |body| || Find(body, CLOSE) < Find(body, MARKER))
  }

  ghost predicate Tidy(text: string) {
    forall i: nat | At(text, MARKER, i) :: ClosedCleanly(text[i + |MARKER|..])
  }

  lemma TidyBehind(text: string, k: nat)
    requires Tidy(text) && k <= |text|
    ensures Tidy(text[k..])
  {
    hide ClosedCleanly;
    forall i: nat | At(text[k..], MARKER, i)
      ensures ClosedCleanly(text[k..][i + |MARKER|..])
    {
      assert text[k..][i..i + |MARKER|] == text[k + i..k + i + |MARKER|];
      assert At(text, MARKER, k + i);
      assert text[k..][i + |MARKER|..] == text[k + i + |MARKER|..];
    }
  }

  /** What is found stands there. */
  lemma FoundStarts(t: string, p: string)
    requires p != "" && Find(t, p) < |t|
    ensures Find(t, p) + |p| <= |t| && p <= t[Find(t, p)..]
  {
    hide Find;
  }

  lemma AtInLonger(t: string, rest: string, p: string, i: nat)
    requires i + |p| <= |t|
    ensures At(t + rest, p, i) <==> At(t, p, i)
  {
    assert (t + rest)[i..i + |p|] == t[i..i + |p|];
  }

  /** An occurrence that appears only when more text follows reaches into it. */
  lemma FindReachesIntoRest(t: string, rest: string, p: string)
    requires p != "" && Find(t, p) == |t|
    ensures Find(t + rest, p) + |p| > |t|
  {
    hide Find, At;
    var k := Find(t + rest, p);
    if k + |p| <= |t| {
      AtInLonger(t, rest, p, k);
    }
  }

  lemma FindBehind(a: string, b: string, p: string)
    requires p != "" && forall i: nat | i < |a| :: !At(a + b, p, i)
    ensures Find(a + b, p) == |a| + Find(b, p)
  {
    hide Find;
    var k := Find(a + b, p);
    var i := Find(b, p);
    assert k >= |a|;
    assert i + |p| <= |b| ==> (a + b)[|a| + i..|a| + i + |p|] == b[i..i + |p|];
    assert k + |p| <= |a + b| ==> (a + b)[k..k + |p|] == b[k - |a|..k - |a| + |p|];
    if i < |b| {
      assert At(a + b, p, |a| + i);
    }
    if k < |a + b| {
      assert At(b, p, k - |a|);
    }
  }

  lemma FindSpaceInLonger(t: string, rest: string)
    requires FindSpace(t) < |t|
    ensures FindSpace(t + rest) == FindSpace(t)
  {
    hide FindSpace, IsSpace;
    var i := FindSpace(t);
    assert (t + rest)[i] == t[i];
    var k := FindSpace(t + rest);
    assert k < |t| ==> (t + rest)[k] == t[k];
  }

  lemma NoJunk(t: string)
    requires t != "" ==> t[0] != ']'
    ensures DropJunk(t) == t
  {
  }

  /** Text in which no marker begins decides nothing. */
  lemma {:induction false} SafeBehind(a: string, b: string)
    requires forall i: nat | i < |a| :: !At(a + b, MARKER, i)
    ensures CutSafe(a + b) <==> CutSafe(b)
  {
    hide Find, ClosedInTime, At;
    FindBehind(a, b, MARKER);
    var m := Find(b, MARKER);
    if m < |b| {
      FoundStarts(b, MARKER);
      assert (a + b)[|a| + m + |MARKER|..] == b[m + |MARKER|..];
    }
  }

  /** Whether a text that starts with a marker is safe is decided by its body and by what follows the marker. */
  lemma {:induction false} SafeMarker(text: string, body: string)
    requires text == MARKER + body
    ensures CutSafe(text) <==>
            ClosedInTime(body) && (Find(body, CLOSE) == |body| || CutSafe(body[Find(body, CLOSE) + 2..]))
  {
    hide ClosedInTime, Find;
    assert text[0..0 + |MARKER|] == MARKER;
    assert At(text, MARKER, 0);
    assert text[|MARKER|..] == body;
  }

  /** Where no pair of brackets closes anything, nothing depends on the cut. */
  lemma {:induction false} NoCloseIsSafe(text: string)
    requires Find(text, CLOSE) == |text|
    ensures CutSafe(text)
  {
    hide Find;
    var m := Find(text, MARKER);
    if m < |text| {
      NoCloseBehind(text, m + |MARKER|);
    }
  }

  lemma NoCloseBehind(text: string, k: nat)
    requires Find(text, CLOSE) == |text| && k <= |text|
    ensures Find(text[k..], CLOSE) == |text[k..]|
  {
    hide Find;
    var body := text[k..];
    var e := Find(body, CLOSE);
    assert e + 2 <= |body| ==> text[k + e..k + e + 2] == body[e..e + 2];
    assert At(body, CLOSE, e) ==> At(text, CLOSE, k + e);
  }

  // ----- The drain agrees with the flush of the whole text

  /** The flush of a text that is empty or starts with a marker opening. */
  function FlushMarker(text: string, n: nat, emitted: set<nat>): (out: seq<Item>)
    requires text != "" ==> |MARKER| <= |text|
    ensures Fits(out, n)
  {
    if text == "" then Fallback(n, emitted)
    else
      var d := DrainMarker(text, n, emitted, true);
      d.out + Fallback(n, d.emitted)
  }

  lemma FlushFromFirst(text: string, n: nat, emitted: set<nat>)
    ensures var m := Find(text, MARKER);
            FlushAll(text, n, emitted) == Spoken(text[..m]) + FlushMarker(text[m..], n, emitted)
  {
    hide DrainMarker, Find;
    assert text[..|text|] == text;
  }

  /** Text spoken ahead of a flush is as good as flushed with it, when no marker starts in it. */
  lemma SpeakAhead(a: string, b: string, n: nat, emitted: set<nat>, cards: seq<Card>)
    requires n == |cards|
    requires forall i: nat | i < |a| :: !At(a + b, MARKER, i)
    ensures Merged(Resolve(FlushAll(a + b, n, emitted), cards))
         == Merged([Delta(a)] + Resolve(FlushAll(b, n, emitted), cards))
  {
    hide Find, Resolve, Merged, FlushAll, FlushMarker;
    FindBehind(a, b, MARKER);
    var m := Find(b, MARKER);
    FlushFromFirst(a + b, n, emitted);
    FlushFromFirst(b, n, emitted);
    assert (a + b)[..|a| + m] == a + b[..m];
    assert (a + b)[|a| + m..] == b[m..];
    SpokenSplit(a, b[..m], FlushMarker(b[m..], n, emitted), cards);
  }

  lemma SpokenSplit(a: string, b: string, last: seq<Item>, cards: seq<Card>)
    requires Fits(last, |cards|)
    ensures Fits(Spoken(a + b) + last, |cards|) && Fits(Spoken(b) + last, |cards|)
    ensures Merged(Resolve(Spoken(a + b) + last, cards)) == Merged([Delta(a)] + Resolve(Spoken(b) + last, cards))
  {
    hide Resolve, Merged;
    var rest := Resolve(last, cards);
    SpokenResolves(a + b, cards, rest);
    SpokenResolves(b, cards, rest);
    ResolveSplit(Spoken(a + b), last, cards);
    ResolveSplit(Spoken(b), last, cards);
    MergedJoin(a, b, rest);
    MergedBehind([Delta(a)], [Delta(b)] + rest, Resolve(Spoken(b), cards) + rest);
    assert [Delta(a)] + ([Delta(b)] + rest) == [Delta(a), Delta(b)] + rest;
  }

  predicate EndsWith(t: string, u: string) {
    |u| <= |t| && u == t[|t| - |u|..]
  }

  lemma EndsWithBehind(t: string, k: nat, u: string)
    requires k <= |t| && EndsWith(t[k..], u)
    ensures EndsWith(t, u)
  {
    assert t[k..][|t[k..]| - |u|..] == t[|t| - |u|..];
  }

  /** What stays pending is an end of what was pending: the text is consumed from the front, without gaps. */
  lemma {:induction false} DrainLeavesEnd(pending: string, n: nat, emitted: set<nat>, final: bool)
    ensures EndsWith(pending, Drain(pending, n, emitted, final).pending)
    decreases |pending|, 1
  {
    hide Find, EndsWith, CardOf, DrainMarker;
    var m := Find(pending, MARKER);
    if m == |pending| {
      EndsWithRest(pending, |pending| - (if final then 0 else TrailingMarkerPrefixLen(pending)));
    } else {
      DrainMarkerLeavesEnd(pending[m..], n, emitted, final);
      EndsWithBehind(pending, m, DrainMarker(pending[m..], n, emitted, final).pending);
    }
  }

  lemma EndsWithRest(t: string, k: nat)
    requires k <= |t|
    ensures EndsWith(t, t[k..])
  {
  }

  lemma {:induction false} DrainMarkerLeavesEnd(pending: string, n: nat, emitted: set<nat>, final: bool)
    requires |MARKER| <= |pending|
    ensures EndsWith(pending, DrainMarker(pending, n, emitted, final).pending)
    decreases |pending|, 0
  {
    hide Find, EndsWith, CardOf, Drain, DropJunk, FindSpace;
    var body := pending[|MARKER|..];
    var e := Find(body, CLOSE);
    if e == |body| {
      var w := FindSpace(body);
      EndsWithRest(pending, 0);
      EndsWithRest(pending, |pending|);
      assert pending[0..] == pending && pending[|pending|..] == "";
      if w < |body| {
        DrainLeavesEnd(body[w..], n, emitted, final);
        EndsWithBehind(body, w, Drain(body[w..], n, emitted, final).pending);
        EndsWithBehind(pending, |MARKER|, Drain(body[w..], n, emitted, final).pending);
      }
    } else {
      var card := CardOf(body[..e], n, emitted);
      var rest := DropJunk(body[e + 2..]);
      DrainLeavesEnd(rest, n, card.emitted, final);
      var k := |body| - |rest|;
      DropJunkMeans(body[e + 2..]);
      assert body[k..] == body[e + 2..][|body[e + 2..]| - |rest|..];
      EndsWithBehind(body, k, Drain(rest, n, card.emitted, final).pending);
      EndsWithBehind(pending, |MARKER|, Drain(rest, n, card.emitted, final).pending);
    }
  }

  /** Draining now and flushing the rest later shows what one flush of the whole text shows. */
  ghost predicate DrainsLike(d: Drained, r: string, n: nat, whole: seq<Item>, cards: seq<Card>)
    requires n == |cards| && Fits(d.out, n) && Fits(whole, n)
  {
    Merged(Resolve(d.out, cards) + Resolve(FlushAll(d.pending + r, n, d.emitted), cards))
    == Merged(Resolve(whole, cards))
  }

  lemma DrainsLikeAhead(out: seq<Item>, d: Drained, r: string, n: nat, whole: seq<Item>, cards: seq<Card>)
    requires n == |cards| && Fits(out, n) && Fits(d.out, n) && Fits(whole, n)
    requires DrainsLike(d, r, n, whole, cards)
    ensures Fits(out + d.out, n) && Fits(out + whole, n)
    ensures DrainsLike(Ahead(out, d), r, n, out + whole, cards)
  {
    hide Merged, Resolve, FlushAll;
    ResolveSplit(out, d.out, cards);
    ResolveSplit(out, whole, cards);
    var later := Resolve(FlushAll(d.pending + r, n, d.emitted), cards);
    MergedBehind(Resolve(out, cards), Resolve(d.out, cards) + later, Resolve(whole, cards));
    assert Resolve(out, cards) + Resolve(d.out, cards) + later
        == Resolve(out, cards) + (Resolve(d.out, cards) + later);
  }

  /** The flush of a text that starts with a marker is the marker's. */
  lemma MarkerFirst(text: string, n: nat, emitted: set<nat>)
    requires MARKER <= text
    ensures FlushAll(text, n, emitted) == FlushMarker(text, n, emitted)
  {
    hide FlushAll, FlushMarker, Find;
    assert At(text, MARKER, 0);
    FlushFromFirst(text, n, emitted);
    assert text[..0] == "" && text[0..] == text;
    assert Spoken("") + FlushMarker(text, n, emitted) == FlushMarker(text, n, emitted);
  }

  /** Draining text without a marker. */
  lemma DrainWithoutMarker(p: string, n: nat, emitted: set<nat>, final: bool)
    requires Find(p, MARKER) == |p|
    ensures var keep := if final then 0 else TrailingMarkerPrefixLen(p);
            Drain(p, n, emitted, final) == Drained(Spoken(p[..|p| - keep]), p[|p| - keep..], emitted)
  {
  }

  /** Nothing starts in the text that is shown before the end that is held back. */
  lemma {:induction false} HoldBackThenFlush(q: string, r: string, n: nat, emitted: set<nat>, cards: seq<Card>)
    requires n == |cards| && Find(q, MARKER) == |q|
    ensures DrainsLike(Drain(q, n, emitted, false), r, n, FlushAll(q + r, n, emitted), cards)
  {
    NoneBeforeHeld(q, r);
    hide FlushAll, Resolve, Merged, TrailingMarkerPrefixLen, Find, At, Drain, Spoken;
    var k := |q| - TrailingMarkerPrefixLen(q);
    DrainWithoutMarker(q, n, emitted, false);
    SpokenThenFlush(q[..k], q[k..] + r, n, emitted, cards);
  }

  lemma SpokenThenFlush(a: string, b: string, n: nat, emitted: set<nat>, cards: seq<Card>)
    requires n == |cards| && forall i: nat | i < |a| :: !At(a + b, MARKER, i)
    ensures Fits(Spoken(a), |cards|)
    ensures Merged(Resolve(Spoken(a), cards) + Resolve(FlushAll(b, n, emitted), cards))
         == Merged(Resolve(FlushAll(a + b, n, emitted), cards))
  {
    hide FlushAll, Resolve, Merged, At, Spoken;
    SpeakAhead(a, b, n, emitted, cards);
    SpokenResolves(a, cards, Resolve(FlushAll(b, n, emitted), cards));
  }

  /** Whatever follows, no marker begins in front of the text held back. */
  lemma {:induction false} NoneBeforeHeld(q: string, r: string)
    requires Find(q, MARKER) == |q|
    ensures TrailingMarkerPrefixLen(q) <= |q|
    ensures var k := |q| - TrailingMarkerPrefixLen(q);
            q[..k] + (q[k..] + r) == q + r && forall i: nat | i < |q[..k]| :: !At(q[..k] + (q[k..] + r), MARKER, i)
  {
    NeverFound(q, MARKER);
    hide TrailingPrefixLen, Find, MayBegin, At;
    var k := |q| - TrailingMarkerPrefixLen(q);
    assert q[..k] + (q[k..] + r) == q + r;
    forall i: nat | i < k
      ensures !At(q[..k] + (q[k..] + r), MARKER, i)
    {
      NoneBegins(q, r, i, MARKER);
      OccurrenceBegins(q + r, MARKER, i);
      assert (q + r)[i..] == q[i..] + r;
    }
  }

  lemma OccurrenceBegins(t: string, m: string, i: nat)
    requires m != "" && i < |t|
    ensures At(t, m, i) ==> MayBegin(t[i..], m)
  {
    assert i + |m| <= |t| ==> t[i..i + |m|] == t[i..][..|m|];
  }

  lemma FirstIsSafe(t: string, m: nat)
    requires CutSafe(t) && m == Find(t, MARKER)
    ensures CutSafe(t[m..])
  {
    hide CutSafe, Find, At;
    assert t == t[..m] + t[m..];
    assert forall i: nat | i < m :: !At(t, MARKER, i);
    SafeBehind(t[..m], t[m..]);
  }

  /** Draining what has arrived and flushing later shows what one flush of the whole text shows, when nothing more
      arrives and when the whole text is safe. */
  lemma {:induction false} DrainThenFlush(q: string, r: string, n: nat, emitted: set<nat>, cards: seq<Card>)
    requires n == |cards| && (r == "" || CutSafe(q + r))
    ensures DrainsLike(Drain(q, n, emitted, false), r, n, FlushAll(q + r, n, emitted), cards)
    decreases |q|, 1
  {
    hide Find, DrainMarker, FlushAll, DrainsLike, Resolve, Merged, TrailingPrefixLen, FlushMarker, CutSafe, At;
    var m := Find(q, MARKER);
    if m == |q| {
      HoldBackThenFlush(q, r, n, emitted, cards);
    } else {
      FoundStarts(q, MARKER);
      assert q + r == q[..m] + (q[m..] + r);
      assert (q + r)[m..] == q[m..] + r && (q + r)[..m] == q[..m];
      FindInLonger(q, r, MARKER);
      if r != "" {
        FirstIsSafe(q + r, m);
      }
      FlushFromFirst(q + r, n, emitted);
      MarkerFirst(q[m..] + r, n, emitted);
      DrainMarkerThenFlush(q[m..], r, n, emitted, cards);
      DrainsLikeAhead(Spoken(q[..m]), DrainMarker(q[m..], n, emitted, false), r, n,
                      FlushAll(q[m..] + r, n, emitted), cards);
    }
  }

  /** Draining behind an opening whose closing pair has not arrived. */
  lemma DrainUnclosed(p: string, n: nat, emitted: set<nat>, final: bool)
    requires |MARKER| <= |p| && Find(p[|MARKER|..], CLOSE) == |p[|MARKER|..]|
    ensures var body := p[|MARKER|..];
            var w := FindSpace(body);
            DrainMarker(p, n, emitted, final)
            == if w == |body| then Drained([], if final then "" else p, emitted)
               else Drain(body[w..], n, emitted, final)
  {
    hide Drain;
  }

  lemma {:induction false} DrainClosedMarker(p: string, n: nat, emitted: set<nat>, final: bool)
    requires |MARKER| <= |p| && Find(p[|MARKER|..], CLOSE) < |p[|MARKER|..]|
    ensures var body := p[|MARKER|..];
            var e := Find(body, CLOSE);
            var card := CardOf(body[..e], n, emitted);
            DrainMarker(p, n, emitted, final)
            == Ahead(card.out, Drain(DropJunk(body[e + 2..]), n, card.emitted, final))
  {
    hide Drain, Find, DropJunk, CardOf;
  }

  lemma {:induction false} DrainMarkerThenFlush(q: string, r: string, n: nat, emitted: set<nat>, cards: seq<Card>)
    requires n == |cards| && MARKER <= q && (r == "" || CutSafe(q + r))
    ensures DrainsLike(DrainMarker(q, n, emitted, false), r, n, FlushAll(q + r, n, emitted), cards)
    decreases |q|, 0
  {
    hide Find, FindSpace, FlushAll, DrainsLike, DropJunk, CutSafe, Drain, DrainMarker, CardOf, ClosedInTime;
    var b := q[|MARKER|..];
    assert q + r == MARKER + (b + r);
    SafeMarker(q + r, b + r);
    assert r == "" || ClosedInTime(b + r);
    var e := Find(b, CLOSE);
    if e == |b| {
      DrainUnclosed(q, n, emitted, false);
      var w := FindSpace(b);
      if w == |b| {
        NothingDrained(q, r, n, emitted, cards);
      } else {
        SpaceEndsBoth(b, r);
        FlushUnclosed(q + r, b + r, n, emitted);
        assert (b + r)[w..] == b[w..] + r;
        NoCloseBehind(b + r, w);
        NoCloseIsSafe(b[w..] + r);
        DrainThenFlush(b[w..], r, n, emitted, cards);
      }
    } else {
      DrainClosedMarker(q, n, emitted, false);
      ClosesBoth(b, r);
      FlushClosed(q + r, b + r, n, emitted);
      var card := CardOf(b[..e], n, emitted);
      var q' := DropJunk(b[e + 2..]);
      DrainThenFlush(q', r, n, card.emitted, cards);
      DrainsLikeAhead(card.out, Drain(q', n, card.emitted, false), r, n, FlushAll(q' + r, n, card.emitted), cards);
    }
  }

  /** The flush of a text that starts with a marker that whitespace ends. */
  lemma FlushUnclosed(text: string, body: string, n: nat, emitted: set<nat>)
    requires text == MARKER + body && Find(body, CLOSE) == |body| && FindSpace(body) < |body|
    ensures FlushAll(text, n, emitted) == FlushAll(body[FindSpace(body)..], n, emitted)
  {
    hide Find, FindSpace, FlushAll, Drain, DrainMarker;
    assert text[|MARKER|..] == body;
    MarkerFirst(text, n, emitted);
    DrainUnclosed(text, n, emitted, true);
    FlushGoesOn(body[FindSpace(body)..], n, emitted);
  }

  /** The flush of a text that starts with a closed marker. */
  lemma {:induction false} FlushClosed(text: string, body: string, n: nat, emitted: set<nat>)
    requires text == MARKER + body && Find(body, CLOSE) < |body|
    ensures var e := Find(body, CLOSE);
            var card := CardOf(body[..e], n, emitted);
            FlushAll(text, n, emitted) == card.out + FlushAll(DropJunk(body[e + 2..]), n, card.emitted)
  {
    hide Find, FlushAll, Drain, DrainMarker, CardOf, DropJunk;
    assert text[|MARKER|..] == body;
    MarkerFirst(text, n, emitted);
    DrainClosedMarker(text, n, emitted, true);
    var e := Find(body, CLOSE);
    FlushGoesOn(DropJunk(body[e + 2..]), n, CardOf(body[..e], n, emitted).emitted);
  }

  /** When whitespace has ended a marker body, no closing pair that arrives later can claim it. */
  lemma SpaceEndsBoth(b: string, r: string)
    requires Find(b, CLOSE) == |b| && FindSpace(b) < |b| && (r == "" || ClosedInTime(b + r))
    ensures Find(b + r, CLOSE) == |b + r| && FindSpace(b + r) == FindSpace(b)
  {
    hide Find, FindSpace;
    if r == "" {
      assert b + r == b;
    } else {
      FindReachesIntoRest(b, r, CLOSE);
      FindSpaceInLonger(b, r);
    }
  }

  /** What a closing pair closes stays closed by it, and what arrives later does not add to the junk behind it. */
  lemma {:induction false} ClosesBoth(b: string, r: string)
    requires Find(b, CLOSE) < |b| && (r == "" || ClosedInTime(b + r))
    ensures var e := Find(b, CLOSE);
            && Find(b + r, CLOSE) == e
            && (b + r)[..e] == b[..e]
            && (b + r)[e + 2..] == b[e + 2..] + r
            && DropJunk(b[e + 2..] + r) == DropJunk(b[e + 2..]) + r
            && (ClosedInTime(b + r) ==> DropJunk(b[e + 2..]) == b[e + 2..])
  {
    hide Find, FindSpace, DropJunk;
    FindInLonger(b, r, CLOSE);
    var e := Find(b, CLOSE);
    assert (b + r)[e + 2..] == b[e + 2..] + r;
    if r == "" {
      assert b[e + 2..] + r == b[e + 2..] && DropJunk(b[e + 2..]) + r == DropJunk(b[e + 2..]);
    }
    if ClosedInTime(b + r) {
      assert e + 2 < |b + r| ==> (b + r)[e + 2..][0] == (b + r)[e + 2];
      NoJunk(b[e + 2..]);
      NoJunk(b[e + 2..] + r);
    }
  }

  lemma TidyFirst(t: string, body: string)
    requires Tidy(t) && t == MARKER + body
    ensures ClosedCleanly(body)
  {
    hide ClosedCleanly;
    assert t[0..0 + |MARKER|] == MARKER;
    assert At(t, MARKER, 0);
    assert t[0 + |MARKER|..] == body;
  }

  lemma NothingDrained(q: string, r: string, n: nat, emitted: set<nat>, cards: seq<Card>)
    requires n == |cards|
    ensures DrainsLike(Drained([], q, emitted), r, n, FlushAll(q + r, n, emitted), cards)
  {
    hide FlushAll, Merged;
    var whole := Resolve(FlushAll(q + r, n, emitted), cards);
    assert Resolve([], cards) + whole == whole;
  }

  lemma FlushGoesOn(text: string, n: nat, emitted: set<nat>)
    ensures var d := Drain(text, n, emitted, true);
            FlushAll(text, n, emitted) == d.out + Fallback(n, d.emitted)
  {
    hide Drain;
  }

  // ----- The main results

  /** What a drain leaves pending is as safe, with what is still to come, as all of it was. */
  lemma {:induction false} DrainKeepsSafe(q: string, r: string, n: nat, emitted: set<nat>)
    requires CutSafe(q + r)
    ensures CutSafe(Drain(q, n, emitted, false).pending + r)
    decreases |q|, 1
  {
    hide Find, DrainMarker, TrailingPrefixLen, CutSafe, At;
    var m := Find(q, MARKER);
    if m == |q| {
      var k := |q| - TrailingMarkerPrefixLen(q);
      NoneBeforeHeld(q, r);
      SafeBehind(q[..k], q[k..] + r);
    } else {
      FoundStarts(q, MARKER);
      assert (q + r)[m..] == q[m..] + r;
      FindInLonger(q, r, MARKER);
      FirstIsSafe(q + r, m);
      DrainMarkerKeepsSafe(q[m..], r, n, emitted);
    }
  }

  lemma {:induction false} DrainMarkerKeepsSafe(q: string, r: string, n: nat, emitted: set<nat>)
    requires MARKER <= q && CutSafe(q + r)
    ensures CutSafe(DrainMarker(q, n, emitted, false).pending + r)
    decreases |q|, 0
  {
    hide Find, FindSpace, DropJunk, CutSafe, Drain, CardOf, ClosedInTime;
    var b := q[|MARKER|..];
    assert q + r == MARKER + (b + r);
    SafeMarker(q + r, b + r);
    var e := Find(b, CLOSE);
    if e == |b| {
      var w := FindSpace(b);
      if w < |b| {
        SpaceEndsBoth(b, r);
        assert (b + r)[w..] == b[w..] + r;
        NoCloseBehind(b + r, w);
        NoCloseIsSafe(b[w..] + r);
        DrainKeepsSafe(b[w..], r, n, emitted);
      }
    } else {
      ClosesBoth(b, r);
      DrainKeepsSafe(DropJunk(b[e + 2..]), r, n, CardOf(b[..e], n, emitted).emitted);
    }
  }

  /** Feeding a safe text in any chunks and flushing shows what one flush of the whole text shows. */
  lemma {:induction false} StreamIsFlush(pending: string, chunks: seq<string>, n: nat, emitted: set<nat>,
                                         cards: seq<Card>)
    requires n == |cards| && CutSafe(pending + Concat(chunks))
    ensures Merged(Resolve(StreamAll(pending, chunks, n, emitted), cards))
         == Merged(Resolve(FlushAll(pending + Concat(chunks), n, emitted), cards))
    decreases |chunks|
  {
    hide FlushAll, Merged, Resolve, CutSafe, Drain;
    if chunks == [] {
      assert pending + Concat(chunks) == pending;
    } else if chunks[0] == "" {
      assert Concat(chunks) == Concat(chunks[1..]);
      StreamIsFlush(pending, chunks[1..], n, emitted, cards);
    } else {
      var q := pending + chunks[0];
      var r := Concat(chunks[1..]);
      assert pending + Concat(chunks) == q + r;
      var d := Drain(q, n, emitted, false);
      DrainThenFlush(q, r, n, emitted, cards);
      DrainKeepsSafe(q, r, n, emitted);
      StreamIsFlush(d.pending, chunks[1..], n, d.emitted, cards);
      var later := StreamAll(d.pending, chunks[1..], n, d.emitted);
      ResolveSplit(d.out, later, cards);
      MergedBehind(Resolve(d.out, cards), Resolve(later, cards), Resolve(FlushAll(d.pending + r, n, d.emitted), cards));
    }
  }

  /** Tidy texts are safe. */
  lemma {:induction false} TidyIsSafe(text: string)
    requires Tidy(text)
    ensures CutSafe(text)
    decreases |text|
  {
    hide Find, Tidy, ClosedInTime;
    var m := Find(text, MARKER);
    if m < |text| {
      var body := text[m + |MARKER|..];
      TidyBehind(text, m);
      assert text[m..] == MARKER + body;
      TidyFirst(text[m..], body);
      if Find(body, CLOSE) < |body| {
        BodyIsTidy(text[m..], body, Find(body, CLOSE) + 2);
        TidyIsSafe(body[Find(body, CLOSE) + 2..]);
      }
    }
  }

  /** The same things are shown, and the same cards remain for the fallback. */
  predicate Agree(d: Drained, p: Placed) {
    d.out == p.out && d.emitted == p.emitted
  }

  /** On a tidy text the final flush and the batch form take the same decisions. */
  lemma {:induction false} FlushIsBatch(text: string, n: nat, emitted: set<nat>)
    requires Tidy(text)
    ensures Agree(Drain(text, n, emitted, true), Batch(text, n, emitted))
    decreases |text|, 1
  {
    hide Find, Tidy, DrainMarker, BatchMarker;
    var m := Find(text, MARKER);
    if m == |text| {
      assert text[..|text|] == text;
    } else {
      TidyBehind(text, m);
      assert text[m..] == MARKER + text[m + |MARKER|..];
      FlushIsBatchAtMarker(text[m..], text[m + |MARKER|..], n, emitted);
    }
  }

  lemma {:induction false} FlushIsBatchAtMarker(text: string, body: string, n: nat, emitted: set<nat>)
    requires Tidy(text) && text == MARKER + body
    ensures Agree(DrainMarker(text, n, emitted, true), BatchMarker(body, n, emitted))
    decreases |text|, 0
  {
    hide Find, FindSpace, Tidy, CardOf, DropJunk, Drain, Batch;
    TidyFirst(text, body);
    assert text[|MARKER|..] == body;
    var e := Find(body, CLOSE);
    if e == |body| {
      var w := FindSpace(body);
      BodyIsTidy(text, body, w);
      if w < |body| {
        FlushIsBatch(body[w..], n, emitted);
      } else {
        assert body[w..] == "";
        EmptyBatch(n, emitted);
      }
    } else {
      BodyIsTidy(text, body, e + 2);
      JunkIsTidy(body[e + 2..]);
      FlushIsBatch(DropJunk(body[e + 2..]), n, CardOf(body[..e], n, emitted).emitted);
    }
  }

  lemma BodyIsTidy(text: string, body: string, k: nat)
    requires Tidy(text) && text == MARKER + body && k <= |body|
    ensures Tidy(body[k..])
  {
    hide Tidy;
    assert body[k..] == text[|MARKER| + k..];
    TidyBehind(text, |MARKER| + k);
  }

  lemma JunkIsTidy(text: string)
    requires Tidy(text)
    ensures Tidy(DropJunk(text))
  {
    hide Tidy, DropJunk;
    DropJunkMeans(text);
    TidyBehind(text, |text| - |DropJunk(text)|);
  }

  lemma EmptyBatch(n: nat, emitted: set<nat>)
    ensures Batch("", n, emitted) == Placed([], emitted)
  {
  }

  /** Cutting a tidy text into chunks does not matter: streaming them with the final fallback shows, run of text
      by run of text and card by card, exactly what the batch form shows for the whole text. */
  lemma StreamIsBatch(text: string, chunks: seq<string>, cards: seq<Card>)
    requires Tidy(text) && Concat(chunks) == text
    ensures Merged(Resolve(StreamAll("", chunks, |cards|, {}), cards))
         == Merged(Resolve(BatchFrom(text, |cards|, {}), cards))
  {
    hide Tidy, Drain, Batch, Resolve, Merged, StreamAll, CutSafe;
    assert "" + Concat(chunks) == text;
    TidyIsSafe(text);
    StreamIsFlush("", chunks, |cards|, {}, cards);
    FlushIsBatch(text, |cards|, {});
  }

  /** A marker whose value has neither brackets nor whitespace and is closed by exactly two brackets. */
  ghost predicate ProperBody(body: string) {
    exists n: nat ::
      && At(body, CLOSE, n)
      && (forall j | 0 <= j < n :: body[j] != '[' && body[j] != ']' && !IsSpace(body[j]))
      && (n + 2 < |body| ==> body[n + 2] != ']')
  }

  lemma ProperBodyClosesCleanly(body: string)
    requires ProperBody(body)
    ensures ClosedCleanly(body)
  {
    hide IsSpace, Find, FindSpace;
    var n: nat :| At(body, CLOSE, n) && (forall j | 0 <= j < n :: body[j] != '[' && body[j] != ']' && !IsSpace(body[j]))
                  && (n + 2 < |body| ==> body[n + 2] != ']');
    BracketsAreNotSpace();
    assert body[n..n + 2][0] == body[n] == ']';
    var e := Find(body, CLOSE);
    assert At(body, CLOSE, e) && body[e..e + 2][0] == body[e];
    assert e == n;
    assert FindSpace(body) > n;
    var k := Find(body, MARKER);
    assert k < |body| ==> body[k..k + |MARKER|][0] == body[k] == MARKER[0] == '[';
    assert k != n;
  }

  /** Texts all of whose markers are proper are tidy. */
  lemma ProperMarkersAreTidy(text: string)
    requires forall i: nat | At(text, MARKER, i) :: ProperBody(text[i + |MARKER|..])
    ensures Tidy(text)
  {
    hide ProperBody, ClosedCleanly;
    forall i: nat | At(text, MARKER, i)
      ensures ClosedCleanly(text[i + |MARKER|..])
    {
      ProperBodyClosesCleanly(text[i + |MARKER|..]);
    }
  }

  // ----- Where the chunking does matter

  predicate NoBracket(s: string) {
    forall c | c in s :: c != '[' && c != ']'
  }

  /** Draining a marker with a value free of brackets. */
  lemma DrainClosed(value: string, rest: string, n: nat, emitted: set<nat>, final: bool)
    requires NoBracket(value)
    ensures Drain(MARKER + (value + CLOSE + rest), n, emitted, final)
         == (var card := CardOf(value, n, emitted);
             Ahead(card.out, Drain(DropJunk(rest), n, card.emitted, final)))
  {
    var body := value + CLOSE + rest;
    var t := MARKER + body;
    hide Find, CardOf, DropJunk, Drain;
    FirstIn(t);
    assert t[0..] == t && t[|MARKER|..] == body && t[..0] == "";
    DrainFromFirst(t, n, emitted, final);
    assert body[|value|..|value| + 2] == CLOSE;
    forall j: nat | j < |value|
      ensures !At(body, CLOSE, j)
    {
      assert value[j] in value;
      assert j + 2 <= |body| ==> body[j..j + 2][0] == value[j];
    }
    assert At(body, CLOSE, |value|);
    assert Find(body, CLOSE) == |value|;
    assert body[..|value|] == value && body[|value| + 2..] == rest;
  }

  lemma FirstIn(t: string)
    requires MARKER <= t
    ensures Find(t, MARKER) == 0
  {
    assert At(t, MARKER, 0);
  }

  lemma DrainFromFirst(t: string, n: nat, emitted: set<nat>, final: bool)
    requires Find(t, MARKER) == 0 < |t|
    ensures |MARKER| <= |t| && Drain(t, n, emitted, final) == DrainMarker(t, n, emitted, final)
  {
    assert t[0..] == t && t[..0] == "";
    hide DrainMarker, Find;
    assert [] + DrainMarker(t, n, emitted, final).out == DrainMarker(t, n, emitted, final).out;
  }

  lemma DrainOfPlain(t: string, n: nat, emitted: set<nat>)
    requires '[' !in t && t != ""
    ensures Drain(t, n, emitted, false) == Drained([Say(t)], "", emitted)
  {
    forall i: nat
      ensures !At(t, MARKER, i)
    {
      assert i + |MARKER| <= |t| ==> t[i..i + |MARKER|][0] == t[i];
    }
    assert t[|t|..] == MARKER[..0];
    forall j {:trigger MARKER[..j]} | 0 < j <= |t| && j < |MARKER|
      ensures t[|t| - j..] != MARKER[..j]
    {
      assert t[|t| - j..][0] == t[|t| - j] && MARKER[..j][0] == '[';
    }
    TrailingIs(t, MARKER, 0);
    assert t[..|t|] == t && t[|t|..] == "";
  }

  lemma DrainSplit(p: string, n: nat, emitted: set<nat>, final: bool)
    requires Find(p, MARKER) < |p|
    ensures var m := Find(p, MARKER);
            Drain(p, n, emitted, final) == Ahead(Spoken(p[..m]), Drain(p[m..], n, emitted, final))
  {
    hide DrainMarker, Drain;
    var m := Find(p, MARKER);
    assert p[m..][..|MARKER|] == p[m..m + |MARKER|];
    FirstIn(p[m..]);
    DrainFromFirst(p[m..], n, emitted, final);
    assert Drain(p, n, emitted, final) == Ahead(Spoken(p[..m]), DrainMarker(p[m..], n, emitted, final)) by {
      DrainUnfolds(p, n, emitted, final);
    }
  }

  lemma DrainUnfolds(p: string, n: nat, emitted: set<nat>, final: bool)
    ensures var m := Find(p, MARKER);
            m < |p| ==> |MARKER| <= |p[m..]|
                        && Drain(p, n, emitted, final) == Ahead(Spoken(p[..m]), DrainMarker(p[m..], n, emitted, final))
  {
    hide DrainMarker;
  }

  lemma EmptyDrain(n: nat, emitted: set<nat>, final: bool)
    ensures Drain("", n, emitted, final) == Drained([], "", emitted)
  {
  }

  lemma ProseOfCards(out: seq<Item>, cards: seq<Card>)
    requires Fits(out, |cards|) && forall item | item in out :: item.Show?
    ensures Prose(Resolve(out, cards)) == ""
  {
    if out != [] {
      assert forall item | item in out[1..] :: item in out;
      ProseOfCards(out[1..], cards);
      assert out[0] in out;
    }
  }

  lemma ProseOf(before: seq<Item>, text: string, behind: seq<Item>, cards: seq<Card>)
    requires Fits(before, |cards|) && Fits(behind, |cards|)
    requires forall item | item in before + behind :: item.Show?
    ensures Fits(before + ([Say(text)] + behind), |cards|)
    ensures Prose(Resolve(before + ([Say(text)] + behind), cards)) == text
  {
    assert forall item | item in before :: item in before + behind;
    assert forall item | item in behind :: item in before + behind;
    ProseOfCards(before, cards);
    ProseOfCards(behind, cards);
    ResolveSplit([Say(text)], behind, cards);
    ResolveSplit(before, [Say(text)] + behind, cards);
    ProseSplit(Resolve(before, cards), Resolve([Say(text)] + behind, cards));
    assert ([Say(text)] + behind)[1..] == behind;
    assert Resolve([Say(text)] + behind, cards)[1..] == Resolve(behind, cards);
  }

  /** One chunk that leaves nothing pending. */
  lemma StreamStep(chunk: string, rest: seq<string>, d: Drained, n: nat, emitted: set<nat>)
    requires Fits(d.out, n) && chunk != "" && Drain(chunk, n, emitted, false) == d
    ensures StreamAll("", [chunk] + rest, n, emitted) == d.out + StreamAll(d.pending, rest, n, d.emitted)
  {
    hide Drain;
    assert "" + chunk == chunk && ([chunk] + rest)[1..] == rest;
  }

  lemma StreamEnd(n: nat, emitted: set<nat>)
    ensures StreamAll("", [], n, emitted) == Fallback(n, emitted)
  {
    EmptyDrain(n, emitted, true);
    hide Drain, Fallback;
  }

  /** A marker with its junk, arriving in one chunk, leaves nothing pending. */
  lemma MarkerDrained(value: string, junk: string, n: nat)
    requires NoBracket(value) && DropJunk(junk) == ""
    ensures var card := CardOf(value, n, {});
            Drain(MARKER + (value + CLOSE + junk), n, {}, false) == Drained(card.out, "", card.emitted)
  {
    hide Drain, CardOf, DropJunk;
    var card := CardOf(value, n, {});
    DrainClosed(value, junk, n, {}, false);
    EmptyDrain(n, card.emitted, false);
    AheadOfNothing(card);
  }

  lemma AheadOfNothing(card: Placed)
    ensures Ahead(card.out, Drained([], "", card.emitted)) == Drained(card.out, "", card.emitted)
  {
  }

  lemma JunkDrops()
    ensures DropJunk("") == "" && DropJunk("]") == ""
  {
    assert "]"[1..] == "";
  }

  lemma MarkerShowsNoText(marker: string, card: Placed, cards: seq<Card>)
    requires Fits(card.out, |cards|) && forall item | item in card.out :: item.Show?
    requires marker != "" && Drain(marker, |cards|, {}, false) == Drained(card.out, "", card.emitted)
    ensures Prose(Resolve(StreamAll("", [marker], |cards|, {}), cards)) == ""
    ensures Prose(Resolve(StreamAll("", [marker, "]"], |cards|, {}), cards)) == "]"
  {
    hide Drain, Resolve, Prose, Fallback, StreamAll;
    var n := |cards|;
    assert [marker] + [] == [marker] && ["]"] + [] == ["]"] && [marker] + ["]"] == [marker, "]"];
    StreamEnd(n, card.emitted);
    StreamStep(marker, [], Drained(card.out, "", card.emitted), n, {});
    ProseOfCards(card.out + Fallback(n, card.emitted), cards);
    DrainOfPlain("]", n, card.emitted);
    StreamStep("]", [], Drained([Say("]")], "", card.emitted), n, card.emitted);
    StreamStep(marker, ["]"], Drained(card.out, "", card.emitted), n, {});
    ProseOf(card.out, "]", Fallback(n, card.emitted), cards);
  }

  /** A third closing bracket is swallowed when it arrives with the other two, and shown when it arrives later. */
  lemma ThirdBracketDependsOnCut(value: string, cards: seq<Card>)
    requires NoBracket(value)
    ensures Prose(Resolve(StreamAll("", [MARKER + (value + CLOSE + "]")], |cards|, {}), cards)) == ""
    ensures Prose(Resolve(StreamAll("", [MARKER + (value + CLOSE + ""), "]"], |cards|, {}), cards)) == "]"
  {
    hide Drain, CardOf, Resolve, Prose, StreamAll;
    JunkDrops();
    CardOnly(value, |cards|, {});
    MarkerDrained(value, "]", |cards|);
    MarkerShowsNoText(MARKER + (value + CLOSE + "]"), CardOf(value, |cards|, {}), cards);
    MarkerDrained(value, "", |cards|);
    MarkerShowsNoText(MARKER + (value + CLOSE + ""), CardOf(value, |cards|, {}), cards);
  }

  lemma CardOnly(value: string, n: nat, emitted: set<nat>)
    ensures forall item | item in CardOf(value, n, emitted).out :: item.Show?
  {
  }
}
