/** Exactly when every streaming of a text shows what the batch form shows: its text, and its cards too. */
module VizAlike {
  import opened Text
  import opened Emissions
  import opened VizPlacement
  import opened FinalContent
  import opened VizCuts

  // ----- What is shown, character by character

  /** One character, or the staged card with an index. */
  datatype Mark = Letter(c: char) | Pic(index: nat)

  function Letters(t: string): seq<Mark> {
    seq(|t|, i requires 0 <= i < |t| => Letter(t[i]))
  }

  /** What is shown, without the borders between neighbouring pieces of text. */
  function Marks(out: seq<Item>): seq<Mark> {
    if out == [] then []
    else (match out[0] case Say(t) => Letters(t) case Show(i) => [Pic(i)]) + Marks(out[1..])
  }

  lemma {:induction false} MarksSplit(a: seq<Item>, b: seq<Item>)
    ensures Marks(a + b) == Marks(a) + Marks(b)
  {
    if a == [] {
      assert a + b == b;
    } else {
      assert (a + b)[1..] == a[1..] + b;
      MarksSplit(a[1..], b);
    }
  }

  lemma MarksOfText(t: string)
    ensures Marks(Spoken(t)) == Letters(t)
  {
    assert [Say(t)][1..] == [];
  }

  lemma LettersSplit(a: string, b: string)
    ensures Letters(a + b) == Letters(a) + Letters(b)
  {
  }

  /** The text among the marks. */
  function TextOf(marks: seq<Mark>): string {
    if marks == [] then "" else (if marks[0].Letter? then [marks[0].c] else "") + TextOf(marks[1..])
  }

  lemma TextOfFirst(mark: Mark, rest: seq<Mark>)
    ensures TextOf([mark] + rest) == (if mark.Letter? then [mark.c] else "") + TextOf(rest)
  {
    assert ([mark] + rest)[1..] == rest;
  }

  lemma {:induction false} TextOfSplit(a: seq<Mark>, b: seq<Mark>)
    ensures TextOf(a + b) == TextOf(a) + TextOf(b)
  {
    if a == [] {
      assert a + b == b;
    } else {
      TextOfFirst(a[0], a[1..]);
      TextOfFirst(a[0], a[1..] + b);
      hide TextOf;
      TextOfSplit(a[1..], b);
      assert a == [a[0]] + a[1..] && a + b == [a[0]] + (a[1..] + b);
      var first := if a[0].Letter? then [a[0].c] else "";
      assert first + (TextOf(a[1..]) + TextOf(b)) == first + TextOf(a[1..]) + TextOf(b);
    }
  }

  lemma {:induction false} TextOfLetters(t: string)
    ensures TextOf(Letters(t)) == t
  {
    if t != "" {
      assert Letters(t)[1..] == Letters(t[1..]);
      TextOfLetters(t[1..]);
      assert [t[0]] + t[1..] == t;
    }
  }

  lemma {:induction false} TextOfMarks(out: seq<Item>)
    ensures TextOf(Marks(out)) == Words(out)
  {
    if out != [] {
      TextOfMarks(out[1..]);
      match out[0]
      case Say(t) =>
        TextOfSplit(Letters(t), Marks(out[1..]));
        TextOfLetters(t);
      case Show(i) =>
        TextOfSplit([Pic(i)], Marks(out[1..]));
        assert [Pic(i)][1..] == [];
    }
  }

  // ----- Whitespace ends whatever is open

  /** The drain `w` of a text shows what the drains `d` and `t` of its two parts show. */
  ghost predicate Follows(w: Drained, d: Drained, t: Drained) {
    Marks(w.out) == Marks(d.out) + Marks(t.out) && w.emitted == t.emitted
  }

  lemma FollowsAhead(out: seq<Item>, w: Drained, d: Drained, t: Drained)
    requires Follows(w, d, t)
    ensures Follows(Ahead(out, w), Ahead(out, d), t)
  {
    hide Marks;
    MarksSplit(out, w.out);
    MarksSplit(out, d.out);
    assert Marks(out) + (Marks(d.out) + Marks(t.out)) == Marks(out) + Marks(d.out) + Marks(t.out);
  }

  /** Text in which no marker begins is shown as it is. */
  lemma DrainPlain(a: string, b: string, n: nat, emitted: set<nat>)
    requires forall i: nat | i < |a| :: !At(a + b, MARKER, i)
    ensures var w, t := Drain(a + b, n, emitted, true), Drain(b, n, emitted, true);
            Marks(w.out) == Letters(a) + Marks(t.out) && w.emitted == t.emitted
  {
    hide Drain, DrainMarker, Find, Marks, Letters;
    FindBehind(a, b, MARKER);
    var m := Find(b, MARKER);
    assert (a + b)[..|a| + m] == a + b[..m];
    MarksOfText(a + b[..m]);
    MarksOfText(b[..m]);
    LettersSplit(a, b[..m]);
    if m == |b| {
      DrainWithoutMarker(b, n, emitted, true);
      DrainWithoutMarker(a + b, n, emitted, true);
      assert b[..m] == b && (a + b)[..|a| + m] == a + b;
    } else {
      FoundStarts(b, MARKER);
      assert (a + b)[|a| + m..] == b[m..];
      DrainUnfolds(b, n, emitted, true);
      DrainUnfolds(a + b, n, emitted, true);
      var out := DrainMarker(b[m..], n, emitted, true).out;
      MarksSplit(Spoken(a + b[..m]), out);
      MarksSplit(Spoken(b[..m]), out);
      assert Letters(a) + Letters(b[..m]) + Marks(out) == Letters(a) + (Letters(b[..m]) + Marks(out));
    }
  }

  lemma NoMarkerInFront(u: string, v: string)
    requires forall i: nat | i < |u| :: !At(u + v, MARKER, i)
    ensures Find(u, MARKER) == |u|
  {
    hide Find, At;
    if Find(u, MARKER) < |u| {
      FindInLonger(u, v, MARKER);
    }
  }

  lemma NoSpaceBehind(u: string, k: nat)
    requires FindSpace(u) == |u| && k <= |u|
    ensures FindSpace(u[k..]) == |u[k..]|
  {
    hide FindSpace, IsSpace;
    assert forall j | 0 <= j < |u[k..]| :: u[k..][j] == u[k + j];
  }

  lemma NoSpaceInMarker(j: nat)
    requires j < |MARKER|
    ensures !IsSpace(MARKER[j])
  {
  }

  /** A marker opening does not reach across whitespace. */
  lemma MarkerInFront(u: string, v: string)
    requires Find(u + v, MARKER) < |u| && v != "" && IsSpace(v[0])
    ensures var m := Find(u + v, MARKER); m + |MARKER| <= |u| && Find(u, MARKER) == m
  {
    hide Find, At, IsSpace;
    var m := Find(u + v, MARKER);
    if |u| < m + |MARKER| {
      CharAt(u + v, MARKER, m, |u| - m);
      NoSpaceInMarker(|u| - m);
    }
    AtInLonger(u, v, MARKER, m);
    FindInLonger(u, v, MARKER);
  }

  lemma SpaceBehind(u: string, v: string)
    requires FindSpace(u) == |u| && v != "" && IsSpace(v[0])
    ensures FindSpace(u + v) == |u|
  {
    hide FindSpace, IsSpace;
    assert (u + v)[|u|] == v[0] && forall j | 0 <= j < |u| :: (u + v)[j] == u[j];
  }

  /** A closing pair in front of whitespace is there whatever follows. */
  lemma ClosedInFront(u: string, v: string)
    requires Find(u + v, CLOSE) < |u| && v != "" && IsSpace(v[0])
    ensures var e := Find(u + v, CLOSE); Find(u, CLOSE) == e && e + 2 <= |u|
  {
    hide Find, IsSpace, At;
    BracketsAreNotSpace();
    var e := Find(u + v, CLOSE);
    CharAt(u + v, CLOSE, e, 1);
    AtInLonger(u, v, CLOSE, e);
    FindInLonger(u, v, CLOSE);
  }

  /** A safe text is flushed in front of whitespace and from it on separately. */
  lemma {:induction false} DrainSplits(u: string, v: string, n: nat, emitted: set<nat>)
    requires CutSafe(u + v) && FindSpace(u) == |u| && (v != "" ==> IsSpace(v[0]))
    ensures var d := Drain(u, n, emitted, true);
            Follows(Drain(u + v, n, emitted, true), d, Drain(v, n, d.emitted, true)) && CutSafe(v)
    decreases |u|, 1
  {
    hide Find, FindSpace, Drain, DrainMarker, CutSafe, IsSpace, At, ClosedInTime, Marks, Follows, Letters;
    var m := Find(u + v, MARKER);
    if v == "" {
      NothingBehindDrain(u, n, emitted);
    } else if m < |u| {
      MarkerInFront(u, v);
      DrainAtMarker(u, v, n, emitted);
      NoSpaceBehind(u, m + |MARKER|);
      var body := u[m + |MARKER|..];
      MarkerSplits(body, v, n, emitted);
      var d := DrainMarker(MARKER + body, n, emitted, true);
      FollowsAhead(Spoken(u[..m]), DrainMarker(MARKER + (body + v), n, emitted, true), d, Drain(v, n, d.emitted, true));
    } else {
      assert forall i: nat | i < |u| :: !At(u + v, MARKER, i);
      SafeBehind(u, v);
      NoMarkerInFront(u, v);
      PlainFollows(u, v, n, emitted);
    }
  }

  lemma NothingBehindDrain(u: string, n: nat, emitted: set<nat>)
    ensures var d := Drain(u, n, emitted, true);
            Follows(Drain(u + "", n, emitted, true), d, Drain("", n, d.emitted, true)) && CutSafe("")
  {
    hide Drain;
    assert u + "" == u;
    EmptyDrain(n, Drain(u, n, emitted, true).emitted, true);
    NoCloseIsSafe("");
    var d := Drain(u, n, emitted, true);
    assert Marks(d.out) + [] == Marks(d.out);
  }

  lemma PlainFollows(u: string, v: string, n: nat, emitted: set<nat>)
    requires Find(u, MARKER) == |u| && forall i: nat | i < |u| :: !At(u + v, MARKER, i)
    ensures var d := Drain(u, n, emitted, true);
            Follows(Drain(u + v, n, emitted, true), d, Drain(v, n, d.emitted, true))
  {
    hide Drain, Marks, Letters, Find, At;
    DrainPlain(u, v, n, emitted);
    DrainWithoutMarker(u, n, emitted, true);
    assert u[..|u|] == u;
    MarksOfText(u);
  }

  /** The first marker of a safe text, with more text behind it. */
  lemma DrainAtMarker(u: string, v: string, n: nat, emitted: set<nat>)
    requires CutSafe(u + v) && Find(u + v, MARKER) == Find(u, MARKER) < |u|
    ensures var m := Find(u, MARKER);
            && m + |MARKER| <= |u|
            && (var body := u[m + |MARKER|..];
                && Drain(u, n, emitted, true) == Ahead(Spoken(u[..m]), DrainMarker(MARKER + body, n, emitted, true))
                && Drain(u + v, n, emitted, true)
                   == Ahead(Spoken(u[..m]), DrainMarker(MARKER + (body + v), n, emitted, true))
                && ClosedInTime(body + v)
                && (Find(body + v, CLOSE) == |body + v| || CutSafe((body + v)[Find(body + v, CLOSE) + 2..])))
  {
    hide Find, Drain, DrainMarker, CutSafe, ClosedInTime;
    var m := Find(u, MARKER);
    FoundStarts(u, MARKER);
    var body := u[m + |MARKER|..];
    StartsWith(u[m..], MARKER);
    assert u[m..][|MARKER|..] == body;
    assert (u + v)[m..] == u[m..] + v && (u + v)[..m] == u[..m];
    assert MARKER + body + v == MARKER + (body + v);
    DrainUnfolds(u, n, emitted, true);
    DrainUnfolds(u + v, n, emitted, true);
    FirstIsSafe(u + v, m);
    SafeMarker((u + v)[m..], body + v);
  }

  lemma {:induction false} MarkerSplits(u: string, v: string, n: nat, emitted: set<nat>)
    requires ClosedInTime(u + v) && (Find(u + v, CLOSE) == |u + v| || CutSafe((u + v)[Find(u + v, CLOSE) + 2..]))
    requires FindSpace(u) == |u| && v != "" && IsSpace(v[0])
    ensures var d := DrainMarker(MARKER + u, n, emitted, true);
            Follows(DrainMarker(MARKER + (u + v), n, emitted, true), d, Drain(v, n, d.emitted, true)) && CutSafe(v)
    decreases |u|, 2
  {
    hide Find, FindSpace, Drain, DrainMarker, CutSafe, IsSpace, Follows, ClosedInTime, CardOf;
    var e := Find(u + v, CLOSE);
    SpaceBehind(u, v);
    if e == |u + v| {
      UnclosedSplits(u, v, n, emitted);
    } else {
      ClosedBefore(u, v);
      ClosedInFront(u, v);
      ClosedSplits(u, v, n, emitted);
      NoSpaceBehind(u, e + 2);
      var card := CardOf(u[..e], n, emitted);
      DrainSplits(u[e + 2..], v, n, card.emitted);
      var d := Drain(u[e + 2..], n, card.emitted, true);
      FollowsAhead(card.out, Drain(u[e + 2..] + v, n, card.emitted, true), d, Drain(v, n, d.emitted, true));
    }
  }

  lemma ClosedBefore(u: string, v: string)
    requires ClosedInTime(u + v) && Find(u + v, CLOSE) < |u + v| && FindSpace(u + v) == |u|
    ensures Find(u + v, CLOSE) < |u|
  {
    hide Find, FindSpace;
  }

  lemma {:induction false} ClosedSplits(u: string, v: string, n: nat, emitted: set<nat>)
    requires ClosedInTime(u + v) && Find(u + v, CLOSE) == Find(u, CLOSE) <= |u| - 2 && v != "" && IsSpace(v[0])
    ensures var e := Find(u, CLOSE);
            var card := CardOf(u[..e], n, emitted);
            && (u + v)[e + 2..] == u[e + 2..] + v
            && DrainMarker(MARKER + u, n, emitted, true) == Ahead(card.out, Drain(u[e + 2..], n, card.emitted, true))
            && DrainMarker(MARKER + (u + v), n, emitted, true)
               == Ahead(card.out, Drain(u[e + 2..] + v, n, card.emitted, true))
  {
    hide Find, FindSpace, Drain, DrainMarker, IsSpace, DropJunk, CardOf;
    var e := Find(u, CLOSE);
    var rest := u[e + 2..];
    assert (MARKER + u)[|MARKER|..] == u && (MARKER + (u + v))[|MARKER|..] == u + v;
    assert (u + v)[e + 2..] == rest + v && (u + v)[..e] == u[..e];
    DrainClosedMarker(MARKER + u, n, emitted, true);
    DrainClosedMarker(MARKER + (u + v), n, emitted, true);
    BracketsAreNotSpace();
    assert (rest + v)[0] == (u + v)[e + 2] && (rest != "" ==> rest[0] == (rest + v)[0]);
    NoJunk(rest);
    NoJunk(rest + v);
  }

  lemma UnclosedSplits(u: string, v: string, n: nat, emitted: set<nat>)
    requires Find(u + v, CLOSE) == |u + v| && FindSpace(u + v) == |u| == FindSpace(u) && v != ""
    ensures var d := DrainMarker(MARKER + u, n, emitted, true);
            Follows(DrainMarker(MARKER + (u + v), n, emitted, true), d, Drain(v, n, d.emitted, true)) && CutSafe(v)
  {
    hide Find, FindSpace, CutSafe, Drain, DrainMarker;
    assert (MARKER + u)[|MARKER|..] == u && (MARKER + (u + v))[|MARKER|..] == u + v && (u + v)[|u|..] == v;
    NoCloseBehind(u + v, |u|);
    NoCloseIsSafe(v);
    if Find(u, CLOSE) < |u| {
      FindInLonger(u, v, CLOSE);
    }
    DrainUnclosed(MARKER + u, n, emitted, true);
    DrainUnclosed(MARKER + (u + v), n, emitted, true);
    assert [] + Marks(Drain(v, n, emitted, true).out) == Marks(Drain(v, n, emitted, true).out);
  }

  /** The same for the text alone. */
  lemma FlushSplit(u: string, v: string)
    requires CutSafe(u + v) && FindSpace(u) == |u| && (v != "" ==> IsSpace(v[0]))
    ensures FlushText(u + v) == FlushText(u) + FlushText(v) && CutSafe(v)
  {
    hide Drain, Marks, DrainText, CutSafe, FindSpace, IsSpace, Words;
    var d := Drain(u, 0, {}, true);
    var t, w := Drain(v, 0, d.emitted, true), Drain(u + v, 0, {}, true);
    DrainSplits(u, v, 0, {});
    DrainShowsText(u, 0, {}, true);
    DrainShowsText(v, 0, d.emitted, true);
    DrainShowsText(u + v, 0, {}, true);
    TextOfMarks(d.out);
    TextOfMarks(t.out);
    TextOfMarks(w.out);
    TextOfSplit(Marks(d.out), Marks(t.out));
  }

  // ----- When the streaming and the batch form show the same text

  /** What the batch form shows. */
  function Batched(text: string, cards: seq<Card>): seq<Emission> {
    Merged(Resolve(BatchFrom(text, |cards|, {}), cards))
  }

  /** The text that the batch form shows. */
  function BatchText(text: string): string
    decreases |text|, 0
  {
    var m := Find(text, MARKER);
    if m == |text| then text else text[..m] + BatchBodyText(text[m + |MARKER|..])
  }

  function BatchBodyText(body: string): string
    decreases |body|, 1
  {
    var e := Find(body, CLOSE);
    if e == |body| || Find(body, MARKER) < e then BatchText(body[FindSpace(body)..])
    else BatchText(DropJunk(body[e + 2..]))
  }

  lemma {:induction false} BatchShowsText(text: string, n: nat, emitted: set<nat>)
    ensures Words(Batch(text, n, emitted).out) == BatchText(text)
    decreases |text|, 1
  {
    hide Find, BatchMarker, BatchBodyText, Words;
    var m := Find(text, MARKER);
    if m == |text| {
      WordsOfText(text);
    } else {
      BatchBodyShowsText(text[m + |MARKER|..], n, emitted);
      WordsOfText(text[..m]);
      WordsSplit(Spoken(text[..m]), BatchMarker(text[m + |MARKER|..], n, emitted).out);
    }
  }

  lemma {:induction false} BatchBodyShowsText(body: string, n: nat, emitted: set<nat>)
    ensures Words(BatchMarker(body, n, emitted).out) == BatchBodyText(body)
    decreases |body|, 2
  {
    hide Find, FindSpace, Batch, BatchText, Words, CardOf, DropJunk;
    var e := Find(body, CLOSE);
    if e == |body| || Find(body, MARKER) < e {
      BatchShowsText(body[FindSpace(body)..], n, emitted);
    } else {
      var card := CardOf(body[..e], n, emitted);
      var rest := DropJunk(body[e + 2..]);
      BatchShowsText(rest, n, card.emitted);
      CardOnly(body[..e], n, emitted);
      NoWordsInCards(card.out);
      WordsSplit(card.out, Batch(rest, n, card.emitted).out);
    }
  }

  lemma TextOfBatched(text: string, cards: seq<Card>)
    ensures Prose(Batched(text, cards)) == BatchText(text)
  {
    hide Batch, BatchText, Words, Fallback, Resolve, Prose, Merged;
    var p := Batch(text, |cards|, {});
    BatchShowsText(text, |cards|, {});
    NoWordsInCards(Fallback(|cards|, p.emitted));
    WordsSplit(p.out, Fallback(|cards|, p.emitted));
    WordsAreProse(BatchFrom(text, |cards|, {}), cards);
    MergedProse(Resolve(BatchFrom(text, |cards|, {}), cards));
  }

  /** Wherever a marker opens inside a closed one, no text is shown between that closing pair and the whitespace
      where the batch form goes on. */
  predicate NestingHidesNothing(text: string)
    decreases |text|, 0
  {
    var m := Find(text, MARKER);
    m == |text| || BodyHidesNothing(text[m + |MARKER|..])
  }

  predicate BodyHidesNothing(body: string)
    decreases |body|, 1
  {
    var e := Find(body, CLOSE);
    var w := FindSpace(body);
    if e == |body| then true
    else if Find(body, MARKER) < e && e + 2 <= w then FlushText(body[e + 2..w]) == "" && NestingHidesNothing(body[w..])
    else NestingHidesNothing(body[e + 2..])
  }

  /** Without a closing pair, the two forms show the same. */
  lemma {:induction false} NoCloseSameText(text: string)
    requires Find(text, CLOSE) == |text|
    ensures BatchText(text) == FlushText(text)
    decreases |text|
  {
    hide Find, FindSpace;
    var m := Find(text, MARKER);
    if m < |text| {
      var body := text[m + |MARKER|..];
      var w := FindSpace(body);
      NoCloseBehind(text, m + |MARKER|);
      NoCloseBehind(body, w);
      NoCloseSameText(body[w..]);
      OpensAt(text, true);
      if w == |body| {
        assert body[w..] == "";
        EmptyText();
      }
    } else {
      FlushOfPlain(text);
    }
  }

  /** How the text of the batch form compares with the text of a flush. */
  predicate Below(batch: string, flush: string, same: bool) {
    |batch| <= |flush| && (|batch| == |flush| ==> same) && (same <==> batch == flush)
  }

  /** On a safe text the batch form shows no more text than one flush, and the same text exactly when no nesting
      hides any. */
  lemma {:induction false} BatchBelow(text: string)
    requires CutSafe(text)
    ensures Below(BatchText(text), FlushText(text), NestingHidesNothing(text))
    decreases |text|, 0
  {
    hide Find, FlushText, MarkerText, DrainText, BatchBodyText, BodyHidesNothing, CutSafe, ClosedInTime;
    var m := Find(text, MARKER);
    if m == |text| {
      FlushOfPlain(text);
    } else {
      OpensAt(text, true);
      FirstIsSafe(text, m);
      var body := text[m + |MARKER|..];
      assert text[m..] == MARKER + body;
      SafeMarker(text[m..], body);
      BatchBodyBelow(body);
      FlushIs(text);
    }
  }

  lemma BatchBodyBelow(body: string)
    requires ClosedInTime(body) && (Find(body, CLOSE) == |body| || CutSafe(body[Find(body, CLOSE) + 2..]))
    ensures Below(BatchBodyText(body), MarkerText(body, true).text, BodyHidesNothing(body))
    decreases |body|, 1
  {
    hide Find, FindSpace, FlushText, MarkerText, BatchText, NestingHidesNothing, CutSafe, DropJunk, ClosedInTime, Below;
    var e := Find(body, CLOSE);
    if e == |body| {
      UnclosedSame(body);
    } else {
      ClosedFlush(body);
      if Find(body, MARKER) < e {
        NestedBelow(body);
      } else {
        BatchBelow(body[e + 2..]);
      }
    }
  }

  /** A marker that is closed in time shows what follows it. */
  lemma {:induction false} ClosedFlush(body: string)
    requires ClosedInTime(body) && Find(body, CLOSE) < |body|
    ensures var e := Find(body, CLOSE);
            && e + 2 <= |body| && DropJunk(body[e + 2..]) == body[e + 2..]
            && MarkerText(body, true).text == FlushText(body[e + 2..])
  {
    hide Find, FindSpace, FlushText, MarkerText, DrainText, DropJunk;
    var e := Find(body, CLOSE);
    FoundPair(body);
    assert e + 2 < |body| ==> body[e + 2..][0] == body[e + 2];
    NoJunk(body[e + 2..]);
    MarkerCloses(body, true);
    FlushIs(body[e + 2..]);
  }

  lemma UnclosedSame(body: string)
    requires Find(body, CLOSE) == |body|
    ensures Below(BatchBodyText(body), MarkerText(body, true).text, BodyHidesNothing(body))
  {
    hide Find, FindSpace, FlushText, MarkerText, BatchText, NestingHidesNothing;
    NoCloseBehind(body, FindSpace(body));
    NoCloseSameText(body[FindSpace(body)..]);
    UnclosedFlush(body);
  }

  lemma UnclosedFlush(body: string)
    requires Find(body, CLOSE) == |body|
    ensures MarkerText(body, true).text == FlushText(body[FindSpace(body)..])
  {
    hide Find, FindSpace, DrainText;
    EmptyText();
    assert FindSpace(body) == |body| ==> body[FindSpace(body)..] == "";
  }

  lemma SpaceBehindPair(body: string)
    requires Find(body, CLOSE) < |body| && Find(body, CLOSE) < FindSpace(body)
    ensures Find(body, CLOSE) + 2 <= FindSpace(body)
  {
    hide Find, FindSpace, IsSpace, At;
    BracketsAreNotSpace();
    FoundPair(body);
    CharAt(body, CLOSE, Find(body, CLOSE), 1);
  }

  lemma NestedMeans(body: string)
    requires Find(body, MARKER) < Find(body, CLOSE) < |body| && Find(body, CLOSE) + 2 <= FindSpace(body)
    ensures var w := FindSpace(body);
            && BatchBodyText(body) == BatchText(body[w..])
            && (BodyHidesNothing(body)
                <==> FlushText(body[Find(body, CLOSE) + 2..w]) == "" && NestingHidesNothing(body[w..]))
  {
    hide Find, FindSpace, FlushText, BatchText, NestingHidesNothing;
  }

  lemma BelowBehind(u: string, batch: string, flush: string, same: bool)
    requires Below(batch, flush, same)
    ensures Below(batch, u + flush, u == "" && same)
  {
    assert u == "" ==> u + flush == flush;
  }

  lemma NestedBelow(body: string)
    requires ClosedInTime(body) && Find(body, MARKER) < Find(body, CLOSE) < |body|
    requires CutSafe(body[Find(body, CLOSE) + 2..])
    ensures Below(BatchBodyText(body), FlushText(body[Find(body, CLOSE) + 2..]), BodyHidesNothing(body))
    decreases |body|, 0
  {
    hide Find, FindSpace, FlushText, BatchText, BatchBodyText, NestingHidesNothing, BodyHidesNothing, CutSafe, Below,
      ClosedInTime;
    SplitBehindPair(body);
    NestedMeans(body);
    var v := body[FindSpace(body)..];
    BatchBelow(v);
    BelowBehind(FlushText(body[Find(body, CLOSE) + 2..FindSpace(body)]), BatchText(v), FlushText(v),
                NestingHidesNothing(v));
  }

  lemma SplitBehindPair(body: string)
    requires ClosedInTime(body) && Find(body, CLOSE) < |body| && CutSafe(body[Find(body, CLOSE) + 2..])
    ensures var e, w := Find(body, CLOSE), FindSpace(body);
            && e + 2 <= w
            && CutSafe(body[w..])
            && FlushText(body[e + 2..]) == FlushText(body[e + 2..w]) + FlushText(body[w..])
  {
    hide Find, FindSpace, FlushText, CutSafe, IsSpace;
    SpaceBehindPair(body);
    var k, w := Find(body, CLOSE) + 2, FindSpace(body);
    NoSpaceUpTo(body, k);
    SplitAt(body, k, w);
    FlushSplit(body[k..w], body[w..]);
  }

  lemma SplitAt(t: string, i: nat, j: nat)
    requires i <= j <= |t|
    ensures t[i..] == t[i..j] + t[j..] && (t[j..] != "" ==> t[j..][0] == t[j])
  {
  }

  lemma NoSpaceUpTo(body: string, k: nat)
    requires k <= FindSpace(body)
    ensures var u := body[k..FindSpace(body)]; FindSpace(u) == |u|
  {
    hide FindSpace, IsSpace;
    var u := body[k..FindSpace(body)];
    assert forall j | 0 <= j < |u| :: u[j] == body[k + j];
  }

  /** Every streaming of a text shows the text that the batch form shows, exactly when the text is safe and no
      nesting hides any text. */
  lemma SameTextIff(text: string, cards: seq<Card>)
    ensures (forall chunks | Concat(chunks) == text :: Prose(Streamed(chunks, cards)) == Prose(Batched(text, cards)))
            <==> CutSafe(text) && NestingHidesNothing(text)
  {
    hide CutSafe, Streamed, Batched, Flushed, Concat, Prose, NestingHidesNothing, FlushText, BatchText;
    OneChunkIsFlush(text, cards);
    CutIndependentIff(text, cards);
    TextOfFlushed(text, cards);
    TextOfBatched(text, cards);
    if CutSafe(text) {
      BatchBelow(text);
    }
    if forall chunks | Concat(chunks) == text :: Prose(Streamed(chunks, cards)) == Prose(Batched(text, cards)) {
      assert Prose(Streamed([text], cards)) == Prose(Batched(text, cards));
    }
  }

  // ----- The cards, too

  /** Wherever a marker opens inside a closed one, what is between that closing pair and the whitespace where the batch
      form goes on shows nothing; when the text ends before any whitespace, it shows nothing but cards that the fallback
      would show first, in that order. */
  predicate NestingShowsAlike(text: string, n: nat, emitted: set<nat>)
    decreases |text|, 0
  {
    var m := Find(text, MARKER);
    m == |text| || BodyShowsAlike(text[m + |MARKER|..], n, emitted)
  }

  predicate BodyShowsAlike(body: string, n: nat, emitted: set<nat>)
    decreases |body|, 1
  {
    var e := Find(body, CLOSE);
    var w := FindSpace(body);
    if e == |body| then true
    else if Find(body, MARKER) < e && e + 2 <= w then
      var hidden := Drain(body[e + 2..w], n, emitted, true).out;
      if w < |body| then hidden == [] && NestingShowsAlike(body[w..], n, emitted)
      else hidden <= Fallback(n, emitted)
    else NestingShowsAlike(body[e + 2..], n, CardOf(body[..e], n, emitted).emitted)
  }

  /** What one flush shows, and what the batch form shows. */
  function FlushMarks(text: string, n: nat, emitted: set<nat>): seq<Mark> {
    Marks(FlushAll(text, n, emitted))
  }

  function BatchMarks(text: string, n: nat, emitted: set<nat>): seq<Mark> {
    Marks(BatchFrom(text, n, emitted))
  }

  /** Pieces of text are shown only when there is any. */
  predicate NoneEmpty(out: seq<Item>) {
    forall item | item in out :: item != Say("")
  }

  lemma {:induction false} DrainNoneEmpty(p: string, n: nat, emitted: set<nat>, final: bool)
    ensures NoneEmpty(Drain(p, n, emitted, final).out)
    decreases |p|
  {
    hide Find, FindSpace, DropJunk, CardOf, TrailingPrefixLen;
    var m := Find(p, MARKER);
    if m < |p| {
      var body := p[m..][|MARKER|..];
      var e := Find(body, CLOSE);
      if e < |body| {
        CardOnly(body[..e], n, emitted);
        DrainNoneEmpty(DropJunk(body[e + 2..]), n, CardOf(body[..e], n, emitted).emitted, final);
      } else if FindSpace(body) < |body| {
        DrainNoneEmpty(body[FindSpace(body)..], n, emitted, final);
      }
    }
  }

  /** Marks without text are those of cards alone. */
  lemma {:induction false} OnlyCards(out: seq<Item>)
    requires NoneEmpty(out) && Words(out) == ""
    ensures forall item | item in out :: item.Show?
  {
    if out != [] {
      assert out[0] in out && forall item | item in out[1..] :: item in out;
      OnlyCards(out[1..]);
    }
  }

  lemma {:induction false} MarksOfCards(out: seq<Item>)
    requires forall item | item in out :: item.Show?
    ensures |Marks(out)| == |out| && forall i | 0 <= i < |out| :: Marks(out)[i] == Pic(out[i].index)
  {
    if out != [] {
      assert out[0] in out && forall item | item in out[1..] :: item in out;
      MarksOfCards(out[1..]);
    }
  }

  lemma PrefixOfCards(a: seq<Item>, b: seq<Item>)
    requires (forall item | item in a :: item.Show?) && forall item | item in b :: item.Show?
    ensures Marks(a) <= Marks(b) <==> a <= b
  {
    MarksOfCards(a);
    MarksOfCards(b);
    hide Marks;
    forall i | 0 <= i < |a|
      ensures a[i].Show?
    {
      assert a[i] in a;
    }
    forall i | 0 <= i < |b|
      ensures b[i].Show?
    {
      assert b[i] in b;
    }
    if Marks(a) <= Marks(b) {
      forall i | 0 <= i < |a|
        ensures a[i] == b[i]
      {
        assert Marks(a)[i] == Marks(b)[i];
      }
    }
    if a <= b {
      forall i | 0 <= i < |a|
        ensures Marks(a)[i] == Marks(b)[i]
      {
        assert a[i] == b[i];
      }
    }
  }

  lemma {:induction false} FallbackNone(n: nat, emitted: set<nat>)
    ensures Fallback(n, emitted) == [] <==> forall i: nat | i < n :: i in emitted
  {
    if n > 0 {
      FallbackNone(n - 1, emitted);
    }
  }

  /** Once its first card has been shown, the fallback shows the rest. */
  lemma {:induction false} FallbackDropsFirst(n: nat, emitted: set<nat>)
    requires Fallback(n, emitted) != []
    ensures var all := Fallback(n, emitted);
            all[0].Show? && Fallback(n, emitted + {all[0].index}) == all[1..]
  {
    hide Fallback;
    FallbackNone(n, emitted);
    var init := Fallback(n - 1, emitted);
    FallbackStep(n - 1, emitted);
    if init == [] {
      LastDropped(n - 1, emitted);
    } else {
      FallbackDropsFirst(n - 1, emitted);
      FirstIsStaged(n - 1, emitted);
      FallbackStep(n - 1, emitted + {init[0].index});
      DropFirst(init, OneLeft(n - 1, emitted));
    }
  }

  lemma DropFirst(a: seq<Item>, b: seq<Item>)
    requires a != []
    ensures (a + b)[0] == a[0] && (a + b)[1..] == a[1..] + b
  {
  }

  lemma FirstIsStaged(n: nat, emitted: set<nat>)
    requires Fallback(n, emitted) != []
    ensures Fallback(n, emitted)[0].Show? && Fallback(n, emitted)[0].index < n
  {
    hide Fallback;
    var first := Fallback(n, emitted)[0];
    assert first in Fallback(n, emitted);
  }

  lemma LastDropped(n: nat, emitted: set<nat>)
    requires Fallback(n, emitted) == [] && OneLeft(n, emitted) != []
    ensures Fallback(n + 1, emitted) == [Show(n)] && Fallback(n + 1, emitted + {n}) == []
  {
    FallbackStep(n, emitted);
    FallbackNone(n, emitted);
    FallbackNone(n + 1, emitted + {n});
    hide Fallback;
    assert [] + [Show(n)] == [Show(n)];
  }

  /** Once its first cards have been shown, the fallback shows the rest. */
  lemma {:induction false} FallbackRest(n: nat, emitted: set<nat>, first: seq<Item>, later: set<nat>)
    requires first <= Fallback(n, emitted)
    requires forall i: nat :: i in later <==> i in emitted || Show(i) in first
    ensures Fallback(n, emitted) == first + Fallback(n, later)
    decreases |first|
  {
    hide Fallback;
    if first == [] {
      assert later == emitted;
      assert [] + Fallback(n, later) == Fallback(n, later);
    } else {
      var all := Fallback(n, emitted);
      FallbackDropsFirst(n, emitted);
      assert first[0] == all[0] && first == [first[0]] + first[1..] && all == [all[0]] + all[1..];
      FallbackRest(n, emitted + {all[0].index}, first[1..], later);
      assert [first[0]] + (first[1..] + Fallback(n, later)) == first + Fallback(n, later);
    }
  }

  /** A drain emits what it shows. */
  lemma DrainEmits(p: string, n: nat, emitted: set<nat>)
    ensures var d := Drain(p, n, emitted, true);
            forall i: nat :: i in d.emitted <==> i in emitted || Show(i) in d.out
  {
    hide Drain;
    var d := Drain(p, n, emitted, true);
    DrainShowsOnce(p, n, emitted, true);
    forall i: nat
      ensures i in ShownBy(d.out) <==> Show(i) in d.out
    {
      ShownIffIn(d.out, i);
    }
  }

  lemma {:induction false} ShownIffIn(out: seq<Item>, i: nat)
    ensures i in ShownBy(out) <==> Show(i) in out
  {
    if out != [] {
      ShownIffIn(out[1..], i);
      assert out == [out[0]] + out[1..];
    }
  }

  lemma DrainNothing(p: string, n: nat, emitted: set<nat>)
    requires Drain(p, n, emitted, true).out == []
    ensures Drain(p, n, emitted, true).emitted == emitted
  {
    hide Drain;
    DrainEmits(p, n, emitted);
  }

  // The two forms, from the first marker on.

  lemma FlushMarksSplit(u: string, v: string, n: nat, emitted: set<nat>)
    requires CutSafe(u + v) && FindSpace(u) == |u| && (v != "" ==> IsSpace(v[0]))
    ensures var d := Drain(u, n, emitted, true);
            FlushMarks(u + v, n, emitted) == Marks(d.out) + FlushMarks(v, n, d.emitted) && CutSafe(v)
  {
    hide Drain, Marks, FlushAll, Fallback, CutSafe, FindSpace, IsSpace;
    DrainSplits(u, v, n, emitted);
    var d, w := Drain(u, n, emitted, true), Drain(u + v, n, emitted, true);
    var t := Drain(v, n, d.emitted, true);
    FlushGoesOn(u + v, n, emitted);
    FlushGoesOn(v, n, d.emitted);
    MarksSplit(w.out, Fallback(n, w.emitted));
    MarksSplit(t.out, Fallback(n, t.emitted));
    assert Marks(d.out) + Marks(t.out) + Marks(Fallback(n, t.emitted))
        == Marks(d.out) + (Marks(t.out) + Marks(Fallback(n, t.emitted)));
  }

  /** The text in front of the first marker decides nothing. */
  lemma SameFromMarker(text: string, n: nat, emitted: set<nat>)
    requires Find(text, MARKER) < |text|
    ensures var body := text[Find(text, MARKER) + |MARKER|..];
            FlushMarks(text, n, emitted) == BatchMarks(text, n, emitted)
            <==> FlushMarks(MARKER + body, n, emitted) == Marks(BatchMarker(body, n, emitted).out
                                                              + Fallback(n, BatchMarker(body, n, emitted).emitted))
  {
    hide Find, Marks, FlushAll, FlushMarker, BatchMarker, Fallback;
    var m := Find(text, MARKER);
    FoundStarts(text, MARKER);
    StartsWith(text[m..], MARKER);
    var body := text[m + |MARKER|..];
    assert text[m..][|MARKER|..] == body;
    FlushFromFirst(text, n, emitted);
    MarkerFirst(text[m..], n, emitted);
    var b := BatchMarker(body, n, emitted);
    assert Spoken(text[..m]) + b.out + Fallback(n, b.emitted) == Spoken(text[..m]) + (b.out + Fallback(n, b.emitted));
    MarksSplit(Spoken(text[..m]), FlushAll(text[m..], n, emitted));
    MarksSplit(Spoken(text[..m]), b.out + Fallback(n, b.emitted));
    SameMarksBehind(Marks(Spoken(text[..m])), FlushMarks(text[m..], n, emitted),
                    Marks(b.out + Fallback(n, b.emitted)));
  }

  lemma SameMarksBehind(a: seq<Mark>, b: seq<Mark>, c: seq<Mark>)
    ensures a + b == a + c <==> b == c
  {
    if a + b == a + c {
      assert (a + b)[|a|..] == b && (a + c)[|a|..] == c;
    }
  }

  /** What the batch form shows from a marker body on. */
  function BodyMarks(body: string, n: nat, emitted: set<nat>): seq<Mark> {
    var b := BatchMarker(body, n, emitted);
    Marks(b.out + Fallback(n, b.emitted))
  }

  lemma NoCloseIsTidy(text: string)
    requires Find(text, CLOSE) == |text|
    ensures Tidy(text)
  {
    hide Find, FindSpace;
    forall i: nat | At(text, MARKER, i)
      ensures ClosedCleanly(text[i + |MARKER|..])
    {
      NoCloseBehind(text, i + |MARKER|);
    }
  }

  lemma UnclosedAlike(body: string, n: nat, emitted: set<nat>)
    requires Find(body, CLOSE) == |body|
    ensures FlushMarks(MARKER + body, n, emitted) == BodyMarks(body, n, emitted)
  {
    hide Find, FindSpace, Drain, DrainMarker, Batch, Marks, Fallback, Tidy;
    var w := FindSpace(body);
    assert (MARKER + body)[|MARKER|..] == body;
    MarkerFirst(MARKER + body, n, emitted);
    DrainUnclosed(MARKER + body, n, emitted, true);
    NoCloseBehind(body, w);
    NoCloseIsTidy(body[w..]);
    FlushIsBatch(body[w..], n, emitted);
    if w == |body| {
      assert body[w..] == "";
      EmptyBatch(n, emitted);
    }
  }

  /** A closed marker without another one in it. */
  lemma {:induction false} ClosedAlike(body: string, n: nat, emitted: set<nat>)
    requires ClosedInTime(body) && Find(body, CLOSE) < |body| && Find(body, CLOSE) <= Find(body, MARKER)
    ensures var e := Find(body, CLOSE);
            var card := CardOf(body[..e], n, emitted);
            e + 2 <= |body|
            && (FlushMarks(MARKER + body, n, emitted) == BodyMarks(body, n, emitted)
                <==> FlushMarks(body[e + 2..], n, card.emitted) == BatchMarks(body[e + 2..], n, card.emitted))
  {
    hide Find, FindSpace, FlushAll, Batch, Marks, Fallback, CardOf, DropJunk;
    var e := Find(body, CLOSE);
    var card := CardOf(body[..e], n, emitted);
    FoundPair(body);
    var rest := body[e + 2..];
    assert rest != "" ==> rest[0] == body[e + 2];
    NoJunk(rest);
    FlushClosed(MARKER + body, body, n, emitted);
    var b := Batch(rest, n, card.emitted);
    assert card.out + b.out + Fallback(n, b.emitted) == card.out + (b.out + Fallback(n, b.emitted));
    MarksSplit(card.out, FlushAll(rest, n, card.emitted));
    MarksSplit(card.out, b.out + Fallback(n, b.emitted));
    SameMarksBehind(Marks(card.out), FlushMarks(rest, n, card.emitted), Marks(b.out + Fallback(n, b.emitted)));
  }

  /** A value with an opening in it names no card. */
  lemma NestedNamesNothing(body: string, n: nat, emitted: set<nat>)
    requires Find(body, MARKER) < Find(body, CLOSE) < |body|
    ensures CardOf(body[..Find(body, CLOSE)], n, emitted) == Placed([], emitted)
  {
    hide Find, ToNumber, At;
    var m, e := Find(body, MARKER), Find(body, CLOSE);
    CharAt(body, MARKER, m, 0);
    assert body[..e][m] == '[';
  }

  /** A marker with another one in it: one flush shows what is hidden from the batch form. */
  lemma NestedMarks(body: string, n: nat, emitted: set<nat>)
    requires ClosedInTime(body) && Find(body, MARKER) < Find(body, CLOSE) < |body|
    requires CutSafe(body[Find(body, CLOSE) + 2..])
    ensures var k, w := Find(body, CLOSE) + 2, FindSpace(body);
            && k <= w
            && (var d := Drain(body[k..w], n, emitted, true);
                && FlushMarks(MARKER + body, n, emitted) == Marks(d.out) + FlushMarks(body[w..], n, d.emitted)
                && BodyMarks(body, n, emitted) == BatchMarks(body[w..], n, emitted)
                && CutSafe(body[w..]))
  {
    hide Find, FindSpace, FlushAll, Batch, Marks, Fallback, CardOf, DropJunk, Drain, CutSafe, IsSpace;
    SpaceBehindPair(body);
    var k, w := Find(body, CLOSE) + 2, FindSpace(body);
    NestedNamesNothing(body, n, emitted);
    assert body[k..] != "" ==> body[k..][0] == body[k];
    NoJunk(body[k..]);
    FlushClosed(MARKER + body, body, n, emitted);
    assert [] + FlushAll(body[k..], n, emitted) == FlushAll(body[k..], n, emitted);
    NoSpaceUpTo(body, k);
    SplitAt(body, k, w);
    FlushMarksSplit(body[k..w], body[w..], n, emitted);
  }

  /** At the end of the text, what is hidden must be what the fallback shows first. */
  lemma HiddenAtEnd(u: string, n: nat, emitted: set<nat>)
    ensures var d := Drain(u, n, emitted, true);
            Marks(d.out) + FlushMarks("", n, d.emitted) == BatchMarks("", n, emitted) <==> d.out <= Fallback(n, emitted)
  {
    hide Drain, Marks, Fallback, Words;
    var d := Drain(u, n, emitted, true);
    var all, rest := Fallback(n, emitted), Fallback(n, d.emitted);
    EmptyDrain(n, d.emitted, true);
    FlushGoesOn("", n, d.emitted);
    EmptyBatch(n, emitted);
    assert [] + rest == rest && [] + all == all;
    if Marks(d.out) + Marks(rest) == Marks(all) {
      NoWordsInCards(all);
      TextOfMarks(all);
      TextOfMarks(d.out);
      TextOfSplit(Marks(d.out), Marks(rest));
      DrainNoneEmpty(u, n, emitted, true);
      OnlyCards(d.out);
      PrefixOfCards(d.out, all);
    }
    if d.out <= all {
      DrainEmits(u, n, emitted);
      FallbackRest(n, emitted, d.out, d.emitted);
      MarksSplit(d.out, rest);
    }
  }

  /** In front of whitespace nothing may be hidden. */
  lemma HiddenBeforeSpace(u: string, v: string, n: nat, emitted: set<nat>)
    requires v != "" && IsSpace(v[0]) && CutSafe(v)
    ensures var d := Drain(u, n, emitted, true);
            Marks(d.out) + FlushMarks(v, n, d.emitted) == BatchMarks(v, n, emitted)
            <==> d.out == [] && FlushMarks(v, n, emitted) == BatchMarks(v, n, emitted)
  {
    hide Drain, Marks, Fallback, Words, FlushAll, BatchFrom, CutSafe, IsSpace;
    var d := Drain(u, n, emitted, true);
    if d.out == [] {
      DrainNothing(u, n, emitted);
      assert Marks([]) + FlushMarks(v, n, emitted) == FlushMarks(v, n, emitted) by {
        NoMarks();
      }
    } else if Marks(d.out) + FlushMarks(v, n, d.emitted) == BatchMarks(v, n, emitted) {
      HiddenShowsNoText(u, v, n, emitted);
      DrainNoneEmpty(u, n, emitted, true);
      OnlyCards(d.out);
      MarksOfCards(d.out);
      SpaceFirst(v, n, emitted);
      DifferentFirst(Marks(d.out), FlushMarks(v, n, d.emitted), BatchMarks(v, n, emitted));
    }
  }

  lemma DifferentFirst(a: seq<Mark>, rest: seq<Mark>, b: seq<Mark>)
    requires a != [] && b != [] && a[0].Pic? && b[0].Letter?
    ensures a + rest != b
  {
    assert (a + rest)[0] == a[0];
  }

  lemma NoMarks()
    ensures Marks([]) == []
  {
  }

  lemma HiddenShowsNoText(u: string, v: string, n: nat, emitted: set<nat>)
    requires CutSafe(v)
    requires var d := Drain(u, n, emitted, true);
             Marks(d.out) + FlushMarks(v, n, d.emitted) == BatchMarks(v, n, emitted)
    ensures Words(Drain(u, n, emitted, true).out) == ""
  {
    hide Drain, Marks, Fallback, Words, CutSafe, Batch, FlushText, BatchText, NestingHidesNothing;
    var d := Drain(u, n, emitted, true);
    TextOfSplit(Marks(d.out), FlushMarks(v, n, d.emitted));
    TextOfMarks(d.out);
    TextOfFlushMarks(v, n, d.emitted);
    TextOfBatchMarks(v, n, emitted);
    BatchBelow(v);
  }

  lemma TextOfFlushMarks(v: string, n: nat, emitted: set<nat>)
    ensures TextOf(FlushMarks(v, n, emitted)) == FlushText(v)
  {
    hide Drain, DrainText, Words, Fallback;
    var d := Drain(v, n, emitted, true);
    TextOfMarks(FlushAll(v, n, emitted));
    DrainShowsText(v, n, emitted, true);
    NoWordsInCards(Fallback(n, d.emitted));
    WordsSplit(d.out, Fallback(n, d.emitted));
    FlushIs(v);
  }

  lemma TextOfBatchMarks(v: string, n: nat, emitted: set<nat>)
    ensures TextOf(BatchMarks(v, n, emitted)) == BatchText(v)
  {
    hide Batch, BatchText, Words, Fallback;
    var p := Batch(v, n, emitted);
    TextOfMarks(BatchFrom(v, n, emitted));
    BatchShowsText(v, n, emitted);
    NoWordsInCards(Fallback(n, p.emitted));
    WordsSplit(p.out, Fallback(n, p.emitted));
  }

  /** The batch form shows the whitespace that ends a marker. */
  lemma SpaceFirst(v: string, n: nat, emitted: set<nat>)
    requires v != "" && IsSpace(v[0])
    ensures BatchMarks(v, n, emitted) != [] && BatchMarks(v, n, emitted)[0] == Letter(v[0])
  {
    hide Find, IsSpace, BatchMarker, Fallback, Marks, At;
    BracketsAreNotSpace();
    NotAt(v, 0);
    var m := Find(v, MARKER);
    var p := Batch(v, n, emitted);
    assert m > 0;
    assert v[..m] != "" && v[..m][0] == v[0];
    var rest := p.out[1..] + Fallback(n, p.emitted);
    var first := if m == |v| then v else v[..m];
    assert p.out[0] == Say(first) && p.out + Fallback(n, p.emitted) == [Say(first)] + rest;
    MarksOfFirst(first, rest);
  }

  lemma MarksOfFirst(text: string, rest: seq<Item>)
    requires text != ""
    ensures Marks([Say(text)] + rest) != [] && Marks([Say(text)] + rest)[0] == Letter(text[0])
  {
    assert ([Say(text)] + rest)[1..] == rest;
  }

  /** On a safe text one flush shows what the batch form shows, text and cards, exactly when the nesting does. */
  lemma {:induction false} AlikeIff(text: string, n: nat, emitted: set<nat>)
    requires CutSafe(text)
    ensures FlushMarks(text, n, emitted) == BatchMarks(text, n, emitted) <==> NestingShowsAlike(text, n, emitted)
    decreases |text|, 0
  {
    hide Find, FlushMarks, BatchMarks, BodyShowsAlike, CutSafe, ClosedInTime;
    var m := Find(text, MARKER);
    if m == |text| {
      PlainAlike(text, n, emitted);
    } else {
      var body := text[m + |MARKER|..];
      SameFromMarker(text, n, emitted);
      FirstIsSafe(text, m);
      OpensAt(text, true);
      assert text[m..] == MARKER + body;
      SafeMarker(text[m..], body);
      BodyAlikeIff(body, n, emitted);
    }
  }

  lemma PlainAlike(text: string, n: nat, emitted: set<nat>)
    requires Find(text, MARKER) == |text|
    ensures FlushMarks(text, n, emitted) == BatchMarks(text, n, emitted)
  {
    hide Find, Fallback, Marks;
    DrainWithoutMarker(text, n, emitted, true);
    assert text[..|text|] == text;
  }

  lemma {:induction false} BodyAlikeIff(body: string, n: nat, emitted: set<nat>)
    requires ClosedInTime(body) && (Find(body, CLOSE) == |body| || CutSafe(body[Find(body, CLOSE) + 2..]))
    ensures FlushMarks(MARKER + body, n, emitted) == BodyMarks(body, n, emitted) <==> BodyShowsAlike(body, n, emitted)
    decreases |body|, 1
  {
    hide Find, FindSpace, FlushMarks, BatchMarks, BodyMarks, NestingShowsAlike, CutSafe, ClosedInTime, Drain, Fallback,
      IsSpace, CardOf;
    var e, w := Find(body, CLOSE), FindSpace(body);
    if e == |body| {
      UnclosedAlike(body, n, emitted);
    } else if Find(body, MARKER) < e {
      NestedMarks(body, n, emitted);
      if w == |body| {
        assert body[w..] == "";
        HiddenAtEnd(body[e + 2..w], n, emitted);
      } else {
        HiddenBeforeSpace(body[e + 2..w], body[w..], n, emitted);
        AlikeIff(body[w..], n, emitted);
      }
    } else {
      ClosedAlike(body, n, emitted);
      AlikeIff(body[e + 2..], n, CardOf(body[..e], n, emitted).emitted);
    }
  }

  // ----- The same marks, the same stream

  /** The marks of a stream: its text character by character, everything else as it is. */
  datatype Sign = Character(c: char) | Whole(e: Emission)

  function Characters(t: string): seq<Sign> {
    seq(|t|, i requires 0 <= i < |t| => Character(t[i]))
  }

  function SignsOf(e: Emission): seq<Sign> {
    if e.Delta? then Characters(e.text) else [Whole(e)]
  }

  function Signs(es: seq<Emission>): seq<Sign> {
    if es == [] then [] else SignsOf(es[0]) + Signs(es[1..])
  }

  lemma SignsFirst(e: Emission, rest: seq<Emission>)
    ensures Signs([e] + rest) == SignsOf(e) + Signs(rest)
  {
    assert ([e] + rest)[1..] == rest;
  }

  lemma PushSigns(e: Emission, merged: seq<Emission>)
    ensures Signs(Push(e, merged)) == SignsOf(e) + Signs(merged)
  {
    SignsFirst(e, merged);
    if e.Delta? && merged != [] && merged[0].Delta? {
      var joined := Delta(e.text + merged[0].text);
      SignsFirst(joined, merged[1..]);
      assert merged == [merged[0]] + merged[1..];
      SignsFirst(merged[0], merged[1..]);
      assert Characters(e.text + merged[0].text) == Characters(e.text) + Characters(merged[0].text);
    }
    hide Signs;
    assert e == Delta("") ==> SignsOf(e) + Signs(merged) == Signs(merged);
  }

  lemma {:induction false} MergedSigns(es: seq<Emission>)
    ensures Signs(Merged(es)) == Signs(es)
  {
    hide Push, SignsOf;
    if es != [] {
      MergedSigns(es[1..]);
      PushSigns(es[0], Merged(es[1..]));
    }
  }

  /** The number of characters in front. */
  function CharactersInFront(signs: seq<Sign>): nat {
    if signs == [] || !signs[0].Character? then 0 else 1 + CharactersInFront(signs[1..])
  }

  lemma {:induction false} TextInFront(t: string, rest: seq<Sign>)
    requires rest == [] || rest[0].Whole?
    ensures CharactersInFront(Characters(t) + rest) == |t|
  {
    var signs := Characters(t) + rest;
    if t == "" {
      assert signs == rest;
    } else {
      assert signs[1..] == Characters(t[1..]) + rest;
      TextInFront(t[1..], rest);
    }
  }

  /** The signs of a merged stream begin with its first text, and no more text follows directly. */
  lemma MergedBegins(es: seq<Emission>)
    requires IsMerged(es) && es != []
    ensures IsMerged(es[1..]) && Signs(es) == SignsOf(es[0]) + Signs(es[1..]) && SignsOf(es[0]) != []
    ensures es[0].Delta? ==> Signs(es[1..]) == [] || Signs(es[1..])[0].Whole?
  {
    assert forall i | 0 <= i < |es[1..]| :: es[1..][i] == es[i + 1];
    if es[0].Delta? && |es| > 1 {
      assert !es[1].Delta?;
      assert es[1..][0] == es[1];
    }
  }

  /** A merged stream is known by its signs. */
  lemma {:induction false} SignsTell(a: seq<Emission>, b: seq<Emission>)
    requires IsMerged(a) && IsMerged(b) && Signs(a) == Signs(b)
    ensures a == b
  {
    hide IsMerged;
    if a == [] || b == [] {
      if a != [] {
        MergedBegins(a);
      }
      if b != [] {
        MergedBegins(b);
      }
    } else {
      MergedBegins(a);
      MergedBegins(b);
      hide Signs;
      FirstSign(a[0], Signs(a[1..]));
      FirstSign(b[0], Signs(b[1..]));
      if a[0].Delta? {
        TextInFront(a[0].text, Signs(a[1..]));
        TextInFront(b[0].text, Signs(b[1..]));
        SameText(a[0].text, Signs(a[1..]), b[0].text, Signs(b[1..]));
      } else {
        assert (SignsOf(a[0]) + Signs(a[1..]))[1..] == Signs(a[1..]);
        assert (SignsOf(b[0]) + Signs(b[1..]))[1..] == Signs(b[1..]);
      }
      SignsTell(a[1..], b[1..]);
      assert a == [a[0]] + a[1..] && b == [b[0]] + b[1..];
    }
  }

  lemma FirstSign(e: Emission, rest: seq<Sign>)
    requires SignsOf(e) != []
    ensures var signs := SignsOf(e) + rest; signs != [] && if e.Delta? then signs[0].Character? else signs[0] == Whole(e)
  {
  }

  lemma SameText(a: string, x: seq<Sign>, b: string, y: seq<Sign>)
    requires Characters(a) + x == Characters(b) + y && |a| == |b|
    ensures a == b && x == y
  {
    forall i | 0 <= i < |a|
      ensures a[i] == b[i]
    {
      assert (Characters(a) + x)[i] == Character(a[i]) && (Characters(b) + y)[i] == Character(b[i]);
    }
    assert (Characters(a) + x)[|a|..] == x && (Characters(b) + y)[|b|..] == y;
  }

  lemma MergedIffSigns(a: seq<Emission>, b: seq<Emission>)
    ensures Merged(a) == Merged(b) <==> Signs(a) == Signs(b)
  {
    hide Merged, Signs, IsMerged;
    MergedSigns(a);
    MergedSigns(b);
    if Signs(a) == Signs(b) {
      SignsTell(Merged(a), Merged(b));
    }
  }

  function SignOf(mark: Mark, cards: seq<Card>): Sign {
    match mark
    case Letter(c) => Character(c)
    case Pic(i) => Whole(if i < |cards| then Viz(cards[i]) else Clarify)
  }

  function SignsFor(marks: seq<Mark>, cards: seq<Card>): seq<Sign> {
    seq(|marks|, i requires 0 <= i < |marks| => SignOf(marks[i], cards))
  }

  lemma {:induction false} ResolvedSigns(out: seq<Item>, cards: seq<Card>)
    requires Fits(out, |cards|)
    ensures Signs(Resolve(out, cards)) == SignsFor(Marks(out), cards)
  {
    if out != [] {
      assert out[0] in out && forall item | item in out[1..] :: item in out;
      ResolvedSigns(out[1..], cards);
      var e := if out[0].Say? then Delta(out[0].text) else Viz(cards[out[0].index]);
      SignsFirst(e, Resolve(out[1..], cards));
      var first := match out[0] case Say(t) => Letters(t) case Show(i) => [Pic(i)];
      assert SignsOf(e) == SignsFor(first, cards);
      SignsForSplit(first, Marks(out[1..]), cards);
    }
  }

  lemma SignsForSplit(a: seq<Mark>, b: seq<Mark>, cards: seq<Card>)
    ensures SignsFor(a + b, cards) == SignsFor(a, cards) + SignsFor(b, cards)
  {
  }

  /** No card is staged twice. */
  predicate DistinctCards(cards: seq<Card>) {
    forall i, j | 0 <= i < j < |cards| :: cards[i] != cards[j]
  }

  predicate MarksFit(marks: seq<Mark>, n: nat) {
    forall i | 0 <= i < |marks| && marks[i].Pic? :: marks[i].index < n
  }

  lemma {:induction false} MarksOfFit(out: seq<Item>, n: nat)
    requires Fits(out, n)
    ensures MarksFit(Marks(out), n)
  {
    if out != [] {
      assert out[0] in out && forall item | item in out[1..] :: item in out;
      MarksOfFit(out[1..], n);
    }
  }

  lemma DistinctTell(a: seq<Mark>, b: seq<Mark>, cards: seq<Card>)
    requires DistinctCards(cards) && MarksFit(a, |cards|) && MarksFit(b, |cards|)
    ensures SignsFor(a, cards) == SignsFor(b, cards) <==> a == b
  {
    if SignsFor(a, cards) == SignsFor(b, cards) {
      assert |a| == |SignsFor(a, cards)| == |SignsFor(b, cards)| == |b|;
      forall i | 0 <= i < |a|
        ensures a[i] == b[i]
      {
        assert SignsFor(a, cards)[i] == SignsFor(b, cards)[i];
      }
    }
  }

  /** Streams of the same marks are alike, and with distinct cards only those. */
  lemma SameStreamIff(a: seq<Item>, b: seq<Item>, cards: seq<Card>)
    requires Fits(a, |cards|) && Fits(b, |cards|)
    ensures Marks(a) == Marks(b) ==> Merged(Resolve(a, cards)) == Merged(Resolve(b, cards))
    ensures DistinctCards(cards) ==> (Merged(Resolve(a, cards)) == Merged(Resolve(b, cards)) <==> Marks(a) == Marks(b))
  {
    hide Merged, Resolve, Marks, SignsFor, Signs, MarksFit, DistinctCards;
    MergedIffSigns(Resolve(a, cards), Resolve(b, cards));
    ResolvedSigns(a, cards);
    ResolvedSigns(b, cards);
    if DistinctCards(cards) {
      MarksOfFit(a, |cards|);
      MarksOfFit(b, |cards|);
      DistinctTell(Marks(a), Marks(b), cards);
    }
  }

  /** Every streaming of a text shows what the batch form shows, text and cards, if the text is safe and its nesting
      shows alike; when no card is staged twice, only if. */
  lemma SameShownIff(text: string, cards: seq<Card>)
    ensures CutSafe(text) && NestingShowsAlike(text, |cards|, {}) ==>
              forall chunks | Concat(chunks) == text :: Streamed(chunks, cards) == Batched(text, cards)
    ensures DistinctCards(cards) ==>
              ((forall chunks | Concat(chunks) == text :: Streamed(chunks, cards) == Batched(text, cards))
               <==> CutSafe(text) && NestingShowsAlike(text, |cards|, {}))
  {
    hide CutSafe, Streamed, Concat, FlushAll, BatchFrom, Merged, Resolve, Marks, NestingShowsAlike, DistinctCards;
    OneChunkIsFlush(text, cards);
    CutIndependentIff(text, cards);
    SameStreamIff(FlushAll(text, |cards|, {}), BatchFrom(text, |cards|, {}), cards);
    if CutSafe(text) {
      AlikeIff(text, |cards|, {});
    }
    if forall chunks | Concat(chunks) == text :: Streamed(chunks, cards) == Batched(text, cards) {
      assert Streamed([text], cards) == Batched(text, cards);
    }
  }

  // ----- Texts for which they differ

  /** A marker that opens inside another one is closed by the inner pair in every streaming, and the text behind it
      shows; the batch form skips to the next whitespace. */
  lemma {:induction false} NestingDiffers(value: string, after: string, cards: seq<Card>, chunks: seq<string>)
    requires (forall c | c in value :: c != '[' && c != ']' && !IsSpace(c))
    requires after != "" && forall c | c in after :: c != '[' && c != ']' && !IsSpace(c)
    requires Concat(chunks) == MARKER + (MARKER + value + (CLOSE + after))
    ensures Prose(Streamed(chunks, cards)) == after
    ensures Prose(Batched(MARKER + (MARKER + value + (CLOSE + after)), cards)) == ""
  {
    hide IsSpace, Streamed, Batched, Prose, Concat, FlushText, DrainText, CutSafe, BatchText, Find, FindSpace;
    var text := MARKER + (MARKER + value + (CLOSE + after));
    NestedIsSafe(value, after);
    SafeCut(text, chunks, cards);
    TextOfFlushed(text, cards);
    NoBracketInOpening(value);
    assert after[0] in after;
    FlushOfClosed(MARKER + value, after);
    PlainText(after);
    TextOfBatched(text, cards);
    BatchSkips(value, after);
  }

  lemma NoBracketInOpening(value: string)
    requires ']' !in value
    ensures ']' !in MARKER + value
  {
  }

  lemma NoSpaceIn(t: string)
    requires forall c | c in t :: !IsSpace(c)
    ensures FindSpace(t) == |t|
  {
    hide FindSpace, IsSpace;
    assert forall j | 0 <= j < |t| :: t[j] in t;
  }

  lemma NestedBody(value: string, after: string)
    requires (forall c | c in value :: c != '[' && c != ']' && !IsSpace(c))
    requires after != "" && forall c | c in after :: c != '[' && c != ']' && !IsSpace(c)
    ensures var body := MARKER + value + (CLOSE + after);
            && FindSpace(body) == |body|
            && Find(body, CLOSE) == |MARKER + value|
            && Find(body, MARKER) == 0
            && body[|MARKER + value| + 2..] == after
  {
    hide IsSpace, Find, FindSpace;
    var body := MARKER + value + (CLOSE + after);
    NoBracketInOpening(value);
    FirstPair(MARKER + value, after);
    BracketsAreNotSpace();
    forall c | c in body
      ensures !IsSpace(c)
    {
      if c in MARKER {
        var j :| 0 <= j < |MARKER| && MARKER[j] == c;
        NoSpaceInMarker(j);
      }
    }
    NoSpaceIn(body);
    assert MARKER <= body;
    FirstIn(body);
  }

  lemma NestedIsSafe(value: string, after: string)
    requires (forall c | c in value :: c != '[' && c != ']' && !IsSpace(c))
    requires after != "" && forall c | c in after :: c != '[' && c != ']' && !IsSpace(c)
    ensures CutSafe(MARKER + (MARKER + value + (CLOSE + after)))
  {
    hide IsSpace, Find, FindSpace, CutSafe;
    var body := MARKER + value + (CLOSE + after);
    NestedBody(value, after);
    SafeMarker(MARKER + body, body);
    assert body[|MARKER + value| + 2] == after[0] && after[0] in after;
    SafeWithoutMarker(after);
  }

  lemma SafeWithoutMarker(t: string)
    requires forall c | c in t :: c != ']'
    ensures CutSafe(t)
  {
    hide Find, CutSafe, At;
    assert forall j | 0 <= j < |t| :: t[j] in t;
    if Find(t, CLOSE) < |t| {
      FoundPair(t);
    }
    NoCloseIsSafe(t);
  }

  lemma BatchSkips(value: string, after: string)
    requires (forall c | c in value :: c != '[' && c != ']' && !IsSpace(c))
    requires after != "" && forall c | c in after :: c != '[' && c != ']' && !IsSpace(c)
    ensures BatchText(MARKER + (MARKER + value + (CLOSE + after))) == ""
  {
    hide IsSpace, Find, FindSpace, BatchBodyText;
    var body := MARKER + value + (CLOSE + after);
    FirstIn(MARKER + body);
    assert (MARKER + body)[|MARKER|..] == body && (MARKER + body)[..0] == "";
    BatchSkipsBody(value, after);
  }

  lemma BatchSkipsBody(value: string, after: string)
    requires (forall c | c in value :: c != '[' && c != ']' && !IsSpace(c))
    requires after != "" && forall c | c in after :: c != '[' && c != ']' && !IsSpace(c)
    ensures BatchBodyText(MARKER + value + (CLOSE + after)) == ""
  {
    hide IsSpace, Find, FindSpace, BatchText;
    var body := MARKER + value + (CLOSE + after);
    NestedBody(value, after);
    assert body[|body|..] == "";
    EmptyBatchText();
  }

  lemma EmptyBatchText()
    ensures BatchText("") == ""
  {
  }

  /** Behind a marker that opens inside another one a card is placed by every streaming and left to the fallback by the
      batch form, although both show the same text. */
  lemma {:induction false} CardMoves(tail: string, card: Card)
    requires tail != "" && IsSpace(tail[0]) && '[' !in tail && ']' !in tail
    ensures var text := MARKER + (MARKER + "1" + (CLOSE + (MARKER + ("1" + (CLOSE + tail)))));
            && CutSafe(text) && NestingHidesNothing(text)
            && FlushAll(text, 1, {}) == [Show(0), Say(tail)]
            && BatchFrom(text, 1, {}) == [Say(tail), Show(0)]
            && Streamed([text], [card]) != Batched(text, [card])
  {
    hide IsSpace, CutSafe, NestingHidesNothing, FlushAll, BatchFrom, Streamed, Marks, FlushText, BatchText, Resolve, Merged;
    var rest := MARKER + ("1" + (CLOSE + tail));
    var text := MARKER + (MARKER + "1" + (CLOSE + rest));
    BodyWithCard(tail);
    InnerCard(tail);
    CardFlushed(tail);
    CardLeft(tail);
    CardTextSafe(tail);
    MovedMarks(tail);
    TextOfFlushMarks(text, 1, {});
    TextOfBatchMarks(text, 1, {});
    BatchBelow(text);
    OneChunkIsFlush(text, [card]);
    assert DistinctCards([card]) && |[card]| == 1;
    SameStreamIff(FlushAll(text, 1, {}), BatchFrom(text, 1, {}), [card]);
  }

  lemma MovedMarks(tail: string)
    requires tail != ""
    ensures Marks([Show(0), Say(tail)]) != Marks([Say(tail), Show(0)])
    ensures TextOf(Marks([Show(0), Say(tail)])) == tail == TextOf(Marks([Say(tail), Show(0)]))
  {
    var a, b := [Show(0), Say(tail)], [Say(tail), Show(0)];
    assert a[1..] == [Say(tail)] && b[1..] == [Show(0)] && [Say(tail)][1..] == [] && [Show(0)][1..] == [];
    assert Marks([Say(tail)]) == Letters(tail) && Marks([Show(0)]) == [Pic(0)];
    assert Marks(a) == [Pic(0)] + Letters(tail) && Marks(b) == Letters(tail) + [Pic(0)];
    assert Marks(a)[0] == Pic(0) && Marks(b)[0] == Letter(tail[0]);
    TextOfMarks(a);
    TextOfMarks(b);
    assert Words([Say(tail)]) == tail && Words([Show(0)]) == "";
  }

  /** The body of the outer marker. */
  lemma BodyWithCard(tail: string)
    requires tail != "" && IsSpace(tail[0]) && '[' !in tail && ']' !in tail
    ensures var rest := MARKER + ("1" + (CLOSE + tail));
            var body := MARKER + "1" + (CLOSE + rest);
            && Find(body, CLOSE) == |MARKER + "1"| && Find(body, MARKER) == 0
            && body[|MARKER + "1"| + 2..] == rest && body[|MARKER + "1"| + 2] == '['
            && FindSpace(body) == |body| - |tail| && body[FindSpace(body)..] == tail
  {
    hide IsSpace, Find, FindSpace;
    var rest := MARKER + ("1" + (CLOSE + tail));
    var body := MARKER + "1" + (CLOSE + rest);
    NoBracketInOpening("1");
    FirstPair(MARKER + "1", rest);
    assert MARKER <= body;
    FirstIn(body);
    var front := MARKER + "1" + (CLOSE + (MARKER + ("1" + CLOSE)));
    assert body == front + tail;
    FrontHasNoSpace(front);
    SpaceBehind(front, tail);
  }

  lemma FrontHasNoSpace(front: string)
    requires front == MARKER + "1" + (CLOSE + (MARKER + ("1" + CLOSE)))
    ensures FindSpace(front) == |front|
  {
    hide FindSpace, IsSpace;
    BracketsAreNotSpace();
    assert !IsSpace('1') by {
      DigitIsNotSpace();
    }
    forall c | c in front
      ensures !IsSpace(c)
    {
      if c in MARKER {
        var j :| 0 <= j < |MARKER| && MARKER[j] == c;
        NoSpaceInMarker(j);
      }
    }
    NoSpaceIn(front);
  }

  lemma DigitIsNotSpace()
    ensures !IsSpace('1')
  {
  }

  /** The inner marker and what follows. */
  lemma InnerCard(tail: string)
    requires tail != "" && IsSpace(tail[0]) && '[' !in tail && ']' !in tail
    ensures var body := "1" + (CLOSE + tail);
            && Find(body, CLOSE) == 1 && body[..1] == "1" && body[3..] == tail && body[3] == tail[0]
            && FindSpace(body) == 3 && FindSpace(body) < |body|
  {
    hide IsSpace, Find, FindSpace;
    FirstPair("1", tail);
    DigitIsNotSpace();
    BracketsAreNotSpace();
    var front := "1" + CLOSE;
    assert "1" + (CLOSE + tail) == front + tail;
    forall c | c in front
      ensures !IsSpace(c)
    {
    }
    NoSpaceIn(front);
    SpaceBehind(front, tail);
  }

  lemma CardOne()
    ensures CardOf("1", 1, {}) == Placed([Show(0)], {0}) && Fallback(1, {0}) == [] && Fallback(1, {}) == [Show(0)]
  {
    assert "1"[..0] == "" && ToNumber("") == 0;
    assert ToNumber("1") == 1;
    assert IsDigits("1");
    assert Fallback(0, {}) == [] && Fallback(0, {0}) == [];
  }

  lemma PlainFlush(tail: string, emitted: set<nat>)
    requires tail != "" && '[' !in tail
    ensures FlushAll(tail, 1, emitted) == [Say(tail)] + Fallback(1, emitted)
    ensures Batch(tail, 1, emitted) == Placed([Say(tail)], emitted)
  {
    hide Fallback, At, Find, BatchMarker;
    forall i: nat
      ensures !At(tail, MARKER, i)
    {
      if i < |tail| {
        assert tail[i] in tail;
        NotAt(tail, i);
      } else {
        BeyondEnd(tail, i);
      }
    }
    assert Find(tail, MARKER) == |tail|;
    DrainWithoutMarker(tail, 1, emitted, true);
    assert tail[..|tail|] == tail;
    FlushGoesOn(tail, 1, emitted);
  }

  lemma BeyondEnd(t: string, i: nat)
    requires i >= |t|
    ensures !At(t, MARKER, i)
  {
  }

  lemma CardFlushed(tail: string)
    requires tail != "" && IsSpace(tail[0]) && '[' !in tail && ']' !in tail
    ensures FlushAll(MARKER + (MARKER + "1" + (CLOSE + (MARKER + ("1" + (CLOSE + tail))))), 1, {})
         == [Show(0), Say(tail)]
  {
    hide IsSpace, Find, FindSpace, FlushAll, DropJunk, Fallback, CardOf;
    var inner := "1" + (CLOSE + tail);
    var rest := MARKER + inner;
    var body := MARKER + "1" + (CLOSE + rest);
    BodyWithCard(tail);
    InnerCard(tail);
    CardOne();
    NestedNamesNothing(body, 1, {});
    NoJunk(rest);
    FlushClosed(MARKER + body, body, 1, {});
    BracketsAreNotSpace();
    NoJunk(tail);
    FlushClosed(rest, inner, 1, {});
    PlainFlush(tail, {0});
    assert [Say(tail)] + [] == [Say(tail)] && [Show(0)] + [Say(tail)] == [Show(0), Say(tail)];
    assert [] + FlushAll(rest, 1, {}) == FlushAll(rest, 1, {});
  }

  lemma CardLeft(tail: string)
    requires tail != "" && IsSpace(tail[0]) && '[' !in tail && ']' !in tail
    ensures BatchFrom(MARKER + (MARKER + "1" + (CLOSE + (MARKER + ("1" + (CLOSE + tail))))), 1, {})
         == [Say(tail), Show(0)]
  {
    hide IsSpace, Find, FindSpace, FlushAll, DropJunk, Fallback, CardOf, Batch;
    var body := MARKER + "1" + (CLOSE + (MARKER + ("1" + (CLOSE + tail))));
    BodyWithCard(tail);
    CardOne();
    PlainFlush(tail, {});
    BatchOfMarker(body, 1, {});
    assert [Say(tail)] + [Show(0)] == [Say(tail), Show(0)];
  }

  lemma BatchOfMarker(body: string, n: nat, emitted: set<nat>)
    ensures Batch(MARKER + body, n, emitted) == BatchMarker(body, n, emitted)
  {
    hide BatchMarker, Find;
    FirstIn(MARKER + body);
    assert (MARKER + body)[..0] == "" && (MARKER + body)[|MARKER|..] == body;
    var p := BatchMarker(body, n, emitted);
    assert [] + p.out == p.out;
  }

  lemma CardTextSafe(tail: string)
    requires tail != "" && IsSpace(tail[0]) && '[' !in tail && ']' !in tail
    ensures CutSafe(MARKER + (MARKER + "1" + (CLOSE + (MARKER + ("1" + (CLOSE + tail))))))
  {
    hide IsSpace, Find, FindSpace, CutSafe;
    var inner := "1" + (CLOSE + tail);
    var rest := MARKER + inner;
    var body := MARKER + "1" + (CLOSE + rest);
    BodyWithCard(tail);
    InnerCard(tail);
    SafeWithoutMarker(tail);
    assert tail[0] in tail;
    SafeMarker(rest, inner);
    SafeMarker(MARKER + body, body);
  }
}
