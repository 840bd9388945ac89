/** Exactly when the cutting of a streamed answer into chunks matters. */
module VizCuts {
  import opened Text
  import opened Emissions
  import opened VizPlacement

  // ----- The text shown, which does not depend on the cards

  /** The text among the things shown. */
  function Words(out: seq<Item>): string {
    if out == [] then "" else (if out[0].Say? then out[0].text else "") + Words(out[1..])
  }

  lemma {:induction false} WordsAreProse(out: seq<Item>, cards: seq<Card>)
    requires Fits(out, |cards|)
    ensures Prose(Resolve(out, cards)) == Words(out)
  {
    if out != [] {
      assert forall item | item in out[1..] :: item in out;
      WordsAreProse(out[1..], cards);
      var e := if out[0].Say? then Delta(out[0].text) else Viz(cards[out[0].index]);
      assert ([e] + Resolve(out[1..], cards))[1..] == Resolve(out[1..], cards);
    }
  }

  lemma {:induction false} WordsSplit(a: seq<Item>, b: seq<Item>)
    ensures Words(a + b) == Words(a) + Words(b)
  {
    if a == [] {
      assert a + b == b;
    } else {
      assert (a + b)[1..] == a[1..] + b;
      WordsSplit(a[1..], b);
    }
  }

  lemma WordsOfText(t: string)
    ensures Words(Spoken(t)) == t
  {
    assert [Say(t)][1..] == [];
  }

  lemma {:induction false} NoWordsInCards(out: seq<Item>)
    requires forall item | item in out :: item.Show?
    ensures Words(out) == ""
  {
    if out != [] {
      assert out[0] in out && forall item | item in out[1..] :: item in out;
      NoWordsInCards(out[1..]);
    }
  }

  /** The text shown when a pending text is drained, and what stays pending. */
  datatype Plain = Plain(text: string, pending: string)

  function Behind(text: string, d: Plain): Plain {
    d.(text := text + d.text)
  }

  /** Draining with the cards left out. */
  function DrainText(p: string, final: bool): Plain
    decreases |p|, 0
  {
    var m := Find(p, MARKER);
    if m == |p| then
      var k := |p| - if final then 0 else TrailingMarkerPrefixLen(p);
      Plain(p[..k], p[k..])
    else Behind(p[..m], MarkerText(p[m + |MARKER|..], final))
  }

  /** Draining behind a marker opening. */
  function MarkerText(body: string, final: bool): Plain
    decreases |body|, 1
  {
    var e := Find(body, CLOSE);
    var w := FindSpace(body);
    if e < |body| then DrainText(DropJunk(body[e + 2..]), final)
    else if w < |body| then DrainText(body[w..], final)
    else Plain("", if final then "" else MARKER + body)
  }

  /** The text that a flush of `p` shows. */
  function FlushText(p: string): string {
    DrainText(p, true).text
  }

  /** The text that streaming shows. */
  function StreamText(pending: string, chunks: seq<string>): string
    decreases |chunks|
  {
    if chunks == [] then FlushText(pending)
    else if chunks[0] == "" then StreamText(pending, chunks[1..])
    else
      var d := DrainText(pending + chunks[0], false);
      d.text + StreamText(d.pending, chunks[1..])
  }

  /** A drain shows the same text and leaves the same text pending, whatever cards there are. */
  lemma {:induction false} DrainShowsText(p: string, n: nat, emitted: set<nat>, final: bool)
    ensures var d := Drain(p, n, emitted, final);
            Plain(Words(d.out), d.pending) == DrainText(p, final)
    decreases |p|, 1
  {
    hide Find, DrainMarker, MarkerText, Words, TrailingPrefixLen;
    var m := Find(p, MARKER);
    if m == |p| {
      WordsOfText(p[..|p| - if final then 0 else TrailingMarkerPrefixLen(p)]);
    } else {
      assert p[m..] == MARKER + p[m + |MARKER|..];
      MarkerShowsText(p[m + |MARKER|..], n, emitted, final);
      WordsOfText(p[..m]);
      WordsSplit(Spoken(p[..m]), DrainMarker(p[m..], n, emitted, final).out);
    }
  }

  lemma {:induction false} MarkerShowsText(body: string, n: nat, emitted: set<nat>, final: bool)
    ensures var d := DrainMarker(MARKER + body, n, emitted, final);
            Plain(Words(d.out), d.pending) == MarkerText(body, final)
    decreases |body|, 2
  {
    hide Find, FindSpace, DropJunk, Drain, DrainText, CardOf;
    assert (MARKER + body)[|MARKER|..] == body;
    var e := Find(body, CLOSE);
    var w := FindSpace(body);
    if e < |body| {
      var card := CardOf(body[..e], n, emitted);
      var rest := DropJunk(body[e + 2..]);
      DrainShowsText(rest, n, card.emitted, final);
      CardOnly(body[..e], n, emitted);
      NoWordsInCards(card.out);
      WordsSplit(card.out, Drain(rest, n, card.emitted, final).out);
    } else if w < |body| {
      DrainShowsText(body[w..], n, emitted, final);
    }
  }

  lemma FlushShowsText(p: string, cards: seq<Card>, emitted: set<nat>)
    ensures Prose(Resolve(FlushAll(p, |cards|, emitted), cards)) == FlushText(p)
  {
    hide Drain, DrainText, Words, Fallback, Resolve, Prose;
    var n := |cards|;
    var d := Drain(p, n, emitted, true);
    DrainShowsText(p, n, emitted, true);
    NoWordsInCards(Fallback(n, d.emitted));
    WordsSplit(d.out, Fallback(n, d.emitted));
    WordsAreProse(FlushAll(p, n, emitted), cards);
  }

  lemma {:induction false} StreamShowsText(pending: string, chunks: seq<string>, cards: seq<Card>, emitted: set<nat>)
    ensures Prose(Resolve(StreamAll(pending, chunks, |cards|, emitted), cards)) == StreamText(pending, chunks)
    decreases |chunks|
  {
    hide Drain, DrainText, Words, Resolve, Prose, FlushAll, FlushText;
    var n := |cards|;
    if chunks == [] {
      FlushShowsText(pending, cards, emitted);
    } else if chunks[0] == "" {
      StreamShowsText(pending, chunks[1..], cards, emitted);
    } else {
      var d := Drain(pending + chunks[0], n, emitted, false);
      DrainShowsText(pending + chunks[0], n, emitted, false);
      var later := StreamAll(d.pending, chunks[1..], n, d.emitted);
      StreamShowsText(d.pending, chunks[1..], cards, d.emitted);
      ResolveSplit(d.out, later, cards);
      ProseSplit(Resolve(d.out, cards), Resolve(later, cards));
      WordsAreProse(d.out, cards);
    }
  }

  // ----- Unfolding

  lemma FlushOfPlain(p: string)
    requires Find(p, MARKER) == |p|
    ensures FlushText(p) == p
  {
    assert p[..|p|] == p;
  }

  lemma OpensAt(t: string, final: bool)
    requires Find(t, MARKER) < |t|
    ensures var m := Find(t, MARKER);
            && t == t[..m] + (MARKER + t[m + |MARKER|..])
            && DrainText(t, final) == Behind(t[..m], MarkerText(t[m + |MARKER|..], final))
  {
    hide Find, MarkerText;
  }

  /** Text in which no marker begins is shown as it is. */
  lemma SpeakPlain(a: string, b: string)
    requires forall i: nat | i < |a| :: !At(a + b, MARKER, i)
    ensures FlushText(a + b) == a + FlushText(b)
  {
    hide MarkerText, Find;
    FindBehind(a, b, MARKER);
    var m := Find(b, MARKER);
    if m < |b| {
      OpensAt(b, true);
      OpensAt(a + b, true);
      assert (a + b)[..|a| + m] == a + b[..m];
      assert (a + b)[|a| + m + |MARKER|..] == b[m + |MARKER|..];
    } else {
      FlushOfPlain(b);
      FlushOfPlain(a + b);
    }
  }

  lemma AtMiddle(a: string, p: string, c: string)
    ensures At(a + (p + c), p, |a|)
  {
    assert (a + (p + c))[|a|..] == p + c;
  }

  /** What is in front of the first opening is the same with another text behind the opening. */
  lemma {:induction false} OpensStill(a: string, p: string, b: string, c: string)
    requires p != "" && Find(a + (p + b), p) == |a|
    ensures Find(a + (p + c), p) == |a|
  {
    hide Find, At;
    AtMiddle(a, p, c);
    var m := Find(a + (p + c), p);
    if m < |a| {
      assert (a + p) + b == a + (p + b) && (a + p) + c == a + (p + c);
      AtInLonger(a + p, b, p, m);
      AtInLonger(a + p, c, p, m);
    }
  }

  lemma DrainBehind(a: string, b: string, c: string, final: bool)
    requires Find(a + (MARKER + b), MARKER) == |a|
    ensures DrainText(a + (MARKER + c), final) == Behind(a, MarkerText(c, final))
  {
    hide Find, MarkerText, DrainText;
    OpensStill(a, MARKER, b, c);
    OpensAt(a + (MARKER + c), final);
    Middle(a, MARKER, c);
  }

  lemma Middle(a: string, p: string, c: string)
    ensures var t := a + (p + c); t[..|a|] == a && t[|a| + |p|..] == c
  {
  }

  // ----- A cut that shows more

  lemma FindFrom(s: string, k: nat, p: string)
    requires p != "" && k <= Find(s, p)
    ensures Find(s[k..], p) == Find(s, p) - k
  {
    hide Find, At;
    assert s[..k] + s[k..] == s;
    FindBehind(s[..k], s[k..], p);
  }

  lemma FoundPair(s: string)
    requires Find(s, CLOSE) < |s|
    ensures var e := Find(s, CLOSE);
            && e + 2 <= |s| && s[e] == ']'
            && s == s[..e] + (CLOSE + s[e + 2..])
  {
    hide Find, At;
    var e := Find(s, CLOSE);
    FoundStarts(s, CLOSE);
    StartsWith(s[e..], CLOSE);
    assert s == s[..e] + s[e..];
  }

  lemma StartsWith(t: string, p: string)
    requires p <= t && p != ""
    ensures t == p + t[|p|..] && t[0] == p[0]
  {
  }

  lemma CharAt(t: string, p: string, i: nat, j: nat)
    requires At(t, p, i) && j < |p|
    ensures t[i + j] == p[j]
  {
    assert t[i..i + |p|][j] == t[i + j];
  }

  lemma MarkerNeverCloses(j: nat)
    requires j < |MARKER|
    ensures MARKER[j] != ']'
  {
  }

  lemma NotAt(t: string, i: nat)
    requires i < |t| && t[i] != '['
    ensures !At(t, MARKER, i)
  {
    if At(t, MARKER, i) {
      CharAt(t, MARKER, i, 0);
      assert false;
    }
  }

  /** An opening in front of a closing pair ends in front of it. */
  lemma OpensBefore(s: string)
    requires Find(s, MARKER) < Find(s, CLOSE) < |s|
    ensures Find(s, MARKER) + |MARKER| <= Find(s, CLOSE)
  {
    hide Find, At;
    FoundPair(s);
    var m, e := Find(s, MARKER), Find(s, CLOSE);
    if e < m + |MARKER| {
      CharAt(s, MARKER, m, e - m);
      MarkerNeverCloses(e - m);
    }
  }

  lemma JunkShown(s: string)
    ensures var rest := DropJunk(s);
            |rest| <= |s| && FlushText(s) == s[..|s| - |rest|] + FlushText(rest)
  {
    hide FlushText, DropJunk;
    DropJunkMeans(s);
    var k := |s| - |DropJunk(s)|;
    assert s == s[..k] + DropJunk(s);
    forall i: nat | i < k
      ensures !At(s, MARKER, i)
    {
      assert i + |MARKER| <= |s| ==> s[i..i + |MARKER|][0] == s[i];
    }
    SpeakPlain(s[..k], DropJunk(s));
  }

  /** At least what is shown behind a closing pair is shown when the text in front of the pair is shown too. */
  lemma TailSurvives(s: string)
    requires Find(s, CLOSE) < |s|
    ensures var e := Find(s, CLOSE);
            e + 2 <= |s| && |FlushText(s)| >= |FlushText(DropJunk(s[e + 2..]))|
  {
    hide Find, FlushText, DropJunk, MarkerText, DrainText;
    FoundPair(s);
    var m, e := Find(s, MARKER), Find(s, CLOSE);
    if m < e {
      OpensBefore(s);
      OpensAt(s, true);
      FindFrom(s, m + |MARKER|, CLOSE);
      MarkerCloses(s[m + |MARKER|..], true);
      assert s[m + |MARKER|..][e - m - |MARKER| + 2..] == s[e + 2..];
      FlushIs(s);
      FlushIs(DropJunk(s[e + 2..]));
    } else {
      NoMarkerUpToPair(s);
      assert s == s[..e + 2] + s[e + 2..];
      SpeakPlain(s[..e + 2], s[e + 2..]);
      JunkShown(s[e + 2..]);
    }
  }

  lemma NoMarkerUpToPair(s: string)
    requires Find(s, CLOSE) < |s| && Find(s, CLOSE) <= Find(s, MARKER)
    ensures forall i: nat | i < Find(s, CLOSE) + 2 :: !At(s, MARKER, i)
  {
    hide Find, At;
    var e := Find(s, CLOSE);
    CharAt(s, CLOSE, e, 0);
    CharAt(s, CLOSE, e, 1);
    FoundPair(s);
    forall i: nat | i < e + 2
      ensures !At(s, MARKER, i)
    {
      if i >= e {
        NotAt(s, i);
      }
    }
  }

  lemma FlushIs(p: string)
    ensures FlushText(p) == DrainText(p, true).text
  {
  }

  lemma MarkerCloses(body: string, final: bool)
    requires Find(body, CLOSE) < |body|
    ensures var e := Find(body, CLOSE);
            e + 2 <= |body| && MarkerText(body, final) == DrainText(DropJunk(body[e + 2..]), final)
  {
    hide DrainText;
  }

  /** The text that is shown when `b` and nothing more arrives after a drain. */
  function TwoText(d: Plain, b: string): string {
    d.text + FlushText(d.pending + b)
  }

  lemma DrainOfSpace(c: char)
    requires IsSpace(c)
    ensures DrainText([c], false) == Plain([c], "")
  {
    BracketsAreNotSpace();
    HoldsBackNone(c, MARKER);
    hide IsSpace;
    assert [c][..1] == [c] && [c][1..] == "";
  }

  /** Whitespace in front of the closing pair shows when the cut is behind it. */
  lemma CutAtSpace(body: string) returns (a: string, b: string)
    requires FindSpace(body) < Find(body, CLOSE) < |body|
    ensures a + b == body && |TwoText(MarkerText(a, false), b)| > |MarkerText(body, true).text|
  {
    hide Find, FindSpace, FlushText, MarkerText, TwoText;
    var w := FindSpace(body);
    a, b := body[..w + 1], body[w + 1..];
    ShowsSpace(body);
    TwoTextDone([body[w]], b);
    TailBehindSpace(body, w + 1);
  }

  /** Nothing is pending when the second piece arrives. */
  lemma TwoTextDone(text: string, b: string)
    ensures TwoText(Plain(text, ""), b) == text + FlushText(b)
  {
    hide FlushText;
    assert "" + b == b;
  }

  lemma ShowsSpace(body: string)
    requires FindSpace(body) < Find(body, CLOSE)
    ensures var w := FindSpace(body); MarkerText(body[..w + 1], false) == Plain([body[w]], "")
  {
    hide Find, FindSpace, DrainText, IsSpace, MarkerText;
    var w := FindSpace(body);
    SpaceEndsFirst(body, w);
    SpaceEnds(body[..w + 1]);
    assert body[..w + 1][w..] == [body[w]];
    DrainOfSpace(body[w]);
  }

  lemma TailBehindSpace(body: string, k: nat)
    requires k <= Find(body, CLOSE) < |body|
    ensures |FlushText(body[k..])| >= |MarkerText(body, true).text|
  {
    hide Find, FlushText, DropJunk, DrainText, MarkerText;
    var e := Find(body, CLOSE);
    FindFrom(body, k, CLOSE);
    TailSurvives(body[k..]);
    assert body[k..][e - k + 2..] == body[e + 2..];
    MarkerCloses(body, true);
    FlushIs(DropJunk(body[e + 2..]));
  }

  lemma SpaceEnds(body: string)
    requires Find(body, CLOSE) == |body| && FindSpace(body) < |body|
    ensures MarkerText(body, false) == DrainText(body[FindSpace(body)..], false)
  {
    hide DrainText, Find, FindSpace;
  }

  lemma SpaceEndsFirst(body: string, w: nat)
    requires w == FindSpace(body) < Find(body, CLOSE)
    ensures var a := body[..w + 1]; Find(a, CLOSE) == |a| && FindSpace(a) == w
  {
    hide Find, IsSpace, FindSpace;
    var a := body[..w + 1];
    assert a + body[w + 1..] == body;
    if Find(a, CLOSE) < |a| {
      FindInLonger(a, body[w + 1..], CLOSE);
    }
    var k := FindSpace(a);
    assert a[w] == body[w] && (k < |a| ==> a[k] == body[k]);
  }

  /** Closing brackets behind the pair show when the cut is in front of them. */
  lemma CutAtBracket(body: string) returns (a: string, b: string)
    requires var e := Find(body, CLOSE); e + 2 < |body| && body[e + 2] == ']'
    ensures a + b == body && |TwoText(MarkerText(a, false), b)| > |MarkerText(body, true).text|
  {
    hide Find, FlushText, DrainText, DropJunk, MarkerText, TwoText;
    var e := Find(body, CLOSE);
    a, b := body[..e + 2], body[e + 2..];
    DrainsPair(body);
    MarkerCloses(body, true);
    JunkShown(b);
    TwoTextDone("", b);
    DropsMore(b);
    FlushIs(DropJunk(b));
  }

  lemma DrainsPair(body: string)
    requires Find(body, CLOSE) < |body|
    ensures var e := Find(body, CLOSE); e + 2 <= |body| && MarkerText(body[..e + 2], false) == Plain("", "")
  {
    hide Find, DrainText, DropJunk, MarkerText;
    var e := Find(body, CLOSE);
    FoundPair(body);
    OpensStill(body[..e], CLOSE, body[e + 2..], "");
    var a := body[..e] + (CLOSE + "");
    assert a == body[..e + 2];
    assert a[e + 2..] == "";
    MarkerCloses(a, false);
    JunkDrops();
    EmptyText();
  }

  lemma EmptyText()
    ensures DrainText("", false) == Plain("", "") && FlushText("") == ""
  {
    hide MarkerText, Find;
    assert Find("", MARKER) == 0;
    assert ""[..0] == "" && ""[0..] == "";
  }

  lemma DropsMore(b: string)
    requires b != "" && b[0] == ']'
    ensures |DropJunk(b)| < |b|
  {
  }

  /** What makes the text behind the marker show more makes all of it show more. */
  lemma CutBehind(body: string, x: string, y: string)
    requires var e := Find(body, CLOSE);
             e + 2 <= |body| && (e + 2 < |body| ==> body[e + 2] != ']') && x + y == body[e + 2..]
    requires |TwoText(DrainText(x, false), y)| > |FlushText(body[Find(body, CLOSE) + 2..])|
    ensures var a := body[..Find(body, CLOSE)] + (CLOSE + x);
            a + y == body && |TwoText(MarkerText(a, false), y)| > |MarkerText(body, true).text|
  {
    hide Find, FindSpace, FlushText, DrainText, DropJunk, MarkerText;
    var e := Find(body, CLOSE);
    FoundPair(body);
    var a := body[..e] + (CLOSE + x);
    OpensStill(body[..e], CLOSE, x + y, x);
    assert a[e + 2..] == x;
    MarkerCloses(a, false);
    MarkerCloses(body, true);
    assert x != "" ==> x[0] == (x + y)[0] == body[e + 2];
    NoJunk(x);
    NoJunk(x + y);
    FlushIs(x + y);
  }

  /** A text that is not safe has a cut into two chunks that shows more text than one flush does. */
  lemma UnsafeCut(text: string) returns (a: string, b: string)
    requires !CutSafe(text)
    ensures a + b == text && |TwoText(DrainText(a, false), b)| > |FlushText(text)|
    decreases |text|, 0
  {
    hide Find, FindSpace, FlushText, DrainText, MarkerText;
    var m := Find(text, MARKER);
    assert m < |text|;
    OpensAt(text, true);
    var body := text[m + |MARKER|..];
    var x, y := UnsafeMarker(body);
    DrainBehind(text[..m], body, x, false);
    FlushIs(text);
    a, b := text[..m] + (MARKER + x), y;
  }

  lemma UnsafeMarker(body: string) returns (a: string, b: string)
    requires Find(body, CLOSE) < |body|
    requires ClosedInTime(body) ==> !CutSafe(body[Find(body, CLOSE) + 2..])
    ensures a + b == body && |TwoText(MarkerText(a, false), b)| > |MarkerText(body, true).text|
    decreases |body|, 1
  {
    hide Find, FindSpace, FlushText, DrainText, MarkerText, CutSafe, TwoText;
    var e := Find(body, CLOSE);
    FoundPair(body);
    BracketsAreNotSpace();
    if FindSpace(body) < e {
      a, b := CutAtSpace(body);
    } else if e + 2 < |body| && body[e + 2] == ']' {
      a, b := CutAtBracket(body);
    } else {
      assert FindSpace(body) != e;
      var x, y := UnsafeCut(body[e + 2..]);
      CutBehind(body, x, y);
      a, b := body[..e] + (CLOSE + x), y;
    }
  }

  // ----- The main result on cuts

  /** What streaming the chunks shows. */
  function Streamed(chunks: seq<string>, cards: seq<Card>): seq<Emission> {
    Merged(Resolve(StreamAll("", chunks, |cards|, {}), cards))
  }

  /** What one flush of the whole text shows. */
  function Flushed(text: string, cards: seq<Card>): seq<Emission> {
    Merged(Resolve(FlushAll(text, |cards|, {}), cards))
  }

  /** A text that arrives in one chunk is shown as by one flush. */
  lemma OneChunkIsFlush(text: string, cards: seq<Card>)
    ensures Concat([text]) == text && Streamed([text], cards) == Flushed(text, cards)
  {
    hide Drain, FlushAll, Resolve, Merged, Concat;
    ConcatOne(text);
    var n := |cards|;
    var d := Drain(text, n, {}, false);
    assert "" + text == text && text + "" == text && d.pending + "" == d.pending && [text][1..] == [];
    DrainThenFlush(text, "", n, {}, cards);
    assert StreamAll(d.pending, [], n, d.emitted) == FlushAll(d.pending, n, d.emitted);
    if text == "" {
      assert StreamAll("", [text], n, {}) == StreamAll("", [], n, {}) == FlushAll("", n, {});
      return;
    }
    assert StreamAll("", [text], n, {}) == d.out + StreamAll(d.pending, [], n, d.emitted);
    ResolveSplit(d.out, FlushAll(d.pending, n, d.emitted), cards);
  }

  lemma TextOfStreamed(chunks: seq<string>, cards: seq<Card>)
    ensures Prose(Streamed(chunks, cards)) == StreamText("", chunks)
  {
    hide Merged, Resolve, StreamAll, StreamText, Prose;
    StreamShowsText("", chunks, cards, {});
    MergedProse(Resolve(StreamAll("", chunks, |cards|, {}), cards));
  }

  lemma TextOfFlushed(text: string, cards: seq<Card>)
    ensures Prose(Flushed(text, cards)) == FlushText(text)
  {
    hide Merged, Resolve, FlushAll, FlushText, Prose;
    FlushShowsText(text, cards, {});
    MergedProse(Resolve(FlushAll(text, |cards|, {}), cards));
  }

  /** When a text is not safe, a cut into two chunks shows more text than one flush does. */
  lemma UnsafeCutShowsMore(text: string, cards: seq<Card>) returns (a: string, b: string)
    requires !CutSafe(text)
    ensures Concat([a, b]) == text && |Prose(Streamed([a, b], cards))| > |Prose(Flushed(text, cards))|
  {
    hide CutSafe, DrainText, FlushText, Streamed, Flushed, Concat;
    a, b := UnsafeCut(text);
    ConcatTwo(a, b);
    TextOfStreamed([a, b], cards);
    TextOfFlushed(text, cards);
    TwoChunks(a, b);
  }

  lemma TwoChunks(a: string, b: string)
    ensures StreamText("", [a, b]) == TwoText(DrainText(a, false), b)
  {
    hide DrainText, FlushText;
    assert "" + a == a && [a, b][1..] == [b] && [b][1..] == [];
    var d := DrainText(a, false);
    TextOfOneChunk(d.pending, b);
    if a == "" {
      EmptyText();
      assert StreamText("", [a, b]) == StreamText("", [b]);
    } else {
      assert StreamText("", [a, b]) == d.text + StreamText(d.pending, [b]);
    }
  }

  /** Draining and then flushing what is pending shows the text that one flush shows. */
  lemma TextOfOneChunk(pending: string, chunk: string)
    ensures StreamText(pending, [chunk]) == FlushText(pending + chunk)
  {
    if chunk == "" {
      assert [chunk][1..] == [] && pending + chunk == pending;
      return;
    }
    var q := pending + chunk;
    var d := Drain(q, 0, {}, false);
    hide DrainText, FlushText, Drain, FlushAll, Resolve, Merged, Prose;
    assert [chunk][1..] == [] && q + "" == q && d.pending + "" == d.pending;
    DrainThenFlush(q, "", 0, {}, []);
    DrainShowsText(q, 0, {}, false);
    FlushShowsText(q, [], {});
    FlushShowsText(d.pending, [], d.emitted);
    WordsAreProse(d.out, []);
    var later := Resolve(FlushAll(d.pending, 0, d.emitted), []);
    ProseSplit(Resolve(d.out, []), later);
    MergedProse(Resolve(d.out, []) + later);
    MergedProse(Resolve(FlushAll(q, 0, {}), []));
  }

  /** The cutting into chunks does not matter, and is shown as one flush of the whole text would be, exactly for the
      safe texts; this holds for the text and the cards together and also for the text alone. */
  lemma CutIndependentIff(text: string, cards: seq<Card>)
    ensures (forall chunks | Concat(chunks) == text :: Streamed(chunks, cards) == Flushed(text, cards))
            <==> CutSafe(text)
    ensures (forall chunks | Concat(chunks) == text :: Prose(Streamed(chunks, cards)) == Prose(Flushed(text, cards)))
            <==> CutSafe(text)
  {
    hide CutSafe, Streamed, Flushed, Concat, Prose;
    if CutSafe(text) {
      forall chunks | Concat(chunks) == text
        ensures Streamed(chunks, cards) == Flushed(text, cards)
      {
        SafeCut(text, chunks, cards);
      }
    } else {
      var a, b := UnsafeCutShowsMore(text, cards);
      assert Concat([a, b]) == text;
    }
  }

  lemma SafeCut(text: string, chunks: seq<string>, cards: seq<Card>)
    requires CutSafe(text) && Concat(chunks) == text
    ensures Streamed(chunks, cards) == Flushed(text, cards)
  {
    hide CutSafe, StreamAll, FlushAll, Resolve, Merged;
    assert "" + text == text;
    StreamIsFlush("", chunks, |cards|, {}, cards);
  }

  /** Any two cuttings are shown alike exactly for the safe texts. */
  lemma AnyTwoCutsIff(text: string, cards: seq<Card>)
    ensures (forall x, y | Concat(x) == text && Concat(y) == text :: Streamed(x, cards) == Streamed(y, cards))
            <==> CutSafe(text)
  {
    hide CutSafe, Streamed, Flushed, Concat, Prose;
    OneChunkIsFlush(text, cards);
    CutIndependentIff(text, cards);
    if forall x, y | Concat(x) == text && Concat(y) == text :: Streamed(x, cards) == Streamed(y, cards) {
      assert forall x | Concat(x) == text :: Streamed(x, cards) == Streamed([text], cards);
    }
  }

  // ----- A text for which the cut matters

  lemma FirstPair(value: string, rest: string)
    requires ']' !in value
    ensures Find(value + (CLOSE + rest), CLOSE) == |value|
  {
    hide Find, At;
    var t := value + (CLOSE + rest);
    AtMiddle(value, CLOSE, rest);
    if Find(t, CLOSE) < |value| {
      CharAt(t, CLOSE, Find(t, CLOSE), 0);
    }
  }

  lemma PlainText(t: string)
    requires '[' !in t
    ensures FlushText(t) == t
  {
    hide Find, FlushText, At;
    forall i: nat | i < |t|
      ensures !At(t + "", MARKER, i)
    {
      assert t + "" == t;
      NotAt(t, i);
    }
    SpeakPlain(t, "");
    EmptyText();
    assert t + "" == t;
  }

  lemma FlushOfClosed(value: string, rest: string)
    requires ']' !in value && (rest != "" ==> rest[0] != ']')
    ensures FlushText(MARKER + (value + (CLOSE + rest))) == FlushText(rest)
  {
    hide Find, FindSpace, FlushText, DrainText, MarkerText, DropJunk;
    var body := value + (CLOSE + rest);
    FirstPair(value, rest);
    FlushOfMarker(body);
    MarkerCloses(body, true);
    assert body[|value| + 2..] == rest;
    NoJunk(rest);
    FlushIs(rest);
  }

  lemma FlushOfMarker(body: string)
    ensures DrainText(MARKER + body, true) == MarkerText(body, true)
    ensures FlushText(MARKER + body) == MarkerText(body, true).text
    ensures DrainText(MARKER + body, false) == MarkerText(body, false)
  {
    hide Find, MarkerText;
    FirstIn(MARKER + body);
    OpensAt(MARKER + body, true);
    OpensAt(MARKER + body, false);
    assert (MARKER + body)[..0] == "" && (MARKER + body)[|MARKER|..] == body;
    FlushIs(MARKER + body);
  }

  /** Whitespace in a marker value is swallowed when the closing pair has arrived with it, and is shown together with
      what follows it when the closing pair arrives later. */
  lemma {:induction false} WhitespaceDependsOnCut(space: char, value: string, cards: seq<Card>)
    requires IsSpace(space) && '[' !in value && ']' !in value
    ensures var marker := MARKER + ([space] + value + (CLOSE + ""));
            && Prose(Streamed([marker], cards)) == ""
            && Concat([MARKER + [space], value + CLOSE]) == marker
            && Prose(Streamed([MARKER + [space], value + CLOSE], cards)) == [space] + (value + CLOSE)
  {
    hide IsSpace, Streamed, Prose, Concat, FlushText, DrainText;
    BracketsAreNotSpace();
    var marker := MARKER + ([space] + value + (CLOSE + ""));
    OneChunkIsFlush(marker, cards);
    TextOfFlushed(marker, cards);
    FlushOfClosed([space] + value, "");
    EmptyText();
    ConcatTwo(MARKER + [space], value + CLOSE);
    TextOfStreamed([MARKER + [space], value + CLOSE], cards);
    TwoChunks(MARKER + [space], value + CLOSE);
    SpaceDrained(space);
    assert "" + (value + CLOSE) == value + CLOSE;
    PlainText(value + CLOSE);
  }

  lemma SpaceDrained(space: char)
    requires IsSpace(space)
    ensures DrainText(MARKER + [space], false) == Plain([space], "")
  {
    hide IsSpace, DrainText, MarkerText, Find, FindSpace;
    FlushOfMarker([space]);
    assert Find([space], CLOSE) == 1 by {
      assert |[space]| < |CLOSE|;
    }
    assert [space][0..] == [space] && [space][0] == space;
    assert FindSpace([space]) == 0;
    SpaceEnds([space]);
    DrainOfSpace(space);
  }
}
