/** The streaming removal of card markers (app/viz_placement.py), refined to a leftmost scan of the whole text. */
module VizStripper {
  import opened Text

  // ----- The scan that the stripper refines

  /** `text` with its markers removed: everything up to the leftmost marker opening is kept, the body of the
      marker is dropped, and the scan goes on behind it. An unfinished opening of two or more characters at the
      very end is dropped. */
  function Strip(text: string): string
    decreases |text|, 0
  {
    if text == "" then ""
    else if MARKER <= text then AfterOpening(text[|MARKER|..])
    else if |text| >= 2 && text <= MARKER then ""
    else [text[0]] + Strip(text[1..])
  }

  /** What remains of `body`, the text behind a marker opening. Whitespace ends the marker and is kept; a closing
      pair ends it and is dropped together with any further closing brackets; otherwise nothing is left. */
  function AfterOpening(body: string): string
    decreases |body|, 1
  {
    var e := BodyEnd(body);
    if e == |body| then ""
    else if IsSpace(body[e]) then Strip(body[e..])
    else Strip(DropJunk(body[e + 2..]))
  }

  /** The first position that ends a marker body: whitespace or a closing pair; `|body|` when there is none. */
  function BodyEnd(body: string): (e: nat)
    ensures e <= |body|
    ensures e < |body| ==> IsSpace(body[e]) || At(body, CLOSE, e)
    ensures forall j | 0 <= j < e :: !IsSpace(body[j]) && !At(body, CLOSE, j)
  {
    if body == "" then 0
    else if IsSpace(body[0]) || At(body, CLOSE, 0) then 0
    else
      var k := BodyEnd(body[1..]);
      assert forall j | 0 < j <= |body| :: At(body, CLOSE, j) <==> At(body[1..], CLOSE, j - 1) by {
        forall j | 0 < j <= |body|
          ensures At(body, CLOSE, j) <==> At(body[1..], CLOSE, j - 1)
        {
          assert j + 2 <= |body| ==> body[j..j + 2] == body[1..][j - 1..j - 1 + 2];
        }
      }
      k + 1
  }

  /** The end of a marker body is where the three conditions on it say it is. */
  lemma BodyEndIs(body: string, e: nat)
    requires e <= |body|
    requires e < |body| ==> IsSpace(body[e]) || At(body, CLOSE, e)
    requires forall j | 0 <= j < e :: !IsSpace(body[j]) && !At(body, CLOSE, j)
    ensures BodyEnd(body) == e
  {
  }

  lemma KeepChar(t: string)
    requires t != "" && !MayBegin(t, MARKER)
    ensures Strip(t) == [t[0]] + Strip(t[1..])
  {
    hide AfterOpening;
  }

  /** Text in front of which no marker can open is kept as it is. */
  lemma {:induction false} KeepText(a: string, b: string)
    requires forall i | 0 <= i < |a| :: !MayBegin(a[i..] + b, MARKER)
    ensures Strip(a + b) == a + Strip(b)
  {
    hide Strip, MayBegin;
    if a == "" {
      assert a + b == b;
    } else {
      assert a[0..] == a;
      KeepChar(a + b);
      assert (a + b)[1..] == a[1..] + b;
      forall i | 0 <= i < |a[1..]|
        ensures !MayBegin(a[1..][i..] + b, MARKER)
      {
        assert a[1..][i..] == a[i + 1..];
      }
      KeepText(a[1..], b);
      assert (a + b)[0] == a[0] && a == [a[0]] + a[1..];
    }
  }

  // ----- The state of the stripper, and what it still owes

  datatype State = State(prefix: string, inside: bool, saw: bool, swallowing: bool)

  const START := State("", false, false, false)

  /** Everything that a stripper in state `st` must still put out when `rest` is all that comes before the flush. */
  ghost function Owes(st: State, rest: string): string {
    if st.inside then AfterOpening((if st.saw then "]" else "") + rest)
    else if st.swallowing then Strip(DropJunk(rest))
    else Strip(st.prefix + rest)
  }

  lemma OwesAtStart(rest: string)
    ensures Owes(START, rest) == Strip(rest)
  {
    assert "" + rest == rest;
  }

  lemma ReadsAll(st: State, text: string, out: string, st': State)
    requires Reads(st, text, out, st')
    ensures Owes(st, text) == out + Owes(st', "")
  {
    hide Owes;
    assert text + "" == text;
    assert Owes(st, text + "") == out + Owes(st', "");
  }

  /** What the flush puts out: nothing, or a lone bracket that opened no marker after all. */
  lemma OwesAtFlush(st: State)
    requires st.prefix <= MARKER && st.prefix != MARKER
    ensures st.inside ==> Owes(st, "") == ""
    ensures !st.inside && st.swallowing ==> Owes(st, "") == ""
    ensures !st.inside && !st.swallowing ==> Owes(st, "") == if "[[" <= st.prefix then "" else st.prefix
  {
    if st.inside {
      var held := (if st.saw then "]" else "") + "";
      assert BodyEnd(held) == |held| by {
        BracketsAreNotSpace();
        BodyEndIs(held, |held|);
      }
    } else if !st.swallowing {
      assert st.prefix + "" == st.prefix;
      if |st.prefix| >= 2 {
        assert st.prefix[..2] == MARKER[..2];
        assert MARKER[..2] == "[[";
      } else if |st.prefix| == 1 {
        assert Strip(st.prefix) == [st.prefix[0]] + Strip(st.prefix[1..]);
        assert st.prefix[1..] == "" && [st.prefix[0]] + "" == st.prefix;
      }
    }
  }

  /** Reading `text` in state `st` puts out `out` and leads to `st'`, whatever follows. */
  ghost predicate Reads(st: State, text: string, out: string, st': State) {
    forall rest: string {:trigger Owes(st', rest)} :: Owes(st, text + rest) == out + Owes(st', rest)
  }

  lemma ReadsThen(st: State, a: string, outA: string, st1: State, b: string, outB: string, st2: State)
    requires Reads(st, a, outA, st1) && Reads(st1, b, outB, st2)
    ensures Reads(st, a + b, outA + outB, st2)
  {
    forall rest: string
      ensures Owes(st, a + b + rest) == outA + outB + Owes(st2, rest)
    {
      assert a + b + rest == a + (b + rest);
      assert Owes(st1, b + rest) == outB + Owes(st2, rest);
      assert outA + (outB + Owes(st2, rest)) == outA + outB + Owes(st2, rest);
    }
  }

  // ----- One character at a time

  /** A body character that ends nothing is skipped. */
  lemma SkipBodyChar(u: string)
    requires u != "" && !IsSpace(u[0]) && !At(u, CLOSE, 0)
    ensures AfterOpening(u) == AfterOpening(u[1..])
  {
    var e := BodyEnd(u[1..]);
    assert BodyEnd(u) == e + 1;
    assert u[e + 1..] == u[1..][e..];
    if e < |u[1..]| && !IsSpace(u[1..][e]) {
      assert u[e + 3..] == u[1..][e + 2..];
    }
  }

  lemma ReadsCloseOfMarker()
    ensures Reads(State("", true, true, false), "]", "", State("", false, false, true))
  {
    hide BodyEnd, Strip, DropJunk, IsSpace;
    BracketsAreNotSpace();
    forall rest: string
      ensures AfterOpening("]" + ("]" + rest)) == Strip(DropJunk(rest))
    {
      var u := "]" + ("]" + rest);
      assert u[0..2] == CLOSE;
      BodyEndIs(u, 0);
      assert u[2..] == rest;
    }
  }

  lemma ReadsFirstBracket()
    ensures Reads(State("", true, false, false), "]", "", State("", true, true, false))
  {
    assert forall rest: string :: "" + ("]" + rest) == "]" + rest;
  }

  lemma KeepSpace(c: char, rest: string)
    requires IsSpace(c)
    ensures Strip([c] + rest) == [c] + Strip(rest)
  {
    BracketsAreNotSpace();
    hide IsSpace, Strip;
    var t := [c] + rest;
    assert t[0] == c != MARKER[0];
    KeepChar(t);
    assert t[1..] == rest;
  }

  lemma {:induction false} ReadsSpaceInMarker(saw: bool, c: char)
    requires IsSpace(c)
    ensures Reads(State("", true, saw, false), [c], [c], State("", false, false, false))
  {
    hide BodyEnd, Strip, DropJunk, IsSpace;
    BracketsAreNotSpace();
    var held := if saw then "]" else "";
    forall rest: string
      ensures AfterOpening(held + ([c] + rest)) == [c] + Strip("" + rest)
    {
      var u := held + ([c] + rest);
      assert saw ==> u[0] == ']' && u[0..2][1] == c != CLOSE[1];
      BodyEndIs(u, |held|);
      KeepSpace(c, rest);
      assert u[|held|..] == [c] + rest;
      assert ([c] + rest)[1..] == rest == "" + rest;
    }
  }

  lemma ReadsBodyChar(saw: bool, c: char)
    requires c != ']' && !IsSpace(c)
    ensures Reads(State("", true, saw, false), [c], "", State("", true, false, false))
  {
    BracketsAreNotSpace();
    hide IsSpace, AfterOpening;
    forall rest: string
      ensures AfterOpening((if saw then "]" else "") + ([c] + rest)) == AfterOpening("" + rest)
    {
      var u := [c] + rest;
      SkipBodyChar(u);
      assert u[1..] == rest == "" + rest;
      assert "" + u == u;
      assert ("]" + u)[0..2][1] == c;
      SkipBodyChar("]" + u);
      assert ("]" + u)[1..] == u;
    }
  }

  lemma ReadsJunk()
    ensures Reads(State("", false, false, true), "]", "", State("", false, false, true))
  {
    forall rest: string
      ensures DropJunk("]" + rest) == DropJunk(rest)
    {
      assert ("]" + rest)[1..] == rest;
    }
  }

  /** Behind the junk, the stripper goes on as if it had just been started. */
  lemma ReadsBehindJunk(c: char, out: string, st: State)
    requires c != ']'
    requires Reads(START, [c], out, st)
    ensures Reads(State("", false, false, true), [c], out, st)
  {
    forall rest: string
      ensures DropJunk([c] + rest) == [c] + rest == "" + ([c] + rest)
    {
    }
  }

  lemma ReadsLongerPrefix(prefix: string, c: char)
    ensures Reads(State(prefix, false, false, false), [c], "", State(prefix + [c], false, false, false))
  {
    forall rest: string
      ensures prefix + ([c] + rest) == prefix + [c] + rest
    {
    }
  }

  lemma ReadsOpening(prefix: string, c: char)
    requires prefix + [c] == MARKER
    ensures Reads(State(prefix, false, false, false), [c], "", State("", true, false, false))
  {
    forall rest: string
      ensures Strip(prefix + ([c] + rest)) == AfterOpening("" + rest)
    {
      var t := prefix + ([c] + rest);
      assert t == MARKER + rest;
      assert t[|MARKER|..] == rest == "" + rest;
    }
  }

  /** Everything in front of the held-back suffix is safe to put out. */
  lemma KeepAllButTrailing(t: string, rest: string)
    requires forall j: nat :: !At(t, MARKER, j)
    ensures var k := |t| - TrailingMarkerPrefixLen(t);
            Strip(t + rest) == t[..k] + Strip(t[k..] + rest)
  {
    hide Strip, MayBegin, At, TrailingPrefixLen;
    var k := |t| - TrailingMarkerPrefixLen(t);
    forall i | 0 <= i < k
      ensures !MayBegin(t[..k][i..] + (t[k..] + rest), MARKER)
    {
      NoneBegins(t, rest, i, MARKER);
      assert t[..k][i..] + (t[k..] + rest) == t[i..] + rest;
    }
    KeepText(t[..k], t[k..] + rest);
    assert t[..k] + (t[k..] + rest) == t + rest;
  }

  /** The scan is a leftmost one: what is in front of the first marker is kept, the rest is the marker's business. */
  lemma {:induction false} StripAtLeftmost(text: string)
    requires Find(text, MARKER) < |text|
    ensures var m := Find(text, MARKER);
            Strip(text) == text[..m] + AfterOpening(text[m + |MARKER|..])
  {
    hide AfterOpening, Find, Strip, MayBegin;
    var m := Find(text, MARKER);
    forall i | 0 <= i < m
      ensures !MayBegin(text[..m][i..] + text[m..], MARKER)
    {
      NoneBeginsBeforeFirst(text, MARKER, i);
      assert text[..m][i..] + text[m..] == text[i..];
    }
    KeepText(text[..m], text[m..]);
    assert text[..m] + text[m..] == text;
    assert text[m..] == text[m..m + |MARKER|] + text[m + |MARKER|..];
    StripMarker(text[m + |MARKER|..]);
  }

  lemma StripMarker(body: string)
    ensures Strip(MARKER + body) == AfterOpening(body)
  {
    hide AfterOpening;
    assert (MARKER + body)[|MARKER|..] == body;
  }

  /** Text without a marker is kept, but for an unfinished opening of two or more characters at its end. */
  lemma {:induction false} StripWithoutMarker(text: string)
    requires Find(text, MARKER) == |text|
    ensures var k := TrailingMarkerPrefixLen(text);
            Strip(text) == if k >= 2 then text[..|text| - k] else text
  {
    hide AfterOpening, Find, TrailingPrefixLen, Strip, At, MayBegin;
    var k := TrailingMarkerPrefixLen(text);
    var held := text[|text| - k..];
    NeverFound(text, MARKER);
    KeepAllButTrailing(text, "");
    assert text + "" == text && held + "" == held;
    assert text[..|text| - k] + held == text;
    StripOfPrefix(k);
    assert text[..|text| - k] + "" == text[..|text| - k];
  }

  lemma StripOfPrefix(k: nat)
    requires k < |MARKER|
    ensures Strip(MARKER[..k]) == if k >= 2 then "" else MARKER[..k]
  {
    OwesAtFlush(State(MARKER[..k], false, false, false));
    assert MARKER[..k] + "" == MARKER[..k];
    assert k >= 2 ==> MARKER[..k][..2] == MARKER[..2];
    assert MARKER[..2] == "[[";
  }

  /** A properly closed marker is dropped together with the closing brackets that follow it. */
  lemma AfterCleanBody(value: string, rest: string)
    requires forall c | c in value :: c != ']' && !IsSpace(c)
    ensures AfterOpening(value + CLOSE + rest) == Strip(DropJunk(rest))
  {
    hide Strip, DropJunk, IsSpace;
    BracketsAreNotSpace();
    var body := value + CLOSE + rest;
    assert body[|value|..|value| + 2] == CLOSE;
    forall j | 0 <= j < |value|
      ensures !IsSpace(body[j]) && !At(body, CLOSE, j)
    {
      assert body[j] == value[j] && value[j] in value;
      assert j + 2 <= |body| ==> body[j..j + 2][0] == value[j];
    }
    BodyEndIs(body, |value|);
    assert body[|value| + 2..] == rest;
  }

  lemma {:induction false} KeepPlain(text: string)
    requires '[' !in text
    ensures Strip(text) == text
  {
    if text != "" {
      assert MARKER[0] == '[';
      assert '[' !in text[1..];
      KeepPlain(text[1..]);
    }
  }

  lemma BrokenOpening(i: nat, rest: string)
    requires i < 4 && |rest| >= |MARKER| && rest[0] == '['
    ensures !MayBegin("[[vi"[i..] + rest, MARKER)
  {
    hide MayBegin;
    var u := "[[vi"[i..] + rest;
    var j := if i == 3 then 0 else 4 - i;
    assert u[j] == if i == 3 then 'i' else '[';
    assert u[..|MARKER|][j] == u[j] != MARKER[j];
    LongTextBegins(u, MARKER);
  }

  /** Removing a marker may put a new one together from what surrounded it, and that one stays. */
  lemma {:induction false} StripMayReassemble(value: string)
    requires forall c | c in value :: c != ']' && !IsSpace(c)
    ensures Strip("[[vi" + (MARKER + (value + CLOSE + "z:"))) == MARKER
  {
    assert DropJunk("z:") == "z:";
    KeepPlain("z:");
    hide Strip, AfterOpening, DropJunk, MayBegin;
    var rest := MARKER + (value + CLOSE + "z:");
    forall i | 0 <= i < 4
      ensures !MayBegin("[[vi"[i..] + rest, MARKER)
    {
      BrokenOpening(i, rest);
    }
    KeepText("[[vi", rest);
    StripMarker(value + CLOSE + "z:");
    AfterCleanBody(value, "z:");
  }

  /** After a failed match everything but the longest suffix that may still begin a marker is put out. */
  lemma ReadsMismatch(prefix: string, c: char)
    requires |prefix| < |MARKER| && prefix + [c] != MARKER
    ensures var flush := prefix + [c];
            var k := |flush| - TrailingMarkerPrefixLen(flush);
            Reads(State(prefix, false, false, false), [c], flush[..k], State(flush[k..], false, false, false))
  {
    hide Strip;
    hide TrailingPrefixLen;
    var flush := prefix + [c];
    ShortTextHoldsNone(flush, MARKER);
    forall rest: string
      ensures prefix + ([c] + rest) == flush + rest
    {
      KeepAllButTrailing(flush, rest);
    }
    forall rest: string
      ensures var k := |flush| - TrailingMarkerPrefixLen(flush);
              Strip(flush + rest) == flush[..k] + Strip(flush[k..] + rest)
    {
      KeepAllButTrailing(flush, rest);
    }
  }

  lemma ReadsNothing(st: State)
    ensures Reads(st, "", "", st)
  {
    hide Owes;
    forall rest: string
      ensures Owes(st, "" + rest) == "" + Owes(st, rest)
    {
      assert "" + rest == rest && "" + Owes(st, rest) == Owes(st, rest);
    }
  }

  // ----- The stripper

  /** The candidate goes on matching: it is held back, or it is the whole opening. */
  lemma ReadsMatch(prefix: string, scanned: string, c: char)
    requires HoldsBack(prefix, scanned, MARKER) && prefix + [c] <= MARKER
    ensures HoldsBack("", "", MARKER)
    ensures if prefix + [c] == MARKER
      then Reads(State(prefix, false, false, false), [c], "", State("", true, false, false))
      else Reads(State(prefix, false, false, false), [c], "", State(prefix + [c], false, false, false))
           && HoldsBack(prefix + [c], scanned + [c], MARKER)
  {
    hide Reads, HoldsBack, TrailingPrefixLen;
    HoldsBackNothing(MARKER);
    HoldsBackPrefix(prefix, scanned, MARKER);
    if prefix + [c] == MARKER {
      ReadsOpening(prefix, c);
    } else {
      ReadsLongerPrefix(prefix, c);
      HoldsBackNext(scanned, prefix, c, MARKER);
      ProperPrefixTrails(prefix + [c], MARKER);
    }
  }

  /** The match fails: all but the part that may still begin a marker is put out. */
  lemma ReadsFlush(prefix: string, scanned: string, c: char)
    requires HoldsBack(prefix, scanned, MARKER) && !(prefix + [c] <= MARKER)
    ensures var flush := prefix + [c];
            var k := TrailingMarkerPrefixLen(flush);
            && k <= |flush| && (k == 0 ==> flush[..|flush| - k] == flush && flush[|flush| - k..] == "")
            && (prefix == "" ==> k == 0 && flush == [c])
            && Reads(State(prefix, false, false, false), [c], flush[..|flush| - k],
                     State(flush[|flush| - k..], false, false, false))
            && HoldsBack(flush[|flush| - k..], scanned + [c], MARKER)
  {
    hide Reads, HoldsBack, TrailingPrefixLen;
    HoldsBackPrefix(prefix, scanned, MARKER);
    HoldsBackNext(scanned, prefix, c, MARKER);
    ReadsMismatch(prefix, c);
    if prefix == "" {
      FirstOfMarker(c);
      HoldsBackNone(c, MARKER);
      assert prefix + [c] == [c];
    }
  }

  lemma FirstOfMarker(c: char)
    ensures [c] <= MARKER <==> c == MARKER[0]
  {
    assert MARKER[..1] == [MARKER[0]];
  }

  class StreamingVizMarkerStripper {
    var prefix: string
    var insideMarker: bool
    var sawClosingBracket: bool
    var swallowingClosingJunk: bool
    // The text read since the last marker was left or the last flush.
    ghost var scanned: string

    ghost predicate Valid()
      reads this
    {
      && (insideMarker || swallowingClosingJunk ==> prefix == "" && scanned == "")
      && !(insideMarker && swallowingClosingJunk)
      && (sawClosingBracket ==> insideMarker)
      && HoldsBack(prefix, scanned, MARKER)
    }

    ghost function View(): State
      reads this
    {
      State(prefix, insideMarker, sawClosingBracket, swallowingClosingJunk)
    }

    constructor ()
      ensures Valid() && View() == START
    {
      prefix, insideMarker, sawClosingBracket, swallowingClosingJunk := "", false, false, false;
      scanned := "";
    }

    method Feed(text: string) returns (out: string)
      requires Valid()
      modifies this
      ensures Valid() && Reads(old(View()), text, out, View())
    {
      hide Reads, HoldsBack;
      out := "";
      ReadsNothing(View());
      assert text[..0] == "";
      for i := 0 to |text|
        invariant Valid() && Reads(old(View()), text[..i], out, View())
      {
        ghost var st := View();
        var piece := FeedChar(text[i]);
        ReadsThen(old(View()), text[..i], out, st, [text[i]], piece, View());
        assert text[..i] + [text[i]] == text[..i + 1];
        out := out + piece;
      }
      assert text[..|text|] == text;
    }

    /** The body of the loop in `Feed`. */
    method FeedChar(c: char) returns (out: string)
      requires Valid()
      modifies this
      ensures Valid() && Reads(old(View()), [c], out, View())
    {
      hide Reads, HoldsBack, TrailingPrefixLen;
      if swallowingClosingJunk {
        if c == ']' {
          ReadsJunk();
          return "";
        }
        swallowingClosingJunk := false;
        out := FeedOutside(c);
        ReadsBehindJunk(c, out, View());
      } else if insideMarker {
        out := FeedInside(c);
      } else {
        out := FeedOutside(c);
      }
    }

    /** What `FeedChar` does inside a marker. */
    method FeedInside(c: char) returns (out: string)
      requires Valid() && insideMarker
      modifies this
      ensures Valid() && Reads(old(View()), [c], out, View())
    {
      BracketsAreNotSpace();
      hide Reads, HoldsBack, IsSpace;
      if sawClosingBracket && c == ']' {
        insideMarker, sawClosingBracket, swallowingClosingJunk := false, false, true;
        ReadsCloseOfMarker();
        return "";
      }
      if c == ']' {
        sawClosingBracket := true;
        ReadsFirstBracket();
        return "";
      }
      if IsSpace(c) {
        ReadsSpaceInMarker(sawClosingBracket, c);
        HoldsBackNoSpace(c);
        insideMarker, sawClosingBracket, scanned := false, false, [c];
        return [c];
      }
      ReadsBodyChar(sawClosingBracket, c);
      sawClosingBracket := false;
      return "";
    }

    /** What `FeedChar` does outside a marker. */
    method FeedOutside(c: char) returns (out: string)
      requires Valid() && !insideMarker && !swallowingClosingJunk
      modifies this
      ensures Valid() && Reads(old(View()), [c], out, View())
    {
      hide Reads, HoldsBack, TrailingPrefixLen, MARKER;
      var candidate := prefix + [c];
      if candidate <= MARKER {
        ReadsMatch(prefix, scanned, c);
        if candidate == MARKER {
          prefix, insideMarker, sawClosingBracket := "", true, false;
          scanned := "";
        } else {
          prefix, scanned := candidate, scanned + [c];
        }
        return "";
      }
      ReadsFlush(prefix, scanned, c);
      scanned := scanned + [c];
      if prefix != "" {
        var flush := prefix + [c];
        var suffixLen := TrailingMarkerPrefixLen(flush);
        if suffixLen != 0 {
          out := flush[..|flush| - suffixLen];
          prefix := flush[|flush| - suffixLen..];
        } else {
          out := flush;
          prefix := "";
        }
        return;
      }
      out := [c];
    }

    method Flush() returns (out: string)
      requires Valid()
      modifies this
      ensures Valid() && out == Owes(old(View()), "")
      ensures View() == START.(swallowing := old(swallowingClosingJunk))
    {
      hide Strip, HoldsBack, AfterOpening;
      HoldsBackNothing(MARKER);
      HoldsBackPrefix(prefix, scanned, MARKER);
      OwesAtFlush(View());
      if insideMarker {
        insideMarker, sawClosingBracket, swallowingClosingJunk, prefix := false, false, false, "";
        return "";
      }
      scanned := "";
      if "[[" <= prefix {
        prefix := "";
        return "";
      }
      out := prefix;
      prefix := "";
    }
  }

  lemma NoChunks(chunks: seq<string>)
    ensures Concat(chunks[..0]) == ""
  {
  }

  lemma OneMoreChunk(chunks: seq<string>, i: nat)
    requires i < |chunks|
    ensures Concat(chunks[..i + 1]) == Concat(chunks[..i]) + chunks[i]
  {
    ConcatSplit(chunks[..i], [chunks[i]]);
    assert chunks[..i] + [chunks[i]] == chunks[..i + 1];
    assert Concat([chunks[i]]) == chunks[i] + Concat([]) == chunks[i];
  }

  /** Cutting the text into chunks does not matter: feeding them all and flushing is one leftmost scan. */
  method StripChunks(chunks: seq<string>) returns (out: string)
    ensures out == Strip(Concat(chunks))
  {
    hide Owes, Reads, Strip, Concat, HoldsBack;
    var stripper := new StreamingVizMarkerStripper();
    out := "";
    ReadsNothing(START);
    NoChunks(chunks);
    for i := 0 to |chunks|
      invariant stripper.Valid() && fresh(stripper)
      invariant Reads(START, Concat(chunks[..i]), out, stripper.View())
    {
      ghost var st := stripper.View();
      var piece := stripper.Feed(chunks[i]);
      ReadsThen(START, Concat(chunks[..i]), out, st, chunks[i], piece, stripper.View());
      OneMoreChunk(chunks, i);
      out := out + piece;
    }
    assert chunks[..|chunks|] == chunks;
    ghost var st := stripper.View();
    var tail := stripper.Flush();
    ReadsAll(START, Concat(chunks), out, st);
    OwesAtStart(Concat(chunks));
    out := out + tail;
  }
}
