/** Where the scan of a text stands at its end, and what a fresh stripper makes of the text that comes then. */
module VizScan {
  import opened Text
  import opened VizStripper

  /** What a scan has put out, and the state in which it waits for more text. */
  datatype Scanned = Scanned(out: string, st: State)

  function Led(out: string, s: Scanned): Scanned {
    s.(out := out + s.out)
  }

  /** The scan of a text behind which more may come. */
  function Scan(text: string): Scanned
    decreases |text|, 0
  {
    if text == "" then Scanned("", START)
    else if MARKER <= text then ScanBehind(text[|MARKER|..])
    else if text <= MARKER then Scanned("", State(text, false, false, false))
    else Led([text[0]], Scan(text[1..]))
  }

  /** The scan behind a marker opening. */
  function ScanBehind(body: string): Scanned
    decreases |body|, 1
  {
    var e := BodyEnd(body);
    if e == |body| then Scanned("", State("", true, body != "" && body[|body| - 1] == ']', false))
    else if IsSpace(body[e]) then Scan(body[e..])
    else ScanJunk(body[e + 2..])
  }

  /** The scan behind a closing pair. */
  function ScanJunk(text: string): Scanned
    decreases |text|, 1
  {
    if DropJunk(text) == "" then Scanned("", State("", false, false, true)) else Scan(DropJunk(text))
  }

  /** The scan goes on with more text. */
  function ScanOn(st: State, text: string): Scanned {
    if st.inside then ScanBehind((if st.saw then "]" else "") + text)
    else if st.swallowing then ScanJunk(text)
    else Scan(st.prefix + text)
  }

  // ----- The scan of two texts

  lemma {:induction false} JunkThen(a: string, b: string)
    ensures DropJunk(a + b) == if DropJunk(a) == "" then DropJunk(b) else DropJunk(a) + b
  {
    if a == "" {
      assert a + b == b;
    } else if a[0] == ']' {
      assert (a + b)[1..] == a[1..] + b;
      JunkThen(a[1..], b);
    }
  }

  /** What ends a marker body ends it whatever follows. */
  lemma BodyEndThen(a: string, b: string)
    requires BodyEnd(a) < |a|
    ensures BodyEnd(a + b) == BodyEnd(a)
  {
    hide BodyEnd, IsSpace;
    var e := BodyEnd(a);
    forall j: nat | j <= e
      ensures At(a + b, CLOSE, j) <==> At(a, CLOSE, j) || (j == e && IsSpace(a[e]) && At(a + b, CLOSE, j))
    {
      assert j + 2 <= |a| ==> (a + b)[j..j + 2] == a[j..j + 2];
    }
    BodyEndIs(a + b, e);
  }

  /** A body character that ends nothing is skipped, unless it is a lone bracket at the end. */
  lemma SkipScan(u: string)
    requires u != "" && !IsSpace(u[0]) && !At(u, CLOSE, 0) && u != "]"
    ensures ScanBehind(u) == ScanBehind(u[1..])
  {
    hide Scan, ScanJunk, IsSpace;
    var e := BodyEnd(u[1..]);
    assert BodyEnd(u) == e + 1;
    assert u[e + 1..] == u[1..][e..];
    if e < |u[1..]| && !IsSpace(u[1..][e]) {
      assert u[e + 3..] == u[1..][e + 2..];
    }
    assert |u| == 1 ==> u == [u[0]];
  }

  /** A body that has not ended leaves nothing behind but a bracket that may be the first of a pair. */
  lemma {:induction false} UnendedThen(body: string, b: string)
    requires BodyEnd(body) == |body|
    ensures var saw := body != "" && body[|body| - 1] == ']';
            ScanBehind(body + b) == ScanBehind((if saw then "]" else "") + b)
  {
    hide ScanBehind, IsSpace, BodyEnd;
    if body == "" || body == "]" {
      assert body + b == (if body == "]" then "]" else "") + b;
    } else {
      var u := body + b;
      assert |body| >= 2 ==> u[0..2] == body[0..2];
      assert !IsSpace(body[0]) && !At(body, CLOSE, 0);
      assert |body| == 1 ==> body == [body[0]] && u[0] != ']';
      assert !At(u, CLOSE, 0);
      SkipScan(u);
      assert u[1..] == body[1..] + b;
      BodyEndBehind(body);
      UnendedThen(body[1..], b);
      assert |body| == 1 ==> body[0] != ']';
    }
  }

  lemma BodyEndBehind(body: string)
    requires body != "" && BodyEnd(body) == |body|
    ensures BodyEnd(body[1..]) == |body[1..]|
  {
  }

  lemma {:induction false} ScanSplit(a: string, b: string)
    ensures Scan(a + b) == Led(Scan(a).out, ScanOn(Scan(a).st, b))
    decreases |a|, 0
  {
    hide ScanBehind, ScanJunk;
    if a == "" {
      assert a + b == b == "" + b;
    } else if MARKER <= a {
      assert (a + b)[|MARKER|..] == a[|MARKER|..] + b;
      ScanBehindSplit(a[|MARKER|..], b);
    } else if a <= MARKER {
    } else {
      assert (a + b)[1..] == a[1..] + b;
      ScanSplit(a[1..], b);
      KeepsOn(a, b);
      LedTwice([a[0]], Scan(a[1..]).out, ScanOn(Scan(a[1..]).st, b));
    }
  }

  lemma KeepsOn(a: string, b: string)
    requires a != "" && !(MARKER <= a) && !(a <= MARKER)
    ensures !(MARKER <= a + b) && !(a + b <= MARKER)
  {
    if |a| >= |MARKER| {
      assert (a + b)[..|MARKER|] == a[..|MARKER|];
    } else {
      assert (a + b)[..|a|] == a;
      assert a <= a + b;
    }
  }

  lemma LedTwice(a: string, b: string, s: Scanned)
    ensures Led(a, Led(b, s)) == Led(a + b, s)
  {
    assert a + (b + s.out) == a + b + s.out;
  }

  lemma LedNothing(s: Scanned)
    ensures Led("", s) == s
  {
  }

  lemma {:induction false} ScanBehindSplit(body: string, b: string)
    ensures ScanBehind(body + b) == Led(ScanBehind(body).out, ScanOn(ScanBehind(body).st, b))
    decreases |body|, 1
  {
    hide Scan, ScanJunk, BodyEnd, IsSpace;
    var e := BodyEnd(body);
    if e == |body| {
      UnendedThen(body, b);
      var saw := body != "" && body[|body| - 1] == ']';
      LedNothing(ScanBehind((if saw then "]" else "") + b));
    } else {
      BodyEndThen(body, b);
      if IsSpace(body[e]) {
        assert (body + b)[e..] == body[e..] + b;
        ScanSplit(body[e..], b);
      } else {
        assert (body + b)[e + 2..] == body[e + 2..] + b;
        ScanJunkSplit(body[e + 2..], b);
      }
    }
  }

  lemma {:induction false} ScanJunkSplit(a: string, b: string)
    ensures ScanJunk(a + b) == Led(ScanJunk(a).out, ScanOn(ScanJunk(a).st, b))
    decreases |a|, 1
  {
    hide Scan, DropJunk;
    JunkThen(a, b);
    if DropJunk(a) == "" {
      LedNothing(ScanJunk(b));
    } else {
      ScanSplit(DropJunk(a), b);
    }
  }

  // ----- What the scan has put out and what it still owes

  /** The state at the end of a scan is one of the stripper's. */
  predicate Waits(st: State) {
    && st.prefix <= MARKER && st.prefix != MARKER
    && (st.inside || st.swallowing ==> st.prefix == "")
  }

  /** What a stripper that has read `text` holds and puts out at its flush: a lone bracket or nothing. */
  predicate LeavesBracket(text: string) {
    Scan(text).st.prefix == "["
  }

  function Held(text: string): string {
    if LeavesBracket(text) then "[" else ""
  }

  ghost predicate Balanced(whole: string, s: Scanned) {
    Waits(s.st) && whole == s.out + Owes(s.st, "")
  }

  lemma {:induction false} StripIsScan(text: string)
    ensures Balanced(Strip(text), Scan(text))
    decreases |text|, 0
  {
    hide ScanBehind, AfterOpening;
    if text == "" {
      OwesAtStart("");
    } else if MARKER <= text {
      AfterIsScan(text[|MARKER|..]);
    } else if text <= MARKER {
      OwesAtFlush(State(text, false, false, false));
      assert |text| >= 2 ==> text[..2] == MARKER[..2] == "[[";
      assert |text| == 1 ==> text[1..] == "" && [text[0]] + "" == text;
    } else {
      StripIsScan(text[1..]);
      var s := Scan(text[1..]);
      assert [text[0]] + (s.out + Owes(s.st, "")) == [text[0]] + s.out + Owes(s.st, "");
    }
  }

  lemma {:induction false} AfterIsScan(body: string)
    ensures Balanced(AfterOpening(body), ScanBehind(body))
    decreases |body|, 1
  {
    hide Scan, Strip, BodyEnd, IsSpace;
    var e := BodyEnd(body);
    if e == |body| {
      OwesAtFlush(ScanBehind(body).st);
    } else if IsSpace(body[e]) {
      StripIsScan(body[e..]);
    } else {
      JunkIsScan(body[e + 2..]);
    }
  }

  lemma {:induction false} JunkIsScan(text: string)
    ensures Balanced(Strip(DropJunk(text)), ScanJunk(text))
    decreases |text|, 1
  {
    hide Scan, DropJunk;
    if DropJunk(text) == "" {
      OwesAtFlush(State("", false, false, true));
      OwesAtStart("");
      OwesAtFlush(START);
    } else {
      StripIsScan(DropJunk(text));
    }
  }

  /** What a state owes is what the scan puts out from it on, and what that still owes. */
  lemma OwesIsScan(st: State, rest: string)
    ensures Balanced(Owes(st, rest), ScanOn(st, rest))
  {
    if st.inside {
      AfterIsScan((if st.saw then "]" else "") + rest);
    } else if st.swallowing {
      JunkIsScan(rest);
    } else {
      StripIsScan(st.prefix + rest);
    }
  }

  /** Reading `text` from the start puts out what the scan puts out, and leads to where it stands. */
  lemma ReadsScan(text: string)
    ensures Reads(START, text, Scan(text).out, Scan(text).st)
  {
    hide Owes, Scan, ScanOn, Strip;
    var s := Scan(text);
    forall rest: string
      ensures Owes(START, text + rest) == s.out + Owes(s.st, rest)
    {
      OwesAtStart(text + rest);
      StripIsScan(text + rest);
      ScanSplit(text, rest);
      OwesIsScan(s.st, rest);
      var t := ScanOn(s.st, rest);
      assert s.out + t.out + Owes(t.st, "") == s.out + (t.out + Owes(t.st, ""));
    }
  }

  /** A held bracket is the only thing owed, and the rest of an opening takes it back. */
  lemma OwesBracket(st: State)
    requires Waits(st)
    ensures Owes(st, "") == if st.prefix == "[" then "[" else ""
    ensures st.prefix == "[" ==> Owes(st, "[viz:") == ""
  {
    OwesAtFlush(st);
    if |st.prefix| >= 2 {
      assert st.prefix[..2] == MARKER[..2] == "[[";
    } else if |st.prefix| == 1 {
      assert st.prefix == MARKER[..1] == "[";
      hide AfterOpening;
      assert "[" + "[viz:" == MARKER + "";
      StripMarker("");
      AfterNothing();
    }
  }

  lemma AfterNothing()
    ensures AfterOpening("") == ""
  {
  }

  /** However the text was read, the stripper has put out what the scan puts out, and holds what the scan holds. */
  lemma ReadsAsScan(text: string, out: string, st: State)
    requires Reads(START, text, out, st) && Waits(st)
    ensures out == Scan(text).out && Owes(st, "") == Held(text) && Strip(text) == out + Held(text)
  {
    hide Owes, Scan, Strip;
    var s := Scan(text);
    ReadsScan(text);
    ReadsAll(START, text, out, st);
    ReadsAll(START, text, s.out, s.st);
    StripIsScan(text);
    OwesAtStart(text);
    OwesBracket(st);
    OwesBracket(s.st);
    assert out + Owes(st, "[viz:") == Owes(START, text + "[viz:") == s.out + Owes(s.st, "[viz:");
    assert |out| + |Owes(st, "")| == |s.out| + |Owes(s.st, "")|;
    assert |out| + |Owes(st, "[viz:")| == |s.out| + |Owes(s.st, "[viz:")|;
    SameStart(out, Owes(st, ""), s.out, Owes(s.st, ""));
  }

  lemma SameStart(a: string, b: string, c: string, d: string)
    requires a + b == c + d && |a| == |c|
    ensures a == c && b == d
  {
    assert (a + b)[..|a|] == a && (c + d)[..|c|] == c;
    assert (a + b)[|a|..] == b && (c + d)[|c|..] == d;
  }

  // ----- A fresh stripper in the middle of a text

  /** A fresh stripper puts out for `text` what one in state `st` would: nothing has been held back that `text` would
      have continued. Inside a marker that means that nothing of `text` would have been swallowed or would be shown. */
  predicate RestartUnseen(st: State, text: string) {
    text == ""
    || (if st.inside then IsSpace(text[0]) || MARKER <= text || text <= MARKER
        else if st.swallowing then text[0] != ']'
        else st.prefix == "" || (st.prefix == "[" && text == "["))
  }

  lemma ScanKept(text: string)
    requires text != "" && !(MARKER <= text) && !(text <= MARKER)
    ensures Scan(text) == Led([text[0]], Scan(text[1..]))
  {
    hide ScanBehind;
  }

  lemma ScanMarker(body: string)
    ensures Scan(MARKER + body) == ScanBehind(body)
  {
    hide ScanBehind;
    assert (MARKER + body)[|MARKER|..] == body;
  }

  lemma ScanShort(text: string)
    requires text <= MARKER && text != MARKER
    ensures Scan(text).out == ""
  {
    hide ScanBehind;
  }

  /** Text in which no opening can begin is put out. */
  lemma {:induction false} ScanKeeps(a: string, b: string)
    requires forall i | 0 <= i < |a| :: !(MARKER <= a[i..] + b) && !(a[i..] + b <= MARKER)
    ensures Scan(a + b) == Led(a, Scan(b))
  {
    hide Scan;
    if a == "" {
      assert a + b == b;
      LedNothing(Scan(b));
    } else {
      assert a[0..] == a;
      ScanKept(a + b);
      assert (a + b)[1..] == a[1..] + b;
      forall i | 0 <= i < |a[1..]|
        ensures !(MARKER <= a[1..][i..] + b) && !(a[1..][i..] + b <= MARKER)
      {
        assert a[1..][i..] == a[i + 1..];
      }
      ScanKeeps(a[1..], b);
      LedTwice([a[0]], a[1..], Scan(b));
      assert a == [a[0]] + a[1..];
    }
  }

  /** Behind a closing pair no more is put out than when the brackets that follow it are put out, too. */
  lemma {:induction false} JunkShrinks(text: string)
    ensures |ScanJunk(text).out| <= |Scan(text).out|
    ensures text != "" && text[0] == ']' ==> |ScanJunk(text).out| < |Scan(text).out|
  {
    hide Scan;
    if text != "" && text[0] == ']' {
      assert !(MARKER <= text) && !(text <= MARKER) by {
        assert MARKER[0] == '[';
      }
      ScanKept(text);
      JunkShrinks(text[1..]);
    } else if text == "" {
      ScanShort("");
    }
  }

  /** In a marker no more is put out than outside. */
  lemma {:induction false} BehindShrinks(text: string)
    ensures |ScanBehind(text).out| <= |Scan(text).out|
    ensures text != "" && !IsSpace(text[0]) && !(MARKER <= text) && !(text <= MARKER) ==>
              |ScanBehind(text).out| < |Scan(text).out|
    ensures (text != "" && IsSpace(text[0])) || MARKER <= text ==> ScanBehind(text) == Scan(text)
    ensures text <= MARKER && text != MARKER ==> ScanBehind(text).out == ""
    decreases |text|
  {
    hide Scan, ScanBehind, ScanJunk, IsSpace;
    if text == "" {
      BehindNothing("");
    } else if MARKER <= text {
      PlainBeginning(MARKER);
      assert text == MARKER + text[|MARKER|..] && text[0] == MARKER[0] && MARKER[0] in MARKER;
      SkipPlain(MARKER, text[|MARKER|..]);
      ScanMarker(text[|MARKER|..]);
    } else if text <= MARKER {
      PlainBeginning(text);
      assert text[0] in text;
      SkipPlain(text, "");
      assert text + "" == text;
      BehindNothing("");
    } else if IsSpace(text[0]) {
      BehindSpace("", text);
      assert "" + text == text;
    } else {
      ScanKept(text);
      if At(text, CLOSE, 0) {
        BehindPair(text);
        BracketKept(text[1..]);
        JunkShrinks(text[2..]);
      } else if text == "]" {
        BehindNothing("]");
      } else {
        SkipScan(text);
        BehindShrinks(text[1..]);
      }
    }
  }

  lemma PlainBeginning(a: string)
    requires a <= MARKER
    ensures forall c | c in a :: c != ']' && !IsSpace(c)
  {
    forall c | c in a
      ensures c != ']' && !IsSpace(c)
    {
      var j :| 0 <= j < |a| && a[j] == c;
      assert MARKER[..|a|][j] == MARKER[j];
    }
  }

  lemma BracketKept(text: string)
    requires text != "" && text[0] == ']'
    ensures Scan(text) == Led([text[0]], Scan(text[1..]))
  {
    hide Scan;
    assert MARKER[0] == '[';
    ScanKept(text);
  }

  lemma BehindNothing(text: string)
    requires text == "" || text == "]"
    ensures ScanBehind(text).out == ""
  {
    BracketsAreNotSpace();
    hide Scan, ScanJunk, BodyEnd, IsSpace;
    BodyEndIs(text, |text|);
  }

  lemma BehindPair(text: string)
    requires At(text, CLOSE, 0) && !IsSpace(text[0])
    ensures ScanBehind(text) == ScanJunk(text[2..]) && text[1] == ']' && text[1..][1..] == text[2..]
  {
    hide Scan, ScanJunk, IsSpace, BodyEnd;
    BodyEndIs(text, 0);
    assert text[0..2][1] == text[1];
  }

  lemma BehindSpace(held: string, text: string)
    requires (held == "" || held == "]") && text != "" && IsSpace(text[0])
    ensures ScanBehind(held + text) == Scan(text)
  {
    BracketsAreNotSpace();
    hide Scan, ScanJunk, IsSpace, BodyEnd;
    var u := held + text;
    assert held != "" ==> u[0] == ']' && u[0..2][1] == text[0];
    BodyEndIs(u, |held|);
    assert u[|held|..] == text;
  }

  /** Text that cannot end a marker body is skipped in it. */
  lemma {:induction false} SkipPlain(a: string, b: string)
    requires forall c | c in a :: c != ']' && !IsSpace(c)
    ensures ScanBehind(a + b) == ScanBehind(b)
  {
    hide ScanBehind, IsSpace;
    if a == "" {
      assert a + b == b;
    } else {
      var u := a + b;
      assert a[0] in a && u[0] == a[0];
      assert |u| >= 2 ==> u[0..2][0] == a[0];
      SkipScan(u);
      assert u[1..] == a[1..] + b;
      assert forall c | c in a[1..] :: c in a;
      SkipPlain(a[1..], b);
    }
  }

  /** Exactly when a fresh stripper puts out for `text` what the one before it would have put out. */
  lemma RestartIff(st: State, text: string)
    requires Waits(st)
    ensures ScanOn(st, text).out == Scan(text).out <==> RestartUnseen(st, text)
  {
    hide Scan, ScanBehind, ScanJunk, DropJunk, IsSpace;
    if text == "" {
      ScanShort("");
      OnNothing(st);
    } else if st.inside {
      RestartInside(if st.saw then "]" else "", text);
    } else if st.swallowing {
      RestartSwallowing(text);
    } else if st.prefix == "" {
      assert "" + text == text;
    } else {
      RestartHolding(st.prefix, text);
    }
  }

  lemma OnNothing(st: State)
    requires Waits(st)
    ensures ScanOn(st, "").out == ""
  {
    hide Scan, ScanBehind;
    assert st.prefix + "" == st.prefix;
    ScanShort(st.prefix);
    BehindNothing("");
    BehindNothing("]");
    assert "" + "" == "" && "]" + "" == "]";
  }

  lemma RestartSwallowing(text: string)
    requires text != ""
    ensures ScanJunk(text).out == Scan(text).out <==> text[0] != ']'
  {
    hide Scan;
    JunkShrinks(text);
  }

  lemma RestartInside(held: string, text: string)
    requires (held == "" || held == "]") && text != ""
    ensures ScanBehind(held + text).out == Scan(text).out
            <==> IsSpace(text[0]) || MARKER <= text || text <= MARKER
  {
    hide Scan, ScanBehind, ScanJunk, IsSpace;
    BehindShrinks(text);
    if IsSpace(text[0]) {
      BehindSpace(held, text);
    } else if held == "]" && text[0] == ']' {
      BehindPair("]" + text);
      assert ("]" + text)[2..] == text[1..];
      JunkShrinks(text[1..]);
      BracketKept(text);
      assert MARKER[0] == '[';
    } else {
      HeldSkips(held, text);
      if text <= MARKER {
        ShortInside(text);
      }
    }
  }

  lemma ShortInside(text: string)
    requires text <= MARKER && text != ""
    ensures ScanBehind(text).out == Scan(text).out
  {
    hide Scan, ScanBehind;
    BehindShrinks(text);
    if text != MARKER {
      ScanShort(text);
    }
  }

  lemma HeldSkips(held: string, text: string)
    requires (held == "" || held == "]") && text != "" && !(held == "]" && text[0] == ']')
    ensures ScanBehind(held + text) == ScanBehind(text)
  {
    hide ScanBehind;
    BracketsAreNotSpace();
    if held == "" {
      assert held + text == text;
    } else {
      var u := "]" + text;
      assert u[0..2][1] == text[0];
      SkipScan(u);
      assert u[1..] == text;
    }
  }

  /** What is held back is a beginning of an opening. */
  lemma RestartHolding(p: string, text: string)
    requires p != "" && p <= MARKER && p != MARKER && text != ""
    ensures Scan(p + text).out == Scan(text).out <==> p == "[" && text == "["
  {
    hide Scan, ScanBehind;
    assert p == MARKER[..|p|];
    if MARKER <= p + text {
      HoldingCompletes(p, text);
    } else if p + text <= MARKER {
      HoldingGrows(p, text);
    } else {
      HoldingBreaks(p, text);
    }
  }

  /** The text completes the opening: alone it is put out. */
  lemma HoldingCompletes(p: string, text: string)
    requires p != "" && p <= MARKER && p != MARKER && MARKER <= p + text
    ensures |Scan(p + text).out| + |MARKER| - |p| <= |Scan(text).out|
  {
    hide Scan, ScanBehind;
    var k := |p|;
    var body := text[|MARKER| - k..];
    assert p + text == MARKER + body;
    assert text == MARKER[k..] + body by {
      assert (p + text)[k..] == text;
      assert (MARKER + body)[k..] == MARKER[k..] + body;
    }
    ScanMarker(body);
    BehindShrinks(body);
    RestNeverOpens(k, body);
    ScanKeeps(MARKER[k..], body);
  }

  /** What is left of an opening does not open one itself. */
  lemma RestNeverOpens(k: nat, body: string)
    requires 0 < k <= |MARKER|
    ensures forall i | 0 <= i < |MARKER[k..]| :: !(MARKER <= MARKER[k..][i..] + body) && !(MARKER[k..][i..] + body <= MARKER)
  {
    forall i | 0 <= i < |MARKER[k..]|
      ensures !(MARKER <= MARKER[k..][i..] + body) && !(MARKER[k..][i..] + body <= MARKER)
    {
      var u := MARKER[k..][i..] + body;
      assert u[0] == MARKER[k + i];
      if k + i == 1 {
        assert u[1] == MARKER[2];
      }
    }
  }

  /** What is held back grows without completing the opening. */
  lemma HoldingGrows(p: string, text: string)
    requires p != "" && text != "" && p + text <= MARKER && p + text != MARKER
    ensures Scan(p + text).out == Scan(text).out <==> p == "[" && text == "["
  {
    hide Scan, ScanBehind;
    ScanShort(p + text);
    assert text == MARKER[|p|..|p| + |text|] by {
      assert (p + text)[|p|..] == text;
    }
    assert text[0] == MARKER[|p|] && p[0] == MARKER[0];
    if p == "[" && text == "[" {
      ScanShort("[");
    } else {
      assert |text| >= 2 ==> text[1] == MARKER[|p| + 1];
      assert |p| == 1 ==> p == "[";
      assert |text| == 1 ==> text == [text[0]];
      ScanKept(text);
    }
  }

  /** The text breaks the opening off: what was held back is put out, at least its first bracket. */
  lemma HoldingBreaks(p: string, text: string)
    requires p != "" && p <= MARKER && p != MARKER && text != ""
    requires !(MARKER <= p + text) && !(p + text <= MARKER)
    ensures Scan(p + text).out != Scan(text).out
  {
    hide Scan, ScanBehind;
    ScanKept(p + text);
    assert (p + text)[1..] == p[1..] + text;
    if |p| == 1 {
      assert p[1..] + text == text;
    } else if |p| == 2 {
      assert p[1..] == "[" by {
        assert p == MARKER[..2] == "[[";
      }
      SecondBreaks(text);
    } else {
      BrokenNeverOpens(p, text);
      ScanKeeps(p[1..], text);
    }
  }

  lemma BrokenNeverOpens(p: string, text: string)
    requires p <= MARKER && p != MARKER && |p| >= 3
    ensures forall i | 0 <= i < |p[1..]| :: !(MARKER <= p[1..][i..] + text) && !(p[1..][i..] + text <= MARKER)
  {
    forall i | 0 <= i < |p[1..]|
      ensures !(MARKER <= p[1..][i..] + text) && !(p[1..][i..] + text <= MARKER)
    {
      var u := p[1..][i..] + text;
      assert u[0] == MARKER[i + 1];
      if i == 0 {
        assert u[1] == MARKER[2];
      }
    }
  }

  /** The second of two held brackets, when the first one has been put out. */
  lemma SecondBreaks(text: string)
    requires text != ""
    ensures "[" + Scan("[" + text).out != Scan(text).out
  {
    hide Scan, ScanBehind;
    var u := "[" + text;
    if MARKER <= u {
      HoldingCompletes("[", text);
    } else if u <= MARKER {
      ScanShort(u);
      if text == "[" {
        ScanShort("[");
      } else {
        assert text == u[1..] && u[1..] == MARKER[1..|u|];
        assert text[0] == MARKER[1] && (|text| >= 2 ==> text[1] == MARKER[2]);
        BothKept(text);
      }
    } else {
      ScanKept(u);
      assert u[1..] == text;
    }
  }

  lemma BothKept(text: string)
    requires |text| >= 2 && text[0] == '[' && text[1] == 'v'
    ensures |Scan(text).out| >= 2
  {
    hide Scan, ScanBehind;
    assert MARKER[0] == '[' && MARKER[1] == '[';
    ScanKept(text);
    ScanKept(text[1..]);
  }

  // ----- A fresh stripper for each iteration

  /** What fresh strippers put out for one text after the other, before any flush. */
  function PutAnew(texts: seq<string>): string {
    if texts == [] then "" else PutAnew(texts[..|texts| - 1]) + Scan(texts[|texts| - 1]).out
  }

  /** All that is put out when the last of them is flushed. */
  function ShownAnew(texts: seq<string>): string {
    PutAnew(texts) + if texts == [] then "" else Held(texts[|texts| - 1])
  }

  /** At the boundary behind the first `k` texts. */
  predicate BoundaryUnseen(texts: seq<string>, k: nat)
    requires k < |texts|
  {
    RestartUnseen(Scan(Concat(texts[..k])).st, texts[k])
  }

  /** At the end of the `k`-th text everything put out is what one stripper has put out. */
  predicate PutAsOne(texts: seq<string>, k: nat)
    requires k <= |texts|
  {
    PutAnew(texts[..k]) == Scan(Concat(texts[..k])).out
  }

  lemma ScanWaits(text: string)
    ensures Waits(Scan(text).st)
  {
    hide Scan, Owes, Strip;
    StripIsScan(text);
  }

  /** While all is put out as by one stripper, the next boundary decides whether that goes on. */
  lemma NextBoundary(texts: seq<string>, k: nat)
    requires k < |texts| && PutAsOne(texts, k)
    ensures PutAsOne(texts, k + 1) <==> BoundaryUnseen(texts, k)
  {
    hide Scan, ScanOn, RestartUnseen;
    var a, b := Concat(texts[..k]), texts[k];
    assert texts[..k + 1][..k] == texts[..k];
    OneMoreChunk(texts, k);
    ScanSplit(a, b);
    ScanWaits(a);
    RestartIff(Scan(a).st, b);
    var out := Scan(a).out;
    assert out + ScanOn(Scan(a).st, b).out == out + Scan(b).out <==> ScanOn(Scan(a).st, b).out == Scan(b).out by {
      SameBehind(out, ScanOn(Scan(a).st, b).out, Scan(b).out);
    }
  }

  lemma SameBehind(a: string, b: string, c: string)
    ensures a + b == a + c <==> b == c
  {
    if a + b == a + c {
      assert (a + b)[|a|..] == b && (a + c)[|a|..] == c;
    }
  }

  /** At the end of every iteration exactly what one stripper for the whole text would have put out has been put out, if
      and only if no boundary is seen. */
  lemma {:induction false} AnewIff(texts: seq<string>)
    ensures (forall k | 0 <= k <= |texts| :: PutAsOne(texts, k)) <==> (forall k | 0 <= k < |texts| :: BoundaryUnseen(texts, k))
  {
    hide PutAsOne, BoundaryUnseen;
    NothingPut(texts);
    if forall k | 0 <= k <= |texts| :: PutAsOne(texts, k) {
      forall k | 0 <= k < |texts|
        ensures BoundaryUnseen(texts, k)
      {
        NextBoundary(texts, k);
      }
    }
    if forall k | 0 <= k < |texts| :: BoundaryUnseen(texts, k) {
      for k := 0 to |texts|
        invariant forall j | 0 <= j <= k :: PutAsOne(texts, j)
      {
        NextBoundary(texts, k);
      }
    }
  }

  lemma NothingPut(texts: seq<string>)
    ensures PutAsOne(texts, 0)
  {
    assert texts[..0] == [];
  }

  /** When no boundary is seen, all that is shown is the scan of the whole text if and only if a lone bracket is held at
      the end of the last text exactly when it is held at the end of all of it. */
  lemma ShownAnewIff(texts: seq<string>)
    requires texts != [] && forall k | 0 <= k < |texts| :: BoundaryUnseen(texts, k)
    ensures ShownAnew(texts) == Strip(Concat(texts))
            <==> (LeavesBracket(texts[|texts| - 1]) <==> LeavesBracket(Concat(texts)))
  {
    hide Scan, Strip, BoundaryUnseen;
    AnewIff(texts);
    assert PutAsOne(texts, |texts|) && texts[..|texts|] == texts;
    ReadsScan(Concat(texts));
    ScanWaits(Concat(texts));
    ReadsAsScan(Concat(texts), Scan(Concat(texts)).out, Scan(Concat(texts)).st);
    SameBehind(PutAnew(texts), Held(texts[|texts| - 1]), Held(Concat(texts)));
  }

  lemma {:induction false} ScanPlain(text: string)
    requires '[' !in text
    ensures Scan(text) == Scanned(text, START)
  {
    hide ScanBehind;
    if text != "" {
      assert MARKER[0] == '[' && text[0] in text;
      ScanPlain(text[1..]);
      assert [text[0]] + text[1..] == text;
    }
  }

  lemma ShownTwice(a: string, b: string)
    ensures Concat([a, b]) == a + b && ShownAnew([a, b]) == Scan(a).out + Scan(b).out + Held(b)
  {
    hide Scan, Held;
    assert [a, b][..1] == [a] && [a][..0] == [];
    assert [a, b][1..] == [b] && [b][1..] == [];
    assert Concat([b]) == b;
    assert PutAnew([a]) == Scan(a).out;
    assert PutAnew([a, b]) == PutAnew([a]) + Scan(b).out;
  }

  /** A marker cut by a boundary shows its rest, and a bracket held at a boundary is lost. */
  lemma {:induction false} BoundariesCanShow(value: string)
    requires value != "" && forall c | c in value :: c != '[' && c != ']' && !IsSpace(c)
    ensures Strip(Concat([MARKER, value + CLOSE])) == "" && ShownAnew([MARKER, value + CLOSE]) == value + CLOSE
    ensures Strip(Concat(["[", value])) == "[" + value && ShownAnew(["[", value]) == value
  {
    hide Strip, Scan, ScanBehind, AfterOpening, Concat, ShownAnew, IsSpace;
    ShownTwice(MARKER, value + CLOSE);
    ShownTwice("[", value);
    ScanShort("[");
    ScanMarker("");
    BehindNothing("");
    assert MARKER + "" == MARKER;
    ScanPlain(value);
    ScanPlain(value + CLOSE);
    MarkerVanishes(value);
    BracketStays(value);
    assert value + CLOSE + "" == value + CLOSE && value + "" == value && "" + value == value;
    assert "" + (value + CLOSE) == value + CLOSE;
  }

  lemma MarkerVanishes(value: string)
    requires forall c | c in value :: c != ']' && !IsSpace(c)
    ensures Strip(MARKER + (value + CLOSE)) == ""
  {
    hide Strip, AfterOpening, IsSpace;
    StripMarker(value + CLOSE);
    AfterCleanBody(value, "");
    assert value + CLOSE + "" == value + CLOSE;
    assert DropJunk("") == "";
    OwesAtStart("");
    OwesAtFlush(START);
  }

  lemma {:induction false} BracketStays(value: string)
    requires value != "" && '[' !in value
    ensures Strip("[" + value) == "[" + value
  {
    hide AfterOpening, Strip;
    var t := "[" + value;
    assert t[1] == value[0] && value[0] in value && MARKER[1] == '[';
    assert !MayBegin(t, MARKER);
    KeepChar(t);
    assert t[1..] == value;
    KeepPlain(value);
  }

  /** Two boundaries that are seen can make up for each other in what is shown at the end. */
  lemma {:induction false} BoundariesCanCancel()
    ensures var texts := ["[", MARKER, "["];
            && !BoundaryUnseen(texts, 1)
            && ShownAnew(texts) == "[" == Strip(Concat(texts))
  {
    hide Strip, Scan, ScanBehind;
    var texts := ["[", MARKER, "["];
    assert texts[..1] == ["["] && texts[..2] == ["[", MARKER] && ["[", MARKER][..1] == ["["] && ["["][..0] == [];
    assert texts[1..] == [MARKER, "["] && [MARKER, "["][1..] == ["["] && ["["][1..] == [];
    ScanShort("[");
    ScanMarker("");
    BehindNothing("");
    assert MARKER + "" == MARKER;
    assert PutAnew(["["]) == "" && PutAnew(["[", MARKER]) == "" && PutAnew(texts) == "";
    BracketInMarker();
    assert Concat(["["]) == "[" && Concat([MARKER, "["]) == MARKER + "[";
    assert Concat(texts) == "[" + (MARKER + "[");
    OneBracketHeld();
  }

  lemma OneBracketHeld()
    ensures Scan("[").st == State("[", false, false, false) && Held("[") == "["
    ensures !RestartUnseen(State("[", false, false, false), MARKER)
  {
    hide ScanBehind;
  }

  lemma BracketInMarker()
    ensures Strip("[" + (MARKER + "[")) == "["
  {
    hide Strip, AfterOpening;
    var t := "[" + (MARKER + "[");
    assert t[2] == '[' && MARKER[2] == 'v';
    assert t[..|MARKER|][2] == t[2];
    LongTextBegins(t, MARKER);
    KeepChar(t);
    assert t[1..] == MARKER + "[";
    StripMarker("[");
    NothingBehind("[");
  }

  lemma NothingBehind(body: string)
    requires body == "["
    ensures AfterOpening(body) == ""
  {
    BracketsAreNotSpace();
    hide Strip, IsSpace, BodyEnd;
    BodyEndIs(body, 1);
  }
}
