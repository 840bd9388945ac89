/** Exactly when the removal of markers puts a new marker opening together from what surrounded a removed one. */
module VizReassembly {
  import opened Text
  import opened VizStripper

  /** Whether scanning `text`, behind output that ends with the unfinished opening `held`, completes an opening. What
      is held stays held while a marker is removed. */
  predicate Assembles(held: string, text: string)
    decreases |text|, 0
  {
    if text == "" then false
    else if MARKER <= text then AssemblesBehind(held, text[|MARKER|..])
    else if |text| >= 2 && text <= MARKER then false
    else
      var t := held + [text[0]];
      t == MARKER || Assembles(t[|t| - TrailingPrefixLen(t, MARKER)..], text[1..])
  }

  predicate AssemblesBehind(held: string, body: string)
    decreases |body|, 1
  {
    var e := BodyEnd(body);
    if e == |body| then false
    else if IsSpace(body[e]) then Assembles(held, body[e..])
    else Assembles(held, DropJunk(body[e + 2..]))
  }

  ghost predicate HasOpening(text: string) {
    exists i: nat :: At(text, MARKER, i)
  }

  lemma Completes(out: string, held: string, c: char, rest: string)
    requires HoldsBack(held, out, MARKER) && held + [c] == MARKER
    ensures HasOpening(out + ([c] + rest))
  {
    hide TrailingPrefixLen;
    var t := out + ([c] + rest);
    var i := |out| - |held|;
    assert t[i..i + |MARKER|] == held + [c];
    assert At(t, MARKER, i);
  }

  lemma NothingMore(out: string, held: string)
    requires HoldsBack(held, out, MARKER)
    ensures !HasOpening(out + "")
  {
    hide TrailingPrefixLen, At;
    assert out + "" == out;
  }

  lemma StripUnfolds(text: string)
    requires text != ""
    ensures if MARKER <= text then Strip(text) == AfterOpening(text[|MARKER|..])
            else if |text| >= 2 && text <= MARKER then Strip(text) == ""
            else Strip(text) == [text[0]] + Strip(text[1..])
  {
    hide AfterOpening;
  }

  /** Behind any output that has no opening, the scan of `text` leaves one exactly when it assembles one. */
  lemma {:induction false} OpeningLeftIff(out: string, held: string, text: string)
    requires HoldsBack(held, out, MARKER)
    ensures HasOpening(out + Strip(text)) <==> Assembles(held, text)
    decreases |text|, 0
  {
    hide Strip, AfterOpening, TrailingPrefixLen, HoldsBack, HasOpening, At, AssemblesBehind;
    if text == "" {
      assert Strip("") == "" by {
        OwesAtFlush(START);
        OwesAtStart("");
      }
      NothingMore(out, held);
    } else {
      StripUnfolds(text);
      if MARKER <= text {
        OpeningLeftBehindIff(out, held, text[|MARKER|..]);
      } else if |text| >= 2 && text <= MARKER {
        NothingMore(out, held);
      } else {
        var c := text[0];
        if held + [c] == MARKER {
          Completes(out, held, c, Strip(text[1..]));
        } else {
          HoldsBackNext(out, held, c, MARKER);
          var t := held + [c];
          OpeningLeftIff(out + [c], t[|t| - TrailingPrefixLen(t, MARKER)..], text[1..]);
          assert out + ([c] + Strip(text[1..])) == out + [c] + Strip(text[1..]);
        }
      }
    }
  }

  lemma {:induction false} OpeningLeftBehindIff(out: string, held: string, body: string)
    requires HoldsBack(held, out, MARKER)
    ensures HasOpening(out + AfterOpening(body)) <==> AssemblesBehind(held, body)
    decreases |body|, 1
  {
    hide Strip, HoldsBack, HasOpening, Assembles, DropJunk, BodyEnd, IsSpace;
    var e := BodyEnd(body);
    if e == |body| {
      NothingMore(out, held);
    } else if IsSpace(body[e]) {
      OpeningLeftIff(out, held, body[e..]);
    } else {
      OpeningLeftIff(out, held, DropJunk(body[e + 2..]));
    }
  }

  /** The stripped text has a marker opening exactly when the scan assembles one. */
  lemma ReassemblesIff(text: string)
    ensures (exists i: nat :: At(Strip(text), MARKER, i)) <==> Assembles("", text)
  {
    hide Strip, Assembles, At, HoldsBack;
    HoldsBackNothing(MARKER);
    OpeningLeftIff("", "", text);
    assert "" + Strip(text) == Strip(text);
  }

  // ----- A condition to read off the text

  /** No marker opening comes directly behind the beginning of another one. */
  ghost predicate NoneBehindBeginning(text: string) {
    forall i: nat | At(text, MARKER, i) :: TrailingMarkerPrefixLen(text[..i]) == 0
  }

  /** What the scan holds back is a beginning of `m` that ends the text before it, and `m` does not open in it. */
  ghost predicate HeldIn(held: string, before: string, text: string, m: string) {
    && |held| <= |before| && held == before[|before| - |held|..]
    && held <= m && held != m
    && forall i | 0 <= i < |held| :: !(m <= held[i..] + text)
  }

  /** A removal finds nothing held back. */
  lemma NothingHeld(held: string, before: string, text: string)
    requires NoneBehindBeginning(before + text) && HeldIn(held, before, text, MARKER) && MARKER <= text
    ensures held == ""
  {
    hide TrailingPrefixLen;
    var k := |held|;
    assert (before + text)[|before|..|before| + |MARKER|] == text[..|MARKER|];
    assert At(before + text, MARKER, |before|);
    assert (before + text)[..|before|] == before;
    assert before[|before| - k..] == MARKER[..k];
  }

  /** One more character does not complete `m`. */
  lemma NotComplete(held: string, before: string, text: string, m: string)
    requires HeldIn(held, before, text, m) && text != "" && !(m <= text)
    ensures held + [text[0]] != m
  {
    var t := held + [text[0]];
    assert held + text == t + text[1..];
    assert held[0..] == held;
    assert held == "" ==> held + text == text;
    assert t <= t + text[1..];
  }

  /** One more character of text. */
  lemma HeldNext(held: string, before: string, text: string, m: string)
    requires m != "" && HeldIn(held, before, text, m) && text != "" && !(m <= text)
    ensures var t := held + [text[0]];
            && t != m
            && HeldIn(t[|t| - TrailingPrefixLen(t, m)..], before + [text[0]], text[1..], m)
  {
    hide TrailingPrefixLen;
    NotComplete(held, before, text, m);
    var t := held + [text[0]];
    var j := |t| - TrailingPrefixLen(t, m);
    forall i | 0 <= i < |t[j..]|
      ensures !(m <= t[j..][i..] + text[1..])
    {
      OpensInNext(held, before, text, m, j + i);
      assert t[j..][i..] == t[j + i..];
    }
    SameSuffix(before, held, text[0], |t| - j);
  }

  lemma OpensInNext(held: string, before: string, text: string, m: string, i: nat)
    requires HeldIn(held, before, text, m) && text != "" && !(m <= text) && i <= |held|
    ensures !(m <= (held + [text[0]])[i..] + text[1..])
  {
    assert (held + [text[0]])[i..] + text[1..] == held[i..] + text;
    assert i == |held| ==> held[i..] + text == text;
  }

  lemma HeldNothing(before: string, text: string)
    ensures HeldIn("", before, text, MARKER)
  {
  }

  lemma BodyLeaves(text: string)
    requires MARKER <= text
    ensures text == text[..|MARKER|] + text[|MARKER|..]
  {
  }

  lemma {:induction false} NothingAssembled(held: string, before: string, text: string)
    requires NoneBehindBeginning(before + text) && HeldIn(held, before, text, MARKER)
    ensures !Assembles(held, text)
    decreases |text|, 0
  {
    hide NoneBehindBeginning, HeldIn, TrailingPrefixLen, AssemblesBehind;
    if text != "" {
      if MARKER <= text {
        NothingHeld(held, before, text);
        BodyLeaves(text);
        assert before + text == before + text[..|MARKER|] + text[|MARKER|..];
        NothingAssembledBehind(before + text[..|MARKER|], text[|MARKER|..]);
      } else {
        HeldNext(held, before, text, MARKER);
        assert before + text == before + [text[0]] + text[1..];
        var t := held + [text[0]];
        NothingAssembled(t[|t| - TrailingPrefixLen(t, MARKER)..], before + [text[0]], text[1..]);
      }
    }
  }

  lemma {:induction false} NothingAssembledBehind(before: string, body: string)
    requires NoneBehindBeginning(before + body)
    ensures !AssemblesBehind("", body)
    decreases |body|, 1
  {
    hide NoneBehindBeginning, HeldIn, Assembles, DropJunk, BodyEnd, IsSpace;
    var e := BodyEnd(body);
    if e < |body| {
      var k := if IsSpace(body[e]) then e else |body| - |DropJunk(body[e + 2..])|;
      if !IsSpace(body[e]) {
        DropsToEnd(body, e + 2);
      }
      assert before + body == before + body[..k] + body[k..];
      HeldNothing(before + body[..k], body[k..]);
      NothingAssembled("", before + body[..k], body[k..]);
    }
  }

  lemma DropsToEnd(body: string, i: nat)
    requires i <= |body|
    ensures var k := |body| - |DropJunk(body[i..])|; i <= k && DropJunk(body[i..]) == body[k..]
  {
    DropJunkMeans(body[i..]);
  }

  /** When no marker opening comes directly behind the beginning of another one, the stripped text has none. */
  lemma NoneLeft(text: string)
    requires NoneBehindBeginning(text)
    ensures forall i: nat :: !At(Strip(text), MARKER, i)
  {
    hide NoneBehindBeginning, Strip, Assembles, At;
    assert "" + text == text;
    HeldNothing("", text);
    NothingAssembled("", "", text);
    ReassemblesIff(text);
  }
}
