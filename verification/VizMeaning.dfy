/** What markers mean, said without the placement code: which card stands where, in the batch form and in every
    streaming. */
module VizMeaning {
  import opened Text
  import opened Emissions
  import opened VizPlacement
  import opened VizCuts

  /** The given cards as a stream. */
  function Shown(cards: seq<Card>): seq<Emission> {
    seq(|cards|, i requires 0 <= i < |cards| => Viz(cards[i]))
  }

  /** The cards that have not been shown, in the order of their staging. */
  function Remaining(cards: seq<Card>, shown: set<nat>, from: nat): seq<Card>
    requires from <= |cards|
    decreases |cards| - from
  {
    if from == |cards| then []
    else (if from in shown then [] else [cards[from]]) + Remaining(cards, shown, from + 1)
  }

  /** A marker as the model writes it: text in front of it, and its value. */
  datatype Marked = Marked(text: string, value: string)

  function Joined(markers: seq<Marked>, tail: string): string {
    if markers == [] then tail
    else markers[0].text + (MARKER + (markers[0].value + CLOSE + Joined(markers[1..], tail)))
  }

  /** Without brackets, and the values without whitespace. */
  predicate Proper(markers: seq<Marked>, tail: string) {
    && NoBracket(tail)
    && forall m | m in markers :: NoBracket(m.text) && NoBracket(m.value) && forall c | c in m.value :: !IsSpace(c)
  }

  /** What the markers should show: at each one the card whose number its value is, if there is such a card and it has
      not been shown; behind everything the cards left. */
  function Meant(markers: seq<Marked>, tail: string, cards: seq<Card>, shown: set<nat>): seq<Emission> {
    if markers == [] then [Delta(tail)] + Shown(Remaining(cards, shown, 0))
    else
      var m := markers[0];
      [Delta(m.text)]
      + if IsDigits(m.value) && 1 <= ToNumber(m.value) <= |cards| && ToNumber(m.value) - 1 !in shown
        then [Viz(cards[ToNumber(m.value) - 1])] + Meant(markers[1..], tail, cards, shown + {ToNumber(m.value) - 1})
        else Meant(markers[1..], tail, cards, shown)
  }

  // ----- The fallback

  function ShowsFrom(n: nat, shown: set<nat>, from: nat): seq<Item>
    requires from <= n
    decreases n - from
  {
    if from == n then [] else (if from in shown then [] else [Show(from)]) + ShowsFrom(n, shown, from + 1)
  }

  lemma {:induction false} FallbackFrom(n: nat, shown: set<nat>, from: nat)
    requires from <= n
    ensures Fallback(n, shown) == Fallback(from, shown) + ShowsFrom(n, shown, from)
    decreases n - from
  {
    hide Fallback;
    if from < n {
      FallbackFrom(n, shown, from + 1);
      FallbackStep(from, shown);
      assert Fallback(from, shown) + OneLeft(from, shown) + ShowsFrom(n, shown, from + 1)
          == Fallback(from, shown) + (OneLeft(from, shown) + ShowsFrom(n, shown, from + 1));
    } else {
      assert Fallback(from, shown) + [] == Fallback(from, shown);
    }
  }

  function OneShown(cards: seq<Card>, shown: set<nat>, i: nat): seq<Card>
    requires i < |cards|
  {
    if i in shown then [] else [cards[i]]
  }

  lemma OneResolves(cards: seq<Card>, shown: set<nat>, i: nat)
    requires i < |cards|
    ensures Fits(OneLeft(i, shown), |cards|) && Resolve(OneLeft(i, shown), cards) == Shown(OneShown(cards, shown, i))
  {
    assert [Show(i)][1..] == [];
  }

  lemma ShownSplit(a: seq<Card>, b: seq<Card>)
    ensures Shown(a + b) == Shown(a) + Shown(b)
  {
  }

  lemma {:induction false} ShowsResolve(cards: seq<Card>, shown: set<nat>, from: nat)
    requires from <= |cards|
    ensures Fits(ShowsFrom(|cards|, shown, from), |cards|)
    ensures Resolve(ShowsFrom(|cards|, shown, from), cards) == Shown(Remaining(cards, shown, from))
    decreases |cards| - from
  {
    if from < |cards| {
      hide Resolve, Shown;
      ShowsResolve(cards, shown, from + 1);
      OneResolves(cards, shown, from);
      ResolveSplit(OneLeft(from, shown), ShowsFrom(|cards|, shown, from + 1), cards);
      ShownSplit(OneShown(cards, shown, from), Remaining(cards, shown, from + 1));
    }
  }

  /** The fallback shows the cards left, in the order of their staging. */
  lemma FallbackResolves(cards: seq<Card>, shown: set<nat>)
    ensures Resolve(Fallback(|cards|, shown), cards) == Shown(Remaining(cards, shown, 0))
  {
    hide Resolve;
    FallbackFrom(|cards|, shown, 0);
    assert Fallback(0, shown) == [];
    assert [] + ShowsFrom(|cards|, shown, 0) == ShowsFrom(|cards|, shown, 0);
    ShowsResolve(cards, shown, 0);
  }

  // ----- The batch form

  lemma PlainStart(text: string, rest: string)
    requires NoBracket(text)
    ensures Find(text + (MARKER + rest), MARKER) == |text|
  {
    hide Find, At;
    var t := text + (MARKER + rest);
    AtMiddle(text, MARKER, rest);
    forall i: nat | i < |text|
      ensures !At(t, MARKER, i)
    {
      assert text[i] in text && t[i] == text[i];
      NotAt(t, i);
    }
  }

  lemma NoMarkerInPlain(text: string)
    requires NoBracket(text)
    ensures Find(text, MARKER) == |text|
  {
    hide Find, At;
    if Find(text, MARKER) < |text| {
      NoBracketAt(text, Find(text, MARKER));
      NotAt(text, Find(text, MARKER));
    }
  }

  lemma NoBracketAt(text: string, i: nat)
    requires NoBracket(text) && i < |text|
    ensures text[i] != '[' && text[i] != ']'
  {
    assert text[i] in text;
  }

  /** The body of a marker whose value has no brackets. */
  lemma BodyCloses(value: string, rest: string)
    requires NoBracket(value)
    ensures var body := value + CLOSE + rest;
            Find(body, CLOSE) == |value| && Find(body, MARKER) > |value| && |value| < |body|
            && body[..|value|] == value && body[|value| + 2..] == rest
  {
    hide Find, At;
    var body := value + CLOSE + rest;
    assert ']' !in value;
    FirstPair(value, rest);
    assert value + (CLOSE + rest) == body;
    assert body[|value|] == CLOSE[0];
    var m := Find(body, MARKER);
    if m < |value| {
      NoBracketAt(value, m);
      assert body[m] == value[m];
      NotAt(body, m);
    } else if m == |value| {
      NotAt(body, m);
    }
  }

  lemma JoinedStart(markers: seq<Marked>, tail: string)
    requires Proper(markers, tail)
    ensures Joined(markers, tail) != "" ==> Joined(markers, tail)[0] != ']'
  {
    if markers != [] {
      assert markers[0] in markers;
      assert markers[0].text != "" ==> markers[0].text[0] in markers[0].text;
    } else if tail != "" {
      assert tail[0] in tail;
    }
  }

  lemma ProperRest(markers: seq<Marked>, tail: string)
    requires Proper(markers, tail) && markers != []
    ensures Proper(markers[1..], tail) && markers[0] in markers
  {
    assert forall m | m in markers[1..] :: m in markers;
  }

  lemma BatchStep(m: Marked, rest: string, n: nat, shown: set<nat>)
    requires NoBracket(m.text) && NoBracket(m.value) && (rest != "" ==> rest[0] != ']')
    ensures var card := CardOf(m.value, n, shown);
            BatchFrom(m.text + (MARKER + (m.value + CLOSE + rest)), n, shown)
            == Spoken(m.text) + (card.out + BatchFrom(rest, n, card.emitted))
  {
    hide Find, CardOf, Fallback, DropJunk, FindSpace;
    var body := m.value + CLOSE + rest;
    var t := m.text + (MARKER + body);
    PlainStart(m.text, body);
    BodyCloses(m.value, rest);
    NoJunk(rest);
    assert t[..|m.text|] == m.text && t[|m.text| + |MARKER|..] == body;
    var card := CardOf(m.value, n, shown);
    var p := Batch(rest, n, card.emitted);
    assert BatchMarker(body, n, shown) == Before(card.out, p);
    hide Batch, BatchMarker;
    assert Spoken(m.text) + (card.out + p.out) + Fallback(n, p.emitted)
        == Spoken(m.text) + (card.out + (p.out + Fallback(n, p.emitted)));
  }

  lemma FlushStep(m: Marked, rest: string, n: nat, shown: set<nat>)
    requires NoBracket(m.text) && NoBracket(m.value) && (rest != "" ==> rest[0] != ']')
    ensures var card := CardOf(m.value, n, shown);
            FlushAll(m.text + (MARKER + (m.value + CLOSE + rest)), n, shown)
            == Spoken(m.text) + (card.out + FlushAll(rest, n, card.emitted))
  {
    hide Find, CardOf, Fallback, DropJunk, FlushAll, FlushMarker, DrainMarker, Drain;
    var body := m.value + CLOSE + rest;
    var t := m.text + (MARKER + body);
    PlainStart(m.text, body);
    BodyCloses(m.value, rest);
    NoJunk(rest);
    FlushFromFirst(t, n, shown);
    assert t[..|m.text|] == m.text && t[|m.text|..] == MARKER + body;
    MarkerFirst(MARKER + body, n, shown);
    FlushClosed(MARKER + body, body, n, shown);
  }

  // ----- What is shown is what is meant

  /** The card that a value names. */
  function NamedCard(value: string, cards: seq<Card>, shown: set<nat>): seq<Emission> {
    if IsDigits(value) && 1 <= ToNumber(value) <= |cards| && ToNumber(value) - 1 !in shown
    then [Viz(cards[ToNumber(value) - 1])] else []
  }

  lemma CardMeans(value: string, cards: seq<Card>, shown: set<nat>)
    ensures var card := CardOf(value, |cards|, shown);
            && Resolve(card.out, cards) == NamedCard(value, cards, shown)
            && card.emitted == if NamedCard(value, cards, shown) == [] then shown else shown + {ToNumber(value) - 1}
  {
    hide ToNumber;
    var out := CardOf(value, |cards|, shown).out;
    assert out != [] ==> out[1..] == [];
  }

  lemma MeantFirst(markers: seq<Marked>, tail: string, cards: seq<Card>, shown: set<nat>)
    requires markers != []
    ensures var m := markers[0];
            Meant(markers, tail, cards, shown)
            == [Delta(m.text)] + (NamedCard(m.value, cards, shown)
                                  + Meant(markers[1..], tail, cards, CardOf(m.value, |cards|, shown).emitted))
  {
    CardMeans(markers[0].value, cards, shown);
    hide CardOf, ToNumber;
    var rest := Meant(markers[1..], tail, cards, shown);
    assert [] + rest == rest;
  }

  /** One marker in front of what merges alike. */
  lemma StepMeans(m: Marked, out: seq<Item>, meant: seq<Emission>, cards: seq<Card>, shown: set<nat>)
    requires Fits(out, |cards|) && Merged(Resolve(out, cards)) == Merged(meant)
    ensures var card := CardOf(m.value, |cards|, shown);
            var all := Spoken(m.text) + (card.out + out);
            && Fits(all, |cards|)
            && Merged(Resolve(all, cards)) == Merged([Delta(m.text)] + (NamedCard(m.value, cards, shown) + meant))
  {
    hide Merged, Resolve, Spoken, CardOf, NamedCard;
    var card := CardOf(m.value, |cards|, shown);
    CardMeans(m.value, cards, shown);
    SpokenResolves(m.text, cards, Resolve(card.out + out, cards));
    ResolveSplit(card.out, out, cards);
    ResolveSplit(Spoken(m.text), card.out + out, cards);
    MergedBehind(NamedCard(m.value, cards, shown), Resolve(out, cards), meant);
    MergedBehind([Delta(m.text)], Resolve(card.out, cards) + Resolve(out, cards),
                 NamedCard(m.value, cards, shown) + meant);
  }

  lemma PlainBatch(tail: string, cards: seq<Card>, shown: set<nat>)
    requires NoBracket(tail)
    ensures FlushAll(tail, |cards|, shown) == Spoken(tail) + Fallback(|cards|, shown)
    ensures BatchFrom(tail, |cards|, shown) == Spoken(tail) + Fallback(|cards|, shown)
    ensures Merged(Resolve(Spoken(tail) + Fallback(|cards|, shown), cards))
         == Merged([Delta(tail)] + Shown(Remaining(cards, shown, 0)))
  {
    hide Find, Merged, Resolve, Fallback, Shown, Remaining, Drain;
    NoMarkerInPlain(tail);
    DrainWithoutMarker(tail, |cards|, shown, true);
    assert tail[..|tail|] == tail;
    FallbackResolves(cards, shown);
    ResolveSplit(Spoken(tail), Fallback(|cards|, shown), cards);
    SpokenResolves(tail, cards, Resolve(Fallback(|cards|, shown), cards));
  }

  /** The batch form and one flush show exactly what the markers mean. */
  lemma {:induction false} MarkersMean(markers: seq<Marked>, tail: string, cards: seq<Card>, shown: set<nat>)
    requires Proper(markers, tail)
    ensures var text := Joined(markers, tail);
            && Merged(Resolve(BatchFrom(text, |cards|, shown), cards)) == Merged(Meant(markers, tail, cards, shown))
            && Merged(Resolve(FlushAll(text, |cards|, shown), cards)) == Merged(Meant(markers, tail, cards, shown))
    decreases |markers|
  {
    hide Merged, Resolve, BatchFrom, FlushAll, CardOf, Spoken, NamedCard, Fallback, Remaining, Shown;
    if markers == [] {
      PlainBatch(tail, cards, shown);
    } else {
      ProperRest(markers, tail);
      var m, rest := markers[0], Joined(markers[1..], tail);
      var card := CardOf(m.value, |cards|, shown);
      JoinedStart(markers[1..], tail);
      MeantFirst(markers, tail, cards, shown);
      hide Meant;
      MarkersMean(markers[1..], tail, cards, card.emitted);
      BatchStep(m, rest, |cards|, shown);
      FlushStep(m, rest, |cards|, shown);
      StepMeans(m, BatchFrom(rest, |cards|, card.emitted), Meant(markers[1..], tail, cards, card.emitted), cards, shown);
      StepMeans(m, FlushAll(rest, |cards|, card.emitted), Meant(markers[1..], tail, cards, card.emitted), cards, shown);
    }
  }

  lemma {:induction false} JoinedIsSafe(markers: seq<Marked>, tail: string)
    requires Proper(markers, tail)
    ensures CutSafe(Joined(markers, tail))
    decreases |markers|
  {
    hide CutSafe, Find, FindSpace, IsSpace;
    if markers == [] {
      NoMarkerInPlain(tail);
      PlainIsSafe(tail);
    } else {
      ProperRest(markers, tail);
      var m, rest := markers[0], Joined(markers[1..], tail);
      JoinedIsSafe(markers[1..], tail);
      JoinedStart(markers[1..], tail);
      MarkerIsSafe(m, rest);
    }
  }

  lemma PlainIsSafe(text: string)
    requires Find(text, MARKER) == |text|
    ensures CutSafe(text)
  {
    hide Find;
  }

  lemma MarkerIsSafe(m: Marked, rest: string)
    requires NoBracket(m.text) && NoBracket(m.value) && (forall c | c in m.value :: !IsSpace(c))
    requires CutSafe(rest) && (rest != "" ==> rest[0] != ']')
    ensures CutSafe(m.text + (MARKER + (m.value + CLOSE + rest)))
  {
    hide CutSafe, Find, FindSpace, IsSpace, At;
    var body := m.value + CLOSE + rest;
    PlainStart(m.text, body);
    BodyCloses(m.value, rest);
    SpaceNotBefore(m.value, rest);
    assert rest != "" ==> body[|m.value| + 2] == rest[0];
    SafeMarker(MARKER + body, body);
    assert forall i: nat | i < |m.text| :: !At(m.text + (MARKER + body), MARKER, i);
    SafeBehind(m.text, MARKER + body);
  }

  lemma SpaceNotBefore(value: string, rest: string)
    requires forall c | c in value :: !IsSpace(c)
    ensures FindSpace(value + CLOSE + rest) > |value|
  {
    hide FindSpace, IsSpace;
    BracketsAreNotSpace();
    var body := value + CLOSE + rest;
    assert forall j | 0 <= j < |value| :: body[j] == value[j] && value[j] in value;
    assert body[|value|] == ']';
  }

  /** Every streaming of the text, however it is cut, shows exactly what its markers mean, and so does the batch form. */
  lemma EveryFormMeans(markers: seq<Marked>, tail: string, cards: seq<Card>, chunks: seq<string>)
    requires Proper(markers, tail) && Concat(chunks) == Joined(markers, tail)
    ensures Streamed(chunks, cards) == Merged(Meant(markers, tail, cards, {}))
    ensures Merged(Resolve(BatchFrom(Joined(markers, tail), |cards|, {}), cards)) == Merged(Meant(markers, tail, cards, {}))
  {
    hide CutSafe, Streamed, Joined, Meant, Proper, Merged, Resolve, BatchFrom, FlushAll, Concat;
    MarkersMean(markers, tail, cards, {});
    JoinedIsSafe(markers, tail);
    SafeCut(Joined(markers, tail), chunks, cards);
  }

  // ----- One marker, and a second one like it

  /** Streamed in any chunks, and in the batch form, the text shows `meant`. */
  ghost predicate Shows(text: string, cards: seq<Card>, chunks: seq<string>, meant: seq<Emission>) {
    && Streamed(chunks, cards) == Merged(meant)
    && Merged(Resolve(BatchFrom(text, |cards|, {}), cards)) == Merged(meant)
  }

  lemma DigitsAreProper(value: string)
    requires IsDigits(value)
    ensures NoBracket(value) && forall c | c in value :: !IsSpace(c)
  {
    forall c | c in value
      ensures c != '[' && c != ']' && !IsSpace(c)
    {
      var i :| 0 <= i < |value| && value[i] == c;
    }
  }

  lemma {:induction false} NoneRemain(cards: seq<Card>, shown: set<nat>, from: nat)
    requires from <= |cards| && forall i | from <= i < |cards| :: i !in shown
    ensures Remaining(cards, shown, from) == cards[from..]
    decreases |cards| - from
  {
    if from < |cards| {
      NoneRemain(cards, shown, from + 1);
    }
  }

  lemma {:induction false} OneGone(cards: seq<Card>, k: nat, from: nat)
    requires from <= k < |cards|
    ensures Remaining(cards, {k}, from) == cards[from..k] + cards[k + 1..]
    decreases k - from
  {
    if from < k {
      OneGone(cards, k, from + 1);
      assert [cards[from]] + (cards[from + 1..k] + cards[k + 1..]) == cards[from..k] + cards[k + 1..];
    } else {
      NoneRemain(cards, {k}, k + 1);
      assert cards[k..k] == [];
    }
  }

  lemma JoinOne(text: string, value: string, tail: string)
    ensures Joined([Marked(text, value)], tail) == text + (MARKER + (value + CLOSE + tail))
  {
    assert [Marked(text, value)][1..] == [];
  }

  /** The marker with the number of a card shows that card where it stands, and the other cards behind the text. */
  lemma MarkerPlacesCard(a: string, k: nat, b: string, cards: seq<Card>, chunks: seq<string>)
    requires 1 <= k <= |cards| && NoBracket(a) && NoBracket(b)
    requires Concat(chunks) == a + (MARKER + (ToDigits(k) + CLOSE + b))
    ensures Shows(Concat(chunks), cards, chunks,
                  [Delta(a), Viz(cards[k - 1]), Delta(b)] + Shown(cards[..k - 1] + cards[k..]))
  {
    hide Streamed, Merged, Resolve, BatchFrom, Concat, IsSpace, ToNumber, ToDigits, Remaining, Shown;
    var value := ToDigits(k);
    var m := Marked(a, value);
    DigitsAreProper(value);
    JoinOne(a, value, b);
    EveryFormMeans([m], b, cards, chunks);
    OneGone(cards, k - 1, 0);
    assert [m][1..] == [] && cards[0..k - 1] == cards[..k - 1] && {} + {k - 1} == {k - 1};
    var others := Shown(cards[..k - 1] + cards[k..]);
    assert Meant([], b, cards, {k - 1}) == [Delta(b)] + others;
    assert Meant([m], b, cards, {}) == [Delta(a)] + ([Viz(cards[k - 1])] + ([Delta(b)] + others));
    assert [Delta(a)] + ([Viz(cards[k - 1])] + ([Delta(b)] + others))
        == [Delta(a), Viz(cards[k - 1]), Delta(b)] + others;
  }

  /** A value that is no number of a card places nothing: the marker vanishes from the text. */
  lemma OtherValuePlacesNothing(a: string, value: string, b: string, cards: seq<Card>, chunks: seq<string>)
    requires NoBracket(a) && NoBracket(value) && NoBracket(b) && forall c | c in value :: !IsSpace(c)
    requires !IsDigits(value) || ToNumber(value) == 0 || ToNumber(value) > |cards|
    requires Concat(chunks) == a + (MARKER + (value + CLOSE + b))
    ensures Shows(Concat(chunks), cards, chunks, [Delta(a + b)] + Shown(cards))
  {
    hide Streamed, Merged, Resolve, BatchFrom, Concat, IsSpace, ToNumber, Remaining, Shown;
    var m := Marked(a, value);
    JoinOne(a, value, b);
    EveryFormMeans([m], b, cards, chunks);
    NoneRemain(cards, {}, 0);
    assert [m][1..] == [] && cards[0..] == cards;
    assert Meant([], b, cards, {}) == [Delta(b)] + Shown(cards);
    assert Meant([m], b, cards, {}) == [Delta(a)] + Meant([], b, cards, {});
    assert [Delta(a)] + ([Delta(b)] + Shown(cards)) == [Delta(a), Delta(b)] + Shown(cards);
    MergedJoin(a, b, Shown(cards));
  }

  lemma MeantTwice(m: Marked, n: Marked, tail: string, cards: seq<Card>, k: nat, others: seq<Emission>)
    requires k < |cards| && IsDigits(m.value) && m.value == n.value && ToNumber(m.value) == k + 1
    requires Meant([], tail, cards, {k}) == [Delta(tail)] + others
    ensures Meant([m, n], tail, cards, {})
         == [Delta(m.text), Viz(cards[k])] + ([Delta(n.text), Delta(tail)] + others)
  {
    hide ToNumber, Remaining, Shown;
    assert [m, n][1..] == [n] && [n][1..] == [] && {} + {k} == {k};
    assert Meant([n], tail, cards, {k}) == [Delta(n.text)] + ([Delta(tail)] + others);
    assert Meant([m, n], tail, cards, {})
        == [Delta(m.text)] + ([Viz(cards[k])] + ([Delta(n.text)] + ([Delta(tail)] + others)));
  }

  /** A second marker with the number of a card places nothing. */
  lemma SecondMarkerPlacesNothing(a: string, k: nat, b: string, c: string, cards: seq<Card>, chunks: seq<string>)
    requires 1 <= k <= |cards| && NoBracket(a) && NoBracket(b) && NoBracket(c)
    requires Concat(chunks) == a + (MARKER + (ToDigits(k) + CLOSE + (b + (MARKER + (ToDigits(k) + CLOSE + c)))))
    ensures Shows(Concat(chunks), cards, chunks,
                  [Delta(a), Viz(cards[k - 1]), Delta(b + c)] + Shown(cards[..k - 1] + cards[k..]))
  {
    hide Streamed, Merged, Resolve, BatchFrom, Concat, IsSpace, ToNumber, ToDigits, Remaining, Shown, Meant;
    var value := ToDigits(k);
    var m, n := Marked(a, value), Marked(b, value);
    DigitsAreProper(value);
    JoinTwo(a, b, value, c);
    EveryFormMeans([m, n], c, cards, chunks);
    OneGone(cards, k - 1, 0);
    assert cards[0..k - 1] == cards[..k - 1];
    var others := Shown(cards[..k - 1] + cards[k..]);
    MeantAtEnd(c, cards, {k - 1});
    MeantTwice(m, n, c, cards, k - 1, others);
    var front := [Delta(a), Viz(cards[k - 1])];
    MergedJoin(b, c, others);
    MergedBehind(front, [Delta(b), Delta(c)] + others, [Delta(b + c)] + others);
    assert front + ([Delta(b + c)] + others) == [Delta(a), Viz(cards[k - 1]), Delta(b + c)] + others;
  }

  lemma MeantAtEnd(tail: string, cards: seq<Card>, shown: set<nat>)
    ensures Meant([], tail, cards, shown) == [Delta(tail)] + Shown(Remaining(cards, shown, 0))
  {
  }

  lemma JoinTwo(a: string, b: string, value: string, tail: string)
    ensures Joined([Marked(a, value), Marked(b, value)], tail)
         == a + (MARKER + (value + CLOSE + (b + (MARKER + (value + CLOSE + tail)))))
  {
    JoinOne(b, value, tail);
    assert [Marked(a, value), Marked(b, value)][1..] == [Marked(b, value)];
  }
}
