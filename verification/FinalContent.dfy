/** The writer of final answers (app/agent_node.py): cards placed where their markers stream by, each at most once
    in a turn, over any interleaving of text, staging, flushes and iterations. */
module FinalContent {
  import opened Text
  import opened Emissions
  import opened VizPlacement
  import opened VizStripper

  // ----- Which cards a stretch of output shows

  /** The indices shown, in order. */
  function ShownBy(out: seq<Item>): seq<nat> {
    if out == [] then [] else (if out[0].Show? then [out[0].index] else []) + ShownBy(out[1..])
  }

  predicate Distinct(s: seq<nat>) {
    forall i, j | 0 <= i < j < |s| :: s[i] != s[j]
  }

  ghost function ToSet(s: seq<nat>): set<nat> {
    set i | i in s
  }

  /** The cards shown by a stream, in order. */
  function Vizzes(es: seq<Emission>): seq<Card> {
    if es == [] then [] else (if es[0].Viz? then [es[0].spec] else []) + Vizzes(es[1..])
  }

  /** The cards with the given indices. */
  function Pick(indices: seq<nat>, cards: seq<Card>): seq<Card>
    requires forall i | i in indices :: i < |cards|
  {
    seq(|indices|, i requires 0 <= i < |indices| => assert indices[i] in indices; cards[indices[i]])
  }

  lemma {:induction false} ShownBySplit(a: seq<Item>, b: seq<Item>)
    ensures ShownBy(a + b) == ShownBy(a) + ShownBy(b)
  {
    if a == [] {
      assert a + b == b;
    } else {
      ShownByFirst(a[0], a[1..]);
      ShownByFirst(a[0], a[1..] + b);
      hide ShownBy;
      ShownBySplit(a[1..], b);
      assert a == [a[0]] + a[1..] && a + b == [a[0]] + (a[1..] + b);
      assert ShownBy([a[0]]) + (ShownBy(a[1..]) + ShownBy(b)) == ShownBy([a[0]]) + ShownBy(a[1..]) + ShownBy(b);
    }
  }

  lemma ShownByFirst(item: Item, rest: seq<Item>)
    ensures ShownBy([item] + rest) == ShownBy([item]) + ShownBy(rest)
  {
    assert ([item] + rest)[1..] == rest && [item][1..] == [];
  }

  lemma {:induction false} VizzesSplit(a: seq<Emission>, b: seq<Emission>)
    ensures Vizzes(a + b) == Vizzes(a) + Vizzes(b)
  {
    if a == [] {
      assert a + b == b;
    } else {
      VizzesFirst(a[0], a[1..]);
      VizzesFirst(a[0], a[1..] + b);
      hide Vizzes;
      VizzesSplit(a[1..], b);
      assert a == [a[0]] + a[1..] && a + b == [a[0]] + (a[1..] + b);
      assert Vizzes([a[0]]) + (Vizzes(a[1..]) + Vizzes(b)) == Vizzes([a[0]]) + Vizzes(a[1..]) + Vizzes(b);
    }
  }

  lemma VizzesFirst(e: Emission, rest: seq<Emission>)
    ensures Vizzes([e] + rest) == Vizzes([e]) + Vizzes(rest)
  {
    assert ([e] + rest)[1..] == rest && [e][1..] == [];
  }

  lemma {:induction false} VizzesOfResolved(out: seq<Item>, cards: seq<Card>)
    requires Fits(out, |cards|)
    ensures forall i | i in ShownBy(out) :: i < |cards|
    ensures Vizzes(Resolve(out, cards)) == Pick(ShownBy(out), cards)
  {
    if out != [] {
      var rest := out[1..];
      assert out[0] in out && forall item | item in rest :: item in out;
      var e := if out[0].Say? then Delta(out[0].text) else Viz(cards[out[0].index]);
      assert Resolve(out, cards) == [e] + Resolve(rest, cards);
      VizzesFirst(e, Resolve(rest, cards));
      ShownByFirst(out[0], rest);
      assert out == [out[0]] + rest;
      VizzesOfOne(e);
      ShownByOne(out[0]);
      hide Vizzes, ShownBy, Resolve, Pick;
      VizzesOfResolved(rest, cards);
      PickSplit(ShownBy([out[0]]), ShownBy(rest), cards);
      if out[0].Show? {
        PickOne(out[0].index, cards);
      }
      assert Pick([], cards) == [];
    }
  }

  lemma PickSplit(a: seq<nat>, b: seq<nat>, cards: seq<Card>)
    requires (forall i | i in a :: i < |cards|) && forall i | i in b :: i < |cards|
    ensures (forall i | i in a + b :: i < |cards|) && Pick(a + b, cards) == Pick(a, cards) + Pick(b, cards)
  {
  }

  lemma PickOne(i: nat, cards: seq<Card>)
    requires i < |cards|
    ensures Pick([i], cards) == [cards[i]]
  {
  }

  lemma VizzesOfOne(e: Emission)
    ensures Vizzes([e]) == if e.Viz? then [e.spec] else []
  {
  }

  lemma ShownByOne(item: Item)
    ensures ShownBy([item]) == if item.Show? then [item.index] else []
  {
  }

  /** What is shown from here on is new: no index twice, none that was emitted before, and the set of emitted
      indices grows by exactly what was shown. */
  ghost predicate ShowsOnce(out: seq<Item>, before: set<nat>, after: set<nat>) {
    Distinct(ShownBy(out)) && ToSet(ShownBy(out)) !! before && after == before + ToSet(ShownBy(out))
  }

  lemma ShowsOnceThen(a: seq<Item>, b: seq<Item>, s0: set<nat>, s1: set<nat>, s2: set<nat>)
    requires ShowsOnce(a, s0, s1) && ShowsOnce(b, s1, s2)
    ensures ShowsOnce(a + b, s0, s2)
  {
    ShownBySplit(a, b);
    var x, y := ShownBy(a), ShownBy(b);
    assert ToSet(x + y) == ToSet(x) + ToSet(y);
    forall i, j | 0 <= i < j < |x + y|
      ensures (x + y)[i] != (x + y)[j]
    {
      if i < |x| <= j {
        assert x[i] in ToSet(x) && y[j - |x|] in ToSet(y);
      }
    }
  }

  lemma ShowsNothing(text: string, s: set<nat>)
    ensures ShowsOnce(Spoken(text), s, s)
  {
    assert Spoken(text) != [] ==> Spoken(text)[1..] == [];
  }

  lemma CardShowsOnce(value: string, n: nat, emitted: set<nat>)
    ensures ShowsOnce(CardOf(value, n, emitted).out, emitted, CardOf(value, n, emitted).emitted)
  {
    var out := CardOf(value, n, emitted).out;
    assert out != [] ==> out[1..] == [];
  }

  /** Draining never shows a card a second time, on any text. */
  lemma {:induction false} DrainShowsOnce(pending: string, n: nat, emitted: set<nat>, final: bool)
    ensures var d := Drain(pending, n, emitted, final); ShowsOnce(d.out, emitted, d.emitted)
    decreases |pending|, 1
  {
    hide Find, ShowsOnce, DrainMarker;
    var m := Find(pending, MARKER);
    if m == |pending| {
      ShowsNothing(pending[..|pending| - (if final then 0 else TrailingMarkerPrefixLen(pending))], emitted);
    } else {
      ShowsNothing(pending[..m], emitted);
      DrainMarkerShowsOnce(pending[m..], n, emitted, final);
      var d := DrainMarker(pending[m..], n, emitted, final);
      ShowsOnceThen(Spoken(pending[..m]), d.out, emitted, emitted, d.emitted);
    }
  }

  lemma {:induction false} DrainMarkerShowsOnce(pending: string, n: nat, emitted: set<nat>, final: bool)
    requires |MARKER| <= |pending|
    ensures var d := DrainMarker(pending, n, emitted, final); ShowsOnce(d.out, emitted, d.emitted)
    decreases |pending|, 0
  {
    hide Find, ShowsOnce, Drain, CardOf, FindSpace, DropJunk;
    var body := pending[|MARKER|..];
    var e := Find(body, CLOSE);
    if e == |body| {
      var w := FindSpace(body);
      if w == |body| {
        ShowsNothing("", emitted);
      } else {
        DrainShowsOnce(body[w..], n, emitted, final);
      }
    } else {
      CardShowsOnce(body[..e], n, emitted);
      var card := CardOf(body[..e], n, emitted);
      var rest := DropJunk(body[e + 2..]);
      DrainShowsOnce(rest, n, card.emitted, final);
      var d := Drain(rest, n, card.emitted, final);
      ShowsOnceThen(card.out, d.out, emitted, card.emitted, d.emitted);
    }
  }

  ghost function UpTo(n: nat): (s: set<nat>)
    ensures forall i: nat :: i in s <==> i < n
  {
    if n == 0 then {} else UpTo(n - 1) + {n - 1}
  }

  lemma LastShowsOnce(n: nat, emitted: set<nat>)
    ensures ShowsOnce(if n in emitted then [] else [Show(n)], emitted + UpTo(n), emitted + UpTo(n + 1))
  {
    assert UpTo(n + 1) == UpTo(n) + {n};
    if n in emitted {
      assert emitted + UpTo(n + 1) == emitted + UpTo(n);
    } else {
      assert ShownBy([Show(n)]) == [n] + ShownBy([Show(n)][1..]) == [n];
      assert ToSet([n]) == {n};
      assert emitted + UpTo(n + 1) == emitted + UpTo(n) + {n};
    }
  }

  /** The fallback shows the cards that have not been shown, each once, and leaves none out. */
  lemma {:induction false} FallbackShowsTheRest(n: nat, emitted: set<nat>)
    ensures ShowsOnce(Fallback(n, emitted), emitted, emitted + UpTo(n))
  {
    hide ShowsOnce;
    if n == 0 {
      ShowsNothing("", emitted);
      assert emitted + UpTo(0) == emitted;
    } else {
      FallbackShowsTheRest(n - 1, emitted);
      LastShowsOnce(n - 1, emitted);
      ShowsOnceThen(Fallback(n - 1, emitted), if n - 1 in emitted then [] else [Show(n - 1)],
                    emitted, emitted + UpTo(n - 1), emitted + UpTo(n));
    }
  }

  // ----- The output of a turn

  /** The stream writer, remembering all that was written. */
  class EmissionLog {
    var log: seq<Emission>
    // The indices of the cards written, in order.
    ghost var shown: seq<nat>

    constructor ()
      ensures log == [] && shown == []
    {
      log, shown := [], [];
    }

    method Write(e: Emission)
      requires !e.Viz?
      modifies this
      ensures log == old(log) + [e] && shown == old(shown)
    {
      log := log + [e];
    }

    method WriteCard(index: nat, card: Card)
      modifies this
      ensures log == old(log) + [Viz(card)] && shown == old(shown) + [index]
    {
      log, shown := log + [Viz(card)], shown + [index];
    }
  }

  /** The cards staged so far in a turn; the list only grows. */
  class StagedCards {
    var cards: seq<Card>

    constructor ()
      ensures cards == []
    {
      cards := [];
    }

    method Stage(card: Card)
      modifies this
      ensures cards == old(cards) + [card]
    {
      cards := cards + [card];
    }
  }

  /** The cards in the stream are the staged cards with the indices `shown`, and no index comes twice. */
  ghost predicate EachOnce(log: seq<Emission>, shown: seq<nat>, cards: seq<Card>) {
    Distinct(shown) && (forall i | i in shown :: i < |cards|) && Vizzes(log) == Pick(shown, cards)
  }

  lemma EachOnceThen(log: seq<Emission>, shown: seq<nat>, cards: seq<Card>, out: seq<Item>, after: set<nat>)
    requires EachOnce(log, shown, cards) && Fits(out, |cards|) && ShowsOnce(out, ToSet(shown), after)
    ensures EachOnce(log + Resolve(out, cards), shown + ShownBy(out), cards)
    ensures ToSet(shown + ShownBy(out)) == after
  {
    hide Resolve, Vizzes, ShownBy;
    VizzesSplit(log, Resolve(out, cards));
    VizzesOfResolved(out, cards);
    ShowsOnceThenSet(shown, ShownBy(out), after);
    assert Pick(shown + ShownBy(out), cards) == Pick(shown, cards) + Pick(ShownBy(out), cards);
  }

  lemma ShowsOnceThenSet(x: seq<nat>, y: seq<nat>, after: set<nat>)
    requires Distinct(x) && Distinct(y) && ToSet(y) !! ToSet(x) && after == ToSet(x) + ToSet(y)
    ensures Distinct(x + y) && ToSet(x + y) == after
  {
    forall i, j | 0 <= i < j < |x + y|
      ensures (x + y)[i] != (x + y)[j]
    {
      if i < |x| <= j {
        assert x[i] in ToSet(x) && y[j - |x|] in ToSet(y);
      }
    }
    assert ToSet(x + y) == ToSet(x) + ToSet(y);
  }

  /** Once every staged index has been shown, the stream holds each staged card as often as it was staged. */
  lemma AllShownIsPermutation(log: seq<Emission>, shown: seq<nat>, cards: seq<Card>)
    requires EachOnce(log, shown, cards) && ToSet(shown) == UpTo(|cards|)
    ensures multiset(Vizzes(log)) == multiset(cards)
  {
    hide Vizzes;
    PermutationPicksAll(shown, cards);
  }

  /** Taking out one of the indices takes out its card. */
  lemma PickWithout(shown: seq<nat>, k: nat, cards: seq<Card>)
    requires k < |shown| && forall i | i in shown :: i < |cards|
    ensures var rest := shown[..k] + shown[k + 1..];
            && (forall i | i in rest :: i in shown)
            && shown[k] in shown
            && multiset(Pick(shown, cards)) == multiset(Pick(rest, cards)) + multiset{cards[shown[k]]}
  {
    var rest := shown[..k] + shown[k + 1..];
    assert forall i | i in rest :: i in shown;
    var p := Pick(shown, cards);
    assert Pick(rest, cards) == p[..k] + p[k + 1..];
    assert p == p[..k] + [p[k]] + p[k + 1..];
  }

  lemma PickFromFront(shown: seq<nat>, cards: seq<Card>)
    requires cards != [] && forall i | i in shown :: i < |cards| - 1
    ensures Pick(shown, cards) == Pick(shown, cards[..|cards| - 1])
  {
    var front := cards[..|cards| - 1];
    forall i | 0 <= i < |shown|
      ensures Pick(shown, cards)[i] == Pick(shown, front)[i]
    {
      assert shown[i] in shown;
    }
  }

  /** All indices but the last one, once the last one is taken out. */
  lemma WithoutLast(shown: seq<nat>, k: nat, n: nat)
    requires Distinct(shown) && ToSet(shown) == UpTo(n + 1) && k < |shown| && shown[k] == n
    ensures var rest := shown[..k] + shown[k + 1..];
            Distinct(rest) && ToSet(rest) == UpTo(n)
  {
    var rest := shown[..k] + shown[k + 1..];
    forall j | 0 <= j < |rest|
      ensures rest[j] in UpTo(n)
    {
      var j' := if j < k then j else j + 1;
      assert rest[j] == shown[j'] && shown[j'] in ToSet(shown);
      assert shown[j'] != shown[k];
    }
    forall i | i in UpTo(n)
      ensures i in rest
    {
      assert i in ToSet(shown);
      var j :| 0 <= j < |shown| && shown[j] == i;
      assert rest[if j < k then j else j - 1] == i;
    }
    assert ToSet(rest) == UpTo(n);
  }

  lemma NothingUpTo(n: nat)
    requires UpTo(n) == {}
    ensures n == 0
  {
  }

  lemma {:induction false} PermutationPicksAll(shown: seq<nat>, cards: seq<Card>)
    requires Distinct(shown) && (forall i | i in shown :: i < |cards|) && ToSet(shown) == UpTo(|cards|)
    ensures multiset(Pick(shown, cards)) == multiset(cards)
    decreases |cards|
  {
    if shown == [] {
      assert ToSet(shown) == {};
      NothingUpTo(|cards|);
    } else {
      assert shown[0] in shown;
      var last := |cards| - 1;
      assert last in ToSet(shown);
      var k :| 0 <= k < |shown| && shown[k] == last;
      hide Pick, UpTo, ToSet, Distinct;
      PickWithoutLast(shown, k, cards);
      PermutationPicksAll(shown[..k] + shown[k + 1..], cards[..last]);
      assert cards == cards[..last] + [cards[last]];
    }
  }

  /** Taking out the last index takes out the last card. */
  lemma PickWithoutLast(shown: seq<nat>, k: nat, cards: seq<Card>)
    requires Distinct(shown) && (forall i | i in shown :: i < |cards|) && ToSet(shown) == UpTo(|cards|)
    requires k < |shown| && cards != [] && shown[k] == |cards| - 1
    ensures var rest := shown[..k] + shown[k + 1..];
            var front := cards[..|cards| - 1];
            && Distinct(rest) && ToSet(rest) == UpTo(|front|)
            && (forall i | i in rest :: i < |front|)
            && multiset(Pick(shown, cards)) == multiset(Pick(rest, front)) + multiset{cards[|cards| - 1]}
  {
    hide Pick, Distinct;
    var rest := shown[..k] + shown[k + 1..];
    WithoutLast(shown, k, |cards| - 1);
    PickWithout(shown, k, cards);
    assert forall i | i in rest :: i in ToSet(rest);
    PickFromFront(rest, cards);
  }

  lemma {:induction false} PicksAtMostAll(shown: seq<nat>, cards: seq<Card>)
    requires Distinct(shown) && forall i | i in shown :: i < |cards|
    ensures multiset(Pick(shown, cards)) <= multiset(cards)
    decreases |cards|
  {
    if shown != [] {
      assert shown[0] in shown;
      var last := |cards| - 1;
      assert cards == cards[..last] + [cards[last]];
      if last in shown {
        var k :| 0 <= k < |shown| && shown[k] == last;
        var rest := shown[..k] + shown[k + 1..];
        PickWithout(shown, k, cards);
        WithoutOne(shown, k);
        PickFromFront(rest, cards);
        PicksAtMostAll(rest, cards[..last]);
      } else {
        PickFromFront(shown, cards);
        PicksAtMostAll(shown, cards[..last]);
      }
    }
  }

  lemma WithoutOne(shown: seq<nat>, k: nat)
    requires Distinct(shown) && k < |shown|
    ensures var rest := shown[..k] + shown[k + 1..];
            Distinct(rest) && forall i | i in rest :: i in shown && i != shown[k]
  {
    var rest := shown[..k] + shown[k + 1..];
    forall j | 0 <= j < |rest|
      ensures rest[j] in shown && rest[j] != shown[k]
    {
      var j' := if j < k then j else j + 1;
      assert rest[j] == shown[j'] && shown[j'] in shown;
      assert shown[j'] != shown[k];
    }
  }

  // ----- The placer

  /** One more piece behind what has been written. */
  lemma Written(log: seq<Emission>, shown: seq<nat>, out: seq<Item>, piece: seq<Item>, cards: seq<Card>)
    requires Fits(out, |cards|) && Fits(piece, |cards|)
    ensures Fits(out + piece, |cards|)
    ensures log + Resolve(out, cards) + Resolve(piece, cards) == log + Resolve(out + piece, cards)
    ensures shown + ShownBy(out) + ShownBy(piece) == shown + ShownBy(out + piece)
  {
    hide Resolve, ShownBy;
    ResolveSplit(out, piece, cards);
    ShownBySplit(out, piece);
    assert log + Resolve(out, cards) + Resolve(piece, cards) == log + (Resolve(out, cards) + Resolve(piece, cards));
    assert shown + ShownBy(out) + ShownBy(piece) == shown + (ShownBy(out) + ShownBy(piece));
  }

  lemma NothingPut(log: seq<Emission>, shown: seq<nat>, cards: seq<Card>, d: Drained)
    ensures Fits([], |cards|) && log + Resolve([], cards) == log && shown + ShownBy([]) == shown
    ensures Ahead([], d) == d
  {
  }

  lemma {:induction false} FinalDrainEmpties(pending: string, n: nat, emitted: set<nat>)
    ensures Drain(pending, n, emitted, true).pending == ""
    decreases |pending|
  {
    hide Find, FindSpace, DropJunk, CardOf;
    var m := Find(pending, MARKER);
    if m < |pending| {
      var body := pending[m..][|MARKER|..];
      var e := Find(body, CLOSE);
      if e < |body| {
        FinalDrainEmpties(DropJunk(body[e + 2..]), n, CardOf(body[..e], n, emitted).emitted);
      } else if FindSpace(body) < |body| {
        FinalDrainEmpties(body[FindSpace(body)..], n, emitted);
      }
    }
  }

  lemma EmittedAreStaged(log: seq<Emission>, shown: seq<nat>, cards: seq<Card>)
    requires EachOnce(log, shown, cards)
    ensures forall i | i in ToSet(shown) :: i < |cards|
  {
  }

  lemma FlushParts(pending: string, n: nat, emitted: set<nat>)
    ensures var d := Drain(pending, n, emitted, true);
            FlushAll(pending, n, emitted) == d.out + Fallback(n, d.emitted)
  {
    hide Drain;
  }

  lemma FallbackCompletes(before: set<nat>, n: nat)
    requires forall i | i in before :: i < n
    ensures before + UpTo(n) == UpTo(n)
  {
  }

  lemma NoFallback(emitted: set<nat>)
    ensures Fallback(0, emitted) == [] && UpTo(0) == {}
  {
  }

  lemma LastOfFallback(index: nat, emitted: set<nat>)
    ensures Fallback(index + 1, emitted)
         == Fallback(index, emitted) + if index in emitted then [] else [Show(index)]
    ensures UpTo(index + 1) == UpTo(index) + {index}
  {
  }

  lemma CardResolves(index: nat, cards: seq<Card>)
    requires index < |cards|
    ensures Fits([Show(index)], |cards|) && Resolve([Show(index)], cards) == [Viz(cards[index])]
    ensures ShownBy([Show(index)]) == [index]
    ensures Fits([], |cards|) && Resolve([], cards) == [] && ShownBy([]) == []
  {
    assert [Show(index)][1..] == [];
  }

  lemma AheadOfEnd(out: seq<Item>, piece: seq<Item>, pending: string, emitted: set<nat>)
    ensures Ahead(out, Drained(piece, pending, emitted)) == Drained(out + piece, pending, emitted)
  {
  }

  lemma AheadTwice(a: seq<Item>, b: seq<Item>, d: Drained)
    ensures Ahead(a, Ahead(b, d)) == Ahead(a + b, d)
  {
    assert a + (b + d.out) == a + b + d.out;
  }

  class StreamingVizMarkerPlacer {
    const staged: StagedCards
    const writer: EmissionLog
    var pending: string
    var emittedIndexes: set<nat>

    /** Every card was written at most once, and the emitted indices are those of the cards written. */
    ghost predicate Valid()
      reads this, staged, writer
    {
      EachOnce(writer.log, writer.shown, staged.cards) && emittedIndexes == ToSet(writer.shown)
    }

    constructor (staged: StagedCards, writer: EmissionLog, emittedIndexes: set<nat>)
      ensures this.staged == staged && this.writer == writer
      ensures pending == "" && this.emittedIndexes == emittedIndexes
    {
      this.staged, this.writer := staged, writer;
      pending, this.emittedIndexes := "", emittedIndexes;
    }

    /** The writer has been given `out`, and the placer is left as `d` says. */
    twostate predicate Puts(d: Drained)
      requires Fits(d.out, |old(staged.cards)|)
      reads this, writer
    {
      && pending == d.pending
      && emittedIndexes == d.emitted
      && writer.log == old(writer.log) + Resolve(d.out, old(staged.cards))
      && writer.shown == old(writer.shown) + ShownBy(d.out)
    }

    method Feed(text: string)
      requires Valid()
      modifies this, writer
      ensures Valid()
      ensures if text == "" then unchanged(this) && unchanged(writer)
              else Puts(Drain(old(pending) + text, |staged.cards|, old(emittedIndexes), false))
    {
      if text == "" {
        return;
      }
      pending := pending + text;
      DrainPending(false);
    }

    method Flush(emitFallback: bool)
      requires Valid()
      modifies this, writer
      ensures Valid() && pending == ""
      ensures !emitFallback ==> Puts(Drain(old(pending), |staged.cards|, old(emittedIndexes), true))
      ensures emitFallback ==>
                && emittedIndexes == UpTo(|staged.cards|)
                && writer.log == old(writer.log)
                                 + Resolve(FlushAll(old(pending), |staged.cards|, old(emittedIndexes)), staged.cards)
    {
      hide Drain, EachOnce, Resolve, ShownBy, ShowsOnce, FlushAll, ToSet, UpTo;
      DrainPending(true);
      FinalDrainEmpties(old(pending), |staged.cards|, old(emittedIndexes));
      if emitFallback {
        ghost var d := Drain(old(pending), |staged.cards|, old(emittedIndexes), true);
        EmitFallback();
        FlushParts(old(pending), |staged.cards|, old(emittedIndexes));
        Written(old(writer.log), old(writer.shown), d.out, Fallback(|staged.cards|, d.emitted), staged.cards);
      }
    }

    method EmitUnlessEmitted(index: nat)
      requires index < |staged.cards|
      modifies this`emittedIndexes, writer
      ensures var piece := if index in old(emittedIndexes) then [] else [Show(index)];
              && Fits(piece, |staged.cards|)
              && emittedIndexes == old(emittedIndexes) + {index}
              && writer.log == old(writer.log) + Resolve(piece, staged.cards)
              && writer.shown == old(writer.shown) + ShownBy(piece)
    {
      hide Resolve, ShownBy;
      CardResolves(index, staged.cards);
      if index !in emittedIndexes {
        writer.WriteCard(index, staged.cards[index]);
        emittedIndexes := emittedIndexes + {index};
      }
    }

    /** Writes the cards that have not been written. */
    method EmitFallback()
      requires Valid()
      modifies this`emittedIndexes, writer
      ensures Valid() && emittedIndexes == UpTo(|staged.cards|)
      ensures var out := Fallback(|staged.cards|, old(emittedIndexes));
              writer.log == old(writer.log) + Resolve(out, staged.cards)
    {
      hide EachOnce, Resolve, ShownBy, ShowsOnce, Fallback, Fits, ToSet, UpTo;
      ghost var n := |staged.cards|;
      ghost var before := emittedIndexes;
      FallbackShowsTheRest(n, before);
      NoFallback(before);
      NothingPut(writer.log, writer.shown, staged.cards, Drained([], "", {}));
      EmittedAreStaged(writer.log, writer.shown, staged.cards);
      for index := 0 to |staged.cards|
        invariant n == |staged.cards|
        invariant emittedIndexes == before + UpTo(index)
        invariant Fits(Fallback(index, before), n)
        invariant writer.log == old(writer.log) + Resolve(Fallback(index, before), staged.cards)
        invariant writer.shown == old(writer.shown) + ShownBy(Fallback(index, before))
      {
        LastOfFallback(index, before);
        ghost var piece := if index in before then [] else [Show(index)];
        EmitUnlessEmitted(index);
        Written(old(writer.log), old(writer.shown), Fallback(index, before), piece, staged.cards);
      }
      EachOnceThen(old(writer.log), old(writer.shown), staged.cards, Fallback(n, before), emittedIndexes);
      FallbackCompletes(before, n);
    }

    method DrainPending(final: bool)
      requires Valid()
      modifies this, writer
      ensures Valid() && Puts(Drain(old(pending), |staged.cards|, old(emittedIndexes), final))
    {
      hide Find, Drain, DrainMarker, CardOf, FindSpace, DropJunk, EachOnce, Resolve, ShownBy, TrailingPrefixLen,
        Ahead, Spoken, Fits, ToSet, ShowsOnce;
      ghost var n := |staged.cards|;
      ghost var goal := Drain(pending, n, emittedIndexes, final);
      ghost var out: seq<Item> := [];
      NothingPut(writer.log, writer.shown, staged.cards, goal);
      while pending != ""
        invariant Fits(out, n) && n == |staged.cards|
        invariant writer.log == old(writer.log) + Resolve(out, staged.cards)
        invariant writer.shown == old(writer.shown) + ShownBy(out)
        invariant goal == Ahead(out, Drain(pending, n, emittedIndexes, final))
        decreases |pending|
      {
        var markerStart := Find(pending, MARKER);
        if markerStart == |pending| {
          var keepLen := if final then 0 else TrailingMarkerPrefixLen(pending);
          DrainWithoutMarker(pending, n, emittedIndexes, final);
          AheadOfEnd(out, Spoken(pending[..|pending| - keepLen]), pending[|pending| - keepLen..], emittedIndexes);
          EmitDelta(pending[..|pending| - keepLen]);
          Written(old(writer.log), old(writer.shown), out, Spoken(pending[..|pending| - keepLen]), staged.cards);
          out := out + Spoken(pending[..|pending| - keepLen]);
          pending := pending[|pending| - keepLen..];
          break;
        }
        if markerStart > 0 {
          DrainSplit(pending, n, emittedIndexes, final);
          AheadTwice(out, Spoken(pending[..markerStart]), Drain(pending[markerStart..], n, emittedIndexes, final));
          EmitDelta(pending[..markerStart]);
          Written(old(writer.log), old(writer.shown), out, Spoken(pending[..markerStart]), staged.cards);
          out := out + Spoken(pending[..markerStart]);
          pending := pending[markerStart..];
          continue;
        }
        DrainFromFirst(pending, n, emittedIndexes, final);
        var body := pending[|MARKER|..];
        var markerEnd := Find(body, CLOSE);
        if markerEnd == |body| {
          var whitespaceIndex := FindSpace(body);
          DrainUnclosed(pending, n, emittedIndexes, final);
          if whitespaceIndex == |body| {
            AheadOfEnd(out, [], if final then "" else pending, emittedIndexes);
            assert out + [] == out;
            if final {
              pending := "";
            }
            break;
          }
          pending := body[whitespaceIndex..];
          continue;
        }
        DrainClosedMarker(pending, n, emittedIndexes, final);
        ghost var card := CardOf(body[..markerEnd], n, emittedIndexes);
        AheadTwice(out, card.out, Drain(DropJunk(body[markerEnd + 2..]), n, card.emitted, final));
        PlaceCard(body[..markerEnd]);
        Written(old(writer.log), old(writer.shown), out, card.out, staged.cards);
        out := out + card.out;
        pending := DropJunk(body[markerEnd + 2..]);
      }
      if pending == "" {
        EmptyDrain(n, emittedIndexes, final);
        AheadOfEnd(out, [], "", emittedIndexes);
        assert out + [] == out;
      }
      assert goal == Drained(out, pending, emittedIndexes);
      DrainShowsOnce(old(pending), n, old(emittedIndexes), final);
      EachOnceThen(old(writer.log), old(writer.shown), staged.cards, out, emittedIndexes);
    }

    /** Writes a piece of text, if there is any. */
    method EmitDelta(text: string)
      modifies writer
      ensures writer.shown == old(writer.shown) + ShownBy(Spoken(text))
      ensures Fits(Spoken(text), |staged.cards|)
      ensures writer.log == old(writer.log) + Resolve(Spoken(text), staged.cards)
    {
      if text != "" {
        assert [Say(text)][1..] == [];
        writer.Write(Delta(text));
      }
    }

    /** Writes the card that a marker value names, if it names one that has not been written. */
    method PlaceCard(markerValue: string)
      modifies this`emittedIndexes, writer
      ensures var card := CardOf(markerValue, |staged.cards|, old(emittedIndexes));
              && emittedIndexes == card.emitted
              && writer.shown == old(writer.shown) + ShownBy(card.out)
              && writer.log == old(writer.log) + Resolve(card.out, staged.cards)
    {
      if IsDigits(markerValue) {
        var index := ToNumber(markerValue) - 1;
        if 0 <= index < |staged.cards| && index !in emittedIndexes {
          assert [Show(index)][1..] == [];
          writer.WriteCard(index, staged.cards[index]);
          emittedIndexes := emittedIndexes + {index};
        }
      }
    }
  }

  // ----- The final-content writer

  /** A piece of text as the writer receives it: only when there is any. */
  function Piece(text: string): seq<Emission> {
    if text == "" then [] else [Delta(text)]
  }

  /** Writing anything but a card changes nothing about the cards. */
  lemma NotACard(log: seq<Emission>, shown: seq<nat>, cards: seq<Card>, es: seq<Emission>)
    requires EachOnce(log, shown, cards) && forall e | e in es :: !e.Viz?
    ensures EachOnce(log + es, shown, cards)
  {
    VizzesSplit(log, es);
    NoVizzes(es);
  }

  lemma {:induction false} NoVizzes(es: seq<Emission>)
    requires forall e | e in es :: !e.Viz?
    ensures Vizzes(es) == []
  {
    if es != [] {
      assert es[0] in es && forall e | e in es[1..] :: e in es;
      NoVizzes(es[1..]);
    }
  }

  /** What the emission router hands to the writer. */
  datatype Chunk = Text(text: string) | Other(e: Emission)

  predicate IsChunk(c: Chunk) {
    c.Other? ==> !c.e.Delta? && !c.e.Viz?
  }

  class FinalContentPlacementWriter {
    const staged: StagedCards
    const writer: EmissionLog
    var finalStarted: bool
    var flushed: bool
    var placer: StreamingVizMarkerPlacer
    var stripper: StreamingVizMarkerStripper

    ghost predicate Valid()
      reads this, staged, writer, placer, stripper
    {
      && placer.staged == staged && placer.writer == writer
      && placer.Valid() && stripper.Valid()
    }

    constructor (staged: StagedCards, writer: EmissionLog)
      requires writer.log == [] && writer.shown == []
      ensures Valid() && this.staged == staged && this.writer == writer
      ensures !finalStarted && !flushed && placer.pending == "" && placer.emittedIndexes == {}
      ensures stripper.View() == START
      ensures fresh(placer) && fresh(stripper)
    {
      this.staged, this.writer := staged, writer;
      finalStarted, flushed := false, false;
      placer := new StreamingVizMarkerPlacer(staged, writer, {});
      stripper := new StreamingVizMarkerStripper();
    }

    method StartFinal()
      requires Valid()
      modifies this`finalStarted
      ensures Valid() && finalStarted == (old(finalStarted) || !flushed)
    {
      if finalStarted || flushed {
        return;
      }
      finalStarted := true;
    }

    /** A new goal iteration: fresh parsers, but what has been shown and what is pending are carried over. */
    method BeginIteration()
      requires Valid()
      modifies this
      ensures Valid() && fresh(placer) && fresh(stripper) && !finalStarted && !flushed
      ensures placer.pending == old(placer.pending) && placer.emittedIndexes == old(placer.emittedIndexes)
      ensures stripper.View() == START
    {
      hide EachOnce, ToSet, HoldsBack;
      HoldsBackNothing(MARKER);
      finalStarted, flushed := false, false;
      var oldPending := placer.pending;
      placer := new StreamingVizMarkerPlacer(staged, writer, placer.emittedIndexes);
      placer.pending := oldPending;
      stripper := new StreamingVizMarkerStripper();
    }

    /** A chunk from the router. Before the final answer everything passes through; its text then goes to the
        placer or the stripper, and anything else first settles the cards. */
    method Write(chunk: Chunk) returns (ghost stripped: string)
      requires Valid() && IsChunk(chunk)
      modifies this`flushed, placer, stripper, writer
      ensures Valid()
      ensures chunk.Text? ==> flushed == old(flushed)
      ensures chunk.Text? && !finalStarted ==>
                unchanged(placer) && unchanged(stripper) && writer.log == old(writer.log) + Piece(chunk.text)
      ensures chunk.Text? && finalStarted && staged.cards != [] && !flushed && chunk.text != "" ==>
                unchanged(stripper)
                && placer.Puts(Drain(old(placer.pending) + chunk.text, |staged.cards|, old(placer.emittedIndexes), false))
      ensures chunk.Text? && finalStarted && (staged.cards == [] || flushed) && chunk.text != "" ==>
                unchanged(placer)
                && Reads(old(stripper.View()), chunk.text, stripped, stripper.View())
                && writer.log == old(writer.log) + Piece(stripped)
      ensures chunk.Text? && finalStarted && chunk.text == "" ==>
                unchanged(placer) && unchanged(stripper) && unchanged(writer)
      ensures chunk.Other? && !(finalStarted && !old(flushed) && staged.cards != []) ==>
                flushed == old(flushed) && unchanged(placer) && unchanged(stripper)
                && writer.log == old(writer.log) + [chunk.e]
      ensures chunk.Other? && finalStarted && !old(flushed) && staged.cards != [] ==>
                flushed && placer.emittedIndexes == UpTo(|staged.cards|) && placer.pending == ""
                && writer.log == old(writer.log) + old(Flushed()) + [chunk.e]
    {
      hide Drain, EachOnce, FlushAll, Resolve, Reads, HoldsBack, Owes;
      stripped := "";
      if chunk.Text? {
        if finalStarted {
          stripped := WriteFinalText(chunk.text);
        } else {
          EmitDelta(chunk.text);
        }
        return;
      }
      if finalStarted && !flushed && staged.cards != [] {
        FlushFinal();
      }
      NotACard(writer.log, writer.shown, staged.cards, [chunk.e]);
      writer.Write(chunk.e);
    }

    /** What a flush of the current state writes. */
    ghost function Flushed(): seq<Emission>
      requires Valid()
      reads this, staged, writer, placer, stripper
    {
      (if flushed || staged.cards == [] then []
       else Resolve(FlushAll(placer.pending, |staged.cards|, placer.emittedIndexes), staged.cards))
      + Piece(Owes(stripper.View(), ""))
    }

    /** The fallback flush at the end of a final answer: afterwards every card staged so far has been written. */
    method FlushFinal()
      requires Valid()
      modifies this`flushed, placer, stripper, writer
      ensures Valid()
      ensures !finalStarted ==> unchanged(this) && unchanged(placer) && unchanged(stripper) && unchanged(writer)
      ensures finalStarted ==> flushed && writer.log == old(writer.log) + old(Flushed())
      ensures finalStarted && (old(flushed) || staged.cards == []) ==> unchanged(placer)
      ensures finalStarted && !old(flushed) && staged.cards != [] ==>
                placer.emittedIndexes == UpTo(|staged.cards|) && placer.pending == ""
    {
      hide EachOnce, ToSet, UpTo, HoldsBack, Drain, FlushAll, Resolve, Owes;
      if finalStarted {
        FinishOutput();
      }
    }

    method FinishOutput()
      requires Valid()
      modifies this`flushed, placer, stripper, writer
      ensures Valid() && flushed && writer.log == old(writer.log) + old(Flushed())
      ensures old(flushed) || staged.cards == [] ==> unchanged(placer)
      ensures !old(flushed) && staged.cards != [] ==>
                placer.emittedIndexes == UpTo(|staged.cards|) && placer.pending == ""
    {
      hide Drain, EachOnce, FlushAll, Resolve, HoldsBack, Owes;
      if !flushed {
        flushed := true;
        if staged.cards != [] {
          placer.Flush(true);
        }
      }
      var stripped := stripper.Flush();
      EmitDelta(stripped);
    }

    method WriteFinalText(text: string) returns (ghost stripped: string)
      requires Valid()
      modifies placer, stripper, writer
      ensures Valid()
      ensures text == "" ==> unchanged(placer) && unchanged(stripper) && unchanged(writer)
      ensures text != "" && staged.cards != [] && !flushed ==>
                unchanged(stripper)
                && placer.Puts(Drain(old(placer.pending) + text, |staged.cards|, old(placer.emittedIndexes), false))
      ensures text != "" && (staged.cards == [] || flushed) ==>
                unchanged(placer)
                && Reads(old(stripper.View()), text, stripped, stripper.View())
                && writer.log == old(writer.log) + Piece(stripped)
    {
      hide Drain, EachOnce, Resolve, Reads, HoldsBack;
      stripped := "";
      if text == "" {
        return;
      }
      if staged.cards != [] && !flushed {
        placer.Feed(text);
        return;
      }
      var clean := stripper.Feed(text);
      stripped := clean;
      EmitDelta(clean);
    }

    method EmitDelta(text: string)
      requires EachOnce(writer.log, writer.shown, staged.cards)
      modifies writer
      ensures writer.log == old(writer.log) + Piece(text) && writer.shown == old(writer.shown)
      ensures EachOnce(writer.log, writer.shown, staged.cards)
    {
      hide EachOnce;
      if text != "" {
        NotACard(writer.log, writer.shown, staged.cards, [Delta(text)]);
        writer.Write(Delta(text));
      }
    }
  }

  // ----- Whole turns

  datatype Op = Stage(card: Card) | Send(chunk: Chunk) | Begin | Flush | NextIteration

  /** The two one-way latches, and the number of cards staged. */
  datatype Latches = Latches(started: bool, flushed: bool, staged: nat)

  /** A fallback flush would write cards. */
  predicate Open(l: Latches) {
    l.started && !l.flushed && l.staged > 0
  }

  function Latch(l: Latches, op: Op): Latches {
    match op
    case Stage(_) => l.(staged := l.staged + 1)
    case Send(chunk) => if chunk.Other? && Open(l) then l.(flushed := true) else l
    case Begin => l.(started := l.started || !l.flushed)
    case Flush => l.(flushed := l.flushed || l.started)
    case NextIteration => Latches(false, false, l.staged)
  }

  function LatchAll(ops: seq<Op>): Latches {
    if ops == [] then Latches(false, false, 0)
    else Latch(LatchAll(ops[..|ops| - 1]), ops[|ops| - 1])
  }

  function Staged(ops: seq<Op>): seq<Card> {
    if ops == [] then []
    else Staged(ops[..|ops| - 1]) + if ops[|ops| - 1].Stage? then [ops[|ops| - 1].card] else []
  }

  /** The last operation writes the cards that have not been written: a flush, or a chunk that settles them. */
  predicate Settles(ops: seq<Op>) {
    ops != [] && Open(LatchAll(ops[..|ops| - 1]))
    && (ops[|ops| - 1].Flush? || (ops[|ops| - 1].Send? && ops[|ops| - 1].chunk.Other?))
  }

  lemma MoreStaged(log: seq<Emission>, shown: seq<nat>, cards: seq<Card>, card: Card)
    requires EachOnce(log, shown, cards)
    ensures EachOnce(log, shown, cards + [card])
  {
    PickFromFront(shown, cards + [card]);
    assert (cards + [card])[..|cards + [card]| - 1] == cards;
  }

  predicate AllWritten(log: seq<Emission>, cards: seq<Card>) {
    multiset(Vizzes(log)) == multiset(cards)
  }

  predicate NeverBegins(ops: seq<Op>) {
    forall op | op in ops :: !op.Begin?
  }

  /** One operation of a turn. */
  method TakeOp(final: FinalContentPlacementWriter, op: Op)
    requires final.Valid() && (op.Send? ==> IsChunk(op.chunk))
    modifies final, final.staged, final.writer, final.placer, final.stripper
    ensures final.Valid()
    ensures final.placer == old(final.placer) || fresh(final.placer)
    ensures final.stripper == old(final.stripper) || fresh(final.stripper)
    ensures final.staged.cards == old(final.staged.cards) + if op.Stage? then [op.card] else []
    ensures Latches(final.finalStarted, final.flushed, |final.staged.cards|)
         == Latch(old(Latches(final.finalStarted, final.flushed, |final.staged.cards|)), op)
    ensures old(Open(Latches(final.finalStarted, final.flushed, |final.staged.cards|)))
            && (op.Flush? || (op.Send? && op.chunk.Other?)) ==>
              final.placer.emittedIndexes == UpTo(|final.staged.cards|)
    ensures old(final.writer.log) <= final.writer.log
    ensures op.Flush? && !old(Open(Latches(final.finalStarted, final.flushed, |final.staged.cards|))) ==>
              Vizzes(final.writer.log) == Vizzes(old(final.writer.log))
    ensures !old(final.finalStarted) ==> Vizzes(final.writer.log) == Vizzes(old(final.writer.log))
  {
    hide EachOnce, Vizzes, ToSet, UpTo, HoldsBack, Drain, FlushAll, Resolve, Owes, Reads, Fits;
    match op
    case Stage(card) =>
      MoreStaged(final.writer.log, final.writer.shown, final.staged.cards, card);
      final.staged.Stage(card);
    case Send(chunk) =>
      MoreText(final.writer.log, chunk);
      var _ := final.Write(chunk);
    case Begin =>
      final.StartFinal();
    case Flush =>
      NoCardInPiece(final.writer.log, Owes(final.stripper.View(), ""));
      final.FlushFinal();
    case NextIteration =>
      final.BeginIteration();
  }

  /** Over any interleaving of staging, chunks, flushes and iterations no staged card is written twice, and when the
      last operation settles the cards, every card staged so far has been written exactly once. `before` is what had
      been written before the last operation: a flush that does not settle the cards writes none, so it leaves a card
      unwritten exactly when one was unwritten before it. In a turn that ends before its final answer starts, no card
      is written at all, however often it is flushed. */
  method RunTurn(ops: seq<Op>) returns (log: seq<Emission>, ghost before: seq<Emission>)
    requires forall op | op in ops && op.Send? :: IsChunk(op.chunk)
    ensures multiset(Vizzes(log)) <= multiset(Staged(ops))
    ensures Settles(ops) ==> AllWritten(log, Staged(ops))
    ensures before <= log
    ensures ops != [] && ops[|ops| - 1].Flush? ==>
              (AllWritten(log, Staged(ops))
               <==> Open(LatchAll(ops[..|ops| - 1])) || AllWritten(before, Staged(ops)))
    ensures NeverBegins(ops) ==> Vizzes(log) == []
  {
    hide EachOnce, LatchAll, Staged, Settles, Vizzes, ToSet, UpTo, HoldsBack, Drain, FlushAll, Resolve, Owes, Reads, Fits;
    var cards := new StagedCards();
    var writer := new EmissionLog();
    var final := new FinalContentPlacementWriter(cards, writer);
    RunStarts();
    before := [];
    for i := 0 to |ops|
      invariant final.Valid() && final.staged == cards && final.writer == writer
      invariant fresh(cards) && fresh(writer) && fresh(final) && fresh(final.placer) && fresh(final.stripper)
      invariant cards.cards == Staged(ops[..i])
      invariant LatchAll(ops[..i]) == Latches(final.finalStarted, final.flushed, |cards.cards|)
      invariant Settles(ops[..i]) ==> final.placer.emittedIndexes == UpTo(|cards.cards|)
      invariant i > 0 && ops[i - 1].Flush? && !Settles(ops[..i]) ==> Vizzes(writer.log) == Vizzes(before)
      invariant NeverBegins(ops[..i]) ==> !final.finalStarted && Vizzes(writer.log) == []
      invariant before <= writer.log
    {
      RunExtends(ops, i);
      before := writer.log;
      assert ops[i] in ops;
      TakeOp(final, ops[i]);
    }
    assert ops[..|ops|] == ops;
    log := writer.log;
    TurnShows(log, writer.shown, cards.cards);
    if ops != [] && ops[|ops| - 1].Flush? {
      LastFlushSettles(ops);
    }
  }

  /** Text shows no card. */
  lemma NoCardInPiece(log: seq<Emission>, text: string)
    ensures [] + Piece(text) == Piece(text) && Vizzes(log + Piece(text)) == Vizzes(log)
  {
    VizzesSplit(log, Piece(text));
    NoVizzes(Piece(text));
  }

  lemma MoreText(log: seq<Emission>, chunk: Chunk)
    requires IsChunk(chunk)
    ensures chunk.Text? ==> Vizzes(log + Piece(chunk.text)) == Vizzes(log)
    ensures chunk.Other? ==> Vizzes(log + [chunk.e]) == Vizzes(log)
  {
    hide Vizzes;
    if chunk.Text? {
      NoCardInPiece(log, chunk.text);
    } else {
      VizzesSplit(log, [chunk.e]);
      NoVizzes([chunk.e]);
    }
  }

  lemma LastFlushSettles(ops: seq<Op>)
    requires ops != [] && ops[|ops| - 1].Flush?
    ensures Settles(ops) <==> Open(LatchAll(ops[..|ops| - 1]))
  {
  }

  /** The final answer has started exactly when it was started since the last iteration began; only then can a flush
      settle the cards. */
  lemma {:induction false} StartedIff(ops: seq<Op>)
    ensures LatchAll(ops).started <==>
            exists i :: 0 <= i < |ops| && ops[i].Begin? && forall j | i < j < |ops| :: !ops[j].NextIteration?
    ensures LatchAll(ops).flushed ==> LatchAll(ops).started
  {
    if ops != [] {
      var init, last := ops[..|ops| - 1], ops[|ops| - 1];
      StartedIff(init);
      assert LatchAll(ops) == Latch(LatchAll(init), last);
      if LatchAll(init).started {
        var i :| 0 <= i < |init| && init[i].Begin? && forall j | i < j < |init| :: !init[j].NextIteration?;
        assert ops[i].Begin? && forall j | i < j < |init| :: ops[j] == init[j];
      }
      if i :| 0 <= i < |ops| && ops[i].Begin? && forall j | i < j < |ops| :: !ops[j].NextIteration? {
        assert i < |init| ==> init[i].Begin? && forall j | i < j < |init| :: init[j] == ops[j];
      }
    }
  }

  /** A flush, or a chunk other than text behind a staged card. */
  predicate SettlesBehind(ops: seq<Op>, j: nat)
    requires j < |ops|
  {
    ops[j].Flush? || (ops[j].Send? && ops[j].chunk.Other? && HasStaged(ops[..j]))
  }

  predicate HasStaged(ops: seq<Op>) {
    exists k :: 0 <= k < |ops| && ops[k].Stage?
  }

  lemma {:induction false} StagedIff(ops: seq<Op>)
    ensures LatchAll(ops).staged > 0 <==> HasStaged(ops)
  {
    if ops != [] {
      var init := ops[..|ops| - 1];
      StagedIff(init);
      assert LatchAll(ops) == Latch(LatchAll(init), ops[|ops| - 1]);
      assert forall k | 0 <= k < |init| :: init[k] == ops[k];
      if k :| 0 <= k < |ops| && ops[k].Stage? {
        assert k < |init| ==> init[k].Stage?;
      }
      if k :| 0 <= k < |init| && init[k].Stage? {
        assert ops[k].Stage?;
      }
    }
  }

  /** The final answer was started by `i` and settled by `j`, and no iteration has begun since. */
  predicate SettledBy(ops: seq<Op>, i: nat, j: nat) {
    && i < j < |ops| && ops[i].Begin? && SettlesBehind(ops, j)
    && forall k | i < k < |ops| :: !ops[k].NextIteration?
  }

  lemma SettledBefore(ops: seq<Op>, i: nat, j: nat)
    requires ops != [] && j < |ops| - 1
    ensures var init := ops[..|ops| - 1];
            SettledBy(ops, i, j) <==> SettledBy(init, i, j) && !ops[|ops| - 1].NextIteration?
  {
    var init := ops[..|ops| - 1];
    assert init[..j] == ops[..j];
  }

  /** The cards have been settled in this iteration exactly if, behind the start of the final answer, there was a flush, or
      a chunk other than text when a card had been staged. */
  lemma {:induction false} FlushedIff(ops: seq<Op>)
    ensures LatchAll(ops).flushed <==> exists i: nat, j: nat :: SettledBy(ops, i, j)
  {
    if ops != [] {
      var n := |ops| - 1;
      var init, last := ops[..n], ops[n];
      FlushedIff(init);
      StartedIff(init);
      StagedIff(init);
      assert LatchAll(ops) == Latch(LatchAll(init), last);
      hide LatchAll, HasStaged;
      if i: nat, j: nat :| SettledBy(init, i, j) {
        SettledBefore(ops, i, j);
      }
      if LatchAll(init).started && SettlesBehind(ops, n) {
        var i :| 0 <= i < |init| && init[i].Begin? && forall k | i < k < |init| :: !init[k].NextIteration?;
        assert SettledBy(ops, i, n);
      }
      if i: nat, j: nat :| SettledBy(ops, i, j) {
        if j < n {
          SettledBefore(ops, i, j);
        } else {
          assert init[i].Begin? && forall k | i < k < |init| :: !init[k].NextIteration?;
        }
      }
    }
  }

  lemma RunStarts()
    ensures LatchAll([]) == Latches(false, false, 0) && Staged([]) == [] && !Settles([]) && Vizzes([]) == []
  {
  }

  lemma RunExtends(ops: seq<Op>, i: nat)
    requires i < |ops|
    ensures LatchAll(ops[..i + 1]) == Latch(LatchAll(ops[..i]), ops[i])
    ensures NeverBegins(ops[..i + 1]) <==> NeverBegins(ops[..i]) && !ops[i].Begin?
    ensures Staged(ops[..i + 1]) == Staged(ops[..i]) + if ops[i].Stage? then [ops[i].card] else []
    ensures Settles(ops[..i + 1]) <==> Open(LatchAll(ops[..i])) && (ops[i].Flush? || (ops[i].Send? && ops[i].chunk.Other?))
  {
    assert ops[..i + 1][..i] == ops[..i];
    assert ops[..i + 1] == ops[..i] + [ops[i]];
  }

  lemma TurnShows(log: seq<Emission>, shown: seq<nat>, cards: seq<Card>)
    requires EachOnce(log, shown, cards)
    ensures multiset(Vizzes(log)) <= multiset(cards)
    ensures ToSet(shown) == UpTo(|cards|) ==> multiset(Vizzes(log)) == multiset(cards)
  {
    PicksAtMostAll(shown, cards);
    if ToSet(shown) == UpTo(|cards|) {
      AllShownIsPermutation(log, shown, cards);
    }
  }
}
