/** The ordered stream of what a turn shows (app/records.py), and runs of answer text merged in it. */
module Emissions {

  /** A staged card. `signature` stands for the canonical signature of its payload. */
  datatype Card = Card(signature: string, payload: string)

  datatype StepStatus = Start | End | Error

  datatype StepData = StepData(stepId: string, status: StepStatus, tool: string)

  datatype Emission =
    | Delta(text: string)
    | Viz(spec: Card)
    | Step(data: StepData)
    | Thinking(text: string)
    | Narration(text: string)
    | User(text: string, userMessageId: string, injected: bool)
    | Clarify

  /** `e` in front of an already merged stream: empty text vanishes, text joins the text that follows it. */
  function Push(e: Emission, merged: seq<Emission>): seq<Emission> {
    if e == Delta("") then merged
    else if e.Delta? && merged != [] && merged[0].Delta? then [Delta(e.text + merged[0].text)] + merged[1..]
    else [e] + merged
  }

  /** The stream with every run of adjacent text in one piece and without empty text. */
  function Merged(es: seq<Emission>): (r: seq<Emission>)
    ensures IsMerged(r)
  {
    if es == [] then [] else Push(es[0], Merged(es[1..]))
  }

  /** No empty and no adjacent pieces of text. */
  predicate IsMerged(es: seq<Emission>) {
    && (forall i | 0 <= i < |es| :: es[i] != Delta(""))
    && (forall i | 0 <= i < |es| - 1 :: !(es[i].Delta? && es[i + 1].Delta?))
  }

  /** All answer text of the stream. */
  function Prose(es: seq<Emission>): string {
    if es == [] then "" else (if es[0].Delta? then es[0].text else "") + Prose(es[1..])
  }

  lemma {:induction false} MergedOfMerged(es: seq<Emission>)
    requires IsMerged(es)
    ensures Merged(es) == es
  {
    if es != [] {
      assert es == [es[0]] + es[1..];
      assert forall i | 0 <= i < |es[1..]| :: es[1..][i] == es[i + 1];
      MergedOfMerged(es[1..]);
    }
  }

  /** Streams that merge alike still do behind a common beginning. */
  lemma {:induction false} MergedBehind(a: seq<Emission>, b: seq<Emission>, c: seq<Emission>)
    requires Merged(b) == Merged(c)
    ensures Merged(a + b) == Merged(a + c)
  {
    if a == [] {
      assert a + b == b && a + c == c;
    } else {
      assert (a + b)[1..] == a[1..] + b && (a + c)[1..] == a[1..] + c;
      MergedBehind(a[1..], b, c);
    }
  }

  /** Joining two neighbouring pieces of text changes nothing. */
  lemma MergedJoin(a: string, b: string, rest: seq<Emission>)
    ensures Merged([Delta(a + b)] + rest) == Merged([Delta(a), Delta(b)] + rest)
  {
    assert ([Delta(a + b)] + rest)[1..] == rest;
    assert ([Delta(a), Delta(b)] + rest)[1..] == [Delta(b)] + rest;
    assert ([Delta(b)] + rest)[1..] == rest;
    var m := Merged(rest);
    if a == "" {
      assert a + b == b;
    } else if b == "" {
      assert a + b == a;
    } else if m != [] && m[0].Delta? {
      assert a + b + m[0].text == a + (b + m[0].text);
      assert ([Delta(b + m[0].text)] + m[1..])[1..] == m[1..];
    } else {
      assert ([Delta(b)] + m)[1..] == m;
    }
  }

  lemma MergedEmpty(rest: seq<Emission>)
    ensures Merged([Delta("")] + rest) == Merged(rest)
  {
    assert ([Delta("")] + rest)[1..] == rest;
  }

  lemma {:induction false} ProseSplit(a: seq<Emission>, b: seq<Emission>)
    ensures Prose(a + b) == Prose(a) + Prose(b)
  {
    if a == [] {
      assert a + b == b;
    } else {
      assert (a + b)[1..] == a[1..] + b;
      ProseSplit(a[1..], b);
    }
  }

  /** Merging keeps the text. */
  lemma {:induction false} MergedProse(es: seq<Emission>)
    ensures Prose(Merged(es)) == Prose(es)
  {
    if es != [] {
      MergedProse(es[1..]);
      PushedProse(es[0], Merged(es[1..]));
    }
  }

  lemma PushedProse(e: Emission, m: seq<Emission>)
    ensures Prose(Push(e, m)) == (if e.Delta? then e.text else "") + Prose(m)
  {
    if e.Delta? && e.text != "" && m != [] && m[0].Delta? {
      assert ([Delta(e.text + m[0].text)] + m[1..])[1..] == m[1..];
      assert e.text + m[0].text + Prose(m[1..]) == e.text + (m[0].text + Prose(m[1..]));
    } else if e != Delta("") {
      assert ([e] + m)[1..] == m;
    }
  }

  /** Merging a beginning first changes nothing. */
  lemma {:induction false} MergedFirst(a: seq<Emission>, c: seq<Emission>)
    ensures Merged(Merged(a) + c) == Merged(a + c)
  {
    if a != [] {
      var m := Merged(a[1..]);
      MergedFirst(a[1..], c);
      assert (a + c)[1..] == a[1..] + c;
      assert ([a[0]] + (m + c))[1..] == m + c;
      assert Merged(a + c) == Merged([a[0]] + (m + c));
      PushedThen(a[0], m, c);
    }
  }

  lemma PushedThen(e: Emission, m: seq<Emission>, c: seq<Emission>)
    ensures Merged(Push(e, m) + c) == Merged([e] + (m + c))
  {
    hide Merged;
    if e == Delta("") {
      MergedEmpty(m + c);
    } else if e.Delta? && m != [] && m[0].Delta? {
      var rest := m[1..] + c;
      MergedJoin(e.text, m[0].text, rest);
      assert Push(e, m) + c == [Delta(e.text + m[0].text)] + rest;
      assert [e] + (m + c) == [Delta(e.text), Delta(m[0].text)] + rest;
    } else {
      assert Push(e, m) + c == [e] + (m + c);
    }
  }

  /** Streams that merge alike still do in front of a common end. */
  lemma MergedThen(a: seq<Emission>, b: seq<Emission>, c: seq<Emission>)
    requires Merged(a) == Merged(b)
    ensures Merged(a + c) == Merged(b + c)
  {
    hide Merged;
    MergedFirst(a, c);
    MergedFirst(b, c);
  }
}
