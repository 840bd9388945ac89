/** Characters, searching and the marker alphabet shared by the streaming and the batch placement code. */
module Text {

  /** The opening of a card marker. */
  const MARKER: string := "[[viz:"

  /** The closing of a card marker. */
  const CLOSE: string := "]]"

  /** The characters for which Python's `str.isspace` (and the regular expression class `\s`) holds. */
  predicate IsSpace(c: char) {
    || '\t' <= c <= '\r' || '\U{1C}' <= c <= ' ' || c == '\U{85}' || c == '\U{A0}' || c == '\U{1680}'
    || '\U{2000}' <= c <= '\U{200A}' || c == '\U{2028}' || c == '\U{2029}' || c == '\U{202F}'
    || c == '\U{205F}' || c == '\U{3000}'
  }

  lemma BracketsAreNotSpace()
    ensures !IsSpace('[') && !IsSpace(']')
  {
  }

  /** Whether `p` occurs in `t` at position `i`. */
  predicate At(t: string, p: string, i: nat) {
    i + |p| <= |t| && t[i..i + |p|] == p
  }

  /** `str.find`: the leftmost occurrence of a nonempty `p`, or `|t|` when there is none. */
  function Find(t: string, p: string): (i: nat)
    requires p != ""
    ensures i <= |t|
    ensures i < |t| ==> At(t, p, i)
    ensures forall j: nat | At(t, p, j) :: i <= j
  {
    if t == "" then 0
    else if p <= t then assert At(t, p, 0); 0
    else
      var k := Find(t[1..], p);
      assert !At(t, p, 0);
      assert forall j: nat | At(t, p, j) :: j > 0 && At(t[1..], p, j - 1) by {
        forall j: nat | At(t, p, j)
          ensures j > 0 && At(t[1..], p, j - 1)
        {
          AtTail(t, p, if j > 0 then j - 1 else 0);
        }
      }
      AtTail(t, p, k);
      k + 1
  }

  lemma AtTail(t: string, p: string, k: nat)
    requires t != ""
    ensures At(t[1..], p, k) <==> At(t, p, k + 1)
  {
    if k + 1 + |p| <= |t| {
      assert t[1..][k..k + |p|] == t[k + 1..k + 1 + |p|];
    }
  }

  lemma NeverFound(t: string, p: string)
    requires p != "" && Find(t, p) == |t|
    ensures forall j: nat :: !At(t, p, j)
  {
    hide Find;
  }

  /** What was found in a text is found at the same place when more text follows. */
  lemma FindInLonger(t: string, rest: string, p: string)
    requires p != "" && Find(t, p) < |t|
    ensures Find(t + rest, p) == Find(t, p)
  {
    hide Find;
    var i := Find(t, p);
    var k := Find(t + rest, p);
    assert (t + rest)[i..i + |p|] == t[i..i + |p|];
    assert At(t + rest, p, i);
    assert (t + rest)[k..k + |p|] == t[k..k + |p|];
    assert At(t, p, k);
  }

  /** The position of the first whitespace character, or `|t|` when there is none. */
  function FindSpace(t: string): (i: nat)
    ensures i <= |t|
    ensures i < |t| ==> IsSpace(t[i])
    ensures forall j | 0 <= j < i :: !IsSpace(t[j])
  {
    if t == "" then 0 else if IsSpace(t[0]) then 0 else 1 + FindSpace(t[1..])
  }

  /** `t` without its leading run of closing brackets. */
  function DropJunk(t: string): (r: string)
    ensures |r| <= |t|
  {
    if t != "" && t[0] == ']' then DropJunk(t[1..]) else t
  }

  /** Exactly the leading closing brackets go. */
  lemma {:induction false} DropJunkMeans(t: string)
    ensures var r := DropJunk(t);
            && r == t[|t| - |r|..]
            && (r == "" || r[0] != ']')
            && forall j | 0 <= j < |t| - |r| :: t[j] == ']'
  {
    if t != "" && t[0] == ']' {
      DropJunkMeans(t[1..]);
    }
  }

  // ----- Decimal numbers

  predicate AllDigits(s: string) {
    forall i | 0 <= i < |s| :: '0' <= s[i] <= '9'
  }

  /** `str.isdigit`, over the ASCII digits. */
  predicate IsDigits(s: string) {
    s != "" && AllDigits(s)
  }

  function ToNumber(s: string): nat
    requires AllDigits(s)
  {
    if s == "" then 0 else 10 * ToNumber(s[..|s| - 1]) + (s[|s| - 1] as int - '0' as int)
  }

  /** The decimal digits of a number. */
  function ToDigits(n: nat): (s: string)
    ensures IsDigits(s) && ToNumber(s) == n
  {
    var last := ('0' as int + n % 10) as char;
    if n < 10 then
      assert [last][..0] == "";
      [last]
    else
      var init := ToDigits(n / 10);
      assert (init + [last])[..|init|] == init;
      init + [last]
  }

  // ----- Trimming

  /** `str.strip`: the text without the whitespace at its two ends. */
  function Trim(t: string): (r: string)
    ensures r == "" || (!IsSpace(r[0]) && !IsSpace(r[|r| - 1]))
    decreases |t|
  {
    if t == "" then ""
    else if IsSpace(t[0]) then Trim(t[1..])
    else if IsSpace(t[|t| - 1]) then Trim(t[..|t| - 1])
    else t
  }

  predicate AllSpace(t: string) {
    forall i | 0 <= i < |t| :: IsSpace(t[i])
  }

  /** `r` is the text from its first to its last character that is no whitespace. */
  predicate Between(t: string, r: string, i: nat, j: nat) {
    && i <= j <= |t| && r == t[i..j] && AllSpace(t[..i]) && AllSpace(t[j..])
    && (i < j ==> !IsSpace(t[i]) && !IsSpace(t[j - 1]))
    && (i == j ==> AllSpace(t))
  }

  lemma SpaceInFront(c: char, u: string, r: string, i: nat, j: nat)
    requires IsSpace(c) && Between(u, r, i, j)
    ensures Between([c] + u, r, i + 1, j + 1)
  {
    hide IsSpace;
    var t := [c] + u;
    assert t[..i + 1] == [c] + u[..i] && t[i + 1..j + 1] == u[i..j] && t[j + 1..] == u[j..];
  }

  lemma SpaceAtEnd(u: string, c: char, r: string, i: nat, j: nat)
    requires IsSpace(c) && Between(u, r, i, j)
    ensures Between(u + [c], r, i, j)
  {
    hide IsSpace;
    var t := u + [c];
    assert t[..i] == u[..i] && t[i..j] == u[i..j] && t[j..] == u[j..] + [c];
  }

  /** What is trimmed is whitespace at the two ends, and all of it. */
  lemma {:induction false} TrimMeans(t: string) returns (i: nat, j: nat)
    ensures Between(t, Trim(t), i, j)
    decreases |t|
  {
    hide IsSpace, Between, AllSpace;
    if t == "" {
      i, j := 0, 0;
      NothingBetween();
    } else if IsSpace(t[0]) {
      i, j := TrimMeans(t[1..]);
      assert t == [t[0]] + t[1..];
      SpaceInFront(t[0], t[1..], Trim(t), i, j);
      i, j := i + 1, j + 1;
    } else if IsSpace(t[|t| - 1]) {
      i, j := TrimMeans(t[..|t| - 1]);
      assert t == t[..|t| - 1] + [t[|t| - 1]];
      SpaceAtEnd(t[..|t| - 1], t[|t| - 1], Trim(t), i, j);
    } else {
      i, j := 0, |t|;
      AllBetween(t);
    }
  }

  lemma NothingBetween()
    ensures Between("", "", 0, 0)
  {
  }

  lemma AllBetween(t: string)
    requires t != "" && !IsSpace(t[0]) && !IsSpace(t[|t| - 1])
    ensures Between(t, t, 0, |t|)
  {
    hide IsSpace;
    assert t[0..|t|] == t && t[..0] == "" && t[|t|..] == "";
  }

  /** The concatenation of a list of chunks. */
  function Concat(chunks: seq<string>): string {
    if chunks == [] then "" else chunks[0] + Concat(chunks[1..])
  }

  lemma {:induction false} ConcatSplit(a: seq<string>, b: seq<string>)
    ensures Concat(a + b) == Concat(a) + Concat(b)
  {
    if a == [] {
      assert a + b == b;
    } else {
      assert (a + b)[1..] == a[1..] + b;
      ConcatSplit(a[1..], b);
    }
  }

  lemma ConcatOne(text: string)
    ensures Concat([text]) == text
  {
    assert [text][1..] == [];
  }

  lemma ConcatTwo(a: string, b: string)
    ensures Concat([a, b]) == a + b
  {
    assert [a, b][1..] == [b];
    ConcatOne(b);
  }

  // ----- Beginnings of a pattern at the end of a text

  /** The length of the longest proper prefix of the marker opening that ends `t`. */
  function TrailingMarkerPrefixLen(t: string): nat {
    TrailingPrefixLen(t, MARKER)
  }

  /** The length of the longest proper prefix of `m` that ends `t`. */
  function TrailingPrefixLen(t: string, m: string): (k: nat)
    requires m != ""
    ensures k <= |t| && k < |m| && t[|t| - k..] == m[..k]
    ensures forall j {:trigger m[..j]} | k < j <= |t| && j < |m| :: t[|t| - j..] != m[..j]
  {
    LongestUpTo(t, m, if |t| < |m| - 1 then |t| else |m| - 1)
  }

  function LongestUpTo(t: string, m: string, n: nat): (k: nat)
    requires n <= |t| && n < |m|
    ensures k <= n && t[|t| - k..] == m[..k]
    ensures forall j {:trigger m[..j]} | k < j <= n :: t[|t| - j..] != m[..j]
  {
    if n == 0 || t[|t| - n..] == m[..n] then n else LongestUpTo(t, m, n - 1)
  }

  /** The longest trailing beginning of a pattern is where its two defining conditions say it is. */
  lemma TrailingIs(t: string, m: string, k: nat)
    requires k <= |t| && k < |m| && t[|t| - k..] == m[..k]
    requires forall j {:trigger m[..j]} | k < j <= |t| && j < |m| :: t[|t| - j..] != m[..j]
    ensures TrailingPrefixLen(t, m) == k
  {
    var n := TrailingPrefixLen(t, m);
    assert m[..n] == t[|t| - n..];
  }

  /** The held-back text is the longest suffix of `scanned` that is a proper prefix of `m`, and `m` itself
      does not occur in `scanned`. */
  ghost predicate HoldsBack(prefix: string, scanned: string, m: string)
    requires m != ""
  {
    && (forall j: nat :: !At(scanned, m, j))
    && prefix == scanned[|scanned| - TrailingPrefixLen(scanned, m)..]
  }

  lemma HoldsBackPrefix(prefix: string, scanned: string, m: string)
    requires m != "" && HoldsBack(prefix, scanned, m)
    ensures |prefix| < |m| && prefix == m[..|prefix|]
  {
  }

  /** An occurrence of `m` that ends at the last character starts with the held-back text. */
  lemma NoOccurrenceEndsHere(scanned: string, prefix: string, c: char, m: string)
    requires m != "" && HoldsBack(prefix, scanned, m) && prefix + [c] != m
    ensures forall j: nat :: !At(scanned + [c], m, j)
  {
    var s := scanned + [c];
    forall j: nat | j + |m| <= |s|
      ensures !At(s, m, j)
    {
      if j + |m| <= |scanned| {
        assert s[j..j + |m|] == scanned[j..j + |m|];
        assert !At(scanned, m, j);
      } else {
        var n := |m| - 1;
        assert s[j..j + |m|] == scanned[j..] + [c];
        assert scanned[|scanned| - n..] == scanned[j..];
        assert (scanned[j..] + [c])[..n] == scanned[j..];
      }
    }
  }

  /** The suffixes of the held-back text with one more character are suffixes of the whole text. */
  lemma SameSuffix(scanned: string, prefix: string, c: char, j: nat)
    requires |prefix| <= |scanned| && prefix == scanned[|scanned| - |prefix|..]
    requires j <= |prefix| + 1
    ensures (prefix + [c])[|prefix| + 1 - j..] == (scanned + [c])[|scanned| + 1 - j..]
  {
  }

  /** What ends the text with one more character is no longer than the held-back text with that character. */
  lemma TrailingGrowsByOne(scanned: string, c: char, m: string)
    requires m != ""
    ensures TrailingPrefixLen(scanned + [c], m) <= TrailingPrefixLen(scanned, m) + 1
  {
    hide TrailingPrefixLen;
    var s := scanned + [c];
    var k := TrailingPrefixLen(s, m);
    if k > 0 {
      assert scanned[|scanned| - (k - 1)..] == s[|s| - k..][..k - 1];
      assert m[..k][..k - 1] == m[..k - 1];
    }
  }

  /** What ends the text with one more character ends the held-back text with that character. */
  lemma TrailingNext(scanned: string, prefix: string, c: char, m: string)
    requires m != "" && prefix == scanned[|scanned| - TrailingPrefixLen(scanned, m)..]
    ensures TrailingPrefixLen(scanned + [c], m) == TrailingPrefixLen(prefix + [c], m)
  {
    hide TrailingPrefixLen;
    TrailingGrowsByOne(scanned, c, m);
    var k := TrailingPrefixLen(scanned + [c], m);
    SameSuffix(scanned, prefix, c, k);
    forall j {:trigger m[..j]} | k < j <= |prefix| + 1 && j < |m|
      ensures (prefix + [c])[|prefix| + 1 - j..] != m[..j]
    {
      SameSuffix(scanned, prefix, c, j);
    }
    TrailingIs(prefix + [c], m, k);
  }

  /** Only the held-back suffix decides what the next character does to it. */
  lemma HoldsBackNext(scanned: string, prefix: string, c: char, m: string)
    requires m != "" && HoldsBack(prefix, scanned, m)
    requires prefix + [c] != m
    ensures var flush := prefix + [c];
            HoldsBack(flush[|flush| - TrailingPrefixLen(flush, m)..], scanned + [c], m)
  {
    NoOccurrenceEndsHere(scanned, prefix, c, m);
    hide At, TrailingPrefixLen;
    TrailingNext(scanned, prefix, c, m);
    SameSuffix(scanned, prefix, c, TrailingPrefixLen(prefix + [c], m));
  }

  lemma HoldsBackNothing(m: string)
    requires m != ""
    ensures HoldsBack("", "", m)
  {
  }

  /** A character that does not start `m` is not held back. */
  lemma HoldsBackNone(c: char, m: string)
    requires |m| > 1 && m[0] != c
    ensures TrailingPrefixLen([c], m) == 0 && HoldsBack("", [c], m)
  {
    assert [c][0..] == [c] && m[..1] == [m[0]];
    TrailingIs([c], m, 0);
    ShortTextHoldsNone([c], m);
    assert [c][1..] == "";
  }

  lemma HoldsBackNoSpace(c: char)
    requires IsSpace(c)
    ensures HoldsBack("", [c], MARKER)
  {
    BracketsAreNotSpace();
    HoldsBackNone(c, MARKER);
  }

  lemma ProperPrefixTrails(t: string, m: string)
    requires |t| < |m| && t <= m
    ensures TrailingPrefixLen(t, m) == |t| && t[|t| - |t|..] == t
  {
    assert t[0..] == t;
    TrailingIs(t, m, |t|);
  }

  /** What is left to scan still could begin with `m`: it does, or it is a beginning of `m`. */
  predicate MayBegin(t: string, m: string) {
    t != "" && (m <= t || t <= m)
  }

  lemma LongTextBegins(t: string, m: string)
    requires m != "" && |t| >= |m| && t[..|m|] != m
    ensures !MayBegin(t, m)
  {
    assert |t| == |m| ==> t == t[..|m|];
  }

  /** Nothing begins in front of the leftmost occurrence. */
  lemma NoneBeginsBeforeFirst(t: string, m: string, i: nat)
    requires m != "" && i < Find(t, m) < |t|
    ensures !MayBegin(t[i..], m)
  {
    hide Find;
    assert t[i..][..|m|] == t[i..i + |m|];
    assert !At(t, m, i);
    LongTextBegins(t[i..], m);
  }

  /** Once the longest trailing beginning of `m` is held back, nothing before it can open an occurrence. */
  lemma NoneBegins(t: string, rest: string, i: nat, m: string)
    requires m != "" && forall j: nat :: !At(t, m, j)
    requires i < |t| - TrailingPrefixLen(t, m)
    ensures !MayBegin(t[i..] + rest, m)
  {
    var u := t[i..];
    assert t[|t| - |u|..] == u;
    assert |u| < |m| ==> u != m[..|u|];
    assert |u| >= |m| ==> u[..|m|] != m by {
      assert |u| >= |m| ==> u[..|m|] == t[i..i + |m|];
      assert !At(t, m, i);
    }
    assert |u| < |m| ==> (u + rest)[..|u|] == u;
    assert |u| >= |m| ==> (u + rest)[..|m|] == u[..|m|];
  }

  /** Text no longer than `m` holds an occurrence only by being one. */
  lemma ShortTextHoldsNone(t: string, m: string)
    requires m != "" && |t| <= |m| && t != m
    ensures forall j: nat :: !At(t, m, j)
  {
    assert t[0..|t|] == t;
  }
}
