/**
 * String and sequence helpers that stand in for the JavaScript built-ins the
 * plugin calls: `String.prototype.trim` and `Array.prototype.indexOf`.
 * Strings are sequences of Unicode scalar values.
 */
module Text {
  import opened Wrappers

  /**
   * The code points `String.prototype.trim` strips: the ECMAScript WhiteSpace
   * code points (tab, vertical tab, form feed, the byte-order mark and every
   * Unicode space separator) and the LineTerminator code points.
   */
  predicate IsWhitespace(c: char) {
    || c == '\t' || c == '\n' || c == '\U{000B}' || c == '\U{000C}' || c == '\r'
    || c == ' ' || c == '\U{00A0}' || c == '\U{1680}'
    || ('\U{2000}' <= c <= '\U{200A}')
    || c == '\U{2028}' || c == '\U{2029}' || c == '\U{202F}' || c == '\U{205F}'
    || c == '\U{3000}' || c == '\U{FEFF}'
  }

  /** Every character of `s` is whitespace (vacuously so for ""). */
  predicate Blank(s: string) {
    forall i :: 0 <= i < |s| ==> IsWhitespace(s[i])
  }

  /** Length of the longest whitespace prefix of `s`. */
  function LeadingBlanks(s: string): (k: nat)
    ensures k <= |s|
    ensures Blank(s[..k])
    ensures k < |s| ==> !IsWhitespace(s[k])
  {
    if |s| > 0 && IsWhitespace(s[0]) then
      var k' := LeadingBlanks(s[1..]);
      assert forall i | 0 <= i < k' :: s[..1 + k'][i + 1] == s[1..][..k'][i];
      1 + k'
    else
      0
  }

  /** Length of the longest whitespace suffix of `s`. */
  function TrailingBlanks(s: string): (k: nat)
    ensures k <= |s|
    ensures Blank(s[|s| - k..])
    ensures k < |s| ==> !IsWhitespace(s[|s| - 1 - k])
  {
    if |s| > 0 && IsWhitespace(s[|s| - 1]) then
      var init := s[..|s| - 1];
      var k' := TrailingBlanks(init);
      assert s[|s| - 1 - k'..] == init[|init| - k'..] + [s[|s| - 1]];
      1 + k'
    else
      0
  }

  /**
   * The bounds `(i, j)` of the trimmed part of `s`: everything before `i` and
   * from `j` on is whitespace, and a non-empty trimmed part starts and ends
   * with a non-whitespace character.
   */
  function TrimBounds(s: string): (b: (nat, nat))
    ensures b.0 <= b.1 <= |s|
    ensures Blank(s[..b.0]) && Blank(s[b.1..])
    ensures b.0 < b.1 ==> !IsWhitespace(s[b.0]) && !IsWhitespace(s[b.1 - 1])
  {
    var i := LeadingBlanks(s);
    if i == |s| then
      (i, i)
    else
      var j := |s| - TrailingBlanks(s);
      (i, j)
  }

  /** JavaScript's `s.trim()`. */
  function Trim(s: string): (r: string)
    ensures |r| <= |s|
    ensures r == [] <==> Blank(s)
    ensures r != [] ==> !IsWhitespace(r[0]) && !IsWhitespace(r[|r| - 1])
  {
    var b := TrimBounds(s);
    assert b.0 == b.1 ==> s == s[..b.0] + s[b.1..];
    s[b.0..b.1]
  }

  /**
   * `Trim` is characterised by its bounds: cutting `s` at any `i <= j` whose
   * outer parts are whitespace and whose middle is empty or starts and ends
   * with a non-whitespace character gives exactly `Trim(s)`.
   */
  lemma TrimUnique(s: string, i: nat, j: nat)
    requires i <= j <= |s|
    requires Blank(s[..i]) && Blank(s[j..])
    requires i < j ==> !IsWhitespace(s[i]) && !IsWhitespace(s[j - 1])
    ensures Trim(s) == s[i..j]
  {
  }

  /** Trimming twice is trimming once. */
  lemma TrimIdempotent(s: string)
    ensures Trim(Trim(s)) == Trim(s)
  {
  }

  /** JavaScript's `xs.indexOf(x)`: the first position holding `x`, `None` for -1. */
  function IndexOf(xs: seq<string>, x: string): (r: Option<nat>)
    ensures r.None? <==> x !in xs
    ensures r.Some? ==> r.value < |xs| && xs[r.value] == x && x !in xs[..r.value]
  {
    if |xs| == 0 then None
    else if xs[0] == x then Some(0)
    else
      match IndexOf(xs[1..], x)
      case None => None
      case Some(i) =>
        assert xs[..i + 1] == [xs[0]] + xs[1..][..i];
        Some(i + 1)
  }

  /** `xs` with the element at position `i` removed (`Array.prototype.splice(i, 1)`). */
  function RemoveAt<T>(xs: seq<T>, i: nat): (r: seq<T>)
    requires i < |xs|
    ensures |r| == |xs| - 1
    ensures forall k :: 0 <= k < i ==> r[k] == xs[k]
    ensures forall k :: i <= k < |r| ==> r[k] == xs[k + 1]
  {
    xs[..i] + xs[i + 1..]
  }

  /** Removing position `i` takes exactly one copy of `xs[i]` out of the multiset of elements. */
  lemma RemoveAtMultiset<T>(xs: seq<T>, i: nat)
    requires i < |xs|
    ensures multiset(RemoveAt(xs, i)) == multiset(xs) - multiset{xs[i]}
  {
    assert xs == xs[..i] + [xs[i]] + xs[i + 1..];
  }

  /** When `x` occurs once in `xs`, at position `i`, `indexOf` finds exactly that position. */
  lemma IndexOfSingle(xs: seq<string>, x: string, i: nat)
    requires i < |xs| && xs[i] == x
    requires multiset(xs)[x] == 1
    ensures IndexOf(xs, x) == Some(i)
  {
    var k := IndexOf(xs, x).value;
    if k != i {
      TwoCopies(xs, k, i);
    }
  }

  /** Two positions holding the same element give it multiplicity at least two. */
  lemma TwoCopies<T>(xs: seq<T>, a: nat, b: nat)
    requires a < b < |xs| && xs[a] == xs[b]
    ensures multiset(xs)[xs[a]] >= 2
  {
    assert xs == xs[..a + 1] + xs[a + 1..];
    assert xs[..a + 1][a] == xs[a];
    assert xs[a + 1..][b - a - 1] == xs[a];
  }
}
