/**
 * JavaScript's `String.prototype.trim` over strings of Unicode scalar values.
 */
module Text {

  /** The code points `trim` removes: ECMAScript WhiteSpace and LineTerminator. */
  predicate IsWhitespace(c: char) {
    || c == '\t' || c == '\n' || c == '\U{B}' || c == '\U{C}' || c == '\r' || c == ' '
    || c == '\U{A0}' || c == '\U{1680}' || ('\U{2000}' <= c <= '\U{200A}')
    || c == '\U{2028}' || c == '\U{2029}' || c == '\U{202F}' || c == '\U{205F}'
    || c == '\U{3000}' || c == '\U{FEFF}'
  }

  /** Neither the first nor the last character is whitespace. */
  predicate Trimmed(s: string) {
    |s| == 0 || (!IsWhitespace(s[0]) && !IsWhitespace(s[|s| - 1]))
  }

  /** The first index in `lo..hi` that is not whitespace, or `hi`. */
  function SkipLeading(s: string, lo: nat, hi: nat): (i: nat)
    requires lo <= hi <= |s|
    ensures lo <= i <= hi
    ensures i == hi || !IsWhitespace(s[i])
    ensures forall j :: lo <= j < i ==> IsWhitespace(s[j])
    decreases hi - lo
  {
    if lo < hi && IsWhitespace(s[lo]) then SkipLeading(s, lo + 1, hi) else lo
  }

  /** One past the last index in `lo..hi` that is not whitespace, or `lo`. */
  function SkipTrailing(s: string, lo: nat, hi: nat): (i: nat)
    requires lo <= hi <= |s|
    ensures lo <= i <= hi
    ensures i == lo || !IsWhitespace(s[i - 1])
    ensures forall j :: i <= j < hi ==> IsWhitespace(s[j])
    decreases hi - lo
  {
    if lo < hi && IsWhitespace(s[hi - 1]) then SkipTrailing(s, lo, hi - 1) else hi
  }

  /**
   * `s[a..b]` is what remains of `s[lo..hi]` once its leading and trailing
   * whitespace is cut: only whitespace lies outside it, and it neither starts
   * nor ends with whitespace.
   */
  predicate TrimBounds(s: string, lo: nat, hi: nat, a: nat, b: nat) {
    && lo <= a <= b <= hi <= |s|
    && (forall j :: lo <= j < a ==> IsWhitespace(s[j]))
    && (forall j :: b <= j < hi ==> IsWhitespace(s[j]))
    && (a < b ==> !IsWhitespace(s[a]) && !IsWhitespace(s[b - 1]))
  }

  /** `r` is `s[lo..hi]` with its leading and trailing whitespace removed. */
  ghost predicate TrimOf(s: string, lo: nat, hi: nat, r: string) {
    exists a: nat, b: nat :: TrimBounds(s, lo, hi, a, b) && r == s[a..b]
  }

  /** `s.substring(lo, hi).trim()`, as a slice of `s`. */
  function TrimSlice(s: string, lo: nat, hi: nat): (r: string)
    requires lo <= hi <= |s|
    ensures Trimmed(r) && TrimOf(s, lo, hi, r)
  {
    var a := SkipLeading(s, lo, hi);
    var b := SkipTrailing(s, a, hi);
    assert TrimBounds(s, lo, hi, a, b);
    s[a..b]
  }

  /** `s.trim()`: empty exactly when `s` is whitespace only. */
  function Trim(s: string): (r: string)
    ensures Trimmed(r) && TrimOf(s, 0, |s|, r) && |r| <= |s|
    ensures |r| == 0 <==> forall i :: 0 <= i < |s| ==> IsWhitespace(s[i])
  {
    TrimSlice(s, 0, |s|)
  }

  /** The cut of a slice is determined: an empty one, or one at the same bounds. */
  lemma TrimBoundsUnique(s: string, lo: nat, hi: nat, a1: nat, b1: nat, a2: nat, b2: nat)
    requires TrimBounds(s, lo, hi, a1, b1) && TrimBounds(s, lo, hi, a2, b2)
    ensures (a1 == b1 && a2 == b2) || (a1 == a2 && b1 == b2)
  {
  }

  /** Only one string is the trim of a slice, so `TrimOf` pins the result down. */
  lemma TrimUnique(s: string, lo: nat, hi: nat, r1: string, r2: string)
    requires TrimOf(s, lo, hi, r1) && TrimOf(s, lo, hi, r2)
    ensures r1 == r2
  {
    var a1: nat, b1: nat :| TrimBounds(s, lo, hi, a1, b1) && r1 == s[a1..b1];
    var a2: nat, b2: nat :| TrimBounds(s, lo, hi, a2, b2) && r2 == s[a2..b2];
    TrimBoundsUnique(s, lo, hi, a1, b1, a2, b2);
  }

  /** A string with no surrounding whitespace is its own trim. */
  lemma TrimFixpoint(s: string)
    requires Trimmed(s)
    ensures Trim(s) == s
  {
    assert s[0..|s|] == s;
  }
}
