/** The two string methods the core applies to every textual value:
    `str.lower()` (restricted to ASCII letters) and `str.strip()` with no
    argument (removing whitespace from both ends). */
module Strings {

  /** An ASCII upper-case letter, the only characters lowered by the model. */
  predicate IsUpper(c: char) {
    'A' <= c <= 'Z'
  }

  /** Python's whitespace among the first 256 code points:
      tab, line feed, vertical tab, form feed, carriage return,
      the four separators 0x1C-0x1F, space, next line (0x85) and no-break space (0xA0). */
  predicate IsSpace(c: char) {
    var n := c as int;
    n == 0x20 || 0x09 <= n <= 0x0D || 0x1C <= n <= 0x1F || n == 0x85 || n == 0xA0
  }

  /** Lower-cases one character. */
  function Lower(c: char): (r: char)
    ensures !IsUpper(r)
    ensures IsUpper(c) ==> 'a' <= r <= 'z' && r as int - 'a' as int == c as int - 'A' as int
    ensures !IsUpper(c) ==> r == c
  {
    if IsUpper(c) then (c as int + 32) as char else c
  }

  /** No character of `s` is an upper-case letter. */
  predicate IsLowered(s: string) {
    forall k :: 0 <= k < |s| ==> !IsUpper(s[k])
  }

  /** `s.lower()`: every character lowered, position by position. */
  function ToLower(s: string): (r: string)
    ensures |r| == |s|
    ensures forall k :: 0 <= k < |s| ==> r[k] == Lower(s[k])
    ensures IsLowered(r)
    ensures IsLowered(s) ==> r == s
  {
    seq(|s|, k requires 0 <= k < |s| => Lower(s[k]))
  }

  /** Every character of `s` is whitespace. */
  predicate AllSpace(s: string) {
    forall k :: 0 <= k < |s| ==> IsSpace(s[k])
  }

  /** Neither end of `s` is whitespace: what `strip` leaves behind. */
  predicate IsStripped(s: string) {
    s == [] || (!IsSpace(s[0]) && !IsSpace(s[|s| - 1]))
  }

  /** `s.strip()`: whitespace removed from both ends, one character at a
      time. */
  function Strip(s: string): (r: string)
    ensures IsStripped(r)
  {
    if s != [] && IsSpace(s[0]) then Strip(s[1..])
    else if s != [] && IsSpace(s[|s| - 1]) then Strip(s[..|s| - 1])
    else s
  }

  /** `strip` removes only whitespace, and only at the ends: its result is
      a slice of its argument with nothing but whitespace on either side. */
  lemma {:induction false} StripIsSlice(s: string) returns (i: nat, j: nat)
    ensures i <= j <= |s| && Strip(s) == s[i..j]
    ensures AllSpace(s[..i]) && AllSpace(s[j..])
  {
    if s != [] && IsSpace(s[0]) {
      var i', j' := StripIsSlice(s[1..]);
      i, j := i' + 1, j' + 1;
      DropFirstSlice(s, i', j');
    } else if s != [] && IsSpace(s[|s| - 1]) {
      var i', j' := StripIsSlice(s[..|s| - 1]);
      i, j := i', j';
      DropLastSlice(s, i', j');
    } else {
      i, j := 0, |s|;
    }
  }

  /** A slice of `s[1..]` with whitespace around it, seen as a slice of `s`
      when `s` starts with whitespace. */
  lemma DropFirstSlice(s: string, i: nat, j: nat)
    requires s != [] && IsSpace(s[0]) && i <= j <= |s| - 1
    requires AllSpace(s[1..][..i]) && AllSpace(s[1..][j..])
    ensures s[1..][i..j] == s[i + 1..j + 1]
    ensures AllSpace(s[..i + 1]) && AllSpace(s[j + 1..])
  {
    assert s[..i + 1] == [s[0]] + s[1..][..i];
    assert s[j + 1..] == s[1..][j..];
  }

  /** A slice of `s[..|s| - 1]` with whitespace around it, seen as a slice
      of `s` when `s` ends with whitespace. */
  lemma DropLastSlice(s: string, i: nat, j: nat)
    requires s != [] && IsSpace(s[|s| - 1]) && i <= j <= |s| - 1
    requires AllSpace(s[..|s| - 1][..i]) && AllSpace(s[..|s| - 1][j..])
    ensures s[..|s| - 1][i..j] == s[i..j]
    ensures AllSpace(s[..i]) && AllSpace(s[j..])
  {
    assert s[..i] == s[..|s| - 1][..i];
    assert s[j..] == s[..|s| - 1][j..] + [s[|s| - 1]];
  }

  /** A value `s.lower().strip()` leaves as it is. */
  predicate IsNormalized(s: string) {
    IsLowered(s) && IsStripped(s)
  }

  /** Stripping a lowered string leaves it lowered. */
  lemma StripKeepsLowered(s: string)
    requires IsLowered(s)
    ensures IsLowered(Strip(s))
  {
    var i, j := StripIsSlice(s);
    assert forall k :: 0 <= k < j - i ==> Strip(s)[k] == s[i + k];
  }

  /** `s.lower().strip()`, the normalisation applied to each textual cell:
      the result is lowered and stripped. */
  function Normalize(s: string): (r: string)
    ensures IsNormalized(r)
  {
    StripKeepsLowered(ToLower(s));
    Strip(ToLower(s))
  }

  /** A string already lowered and stripped is left as it is. */
  lemma NormalizeFixedPoint(s: string)
    requires IsNormalized(s)
    ensures Normalize(s) == s
  {
    assert ToLower(s) == s;
  }

  /** Normalisation is idempotent. */
  lemma NormalizeIdempotent(s: string)
    ensures Normalize(Normalize(s)) == Normalize(s)
  {
    NormalizeFixedPoint(Normalize(s));
  }
}
