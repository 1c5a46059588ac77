/**
 * Character classes of Python's `re` module (for `str` patterns) and the
 * left-to-right scanners the command parsers are built from.
 */
module Text {

  /** Python's `\s` for a `str` pattern: the characters `str.isspace()` accepts. */
  predicate IsSpace(c: char) {
    || '\U{9}' <= c <= '\U{d}'
    || '\U{1c}' <= c <= '\U{20}'
    || c == '\U{85}' || c == '\U{a0}' || c == '\U{1680}'
    || '\U{2000}' <= c <= '\U{200a}'
    || c == '\U{2028}' || c == '\U{2029}' || c == '\U{202f}'
    || c == '\U{205f}' || c == '\U{3000}'
  }

  /** Python's `\S`. */
  predicate IsNonSpace(c: char) {
    !IsSpace(c)
  }

  /** Python's `\d`, restricted to the ASCII digits. */
  predicate IsDigit(c: char) {
    '0' <= c <= '9'
  }

  /** Python's `.` without DOTALL: anything but a line feed. */
  predicate IsLineChar(c: char) {
    c != '\n'
  }

  /** Every character of `s` is in the class `p`. */
  predicate All(s: string, p: char -> bool) {
    forall k :: 0 <= k < |s| ==> p(s[k])
  }

  lemma DigitIsNotSpace(c: char)
    requires IsDigit(c)
    ensures !IsSpace(c) && IsNonSpace(c) && IsLineChar(c)
  {
  }

  /** A slice whose every character is of class `p`. */
  lemma AllOfSlice(s: string, i: nat, j: nat, p: char -> bool)
    requires i <= j <= |s| && forall k :: i <= k < j ==> p(s[k])
    ensures All(s[i..j], p)
  {
    assert forall k :: 0 <= k < j - i ==> s[i..j][k] == s[i + k];
  }

  /** A string is the concatenation of its slices at any three cut points. */
  lemma CutThrice(s: string, a: nat, b: nat, c: nat)
    requires a <= b <= c <= |s|
    ensures s == s[..a] + s[a..b] + s[b..c] + s[c..]
  {
  }

  /**
   * End of the maximal run of characters of class `p` that starts at `i`:
   * what a greedy `p*` reaches from `i`.
   */
  function RunEnd(s: string, i: nat, p: char -> bool): (j: nat)
    requires i <= |s|
    ensures i <= j <= |s|
    ensures forall k :: i <= k < j ==> p(s[k])
    ensures j == |s| || !p(s[j])
    decreases |s| - i
  {
    if i == |s| || !p(s[i]) then i else RunEnd(s, i + 1, p)
  }

  /** The maximal run is determined by where the class stops. */
  lemma RunEndAt(s: string, i: nat, p: char -> bool, j: nat)
    requires i <= j <= |s|
    requires forall k :: i <= k < j ==> p(s[k])
    requires j == |s| || !p(s[j])
    ensures RunEnd(s, i, p) == j
  {
  }

  /** A run of class `p` up to `j` is covered by the maximal run. */
  lemma RunEndAtLeast(s: string, i: nat, p: char -> bool, j: nat)
    requires i <= j <= |s|
    requires forall k :: i <= k < j ==> p(s[k])
    ensures j <= RunEnd(s, i, p)
  {
  }

  /** `t` occurs in `s` starting at position `i`. */
  predicate OccursAt(s: string, t: string, i: nat) {
    i + |t| <= |s| && s[i..i + |t|] == t
  }

  /** Python's `t in s`, as a left-to-right search. */
  function Contains(s: string, t: string): (b: bool)
    ensures b <==> exists i :: OccursAt(s, t, i)
  {
    ContainsFrom(s, t, 0)
  }

  /** Search for `t` in `s` from position `i` on. */
  function ContainsFrom(s: string, t: string, i: nat): (b: bool)
    ensures b <==> exists k :: i <= k && OccursAt(s, t, k)
    decreases |s| - i
  {
    if |s| < i + |t| then false
    else if s[i..i + |t|] == t then assert OccursAt(s, t, i); true
    else ContainsFrom(s, t, i + 1)
  }
}
