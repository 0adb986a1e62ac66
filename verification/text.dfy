/**
 * Character classes and trimming as JavaScript defines them. The regular
 * expression class `\s` and `String.prototype.trim` use the same set of
 * code points: ECMAScript's WhiteSpace and LineTerminator productions.
 * The model fixes that set explicitly: Unicode category Zs as of
 * Unicode 6.3 and later (U+180E no longer among them), as current engines
 * use it, plus TAB, VT, FF, ZWNBSP, LF, CR, LS and PS.
 */
module Text {
  import opened Wrappers

  predicate IsWhitespace(c: char) {
    var n := c as int;
    n == 0x09 || n == 0x0A || n == 0x0B || n == 0x0C || n == 0x0D || n == 0x20
    || n == 0xA0 || n == 0x1680 || (0x2000 <= n <= 0x200A)
    || n == 0x2028 || n == 0x2029 || n == 0x202F || n == 0x205F
    || n == 0x3000 || n == 0xFEFF
  }

  /** No character of `s` is whitespace. */
  predicate NoWhitespace(s: string) {
    forall k :: 0 <= k < |s| ==> !IsWhitespace(s[k])
  }

  /** Every character of `s` is whitespace (the empty string included). */
  predicate Blank(s: string) {
    forall k :: 0 <= k < |s| ==> IsWhitespace(s[k])
  }

  /** The first position at or after `i` that does not hold whitespace
      (or the end of `s`): the scan trim makes from the front. */
  function SkipBlankForward(s: string, i: nat): (j: nat)
    requires i <= |s|
    ensures i <= j <= |s|
    ensures forall k :: i <= k < j ==> IsWhitespace(s[k])
    ensures j == |s| || !IsWhitespace(s[j])
    decreases |s| - i
  {
    if i == |s| || !IsWhitespace(s[i]) then i else SkipBlankForward(s, i + 1)
  }

  /** The end of the text that precedes the trailing whitespace of
      `s[lo..j]`: the scan trim makes from the back, stopping at `lo`. */
  function SkipBlankBackward(s: string, lo: nat, j: nat): (e: nat)
    requires lo <= j <= |s|
    ensures lo <= e <= j
    ensures forall k :: e <= k < j ==> IsWhitespace(s[k])
    ensures e == lo || !IsWhitespace(s[e - 1])
  {
    if j == lo || !IsWhitespace(s[j - 1]) then j else SkipBlankBackward(s, lo, j - 1)
  }

  /** `String.prototype.trim`: `s` without its leading and trailing
      whitespace. The result is a slice of `s` with only whitespace cut
      off either end, it neither starts nor ends with whitespace, and a
      string without whitespace is left as it is. When it is empty:
      TrimEmptyIffBlank. */
  function Trim(s: string): (r: string)
    ensures exists a, b :: 0 <= a <= b <= |s| && r == s[a..b] && Blank(s[..a]) && Blank(s[b..])
    ensures r == [] || (!IsWhitespace(r[0]) && !IsWhitespace(r[|r| - 1]))
    ensures NoWhitespace(s) ==> r == s
  {
    var a := SkipBlankForward(s, 0);
    var b := SkipBlankBackward(s, a, |s|);
    assert Blank(s[..a]) && Blank(s[b..]);
    s[a..b]
  }

  /** Trim gives the empty string exactly for a blank input. */
  lemma TrimEmptyIffBlank(s: string)
    ensures Trim(s) == [] <==> Blank(s)
  {
    var a := SkipBlankForward(s, 0);
    var b := SkipBlankBackward(s, a, |s|);
    if a < |s| {
      assert !IsWhitespace(s[a]);
      assert b > a;
    }
  }

  /** Trim leaves a string alone when it neither starts nor ends with whitespace. */
  lemma TrimKeepsTrimmed(s: string)
    requires s != [] && !IsWhitespace(s[0]) && !IsWhitespace(s[|s| - 1])
    ensures Trim(s) == s
  {
  }

  /** The position of the first occurrence of `c` in `s`, if any. */
  function IndexOf(s: string, c: char): (r: Option<nat>)
    ensures r.None? <==> c !in s
    ensures r.Some? ==> r.value < |s| && s[r.value] == c && c !in s[..r.value]
  {
    if s == [] then None
    else if s[0] == c then Some(0)
    else match IndexOf(s[1..], c)
      case None => None
      case Some(j) =>
        assert s[..j + 1] == [s[0]] + s[1..][..j];
        Some(j + 1)
  }
}
