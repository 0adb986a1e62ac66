/**
 * The e-mail pattern `^[^\s@]+@[^\s@]+\.[^\s@]+$` that the contact form
 * tests addresses against (script.js:208 and script.js:224).
 *
 * MatchesEmailRegex reads the pattern as the regular language it denotes:
 * three non-empty runs of characters that are neither whitespace nor `@`,
 * separated by one `@` and one `.`. IsEmailAddress decides the same
 * language by a single search for the `@`; EmailAddressIffRegex proves the
 * two agree on every string.
 */
module Email {
  import opened Wrappers
  import opened Text

  /** The character class `[^\s@]`. */
  predicate IsAtomChar(c: char) {
    !IsWhitespace(c) && c != '@'
  }

  /** The repetition `[^\s@]+`. */
  predicate IsAtom(s: string) {
    |s| > 0 && forall k :: 0 <= k < |s| ==> IsAtomChar(s[k])
  }

  /** The whole string is `atom @ atom . atom`, for some split. */
  ghost predicate MatchesEmailRegex(s: string) {
    exists i, j ::
      0 <= i < j < |s| && s[i] == '@' && s[j] == '.'
      && IsAtom(s[..i]) && IsAtom(s[i + 1..j]) && IsAtom(s[j + 1..])
  }

  /** A `.` with at least one character on each side of it. */
  predicate HasInnerDot(d: string) {
    |d| >= 3 && '.' in d[1..|d| - 1]
  }

  /** No whitespace; a first `@` with something before it; no further `@`;
      and a `.` inside the part after the `@`. */
  predicate IsEmailAddress(s: string) {
    NoWhitespace(s) &&
    match IndexOf(s, '@')
    case None => false
    case Some(i) => 0 < i && '@' !in s[i + 1..] && HasInnerDot(s[i + 1..])
  }

  lemma AddressMatchesRegex(s: string)
    requires IsEmailAddress(s)
    ensures MatchesEmailRegex(s)
  {
    var i := IndexOf(s, '@').value;
    var d := s[i + 1..];
    var m :| 0 <= m < |d| - 2 && d[1..|d| - 1][m] == '.';
    var j := i + 2 + m;
    assert s[j] == '.';
    assert IsAtom(s[..i]);
    assert s[i + 1..j] == d[..m + 1];
    assert IsAtom(s[i + 1..j]);
    assert s[j + 1..] == d[m + 2..];
    assert IsAtom(s[j + 1..]);
  }

  lemma RegexMatchIsAddress(s: string)
    requires MatchesEmailRegex(s)
    ensures IsEmailAddress(s)
  {
    var i, j :| 0 <= i < j < |s| && s[i] == '@' && s[j] == '.'
      && IsAtom(s[..i]) && IsAtom(s[i + 1..j]) && IsAtom(s[j + 1..]);
    SplitIsAddress(s, i, j);
  }

  /** Given the split the pattern matched, the executable test accepts. */
  lemma SplitIsAddress(s: string, i: nat, j: nat)
    requires i < j < |s| && s[i] == '@' && s[j] == '.'
    requires IsAtom(s[..i]) && IsAtom(s[i + 1..j]) && IsAtom(s[j + 1..])
    ensures IsEmailAddress(s)
  {
    SplitCharsClean(s, i, j);
    assert '@' !in s[..i];
    assert IndexOf(s, '@') == Some(i);
    var d := s[i + 1..];
    assert '@' !in d;
    assert d[1..|d| - 1][j - i - 2] == '.';
  }

  /** Under such a split no character is whitespace, and the only `@` is
      the one at `i`. */
  lemma SplitCharsClean(s: string, i: nat, j: nat)
    requires i < j < |s| && s[i] == '@' && s[j] == '.'
    requires IsAtom(s[..i]) && IsAtom(s[i + 1..j]) && IsAtom(s[j + 1..])
    ensures forall k :: 0 <= k < |s| ==> !IsWhitespace(s[k]) && (k != i ==> s[k] != '@')
  {
    forall k | 0 <= k < |s| ensures !IsWhitespace(s[k]) && (k != i ==> s[k] != '@') {
      if k < i { assert s[..i][k] == s[k]; }
      else if i < k < j { assert s[i + 1..j][k - i - 1] == s[k]; }
      else if j < k { assert s[j + 1..][k - j - 1] == s[k]; }
    }
  }

  /** The executable test accepts exactly the strings the pattern matches. */
  lemma EmailAddressIffRegex(s: string)
    ensures IsEmailAddress(s) <==> MatchesEmailRegex(s)
  {
    if IsEmailAddress(s) { AddressMatchesRegex(s); }
    if MatchesEmailRegex(s) { RegexMatchIsAddress(s); }
  }

  /** A string with a whitespace character anywhere is never accepted. */
  lemma WhitespaceNeverAddress(s: string, k: nat)
    requires k < |s| && IsWhitespace(s[k])
    ensures !IsEmailAddress(s)
  {
  }

  /** A string without `@` is never accepted. */
  lemma NoAtNeverAddress(s: string)
    requires '@' !in s
    ensures !IsEmailAddress(s)
  {
  }

  /** An accepted address holds exactly one `@`, after a non-empty local
      part, and contains no whitespace. */
  lemma AddressShape(s: string)
    requires IsEmailAddress(s)
    ensures NoWhitespace(s)
    ensures multiset(s)['@'] == 1
    ensures s[0] != '@' && s[|s| - 1] != '@'
  {
    var i := IndexOf(s, '@').value;
    assert s == s[..i] + [s[i]] + s[i + 1..];
    assert multiset(s) == multiset(s[..i]) + multiset{'@'} + multiset(s[i + 1..]);
    assert s[..i][0] == s[0];
  }
}
