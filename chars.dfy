/**
 * Character classes used by the description normaliser: Python's `\s` and
 * `str.isspace`, the regex word class `\w`, the ASCII digits of `\d`, and
 * the case mapping of `str.upper()`, all restricted to the Latin-1 range
 * (code points below 0x100) except for whitespace, whose set is complete.
 */
module CharClass {

  /** `\s` in a `str` pattern, which is also the set `str.strip()` removes. */
  predicate IsSpace(c: char) {
    ('\t' <= c <= '\r') || ('\U{1C}' <= c <= '\U{1F}') || c == ' '
    || c == '\U{85}' || c == '\U{A0}' || c == '\U{1680}'
    || ('\U{2000}' <= c <= '\U{200A}') || c == '\U{2028}' || c == '\U{2029}'
    || c == '\U{202F}' || c == '\U{205F}' || c == '\U{3000}'
  }

  /** `\d`, restricted to the ASCII digits. */
  predicate IsDigit(c: char) {
    '0' <= c <= '9'
  }

  /** `[A-Z]` under case-insensitive matching: an ASCII letter of either case. */
  predicate IsAsciiLetter(c: char) {
    ('A' <= c <= 'Z') || ('a' <= c <= 'z')
  }

  /** `\w`: letters, digits and `_`, with the Latin-1 letters and digit-like signs. */
  predicate IsWordChar(c: char) {
    IsAsciiLetter(c) || IsDigit(c) || c == '_'
    || c == '\U{AA}' || c == '\U{B2}' || c == '\U{B3}' || c == '\U{B5}'
    || c == '\U{B9}' || c == '\U{BA}' || ('\U{BC}' <= c <= '\U{BE}')
    || ('\U{C0}' <= c <= '\U{FF}' && c != '\U{D7}' && c != '\U{F7}')
  }

  /** A lower-case letter that `str.upper()` maps one-to-one onto a Latin-1 capital. */
  predicate HasUpper(c: char) {
    ('a' <= c <= 'z') || ('\U{E0}' <= c <= '\U{FE}' && c != '\U{F7}')
  }

  /** `str.upper()` on one character. */
  function Upper(c: char): (u: char)
    ensures HasUpper(c) ==> u as int == c as int - 32
    ensures !HasUpper(c) ==> u == c
    ensures !HasUpper(u)
  {
    if HasUpper(c) then (c as int - 32) as char else c
  }

  /** `str.upper()` on a string. */
  function UpperStr(s: string): (r: string)
    ensures |r| == |s|
    ensures forall k :: 0 <= k < |s| ==> r[k] == Upper(s[k])
  {
    if s == [] then [] else [Upper(s[0])] + UpperStr(s[1..])
  }

  /** Case-insensitive equality of two characters, as `re.IGNORECASE` compares them. */
  predicate SameLetter(a: char, b: char) {
    Upper(a) == Upper(b)
  }

  /** Upper-casing never turns a character into, or out of, a space, comma or word character. */
  lemma UpperKeepsClass(c: char)
    ensures IsSpace(Upper(c)) <==> IsSpace(c)
    ensures Upper(c) == ',' <==> c == ','
    ensures IsWordChar(Upper(c)) <==> IsWordChar(c)
    ensures IsDigit(Upper(c)) <==> IsDigit(c)
  {
  }

  /** Applying upper a second time changes nothing. */
  lemma UpperIdempotent(c: char)
    ensures Upper(Upper(c)) == Upper(c)
  {
  }

  /** Text without a lower-case letter is already upper case. */
  lemma UpperStrFixes(s: string)
    requires forall c :: c in s ==> !HasUpper(c)
    ensures UpperStr(s) == s
  {
    assert forall k :: 0 <= k < |s| ==> s[k] in s;
  }

  /** Concatenation regrouped, as a step the solver is handed instead of finding it. */
  lemma AppendAssoc(x: string, y: string, z: string)
    ensures (x + y) + z == x + (y + z)
  {
  }

  /** Position `i` of `s` holds a word character (positions outside `s` do not). */
  predicate WordAt(s: string, i: int) {
    0 <= i < |s| && IsWordChar(s[i])
  }

  /** `\b` at position `i`: exactly one of the characters either side is a word character. */
  predicate Boundary(s: string, i: int) {
    WordAt(s, i - 1) != WordAt(s, i)
  }

  /** The first position at or after `i` that is not whitespace (greedy `\s*`). */
  function SkipSpaces(s: string, i: nat): (j: nat)
    requires i <= |s|
    ensures i <= j <= |s|
    ensures forall k :: i <= k < j ==> IsSpace(s[k])
    ensures j < |s| ==> !IsSpace(s[j])
    decreases |s| - i
  {
    if i < |s| && IsSpace(s[i]) then SkipSpaces(s, i + 1) else i
  }

  /** Appending text does not move a non-space that `\s*` already stops at. */
  lemma {:induction false} SkipSpacesWithin(a: string, t: string, i: nat)
    requires i <= |a| && SkipSpaces(a, i) < |a|
    ensures SkipSpaces(a + t, i) == SkipSpaces(a, i)
    decreases |a| - i
  {
    assert (a + t)[i] == a[i];
    if IsSpace(a[i]) {
      SkipSpacesWithin(a, t, i + 1);
    }
  }

  /** `\s*` from `i` stops at `j` when only whitespace lies between and none is at `j`. */
  lemma {:induction false} SkipSpacesTo(s: string, i: nat, j: nat)
    requires i <= j <= |s| && forall k :: i <= k < j ==> IsSpace(s[k])
    requires j < |s| ==> !IsSpace(s[j])
    ensures SkipSpaces(s, i) == j
    decreases j - i
  {
    if i < j {
      SkipSpacesTo(s, i + 1, j);
    }
  }

  /** The end left once the whitespace before position `j`, back to position `a`, is dropped. */
  function TrimEnd(s: string, a: nat, j: nat): (b: nat)
    requires a <= j <= |s|
    ensures a <= b <= j
    ensures forall k :: b <= k < j ==> IsSpace(s[k])
    ensures b > a ==> !IsSpace(s[b - 1])
    decreases j
  {
    if j > a && IsSpace(s[j - 1]) then TrimEnd(s, a, j - 1) else j
  }

  /** `str.strip()`: drops leading and trailing whitespace. */
  function Strip(s: string): (r: string)
    ensures |r| <= |s|
    ensures r != [] ==> !IsSpace(r[0]) && !IsSpace(r[|r| - 1])
  {
    var a := SkipSpaces(s, 0);
    s[a..TrimEnd(s, a, |s|)]
  }
}
