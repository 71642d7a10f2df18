/** Character classes used by the splitter's regular expressions and string methods. */
module Chars {

  /** Python's `str.isspace()`, which is also what `\s` matches in a `str` pattern and
      what `str.strip()` removes: the ASCII separators TAB..CR, the information
      separators FS..US, SPACE, NEL, NBSP and the Unicode space separators. */
  predicate IsSpace(c: char) {
    || ('\t' <= c <= '\r')
    || ('\U{1c}' <= c <= '\U{1f}')
    || c == ' '
    || c == '\U{85}'
    || c == '\U{a0}'
    || c == '\U{1680}'
    || ('\U{2000}' <= c <= '\U{200a}')
    || c == '\U{2028}'
    || c == '\U{2029}'
    || c == '\U{202f}'
    || c == '\U{205f}'
    || c == '\U{3000}'
  }

  predicate AllSpace(s: string) {
    forall i :: 0 <= i < |s| ==> IsSpace(s[i])
  }

  predicate NoSpace(s: string) {
    forall i :: 0 <= i < |s| ==> !IsSpace(s[i])
  }

  predicate IsUpper(c: char) { 'A' <= c <= 'Z' }

  predicate IsLower(c: char) { 'a' <= c <= 'z' }

  predicate IsDigit(c: char) { '0' <= c <= '9' }

  /** A regular-expression word character `\w`, restricted to ASCII. */
  predicate IsWordChar(c: char) {
    IsUpper(c) || IsLower(c) || IsDigit(c) || c == '_'
  }

  predicate IsWord(s: string) {
    forall i :: 0 <= i < |s| ==> IsWordChar(s[i])
  }

  function ToLower(c: char): (r: char)
    ensures IsUpper(c) ==> IsLower(r) && r as int - c as int == 32
    ensures !IsUpper(c) ==> r == c
  {
    if IsUpper(c) then (c as int + 32) as char else c
  }

  function ToUpper(c: char): (r: char)
    ensures IsLower(c) ==> IsUpper(r) && c as int - r as int == 32
    ensures !IsLower(c) ==> r == c
  {
    if IsLower(c) then (c as int - 32) as char else c
  }

  /** `str.lower()` on ASCII text. */
  function LowerStr(s: string): (r: string)
    ensures |r| == |s|
    ensures forall i :: 0 <= i < |s| ==> r[i] == ToLower(s[i])
  {
    seq(|s|, i requires 0 <= i < |s| => ToLower(s[i]))
  }

  /** `str.upper()` on ASCII text. */
  function UpperStr(s: string): (r: string)
    ensures |r| == |s|
    ensures forall i :: 0 <= i < |s| ==> r[i] == ToUpper(s[i])
  {
    seq(|s|, i requires 0 <= i < |s| => ToUpper(s[i]))
  }

  /** `s` begins with the upper-case keyword `kw`, compared case-insensitively
      (the regular-expression flag IGNORECASE, or `upper().startswith(kw)`). */
  predicate StartsWithKeyword(s: string, kw: string)
    ensures StartsWithKeyword(s, kw) <==> |kw| <= |s| && UpperStr(s)[..|kw|] == kw
  {
    |kw| <= |s| && forall i :: 0 <= i < |kw| ==> ToUpper(s[i]) == kw[i]
  }

  /** A word spelled as the keyword `kw` in any case, at the start of `s`, is
      found by the keyword test. */
  lemma SpelledKeyword(s: string, c: string, kw: string)
    requires UpperStr(c) == kw
    requires |c| <= |s| && s[..|c|] == c
    ensures StartsWithKeyword(s, kw)
  {
    forall i | 0 <= i < |kw|
      ensures ToUpper(s[i]) == kw[i]
    {
      assert s[i] == c[i];
    }
  }

  /** Lower-casing leaves no upper-case letter, keeps word characters word
      characters, and a second application changes nothing. */
  lemma LowerIdempotent(s: string)
    ensures LowerStr(LowerStr(s)) == LowerStr(s)
    ensures forall i :: 0 <= i < |s| ==> !IsUpper(LowerStr(s)[i])
    ensures IsWord(s) ==> IsWord(LowerStr(s))
  {
  }
}
