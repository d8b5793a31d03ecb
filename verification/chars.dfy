/**
 * Character classes of Python's `re` module (str patterns) and of `str.strip()` /
 * `str.lower()`, restricted to what the report checks rely on.
 */
module Chars {

  /** `str.isspace()`: the characters `\s` matches and `strip()` removes. */
  predicate IsSpace(c: char) {
    c == ' ' || ('\t' <= c <= '\r') || ('\U{1C}' <= c <= '\U{1F}')
    || c == '\U{85}' || c == '\U{A0}' || c == '\U{1680}'
    || ('\U{2000}' <= c <= '\U{200A}')
    || c == '\U{2028}' || c == '\U{2029}' || c == '\U{202F}' || c == '\U{205F}' || c == '\U{3000}'
  }

  /** `\d`, restricted to the ASCII digits. */
  predicate IsDigit(c: char) {
    '0' <= c <= '9'
  }

  /** `\w`, restricted to ASCII letters, digits and the underscore. */
  predicate IsWord(c: char) {
    ('a' <= c <= 'z') || ('A' <= c <= 'Z') || IsDigit(c) || c == '_'
  }

  function AsciiUpper(x: char): (u: char)
    requires 'a' <= x <= 'z'
    ensures 'A' <= u <= 'Z'
  {
    (x as int - 32) as char
  }

  /**
   * Does the text character `c` match the pattern character `x` under `re.IGNORECASE`?
   * `x` is a lower-case ASCII letter or a caseless character. Besides the ASCII upper case,
   * Python's engine folds LATIN CAPITAL I WITH DOT and DOTLESS I onto `i`, LONG S onto `s`
   * and KELVIN SIGN onto `k`.
   */
  predicate FoldEq(c: char, x: char) {
    c == x
    || ('a' <= x <= 'z' && c == AsciiUpper(x))
    || (x == 'i' && (c == '\U{130}' || c == '\U{131}'))
    || (x == 's' && c == '\U{17F}')
    || (x == 'k' && c == '\U{212A}')
  }

  /**
   * `c.lower()` for every character whose lower case contains an ASCII letter; every other
   * character is kept, which leaves any search for an ASCII phrase unchanged.
   */
  function LowerChar(c: char): (r: string)
    ensures 1 <= |r| <= 2
    ensures 'A' <= c <= 'Z' ==> r == [(c as int + 32) as char]
  {
    if 'A' <= c <= 'Z' then [(c as int + 32) as char]
    else if c == '\U{130}' then ['i', '\U{307}']
    else if c == '\U{212A}' then ['k']
    else [c]
  }

  /** `s.lower()`, character by character. */
  function Lower(s: string): (r: string)
    ensures |r| >= |s|
  {
    if s == [] then [] else LowerChar(s[0]) + Lower(s[1..])
  }

  lemma {:induction false} LowerAppend(a: string, b: string)
    ensures Lower(a + b) == Lower(a) + Lower(b)
  {
    if a != [] {
      assert (a + b)[0] == a[0] && (a + b)[1..] == a[1..] + b;
      LowerAppend(a[1..], b);
      assert Lower(a + b) == LowerChar(a[0]) + (Lower(a[1..]) + Lower(b));
    } else {
      assert a + b == b;
    }
  }
}
