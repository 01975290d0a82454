/** Character classes shared by the Python and JavaScript parts of the model.
    Python's `str` methods and `re` classes and JavaScript's `String` methods
    are Unicode-aware; the classes below are exact for whitespace and are
    drawn over Latin-1 for letters and digits. */
module Chars {

  /** Python's `str.isspace()`: what `str.split()`, `str.strip()` and the
      regular-expression class `\s` treat as whitespace. */
  predicate IsPySpace(c: char) {
    var n := c as int;
    (0x09 <= n <= 0x0D) || (0x1C <= n <= 0x20) || n == 0x85 || n == 0xA0 || n == 0x1680
    || (0x2000 <= n <= 0x200A) || n == 0x2028 || n == 0x2029 || n == 0x202F || n == 0x205F
    || n == 0x3000
  }

  /** The characters `String.prototype.trim` removes: WhiteSpace and
      LineTerminator of ECMAScript (section 12.2 and 12.3 of ECMA-262). */
  predicate IsJsSpace(c: char) {
    var n := c as int;
    (0x09 <= n <= 0x0D) || n == 0x20 || n == 0xA0 || n == 0x1680 || (0x2000 <= n <= 0x200A)
    || n == 0x2028 || n == 0x2029 || n == 0x202F || n == 0x205F || n == 0x3000 || n == 0xFEFF
  }

  predicate IsDigit(c: char) {
    '0' <= c <= '9'
  }

  /** The regular-expression class `\w`: letters, digits and `_`. Exact on
      Latin-1 (ASCII plus U+00A0 to U+00FF); no character above U+00FF counts. */
  predicate IsWordChar(c: char) {
    var n := c as int;
    IsDigit(c) || ('a' <= c <= 'z') || ('A' <= c <= 'Z') || c == '_'
    || n == 0xAA || n == 0xB2 || n == 0xB3 || n == 0xB5 || n == 0xB9 || n == 0xBA
    || (0xBC <= n <= 0xBE) || (0xC0 <= n <= 0xD6) || (0xD8 <= n <= 0xF6) || (0xF8 <= n <= 0xFF)
  }

  predicate IsUpper(c: char) {
    var n := c as int;
    ('A' <= c <= 'Z') || (0xC0 <= n <= 0xD6) || (0xD8 <= n <= 0xDE)
  }

  predicate NotUpper(c: char) {
    !IsUpper(c)
  }

  /** `str.lower()` / `toLowerCase()` on one character, over Latin-1. */
  function LowerChar(c: char): (d: char)
    ensures !IsUpper(d)
    ensures !IsUpper(c) ==> d == c
    ensures IsWordChar(d) == IsWordChar(c) && IsPySpace(d) == IsPySpace(c)
    ensures IsJsSpace(d) == IsJsSpace(c) && IsDigit(d) == IsDigit(c)
  {
    if IsUpper(c) then (c as int + 32) as char else c
  }

  /** A character the word-keeping normalizers can leave: a word character
      or a plain space. */
  predicate WordOrBlank(c: char) {
    IsWordChar(c) || c == ' '
  }

  /** The only whitespace allowed is the plain space. */
  predicate BlankIsSpace(c: char) {
    IsPySpace(c) ==> c == ' '
  }
}
