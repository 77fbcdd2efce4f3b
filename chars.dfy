/**
 * Character classes of Rust's `char` used by the lexer and the editor.
 *
 * `IsWhitespace` is Unicode's White_Space property, which is a finite list and is
 * written out in full. Alphabetic and numeric are Unicode properties too large to
 * enumerate; they are restricted here to their ASCII members (see README, "Left out").
 */
module Chars {

  /** `char::is_whitespace`: the Unicode White_Space code points. */
  predicate IsWhitespace(c: char)
  {
    ('\t' <= c <= '\r') || c == ' ' || c == '\U{85}' || c == '\U{A0}' || c == '\U{1680}'
    || ('\U{2000}' <= c <= '\U{200A}') || c == '\U{2028}' || c == '\U{2029}'
    || c == '\U{202F}' || c == '\U{205F}' || c == '\U{3000}'
  }

  /** `char::is_ascii_digit`. */
  predicate IsAsciiDigit(c: char)
  {
    '0' <= c <= '9'
  }

  /** `char::is_alphabetic`, restricted to ASCII letters. */
  predicate IsAlphabetic(c: char)
  {
    ('a' <= c <= 'z') || ('A' <= c <= 'Z')
  }

  /** `char::is_alphanumeric`, restricted to ASCII letters and digits. */
  predicate IsAlphanumeric(c: char)
  {
    IsAlphabetic(c) || IsAsciiDigit(c)
  }

  /** `char::is_ascii_punctuation`: the four punctuation blocks of ASCII. */
  predicate IsAsciiPunctuation(c: char)
  {
    ('!' <= c <= '/') || (':' <= c <= '@') || ('[' <= c <= '`') || ('{' <= c <= '~')
  }

  /** `char::to_ascii_uppercase`: maps 'a'..'z' to 'A'..'Z', every other char to itself. */
  function ToAsciiUppercase(c: char): (u: char)
    ensures 'a' <= c <= 'z' ==> 'A' <= u <= 'Z' && u as int == c as int - 32
    ensures !('a' <= c <= 'z') ==> u == c
  {
    if 'a' <= c <= 'z' then (c as int - 32) as char else c
  }

  /** The classes the lexer dispatches on at the start of a token do not overlap. */
  lemma ClassesDisjoint(c: char)
    ensures IsWhitespace(c) ==> c != '-' && !IsAsciiDigit(c) && !IsAlphanumeric(c)
    ensures IsAsciiDigit(c) ==> !IsAlphabetic(c) && c != '-'
    ensures IsAsciiPunctuation(c) ==> !IsAlphanumeric(c) && !IsWhitespace(c)
  {
  }
}
