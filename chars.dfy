/**
 * Python's whitespace: the characters for which `str.isspace()` holds.
 * `str.strip()` removes exactly these from both ends of a string, and the
 * class `\s` of a regular expression over `str` matches exactly these.
 */
module Chars {
  predicate IsWhitespace(c: char) {
    ('\t' <= c <= '\r') || ('\U{1C}' <= c <= ' ') || c == '\U{85}' || c == '\U{A0}' || c == '\U{1680}'
    || ('\U{2000}' <= c <= '\U{200A}') || c == '\U{2028}' || c == '\U{2029}' || c == '\U{202F}'
    || c == '\U{205F}' || c == '\U{3000}'
  }

  /** Every character of `s` is whitespace: `s.strip()` is empty, and `\s*` matches all of `s`. */
  predicate Blank(s: string) {
    forall i :: 0 <= i < |s| ==> IsWhitespace(s[i])
  }
}
