/** ASCII characters as Python's `re` and `str` methods class them. */
module Ascii {

  predicate IsSpace(c: char) {
    c == ' ' || '\t' <= c <= '\r' || '\U{1c}' <= c <= '\U{1f}'
  }

  predicate IsLower(c: char) { 'a' <= c <= 'z' }

  predicate IsUpper(c: char) { 'A' <= c <= 'Z' }

  predicate IsDigit(c: char) { '0' <= c <= '9' }

  /** The class `\w`. */
  predicate IsWordChar(c: char) {
    IsLower(c) || IsUpper(c) || IsDigit(c) || c == '_'
  }

  function ToUpper(c: char): char {
    if IsLower(c) then ((c as int - 'a' as int) + 'A' as int) as char else c
  }

  function ToLower(c: char): char {
    if IsUpper(c) then ((c as int - 'A' as int) + 'a' as int) as char else c
  }
}
