/**
  The white space that stripping and testing for blank lines is about.
 */
module Whitespace {

  predicate Space(c: char) {
    c == ' ' || '\t' <= c <= '\r' || '\U{1c}' <= c <= '\U{1f}'
  }
}
