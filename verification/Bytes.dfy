/** A byte is a character below 256. */
module Bytes {

  type byte = c: char | c as int < 256

  predicate IsDigit(c: char) {
    '0' <= c <= '9'
  }
}
