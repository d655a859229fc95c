/** Bytes of a statement, the byte values the scanners compare against, and Option. */
module Bytes {

  type byte = bv8

  datatype Option<+T> = None | Some(value: T)

  const TAB: byte := 0x09
  const LF: byte := 0x0A
  const CR: byte := 0x0D
  const SPACE: byte := 0x20
  const DOUBLE_QUOTE_BYTE: byte := 0x22
  const DOLLAR: byte := 0x24
  const AMPERSAND: byte := 0x26
  const SINGLE_QUOTE_BYTE: byte := 0x27
  const LPAREN: byte := 0x28
  const RPAREN: byte := 0x29
  const LT: byte := 0x3C
  const GT: byte := 0x3E
  const BACKSLASH_BYTE: byte := 0x5C
  const PIPE: byte := 0x7C

  /** Space or tab: the bytes the scanners treat as separators. */
  predicate IsBlank(c: byte) {
    c == SPACE || c == TAB
  }
}
