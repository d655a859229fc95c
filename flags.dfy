/**
 * The quote, escape and `$(` register shared by the two scanners of
 * src/parser/pipelines.rs: a single byte whose bits are the constants below.
 */
module ScanFlags {

  const BACKSLASH: bv8 := 1
  const SINGLE_QUOTE: bv8 := 2
  const DOUBLE_QUOTE: bv8 := 4
  const WHITESPACE: bv8 := 8
  const PROCESS_ONE: bv8 := 64
  const PROCESS_TWO: bv8 := 128

  /** Masks every bit except BACKSLASH, WHITESPACE and bit 5. */
  const PROCESS_VAL: bv8 := 255 ^ (BACKSLASH + WHITESPACE + 32)

  /** Masks every bit except BACKSLASH and WHITESPACE: clear under it means no quote open and no `$` or `$(` pending. */
  const IS_VALID: bv8 := 255 ^ (BACKSLASH + WHITESPACE)
}
