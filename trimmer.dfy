/**
 * PipelineIterator (src/parser/pipelines.rs:17-76): skips the leading run of
 * spaces and tabs of one statement and yields the rest, at most once, if the
 * rest holds a byte other than space, tab, CR or LF.
 */
module Trimmer {
  import opened Bytes
  import opened ScanFlags

  /** The bytes the `any` test of `next` does not count as content. */
  predicate IsWhitespace(c: byte) {
    c == SPACE || c == TAB || c == CR || c == LF
  }

  predicate AllWhitespace(s: seq<byte>) {
    forall i | 0 <= i < |s| :: IsWhitespace(s[i])
  }

  /** Some byte of the statement is not a space, a tab, a carriage return or a line feed. */
  predicate HasContent(s: seq<byte>)
    ensures HasContent(s) <==> !AllWhitespace(s)
  {
    exists i | 0 <= i < |s| :: !IsWhitespace(s[i])
  }

  /** Length of the maximal leading run of spaces and tabs. */
  function LeadingBlanks(s: seq<byte>): (k: nat)
    ensures k <= |s|
    ensures forall i | 0 <= i < k :: IsBlank(s[i])
    ensures k < |s| ==> !IsBlank(s[k])
  {
    if |s| > 0 && IsBlank(s[0]) then 1 + LeadingBlanks(s[1..]) else 0
  }

  /**
   * What a fresh iterator yields: nothing when every byte is whitespace,
   * otherwise the statement minus its leading spaces and tabs.
   */
  function Trim(s: seq<byte>): (r: Option<seq<byte>>)
    ensures r.None? <==> AllWhitespace(s)
    ensures r.Some? ==> r.value != [] && |r.value| <= |s| && r.value == s[|s| - |r.value|..]
    ensures r.Some? ==> !IsBlank(r.value[0])
    ensures r.Some? ==> forall i | 0 <= i < |s| - |r.value| :: IsBlank(s[i])
  {
    var k := LeadingBlanks(s);
    if |s| > k && HasContent(s[k..]) then Some(s[k..]) else None
  }

  /** The arms of the `match character` in `next`, lines 42-57. */
  datatype TrimArm =
    | Escaped       // the byte after a backslash
    | Backslash
    | SingleQuote
    | DoubleQuote
    | Dollar
    | OpenProcess   // `(` right after `$`
    | CloseProcess  // `)` inside `$(`
    | Blank         // unquoted space or tab
    | EndProcess    // any other byte outside `$(...)` clears the `$` state
    | Other

  /** The arm `next` takes for byte `c` under register `f`: the guards, in source order. */
  function TrimArmOf(f: bv8, c: byte): (r: TrimArm)
    ensures r == Blank <==> IsBlank(c) && f & BACKSLASH == 0 && f & IS_VALID == 0
  {
    if f & BACKSLASH != 0 then Escaped
    else if c == BACKSLASH_BYTE then Backslash
    else if c == SINGLE_QUOTE_BYTE && f & (PROCESS_TWO + DOUBLE_QUOTE) == 0 then SingleQuote
    else if c == DOUBLE_QUOTE_BYTE && f & (PROCESS_TWO + SINGLE_QUOTE) == 0 then DoubleQuote
    else if c == DOLLAR && f & PROCESS_VAL == 0 then Dollar
    else if c == LPAREN && f & PROCESS_VAL == PROCESS_ONE then OpenProcess
    else if c == RPAREN && f & PROCESS_VAL == PROCESS_TWO then CloseProcess
    else if IsBlank(c) && f & IS_VALID == 0 then Blank
    else if f >> 6 != 2 then EndProcess
    else Other
  }

  /** The flags register after `next` has looked at byte `c`. */
  function NextFlags(f: bv8, c: byte): (r: bv8)
    ensures r & WHITESPACE != 0 <==> TrimArmOf(f, c) == Blank
  {
    match TrimArmOf(f, c)
    case Escaped => (f ^ BACKSLASH) & (255 ^ WHITESPACE)
    case Backslash => (f | BACKSLASH) & (255 ^ WHITESPACE)
    case SingleQuote => (f ^ SINGLE_QUOTE) & (255 ^ WHITESPACE)
    case DoubleQuote => (f ^ DOUBLE_QUOTE) & (255 ^ WHITESPACE)
    case Dollar => (f | PROCESS_ONE) & (255 ^ WHITESPACE)
    case OpenProcess => (f ^ (PROCESS_ONE + PROCESS_TWO)) & (255 ^ WHITESPACE)
    case CloseProcess => (f & (255 ^ PROCESS_TWO)) & (255 ^ WHITESPACE)
    case Blank => f | WHITESPACE
    case EndProcess => (f & (255 ^ (PROCESS_ONE + PROCESS_TWO))) & (255 ^ WHITESPACE)
    case Other => f & (255 ^ WHITESPACE)
  }

  /** The flags register after `next` has looked at `s[lo..hi]`, starting from `f`. */
  function FlagsAfter(f: bv8, s: seq<byte>, lo: nat, hi: nat): (r: bv8)
    requires lo <= hi <= |s|
    ensures lo < hi && r & WHITESPACE != 0 ==> IsBlank(s[hi - 1])
    decreases hi
  {
    if hi == lo then f else NextFlags(FlagsAfter(f, s, lo, hi - 1), s[hi - 1])
  }

  /**
   * While `next` is still inside the leading run of blanks, the register holds
   * no quote, escape or substitution bit, so the quote state cannot decide
   * where the trimmed statement starts.
   */
  lemma {:induction false} LeadingRunIsUnquoted(s: seq<byte>, k: nat)
    requires k <= LeadingBlanks(s)
    ensures FlagsAfter(0, s, 0, k) == if k == 0 then 0 else WHITESPACE
    ensures k < LeadingBlanks(s) ==> TrimArmOf(FlagsAfter(0, s, 0, k), s[k]) == Blank
  {
    if k > 0 {
      LeadingRunIsUnquoted(s, k - 1);
    }
  }

  class PipelineIterator {
    const matchStr: seq<byte>
    var flags: bv8
    var indexStart: nat
    var indexEnd: nat

    /** No call to `next` has consumed anything yet. */
    predicate Fresh()
      reads this
    {
      flags == 0 && indexStart == 0 && indexEnd == 0
    }

    /** Either fresh, or every byte consumed and nothing left to yield. */
    predicate Valid()
      reads this
    {
      Fresh() || (indexEnd == |matchStr| && indexStart >= |matchStr|)
    }

    constructor (matchStr: seq<byte>)
      ensures this.matchStr == matchStr && Fresh()
    {
      this.matchStr := matchStr;
      flags := 0;
      indexStart := 0;
      indexEnd := 0;
    }

    /**
     * The first call yields Trim(matchStr) and moves past the end; any later
     * call yields None and changes nothing.
     */
    method Next() returns (r: Option<seq<byte>>)
      requires Valid()
      modifies this
      ensures Valid()
      ensures old(Fresh()) ==> r == Trim(matchStr)
      ensures old(Fresh()) ==> indexEnd == |matchStr| && flags == FlagsAfter(0, matchStr, 0, |matchStr|)
      ensures old(Fresh()) ==> indexStart == if |matchStr| > LeadingBlanks(matchStr) then |matchStr| + 1 else LeadingBlanks(matchStr)
      ensures !old(Fresh()) ==> r == None
      ensures !old(Fresh()) ==> flags == old(flags) && indexStart == old(indexStart) && indexEnd == old(indexEnd)
      ensures r.Some? ==> !Fresh()
    {
      ghost var wasFresh := Fresh();
      ghost var k := LeadingBlanks(matchStr);
      var flags, indexStart, indexEnd := this.flags, this.indexStart, this.indexEnd;
      ghost var flags0, start0, end0 := flags, indexStart, indexEnd;
      while indexEnd < |matchStr|
        invariant end0 <= indexEnd <= |matchStr|
        invariant flags == FlagsAfter(flags0, matchStr, end0, indexEnd)
        invariant wasFresh ==> indexStart == if indexEnd <= k then indexEnd else k
        invariant !wasFresh ==> indexStart == start0 && indexEnd == end0 && flags == flags0
      {
        var c := matchStr[indexEnd];
        if wasFresh && indexStart == indexEnd {
          LeadingRunIsUnquoted(matchStr, indexEnd);
        }
        // the Blank arm advances past a leading blank and skips the reset of WHITESPACE;
        // every arm's update of the register is NextFlags
        if TrimArmOf(flags, c) == Blank && indexStart == indexEnd {
          indexStart := indexStart + 1;
        }
        flags := NextFlags(flags, c);
        indexEnd := indexEnd + 1;
      }

      r := None;
      if |matchStr| > indexStart {
        var command := matchStr[indexStart..];
        indexStart := |matchStr| + 1;
        if HasContent(command) {
          r := Some(command);
        }
      }
      this.flags, this.indexStart, this.indexEnd := flags, indexStart, indexEnd;
    }
  }

  /**
   * A statement is yielded at most once: a fresh iterator hands out the
   * trimmed statement, and the call after it nothing.
   */
  method YieldsAtMostOnce(command: seq<byte>) returns (first: Option<seq<byte>>, second: Option<seq<byte>>)
    ensures first == Trim(command) && second == None
  {
    var iter := new PipelineIterator(command);
    first := iter.Next();
    second := iter.Next();
  }
}
