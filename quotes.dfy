/**
 * The quote, escape and `$` register of the argument arm of `collect`
 * (src/parser/pipelines.rs:132-157): which arm a byte takes under a given
 * register, and what a double-quoted span does to a statement.
 */
module Quoting {
  import opened Bytes
  import opened ScanFlags
  import opened Splitter
  import opened WordRuns
  import opened PlainStatements

  /**
   * A quote toggles its own bit whatever else is open; a single quote
   * inside double quotes flips the single-quote bit too.  The same quote
   * again restores the register.
   */
  lemma QuoteToggles(f: bv8, c: byte)
    requires f & BACKSLASH == 0 && (c == SINGLE_QUOTE_BYTE || c == DOUBLE_QUOTE_BYTE)
    ensures c == SINGLE_QUOTE_BYTE ==> ArgArmOf(f, c) == SingleQuote && ArgFlags(f, c) == f ^ SINGLE_QUOTE
    ensures c == DOUBLE_QUOTE_BYTE ==> ArgArmOf(f, c) == DoubleQuote && ArgFlags(f, c) == f ^ DOUBLE_QUOTE
    ensures ArgFlags(ArgFlags(f, c), c) == f
  {
    var bit := if c == SINGLE_QUOTE_BYTE then SINGLE_QUOTE else DOUBLE_QUOTE;
    assert ArgFlags(f, c) == f ^ bit;
    assert (f ^ bit) & BACKSLASH == 0 && (f ^ bit) ^ bit == f;
  }

  /** A backslash raises the escape bit, and the byte after it is taken as it is and lowers the bit. */
  lemma EscapeTakesOneByte(f: bv8, c: byte)
    requires f & BACKSLASH == 0
    ensures ArgArmOf(f, BACKSLASH_BYTE) == Backslash && ArgFlags(f, BACKSLASH_BYTE) == f | BACKSLASH
    ensures ArgArmOf(f | BACKSLASH, c) == Escaped && ArgFlags(f | BACKSLASH, c) == f
  {
  }

  /**
   * Only a clear register separates: with a quote open, a `$` pending or
   * inside `$(`, no blank, `|`, `&`, `<` or `>` ends anything, and `|` also
   * needs the whitespace bit clear.  `collect` never raises that bit
   * (WhitespaceBitStaysDown), so there the `|` condition always holds and
   * `|` separates exactly where `&` does (PipeAndAmpersandAgree).
   */
  lemma SeparatorsNeedClearRegister(f: bv8, c: byte)
    ensures SeparatorArm(ArgArmOf(f, c)) ==> f & IS_VALID == 0
    ensures ArgArmOf(f, c) == Pipe ==> f & (255 ^ BACKSLASH) == 0
  {
  }

  /** No arm of the argument arm changes the whitespace bit. */
  lemma WhitespaceBitStaysDown(f: bv8, c: byte)
    ensures ArgFlags(f, c) & WHITESPACE == f & WHITESPACE
  {
  }

  /** With the whitespace bit down, `|` and `&` both separate exactly when the register is clear. */
  lemma PipeAndAmpersandAgree(f: bv8)
    requires f & WHITESPACE == 0
    ensures ArgArmOf(f, PIPE) == Pipe <==> f == 0
    ensures ArgArmOf(f, AMPERSAND) == Ampersand <==> f == 0
  {
  }

  /** Outside quotes and `$`, a `$` opens the `$` state. */
  lemma DollarOpens(f: bv8)
    requires f & BACKSLASH == 0 && f & PROCESS_VAL == 0
    ensures ArgArmOf(f, DOLLAR) == Dollar && ArgFlags(f, DOLLAR) & PROCESS_VAL == PROCESS_ONE
  {
  }

  /** `(` right after `$` enters `$(`. */
  lemma ParenAfterDollar(f: bv8)
    requires f & BACKSLASH == 0 && f & PROCESS_VAL == PROCESS_ONE
    ensures ArgArmOf(f, LPAREN) == OpenProcess && ArgFlags(f, LPAREN) & PROCESS_VAL == PROCESS_TWO
  {
  }

  /**
   * Anything else after `$`, even a second `$`, a `)` or a blank, clears
   * the `$` state; that byte itself never separates.
   */
  lemma DollarClears(f: bv8, c: byte)
    requires f & BACKSLASH == 0 && f & PROCESS_VAL == PROCESS_ONE
    requires c != BACKSLASH_BYTE && c != LPAREN && c != SINGLE_QUOTE_BYTE && c != DOUBLE_QUOTE_BYTE
    ensures ArgArmOf(f, c) == EndProcess && ArgFlags(f, c) == f & (255 ^ (PROCESS_ONE + PROCESS_TWO))
  {
  }

  /**
   * Inside `$(`, a `)` leaves it, and every other byte but a quote or a
   * backslash is kept without touching the register: `$(` does not nest.
   */
  lemma InsideSubstitution(f: bv8, c: byte)
    requires f & BACKSLASH == 0 && f & PROCESS_VAL == PROCESS_TWO
    requires c != BACKSLASH_BYTE && c != SINGLE_QUOTE_BYTE && c != DOUBLE_QUOTE_BYTE
    ensures c == RPAREN ==> ArgArmOf(f, c) == CloseProcess && ArgFlags(f, c) & PROCESS_VAL == 0
    ensures c != RPAREN ==> ArgArmOf(f, c) == Other && ArgFlags(f, c) == f
  {
  }

  /**
   * Bytes a double-quoted span may hold and leave the register as it is:
   * the quote bit is part of PROCESS_VAL, so even `$`, `(` and `)` are
   * ordinary there.
   */
  predicate Quotable(c: byte) {
    c != DOUBLE_QUOTE_BYTE && c != SINGLE_QUOTE_BYTE && c != BACKSLASH_BYTE
  }

  /** Registers with a quote open and nothing else: single, double, or a single quote inside double quotes. */
  predicate QuoteRegister(f: bv8) {
    f == SINGLE_QUOTE || f == DOUBLE_QUOTE || f == SINGLE_QUOTE + DOUBLE_QUOTE
  }

  /** Under an open quote a quotable byte takes the end-of-`$` arm, which keeps the register as it is. */
  lemma QuotedArm(f: bv8, c: byte)
    requires QuoteRegister(f) && Quotable(c)
    ensures ArgArmOf(f, c) == EndProcess && ArgFlags(f, c) == f
  {
  }

  /** Inside double quotes every quotable byte only moves the scan on. */
  lemma {:induction false} QuotedRun(args: seq<byte>, tr: seq<Scan>, lo: nat, hi: nat, a: nat, w: seq<seq<byte>>)
    requires IsTrace(args, tr) && lo <= hi <= |args|
    requires forall i | lo <= i < hi :: Quotable(args[i])
    requires tr[lo] == Scan(False, DOUBLE_QUOTE, lo, a, w, [], None, None, false, [], false, false, None)
    ensures tr[hi] == tr[lo].(index := hi)
    decreases hi
  {
    if hi > lo {
      QuotedRun(args, tr, lo, hi - 1, a, w);
      QuotedArm(DOUBLE_QUOTE, args[hi - 1]);
      assert tr[hi] == Step(args, tr[hi - 1], hi - 1);
    }
  }

  /** An opening double quote after blank-separated words starts a fresh argument with the quote bit up. */
  lemma OpenQuoteAt(args: seq<byte>, tr: seq<Scan>, n: nat)
    requires IsTrace(args, tr) && n < |args| && args[n] == DOUBLE_QUOTE_BYTE
    requires AllPlain(args[..n]) && NoSeparator(args[..n]) && (n == 0 || IsBlank(args[n - 1]))
    ensures tr[n + 1] == Scan(False, DOUBLE_QUOTE, n + 1, n, Split(args[..n]).finished, [], None, None, false, [], false, false, None)
  {
    PlainPrefix(args, tr, n);
    RunEmpty(args[..n]);
    OpeningQuote(args, tr[n], n);
    assert tr[n + 1] == Step(args, tr[n], n);
  }

  lemma OpeningQuote(args: seq<byte>, st: Scan, n: nat)
    requires n < |args| && args[n] == DOUBLE_QUOTE_BYTE && Bounds(st, n)
    requires st == Scan(False, 0, n, st.argStart, st.arguments, [], None, None, false, [], false, false, None)
    ensures Step(args, st, n) == st.(flags := DOUBLE_QUOTE, index := n + 1)
  {
    assert ArgArmOf(0, DOUBLE_QUOTE_BYTE) == DoubleQuote && ArgFlags(0, DOUBLE_QUOTE_BYTE) == DOUBLE_QUOTE;
    assert Step(args, st, n) == ArmStep(args, st, DoubleQuote);
  }

  /** The closing double quote lowers the bit. */
  lemma CloseQuoteAt(args: seq<byte>, tr: seq<Scan>, m: nat, a: nat, w: seq<seq<byte>>)
    requires IsTrace(args, tr) && m < |args| && args[m] == DOUBLE_QUOTE_BYTE && a <= m
    requires tr[m] == Scan(False, DOUBLE_QUOTE, m, a, w, [], None, None, false, [], false, false, None)
    ensures tr[m + 1] == Scan(False, 0, m + 1, a, w, [], None, None, false, [], false, false, None)
  {
    assert tr[m + 1] == Step(args, tr[m], m);
  }

  /** The scan after a double-quoted span `args[n..m + 1]` that follows blank-separated words. */
  lemma QuotedSpanAt(args: seq<byte>, tr: seq<Scan>, n: nat, m: nat)
    requires IsTrace(args, tr) && n < m < |args| && args[n] == DOUBLE_QUOTE_BYTE && args[m] == DOUBLE_QUOTE_BYTE
    requires AllPlain(args[..n]) && NoSeparator(args[..n]) && (n == 0 || IsBlank(args[n - 1]))
    requires forall i | n < i < m :: Quotable(args[i])
    ensures tr[m + 1] == Scan(False, 0, m + 1, n, Split(args[..n]).finished, [], None, None, false, [], false, false, None)
  {
    OpenQuoteAt(args, tr, n);
    var w := Split(args[..n]).finished;
    QuotedRun(args, tr, n + 1, m, n, w);
    CloseQuoteAt(args, tr, m, n, w);
  }

  /** Words `u`, then `q` between double quotes. */
  function QuotedAfter(u: seq<byte>, q: seq<byte>): seq<byte> {
    u + [DOUBLE_QUOTE_BYTE] + q + [DOUBLE_QUOTE_BYTE]
  }

  lemma QuotedLayout(u: seq<byte>, q: seq<byte>)
    requires AllPlain(u) && NoSeparator(u) && (u == [] || IsBlank(u[|u| - 1]))
    requires forall i | 0 <= i < |q| :: Quotable(q[i])
    ensures |QuotedAfter(u, q)| == |u| + |q| + 2
    ensures QuotedAfter(u, q)[..|u|] == u && QuotedAfter(u, q)[|u|..] == [DOUBLE_QUOTE_BYTE] + q + [DOUBLE_QUOTE_BYTE]
    ensures QuotedAfter(u, q)[|u|] == DOUBLE_QUOTE_BYTE && QuotedAfter(u, q)[|u| + 1 + |q|] == DOUBLE_QUOTE_BYTE
    ensures forall i | |u| < i < |u| + 1 + |q| :: Quotable(QuotedAfter(u, q)[i])
  {
    var args := QuotedAfter(u, q);
    assert args[..|u|] == u;
    assert args[|u|..] == [DOUBLE_QUOTE_BYTE] + q + [DOUBLE_QUOTE_BYTE];
    forall i | |u| < i < |u| + 1 + |q| ensures Quotable(args[i]) {
      assert args[i] == q[i - |u| - 1];
    }
  }

  /** The outcome of a statement that ends in a double-quoted span `args[n..]` after blank-separated words. */
  lemma QuotedParse(args: seq<byte>, n: nat)
    requires n + 1 < |args| && args[n] == DOUBLE_QUOTE_BYTE && args[|args| - 1] == DOUBLE_QUOTE_BYTE
    requires AllPlain(args[..n]) && NoSeparator(args[..n]) && (n == 0 || IsBlank(args[n - 1]))
    requires forall i | n < i < |args| - 1 :: Quotable(args[i])
    ensures Parse(args) == Parsed(Pipeline([Job(Split(args[..n]).finished + [args[n..]], false)], None, None), None)
  {
    var tr := TraceOf(args);
    QuotedSpanAt(args, tr, n, |args| - 1);
    var w := Split(args[..n]).finished;
    var st := Scan(False, 0, |args|, n, w, [], None, None, false, [], false, false, None);
    assert tr[|args|] == st;
    assert End(st) == st;
    assert Flush(args, st) == Parsed(Pipeline([] + [Job(w + [args[n..|args|]], false)], None, None), None);
    assert args[n..|args|] == args[n..];
    ParseOfTrace(args, tr);
  }

  /**
   * A double-quoted argument after blank-separated words is one argument,
   * quotes included, whatever blanks, `|`, `&`, `<` or `>` it holds.
   */
  lemma QuotedArgument(u: seq<byte>, q: seq<byte>)
    requires AllPlain(u) && NoSeparator(u) && (u == [] || IsBlank(u[|u| - 1]))
    requires forall i | 0 <= i < |q| :: Quotable(q[i])
    ensures Parse(QuotedAfter(u, q))
         == Parsed(Pipeline([Job(Words(u) + [[DOUBLE_QUOTE_BYTE] + q + [DOUBLE_QUOTE_BYTE]], false)], None, None), None)
  {
    QuotedLayout(u, q);
    QuotedParse(QuotedAfter(u, q), |u|);
    RunEmpty(u);
    assert Split(u).finished == Words(u);
  }
}
