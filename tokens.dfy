/**
 * Arguments as the argument arm of `collect` sees them
 * (src/parser/pipelines.rs:131-159): the register a run of bytes leaves
 * behind, runs that never take a separating arm, and the shapes of the
 * quoted, escaped and `$(` arguments built from them.
 */
module Tokens {
  import opened Bytes
  import opened ScanFlags
  import opened Splitter
  import opened WordRuns
  import opened PlainStatements
  import opened Quoting

  /** The register after the argument arm has looked at every byte of `s`, starting from `f`. */
  function Reg(f: bv8, s: seq<byte>): bv8
    decreases |s|
  {
    if s == [] then f else Reg(ArgFlags(f, s[0]), s[1..])
  }

  /** Scanned from register `f`, no byte of `s` takes an arm that ends an argument, a job or the argument arm. */
  predicate Unbroken(f: bv8, s: seq<byte>)
    decreases |s|
  {
    s == [] || (!SeparatorArm(ArgArmOf(f, s[0])) && Unbroken(ArgFlags(f, s[0]), s[1..]))
  }

  /** One argument that can be followed by blanks: a non-empty unbroken run that leaves the register clear. */
  predicate Token(s: seq<byte>) {
    s != [] && Unbroken(0, s) && Reg(0, s) == 0
  }

  /** Two runs in a row are unbroken exactly when each is, the second from the register the first leaves. */
  lemma {:induction false} Concat(f: bv8, s: seq<byte>, t: seq<byte>)
    ensures Unbroken(f, s + t) <==> Unbroken(f, s) && Unbroken(Reg(f, s), t)
    ensures Reg(f, s + t) == Reg(Reg(f, s), t)
    decreases |s|
  {
    if s == [] {
      assert s + t == t;
    } else {
      assert (s + t)[0] == s[0] && (s + t)[1..] == s[1..] + t;
      Concat(ArgFlags(f, s[0]), s[1..], t);
    }
  }

  /** A single byte: its arm decides both facts. */
  lemma OneByte(f: bv8, c: byte)
    ensures Reg(f, [c]) == ArgFlags(f, c)
    ensures Unbroken(f, [c]) <==> !SeparatorArm(ArgArmOf(f, c))
  {
    assert [c][1..] == [];
  }

  lemma RegSnoc(f: bv8, s: seq<byte>, c: byte)
    ensures Reg(f, s + [c]) == ArgFlags(Reg(f, s), c)
  {
    Concat(f, s, [c]);
    OneByte(Reg(f, s), c);
  }

  lemma UnbrokenSnoc(f: bv8, s: seq<byte>, c: byte)
    requires Unbroken(f, s) && !SeparatorArm(ArgArmOf(Reg(f, s), c))
    ensures Unbroken(f, s + [c])
  {
    Concat(f, s, [c]);
    OneByte(Reg(f, s), c);
  }

  /** Tokens glued together are one token: `one'  'two` is a single argument. */
  lemma TokenConcat(s: seq<byte>, t: seq<byte>)
    requires Token(s) && Token(t)
    ensures Token(s + t)
  {
    Concat(0, s, t);
  }

  /** A run of plain bytes that are neither blanks nor `|`/`&` keeps the register clear. */
  lemma {:induction false} PlainRun(w: seq<byte>)
    requires AllPlain(w) && NoSeparator(w) && BlankFree(w)
    ensures Unbroken(0, w) && Reg(0, w) == 0
    decreases |w|
  {
    if w != [] {
      var w' := w[1..];
      assert AllPlain(w') && NoSeparator(w') && BlankFree(w') by {
        forall i | 0 <= i < |w'| ensures w'[i] == w[i + 1] { }
      }
      PlainRun(w');
      PlainArm(w[0]);
    }
  }

  /** A plain word is a token. */
  lemma WordToken(w: seq<byte>)
    requires w != [] && AllPlain(w) && NoSeparator(w) && BlankFree(w)
    ensures Token(w)
  {
    PlainRun(w);
  }

  /** Under an open quote, quotable bytes neither separate nor touch the register. */
  lemma {:induction false} QuotedBytes(f: bv8, q: seq<byte>)
    requires QuoteRegister(f) && forall i | 0 <= i < |q| :: Quotable(q[i])
    ensures Unbroken(f, q) && Reg(f, q) == f
    decreases |q|
  {
    if q != [] {
      assert forall i | 0 <= i < |q[1..]| :: Quotable(q[1..][i]) by {
        forall i | 0 <= i < |q[1..]| ensures q[1..][i] == q[i + 1] { }
      }
      QuotedBytes(f, q[1..]);
      QuotedArm(f, q[0]);
    }
  }

  /** Appending `q` under an open quote: still unbroken, register unchanged. */
  lemma QuotedTail(f: bv8, s: seq<byte>, q: seq<byte>)
    requires Unbroken(f, s) && QuoteRegister(Reg(f, s)) && forall i | 0 <= i < |q| :: Quotable(q[i])
    ensures Unbroken(f, s + q) && Reg(f, s + q) == Reg(f, s)
  {
    QuotedBytes(Reg(f, s), q);
    Concat(f, s, q);
  }

  /** Appending one quote byte toggles its bit and never separates. */
  lemma QuoteTail(f: bv8, s: seq<byte>, c: byte)
    requires Unbroken(f, s) && Reg(f, s) & BACKSLASH == 0 && (c == SINGLE_QUOTE_BYTE || c == DOUBLE_QUOTE_BYTE)
    ensures Unbroken(f, s + [c])
    ensures Reg(f, s + [c]) == Reg(f, s) ^ (if c == SINGLE_QUOTE_BYTE then SINGLE_QUOTE else DOUBLE_QUOTE)
  {
    QuoteToggles(Reg(f, s), c);
    RegSnoc(f, s, c);
    UnbrokenSnoc(f, s, c);
  }

  /** `'q'` and `"q"` are tokens when `q` holds no quote and no backslash, whatever blanks, `|`, `&`, `<`, `>` or `$(` it holds. */
  lemma QuotedToken(qc: byte, q: seq<byte>)
    requires qc == SINGLE_QUOTE_BYTE || qc == DOUBLE_QUOTE_BYTE
    requires forall i | 0 <= i < |q| :: Quotable(q[i])
    ensures Token([qc] + q + [qc])
  {
    var bit := if qc == SINGLE_QUOTE_BYTE then SINGLE_QUOTE else DOUBLE_QUOTE;
    QuoteTail(0, [], qc);
    assert [] + [qc] == [qc];
    QuotedTail(0, [qc], q);
    QuoteTail(0, [qc] + q, qc);
    assert bit ^ bit == 0;
  }

  /** Paired single quotes inside double quotes: `"q1'q2'q3"` is one token. */
  lemma ApostrophesInDoubleQuotes(q1: seq<byte>, q2: seq<byte>, q3: seq<byte>)
    requires forall i | 0 <= i < |q1| :: Quotable(q1[i])
    requires forall i | 0 <= i < |q2| :: Quotable(q2[i])
    requires forall i | 0 <= i < |q3| :: Quotable(q3[i])
    ensures Token([DOUBLE_QUOTE_BYTE] + q1 + [SINGLE_QUOTE_BYTE] + q2 + [SINGLE_QUOTE_BYTE] + q3 + [DOUBLE_QUOTE_BYTE])
  {
    var s0 := [DOUBLE_QUOTE_BYTE];
    QuoteTail(0, [], DOUBLE_QUOTE_BYTE);
    assert [] + s0 == s0;
    QuotedTail(0, s0, q1);
    var s1 := s0 + q1 + [SINGLE_QUOTE_BYTE];
    QuoteTail(0, s0 + q1, SINGLE_QUOTE_BYTE);
    QuotedTail(0, s1, q2);
    var s2 := s1 + q2 + [SINGLE_QUOTE_BYTE];
    QuoteTail(0, s1 + q2, SINGLE_QUOTE_BYTE);
    QuotedTail(0, s2, q3);
    QuoteTail(0, s2 + q3, DOUBLE_QUOTE_BYTE);
  }

  /**
   * A lone single quote inside double quotes: `"q1'q2"` never separates
   * but leaves the single-quote bit up, so blanks after it stay in the
   * argument.
   */
  lemma ApostropheInDoubleQuotes(q1: seq<byte>, q2: seq<byte>)
    requires forall i | 0 <= i < |q1| :: Quotable(q1[i])
    requires forall i | 0 <= i < |q2| :: Quotable(q2[i])
    ensures var s := [DOUBLE_QUOTE_BYTE] + q1 + [SINGLE_QUOTE_BYTE] + q2 + [DOUBLE_QUOTE_BYTE];
      Unbroken(0, s) && Reg(0, s) == SINGLE_QUOTE && ArgArmOf(Reg(0, s), SPACE) == EndProcess
  {
    assert ArgArmOf(SINGLE_QUOTE, SPACE) == EndProcess;
    var s0 := [DOUBLE_QUOTE_BYTE];
    QuoteTail(0, [], DOUBLE_QUOTE_BYTE);
    assert [] + s0 == s0;
    QuotedTail(0, s0, q1);
    var s1 := s0 + q1 + [SINGLE_QUOTE_BYTE];
    QuoteTail(0, s0 + q1, SINGLE_QUOTE_BYTE);
    QuotedTail(0, s1, q2);
    QuoteTail(0, s1 + q2, DOUBLE_QUOTE_BYTE);
  }

  /**
   * A backslash before the closing single quote escapes it: `'q"\'` never
   * separates and leaves both quote bits up, so it can only end a statement
   * as one argument.
   */
  lemma EscapedClosingQuote(q: seq<byte>)
    requires forall i | 0 <= i < |q| :: Quotable(q[i])
    ensures var s := [SINGLE_QUOTE_BYTE] + q + [DOUBLE_QUOTE_BYTE, BACKSLASH_BYTE, SINGLE_QUOTE_BYTE];
      Unbroken(0, s) && Reg(0, s) == SINGLE_QUOTE + DOUBLE_QUOTE
  {
    var s0 := [SINGLE_QUOTE_BYTE];
    QuoteTail(0, [], SINGLE_QUOTE_BYTE);
    assert [] + s0 == s0;
    QuotedTail(0, s0, q);
    var s1 := s0 + q + [DOUBLE_QUOTE_BYTE];
    QuoteTail(0, s0 + q, DOUBLE_QUOTE_BYTE);
    EscapeTail(0, s1, SINGLE_QUOTE_BYTE);
    ThreeBytes(s0 + q, DOUBLE_QUOTE_BYTE, BACKSLASH_BYTE, SINGLE_QUOTE_BYTE);
  }

  /** A backslash and the byte after it never separate, and leave the register as it was. */
  lemma EscapeTail(f: bv8, s: seq<byte>, c: byte)
    requires Unbroken(f, s) && Reg(f, s) & BACKSLASH == 0
    ensures Unbroken(f, s + [BACKSLASH_BYTE] + [c]) && Reg(f, s + [BACKSLASH_BYTE] + [c]) == Reg(f, s)
  {
    EscapeTakesOneByte(Reg(f, s), c);
    RegSnoc(f, s, BACKSLASH_BYTE);
    UnbrokenSnoc(f, s, BACKSLASH_BYTE);
    RegSnoc(f, s + [BACKSLASH_BYTE], c);
    UnbrokenSnoc(f, s + [BACKSLASH_BYTE], c);
  }

  /** Regroups the last three bytes of the escaped closing quote; used only by `EscapedClosingQuote`. */
  lemma ThreeBytes(s: seq<byte>, a: byte, b: byte, c: byte)
    ensures s + [a] + [b] + [c] == s + [a, b, c]
  {
  }

  /** Inside `$(`, bytes other than `)`, quotes and backslashes neither separate nor touch the register. */
  lemma {:induction false} SubstitutionBytes(q: seq<byte>)
    requires forall i | 0 <= i < |q| :: Quotable(q[i]) && q[i] != RPAREN
    ensures Unbroken(PROCESS_TWO, q) && Reg(PROCESS_TWO, q) == PROCESS_TWO
    decreases |q|
  {
    if q != [] {
      assert forall i | 0 <= i < |q[1..]| :: Quotable(q[1..][i]) && q[1..][i] != RPAREN by {
        forall i | 0 <= i < |q[1..]| ensures q[1..][i] == q[i + 1] { }
      }
      SubstitutionBytes(q[1..]);
      InsideSubstitution(PROCESS_TWO, q[0]);
    }
  }

  /** `$(q)` is a token when `q` holds no `)`, quote or backslash, whatever blanks or `|` it holds. */
  lemma SubstitutionToken(q: seq<byte>)
    requires forall i | 0 <= i < |q| :: Quotable(q[i]) && q[i] != RPAREN
    ensures Token([DOLLAR, LPAREN] + q + [RPAREN])
  {
    assert ArgArmOf(0, DOLLAR) == Dollar && ArgFlags(0, DOLLAR) == PROCESS_ONE;
    RegSnoc(0, [], DOLLAR);
    UnbrokenSnoc(0, [], DOLLAR);
    assert [] + [DOLLAR] == [DOLLAR];
    assert ArgArmOf(PROCESS_ONE, LPAREN) == OpenProcess && ArgFlags(PROCESS_ONE, LPAREN) == PROCESS_TWO;
    RegSnoc(0, [DOLLAR], LPAREN);
    UnbrokenSnoc(0, [DOLLAR], LPAREN);
    assert [DOLLAR] + [LPAREN] == [DOLLAR, LPAREN];
    SubstitutionBytes(q);
    Concat(0, [DOLLAR, LPAREN], q);
    assert ArgArmOf(PROCESS_TWO, RPAREN) == CloseProcess && ArgFlags(PROCESS_TWO, RPAREN) == 0;
    RegSnoc(0, [DOLLAR, LPAREN] + q, RPAREN);
    UnbrokenSnoc(0, [DOLLAR, LPAREN] + q, RPAREN);
  }
}
