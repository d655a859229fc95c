/**
 * Statements without quotes, escapes, `$`, or redirections: `collect`
 * splits them at `|` and `&` into jobs and each job into its words, with
 * the source's two edge cases closing a job (an empty job gets one empty
 * argument, and a tab right before the separator adds one).
 */
module PlainStatements {
  import opened Bytes
  import opened ScanFlags
  import opened Splitter
  import opened WordRuns

  /** Bytes that neither quote, escape, open `$`, nor redirect. */
  predicate Plain(c: byte) {
    c != BACKSLASH_BYTE && c != DOLLAR && c != SINGLE_QUOTE_BYTE && c != DOUBLE_QUOTE_BYTE && c != LT && c != GT
  }

  predicate AllPlain(s: seq<byte>) {
    forall i | 0 <= i < |s| :: Plain(s[i])
  }

  /** The job separators of the argument arm. */
  predicate IsSeparator(c: byte) {
    c == PIPE || c == AMPERSAND
  }

  /** With a clear register a plain byte is a blank, a separator, or ordinary, and the register stays clear. */
  lemma PlainArm(c: byte)
    requires Plain(c)
    ensures ArgArmOf(0, c) == if IsBlank(c) then Blank else if c == PIPE then Pipe else if c == AMPERSAND then Ampersand else EndProcess
    ensures ArgFlags(0, c) == 0
  {
  }

  predicate EndsWith(s: seq<byte>, c: byte) {
    |s| > 0 && s[|s| - 1] == c
  }

  /**
   * The arguments of a job a separator closes: its words, one empty
   * argument when it has none, and an extra empty one after a trailing tab.
   */
  function JobArgs(piece: seq<byte>): seq<seq<byte>> {
    if Words(piece) == [] then [[]]
    else if EndsWith(piece, TAB) then Words(piece) + [[]]
    else Words(piece)
  }

  /** The jobs closed so far and the text after the last separator. */
  datatype Cuts = Cuts(closed: seq<Job>, piece: seq<byte>)

  function CutPush(k: Cuts, c: byte): Cuts {
    if IsSeparator(c) then Cuts(k.closed + [Job(JobArgs(k.piece), c == AMPERSAND)], [])
    else Cuts(k.closed, k.piece + [c])
  }

  function Cut(s: seq<byte>): Cuts
    decreases |s|
  {
    if s == [] then Cuts([], []) else CutPush(Cut(s[..|s| - 1]), s[|s| - 1])
  }

  /** The jobs of a plain statement: the closed ones, then the last piece when it has a word. */
  function PlainJobs(s: seq<byte>): seq<Job> {
    var k := Cut(s);
    k.closed + if Words(k.piece) != [] then [Job(Words(k.piece), false)] else []
  }

  /**
   * The locals of `collect` after the plain prefix `args[..n]` whose cuts
   * are `k`: still in the argument arm with a clear register and no
   * redirection or error, the closed jobs of the prefix, and the words of
   * the last piece split into the arguments collected and the span pending
   * from `argStart`.
   */
  predicate PlainAt(args: seq<byte>, n: nat, k: Cuts, st: Scan)
    requires n <= |args|
  {
    && st == Scan(False, 0, n, st.argStart, st.arguments, k.closed, None, None, false, [], false, false, None)
    && |k.piece| <= n && k.piece == args[n - |k.piece|..n]
    && n - |k.piece| <= st.argStart <= n
    && Split(k.piece) == Runs(st.arguments, args[st.argStart..n])
  }

  lemma CutSnoc(args: seq<byte>, n: nat)
    requires n < |args|
    ensures Cut(args[..n + 1]) == CutPush(Cut(args[..n]), args[n])
  {
    assert args[..n + 1][..n] == args[..n];
  }

  /** An ordinary byte extends the pending span. */
  lemma OrdinaryStep(args: seq<byte>, n: nat, k: Cuts, st: Scan)
    requires n < |args| && !IsBlank(args[n]) && !IsSeparator(args[n])
    requires PlainAt(args, n, k, st)
    ensures PlainAt(args, n + 1, CutPush(k, args[n]), st.(index := n + 1))
  {
    var c := args[n];
    SplitSnoc(k.piece, c);
    assert args[n + 1 - |k.piece| - 1..n + 1] == args[n - |k.piece|..n] + [c];
    assert args[st.argStart..n + 1] == args[st.argStart..n] + [c];
  }

  /** The argument arm at a blank. */
  function BlankUpdate(args: seq<byte>, st: Scan): Scan
    requires st.argStart <= st.index <= |args|
  {
    if st.argStart != st.index then
      st.(arguments := st.arguments + [args[st.argStart..st.index]], argStart := st.index + 1, index := st.index + 1)
    else
      st.(argStart := st.argStart + 1, index := st.index + 1)
  }

  /** A blank finishes the pending span, if any. */
  lemma BlankStep(args: seq<byte>, n: nat, k: Cuts, st: Scan)
    requires n < |args| && IsBlank(args[n])
    requires PlainAt(args, n, k, st)
    ensures PlainAt(args, n + 1, CutPush(k, args[n]), BlankUpdate(args, st))
  {
    var c := args[n];
    SplitSnoc(k.piece, c);
    assert args[n + 1 - |k.piece| - 1..n + 1] == args[n - |k.piece|..n] + [c];
  }

  /** The job JobFound closes is the reference job of the piece. */
  lemma ClosedArgs(args: seq<byte>, n: nat, k: Cuts, st: Scan, background: bool)
    requires n < |args| && PlainAt(args, n, k, st)
    ensures JobFound(args, st, background).jobs == k.closed + [Job(JobArgs(k.piece), background)]
  {
    var piece := k.piece;
    var pend := args[st.argStart..n];
    RunEmpty(piece);
    assert Words(piece) == Close(Runs(st.arguments, pend));
    if st.arguments == [] {
      if pend != [] {
        assert !EndsWith(piece, TAB);
        assert [] + [pend] == [pend];
        assert JobArgs(piece) == [pend];
      }
    } else {
      assert piece != [];
      assert args[n - 1] == piece[|piece| - 1];
    }
  }

  /** A separator closes the job and starts an empty piece. */
  lemma SeparatorStep(args: seq<byte>, n: nat, k: Cuts, st: Scan)
    requires n < |args| && IsSeparator(args[n])
    requires PlainAt(args, n, k, st)
    ensures PlainAt(args, n + 1, CutPush(k, args[n]), JobFound(args, st, args[n] == AMPERSAND).(index := n + 1))
  {
    ClosedArgs(args, n, k, st, args[n] == AMPERSAND);
  }

  /** In the argument arm a step is the update of the arm the byte selects. */
  lemma ArgumentArmStep(args: seq<byte>, st: Scan, n: nat)
    requires n < |args| && Bounds(st, n) && st.mode == False && !st.done
    ensures Step(args, st, n) == ArmStep(args, st, ArgArmOf(st.flags, args[n]))
  {
  }

  /** In a plain state the next plain byte goes to the argument arm, in the arm its class says. */
  lemma PlainStep(args: seq<byte>, n: nat, k: Cuts, st: Scan)
    requires n < |args| && Plain(args[n]) && PlainAt(args, n, k, st)
    ensures PlainAt(args, n + 1, CutPush(k, args[n]), Step(args, st, n))
  {
    var c := args[n];
    PlainArm(c);
    ArgumentArmStep(args, st, n);
    if IsBlank(c) {
      assert ArmStep(args, st, ArgArm.Blank) == BlankUpdate(args, st);
      BlankStep(args, n, k, st);
    } else if IsSeparator(c) {
      assert ArmStep(args, st, ArgArmOf(0, c)) == JobFound(args, st, c == AMPERSAND).(index := n + 1);
      SeparatorStep(args, n, k, st);
    } else {
      assert ArmStep(args, st, EndProcess) == st.(index := n + 1);
      OrdinaryStep(args, n, k, st);
    }
  }

  /** The scan of a plain prefix. */
  lemma {:induction false} PlainStates(args: seq<byte>, n: nat)
    requires n <= |args| && AllPlain(args[..n])
    ensures PlainAt(args, n, Cut(args[..n]), States(args, n))
    decreases n
  {
    if n > 0 {
      var p := args[..n - 1];
      assert AllPlain(p) by {
        forall i | 0 <= i < |p| ensures Plain(p[i]) {
          assert p[i] == args[..n][i];
        }
      }
      assert Plain(args[n - 1]) by {
        assert args[..n][n - 1] == args[n - 1];
      }
      PlainStates(args, n - 1);
      var k := Cut(args[..n - 1]);
      var st := States(args, n - 1);
      PlainStep(args, n - 1, k, st);
      CutSnoc(args, n - 1);
      assert Cut(args[..n]) == CutPush(k, args[n - 1]);
      assert States(args, n) == Step(args, st, n - 1);
    }
  }

  /** `collect` on a plain statement pushes its reference jobs, no redirection, and no error. */
  lemma PlainParse(args: seq<byte>)
    requires AllPlain(args)
    ensures Parse(args) == Parsed(Pipeline(PlainJobs(args), None, None), None)
  {
    assert args[..|args|] == args;
    PlainStates(args, |args|);
    var st := States(args, |args|);
    var piece := Cut(args).piece;
    RunEmpty(piece);
    assert Words(piece) == if st.argStart != st.index then st.arguments + [args[st.argStart..st.index]] else st.arguments;
  }

  predicate NoSeparator(s: seq<byte>) {
    forall i | 0 <= i < |s| :: !IsSeparator(s[i])
  }

  lemma {:induction false} CutOfPiece(s: seq<byte>)
    requires NoSeparator(s)
    ensures Cut(s) == Cuts([], s)
    decreases |s|
  {
    if s != [] {
      var p := s[..|s| - 1];
      assert NoSeparator(p) by {
        forall i | 0 <= i < |p| ensures !IsSeparator(p[i]) {
          assert p[i] == s[i];
        }
      }
      CutOfPiece(p);
      assert p + [s[|s| - 1]] == s;
    }
  }

  /** Without `|` or `&` a plain statement is one job of its words, or none when it is blank. */
  lemma SingleJob(args: seq<byte>)
    requires AllPlain(args) && NoSeparator(args)
    ensures Parse(args).pipeline.jobs == if Words(args) == [] then [] else [Job(Words(args), false)]
    ensures Parse(args).pipeline.stdin == None && Parse(args).pipeline.stdout == None && Parse(args).error == None
  {
    PlainParse(args);
    CutOfPiece(args);
  }

  /** After a separator the cuts of `v` follow those of `u` and the separator. */
  lemma {:induction false} CutAfter(u: seq<byte>, c: byte, v: seq<byte>)
    requires IsSeparator(c)
    ensures Cut(u + [c] + v) == Cuts(Cut(u + [c]).closed + Cut(v).closed, Cut(v).piece)
    decreases |v|
  {
    var s := u + [c] + v;
    if v == [] {
      assert s == u + [c];
    } else {
      var v' := v[..|v| - 1];
      assert s[..|s| - 1] == u + [c] + v';
      CutAfter(u, c, v');
    }
  }

  lemma PlainAround(u: seq<byte>, c: byte, v: seq<byte>)
    requires AllPlain(u) && Plain(c) && AllPlain(v)
    ensures AllPlain(u + [c] + v)
  {
    var s := u + [c] + v;
    forall i | 0 <= i < |s| ensures Plain(s[i]) {
      if i < |u| {
        assert s[i] == u[i];
      } else if i > |u| {
        assert s[i] == v[i - |u| - 1];
      }
    }
  }

  /** The cuts around the first separator: the job it closes, then the cuts of the rest. */
  lemma CutsAround(u: seq<byte>, c: byte, v: seq<byte>)
    requires NoSeparator(u) && IsSeparator(c)
    ensures Cut(u + [c] + v) == Cuts([Job(JobArgs(u), c == AMPERSAND)] + Cut(v).closed, Cut(v).piece)
  {
    CutOfPiece(u);
    CutAfter(u, c, v);
    assert Cut(u + [c]) == CutPush(Cut(u), c) by {
      assert (u + [c])[..|u|] == u;
    }
  }

  /**
   * A separator ends the job before it, running in the background exactly
   * when the separator is `&`, and the scan goes on: the jobs after it are
   * those of the rest on its own.
   */
  lemma SeparatorSplits(u: seq<byte>, c: byte, v: seq<byte>)
    requires AllPlain(u) && NoSeparator(u) && IsSeparator(c) && AllPlain(v)
    ensures Parse(u + [c] + v).pipeline.jobs == [Job(JobArgs(u), c == AMPERSAND)] + Parse(v).pipeline.jobs
  {
    var s := u + [c] + v;
    PlainAround(u, c, v);
    PlainParse(s);
    PlainParse(v);
    CutsAround(u, c, v);
    var j := Job(JobArgs(u), c == AMPERSAND);
    var k := Cut(v);
    var last: seq<Job> := if Words(k.piece) != [] then [Job(Words(k.piece), false)] else [];
    assert PlainJobs(s) == [j] + k.closed + last;
    assert PlainJobs(v) == k.closed + last;
  }

  /** The job a separator closes right after a tab ends in an empty argument; after a space it does not. */
  lemma TrailingBlankBeforeSeparator(u: seq<byte>)
    requires Words(u) != []
    ensures JobArgs(u + [TAB]) == Words(u) + [[]]
    ensures JobArgs(u + [SPACE]) == Words(u)
    ensures !EndsWith(u, TAB) ==> JobArgs(u) == Words(u)
  {
    WordsSnocBlank(u, TAB);
    WordsSnocBlank(u, SPACE);
  }

  /**
   * Two statements that differ only in the blanks between their words give
   * the same jobs: `ls -al dir` and `ls \t -al\t\tdir` alike.
   */
  lemma BlankRunsCollapse(u: seq<byte>, bs1: seq<byte>, bs2: seq<byte>, v: seq<byte>)
    requires AllPlain(u) && NoSeparator(u) && AllPlain(v) && NoSeparator(v)
    requires bs1 != [] && AllBlank(bs1) && bs2 != [] && AllBlank(bs2)
    ensures Parse(u + bs1 + v).pipeline.jobs == Parse(u + bs2 + v).pipeline.jobs
    ensures Parse(u + bs1 + v).pipeline.jobs == [Job(Words(u) + Words(v), false)] || (Words(u) + Words(v) == [] && Parse(u + bs1 + v).pipeline.jobs == [])
  {
    Spaced(u, bs1, v);
    Spaced(u, bs2, v);
    BlankRunSeparates(u, bs1, v);
    BlankRunSeparates(u, bs2, v);
  }

  lemma Spaced(u: seq<byte>, bs: seq<byte>, v: seq<byte>)
    requires AllPlain(u) && NoSeparator(u) && AllPlain(v) && NoSeparator(v) && AllBlank(bs)
    ensures Parse(u + bs + v).pipeline.jobs == if Words(u + bs + v) == [] then [] else [Job(Words(u + bs + v), false)]
  {
    var s := u + bs + v;
    forall i | 0 <= i < |s| ensures Plain(s[i]) && !IsSeparator(s[i]) {
      if i < |u| {
        assert s[i] == u[i];
      } else if i < |u| + |bs| {
        assert s[i] == bs[i - |u|];
      } else {
        assert s[i] == v[i - |u| - |bs|];
      }
    }
    SingleJob(s);
  }

  /** `echo hello world&` and `echo hello world &` are both one background job. */
  lemma BackgroundJob(u: seq<byte>)
    requires AllPlain(u) && NoSeparator(u) && Words(u) != [] && !EndsWith(u, TAB)
    ensures Parse(u + [AMPERSAND]).pipeline.jobs == [Job(Words(u), true)]
    ensures Parse(u + [SPACE] + [AMPERSAND]).pipeline.jobs == [Job(Words(u), true)]
  {
    TrailingBlankBeforeSeparator(u);
    assert Parse([]).pipeline.jobs == [];
    SeparatorSplits(u, AMPERSAND, []);
    assert u + [AMPERSAND] + [] == u + [AMPERSAND];
    var u' := u + [SPACE];
    assert AllPlain(u') by {
      forall i | 0 <= i < |u'| ensures Plain(u'[i]) {
        if i < |u| {
          assert u'[i] == u[i];
        }
      }
    }
    assert NoSeparator(u') by {
      forall i | 0 <= i < |u'| ensures !IsSeparator(u'[i]) {
        if i < |u| {
          assert u'[i] == u[i];
        }
      }
    }
    SeparatorSplits(u', AMPERSAND, []);
    assert u' + [AMPERSAND] + [] == u + [SPACE] + [AMPERSAND];
  }

  /** The trace after a plain prefix without separators: its finished words and its pending span. */
  lemma PlainPrefix(args: seq<byte>, tr: seq<Scan>, m: nat)
    requires IsTrace(args, tr) && m <= |args| && AllPlain(args[..m]) && NoSeparator(args[..m])
    ensures tr[m] == Scan(False, 0, m, tr[m].argStart, Split(args[..m]).finished, [], None, None, false, [], false, false, None)
    ensures tr[m].argStart <= m && Split(args[..m]).run == args[tr[m].argStart..m]
  {
    PlainStates(args, m);
    TraceIsStates(args, tr, m);
    CutOfPiece(args[..m]);
  }

  /** The trace after any plain prefix: the jobs it closed, the finished words of its last piece, and its pending span. */
  lemma PlainTrace(args: seq<byte>, tr: seq<Scan>, m: nat)
    requires IsTrace(args, tr) && m <= |args| && AllPlain(args[..m])
    ensures tr[m] == Scan(False, 0, m, tr[m].argStart, Split(Cut(args[..m]).piece).finished, Cut(args[..m]).closed,
                          None, None, false, [], false, false, None)
  {
    PlainStates(args, m);
    TraceIsStates(args, tr, m);
  }
}
