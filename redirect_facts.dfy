/**
 * What `collect` makes of statements with redirections: whole statements
 * of a given shape and the pipeline they produce, proved from the phases of
 * the file name loops.
 */
module RedirectionFacts {
  import opened Bytes
  import opened Splitter
  import opened WordRuns
  import opened PlainStatements
  import opened Redirections

  /**
   * `cmd > name` and `cmd >> name`: the words before `>` make the job, the
   * byte after `>` is dropped unless it is a second `>`, which asks to
   * append, and the name is read after any blanks.
   */
  lemma OutputRedirect(u: seq<byte>, p: byte, b: seq<byte>, f: seq<byte>, t: seq<byte>)
    requires AllPlain(u)
    requires AllSkippable(b) && f != [] && AllName(f) && Tail(t, Stdout)
    ensures Parse(u + [GT, p] + (b + f + t)) == Parsed(Pipeline(JobsBefore(u), None, Some(Redirection(f, p == GT))), None)
  {
    var args := u + [GT, p] + (b + f + t);
    var tr := TraceOf(args);
    var m := |u|;
    assert args[..m] == u;
    assert args[m] == GT && args[m + 1] == p;
    assert At(args, m + 2, b + f + t) by {
      assert args[m + 2..] == b + f + t;
    }
    var w := Prefix(u);
    EnterArm(args, tr, m);
    PeekAt(args, tr, m + 1, m, w, None, None);
    var mode := if p == GT then StdoutAppend else Stdout;
    NameArgument(args, tr, m + 2, b, f, t);
    ParseAfterName(args, tr, mode, m, w, None, None, f, t != []);
  }

  /** `cmd < name`: the words before `<` make the job and the name is standard input. */
  lemma InputRedirect(u: seq<byte>, b: seq<byte>, f: seq<byte>, t: seq<byte>)
    requires AllPlain(u)
    requires AllSkippable(b) && f != [] && AllName(f) && Tail(t, Stdin)
    ensures Parse(u + [LT] + (b + f + t)) == Parsed(Pipeline(JobsBefore(u), Some(Redirection(f, false)), None), None)
  {
    var args := u + [LT] + (b + f + t);
    var tr := TraceOf(args);
    var m := |u|;
    assert args[..m] == u;
    assert args[m] == LT;
    assert At(args, m + 1, b + f + t) by {
      assert args[m + 1..] == b + f + t;
    }
    var w := Prefix(u);
    EnterArm(args, tr, m);
    NameArgument(args, tr, m + 1, b, f, t);
    ParseAfterName(args, tr, Stdin, m, w, None, None, f, t != []);
  }

  /** The scan of `u < in >` laid out in `args`, up to the start of the output name. */
  lemma InputThenOutputPrefix(args: seq<byte>, tr: seq<Scan>, m: nat, b1: seq<byte>, f1: seq<byte>, g: seq<byte>, p: byte)
    requires IsTrace(args, tr) && m + 1 < |args| && AllPlain(args[..m])
    requires AllSkippable(b1) && f1 != [] && AllName(f1) && g != [] && Tail(g, Stdin)
    requires args[m] == LT && At(args, m + 1, b1 + f1 + g)
    requires m + 2 + |b1 + f1 + g| < |args| && args[m + 1 + |b1 + f1 + g|] == GT && args[m + 2 + |b1 + f1 + g|] == p
    ensures tr[m + 3 + |b1 + f1 + g|]
      == ArmState(if p == GT then StdoutAppend else Stdout, m, Prefix(args[..m]), Some(Redirection(f1, false)), None, false)
  {
    var hi := m + 1 + |b1 + f1 + g|;
    var w := Prefix(args[..m]);
    EnterArm(args, tr, m);
    NameArgument(args, tr, m + 1, b1, f1, g);
    SwitchToOutput(args, tr, hi, m, w, f1);
    PeekAt(args, tr, hi + 1, m, w, Some(Redirection(f1, false)), None);
  }

  /** The scan of `u < in > out` laid out in `args`. */
  lemma InputThenOutputAt(args: seq<byte>, m: nat, b1: seq<byte>, f1: seq<byte>, g: seq<byte>, p: byte, b2: seq<byte>, f2: seq<byte>, t: seq<byte>)
    requires m + 1 < |args| && AllPlain(args[..m])
    requires AllSkippable(b1) && f1 != [] && AllName(f1) && g != [] && Tail(g, Stdin)
    requires AllSkippable(b2) && f2 != [] && AllName(f2) && Tail(t, Stdout)
    requires args[m] == LT && At(args, m + 1, b1 + f1 + g)
    requires m + 2 + |b1 + f1 + g| < |args| && args[m + 1 + |b1 + f1 + g|] == GT && args[m + 2 + |b1 + f1 + g|] == p
    requires At(args, m + 3 + |b1 + f1 + g|, b2 + f2 + t) && m + 3 + |b1 + f1 + g| + |b2 + f2 + t| == |args|
    ensures Parse(args) == Parsed(Pipeline(JobsBefore(args[..m]), Some(Redirection(f1, false)), Some(Redirection(f2, p == GT))), None)
  {
    var tr := TraceOf(args);
    var hi := m + 1 + |b1 + f1 + g|;
    var w := Prefix(args[..m]);
    var input := Some(Redirection(f1, false));
    var mode := if p == GT then StdoutAppend else Stdout;
    InputThenOutputPrefix(args, tr, m, b1, f1, g, p);
    NameArgument(args, tr, hi + 2, b2, f2, t);
    ParseAfterName(args, tr, mode, m, w, input, None, f2, t != []);
  }

  /** `cmd < in > out`: both streams bound. */
  lemma InputThenOutput(u: seq<byte>, b1: seq<byte>, f1: seq<byte>, g: seq<byte>, p: byte, b2: seq<byte>, f2: seq<byte>, t: seq<byte>)
    requires AllPlain(u)
    requires AllSkippable(b1) && f1 != [] && AllName(f1) && g != [] && Tail(g, Stdin)
    requires AllSkippable(b2) && f2 != [] && AllName(f2) && Tail(t, Stdout)
    ensures Parse(u + [LT] + (b1 + f1 + g) + [GT, p] + (b2 + f2 + t))
      == Parsed(Pipeline(JobsBefore(u), Some(Redirection(f1, false)), Some(Redirection(f2, p == GT))), None)
  {
    var first := b1 + f1 + g;
    var second := b2 + f2 + t;
    var args := u + [LT] + first + [GT, p] + second;
    var m := |u|;
    var hi := m + 1 + |first|;
    assert args[..m] == u;
    assert args[m] == LT && args[hi] == GT && args[hi + 1] == p;
    assert args == u + [LT] + first + ([GT, p] + second);
    AtConcat(u + [LT], first, [GT, p] + second);
    AtConcat(u + [LT] + first + [GT, p], second, []);
    assert args + [] == args;
    InputThenOutputAt(args, m, b1, f1, g, p, b2, f2, t);
  }

  /** The scan of `u > out < in` laid out in `args`. */
  lemma OutputThenInputAt(args: seq<byte>, m: nat, p: byte, b2: seq<byte>, f2: seq<byte>, g: seq<byte>, b1: seq<byte>, f1: seq<byte>, t: seq<byte>)
    requires m + 2 < |args| && AllPlain(args[..m])
    requires AllSkippable(b2) && f2 != [] && AllName(f2) && g != [] && Tail(g, Stdout)
    requires AllSkippable(b1) && f1 != [] && AllName(f1) && Tail(t, Stdin)
    requires args[m] == GT && args[m + 1] == p && At(args, m + 2, b2 + f2 + g)
    requires var hi := m + 2 + |b2 + f2 + g|; hi < |args| && args[hi] == LT && At(args, hi + 1, b1 + f1 + t) && hi + 1 + |b1 + f1 + t| == |args|
    ensures Parse(args) == Parsed(Pipeline(JobsBefore(args[..m]), Some(Redirection(f1, false)), Some(Redirection(f2, p == GT))), None)
  {
    var tr := TraceOf(args);
    var hi := m + 2 + |b2 + f2 + g|;
    var w := Prefix(args[..m]);
    var mode := if p == GT then StdoutAppend else Stdout;
    EnterArm(args, tr, m);
    PeekAt(args, tr, m + 1, m, w, None, None);
    NameArgument(args, tr, m + 2, b2, f2, g);
    SwitchToInput(args, tr, hi, m, w, mode, f2);
    NameArgument(args, tr, hi + 1, b1, f1, t);
    ParseAfterName(args, tr, Stdin, m, w, None, Some(Redirection(f2, p == GT)), f1, t != []);
  }

  /** `cmd > out < in`: both streams bound, the same pipeline as the other order. */
  lemma OutputThenInput(u: seq<byte>, p: byte, b2: seq<byte>, f2: seq<byte>, g: seq<byte>, b1: seq<byte>, f1: seq<byte>, t: seq<byte>)
    requires AllPlain(u)
    requires AllSkippable(b2) && f2 != [] && AllName(f2) && g != [] && Tail(g, Stdout)
    requires AllSkippable(b1) && f1 != [] && AllName(f1) && Tail(t, Stdin)
    ensures Parse(u + [GT, p] + (b2 + f2 + g) + [LT] + (b1 + f1 + t))
      == Parsed(Pipeline(JobsBefore(u), Some(Redirection(f1, false)), Some(Redirection(f2, p == GT))), None)
  {
    var first := b2 + f2 + g;
    var second := b1 + f1 + t;
    var args := u + [GT, p] + first + [LT] + second;
    var m := |u|;
    var hi := m + 2 + |first|;
    assert args[..m] == u;
    assert args[m] == GT && args[m + 1] == p && args[hi] == LT;
    assert args == u + [GT, p] + first + ([LT] + second);
    AtConcat(u + [GT, p], first, [LT] + second);
    AtConcat(u + [GT, p] + first + [LT], second, []);
    assert args + [] == args;
    OutputThenInputAt(args, m, p, b2, f2, g, b1, f1, t);
  }

  /** The order of the two redirections does not matter. */
  lemma RedirectionOrder(u: seq<byte>, b1: seq<byte>, f1: seq<byte>, g1: seq<byte>, p: byte, b2: seq<byte>, f2: seq<byte>, g2: seq<byte>)
    requires AllPlain(u)
    requires AllSkippable(b1) && f1 != [] && AllName(f1) && g1 != [] && Tail(g1, Stdin)
    requires AllSkippable(b2) && f2 != [] && AllName(f2) && g2 != [] && Tail(g2, Stdout)
    ensures Parse(u + [LT] + (b1 + f1 + g1) + [GT, p] + (b2 + f2 + g2))
      == Parse(u + [GT, p] + (b2 + f2 + g2) + [LT] + (b1 + f1 + g1))
  {
    InputThenOutput(u, b1, f1, g1, p, b2, f2, g2);
    OutputThenInput(u, p, b2, f2, g2, b1, f1, g1);
  }

  /** The scan of `u < in > out` laid out in `args` with the output name ended: both streams named. */
  lemma BothNamedAt(args: seq<byte>, tr: seq<Scan>, m: nat, b1: seq<byte>, f1: seq<byte>, g: seq<byte>, p: byte, b2: seq<byte>, f2: seq<byte>, g2: seq<byte>)
    requires IsTrace(args, tr) && m + 1 < |args| && AllPlain(args[..m])
    requires AllSkippable(b1) && f1 != [] && AllName(f1) && g != [] && Tail(g, Stdin)
    requires AllSkippable(b2) && f2 != [] && AllName(f2) && g2 != [] && Tail(g2, Stdout)
    requires args[m] == LT && At(args, m + 1, b1 + f1 + g)
    requires m + 2 + |b1 + f1 + g| < |args| && args[m + 1 + |b1 + f1 + g|] == GT && args[m + 2 + |b1 + f1 + g|] == p
    requires At(args, m + 3 + |b1 + f1 + g|, b2 + f2 + g2)
    ensures tr[m + 3 + |b1 + f1 + g| + |b2 + f2 + g2|]
      == Found(ArmState(if p == GT then StdoutAppend else Stdout, m, Prefix(args[..m]), Some(Redirection(f1, false)), None, false).(file := f2))
  {
    var hi := m + 1 + |b1 + f1 + g|;
    InputThenOutputPrefix(args, tr, m, b1, f1, g, p);
    NameArgument(args, tr, hi + 2, b2, f2, g2);
  }

  /** The scan of `u < in > out < rest` laid out in `args`. */
  lemma BoundInputStopsAt(args: seq<byte>, m: nat, b1: seq<byte>, f1: seq<byte>, g: seq<byte>, p: byte, b2: seq<byte>, f2: seq<byte>, g2: seq<byte>)
    requires m + 1 < |args| && AllPlain(args[..m])
    requires AllSkippable(b1) && f1 != [] && AllName(f1) && g != [] && Tail(g, Stdin)
    requires AllSkippable(b2) && f2 != [] && AllName(f2) && g2 != [] && Tail(g2, Stdout)
    requires args[m] == LT && At(args, m + 1, b1 + f1 + g)
    requires m + 2 + |b1 + f1 + g| < |args| && args[m + 1 + |b1 + f1 + g|] == GT && args[m + 2 + |b1 + f1 + g|] == p
    requires At(args, m + 3 + |b1 + f1 + g|, b2 + f2 + g2) && m + 3 + |b1 + f1 + g| + |b2 + f2 + g2| < |args|
    requires args[m + 3 + |b1 + f1 + g| + |b2 + f2 + g2|] == LT
    ensures Parse(args) == Parsed(Pipeline(JobsBefore(args[..m]), Some(Redirection(f1, false)), Some(Redirection(f2, p == GT))), None)
  {
    var tr := TraceOf(args);
    var k := m + 3 + |b1 + f1 + g| + |b2 + f2 + g2|;
    BothNamedAt(args, tr, m, b1, f1, g, p, b2, f2, g2);
    StopAt(args, tr, k);
    ParseAfterStop(args, tr, k + 1, m, Prefix(args[..m]), Some(Redirection(f1, false)), Some(Redirection(f2, p == GT)));
  }

  /**
   * `cmd < in > out < ...`: once both streams are bound, a further `<` ends
   * the scan without an error, whatever follows it.
   */
  lemma BoundInputStops(u: seq<byte>, b1: seq<byte>, f1: seq<byte>, g: seq<byte>, p: byte, b2: seq<byte>, f2: seq<byte>, g2: seq<byte>, rest: seq<byte>)
    requires AllPlain(u)
    requires AllSkippable(b1) && f1 != [] && AllName(f1) && g != [] && Tail(g, Stdin)
    requires AllSkippable(b2) && f2 != [] && AllName(f2) && g2 != [] && Tail(g2, Stdout)
    ensures Parse(u + [LT] + (b1 + f1 + g) + [GT, p] + (b2 + f2 + g2) + ([LT] + rest))
      == Parsed(Pipeline(JobsBefore(u), Some(Redirection(f1, false)), Some(Redirection(f2, p == GT))), None)
  {
    var first := b1 + f1 + g;
    var second := b2 + f2 + g2;
    var args := u + [LT] + first + [GT, p] + second + ([LT] + rest);
    var m := |u|;
    var hi := m + 1 + |first|;
    var k := hi + 2 + |second|;
    assert args[..m] == u;
    assert args[m] == LT && args[hi] == GT && args[hi + 1] == p && args[k] == LT;
    assert args == u + [LT] + first + ([GT, p] + second + [LT] + rest);
    AtConcat(u + [LT], first, [GT, p] + second + [LT] + rest);
    assert args == u + [LT] + first + [GT, p] + second + ([LT] + rest);
    AtConcat(u + [LT] + first + [GT, p], second, [LT] + rest);
    BoundInputStopsAt(args, m, b1, f1, g, p, b2, f2, g2);
  }

  /**
   * The pipeline when the scan has left `'outer` from a redirection arm at
   * `k`: the words before the operator make the job, and both streams are
   * as the arm left them.
   */
  lemma ParseAfterStop(args: seq<byte>, tr: seq<Scan>, k: nat, m: nat, w: Before, inFile: Option<Redirection>, outFile: Option<Redirection>)
    requires IsTrace(args, tr) && k <= |args| && tr[k].done
    requires tr[k].argStart == m + 1 && tr[k].index == m + 1 && tr[k].arguments == w.words && tr[k].jobs == w.jobs
    requires tr[k].inFile == inFile && tr[k].outFile == outFile && tr[k].error == None
    ensures Parse(args) == Parsed(Pipeline(w.jobs + JobOf(w.words), inFile, outFile), None)
  {
    TraceDone(args, tr, k, |args|);
    var last := tr[|args|];
    assert End(last) == last;
    assert w.jobs + JobOf(w.words) == if w.words != [] then w.jobs + [Job(w.words, false)] else w.jobs by {
      assert w.jobs + [] == w.jobs;
    }
    ParseOfTrace(args, tr);
  }

  /** The scan of `u > out < in > rest` laid out in `args`. */
  lemma BoundOutputStopsAt(args: seq<byte>, m: nat, p: byte, b2: seq<byte>, f2: seq<byte>, g2: seq<byte>, b1: seq<byte>, f1: seq<byte>, g1: seq<byte>)
    requires m + 2 < |args| && AllPlain(args[..m])
    requires AllSkippable(b2) && f2 != [] && AllName(f2) && g2 != [] && Tail(g2, Stdout)
    requires AllSkippable(b1) && f1 != [] && AllName(f1) && g1 != [] && Tail(g1, Stdin)
    requires args[m] == GT && args[m + 1] == p && At(args, m + 2, b2 + f2 + g2)
    requires var hi := m + 2 + |b2 + f2 + g2|; hi < |args| && args[hi] == LT && At(args, hi + 1, b1 + f1 + g1)
    requires var k := m + 3 + |b2 + f2 + g2| + |b1 + f1 + g1|; k < |args| && args[k] == GT
    ensures Parse(args) == Parsed(Pipeline(JobsBefore(args[..m]), Some(Redirection(f1, false)), Some(Redirection(f2, p == GT))), None)
  {
    var tr := TraceOf(args);
    var hi := m + 2 + |b2 + f2 + g2|;
    var k := hi + 1 + |b1 + f1 + g1|;
    var w := Prefix(args[..m]);
    var mode := if p == GT then StdoutAppend else Stdout;
    EnterArm(args, tr, m);
    PeekAt(args, tr, m + 1, m, w, None, None);
    NameArgument(args, tr, m + 2, b2, f2, g2);
    SwitchToInput(args, tr, hi, m, w, mode, f2);
    NameArgument(args, tr, hi + 1, b1, f1, g1);
    StopAt(args, tr, k);
    ParseAfterStop(args, tr, k + 1, m, w, Some(Redirection(f1, false)), Some(Redirection(f2, p == GT)));
  }

  /**
   * `cmd > out < in > ...`: once both streams are bound, a further `>` ends
   * the scan without an error, whatever follows it.
   */
  lemma BoundOutputStops(u: seq<byte>, p: byte, b2: seq<byte>, f2: seq<byte>, g2: seq<byte>, b1: seq<byte>, f1: seq<byte>, g1: seq<byte>, rest: seq<byte>)
    requires AllPlain(u)
    requires AllSkippable(b2) && f2 != [] && AllName(f2) && g2 != [] && Tail(g2, Stdout)
    requires AllSkippable(b1) && f1 != [] && AllName(f1) && g1 != [] && Tail(g1, Stdin)
    ensures Parse(u + [GT, p] + (b2 + f2 + g2) + [LT] + (b1 + f1 + g1) + ([GT] + rest))
      == Parsed(Pipeline(JobsBefore(u), Some(Redirection(f1, false)), Some(Redirection(f2, p == GT))), None)
  {
    var first := b2 + f2 + g2;
    var second := b1 + f1 + g1;
    var args := u + [GT, p] + first + [LT] + second + ([GT] + rest);
    var m := |u|;
    var hi := m + 2 + |first|;
    var k := hi + 1 + |second|;
    assert args[..m] == u;
    assert args[m] == GT && args[m + 1] == p && args[hi] == LT && args[k] == GT;
    assert args == u + [GT, p] + first + ([LT] + second + [GT] + rest);
    AtConcat(u + [GT, p], first, [LT] + second + [GT] + rest);
    assert args == u + [GT, p] + first + [LT] + second + ([GT] + rest);
    AtConcat(u + [GT, p] + first + [LT], second, [GT] + rest);
    BoundOutputStopsAt(args, m, p, b2, f2, g2, b1, f1, g1);
  }

  /** The scan of `u < in > out<rest` laid out in `args`. */
  lemma GluedBoundInputStopsAt(args: seq<byte>, m: nat, b1: seq<byte>, f1: seq<byte>, g: seq<byte>, p: byte, b2: seq<byte>, f2: seq<byte>)
    requires m + 1 < |args| && AllPlain(args[..m])
    requires AllSkippable(b1) && f1 != [] && AllName(f1) && g != [] && Tail(g, Stdin)
    requires AllSkippable(b2) && f2 != [] && AllName(f2)
    requires args[m] == LT && At(args, m + 1, b1 + f1 + g)
    requires m + 2 + |b1 + f1 + g| < |args| && args[m + 1 + |b1 + f1 + g|] == GT && args[m + 2 + |b1 + f1 + g|] == p
    requires At(args, m + 3 + |b1 + f1 + g|, b2 + f2 + []) && m + 3 + |b1 + f1 + g| + |b2 + f2 + []| < |args|
    requires args[m + 3 + |b1 + f1 + g| + |b2 + f2 + []|] == LT
    ensures Parse(args) == Parsed(Pipeline(JobsBefore(args[..m]), Some(Redirection(f1, false)), Some(Redirection(f2, p == GT))), None)
  {
    var tr := TraceOf(args);
    var hi := m + 1 + |b1 + f1 + g|;
    var k := hi + 2 + |b2 + f2 + []|;
    var w := Prefix(args[..m]);
    InputThenOutputPrefix(args, tr, m, b1, f1, g, p);
    NameArgument(args, tr, hi + 2, b2, f2, []);
    StopGluedAt(args, tr, k);
    ParseAfterStop(args, tr, k + 1, m, w, Some(Redirection(f1, false)), Some(Redirection(f2, p == GT)));
  }

  /**
   * `cmd < in > out<...`: a `<` glued to the output name binds standard
   * output and, with standard input already bound, ends the scan without an
   * error (lines 200-207).
   */
  lemma GluedBoundInputStops(u: seq<byte>, b1: seq<byte>, f1: seq<byte>, g: seq<byte>, p: byte, b2: seq<byte>, f2: seq<byte>, rest: seq<byte>)
    requires AllPlain(u)
    requires AllSkippable(b1) && f1 != [] && AllName(f1) && g != [] && Tail(g, Stdin)
    requires AllSkippable(b2) && f2 != [] && AllName(f2)
    ensures Parse(u + [LT] + (b1 + f1 + g) + [GT, p] + (b2 + f2 + []) + ([LT] + rest))
      == Parsed(Pipeline(JobsBefore(u), Some(Redirection(f1, false)), Some(Redirection(f2, p == GT))), None)
  {
    var first := b1 + f1 + g;
    var second := b2 + f2 + [];
    var args := u + [LT] + first + [GT, p] + second + ([LT] + rest);
    var m := |u|;
    var hi := m + 1 + |first|;
    var k := hi + 2 + |second|;
    assert args[..m] == u;
    assert args[m] == LT && args[hi] == GT && args[hi + 1] == p && args[k] == LT;
    assert args == u + [LT] + first + ([GT, p] + second + [LT] + rest);
    AtConcat(u + [LT], first, [GT, p] + second + [LT] + rest);
    assert args == u + [LT] + first + [GT, p] + second + ([LT] + rest);
    AtConcat(u + [LT] + first + [GT, p], second, [LT] + rest);
    GluedBoundInputStopsAt(args, m, b1, f1, g, p, b2, f2);
  }

  /** The scan of `u > out < in>rest` laid out in `args`. */
  lemma GluedBoundOutputStopsAt(args: seq<byte>, m: nat, p: byte, b2: seq<byte>, f2: seq<byte>, g2: seq<byte>, b1: seq<byte>, f1: seq<byte>)
    requires m + 2 < |args| && AllPlain(args[..m])
    requires AllSkippable(b2) && f2 != [] && AllName(f2) && g2 != [] && Tail(g2, Stdout)
    requires AllSkippable(b1) && f1 != [] && AllName(f1)
    requires args[m] == GT && args[m + 1] == p && At(args, m + 2, b2 + f2 + g2)
    requires var hi := m + 2 + |b2 + f2 + g2|; hi < |args| && args[hi] == LT && At(args, hi + 1, b1 + f1 + [])
    requires var k := m + 3 + |b2 + f2 + g2| + |b1 + f1 + []|; k < |args| && args[k] == GT
    ensures Parse(args) == Parsed(Pipeline(JobsBefore(args[..m]), Some(Redirection(f1, false)), Some(Redirection(f2, p == GT))), None)
  {
    var tr := TraceOf(args);
    var hi := m + 2 + |b2 + f2 + g2|;
    var k := hi + 1 + |b1 + f1 + []|;
    var w := Prefix(args[..m]);
    var mode := if p == GT then StdoutAppend else Stdout;
    EnterArm(args, tr, m);
    PeekAt(args, tr, m + 1, m, w, None, None);
    NameArgument(args, tr, m + 2, b2, f2, g2);
    SwitchToInput(args, tr, hi, m, w, mode, f2);
    NameArgument(args, tr, hi + 1, b1, f1, []);
    StopGluedAt(args, tr, k);
    ParseAfterStop(args, tr, k + 1, m, w, Some(Redirection(f1, false)), Some(Redirection(f2, p == GT)));
  }

  /**
   * `cmd > out < in>...`: a `>` glued to the input name binds standard
   * input and, with standard output already bound, ends the scan without an
   * error (lines 255-262).
   */
  lemma GluedBoundOutputStops(u: seq<byte>, p: byte, b2: seq<byte>, f2: seq<byte>, g2: seq<byte>, b1: seq<byte>, f1: seq<byte>, rest: seq<byte>)
    requires AllPlain(u)
    requires AllSkippable(b2) && f2 != [] && AllName(f2) && g2 != [] && Tail(g2, Stdout)
    requires AllSkippable(b1) && f1 != [] && AllName(f1)
    ensures Parse(u + [GT, p] + (b2 + f2 + g2) + [LT] + (b1 + f1 + []) + ([GT] + rest))
      == Parsed(Pipeline(JobsBefore(u), Some(Redirection(f1, false)), Some(Redirection(f2, p == GT))), None)
  {
    var first := b2 + f2 + g2;
    var second := b1 + f1 + [];
    var args := u + [GT, p] + first + [LT] + second + ([GT] + rest);
    var m := |u|;
    var hi := m + 2 + |first|;
    var k := hi + 1 + |second|;
    assert args[..m] == u;
    assert args[m] == GT && args[m + 1] == p && args[hi] == LT && args[k] == GT;
    assert args == u + [GT, p] + first + ([LT] + second + [GT] + rest);
    AtConcat(u + [GT, p], first, [LT] + second + [GT] + rest);
    assert args == u + [GT, p] + first + [LT] + second + ([GT] + rest);
    AtConcat(u + [GT, p] + first + [LT], second, [GT] + rest);
    GluedBoundOutputStopsAt(args, m, p, b2, f2, g2, b1, f1);
  }

  /** `cmd >` at the end: the '>' message. */
  lemma MissingOutputAtEnd(u: seq<byte>)
    requires AllPlain(u)
    ensures Parse(u + [GT]) == Parsed(Pipeline(JobsBefore(u), None, None), Some(MISSING_STDOUT))
  {
    var args := u + [GT];
    assert args[..|u|] == u;
    var tr := TraceOf(args);
    EnterArm(args, tr, |u|);
    var st := ArmState(Stdout, |u|, Prefix(u), None, None, true);
    assert tr[|args|] == st;
    assert End(st) == st.(error := Some(MISSING_STDOUT));
    ParseOfTrace(args, tr);
  }

  /** `cmd > ` followed only by blanks or `|`: the '>' message. */
  lemma MissingOutput(u: seq<byte>, p: byte, b: seq<byte>)
    requires AllPlain(u) && AllSkippable(b)
    ensures Parse(u + [GT, p] + b) == Parsed(Pipeline(JobsBefore(u), None, None), Some(MISSING_STDOUT))
  {
    var args := u + [GT, p] + b;
    var m := |u|;
    assert args[..m] == u;
    assert args[m] == GT && args[m + 1] == p;
    var tr := TraceOf(args);
    var w := Prefix(u);
    EnterArm(args, tr, m);
    PeekAt(args, tr, m + 1, m, w, None, None);
    forall i | m + 2 <= i < |args| ensures Skippable(args[i]) {
      assert args[i] == b[i - m - 2];
    }
    SkipLeading(args, tr, m + 2, |args|);
    ParseOfTrace(args, tr);
  }

  /** `cmd > ` then `<` before any name: the '>' message, and the scan ends. */
  lemma MissingOutputBeforeLess(u: seq<byte>, p: byte, b: seq<byte>, rest: seq<byte>)
    requires AllPlain(u) && AllSkippable(b)
    ensures Parse(u + [GT, p] + b + ([LT] + rest)) == Parsed(Pipeline(JobsBefore(u), None, None), Some(MISSING_STDOUT))
  {
    var args := u + [GT, p] + b + ([LT] + rest);
    var m := |u|;
    var k := m + 2 + |b|;
    assert args[..m] == u;
    assert args[m] == GT && args[m + 1] == p && args[k] == LT;
    var tr := TraceOf(args);
    var w := Prefix(u);
    EnterArm(args, tr, m);
    PeekAt(args, tr, m + 1, m, w, None, None);
    forall i | m + 2 <= i < k ensures Skippable(args[i]) {
      assert args[i] == b[i - m - 2];
    }
    SkipLeading(args, tr, m + 2, k);
    FileStepAt(args, tr, k);
    TraceDone(args, tr, k + 1, |args|);
    ParseOfTrace(args, tr);
  }

  /** `cmd < ` followed only by blanks or `|`: the '>' message, as `redir_check!` always writes it. */
  lemma MissingInput(u: seq<byte>, b: seq<byte>)
    requires AllPlain(u) && AllSkippable(b)
    ensures Parse(u + [LT] + b) == Parsed(Pipeline(JobsBefore(u), None, None), Some(MISSING_STDOUT))
  {
    var args := u + [LT] + b;
    var m := |u|;
    assert args[..m] == u;
    assert args[m] == LT;
    var tr := TraceOf(args);
    EnterArm(args, tr, m);
    forall i | m + 1 <= i < |args| ensures Skippable(args[i]) {
      assert args[i] == b[i - m - 1];
    }
    SkipLeading(args, tr, m + 1, |args|);
    ParseOfTrace(args, tr);
  }

  /** `cmd < ` then `>` before any name: the '<' message, and the scan ends. */
  lemma MissingInputBeforeGreater(u: seq<byte>, b: seq<byte>, rest: seq<byte>)
    requires AllPlain(u) && AllSkippable(b)
    ensures Parse(u + [LT] + b + ([GT] + rest)) == Parsed(Pipeline(JobsBefore(u), None, None), Some(MISSING_STDIN))
  {
    var args := u + [LT] + b + ([GT] + rest);
    var m := |u|;
    var k := m + 1 + |b|;
    assert args[..m] == u;
    assert args[m] == LT && args[k] == GT;
    var tr := TraceOf(args);
    EnterArm(args, tr, m);
    forall i | m + 1 <= i < k ensures Skippable(args[i]) {
      assert args[i] == b[i - m - 1];
    }
    SkipLeading(args, tr, m + 1, k);
    FileStepAt(args, tr, k);
    TraceDone(args, tr, k + 1, |args|);
    ParseOfTrace(args, tr);
  }

  /** The scan of `u < in>` laid out in `args`: standard input bound and the input arm entered again. */
  lemma GluedInputPrefix(args: seq<byte>, tr: seq<Scan>, m: nat, b: seq<byte>, f1: seq<byte>)
    requires IsTrace(args, tr) && m + 1 < |args| && AllPlain(args[..m])
    requires AllSkippable(b) && f1 != [] && AllName(f1)
    requires args[m] == LT && At(args, m + 1, b + f1 + [])
    requires m + 1 + |b + f1 + []| < |args| && args[m + 1 + |b + f1 + []|] == GT
    ensures tr[m + 2 + |b + f1 + []|] == ArmState(Stdin, m, Prefix(args[..m]), Some(Redirection(f1, false)), None, false)
  {
    var hi := m + 1 + |b + f1 + []|;
    var w := Prefix(args[..m]);
    EnterArm(args, tr, m);
    NameArgument(args, tr, m + 1, b, f1, []);
    ReenterInput(args, tr, hi, m, w, f1);
  }

  /** The scan of `u < in>` then a name `f2 + t` laid out in `args`. */
  lemma GluedInputNamesAt(args: seq<byte>, m: nat, b: seq<byte>, f1: seq<byte>, f2: seq<byte>, t: seq<byte>)
    requires m + 1 < |args| && AllPlain(args[..m])
    requires AllSkippable(b) && f1 != [] && AllName(f1) && f2 != [] && AllName(f2)
    requires t == [] || (|t| == 1 && Skippable(t[0]))
    requires args[m] == LT && At(args, m + 1, b + f1 + [])
    requires m + 1 + |b + f1 + []| < |args| && args[m + 1 + |b + f1 + []|] == GT
    requires At(args, m + 2 + |b + f1 + []|, [] + f2 + t) && m + 2 + |b + f1 + []| + |[] + f2 + t| == |args|
    ensures Parse(args) == Parsed(Pipeline(JobsBefore(args[..m]), Some(Redirection(if t == [] then f1 else f2, false)), None), None)
  {
    var tr := TraceOf(args);
    var hi := m + 1 + |b + f1 + []|;
    var w := Prefix(args[..m]);
    GluedInputPrefix(args, tr, m, b, f1);
    assert Tail(t, Stdin);
    NameArgument(args, tr, hi + 1, [], f2, t);
    ParseAfterSecondInput(args, tr, m, w, f1, f2, t != []);
  }

  /**
   * The pipeline when the scan ends in the input arm entered again after the
   * input name `f1`, reading the name `f2`: `f2` replaces `f1` only when it
   * was ended.
   */
  lemma ParseAfterSecondInput(args: seq<byte>, tr: seq<Scan>, m: nat, w: Before, f1: seq<byte>, f2: seq<byte>, ended: bool)
    requires IsTrace(args, tr) && m < |args| && f2 != []
    requires tr[|args|] == if ended then Found(ArmState(Stdin, m, w, Some(Redirection(f1, false)), None, false).(file := f2))
                           else ArmState(Stdin, m, w, Some(Redirection(f1, false)), None, false).(file := f2)
    ensures Parse(args) == Parsed(Pipeline(w.jobs + JobOf(w.words), Some(Redirection(if ended then f2 else f1, false)), None), None)
  {
    var last := tr[|args|];
    assert End(last) == last;
    var jobs := if w.words != [] then w.jobs + [Job(w.words, false)] else w.jobs;
    assert jobs == w.jobs + JobOf(w.words) by {
      assert w.jobs + [] == w.jobs;
    }
    assert Flush(args, last) == Parsed(Pipeline(jobs, Some(Redirection(if ended then f2 else f1, false)), None), None);
    ParseOfTrace(args, tr);
  }

  lemma GluedInputNames(u: seq<byte>, b: seq<byte>, f1: seq<byte>, f2: seq<byte>, t: seq<byte>)
    requires AllPlain(u)
    requires AllSkippable(b) && f1 != [] && AllName(f1) && f2 != [] && AllName(f2)
    requires t == [] || (|t| == 1 && Skippable(t[0]))
    ensures Parse(u + [LT] + b + f1 + [GT] + f2 + t)
      == Parsed(Pipeline(JobsBefore(u), Some(Redirection(if t == [] then f1 else f2, false)), None), None)
  {
    var first := b + f1 + [];
    var second := [] + f2 + t;
    var args := u + [LT] + b + f1 + [GT] + f2 + t;
    var m := |u|;
    var hi := m + 1 + |first|;
    assert args[..m] == u;
    assert args[m] == LT && args[hi] == GT;
    assert args == u + [LT] + first + ([GT] + second);
    AtConcat(u + [LT], first, [GT] + second);
    assert args == u + [LT] + first + [GT] + second + [];
    AtConcat(u + [LT] + first + [GT], second, []);
    GluedInputNamesAt(args, m, b, f1, f2, t);
  }

  /**
   * `cmd <in>out`: a `>` glued to the input name binds standard input and
   * then reads the next name as input again (line 264), so standard output
   * stays unbound; when that name is ended too, it replaces the input.
   */
  lemma GluedOutputAfterInput(u: seq<byte>, b: seq<byte>, f1: seq<byte>, f2: seq<byte>, c: byte)
    requires AllPlain(u)
    requires AllSkippable(b) && f1 != [] && AllName(f1) && f2 != [] && AllName(f2) && Skippable(c)
    ensures Parse(u + [LT] + b + f1 + [GT] + f2) == Parsed(Pipeline(JobsBefore(u), Some(Redirection(f1, false)), None), None)
    ensures Parse(u + [LT] + b + f1 + [GT] + f2 + [c]) == Parsed(Pipeline(JobsBefore(u), Some(Redirection(f2, false)), None), None)
  {
    GluedInputNames(u, b, f1, f2, []);
    assert u + [LT] + b + f1 + [GT] + f2 + [] == u + [LT] + b + f1 + [GT] + f2;
    GluedInputNames(u, b, f1, f2, [c]);
  }

  /** `cmd >out<in`: a `<` glued to the output name binds standard output and moves on, unlike line 264. */
  lemma GluedInputAfterOutput(u: seq<byte>, p: byte, b: seq<byte>, f2: seq<byte>, b1: seq<byte>, f1: seq<byte>, t: seq<byte>)
    requires AllPlain(u)
    requires AllSkippable(b) && f2 != [] && AllName(f2) && AllSkippable(b1) && f1 != [] && AllName(f1) && Tail(t, Stdin)
    ensures Parse(u + [GT, p] + (b + f2 + []) + [LT] + (b1 + f1 + t))
      == Parsed(Pipeline(JobsBefore(u), Some(Redirection(f1, false)), Some(Redirection(f2, p == GT))), None)
  {
    var first := b + f2 + [];
    var second := b1 + f1 + t;
    var args := u + [GT, p] + first + [LT] + second;
    var m := |u|;
    var hi := m + 2 + |first|;
    assert args[..m] == u;
    assert args[m] == GT && args[m + 1] == p && args[hi] == LT;
    assert args == u + [GT, p] + first + ([LT] + second);
    AtConcat(u + [GT, p], first, [LT] + second);
    AtConcat(u + [GT, p] + first + [LT], second, []);
    assert args + [] == args;
    GluedInputAfterOutputAt(args, m, p, b, f2, b1, f1, t);
  }

  lemma GluedInputAfterOutputAt(args: seq<byte>, m: nat, p: byte, b: seq<byte>, f2: seq<byte>, b1: seq<byte>, f1: seq<byte>, t: seq<byte>)
    requires m + 2 < |args| && AllPlain(args[..m])
    requires AllSkippable(b) && f2 != [] && AllName(f2) && AllSkippable(b1) && f1 != [] && AllName(f1) && Tail(t, Stdin)
    requires args[m] == GT && args[m + 1] == p && At(args, m + 2, b + f2 + [])
    requires m + 2 + |b + f2 + []| < |args| && args[m + 2 + |b + f2 + []|] == LT
    requires At(args, m + 3 + |b + f2 + []|, b1 + f1 + t) && m + 3 + |b + f2 + []| + |b1 + f1 + t| == |args|
    ensures Parse(args) == Parsed(Pipeline(JobsBefore(args[..m]), Some(Redirection(f1, false)), Some(Redirection(f2, p == GT))), None)
  {
    var tr := TraceOf(args);
    var hi := m + 2 + |b + f2 + []|;
    var w := Prefix(args[..m]);
    var mode := if p == GT then StdoutAppend else Stdout;
    EnterArm(args, tr, m);
    PeekAt(args, tr, m + 1, m, w, None, None);
    NameArgument(args, tr, m + 2, b, f2, []);
    SwitchGluedToInput(args, tr, hi, m, w, mode, f2);
    NameArgument(args, tr, hi + 1, b1, f1, t);
    ParseAfterName(args, tr, Stdin, m, w, None, Some(Redirection(f2, p == GT)), f1, t != []);
  }

  /** Without a separator the prefix is one job: its finished words. */
  lemma JobsBeforePiece(u: seq<byte>)
    requires NoSeparator(u)
    ensures JobsBefore(u) == JobOf(Split(u).finished)
  {
    CutOfPiece(u);
  }

  /** The words before a redirection make the job, except a word glued to the operator. */
  lemma GluedWordDropped(v: seq<byte>, c: byte, x: seq<byte>)
    requires IsBlank(c) && BlankFree(x) && NoSeparator(v + [c] + x) && NoSeparator(x)
    ensures JobsBefore(v + [c] + x) == JobOf(Words(v))
    ensures x != [] ==> JobsBefore(x) == []
  {
    JobsBeforePiece(v + [c] + x);
    JobsBeforePiece(x);
    SplitAfterBlank(v, c, x);
    SplitOfWord(x);
    assert Words(v) + [] == Words(v);
  }

  /**
   * The jobs before a redirection split at `|` and `&` as the plain
   * statement does: the job the first separator closes, then the rest.
   */
  lemma JobsBeforeSeparator(u: seq<byte>, c: byte, v: seq<byte>)
    requires NoSeparator(u) && IsSeparator(c)
    ensures JobsBefore(u + [c] + v) == [Job(JobArgs(u), c == AMPERSAND)] + JobsBefore(v)
  {
    CutsAround(u, c, v);
  }
}
