/**
 * The reference semantics of `collect` (src/parser/pipelines.rs:82-290) for
 * one candidate statement, as a state machine over its bytes.
 *
 * `collect` reads the candidate through one byte iterator shared by three
 * arms of a labelled loop over `RedirMode`.  Every byte the iterator hands
 * out is one Step below; `Scan` holds every local of `collect` at the point
 * where that byte has been handled.  `States(args, n)` is the state after the
 * first `n` bytes, End is what the arms do when the iterator runs dry, and
 * Flush is the code after the loop.
 */
module Splitter {
  import opened Bytes
  import opened ScanFlags

  /** A redirection target: the file name bytes and whether `>>` asked to append. */
  datatype Redirection = Redirection(file: seq<byte>, append: bool)

  /** One command of a pipeline; `args[0]` is the command itself. */
  datatype Job = Job(args: seq<seq<byte>>, background: bool)

  datatype Pipeline = Pipeline(jobs: seq<Job>, stdin: Option<Redirection>, stdout: Option<Redirection>)

  /** What the scan is collecting: arguments, or the file name of `<`, `>` or `>>`. */
  datatype RedirMode = False | Stdin | Stdout | StdoutAppend

  const MISSING_STDOUT: string := "missing standard output file argument after '>'"
  const MISSING_STDIN: string := "missing standard input file argument after '<'"

  /**
   * The locals of `collect` between two bytes.  `file` and `foundFile` are the
   * buffer and flag of the redirection arm being run (`stdout_file` or
   * `stdin_file`); `peek` says the Stdout arm has not yet read the byte that
   * decides between `>` and `>>`; `done` says the scan left `'outer`.
   */
  datatype Scan = Scan(
    mode: RedirMode,
    flags: bv8,
    index: nat,
    argStart: nat,
    arguments: seq<seq<byte>>,
    jobs: seq<Job>,
    inFile: Option<Redirection>,
    outFile: Option<Redirection>,
    peek: bool,
    file: seq<byte>,
    foundFile: bool,
    done: bool,
    error: Option<string>)

  const Init: Scan := Scan(False, 0, 0, 0, [], [], None, None, false, [], false, false, None)

  /** The arms of the `match character` of the argument arm, lines 134-153. */
  datatype ArgArm =
    | Escaped       // the byte after a backslash
    | Backslash
    | Dollar
    | OpenProcess   // `(` right after `$`
    | CloseProcess  // `)` inside `$(`
    | SingleQuote
    | DoubleQuote
    | Blank         // unquoted space or tab
    | Pipe          // unquoted `|`
    | Ampersand     // unquoted `&`
    | Greater       // unquoted `>`
    | Less          // unquoted `<`
    | EndProcess    // any other byte outside `$(...)` clears the `$` state
    | Other

  /** The arms that end an argument, a job or the argument arm itself. */
  predicate SeparatorArm(a: ArgArm) {
    a == ArgArm.Blank || a == Pipe || a == Ampersand || a == Greater || a == Less
  }

  /** The arm the argument scan takes for byte `c` under register `f`: the guards, in source order. */
  function ArgArmOf(f: bv8, c: byte): ArgArm {
    if f & BACKSLASH != 0 then Escaped
    else if c == BACKSLASH_BYTE then Backslash
    else if c == DOLLAR && f & PROCESS_VAL == 0 then Dollar
    else if c == LPAREN && f & PROCESS_VAL == PROCESS_ONE then OpenProcess
    else if c == RPAREN && f & PROCESS_VAL == PROCESS_TWO then CloseProcess
    else if c == SINGLE_QUOTE_BYTE then SingleQuote
    else if c == DOUBLE_QUOTE_BYTE then DoubleQuote
    else if IsBlank(c) && f & IS_VALID == 0 then Blank
    else if c == PIPE && f & (255 ^ BACKSLASH) == 0 then Pipe
    else if c == AMPERSAND && f & IS_VALID == 0 then Ampersand
    else if c == GT && f & IS_VALID == 0 then Greater
    else if c == LT && f & IS_VALID == 0 then Less
    else if f >> 6 != 2 then EndProcess
    else Other
  }

  /** The register after the argument scan has looked at `c`; the separator arms leave it alone. */
  function ArgFlags(f: bv8, c: byte): bv8 {
    match ArgArmOf(f, c)
    case Escaped => f ^ BACKSLASH
    case Backslash => f ^ BACKSLASH
    case Dollar => f | PROCESS_ONE
    case OpenProcess => f ^ (PROCESS_ONE + PROCESS_TWO)
    case CloseProcess => f & (255 ^ PROCESS_TWO)
    case SingleQuote => f ^ SINGLE_QUOTE
    case DoubleQuote => f ^ DOUBLE_QUOTE
    case EndProcess => f & (255 ^ (PROCESS_ONE + PROCESS_TWO))
    case _ => f
  }

  /**
   * What `collect` keeps between bytes: the argument span never runs past the
   * scan, the argument scan is at the iterator's position, a collected
   * argument means a byte was read, and only the Stdout arm peeks.
   */
  predicate Bounds(st: Scan, pos: nat) {
    && st.argStart <= st.index <= pos
    && (st.mode == False && !st.done ==> st.index == pos)
    && (st.arguments != [] ==> st.index > 0)
    && (st.peek ==> st.mode == Stdout)
  }

  /**
   * `job_found!` (lines 115-128) at the separator `args[st.index]`: close the
   * job and start the next argument after the separator.
   */
  function JobFound(args: seq<byte>, st: Scan, background: bool): (r: Scan)
    requires st.argStart <= st.index < |args|
    requires st.arguments != [] ==> st.index > 0
    ensures |r.jobs| == |st.jobs| + 1 && r.jobs[..|st.jobs|] == st.jobs
    ensures r.jobs[|st.jobs|].background == background && r.jobs[|st.jobs|].args != []
    ensures r.arguments == [] && r.argStart == st.index + 1
  {
    var pending := args[st.argStart..st.index];
    if st.arguments == [] then
      st.(jobs := st.jobs + [Job([pending], background)], argStart := st.index + 1)
    else
      var arguments := if args[st.index - 1] != SPACE then st.arguments + [pending] else st.arguments;
      st.(jobs := st.jobs + [Job(arguments, background)], arguments := [], argStart := st.index + 1)
  }

  /** The argument arm (lines 132-157) handling `args[st.index]`. */
  function ArgumentStep(args: seq<byte>, st: Scan): (r: Scan)
    requires st.argStart <= st.index < |args|
    requires st.arguments != [] ==> st.index > 0
    requires !st.peek
    ensures r.index == st.index + 1 && Bounds(r, r.index) && r.done == st.done
    ensures |st.jobs| <= |r.jobs| && r.jobs[..|st.jobs|] == st.jobs
  {
    ArmStep(args, st, ArgArmOf(st.flags, args[st.index]))
  }

  /** The update of arm `arm` of the argument arm at `args[st.index]`. */
  function ArmStep(args: seq<byte>, st: Scan, arm: ArgArm): (r: Scan)
    requires st.argStart <= st.index < |args|
    requires st.arguments != [] ==> st.index > 0
    requires !st.peek
    ensures r.index == st.index + 1 && Bounds(r, r.index) && r.done == st.done
    ensures |st.jobs| <= |r.jobs| && r.jobs[..|st.jobs|] == st.jobs
  {
    if arm == Blank then
      if st.argStart != st.index then
        st.(arguments := st.arguments + [args[st.argStart..st.index]], argStart := st.index + 1, index := st.index + 1)
      else
        st.(argStart := st.argStart + 1, index := st.index + 1)
    else if arm == Pipe || arm == Ampersand then
      JobFound(args, st, arm == Ampersand).(index := st.index + 1)
    // `redir_found!` (line 112): the pending span is abandoned
    else if arm == Greater then
      st.(mode := Stdout, peek := true, index := st.index + 1, argStart := st.index + 1)
    else if arm == Less then
      st.(mode := Stdin, index := st.index + 1, argStart := st.index + 1)
    else
      st.(flags := ArgFlags(st.flags, args[st.index]), index := st.index + 1)
  }

  /** The first read of the Stdout arm (lines 161-167): only a second `>` matters. */
  function PeekStep(st: Scan, c: byte): (r: Scan)
    requires st.mode != False && (st.peek ==> st.mode == Stdout)
    ensures r.mode != False && (r.peek ==> r.mode == Stdout)
    ensures r.index == st.index && r.argStart == st.argStart && r.arguments == st.arguments && r.jobs == st.jobs
  {
    st.(peek := false, mode := if c == GT then StdoutAppend else st.mode)
  }

  /** The redirection the current arm's buffer describes. */
  function Target(st: Scan): Redirection {
    Redirection(st.file, st.mode == StdoutAppend)
  }

  /** Leave the current redirection arm for the other one (`continue 'outer`). */
  function Switch(st: Scan, mode: RedirMode): Scan {
    st.(mode := mode, peek := mode == Stdout, file := [], foundFile := false)
  }

  /** The file name loop of the Stdout arm (lines 171-218) handling `c`. */
  function OutputStep(st: Scan, c: byte): (r: Scan)
    requires st.mode != False && (st.peek ==> st.mode == Stdout)
    ensures r.mode != False && (r.peek ==> r.mode == Stdout)
    ensures r.index == st.index && r.argStart == st.argStart && r.arguments == st.arguments && r.jobs == st.jobs
  {
    if st.foundFile then
      if c == LT then
        if st.inFile.Some? then st.(done := true) else Switch(st, Stdin)
      else st
    else if st.flags & BACKSLASH != 0 then st.(file := st.file + [c], flags := st.flags ^ BACKSLASH)
    else if c == BACKSLASH_BYTE then st.(flags := st.flags ^ BACKSLASH)
    else if (IsBlank(c) || c == PIPE) && st.file == [] then st
    else if IsBlank(c) || c == PIPE then st.(foundFile := true, outFile := Some(Target(st)))
    else if c == LT && st.file == [] then st.(error := Some(MISSING_STDOUT), done := true)
    else if c == LT then
      if st.inFile.Some? then st.(outFile := Some(Target(st)), done := true)
      else Switch(st.(outFile := Some(Target(st))), Stdin)
    else st.(file := st.file + [c])
  }

  /**
   * The file name loop of the Stdin arm (lines 226-270) handling `c`.  A `>`
   * that ends the name re-enters this same arm (line 264).
   */
  function InputStep(st: Scan, c: byte): (r: Scan)
    requires st.mode != False && (st.peek ==> st.mode == Stdout)
    ensures r.mode != False && (r.peek ==> r.mode == Stdout)
    ensures r.index == st.index && r.argStart == st.argStart && r.arguments == st.arguments && r.jobs == st.jobs
  {
    if st.foundFile then
      if c == GT then
        if st.outFile.Some? then st.(done := true) else Switch(st, Stdout)
      else st
    else if st.flags & BACKSLASH != 0 then st.(file := st.file + [c], flags := st.flags ^ BACKSLASH)
    else if c == BACKSLASH_BYTE then st.(flags := st.flags ^ BACKSLASH)
    else if (IsBlank(c) || c == PIPE) && st.file == [] then st
    else if IsBlank(c) || c == PIPE then st.(foundFile := true, inFile := Some(Redirection(st.file, false)))
    else if c == GT && st.file == [] then st.(error := Some(MISSING_STDIN), done := true)
    else if c == GT then
      if st.outFile.Some? then st.(inFile := Some(Redirection(st.file, false)), done := true)
      else Switch(st.(inFile := Some(Redirection(st.file, false))), Stdin)
    else st.(file := st.file + [c])
  }

  /** `collect` handling `args[pos]`, the byte its iterator hands out next. */
  function Step(args: seq<byte>, st: Scan, pos: nat): (r: Scan)
    requires pos < |args| && Bounds(st, pos)
    ensures Bounds(r, pos + 1)
    ensures st.done ==> r == st
    ensures r.index <= st.index + 1 && |st.jobs| <= |r.jobs| && r.jobs[..|st.jobs|] == st.jobs
  {
    if st.done then st
    else match st.mode
      case False => ArgumentStep(args, st)
      case Stdin => InputStep(st, args[pos])
      case Stdout => if st.peek then PeekStep(st, args[pos]) else OutputStep(st, args[pos])
      case StdoutAppend => OutputStep(st, args[pos])
  }

  /** The locals of `collect` once the iterator has handed out `args[..n]`. */
  function States(args: seq<byte>, n: nat): (r: Scan)
    requires n <= |args|
    ensures Bounds(r, n)
  {
    if n == 0 then Init else Step(args, States(args, n - 1), n - 1)
  }

  /** `redir_check!` (lines 94-106): the '>' message whichever stream it checks. */
  function RedirCheckIn(st: Scan): Scan {
    if st.inFile.Some? then st
    else if st.file == [] then st.(error := Some(MISSING_STDOUT))
    else st.(inFile := Some(Redirection(st.file, false)))
  }

  function RedirCheckOut(st: Scan): Scan {
    if st.outFile.Some? then st
    else if st.file == [] then st.(error := Some(MISSING_STDOUT))
    else st.(outFile := Some(Target(st)))
  }

  /**
   * `redir_check!` leaves a bound stream alone; otherwise it binds the stream
   * to the buffered name, or writes the '>' message when the buffer is empty.
   * Nothing else changes.
   */
  lemma RedirCheckBinds(st: Scan)
    ensures var r := RedirCheckIn(st);
      (r.inFile.Some? || r.error == Some(MISSING_STDOUT)) && (st.inFile.Some? ==> r == st) &&
      (st.inFile.None? && st.file != [] ==> r.inFile == Some(Redirection(st.file, false))) &&
      r == st.(inFile := r.inFile, error := r.error)
    ensures var r := RedirCheckOut(st);
      (r.outFile.Some? || r.error == Some(MISSING_STDOUT)) && (st.outFile.Some? ==> r == st) &&
      (st.outFile.None? && st.file != [] ==> r.outFile == Some(Target(st))) &&
      r == st.(outFile := r.outFile, error := r.error)
  {
  }

  /** What the arm being run does when the iterator is exhausted (lines 156, 164, 222-223, 273-275). */
  function End(st: Scan): (r: Scan)
    ensures r.(error := st.error, inFile := st.inFile, outFile := st.outFile) == st
    ensures r.error != st.error ==> r.error == Some(MISSING_STDOUT)
  {
    if st.done then st
    else match st.mode
      case False => st
      case Stdin => RedirCheckIn(st)
      case _ => if st.peek then st.(error := Some(MISSING_STDOUT)) else RedirCheckOut(st)
  }

  /** The outcome of one candidate: the pipeline pushed and the error written, if any. */
  datatype Parsed = Parsed(pipeline: Pipeline, error: Option<string>)

  /** Lines 280-288: flush the pending argument and job, then build the pipeline. */
  function Flush(args: seq<byte>, st: Scan): Parsed
    requires st.argStart <= st.index <= |args|
  {
    var arguments := if st.argStart != st.index then st.arguments + [args[st.argStart..st.index]] else st.arguments;
    var jobs := if arguments != [] then st.jobs + [Job(arguments, false)] else st.jobs;
    Parsed(Pipeline(jobs, st.inFile, st.outFile), st.error)
  }

  /**
   * The flush keeps the error and both redirections, and adds at most one
   * foreground job: exactly when arguments are collected or one is pending,
   * made of those arguments and then the pending one.
   */
  lemma FlushAppends(args: seq<byte>, st: Scan)
    requires st.argStart <= st.index <= |args|
    ensures var r := Flush(args, st);
      r.error == st.error && r.pipeline.stdin == st.inFile && r.pipeline.stdout == st.outFile
    ensures var jobs := Flush(args, st).pipeline.jobs;
      |st.jobs| <= |jobs| <= |st.jobs| + 1 && jobs[..|st.jobs|] == st.jobs
    ensures var jobs := Flush(args, st).pipeline.jobs;
      |jobs| > |st.jobs| <==> st.arguments != [] || st.argStart < st.index
    ensures var jobs := Flush(args, st).pipeline.jobs;
      |jobs| > |st.jobs| ==>
        !jobs[|st.jobs|].background && jobs[|st.jobs|].args != [] && |st.arguments| <= |jobs[|st.jobs|].args| &&
        jobs[|st.jobs|].args[..|st.arguments|] == st.arguments
  {
  }

  /** What `collect` pushes and reports for one candidate statement. */
  function Parse(args: seq<byte>): Parsed {
    Flush(args, End(States(args, |args|)))
  }

  /**
   * `tr` lists the state of `collect` before each byte of `args` and after
   * the last one, each entry the step from the one before.
   */
  predicate IsTrace(args: seq<byte>, tr: seq<Scan>) {
    && |tr| == |args| + 1 && tr[0] == Init
    && (forall i | 0 <= i <= |args| :: Bounds(tr[i], i))
    && (forall i {:trigger Step(args, tr[i], i)} | 0 <= i < |args| :: tr[i + 1] == Step(args, tr[i], i))
  }

  /** The trace of a scan is its sequence of states. */
  lemma {:induction false} TraceIsStates(args: seq<byte>, tr: seq<Scan>, n: nat)
    requires IsTrace(args, tr) && n <= |args|
    ensures tr[n] == States(args, n)
    decreases n
  {
    if n > 0 {
      TraceIsStates(args, tr, n - 1);
      assert tr[n] == Step(args, tr[n - 1], n - 1);
    }
  }

  /** Every candidate has a trace. */
  lemma TraceOf(args: seq<byte>) returns (tr: seq<Scan>)
    ensures IsTrace(args, tr)
  {
    tr := seq(|args| + 1, i requires 0 <= i <= |args| => States(args, i));
    forall i | 0 <= i < |args|
      ensures tr[i + 1] == Step(args, tr[i], i)
    {
    }
  }

  /** Once the scan has left `'outer`, the trace stays put. */
  lemma {:induction false} TraceDone(args: seq<byte>, tr: seq<Scan>, k: nat, m: nat)
    requires IsTrace(args, tr) && k <= m <= |args| && tr[k].done
    ensures tr[m] == tr[k]
    decreases m
  {
    if m > k {
      TraceDone(args, tr, k, m - 1);
      assert tr[m] == Step(args, tr[m - 1], m - 1);
    }
  }

  /** A step of the trace in the file name loop of the Stdout arm. */
  lemma OutputTrace(args: seq<byte>, tr: seq<Scan>, pos: nat)
    requires IsTrace(args, tr) && pos < |args|
    requires (tr[pos].mode == Stdout || tr[pos].mode == StdoutAppend) && !tr[pos].peek && !tr[pos].done
    ensures tr[pos + 1] == OutputStep(tr[pos], args[pos])
  {
    assert tr[pos + 1] == Step(args, tr[pos], pos);
  }

  /** A step of the trace in the file name loop of the Stdin arm. */
  lemma InputTrace(args: seq<byte>, tr: seq<Scan>, pos: nat)
    requires IsTrace(args, tr) && pos < |args|
    requires tr[pos].mode == Stdin && !tr[pos].done
    ensures tr[pos + 1] == InputStep(tr[pos], args[pos])
  {
    assert tr[pos + 1] == Step(args, tr[pos], pos);
  }

  /** The outcome of a candidate read off its trace. */
  lemma ParseOfTrace(args: seq<byte>, tr: seq<Scan>)
    requires IsTrace(args, tr)
    ensures Parse(args) == Flush(args, End(tr[|args|]))
  {
    TraceIsStates(args, tr, |args|);
  }
}
