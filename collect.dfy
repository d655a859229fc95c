/**
 * `collect` (src/parser/pipelines.rs:82-290): the job splitter and
 * redirection state machine, written the way the source runs it.  Every
 * method here is proved against the trace of states the functions of
 * `Splitter` define.
 */
module Collect {
  import opened Bytes
  import opened ScanFlags
  import opened Splitter
  import Trimmer

  /** The locals `collect` keeps after its labelled loop agree with `st`. */
  predicate Agrees(st: Scan, index: nat, argStart: nat, arguments: seq<seq<byte>>, jobs: seq<Job>,
                   inFile: Option<Redirection>, outFile: Option<Redirection>, error: Option<string>)
  {
    && st.index == index && st.argStart == argStart && st.arguments == arguments && st.jobs == jobs
    && st.inFile == inFile && st.outFile == outFile && st.error == error
  }

  /** The locals at the head of `'outer`: no file name buffer, and the Stdout arm still to peek. */
  function Head(mode: RedirMode, flags: bv8, index: nat, argStart: nat, arguments: seq<seq<byte>>, jobs: seq<Job>,
                inFile: Option<Redirection>, outFile: Option<Redirection>, error: Option<string>): Scan
  {
    Scan(mode, flags, index, argStart, arguments, jobs, inFile, outFile, mode == Stdout, [], false, false, error)
  }

  /** `job_found!` (lines 115-128) at the separator `args[index]`. */
  method FoundJob(args: seq<byte>, index: nat, argStart0: nat, arguments0: seq<seq<byte>>, jobs0: seq<Job>,
                  background: bool, ghost flags: bv8)
    returns (argStart: nat, arguments: seq<seq<byte>>, jobs: seq<Job>)
    requires argStart0 <= index < |args| && (arguments0 != [] ==> index > 0)
    ensures Head(False, flags, index, argStart, arguments, jobs, None, None, None)
         == JobFound(args, Head(False, flags, index, argStart0, arguments0, jobs0, None, None, None), background)
  {
    argStart, arguments, jobs := argStart0, arguments0, jobs0;
    if arguments == [] {
      jobs := jobs + [Job([args[argStart..index]], background)];
    } else {
      if args[index - 1] != SPACE {
        arguments := arguments + [args[argStart..index]];
      }
      jobs := jobs + [Job(arguments, background)];
      arguments := [];
    }
    argStart := index + 1;
  }

  /**
   * One byte of the argument arm (lines 134-154): the `match character`
   * for `args[index]`.  A mode other than False is `redir_found!` (line 112).
   */
  method ArgumentByte(args: seq<byte>, ghost tr: seq<Scan>, index: nat, flags0: bv8, argStart0: nat,
                      arguments0: seq<seq<byte>>, jobs0: seq<Job>)
    returns (flags: bv8, argStart: nat, arguments: seq<seq<byte>>, jobs: seq<Job>, mode: RedirMode)
    requires IsTrace(args, tr)
    requires argStart0 <= index < |args| && (arguments0 != [] ==> index > 0)
    requires tr[index] == Head(False, flags0, index, argStart0, arguments0, jobs0, None, None, None)
    ensures tr[index + 1] == Head(mode, flags, index + 1, argStart, arguments, jobs, None, None, None)
    ensures mode != StdoutAppend
  {
    assert tr[index + 1] == Step(args, tr[index], index);
    flags, argStart, arguments, jobs, mode := flags0, argStart0, arguments0, jobs0, False;
    var c := args[index];
    var arm := ArgArmOf(flags, c);
    if arm == Blank {
      if argStart != index {
        arguments := arguments + [args[argStart..index]];
        argStart := index + 1;
      } else {
        argStart := argStart + 1;
      }
    } else if arm == Pipe || arm == Ampersand {
      argStart, arguments, jobs := FoundJob(args, index, argStart, arguments, jobs, arm == Ampersand, flags);
    } else if arm == Greater || arm == Less {
      // redir_found!
      mode := if arm == Greater then Stdout else Stdin;
      argStart := index + 1;
    } else {
      flags := ArgFlags(flags, c);
    }
  }

  /**
   * The argument arm of `'outer` (lines 132-157): scan bytes until the
   * iterator runs dry (mode stays False) or a redirection starts.
   */
  method ScanArguments(args: seq<byte>, ghost tr: seq<Scan>, pos0: nat, flags0: bv8, index0: nat, argStart0: nat,
                       arguments0: seq<seq<byte>>, jobs0: seq<Job>)
    returns (pos: nat, flags: bv8, index: nat, argStart: nat, arguments: seq<seq<byte>>, jobs: seq<Job>, mode: RedirMode)
    requires IsTrace(args, tr)
    requires argStart0 <= index0 == pos0 <= |args| && (arguments0 != [] ==> index0 > 0)
    requires tr[pos0] == Head(False, flags0, index0, argStart0, arguments0, jobs0, None, None, None)
    ensures argStart <= index <= pos <= |args| && (arguments != [] ==> index > 0)
    ensures tr[pos] == Head(mode, flags, index, argStart, arguments, jobs, None, None, None)
    ensures mode == False ==> pos == |args|
    ensures mode != False ==> pos0 < pos && (mode == Stdout || mode == Stdin)
  {
    pos, flags, index, argStart, arguments, jobs := pos0, flags0, index0, argStart0, arguments0, jobs0;
    mode := False;
    while pos < |args|
      invariant argStart <= index == pos && pos0 <= pos <= |args| && (arguments != [] ==> index > 0) && mode == False
      invariant tr[pos] == Head(False, flags, index, argStart, arguments, jobs, None, None, None)
    {
      flags, argStart, arguments, jobs, mode := ArgumentByte(args, tr, index, flags, argStart, arguments, jobs);
      pos, index := pos + 1, index + 1;
      if mode != False {
        return;
      }
    }
  }

  /**
   * One byte of the file name loop of the Stdout arm (lines 172-217).  A
   * mode of Stdin is `continue 'outer`; `done` is `break 'outer`.
   */
  method OutputByte(c: byte, mode0: RedirMode, flags0: bv8, file0: seq<byte>, foundFile0: bool,
                    inFile: Option<Redirection>, outFile0: Option<Redirection>, error0: Option<string>,
                    ghost index: nat, ghost argStart: nat, ghost arguments: seq<seq<byte>>, ghost jobs: seq<Job>)
    returns (mode: RedirMode, flags: bv8, file: seq<byte>, foundFile: bool, outFile: Option<Redirection>,
             error: Option<string>, done: bool)
    requires mode0 == Stdout || mode0 == StdoutAppend
    ensures Scan(mode, flags, index, argStart, arguments, jobs, inFile, outFile, false, file, foundFile, done, error)
         == OutputStep(Scan(mode0, flags0, index, argStart, arguments, jobs, inFile, outFile0, false, file0, foundFile0, false, error0), c)
  {
    mode, flags, file, foundFile, outFile, error, done := mode0, flags0, file0, foundFile0, outFile0, error0, false;
    if foundFile {
      if c == LT {
        if inFile.Some? {
          done := true;
        } else {
          mode, file, foundFile := Stdin, [], false;
        }
      }
    } else if flags & BACKSLASH != 0 {
      file := file + [c];
      flags := flags ^ BACKSLASH;
    } else if c == BACKSLASH_BYTE {
      flags := flags ^ BACKSLASH;
    } else if (IsBlank(c) || c == PIPE) && file == [] {
    } else if IsBlank(c) || c == PIPE {
      foundFile := true;
      outFile := Some(Redirection(file, mode == StdoutAppend));
    } else if c == LT && file == [] {
      error := Some(MISSING_STDOUT);
      done := true;
    } else if c == LT {
      outFile := Some(Redirection(file, mode == StdoutAppend));
      if inFile.Some? {
        done := true;
      } else {
        mode, file, foundFile := Stdin, [], false;
      }
    } else {
      file := file + [c];
    }
  }

  /**
   * The file name loop of the Stdout arm and the `redir_check!` after it
   * (lines 169-220), from `pos0`, the byte after the peek.
   */
  method ScanStdoutFile(args: seq<byte>, ghost tr: seq<Scan>, pos0: nat, mode0: RedirMode, flags0: bv8,
                        inFile: Option<Redirection>, outFile0: Option<Redirection>, error0: Option<string>,
                        ghost index: nat, ghost argStart: nat, ghost arguments: seq<seq<byte>>, ghost jobs: seq<Job>)
    returns (pos: nat, flags: bv8, mode: RedirMode, outFile: Option<Redirection>, error: Option<string>, leave: bool)
    requires IsTrace(args, tr)
    requires argStart <= index <= pos0 <= |args| && (arguments != [] ==> index > 0)
    requires mode0 == Stdout || mode0 == StdoutAppend
    requires tr[pos0] == Scan(mode0, flags0, index, argStart, arguments, jobs, inFile, outFile0, false, [], false, false, error0)
    ensures !leave ==> pos0 < pos <= |args| && mode == Stdin
    ensures !leave ==> tr[pos] == Head(Stdin, flags, index, argStart, arguments, jobs, inFile, outFile, error)
    ensures leave ==> Agrees(End(tr[|args|]), index, argStart, arguments, jobs, inFile, outFile, error)
  {
    pos, flags, mode, outFile, error := pos0, flags0, mode0, outFile0, error0;
    leave := true;
    var stdoutFile: seq<byte> := [];
    var foundFile := false;
    var done := false;
    while pos < |args|
      invariant pos0 <= pos <= |args| && (mode == Stdout || mode == StdoutAppend)
      invariant tr[pos] == Scan(mode, flags, index, argStart, arguments, jobs, inFile, outFile, false, stdoutFile, foundFile, false, error)
    {
      OutputTrace(args, tr, pos);
      var c := args[pos];
      pos := pos + 1;
      mode, flags, stdoutFile, foundFile, outFile, error, done :=
        OutputByte(c, mode, flags, stdoutFile, foundFile, inFile, outFile, error, index, argStart, arguments, jobs);
      if done {
        TraceDone(args, tr, pos, |args|);
        return;
      } else if mode == Stdin {
        leave := false;
        return;
      }
    }

    // redir_check!
    if outFile.None? {
      if stdoutFile == [] {
        error := Some(MISSING_STDOUT);
      } else {
        outFile := Some(Redirection(stdoutFile, mode == StdoutAppend));
      }
    }
  }

  /**
   * The Stdout arm of `'outer` (lines 160-221): the byte after `>` only
   * decides between `>` and `>>`; then the file name.
   */
  method ScanStdout(args: seq<byte>, ghost tr: seq<Scan>, pos0: nat, flags0: bv8,
                    inFile: Option<Redirection>, outFile0: Option<Redirection>, error0: Option<string>,
                    ghost index: nat, ghost argStart: nat, ghost arguments: seq<seq<byte>>, ghost jobs: seq<Job>)
    returns (pos: nat, flags: bv8, mode: RedirMode, outFile: Option<Redirection>, error: Option<string>, leave: bool)
    requires IsTrace(args, tr)
    requires argStart <= index <= pos0 <= |args| && (arguments != [] ==> index > 0)
    requires tr[pos0] == Head(Stdout, flags0, index, argStart, arguments, jobs, inFile, outFile0, error0)
    ensures !leave ==> pos0 < pos <= |args| && mode == Stdin
    ensures !leave ==> tr[pos] == Head(Stdin, flags, index, argStart, arguments, jobs, inFile, outFile, error)
    ensures leave ==> Agrees(End(tr[|args|]), index, argStart, arguments, jobs, inFile, outFile, error)
  {
    if pos0 == |args| {
      pos, flags, mode, outFile, error, leave := pos0, flags0, Stdout, outFile0, Some(MISSING_STDOUT), true;
      return;
    }
    assert tr[pos0 + 1] == Step(args, tr[pos0], pos0);
    mode := if args[pos0] == GT then StdoutAppend else Stdout;
    pos, flags, mode, outFile, error, leave :=
      ScanStdoutFile(args, tr, pos0 + 1, mode, flags0, inFile, outFile0, error0, index, argStart, arguments, jobs);
  }

  /**
   * One byte of the file name loop of the Stdin arm (lines 227-269).  A
   * mode of Stdout or Stdin is `continue 'outer`; `done` is `break 'outer`.
   */
  method InputByte(c: byte, flags0: bv8, file0: seq<byte>, foundFile0: bool,
                   inFile0: Option<Redirection>, outFile: Option<Redirection>, error0: Option<string>,
                   ghost index: nat, ghost argStart: nat, ghost arguments: seq<seq<byte>>, ghost jobs: seq<Job>)
    returns (mode: RedirMode, flags: bv8, file: seq<byte>, foundFile: bool, inFile: Option<Redirection>,
             error: Option<string>, done: bool, again: bool)
    ensures again ==> mode == Stdin && file == [] && !foundFile && !done
    ensures !again ==>
              Scan(mode, flags, index, argStart, arguments, jobs, inFile, outFile, mode == Stdout, file, foundFile, done, error)
              == InputStep(Scan(Stdin, flags0, index, argStart, arguments, jobs, inFile0, outFile, false, file0, foundFile0, false, error0), c)
    ensures again ==>
              Head(Stdin, flags, index, argStart, arguments, jobs, inFile, outFile, error)
              == InputStep(Scan(Stdin, flags0, index, argStart, arguments, jobs, inFile0, outFile, false, file0, foundFile0, false, error0), c)
  {
    mode, flags, file, foundFile, inFile, error, done, again := Stdin, flags0, file0, foundFile0, inFile0, error0, false, false;
    if foundFile {
      if c == GT {
        if outFile.Some? {
          done := true;
        } else {
          mode, file, foundFile := Stdout, [], false;
        }
      }
    } else if flags & BACKSLASH != 0 {
      file := file + [c];
      flags := flags ^ BACKSLASH;
    } else if c == BACKSLASH_BYTE {
      flags := flags ^ BACKSLASH;
    } else if (IsBlank(c) || c == PIPE) && file == [] {
    } else if IsBlank(c) || c == PIPE {
      foundFile := true;
      inFile := Some(Redirection(file, false));
    } else if c == GT && file == [] {
      error := Some(MISSING_STDIN);
      done := true;
    } else if c == GT {
      inFile := Some(Redirection(file, false));
      if outFile.Some? {
        done := true;
      } else {
        // line 264: back to the head of `'outer` in the Stdin arm
        file, foundFile, again := [], false, true;
      }
    } else {
      file := file + [c];
    }
  }

  /**
   * The Stdin arm of `'outer` (lines 222-276): collect the file name, and
   * either leave `'outer`, go on to the Stdout arm, or (a `>` ending the
   * name, line 264) run this arm again.
   */
  method ScanStdin(args: seq<byte>, ghost tr: seq<Scan>, pos0: nat, flags0: bv8,
                   inFile0: Option<Redirection>, outFile: Option<Redirection>, error0: Option<string>,
                   ghost index: nat, ghost argStart: nat, ghost arguments: seq<seq<byte>>, ghost jobs: seq<Job>)
    returns (pos: nat, flags: bv8, mode: RedirMode, inFile: Option<Redirection>, error: Option<string>, leave: bool)
    requires IsTrace(args, tr)
    requires argStart <= index <= pos0 <= |args| && (arguments != [] ==> index > 0)
    requires tr[pos0] == Head(Stdin, flags0, index, argStart, arguments, jobs, inFile0, outFile, error0)
    ensures !leave ==> pos0 < pos <= |args| && (mode == Stdin || mode == Stdout)
    ensures !leave ==> tr[pos] == Head(mode, flags, index, argStart, arguments, jobs, inFile, outFile, error)
    ensures leave ==> Agrees(End(tr[|args|]), index, argStart, arguments, jobs, inFile, outFile, error)
  {
    pos, flags, mode, inFile, error := pos0, flags0, Stdin, inFile0, error0;
    leave := true;
    var stdinFile: seq<byte> := [];
    var foundFile := false;
    var done := false;
    var again := false;
    while pos < |args|
      invariant pos0 <= pos <= |args| && mode == Stdin
      invariant tr[pos] == Scan(Stdin, flags, index, argStart, arguments, jobs, inFile, outFile, false, stdinFile, foundFile, false, error)
    {
      InputTrace(args, tr, pos);
      var c := args[pos];
      pos := pos + 1;
      mode, flags, stdinFile, foundFile, inFile, error, done, again :=
        InputByte(c, flags, stdinFile, foundFile, inFile, outFile, error, index, argStart, arguments, jobs);
      if done {
        TraceDone(args, tr, pos, |args|);
        return;
      } else if again || mode == Stdout {
        leave := false;
        return;
      }
    }

    // redir_check!, which reports the '>' message here too
    if inFile.None? {
      if stdinFile == [] {
        error := Some(MISSING_STDOUT);
      } else {
        inFile := Some(Redirection(stdinFile, false));
      }
    }
  }

  /**
   * The body of the loop over the iterator's statements, for one candidate
   * statement `args` (lines 84-289): the pipeline it pushes and the error it
   * writes.
   */
  method CollectCandidate(args: seq<byte>) returns (pipeline: Pipeline, error: Option<string>)
    ensures Parsed(pipeline, error) == Parse(args)
  {
    var jobs: seq<Job> := [];
    var pos: nat := 0;  // how many bytes `args_iter` has handed out
    var index: nat, argStart: nat := 0, 0;
    var flags: bv8 := 0;
    var arguments: seq<seq<byte>> := [];
    var inFile: Option<Redirection>, outFile: Option<Redirection> := None, None;
    var mode := False;
    error := None;
    ghost var tr := TraceOf(args);

    label outer: while true
      invariant argStart <= index <= pos <= |args| && (arguments != [] ==> index > 0) && mode != StdoutAppend
      invariant mode == False ==> index == pos && inFile.None? && outFile.None? && error.None?
      invariant tr[pos] == Head(mode, flags, index, argStart, arguments, jobs, inFile, outFile, error)
      decreases |args| - pos
    {
      match mode {
        case False =>
          pos, flags, index, argStart, arguments, jobs, mode := ScanArguments(args, tr, pos, flags, index, argStart, arguments, jobs);
          if mode == False {
            break outer;
          }
        case Stdout | StdoutAppend =>
          var leave;
          pos, flags, mode, outFile, error, leave :=
            ScanStdout(args, tr, pos, flags, inFile, outFile, error, index, argStart, arguments, jobs);
          if leave {
            break outer;
          }
        case Stdin =>
          var leave;
          pos, flags, mode, inFile, error, leave :=
            ScanStdin(args, tr, pos, flags, inFile, outFile, error, index, argStart, arguments, jobs);
          if leave {
            break outer;
          }
      }
    }
    TraceIsStates(args, tr, |args|);

    if argStart != index {
      arguments := arguments + [args[argStart..index]];
    }
    if arguments != [] {
      jobs := jobs + [Job(arguments, false)];
    }
    pipeline := Pipeline(jobs, inFile, outFile);
  }

  /**
   * What `collect` leaves in `pipelines` and `possible_error`: one pipeline
   * for the one statement the iterator yields, if any, and its error, if it
   * reports one.
   */
  function Outcome(pipelines: seq<Pipeline>, possibleError: Option<string>, command: seq<byte>): (r: (seq<Pipeline>, Option<string>))
    ensures |r.0| == if Trimmer.HasContent(command) then |pipelines| + 1 else |pipelines|
    ensures r.0[..|pipelines|] == pipelines
    ensures !Trimmer.HasContent(command) ==> r.1 == possibleError
  {
    match Trimmer.Trim(command)
    case None => (pipelines, possibleError)
    case Some(args) =>
      var p := Parse(args);
      (pipelines + [p.pipeline], if p.error.Some? then p.error else possibleError)
  }

  /** `collect` (lines 82-290): run every candidate the iterator yields. */
  method Collect(pipelines0: seq<Pipeline>, possibleError0: Option<string>, command: seq<byte>)
    returns (pipelines: seq<Pipeline>, possibleError: Option<string>)
    ensures (pipelines, possibleError) == Outcome(pipelines0, possibleError0, command)
  {
    pipelines, possibleError := pipelines0, possibleError0;
    var iter := new Trimmer.PipelineIterator(command);
    while true
      invariant iter.Valid() && iter.matchStr == command
      invariant iter.Fresh() ==> pipelines == pipelines0 && possibleError == possibleError0
      invariant !iter.Fresh() ==> (pipelines, possibleError) == Outcome(pipelines0, possibleError0, command)
      decreases if iter.Fresh() then 1 else 0
    {
      var args := iter.Next();
      if args.None? {
        break;
      }
      var pipeline, error := CollectCandidate(args.value);
      pipelines := pipelines + [pipeline];
      if error.Some? {
        possibleError := error;
      }
    }
  }
}
