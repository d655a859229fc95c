/**
 * What every pipeline `collect` pushes satisfies, whatever the input: jobs
 * are never empty, every argument is a contiguous slice of the statement,
 * file names are never empty, standard input never appends, and the only
 * error texts are the two messages of the source.
 */
module SplitterFacts {
  import opened Bytes
  import opened Splitter
  import Trimmer
  import Collect

  /** `a` is `args[lo..hi]` for some span: an argument taken verbatim. */
  predicate IsSlice(args: seq<byte>, a: seq<byte>) {
    exists lo, hi | 0 <= lo <= hi <= |args| :: a == args[lo..hi]
  }

  predicate GoodJob(args: seq<byte>, j: Job) {
    j.args != [] && forall a | a in j.args :: IsSlice(args, a)
  }

  predicate GoodError(e: Option<string>) {
    e.Some? ==> e.value == MISSING_STDOUT || e.value == MISSING_STDIN
  }

  /** The invariant `collect` keeps between two bytes. */
  predicate Sound(args: seq<byte>, st: Scan) {
    && (forall j | j in st.jobs :: GoodJob(args, j))
    && (forall a | a in st.arguments :: a != [] && IsSlice(args, a))
    && (st.inFile.Some? ==> st.inFile.value.file != [] && !st.inFile.value.append)
    && (st.outFile.Some? ==> st.outFile.value.file != [])
    && GoodError(st.error)
  }

  lemma SliceIsSlice(args: seq<byte>, lo: nat, hi: nat)
    requires lo <= hi <= |args|
    ensures IsSlice(args, args[lo..hi])
  {
  }

  lemma JobFoundSound(args: seq<byte>, st: Scan, background: bool)
    requires st.argStart <= st.index < |args|
    requires st.arguments != [] ==> st.index > 0
    requires Sound(args, st)
    ensures Sound(args, JobFound(args, st, background))
  {
    SliceIsSlice(args, st.argStart, st.index);
    var r := JobFound(args, st, background);
    assert r.jobs == st.jobs + [r.jobs[|st.jobs|]];
    forall j | j in r.jobs
      ensures GoodJob(args, j)
    {
      if j !in st.jobs {
        assert j == r.jobs[|st.jobs|];
      }
    }
  }

  lemma ArmStepSound(args: seq<byte>, st: Scan, arm: ArgArm)
    requires st.argStart <= st.index < |args|
    requires st.arguments != [] ==> st.index > 0
    requires !st.peek
    requires Sound(args, st)
    ensures Sound(args, ArmStep(args, st, arm))
  {
    if arm == Pipe || arm == Ampersand {
      JobFoundSound(args, st, arm == Ampersand);
    } else if arm == ArgArm.Blank && st.argStart != st.index {
      SliceIsSlice(args, st.argStart, st.index);
      var r := ArmStep(args, st, arm);
      assert r.arguments == st.arguments + [args[st.argStart..st.index]];
    }
  }

  lemma OutputStepSound(args: seq<byte>, st: Scan, c: byte)
    requires st.mode != False && (st.peek ==> st.mode == Stdout)
    requires Sound(args, st)
    ensures Sound(args, OutputStep(st, c))
  {
  }

  lemma InputStepSound(args: seq<byte>, st: Scan, c: byte)
    requires st.mode != False && (st.peek ==> st.mode == Stdout)
    requires Sound(args, st)
    ensures Sound(args, InputStep(st, c))
  {
  }

  /** One byte keeps the invariant, in every arm. */
  lemma StepSound(args: seq<byte>, st: Scan, pos: nat)
    requires pos < |args| && Bounds(st, pos)
    requires Sound(args, st)
    ensures Sound(args, Step(args, st, pos))
  {
    if st.done {
    } else if st.mode == False {
      ArmStepSound(args, st, ArgArmOf(st.flags, args[st.index]));
    } else if st.mode == Stdin {
      InputStepSound(args, st, args[pos]);
    } else if !st.peek {
      OutputStepSound(args, st, args[pos]);
    }
  }

  lemma {:induction false} StatesSound(args: seq<byte>, n: nat)
    requires n <= |args|
    ensures Sound(args, States(args, n))
    decreases n
  {
    if n > 0 {
      StatesSound(args, n - 1);
      StepOfStatesSound(args, n);
    }
  }

  lemma StepOfStatesSound(args: seq<byte>, n: nat)
    requires 0 < n <= |args| && Sound(args, States(args, n - 1))
    ensures Sound(args, States(args, n))
  {
    var prev := States(args, n - 1);
    StepSound(args, prev, n - 1);
  }

  /**
   * Every pipeline `collect` pushes: non-empty jobs of verbatim slices,
   * non-empty file names, a standard input that never appends, and one of
   * the two messages or no error.
   */
  lemma ParseSound(args: seq<byte>)
    ensures forall j | j in Parse(args).pipeline.jobs :: j.args != [] && forall a | a in j.args :: IsSlice(args, a)
    ensures Parse(args).pipeline.stdin.Some? ==> Parse(args).pipeline.stdin.value.file != [] && !Parse(args).pipeline.stdin.value.append
    ensures Parse(args).pipeline.stdout.Some? ==> Parse(args).pipeline.stdout.value.file != []
    ensures Parse(args).error.Some? ==> Parse(args).error.value in {MISSING_STDOUT, MISSING_STDIN}
  {
    var st := States(args, |args|);
    StatesSound(args, |args|);
    var e := End(st);
    assert Sound(args, e);
    var arguments := if e.argStart != e.index then e.arguments + [args[e.argStart..e.index]] else e.arguments;
    if e.argStart != e.index {
      SliceIsSlice(args, e.argStart, e.index);
    }
    assert forall a | a in arguments :: IsSlice(args, a);
    var p := Parse(args);
    forall j | j in p.pipeline.jobs
      ensures GoodJob(args, j)
    {
      if j !in e.jobs {
        assert j == Job(arguments, false);
      }
    }
  }

  /**
   * One run of `collect` appends one pipeline for a statement with content
   * and none for a blank one, leaves the earlier pipelines as they were,
   * and overwrites the error only with one of the two messages.
   */
  lemma CollectAppends(pipelines: seq<Pipeline>, possibleError: Option<string>, command: seq<byte>)
    ensures |Collect.Outcome(pipelines, possibleError, command).0| == |pipelines| + if Trimmer.AllWhitespace(command) then 0 else 1
    ensures Collect.Outcome(pipelines, possibleError, command).0[..|pipelines|] == pipelines
    ensures Trimmer.AllWhitespace(command) ==> Collect.Outcome(pipelines, possibleError, command).1 == possibleError
    ensures GoodError(possibleError) ==> GoodError(Collect.Outcome(pipelines, possibleError, command).1)
  {
    var t := Trimmer.Trim(command);
    if t.Some? {
      ParseSound(t.value);
      var o := Collect.Outcome(pipelines, possibleError, command);
      assert o.0 == pipelines + [Parse(t.value).pipeline];
      assert o.0[..|pipelines|] == pipelines;
    }
  }
}
