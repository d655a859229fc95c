/**
 * Redirections as `collect` reads them (src/parser/pipelines.rs:160-276):
 * after the words of the command, `>` or `>>` and a file name set standard
 * output, `<` and a file name set standard input, in either order, and the
 * source's edge cases: the byte right after `>` is never part of the name,
 * a word glued to the operator is dropped, a second redirection of a bound
 * stream ends the scan, and a missing name writes one of two messages.
 */
module Redirections {
  import opened Bytes
  import opened ScanFlags
  import opened Splitter
  import opened WordRuns
  import opened PlainStatements

  /** A byte a file name is made of. */
  predicate NameByte(c: byte) {
    !IsBlank(c) && c != PIPE && c != BACKSLASH_BYTE && c != LT && c != GT
  }

  predicate AllName(s: seq<byte>) {
    forall i | 0 <= i < |s| :: NameByte(s[i])
  }

  /** A blank or `|`: skipped before a file name, and the end of one. */
  predicate Skippable(c: byte) {
    IsBlank(c) || c == PIPE
  }

  predicate AllSkippable(s: seq<byte>) {
    forall i | 0 <= i < |s| :: Skippable(s[i])
  }

  /** The operator of the other redirection arm, the one byte an arm still looks at once its name is found. */
  function Opposite(mode: RedirMode): byte {
    if mode == Stdin then GT else LT
  }

  predicate Lacks(s: seq<byte>, c: byte) {
    forall i | 0 <= i < |s| :: s[i] != c
  }

  /** What may follow a name in the arm of `mode`: nothing, or a byte that ends it and then anything but the other operator. */
  predicate Tail(s: seq<byte>, mode: RedirMode) {
    s == [] || (Skippable(s[0]) && Lacks(s, Opposite(mode)))
  }

  /** What the argument arm hands to a redirection arm: the jobs it closed and the words of the job still open. */
  datatype Before = Before(jobs: seq<Job>, words: seq<seq<byte>>)

  /** The jobs and words of a plain prefix; the span glued to the operator is not among the words. */
  function Prefix(u: seq<byte>): Before {
    Before(Cut(u).closed, Split(Cut(u).piece).finished)
  }

  /** The jobs a plain prefix contributes to the pipeline once the scan has flushed. */
  function JobsBefore(u: seq<byte>): seq<Job> {
    Prefix(u).jobs + JobOf(Prefix(u).words)
  }

  /** The job the flush after the loop pushes for arguments `w`, if any. */
  function JobOf(w: seq<seq<byte>>): seq<Job> {
    if w == [] then [] else [Job(w, false)]
  }

  /** A file name loop is running: not peeking and not left. */
  predicate FileArm(st: Scan) {
    st.mode != False && !st.peek && !st.done
  }

  function FileStep(st: Scan, c: byte): Scan
    requires FileArm(st)
  {
    if st.mode == Stdin then InputStep(st, c) else OutputStep(st, c)
  }

  lemma FileStepAt(args: seq<byte>, tr: seq<Scan>, n: nat)
    requires IsTrace(args, tr) && n < |args| && FileArm(tr[n])
    ensures tr[n + 1] == FileStep(tr[n], args[n])
  {
    assert tr[n + 1] == Step(args, tr[n], n);
  }

  /** The name is being read: no escape pending and no name found yet. */
  predicate Reading(st: Scan) {
    FileArm(st) && st.flags & BACKSLASH == 0 && !st.foundFile
  }

  /** Blanks and `|` before the name are skipped. */
  lemma {:induction false} SkipLeading(args: seq<byte>, tr: seq<Scan>, lo: nat, hi: nat)
    requires IsTrace(args, tr) && lo <= hi <= |args| && Reading(tr[lo]) && tr[lo].file == []
    requires forall i | lo <= i < hi :: Skippable(args[i])
    ensures tr[hi] == tr[lo]
    decreases hi
  {
    if hi > lo {
      SkipLeading(args, tr, lo, hi - 1);
      FileStepAt(args, tr, hi - 1);
    }
  }

  /** Name bytes are appended to the name. */
  lemma {:induction false} ReadName(args: seq<byte>, tr: seq<Scan>, lo: nat, hi: nat)
    requires IsTrace(args, tr) && lo <= hi <= |args| && Reading(tr[lo])
    requires forall i | lo <= i < hi :: NameByte(args[i])
    ensures tr[hi] == tr[lo].(file := tr[lo].file + args[lo..hi])
    decreases hi
  {
    if hi > lo {
      ReadName(args, tr, lo, hi - 1);
      FileStepAt(args, tr, hi - 1);
      assert args[lo..hi] == args[lo..hi - 1] + [args[hi - 1]];
    }
  }

  /** A backslash while reading a name only raises the escape bit. */
  lemma BackslashInName(st: Scan)
    requires Reading(st)
    ensures FileStep(st, BACKSLASH_BYTE) == st.(flags := st.flags ^ BACKSLASH)
  {
  }

  /** With the escape bit up, any byte joins the name and clears the bit. */
  lemma EscapedInName(st: Scan, c: byte)
    requires FileArm(st) && !st.foundFile && st.flags & BACKSLASH != 0
    ensures FileStep(st, c) == st.(file := st.file + [c], flags := st.flags ^ BACKSLASH)
  {
  }

  /** A backslash in a name is dropped and the byte after it kept, whatever it is. */
  lemma EscapeInName(args: seq<byte>, tr: seq<Scan>, n: nat)
    requires IsTrace(args, tr) && n + 1 < |args| && Reading(tr[n]) && args[n] == BACKSLASH_BYTE
    ensures tr[n + 2] == tr[n].(file := tr[n].file + [args[n + 1]])
  {
    var st := tr[n];
    var e := st.(flags := st.flags ^ BACKSLASH);
    assert e.flags & BACKSLASH != 0 && e.flags ^ BACKSLASH == st.flags;
    FileStepAt(args, tr, n);
    BackslashInName(st);
    FileStepAt(args, tr, n + 1);
    EscapedInName(e, args[n + 1]);
  }

  /** The arm's redirection once its name has ended. */
  function Found(st: Scan): Scan {
    if st.mode == Stdin then st.(foundFile := true, inFile := Some(Redirection(st.file, false)))
    else st.(foundFile := true, outFile := Some(Target(st)))
  }

  lemma EndName(args: seq<byte>, tr: seq<Scan>, n: nat)
    requires IsTrace(args, tr) && n < |args| && Reading(tr[n]) && tr[n].file != [] && Skippable(args[n])
    ensures tr[n + 1] == Found(tr[n])
  {
    FileStepAt(args, tr, n);
  }

  /** Once the name is found, everything but the other operator is ignored. */
  lemma {:induction false} IgnoreRest(args: seq<byte>, tr: seq<Scan>, lo: nat, hi: nat)
    requires IsTrace(args, tr) && lo <= hi <= |args| && FileArm(tr[lo]) && tr[lo].foundFile
    requires forall i | lo <= i < hi :: args[i] != Opposite(tr[lo].mode)
    ensures tr[hi] == tr[lo]
    decreases hi
  {
    if hi > lo {
      IgnoreRest(args, tr, lo, hi - 1);
      FileStepAt(args, tr, hi - 1);
    }
  }

  /**
   * One file name argument: skipped bytes in `[lo, nb)`, the name in
   * `[nb, nf)`, and a tail in `[nf, hi)` that ends the name when it is not
   * empty.
   */
  lemma FileArgument(args: seq<byte>, tr: seq<Scan>, lo: nat, nb: nat, nf: nat, hi: nat)
    requires IsTrace(args, tr) && lo <= nb < nf <= hi <= |args|
    requires Reading(tr[lo]) && tr[lo].file == []
    requires forall i | lo <= i < nb :: Skippable(args[i])
    requires forall i | nb <= i < nf :: NameByte(args[i])
    requires nf < hi ==> Skippable(args[nf])
    requires forall i | nf <= i < hi :: args[i] != Opposite(tr[lo].mode)
    ensures var named := tr[lo].(file := args[nb..nf]);
      tr[hi] == if nf == hi then named else Found(named)
  {
    SkipLeading(args, tr, lo, nb);
    ReadName(args, tr, nb, nf);
    assert tr[lo].file + args[nb..nf] == args[nb..nf];
    if nf < hi {
      EndName(args, tr, nf);
      IgnoreRest(args, tr, nf + 1, hi);
    }
  }

  /**
   * The scan at the start of a redirection arm after the plain prefix `w`:
   * the argument span ends at `m`, the operator's position, and `inFile`
   * and `outFile` are the streams bound so far.
   */
  function ArmState(mode: RedirMode, m: nat, w: Before, inFile: Option<Redirection>, outFile: Option<Redirection>, peek: bool): Scan {
    Scan(mode, 0, m + 1, m + 1, w.words, w.jobs, inFile, outFile, peek, [], false, false, None)
  }

  /** A `>` or `<` under a clear register enters its arm and abandons the pending span. */
  lemma OperatorStep(args: seq<byte>, st: Scan, m: nat)
    requires m < |args| && (args[m] == GT || args[m] == LT) && Bounds(st, m)
    requires st == Scan(False, 0, m, st.argStart, st.arguments, st.jobs, None, None, false, [], false, false, None)
    ensures Step(args, st, m) == ArmState(if args[m] == GT then Stdout else Stdin, m, Before(st.jobs, st.arguments), None, None, args[m] == GT)
  {
    assert ArgArmOf(0, args[m]) == if args[m] == GT then Greater else Less;
    assert Step(args, st, m) == ArmStep(args, st, ArgArmOf(0, args[m]));
  }

  /** The jobs and words before the operator are kept, the span glued to it abandoned, and its arm entered. */
  lemma EnterArm(args: seq<byte>, tr: seq<Scan>, m: nat)
    requires IsTrace(args, tr) && m < |args| && AllPlain(args[..m])
    requires args[m] == GT || args[m] == LT
    ensures tr[m + 1] == ArmState(if args[m] == GT then Stdout else Stdin, m, Prefix(args[..m]), None, None, args[m] == GT)
  {
    PlainTrace(args, tr, m);
    OperatorStep(args, tr[m], m);
    assert tr[m + 1] == Step(args, tr[m], m);
  }

  /** The byte after `>` only decides between `>` and `>>`; it is never part of the name. */
  lemma PeekAt(args: seq<byte>, tr: seq<Scan>, n: nat, m: nat, w: Before, inFile: Option<Redirection>, outFile: Option<Redirection>)
    requires IsTrace(args, tr) && n < |args| && tr[n] == ArmState(Stdout, m, w, inFile, outFile, true)
    ensures tr[n + 1] == ArmState(if args[n] == GT then StdoutAppend else Stdout, m, w, inFile, outFile, false)
  {
    assert tr[n + 1] == Step(args, tr[n], n);
  }

  /** Whether the stream of the other arm is already bound. */
  predicate OtherBound(st: Scan) {
    if st.mode == Stdin then st.outFile.Some? else st.inFile.Some?
  }

  /** The other operator after a found name ends the scan when that stream is already bound. */
  lemma StopAt(args: seq<byte>, tr: seq<Scan>, n: nat)
    requires IsTrace(args, tr) && n < |args| && FileArm(tr[n]) && tr[n].foundFile
    requires args[n] == Opposite(tr[n].mode) && OtherBound(tr[n])
    ensures tr[n + 1] == tr[n].(done := true)
  {
    FileStepAt(args, tr, n);
  }

  /** The arm's stream bound to the buffered name, without marking the name found. */
  function Bind(st: Scan): Scan {
    if st.mode == Stdin then st.(inFile := Some(Redirection(st.file, false)))
    else st.(outFile := Some(Target(st)))
  }

  /**
   * The other operator glued to a name binds the arm's stream to it and,
   * when the other stream is already bound, ends the scan (lines 200-207
   * and 255-262).
   */
  lemma StopGluedAt(args: seq<byte>, tr: seq<Scan>, n: nat)
    requires IsTrace(args, tr) && n < |args| && Reading(tr[n]) && tr[n].file != []
    requires args[n] == Opposite(tr[n].mode) && OtherBound(tr[n])
    ensures tr[n + 1] == Bind(tr[n]).(done := true)
  {
    FileStepAt(args, tr, n);
  }

  /** `>` after an input name moves to the output arm. */
  lemma SwitchToOutput(args: seq<byte>, tr: seq<Scan>, n: nat, m: nat, w: Before, f: seq<byte>)
    requires IsTrace(args, tr) && n < |args| && args[n] == GT
    requires tr[n] == Found(ArmState(Stdin, m, w, None, None, false).(file := f))
    ensures tr[n + 1] == ArmState(Stdout, m, w, Some(Redirection(f, false)), None, true)
  {
    FileStepAt(args, tr, n);
  }

  /** `<` after an output name moves to the input arm. */
  lemma SwitchToInput(args: seq<byte>, tr: seq<Scan>, n: nat, m: nat, w: Before, mode: RedirMode, f: seq<byte>)
    requires IsTrace(args, tr) && n < |args| && args[n] == LT && (mode == Stdout || mode == StdoutAppend)
    requires tr[n] == Found(ArmState(mode, m, w, None, None, false).(file := f))
    ensures tr[n + 1] == ArmState(Stdin, m, w, None, Some(Redirection(f, mode == StdoutAppend)), false)
  {
    FileStepAt(args, tr, n);
  }

  /**
   * `>` right after an input name binds standard input and, as line 264
   * reads, runs the input arm again rather than the output arm.
   */
  lemma ReenterInput(args: seq<byte>, tr: seq<Scan>, n: nat, m: nat, w: Before, f: seq<byte>)
    requires IsTrace(args, tr) && n < |args| && args[n] == GT && f != []
    requires tr[n] == ArmState(Stdin, m, w, None, None, false).(file := f)
    ensures tr[n + 1] == ArmState(Stdin, m, w, Some(Redirection(f, false)), None, false)
  {
    FileStepAt(args, tr, n);
  }

  /** `<` right after an output name binds standard output and moves to the input arm. */
  lemma SwitchGluedToInput(args: seq<byte>, tr: seq<Scan>, n: nat, m: nat, w: Before, mode: RedirMode, f: seq<byte>)
    requires IsTrace(args, tr) && n < |args| && args[n] == LT && f != [] && (mode == Stdout || mode == StdoutAppend)
    requires tr[n] == ArmState(mode, m, w, None, None, false).(file := f)
    ensures tr[n + 1] == ArmState(Stdin, m, w, None, Some(Redirection(f, mode == StdoutAppend)), false)
  {
    FileStepAt(args, tr, n);
  }

  /** The pipeline when the scan ends in an arm with the name `f`, ended or not. */
  lemma ParseAfterName(args: seq<byte>, tr: seq<Scan>, mode: RedirMode, m: nat, w: Before, inFile: Option<Redirection>, outFile: Option<Redirection>, f: seq<byte>, ended: bool)
    requires IsTrace(args, tr) && m < |args| && mode != False && f != []
    requires mode == Stdin ==> inFile == None
    requires mode != Stdin ==> outFile == None
    requires var named := ArmState(mode, m, w, inFile, outFile, false).(file := f);
      tr[|args|] == if ended then Found(named) else named
    ensures Parse(args) == Parsed(Pipeline(w.jobs + JobOf(w.words),
      if mode == Stdin then Some(Redirection(f, false)) else inFile,
      if mode == Stdin then outFile else Some(Redirection(f, mode == StdoutAppend))), None)
  {
    ParseOfTrace(args, tr);
  }

  /** `s` sits in `args` at `lo`. */
  predicate At(args: seq<byte>, lo: nat, s: seq<byte>) {
    lo + |s| <= |args| && args[lo..lo + |s|] == s
  }

  lemma AtConcat(x: seq<byte>, s: seq<byte>, y: seq<byte>)
    ensures At(x + s + y, |x|, s)
  {
    assert (x + s + y)[|x|..|x| + |s|] == s;
  }

  /** One file name argument `b + f + t` at `lo`: skipped bytes, the name, and a tail. */
  lemma NameArgument(args: seq<byte>, tr: seq<Scan>, lo: nat, b: seq<byte>, f: seq<byte>, t: seq<byte>)
    requires IsTrace(args, tr) && At(args, lo, b + f + t) && Reading(tr[lo]) && tr[lo].file == []
    requires AllSkippable(b) && f != [] && AllName(f) && Tail(t, tr[lo].mode)
    ensures var named := tr[lo].(file := f);
      tr[lo + |b| + |f| + |t|] == if t == [] then named else Found(named)
  {
    var nb := lo + |b|;
    var nf := nb + |f|;
    var hi := nf + |t|;
    NameLayout(args, lo, b, f, t, tr[lo].mode);
    FileArgument(args, tr, lo, nb, nf, hi);
  }

  /** Where the parts of `b + f + t` at `lo` sit in `args`, byte by byte. */
  lemma NameLayout(args: seq<byte>, lo: nat, b: seq<byte>, f: seq<byte>, t: seq<byte>, mode: RedirMode)
    requires At(args, lo, b + f + t) && AllSkippable(b) && AllName(f) && Tail(t, mode)
    ensures forall i | lo <= i < lo + |b| :: Skippable(args[i])
    ensures forall i | lo + |b| <= i < lo + |b| + |f| :: NameByte(args[i])
    ensures forall i | lo + |b| + |f| <= i < lo + |b| + |f| + |t| ::
      args[i] != Opposite(mode) && (i == lo + |b| + |f| ==> Skippable(args[i]))
    ensures args[lo + |b|..lo + |b| + |f|] == f
  {
    var s := b + f + t;
    var nb := lo + |b|;
    var nf := nb + |f|;
    assert forall i | lo <= i < lo + |s| :: args[i] == s[i - lo] by {
      forall i | lo <= i < lo + |s| ensures args[i] == s[i - lo] {
        assert args[i] == args[lo..lo + |s|][i - lo];
      }
    }
    forall i | lo <= i < nb ensures Skippable(args[i]) {
      assert s[i - lo] == b[i - lo];
    }
    forall i | nb <= i < nf ensures NameByte(args[i]) {
      assert s[i - lo] == f[i - nb];
    }
    forall i | nf <= i < nf + |t| ensures args[i] != Opposite(mode) && (i == nf ==> Skippable(args[i])) {
      assert s[i - lo] == t[i - nf];
    }
    forall i | 0 <= i < |f| ensures args[nb..nf][i] == f[i] {
      assert s[|b| + i] == f[i];
    }
  }
}
