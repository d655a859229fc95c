/**
 * A reference splitter, independent of the scanning register: the words
 * of a string, its maximal runs of bytes other than space and tab.
 */
module WordRuns {
  import opened Bytes

  /** The words of a prefix: the finished ones and the run of non-blank bytes at its end. */
  datatype Runs = Runs(finished: seq<seq<byte>>, run: seq<byte>)

  /** The words of `r`, counting the run at the end when there is one. */
  function Close(r: Runs): seq<seq<byte>> {
    if r.run == [] then r.finished else r.finished + [r.run]
  }

  /** One more byte: a blank finishes the run, anything else extends it. */
  function Push(r: Runs, c: byte): Runs {
    if IsBlank(c) then Runs(Close(r), []) else Runs(r.finished, r.run + [c])
  }

  function Split(s: seq<byte>): Runs
    decreases |s|
  {
    if s == [] then Runs([], []) else Push(Split(s[..|s| - 1]), s[|s| - 1])
  }

  /** The maximal runs of non-blank bytes of `s`, in order. */
  function Words(s: seq<byte>): seq<seq<byte>> {
    Close(Split(s))
  }

  predicate BlankFree(w: seq<byte>) {
    forall i | 0 <= i < |w| :: !IsBlank(w[i])
  }

  /** The run is a tail of `s`. */
  lemma {:induction false} RunSuffix(s: seq<byte>)
    ensures |Split(s).run| <= |s| && Split(s).run == s[|s| - |Split(s).run|..]
    decreases |s|
  {
    if s != [] {
      var p := s[..|s| - 1];
      var c := s[|s| - 1];
      RunSuffix(p);
      var r := Split(p);
      assert Split(s) == Push(r, c);
      if !IsBlank(c) {
        assert s[|s| - |r.run| - 1..] == p[|p| - |r.run|..] + [c];
      }
    }
  }

  /** The run is empty exactly when `s` is empty or ends in a blank. */
  lemma {:induction false} RunEmpty(s: seq<byte>)
    ensures Split(s).run == [] <==> s == [] || IsBlank(s[|s| - 1])
  {
    if s != [] {
      var p := s[..|s| - 1];
      var c := s[|s| - 1];
      var r := Split(p);
      assert Split(s) == Push(r, c);
    }
  }

  /** The run holds no blank. */
  lemma {:induction false} RunBlankFree(s: seq<byte>)
    ensures BlankFree(Split(s).run)
    decreases |s|
  {
    if s != [] {
      var p := s[..|s| - 1];
      var c := s[|s| - 1];
      RunBlankFree(p);
      var r := Split(p);
      assert Split(s) == Push(r, c);
      if !IsBlank(c) {
        var w := r.run + [c];
        forall i | 0 <= i < |w| ensures !IsBlank(w[i]) {
          if i < |r.run| {
            assert w[i] == r.run[i];
          }
        }
      }
    }
  }

  /** The byte before the run, when there is one, is a blank. */
  lemma {:induction false} RunStart(s: seq<byte>)
    ensures |Split(s).run| < |s| ==> IsBlank(s[|s| - |Split(s).run| - 1])
    decreases |s|
  {
    if s != [] {
      var p := s[..|s| - 1];
      var c := s[|s| - 1];
      RunStart(p);
      var r := Split(p);
      assert Split(s) == Push(r, c);
      if !IsBlank(c) && |r.run| < |p| {
        assert s[|s| - |r.run| - 2] == p[|p| - |r.run| - 1];
      }
    }
  }

  /** The run is the blank-free tail of `s` after its last blank. */
  lemma SplitRun(s: seq<byte>)
    ensures var w := Split(s).run; |w| <= |s| && w == s[|s| - |w|..] && BlankFree(w)
    ensures Split(s).run == [] <==> s == [] || IsBlank(s[|s| - 1])
    ensures |Split(s).run| < |s| ==> IsBlank(s[|s| - |Split(s).run| - 1])
  {
    RunSuffix(s);
    RunEmpty(s);
    RunBlankFree(s);
    RunStart(s);
  }

  /** The finished words are never empty and never hold a blank. */
  lemma {:induction false} FinishedAreWords(s: seq<byte>)
    ensures forall w | w in Split(s).finished :: w != [] && BlankFree(w)
    decreases |s|
  {
    if s != [] {
      var p := s[..|s| - 1];
      var c := s[|s| - 1];
      FinishedAreWords(p);
      var r := Split(p);
      assert Split(s) == Push(r, c);
      if IsBlank(c) && r.run != [] {
        RunBlankFree(p);
        var f := r.finished + [r.run];
        forall w | w in f ensures w != [] && BlankFree(w) {
          if w !in r.finished {
            assert w == r.run;
          }
        }
      }
    }
  }

  /** Words are never empty and never hold a blank. */
  lemma WordsAreWords(s: seq<byte>)
    ensures forall w | w in Words(s) :: w != [] && BlankFree(w)
  {
    FinishedAreWords(s);
    SplitRun(s);
  }

  /** After a blank the words of `u` are finished and `v` is split afresh. */
  lemma {:induction false} SplitAfterBlank(u: seq<byte>, b: byte, v: seq<byte>)
    requires IsBlank(b)
    ensures Split(u + [b] + v) == Runs(Words(u) + Split(v).finished, Split(v).run)
    decreases |v|
  {
    var s := u + [b] + v;
    if v == [] {
      assert s == u + [b];
      assert s[..|s| - 1] == u;
    } else {
      var v' := v[..|v| - 1];
      assert s[..|s| - 1] == u + [b] + v';
      SplitAfterBlank(u, b, v');
    }
  }

  /** A blank always separates: the words of `u`, then the words of `v`. */
  lemma WordsSplit(u: seq<byte>, b: byte, v: seq<byte>)
    requires IsBlank(b)
    ensures Words(u + [b] + v) == Words(u) + Words(v)
  {
    SplitAfterBlank(u, b, v);
  }

  /** A non-empty run of non-blank bytes is one word. */
  lemma {:induction false} SplitOfWord(w: seq<byte>)
    requires BlankFree(w)
    ensures Split(w) == Runs([], w)
    decreases |w|
  {
    if w != [] {
      var p := w[..|w| - 1];
      assert BlankFree(p) by {
        forall i | 0 <= i < |p| ensures !IsBlank(p[i]) {
          assert p[i] == w[i];
        }
      }
      SplitOfWord(p);
      assert p + [w[|w| - 1]] == w;
    }
  }

  lemma WordsOfWord(w: seq<byte>)
    requires w != [] && BlankFree(w)
    ensures Words(w) == [w]
  {
    SplitOfWord(w);
  }

  lemma SplitSnoc(s: seq<byte>, c: byte)
    ensures Split(s + [c]) == Push(Split(s), c)
  {
    assert (s + [c])[..|s|] == s;
  }

  /** A trailing blank adds no word. */
  lemma WordsSnocBlank(s: seq<byte>, c: byte)
    requires IsBlank(c)
    ensures Words(s + [c]) == Words(s)
  {
    SplitSnoc(s, c);
  }

  /** Blanks around a word collapse: one word between leading and trailing blanks. */
  lemma WordBetweenBlanks(a: byte, w: seq<byte>, b: byte)
    requires IsBlank(a) && IsBlank(b) && w != [] && BlankFree(w)
    ensures Words([a] + w + [b]) == [w]
  {
    WordsSplit([], a, w + [b]);
    assert [] + [a] + (w + [b]) == [a] + w + [b];
    WordsSnocBlank(w, b);
    WordsOfWord(w);
    assert Words([]) == [];
  }

  predicate AllBlank(s: seq<byte>) {
    forall i | 0 <= i < |s| :: IsBlank(s[i])
  }

  /** Blanks in front add no word. */
  lemma {:induction false} LeadingBlanksVanish(bs: seq<byte>, v: seq<byte>)
    requires AllBlank(bs)
    ensures Words(bs + v) == Words(v)
    decreases |bs|
  {
    if bs != [] {
      var rest := bs[1..];
      assert AllBlank(rest) by {
        forall i | 0 <= i < |rest| ensures IsBlank(rest[i]) {
          assert rest[i] == bs[i + 1];
        }
      }
      WordsSplit([], bs[0], rest + v);
      assert [] + [bs[0]] + (rest + v) == bs + v;
      LeadingBlanksVanish(rest, v);
      assert Words([]) == [];
    } else {
      assert bs + v == v;
    }
  }

  /** A run of blanks of any length and mix separates exactly as one blank does. */
  lemma BlankRunSeparates(u: seq<byte>, bs: seq<byte>, v: seq<byte>)
    requires bs != [] && AllBlank(bs)
    ensures Words(u + bs + v) == Words(u) + Words(v)
  {
    var rest := bs[1..];
    assert AllBlank(rest) by {
      forall i | 0 <= i < |rest| ensures IsBlank(rest[i]) {
        assert rest[i] == bs[i + 1];
      }
    }
    WordsSplit(u, bs[0], rest + v);
    assert u + [bs[0]] + (rest + v) == u + bs + v;
    LeadingBlanksVanish(rest, v);
  }
}
