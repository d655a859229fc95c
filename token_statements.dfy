/**
 * Statements made of tokens and blanks (src/parser/pipelines.rs:131-159,
 * 280-288): whatever quotes, escapes and `$(` the tokens hold, `collect`
 * returns one job whose arguments are exactly the tokens, byte for byte.
 */
module TokenStatements {
  import opened Bytes
  import opened Splitter
  import opened WordRuns
  import opened PlainStatements
  import opened Quoting
  import opened Tokens
  import Redirections

  /** Each token followed by its gap. */
  function Layout(ts: seq<seq<byte>>, gs: seq<seq<byte>>): seq<byte>
    requires |ts| == |gs|
    decreases |ts|
  {
    if ts == [] then [] else ts[0] + gs[0] + Layout(ts[1..], gs[1..])
  }

  /** Token `i` is followed by a non-empty run of blanks. */
  predicate SpacedTokens(ts: seq<seq<byte>>, gs: seq<seq<byte>>, i: nat)
    requires i < |ts| == |gs|
  {
    Token(ts[i]) && gs[i] != [] && AllBlank(gs[i])
  }

  /** Tokens, each followed by a non-empty run of blanks. */
  predicate Separated(ts: seq<seq<byte>>, gs: seq<seq<byte>>) {
    |ts| == |gs| && forall i | 0 <= i < |ts| :: SpacedTokens(ts, gs, i)
  }

  lemma SeparatedRest(ts: seq<seq<byte>>, gs: seq<seq<byte>>)
    requires Separated(ts, gs) && ts != []
    ensures SpacedTokens(ts, gs, 0) && Separated(ts[1..], gs[1..])
  {
    forall i | 0 <= i < |ts| - 1 ensures SpacedTokens(ts[1..], gs[1..], i) {
      assert SpacedTokens(ts, gs, i + 1);
    }
  }

  /** The last token, which need not close its register since nothing follows it. */
  predicate LastToken(last: seq<byte>) {
    last == [] || Unbroken(0, last)
  }

  /** With nothing but the argument arm's own bytes so far, the step from this state. */
  lemma UnbrokenStep(args: seq<byte>, st: Scan, n: nat)
    requires n < |args| && Bounds(st, n)
    requires st == Scan(False, st.flags, n, st.argStart, st.arguments, [], None, None, false, [], false, false, None)
    requires !SeparatorArm(ArgArmOf(st.flags, args[n]))
    ensures Step(args, st, n) == st.(flags := ArgFlags(st.flags, args[n]), index := n + 1)
  {
    assert Step(args, st, n) == ArmStep(args, st, ArgArmOf(st.flags, args[n]));
  }

  lemma UnbrokenAt(args: seq<byte>, tr: seq<Scan>, n: nat, f: bv8, a: nat, w: seq<seq<byte>>)
    requires IsTrace(args, tr) && n < |args| && !SeparatorArm(ArgArmOf(f, args[n]))
    requires tr[n] == Scan(False, f, n, a, w, [], None, None, false, [], false, false, None)
    ensures tr[n + 1] == Scan(False, ArgFlags(f, args[n]), n + 1, a, w, [], None, None, false, [], false, false, None)
  {
    UnbrokenStep(args, tr[n], n);
    assert tr[n + 1] == Step(args, tr[n], n);
  }

  lemma BlankArm(args: seq<byte>, st: Scan, n: nat)
    requires n < |args| && IsBlank(args[n]) && Bounds(st, n)
    requires st == Scan(False, 0, n, st.argStart, st.arguments, [], None, None, false, [], false, false, None)
    ensures Step(args, st, n) == BlankUpdate(args, st)
  {
    assert ArgArmOf(0, args[n]) == ArgArm.Blank;
    assert Step(args, st, n) == ArmStep(args, st, ArgArm.Blank);
  }

  lemma BlankAt(args: seq<byte>, tr: seq<Scan>, n: nat, a: nat, w: seq<seq<byte>>)
    requires IsTrace(args, tr) && n < |args| && IsBlank(args[n]) && a <= n
    requires tr[n] == Scan(False, 0, n, a, w, [], None, None, false, [], false, false, None)
    ensures tr[n + 1] == Scan(False, 0, n + 1, n + 1, if a < n then w + [args[a..n]] else w, [], None, None, false, [], false, false, None)
  {
    BlankArm(args, tr[n], n);
    assert tr[n + 1] == Step(args, tr[n], n);
  }

  /** An unbroken run `s` at `args[lo..hi]` only moves the scan on and threads the register. */
  lemma {:induction false} UnbrokenRun(args: seq<byte>, tr: seq<Scan>, lo: nat, hi: nat, s: seq<byte>, f: bv8, a: nat, w: seq<seq<byte>>)
    requires IsTrace(args, tr) && a <= lo <= hi <= |args| && args[lo..hi] == s && Unbroken(f, s)
    requires tr[lo] == Scan(False, f, lo, a, w, [], None, None, false, [], false, false, None)
    ensures tr[hi] == Scan(False, Reg(f, s), hi, a, w, [], None, None, false, [], false, false, None)
    decreases hi - lo
  {
    if lo < hi {
      assert args[lo] == s[0] && args[lo + 1..hi] == s[1..];
      UnbrokenAt(args, tr, lo, f, a, w);
      UnbrokenRun(args, tr, lo + 1, hi, s[1..], ArgFlags(f, s[0]), a, w);
    } else {
      assert s == [];
    }
  }

  /** A run of blanks with a clear register finishes the pending argument, if any. */
  lemma {:induction false} BlankRun(args: seq<byte>, tr: seq<Scan>, lo: nat, hi: nat, a: nat, w: seq<seq<byte>>)
    requires IsTrace(args, tr) && a <= lo < hi <= |args|
    requires tr[lo] == Scan(False, 0, lo, a, w, [], None, None, false, [], false, false, None)
    requires forall i | lo <= i < hi :: IsBlank(args[i])
    ensures tr[hi] == Scan(False, 0, hi, hi, if a < lo then w + [args[a..lo]] else w, [], None, None, false, [], false, false, None)
    decreases hi
  {
    if hi == lo + 1 {
      BlankAt(args, tr, lo, a, w);
    } else {
      BlankRun(args, tr, lo, hi - 1, a, w);
      BlankAt(args, tr, hi - 1, hi - 1, if a < lo then w + [args[a..lo]] else w);
    }
  }

  lemma SplitSlice(args: seq<byte>, p: nat, u: seq<byte>, v: seq<byte>)
    requires p + |u| + |v| <= |args| && args[p..p + |u| + |v|] == u + v
    ensures args[p..p + |u|] == u && args[p + |u|..p + |u| + |v|] == v
  {
    var e := p + |u| + |v|;
    assert args[p..p + |u|] == args[p..e][..|u|];
    assert args[p + |u|..e] == args[p..e][|u|..];
  }

  /** A token and the blanks after it: the token becomes the next argument. */
  lemma TokenGapAt(args: seq<byte>, tr: seq<Scan>, p: nat, t: seq<byte>, g: seq<byte>, w: seq<seq<byte>>)
    requires Token(t) && g != [] && AllBlank(g) && IsTrace(args, tr)
    requires p + |t| + |g| <= |args| && args[p..p + |t| + |g|] == t + g
    requires tr[p] == Scan(False, 0, p, p, w, [], None, None, false, [], false, false, None)
    ensures var e := p + |t| + |g|;
      tr[e] == Scan(False, 0, e, e, w + [t], [], None, None, false, [], false, false, None)
  {
    SplitSlice(args, p, t, g);
    TokenRun(args, tr, p, t, w);
    GapRun(args, tr, p + |t|, g, p, w, t);
  }

  /** A token at `p` leaves the register clear and the token pending. */
  lemma TokenRun(args: seq<byte>, tr: seq<Scan>, p: nat, t: seq<byte>, w: seq<seq<byte>>)
    requires Token(t) && IsTrace(args, tr) && p + |t| <= |args| && args[p..p + |t|] == t
    requires tr[p] == Scan(False, 0, p, p, w, [], None, None, false, [], false, false, None)
    ensures tr[p + |t|] == Scan(False, 0, p + |t|, p, w, [], None, None, false, [], false, false, None)
  {
    UnbrokenRun(args, tr, p, p + |t|, t, 0, p, w);
  }

  /** The blanks `g` at `args[q..]` finish the argument `t` pending since `a`. */
  lemma GapRun(args: seq<byte>, tr: seq<Scan>, q: nat, g: seq<byte>, a: nat, w: seq<seq<byte>>, t: seq<byte>)
    requires IsTrace(args, tr) && g != [] && AllBlank(g) && a < q && q + |g| <= |args| && args[q..q + |g|] == g
    requires args[a..q] == t
    requires tr[q] == Scan(False, 0, q, a, w, [], None, None, false, [], false, false, None)
    ensures var e := q + |g|;
      tr[e] == Scan(False, 0, e, e, w + [t], [], None, None, false, [], false, false, None)
  {
    forall i | q <= i < q + |g| ensures IsBlank(args[i]) {
      assert args[i] == g[i - q];
    }
    BlankRun(args, tr, q, q + |g|, a, w);
  }

  /** Each token and its gap sit in `args` one after the other from `p` on. */
  predicate LaidOut(args: seq<byte>, p: nat, ts: seq<seq<byte>>, gs: seq<seq<byte>>)
    requires |ts| == |gs|
    decreases |ts|
  {
    ts == [] ||
      var q := p + |ts[0]| + |gs[0]|;
      q <= |args| && args[p..q] == ts[0] + gs[0] && LaidOut(args, q, ts[1..], gs[1..])
  }

  /** The layout after any prefix and before any suffix sits where `LaidOut` says. */
  lemma {:induction false} LayoutIsAt(x: seq<byte>, ts: seq<seq<byte>>, gs: seq<seq<byte>>, y: seq<byte>)
    requires |ts| == |gs|
    ensures LaidOut(x + Layout(ts, gs) + y, |x|, ts, gs)
    decreases |ts|
  {
    if ts != [] {
      var u, l := ts[0] + gs[0], Layout(ts[1..], gs[1..]);
      assert Layout(ts, gs) == u + l;
      Regroup(x, u, l, y);
      LayoutIsAt(x + u, ts[1..], gs[1..], y);
    }
  }

  /** `x + (u + l) + y` read as `(x + u) + l + y`, with `u` at `x`'s end. */
  lemma Regroup(x: seq<byte>, u: seq<byte>, l: seq<byte>, y: seq<byte>)
    ensures x + (u + l) + y == (x + u) + l + y
    ensures ((x + u) + l + y)[|x|..|x| + |u|] == u
  {
    var a := (x + u) + l + y;
    assert a[|x|..|x| + |u|] == u by {
      forall i | 0 <= i < |u| ensures a[|x| + i] == u[i] { }
    }
  }

  /** Moving the first token onto the arguments keeps their concatenation; the step of `LayoutFrom`, on which `TokensParse` rests. */
  lemma AppendFirst(w: seq<seq<byte>>, ts: seq<seq<byte>>)
    requires ts != []
    ensures w + [ts[0]] + ts[1..] == w + ts
  {
    assert ts == [ts[0]] + ts[1..];
  }

  /** The length of the layout, counted without building it. */
  function Width(ts: seq<seq<byte>>, gs: seq<seq<byte>>): nat
    requires |ts| == |gs|
    decreases |ts|
  {
    if ts == [] then 0 else |ts[0]| + |gs[0]| + Width(ts[1..], gs[1..])
  }

  lemma {:induction false} LayoutWidth(ts: seq<seq<byte>>, gs: seq<seq<byte>>)
    requires |ts| == |gs|
    ensures |Layout(ts, gs)| == Width(ts, gs)
    decreases |ts|
  {
    if ts != [] {
      LayoutWidth(ts[1..], gs[1..]);
    }
  }

  /** The first token and its gap, with what the rest of the layout needs. */
  lemma LayoutStep(args: seq<byte>, tr: seq<Scan>, p: nat, ts: seq<seq<byte>>, gs: seq<seq<byte>>, w: seq<seq<byte>>) returns (q: nat)
    requires ts != [] && IsTrace(args, tr) && Separated(ts, gs) && LaidOut(args, p, ts, gs) && p + Width(ts, gs) <= |args|
    requires tr[p] == Scan(False, 0, p, p, w, [], None, None, false, [], false, false, None)
    ensures Separated(ts[1..], gs[1..]) && LaidOut(args, q, ts[1..], gs[1..])
    ensures q + Width(ts[1..], gs[1..]) == p + Width(ts, gs) <= |args|
    ensures tr[q] == Scan(False, 0, q, q, w + [ts[0]], [], None, None, false, [], false, false, None)
  {
    q := p + |ts[0]| + |gs[0]|;
    SeparatedRest(ts, gs);
    assert SpacedTokens(ts, gs, 0);
    TokenGapAt(args, tr, p, ts[0], gs[0], w);
  }

  /** From a position where nothing is pending, the separated tokens are appended to the arguments. */
  lemma {:induction false} LayoutFrom(args: seq<byte>, tr: seq<Scan>, p: nat, ts: seq<seq<byte>>, gs: seq<seq<byte>>, w: seq<seq<byte>>)
    requires IsTrace(args, tr) && Separated(ts, gs) && LaidOut(args, p, ts, gs) && p + Width(ts, gs) <= |args|
    requires tr[p] == Scan(False, 0, p, p, w, [], None, None, false, [], false, false, None)
    ensures var e := p + Width(ts, gs);
      tr[e] == Scan(False, 0, e, e, w + ts, [], None, None, false, [], false, false, None)
    decreases |ts|
  {
    if ts == [] {
      assert w + ts == w;
    } else {
      var q := LayoutStep(args, tr, p, ts, gs, w);
      LayoutFrom(args, tr, q, ts[1..], gs[1..], w + [ts[0]]);
      AppendFirst(w, ts);
    }
  }

  /** Leading blanks are skipped: nothing is pending after them. */
  lemma LeadAt(args: seq<byte>, tr: seq<Scan>, lead: seq<byte>)
    requires IsTrace(args, tr) && AllBlank(lead) && |lead| <= |args| && args[..|lead|] == lead
    ensures tr[|lead|] == Scan(False, 0, |lead|, |lead|, [], [], None, None, false, [], false, false, None)
  {
    if lead != [] {
      forall i | 0 <= i < |lead| ensures IsBlank(args[i]) {
        assert args[i] == args[..|lead|][i];
      }
      BlankRun(args, tr, 0, |lead|, 0, []);
    }
  }

  /** Where the leading blanks, the layout and the last token sit. */
  lemma StatementLayout(args: seq<byte>, lead: seq<byte>, l: seq<byte>, last: seq<byte>)
    requires args == lead + l + last
    ensures args[..|lead|] == lead && args[|lead|..|lead| + |l|] == l && args[|lead| + |l|..] == last
  {
  }

  /** The state after the leading blanks and the separated tokens. */
  lemma TokensAt(args: seq<byte>, tr: seq<Scan>, lead: seq<byte>, ts: seq<seq<byte>>, gs: seq<seq<byte>>, last: seq<byte>)
    requires IsTrace(args, tr) && AllBlank(lead) && Separated(ts, gs)
    requires args == lead + Layout(ts, gs) + last
    ensures var n := |lead| + |Layout(ts, gs)|;
      tr[n] == Scan(False, 0, n, n, ts, [], None, None, false, [], false, false, None)
  {
    StatementLayout(args, lead, Layout(ts, gs), last);
    LeadAt(args, tr, lead);
    LayoutIsAt(lead, ts, gs, last);
    LayoutWidth(ts, gs);
    LayoutFrom(args, tr, |lead|, ts, gs, []);
    assert [] + ts == ts;
  }

  /** The outcome of a statement that ends on the tokens' last gap. */
  lemma NoLastParse(args: seq<byte>, tr: seq<Scan>, ts: seq<seq<byte>>)
    requires IsTrace(args, tr)
    requires tr[|args|] == Scan(False, 0, |args|, |args|, ts, [], None, None, false, [], false, false, None)
    ensures Parse(args) == Parsed(Pipeline(Redirections.JobOf(ts), None, None), None)
  {
    var st := tr[|args|];
    assert End(st) == st;
    assert Flush(args, st) == Parsed(Pipeline(Redirections.JobOf(ts), None, None), None) by {
      if ts != [] { assert [] + [Job(ts, false)] == [Job(ts, false)]; }
    }
    ParseOfTrace(args, tr);
  }

  /** The outcome of a statement that ends in a last token `args[n..]`. */
  lemma LastParse(args: seq<byte>, tr: seq<Scan>, n: nat, ts: seq<seq<byte>>, last: seq<byte>)
    requires IsTrace(args, tr) && n < |args| && args[n..] == last && Unbroken(0, last)
    requires tr[n] == Scan(False, 0, n, n, ts, [], None, None, false, [], false, false, None)
    ensures Parse(args) == Parsed(Pipeline(Redirections.JobOf(ts + [last]), None, None), None)
  {
    assert args[n..|args|] == last;
    UnbrokenRun(args, tr, n, |args|, last, 0, n, ts);
    var st := tr[|args|];
    assert End(st) == st;
    assert Flush(args, st) == Parsed(Pipeline([] + [Job(ts + [last], false)], None, None), None);
    ParseOfTrace(args, tr);
  }

  /** The outcome of leading blanks, separated tokens and a last token. */
  lemma TokensParseAt(args: seq<byte>, lead: seq<byte>, ts: seq<seq<byte>>, gs: seq<seq<byte>>, last: seq<byte>)
    requires AllBlank(lead) && Separated(ts, gs) && LastToken(last)
    requires args == lead + Layout(ts, gs) + last
    ensures Parse(args) == Parsed(Pipeline(Redirections.JobOf(if last == [] then ts else ts + [last]), None, None), None)
  {
    var tr := TraceOf(args);
    TokensAt(args, tr, lead, ts, gs, last);
    var n := |lead| + |Layout(ts, gs)|;
    StatementLayout(args, lead, Layout(ts, gs), last);
    if last == [] {
      NoLastParse(args, tr, ts);
    } else {
      LastParse(args, tr, n, ts, last);
    }
  }

  /**
   * Blank-separated tokens are one job whose arguments are the tokens,
   * quotes and escapes included; leading blanks are skipped and trailing
   * blanks after a token that closes its register change nothing.
   */
  lemma TokensParse(lead: seq<byte>, ts: seq<seq<byte>>, gs: seq<seq<byte>>, last: seq<byte>)
    requires AllBlank(lead) && Separated(ts, gs) && LastToken(last)
    ensures Parse(lead + Layout(ts, gs) + last)
         == Parsed(Pipeline(Redirections.JobOf(if last == [] then ts else ts + [last]), None, None), None)
  {
    TokensParseAt(lead + Layout(ts, gs) + last, lead, ts, gs, last);
  }
}
