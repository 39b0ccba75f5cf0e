/** The pass that merges neighbouring loads or stores of a basic block
    (`optimizeAdjacentLoadStores`, ps3tool/rewrite.cpp:327-375). */
module LoadStoreMerging {
  import opened Common
  import opened LoadStores
  import opened MergedRuns

  type Span = (nat, nat)  // start and length of a run

  predicate Matches(st: Statement, load: bool) { st.LoadStore? && st.load == load }

  // ---------------------------------------------------------------- which runs

  /** The number of matching statements just before `n`. */
  function Trailing(sts: seq<Statement>, load: bool, n: nat): (len: nat)
    requires n <= |sts|
    ensures len <= n
    ensures forall i :: n - len <= i < n ==> Matches(sts[i], load)
    ensures len < n ==> !Matches(sts[n - len - 1], load)
  {
    if n == 0 || !Matches(sts[n - 1], load) then 0 else Trailing(sts, load, n - 1) + 1
  }

  /** The runs that are over before statement `n`: each is closed by a statement that does not match. */
  function Runs(sts: seq<Statement>, load: bool, n: nat): seq<Span>
    requires n <= |sts|
  {
    if n == 0 then []
    else
      var len := Trailing(sts, load, n - 1);
      Runs(sts, load, n - 1) + (if !Matches(sts[n - 1], load) && len > 1 then [(n - 1 - len, len)] else [])
  }

  /** At least two matching statements, preceded by none and followed by one that does not match. */
  predicate IsClosedRun(sts: seq<Statement>, load: bool, run: Span) {
    var (start, len) := run;
    len > 1 && start + len < |sts| && !(sts[start + len].LoadStore? && sts[start + len].load == load) &&
    (start == 0 || !(sts[start - 1].LoadStore? && sts[start - 1].load == load)) &&
    forall i :: start <= i < start + len ==> sts[i].LoadStore? && sts[i].load == load
  }

  /** The end of the run before run `k`. */
  function EndBefore(runs: seq<Span>, k: nat): nat
    requires k <= |runs|
  {
    if k == 0 then 0 else runs[k - 1].0 + runs[k - 1].1
  }

  /** Runs in ascending order, none touching the next. */
  predicate Ordered(runs: seq<Span>, n: nat) {
    (forall i :: 0 <= i < |runs| ==> runs[i].0 + runs[i].1 < n) &&
    forall i, j :: 0 <= i < j < |runs| ==> runs[i].0 + runs[i].1 < runs[j].0
  }

  /** The runs found are exactly the maximal ones that end before the last statement. */
  lemma {:induction false} RunsAreMaximal(sts: seq<Statement>, load: bool, n: nat, run: Span)
    requires n <= |sts|
    ensures run in Runs(sts, load, n) <==> IsClosedRun(sts, load, run) && run.0 + run.1 < n
  {
    if n > 0 {
      RunsAreMaximal(sts, load, n - 1, run);
    }
  }

  lemma {:induction false} RunsAreOrdered(sts: seq<Statement>, load: bool, n: nat)
    requires n <= |sts|
    ensures Ordered(Runs(sts, load, n), n)
  {
    if n > 0 {
      RunsAreOrdered(sts, load, n - 1);
      var before := Runs(sts, load, n - 1);
      forall i | 0 <= i < |before|
        ensures before[i].0 + before[i].1 < n - 1 && !Matches(sts[before[i].0 + before[i].1], load)
      {
        RunsAreMaximal(sts, load, n - 1, before[i]);
      }
    }
  }

  // ---------------------------------------------------------------- what becomes of a run

  ghost predicate CanMerge(run: seq<Statement>) {
    exists q :: IsArrangement(run, q)
  }

  ghost function Merged(run: seq<Statement>): (r: seq<Statement>)
    ensures |r| == 1 || r == run
  {
    if CanMerge(run) then var q :| IsArrangement(run, q); [Merge(q)] else run
  }

  function RunAt(sts: seq<Statement>, run: Span): seq<Statement>
    requires run.0 + run.1 <= |sts|
  {
    sts[run.0..run.0 + run.1]
  }

  type Replacement = seq<Statement> -> seq<Statement>

  /** What follows the run before run `k`, with run `k` and all later ones replaced. */
  ghost function Spliced(f: Replacement, sts: seq<Statement>, runs: seq<Span>, k: nat): seq<Statement>
    requires Ordered(runs, |sts|) && k <= |runs|
    decreases |runs| - k
  {
    if k == |runs| then sts[EndBefore(runs, k)..]
    else sts[EndBefore(runs, k)..runs[k].0] + f(RunAt(sts, runs[k])) + Spliced(f, sts, runs, k + 1)
  }

  // ---------------------------------------------------------------- one run

  predicate Sorted(sts: seq<Statement>)
    requires forall i :: 0 <= i < |sts| ==> sts[i].LoadStore?
  {
    forall i, j :: 0 <= i < j < |sts| ==> sts[i].disp <= sts[j].disp
  }

  /** Sorting finds the mergeable order if there is one. */
  lemma {:induction false} SortingFindsIt(sts: seq<Statement>, q: seq<Statement>, load: bool, n: nat)
    requires multiset(q) == multiset(sts) && AreAccesses(sts, load) && Sorted(sts)
    requires Adjacent(q) && AreAccesses(q, load) && n <= |q|
    ensures |sts| == |q| && sts[..n] == q[..n]
  {
    SameStatements(sts, q);
    if n > 0 {
      var m := n - 1;
      SortingFindsIt(sts, q, load, m);
      forall i | 0 <= i < m ensures sts[i] == q[i] {
        assert sts[..m][i] == q[..m][i];
      }
      var j: nat :| j < |sts| && sts[j] == q[m] by { assert q[m] in sts; }
      if j < m {
        AdjacentApart(q, load, j, m);
      }
      var i: nat :| i < |q| && q[i] == sts[m] by { assert sts[m] in q; }
      if i < m {
        NoRepeats(sts, q, load, i, m);
      } else if m < i {
        AdjacentApart(q, load, m, i);
      }
    }
  }

  /** `st` behind all statements with no greater displacement. */
  function InsertByDisp(sts: seq<Statement>, st: Statement): (r: seq<Statement>)
    requires (forall i :: 0 <= i < |sts| ==> sts[i].LoadStore?) && st.LoadStore?
    ensures |r| == |sts| + 1
  {
    if sts != [] && st.disp < sts[|sts| - 1].disp then
      InsertByDisp(sts[..|sts| - 1], st) + [sts[|sts| - 1]]
    else sts + [st]
  }

  lemma {:induction false} InsertKeeps(sts: seq<Statement>, st: Statement)
    requires (forall i :: 0 <= i < |sts| ==> sts[i].LoadStore?) && st.LoadStore?
    ensures multiset(InsertByDisp(sts, st)) == multiset(sts) + multiset{st}
    decreases |sts|
  {
    if sts != [] && st.disp < sts[|sts| - 1].disp {
      InsertKeeps(sts[..|sts| - 1], st);
      assert sts == sts[..|sts| - 1] + [sts[|sts| - 1]];
    }
  }

  lemma {:induction false} InsertSorted(sts: seq<Statement>, st: Statement, load: bool)
    requires AreAccesses(sts, load) && Sorted(sts) && IsAccess(st, load)
    ensures AreAccesses(InsertByDisp(sts, st), load) && Sorted(InsertByDisp(sts, st))
    ensures InsertByDisp(sts, st)[|sts|] == st || (sts != [] && InsertByDisp(sts, st)[|sts|] == sts[|sts| - 1])
    decreases |sts|
  {
    if sts != [] && st.disp < sts[|sts| - 1].disp {
      InsertSorted(sts[..|sts| - 1], st, load);
    }
  }

  method SortByDisp(run: seq<Statement>, load: bool) returns (sts: seq<Statement>)
    requires AreAccesses(run, load)
    ensures multiset(sts) == multiset(run) && AreAccesses(sts, load) && Sorted(sts)
  {
    sts := [];
    for n := 0 to |run|
      invariant multiset(sts) == multiset(run[..n]) && AreAccesses(sts, load) && Sorted(sts)
    {
      InsertKeeps(sts, run[n]);
      InsertSorted(sts, run[n], load);
      sts := InsertByDisp(sts, run[n]);
      assert run[..n + 1] == run[..n] + [run[n]];
    }
    assert run[..|run|] == run;
  }

  /** The two tests on the sorted run. */
  method PassesTests(sts: seq<Statement>) returns (ok: bool)
    requires sts != [] && forall i :: 0 <= i < |sts| ==> sts[i].LoadStore?
    ensures ok <==> Adjacent(sts) && AllFrom(sts, sts[0].destReg)
  {
    var sameDest := forall i :: 0 <= i < |sts| ==> sts[i].destReg == sts[0].destReg;
    var overlap := false;
    for i := 1 to |sts|
      invariant overlap <==>
        exists j, k :: 0 <= j && k == j + 1 < i && sts[j].disp + TotalSize(sts[j].src) != sts[k].disp
    {
      overlap := overlap || sts[i - 1].disp + TotalSize(sts[i - 1].src) != sts[i].disp;
    }
    ok := sameDest && !overlap;
  }

  /** The loop that appends the sources of the second statement to the first until one is left. */
  method MergeAll(q: seq<Statement>) returns (merged: Statement)
    requires q != [] && forall i :: 0 <= i < |q| ==> q[i].LoadStore?
    ensures merged == Merge(q)
  {
    var sts := q;
    ghost var n := 1;
    assert Sources(q, 0) == [];
    assert Sources(q, 1) == q[0].src && q[0].(src := q[0].src) == q[0];
    while |sts| != 1
      invariant 1 <= n <= |q| && sts == [q[0].(src := Sources(q, n))] + q[n..]
      decreases |sts|
    {
      assert sts[1] == q[n] && sts[2..] == q[n + 1..];
      sts := [sts[0].(src := sts[0].src + sts[1].src)] + sts[2..];
      assert Sources(q, n + 1) == Sources(q, n) + q[n].src;
      n := n + 1;
    }
    merged := sts[0];
  }

  /** The merged access of a run, if it can be merged. */
  method MergeRun(run: seq<Statement>, load: bool) returns (merged: Option<Statement>)
    requires run != [] && AreAccesses(run, load)
    ensures Merged(run) == if merged.Some? then [merged.value] else run
    ensures merged.Some? <==> CanMerge(run)
  {
    var sts := SortByDisp(run, load);
    SameStatements(run, sts);
    var ok := PassesTests(sts);
    OnlySortedMerges(run, sts, load);
    if ok {
      var one := MergeAll(sts);
      merged := Some(one);
    } else {
      merged := None;
    }
  }

  lemma OnlySortedMerges(run: seq<Statement>, sts: seq<Statement>, load: bool)
    requires sts != [] && multiset(sts) == multiset(run) && AreAccesses(run, load) && AreAccesses(sts, load)
    requires Sorted(sts)
    ensures CanMerge(run) <==> Adjacent(sts) && AllFrom(sts, sts[0].destReg)
    ensures CanMerge(run) ==> Merged(run) == [Merge(sts)]
  {
    if CanMerge(run) {
      var r :| IsArrangement(run, r) && Merged(run) == [Merge(r)];
      SameKind(run, r, load);
      SortingFindsIt(sts, r, load, |r|);
      assert sts[..|r|] == sts && r[..|r|] == r;
    } else {
      assert !IsArrangement(run, sts);
    }
  }

  // ---------------------------------------------------------------- the pass

  /** The runs from `k` on have been replaced. */
  ghost predicate Rewritten(f: Replacement, sts: seq<Statement>, runs: seq<Span>, k: nat, now: seq<Statement>)
    requires Ordered(runs, |sts|) && k <= |runs|
  {
    now == sts[..EndBefore(runs, k)] + Spliced(f, sts, runs, k)
  }

  lemma ReplaceRun(f: Replacement, sts: seq<Statement>, runs: seq<Span>, k: nat, now: seq<Statement>)
    requires Ordered(runs, |sts|) && k < |runs| && Rewritten(f, sts, runs, k + 1, now)
    ensures var (from, count) := runs[k];
      from + count <= |now| && now[from..from + count] == RunAt(sts, runs[k]) &&
      Rewritten(f, sts, runs, k, now[..from] + f(RunAt(sts, runs[k])) + now[from + count..])
  {
    CutAt(sts, EndBefore(runs, k), runs[k].0, EndBefore(runs, k + 1), f(RunAt(sts, runs[k])),
          Spliced(f, sts, runs, k + 1));
  }

  /** No statement of this kind has been merged yet. */
  predicate Unmerged(sts: seq<Statement>, load: bool) {
    forall i :: 0 <= i < |sts| && Matches(sts[i], load) ==> IsAccess(sts[i], load)
  }

  lemma RunIsAccesses(sts: seq<Statement>, load: bool, runs: seq<Span>, k: nat)
    requires Unmerged(sts, load) && runs == Runs(sts, load, |sts|) && k < |runs|
    ensures var (start, len) := runs[k];
      len > 1 && start + len <= |sts| && AreAccesses(RunAt(sts, runs[k]), load)
  {
    RunsAreMaximal(sts, load, |sts|, runs[k]);
  }

  lemma CutAt<A>(s: seq<A>, before: nat, from: nat, end: nat, middle: seq<A>, tail: seq<A>)
    requires before <= from <= end <= |s|
    ensures var now := s[..end] + tail;
      now[from..end] == s[from..end] &&
      now[..from] + middle + now[end..] == s[..before] + (s[before..from] + middle + tail)
  {
    var now := s[..end] + tail;
    assert now[end..] == tail;
    assert now[..from] == s[..before] + s[before..from];
  }

  /** `ConcreteBasicBlock`. */
  class ConcreteBasicBlock {
    var statements: seq<Statement>

    constructor (statements: seq<Statement>)
      ensures this.statements == statements
    {
      this.statements := statements;
    }

    /** The first loop. */
    method FindRuns(load: bool) returns (seqs: seq<Span>)
      ensures seqs == Runs(statements, load, |statements|)
    {
      seqs := [];
      var len, start, cur := 0, 0, 0;
      while cur < |statements|
        invariant 0 <= cur <= |statements|
        invariant seqs == Runs(statements, load, cur) && len == Trailing(statements, load, cur)
        invariant start == if len == 0 && cur > 0 then -1 else cur - len
      {
        if Matches(statements[cur], load) {
          if start == -1 {
            start := cur;
          }
          len := len + 1;
        } else {
          if len > 1 {
            seqs := seqs + [(start, len)];
          }
          len, start := 0, -1;
        }
        cur := cur + 1;
      }
    }

    /** Every maximal run that does not reach the end of the block is replaced by its merged access,
        if it can be merged, and nothing else changes. */
    method OptimizeAdjacentLoadStores(load: bool)
      requires Unmerged(statements, load)
      modifies this
      ensures Ordered(Runs(old(statements), load, |old(statements)|), |old(statements)|)
      ensures statements == Spliced(Merged, old(statements), Runs(old(statements), load, |old(statements)|), 0)
    {
      ghost var sts := statements;
      var seqs := FindRuns(load);
      RunsAreOrdered(sts, load, |sts|);
      for k := |seqs| downto 0
        invariant Rewritten(Merged, sts, seqs, k, statements)
      {
        RunIsAccesses(sts, load, seqs, k);
        ReplaceRun(Merged, sts, seqs, k, statements);
        MergeAt(seqs[k].0, seqs[k].1, load);
      }
    }

    /** The body of the second loop. */
    method MergeAt(start: nat, len: nat, load: bool)
      requires len > 0 && start + len <= |statements| && AreAccesses(statements[start..start + len], load)
      modifies this
      ensures statements ==
        old(statements[..start] + Merged(statements[start..start + len]) + statements[start + len..])
    {
      var run := statements[start..start + len];
      var merged := MergeRun(run, load);
      if merged.Some? {
        statements := statements[..start] + [merged.value] + statements[start + len..];
      } else {
        assert statements == statements[..start] + run + statements[start + len..];
      }
    }
  }
}
