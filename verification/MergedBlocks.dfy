/** What merging does to the meaning of a whole basic block (ps3tool/rewrite.cpp:300-375 and 422-424). */
module MergedBlocks {
  import opened LoadStores
  import opened MergedRuns
  import opened LoadStoreMerging

  // ---------------------------------------------------------------- one run

  predicate AreSingles(run: seq<Statement>, load: bool) {
    forall i :: 0 <= i < |run| ==> IsSingle(run[i]) && IsAccess(run[i], load)
  }

  lemma {:induction false} RunOfSingles<T>(others: (nat, nat, Machine<T>) -> Machine<T>, run: seq<Statement>,
                                           load: bool, n: nat, s: Machine<T>)
    requires AreSingles(run, load) && n <= |run|
    ensures AreAccesses(run, load) && Run(others, run[..n], s) == RunAccesses(run, load, n, s)
  {
    if n > 0 {
      RunOfSingles(others, run, load, n - 1, s);
      LastOfRun(others, run[..n - 1], run[n - 1], s);
      StepOfSingle(others, run[n - 1], load, RunAccesses(run, load, n - 1, s));
      assert run[..n] == run[..n - 1] + [run[n - 1]];
    }
  }

  lemma StepOfSingle<T>(others: (nat, nat, Machine<T>) -> Machine<T>, st: Statement, load: bool, s: Machine<T>)
    requires IsSingle(st) && IsAccess(st, load)
    ensures Step(others, st, s) == OneAccess(st.load, st.src[0], st.destReg, st.disp, s)
  {}

  /** However the loads are arranged, merging them is safe. */
  ghost predicate SafeToMerge(run: seq<Statement>) {
    AreAccesses(run, true) &&
    forall q :: IsArrangement(run, q) && AreAccesses(q, true) ==> SafeRun(run, q)
  }

  lemma StepOfMerged<T>(others: (nat, nat, Machine<T>) -> Machine<T>, q: seq<Statement>, load: bool, s: Machine<T>)
    requires |q| > 1 && AreAccesses(q, load)
    ensures Run(others, [Merge(q)], s) == MergedAccess(Merge(q), s)
  {
    Layout(q, load, |q|);
    assert [Merge(q)][..0] == [];
  }

  /** The statements of the run do what their accesses do. */
  ghost predicate AsAccesses<T(!new)>(others: (nat, nat, Machine<T>) -> Machine<T>, run: seq<Statement>, load: bool) {
    AreAccesses(run, load) && forall s: Machine<T> :: Run(others, run, s) == RunAccesses(run, load, |run|, s)
  }

  lemma SinglesAsAccesses<T(!new)>(others: (nat, nat, Machine<T>) -> Machine<T>, run: seq<Statement>, load: bool)
    requires AreSingles(run, load)
    ensures AsAccesses(others, run, load)
  {
    assert run[..|run|] == run;
    forall s: Machine<T> ensures AreAccesses(run, load) && Run(others, run, s) == RunAccesses(run, load, |run|, s) {
      RunOfSingles(others, run, load, |run|, s);
    }
  }

  /** The two lists do the same in every state. */
  ghost predicate Alike<T(!new)>(others: (nat, nat, Machine<T>) -> Machine<T>, a: seq<Statement>, b: seq<Statement>) {
    forall s: Machine<T> :: Run(others, a, s) == Run(others, b, s)
  }

  lemma AlikeConcat<T(!new)>(others: (nat, nat, Machine<T>) -> Machine<T>, a: seq<Statement>, a': seq<Statement>,
                             b: seq<Statement>, b': seq<Statement>)
    requires Alike(others, a', a) && Alike(others, b', b)
    ensures Alike(others, a' + b', a + b)
  {
    forall s: Machine<T> ensures Run(others, a' + b', s) == Run(others, a + b, s) {
      RunOfConcat(others, a', b', s);
      RunOfConcat(others, a, b, s);
    }
  }

  lemma MergedMeaning<T(!new)>(others: (nat, nat, Machine<T>) -> Machine<T>, run: seq<Statement>, load: bool)
    requires AsAccesses(others, run, load) && |run| > 1 && (load ==> SafeToMerge(run))
    ensures Alike(others, Merged(run), run)
  {
    if CanMerge(run) {
      var q :| IsArrangement(run, q) && Merged(run) == [Merge(q)];
      SameKind(run, q, load);
      SameStatements(run, q);
      forall s: Machine<T> ensures Run(others, [Merge(q)], s) == RunAccesses(run, load, |run|, s) {
        StepOfMerged(others, q, load, s);
        if load {
          SafeLoadsMerge(run, q, s);
        } else {
          MergedStores(run, q, s);
        }
      }
    }
  }

  /** Merging a run of loads is right in every state if and only if the run is safe. */
  lemma MergeIsRightIff<T(!new)>(others: (nat, nat, Machine<T>) -> Machine<T>, run: seq<Statement>, q: seq<Statement>,
                                 rest: T)
    requires AreSingles(run, true) && |run| > 1 && IsArrangement(run, q)
    ensures AreAccesses(run, true) && AreAccesses(q, true)
    ensures SafeRun(run, q) <==> Alike(others, [Merge(q)], run)
  {
    SinglesAsAccesses(others, run, true);
    SameKind(run, q, true);
    AccessesMergeIff(others, run, q, rest);
  }

  lemma AccessesMergeIff<T(!new)>(others: (nat, nat, Machine<T>) -> Machine<T>, run: seq<Statement>, q: seq<Statement>,
                                  rest: T)
    requires AsAccesses(others, run, true) && |run| > 1 && IsArrangement(run, q) && AreAccesses(q, true)
    ensures SafeRun(run, q) <==> Alike(others, [Merge(q)], run)
  {
    SameStatements(run, q);
    LoadsMergeIff(run, q, rest);
    if SameInEveryState<T>(run, q) {
      forall s: Machine<T> ensures Run(others, [Merge(q)], s) == Run(others, run, s) {
        StepOfMerged(others, q, true, s);
      }
    } else {
      var s: Machine<T> :| MergedAccess(Merge(q), s) != RunAccesses(run, true, |run|, s);
      StepOfMerged(others, q, true, s);
      assert Run(others, [Merge(q)], s) != Run(others, run, s);
    }
  }

  /** Two loads the pass merges although the first one replaces the base of the second:
      lwz r3,0(r3) and lwz r4,4(r3). */
  lemma BaseReloadIsMerged()
    ensures var run := [LoadStore(0, Decode(0x80630000), [Access(3, 4)], 3, 0, true),
                        LoadStore(4, Decode(0x80830004), [Access(4, 4)], 3, 4, true)];
      IsArrangement(run, run) && AreAccesses(run, true) && !SafeRun(run, run)
  {
    var run := [LoadStore(0, Decode(0x80630000), [Access(3, 4)], 3, 0, true),
                LoadStore(4, Decode(0x80830004), [Access(4, 4)], 3, 4, true)];
    SingleSize(run[0], true);
    assert run[0].src[0].reg == run[0].destReg;
  }

  // ---------------------------------------------------------------- one pass

  /** Statements of this kind stand for single instructions. */
  predicate Singles(sts: seq<Statement>, load: bool) {
    forall i :: 0 <= i < |sts| && Matches(sts[i], load) ==> IsSingle(sts[i]) && IsAccess(sts[i], load)
  }

  ghost predicate SameRun<T(!new)>(others: (nat, nat, Machine<T>) -> Machine<T>, f: Replacement, sts: seq<Statement>,
                            run: Span) {
    run.0 + run.1 <= |sts| && Alike(others, f(RunAt(sts, run)), RunAt(sts, run))
  }

  /** Run `k` and all later ones can be replaced. */
  ghost predicate SameFrom<T(!new)>(others: (nat, nat, Machine<T>) -> Machine<T>, f: Replacement, sts: seq<Statement>,
                                    runs: seq<Span>, k: nat)
    requires k <= |runs|
    decreases |runs| - k
  {
    k == |runs| || (SameRun(others, f, sts, runs[k]) && SameFrom(others, f, sts, runs, k + 1))
  }

  lemma SplicedStep(f: Replacement, sts: seq<Statement>, runs: seq<Span>, k: nat)
    requires Ordered(runs, |sts|) && k < |runs|
    ensures EndBefore(runs, k) <= runs[k].0 <= EndBefore(runs, k + 1) < |sts|
    ensures RunAt(sts, runs[k]) == sts[runs[k].0..EndBefore(runs, k + 1)]
    ensures Spliced(f, sts, runs, k) ==
      sts[EndBefore(runs, k)..runs[k].0] + f(RunAt(sts, runs[k])) + Spliced(f, sts, runs, k + 1)
  {}

  lemma {:induction false} SplicedMeaning<T(!new)>(others: (nat, nat, Machine<T>) -> Machine<T>, f: Replacement,
                                                   sts: seq<Statement>, runs: seq<Span>, k: nat)
    requires Ordered(runs, |sts|) && k <= |runs| && SameFrom(others, f, sts, runs, k)
    ensures Alike(others, Spliced(f, sts, runs, k), sts[EndBefore(runs, k)..])
    decreases |runs| - k
  {
    if k < |runs| {
      SplicedMeaning(others, f, sts, runs, k + 1);
      SplicedStep(f, sts, runs, k);
      OneMoreRun(others, sts, EndBefore(runs, k), runs[k].0, EndBefore(runs, k + 1), f(RunAt(sts, runs[k])),
                 Spliced(f, sts, runs, k + 1));
    }
  }

  lemma OneMoreRun<T(!new)>(others: (nat, nat, Machine<T>) -> Machine<T>, sts: seq<Statement>, from: nat, start: nat,
                            end: nat, merged: seq<Statement>, rest: seq<Statement>)
    requires from <= start <= end <= |sts|
    requires Alike(others, merged, sts[start..end]) && Alike(others, rest, sts[end..])
    ensures Alike(others, sts[from..start] + merged + rest, sts[from..])
  {
    var head, run := sts[from..start], sts[start..end];
    AlikeConcat(others, head, head, run, merged);
    AlikeConcat(others, head + run, head + merged, sts[end..], rest);
    InThreeParts(sts, from, start, end);
  }

  lemma InThreeParts<A>(s: seq<A>, i: nat, j: nat, k: nat)
    requires i <= j <= k <= |s|
    ensures s[i..j] + s[j..k] + s[k..] == s[i..]
  {}

  /** No run of loads that the pass would merge is unsafe. */
  ghost predicate SafeLoads(sts: seq<Statement>) {
    forall run: Span :: IsClosedRun(sts, true, run) ==> SafeToMerge(RunAt(sts, run))
  }

  ghost function Optimized(sts: seq<Statement>, load: bool): seq<Statement> {
    RunsAreOrdered(sts, load, |sts|);
    Spliced(Merged, sts, Runs(sts, load, |sts|), 0)
  }

  /** A block statement by statement, from `i` on: `f` of the run where one begins, and every other
      statement as it is; `at` tells how long a run begins at a statement. */
  ghost function Walk(f: Replacement, at: nat -> nat, sts: seq<Statement>, i: nat): seq<Statement>
    requires i <= |sts|
    decreases |sts| - i
  {
    if i == |sts| then []
    else if 0 < at(i) <= |sts| - i then f(sts[i..i + at(i)]) + Walk(f, at, sts, i + at(i))
    else [sts[i]] + Walk(f, at, sts, i + 1)
  }

  /** The length of the closed run that begins at a statement, or zero. */
  ghost function ClosedAt(sts: seq<Statement>, load: bool): nat -> nat {
    (i: nat) =>
      if exists len: nat :: IsClosedRun(sts, load, (i, len)) then
        var len: nat :| IsClosedRun(sts, load, (i, len)); len
      else 0
  }

  /** What a pass does: it puts the merged access in the place of every closed run that can be merged, and
      changes nothing else. */
  lemma PassIsWalk(sts: seq<Statement>, load: bool)
    ensures Optimized(sts, load) == Walk(Merged, ClosedAt(sts, load), sts, 0)
  {
    var runs := Runs(sts, load, |sts|);
    RunsAreOrdered(sts, load, |sts|);
    ClosedAtRuns(sts, load, runs);
    WalkerWalks(Merged, ClosedAt(sts, load), sts);
    SplicedIsWalk(Merged, ClosedAt(sts, load), Walker(Merged, ClosedAt(sts, load), sts), sts, runs, 0);
  }

  lemma ClosedAtRuns(sts: seq<Statement>, load: bool, runs: seq<Span>)
    requires runs == Runs(sts, load, |sts|) && Ordered(runs, |sts|)
    ensures AreRunsOf(ClosedAt(sts, load), runs, |sts|)
  {
    var at := ClosedAt(sts, load);
    forall k | 0 <= k < |runs| ensures IsRunAt(at, runs[k]) {
      ClosedAtRun(sts, load, runs, k);
    }
    forall k | 0 <= k <= |runs| ensures IsGap(at, EndBefore(runs, k), StartOf(runs, k, |sts|)) {
      forall i | EndBefore(runs, k) <= i < StartOf(runs, k, |sts|) ensures at(i) == 0 {
        forall j | 0 <= j < |runs| ensures runs[j].0 != i {
          NotInGap(at, runs, |sts|, k, i, j);
        }
        ClosedElsewhere(sts, load, runs, i);
      }
    }
  }

  lemma NotInGap(at: nat -> nat, runs: seq<Span>, n: nat, k: nat, i: nat, j: nat)
    requires Ordered(runs, n) && k <= |runs| && EndBefore(runs, k) <= i < StartOf(runs, k, n)
    requires j < |runs| && IsRunAt(at, runs[j])
    ensures runs[j].0 != i
  {
    assert j < k ==> runs[j].0 + runs[j].1 <= EndBefore(runs, k);
    assert k <= j ==> runs[k].0 <= runs[j].0;
  }

  function StartOf(runs: seq<Span>, k: nat, n: nat): nat
    requires k <= |runs|
  {
    if k < |runs| then runs[k].0 else n
  }

  ghost predicate IsGap(at: nat -> nat, from: nat, to: nat) {
    from <= to && forall i :: from <= i < to ==> at(i) == 0
  }

  /** The runs begin where `at` says, and nowhere else. */
  ghost predicate AreRunsOf(at: nat -> nat, runs: seq<Span>, n: nat) {
    (forall k :: 0 <= k < |runs| ==> IsRunAt(at, runs[k])) &&
    forall k :: 0 <= k <= |runs| ==> IsGap(at, EndBefore(runs, k), StartOf(runs, k, n))
  }

  lemma WalkerWalks(f: Replacement, at: nat -> nat, sts: seq<Statement>)
    ensures IsWalk(f, at, Walker(f, at, sts), sts) && Walker(f, at, sts)(0) == Walk(f, at, sts, 0)
  {
    forall i: nat ensures WalksAt(f, at, Walker(f, at, sts), sts, i) {}
  }

  ghost function Walker(f: Replacement, at: nat -> nat, sts: seq<Statement>): nat -> seq<Statement> {
    (i: nat) => if i <= |sts| then Walk(f, at, sts, i) else []
  }

  /** `w` unfolds like a walk. */
  ghost predicate WalksAt(f: Replacement, at: nat -> nat, w: nat -> seq<Statement>, sts: seq<Statement>, i: nat) {
    i <= |sts| ==>
      w(i) == if i == |sts| then []
              else if 0 < at(i) <= |sts| - i then f(sts[i..i + at(i)]) + w(i + at(i))
              else [sts[i]] + w(i + 1)
  }

  ghost predicate IsWalk(f: Replacement, at: nat -> nat, w: nat -> seq<Statement>, sts: seq<Statement>) {
    forall i: nat :: WalksAt(f, at, w, sts, i)
  }

  ghost predicate IsRunAt(at: nat -> nat, run: Span) {
    run.1 > 0 && at(run.0) == run.1
  }

  lemma ClosedAtRun(sts: seq<Statement>, load: bool, runs: seq<Span>, k: nat)
    requires runs == Runs(sts, load, |sts|) && k < |runs|
    ensures IsRunAt(ClosedAt(sts, load), runs[k])
  {
    var (i, n) := runs[k];
    RunsAreMaximal(sts, load, |sts|, (i, n));
    forall len: nat | IsClosedRun(sts, load, (i, len)) ensures len == n {
      SameLength(sts, load, i, len, n);
    }
  }

  lemma SameLength(sts: seq<Statement>, load: bool, i: nat, m: nat, n: nat)
    requires IsClosedRun(sts, load, (i, m)) && IsClosedRun(sts, load, (i, n))
    ensures m == n
  {}

  lemma ClosedElsewhere(sts: seq<Statement>, load: bool, runs: seq<Span>, i: nat)
    requires runs == Runs(sts, load, |sts|)
    requires forall k :: 0 <= k < |runs| ==> runs[k].0 != i
    ensures ClosedAt(sts, load)(i) == 0
  {
    forall len: nat ensures !IsClosedRun(sts, load, (i, len)) {
      RunsAreMaximal(sts, load, |sts|, (i, len));
    }
  }

  lemma {:induction false} SplicedIsWalk(f: Replacement, at: nat -> nat, w: nat -> seq<Statement>, sts: seq<Statement>,
                                         runs: seq<Span>, k: nat)
    requires Ordered(runs, |sts|) && k <= |runs| && IsWalk(f, at, w, sts) && AreRunsOf(at, runs, |sts|)
    ensures Spliced(f, sts, runs, k) == w(EndBefore(runs, k))
    decreases |runs| - k
  {
    PieceAt(at, runs, |sts|, k);
    if k == |runs| {
      LastPiece(f, at, w, sts, EndBefore(runs, k));
    } else {
      SplicedIsWalk(f, at, w, sts, runs, k + 1);
      OnePiece(f, at, w, sts, EndBefore(runs, k), runs[k]);
      NextPiece(f, sts, runs, k, EndBefore(runs, k), w(EndBefore(runs, k + 1)));
    }
  }

  lemma NextPiece(f: Replacement, sts: seq<Statement>, runs: seq<Span>, k: nat, from: nat, rest: seq<Statement>)
    requires Ordered(runs, |sts|) && k < |runs| && from == EndBefore(runs, k) && from <= runs[k].0
    requires Spliced(f, sts, runs, k + 1) == rest
    ensures Spliced(f, sts, runs, k) == sts[from..runs[k].0] + f(RunAt(sts, runs[k])) + rest
  {}

  lemma PieceAt(at: nat -> nat, runs: seq<Span>, n: nat, k: nat)
    requires Ordered(runs, n) && AreRunsOf(at, runs, n) && k <= |runs|
    ensures IsGap(at, EndBefore(runs, k), StartOf(runs, k, n))
    ensures k < |runs| ==>
      IsRunAt(at, runs[k]) && runs[k].0 + runs[k].1 < n && EndBefore(runs, k + 1) == runs[k].0 + runs[k].1
  {}

  lemma LastPiece(f: Replacement, at: nat -> nat, w: nat -> seq<Statement>, sts: seq<Statement>, from: nat)
    requires IsWalk(f, at, w, sts) && IsGap(at, from, |sts|)
    ensures w(from) == sts[from..]
  {
    WalkCopies(f, at, w, sts, from, |sts|);
    assert WalksAt(f, at, w, sts, |sts|);
    assert sts[from..|sts|] + [] == sts[from..];
  }

  lemma OnePiece(f: Replacement, at: nat -> nat, w: nat -> seq<Statement>, sts: seq<Statement>, from: nat, run: Span)
    requires IsWalk(f, at, w, sts) && IsRunAt(at, run) && IsGap(at, from, run.0) && run.0 + run.1 < |sts|
    ensures w(from) == sts[from..run.0] + f(RunAt(sts, run)) + w(run.0 + run.1)
  {
    WalkCopies(f, at, w, sts, from, run.0);
    WalkAtRun(f, at, w, sts, from, run);
  }

  lemma WalkAtRun(f: Replacement, at: nat -> nat, w: nat -> seq<Statement>, sts: seq<Statement>, from: nat, run: Span)
    requires IsWalk(f, at, w, sts) && IsRunAt(at, run) && from <= run.0 && run.0 + run.1 < |sts|
    requires w(from) == sts[from..run.0] + w(run.0)
    ensures w(from) == sts[from..run.0] + f(RunAt(sts, run)) + w(run.0 + run.1)
  {
    assert WalksAt(f, at, w, sts, run.0);
    Regroup(sts[from..run.0], f(RunAt(sts, run)), w(run.0 + run.1));
  }

  lemma Regroup<A>(a: seq<A>, b: seq<A>, c: seq<A>)
    ensures a + b + c == a + (b + c)
  {}

  lemma {:induction false} WalkCopies(f: Replacement, at: nat -> nat, w: nat -> seq<Statement>, sts: seq<Statement>,
                                      i: nat, j: nat)
    requires j <= |sts| && IsWalk(f, at, w, sts) && IsGap(at, i, j)
    ensures w(i) == sts[i..j] + w(j)
    decreases j - i
  {
    if i < j {
      WalkCopies(f, at, w, sts, i + 1, j);
      assert WalksAt(f, at, w, sts, i);
      OneMoreCopied(sts, i, j, w(j));
    }
  }

  lemma OneMoreCopied(sts: seq<Statement>, i: nat, j: nat, rest: seq<Statement>)
    requires i < j <= |sts|
    ensures [sts[i]] + (sts[i + 1..j] + rest) == sts[i..j] + rest
  {
    assert sts[i..j] == [sts[i]] + sts[i + 1..j];
  }

  /** The pass over stores preserves the meaning of every block, the pass over loads that of every
      block in which the loads it merges are safe. */
  lemma PassPreservesMeaning<T(!new)>(others: (nat, nat, Machine<T>) -> Machine<T>, sts: seq<Statement>, load: bool)
    requires Singles(sts, load) && (load ==> SafeLoads(sts))
    ensures Alike(others, Optimized(sts, load), sts)
  {
    RunsAreOrdered(sts, load, |sts|);
    AllRunsSame(others, sts, load, Runs(sts, load, |sts|), 0);
    SplicedMeaning(others, Merged, sts, Runs(sts, load, |sts|), 0);
    assert sts[0..] == sts;
  }

  lemma {:induction false} AllRunsSame<T(!new)>(others: (nat, nat, Machine<T>) -> Machine<T>, sts: seq<Statement>,
                                                load: bool, runs: seq<Span>, k: nat)
    requires Singles(sts, load) && (load ==> SafeLoads(sts)) && runs == Runs(sts, load, |sts|) && k <= |runs|
    ensures SameFrom(others, Merged, sts, runs, k)
    decreases |runs| - k
  {
    if k < |runs| {
      AllRunsSame(others, sts, load, runs, k + 1);
      RunsAreMaximal(sts, load, |sts|, runs[k]);
      ClosedRunMeaning(others, sts, load, runs[k]);
    }
  }

  lemma ClosedRunMeaning<T(!new)>(others: (nat, nat, Machine<T>) -> Machine<T>, sts: seq<Statement>, load: bool,
                                  run: Span)
    requires Singles(sts, load) && (load ==> SafeLoads(sts)) && IsClosedRun(sts, load, run)
    ensures SameRun(others, Merged, sts, run)
  {
    var part := RunAt(sts, run);
    SinglesOfRun(sts, load, run);
    SinglesAsAccesses(others, part, load);
    MergedMeaning(others, part, load);
  }

  lemma SinglesOfRun(sts: seq<Statement>, load: bool, run: Span)
    requires Singles(sts, load) && IsClosedRun(sts, load, run)
    ensures AreSingles(RunAt(sts, run), load)
  {}

  // ---------------------------------------------------------------- what a pass leaves alone

  /** The last statement is never merged: the run it may belong to is not over when the loop is.
      `printSegment` (ps3tool/rewrite.cpp:737-786) relies on it when it takes the last printed line to
      be the last instruction. */
  lemma {:induction false} LastStatementKept(f: Replacement, sts: seq<Statement>, runs: seq<Span>, k: nat)
    requires sts != [] && Ordered(runs, |sts|) && k <= |runs|
    ensures var r := Spliced(f, sts, runs, k);
      r != [] && r[|r| - 1] == sts[|sts| - 1]
    decreases |runs| - k
  {
    if k < |runs| {
      LastStatementKept(f, sts, runs, k + 1);
    }
  }

  /** None of the statements is of the kind `p`. */
  ghost predicate Lacks(p: Statement -> bool, sts: seq<Statement>) {
    forall i :: 0 <= i < |sts| ==> !p(sts[i])
  }

  ghost predicate LacksFrom(p: Statement -> bool, f: Replacement, sts: seq<Statement>, runs: seq<Span>, k: nat)
    requires Ordered(runs, |sts|) && k <= |runs|
    decreases |runs| - k
  {
    k == |runs| || (Lacks(p, f(RunAt(sts, runs[k]))) && LacksFrom(p, f, sts, runs, k + 1))
  }

  ghost predicate IsOneOf(sts: seq<Statement>, st: Statement, inFront: bool) {
    exists j :: 0 <= j < |sts| && sts[j] == st && (inFront ==> j < |sts| - 1)
  }

  /** Statements of a kind that no replacement is of were there before; the last one only at the end. */
  lemma {:induction false} KindUntouched(p: Statement -> bool, f: Replacement, sts: seq<Statement>, runs: seq<Span>,
                                         k: nat, i: nat)
    requires Ordered(runs, |sts|) && k <= |runs| && LacksFrom(p, f, sts, runs, k)
    requires i < |Spliced(f, sts, runs, k)| && p(Spliced(f, sts, runs, k)[i])
    ensures IsOneOf(sts, Spliced(f, sts, runs, k)[i], i < |Spliced(f, sts, runs, k)| - 1)
    decreases |runs| - k
  {
    var from := EndBefore(runs, k);
    if k < |runs| {
      var head, mid := sts[from..runs[k].0], f(RunAt(sts, runs[k]));
      if i >= |head| + |mid| {
        KindUntouched(p, f, sts, runs, k + 1, i - |head| - |mid|);
      } else if i < |head| {
        assert Spliced(f, sts, runs, k)[i] == sts[from + i];
      }
    } else {
      assert Spliced(f, sts, runs, k)[i] == sts[from + i];
    }
  }

  lemma MergedIsOfItsKind(run: seq<Statement>, load: bool)
    requires forall k :: 0 <= k < |run| ==> Matches(run[k], load)
    ensures forall i :: 0 <= i < |Merged(run)| ==> Matches(Merged(run)[i], load)
  {
    if CanMerge(run) {
      var q :| IsArrangement(run, q) && Merged(run) == [Merge(q)];
      SameStatements(run, q);
      var k: nat :| k < |run| && run[k] == q[0] by { assert q[0] in run; }
      assert Matches(run[k], load);
      assert Matches(Merge(q), load);
    }
  }

  lemma {:induction false} LackedByRuns(p: Statement -> bool, sts: seq<Statement>, load: bool, runs: seq<Span>, k: nat)
    requires forall st :: p(st) ==> !Matches(st, load)
    requires runs == Runs(sts, load, |sts|) && Ordered(runs, |sts|) && k <= |runs|
    ensures LacksFrom(p, Merged, sts, runs, k)
    decreases |runs| - k
  {
    if k < |runs| {
      LackedByRuns(p, sts, load, runs, k + 1);
      RunsAreMaximal(sts, load, |sts|, runs[k]);
      MergedIsOfItsKind(RunAt(sts, runs[k]), load);
    }
  }

  /** A pass adds nothing but statements of the kind it is about. */
  lemma KindStays(p: Statement -> bool, sts: seq<Statement>, load: bool, i: nat)
    requires forall st :: p(st) ==> !Matches(st, load)
    requires i < |Optimized(sts, load)| && p(Optimized(sts, load)[i])
    ensures IsOneOf(sts, Optimized(sts, load)[i], i < |Optimized(sts, load)| - 1)
  {
    var runs := Runs(sts, load, |sts|);
    RunsAreOrdered(sts, load, |sts|);
    LackedByRuns(p, sts, load, runs, 0);
    KindUntouched(p, Merged, sts, runs, 0, i);
  }

  lemma StoresStaySingle(sts: seq<Statement>)
    requires Singles(sts, false)
    ensures Singles(Optimized(sts, true), false)
  {
    var r := Optimized(sts, true);
    forall i | 0 <= i < |r| && Matches(r[i], false) ensures r[i] in sts {
      KindStays(st => Matches(st, false), sts, true, i);
    }
  }

  // ---------------------------------------------------------------- all but the last statement

  /** A pass changes what comes before the last statement without changing what it does. */
  lemma {:induction false} SplicedFront<T(!new)>(others: (nat, nat, Machine<T>) -> Machine<T>, f: Replacement,
                                                 sts: seq<Statement>, runs: seq<Span>, k: nat)
    requires sts != [] && Ordered(runs, |sts|) && k <= |runs| && SameFrom(others, f, sts, runs, k)
    ensures var r := Spliced(f, sts, runs, k);
      r != [] && Alike(others, r[..|r| - 1], sts[EndBefore(runs, k)..|sts| - 1])
    decreases |runs| - k
  {
    if k < |runs| {
      SplicedFront(others, f, sts, runs, k + 1);
      SplicedStep(f, sts, runs, k);
      OneMoreFront(others, sts, EndBefore(runs, k), runs[k].0, EndBefore(runs, k + 1), f(RunAt(sts, runs[k])),
                   Spliced(f, sts, runs, k + 1));
    } else {
      FrontOfSlice(sts, EndBefore(runs, k));
    }
  }

  lemma FrontOfSlice<A>(s: seq<A>, from: nat)
    requires from < |s|
    ensures s[from..] != [] && s[from..][..|s[from..]| - 1] == s[from..|s| - 1]
  {}

  lemma OneMoreFront<T(!new)>(others: (nat, nat, Machine<T>) -> Machine<T>, sts: seq<Statement>, from: nat, start: nat,
                              end: nat, mid: seq<Statement>, rest: seq<Statement>)
    requires from <= start <= end < |sts| && rest != []
    requires Alike(others, mid, sts[start..end]) && Alike(others, rest[..|rest| - 1], sts[end..|sts| - 1])
    ensures var r := sts[from..start] + mid + rest;
      r != [] && Alike(others, r[..|r| - 1], sts[from..|sts| - 1])
  {
    FrontOfThree(sts, from, start, end, mid, rest);
    OneMoreRun(others, sts[..|sts| - 1], from, start, end, mid, rest[..|rest| - 1]);
  }

  lemma FrontOfThree<A>(s: seq<A>, from: nat, start: nat, end: nat, mid: seq<A>, rest: seq<A>)
    requires from <= start <= end < |s| && rest != []
    ensures var r := s[from..start] + mid + rest;
      r[..|r| - 1] == s[..|s| - 1][from..start] + mid + rest[..|rest| - 1]
    ensures s[..|s| - 1][start..end] == s[start..end] && s[..|s| - 1][end..] == s[end..|s| - 1]
    ensures s[..|s| - 1][from..] == s[from..|s| - 1]
  {}

  lemma PassPreservesFront<T(!new)>(others: (nat, nat, Machine<T>) -> Machine<T>, sts: seq<Statement>, load: bool)
    requires sts != [] && Singles(sts, load) && (load ==> SafeLoads(sts))
    ensures var r := Optimized(sts, load);
      r != [] && Alike(others, r[..|r| - 1], sts[..|sts| - 1])
  {
    RunsAreOrdered(sts, load, |sts|);
    AllRunsSame(others, sts, load, Runs(sts, load, |sts|), 0);
    SplicedFront(others, Merged, sts, Runs(sts, load, |sts|), 0);
    assert sts[0..|sts| - 1] == sts[..|sts| - 1];
  }

  // ---------------------------------------------------------------- both passes

  /** The statements of a block after both passes. */
  ghost function Rewritten(sts: seq<Statement>): seq<Statement> {
    Optimized(Optimized(sts, true), false)
  }

  lemma PassesKeepMeaning<T(!new)>(others: (nat, nat, Machine<T>) -> Machine<T>, sts: seq<Statement>)
    requires SafeLoads(sts) && Singles(sts, true) && Singles(sts, false)
    ensures Alike(others, Rewritten(sts), sts)
  {
    StoresStaySingle(sts);
    PassPreservesMeaning(others, sts, true);
    PassPreservesMeaning(others, Optimized(sts, true), false);
  }

  /** The last instruction of the block is emitted last, by itself. */
  lemma BlockEndsWithItsLastInstruction(sts: seq<Statement>)
    requires sts != []
    ensures SameEnd(Rewritten(sts), sts)
  {
    OptimizedEnd(sts, true);
    OptimizedEnd(Optimized(sts, true), false);
    SameEndThrough(Optimized(Optimized(sts, true), false), Optimized(sts, true), sts);
  }

  ghost predicate SameEnd(a: seq<Statement>, b: seq<Statement>) {
    a != [] && b != [] && a[|a| - 1] == b[|b| - 1]
  }

  lemma SameEndThrough(a: seq<Statement>, b: seq<Statement>, c: seq<Statement>)
    requires SameEnd(a, b) && SameEnd(b, c)
    ensures SameEnd(a, c)
  {}

  lemma OptimizedEnd(sts: seq<Statement>, load: bool)
    requires sts != []
    ensures SameEnd(Optimized(sts, load), sts)
  {
    RunsAreOrdered(sts, load, |sts|);
    LastStatementKept(Merged, sts, Runs(sts, load, |sts|), 0);
  }

  /** Up to the last statement, too, the emitted statements do what the instructions do. */
  lemma FrontKeepsMeaning<T(!new)>(others: (nat, nat, Machine<T>) -> Machine<T>, sts: seq<Statement>)
    requires sts != [] && Singles(sts, true) && Singles(sts, false) && SafeLoads(sts)
    ensures var r := Rewritten(sts);
      r != [] && Alike(others, r[..|r| - 1], sts[..|sts| - 1])
  {
    StoresStaySingle(sts);
    PassPreservesFront(others, sts, true);
    OptimizedEnd(sts, true);
    PassPreservesFront(others, Optimized(sts, true), false);
  }

  /** A statement in front of the last one that is neither load nor store is there already, and in
      front of the last one. */
  lemma SimpleStatementsStay(sts: seq<Statement>, i: nat)
    requires i < |Rewritten(sts)| - 1 && Rewritten(sts)[i].Simple?
    ensures IsOneOf(sts, Rewritten(sts)[i], true)
  {
    var one := Optimized(sts, true);
    KindStays((st: Statement) => st.Simple?, one, false, i);
    var k :| 0 <= k < |one| - 1 && one[k] == Rewritten(sts)[i];
    KindStays((st: Statement) => st.Simple?, sts, true, k);
  }

  // ---------------------------------------------------------------- from instructions to statements

  function Fetch(code: nat -> nat): nat -> Statement {
    (cia: nat) => Transform(cia, code(cia))
  }

  /** The statements of the `n` instructions from `start` on. */
  function Transformed(fetch: nat -> Statement, start: nat, n: nat): (sts: seq<Statement>)
    ensures |sts| == n
  {
    if n == 0 then [] else Transformed(fetch, start, n - 1) + [fetch(start + 4 * (n - 1))]
  }

  lemma {:induction false} TransformedAt(fetch: nat -> Statement, start: nat, n: nat, i: nat)
    requires i < n
    ensures Transformed(fetch, start, n)[i] == fetch(start + 4 * i)
  {
    if i < n - 1 {
      TransformedAt(fetch, start, n - 1, i);
    }
  }

  /** The first `n` instructions, one by one. */
  ghost function RunCode<T>(others: (nat, nat, Machine<T>) -> Machine<T>, code: nat -> nat, start: nat, n: nat,
                            s: Machine<T>): Machine<T>
  {
    if n == 0 then s
    else
      var cia := start + 4 * (n - 1);
      Interpret(others, cia, Decode(code(cia)), RunCode(others, code, start, n - 1, s))
  }

  lemma {:induction false} TransformedMeaning<T>(others: (nat, nat, Machine<T>) -> Machine<T>, code: nat -> nat,
                                                 start: nat, n: nat, s: Machine<T>)
    ensures Run(others, Transformed(Fetch(code), start, n), s) == RunCode(others, code, start, n, s)
  {
    if n > 0 {
      var cia := start + 4 * (n - 1);
      TransformedMeaning(others, code, start, n - 1, s);
      LastOfRun(others, Transformed(Fetch(code), start, n - 1), Fetch(code)(cia), s);
      StepOfTransformed(others, code, cia, RunCode(others, code, start, n - 1, s));
    }
  }

  lemma StepOfTransformed<T>(others: (nat, nat, Machine<T>) -> Machine<T>, code: nat -> nat, cia: nat, s: Machine<T>)
    ensures Step(others, Fetch(code)(cia), s) == Interpret(others, cia, Decode(code(cia)), s)
  {
    TransformIsSingle(cia, code(cia));
  }

  lemma LastOfRun<T>(others: (nat, nat, Machine<T>) -> Machine<T>, sts: seq<Statement>, st: Statement, s: Machine<T>)
    ensures Run(others, sts + [st], s) == Step(others, st, Run(others, sts, s))
  {
    assert (sts + [st])[..|sts|] == sts;
  }

  lemma {:induction false} TransformedIsSingle(code: nat -> nat, start: nat, n: nat, load: bool)
    ensures Singles(Transformed(Fetch(code), start, n), load)
  {
    if n > 0 {
      TransformedIsSingle(code, start, n - 1, load);
      TransformIsSingle(start + 4 * (n - 1), code(start + 4 * (n - 1)));
    }
  }

  /** The emitted statements of a block do what its instructions do, one by one, unless unsafe loads
      are merged. */
  lemma BlockKeepsMeaning<T(!new)>(others: (nat, nat, Machine<T>) -> Machine<T>, code: nat -> nat, start: nat, n: nat,
                                   s: Machine<T>)
    requires SafeLoads(Transformed(Fetch(code), start, n))
    ensures Run(others, Rewritten(Transformed(Fetch(code), start, n)), s) == RunCode(others, code, start, n, s)
  {
    TransformedIsSingle(code, start, n, true);
    TransformedIsSingle(code, start, n, false);
    PassesKeepMeaning(others, Transformed(Fetch(code), start, n));
    TransformedMeaning(others, code, start, n, s);
  }

  /** The loop over the instructions of a block; `fetch` gives the statement of the one at an address. */
  method TransformBasicBlock(fetch: nat -> Statement, start: nat, len: nat) returns (block: ConcreteBasicBlock)
    requires len % 4 == 0
    ensures fresh(block) && block.statements == Transformed(fetch, start, len / 4)
  {
    block := new ConcreteBasicBlock([]);
    var cia := start;
    ghost var n := 0;
    while cia < start + len
      invariant cia == start + 4 * n <= start + len
      invariant fresh(block) && block.statements == Transformed(fetch, start, n)
    {
      block.statements := block.statements + [fetch(cia)];
      cia := cia + 4;
      n := n + 1;
    }
  }

  /** What `rewritePPU` does with a block before printing it. */
  method RewriteBlock(code: nat -> nat, start: nat, len: nat) returns (block: ConcreteBasicBlock)
    requires len % 4 == 0
    ensures fresh(block) && block.statements == Rewritten(Transformed(Fetch(code), start, len / 4))
    ensures var plain := Transformed(Fetch(code), start, len / 4);
      var loads := Walk(Merged, ClosedAt(plain, true), plain, 0);
      block.statements == Walk(Merged, ClosedAt(loads, false), loads, 0)
  {
    block := TransformBasicBlock(Fetch(code), start, len);
    TransformedIsSingle(code, start, len / 4, true);
    TransformedIsSingle(code, start, len / 4, false);
    StoresStaySingle(block.statements);
    block.OptimizeAdjacentLoadStores(true);
    block.OptimizeAdjacentLoadStores(false);
    ghost var plain := Transformed(Fetch(code), start, len / 4);
    PassIsWalk(plain, true);
    PassIsWalk(Optimized(plain, true), false);
  }
}
