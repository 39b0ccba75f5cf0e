/** A run of loads or stores to neighbouring addresses against the one access it is merged into
    (ps3tool/rewrite.cpp:349-373 and 258-297). */
module MergedRuns {
  import opened Common
  import opened LoadStores

  /** A load or a store with one source. */
  predicate IsAccess(st: Statement, load: bool) {
    st.LoadStore? && |st.src| == 1 && st.src[0].size > 0 && st.load == load
  }

  predicate AreAccesses(run: seq<Statement>, load: bool) {
    forall i :: 0 <= i < |run| ==> IsAccess(run[i], load)
  }

  predicate AllFrom(run: seq<Statement>, dest: Reg) {
    forall i :: 0 <= i < |run| ==> run[i].LoadStore? && run[i].destReg == dest
  }

  /** Each access ends where the next one begins. */
  predicate Adjacent(q: seq<Statement>) {
    (forall i :: 0 <= i < |q| ==> q[i].LoadStore?) &&
    forall i, j :: 0 <= i && j == i + 1 < |q| ==> q[i].disp + TotalSize(q[i].src) == q[j].disp
  }

  /** `q` is the run sorted by displacement, and passes the tests for merging. */
  ghost predicate IsArrangement(run: seq<Statement>, q: seq<Statement>) {
    q != [] && multiset(q) == multiset(run) && Adjacent(q) && AllFrom(q, q[0].destReg)
  }

  /** The source vectors of the first `n`, appended one to the other. */
  function Sources(q: seq<Statement>, n: nat): seq<Access>
    requires n <= |q| && forall i :: 0 <= i < |q| ==> q[i].LoadStore?
  {
    if n == 0 then [] else Sources(q, n - 1) + q[n - 1].src
  }

  /** What is left in `sts[0]` at the end. */
  function Merge(q: seq<Statement>): Statement
    requires q != [] && forall i :: 0 <= i < |q| ==> q[i].LoadStore?
  {
    q[0].(src := Sources(q, |q|))
  }

  ghost function RunAccesses<T>(run: seq<Statement>, load: bool, n: nat, s: Machine<T>): Machine<T>
    requires n <= |run| && AreAccesses(run, load)
  {
    if n == 0 then s
    else
      var st := run[n - 1];
      OneAccess(st.load, st.src[0], st.destReg, st.disp, RunAccesses(run, load, n - 1, s))
  }

  // ---------------------------------------------------------------- the layout of a run

  lemma SingleSize(st: Statement, load: bool)
    requires IsAccess(st, load)
    ensures TotalSize(st.src) == st.src[0].size
  {
    assert SizeUpTo(st.src, 1) == SizeUpTo(st.src, 0) + st.src[0].size;
  }

  lemma AdjacentEnd(q: seq<Statement>, load: bool, i: nat)
    requires Adjacent(q) && AreAccesses(q, load) && 0 < i < |q|
    ensures q[i - 1].disp + q[i - 1].src[0].size == q[i].disp
  {
    SingleSize(q[i - 1], load);
  }

  lemma {:induction false} AdjacentApart(q: seq<Statement>, load: bool, i: nat, j: nat)
    requires Adjacent(q) && AreAccesses(q, load) && i < j < |q|
    ensures q[i].disp + q[i].src[0].size <= q[j].disp
  {
    AdjacentEnd(q, load, j);
    if i < j - 1 {
      AdjacentApart(q, load, i, j - 1);
    }
  }

  /** Member `i` of the merged struct is the source of access `i`, and lies where access `i` is. */
  lemma {:induction false} Layout(q: seq<Statement>, load: bool, n: nat)
    requires n <= |q| && AreAccesses(q, load)
    ensures |Sources(q, n)| == n
    ensures forall i :: 0 <= i < n ==> Sources(q, n)[i] == q[i].src[0]
  {
    if n > 0 {
      Layout(q, load, n - 1);
    }
  }

  lemma {:induction false} MemberOffset(q: seq<Statement>, load: bool, src: seq<Access>, n: nat)
    requires n < |q| && Adjacent(q) && AreAccesses(q, load)
    requires |src| == |q| && forall i :: 0 <= i < |q| ==> src[i] == q[i].src[0]
    ensures q[0].disp + SizeUpTo(src, n) == q[n].disp
  {
    if n > 0 {
      MemberOffset(q, load, src, n - 1);
      AdjacentEnd(q, load, n);
    }
  }

  lemma SameStatements(p: seq<Statement>, q: seq<Statement>)
    requires multiset(q) == multiset(p)
    ensures |p| == |q| && forall st :: st in p <==> st in q
  {
    assert |multiset(p)| == |p| && |multiset(q)| == |q|;
    assert forall st :: st in p <==> st in multiset(p);
    assert forall st :: st in q <==> st in multiset(q);
  }

  lemma SameKind(p: seq<Statement>, q: seq<Statement>, load: bool)
    requires IsArrangement(p, q) && AreAccesses(p, load)
    ensures AreAccesses(q, load) && AllFrom(p, q[0].destReg)
  {
    SameStatements(p, q);
    forall i | 0 <= i < |q| ensures IsAccess(q[i], load) {
      var j: nat :| j < |p| && p[j] == q[i] by { assert q[i] in p; }
    }
    forall i | 0 <= i < |p| ensures p[i].destReg == q[0].destReg {
      var j: nat :| j < |q| && q[j] == p[i] by { assert p[i] in q; }
    }
  }

  // ---------------------------------------------------------------- stores

  predicate Covers(st: Statement, base: int, a: int)
    requires IsAccess(st, st.LoadStore? && st.load)
  {
    base + st.disp <= a < base + st.disp + st.src[0].size
  }

  /** The byte that a store leaves at an address it covers. */
  function Stored(st: Statement, gpr: Registers, base: int, a: int): Byte
    requires IsAccess(st, false) && Covers(st, base, a)
  {
    Bytes(gpr[st.src[0].reg], st.src[0].size)[a - base - st.disp]
  }

  /** The byte at `a` after the first `n` stores: the last store that covers it wins. */
  ghost function ByteAfter(p: seq<Statement>, n: nat, gpr: Registers, memory: Memory, base: int, a: int): Byte
    requires n <= |p| && AreAccesses(p, false)
  {
    if n == 0 then memory[a]
    else if Covers(p[n - 1], base, a) then Stored(p[n - 1], gpr, base, a)
    else ByteAfter(p, n - 1, gpr, memory, base, a)
  }

  lemma OneStore<T>(st: Statement, s: Machine<T>, a: int)
    requires IsAccess(st, false)
    ensures var base, r := Base(s.gpr, st.destReg), OneAccess(false, st.src[0], st.destReg, st.disp, s);
      r.gpr == s.gpr && r.rest == s.rest &&
      r.memory[a] == if Covers(st, base, a) then Stored(st, s.gpr, base, a) else s.memory[a]
  {}

  lemma {:induction false} StoresInOrder<T>(p: seq<Statement>, n: nat, dest: Reg, s: Machine<T>, a: int)
    requires n <= |p| && AreAccesses(p, false) && AllFrom(p, dest)
    ensures var r := RunAccesses(p, false, n, s);
      r.gpr == s.gpr && r.rest == s.rest && r.memory[a] == ByteAfter(p, n, s.gpr, s.memory, Base(s.gpr, dest), a)
  {
    if n > 0 {
      StoresInOrder(p, n - 1, dest, s, a);
      OneStore(p[n - 1], RunAccesses(p, false, n - 1, s), a);
    }
  }

  lemma {:induction false} GatheredByte(q: seq<Statement>, src: seq<Access>, n: nat, gpr: Registers, memory: Memory,
                                        base: int, a: int)
    requires 0 < n <= |q| && Adjacent(q) && AreAccesses(q, false)
    requires |src| == |q| && forall i :: 0 <= i < |q| ==> src[i] == q[i].src[0]
    ensures Patched(memory, base + q[0].disp, Gather(gpr, src, n), a) == ByteAfter(q, n, gpr, memory, base, a)
  {
    MemberOffset(q, false, src, n - 1);
    if n > 1 {
      GatheredByte(q, src, n - 1, gpr, memory, base, a);
    }
  }

  lemma {:induction false} ByteAfterCovering(p: seq<Statement>, n: nat, gpr: Registers, memory: Memory, base: int,
                                             a: int, k: nat)
    requires k < n <= |p| && AreAccesses(p, false) && Covers(p[k], base, a)
    requires forall i :: 0 <= i < n && Covers(p[i], base, a) ==> p[i] == p[k]
    ensures ByteAfter(p, n, gpr, memory, base, a) == Stored(p[k], gpr, base, a)
  {
    if !Covers(p[n - 1], base, a) {
      ByteAfterCovering(p, n - 1, gpr, memory, base, a, k);
    }
  }

  lemma {:induction false} ByteAfterNone(p: seq<Statement>, n: nat, gpr: Registers, memory: Memory, base: int, a: int)
    requires n <= |p| && AreAccesses(p, false)
    requires forall i :: 0 <= i < n ==> !Covers(p[i], base, a)
    ensures ByteAfter(p, n, gpr, memory, base, a) == memory[a]
  {
    if n > 0 {
      ByteAfterNone(p, n - 1, gpr, memory, base, a);
    }
  }

  /** No two accesses of a mergeable run cover the same address. */
  lemma CoveringIsUnique(q: seq<Statement>, load: bool, base: int, a: int, x: Statement, y: Statement)
    requires Adjacent(q) && AreAccesses(q, load) && x in q && y in q
    requires IsAccess(x, load) && IsAccess(y, load) && Covers(x, base, a) && Covers(y, base, a)
    ensures x == y
  {
    var i: nat :| i < |q| && q[i] == x;
    var j: nat :| j < |q| && q[j] == y;
    if i < j {
      AdjacentApart(q, load, i, j);
    } else if j < i {
      AdjacentApart(q, load, j, i);
    }
  }

  /** The order of stores that do not overlap is irrelevant. */
  lemma ByteAfterPermuted(p: seq<Statement>, q: seq<Statement>, gpr: Registers, memory: Memory, base: int, a: int)
    requires AreAccesses(p, false) && AreAccesses(q, false) && Adjacent(q) && forall st :: st in p <==> st in q
    ensures ByteAfter(p, |p|, gpr, memory, base, a) == ByteAfter(q, |q|, gpr, memory, base, a)
  {
    if k: nat :| k < |q| && Covers(q[k], base, a) {
      var j: nat :| j < |p| && p[j] == q[k] by { assert q[k] in p; }
      forall i | 0 <= i < |q| && Covers(q[i], base, a) ensures q[i] == q[k] {
        CoveringIsUnique(q, false, base, a, q[i], q[k]);
      }
      forall i | 0 <= i < |p| && Covers(p[i], base, a) ensures p[i] == p[j] {
        CoveringIsUnique(q, false, base, a, p[i], q[k]);
      }
      ByteAfterCovering(q, |q|, gpr, memory, base, a, k);
      ByteAfterCovering(p, |p|, gpr, memory, base, a, j);
    } else {
      forall i | 0 <= i < |p| ensures !Covers(p[i], base, a) {
        var k: nat :| k < |q| && q[k] == p[i] by { assert p[i] in q; }
      }
      ByteAfterNone(q, |q|, gpr, memory, base, a);
      ByteAfterNone(p, |p|, gpr, memory, base, a);
    }
  }

  lemma MergedStoreByte<T>(q: seq<Statement>, s: Machine<T>, a: int)
    requires q != [] && Adjacent(q) && AreAccesses(q, false)
    ensures var r := MergedAccess(Merge(q), s);
      r.gpr == s.gpr && r.rest == s.rest &&
      r.memory[a] == ByteAfter(q, |q|, s.gpr, s.memory, Base(s.gpr, q[0].destReg), a)
  {
    Layout(q, false, |q|);
    GatheredByte(q, Sources(q, |q|), |q|, s.gpr, s.memory, Base(s.gpr, q[0].destReg), a);
  }

  lemma MergedStoresAt<T>(p: seq<Statement>, q: seq<Statement>, s: Machine<T>, a: int)
    requires IsArrangement(p, q) && AreAccesses(p, false) && AreAccesses(q, false) && AllFrom(p, q[0].destReg)
    ensures MergedAccess(Merge(q), s).memory[a] == RunAccesses(p, false, |p|, s).memory[a]
  {
    SameStatements(p, q);
    MergedStoreByte(q, s, a);
    ByteAfterPermuted(p, q, s.gpr, s.memory, Base(s.gpr, q[0].destReg), a);
    StoresInOrder(p, |p|, q[0].destReg, s, a);
  }

  lemma MergedStoresMemory<T>(p: seq<Statement>, q: seq<Statement>, s: Machine<T>)
    requires IsArrangement(p, q) && AreAccesses(p, false) && AreAccesses(q, false) && AllFrom(p, q[0].destReg)
    ensures MergedAccess(Merge(q), s).memory == RunAccesses(p, false, |p|, s).memory
  {
    var one, all := MergedAccess(Merge(q), s).memory, RunAccesses(p, false, |p|, s).memory;
    forall a: int ensures one[a] == all[a] {
      MergedStoresAt(p, q, s, a);
    }
    assert one[0] == all[0];
  }

  /** Merging stores changes nothing, whatever order the program has them in. */
  lemma MergedStores<T>(p: seq<Statement>, q: seq<Statement>, s: Machine<T>)
    requires IsArrangement(p, q) && AreAccesses(p, false)
    ensures MergedAccess(Merge(q), s) == RunAccesses(p, false, |p|, s)
  {
    SameKind(p, q, false);
    MergedStoresMemory(p, q, s);
    MergedStoreByte(q, s, 0);
    StoresInOrder(p, |p|, q[0].destReg, s, 0);
  }

  // ---------------------------------------------------------------- loads

  ghost function Loaded(st: Statement, memory: Memory, base: int): nat
    requires IsAccess(st, true)
  {
    ReadValue(memory, base + st.disp, st.src[0].size)
  }

  /** The value of `reg` after the first `n` loads, all from the same base: the last load wins. */
  ghost function LoadedAt(p: seq<Statement>, n: nat, gpr: Registers, memory: Memory, base: int, reg: Reg): nat
    requires n <= |p| && AreAccesses(p, true)
  {
    if n == 0 then gpr[reg]
    else if p[n - 1].src[0].reg == reg then Loaded(p[n - 1], memory, base)
    else LoadedAt(p, n - 1, gpr, memory, base, reg)
  }

  /** The last of the first `n` loads with target `reg`. */
  function LastLoad(p: seq<Statement>, n: nat, reg: Reg): (st: Option<Statement>)
    requires n <= |p| && AreAccesses(p, true)
    ensures st.Some? ==>
      IsAccess(st.value, true) && st.value.src[0].reg == reg && exists i :: 0 <= i < n && p[i] == st.value
    ensures st.None? ==> forall i :: 0 <= i < n ==> p[i].src[0].reg != reg
  {
    if n == 0 then None
    else if p[n - 1].src[0].reg == reg then Some(p[n - 1])
    else LastLoad(p, n - 1, reg)
  }

  lemma {:induction false} LoadedByLast(p: seq<Statement>, n: nat, gpr: Registers, memory: Memory, base: int, reg: Reg)
    requires n <= |p| && AreAccesses(p, true)
    ensures LoadedAt(p, n, gpr, memory, base, reg)
      == match LastLoad(p, n, reg) { case None => gpr[reg] case Some(st) => Loaded(st, memory, base) }
  {
    if n > 0 {
      LoadedByLast(p, n - 1, gpr, memory, base, reg);
    }
  }

  /** Loads that come before another load of the run leave the shared base alone. */
  predicate BaseUntouched(p: seq<Statement>, dest: Reg)
    requires AreAccesses(p, true)
  {
    dest == 0 || forall i :: 0 <= i < |p| - 1 ==> p[i].src[0].reg != dest
  }

  /** Every register is loaded last by the same load in both orders. */
  ghost predicate SameLastLoads(p: seq<Statement>, q: seq<Statement>)
    requires AreAccesses(p, true) && AreAccesses(q, true)
  {
    forall reg: Reg :: LastLoad(p, |p|, reg) == LastLoad(q, |q|, reg)
  }

  /** The condition under which merging loads is right; the rewriter does not test it. */
  ghost predicate SafeRun(p: seq<Statement>, q: seq<Statement>)
    requires q != [] && AreAccesses(p, true) && AreAccesses(q, true)
  {
    BaseUntouched(p, q[0].destReg) && SameLastLoads(p, q)
  }

  lemma {:induction false} BaseStays<T>(p: seq<Statement>, n: nat, dest: Reg, s: Machine<T>)
    requires n < |p| && AreAccesses(p, true) && BaseUntouched(p, dest)
    ensures Base(RunAccesses(p, true, n, s).gpr, dest) == Base(s.gpr, dest)
  {
    if n > 0 {
      BaseStays(p, n - 1, dest, s);
    }
  }

  lemma {:induction false} LoadsInOrder<T>(p: seq<Statement>, n: nat, dest: Reg, s: Machine<T>, reg: Reg)
    requires n <= |p| && AreAccesses(p, true) && BaseUntouched(p, dest) && AllFrom(p, dest)
    ensures var r := RunAccesses(p, true, n, s);
      r.memory == s.memory && r.rest == s.rest &&
      r.gpr[reg] == LoadedAt(p, n, s.gpr, s.memory, Base(s.gpr, dest), reg)
  {
    if n > 0 {
      LoadsInOrder(p, n - 1, dest, s, reg);
      BaseStays(p, n - 1, dest, s);
    }
  }

  lemma {:induction false} ValueInStruct(memory: Memory, at: int, bytes: seq<Byte>, lo: nat, hi: nat)
    requires lo <= hi <= |bytes| && forall i :: 0 <= i < |bytes| ==> bytes[i] == memory[at + i]
    ensures Value(bytes, lo, hi) == ReadValue(memory, at + lo, hi - lo)
    decreases hi
  {
    if lo < hi {
      ValueInStruct(memory, at, bytes, lo, hi - 1);
    }
  }

  lemma MemberValue(q: seq<Statement>, src: seq<Access>, n: nat, memory: Memory, base: int, bytes: seq<Byte>)
    requires n < |q| && Adjacent(q) && AreAccesses(q, true)
    requires |src| == |q| && forall i :: 0 <= i < |q| ==> src[i] == q[i].src[0]
    requires SizeUpTo(src, n + 1) <= |bytes|
    requires forall i :: 0 <= i < |bytes| ==> bytes[i] == memory[base + q[0].disp + i]
    ensures Value(bytes, SizeUpTo(src, n), SizeUpTo(src, n + 1)) == Loaded(q[n], memory, base)
  {
    MemberOffset(q, true, src, n);
    ValueInStruct(memory, base + q[0].disp, bytes, SizeUpTo(src, n), SizeUpTo(src, n + 1));
  }

  /** The one big read, taken apart again. */
  lemma {:induction false} ScatteredLoads(q: seq<Statement>, src: seq<Access>, n: nat, gpr: Registers, memory: Memory,
                                          base: int, bytes: seq<Byte>, reg: Reg)
    requires n <= |q| && q != [] && Adjacent(q) && AreAccesses(q, true)
    requires |src| == |q| && forall i :: 0 <= i < |q| ==> src[i] == q[i].src[0]
    requires SizeUpTo(src, n) <= |bytes|
    requires forall i :: 0 <= i < |bytes| ==> bytes[i] == memory[base + q[0].disp + i]
    ensures Scatter(gpr, src, bytes, n)[reg] == LoadedAt(q, n, gpr, memory, base, reg)
  {
    if n > 0 {
      ScatteredLoads(q, src, n - 1, gpr, memory, base, bytes, reg);
      MemberValue(q, src, n - 1, memory, base, bytes);
    }
  }

  lemma MergedLoadsAt<T>(q: seq<Statement>, s: Machine<T>, reg: Reg)
    requires q != [] && Adjacent(q) && AreAccesses(q, true)
    ensures var r := MergedAccess(Merge(q), s);
      r.memory == s.memory && r.rest == s.rest &&
      r.gpr[reg] == LoadedAt(q, |q|, s.gpr, s.memory, Base(s.gpr, q[0].destReg), reg)
  {
    Layout(q, true, |q|);
    var base, src := Base(s.gpr, q[0].destReg), Sources(q, |q|);
    ScatteredLoads(q, src, |q|, s.gpr, s.memory, base, ReadBytes(s.memory, base + q[0].disp, TotalSize(src)), reg);
  }

  lemma SafeLoadsMerge<T>(p: seq<Statement>, q: seq<Statement>, s: Machine<T>)
    requires IsArrangement(p, q) && AreAccesses(p, true) && AreAccesses(q, true) && SafeRun(p, q)
    ensures MergedAccess(Merge(q), s) == RunAccesses(p, true, |p|, s)
  {
    var dest := q[0].destReg;
    var base := Base(s.gpr, dest);
    var one, all := MergedAccess(Merge(q), s), RunAccesses(p, true, |p|, s);
    SameKind(p, q, true);
    forall reg: Reg ensures one.gpr[reg] == all.gpr[reg] && one.memory == all.memory && one.rest == all.rest {
      MergedLoadsAt(q, s, reg);
      LoadsInOrder(p, |p|, dest, s, reg);
      LoadedByLast(p, |p|, s.gpr, s.memory, base, reg);
      LoadedByLast(q, |q|, s.gpr, s.memory, base, reg);
    }
    assert one.gpr[0] == all.gpr[0];
    assert one.gpr == all.gpr;
  }

  // ---------------------------------------------------------------- unsafe runs

  ghost function Mark(z: int, a: int): Byte { if a == z then 1 else 0 }

  /** All bytes zero but one. */
  ghost function OneAt(z: int): (m: Memory)
    ensures forall a: int :: m[a] == Mark(z, a)
  {
    imap a: int | true :: Mark(z, a)
  }

  lemma {:induction false} ReadsZero(z: int, at: int, size: nat)
    requires !(at <= z < at + size)
    ensures ReadValue(OneAt(z), at, size) == 0
  {
    if size > 0 {
      ReadsZero(z, at, size - 1);
    }
  }

  lemma ReadsOne(z: int, at: int, size: nat)
    requires size > 0 && z == at + size - 1
    ensures ReadValue(OneAt(z), at, size) == 1
  {
    ReadsZero(z, at, size - 1);
  }

  lemma {:induction false} CountAtMostOnce(q: seq<Statement>, load: bool, n: nat, x: Statement)
    requires n <= |q| && Adjacent(q) && AreAccesses(q, load)
    ensures multiset(q[..n])[x] <= 1
  {
    if n > 0 {
      CountAtMostOnce(q, load, n - 1, x);
      assert q[..n] == q[..n - 1] + [q[n - 1]];
      if x == q[n - 1] && x in q[..n - 1] {
        var i: nat :| i < n - 1 && q[i] == x;
        AdjacentApart(q, load, i, n - 1);
      }
    }
  }

  lemma NoRepeats(p: seq<Statement>, q: seq<Statement>, load: bool, i: nat, j: nat)
    requires multiset(q) == multiset(p) && Adjacent(q) && AreAccesses(q, load) && i < j < |p|
    ensures p[i] != p[j]
  {
    CountAtMostOnce(q, load, |q|, p[i]);
    assert q[..|q|] == q;
    if p[i] == p[j] {
      CountedTwice(p, i, j);
    }
  }

  lemma CountedTwice<A>(p: seq<A>, i: nat, j: nat)
    requires i < j < |p| && p[i] == p[j]
    ensures multiset(p)[p[i]] >= 2
  {
    assert p == p[..j] + p[j..] && p[..j][i] == p[i] && p[j..][0] == p[j];
    assert p[i] in multiset(p[..j]) && p[i] in multiset(p[j..]);
  }

  /** Two orders with different last loads tell the difference. */
  lemma DifferentLastLoads<T>(p: seq<Statement>, q: seq<Statement>, rest: T) returns (s: Machine<T>)
    requires IsArrangement(p, q) && AreAccesses(p, true) && AreAccesses(q, true)
    requires BaseUntouched(p, q[0].destReg) && !SameLastLoads(p, q)
    ensures MergedAccess(Merge(q), s) != RunAccesses(p, true, |p|, s)
  {
    SameStatements(p, q);
    SameKind(p, q, true);
    var reg: Reg :| LastLoad(p, |p|, reg) != LastLoad(q, |q|, reg);
    var x, y := TwoLastLoads(p, q, reg);
    var z := x.disp + x.src[0].size - 1;
    s := Machine(seq(32, _ => 0), OneAt(z), rest);
    assert Covers(x, 0, z) && !Covers(y, 0, z) by {
      if Covers(y, 0, z) {
        CoveringIsUnique(q, true, 0, z, x, y);
      }
    }
    ReadsOne(z, x.disp, x.src[0].size);
    ReadsZero(z, y.disp, y.src[0].size);
    MergedLoadsAt(q, s, reg);
    LoadsInOrder(p, |p|, q[0].destReg, s, reg);
    LoadedByLast(p, |p|, s.gpr, s.memory, 0, reg);
    LoadedByLast(q, |q|, s.gpr, s.memory, 0, reg);
  }

  lemma TwoLastLoads(p: seq<Statement>, q: seq<Statement>, reg: Reg) returns (x: Statement, y: Statement)
    requires AreAccesses(p, true) && AreAccesses(q, true) && forall st :: st in p <==> st in q
    requires LastLoad(p, |p|, reg) != LastLoad(q, |q|, reg)
    ensures LastLoad(p, |p|, reg) == Some(x) && LastLoad(q, |q|, reg) == Some(y)
    ensures x != y && x in q && y in q && IsAccess(x, true) && IsAccess(y, true)
  {
    LoadedInBoth(p, q, reg);
    LoadedInBoth(q, p, reg);
    var a, b := LastLoad(p, |p|, reg), LastLoad(q, |q|, reg);
    x, y := a.value, b.value;
  }

  lemma LoadedInBoth(p: seq<Statement>, q: seq<Statement>, reg: Reg)
    requires AreAccesses(p, true) && AreAccesses(q, true) && forall st :: st in p <==> st in q
    ensures LastLoad(p, |p|, reg).Some? ==> LastLoad(q, |q|, reg).Some?
  {
    if LastLoad(p, |p|, reg).Some? {
      var i: nat :| i < |p| && p[i] == LastLoad(p, |p|, reg).value;
      var j: nat :| j < |q| && q[j] == p[i] by { assert p[i] in q; }
    }
  }

  /** As long as no load covers the marked byte, it loads zero, into the base too. */
  lemma {:induction false} BaseCleared<T>(p: seq<Statement>, n: nat, dest: Reg, s: Machine<T>, z: int)
    requires n <= |p| && AreAccesses(p, true) && AllFrom(p, dest) && dest != 0 && s.memory == OneAt(z)
    requires forall i :: 0 <= i < n ==> !Covers(p[i], 0, z) && !Covers(p[i], s.gpr[dest], z)
    ensures var r := RunAccesses(p, true, n, s);
      r.memory == s.memory &&
      r.gpr[dest] == if exists i :: 0 <= i < n && p[i].src[0].reg == dest then 0 else s.gpr[dest]
  {
    if n > 0 {
      BaseCleared(p, n - 1, dest, s, z);
      var base := RunAccesses(p, true, n - 1, s).gpr[dest];
      ReadsZero(z, base + p[n - 1].disp, p[n - 1].src[0].size);
    }
  }

  /** A base that is overwritten in the middle of the run tells the difference. */
  lemma BaseOverwritten<T>(p: seq<Statement>, q: seq<Statement>, rest: T) returns (s: Machine<T>)
    requires IsArrangement(p, q) && AreAccesses(p, true) && AreAccesses(q, true)
    requires !BaseUntouched(p, q[0].destReg)
    ensures MergedAccess(Merge(q), s) != RunAccesses(p, true, |p|, s)
  {
    SameStatements(p, q);
    SameKind(p, q, true);
    var dest, last := q[0].destReg, p[|p| - 1];
    var z := last.disp + last.src[0].size - 1;
    DispAboveFirst(q, last);
    var far := z - q[0].disp + 1;
    s := Machine(seq(32, i => if i == dest then far else 0), OneAt(z), rest);
    forall i | 0 <= i < |p| - 1 ensures !Covers(p[i], 0, z) && !Covers(p[i], far, z) {
      assert p[i] in q && last in q;
      DispAboveFirst(q, p[i]);
      NoRepeats(p, q, true, i, |p| - 1);
      if Covers(p[i], 0, z) {
        CoveringIsUnique(q, true, 0, z, p[i], last);
      }
    }
    BaseCleared(p, |p| - 1, dest, s, z);
    ReadsOne(z, last.disp, last.src[0].size);
    var reg := last.src[0].reg;
    assert RunAccesses(p, true, |p|, s).gpr[reg] == 1;
    MergedLoadsAt(q, s, reg);
    LoadedFarAway(q, last, s.gpr, far, z, reg);
  }

  lemma DispAboveFirst(q: seq<Statement>, st: Statement)
    requires q != [] && Adjacent(q) && AreAccesses(q, true) && st in q
    ensures st.LoadStore? && q[0].disp <= st.disp
  {
    var i: nat :| i < |q| && q[i] == st;
    if i > 0 {
      AdjacentApart(q, true, 0, i);
    }
  }

  lemma LoadedFarAway(q: seq<Statement>, last: Statement, gpr: Registers, far: int, z: int, reg: Reg)
    requires q != [] && Adjacent(q) && AreAccesses(q, true) && last in q
    requires IsAccess(last, true) && reg == last.src[0].reg && far == z - q[0].disp + 1
    ensures LoadedAt(q, |q|, gpr, OneAt(z), far, reg) == 0
  {
    LoadedByLast(q, |q|, gpr, OneAt(z), far, reg);
    var i: nat :| i < |q| && q[i] == last;
    var st := LastLoad(q, |q|, reg).value;
    assert st in q;
    DispAboveFirst(q, st);
    ReadsZero(z, far + st.disp, st.src[0].size);
  }

  ghost predicate SameInEveryState<T(!new)>(p: seq<Statement>, q: seq<Statement>)
    requires q != [] && AreAccesses(p, true) && AreAccesses(q, true)
  {
    forall s: Machine<T> :: MergedAccess(Merge(q), s) == RunAccesses(p, true, |p|, s)
  }

  /** Exactly the safe runs may be merged. */
  lemma LoadsMergeIff<T(!new)>(p: seq<Statement>, q: seq<Statement>, rest: T)
    requires IsArrangement(p, q) && AreAccesses(p, true) && AreAccesses(q, true)
    ensures SafeRun(p, q) <==> SameInEveryState<T>(p, q)
  {
    if SafeRun(p, q) {
      forall s: Machine<T> ensures MergedAccess(Merge(q), s) == RunAccesses(p, true, |p|, s) {
        SafeLoadsMerge(p, q, s);
      }
    } else if BaseUntouched(p, q[0].destReg) {
      var s := DifferentLastLoads(p, q, rest);
    } else {
      var s := BaseOverwritten(p, q, rest);
    }
  }
}
