/** Replay of execution traces from checkpoints (ps3tool/trace_viz.cpp:125-171). */
module TraceReplay {
  import opened Common

  type Register = nat  // the name
  type Value = int     // 64 or 128 bits

  /** The registers, and the change that modified each of them last, with its offset. */
  datatype State = State(r64: map<Register, Value>, r128: map<Register, Value>, modified: map<Register, (nat, nat)>)

  datatype Change = Change(offset: nat, effect: State, complete: Option<State>)

  const EMPTY: State := State(map[], map[], map[])

  function Stamped<V>(m: map<Register, V>, keys: set<Register>, stamp: V): map<Register, V> {
    m + (map k | k in keys :: stamp)
  }

  /** What `mergeState` makes of a state. */
  function Merged(state: State, effect: State, index: nat, offset: nat): State {
    State(state.r64 + effect.r64, state.r128 + effect.r128,
          Stamped(state.modified, effect.r64.Keys + effect.r128.Keys, (index, offset)))
  }

  type Merger = (State, Change, nat) -> State

  function Merging(): Merger {
    (state: State, c: Change, index: nat) => Merged(state, c.effect, index, c.offset)
  }

  ghost predicate IsMerging(merge: Merger) {
    forall state, c: Change, index {:trigger Merged(state, c.effect, index, c.offset)} ::
      merge(state, c, index) == Merged(state, c.effect, index, c.offset)
  }

  lemma MergingIsMerging()
    ensures IsMerging(Merging())
  {}

  /** The first `n` changes, merged one after the other into nothing. */
  function Replay(merge: Merger, changes: seq<Change>, n: nat): State
    requires n <= |changes|
  {
    if n == 0 then EMPTY else merge(Replay(merge, changes, n - 1), changes[n - 1], n - 1)
  }

  /** Merging a change into a state that has it already makes no difference. */
  lemma MergeIsIdempotent(state: State, effect: State, index: nat, offset: nat)
    ensures var once := Merged(state, effect, index, offset);
      Merged(once, effect, index, offset) == once
  {
    Overlaid(state.r64, effect.r64);
    Overlaid(state.r128, effect.r128);
    var keys := effect.r64.Keys + effect.r128.Keys;
    StampedTwice(state.modified, keys, keys, (index, offset));
  }

  lemma Overlaid<V>(m: map<Register, V>, e: map<Register, V>)
    ensures m + e + e == m + e
  {}

  lemma StampedTwice<V>(m: map<Register, V>, a: set<Register>, b: set<Register>, stamp: V)
    ensures Stamped(Stamped(m, a, stamp), b, stamp) == Stamped(m, a + b, stamp)
    ensures a + a == a
  {}

  lemma {:induction false} StampOne<V>(m: map<Register, V>, keys: set<Register>, k: Register, stamp: V)
    ensures Stamped(m, keys, stamp)[k := stamp] == Stamped(m, keys + {k}, stamp)
    ensures Stamped(m, {}, stamp) == m
  {}

  /** One of the two loops of `mergeState`. */
  method MergeRegisters(registers: map<Register, Value>, modified: map<Register, (nat, nat)>,
                        effect: map<Register, Value>, stamp: (nat, nat))
    returns (registers': map<Register, Value>, modified': map<Register, (nat, nat)>)
    ensures registers' == registers + effect && modified' == Stamped(modified, effect.Keys, stamp)
  {
    registers', modified' := registers, modified;
    var rest := effect.Keys;
    ghost var seen: set<Register> := {};
    StampOne(modified, {}, 0, stamp);
    OverlayNone(registers, effect);
    while rest != {}
      invariant rest + seen == effect.Keys
      invariant registers' == Overlay(registers, effect, seen) && modified' == Stamped(modified, seen, stamp)
      decreases |rest|
    {
      var k :| k in rest;
      StampOne(modified, seen, k, stamp);
      OverlayOne(registers, effect, seen, k);
      registers', modified' := registers'[k := effect[k]], modified'[k := stamp];
      rest, seen := rest - {k}, seen + {k};
    }
    assert seen == effect.Keys;
    OverlayAll(registers, effect);
  }

  function Overlay<V>(m: map<Register, V>, e: map<Register, V>, keys: set<Register>): map<Register, V> {
    m + (map k | k in e && k in keys :: e[k])
  }

  lemma OverlayNone<V>(m: map<Register, V>, e: map<Register, V>)
    ensures Overlay(m, e, {}) == m
  {}

  lemma OverlayOne<V>(m: map<Register, V>, e: map<Register, V>, keys: set<Register>, k: Register)
    requires k in e
    ensures Overlay(m, e, keys)[k := e[k]] == Overlay(m, e, keys + {k})
  {}

  lemma OverlayAll<V>(m: map<Register, V>, e: map<Register, V>)
    ensures Overlay(m, e, e.Keys) == m + e
  {
    assert (map k | k in e && k in e.Keys :: e[k]) == e;
  }

  /** `r` has the registers of the state and of the effect, those of the effect with its values and named
      after this change, the others as they were. */
  ghost predicate IsMerge(r: State, state: State, effect: State, index: nat, offset: nat) {
    && IsOverlay(r.r64, state.r64, effect.r64) && IsOverlay(r.r128, state.r128, effect.r128)
    && r.modified.Keys == state.modified.Keys + effect.r64.Keys + effect.r128.Keys
    && forall k :: k in r.modified ==>
      r.modified[k] == if k in effect.r64 || k in effect.r128 then (index, offset) else state.modified[k]
  }

  ghost predicate IsOverlay<V>(r: map<Register, V>, m: map<Register, V>, e: map<Register, V>) {
    r.Keys == m.Keys + e.Keys && forall k :: k in r ==> r[k] == if k in e then e[k] else m[k]
  }

  method MergeState(state: State, effect: State, changeIndex: nat, changeOffset: nat) returns (r: State)
    ensures r == Merged(state, effect, changeIndex, changeOffset)
    ensures IsMerge(r, state, effect, changeIndex, changeOffset)
  {
    r := MergeBoth(state, effect, (changeIndex, changeOffset));
    MergedIsExact(state, effect, changeIndex, changeOffset);
  }

  method MergeBoth(state: State, effect: State, stamp: (nat, nat)) returns (r: State)
    ensures r == Merged(state, effect, stamp.0, stamp.1)
  {
    var r64, m64 := MergeRegisters(state.r64, state.modified, effect.r64, stamp);
    var r128, m128 := MergeRegisters(state.r128, m64, effect.r128, stamp);
    StampedTwice(state.modified, effect.r64.Keys, effect.r128.Keys, stamp);
    r := State(r64, r128, m128);
  }

  lemma MergedIsExact(state: State, effect: State, index: nat, offset: nat)
    ensures IsMerge(Merged(state, effect, index, offset), state, effect, index, offset)
  {
    OverlayIsExact(state.r64, effect.r64);
    OverlayIsExact(state.r128, effect.r128);
    StampedIsExact(state.modified, effect.r64.Keys + effect.r128.Keys, (index, offset));
  }

  lemma OverlayIsExact<V>(m: map<Register, V>, e: map<Register, V>)
    ensures IsOverlay(m + e, m, e)
  {}

  lemma StampedIsExact<V>(m: map<Register, V>, keys: set<Register>, stamp: V)
    ensures Stamped(m, keys, stamp).Keys == m.Keys + keys
    ensures forall k :: k in m || k in keys ==> Stamped(m, keys, stamp)[k] == if k in keys then stamp else m[k]
  {}

  method MergeChange(state: State, c: Change, index: nat, ghost merge: Merger) returns (r: State)
    requires IsMerging(merge)
    ensures r == merge(state, c, index)
  {
    r := MergeState(state, c.effect, index, c.offset);
  }

  lemma MergingTwice(merge: Merger, state: State, c: Change, index: nat)
    requires IsMerging(merge)
    ensures merge(merge(state, c, index), c, index) == merge(state, c, index)
  {
    MergeIsIdempotent(state, c.effect, index, c.offset);
    assert merge(state, c, index) == Merged(state, c.effect, index, c.offset);
    var once := merge(state, c, index);
    assert merge(once, c, index) == Merged(once, c.effect, index, c.offset);
  }

  // ---------------------------------------------------------------- checkpoints

  /** Change `i` as `makeKeyChanges` leaves it. */
  predicate IsKeyed(merge: Merger, before: seq<Change>, c: Change, i: nat)
    requires i < |before|
  {
    c.offset == before[i].offset && c.effect == before[i].effect &&
    c.complete == if i % 50 == 0 then Some(Replay(merge, before, i + 1)) else before[i].complete
  }

  /** Every fiftieth change gets the complete state up to and including it; nothing else changes. */
  method MakeKeyChanges(changes: array<Change>, ghost merge: Merger)
    requires IsMerging(merge)
    modifies changes
    ensures forall i {:trigger changes[i]} :: 0 <= i < changes.Length ==>
      IsKeyed(merge, old(changes[..]), changes[i], i)
  {
    var state := EMPTY;
    ghost var before := changes[..];
    for i := 0 to changes.Length
      invariant state == Replay(merge, before, i)
      invariant forall k {:trigger changes[k]} :: 0 <= k < i ==> IsKeyed(merge, before, changes[k], k)
      invariant forall k {:trigger changes[k]} :: i <= k < changes.Length ==> changes[k] == before[k]
    {
      state := MergeChange(state, changes[i], i, merge);
      if i % 50 == 0 {
        changes[i] := changes[i].(complete := Some(state));
      }
    }
  }

  /** Whatever checkpoints there are, they are right, and the first change has one. */
  ghost predicate Keyed(merge: Merger, changes: seq<Change>) {
    (changes != [] ==> changes[0].complete.Some?) &&
    forall i {:trigger changes[i].complete} :: 0 <= i < |changes| && changes[i].complete.Some? ==>
      changes[i].complete.value == Replay(merge, changes, i + 1)
  }

  /** Replay does not depend on checkpoints. */
  lemma {:induction false} SameReplay(merge: Merger, a: seq<Change>, b: seq<Change>, n: nat)
    requires IsMerging(merge) && n <= |a| && n <= |b|
    requires forall i :: 0 <= i < n ==> a[i].offset == b[i].offset && a[i].effect == b[i].effect
    ensures Replay(merge, a, n) == Replay(merge, b, n)
  {
    if n > 0 {
      SameReplay(merge, a, b, n - 1);
      SameChange(merge, Replay(merge, a, n - 1), a[n - 1], b[n - 1], n - 1);
    }
  }

  lemma SameChange(merge: Merger, state: State, c: Change, d: Change, i: nat)
    requires IsMerging(merge) && c.offset == d.offset && c.effect == d.effect
    ensures merge(state, c, i) == merge(state, d, i)
  {
    assert merge(state, c, i) == Merged(state, c.effect, i, c.offset);
    assert merge(state, d, i) == Merged(state, d.effect, i, d.offset);
  }

  /** After `makeKeyChanges` on a freshly parsed trace, the checkpoints are right. */
  lemma KeyChangesAreKeyed(merge: Merger, before: seq<Change>, after: seq<Change>)
    requires IsMerging(merge) && |before| == |after| && forall i :: 0 <= i < |before| ==> before[i].complete.None?
    requires forall i {:trigger after[i]} :: 0 <= i < |after| ==> IsKeyed(merge, before, after[i], i)
    ensures Keyed(merge, after)
  {
    forall i | 0 <= i < |after| && after[i].complete.Some?
      ensures after[i].complete.value == Replay(merge, after, i + 1)
    {
      SameReplay(merge, before, after, i + 1);
    }
  }

  /** The state after change `n`: the nearest earlier checkpoint, with its own change merged again, and
      the changes from there on. It is the state of a replay of everything, down to which change
      modified each register last. */
  method GetState(changes: seq<Change>, n: nat, ghost merge: Merger) returns (state: State)
    requires IsMerging(merge) && Keyed(merge, changes) && n < |changes|
    ensures state == Replay(merge, changes, n + 1)
  {
    state := EMPTY;
    var start := n;
    var i := n as int - 1;
    while i >= 0
      invariant -1 <= i < n && start == n && state == EMPTY
      invariant forall k {:trigger changes[k].complete} :: i < k < n ==> changes[k].complete.None?
    {
      if changes[i].complete.Some? {
        state := changes[i].complete.value;
        start := i;
        break;
      }
      i := i - 1;
    }
    if start < n {
      MergingTwice(merge, Replay(merge, changes, start), changes[start], start);
    }
    for k := start to n + 1
      invariant k == start ==> merge(state, changes[k], k) == Replay(merge, changes, k + 1)
      invariant k > start ==> state == Replay(merge, changes, k)
    {
      state := MergeChange(state, changes[k], k, merge);
    }
  }

  method KeyAndGet(changes: array<Change>, n: nat, ghost merge: Merger) returns (state: State)
    requires IsMerging(merge) && n < changes.Length
    requires forall i {:trigger changes[i]} :: 0 <= i < changes.Length ==> changes[i].complete.None?
    modifies changes
    ensures state == Replay(merge, old(changes[..]), n + 1)
  {
    ghost var before := changes[..];
    MakeKeyChanges(changes, merge);
    ghost var after := changes[..];
    KeyChangesAreKeyed(merge, before, after);
    SameReplay(merge, before, after, n + 1);
    state := GetState(changes[..], n, merge);
  }

  // ---------------------------------------------------------------- what a replay comes to

  /** What one register looks like in a state: its value of either width, and who set it last. */
  datatype View = View(v64: Option<Value>, v128: Option<Value>, modified: Option<(nat, nat)>)

  function Lookup<V>(m: map<Register, V>, k: Register): Option<V> {
    if k in m then Some(m[k]) else None
  }

  function ViewOf(state: State, k: Register): View {
    View(Lookup(state.r64, k), Lookup(state.r128, k), Lookup(state.modified, k))
  }

  /** What each change holds for a register, of either width, and its index and offset if it holds any. */
  function Held64(changes: seq<Change>, k: Register): nat -> Option<Value> {
    (v: nat) => if v < |changes| then Lookup(changes[v].effect.r64, k) else None
  }

  function Held128(changes: seq<Change>, k: Register): nat -> Option<Value> {
    (v: nat) => if v < |changes| then Lookup(changes[v].effect.r128, k) else None
  }

  function HeldBy(changes: seq<Change>, k: Register): nat -> Option<(nat, nat)> {
    (v: nat) =>
      if v < |changes| && (k in changes[v].effect.r64 || k in changes[v].effect.r128) then Some((v, changes[v].offset))
      else None
  }

  /** `v` is the last of the first `n` changes that hold something. */
  predicate IsLast<V>(held: nat -> Option<V>, n: nat, v: nat) {
    v < n && held(v).Some? && forall w :: v < w < n ==> held(w).None?
  }

  /** `r` is what the last of the first `n` changes holds that hold something; nothing if there is none. */
  ghost predicate FromLast<V>(held: nat -> Option<V>, n: nat, r: Option<V>) {
    (r.None? <==> forall w :: 0 <= w < n ==> held(w).None?) && forall v: nat :: IsLast(held, n, v) ==> r == held(v)
  }

  /** After the first `n` changes register `k` has the values of the last changes that hold it, and
      `modified` names the last change that holds it in either width. */
  ghost predicate IsFromLast(changes: seq<Change>, n: nat, k: Register, view: View) {
    FromLast(Held64(changes, k), n, view.v64) && FromLast(Held128(changes, k), n, view.v128) &&
    FromLast(HeldBy(changes, k), n, view.modified)
  }

  /** What one change does to one register. */
  function Viewed(view: View, c: Change, index: nat, k: Register): View {
    View(if k in c.effect.r64 then Some(c.effect.r64[k]) else view.v64,
         if k in c.effect.r128 then Some(c.effect.r128[k]) else view.v128,
         if k in c.effect.r64 || k in c.effect.r128 then Some((index, c.offset)) else view.modified)
  }

  lemma MergedView(state: State, c: Change, index: nat, k: Register)
    ensures ViewOf(Merged(state, c.effect, index, c.offset), k) == Viewed(ViewOf(state, k), c, index, k)
  {}

  lemma OneMore<V>(held: nat -> Option<V>, n: nat, r: Option<V>)
    requires FromLast(held, n, r)
    ensures FromLast(held, n + 1, if held(n).Some? then held(n) else r)
  {
    forall v: nat | IsLast(held, n + 1, v) ensures held(v) == if held(n).Some? then held(n) else r {
      assert v != n ==> held(n).None? && IsLast(held, n, v);
    }
  }

  lemma ViewedIsFromLast(changes: seq<Change>, n: nat, k: Register, view: View)
    requires n < |changes| && IsFromLast(changes, n, k, view)
    ensures IsFromLast(changes, n + 1, k, Viewed(view, changes[n], n, k))
  {
    OneMore(Held64(changes, k), n, view.v64);
    OneMore(Held128(changes, k), n, view.v128);
    OneMore(HeldBy(changes, k), n, view.modified);
  }

  lemma MergeIsViewed(merge: Merger, state: State, c: Change, index: nat, k: Register)
    requires IsMerging(merge)
    ensures ViewOf(merge(state, c, index), k) == Viewed(ViewOf(state, k), c, index, k)
  {
    assert merge(state, c, index) == Merged(state, c.effect, index, c.offset);
    MergedView(state, c, index, k);
  }

  lemma MergeIsFromLast(merge: Merger, changes: seq<Change>, n: nat, k: Register, state: State)
    requires IsMerging(merge) && n < |changes| && IsFromLast(changes, n, k, ViewOf(state, k))
    ensures IsFromLast(changes, n + 1, k, ViewOf(merge(state, changes[n], n), k))
  {
    ViewedIsFromLast(changes, n, k, ViewOf(state, k));
    MergeIsViewed(merge, state, changes[n], n, k);
  }

  /** What holds of the empty state and is kept by every change holds of a replay. */
  lemma {:induction false} ReplayInduction(merge: Merger, changes: seq<Change>, n: nat, p: (nat, State) -> bool)
    requires n <= |changes| && p(0, EMPTY)
    requires forall m: nat, state :: m < |changes| && p(m, state) ==> p(m + 1, merge(state, changes[m], m))
    ensures p(n, Replay(merge, changes, n))
  {
    if n > 0 {
      ReplayInduction(merge, changes, n - 1, p);
      assert p(n - 1 + 1, merge(Replay(merge, changes, n - 1), changes[n - 1], n - 1));
    }
  }

  lemma ReplayIsFromLast(merge: Merger, changes: seq<Change>, n: nat, k: Register)
    requires IsMerging(merge) && n <= |changes|
    ensures IsFromLast(changes, n, k, ViewOf(Replay(merge, changes, n), k))
  {
    ghost var p := (m: nat, state: State) => IsFromLast(changes, m, k, ViewOf(state, k));
    EmptyIsFromLast(changes, k);
    forall m: nat, state | m < |changes| && p(m, state) ensures p(m + 1, merge(state, changes[m], m)) {
      MergeIsFromLast(merge, changes, m, k, state);
    }
    ReplayInduction(merge, changes, n, p);
  }

  lemma EmptyIsFromLast(changes: seq<Change>, k: Register)
    ensures IsFromLast(changes, 0, k, ViewOf(EMPTY, k))
  {
    assert ViewOf(EMPTY, k) == View(None, None, None);
  }

  ghost predicate AllFromLast(changes: seq<Change>, n: nat, state: State)
    requires n <= |changes|
  {
    forall k: Register :: IsFromLast(changes, n, k, ViewOf(state, k))
  }

  lemma ReplayAllFromLast(merge: Merger, changes: seq<Change>, n: nat)
    requires IsMerging(merge) && n <= |changes|
    ensures AllFromLast(changes, n, Replay(merge, changes, n))
  {
    forall k: Register ensures IsFromLast(changes, n, k, ViewOf(Replay(merge, changes, n), k)) {
      ReplayIsFromLast(merge, changes, n, k);
    }
  }

  /** `makeKeyChanges` on a freshly parsed trace and `getState` on what it leaves: the full replay of the
      parsed trace up to and including change `n`. Every register has the values of the last changes up
      to `n` that hold it. */
  method ReplayTo(changes: array<Change>, n: nat) returns (state: State)
    requires n < changes.Length
    requires forall i {:trigger changes[i]} :: 0 <= i < changes.Length ==> changes[i].complete.None?
    modifies changes
    ensures state == Replay(Merging(), old(changes[..]), n + 1)
    ensures AllFromLast(old(changes[..]), n + 1, state)
  {
    MergingIsMerging();
    ReplayAllFromLast(Merging(), changes[..], n + 1);
    state := KeyAndGet(changes, n, Merging());
  }
}
