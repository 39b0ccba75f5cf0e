/** The cache of values decoded from guest memory (ps3emu/rsx/Cache.h:32-110, ps3emu/utils.h:47-50,
    ps3emu/rsx/Rsx.cpp:1797-1810). */
module RsxCache {
  import opened Common
  import opened MainMemory

  /** `ValueInfo`: the value, and the updater that decodes it from its range of memory. */
  datatype Entry<V> = Entry(va: nat, size: nat, decode: seq<Byte> -> V, value: V)

  predicate InMemory<V>(e: Entry<V>, memory: seq<Byte>) {
    e.va + e.size <= |memory|
  }

  function Decoded<V>(e: Entry<V>, memory: seq<Byte>): V
    requires InMemory(e, memory)
  {
    e.decode(memory[e.va..e.va + e.size])
  }

  predicate Hit<V>(e: Entry<V>, va: nat, size: nat) {
    Intersects(e.va, e.size, va, size)
  }

  /** `ModificationMap::marked` on the range of an entry. */
  predicate AnyMarked(marks: seq<bool>, va: nat, size: nat) {
    exists i :: 0 <= i < |marks| && ModificationMap.FirstPage(va) <= i < ModificationMap.EndPage(va, size) && marks[i]
  }

  predicate MarkedEntry<V>(e: Entry<V>, marks: seq<bool>) {
    AnyMarked(marks, e.va, e.size)
  }

  // ---------------------------------------------------------------- the object

  class Cache<K(==), V> {
    var store: map<K, Entry<V>>
    var dirty: set<K>

    constructor ()
      ensures store == map[] && dirty == {}
    {
      store, dirty := map[], {};
    }

    /** A key that is there already keeps its value and its updater. */
    method Insert(key: K, e: Entry<V>)
      modifies this
      ensures store == (if key in old(store) then old(store) else old(store)[key := e]) && dirty == old(dirty) + {key}
    {
      if key !in store {
        store := store[key := e];
      }
      dirty := dirty + {key};
    }

    method Invalidate(va: nat, size: nat)
      modifies this`dirty
      ensures dirty == old(dirty) + (set k | k in store && Hit(store[k], va, size))
    {
      var rest := store.Keys;
      while rest != {}
        invariant rest <= store.Keys
        invariant dirty == old(dirty) + (set k | k in store && k !in rest && Hit(store[k], va, size))
        decreases |rest|
      {
        var k :| k in rest;
        if Hit(store[k], va, size) {
          dirty := dirty + {k};
        }
        rest := rest - {k};
      }
    }

    method Sync(key: K, memory: seq<Byte>) returns (synced: bool)
      requires dirty <= store.Keys && forall k :: k in store ==> InMemory(store[k], memory)
      modifies this
      ensures synced <==> key in old(dirty)
      ensures dirty == old(dirty) - {key}
      ensures store == if synced then old(store)[key := old(store[key]).(value := Decoded(old(store[key]), memory))]
                       else old(store)
    {
      synced := key in dirty;
      if synced {
        store := store[key := store[key].(value := Decoded(store[key], memory))];
        dirty := dirty - {key};
      }
    }

    method SyncAll(memory: seq<Byte>)
      requires dirty <= store.Keys && forall k :: k in store ==> InMemory(store[k], memory)
      modifies this
      ensures dirty == {} && store.Keys == old(store).Keys
      ensures forall k :: k in store ==>
        store[k] == if k in old(dirty) then old(store)[k].(value := Decoded(old(store)[k], memory)) else old(store)[k]
    {
      ghost var before := store;
      var rest := dirty;
      while rest != {}
        invariant rest <= dirty == old(dirty) && store.Keys == before.Keys
        invariant forall k :: k in store ==>
          store[k] == if k in dirty && k !in rest then before[k].(value := Decoded(before[k], memory)) else before[k]
        decreases |rest|
      {
        var k :| k in rest;
        store := store[k := store[k].(value := Decoded(store[k], memory))];
        rest := rest - {k};
      }
      dirty := {};
    }

    /** `watchTextureCache`. */
    method WatchMarked(pages: ModificationMap)
      requires forall k :: k in store ==> ModificationMap.EndPage(store[k].va, store[k].size) <= pages.pages.Length
      modifies this`dirty
      ensures dirty == old(dirty) + (set k | k in store && MarkedEntry(store[k], pages.pages[..]))
    {
      var rest := store.Keys;
      while rest != {}
        invariant rest <= store.Keys
        invariant dirty == old(dirty) + (set k | k in store && k !in rest && MarkedEntry(store[k], pages.pages[..]))
        decreases |rest|
      {
        var k :| k in rest;
        var marked := pages.Marked(store[k].va, store[k].size);
        assert marked <==> MarkedEntry(store[k], pages.pages[..]);
        if marked {
          dirty := dirty + {k};
        }
        rest := rest - {k};
      }
    }

    /** `resetCacheWatch`: no entry is marked afterwards, and nothing else about the pages changes. */
    method ResetWatch(pages: ModificationMap)
      requires forall k :: k in store ==> ModificationMap.EndPage(store[k].va, store[k].size) <= pages.pages.Length
      modifies pages.pages
      ensures IsReset(store, old(pages.pages[..]), pages.pages[..])
    {
      var rest := store.Keys;
      while rest != {}
        invariant rest <= store.Keys
        invariant ResetBut(store, old(pages.pages[..]), pages.pages[..], rest)
        decreases |rest|
      {
        var k :| k in rest;
        pages.Reset(store[k].va, store[k].size);
        rest := rest - {k};
      }
    }

    /** What is retrieved is the decoding of memory if the entry is dirty or up to date; a coherent
        cache stays coherent. */
    method Retrieve(key: K, memory: seq<Byte>) returns (value: Option<V>)
      requires dirty <= store.Keys && AllInMemory(store, memory)
      modifies this
      ensures value.None? <==> key !in old(store)
      ensures key in old(store) && (key in old(dirty) || UpToDate(old(store)[key], memory)) ==>
        value == Some(Decoded(old(store)[key], memory))
      ensures Coherent(old(store), old(dirty), memory) ==> Coherent(store, dirty, memory)
    {
      if key !in store {
        return None;
      }
      var synced := Sync(key, memory);
      return Some(store[key].value);
    }
  }

  predicate OnPage<V>(e: Entry<V>, i: nat) {
    ModificationMap.FirstPage(e.va) <= i < ModificationMap.EndPage(e.va, e.size)
  }

  /** The pages of all entries but those of `rest` are cleared. */
  ghost predicate ResetBut<K, V>(store: map<K, Entry<V>>, marks: seq<bool>, marks': seq<bool>, rest: set<K>) {
    |marks'| == |marks| && forall i :: 0 <= i < |marks| ==>
      (marks'[i] <==> marks[i] && forall k :: k in store && k !in rest ==> !OnPage(store[k], i))
  }

  ghost predicate IsReset<K, V>(store: map<K, Entry<V>>, marks: seq<bool>, marks': seq<bool>) {
    ResetBut(store, marks, marks', {})
  }

  // ---------------------------------------------------------------- coherence

  ghost predicate UpToDate<V>(e: Entry<V>, memory: seq<Byte>) {
    InMemory(e, memory) && e.value == Decoded(e, memory)
  }

  ghost predicate AllInMemory<K, V>(store: map<K, Entry<V>>, memory: seq<Byte>) {
    forall k :: k in store ==> InMemory(store[k], memory)
  }

  /** Dirty keys are stored keys, and everything that is not dirty is what memory says. */
  ghost predicate Coherent<K, V>(store: map<K, Entry<V>>, dirty: set<K>, memory: seq<Byte>) {
    dirty <= store.Keys && AllInMemory(store, memory) &&
    forall k :: k in store && k !in dirty ==> UpToDate(store[k], memory)
  }

  /** The same, but for entries on marked pages. */
  ghost predicate CoherentUpTo<K, V>(store: map<K, Entry<V>>, dirty: set<K>, memory: seq<Byte>, marks: seq<bool>) {
    dirty <= store.Keys && AllInMemory(store, memory) &&
    forall k :: k in store && k !in dirty ==> UpToDate(store[k], memory) || MarkedEntry(store[k], marks)
  }

  /** The memories differ in the range at most. */
  predicate SameOutside(memory: seq<Byte>, memory': seq<Byte>, va: nat, len: nat) {
    |memory| == |memory'| && forall i :: 0 <= i < |memory| && !(va <= i < va + len) ==> memory[i] == memory'[i]
  }

  lemma UntouchedEntry<V>(e: Entry<V>, memory: seq<Byte>, memory': seq<Byte>, va: nat, len: nat)
    requires UpToDate(e, memory) && SameOutside(memory, memory', va, len) && !Intersects(e.va, e.size, va, len)
    ensures UpToDate(e, memory')
  {
    assert memory[e.va..e.va + e.size] == memory'[e.va..e.va + e.size];
  }

  /** A write followed by an invalidation of a range that covers it. */
  lemma WriteThenInvalidate<K, V>(store: map<K, Entry<V>>, dirty: set<K>, memory: seq<Byte>, memory': seq<Byte>,
                                  va: nat, len: nat, from: nat, size: nat)
    requires Coherent(store, dirty, memory) && SameOutside(memory, memory', va, len)
    requires from <= va && va + len <= from + size
    ensures Coherent(store, dirty + (set k | k in store && Hit(store[k], from, size)), memory')
  {
    forall k | k in store && k !in dirty && !Hit(store[k], from, size) ensures UpToDate(store[k], memory') {
      UntouchedEntry(store[k], memory, memory', va, len);
    }
  }

  /** A range of memory that has been written. */
  datatype Range = Range(va: nat, len: nat)

  predicate AllMarked(marks: seq<bool>, r: Range) {
    ModificationMap.EndPage(r.va, r.len) <= |marks| &&
    forall i :: ModificationMap.FirstPage(r.va) <= i < ModificationMap.EndPage(r.va, r.len) ==> marks[i]
  }

  lemma TouchedIsMarked(va: nat, size: nat, r: Range, marks: seq<bool>)
    requires Intersects(va, size, r.va, r.len) && AllMarked(marks, r)
    ensures AnyMarked(marks, va, size)
  {
    var i := if va > r.va then ModificationMap.FirstPage(va) else ModificationMap.FirstPage(r.va);
    SamePage(va, size, r.va, r.len);
    assert marks[i];
  }

  lemma SamePage(va: nat, size: nat, at: nat, len: nat)
    requires Intersects(va, size, at, len)
    ensures var i := if va > at then ModificationMap.FirstPage(va) else ModificationMap.FirstPage(at);
      ModificationMap.FirstPage(va) <= i < ModificationMap.EndPage(va, size) &&
      ModificationMap.FirstPage(at) <= i < ModificationMap.EndPage(at, len)
  {}

  /** A write to pages that are marked. */
  lemma WriteKeepsCoherence<K, V>(store: map<K, Entry<V>>, dirty: set<K>, memory: seq<Byte>, memory': seq<Byte>,
                                  marks: seq<bool>, r: Range)
    requires CoherentUpTo(store, dirty, memory, marks) && SameOutside(memory, memory', r.va, r.len)
    requires AllMarked(marks, r)
    ensures CoherentUpTo(store, dirty, memory', marks)
  {
    forall k | k in store && k !in dirty ensures UpToDate(store[k], memory') || MarkedEntry(store[k], marks) {
      var e := store[k];
      if Intersects(e.va, e.size, r.va, r.len) {
        TouchedIsMarked(e.va, e.size, r, marks);
      } else if UpToDate(e, memory) {
        UntouchedEntry(e, memory, memory', r.va, r.len);
      }
    }
  }

  /** Watching before anything is reset restores coherence. */
  lemma WatchRestores<K, V>(store: map<K, Entry<V>>, dirty: set<K>, memory: seq<Byte>, marks: seq<bool>)
    requires CoherentUpTo(store, dirty, memory, marks)
    ensures Coherent(store, dirty + (set k | k in store && MarkedEntry(store[k], marks)), memory)
  {}

  // ---------------------------------------------------------------- when the pages may be reset

  /** What a caller of `resetCacheWatch` could check: no entry that is not dirty has a marked page. */
  ghost predicate NoCleanMarked<K, V>(store: map<K, Entry<V>>, dirty: set<K>, marks: seq<bool>) {
    forall k :: k in store && k !in dirty ==> !MarkedEntry(store[k], marks)
  }

  /** The same keys and ranges; values and updaters may differ. */
  ghost predicate SameRanges<K, V>(store: map<K, Entry<V>>, store': map<K, Entry<V>>) {
    store'.Keys == store.Keys &&
    forall k :: k in store ==> store'[k].va == store[k].va && store'[k].size == store[k].size
  }

  /** Whatever memory, values and updaters are, as long as the marks are right before, they still are. */
  ghost predicate ResetIsRight<K(!new), V(!new)>(store: map<K, Entry<V>>, dirty: set<K>, marks: seq<bool>,
                                 marks': seq<bool>) {
    forall store': map<K, Entry<V>>, memory: seq<Byte> ::
      SameRanges(store, store') && CoherentUpTo(store', dirty, memory, marks) ==>
        CoherentUpTo(store', dirty, memory, marks')
  }

  lemma ResetUnmarks<K, V>(store: map<K, Entry<V>>, store': map<K, Entry<V>>, marks: seq<bool>, marks': seq<bool>, k: K)
    requires IsReset(store, marks, marks') && SameRanges(store, store') && k in store
    ensures !MarkedEntry(store'[k], marks')
  {
    forall i | 0 <= i < |marks'| && OnPage(store'[k], i) ensures !marks'[i] {
      assert OnPage(store[k], i);
    }
  }

  /** Resetting the pages of all entries is right exactly if no clean entry is marked, which is what a
      watch establishes if nothing is written until the reset. */
  lemma ResetIsRightIff<K(!new), V(!new)>(store: map<K, Entry<V>>, dirty: set<K>, marks: seq<bool>, marks': seq<bool>,
                                          size: nat, v0: V, v1: V)
    requires dirty <= store.Keys && IsReset(store, marks, marks') && v0 != v1
    requires forall k :: k in store ==> store[k].va + store[k].size <= size
    ensures ResetIsRight(store, dirty, marks, marks') <==> NoCleanMarked(store, dirty, marks)
  {
    if NoCleanMarked(store, dirty, marks) {
      forall store': map<K, Entry<V>>, memory: seq<Byte> |
        SameRanges(store, store') && CoherentUpTo(store', dirty, memory, marks)
        ensures CoherentUpTo(store', dirty, memory, marks')
      {
        assert forall k :: k in store ==> MarkedEntry(store'[k], marks) == MarkedEntry(store[k], marks);
      }
    } else {
      var k0 :| k0 in store && k0 !in dirty && MarkedEntry(store[k0], marks);
      var store', memory := StaleAt(store, dirty, marks, k0, size, v0, v1);
      ResetUnmarks(store, store', marks, marks', k0);
      assert !CoherentUpTo(store', dirty, memory, marks');
    }
  }

  /** Values and updaters with which just the entry of `k0` is stale. */
  lemma StaleAt<K, V>(store: map<K, Entry<V>>, dirty: set<K>, marks: seq<bool>, k0: K, size: nat, v0: V, v1: V)
    returns (store': map<K, Entry<V>>, memory: seq<Byte>)
    requires dirty <= store.Keys && k0 in store && k0 !in dirty && MarkedEntry(store[k0], marks) && v0 != v1
    requires forall k :: k in store ==> store[k].va + store[k].size <= size
    ensures SameRanges(store, store') && CoherentUpTo(store', dirty, memory, marks) && !UpToDate(store'[k0], memory)
  {
    store' := map k | k in store :: Entry(store[k].va, store[k].size, _ => v0, if k == k0 then v1 else v0);
    memory := seq(size, _ => 0);
    forall k | k in store ensures k == k0 || UpToDate(store'[k], memory) {
      assert store'[k].decode(memory[store[k].va..store[k].va + store[k].size]) == v0;
    }
    assert !UpToDate(store'[k0], memory) by {
      assert store'[k0].decode(memory[store[k0].va..store[k0].va + store[k0].size]) == v0;
    }
    assert MarkedEntry(store'[k0], marks) == MarkedEntry(store[k0], marks);
  }

  // ---------------------------------------------------------------- over all runs

  /** The cache, the memory and the pages; `pending` are the ranges written that no watch or
      invalidation has seen yet. */
  datatype State<K, V> = State(
    store: map<K, Entry<V>>, dirty: set<K>, memory: seq<Byte>, marks: seq<bool>, pending: set<Range>)

  /** Marking and copying are steps of their own: `writeMemory` marks its pages first, `store`
      afterwards, and the graphics thread may watch or reset in between. */
  datatype Op<K, V> =
    | Insert(key: K, e: Entry<V>)
    | Mark(va: nat, len: nat)
    | Copy(va: nat, data: seq<Byte>)
    | Invalidate(from: nat, size: nat)
    | Watch
    | Reset
    | Sync(key: K)
    | SyncAll

  predicate Enabled<K, V>(s: State<K, V>, op: Op<K, V>) {
    match op
    case Insert(_, e) => InMemory(e, s.memory)
    case Copy(va, data) => va + |data| <= |s.memory|
    case _ => true
  }

  function Marking(marks: seq<bool>, va: nat, len: nat): (r: seq<bool>)
    ensures |r| == |marks|
    ensures forall i :: 0 <= i < |marks| ==>
      r[i] == (ModificationMap.FirstPage(va) <= i < ModificationMap.EndPage(va, len) || marks[i])
  {
    seq(|marks|, i requires 0 <= i < |marks| =>
      ModificationMap.FirstPage(va) <= i < ModificationMap.EndPage(va, len) || marks[i])
  }

  ghost function Cleared<K, V>(store: map<K, Entry<V>>, marks: seq<bool>): (r: seq<bool>)
    ensures IsReset(store, marks, r)
  {
    seq(|marks|, i requires 0 <= i < |marks| => marks[i] && forall k :: k in store ==> !OnPage(store[k], i))
  }

  ghost function Synced<K, V>(s: State<K, V>, keys: set<K>): State<K, V>
    requires AllInMemory(s.store, s.memory)
  {
    s.(store := map k | k in s.store ::
         if k in keys && k in s.dirty then s.store[k].(value := Decoded(s.store[k], s.memory)) else s.store[k],
       dirty := s.dirty - keys)
  }

  ghost function Step<K, V>(s: State<K, V>, op: Op<K, V>): State<K, V>
    requires Enabled(s, op) && AllInMemory(s.store, s.memory)
  {
    match op
    case Insert(key, e) => s.(store := if key in s.store then s.store else s.store[key := e], dirty := s.dirty + {key})
    case Mark(va, len) => s.(marks := Marking(s.marks, va, len))
    case Copy(va, data) => s.(memory := Splice(s.memory, va, data), pending := s.pending + {Range(va, |data|)})
    case Invalidate(from, size) =>
      s.(dirty := s.dirty + (set k | k in s.store && Hit(s.store[k], from, size)),
         pending := set r | r in s.pending && !Covers(from, size, r))
    case Watch =>
      s.(dirty := s.dirty + (set k | k in s.store && MarkedEntry(s.store[k], s.marks)),
         pending := set r | r in s.pending && !AllMarked(s.marks, r))
    case Reset => s.(marks := Cleared(s.store, s.marks))
    case Sync(key) => Synced(s, {key})
    case SyncAll => Synced(s, s.dirty)
  }

  predicate Covers(from: nat, size: nat, r: Range) {
    from <= r.va && r.va + r.len <= from + size
  }

  /** Something was written to the entry's range that the cache has not been told of. */
  ghost predicate IsPending<V>(e: Entry<V>, pending: set<Range>) {
    exists r :: r in pending && Hit(e, r.va, r.len)
  }

  /** Dirty keys are stored keys, and every clean entry without a pending write is up to date. */
  ghost predicate Inv<K, V>(s: State<K, V>) {
    s.dirty <= s.store.Keys && AllInMemory(s.store, s.memory) &&
    forall k :: k in s.store && k !in s.dirty ==> UpToDate(s.store[k], s.memory) || IsPending(s.store[k], s.pending)
  }

  lemma StepKeepsInv<K, V>(s: State<K, V>, op: Op<K, V>)
    requires Inv(s) && Enabled(s, op)
    ensures Inv(Step(s, op))
  {
    match op
    case Insert(key, e) =>
    case Mark(_, _) =>
    case Copy(va, data) => CopyKeepsInv(s, va, data);
    case Invalidate(from, size) => InvalidateKeepsInv(s, from, size);
    case Watch => WatchKeepsInv(s);
    case Reset =>
    case Sync(key) => SyncedKeepsInv(s, {key});
    case SyncAll => SyncedKeepsInv(s, s.dirty);
  }

  lemma CopyKeepsInv<K, V>(s: State<K, V>, va: nat, data: seq<Byte>)
    requires Inv(s) && va + |data| <= |s.memory|
    ensures Inv(Step(s, Copy(va, data)))
  {
    var s' := Step(s, Copy(va, data));
    forall k | k in s.store && k !in s.dirty
      ensures UpToDate(s.store[k], s'.memory) || IsPending(s.store[k], s'.pending)
    {
      var e := s.store[k];
      if Hit(e, va, |data|) {
        assert Range(va, |data|) in s'.pending;
      } else if UpToDate(e, s.memory) {
        UntouchedEntry(e, s.memory, s'.memory, va, |data|);
      } else {
        var r :| r in s.pending && Hit(e, r.va, r.len);
        assert r in s'.pending;
      }
    }
  }

  lemma InvalidateKeepsInv<K, V>(s: State<K, V>, from: nat, size: nat)
    requires Inv(s)
    ensures Inv(Step(s, Invalidate(from, size)))
  {
    var s' := Step(s, Invalidate(from, size));
    forall k | k in s.store && k !in s'.dirty
      ensures UpToDate(s.store[k], s.memory) || IsPending(s.store[k], s'.pending)
    {
      if !UpToDate(s.store[k], s.memory) {
        var r :| r in s.pending && Hit(s.store[k], r.va, r.len);
        assert r in s'.pending;
      }
    }
  }

  lemma WatchKeepsInv<K, V>(s: State<K, V>)
    requires Inv(s)
    ensures Inv(Step(s, Op<K, V>.Watch))
  {
    var s' := Step(s, Op<K, V>.Watch);
    forall k | k in s.store && k !in s'.dirty
      ensures UpToDate(s.store[k], s.memory) || IsPending(s.store[k], s'.pending)
    {
      if !UpToDate(s.store[k], s.memory) {
        var r :| r in s.pending && Hit(s.store[k], r.va, r.len);
        if AllMarked(s.marks, r) {
          TouchedIsMarked(s.store[k].va, s.store[k].size, r, s.marks);
        }
        assert r in s'.pending;
      }
    }
  }

  lemma SyncedKeepsInv<K, V>(s: State<K, V>, keys: set<K>)
    requires Inv(s)
    ensures Inv(Synced(s, keys))
  {
    var s' := Synced(s, keys);
    forall k | k in s'.store && k !in s'.dirty && k in s.dirty ensures UpToDate(s'.store[k], s.memory) {
    }
  }

  ghost predicate Follows<K, V>(s: State<K, V>, op: Op<K, V>, s': State<K, V>) {
    AllInMemory(s.store, s.memory) && Enabled(s, op) && s' == Step(s, op)
  }

  ghost predicate IsRun<K, V>(states: seq<State<K, V>>, ops: seq<Op<K, V>>) {
    |states| == |ops| + 1 && forall i :: 0 <= i < |ops| ==> Follows(states[i], ops[i], states[i + 1])
  }

  /** In every state of every run from an empty cache: what is dirty is stored, and a retrieved value
      is the decoding of the memory of that moment unless a pending write meets its entry. */
  lemma {:induction false} RunsAreCoherent<K, V>(states: seq<State<K, V>>, ops: seq<Op<K, V>>, i: nat, key: K)
    requires IsRun(states, ops) && i < |states| && states[0].store == map[] && states[0].dirty == {}
    ensures Inv(states[i]) && states[i].dirty <= states[i].store.Keys
    ensures key in states[i].store && !IsPending(states[i].store[key], states[i].pending) ==>
      Synced(states[i], {key}).store[key].value == Decoded(states[i].store[key], states[i].memory)
    decreases i
  {
    if i > 0 {
      RunsAreCoherent(states, ops, i - 1, key);
      assert Follows(states[i - 1], ops[i - 1], states[i]);
      StepKeepsInv(states[i - 1], ops[i - 1]);
    }
  }

  /** Once a range is marked, a watch sees the writes to it, if no reset comes in between: marking
      first or copying first makes no difference. */
  lemma MarkedWriteIsSeen<K, V>(states: seq<State<K, V>>, ops: seq<Op<K, V>>, m: nat, w: nat, r: Range)
    requires IsRun(states, ops) && m <= w < |ops| && AllMarked(states[m].marks, r) && ops[w].Watch?
    requires forall i :: m <= i < w ==> !ops[i].Reset?
    ensures r !in states[w + 1].pending
  {
    MarksStay(states, ops, m, w, r);
    assert Follows(states[w], ops[w], states[w + 1]);
  }

  lemma {:induction false} MarksStay<K, V>(states: seq<State<K, V>>, ops: seq<Op<K, V>>, m: nat, w: nat, r: Range)
    requires IsRun(states, ops) && m <= w < |states| && AllMarked(states[m].marks, r)
    requires forall i :: m <= i < w ==> !ops[i].Reset?
    ensures AllMarked(states[w].marks, r)
    decreases w
  {
    if m < w {
      MarksStay(states, ops, m, w - 1, r);
      assert Follows(states[w - 1], ops[w - 1], states[w]);
    }
  }

  /** The cache is told of a write to `r`: by an invalidation that covers it, or by a watch while all its
      pages are marked. */
  predicate Sees<K, V>(s: State<K, V>, op: Op<K, V>, r: Range) {
    (op.Invalidate? && op.from <= r.va && r.va + r.len <= op.from + op.size) || (op.Watch? && AllMarked(s.marks, r))
  }

  predicate WritesRange<K, V>(op: Op<K, V>, r: Range) {
    op.Copy? && op.va == r.va && |op.data| == r.len
  }

  /** Operation `w` wrote `r`, and none since then was told. */
  ghost predicate IsUnseen<K, V>(states: seq<State<K, V>>, ops: seq<Op<K, V>>, i: nat, r: Range, w: nat) {
    w < i <= |ops| && |states| == |ops| + 1 && WritesRange(ops[w], r) &&
    forall x :: w < x < i ==> !Sees(states[x], ops[x], r)
  }

  lemma PendingAfter<K, V>(s: State<K, V>, op: Op<K, V>, s': State<K, V>, r: Range)
    requires Follows(s, op, s')
    ensures r in s'.pending <==> (r in s.pending && !Sees(s, op, r)) || WritesRange(op, r)
  {}

  lemma UnseenAfter<K, V>(states: seq<State<K, V>>, ops: seq<Op<K, V>>, i: nat, r: Range, w: nat)
    requires i < |ops| && |states| == |ops| + 1
    ensures IsUnseen(states, ops, i + 1, r, w) <==>
      (IsUnseen(states, ops, i, r, w) && !Sees(states[i], ops[i], r)) || (w == i && WritesRange(ops[i], r))
  {}

  /** In every state of every run the pending ranges are exactly those written and not told of since. */
  lemma {:induction false} PendingIsExact<K, V>(states: seq<State<K, V>>, ops: seq<Op<K, V>>, i: nat, r: Range)
    requires IsRun(states, ops) && i < |states| && states[0].pending == {}
    ensures r in states[i].pending <==> exists w: nat :: IsUnseen(states, ops, i, r, w)
    decreases i
  {
    if i > 0 {
      var k := i - 1;
      PendingIsExact(states, ops, k, r);
      assert Follows(states[k], ops[k], states[k + 1]);
      PendingAfter(states[k], ops[k], states[k + 1], r);
      forall w: nat
        ensures IsUnseen(states, ops, i, r, w) <==>
          (IsUnseen(states, ops, k, r, w) && !Sees(states[k], ops[k], r)) || (w == k && WritesRange(ops[k], r))
      {
        UnseenAfter(states, ops, k, r, w);
      }
      assert WritesRange(ops[k], r) ==> IsUnseen(states, ops, i, r, k);
    }
  }

  // ---------------------------------------------------------------- a lost write

  function FirstByte(bytes: seq<Byte>): Byte {
    if bytes == [] then 0 else bytes[0]
  }

  function Texture(value: Byte): Entry<Byte> {
    Entry(0, 1, FirstByte, value)
  }

  /** A run with a write between the watch and the reset. */
  function LossyOps(): seq<Op<nat, Byte>> {
    [Insert(0, Texture(7)), Op.Sync(0), Watch, Mark(0, 1), Copy(0, [1]), Reset, Watch]
  }

  function LossyState(i: nat): State<nat, Byte> {
    State(if i == 0 then map[] else if i == 1 then map[0 := Texture(7)] else map[0 := Texture(0)],
          if i == 1 then {0} else {}, if i < 5 then [0] else [1], if 4 <= i < 6 then [true] else [false],
          if i < 5 then {} else {Range(0, 1)})
  }

  lemma LossyStep(i: nat)
    requires i < 7
    ensures Follows(LossyState(i), LossyOps()[i], LossyState(i + 1))
  {
    var s, op := LossyState(i), LossyOps()[i];
    if i == 1 {
      assert Step(s, op).store == map[0 := Texture(0)] && Step(s, op).dirty == {};
    } else if i == 5 {
      assert 0 in s.store && OnPage(s.store[0], 0);
      assert IsReset(s.store, s.marks, Step(s, op).marks);
      assert !Step(s, op).marks[0];
      assert Step(s, op).marks == [false];
    } else if i == 6 {
      assert !s.marks[0] && !AllMarked(s.marks, Range(0, 1)) by {
        assert ModificationMap.FirstPage(0) <= 0 < ModificationMap.EndPage(0, 1);
      }
      assert Step(s, op).dirty == {} && Step(s, op).pending == {Range(0, 1)};
    } else if i == 2 {
      assert Step(s, op).dirty == {} && Step(s, op).pending == {};
    }
  }

  /** The write is lost: the last watch does not see it, and the entry is retrieved with the value from
      before the write. */
  lemma WriteBeforeResetIsLost(states: seq<State<nat, Byte>>)
    requires |states| == 8 && forall i :: 0 <= i < 8 ==> states[i] == LossyState(i)
    ensures IsRun(states, LossyOps()) && states[0] == State(map[], {}, [0], [false], {})
    ensures var last := states[7];
      0 in last.store && 0 !in last.dirty && !MarkedEntry(last.store[0], last.marks) && Inv(last) &&
      Synced(last, {0}).store[0].value == 0 && Decoded(last.store[0], last.memory) == 1
  {
    forall i | 0 <= i < 7 ensures Follows(states[i], LossyOps()[i], states[i + 1]) {
      LossyStep(i);
    }
    RunsAreCoherent(states, LossyOps(), 7, 0);
  }
}
