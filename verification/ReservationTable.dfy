/** The reservations of the whole memory as one value, and what revoking a line (`clear` and
    `clearExcept`, ps3emu/ReservationMap.h:41-67) or a range of lines does to it. */
module ReservationTable {
  import opened Common
  import opened Slots
  import opened ReservationMap

  /** The state of a granule. */
  datatype Saved = Saved(line: ReservationLine?, notify: Option<Callback>, fired: seq<Callback>)

  type AllSlots = seq<SlotVector<ReservationGranule>>

  type Granules = map<ReservationGranule, Saved>

  /** The slots of every line and the state of every granule. */
  datatype Reservations = Reservations(slots: AllSlots, granules: Granules)

  function LostNow(was: Saved): Saved {
    Saved(null, None, was.fired + Callbacks(was.notify))
  }

  /** `gs` lose their lines and have their callbacks run. */
  function LoseAll(granules: Granules, gs: set<ReservationGranule>): Granules {
    map g | g in granules :: if g in gs then LostNow(granules[g]) else granules[g]
  }

  /** One line revoked for all but `me`. */
  function Revoke(r: Reservations, i: nat, me: ReservationGranule): (r': Reservations)
    requires i < |r.slots|
    ensures |r'.slots| == |r.slots|
  {
    Reservations(r.slots[i := ClearExcept(r.slots[i], me)], LoseAll(r.granules, Members(r.slots[i]) - {me}))
  }

  /** One line revoked for everybody. */
  function Empty(r: Reservations, i: nat): Reservations
    requires i < |r.slots|
  {
    Reservations(r.slots[i := []], LoseAll(r.granules, Members(r.slots[i])))
  }

  /** The lines from `first` up to, and not including, `done` revoked one after the other. */
  function RevokeRange(r: Reservations, first: nat, done: nat, me: ReservationGranule): (r': Reservations)
    requires done <= |r.slots|
    ensures |r'.slots| == |r.slots|
    decreases done
  {
    if done <= first then r else Revoke(RevokeRange(r, first, done - 1, me), done - 1, me)
  }

  /** One granule leaves its line. */
  function Drop(r: Reservations, i: nat, me: ReservationGranule): Reservations
    requires i < |r.slots|
  {
    Reservations(r.slots[i := ClearOne(r.slots[i], me)], LoseAll(r.granules, {me}))
  }

  /** One granule takes a line and is as `taken` says. */
  function Take(r: Reservations, i: nat, me: ReservationGranule, taken: Saved): Reservations
    requires i < |r.slots|
  {
    Reservations(r.slots[i := Insert(r.slots[i], me)], r.granules[me := taken])
  }

  // ---------------------------------------------------------------- sound tables

  ghost predicate SoundLine(line: ReservationLine, slots: SlotVector<ReservationGranule>, granules: Granules) {
    Distinct(slots) && forall g :: g in Members(slots) ==> g in granules && granules[g].line == line
  }

  /** The first `n` lines hold known granules that point back to them, each in one slot. */
  ghost predicate SoundUpTo(lines: seq<ReservationLine>, slots: AllSlots, granules: Granules, n: nat)
    requires n <= |lines| == |slots|
  {
    n == 0 || (SoundLine(lines[n - 1], slots[n - 1], granules) && SoundUpTo(lines, slots, granules, n - 1))
  }

  /** The first `n` lines are different objects. */
  ghost predicate SeparateUpTo(lines: seq<ReservationLine>, n: nat)
    requires n <= |lines|
  {
    n == 0 || (lines[n - 1] !in lines[..n - 1] && SeparateUpTo(lines, n - 1))
  }

  ghost predicate Sound(lines: seq<ReservationLine>, r: Reservations) {
    |lines| == |r.slots| && SeparateUpTo(lines, |lines|) && SoundUpTo(lines, r.slots, r.granules, |lines|)
  }

  lemma {:induction false} SoundAt(lines: seq<ReservationLine>, slots: AllSlots, granules: Granules, n: nat, i: nat)
    requires i < n <= |lines| == |slots| && SoundUpTo(lines, slots, granules, n)
    ensures SoundLine(lines[i], slots[i], granules)
  {
    if i < n - 1 {
      SoundAt(lines, slots, granules, n - 1, i);
    }
  }

  lemma {:induction false} SeparateAt(lines: seq<ReservationLine>, n: nat, i: nat, j: nat)
    requires i < j < n <= |lines| && SeparateUpTo(lines, n)
    ensures lines[i] != lines[j]
  {
    if j < n - 1 {
      SeparateAt(lines, n - 1, i, j);
    } else {
      assert lines[i] in lines[..j];
    }
  }

  /** A granule on one line is on no other. */
  lemma OnOneLine(lines: seq<ReservationLine>, r: Reservations, i: nat, j: nat, g: ReservationGranule)
    requires Sound(lines, r) && i < |lines| && j < |lines| && i != j && g in Members(r.slots[i])
    ensures g !in Members(r.slots[j]) && lines[i] != lines[j]
  {
    SoundAt(lines, r.slots, r.granules, |lines|, i);
    SoundAt(lines, r.slots, r.granules, |lines|, j);
    SeparateAt(lines, |lines|, if i < j then i else j, if i < j then j else i);
  }

  lemma {:induction false} FreshIsSound(lines: seq<ReservationLine>, slots: AllSlots, granules: Granules, n: nat)
    requires n <= |lines| == |slots| && forall i :: 0 <= i < n ==> slots[i] == []
    requires forall i, j :: 0 <= i < j < |lines| ==> lines[i] != lines[j]
    ensures SoundUpTo(lines, slots, granules, n) && SeparateUpTo(lines, n)
  {
    if n > 0 {
      FreshIsSound(lines, slots, granules, n - 1);
    }
  }

  /** The granules on line `j` are as they were. */
  ghost predicate Spared(r: Reservations, r': Reservations, j: nat)
    requires j < |r.slots|
  {
    forall g :: g in Members(r.slots[j]) ==> g in r'.granules && g in r.granules && r'.granules[g] == r.granules[g]
  }

  /** Only line `i` is replaced, and the granules on the other lines are left alone. */
  lemma {:induction false} ReplaceLine(lines: seq<ReservationLine>, r: Reservations, r': Reservations, i: nat, n: nat)
    requires i < |lines| == |r.slots| == |r'.slots| && n <= |lines| && SoundUpTo(lines, r.slots, r.granules, n)
    requires forall j :: 0 <= j < |lines| && j != i ==> r'.slots[j] == r.slots[j] && Spared(r, r', j)
    requires SoundLine(lines[i], r'.slots[i], r'.granules)
    ensures SoundUpTo(lines, r'.slots, r'.granules, n)
  {
    if n > 0 {
      ReplaceLine(lines, r, r', i, n - 1);
      assert n - 1 != i ==> Spared(r, r', n - 1);
    }
  }

  lemma LosingIsSound(lines: seq<ReservationLine>, r: Reservations, slots: SlotVector<ReservationGranule>, i: nat,
                      gs: set<ReservationGranule>)
    requires Sound(lines, r) && i < |lines| && gs <= Members(r.slots[i])
    requires Distinct(slots) && Members(slots) == Members(r.slots[i]) - gs
    ensures Sound(lines, Reservations(r.slots[i := slots], LoseAll(r.granules, gs)))
  {
    var r' := Reservations(r.slots[i := slots], LoseAll(r.granules, gs));
    SoundAt(lines, r.slots, r.granules, |lines|, i);
    forall j | 0 <= j < |lines| && j != i ensures r'.slots[j] == r.slots[j] && Spared(r, r', j) {
      SoundAt(lines, r.slots, r.granules, |lines|, j);
      forall g | g in Members(r.slots[j]) ensures g in r'.granules && r'.granules[g] == r.granules[g] {
        OnOneLine(lines, r, j, i, g);
      }
    }
    ReplaceLine(lines, r, r', i, |lines|);
  }

  lemma RevokeIsSound(lines: seq<ReservationLine>, r: Reservations, i: nat, me: ReservationGranule)
    requires Sound(lines, r) && i < |lines|
    ensures Sound(lines, Revoke(r, i, me))
  {
    SoundAt(lines, r.slots, r.granules, |lines|, i);
    ClearExceptKeepsOne(r.slots[i], me);
    LosingIsSound(lines, r, ClearExcept(r.slots[i], me), i, Members(r.slots[i]) - {me});
  }

  lemma EmptyIsSound(lines: seq<ReservationLine>, r: Reservations, i: nat)
    requires Sound(lines, r) && i < |lines|
    ensures Sound(lines, Empty(r, i))
  {
    LosingIsSound(lines, r, [], i, Members(r.slots[i]));
  }

  lemma DropIsSound(lines: seq<ReservationLine>, r: Reservations, i: nat, me: ReservationGranule)
    requires Sound(lines, r) && i < |lines| && me in Members(r.slots[i])
    ensures Sound(lines, Drop(r, i, me)) && Members(Drop(r, i, me).slots[i]) == Members(r.slots[i]) - {me}
    ensures forall j :: 0 <= j < |lines| && j != i ==> me !in Members(r.slots[j])
  {
    SoundAt(lines, r.slots, r.granules, |lines|, i);
    ClearOneDropsOne(r.slots[i], me);
    LosingIsSound(lines, r, ClearOne(r.slots[i], me), i, {me});
    forall j | 0 <= j < |lines| && j != i ensures me !in Members(r.slots[j]) {
      OnOneLine(lines, r, i, j, me);
    }
  }

  lemma TakeIsSound(lines: seq<ReservationLine>, r: Reservations, i: nat, me: ReservationGranule, taken: Saved)
    requires Sound(lines, r) && i < |lines| && taken.line == lines[i]
    requires me in r.granules ==> r.granules[me].line == null
    ensures Sound(lines, Take(r, i, me, taken)) && Members(Take(r, i, me, taken).slots[i]) == Members(r.slots[i]) + {me}
  {
    var r' := Take(r, i, me, taken);
    SoundAt(lines, r.slots, r.granules, |lines|, i);
    InsertAddsOne(r.slots[i], me);
    forall j | 0 <= j < |lines| && j != i ensures r'.slots[j] == r.slots[j] && Spared(r, r', j) {
      SoundAt(lines, r.slots, r.granules, |lines|, j);
    }
    ReplaceLine(lines, r, r', i, |lines|);
  }

  // ---------------------------------------------------------------- what a range of lines comes to

  /** `g` is on one of the lines. */
  ghost predicate OnLines(slots: AllSlots, first: nat, done: nat, g: ReservationGranule) {
    exists i :: first <= i < done && i < |slots| && g in Members(slots[i])
  }

  ghost predicate GranuleRevoked(r: Reservations, r': Reservations, first: nat, done: nat,
                                 me: ReservationGranule, g: ReservationGranule)
    requires g in r.granules && g in r'.granules
  {
    r'.granules[g] == if g != me && OnLines(r.slots, first, done, g)
                      then LostNow(r.granules[g]) else r.granules[g]
  }

  ghost predicate LineRevoked(r: Reservations, r': Reservations, first: nat, done: nat, me: ReservationGranule, i: nat)
    requires i < |r.slots| == |r'.slots|
  {
    r'.slots[i] == if first <= i < done then ClearExcept(r.slots[i], me) else r.slots[i]
  }

  /** From `r` to `r'` the reservations of these lines are lost by all but `me`, each granule's
      callback running once; every other line and granule is as it was. */
  ghost predicate Revokes(r: Reservations, r': Reservations, first: nat, done: nat, me: ReservationGranule) {
    && r'.granules.Keys == r.granules.Keys && |r'.slots| == |r.slots|
    && (forall i :: 0 <= i < |r.slots| ==> LineRevoked(r, r', first, done, me, i))
    && forall g :: g in r.granules ==> GranuleRevoked(r, r', first, done, me, g)
  }

  /** Revoking the lines of a range one after the other revokes exactly the range, and each lost
      reservation once. */
  lemma {:induction false} RangeIsRevoked(lines: seq<ReservationLine>, r: Reservations, first: nat, done: nat,
                                          me: ReservationGranule)
    requires Sound(lines, r) && done <= |lines|
    ensures Revokes(r, RevokeRange(r, first, done, me), first, done, me)
    decreases done
  {
    var r' := RevokeRange(r, first, done, me);
    if first < done {
      var mid := RevokeRange(r, first, done - 1, me);
      RangeIsRevoked(lines, r, first, done - 1, me);
      assert LineRevoked(r, mid, first, done - 1, me, done - 1);
      forall i | 0 <= i < |r.slots| ensures LineRevoked(r, r', first, done, me, i) {
        assert LineRevoked(r, mid, first, done - 1, me, i);
      }
      forall g | g in r.granules ensures GranuleRevoked(r, r', first, done, me, g) {
        assert GranuleRevoked(r, mid, first, done - 1, me, g);
        LaterLine(lines, r, first, done, g);
      }
    }
  }

  lemma LaterLine(lines: seq<ReservationLine>, r: Reservations, first: nat, done: nat, g: ReservationGranule)
    requires Sound(lines, r) && first < done <= |lines|
    ensures OnLines(r.slots, first, done, g) <==>
      OnLines(r.slots, first, done - 1, g) || g in Members(r.slots[done - 1])
    ensures OnLines(r.slots, first, done - 1, g) ==> g !in Members(r.slots[done - 1])
  {
    if OnLines(r.slots, first, done - 1, g) {
      var i :| first <= i < done - 1 && g in Members(r.slots[i]);
      OnOneLine(lines, r, i, done - 1, g);
    }
  }
}
