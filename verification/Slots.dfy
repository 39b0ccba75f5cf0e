/** The holey slot vector of a reservation line (ps3emu/ReservationMap.h:18-87), as functions
    on its value. The class `ReservationLine` and the step machine both use these. */
module Slots {
  import opened Common

  type SlotVector<T> = seq<Option<T>>

  /** The set a slot vector stands for. */
  function Members<T>(slots: SlotVector<T>): set<T> {
    set i | 0 <= i < |slots| && slots[i].Some? :: slots[i].value
  }

  /** No element sits in two slots. */
  ghost predicate Distinct<T>(slots: SlotVector<T>) {
    forall i, j :: 0 <= i < j < |slots| && slots[i].Some? ==> slots[i] != slots[j]
  }

  /** Index of the first empty slot from `k` on, or the length when every slot is taken. */
  function HoleFrom<T>(slots: SlotVector<T>, k: nat): (h: nat)
    requires k <= |slots|
    ensures k <= h <= |slots|
    ensures h < |slots| ==> slots[h].None?
    ensures forall i :: k <= i < h ==> slots[i].Some?
    decreases |slots| - k
  {
    if k == |slots| || slots[k].None? then k else HoleFrom(slots, k + 1)
  }

  function FirstHole<T>(slots: SlotVector<T>): (h: nat)
    ensures h <= |slots|
    ensures h < |slots| ==> slots[h].None?
    ensures forall i :: 0 <= i < h ==> slots[i].Some?
  {
    HoleFrom(slots, 0)
  }

  function Insert<T>(slots: SlotVector<T>, g: T): SlotVector<T> {
    var h := FirstHole(slots);
    if h < |slots| then slots[h := Some(g)] else slots + [Some(g)]
  }

  /** One more than the last index below `k` holding `g`, or 0. */
  function EndBelow<T(==)>(slots: SlotVector<T>, g: T, k: nat): (n: nat)
    requires k <= |slots|
    ensures n <= k
    ensures n > 0 ==> slots[n - 1] == Some(g)
    ensures forall i :: n <= i < k ==> slots[i] != Some(g)
  {
    if k == 0 || slots[k - 1] == Some(g) then k else EndBelow(slots, g, k - 1)
  }

  function LastEnd<T(==)>(slots: SlotVector<T>, g: T): (n: nat)
    ensures n <= |slots|
    ensures n > 0 ==> slots[n - 1] == Some(g)
    ensures forall i :: n <= i < |slots| ==> slots[i] != Some(g)
  {
    EndBelow(slots, g, |slots|)
  }

  function ClearExcept<T(==)>(slots: SlotVector<T>, g: T): SlotVector<T> {
    seq(LastEnd(slots, g), i requires 0 <= i < |slots| => if slots[i] == Some(g) then Some(g) else None)
  }

  function ClearOne<T(==)>(slots: SlotVector<T>, g: T): SlotVector<T> {
    seq(|slots|, i requires 0 <= i < |slots| => if slots[i] == Some(g) then None else slots[i])
  }

  lemma InsertAddsOne<T>(slots: SlotVector<T>, g: T)
    requires Distinct(slots) && g !in Members(slots)
    ensures Distinct(Insert(slots, g))
    ensures Members(Insert(slots, g)) == Members(slots) + {g}
  {
    var h, after := FirstHole(slots), Insert(slots, g);
    assert after[h] == Some(g);
    forall m | m in Members(slots) + {g} ensures m in Members(after) {
      if m != g {
        var i :| 0 <= i < |slots| && slots[i] == Some(m);
        assert after[i] == Some(m);
      }
    }
    forall i | 0 <= i < |slots| && slots[i].Some? ensures slots[i] != Some(g) {
      assert slots[i].value in Members(slots);
    }
  }

  lemma ClearExceptKeepsOne<T>(slots: SlotVector<T>, g: T)
    requires Distinct(slots)
    ensures Distinct(ClearExcept(slots, g))
    ensures Members(ClearExcept(slots, g)) == Members(slots) * {g}
  {
    var after := ClearExcept(slots, g);
    if g in Members(slots) {
      var i :| 0 <= i < |slots| && slots[i] == Some(g);
      assert after[i] == Some(g);
    }
  }

  lemma ClearOneDropsOne<T>(slots: SlotVector<T>, g: T)
    requires Distinct(slots)
    ensures Distinct(ClearOne(slots, g))
    ensures Members(ClearOne(slots, g)) == Members(slots) - {g}
  {
    var after := ClearOne(slots, g);
    forall m | m in Members(slots) - {g} ensures m in Members(after) {
      var i :| 0 <= i < |slots| && slots[i] == Some(m);
      assert after[i] == Some(m);
    }
  }
}
