/** The objects behind the reservation lines (ps3emu/ReservationMap.h). A line's vector is
    updated in place and so are the granules in it; `fired` logs the callbacks that were run. */
module ReservationMap {
  import opened Common
  import opened Slots

  class ReservationGranule {
    var line: ReservationLine?
    var notify: Option<Callback>
    var fired: seq<Callback>

    constructor ()
      ensures line == null && notify == None && fired == []
    {
      line, notify, fired := null, None, [];
    }

    /** The granule has lost its line and its callback, if any, has been run once. */
    twostate predicate Lost()
      reads this
    {
      line == null && notify == None &&
      fired == old(fired) + (if old(notify).Some? then [old(notify).value] else [])
    }

    /** ReservationGranuleArray::notify, then `granule->line = nullptr`. */
    method Lose()
      modifies this
      ensures Lost()
    {
      if notify.Some? {
        fired := fired + [notify.value];
      }
      notify := None;
      line := null;
    }
  }

  class ReservationLine {
    var arr: SlotVector<ReservationGranule>

    constructor ()
      ensures arr == []
    {
      arr := [];
    }

    /** No granule is in two slots and all of them point back here. */
    ghost predicate Valid()
      reads this, Members(arr)
    {
      Distinct(arr) && forall g :: g in Members(arr) ==> g.line == this
    }

    method Insert(granule: ReservationGranule)
      modifies this
      ensures arr == Slots.Insert(old(arr), granule)
    {
      for i := 0 to |arr|
        invariant arr == old(arr) && i <= FirstHole(arr)
      {
        if arr[i].None? {
          arr := arr[i := Some(granule)];
          return;
        }
      }
      arr := arr + [Some(granule)];
    }

    method Exists(granule: ReservationGranule) returns (found: bool)
      ensures found <==> granule in Members(arr)
    {
      for i := 0 to |arr|
        invariant Some(granule) !in arr[..i]
      {
        if arr[i] == Some(granule) {
          assert arr[i].value in Members(arr);
          return true;
        }
      }
      assert arr[..|arr|] == arr;
      return false;
    }

    method Clear()
      requires Valid()
      modifies this, Members(arr)
      ensures arr == []
      ensures forall g :: g in old(Members(arr)) ==> g.Lost()
    {
      for i := 0 to |arr|
        invariant arr == old(arr)
        invariant forall j :: 0 <= j < i && arr[j].Some? ==> arr[j].value.Lost()
        invariant forall j :: i <= j < |arr| && arr[j].Some? ==> unchanged(arr[j].value)
      {
        if arr[i].Some? {
          assert arr[i].value in Members(arr);
          arr[i].value.Lose();
        }
      }
      arr := [];
    }

    method ClearExcept(granule: ReservationGranule)
      requires Valid()
      modifies this, Members(arr) - {granule}
      ensures arr == Slots.ClearExcept(old(arr), granule)
      ensures forall g :: g in old(Members(arr)) && g != granule ==> g.Lost()
    {
      var newSize := 0;
      for i := 0 to |arr|
        invariant |arr| == |old(arr)| && newSize <= i
        invariant newSize > 0 ==> old(arr)[newSize - 1] == Some(granule)
        invariant forall j :: newSize <= j < i ==> old(arr)[j] != Some(granule)
        invariant forall j :: 0 <= j < i ==>
          arr[j] == if old(arr)[j] == Some(granule) then Some(granule) else None
        invariant forall j :: i <= j < |arr| ==> arr[j] == old(arr)[j]
        invariant forall j :: 0 <= j < i && old(arr)[j].Some? && old(arr)[j] != Some(granule) ==>
          old(arr)[j].value.Lost()
        invariant forall j :: i <= j < |arr| && old(arr)[j].Some? && old(arr)[j] != Some(granule) ==>
          unchanged(old(arr)[j].value)
      {
        if arr[i].Some? {
          assert old(arr)[i].value in old(Members(arr));
          if arr[i] == Some(granule) {
            newSize := i + 1;
          } else {
            arr[i].value.Lose();
            arr := arr[i := None];
          }
        }
      }
      arr := arr[..newSize];
    }

    method ClearOne(granule: ReservationGranule)
      requires Valid()
      modifies this, granule
      ensures arr == Slots.ClearOne(old(arr), granule)
      ensures if granule in old(Members(arr)) then granule.Lost() else unchanged(granule)
    {
      for i := 0 to |arr|
        invariant |arr| == |old(arr)|
        invariant forall j :: 0 <= j < i ==>
          arr[j] == if old(arr)[j] == Some(granule) then None else old(arr)[j]
        invariant forall j :: i <= j < |arr| ==> arr[j] == old(arr)[j]
        invariant if Some(granule) in old(arr)[..i] then granule.Lost() else unchanged(granule)
      {
        if arr[i] == Some(granule) {
          assert old(arr)[i].value in old(Members(arr));
          granule.Lose();
          arr := arr[i := None];
        }
      }
      assert old(arr)[..|arr|] == old(arr);
    }
  }
}
