/** Guest memory with its lock lines and modification pages
    (ps3emu/MainMemory.h, ps3emu/MainMemory.cpp, ps3emu/ModificationMap.h), one thread at a time. */
module MainMemory {
  import opened Common
  import opened Slots
  import opened ReservationMap
  import opened ReservationTable

  const LINE: nat := 128
  const PAGE: nat := 0x4000

  /** Page flags of 16 KiB (ModificationMap.h). */
  class ModificationMap {
    const pages: array<bool>

    constructor (count: nat)
      ensures fresh(pages) && pages.Length == count
      ensures forall i :: 0 <= i < count ==> !pages[i]
    {
      pages := new bool[count](_ => false);
    }

    /** First and one-past-last page of a range, as `mark`, `marked` and `reset` compute them. */
    static function FirstPage(va: nat): nat { va / PAGE }

    static function EndPage(va: nat, size: nat): nat { (va + size) / PAGE + 1 }

    method Fill(va: nat, size: nat, value: bool)
      requires EndPage(va, size) <= pages.Length
      modifies pages
      ensures forall i :: 0 <= i < pages.Length ==>
        pages[i] == if FirstPage(va) <= i < EndPage(va, size) then value else old(pages[i])
    {
      for page := FirstPage(va) to EndPage(va, size)
        invariant forall i :: 0 <= i < pages.Length ==>
          pages[i] == if FirstPage(va) <= i < page then value else old(pages[i])
      {
        pages[page] := value;
      }
    }

    method Mark(va: nat, size: nat)
      requires EndPage(va, size) <= pages.Length
      modifies pages
      ensures forall i :: 0 <= i < pages.Length ==>
        pages[i] == (FirstPage(va) <= i < EndPage(va, size) || old(pages[i]))
    {
      Fill(va, size, true);
    }

    /** `mark<Size>`: the page and the one after it, to be on the safe side. */
    method MarkSmall(va: nat)
      requires FirstPage(va) + 1 < pages.Length
      modifies pages
      ensures forall i :: 0 <= i < pages.Length ==>
        pages[i] == (FirstPage(va) <= i <= FirstPage(va) + 1 || old(pages[i]))
    {
      pages[FirstPage(va)] := true;
      pages[FirstPage(va) + 1] := true;
    }

    method Reset(va: nat, size: nat)
      requires EndPage(va, size) <= pages.Length
      modifies pages
      ensures forall i :: 0 <= i < pages.Length ==>
        pages[i] == (!(FirstPage(va) <= i < EndPage(va, size)) && old(pages[i]))
    {
      Fill(va, size, false);
    }

    method Marked(va: nat, size: nat) returns (found: bool)
      requires EndPage(va, size) <= pages.Length
      ensures found <==> exists i :: FirstPage(va) <= i < EndPage(va, size) && pages[i]
    {
      for page := FirstPage(va) to EndPage(va, size)
        invariant forall i :: FirstPage(va) <= i < page ==> !pages[i]
      {
        if pages[page] {
          return true;
        }
      }
      return false;
    }
  }

  /** The chunk of `writeMemory` and `readMemory` that starts at `va`. */
  function NextChunk(va: nat, last: nat): (next: nat)
    requires va < last
    ensures va < next <= last && (next - 1) / LINE == va / LINE
    ensures next == last || next % LINE == 0
  {
    var lineEnd := (va + LINE) / LINE * LINE;
    if last < lineEnd then last else lineEnd
  }

  method NewLines(count: nat) returns (lines: seq<ReservationLine>)
    ensures |lines| == count && fresh(lines)
    ensures forall i, j :: 0 <= i < j < count ==> lines[i] != lines[j]
    ensures forall i :: 0 <= i < count ==> lines[i].arr == []
  {
    lines := [];
    for k := 0 to count
      invariant |lines| == k && fresh(lines)
      invariant forall i, j :: 0 <= i < j < k ==> lines[i] != lines[j]
      invariant forall i :: 0 <= i < k ==> lines[i].arr == []
    {
      var line := new ReservationLine();
      lines := lines + [line];
    }
  }

  /** One past the last line that `len` bytes at `start` touch. */
  function EndLine(start: nat, len: nat): nat {
    if len == 0 then start / LINE else (start + len - 1) / LINE + 1
  }

  /** The lines from the first one up to `EndLine` are exactly those that hold a byte of the range. */
  lemma TouchedLinesAreExact(start: nat, len: nat, i: nat)
    ensures start / LINE <= i < EndLine(start, len) <==> exists a: nat :: start <= a < start + len && a / LINE == i
  {
    if start / LINE <= i < EndLine(start, len) {
      var a := if i == start / LINE then start else i * LINE;
      assert start <= a < start + len && a / LINE == i;
    }
  }

  lemma ChunkOnOneLine(start: nat, va: nat, next: nat)
    requires start <= va < next && (va == start || va % LINE == 0) && (next - 1) / LINE == va / LINE
    ensures EndLine(start, va - start) == va / LINE && EndLine(start, next - start) == va / LINE + 1
    ensures start / LINE <= va / LINE && va % LINE + (next - va) <= LINE
  {
  }

  /** A value of at most 16 bytes is on the lines `store` locks. */
  lemma StoreLines(va: nat, size: nat)
    requires 0 < size <= 16
    ensures EndLine(va, size) == va / LINE + (if va % LINE + size > LINE then 2 else 1)
  {}

  class MainMemory {
    const memory: array<Byte>
    const lines: seq<ReservationLine>
    const mmap: ModificationMap
    ghost var granules: set<ReservationGranule>  // every granule that ever took a reservation

    constructor (lineCount: nat)
      ensures Valid() && |lines| == lineCount && granules == {}
      ensures fresh(memory) && fresh(lines) && fresh(mmap) && fresh(mmap.pages)
    {
      memory := new Byte[lineCount * LINE](_ => 0);
      var newLines := NewLines(lineCount);
      lines := newLines;
      mmap := new ModificationMap(lineCount * LINE / PAGE + 2);
      granules := {};
      new;
      FreshIsSound(lines, Reserved().slots, Reserved().granules, |lines|);
    }

    ghost predicate Valid()
      reads this, lines, granules
    {
      && memory.Length == |lines| * LINE
      && Sound(lines, Reserved())
      && memory.Length / PAGE + 1 < mmap.pages.Length
    }

    ghost function Reserved(): (r: Reservations)
      reads this, lines, granules
      ensures |r.slots| == |lines| && forall i :: 0 <= i < |lines| ==> r.slots[i] == lines[i].arr
      ensures r.granules.Keys == granules
      ensures forall g :: g in granules ==> r.granules[g] == Saved(g.line, g.notify, g.fired)
    {
      Reservations(seq(|lines|, i requires 0 <= i < |lines| reads lines => lines[i].arr),
                   map g | g in granules :: Saved(g.line, g.notify, g.fired))
    }

    lemma {:induction false} LineIsValid(i: nat)
      requires Valid() && i < |lines|
      ensures lines[i].Valid() && Members(lines[i].arr) <= granules
      ensures forall j :: 0 <= j < |lines| && j != i ==> lines[j] != lines[i]
    {
      SoundAt(lines, Reserved().slots, Reserved().granules, |lines|, i);
      forall j | 0 <= j < |lines| && j != i ensures lines[j] != lines[i] {
        SeparateAt(lines, |lines|, if i < j then i else j, if i < j then j else i);
      }
    }

    /** `destroyExcept` on one line (ReservationMap.h:161-162). */
    method DestroyExcept(i: nat, me: ReservationGranule)
      requires Valid() && i < |lines|
      modifies lines[i], granules - {me}
      ensures Valid() && Reserved() == Revoke(old(Reserved()), i, me)
    {
      ghost var was := Reserved();
      LineIsValid(i);
      lines[i].ClearExcept(me);
      assert Reserved().slots == Revoke(was, i, me).slots;
      assert Reserved().granules == Revoke(was, i, me).granules;
      RevokeIsSound(lines, was, i, me);
    }

    /** `destroySingleLine`: nobody keeps a reservation on it (ReservationMap.h:157-159). */
    method DestroySingleLine(i: nat)
      requires Valid() && i < |lines|
      modifies lines[i], granules
      ensures Valid() && lines[i].arr == []
      ensures forall g :: g in old(Members(lines[i].arr)) ==> g.Lost()
      ensures forall g :: g in granules && g !in old(Members(lines[i].arr)) ==> unchanged(g)
      ensures Reserved() == Empty(old(Reserved()), i)
    {
      ghost var was := Reserved();
      LineIsValid(i);
      lines[i].Clear();
      assert Reserved().slots == Empty(was, i).slots;
      assert Reserved().granules == Empty(was, i).granules;
      EmptyIsSound(lines, was, i);
    }

    /** `destroyExcept` on a line and perhaps the next (ReservationMap.h:161-166). */
    method DestroyBoth(i: nat, next: bool, me: ReservationGranule)
      requires Valid() && i < |lines| && (next ==> i + 1 < |lines|)
      modifies lines, granules - {me}
      ensures Valid() && Reserved() == RevokeRange(old(Reserved()), i, i + (if next then 2 else 1), me)
    {
      ghost var was := Reserved();
      DestroyExcept(i, me);
      assert RevokeRange(was, i, i + 1, me) == Revoke(was, i, me);
      if next {
        DestroyExcept(i + 1, me);
      }
    }

    /** The first bytes of `buf`, up to address `va`, are in memory and their lines are revoked. */
    ghost predicate WrittenTo(va: nat, start: nat, buf: seq<Byte>, me: ReservationGranule,
                              bytes: seq<Byte>, was: Reservations)
      reads this, memory, lines, granules
    {
      && Valid() && start <= va <= start + |buf| <= memory.Length == |bytes| && |was.slots| == |lines|
      && memory[..] == Splice(bytes, start, buf[..va - start])
      && EndLine(start, va - start) <= |lines|
      && Reserved() == RevokeRange(was, start / LINE, EndLine(start, va - start), me)
    }

    /** `memcpy` into guest memory. */
    method Put(va: nat, data: seq<Byte>)
      requires va + |data| <= memory.Length
      modifies memory
      ensures memory[..] == Splice(old(memory[..]), va, data)
    {
      forall k | va <= k < va + |data| {
        memory[k] := data[k - va];
      }
    }

    method PutAndMark(va: nat, data: seq<Byte>)
      requires va + |data| <= memory.Length && memory.Length / PAGE + 1 < mmap.pages.Length
      modifies memory, mmap.pages
      ensures memory[..] == Splice(old(memory[..]), va, data)
      ensures forall p :: 0 <= p < mmap.pages.Length ==>
        mmap.pages[p] == (va / PAGE <= p <= va / PAGE + 1 || old(mmap.pages[p]))
    {
      Put(va, data);
      mmap.MarkSmall(va);
    }

    method PutChunk(va: nat, next: nat, start: nat, buf: seq<Byte>, ghost bytes: seq<Byte>)
      requires start <= va <= next <= start + |buf| <= memory.Length == |bytes|
      requires memory[..] == Splice(bytes, start, buf[..va - start])
      modifies memory
      ensures memory[..] == Splice(bytes, start, buf[..next - start])
    {
      ghost var before := memory[..];
      Put(va, buf[va - start..next - start]);
      SpliceExtends(bytes, start, buf, va, next, before);
    }

    /** One chunk: the bytes and the reservations of a single line (MainMemory.cpp:99-104). */
    method WriteChunk(va: nat, next: nat, start: nat, buf: seq<Byte>, me: ReservationGranule,
                      ghost bytes: seq<Byte>, ghost was: Reservations)
      requires WrittenTo(va, start, buf, me, bytes, was)
      requires va < next <= start + |buf| && (next - 1) / LINE == va / LINE
      requires va == start || va % LINE == 0
      modifies memory, lines[va / LINE], granules - {me}
      ensures WrittenTo(next, start, buf, me, bytes, was)
    {
      PutChunk(va, next, start, buf, bytes);
      ChunkOnOneLine(start, va, next);
      DestroyExcept(va / LINE, me);
    }

    /** The loop of `writeMemory` (MainMemory.cpp:86-108). */
    method WriteMemory(start: nat, buf: seq<Byte>, me: ReservationGranule)
      requires Valid() && start + |buf| <= memory.Length
      modifies memory, mmap.pages, lines, granules - {me}
      ensures Valid()
      ensures memory[..] == Splice(old(memory[..]), start, buf)
      ensures EndLine(start, |buf|) <= |lines|
      ensures Reserved() == RevokeRange(old(Reserved()), start / LINE, EndLine(start, |buf|), me)
      ensures forall p :: 0 <= p < mmap.pages.Length ==>
        mmap.pages[p] == (ModificationMap.FirstPage(start) <= p < ModificationMap.EndPage(start, |buf|)
                          || old(mmap.pages[p]))
    {
      var va, last := start, start + |buf|;
      ghost var was, bytes := Reserved(), memory[..];
      mmap.Mark(va, |buf|);
      ghost var marked := mmap.pages[..];
      SpliceNothing(bytes, start);
      while va != last
        invariant start <= va <= last
        invariant va == last || va == start || va % LINE == 0
        invariant WrittenTo(va, start, buf, me, bytes, was)
        invariant mmap.pages[..] == marked
      {
        var next := NextChunk(va, last);
        WriteChunk(va, next, start, buf, me, bytes, was);
        va := next;
      }
      assert buf[..|buf|] == buf;
    }

    /** `readMemory` (MainMemory.cpp:120-133). */
    method ReadMemory(start: nat, len: nat) returns (buf: seq<Byte>)
      requires start + len <= memory.Length
      ensures buf == memory[start..start + len]
    {
      var va, last := start, start + len;
      buf := [];
      while va != last
        invariant start <= va <= last
        invariant buf == memory[start..va]
      {
        var next := NextChunk(va, last);
        buf := buf + memory[va..next];
        va := next;
      }
    }

    method DestroyLines(va: nat, size: nat, me: ReservationGranule)
      requires Valid() && 0 < size <= 16 && va + size <= memory.Length
      modifies lines, granules - {me}
      ensures Valid() && EndLine(va, size) <= |lines|
      ensures Reserved() == RevokeRange(old(Reserved()), va / LINE, EndLine(va, size), me)
    {
      StoreLines(va, size);
      DestroyBoth(va / LINE, va % LINE + size > LINE, me);
    }

    /** `store` (MainMemory.cpp:76-83): one line, or two when the value crosses. */
    method Store(va: nat, data: seq<Byte>, me: ReservationGranule)
      requires Valid() && |data| in {1, 2, 4, 8, 16} && va + |data| <= memory.Length
      modifies memory, mmap.pages, lines, granules - {me}
      ensures Valid()
      ensures memory[..] == Splice(old(memory[..]), va, data)
      ensures EndLine(va, |data|) <= |lines|
      ensures Reserved() == RevokeRange(old(Reserved()), va / LINE, EndLine(va, |data|), me)
      ensures forall p :: 0 <= p < mmap.pages.Length ==>
        mmap.pages[p] == (va / PAGE <= p <= va / PAGE + 1 || old(mmap.pages[p]))
    {
      PutAndMark(va, data);
      DestroyLines(va, |data|, me);
    }

    /** What the protocol keeps about a thread's own granule. */
    ghost predicate Owns(me: ReservationGranule)
      reads this, lines, me
    {
      me.line != null ==> me.line in lines && me in granules && me in Members(me.line.arr)
    }

    /** The first region of `loadReserve`: the old reservation goes (MainMemory.h:171-178). */
    method DropReservation(me: ReservationGranule)
      requires Valid() && Owns(me)
      modifies lines, me
      ensures Valid() && me.line == null
      ensures if old(me.line) != null then me.Lost() else unchanged(me)
      ensures forall i :: 0 <= i < |lines| ==> Members(lines[i].arr) == old(Members(lines[i].arr)) - {me}
    {
      if me.line != null {
        ghost var was := Reserved();
        ghost var i: nat :| i < |lines| && lines[i] == me.line;
        LineIsValid(i);
        DropIsSound(lines, was, i, me);
        me.line.ClearOne(me);
        assert Reserved().slots == Drop(was, i, me).slots;
        assert Reserved().granules == Drop(was, i, me).granules;
      } else {
        NotReserved(me);
      }
    }

    lemma NotReserved(me: ReservationGranule)
      requires Valid() && me.line == null
      ensures forall i :: 0 <= i < |lines| ==> me !in Members(lines[i].arr)
    {
      forall i | 0 <= i < |lines| ensures me !in Members(lines[i].arr) {
        SoundAt(lines, Reserved().slots, Reserved().granules, |lines|, i);
      }
    }

    method PointGranule(line: ReservationLine, notify: Option<Callback>, me: ReservationGranule)
      modifies this`granules, me
      ensures granules == old(granules) + {me}
      ensures me.line == line && me.notify == notify && me.fired == old(me.fired)
      ensures Reserved() == old(Reserved()).(granules := old(Reserved()).granules[me := Saved(line, notify, me.fired)])
    {
      ghost var was := Reserved();
      me.line := line;
      me.notify := notify;
      granules := granules + {me};
      assert Reserved().slots == was.slots;
      assert Reserved().granules == was.granules[me := Saved(line, notify, me.fired)];
    }

    method EnterLine(i: nat, me: ReservationGranule)
      requires i < |lines| && forall j :: 0 <= j < |lines| && j != i ==> lines[j] != lines[i]
      modifies lines[i]
      ensures Reserved() == old(Reserved()).(slots := old(Reserved()).slots[i := Slots.Insert(old(lines[i].arr), me)])
    {
      ghost var was := Reserved();
      lines[i].Insert(me);
      assert Reserved().slots == was.slots[i := Slots.Insert(was.slots[i], me)];
      assert Reserved().granules == was.granules;
    }

    /** The second region of `loadReserve`: the granule takes line `i` (MainMemory.h:186-190). */
    method TakeReservation(i: nat, notify: Option<Callback>, me: ReservationGranule)
      requires Valid() && i < |lines| && me.line == null
      modifies this`granules, lines[i], me
      ensures Valid() && granules == old(granules) + {me}
      ensures me.line == lines[i] && me.notify == notify && me.fired == old(me.fired)
      ensures Reserved() == Take(old(Reserved()), i, me, Saved(lines[i], notify, me.fired))
    {
      LineIsValid(i);
      TakeIsSound(lines, Reserved(), i, me, Saved(lines[i], notify, me.fired));
      PointGranule(lines[i], notify, me);
      EnterLine(i, me);
    }

    /** `loadReserve` (MainMemory.h:169-191) without interference. */
    method LoadReserve(va: nat, len: nat, notify: Option<Callback>, me: ReservationGranule) returns (buf: seq<Byte>)
      requires Valid() && Owns(me) && va % LINE + len <= LINE && 0 < len && va + len <= memory.Length
      modifies this`granules, lines, me
      ensures Valid() && Owns(me)
      ensures buf == memory[va..va + len]
      ensures me.line == lines[va / LINE] && me.notify == notify
      ensures old(me.line) != null ==> me.fired == old(me.fired) + Callbacks(old(me.notify))
      ensures granules == old(granules) + {me}
      ensures forall i :: 0 <= i < |lines| ==>
        Members(lines[i].arr) == old(Members(lines[i].arr)) - {me} + (if i == va / LINE then {me} else {})
    {
      DropReservation(me);
      buf := memory[va..va + len];
      ghost var mid := Reserved();
      TakeReservation(va / LINE, notify, me);
      TakeIsSound(lines, mid, va / LINE, me, Saved(lines[va / LINE], notify, me.fired));
    }

    /** What `writeCond` does when it stores. */
    method StoreAndDestroy(va: nat, data: seq<Byte>)
      requires Valid() && data != [] && va + |data| <= memory.Length
      modifies memory, mmap.pages, lines[va / LINE], granules
      ensures Valid()
      ensures memory[..] == Splice(old(memory[..]), va, data) && lines[va / LINE].arr == []
      ensures forall g :: g in old(Members(lines[va / LINE].arr)) ==> g.Lost()
      ensures forall g :: g in granules && g !in old(Members(lines[va / LINE].arr)) ==> unchanged(g)
      ensures forall p :: 0 <= p < mmap.pages.Length ==>
        mmap.pages[p] == (va / PAGE <= p <= va / PAGE + 1 || old(mmap.pages[p]))
    {
      PutAndMark(va, data);
      DestroySingleLine(va / LINE);
    }

    /** `writeCond` (MainMemory.h:194-212) without interference. */
    method WriteCond(va: nat, data: seq<Byte>, unconditional: bool, me: ReservationGranule) returns (stored: bool)
      requires Valid() && data != [] && va % LINE + |data| <= LINE && va + |data| <= memory.Length
      modifies memory, mmap.pages, lines[va / LINE], granules
      ensures Valid()
      ensures stored <==> unconditional || me in old(Members(lines[va / LINE].arr))
      ensures stored ==> memory[..] == Splice(old(memory[..]), va, data)
      ensures stored ==> lines[va / LINE].arr == []
      ensures stored ==> forall g :: g in old(Members(lines[va / LINE].arr)) ==> g.Lost()
      ensures stored ==> forall g :: g in granules && g !in old(Members(lines[va / LINE].arr)) ==> unchanged(g)
      ensures stored ==> forall p :: 0 <= p < mmap.pages.Length ==>
        mmap.pages[p] == (va / PAGE <= p <= va / PAGE + 1 || old(mmap.pages[p]))
      ensures !stored ==> memory[..] == old(memory[..])
      ensures !stored ==> mmap.pages[..] == old(mmap.pages[..])
      ensures !stored ==> Reserved() == old(Reserved())
    {
      var line := lines[va / LINE];
      stored := unconditional;
      if !stored {
        stored := line.Exists(me);
      }
      if stored {
        StoreAndDestroy(va, data);
      }
    }
  }

  /** What `writeMemory` leaves in memory is what `readMemory` of the same range returns, and a
      range apart from it reads as before. */
  lemma ReadBack(bytes: seq<Byte>, start: nat, buf: seq<Byte>, va: nat, len: nat)
    requires start + |buf| <= |bytes| && va + len <= |bytes|
    ensures Splice(bytes, start, buf)[start..start + |buf|] == buf
    ensures va + len <= start || start + |buf| <= va ==>
      Splice(bytes, start, buf)[va..va + len] == bytes[va..va + len]
  {
    var after := Splice(bytes, start, buf);
    assert forall k :: 0 <= k < |buf| ==> after[start..start + |buf|][k] == buf[k];
  }

  /** The pages that `mark` fills are exactly those that hold an address of the range or the one behind
      it: the source marks one byte too far. */
  lemma MarkedPagesAreExact(va: nat, size: nat, p: nat)
    ensures ModificationMap.FirstPage(va) <= p < ModificationMap.EndPage(va, size) <==>
      p * 0x4000 <= va + size && va < (p + 1) * 0x4000
  {
  }

  /** Every page a written byte falls on is inside the range `mark` fills. */
  lemma TouchedPagesAreMarked(va: nat, size: nat, at: nat)
    requires va <= at < va + size
    ensures ModificationMap.FirstPage(va) <= at / PAGE < ModificationMap.EndPage(va, size)
  {
  }
}
