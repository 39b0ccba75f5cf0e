/** What every step of the reservation protocol keeps, and what follows for every run. */
module ReservationInvariants {
  import opened Common
  import opened Slots
  import opened ReservationProtocol

  // ---------------------------------------------------------------- the reservation of the ISA

  /** How one event changes whether `t` holds a reservation of `line`
      (PowerPC Book II, section 1.7.3.1, with 128-byte granules). */
  predicate After(live: bool, e: Event, t: Tid, line: nat) {
    match e
    case Reserved(u, va) => if u == t then va / 128 == line else live
    case Plain(u, first, last) => live && (u == t || line < first || last < line)
    case Atomic(_, va, _) => live && va / 128 != line
    case Failed(_, _) => live
    case Retired(_, retired) => live && retired != line
  }

  predicate Live(history: seq<Event>, t: Tid, line: nat) {
    history != [] &&
    After(Live(history[..|history| - 1], t, line), history[|history| - 1], t, line)
  }

  /** `e` is a reservation of `line` by `t`. */
  predicate Funds(e: Event, t: Tid, line: nat) {
    e.Reserved? && e.t == t && e.va / 128 == line
  }

  /** `e` ends a reservation of `line` by `t`: a reservation or a foreign write or any
      successful `writeCond` of the line, or a granule destroyed with it. */
  predicate Ends(e: Event, t: Tid, line: nat) {
    match e
    case Reserved(u, _) => u == t
    case Plain(u, first, last) => u != t && first <= line <= last
    case Atomic(_, va, _) => va / 128 == line
    case Failed(_, _) => false
    case Retired(_, retired) => retired == line
  }

  /** The reservation made at index `i` of the history is still there. */
  ghost predicate FundedAt(history: seq<Event>, t: Tid, line: nat, i: nat) {
    i < |history| && Funds(history[i], t, line) &&
    forall k :: i < k < |history| ==> !Ends(history[k], t, line)
  }

  lemma {:induction false} LiveMeansFunded(history: seq<Event>, t: Tid, line: nat)
    ensures Live(history, t, line) <==> exists i: nat :: FundedAt(history, t, line, i)
  {
    if history != [] {
      var last := |history| - 1;
      LiveMeansFunded(history[..last], t, line);
      if Live(history, t, line) {
        if Funds(history[last], t, line) {
          assert FundedAt(history, t, line, last);
        } else {
          var i: nat :| FundedAt(history[..last], t, line, i);
          assert FundedAt(history, t, line, i);
        }
      }
      if exists i: nat :: FundedAt(history, t, line, i) {
        var i: nat :| FundedAt(history, t, line, i);
        if i < last {
          assert FundedAt(history[..last], t, line, i);
        }
      }
    }
  }

  lemma LiveStep(history: seq<Event>, e: Event, t: Tid, line: nat)
    ensures Live(history + [e], t, line) == After(Live(history, t, line), e, t, line)
  {
    assert (history + [e])[..|history|] == history;
  }

  /** Every conditional store came out as the history before it says. */
  ghost predicate Exact(history: seq<Event>) {
    forall i {:trigger history[i]} :: 0 <= i < |history| ==> ExactAt(history, i)
  }

  ghost predicate ExactAt(history: seq<Event>, i: nat)
    requires i < |history|
  {
    var e := history[i];
    && (e.Atomic? && e.conditional ==> Live(history[..i], e.t, e.va / 128))
    && (e.Failed? ==> !Live(history[..i], e.t, e.va / 128))
  }

  // ---------------------------------------------------------------- the invariant

  ghost predicate SlotsAgreeOn(s: State, line: nat)
    requires line < |s.lines|
  {
    && Distinct(s.lines[line])
    && forall t: Tid :: t in Members(s.lines[line]) <==>
         t < |s.threads| && s.threads[t].granule.line == Some(line)
  }

  /** A granule sits in a line's slots, in one slot, exactly when it points at the line. */
  ghost predicate SlotsAgree(s: State)
    requires WellFormed(s)
  {
    forall line :: 0 <= line < LINE_COUNT ==> SlotsAgreeOn(s, line)
  }

  ghost predicate LockIsHeld(s: State, line: nat)
  {
    line in s.holder ==>
      line < LINE_COUNT && s.holder[line] < |s.threads| && line in Held(s.threads[s.holder[line]].pc)
  }

  ghost predicate HeldIsLocked(s: State, t: Tid, line: nat)
    requires t < |s.threads|
  {
    line in Held(s.threads[t].pc) ==> line in s.holder && s.holder[line] == t
  }

  ghost predicate LocksAgree(s: State) {
    && (forall line {:trigger line in s.holder} :: line in s.holder ==> LockIsHeld(s, line))
    && (forall t, line: nat :: 0 <= t < |s.threads| ==> HeldIsLocked(s, t, line))
  }

  /** `loadReserve` is between the drop of the old reservation and the new one. */
  predicate Midway(pc: Pc) {
    (pc.LockFirst? || pc.Inside?) && pc.op.LoadReserve?
  }

  predicate ThreadOk(th: Thread) {
    && th.registered == th.fired + Callbacks(th.granule.notify)
    && (th.granule.line.None? ==> th.granule.notify.None?)
    && (Midway(th.pc) ==> th.granule.line.None?)
    && (th.pc.LockOld? || th.pc.InsideOld? ==> th.granule.line in {None, Some(th.pc.prev)})
    && (th.pc.Gone? ==> th.granule.line.None?)
  }

  ghost predicate LiveAgreesOn(s: State, t: Tid, line: nat)
    requires t < |s.threads|
  {
    && (s.threads[t].granule.line == Some(line) ==> Live(s.history, t, line))
    && (Live(s.history, t, line) && !Midway(s.threads[t].pc) ==>
          s.threads[t].granule.line == Some(line))
  }

  ghost predicate Inv(s: State) {
    && WellFormed(s)
    && SlotsAgree(s)
    && LocksAgree(s)
    && (forall t :: 0 <= t < |s.threads| ==> ThreadOk(s.threads[t]))
    && (forall t, line: nat :: 0 <= t < |s.threads| ==> LiveAgreesOn(s, t, line))
    && Exact(s.history)
  }

  // ---------------------------------------------------------------- slot operations

  /** `s'` is `s` with the granules `gone` revoked and the slots of `line` cut down accordingly. */
  ghost predicate RevokedFrom(s: State, s': State, line: nat, keep: set<Tid>) {
    && |s'.threads| == |s.threads|
    && s'.holder == s.holder && s'.memory == s.memory && s'.history == s.history
    && (forall u :: 0 <= u < |s.threads| ==>
          s'.threads[u] == if s.threads[u].granule.line == Some(line) && u !in keep
                           then Revoked(s.threads[u]) else s.threads[u])
  }

  lemma PurgeRevokes(s: State, line: nat, keep: Option<Tid>)
    requires WellFormed(s) && SlotsAgree(s) && line < LINE_COUNT
    ensures var s' := Purge(s, line, keep);
      && WellFormed(s') && SlotsAgree(s')
      && RevokedFrom(s, s', line, if keep.Some? then {keep.value} else {})
  {
    var s' := Purge(s, line, keep);
    assert SlotsAgreeOn(s, line);
    if keep.Some? {
      ClearExceptKeepsOne(s.lines[line], keep.value);
    }
    forall l | 0 <= l < LINE_COUNT ensures SlotsAgreeOn(s', l) {
      assert SlotsAgreeOn(s, l);
    }
  }

  lemma UnslotRevokes(s: State, line: nat, t: Tid)
    requires WellFormed(s) && SlotsAgree(s) && line < LINE_COUNT && t < |s.threads|
    requires s.threads[t].granule.line == Some(line)
    ensures var s' := Unslot(s, line, t);
      && WellFormed(s') && SlotsAgree(s')
      && s' == s.(threads := s.threads[t := Revoked(s.threads[t])], lines := s'.lines)
  {
    var s' := Unslot(s, line, t);
    assert SlotsAgreeOn(s, line);
    ClearOneDropsOne(s.lines[line], t);
    forall l | 0 <= l < LINE_COUNT ensures SlotsAgreeOn(s', l) {
      assert SlotsAgreeOn(s, l);
    }
  }

  // ---------------------------------------------------------------- each step keeps the invariant

  lemma ExactExtends(history: seq<Event>, e: Event)
    requires Exact(history)
    requires e.Atomic? && e.conditional ==> Live(history, e.t, e.va / 128)
    requires e.Failed? ==> !Live(history, e.t, e.va / 128)
    ensures Exact(history + [e])
  {
    var after := history + [e];
    forall i | 0 <= i < |after| ensures ExactAt(after, i) {
      if i < |history| {
        assert ExactAt(history, i) && after[..i] == history[..i];
      } else {
        assert after[..i] == history;
      }
    }
  }

  /** Only `t` moved; the others are as they were or have lost their reservation. */
  ghost predicate OnlyMoves(s: State, s': State, t: Tid) {
    && t < |s.threads| == |s'.threads|
    && forall u :: 0 <= u < |s.threads| && u != t ==>
         s'.threads[u] == s.threads[u] || s'.threads[u] == Revoked(s.threads[u])
  }

  lemma LeavingKeepsLocks(s: State, s': State, t: Tid)
    requires LocksAgree(s) && OnlyMoves(s, s', t)
    requires s'.holder == s.holder - Held(s.threads[t].pc) && Held(s'.threads[t].pc) == {}
    ensures LocksAgree(s')
  {
    forall line | line in s'.holder ensures LockIsHeld(s', line) {
      assert LockIsHeld(s, line);
    }
    forall u, line: nat | 0 <= u < |s.threads| ensures HeldIsLocked(s', u, line) {
      assert HeldIsLocked(s, u, line) && HeldIsLocked(s, t, line);
    }
  }

  lemma AcquiringKeepsLocks(s: State, s': State, t: Tid, line: nat)
    requires LocksAgree(s) && OnlyMoves(s, s', t) && line < LINE_COUNT && line !in s.holder
    requires s'.holder == s.holder[line := t]
    requires Held(s'.threads[t].pc) == Held(s.threads[t].pc) + {line}
    ensures LocksAgree(s')
  {
    forall l | l in s'.holder ensures LockIsHeld(s', l) {
      assert l != line ==> LockIsHeld(s, l);
    }
    forall u, l: nat | 0 <= u < |s.threads| ensures HeldIsLocked(s', u, l) {
      assert HeldIsLocked(s, u, l) && HeldIsLocked(s, t, l);
    }
  }

  /** A step of `t` that touches neither slots nor granules nor history. */
  lemma QuietStepKeepsInv(s: State, s': State, t: Tid)
    requires Inv(s) && t < |s.threads| == |s'.threads| && WellFormed(s') && LocksAgree(s')
    requires s'.lines == s.lines && s'.history == s.history && ThreadOk(s'.threads[t])
    requires s'.threads == s.threads[t := s.threads[t].(pc := s'.threads[t].pc)]
    requires Midway(s.threads[t].pc) ==> Midway(s'.threads[t].pc)
    ensures Inv(s')
  {
    forall line | 0 <= line < LINE_COUNT ensures SlotsAgreeOn(s', line) {
      assert SlotsAgreeOn(s, line);
    }
    forall u, line: nat | 0 <= u < |s.threads| ensures LiveAgreesOn(s', u, line) {
      assert LiveAgreesOn(s, u, line);
    }
  }

  lemma BeginKeepsInv(s: State, t: Tid, op: Op)
    requires Inv(s) && CanBegin(s, t, op)
    ensures Inv(Begin(s, t, op))
  {
    var s' := Begin(s, t, op);
    assert Held(s'.threads[t].pc) == {};
    LeavingKeepsLocks(s, s', t);
    QuietStepKeepsInv(s, s', t);
  }

  lemma ReadLineKeepsInv(s: State, t: Tid)
    requires Inv(s) && CanStep(s, t) && s.threads[t].pc.ReadLine?
    ensures Inv(Step(s, t))
  {
    LeavingKeepsLocks(s, Step(s, t), t);
    QuietStepKeepsInv(s, Step(s, t), t);
  }

  lemma LockingKeepsInv(s: State, t: Tid)
    requires Inv(s) && CanStep(s, t)
    requires s.threads[t].pc.LockOld? || s.threads[t].pc.LockFirst? || s.threads[t].pc.LockSecond?
    ensures Inv(Step(s, t))
  {
    var s', pc := Step(s, t), s.threads[t].pc;
    var line := match pc case LockOld(_, prev) => prev case LockFirst(op) => First(op)
                case LockSecond(op) => First(op) + 1;
    AcquiringKeepsLocks(s, s', t, line);
    QuietStepKeepsInv(s, s', t);
  }

  /** The concrete reservation of `u` changes exactly as the event says. */
  ghost predicate Follows(s: State, s': State, e: Event, u: Tid, line: nat)
    requires u < |s.threads| == |s'.threads|
  {
    (s'.threads[u].granule.line == Some(line)) ==
      After(s.threads[u].granule.line == Some(line), e, u, line)
  }

  lemma RegionKeepsInv(s: State, s': State, t: Tid, e: Event)
    requires Inv(s) && WellFormed(s') && SlotsAgree(s') && OnlyMoves(s, s', t)
    requires s'.holder == s.holder - Held(s.threads[t].pc) && Held(s'.threads[t].pc) == {}
    requires ThreadOk(s'.threads[t]) && !Midway(s'.threads[t].pc)
    requires e.t == t && s'.history == s.history + [e]
    requires Midway(s.threads[t].pc) ==> e.Reserved?
    requires e.Atomic? && e.conditional ==> Live(s.history, e.t, e.va / 128)
    requires e.Failed? ==> !Live(s.history, e.t, e.va / 128)
    requires forall u, line: nat :: 0 <= u < |s.threads| ==> Follows(s, s', e, u, line)
    ensures Inv(s')
  {
    LeavingKeepsLocks(s, s', t);
    ExactExtends(s.history, e);
    forall u, line: nat | 0 <= u < |s.threads| ensures LiveAgreesOn(s', u, line) {
      assert LiveAgreesOn(s, u, line) && Follows(s, s', e, u, line);
      LiveStep(s.history, e, u, line);
    }
  }

  predicate LineBetween(line: Option<nat>, first: nat, last: nat) {
    line.Some? && first <= line.value <= last
  }

  /** Everyone but `t` has lost a reservation of the lines `first..last`. */
  ghost predicate RevokedBetween(s: State, mid: State, t: Tid, first: nat, last: nat) {
    && |mid.threads| == |s.threads|
    && forall u :: 0 <= u < |s.threads| ==>
         mid.threads[u] == (if u != t && LineBetween(s.threads[u].granule.line, first, last)
                            then Revoked(s.threads[u]) else s.threads[u])
  }

  /** A region that writes the lines `first..last` and revokes everyone else. */
  lemma PlainKeepsInv(s: State, mid: State, s': State, t: Tid, first: nat, last: nat)
    requires Inv(s) && t < |s.threads| && WellFormed(mid) && SlotsAgree(mid)
    requires RevokedBetween(s, mid, t, first, last)
    requires s'.lines == mid.lines && |s'.memory| == MEMORY_SIZE
    requires |s'.threads| == |s.threads| && s.threads[t].pc.Inside? && !Midway(s.threads[t].pc)
    requires s'.threads == mid.threads[t := s.threads[t].(pc := s'.threads[t].pc)]
    requires ValidPc(s'.threads[t].pc) && Held(s'.threads[t].pc) == {} && !Midway(s'.threads[t].pc)
    requires s'.threads[t].pc.Idle? || s'.threads[t].pc.LockFirst?
    requires s'.holder == s.holder - Held(s.threads[t].pc)
    requires s'.history == s.history + [Plain(t, first, last)]
    ensures Inv(s')
  {
    LeaveKeepsSlots(mid, s', t);
    forall u, line: nat | 0 <= u < |s.threads| ensures Follows(s, s', Plain(t, first, last), u, line) { }
    RegionKeepsInv(s, s', t, Plain(t, first, last));
  }

  lemma CrossingRevokes(s: State, t: Tid, first: nat) returns (mid: State)
    requires Inv(s) && t < |s.threads| && first + 1 < LINE_COUNT
    ensures mid == Purge(Purge(s, first, Some(t)), first + 1, Some(t))
    ensures WellFormed(mid) && SlotsAgree(mid) && RevokedBetween(s, mid, t, first, first + 1)
  {
    PurgeRevokes(s, first, Some(t));
    var one := Purge(s, first, Some(t));
    PurgeRevokes(one, first + 1, Some(t));
    mid := Purge(one, first + 1, Some(t));
    RevokedTwice(s, one, mid, t, first);
  }

  lemma RevokedTwice(s: State, one: State, mid: State, t: Tid, first: nat)
    requires RevokedFrom(s, one, first, {t}) && RevokedFrom(one, mid, first + 1, {t})
    ensures RevokedBetween(s, mid, t, first, first + 1)
  {
    forall u | 0 <= u < |s.threads|
      ensures mid.threads[u] == (if u != t && LineBetween(s.threads[u].granule.line, first, first + 1)
                                 then Revoked(s.threads[u]) else s.threads[u]) {
      assert one.threads[u] == (if u != t && s.threads[u].granule.line == Some(first)
                                then Revoked(s.threads[u]) else s.threads[u]);
    }
  }

  lemma CrossingStoreKeepsInv(s: State, t: Tid, op: Op)
    requires Inv(s) && AtRegion(s, t, op) && op.Store? && Crosses(op)
    ensures Inv(StoreRegion(s, t, op))
  {
    var mid := CrossingRevokes(s, t, First(op));
    PlainKeepsInv(s, mid, StoreRegion(s, t, op), t, First(op), First(op) + 1);
  }

  lemma StoreKeepsInv(s: State, t: Tid, op: Op)
    requires Inv(s) && AtRegion(s, t, op) && op.Store?
    ensures Inv(StoreRegion(s, t, op))
  {
    if Crosses(op) {
      CrossingStoreKeepsInv(s, t, op);
    } else {
      PurgeRevokes(s, First(op), Some(t));
      PlainKeepsInv(s, Purge(s, First(op), Some(t)), StoreRegion(s, t, op), t, First(op), First(op));
    }
  }

  lemma LeaveKeepsSlots(mid: State, s': State, t: Tid)
    requires WellFormed(mid) && SlotsAgree(mid) && t < |mid.threads| == |s'.threads|
    requires s'.lines == mid.lines && |s'.memory| == MEMORY_SIZE
    requires forall u :: 0 <= u < |mid.threads| && u != t ==> s'.threads[u] == mid.threads[u]
    requires s'.threads[t].granule == mid.threads[t].granule && ValidPc(s'.threads[t].pc)
    ensures WellFormed(s') && SlotsAgree(s')
  {
    forall line | 0 <= line < LINE_COUNT ensures SlotsAgreeOn(s', line) {
      assert SlotsAgreeOn(mid, line);
    }
  }

  lemma ChunkKeepsInv(s: State, t: Tid, op: Op)
    requires Inv(s) && AtRegion(s, t, op) && op.WriteMemory?
    ensures Inv(ChunkRegion(s, t, op))
  {
    PurgeRevokes(s, First(op), Some(t));
    PlainKeepsInv(s, Purge(s, First(op), Some(t)), ChunkRegion(s, t, op), t, First(op), First(op));
  }

  lemma SuccessKeepsInv(s: State, t: Tid, op: Op)
    requires Inv(s) && AtRegion(s, t, op) && op.WriteCond?
    requires op.unconditional || Some(t) in s.lines[First(op)]
    requires !op.unconditional ==> Live(s.history, t, op.va / 128)
    ensures Inv(CondRegion(s, t, op))
  {
    var s' := CondRegion(s, t, op);
    PurgeRevokes(s, First(op), None);
    LeaveKeepsSlots(Purge(s, First(op), None), s', t);
    var e := Atomic(t, op.va, !op.unconditional);
    forall u, line: nat | 0 <= u < |s.threads| ensures Follows(s, s', e, u, line) {}
    RegionKeepsInv(s, s', t, e);
  }

  lemma CondKeepsInv(s: State, t: Tid)
    requires Inv(s) && CanStep(s, t) && s.threads[t].pc.Inside? && s.threads[t].pc.op.WriteCond?
    ensures Inv(Step(s, t))
  {
    var op := s.threads[t].pc.op;
    var line := First(op);
    assert SlotsAgreeOn(s, line) && LiveAgreesOn(s, t, line);
    MemberMeansSlot(s.lines[line], t);
    if op.unconditional || Some(t) in s.lines[line] {
      SuccessKeepsInv(s, t, op);
    } else {
      LeaveKeepsSlots(s, Step(s, t), t);
      RegionKeepsInv(s, Step(s, t), t, Failed(t, op.va));
    }
  }

  lemma MemberMeansSlot<T>(slots: SlotVector<T>, g: T)
    ensures g in Members(slots) <==> Some(g) in slots
  {
    if Some(g) in slots {
      var i :| 0 <= i < |slots| && slots[i] == Some(g);
      assert slots[i].value in Members(slots);
    }
  }

  lemma ReserveKeepsInv(s: State, t: Tid)
    requires Inv(s) && CanStep(s, t) && s.threads[t].pc.Inside? && s.threads[t].pc.op.LoadReserve?
    ensures Inv(Step(s, t))
  {
    var op, s' := s.threads[t].pc.op, Step(s, t);
    var line := First(op);
    assert SlotsAgreeOn(s, line);
    InsertAddsOne(s.lines[line], t);
    forall l | 0 <= l < LINE_COUNT ensures SlotsAgreeOn(s', l) {
      assert SlotsAgreeOn(s, l);
    }
    RegionKeepsInv(s, s', t, Reserved(t, op.va));
  }

  lemma DestroyKeepsInv(s: State, t: Tid)
    requires Inv(s) && CanStep(s, t) && s.threads[t].pc.InsideOld? && s.threads[t].pc.op.Destroy?
    ensures Inv(Step(s, t))
  {
    var prev := s.threads[t].pc.prev;
    PurgeRevokes(s, prev, None);
    LeaveKeepsSlots(Purge(s, prev, None), Step(s, t), t);
    RegionKeepsInv(s, Step(s, t), t, Retired(t, prev));
  }

  /** The drop of the old reservation by `loadReserve`, before it takes the new line. */
  lemma DroppingKeepsInv(s: State, mid: State, s': State, t: Tid)
    requires Inv(s) && t < |s.threads| && WellFormed(mid) && SlotsAgree(mid)
    requires |mid.threads| == |s.threads| && mid.threads == s.threads[t := mid.threads[t]]
    requires mid.threads[t] == s.threads[t] || mid.threads[t] == Revoked(s.threads[t])
    requires mid.threads[t].granule.line.None? && s.threads[t].pc.InsideOld?
    requires s'.lines == mid.lines && s'.memory == s.memory && s'.history == s.history
    requires |s'.threads| == |s.threads| && Midway(s'.threads[t].pc) && s'.threads[t].pc.LockFirst?
    requires s'.threads == mid.threads[t := mid.threads[t].(pc := s'.threads[t].pc)]
    requires s'.holder == s.holder - Held(s.threads[t].pc) && ValidPc(s'.threads[t].pc)
    ensures Inv(s')
  {
    LeavingKeepsLocks(s, s', t);
    LeaveKeepsSlots(mid, s', t);
    forall u, l: nat | 0 <= u < |s.threads| ensures LiveAgreesOn(s', u, l) {
      assert LiveAgreesOn(s, u, l);
    }
  }

  lemma DropKeepsInv(s: State, t: Tid)
    requires Inv(s) && CanStep(s, t) && s.threads[t].pc.InsideOld? && s.threads[t].pc.op.LoadReserve?
    ensures Inv(Step(s, t))
  {
    var line := s.threads[t].granule.line;
    if line.Some? {
      UnslotRevokes(s, line.value, t);
      DroppingKeepsInv(s, Unslot(s, line.value, t), Step(s, t), t);
    } else {
      DroppingKeepsInv(s, s, Step(s, t), t);
    }
  }

  lemma InsideKeepsInv(s: State, t: Tid)
    requires Inv(s) && CanStep(s, t) && s.threads[t].pc.Inside?
    ensures Inv(Step(s, t))
  {
    match s.threads[t].pc.op
    case Store(_, _) => StoreKeepsInv(s, t, s.threads[t].pc.op);
    case WriteMemory(_, _) => ChunkKeepsInv(s, t, s.threads[t].pc.op);
    case LoadReserve(_, _, _) => ReserveKeepsInv(s, t);
    case WriteCond(_, _, _) => CondKeepsInv(s, t);
  }

  lemma StepKeepsInv(s: State, t: Tid)
    requires Inv(s) && CanStep(s, t)
    ensures Inv(Step(s, t))
  {
    match s.threads[t].pc
    case ReadLine(_) => ReadLineKeepsInv(s, t);
    case LockOld(_, _) => LockingKeepsInv(s, t);
    case LockFirst(_) => LockingKeepsInv(s, t);
    case LockSecond(_) => LockingKeepsInv(s, t);
    case InsideOld(op, _) => if op.Destroy? { DestroyKeepsInv(s, t); } else { DropKeepsInv(s, t); }
    case Inside(_) => InsideKeepsInv(s, t);
  }

  lemma NextKeepsInv(s: State, s': State)
    requires Inv(s) && Next(s, s')
    ensures Inv(s')
  {
    if exists t, op :: Begins(s, t, op, s') {
      var t, op :| Begins(s, t, op, s');
      BeginKeepsInv(s, t, op);
    } else {
      var t :| Steps(s, t, s');
      StepKeepsInv(s, t);
    }
  }

  lemma {:induction false} RunKeepsInv(run: seq<State>, i: nat)
    requires IsRun(run) && i < |run|
    ensures Inv(run[i])
  {
    if i == 0 {
      forall line | 0 <= line < LINE_COUNT ensures SlotsAgreeOn(run[0], line) { }
    } else {
      RunKeepsInv(run, i - 1);
      NextKeepsInv(run[i - 1], run[i]);
    }
  }
}
