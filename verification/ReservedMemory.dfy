/** What the steps of the reservation protocol do to the bytes of memory, and what a reservation
    therefore guarantees about them (ps3emu/MainMemory.cpp:66-108, ps3emu/MainMemory.h:154-212). */
module ReservedMemory {
  import opened Common
  import opened ReservationProtocol
  import opened ReservationInvariants
  import opened ReservationTheorems

  /** The event is a write of the line. */
  predicate Covers(e: Event, line: nat) {
    match e
    case Plain(_, first, last) => first <= line <= last
    case Atomic(_, va, _) => va / 128 == line
    case _ => false
  }

  /** The operation has byte `b` for address `a`. */
  predicate Writes(op: Op, a: nat, b: Byte) {
    (op.Store? || op.WriteCond? || op.WriteMemory?) && op.va <= a < op.va + |op.data| && op.data[a - op.va] == b
  }

  /** `e` is the only new event; its thread was under the locks of an operation that puts the byte at
      `a`, and the event covers the line of `a`. */
  ghost predicate RecordedBy(s: State, s': State, a: nat, e: Event)
    requires a < |s'.memory|
  {
    s'.history == s.history + [e] && Covers(e, a / 128) && e.t < |s.threads| == |s'.threads| &&
    s.threads[e.t].pc.Inside? && s'.threads[e.t].pc != s.threads[e.t].pc &&
    Writes(s.threads[e.t].pc.op, a, s'.memory[a])
  }

  // ---------------------------------------------------------------- one step

  /** The region of `op` was the last thing that happened: its bytes `data` are in memory, `e` is the new
      event and the thread is at `pc`. */
  ghost predicate Effect(s: State, s': State, t: Tid, va: nat, data: seq<Byte>, e: Event, pc: Pc) {
    va + |data| <= |s.memory| && s'.memory == Splice(s.memory, va, data) && s'.history == s.history + [e] &&
    t < |s.threads| == |s'.threads| && s'.threads[t].pc == pc
  }

  function StoreEvent(t: Tid, op: Op): Event
    requires op.Store?
  {
    Plain(t, First(op), if Crosses(op) then First(op) + 1 else First(op))
  }

  lemma StoreEffect(s: State, t: Tid, op: Op)
    requires AtRegion(s, t, op) && op.Store?
    ensures Effect(s, StoreRegion(s, t, op), t, op.va, op.data, StoreEvent(t, op), Idle)
  {
    var one := Purge(s, First(op), Some(t));
    assert |one.threads| == |s.threads| && one.history == s.history && one.memory == s.memory;
  }

  lemma ChunkEffect(s: State, t: Tid, op: Op)
    requires AtRegion(s, t, op) && op.WriteMemory?
    ensures var n := ChunkSize(op.va, |op.data|);
      Effect(s, ChunkRegion(s, t, op), t, op.va, op.data[..n], Plain(t, First(op), First(op)),
             LoopPc(WriteMemory(op.va + n, op.data[n..])))
  {}

  lemma CondEffect(s: State, t: Tid, op: Op)
    requires AtRegion(s, t, op) && op.WriteCond?
    ensures var s' := CondRegion(s, t, op);
      t < |s'.threads| &&
      if s'.threads[t].stored then Effect(s, s', t, op.va, op.data, Atomic(t, op.va, !op.unconditional), Idle)
      else s'.memory == s.memory
  {}

  /** A byte that such a region changes is one of its own, on a line of its event. */
  lemma EffectIsRecorded(s: State, s': State, t: Tid, op: Op, data: seq<Byte>, e: Event, pc: Pc, a: nat)
    requires op.Store? || op.WriteCond? || op.WriteMemory?
    requires Effect(s, s', t, op.va, data, e, pc) && t < |s.threads| && s.threads[t].pc == Inside(op) && e.t == t
    requires data <= op.data && pc != Inside(op)
    requires a < |s'.memory| && s'.memory[a] != s.memory[a]
    requires op.va <= a < op.va + |data| ==> Covers(e, a / 128)
    ensures RecordedBy(s, s', a, e)
  {
    assert op.va <= a < op.va + |data|;
  }

  lemma StoreCovers(t: Tid, op: Op, a: nat)
    requires op.Store? && |op.data| <= 16 && op.va <= a < op.va + |op.data|
    ensures Covers(StoreEvent(t, op), a / 128)
  {}

  lemma StoreIsRecorded(s: State, t: Tid, op: Op, a: nat)
    requires AtRegion(s, t, op) && op.Store? && a < MEMORY_SIZE && StoreRegion(s, t, op).memory[a] != s.memory[a]
    ensures RecordedBy(s, StoreRegion(s, t, op), a, StoreEvent(t, op))
  {
    StoreEffect(s, t, op);
    assert ValidThread(s.threads[t]);
    if op.va <= a < op.va + |op.data| {
      StoreCovers(t, op, a);
    }
    EffectIsRecorded(s, StoreRegion(s, t, op), t, op, op.data, StoreEvent(t, op), Idle, a);
  }

  lemma ChunkIsRecorded(s: State, t: Tid, op: Op, a: nat)
    requires AtRegion(s, t, op) && op.WriteMemory? && a < MEMORY_SIZE && ChunkRegion(s, t, op).memory[a] != s.memory[a]
    ensures RecordedBy(s, ChunkRegion(s, t, op), a, Plain(t, First(op), First(op)))
  {
    var n := ChunkSize(op.va, |op.data|);
    ChunkEffect(s, t, op);
    ChunkOnLine(op.va, |op.data|);
    EffectIsRecorded(s, ChunkRegion(s, t, op), t, op, op.data[..n], Plain(t, First(op), First(op)),
                     LoopPc(WriteMemory(op.va + n, op.data[n..])), a);
  }

  lemma ChunkOnLine(va: nat, len: nat)
    ensures var n := ChunkSize(va, len);
      n <= len && (len > 0 ==> n > 0 && (va + n - 1) / 128 == va / 128) && (n < len ==> (va + n) % 128 == 0)
    ensures forall a :: va <= a < va + ChunkSize(va, len) ==> a / 128 == va / 128
  {}

  lemma CondIsRecorded(s: State, t: Tid, op: Op, a: nat)
    requires AtRegion(s, t, op) && op.WriteCond? && a < MEMORY_SIZE && CondRegion(s, t, op).memory[a] != s.memory[a]
    ensures RecordedBy(s, CondRegion(s, t, op), a, Atomic(t, op.va, !op.unconditional))
  {
    CondEffect(s, t, op);
    assert ValidThread(s.threads[t]);
    EffectIsRecorded(s, CondRegion(s, t, op), t, op, op.data, Atomic(t, op.va, !op.unconditional), Idle, a);
  }

  lemma StepIsRecorded(s: State, t: Tid, a: nat) returns (e: Event)
    requires WellFormed(s) && CanStep(s, t) && a < MEMORY_SIZE
    requires |Step(s, t).memory| == MEMORY_SIZE && Step(s, t).memory[a] != s.memory[a]
    ensures RecordedBy(s, Step(s, t), a, e)
  {
    var op := s.threads[t].pc.op;
    match op
    case Store(_, _) =>
      e := StoreEvent(t, op);
      StoreIsRecorded(s, t, op, a);
    case WriteMemory(_, _) =>
      e := Plain(t, First(op), First(op));
      ChunkIsRecorded(s, t, op, a);
    case WriteCond(_, _, _) =>
      e := Atomic(t, op.va, !op.unconditional);
      CondIsRecorded(s, t, op, a);
    case _ =>
      assert false;
  }

  function ByteAt(s: State, a: nat): Byte {
    if a < |s.memory| then s.memory[a] else 0
  }

  /** Whenever a byte changes, whichever thread moves, the history grows by exactly one event: a write
      by that thread that covers the line of the byte. */
  lemma ByteChangesAreRecorded(run: seq<State>, i: nat, a: nat) returns (e: Event)
    requires IsRun(run) && i + 1 < |run| && ByteAt(run[i], a) != ByteAt(run[i + 1], a)
    ensures a < |run[i + 1].memory| && RecordedBy(run[i], run[i + 1], a, e)
  {
    RunKeepsInv(run, i);
    RunKeepsInv(run, i + 1);
    var s, s' := run[i], run[i + 1];
    assert Next(s, s');
    var t :| Steps(s, t, s');
    e := StepIsRecorded(s, t, a);
  }

  // ---------------------------------------------------------------- what an operation writes

  /** What the region under the locks does to memory: the bytes of the operation are written, those of
      `writeMemory` up to the end of the line at most, and nothing else; `loadReserve` reads its bytes
      and leaves the granule with the line and the callback. */
  ghost predicate RegionDone(op: Op, s: State, s': State, t: Tid)
    requires t < |s.threads| == |s'.threads| && |s.memory| == MEMORY_SIZE && ValidOp(op)
  {
    match op
    case Store(va, data) => s'.memory == Splice(s.memory, va, data)
    case WriteCond(va, data, _) => s'.memory == if s'.threads[t].stored then Splice(s.memory, va, data) else s.memory
    case LoadReserve(va, len, notify) =>
      var th, th' := s.threads[t], s'.threads[t];
      s'.memory == s.memory && th'.loaded == Some(Loaded(va, s.memory[va..va + len])) &&
      th'.granule == Granule(Some(va / 128), notify) && th'.fired == th.fired &&
      th'.registered == th.registered + if notify.Some? then [notify.value] else []
    case WriteMemory(va, data) => exists n: nat :: ChunkDone(va, data, n, s, s', t)
    case Destroy => false
  }

  ghost predicate ChunkDone(va: nat, data: seq<Byte>, n: nat, s: State, s': State, t: Tid)
    requires t < |s'.threads| && va + |data| <= MEMORY_SIZE == |s.memory|
  {
    0 < n <= |data| && (va + n - 1) / 128 == va / 128 && (n < |data| ==> (va + n) % 128 == 0) &&
    s'.memory == Splice(s.memory, va, data[..n]) &&
    s'.threads[t].pc == if n == |data| then Idle else LockFirst(WriteMemory(va + n, data[n..]))
  }

  lemma ChunkIsDone(s: State, t: Tid, va: nat, data: seq<Byte>)
    requires AtRegion(s, t, WriteMemory(va, data)) && data != []
    ensures ChunkDone(va, data, ChunkSize(va, |data|), s, ChunkRegion(s, t, WriteMemory(va, data)), t)
  {
    assert ValidThread(s.threads[t]);
    ChunkEffect(s, t, WriteMemory(va, data));
    ChunkOnLine(va, |data|);
  }

  lemma RegionIsDone(s: State, t: Tid)
    requires WellFormed(s) && CanStep(s, t) && s.threads[t].pc.Inside?
    requires s.threads[t].pc.op.WriteMemory? ==> s.threads[t].pc.op.data != []
    ensures |Step(s, t).threads| == |s.threads| && RegionDone(s.threads[t].pc.op, s, Step(s, t), t)
  {
    var op := s.threads[t].pc.op;
    if op.WriteMemory? {
      ChunkIsDone(s, t, op.va, op.data);
    } else if op.Store? {
      StoreEffect(s, t, op);
    } else if op.WriteCond? {
      CondEffect(s, t, op);
    }
  }

  /** A step of another thread leaves the place of a thread alone. */
  lemma OthersKeepPc(s: State, u: Tid, t: Tid)
    requires WellFormed(s) && CanStep(s, u) && t < |s.threads| && t != u
    ensures |Step(s, u).threads| == |s.threads| && Step(s, u).threads[t].pc == s.threads[t].pc
  {
    if s.threads[u].pc.Inside? {
      OthersKeepPcInside(s, u, t);
    }
  }

  lemma OthersKeepPcInside(s: State, u: Tid, t: Tid)
    requires WellFormed(s) && CanStep(s, u) && t < |s.threads| && t != u && s.threads[u].pc.Inside?
    ensures |Step(s, u).threads| == |s.threads| && Step(s, u).threads[t].pc == s.threads[t].pc
  {
    var op := s.threads[u].pc.op;
    if op.Store? {
      assert Step(s, u) == StoreRegion(s, u, op);
    }
  }

  /** A thread that is in the loop of `writeMemory` has something left to write. */
  predicate HasMore(pc: Pc) {
    (pc.LockFirst? || pc.LockSecond? || pc.Inside?) && pc.op.WriteMemory? ==> pc.op.data != []
  }

  ghost predicate AllHaveMore(s: State) {
    forall t :: 0 <= t < |s.threads| ==> HasMore(s.threads[t].pc)
  }

  lemma StepHasMore(s: State, u: Tid)
    requires WellFormed(s) && CanStep(s, u) && HasMore(s.threads[u].pc)
    ensures u < |Step(s, u).threads| && HasMore(Step(s, u).threads[u].pc)
  {
    if s.threads[u].pc.Inside? && s.threads[u].pc.op.WriteMemory? {
      ChunkIsDone(s, u, s.threads[u].pc.op.va, s.threads[u].pc.op.data);
    }
  }

  lemma NextHasMore(s: State, s': State)
    requires Inv(s) && AllHaveMore(s) && Next(s, s')
    ensures AllHaveMore(s')
  {
    if exists t, op :: Begins(s, t, op, s') {
      var t, op :| Begins(s, t, op, s');
    } else {
      var u :| Steps(s, u, s');
      StepHasMore(s, u);
      forall t | 0 <= t < |s'.threads| && t != u ensures HasMore(s'.threads[t].pc) {
        NextKeepsCount(s, u);
        OthersKeepPc(s, u, t);
      }
    }
  }

  lemma NextKeepsCount(s: State, u: Tid)
    requires WellFormed(s) && CanStep(s, u)
    ensures |Step(s, u).threads| == |s.threads|
  {}

  lemma InitHasMore(s: State)
    requires Init(s)
    ensures AllHaveMore(s)
  {}

  lemma NextInRun(run: seq<State>, i: nat)
    requires IsRun(run) && i + 1 < |run|
    ensures Inv(run[i]) && Next(run[i], run[i + 1])
  {
    RunKeepsInv(run, i);
  }

  lemma MoreInRun(run: seq<State>, i: nat)
    requires IsRun(run) && i + 1 < |run|
    ensures AllHaveMore(run[i]) ==> AllHaveMore(run[i + 1])
  {
    NextInRun(run, i);
    if AllHaveMore(run[i]) {
      NextHasMore(run[i], run[i + 1]);
    }
  }

  lemma {:induction false} RunHasMore(run: seq<State>, i: nat)
    requires IsRun(run) && i < |run|
    ensures AllHaveMore(run[i])
  {
    if i == 0 {
      InitHasMore(run[0]);
    } else {
      RunHasMore(run, i - 1);
      MoreInRun(run, i - 1);
    }
  }

  /** In every run a region under the locks does to memory what its operation says, whatever the other
      threads are about. */
  lemma RegionWrites(run: seq<State>, i: nat, t: Tid)
    requires IsRun(run) && i + 1 < |run| && t < |run[i].threads| == |run[i + 1].threads|
    requires run[i].threads[t].pc.Inside? && run[i + 1].threads[t].pc != run[i].threads[t].pc
    ensures |run[i].memory| == MEMORY_SIZE && ValidOp(run[i].threads[t].pc.op)
    ensures RegionDone(run[i].threads[t].pc.op, run[i], run[i + 1], t)
  {
    RunKeepsInv(run, i);
    RunHasMore(run, i);
    var s, s' := run[i], run[i + 1];
    assert ValidThread(s.threads[t]) && HasMore(s.threads[t].pc);
    assert Next(s, s');
    MoverChangesPc(s, s', t);
    RegionIsDone(s, t);
  }

  lemma MoverChangesPc(s: State, s': State, t: Tid)
    requires WellFormed(s) && Next(s, s') && t < |s.threads| == |s'.threads| && s.threads[t].pc.Inside?
    ensures Steps(s, t, s') || s'.threads[t].pc == s.threads[t].pc
  {
    if exists u, op :: Begins(s, u, op, s') {
      var u, op :| Begins(s, u, op, s');
    } else {
      var u :| Steps(s, u, s');
      if u != t {
        OthersKeepPc(s, u, t);
      }
    }
  }

  // ---------------------------------------------------------------- no event without a write

  predicate Touches(op: Op, a: nat) {
    (op.Store? || op.WriteCond? || op.WriteMemory?) && op.va <= a < op.va + |op.data|
  }

  ghost predicate TouchesLine(op: Op, line: nat) {
    exists a: nat :: Touches(op, a) && a / 128 == line
  }

  lemma StoreTouches(t: Tid, op: Op, line: nat)
    requires op.Store? && 0 < |op.data| <= 16 && Covers(StoreEvent(t, op), line)
    ensures TouchesLine(op, line)
  {
    var a := if line == op.va / 128 then op.va else line * 128;
    assert Touches(op, a) && a / 128 == line;
  }

  lemma FirstIsTouched(op: Op)
    requires (op.WriteCond? || op.WriteMemory?) && op.data != []
    ensures TouchesLine(op, op.va / 128)
  {
    assert Touches(op, op.va);
  }

  lemma RegionIsTight(s: State, t: Tid, e: Event, line: nat)
    requires WellFormed(s) && CanStep(s, t) && s.threads[t].pc.Inside? && HasMore(s.threads[t].pc)
    requires Step(s, t).history == s.history + [e] && Covers(e, line)
    ensures e.t == t && TouchesLine(s.threads[t].pc.op, line)
  {
    var op, s' := s.threads[t].pc.op, Step(s, t);
    assert ValidThread(s.threads[t]) && s'.history[|s.history|] == e;
    match op
    case Store(_, _) =>
      StoreEffect(s, t, op);
      StoreTouches(t, op, line);
    case WriteMemory(_, _) =>
      ChunkEffect(s, t, op);
      FirstIsTouched(op);
    case WriteCond(_, _, _) =>
      CondEffect(s, t, op);
      FirstIsTouched(op);
    case LoadReserve(_, _, _) =>
  }

  lemma OnlyRegionsWrite(s: State, t: Tid, e: Event, line: nat)
    requires WellFormed(s) && CanStep(s, t) && !s.threads[t].pc.Inside? && Step(s, t).history == s.history + [e]
    ensures !Covers(e, line)
  {
    assert Step(s, t).history[|s.history|] == e;
  }

  /** What EventsAreTight says of one step. */
  ghost predicate IsTight(s: State, e: Event, line: nat) {
    e.t < |s.threads| && s.threads[e.t].pc.Inside? && TouchesLine(s.threads[e.t].pc.op, line)
  }

  lemma StepIsTight(s: State, t: Tid, e: Event, line: nat)
    requires WellFormed(s) && CanStep(s, t) && HasMore(s.threads[t].pc)
    requires Step(s, t).history == s.history + [e] && Covers(e, line)
    ensures IsTight(s, e, line)
  {
    if s.threads[t].pc.Inside? {
      RegionIsTight(s, t, e, line);
    } else {
      OnlyRegionsWrite(s, t, e, line);
    }
  }

  lemma NextIsTight(s: State, s': State, e: Event, line: nat)
    requires WellFormed(s) && AllHaveMore(s) && Next(s, s') && s'.history == s.history + [e] && Covers(e, line)
    ensures IsTight(s, e, line)
  {
    var t :| Steps(s, t, s');
    StepIsTight(s, t, e, line);
  }

  /** The converse of ByteChangesAreRecorded: an event that says a line is written is made only by a
      thread under the locks of an operation with a byte on that line. So no line is named, and no
      reservation revoked, in vain. */
  lemma EventsAreTight(run: seq<State>, i: nat, e: Event, line: nat)
    requires IsRun(run) && i + 1 < |run| && run[i + 1].history == run[i].history + [e] && Covers(e, line)
    ensures e.t < |run[i].threads| && run[i].threads[e.t].pc.Inside?
    ensures TouchesLine(run[i].threads[e.t].pc.op, line)
  {
    RunKeepsInv(run, i);
    RunHasMore(run, i);
    assert Next(run[i], run[i + 1]);
    NextIsTight(run[i], run[i + 1], e, line);
  }

  // ---------------------------------------------------------------- writeMemory alone

  ghost predicate IsSolo(run: seq<State>, t: Tid) {
    run != [] && forall i :: 0 <= i < |run| - 1 ==> Steps(run[i], t, run[i + 1])
  }

  /** What is left to do from state `k` on is `op`. */
  ghost predicate AtLoop(s: State, t: Tid, va: nat, data: seq<Byte>) {
    WellFormed(s) && t < |s.threads| && ValidOp(WriteMemory(va, data)) &&
    s.threads[t].pc == LoopPc(WriteMemory(va, data))
  }

  /** One round of the loop: the lock and the region. */
  lemma OneRound(run: seq<State>, t: Tid, k: nat, va: nat, data: seq<Byte>) returns (n: nat)
    requires IsSolo(run, t) && k + 2 < |run| && AtLoop(run[k], t, va, data) && data != []
    ensures 0 < n <= |data| && va + |data| <= MEMORY_SIZE == |run[k].memory|
    ensures AtLoop(run[k + 2], t, va + n, data[n..]) && run[k + 2].memory == Splice(run[k].memory, va, data[..n])
  {
    var op := WriteMemory(va, data);
    assert Steps(run[k], t, run[k + 1]) && run[k + 1].threads[t].pc == Inside(op);
    assert Steps(run[k + 1], t, run[k + 1 + 1]);
    n := ChunkSize(va, |data|);
    ChunkIsDone(run[k + 1], t, va, data);
    RoundKeepsForm(run[k + 1], t, va, data);
  }

  lemma RoundKeepsForm(s: State, t: Tid, va: nat, data: seq<Byte>)
    requires AtRegion(s, t, WriteMemory(va, data)) && data != [] && ValidOp(WriteMemory(va, data))
    ensures WellFormed(ChunkRegion(s, t, WriteMemory(va, data)))
  {}

  /** `writeMemory` by a thread that is alone ends with the whole buffer in memory and nothing else
      changed. */
  lemma {:induction false} SoloWriteMemory(run: seq<State>, t: Tid, k: nat, va: nat, data: seq<Byte>)
    requires IsSolo(run, t) && k < |run| && AtLoop(run[k], t, va, data)
    requires t < |run[|run| - 1].threads| && run[|run| - 1].threads[t].pc.Idle?
    ensures va + |data| <= MEMORY_SIZE == |run[k].memory|
    ensures run[|run| - 1].memory == Splice(run[k].memory, va, data)
    decreases |run| - k
  {
    if data == [] {
      SpliceNothing(run[k].memory, va);
      StepsIfNotLast(run, t, k);
    } else {
      assert k < |run| - 1;
      assert Steps(run[k], t, run[k + 1]) && run[k + 1].threads[t].pc.Inside?;
      assert k + 1 < |run| - 1;
      var n := OneRound(run, t, k, va, data);
      SoloWriteMemory(run, t, k + 2, va + n, data[n..]);
      SpliceTwice(run[k].memory, va, data, n);
    }
  }

  lemma StepsIfNotLast(run: seq<State>, t: Tid, k: nat)
    requires IsSolo(run, t) && k < |run|
    ensures k + 1 < |run| ==> CanStep(run[k], t)
  {
    if k + 1 < |run| {
      assert Steps(run[k], t, run[k + 1]);
    }
  }

  lemma SpliceTwice(memory: seq<Byte>, va: nat, data: seq<Byte>, n: nat)
    requires n <= |data| && va + |data| <= |memory|
    ensures Splice(Splice(memory, va, data[..n]), va + n, data[n..]) == Splice(memory, va, data)
  {}

  // ---------------------------------------------------------------- what a reservation guarantees

  lemma NextKeepsHistory(s: State, s': State)
    requires Inv(s) && Next(s, s')
    ensures s.history <= s'.history && |s'.history| <= |s.history| + 1
  {
    if exists t, op :: Begins(s, t, op, s') {
      var t, op :| Begins(s, t, op, s');
    } else {
      var t :| Steps(s, t, s');
      StepKeepsHistory(s, t);
    }
  }

  lemma StepKeepsHistory(s: State, t: Tid)
    requires WellFormed(s) && CanStep(s, t)
    ensures s.history <= Step(s, t).history && |Step(s, t).history| <= |s.history| + 1
  {}

  lemma HistoryInRun(run: seq<State>, i: nat)
    requires IsRun(run) && i + 1 < |run|
    ensures run[i].history <= run[i + 1].history && |run[i + 1].history| <= |run[i].history| + 1
  {
    NextInRun(run, i);
    NextKeepsHistory(run[i], run[i + 1]);
  }

  function Histories(run: seq<State>): (r: seq<seq<Event>>)
    ensures |r| == |run| && forall i :: 0 <= i < |run| ==> r[i] == run[i].history
  {
    seq(|run|, i requires 0 <= i < |run| => run[i].history)
  }

  /** The history grows by at most one event at a time. */
  ghost predicate Grows(hs: seq<seq<Event>>) {
    forall i, j :: 0 <= i && j == i + 1 < |hs| ==> hs[i] <= hs[j] && |hs[j]| <= |hs[i]| + 1
  }

  lemma HistoriesGrow(run: seq<State>)
    requires IsRun(run)
    ensures Grows(Histories(run)) && Histories(run)[0] == []
  {
    forall i, j | 0 <= i && j == i + 1 < |run|
      ensures run[i].history <= run[j].history && |run[j].history| <= |run[i].history| + 1
    {
      HistoryInRun(run, i);
    }
  }

  lemma {:induction false} HistoryIsKept(hs: seq<seq<Event>>, i: nat, k: nat)
    requires Grows(hs) && i <= k < |hs|
    ensures hs[i] <= hs[k]
    decreases k
  {
    if i < k {
      HistoryIsKept(hs, i, k - 1);
      assert hs[k - 1] <= hs[k];
    }
  }

  /** The step that made event `j`. */
  lemma {:induction false} StepOfEvent(hs: seq<seq<Event>>, i: nat, j: nat) returns (m: nat)
    requires Grows(hs) && i < |hs| && hs[0] == [] && j < |hs[i]|
    ensures m < i && |hs[m]| == j && |hs[m + 1]| == j + 1
  {
    if j < |hs[i - 1]| {
      m := StepOfEvent(hs, i - 1, j);
    } else {
      m := i - 1;
    }
  }

  /** Exactly one event was added, one of `t`. */
  ghost predicate OwnEvent(before: seq<Event>, after: seq<Event>, t: Tid) {
    |after| == |before| + 1 && before <= after && after[|before|].t == t
  }

  /** Step `x` changes no byte of the line, unless it is one of thread `t` itself. */
  ghost predicate LeavesLine(run: seq<State>, x: nat, line: nat, t: Tid)
    requires x + 1 < |run|
  {
    forall a :: a / 128 == line && ByteAt(run[x], a) != ByteAt(run[x + 1], a) ==>
      OwnEvent(run[x].history, run[x + 1].history, t)
  }

  /** When a conditional store succeeds, then since a `loadReserve` of the same thread on the line no step
      of another thread has changed any byte of it. */
  lemma SuccessMeansUntouched(run: seq<State>, i: nat, t: Tid, va: nat) returns (m: nat)
    requires IsRun(run) && i + 1 < |run| && run[i + 1].history == run[i].history + [Atomic(t, va, true)]
    ensures m < i && |run[m + 1].history| == |run[m].history| + 1
    ensures Funds(run[m + 1].history[|run[m].history|], t, va / 128)
    ensures forall x :: m < x < i ==> LeavesLine(run, x, va / 128, t)
  {
    var j := FundingOfSuccess(run, i, t, va);
    HistoriesGrow(run);
    m := ReservedAt(Histories(run), i, j);
    LinesAreLeft(run, Histories(run), i, t, va / 128, j, m);
  }

  /** Event `j` was made by step `m`; from then on it is in the history. */
  ghost predicate MadeBy(hs: seq<seq<Event>>, i: nat, j: nat, m: nat) {
    m < i < |hs| && |hs[m]| == j && |hs[m + 1]| == j + 1 && hs[m + 1] <= hs[i] &&
    forall x :: m < x < i ==> InHistory(hs, i, j, x)
  }

  ghost predicate InHistory(hs: seq<seq<Event>>, i: nat, j: nat, x: nat)
    requires x < i < |hs|
  {
    j < |hs[x]| && hs[x + 1] <= hs[i]
  }

  lemma ReservedAt(hs: seq<seq<Event>>, i: nat, j: nat) returns (m: nat)
    requires Grows(hs) && i < |hs| && hs[0] == [] && j < |hs[i]|
    ensures MadeBy(hs, i, j, m)
  {
    m := StepOfEvent(hs, i, j);
    HistoryIsKept(hs, m + 1, i);
    forall x | m < x < i ensures InHistory(hs, i, j, x) {
      HistoryIsKept(hs, m + 1, x);
      HistoryIsKept(hs, x + 1, i);
    }
  }

  lemma LinesAreLeft(run: seq<State>, hs: seq<seq<Event>>, i: nat, t: Tid, line: nat, j: nat, m: nat)
    requires IsRun(run) && hs == Histories(run) && MadeBy(hs, i, j, m) && FundedAt(run[i].history, t, line, j)
    ensures forall x :: m < x < i ==> LeavesLine(run, x, line, t)
  {
    forall x | m < x < i ensures LeavesLine(run, x, line, t) {
      assert InHistory(hs, i, j, x);
      LineIsLeft(run, i, t, line, j, x);
    }
  }

  lemma FundingOfSuccess(run: seq<State>, i: nat, t: Tid, va: nat) returns (j: nat)
    requires IsRun(run) && i + 1 < |run| && run[i + 1].history == run[i].history + [Atomic(t, va, true)]
    ensures FundedAt(run[i].history, t, va / 128, j)
  {
    var h, k := run[i + 1].history, |run[i].history|;
    ConditionalStoreIsExact(run, i + 1, k);
    assert h[k] == Atomic(t, va, true) && h[..k] == run[i].history;
    j :| FundedAt(run[i].history, t, va / 128, j);
  }

  lemma LineIsLeft(run: seq<State>, i: nat, t: Tid, line: nat, j: nat, x: nat)
    requires IsRun(run) && x < i < |run| && FundedAt(run[i].history, t, line, j)
    requires j < |run[x].history| && run[x + 1].history <= run[i].history
    ensures LeavesLine(run, x, line, t)
  {
    forall a | a / 128 == line && ByteAt(run[x], a) != ByteAt(run[x + 1], a)
      ensures OwnEvent(run[x].history, run[x + 1].history, t)
    {
      var e := ChangeIsCovered(run, x, a);
      LaterEventIsOwn(run[x].history, run[x + 1].history, run[i].history, t, line, j, e);
    }
  }

  lemma ChangeIsCovered(run: seq<State>, i: nat, a: nat) returns (e: Event)
    requires IsRun(run) && i + 1 < |run| && ByteAt(run[i], a) != ByteAt(run[i + 1], a)
    ensures run[i + 1].history == run[i].history + [e] && Covers(e, a / 128)
  {
    e := ByteChangesAreRecorded(run, i, a);
  }

  lemma LaterEventIsOwn(before: seq<Event>, after: seq<Event>, all: seq<Event>, t: Tid, line: nat, j: nat, e: Event)
    requires FundedAt(all, t, line, j) && j < |before| && after == before + [e] && after <= all && Covers(e, line)
    ensures OwnEvent(before, after, t)
  {
    var q := |before|;
    assert all[q] == after[q] == e;
    assert !Ends(all[q], t, line);
  }
}
