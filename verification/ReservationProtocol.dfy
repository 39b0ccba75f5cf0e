/** Lock-line reservations as a step machine (ps3emu/MainMemory.h:154-212,
    ps3emu/MainMemory.cpp:28-108, ps3emu/ReservationMap.h).

    Every lock acquisition is one step and every region run under the locks is one step.
    `loadReserve` takes three regions: the unlocked read of `granule->line`, the locked drop of
    the old reservation, and the locked read and insert. `writeMemory` takes one region per line.
    Any thread may move at any time, so a run is an arbitrary interleaving. */
module ReservationProtocol {
  import opened Common
  import opened Slots

  const LINE_COUNT: nat := 0xffffffff / 128
  const MEMORY_SIZE: nat := LINE_COUNT * 128

  type Tid = nat

  datatype Granule = Granule(line: Option<nat>, notify: Option<Callback>)

  datatype Op =
    | Store(va: nat, data: seq<Byte>)
    | LoadReserve(va: nat, len: nat, notify: Option<Callback>)
    | WriteCond(va: nat, data: seq<Byte>, unconditional: bool)
    | WriteMemory(va: nat, data: seq<Byte>)
    | Destroy  // the destructor of the thread's granule

  datatype Pc =
    | Idle
    | ReadLine(op: Op)
    | LockOld(op: Op, prev: nat)
    | InsideOld(op: Op, prev: nat)
    | LockFirst(op: Op)
    | LockSecond(op: Op)
    | Inside(op: Op)
    | Gone

  datatype Loaded = Loaded(va: nat, bytes: seq<Byte>)

  datatype Thread = Thread(
    pc: Pc, granule: Granule, loaded: Option<Loaded>, stored: bool,
    registered: seq<Callback>, fired: seq<Callback>)

  /** What an observer of the memory sees, in the order of the regions under the locks. */
  datatype Event =
    | Reserved(t: Tid, va: nat)
    | Plain(t: Tid, first: nat, last: nat)           // a store or a chunk of `writeMemory`
    | Atomic(t: Tid, va: nat, conditional: bool)     // a `writeCond` that stored
    | Failed(t: Tid, va: nat)                        // a `writeCond` that did not
    | Retired(t: Tid, line: nat)                     // a granule destroyed with its line

  datatype State = State(
    threads: seq<Thread>,
    holder: map<nat, Tid>,             // which thread holds which line lock
    lines: seq<SlotVector<Tid>>,
    memory: seq<Byte>,
    history: seq<Event>)

  // ---------------------------------------------------------------- operations and their lines

  /** What the assertions of the source demand of a call; memory is flat and in range. */
  predicate ValidOp(op: Op) {
    match op
    case Store(va, data) => |data| in {1, 2, 4, 8, 16} && va + |data| <= MEMORY_SIZE
    case LoadReserve(va, len, _) => len in {4, 8, 128} && va % len == 0 && va + len <= MEMORY_SIZE
    case WriteCond(va, data, _) =>
      |data| in {4, 8, 128} && va % 128 + |data| <= 128 && va + |data| <= MEMORY_SIZE
    case WriteMemory(va, data) => va + |data| <= MEMORY_SIZE
    case Destroy => true
  }

  function First(op: Op): nat
    requires !op.Destroy?
  {
    op.va / 128
  }

  predicate Crosses(op: Op) {
    op.Store? && op.va % 128 + |op.data| > 128
  }

  function Held(pc: Pc): set<nat> {
    match pc
    case InsideOld(_, prev) => {prev}
    case LockSecond(op) => if op.Destroy? then {} else {First(op)}
    case Inside(op) =>
      if op.Destroy? then {} else if Crosses(op) then {First(op), First(op) + 1} else {First(op)}
    case _ => {}
  }

  predicate ValidPc(pc: Pc) {
    match pc
    case Idle => true
    case Gone => true
    case ReadLine(op) => (op.LoadReserve? || op.Destroy?) && ValidOp(op)
    case LockOld(op, prev) => (op.LoadReserve? || op.Destroy?) && ValidOp(op) && prev < LINE_COUNT
    case InsideOld(op, prev) => (op.LoadReserve? || op.Destroy?) && ValidOp(op) && prev < LINE_COUNT
    case LockFirst(op) => !op.Destroy? && ValidOp(op) && First(op) < LINE_COUNT
    case LockSecond(op) => Crosses(op) && ValidOp(op) && First(op) + 1 < LINE_COUNT
    case Inside(op) =>
      (&& !op.Destroy? && ValidOp(op) && First(op) < LINE_COUNT
       && (Crosses(op) ==> First(op) + 1 < LINE_COUNT))
  }

  predicate ValidThread(th: Thread) {
    && ValidPc(th.pc)
    && (th.granule.line.Some? ==> th.granule.line.value < LINE_COUNT)
  }

  ghost predicate WellFormed(s: State) {
    && |s.lines| == LINE_COUNT
    && |s.memory| == MEMORY_SIZE
    && (forall t :: 0 <= t < |s.threads| ==> ValidThread(s.threads[t]))
  }

  // ---------------------------------------------------------------- the slot operations

  /** `notify(granule); granule->line = nullptr` (ReservationMap.h:21-26). */
  function Revoked(th: Thread): Thread {
    th.(granule := Granule(None, None),
        fired := th.fired + (if th.granule.notify.Some? then [th.granule.notify.value] else []))
  }

  function RevokeAll(threads: seq<Thread>, victims: set<Tid>): (r: seq<Thread>)
    ensures |r| == |threads|
    ensures forall u :: 0 <= u < |threads| ==>
      r[u] == if u in victims then Revoked(threads[u]) else threads[u]
  {
    seq(|threads|, u requires 0 <= u < |threads| =>
      if u in victims then Revoked(threads[u]) else threads[u])
  }

  /** `clearExcept(keep)` on a line, or `clear()` when nothing is kept. */
  function Purge(s: State, line: nat, keep: Option<Tid>): State
    requires line < |s.lines|
  {
    var slots := s.lines[line];
    var kept := if keep.Some? then {keep.value} else {};
    s.(threads := RevokeAll(s.threads, Members(slots) - kept),
       lines := s.lines[line := if keep.Some? then ClearExcept(slots, keep.value) else []])
  }

  /** `clearOne(t)` on a line. */
  function Unslot(s: State, line: nat, t: Tid): State
    requires line < |s.lines|
  {
    var slots := s.lines[line];
    s.(threads := RevokeAll(s.threads, Members(slots) * {t}),
       lines := s.lines[line := ClearOne(slots, t)])
  }

  // ---------------------------------------------------------------- the steps

  function WithPc(s: State, t: Tid, pc: Pc): State
    requires t < |s.threads|
  {
    s.(threads := s.threads[t := s.threads[t].(pc := pc)])
  }

  predicate CanBegin(s: State, t: Tid, op: Op) {
    t < |s.threads| && s.threads[t].pc.Idle? && ValidOp(op)
  }

  /** The loop of `writeMemory` ends, or goes round once more. */
  function LoopPc(op: Op): Pc
    requires op.WriteMemory?
  {
    if op.data == [] then Idle else LockFirst(op)
  }

  function Begin(s: State, t: Tid, op: Op): State
    requires CanBegin(s, t, op)
  {
    WithPc(s, t,
      if op.LoadReserve? || op.Destroy? then ReadLine(op)
      else if op.WriteMemory? then LoopPc(op)
      else LockFirst(op))
  }

  predicate CanStep(s: State, t: Tid) {
    t < |s.threads| &&
    match s.threads[t].pc
    case Idle => false
    case Gone => false
    case LockOld(_, prev) => prev !in s.holder
    case LockFirst(op) => !op.Destroy? && First(op) !in s.holder
    case LockSecond(op) => !op.Destroy? && First(op) + 1 !in s.holder
    case _ => true
  }

  function Acquire(s: State, t: Tid, line: nat, pc: Pc): State
    requires t < |s.threads|
  {
    WithPc(s, t, pc).(holder := s.holder[line := t])
  }

  /** Release every lock held by `t` and go to `pc`. */
  function Leave(s: State, t: Tid, pc: Pc): State
    requires t < |s.threads|
  {
    WithPc(s, t, pc).(holder := s.holder - Held(s.threads[t].pc))
  }

  function Record(s: State, e: Event): State {
    s.(history := s.history + [e])
  }

  ghost function Step(s: State, t: Tid): State
    requires WellFormed(s) && CanStep(s, t)
  {
    match s.threads[t].pc
    case ReadLine(op) =>
      var line := s.threads[t].granule.line;
      WithPc(s, t,
        if line.Some? then LockOld(op, line.value) else if op.Destroy? then Gone else LockFirst(op))
    case LockOld(op, prev) => Acquire(s, t, prev, InsideOld(op, prev))
    case InsideOld(op, prev) =>
      if op.Destroy? then
        Leave(Record(Purge(s, prev, None), Retired(t, prev)), t, Gone)
      else if s.threads[t].granule.line.Some? then
        Leave(Unslot(s, s.threads[t].granule.line.value, t), t, LockFirst(op))
      else
        Leave(s, t, LockFirst(op))
    case LockFirst(op) =>
      Acquire(s, t, First(op), if Crosses(op) then LockSecond(op) else Inside(op))
    case LockSecond(op) => Acquire(s, t, First(op) + 1, Inside(op))
    case Inside(op) =>
      match op
      case Store(_, _) => StoreRegion(s, t, op)
      case WriteMemory(_, _) => ChunkRegion(s, t, op)
      case LoadReserve(_, _, _) => ReserveRegion(s, t, op)
      case WriteCond(_, _, _) => CondRegion(s, t, op)
  }

  ghost predicate AtRegion(s: State, t: Tid, op: Op) {
    WellFormed(s) && t < |s.threads| && s.threads[t].pc == Inside(op)
  }

  /** MainMemory.cpp:76-82: one or two lines, everyone but the storing thread loses out. */
  ghost function StoreRegion(s: State, t: Tid, op: Op): State
    requires AtRegion(s, t, op) && op.Store?
  {
    var one := Purge(s, First(op), Some(t));
    var all := if Crosses(op) then Purge(one, First(op) + 1, Some(t)) else one;
    Leave(Record(all.(memory := Splice(s.memory, op.va, op.data)),
                 Plain(t, First(op), if Crosses(op) then First(op) + 1 else First(op))), t, Idle)
  }

  function ChunkSize(va: nat, len: nat): nat {
    if len < 128 - va % 128 then len else 128 - va % 128
  }

  /** One round of the loop of `writeMemory` (MainMemory.cpp:96-107). */
  ghost function ChunkRegion(s: State, t: Tid, op: Op): State
    requires AtRegion(s, t, op) && op.WriteMemory?
  {
    var n := ChunkSize(op.va, |op.data|);
    Leave(Record(Purge(s, First(op), Some(t)).(memory := Splice(s.memory, op.va, op.data[..n])),
                 Plain(t, First(op), First(op))), t, LoopPc(WriteMemory(op.va + n, op.data[n..])))
  }

  /** MainMemory.h:180-191. */
  ghost function ReserveRegion(s: State, t: Tid, op: Op): State
    requires AtRegion(s, t, op) && op.LoadReserve?
  {
    var th := s.threads[t];
    var reserved := th.(
      granule := Granule(Some(First(op)), op.notify),
      loaded := Some(Loaded(op.va, s.memory[op.va..op.va + op.len])),
      registered := th.registered + (if op.notify.Some? then [op.notify.value] else []));
    Leave(Record(s.(threads := s.threads[t := reserved],
                    lines := s.lines[First(op) := Insert(s.lines[First(op)], t)]),
                 Reserved(t, op.va)), t, Idle)
  }

  /** MainMemory.h:195-212. */
  ghost function CondRegion(s: State, t: Tid, op: Op): State
    requires AtRegion(s, t, op) && op.WriteCond?
  {
    if op.unconditional || Some(t) in s.lines[First(op)] then
      var done := Purge(s, First(op), None).(memory := Splice(s.memory, op.va, op.data));
      Finish(Record(done, Atomic(t, op.va, !op.unconditional)), t, true)
    else
      Finish(Record(s, Failed(t, op.va)), t, false)
  }

  function Finish(s: State, t: Tid, stored: bool): State
    requires t < |s.threads|
  {
    var left := Leave(s, t, Idle);
    left.(threads := left.threads[t := left.threads[t].(stored := stored)])
  }

  // ---------------------------------------------------------------- runs

  ghost predicate Init(s: State) {
    && WellFormed(s)
    && s.holder == map[] && s.history == []
    && (forall line :: 0 <= line < LINE_COUNT ==> s.lines[line] == [])
    && (forall t :: 0 <= t < |s.threads| ==>
          s.threads[t].pc.Idle? && s.threads[t].granule == Granule(None, None)
          && s.threads[t].loaded.None? && s.threads[t].registered == s.threads[t].fired == [])
  }

  ghost predicate Steps(s: State, t: Tid, s': State) {
    WellFormed(s) && CanStep(s, t) && s' == Step(s, t)
  }

  ghost predicate Begins(s: State, t: Tid, op: Op, s': State) {
    CanBegin(s, t, op) && s' == Begin(s, t, op)
  }

  ghost predicate Next(s: State, s': State) {
    (exists t :: Steps(s, t, s')) || (exists t, op :: Begins(s, t, op, s'))
  }

  ghost predicate IsRun(run: seq<State>) {
    |run| > 0 && Init(run[0]) && forall i :: 0 <= i < |run| - 1 ==> Next(run[i], run[i + 1])
  }
}
