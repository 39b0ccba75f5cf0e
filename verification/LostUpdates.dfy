/** Read-modify-write loops over the reservation protocol (lwarx and stwcx.,
    ps3emu/ppu/ppu_dasm.cpp:3066-3091): no update is lost. */
module LostUpdates {
  import opened Common
  import opened ReservationProtocol
  import opened ReservationInvariants

  type Word = seq<Byte>

  predicate Apart(va: nat, len: nat, word: nat) {
    va + len <= word || word + 4 <= va
  }

  function WordAt(s: State, word: nat): Word
    requires word + 4 <= |s.memory|
  {
    s.memory[word..word + 4]
  }

  /** What thread `t` may do while the word is only updated by loops `lwarx; f(t, _); stwcx.`:
      a `stwcx.` to the word writes `f(t, _)` of what its last `lwarx` of the word returned, and
      every other write misses the word. Everything else is free. */
  predicate Follows(s: State, t: Tid, op: Op, word: nat, f: (Tid, Word) -> Word)
    requires t < |s.threads|
  {
    match op
    case Store(va, data) => Apart(va, |data|, word)
    case WriteMemory(va, data) => Apart(va, |data|, word)
    case WriteCond(va, data, unconditional) =>
      Apart(va, |data|, word) || Updates(s.threads[t], t, op, word, f)
    case LoadReserve(_, _, _) => true
    case Destroy => true
  }

  predicate Updates(th: Thread, t: Tid, op: Op, word: nat, f: (Tid, Word) -> Word) {
    && op.WriteCond? && op.va == word && |op.data| == 4 && !op.unconditional
    && th.loaded.Some? && th.loaded.value.va == word && |th.loaded.value.bytes| == 4
    && op.data == f(t, th.loaded.value.bytes)
  }

  ghost predicate LoopBegins(s: State, t: Tid, op: Op, s': State, word: nat, f: (Tid, Word) -> Word) {
    Begins(s, t, op, s') && Follows(s, t, op, word, f)
  }

  ghost predicate LoopNext(s: State, s': State, word: nat, f: (Tid, Word) -> Word) {
    (exists t :: Steps(s, t, s')) || (exists t, op :: LoopBegins(s, t, op, s', word, f))
  }

  ghost predicate IsLoopRun(run: seq<State>, word: nat, f: (Tid, Word) -> Word) {
    && |run| > 0 && Init(run[0]) && word % 4 == 0 && word + 4 <= MEMORY_SIZE
    && forall i :: 0 <= i < |run| - 1 ==> LoopNext(run[i], run[i + 1], word, f)
  }

  /** The atomic form: each successful `stwcx.` of the word, in order, applies its thread's `f`. */
  function Fold(history: seq<Event>, word: nat, f: (Tid, Word) -> Word, start: Word): Word {
    if history == [] then start
    else
      var before := Fold(history[..|history| - 1], word, f, start);
      var e := history[|history| - 1];
      if e.Atomic? && e.va == word then f(e.t, before) else before
  }

  predicate PendingOk(th: Thread, t: Tid, word: nat, f: (Tid, Word) -> Word) {
    th.pc.LockFirst? || th.pc.LockSecond? || th.pc.Inside? ==>
      match th.pc.op
      case Store(va, data) => Apart(va, |data|, word)
      case WriteMemory(va, data) => Apart(va, |data|, word)
      case WriteCond(va, data, _) => Apart(va, |data|, word) || Updates(th, t, th.pc.op, word, f)
      case _ => true
  }

  /** A thread that still holds the line of the word has seen the word as it is now. */
  predicate LoadedIsCurrent(th: Thread, word: nat, now: Word) {
    (&& th.granule.line == Some(word / 128) && th.loaded.Some? && th.loaded.value.va == word
     && |th.loaded.value.bytes| == 4) ==> th.loaded.value.bytes == now
  }

  ghost predicate LoopInv(s: State, word: nat, f: (Tid, Word) -> Word, start: Word)
  {
    && Inv(s) && word % 4 == 0 && word + 4 <= MEMORY_SIZE
    && WordAt(s, word) == Fold(s.history, word, f, start)
    && (forall t :: 0 <= t < |s.threads| ==>
          PendingOk(s.threads[t], t, word, f) && LoadedIsCurrent(s.threads[t], word, WordAt(s, word)))
  }

  lemma FoldStep(history: seq<Event>, e: Event, word: nat, f: (Tid, Word) -> Word, start: Word)
    ensures Fold(history + [e], word, f, start) ==
      var before := Fold(history, word, f, start);
      if e.Atomic? && e.va == word then f(e.t, before) else before
  {
    assert (history + [e])[..|history|] == history;
  }

  lemma SpliceApart(memory: seq<Byte>, va: nat, data: seq<Byte>, word: nat)
    requires va + |data| <= |memory| && word + 4 <= |memory| && Apart(va, |data|, word)
    ensures Splice(memory, va, data)[word..word + 4] == memory[word..word + 4]
  {
  }

  /** `s'` differs from `s` in `t` and in revoked granules, the word is untouched and the history
      grows by no update of the word. */
  lemma OtherStepKeepsLoop(s: State, s': State, t: Tid, word: nat, f: (Tid, Word) -> Word, start: Word)
    requires LoopInv(s, word, f, start) && Inv(s') && OnlyMoves(s, s', t)
    requires WordAt(s', word) == WordAt(s, word)
    requires Fold(s'.history, word, f, start) == Fold(s.history, word, f, start)
    requires PendingOk(s'.threads[t], t, word, f)
    requires LoadedIsCurrent(s'.threads[t], word, WordAt(s, word))
    ensures LoopInv(s', word, f, start)
  {
    forall u | 0 <= u < |s'.threads| ensures PendingOk(s'.threads[u], u, word, f)
      && LoadedIsCurrent(s'.threads[u], word, WordAt(s', word)) {
    }
  }

  lemma BeginKeepsLoop(s: State, t: Tid, op: Op, word: nat, f: (Tid, Word) -> Word, start: Word)
    requires LoopInv(s, word, f, start) && CanBegin(s, t, op) && Follows(s, t, op, word, f)
    ensures LoopInv(Begin(s, t, op), word, f, start)
  {
    BeginKeepsInv(s, t, op);
    OtherStepKeepsLoop(s, Begin(s, t, op), t, word, f, start);
  }

  lemma OutsideKeepsLoop(s: State, t: Tid, word: nat, f: (Tid, Word) -> Word, start: Word)
    requires LoopInv(s, word, f, start) && CanStep(s, t) && !s.threads[t].pc.Inside?
    ensures LoopInv(Step(s, t), word, f, start)
  {
    StepKeepsInv(s, t);
    if s.threads[t].pc.InsideOld? {
      DropKeepsLoop(s, t, word, f, start);
    } else {
      OtherStepKeepsLoop(s, Step(s, t), t, word, f, start);
    }
  }

  lemma DropKeepsLoop(s: State, t: Tid, word: nat, f: (Tid, Word) -> Word, start: Word)
    requires LoopInv(s, word, f, start) && CanStep(s, t) && s.threads[t].pc.InsideOld? && Inv(Step(s, t))
    ensures LoopInv(Step(s, t), word, f, start)
  {
    if s.threads[t].pc.op.Destroy? {
      DestroyKeepsLoop(s, t, word, f, start);
    } else {
      if s.threads[t].granule.line.Some? {
        UnslotRevokes(s, s.threads[t].granule.line.value, t);
      }
      OtherStepKeepsLoop(s, Step(s, t), t, word, f, start);
    }
  }

  lemma DestroyKeepsLoop(s: State, t: Tid, word: nat, f: (Tid, Word) -> Word, start: Word)
    requires LoopInv(s, word, f, start) && CanStep(s, t) && s.threads[t].pc.InsideOld? && Inv(Step(s, t))
    requires s.threads[t].pc.op.Destroy?
    ensures LoopInv(Step(s, t), word, f, start)
  {
    PurgeRevokes(s, s.threads[t].pc.prev, None);
    FoldStep(s.history, Retired(t, s.threads[t].pc.prev), word, f, start);
    OtherStepKeepsLoop(s, Step(s, t), t, word, f, start);
  }

  lemma StoreKeepsLoop(s: State, t: Tid, op: Op, word: nat, f: (Tid, Word) -> Word, start: Word)
    requires LoopInv(s, word, f, start) && AtRegion(s, t, op) && op.Store?
    ensures LoopInv(StoreRegion(s, t, op), word, f, start)
  {
    StoreKeepsInv(s, t, op);
    SpliceApart(s.memory, op.va, op.data, word);
    FoldStep(s.history, Plain(t, First(op), if Crosses(op) then First(op) + 1 else First(op)), word, f, start);
    if Crosses(op) {
      var _ := CrossingRevokes(s, t, First(op));
    } else {
      PurgeRevokes(s, First(op), Some(t));
    }
    OtherStepKeepsLoop(s, StoreRegion(s, t, op), t, word, f, start);
  }

  lemma ChunkKeepsLoop(s: State, t: Tid, op: Op, word: nat, f: (Tid, Word) -> Word, start: Word)
    requires LoopInv(s, word, f, start) && AtRegion(s, t, op) && op.WriteMemory?
    ensures LoopInv(ChunkRegion(s, t, op), word, f, start)
  {
    ChunkKeepsInv(s, t, op);
    SpliceApart(s.memory, op.va, op.data[..ChunkSize(op.va, |op.data|)], word);
    FoldStep(s.history, Plain(t, First(op), First(op)), word, f, start);
    PurgeRevokes(s, First(op), Some(t));
    OtherStepKeepsLoop(s, ChunkRegion(s, t, op), t, word, f, start);
  }

  lemma ReserveKeepsLoop(s: State, t: Tid, op: Op, word: nat, f: (Tid, Word) -> Word, start: Word)
    requires LoopInv(s, word, f, start) && AtRegion(s, t, op) && op.LoadReserve?
    ensures LoopInv(ReserveRegion(s, t, op), word, f, start)
  {
    ReserveKeepsInv(s, t);
    FoldStep(s.history, Reserved(t, op.va), word, f, start);
    OtherStepKeepsLoop(s, ReserveRegion(s, t, op), t, word, f, start);
  }

  /** A successful conditional store: it writes `f` of the word as it is now. */
  lemma UpdateKeepsLoop(s: State, t: Tid, op: Op, word: nat, f: (Tid, Word) -> Word, start: Word)
    requires LoopInv(s, word, f, start) && AtRegion(s, t, op) && op.WriteCond?
    requires op.unconditional || Some(t) in s.lines[First(op)]
    ensures LoopInv(CondRegion(s, t, op), word, f, start)
  {
    var s', line := CondRegion(s, t, op), First(op);
    CondKeepsInv(s, t);
    PurgeRevokes(s, line, None);
    FoldStep(s.history, Atomic(t, op.va, !op.unconditional), word, f, start);
    if Apart(op.va, |op.data|, word) {
      SpliceApart(s.memory, op.va, op.data, word);
      OtherStepKeepsLoop(s, s', t, word, f, start);
    } else {
      UpdateOfWord(s, t, op, word, f, start);
    }
  }

  lemma UpdateOfWord(s: State, t: Tid, op: Op, word: nat, f: (Tid, Word) -> Word, start: Word)
    requires LoopInv(s, word, f, start) && AtRegion(s, t, op) && op.WriteCond? && !Apart(op.va, |op.data|, word)
    requires op.unconditional || Some(t) in s.lines[First(op)]
    requires Inv(CondRegion(s, t, op)) && RevokedFrom(s, Purge(s, First(op), None), First(op), {})
    requires Fold(s.history + [Atomic(t, op.va, !op.unconditional)], word, f, start) ==
      if op.va == word then f(t, Fold(s.history, word, f, start)) else Fold(s.history, word, f, start)
    ensures LoopInv(CondRegion(s, t, op), word, f, start)
  {
    var s', line := CondRegion(s, t, op), First(op);
    assert SlotsAgreeOn(s, line);
    MemberMeansSlot(s.lines[line], t);
    assert WordAt(s', word) == op.data;
    forall u | 0 <= u < |s'.threads| ensures PendingOk(s'.threads[u], u, word, f)
      && LoadedIsCurrent(s'.threads[u], word, WordAt(s', word)) {
    }
  }

  lemma CondKeepsLoop(s: State, t: Tid, op: Op, word: nat, f: (Tid, Word) -> Word, start: Word)
    requires LoopInv(s, word, f, start) && AtRegion(s, t, op) && op.WriteCond?
    ensures LoopInv(CondRegion(s, t, op), word, f, start)
  {
    if op.unconditional || Some(t) in s.lines[First(op)] {
      UpdateKeepsLoop(s, t, op, word, f, start);
    } else {
      CondKeepsInv(s, t);
      FoldStep(s.history, Failed(t, op.va), word, f, start);
      OtherStepKeepsLoop(s, CondRegion(s, t, op), t, word, f, start);
    }
  }

  lemma StepKeepsLoop(s: State, t: Tid, word: nat, f: (Tid, Word) -> Word, start: Word)
    requires LoopInv(s, word, f, start) && CanStep(s, t)
    ensures LoopInv(Step(s, t), word, f, start)
  {
    if s.threads[t].pc.Inside? {
      var op := s.threads[t].pc.op;
      match op
      case Store(_, _) => StoreKeepsLoop(s, t, op, word, f, start);
      case WriteMemory(_, _) => ChunkKeepsLoop(s, t, op, word, f, start);
      case LoadReserve(_, _, _) => ReserveKeepsLoop(s, t, op, word, f, start);
      case WriteCond(_, _, _) => CondKeepsLoop(s, t, op, word, f, start);
    } else {
      OutsideKeepsLoop(s, t, word, f, start);
    }
  }

  /** For any number of threads and any interleaving, with any other traffic that misses the word,
      the word is always the fold of the updates in the order of the successful conditional
      stores: the pair of instructions refines an atomic read-modify-write. */
  lemma {:induction false} NoUpdateIsLost(run: seq<State>, i: nat, word: nat, f: (Tid, Word) -> Word)
    requires IsLoopRun(run, word, f) && i < |run|
    ensures |run[0].memory| == |run[i].memory| == MEMORY_SIZE
    ensures WordAt(run[i], word) == Fold(run[i].history, word, f, WordAt(run[0], word))
    ensures LoopInv(run[i], word, f, WordAt(run[0], word))
  {
    if i == 0 {
      assert IsRun([run[0]]);
      RunKeepsInv([run[0]], 0);
    } else {
      NoUpdateIsLost(run, i - 1, word, f);
      assert LoopNext(run[i - 1], run[i - 1 + 1], word, f);
      NextKeepsLoop(run[i - 1], run[i], word, f, WordAt(run[0], word));
    }
  }

  lemma NextKeepsLoop(s: State, s': State, word: nat, f: (Tid, Word) -> Word, start: Word)
    requires LoopInv(s, word, f, start) && LoopNext(s, s', word, f)
    ensures LoopInv(s', word, f, start)
  {
    if exists t, op :: LoopBegins(s, t, op, s', word, f) {
      var t, op :| LoopBegins(s, t, op, s', word, f);
      BeginKeepsLoop(s, t, op, word, f, start);
    } else {
      var t :| Steps(s, t, s');
      StepKeepsLoop(s, t, word, f, start);
    }
  }
}
