/** The main results about the reservation protocol, over every run. */
module ReservationTheorems {
  import opened Common
  import opened Slots
  import opened ReservationProtocol
  import opened ReservationInvariants

  // ---------------------------------------------------------------- load-linked, store-conditional

  /** A thread sits in a line's slots exactly when some `loadReserve` of its own on that line has
      not been followed by one of its own reservations, by a foreign write of the line, by a
      successful `writeCond` of the line or by the destruction of a granule on it. In the window of
      `loadReserve` between the drop and the insertion it sits in no slot at all. */
  lemma SlotMeansLiveReservation(run: seq<State>, i: nat, t: Tid, line: nat)
    requires IsRun(run) && i < |run| && t < |run[i].threads| && line < |run[i].lines|
    ensures Some(t) in run[i].lines[line] <==>
      !Midway(run[i].threads[t].pc) && exists k: nat :: FundedAt(run[i].history, t, line, k)
  {
    RunKeepsInv(run, i);
    assert ThreadOk(run[i].threads[t]);
    LiveMeansFunded(run[i].history, t, line);
    assert SlotsAgreeOn(run[i], line) && LiveAgreesOn(run[i], t, line);
    MemberMeansSlot(run[i].lines[line], t);
  }

  /** In every interleaving a conditional store succeeds if and only if a reservation of its line
      by the same thread is still standing at that moment. */
  lemma ConditionalStoreIsExact(run: seq<State>, i: nat, k: nat)
    requires IsRun(run) && i < |run| && k < |run[i].history|
    ensures var h := run[i].history; var e := h[k];
      && (e.Atomic? && e.conditional ==> exists j: nat :: FundedAt(h[..k], e.t, e.va / 128, j))
      && (e.Failed? ==> !exists j: nat :: FundedAt(h[..k], e.t, e.va / 128, j))
  {
    RunKeepsInv(run, i);
    var h := run[i].history;
    assert ExactAt(h, k);
    if h[k].Atomic? || h[k].Failed? {
      LiveMeansFunded(h[..k], h[k].t, h[k].va / 128);
    }
  }

  lemma FundingIsUnique(h: seq<Event>, t: Tid, line: nat, i: nat, line': nat, i': nat)
    requires FundedAt(h, t, line, i) && FundedAt(h, t, line', i')
    ensures i == i' && line == line'
  {
    if i < i' {
      assert Ends(h[i'], t, line);
    } else if i' < i {
      assert Ends(h[i], t, line');
    }
  }

  /** Two successful conditional stores of one thread have a `loadReserve` of its own between them. */
  lemma OneSuccessPerReservation(run: seq<State>, i: nat, k: nat, k': nat) returns (j: nat)
    requires IsRun(run) && i < |run| && k < k' < |run[i].history|
    requires var h := run[i].history; h[k].Atomic? && h[k].conditional && h[k'].Atomic? && h[k'].conditional
    requires run[i].history[k].t == run[i].history[k'].t
    ensures k < j < k' && run[i].history[j].Reserved? && run[i].history[j].t == run[i].history[k].t
  {
    var h := run[i].history;
    var t := h[k].t;
    ConditionalStoreIsExact(run, i, k);
    ConditionalStoreIsExact(run, i, k');
    var first: nat :| FundedAt(h[..k], t, h[k].va / 128, first);
    j :| FundedAt(h[..k'], t, h[k'].va / 128, j);
    SameFunding(h, t, h[k].va / 128, first, k, h[k'].va / 128, j, k');
    assert h[..k'][k] == h[k] && h[..k'][j] == h[j];
  }

  /** A reservation that lives on until `k'` is the one that is live at `k`, or a later one. */
  lemma SameFunding(h: seq<Event>, t: Tid, line: nat, first: nat, k: nat, line': nat, j: nat, k': nat)
    requires k < k' <= |h| && FundedAt(h[..k], t, line, first) && FundedAt(h[..k'], t, line', j)
    ensures j < k ==> line == line'
  {
    if j < k {
      forall m | j < m < k ensures !Ends(h[..k][m], t, line') {
        assert h[..k'][m] == h[..k][m];
      }
      assert h[..k'][j] == h[..k][j];
      FundingIsUnique(h[..k], t, line, first, line', j);
    }
  }

  /** A granule is in at most one slot of at most one line. */
  lemma GranuleInOneSlot(run: seq<State>, i: nat, t: Tid, line: nat, a: nat, line': nat, b: nat)
    requires IsRun(run) && i < |run| && t < |run[i].threads|
    requires line < |run[i].lines| && line' < |run[i].lines|
    requires a < |run[i].lines[line]| && run[i].lines[line][a] == Some(t)
    requires b < |run[i].lines[line']| && run[i].lines[line'][b] == Some(t)
    ensures line == line' && a == b && run[i].threads[t].granule.line == Some(line)
  {
    RunKeepsInv(run, i);
    var s := run[i];
    assert SlotsAgreeOn(s, line) && SlotsAgreeOn(s, line');
    assert s.lines[line][a].value in Members(s.lines[line]);
    assert s.lines[line'][b].value in Members(s.lines[line']);
  }

  /** Callbacks are conserved, in order: those handed to `loadReserve` are those fired, followed by
      the one still pending. */
  lemma CallbacksAreConserved(run: seq<State>, i: nat, t: Tid)
    requires IsRun(run) && i < |run| && t < |run[i].threads|
    ensures run[i].threads[t].registered ==
      run[i].threads[t].fired + Callbacks(run[i].threads[t].granule.notify)
    ensures run[i].threads[t].granule.notify.Some? ==> run[i].threads[t].granule.line.Some?
  {
    RunKeepsInv(run, i);
    assert ThreadOk(run[i].threads[t]);
  }

  // ---------------------------------------------------------------- the reservation after a writeCond

  /** A `writeCond` leaves its thread without a reservation if and only if the thread had none or
      had it on the line written. The ISA wants the reservation gone after every conditional store; the
      unconditional form is putlluc, a command of the Cell's memory flow controller that the ISA does
      not know. */
  lemma WriteCondEndsReservationIff(s: State, t: Tid)
    requires Inv(s) && CanStep(s, t) && s.threads[t].pc.Inside? && s.threads[t].pc.op.WriteCond?
    ensures Step(s, t).threads[t].granule.line.None? <==>
      s.threads[t].granule.line in {None, Some(First(s.threads[t].pc.op))}
  {
    var line := First(s.threads[t].pc.op);
    assert SlotsAgreeOn(s, line);
    MemberMeansSlot(s.lines[line], t);
    PurgeRevokes(s, line, None);
  }

  // ---------------------------------------------------------------- deadlock freedom

  predicate Waiting(s: State, t: Tid) {
    t < |s.threads| && (s.threads[t].pc.LockOld? || s.threads[t].pc.LockFirst? || s.threads[t].pc.LockSecond?)
    && !CanStep(s, t)
  }

  lemma {:induction false} HighestLock(keys: set<nat>) returns (top: nat)
    requires keys != {}
    ensures top in keys && forall line :: line in keys ==> line <= top
    decreases |keys|
  {
    top :| top in keys;
    if keys != {top} {
      var rest := keys - {top};
      assert |rest| < |keys|;
      var other := HighestLock(rest);
      assert keys == rest + {top};
      top := if other > top then other else top;
    }
  }

  /** The holder of the highest lock that is taken can always move. */
  lemma HighestHolderMoves(s: State) returns (t: Tid)
    requires Inv(s) && s.holder != map[]
    ensures CanStep(s, t) && Held(s.threads[t].pc) != {}
  {
    var line :| line in s.holder;
    var top := HighestLock(s.holder.Keys);
    assert LockIsHeld(s, top);
    t := s.holder[top];
  }

  /** Whenever a thread is blocked on a line lock, some thread that holds a lock can move. */
  lemma NoDeadlock(run: seq<State>, i: nat, blocked: Tid) returns (t: Tid)
    requires IsRun(run) && i < |run| && Waiting(run[i], blocked)
    ensures t != blocked && CanStep(run[i], t) && Held(run[i].threads[t].pc) != {}
  {
    RunKeepsInv(run, i);
    t := HighestHolderMoves(run[i]);
  }

  /** Locks are taken in ascending order: a thread waiting for a line holds only the line before. */
  lemma LocksAscend(run: seq<State>, i: nat, t: Tid, line: nat)
    requires IsRun(run) && i < |run| && Waiting(run[i], t)
    requires line in run[i].holder && run[i].holder[line] == t
    ensures run[i].threads[t].pc.LockSecond? && !run[i].threads[t].pc.op.Destroy?
    ensures line == First(run[i].threads[t].pc.op)
    ensures line + 1 in run[i].holder && run[i].holder[line + 1] != t
  {
    RunKeepsInv(run, i);
    assert LockIsHeld(run[i], line) && LockIsHeld(run[i], line + 1);
  }

  // ---------------------------------------------------------------- a run the ISA rules out

  lemma Extend(run: seq<State>, s': State)
    requires IsRun(run) && Next(run[|run| - 1], s')
    ensures IsRun(run + [s'])
  {
    var longer := run + [s'];
    forall i | 0 <= i < |longer| - 1 ensures Next(longer[i], longer[i + 1]) {
      if i < |run| - 1 {
        assert Next(run[i], run[i + 1]);
      }
    }
  }

  ghost predicate Alone(s: State) {
    WellFormed(s) && |s.threads| == 1 && s.threads[0].pc.Idle? && s.holder == map[]
  }

  lemma StepAlone(run: seq<State>) returns (longer: seq<State>)
    requires IsRun(run) && WellFormed(run[|run| - 1]) && CanStep(run[|run| - 1], 0)
    ensures IsRun(longer) && longer[|longer| - 1] == Step(run[|run| - 1], 0)
  {
    var s := run[|run| - 1];
    assert Steps(s, 0, Step(s, 0));
    Extend(run, Step(s, 0));
    longer := run + [Step(s, 0)];
  }

  lemma BeginAlone(run: seq<State>, op: Op) returns (longer: seq<State>)
    requires IsRun(run) && CanBegin(run[|run| - 1], 0, op)
    ensures IsRun(longer) && longer[|longer| - 1] == Begin(run[|run| - 1], 0, op)
  {
    var s := run[|run| - 1];
    assert Begins(s, 0, op, Begin(s, 0, op));
    Extend(run, Begin(s, 0, op));
    longer := run + [Begin(s, 0, op)];
  }

  lemma CondAlone(run: seq<State>, va: nat) returns (longer: seq<State>)
    requires IsRun(run) && Alone(run[|run| - 1]) && va in {0, 128}
    ensures IsRun(longer)
    ensures var s, s' := run[|run| - 1], longer[|longer| - 1];
      Alone(s') && (
        if Some(0) in s.lines[va / 128] then s'.history == s.history + [Atomic(0, va, true)]
        else s'.history == s.history + [Failed(0, va)] && s'.lines == s.lines)
  {
    longer := BeginAlone(run, WriteCond(va, [0, 0, 0, 0], false));
    longer := StepAlone(longer);
    var inside := longer[|longer| - 1];
    assert inside.lines == run[|run| - 1].lines && inside.threads[0].pc == Inside(WriteCond(va, [0, 0, 0, 0], false));
    longer := StepAlone(longer);
  }

  lemma ReserveAlone(run: seq<State>) returns (longer: seq<State>)
    requires IsRun(run) && Alone(run[|run| - 1])
    requires run[|run| - 1].lines[0] == run[|run| - 1].lines[1] == []
    requires run[|run| - 1].threads[0].granule.line.None?
    ensures IsRun(longer)
    ensures var s, s' := run[|run| - 1], longer[|longer| - 1];
      Alone(s') && s'.history == s.history + [Reserved(0, 0)]
      && s'.lines[0] == [Some(0)] && s'.lines[1] == []
  {
    longer := BeginAlone(run, LoadReserve(0, 4, None));
    longer := StepAlone(longer);
    longer := StepAlone(longer);
    longer := StepAlone(longer);
  }

  /** A conditional store to another line fails and leaves the reservation standing, so a later
      one to the reserved line still succeeds: the ISA would have it fail. */
  lemma FailedStoreKeepsReservation() returns (run: seq<State>)
    ensures IsRun(run)
    ensures run[|run| - 1].history == [Reserved(0, 0), Failed(0, 128), Atomic(0, 0, true)]
  {
    var start := State([Thread(Idle, Granule(None, None), None, false, [], [])], map[],
                       seq(LINE_COUNT, _ => []), seq(MEMORY_SIZE, _ => 0), []);
    run := ReserveAlone([start]);
    run := CondAlone(run, 128);
    run := CondAlone(run, 0);
  }
}
