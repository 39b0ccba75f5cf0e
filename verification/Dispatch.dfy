/** The dispatch loop over emitted parts and single instructions against the interpreter alone
    (`vmenter` and `innerLoop`, ps3emu/ppu/PPUThread.cpp:51-112). */
module Dispatch {
  import opened Common
  import opened BitFields
  import opened Branches
  import opened BasicBlocks
  import opened EmittedCode
  import opened EmittedSimulation

  /** The loaded parts, and the map from words of memory to the part and the label that are called
      there. */
  datatype Program = Program(parts: seq<seq<Block>>, texts: seq<seq<Text>>, calls: nat -> Option<(nat, nat)>)

  /** Where a thread is: in the loop with its NIP, at a label of a part, or gone wrong inside one. */
  datatype Spot<U> =
    | InLoop(nip: nat, s: Cpu<U>)
    | Inside(p: nat, label_: nat, s: Cpu<U>)
    | Broken

  ghost function Landed<U>(p: nat, place: Place<U>): Spot<U> {
    match place
    case At(j, s) => Inside(p, j, s)
    case Gone(nip, s) => InLoop(nip, s)
    case Wrong => Broken
  }

  /** One turn of the loop, up to the call of a part, or one block of a part. */
  ghost function Turn<U>(exec: Executor<U>, step: Stepper<U>, program: Program, spot: Spot<U>): Spot<U> {
    match spot
    case InLoop(nip, s) =>
      (match program.calls(nip / 4)
       case Some((p, i)) => Inside(p, i, s)
       case None => var (nip', s') := step((nip, s)); InLoop(nip', s'))
    case Inside(p, j, s) =>
      if p < |program.texts| then Landed(p, BlockStepper(exec, program.texts[p])(At(j, s))) else Broken
    case Broken => Broken
  }

  ghost function Turning<U>(exec: Executor<U>, step: Stepper<U>, program: Program): Spot<U> -> Spot<U> {
    (spot: Spot<U>) => Turn(exec, step, program, spot)
  }

  /** Every call of a basic block leads to the label of the block that begins at its own address. */
  ghost predicate CallsLabels(program: Program) {
    forall a: nat, p: nat, i: nat :: program.calls(a) == Some((p, i)) ==>
      p < |program.parts| && i < |program.parts[p]| && program.parts[p][i].start == 4 * a
  }

  /** The loop enters a part exactly where there is a call, with the registers as they are, at the label of
      the very address the thread is at; elsewhere it does one instruction. */
  lemma CallsEnterParts<U>(exec: Executor<U>, step: Stepper<U>, program: Program, nip: nat, s: Cpu<U>)
    requires CallsLabels(program) && nip % 4 == 0
    ensures var next := Turn(exec, step, program, InLoop(nip, s));
      && (program.calls(nip / 4).Some? <==> next.Inside?)
      && (next.Inside? ==>
            next.p < |program.parts| && next.label_ < |program.parts[next.p]| && next.s == s &&
            program.parts[next.p][next.label_].start == nip)
      && (!next.Inside? ==> next == InLoop(step((nip, s)).0, step((nip, s)).1))
  {
    assert 4 * (nip / 4) == nip;
    var call := program.calls(nip / 4);
    if call.Some? {
      assert call == Some((call.value.0, call.value.1));
    }
  }

  ghost predicate AllEmitted<U>(m: Model<U>, program: Program, minSize: nat) {
    |program.texts| == |program.parts| &&
    forall p :: 0 <= p < |program.parts| ==> IsEmitted(m, program.parts[p], program.texts[p], minSize)
  }

  // ---------------------------------------------------------------- word boundaries

  ghost predicate KeepsAligned<U(!new)>(step: Stepper<U>) {
    forall nip: nat, s: Cpu<U> :: nip % 4 == 0 ==> step((nip, s)).0 % 4 == 0
  }

  /** Host functions return to word boundaries. */
  ghost predicate AlignedCalls<U(!new)>(w: World<U>) {
    forall word: nat, s: Cpu<U> :: w.ncall(word, s).0 % 4 == 0
  }

  lemma InterpreterKeepsAligned<U(!new)>(w: World<U>)
    requires AlignedCalls(w)
    ensures KeepsAligned(Interpreter(w))
  {
    forall nip: nat, s: Cpu<U> | nip % 4 == 0 ensures Interpreter(w)((nip, s)).0 % 4 == 0 {
      InstructionKeepsAligned(w, nip, s);
    }
  }

  lemma InstructionKeepsAligned<U(!new)>(w: World<U>, nip: nat, s: Cpu<U>)
    requires AlignedCalls(w) && nip % 4 == 0
    ensures Interpret1(w, nip, s).0 % 4 == 0
  {
    var word := w.code(nip);
    if IsBranch(word) {
      BranchAligned(word, nip, BranchState(nip + 4, s.rest.lr, s.rest.ctr, s.rest.cr));
    } else if IsNCall(word) {
      assert w.ncall(word, s).0 % 4 == 0;
    }
  }

  lemma BranchAligned(word: nat, cia: nat, s: BranchState)
    requires IsBranch(word) && cia % 4 == 0
    ensures Execute(word, cia, s).nip % 4 == 0
  {
    var direct := IsB(word) || IsBC(word);
    var target, reg := DirectTarget(word, cia), if IsBCLR(word) then s.lr % WORD else s.ctr % WORD;
    if direct {
      DirectIsAligned(word, cia);
    }
    NextNip(word, cia, s, direct, target, reg);
    EitherAligned(direct, cia, target, reg, Execute(word, cia, s).nip);
  }

  ghost predicate ComesFrom(direct: bool, cia: nat, target: nat, reg: nat, nip: nat) {
    nip == cia + 4 || nip == (if direct then target else reg / 4 * 4)
  }

  lemma NextNip(word: nat, cia: nat, s: BranchState, direct: bool, target: nat, reg: nat)
    requires IsBranch(word) && direct == (IsB(word) || IsBC(word)) && target == DirectTarget(word, cia)
    requires reg == if IsBCLR(word) then s.lr % WORD else s.ctr % WORD
    ensures ComesFrom(direct, cia, target, reg, Execute(word, cia, s).nip)
  {}

  lemma EitherAligned(direct: bool, cia: nat, target: nat, reg: nat, nip: nat)
    requires ComesFrom(direct, cia, target, reg, nip) && cia % 4 == 0 && (direct ==> target % 4 == 0)
    ensures nip % 4 == 0
  {}

  lemma DirectIsAligned(word: nat, cia: nat)
    requires (IsB(word) || IsBC(word)) && cia % 4 == 0
    ensures DirectTarget(word, cia) % 4 == 0
  {
    AnalyzeIsSound(word, cia, BranchState(0, 0, 0, 0));
    TargetIsAligned(word, cia);
  }

  lemma {:induction false} RunKeepsAligned<U(!new)>(step: Stepper<U>, nip: nat, s: Cpu<U>, n: nat)
    requires KeepsAligned(step) && nip % 4 == 0
    ensures Iterate(step, (nip, s), n).0 % 4 == 0
  {
    if n > 0 {
      RunKeepsAligned(step, nip, s, n - 1);
      var c := Iterate(step, (nip, s), n - 1);
      assert step((c.0, c.1)) == step(c);
    }
  }

  // ---------------------------------------------------------------- the loop

  /** The thread is where the interpreter is. */
  ghost predicate Matches<U>(program: Program, spot: Spot<U>, c: (nat, Cpu<U>)) {
    match spot
    case InLoop(nip, s) => c == (nip, s) && nip % 4 == 0
    case Inside(p, j, s) =>
      (p < |program.parts| && j < |program.parts[p]| && c == (program.parts[p][j].start, s) && c.0 % 4 == 0)
    case Broken => false
  }

  /** What every part does, one block at a time. */
  ghost predicate PartsSimulate<U(!new)>(exec: Executor<U>, step: Stepper<U>, program: Program) {
    |program.texts| == |program.parts| &&
    forall p: nat, j: nat, s: Cpu<U> :: p < |program.parts| && j < |program.parts[p]| ==>
      PartSimulatesAt(exec, step, program, p, j, s)
  }

  ghost predicate PartSimulatesAt<U>(exec: Executor<U>, step: Stepper<U>, program: Program, p: nat, j: nat, s: Cpu<U>)
    requires |program.texts| == |program.parts| && p < |program.parts| && j < |program.parts[p]|
  {
    var b := program.parts[p][j];
    b.len >= 4 &&
    SamePlace(program.parts[p], BlockStepper(exec, program.texts[p])(At(j, s)), Iterate(step, (b.start, s), b.len / 4))
  }

  lemma EmittedPartsSimulate<U(!new)>(m: Model<U>, program: Program, minSize: nat)
    requires LeavesSoundly(m) && StaysSoundly(m) && AllEmitted(m, program, minSize)
    ensures PartsSimulate(m.exec, m.step, program)
  {
    forall p: nat, j: nat, s: Cpu<U> | p < |program.parts| && j < |program.parts[p]|
      ensures PartSimulatesAt(m.exec, m.step, program, p, j, s)
    {
      BlockSimulates(m, program.parts[p], program.texts[p], minSize, j, s);
    }
  }

  /** A turn is any number of instructions, and at least one unless it enters a part. */
  ghost predicate IsTurn<U>(program: Program, spot: Spot<U>, next: Spot<U>, step: Stepper<U>, c: (nat, Cpu<U>),
                            steps: nat)
  {
    Matches(program, next, Iterate(step, c, steps)) && (steps > 0 || (spot.InLoop? && next.Inside?))
  }

  lemma TurnSimulates<U(!new)>(exec: Executor<U>, step: Stepper<U>, program: Program, spot: Spot<U>, c: (nat, Cpu<U>))
    returns (steps: nat)
    requires CallsLabels(program) && KeepsAligned(step) && PartsSimulate(exec, step, program)
    requires Matches(program, spot, c)
    ensures IsTurn(program, spot, Turning(exec, step, program)(spot), step, c, steps)
  {
    match spot
    case InLoop(nip, s) =>
      if program.calls(nip / 4).Some? {
        steps := 0;
      } else {
        steps := 1;
        assert Iterate(step, c, 1) == step(Iterate(step, c, 0));
      }
    case Inside(p, j, s) =>
      var b := program.parts[p][j];
      assert PartSimulatesAt(exec, step, program, p, j, s);
      steps := b.len / 4;
      RunKeepsAligned(step, b.start, s, steps);
  }

  lemma OneMoreTurn<U>(program: Program, spot: Spot<U>, next: Spot<U>, step: Stepper<U>, c: (nat, Cpu<U>), before: nat,
                       more: nat, n: nat)
    requires IsTurn(program, spot, next, step, Iterate(step, c, before), more)
    requires 2 * before + (if spot.Inside? then 1 else 0) >= n
    ensures Matches(program, next, Iterate(step, c, before + more))
    ensures 2 * (before + more) + (if next.Inside? then 1 else 0) >= n + 1
  {
    IterateSum(step, c, before, more);
  }

  /** The instructions of a turn. */
  ghost function Instructions<U>(next: Spot<U> -> Spot<U>, step: Stepper<U>, program: Program, spot: Spot<U>,
                                 c: (nat, Cpu<U>)): nat
  {
    if exists k: nat :: IsTurn(program, spot, next(spot), step, c, k) then
      var k: nat :| IsTurn(program, spot, next(spot), step, c, k); k
    else 0
  }

  ghost predicate TurnsSimulate<U(!new)>(next: Spot<U> -> Spot<U>, step: Stepper<U>, program: Program) {
    forall spot: Spot<U>, c: (nat, Cpu<U>) {:trigger Instructions(next, step, program, spot, c)} ::
      Matches(program, spot, c) ==>
        IsTurn(program, spot, next(spot), step, c, Instructions(next, step, program, spot, c))
  }

  lemma AllTurnsSimulate<U(!new)>(exec: Executor<U>, step: Stepper<U>, program: Program)
    requires CallsLabels(program) && KeepsAligned(step) && PartsSimulate(exec, step, program)
    ensures TurnsSimulate(Turning(exec, step, program), step, program)
  {
    var next := Turning(exec, step, program);
    forall spot: Spot<U>, c: (nat, Cpu<U>) | Matches(program, spot, c)
      ensures IsTurn(program, spot, next(spot), step, c, Instructions(next, step, program, spot, c))
    {
      var k := TurnSimulates(exec, step, program, spot, c);
    }
  }

  /** After any number of turns, at least about half as many instructions have been executed as turns
      were made. */
  lemma {:induction false} ManyTurns<U(!new)>(next: Spot<U> -> Spot<U>, step: Stepper<U>, program: Program,
                                              spot: Spot<U>, c: (nat, Cpu<U>), n: nat) returns (steps: nat)
    requires TurnsSimulate(next, step, program) && Matches(program, spot, c) && spot.InLoop?
    ensures var last := Iterate(next, spot, n);
      Matches(program, last, Iterate(step, c, steps)) && 2 * steps + (if last.Inside? then 1 else 0) >= n
  {
    if n == 0 {
      steps := 0;
    } else {
      var before := ManyTurns(next, step, program, spot, c, n - 1);
      var last := Iterate(next, spot, n - 1);
      var more := Instructions(next, step, program, last, Iterate(step, c, before));
      OneMoreTurn(program, last, next(last), step, c, before, more, n - 1);
      steps := before + more;
    }
  }

  /** The whole program, as rewritten and dispatched: after any number of turns from any word boundary
      the thread is exactly where the interpreter gets to, in the loop or at a label; it never goes
      wrong, and it gets past any number of instructions. */
  lemma DispatchSimulates<U(!new)>(w: World<U>, program: Program, minSize: nat, nip: nat, s: Cpu<U>, n: nat)
    returns (steps: nat)
    requires AlignedCalls(w) && CallsLabels(program) && AllEmitted(ModelOf(w), program, minSize) && nip % 4 == 0
    ensures var spot := Iterate(Turning(ExecutorOf(w), Interpreter(w), program), InLoop(nip, s), n);
      Matches(program, spot, Iterate(Interpreter(w), (nip, s), steps)) && 2 * steps + 1 >= n
  {
    var m := ModelOf(w);
    ModelIsSound(w);
    InterpreterKeepsAligned(w);
    EmittedPartsSimulate(m, program, minSize);
    AllTurnsSimulate(m.exec, m.step, program);
    steps := ManyTurns(Turning(m.exec, m.step, program), m.step, program, InLoop(nip, s), (nip, s), n);
  }
}
