/** Emitted parts simulate the interpreter (ps3tool/rewrite.cpp:163-183 and 414-450). */
module EmittedSimulation {
  import opened Common
  import opened Branches
  import LS = LoadStores
  import MB = MergedBlocks
  import opened BasicBlocks
  import opened EmittedCode

  // ---------------------------------------------------------------- one statement

  /** Registers after a branch, as the interpreter leaves them. */
  function AfterBranch<U>(b: BranchState, s: Cpu<U>): Cpu<U> {
    s.(rest := s.rest.(lr := b.lr, ctr := b.ctr))
  }

  /** A branch macro in emitted code goes where the interpreter goes. */
  lemma MacroMatches<U>(word: nat, cia: nat, indirect: bool, s: Cpu<U>)
    requires IsBranch(word) && cia % 4 == 0
    ensures var info := Analyze(word, cia);
      var b := Execute(word, cia, BranchState(cia + 4, s.rest.lr, s.rest.ctr, s.rest.cr));
      match BranchMacro(word, cia, indirect, s)
      case Falls(s') => b.nip == cia + 4 && s' == AfterBranch(b, s) && info.passthrough
      case Goes(target, s') => target == b.nip && s' == AfterBranch(b, s) && !indirect && info.target == Some(target)
      case Returns(nip, s') => nip == b.nip && s' == AfterBranch(b, s)
  {
    var state := BranchState(cia + 4, s.rest.lr, s.rest.ctr, s.rest.cr);
    AnalyzeIsSound(word, cia, state);
    TargetIsAligned(word, cia);
  }

  /** What the block needs to know about the outcome of its last statement. */
  ghost predicate Agrees<U>(o: Outcome<U>, next: (nat, Cpu<U>), cia: nat, info: Info, indirect: bool) {
    match o
    case Falls(s') => next == (cia + 4, s') && (info.flow ==> info.passthrough)
    case Goes(target, s') => next == (target, s') && !indirect && info.flow && info.target == Some(target)
    case Returns(nip, s') => next == (nip, s')
  }

  lemma LastStatementAgrees<U>(w: World<U>, cia: nat, indirect: bool, s: Cpu<U>)
    requires cia % 4 == 0
    ensures Agrees(ExecutorOf(w)(indirect, LS.Transform(cia, w.code(cia)), s), Interpreter(w)((cia, s)), cia,
                   Analyze(w.code(cia), cia), indirect)
  {
    var word := w.code(cia);
    LS.TransformIsSingle(cia, word);
    AnalyzeIsSound(word, cia, BranchState(cia + 4, s.rest.lr, s.rest.ctr, s.rest.cr));
    if IsBranch(word) {
      MacroMatches(word, cia, indirect, s);
    }
  }

  /** Only flow instructions do anything but fall through. */
  predicate MayLeave(st: LS.Statement) {
    st.Simple? && st.instr.Other? && (IsBranch(st.instr.word) || IsNCall(st.instr.word))
  }

  lemma StaysInside<U>(w: World<U>, cia: nat, indirect: bool, st: LS.Statement, s: Cpu<U>)
    requires !MayLeave(st)
    ensures ExecutorOf(w)(indirect, st, s) == Falls(LS.Step(w.others, st, s))
    ensures st == LS.Transform(cia, w.code(cia)) ==>
      Interpreter(w)((cia, s)) == (cia + 4, LS.Step(w.others, st, s)) && !Analyze(w.code(cia), cia).flow
  {
    if st == LS.Transform(cia, w.code(cia)) {
      LS.TransformIsSingle(cia, w.code(cia));
      AnalyzeIsSound(w.code(cia), cia, BranchState(0, 0, 0, 0));
    }
  }

  // ---------------------------------------------------------------- what the rest relies on

  /** The interpreter, the emitted statements and the analysis, as far as control flow goes. */
  datatype Model<!U> = Model(
    fetch: nat -> LS.Statement,
    analyze: Analysis,
    mayLeave: LS.Statement -> bool,
    others: (nat, nat, Cpu<U>) -> Cpu<U>,
    step: Stepper<U>,
    exec: Executor<U>)

  ghost predicate LeavesSoundly<U(!new)>(m: Model<U>) {
    forall cia: nat, indirect: bool, s: Cpu<U> :: cia % 4 == 0 ==>
      Agrees(m.exec(indirect, m.fetch(cia), s), m.step((cia, s)), cia, m.analyze(cia), indirect)
  }

  ghost predicate StaysSoundly<U(!new)>(m: Model<U>) {
    (forall st: LS.Statement :: m.mayLeave(st) ==> st.Simple?) &&
    (forall st: LS.Statement, indirect: bool, s: Cpu<U> :: !m.mayLeave(st) ==>
       m.exec(indirect, st, s) == Falls(LS.Step(m.others, st, s))) &&
    forall cia: nat, s: Cpu<U> :: !m.mayLeave(m.fetch(cia)) ==>
      m.step((cia, s)) == (cia + 4, LS.Step(m.others, m.fetch(cia), s))
  }

  ghost function ModelOf<U>(w: World<U>): Model<U> {
    Model(MB.Fetch(w.code), AnalysisOf(w.code), st => MayLeave(st), w.others, Interpreter(w), ExecutorOf(w))
  }

  lemma ModelIsSound<U(!new)>(w: World<U>)
    ensures LeavesSoundly(ModelOf(w)) && StaysSoundly(ModelOf(w))
  {
    var m := ModelOf(w);
    forall cia: nat, indirect: bool, s: Cpu<U> | cia % 4 == 0
      ensures Agrees(m.exec(indirect, m.fetch(cia), s), m.step((cia, s)), cia, m.analyze(cia), indirect)
    {
      LastStatementAgrees(w, cia, indirect, s);
    }
    forall st: LS.Statement, indirect: bool, s: Cpu<U> | !m.mayLeave(st)
      ensures m.exec(indirect, st, s) == Falls(LS.Step(m.others, st, s))
    {
      StaysInside(w, 0, indirect, st, s);
    }
    forall cia: nat, s: Cpu<U> | !m.mayLeave(m.fetch(cia))
      ensures m.step((cia, s)) == (cia + 4, LS.Step(m.others, m.fetch(cia), s))
    {
      StaysInside(w, cia, false, m.fetch(cia), s);
    }
  }

  // ---------------------------------------------------------------- straight-line code

  predicate NoneLeave(mayLeave: LS.Statement -> bool, sts: seq<LS.Statement>, n: nat)
    requires n <= |sts|
  {
    n == 0 || (!mayLeave(sts[n - 1]) && NoneLeave(mayLeave, sts, n - 1))
  }

  lemma {:induction false} NoneLeaveAt(mayLeave: LS.Statement -> bool, sts: seq<LS.Statement>, n: nat, i: nat)
    requires i < n <= |sts| && NoneLeave(mayLeave, sts, n)
    ensures !mayLeave(sts[i])
  {
    if i < n - 1 {
      NoneLeaveAt(mayLeave, sts, n - 1, i);
    }
  }

  lemma {:induction false} NoneLeavePrefix(mayLeave: LS.Statement -> bool, sts: seq<LS.Statement>, n: nat,
                                           more: LS.Statement)
    requires n <= |sts| && NoneLeave(mayLeave, sts + [more], n)
    ensures NoneLeave(mayLeave, sts, n)
  {
    if n > 0 {
      NoneLeavePrefix(mayLeave, sts, n - 1, more);
    }
  }

  lemma {:induction false} FrontFalls<U(!new)>(m: Model<U>, sts: seq<LS.Statement>, indirect: bool, n: nat, s: Cpu<U>)
    requires n <= |sts| && NoneLeave(m.mayLeave, sts, n) && StaysSoundly(m)
    ensures Statements(m.exec, sts, indirect, n, s) == Falls(LS.Run(m.others, sts[..n], s))
  {
    if n > 0 {
      FrontFalls(m, sts, indirect, n - 1, s);
      assert sts[..n][..n - 1] == sts[..n - 1];
    }
  }

  lemma {:induction false} StraightLine<U(!new)>(m: Model<U>, start: nat, n: nat, s: Cpu<U>)
    requires StaysSoundly(m) && NoneLeave(m.mayLeave, MB.Transformed(m.fetch, start, n), n)
    ensures Iterate(m.step, (start, s), n) == (start + 4 * n, LS.Run(m.others, MB.Transformed(m.fetch, start, n), s))
  {
    if n > 0 {
      var front, st := MB.Transformed(m.fetch, start, n - 1), m.fetch(start + 4 * (n - 1));
      NoneLeavePrefix(m.mayLeave, front, n - 1, st);
      StraightLine(m, start, n - 1, s);
      MB.LastOfRun(m.others, front, st, s);
    }
  }

  // ---------------------------------------------------------------- one block

  lemma {:induction false} FrontNeverLeaves(mayLeave: LS.Statement -> bool, plain: seq<LS.Statement>,
                                            sts: seq<LS.Statement>, n: nat)
    requires sts == MB.Rewritten(plain) && n < |sts| && plain != [] && NoneLeave(mayLeave, plain, |plain| - 1)
    requires forall st :: mayLeave(st) ==> st.Simple?
    ensures NoneLeave(mayLeave, sts, n)
  {
    if n > 0 {
      FrontNeverLeaves(mayLeave, plain, sts, n - 1);
      if mayLeave(sts[n - 1]) {
        MB.SimpleStatementsStay(plain, n - 1);
        var j: nat :| j < |plain| - 1 && plain[j] == sts[n - 1];
        NoneLeaveAt(mayLeave, plain, |plain| - 1, j);
      }
    }
  }

  /** The block starts on a word boundary, is not empty, and leaves only at its end; no unsafe loads
      are merged in it. */
  ghost predicate GoodBlock<U>(m: Model<U>, b: Block) {
    b.start % 4 == 0 && b.len % 4 == 0 && b.len >= 4 && GoodStatements(m, MB.Transformed(m.fetch, b.start, b.len / 4))
  }

  ghost predicate GoodStatements<U>(m: Model<U>, plain: seq<LS.Statement>) {
    plain != [] && NoneLeave(m.mayLeave, plain, |plain| - 1) &&
    MB.Singles(plain, true) && MB.Singles(plain, false) && MB.SafeLoads(plain)
  }

  /** All but the last of the emitted statements fall through and do what the instructions do; the
      last one is the last instruction. */
  ghost predicate IsBodyOf<U(!new)>(m: Model<U>, sts: seq<LS.Statement>, plain: seq<LS.Statement>) {
    sts != [] && plain != [] && sts[|sts| - 1] == plain[|plain| - 1] &&
    NoneLeave(m.mayLeave, sts, |sts| - 1) && MB.Alike(m.others, sts[..|sts| - 1], plain[..|plain| - 1])
  }

  lemma RewrittenIsBody<U(!new)>(m: Model<U>, plain: seq<LS.Statement>)
    requires GoodStatements(m, plain) && StaysSoundly(m)
    ensures IsBodyOf(m, MB.Rewritten(plain), plain)
  {
    MB.BlockEndsWithItsLastInstruction(plain);
    FrontNeverLeaves(m.mayLeave, plain, MB.Rewritten(plain), |MB.Rewritten(plain)| - 1);
    MB.FrontKeepsMeaning(m.others, plain);
  }

  /** Up to the last instruction. */
  lemma FrontAgrees<U(!new)>(m: Model<U>, t: Text, n: nat, s: Cpu<U>) returns (s1: Cpu<U>)
    requires StaysSoundly(m)
    requires var plain := MB.Transformed(m.fetch, t.start, n + 1);
      IsBodyOf(m, t.sts, plain) && NoneLeave(m.mayLeave, plain, n)
    ensures Statements(m.exec, t.sts, t.indirect, |t.sts| - 1, s) == Falls(s1)
    ensures Iterate(m.step, (t.start, s), n) == (t.start + 4 * n, s1)
  {
    var front, st := MB.Transformed(m.fetch, t.start, n), m.fetch(t.start + 4 * n);
    FrontOfTransformed(m.fetch, t.start, n);
    NoneLeavePrefix(m.mayLeave, front, n, st);
    StraightLine(m, t.start, n, s);
    s1 := FrontOfText(m, t, front, st, s);
  }

  lemma FrontOfTransformed(fetch: nat -> LS.Statement, start: nat, n: nat)
    ensures MB.Transformed(fetch, start, n + 1) == MB.Transformed(fetch, start, n) + [fetch(start + 4 * n)]
  {}

  lemma FrontOfText<U(!new)>(m: Model<U>, t: Text, front: seq<LS.Statement>, st: LS.Statement, s: Cpu<U>)
    returns (s1: Cpu<U>)
    requires StaysSoundly(m) && IsBodyOf(m, t.sts, front + [st])
    ensures Statements(m.exec, t.sts, t.indirect, |t.sts| - 1, s) == Falls(s1) && s1 == LS.Run(m.others, front, s)
  {
    assert (front + [st])[..|front|] == front;
    FrontFalls(m, t.sts, t.indirect, |t.sts| - 1, s);
    s1 := LS.Run(m.others, front, s);
  }

  lemma AgreeAtTheEnd<U>(exec: Executor<U>, step: Stepper<U>, t: Text, n: nat, cia: nat, info: Info, s: Cpu<U>,
                         s1: Cpu<U>)
    requires t.sts != [] && Statements(exec, t.sts, t.indirect, |t.sts| - 1, s) == Falls(s1)
    requires Iterate(step, (t.start, s), n) == (cia, s1)
    requires Agrees(exec(t.indirect, t.sts[|t.sts| - 1], s1), step((cia, s1)), cia, info, t.indirect)
    ensures Agrees(TextBody(exec, t, s), Iterate(step, (t.start, s), n + 1), cia, info, t.indirect)
  {}

  /** The text of a block does what the interpreter does, in as many steps as there are instructions;
      extraction makes no difference, because the front falls through. */
  lemma BodyAgrees<U(!new)>(m: Model<U>, t: Text, n: nat, s: Cpu<U>)
    requires LeavesSoundly(m) && StaysSoundly(m) && t.start % 4 == 0
    requires var plain := MB.Transformed(m.fetch, t.start, n + 1);
      IsBodyOf(m, t.sts, plain) && NoneLeave(m.mayLeave, plain, n)
    ensures var cia := t.start + 4 * n;
      Agrees(TextBody(m.exec, t, s), Iterate(m.step, (t.start, s), n + 1), cia, m.analyze(cia), t.indirect)
  {
    var cia := t.start + 4 * n;
    var s1 := FrontAgrees(m, t, n, s);
    assert Agrees(m.exec(t.indirect, m.fetch(cia), s1), m.step((cia, s1)), cia, m.analyze(cia), t.indirect);
    AgreeAtTheEnd(m.exec, m.step, t, n, cia, m.analyze(cia), s, s1);
  }

  // ---------------------------------------------------------------- from block to block

  /** A part as `partitionBasicBlocks` leaves it: in ascending order and disjoint. */
  ghost predicate InOrder(part: seq<Block>) {
    (forall i :: 0 <= i < |part| ==> part[i].len >= 4) &&
    forall i, j :: 0 <= i < j < |part| ==> Before(part, i, j)
  }

  ghost predicate Before(part: seq<Block>, i: nat, j: nat)
    requires i < |part| && j < |part|
  {
    part[i].start + part[i].len <= part[j].start
  }

  lemma NextBlock(part: seq<Block>, i: nat, j: nat)
    requires InOrder(part) && i < |part| && j < |part| && part[j].start == part[i].start + part[i].len
    ensures j == i + 1
  {
    assert j < i ==> Before(part, j, i);
    assert i + 1 < j ==> Before(part, i, i + 1) && Before(part, i + 1, j);
  }

  /** The emitted function is where the interpreter is, at a label of the part or gone. */
  ghost predicate SamePlace<U>(part: seq<Block>, p: Place<U>, next: (nat, Cpu<U>)) {
    match p
    case At(j, s) => j < |part| && next == (part[j].start, s)
    case Gone(nip, s) => next == (nip, s)
    case Wrong => false
  }

  /** Every goto finds its label, and falling off a block reaches either the label of the block that
      begins there or an explicit NIP: the labels are in the order of the addresses. */
  lemma ControlAgrees<U>(part: seq<Block>, texts: seq<Text>, i: nat, o: Outcome<U>, next: (nat, Cpu<U>), info: Info)
    requires InOrder(part) && |texts| == |part| && forall k :: 0 <= k < |part| ==> texts[k].start == part[k].start
    requires i < |part| && part[i].start % 4 == 0 && part[i].len % 4 == 0
    requires var b, t := part[i], texts[i];
      t.indirect == (info.flow && info.target.Some? && !InPart(part, info.target.value)) &&
      t.leave == (if (info.flow && !info.passthrough) || InPart(part, b.start + b.len) then None
                  else Some(b.start + b.len)) &&
      Agrees(o, next, LastCia(b), info, t.indirect)
    ensures SamePlace(part, After(texts, i, WithLeave(texts[i], o)), next)
  {
    var t := texts[i];
    match o
    case Falls(s) =>
      if t.leave.None? {
        var j :| 0 <= j < |part| && part[j].start == part[i].start + part[i].len;
        NextBlock(part, i, j);
      }
    case Goes(target, s) =>
      var j :| 0 <= j < |part| && part[j].start == target;
      assert IsLabel(texts, target, j);
    case Returns(_, _) =>
  }

  /** What `EmitPart` prints for a part of good blocks. */
  ghost predicate IsEmitted<U>(m: Model<U>, part: seq<Block>, texts: seq<Text>, minSize: nat) {
    InOrder(part) && |texts| == |part| && AreTextsOf(texts, m.fetch, m.analyze, part, minSize, |part|) &&
    forall i :: 0 <= i < |part| ==> GoodBlock(m, part[i])
  }

  lemma StatementsOfBlock<U(!new)>(m: Model<U>, b: Block, plain: seq<LS.Statement>)
    requires StaysSoundly(m) && GoodBlock(m, b) && plain == MB.Transformed(m.fetch, b.start, b.len / 4)
    ensures IsBodyOf(m, MB.Rewritten(plain), plain) && NoneLeave(m.mayLeave, plain, b.len / 4 - 1)
  {
    assert GoodStatements(m, plain) && |plain| == b.len / 4;
    RewrittenIsBody(m, plain);
  }

  lemma BodyOfBlock<U(!new)>(m: Model<U>, b: Block, t: Text, s: Cpu<U>)
    requires LeavesSoundly(m) && StaysSoundly(m) && b.start % 4 == 0 && b.len % 4 == 0 && b.len >= 4
    requires t.start == b.start
    requires var plain := MB.Transformed(m.fetch, b.start, b.len / 4);
      IsBodyOf(m, t.sts, plain) && NoneLeave(m.mayLeave, plain, b.len / 4 - 1)
    ensures Agrees(TextBody(m.exec, t, s), Iterate(m.step, (b.start, s), b.len / 4), LastCia(b), m.analyze(LastCia(b)),
                   t.indirect)
  {
    var n: nat := b.len / 4 - 1;
    assert b.len / 4 == n + 1 && LastCia(b) == t.start + 4 * n;
    BodyAgrees(m, t, n, s);
  }

  lemma StepOfText<U>(exec: Executor<U>, texts: seq<Text>, i: nat, s: Cpu<U>)
    requires i < |texts|
    ensures BlockStepper(exec, texts)(At(i, s)) == After(texts, i, WithLeave(texts[i], TextBody(exec, texts[i], s)))
  {}

  /** Running one block of an emitted part is running its instructions in the interpreter. */
  lemma BlockSimulates<U(!new)>(m: Model<U>, part: seq<Block>, texts: seq<Text>, minSize: nat, i: nat, s: Cpu<U>)
    requires LeavesSoundly(m) && StaysSoundly(m) && IsEmitted(m, part, texts, minSize) && i < |part|
    ensures SamePlace(part, BlockStepper(m.exec, texts)(At(i, s)),
                      Iterate(m.step, (part[i].start, s), part[i].len / 4))
  {
    var b, t := part[i], texts[i];
    TextOfBlock(m, part, texts, minSize, i);
    StatementsOfBlock(m, b, MB.Transformed(m.fetch, b.start, b.len / 4));
    BodyOfBlock(m, b, t, s);
    StepOfText(m.exec, texts, i, s);
    ControlAgrees(part, texts, i, TextBody(m.exec, t, s), Iterate(m.step, (b.start, s), b.len / 4),
                  m.analyze(LastCia(b)));
  }

  lemma TextOfBlock<U>(m: Model<U>, part: seq<Block>, texts: seq<Text>, minSize: nat, i: nat)
    requires IsEmitted(m, part, texts, minSize) && i < |part|
    ensures forall k :: 0 <= k < |part| ==> texts[k].start == part[k].start
    ensures var b, t := part[i], texts[i]; var info := m.analyze(LastCia(b));
      GoodBlock(m, b) && t.sts == MB.Rewritten(MB.Transformed(m.fetch, b.start, b.len / 4)) &&
      t.indirect == (info.flow && info.target.Some? && !InPart(part, info.target.value)) &&
      t.leave == (if (info.flow && !info.passthrough) || InPart(part, b.start + b.len) then None
                  else Some(b.start + b.len))
  {
    forall k | 0 <= k < |part| ensures IsTextOf(texts[k], m.fetch, m.analyze, part, part[k], minSize) {}
  }

  /** One more block is some more instructions. */
  ghost predicate Continues<U(!new)>(step: Stepper<U>, next: Place<U> -> Place<U>, part: seq<Block>) {
    (forall i :: 0 <= i < |part| ==> part[i].len >= 4) &&
    (forall p: Place<U> :: !p.At? ==> next(p) == p) &&
    forall i: nat, s: Cpu<U> :: i < |part| ==>
      SamePlace(part, next(At(i, s)), Iterate(step, (part[i].start, s), part[i].len / 4))
  }

  lemma {:induction false} BlocksSimulate<U(!new)>(step: Stepper<U>, next: Place<U> -> Place<U>, part: seq<Block>,
                                                   i: nat, s: Cpu<U>, n: nat)
    returns (steps: nat)
    requires Continues(step, next, part) && i < |part|
    ensures SamePlace(part, Iterate(next, At(i, s), n), Iterate(step, (part[i].start, s), steps))
    ensures Iterate(next, At(i, s), n).At? ==> steps >= n
  {
    if n == 0 {
      steps := 0;
    } else {
      steps := BlocksSimulate(step, next, part, i, s, n - 1);
      var p := Iterate(next, At(i, s), n - 1);
      if p.At? {
        IterateSum(step, (part[i].start, s), steps, part[p.at].len / 4);
        steps := steps + part[p.at].len / 4;
      }
    }
  }

  /** Entered at any label, an emitted part does what the interpreter does until it is left for the
      first time: after any number of blocks it is at the label of the block the interpreter is about
      to enter, or it has returned with the interpreter's NIP. It never runs off its end, and no goto
      is without a label. */
  lemma PartSimulates<U(!new)>(w: World<U>, part: seq<Block>, texts: seq<Text>, minSize: nat, i: nat, s: Cpu<U>, n: nat)
    returns (steps: nat)
    requires IsEmitted(ModelOf(w), part, texts, minSize) && i < |part|
    ensures SamePlace(part, Blocks(ExecutorOf(w), texts, At(i, s), n),
                      Iterate(Interpreter(w), (part[i].start, s), steps))
    ensures Blocks(ExecutorOf(w), texts, At(i, s), n).At? ==> steps >= n
  {
    var m := ModelOf(w);
    ModelIsSound(w);
    EmittedContinues(m, part, texts, minSize);
    steps := BlocksSimulate(m.step, BlockStepper(m.exec, texts), part, i, s, n);
  }

  lemma EmittedContinues<U(!new)>(m: Model<U>, part: seq<Block>, texts: seq<Text>, minSize: nat)
    requires LeavesSoundly(m) && StaysSoundly(m) && IsEmitted(m, part, texts, minSize)
    ensures Continues(m.step, BlockStepper(m.exec, texts), part)
  {
    forall i: nat, s: Cpu<U> | i < |part|
      ensures SamePlace(part, BlockStepper(m.exec, texts)(At(i, s)),
                        Iterate(m.step, (part[i].start, s), part[i].len / 4))
    {
      BlockSimulates(m, part, texts, minSize, i, s);
    }
  }
}
