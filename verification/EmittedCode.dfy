/** The text emitted for a part of the program against the interpreter
    (ps3tool/rewrite.cpp:163-183, 414-450 and 737-793; ps3emu/ppu/ppu_dasm.cpp:40-60 and 198-339). */
module EmittedCode {
  import opened Common
  import opened BitFields
  import opened Branches
  import LS = LoadStores
  import MB = MergedBlocks
  import opened BasicBlocks

  /** What branches work on, and whatever else there is; NIP is not part of it, since emitted code
      leaves it alone until it returns. */
  datatype Thread<U> = Thread(lr: nat, ctr: nat, cr: nat, more: U)

  type Cpu<U> = LS.Machine<Thread<U>>

  /** The guest program, with the instructions that are neither branch, load nor store left open. */
  datatype World<!U> = World(
    code: nat -> nat,
    others: (nat, nat, Cpu<U>) -> Cpu<U>,
    ncall: (nat, Cpu<U>) -> (nat, Cpu<U>))

  // ---------------------------------------------------------------- the interpreter

  ghost function Interpret1<U>(w: World<U>, nip: nat, s: Cpu<U>): (nat, Cpu<U>) {
    var word := w.code(nip);
    if IsBranch(word) then
      var b := Execute(word, nip, BranchState(nip + 4, s.rest.lr, s.rest.ctr, s.rest.cr));
      (b.nip, s.(rest := s.rest.(lr := b.lr, ctr := b.ctr)))
    else if IsNCall(word) then w.ncall(word, s)
    else (nip + 4, LS.Interpret(w.others, nip, LS.Decode(word), s))
  }

  type Stepper<!U> = ((nat, Cpu<U>)) -> (nat, Cpu<U>)

  ghost function Interpreter<U>(w: World<U>): Stepper<U> {
    (c: (nat, Cpu<U>)) => Interpret1(w, c.0, c.1)
  }

  /** The interpreter does a branch as the architecture asks for: it changes NIP, LR and CTR and nothing
      else. */
  lemma InterpretedBranch<U>(w: World<U>, nip: nat, s: Cpu<U>)
    requires IsBranch(w.code(nip))
    ensures var (nip', s') := Interpret1(w, nip, s); var word := w.code(nip); var taken :=
        IsToBeTaken(word, BranchState(nip + 4, s.rest.lr, s.rest.ctr, s.rest.cr));
      && s'.gpr == s.gpr && s'.memory == s.memory && s'.rest.more == s.rest.more && s'.rest.cr == s.rest.cr
      && s'.rest.lr == (if Links(word) then nip + 4 else s.rest.lr)
      && s'.rest.ctr == CounterAfter(word, s.rest.ctr)
      && (!taken ==> nip' == nip + 4)
      && (taken && (Form(word, 16) || Form(word, 18)) ==>
            nip' == (Displacement(word) + if IsAbsolute(word) then 0 else nip) % 0x1_0000_0000)
      && (taken && RegisterForm(word, 16) ==> nip' == s.rest.lr % 0x1_0000_0000 / 4 * 4)
      && (taken && RegisterForm(word, 528) ==> nip' == s.rest.ctr % 0x1_0000_0000 / 4 * 4)
  {
    BranchEffect(w.code(nip), nip, BranchState(nip + 4, s.rest.lr, s.rest.ctr, s.rest.cr));
  }

  // ---------------------------------------------------------------- emitted statements

  datatype Outcome<U> =
    | Falls(s: Cpu<U>)
    | Goes(target: nat, s: Cpu<U>)
    | Returns(nip: nat, s: Cpu<U>)

  /** `SET_NIP`: a goto, or SET_NIP_INDIRECT where it has been redefined. */
  function SetNip<U>(indirect: bool, nia: nat, s: Cpu<U>): Outcome<U> {
    if indirect then Returns(nia / 4 * 4, s) else Goes(nia, s)
  }

  /** The branch macros as the emitted code sees them. */
  function BranchMacro<U>(word: nat, cia: nat, indirect: bool, s: Cpu<U>): Outcome<U>
    requires IsBranch(word)
  {
    var ctr := if (IsBC(word) || IsBCLR(word)) && !Bit(word, 8) then (s.rest.ctr - 1) % DOUBLEWORD else s.rest.ctr;
    var s' := s.(rest := s.rest.(ctr := ctr, lr := if LinkBit(word) then cia + 4 else s.rest.lr));
    if IsB(word) then SetNip(indirect, DirectTarget(word, cia), s')
    else if IsBC(word) then
      if CtrOk(word, ctr) && CondOk(word, s.rest.cr) then SetNip(indirect, DirectTarget(word, cia), s') else Falls(s')
    else if IsBCLR(word) then
      if CtrOk(word, ctr) && CondOk(word, s.rest.cr) then Returns(s.rest.lr % WORD / 4 * 4, s') else Falls(s')
    else
      if CondOk(word, s.rest.cr) then Returns(s.rest.ctr % WORD / 4 * 4, s') else Falls(s')
  }

  ghost function Statement1<U>(w: World<U>, st: LS.Statement, indirect: bool, s: Cpu<U>): Outcome<U> {
    if st.Simple? && st.instr.Other? && IsBranch(st.instr.word) then BranchMacro(st.instr.word, st.cia, indirect, s)
    else if st.Simple? && st.instr.Other? && IsNCall(st.instr.word) then
      var (nip, s') := w.ncall(st.instr.word, s);
      Returns(nip, s')
    else Falls(LS.Step(w.others, st, s))
  }

  /** What a printed statement does; the flag says whether SET_NIP is redefined around it. */
  type Executor<!U> = (bool, LS.Statement, Cpu<U>) -> Outcome<U>

  ghost function ExecutorOf<U>(w: World<U>): Executor<U> {
    (indirect, st, s) => Statement1(w, st, indirect, s)
  }

  /** The first `n` statements, until one does not fall through. */
  ghost function Statements<U>(exec: Executor<U>, sts: seq<LS.Statement>, indirect: bool, n: nat, s: Cpu<U>): Outcome<U>
    requires n <= |sts|
  {
    if n == 0 then Falls(s)
    else
      match Statements(exec, sts, indirect, n - 1, s)
      case Falls(s') => exec(indirect, sts[n - 1], s')
      case other => other
  }

  // ---------------------------------------------------------------- emitted blocks

  /** `BasicBlockInfo`: the statements of a block, whether SET_NIP is redefined around them, the
      explicit SET_NIP_INDIRECT behind them, and whether all but the last are moved to a function of
      their own. */
  datatype Text = Text(start: nat, sts: seq<LS.Statement>, indirect: bool, leave: Option<nat>, extracted: bool)

  /** A statement that returns from an extracted function returns to the block; one that goes to a
      label would not compile, and is taken to leave the block like any other goto. */
  ghost function TextBody<U>(exec: Executor<U>, t: Text, s: Cpu<U>): Outcome<U> {
    if t.extracted && t.sts != [] then
      var front := Statements(exec, t.sts, t.indirect, |t.sts| - 1, s);
      if front.Goes? then front else exec(t.indirect, t.sts[|t.sts| - 1], front.s)
    else Statements(exec, t.sts, t.indirect, |t.sts|, s)
  }

  /** The SET_NIP_INDIRECT behind the statements, if there is one. */
  function WithLeave<U>(t: Text, o: Outcome<U>): Outcome<U> {
    if o.Falls? && t.leave.Some? then Returns(t.leave.value / 4 * 4, o.s) else o
  }

  /** Where the emitted function is: at the label of block `at`, gone with NIP set, or gone wrong,
      by running off its end with a stale NIP or through a goto without a label. */
  datatype Place<U> =
    | At(at: nat, s: Cpu<U>)
    | Gone(nip: nat, s: Cpu<U>)
    | Wrong

  predicate IsLabel(texts: seq<Text>, va: nat, k: nat) {
    k < |texts| && texts[k].start == va
  }

  /** Falling off the text of a block enters the text of the next. */
  ghost function After<U>(texts: seq<Text>, i: nat, o: Outcome<U>): Place<U> {
    match o
    case Falls(s) => if i + 1 < |texts| then At(i + 1, s) else Wrong
    case Returns(nip, s) => Gone(nip, s)
    case Goes(va, s) =>
      if exists k: nat :: IsLabel(texts, va, k) then
        var k: nat :| IsLabel(texts, va, k); At(k, s)
      else Wrong
  }

  /** One block. */
  ghost function BlockStep<U>(exec: Executor<U>, texts: seq<Text>, p: Place<U>): Place<U> {
    match p
    case At(i, s) =>
      if i >= |texts| then Wrong
      else After(texts, i, WithLeave(texts[i], TextBody(exec, texts[i], s)))
    case _ => p
  }

  ghost function BlockStepper<U>(exec: Executor<U>, texts: seq<Text>): Place<U> -> Place<U> {
    p => BlockStep(exec, texts, p)
  }

  /** `n` blocks of the emitted function. */
  ghost function Blocks<U>(exec: Executor<U>, texts: seq<Text>, p: Place<U>, n: nat): Place<U> {
    Iterate(BlockStepper(exec, texts), p, n)
  }

  // ---------------------------------------------------------------- emission

  predicate InPart(part: seq<Block>, va: nat) {
    exists i :: 0 <= i < |part| && part[i].start == va
  }

  function LastCia(b: Block): nat
    requires b.len >= 4
  {
    b.start + b.len - 4
  }

  /** The two results of `outOfPartTargets`; zero stands for no fallthrough. */
  method OutOfPartTargets(block: Block, part: seq<Block>, analyze: Analysis)
    returns (target: Option<nat>, fallthrough: nat)
    requires block.len >= 4
    ensures var info := analyze(LastCia(block));
      target == (if info.flow && info.target.Some? && !InPart(part, info.target.value) then info.target else None) &&
      fallthrough == if (info.flow && !info.passthrough) || InPart(part, block.start + block.len) then 0
                     else block.start + block.len
  {
    var info := analyze(block.start + block.len - 4);
    target := None;
    fallthrough := block.start + block.len;
    var found := Find(part, fallthrough);
    if (info.flow && !info.passthrough) || found {
      fallthrough := 0;
    }
    if info.flow && info.target.Some? {
      found := Find(part, info.target.value);
      if !found {
        target := info.target;
      }
    }
  }

  method Find(part: seq<Block>, va: nat) returns (found: bool)
    ensures found <==> InPart(part, va)
  {
    for i := 0 to |part|
      invariant forall k :: 0 <= k < i ==> part[k].start != va
    {
      if part[i].start == va {
        return true;
      }
    }
    return false;
  }

  /** The number of lines printed for the statements. */
  function PrintedLines(sts: seq<LS.Statement>): nat {
    if sts == [] then 0
    else
      var st := sts[|sts| - 1];
      PrintedLines(sts[..|sts| - 1]) + (if st.Simple? || |st.src| == 1 then 1 else 5 + 2 * |st.src|)
  }

  /** What is printed for block `b` of the part. */
  ghost predicate IsTextOf(t: Text, fetch: nat -> LS.Statement, analyze: Analysis, part: seq<Block>, b: Block,
                           minSize: nat)
    requires b.len >= 4
  {
    var info := analyze(LastCia(b));
    var next := b.start + b.len;
    var stays := (info.flow && !info.passthrough) || InPart(part, next);
    t.start == b.start &&
    t.sts == MB.Rewritten(MB.Transformed(fetch, b.start, b.len / 4)) &&
    t.indirect == (info.flow && info.target.Some? && !InPart(part, info.target.value)) &&
    t.leave == (if stays || next == 0 then None else Some(next)) &&
    t.extracted == (!t.indirect && t.leave.None? && PrintedLines(t.sts) >= minSize)
  }

  /** The body of the per-part loop of `rewritePPU`. */
  method EmitBlock(block: Block, part: seq<Block>, code: nat -> nat, analyze: Analysis, minSize: nat) returns (t: Text)
    requires block.len >= 4 && block.len % 4 == 0
    ensures IsTextOf(t, MB.Fetch(code), analyze, part, block, minSize)
  {
    var processed := MB.RewriteBlock(code, block.start, block.len);
    var target, fallthrough := OutOfPartTargets(block, part, analyze);
    var extractable := target.None? && fallthrough == 0;
    var leave := if fallthrough != 0 then Some(fallthrough) else None;
    t := Text(block.start, processed.statements, target.Some?, leave,
              extractable && PrintedLines(processed.statements) >= minSize);
  }

  ghost predicate AreTextsOf(texts: seq<Text>, fetch: nat -> LS.Statement, analyze: Analysis, part: seq<Block>,
                             minSize: nat, n: nat)
    requires n <= |part| && forall i :: 0 <= i < |part| ==> part[i].len >= 4
  {
    n <= |texts| && forall i :: 0 <= i < n ==> IsTextOf(texts[i], fetch, analyze, part, part[i], minSize)
  }

  method EmitPart(part: seq<Block>, code: nat -> nat, analyze: Analysis, minSize: nat) returns (texts: seq<Text>)
    requires forall i :: 0 <= i < |part| ==> part[i].len >= 4 && part[i].len % 4 == 0
    ensures |texts| == |part| && AreTextsOf(texts, MB.Fetch(code), analyze, part, minSize, |part|)
  {
    texts := [];
    for i := 0 to |part|
      invariant |texts| == i && AreTextsOf(texts, MB.Fetch(code), analyze, part, minSize, i)
    {
      var t := EmitBlock(part[i], part, code, analyze, minSize);
      OneMoreText(texts, t, MB.Fetch(code), analyze, part, minSize);
      texts := texts + [t];
    }
  }

  lemma OneMoreText(texts: seq<Text>, t: Text, fetch: nat -> LS.Statement, analyze: Analysis, part: seq<Block>,
                    minSize: nat)
    requires |texts| < |part| && forall i :: 0 <= i < |part| ==> part[i].len >= 4
    requires AreTextsOf(texts, fetch, analyze, part, minSize, |texts|)
    requires IsTextOf(t, fetch, analyze, part, part[|texts|], minSize)
    ensures AreTextsOf(texts + [t], fetch, analyze, part, minSize, |texts| + 1)
  {}
}
