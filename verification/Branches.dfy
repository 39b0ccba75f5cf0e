/** The branch instructions of the interpreter and the static analysis the rewriter makes of them
    (ps3emu/ppu/ppu_dasm.cpp:190-339 and 4813-4844). */
module Branches {
  import opened Common
  import opened BitFields

  /** `InstructionInfo` (ps3emu/dasm_utils.h:166-174), without the operand lists. */
  datatype Info = Info(flow: bool, passthrough: bool, target: Option<nat>, ncall: bool)

  /** What a branch reads and writes: LR and CTR are 64 bits wide, CR is 32. */
  datatype BranchState = BranchState(nip: nat, lr: nat, ctr: nat, cr: nat)

  const DOUBLEWORD: nat := 0x1_0000_0000_0000_0000

  function Opcode(word: nat): nat { Field(word, 0, 6) }

  function ExtendedOpcode(word: nat): nat { Field(word, 21, 31) }

  predicate LinkBit(word: nat) { Bit(word, 31) }

  /** getNIA of the I-form and the B-form: the displacement is a multiple of four. */
  function NextAddress(word: nat, cia: nat, displacement: int): nat {
    (if Bit(word, 30) then 4 * displacement else cia + 4 * displacement) % WORD
  }

  predicate IsB(word: nat) { Opcode(word) == 18 }
  predicate IsBC(word: nat) { Opcode(word) == 16 }
  predicate IsBCLR(word: nat) { Opcode(word) == 19 && ExtendedOpcode(word) == 16 }
  predicate IsBCCTR(word: nat) { Opcode(word) == 19 && ExtendedOpcode(word) == 528 }
  predicate IsNCall(word: nat) { Opcode(word) == 1 }
  predicate IsBranch(word: nat) { IsB(word) || IsBC(word) || IsBCLR(word) || IsBCCTR(word) }

  /** Target of a B or a BC. */
  function DirectTarget(word: nat, cia: nat): nat {
    NextAddress(word, cia, if IsB(word) then SignedField(word, 6, 30) else SignedField(word, 16, 30))
  }

  /** `analyze`, with BO0 and BO2 at bits 6 and 8 of the word. */
  function Analyze(word: nat, cia: nat): Info {
    if IsNCall(word) then Info(true, false, None, true)
    else if IsB(word) then Info(true, LinkBit(word), Some(DirectTarget(word, cia)), false)
    else if IsBC(word) then
      Info(true, !(Bit(word, 8) && Bit(word, 6)) || LinkBit(word), Some(DirectTarget(word, cia)), false)
    else if IsBCLR(word) then Info(true, !(Bit(word, 8) && Bit(word, 6)) || LinkBit(word), None, false)
    else if IsBCCTR(word) then Info(true, !Bit(word, 6) || LinkBit(word), None, false)
    else Info(false, false, None, false)
  }

  /** `isTaken`; the CTR has been decremented already. */
  predicate CtrOk(word: nat, ctr: nat) {
    Bit(word, 8) || (ctr != 0) != Bit(word, 9)
  }

  predicate CondOk(word: nat, cr: nat) {
    Bit(word, 6) || Bit(cr, Field(word, 11, 16) % 32) == Bit(word, 7)
  }

  /** The macros `_B`, `_BC`, `_BCLR` and `_BCCTR` in the interpreter, where NIP is cia + 4 on entry. */
  function Execute(word: nat, cia: nat, s: BranchState): BranchState
    requires IsBranch(word)
  {
    var ctr := if (IsBC(word) || IsBCLR(word)) && !Bit(word, 8) then (s.ctr - 1) % DOUBLEWORD else s.ctr;
    var lr := if LinkBit(word) then cia + 4 else s.lr;
    var nip :=
      if IsB(word) then DirectTarget(word, cia)
      else if IsBC(word) then
        if CtrOk(word, ctr) && CondOk(word, s.cr) then DirectTarget(word, cia) else cia + 4
      else if IsBCLR(word) then
        if CtrOk(word, ctr) && CondOk(word, s.cr) then s.lr % WORD / 4 * 4 else cia + 4
      else
        if CondOk(word, s.cr) then s.ctr % WORD / 4 * 4 else cia + 4;
    BranchState(nip, lr, ctr, s.cr)
  }

  predicate Taken(word: nat, s: BranchState) {
    var ctr := if (IsBC(word) || IsBCLR(word)) && !Bit(word, 8) then (s.ctr - 1) % DOUBLEWORD else s.ctr;
    IsB(word) || ((IsBCCTR(word) || CtrOk(word, ctr)) && CondOk(word, s.cr))
  }

  /** `analyze` is sound for the interpreter, for every value of CR, CTR and LR: a flow instruction
      is a branch or a host call; a direct branch goes to its target when taken; a branch that can
      fall through or that links is marked as passing through, so one that is not marked is always
      taken and leaves LR alone. */
  lemma AnalyzeIsSound(word: nat, cia: nat, s: BranchState)
    ensures var info := Analyze(word, cia);
      && (info.flow <==> IsBranch(word) || IsNCall(word))
      && (info.target.Some? <==> IsB(word) || IsBC(word))
      && (IsBranch(word) ==>
            var after := Execute(word, cia, s);
            && (Taken(word, s) && info.target.Some? ==> after.nip == info.target.value)
            && (Taken(word, s) && IsBCLR(word) ==> after.nip == s.lr % WORD / 4 * 4)
            && (Taken(word, s) && IsBCCTR(word) ==> after.nip == s.ctr % WORD / 4 * 4)
            && (!Taken(word, s) ==> after.nip == cia + 4 && info.passthrough)
            && (after.lr != s.lr ==> after.lr == cia + 4 && info.passthrough))
  {
    assert !(IsNCall(word) && IsBranch(word));
  }

  /** `passthrough` is not claimed in vain: a branch without a link that is said to pass through is
      not taken in some state. */
  lemma PassthroughIsExact(word: nat, cia: nat) returns (s: BranchState)
    requires IsBranch(word) && Analyze(word, cia).passthrough && !LinkBit(word)
    ensures !Taken(word, s)
  {
    if Bit(word, 6) {
      s := BranchState(cia, 0, if Bit(word, 9) then 2 else 1, 0);
    } else {
      var bi := Field(word, 11, 16) % 32;
      OneBit(bi);
      s := BranchState(cia, 0, 0, if Bit(word, 7) then 0 else Pow2(31 - bi));
    }
  }

  lemma OneBit(pos: nat)
    requires pos < 32
    ensures Bit(Pow2(31 - pos), pos) && !Bit(0, pos)
  {
    var p := Pow2(31 - pos);
    assert p / p == 1 && 0 / p == 0;
    assert Pow2(1) == 2;
  }

  lemma TargetIsAligned(word: nat, cia: nat)
    requires cia % 4 == 0
    ensures Analyze(word, cia).target.Some? ==>
      Analyze(word, cia).target.value % 4 == 0 && Analyze(word, cia).target.value < WORD
  {
    var d := if IsB(word) then SignedField(word, 6, 30) else SignedField(word, 16, 30);
    var k := if Bit(word, 30) then d else cia / 4 + d;
    FourTimes(k);
    assert NextAddress(word, cia, d) == 4 * k % WORD;
  }

  lemma FourTimes(k: int)
    ensures 4 * k % WORD % 4 == 0
  {
    var q := 4 * k / WORD;
    assert 4 * k == q * WORD + 4 * k % WORD;
    MultipleOfFour(4 * k % WORD, k - q * 0x4000_0000);
  }

  lemma MultipleOfFour(m: int, n: int)
    requires m == 4 * n
    ensures m % 4 == 0
  {
  }

  // ---------------------------------------------------------------- what the architecture asks for

  /** The fields of a branch on the word as a number: the low bit is LK and the next one AA, the first bit
      of BO stands for 2^25, and BI is in units of 2^16 (PowerPC User Instruction Set Architecture,
      Book I, section 2.4). */
  predicate Form(word: nat, opcode: nat) { word / 0x400_0000 % 64 == opcode }

  predicate RegisterForm(word: nat, extended: nat) { Form(word, 19) && word / 2 % 1024 == extended }

  predicate Links(word: nat) { word % 2 == 1 }

  predicate IsAbsolute(word: nat) { word / 2 % 2 == 1 }

  /** A number of `2 * half` values as a signed one. */
  function Signed(u: int, half: int): int { if u < half then u else u - 2 * half }

  /** LI or BD with two zero bits appended. */
  function Displacement(word: nat): int {
    if Form(word, 18) then 4 * Signed(word / 4 % 0x100_0000, 0x80_0000) else 4 * Signed(word / 4 % 0x4000, 0x2000)
  }

  /** BO as four bits, the most significant first; the fifth is a hint. */
  predicate IgnoresCondition(word: nat) { word / 0x200_0000 % 2 == 1 }
  predicate WantsSet(word: nat) { word / 0x100_0000 % 2 == 1 }
  predicate LeavesCounter(word: nat) { word / 0x80_0000 % 2 == 1 }
  predicate WantsZero(word: nat) { word / 0x40_0000 % 2 == 1 }

  /** Bit BI of CR, counted from the most significant one. */
  predicate ConditionBit(word: nat, cr: nat) {
    cr / Pow2(31 - word / 0x1_0000 % 32) % 2 == 1
  }

  function CounterAfter(word: nat, ctr: nat): nat {
    if (Form(word, 16) || RegisterForm(word, 16)) && !LeavesCounter(word) then (ctr - 1) % 0x1_0000_0000_0000_0000
    else ctr
  }

  /** Whether the branch is to be taken: both tests hold, of those the form has and BO asks for. */
  predicate IsToBeTaken(word: nat, s: BranchState) {
    && (Form(word, 18) || IgnoresCondition(word) || (ConditionBit(word, s.cr) <==> WantsSet(word)))
    && (Form(word, 18) || RegisterForm(word, 528) || LeavesCounter(word) ||
        (CounterAfter(word, s.ctr) == 0 <==> WantsZero(word)))
  }

  /** What a branch does, for every word and every state. */
  lemma BranchEffect(word: nat, cia: nat, s: BranchState)
    ensures IsBranch(word) <==> Form(word, 16) || Form(word, 18) || RegisterForm(word, 16) || RegisterForm(word, 528)
    ensures IsNCall(word) <==> Form(word, 1)
    ensures IsBranch(word) ==> (Taken(word, s) <==> IsToBeTaken(word, s))
    ensures IsBranch(word) ==> var after := Execute(word, cia, s);
      && after.lr == (if Links(word) then cia + 4 else s.lr)
      && after.ctr == CounterAfter(word, s.ctr)
      && after.cr == s.cr
      && (!IsToBeTaken(word, s) ==> after.nip == cia + 4)
      && (IsToBeTaken(word, s) && (Form(word, 16) || Form(word, 18)) ==>
            after.nip == (Displacement(word) + if IsAbsolute(word) then 0 else cia) % 0x1_0000_0000)
      && (IsToBeTaken(word, s) && RegisterForm(word, 16) ==> after.nip == s.lr % 0x1_0000_0000 / 4 * 4)
      && (IsToBeTaken(word, s) && RegisterForm(word, 528) ==> after.nip == s.ctr % 0x1_0000_0000 / 4 * 4)
  {
    FieldsOfBranch(word);
    ConditionIsBit(word, s.cr);
    TargetIsDisplaced(word, cia);
  }

  lemma FieldsOfBranch(word: nat)
    ensures Opcode(word) == word / 0x400_0000 % 64 && ExtendedOpcode(word) == word / 2 % 1024
    ensures (LinkBit(word) <==> Links(word)) && (Bit(word, 30) <==> IsAbsolute(word))
    ensures (Bit(word, 6) <==> IgnoresCondition(word)) && (Bit(word, 7) <==> WantsSet(word))
    ensures (Bit(word, 8) <==> LeavesCounter(word)) && (Bit(word, 9) <==> WantsZero(word))
    ensures Field(word, 11, 16) == word / 0x1_0000 % 32
    ensures SignedField(word, 6, 30) == Signed(word / 4 % 0x100_0000, 0x80_0000)
    ensures SignedField(word, 16, 30) == Signed(word / 4 % 0x4000, 0x2000)
  {
    Powers();
  }

  lemma Powers()
    ensures Pow2(0) == 1 && Pow2(1) == 2 && Pow2(2) == 4 && Pow2(5) == 32 && Pow2(6) == 64
    ensures Pow2(10) == 1024 && Pow2(13) == 0x2000 && Pow2(14) == 0x4000 && Pow2(16) == 0x1_0000
    ensures Pow2(21) == 0x20_0000 && Pow2(22) == 0x40_0000 && Pow2(23) == 0x80_0000 && Pow2(24) == 0x100_0000
    ensures Pow2(25) == 0x200_0000 && Pow2(26) == 0x400_0000
  {
    assert Pow2(2) == 4 && Pow2(3) == 8 && Pow2(4) == 16 && Pow2(5) == 32;
    assert Pow2(6) == 64 && Pow2(7) == 128 && Pow2(8) == 256 && Pow2(9) == 512 && Pow2(10) == 1024;
    assert Pow2(11) == 0x800 && Pow2(12) == 0x1000 && Pow2(13) == 0x2000 && Pow2(14) == 0x4000;
    assert Pow2(15) == 0x8000 && Pow2(16) == 0x1_0000 && Pow2(17) == 0x2_0000 && Pow2(18) == 0x4_0000;
    assert Pow2(19) == 0x8_0000 && Pow2(20) == 0x10_0000 && Pow2(21) == 0x20_0000 && Pow2(22) == 0x40_0000;
    assert Pow2(23) == 0x80_0000 && Pow2(24) == 0x100_0000 && Pow2(25) == 0x200_0000 && Pow2(26) == 0x400_0000;
  }

  lemma ConditionIsBit(word: nat, cr: nat)
    ensures Bit(cr, Field(word, 11, 16) % 32) <==> ConditionBit(word, cr)
  {
    FieldsOfBranch(word);
    Below32(word / 0x1_0000);
    OneOfField(cr, Field(word, 11, 16) % 32, word / 0x1_0000 % 32);
  }

  lemma {:induction false} Below32(n: nat)
    ensures n % 32 % 32 == n % 32 && n % 32 < 32
  {}

  lemma OneOfField(word: nat, pos: nat, same: nat)
    requires pos == same < 32
    ensures Bit(word, pos) <==> word / Pow2(31 - same) % 2 == 1
  {
    assert Pow2(1) == 2;
    assert 32 - (pos + 1) == 31 - pos;
  }

  lemma TargetIsDisplaced(word: nat, cia: nat)
    ensures IsB(word) || IsBC(word) ==>
      DirectTarget(word, cia) == (Displacement(word) + if IsAbsolute(word) then 0 else cia) % 0x1_0000_0000
  {
    FieldsOfBranch(word);
    var d := if IsB(word) then SignedField(word, 6, 30) else SignedField(word, 16, 30);
    assert IsB(word) || IsBC(word) ==> Displacement(word) == 4 * d;
    NextIsDisplaced(word, cia, d);
  }

  lemma NextIsDisplaced(word: nat, cia: nat, d: int)
    requires Bit(word, 30) <==> IsAbsolute(word)
    ensures NextAddress(word, cia, d) == (4 * d + if IsAbsolute(word) then 0 else cia) % 0x1_0000_0000
  {
    assert 4 * d + cia == cia + 4 * d;
  }

  // ---------------------------------------------------------------- the analysis is exact

  /** The branch goes to `va`, and not through a register. */
  predicate JumpsTo(word: nat, cia: nat, s: BranchState, va: nat)
    requires IsBranch(word)
  {
    Taken(word, s) && !IsBCLR(word) && !IsBCCTR(word) && Execute(word, cia, s).nip == va
  }

  /** The branch falls through to `va` or leaves it in LR. */
  predicate PassesTo(word: nat, cia: nat, s: BranchState, va: nat)
    requires IsBranch(word)
  {
    var after := Execute(word, cia, s);
    (!Taken(word, s) && after.nip == va) || (after.lr == va && after.lr != s.lr)
  }

  ghost predicate CanJumpTo(word: nat, cia: nat, va: nat) {
    IsBranch(word) && exists s: BranchState :: JumpsTo(word, cia, s, va)
  }

  ghost predicate CanPassTo(word: nat, cia: nat, va: nat) {
    IsBranch(word) && exists s: BranchState :: PassesTo(word, cia, s, va)
  }

  /** `analyze` reports a target or a passthrough exactly if in some state the interpreter goes there. */
  lemma AnalyzeIsExact(word: nat, cia: nat, va: nat)
    ensures Analyze(word, cia).target == Some(va) <==> CanJumpTo(word, cia, va)
    ensures Analyze(word, cia).passthrough && va == cia + 4 <==> CanPassTo(word, cia, va)
  {
    if IsBranch(word) {
      forall s: BranchState
        ensures JumpsTo(word, cia, s, va) ==> Analyze(word, cia).target == Some(va)
        ensures PassesTo(word, cia, s, va) ==> Analyze(word, cia).passthrough && va == cia + 4
      {
        AnalyzeIsSound(word, cia, s);
      }
      var taken := TakenState(word, cia);
      AnalyzeIsSound(word, cia, taken);
      assert Analyze(word, cia).target == Some(va) ==> JumpsTo(word, cia, taken, va);
      if Analyze(word, cia).passthrough && va == cia + 4 {
        var s := PassingState(word, cia);
        assert PassesTo(word, cia, s, va);
      }
    }
  }

  /** Every branch is taken in some state. */
  lemma TakenState(word: nat, cia: nat) returns (s: BranchState)
    requires IsBranch(word)
    ensures Taken(word, s)
  {
    var bi := Field(word, 11, 16) % 32;
    OneBit(bi);
    s := BranchState(cia, 0, if Bit(word, 9) then 1 else 2, if Bit(word, 7) then Pow2(31 - bi) else 0);
  }

  lemma PassingState(word: nat, cia: nat) returns (s: BranchState)
    requires IsBranch(word) && Analyze(word, cia).passthrough
    ensures PassesTo(word, cia, s, cia + 4)
  {
    if LinkBit(word) {
      s := BranchState(cia, 0, 0, 0);
    } else {
      s := PassthroughIsExact(word, cia);
      AnalyzeIsSound(word, cia, s);
    }
  }
}
