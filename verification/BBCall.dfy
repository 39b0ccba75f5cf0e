/** Bit fields that are written, and the basic block call built from them (ps3emu/BitField.h:50-95,
    ps3emu/dasm_utils.h:180-205). */
module BBCall {
  import opened BitFields
  import opened Words
  import opened Rotates

  type Word32 = w: Bits | |w| == 32 ghost witness Fill(false, 32)

  /** `BitField<pos, next>::u()`. */
  function Get(v: Word32, pos: nat, next: nat): nat
    requires pos < next <= 32
  {
    Num(v[pos..next])
  }

  /** `BitField<pos, next>::set(u)`: the field is shifted into place, the rest masked out. */
  function Set(v: Word32, pos: nat, next: nat, u: nat): Word32
    requires pos < next <= 32
  {
    var width := next - pos;
    var field := Shl(And(ToBits(u, 32), Fill(false, 32 - width) + Fill(true, width)), 32 - next);
    Or(And(v, Not(Mask(32, pos, next - 1)[32..])), field)
  }

  /** Reading a field is what the integer definition says. */
  lemma {:induction false} GetIsField(v: Word32, pos: nat, next: nat)
    requires pos < next <= 32
    ensures Get(v, pos, next) == Field(Num(v), pos, next)
  {
    Slice(v, pos, next);
  }

  lemma {:induction false} LowBitsOf(u: nat, n: nat, k: nat)
    requires k <= n
    ensures ToBits(u, n)[n - k..] == ToBits(u, k)
  {
    if k > 0 {
      LowBitsOf(u / 2, n - 1, k - 1);
      assert ToBits(u, n)[n - k..] == ToBits(u / 2, n - 1)[n - k..] + [u % 2 == 1];
    }
  }

  /** Setting a field puts the low-order bits of the value there and leaves everything else alone, for
      every geometry narrower than the word. */
  lemma {:induction false} SetIsExact(v: Word32, pos: nat, next: nat, u: nat)
    requires pos < next <= 32 && next - pos < 32
    ensures Set(v, pos, next, u) == v[..pos] + ToBits(u, next - pos) + v[next..]
  {
    FieldInPlace(pos, next, u);
    MaskIsExact(32, pos, next - 1);
  }

  lemma {:induction false} FieldInPlace(pos: nat, next: nat, u: nat)
    requires pos < next <= 32 && next - pos < 32
    ensures var width := next - pos;
      Shl(And(ToBits(u, 32), Fill(false, 32 - width) + Fill(true, width)), 32 - next) ==
      Fill(false, pos) + ToBits(u, width) + Fill(false, 32 - next)
  {
    var width := next - pos;
    var low := And(ToBits(u, 32), Fill(false, 32 - width) + Fill(true, width));
    LowBitsOf(u, 32, width);
    assert low == Fill(false, 32 - width) + ToBits(u, 32)[32 - width..];
  }

  lemma {:induction false} SetThenGet(v: Word32, pos: nat, next: nat, u: nat)
    requires pos < next <= 32 && next - pos < 32
    ensures Get(Set(v, pos, next, u), pos, next) == u % Pow2(next - pos)
  {
    SetIsExact(v, pos, next, u);
    assert (v[..pos] + ToBits(u, next - pos) + v[next..])[pos..next] == ToBits(u, next - pos);
    NumToBits(u, next - pos);
  }

  lemma {:induction false} SetElsewhere(v: Word32, pos: nat, next: nat, u: nat, p: nat, n: nat)
    requires pos < next <= 32 && next - pos < 32 && p < n <= 32 && (n <= pos || next <= p)
    ensures Get(Set(v, pos, next, u), p, n) == Get(v, p, n)
  {
    SetIsExact(v, pos, next, u);
    assert (v[..pos] + ToBits(u, next - pos) + v[next..])[p..n] == v[p..n];
  }

  // ---------------------------------------------------------------- basic block calls

  class BBCallForm {
    var value: Word32

    constructor (value: Word32)
      ensures this.value == value
    {
      this.value := value;
    }

    method SetField(pos: nat, next: nat, u: nat)
      requires pos < next <= 32
      modifies this
      ensures value == Set(old(value), pos, next, u)
    {
      value := Set(value, pos, next, u);
    }
  }

  function Assembled(opcode: nat, segment: nat, label_: nat): Word32 {
    ToBits(opcode, 6) + ToBits(segment, 11) + ToBits(label_, 15)
  }

  /** `asm_bb_call`; the arguments are asserted to fit their fields. */
  method AsmBBCall(opcode: nat, segment: nat, label_: nat) returns (instr: Word32)
    requires segment < 2048 && label_ < 32768
    ensures instr == Assembled(opcode, segment, label_)
  {
    var form := new BBCallForm(Fill(false, 32));
    ghost var zero := form.value;
    form.SetField(0, 6, opcode);
    form.SetField(6, 17, segment);
    form.SetField(17, 32, label_);
    instr := form.value;
    ThreeFields(zero, opcode, segment, label_);
  }

  lemma {:induction false} ThreeFields(zero: Word32, opcode: nat, segment: nat, label_: nat)
    ensures Set(Set(Set(zero, 0, 6, opcode), 6, 17, segment), 17, 32, label_) == Assembled(opcode, segment, label_)
  {
    var one := Set(zero, 0, 6, opcode);
    var two := Set(one, 6, 17, segment);
    SetIsExact(zero, 0, 6, opcode);
    SetIsExact(one, 6, 17, segment);
    SetIsExact(two, 17, 32, label_);
    Placed(zero, one, two, Set(two, 17, 32, label_), ToBits(opcode, 6), ToBits(segment, 11), ToBits(label_, 15));
  }

  lemma {:induction false} Placed(zero: Bits, one: Bits, two: Bits, three: Bits, a: Bits, b: Bits, c: Bits)
    requires |zero| == 32 && |a| == 6 && |b| == 11 && |c| == 15
    requires one == zero[..0] + a + zero[6..] && two == one[..6] + b + one[17..] && three == two[..17] + c + two[32..]
    ensures three == a + b + c
  {
    assert one[..6] == a && two[..17] == a + b;
  }

  /** The word is the call of this segment and label. */
  ghost predicate IsCall(instr: Word32, opcode: nat, segment: nat, label_: nat) {
    opcode < 64 && segment < 2048 && label_ < 32768 && instr == Assembled(opcode, segment, label_)
  }

  /** `dasm_bb_call` finds the one segment and label whose call the word is, if there are any. */
  method DasmBBCall(opcode: nat, instr: Word32) returns (ok: bool, segment: nat, label_: nat)
    ensures ok ==> forall s: nat, l: nat :: IsCall(instr, opcode, s, l) <==> s == segment && l == label_
    ensures !ok ==> forall s: nat, l: nat :: !IsCall(instr, opcode, s, l)
  {
    forall s: nat, l: nat | IsCall(instr, opcode, s, l)
      ensures opcode == Get(instr, 0, 6) && s == Get(instr, 6, 17) && l == Get(instr, 17, 32) {
      AsmThenDasm(opcode, s, l);
    }
    ok, segment, label_ := false, 0, 0;
    if Get(instr, 0, 6) == opcode {
      ok, segment, label_ := true, Get(instr, 6, 17), Get(instr, 17, 32);
      DasmThenAsm(instr);
      FieldsFit(instr);
    }
  }

  lemma {:induction false} FieldsFit(instr: Word32)
    ensures Get(instr, 0, 6) < 64 && Get(instr, 6, 17) < 2048 && Get(instr, 17, 32) < 32768
  {
    Powers();
    NumBound(instr[0..6]);
    NumBound(instr[6..17]);
    NumBound(instr[17..32]);
  }

  lemma {:induction false} Powers()
    ensures Pow2(6) == 64 && Pow2(11) == 2048 && Pow2(15) == 32768
  {
    assert Pow2(4) == 16;
    assert Pow2(8) == 256;
    assert Pow2(12) == 4096;
  }

  /** What has been assembled is disassembled again. */
  lemma {:induction false} AsmThenDasm(opcode: nat, segment: nat, label_: nat)
    requires opcode < 64 && segment < 2048 && label_ < 32768
    ensures var instr := Assembled(opcode, segment, label_);
      Get(instr, 0, 6) == opcode && Get(instr, 6, 17) == segment && Get(instr, 17, 32) == label_
  {
    var instr := Assembled(opcode, segment, label_);
    Powers();
    InThree(ToBits(opcode, 6), ToBits(segment, 11), ToBits(label_, 15));
    NumOfFitting(opcode, 6);
    NumOfFitting(segment, 11);
    NumOfFitting(label_, 15);
  }

  lemma {:induction false} InThree(a: Bits, b: Bits, c: Bits)
    ensures var w := a + b + c;
      w[0..|a|] == a && w[|a|..|a| + |b|] == b && w[|a| + |b|..|a| + |b| + |c|] == c
  {}

  lemma {:induction false} NumOfFitting(v: nat, n: nat)
    requires v < Pow2(n)
    ensures Num(ToBits(v, n)) == v
  {
    NumToBits(v, n);
    Quotient(v, Pow2(n), 0, v);
  }

  lemma {:induction false} BitsOfNum(b: Bits)
    ensures ToBits(Num(b), |b|) == b
  {
    NumBound(b);
    NumOfFitting(Num(b), |b|);
    NumInjective(ToBits(Num(b), |b|), b);
  }

  /** Conversely, every word is the basic block call of its fields, so distinct words are distinct calls. */
  lemma {:induction false} DasmThenAsm(instr: Word32)
    ensures Assembled(Get(instr, 0, 6), Get(instr, 6, 17), Get(instr, 17, 32)) == instr
  {
    BitsOfNum(instr[0..6]);
    BitsOfNum(instr[6..17]);
    BitsOfNum(instr[17..32]);
  }
}
