/** The loads and stores that the rewriter may merge, and what a list of emitted statements does to
    registers and memory (ps3tool/rewrite.cpp:203-325, ps3emu/ppu/ppu_dasm.cpp:471-930). */
module LoadStores {
  import opened Common
  import opened BitFields
  import Branches

  type Reg = r: nat | r < 32
  type Registers = g: seq<nat> | |g| == 32 ghost witness seq(32, _ => 0)
  type Memory = m: imap<int, Byte> | Total(m) ghost witness imap a: int | true :: 0

  ghost predicate Total(m: imap<int, Byte>) {
    forall a: int :: a in m
  }

  /** Registers and memory; `rest` is whatever else other instructions work on. */
  datatype Machine<T> = Machine(gpr: Registers, memory: Memory, rest: T)

  /** `LoadStoreStatementSource`. */
  datatype Access = Access(reg: Reg, size: nat)

  /** An instruction: a load or a store of the kind that can be merged, or anything else. */
  datatype Instr =
    | MemAccess(isLoad: bool, access: Access, base: Reg, offset: int)
    | Other(word: nat)

  /** `BasicBlockStatement`: both alternatives know the instruction they come from. */
  datatype Statement =
    | Simple(cia: nat, instr: Instr)
    | LoadStore(cia: nat, instr: Instr, src: seq<Access>, destReg: Reg, disp: int, load: bool)

  /** The size of the first `n` members of the struct; `LoadStoreStatement::size` for all of them. */
  function SizeUpTo(src: seq<Access>, n: nat): nat
    requires n <= |src|
  {
    if n == 0 then 0 else SizeUpTo(src, n - 1) + src[n - 1].size
  }

  function TotalSize(src: seq<Access>): nat { SizeUpTo(src, |src|) }

  // ---------------------------------------------------------------- bytes

  /** The `size` low-order bytes of `value`, most significant first. */
  function Bytes(value: nat, size: nat): (bytes: seq<Byte>)
    ensures |bytes| == size
  {
    if size == 0 then [] else Bytes(value / 256, size - 1) + [value % 256]
  }

  /** The number with the bytes from `lo` to `hi`, most significant first. */
  function Value(bytes: seq<Byte>, lo: nat, hi: nat): nat
    requires lo <= hi <= |bytes|
    decreases hi
  {
    if lo == hi then 0 else Value(bytes, lo, hi - 1) * 256 + bytes[hi - 1]
  }

  ghost function ReadValue(m: Memory, at: int, size: nat): nat {
    if size == 0 then 0 else ReadValue(m, at, size - 1) * 256 + m[at + size - 1]
  }

  ghost function ReadBytes(m: Memory, at: int, size: nat): (bytes: seq<Byte>)
    ensures |bytes| == size
    ensures forall i :: 0 <= i < size ==> bytes[i] == m[at + i]
  {
    seq(size, i requires 0 <= i < size => m[at + i])
  }

  ghost function Patched(m: Memory, at: int, bytes: seq<Byte>, a: int): Byte {
    if at <= a < at + |bytes| then bytes[a - at] else m[a]
  }

  ghost function WriteBytes(m: Memory, at: int, bytes: seq<Byte>): (r: Memory)
    ensures forall a: int :: r[a] == Patched(m, at, bytes, a)
  {
    imap a: int | true :: Patched(m, at, bytes, a)
  }

  // ---------------------------------------------------------------- instructions

  /** `getB`: register 0 stands for the constant zero. */
  function Base(gpr: Registers, reg: Reg): nat { if reg == 0 then 0 else gpr[reg] }

  /** LBZ, LHZ and LWZ; STB, STH and STW; STD. */
  function AccessSize(word: nat): nat {
    var op := Branches.Opcode(word);
    if op == 34 || op == 38 then 1
    else if op == 40 || op == 44 then 2
    else if op == 32 || op == 36 then 4
    else if op == 62 && Field(word, 30, 32) == 0 then 8
    else 0
  }

  predicate IsLoad(word: nat) { Branches.Opcode(word) in {32, 34, 40} }

  /** The displacement the instruction itself uses: STD has the DS-form. */
  function Displacement(word: nat): int {
    if Branches.Opcode(word) == 62 then 4 * SignedField(word, 16, 30) else SignedField(word, 16, 32)
  }

  function Decode(word: nat): Instr {
    var size := AccessSize(word);
    if size == 0 then Other(word)
    else MemAccess(IsLoad(word), Access(Field(word, 6, 11), size), Field(word, 11, 16), Displacement(word))
  }

  ghost function OneAccess<T>(load: bool, access: Access, base: Reg, disp: int, s: Machine<T>): Machine<T> {
    var at := Base(s.gpr, base) + disp;
    if load then s.(gpr := s.gpr[access.reg := ReadValue(s.memory, at, access.size)])
    else s.(memory := WriteBytes(s.memory, at, Bytes(s.gpr[access.reg], access.size)))
  }

  /** One instruction; those that are neither load nor store are left to `others`. */
  ghost function Interpret<T>(others: (nat, nat, Machine<T>) -> Machine<T>, cia: nat, instr: Instr, s: Machine<T>)
    : Machine<T>
  {
    match instr
    case MemAccess(load, access, base, offset) => OneAccess(load, access, base, offset, s)
    case Other(word) => others(cia, word, s)
  }

  // ---------------------------------------------------------------- statements

  /** One turn of the loop of `transformBasicBlock`: the displacement is read as in the D-form. */
  function Transform(cia: nat, word: nat): Statement {
    var size := AccessSize(word);
    if size == 0 then Simple(cia, Decode(word))
    else LoadStore(cia, Decode(word), [Access(Field(word, 6, 11), size)], Field(word, 11, 16),
                   SignedField(word, 16, 32), IsLoad(word))
  }

  /** The first `n` members of the packed struct, filled from the registers. */
  function Gather(gpr: Registers, src: seq<Access>, n: nat): (bytes: seq<Byte>)
    requires n <= |src|
    ensures |bytes| == SizeUpTo(src, n)
  {
    if n == 0 then [] else Gather(gpr, src, n - 1) + Bytes(gpr[src[n - 1].reg], src[n - 1].size)
  }

  /** The registers filled from the first `n` members of the struct. */
  function Scatter(gpr: Registers, src: seq<Access>, bytes: seq<Byte>, n: nat): Registers
    requires n <= |src| && SizeUpTo(src, n) <= |bytes|
  {
    if n == 0 then gpr
    else
      var value := Value(bytes, SizeUpTo(src, n - 1), SizeUpTo(src, n));
      Scatter(gpr, src, bytes, n - 1)[src[n - 1].reg := value]
  }

  /** One access to the whole packed struct. */
  ghost function MergedAccess<T>(st: Statement, s: Machine<T>): Machine<T>
    requires st.LoadStore?
  {
    var at := Base(s.gpr, st.destReg) + st.disp;
    if st.load then s.(gpr := Scatter(s.gpr, st.src, ReadBytes(s.memory, at, TotalSize(st.src)), |st.src|))
    else s.(memory := WriteBytes(s.memory, at, Gather(s.gpr, st.src, |st.src|)))
  }

  /** The code `StatementPrinter` prints: the instruction itself, or the one big access. */
  ghost function Step<T>(others: (nat, nat, Machine<T>) -> Machine<T>, st: Statement, s: Machine<T>): Machine<T> {
    if st.Simple? || |st.src| == 1 then Interpret(others, st.cia, st.instr, s) else MergedAccess(st, s)
  }

  ghost function Run<T>(others: (nat, nat, Machine<T>) -> Machine<T>, sts: seq<Statement>, s: Machine<T>)
    : Machine<T>
  {
    if sts == [] then s
    else Step(others, sts[|sts| - 1], Run(others, sts[..|sts| - 1], s))
  }

  lemma {:induction false} RunOfConcat<T>(others: (nat, nat, Machine<T>) -> Machine<T>, a: seq<Statement>,
                                          b: seq<Statement>, s: Machine<T>)
    ensures Run(others, a + b, s) == Run(others, b, Run(others, a, s))
    decreases |b|
  {
    if b == [] {
      assert a + b == a;
    } else {
      var last := |b| - 1;
      assert (a + b)[..|a + b| - 1] == a + b[..last];
      RunOfConcat(others, a, b[..last], s);
    }
  }

  /** A load or store that stands for exactly the instruction it comes from. */
  predicate IsSingle(st: Statement) {
    st.LoadStore? && |st.src| == 1 && st.src[0].size > 0 &&
    st.instr == MemAccess(st.load, st.src[0], st.destReg, st.disp)
  }

  /** Reading the displacement as in the D-form is right for STD too: its two low bits are zero. */
  lemma TransformIsSingle(cia: nat, word: nat)
    ensures var st := Transform(cia, word);
      st.cia == cia && st.instr == Decode(word) && (st.LoadStore? <==> AccessSize(word) != 0) &&
      (st.LoadStore? ==> IsSingle(st))
  {
    if AccessSize(word) != 0 {
      DisplacementOfAccess(word);
    }
  }

  lemma DisplacementOfAccess(word: nat)
    requires AccessSize(word) != 0
    ensures Displacement(word) == SignedField(word, 16, 32)
  {
    if Branches.Opcode(word) == 62 {
      LowBitsZero(word);
    }
  }

  lemma Pow2Values()
    ensures Pow2(13) == 8192 && Pow2(14) == 16384 && Pow2(15) == 32768 && Pow2(16) == 65536
  {
    assert Pow2(4) == 16;
    assert Pow2(8) == 256;
    assert Pow2(12) == 4096;
  }

  lemma LowBitsZero(word: nat)
    requires Field(word, 30, 32) == 0
    ensures 4 * SignedField(word, 16, 30) == SignedField(word, 16, 32)
  {
    Pow2Values();
    assert Pow2(0) == 1 && Pow2(1) == 2 && Pow2(2) == 4;
    assert word % 4 == 0;
    assert Field(word, 16, 30) == word / 4 % 16384;
    assert Field(word, 16, 32) == word % 65536;
  }

  // ---------------------------------------------------------------- numbers and fields

  /** The number of values of `n` bytes. */
  function Base256(n: nat): (p: nat)
    ensures p > 0
  {
    if n == 0 then 1 else 256 * Base256(n - 1)
  }

  lemma {:induction false} LowDigit(v: nat, p: nat)
    requires p > 0
    ensures v % (256 * p) == v / 256 % p * 256 + v % 256
  {
    var a, b := v / 256 / p, v / 256 % p;
    DivMod(v / 256, p);
    Digits(v, a, b, p);
    Quotient(v, 256 * p, a, b * 256 + v % 256);
  }

  lemma {:induction false} Digits(v: nat, a: nat, b: nat, p: nat)
    requires v / 256 == a * p + b && b < p
    ensures v == a * (256 * p) + (b * 256 + v % 256) && b * 256 + v % 256 < 256 * p
  {
    assert v == 256 * (a * p + b) + v % 256;
  }

  lemma {:induction false} ValueOfPrefix(bytes: seq<Byte>, last: Byte, n: nat)
    requires n <= |bytes|
    ensures Value(bytes + [last], 0, n) == Value(bytes, 0, n)
  {
    if n > 0 {
      ValueOfPrefix(bytes, last, n - 1);
    }
  }

  /** The bytes of a value, read most significant first, are its low-order bytes. */
  lemma {:induction false} ValueOfBytes(v: nat, n: nat)
    ensures Value(Bytes(v, n), 0, n) == v % Base256(n)
  {
    if n > 0 {
      ValueOfBytes(v / 256, n - 1);
      ValueOfPrefix(Bytes(v / 256, n - 1), v % 256, n - 1);
      LowDigit(v, Base256(n - 1));
    }
  }

  lemma {:induction false} ReadIsValue(m: Memory, at: int, bytes: seq<Byte>, n: nat)
    requires n <= |bytes| && forall i :: 0 <= i < n ==> m[at + i] == bytes[i]
    ensures ReadValue(m, at, n) == Value(bytes, 0, n)
  {
    if n > 0 {
      ReadIsValue(m, at, bytes, n - 1);
    }
  }

  /** The first byte is the most significant one. */
  lemma {:induction false} BytesAreBigEndian(v: nat, n: nat, i: nat)
    requires i < n
    ensures Bytes(v, n)[i] == v / Base256(n - 1 - i) % 256
  {
    if i < n - 1 {
      BytesAreBigEndian(v / 256, n - 1, i);
      QuotientTwice(v, Base256(n - 2 - i));
    }
  }

  lemma {:induction false} QuotientTwice(v: nat, p: nat)
    requires p > 0
    ensures v / 256 / p == v / (256 * p)
  {
    DivMod(v / 256, p);
    Digits(v, v / 256 / p, v / 256 % p, p);
    Quotient(v, 256 * p, v / 256 / p, v / 256 % p * 256 + v % 256);
  }

  /** What a load reads has the bytes of memory. */
  lemma {:induction false} BytesOfRead(m: Memory, at: int, n: nat)
    ensures Bytes(ReadValue(m, at, n), n) == ReadBytes(m, at, n)
  {
    if n > 0 {
      BytesOfRead(m, at, n - 1);
      LastDigit(ReadValue(m, at, n - 1), m[at + n - 1]);
      assert ReadBytes(m, at, n) == ReadBytes(m, at, n - 1) + [m[at + n - 1]];
    }
  }

  lemma {:induction false} LastDigit(v: nat, b: Byte)
    ensures (v * 256 + b) / 256 == v && (v * 256 + b) % 256 == b
  {}

  lemma ReadWritten(m: Memory, at: int, v: nat, n: nat)
    ensures var r := WriteBytes(m, at, Bytes(v, n));
      ReadValue(r, at, n) == v % Base256(n) && forall a: int :: !(at <= a < at + n) ==> r[a] == m[a]
  {
    var bytes := Bytes(v, n);
    var r := WriteBytes(m, at, bytes);
    forall a: int ensures r[a] == Patched(m, at, bytes, a) {}
    ReadIsValue(r, at, bytes, n);
    ValueOfBytes(v, n);
  }

  /** A load from where a store stored reads the low-order bytes of the register that was stored; the
      store changes no register and no other byte, the load no byte and no other register. */
  lemma StoreThenLoad<T>(s: Machine<T>, src: Access, dst: Reg, base: Reg, disp: int)
    ensures var at := (if base == 0 then 0 else s.gpr[base]) + disp;
      var stored := OneAccess(false, src, base, disp, s);
      var loaded := OneAccess(true, Access(dst, src.size), base, disp, stored);
      && loaded.gpr == s.gpr[dst := s.gpr[src.reg] % Base256(src.size)]
      && stored.gpr == s.gpr && loaded.memory == stored.memory && loaded.rest == stored.rest == s.rest
      && forall a: int :: !(at <= a < at + src.size) ==> stored.memory[a] == s.memory[a]
  {
    ReadWritten(s.memory, Base(s.gpr, base) + disp, s.gpr[src.reg], src.size);
  }

  /** A store puts the most significant of the bytes at the lowest address. */
  lemma StoreIsBigEndian<T>(s: Machine<T>, src: Access, base: Reg, disp: int, i: nat)
    requires i < src.size
    ensures OneAccess(false, src, base, disp, s).memory[(if base == 0 then 0 else s.gpr[base]) + disp + i] ==
      s.gpr[src.reg] / Base256(src.size - 1 - i) % 256
  {
    BytesAreBigEndian(s.gpr[src.reg], src.size, i);
    var at, bytes := Base(s.gpr, base) + disp, Bytes(s.gpr[src.reg], src.size);
    assert WriteBytes(s.memory, at, bytes)[at + i] == Patched(s.memory, at, bytes, at + i);
  }

  /** Which words are accesses, and their operands, on the word as a number: the D-form, and the DS-form
      of STD, whose two low bits tell it from others (PowerPC User Instruction Set Architecture, Book I,
      sections 3.3.2 and 3.3.3). */
  lemma DecodeIsExact(word: nat)
    ensures var opcode := word / 0x400_0000 % 64;
      && AccessSize(word) == (match opcode
                              case 34 | 38 => 1
                              case 40 | 44 => 2
                              case 32 | 36 => 4
                              case 62 => if word % 4 == 0 then 8 else 0
                              case _ => 0)
      && (AccessSize(word) == 0 ==> Decode(word) == Other(word))
      && (AccessSize(word) != 0 ==>
            Decode(word) == MemAccess(opcode in {32, 34, 40}, Access(word / 0x20_0000 % 32, AccessSize(word)),
                                      word / 0x1_0000 % 32, Branches.Signed(word % 0x1_0000, 0x8000)))
  {
    Branches.FieldsOfBranch(word);
    Branches.Powers();
    Pow2Values();
    if AccessSize(word) != 0 {
      DisplacementOfAccess(word);
    }
  }
}
