/** SRADI, SRAWI and ADDZE (ps3emu/ppu/ppu_dasm.cpp:1085-1091 and 1930-1963; section 3.3.12.2 of the
    PowerPC User Instruction Set Architecture, Book I, version 2.02). */
module ArithmeticShifts {
  import opened BitFields
  import opened Words
  import opened Rotates

  /** The result and the new CA. */
  function Sradi(rs: Word64, n: nat): (Word64, bool)
    requires n < 64
  {
    var r, m, s := Rol(rs, 64 - n), Mask(64, n, 63), rs[0];
    (Or(And(r, m), And(Fill(s, 64), Not(m))), s && And(r, Not(m)) != Fill(false, 64))
  }

  function Srawi(rs: Word64, n: nat): (Word64, bool)
    requires n < 32
  {
    var r, m, s := Fill(false, 32) + Rol(Low(rs), 64 - n), Mask(64, n + 32, 63), rs[32];
    (Or(And(r, m), And(Fill(s, 64), Not(m))), s && And(r, Not(m)) != Fill(false, 64))
  }

  /** The result alone: the architecture has ADDZE set CA as well, the source leaves it as it was. */
  function Addze(ra: Word64, ca: bool): Word64 {
    ToBits(Num(ra) + (if ca then 1 else 0), 64)
  }

  /** Division that rounds towards zero. */
  function TruncatedQuotient(x: int, d: nat): int
    requires d > 0
  {
    if x >= 0 then x / d else -(-x / d)
  }

  // ---------------------------------------------------------------- two's complement

  lemma {:induction false} TopBit(b: Bits)
    requires b != []
    ensures b[0] <==> Num(b) >= Pow2(|b| - 1)
    ensures Pow2(|b|) == 2 * Pow2(|b| - 1)
  {
    NumSplit(b, 1);
    assert b[..1][..0] == [];
    assert Num(b[..1]) == if b[0] then 1 else 0;
  }

  /** Copies of the sign in front change nothing. */
  lemma {:induction false} SignExtend(h: Bits, k: nat)
    requires h != []
    ensures Signed(Fill(h[0], k) + h) == Signed(h)
  {
    var w := Fill(h[0], k) + h;
    assert w[0] == h[0];
    NumConcat(Fill(h[0], k), h);
    NumFill(h[0], k);
    Pow2Sum(k, |h|);
    if h[0] {
      LessOne(Pow2(k), Pow2(|h|));
    }
  }

  lemma {:induction false} LessOne(x: nat, y: nat)
    requires x > 0
    ensures (x - 1) * y == x * y - y
  {}

  /** Dropping `n` low-order bits is division that rounds down. */
  lemma {:induction false} DropLow(w: Bits, n: nat)
    requires n < |w|
    ensures var h := w[..|w| - n];
      Signed(w) / Pow2(n) == Signed(h) && Signed(w) % Pow2(n) == Num(w[|w| - n..])
    ensures Num(w[|w| - n..]) == 0 <==> w[|w| - n..] == Fill(false, n)
  {
    var h, low := w[..|w| - n], w[|w| - n..];
    NumSplit(w, |w| - n);
    Pow2Sum(|w| - n, n);
    if w[0] {
      Difference(Num(h), Pow2(|h|), Pow2(n));
    }
    FloorQuotient(Signed(w), Pow2(n), Signed(h), Num(low));
    NumFill(false, n);
    if Num(low) == 0 {
      NumInjective(low, Fill(false, n));
    }
  }

  lemma {:induction false} Difference(x: int, y: int, d: int)
    ensures (x - y) * d == x * d - y * d
  {}

  lemma {:induction false} FloorQuotient(x: int, d: nat, q: int, r: nat)
    requires d > 0 && x == q * d + r && r < d
    ensures x / d == q && x % d == r
  {
    if x / d < q {
      LessProduct(x / d, q, d);
    } else if q < x / d {
      LessProduct(q, x / d, d);
    }
  }

  lemma {:induction false} LessProduct(a: int, b: int, d: nat)
    requires a < b
    ensures (a + 1) * d <= b * d
  {}

  // ---------------------------------------------------------------- shifts

  /** Rotating left by 64 - n is rotating right by n. */
  lemma {:induction false} RolRight(v: Bits, n: nat)
    requires (|v| == 32 || |v| == 64) && n < |v|
    ensures Rol(v, 64 - n) == v[|v| - n..] + v[..|v| - n]
  {
    RolIsRotation(v, 64 - n);
    if n == 0 {
      assert (64 - n) % |v| == 0;
      assert v[0..] + v[..0] == v[|v|..] + v[..|v|];
    } else {
      assert (64 - n) % |v| == |v| - n;
    }
  }

  /** The kept bits of the rotated word below `at` copies of the sign. */
  lemma {:induction false} SignAndRest(r: Word64, at: nat, s: bool)
    requires at < 64
    ensures var m := Mask(64, at, 63);
      Or(And(r, m), And(Fill(s, 64), Not(m))) == Fill(s, at) + r[at..] &&
      And(r, Not(m)) == r[..at] + Fill(false, 64 - at)
  {
    MaskIsExact(64, at, 63);
  }

  lemma {:induction false} SradiBits(rs: Word64, n: nat)
    requires n < 64
    ensures Sradi(rs, n).0 == Fill(rs[0], n) + rs[..64 - n]
    ensures Sradi(rs, n).1 == (rs[0] && rs[64 - n..] != Fill(false, n))
  {
    var r := Rol(rs, 64 - n);
    RolRight(rs, n);
    SignAndRest(r, n, rs[0]);
    Swapped(rs, 64 - n);
    SameFill(rs[64 - n..], 64 - n);
  }

  lemma {:induction false} Swapped(v: Bits, k: nat)
    requires k <= |v|
    ensures var r := v[k..] + v[..k]; r[|v| - k..] == v[..k] && r[..|v| - k] == v[k..]
  {}

  lemma {:induction false} SameFill(x: Bits, k: nat)
    ensures x + Fill(false, k) == Fill(false, |x| + k) <==> x == Fill(false, |x|)
  {
    if x + Fill(false, k) == Fill(false, |x| + k) {
      assert x == (x + Fill(false, k))[..|x|];
      assert Fill(false, |x|) == Fill(false, |x| + k)[..|x|];
    }
  }

  lemma {:induction false} SrawiBits(rs: Word64, n: nat)
    requires n < 32
    ensures Srawi(rs, n).0 == Fill(rs[32], 32 + n) + Low(rs)[..32 - n]
    ensures Srawi(rs, n).1 == (rs[32] && Low(rs)[32 - n..] != Fill(false, n))
  {
    var r, low := Fill(false, 32) + Rol(Low(rs), 64 - n), Low(rs)[32 - n..];
    SignAndRest(r, n + 32, rs[32]);
    RotatedWord(rs, n);
    SameFill(Fill(false, 32) + low, 32 - n);
    ZerosInFront(32, low);
  }

  lemma {:induction false} RotatedWord(rs: Word64, n: nat)
    requires n < 32
    ensures var r := Fill(false, 32) + Rol(Low(rs), 64 - n);
      r[n + 32..] == Low(rs)[..32 - n] && r[..n + 32] == Fill(false, 32) + Low(rs)[32 - n..]
  {
    RolRight(Low(rs), n);
    Swapped(Low(rs), 32 - n);
  }

  lemma {:induction false} ZerosInFront(k: nat, x: Bits)
    ensures Fill(false, k) + x == Fill(false, k + |x|) <==> x == Fill(false, |x|)
  {
    if Fill(false, k) + x == Fill(false, k + |x|) {
      assert x == (Fill(false, k) + x)[k..];
      assert Fill(false, |x|) == Fill(false, k + |x|)[k..];
    }
  }

  /** SRADI divides by a power of two, rounding down; CA says that the operand is negative and that
      something was lost. */
  lemma {:induction false} SradiIsFloor(rs: Word64, n: nat)
    requires n < 64
    ensures Signed(Sradi(rs, n).0) == Signed(rs) / Pow2(n)
    ensures Sradi(rs, n).1 <==> Signed(rs) < 0 && Signed(rs) % Pow2(n) != 0
  {
    SradiBits(rs, n);
    SignExtend(rs[..64 - n], n);
    DropLow(rs, n);
    SignBit(rs);
  }

  lemma {:induction false} SignBit(w: Bits)
    requires w != []
    ensures w[0] <==> Signed(w) < 0
  {
    NumBound(w);
  }

  lemma {:induction false} SrawiIsFloor(rs: Word64, n: nat)
    requires n < 32
    ensures Signed(Srawi(rs, n).0) == Signed(Low(rs)) / Pow2(n)
    ensures Srawi(rs, n).1 <==> Signed(Low(rs)) < 0 && Signed(Low(rs)) % Pow2(n) != 0
  {
    SrawiBits(rs, n);
    SignExtend(Low(rs)[..32 - n], 32 + n);
    DropLow(Low(rs), n);
    SignBit(Low(rs));
  }

  // ---------------------------------------------------------------- followed by ADDZE

  /** The greatest doubleword is the only one that wraps. */
  lemma {:induction false} AddzeAdds(ra: Word64, ca: bool)
    ensures Signed(Addze(ra, ca)) ==
      if ca && Signed(ra) == Pow2(63) - 1 then 0 - Pow2(63) else Signed(ra) + (if ca then 1 else 0)
  {
    SignedByValue(ra);
    SignedByValue(Addze(ra, ca));
    AddzeValue(ra, ca);
    HalfOfRange();
  }

  lemma {:induction false} AddzeValue(ra: Word64, ca: bool)
    ensures var v := Num(ra) + (if ca then 1 else 0);
      v <= Pow2(64) && Num(Addze(ra, ca)) == if v == Pow2(64) then 0 else v
  {
    var v := Num(ra) + (if ca then 1 else 0);
    NumToBits(v, 64);
    NumBound(ra);
    Wrapped(v, Pow2(64));
  }

  /** CA as the architecture wants it after ADDZE: the carry out of the sum. */
  predicate AddzeCarry(ra: Word64, ca: bool) {
    Num(ra) + (if ca then 1 else 0) >= Pow2(64)
  }

  /** CA as it was is the carry exactly if it was zero or the operand is all ones. */
  lemma {:induction false} AddzeCarryIff(ra: Word64, ca: bool)
    ensures ca == AddzeCarry(ra, ca) <==> !ca || ra == Fill(true, 64)
  {
    NumBound(ra);
    NumFill(true, 64);
    if Num(ra) == Pow2(64) - 1 {
      NumInjective(ra, Fill(true, 64));
    }
  }

  /** 0 + 1 does not carry, but CA is left at one. */
  lemma {:induction false} AddzeCarryIsWrong()
    ensures !AddzeCarry(Fill(false, 64), true)
  {
    NumFill(false, 64);
    HalfOfRange();
  }

  lemma {:induction false} HalfOfRange()
    ensures Pow2(64) == 2 * Pow2(63)
  {}

  lemma {:induction false} SignedByValue(w: Word64)
    ensures Signed(w) == if Num(w) >= Pow2(63) then Num(w) - Pow2(64) else Num(w)
  {
    TopBit(w);
  }

  lemma {:induction false} Wrapped(v: nat, m: nat)
    requires 0 < m && v <= m
    ensures v % m == if v == m then 0 else v
  {}

  lemma {:induction false} RoundUp(x: int, d: nat)
    requires d > 0
    ensures TruncatedQuotient(x, d) == x / d + (if x < 0 && x % d != 0 then 1 else 0)
  {
    if x < 0 {
      var q, r := x / d, x % d;
      assert x == q * d + r;
      if r == 0 {
        FloorQuotient(-x, d, -q, 0);
      } else {
        Difference(-q, 1, d);
        FloorQuotient(-x, d, -q - 1, d - r);
      }
    }
  }

  /** SRADI and ADDZE together are division that rounds towards zero. */
  lemma {:induction false} SradiAddzeDivides(rs: Word64, n: nat)
    requires n < 64
    ensures var (ra, ca) := Sradi(rs, n);
      Signed(Addze(ra, ca)) == TruncatedQuotient(Signed(rs), Pow2(n))
  {
    SradiIsFloor(rs, n);
    NegativeStays(Signed(rs), Pow2(n));
    AddzeAdds(Sradi(rs, n).0, Sradi(rs, n).1);
    RoundUp(Signed(rs), Pow2(n));
  }

  lemma {:induction false} SrawiAddzeDivides(rs: Word64, n: nat)
    requires n < 32
    ensures var (ra, ca) := Srawi(rs, n);
      Signed(Addze(ra, ca)) == TruncatedQuotient(Signed(Low(rs)), Pow2(n))
  {
    SrawiIsFloor(rs, n);
    NegativeStays(Signed(Low(rs)), Pow2(n));
    AddzeAdds(Srawi(rs, n).0, Srawi(rs, n).1);
    RoundUp(Signed(Low(rs)), Pow2(n));
  }

  lemma {:induction false} NegativeStays(x: int, d: nat)
    requires d > 0
    ensures x < 0 ==> x / d < 0
  {
    if x < 0 && x / d >= 0 {
      LessProduct(-1, x / d, d);
    }
  }
}
