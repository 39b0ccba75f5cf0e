/** Rotate-and-mask and arithmetic shift instructions (ps3emu/ppu/ppu_dasm.cpp:1505-1735 and
    1928-1963) against what they are for (sections 3.3.12 and 3.3.8 of the PowerPC User Instruction
    Set Architecture, Book I, version 2.02). */
module Rotates {
  import opened BitFields
  import opened Words

  type Word64 = w: Bits | |w| == 64 ghost witness Fill(false, 64)

  // ---------------------------------------------------------------- masks and rotations, bit by bit

  /** `mask(x, y)` is exactly the bits x to y of the low-order `width` bits, wrapping round. */
  lemma {:induction false} MaskIsExact(width: nat, x: nat, y: nat)
    requires x < width <= 64 && y < width
    ensures forall i :: 0 <= i < 64 ==> (Mask(width, x, y)[i] <==> i >= 64 - width && InMask(i - (64 - width), x, y))
    decreases if x > y then 1 else 0
  {
    if x > y {
      MaskIsExact(width, 0, y);
      MaskIsExact(width, x, width - 1);
    }
  }

  lemma {:induction false} RolIsRotation(v: Bits, count: nat)
    requires |v| == 32 || |v| == 64
    ensures var c := count % |v|; Rol(v, count) == v[c..] + v[..c]
  {
    var c := count % |v|;
    if c == 0 {
      assert (|v| - c) % |v| == 0;
    } else {
      assert (|v| - c) % |v| == |v| - c;
    }
    forall i | 0 <= i < |v| ensures Rol(v, count)[i] == (v[c..] + v[..c])[i] {
    }
  }

  // ---------------------------------------------------------------- 64-bit rotates

  function Rldicl(rs: Word64, n: nat, b: nat): Word64
    requires n < 64 && b < 64
  {
    And(Rol(rs, n), Mask(64, b, 63))
  }

  function Rldicr(rs: Word64, n: nat, e: nat): Word64
    requires n < 64 && e < 64
  {
    And(Rol(rs, n), Mask(64, 0, e))
  }

  function Rldic(rs: Word64, n: nat, b: nat): Word64
    requires n < 64 && b < 64
  {
    And(Rol(rs, n), Mask(64, b, 63 - n))
  }

  function Rldimi(rs: Word64, ra: Word64, n: nat, b: nat): Word64
    requires n < 64 && b < 64
  {
    var m := Mask(64, b, 63 - n);
    Or(And(Rol(rs, n), m), And(ra, Not(m)))
  }

  lemma {:induction false} RotatedBit(v: Word64, n: nat, i: nat)
    requires n < 64 && i < 64
    ensures Rol(v, n)[i] == v[(i + n) % 64]
  {
    RolIsRotation(v, n);
    assert (v[n..] + v[..n])[i] == if i + n < 64 then v[i + n] else v[i + n - 64];
  }

  /** All four instructions, bit by bit and for all operands: bit `i` is bit `i + n` of the source
      inside the mask; outside it is zero or the bit of the target. */
  lemma {:induction false} DoublewordRotates(rs: Word64, ra: Word64, n: nat, b: nat, i: nat)
    requires n < 64 && b < 64 && i < 64
    ensures Rldicl(rs, n, b)[i] == (InMask(i, b, 63) && rs[(i + n) % 64])
    ensures Rldicr(rs, n, b)[i] == (InMask(i, 0, b) && rs[(i + n) % 64])
    ensures Rldic(rs, n, b)[i] == (InMask(i, b, 63 - n) && rs[(i + n) % 64])
    ensures Rldimi(rs, ra, n, b)[i] == if InMask(i, b, 63 - n) then rs[(i + n) % 64] else ra[i]
  {
    RotatedBit(rs, n, i);
    MaskIsExact(64, b, 63);
    MaskIsExact(64, 0, b);
    MaskIsExact(64, b, 63 - n);
  }

  // ---------------------------------------------------------------- 64-bit rotates as arithmetic

  /** The source rotated left by `n`, as a number. */
  function Rotated(rs: Word64, n: nat): int
    requires n < 64
  {
    Num(rs) % Pow2(64 - n) * Pow2(n) + Num(rs) / Pow2(64 - n)
  }

  lemma {:induction false} RolIsRotated(rs: Word64, n: nat)
    requires n < 64
    ensures Num(Rol(rs, n)) == Rotated(rs, n)
  {
    RolIsRotation(rs, n);
    HighBits(rs, n);
    LowBits(rs, n);
    InTwoParts(rs[n..], rs[..n], n, Num(rs) % Pow2(64 - n), Num(rs) / Pow2(64 - n));
  }

  lemma {:induction false} InTwoParts(x: Bits, y: Bits, q: nat, nx: int, ny: int)
    requires |y| == q && Num(x) == nx && Num(y) == ny
    ensures Num(x + y) == nx * Pow2(q) + ny
  {
    NumConcat(x, y);
  }

  lemma {:induction false} ZerosInFrontOf(k: nat, x: Bits)
    ensures Num(Fill(false, k) + x) == Num(x)
  {
    NumConcat(Fill(false, k), x);
    NumFill(false, k);
  }

  lemma {:induction false} ZerosBehind(x: Bits, k: nat)
    ensures Num(x + Fill(false, k)) == Num(x) * Pow2(k)
  {
    NumConcat(x, Fill(false, k));
    NumFill(false, k);
  }

  /** RLDICL keeps the remainder by a power of two of the rotated source. */
  lemma {:induction false} RldiclIsRemainder(rs: Word64, n: nat, b: nat)
    requires n < 64 && b < 64
    ensures Num(Rldicl(rs, n, b)) == Rotated(rs, n) % Pow2(64 - b)
  {
    var w := Rol(rs, n);
    MaskIsExact(64, b, 63);
    assert Rldicl(rs, n, b) == Fill(false, b) + w[b..];
    ZerosInFrontOf(b, w[b..]);
    LowBits(w, b);
    RolIsRotated(rs, n);
  }

  /** RLDICR rounds it down to a multiple of a power of two. */
  lemma {:induction false} RldicrIsMultiple(rs: Word64, n: nat, e: nat)
    requires n < 64 && e < 64
    ensures Num(Rldicr(rs, n, e)) == Rotated(rs, n) / Pow2(63 - e) * Pow2(63 - e)
  {
    var w := Rol(rs, n);
    MaskIsExact(64, 0, e);
    assert Rldicr(rs, n, e) == w[..e + 1] + Fill(false, 63 - e);
    ZerosBehind(w[..e + 1], 63 - e);
    HighBits(w, e + 1);
    RolIsRotated(rs, n);
  }

  /** RLDIC whose mask wraps round: the bits above the one end and below the other. */
  lemma {:induction false} RldicWraps(rs: Word64, n: nat, b: nat)
    requires n < 64 && b < 64 && 64 <= n + b
    ensures Num(Rldic(rs, n, b)) == Rotated(rs, n) / Pow2(n) * Pow2(n) + Rotated(rs, n) % Pow2(64 - b)
  {
    ClearedParts(rs, n, b);
    WrappedClear(rs, n, b);
  }

  lemma {:induction false} ClearedParts(rs: Word64, n: nat, b: nat)
    requires n < 64 && b < 64 && 64 <= n + b
    ensures Rldic(rs, n, b) == Rol(rs, n)[..64 - n] + (Fill(false, n + b - 64) + Rol(rs, n)[b..])
  {
    WrappedMask(n, b);
    Masked(Rol(rs, n), rs, Mask(64, b, 63 - n), 64 - n, b);
  }

  lemma {:induction false} WrappedClear(rs: Word64, n: nat, b: nat)
    requires n < 64 && b < 64 && 64 <= n + b
    ensures Num(Rol(rs, n)[..64 - n] + (Fill(false, n + b - 64) + Rol(rs, n)[b..]))
      == Rotated(rs, n) / Pow2(n) * Pow2(n) + Rotated(rs, n) % Pow2(64 - b)
  {
    var w := Rol(rs, n);
    NumConcat(w[..64 - n], Fill(false, n + b - 64) + w[b..]);
    ZerosInFrontOf(n + b - 64, w[b..]);
    RotatedParts(rs, n, b);
  }

  lemma {:induction false} WrappedMask(n: nat, b: nat)
    requires n < 64 && b < 64 && 64 <= n + b
    ensures Mask(64, b, 63 - n) == Fill(true, 64 - n) + Fill(false, n + b - 64) + Fill(true, 64 - b)
  {
    MaskIsExact(64, b, 63 - n);
  }

  /** RLDIMI whose mask wraps round: only the bits from 64 - n to b of the target stay. */
  lemma {:induction false} RldimiWraps(rs: Word64, ra: Word64, n: nat, b: nat)
    requires n < 64 && b < 64 && 64 <= n + b
    ensures Rldimi(rs, ra, n, b) == Rol(rs, n)[..64 - n] + ra[64 - n..b] + Rol(rs, n)[b..]
  {
    WrappedMask(n, b);
    Masked(Rol(rs, n), ra, Mask(64, b, 63 - n), 64 - n, b);
  }

  /** What a mask with a gap lets through. */
  lemma {:induction false} Masked(w: Bits, ra: Bits, m: Bits, k: nat, j: nat)
    requires |w| == |ra| == 64 && k <= j <= 64
    requires m == Fill(true, k) + Fill(false, j - k) + Fill(true, 64 - j)
    ensures And(w, m) == w[..k] + (Fill(false, j - k) + w[j..])
    ensures Or(And(w, m), And(ra, Not(m))) == w[..k] + ra[k..j] + w[j..]
  {
    var masked, kept := And(w, m), And(ra, Not(m));
    assert forall i :: 0 <= i < 64 ==> masked[i] == (w[i] && !(k <= i < j)) && kept[i] == (ra[i] && k <= i < j);
  }

  lemma {:induction false} RldimiWrapsValue(rs: Word64, ra: Word64, n: nat, b: nat)
    requires n < 64 && b < 64 && 64 <= n + b
    ensures Num(Rldimi(rs, ra, n, b)) == (Rotated(rs, n) / Pow2(n) * Pow2(n + b - 64)
      + Num(ra) / Pow2(64 - b) % Pow2(n + b - 64)) * Pow2(64 - b) + Rotated(rs, n) % Pow2(64 - b)
  {
    RldimiWraps(rs, ra, n, b);
    WrappedInsert(rs, ra, n, b);
  }

  lemma {:induction false} WrappedInsert(rs: Word64, ra: Word64, n: nat, b: nat)
    requires n < 64 && b < 64 && 64 <= n + b
    ensures Num(Rol(rs, n)[..64 - n] + ra[64 - n..b] + Rol(rs, n)[b..]) == (Rotated(rs, n) / Pow2(n) * Pow2(n + b - 64)
      + Num(ra) / Pow2(64 - b) % Pow2(n + b - 64)) * Pow2(64 - b) + Rotated(rs, n) % Pow2(64 - b)
  {
    var w := Rol(rs, n);
    RotatedParts(rs, n, b);
    Slice(ra, 64 - n, b);
    InThreeParts(w[..64 - n], ra[64 - n..b], w[b..], n + b - 64, 64 - b, Rotated(rs, n) / Pow2(n),
                 Num(ra) / Pow2(64 - b) % Pow2(n + b - 64), Rotated(rs, n) % Pow2(64 - b));
  }

  lemma {:induction false} RotatedParts(rs: Word64, n: nat, b: nat)
    requires n < 64 && b < 64
    ensures Num(Rol(rs, n)[..64 - n]) == Rotated(rs, n) / Pow2(n)
    ensures Num(Rol(rs, n)[b..]) == Rotated(rs, n) % Pow2(64 - b)
  {
    HighBits(Rol(rs, n), 64 - n);
    LowBits(Rol(rs, n), b);
    RolIsRotated(rs, n);
  }

  // ---------------------------------------------------------------- the usual special cases

  /** The bits from `b` to `e`, as a number. */
  lemma {:induction false} Slice(rs: Bits, b: nat, e: nat)
    requires b <= e <= |rs|
    ensures Num(rs[b..e]) == Num(rs) / Pow2(|rs| - e) % Pow2(e - b)
  {
    HighBits(rs, e);
    LowBits(rs[..e], b);
    assert rs[..e][b..] == rs[b..e];
  }

  /** extrdi: the `n` bits from bit `b` on, right-justified; srdi and clrldi are the cases b == 0 and
      b + n == 64. */
  lemma {:induction false} ExtractRight(rs: Word64, n: nat, b: nat)
    requires 0 < n && b + n <= 64
    ensures Num(Rldicl(rs, (b + n) % 64, 64 - n)) == Num(rs) / Pow2(64 - b - n) % Pow2(n)
  {
    ExtractedBits(rs, n, b);
    ZerosInFrontOf(64 - n, rs[b..b + n]);
    Slice(rs, b, b + n);
  }

  lemma {:induction false} ExtractedBits(rs: Word64, n: nat, b: nat)
    requires 0 < n && b + n <= 64
    ensures Rldicl(rs, (b + n) % 64, 64 - n) == Fill(false, 64 - n) + rs[b..b + n]
  {
    var k := if b + n == 64 then 0 else b + n;
    assert (b + n) % 64 == k;
    RolIsRotation(rs, k);
    MaskIsExact(64, 64 - n, 63);
  }

  /** extldi: the `n` bits from bit `b` on, left-justified; sldi is the case b + n == 64. */
  lemma {:induction false} ExtractLeft(rs: Word64, n: nat, b: nat)
    requires 0 < n && b + n <= 64 && b < 64
    ensures Num(Rldicr(rs, b, n - 1)) == Num(rs) / Pow2(64 - b - n) % Pow2(n) * Pow2(64 - n)
  {
    var r := Rldicr(rs, b, n - 1);
    RolIsRotation(rs, b);
    MaskIsExact(64, 0, n - 1);
    assert r == rs[b..b + n] + Fill(false, 64 - n);
    NumConcat(rs[b..b + n], Fill(false, 64 - n));
    NumFill(false, 64 - n);
    Slice(rs, b, b + n);
  }

  /** clrlsldi: the `n + b` bits on the left cleared and the rest shifted left by `n`. */
  lemma {:induction false} ClearLeftShiftLeft(rs: Word64, n: nat, b: nat)
    requires n + b < 64
    ensures Num(Rldic(rs, n, b)) == Num(rs) % Pow2(64 - b - n) * Pow2(n)
  {
    var r := Rldic(rs, n, b);
    RolIsRotation(rs, n);
    MaskIsExact(64, b, 63 - n);
    assert r == Fill(false, b) + rs[b + n..] + Fill(false, n);
    NumConcat(Fill(false, b) + rs[b + n..], Fill(false, n));
    NumConcat(Fill(false, b), rs[b + n..]);
    NumFill(false, n);
    NumFill(false, b);
    LowBits(rs, b + n);
  }

  /** insrdi: the low-order bits of `rs` replace the bits b to 63 - n of `ra`, and no others. */
  lemma {:induction false} InsertRight(rs: Word64, ra: Word64, n: nat, b: nat)
    requires n + b < 64
    ensures Rldimi(rs, ra, n, b) == ra[..b] + rs[b + n..] + ra[64 - n..]
  {
    var r := Rldimi(rs, ra, n, b);
    RolIsRotation(rs, n);
    MaskIsExact(64, b, 63 - n);
    assert r == ra[..b] + rs[b + n..] + ra[64 - n..];
  }

  lemma {:induction false} InsertRightValue(rs: Word64, ra: Word64, n: nat, b: nat)
    requires n + b < 64
    ensures Num(Rldimi(rs, ra, n, b))
      == (Num(ra) / Pow2(64 - b) * Pow2(64 - b - n) + Num(rs) % Pow2(64 - b - n)) * Pow2(n) + Num(ra) % Pow2(n)
  {
    InsertRight(rs, ra, n, b);
    InsertedValue(rs, ra, n, b);
  }

  lemma {:induction false} InsertedValue(rs: Word64, ra: Word64, n: nat, b: nat)
    requires n + b < 64
    ensures Num(ra[..b] + rs[b + n..] + ra[64 - n..])
      == (Num(ra) / Pow2(64 - b) * Pow2(64 - b - n) + Num(rs) % Pow2(64 - b - n)) * Pow2(n) + Num(ra) % Pow2(n)
  {
    PartsOfInsert(rs, ra, n, b);
    InThreeParts(ra[..b], rs[b + n..], ra[64 - n..], 64 - b - n, n, Num(ra) / Pow2(64 - b),
                 Num(rs) % Pow2(64 - b - n), Num(ra) % Pow2(n));
  }

  lemma {:induction false} PartsOfInsert(rs: Word64, ra: Word64, n: nat, b: nat)
    requires n + b < 64
    ensures Num(ra[..b]) == Num(ra) / Pow2(64 - b) && Num(ra[64 - n..]) == Num(ra) % Pow2(n)
    ensures Num(rs[b + n..]) == Num(rs) % Pow2(64 - b - n)
  {
    HighBits(ra, b);
    LowBits(ra, 64 - n);
    LowBits(rs, b + n);
  }

  lemma {:induction false} InThreeParts(x: Bits, y: Bits, z: Bits, p: nat, q: nat, nx: int, ny: int, nz: int)
    requires |y| == p && |z| == q && Num(x) == nx && Num(y) == ny && Num(z) == nz
    ensures Num(x + y + z) == (nx * Pow2(p) + ny) * Pow2(q) + nz
  {
    NumConcat(x + y, z);
    NumConcat(x, y);
  }

  // ---------------------------------------------------------------- 32-bit rotates

  function Low(w: Word64): Bits { w[32..] }

  function Rlwinm(rs: Word64, n: nat, mb: nat, me: nat): Word64
    requires n < 32 && mb < 32 && me < 32
  {
    And(Fill(false, 32) + Rol(Low(rs), n), Mask(64, mb + 32, me + 32))
  }

  function Rlwimi(rs: Word64, ra: Word64, n: nat, mb: nat, me: nat): Word64
    requires n < 32 && mb < 32 && me < 32
  {
    var m := Mask(64, mb + 32, me + 32);
    Or(And(Fill(false, 32) + Rol(Low(rs), n), m), And(ra, Not(m)))
  }

  /** The low-order words are what the architecture says, whether or not the mask wraps round: bit `i`
      is bit `i + n` of the rotated word inside the mask. */
  lemma {:induction false} WordRotates(rs: Word64, ra: Word64, n: nat, mb: nat, me: nat, i: nat)
    requires n < 32 && mb < 32 && me < 32 && i < 32
    ensures Low(Rlwinm(rs, n, mb, me))[i] == (InMask(i, mb, me) && Low(rs)[(i + n) % 32])
    ensures Low(Rlwimi(rs, ra, n, mb, me))[i] == if InMask(i, mb, me) then Low(rs)[(i + n) % 32] else Low(ra)[i]
  {
    RolIsRotation(Low(rs), n);
    MaskIsExact(64, mb + 32, me + 32);
    var c := n % 32;
    assert (Low(rs)[c..] + Low(rs)[..c])[i] == Low(rs)[(i + n) % 32];
  }

  /** The high-order word is right exactly as long as the mask does not wrap round, or the rotated
      word is zero in the bits it would have to be copied to: the architecture rotates two copies. */
  lemma {:induction false} HighWordIff(rs: Word64, n: nat, mb: nat, me: nat)
    requires n < 32 && mb < 32 && me < 32
    ensures Rlwinm(rs, n, mb, me)[..32] == Fill(false, 32)
    ensures var both := And(Rol(Low(rs), n) + Rol(Low(rs), n), Mask(64, mb + 32, me + 32));
      Rlwinm(rs, n, mb, me) == both <==> mb <= me || Low(rs) == Fill(false, 32)
  {
    MaskIsExact(64, mb + 32, me + 32);
    RolIsRotation(Low(rs), n);
    var word := Rol(Low(rs), n);
    var both := And(word + word, Mask(64, mb + 32, me + 32));
    var r := Rlwinm(rs, n, mb, me);
    assert r[32..] == both[32..];
    if mb > me {
      assert both[..32] == word;
      assert word == Fill(false, 32) <==> Low(rs) == Fill(false, 32) by {
        Unrotated(Low(rs), n % 32);
      }
      assert r == r[..32] + r[32..] && both == both[..32] + both[32..];
    }
  }

  /** The same for RLWIMI: the bits of the mask in the high-order word are cleared instead of copied. */
  lemma {:induction false} InsertedHighWordIff(rs: Word64, ra: Word64, n: nat, mb: nat, me: nat)
    requires n < 32 && mb < 32 && me < 32
    ensures var m := Mask(64, mb + 32, me + 32);
      Rlwimi(rs, ra, n, mb, me) == Or(And(Rol(Low(rs), n) + Rol(Low(rs), n), m), And(ra, Not(m)))
      <==> mb <= me || Low(rs) == Fill(false, 32)
  {
    var m, word := Mask(64, mb + 32, me + 32), Rol(Low(rs), n);
    MaskIsExact(64, mb + 32, me + 32);
    RolIsRotation(Low(rs), n);
    var r, both := Rlwimi(rs, ra, n, mb, me), Or(And(word + word, m), And(ra, Not(m)));
    assert r[32..] == both[32..];
    if mb > me {
      assert both[..32] == word && r[..32] == Fill(false, 32);
      Unrotated(Low(rs), n % 32);
      assert r == r[..32] + r[32..] && both == both[..32] + both[32..];
    } else {
      assert both[..32] == ra[..32] == r[..32];
      assert r == r[..32] + r[32..] && both == both[..32] + both[32..];
    }
  }

  /** RLWINM of 1 with a mask of bits 31 and 0 and no rotation leaves the high-order word empty,
      where the architecture has a copy of the 1. */
  lemma {:induction false} HighWordIsLost()
    ensures var rs: Word64 := Fill(false, 63) + [true];
      !Rlwinm(rs, 0, 31, 0)[31] && And(Rol(Low(rs), 0) + Rol(Low(rs), 0), Mask(64, 63, 32))[31]
  {
    var rs: Word64 := Fill(false, 63) + [true];
    MaskIsExact(64, 63, 32);
    RolIsRotation(Low(rs), 0);
  }

  lemma {:induction false} Unrotated(v: Bits, c: nat)
    requires c < |v|
    ensures v[c..] + v[..c] == Fill(false, |v|) <==> v == Fill(false, |v|)
  {
    var r := v[c..] + v[..c];
    if r == Fill(false, |v|) {
      assert r[|v| - c..] == v[..c] && r[..|v| - c] == v[c..];
      assert v == v[..c] + v[c..];
    }
  }
}
