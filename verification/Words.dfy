/** Machine words as sequences of bits, most significant first, and the bit operations on them
    (ps3emu/BitField.h:14-40 and 120-165). */
module Words {
  import opened BitFields

  type Bits = seq<bool>

  /** The unsigned value. */
  function Num(b: Bits): nat {
    if b == [] then 0 else Num(b[..|b| - 1]) * 2 + (if b[|b| - 1] then 1 else 0)
  }

  /** The value in two's complement. */
  function Signed(b: Bits): int {
    if b != [] && b[0] then Num(b) - Pow2(|b|) else Num(b)
  }

  /** The `n` low-order bits of a number. */
  function ToBits(v: nat, n: nat): (b: Bits)
    ensures |b| == n
  {
    if n == 0 then [] else ToBits(v / 2, n - 1) + [v % 2 == 1]
  }

  function Fill(bit: bool, n: nat): (b: Bits)
    ensures |b| == n && forall i :: 0 <= i < n ==> b[i] == bit
  {
    seq(n, _ => bit)
  }

  function And(a: Bits, b: Bits): (r: Bits)
    requires |a| == |b|
    ensures |r| == |a| && forall i :: 0 <= i < |a| ==> r[i] == (a[i] && b[i])
  {
    seq(|a|, i requires 0 <= i < |a| => a[i] && b[i])
  }

  function Or(a: Bits, b: Bits): (r: Bits)
    requires |a| == |b|
    ensures |r| == |a| && forall i :: 0 <= i < |a| ==> r[i] == (a[i] || b[i])
  {
    seq(|a|, i requires 0 <= i < |a| => a[i] || b[i])
  }

  function Not(a: Bits): (r: Bits)
    ensures |r| == |a| && forall i :: 0 <= i < |a| ==> r[i] == !a[i]
  {
    seq(|a|, i requires 0 <= i < |a| => !a[i])
  }

  function Shl(a: Bits, n: nat): (r: Bits)
    requires n <= |a|
    ensures |r| == |a|
  {
    a[n..] + Fill(false, n)
  }

  function Shr(a: Bits, n: nat): (r: Bits)
    requires n <= |a|
    ensures |r| == |a|
  {
    Fill(false, n) + a[..|a| - n]
  }

  // ---------------------------------------------------------------- values

  lemma {:induction false} Pow2Sum(a: nat, b: nat)
    ensures Pow2(a + b) == Pow2(a) * Pow2(b)
  {
    if b > 0 {
      Pow2Sum(a, b - 1);
      Regroup(Pow2(a), Pow2(b - 1));
    }
  }

  lemma {:induction false} Regroup(x: nat, y: nat)
    ensures 2 * (x * y) == x * (2 * y)
  {}

  lemma {:induction false} NumBound(b: Bits)
    ensures Num(b) < Pow2(|b|)
    decreases |b|
  {
    if b != [] {
      NumBound(b[..|b| - 1]);
    }
  }

  lemma {:induction false} NumConcat(a: Bits, b: Bits)
    ensures Num(a + b) == Num(a) * Pow2(|b|) + Num(b)
    decreases |b|
  {
    if b == [] {
      assert a + b == a;
    } else {
      var front := b[..|b| - 1];
      assert (a + b)[..|a + b| - 1] == a + front;
      NumConcat(a, front);
      Doubled(Num(a), Pow2(|front|), Num(front));
    }
  }

  lemma {:induction false} Doubled(x: nat, p: nat, y: nat)
    ensures (x * p + y) * 2 == x * (2 * p) + y * 2
  {}

  lemma {:induction false} NumFill(bit: bool, n: nat)
    ensures Num(Fill(bit, n)) == if bit then Pow2(n) - 1 else 0
  {
    if n > 0 {
      NumFill(bit, n - 1);
      assert Fill(bit, n)[..n - 1] == Fill(bit, n - 1);
    }
  }

  /** A word cut in two. */
  lemma {:induction false} NumSplit(b: Bits, k: nat)
    requires k <= |b|
    ensures var low := Pow2(|b| - k);
      Num(b) == Num(b[..k]) * low + Num(b[k..]) && Num(b[k..]) < low
    ensures Num(b) / Pow2(|b| - k) == Num(b[..k]) && Num(b) % Pow2(|b| - k) == Num(b[k..])
  {
    var low := Pow2(|b| - k);
    assert b[..k] + b[k..] == b;
    NumConcat(b[..k], b[k..]);
    NumBound(b[k..]);
    Quotient(Num(b), low, Num(b[..k]), Num(b[k..]));
  }

  lemma {:induction false} HighBits(b: Bits, k: nat)
    requires k <= |b|
    ensures Num(b) / Pow2(|b| - k) == Num(b[..k])
  {
    NumSplit(b, k);
  }

  lemma {:induction false} LowBits(b: Bits, k: nat)
    requires k <= |b|
    ensures Num(b) % Pow2(|b| - k) == Num(b[k..])
  {
    NumSplit(b, k);
  }

  lemma {:induction false} NumToBits(v: nat, n: nat)
    ensures Num(ToBits(v, n)) == v % Pow2(n)
  {
    if n > 0 {
      NumToBits(v / 2, n - 1);
      HalfRemainder(v, Pow2(n - 1));
      assert ToBits(v, n)[..n - 1] == ToBits(v / 2, n - 1);
    } else {
      assert v % 1 == 0;
    }
  }

  lemma {:induction false} HalfRemainder(v: nat, p: nat)
    requires p > 0
    ensures v % (2 * p) == v / 2 % p * 2 + v % 2
  {
    var h, q, r := v / 2, v / 2 / p, v / 2 % p;
    DivMod(h, p);
    Doubled(q, p, r);
    assert v == h * 2 + v % 2;
    Quotient(v, 2 * p, q, r * 2 + v % 2);
  }

  /** Words are equal if their values are. */
  lemma {:induction false} NumInjective(a: Bits, b: Bits)
    requires |a| == |b| && Num(a) == Num(b)
    ensures a == b
    decreases |a|
  {
    if a != [] {
      var last := |a| - 1;
      NumInjective(a[..last], b[..last]);
      assert a == a[..last] + [a[last]] && b == b[..last] + [b[last]];
    }
  }

  // ---------------------------------------------------------------- masks and rotations

  /** Bit `i` is in the mask from `x` to `y`, which wraps round when `x` is greater. */
  predicate InMask(i: int, x: nat, y: nat) {
    if x <= y then x <= i <= y else 0 <= i <= y || x <= i
  }

  /** `mask<width, uint64_t>(x, y)`. */
  function Mask(width: nat, x: nat, y: nat): (m: Bits)
    requires x < width <= 64 && y < width
    ensures |m| == 64
    decreases if x > y then 1 else 0
  {
    if x > y then Or(Mask(width, 0, y), Mask(width, x, width - 1))
    else
      var a := Shr(Fill(true, 64), x);
      var b := And(Shl(Fill(true, 64), 63 - y), a);
      Shr(b, 64 - width)
  }

  /** `rol`, on 32 or 64 bits. */
  function Rol(v: Bits, count: nat): (r: Bits)
    requires |v| == 32 || |v| == 64
    ensures |r| == |v|
  {
    var c := count % |v|;
    Or(Shl(v, c), Shr(v, (|v| - c) % |v|))
  }
}
