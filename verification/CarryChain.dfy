/** Subtraction of numbers of many doublewords by SUBFC and SUBFE
    (ps3emu/ppu/ppu_dasm.cpp:1154-1221; section 3.3.8 of the PowerPC User Instruction Set
    Architecture, Book I, version 2.02). */
module CarryChain {

  const BASE: nat := 0x1_0000_0000_0000_0000

  type Doubleword = v: nat | v < BASE

  /** `~ra + rb + 1` on 128 bits: the result and the new CA. */
  function Subfc(ra: Doubleword, rb: Doubleword): (Doubleword, nat) {
    var res := BASE - 1 - ra + rb + 1;
    (res % BASE, res / BASE)
  }

  function Subfe(ra: Doubleword, rb: Doubleword, ca: nat): (Doubleword, nat) {
    var res := BASE - 1 - ra + rb + ca;
    (res % BASE, res / BASE)
  }

  /** The number with these digits, least significant first. */
  function Number(digits: seq<Doubleword>): nat {
    if digits == [] then 0 else Number(digits[..|digits| - 1]) + digits[|digits| - 1] * Power(|digits| - 1)
  }

  function Power(n: nat): (p: nat)
    ensures p > 0
  {
    if n == 0 then 1 else Power(n - 1) * BASE
  }

  /** The registers that set the carry chain in motion. */
  class FixedPointUnit {
    var gpr: seq<Doubleword>
    var ca: nat

    predicate Valid()
      reads this
    {
      |gpr| == 32 && ca <= 1
    }

    /** SUBFC: result and CA together are the difference plus the base. */
    method SubtractFromCarrying(ra: nat, rb: nat, rt: nat)
      requires Valid() && ra < 32 && rb < 32 && rt < 32
      modifies this
      ensures Valid() && gpr == old(gpr)[rt := gpr[rt]]
      ensures gpr[rt] + ca * BASE == old(gpr[rb]) - old(gpr[ra]) + BASE
    {
      var res := BASE - 1 - gpr[ra] + gpr[rb];
      res := res + 1;
      ca := res / BASE;
      gpr := gpr[rt := res % BASE];
    }

    /** SUBFE: the same, less the borrow that CA brings in. */
    method SubtractFromExtended(ra: nat, rb: nat, rt: nat)
      requires Valid() && ra < 32 && rb < 32 && rt < 32
      modifies this
      ensures Valid() && gpr == old(gpr)[rt := gpr[rt]]
      ensures gpr[rt] + ca * BASE == old(gpr[rb]) - old(gpr[ra]) - 1 + old(ca) + BASE
    {
      var res := BASE - 1 - gpr[ra] + gpr[rb];
      res := res + ca;
      ca := res / BASE;
      gpr := gpr[rt := res % BASE];
    }

    /** One doubleword of a long subtraction. */
    method SubtractDigit(x: Doubleword, y: Doubleword, first: bool) returns (digit: Doubleword)
      requires Valid()
      modifies this
      ensures Valid() && (digit, ca) == if first then Subfc(x, y) else Subfe(x, y, old(ca))
    {
      gpr := gpr[3 := x][4 := y];
      if first {
        SubtractFromCarrying(3, 4, 5);
      } else {
        SubtractFromExtended(3, 4, 5);
      }
      digit := gpr[5];
    }

    /** `b - a` on numbers of any length, the way compiled code does it: SUBFC, then SUBFEs. The result
        may overwrite an operand. */
    method SubtractNumbers(a: array<Doubleword>, b: array<Doubleword>, r: array<Doubleword>)
      requires Valid() && a.Length == b.Length == r.Length > 0
      modifies this, r
      ensures Valid() && (ca == 1 <==> Number(old(b[..])) >= Number(old(a[..])))
      ensures Number(r[..]) == Number(old(b[..])) - Number(old(a[..])) + (if ca == 1 then 0 else Power(r.Length))
    {
      ghost var x, y := a[..], b[..];
      SubtractDigits(a, b, r);
      NoBorrowIff(x, y);
    }

    method SubtractDigits(a: array<Doubleword>, b: array<Doubleword>, r: array<Doubleword>)
      requires Valid() && a.Length == b.Length == r.Length > 0
      modifies this, r
      ensures Valid() && (r[..], ca) == Subtract(old(a[..]), old(b[..]))
    {
      ghost var x, y := a[..], b[..];
      var k := 0;
      while k < r.Length
        invariant Valid() && k <= r.Length
        invariant forall j :: k <= j < r.Length ==> a[j] == x[j] && b[j] == y[j]
        invariant k > 0 ==> (r[..k], ca) == Subtract(x[..k], y[..k])
      {
        ghost var done, carry := r[..k], ca;
        var digit := SubtractDigit(a[k], b[k], k == 0);
        r[k] := digit;
        OneMoreDigit(x, y, k, done, carry, digit, ca);
        assert r[..k + 1] == done + [digit];
        k := k + 1;
      }
      assert r[..k] == r[..] && x[..k] == x && y[..k] == y;
    }
  }

  /** SUBFC on the lowest doublewords, then SUBFE on the others: the digits of the result and CA. */
  function Subtract(a: seq<Doubleword>, b: seq<Doubleword>): (seq<Doubleword>, nat)
    requires |a| == |b| > 0
    ensures |Subtract(a, b).0| == |a|
  {
    var last := |a| - 1;
    if last == 0 then
      var (digit, ca) := Subfc(a[0], b[0]);
      ([digit], ca)
    else
      var (digits, ca) := Subtract(a[..last], b[..last]);
      var (digit, ca') := Subfe(a[last], b[last], ca);
      (digits + [digit], ca')
  }

  lemma {:induction false} OneMoreDigit(a: seq<Doubleword>, b: seq<Doubleword>, k: nat, done: seq<Doubleword>,
                                        carry: nat, digit: Doubleword, ca: nat)
    requires k < |a| == |b| && |done| == k
    requires k > 0 ==> (done, carry) == Subtract(a[..k], b[..k])
    requires (digit, ca) == if k == 0 then Subfc(a[0], b[0]) else Subfe(a[k], b[k], carry)
    ensures (done + [digit], ca) == Subtract(a[..k + 1], b[..k + 1])
  {
    assert a[..k + 1][..k] == a[..k] && b[..k + 1][..k] == b[..k];
    if k == 0 {
      assert done + [digit] == [digit];
    }
  }

  lemma {:induction false} OneDigit(ra: Doubleword, rb: Doubleword, ca: nat)
    requires ca <= 1
    ensures var (digit, ca') := Subfe(ra, rb, ca);
      ca' <= 1 && digit + ca' * BASE == BASE - 1 - ra + rb + ca
  {}

  /** The digits and CA together are the difference, for any number of doublewords. */
  lemma {:induction false} SubtractIsExact(a: seq<Doubleword>, b: seq<Doubleword>)
    requires |a| == |b| > 0
    ensures var (digits, ca) := Subtract(a, b);
      ca <= 1 && Number(digits) + ca * Power(|a|) == Number(b) - Number(a) + Power(|a|)
    decreases |a|
  {
    var last := |a| - 1;
    if last == 0 {
      OneDigit(a[0], b[0], 1);
      assert Number(a[..0]) == 0 && Number(b[..0]) == 0;
      assert Power(1) == BASE && Power(0) == 1;
      var digits := Subtract(a, b).0;
      assert digits[..0] == [];
    } else {
      var (digits, ca) := Subtract(a[..last], b[..last]);
      SubtractIsExact(a[..last], b[..last]);
      var (digit, ca') := Subfe(a[last], b[last], ca);
      OneDigit(a[last], b[last], ca);
      assert (digits + [digit])[..last] == digits;
      Columns(Number(digits), digit, ca, ca', Number(a[..last]), Number(b[..last]), a[last], b[last], Power(last));
    }
  }

  lemma {:induction false} Columns(low: nat, digit: nat, ca: nat, ca': nat, a: nat, b: nat, x: nat, y: nat, p: nat)
    requires low + ca * p == b - a + p
    requires digit + ca' * BASE == BASE - 1 - x + y + ca
    ensures low + digit * p + ca' * (p * BASE) == (b + y * p) - (a + x * p) + p * BASE
  {
    assert (digit + ca' * BASE) * p == (BASE - 1 - x + y + ca) * p;
    assert digit * p + ca' * (p * BASE) == p * BASE - p - x * p + y * p + ca * p;
  }

  lemma {:induction false} NumberBound(digits: seq<Doubleword>)
    ensures Number(digits) < Power(|digits|)
    decreases |digits|
  {
    if digits != [] {
      var last := |digits| - 1;
      NumberBound(digits[..last]);
      TopDigit(digits[last], Power(last));
    }
  }

  lemma {:induction false} TopDigit(d: Doubleword, p: nat)
    ensures d * p + p <= p * BASE
  {
    Scaled(d + 1, BASE, p);
  }

  lemma {:induction false} Scaled(x: nat, y: nat, p: nat)
    requires x <= y
    ensures x * p <= y * p
  {}

  /** At the end CA is one exactly when there is no borrow, and then the digits are the difference;
      otherwise they are the difference modulo the power of the base. */
  lemma {:induction false} NoBorrowIff(a: seq<Doubleword>, b: seq<Doubleword>)
    requires |a| == |b| > 0
    ensures var (digits, ca) := Subtract(a, b);
      (ca == 1 <==> Number(b) >= Number(a)) && (ca == 0 || ca == 1) &&
      Number(digits) == if ca == 1 then Number(b) - Number(a) else Number(b) - Number(a) + Power(|a|)
  {
    SubtractIsExact(a, b);
    NumberBound(Subtract(a, b).0);
    NumberBound(a);
    NumberBound(b);
  }

  // ---------------------------------------------------------------- SUBFIC

  function SignedValue(v: Doubleword): int { if v >= BASE / 2 then v - BASE else v }

  /** CA as SUBFIC sets it: the signed overflow of `si - ra`. */
  predicate SubficCarry(si: int, ra: Doubleword) {
    var d := si - SignedValue(ra);
    d < -(BASE / 2) || d >= BASE / 2
  }

  /** CA as the architecture defines it: the carry of `~ra + si + 1`. */
  predicate CarryOfSubtraction(si: int, ra: Doubleword)
    requires -0x8000 <= si < 0x8000
  {
    Subfc(ra, si % BASE).1 == 1
  }

  /** SUBFIC has the right CA exactly when neither says anything: no signed overflow and a borrow, or
      both. */
  lemma {:induction false} SubficCarryIff(si: int, ra: Doubleword)
    requires -0x8000 <= si < 0x8000
    ensures SubficCarry(si, ra) == CarryOfSubtraction(si, ra)
      <==> if si >= 0 then SignedValue(ra) > si || (SignedValue(ra) < 0 && SignedValue(ra) > si - BASE / 2)
           else si < SignedValue(ra) < 0 || SignedValue(ra) > si + BASE / 2
  {
    assert si % BASE == if si >= 0 then si else si + BASE;
  }

  /** 5 - 3 does not borrow, but SUBFIC says that it does. */
  lemma {:induction false} SubficCarryIsWrong()
    ensures !SubficCarry(5, 3) && CarryOfSubtraction(5, 3)
  {
    assert Subfc(3, 5) == (2, 1);
  }
}
