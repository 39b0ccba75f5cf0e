/** Bit fields of instruction words (ps3emu/BitField.h), over integers: bit 0 is the most
    significant of the 32. */
module BitFields {

  const WORD: nat := 0x1_0000_0000

  function Pow2(n: nat): (p: nat)
    ensures p > 0
  {
    if n == 0 then 1 else 2 * Pow2(n - 1)
  }

  /** `BitField<pos, next>::u()`. */
  function Field(word: nat, pos: nat, next: nat): nat
    requires pos < next <= 32
  {
    word / Pow2(32 - next) % Pow2(next - pos)
  }

  predicate Bit(word: nat, pos: nat)
    requires pos < 32
  {
    Field(word, pos, pos + 1) != 0
  }

  /** `BitField<pos, next>::s()`. */
  function SignedField(word: nat, pos: nat, next: nat): int
    requires pos < next <= 32
  {
    var u := Field(word, pos, next);
    if u >= Pow2(next - pos - 1) then u - Pow2(next - pos) else u
  }

  /** Division has one result. */
  lemma {:induction false} Quotient(x: nat, d: nat, q: nat, r: nat)
    requires d > 0 && x == q * d + r && r < d
    ensures x / d == q && x % d == r
  {
    if x / d < q {
      Multiples(x / d, q, d);
    } else if q < x / d {
      Multiples(q, x / d, d);
    }
  }

  lemma {:induction false} Multiples(a: nat, b: nat, d: nat)
    requires a < b
    ensures (a + 1) * d <= b * d
  {}

  lemma {:induction false} DivMod(x: nat, d: nat)
    requires d > 0
    ensures x == x / d * d + x % d && x % d < d
  {}
}
