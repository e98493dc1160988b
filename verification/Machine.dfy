/** The machine integers of the original, and conversions to them. */
module Machine {
  const MOD32 := 0x1_0000_0000

  type u32 = x: int | 0 <= x < 0x1_0000_0000
  type u16 = x: int | 0 <= x < 0x1_0000
  type byte = x: int | 0 <= x < 0x100

  function Wrap(x: int): u32 { x % 0x1_0000_0000 }

  function Wrap16(x: int): u16 { x % 0x1_0000 }

  /** Conversion of any integer to the signed 32-bit type. */
  function Signed(x: int): (r: int)
    ensures -0x8000_0000 <= r < 0x8000_0000
  {
    if x % 0x1_0000_0000 < 0x8000_0000 then x % 0x1_0000_0000 else x % 0x1_0000_0000 - 0x1_0000_0000
  }

  /** Division as in C, towards zero. */
  function Divided(x: int, y: nat): int
    requires y > 0
  {
    if x >= 0 then x / y else -((-x) / y)
  }

  /** What is left of the division has the sign of what was divided. */
  lemma DividedTruncates(x: int, y: nat)
    requires y > 0
    ensures var left: int := x - y * Divided(x, y);
            left < y && left + y > 0 && (x >= 0 ==> left >= 0) && (x <= 0 ==> left <= 0)
  {
    if x >= 0 {
      assert x == y * (x / y) + x % y;
    } else {
      assert -x == y * (-x / y) + -x % y;
      assert y * -(-x / y) == -(y * (-x / y));
    }
  }

  lemma SignedCongruent(x: int)
    ensures (Signed(x) - x) % 0x1_0000_0000 == 0
  {
  }

  lemma WrapExact(x: int)
    requires 0 <= x < 0x1_0000_0000
    ensures Wrap(x) == x
  {
  }

  lemma WrapSigned(x: int)
    requires -0x1_0000_0000 < x < 0x1_0000_0000
    ensures Wrap(x) == x + if x < 0 then 0x1_0000_0000 else 0
  {
  }

  lemma WrapBelow(x: nat)
    ensures Wrap(x) <= x && (x < 0x1_0000_0000 ==> Wrap(x) == x)
  {
  }

  lemma SignedExact(x: int)
    requires -0x8000_0000 <= x < 0x8000_0000
    ensures Signed(x) == x
  {
  }
}
