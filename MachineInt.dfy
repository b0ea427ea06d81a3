/** Fixed-width integer arithmetic of the JVM: `int` is 32 bits and `long`
    64 bits, both two's complement; `+`, `-` and `*` wrap around, and `/`
    rounds toward zero. */
module MachineInt {
  const IntMin: int := -0x8000_0000
  const IntMax: int := 0x7FFF_FFFF
  const LongMin: int := -0x8000_0000_0000_0000
  const LongMax: int := 0x7FFF_FFFF_FFFF_FFFF

  predicate IsInt(x: int) { IntMin <= x <= IntMax }
  predicate IsLong(x: int) { LongMin <= x <= LongMax }

  /** The `int` that the exact value `x` wraps around to. */
  function WrapInt(x: int): (r: int)
    ensures IsInt(r) && (x - r) % 0x1_0000_0000 == 0
    ensures IsInt(x) ==> r == x
    ensures IntMax < x <= IntMax + 0x1_0000_0000 ==> r == x - 0x1_0000_0000
    ensures IntMin - 0x1_0000_0000 <= x < IntMin ==> r == x + 0x1_0000_0000
  {
    (x - IntMin) % 0x1_0000_0000 + IntMin
  }

  /** The `long` that the exact value `x` wraps around to. */
  function WrapLong(x: int): (r: int)
    ensures IsLong(r) && (x - r) % 0x1_0000_0000_0000_0000 == 0
    ensures IsLong(x) ==> r == x
  {
    (x - LongMin) % 0x1_0000_0000_0000_0000 + LongMin
  }

  /** A smaller non-negative dividend gives quotient 0. */
  lemma QuotSmall(a: int, b: int)
    requires 0 <= a < b
    ensures Quot(a, b) == 0
  {
    assert a / b == 0;
  }

  function Abs(x: int): nat { if x < 0 then -x else x }

  /** Integer division as the JVM does it: the quotient rounded toward zero,
      so the remainder is smaller than the divisor and takes the sign of the
      dividend. */
  function Quot(a: int, b: int): (q: int)
    requires b != 0
    ensures var rem := a - q * b; Abs(rem) < Abs(b) && (rem == 0 || (rem < 0 <==> a < 0))
  {
    if a >= 0 then (if b > 0 then a / b else -(a / -b))
    else (if b > 0 then -(-a / b) else -a / -b)
  }
}
