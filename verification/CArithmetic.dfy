/** The C integer arithmetic that the quantiser relies on. */
module CArithmetic {

  const INT_MAX: int := 0x7FFF_FFFF

  type byte = x: int | 0 <= x < 256
  type ushort = x: int | 0 <= x < 65536
  type positive = x: int | x > 0 witness 1

  /** C's `a / b` for a positive divisor: the quotient is rounded toward zero. */
  function TruncDiv(a: int, b: int): int
    requires b > 0
  {
    if a >= 0 then a / b else -((-a) / b)
  }

  function Abs(v: int): nat { if v < 0 then -v else v }

  function Min(a: nat, b: nat): nat { if a < b then a else b }

  function Max(a: nat, b: nat): nat { if a < b then b else a }

  /** The saturating store of `error_diffuse`. */
  function ClampByte(v: int): byte {
    if v < 0 then 0 else if v > 255 then 255 else v
  }

  /** A common positive factor does not change an order. */
  lemma CancelFactor(a: int, b: int, d: int)
    requires d > 0 && a * d < b * d
    ensures a < b
  {
    if a >= b {
      MulMonotone(b, a, d);
    }
  }

  lemma MulMonotone(a: int, b: int, d: nat)
    requires a <= b
    ensures a * d <= b * d
  {
    var k := b - a;
    assert k * d >= 0;
    assert b * d == (a + k) * d == a * d + k * d;
  }
}
