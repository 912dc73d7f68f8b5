/** C#'s `int` arithmetic where it differs from Dafny's unbounded `int`:
    division and remainder truncate toward zero, and a product or sum
    outside the 32-bit range wraps around. */
module Int32 {

  const Modulus: int := 0x1_0000_0000
  const MaxValue: int := 0x7FFF_FFFF
  const MinValue: int := -0x8000_0000

  /** C#'s `%`: the remainder of the truncating division, so it takes the
      sign of the dividend. */
  function TruncRem(a: int, b: int): (r: int)
    requires b > 0
    ensures a == TruncDiv(a, b) * b + r
    ensures a >= 0 ==> 0 <= r < b
    ensures a < 0 ==> -b < r <= 0
  {
    if a >= 0 then a % b else -((-a) % b)
  }

  /** C#'s `/`: the quotient is truncated toward zero. */
  function TruncDiv(a: int, b: int): (q: int)
    requires b > 0
    ensures a >= 0 ==> q * b <= a < q * b + b
    ensures a < 0 ==> q * b - b < a <= q * b
  {
    if a >= 0 then a / b else -((-a) / b)
  }

  /** A truncated quotient by a positive divisor is no larger in magnitude
      than the dividend, so it stays in the 32-bit range. */
  lemma TruncDivInRange(a: int, b: int)
    requires b >= 1 && MinValue <= a <= MaxValue
    ensures MinValue <= TruncDiv(a, b) <= MaxValue
  {
    QuotientBetween(a, b, TruncDiv(a, b));
  }

  /** A quotient bracketed as `TruncDiv` brackets it lies between 0 and
      the dividend. */
  lemma QuotientBetween(a: int, b: int, q: int)
    requires b >= 1
    requires a >= 0 ==> q * b <= a < q * b + b
    requires a < 0 ==> q * b - b < a <= q * b
    ensures a >= 0 ==> 0 <= q <= a
    ensures a < 0 ==> a <= q <= 0
  {
    ScaleGrows(q, b);
    if a >= 0 && q < 0 {
      assert (q + 1) * b == q * b + b;
      ScaleGrows(q + 1, b);
    } else if a < 0 && q > 0 {
      assert (q - 1) * b == q * b - b;
      ScaleGrows(q - 1, b);
    }
  }

  lemma ScaleGrows(q: int, b: int)
    requires b >= 1
    ensures q >= 0 ==> q <= q * b
    ensures q < 0 ==> q * b <= q
  {
    assert q * b == q + q * (b - 1);
  }

  /** The 32-bit two's-complement value of `x`, as unchecked C# arithmetic
      leaves it. */
  function Wrap(x: int): (r: int)
    ensures MinValue <= r <= MaxValue
    ensures (r - x) % Modulus == 0
    ensures MinValue <= x <= MaxValue ==> r == x
  {
    (x - MinValue) % Modulus + MinValue
  }
}
