/** Java's fixed-width integer arithmetic: `int` and `long` ranges,
    two's-complement wrap-around of `int` and `long` arithmetic, and
    the truncating `/` and `%` operators. */
module JavaInt {
  const LONG_MIN: int := -0x8000_0000_0000_0000
  const LONG_MAX: int := 0x7FFF_FFFF_FFFF_FFFF
  const INT_MIN: int := -0x8000_0000
  const INT_MAX: int := 0x7FFF_FFFF
  const INT_SPAN: int := 0x1_0000_0000
  const LONG_SPAN: int := 0x1_0000_0000_0000_0000

  predicate IsLong(x: int)
  {
    LONG_MIN <= x <= LONG_MAX
  }

  /** The `long` a 64-bit operation yields for the mathematical result `x`. */
  function Wrap64(x: int): (r: int)
    ensures IsLong(r)
    ensures (x - r) % LONG_SPAN == 0
    ensures IsLong(x) ==> r == x
  {
    (x - LONG_MIN) % LONG_SPAN + LONG_MIN
  }

  predicate IsInt(x: int)
  {
    INT_MIN <= x <= INT_MAX
  }

  /** The `int` a 32-bit operation yields for the mathematical result `x`. */
  function Wrap32(x: int): (r: int)
    ensures IsInt(r)
    ensures (x - r) % INT_SPAN == 0
  {
    (x - INT_MIN) % INT_SPAN + INT_MIN
  }

  /** Wrapping leaves in-range values alone and is the only in-range value
      congruent to `x`. */
  lemma Wrap32Unique(x: int, y: int)
    requires IsInt(y) && (x - y) % INT_SPAN == 0
    ensures Wrap32(x) == y
  {
    var r := Wrap32(x);
    assert (r - y) % INT_SPAN == 0 by {
      assert r - y == (x - y) - (x - r);
    }
    assert -INT_SPAN < r - y < INT_SPAN;
  }

  /** Java's `a / b`: the quotient rounded toward zero. */
  function TruncDiv(a: int, b: int): int
    requires b != 0
  {
    if (a >= 0) == (b > 0) then Abs(a) / Abs(b) else -(Abs(a) / Abs(b))
  }

  /** Java's `a % b`: the remainder takes the sign of the dividend. */
  function TruncRem(a: int, b: int): int
    requires b != 0
  {
    if a >= 0 then Abs(a) % Abs(b) else -(Abs(a) % Abs(b))
  }

  function Abs(x: int): nat
  {
    if x < 0 then -x else x
  }

  /** The division identity Java guarantees for `/` and `%`. */
  lemma TruncDivRem(a: int, b: int)
    requires b != 0
    ensures a == TruncDiv(a, b) * b + TruncRem(a, b)
    ensures Abs(TruncRem(a, b)) < Abs(b)
    ensures a >= 0 ==> TruncRem(a, b) >= 0
    ensures a < 0 ==> TruncRem(a, b) <= 0
  {
    var q := Abs(a) / Abs(b);
    var m := Abs(a) % Abs(b);
    assert Abs(a) == q * Abs(b) + m;
    if b < 0 {
      assert q * Abs(b) == -(q * b);
    }
  }

  /** For non-negative operands Java's division agrees with Dafny's. */
  lemma TruncDivNonNegative(a: int, b: int)
    requires a >= 0 && b > 0
    ensures TruncDiv(a, b) == a / b && TruncRem(a, b) == a % b
  {
  }
}
