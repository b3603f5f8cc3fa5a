/**
 Powers of two and the values of IEEE 754 single-precision bit patterns, exactly, as reals.
 */
module Binary32 {

  const MANTISSA: nat := 0x80_0000

  function Exp2(k: int): (r: real)
    ensures r > 0.0
    decreases if k < 0 then -k else k
  {
    if k == 0 then 1.0 else if k > 0 then 2.0 * Exp2(k - 1) else Exp2(k + 1) / 2.0
  }

  lemma Exp2Step(k: int)
    ensures Exp2(k + 1) == 2.0 * Exp2(k)
  {
  }

  lemma {:induction false} Exp2Add(a: int, n: nat)
    ensures Exp2(a + n) == Exp2(a) * Exp2(n)
  {
    Exp2Zero();
    hide *;
    if n > 0 {
      Exp2Add(a, n - 1);
      Exp2Step(a + n - 1);
      Exp2Step(n - 1);
      Doubled(Exp2(a), Exp2(n - 1), Exp2(a + n - 1), Exp2(n));
    } else {
      assert a + n == a;
    }
  }

  lemma Doubled(a: real, b: real, ab: real, b2: real)
    requires ab == a * b && b2 == 2.0 * b
    ensures 2.0 * ab == a * b2
  {
  }

  lemma Exp2Zero()
    ensures Exp2(0) == 1.0
  {
  }

  lemma Exp2Sum(a: int, b: int)
    ensures Exp2(a + b) == Exp2(a) * Exp2(b)
  {
    Exp2Zero();
    hide *;
    if b >= 0 {
      Exp2Add(a, b);
    } else {
      Exp2Add(a + b, -b);
      Exp2Add(b, -b);
      Uncancel(Exp2(a), Exp2(a + b), Exp2(b), Exp2(-b));
    }
  }

  lemma Uncancel(a: real, ab: real, b: real, c: real)
    requires c > 0.0 && a == ab * c && b * c == 1.0
    ensures ab == a * b
  {
    assert a * b == ab * c * b;
    assert ab * c * b == ab * (b * c);
  }

  lemma {:induction false} Exp2Order(a: int, b: int)
    requires a <= b
    ensures Exp2(a) <= Exp2(b)
    ensures a < b ==> 2.0 * Exp2(a) <= Exp2(b)
    decreases b - a
  {
    if a == b {
      assert Exp2(a) == Exp2(b);
    } else {
      Exp2Order(a, b - 1);
      Exp2Step(b - 1);
    }
  }

  lemma Exp2Constants()
    ensures Exp2(3) == 8.0 && Exp2(19) == 524288.0 && Exp2(20) == 1048576.0 && Exp2(23) == 8388608.0
    ensures Exp2(8) == 256.0 && Exp2(-9) * 512.0 == 1.0
  {
    assert Exp2(4) == 16.0;
    assert Exp2(8) == 256.0;
    assert Exp2(12) == 4096.0;
    assert Exp2(16) == 65536.0;
    assert Exp2(19) == 524288.0;
    assert Exp2(20) == 1048576.0;
    assert Exp2(23) == 8388608.0;
    assert Exp2(-4) == 0.0625;
    assert Exp2(-8) == 0.00390625;
  }

  // ---- bit patterns -----------------------------------------------------------------------

  /** The biased exponent of a pattern without its sign bit. */
  function Biased(bits: nat): nat { bits / MANTISSA }

  function Fraction(bits: nat): nat { bits % MANTISSA }

  /** The value of a finite nonnegative pattern. */
  function FloatValue(bits: nat): (r: real)
    requires bits < 255 * MANTISSA
    ensures r >= 0.0
  {
    if Biased(bits) == 0 then Fraction(bits) as real * Exp2(-149)
    else (MANTISSA + Fraction(bits)) as real * Exp2(Biased(bits) - 150)
  }

  /** ldexpf(1, k) for every exponent that stays below infinity; underflow ends in zero. */
  function PowerBits(k: int): (bits: nat)
    requires k <= 127
    ensures bits < 255 * MANTISSA
  {
    if k >= -126 then (k + 127) * MANTISSA
    else if k >= -149 then Subnormal(k + 149)
    else 0
  }

  function Subnormal(n: nat): (r: nat)
    requires n <= 22
    ensures 0 < r < MANTISSA
    ensures r as real == Exp2(n)
  {
    Exp2Constants();
    if n == 0 then 1 else
    Exp2Order(n, 22);
    Exp2Step(22);
    2 * Subnormal(n - 1)
  }

  /** The pattern is that of the power itself, down to the least subnormal; below, it is zero. */
  lemma PowerBitsValue(k: int)
    requires k <= 127
    ensures FloatValue(PowerBits(k)) == if k >= -149 then Exp2(k) else 0.0
  {
    hide Exp2, Subnormal;
    if k < -149 {
      assert Biased(0) == 0 && Fraction(0) == 0;
    } else if k >= -126 {
      assert Biased(PowerBits(k)) == k + 127 && Fraction(PowerBits(k)) == 0;
      Exp2Sum(k - 23, 23);
      Exp2Constants();
    } else {
      assert Biased(PowerBits(k)) == 0 && Fraction(PowerBits(k)) == Subnormal(k + 149);
      Exp2Sum(k + 149, -149);
    }
  }
}
