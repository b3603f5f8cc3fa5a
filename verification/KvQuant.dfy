/**
 The in-place E4M3 round trip of the compressed KV rows, src/quant/ds4_quant.c:275-292. Arithmetic is over reals.
 */
module KvQuant {
  import opened Binary32
  import opened E4m3

  const BLOCK: nat := 64

  // ---- the block scale ---------------------------------------------------------------------

  lemma {:induction false} Exp2Grows(n: nat)
    ensures Exp2(n) >= n as real + 1.0
  {
    if n == 0 {
    } else {
      Exp2Grows(n - 1);
      Exp2Step(n - 1);
    }
  }

  lemma Exp2Shrinks(n: int, r: real)
    requires n >= 0
    requires 0.0 < r <= Exp2(-n)
    ensures n as real <= 1.0 / r
  {
    Exp2Grows(n);
    Exp2Sum(n, -n);
    Exp2Zero();
    var big, small := Exp2(n), Exp2(-n);
    hide *;
    var nn: real := n as real;
    ProductAtMostOne(nn, r, big, small);
    Bounded(nn, r, nn * r);
  }

  lemma ProductAtMostOne(n: real, r: real, big: real, small: real)
    requires big > 0.0 && big * small == 1.0 && n <= big && 0.0 < r <= small
    ensures n * r <= 1.0
  {
    ScaledBy(n, big, r);
    ScaledBy(r, small, big);
  }

  lemma Bounded(n: real, r: real, nr: real)
    requires r > 0.0 && nr == n * r && nr <= 1.0
    ensures n <= 1.0 / r
  {
    var q := 1.0 / r;
    assert q * r == 1.0;
    if q < n { ScaledBy(q, n, r); assert false; }
  }

  function Up(r: real, n: nat): (k: int)
    requires r > 0.0 && Exp2(n - 1) < r
    ensures Exp2(k - 1) < r <= Exp2(k)
    decreases r.Floor + 1 - n
  {
    if r <= Exp2(n) then n else
    Exp2Grows(n);
    Up(r, n + 1)
  }

  function Down(r: real, n: int): (k: int)
    requires r > 0.0 && n <= 0 && r <= Exp2(n)
    ensures Exp2(k - 1) < r <= Exp2(k)
    decreases (1.0 / r).Floor + n
  {
    if Exp2(n - 1) < r then n else
    Exp2Shrinks(1 - n, r);
    Down(r, n - 1)
  }

  /** ceil(log2(r)) */
  function CeilLog2(r: real): (k: int)
    requires r > 0.0
    ensures Exp2(k - 1) < r <= Exp2(k)
  {
    if r <= 1.0 then Down(r, 0) else Up(r, 1)
  }

  /** The largest magnitude of a block. */
  function Amax(x: seq<real>): (r: real)
    ensures r >= 0.0
    ensures forall i :: 0 <= i < |x| ==> Abs(x[i]) <= r
    ensures r == 0.0 || exists i :: 0 <= i < |x| && r == Abs(x[i])
  {
    if |x| == 0 then 0.0 else
    var rest := Amax(x[..|x| - 1]);
    assert forall i :: 0 <= i < |x| - 1 ==> x[..|x| - 1][i] == x[i];
    if Abs(x[|x| - 1]) > rest then Abs(x[|x| - 1]) else rest
  }

  const FLOOR: real := 0.0001

  function Floored(amax: real): (r: real)
    ensures r >= FLOOR && r >= amax
  {
    if amax < FLOOR then FLOOR else amax
  }

  /** The exponent of the scale of a block. */
  function Exponent(amax: real): int {
    CeilLog2(Floored(amax) / 448.0)
  }

  /** z times 2^k, and x over 2^k. */
  function Scaled(z: real, k: int): real { z * Exp2(k) }

  function Over(x: real, k: int): real { x / Exp2(k) }

  /** One element through the round trip at scale 2^k. */
  function Quantized(x: real, k: int): real {
    var v := Over(x, k);
    Scaled(Rounded(if v > 448.0 then 448.0 else if v < -448.0 then -448.0 else v), k)
  }

  function QuantizedBlock(x: seq<real>): (r: seq<real>)
    ensures |r| == |x| && forall i :: 0 <= i < |x| ==> r[i] == Quantized(x[i], Exponent(Amax(x)))
  {
    seq(|x|, i requires 0 <= i < |x| => Quantized(x[i], Exponent(Amax(x))))
  }

  // ---- values that survive ------------------------------------------------------------------

  /** v is the value of some code, with a sign. */
  ghost predicate IsE4m3(v: real) {
    exists c: nat :: c <= TOP && Abs(v) == Value(c)
  }

  lemma RoundedIsE4m3(x: real)
    ensures IsE4m3(Rounded(x)) && Abs(Rounded(x)) <= 448.0
  {
    var c := RoundCode(Min(Abs(x), 448.0));
    TopValue();
    ValueNonNegative(c);
    if c < TOP { ValueOrder(c, TOP); }
    hide Value, RoundCode;
    assert Abs(Rounded(x)) == Value(c);
  }

  lemma ValueNonNegative(c: nat)
    requires c <= 127
    ensures Value(c) >= 0.0
  {
    MagnitudeZero();
    if c > 0 { ValueOrder(0, c); }
  }

  /** A value that is a code already is left alone. */
  lemma RoundedKeeps(v: real)
    requires IsE4m3(v)
    ensures Rounded(v) == v
  {
    hide Value, RoundCode, IsNearestEven;
    var c: nat :| c <= TOP && Abs(v) == Value(c);
    TopValue();
    if c < TOP { ValueOrder(c, TOP); }
    ExactIsNearest(c);
    RoundCodeIsNearest(Value(c));
    NearestIsUnique(Value(c), c, RoundCode(Value(c)));
  }

  /** Doubling keeps a value up to 224 a code: the next exponent, or out of the subnormals. */
  lemma DoubleIsE4m3(v: real)
    requires IsE4m3(v) && Abs(v) <= 224.0
    ensures IsE4m3(2.0 * v)
  {
    var c: nat :| c <= TOP && Abs(v) == Value(c);
    if c >= 119 { Value119(); if c > 119 { ValueOrder(119, c); } assert false; }
    DoubledValue(c);
    hide Value;
    assert Abs(2.0 * v) == 2.0 * Abs(v);
    assert IsE4m3(2.0 * v);
  }

  lemma Value119()
    ensures Value(119) == 240.0
  {
    assert Magnitude(14, 7) == 15.0 * Exp2(4);
    assert Exp2(4) == 16.0;
  }

  lemma DoubledValue(c: nat)
    requires c < 119
    ensures exists d: nat :: d <= TOP && Value(d) == 2.0 * Value(c)
  {
    hide Exp2;
    if c >= 8 {
      assert (c + 8) / 8 == c / 8 + 1 && (c + 8) % 8 == c % 8;
      Exp2Step(c / 8 - 10);
      assert Value(c + 8) == 2.0 * Value(c);
    } else if c < 4 {
      assert Value(2 * c) == 2.0 * Value(c);
    } else {
      assert (2 * c) / 8 == 1 && 8 + (2 * c) % 8 == 2 * c;
      assert Value(2 * c) == 2.0 * Value(c);
    }
  }

  // ---- idempotence -----------------------------------------------------------------------------

  lemma ScaledOrder(a: real, b: real, k: int)
    ensures a <= b <==> Scaled(a, k) <= Scaled(b, k)
    ensures a == b <==> Scaled(a, k) == Scaled(b, k)
  {
    if a < b { ScaledBy(a, b, Exp2(k)); }
    if b < a { ScaledBy(b, a, Exp2(k)); }
  }

  lemma ScaledMagnitude(z: real, k: int)
    ensures Abs(Scaled(z, k)) == Scaled(Abs(z), k)
  {
    ScaledZero(k);
    ScaledOrder(0.0, z, k);
    ScaledOrder(z, 0.0, k);
    assert Scaled(-z, k) == -Scaled(z, k);
    hide Scaled;
  }

  lemma ScaledZero(k: int)
    ensures Scaled(0.0, k) == 0.0
  {
  }

  lemma OverThenScaled(x: real, k: int)
    ensures Scaled(Over(x, k), k) == x
  {
    var p := Exp2(k);
    assert x / p * p == x;
  }

  lemma ScaledThenOver(z: real, k: int)
    ensures Over(Scaled(z, k), k) == z
  {
    OverThenScaled(Scaled(z, k), k);
    hide Scaled, Over;
    ScaledOrder(Over(Scaled(z, k), k), z, k);
  }

  lemma OverMagnitude(x: real, k: int)
    ensures Abs(x) == Scaled(Abs(Over(x, k)), k)
  {
    hide Scaled, Over;
    OverThenScaled(x, k);
    ScaledMagnitude(Over(x, k), k);
  }

  lemma ScaledHalf(z: real, k: int)
    ensures Scaled(z, k) == Scaled(2.0 * z, k - 1)
  {
    Exp2Step(k - 1);
    hide Exp2;
  }

  /** The scale covers the whole block, and is the least one that covers the floored maximum. */
  lemma ExponentBounds(amax: real)
    requires amax >= 0.0
    ensures amax <= Scaled(448.0, Exponent(amax)) && FLOOR <= Scaled(448.0, Exponent(amax))
    ensures Scaled(224.0, Exponent(amax)) < Floored(amax)
  {
    var k := Exponent(amax);
    Exp2Step(k - 1);
  }

  /** An element inside the range of its scale becomes a code times the scale. */
  lemma QuantizedIsCode(x: real, k: int)
    requires Abs(x) <= Scaled(448.0, k)
    ensures Quantized(x, k) == Scaled(Rounded(Over(x, k)), k)
    ensures IsE4m3(Rounded(Over(x, k))) && Abs(Rounded(Over(x, k))) <= 448.0
  {
    hide Rounded, Scaled, Over;
    OverMagnitude(x, k);
    ScaledOrder(Abs(Over(x, k)), 448.0, k);
    RoundedIsE4m3(Over(x, k));
  }

  /** A value above 224 is not rounded below it. */
  lemma RoundedStaysHigh(v: real)
    requires Abs(v) > 224.0
    ensures Abs(Rounded(v)) >= 224.0
  {
    var ax := Min(Abs(v), 448.0);
    Value118();
    var f := FloorCode(ax, TOP);
    hide Value, FloorCode;
    assert f >= 118;
    var c := RoundCode(ax);
    if c > 118 { ValueOrder(118, c); }
  }

  lemma Value118()
    ensures Value(118) == 224.0
  {
    assert Magnitude(14, 6) == 14.0 * Exp2(4);
    assert Exp2(4) == 16.0;
  }

  /** Quantizing at the same scale, or at half the scale when nothing exceeds its range, changes no code. */
  lemma CodeIsKept(z: real, k: int, k': int)
    requires IsE4m3(z) && Abs(z) <= 448.0
    requires k' == k || (k' == k - 1 && Abs(z) <= 224.0)
    ensures Quantized(Scaled(z, k), k') == Scaled(z, k)
  {
    hide Rounded, IsE4m3, Scaled, Over;
    if k' == k {
      ScaledThenOver(z, k);
      RoundedKeeps(z);
    } else {
      ScaledHalf(z, k);
      ScaledThenOver(2.0 * z, k');
      DoubleIsE4m3(z);
      RoundedKeeps(2.0 * z);
    }
  }

  lemma BlockElement(x: seq<real>, i: nat)
    requires i < |x|
    ensures var k := Exponent(Amax(x));
      var z := Rounded(Over(x[i], k));
      && QuantizedBlock(x)[i] == Scaled(z, k)
      && IsE4m3(z) && Abs(z) <= 448.0 && Abs(QuantizedBlock(x)[i]) <= Scaled(448.0, k)
  {
    hide Quantized, Exponent, Rounded, IsE4m3, Scaled, Over;
    var k := Exponent(Amax(x));
    ExponentBounds(Amax(x));
    QuantizedIsCode(x[i], k);
    var z := Rounded(Over(x[i], k));
    ScaledMagnitude(z, k);
    ScaledOrder(Abs(z), 448.0, k);
  }

  lemma HighElement(x: seq<real>, j: nat)
    requires j < |x| && Abs(x[j]) == Amax(x) >= FLOOR
    ensures Abs(QuantizedBlock(x)[j]) >= Scaled(224.0, Exponent(Amax(x)))
  {
    hide Quantized, Exponent, Rounded, IsE4m3, Scaled, Over;
    var k := Exponent(Amax(x));
    ExponentBounds(Amax(x));
    BlockElement(x, j);
    OverMagnitude(x[j], k);
    ScaledOrder(Abs(Over(x[j], k)), 224.0, k);
    var z := Rounded(Over(x[j], k));
    RoundedStaysHigh(Over(x[j], k));
    ScaledMagnitude(z, k);
    ScaledOrder(224.0, Abs(z), k);
  }

  lemma ExponentOrder(k: int, k': int)
    ensures k < k' ==> Scaled(448.0, k) <= Scaled(224.0, k')
  {
    if k < k' {
      Exp2Order(k, k');
    }
  }

  /** The second pass uses the same scale, or half of it when rounding lowered the maximum to 224. */
  lemma SecondExponent(x: seq<real>)
    ensures var k, k' := Exponent(Amax(x)), Exponent(Amax(QuantizedBlock(x)));
      k' == k || k' == k - 1
  {
    hide Quantized, Exponent, Rounded, Scaled, IsE4m3, Over;
    var y := QuantizedBlock(x);
    var k, k' := Exponent(Amax(x)), Exponent(Amax(y));
    ExponentBounds(Amax(x));
    ExponentBounds(Amax(y));
    forall i | 0 <= i < |x|
      ensures Abs(y[i]) <= Scaled(448.0, k)
    {
      BlockElement(x, i);
    }
    ScaledZero(k);
    ScaledOrder(0.0, 448.0, k);
    assert Floored(Amax(y)) <= Scaled(448.0, k);
    ExponentOrder(k, k');
    assert k' <= k;
    if Amax(x) >= FLOOR {
      var j :| 0 <= j < |x| && Amax(x) == Abs(x[j]);
      HighElement(x, j);
    }
    ScaledHalf(224.0, k);
    ExponentOrder(k', k - 1);
    if k' < k - 1 {
      ScaledOrder(224.0, 448.0, k - 1);
      Lower(k', k - 1);
    }
  }

  lemma Lower(a: int, b: int)
    requires a < b
    ensures Scaled(448.0, a) < Scaled(448.0, b)
  {
    Exp2Order(a, b);
  }

  /** Quantizing a block twice is quantizing it once. */
  lemma BlockIdempotent(x: seq<real>)
    ensures QuantizedBlock(QuantizedBlock(x)) == QuantizedBlock(x)
  {
    hide Quantized, Exponent, Rounded, IsE4m3, Scaled, Over;
    var y := QuantizedBlock(x);
    var k, k' := Exponent(Amax(x)), Exponent(Amax(y));
    SecondExponent(x);
    ExponentBounds(Amax(y));
    forall i | 0 <= i < |x|
      ensures Quantized(y[i], k') == y[i]
    {
      BlockElement(x, i);
      var z := Rounded(Over(x[i], k));
      if k' == k - 1 {
        ScaledHalf(224.0, k);
        ScaledMagnitude(z, k);
        ScaledOrder(Abs(z), 224.0, k);
      }
      CodeIsKept(z, k, k');
    }
  }

  // ---- rows ------------------------------------------------------------------------------------

  function Block(x: seq<real>, b: nat): (r: seq<real>)
    requires (b + 1) * BLOCK <= |x|
    ensures |r| == BLOCK
  {
    x[b * BLOCK..(b + 1) * BLOCK]
  }

  /** The row after its first n blocks were quantized in place. */
  function Row(x: seq<real>, n: nat): (r: seq<real>)
    requires n * BLOCK <= |x|
    ensures |r| == |x|
  {
    if n == 0 then x else
    var y := Row(x, n - 1);
    y[..(n - 1) * BLOCK] + QuantizedBlock(Block(y, n - 1)) + y[n * BLOCK..]
  }

  lemma {:induction false} RowTail(x: seq<real>, n: nat)
    requires n * BLOCK <= |x|
    ensures Row(x, n)[n * BLOCK..] == x[n * BLOCK..]
  {
    hide QuantizedBlock, Block;
    if n == 0 {
    } else {
      RowTail(x, n - 1);
      TailOfTail(Row(x, n - 1), x, (n - 1) * BLOCK, BLOCK);
    }
  }

  lemma TailOfTail(y: seq<real>, x: seq<real>, at: nat, k: nat)
    requires |x| == |y| && at + k <= |x| && y[at..] == x[at..]
    ensures y[at + k..] == x[at + k..]
  {
    assert y[at + k..] == y[at..][k..] && x[at + k..] == x[at..][k..];
  }

  lemma {:induction false} RowBlock(x: seq<real>, n: nat, b: nat)
    requires n * BLOCK <= |x| && b < n
    ensures Block(Row(x, n), b) == QuantizedBlock(Block(x, b))
    decreases n
  {
    hide *;
    if b == n - 1 {
      LastBlock(x, n);
    } else {
      RowBlock(x, n - 1, b);
      EarlierBlock(x, n, b);
    }
  }

  lemma LastBlock(x: seq<real>, n: nat)
    requires 0 < n && n * BLOCK <= |x|
    ensures Block(Row(x, n), n - 1) == QuantizedBlock(Block(x, n - 1))
  {
    hide QuantizedBlock, Row, Block;
    RowGrows(x, n);
    RowTail(x, n - 1);
    BlockOfTail(x, Row(x, n - 1), n - 1);
    BlockPlaced(Row(x, n - 1), Row(x, n), n - 1, QuantizedBlock(Block(Row(x, n - 1), n - 1)));
  }

  lemma EarlierBlock(x: seq<real>, n: nat, b: nat)
    requires b + 1 < n && n * BLOCK <= |x|
    ensures Block(Row(x, n), b) == Block(Row(x, n - 1), b)
  {
    hide QuantizedBlock, Row, Block;
    RowGrows(x, n);
    BlockInside(Row(x, n), Row(x, n - 1), b, n - 1);
  }

  lemma RowGrows(x: seq<real>, n: nat)
    requires 0 < n && n * BLOCK <= |x|
    ensures var y := Row(x, n - 1);
      && Row(x, n) == y[..(n - 1) * BLOCK] + QuantizedBlock(Block(y, n - 1)) + y[n * BLOCK..]
      && Row(x, n)[..(n - 1) * BLOCK] == y[..(n - 1) * BLOCK]
  {
    hide QuantizedBlock, Block;
  }

  lemma BlockPlaced(y: seq<real>, r: seq<real>, b: nat, q: seq<real>)
    requires |r| == |y| && (b + 1) * BLOCK <= |y| && |q| == BLOCK
    requires r == y[..b * BLOCK] + q + y[(b + 1) * BLOCK..]
    ensures Block(r, b) == q
  {
  }

  lemma BlockOfTail(x: seq<real>, y: seq<real>, b: nat)
    requires |x| == |y| && (b + 1) * BLOCK <= |x| && y[b * BLOCK..] == x[b * BLOCK..]
    ensures Block(y, b) == Block(x, b)
  {
    assert Block(x, b) == x[b * BLOCK..][..BLOCK];
    assert Block(y, b) == y[b * BLOCK..][..BLOCK];
  }

  lemma BlockInside(r: seq<real>, y: seq<real>, b: nat, m: nat)
    requires |r| == |y| && b < m && m * BLOCK <= |r| && r[..m * BLOCK] == y[..m * BLOCK]
    ensures Block(r, b) == Block(y, b)
  {
    assert Block(r, b) == r[..m * BLOCK][b * BLOCK..(b + 1) * BLOCK];
    assert Block(y, b) == y[..m * BLOCK][b * BLOCK..(b + 1) * BLOCK];
  }

  lemma {:induction false} SameRow(x: seq<real>, y: seq<real>, n: nat)
    requires |x| == |y| && n * BLOCK <= |x| && x[n * BLOCK..] == y[n * BLOCK..]
    requires forall b :: 0 <= b < n ==> Block(x, b) == Block(y, b)
    ensures x == y
  {
    if n == 0 {
      assert x == x[0..] && y == y[0..];
    } else {
      assert x[(n - 1) * BLOCK..] == Block(x, n - 1) + x[n * BLOCK..];
      assert y[(n - 1) * BLOCK..] == Block(y, n - 1) + y[n * BLOCK..];
      SameRow(x, y, n - 1);
    }
  }

  /** Quantizing a row twice is quantizing it once, whatever the row holds. */
  lemma RowIdempotent(x: seq<real>, n: nat)
    requires n * BLOCK <= |x|
    ensures Row(Row(x, n), n) == Row(x, n)
  {
    hide QuantizedBlock, Row, Block;
    var y := Row(x, n);
    forall b | 0 <= b < n
      ensures Block(Row(y, n), b) == Block(y, b)
    {
      RowBlock(x, n, b);
      RowBlock(y, n, b);
      BlockIdempotent(Block(x, b));
    }
    RowTail(y, n);
    SameRow(Row(y, n), y, n);
  }

  // ---- what an element becomes ----------------------------------------------------------------------

  /** No signed code is closer to a value in range than the one it is rounded to. */
  lemma RoundedIsNearest(v: real, z: real)
    requires Abs(v) <= 448.0 && IsE4m3(z)
    ensures Abs(Rounded(v) - v) <= Abs(z - v)
  {
    TopValue();
    RoundCodeIsNearest(Abs(v));
    var c := RoundCode(Abs(v));
    var d: nat :| d <= TOP && Abs(z) == Value(d);
    ValueNonNegative(d);
    hide Value, RoundCode;
    assert Dist(Abs(v), Value(c)) <= Dist(Abs(v), Value(d)) by { if c != d { assert Beats(Abs(v), c, d); } }
    assert Rounded(v) == Negate(v < 0.0, Value(c));
  }

  lemma ScaledDistance(z: real, x: real, k: int)
    ensures Abs(Scaled(z, k) - x) == Scaled(Abs(z - Over(x, k)), k)
  {
    OverThenScaled(x, k);
    assert Scaled(z, k) - Scaled(Over(x, k), k) == Scaled(z - Over(x, k), k);
    hide Scaled, Over;
    ScaledMagnitude(z - Over(x, k), k);
  }

  /** m is the largest magnitude of the block but at least 0.0001, and 2^k the least power with m <= 448 * 2^k. */
  ghost predicate ScaleOf(block: seq<real>, m: real, k: int) {
    && m >= 0.0001 && (forall j :: 0 <= j < |block| ==> Abs(block[j]) <= m)
    && (m == 0.0001 || exists j :: 0 <= j < |block| && m == Abs(block[j]))
    && 224.0 * Exp2(k) < m <= 448.0 * Exp2(k)
  }

  lemma ScaleIs(x: seq<real>)
    ensures ScaleOf(x, Floored(Amax(x)), Exponent(Amax(x)))
  {
    ExponentBounds(Amax(x));
    hide Exponent, Amax, Exp2;
  }

  lemma ElementNearest(x: seq<real>, i: nat, z: real)
    requires i < |x| && IsE4m3(z)
    ensures var k, y := Exponent(Amax(x)), QuantizedBlock(x)[i];
      IsE4m3(Over(y, k)) && Abs(y - x[i]) <= Abs(Scaled(z, k) - x[i])
  {
    hide *;
    var k := Exponent(Amax(x));
    BlockElement(x, i);
    ScaledThenOver(Rounded(Over(x[i], k)), k);
    ExponentBounds(Amax(x));
    QuantizedNearest(x[i], k, z);
  }

  /**
   What becomes of the elements of a row when its first n blocks of 64 are quantised: each is a signed code times the
   scale of its block, and no other is closer to it.
   */
  lemma RowElement(x: seq<real>, n: nat, b: nat, i: nat, z: real) returns (m: real, k: int)
    requires n * 64 <= |x| && b < n && i < 64 && IsE4m3(z)
    ensures 64 * b + 64 <= |x| && ScaleOf(x[64 * b..64 * b + 64], m, k)
    ensures var y := Row(x, n)[64 * b + i];
      IsE4m3(y / Exp2(k)) && Abs(y - x[64 * b + i]) <= Abs(z * Exp2(k) - x[64 * b + i])
  {
    hide *;
    BlockSlice(x, b, n);
    BlockSlice(Row(x, n), b, n);
    var block := x[64 * b..64 * b + 64];
    m, k := Floored(Amax(block)), Exponent(Amax(block));
    RowBlock(x, n, b);
    assert Row(x, n)[64 * b + i] == Row(x, n)[64 * b..64 * b + 64][i] && block[i] == x[64 * b + i];
    ScaleIs(block);
    ElementNearest(block, i, z);
    OverIs(QuantizedBlock(block)[i], k);
    ScaledIs(z, k);
  }

  lemma BlockSlice(x: seq<real>, b: nat, n: nat)
    requires n * 64 <= |x| && b < n
    ensures 64 * b + 64 <= n * 64 && (b + 1) * BLOCK <= |x| && n * BLOCK <= |x|
    ensures Block(x, b) == x[64 * b..64 * b + 64]
  {
    assert (n - b - 1) * 64 >= 0;
  }

  lemma OverIs(x: real, k: int)
    ensures Over(x, k) == x / Exp2(k)
  {
    hide Exp2;
  }

  lemma ScaledIs(z: real, k: int)
    ensures Scaled(z, k) == z * Exp2(k)
  {
    hide Exp2;
  }

  lemma QuantizedNearest(x: real, k: int, z: real)
    requires Abs(x) <= Scaled(448.0, k) && IsE4m3(z)
    ensures Abs(Scaled(Rounded(Over(x, k)), k) - x) <= Abs(Scaled(z, k) - x)
  {
    hide Rounded, IsE4m3, Over, Scaled;
    var v := Over(x, k);
    OverMagnitude(x, k);
    ScaledOrder(Abs(v), 448.0, k);
    RoundedIsNearest(v, z);
    ScaledDistance(Rounded(v), x, k);
    ScaledDistance(z, x, k);
    ScaledOrder(Abs(Rounded(v) - v), Abs(z - v), k);
  }

  /** The blocks the outer loop visits; the last one may reach past n_nope. */
  function Blocks(nope: nat): nat { (nope + BLOCK - 1) / BLOCK }

  /** The largest magnitude among the elements of one block. */
  method BlockAmax(x: array<real>, off: nat) returns (amax: real)
    requires off + BLOCK <= x.Length
    ensures amax == Amax(x[off..off + BLOCK])
  {
    amax := 0.0;
    var i := 0;
    while i < BLOCK
      invariant 0 <= i <= BLOCK && amax == Amax(x[off..off + i])
    {
      var av := Abs(x[off + i]);
      assert x[off..off + i + 1][..i] == x[off..off + i];
      if av > amax { amax := av; }
      i := i + 1;
    }
  }

  method QuantizeBlock(x: array<real>, off: nat)
    requires off + BLOCK <= x.Length
    modifies x
    ensures x[..] == old(x[..off]) + QuantizedBlock(old(x[off..off + BLOCK])) + old(x[off + BLOCK..])
  {
    hide Rounded, Exponent, Over, Scaled;
    ghost var before := x[..];
    var amax := BlockAmax(x, off);
    ghost var block := before[off..off + BLOCK];
    assert x[off..off + BLOCK] == block;
    if amax < 0.0001 { amax := 0.0001; }
    var k := CeilLog2(amax / 448.0);
    ExponentIs(Amax(block), amax);
    var i := 0;
    while i < BLOCK
      invariant 0 <= i <= BLOCK
      invariant x[..off] == before[..off] && x[off + i..] == before[off + i..]
      invariant x[off..off + i] == QuantizedBlock(block)[..i]
    {
      assert x[off + i] == x[off + i..][0] == block[i];
      var v := Over(x[off + i], k);
      if v > 448.0 { v := 448.0; }
      if v < -448.0 { v := -448.0; }
      var r := Dequant(v);
      x[off + i] := Scaled(r, k);
      assert x[off + i] == QuantizedBlock(block)[i];
      assert x[off + i + 1..] == before[off + i + 1..] by {
        assert before[off + i..][1..] == before[off + i + 1..];
      }
      i := i + 1;
    }
    assert x[..] == x[..off] + x[off..off + BLOCK] + x[off + BLOCK..];
  }

  lemma ExponentIs(amax: real, floored: real)
    requires floored == Floored(amax)
    ensures Exponent(amax) == CeilLog2(floored / 448.0)
  {
  }

  /** dsv4_fp8_kv_quantize_row_inplace_cpu */
  method QuantizeRow(x: array<real>, headDim: nat, nRot: nat)
    requires nRot <= headDim <= 0xFFFF_FFC0 && Blocks(headDim - nRot) * BLOCK <= x.Length
    modifies x
    ensures x[..] == Row(old(x[..]), Blocks(headDim - nRot))
  {
    hide QuantizedBlock, Row, Block, Blocks;
    var nope := headDim - nRot;
    ghost var before := x[..];
    ghost var b := 0;
    var off := 0;
    BlocksEnd(nope, 0);
    RowStart(before);
    while off < nope
      invariant off == b * BLOCK && b <= Blocks(nope)
      invariant off < nope <==> b < Blocks(nope)
      invariant x[..] == Row(before, b)
    {
      ghost var current := x[..];
      RowStep(before, b, off);
      QuantizeBlock(x, off);
      b := b + 1;
      off := off + BLOCK;
      BlocksEnd(nope, b);
    }
  }

  lemma BlocksEnd(nope: nat, b: nat)
    ensures b * BLOCK < nope <==> b < Blocks(nope)
  {
  }

  lemma RowStart(x: seq<real>)
    ensures Row(x, 0) == x
  {
  }

  lemma RowStep(x: seq<real>, b: nat, off: nat)
    requires (b + 1) * BLOCK <= |x| && off == b * BLOCK
    ensures Row(x, b + 1) == Row(x, b)[..off] + QuantizedBlock(Row(x, b)[off..off + BLOCK]) + Row(x, b)[off + BLOCK..]
  {
    hide QuantizedBlock;
  }
}
