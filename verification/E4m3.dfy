/**
 The E4M3 number format: three independent decoders, the offline encoder
 (gguf-tools/deepseek4-quantize.c:664-674, 1662-1689) and the runtime's rounding by binary search
 (src/quant/ds4_quant.c:230-270).
 */
module E4m3 {
  import opened Binary32

  /** The largest finite code, 448; code 127 is NaN. */
  const TOP: nat := 126

  /** The number with exponent field exp and mantissa field mant. */
  function Magnitude(exp: nat, mant: nat): real {
    if exp == 0 then mant as real * Exp2(-9) else (8 + mant) as real * Exp2(exp - 10)
  }

  /** The value of a code without its sign bit. */
  function Value(c: nat): real
    requires c <= 127
  {
    Magnitude(c / 8, c % 8)
  }

  // ---- the decoders ---------------------------------------------------------------------

  /** The scale table of the runtime. */
  const EXP_SCALE: seq<real> := [0.0, 0.015625, 0.03125, 0.0625, 0.125, 0.25, 0.5, 1.0,
                                 2.0, 4.0, 8.0, 16.0, 32.0, 64.0, 128.0, 256.0]

  function RuntimeMagnitude(exp: nat, mant: nat): real
    requires exp <= 15
  {
    if exp == 0 then mant as real * 0.001953125 else (1.0 + mant as real * 0.125) * EXP_SCALE[exp]
  }

  /** dsv4_e4m3fn_value_cpu */
  function RuntimeValue(i: nat): real
    requires i <= 127
  {
    RuntimeMagnitude(i / 8 % 16, i % 8)
  }

  function Negate(negative: bool, v: real): real {
    if negative then -v else v
  }

  function OfflineMagnitude(exp: nat, man: nat): real {
    if exp == 0 then man as real * Exp2(-9) else (1.0 + man as real / 8.0) * Exp2(exp - 7)
  }

  /** e4m3fn_to_f32 */
  function OfflineValue(x: nat): real
    requires x <= 255
  {
    var abs := x % 128;
    if abs == 0 || abs == 127 then 0.0 else Negate(x >= 128, OfflineMagnitude(x / 8 % 16, x % 8))
  }

  function DeviceMagnitude(exp: nat, mant: nat): real
    requires exp <= 15 && mant < 8
  {
    if exp == 0 then mant as real * 0.001953125 else FloatValue((exp + 120) * MANTISSA + mant * 0x10_0000)
  }

  /** nvfp4_e4m3_to_float, for codes that are not NaN. */
  function DeviceValue(x: nat): real
    requires x <= 255 && x % 128 != 127
  {
    Negate(x >= 128, DeviceMagnitude(x / 8 % 16, x % 8))
  }

  lemma ScaleTable(exp: nat)
    requires 1 <= exp <= 15
    ensures EXP_SCALE[exp] == Exp2(exp - 7)
    ensures Exp2(-9) == 0.001953125
  {
    assert Exp2(-4) == 0.0625;
    assert Exp2(-9) == 0.001953125;
    assert Exp2(-6) == 0.015625;
    assert Exp2(4) == 16.0;
    assert Exp2(8) == 256.0;
  }

  lemma Eighths(m: nat, k: int)
    ensures (8 + m) as real * Exp2(k - 3) == (1.0 + m as real * 0.125) * Exp2(k)
    ensures (8 + m) as real * Exp2(k - 3) == (1.0 + m as real / 8.0) * Exp2(k)
  {
    Exp2Sum(k - 3, 3);
    Exp2Constants();
    hide *;
    assert Exp2(k) == 8.0 * Exp2(k - 3);
  }

  lemma DeviceBits(exp: nat, mant: nat)
    requires 1 <= exp <= 15 && mant < 8
    ensures FloatValue((exp + 120) * MANTISSA + mant * 0x10_0000) == (8 + mant) as real * Exp2(exp - 10)
  {
    hide Exp2;
    var bits := (exp + 120) * MANTISSA + mant * 0x10_0000;
    assert Biased(bits) == exp + 120 && Fraction(bits) == mant * 0x10_0000;
    Exp2Sum(exp - 30, 20);
    Exp2Constants();
    assert FloatValue(bits) == (MANTISSA + mant * 0x10_0000) as real * Exp2(exp - 30);
    hide *;
    assert (MANTISSA + mant * 0x10_0000) as real == (8 + mant) as real * 1048576.0;
    assert Exp2(exp - 10) == Exp2(exp - 30) * 1048576.0;
  }

  lemma MagnitudesAgree(exp: nat, mant: nat)
    requires exp <= 15 && mant < 8
    ensures OfflineMagnitude(exp, mant) == DeviceMagnitude(exp, mant) == RuntimeMagnitude(exp, mant)
    ensures RuntimeMagnitude(exp, mant) == Magnitude(exp, mant)
  {
    hide Exp2, FloatValue, EXP_SCALE;
    if exp == 0 {
      ScaleTable(1);
    } else {
      ScaleTable(exp);
      Eighths(mant, exp - 7);
      DeviceBits(exp, mant);
    }
  }

  lemma MagnitudeZero()
    ensures Magnitude(0, 0) == 0.0
  {
  }

  lemma Fields(x: nat)
    requires x <= 255
    ensures x % 128 / 8 == x / 8 % 16 == x % 128 / 8 % 16 && x % 128 % 8 == x % 8
  {
  }

  /** The three decoders read every code that is not NaN as the same number. */
  lemma DecodersAgree(x: nat)
    requires x <= 255 && x % 128 != 127
    ensures OfflineValue(x) == DeviceValue(x) == Negate(x >= 128, Value(x % 128))
    ensures RuntimeValue(x % 128) == Value(x % 128)
  {
    Fields(x);
    MagnitudesAgree(x / 8 % 16, x % 8);
    MagnitudeZero();
    hide Magnitude, OfflineMagnitude, DeviceMagnitude, RuntimeMagnitude;
  }

  // ---- order of the codes ------------------------------------------------------------------

  /** The distance from code c to the next. */
  function Gap(c: nat): (r: real)
    ensures r > 0.0
  {
    if c / 8 == 0 then Exp2(-9) else Exp2(c / 8 - 10)
  }

  lemma ValueStep(c: nat)
    requires c < 127
    ensures Value(c + 1) == Value(c) + Gap(c)
  {
    if c == 7 {
      FirstNormal();
    } else if c % 8 == 7 {
      NextBinade(c, c / 8);
    } else {
      SameBinade(c, c / 8, c % 8);
    }
  }

  lemma FirstNormal()
    ensures Value(8) == Value(7) + Gap(7)
  {
    hide Exp2;
  }

  lemma NextBinade(c: nat, e: nat)
    requires 8 <= c < 127 && c / 8 == e && c % 8 == 7
    ensures Value(c + 1) == Value(c) + Gap(c)
  {
    assert (c + 1) / 8 == e + 1 && (c + 1) % 8 == 0;
    Exp2Step(e - 10);
    hide Exp2;
  }

  lemma SameBinade(c: nat, e: nat, m: nat)
    requires c < 127 && c / 8 == e && c % 8 == m && m < 7
    ensures Value(c + 1) == Value(c) + Gap(c)
  {
    assert (c + 1) / 8 == e && (c + 1) % 8 == m + 1;
    MagnitudeGap(e, m);
    hide Exp2, Magnitude;
  }

  lemma MagnitudeGap(e: nat, m: nat)
    requires e < 16 && m < 7
    ensures Magnitude(e, m + 1) == Magnitude(e, m) + if e == 0 then Exp2(-9) else Exp2(e - 10)
  {
    hide Exp2;
  }

  lemma {:induction false} ValueOrder(a: nat, b: nat)
    requires a < b <= 127
    ensures Value(a) < Value(b)
    decreases b
  {
    ValueStep(b - 1);
    hide *;
    if a == b - 1 {
      assert Value(a) < Value(b);
    } else {
      ValueOrder(a, b - 1);
    }
  }

  function Dist(a: real, b: real): (r: real)
    ensures r >= 0.0
  {
    if a < b then b - a else a - b
  }

  /** c is at least as near to ax as j, and even if j is as near. */
  ghost predicate Beats(ax: real, c: nat, j: nat)
    requires c <= TOP && j <= TOP
  {
    Dist(ax, Value(c)) <= Dist(ax, Value(j)) && (Dist(ax, Value(c)) == Dist(ax, Value(j)) ==> c % 2 == 0)
  }

  /** c is the code nearest to ax; of two equally near codes, the even one. */
  ghost predicate IsNearestEven(ax: real, c: nat) {
    c <= TOP && forall j: nat :: j <= TOP && j != c ==> Beats(ax, c, j)
  }

  /** Between neighbouring codes, whether the upper one is the nearest even. */
  predicate RoundsUp(ax: real, c: nat)
    requires c < TOP
  {
    || Dist(ax, Value(c + 1)) < Dist(ax, Value(c))
    || (Dist(ax, Value(c + 1)) == Dist(ax, Value(c)) && c % 2 != 0)
  }

  lemma NeighbourIsNearest(ax: real, c: nat)
    requires c < TOP && Value(c) <= ax <= Value(c + 1)
    ensures IsNearestEven(ax, if RoundsUp(ax, c) then c + 1 else c)
  {
    ValueOrder(c, c + 1);
    hide Value, RoundsUp, Beats;
    var best := if RoundsUp(ax, c) then c + 1 else c;
    forall j: nat | j <= TOP && j != best
      ensures Beats(ax, best, j)
    {
      NeighbourBeats(ax, c, j);
    }
  }

  lemma NeighbourBeats(ax: real, c: nat, j: nat)
    requires c < TOP && Value(c) <= ax <= Value(c + 1) && j <= TOP
    ensures var best := if RoundsUp(ax, c) then c + 1 else c; j != best ==> Beats(ax, best, j)
  {
    hide Value, Dist;
    if j < c {
      ValueOrder(j, c);
      BelowIsFarther(ax, Value(c), Value(c + 1), Value(j));
    } else if j > c + 1 {
      ValueOrder(c + 1, j);
      AboveIsFarther(ax, Value(c), Value(c + 1), Value(j));
    }
  }

  lemma BelowIsFarther(ax: real, low: real, high: real, v: real)
    requires v < low <= ax <= high
    ensures Dist(ax, low) < Dist(ax, v)
    ensures Dist(ax, high) <= Dist(ax, low) ==> Dist(ax, high) < Dist(ax, v)
  {
  }

  lemma AboveIsFarther(ax: real, low: real, high: real, v: real)
    requires low <= ax <= high < v
    ensures Dist(ax, high) < Dist(ax, v)
    ensures Dist(ax, low) <= Dist(ax, high) ==> Dist(ax, low) < Dist(ax, v)
  {
  }

  lemma ExactIsNearest(c: nat)
    requires c <= TOP
    ensures IsNearestEven(Value(c), c)
  {
    hide Value;
    forall j: nat | j <= TOP && j != c
      ensures Dist(Value(c), Value(j)) > 0.0
    {
      if j < c { ValueOrder(j, c); } else { ValueOrder(c, j); }
    }
  }

  /** There is only one nearest even code. */
  lemma NearestIsUnique(ax: real, c: nat, d: nat)
    requires IsNearestEven(ax, c) && IsNearestEven(ax, d)
    ensures c == d
  {
    hide Value;
    if c != d { assert Beats(ax, c, d) && Beats(ax, d, c); }
    if c < d { EvenNeighbours(ax, c, d); }
    if d < c { EvenNeighbours(ax, d, c); }
  }

  /** Two even codes have an odd one between them. */
  lemma EvenNeighbours(ax: real, c: nat, d: nat)
    requires IsNearestEven(ax, c) && c < d <= TOP && c % 2 == d % 2
    ensures Dist(ax, Value(c)) < Dist(ax, Value(d))
  {
    hide Value;
    ValueOrder(c, c + 1);
    ValueOrder(c + 1, d);
    assert Beats(ax, c, c + 1) && Beats(ax, c, d);
  }

  // ---- the runtime's rounding ------------------------------------------------------------------

  /** The last of the codes 0..c that does not exceed ax. */
  function FloorCode(ax: real, c: nat): (r: nat)
    requires c <= TOP && ax >= 0.0
    ensures r <= c && Value(r) <= ax
    ensures forall j: nat :: r < j <= c ==> ax < Value(j)
  {
    if c == 0 then
      MagnitudeZero();
      0
    else if Value(c) <= ax then c else FloorCode(ax, c - 1)
  }

  function RoundCode(ax: real): (r: nat)
    requires ax >= 0.0
    ensures r <= TOP
  {
    var c := FloorCode(ax, TOP);
    if c < TOP && RoundsUp(ax, c) then c + 1 else c
  }

  lemma FloorCodeIs(ax: real, c: nat)
    requires c <= TOP && Value(c) <= ax && (c < TOP ==> ax < Value(c + 1))
    requires ax >= 0.0
    ensures FloorCode(ax, TOP) == c
  {
    var r := FloorCode(ax, TOP);
    hide FloorCode, Value;
    if r < c { assert false; }
    if c < r { if c + 1 < r { ValueOrder(c + 1, r); } assert false; }
  }

  lemma RoundCodeIsNearest(ax: real)
    requires 0.0 <= ax <= Value(TOP)
    ensures IsNearestEven(ax, RoundCode(ax))
  {
    var c := FloorCode(ax, TOP);
    hide FloorCode, Value;
    if c < TOP {
      assert ax < Value(c + 1);
      NeighbourIsNearest(ax, c);
    } else {
      ExactIsNearest(TOP);
    }
  }

  function Min(a: real, b: real): real { if b < a then b else a }

  function Abs(x: real): real { if x < 0.0 then -x else x }

  /** The number that x is rounded to. */
  function Rounded(x: real): real
  {
    Negate(x < 0.0, Value(RoundCode(Min(Abs(x), 448.0))))
  }

  /** Whichever code is the nearest even one, that is the one rounded to. */
  lemma RoundedToNearest(x: real, c: nat)
    requires IsNearestEven(Min(Abs(x), 448.0), c)
    ensures Rounded(x) == Negate(x < 0.0, Value(c))
  {
    TopValue();
    hide Value, IsNearestEven, RoundCode;
    var ax := Min(Abs(x), 448.0);
    RoundCodeIsNearest(ax);
    NearestIsUnique(ax, c, RoundCode(ax));
  }

  lemma TopValue()
    ensures Value(TOP) == 448.0
  {
    assert Magnitude(15, 6) == 14.0 * Exp2(5);
    assert Exp2(5) == 32.0;
  }

  /** Whether the search's last comparison moves on to the next code. */
  lemma NextIsNearer(ax: real, c: nat)
    requires c < TOP
    ensures var bestDiff, nextDiff := Abs(ax - RuntimeValue(c)), Abs(ax - RuntimeValue(c + 1));
      RoundsUp(ax, c) <==> nextDiff < bestDiff || (nextDiff == bestDiff && (c + 1) % 2 == 0 && c % 2 != 0)
  {
    hide Value, RuntimeValue, Abs, Dist;
    RuntimeCode(c);
    RuntimeCode(c + 1);
    AbsIsDist(ax, Value(c));
    AbsIsDist(ax, Value(c + 1));
  }

  lemma AbsIsDist(a: real, b: real)
    ensures Abs(a - b) == Dist(a, b)
  {
  }

  lemma FoundCode(ax: real, c: nat)
    requires c <= TOP && Value(c) <= ax <= 448.0 && (c < TOP ==> ax < Value(c + 1)) && ax >= 0.0
    ensures RoundCode(ax) == if c < TOP && RoundsUp(ax, c) then c + 1 else c
    ensures IsNearestEven(ax, RoundCode(ax))
  {
    TopValue();
    FloorCodeIs(ax, c);
    hide Value, FloorCode, RoundsUp, IsNearestEven;
    RoundCodeIsNearest(ax);
  }

  /** dsv4_e4m3fn_dequant_cpu */
  method Dequant(x: real) returns (r: real)
    ensures r == Rounded(x)
    ensures exists c: nat :: c <= TOP && r == Negate(x < 0.0, Value(c)) && IsNearestEven(Min(Abs(x), 448.0), c)
  {
    TopValue();
    ZeroValue();
    hide RuntimeValue, Value, RoundsUp, IsNearestEven, RoundCode;
    var sign := if x < 0.0 then -1.0 else 1.0;
    var ax := Min(Abs(x), 448.0);
    var lo, hi := 0, 126;
    while lo < hi
      invariant 0 <= lo <= hi <= 126
      invariant Value(lo) <= ax && (hi < 126 ==> ax < Value(hi + 1))
    {
      var mid := (lo + hi + 1) / 2;
      RuntimeCode(mid);
      if RuntimeValue(mid) <= ax { lo := mid; } else { hi := mid - 1; }
    }
    FoundCode(ax, lo);
    var best := lo;
    if best < 126 {
      NextIsNearer(ax, best);
      var bestDiff := Abs(ax - RuntimeValue(best));
      var nextDiff := Abs(ax - RuntimeValue(best + 1));
      if nextDiff < bestDiff || (nextDiff == bestDiff && (best + 1) % 2 == 0 && best % 2 != 0) {
        best := best + 1;
      }
    }
    assert best == RoundCode(ax);
    RuntimeCode(best);
    r := sign * RuntimeValue(best);
  }

  lemma ZeroValue()
    ensures Value(0) == 0.0
  {
    MagnitudeZero();
  }

  lemma RuntimeCode(c: nat)
    requires c <= TOP
    ensures RuntimeValue(c) == Value(c)
  {
    hide Magnitude, RuntimeMagnitude, Value, RuntimeValue;
    assert c % 128 == c;
    DecodersAgree(c);
  }

  // ---- the offline encoder ------------------------------------------------------------------------

  const STEP: nat := 0x10_0000
  const HALF: nat := 0x8_0000

  /** The normal branch of float_to_e4m3: round the fraction to three bits and clamp. */
  function NormalCode(exponent: nat, m23: nat): nat
    requires exponent >= 1 && m23 < MANTISSA
  {
    NormalParts(exponent, m23 / STEP, m23 % STEP)
  }

  /** From the exponent, the three mantissa bits that stay and the bits behind them. */
  function NormalParts(exponent: nat, m: nat, rem: nat): nat {
    if exponent > 15 then 126 else
    var m1 := if rem > HALF then m + 1 else if rem == HALF then m + m % 2 else m;
    var (m2, e2) := if m1 > 7 then (0, exponent + 1) else (m1, exponent);
    if e2 > 15 then 126 else
    8 * e2 + if e2 == 15 && m2 > 6 then 6 else m2
  }

  /** float_to_e4m3 for a pattern without its sign bit, infinity and NaN included. */
  function Code7(bits: nat): nat
    requires bits < 256 * MANTISSA
  {
    var e := Biased(bits) - 127;
    if e < -6 then
      if e < -9 then 0 else
      var k := (FloatValue(bits) * 512.0 + 0.5).Floor;
      if k < 1 then 0 else if k > 7 then 7 else k
    else
      NormalCode((e + 7) as nat, Fraction(bits))
  }

  /** The pattern of infinity; greater ones are NaN. */
  const INFINITY: nat := 255 * MANTISSA

  /** The byte for a float; both zeros give byte zero, and a NaN, which is not below zero, counts as positive. */
  function Encode(negative: bool, bits: nat): nat
    requires bits < 256 * MANTISSA
  {
    if bits == 0 then 0 else (if negative && bits <= INFINITY then 128 else 0) + Code7(bits)
  }

  /** Round to nearest multiple of STEP, ties to even. */
  function RoundedSteps(bits: nat): nat {
    var q, rem := bits / STEP, bits % STEP;
    if rem > HALF || (rem == HALF && q % 2 == 1) then q + 1 else q
  }

  lemma StepFields(bits: nat)
    ensures bits / STEP / 8 == Biased(bits)
    ensures bits / STEP % 8 == Fraction(bits) / STEP
    ensures bits % STEP == Fraction(bits) % STEP
  {
    var q, rem := bits / STEP, bits % STEP;
    assert bits == (q / 8) * MANTISSA + (q % 8) * STEP + rem;
    assert (q % 8) * STEP + rem < MANTISSA;
    Split(bits, q / 8, (q % 8) * STEP + rem);
  }

  lemma Split(bits: nat, q: nat, r: nat)
    requires bits == q * MANTISSA + r && r < MANTISSA
    ensures bits / MANTISSA == q && bits % MANTISSA == r
  {
  }

  /** The normal branch is one rounding of the whole pattern, then a clamp. */
  lemma NormalCodeRounds(bits: nat)
    requires bits < 256 * MANTISSA && Biased(bits) >= 121
    ensures Code7(bits) == if RoundedSteps(bits) - 960 > 126 then 126 else RoundedSteps(bits) - 960
  {
    StepFields(bits);
    NormalCodeCases(bits / STEP, bits % STEP, Biased(bits) - 120, Fraction(bits));
  }

  lemma NormalCodeCases(q: nat, rem: nat, exponent: nat, m23: nat)
    requires exponent >= 1 && m23 < MANTISSA && rem < STEP
    requires q / 8 == exponent + 120 && q % 8 == m23 / STEP && rem == m23 % STEP
    ensures var n := (if rem > HALF || (rem == HALF && q % 2 == 1) then q + 1 else q) - 960;
      NormalCode(exponent, m23) == if n > 126 then 126 else n
  {
    assert q == 8 * (exponent + 120) + m23 / STEP;
    NormalPartsCases(q, exponent, m23 / STEP, rem);
    hide NormalParts;
  }

  lemma NormalPartsCases(q: nat, exponent: nat, m: nat, rem: nat)
    requires exponent >= 1 && m < 8 && q == 8 * (exponent + 120) + m
    ensures var n := (if rem > HALF || (rem == HALF && q % 2 == 1) then q + 1 else q) - 960;
      NormalParts(exponent, m, rem) == if n > 126 then 126 else n
  {
    assert q % 2 == m % 2;
  }

  lemma RoundedStepsMonotone(a: nat, b: nat)
    requires a <= b
    ensures RoundedSteps(a) <= RoundedSteps(b)
  {
    if a / STEP == b / STEP {
      assert a % STEP <= b % STEP;
    } else {
      assert a / STEP + 1 <= b / STEP;
    }
  }

  lemma FloatOrder(a: nat, b: nat)
    requires a <= b < 255 * MANTISSA && Biased(a) > 0
    ensures FloatValue(a) <= FloatValue(b)
  {
    Divisions(a, b);
    FractionBound(a);
    FractionBound(b);
    hide *;
    FloatUnfold(a);
    FloatUnfold(b);
    Exp2Order(Biased(a) - 150, Biased(b) - 150);
    BinadeOrder((MANTISSA + Fraction(a)) as real, (MANTISSA + Fraction(b)) as real,
                Exp2(Biased(a) - 150), Exp2(Biased(b) - 150), Biased(a) < Biased(b));
  }

  lemma FloatUnfold(b: nat)
    requires b < 255 * MANTISSA && Biased(b) > 0
    ensures FloatValue(b) == (MANTISSA + Fraction(b)) as real * Exp2(Biased(b) - 150)
  {
    hide Exp2;
  }

  lemma FractionBound(bits: nat)
    ensures Fraction(bits) < MANTISSA
  {
  }

  lemma Divisions(a: nat, b: nat)
    requires a <= b
    ensures Biased(a) <= Biased(b)
    ensures Biased(a) == Biased(b) ==> Fraction(a) <= Fraction(b)
  {
  }

  lemma ScaledBy(a: real, b: real, p: real)
    requires a <= b && p > 0.0
    ensures a * p <= b * p
    ensures a < b ==> a * p < b * p
  {
    assert (b - a) * p >= 0.0;
  }

  /** Of two significands, with a power of two each, the greater power decides. */
  lemma BinadeOrder(a: real, b: real, p: real, q: real, differ: bool)
    requires 8388608.0 <= a < 16777216.0 && 8388608.0 <= b && p > 0.0
    requires if differ then 2.0 * p <= q else p == q && a <= b
    ensures a * p <= b * q
  {
    if differ {
      var ap, bq := a * p, b * q;
      ScaledBy(a, 16777216.0, p);
      ScaledBy(8388608.0, b, q);
      assert ap < 16777216.0 * p && 8388608.0 * q <= bq;
    } else {
      ScaledBy(a, b, p);
    }
  }

  /** The encoder is monotone over all nonnegative patterns, and never gives the NaN code. */
  lemma EncoderMonotone(a: nat, b: nat)
    requires a <= b < 256 * MANTISSA
    ensures Code7(a) <= Code7(b) <= TOP
  {
    Divisions(a, b);
    if Biased(b) >= 121 {
      NormalCodeRounds(b);
      NormalAtLeast8(b);
      if Biased(a) >= 121 {
        NormalCodeRounds(a);
        RoundedStepsMonotone(a, b);
      }
    } else if Biased(a) >= 118 {
      FloatOrder(a, b);
    }
  }

  lemma NormalAtLeast8(bits: nat)
    requires Biased(bits) >= 121
    ensures RoundedSteps(bits) >= 968
  {
    StepFields(bits);
  }

  // ---- the encoder against the runtime's rounding ---------------------------------------------------

  /** A normal pattern lies between the code q - 960 and the next, at rem steps of 2^20. */
  lemma NormalPosition(bits: nat, q: nat, rem: nat, p: real)
    requires q == bits / STEP && rem == bits % STEP && 968 <= q < 1086 && p == Exp2(q / 8 - 150)
    requires bits < 255 * MANTISSA
    ensures p > 0.0
    ensures FloatValue(bits) == Value(q - 960) + rem as real * p
    ensures Gap(q - 960) == 1048576.0 * p
  {
    hide Exp2;
    StepFields(bits);
    var c := q - 960;
    assert c / 8 == q / 8 - 120 && c % 8 == q % 8;
    Exp2Sum(q / 8 - 150, 20);
    Exp2Constants();
    var m := q % 8;
    assert MANTISSA + Fraction(bits) == (8 + m) * STEP + rem;
    PositionSum(8 + m, rem, p, Exp2(q / 8 - 130));
  }

  lemma PositionSum(m: nat, rem: nat, p: real, g: real)
    requires g == p * 1048576.0
    ensures (m * STEP + rem) as real * p == m as real * g + rem as real * p
  {
    assert (m * STEP + rem) as real == m as real * 1048576.0 + rem as real;
    hide *;
    assert (m as real * 1048576.0 + rem as real) * p == m as real * 1048576.0 * p + rem as real * p;
  }

  lemma RoundsUpAt(v: real, c: nat, rem: nat, p: real)
    requires c < TOP && p > 0.0 && rem < STEP && v == Value(c) + rem as real * p
    requires Value(c + 1) == Value(c) + 1048576.0 * p
    ensures Value(c) <= v <= Value(c + 1)
    ensures RoundsUp(v, c) <==> rem > HALF || (rem == HALF && c % 2 == 1)
  {
    hide Value;
    var up, down := (STEP - rem) as real, rem as real;
    var u, d := up * p, down * p;
    assert v - Value(c) == d;
    assert Value(c + 1) - v == u;
    Proportional(up, down, p, u, d);
    assert Dist(v, Value(c)) == d && Dist(v, Value(c + 1)) == u;
  }

  lemma Proportional(a: real, b: real, p: real, ap: real, bp: real)
    requires a >= 0.0 && b >= 0.0 && p > 0.0 && ap == a * p && bp == b * p
    ensures ap >= 0.0 && bp >= 0.0
    ensures (a < b <==> ap < bp) && (a == b <==> ap == bp)
  {
    ScaledBy(0.0, a, p);
    ScaledBy(0.0, b, p);
    if a < b { ScaledBy(a, b, p); }
    if b < a { ScaledBy(b, a, p); }
  }

  lemma NormalNearest(v: real, q: nat, rem: nat, p: real)
    requires 968 <= q < 1086 && rem < STEP && p > 0.0
    requires v == Value(q - 960) + rem as real * p && Gap(q - 960) == 1048576.0 * p
    ensures v <= Value(TOP)
    ensures IsNearestEven(v, (if rem > HALF || (rem == HALF && q % 2 == 1) then q + 1 else q) - 960)
  {
    hide Value, Gap, IsNearestEven, RoundsUp;
    var c := q - 960;
    assert c % 2 == q % 2;
    ValueStep(c);
    RoundsUpAt(v, c, rem, p);
    NeighbourIsNearest(v, c);
    if c + 1 < TOP { ValueOrder(c + 1, TOP); }
  }

  /** From 2^-6 up the encoder picks the nearest even code, saturating at 448. */
  lemma EncoderIsNearest(bits: nat)
    requires 121 * MANTISSA <= bits < 255 * MANTISSA
    ensures IsNearestEven(Min(FloatValue(bits), 448.0), Code7(bits))
  {
    hide Exp2, FloatValue, Value, Code7, Gap, IsNearestEven, Fraction;
    var q, rem := bits / STEP, bits % STEP;
    assert Biased(bits) >= 121;
    NormalCodeRounds(bits);
    TopValue();
    StepFields(bits);
    if q < 1086 {
      NormalPosition(bits, q, rem, Exp2(q / 8 - 150));
      NormalNearest(FloatValue(bits), q, rem, Exp2(q / 8 - 150));
    } else {
      AtLeast448(bits);
      ExactIsNearest(TOP);
    }
  }

  lemma AtLeast448(bits: nat)
    requires 1086 * STEP <= bits < 255 * MANTISSA
    ensures FloatValue(bits) >= 448.0
  {
    hide Exp2, FloatValue;
    FloatOrder(1086 * STEP, bits);
    var b := 1086 * STEP;
    assert Biased(b) == 135 && Fraction(b) == 6 * STEP;
    Exp2Small();
    assert FloatValue(b) == (MANTISSA + 6 * STEP) as real * Exp2(-15) by {
      assert Biased(b) - 150 == -15;
      FloatUnfold(b);
    }
  }

  lemma Exp2Small()
    ensures Exp2(-15) * 32768.0 == 1.0
  {
    assert Exp2(-4) == 0.0625;
    assert Exp2(-8) == 0.00390625;
    assert Exp2(-12) == 0.000244140625;
    assert Exp2(-15) == 0.000030517578125;
  }

  /** So the encoded byte decodes to exactly what the runtime rounds the same float to. */
  lemma EncoderMatchesRuntime(negative: bool, bits: nat)
    requires 121 * MANTISSA <= bits < 255 * MANTISSA
    ensures OfflineValue(Encode(negative, bits)) == Rounded(Negate(negative, FloatValue(bits)))
  {
    hide Exp2, FloatValue, Value, Code7, OfflineValue, DeviceValue, RuntimeValue, IsNearestEven, RoundCode;
    EncoderIsNearest(bits);
    TopValue();
    PositiveFloat(bits);
    var v := FloatValue(bits);
    RoundCodeIsNearest(Min(v, 448.0));
    NearestIsUnique(Min(v, 448.0), Code7(bits), RoundCode(Min(v, 448.0)));
    EncoderMonotone(bits, bits);
    DecodersAgree(Encode(negative, bits));
  }

  /** Infinity saturates in both programs, like everything from 448 up. */
  lemma InfinityMatchesRuntime(negative: bool, x: real)
    requires x >= 448.0
    ensures OfflineValue(Encode(negative, INFINITY)) == Rounded(Negate(negative, x)) == Negate(negative, 448.0)
  {
    TopValue();
    hide Exp2, Value, OfflineValue, DeviceValue, RuntimeValue, RoundCode, IsNearestEven;
    assert Code7(INFINITY) == TOP by { assert Biased(INFINITY) == 255; }
    DecodersAgree(Encode(negative, INFINITY));
    RoundCodeIsNearest(448.0);
    ExactIsNearest(TOP);
    NearestIsUnique(448.0, TOP, RoundCode(448.0));
  }

  lemma PositiveFloat(bits: nat)
    requires 121 * MANTISSA <= bits < 255 * MANTISSA
    ensures FloatValue(bits) > 0.0
  {
    hide Exp2;
    assert Biased(bits) >= 121;
  }

  // ---- below 2^-6 ------------------------------------------------------------------------------------

  /** Whether u, in units of 2^-9, is one the encoder rounds as the nearest even code would be. */
  predicate RoundsRight(u: real) {
    u <= 0.5 || (1.0 <= u < 7.5 && !(u - u.Floor as real == 0.5 && u.Floor % 2 == 0))
  }

  /** What the encoder's branch below 2^-6 computes from u. */
  function SmallCode(u: real): nat
    requires 0.0 <= u
  {
    if u < 1.0 then 0 else
    var k := (u + 0.5).Floor;
    if k > 7 then 7 else k
  }

  lemma SmallCodeFloor(u: real)
    requires 0.0 <= u < 8.0
    ensures var f := u.Floor;
      0 <= f < 8 && (RoundsRight(u) <==>
        SmallCode(u) == if u - f as real > 0.5 || (u - f as real == 0.5 && f % 2 == 1) then f + 1 else f)
  {
    var f := u.Floor;
    assert (u + 0.5).Floor == if u - f as real >= 0.5 then f + 1 else f;
  }

  lemma SmallValue(j: nat)
    requires j <= 8
    ensures Value(j) == j as real * Exp2(-9)
  {
    hide Exp2;
  }

  lemma Units(v: real, u: real, s: real, c: real, cs: real)
    requires s * 512.0 == 1.0 && u == v * 512.0 && cs == c * s
    ensures v - cs == (u - c) * s
  {
    assert v == u * s;
  }

  /** Distances to two neighbours, in units and in values. */
  lemma SmallSides(v: real, u: real, s: real, c: nat, low: real, high: real)
    requires s > 0.0 && s * 512.0 == 1.0 && u == v * 512.0 && c as real <= u <= (c + 1) as real
    requires low == c as real * s && high == (c + 1) as real * s
    ensures low <= v <= high
    ensures (u - c as real < (c + 1) as real - u <==> v - low < high - v)
    ensures (u - c as real == (c + 1) as real - u <==> v - low == high - v)
  {
    var a, b := c as real, (c + 1) as real;
    Units(v, u, s, a, low);
    Units(v, u, s, b, high);
    Negated(u - b, s);
    Proportional(u - a, b - u, s, v - low, high - v);
  }

  lemma Negated(a: real, s: real)
    ensures -a * s == -(a * s)
  {
  }

  lemma SmallNearest(v: real)
    requires 0.0 <= v * 512.0 < 8.0
    ensures var c := (v * 512.0).Floor;
      var d := v * 512.0 - c as real;
      0 <= c < 8 && IsNearestEven(v, if d > 0.5 || (d == 0.5 && c % 2 == 1) then c + 1 else c)
  {
    var u := v * 512.0;
    var c := u.Floor;
    var s := Exp2(-9);
    Exp2Constants();
    SmallValue(c);
    SmallValue(c + 1);
    assert s * 512.0 == 1.0;
    hide Value, Exp2, IsNearestEven;
    SmallSides(v, u, s, c, Value(c), Value(c + 1));
    NeighbourIsNearest(v, c);
  }

  /** The encoder's result below 2^-6 depends on the value alone. */
  lemma SmallPattern(bits: nat)
    requires bits < 121 * MANTISSA
    ensures 0.0 <= FloatValue(bits) * 512.0 < 8.0
    ensures Code7(bits) == SmallCode(FloatValue(bits) * 512.0)
  {
    assert Biased(bits) < 121;
    BinadeBounds(bits);
    hide Exp2, FloatValue;
  }

  lemma BinadeBounds(bits: nat)
    requires Biased(bits) <= 120
    ensures FloatValue(bits) * 512.0 < 8.0
    ensures Biased(bits) < 118 <==> FloatValue(bits) * 512.0 < 1.0
  {
    FractionBound(bits);
    assert bits < 121 * MANTISSA;
    hide *;
    SmallPowers();
    if Biased(bits) == 0 {
      SubnormalUnfold(bits);
      Exp2Order(-149, -33);
      SmallProduct(Fraction(bits) as real, Exp2(-149), Exp2(-33), Exp2(-9), FloatValue(bits));
    } else {
      FloatUnfold(bits);
      var k: int := Biased(bits) - 150;
      var m := (MANTISSA + Fraction(bits)) as real;
      if Biased(bits) < 118 {
        Exp2Order(k, -33);
        SmallProduct(m, Exp2(k), Exp2(-33), Exp2(-9), FloatValue(bits));
      } else {
        Exp2Order(k, -30);
        Exp2Order(-32, k);
        BigProduct(m, Exp2(k), Exp2(-33), Exp2(-9), FloatValue(bits));
      }
    }
  }

  lemma SubnormalUnfold(bits: nat)
    requires Biased(bits) == 0
    ensures FloatValue(bits) == Fraction(bits) as real * Exp2(-149)
  {
    hide Exp2;
  }

  lemma SmallPowers()
    ensures Exp2(-33) * 16777216.0 == Exp2(-9) && Exp2(-9) * 512.0 == 1.0
    ensures Exp2(-32) == 2.0 * Exp2(-33) && Exp2(-30) == 8.0 * Exp2(-33)
  {
    hide *;
    Exp2Constants();
    Exp2Sum(-33, 24);
    Exp2Step(23);
    Exp2Step(-33);
    Exp2Step(-32);
    Exp2Step(-31);
  }

  lemma SmallProduct(m: real, p: real, q: real, s: real, mp: real)
    requires mp == m * p
    requires 0.0 <= m < 16777216.0 && 0.0 < p <= q && q * 16777216.0 == s && s * 512.0 == 1.0
    ensures mp * 512.0 < 1.0
  {
    ScaledBy(m, 16777216.0, p);
    assert mp < 16777216.0 * p;
  }

  lemma BigProduct(m: real, p: real, q: real, s: real, mp: real)
    requires mp == m * p
    requires 8388608.0 <= m < 16777216.0 && 2.0 * q <= p <= 8.0 * q && q * 16777216.0 == s && s * 512.0 == 1.0
    ensures 1.0 <= mp * 512.0 < 8.0
  {
    assert q > 0.0;
    ScaledBy(m, 16777216.0, p);
    ScaledBy(8388608.0, m, p);
    assert 8388608.0 * p <= mp < 16777216.0 * p;
  }

  /**
   Below 2^-6 the encoder is not round-to-nearest-even: it flushes everything under 2^-9, breaks ties upwards,
   and never reaches the code of 2^-6. It agrees exactly for these values.
   */
  lemma EncoderBelowNormal(bits: nat)
    requires bits < 121 * MANTISSA
    ensures IsNearestEven(FloatValue(bits), Code7(bits)) <==> RoundsRight(FloatValue(bits) * 512.0)
  {
    var v := FloatValue(bits);
    var u := v * 512.0;
    var c := u.Floor;
    SmallPattern(bits);
    SmallCodeFloor(u);
    SmallNearest(v);
    hide Exp2, FloatValue, Code7, SmallCode, IsNearestEven, RoundsRight;
    var best := if u - c as real > 0.5 || (u - c as real == 0.5 && c % 2 == 1) then c + 1 else c;
    if IsNearestEven(v, Code7(bits)) { NearestIsUnique(v, Code7(bits), best); }
  }

  /** Three values that it rounds elsewhere: 0.75, 2.5 and 7.5 units of 2^-9 become 0, 3 and 7, not 1, 2 and 8. */
  lemma BelowNormalDiffers()
    ensures Code7(117 * MANTISSA + MANTISSA / 2) == 0
    ensures !IsNearestEven(FloatValue(117 * MANTISSA + MANTISSA / 2), 0)
    ensures Code7(119 * MANTISSA + MANTISSA / 4) == 3
    ensures !IsNearestEven(FloatValue(119 * MANTISSA + MANTISSA / 4), 3)
    ensures Code7(120 * MANTISSA + 7 * (MANTISSA / 8)) == 7
    ensures !IsNearestEven(FloatValue(120 * MANTISSA + 7 * (MANTISSA / 8)), 7)
  {
    hide IsNearestEven, Code7, FloatValue, Exp2;
    TinyPowers();
    FloatUnits(117, MANTISSA / 2, Exp2(-33), 0.75);
    FloatUnits(119, MANTISSA / 4, Exp2(-31), 2.5);
    FloatUnits(120, 7 * (MANTISSA / 8), Exp2(-30), 7.5);
    DiffersAt(117 * MANTISSA + MANTISSA / 2, 0.75);
    DiffersAt(119 * MANTISSA + MANTISSA / 4, 2.5);
    DiffersAt(120 * MANTISSA + 7 * (MANTISSA / 8), 7.5);
  }

  lemma FloatUnits(biased: nat, fraction: nat, p: real, u: real)
    requires 0 < biased <= 120 && fraction < MANTISSA && p == Exp2(biased - 150)
    requires (MANTISSA + fraction) as real * p * 512.0 == u
    ensures FloatValue(biased * MANTISSA + fraction) * 512.0 == u
  {
    hide Exp2, FloatValue;
    Split(biased * MANTISSA + fraction, biased, fraction);
    FloatUnfold(biased * MANTISSA + fraction);
  }

  lemma TinyPowers()
    ensures Exp2(-33) * 8589934592.0 == 1.0 && Exp2(-31) * 2147483648.0 == 1.0 && Exp2(-30) * 1073741824.0 == 1.0
  {
    Exp2Constants();
    Exp2Sum(-33, 24);
    Exp2Step(23);
    Exp2Step(-33);
    Exp2Step(-32);
    Exp2Step(-31);
    hide *;
  }

  lemma DiffersAt(bits: nat, u: real)
    requires bits < 121 * MANTISSA && FloatValue(bits) * 512.0 == u && !RoundsRight(u)
    ensures Code7(bits) == SmallCode(u) && !IsNearestEven(FloatValue(bits), Code7(bits))
  {
    hide *;
    SmallPattern(bits);
    EncoderBelowNormal(bits);
  }

  /** For every float but NaN and infinity, of either sign, encoding agrees with the runtime's rounding exactly from
      2^-6 up and for the values below that the encoder rounds right. */
  lemma EncoderMatchesExactly(negative: bool, bits: nat)
    requires bits < INFINITY
    ensures OfflineValue(Encode(negative, bits)) == Rounded(Negate(negative, FloatValue(bits)))
       <==> bits >= 121 * MANTISSA || RoundsRight(FloatValue(bits) * 512.0)
  {
    if bits >= 121 * MANTISSA {
      EncoderMatchesRuntime(negative, bits);
    } else {
      hide Exp2, RoundsRight, Code7, FloatValue, Value, OfflineValue, RoundCode, IsNearestEven;
      EncoderBelowNormal(bits);
      SmallMatches(negative, bits);
    }
  }

  lemma SmallMatches(negative: bool, bits: nat)
    requires bits < 121 * MANTISSA
    ensures OfflineValue(Encode(negative, bits)) == Rounded(Negate(negative, FloatValue(bits)))
       <==> IsNearestEven(FloatValue(bits), Code7(bits))
  {
    var v, c := FloatValue(bits), Code7(bits);
    SmallPattern(bits);
    EncoderMonotone(bits, bits);
    SmallEncoded(negative, bits);
    TopValue();
    ZeroValue();
    hide Exp2, Code7, FloatValue, Value, OfflineValue, IsNearestEven, RoundCode, Encode;
    RoundCodeIsNearest(v);
    var d := RoundCode(v);
    if d > 0 { ValueOrder(0, d); }
    if c > 0 { ValueOrder(0, c); }
    if c < d { ValueOrder(c, d); }
    if d < c { ValueOrder(d, c); }
    if v == 0.0 {
      ExactIsNearest(0);
      NearestIsUnique(v, 0, d);
    }
    if IsNearestEven(v, c) { NearestIsUnique(v, c, d); }
  }

  /** Below 2^-6 the byte decodes to the value of its code, with the sign of the float unless that is zero. */
  lemma SmallEncoded(negative: bool, bits: nat)
    requires bits < 121 * MANTISSA
    ensures OfflineValue(Encode(negative, bits)) == Negate(negative, Value(Code7(bits)))
    ensures FloatValue(bits) == 0.0 ==> Code7(bits) == 0
  {
    ZeroCode();
    hide Exp2, Code7, FloatValue, OfflineValue, DeviceValue, RuntimeValue, Value;
    SmallPattern(bits);
    EncoderMonotone(bits, bits);
    SignBit(negative, Code7(bits));
    DecodersAgree((if negative then 128 else 0) + Code7(bits));
    DecodersAgree(0);
  }

  lemma ZeroCode()
    ensures Code7(0) == 0 && Value(0) == 0.0
  {
    ZeroValue();
    assert Biased(0) == 0;
  }

  lemma SignBit(negative: bool, c: nat)
    requires c < 128
    ensures var x := (if negative then 128 else 0) + c; x % 128 == c && (x >= 128 <==> negative)
  {
  }

  /** Encoding the value of a code gives the code back. */
  lemma EncodeDecoded(bits: nat, c: nat)
    requires bits < 255 * MANTISSA && c <= TOP && FloatValue(bits) == Value(c)
    ensures Code7(bits) == c
  {
    ExactIsNearest(c);
    TopValue();
    if c < TOP { ValueOrder(c, TOP); }
    if bits >= 121 * MANTISSA {
      hide Value, FloatValue, Code7, IsNearestEven;
      EncoderIsNearest(bits);
      NearestIsUnique(Value(c), c, Code7(bits));
    } else {
      SmallPattern(bits);
      SmallCodeRange(c);
      hide Value, FloatValue, Code7, IsNearestEven;
      EncoderBelowNormal(bits);
      NearestIsUnique(Value(c), c, Code7(bits));
    }
  }

  lemma SmallCodeRange(c: nat)
    requires c <= TOP && Value(c) * 512.0 < 8.0
    ensures c < 8 && Value(c) * 512.0 == c as real && RoundsRight(Value(c) * 512.0)
  {
    Exp2Constants();
    SmallValue(8);
    hide Exp2, Value;
    if c > 8 { ValueOrder(8, c); }
    if c <= 8 { SmallValue(c); }
    assert c < 8;
    assert (c as real).Floor == c;
  }

  /** A float with the value of a code. */
  function PatternOf(c: nat): (bits: nat)
    requires c <= 127
    ensures bits < INFINITY
  {
    if c >= 8 then (c / 8 + 120) * MANTISSA + c % 8 * STEP
    else if c >= 4 then 120 * MANTISSA + (c - 4) * (MANTISSA / 4)
    else if c >= 2 then 119 * MANTISSA + (c - 2) * (MANTISSA / 2)
    else c * (118 * MANTISSA)
  }

  lemma PatternValue(c: nat)
    requires c <= TOP
    ensures FloatValue(PatternOf(c)) == Value(c)
  {
    hide Exp2;
    if c >= 8 {
      DeviceBits(c / 8, c % 8);
    } else {
      SmallValue(c);
      Exp2Sum(-9, -23);
      Exp2Step(-32);
      Exp2Step(-31);
      Exp2Sum(-32, 23);
      Exp2Constants();
      var bits := PatternOf(c);
      if c == 0 {
        assert Biased(bits) == 0 && Fraction(bits) == 0;
      } else if c == 1 {
        assert Biased(bits) == 118 && Fraction(bits) == 0;
      } else if c < 4 {
        assert Biased(bits) == 119 && Fraction(bits) == (c - 2) * (MANTISSA / 2);
      } else {
        assert Biased(bits) == 120 && Fraction(bits) == (c - 4) * (MANTISSA / 4);
      }
    }
  }

  /** Encoding the float of a byte gives the byte back, except for negative zero. */
  lemma ByteRoundTrip(x: nat)
    requires x <= 255 && x % 128 != 127
    ensures OfflineValue(x) == Negate(x >= 128, FloatValue(PatternOf(x % 128)))
    ensures Encode(x >= 128, PatternOf(x % 128)) == x <==> x != 128
  {
    hide *;
    SplitByte(x);
    PatternValue(x % 128);
    DecodersAgree(x);
    EncodePattern(x >= 128, x % 128);
  }

  lemma SplitByte(x: nat)
    requires x <= 255 && x % 128 != 127
    ensures x == (if x >= 128 then 128 else 0) + x % 128
    ensures x % 128 <= TOP
    ensures x % 128 == 0 <==> x == 0 || x == 128
  {
  }

  lemma EncodePattern(negative: bool, c: nat)
    requires c <= TOP
    ensures Encode(negative, PatternOf(c)) == if c == 0 then 0 else (if negative then 128 else 0) + c
  {
    hide Exp2, FloatValue, Value, Code7, PatternOf;
    PatternValue(c);
    EncodeDecoded(PatternOf(c), c);
    PatternZero(c);
  }

  lemma PatternZero(c: nat)
    requires c <= TOP
    ensures PatternOf(c) == 0 <==> c == 0
  {
  }
}
