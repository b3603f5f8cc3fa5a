/**
 Dot products of Q2_K and Q4_K rows with quantised activations, src/quant/ds4_quant.c:298-336, 420-457, 549-589.
 Integer sums are over int32; the final products and sums are over reals.
 */
module KDots {
  import opened KBlocks
  import opened WeightedFit

  const I32: int := 0x8000_0000

  /** A block of quantised activations with the sums of its sixteen groups. */
  datatype Q8 = Q8(d: real, qs: seq<int>, bsums: seq<int>) {
    ghost predicate Valid() {
      && |qs| == QK && |bsums| == 16
      && (forall i :: 0 <= i < QK ==> -128 <= qs[i] <= 127)
      && (forall j :: 0 <= j < 16 ==> bsums[j] == QSum(qs, 16 * j, 16))
    }
  }

  datatype Q2 = Q2(scales: seq<bv8>, qs: seq<bv8>, d: real, dmin: real) {
    predicate Sized() { |scales| == 16 && |qs| == 64 }
  }

  datatype Q4 = Q4(d: real, dmin: real, scales: seq<bv8>, qs: seq<bv8>) {
    predicate Sized() { |scales| == 12 && |qs| == 128 }
  }

  /** Scale, code and minimum of every element of a block. */
  datatype Elems = Elems(s: seq<int>, c: seq<int>, m: seq<int>) {
    predicate Sized() { |s| == |c| == |m| == QK }

    ghost predicate Bounded() {
      Sized() && forall e :: 0 <= e < QK ==> 0 <= s[e] <= 63 && 0 <= c[e] <= 15 && 0 <= m[e] <= 63
    }
  }

  // ---- sums -------------------------------------------------------------------------------------

  function QSum(q: seq<int>, lo: nat, n: nat): int
    requires lo + n <= |q|
  {
    if n == 0 then 0 else QSum(q, lo, n - 1) + q[lo + n - 1]
  }

  function CodeSum(c: seq<int>, q: seq<int>, lo: nat, n: nat): int
    requires lo + n <= |c| == |q|
  {
    if n == 0 then 0 else CodeSum(c, q, lo, n - 1) + q[lo + n - 1] * c[lo + n - 1]
  }

  /** The integer part that is scaled by d. */
  function ScaleSum(e: Elems, q: seq<int>, n: nat): int
    requires e.Sized() && |q| == QK && n <= QK
  {
    if n == 0 then 0 else ScaleSum(e, q, n - 1) + e.s[n - 1] * e.c[n - 1] * q[n - 1]
  }

  /** The integer part that is scaled by dmin. */
  function MinSum(e: Elems, q: seq<int>, n: nat): int
    requires e.Sized() && |q| == QK && n <= QK
  {
    if n == 0 then 0 else MinSum(e, q, n - 1) + e.m[n - 1] * q[n - 1]
  }

  /** One weight times one activation. */
  function Product(d: real, dmin: real, yd: real, s: int, c: int, m: int, q: int): real {
    (d * s as real * c as real - dmin * m as real) * (yd * q as real)
  }

  /** The plain dot product over the first n elements: every weight is d * scale * code - dmin * minimum. */
  function Simple(d: real, dmin: real, yd: real, e: Elems, q: seq<int>, n: nat): real
    requires e.Sized() && |q| == QK && n <= QK
  {
    if n == 0 then 0.0
    else Simple(d, dmin, yd, e, q, n - 1) + Product(d, dmin, yd, e.s[n - 1], e.c[n - 1], e.m[n - 1], q[n - 1])
  }

  /** The same from two integer sums. */
  function Fast(d: real, dmin: real, yd: real, isum: int, summs: int): real {
    yd * d * isum as real - yd * dmin * summs as real
  }

  lemma FastAdds(d: real, dmin: real, yd: real, isum: int, summs: int, s: int, c: int, m: int, q: int)
    ensures Fast(d, dmin, yd, isum + s * c * q, summs + m * q)
         == Fast(d, dmin, yd, isum, summs) + Product(d, dmin, yd, s, c, m, q)
  {
    var a, b := (s * c * q) as real, (m * q) as real;
    assert a == s as real * c as real * q as real;
    assert b == m as real * q as real;
    assert (isum + s * c * q) as real == isum as real + a && (summs + m * q) as real == summs as real + b;
    assert yd * d * (isum as real + a) == yd * d * isum as real + yd * d * a;
    assert yd * dmin * (summs as real + b) == yd * dmin * summs as real + yd * dmin * b;
    assert yd * d * a == d * s as real * c as real * (yd * q as real);
    assert yd * dmin * b == dmin * m as real * (yd * q as real);
  }

  /** Two integer sums and two products give the plain dot product. */
  lemma {:induction false} FastIsSimple(d: real, dmin: real, yd: real, e: Elems, q: seq<int>, n: nat)
    requires e.Sized() && |q| == QK && n <= QK
    ensures Fast(d, dmin, yd, ScaleSum(e, q, n), MinSum(e, q, n)) == Simple(d, dmin, yd, e, q, n)
  {
    if n > 0 {
      hide Fast, Product;
      FastIsSimple(d, dmin, yd, e, q, n - 1);
      FastAdds(d, dmin, yd, ScaleSum(e, q, n - 1), MinSum(e, q, n - 1), e.s[n - 1], e.c[n - 1], e.m[n - 1], q[n - 1]);
    } else {
      FastZero(d, dmin, yd);
    }
  }

  lemma FastZero(d: real, dmin: real, yd: real)
    ensures Fast(d, dmin, yd, 0, 0) == 0.0
  {
  }

  ghost predicate Bytes8(q: seq<int>) {
    |q| == QK && forall i :: 0 <= i < QK ==> -128 <= q[i] <= 127
  }

  lemma ProductBound(s: int, c: int, q: int, m: int)
    requires 0 <= s <= 63 && 0 <= c <= 15 && -128 <= q <= 127 && 0 <= m <= 63
    ensures -120960 <= s * c * q <= 120960 && -8064 <= m * q <= 8064
  {
    assert 0 <= s * c <= 945 by { assert s * c <= 63 * c; }
    BoundedBy(s * c, q, 945);
    BoundedBy(m, q, 63);
  }

  lemma BoundedBy(a: int, q: int, b: int)
    requires 0 <= a <= b && -128 <= q <= 127
    ensures -128 * b <= a * q <= 128 * b
  {
    if q >= 0 {
      assert a * q <= b * q;
    } else {
      assert b * q <= a * q by { assert (b - a) * q <= 0; }
    }
  }

  /** No prefix of either sum leaves 32 bits. */
  lemma {:induction false} SumsFit(e: Elems, q: seq<int>, n: nat)
    requires e.Bounded() && Bytes8(q) && n <= QK
    ensures -120960 * n <= ScaleSum(e, q, n) <= 120960 * n
    ensures -8064 * n <= MinSum(e, q, n) <= 8064 * n
    ensures -I32 <= ScaleSum(e, q, n) < I32 && -I32 <= MinSum(e, q, n) < I32
  {
    if n == 0 {
    } else {
      SumsFit(e, q, n - 1);
      ProductBound(e.s[n - 1], e.c[n - 1], q[n - 1], e.m[n - 1]);
    }
  }

  /** A group with one scale. */
  lemma {:induction false} ScaleGroup(e: Elems, q: seq<int>, lo: nat, n: nat, s: int)
    requires e.Sized() && |q| == QK && lo + n <= QK && forall i :: lo <= i < lo + n ==> e.s[i] == s
    ensures ScaleSum(e, q, lo + n) == ScaleSum(e, q, lo) + s * CodeSum(e.c, q, lo, n)
  {
    if n == 0 {
    } else {
      ScaleGroup(e, q, lo, n - 1, s);
      var c, v, sum := e.c[lo + n - 1], q[lo + n - 1], CodeSum(e.c, q, lo, n - 1);
      assert s * (sum + v * c) == s * sum + s * c * v;
    }
  }

  /** A group with one minimum. */
  lemma {:induction false} MinGroup(e: Elems, q: seq<int>, lo: nat, n: nat, m: int)
    requires e.Sized() && |q| == QK && lo + n <= QK && forall i :: lo <= i < lo + n ==> e.m[i] == m
    ensures MinSum(e, q, lo + n) == MinSum(e, q, lo) + m * QSum(q, lo, n)
  {
    if n == 0 {
    } else {
      MinGroup(e, q, lo, n - 1, m);
      var v, sum := q[lo + n - 1], QSum(q, lo, n - 1);
      assert m * (sum + v) == m * sum + m * v;
    }
  }

  lemma MinGroupAs(e: Elems, q: seq<int>, lo: nat, n: nat, m: int, sum: int)
    requires e.Sized() && |q| == QK && lo + n <= QK && sum == QSum(q, lo, n)
    requires forall i :: lo <= i < lo + n ==> e.m[i] == m
    ensures MinSum(e, q, lo + n) == MinSum(e, q, lo) + m * sum
  {
    hide MinSum, QSum;
    MinGroup(e, q, lo, n, m);
  }

  lemma {:induction false} QSumJoins(q: seq<int>, lo: nat, a: nat, b: nat)
    requires lo + a + b <= |q|
    ensures QSum(q, lo, a + b) == QSum(q, lo, a) + QSum(q, lo + a, b)
  {
    if b > 0 { QSumJoins(q, lo, a, b - 1); }
  }

  // ---- Q2_K -----------------------------------------------------------------------------------------

  /** Scale and minimum of group g. */
  function Q2GroupScale(x: Q2, g: nat): int
    requires x.Sized() && g < 16
  {
    (x.scales[g] & 15) as int
  }

  function Q2GroupMin(x: Q2, g: nat): int
    requires x.Sized() && g < 16
  {
    (x.scales[g] >> 4) as int
  }

  function Q2Scale(x: Q2, e: nat): int
    requires x.Sized() && e < QK
  {
    Q2GroupScale(x, e / 16)
  }

  function Q2Min(x: Q2, e: nat): int
    requires x.Sized() && e < QK
  {
    Q2GroupMin(x, e / 16)
  }

  function Q2Elems(x: Q2): (r: Elems)
    requires x.Sized()
    ensures r.Sized()
  {
    Elems(seq(QK, e requires 0 <= e < QK => Q2Scale(x, e)),
          seq(QK, e requires 0 <= e < QK => Q2Code(x.qs, e) as int),
          seq(QK, e requires 0 <= e < QK => Q2Min(x, e)))
  }

  lemma NibbleRange(b: bv8)
    ensures (b & 15) as int <= 15 && (b >> 4) as int <= 15 && (b & 3) as int <= 3 && (b & 63) as int <= 63
  {
  }

  lemma Q2Bounded(x: Q2)
    requires x.Sized()
    ensures Q2Elems(x).Bounded() && Q2Elems(x).Sized()
  {
    hide Q2Code;
    forall e | 0 <= e < QK
      ensures 0 <= Q2Scale(x, e) <= 63 && 0 <= Q2Code(x.qs, e) as int <= 15 && 0 <= Q2Min(x, e) <= 63
    {
      NibbleRange(x.scales[e / 16]);
      Q2CodeRange(x.qs, e);
    }
  }

  lemma Q2CodeRange(qs: seq<bv8>, e: nat)
    requires |qs| == 64 && e < QK
    ensures Q2Code(qs, e) as int <= 15
  {
    var b, s := qs[e / 128 * 32 + e % 32], e / 32 % 4;
    NibbleRange(if s == 0 then b else if s == 1 then b >> 2 else if s == 2 then b >> 4 else b >> 6);
  }

  /** A block as the writer lays it out has exactly the writer's scales, codes and minima. */
  lemma Q2Written(x: Q2, codes: seq<bv8>, ls: seq<bv8>, lm: seq<bv8>, e: nat)
    requires x.Sized() && |codes| == QK && |ls| == |lm| == 16 && e < QK
    requires Below(codes, 4) && Below(ls, 16) && Below(lm, 16)
    requires forall i :: 0 <= i < 64 ==> x.qs[i] == Q2Byte(codes, i)
    requires forall j :: 0 <= j < 16 ==> x.scales[j] == ls[j] | (lm[j] << 4)
    ensures var r := Q2Elems(x);
      r.s[e] == ls[e / 16] as int && r.c[e] == codes[e] as int && r.m[e] == lm[e / 16] as int
  {
    Q2RoundTrip(codes, x.qs, e);
    NibblePair(ls[e / 16], lm[e / 16]);
    hide Q2Code, Q2Byte;
  }

  /** (b >> shift) & 3 for the four shifts of the reader. */
  function Shifted(b: bv8, shift: nat): bv8 {
    (if shift == 0 then b else if shift == 2 then b >> 2 else if shift == 4 then b >> 4 else b >> 6) & 3
  }

  lemma ShiftedIsCode(qs: seq<bv8>, o2: nat, shift: nat, lo: nat, i: nat)
    requires |qs| == 64 && i < 16 && lo % 16 == 0 && lo < QK
    requires o2 == lo / 128 * 32 + lo % 32 && shift == 2 * (lo / 32 % 4)
    ensures o2 + i < 64 && Shifted(qs[o2 + i], shift) == Q2Code(qs, lo + i)
  {
    assert (lo + i) / 128 == lo / 128 && (lo + i) % 32 == lo % 32 + i && (lo + i) / 32 == lo / 32;
  }

  /** dot_q2_16, the scalar form */
  method DotQ2Sixteen(x: Q2, q8: seq<int>, o2: nat, lo: nat, shift: nat) returns (sum: int)
    requires x.Sized() && |q8| == QK && lo % 16 == 0 && lo < QK
    requires o2 == lo / 128 * 32 + lo % 32 && shift == 2 * (lo / 32 % 4)
    ensures sum == CodeSum(Q2Elems(x).c, q8, lo, 16)
  {
    hide Q2Code, Shifted;
    ghost var c := Q2Elems(x).c;
    sum := 0;
    var i := 0;
    while i < 16
      invariant 0 <= i <= 16 && sum == CodeSum(c, q8, lo, i)
    {
      ShiftedIsCode(x.qs, o2, shift, lo, i);
      assert c[lo + i] == Q2Code(x.qs, lo + i) as int;
      sum := sum + q8[lo + i] * Shifted(x.qs[o2 + i], shift) as int;
      i := i + 1;
    }
  }

  lemma Q2Groups(x: Q2, g: nat)
    requires x.Sized() && g < 16
    ensures forall e :: 16 * g <= e < 16 * g + 16 ==>
      Q2Elems(x).s[e] == Q2GroupScale(x, g) && Q2Elems(x).m[e] == Q2GroupMin(x, g)
  {
    hide Q2Code, Q2GroupScale, Q2GroupMin;
    assert forall e :: 16 * g <= e < 16 * g + 16 ==> e / 16 == g;
  }

  lemma SumsNone(e: Elems, q: seq<int>)
    requires e.Sized() && |q| == QK
    ensures ScaleSum(e, q, 0) == 0 && MinSum(e, q, 0) == 0
  {
  }

  lemma ValidBytes(y: Q8)
    requires y.Valid()
    ensures Bytes8(y.qs) && |y.qs| == QK
  {
    hide QSum;
  }

  lemma Q2MinStep(x: Q2, y: Q8, j: nat, summs: int, next: int)
    requires x.Sized() && y.Valid() && j < 16 && summs == MinSum(Q2Elems(x), y.qs, 16 * j)
    requires next == summs + Q2GroupMin(x, j) * y.bsums[j]
    ensures next == MinSum(Q2Elems(x), y.qs, 16 * j + 16) && -I32 <= next < I32
  {
    Q2Bounded(x);
    Q2Groups(x, j);
    assert y.bsums[j] == QSum(y.qs, 16 * j, 16) && Bytes8(y.qs);
    hide MinSum, QSum, Elems.Bounded, Q2Elems, Q2GroupMin, Q8.Valid, Bytes8;
    MinGroupAs(Q2Elems(x), y.qs, 16 * j, 16, Q2GroupMin(x, j), y.bsums[j]);
    SumsFit(Q2Elems(x), y.qs, 16 * j + 16);
  }

  /** The minima of a Q2_K block against the cached group sums; no prefix leaves 32 bits. */
  method Q2MinSum(x: Q2, y: Q8) returns (summs: int)
    requires x.Sized() && y.Valid()
    ensures summs == MinSum(Q2Elems(x), y.qs, QK) && -I32 <= summs < I32
  {
    SumsNone(Q2Elems(x), y.qs);
    hide MinSum, Q2Elems, Q2GroupMin, QSum;
    summs := 0;
    var j := 0;
    while j < 16
      invariant 0 <= j <= 16 && summs == MinSum(Q2Elems(x), y.qs, 16 * j) && -I32 <= summs < I32
    {
      ghost var before := summs;
      summs := summs + Q2GroupMin(x, j) * y.bsums[j];
      Q2MinStep(x, y, j, before, summs);
      j := j + 1;
    }
  }

  lemma Positions(k: nat, t: nat)
    requires k < 2 && t < 4
    ensures var lo := 128 * k + 32 * t;
      && lo / 128 == k && lo % 32 == 0 && lo / 32 % 4 == t
      && (lo + 16) / 128 == k && (lo + 16) % 32 == 16 && (lo + 16) / 32 % 4 == t
  {
  }

  lemma Q2ScaleStep(x: Q2, y: Q8, g: nat, isum: int, isuml: int, next: int)
    requires x.Sized() && y.Valid() && g < 16 && isum == ScaleSum(Q2Elems(x), y.qs, 16 * g)
    requires isuml == CodeSum(Q2Elems(x).c, y.qs, 16 * g, 16) && next == isum + Q2GroupScale(x, g) * isuml
    ensures next == ScaleSum(Q2Elems(x), y.qs, 16 * g + 16) && -I32 <= next < I32
  {
    hide ScaleSum, CodeSum, Elems.Bounded, Q2Elems, Q2GroupScale, Q2GroupMin, Q8.Valid, Bytes8, Q2.Sized, Elems.Sized;
    ValidBytes(y);
    Q2Bounded(x);
    Q2Groups(x, g);
    ScaleGroup(Q2Elems(x), y.qs, 16 * g, 16, Q2GroupScale(x, g));
    SumsFit(Q2Elems(x), y.qs, 16 * g + 16);
  }

  /** One group of sixteen elements under its scale. */
  method Q2AddGroup(x: Q2, y: Q8, g: nat, o2: nat, lo: nat, shift: nat, isum0: int) returns (isum: int)
    requires x.Sized() && y.Valid() && g < 16 && lo == 16 * g
    requires o2 == lo / 128 * 32 + lo % 32 && shift == 2 * (lo / 32 % 4)
    requires isum0 == ScaleSum(Q2Elems(x), y.qs, lo)
    ensures isum == ScaleSum(Q2Elems(x), y.qs, lo + 16) && -I32 <= isum < I32
  {
    hide ScaleSum, CodeSum, Q2Elems, Q2GroupScale, QSum;
    var d := Q2GroupScale(x, g);
    var isuml := DotQ2Sixteen(x, y.qs, o2, lo, shift);
    isum := isum0 + d * isuml;
    Q2ScaleStep(x, y, g, isum0, isuml, isum);
  }

  /** The scaled codes of a Q2_K block; no prefix leaves 32 bits. */
  method Q2ScaleSum(x: Q2, y: Q8) returns (isum: int)
    requires x.Sized() && y.Valid()
    ensures isum == ScaleSum(Q2Elems(x), y.qs, QK) && -I32 <= isum < I32
  {
    SumsNone(Q2Elems(x), y.qs);
    hide ScaleSum, Q2Elems, Q8.Valid;
    isum := 0;
    var g, o2, o8, k := 0, 0, 0, 0;
    while k < 2
      invariant 0 <= k <= 2 && g == 8 * k && o2 == 32 * k && o8 == 128 * k
      invariant isum == ScaleSum(Q2Elems(x), y.qs, o8) && -I32 <= isum < I32
    {
      var shift, t := 0, 0;
      while t < 4
        invariant 0 <= t <= 4 && shift == 2 * t && g == 8 * k + 2 * t && o8 == 128 * k + 32 * t
        invariant isum == ScaleSum(Q2Elems(x), y.qs, o8) && -I32 <= isum < I32
      {
        Positions(k, t);
        isum := Q2AddGroup(x, y, g, o2, o8, shift, isum);
        isum := Q2AddGroup(x, y, g + 1, o2 + 16, o8 + 16, shift, isum);
        g, shift, o8, t := g + 2, shift + 2, o8 + 32, t + 1;
      }
      o2, k := o2 + 32, k + 1;
    }
  }

  /** What one pair of blocks contributes: the plain dot product. */
  ghost function Q2Block(x: Q2, y: Q8): real
    requires x.Sized() && y.Valid()
  {
    Simple(x.d, x.dmin, y.d, Q2Elems(x), y.qs, QK)
  }

  ghost function Q2Row(x: seq<Q2>, y: seq<Q8>, n: nat): real
    requires n <= |x| == |y| && (forall i :: 0 <= i < |x| ==> x[i].Sized() && y[i].Valid())
  {
    if n == 0 then 0.0 else Q2Row(x, y, n - 1) + Q2Block(x[n - 1], y[n - 1])
  }

  /** ds4_vec_dot_q2_K_q8_K, the scalar form */
  method DotQ2(x: seq<Q2>, y: seq<Q8>) returns (s: real)
    requires |x| == |y| && forall i :: 0 <= i < |x| ==> x[i].Sized() && y[i].Valid()
    ensures s == Q2Row(x, y, |x|)
  {
    hide Simple, ScaleSum, MinSum, Fast, Q2Elems;
    s := 0.0;
    var i := 0;
    while i < |x|
      invariant 0 <= i <= |x| && s == Q2Row(x, y, i)
    {
      var summs := Q2MinSum(x[i], y[i]);
      var isum := Q2ScaleSum(x[i], y[i]);
      FastIsSimple(x[i].d, x[i].dmin, y[i].d, Q2Elems(x[i]), y[i].qs, QK);
      var v := Combine(x[i].d, x[i].dmin, y[i].d, isum, summs);
      s := s + v;
      i := i + 1;
    }
  }

  method Combine(d: real, dmin: real, yd: real, isum: int, summs: int) returns (v: real)
    ensures v == Fast(d, dmin, yd, isum, summs)
  {
    var dall := yd * d;
    var dm := yd * dmin;
    v := dall * isum as real - dm * summs as real;
  }

  // ---- Q4_K -----------------------------------------------------------------------------------------

  /** Scale and minimum of group j. */
  function Q4GroupScale(x: Q4, j: nat): int
    requires x.Sized() && j < 8
  {
    GetScaleMin(j, x.scales).0 as int
  }

  function Q4GroupMin(x: Q4, j: nat): int
    requires x.Sized() && j < 8
  {
    GetScaleMin(j, x.scales).1 as int
  }

  function Q4Scale(x: Q4, e: nat): int
    requires x.Sized() && e < QK
  {
    Q4GroupScale(x, e / 32)
  }

  function Q4Min(x: Q4, e: nat): int
    requires x.Sized() && e < QK
  {
    Q4GroupMin(x, e / 32)
  }

  function Q4Elems(x: Q4): (r: Elems)
    requires x.Sized()
    ensures r.Sized()
  {
    Elems(seq(QK, e requires 0 <= e < QK => Q4Scale(x, e)),
          seq(QK, e requires 0 <= e < QK => Q4Code(x.qs, e) as int),
          seq(QK, e requires 0 <= e < QK => Q4Min(x, e)))
  }

  lemma SixBitRange(a: bv8, b: bv8, c: bv8)
    ensures (a & 63) as int <= 63 && ((b & 15) | ((a >> 6) << 4)) as int <= 63
    ensures ((b >> 4) | ((c >> 6) << 4)) as int <= 63
  {
    assert (a & 63) < 64 && ((b & 15) | ((a >> 6) << 4)) < 64 && ((b >> 4) | ((c >> 6) << 4)) < 64;
    SmallByte(a & 63);
    SmallByte((b & 15) | ((a >> 6) << 4));
    SmallByte((b >> 4) | ((c >> 6) << 4));
  }

  lemma SmallByte(a: bv8)
    requires a < 64
    ensures a as int <= 63
  {
  }

  lemma ScaleMinRange(j: nat, q: seq<bv8>)
    requires j < 8 && |q| == 12
    ensures GetScaleMin(j, q).0 as int <= 63 && GetScaleMin(j, q).1 as int <= 63
  {
    if j < 4 {
      SixBitRange(q[j], 0, 0);
      SixBitRange(q[j + 4], 0, 0);
    } else {
      SixBitRange(q[j - 4], q[j + 4], q[j]);
    }
  }

  lemma Q4CodeRange(qs: seq<bv8>, e: nat)
    requires |qs| == 128 && e < QK
    ensures Q4Code(qs, e) as int <= 15
  {
    NibbleRange(qs[e / 64 * 32 + e % 32]);
  }

  lemma Q4Bounded(x: Q4)
    requires x.Sized()
    ensures Q4Elems(x).Bounded()
  {
    hide Q4Code, GetScaleMin;
    forall e | 0 <= e < QK
      ensures 0 <= Q4Scale(x, e) <= 63 && 0 <= Q4Code(x.qs, e) as int <= 15 && 0 <= Q4Min(x, e) <= 63
    {
      ScaleMinRange(e / 32, x.scales);
      Q4CodeRange(x.qs, e);
    }
  }

  /** A block as the writer lays it out has exactly the writer's scales, codes and minima. */
  lemma Q4Written(x: Q4, codes: seq<bv8>, ls: seq<bv8>, lm: seq<bv8>, e: nat)
    requires x.Sized() && |codes| == QK && |ls| == |lm| == 8 && e < QK
    requires Below(codes, 16) && Below(ls, 64) && Below(lm, 64)
    requires forall i :: 0 <= i < 128 ==> x.qs[i] == Q4Byte(codes, i)
    requires forall i :: 0 <= i < 12 ==> x.scales[i] == ScaleBytes(ls, lm, i)
    ensures var r := Q4Elems(x);
      r.s[e] == ls[e / 32] as int && r.c[e] == codes[e] as int && r.m[e] == lm[e / 32] as int
  {
    Q4RoundTrip(codes, x.qs, e);
    ScalesRoundTrip(ls, lm, x.scales, e / 32);
    hide Q4Code, Q4Byte, GetScaleMin, ScaleBytes;
  }

  lemma Q4Group(x: Q4, j: nat)
    requires x.Sized() && j < 8
    ensures forall e :: 32 * j <= e < 32 * j + 32 ==>
      Q4Elems(x).s[e] == Q4GroupScale(x, j) && Q4Elems(x).m[e] == Q4GroupMin(x, j)
  {
    hide Q4Code, Q4GroupScale, Q4GroupMin;
    assert forall e :: 32 * j <= e < 32 * j + 32 ==> e / 32 == j;
  }

  /** Two neighbouring cached sums are the sum of 32 activations. */
  lemma PairSum(y: Q8, j: nat)
    requires y.Valid() && j < 8
    ensures y.bsums[j * 2] + y.bsums[j * 2 + 1] == QSum(y.qs, 32 * j, 32)
  {
    var k := j * 2;
    assert y.bsums[k] == QSum(y.qs, 16 * k, 16);
    assert y.bsums[k + 1] == QSum(y.qs, 16 * (k + 1), 16);
    QSumJoins(y.qs, 32 * j, 16, 16);
    hide QSum;
    assert 16 * k == 32 * j && 16 * (k + 1) == 32 * j + 16;
  }

  lemma Q4MinStep(x: Q4, y: Q8, j: nat, summs: int, gsum: int, next: int)
    requires x.Sized() && y.Valid() && j < 8 && summs == MinSum(Q4Elems(x), y.qs, 32 * j)
    requires gsum == QSum(y.qs, 32 * j, 32) && next == summs + Q4GroupMin(x, j) * gsum
    ensures next == MinSum(Q4Elems(x), y.qs, 32 * j + 32) && -I32 <= next < I32
  {
    Q4Bounded(x);
    Q4Group(x, j);
    assert Bytes8(y.qs);
    hide MinSum, QSum, Elems.Bounded, Q4Elems, Q4GroupMin, Q8.Valid, Bytes8;
    MinGroupAs(Q4Elems(x), y.qs, 32 * j, 32, Q4GroupMin(x, j), gsum);
    SumsFit(Q4Elems(x), y.qs, 32 * j + 32);
  }

  method Q4MinSum(x: Q4, y: Q8) returns (summs: int)
    requires x.Sized() && y.Valid()
    ensures summs == MinSum(Q4Elems(x), y.qs, QK) && -I32 <= summs < I32
  {
    SumsNone(Q4Elems(x), y.qs);
    hide MinSum, Q4Elems, Q4GroupMin, QSum;
    summs := 0;
    var j := 0;
    while j < 8
      invariant 0 <= j <= 8 && summs == MinSum(Q4Elems(x), y.qs, 32 * j) && -I32 <= summs < I32
    {
      var gsum := y.bsums[j * 2] + y.bsums[j * 2 + 1];
      ghost var before := summs;
      summs := summs + Q4GroupMin(x, j) * gsum;
      PairSum(y, j);
      Q4MinStep(x, y, j, before, gsum, summs);
      j := j + 1;
    }
  }

  lemma Q4CodeAt(qs: seq<bv8>, j: nat, l: nat)
    requires |qs| == 128 && j < 8 && l < 32
    ensures j / 2 * 32 + l < 128
    ensures Q4Code(qs, j * 32 + l) == if j % 2 * 4 == 0 then qs[j / 2 * 32 + l] & 15 else qs[j / 2 * 32 + l] >> 4
  {
    assert (j * 32 + l) / 64 == j / 2 && (j * 32 + l) % 32 == l && (j * 32 + l) / 32 == j;
  }

  /** The low nibble for shift zero, else the high one. */
  function HalfByte(b: bv8, shift: nat): int {
    (if shift == 0 then b & 15 else b >> 4) as int
  }

  lemma Q4Element(x: Q4, j: nat, l: nat)
    requires x.Sized() && j < 8 && l < 32
    ensures j / 2 * 32 + l < 128
    ensures Q4Elems(x).s[32 * j + l] == Q4GroupScale(x, j)
    ensures Q4Elems(x).c[32 * j + l] == HalfByte(x.qs[j / 2 * 32 + l], j % 2 * 4)
  {
    hide Q4GroupScale, Q4Code;
    Q4CodeAt(x.qs, j, l);
    assert (32 * j + l) / 32 == j;
  }

  lemma Q4ScaleStep(x: Q4, y: Q8, j: nat, l: nat, isum: int, q4: int, next: int)
    requires x.Sized() && y.Valid() && j < 8 && l < 32 && isum == ScaleSum(Q4Elems(x), y.qs, 32 * j + l)
    requires j / 2 * 32 + l < 128 && q4 == HalfByte(x.qs[j / 2 * 32 + l], j % 2 * 4)
    requires next == isum + Q4GroupScale(x, j) * q4 * y.qs[32 * j + l]
    ensures next == ScaleSum(Q4Elems(x), y.qs, 32 * j + l + 1) && -I32 <= next < I32
  {
    Q4Bounded(x);
    Q4Element(x, j, l);
    assert Bytes8(y.qs);
    hide Elems.Bounded, Q4Elems, Q4GroupScale, HalfByte, Q8.Valid, Bytes8;
    SumsFit(Q4Elems(x), y.qs, 32 * j + l + 1);
  }

  /** One group of 32 elements. */
  method Q4AddGroup(x: Q4, y: Q8, j: nat, isum0: int) returns (isum: int)
    requires x.Sized() && y.Valid() && j < 8 && isum0 == ScaleSum(Q4Elems(x), y.qs, 32 * j) && -I32 <= isum0 < I32
    ensures isum == ScaleSum(Q4Elems(x), y.qs, 32 * j + 32) && -I32 <= isum < I32
  {
    hide ScaleSum, Q4GroupScale, Q4Elems, HalfByte, QSum;
    isum := isum0;
    var s := Q4GroupScale(x, j);
    var byteOff := j / 2 * 32;
    var shift := j % 2 * 4;
    var l := 0;
    while l < 32
      invariant 0 <= l <= 32 && isum == ScaleSum(Q4Elems(x), y.qs, 32 * j + l) && -I32 <= isum < I32
    {
      var q4 := HalfByte(x.qs[byteOff + l], shift);
      ghost var before := isum;
      isum := isum + s * q4 * y.qs[j * 32 + l];
      Q4ScaleStep(x, y, j, l, before, q4, isum);
      l := l + 1;
    }
  }

  method Q4ScaleSum(x: Q4, y: Q8) returns (isum: int)
    requires x.Sized() && y.Valid()
    ensures isum == ScaleSum(Q4Elems(x), y.qs, QK) && -I32 <= isum < I32
  {
    SumsNone(Q4Elems(x), y.qs);
    hide ScaleSum, Q4Elems, Q8.Valid;
    isum := 0;
    var j := 0;
    while j < 8
      invariant 0 <= j <= 8 && isum == ScaleSum(Q4Elems(x), y.qs, 32 * j) && -I32 <= isum < I32
    {
      isum := Q4AddGroup(x, y, j, isum);
      j := j + 1;
    }
  }

  ghost function Q4Block(x: Q4, y: Q8): real
    requires x.Sized() && y.Valid()
  {
    Simple(x.d, x.dmin, y.d, Q4Elems(x), y.qs, QK)
  }

  ghost function Q4Row(x: seq<Q4>, y: seq<Q8>, n: nat): real
    requires n <= |x| == |y| && (forall i :: 0 <= i < |x| ==> x[i].Sized() && y[i].Valid())
  {
    if n == 0 then 0.0 else Q4Row(x, y, n - 1) + Q4Block(x[n - 1], y[n - 1])
  }

  /** ds4_vec_dot_q4_K_q8_K */
  method DotQ4(x: seq<Q4>, y: seq<Q8>) returns (s: real)
    requires |x| == |y| && forall i :: 0 <= i < |x| ==> x[i].Sized() && y[i].Valid()
    ensures s == Q4Row(x, y, |x|)
  {
    hide Simple, ScaleSum, MinSum, Fast, Q4Elems;
    s := 0.0;
    var i := 0;
    while i < |x|
      invariant 0 <= i <= |x| && s == Q4Row(x, y, i)
    {
      var summs := Q4MinSum(x[i], y[i]);
      var isum := Q4ScaleSum(x[i], y[i]);
      FastIsSimple(x[i].d, x[i].dmin, y[i].d, Q4Elems(x[i]), y[i].qs, QK);
      var v := Combine(x[i].d, x[i].dmin, y[i].d, isum, summs);
      s := s + v;
      i := i + 1;
    }
  }

  // ---- quantising activations --------------------------------------------------------------------------

  lemma CodeFits(v: real)
    requires -127.0 <= v <= 127.0
    ensures -127 <= NearestInt(v) <= 127
    ensures -0.5 <= NearestInt(v) as real - v <= 0.5
  {
    NearestIntOfInt(-127, v);
    NearestIntOfInt(127, v);
  }

  /** The scaled value lies within 127 of zero: max has the largest magnitude and scales to -127. */
  lemma ScaledInside(x: real, max: real, c: real, p: real)
    requires Abs(x) <= Abs(max) && max != 0.0 && c == -127.0 / max && p == c * x
    ensures -127.0 <= p <= 127.0
  {
    var r := x / max;
    assert r * max == x;
    Unit(r, max, x);
    assert c * max == -127.0;
    assert p == -127.0 * r by { assert c * (r * max) == r * (c * max); }
  }

  lemma Unit(r: real, max: real, x: real)
    requires max != 0.0 && r * max == x && Abs(x) <= Abs(max)
    ensures -1.0 <= r <= 1.0
  {
    if max > 0.0 { UnitAbove(r, max, x); UnitAbove(-r, max, -x); }
    else { UnitAbove(-r, -max, x); UnitAbove(r, -max, -x); }
  }

  lemma UnitAbove(r: real, m: real, x: real)
    requires m > 0.0 && r * m == x && x <= m
    ensures r <= 1.0
  {
    if r > 1.0 { Larger(r, m); }
  }

  lemma Larger(r: real, m: real)
    requires r > 1.0 && m > 0.0
    ensures r * m > m
  {
    PositiveProduct(r - 1.0, m);
    assert (r - 1.0) * m == r * m - m;
  }

  /** The first element of largest magnitude, and that magnitude. */
  method LargestMagnitude(x: seq<real>) returns (max: real, amax: real)
    ensures amax == Abs(max) && (forall i :: 0 <= i < |x| ==> Abs(x[i]) <= amax)
    ensures amax > 0.0 ==> exists i :: 0 <= i < |x| && x[i] == max
  {
    max, amax := 0.0, 0.0;
    var j := 0;
    while j < |x|
      invariant 0 <= j <= |x| && amax == Abs(max)
      invariant forall i :: 0 <= i < j ==> Abs(x[i]) <= amax
      invariant amax > 0.0 ==> exists i :: 0 <= i < j && x[i] == max
    {
      var ax := Abs(x[j]);
      if ax > amax {
        amax, max := ax, x[j];
      }
      j := j + 1;
    }
  }

  method GroupSums(qs: seq<int>) returns (bsums: seq<int>)
    requires Bytes8(qs)
    ensures |bsums| == 16 && forall j :: 0 <= j < 16 ==> bsums[j] == QSum(qs, 16 * j, 16) && -2048 <= bsums[j] <= 2032
  {
    bsums := [];
    var j := 0;
    while j < 16
      invariant 0 <= j <= 16 && |bsums| == j
      invariant forall g :: 0 <= g < j ==> bsums[g] == QSum(qs, 16 * g, 16) && -2048 <= bsums[g] <= 2032
    {
      var sum, i := 0, 0;
      while i < 16
        invariant 0 <= i <= 16 && sum == QSum(qs, 16 * j, i) && -128 * i <= sum <= 127 * i
      {
        sum := sum + qs[j * 16 + i];
        i := i + 1;
      }
      bsums := bsums + [sum];
      j := j + 1;
    }
  }

  ghost predicate Meets(d: real, q: int, x: real) {
    2.0 * Abs(d * q as real - x) <= Abs(d)
  }

  /** What quantising promises: every activation is met within half a step of y.d. */
  ghost predicate Quantises(y: Q8, x: seq<real>) {
    && y.Valid() && |x| == QK
    && forall i :: 0 <= i < QK ==> Meets(y.d, y.qs[i], x[i])
  }

  lemma HalfStepError(d: real, iscale: real, q: int, x: real)
    requires iscale != 0.0 && d * iscale == 1.0 && -0.5 <= q as real - iscale * x <= 0.5
    ensures 2.0 * Abs(d * q as real - x) <= Abs(d)
  {
    var e := q as real - iscale * x;
    assert d * q as real - x == d * e by {
      assert d * e == d * q as real - d * (iscale * x);
      assert d * (iscale * x) == d * iscale * x;
    }
    AbsProduct(d, e);
    var u, v := Abs(d), Abs(e);
    HalfProduct(u, v);
    var uv := u * v;
    assert Abs(d * q as real - x) == uv;
  }

  lemma HalfProduct(u: real, v: real)
    requires u >= 0.0 && v <= 0.5
    ensures 2.0 * (u * v) <= u
  {
    var w := 0.5 - v;
    NonNegativeProduct(u, w);
    assert u * w == 0.5 * u - u * v;
  }

  lemma AbsProduct(a: real, b: real)
    ensures Abs(a * b) == Abs(a) * Abs(b)
  {
    var u, v := Abs(a), Abs(b);
    NonNegativeProduct(u, v);
    if a < 0.0 {
      if b < 0.0 { assert u * v == a * b; } else { assert u * v == -(a * b); }
    } else {
      if b < 0.0 { assert u * v == -(a * b); } else { assert u * v == a * b; }
    }
  }

  /** lrintf of the scaled value */
  function Q8Code(x: real, iscale: real): int {
    NearestInt(iscale * x)
  }

  /** ds4_quantize_row_q8_K for one block. */
  method QuantizeQ8(x: seq<real>) returns (y: Q8)
    requires |x| == QK
    ensures Quantises(y, x)
    ensures y.d == 0.0 <==> forall i :: 0 <= i < QK ==> x[i] == 0.0
    ensures forall j :: 0 <= j < 16 ==> -2048 <= y.bsums[j] <= 2032
  {
    hide Q8Code, QSum, Meets;
    var max, amax := LargestMagnitude(x);
    if amax == 0.0 {
      y := Q8(0.0, seq(QK, _ => 0), seq(16, _ => 0));
      ZeroSums(y.qs);
      forall i | 0 <= i < QK
        ensures Meets(y.d, y.qs[i], x[i])
      {
        ZeroMeets(x[i]);
      }
      return;
    }
    var iscale := -127.0 / max;
    ghost var d := 1.0 / iscale;
    NonZeroScale(max, iscale, d);
    var qs: seq<int> := [];
    var j := 0;
    while j < QK
      invariant 0 <= j <= QK && |qs| == j
      invariant forall i :: 0 <= i < j ==> -127 <= qs[i] <= 127 && Meets(d, qs[i], x[i])
    {
      var v := Q8Code(x[j], iscale);
      QuantisedCode(x[j], max, iscale, d, v);
      if v > 127 { v := 127; }
      if v < -128 { v := -128; }
      qs := qs + [v];
      j := j + 1;
    }
    var bsums := GroupSums(qs);
    y := Q8(1.0 / iscale, qs, bsums);
  }

  lemma ZeroMeets(x: real)
    requires Abs(x) <= 0.0
    ensures Meets(0.0, 0, x)
  {
  }

  lemma NonZeroScale(max: real, iscale: real, d: real)
    requires max != 0.0 && iscale == -127.0 / max
    requires iscale != 0.0 ==> d == 1.0 / iscale
    ensures iscale != 0.0 && d * iscale == 1.0 && d != 0.0
  {
    assert iscale * max == -127.0;
  }

  lemma QuantisedCode(x: real, max: real, iscale: real, d: real, v: int)
    requires Abs(x) <= Abs(max) && max != 0.0 && iscale == -127.0 / max && iscale != 0.0 && d * iscale == 1.0
    requires v == Q8Code(x, iscale)
    ensures -127 <= v <= 127 && Meets(d, v, x)
  {
    var p := iscale * x;
    ScaledInside(x, max, iscale, p);
    CodeFits(p);
    HalfStepError(d, iscale, v, x);
  }

  lemma ZeroSums(qs: seq<int>)
    requires |qs| == QK && forall i :: 0 <= i < QK ==> qs[i] == 0
    ensures forall j :: 0 <= j < 16 ==> QSum(qs, 16 * j, 16) == 0
  {
    forall j | 0 <= j < 16
      ensures QSum(qs, 16 * j, 16) == 0
    {
      ZeroSum(qs, 16 * j, 16);
    }
  }

  lemma {:induction false} ZeroSum(qs: seq<int>, lo: nat, n: nat)
    requires lo + n <= |qs| && forall i :: lo <= i < lo + n ==> qs[i] == 0
    ensures QSum(qs, lo, n) == 0
  {
    if n > 0 { ZeroSum(qs, lo, n - 1); }
  }
}
