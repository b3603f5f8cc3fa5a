/**
 The scale and offset search for one block, gguf-tools/quants.c:119-263. Arithmetic is over reals.
 ds4q_make_qkx3_quants is ds4q_make_qkx2_quants with the squares of the values as default weights.
 */
module QuantSearch {
  import opened ByteEncoding
  import opened WeightedFit

  datatype Params = Params(nmax: nat, rmin: real, rdelta: real, mad: bool) {
    /** Codes are stored in bytes, and no candidate step may be negative. */
    ghost predicate Valid(nstep: int) {
      && 1 <= nmax <= 255
      && forall k :: 0 <= k <= nstep ==> Step(k) >= 0.0
    }

    function Step(k: int): real { rmin + rdelta * k as real + nmax as real }
  }

  /** The best block so far: its codes, its scale and offset, and its weighted error. */
  datatype State = State(codes: seq<int>, scale: real, min: real, best: real)

  function Least(x: seq<real>, n: nat): (r: real)
    requires 0 < n <= |x|
    ensures forall i :: 0 <= i < n ==> r <= x[i]
    ensures exists i :: 0 <= i < n && r == x[i]
  {
    if n == 1 then x[0] else if x[n - 1] < Least(x, n - 1) then x[n - 1] else Least(x, n - 1)
  }

  function Most(x: seq<real>, n: nat): (r: real)
    requires 0 < n <= |x|
    ensures forall i :: 0 <= i < n ==> x[i] <= r
    ensures exists i :: 0 <= i < n && r == x[i]
  {
    if n == 1 then x[0] else if x[n - 1] > Most(x, n - 1) then x[n - 1] else Most(x, n - 1)
  }

  /** The least value, but never above zero. */
  function Low(x: seq<real>): (r: real)
    requires |x| > 0
    ensures r <= 0.0 && r <= Most(x, |x|)
    ensures forall i :: 0 <= i < |x| ==> r <= x[i]
  {
    if Least(x, |x|) > 0.0 then 0.0 else Least(x, |x|)
  }

  /** It is zero or one of the values. */
  lemma LowIs(x: seq<real>)
    requires |x| > 0
    ensures Low(x) == 0.0 || exists i :: 0 <= i < |x| && Low(x) == x[i]
  {
    hide Least;
  }

  function High(x: seq<real>): real
    requires |x| > 0
  {
    Most(x, |x|)
  }

  function Code(x: real, iscale: real, min: real, nmax: nat): (r: nat)
    ensures r <= nmax
  {
    Clamp(NearestInt(iscale * (x - min)), nmax)
  }

  function Codes(x: seq<real>, iscale: real, min: real, nmax: nat): (r: seq<int>)
    ensures |r| == |x| && forall i :: 0 <= i < |x| ==> r[i] == Code(x[i], iscale, min, nmax)
  {
    seq(|x|, i requires 0 <= i < |x| => Code(x[i], iscale, min, nmax))
  }

  function FitOf(w: seq<real>, x: seq<real>, codes: seq<int>): Fit {
    Fit(w, x, Reals(codes))
  }

  // ---- the line through the codes -----------------------------------------------------

  lemma SquareSumPositive(t: real, ll: real, s: real)
    requires Minor(t, ll, s, s) > 0.0
    ensures ll != 0.0 && t != 0.0
    ensures t >= 0.0 ==> t > 0.0 && ll > 0.0
  {
    assert s * s >= 0.0;
    assert t * ll > 0.0;
    if t > 0.0 && ll <= 0.0 { assert false; }
  }

  /** Solves the normal equations; a positive offset is replaced by zero and the scale refitted. */
  function Line(t: real, x: real, s: real, ll: real, xl: real): (real, real)
    requires Minor(t, ll, s, s) > 0.0
  {
    SquareSumPositive(t, ll, s);
    var d := Minor(t, ll, s, s);
    var offset := Minor(ll, x, s, xl) / d;
    if offset > 0.0 then (xl / ll, 0.0) else (Minor(t, xl, x, s) / d, offset)
  }

  function FitLine(f: Fit): (real, real)
    requires f.Sized() && f.Det(|f.w|) > 0.0
  {
    Line(f.SumW(|f.w|), f.SumX(|f.w|), f.SumL(|f.w|), f.SumLL(|f.w|), f.SumXL(|f.w|))
  }

  lemma QuotientBelow(a: real, d: real, m: real)
    requires d > 0.0 && a < m * d
    ensures a / d < m
  {
    assert a / d * d == a;
  }

  /** y and yl are the sums of w * (max - x) and w * l * (max - x). */
  lemma OffsetBelow(t: real, x: real, s: real, ll: real, xl: real, max: real, y: real, yl: real)
    requires t > 0.0 && s >= 0.0 && y == max * t - x && yl == max * s - xl && y >= 0.0 && yl >= 0.0
    requires Minor(t, ll, s, s) > 0.0 && Minor(t, xl, x, s) > 0.0
    ensures Minor(ll, x, s, xl) < max * Minor(t, ll, s, s)
  {
    var d := Minor(t, ll, s, s);
    assert s * y > t * yl by {
      assert t * yl == max * s * t - t * xl;
      assert s * y == max * s * t - s * x;
    }
    assert t * yl >= 0.0;
    assert s * y > 0.0;
    assert y > 0.0;
    var gap := ll * y - s * yl;
    assert gap == max * d - Minor(ll, x, s, xl) by {
      assert ll * y == max * (t * ll) - ll * x;
      assert s * yl == max * (s * s) - s * xl;
    }
    assert t * gap == y * d + s * (s * y - t * yl) by {
      assert t * gap == t * ll * y - s * (t * yl);
      assert y * d == t * ll * y - s * s * y;
    }
    assert y * d > 0.0;
    assert s * (s * y - t * yl) >= 0.0;
    if gap <= 0.0 { assert false; }
  }

  lemma ClampedScale(t: real, x: real, s: real, ll: real, xl: real)
    requires t > 0.0 && s >= 0.0
    requires Minor(t, ll, s, s) > 0.0 && Minor(t, xl, x, s) > 0.0 && Minor(ll, x, s, xl) > 0.0
    ensures xl > 0.0
  {
    assert t * (ll * x) > t * (s * xl);
    assert s * (t * xl) >= s * (x * s);
    assert x * Minor(t, ll, s, s) == t * (ll * x) - s * (x * s);
    assert x > 0.0;
    assert x * s >= 0.0;
    assert t * xl > 0.0;
  }

  lemma MaxPositive(s: real, xl: real, max: real, yl: real)
    requires s >= 0.0 && yl == max * s - xl && yl >= 0.0 && xl > 0.0
    ensures max > 0.0
  {
    if max <= 0.0 { assert false; }
  }

  lemma LineSigns(t: real, x: real, s: real, ll: real, xl: real, max: real, y: real, yl: real)
    requires t >= 0.0 && s >= 0.0 && y == max * t - x && yl == max * s - xl && y >= 0.0 && yl >= 0.0
    requires Minor(t, ll, s, s) > 0.0 && Minor(t, xl, x, s) > 0.0
    ensures Line(t, x, s, ll, xl).0 > 0.0 && Line(t, x, s, ll, xl).1 <= 0.0 && Line(t, x, s, ll, xl).1 < max
  {
    SquareSumPositive(t, ll, s);
    var d := Minor(t, ll, s, s);
    Quotient(Minor(ll, x, s, xl), d);
    if Minor(ll, x, s, xl) / d > 0.0 {
      ClampedScale(t, x, s, ll, xl);
      MaxPositive(s, xl, max, yl);
      Quotient(xl, ll);
    } else {
      OffsetBelow(t, x, s, ll, xl, max, y, yl);
      QuotientBelow(Minor(ll, x, s, xl), d, max);
      Quotient(Minor(t, xl, x, s), d);
    }
  }

  // ---- candidates -------------------------------------------------------------------------

  lemma CodeMonotone(a: real, b: real, iscale: real, min: real, nmax: nat)
    requires iscale >= 0.0 && a <= b
    ensures Code(a, iscale, min, nmax) <= Code(b, iscale, min, nmax)
  {
    var u, v := iscale * (a - min), iscale * (b - min);
    assert v - u == iscale * (b - a);
    assert u <= v;
    NearestIntMonotone(u, v);
  }

  lemma CodesComonotone(x: seq<real>, iscale: real, min: real, nmax: nat)
    requires iscale >= 0.0
    ensures Comonotone(x, Reals(Codes(x, iscale, min, nmax)))
  {
    hide Code;
    var l := Reals(Codes(x, iscale, min, nmax));
    forall i, j | 0 <= i < |x| && 0 <= j < |x| && x[i] <= x[j]
      ensures l[i] <= l[j]
    {
      CodeMonotone(x[i], x[j], iscale, min, nmax);
    }
  }

  /** Sums of nonnegative terms against the distance to an upper bound. */
  lemma {:induction false} DistanceSums(f: Fit, max: real, n: nat)
    requires f.Sized() && n <= |f.w| && NonNegative(f.w)
    requires forall i :: 0 <= i < |f.w| ==> f.x[i] <= max && f.l[i] >= 0.0
    ensures f.SumW(n) >= 0.0 && f.SumL(n) >= 0.0
    ensures max * f.SumW(n) - f.SumX(n) >= 0.0
    ensures max * f.SumL(n) - f.SumXL(n) >= 0.0
  {
    if n == 0 {
    } else {
      hide *;
      var w, x, l := f.w[n - 1], f.x[n - 1], f.l[n - 1];
      DistanceSums(f, max, n - 1);
      SumsStep(f, n, w, x, l);
      DistanceStep(max, w, x, l, f.SumW(n - 1), f.SumX(n - 1), f.SumL(n - 1), f.SumXL(n - 1),
                   f.SumW(n), f.SumX(n), f.SumL(n), f.SumXL(n));
    }
  }

  lemma DistanceStep(max: real, w: real, x: real, l: real, t: real, sx: real, s: real, xl: real,
                     t': real, sx': real, s': real, xl': real)
    requires w >= 0.0 && x <= max && l >= 0.0
    requires t' == t + w && sx' == sx + w * x && s' == s + w * l && xl' == xl + w * l * x
    requires max * t - sx >= 0.0 && max * s - xl >= 0.0 && t >= 0.0 && s >= 0.0
    ensures max * t' - sx' >= 0.0 && max * s' - xl' >= 0.0 && t' >= 0.0 && s' >= 0.0
  {
    assert max * t' - sx' == (max * t - sx) + w * (max - x);
    assert max * s' - xl' == (max * s - xl) + w * l * (max - x);
    assert w * l >= 0.0;
  }

  /** A candidate's line has a positive scale and an offset that is not positive and stays below every upper bound. */
  lemma FitLineSigns(f: Fit, max: real)
    requires f.Sized() && NonNegative(f.w) && Comonotone(f.x, f.l) && f.Det(|f.w|) > 0.0
    requires forall i :: 0 <= i < |f.w| ==> f.x[i] <= max && f.l[i] >= 0.0
    ensures FitLine(f).0 > 0.0 && FitLine(f).1 <= 0.0 && FitLine(f).1 < max
  {
    hide Sum, Line, Minor;
    var n := |f.w|;
    Chebyshev(f, n);
    DistanceSums(f, max, n);
    LineSigns(f.SumW(n), f.SumX(n), f.SumL(n), f.SumLL(n), f.SumXL(n), max,
              max * f.SumW(n) - f.SumX(n), max * f.SumL(n) - f.SumXL(n));
  }

  // ---- the search --------------------------------------------------------------------------

  /** What every state of the search keeps. */
  ghost predicate Good(p: Params, x: seq<real>, w: seq<real>, s: State)
    requires |x| == |w| > 0
  {
    && |s.codes| == |x|
    && (forall i :: 0 <= i < |x| ==> 0 <= s.codes[i] <= p.nmax)
    && s.scale > 0.0 && s.min <= 0.0 && s.min < High(x)
    && s.best == FitOf(w, x, s.codes).Error(s.scale, s.min, p.mad)
  }

  ghost predicate Searchable(p: Params, x: seq<real>, w: seq<real>) {
    && |x| == |w| > 0
    && NonNegative(w)
    && Low(x) < High(x)
    && 1 <= p.nmax <= 255
  }

  /** The codes tried at step k from offset min. */
  function TriedCodes(p: Params, x: seq<real>, min: real, k: nat): seq<int>
    requires |x| > 0 && min < High(x)
  {
    Codes(x, p.Step(k) / (High(x) - min), min, p.nmax)
  }

  function Try(p: Params, x: seq<real>, w: seq<real>, k: nat, s: State): State
    requires |x| == |w| > 0 && s.min < High(x)
  {
    var codes := TriedCodes(p, x, s.min, k);
    var f := FitOf(w, x, codes);
    if f.Det(|w|) > 0.0 then
      var (scale, min) := FitLine(f);
      var e := f.Error(scale, min, p.mad);
      if e < s.best then State(codes, scale, min, e) else s
    else
      s
  }

  lemma CandidateSigns(p: Params, x: seq<real>, w: seq<real>, min: real, k: nat)
    requires Searchable(p, x, w) && min < High(x) && p.Step(k) >= 0.0
    requires FitOf(w, x, TriedCodes(p, x, min, k)).Det(|w|) > 0.0
    ensures var line := FitLine(FitOf(w, x, TriedCodes(p, x, min, k)));
      line.0 > 0.0 && line.1 <= 0.0 && line.1 < High(x)
  {
    hide Sum, Fit.Det, FitLine, Code, Params.Step;
    Quotient(p.Step(k), High(x) - min);
    CodesComonotone(x, p.Step(k) / (High(x) - min), min, p.nmax);
    FitLineSigns(FitOf(w, x, TriedCodes(p, x, min, k)), High(x));
  }

  lemma TryKeepsGood(p: Params, x: seq<real>, w: seq<real>, k: nat, s: State)
    requires Searchable(p, x, w) && Good(p, x, w, s) && p.Step(k) >= 0.0
    ensures Good(p, x, w, Try(p, x, w, k, s))
    ensures Try(p, x, w, k, s).best <= s.best
  {
    hide Sum, FitLine, Fit.Det, Code, Params.Step, Fit.Error;
    if FitOf(w, x, TriedCodes(p, x, s.min, k)).Det(|w|) > 0.0 {
      CandidateSigns(p, x, w, s.min, k);
    }
  }

  /** Codes per unit when the whole range is divided evenly. */
  function EvenStep(p: Params, x: seq<real>): (r: real)
    requires |x| > 0 && Low(x) < High(x) && p.nmax > 0
    ensures r > 0.0
  {
    Quotient(p.nmax as real, High(x) - Low(x));
    p.nmax as real / (High(x) - Low(x))
  }

  function EvenScale(p: Params, x: seq<real>): (r: real)
    requires |x| > 0 && Low(x) < High(x) && p.nmax > 0
    ensures r > 0.0
  {
    Quotient(1.0, EvenStep(p, x));
    1.0 / EvenStep(p, x)
  }

  /** The state before the search. */
  function Initial(p: Params, x: seq<real>, w: seq<real>): State
    requires |x| == |w| > 0 && Low(x) < High(x) && p.nmax > 0
  {
    var codes := Codes(x, EvenStep(p, x), Low(x), p.nmax);
    var f := FitOf(w, x, codes);
    State(codes, EvenScale(p, x), Low(x), f.Error(EvenScale(p, x), Low(x), p.mad))
  }

  lemma InitialGood(p: Params, x: seq<real>, w: seq<real>)
    requires Searchable(p, x, w)
    ensures Good(p, x, w, Initial(p, x, w))
  {
    hide EvenStep, EvenScale, Sum, Code, ErrorTerm;
  }

  ghost function First(p: Params, x: seq<real>, w: seq<real>): (s: State)
    requires Searchable(p, x, w)
    ensures Good(p, x, w, s)
  {
    InitialGood(p, x, w);
    Initial(p, x, w)
  }

  ghost function Next(p: Params, x: seq<real>, w: seq<real>, k: nat, s: State): (r: State)
    requires Searchable(p, x, w) && Good(p, x, w, s) && p.Step(k) >= 0.0
    ensures Good(p, x, w, r) && r.best <= s.best
  {
    TryKeepsGood(p, x, w, k, s);
    Try(p, x, w, k, s)
  }

  /** The state after k steps. */
  ghost function Run(p: Params, x: seq<real>, w: seq<real>, k: nat): (s: State)
    requires Searchable(p, x, w) && p.Valid(k - 1)
    ensures Good(p, x, w, s)
    ensures k > 0 ==> s.best <= Run(p, x, w, k - 1).best
  {
    if k == 0 then First(p, x, w) else Next(p, x, w, k - 1, Run(p, x, w, k - 1))
  }

  // ---- what the result means ---------------------------------------------------------------

  /** Half the distance between two codes of the even division. */
  function HalfStep(p: Params, x: seq<real>): (r: real)
    requires |x| > 0 && Low(x) < High(x) && p.nmax > 0
    ensures r >= 0.0
  {
    Quotient(High(x) - Low(x), (2 * p.nmax) as real);
    (High(x) - Low(x)) / (2 * p.nmax) as real
  }

  /** How the even division's constants belong together. */
  predicate Even(range: real, nmax: nat, iscale: real, scale: real, half: real) {
    iscale * range == nmax as real && scale * iscale == 1.0 && half * (2 * nmax) as real == range
  }

  lemma EvenConstants(p: Params, x: seq<real>)
    requires |x| > 0 && Low(x) < High(x) && p.nmax > 0
    ensures Even(High(x) - Low(x), p.nmax, EvenStep(p, x), EvenScale(p, x), HalfStep(p, x))
  {
    hide Low, High;
    Divided(p.nmax as real, High(x) - Low(x));
    Divided(1.0, EvenStep(p, x));
    Divided(High(x) - Low(x), (2 * p.nmax) as real);
  }

  lemma EvenScaleIsTwoHalves(range: real, nmax: nat, iscale: real, scale: real, half: real)
    requires nmax > 0 && iscale * range == nmax as real && scale * iscale == 1.0 && half * (2 * nmax) as real == range
    ensures scale == 2.0 * half
  {
    assert scale * nmax as real == range by {
      assert scale * (iscale * range) == scale * iscale * range;
    }
    Cancel(nmax as real, scale, 2.0 * half);
  }

  lemma EvenRange(d: real, range: real, nmax: nat, iscale: real, scale: real, u: real)
    requires 0.0 <= d <= range && iscale > 0.0 && iscale * range == nmax as real && scale * iscale == 1.0
    requires u == iscale * d
    ensures 0.0 <= u <= nmax as real && scale * u == d
  {
    ScaledOrder(iscale, 0.0, d);
    ScaledOrder(iscale, d, range);
    assert scale * (iscale * d) == scale * iscale * d;
  }

  lemma HalfMiss(scale: real, half: real, l: real, u: real)
    requires scale == 2.0 * half && half >= 0.0 && -0.5 <= l - u <= 0.5
    ensures -half <= scale * l - scale * u <= half
  {
    var a, b := l - u + 0.5, 0.5 - (l - u);
    NonNegativeProduct(half, a);
    NonNegativeProduct(half, b);
    assert half * a == half * l - half * u + 0.5 * half;
    assert half * b == half * u - half * l + 0.5 * half;
    assert scale * l == 2.0 * (half * l);
    assert scale * u == 2.0 * (half * u);
  }

  lemma EvenCode(x: real, min: real, range: real, nmax: nat, iscale: real, scale: real, half: real)
    requires min <= x <= min + range && nmax > 0 && iscale > 0.0 && half >= 0.0
    requires Even(range, nmax, iscale, scale, half)
    ensures -half <= Miss(x, Code(x, iscale, min, nmax) as real, scale, min) <= half
  {
    var u := iscale * (x - min);
    EvenRange(x - min, range, nmax, iscale, scale, u);
    EvenScaleIsTwoHalves(range, nmax, iscale, scale, half);
    NearestIntOfInt(0, u);
    NearestIntOfInt(nmax, u);
    NearestIntError(u);
    HalfMiss(scale, half, NearestInt(u) as real, u);
  }

  lemma InitialMisses(p: Params, x: seq<real>, codes: seq<int>, i: nat)
    requires |x| > 0 && Low(x) < High(x) && p.nmax > 0 && codes == Codes(x, EvenStep(p, x), Low(x), p.nmax) && i < |x|
    ensures -HalfStep(p, x) <= Miss(x[i], codes[i] as real, EvenScale(p, x), Low(x)) <= HalfStep(p, x)
  {
    EvenConstants(p, x);
    hide Miss, Code, EvenStep, EvenScale, HalfStep, Even;
    EvenCode(x[i], Low(x), High(x) - Low(x), p.nmax, EvenStep(p, x), EvenScale(p, x), HalfStep(p, x));
  }

  lemma InitialBest(p: Params, x: seq<real>, w: seq<real>)
    requires Searchable(p, x, w)
    ensures Initial(p, x, w).best
         == Sum(FitOf(w, x, Codes(x, EvenStep(p, x), Low(x), p.nmax)).Errors(EvenScale(p, x), Low(x), p.mad), |w|)
  {
    hide Sum, Code, ErrorTerm, EvenScale, EvenStep;
  }

  lemma InitialWithin(p: Params, x: seq<real>, w: seq<real>)
    requires Searchable(p, x, w)
    ensures Within(FitOf(w, x, Codes(x, EvenStep(p, x), Low(x), p.nmax)), EvenScale(p, x), Low(x), HalfStep(p, x))
  {
    hide Miss, Code, EvenStep, EvenScale, HalfStep;
    var codes := Codes(x, EvenStep(p, x), Low(x), p.nmax);
    forall i | 0 <= i < |w|
      ensures -HalfStep(p, x) <= Miss(x[i], codes[i] as real, EvenScale(p, x), Low(x)) <= HalfStep(p, x)
    {
      InitialMisses(p, x, codes, i);
    }
  }

  /** The error of the even division. */
  lemma InitialErrorBound(p: Params, x: seq<real>, w: seq<real>)
    requires Searchable(p, x, w)
    ensures Initial(p, x, w).best <= ErrorLimit(Sum(w, |w|), HalfStep(p, x), p.mad)
  {
    InitialBest(p, x, w);
    InitialWithin(p, x, w);
    var f := FitOf(w, x, Codes(x, EvenStep(p, x), Low(x), p.nmax));
    assert f.Sized() && f.w == w && NonNegative(w);
    hide *;
    ErrorBound(f, EvenScale(p, x), Low(x), p.mad, HalfStep(p, x), |w|);
  }

  lemma RunStep(p: Params, x: seq<real>, w: seq<real>, k: nat)
    requires Searchable(p, x, w) && p.Valid(k - 1) && k > 0
    ensures |x| == |w| > 0 && p.Valid(k - 2) && Run(p, x, w, k - 1).min < High(x)
    ensures Run(p, x, w, k) == Try(p, x, w, k - 1, Run(p, x, w, k - 1))
  {
    hide Try, Initial, Fit.Error, FitOf, Params.Step, NonNegative, Low, High;
  }

  lemma RunStart(p: Params, x: seq<real>, w: seq<real>)
    requires Searchable(p, x, w) && p.Valid(-1)
    ensures Run(p, x, w, 0) == Initial(p, x, w)
  {
    hide Try, Initial, Fit.Error, FitOf, Params.Step, NonNegative, Low, High;
  }

  /** The search only improves on the even division. */
  lemma {:induction false} RunErrorBound(p: Params, x: seq<real>, w: seq<real>, k: nat)
    requires Searchable(p, x, w) && p.Valid(k - 1)
    ensures Run(p, x, w, k).best <= ErrorLimit(Sum(w, |w|), HalfStep(p, x), p.mad)
  {
    hide *;
    if k == 0 {
      InitialErrorBound(p, x, w);
      RunStart(p, x, w);
    } else {
      RunStep(p, x, w, k);
      RunErrorBound(p, x, w, k - 1);
    }
  }

  lemma TryAtMostTried(p: Params, x: seq<real>, w: seq<real>, k: nat, s: State)
    requires |x| == |w| > 0 && s.min < High(x)
    requires FitOf(w, x, TriedCodes(p, x, s.min, k)).Det(|w|) > 0.0
    ensures var f := FitOf(w, x, TriedCodes(p, x, s.min, k));
      Try(p, x, w, k, s).best <= f.Error(FitLine(f).0, FitLine(f).1, p.mad)
  {
    hide Fit.Det, Fit.Error, FitLine, TriedCodes;
  }

  /** No candidate line that was tried beats the result. */
  lemma {:induction false} RunIsBestTried(p: Params, x: seq<real>, w: seq<real>, j: nat, k: nat)
    requires Searchable(p, x, w) && p.Valid(k - 1) && j < k
    requires FitOf(w, x, TriedCodes(p, x, Run(p, x, w, j).min, j)).Det(|w|) > 0.0
    ensures var f := FitOf(w, x, TriedCodes(p, x, Run(p, x, w, j).min, j));
      Run(p, x, w, k).best <= f.Error(FitLine(f).0, FitLine(f).1, p.mad)
    decreases k
  {
    hide *;
    RunStep(p, x, w, k);
    if j == k - 1 {
      TryAtMostTried(p, x, w, j, Run(p, x, w, j));
    } else {
      RunIsBestTried(p, x, w, j, k - 1);
    }
  }

  /** A step that does not lower the error leaves the state as it is. */
  lemma ChangeIsProgress(p: Params, x: seq<real>, w: seq<real>, k: nat)
    requires Searchable(p, x, w) && p.Valid(k - 1) && k > 0
    ensures p.Valid(k - 2)
    ensures Run(p, x, w, k) == Run(p, x, w, k - 1) || Run(p, x, w, k).best < Run(p, x, w, k - 1).best
  {
    RunStep(p, x, w, k);
    hide Run, FitLine, Fit.Error, Fit.Det, TriedCodes, Params.Step;
  }

  /** Expansion of the squared error around one point. */
  lemma QuadraticAround(a: real, b: real, a0: real, b0: real, ll: real, s: real, t: real, xl: real, x: real, xx: real)
    ensures Quadratic(a, b, ll, s, t, xl, x, xx) - Quadratic(a0, b0, ll, s, t, xl, x, xx)
         == ((a - a0) * (a - a0) * ll + 2.0 * (a - a0) * (b - b0) * s + (b - b0) * (b - b0) * t)
            + 2.0 * (a - a0) * (ll * a0 + s * b0 - xl) + 2.0 * (b - b0) * (s * a0 + t * b0 - x)
  {
  }

  lemma CompleteSquare(u: real, v: real, ll: real, s: real, t: real, q: real, m: real)
    requires q == u * u * ll + 2.0 * u * v * s + v * v * t && m == t * ll - s * s
    ensures t * q == Square(t * v + s * u) + m * Square(u)
  {
    var a, b := t * v, s * u;
    assert Square(a + b) == a * a + 2.0 * a * b + b * b;
    assert m * Square(u) == t * (u * u * ll) - b * b;
    assert t * (2.0 * u * v * s) == 2.0 * a * b;
    assert t * (v * v * t) == a * a;
  }

  lemma FormNonNegative(u: real, v: real, ll: real, s: real, t: real)
    requires t > 0.0 && Minor(t, ll, s, s) > 0.0
    ensures u * u * ll + 2.0 * u * v * s + v * v * t >= 0.0
  {
    var q, m := u * u * ll + 2.0 * u * v * s + v * v * t, Minor(t, ll, s, s);
    CompleteSquare(u, v, ll, s, t, q, m);
    assert m * Square(u) >= 0.0;
    if q < 0.0 { assert false; }
  }

  lemma NormalEquations(t: real, x: real, s: real, ll: real, xl: real, d: real, a: real, b: real)
    requires d > 0.0 && d == Minor(t, ll, s, s) && d * a == Minor(t, xl, x, s) && d * b == Minor(ll, x, s, xl)
    ensures ll * a + s * b - xl == 0.0 && s * a + t * b - x == 0.0
  {
    assert d * (ll * a + s * b) == ll * (d * a) + s * (d * b);
    assert ll * Minor(t, xl, x, s) + s * Minor(ll, x, s, xl) == d * xl;
    Cancel(d, ll * a + s * b, xl);
    assert d * (s * a + t * b) == s * (d * a) + t * (d * b);
    assert s * Minor(t, xl, x, s) + t * Minor(ll, x, s, xl) == d * x;
    Cancel(d, s * a + t * b, x);
  }

  lemma ClampedGradient(t: real, x: real, s: real, ll: real, xl: real, a: real)
    requires ll > 0.0 && ll * a == xl && Minor(ll, x, s, xl) > 0.0
    ensures s * a - x < 0.0
  {
    assert ll * (s * a - x) == s * (ll * a) - ll * x;
    if s * a - x >= 0.0 {
      NonNegativeProduct(ll, s * a - x);
      assert false;
    }
  }

  /** No line with an offset that is not positive does better; none at all when the offset was not clamped. */
  lemma LineIsLeast(t: real, x: real, s: real, ll: real, xl: real, xx: real, a: real, b: real)
    requires t >= 0.0 && Minor(t, ll, s, s) > 0.0 && (b <= 0.0 || Line(t, x, s, ll, xl).1 < 0.0)
    ensures Quadratic(Line(t, x, s, ll, xl).0, Line(t, x, s, ll, xl).1, ll, s, t, xl, x, xx)
         <= Quadratic(a, b, ll, s, t, xl, x, xx)
  {
    SquareSumPositive(t, ll, s);
    var d := Minor(t, ll, s, s);
    var (a0, b0) := Line(t, x, s, ll, xl);
    Quotient(Minor(ll, x, s, xl), d);
    QuadraticAround(a, b, a0, b0, ll, s, t, xl, x, xx);
    FormNonNegative(a - a0, b - b0, ll, s, t);
    if Minor(ll, x, s, xl) / d > 0.0 {
      Divided(xl, ll);
      ClampedGradient(t, x, s, ll, xl, a0);
      assert ll * a0 + s * b0 - xl == 0.0;
      NonNegativeProduct(-b, -(s * a0 - x));
      assert (b - b0) * (s * a0 + t * b0 - x) == -b * -(s * a0 - x);
    } else {
      Divided(Minor(ll, x, s, xl), d);
      Divided(Minor(t, xl, x, s), d);
      NormalEquations(t, x, s, ll, xl, d, a0, b0);
    }
  }

  /** The fitted line is the least-squares line of its codes among all lines whose offset is not positive. */
  lemma FitLineIsOptimal(f: Fit, a: real, b: real)
    requires f.Sized() && NonNegative(f.w) && f.Det(|f.w|) > 0.0
    requires b <= 0.0 || FitLine(f).1 < 0.0
    ensures f.Error(FitLine(f).0, FitLine(f).1, false) <= f.Error(a, b, false)
  {
    var n := |f.w|;
    var (a0, b0) := FitLine(f);
    SquaredErrorQuadratic(f, a, b);
    SquaredErrorQuadratic(f, a0, b0);
    WeightsSum(f.w, n);
    hide Quadratic, Minor, Sum, Line, Fit.Error;
    LineIsLeast(f.SumW(n), f.SumX(n), f.SumL(n), f.SumLL(n), f.SumXL(n), f.SumXX(n), a, b);
  }

  lemma {:induction false} WeightsSum(w: seq<real>, n: nat)
    requires NonNegative(w) && n <= |w|
    ensures Sum(w, n) >= 0.0
  {
    if n > 0 { WeightsSum(w, n - 1); }
  }

  /** With squared errors, once a candidate was taken the result is the least-squares line of its codes. */
  lemma {:induction false} RunIsFitted(p: Params, x: seq<real>, w: seq<real>, k: nat)
    requires Searchable(p, x, w) && p.Valid(k - 1)
    ensures var s := Run(p, x, w, k);
      || s == Initial(p, x, w)
      || (FitOf(w, x, s.codes).Det(|w|) > 0.0 && (s.scale, s.min) == FitLine(FitOf(w, x, s.codes)))
  {
    if k == 0 {
      RunStart(p, x, w);
    } else {
      RunStep(p, x, w, k);
      hide Run, Params.Step, Initial, Fit.Error, FitLine, Fit.Det, Codes;
      RunIsFitted(p, x, w, k - 1);
    }
  }

  lemma ResultIsLeastSquares(p: Params, x: seq<real>, w: seq<real>, k: nat, a: real, b: real)
    requires Searchable(p, x, w) && p.Valid(k - 1) && !p.mad && b <= 0.0
    requires Run(p, x, w, k) != Initial(p, x, w)
    ensures var codes := Run(p, x, w, k).codes;
      |codes| == |x| && Run(p, x, w, k).best <= FitOf(w, x, codes).Error(a, b, false)
  {
    RunIsFitted(p, x, w, k);
    hide Run, Initial, Fit.Error, FitLine, Fit.Det, Params.Step, Low, High;
    FitLineIsOptimal(FitOf(w, x, Run(p, x, w, k).codes), a, b);
  }

  /** Each code is that of the distance to min in steps of which iscale make up one. */
  ghost predicate CodedBy(x: seq<real>, iscale: real, min: real, nmax: nat, codes: seq<int>) {
    |codes| == |x| && forall i :: 0 <= i < |x| ==> IsCode(x[i], iscale, min, nmax, codes[i])
  }

  ghost predicate IsCode(x: real, iscale: real, min: real, nmax: nat, code: int) {
    code == Clamp(NearestInt(iscale * (x - min)), nmax)
  }

  lemma CodeIs(x: real, iscale: real, min: real, nmax: nat, code: int)
    requires IsCode(x, iscale, min, nmax, code)
    ensures code == Code(x, iscale, min, nmax)
  {
  }

  lemma SameQuotient(a: real, b: real, d: real, q: real)
    requires a == b && d != 0.0 && q == b / d
    ensures q == a / d
  {
  }

  lemma CodedAreTried(p: Params, x: seq<real>, min: real, max: real, j: nat, iscale: real, codes: seq<int>)
    requires |x| > 0 && min < High(x) && max == High(x) && CodedBy(x, iscale, min, p.nmax, codes)
    requires iscale == (p.rmin + p.rdelta * j as real + p.nmax as real) / (max - min)
    ensures codes == TriedCodes(p, x, min, j)
  {
    hide IsCode, High, Code;
    forall i | 0 <= i < |x|
      ensures codes[i] == Codes(x, iscale, min, p.nmax)[i]
    {
      CodeIs(x[i], iscale, min, p.nmax, codes[i]);
    }
    assert codes == Codes(x, iscale, min, p.nmax);
    SameQuotient(p.Step(j), p.rmin + p.rdelta * j as real + p.nmax as real, max - min, iscale);
  }

  /**
   Whatever step j tries, a division of what is left above the offset so far, with its least-squares line: the result is
   at least as good, and with squared errors at least as good as every line with an offset that is not positive.
   */
  lemma ResultBeatsStep(p: Params, x: seq<real>, w: seq<real>, j: nat, k: nat, max: real, iscale: real, codes: seq<int>,
                        a: real, b: real)
    requires Searchable(p, x, w) && p.Valid(k - 1) && j < k && p.Valid(j - 1)
    requires max in x && (forall i :: 0 <= i < |x| ==> x[i] <= max)
    requires var min := Run(p, x, w, j).min;
      && max - min > 0.0 && iscale == (p.rmin + p.rdelta * j as real + p.nmax as real) / (max - min)
      && CodedBy(x, iscale, min, p.nmax, codes)
    requires FitOf(w, x, codes).Det(|w|) > 0.0
    ensures var f := FitOf(w, x, codes); Run(p, x, w, k).best <= f.Error(FitLine(f).0, FitLine(f).1, p.mad)
    ensures !p.mad && b <= 0.0 ==> Run(p, x, w, k).best <= FitOf(w, x, codes).Error(a, b, false)
  {
    hide Run, Params.Step, FitLine, Fit.Error, Fit.Det, Low, CodedBy;
    assert max == High(x);
    CodedAreTried(p, x, Run(p, x, w, j).min, max, j, iscale, codes);
    RunIsBestTried(p, x, w, j, k);
    if !p.mad && b <= 0.0 { FitLineIsOptimal(FitOf(w, x, codes), a, b); }
  }

  lemma {:induction false} ZeroErrors(e: seq<real>, n: nat)
    requires n <= |e| && forall i :: 0 <= i < n ==> e[i] == 0.0
    ensures Sum(e, n) == 0.0
  {
    if n > 0 { ZeroErrors(e, n - 1); }
  }

  /** The early return loses nothing: a block without range is one repeated value, and zero codes reproduce it. */
  lemma FlatBlockIsExact(x: seq<real>, w: seq<real>, codes: seq<int>, mad: bool)
    requires |x| == |w| == |codes| > 0 && Low(x) == High(x)
    requires forall i :: 0 <= i < |codes| ==> codes[i] == 0
    ensures FitOf(w, x, codes).Error(0.0, Low(x), mad) == 0.0
  {
    var e := FitOf(w, x, codes).Errors(0.0, Low(x), mad);
    forall i | 0 <= i < |x|
      ensures e[i] == 0.0
    {
      assert x[i] == Low(x);
    }
    ZeroErrors(e, |x|);
  }

  // ---- the loops -------------------------------------------------------------------------------

  lemma TermValue(w: real, x: real, l: real, scale: real, min: real, mad: bool, diff: real)
    requires diff == scale * l + min - x
    ensures ErrorTerm(w, x, l, scale, min, mad) == w * (if mad then Abs(diff) else diff * diff)
  {
  }

  lemma ErrorAfter(f: Fit, scale: real, min: real, mad: bool, n: nat, w: real, x: real, l: real, miss: real, loss: real,
                   error: real)
    requires f.Sized() && 0 < n <= |f.w| && w == f.w[n - 1] && x == f.x[n - 1] && l == f.l[n - 1]
    requires miss == scale * l + min - x && loss == (if mad then Abs(miss) else miss * miss)
    requires error == Sum(f.Errors(scale, min, mad), n - 1) + w * loss
    ensures error == Sum(f.Errors(scale, min, mad), n)
  {
    hide Sum, Fit.Errors, ErrorTerm, Abs;
    TermValue(w, x, l, scale, min, mad, miss);
    ErrorStep(f, scale, min, mad, n, w, x, l);
    var term := ErrorTerm(w, x, l, scale, min, mad);
    if mad {
      assert term == w * loss;
    } else {
      assert term == w * loss;
    }
  }

  lemma ExtremesStep(x: seq<real>, i: nat)
    requires 0 < i < |x|
    ensures Least(x, i + 1) == if x[i] < Least(x, i) then x[i] else Least(x, i)
    ensures Most(x, i + 1) == if x[i] > Most(x, i) then x[i] else Most(x, i)
  {
  }

  lemma ExtremesStart(x: seq<real>, w: seq<real>)
    requires |x| == |w| > 0
    ensures Least(x, 1) == x[0] && Most(x, 1) == x[0]
    ensures Sum(w, 1) == w[0] && Sum(Prod(w, x), 1) == w[0] * x[0]
  {
    hide Prod;
    SumStep(w, 1);
    SumStep(Prod(w, x), 1);
  }

  method Extremes(x: seq<real>, w: seq<real>) returns (min: real, max: real, sumW: real, sumX: real)
    requires |x| == |w| > 0
    ensures min == Least(x, |x|) && max == Most(x, |x|)
    ensures sumW == Sum(w, |w|) && sumX == Sum(Prod(w, x), |w|)
  {
    hide *;
    min, max, sumW := x[0], x[0], w[0];
    sumX := sumW * x[0];
    ExtremesStart(x, w);
    var i := 1;
    while i < |x|
      invariant 1 <= i <= |x|
      invariant min == Least(x, i) && max == Most(x, i)
      invariant sumW == Sum(w, i) && sumX == Sum(Prod(w, x), i)
    {
      if x[i] < min { min := x[i]; }
      if x[i] > max { max := x[i]; }
      ExtremesStep(x, i);
      SumStep(w, i + 1);
      SumStep(Prod(w, x), i + 1);
      sumW := sumW + w[i];
      sumX := sumX + w[i] * x[i];
      i := i + 1;
    }
  }

  /** Divides the range evenly and measures the error on the way. */
  method DivideEvenly(x: seq<real>, w: seq<real>, iscale: real, scale: real, min: real, nmax: nat, mad: bool,
                      L: array<int>)
    returns (error: real)
    requires |x| == |w| == L.Length
    modifies L
    ensures L[..] == Codes(x, iscale, min, nmax)
    ensures error == FitOf(w, x, Codes(x, iscale, min, nmax)).Error(scale, min, mad)
  {
    hide ErrorTerm, Fit.Errors, NearestInt, Clamp;
    ghost var codes := Codes(x, iscale, min, nmax);
    ghost var f := FitOf(w, x, codes);
    error := 0.0;
    var i := 0;
    while i < |x|
      invariant 0 <= i <= |x|
      invariant L[..i] == codes[..i]
      invariant error == Sum(f.Errors(scale, min, mad), i)
    {
      var l := NearestInt(iscale * (x[i] - min));
      L[i] := Clamp(l, nmax);
      var diff := scale * L[i] as real + min - x[i];
      ghost var miss := diff;
      diff := if mad then Abs(diff) else diff * diff;
      error := error + w[i] * diff;
      ErrorAfter(f, scale, min, mad, i + 1, w[i], x[i], L[i] as real, miss, diff, error);
      i := i + 1;
    }
    assert L[..] == L[..i];
  }

  lemma SumsStart(f: Fit)
    requires f.Sized()
    ensures f.SumL(0) == 0.0 && f.SumLL(0) == 0.0 && f.SumXL(0) == 0.0
  {
  }

  lemma SumsAre(f: Fit, n: nat, w: real, x: real, l: real, sumL: real, sumL2: real, sumXl: real)
    requires f.Sized() && 0 < n <= |f.w| && w == f.w[n - 1] && x == f.x[n - 1] && l == f.l[n - 1]
    requires sumL == f.SumL(n - 1) + w * l
    requires sumL2 == f.SumLL(n - 1) + w * l * l
    requires sumXl == f.SumXL(n - 1) + w * l * x
    ensures sumL == f.SumL(n) && sumL2 == f.SumLL(n) && sumXl == f.SumXL(n)
  {
    SumsStep(f, n, w, x, l);
    hide Fit.SumL, Fit.SumLL, Fit.SumXL;
  }

  method CodesAndSums(x: seq<real>, w: seq<real>, iscale: real, min: real, nmax: nat, L: array<int>)
    returns (sumL: real, sumL2: real, sumXl: real)
    requires |x| == |w| == L.Length
    modifies L
    ensures L[..] == Codes(x, iscale, min, nmax)
    ensures var f := FitOf(w, x, Codes(x, iscale, min, nmax));
      sumL == f.SumL(|w|) && sumL2 == f.SumLL(|w|) && sumXl == f.SumXL(|w|)
  {
    hide NearestInt, Clamp, Sum, Prod, Codes, Fit.SumL, Fit.SumLL, Fit.SumXL, Reals;
    ghost var codes := Codes(x, iscale, min, nmax);
    ghost var f := FitOf(w, x, codes);
    SumsStart(f);
    sumL, sumL2, sumXl := 0.0, 0.0, 0.0;
    var i := 0;
    while i < |x|
      invariant 0 <= i <= |x|
      invariant L[..i] == codes[..i]
      invariant sumL == f.SumL(i) && sumL2 == f.SumLL(i) && sumXl == f.SumXL(i)
    {
      var l := Clamp(NearestInt(iscale * (x[i] - min)), nmax);
      L[i] := l;
      sumL := sumL + w[i] * l as real;
      sumL2 := sumL2 + w[i] * l as real * l as real;
      sumXl := sumXl + w[i] * l as real * x[i];
      SumsAre(f, i + 1, w[i], x[i], l as real, sumL, sumL2, sumXl);
      i := i + 1;
    }
    assert L[..] == L[..i];
  }

  method ErrorOf(x: seq<real>, w: seq<real>, L: array<int>, scale: real, min: real, mad: bool) returns (error: real)
    requires |x| == |w| == L.Length
    ensures error == FitOf(w, x, L[..]).Error(scale, min, mad)
  {
    hide ErrorTerm, Fit.Errors;
    ghost var f := FitOf(w, x, L[..]);
    error := 0.0;
    var i := 0;
    while i < |x|
      invariant 0 <= i <= |x|
      invariant error == Sum(f.Errors(scale, min, mad), i)
    {
      var diff := scale * L[i] as real + min - x[i];
      ghost var miss := diff;
      diff := if mad then Abs(diff) else diff * diff;
      error := error + w[i] * diff;
      ErrorAfter(f, scale, min, mad, i + 1, w[i], x[i], L[i] as real, miss, diff, error);
      i := i + 1;
    }
  }

  method CopyCodes(from: array<int>, to: array<int>)
    requires from.Length == to.Length
    modifies to
    ensures to[..] == old(from[..])
  {
    var i := 0;
    while i < from.Length
      invariant 0 <= i <= from.Length
      invariant forall j :: 0 <= j < i ==> to[j] == old(from[j])
      invariant from != to ==> from[..] == old(from[..])
      invariant forall j :: i <= j < from.Length ==> from[j] == old(from[j])
    {
      to[i] := from[i];
      i := i + 1;
    }
  }

  /** ds4q_make_qkx2_quants; L receives the codes and Laux is scratch. */
  method MakeQkx2Quants(p: Params, x: seq<real>, w: seq<real>, nstep: int, L: array<int>, Laux: array<int>)
    returns (scale: real, theMin: real)
    requires |x| == |w| == L.Length == Laux.Length && |x| > 0 && L != Laux
    requires NonNegative(w) && p.Valid(nstep)
    modifies L, Laux
    ensures scale >= 0.0 && theMin >= 0.0
    ensures forall i :: 0 <= i < |x| ==> 0 <= L[i] <= p.nmax
    ensures Low(x) == High(x) ==> scale == 0.0 && theMin == -Low(x) && forall i :: 0 <= i < |x| ==> L[i] == 0
    ensures Low(x) == High(x) ==> FitOf(w, x, L[..]).Error(scale, -theMin, p.mad) == 0.0
    ensures Low(x) < High(x) ==>
      FitOf(w, x, L[..]).Error(scale, -theMin, p.mad) <= ErrorLimit(Sum(w, |w|), HalfStep(p, x), p.mad)
    ensures Low(x) < High(x) ==>
      && Searchable(p, x, w)
      && p.Valid((if nstep < 1 then 0 else nstep + 1) - 1)
      && var s := Run(p, x, w, if nstep < 1 then 0 else nstep + 1);
         L[..] == s.codes && scale == s.scale && theMin == -s.min
  {
    hide Fit.Error, Sum, ErrorLimit, HalfStep, Run, Params.Step;
    var min, max, sumW, sumX := Extremes(x, w);
    if min > 0.0 { min := 0.0; }
    if max == min {
      forall i | 0 <= i < L.Length { L[i] := 0; }
      FlatBlockIsExact(x, w, L[..], p.mad);
      return 0.0, -min;
    }
    scale, min := SearchSteps(p, x, w, nstep, min, max, sumW, sumX, L, Laux);
    theMin := -min;
    RunErrorBound(p, x, w, if nstep < 1 then 0 else nstep + 1);
  }

  /** The part of ds4q_make_qkx2_quants behind its early return. */
  method SearchSteps(p: Params, x: seq<real>, w: seq<real>, nstep: int, low: real, max: real, sumW: real, sumX: real,
                     L: array<int>, Laux: array<int>)
    returns (scale: real, min: real)
    requires |x| == |w| == L.Length == Laux.Length && L != Laux
    requires Searchable(p, x, w) && p.Valid(nstep)
    requires low == Low(x) && max == High(x) && sumW == Sum(w, |w|) && sumX == Sum(Prod(w, x), |w|)
    modifies L, Laux
    ensures var k := if nstep < 1 then 0 else nstep + 1;
      p.Valid(k - 1) && L[..] == Run(p, x, w, k).codes && scale == Run(p, x, w, k).scale && min == Run(p, x, w, k).min
  {
    hide Sum, Codes, Fit.Error, Run, Try, ErrorTerm, Params.Step, Low, High, NonNegative;
    min := low;
    var iscale := p.nmax as real / (max - min);
    scale := 1.0 / iscale;
    var best := DivideEvenly(x, w, iscale, scale, min, p.nmax, p.mad, L);
    RunStart(p, x, w);
    if nstep < 1 { return; }
    var k := 0;
    while k <= nstep
      invariant 0 <= k <= nstep + 1
      invariant State(L[..], scale, min, best) == Run(p, x, w, k)
    {
      best, scale, min := SearchStep(p, x, w, k, best, scale, min, max, sumW, sumX, L, Laux);
      RunStep(p, x, w, k + 1);
      k := k + 1;
    }
  }

  method SolveLine(sumW: real, sumX: real, sumL: real, sumL2: real, sumXl: real, d: real)
    returns (thisScale: real, thisMin: real)
    requires d == Minor(sumW, sumL2, sumL, sumL) && d > 0.0
    ensures (thisScale, thisMin) == Line(sumW, sumX, sumL, sumL2, sumXl)
  {
    assert Minor(sumL2, sumX, sumL, sumXl) == sumL2 * sumX - sumL * sumXl;
    assert Minor(sumW, sumXl, sumX, sumL) == sumW * sumXl - sumX * sumL;
    var det := Minor(sumW, sumL2, sumL, sumL);
    hide Minor;
    thisScale := (sumW * sumXl - sumX * sumL) / d;
    thisMin := (sumL2 * sumX - sumL * sumXl) / d;
    if thisMin > 0.0 {
      SquareSumPositive(sumW, sumL2, sumL);
      thisMin := 0.0;
      thisScale := sumXl / sumL2;
    }
  }

  method SearchStep(p: Params, x: seq<real>, w: seq<real>, k: nat, best0: real, scale0: real, min0: real,
                    max: real, sumW: real, sumX: real, L: array<int>, Laux: array<int>)
    returns (best: real, scale: real, min: real)
    requires |x| == |w| == L.Length == Laux.Length && |x| > 0 && L != Laux
    requires min0 < max && max == High(x) && sumW == Sum(w, |w|) && sumX == Sum(Prod(w, x), |w|)
    modifies L, Laux
    ensures State(L[..], scale, min, best) == Try(p, x, w, k, State(old(L[..]), scale0, min0, best0))
  {
    hide Sum, Codes, Fit.Error, High, Prod, Line, Reals;
    best, scale, min := best0, scale0, min0;
    var step := p.rmin + p.rdelta * k as real + p.nmax as real;
    assert step == p.Step(k);
    hide Params.Step;
    var iscale := step / (max - min);
    assert Codes(x, iscale, min, p.nmax) == TriedCodes(p, x, min, k);
    var sumL, sumL2, sumXl := CodesAndSums(x, w, iscale, min, p.nmax, Laux);
    var d := sumW * sumL2 - sumL * sumL;
    ghost var f := FitOf(w, x, TriedCodes(p, x, min, k));
    assert d == f.Det(|w|);
    hide Minor;
    if d > 0.0 {
      var thisScale, thisMin := SolveLine(sumW, sumX, sumL, sumL2, sumXl, d);
      assert (thisScale, thisMin) == FitLine(f);
      var error := ErrorOf(x, w, Laux, thisScale, thisMin, p.mad);
      assert error == f.Error(thisScale, thisMin, p.mad);
      if error < best {
        CopyCodes(Laux, L);
        best := error;
        scale := thisScale;
        min := thisMin;
      }
    }
  }

  /** The default weights of ds4q_make_qkx3_quants. */
  function WeightsOf(x: seq<real>, weights: Option<seq<real>>): (w: seq<real>)
    requires weights.Some? ==> |weights.value| == |x|
    ensures |w| == |x|
    ensures weights.None? ==> NonNegative(w) && forall i :: 0 <= i < |x| ==> w[i] == x[i] * x[i]
    ensures weights.Some? ==> w == weights.value
  {
    match weights
    case Some(given) => given
    case None => seq(|x|, i requires 0 <= i < |x| => Square(x[i]))
  }

  /** ds4q_make_qkx3_quants; its test max <= min is max == min, since min is never above max. */
  method MakeQkx3Quants(p: Params, x: seq<real>, weights: Option<seq<real>>, nstep: int, L: array<int>,
                        Laux: array<int>)
    returns (scale: real, theMin: real)
    requires |x| == L.Length == Laux.Length && |x| > 0 && L != Laux
    requires weights.Some? ==> |weights.value| == |x| && NonNegative(weights.value)
    requires p.Valid(nstep)
    modifies L, Laux
    ensures scale >= 0.0 && theMin >= 0.0
    ensures forall i :: 0 <= i < |x| ==> 0 <= L[i] <= p.nmax
    ensures var w := WeightsOf(x, weights);
      FitOf(w, x, L[..]).Error(scale, -theMin, p.mad)
        <= if Low(x) < High(x) then ErrorLimit(Sum(w, |w|), HalfStep(p, x), p.mad) else 0.0
    ensures Low(x) == High(x) ==> scale == 0.0 && theMin == -Low(x) && forall i :: 0 <= i < |x| ==> L[i] == 0
    ensures Low(x) < High(x) ==>
      var w := WeightsOf(x, weights);
      && Searchable(p, x, w)
      && p.Valid((if nstep < 1 then 0 else nstep + 1) - 1)
      && var s := Run(p, x, w, if nstep < 1 then 0 else nstep + 1);
         L[..] == s.codes && scale == s.scale && theMin == -s.min
  {
    hide Fit.Error, ErrorLimit, HalfStep, Params.Step, WeightsOf, Low, Run, Sum;
    scale, theMin := MakeQkx2Quants(p, x, WeightsOf(x, weights), nstep, L, Laux);
  }
}
