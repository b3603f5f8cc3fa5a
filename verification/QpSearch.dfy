/**
 The scale search by coordinate descent, gguf-tools/quants.c:265-329. Arithmetic is over reals; codes are
 stored in bytes, so a code outside 0..255 wraps.
 */
module QpSearch {
  import opened WeightedFit

  const EPS: real := 0.000000000000001
  const TRIES: nat := 5

  /** What storing an int in a uint8_t leaves. */
  function Byte(l: int): (r: nat)
    ensures r <= 255
    ensures 0 <= l <= 255 ==> r == l
  {
    l % 256
  }

  function Min(a: int, b: int): int {
    if a < b then a else b
  }

  /** The largest value, but at least zero. */
  function Top(x: seq<real>, n: nat): (r: real)
    requires n <= |x|
    ensures r >= 0.0 && forall i :: 0 <= i < n ==> x[i] <= r
  {
    if n == 0 then 0.0 else if Top(x, n - 1) > x[n - 1] then Top(x, n - 1) else x[n - 1]
  }

  lemma {:induction false} TopIs(x: seq<real>, n: nat)
    requires n <= |x|
    ensures Top(x, n) == 0.0 || exists i :: 0 <= i < n && Top(x, n) == x[i]
  {
    if n > 0 { TopIs(x, n - 1); }
  }

  lemma TopIsMax(x: seq<real>, max: real)
    requires max in x && max > 0.0 && forall i :: 0 <= i < |x| ==> x[i] <= max
    ensures Top(x, |x|) == max
  {
    TopIs(x, |x|);
    hide Top;
    var i :| 0 <= i < |x| && x[i] == max;
  }

  /** No value reaches 1e-15. */
  ghost predicate Tiny(x: seq<real>)
    ensures !Tiny(x) ==> Top(x, |x|) > 0.0
  {
    forall i :: 0 <= i < |x| ==> x[i] < 0.000000000000001
  }

  /** The code of x before it is stored. */
  function Code(x: real, iscale: real, nmax: nat): int {
    Min(nmax, NearestInt(iscale * x))
  }

  function Codes(x: seq<real>, iscale: real, nmax: nat): (r: seq<int>)
    ensures |r| == |x| && forall i :: 0 <= i < |x| ==> r[i] == Code(x[i], iscale, nmax)
  {
    seq(|x|, i requires 0 <= i < |x| => Code(x[i], iscale, nmax))
  }

  function Bytes(codes: seq<int>): (r: seq<int>)
    ensures |r| == |codes| && forall i :: 0 <= i < |codes| ==> r[i] == Byte(codes[i])
  {
    seq(|codes|, i requires 0 <= i < |codes| => Byte(codes[i]))
  }

  /** A code as the first pass stores it, without clamping. */
  function FirstCode(x: real, iscale: real): nat {
    Byte(NearestInt(iscale * x))
  }

  function FirstCodes(x: seq<real>, iscale: real): (r: seq<int>)
    ensures |r| == |x| && forall i :: 0 <= i < |x| ==> r[i] == FirstCode(x[i], iscale)
  {
    seq(|x|, i requires 0 <= i < |x| => FirstCode(x[i], iscale))
  }

  function FitOf(w: seq<real>, x: seq<real>, codes: seq<int>): (f: Fit)
    ensures |f.w| == |w| && |f.x| == |x| && |f.l| == |codes|
  {
    Fit(w, x, Reals(codes))
  }

  ghost predicate InRange(codes: seq<int>, nmax: nat) {
    forall i :: 0 <= i < |codes| ==> 0 <= codes[i] <= nmax
  }

  lemma StoredCode(x: real, iscale: real, nmax: nat)
    requires x >= 0.0 && iscale >= 0.0
    ensures 0 <= Code(x, iscale, nmax) <= nmax
  {
    NonNegativeProduct(iscale, x);
    NearestIntOfInt(0, iscale * x);
  }

  /** Nonnegative values: every code is in range and storing it loses nothing. */
  lemma CodesInRange(x: seq<real>, iscale: real, nmax: nat)
    requires NonNegative(x) && iscale >= 0.0 && nmax <= 255
    ensures InRange(Codes(x, iscale, nmax), nmax) && Bytes(Codes(x, iscale, nmax)) == Codes(x, iscale, nmax)
  {
    hide Code;
    forall i | 0 <= i < |x|
      ensures 0 <= Codes(x, iscale, nmax)[i] <= nmax
    {
      StoredCode(x[i], iscale, nmax);
    }
  }

  lemma CodeFits(x: real, iscale: real, nmax: nat)
    ensures 0 <= Code(x, iscale, nmax) <= nmax <==> iscale * x >= -0.5
  {
    var u := iscale * x;
    if u >= -0.5 {
      NearestIntMonotone(-0.5, u);
      assert NearestInt(-0.5) == 0;
    } else {
      NearestIntError(u);
    }
  }

  /** The codes stay in range and survive storing exactly when no scaled value is below minus one half. */
  lemma CodesFitExactly(x: seq<real>, iscale: real, nmax: nat)
    requires nmax <= 255
    ensures InRange(Codes(x, iscale, nmax), nmax) && Bytes(Codes(x, iscale, nmax)) == Codes(x, iscale, nmax)
       <==> forall i :: 0 <= i < |x| ==> iscale * x[i] >= -0.5
  {
    hide Code;
    var codes := Codes(x, iscale, nmax);
    forall i | 0 <= i < |x|
      ensures 0 <= codes[i] <= nmax <==> iscale * x[i] >= -0.5
    {
      CodeFits(x[i], iscale, nmax);
    }
    if InRange(codes, nmax) {
      assert Bytes(codes) == codes;
      forall i | 0 <= i < |x| ensures iscale * x[i] >= -0.5 { assert 0 <= codes[i] <= nmax; }
    }
  }

  /** A group of 32 with one value of minus one and the rest one: at the first step the code -4 is stored as 252. */
  lemma NegativeValueWraps(x: seq<real>)
    requires |x| == 32 && x[0] == -1.0 && forall i :: 1 <= i < 32 ==> x[i] == 1.0
    ensures Top(x, 32) == 1.0 && FirstStep(4, 1.0) == 4.0
    ensures FirstCodes(x, 4.0)[0] == Bytes(Codes(x, 4.0, 4))[0] == 252
  {
    OnesTop(x, 32);
    assert NearestInt(4.0 * -1.0) == -4;
    assert Codes(x, 4.0, 4)[0] == -4;
  }

  lemma {:induction false} OnesTop(x: seq<real>, n: nat)
    requires 2 <= n <= |x| && x[0] <= 1.0 && forall i :: 1 <= i < |x| ==> x[i] == 1.0
    ensures Top(x, n) == 1.0
  {
    if n == 2 {
      assert Top(x, 1) <= 1.0 by { assert Top(x, 0) == 0.0; }
    } else {
      OnesTop(x, n - 1);
    }
  }

  // ---- the best scale for given codes ---------------------------------------------------------

  /** sumlx / suml2, or zero when every weighted code is zero. */
  function Ratio(sumlx: real, suml2: real): real {
    if suml2 > 0.0 then sumlx / suml2 else 0.0
  }

  function ScaleOf(f: Fit): real
    requires f.Sized()
  {
    Ratio(f.SumXL(|f.w|), f.SumLL(|f.w|))
  }

  /** The least squared error that these codes can reach. */
  function OptimalError(f: Fit): real
    requires f.Sized()
  {
    f.Error(ScaleOf(f), 0.0, false)
  }

  /** The error as a function of the scale alone. */
  function Parabola(a: real, ll: real, xl: real, xx: real): real {
    a * a * ll - 2.0 * a * xl + xx
  }

  lemma ErrorIsParabola(f: Fit, a: real)
    requires f.Sized()
    ensures f.Error(a, 0.0, false) == Parabola(a, f.SumLL(|f.w|), f.SumXL(|f.w|), f.SumXX(|f.w|))
  {
    SquaredErrorQuadratic(f, a, 0.0);
    QuadraticFlat(a, f.SumLL(|f.w|), f.SumL(|f.w|), f.SumW(|f.w|), f.SumXL(|f.w|), f.SumX(|f.w|), f.SumXX(|f.w|));
  }

  lemma QuadraticFlat(a: real, ll: real, s: real, t: real, xl: real, x: real, xx: real)
    ensures Quadratic(a, 0.0, ll, s, t, xl, x, xx) == Parabola(a, ll, xl, xx)
  {
  }

  /** Codes without weight carry no covariance either. */
  lemma {:induction false} NoWeightNoCovariance(f: Fit, n: nat)
    requires f.Sized() && NonNegative(f.w) && n <= |f.w|
    ensures f.SumLL(n) >= 0.0
    ensures f.SumLL(n) == 0.0 ==> f.SumXL(n) == 0.0
  {
    if n == 0 {
    } else {
      NoWeightNoCovariance(f, n - 1);
      var w, x, l := f.w[n - 1], f.x[n - 1], f.l[n - 1];
      assert w >= 0.0;
      SumsStep(f, n, w, x, l);
      WeightlessTerm(w, x, l);
      hide *;
      assert f.SumLL(n) == 0.0 ==> w * l * l == 0.0;
    }
  }

  lemma PositiveTerm(w: real, l: real)
    requires w > 0.0 && l > 0.0
    ensures w * l * l > 0.0
  {
    PositiveProduct(w, l);
    PositiveProduct(w * l, l);
  }

  lemma NegativeTerm(w: real, l: real)
    requires w > 0.0 && l < 0.0
    ensures w * l * l > 0.0
  {
    assert w * l < 0.0;
  }

  lemma WeightlessTerm(w: real, x: real, l: real)
    requires w >= 0.0
    ensures w * l * l >= 0.0
    ensures w * l * l == 0.0 ==> w * l * x == 0.0
  {
    if w > 0.0 {
      if l > 0.0 { PositiveTerm(w, l); }
      if l < 0.0 { NegativeTerm(w, l); }
    }
  }

  lemma ParabolaLeast(a: real, ll: real, xl: real, xx: real)
    requires ll >= 0.0 && (ll == 0.0 ==> xl == 0.0)
    ensures Parabola(Ratio(xl, ll), ll, xl, xx) <= Parabola(a, ll, xl, xx)
  {
    var r := Ratio(xl, ll);
    if ll > 0.0 {
      Divided(xl, ll);
      assert Parabola(a, ll, xl, xx) - Parabola(r, ll, xl, xx) == Square(a - r) * ll by {
        assert Square(a - r) * ll == a * a * ll - 2.0 * a * (r * ll) + r * (r * ll);
        assert Parabola(r, ll, xl, xx) == r * (r * ll) - 2.0 * r * (r * ll) + xx;
      }
      NonNegativeProduct(Square(a - r), ll);
    }
  }

  /** The returned scale is the least-squares scale of the returned codes. */
  lemma ScaleIsOptimal(f: Fit, a: real)
    requires f.Sized() && NonNegative(f.w)
    ensures OptimalError(f) <= f.Error(a, 0.0, false)
  {
    NoWeightNoCovariance(f, |f.w|);
    hide Fit.Error, Fit.SumLL, Fit.SumXL, Fit.SumXX, Parabola, Ratio;
    ErrorIsParabola(f, a);
    ErrorIsParabola(f, ScaleOf(f));
    ParabolaLeast(a, f.SumLL(|f.w|), f.SumXL(|f.w|), f.SumXX(|f.w|));
  }

  // ---- one move of the descent ------------------------------------------------------------------

  lemma {:induction false} SumUpdate(a: seq<real>, b: seq<real>, i: nat, n: nat)
    requires |a| == |b| && n <= |a| && i < |a|
    requires forall j :: 0 <= j < |a| && j != i ==> a[j] == b[j]
    ensures Sum(b, n) == if i < n then Sum(a, n) - a[i] + b[i] else Sum(a, n)
  {
    if n > 0 { SumUpdate(a, b, i, n - 1); }
  }

  /** Whether replacing the sums (xl, ll) by (xl', ll') is accepted. */
  predicate Accepted(xl: real, ll: real, xl': real, ll': real) {
    xl' * xl' * ll > xl * xl * ll'
  }

  /** The code proposed for an element, given the sums of all the others. */
  function Proposal(x: real, slx: real, sl2: real, nmax: nat): int
    requires slx > 0.0
  {
    Min(nmax, NearestInt(x * sl2 / slx))
  }

  /** The sums without element i. */
  function OthersXL(f: Fit, i: nat): real
    requires f.Sized() && i < |f.w|
  {
    f.SumXL(|f.w|) - f.w[i] * f.x[i] * f.l[i]
  }

  function OthersLL(f: Fit, i: nat): real
    requires f.Sized() && i < |f.w|
  {
    f.SumLL(|f.w|) - f.w[i] * f.l[i] * f.l[i]
  }

  /** The sums once element i has code v. */
  function MovedXL(f: Fit, i: nat, v: int): real
    requires f.Sized() && i < |f.w|
  {
    OthersXL(f, i) + f.w[i] * f.x[i] * v as real
  }

  function MovedLL(f: Fit, i: nat, v: int): real
    requires f.Sized() && i < |f.w|
  {
    OthersLL(f, i) + f.w[i] * v as real * v as real
  }

  /** Whether the move of element i to v is accepted. */
  predicate Improves(f: Fit, i: nat, v: int)
    requires f.Sized() && i < |f.w|
  {
    Accepted(f.SumXL(|f.w|), f.SumLL(|f.w|), MovedXL(f, i, v), MovedLL(f, i, v))
  }

  /** The codes after visiting element i. */
  function Move(x: seq<real>, w: seq<real>, nmax: nat, i: nat, codes: seq<int>): (r: seq<int>)
    requires |x| == |w| == |codes| && i < |x|
    ensures |r| == |codes| && forall j :: 0 <= j < |codes| && j != i ==> r[j] == codes[j]
  {
    var f := FitOf(w, x, codes);
    if OthersXL(f, i) > 0.0 && OthersLL(f, i) > 0.0 then
      var v := Proposal(x[i], OthersXL(f, i), OthersLL(f, i), nmax);
      if v != codes[i] && Improves(f, i, v) then codes[i := v] else codes
    else
      codes
  }

  /** The sums after one code changed. */
  lemma CodeUpdate(w: seq<real>, x: seq<real>, codes: seq<int>, i: nat, v: int)
    requires |w| == |x| == |codes| && i < |w|
    ensures var f, g := FitOf(w, x, codes), FitOf(w, x, codes[i := v]);
      g.SumXL(|w|) == MovedXL(f, i, v) && g.SumLL(|w|) == MovedLL(f, i, v) && g.SumXX(|w|) == f.SumXX(|w|)
  {
    UpdateXL(w, x, codes, i, v);
    UpdateLL(w, x, codes, i, v);
    assert FitOf(w, x, codes).SumXX(|w|) == FitOf(w, x, codes[i := v]).SumXX(|w|);
    hide FitOf, MovedXL, MovedLL, Fit.SumXL, Fit.SumLL, Fit.SumXX;
  }

  lemma UpdateXL(w: seq<real>, x: seq<real>, codes: seq<int>, i: nat, v: int)
    requires |w| == |x| == |codes| && i < |w|
    ensures var f, g := FitOf(w, x, codes), FitOf(w, x, codes[i := v]); g.SumXL(|w|) == MovedXL(f, i, v)
  {
    hide Sum, Prod, Reals;
    var f, g := FitOf(w, x, codes), FitOf(w, x, codes[i := v]);
    ProdsUpdate(w, f.l, g.l, i, x, x);
    Commutes(w[i], x[i], codes[i] as real);
    Commutes(w[i], x[i], v as real);
  }

  lemma ProdAt(w: seq<real>, l: seq<real>, y: seq<real>, i: nat)
    requires |w| == |l| == |y| && i < |w|
    ensures |Prod(Prod(w, l), y)| == |w| && Prod(Prod(w, l), y)[i] == w[i] * l[i] * y[i]
  {
  }

  /** A sum of weighted products, when only the factors at i change. */
  lemma ProdsUpdate(w: seq<real>, l: seq<real>, m: seq<real>, i: nat, y: seq<real>, z: seq<real>)
    requires |w| == |l| == |m| == |y| == |z| && i < |w|
    requires forall j :: 0 <= j < |w| && j != i ==> l[j] == m[j] && y[j] == z[j]
    ensures Sum(Prod(Prod(w, m), z), |w|)
         == Sum(Prod(Prod(w, l), y), |w|) - w[i] * l[i] * y[i] + w[i] * m[i] * z[i]
  {
    hide Sum, Prod;
    var a, b := Prod(Prod(w, l), y), Prod(Prod(w, m), z);
    ProdAt(w, l, y, i);
    ProdAt(w, m, z, i);
    ProdsAgree(w, l, m, i, y, z);
    SumUpdate(a, b, i, |w|);
  }

  lemma ProdsAgree(w: seq<real>, l: seq<real>, m: seq<real>, i: nat, y: seq<real>, z: seq<real>)
    requires |w| == |l| == |m| == |y| == |z|
    requires forall j :: 0 <= j < |w| && j != i ==> l[j] == m[j] && y[j] == z[j]
    ensures forall j :: 0 <= j < |w| && j != i ==> Prod(Prod(w, l), y)[j] == Prod(Prod(w, m), z)[j]
  {
    hide Prod;
    forall j | 0 <= j < |w| && j != i ensures Prod(Prod(w, l), y)[j] == Prod(Prod(w, m), z)[j] {
      assert l[j] == m[j] && y[j] == z[j];
      ProdAt(w, l, y, j);
      ProdAt(w, m, z, j);
    }
  }

  lemma UpdateLL(w: seq<real>, x: seq<real>, codes: seq<int>, i: nat, v: int)
    requires |w| == |x| == |codes| && i < |w|
    ensures var f, g := FitOf(w, x, codes), FitOf(w, x, codes[i := v]); g.SumLL(|w|) == MovedLL(f, i, v)
  {
    hide Sum, Prod, Reals;
    var f, g := FitOf(w, x, codes), FitOf(w, x, codes[i := v]);
    ProdsUpdate(w, f.l, g.l, i, f.l, g.l);
  }

  lemma Commutes(w: real, x: real, l: real)
    ensures w * l * x == w * x * l
  {
  }

  lemma ProposalInRange(x: real, slx: real, sl2: real, nmax: nat)
    requires x >= 0.0 && slx > 0.0 && sl2 > 0.0
    ensures 0 <= Proposal(x, slx, sl2, nmax) <= nmax
  {
    NonNegativeProduct(x, sl2);
    Quotient(x * sl2, slx);
    NearestIntOfInt(0, x * sl2 / slx);
  }

  lemma MoveInRange(x: seq<real>, w: seq<real>, nmax: nat, i: nat, codes: seq<int>)
    requires |x| == |w| == |codes| && i < |x| && NonNegative(x) && InRange(codes, nmax)
    ensures InRange(Move(x, w, nmax, i, codes), nmax)
  {
    hide Improves, Proposal, OthersXL, OthersLL;
    var f := FitOf(w, x, codes);
    if OthersXL(f, i) > 0.0 && OthersLL(f, i) > 0.0 { ProposalInRange(x[i], OthersXL(f, i), OthersLL(f, i), nmax); }
  }

  lemma AcceptedRatio(xl: real, ll: real, xl': real, ll': real, xx: real)
    requires ll >= 0.0 && ll' > 0.0 && Accepted(xl, ll, xl', ll')
    ensures Parabola(Ratio(xl', ll'), ll', xl', xx) < Parabola(Ratio(xl, ll), ll, xl, xx)
  {
    NonNegativeProduct(Square(xl), ll');
    assert xl' * xl' * ll > 0.0;
    assert ll > 0.0;
    var r, r' := Ratio(xl, ll), Ratio(xl', ll');
    Divided(xl, ll);
    Divided(xl', ll');
    Vertex(r, ll, xl, xx);
    Vertex(r', ll', xl', xx);
    CrossMultiplied(r, ll, xl, r', ll', xl');
  }

  lemma Vertex(r: real, ll: real, xl: real, xx: real)
    requires r * ll == xl
    ensures Parabola(r, ll, xl, xx) == xx - r * xl
  {
    assert r * r * ll == r * (r * ll);
  }

  lemma CrossMultiplied(r: real, ll: real, xl: real, r': real, ll': real, xl': real)
    requires ll > 0.0 && ll' > 0.0 && r * ll == xl && r' * ll' == xl' && xl' * xl' * ll > xl * xl * ll'
    ensures r' * xl' > r * xl
  {
    var p := ll * ll';
    assert p > 0.0;
    assert xl' * xl' * ll == (r' * xl') * p by { assert xl' * xl' * ll == (r' * ll') * xl' * ll; }
    assert xl * xl * ll' == (r * xl) * p by { assert xl * xl * ll' == (r * ll) * xl * ll'; }
    var u, v := r' * xl', r * xl;
    if u <= v { ScaledOrder(p, u, v); assert false; }
  }

  lemma OptimalErrorForm(f: Fit)
    requires f.Sized()
    ensures OptimalError(f)
         == Parabola(Ratio(f.SumXL(|f.w|), f.SumLL(|f.w|)), f.SumLL(|f.w|), f.SumXL(|f.w|), f.SumXX(|f.w|))
  {
    hide Fit.Error, Parabola, Ratio, Sum;
    ErrorIsParabola(f, ScaleOf(f));
  }

  lemma TermSign(w: real, v: real)
    requires w >= 0.0
    ensures w * v * v >= 0.0
  {
    NonNegativeProduct(w, Square(v));
    assert w * v * v == w * Square(v);
  }

  lemma MovedPositive(f: Fit, i: nat, v: int)
    requires f.Sized() && i < |f.w| && NonNegative(f.w) && OthersLL(f, i) > 0.0
    ensures MovedLL(f, i, v) > 0.0
  {
    TermSign(f.w[i], v as real);
  }

  lemma ImprovedError(x: seq<real>, w: seq<real>, i: nat, codes: seq<int>, v: int)
    requires |x| == |w| == |codes| && i < |x| && NonNegative(w)
    requires OthersLL(FitOf(w, x, codes), i) > 0.0 && Improves(FitOf(w, x, codes), i, v)
    ensures OptimalError(FitOf(w, x, codes[i := v])) < OptimalError(FitOf(w, x, codes))
  {
    hide Accepted, Sum, OptimalError, Ratio, Parabola, OthersLL, MovedXL, MovedLL;
    var f, g := FitOf(w, x, codes), FitOf(w, x, codes[i := v]);
    CodeUpdate(w, x, codes, i, v);
    MovedPositive(f, i, v);
    NoWeightNoCovariance(f, |w|);
    OptimalErrorForm(f);
    OptimalErrorForm(g);
    AcceptedRatio(f.SumXL(|w|), f.SumLL(|w|), MovedXL(f, i, v), MovedLL(f, i, v), f.SumXX(|w|));
  }

  /** Every accepted move strictly lowers the least error the codes can reach. */
  lemma MoveLowers(x: seq<real>, w: seq<real>, nmax: nat, i: nat, codes: seq<int>)
    requires |x| == |w| == |codes| && i < |x| && NonNegative(w)
    requires Move(x, w, nmax, i, codes) != codes
    ensures OptimalError(FitOf(w, x, Move(x, w, nmax, i, codes))) < OptimalError(FitOf(w, x, codes))
  {
    hide Improves, Proposal, OthersXL, OthersLL, OptimalError;
    var f := FitOf(w, x, codes);
    ImprovedError(x, w, i, codes, Proposal(x[i], OthersXL(f, i), OthersLL(f, i), nmax));
  }

  lemma RatioNotRaised(xl: real, ll: real, xl': real, ll': real, xx: real)
    requires ll > 0.0 && ll' > 0.0 && !Accepted(xl, ll, xl', ll')
    ensures Parabola(Ratio(xl', ll'), ll', xl', xx) >= Parabola(Ratio(xl, ll), ll, xl, xx)
  {
    var r, r' := Ratio(xl, ll), Ratio(xl', ll');
    Divided(xl, ll);
    Divided(xl', ll');
    Vertex(r, ll, xl, xx);
    Vertex(r', ll', xl', xx);
    CrossMultipliedAtMost(r, ll, xl, r', ll', xl');
  }

  lemma CrossMultipliedAtMost(r: real, ll: real, xl: real, r': real, ll': real, xl': real)
    requires ll > 0.0 && ll' > 0.0 && r * ll == xl && r' * ll' == xl' && xl' * xl' * ll <= xl * xl * ll'
    ensures r' * xl' <= r * xl
  {
    var u, v, p := r' * xl', r * xl, ll * ll';
    assert xl' * xl' * ll == u * p by { assert xl' * xl' * ll == (r' * ll') * xl' * ll; }
    assert xl * xl * ll' == v * p by { assert xl * xl * ll' == (r * ll) * xl * ll'; }
    PositiveProduct(ll, ll');
    CancelOrder(u, v, p);
  }

  lemma CancelOrder(u: real, v: real, p: real)
    requires p > 0.0 && u * p <= v * p
    ensures u <= v
  {
    assert u * p - v * p == (u - v) * p;
  }

  /** A move is accepted exactly when it lowers the least error that the codes can reach. */
  lemma ImprovesExactly(x: seq<real>, w: seq<real>, i: nat, codes: seq<int>, v: int)
    requires |x| == |w| == |codes| && i < |x| && NonNegative(w) && OthersLL(FitOf(w, x, codes), i) > 0.0
    ensures Improves(FitOf(w, x, codes), i, v)
       <==> OptimalError(FitOf(w, x, codes[i := v])) < OptimalError(FitOf(w, x, codes))
  {
    var f, g := FitOf(w, x, codes), FitOf(w, x, codes[i := v]);
    if Improves(f, i, v) {
      ImprovedError(x, w, i, codes, v);
    } else {
      hide Accepted, Sum, OptimalError, Ratio, Parabola, MovedXL, MovedLL;
      CodeUpdate(w, x, codes, i, v);
      MovedPositive(f, i, v);
      TermSign(f.w[i], f.l[i]);
      OptimalErrorForm(f);
      OptimalErrorForm(g);
      RatioNotRaised(f.SumXL(|w|), f.SumLL(|w|), MovedXL(f, i, v), MovedLL(f, i, v), f.SumXX(|w|));
    }
  }

  lemma ProposalIs(x: real, slx: real, sl2: real, nmax: nat, q: real)
    requires slx > 0.0 && q * slx == x * sl2
    ensures Min(nmax, NearestInt(q)) == Proposal(x, slx, sl2, nmax)
  {
    Divided(x * sl2, slx);
    Cancel(slx, q, x * sl2 / slx);
  }

  /**
   Visiting an element: its nearest code v for the least-squares scale slx / sl2 of all the others, to which q is its
   ratio, is taken exactly when that lowers the least error the codes can reach.
   */
  lemma MoveExactly(x: seq<real>, w: seq<real>, nmax: nat, i: nat, codes: seq<int>, slx: real, sl2: real, q: real,
                    v: int)
    requires |x| == |w| == |codes| && i < |x| && NonNegative(w)
    requires slx == FitOf(w, x, codes[i := 0]).SumXL(|w|) && sl2 == FitOf(w, x, codes[i := 0]).SumLL(|w|)
    requires q * slx == x[i] * sl2 && v == Min(nmax, NearestInt(q))
    ensures Move(x, w, nmax, i, codes)
         == (if && slx > 0.0 && sl2 > 0.0
                && OptimalError(FitOf(w, x, codes[i := v])) < OptimalError(FitOf(w, x, codes))
             then codes[i := v] else codes)
  {
    hide OptimalError, NearestInt, Improves, Fit.SumXL, Fit.SumLL, FitOf, Move, Proposal, Min;
    var f := FitOf(w, x, codes);
    CodeUpdate(w, x, codes, i, 0);
    assert slx == OthersXL(f, i) && sl2 == OthersLL(f, i);
    MoveCases(x, w, nmax, i, codes);
    hide MovedXL, MovedLL, OthersXL, OthersLL;
    if slx > 0.0 && sl2 > 0.0 {
      ProposalIs(x[i], slx, sl2, nmax, q);
      ImprovesExactly(x, w, i, codes, v);
      if v == codes[i] { assert codes[i := v] == codes; }
    }
  }

  // ---- the descent -----------------------------------------------------------------------------

  /** The codes after visiting elements 0..n. */
  function Sweep(x: seq<real>, w: seq<real>, nmax: nat, codes: seq<int>, n: nat): (r: seq<int>)
    requires |x| == |w| == |codes| && n <= |x|
    ensures |r| == |codes| && forall j :: n <= j < |codes| ==> r[j] == codes[j]
  {
    if n == 0 then codes else Move(x, w, nmax, n - 1, Sweep(x, w, nmax, codes, n - 1))
  }

  /** At most t sweeps, stopping after one that changes nothing. */
  function Descent(x: seq<real>, w: seq<real>, nmax: nat, codes: seq<int>, t: nat): (r: seq<int>)
    requires |x| == |w| == |codes|
    ensures |r| == |codes|
    decreases t
  {
    if t == 0 then codes else
    var next := Sweep(x, w, nmax, codes, |x|);
    if next == codes then codes else Descent(x, w, nmax, next, t - 1)
  }

  ghost predicate Settled(x: seq<real>, w: seq<real>, nmax: nat, codes: seq<int>)
    requires |x| == |w| == |codes|
  {
    forall i :: 0 <= i < |x| ==> Move(x, w, nmax, i, codes) == codes
  }

  lemma {:induction false} SweepLowers(x: seq<real>, w: seq<real>, nmax: nat, codes: seq<int>, n: nat)
    requires |x| == |w| == |codes| && n <= |x| && NonNegative(w) && NonNegative(x) && InRange(codes, nmax)
    ensures InRange(Sweep(x, w, nmax, codes, n), nmax)
    ensures OptimalError(FitOf(w, x, Sweep(x, w, nmax, codes, n))) <= OptimalError(FitOf(w, x, codes))
    ensures Sweep(x, w, nmax, codes, n) != codes
      ==> OptimalError(FitOf(w, x, Sweep(x, w, nmax, codes, n))) < OptimalError(FitOf(w, x, codes))
  {
    hide Move, OptimalError, FitOf;
    if n == 0 {
    } else {
      var before := Sweep(x, w, nmax, codes, n - 1);
      SweepLowers(x, w, nmax, codes, n - 1);
      MoveInRange(x, w, nmax, n - 1, before);
      if Move(x, w, nmax, n - 1, before) != before { MoveLowers(x, w, nmax, n - 1, before); }
    }
  }

  /** The descent keeps codes in range and never raises the reachable error. */
  lemma {:induction false} DescentLowers(x: seq<real>, w: seq<real>, nmax: nat, codes: seq<int>, t: nat)
    requires |x| == |w| == |codes| && NonNegative(w) && NonNegative(x) && InRange(codes, nmax)
    ensures InRange(Descent(x, w, nmax, codes, t), nmax)
    ensures OptimalError(FitOf(w, x, Descent(x, w, nmax, codes, t))) <= OptimalError(FitOf(w, x, codes))
    decreases t
  {
    hide Sweep, OptimalError, FitOf;
    if t > 0 {
      SweepLowers(x, w, nmax, codes, |x|);
      DescentLowers(x, w, nmax, Sweep(x, w, nmax, codes, |x|), t - 1);
    }
  }

  lemma {:induction false} SameSweep(x: seq<real>, w: seq<real>, nmax: nat, codes: seq<int>, n: nat, k: nat)
    requires |x| == |w| == |codes| && k <= n <= |x| && Sweep(x, w, nmax, codes, n) == codes
    ensures Sweep(x, w, nmax, codes, k) == codes
    decreases n
  {
    hide Move;
    if k < n {
      var before := Sweep(x, w, nmax, codes, n - 1);
      assert forall j :: 0 <= j < |codes| ==> before[j] == codes[j];
      assert before == codes;
      SameSweep(x, w, nmax, codes, n - 1, k);
    }
  }

  /** A sweep without changes means that no single move is left to accept. */
  lemma UnchangedIsSettled(x: seq<real>, w: seq<real>, nmax: nat, codes: seq<int>)
    requires |x| == |w| == |codes| && Sweep(x, w, nmax, codes, |x|) == codes
    ensures Settled(x, w, nmax, codes)
  {
    hide Move;
    forall i | 0 <= i < |x|
      ensures Move(x, w, nmax, i, codes) == codes
    {
      SameSweep(x, w, nmax, codes, |x|, i);
      SameSweep(x, w, nmax, codes, |x|, i + 1);
    }
  }

  // ---- the grid of first scales ------------------------------------------------------------------

  /** The eight offsets -4..4 without 0, in order. */
  function Offset(k: nat): int { if k < 4 then k - 4 else k - 3 }

  function GridStep(nmax: nat, max: real, k: nat): (r: real)
    requires nmax > 0 && max > 0.0 && k < 8
    ensures r > 0.0
  {
    Quotient(0.1 * Offset(k) as real + nmax as real, max);
    (0.1 * Offset(k) as real + nmax as real) / max
  }

  function FirstStep(nmax: nat, max: real): (r: real)
    requires nmax > 0 && max > 0.0
    ensures r > 0.0
  {
    Quotient(nmax as real, max);
    nmax as real / max
  }

  function Inverse(iscale: real): real
    requires iscale > 0.0
  {
    1.0 / iscale
  }

  /** The error of one step of the grid, with its own scale. */
  function GridError(x: seq<real>, w: seq<real>, iscale: real, codes: seq<int>): real
    requires |x| == |w| == |codes| && iscale > 0.0
  {
    FitOf(w, x, codes).Error(Inverse(iscale), 0.0, false)
  }

  /** The step chosen among the first and the first k of the grid, and its error. */
  function Pick(x: seq<real>, w: seq<real>, nmax: nat, max: real, k: nat): (r: (real, real))
    requires |x| == |w| && nmax > 0 && max > 0.0 && k <= 8
    ensures r.0 > 0.0
  {
    if k == 0 then
      (FirstStep(nmax, max), GridError(x, w, FirstStep(nmax, max), FirstCodes(x, FirstStep(nmax, max))))
    else
      var (best, mse) := Pick(x, w, nmax, max, k - 1);
      var step := GridStep(nmax, max, k - 1);
      var e := GridError(x, w, step, Codes(x, step, nmax));
      if e < mse then (step, e) else (best, mse)
  }

  lemma FirstCodesFit(x: seq<real>, nmax: nat)
    requires NonNegative(x) && 0 < nmax <= 255 && Top(x, |x|) > 0.0
    ensures FirstCodes(x, FirstStep(nmax, Top(x, |x|))) == Codes(x, FirstStep(nmax, Top(x, |x|)), nmax)
  {
    var max := Top(x, |x|);
    var iscale := FirstStep(nmax, max);
    Divided(nmax as real, max);
    forall i | 0 <= i < |x|
      ensures FirstCode(x[i], iscale) == Code(x[i], iscale, nmax)
    {
      FirstCodeFits(x[i], max, iscale, nmax);
    }
  }

  lemma FirstCodeFits(x: real, max: real, iscale: real, nmax: nat)
    requires 0.0 <= x <= max && iscale > 0.0 && iscale * max == nmax as real && nmax <= 255
    ensures FirstCode(x, iscale) == Code(x, iscale, nmax)
  {
    var u := iscale * x;
    NonNegativeProduct(iscale, x);
    ScaledOrder(iscale, x, max);
    assert u <= iscale * max;
    assert 0.0 <= u <= nmax as real;
    NearestIntOfInt(0, u);
    NearestIntOfInt(nmax, u);
    assert FirstCode(x, iscale) == Byte(NearestInt(u));
  }

  /** For nonnegative values the recorded error is that of the codes of the chosen step, and the least of the grid. */
  lemma {:induction false} PickIsLeast(x: seq<real>, w: seq<real>, nmax: nat, k: nat)
    requires |x| == |w| && NonNegative(x) && 0 < nmax <= 255 && Top(x, |x|) > 0.0 && k <= 8
    ensures var (step, mse) := Pick(x, w, nmax, Top(x, |x|), k);
      mse == GridError(x, w, step, Codes(x, step, nmax))
    ensures Pick(x, w, nmax, Top(x, |x|), k).1
         <= GridError(x, w, FirstStep(nmax, Top(x, |x|)), Codes(x, FirstStep(nmax, Top(x, |x|)), nmax))
    ensures forall j :: 0 <= j < k ==>
      Pick(x, w, nmax, Top(x, |x|), k).1
        <= GridError(x, w, GridStep(nmax, Top(x, |x|), j), Codes(x, GridStep(nmax, Top(x, |x|), j), nmax))
  {
    hide GridError, GridStep, FirstStep, Codes, FirstCodes, Top;
    if k == 0 {
      FirstCodesFit(x, nmax);
    } else {
      PickIsLeast(x, w, nmax, k - 1);
    }
  }

  // ---- the result ----------------------------------------------------------------------------------

  /** The codes the search returns for a block that is not empty. */
  function ResultCodes(x: seq<real>, w: seq<real>, nmax: nat): (r: seq<int>)
    requires |x| == |w| && nmax > 0 && Top(x, |x|) > 0.0
    ensures |r| == |x|
  {
    Descent(x, w, nmax, Codes(x, Pick(x, w, nmax, Top(x, |x|), 8).0, nmax), TRIES)
  }

  /** The result is in range and beats every scale of the grid together with its own codes. */
  lemma ResultBeatsGrid(x: seq<real>, w: seq<real>, nmax: nat, k: nat)
    requires |x| == |w| && NonNegative(x) && NonNegative(w) && 0 < nmax <= 255 && Top(x, |x|) > 0.0 && k < 8
    ensures InRange(ResultCodes(x, w, nmax), nmax)
    ensures var step := GridStep(nmax, Top(x, |x|), k);
      OptimalError(FitOf(w, x, ResultCodes(x, w, nmax))) <= GridError(x, w, step, Codes(x, step, nmax))
    ensures var step := FirstStep(nmax, Top(x, |x|));
      OptimalError(FitOf(w, x, ResultCodes(x, w, nmax))) <= GridError(x, w, step, Codes(x, step, nmax))
  {
    hide Pick, GridStep, FirstStep, Code, Top, Descent, OptimalError, Fit.Error;
    var step := Pick(x, w, nmax, Top(x, |x|), 8).0;
    var codes := Codes(x, step, nmax);
    PickIsLeast(x, w, nmax, 8);
    CodesInRange(x, step, nmax);
    DescentLowers(x, w, nmax, codes, TRIES);
    ScaleIsOptimal(FitOf(w, x, codes), Inverse(step));
  }

  /** The codes of x in steps of which iscale make up one, at most nmax. */
  ghost predicate CodedBy(x: seq<real>, iscale: real, nmax: nat, codes: seq<int>) {
    |codes| == |x| && forall i :: 0 <= i < |x| ==> codes[i] == Min(nmax, NearestInt(iscale * x[i]))
  }

  lemma CodedAre(x: seq<real>, iscale: real, nmax: nat, codes: seq<int>)
    requires CodedBy(x, iscale, nmax, codes)
    ensures codes == Codes(x, iscale, nmax)
  {
    hide NearestInt, Min;
  }

  /** For every one of the nine steps the result is at least as good as the codes of that step with its own scale. */
  lemma ResultBeatsStep(x: seq<real>, w: seq<real>, nmax: nat, max: real, step: int, iscale: real, codes: seq<int>)
    requires |x| == |w| && NonNegative(x) && NonNegative(w) && 0 < nmax <= 255
    requires max in x && max > 0.0 && (forall i :: 0 <= i < |x| ==> x[i] <= max)
    requires -4 <= step <= 4 && iscale == (0.1 * step as real + nmax as real) / max && CodedBy(x, iscale, nmax, codes)
    ensures Top(x, |x|) == max && iscale > 0.0
    ensures OptimalError(FitOf(w, x, ResultCodes(x, w, nmax))) <= FitOf(w, x, codes).Error(1.0 / iscale, 0.0, false)
  {
    CodedAre(x, iscale, nmax, codes);
    hide *;
    TopIsMax(x, max);
    GridSteps(nmax, max, step, iscale);
    if step == 0 {
      ResultBeatsGrid(x, w, nmax, 0);
      GridErrorIs(x, w, iscale, codes);
    } else {
      ResultBeatsGrid(x, w, nmax, if step < 0 then step + 4 else step + 3);
      GridErrorIs(x, w, iscale, codes);
    }
  }

  lemma GridSteps(nmax: nat, max: real, step: int, iscale: real)
    requires nmax > 0 && max > 0.0 && -4 <= step <= 4 && iscale == (0.1 * step as real + nmax as real) / max
    ensures iscale > 0.0 && (step == 0 ==> iscale == FirstStep(nmax, max))
    ensures step != 0 ==> iscale == GridStep(nmax, max, if step < 0 then step + 4 else step + 3)
  {
    Quotient(0.1 * step as real + nmax as real, max);
    if step == 0 {
      assert 0.1 * step as real + nmax as real == nmax as real;
    } else {
      assert Offset(if step < 0 then step + 4 else step + 3) == step;
    }
  }

  lemma GridErrorIs(x: seq<real>, w: seq<real>, iscale: real, codes: seq<int>)
    requires |x| == |w| == |codes| && iscale > 0.0
    ensures GridError(x, w, iscale, codes) == FitOf(w, x, codes).Error(1.0 / iscale, 0.0, false)
  {
    hide Fit.Error, FitOf;
  }

  /** n sweeps over all elements. */
  function Sweeps(x: seq<real>, w: seq<real>, nmax: nat, codes: seq<int>, n: nat): (r: seq<int>)
    requires |x| == |w| == |codes|
    ensures |r| == |codes|
    decreases n
  {
    if n == 0 then codes else Sweeps(x, w, nmax, Sweep(x, w, nmax, codes, |x|), n - 1)
  }

  lemma {:induction false} SettledSweeps(x: seq<real>, w: seq<real>, nmax: nat, codes: seq<int>, n: nat)
    requires |x| == |w| == |codes| && Sweep(x, w, nmax, codes, |x|) == codes
    ensures Sweeps(x, w, nmax, codes, n) == codes
  {
    hide Sweep;
    if n > 0 { SettledSweeps(x, w, nmax, codes, n - 1); }
  }

  lemma {:induction false} DescentIsSweeps(x: seq<real>, w: seq<real>, nmax: nat, codes: seq<int>, n: nat)
    requires |x| == |w| == |codes|
    ensures Descent(x, w, nmax, codes, n) == Sweeps(x, w, nmax, codes, n)
    decreases n
  {
    hide Sweep;
    if n > 0 {
      var next := Sweep(x, w, nmax, codes, |x|);
      if next == codes { SettledSweeps(x, w, nmax, codes, n - 1); } else { DescentIsSweeps(x, w, nmax, next, n - 1); }
    }
  }

  lemma {:induction false} PickedStep(x: seq<real>, w: seq<real>, nmax: nat, max: real, k: nat) returns (step: int)
    requires |x| == |w| && nmax > 0 && max > 0.0 && k <= 8
    ensures -4 <= step <= 4 && Pick(x, w, nmax, max, k).0 == (0.1 * step as real + nmax as real) / max
  {
    hide GridError;
    if k == 0 {
      step := 0;
      assert 0.1 * step as real + nmax as real == nmax as real;
    } else {
      step := PickedStep(x, w, nmax, max, k - 1);
      if Pick(x, w, nmax, max, k).0 == GridStep(nmax, max, k - 1) { step := Offset(k - 1); }
    }
  }

  /** The result is what five sweeps make of the codes of one of the nine steps, though the loop stops early. */
  lemma ResultIsFiveSweeps(x: seq<real>, w: seq<real>, nmax: nat) returns (step: int, iscale: real, start: seq<int>)
    requires |x| == |w| && nmax > 0 && Top(x, |x|) > 0.0
    ensures -4 <= step <= 4 && iscale == (0.1 * step as real + nmax as real) / Top(x, |x|)
    ensures CodedBy(x, iscale, nmax, start) && ResultCodes(x, w, nmax) == Sweeps(x, w, nmax, start, 5)
  {
    step := PickedStep(x, w, nmax, Top(x, |x|), 8);
    iscale := Pick(x, w, nmax, Top(x, |x|), 8).0;
    start := Codes(x, iscale, nmax);
    hide NearestInt, Min, Pick, Sweeps, Descent;
    DescentIsSweeps(x, w, nmax, start, 5);
  }

  // ---- the search for any values ---------------------------------------------------------------------

  /** The stored codes and the two running sums. */
  datatype State = State(codes: seq<int>, xl: real, ll: real)

  /** A weighted product. */
  function Term(w: real, x: real, l: real): real { w * x * l }

  /** Stores the codes of a step; the sums run over the codes before they are stored. */
  function Stored(x: seq<real>, w: seq<real>, iscale: real, nmax: nat): (s: State)
    requires |x| == |w|
    ensures |s.codes| == |x|
  {
    var f := FitOf(w, x, Codes(x, iscale, nmax));
    State(Bytes(Codes(x, iscale, nmax)), f.SumXL(|w|), f.SumLL(|w|))
  }

  /** Visits element i, and tells whether the move was accepted. */
  function Visited(x: seq<real>, w: seq<real>, nmax: nat, i: nat, s: State): (r: (State, bool))
    requires |x| == |w| == |s.codes| && i < |x|
    ensures |r.0.codes| == |x| && (!r.1 ==> r.0 == s)
  {
    var wi, xi, li := w[i], x[i], s.codes[i] as real;
    var slx, sl2 := s.xl - Term(wi, xi, li), s.ll - Term(wi, li, li);
    if slx > 0.0 && sl2 > 0.0 then
      var v := Proposal(xi, slx, sl2, nmax);
      var xl, ll := slx + Term(wi, xi, v as real), sl2 + Term(wi, v as real, v as real);
      if v != s.codes[i] && Accepted(s.xl, s.ll, xl, ll) then (State(s.codes[i := Byte(v)], xl, ll), true)
      else (s, false)
    else
      (s, false)
  }

  /** The state after visiting elements 0..n, and the number of accepted moves. */
  function Swept(x: seq<real>, w: seq<real>, nmax: nat, s: State, n: nat): (r: (State, nat))
    requires |x| == |w| == |s.codes| && n <= |x|
    ensures |r.0.codes| == |x| && (r.1 == 0 ==> r.0 == s)
  {
    if n == 0 then (s, 0) else
    var (t, count) := Swept(x, w, nmax, s, n - 1);
    var (u, changed) := Visited(x, w, nmax, n - 1, t);
    (u, if changed then count + 1 else count)
  }

  /** At most k sweeps, stopping after one that accepts nothing. */
  function Descended(x: seq<real>, w: seq<real>, nmax: nat, s: State, k: nat): (r: State)
    requires |x| == |w| == |s.codes|
    ensures |r.codes| == |x|
    decreases k
  {
    if k == 0 then s else
    var (t, count) := Swept(x, w, nmax, s, |x|);
    if count == 0 then t else Descended(x, w, nmax, t, k - 1)
  }

  /** What the search ends with, whatever the signs of the values. */
  function Found(x: seq<real>, w: seq<real>, nmax: nat): (s: State)
    requires |x| == |w| && nmax > 0 && Top(x, |x|) > 0.0
    ensures |s.codes| == |x|
  {
    Descended(x, w, nmax, Stored(x, w, Pick(x, w, nmax, Top(x, |x|), 8).0, nmax), TRIES)
  }

  // ---- nonnegative values ----------------------------------------------------------------------------

  /** The codes are in range, and the sums are the sums over them. */
  ghost predicate Tied(x: seq<real>, w: seq<real>, nmax: nat, s: State)
    requires |x| == |w|
  {
    && |s.codes| == |x| && InRange(s.codes, nmax)
    && s.xl == FitOf(w, x, s.codes).SumXL(|w|) && s.ll == FitOf(w, x, s.codes).SumLL(|w|)
  }

  lemma ProductsStep(f: Fit, n: nat, w: real, x: real, l: real)
    requires f.Sized() && 0 < n <= |f.w|
    requires w == f.w[n - 1] && x == f.x[n - 1] && l == f.l[n - 1]
    ensures f.SumXL(n) == f.SumXL(n - 1) + w * x * l
    ensures f.SumLL(n) == f.SumLL(n - 1) + w * l * l
  {
    hide *;
    SumsStep(f, n, w, x, l);
    Commutes(w, x, l);
  }

  lemma SumsEmpty(f: Fit)
    requires f.Sized()
    ensures f.SumXL(0) == 0.0 && f.SumLL(0) == 0.0
  {
  }

  lemma FitAt(w: seq<real>, x: seq<real>, codes: seq<int>, i: nat)
    requires |w| == |x| == |codes| && i < |w|
    ensures var f := FitOf(w, x, codes);
      f.Sized() && f.w[i] == w[i] && f.x[i] == x[i] && f.l[i] == codes[i] as real
  {
  }

  lemma OthersAre(f: Fit, i: nat, w: real, x: real, l: real)
    requires f.Sized() && i < |f.w| && w == f.w[i] && x == f.x[i] && l == f.l[i]
    ensures OthersXL(f, i) == f.SumXL(|f.w|) - Term(w, x, l) && OthersLL(f, i) == f.SumLL(|f.w|) - Term(w, l, l)
  {
    hide Fit.SumXL, Fit.SumLL;
  }

  lemma MovedAre(f: Fit, i: nat, w: real, x: real, v: int, l: real, slx: real, sl2: real)
    requires f.Sized() && i < |f.w| && w == f.w[i] && x == f.x[i] && l == v as real
    requires slx == OthersXL(f, i) && sl2 == OthersLL(f, i)
    ensures MovedXL(f, i, v) == slx + Term(w, x, l) && MovedLL(f, i, v) == sl2 + Term(w, l, l)
  {
    hide OthersXL, OthersLL;
  }

  lemma ImprovesIs(f: Fit, i: nat, v: int, sumlx: real, suml2: real, slx: real, sl2: real)
    requires f.Sized() && i < |f.w|
    requires sumlx == f.SumXL(|f.w|) && suml2 == f.SumLL(|f.w|) && slx == MovedXL(f, i, v) && sl2 == MovedLL(f, i, v)
    ensures Improves(f, i, v) <==> Accepted(sumlx, suml2, slx, sl2)
  {
    hide MovedXL, MovedLL, Fit.SumXL, Fit.SumLL;
  }

  lemma MoveCases(x: seq<real>, w: seq<real>, nmax: nat, i: nat, codes: seq<int>)
    requires |x| == |w| == |codes| && i < |x|
    ensures var f := FitOf(w, x, codes);
      if OthersXL(f, i) > 0.0 && OthersLL(f, i) > 0.0 then
        var v := Proposal(x[i], OthersXL(f, i), OthersLL(f, i), nmax);
        Move(x, w, nmax, i, codes) == if v != codes[i] && Improves(f, i, v) then codes[i := v] else codes
      else Move(x, w, nmax, i, codes) == codes
  {
    hide OthersXL, OthersLL, Improves, Proposal;
  }

  /** A visit is the move of the specification. */
  lemma VisitIsMove(x: seq<real>, w: seq<real>, nmax: nat, i: nat, s: State)
    requires |x| == |w| && i < |x| && NonNegative(x) && nmax <= 255 && Tied(x, w, nmax, s)
    ensures var (t, changed) := Visited(x, w, nmax, i, s);
      Tied(x, w, nmax, t) && t.codes == Move(x, w, nmax, i, s.codes) && (changed <==> t.codes != s.codes)
  {
    assert x[i] >= 0.0 && 0 <= s.codes[i] <= nmax;
    TiedParts(x, w, nmax, s);
    var f := FitOf(w, x, s.codes);
    var wi, xi, li := w[i], x[i], s.codes[i] as real;
    var slx, sl2 := s.xl - Term(wi, xi, li), s.ll - Term(wi, li, li);
    hide *;
    FitAt(w, x, s.codes, i);
    OthersAre(f, i, wi, xi, li);
    MoveCases(x, w, nmax, i, s.codes);
    VisitedCases(x, w, nmax, i, s, slx, sl2);
    if slx > 0.0 && sl2 > 0.0 {
      ProposalInRange(xi, slx, sl2, nmax);
      var v := Proposal(xi, slx, sl2, nmax);
      MovedAre(f, i, wi, xi, v, v as real, slx, sl2);
      ImprovesIs(f, i, v, s.xl, s.ll, slx + Term(wi, xi, v as real), sl2 + Term(wi, v as real, v as real));
      if v != s.codes[i] && Improves(f, i, v) {
        CodeUpdate(w, x, s.codes, i, v);
        TiedUpdate(x, w, nmax, s, i, v, MovedXL(f, i, v), MovedLL(f, i, v));
      }
    }
  }

  lemma TiedParts(x: seq<real>, w: seq<real>, nmax: nat, s: State)
    requires |x| == |w| && Tied(x, w, nmax, s)
    ensures |s.codes| == |x| && FitOf(w, x, s.codes).Sized()
    ensures s.xl == FitOf(w, x, s.codes).SumXL(|w|) && s.ll == FitOf(w, x, s.codes).SumLL(|w|)
    ensures |FitOf(w, x, s.codes).w| == |w|
  {
    hide Fit.SumXL, Fit.SumLL, InRange;
  }

  lemma VisitedCases(x: seq<real>, w: seq<real>, nmax: nat, i: nat, s: State, slx: real, sl2: real)
    requires |x| == |w| == |s.codes| && i < |x|
    requires slx == s.xl - Term(w[i], x[i], s.codes[i] as real)
    requires sl2 == s.ll - Term(w[i], s.codes[i] as real, s.codes[i] as real)
    ensures if slx > 0.0 && sl2 > 0.0 then
        var v := Proposal(x[i], slx, sl2, nmax);
        var xl, ll := slx + Term(w[i], x[i], v as real), sl2 + Term(w[i], v as real, v as real);
        Visited(x, w, nmax, i, s)
          == if v != s.codes[i] && Accepted(s.xl, s.ll, xl, ll) then (State(s.codes[i := Byte(v)], xl, ll), true)
             else (s, false)
      else Visited(x, w, nmax, i, s) == (s, false)
  {
    hide Term, Proposal, Accepted, Byte;
  }

  lemma TiedUpdate(x: seq<real>, w: seq<real>, nmax: nat, s: State, i: nat, v: int, xl: real, ll: real)
    requires |x| == |w| && i < |x| && nmax <= 255 && 0 <= v <= nmax && Tied(x, w, nmax, s)
    requires var g := FitOf(w, x, s.codes[i := v]); xl == g.SumXL(|w|) && ll == g.SumLL(|w|)
    ensures Byte(v) == v && Tied(x, w, nmax, State(s.codes[i := v], xl, ll))
  {
    hide Fit.SumXL, Fit.SumLL, FitOf;
    RangeUpdate(s.codes, nmax, i, v);
  }

  lemma RangeUpdate(codes: seq<int>, nmax: nat, i: nat, v: int)
    requires InRange(codes, nmax) && i < |codes| && 0 <= v <= nmax
    ensures InRange(codes[i := v], nmax)
  {
  }

  lemma {:induction false} SweepIsSweep(x: seq<real>, w: seq<real>, nmax: nat, s: State, n: nat)
    requires |x| == |w| && n <= |x| && NonNegative(x) && nmax <= 255 && Tied(x, w, nmax, s)
    ensures var (t, count) := Swept(x, w, nmax, s, n);
      Tied(x, w, nmax, t) && t.codes == Sweep(x, w, nmax, s.codes, n) && (count == 0 <==> t.codes == s.codes)
  {
    TiedParts(x, w, nmax, s);
    hide *;
    if n == 0 {
      SweptNone(x, w, nmax, s);
    } else {
      SweepIsSweep(x, w, nmax, s, n - 1);
      var (t, count) := Swept(x, w, nmax, s, n - 1);
      TiedParts(x, w, nmax, t);
      VisitIsMove(x, w, nmax, n - 1, t);
      SweptStep(x, w, nmax, s, n);
      assert t.codes[n - 1] == Sweep(x, w, nmax, s.codes, n - 1)[n - 1] == s.codes[n - 1];
      ChangedAt(s.codes, t.codes, Visited(x, w, nmax, n - 1, t).0.codes, n - 1);
    }
  }

  lemma SweptNone(x: seq<real>, w: seq<real>, nmax: nat, s: State)
    requires |x| == |w| == |s.codes|
    ensures Swept(x, w, nmax, s, 0) == (s, 0) && Sweep(x, w, nmax, s.codes, 0) == s.codes
  {
  }

  lemma SweptStep(x: seq<real>, w: seq<real>, nmax: nat, s: State, n: nat)
    requires |x| == |w| == |s.codes| && 0 < n <= |x|
    ensures var (t, count) := Swept(x, w, nmax, s, n - 1);
      var (u, changed) := Visited(x, w, nmax, n - 1, t);
      Swept(x, w, nmax, s, n) == (u, if changed then count + 1 else count)
    ensures Sweep(x, w, nmax, s.codes, n) == Move(x, w, nmax, n - 1, Sweep(x, w, nmax, s.codes, n - 1))
  {
    hide Visited, Move;
  }

  /** A change at a place not visited before is a change. */
  lemma ChangedAt(a: seq<int>, b: seq<int>, c: seq<int>, i: nat)
    requires |a| == |b| == |c| && i < |a| && b[i] == a[i]
    requires forall j :: 0 <= j < |a| && j != i ==> c[j] == b[j]
    ensures c == a <==> b == a && c == b
  {
    if c != b { assert c[i] != a[i]; }
  }

  lemma {:induction false} DescentIsDescent(x: seq<real>, w: seq<real>, nmax: nat, s: State, k: nat)
    requires |x| == |w| && NonNegative(x) && nmax <= 255 && Tied(x, w, nmax, s)
    ensures Tied(x, w, nmax, Descended(x, w, nmax, s, k))
    ensures Descended(x, w, nmax, s, k).codes == Descent(x, w, nmax, s.codes, k)
    decreases k
  {
    hide Tied, Swept, Sweep;
    if k == 0 {
    } else {
      SweepIsSweep(x, w, nmax, s, |x|);
      var (t, count) := Swept(x, w, nmax, s, |x|);
      if count != 0 { DescentIsDescent(x, w, nmax, t, k - 1); }
    }
  }

  /** For nonnegative values nothing wraps: the search finds the specified codes and their least-squares scale. */
  lemma FoundIsResult(x: seq<real>, w: seq<real>, nmax: nat)
    requires |x| == |w| && NonNegative(x) && NonNegative(w) && 0 < nmax <= 255 && Top(x, |x|) > 0.0
    ensures var s := Found(x, w, nmax);
      && s.codes == ResultCodes(x, w, nmax) && InRange(s.codes, nmax)
      && Ratio(s.xl, s.ll) == ScaleOf(FitOf(w, x, s.codes))
  {
    hide Pick, Code, Fit.SumXL, Fit.SumLL, Descent, Descended, FitOf;
    var step := Pick(x, w, nmax, Top(x, |x|), 8).0;
    CodesInRange(x, step, nmax);
    DescentIsDescent(x, w, nmax, Stored(x, w, step, nmax), TRIES);
  }

  // ---- the loops -------------------------------------------------------------------------------------

  lemma FlippedTerm(w: real, x: real, l: real, scale: real, diff: real)
    requires diff == x - scale * l
    ensures w * diff * diff == ErrorTerm(w, x, l, scale, 0.0, false)
  {
    var miss := Miss(x, l, scale, 0.0);
    assert miss == -diff;
    assert miss * miss == diff * diff;
    assert w * diff * diff == w * (diff * diff);
  }

  method TopOf(x: seq<real>) returns (max: real)
    ensures max == Top(x, |x|)
  {
    max := 0.0;
    var i := 0;
    while i < |x|
      invariant 0 <= i <= |x| && max == Top(x, i)
    {
      max := if max > x[i] then max else x[i];
      i := i + 1;
    }
  }

  /** The first pass: codes without clamping, and their error. */
  method FirstPass(x: seq<real>, w: seq<real>, iscale: real, L: array<int>) returns (mse: real)
    requires |x| == |w| == L.Length && iscale > 0.0
    modifies L
    ensures mse == GridError(x, w, iscale, FirstCodes(x, iscale))
  {
    hide ErrorTerm, Fit.Errors, NearestInt, Sum;
    ghost var codes := FirstCodes(x, iscale);
    ghost var f := FitOf(w, x, codes);
    var i := 0;
    while i < |x|
      invariant 0 <= i <= |x| && L[..i] == codes[..i]
    {
      L[i] := Byte(NearestInt(iscale * x[i]));
      i := i + 1;
    }
    assert L[..] == L[..i];
    var scale := 1.0 / iscale;
    SumNothing(f.Errors(scale, 0.0, false));
    mse := 0.0;
    i := 0;
    while i < |x|
      invariant 0 <= i <= |x| && mse == Sum(f.Errors(scale, 0.0, false), i)
      invariant L[..] == codes
    {
      assert L[i] == L[..][i] == codes[i];
      var diff := x[i] - scale * L[i] as real;
      FlippedTerm(w[i], x[i], L[i] as real, scale, diff);
      ErrorStep(f, scale, 0.0, false, i + 1, w[i], x[i], L[i] as real);
      mse := mse + w[i] * diff * diff;
      i := i + 1;
    }
  }

  lemma SumNothing(a: seq<real>)
    ensures Sum(a, 0) == 0.0
  {
  }

  method GridMse(x: seq<real>, w: seq<real>, iscale: real, nmax: nat) returns (mse: real)
    requires |x| == |w| && iscale > 0.0
    ensures mse == GridError(x, w, iscale, Codes(x, iscale, nmax))
  {
    hide ErrorTerm, Fit.Errors, NearestInt, Sum;
    ghost var f := FitOf(w, x, Codes(x, iscale, nmax));
    var scale := 1.0 / iscale;
    SumNothing(f.Errors(scale, 0.0, false));
    mse := 0.0;
    var i := 0;
    while i < |x|
      invariant 0 <= i <= |x| && mse == Sum(f.Errors(scale, 0.0, false), i)
    {
      var l := NearestInt(iscale * x[i]);
      l := Min(nmax, l);
      var diff := x[i] - scale * l as real;
      FlippedTerm(w[i], x[i], l as real, scale, diff);
      ErrorStep(f, scale, 0.0, false, i + 1, w[i], x[i], l as real);
      mse := mse + w[i] * diff * diff;
      i := i + 1;
    }
  }

  method PickStep(x: seq<real>, w: seq<real>, nmax: nat, max: real, L: array<int>) returns (iscale: real)
    requires |x| == |w| == L.Length && 0 < nmax && max > 0.0
    modifies L
    ensures iscale == Pick(x, w, nmax, max, 8).0
  {
    hide GridError, Codes, FirstCodes;
    Quotient(nmax as real, max);
    iscale := nmax as real / max;
    var best := FirstPass(x, w, iscale, L);
    var step := -4;
    ghost var k := 0;
    while step <= 4
      invariant 0 <= k <= 8 && (step == (if k == 8 then 5 else Offset(k)) || (step == 0 && k == 4))
      invariant (iscale, best) == Pick(x, w, nmax, max, k)
      decreases 5 - step
    {
      if step != 0 {
        assert step == Offset(k);
        Quotient(0.1 * step as real + nmax as real, max);
        var tried := (0.1 * step as real + nmax as real) / max;
        assert tried == GridStep(nmax, max, k);
        var mse := GridMse(x, w, tried, nmax);
        if mse < best {
          best := mse;
          iscale := tried;
        }
        k := k + 1;
      }
      step := step + 1;
    }
  }

  /** Stores the codes of the chosen step and sums over them. */
  method StoreCodes(x: seq<real>, w: seq<real>, iscale: real, nmax: nat, L: array<int>)
    returns (sumlx: real, suml2: real)
    requires |x| == |w| == L.Length
    modifies L
    ensures State(L[..], sumlx, suml2) == Stored(x, w, iscale, nmax)
  {
    hide Code, Sum, Prod, Fit.SumXL, Fit.SumLL, Byte, Reals;
    ghost var codes := Codes(x, iscale, nmax);
    ghost var f := FitOf(w, x, codes);
    SumsEmpty(f);
    sumlx, suml2 := 0.0, 0.0;
    var i := 0;
    while i < |x|
      invariant 0 <= i <= |x| && L[..i] == Bytes(codes)[..i]
      invariant sumlx == f.SumXL(i) && suml2 == f.SumLL(i)
    {
      var l := Code(x[i], iscale, nmax);
      L[i] := Byte(l);
      var wi, xi, li := w[i], x[i], l as real;
      ProductsStep(f, i + 1, wi, xi, li);
      sumlx := sumlx + wi * xi * li;
      suml2 := suml2 + wi * li * li;
      i := i + 1;
    }
    assert L[..] == L[..i] == Bytes(codes);
  }

  /** Visits element i. */
  method Visit(x: seq<real>, w: seq<real>, nmax: nat, i: nat, sumlx0: real, suml20: real, L: array<int>)
    returns (sumlx: real, suml2: real, changed: bool)
    requires |x| == |w| == L.Length && i < |x|
    modifies L
    ensures (State(L[..], sumlx, suml2), changed) == Visited(x, w, nmax, i, State(old(L[..]), sumlx0, suml20))
  {
    hide Byte, Proposal, Term, Accepted, Visited;
    ghost var before := State(L[..], sumlx0, suml20);
    var wi, xi, li := w[i], x[i], L[i] as real;
    sumlx, suml2, changed := sumlx0, suml20, false;
    var slx := sumlx - Term(wi, xi, li);
    var sl2 := suml2 - Term(wi, li, li);
    VisitedCases(x, w, nmax, i, before, slx, sl2);
    if slx > 0.0 && sl2 > 0.0 {
      var newL := Proposal(xi, slx, sl2, nmax);
      if newL != L[i] {
        slx := slx + Term(wi, xi, newL as real);
        sl2 := sl2 + Term(wi, newL as real, newL as real);
        if Accepted(sumlx, suml2, slx, sl2) {
          L[i] := Byte(newL);
          sumlx := slx;
          suml2 := sl2;
          changed := true;
          assert L[..] == before.codes[i := Byte(newL)];
        }
      }
    }
  }

  /** One sweep over all elements. */
  method SweepOnce(x: seq<real>, w: seq<real>, nmax: nat, sumlx0: real, suml20: real, L: array<int>)
    returns (sumlx: real, suml2: real, nChanged: nat)
    requires |x| == |w| == L.Length
    modifies L
    ensures (State(L[..], sumlx, suml2), nChanged) == Swept(x, w, nmax, State(old(L[..]), sumlx0, suml20), |x|)
  {
    hide Visited;
    ghost var before := State(L[..], sumlx0, suml20);
    sumlx, suml2, nChanged := sumlx0, suml20, 0;
    var i := 0;
    while i < |x|
      invariant 0 <= i <= |x| && (State(L[..], sumlx, suml2), nChanged) == Swept(x, w, nmax, before, i)
    {
      var changed: bool;
      sumlx, suml2, changed := Visit(x, w, nmax, i, sumlx, suml2, L);
      if changed { nChanged := nChanged + 1; }
      i := i + 1;
    }
  }

  /** The coordinate descent. */
  method Descend(x: seq<real>, w: seq<real>, nmax: nat, sumlx0: real, suml20: real, L: array<int>)
    returns (sumlx: real, suml2: real)
    requires |x| == |w| == L.Length
    modifies L
    ensures State(L[..], sumlx, suml2) == Descended(x, w, nmax, State(old(L[..]), sumlx0, suml20), TRIES)
  {
    hide Swept;
    ghost var start := State(L[..], sumlx0, suml20);
    sumlx, suml2 := sumlx0, suml20;
    var itry := 0;
    while itry < TRIES
      invariant 0 <= itry <= TRIES
      invariant Descended(x, w, nmax, start, TRIES)
             == Descended(x, w, nmax, State(L[..], sumlx, suml2), TRIES - itry)
    {
      var nChanged;
      sumlx, suml2, nChanged := SweepOnce(x, w, nmax, sumlx, suml2, L);
      if nChanged == 0 { return; }
      itry := itry + 1;
    }
  }

  /** ds4q_make_qp_quants; L receives the codes. */
  method MakeQpQuants(x: seq<real>, w: seq<real>, nmax: nat, L: array<int>) returns (scale: real)
    requires |x| == |w| == L.Length && nmax > 0
    modifies L
    ensures Tiny(x) ==> scale == 0.0 && forall i :: 0 <= i < L.Length ==> L[i] == 0
    ensures !Tiny(x) ==>
      var s := Found(x, w, nmax);
      L[..] == s.codes && scale == Ratio(s.xl, s.ll)
    ensures !Tiny(x) && NonNegative(x) && NonNegative(w) && nmax <= 255 ==>
      InRange(L[..], nmax) && L[..] == ResultCodes(x, w, nmax) && scale == ScaleOf(FitOf(w, x, L[..]))
  {
    hide Fit.SumXL, Fit.SumLL, Descended, Stored, Pick, Code, ResultCodes, FitOf, InRange, NonNegative;
    var max := TopOf(x);
    TopIs(x, |x|);
    if max < EPS {
      forall i | 0 <= i < L.Length { L[i] := 0; }
      return 0.0;
    }
    var iscale := PickStep(x, w, nmax, max, L);
    var sumlx, suml2 := StoreCodes(x, w, iscale, nmax, L);
    sumlx, suml2 := Descend(x, w, nmax, sumlx, suml2, L);
    scale := if suml2 > 0.0 then sumlx / suml2 else 0.0;
    if NonNegative(x) && NonNegative(w) && nmax <= 255 { FoundIsResult(x, w, nmax); }
  }
}
