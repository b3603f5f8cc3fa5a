/**
 Weighted least squares over reals: the facts about sums that the block quantiser searches of
 gguf-tools/quants.c silently depend on.
 */
module WeightedFit {

  // ---- rounding ------------------------------------------------------------------

  /** ds4q_nearest_int: round to nearest, ties to even. */
  function NearestInt(v: real): int {
    var f := v.Floor;
    var d := v - f as real;
    if d < 0.5 then f else if d > 0.5 then f + 1 else if f % 2 == 0 then f else f + 1
  }

  lemma NearestIntError(v: real)
    ensures -0.5 <= NearestInt(v) as real - v <= 0.5
    ensures NearestInt(v) as real - v in {-0.5, 0.5} ==> NearestInt(v) % 2 == 0
  {
  }

  lemma NearestIntMonotone(a: real, b: real)
    requires a <= b
    ensures NearestInt(a) <= NearestInt(b)
  {
    if a.Floor == b.Floor {
    } else {
      assert a.Floor + 1 <= b.Floor;
    }
  }

  lemma NearestIntOfInt(k: int, v: real)
    ensures v <= k as real ==> NearestInt(v) <= k
    ensures v >= k as real ==> NearestInt(v) >= k
  {
  }

  function Clamp(k: int, nmax: nat): (r: nat)
    ensures r <= nmax
  {
    if k < 0 then 0 else if k > nmax then nmax else k
  }

  // ---- division ------------------------------------------------------------------------

  lemma Quotient(a: real, d: real)
    requires d > 0.0
    ensures a > 0.0 <==> a / d > 0.0
    ensures a >= 0.0 <==> a / d >= 0.0
  {
    assert a / d * d == a;
  }

  lemma Divided(a: real, b: real)
    requires b != 0.0
    ensures a / b * b == a
  {
  }

  lemma Cancel(d: real, u: real, v: real)
    requires d != 0.0 && d * u == d * v
    ensures u == v
  {
  }

  // ---- sums ------------------------------------------------------------------------

  /** The sum of the first n terms. */
  function Sum(a: seq<real>, n: nat): real
    requires n <= |a|
  {
    if n == 0 then 0.0 else Sum(a, n - 1) + a[n - 1]
  }

  lemma SumStep(a: seq<real>, n: nat)
    requires 0 < n <= |a|
    ensures Sum(a, n) == Sum(a, n - 1) + a[n - 1]
  {
  }

  /** Pointwise product. */
  function Prod(a: seq<real>, b: seq<real>): (r: seq<real>)
    requires |a| == |b|
    ensures |r| == |a| && forall i :: 0 <= i < |a| ==> r[i] == a[i] * b[i]
  {
    seq(|a|, i requires 0 <= i < |a| => a[i] * b[i])
  }

  /** Nonnegative terms; c is positive wherever d is. */
  lemma {:induction false} SumSigns(c: seq<real>, d: seq<real>, n: nat)
    requires n <= |c| && n <= |d|
    requires forall i :: 0 <= i < n ==> c[i] >= 0.0 && d[i] >= 0.0 && (d[i] > 0.0 ==> c[i] > 0.0)
    ensures Sum(c, n) >= 0.0 && Sum(d, n) >= 0.0
    ensures Sum(d, n) > 0.0 ==> Sum(c, n) > 0.0
  {
    if n > 0 { SumSigns(c, d, n - 1); }
  }

  function Square(a: real): (r: real)
    ensures r >= 0.0
  {
    a * a
  }

  function Abs(a: real): (r: real)
    ensures r >= 0.0
  {
    if a < 0.0 then -a else a
  }

  ghost predicate NonNegative(w: seq<real>) {
    forall i :: 0 <= i < |w| ==> w[i] >= 0.0
  }

  /** Codes as reals. */
  function Reals(codes: seq<int>): (r: seq<real>)
    ensures |r| == |codes| && forall i :: 0 <= i < |codes| ==> r[i] == codes[i] as real
  {
    seq(|codes|, i requires 0 <= i < |codes| => codes[i] as real)
  }

  // ---- the sums of the source -------------------------------------------------------------

  function Power(h: real, mad: bool): (r: real)
    ensures r >= 0.0
  {
    if mad then Abs(h) else Square(h)
  }

  function Miss(x: real, l: real, scale: real, offset: real): real {
    scale * l + offset - x
  }

  /** The weighted absolute or squared error of one element. */
  function ErrorTerm(w: real, x: real, l: real, scale: real, offset: real, mad: bool): real {
    w * Power(Miss(x, l, scale, offset), mad)
  }

  function Minor(t: real, lx: real, x: real, s: real): real {
    t * lx - x * s
  }

  /** Weights, values, and codes of one block. */
  datatype Fit = Fit(w: seq<real>, x: seq<real>, l: seq<real>) {
    predicate Sized() { |w| == |x| == |l| }

    function SumW(n: nat): real requires Sized() && n <= |w| { Sum(w, n) }

    function SumX(n: nat): real requires Sized() && n <= |w| { Sum(Prod(w, x), n) }

    function SumL(n: nat): real requires Sized() && n <= |w| { Sum(Prod(w, l), n) }

    function SumLL(n: nat): real requires Sized() && n <= |w| { Sum(Prod(Prod(w, l), l), n) }

    function SumXL(n: nat): real requires Sized() && n <= |w| { Sum(Prod(Prod(w, l), x), n) }

    function SumXX(n: nat): real requires Sized() && n <= |w| { Sum(Prod(Prod(w, x), x), n) }

    /** The weighted error of approximating x by scale * l + offset, term by term. */
    function Errors(scale: real, offset: real, mad: bool): (r: seq<real>)
      requires Sized()
      ensures |r| == |w|
      ensures forall i :: 0 <= i < |w| ==> r[i] == ErrorTerm(w[i], x[i], l[i], scale, offset, mad)
    {
      seq(|w|, i requires 0 <= i < |w| => ErrorTerm(w[i], x[i], l[i], scale, offset, mad))
    }

    function Error(scale: real, offset: real, mad: bool): real
      requires Sized()
    {
      Sum(Errors(scale, offset, mad), |w|)
    }

    /** sum_w * sum_xl - sum_x * sum_l */
    function Cov(n: nat): real requires Sized() && n <= |w| { Minor(SumW(n), SumXL(n), SumX(n), SumL(n)) }

    /** sum_w * sum_l2 - sum_l * sum_l, the determinant of the normal equations */
    function Det(n: nat): real requires Sized() && n <= |w| { Minor(SumW(n), SumLL(n), SumL(n), SumL(n)) }
  }

  // ---- the squared error is a quadratic -------------------------------------------------------

  function Quadratic(a: real, b: real, ll: real, s: real, t: real, lx: real, x: real, xx: real): real {
    a * a * ll + 2.0 * a * b * s + b * b * t - 2.0 * a * lx - 2.0 * b * x + xx
  }

  lemma ErrorTermQuadratic(w: real, x: real, l: real, a: real, b: real)
    ensures ErrorTerm(w, x, l, a, b, false) == Quadratic(a, b, w * l * l, w * l, w, w * l * x, w * x, w * x * x)
  {
  }

  /** One more term in each of the six sums. */
  lemma SumsStep(f: Fit, n: nat, w: real, x: real, l: real)
    requires f.Sized() && 0 < n <= |f.w|
    requires w == f.w[n - 1] && x == f.x[n - 1] && l == f.l[n - 1]
    ensures f.SumW(n) == f.SumW(n - 1) + w
    ensures f.SumL(n) == f.SumL(n - 1) + w * l
    ensures f.SumX(n) == f.SumX(n - 1) + w * x
    ensures f.SumLL(n) == f.SumLL(n - 1) + w * l * l
    ensures f.SumXL(n) == f.SumXL(n - 1) + w * l * x
    ensures f.SumXX(n) == f.SumXX(n - 1) + w * x * x
  {
  }

  lemma Distributes(p: real, s: real, d: real, s': real)
    requires s' == s + d
    ensures p * s' == p * s + p * d
  {
  }

  lemma QuadraticAdds(a: real, b: real, ll: real, s: real, t: real, lx: real, x: real, xx: real,
                      dll: real, ds: real, dt: real, dlx: real, dx: real, dxx: real,
                      ll': real, s': real, t': real, lx': real, x': real, xx': real)
    requires ll' == ll + dll && s' == s + ds && t' == t + dt && lx' == lx + dlx && x' == x + dx && xx' == xx + dxx
    ensures Quadratic(a, b, ll', s', t', lx', x', xx')
         == Quadratic(a, b, ll, s, t, lx, x, xx) + Quadratic(a, b, dll, ds, dt, dlx, dx, dxx)
  {
    Distributes(a * a, ll, dll, ll');
    Distributes(2.0 * a * b, s, ds, s');
    Distributes(b * b, t, dt, t');
    Distributes(2.0 * a, lx, dlx, lx');
    Distributes(2.0 * b, x, dx, x');
  }

  lemma QuadraticStep(a: real, b: real, w: real, x: real, l: real,
                      ll: real, s: real, t: real, lx: real, sx: real, xx: real, e: real,
                      ll': real, s': real, t': real, lx': real, sx': real, xx': real, e': real)
    requires ll' == ll + w * l * l && s' == s + w * l && t' == t + w
    requires lx' == lx + w * l * x && sx' == sx + w * x && xx' == xx + w * x * x
    requires e == Quadratic(a, b, ll, s, t, lx, sx, xx)
    requires e' == e + ErrorTerm(w, x, l, a, b, false)
    ensures e' == Quadratic(a, b, ll', s', t', lx', sx', xx')
  {
    ErrorTermQuadratic(w, x, l, a, b);
    QuadraticAdds(a, b, ll, s, t, lx, sx, xx, w * l * l, w * l, w, w * l * x, w * x, w * x * x,
                  ll', s', t', lx', sx', xx');
  }

  lemma ErrorStep(f: Fit, a: real, b: real, mad: bool, n: nat, w: real, x: real, l: real)
    requires f.Sized() && 0 < n <= |f.w|
    requires w == f.w[n - 1] && x == f.x[n - 1] && l == f.l[n - 1]
    ensures Sum(f.Errors(a, b, mad), n) == Sum(f.Errors(a, b, mad), n - 1) + ErrorTerm(w, x, l, a, b, mad)
  {
    hide ErrorTerm;
  }

  lemma {:induction false} SquaredErrorPrefix(f: Fit, a: real, b: real, n: nat)
    requires f.Sized() && n <= |f.w|
    ensures Sum(f.Errors(a, b, false), n)
         == Quadratic(a, b, f.SumLL(n), f.SumL(n), f.SumW(n), f.SumXL(n), f.SumX(n), f.SumXX(n))
  {
    if n == 0 {
    } else {
      hide *;
      var w, x, l := f.w[n - 1], f.x[n - 1], f.l[n - 1];
      SquaredErrorPrefix(f, a, b, n - 1);
      SumsStep(f, n, w, x, l);
      ErrorStep(f, a, b, false, n, w, x, l);
      QuadraticStep(a, b, w, x, l, f.SumLL(n - 1), f.SumL(n - 1), f.SumW(n - 1), f.SumXL(n - 1), f.SumX(n - 1),
                    f.SumXX(n - 1), Sum(f.Errors(a, b, false), n - 1),
                    f.SumLL(n), f.SumL(n), f.SumW(n), f.SumXL(n), f.SumX(n), f.SumXX(n), Sum(f.Errors(a, b, false), n));
    }
  }

  /** The weighted squared error, as a polynomial in scale and offset. */
  lemma SquaredErrorQuadratic(f: Fit, a: real, b: real)
    requires f.Sized()
    ensures f.Error(a, b, false)
         == Quadratic(a, b, f.SumLL(|f.w|), f.SumL(|f.w|), f.SumW(|f.w|), f.SumXL(|f.w|), f.SumX(|f.w|), f.SumXX(|f.w|))
  {
    SquaredErrorPrefix(f, a, b, |f.w|);
  }

  /** The loss of one element: the weight times the distance between x and scale * l + offset, or its square. */
  ghost predicate IsLoss(w: real, x: real, l: real, scale: real, offset: real, mad: bool, loss: real) {
    var miss := x - (scale * l + offset);
    loss == w * (if !mad then miss * miss else if miss < 0.0 then -miss else miss)
  }

  /** The error is the sum of the losses. */
  lemma ErrorIs(f: Fit, scale: real, offset: real, mad: bool, losses: seq<real>)
    requires f.Sized() && |losses| == |f.w|
    requires forall i :: 0 <= i < |f.w| ==> IsLoss(f.w[i], f.x[i], f.l[i], scale, offset, mad, losses[i])
    ensures f.Error(scale, offset, mad) == Sum(losses, |losses|)
  {
    hide Sum, ErrorTerm, IsLoss;
    forall i | 0 <= i < |losses|
      ensures f.Errors(scale, offset, mad)[i] == losses[i]
    {
      LossIs(f.w[i], f.x[i], f.l[i], scale, offset, mad, losses[i]);
    }
    assert f.Errors(scale, offset, mad) == losses;
  }

  lemma LossIs(w: real, x: real, l: real, scale: real, offset: real, mad: bool, loss: real)
    requires IsLoss(w, x, l, scale, offset, mad, loss)
    ensures ErrorTerm(w, x, l, scale, offset, mad) == loss
  {
    var miss, turned := x - (scale * l + offset), Miss(x, l, scale, offset);
    assert turned == -miss;
    assert turned * turned == miss * miss;
  }

  // ---- weighted Chebyshev ------------------------------------------------------------

  /** l never decreases where x increases. */
  ghost predicate Comonotone(x: seq<real>, l: seq<real>) {
    && |x| == |l|
    && forall i, j :: 0 <= i < |x| && 0 <= j < |x| && x[i] <= x[j] ==> l[i] <= l[j]
  }

  function CrossTerm(w: real, x: real, l: real, x0: real, l0: real): real {
    w * ((x0 - x) * (l0 - l))
  }

  /** The sum of the cross terms, by the sums of w, w * l, w * x and w * l * x. */
  function CrossForm(x0: real, l0: real, t: real, s: real, sx: real, lx: real): real {
    x0 * l0 * t - x0 * s - l0 * sx + lx
  }

  function Cross(w: seq<real>, x: seq<real>, l: seq<real>, x0: real, l0: real): (r: seq<real>)
    requires |w| == |x| == |l|
    ensures |r| == |w| && forall i :: 0 <= i < |w| ==> r[i] == CrossTerm(w[i], x[i], l[i], x0, l0)
  {
    seq(|w|, i requires 0 <= i < |w| => CrossTerm(w[i], x[i], l[i], x0, l0))
  }

  lemma CrossAdds(w: real, x: real, l: real, x0: real, l0: real, t: real, s: real, sx: real, lx: real, c: real,
                  t': real, s': real, sx': real, lx': real, c': real)
    requires t' == t + w && s' == s + w * l && sx' == sx + w * x && lx' == lx + w * l * x
    requires c == CrossForm(x0, l0, t, s, sx, lx)
    requires c' == c + CrossTerm(w, x, l, x0, l0)
    ensures c' == CrossForm(x0, l0, t', s', sx', lx')
  {
    Distributes(x0 * l0, t, w, t');
    Distributes(x0, s, w * l, s');
    Distributes(l0, sx, w * x, sx');
    assert w * ((x0 - x) * (l0 - l)) == x0 * l0 * w - x0 * (w * l) - l0 * (w * x) + w * l * x;
  }

  lemma CrossStep(f: Fit, x0: real, l0: real, n: nat, w: real, x: real, l: real)
    requires f.Sized() && 0 < n <= |f.w|
    requires w == f.w[n - 1] && x == f.x[n - 1] && l == f.l[n - 1]
    ensures Sum(Cross(f.w, f.x, f.l, x0, l0), n)
         == Sum(Cross(f.w, f.x, f.l, x0, l0), n - 1) + CrossTerm(w, x, l, x0, l0)
  {
    hide CrossTerm;
  }

  lemma {:induction false} CrossExpands(f: Fit, x0: real, l0: real, n: nat)
    requires f.Sized() && n <= |f.w|
    ensures Sum(Cross(f.w, f.x, f.l, x0, l0), n)
         == CrossForm(x0, l0, f.SumW(n), f.SumL(n), f.SumX(n), f.SumXL(n))
  {
    if n == 0 {
    } else {
      hide *;
      var w, x, l := f.w[n - 1], f.x[n - 1], f.l[n - 1];
      CrossExpands(f, x0, l0, n - 1);
      SumsStep(f, n, w, x, l);
      CrossStep(f, x0, l0, n, w, x, l);
      var c := Cross(f.w, f.x, f.l, x0, l0);
      CrossAdds(w, x, l, x0, l0, f.SumW(n - 1), f.SumL(n - 1), f.SumX(n - 1), f.SumXL(n - 1), Sum(c, n - 1),
                f.SumW(n), f.SumL(n), f.SumX(n), f.SumXL(n), Sum(c, n));
    }
  }

  lemma ProductSign(w: real, u: real, v: real)
    requires w >= 0.0 && (u >= 0.0 ==> v >= 0.0) && (u <= 0.0 ==> v <= 0.0)
    ensures w * (u * v) >= 0.0
    ensures w * (v * v) >= 0.0
    ensures w * (v * v) > 0.0 ==> w * (u * v) > 0.0
  {
    assert u * v >= 0.0;
    assert v * v >= 0.0;
    if w * (v * v) > 0.0 {
      assert w > 0.0 && v != 0.0;
      assert u * v > 0.0;
    }
  }

  lemma CrossSign(f: Fit, k: nat, n: nat)
    requires f.Sized() && n <= |f.w| && k < |f.w| && NonNegative(f.w) && Comonotone(f.x, f.l)
    ensures Sum(Cross(f.w, f.x, f.l, f.x[k], f.l[k]), n) >= 0.0
    ensures Sum(Cross(f.w, f.l, f.l, f.l[k], f.l[k]), n) >= 0.0
    ensures Sum(Cross(f.w, f.l, f.l, f.l[k], f.l[k]), n) > 0.0 ==> Sum(Cross(f.w, f.x, f.l, f.x[k], f.l[k]), n) > 0.0
  {
    var c, d := Cross(f.w, f.x, f.l, f.x[k], f.l[k]), Cross(f.w, f.l, f.l, f.l[k], f.l[k]);
    forall i | 0 <= i < n
      ensures c[i] >= 0.0 && d[i] >= 0.0 && (d[i] > 0.0 ==> c[i] > 0.0)
    {
      assert f.x[i] <= f.x[k] ==> f.l[i] <= f.l[k];
      assert f.x[k] <= f.x[i] ==> f.l[k] <= f.l[i];
      ProductSign(f.w[i], f.x[k] - f.x[i], f.l[k] - f.l[i]);
    }
    SumSigns(c, d, n);
  }

  lemma CovStep(t: real, lx: real, x: real, s: real, wi: real, xi: real, li: real, cross: real,
                t': real, lx': real, x': real, s': real)
    requires cross == CrossForm(xi, li, t, s, x, lx)
    requires t' == t + wi && lx' == lx + wi * li * xi && x' == x + wi * xi && s' == s + wi * li
    ensures Minor(t', lx', x', s') == Minor(t, lx, x, s) + wi * cross
  {
    calc {
      (t + wi) * (lx + wi * li * xi) - (x + wi * xi) * (s + wi * li);
      t * lx + t * (wi * li * xi) + wi * lx + wi * (wi * li * xi)
        - (x * s + x * (wi * li) + wi * xi * s + wi * xi * (wi * li));
      (t * lx - x * s) + wi * (xi * li * t) + wi * lx - wi * (li * x) - wi * (xi * s);
      (t * lx - x * s) + wi * (xi * li * t - xi * s - li * x + lx);
    }
  }

  lemma CovUnfold(f: Fit, n: nat)
    requires f.Sized() && 0 < n <= |f.w|
    ensures f.Cov(n) == f.Cov(n - 1) + f.w[n - 1] * Sum(Cross(f.w, f.x, f.l, f.x[n - 1], f.l[n - 1]), n - 1)
  {
    hide Minor, CrossForm, Cross, Sum;
    var w, x, l := f.w[n - 1], f.x[n - 1], f.l[n - 1];
    CrossExpands(f, x, l, n - 1);
    SumsStep(f, n, w, x, l);
    CovStep(f.SumW(n - 1), f.SumXL(n - 1), f.SumX(n - 1), f.SumL(n - 1), w, x, l,
            Sum(Cross(f.w, f.x, f.l, x, l), n - 1), f.SumW(n), f.SumXL(n), f.SumX(n), f.SumL(n));
  }

  lemma DetUnfold(f: Fit, n: nat)
    requires f.Sized() && 0 < n <= |f.w|
    ensures f.Det(n) == f.Det(n - 1) + f.w[n - 1] * Sum(Cross(f.w, f.l, f.l, f.l[n - 1], f.l[n - 1]), n - 1)
  {
    var g := Fit(f.w, f.l, f.l);
    assert g.Cov(n) == f.Det(n) && g.Cov(n - 1) == f.Det(n - 1);
    CovUnfold(g, n);
    hide Fit.Cov, Fit.Det, Sum, Cross;
  }

  /** Weighted Chebyshev: for comonotone x and l the covariance is nonnegative, and positive as soon as l varies. */
  lemma {:induction false} Chebyshev(f: Fit, n: nat)
    requires f.Sized() && n <= |f.w| && NonNegative(f.w) && Comonotone(f.x, f.l)
    ensures f.Cov(n) >= 0.0 && f.Det(n) >= 0.0
    ensures f.Det(n) > 0.0 ==> f.Cov(n) > 0.0
  {
    if n == 0 {
    } else {
      hide Minor, Cross, Sum;
      var k := n - 1;
      Chebyshev(f, k);
      CovUnfold(f, n);
      DetUnfold(f, n);
      CrossSign(f, k, k);
      Scaled(f.w[k], Sum(Cross(f.w, f.x, f.l, f.x[k], f.l[k]), k), Sum(Cross(f.w, f.l, f.l, f.l[k], f.l[k]), k));
    }
  }

  lemma Scaled(w: real, c: real, d: real)
    requires w >= 0.0 && c >= 0.0 && d >= 0.0 && (d > 0.0 ==> c > 0.0)
    ensures w * c >= 0.0 && w * d >= 0.0
    ensures w * d > 0.0 ==> w * c > 0.0
  {
  }

  // ---- bounding the error -----------------------------------------------------------------

  lemma PowerOrder(d: real, h: real, mad: bool)
    requires -h <= d <= h
    ensures Power(d, mad) <= Power(h, mad)
  {
    assert (h - d) * (h + d) >= 0.0;
    assert (h - d) * (h + d) == h * h - d * d;
  }

  lemma NonNegativeProduct(a: real, b: real)
    requires a >= 0.0 && b >= 0.0
    ensures a * b >= 0.0
  {
  }

  lemma PositiveProduct(a: real, b: real)
    requires a > 0.0 && b > 0.0
    ensures a * b > 0.0
  {
  }

  lemma ScaledOrder(c: real, a: real, b: real)
    requires c >= 0.0 && a <= b
    ensures c * a <= c * b
  {
  }

  /** The error when every element of a block of weight total is missed by h. */
  function ErrorLimit(total: real, h: real, mad: bool): real {
    total * Power(h, mad)
  }

  lemma LimitStep(total: real, w: real, total': real, h: real, mad: bool)
    requires total' == total + w
    ensures ErrorLimit(total', h, mad) == ErrorLimit(total, h, mad) + ErrorLimit(w, h, mad)
  {
  }

  ghost predicate Within(f: Fit, scale: real, offset: real, h: real)
    requires f.Sized()
  {
    forall i :: 0 <= i < |f.w| ==> -h <= Miss(f.x[i], f.l[i], scale, offset) <= h
  }

  /** The error when no element is missed by more than h. */
  lemma {:induction false} ErrorBound(f: Fit, scale: real, offset: real, mad: bool, h: real, n: nat)
    requires f.Sized() && NonNegative(f.w) && n <= |f.w|
    requires Within(f, scale, offset, h)
    ensures Sum(f.Errors(scale, offset, mad), n) <= ErrorLimit(Sum(f.w, n), h, mad)
  {
    if n == 0 {
    } else {
      assert f.w[n - 1] >= 0.0;
      assert -h <= Miss(f.x[n - 1], f.l[n - 1], scale, offset) <= h;
      hide *;
      ErrorBound(f, scale, offset, mad, h, n - 1);
      var w, x, l := f.w[n - 1], f.x[n - 1], f.l[n - 1];
      SumStep(f.w, n);
      TermBound(w, x, l, scale, offset, mad, h);
      ErrorStep(f, scale, offset, mad, n, w, x, l);
      LimitStep(Sum(f.w, n - 1), w, Sum(f.w, n), h, mad);
    }
  }

  lemma TermBound(w: real, x: real, l: real, scale: real, offset: real, mad: bool, h: real)
    requires w >= 0.0 && -h <= Miss(x, l, scale, offset) <= h
    ensures ErrorTerm(w, x, l, scale, offset, mad) <= ErrorLimit(w, h, mad)
  {
    hide Power, Miss;
    PowerOrder(Miss(x, l, scale, offset), h, mad);
    ScaledOrder(w, Power(Miss(x, l, scale, offset), mad), Power(h, mad));
  }
}
