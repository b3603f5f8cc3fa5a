/**
 One group of 32 values of an IQ2_XXS block from its signs to its packed bits, gguf-tools/quants.c:849-978: the signs,
 the first scale by ds4q_make_qp_quants, the search and the packing. Arithmetic is over reals.
 */
module Iq2Group {
  import opened WeightedFit
  import opened Iq2Grid
  import opened Iq2Index
  import opened Iq2Build
  import opened Iq2Search
  import QpSearch

  /** The values that the scale searches see, four tuples of eight. */
  function Passed(x: seq<real>, w: seq<real>, n: nat): (r: seq<real>)
    requires |x| == |w| == 32 && n <= 4
    ensures |r| == 8 * n
  {
    if n == 0 then [] else
    Passed(x, w, n - 1) + Signed(x[8 * n - 8..8 * n], w[8 * n - 8..8 * n]).0
  }

  /** A group with one value of -1 among ones, all of the same weight, is passed on with its sign. */
  lemma NegativeReachesSearch(x: seq<real>, w: seq<real>, c: real)
    requires |x| == |w| == 32 && c > 0.0 && forall i :: 0 <= i < 32 ==> w[i] == c
    requires x[0] == -1.0 && forall i :: 1 <= i < 32 ==> x[i] == 1.0
    ensures Passed(x, w, 4) == x
    ensures QpSearch.Bytes(QpSearch.Codes(Passed(x, w, 4), 4.0, 4))[0] == 252
  {
    hide *;
    FirstTuple(x[0..8], w[0..8], c);
    OnesTuple(x[8..16], w[8..16]);
    OnesTuple(x[16..24], w[16..24]);
    OnesTuple(x[24..32], w[24..32]);
    PassedParts(x, w);
    Rejoined(x);
    QpSearch.NegativeValueWraps(x);
  }

  lemma Rejoined(x: seq<real>)
    requires |x| == 32
    ensures x[0..8] + x[8..16] + x[16..24] + x[24..32] == x
  {
  }

  lemma PassedParts(x: seq<real>, w: seq<real>)
    requires |x| == |w| == 32
    ensures Passed(x, w, 4) == Signed(x[0..8], w[0..8]).0 + Signed(x[8..16], w[8..16]).0
                             + Signed(x[16..24], w[16..24]).0 + Signed(x[24..32], w[24..32]).0
  {
    hide Signed;
    assert Passed(x, w, 1) == Signed(x[0..8], w[0..8]).0;
    assert Passed(x, w, 2) == Passed(x, w, 1) + Signed(x[8..16], w[8..16]).0;
    assert Passed(x, w, 3) == Passed(x, w, 2) + Signed(x[16..24], w[16..24]).0;
  }

  lemma {:induction false} NoFlips(s: seq<bool>)
    requires forall i :: 0 <= i < |s| ==> !s[i]
    ensures Flips(s) == 0
  {
    if |s| == 0 {
    } else {
      NoFlips(s[..|s| - 1]);
    }
  }

  lemma {:induction false} FirstFlip(s: seq<bool>)
    requires |s| > 0 && s[0] && forall i :: 1 <= i < |s| ==> !s[i]
    ensures Flips(s) == 1
  {
    if |s| == 1 {
      assert s[..0] == [];
    } else {
      FirstFlip(s[..|s| - 1]);
    }
  }

  lemma {:induction false} FirstIsLeast(x: seq<real>, w: seq<real>, n: nat)
    requires |x| == |w| && 1 <= n <= |x|
    requires forall i :: 0 <= i < n ==> WeightedSquare(w[i], x[i]) == WeightedSquare(w[0], x[0])
    ensures Least(x, w, n) == 0
  {
    hide WeightedSquare;
    if n == 1 {
    } else {
      FirstIsLeast(x, w, n - 1);
    }
  }

  lemma FirstTuple(x: seq<real>, w: seq<real>, c: real)
    requires |x| == |w| == 8 && x[0] == -1.0 && forall i :: 1 <= i < 8 ==> x[i] == 1.0
    requires forall i :: 0 <= i < 8 ==> w[i] == c
    ensures Signed(x, w).0 == x
  {
    hide Flips, Least;
    FirstFlip(Negatives(x));
    forall i | 0 <= i < 8
      ensures WeightedSquare(w[i], x[i]) == c
    {
      assert x[i] == 1.0 || x[i] == -1.0;
    }
    FirstIsLeast(x, w, 8);
  }

  lemma OnesTuple(x: seq<real>, w: seq<real>)
    requires |x| == |w| == 8 && forall i :: 0 <= i < 8 ==> x[i] == 1.0
    ensures Signed(x, w).0 == x
  {
    hide Flips, Least;
    NoFlips(Negatives(x));
  }

  // ---- the group as it is written ------------------------------------------------------------------------

  /** The signs of the four tuples: eight each, with an even number of flips. */
  ghost predicate EvenSigns(signs: seq<seq<bool>>) {
    |signs| == 4 && forall k :: 0 <= k < 4 ==> |signs[k]| == 8 && Flips(signs[k]) % 2 == 0
  }

  /** Value and sign give the first 8 * n inputs back. */
  ghost predicate Restores(x: seq<real>, xval: seq<real>, signs: seq<seq<bool>>, n: nat)
    requires |xval| >= 8 * n && |signs| >= n && |x| >= 8 * n
  {
    && (forall k :: 0 <= k < n ==> |signs[k]| == 8)
    && forall k, i :: 0 <= k < n && 0 <= i < 8 ==>
         x[8 * k + i] == if signs[k][i] then -xval[8 * k + i] else xval[8 * k + i]
  }

  lemma RestoresOne(x: seq<real>, xval: seq<real>, signs: seq<seq<bool>>, n: nat, v: seq<real>, s: seq<bool>)
    requires |xval| == 8 * n && |signs| == n && |x| >= 8 * n + 8 && |v| == |s| == 8
    requires Restores(x, xval, signs, n)
    requires forall i :: 0 <= i < 8 ==> x[8 * n..8 * n + 8][i] == if s[i] then -v[i] else v[i]
    ensures Restores(x, xval + v, signs + [s], n + 1)
  {
    var r, y := signs + [s], xval + v;
    assert forall k :: 0 <= k < n + 1 ==> |r[k]| == 8;
    forall k, i | 0 <= k < n + 1 && 0 <= i < 8
      ensures x[8 * k + i] == if r[k][i] then -y[8 * k + i] else y[8 * k + i]
    {
      if k == n {
        assert x[8 * n..8 * n + 8][i] == x[8 * k + i] && r[k] == s && y[8 * k + i] == v[i];
      } else {
        assert r[k][i] == signs[k][i] && y[8 * k + i] == xval[8 * k + i];
      }
    }
  }

  lemma EvenOneMore(signs: seq<seq<bool>>, s: seq<bool>)
    requires forall l :: 0 <= l < |signs| ==> |signs[l]| == 8 && Flips(signs[l]) % 2 == 0
    requires |s| == 8 && Flips(s) % 2 == 0
    ensures forall l :: 0 <= l < |signs + [s]| ==> |(signs + [s])[l]| == 8 && Flips((signs + [s])[l]) % 2 == 0
  {
    hide Flips;
  }

  method SignGroup(x: seq<real>, w: seq<real>) returns (xval: seq<real>, signs: seq<seq<bool>>)
    requires |x| == |w| == 32
    ensures xval == Passed(x, w, 4) && EvenSigns(signs) && Restores(x, xval, signs, 4)
  {
    hide Flips, Signed, Restores;
    xval, signs := [], [];
    var k := 0;
    assert Restores(x, [], [], 0) by { RestoresNone(x); }
    while k < 4
      invariant 0 <= k <= 4 && xval == Passed(x, w, k) && |signs| == k
      invariant forall l :: 0 <= l < k ==> |signs[l]| == 8 && Flips(signs[l]) % 2 == 0
      invariant Restores(x, xval, signs, k)
    {
      var tx, tw := x[8 * k..8 * k + 8], w[8 * k..8 * k + 8];
      var v, s := SignTuple(tx, tw);
      SignedParts(tx, tw);
      RestoresOne(x, xval, signs, k, v, s);
      EvenOneMore(signs, s);
      xval, signs := xval + v, signs + [s];
      k := k + 1;
    }
  }

  lemma RestoresNone(x: seq<real>)
    ensures Restores(x, [], [], 0)
  {
  }

  /** The bits of a group: nothing, or four grid indices, four times eight signs and a scale. */
  datatype Group = Zero | Packed(q: seq<nat>, signs: seq<seq<bool>>, scale: real) {
    predicate Shaped(grid: seq<nat>) {
      Packed? && |q| == |signs| == 4 && forall k :: 0 <= k < 4 ==> q[k] < |grid| && |signs[k]| == 8
    }
  }

  method FlipAll(signs: seq<seq<bool>>) returns (r: seq<seq<bool>>)
    requires EvenSigns(signs)
    ensures EvenSigns(r) && forall k :: 0 <= k < 4 ==> r[k] == Flipped(signs[k])
  {
    hide Flips;
    r := [Flipped(signs[0]), Flipped(signs[1]), Flipped(signs[2]), Flipped(signs[3])];
    forall k | 0 <= k < 4
      ensures |r[k]| == 8 && Flips(r[k]) % 2 == 0
    {
      FlippedCount(signs[k]);
      assert r[k] == Flipped(signs[k]);
    }
  }

  lemma GridIndices(m: Tables, q: seq<nat>)
    requires m.Valid() && forall k :: 0 <= k < |q| ==> q[k] < GRID_SIZE
    ensures forall k :: 0 <= k < |q| ==> q[k] < |m.g|
  {
    hide Increasing, Built;
  }

  lemma SevenAreEnough(signs: seq<seq<bool>>)
    requires EvenSigns(signs)
    ensures forall k :: 0 <= k < 4 ==> |signs[k]| == 8 && EighthSign(signs[k]) == signs[k][7]
  {
    hide Flips, EighthSign;
    forall k | 0 <= k < 4
      ensures |signs[k]| == 8 && EighthSign(signs[k]) == signs[k][7]
    {
      SevenSignsAreEnough(signs[k]);
    }
  }

  /** The first scale, for a group with a value that counts. */
  function FirstScale(xval: seq<real>, weight: seq<real>): real
    requires |xval| == |weight| == 32 && QpSearch.Top(xval, 32) > 0.0
  {
    var s := QpSearch.Found(xval, weight, 4);
    QpSearch.Ratio(s.xl, s.ll)
  }

  /** How a group came about: its values and signs before the search, the first scale, the search and the tuples. */
  datatype Trace = Trace(xval: seq<real>, was: seq<seq<bool>>, first: real, course: Course, l: seq<nat>)

  /** Signs and values of a trace are those of the input. */
  ghost predicate FromInput(x: seq<real>, weight: seq<real>, tr: Trace)
    requires |x| == |weight| == 32
  {
    && tr.xval == Passed(x, weight, 4) && EvenSigns(tr.was) && Restores(x, tr.xval, tr.was, 4)
    && (if QpSearch.Tiny(tr.xval) then tr.first == 0.0 else tr.first == FirstScale(tr.xval, weight))
  }

  /** The group holds the tuples of the trace, the magnitude of its last scale, and its signs, inverted below zero. */
  ghost predicate Holds(grid: seq<nat>, g: Group, tr: Trace)
    requires EvenSigns(tr.was)
  {
    && g.Packed? && |g.q| == 4 && |tr.l| == 32 && EvenSigns(g.signs)
    && (forall k :: 0 <= k < 4 ==> g.q[k] < |grid| && Digits(grid[g.q[k]]) == tr.l[8 * k..8 * k + 8])
    && g.scale == (if tr.course.last < 0.0 then -tr.course.last else tr.course.last)
    && forall k, i :: 0 <= k < 4 && 0 <= i < 8 ==> g.signs[k][i] == (tr.was[k][i] != (tr.course.last < 0.0))
  }

  method MaxOf(xval: seq<real>) returns (max: real)
    requires |xval| > 0
    ensures max in xval && forall i :: 0 <= i < |xval| ==> xval[i] <= max
  {
    max := xval[0];
    var i := 1;
    while i < |xval|
      invariant 1 <= i <= |xval| && max in xval && forall j :: 0 <= j < i ==> xval[j] <= max
    {
      if xval[i] > max { max := xval[i]; }
      i := i + 1;
    }
  }

  /**
   The body of the loop over groups. A group is zero exactly when no value counts or the first scale is not positive.
   Otherwise it holds what the search finds: for all values and weights, negative ones behind a flip included, neither
   assertion of the writer can fail, and seven signs a tuple are enough.
   */
  method WriteGroup(m: Tables, x: seq<real>, weight: seq<real>, waux: seq<real>) returns (g: Group, ghost tr: Trace)
    requires m.Valid() && |x| == |weight| == |waux| == 32
    ensures FromInput(x, weight, tr)
    ensures g.Zero? <==> QpSearch.Tiny(tr.xval) || tr.first <= 0.0
    ensures g.Packed? ==>
      && Found(m.g, tr.xval, weight, waux, tr.first, tr.course, tr.l) && Holds(m.g, g, tr)
      && g.scale >= 0.0 && forall k :: 0 <= k < 4 ==> EighthSign(g.signs[k]) == g.signs[k][7]
  {
    hide Tables.Valid, AllAllowed, Passed, QpSearch.Found, Flips, EvenSigns, Iq2Search.Found, Restores;
    var xval, signs := SignGroup(x, weight);
    tr := Trace(xval, signs, 0.0, Course([], -1, 0.0, 0.0, 0.0), []);
    var max := MaxOf(xval);
    if max < QpSearch.EPS { return Zero, tr; }
    var codes := new int[32];
    var scale := QpSearch.MakeQpQuants(xval, weight, 4, codes);
    tr := tr.(first := scale);
    if scale * 3.0 <= 0.0 { return Zero, tr; }
    var l: seq<nat>, flipped;
    ghost var course;
    scale, l, flipped, course := SearchGroup(m, xval, weight, waux, scale);
    tr := tr.(course := course, l := l);
    if flipped {
      signs := FlipAll(signs);
    }
    var q := PackGroup(m, l);
    GridIndices(m, q);
    SevenAreEnough(signs);
    g := Packed(q, signs, scale);
    FullTuples(m.g, l);
    EightEach(tr.was);
  }

  lemma FullTuples(g: seq<nat>, l: seq<nat>)
    requires AllAllowed(g, l)
    ensures |l| == 32
  {
  }

  lemma EightEach(signs: seq<seq<bool>>)
    requires EvenSigns(signs)
    ensures |signs| == 4 && forall k :: 0 <= k < 4 ==> |signs[k]| == 8
  {
    hide Flips;
  }

  // ---- what the group stands for -------------------------------------------------------------------------

  /** The group's values in units of its scale: odd levels with their signs. */
  function Units(grid: seq<nat>, g: Group): (u: seq<real>)
    requires g.Shaped(grid)
    ensures |u| == 32
  {
    seq(32, e requires 0 <= e < 32 =>
      var level := (2 * Digits(grid[g.q[e / 8]])[e % 8] + 1) as real; if g.signs[e / 8][e % 8] then -level else level)
  }

  /** The values that a reader decodes. */
  function Values(grid: seq<nat>, g: Group): (y: seq<real>)
    requires g.Shaped(grid)
    ensures |y| == 32 && forall e :: 0 <= e < 32 ==> y[e] == g.scale * Units(grid, g)[e]
  {
    seq(32, e requires 0 <= e < 32 => g.scale * Units(grid, g)[e])
  }

  /** Value and unit agree in sign with the value searched and its level, or both are turned. */
  ghost predicate Turned(x: real, u: real, xval: real, level: real, flipped: bool) {
    var s := if flipped then -level else level;
    (x == xval && u == s) || (x == -xval && u == -s)
  }

  lemma UnitTurned(grid: seq<nat>, x: seq<real>, g: Group, tr: Trace, k: nat, i: nat)
    requires k < 4 && i < 8 && |x| == |tr.xval| == 32 && EvenSigns(tr.was) && Restores(x, tr.xval, tr.was, 4)
    requires Holds(grid, g, tr)
    ensures g.Shaped(grid)
    ensures var e := 8 * k + i;
      Turned(x[e], Units(grid, g)[e], tr.xval[e], Levels(tr.l)[e], tr.course.last < 0.0)
  {
    hide Flips;
    var e := 8 * k + i;
    assert e / 8 == k && e % 8 == i;
    assert Digits(grid[g.q[k]])[i] == tr.l[8 * k..8 * k + 8][i] == tr.l[e];
    hide Digits;
  }

  lemma TurnedProducts(w: real, x: real, u: real, xval: real, level: real, flipped: bool)
    requires Turned(x, u, xval, level, flipped)
    ensures w * x * u == (if flipped then -(w * xval * level) else w * xval * level) && w * u * u == w * level * level
  {
    var s := if flipped then -level else level;
    if x == xval && u == s {
      TurnTwice(w, xval, s, level);
    } else {
      TurnTwice(w, xval, s, level);
      assert w * -xval * -s == w * xval * s && w * -s * -s == w * s * s;
    }
  }

  lemma TurnTwice(w: real, xval: real, s: real, level: real)
    requires s == level || s == -level
    ensures w * s * s == w * level * level
    ensures w * xval * s == if s == level then w * xval * level else -(w * xval * level)
  {
  }

  lemma {:induction false} TurnedSums(w: seq<real>, x: seq<real>, u: seq<real>, xval: seq<real>, level: seq<real>,
                                      flipped: bool, n: nat)
    requires |w| == |x| == |u| == |xval| == |level| && n <= |w|
    requires forall e :: 0 <= e < |w| ==> Turned(x[e], u[e], xval[e], level[e], flipped)
    ensures Fit(w, x, u).SumLL(n) == Fit(w, xval, level).SumLL(n)
    ensures Fit(w, x, u).SumXL(n)
         == if flipped then -Fit(w, xval, level).SumXL(n) else Fit(w, xval, level).SumXL(n)
  {
    hide Fit.SumXL, Fit.SumLL, Turned;
    if n == 0 {
      QpSearch.SumsEmpty(Fit(w, x, u));
      QpSearch.SumsEmpty(Fit(w, xval, level));
    } else {
      TurnedSums(w, x, u, xval, level, flipped, n - 1);
      QpSearch.ProductsStep(Fit(w, x, u), n, w[n - 1], x[n - 1], u[n - 1]);
      QpSearch.ProductsStep(Fit(w, xval, level), n, w[n - 1], xval[n - 1], level[n - 1]);
      TurnedProducts(w[n - 1], x[n - 1], u[n - 1], xval[n - 1], level[n - 1], flipped);
    }
  }

  /** The last scale is the least-squares scale of the chosen tuples. */
  lemma LastIsFitted(grid: seq<nat>, x: seq<real>, weight: seq<real>, waux: seq<real>, first: real, c: Course,
                     l: seq<nat>)
    requires Found(grid, x, weight, waux, first, c, l)
    ensures |x| == |weight| == |l| == 32 && (QQ(weight, x, l) > 0.0 ==> c.last * QQ(weight, x, l) == QX(weight, x, l))
  {
    hide QX, QQ, SnappedGroup, StepTried, NoMore, Below;
  }

  /**
   A written group decodes to what its input looks like: with nonnegative weights the decoded values never point away
   from the input, and no other scale comes closer to it with the same signs and tuples.
   */
  lemma GroupDecodes(grid: seq<nat>, x: seq<real>, weight: seq<real>, waux: seq<real>, g: Group, tr: Trace, a: real)
    requires |x| == |weight| == 32 && NonNegative(weight) && FromInput(x, weight, tr) && Holds(grid, g, tr)
    requires Found(grid, tr.xval, weight, waux, tr.first, tr.course, tr.l)
    ensures g.Shaped(grid)
    ensures Fit(weight, x, Values(grid, g)).SumXL(32) >= 0.0
    ensures Fit(weight, x, Units(grid, g)).Error(g.scale, 0.0, false)
         <= Fit(weight, x, Units(grid, g)).Error(a, 0.0, false)
  {
    hide *;
    FromInputParts(x, weight, tr);
    AllTurned(grid, x, g, tr);
    UnitsFitted(grid, x, weight, waux, g, tr);
    var f := Fit(weight, x, Units(grid, g));
    FitIs(weight, x, Units(grid, g));
    BestScale(f, g.scale, a);
    ValuesSum(weight, x, Units(grid, g), Values(grid, g), g.scale, 32);
    QpSearch.NoWeightNoCovariance(f, 32);
    ForwardProduct(g.scale, f.SumLL(32), f.SumXL(32));
  }

  lemma FitIs(w: seq<real>, x: seq<real>, l: seq<real>)
    requires |w| == |x| == |l|
    ensures Fit(w, x, l).Sized() && Fit(w, x, l).w == w
  {
  }

  lemma FromInputParts(x: seq<real>, weight: seq<real>, tr: Trace)
    requires |x| == |weight| == 32 && FromInput(x, weight, tr)
    ensures |tr.xval| == 32 && EvenSigns(tr.was) && Restores(x, tr.xval, tr.was, 4)
  {
    hide Passed, EvenSigns, Restores;
  }

  /** Where any weight counts, the stored scale is the least-squares scale of the signed levels. */
  lemma UnitsFitted(grid: seq<nat>, x: seq<real>, weight: seq<real>, waux: seq<real>, g: Group, tr: Trace)
    requires |x| == |weight| == 32 && FromInput(x, weight, tr) && Holds(grid, g, tr)
    requires Found(grid, tr.xval, weight, waux, tr.first, tr.course, tr.l)
    requires g.Shaped(grid)
    ensures var f := Fit(weight, x, Units(grid, g));
      g.Packed? && f.Sized() && (f.SumLL(32) > 0.0 ==> g.scale * f.SumLL(32) == f.SumXL(32))
  {
    hide *;
    FromInputParts(x, weight, tr);
    ScaleOfGroup(grid, g, tr);
    AllTurned(grid, x, g, tr);
    LastIsFitted(grid, tr.xval, weight, waux, tr.first, tr.course, tr.l);
    SumsOf(weight, tr.xval, tr.l);
    var u, flipped := Units(grid, g), tr.course.last < 0.0;
    FitIs(weight, x, u);
    TurnedSums(weight, x, u, tr.xval, Levels(tr.l), flipped, 32);
    ScaleFits(tr.course.last, QQ(weight, tr.xval, tr.l), Fit(weight, x, u).SumXL(32), QX(weight, tr.xval, tr.l),
              flipped);
  }

  lemma SumsOf(w: seq<real>, x: seq<real>, l: seq<nat>)
    requires |w| == |x| == |l| == 32
    ensures Fit(w, x, Levels(l)).Sized()
    ensures QX(w, x, l) == Fit(w, x, Levels(l)).SumXL(32) && QQ(w, x, l) == Fit(w, x, Levels(l)).SumLL(32)
  {
    hide Fit.SumXL, Fit.SumLL;
  }

  lemma ScaleOfGroup(grid: seq<nat>, g: Group, tr: Trace)
    requires EvenSigns(tr.was) && Holds(grid, g, tr)
    ensures g.Packed? && g.scale == if tr.course.last < 0.0 then -tr.course.last else tr.course.last
  {
    hide EvenSigns, Digits;
  }

  lemma AllTurned(grid: seq<nat>, x: seq<real>, g: Group, tr: Trace)
    requires |x| == |tr.xval| == 32 && EvenSigns(tr.was) && Restores(x, tr.xval, tr.was, 4) && Holds(grid, g, tr)
    ensures g.Shaped(grid)
    ensures forall e :: 0 <= e < 32 ==>
      Turned(x[e], Units(grid, g)[e], tr.xval[e], Levels(tr.l)[e], tr.course.last < 0.0)
  {
    UnitTurned(grid, x, g, tr, 0, 0);
    hide Turned, Holds, Restores, EvenSigns, Units, Levels;
    forall e | 0 <= e < 32
      ensures |tr.l| == 32 && Turned(x[e], Units(grid, g)[e], tr.xval[e], Levels(tr.l)[e], tr.course.last < 0.0)
    {
      UnitTurned(grid, x, g, tr, e / 8, e % 8);
    }
  }

  lemma ScaleFits(last: real, ll: real, xl: real, qx: real, flipped: bool)
    requires (ll > 0.0 ==> last * ll == qx) && xl == if flipped then -qx else qx
    ensures ll > 0.0 ==> (if flipped then -last else last) * ll == xl
  {
  }

  lemma BestScale(f: Fit, scale: real, a: real)
    requires f.Sized() && NonNegative(f.w) && (f.SumLL(|f.w|) > 0.0 ==> scale * f.SumLL(|f.w|) == f.SumXL(|f.w|))
    ensures f.Error(scale, 0.0, false) <= f.Error(a, 0.0, false)
  {
    hide Fit.Error, Fit.SumXL, Fit.SumLL, Fit.SumXX, QpSearch.Parabola;
    var ll, xl, xx := f.SumLL(|f.w|), f.SumXL(|f.w|), f.SumXX(|f.w|);
    QpSearch.NoWeightNoCovariance(f, |f.w|);
    QpSearch.ErrorIsParabola(f, scale);
    QpSearch.ErrorIsParabola(f, a);
    LeastAt(scale, a, ll, xl, xx);
  }

  lemma LeastAt(scale: real, a: real, ll: real, xl: real, xx: real)
    requires ll >= 0.0 && (ll == 0.0 ==> xl == 0.0) && (ll > 0.0 ==> scale * ll == xl)
    ensures QpSearch.Parabola(scale, ll, xl, xx) <= QpSearch.Parabola(a, ll, xl, xx)
  {
    if ll > 0.0 {
      Divided(xl, ll);
      Cancel(ll, scale, xl / ll);
      QpSearch.ParabolaLeast(a, ll, xl, xx);
    }
  }

  lemma ForwardProduct(scale: real, ll: real, xl: real)
    requires ll >= 0.0 && (ll == 0.0 ==> xl == 0.0) && (ll > 0.0 ==> scale * ll == xl)
    ensures scale * xl >= 0.0
  {
    if ll > 0.0 {
      assert scale * xl == Square(scale) * ll;
      NonNegativeProduct(Square(scale), ll);
    }
  }

  lemma {:induction false} ValuesSum(w: seq<real>, x: seq<real>, u: seq<real>, y: seq<real>, scale: real, n: nat)
    requires |w| == |x| == |u| == |y| && n <= |w| && forall e :: 0 <= e < |w| ==> y[e] == scale * u[e]
    ensures Fit(w, x, y).SumXL(n) == scale * Fit(w, x, u).SumXL(n)
  {
    hide Fit.SumXL, Fit.SumLL;
    if n == 0 {
      QpSearch.SumsEmpty(Fit(w, x, y));
      QpSearch.SumsEmpty(Fit(w, x, u));
    } else {
      ValuesSum(w, x, u, y, scale, n - 1);
      QpSearch.ProductsStep(Fit(w, x, y), n, w[n - 1], x[n - 1], y[n - 1]);
      QpSearch.ProductsStep(Fit(w, x, u), n, w[n - 1], x[n - 1], u[n - 1]);
      ScaledTerm(w[n - 1], x[n - 1], u[n - 1], scale, Fit(w, x, u).SumXL(n - 1));
    }
  }

  lemma ScaledTerm(w: real, x: real, u: real, scale: real, sum: real)
    ensures scale * sum + w * x * (scale * u) == scale * (sum + w * x * u)
  {
  }
}
