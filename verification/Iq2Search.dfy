/**
 The IQ2_XXS search for one group of 32 values, gguf-tools/quants.c:796-820, 849-978: whatever the search does, the four
 tuples it packs are allowed ones. Arithmetic is over reals; the first scale comes from ds4q_make_qp_quants.
 */
module Iq2Search {
  import opened ByteEncoding
  import opened WeightedFit
  import opened Iq2Grid
  import opened Iq2Index
  import opened Iq2Build
  import QpSearch

  /** The tables, built. */
  datatype Tables = Tables(g: seq<nat>, table: seq<int>, neighbours: seq<nat>) {
    ghost predicate Valid() {
      IsGrid(g) && Built(g, table, neighbours)
    }
  }

  /** ds4q_iq2_xxs_init: the tables of the built-in grid. */
  method Init() returns (m: Tables)
    ensures m.Valid() && m.g == Grid()
  {
    hide Built, IsGrid;
    GridIsGrid();
    var table, neighbours := BuildIndex(Grid());
    m := Tables(Grid(), table[..], neighbours[..]);
  }

  /** The tuple is an allowed one. */
  ghost predicate Allowed(g: seq<nat>, t: seq<nat>) {
    exists k :: 0 <= k < |g| && t == Digits(g[k])
  }

  ghost predicate IsTuple(t: seq<nat>) {
    |t| == 8 && forall i :: 0 <= i < 8 ==> t[i] < 4
  }

  /** The digits of a tuple's code are the tuple. */
  lemma DigitsOfCode(t: seq<nat>)
    requires IsTuple(t)
    ensures Code(t, 8) < 65536 && Digits(Code(t, 8)) == t
  {
    CodeSum(t);
    var u := Code(t, 8);
    hide Code;
    DigitsUnique(u, t[0], t[1], t[2], t[3], t[4], t[5], t[6], t[7]);
    hide Digit;
  }

  lemma DigitsUnique(u: nat, a: nat, b: nat, c: nat, d: nat, e: nat, f: nat, g: nat, h: nat)
    requires a < 4 && b < 4 && c < 4 && d < 4 && e < 4 && f < 4 && g < 4 && h < 4
    requires u == a + 4 * b + 16 * c + 64 * d + 256 * e + 1024 * f + 4096 * g + 16384 * h
    ensures u < 65536
    ensures Digit(u, 0) == a && Digit(u, 1) == b && Digit(u, 2) == c && Digit(u, 3) == d
    ensures Digit(u, 4) == e && Digit(u, 5) == f && Digit(u, 6) == g && Digit(u, 7) == h
  {
    var r2 := c + 4 * d + 16 * e + 64 * f + 256 * g + 1024 * h;
    var r4 := e + 4 * f + 16 * g + 64 * h;
    var r6 := g + 4 * h;
    PairOf(u, a, b, r2);
    PairOf(r2, c, d, r4);
    PairOf(r4, e, f, r6);
    PairOf(r6, g, h, 0);
    Chain(u, r2);
    Chain(r2, r4);
    Chain(r4, r6);
  }

  lemma PairOf(u: nat, a: nat, b: nat, rest: nat)
    requires a < 4 && b < 4 && u == a + 4 * b + 16 * rest
    ensures u % 4 == a && u / 4 % 4 == b && u / 16 == rest
  {
    var v := b + 4 * rest;
    assert u == 4 * v + a;
    assert u / 4 == v && v % 4 == b && v / 4 == rest;
  }

  // ---- what the search is to find ---------------------------------------------------------------------

  /** What the digits of a tuple stand for: 1, 3, 5. */
  function Levels(l: seq<nat>): (q: seq<real>)
    ensures |q| == |l| && forall i :: 0 <= i < |l| ==> q[i] == (2 * l[i] + 1) as real
  {
    seq(|l|, i requires 0 <= i < |l| => (2 * l[i] + 1) as real)
  }

  /** The digit 0..2 nearest to a value. */
  function TupleDigit(x: real, id: real): (l: nat)
    ensures l <= 2
  {
    Clamp(NearestInt(0.5 * (id * x - 1.0)), 2)
  }

  function Rounded(x: seq<real>, id: real): (t: seq<nat>)
    ensures |t| == |x| && forall i :: 0 <= i < |x| ==> t[i] == TupleDigit(x[i], id)
  {
    seq(|x|, i requires 0 <= i < |x| => TupleDigit(x[i], id))
  }

  /** No other digit's level is closer to the scaled value. */
  lemma DigitIsNearest(x: real, id: real, k: nat)
    requires k <= 2
    ensures WeightedFit.Abs((2 * TupleDigit(x, id) + 1) as real - id * x)
         <= WeightedFit.Abs((2 * k + 1) as real - id * x)
  {
    var t := 0.5 * (id * x - 1.0);
    NearestIntError(t);
    var r := NearestInt(t);
    assert id * x == 2.0 * t + 1.0;
    hide NearestInt;
  }

  /** The weighted squared error of a tuple. */
  ghost function TupleLoss(t: seq<nat>, x: seq<real>, w: seq<real>, scale: real): real
    requires |t| == |x| == |w|
  {
    Fit(w, x, Levels(t)).Error(scale, 0.0, false)
  }

  /** t is an allowed tuple in one of the two shells nearest to `from`. */
  ghost predicate Nearby(g: seq<nat>, from: seq<nat>, t: seq<nat>)
    requires |from| == 8
  {
    exists k :: 0 <= k < |g| && InNearestShells(g, Code(from, 8), k) && t == Digits(g[k])
  }

  /** t is x rounded where that is allowed, and otherwise an allowed tuple nearby with the least error. */
  ghost predicate Snapped(g: seq<nat>, x: seq<real>, w: seq<real>, id: real, scale: real, t: seq<nat>)
    requires |x| == |w| == 8
  {
    && |t| == 8
    && if Allowed(g, Rounded(x, id)) then t == Rounded(x, id) else
         && Nearby(g, Rounded(x, id), t)
         && forall s: seq<nat> :: |s| == 8 && Nearby(g, Rounded(x, id), s) ==>
              TupleLoss(t, x, w, scale) <= TupleLoss(s, x, w, scale)
  }

  /** The four tuples of a group. */
  ghost predicate SnappedGroup(g: seq<nat>, x: seq<real>, w: seq<real>, id: real, scale: real, l: seq<nat>)
    requires |x| == |w| == 32
  {
    && |l| == 32
    && forall k :: 0 <= k < 4 ==>
         Snapped(g, x[8 * k..8 * k + 8], w[8 * k..8 * k + 8], id, scale, l[8 * k..8 * k + 8])
  }

  /** The fit of a group's values by the levels of its tuples. */
  function GroupFit(w: seq<real>, x: seq<real>, l: seq<nat>): Fit { Fit(w, x, Levels(l)) }

  /** Sums of weight * value * level and weight * level^2. */
  function QX(w: seq<real>, x: seq<real>, l: seq<nat>): real
    requires |w| == |x| == |l|
  {
    GroupFit(w, x, l).SumXL(|w|)
  }

  function QQ(w: seq<real>, x: seq<real>, l: seq<nat>): real
    requires |w| == |x| == |l|
  {
    GroupFit(w, x, l).SumLL(|w|)
  }

  /**
   The course of a search: what each step tried, the index of the step that was taken or -1, its gain, its scale, and
   the scale after the last refit.
   */
  datatype Course = Course(tried: seq<seq<nat>>, chosen: int, best: real, mid: real, last: real)

  /** Step number `step` rounds the values to levels in units of eff / (5 + step / 10). */
  ghost predicate StepTried(g: seq<nat>, x: seq<real>, waux: seq<real>, eff: real, step: int, t: seq<nat>)
    requires |x| == |waux| == 32
  {
    eff != 0.0 && var id := (5.0 + step as real * 0.1) / eff; id != 0.0 && SnappedGroup(g, x, waux, id, 1.0 / id, t)
  }

  /** t is worth no more than best. */
  ghost predicate NoMore(weight: seq<real>, x: seq<real>, t: seq<nat>, best: real)
    requires |x| == |weight| == 32
  {
    |t| == 32 && (QQ(weight, x, t) > 0.0 ==> QX(weight, x, t) * QX(weight, x, t) <= best * QQ(weight, x, t))
  }

  ghost predicate Below(weight: seq<real>, x: seq<real>, t: seq<nat>, best: real)
    requires |x| == |weight| == 32
  {
    |t| == 32 && (QQ(weight, x, t) > 0.0 ==> QX(weight, x, t) * QX(weight, x, t) < best * QQ(weight, x, t))
  }

  /** Of the tuples tried so far the first with the greatest sumqx^2 / sumq2 is taken, with its least-squares scale. */
  ghost predicate Chosen(weight: seq<real>, x: seq<real>, c: Course, first: real)
    requires |x| == |weight| == 32
  {
    && c.best >= 0.0 && -1 <= c.chosen < |c.tried|
    && (forall s :: 0 <= s < |c.tried| ==> NoMore(weight, x, c.tried[s], c.best))
    && (c.chosen == -1 ==> c.best == 0.0 && c.mid == first)
    && (c.chosen >= 0 ==>
        && Reached(weight, x, c.tried[c.chosen], c.best, c.mid)
        && forall s :: 0 <= s < c.chosen ==> Below(weight, x, c.tried[s], c.best))
  }

  ghost predicate Reached(weight: seq<real>, x: seq<real>, t: seq<nat>, best: real, scale: real)
    requires |x| == |weight| == 32
  {
    && |t| == 32 && QQ(weight, x, t) > 0.0 && best > 0.0
    && scale * QQ(weight, x, t) == QX(weight, x, t) && best * QQ(weight, x, t) == QX(weight, x, t) * QX(weight, x, t)
  }

  /** Behind the steps: a positive scale is refined once more. */
  ghost predicate Refitted(g: seq<nat>, x: seq<real>, weight: seq<real>, waux: seq<real>, c: Course, l: seq<nat>)
    requires |x| == |weight| == |waux| == 32
  {
    if c.mid > 0.0 then
      && SnappedGroup(g, x, waux, 1.0 / c.mid, c.mid, l)
      && if QQ(weight, x, l) > 0.0 then c.last * QQ(weight, x, l) == QX(weight, x, l) else c.last == c.mid
    else
      0 <= c.chosen < |c.tried| && l == c.tried[c.chosen] && c.last == c.mid < 0.0
  }

  /** What the search from the first scale on is to find. */
  ghost predicate Found(g: seq<nat>, x: seq<real>, weight: seq<real>, waux: seq<real>, first: real, c: Course,
                        l: seq<nat>)
  {
    && |x| == |weight| == |waux| == |l| == 32 && |c.tried| == 13
    && (forall s :: 0 <= s < 13 ==> StepTried(g, x, waux, first * 3.0, s - 6, c.tried[s]))
    && Chosen(weight, x, c, first) && Refitted(g, x, weight, waux, c, l)
  }

  // ---- the nearest neighbour -----------------------------------------------------------------------

  /** The weighted squared error of a grid point over the first n positions. */
  function TupleError(v: nat, x: seq<real>, w: seq<real>, scale: real, n: nat): real
    requires n <= 8 && |x| == |w| == 8
  {
    if n == 0 then 0.0 else TupleError(v, x, w, scale, n - 1) + TupleTerm(v, x, w, scale, n - 1)
  }

  function TupleTerm(v: nat, x: seq<real>, w: seq<real>, scale: real, i: nat): real
    requires i < 8 && |x| == |w| == 8
  {
    var diff := scale * Position(Digit(v, i)) as real - x[i];
    w[i] * diff * diff
  }

  ghost predicate ListAt(m: Tables, start: nat, list: seq<nat>) {
    && start < |m.neighbours| && m.neighbours[start] == |list| > 0
    && start + 1 + |list| <= |m.neighbours| && m.neighbours[start + 1..start + 1 + |list|] == list
    && forall j :: 0 <= j < |list| ==> list[j] < |m.g|
  }

  /** ds4q_iq2_find_best_neighbour: a point of the list with the least error, and its tuple. */
  method FindBestNeighbour(m: Tables, start: nat, ghost list: seq<nat>, x: seq<real>, w: seq<real>, scale: real)
    returns (gridIndex: nat, t: seq<nat>)
    requires ListAt(m, start, list) && |x| == |w| == 8
    ensures gridIndex in list && gridIndex < |m.g| && t == Digits(m.g[gridIndex])
    ensures forall j :: j in list && j < |m.g| ==>
      TupleError(m.g[gridIndex], x, w, scale, 8) <= TupleError(m.g[j], x, w, scale, 8)
  {
    hide TupleError, Digit;
    var n := m.neighbours[start];
    var best: Option<real> := None;
    gridIndex := 0;
    var j := 1;
    while j <= n
      invariant 1 <= j <= n + 1 && (best == None <==> j == 1)
      invariant best.Some? ==> gridIndex in list && gridIndex < |m.g|
      invariant best.Some? ==> best.value == TupleError(m.g[gridIndex], x, w, scale, 8)
      invariant forall k :: 0 <= k < j - 1 ==> best.Some? && best.value <= TupleError(m.g[list[k]], x, w, scale, 8)
    {
      assert m.neighbours[start + j] == m.neighbours[start + 1..start + 1 + n][j - 1] == list[j - 1];
      var d2 := ErrorOfTuple(m.g[m.neighbours[start + j]], x, w, scale);
      if best == None || d2 < best.value {
        best := Some(d2);
        gridIndex := m.neighbours[start + j];
      }
      j := j + 1;
    }
    t := Digits(m.g[gridIndex]);
    forall k | k in list && k < |m.g|
      ensures TupleError(m.g[gridIndex], x, w, scale, 8) <= TupleError(m.g[k], x, w, scale, 8)
    {
      var i :| 0 <= i < |list| && list[i] == k;
    }
  }

  method ErrorOfTuple(v: nat, x: seq<real>, w: seq<real>, scale: real) returns (d2: real)
    requires |x| == |w| == 8
    ensures d2 == TupleError(v, x, w, scale, 8)
  {
    hide Digit, Position, TupleTerm;
    d2 := 0.0;
    var i := 0;
    while i < 8
      invariant 0 <= i <= 8 && d2 == TupleError(v, x, w, scale, i)
    {
      var diff := scale * Position(Digit(v, i)) as real - x[i];
      TermIs(v, x, w, scale, i, diff);
      d2 := d2 + w[i] * diff * diff;
      i := i + 1;
    }
  }

  lemma TermIs(v: nat, x: seq<real>, w: seq<real>, scale: real, i: nat, diff: real)
    requires i < 8 && |x| == |w| == 8 && diff == scale * Position(Digit(v, i)) as real - x[i]
    ensures TupleTerm(v, x, w, scale, i) == w[i] * diff * diff
  {
    hide Digit, Position;
  }

  // ---- one tuple -----------------------------------------------------------------------------------------

  method NearestTuple(x: seq<real>, id: real) returns (t: seq<nat>, u: nat)
    requires |x| == 8
    ensures t == Rounded(x, id)
    ensures u == Code(t, 8) && u < MAP_SIZE
  {
    hide TupleDigit, Power4;
    t, u := [0, 0, 0, 0, 0, 0, 0, 0], 0;
    var i := 0;
    while i < 8
      invariant 0 <= i <= 8 && |t| == 8
      invariant forall k :: 0 <= k < i ==> t[k] == TupleDigit(x[k], id)
      invariant u == Code(t, i)
    {
      var l := TupleDigit(x[i], id);
      CodePrefix(t, t[i := l], i);
      t := t[i := l];
      u := u + l * Power4(i);
      i := i + 1;
    }
    CodeFitsMap(t);
  }

  lemma {:induction false} CodePrefix(a: seq<nat>, b: seq<nat>, n: nat)
    requires |a| == |b| == 8 && n <= 8 && forall k :: 0 <= k < n ==> a[k] == b[k]
    ensures Code(a, n) == Code(b, n)
  {
    if n > 0 { CodePrefix(a, b, n - 1); }
  }

  lemma AllowedIsInGrid(g: seq<nat>, t: seq<nat>)
    requires IsGrid(g) && IsTuple(t)
    ensures Allowed(g, t) <==> Code(t, 8) in g
  {
    hide Code, Digit, Increasing;
    DigitsOfCode(t);
    if Allowed(g, t) {
      var k :| 0 <= k < |g| && t == Digits(g[k]);
      CodeOfDigits(g[k]);
    }
    if Code(t, 8) in g {
      var k :| 0 <= k < |g| && g[k] == Code(t, 8);
    }
  }

  /** The two ways of writing the error of a grid point. */
  lemma LossIsError(v: nat, x: seq<real>, w: seq<real>, scale: real)
    requires |x| == |w| == 8
    ensures TupleLoss(Digits(v), x, w, scale) == TupleError(v, x, w, scale, 8)
  {
    hide *;
    LossPrefix(v, x, w, scale, 8);
    LossIsSum(Digits(v), x, w, scale);
  }

  lemma LossIsSum(t: seq<nat>, x: seq<real>, w: seq<real>, scale: real)
    requires |t| == |x| == |w| == 8
    ensures TupleLoss(t, x, w, scale) == Sum(Fit(w, x, Levels(t)).Errors(scale, 0.0, false), 8)
  {
    hide Sum, Fit.Errors;
  }

  lemma {:induction false} LossPrefix(v: nat, x: seq<real>, w: seq<real>, scale: real, n: nat)
    requires |x| == |w| == 8 && n <= 8
    ensures Sum(Fit(w, x, Levels(Digits(v))).Errors(scale, 0.0, false), n) == TupleError(v, x, w, scale, n)
  {
    hide Digit, ErrorTerm, TupleTerm;
    if n == 0 {
    } else {
      LossPrefix(v, x, w, scale, n - 1);
      TermsAgree(v, x, w, scale, n - 1);
    }
  }

  lemma TermsAgree(v: nat, x: seq<real>, w: seq<real>, scale: real, i: nat)
    requires |x| == |w| == 8 && i < 8
    ensures TupleTerm(v, x, w, scale, i) == ErrorTerm(w[i], x[i], Levels(Digits(v))[i], scale, 0.0, false)
  {
    hide Digit;
    var level := Levels(Digits(v))[i];
    assert level == Position(Digit(v, i)) as real;
    var diff := scale * level - x[i];
    TermIs(v, x, w, scale, i, diff);
    assert w[i] * diff * diff == w[i] * (diff * diff);
  }

  /** The least of the list is the least of the nearest shells. */
  lemma BestIsNearby(g: seq<nat>, from: seq<nat>, k: nat, x: seq<real>, w: seq<real>, scale: real)
    requires |g| > 0 && |x| == |w| == |from| == 8 && k < |g| && k in Neighbours(g, Code(from, 8))
    requires forall j :: j in Neighbours(g, Code(from, 8)) && j < |g| ==>
      TupleError(g[k], x, w, scale, 8) <= TupleError(g[j], x, w, scale, 8)
    ensures Nearby(g, from, Digits(g[k]))
    ensures forall s: seq<nat> :: |s| == 8 && Nearby(g, from, s) ==>
      TupleLoss(Digits(g[k]), x, w, scale) <= TupleLoss(s, x, w, scale)
  {
    hide Code, Digit, Neighbours, InNearestShells, TupleError, TupleLoss;
    NeighboursAreShells(g, Code(from, 8), k);
    LossIsError(g[k], x, w, scale);
    forall s: seq<nat> | |s| == 8 && Nearby(g, from, s)
      ensures TupleLoss(Digits(g[k]), x, w, scale) <= TupleLoss(s, x, w, scale)
    {
      var j :| 0 <= j < |g| && InNearestShells(g, Code(from, 8), j) && s == Digits(g[j]);
      NeighboursAreShells(g, Code(from, 8), j);
      LossIsError(g[j], x, w, scale);
    }
  }

  /** Rounds a tuple and, where it is not allowed, moves it to the best neighbour. */
  method SnapTuple(m: Tables, x: seq<real>, w: seq<real>, id: real, scale: real) returns (gridIndex: nat, t: seq<nat>)
    requires m.Valid() && |x| == |w| == 8
    ensures gridIndex < |m.g| && t == Digits(m.g[gridIndex]) && Snapped(m.g, x, w, id, scale, t)
  {
    hide Code, Digit, Neighbours, Filled, Increasing, TupleDigit, TupleError, TupleLoss, Nearby, Allowed;
    var u;
    t, u := NearestTuple(x, id);
    AllowedIsInGrid(m.g, t);
    assert MapEntry(m.g, u, m.table[u]);
    if m.table[u] < 0 {
      ListOfEntry(m.g, m.table, m.neighbours, u);
      NeighboursInGrid(m.g, u);
      var start := -m.table[u] - 1;
      gridIndex, t := FindBestNeighbour(m, start, Neighbours(m.g, u), x, w, scale);
      BestIsNearby(m.g, Rounded(x, id), gridIndex, x, w, scale);
    } else {
      gridIndex := m.table[u];
      DigitsOfCode(t);
    }
  }

  // ---- the group -------------------------------------------------------------------------------------------

  /** All four tuples of a group are allowed. */
  ghost predicate AllAllowed(g: seq<nat>, l: seq<nat>) {
    |l| == 32 && forall k :: 0 <= k < 4 ==> Allowed(g, l[8 * k..8 * k + 8])
  }

  lemma SnappedAllowed(g: seq<nat>, x: seq<real>, w: seq<real>, id: real, scale: real, l: seq<nat>)
    requires |x| == |w| == 32 && SnappedGroup(g, x, w, id, scale, l)
    ensures AllAllowed(g, l)
  {
    hide Code, Digit, InNearestShells, TupleDigit, TupleLoss;
    forall k | 0 <= k < 4
      ensures Allowed(g, l[8 * k..8 * k + 8])
    {
      assert Snapped(g, x[8 * k..8 * k + 8], w[8 * k..8 * k + 8], id, scale, l[8 * k..8 * k + 8]);
    }
  }

  method SnapGroup(m: Tables, x: seq<real>, w: seq<real>, id: real, scale: real) returns (l: seq<nat>)
    requires m.Valid() && |x| == |w| == 32
    ensures SnappedGroup(m.g, x, w, id, scale, l)
  {
    hide Tables.Valid, Digit, Snapped;
    l := [];
    var k := 0;
    while k < 4
      invariant 0 <= k <= 4 && |l| == 8 * k
      invariant forall i :: 0 <= i < k ==>
        Snapped(m.g, x[8 * i..8 * i + 8], w[8 * i..8 * i + 8], id, scale, l[8 * i..8 * i + 8])
    {
      var gridIndex, t := SnapTuple(m, x[8 * k..8 * k + 8], w[8 * k..8 * k + 8], id, scale);
      ghost var before := l;
      l := l + t;
      assert l[8 * k..8 * k + 8] == t;
      assert forall i :: 0 <= i < k ==> l[8 * i..8 * i + 8] == before[8 * i..8 * i + 8];
      k := k + 1;
    }
  }

  /** The sums for the least-squares scale of a group. */
  method GroupSums(x: seq<real>, w: seq<real>, l: seq<nat>) returns (sumqx: real, sumq2: real)
    requires |x| == |w| == |l| == 32
    ensures sumqx == QX(w, x, l) && sumq2 == QQ(w, x, l)
  {
    hide Fit.SumXL, Fit.SumLL;
    ghost var f := GroupFit(w, x, l);
    QpSearch.SumsEmpty(f);
    sumqx, sumq2 := 0.0, 0.0;
    var i := 0;
    while i < 32
      invariant 0 <= i <= 32 && sumqx == f.SumXL(i) && sumq2 == f.SumLL(i)
    {
      var q := (2 * l[i] + 1) as real;
      QpSearch.ProductsStep(f, i + 1, w[i], x[i], q);
      sumqx := sumqx + w[i] * x[i] * q;
      sumq2 := sumq2 + w[i] * q * q;
      i := i + 1;
    }
  }

  /** A better step: its gain is above the best so far. */
  lemma BetterScale(sumqx: real, sumq2: real, best: real, scale: real)
    requires sumq2 > 0.0 && best >= 0.0 && sumqx * sumqx > best * sumq2 && scale == sumqx / sumq2
    ensures scale != 0.0 && scale * sumq2 == sumqx
    ensures scale * sumqx * sumq2 == sumqx * sumqx && scale * sumqx > best
  {
    Divided(sumqx, sumq2);
    NonNegativeProduct(best, sumq2);
    var gain := scale * sumqx;
    assert gain * sumq2 == (scale * sumq2) * sumqx;
    if gain <= best { ScaledOrder(sumq2, gain, best); }
  }

  lemma GainGrows(weight: seq<real>, x: seq<real>, t: seq<nat>, best: real, better: real)
    requires |x| == |weight| == 32 && NoMore(weight, x, t, best) && best < better
    ensures Below(weight, x, t, better) && NoMore(weight, x, t, better)
  {
    hide QX, QQ;
    if QQ(weight, x, t) > 0.0 { StrictlyMore(best, better, QQ(weight, x, t)); }
  }

  lemma StrictlyMore(a: real, b: real, c: real)
    requires a < b && c > 0.0
    ensures a * c < b * c
  {
    assert (b - a) * c > 0.0;
  }

  lemma NothingTried(weight: seq<real>, x: seq<real>, first: real)
    requires |x| == |weight| == 32
    ensures Chosen(weight, x, Course([], -1, 0.0, first, first), first)
  {
  }

  /** A step that is not taken. */
  lemma StepPassed(weight: seq<real>, x: seq<real>, c: Course, first: real, t: seq<nat>)
    requires |x| == |weight| == 32 && Chosen(weight, x, c, first) && NoMore(weight, x, t, c.best)
    ensures Chosen(weight, x, c.(tried := c.tried + [t]), first)
  {
    hide NoMore, Below, Reached;
  }

  /** A step that is taken. */
  lemma StepTaken(weight: seq<real>, x: seq<real>, c: Course, first: real, t: seq<nat>, best: real, scale: real)
    requires |x| == |weight| == 32 && Chosen(weight, x, c, first) && Reached(weight, x, t, best, scale) && best > c.best
    ensures Chosen(weight, x, Course(c.tried + [t], |c.tried|, best, scale, c.last), first)
  {
    hide QX, QQ, Below, NoMore;
    var d := c.tried + [t];
    forall s | 0 <= s < |c.tried|
      ensures Below(weight, x, d[s], best) && NoMore(weight, x, d[s], best)
    {
      GainGrows(weight, x, c.tried[s], c.best, best);
    }
    ReachedIsNoMore(weight, x, t, best, scale);
  }

  lemma ReachedIsNoMore(weight: seq<real>, x: seq<real>, t: seq<nat>, best: real, scale: real)
    requires |x| == |weight| == 32 && Reached(weight, x, t, best, scale)
    ensures NoMore(weight, x, t, best)
  {
    hide QX, QQ;
  }

  /** The thirteen steps, lines 901-938. */
  method SearchSteps(m: Tables, x: seq<real>, weight: seq<real>, waux: seq<real>, first: real)
    returns (scale: real, l: seq<nat>, ghost c: Course)
    requires m.Valid() && |x| == |weight| == |waux| == 32 && first * 3.0 > 0.0
    ensures |c.tried| == 13 && forall s :: 0 <= s < 13 ==> StepTried(m.g, x, waux, first * 3.0, s - 6, c.tried[s])
    ensures Chosen(weight, x, c, first) && scale == c.mid != 0.0 && (c.chosen >= 0 ==> l == c.tried[c.chosen])
    ensures -1 <= c.chosen < 13 && (c.chosen == -1 ==> scale == first)
  {
    hide Tables.Valid, QX, QQ, Chosen, SnappedGroup, NoMore, Reached;
    var effMax := first * 3.0;
    scale, l, c := first, [], Course([], -1, 0.0, first, first);
    NothingTried(weight, x, first);
    var best := 0.0;
    var step := -6;
    while step <= 6
      invariant -6 <= step <= 7 && best == c.best >= 0.0 && scale == c.mid != 0.0
      invariant |c.tried| == step + 6 && -1 <= c.chosen < |c.tried| && (c.chosen == -1 ==> scale == first)
      invariant c.chosen >= 0 ==> l == c.tried[c.chosen]
      invariant forall s :: 0 <= s < step + 6 ==> StepTried(m.g, x, waux, effMax, s - 6, c.tried[s])
      invariant Chosen(weight, x, c, first)
    {
      var id := (5.0 + step as real * 0.1) / effMax;
      Quotient(5.0 + step as real * 0.1, effMax);
      var thisScale := 1.0 / id;
      var tried := SnapGroup(m, x, waux, id, thisScale);
      assert |tried| == 32 by { FullGroup(m.g, x, waux, id, thisScale, tried); }
      assert StepTried(m.g, x, waux, effMax, step, tried);
      var sumqx, sumq2 := GroupSums(x, weight, tried);
      if sumq2 > 0.0 && sumqx * sumqx > best * sumq2 {
        scale := sumqx / sumq2;
        BetterScale(sumqx, sumq2, best, scale);
        IsReached(weight, x, tried, scale * sumqx, scale);
        StepTaken(weight, x, c, first, tried, scale * sumqx, scale);
        c := Course(c.tried + [tried], |c.tried|, scale * sumqx, scale, c.last);
        best := scale * sumqx;
        l := tried;
      } else {
        IsNoMore(weight, x, tried, best);
        StepPassed(weight, x, c, first, tried);
        c := c.(tried := c.tried + [tried]);
      }
      step := step + 1;
    }
  }

  lemma IsReached(weight: seq<real>, x: seq<real>, t: seq<nat>, best: real, scale: real)
    requires |x| == |weight| == |t| == 32 && QQ(weight, x, t) > 0.0 && best > 0.0
    requires scale * QQ(weight, x, t) == QX(weight, x, t)
    requires best * QQ(weight, x, t) == QX(weight, x, t) * QX(weight, x, t)
    ensures Reached(weight, x, t, best, scale)
  {
    hide QX, QQ;
  }

  lemma IsNoMore(weight: seq<real>, x: seq<real>, t: seq<nat>, best: real)
    requires |x| == |weight| == |t| == 32
    requires !(QQ(weight, x, t) > 0.0 && QX(weight, x, t) * QX(weight, x, t) > best * QQ(weight, x, t))
    ensures NoMore(weight, x, t, best)
  {
    hide QX, QQ;
  }

  /**
   The search over thirteen steps and the last refit, lines 901-965. The scale is the magnitude of what was fitted last,
   and all signs are to be flipped exactly when that was negative.
   */
  method SearchGroup(m: Tables, x: seq<real>, weight: seq<real>, waux: seq<real>, first: real)
    returns (scale: real, l: seq<nat>, flipped: bool, ghost c: Course)
    requires m.Valid() && |x| == |weight| == |waux| == 32 && first * 3.0 > 0.0
    ensures Found(m.g, x, weight, waux, first, c, l) && AllAllowed(m.g, l)
    ensures flipped <==> c.last < 0.0
    ensures scale == (if c.last < 0.0 then -c.last else c.last)
  {
    hide Tables.Valid, AllAllowed, QX, QQ, Chosen, SnappedGroup, StepTried;
    scale, l, c := SearchSteps(m, x, weight, waux, first);
    if scale > 0.0 {
      l := SnapGroup(m, x, waux, 1.0 / scale, scale);
      FullGroup(m.g, x, waux, 1.0 / scale, scale, l);
      SnappedAllowed(m.g, x, waux, 1.0 / scale, scale, l);
      var sumqx, sumq2 := GroupSums(x, weight, l);
      if sumq2 > 0.0 {
        scale := sumqx / sumq2;
        Divided(sumqx, sumq2);
      }
    } else {
      assert 0 <= c.chosen < 13 && StepTried(m.g, x, waux, first * 3.0, c.chosen - 6, c.tried[c.chosen]);
      TriedAllowed(m.g, x, waux, first * 3.0, c.chosen - 6, l);
    }
    SameChoice(weight, x, c, first, scale);
    c := c.(last := scale);
    flipped := false;
    if scale < 0.0 {
      scale := -scale;
      flipped := true;
    }
  }

  lemma SameChoice(weight: seq<real>, x: seq<real>, c: Course, first: real, last: real)
    requires |x| == |weight| == 32 && Chosen(weight, x, c, first)
    ensures Chosen(weight, x, c.(last := last), first)
  {
    hide NoMore, Below, Reached;
  }

  lemma TriedAllowed(g: seq<nat>, x: seq<real>, waux: seq<real>, eff: real, step: int, t: seq<nat>)
    requires |x| == |waux| == 32 && StepTried(g, x, waux, eff, step, t)
    ensures AllAllowed(g, t) && |t| == 32
  {
    hide SnappedGroup, AllAllowed;
    var id := (5.0 + step as real * 0.1) / eff;
    SnappedAllowed(g, x, waux, id, 1.0 / id, t);
    FullGroup(g, x, waux, id, 1.0 / id, t);
  }

  lemma FullGroup(g: seq<nat>, x: seq<real>, w: seq<real>, id: real, scale: real, l: seq<nat>)
    requires |x| == |w| == 32 && SnappedGroup(g, x, w, id, scale, l)
    ensures |l| == 32
  {
  }

  /** Packing an allowed tuple always finds its grid index: the assertion in the writer cannot fail. */
  lemma PackedIsGrid(m: Tables, t: seq<nat>)
    requires m.Valid() && Allowed(m.g, t)
    ensures |t| == 8 && Code(t, 8) < MAP_SIZE == |m.table|
    ensures 0 <= m.table[Code(t, 8)] < GRID_SIZE && Digits(m.g[m.table[Code(t, 8)]]) == t
  {
    hide Code, Digit, Filled, Increasing;
    var k :| 0 <= k < |m.g| && t == Digits(m.g[k]);
    CodeOfDigits(m.g[k]);
    assert MapEntry(m.g, m.g[k], m.table[m.g[k]]);
  }

  /** The four grid indices of a group. */
  method PackGroup(m: Tables, l: seq<nat>) returns (q: seq<nat>)
    requires m.Valid() && AllAllowed(m.g, l)
    ensures |q| == 4 && forall k :: 0 <= k < 4 ==> q[k] < GRID_SIZE && Digits(m.g[q[k]]) == l[8 * k..8 * k + 8]
  {
    hide Code, Digit, Filled, Built, Increasing;
    q := [];
    var k := 0;
    while k < 4
      invariant 0 <= k <= 4 && |q| == k
      invariant forall i :: 0 <= i < k ==> q[i] < GRID_SIZE && Digits(m.g[q[i]]) == l[8 * i..8 * i + 8]
    {
      var t := l[8 * k..8 * k + 8];
      assert Allowed(m.g, t);
      PackedIsGrid(m, t);
      var u := CodeOf(t);
      var gridIndex := m.table[u];
      q := q + [gridIndex];
      k := k + 1;
    }
  }

  method CodeOf(t: seq<nat>) returns (u: nat)
    requires |t| == 8
    ensures u == Code(t, 8)
  {
    hide Power4;
    u := 0;
    var i := 0;
    while i < 8
      invariant 0 <= i <= 8 && u == Code(t, i)
    {
      u := u + t[i] * Power4(i);
      i := i + 1;
    }
  }

  // ---- signs -----------------------------------------------------------------------------------------------

  function Flips(s: seq<bool>): nat {
    if |s| == 0 then 0 else Flips(s[..|s| - 1]) + if s[|s| - 1] then 1 else 0
  }

  /** The eighth sign as the reader restores it from seven: the one that makes the number of flips even. */
  function EighthSign(s: seq<bool>): bool
    requires |s| == 8
  {
    Flips(s[..7]) % 2 == 1
  }

  /** With an even number of flips, seven stored signs are enough; also after flipping all eight. */
  lemma SevenSignsAreEnough(s: seq<bool>)
    requires |s| == 8 && Flips(s) % 2 == 0
    ensures EighthSign(s) == s[7]
    ensures EighthSign(Flipped(s)) == Flipped(s)[7]
  {
    assert s[..8] == s;
    assert Flipped(s)[..7] == Flipped(s[..7]);
    FlippedCount(s[..7]);
  }

  function Flipped(s: seq<bool>): (r: seq<bool>)
    ensures |r| == |s| && forall i :: 0 <= i < |s| ==> r[i] == !s[i]
  {
    seq(|s|, i requires 0 <= i < |s| => !s[i])
  }

  lemma {:induction false} FlippedCount(s: seq<bool>)
    ensures Flips(Flipped(s)) + Flips(s) == |s|
  {
    if |s| == 0 {
    } else {
      assert Flipped(s)[..|s| - 1] == Flipped(s[..|s| - 1]);
      FlippedCount(s[..|s| - 1]);
    }
  }

  lemma {:induction false} FlipOne(s: seq<bool>, i: nat)
    requires i < |s|
    ensures Flips(s[i := !s[i]]) == if s[i] then Flips(s) - 1 else Flips(s) + 1
  {
    var r := s[i := !s[i]];
    if i == |s| - 1 {
      assert r[..|s| - 1] == s[..|s| - 1];
    } else {
      assert r[..|s| - 1] == s[..|s| - 1][i := !s[i]];
      FlipOne(s[..|s| - 1], i);
    }
  }

  function WeightedSquare(w: real, x: real): real { w * x * x }

  /** The first of the values 0..n with the least w * x * x. */
  function Least(x: seq<real>, w: seq<real>, n: nat): (m: nat)
    requires |x| == |w| && 1 <= n <= |x|
    ensures m < n && forall i :: 0 <= i < n ==> WeightedSquare(w[m], x[m]) <= WeightedSquare(w[i], x[i])
    ensures forall i :: 0 <= i < m ==> WeightedSquare(w[m], x[m]) < WeightedSquare(w[i], x[i])
  {
    if n == 1 then 0 else
    var m := Least(x, w, n - 1);
    if WeightedSquare(w[n - 1], x[n - 1]) < WeightedSquare(w[m], x[m]) then n - 1 else m
  }

  function Abs(v: real): real { if v >= 0.0 then v else -v }

  function Magnitudes(x: seq<real>): (r: seq<real>)
    ensures |r| == |x| && forall i :: 0 <= i < |x| ==> r[i] == Abs(x[i])
  {
    seq(|x|, i requires 0 <= i < |x| => Abs(x[i]))
  }

  function Negatives(x: seq<real>): (r: seq<bool>)
    ensures |r| == |x| && forall i :: 0 <= i < |x| ==> r[i] == (x[i] < 0.0)
  {
    seq(|x|, i requires 0 <= i < |x| => x[i] < 0.0)
  }

  /** Magnitudes and signs of eight values; an odd number of flips is evened out at the least important value. */
  function Signed(x: seq<real>, w: seq<real>): (r: (seq<real>, seq<bool>))
    requires |x| == |w| == 8
    ensures |r.0| == |r.1| == 8
  {
    var xval, s := Magnitudes(x), Negatives(x);
    if Flips(s) % 2 == 0 then (xval, s) else
    var m := Least(x, w, 8);
    (xval[m := -xval[m]], s[m := !s[m]])
  }

  /** The flips are even, and value and sign give the input back. */
  lemma SignedParts(x: seq<real>, w: seq<real>)
    requires |x| == |w| == 8
    ensures var (xval, s) := Signed(x, w);
      && Flips(s) % 2 == 0
      && forall i :: 0 <= i < 8 ==> x[i] == if s[i] then -xval[i] else xval[i]
  {
    hide Flips, Least;
    if Flips(Negatives(x)) % 2 != 0 { FlipOne(Negatives(x), Least(x, w, 8)); }
  }

  /** A negative value is passed on exactly when the flips are odd and the least important value is not zero. */
  lemma NegativePassed(x: seq<real>, w: seq<real>)
    requires |x| == |w| == 8
    ensures (exists i :: 0 <= i < 8 && Signed(x, w).0[i] < 0.0)
       <==> Flips(Negatives(x)) % 2 == 1 && x[Least(x, w, 8)] != 0.0
  {
    hide Flips, Least;
    var m := Least(x, w, 8);
    var xval := Signed(x, w).0;
    if Flips(Negatives(x)) % 2 == 1 {
      assert xval[m] == -Abs(x[m]);
    }
  }

  method SignTuple(x: seq<real>, w: seq<real>) returns (xval: seq<real>, s: seq<bool>)
    requires |x| == |w| == 8
    ensures (xval, s) == Signed(x, w)
  {
    hide Abs, WeightedSquare, Least;
    xval, s := [], [];
    var nflip, i := 0, 0;
    while i < 8
      invariant 0 <= i <= 8 && |xval| == |s| == i && nflip == Flips(s)
      invariant xval == Magnitudes(x)[..i] && s == Negatives(x)[..i]
    {
      var v := x[i];
      assert (s + [v < 0.0])[..i] == s;
      assert Magnitudes(x)[i] == if v >= 0.0 then v else -v by { AbsIs(v); }
      if v >= 0.0 {
        xval := xval + [v];
      } else {
        xval := xval + [-v];
        nflip := nflip + 1;
      }
      s := s + [v < 0.0];
      i := i + 1;
    }
    assert xval == Magnitudes(x) && s == Negatives(x);
    if nflip % 2 != 0 {
      var imin := LeastWeighted(x, w);
      xval := xval[imin := -xval[imin]];
      s := s[imin := !s[imin]];
    }
  }

  lemma AbsIs(v: real)
    ensures Abs(v) == if v >= 0.0 then v else -v
  {
  }

  method LeastWeighted(x: seq<real>, w: seq<real>) returns (imin: nat)
    requires |x| == |w| == 8
    ensures imin == Least(x, w, 8)
  {
    hide WeightedSquare;
    imin := 0;
    var min := WeightedSquare(w[0], x[0]);
    var i := 1;
    while i < 8
      invariant 1 <= i <= 8 && imin == Least(x, w, i) && min == WeightedSquare(w[imin], x[imin])
    {
      var ax := WeightedSquare(w[i], x[i]);
      if ax < min {
        min := ax;
        imin := i;
      }
      i := i + 1;
    }
  }
}
