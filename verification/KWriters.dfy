/**
 The block writers of Q2_K and Q4_K, gguf-tools/quants.c:369-504, 528-585 and 587-639, from the searches to the packed
 bytes, and what the dot products read of their blocks. Arithmetic is over reals; rounding to half precision is a
 parameter.
 */
module KWriters {
  import opened WeightedFit
  import opened KBlocks
  import opened KDots
  import ByteEncoding
  import QuantSearch
  import QpSearch

  // ---- the arrays of a writer --------------------------------------------------------------------

  /** Codes of the elements, scales and minima of the groups, as the writer packs them. */
  datatype Arrays = Arrays(codes: seq<int>, ls: seq<int>, lm: seq<int>)

  predicate UpTo(s: seq<int>, n: nat) {
    forall i :: 0 <= i < |s| ==> 0 <= s[i] <= n
  }

  function Bv(n: int): bv8
    requires 0 <= n <= 255
  {
    n as bv8
  }

  function Bvs(s: seq<int>): (r: seq<bv8>)
    requires UpTo(s, 255)
    ensures |r| == |s| && forall i :: 0 <= i < |s| ==> r[i] == Bv(s[i])
  {
    seq(|s|, i requires 0 <= i < |s| => Bv(s[i]))
  }

  lemma BvFacts(n: int)
    requires 0 <= n <= 255
    ensures Bv(n) as int == n
    ensures (n < 4 ==> Bv(n) < 4) && (n < 16 ==> Bv(n) < 16) && (n < 64 ==> Bv(n) < 64)
  {
    assert n % 256 == n;
  }

  lemma BvsBelow(s: seq<int>, n: nat, bound: bv8)
    requires UpTo(s, n) && ((n == 3 && bound == 4) || (n == 15 && bound == 16) || (n == 63 && bound == 64))
    ensures Below(Bvs(s), bound)
  {
    hide Bv;
    forall i | 0 <= i < |s|
      ensures Bvs(s)[i] < bound
    {
      BvFacts(s[i]);
    }
  }

  /** Scale, code and minimum of every element, straight from the arrays. */
  function ElemsOf(w: Arrays, size: nat): (e: Elems)
    requires size > 0 && |w.codes| == QK && |w.ls| * size == |w.lm| * size == QK
    ensures e.Sized()
  {
    Elems(seq(QK, e requires 0 <= e < QK => GroupOf(w.ls, size, e)), w.codes,
          seq(QK, e requires 0 <= e < QK => GroupOf(w.lm, size, e)))
  }

  function GroupOf(s: seq<int>, size: nat, e: nat): int
    requires size > 0 && |s| * size == QK && e < QK
  {
    GroupInside(|s|, size, e);
    s[e / size]
  }

  lemma AtMost(a: nat, b: nat, size: nat)
    requires a <= b
    ensures a * size <= b * size
  {
    assert (b - a) * size >= 0;
  }

  lemma GroupInside(n: nat, size: nat, e: nat)
    requires size > 0 && e < n * size
    ensures e / size < n
  {
    var g := e / size;
    assert e == g * size + e % size;
    if g >= n { AtMost(n, g, size); }
  }

  ghost predicate Fits2(w: Arrays) {
    && |w.codes| == QK && |w.ls| == |w.lm| == 16
    && UpTo(w.codes, 3) && UpTo(w.ls, 15) && UpTo(w.lm, 15)
  }

  ghost predicate Fits4(w: Arrays) {
    && |w.codes| == QK && |w.ls| == |w.lm| == 8
    && UpTo(w.codes, 15) && UpTo(w.ls, 63) && UpTo(w.lm, 63)
  }

  /** The block holds the arrays in the layout of Q2_K. */
  ghost predicate Written2(b: Q2, w: Arrays) {
    && Fits2(w) && b.Sized()
    && (forall i :: 0 <= i < 64 ==> b.qs[i] == Q2Byte(Bvs(w.codes), i))
    && forall j :: 0 <= j < 16 ==> b.scales[j] == Bv(w.ls[j]) | (Bv(w.lm[j]) << 4)
  }

  ghost predicate Written4(b: Q4, w: Arrays) {
    && Fits4(w) && b.Sized()
    && (forall i :: 0 <= i < 128 ==> b.qs[i] == Q4Byte(Bvs(w.codes), i))
    && forall i :: 0 <= i < 12 ==> b.scales[i] == ScaleBytes(Bvs(w.ls), Bvs(w.lm), i)
  }

  // ---- what the kernels read -----------------------------------------------------------------------

  /** The readers see exactly the writer's arrays. */
  lemma Read2(b: Q2, w: Arrays)
    requires Written2(b, w)
    ensures Q2Elems(b) == ElemsOf(w, 16)
  {
    BvsBelow(w.codes, 3, 4);
    BvsBelow(w.ls, 15, 16);
    BvsBelow(w.lm, 15, 16);
    hide Bv, Q2Byte, Below, Q2Elems;
    forall e | 0 <= e < QK
      ensures var r := Q2Elems(b); var s := ElemsOf(w, 16);
        r.s[e] == s.s[e] && r.c[e] == s.c[e] && r.m[e] == s.m[e]
    {
      Q2Written(b, Bvs(w.codes), Bvs(w.ls), Bvs(w.lm), e);
      BvFacts(w.codes[e]);
      BvFacts(w.ls[e / 16]);
      BvFacts(w.lm[e / 16]);
    }
    SameElems(Q2Elems(b), ElemsOf(w, 16));
  }

  lemma Read4(b: Q4, w: Arrays)
    requires Written4(b, w)
    ensures Q4Elems(b) == ElemsOf(w, 32)
  {
    BvsBelow(w.codes, 15, 16);
    BvsBelow(w.ls, 63, 64);
    BvsBelow(w.lm, 63, 64);
    hide Bv, Q4Byte, ScaleBytes, Below, Q4Elems;
    forall e | 0 <= e < QK
      ensures var r := Q4Elems(b); var s := ElemsOf(w, 32);
        r.s[e] == s.s[e] && r.c[e] == s.c[e] && r.m[e] == s.m[e]
    {
      Q4Written(b, Bvs(w.codes), Bvs(w.ls), Bvs(w.lm), e);
      BvFacts(w.codes[e]);
      BvFacts(w.ls[e / 32]);
      BvFacts(w.lm[e / 32]);
    }
    SameElems(Q4Elems(b), ElemsOf(w, 32));
  }

  lemma SameElems(a: Elems, b: Elems)
    requires a.Sized() && b.Sized()
    requires forall e :: 0 <= e < QK ==> a.s[e] == b.s[e] && a.c[e] == b.c[e] && a.m[e] == b.m[e]
    ensures a == b
  {
    assert a.s == b.s && a.c == b.c && a.m == b.m;
  }

  /** Blocks with the arrays they were written from, and activations to multiply with. */
  ghost predicate Rows2(b: seq<Q2>, w: seq<Arrays>, y: seq<Q8>) {
    && |b| == |w| == |y|
    && (forall i :: 0 <= i < |b| ==> b[i].Sized() && y[i].Valid())
    && (forall i :: 0 <= i < |w| ==> Fits2(w[i]))
    && (forall i :: 0 <= i < |b| ==> Written2(b[i], w[i]))
  }

  ghost predicate Rows4(b: seq<Q4>, w: seq<Arrays>, y: seq<Q8>) {
    && |b| == |w| == |y|
    && (forall i :: 0 <= i < |b| ==> b[i].Sized() && y[i].Valid())
    && (forall i :: 0 <= i < |w| ==> Fits4(w[i]))
    && (forall i :: 0 <= i < |b| ==> Written4(b[i], w[i]))
  }

  /** The plain dot product of the arrays of the first n blocks. */
  ghost function Row2(b: seq<Q2>, w: seq<Arrays>, y: seq<Q8>, n: nat): real
    requires Rows2(b, w, y) && n <= |b|
  {
    if n == 0 then 0.0 else
    assert Fits2(w[n - 1]);
    Row2(b, w, y, n - 1) + Simple(b[n - 1].d, b[n - 1].dmin, y[n - 1].d, ElemsOf(w[n - 1], 16), y[n - 1].qs, QK)
  }

  ghost function Row4(b: seq<Q4>, w: seq<Arrays>, y: seq<Q8>, n: nat): real
    requires Rows4(b, w, y) && n <= |b|
  {
    if n == 0 then 0.0 else
    assert Fits4(w[n - 1]);
    Row4(b, w, y, n - 1) + Simple(b[n - 1].d, b[n - 1].dmin, y[n - 1].d, ElemsOf(w[n - 1], 32), y[n - 1].qs, QK)
  }

  /** So the value that the Q2_K kernel computes is the plain dot product of the writer's arrays. */
  lemma {:induction false} KernelReads2(b: seq<Q2>, w: seq<Arrays>, y: seq<Q8>, n: nat)
    requires Rows2(b, w, y) && n <= |b|
    ensures Q2Row(b, y, n) == Row2(b, w, y, n)
  {
    hide Simple, Q2Elems, ElemsOf, Written2, Fits2, Q8.Valid, Q2.Sized;
    if n == 0 {
    } else {
      KernelReads2(b, w, y, n - 1);
      assert Written2(b[n - 1], w[n - 1]);
      Read2(b[n - 1], w[n - 1]);
    }
  }

  lemma {:induction false} KernelReads4(b: seq<Q4>, w: seq<Arrays>, y: seq<Q8>, n: nat)
    requires Rows4(b, w, y) && n <= |b|
    ensures Q4Row(b, y, n) == Row4(b, w, y, n)
  {
    hide Simple, Q4Elems, ElemsOf, Written4, Fits4, Q8.Valid, Q4.Sized;
    if n == 0 {
    } else {
      KernelReads4(b, w, y, n - 1);
      assert Written4(b[n - 1], w[n - 1]);
      Read4(b[n - 1], w[n - 1]);
    }
  }

  // ---- the searches ----------------------------------------------------------------------------------

  /** What the searches of all groups found. */
  datatype Searched = Searched(codes: seq<int>, scales: seq<real>, mins: seq<real>) {
    ghost predicate Good(groups: nat, size: nat, nmax: nat) {
      && |codes| == groups * size && |scales| == |mins| == groups
      && UpTo(codes, nmax) && NonNegative(scales) && NonNegative(mins)
    }
  }

  /**
   What the search of one group is to find: a scale, a minimum and codes whose error at x ~ scale * code - min is within
   half a step of the even division; all zero, exactly, when the values have no range; and otherwise the state of the
   search after its nstep + 1 steps.
   */
  ghost predicate Found(p: QuantSearch.Params, x: seq<real>, w: seq<real>, nstep: int, codes: seq<int>, scale: real,
                        min: real)
  {
    && |x| == |w| == |codes| > 0 && NonNegative(w) && p.nmax > 0 && UpTo(codes, p.nmax) && scale >= 0.0 && min >= 0.0
    && (var low, high := QuantSearch.Low(x), QuantSearch.High(x);
        var k := if nstep < 1 then 0 else nstep + 1;
        && QuantSearch.FitOf(w, x, codes).Error(scale, -min, p.mad)
           <= (if low < high then ErrorLimit(Sum(w, |w|), QuantSearch.HalfStep(p, x), p.mad) else 0.0)
        && (low == high ==> scale == 0.0 && min == -low && UpTo(codes, 0))
        && (low < high ==>
            && QuantSearch.Searchable(p, x, w) && p.Valid(k - 1)
            && var run := QuantSearch.Run(p, x, w, k);
               codes == run.codes && scale == run.scale && min == -run.min))
  }

  /** Group j of s is what the search finds for the values and weights of group j. */
  ghost predicate GroupFound(p: QuantSearch.Params, x: seq<real>, w: seq<real>, nstep: int, size: nat, s: Searched,
                             j: nat)
  {
    && (j + 1) * size <= |x| && (j + 1) * size <= |w| && (j + 1) * size <= |s.codes|
    && j < |s.scales| && j < |s.mins|
    && Found(p, x[j * size..(j + 1) * size], w[j * size..(j + 1) * size], nstep, s.codes[j * size..(j + 1) * size],
             s.scales[j], s.mins[j])
  }

  ghost predicate AllFound(p: QuantSearch.Params, x: seq<real>, w: seq<real>, nstep: int, groups: nat, size: nat,
                           s: Searched)
  {
    && |s.codes| == groups * size && |s.scales| == |s.mins| == groups
    && forall j :: 0 <= j < groups ==> GroupFound(p, x, w, nstep, size, s, j)
  }

  /** One search for each group; `weighted` selects ds4q_make_qkx3_quants. */
  method SearchGroups(x: seq<real>, w: seq<real>, groups: nat, size: nat, p: QuantSearch.Params, nstep: int,
                      weighted: bool) returns (s: Searched)
    requires |x| == |w| == groups * size && size > 0 && NonNegative(w) && p.Valid(nstep)
    ensures s.Good(groups, size, p.nmax) && AllFound(p, x, w, nstep, groups, size, s)
  {
    hide GroupFound, Found, Searched.Good;
    s := Searched([], [], []);
    NoGroups(size, p.nmax);
    var j := 0;
    while j < groups
      invariant 0 <= j <= groups && s.Good(j, size, p.nmax) && AllFound(p, x, w, nstep, j, size, s)
    {
      NextGroup(j, groups, size);
      var gx, gw := x[j * size..(j + 1) * size], w[j * size..(j + 1) * size];
      NonNegativeSlice(w, j * size, (j + 1) * size);
      var L, Laux := new int[size], new int[size];
      var scale, min := SearchGroup(p, gx, gw, nstep, weighted, L, Laux);
      FoundIsGood(p, gx, gw, nstep, L[..], scale, min);
      GoodGrows(s, j, size, p.nmax, L[..], scale, min);
      FoundGrows(p, x, w, nstep, j, size, s, L[..], scale, min);
      s := Searched(s.codes + L[..], s.scales + [scale], s.mins + [min]);
      j := j + 1;
    }
  }

  method SearchGroup(p: QuantSearch.Params, x: seq<real>, w: seq<real>, nstep: int, weighted: bool, L: array<int>,
                     Laux: array<int>) returns (scale: real, min: real)
    requires |x| == |w| == L.Length == Laux.Length && |x| > 0 && L != Laux && NonNegative(w) && p.Valid(nstep)
    modifies L, Laux
    ensures Found(p, x, w, nstep, L[..], scale, min)
  {
    hide QuantSearch.Low, QuantSearch.High, QuantSearch.Run, QuantSearch.HalfStep, ErrorLimit, Sum, Fit.Error,
         QuantSearch.Params.Step, NonNegative;
    LowAtMostHigh(x);
    if weighted {
      scale, min := QuantSearch.MakeQkx3Quants(p, x, ByteEncoding.Some(w), nstep, L, Laux);
      assert QuantSearch.WeightsOf(x, ByteEncoding.Some(w)) == w;
    } else {
      scale, min := QuantSearch.MakeQkx2Quants(p, x, w, nstep, L, Laux);
    }
  }

  lemma LowAtMostHigh(x: seq<real>)
    requires |x| > 0
    ensures QuantSearch.Low(x) <= QuantSearch.High(x)
  {
  }

  lemma NoGroups(size: nat, nmax: nat)
    ensures 0 * size == 0 && Searched([], [], []).Good(0, size, nmax)
  {
  }

  /** A group's slice of the codes stays when another group is added. */
  lemma SliceStays(codes: seq<int>, more: seq<int>, i: nat, j: nat, size: nat)
    requires i < j && |codes| == j * size
    ensures i * size <= (i + 1) * size <= j * size
    ensures (codes + more)[i * size..(i + 1) * size] == codes[i * size..(i + 1) * size]
  {
    NextGroup(i, j, size);
  }

  lemma GroupStays(p: QuantSearch.Params, x: seq<real>, w: seq<real>, nstep: int, i: nat, j: nat, size: nat,
                   s: Searched, codes: seq<int>, scale: real, min: real)
    requires i < j && |s.codes| == j * size && |s.scales| == |s.mins| == j && GroupFound(p, x, w, nstep, size, s, i)
    ensures GroupFound(p, x, w, nstep, size, Searched(s.codes + codes, s.scales + [scale], s.mins + [min]), i)
  {
    hide Found;
    SliceStays(s.codes, codes, i, j, size);
  }

  lemma GroupAdded(p: QuantSearch.Params, x: seq<real>, w: seq<real>, nstep: int, j: nat, size: nat, s: Searched,
                   codes: seq<int>, scale: real, min: real)
    requires (j + 1) * size == j * size + size && (j + 1) * size <= |x| == |w|
    requires |s.codes| == j * size && |s.scales| == |s.mins| == j && |codes| == size
    requires Found(p, x[j * size..(j + 1) * size], w[j * size..(j + 1) * size], nstep, codes, scale, min)
    ensures GroupFound(p, x, w, nstep, size, Searched(s.codes + codes, s.scales + [scale], s.mins + [min]), j)
  {
    hide Found;
    assert (s.codes + codes)[j * size..(j + 1) * size] == codes;
  }

  lemma FoundGrows(p: QuantSearch.Params, x: seq<real>, w: seq<real>, nstep: int, j: nat, size: nat, s: Searched,
                   codes: seq<int>, scale: real, min: real)
    requires AllFound(p, x, w, nstep, j, size, s) && (j + 1) * size == j * size + size <= |x| == |w| && |codes| == size
    requires Found(p, x[j * size..(j + 1) * size], w[j * size..(j + 1) * size], nstep, codes, scale, min)
    ensures AllFound(p, x, w, nstep, j + 1, size, Searched(s.codes + codes, s.scales + [scale], s.mins + [min]))
  {
    hide Found, GroupFound;
    var t := Searched(s.codes + codes, s.scales + [scale], s.mins + [min]);
    forall i: nat | i < j + 1
      ensures GroupFound(p, x, w, nstep, size, t, i)
    {
      if i < j {
        GroupStays(p, x, w, nstep, i, j, size, s, codes, scale, min);
      } else {
        GroupAdded(p, x, w, nstep, j, size, s, codes, scale, min);
      }
    }
  }

  lemma NextGroup(j: nat, groups: nat, size: nat)
    requires j < groups
    ensures j * size <= (j + 1) * size <= groups * size && (j + 1) * size - j * size == size
  {
    assert (groups - j - 1) * size >= 0;
    assert groups * size == (j + 1) * size + (groups - j - 1) * size;
  }

  lemma NonNegativeSlice(w: seq<real>, a: nat, b: nat)
    requires NonNegative(w) && a <= b <= |w|
    ensures NonNegative(w[a..b])
  {
  }

  lemma FoundIsGood(p: QuantSearch.Params, x: seq<real>, w: seq<real>, nstep: int, codes: seq<int>, scale: real,
                    min: real)
    requires Found(p, x, w, nstep, codes, scale, min)
    ensures |codes| == |x| && UpTo(codes, p.nmax) && scale >= 0.0 && min >= 0.0
  {
    hide QuantSearch.Low, QuantSearch.High, QuantSearch.Run, QuantSearch.HalfStep, ErrorLimit, Sum, Fit.Error,
         QuantSearch.Params.Step;
  }

  lemma GoodGrows(s: Searched, j: nat, size: nat, nmax: nat, codes: seq<int>, scale: real, min: real)
    requires s.Good(j, size, nmax) && |codes| == size && UpTo(codes, nmax) && scale >= 0.0 && min >= 0.0
    ensures Searched(s.codes + codes, s.scales + [scale], s.mins + [min]).Good(j + 1, size, nmax)
  {
    assert (j + 1) * size == j * size + size;
  }

  /** The largest of nonnegative values, and zero for none. */
  function Largest(s: seq<real>, n: nat): (r: real)
    requires n <= |s|
    ensures r >= 0.0 && forall i :: 0 <= i < n ==> s[i] <= r
  {
    if n == 0 then 0.0 else if s[n - 1] > Largest(s, n - 1) then s[n - 1] else Largest(s, n - 1)
  }

  method LargestOf(s: seq<real>) returns (r: real)
    ensures r == Largest(s, |s|)
  {
    r := 0.0;
    var i := 0;
    while i < |s|
      invariant 0 <= i <= |s| && r == Largest(s, i)
    {
      if s[i] > r { r := s[i]; }
      i := i + 1;
    }
  }

  // ---- scales of groups ------------------------------------------------------------------------------

  /** A group's scale in units of the block's: the largest one becomes n. */
  function Units(s: real, max: real, n: nat): int {
    if max > 0.0 then NearestInt(n as real / max * s) else 0
  }

  lemma UnitsFit(s: real, max: real, n: nat)
    requires 0.0 <= s <= max
    ensures 0 <= Units(s, max, n) <= n
  {
    if max > 0.0 {
      var q := n as real / max;
      assert q * max == n as real;
      assert q >= 0.0 by { if q < 0.0 { NegativeProduct(q, max); } }
      Between(q, s, max);
      NearestIntOfInt(0, q * s);
      NearestIntOfInt(n, q * s);
    }
  }

  lemma NegativeProduct(a: real, b: real)
    requires a < 0.0 && b > 0.0
    ensures a * b < 0.0
  {
  }

  lemma Between(q: real, s: real, max: real)
    requires q >= 0.0 && 0.0 <= s <= max
    ensures 0.0 <= q * s <= q * max
  {
    assert q * (max - s) >= 0.0;
  }

  function AllUnits(s: seq<real>, n: nat): (r: seq<int>)
    ensures |r| == |s| && forall j :: 0 <= j < |s| ==> r[j] == Units(s[j], Largest(s, |s|), n)
  {
    seq(|s|, j requires 0 <= j < |s| => Units(s[j], Largest(s, |s|), n))
  }

  lemma AllUnitsFit(s: seq<real>, n: nat)
    requires NonNegative(s)
    ensures UpTo(AllUnits(s, n), n)
  {
    hide Units;
    forall j | 0 <= j < |s|
      ensures 0 <= AllUnits(s, n)[j] <= n
    {
      UnitsFit(s[j], Largest(s, |s|), n);
    }
  }

  /** The loop over the groups' scales. */
  method ScaleUnits(s: seq<real>, max: real, n: nat) returns (r: seq<int>)
    requires max == Largest(s, |s|)
    ensures r == AllUnits(s, n)
  {
    hide Units, NearestInt;
    var inv := if max > 0.0 then n as real / max else 0.0;
    r := [];
    var j := 0;
    while j < |s|
      invariant 0 <= j <= |s| && r == AllUnits(s, n)[..j]
    {
      var scaled := inv * s[j];
      UnitIs(inv, s[j], max, n, scaled);
      assert AllUnits(s, n)[..j + 1] == AllUnits(s, n)[..j] + [Units(s[j], max, n)];
      r := r + [NearestInt(scaled)];
      j := j + 1;
    }
  }

  lemma UnitIs(inv: real, s: real, max: real, n: nat, scaled: real)
    requires scaled == inv * s && inv == if max > 0.0 then n as real / max else 0.0
    ensures NearestInt(scaled) == Units(s, max, n)
  {
    if max <= 0.0 {
      assert scaled == 0.0;
      assert NearestInt(0.0) == 0;
    }
  }

  /** The rounded scale is off by half a unit at most. */
  lemma UnitsNearest(s: real, max: real, n: nat)
    requires max > 0.0
    ensures -0.5 * max <= max * Units(s, max, n) as real - n as real * s <= 0.5 * max
  {
    hide *;
    var a := n as real / max;
    var q := a * s;
    Divided(n as real, max);
    assert max * q == n as real * s by { assert max * (a * s) == (a * max) * s; }
    NearestIntError(q);
    UnitIs(a, s, max, n, q);
    HalfUnit(max, Units(s, max, n) as real, q, n as real * s);
  }

  lemma HalfUnit(max: real, u: real, q: real, p: real)
    requires max > 0.0 && -0.5 <= u - q <= 0.5 && max * q == p
    ensures -0.5 * max <= max * u - p <= 0.5 * max
  {
    NonNegativeProduct(max, u - q + 0.5);
    NonNegativeProduct(max, q + 0.5 - u);
    assert max * (u - q + 0.5) == max * u - max * q + 0.5 * max;
    assert max * (q + 0.5 - u) == max * q + 0.5 * max - max * u;
  }

  // ---- the codes once the scales are rounded -------------------------------------------------------------

  /** The code of one element for the rounded scales of its group; a group of scale zero keeps the searched code. */
  function Recoded(x: real, was: int, d: real, dmin: real, ls: int, lm: int, nmax: nat): int {
    var dd := d * ls as real;
    if dd == 0.0 then was else Clamp(NearestInt((x + dmin * lm as real) / dd), nmax)
  }

  function AllRecoded(x: seq<real>, was: seq<int>, d: real, dmin: real, ls: seq<int>, lm: seq<int>, size: nat,
                      nmax: nat): (r: seq<int>)
    requires |x| == |was| == QK && size > 0 && |ls| * size == |lm| * size == QK
    ensures |r| == QK
    ensures forall e :: 0 <= e < QK ==>
      r[e] == Recoded(x[e], was[e], d, dmin, GroupOf(ls, size, e), GroupOf(lm, size, e), nmax)
  {
    seq(QK, e requires 0 <= e < QK =>
      Recoded(x[e], was[e], d, dmin, GroupOf(ls, size, e), GroupOf(lm, size, e), nmax))
  }

  lemma RecodedFit(x: seq<real>, was: seq<int>, d: real, dmin: real, ls: seq<int>, lm: seq<int>, size: nat, nmax: nat)
    requires |x| == |was| == QK && size > 0 && |ls| * size == |lm| * size == QK && UpTo(was, nmax)
    ensures UpTo(AllRecoded(x, was, d, dmin, ls, lm, size, nmax), nmax)
  {
    hide GroupOf;
  }

  /** A product with a larger factor is at least as large. */
  lemma FurtherProduct(dd: real, a: real, b: real, p: real, q: real)
    requires Abs(a) <= Abs(b) && p == dd * a && q == dd * b
    ensures Abs(p) <= Abs(q)
  {
    hide *;
    AbsProduct(dd, a, p);
    AbsProduct(dd, b, q);
    ScaledOrder(Abs(dd), Abs(a), Abs(b));
    assert Abs(dd) * Abs(a) <= Abs(dd) * Abs(b);
  }

  lemma AbsProduct(u: real, v: real, p: real)
    requires p == u * v
    ensures Abs(p) == Abs(u) * Abs(v)
  {
  }

  lemma NearestCode(t: real, nmax: nat, k: nat)
    requires k <= nmax
    ensures Abs(Clamp(NearestInt(t), nmax) as real - t) <= Abs(k as real - t)
  {
    NearestIntError(t);
    var r := NearestInt(t);
    hide NearestInt;
    if 0 <= r <= nmax {
      Nearer(r, k, t);
    }
  }

  lemma Nearer(r: int, k: int, t: real)
    requires -0.5 <= r as real - t <= 0.5
    ensures Abs(r as real - t) <= Abs(k as real - t)
  {
    if k < r {
      assert k as real <= r as real - 1.0;
    } else if k > r {
      assert k as real >= r as real + 1.0;
    }
  }

  /** What a stored code stands for. */
  function Decoded(code: int, d: real, dmin: real, ls: int, lm: int): real {
    d * ls as real * code as real - dmin * lm as real
  }

  lemma CloserCode(y: real, z: real, dd: real, dm: real, t: real, x: real, r: real, k: real)
    requires dd * t == x + dm && Abs(r - t) <= Abs(k - t) && y == dd * r - dm && z == dd * k - dm
    ensures Abs(y - x) <= Abs(z - x)
  {
    hide Abs;
    var p, q := y - x, z - x;
    assert p == dd * (r - t) && q == dd * (k - t);
    FurtherProduct(dd, r - t, k - t, p, q);
  }

  /** With the rounded scales no code stands for a value closer to the element than the one that is stored. */
  lemma RecodedIsNearest(x: real, was: int, d: real, dmin: real, ls: int, lm: int, nmax: nat, k: nat)
    requires d * ls as real != 0.0 && k <= nmax
    ensures var r := Recoded(x, was, d, dmin, ls, lm, nmax);
      0 <= r <= nmax && Abs(Decoded(r, d, dmin, ls, lm) - x) <= Abs(Decoded(k, d, dmin, ls, lm) - x)
  {
    hide NearestInt, Abs, Recoded, Clamp;
    var dd, dm := d * ls as real, dmin * lm as real;
    var t := (x + dm) / dd;
    Divided(x + dm, dd);
    CodeAt(x, was, d, dmin, ls, lm, nmax, dd, dm);
    NearestCode(t, nmax, k);
    var r := Clamp(NearestInt(t), nmax);
    assert Recoded(x, was, d, dmin, ls, lm, nmax) == r;
    var y, z := Decoded(r, d, dmin, ls, lm), Decoded(k, d, dmin, ls, lm);
    CloserCode(dd * r as real - dm, dd * k as real - dm, dd, dm, t, x, r as real, k as real);
    assert y == dd * r as real - dm && z == dd * k as real - dm;
  }

  /** So it is for every element of a block. */
  lemma CodesAreNearest(x: seq<real>, was: seq<int>, d: real, dmin: real, ls: seq<int>, lm: seq<int>, size: nat,
                        nmax: nat, e: nat, k: nat)
    requires |x| == |was| == QK && size > 0 && |ls| * size == |lm| * size == QK && e < QK && k <= nmax
    ensures e / size < |ls| && e / size < |lm|
    ensures var l, m, r := ls[e / size], lm[e / size], AllRecoded(x, was, d, dmin, ls, lm, size, nmax)[e];
      if d * l as real == 0.0 then r == was[e] else
        0 <= r <= nmax && Abs(Decoded(r, d, dmin, l, m) - x[e]) <= Abs(Decoded(k, d, dmin, l, m) - x[e])
  {
    GroupInside(|ls|, size, e);
    GroupInside(|lm|, size, e);
    var l, m := ls[e / size], lm[e / size];
    assert GroupOf(ls, size, e) == l && GroupOf(lm, size, e) == m;
    hide GroupOf, Recoded, Decoded, Abs;
    if d * l as real == 0.0 {
      RecodedIsSearched(x[e], was[e], d, dmin, l, m, nmax);
    } else {
      RecodedIsNearest(x[e], was[e], d, dmin, l, m, nmax, k);
    }
  }

  /** A group whose rounded scale is zero keeps the codes of its search. */
  lemma RecodedIsSearched(x: real, was: int, d: real, dmin: real, ls: int, lm: int, nmax: nat)
    requires d * ls as real == 0.0
    ensures Recoded(x, was, d, dmin, ls, lm, nmax) == was
  {
    hide NearestInt, Clamp;
  }

  /** The loops over groups and elements that code anew. */
  method Recode(x: seq<real>, was: seq<int>, d: real, dmin: real, ls: seq<int>, lm: seq<int>, size: nat, nmax: nat)
    returns (r: seq<int>)
    requires |x| == |was| == QK && size > 0 && |ls| * size == |lm| * size == QK
    ensures r == AllRecoded(x, was, d, dmin, ls, lm, size, nmax)
  {
    hide AllRecoded, NearestInt;
    r := [];
    ghost var all := AllRecoded(x, was, d, dmin, ls, lm, size, nmax);
    var j := 0;
    while j < |ls|
      invariant 0 <= j <= |ls| && |r| == j * size <= QK && r == all[..j * size]
    {
      NextGroup(j, |ls|, size);
      SameLength(|ls|, |lm|, size);
      var dd := d * ls[j] as real;
      var dm := dmin * lm[j] as real;
      var ii := 0;
      while ii < size
        invariant 0 <= ii <= size && |r| == j * size + ii && r == all[..j * size + ii]
      {
        var e := j * size + ii;
        InGroup(j, size, ii);
        var l := was[e];
        if dd != 0.0 { l := Clamp(NearestInt((x[e] + dm) / dd), nmax); }
        assert all[e] == l by { CodeAt(x[e], was[e], d, dmin, ls[j], lm[j], nmax, dd, dm); }
        r := r + [l];
        ii := ii + 1;
      }
      j := j + 1;
    }
    assert r == all;
  }

  lemma Strict(a: nat, b: nat, size: nat)
    requires a < b && size > 0
    ensures a * size < b * size
  {
    assert (b - a) * size > 0;
  }

  lemma SameLength(a: nat, b: nat, size: nat)
    requires size > 0 && a * size == b * size
    ensures a == b
  {
    if a < b {
      Strict(a, b, size);
    } else if b < a {
      Strict(b, a, size);
    }
  }

  lemma SmallNat(d: nat, size: nat, x: int)
    requires d * size == x && x < size
    ensures d == 0
  {
    if d >= 1 {
      AtMost(1, d, size);
    }
  }

  lemma SmallMultiple(d: int, size: nat, x: int)
    requires d * size == x && x < size && -x < size
    ensures d == 0
  {
    if d >= 0 {
      SmallNat(d, size, x);
    } else {
      Negated(d, size);
      SmallNat(-d, size, -x);
    }
  }

  lemma Negated(d: int, size: nat)
    ensures -d * size == -(d * size)
  {
  }

  lemma InGroup(j: nat, size: nat, ii: nat)
    requires ii < size
    ensures (j * size + ii) / size == j
  {
    var e := j * size + ii;
    var g, r := e / size, e % size;
    assert e == g * size + r;
    assert (g - j) * size == ii - r;
    SmallMultiple(g - j, size, ii - r);
  }

  lemma CodeAt(x: real, was: int, d: real, dmin: real, ls: int, lm: int, nmax: nat, dd: real, dm: real)
    requires dd == d * ls as real && dm == dmin * lm as real
    ensures Recoded(x, was, d, dmin, ls, lm, nmax)
         == if dd != 0.0 then Clamp(NearestInt((x + dm) / dd), nmax) else was
  {
    hide NearestInt;
  }

  // ---- Q2_K -----------------------------------------------------------------------------------------------

  /** Packs the arrays of a Q2_K block. */
  method Pack2Block(w: Arrays, d: real, dmin: real) returns (b: Q2)
    requires Fits2(w)
    ensures Written2(b, w) && b.d == d && b.dmin == dmin
  {
    hide Q2Byte, Bv;
    var scales: seq<bv8> := [];
    var j := 0;
    while j < 16
      invariant 0 <= j <= 16 && |scales| == j
      invariant forall k :: 0 <= k < j ==> scales[k] == Bv(w.ls[k]) | (Bv(w.lm[k]) << 4)
    {
      scales := scales + [Bv(w.ls[j]) | (Bv(w.lm[j]) << 4)];
      j := j + 1;
    }
    var qs := new bv8[64];
    PackQ2Codes(Bvs(w.codes), qs);
    b := Q2(scales, qs[..], d, dmin);
  }

  function Magnitude(v: real): real { if v < 0.0 then -v else v }

  function Magnitudes(x: seq<real>): (r: seq<real>)
    ensures |r| == |x| && NonNegative(r)
    ensures forall i :: 0 <= i < |x| ==> r[i] == x[i] || r[i] == -x[i]
  {
    seq(|x|, i requires 0 <= i < |x| => Magnitude(x[i]))
  }

  lemma Steps2(p: QuantSearch.Params)
    requires p == QuantSearch.Params(3, -0.5, 0.1, true) || p == QuantSearch.Params(3, -0.9, 0.05, false)
    ensures p.Valid(36)
  {
  }

  lemma FewerSteps(p: QuantSearch.Params, n: int, m: int)
    requires p.Valid(n) && m <= n
    ensures p.Valid(m)
  {
    hide QuantSearch.Params.Step;
  }

  /** The scales, minima and codes of a Q2_K block follow from the searches and the two block scales. */
  ghost predicate Arrays2(x: seq<real>, s: Searched, d: real, dmin: real, w: Arrays) {
    && |x| == QK && s.Good(16, 16, 3) && |w.ls| == |w.lm| == 16
    && w.codes == AllRecoded(x, s.codes, d, dmin, w.ls, w.lm, 16, 3)
  }

  /** ds4q_write_q2_k_block_ref */
  method WriteQ2Ref(x: seq<real>, half: real -> real) returns (b: Q2, w: Arrays, s: Searched)
    requires |x| == QK
    ensures Written2(b, w) && Arrays2(x, s, b.d, b.dmin, w)
    ensures AllFound(QuantSearch.Params(3, -0.5, 0.1, true), x, Magnitudes(x), 15, 16, 16, s)
    ensures w.ls == AllUnits(s.scales, 15) && w.lm == AllUnits(s.mins, 15)
    ensures b.d == half(Largest(s.scales, 16) / 15.0) && b.dmin == half(Largest(s.mins, 16) / 15.0)
  {
    hide AllRecoded, AllUnits, Largest, Q2Byte;
    var p := QuantSearch.Params(3, -0.5, 0.1, true);
    Steps2(p);
    FewerSteps(p, 36, 15);
    s := SearchGroups(x, Magnitudes(x), 16, 16, p, 15, false);
    var maxScale := LargestOf(s.scales);
    var maxMin := LargestOf(s.mins);
    var ls := ScaleUnits(s.scales, maxScale, 15);
    var lm := ScaleUnits(s.mins, maxMin, 15);
    AllUnitsFit(s.scales, 15);
    AllUnitsFit(s.mins, 15);
    var d, dmin := half(maxScale / 15.0), half(maxMin / 15.0);
    var codes := Recode(x, s.codes, d, dmin, ls, lm, 16, 3);
    RecodedFit(x, s.codes, d, dmin, ls, lm, 16, 3);
    w := Arrays(codes, ls, lm);
    b := Pack2Block(w, d, dmin);
  }

  /** What the second search is to find for the scales or minima of the groups: their codes and the block's scale. */
  ghost predicate Rated(values: seq<real>, weights: seq<real>, n: nat, codes: seq<int>, scale: real) {
    && |values| == |weights| == |codes| && n > 0 && UpTo(codes, n)
    && (QpSearch.Tiny(values) ==> scale == 0.0 && UpTo(codes, 0))
    && (!QpSearch.Tiny(values) ==>
        && codes == QpSearch.ResultCodes(values, weights, n)
        && scale == QpSearch.ScaleOf(QpSearch.FitOf(weights, values, codes)))
  }

  lemma RatedFits(values: seq<real>, weights: seq<real>, n: nat, codes: seq<int>, scale: real)
    requires Rated(values, weights, n, codes, scale)
    ensures |codes| == |values| && UpTo(codes, n)
  {
    hide QpSearch.Top, QpSearch.ResultCodes, QpSearch.ScaleOf, QpSearch.FitOf;
  }

  method Rate(values: seq<real>, weights: seq<real>, n: nat, L: array<int>) returns (scale: real)
    requires |values| == |weights| == L.Length && 0 < n <= 255 && NonNegative(values) && NonNegative(weights)
    modifies L
    ensures Rated(values, weights, n, L[..], scale)
  {
    hide QpSearch.Top, QpSearch.ResultCodes, QpSearch.ScaleOf, QpSearch.FitOf, QpSearch.Found;
    scale := QpSearch.MakeQpQuants(values, weights, n, L);
  }

  /** The sums of the weights of each group. */
  function WeightSums(w: seq<real>, groups: nat, size: nat): (r: seq<real>)
    requires |w| == groups * size && NonNegative(w)
    ensures |r| == groups && NonNegative(r)
  {
    seq(groups, j requires 0 <= j < groups => GroupWeight(w, groups, size, j))
  }

  lemma WeightSumsAre(w: seq<real>, groups: nat, size: nat, j: nat)
    requires |w| == groups * size && NonNegative(w) && j < groups
    ensures j * size + size == (j + 1) * size <= |w|
    ensures WeightSums(w, groups, size)[j] == Sum(w[j * size..(j + 1) * size], size)
  {
    NextGroup(j, groups, size);
  }

  function GroupWeight(w: seq<real>, groups: nat, size: nat, j: nat): (r: real)
    requires |w| == groups * size && NonNegative(w) && j < groups
    ensures r >= 0.0
  {
    NextGroup(j, groups, size);
    NonNegativeSlice(w, j * size, (j + 1) * size);
    NonNegativeSum(w[j * size..(j + 1) * size], size);
    Sum(w[j * size..(j + 1) * size], size)
  }

  lemma {:induction false} NonNegativeSum(w: seq<real>, n: nat)
    requires NonNegative(w) && n <= |w|
    ensures Sum(w, n) >= 0.0
  {
    if n == 0 {
    } else {
      NonNegativeSum(w, n - 1);
    }
  }

  /** ds4q_write_q2_k_block_weighted, given the weights of the elements. */
  method WriteQ2Weighted(x: seq<real>, weight: seq<real>, half: real -> real)
    returns (b: Q2, w: Arrays, s: Searched, dm: real, mm: real)
    requires |x| == |weight| == QK && NonNegative(weight)
    ensures Written2(b, w) && Arrays2(x, s, b.d, b.dmin, w)
    ensures AllFound(QuantSearch.Params(3, -0.9, 0.05, false), x, weight, 36, 16, 16, s)
    ensures b.d == half(dm) && Rated(s.scales, WeightSums(weight, 16, 16), 15, w.ls, dm)
    ensures b.dmin == half(mm) && Rated(s.mins, WeightSums(weight, 16, 16), 15, w.lm, mm)
  {
    hide AllRecoded, Q2Byte, WeightSums, Rated, AllFound;
    var p := QuantSearch.Params(3, -0.9, 0.05, false);
    Steps2(p);
    s := SearchGroups(x, weight, 16, 16, p, 36, true);
    var sw := WeightSums(weight, 16, 16);
    var ls, lm := new int[16], new int[16];
    dm := Rate(s.scales, sw, 15, ls);
    RatedFits(s.scales, sw, 15, ls[..], dm);
    mm := Rate(s.mins, sw, 15, lm);
    RatedFits(s.mins, sw, 15, lm[..], mm);
    var d, dmin := half(dm), half(mm);
    var codes := Recode(x, s.codes, d, dmin, ls[..], lm[..], 16, 3);
    RecodedFit(x, s.codes, d, dmin, ls[..], lm[..], 16, 3);
    w := Arrays(codes, ls[..], lm[..]);
    b := Pack2Block(w, d, dmin);
  }

  // ---- Q4_K -----------------------------------------------------------------------------------------------

  lemma Steps4(p: QuantSearch.Params)
    requires p == QuantSearch.Params(15, -1.0, 0.1, false) || p == QuantSearch.Params(15, -0.9, 0.05, false)
    ensures p.Valid(36)
  {
  }

  /** Packs the arrays of a Q4_K block. */
  method Pack4Block(w: Arrays, d: real, dmin: real) returns (b: Q4)
    requires Fits4(w)
    ensures Written4(b, w) && b.d == d && b.dmin == dmin
  {
    hide Q4Byte, ScaleBytes, Bv;
    var qs, scales := new bv8[128], new bv8[12];
    PackQ4Codes(Bvs(w.codes), qs);
    PackScales(Bvs(w.ls), Bvs(w.lm), scales);
    b := Q4(d, dmin, scales[..], qs[..]);
  }

  /** The weights of the reference search: av for the group plus the magnitude of the element. */
  function Weights4(x: seq<real>, av: seq<real>): (w: seq<real>)
    requires |x| == QK && |av| == 8 && NonNegative(av)
    ensures |w| == QK && NonNegative(w)
    ensures forall e :: 0 <= e < QK ==> w[e] - av[e / 32] == Abs(x[e])
  {
    seq(QK, e requires 0 <= e < QK => av[e / 32] + Magnitude(x[e]))
  }

  /** ds4q_write_q4_k_block_ref, given the root mean square of each group. */
  method WriteQ4Ref(x: seq<real>, av: seq<real>, half: real -> real) returns (b: Q4, w: Arrays, s: Searched)
    requires |x| == QK && |av| == 8 && NonNegative(av)
    ensures Written4(b, w) && s.Good(8, 32, 15)
    ensures AllFound(QuantSearch.Params(15, -1.0, 0.1, false), x, Weights4(x, av), 20, 8, 32, s)
    ensures w.ls == AllUnits(s.scales, 63) && w.lm == AllUnits(s.mins, 63)
    ensures w.codes == AllRecoded(x, s.codes, b.d, b.dmin, w.ls, w.lm, 32, 15)
    ensures b.d == half(Largest(s.scales, 8) / 63.0) && b.dmin == half(Largest(s.mins, 8) / 63.0)
  {
    hide AllRecoded, AllUnits, Largest, Q4Byte, ScaleBytes, Weights4;
    var p := QuantSearch.Params(15, -1.0, 0.1, false);
    Steps4(p);
    FewerSteps(p, 36, 20);
    s := SearchGroups(x, Weights4(x, av), 8, 32, p, 20, false);
    var maxScale := LargestOf(s.scales);
    var maxMin := LargestOf(s.mins);
    var ls := ScaleUnits(s.scales, maxScale, 63);
    var lm := ScaleUnits(s.mins, maxMin, 63);
    AllUnitsFit(s.scales, 63);
    AllUnitsFit(s.mins, 63);
    var d, dmin := half(maxScale / 63.0), half(maxMin / 63.0);
    var codes := Recode(x, s.codes, d, dmin, ls, lm, 32, 15);
    RecodedFit(x, s.codes, d, dmin, ls, lm, 32, 15);
    w := Arrays(codes, ls, lm);
    b := Pack4Block(w, d, dmin);
  }

  /** ds4q_write_q4_k_block_weighted, given the weights of the elements. */
  method WriteQ4Weighted(x: seq<real>, weight: seq<real>, half: real -> real)
    returns (b: Q4, w: Arrays, s: Searched, dBlock: real, mBlock: real)
    requires |x| == |weight| == QK && NonNegative(weight)
    ensures Written4(b, w) && s.Good(8, 32, 15)
    ensures AllFound(QuantSearch.Params(15, -0.9, 0.05, false), x, weight, 36, 8, 32, s)
    ensures w.codes == AllRecoded(x, s.codes, b.d, b.dmin, w.ls, w.lm, 32, 15)
    ensures b.d == half(dBlock) && Rated(s.scales, WeightSums(weight, 8, 32), 63, w.ls, dBlock)
    ensures b.dmin == half(mBlock) && Rated(s.mins, WeightSums(weight, 8, 32), 63, w.lm, mBlock)
  {
    hide AllRecoded, Q4Byte, ScaleBytes, WeightSums, Rated, AllFound;
    var p := QuantSearch.Params(15, -0.9, 0.05, false);
    Steps4(p);
    s := SearchGroups(x, weight, 8, 32, p, 36, true);
    var sw := WeightSums(weight, 8, 32);
    var ls, lm := new int[8], new int[8];
    dBlock := Rate(s.scales, sw, 63, ls);
    RatedFits(s.scales, sw, 63, ls[..], dBlock);
    mBlock := Rate(s.mins, sw, 63, lm);
    RatedFits(s.mins, sw, 63, lm[..], mBlock);
    var d, dmin := half(dBlock), half(mBlock);
    var codes := Recode(x, s.codes, d, dmin, ls[..], lm[..], 32, 15);
    RecodedFit(x, s.codes, d, dmin, ls[..], lm[..], 32, 15);
    w := Arrays(codes, ls[..], lm[..]);
    b := Pack4Block(w, d, dmin);
  }
}
