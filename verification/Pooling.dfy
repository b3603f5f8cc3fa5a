/**
 Softmax pooling of candidates, as the compressor kernels compute it (src/gpu/ds4_cuda_compressor.cuh:67-125).
 Scores are reals or minus infinity; the exponential is a parameter, so only which candidates are pooled matters.
 */
module Pooling {

  datatype Score = NegInf | Fin(v: real)

  datatype Cand = Cand(val: real, score: Score)

  /** fmaxf */
  function Max(a: Score, b: Score): Score {
    if a.NegInf? then b else if b.NegInf? then a else if b.v > a.v then b else a
  }

  function MaxScore(c: seq<Cand>): Score {
    if |c| == 0 then NegInf else Max(MaxScore(c[..|c| - 1]), c[|c| - 1].score)
  }

  /** expf(score - max): a score of minus infinity has no weight. */
  function Weight(exp: real -> real, s: Score, max: Score): real {
    if s.NegInf? || max.NegInf? then 0.0 else exp(s.v - max.v)
  }

  function Den(exp: real -> real, c: seq<Cand>, max: Score): real {
    if |c| == 0 then 0.0 else Den(exp, c[..|c| - 1], max) + Weight(exp, c[|c| - 1].score, max)
  }

  function Acc(exp: real -> real, c: seq<Cand>, max: Score): real {
    if |c| == 0 then 0.0 else Acc(exp, c[..|c| - 1], max) + c[|c| - 1].val * Weight(exp, c[|c| - 1].score, max)
  }

  /** The pooled value of a list of candidates. */
  function Pool(exp: real -> real, c: seq<Cand>): real {
    var den := Den(exp, c, MaxScore(c));
    if den != 0.0 then Acc(exp, c, MaxScore(c)) / den else 0.0
  }

  ghost predicate Silent(c: seq<Cand>) {
    forall i :: 0 <= i < |c| ==> c[i].score.NegInf?
  }

  lemma {:induction false} SilentSums(exp: real -> real, a: seq<Cand>, max: Score)
    requires Silent(a)
    ensures MaxScore(a) == NegInf && Den(exp, a, max) == 0.0 && Acc(exp, a, max) == 0.0
  {
    if |a| > 0 { SilentSums(exp, a[..|a| - 1], max); }
  }

  lemma {:induction false} SilentPrefixSums(exp: real -> real, a: seq<Cand>, b: seq<Cand>, max: Score)
    requires Silent(a)
    ensures MaxScore(a + b) == MaxScore(b)
    ensures Den(exp, a + b, max) == Den(exp, b, max) && Acc(exp, a + b, max) == Acc(exp, b, max)
  {
    if |b| == 0 {
      assert a + b == a;
      SilentSums(exp, a, max);
    } else {
      assert (a + b)[..|a + b| - 1] == a + b[..|b| - 1];
      SilentPrefixSums(exp, a, b[..|b| - 1], max);
    }
  }

  /** Candidates of zero weight in front change nothing. */
  lemma SilentPrefix(exp: real -> real, a: seq<Cand>, b: seq<Cand>)
    requires Silent(a)
    ensures Pool(exp, a + b) == Pool(exp, b)
  {
    SilentPrefixSums(exp, a, b, MaxScore(b));
  }

  // ---- the softmax law -----------------------------------------------------------------------------

  /** What the laws below need of the exponential. */
  ghost predicate IsExp(exp: real -> real) {
    (forall a :: exp(a) > 0.0) && forall a, b, c :: c == a + b ==> exp(c) == exp(a) * exp(b)
  }

  /** exp of a finite score, and nothing else. */
  function Heft(exp: real -> real, s: Score): real {
    match s case NegInf => 0.0 case Fin(v) => exp(v)
  }

  /** The sum of exp(score) over the candidates whose score is finite. */
  function Mass(exp: real -> real, c: seq<Cand>): real {
    if |c| == 0 then 0.0 else Mass(exp, c[..|c| - 1]) + Heft(exp, c[|c| - 1].score)
  }

  /** The sum of value * exp(score) over them. */
  function Moment(exp: real -> real, c: seq<Cand>): real {
    if |c| == 0 then 0.0 else Moment(exp, c[..|c| - 1]) + c[|c| - 1].val * Heft(exp, c[|c| - 1].score)
  }

  /** r is the mean of the values, weighted with the exponentials of their finite scores; zero when there is none. */
  ghost predicate Softmax(exp: real -> real, c: seq<Cand>, r: real) {
    if exists i :: 0 <= i < |c| && c[i].score.Fin? then
      Mass(exp, c) > 0.0 && r * Mass(exp, c) == Moment(exp, c)
    else
      r == 0.0
  }

  lemma ShiftedExp(exp: real -> real, s: real, max: real)
    requires IsExp(exp)
    ensures exp(s - max) * exp(max) == exp(s) && exp(s) > 0.0 && exp(max) > 0.0
  {
    assert s == (s - max) + max;
  }

  lemma ShiftedStep(val: real, w: real, top: real, e: real, den: real, acc: real, mass: real, moment: real)
    requires w * top == e && den * top == mass && acc * top == moment
    ensures (den + w) * top == mass + e && (acc + val * w) * top == moment + val * e
  {
    assert val * w * top == val * e;
  }

  lemma WeightShifted(exp: real -> real, s: Score, max: real)
    requires IsExp(exp)
    ensures Weight(exp, s, Fin(max)) * exp(max) == Heft(exp, s)
  {
    hide IsExp;
    if s.Fin? { ShiftedExp(exp, s.v, max); }
  }

  lemma NoSums(exp: real -> real, c: seq<Cand>, max: real)
    requires c == []
    ensures Den(exp, c, Fin(max)) == Acc(exp, c, Fin(max)) == Mass(exp, c) == Moment(exp, c) == 0.0
  {
  }

  lemma SumsBehind(exp: real -> real, c: seq<Cand>, max: real)
    requires |c| > 0
    ensures var b, x := c[..|c| - 1], c[|c| - 1];
      && Den(exp, c, Fin(max)) == Den(exp, b, Fin(max)) + Weight(exp, x.score, Fin(max))
      && Acc(exp, c, Fin(max)) == Acc(exp, b, Fin(max)) + x.val * Weight(exp, x.score, Fin(max))
      && Mass(exp, c) == Mass(exp, b) + Heft(exp, x.score)
      && Moment(exp, c) == Moment(exp, b) + x.val * Heft(exp, x.score)
  {
    hide Weight;
  }

  /** The weights are the exponentials of the scores up to the common factor exp(max). */
  lemma {:induction false} ShiftedSums(exp: real -> real, c: seq<Cand>, max: real)
    requires IsExp(exp)
    ensures Den(exp, c, Fin(max)) * exp(max) == Mass(exp, c) && Acc(exp, c, Fin(max)) * exp(max) == Moment(exp, c)
  {
    hide *;
    if |c| == 0 {
      NoSums(exp, c, max);
    } else {
      var b, x := c[..|c| - 1], c[|c| - 1];
      ShiftedSums(exp, b, max);
      SumsBehind(exp, c, max);
      WeightShifted(exp, x.score, max);
      ShiftedStep(x.val, Weight(exp, x.score, Fin(max)), exp(max), Heft(exp, x.score),
                  Den(exp, b, Fin(max)), Acc(exp, b, Fin(max)), Mass(exp, b), Moment(exp, b));
    }
  }

  lemma {:induction false} MassSign(exp: real -> real, c: seq<Cand>)
    requires IsExp(exp)
    ensures Mass(exp, c) >= 0.0
    ensures Mass(exp, c) > 0.0 <==> exists i :: 0 <= i < |c| && c[i].score.Fin?
  {
    if |c| == 0 {
    } else {
      var b := c[..|c| - 1];
      MassSign(exp, b);
      if i :| 0 <= i < |b| && b[i].score.Fin? { assert c[i].score.Fin?; }
      if c[|c| - 1].score.NegInf? && Mass(exp, b) == 0.0 {
        forall i | 0 <= i < |c|
          ensures c[i].score.NegInf?
        {
          if i < |b| { assert b[i] == c[i]; }
        }
      }
    }
  }

  lemma {:induction false} MaxIsFinite(c: seq<Cand>)
    ensures MaxScore(c).Fin? <==> exists i :: 0 <= i < |c| && c[i].score.Fin?
  {
    if |c| == 0 {
    } else {
      var b := c[..|c| - 1];
      MaxIsFinite(b);
      if i :| 0 <= i < |b| && b[i].score.Fin? { assert c[i].score.Fin?; }
      if c[|c| - 1].score.NegInf? && MaxScore(b).NegInf? {
        forall i | 0 <= i < |c|
          ensures c[i].score.NegInf?
        {
          if i < |b| { assert b[i] == c[i]; }
        }
      }
    }
  }

  lemma MeanOf(den: real, acc: real, top: real, mass: real, moment: real)
    requires den * top == mass && acc * top == moment && mass > 0.0
    ensures den != 0.0 && acc / den * mass == moment
  {
    var r := acc / den;
    assert r * den == acc;
    assert r * (den * top) == (r * den) * top;
  }

  /** The pooled value is the softmax mean of the candidates, whatever is subtracted from the scores on the way. */
  lemma PoolIsSoftmax(exp: real -> real, c: seq<Cand>)
    requires IsExp(exp)
    ensures Softmax(exp, c, Pool(exp, c))
  {
    hide IsExp, Mass, Moment, Den, Acc, MaxScore;
    MassSign(exp, c);
    MaxIsFinite(c);
    match MaxScore(c)
    case NegInf =>
      assert Silent(c);
      SilentSums(exp, c, NegInf);
    case Fin(max) =>
      ShiftedSums(exp, c, max);
      MeanOf(Den(exp, c, Fin(max)), Acc(exp, c, Fin(max)), exp(max), Mass(exp, c), Moment(exp, c));
  }

  /** Values and scores side by side. */
  function Cands(vals: seq<real>, scores: seq<Score>): (c: seq<Cand>)
    requires |vals| == |scores|
    ensures |c| == |vals| && forall i :: 0 <= i < |c| ==> c[i] == Cand(vals[i], scores[i])
  {
    seq(|vals|, i requires 0 <= i < |vals| => Cand(vals[i], scores[i]))
  }

  lemma SumsGrow(exp: real -> real, c: seq<Cand>, x: Cand, max: Score)
    ensures MaxScore(c + [x]) == Max(MaxScore(c), x.score)
    ensures Den(exp, c + [x], max) == Den(exp, c, max) + Weight(exp, x.score, max)
    ensures Acc(exp, c + [x], max) == Acc(exp, c, max) + x.val * Weight(exp, x.score, max)
  {
    hide *;
    var s := c + [x];
    assert s[..|s| - 1] == c && s[|s| - 1] == x;
    MaxUnfold(s);
    DenUnfold(exp, s, max);
    AccUnfold(exp, s, max);
  }

  lemma MaxUnfold(s: seq<Cand>)
    requires |s| > 0
    ensures MaxScore(s) == Max(MaxScore(s[..|s| - 1]), s[|s| - 1].score)
  {
    hide Max;
  }

  lemma DenUnfold(exp: real -> real, s: seq<Cand>, max: Score)
    requires |s| > 0
    ensures Den(exp, s, max) == Den(exp, s[..|s| - 1], max) + Weight(exp, s[|s| - 1].score, max)
  {
    hide Weight;
  }

  lemma AccUnfold(exp: real -> real, s: seq<Cand>, max: Score)
    requires |s| > 0
    ensures Acc(exp, s, max) == Acc(exp, s[..|s| - 1], max) + s[|s| - 1].val * Weight(exp, s[|s| - 1].score, max)
  {
    hide Weight;
  }

  lemma PoolIs(exp: real -> real, c: seq<Cand>, den: real, acc: real)
    requires den == Den(exp, c, MaxScore(c)) && acc == Acc(exp, c, MaxScore(c))
    ensures Pool(exp, c) == if den != 0.0 then acc / den else 0.0
  {
    hide Den, Acc;
  }

  /** The last part of every pooling kernel: weigh, sum and divide. */
  method PoolCandidates(exp: real -> real, vals: array<real>, scores: array<Score>, n: nat, max: Score)
    returns (r: real)
    requires n <= vals.Length && n <= scores.Length && max == MaxScore(Cands(vals[..n], scores[..n]))
    ensures r == Pool(exp, Cands(vals[..n], scores[..n]))
    ensures IsExp(exp) ==> Softmax(exp, Cands(vals[..n], scores[..n]), r)
  {
    ghost var all := Cands(vals[..n], scores[..n]);
    assert forall k :: 0 <= k < n ==> all[k] == Cand(vals[..n][k], scores[..n][k]);
    PoolIs(exp, all, Den(exp, all, max), Acc(exp, all, max));
    assert all[..0] == [] && Den(exp, [], max) == 0.0 && Acc(exp, [], max) == 0.0;
    assert all[..n] == all;
    hide Cands, Weight, Den, Acc, MaxScore, Max, Pool, IsExp, Softmax;
    var den, acc := 0.0, 0.0;
    var i := 0;
    while i < n
      invariant 0 <= i <= n
      invariant den == Den(exp, all[..i], max) && acc == Acc(exp, all[..i], max)
    {
      var w := Weight(exp, scores[i], max);
      den := den + w;
      acc := acc + vals[i] * w;
      SumsAfter(exp, all, i, max, vals[i], scores[i], w, den, acc);
      i := i + 1;
    }
    r := if den != 0.0 then acc / den else 0.0;
    if IsExp(exp) { PoolIsSoftmax(exp, all); }
  }

  /** The sums with one more candidate. */
  lemma SumsAfter(exp: real -> real, all: seq<Cand>, i: nat, max: Score, val: real, score: Score, w: real, den: real,
                  acc: real)
    requires i < |all| && all[i] == Cand(val, score) && w == Weight(exp, score, max)
    requires den == Den(exp, all[..i], max) + w && acc == Acc(exp, all[..i], max) + val * w
    ensures den == Den(exp, all[..i + 1], max) && acc == Acc(exp, all[..i + 1], max)
  {
    assert all[..i + 1] == all[..i] + [all[i]];
    SumsGrow(exp, all[..i], all[i], max);
    hide Den, Acc, Weight, MaxScore;
  }
}
