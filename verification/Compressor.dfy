/**
 The KV compressor (src/gpu/ds4_cuda_compressor.cuh:6-177): windows of `ratio` tokens are pooled into one row each,
 with ratio 4 overlapping the previous window. Token by token, the state is stored, pooled at each window boundary and
 shifted; in batch, the rows are pooled straight from the tokens. The order of the launches is that of
 src/gpu/ds4_cuda_dispatch2.cuh:217-298, 299-410 and 411-493.
 */
module Compressor {
  import opened Pooling

  datatype Shape = Shape(headDim: nat, ratio: nat) {
    predicate Valid() { headDim > 0 && 0 < ratio <= 128 }

    function Coff(): nat { if ratio == 4 then 2 else 1 }

    function Width(): nat { Coff() * headDim }

    function Rows(): nat { Coff() * ratio }
  }

  /** Element j of row r in a row-major buffer. */
  function Ix(w: nat, r: nat, j: nat): nat { r * w + j }

  lemma IxFields(w: nat, r: nat, j: nat, rows: nat)
    requires j < w && r < rows
    ensures Ix(w, r, j) < rows * w && Ix(w, r, j) / w == r && Ix(w, r, j) % w == j
  {
    Bound(r, rows, w);
    Quotient(r, w, j);
  }

  lemma Bound(r: nat, rows: nat, w: nat)
    requires r < rows
    ensures r * w + w <= rows * w
  {
    assert rows * w == r * w + (rows - r) * w;
    AtLeast(rows - r, w);
  }

  lemma AtLeast(k: nat, w: nat)
    requires k >= 1
    ensures k * w >= w
  {
  }

  lemma RowsApart(a: nat, b: nat, w: nat)
    requires a < b
    ensures a * w + w <= b * w
  {
    AtLeast(b - a, w);
    assert b * w == a * w + (b - a) * w;
  }

  lemma Quotient(r: nat, w: nat, j: nat)
    requires j < w
    ensures (r * w + j) / w == r && (r * w + j) % w == j
  {
    var n := r * w + j;
    var q := n / w;
    assert n == q * w + n % w;
    if q < r { RowsApart(q, r, w); }
    if q > r { RowsApart(r, q, w); }
  }

  /** Projected tokens and the positional scores of the window, with the position of the first token. */
  datatype Input = Input(kv: seq<real>, sc: seq<real>, ape: seq<real>, pos0: nat, n: nat) {
    ghost predicate Valid(sh: Shape) {
      sh.Valid() && |kv| == |sc| == n * sh.Width() && |ape| == sh.ratio * sh.Width()
    }

    function K(w: nat, t: nat, j: nat): real
      requires Ix(w, t, j) < |kv|
    {
      kv[Ix(w, t, j)]
    }

    /** The score of a token with the positional term of its place in the window. */
    function S(w: nat, ratio: nat, t: nat, j: nat): Score
      requires ratio > 0 && Ix(w, t, j) < |sc| && Ix(w, (pos0 + t) % ratio, j) < |ape|
    {
      Fin(sc[Ix(w, t, j)] + ape[Ix(w, (pos0 + t) % ratio, j)])
    }
  }

  /** A candidate taken from token t. */
  ghost function TokenCand(sh: Shape, x: Input, t: nat, j: nat): Cand
    requires x.Valid(sh) && t < x.n && j < sh.Width()
  {
    InputInside(sh, x, t, j);
    Cand(x.K(sh.Width(), t, j), x.S(sh.Width(), sh.ratio, t, j))
  }

  lemma InputInside(sh: Shape, x: Input, t: nat, j: nat)
    requires x.Valid(sh) && t < x.n && j < sh.Width()
    ensures Ix(sh.Width(), t, j) < |x.kv| && Ix(sh.Width(), (x.pos0 + t) % sh.ratio, j) < |x.ape|
  {
    IxFields(sh.Width(), t, j, x.n);
    IxFields(sh.Width(), (x.pos0 + t) % sh.ratio, j, sh.ratio);
  }

  /** The rolling state: `Rows` rows of values and scores. */
  datatype State = State(kv: seq<real>, sc: seq<Score>) {
    ghost predicate Valid(sh: Shape) {
      sh.Valid() && |kv| == |sc| == sh.Rows() * sh.Width()
    }
  }

  ghost function StateCand(sh: Shape, st: State, r: nat, j: nat): Cand
    requires st.Valid(sh) && r < sh.Rows() && j < sh.Width()
  {
    IxFields(sh.Width(), r, j, sh.Rows());
    Cand(st.kv[Ix(sh.Width(), r, j)], st.sc[Ix(sh.Width(), r, j)])
  }

  // ---- the kernels as functions of the state ---------------------------------------------------

  /** The row that a token at position pos is stored in. */
  function StoreRow(sh: Shape, pos: nat): nat
    requires sh.Valid()
  {
    if sh.ratio == 4 then sh.ratio + pos % sh.ratio else pos % sh.ratio
  }

  ghost function TokenValues(sh: Shape, x: Input, t: nat): (r: seq<real>)
    requires x.Valid(sh) && t < x.n
    ensures |r| == sh.Width() && forall j :: 0 <= j < |r| ==> r[j] == TokenCand(sh, x, t, j).val
  {
    seq(sh.Width(), j requires 0 <= j < sh.Width() => TokenCand(sh, x, t, j).val)
  }

  ghost function TokenScores(sh: Shape, x: Input, t: nat): (r: seq<Score>)
    requires x.Valid(sh) && t < x.n
    ensures |r| == sh.Width() && forall j :: 0 <= j < |r| ==> r[j] == TokenCand(sh, x, t, j).score
  {
    seq(sh.Width(), j requires 0 <= j < sh.Width() => TokenCand(sh, x, t, j).score)
  }

  /** Replaces row dst by token t. */
  ghost function SetRow(sh: Shape, st: State, x: Input, t: nat, dst: nat): (r: State)
    requires st.Valid(sh) && x.Valid(sh) && t < x.n && dst < sh.Rows()
    ensures r.Valid(sh)
  {
    var w, base := sh.Width(), dst * sh.Width();
    Bound(dst, sh.Rows(), w);
    State(st.kv[..base] + TokenValues(sh, x, t) + st.kv[base + w..],
          st.sc[..base] + TokenScores(sh, x, t) + st.sc[base + w..])
  }

  lemma SetRowAt(sh: Shape, st: State, x: Input, t: nat, dst: nat, r: nat, j: nat)
    requires st.Valid(sh) && x.Valid(sh) && t < x.n && dst < sh.Rows() && r < sh.Rows() && j < sh.Width()
    ensures StateCand(sh, SetRow(sh, st, x, t, dst), r, j)
         == if r == dst then TokenCand(sh, x, t, j) else StateCand(sh, st, r, j)
  {
    var w := sh.Width();
    IxFields(w, r, j, sh.Rows());
    Bound(dst, sh.Rows(), w);
    if r < dst { RowsApart(r, dst, w); }
    if dst < r { RowsApart(dst, r, w); }
    var base, k := dst * w, Ix(w, r, j);
    assert base <= k < base + w <==> r == dst;
    assert r == dst ==> k - base == j;
    Replaced(st.kv, TokenValues(sh, x, t), base, k);
    Replaced(st.sc, TokenScores(sh, x, t), base, k);
    assert SetRow(sh, st, x, t, dst) == State(st.kv[..base] + TokenValues(sh, x, t) + st.kv[base + w..],
                                              st.sc[..base] + TokenScores(sh, x, t) + st.sc[base + w..]);
    hide TokenCand, TokenValues, TokenScores, SetRow, Ix, Shape.Width, Shape.Rows;
  }

  lemma Replaced<T>(a: seq<T>, row: seq<T>, base: nat, k: nat)
    requires base + |row| <= |a| && k < |a|
    ensures (a[..base] + row + a[base + |row|..])[k] == if base <= k < base + |row| then row[k - base] else a[k]
  {
  }

  /** Ratio 4: the current window becomes the previous one. */
  ghost function Shift(sh: Shape, st: State): (r: State)
    requires st.Valid(sh) && sh.ratio == 4
    ensures r.Valid(sh)
  {
    var half := 4 * sh.Width();
    State(st.kv[half..] + st.kv[half..], st.sc[half..] + st.sc[half..])
  }

  lemma ShiftIndex(w: nat, r: nat, j: nat) returns (k: nat)
    requires j < w && r < 8
    ensures k < 4 * w && Ix(w, r, j) == (if r < 4 then k else 4 * w + k)
    ensures Ix(w, if r < 4 then r + 4 else r, j) == 4 * w + k
  {
    var q := if r < 4 then r else r - 4;
    IxFields(w, q, j, 4);
    k := Ix(w, q, j);
    assert (q + 4) * w == q * w + 4 * w;
  }

  lemma ShiftAt(sh: Shape, st: State, r: nat, j: nat)
    requires st.Valid(sh) && sh.ratio == 4 && r < 8 && j < sh.Width()
    ensures StateCand(sh, Shift(sh, st), r, j) == StateCand(sh, st, if r < 4 then r + 4 else r, j)
  {
    assert sh.Rows() == 8 && |st.kv| == |st.sc| == 8 * sh.Width();
    hide Ix, Shape.Width, Shape.Rows;
    var k := ShiftIndex(sh.Width(), r, j);
    Doubled(st.kv, 4 * sh.Width(), k);
    Doubled(st.sc, 4 * sh.Width(), k);
  }

  lemma Doubled<T>(a: seq<T>, half: nat, k: nat)
    requires |a| == 2 * half && k < half
    ensures (a[half..] + a[half..])[k] == a[half + k] && (a[half..] + a[half..])[half + k] == a[half + k]
  {
  }

  /** Whether the token at position pos completes a window. */
  predicate Emits(sh: Shape, pos: nat)
    requires sh.Valid()
  {
    (pos + 1) % sh.ratio == 0
  }

  /** One decode step for token t: store, and shift after a completed window. */
  ghost function DecodeStep(sh: Shape, st: State, x: Input, t: nat): (r: State)
    requires st.Valid(sh) && x.Valid(sh) && t < x.n
    ensures r.Valid(sh)
  {
    var stored := SetRow(sh, st, x, t, StoreRow(sh, x.pos0 + t));
    if Emits(sh, x.pos0 + t) && sh.ratio == 4 then Shift(sh, stored) else stored
  }

  /** The candidates pooled from the state for column d. */
  ghost function StateCands(sh: Shape, st: State, d: nat): (c: seq<Cand>)
    requires st.Valid(sh) && d < sh.headDim
    ensures |c| == sh.Rows()
  {
    if sh.ratio == 4 then
      seq(4, r requires 0 <= r < 4 => StateCand(sh, st, r, d))
      + seq(4, r requires 0 <= r < 4 => StateCand(sh, st, 4 + r, sh.headDim + d))
    else
      seq(sh.ratio, r requires 0 <= r < sh.ratio => StateCand(sh, st, r, d))
  }

  /** The candidates of window c, from column j on. */
  ghost function WindowCands(sh: Shape, x: Input, c: nat, j: nat): (w: seq<Cand>)
    requires x.Valid(sh) && Ix(sh.ratio, c, sh.ratio - 1) < x.n && j < sh.Width()
    ensures |w| == sh.ratio
  {
    seq(sh.ratio, r requires 0 <= r < sh.ratio => TokenCand(sh, x, Ix(sh.ratio, c, r), j))
  }

  /** The candidates the batch kernel pools for row c, column d; a replay takes the previous window from the state. */
  ghost function BatchCands(sh: Shape, x: Input, c: nat, d: nat, replay: bool, st: State): seq<Cand>
    requires x.Valid(sh) && st.Valid(sh) && Ix(sh.ratio, c, sh.ratio - 1) < x.n && d < sh.headDim
  {
    if sh.ratio == 4 then
      (if replay && c == 0 then seq(4, r requires 0 <= r < 4 => StateCand(sh, st, r, d))
       else if c > 0 then WindowCands(sh, x, c - 1, d)
       else [])
      + WindowCands(sh, x, c, sh.headDim + d)
    else
      WindowCands(sh, x, c, d)
  }

  // ---- the rolling state follows the tokens --------------------------------------------------------

  /** Ratio 4: what row r of the previous window is after c windows. */
  ghost function Previous(sh: Shape, x: Input, c: nat, init: State, r: nat, j: nat): Cand
    requires x.Valid(sh) && init.Valid(sh) && sh.ratio == 4 && Ix(4, c, 0) <= x.n && r < 4 && j < sh.Width()
  {
    if c == 0 then StateCand(sh, init, r, j) else TokenCand(sh, x, Ix(4, c - 1, r), j)
  }

  /** Whether row r, column j of the state is what it must be after c whole windows and m more tokens. */
  ghost predicate Right(sh: Shape, x: Input, st: State, c: nat, m: nat, init: State, r: nat, j: nat)
    requires x.Valid(sh) && st.Valid(sh) && init.Valid(sh) && m < sh.ratio && Ix(sh.ratio, c, m) <= x.n
    requires r < sh.Rows() && j < sh.Width()
  {
    if sh.ratio == 4 then
      if r < 4 then StateCand(sh, st, r, j) == Previous(sh, x, c, init, r, j)
      else r < 4 + m ==> StateCand(sh, st, r, j) == TokenCand(sh, x, Ix(4, c, r - 4), j)
    else
      r < m ==> StateCand(sh, st, r, j) == TokenCand(sh, x, Ix(sh.ratio, c, r), j)
  }

  /**
   What the state holds after c whole windows and m more tokens: the tokens of the open window and, for ratio 4, the
   previous window (at first, whatever the state began with). Other rows are written before they are read.
   */
  ghost predicate Follows(sh: Shape, x: Input, st: State, c: nat, m: nat, init: State) {
    && x.Valid(sh) && st.Valid(sh) && init.Valid(sh) && m < sh.ratio && Ix(sh.ratio, c, m) <= x.n
    && forall r, j :: 0 <= r < sh.Rows() && 0 <= j < sh.Width() ==> Right(sh, x, st, c, m, init, r, j)
  }

  lemma Phase(pos0: nat, c: nat, m: nat, ratio: nat)
    requires ratio > 0 && pos0 % ratio == 0 && m < ratio
    ensures (pos0 + Ix(ratio, c, m)) % ratio == m
    ensures (pos0 + Ix(ratio, c, m) + 1) % ratio == 0 <==> m == ratio - 1
  {
    var q := pos0 / ratio;
    assert pos0 == q * ratio;
    Quotient(q + c, ratio, m);
    assert pos0 + Ix(ratio, c, m) == (q + c) * ratio + m;
    if m == ratio - 1 {
      Quotient(q + c + 1, ratio, 0);
      assert pos0 + Ix(ratio, c, m) + 1 == (q + c + 1) * ratio;
    } else {
      Quotient(q + c, ratio, m + 1);
    }
  }

  /** The state right after token t was stored, when the pooling kernel reads it. */
  ghost function Stored(sh: Shape, st: State, x: Input, t: nat): (r: State)
    requires st.Valid(sh) && x.Valid(sh) && t < x.n
    ensures r.Valid(sh)
  {
    SetRow(sh, st, x, t, StoreRow(sh, x.pos0 + t))
  }

  lemma StoredAt(sh: Shape, x: Input, st: State, c: nat, m: nat, r: nat, j: nat)
    requires x.Valid(sh) && st.Valid(sh) && m < sh.ratio && Ix(sh.ratio, c, m) < x.n && x.pos0 % sh.ratio == 0
    requires r < sh.Rows() && j < sh.Width()
    ensures StateCand(sh, Stored(sh, st, x, Ix(sh.ratio, c, m)), r, j)
         == if r == (if sh.ratio == 4 then 4 + m else m) then TokenCand(sh, x, Ix(sh.ratio, c, m), j)
            else StateCand(sh, st, r, j)
  {
    hide SetRow, StateCand, TokenCand;
    Phase(x.pos0, c, m, sh.ratio);
    SetRowAt(sh, st, x, Ix(sh.ratio, c, m), StoreRow(sh, x.pos0 + (Ix(sh.ratio, c, m))), r, j);
  }

  /** Storing one more token of an open window. */
  lemma StepInside(sh: Shape, x: Input, st: State, c: nat, m: nat, init: State)
    requires Follows(sh, x, st, c, m, init) && x.pos0 % sh.ratio == 0 && m + 1 < sh.ratio && Ix(sh.ratio, c, m) < x.n
    ensures Follows(sh, x, DecodeStep(sh, st, x, Ix(sh.ratio, c, m)), c, m + 1, init)
  {
    hide SetRow, StateCand, TokenCand, Shift, Previous;
    var t := Ix(sh.ratio, c, m);
    var next, m1 := DecodeStep(sh, st, x, t), m + 1;
    Phase(x.pos0, c, m, sh.ratio);
    forall r, j | 0 <= r < sh.Rows() && 0 <= j < sh.Width()
      ensures Right(sh, x, next, c, m1, init, r, j)
    {
      assert Right(sh, x, st, c, m, init, r, j);
      StoredAt(sh, x, st, c, m, r, j);
    }
  }

  /** Storing the last token of a window closes it. */
  lemma StepOver(sh: Shape, x: Input, st: State, c: nat, m: nat, init: State)
    requires Follows(sh, x, st, c, m, init) && x.pos0 % sh.ratio == 0 && m + 1 == sh.ratio && Ix(sh.ratio, c, m) < x.n
    ensures Ix(sh.ratio, c + 1, 0) <= x.n
    ensures Follows(sh, x, DecodeStep(sh, st, x, Ix(sh.ratio, c, m)), c + 1, 0, init)
  {
    hide SetRow, StateCand, TokenCand, Shift, Ix;
    var t := Ix(sh.ratio, c, m);
    var next, c1 := DecodeStep(sh, st, x, t), c + 1;
    Phase(x.pos0, c, m, sh.ratio);
    Next(c, m, sh.ratio);
    forall r, j | 0 <= r < sh.Rows() && 0 <= j < sh.Width()
      ensures Right(sh, x, next, c1, 0, init, r, j)
    {
      if sh.ratio == 4 && r < 4 {
        assert Right(sh, x, st, c, m, init, r + 4, j);
        StoredAt(sh, x, st, c, m, r + 4, j);
        ShiftAt(sh, Stored(sh, st, x, t), r, j);
      }
    }
  }

  lemma StoredRight(sh: Shape, x: Input, st: State, c: nat, m: nat, init: State, r: nat, j: nat)
    requires Follows(sh, x, st, c, m, init) && x.pos0 % sh.ratio == 0 && m + 1 == sh.ratio
    requires r < sh.Rows() && j < sh.Width() && Ix(sh.ratio, c, m) < x.n
    ensures StateCand(sh, Stored(sh, st, x, Ix(sh.ratio, c, m)), r, j)
         == if sh.ratio == 4 then
              if r < 4 then Previous(sh, x, c, init, r, j) else TokenCand(sh, x, Ix(4, c, r - 4), j)
            else TokenCand(sh, x, Ix(sh.ratio, c, r), j)
  {
    hide SetRow, StateCand, TokenCand, Ix, Stored, Previous;
    assert Right(sh, x, st, c, m, init, r, j);
    StoredAt(sh, x, st, c, m, r, j);
  }

  /** At a window boundary the state pools the same candidates as row c of the batch. */
  lemma BoundaryCands(sh: Shape, x: Input, st: State, c: nat, m: nat, init: State, d: nat)
    requires Follows(sh, x, st, c, m, init) && x.pos0 % sh.ratio == 0 && m + 1 == sh.ratio
    requires d < sh.headDim && Ix(sh.ratio, c, m) < x.n
    ensures StateCands(sh, Stored(sh, st, x, Ix(sh.ratio, c, m)), d) == BatchCands(sh, x, c, d, true, init)
  {
    hide SetRow, StateCand, TokenCand, Stored;
    var stored := Stored(sh, st, x, Ix(sh.ratio, c, m));
    if sh.ratio == 4 {
      forall r | 0 <= r < 4
        ensures StateCand(sh, stored, r, d) == Previous(sh, x, c, init, r, d)
        ensures StateCand(sh, stored, 4 + r, sh.headDim + d) == TokenCand(sh, x, Ix(4, c, r), sh.headDim + d)
      {
        StoredRight(sh, x, st, c, m, init, r, d);
        StoredRight(sh, x, st, c, m, init, 4 + r, sh.headDim + d);
      }
      var pooled, batch := StateCands(sh, stored, d), BatchCands(sh, x, c, d, true, init);
      assert |batch| == 8;
      assert forall r :: 0 <= r < 4 ==> pooled[r] == batch[r];
      assert forall r :: 4 <= r < 8 ==> pooled[r] == TokenCand(sh, x, Ix(4, c, r - 4), sh.headDim + d) == batch[r];
    } else {
      forall r | 0 <= r < sh.ratio
        ensures StateCand(sh, stored, r, d) == TokenCand(sh, x, Ix(sh.ratio, c, r), d)
      {
        StoredRight(sh, x, st, c, m, init, r, d);
      }
    }
  }

  // ---- decoding from any point -----------------------------------------------------------------------

  /** The state after decoding tokens a..b one at a time. */
  ghost function Decode(sh: Shape, st: State, x: Input, a: nat, b: nat): (r: State)
    requires st.Valid(sh) && x.Valid(sh) && a <= b <= x.n
    ensures r.Valid(sh)
    decreases b
  {
    if a == b then st else DecodeStep(sh, Decode(sh, st, x, a, b - 1), x, b - 1)
  }

  /** The state follows the first t tokens. */
  ghost predicate FollowsTo(sh: Shape, x: Input, st: State, t: nat, init: State)
    requires sh.Valid()
  {
    Follows(sh, x, st, t / sh.ratio, t % sh.ratio, init)
  }

  lemma Fields(t: nat, ratio: nat, c: nat, m: nat)
    requires ratio > 0 && c == t / ratio && m == t % ratio
    ensures t == Ix(ratio, c, m) && m < ratio
  {
  }

  lemma Split(t: nat, ratio: nat) returns (c: nat, m: nat)
    requires ratio > 0
    ensures t == Ix(ratio, c, m) && m < ratio
  {
    c, m := t / ratio, t % ratio;
    Fields(t, ratio, c, m);
  }

  lemma Next(c: nat, m: nat, ratio: nat)
    ensures Ix(ratio, c, m) + 1 == Ix(ratio, c, m + 1)
    ensures Ix(ratio, c, ratio) == Ix(ratio, c + 1, 0)
    ensures ratio > 0 ==> Ix(ratio, c, ratio - 1) + 1 == Ix(ratio, c + 1, 0)
  {
  }

  lemma FollowsParts(sh: Shape, x: Input, st: State, t: nat, init: State, c: nat, m: nat)
    requires sh.Valid() && m < sh.ratio && t == Ix(sh.ratio, c, m)
    ensures FollowsTo(sh, x, st, t, init) <==> Follows(sh, x, st, c, m, init)
  {
    Quotient(c, sh.ratio, m);
  }

  lemma DecodeStepFollows(sh: Shape, x: Input, st: State, t: nat, init: State)
    requires sh.Valid() && x.pos0 % sh.ratio == 0 && x.Valid(sh) && st.Valid(sh) && t < x.n
    requires FollowsTo(sh, x, st, t, init)
    ensures FollowsTo(sh, x, DecodeStep(sh, st, x, t), t + 1, init)
  {
    hide Follows, FollowsTo, DecodeStep;
    var c, m := Split(t, sh.ratio);
    FollowsParts(sh, x, st, t, init, c, m);
    hide Ix;
    var next := DecodeStep(sh, st, x, t);
    if m + 1 < sh.ratio {
      StepInside(sh, x, st, c, m, init);
      FollowsParts(sh, x, next, t + 1, init, c, m + 1);
    } else {
      Next(c, m, sh.ratio);
      StepOver(sh, x, st, c, m, init);
      FollowsParts(sh, x, next, t + 1, init, c + 1, 0);
    }
  }

  /** Decoding keeps following the tokens. */
  lemma {:induction false} DecodeFollows(sh: Shape, x: Input, st: State, a: nat, init: State, b: nat)
    requires sh.Valid() && x.pos0 % sh.ratio == 0 && x.Valid(sh) && st.Valid(sh) && a <= b <= x.n
    requires FollowsTo(sh, x, st, a, init)
    ensures FollowsTo(sh, x, Decode(sh, st, x, a, b), b, init)
    decreases b
  {
    hide FollowsTo, DecodeStep;
    if a < b {
      DecodeFollows(sh, x, st, a, init, b - 1);
      DecodeStepFollows(sh, x, Decode(sh, st, x, a, b - 1), b - 1, init);
    }
  }

  /**
   Decoding from any state that follows the first a tokens, every window completed later is pooled from exactly the
   candidates of its batch row.
   */
  lemma DecodeMatchesBatch(sh: Shape, x: Input, st: State, a: nat, init: State, c: nat, d: nat)
    requires sh.Valid() && x.pos0 % sh.ratio == 0 && x.Valid(sh) && st.Valid(sh) && init.Valid(sh)
    requires a <= Ix(sh.ratio, c, sh.ratio - 1) < x.n && d < sh.headDim && FollowsTo(sh, x, st, a, init)
    ensures var last := Ix(sh.ratio, c, sh.ratio - 1);
      StateCands(sh, Stored(sh, Decode(sh, st, x, a, last), x, last), d)
         == BatchCands(sh, x, c, d, true, init)
  {
    hide Follows, FollowsTo, Decode, StateCands, BatchCands, Stored;
    var m := sh.ratio - 1;
    var t := Ix(sh.ratio, c, sh.ratio - 1);
    Next(c, m, sh.ratio);
    DecodeFollows(sh, x, st, a, init, t);
    FollowsParts(sh, x, Decode(sh, st, x, a, t), t, init, c, m);
    BoundaryCands(sh, x, Decode(sh, st, x, a, t), c, m, init, d);
  }

  // ---- batch prefill ----------------------------------------------------------------------------------

  /** The cleared state: zero values, scores of minus infinity. */
  function Quiet(sh: Shape): State {
    State(seq(sh.Rows() * sh.Width(), _ => 0.0), seq(sh.Rows() * sh.Width(), _ => NegInf))
  }

  /** Copies tokens src0.. into rows dst0... */
  ghost function SetRows(sh: Shape, st: State, x: Input, src0: nat, dst0: nat, rows: nat): (r: State)
    requires st.Valid(sh) && x.Valid(sh) && src0 + rows <= x.n && dst0 + rows <= sh.Rows()
    ensures r.Valid(sh)
  {
    if rows == 0 then st else
    SetRow(sh, SetRows(sh, st, x, src0, dst0, rows - 1), x, src0 + rows - 1, dst0 + rows - 1)
  }

  lemma {:induction false} SetRowsAt(sh: Shape, st: State, x: Input, src0: nat, dst0: nat, rows: nat, r: nat, j: nat)
    requires st.Valid(sh) && x.Valid(sh) && src0 + rows <= x.n && dst0 + rows <= sh.Rows()
    requires r < sh.Rows() && j < sh.Width()
    ensures StateCand(sh, SetRows(sh, st, x, src0, dst0, rows), r, j)
         == if dst0 <= r < dst0 + rows then TokenCand(sh, x, src0 + (r - dst0), j) else StateCand(sh, st, r, j)
  {
    hide StateCand, TokenCand, SetRow;
    if rows > 0 {
      SetRowsAt(sh, st, x, src0, dst0, rows - 1, r, j);
      SetRowAt(sh, SetRows(sh, st, x, src0, dst0, rows - 1), x, src0 + rows - 1, dst0 + rows - 1, r, j);
    }
  }

  /** The state that a prefill of the whole input leaves, which ends in window c with m tokens. */
  ghost function PrefillState(sh: Shape, x: Input, c: nat, m: nat): (r: State)
    requires sh.Valid() && x.Valid(sh) && m < sh.ratio && x.n == Ix(sh.ratio, c, m)
    ensures r.Valid(sh)
  {
    var quiet := Quiet(sh);
    var cutoff := Ix(sh.ratio, c, 0);
    if sh.ratio == 4 then
      var prev := if c > 0 then SetRows(sh, quiet, x, cutoff - 4, 0, 4) else quiet;
      SetRows(sh, prev, x, cutoff, 4, m)
    else
      SetRows(sh, quiet, x, cutoff, 0, m)
  }

  /** Prefill leaves the state that decoding the same tokens would have left, as far as it is read again. */
  lemma PrefillFollows(sh: Shape, x: Input, c: nat, m: nat)
    requires sh.Valid() && x.Valid(sh) && m < sh.ratio && x.n == Ix(sh.ratio, c, m)
    ensures FollowsTo(sh, x, PrefillState(sh, x, c, m), x.n, Quiet(sh))
  {
    hide StateCand, TokenCand, SetRow, SetRows, Quiet, FollowsTo;
    var st, init := PrefillState(sh, x, c, m), Quiet(sh);
    QuietValid(sh);
    var cutoff := Ix(sh.ratio, c, 0);
    forall r, j | 0 <= r < sh.Rows() && 0 <= j < sh.Width()
      ensures Right(sh, x, st, c, m, init, r, j)
    {
      if sh.ratio == 4 {
        var prev := if c > 0 then SetRows(sh, init, x, cutoff - 4, 0, 4) else init;
        SetRowsAt(sh, prev, x, cutoff, 4, m, r, j);
        if c > 0 { SetRowsAt(sh, init, x, cutoff - 4, 0, 4, r, j); }
      } else {
        SetRowsAt(sh, init, x, cutoff, 0, m, r, j);
      }
    }
    FollowsParts(sh, x, st, x.n, init, c, m);
  }

  lemma QuietValid(sh: Shape)
    requires sh.Valid()
    ensures Quiet(sh).Valid(sh)
  {
  }

  lemma QuietFollows(sh: Shape, x: Input)
    requires sh.Valid() && x.Valid(sh)
    ensures FollowsTo(sh, x, Quiet(sh), 0, Quiet(sh))
  {
    hide StateCand, TokenCand, Quiet, FollowsTo;
    QuietValid(sh);
    var init := Quiet(sh);
    forall r, j | 0 <= r < sh.Rows() && 0 <= j < sh.Width()
      ensures Right(sh, x, init, 0, 0, init, r, j)
    {
    }
    FollowsParts(sh, x, init, 0, init, 0, 0);
  }

  // ---- parts of an input ---------------------------------------------------------------------------------

  /** Tokens a..b as an input of their own. */
  ghost function Part(sh: Shape, x: Input, a: nat, b: nat): (p: Input)
    requires x.Valid(sh) && a <= b <= x.n
    ensures p.Valid(sh) && p.n == b - a && p.pos0 == x.pos0 + a
  {
    PartInside(sh.Width(), a, b, x.n);
    Input(x.kv[a * sh.Width()..b * sh.Width()], x.sc[a * sh.Width()..b * sh.Width()], x.ape, x.pos0 + a, b - a)
  }

  lemma PartInside(w: nat, a: nat, b: nat, n: nat)
    requires a <= b <= n
    ensures a * w <= b * w <= n * w && (b - a) * w == b * w - a * w
  {
    assert b * w == a * w + (b - a) * w;
    assert n * w == b * w + (n - b) * w;
  }

  lemma PartToken(sh: Shape, x: Input, a: nat, b: nat, t: nat, j: nat)
    requires x.Valid(sh) && a <= b <= x.n && t < b - a && j < sh.Width()
    ensures TokenCand(sh, Part(sh, x, a, b), t, j) == TokenCand(sh, x, a + t, j)
  {
    var w := sh.Width();
    PartInside(w, a, b, x.n);
    IxFields(w, t, j, b - a);
    InputInside(sh, x, a + t, j);
    assert Ix(w, a + t, j) == a * w + Ix(w, t, j) by { assert (a + t) * w == a * w + t * w; }
    assert x.pos0 + a + t == x.pos0 + (a + t);
    hide Ix;
  }

  /** Following the first a tokens of a prefix is following the first a tokens of the whole. */
  lemma PrefixFollows(sh: Shape, x: Input, st: State, n: nat, init: State)
    requires sh.Valid() && x.Valid(sh) && n <= x.n && FollowsTo(sh, Part(sh, x, 0, n), st, n, init)
    ensures FollowsTo(sh, x, st, n, init)
  {
    hide StateCand, TokenCand, FollowsTo, Part;
    var y := Part(sh, x, 0, n);
    var c, m := Split(n, sh.ratio);
    FollowsParts(sh, y, st, n, init, c, m);
    forall r, j | 0 <= r < sh.Rows() && 0 <= j < sh.Width()
      ensures Right(sh, x, st, c, m, init, r, j)
    {
      assert Right(sh, y, st, c, m, init, r, j);
      if sh.ratio == 4 {
        if r < 4 { if c > 0 { PartToken(sh, x, 0, n, Ix(4, c - 1, r), j); } }
        else if r < 4 + m { PartToken(sh, x, 0, n, Ix(4, c, r - 4), j); }
      } else if r < m {
        PartToken(sh, x, 0, n, Ix(sh.ratio, c, r), j);
      }
    }
    FollowsParts(sh, x, st, n, init, c, m);
  }

  /** Prefilling any number of tokens and decoding the rest gives every later row the candidates of one whole batch. */
  lemma PrefillThenDecode(sh: Shape, x: Input, n: nat, c0: nat, m0: nat, c: nat, d: nat)
    requires sh.Valid() && x.pos0 % sh.ratio == 0 && x.Valid(sh) && m0 < sh.ratio && n == Ix(sh.ratio, c0, m0)
    requires n <= Ix(sh.ratio, c, sh.ratio - 1) < x.n && d < sh.headDim
    ensures var st := PrefillState(sh, Part(sh, x, 0, n), c0, m0);
      var last := Ix(sh.ratio, c, sh.ratio - 1);
      StateCands(sh, Stored(sh, Decode(sh, st, x, n, last), x, last), d)
         == BatchCands(sh, x, c, d, true, Quiet(sh))
  {
    hide StateCands, Stored, Decode, BatchCands, PrefillState, Quiet, FollowsTo, Part;
    QuietValid(sh);
    var y := Part(sh, x, 0, n);
    PrefillFollows(sh, y, c0, m0);
    PrefixFollows(sh, x, PrefillState(sh, y, c0, m0), n, Quiet(sh));
    DecodeMatchesBatch(sh, x, PrefillState(sh, y, c0, m0), n, Quiet(sh), c, d);
  }

  lemma QuietCand(sh: Shape, r: nat, j: nat)
    requires sh.Valid() && r < sh.Rows() && j < sh.Width()
    ensures Quiet(sh).Valid(sh) && StateCand(sh, Quiet(sh), r, j).score == NegInf
  {
    IxFields(sh.Width(), r, j, sh.Rows());
  }

  /** Row 0 from a cleared state: the previous window has no weight, so it pools like the batch, which leaves it out. */
  lemma QuietPrevious(sh: Shape, x: Input, c: nat, d: nat, exp: real -> real)
    requires sh.Valid() && x.Valid(sh) && Ix(sh.ratio, c, sh.ratio - 1) < x.n && d < sh.headDim
    ensures Quiet(sh).Valid(sh)
    ensures Pool(exp, BatchCands(sh, x, c, d, true, Quiet(sh))) == Pool(exp, BatchCands(sh, x, c, d, false, Quiet(sh)))
  {
    hide Pool, Quiet, StateCand, WindowCands;
    QuietValid(sh);
    if sh.ratio == 4 && c == 0 {
      var previous := seq(4, r requires 0 <= r < 4 => StateCand(sh, Quiet(sh), r, d));
      forall r | 0 <= r < 4
        ensures previous[r].score.NegInf?
      {
        QuietCand(sh, r, d);
      }
      var window := WindowCands(sh, x, c, sh.headDim + d);
      SilentPrefix(exp, previous, window);
      assert [] + window == window;
    }
  }

  /** From a cleared state, token by token: every window pools to exactly the batch row. */
  lemma RollingMatchesBatch(sh: Shape, x: Input, c: nat, d: nat, exp: real -> real)
    requires sh.Valid() && x.pos0 % sh.ratio == 0 && x.Valid(sh) && d < sh.headDim
    requires Ix(sh.ratio, c, sh.ratio - 1) < x.n
    ensures Quiet(sh).Valid(sh)
    ensures var t := Ix(sh.ratio, c, sh.ratio - 1);
      Pool(exp, StateCands(sh, Stored(sh, Decode(sh, Quiet(sh), x, 0, t), x, t), d))
        == Pool(exp, BatchCands(sh, x, c, d, false, Quiet(sh)))
  {
    hide StateCands, Stored, Decode, BatchCands, Quiet, FollowsTo, Pool;
    QuietValid(sh);
    QuietFollows(sh, x);
    DecodeMatchesBatch(sh, x, Quiet(sh), 0, Quiet(sh), c, d);
    QuietPrevious(sh, x, c, d, exp);
  }

  // ---- replay ---------------------------------------------------------------------------------------------

  /** Replaying the tokens from window c0 up to token b gives the rows of the whole batch. */
  lemma ReplayMatchesBatch(sh: Shape, x: Input, st: State, c0: nat, b: nat, init: State, c: nat, d: nat)
    requires sh.Valid() && sh.ratio == 4 && x.Valid(sh) && st.Valid(sh) && init.Valid(sh) && d < sh.headDim
    requires Follows(sh, x, st, c0, 0, init) && Ix(4, c0 + c, 3) < b <= x.n
    ensures BatchCands(sh, Part(sh, x, Ix(4, c0, 0), b), c, d, true, st) == BatchCands(sh, x, c0 + c, d, true, init)
  {
    hide StateCand, TokenCand, Part;
    var y := Part(sh, x, Ix(4, c0, 0), b);
    forall r, j | 0 <= r < 4 && 0 <= j < sh.Width()
      ensures TokenCand(sh, y, Ix(4, c, r), j) == TokenCand(sh, x, Ix(4, c0 + c, r), j)
    {
      PartToken(sh, x, Ix(4, c0, 0), b, Ix(4, c, r), j);
    }
    assert WindowCands(sh, y, c, sh.headDim + d) == WindowCands(sh, x, c0 + c, sh.headDim + d);
    if c == 0 {
      forall r | 0 <= r < 4
        ensures StateCand(sh, st, r, d) == Previous(sh, x, c0, init, r, d)
      {
        assert Right(sh, x, st, c0, 0, init, r, d);
      }
    } else {
      var k, k0 := c - 1, c0 + c - 1;
      forall r | 0 <= r < 4
        ensures TokenCand(sh, y, Ix(4, k, r), d) == TokenCand(sh, x, Ix(4, k0, r), d)
      {
        PartToken(sh, x, Ix(4, c0, 0), b, Ix(4, k, r), d);
      }
      assert WindowCands(sh, y, k, d) == WindowCands(sh, x, k0, d);
    }
  }

  /** The state that a replay of c whole windows from window c0 on leaves. */
  ghost function Replayed(sh: Shape, x: Input, c0: nat, c: nat): (st: State)
    requires sh.ratio == 4 && x.Valid(sh) && c > 0 && Ix(4, c0 + c, 0) <= x.n
    ensures st.Valid(sh)
  {
    QuietValid(sh);
    SetRows(sh, Quiet(sh), Part(sh, x, Ix(4, c0, 0), Ix(4, c0 + c, 0)), Ix(4, c - 1, 0), 0, 4)
  }

  /** It follows all tokens so far, those before the replay included. */
  lemma ReplayFollows(sh: Shape, x: Input, c0: nat, c: nat, init: State)
    requires sh.ratio == 4 && x.Valid(sh) && init.Valid(sh) && c > 0 && Ix(4, c0 + c, 0) <= x.n
    ensures Follows(sh, x, Replayed(sh, x, c0, c), c0 + c, 0, init)
  {
    hide StateCand, TokenCand, Quiet, SetRows, SetRow, Part;
    QuietValid(sh);
    var y := Part(sh, x, Ix(4, c0, 0), Ix(4, c0 + c, 0));
    var st, n := Replayed(sh, x, c0, c), c0 + c;
    forall r, j | 0 <= r < sh.Rows() && 0 <= j < sh.Width()
      ensures Right(sh, x, st, n, 0, init, r, j)
    {
      SetRowsAt(sh, Quiet(sh), y, Ix(4, c - 1, 0), 0, 4, r, j);
      if r < 4 { PartToken(sh, x, Ix(4, c0, 0), Ix(4, c0 + c, 0), Ix(4, c - 1, r), j); }
    }
  }

  /** So decoding on after a replay gives every later row the candidates of one whole batch. */
  lemma ReplayThenDecode(sh: Shape, x: Input, c0: nat, c: nat, init: State, e: nat, d: nat)
    requires sh.ratio == 4 && x.pos0 % 4 == 0 && x.Valid(sh) && init.Valid(sh) && c > 0 && d < sh.headDim
    requires c0 + c <= e && Ix(4, c0 + c, 0) <= Ix(4, e, 3) < x.n
    ensures var t := Ix(4, e, 3);
      StateCands(sh, Stored(sh, Decode(sh, Replayed(sh, x, c0, c), x, Ix(4, c0 + c, 0), t), x, t), d)
         == BatchCands(sh, x, e, d, true, init)
  {
    hide Follows, FollowsTo, Decode, StateCands, BatchCands, Stored, Replayed;
    var st, a := Replayed(sh, x, c0, c), Ix(4, c0 + c, 0);
    ReplayFollows(sh, x, c0, c, init);
    FollowsParts(sh, x, st, a, init, c0 + c, 0);
    DecodeMatchesBatch(sh, x, st, a, init, e, d);
  }

  /** And so does another replay, up to any token b. */
  lemma ReplayThenReplay(sh: Shape, x: Input, c0: nat, c: nat, b: nat, init: State, e: nat, d: nat)
    requires sh.ratio == 4 && x.Valid(sh) && init.Valid(sh) && c > 0 && d < sh.headDim
    requires Ix(4, c0 + c, 0) <= Ix(4, c0 + c + e, 3) < b <= x.n
    ensures BatchCands(sh, Part(sh, x, Ix(4, c0 + c, 0), b), e, d, true, Replayed(sh, x, c0, c))
         == BatchCands(sh, x, c0 + c + e, d, true, init)
  {
    hide Follows, Decode, BatchCands, Replayed, Part;
    ReplayFollows(sh, x, c0, c, init);
    ReplayMatchesBatch(sh, x, Replayed(sh, x, c0, c), c0 + c, b, init, e, d);
  }
}
