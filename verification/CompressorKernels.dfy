/**
 The compressor kernels as loops over their thread index, and the launches that decode or prefill
 (src/gpu/ds4_cuda_compressor.cuh:1-177, src/gpu/ds4_cuda_dispatch2.cuh:217-298, 299-410).
 */
module CompressorKernels {
  import opened Pooling
  import opened Compressor
  import opened CompressorCells

  /** Both state buffers as one value. */
  function StateOf(kv: array<real>, sc: array<Score>): State
    reads kv, sc
  {
    State(kv[..], sc[..])
  }

  ghost predicate Buffers(sh: Shape, kv: array<real>, sc: array<Score>) {
    sh.Valid() && kv.Length == sc.Length == sh.Rows() * sh.Width()
  }

  // ---- writing rows ------------------------------------------------------------------------------

  /** One thread per element of a row: token t of x goes to row dst. */
  method StoreRowKernel(sh: Shape, x: Input, t: nat, dst: nat, kv: array<real>, sc: array<Score>)
    requires Buffers(sh, kv, sc) && x.Valid(sh) && t < x.n && dst < sh.Rows()
    modifies kv, sc
    ensures StateOf(kv, sc) == SetRow(sh, old(StateOf(kv, sc)), x, t, dst)
  {
    var w := sh.Width();
    Bound(dst, sh.Rows(), w);
    ghost var before := StateOf(kv, sc);
    SetRowIs(sh, before, x, t, dst, dst * w);
    FilledEnds(before.kv, TokenValues(sh, x, t), dst * w);
    FilledEnds(before.sc, TokenScores(sh, x, t), dst * w);
    StoreCells(sh, x, t, w, dst * w, (x.pos0 + t) % sh.ratio, kv, sc);
    hide SetRow, TokenValues, TokenScores, Filled;
  }

  /** The threads' loop. */
  method StoreCells(sh: Shape, x: Input, t: nat, w: nat, base: nat, posMod: nat, kv: array<real>, sc: array<Score>)
    requires x.Valid(sh) && t < x.n && w == sh.Width() && base + w <= kv.Length == sc.Length
    requires posMod == (x.pos0 + t) % sh.ratio
    modifies kv, sc
    ensures kv[..] == Filled(old(kv[..]), TokenValues(sh, x, t), base, w)
    ensures sc[..] == Filled(old(sc[..]), TokenScores(sh, x, t), base, w)
  {
    ghost var vals, scores := TokenValues(sh, x, t), TokenScores(sh, x, t);
    ghost var a, b := kv[..], sc[..];
    FilledEnds(a, vals, base);
    FilledEnds(b, scores, base);
    hide TokenValues, TokenScores, TokenCand, Ix, Input.Valid, Shape.Width, Filled;
    var j := 0;
    while j < w
      invariant 0 <= j <= w
      invariant kv[..] == Filled(a, vals, base, j) && sc[..] == Filled(b, scores, base, j)
    {
      TokenCells(sh, x, t, j, posMod);
      FilledStep(a, vals, base, j);
      FilledStep(b, scores, base, j);
      StoreCell(kv, base + j, x.kv[Ix(w, t, j)]);
      StoreCell(sc, base + j, Fin(x.sc[Ix(w, t, j)] + x.ape[Ix(w, posMod, j)]));
      j := j + 1;
    }
  }

  /** The buffer when the first j cells of a row are stored. */
  ghost function Filled<T>(a: seq<T>, row: seq<T>, base: nat, j: nat): (r: seq<T>)
    requires base + |row| <= |a| && j <= |row|
    ensures |r| == |a|
  {
    a[..base] + row[..j] + a[base + j..]
  }

  lemma FilledEnds<T>(a: seq<T>, row: seq<T>, base: nat)
    requires base + |row| <= |a|
    ensures Filled(a, row, base, 0) == a && Filled(a, row, base, |row|) == a[..base] + row + a[base + |row|..]
  {
    assert row[..|row|] == row;
  }

  lemma FilledStep<T>(a: seq<T>, row: seq<T>, base: nat, j: nat)
    requires base + |row| <= |a| && j < |row|
    ensures Filled(a, row, base, j)[base + j := row[j]] == Filled(a, row, base, j + 1)
  {
  }

  method StoreCell<T>(a: array<T>, i: nat, v: T)
    requires i < a.Length
    modifies a
    ensures a[..] == old(a[..])[i := v]
  {
    a[i] := v;
  }

  lemma SetRowIs(sh: Shape, st: State, x: Input, t: nat, dst: nat, base: nat)
    requires st.Valid(sh) && x.Valid(sh) && t < x.n && dst < sh.Rows() && base == dst * sh.Width()
    ensures base + sh.Width() <= |st.kv| == |st.sc|
    ensures SetRow(sh, st, x, t, dst)
         == State(st.kv[..base] + TokenValues(sh, x, t) + st.kv[base + sh.Width()..],
                  st.sc[..base] + TokenScores(sh, x, t) + st.sc[base + sh.Width()..])
  {
    Bound(dst, sh.Rows(), sh.Width());
    hide TokenValues, TokenScores;
  }

  lemma TokenCells(sh: Shape, x: Input, t: nat, j: nat, posMod: nat)
    requires x.Valid(sh) && t < x.n && j < sh.Width() && posMod == (x.pos0 + t) % sh.ratio
    ensures Ix(sh.Width(), t, j) < |x.kv| == |x.sc| && Ix(sh.Width(), posMod, j) < |x.ape|
    ensures TokenValues(sh, x, t)[j] == x.kv[Ix(sh.Width(), t, j)]
    ensures TokenScores(sh, x, t)[j] == Fin(x.sc[Ix(sh.Width(), t, j)] + x.ape[Ix(sh.Width(), posMod, j)])
  {
    InputInside(sh, x, t, j);
  }

  /** compressor_store_kernel for one token at position x.pos0 + t. */
  method StoreKernel(sh: Shape, x: Input, t: nat, kv: array<real>, sc: array<Score>)
    requires Buffers(sh, kv, sc) && x.Valid(sh) && t < x.n
    modifies kv, sc
    ensures StateOf(kv, sc) == Stored(sh, old(StateOf(kv, sc)), x, t)
  {
    hide SetRow;
    var posMod := (x.pos0 + t) % sh.ratio;
    var dstRow := if sh.ratio == 4 then sh.ratio + posMod else posMod;
    StoreRowKernel(sh, x, t, dstRow, kv, sc);
  }

  /** compressor_set_rows_kernel */
  method SetRowsKernel(sh: Shape, x: Input, src0: nat, dst0: nat, rows: nat, kv: array<real>, sc: array<Score>)
    requires Buffers(sh, kv, sc) && x.Valid(sh) && src0 + rows <= x.n && dst0 + rows <= sh.Rows()
    modifies kv, sc
    ensures StateOf(kv, sc) == SetRows(sh, old(StateOf(kv, sc)), x, src0, dst0, rows)
  {
    hide SetRow;
    ghost var before := StateOf(kv, sc);
    var r := 0;
    while r < rows
      invariant 0 <= r <= rows
      invariant StateOf(kv, sc) == SetRows(sh, before, x, src0, dst0, r)
    {
      StoreRowKernel(sh, x, src0 + r, dst0 + r, kv, sc);
      r := r + 1;
    }
  }

  /** compressor_shift_ratio4_kernel */
  method ShiftKernel(sh: Shape, kv: array<real>, sc: array<Score>)
    requires Buffers(sh, kv, sc) && sh.ratio == 4
    modifies kv, sc
    ensures StateOf(kv, sc) == Shift(sh, old(StateOf(kv, sc)))
  {
    ghost var kv0, sc0 := kv[..], sc[..];
    var half := 4 * sh.Width();
    Halves(sh, half);
    hide Shape.Width, Shape.Rows;
    var i := 0;
    while i < half
      invariant 0 <= i <= half
      invariant forall k :: 0 <= k < kv.Length ==> kv[k] == kv0[if k < i then half + k else k]
      invariant forall k :: 0 <= k < sc.Length ==> sc[k] == sc0[if k < i then half + k else k]
    {
      var v, s := kv[half + i], sc[half + i];
      kv[i] := v;
      sc[i] := s;
      kv[half + i] := v;
      sc[half + i] := s;
      i := i + 1;
    }
    assert kv[..] == kv0[half..] + kv0[half..];
    assert sc[..] == sc0[half..] + sc0[half..];
    ShiftIs(sh, State(kv0, sc0), half);
  }

  lemma Halves(sh: Shape, half: nat)
    requires sh.ratio == 4 && half == 4 * sh.Width()
    ensures sh.Rows() * sh.Width() == 2 * half
  {
  }

  lemma ShiftIs(sh: Shape, st: State, half: nat)
    requires st.Valid(sh) && sh.ratio == 4 && half == 4 * sh.Width()
    ensures half <= |st.kv| == |st.sc|
    ensures Shift(sh, st) == State(st.kv[half..] + st.kv[half..], st.sc[half..] + st.sc[half..])
  {
  }

  // ---- pooling -------------------------------------------------------------------------------------

  /** Candidates collected so far: `vals` and `scores` up to n, with their largest score. */
  ghost predicate Collected(vals: seq<real>, scores: seq<Score>, n: nat, max: Score, c: seq<Cand>) {
    n <= |vals| == |scores| && Cands(vals[..n], scores[..n]) == c && max == MaxScore(c)
  }

  method Collect(vals: array<real>, scores: array<Score>, n: nat, max: Score, v: real, s: Score, ghost c: seq<Cand>)
    returns (n': nat, max': Score)
    requires Collected(vals[..], scores[..], n, max, c) && n < vals.Length
    modifies vals, scores
    ensures n' == n + 1 && Collected(vals[..], scores[..], n', max', c + [Cand(v, s)])
  {
    vals[n], scores[n] := v, s;
    n', max' := n + 1, Max(max, s);
    assert vals[..][..n'] == old(vals[..])[..n] + [v] && scores[..][..n'] == old(scores[..])[..n] + [s];
    assert Cands(vals[..][..n'], scores[..][..n']) == c + [Cand(v, s)];
    SumsGrow(_ => 0.0, c, Cand(v, s), NegInf);
  }

  /** The cells of one column of `rows` state rows, from row r0 on. */
  ghost function Column(sh: Shape, st: State, r0: nat, rows: nat, j: nat): (c: seq<Cand>)
    requires st.Valid(sh) && r0 + rows <= sh.Rows() && j < sh.Width()
    ensures |c| == rows
  {
    seq(rows, r requires 0 <= r < rows => StateCand(sh, st, r0 + r, j))
  }

  method CollectColumn(sh: Shape, kv: array<real>, sc: array<Score>, r0: nat, rows: nat, j: nat,
                       vals: array<real>, scores: array<Score>, n: nat, max: Score, ghost c: seq<Cand>)
    returns (n': nat, max': Score)
    requires Buffers(sh, kv, sc) && r0 + rows <= sh.Rows() && j < sh.Width()
    requires kv != vals && sc != scores && Collected(vals[..], scores[..], n, max, c) && n + rows <= vals.Length
    modifies vals, scores
    ensures n' == n + rows && Collected(vals[..], scores[..], n', max', c + Column(sh, StateOf(kv, sc), r0, rows, j))
  {
    hide Collected, StateCand;
    var w := sh.Width();
    ghost var st := StateOf(kv, sc);
    ghost var column := Column(sh, st, r0, rows, j);
    n', max' := n, max;
    var r := 0;
    assert c + column[..0] == c;
    while r < rows
      invariant 0 <= r <= rows && n' == n + r
      invariant Collected(vals[..], scores[..], n', max', c + column[..r])
    {
      StateCells(sh, st, r0 + r, j);
      n', max' := Collect(vals, scores, n', max', kv[Ix(w, r0 + r, j)], sc[Ix(w, r0 + r, j)], c + column[..r]);
      assert c + column[..r] + [column[r]] == c + column[..r + 1];
      r := r + 1;
    }
    assert column[..r] == column;
  }

  lemma StateCells(sh: Shape, st: State, r: nat, j: nat)
    requires st.Valid(sh) && r < sh.Rows() && j < sh.Width()
    ensures Ix(sh.Width(), r, j) < |st.kv|
    ensures StateCand(sh, st, r, j) == Cand(st.kv[Ix(sh.Width(), r, j)], st.sc[Ix(sh.Width(), r, j)])
  {
    IxFields(sh.Width(), r, j, sh.Rows());
  }

  /** compressor_update_pool_kernel for one column; at most 128 candidates fit. */
  method UpdatePoolColumn(sh: Shape, exp: real -> real, kv: array<real>, sc: array<Score>, d: nat) returns (v: real)
    requires Buffers(sh, kv, sc) && d < sh.headDim
    ensures v == Pool(exp, StateCands(sh, StateOf(kv, sc), d))
  {
    var vals, scores := new real[128], new Score[128](_ => NegInf);
    var max, n := NegInf, 0;
    CollectNone(vals[..], scores[..]);
    hide StateCand, Pool, Collected;
    ghost var st := StateOf(kv, sc);
    ghost var got := [];
    if sh.ratio == 4 {
      n, max := CollectColumn(sh, kv, sc, 0, 4, d, vals, scores, n, max, got);
      got := got + Column(sh, st, 0, 4, d);
      n, max := CollectColumn(sh, kv, sc, 4, 4, sh.headDim + d, vals, scores, n, max, got);
      got := got + Column(sh, st, 4, 4, sh.headDim + d);
    } else {
      n, max := CollectColumn(sh, kv, sc, 0, sh.ratio, d, vals, scores, n, max, got);
      got := got + Column(sh, st, 0, sh.ratio, d);
    }
    assert got == StateCands(sh, st, d);
    v := PoolCollected(exp, vals, scores, n, max, got);
  }

  /** compressor_update_pool_kernel: one thread per column; the row starts at `at`. */
  method UpdatePoolKernel(sh: Shape, exp: real -> real, kv: array<real>, sc: array<Score>, comp: array<real>, at: nat)
    requires Buffers(sh, kv, sc) && comp != kv && at + sh.headDim <= comp.Length
    modifies comp
    ensures forall d :: 0 <= d < sh.headDim ==> comp[at + d] == Pool(exp, StateCands(sh, StateOf(kv, sc), d))
    ensures IsExp(exp) ==> forall d, c :: 0 <= d < sh.headDim && FromState(sh, StateOf(kv, sc), d, c) ==>
      Softmax(exp, c, comp[at + d])
    ensures forall i :: 0 <= i < comp.Length && !(at <= i < at + sh.headDim) ==> comp[i] == old(comp[i])
  {
    hide Pool, StateCands;
    ghost var st := StateOf(kv, sc);
    var d := 0;
    while d < sh.headDim
      invariant 0 <= d <= sh.headDim
      invariant StateOf(kv, sc) == st
      invariant forall e :: 0 <= e < d ==> comp[at + e] == Pool(exp, StateCands(sh, st, e))
      invariant forall i :: 0 <= i < comp.Length && !(at <= i < at + d) ==> comp[i] == old(comp[i])
    {
      var v := UpdatePoolColumn(sh, exp, kv, sc, d);
      comp[at + d] := v;
      d := d + 1;
    }
    if IsExp(exp) { StateRows(sh, exp, st, comp[at..at + sh.headDim]); }
  }

  lemma StateRows(sh: Shape, exp: real -> real, st: State, row: seq<real>)
    requires st.Valid(sh) && |row| == sh.headDim && IsExp(exp)
    requires forall d :: 0 <= d < sh.headDim ==> row[d] == Pool(exp, StateCands(sh, st, d))
    ensures forall d, c :: 0 <= d < sh.headDim && FromState(sh, st, d, c) ==> Softmax(exp, c, row[d])
  {
    hide *;
    forall d, c | 0 <= d < sh.headDim && FromState(sh, st, d, c)
      ensures Softmax(exp, c, row[d])
    {
      StateRowIsSoftmax(sh, exp, st, d, c);
    }
  }

  method CollectWindow(sh: Shape, x: Input, c: nat, j: nat,
                       vals: array<real>, scores: array<Score>, n: nat, max: Score, ghost before: seq<Cand>)
    returns (n': nat, max': Score)
    requires x.Valid(sh) && Ix(sh.ratio, c, sh.ratio - 1) < x.n && j < sh.Width()
    requires Collected(vals[..], scores[..], n, max, before) && n + sh.ratio <= vals.Length
    modifies vals, scores
    ensures n' == n + sh.ratio && Collected(vals[..], scores[..], n', max', before + WindowCands(sh, x, c, j))
  {
    hide Collected, TokenCand;
    var w := sh.Width();
    ghost var window := WindowCands(sh, x, c, j);
    n', max' := n, max;
    var base := c * sh.ratio;
    var r := 0;
    assert before + window[..0] == before;
    while r < sh.ratio
      invariant 0 <= r <= sh.ratio && n' == n + r
      invariant Collected(vals[..], scores[..], n', max', before + window[..r])
    {
      var t := base + r;
      assert t == Ix(sh.ratio, c, r);
      TokenCell(sh, x, t, j);
      var ape := x.ape[Ix(w, (x.pos0 + t) % sh.ratio, j)];
      n', max' := Collect(vals, scores, n', max', x.kv[Ix(w, t, j)], Fin(x.sc[Ix(w, t, j)] + ape),
                            before + window[..r]);
      assert before + window[..r] + [window[r]] == before + window[..r + 1];
      r := r + 1;
    }
    assert window[..r] == window;
  }

  lemma TokenCell(sh: Shape, x: Input, t: nat, j: nat)
    requires x.Valid(sh) && t < x.n && j < sh.Width()
    ensures Ix(sh.Width(), t, j) < |x.kv| == |x.sc| && Ix(sh.Width(), (x.pos0 + t) % sh.ratio, j) < |x.ape|
    ensures TokenCand(sh, x, t, j) == Cand(x.kv[Ix(sh.Width(), t, j)],
      Fin(x.sc[Ix(sh.Width(), t, j)] + x.ape[Ix(sh.Width(), (x.pos0 + t) % sh.ratio, j)]))
  {
    InputInside(sh, x, t, j);
  }

  /** The candidates of a row for ratio 4: the previous window, from the state or the tokens, and the current one. */
  method CollectFour(sh: Shape, x: Input, kv: array<real>, sc: array<Score>, c: nat, d: nat, replay: bool,
                     vals: array<real>, scores: array<Score>)
    returns (n: nat, max: Score, ghost got: seq<Cand>)
    requires Buffers(sh, kv, sc) && x.Valid(sh) && sh.ratio == 4 && Ix(4, c, 3) < x.n && d < sh.headDim
    requires kv != vals && sc != scores && vals.Length == scores.Length == 128
    modifies vals, scores
    ensures Collected(vals[..], scores[..], n, max, got)
    ensures c > 0 ==> Ix(4, c - 1, 3) < x.n
    ensures got == (if replay && c == 0 then [] + Column(sh, StateOf(kv, sc), 0, 4, d)
                    else if c > 0 then [] + WindowCands(sh, x, c - 1, d) else [])
                   + WindowCands(sh, x, c, sh.headDim + d)
  {
    CollectNone(vals[..], scores[..]);
    hide Column, WindowCands, Collected;
    max, n, got := NegInf, 0, [];
    if replay && c == 0 {
      n, max := CollectColumn(sh, kv, sc, 0, 4, d, vals, scores, n, max, got);
      got := got + Column(sh, StateOf(kv, sc), 0, 4, d);
    } else if c > 0 {
      RowsApart(c - 1, c, 4);
      n, max := CollectWindow(sh, x, c - 1, d, vals, scores, n, max, got);
      got := got + WindowCands(sh, x, c - 1, d);
    }
    n, max := CollectWindow(sh, x, c, sh.headDim + d, vals, scores, n, max, got);
    got := got + WindowCands(sh, x, c, sh.headDim + d);
  }

  /** compressor_prefill_pool_kernel for one row and column. */
  method PrefillPoolColumn(sh: Shape, exp: real -> real, x: Input, kv: array<real>, sc: array<Score>,
                           c: nat, d: nat, replay: bool)
    returns (v: real)
    requires Buffers(sh, kv, sc) && x.Valid(sh) && Ix(sh.ratio, c, sh.ratio - 1) < x.n && d < sh.headDim
    ensures v == Pool(exp, BatchCands(sh, x, c, d, replay, StateOf(kv, sc)))
  {
    var vals, scores := new real[128], new Score[128](_ => NegInf);
    CollectNone(vals[..], scores[..]);
    hide Pool, Column, WindowCands, BatchCands, Collected;
    var max, n := NegInf, 0;
    ghost var got := [];
    if sh.ratio == 4 {
      n, max, got := CollectFour(sh, x, kv, sc, c, d, replay, vals, scores);
    } else {
      n, max := CollectWindow(sh, x, c, d, vals, scores, n, max, got);
      got := got + WindowCands(sh, x, c, d);
    }
    BatchParts(sh, x, c, d, replay, StateOf(kv, sc), got);
    v := PoolCollected(exp, vals, scores, n, max, got);
  }

  lemma BatchParts(sh: Shape, x: Input, c: nat, d: nat, replay: bool, st: State, got: seq<Cand>)
    requires x.Valid(sh) && st.Valid(sh) && Ix(sh.ratio, c, sh.ratio - 1) < x.n && d < sh.headDim
    requires sh.ratio == 4 && c > 0 ==> Ix(4, c - 1, 3) < x.n
    requires got == if sh.ratio == 4 then
        (if replay && c == 0 then [] + Column(sh, st, 0, 4, d)
         else if c > 0 then [] + WindowCands(sh, x, c - 1, d) else []) + WindowCands(sh, x, c, sh.headDim + d)
      else [] + WindowCands(sh, x, c, d)
    ensures got == BatchCands(sh, x, c, d, replay, st)
  {
    hide StateCand, WindowCands;
    if sh.ratio == 4 {
      if replay && c == 0 {
        assert [] + Column(sh, st, 0, 4, d) == seq(4, r requires 0 <= r < 4 => StateCand(sh, st, r, d));
      }
      else if c > 0 { assert [] + WindowCands(sh, x, c - 1, d) == WindowCands(sh, x, c - 1, d); }
    } else {
      assert [] + WindowCands(sh, x, c, d) == WindowCands(sh, x, c, d);
    }
  }

  lemma CollectNone(vals: seq<real>, scores: seq<Score>)
    requires |vals| == |scores|
    ensures Collected(vals, scores, 0, NegInf, [])
  {
  }

  method PoolCollected(exp: real -> real, vals: array<real>, scores: array<Score>, n: nat, max: Score,
                       ghost c: seq<Cand>)
    returns (v: real)
    requires Collected(vals[..], scores[..], n, max, c)
    ensures v == Pool(exp, c)
  {
    hide Pool;
    assert vals[..][..n] == vals[..n] && scores[..][..n] == scores[..n];
    v := PoolCandidates(exp, vals, scores, n, max);
  }

  // ---- the launches -----------------------------------------------------------------------------------

  /**
   ds4_gpu_compressor_update_tensor up to pooling: store the token; at a window boundary pool row compRow and, for
   ratio 4, shift.
   */
  method DecodeToken(sh: Shape, exp: real -> real, x: Input, t: nat, kv: array<real>, sc: array<Score>,
                     comp: array<real>, compRow: nat)
    returns (emitted: bool)
    requires Buffers(sh, kv, sc) && x.Valid(sh) && t < x.n && comp != kv
    requires Emits(sh, x.pos0 + t) ==> Ix(sh.headDim, compRow, sh.headDim) <= comp.Length
    modifies kv, sc, comp
    ensures StateOf(kv, sc) == DecodeStep(sh, old(StateOf(kv, sc)), x, t)
    ensures emitted <==> Emits(sh, x.pos0 + t)
    ensures emitted ==> forall d :: 0 <= d < sh.headDim ==>
      comp[Ix(sh.headDim, compRow, d)] == Pool(exp, StateCands(sh, Stored(sh, old(StateOf(kv, sc)), x, t), d))
    ensures !emitted ==> comp[..] == old(comp[..])
  {
    hide Stored, Pool, StateCands, Shift, SetRow;
    var pos := x.pos0 + t;
    emitted := (pos + 1) % sh.ratio == 0;
    DecodeStepIs(sh, StateOf(kv, sc), x, t);
    hide DecodeStep;
    StoreKernel(sh, x, t, kv, sc);
    if !emitted { return; }
    UpdatePoolKernel(sh, exp, kv, sc, comp, compRow * sh.headDim);
    if sh.ratio == 4 { ShiftKernel(sh, kv, sc); }
  }

  lemma DecodeStepIs(sh: Shape, st: State, x: Input, t: nat)
    requires st.Valid(sh) && x.Valid(sh) && t < x.n
    ensures DecodeStep(sh, st, x, t)
         == if Emits(sh, x.pos0 + t) && sh.ratio == 4 then Shift(sh, Stored(sh, st, x, t)) else Stored(sh, st, x, t)
  {
    hide Shift, SetRow;
  }

  /** The fused kernel's guard and row: it emits exactly at window ends, into the row numbered like the window. */
  lemma FusedEmitRow(sh: Shape, pos: nat, c: nat)
    requires sh.Valid()
    ensures Emits(sh, pos) && (pos + 1) / sh.ratio - 1 == c <==> pos == Ix(sh.ratio, c, sh.ratio - 1)
  {
    var m := (pos + 1) % sh.ratio;
    Fields(pos + 1, sh.ratio, (pos + 1) / sh.ratio, m);
    Next(c, 0, sh.ratio);
    if pos == Ix(sh.ratio, c, sh.ratio - 1) { Quotient(c + 1, sh.ratio, 0); }
  }

  /** fill_f32_kernel on both state buffers. */
  method ClearState(sh: Shape, kv: array<real>, sc: array<Score>)
    requires Buffers(sh, kv, sc)
    modifies kv, sc
    ensures StateOf(kv, sc) == Quiet(sh)
  {
    var i := 0;
    while i < kv.Length
      invariant 0 <= i <= kv.Length
      invariant forall k :: 0 <= k < i ==> kv[k] == 0.0 && sc[k] == NegInf
    {
      kv[i] := 0.0;
      sc[i] := NegInf;
      i := i + 1;
    }
    assert kv[..] == Quiet(sh).kv && sc[..] == Quiet(sh).sc;
  }

  /** compressor_prefill_pool_kernel over its grid of rows and columns. */
  method PrefillPoolKernel(sh: Shape, exp: real -> real, x: Input, kv: array<real>, sc: array<Score>,
                           comp: array<real>, nComp: nat, replay: bool)
    requires Buffers(sh, kv, sc) && x.Valid(sh) && Ix(sh.ratio, nComp, 0) <= x.n && comp != kv
    requires Ix(sh.headDim, nComp, 0) <= comp.Length
    modifies comp
    ensures forall c, d :: 0 <= c < nComp && 0 <= d < sh.headDim ==>
      PooledCell(sh, exp, x, StateOf(kv, sc), comp[..], c, d, replay)
    ensures IsExp(exp) ==> forall c, d, cells ::
      0 <= c < nComp && 0 <= d < sh.headDim && FromTokens(sh, x, c, d, replay, StateOf(kv, sc), cells) ==>
        Ix(sh.headDim, c, d) < comp.Length && Softmax(exp, cells, comp[Ix(sh.headDim, c, d)])
  {
    hide Pool, BatchCands;
    ghost var st := StateOf(kv, sc);
    var c := 0;
    while c < nComp
      invariant 0 <= c <= nComp && StateOf(kv, sc) == st
      invariant forall b, d :: 0 <= b < c && 0 <= d < sh.headDim ==> PooledCell(sh, exp, x, st, comp[..], b, d, replay)
    {
      RowsInside(sh, x, c, nComp);
      var d := 0;
      while d < sh.headDim
        invariant 0 <= d <= sh.headDim && StateOf(kv, sc) == st
        invariant forall b, e :: 0 <= b < c && 0 <= e < sh.headDim ==>
                    PooledCell(sh, exp, x, st, comp[..], b, e, replay)
        invariant forall e :: 0 <= e < d ==> PooledCell(sh, exp, x, st, comp[..], c, e, replay)
      {
        var v := PrefillPoolColumn(sh, exp, x, kv, sc, c, d, replay);
        ghost var was := comp[..];
        comp[Ix(sh.headDim, c, d)] := v;
        KeepCells(sh, exp, x, st, was, comp[..], c, d, replay);
        d := d + 1;
      }
      c := c + 1;
    }
    if IsExp(exp) { TokenRows(sh, exp, x, st, comp[..], nComp, replay); }
  }

  lemma TokenRows(sh: Shape, exp: real -> real, x: Input, st: State, comp: seq<real>, nComp: nat, replay: bool)
    requires sh.Valid() && x.Valid(sh) && st.Valid(sh) && IsExp(exp)
    requires forall c, d :: 0 <= c < nComp && 0 <= d < sh.headDim ==> PooledCell(sh, exp, x, st, comp, c, d, replay)
    ensures forall c, d, cells ::
      0 <= c < nComp && 0 <= d < sh.headDim && FromTokens(sh, x, c, d, replay, st, cells) ==>
        Ix(sh.headDim, c, d) < |comp| && Softmax(exp, cells, comp[Ix(sh.headDim, c, d)])
  {
    forall c, d, cells | 0 <= c < nComp && 0 <= d < sh.headDim && FromTokens(sh, x, c, d, replay, st, cells)
      ensures Ix(sh.headDim, c, d) < |comp| && Softmax(exp, cells, comp[Ix(sh.headDim, c, d)])
    {
      hide FromTokens, Softmax, Pool, BatchCands, IsExp, Input.Valid, State.Valid;
      assert PooledCell(sh, exp, x, st, comp, c, d, replay);
      BatchRowIsSoftmax(sh, exp, x, c, d, replay, st, cells);
    }
  }

  /** Cell (c, d) of the compressed rows holds the pooled batch candidates. */
  ghost predicate PooledCell(sh: Shape, exp: real -> real, x: Input, st: State, comp: seq<real>, c: nat, d: nat,
                             replay: bool)
    requires sh.Valid() && x.Valid(sh) && st.Valid(sh) && d < sh.headDim
  {
    && Ix(sh.ratio, c, sh.ratio - 1) < x.n
    && Ix(sh.headDim, c, d) < |comp|
    && comp[Ix(sh.headDim, c, d)] == Pool(exp, BatchCands(sh, x, c, d, replay, st))
  }

  lemma RowsInside(sh: Shape, x: Input, c: nat, nComp: nat)
    requires sh.Valid() && c < nComp && Ix(sh.ratio, nComp, 0) <= x.n
    ensures Ix(sh.ratio, c, sh.ratio - 1) < x.n
    ensures Ix(sh.headDim, c, sh.headDim) <= Ix(sh.headDim, nComp, 0)
  {
    RowsApart(c, nComp, sh.ratio);
    RowsApart(c, nComp, sh.headDim);
  }

  /** Writing cell (c, d) leaves every earlier cell alone. */
  lemma KeepCells(sh: Shape, exp: real -> real, x: Input, st: State, was: seq<real>, now: seq<real>, c: nat, d: nat,
                  replay: bool)
    requires sh.Valid() && x.Valid(sh) && st.Valid(sh) && d < sh.headDim && Ix(sh.headDim, c, d) < |was|
    requires |now| == |was| && forall i :: 0 <= i < |was| && i != Ix(sh.headDim, c, d) ==> now[i] == was[i]
    ensures forall b, e :: 0 <= b <= c && 0 <= e < sh.headDim && (b < c || e < d) ==>
      PooledCell(sh, exp, x, st, was, b, e, replay) ==> PooledCell(sh, exp, x, st, now, b, e, replay)
  {
    hide Pool, BatchCands;
    forall b, e
      | 0 <= b <= c && 0 <= e < sh.headDim && (b < c || e < d) && PooledCell(sh, exp, x, st, was, b, e, replay)
      ensures PooledCell(sh, exp, x, st, now, b, e, replay)
    {
      if b < c { RowsApart(b, c, sh.headDim); }
      assert Ix(sh.headDim, b, e) != Ix(sh.headDim, c, d);
    }
  }

  function WindowCount(n: nat, ratio: nat): nat
    requires ratio > 0
  {
    n / ratio
  }

  lemma WindowFields(n: nat, ratio: nat)
    requires ratio > 0
    ensures Ix(ratio, WindowCount(n, ratio), 0) <= n < Ix(ratio, WindowCount(n, ratio), ratio)
  {
    Fields(n, ratio, n / ratio, n % ratio);
  }

  /** The state part of the prefill: clear, then the previous window and the open one. */
  method PrefillRows(sh: Shape, x: Input, nComp: nat, rem: nat, kv: array<real>, sc: array<Score>)
    requires Buffers(sh, kv, sc) && x.Valid(sh) && rem < sh.ratio && x.n == Ix(sh.ratio, nComp, rem)
    modifies kv, sc
    ensures StateOf(kv, sc) == PrefillState(sh, x, nComp, rem)
  {
    hide SetRows, Quiet, Shape.Width, Shape.Rows, PrefillState, Ix, Input.Valid;
    var cutoff := nComp * sh.ratio;
    RowCounts(sh);
    Cutoff(sh, x, nComp, rem, cutoff);
    PrefillStateIs(sh, x, nComp, rem);
    ClearState(sh, kv, sc);
    if sh.ratio == 4 {
      if cutoff >= sh.ratio { SetRowsKernel(sh, x, cutoff - sh.ratio, 0, sh.ratio, kv, sc); }
      if rem != 0 { SetRowsKernel(sh, x, cutoff, sh.ratio, rem, kv, sc); }
    } else if rem != 0 {
      SetRowsKernel(sh, x, cutoff, 0, rem, kv, sc);
    }
  }

  lemma Cutoff(sh: Shape, x: Input, nComp: nat, rem: nat, cutoff: nat)
    requires sh.Valid() && x.n == Ix(sh.ratio, nComp, rem) && cutoff == nComp * sh.ratio
    ensures cutoff + rem == x.n && Ix(sh.ratio, nComp, 0) == cutoff
  {
  }

  /** ds4_gpu_compressor_prefill_tensor up to pooling: nComp whole windows and rem tokens of an open one. */
  method Prefill(sh: Shape, exp: real -> real, x: Input, kv: array<real>, sc: array<Score>, comp: array<real>)
    returns (nComp: nat, rem: nat)
    requires Buffers(sh, kv, sc) && x.Valid(sh) && comp != kv
    requires Ix(sh.headDim, WindowCount(x.n, sh.ratio), 0) <= comp.Length
    modifies kv, sc, comp
    ensures rem < sh.ratio && x.n == Ix(sh.ratio, nComp, rem)
    ensures StateOf(kv, sc) == PrefillState(sh, x, nComp, rem)
    ensures forall c, d :: 0 <= c < nComp && 0 <= d < sh.headDim ==>
      PooledCell(sh, exp, x, StateOf(kv, sc), comp[..], c, d, false)
  {
    hide WindowCount, PooledCell, Shape.Width, Shape.Rows, PrefillState;
    nComp := WindowCount(x.n, sh.ratio);
    WindowFields(x.n, sh.ratio);
    var cutoff := nComp * sh.ratio;
    rem := x.n - cutoff;
    PrefillRows(sh, x, nComp, rem, kv, sc);
    PrefillPoolKernel(sh, exp, x, kv, sc, comp, nComp, false);
  }

  lemma RowCounts(sh: Shape)
    ensures sh.Rows() == if sh.ratio == 4 then 8 else sh.ratio
  {
  }

  lemma PrefillStateIs(sh: Shape, x: Input, c: nat, m: nat)
    requires sh.Valid() && x.Valid(sh) && m < sh.ratio && x.n == Ix(sh.ratio, c, m)
    ensures Quiet(sh).Valid(sh)
    ensures PrefillState(sh, x, c, m) ==
      var quiet, cutoff := Quiet(sh), Ix(sh.ratio, c, 0);
      if sh.ratio == 4 then
        var prev := if cutoff >= 4 then SetRows(sh, quiet, x, cutoff - 4, 0, 4) else quiet;
        if m != 0 then SetRows(sh, prev, x, cutoff, 4, m) else prev
      else if m != 0 then SetRows(sh, quiet, x, cutoff, 0, m) else quiet
  {
    QuietValid(sh);
    assert c > 0 <==> Ix(sh.ratio, c, 0) >= sh.ratio by { if c > 0 { AtLeast(c, sh.ratio); } }
    hide Quiet, SetRow;
  }
}
