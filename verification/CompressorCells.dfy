/**
 Which cells are pooled into which row, by their offsets in the buffers (src/gpu/ds4_cuda_compressor.cuh:57-177), and
 the softmax law for the rows.
 */
module CompressorCells {
  import opened Pooling
  import opened Compressor

  /** Floats in a row of the state and of the projected tokens: ratio 4 keeps two heads side by side. */
  function RowLength(sh: Shape): nat { if sh.ratio == 4 then 2 * sh.headDim else sh.headDim }

  /** c is cell j of row r of the state. */
  ghost predicate IsStateCell(sh: Shape, st: State, r: nat, j: nat, c: Cand) {
    var i := r * RowLength(sh) + j;
    i < |st.kv| && i < |st.sc| && c == Cand(st.kv[i], st.sc[i])
  }

  /** c is cell j of token t, its score with the positional term of the place of position pos0 + t in its window. */
  ghost predicate IsTokenCell(sh: Shape, x: Input, t: nat, j: nat, c: Cand) {
    && sh.ratio > 0
    && var i, p := t * RowLength(sh) + j, (x.pos0 + t) % sh.ratio * RowLength(sh) + j;
       i < |x.kv| && i < |x.sc| && p < |x.ape| && c == Cand(x.kv[i], Fin(x.sc[i] + x.ape[p]))
  }

  /**
   The cells that the update kernel pools for column d: column d of the first `ratio` rows; with ratio 4 also column d
   of the second head in the four rows behind.
   */
  ghost predicate FromState(sh: Shape, st: State, d: nat, c: seq<Cand>) {
    && |c| == (if sh.ratio == 4 then 8 else sh.ratio)
    && (forall r :: 0 <= r < sh.ratio ==> IsStateCell(sh, st, r, d, c[r]))
    && (sh.ratio == 4 ==> forall r :: 4 <= r < 8 ==> IsStateCell(sh, st, r, sh.headDim + d, c[r]))
  }

  /**
   The cells that the prefill kernel pools for row w and column d: the tokens of window w, with ratio 4 of the second
   head; before them, with ratio 4, the first head of window w - 1, for row 0 of a replay of the first four rows of the
   state.
   */
  ghost predicate FromTokens(sh: Shape, x: Input, w: nat, d: nat, replay: bool, st: State, c: seq<Cand>) {
    var lead := Lead(sh, w, replay);
    && |c| == lead + sh.ratio
    && (forall r :: 0 <= r < lead ==>
          if w == 0 then IsStateCell(sh, st, r, d, c[r]) else IsTokenCell(sh, x, (w - 1) * sh.ratio + r, d, c[r]))
    && forall r :: lead <= r < lead + sh.ratio ==>
         IsTokenCell(sh, x, w * sh.ratio + r - lead, if sh.ratio == 4 then sh.headDim + d else d, c[r])
  }

  lemma RowLengthIs(sh: Shape)
    ensures sh.Width() == RowLength(sh)
  {
  }

  lemma StateCellIs(sh: Shape, st: State, r: nat, j: nat, c: Cand)
    requires st.Valid(sh) && r < sh.Rows() && j < sh.Width()
    ensures IsStateCell(sh, st, r, j, c) <==> c == StateCand(sh, st, r, j)
  {
    RowLengthIs(sh);
    IxFields(sh.Width(), r, j, sh.Rows());
    hide RowLength, Shape.Width, Shape.Rows;
  }

  lemma TokenCellIs(sh: Shape, x: Input, t: nat, j: nat, c: Cand)
    requires x.Valid(sh) && t < x.n && j < sh.Width()
    ensures IsTokenCell(sh, x, t, j, c) <==> c == TokenCand(sh, x, t, j)
  {
    RowLengthIs(sh);
    InputInside(sh, x, t, j);
    hide RowLength, Shape.Width;
  }

  /** The update kernel's candidates are these cells. */
  lemma StateCandsExactly(sh: Shape, st: State, d: nat, c: seq<Cand>)
    requires st.Valid(sh) && d < sh.headDim
    ensures FromState(sh, st, d, c) <==> c == StateCands(sh, st, d)
  {
    var all := StateCands(sh, st, d);
    if |c| == |all| {
      hide IsStateCell, StateCand;
      forall r: nat | r < |c|
        ensures IsStateCell(sh, st, r, if sh.ratio == 4 && r >= 4 then sh.headDim + d else d, c[r]) <==> c[r] == all[r]
      {
        StateCellIs(sh, st, r, if sh.ratio == 4 && r >= 4 then sh.headDim + d else d, c[r]);
      }
    }
  }

  lemma WindowCells(sh: Shape, x: Input, w: nat, j: nat, r: nat, c: Cand)
    requires x.Valid(sh) && Ix(sh.ratio, w, sh.ratio - 1) < x.n && j < sh.Width() && r < sh.ratio
    ensures IsTokenCell(sh, x, w * sh.ratio + r, j, c) <==> c == WindowCands(sh, x, w, j)[r]
  {
    hide IsTokenCell, TokenCand;
    TokenCellIs(sh, x, Ix(sh.ratio, w, r), j, c);
  }

  /** How many cells of an earlier window are pooled first. */
  function Lead(sh: Shape, w: nat, replay: bool): nat { if sh.ratio == 4 && (replay || w > 0) then 4 else 0 }

  lemma LeadCells(sh: Shape, x: Input, w: nat, d: nat, replay: bool, st: State, r: nat, c: Cand)
    requires x.Valid(sh) && st.Valid(sh) && Ix(sh.ratio, w, sh.ratio - 1) < x.n && d < sh.headDim
    requires r < Lead(sh, w, replay)
    ensures |BatchCands(sh, x, w, d, replay, st)| == Lead(sh, w, replay) + sh.ratio
    ensures (if w == 0 then IsStateCell(sh, st, r, d, c) else IsTokenCell(sh, x, (w - 1) * sh.ratio + r, d, c))
       <==> c == BatchCands(sh, x, w, d, replay, st)[r]
  {
    hide IsStateCell, StateCand, IsTokenCell, WindowCands;
    if w == 0 {
      StateCellIs(sh, st, r, d, c);
    } else {
      RowsApart(w - 1, w, sh.ratio);
      WindowCells(sh, x, w - 1, d, r, c);
    }
  }

  lemma OwnCells(sh: Shape, x: Input, w: nat, d: nat, replay: bool, st: State, r: nat, c: Cand)
    requires x.Valid(sh) && st.Valid(sh) && Ix(sh.ratio, w, sh.ratio - 1) < x.n && d < sh.headDim && r < sh.ratio
    ensures |BatchCands(sh, x, w, d, replay, st)| == Lead(sh, w, replay) + sh.ratio
    ensures IsTokenCell(sh, x, w * sh.ratio + r, if sh.ratio == 4 then sh.headDim + d else d, c)
       <==> c == BatchCands(sh, x, w, d, replay, st)[Lead(sh, w, replay) + r]
  {
    hide IsStateCell, StateCand, IsTokenCell, WindowCands;
    WindowCells(sh, x, w, if sh.ratio == 4 then sh.headDim + d else d, r, c);
    if w > 0 { RowsApart(w - 1, w, sh.ratio); }
  }

  /** The prefill kernel's candidates are these cells. */
  lemma BatchCandsExactly(sh: Shape, x: Input, w: nat, d: nat, replay: bool, st: State, c: seq<Cand>)
    requires x.Valid(sh) && st.Valid(sh) && Ix(sh.ratio, w, sh.ratio - 1) < x.n && d < sh.headDim
    ensures FromTokens(sh, x, w, d, replay, st, c) <==> c == BatchCands(sh, x, w, d, replay, st)
  {
    hide IsStateCell, IsTokenCell, BatchCands;
    var all := BatchCands(sh, x, w, d, replay, st);
    var lead, j := Lead(sh, w, replay), if sh.ratio == 4 then sh.headDim + d else d;
    OwnCells(sh, x, w, d, replay, st, 0, Cand(0.0, NegInf));
    if |c| == |all| {
      forall r: nat | r < lead
        ensures (if w == 0 then IsStateCell(sh, st, r, d, c[r])
                 else IsTokenCell(sh, x, (w - 1) * sh.ratio + r, d, c[r]))
           <==> c[r] == all[r]
      {
        LeadCells(sh, x, w, d, replay, st, r, c[r]);
      }
      forall r: nat | lead <= r < lead + sh.ratio
        ensures IsTokenCell(sh, x, w * sh.ratio + r - lead, j, c[r]) <==> c[r] == all[r]
      {
        OwnCells(sh, x, w, d, replay, st, r - lead, c[r]);
      }
    }
  }

  /** A row pooled from the state: the softmax mean of its cells. */
  lemma StateRowIsSoftmax(sh: Shape, exp: real -> real, st: State, d: nat, c: seq<Cand>)
    requires st.Valid(sh) && d < sh.headDim && IsExp(exp) && FromState(sh, st, d, c)
    ensures Softmax(exp, c, Pool(exp, StateCands(sh, st, d)))
  {
    hide Softmax, Pool, FromState, StateCands, IsExp;
    StateCandsExactly(sh, st, d, c);
    PoolIsSoftmax(exp, c);
  }

  /** A row pooled from the tokens. */
  lemma BatchRowIsSoftmax(sh: Shape, exp: real -> real, x: Input, w: nat, d: nat, replay: bool, st: State, c: seq<Cand>)
    requires x.Valid(sh) && st.Valid(sh) && Ix(sh.ratio, w, sh.ratio - 1) < x.n && d < sh.headDim
    requires IsExp(exp) && FromTokens(sh, x, w, d, replay, st, c)
    ensures Softmax(exp, c, Pool(exp, BatchCands(sh, x, w, d, replay, st)))
  {
    hide Softmax, Pool, FromTokens, BatchCands, IsExp;
    BatchCandsExactly(sh, x, w, d, replay, st, c);
    PoolIsSoftmax(exp, c);
  }
}
