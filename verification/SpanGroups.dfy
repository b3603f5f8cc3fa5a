/**
 What the plan of cached chunks is, said of the sorted spans alone (src/core/ds4.c:199-231): which spans are merged, and
 how a merged span is cut.
 */
module SpanGroups {
  import opened TensorSpans

  /** e is the highest end of spans i..k. */
  ghost predicate Reach(s: seq<Span>, i: nat, k: nat, e: nat) {
    && i < k <= |s| && (exists l :: i <= l < k && s[l].end == e)
    && forall l :: i <= l < k ==> s[l].end <= e
  }

  /** Span k begins at most 64 KiB behind spans i..k and ends within max of the begin of span i. */
  ghost predicate Joins(s: seq<Span>, i: nat, k: nat, max: nat) {
    && i < k < |s| && s[k].end - s[i].off <= max
    && exists e: nat :: Reach(s, i, k, e) && s[k].off <= e + 65536
  }

  /** Spans i..j are merged: each of them joins those before it, and the next one does not. */
  ghost predicate Group(s: seq<Span>, i: nat, j: nat, end: nat, max: nat) {
    && Reach(s, i, j, end)
    && (forall k :: i < k < j ==> Joins(s, i, k, max)) && !Joins(s, i, j, max)
  }

  /** Consecutive pieces of [off, end), all but the last of length max and that no longer. */
  ghost predicate Pieces(off: nat, end: nat, max: nat, c: seq<Span>) {
    && |c| > 0 && c[0].off == off && c[|c| - 1].end == end
    && (forall k :: 0 <= k < |c| ==> c[k].off < c[k].end <= c[k].off + max)
    && forall k :: 0 <= k < |c| - 1 ==> c[k].end == c[k].off + max == c[k + 1].off
  }

  /** The chunks for the spans from i on: group after group, each cut into pieces. */
  ghost predicate IsPlan(s: seq<Span>, i: nat, max: nat, chunks: seq<Span>)
    requires i <= |s|
    decreases |s| - i
  {
    if i == |s| then chunks == [] else
    exists j: nat, end: nat, n: nat :: Group(s, i, j, end, max) && n <= |chunks|
      && Pieces(s[i].off, end, max, chunks[..n]) && IsPlan(s, j, max, chunks[n..])
  }

  // ---- the groups -----------------------------------------------------------------------------------------

  lemma ReachOnce(s: seq<Span>, i: nat, k: nat, e: nat, f: nat)
    requires Reach(s, i, k, e) && Reach(s, i, k, f)
    ensures e == f
  {
  }

  lemma ReachMore(s: seq<Span>, i: nat, k: nat, e: nat)
    requires Reach(s, i, k, e) && k < |s|
    ensures Reach(s, i, k + 1, if s[k].end > e then s[k].end else e)
  {
  }

  lemma JoinsIs(s: seq<Span>, i: nat, k: nat, e: nat, max: nat)
    requires Reach(s, i, k, e)
    ensures Joins(s, i, k, max) <==> k < |s| && s[k].off <= e + GAP && s[k].end - s[i].off <= max
  {
    if Joins(s, i, k, max) {
      var f: nat :| Reach(s, i, k, f) && s[k].off <= f + 65536;
      ReachOnce(s, i, k, e, f);
    }
  }

  lemma {:induction false} AbsorbIsGroup(s: seq<Span>, i: nat, k: nat, end: nat, max: nat)
    requires Reach(s, i, k, end) && forall l :: i < l < k ==> Joins(s, i, l, max)
    ensures Group(s, i, Absorb(s, k, s[i].off, end, max).0, Absorb(s, k, s[i].off, end, max).1, max)
    decreases |s| - k
  {
    hide Joins, Reach;
    assert i < k <= |s| by { ReachInside(s, i, k, end); }
    JoinsIs(s, i, k, end, max);
    if Joins(s, i, k, max) {
      ReachMore(s, i, k, end);
      AbsorbIsGroup(s, i, k + 1, if s[k].end > end then s[k].end else end, max);
    }
  }

  lemma ReachInside(s: seq<Span>, i: nat, k: nat, e: nat)
    requires Reach(s, i, k, e)
    ensures i < k <= |s| && exists l :: i <= l < k && s[l].end == e
  {
  }

  lemma GroupOnce(s: seq<Span>, i: nat, j: nat, end: nat, j': nat, end': nat, max: nat)
    requires Group(s, i, j, end, max) && Group(s, i, j', end', max)
    ensures j == j' && end == end'
  {
    ReachInside(s, i, j, end);
    ReachInside(s, i, j', end');
    hide Joins, Reach;
    assert j == j';
    ReachOnce(s, i, j, end, end');
  }

  // ---- the pieces -----------------------------------------------------------------------------------------

  lemma {:induction false} CutIsPieces(off: nat, end: nat, max: nat)
    requires max > 0 && off < end
    ensures Pieces(off, end, max, Cut(off, end, max))
    decreases end - off
  {
    if end - off > max { CutIsPieces(off + max, end, max); }
  }

  /** A plan whose first pieces cut the same range has the same pieces. */
  lemma {:induction false} PiecesOnce(off: nat, end: nat, max: nat, a: seq<Span>, b: seq<Span>)
    requires Pieces(off, end, max, a) && Pieces(off, end, max, b)
    ensures a == b
    decreases |a|
  {
    FirstPiece(off, end, max, a);
    FirstPiece(off, end, max, b);
    assert a == [a[0]] + a[1..] && b == [b[0]] + b[1..];
    if end > off + max { PiecesOnce(off + max, end, max, a[1..], b[1..]); }
  }

  lemma FirstPiece(off: nat, end: nat, max: nat, c: seq<Span>)
    requires Pieces(off, end, max, c)
    ensures c[0] == Span(off, if end > off + max then off + max else end)
    ensures if end > off + max then Pieces(off + max, end, max, c[1..]) else |c| == 1
  {
    if |c| == 1 {
    } else {
      assert c[0].end == off + max == c[1].off;
      PiecesRise(off, end, max, c, |c| - 1);
    }
  }

  lemma {:induction false} PiecesRise(off: nat, end: nat, max: nat, c: seq<Span>, k: nat)
    requires Pieces(off, end, max, c) && 1 <= k < |c|
    ensures c[k].end > off + max
  {
    assert c[0].end == c[0].off + max == c[0 + 1].off;
    if k > 1 {
      PiecesRise(off, end, max, c, k - 1);
      assert c[k - 1].end == c[k - 1].off + max == c[k - 1 + 1].off;
    }
  }

  // ---- the plan -------------------------------------------------------------------------------------------

  lemma PlanParts(s: seq<Span>, i: nat, max: nat, chunks: seq<Span>) returns (j: nat, end: nat, n: nat)
    requires i < |s| && IsPlan(s, i, max, chunks)
    ensures Group(s, i, j, end, max) && i < j <= |s| && n <= |chunks|
    ensures Pieces(s[i].off, end, max, chunks[..n]) && IsPlan(s, j, max, chunks[n..])
  {
    j, end, n :| Group(s, i, j, end, max) && n <= |chunks|
      && Pieces(s[i].off, end, max, chunks[..n]) && IsPlan(s, j, max, chunks[n..]);
  }

  /** The plan is this, and nothing else is. */
  lemma {:induction false} PlanExactly(s: seq<Span>, i: nat, max: nat, chunks: seq<Span>)
    requires max > 0 && i <= |s| && forall k :: 0 <= k < |s| ==> s[k].off < s[k].end
    ensures IsPlan(s, i, max, chunks) <==> chunks == Plan(s, i, max)
    decreases |s| - i
  {
    hide Joins, Reach, Pieces, Absorb, Cut, Group;
    if i == |s| {
    } else {
      var (j, end) := Absorb(s, i + 1, s[i].off, s[i].end, max);
      FirstGroup(s, i, max, j, end);
      var cut := Cut(s[i].off, end, max);
      CutIsPieces(s[i].off, end, max);
      if IsPlan(s, i, max, chunks) {
        var j', end', n := PlanParts(s, i, max, chunks);
        GroupOnce(s, i, j, end, j', end', max);
        PiecesOnce(s[i].off, end, max, cut, chunks[..n]);
        PlanExactly(s, j, max, chunks[n..]);
        assert chunks == chunks[..n] + chunks[n..];
      }
      if chunks == Plan(s, i, max) {
        assert chunks[..|cut|] == cut && chunks[|cut|..] == Plan(s, j, max);
        PlanExactly(s, j, max, chunks[|cut|..]);
      }
    }
  }

  lemma FirstGroup(s: seq<Span>, i: nat, max: nat, j: nat, end: nat)
    requires i < |s| && (j, end) == Absorb(s, i + 1, s[i].off, s[i].end, max)
    requires forall k :: 0 <= k < |s| ==> s[k].off < s[k].end
    ensures Group(s, i, j, end, max) && i < j <= |s| && s[i].off < end
  {
    assert s[i].end == s[i].end && Reach(s, i, i + 1, s[i].end);
    hide Joins;
    AbsorbIsGroup(s, i, i + 1, s[i].end, max);
    AbsorbEnds(s, i + 1, s[i].off, s[i].end, max);
  }
}
