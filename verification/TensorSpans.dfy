/**
 Merging tensor ranges into spans to preload, src/core/ds4.c:158-235. Caching a range on the accelerator is a
 parameter that says whether it succeeds.
 */
module TensorSpans {
  import opened ByteEncoding

  const GAP: nat := 65536
  const U64: nat := 0x1_0000_0000_0000_0000

  datatype Tensor = Tensor(absOffset: nat, bytes: nat)

  datatype Span = Span(off: nat, end: nat)

  // ---- the spans of a model ------------------------------------------------------------------

  predicate InFile(t: Tensor, size: nat) {
    t.bytes == 0 || (t.absOffset <= size && t.bytes <= size - t.absOffset)
  }

  /** The ranges of the tensors that are not empty, in directory order. */
  function Ranges(ts: seq<Tensor>): (s: seq<Span>)
    ensures forall k :: 0 <= k < |s| ==> s[k].off < s[k].end
  {
    if |ts| == 0 then [] else
    var t := ts[|ts| - 1];
    if t.bytes == 0 then Ranges(ts[..|ts| - 1]) else Ranges(ts[..|ts| - 1]) + [Span(t.absOffset, t.absOffset + t.bytes)]
  }

  /** accelerator_tensor_span_cmp: by offset, then by end. */
  predicate Before(a: Span, b: Span) {
    a.off < b.off || (a.off == b.off && a.end <= b.end)
  }

  ghost predicate Sorted(s: seq<Span>) {
    forall i, j :: 0 <= i < j < |s| ==> Before(s[i], s[j])
  }

  function Insert(s: seq<Span>, x: Span): (r: seq<Span>)
    ensures multiset(r) == multiset(s) + multiset{x}
  {
    if |s| == 0 || Before(s[|s| - 1], x) then s + [x] else
    assert s == s[..|s| - 1] + [s[|s| - 1]];
    Insert(s[..|s| - 1], x) + [s[|s| - 1]]
  }

  /** Stands for qsort with that comparison. */
  function Sort(s: seq<Span>): (r: seq<Span>)
    ensures multiset(r) == multiset(s)
  {
    if |s| == 0 then [] else
    assert s == s[..|s| - 1] + [s[|s| - 1]];
    Insert(Sort(s[..|s| - 1]), s[|s| - 1])
  }

  lemma {:induction false} InsertSorted(s: seq<Span>, x: Span)
    requires Sorted(s)
    ensures Sorted(Insert(s, x))
  {
    if |s| == 0 || Before(s[|s| - 1], x) {
    } else {
      var head, last := s[..|s| - 1], s[|s| - 1];
      InsertSorted(head, x);
      var r := Insert(head, x);
      forall i | 0 <= i < |r|
        ensures Before(r[i], last)
      {
        assert r[i] in multiset(r);
        assert r[i] == x || r[i] in multiset(head);
      }
    }
  }

  lemma {:induction false} SortSorted(s: seq<Span>)
    ensures Sorted(Sort(s))
  {
    if |s| == 0 {
    } else {
      SortSorted(s[..|s| - 1]);
      InsertSorted(Sort(s[..|s| - 1]), s[|s| - 1]);
    }
  }

  // ---- the plan ----------------------------------------------------------------------------------

  /** Merges spans i.. into [off, end) while they begin within the gap and fit; where that stops. */
  function Absorb(s: seq<Span>, i: nat, off: nat, end: nat, max: nat): (r: (nat, nat))
    requires i <= |s|
    ensures i <= r.0 <= |s| && end <= r.1
    decreases |s| - i
  {
    if i < |s| && s[i].off <= end + GAP && s[i].end - off <= max then
      Absorb(s, i + 1, off, if s[i].end > end then s[i].end else end, max)
    else (i, end)
  }

  /** Cuts [off, end) into pieces of at most max bytes. */
  function Cut(off: nat, end: nat, max: nat): seq<Span>
    requires max > 0
    decreases end - off
  {
    if off >= end then [] else
    var chunkEnd := if end - off > max then off + max else end;
    [Span(off, chunkEnd)] + Cut(chunkEnd, end, max)
  }

  /** The chunks cached for spans i... */
  function Plan(s: seq<Span>, i: nat, max: nat): seq<Span>
    requires i <= |s| && max > 0
    decreases |s| - i
  {
    if i == |s| then [] else
    var (j, end) := Absorb(s, i + 1, s[i].off, s[i].end, max);
    Cut(s[i].off, end, max) + Plan(s, j, max)
  }

  predicate Inside(b: nat, x: Span) { x.off <= b < x.end }

  ghost predicate Covered(b: nat, chunks: seq<Span>) {
    exists k :: 0 <= k < |chunks| && Inside(b, chunks[k])
  }

  /** A byte between two tensors that are at most GAP apart. */
  ghost predicate Bridged(b: nat, s: seq<Span>) {
    exists k, l :: 0 <= k < |s| && 0 <= l < |s| && s[k].end <= b < s[l].off <= s[k].end + GAP
  }

  /** Every piece ends at or before the next begins. */
  ghost predicate Ascending(chunks: seq<Span>) {
    forall i, j :: 0 <= i < j < |chunks| ==> chunks[i].end <= chunks[j].off
  }

  // ---- cutting -----------------------------------------------------------------------------------------

  lemma {:induction false} CutPieces(off: nat, end: nat, max: nat)
    requires max > 0
    ensures var c := Cut(off, end, max);
      && (forall k :: 0 <= k < |c| ==> off <= c[k].off < c[k].end <= end && c[k].end - c[k].off <= max)
      && Ascending(c)
    decreases end - off
  {
    if off < end {
      var chunkEnd := if end - off > max then off + max else end;
      CutPieces(chunkEnd, end, max);
    }
  }

  lemma {:induction false} CutCovers(off: nat, end: nat, max: nat, b: nat)
    requires max > 0
    ensures Covered(b, Cut(off, end, max)) <==> off <= b < end
    decreases end - off
  {
    if off < end {
      var chunkEnd := if end - off > max then off + max else end;
      CutCovers(chunkEnd, end, max, b);
      CoveredAppend(b, [Span(off, chunkEnd)], Cut(chunkEnd, end, max));
      assert Covered(b, [Span(off, chunkEnd)]) <==> off <= b < chunkEnd by {
        if off <= b < chunkEnd { assert Inside(b, [Span(off, chunkEnd)][0]); }
      }
    }
  }

  lemma CoveredAppend(b: nat, x: seq<Span>, y: seq<Span>)
    ensures Covered(b, x + y) <==> Covered(b, x) || Covered(b, y)
  {
    if Covered(b, x) {
      var k :| 0 <= k < |x| && Inside(b, x[k]);
      assert (x + y)[k] == x[k];
    }
    if Covered(b, y) {
      var k :| 0 <= k < |y| && Inside(b, y[k]);
      assert (x + y)[|x| + k] == y[k];
    }
    if Covered(b, x + y) {
      var k :| 0 <= k < |x + y| && Inside(b, (x + y)[k]);
      if k < |x| { assert Inside(b, x[k]); } else { assert Inside(b, y[k - |x|]); }
    }
  }

  // ---- absorbing ---------------------------------------------------------------------------------------

  lemma {:induction false} AbsorbEnds(s: seq<Span>, i: nat, off: nat, end: nat, max: nat)
    requires i <= |s|
    ensures var (j, e) := Absorb(s, i, off, end, max);
      && (forall k :: i <= k < j ==> s[k].end <= e)
      && (e == end || exists k :: i <= k < j && e == s[k].end)
    decreases |s| - i
  {
    if i < |s| && s[i].off <= end + GAP && s[i].end - off <= max {
      AbsorbEnds(s, i + 1, off, if s[i].end > end then s[i].end else end, max);
    }
  }

  /** Everything merged is a tensor byte or bridges a small gap. */
  lemma {:induction false} AbsorbBridges(s: seq<Span>, i: nat, off: nat, end: nat, max: nat, b: nat)
    requires i <= |s| && (exists k :: 0 <= k < |s| && end == s[k].end)
    requires off <= b < end ==> Covered(b, s) || Bridged(b, s)
    requires off <= b < Absorb(s, i, off, end, max).1
    ensures Covered(b, s) || Bridged(b, s)
    decreases |s| - i
  {
    if i < |s| && s[i].off <= end + GAP && s[i].end - off <= max {
      if end <= b < s[i].end {
        if b < s[i].off {
          var k :| 0 <= k < |s| && end == s[k].end;
          assert s[k].end <= b < s[i].off <= s[k].end + GAP;
        } else {
          assert Inside(b, s[i]);
        }
      }
      AbsorbBridges(s, i + 1, off, if s[i].end > end then s[i].end else end, max, b);
    }
  }

  // ---- the four properties --------------------------------------------------------------------------------

  /** Every byte of every tensor is cached. */
  lemma {:induction false} PlanCovers(s: seq<Span>, i: nat, max: nat, k: nat, b: nat)
    requires Sorted(s) && max > 0 && i <= k < |s| && Inside(b, s[k])
    ensures Covered(b, Plan(s, i, max))
    decreases |s| - i
  {
    hide Covered;
    var (j, end) := Absorb(s, i + 1, s[i].off, s[i].end, max);
    CoveredAppend(b, Cut(s[i].off, end, max), Plan(s, j, max));
    if k < j {
      AbsorbEnds(s, i + 1, s[i].off, s[i].end, max);
      CutCovers(s[i].off, end, max, b);
    } else {
      PlanCovers(s, j, max, k, b);
    }
  }

  /** Nothing is cached but tensor bytes and gaps of at most 64 KiB between tensors. */
  lemma {:induction false} PlanBridges(s: seq<Span>, i: nat, max: nat, b: nat)
    requires max > 0 && i <= |s| && Covered(b, Plan(s, i, max))
    ensures Covered(b, s) || Bridged(b, s)
    decreases |s| - i
  {
    if i < |s| {
      var (j, end) := Absorb(s, i + 1, s[i].off, s[i].end, max);
      CoveredAppend(b, Cut(s[i].off, end, max), Plan(s, j, max));
      if Covered(b, Plan(s, j, max)) {
        PlanBridges(s, j, max, b);
      } else {
        CutCovers(s[i].off, end, max, b);
        if b < s[i].end { assert Inside(b, s[i]); }
        AbsorbBridges(s, i + 1, s[i].off, s[i].end, max, b);
      }
    }
  }

  /** No chunk is empty, longer than max, or outside the file. */
  lemma {:induction false} PlanBounds(s: seq<Span>, i: nat, max: nat, size: nat, k: nat)
    requires max > 0 && i <= |s| && k < |Plan(s, i, max)| && forall l :: 0 <= l < |s| ==> s[l].end <= size
    ensures var x := Plan(s, i, max)[k]; x.off < x.end <= size && x.end - x.off <= max
    decreases |s| - i
  {
    var (j, end) := Absorb(s, i + 1, s[i].off, s[i].end, max);
    var cut := Cut(s[i].off, end, max);
    AbsorbEnds(s, i + 1, s[i].off, s[i].end, max);
    CutPieces(s[i].off, end, max);
    if k >= |cut| { PlanBounds(s, j, max, size, k - |cut|); }
  }

  /** For tensors that do not overlap, neither do the chunks. */
  lemma {:induction false} PlanDisjoint(s: seq<Span>, i: nat, max: nat)
    requires Ascending(s) && (forall k :: 0 <= k < |s| ==> s[k].off < s[k].end) && max > 0 && i <= |s|
    ensures Ascending(Plan(s, i, max))
    ensures i < |s| ==> forall k :: 0 <= k < |Plan(s, i, max)| ==> s[i].off <= Plan(s, i, max)[k].off
    decreases |s| - i
  {
    if i < |s| {
      var (j, end) := Absorb(s, i + 1, s[i].off, s[i].end, max);
      AbsorbEnds(s, i + 1, s[i].off, s[i].end, max);
      CutPieces(s[i].off, end, max);
      PlanDisjoint(s, j, max);
      if j < |s| { assert end <= s[j].off; }
    }
  }

  /** No merged span reaches into the span where the merging stopped. */
  predicate NoSplitInside(s: seq<Span>, i: nat, max: nat)
    requires i <= |s|
    decreases |s| - i
  {
    if i == |s| then true else
    var (j, end) := Absorb(s, i + 1, s[i].off, s[i].end, max);
    (j < |s| ==> end <= s[j].off) && NoSplitInside(s, j, max)
  }

  lemma {:induction false} CutEnds(off: nat, end: nat, max: nat)
    requires max > 0 && off < end
    ensures var c := Cut(off, end, max); |c| > 0 && c[0].off == off && c[|c| - 1].end == end
    decreases end - off
  {
    var chunkEnd := if end - off > max then off + max else end;
    if chunkEnd < end { CutEnds(chunkEnd, end, max); }
  }

  lemma AscendingAppend(a: seq<Span>, b: seq<Span>)
    ensures Ascending(a + b)
       <==> Ascending(a) && Ascending(b) && forall i, j :: 0 <= i < |a| && 0 <= j < |b| ==> a[i].end <= b[j].off
  {
    var c := a + b;
    if Ascending(c) {
      forall i, j | 0 <= i < j < |a| ensures a[i].end <= a[j].off { assert c[i] == a[i] && c[j] == a[j]; }
      forall i, j | 0 <= i < j < |b| ensures b[i].end <= b[j].off {
        assert c[|a| + i] == b[i] && c[|a| + j] == b[j];
      }
      forall i, j | 0 <= i < |a| && 0 <= j < |b| ensures a[i].end <= b[j].off {
        assert c[i] == a[i] && c[|a| + j] == b[j];
      }
    }
  }

  /** The chunks from span i on begin at or behind it, the first exactly there. */
  lemma {:induction false} PlanStarts(s: seq<Span>, i: nat, max: nat)
    requires Sorted(s) && max > 0 && i < |s| && forall k :: 0 <= k < |s| ==> s[k].off < s[k].end
    ensures |Plan(s, i, max)| > 0 && Plan(s, i, max)[0].off == s[i].off
    ensures forall k :: 0 <= k < |Plan(s, i, max)| ==> s[i].off <= Plan(s, i, max)[k].off
    decreases |s| - i
  {
    var (j, end) := Absorb(s, i + 1, s[i].off, s[i].end, max);
    CutEnds(s[i].off, end, max);
    CutPieces(s[i].off, end, max);
    if j < |s| {
      PlanStarts(s, j, max);
      assert Before(s[i], s[j]);
    }
  }

  /** The chunks do not overlap exactly when no merged span reaches into the next one. */
  lemma {:induction false} DisjointExactly(s: seq<Span>, i: nat, max: nat)
    requires Sorted(s) && max > 0 && i <= |s| && forall k :: 0 <= k < |s| ==> s[k].off < s[k].end
    ensures Ascending(Plan(s, i, max)) <==> NoSplitInside(s, i, max)
    decreases |s| - i
  {
    if i == |s| {
    } else {
      var (j, end) := Absorb(s, i + 1, s[i].off, s[i].end, max);
      DisjointExactly(s, j, max);
      CutEnds(s[i].off, end, max);
      CutPieces(s[i].off, end, max);
      AscendingAppend(Cut(s[i].off, end, max), Plan(s, j, max));
      if j < |s| { PlanStarts(s, j, max); }
      hide Cut, Absorb, Ascending, Sorted;
      assert Plan(s, i, max) == Cut(s[i].off, end, max) + Plan(s, j, max);
    }
  }

  const MIB: nat := 0x10_0000

  /** Overlapping tensors at the least span size that the program uses: 20 MiB are cached twice. */
  lemma OverlapCachesTwice()
    ensures Plan([Span(0, 40 * MIB), Span(20 * MIB, 80 * MIB)], 0, 64 * MIB)
         == [Span(0, 40 * MIB), Span(20 * MIB, 80 * MIB)]
    ensures !Ascending(Plan([Span(0, 40 * MIB), Span(20 * MIB, 80 * MIB)], 0, 64 * MIB))
  {
    var a, b, max := Span(0, 40 * MIB), Span(20 * MIB, 80 * MIB), 64 * MIB;
    var s := [a, b];
    assert Absorb(s, 1, a.off, a.end, max) == (1, a.end);
    assert Absorb(s, 2, b.off, b.end, max) == (2, b.end);
    assert Cut(a.off, a.end, max) == [a] && Cut(b.off, b.end, max) == [b];
    assert Plan(s, 2, max) == [];
    assert Plan(s, 1, max) == [b];
    assert Plan(s, 0, max)[0].end > Plan(s, 0, max)[1].off;
  }

  // ---- bytes ------------------------------------------------------------------------------------------------

  function Total(chunks: seq<Span>): int {
    if |chunks| == 0 then 0 else Total(chunks[..|chunks| - 1]) + (chunks[|chunks| - 1].end - chunks[|chunks| - 1].off)
  }

  ghost function Bytes(chunks: seq<Span>, size: nat): set<nat> {
    set b: nat | b < size && Covered(b, chunks)
  }

  function Range(a: nat, b: nat): (r: set<nat>)
    ensures forall x :: x in r <==> a <= x < b
    ensures a <= b ==> |r| == b - a
    decreases b
  {
    if a >= b then {} else Range(a, b - 1) + {b - 1}
  }

  lemma BytesAppend(head: seq<Span>, last: Span, size: nat)
    requires last.end <= size
    ensures Bytes(head + [last], size) == Bytes(head, size) + Range(last.off, last.end)
  {
    forall b: nat
      ensures b in Bytes(head + [last], size) <==> b in Bytes(head, size) + Range(last.off, last.end)
    {
      CoveredAppend(b, head, [last]);
      if b in Range(last.off, last.end) { assert Inside(b, [last][0]); }
    }
  }

  /** Disjoint chunks: their total length is the number of bytes they cover. */
  lemma {:induction false} TotalIsBytes(chunks: seq<Span>, size: nat)
    requires Ascending(chunks) && forall k :: 0 <= k < |chunks| ==> chunks[k].off < chunks[k].end <= size
    ensures Total(chunks) == |Bytes(chunks, size)|
  {
    if |chunks| == 0 {
      assert Bytes(chunks, size) == {};
    } else {
      var head, last := chunks[..|chunks| - 1], chunks[|chunks| - 1];
      TotalIsBytes(head, size);
      assert chunks == head + [last];
      BytesAppend(head, last, size);
      assert Bytes(head, size) !! Range(last.off, last.end) by { hide Range; }
      hide Bytes, Range, Covered;
      assert |Bytes(head, size) + Range(last.off, last.end)| == |Bytes(head, size)| + |Range(last.off, last.end)|;
    }
  }

  // ---- the routine --------------------------------------------------------------------------------------------

  /** The ranges and whether every tensor lies in the file. */
  method CollectSpans(ts: seq<Tensor>, size: nat) returns (spans: Option<seq<Span>>)
    ensures spans.Some? <==> forall t :: t in ts ==> InFile(t, size)
    ensures spans.Some? ==>
      spans.value == Ranges(ts) && forall k :: 0 <= k < |spans.value| ==> spans.value[k].end <= size
  {
    var s: seq<Span> := [];
    var i := 0;
    assert ts[..0] == [];
    while i < |ts|
      invariant 0 <= i <= |ts| && s == Ranges(ts[..i])
      invariant forall k :: 0 <= k < i ==> InFile(ts[k], size)
      invariant forall k :: 0 <= k < |s| ==> s[k].end <= size
    {
      var t := ts[i];
      assert ts[..i + 1][..i] == ts[..i];
      if t.bytes != 0 {
        if t.absOffset > size || t.bytes > size - t.absOffset {
          assert t in ts && !InFile(t, size);
          return None;
        }
        s := s + [Span(t.absOffset, t.absOffset + t.bytes)];
      }
      i := i + 1;
    }
    assert ts[..i] == ts;
    return Some(s);
  }

  /** What the caching routine was asked for, in order. */
  datatype Outcome = Outcome(ok: bool, cached: int, chunks: seq<Span>)

  predicate AllAccepted(accepts: Span -> bool, chunks: seq<Span>) {
    forall k :: 0 <= k < |chunks| ==> accepts(chunks[k])
  }

  lemma AcceptedAppend(accepts: Span -> bool, a: seq<Span>, b: seq<Span>)
    ensures AllAccepted(accepts, a + b) <==> AllAccepted(accepts, a) && AllAccepted(accepts, b)
  {
    assert forall k :: 0 <= k < |a| ==> (a + b)[k] == a[k];
    assert forall k :: 0 <= k < |b| ==> (a + b)[|a| + k] == b[k];
  }

  lemma {:induction false} TotalAppend(a: seq<Span>, b: seq<Span>)
    ensures Total(a + b) == Total(a) + Total(b)
  {
    if |b| == 0 {
      assert a + b == a;
    } else {
      assert (a + b)[..|a + b| - 1] == a + b[..|b| - 1];
      TotalAppend(a, b[..|b| - 1]);
    }
  }

  /** The inner merging loop. */
  method AbsorbSpans(spans: seq<Span>, i0: nat, off: nat, end0: nat, max: nat) returns (i: nat, end: nat)
    requires i0 <= |spans|
    ensures (i, end) == Absorb(spans, i0, off, end0, max)
  {
    i, end := i0, end0;
    while i < |spans| && spans[i].off <= end + GAP && spans[i].end - off <= max
      invariant i0 <= i <= |spans| && Absorb(spans, i, off, end, max) == Absorb(spans, i0, off, end0, max)
      decreases |spans| - i
    {
      if spans[i].end > end { end := spans[i].end; }
      i := i + 1;
    }
  }

  /** The loop that cuts a merged span and caches the pieces. */
  method CachePieces(off0: nat, end: nat, max: nat, accepts: Span -> bool) returns (r: Outcome)
    requires max > 0
    ensures r.ok <==> AllAccepted(accepts, Cut(off0, end, max))
    ensures r.ok ==> r.chunks == Cut(off0, end, max) && r.cached == Total(r.chunks)
    ensures !r.ok ==> r.chunks <= Cut(off0, end, max)
  {
    ghost var plan := Cut(off0, end, max);
    var off, cached, chunks := off0, 0, [];
    assert plan == [] + plan;
    while off < end
      invariant plan == chunks + Cut(off, end, max)
      invariant cached == Total(chunks) && AllAccepted(accepts, chunks)
      decreases end - off
    {
      var chunkEnd := end;
      if chunkEnd - off > max { chunkEnd := off + max; }
      var chunk := Span(off, chunkEnd);
      ghost var rest := Cut(chunkEnd, end, max);
      assert chunks + ([chunk] + rest) == chunks + [chunk] + rest;
      assert plan[|chunks|] == chunk;
      if !accepts(chunk) {
        assert chunks <= plan;
        return Outcome(false, cached, chunks);
      }
      TotalAppend(chunks, [chunk]);
      assert [chunk][..0] == [];
      chunks := chunks + [chunk];
      cached := cached + (chunkEnd - off);
      off := chunkEnd;
    }
    assert plan == chunks;
    return Outcome(true, cached, chunks);
  }

  /**
   accelerator_cache_model_tensor_spans. The file is shorter than 2^64 - 64 KiB, so that end + 65536 does not wrap.
   `accepts` says whether caching a range succeeds; the first failure ends the routine.
   */
  method CacheTensorSpans(ts: seq<Tensor>, size: nat, max: nat, accepts: Span -> bool) returns (r: Outcome)
    requires max > 0 && size + GAP < U64
    ensures (exists t :: t in ts && !InFile(t, size)) ==> !r.ok && r.chunks == []
    ensures (forall t :: t in ts ==> InFile(t, size)) ==>
      var plan := Plan(Sort(Ranges(ts)), 0, max);
      && (r.ok <==> AllAccepted(accepts, plan))
      && (r.ok ==> r.chunks == plan && r.cached == Total(plan))
      && (!r.ok ==> r.chunks <= plan)
  {
    hide AllAccepted, Total, Cut, Absorb, Plan, Sort, Ranges, InFile;
    var collected := CollectSpans(ts, size);
    if collected == None { return Outcome(false, 0, []); }
    var spans := Sort(collected.value);
    ghost var plan := Plan(spans, 0, max);
    var cached, chunks := 0, [];
    NothingYet(accepts);
    var i := 0;
    assert plan == [] + plan;
    PlanEnd(spans, max);
    while i < |spans|
      invariant 0 <= i <= |spans|
      invariant plan == chunks + Plan(spans, i, max)
      invariant cached == Total(chunks) && AllAccepted(accepts, chunks)
    {
      var off := spans[i].off;
      var j, end := AbsorbSpans(spans, i + 1, off, spans[i].end, max);
      ghost var cut, tail := Cut(off, end, max), Plan(spans, j, max);
      PlanStep(spans, i, max, j, end, chunks, plan);
      AcceptedAppend(accepts, chunks + cut, tail);
      AcceptedAppend(accepts, chunks, cut);
      TotalAppend(chunks, cut);
      var piece := CachePieces(off, end, max, accepts);
      if !piece.ok {
        PrefixGrows(chunks, piece.chunks, cut, tail);
        return Outcome(false, cached + piece.cached, chunks + piece.chunks);
      }
      chunks := chunks + piece.chunks;
      cached := cached + piece.cached;
      i := j;
    }
    assert plan == chunks;
    return Outcome(true, cached, chunks);
  }

  lemma PlanEnd(s: seq<Span>, max: nat)
    requires max > 0
    ensures Plan(s, |s|, max) == []
  {
  }

  lemma PlanStep(s: seq<Span>, i: nat, max: nat, j: nat, end: nat, chunks: seq<Span>, plan: seq<Span>)
    requires max > 0 && i < |s| && (j, end) == Absorb(s, i + 1, s[i].off, s[i].end, max)
    requires plan == chunks + Plan(s, i, max)
    ensures plan == chunks + Cut(s[i].off, end, max) + Plan(s, j, max)
  {
    hide Cut, Absorb;
  }

  lemma PrefixGrows(chunks: seq<Span>, piece: seq<Span>, cut: seq<Span>, tail: seq<Span>)
    requires piece <= cut
    ensures chunks + piece <= chunks + cut + tail
  {
  }

  lemma NothingYet(accepts: Span -> bool)
    ensures AllAccepted(accepts, []) && Total([]) == 0
  {
  }

  lemma RangesInSort(s: seq<Span>, size: nat)
    requires forall k :: 0 <= k < |s| ==> s[k].off < s[k].end <= size
    ensures forall k :: 0 <= k < |Sort(s)| ==> Sort(s)[k].off < Sort(s)[k].end <= size
  {
    forall k | 0 <= k < |Sort(s)|
      ensures Sort(s)[k].off < Sort(s)[k].end <= size
    {
      assert Sort(s)[k] in multiset(Sort(s));
      assert Sort(s)[k] in multiset(s);
    }
  }

  // ---- what a successful run has cached ----------------------------------------------------------------------

  lemma {:induction false} RangeOf(ts: seq<Tensor>, n: nat)
    requires n < |ts| && ts[n].bytes > 0
    ensures Span(ts[n].absOffset, ts[n].absOffset + ts[n].bytes) in Ranges(ts)
  {
    if n < |ts| - 1 { RangeOf(ts[..|ts| - 1], n); }
  }

  /** Every byte of every tensor of the directory lies in a cached chunk. */
  lemma EveryTensorCached(ts: seq<Tensor>, max: nat, n: nat, b: nat)
    requires max > 0 && n < |ts| && ts[n].absOffset <= b < ts[n].absOffset + ts[n].bytes
    ensures Covered(b, Plan(Sort(Ranges(ts)), 0, max))
  {
    var s := Sort(Ranges(ts));
    var x := Span(ts[n].absOffset, ts[n].absOffset + ts[n].bytes);
    RangeOf(ts, n);
    SortSorted(Ranges(ts));
    assert x in multiset(Ranges(ts));
    assert x in multiset(s);
    var k :| 0 <= k < |s| && s[k] == x;
    PlanCovers(s, 0, max, k, b);
  }

  // ---- the directory -----------------------------------------------------------------------------------------

  predicate Disjoint(a: Span, b: Span) {
    a.end <= b.off || b.end <= a.off
  }

  /** No two entries overlap. */
  ghost predicate Apart(s: seq<Span>) {
    forall i, j :: 0 <= i < j < |s| ==> Disjoint(s[i], s[j])
  }

  /** No two tensors of the directory share a byte. */
  ghost predicate TensorsApart(ts: seq<Tensor>) {
    forall i, j :: 0 <= i < j < |ts| && ts[i].bytes > 0 && ts[j].bytes > 0 ==>
      || ts[i].absOffset + ts[i].bytes <= ts[j].absOffset
      || ts[j].absOffset + ts[j].bytes <= ts[i].absOffset
  }

  ghost predicate AllInFile(ts: seq<Tensor>, size: nat) {
    forall t :: t in ts ==> InFile(t, size)
  }

  lemma {:induction false} RangesInside(ts: seq<Tensor>, size: nat)
    requires AllInFile(ts, size)
    ensures forall k :: 0 <= k < |Ranges(ts)| ==> Ranges(ts)[k].off < Ranges(ts)[k].end <= size
  {
    if |ts| == 0 {
    } else {
      RangesInside(ts[..|ts| - 1], size);
      assert ts[|ts| - 1] in ts;
    }
  }

  /** A range comes from a tensor. */
  lemma {:induction false} RangeFrom(ts: seq<Tensor>, k: nat) returns (n: nat)
    requires k < |Ranges(ts)|
    ensures n < |ts| && ts[n].bytes > 0 && Ranges(ts)[k] == Span(ts[n].absOffset, ts[n].absOffset + ts[n].bytes)
  {
    if k == |Ranges(ts)| - 1 && ts[|ts| - 1].bytes > 0 {
      n := |ts| - 1;
    } else {
      n := RangeFrom(ts[..|ts| - 1], k);
    }
  }

  lemma {:induction false} RangesApart(ts: seq<Tensor>)
    requires TensorsApart(ts)
    ensures Apart(Ranges(ts))
  {
    if |ts| == 0 {
    } else {
      var front, last := ts[..|ts| - 1], ts[|ts| - 1];
      RangesApart(front);
      if last.bytes > 0 {
        forall k | 0 <= k < |Ranges(front)|
          ensures Disjoint(Ranges(front)[k], Span(last.absOffset, last.absOffset + last.bytes))
        {
          var n := RangeFrom(front, k);
          assert ts[n] == front[n];
        }
      }
    }
  }

  lemma {:induction false} InsertApart(s: seq<Span>, x: Span)
    requires Apart(s) && forall k :: 0 <= k < |s| ==> Disjoint(s[k], x)
    ensures Apart(Insert(s, x))
  {
    if |s| == 0 || Before(s[|s| - 1], x) {
    } else {
      var head, last := s[..|s| - 1], s[|s| - 1];
      InsertApart(head, x);
      var r := Insert(head, x);
      forall i | 0 <= i < |r|
        ensures Disjoint(r[i], last)
      {
        assert r[i] in multiset(r);
        assert r[i] == x || r[i] in multiset(head);
      }
    }
  }

  lemma {:induction false} SortApart(s: seq<Span>)
    requires Apart(s)
    ensures Apart(Sort(s))
  {
    if |s| == 0 {
    } else {
      var head, last := s[..|s| - 1], s[|s| - 1];
      SortApart(head);
      forall k | 0 <= k < |Sort(head)|
        ensures Disjoint(Sort(head)[k], last)
      {
        assert Sort(head)[k] in multiset(Sort(head));
        assert Sort(head)[k] in multiset(head);
      }
      InsertApart(Sort(head), last);
    }
  }

  lemma SortedApart(s: seq<Span>)
    requires Sorted(s) && Apart(s) && forall k :: 0 <= k < |s| ==> s[k].off < s[k].end
    ensures Ascending(s)
  {
    forall i, j | 0 <= i < j < |s|
      ensures s[i].end <= s[j].off
    {
      assert Before(s[i], s[j]) && Disjoint(s[i], s[j]);
    }
  }

  /** The sorted ranges of a directory inside the file. */
  lemma SpansOf(ts: seq<Tensor>, size: nat)
    requires AllInFile(ts, size)
    ensures var s := Sort(Ranges(ts));
      Sorted(s) && (TensorsApart(ts) ==> Ascending(s))
      && forall k :: 0 <= k < |s| ==> s[k].off < s[k].end <= size
  {
    hide Sort, Ranges, Apart, TensorsApart, Sorted, Ascending, AllInFile;
    RangesInside(ts, size);
    RangesInSort(Ranges(ts), size);
    SortSorted(Ranges(ts));
    if TensorsApart(ts) {
      RangesApart(ts);
      SortApart(Ranges(ts));
      SortedApart(Sort(Ranges(ts)));
    }
  }

  /** For every directory inside the file, no chunk is empty, longer than max or outside the file. */
  lemma DirectoryBounds(ts: seq<Tensor>, max: nat, size: nat, k: nat)
    requires max > 0 && AllInFile(ts, size) && k < |Plan(Sort(Ranges(ts)), 0, max)|
    ensures var x := Plan(Sort(Ranges(ts)), 0, max)[k]; x.off < x.end <= size && x.end - x.off <= max
  {
    hide Sort, Ranges, Plan, AllInFile;
    SpansOf(ts, size);
    PlanBounds(Sort(Ranges(ts)), 0, max, size, k);
  }

  /** Tensors that do not overlap give chunks that do not overlap. */
  lemma DirectoryDisjoint(ts: seq<Tensor>, max: nat, size: nat)
    requires max > 0 && AllInFile(ts, size) && TensorsApart(ts)
    ensures Ascending(Plan(Sort(Ranges(ts)), 0, max)) && NoSplitInside(Sort(Ranges(ts)), 0, max)
  {
    hide Sort, Ranges, Plan, AllInFile, TensorsApart, Ascending, NoSplitInside;
    SpansOf(ts, size);
    PlanDisjoint(Sort(Ranges(ts)), 0, max);
    DisjointExactly(Sort(Ranges(ts)), 0, max);
  }

  lemma BytesJoined(a: seq<Span>, b: seq<Span>, size: nat)
    ensures Bytes(a + b, size) == Bytes(a, size) + Bytes(b, size)
  {
    forall x: nat
      ensures x in Bytes(a + b, size) <==> x in Bytes(a, size) + Bytes(b, size)
    {
      CoveredAppend(x, a, b);
    }
  }

  /** Every byte counts at least once in the total. */
  lemma {:induction false} TotalAtLeast(chunks: seq<Span>, size: nat)
    requires forall k :: 0 <= k < |chunks| ==> chunks[k].off < chunks[k].end <= size
    ensures Total(chunks) >= |Bytes(chunks, size)|
  {
    if |chunks| == 0 {
      assert Bytes(chunks, size) == {};
    } else {
      var head, last := chunks[..|chunks| - 1], chunks[|chunks| - 1];
      TotalAtLeast(head, size);
      assert chunks == head + [last];
      BytesAppend(head, last, size);
      hide Bytes, Range, Covered;
      UnionSize(Bytes(head, size), Range(last.off, last.end));
    }
  }

  lemma UnionSize(a: set<nat>, b: set<nat>)
    ensures |a + b| + |a * b| == |a| + |b|
  {
    assert a + b == a + (b - a * b);
    assert |b| == |b - a * b| + |a * b| by { assert b == (b - a * b) + a * b; }
  }

  /** A byte in two chunks is counted twice. */
  lemma SharedByte(a: seq<Span>, b: seq<Span>, size: nat, x: nat)
    requires forall k :: 0 <= k < |a + b| ==> (a + b)[k].off < (a + b)[k].end <= size
    requires Covered(x, a) && Covered(x, b) && x < size
    ensures Total(a + b) > |Bytes(a + b, size)|
  {
    assert forall k :: 0 <= k < |a| ==> a[k] == (a + b)[k];
    assert forall k :: 0 <= k < |b| ==> b[k] == (a + b)[|a| + k];
    TotalAtLeast(a, size);
    TotalAtLeast(b, size);
    TotalAppend(a, b);
    BytesJoined(a, b, size);
    assert x in Bytes(a, size) * Bytes(b, size);
    hide Bytes, Covered, Total;
    UnionSize(Bytes(a, size), Bytes(b, size));
    assert |Bytes(a, size) * Bytes(b, size)| > 0;
  }

  /** What is counted twice in a part is counted twice in the whole. */
  lemma MoreAppended(a: seq<Span>, b: seq<Span>, size: nat)
    requires forall k :: 0 <= k < |a + b| ==> (a + b)[k].off < (a + b)[k].end <= size
    requires Total(b) > |Bytes(b, size)|
    ensures Total(a + b) > |Bytes(a + b, size)|
  {
    assert forall k :: 0 <= k < |a| ==> a[k] == (a + b)[k];
    hide *;
    TotalAtLeast(a, size);
    TotalAppend(a, b);
    BytesJoined(a, b, size);
    UnionSize(Bytes(a, size), Bytes(b, size));
  }

  lemma PlanInside(s: seq<Span>, i: nat, max: nat, size: nat)
    requires max > 0 && i <= |s| && forall l :: 0 <= l < |s| ==> s[l].end <= size
    ensures forall k :: 0 <= k < |Plan(s, i, max)| ==> Plan(s, i, max)[k].off < Plan(s, i, max)[k].end <= size
  {
    hide Plan;
    forall k | 0 <= k < |Plan(s, i, max)|
      ensures Plan(s, i, max)[k].off < Plan(s, i, max)[k].end <= size
    {
      PlanBounds(s, i, max, size, k);
    }
  }

  /** A span that a merged one reaches into begins in a chunk of both. */
  lemma SplitShares(s: seq<Span>, i: nat, max: nat, j: nat, end: nat, size: nat)
    requires Sorted(s) && max > 0 && i < |s| && forall k :: 0 <= k < |s| ==> s[k].off < s[k].end <= size
    requires (j, end) == Absorb(s, i + 1, s[i].off, s[i].end, max) && j < |s| && s[j].off < end
    ensures Covered(s[j].off, Cut(s[i].off, end, max)) && Covered(s[j].off, Plan(s, j, max))
  {
    assert Before(s[i], s[j]);
    hide Absorb, Sorted;
    PlanStarts(s, j, max);
    PlanInside(s, j, max, size);
    CutCovers(s[i].off, end, max, s[j].off);
    hide Plan, Cut;
    assert Inside(s[j].off, Plan(s, j, max)[0]);
  }

  lemma PlanUnfold(s: seq<Span>, i: nat, max: nat, j: nat, end: nat)
    requires max > 0 && i < |s| && (j, end) == Absorb(s, i + 1, s[i].off, s[i].end, max)
    ensures Plan(s, i, max) == Cut(s[i].off, end, max) + Plan(s, j, max)
    ensures NoSplitInside(s, i, max) <==> (j < |s| ==> end <= s[j].off) && NoSplitInside(s, j, max)
  {
    hide Cut, Absorb;
  }

  /** The total is the number of bytes cached exactly when the chunks do not overlap. */
  lemma {:induction false} TotalExactly(s: seq<Span>, i: nat, max: nat, size: nat)
    requires Sorted(s) && max > 0 && i <= |s| && forall k :: 0 <= k < |s| ==> s[k].off < s[k].end <= size
    ensures Total(Plan(s, i, max)) == |Bytes(Plan(s, i, max), size)| <==> NoSplitInside(s, i, max)
    decreases |s| - i
  {
    assert i == |s| ==> NoSplitInside(s, i, max);
    hide *;
    PlanInside(s, i, max, size);
    DisjointExactly(s, i, max);
    if NoSplitInside(s, i, max) {
      TotalIsBytes(Plan(s, i, max), size);
    } else {
      var (j, end) := Absorb(s, i + 1, s[i].off, s[i].end, max);
      var cut, rest := Cut(s[i].off, end, max), Plan(s, j, max);
      PlanUnfold(s, i, max, j, end);
      TotalExactly(s, j, max, size);
      if NoSplitInside(s, j, max) {
        SplitShares(s, i, max, j, end, size);
        SharedByte(cut, rest, size, s[j].off);
      } else {
        PlanInside(s, j, max, size);
        TotalAtLeast(rest, size);
        MoreAppended(cut, rest, size);
      }
    }
  }

  /**
   For every directory inside the file, `cached` is the number of bytes cached exactly when no merged span reaches into
   the next one; it always is when the tensors do not overlap.
   */
  lemma CachedIsExact(ts: seq<Tensor>, max: nat, size: nat)
    requires max > 0 && AllInFile(ts, size)
    ensures var s := Sort(Ranges(ts));
      Total(Plan(s, 0, max)) == |Bytes(Plan(s, 0, max), size)| <==> NoSplitInside(s, 0, max)
    ensures TensorsApart(ts) ==> NoSplitInside(Sort(Ranges(ts)), 0, max)
  {
    hide Sort, Ranges, Plan, AllInFile, TensorsApart, Ascending, NoSplitInside, Bytes, Total;
    SpansOf(ts, size);
    TotalExactly(Sort(Ranges(ts)), 0, max, size);
    if TensorsApart(ts) { DirectoryDisjoint(ts, max, size); }
  }
}
