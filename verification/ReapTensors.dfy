/**
 The tensors of a pruned layer: router rows and biases, expert slabs and their second scales,
 gguf-tools/deepseek4-quantize.c:1428-1483, 1571-1634, 1763-1807, 1809-1848, 2233-2250. What the source model holds for
 an expert is an input; reading an expert that it does not have is death.
 */
module ReapTensors {
  import opened ByteEncoding
  import opened ExpertWorkers
  import opened Reap

  const NEVER: real := -1.0e30

  // ---- what a slot gets ---------------------------------------------------------------------------------

  /**
   The entry of the slot's expert, or the filler if that expert is not kept or not there; death if there is no slot.
   */
  function Picked<T>(lp: Option<LayerPlan>, src: seq<T>, slot: nat, filler: T): Option<T> {
    match SourceOf(lp, slot)
    case None => None
    case Some(expert) => if expert < |src| && IsKept(lp, expert) then Some(src[expert]) else Some(filler)
  }

  /** The same where a kept expert that is not there is death. */
  function Read<T>(lp: Option<LayerPlan>, src: seq<T>, slot: nat, filler: T): Option<T> {
    match SourceOf(lp, slot)
    case None => None
    case Some(expert) =>
      if !IsKept(lp, expert) then Some(filler) else if expert < |src| then Some(src[expert]) else None
  }

  /** Row e of a matrix. */
  ghost function Row(m: array2<real>, e: nat): (r: seq<real>)
    requires e < m.Length0
    reads m
    ensures |r| == m.Length1 && forall c :: 0 <= c < m.Length1 ==> r[c] == m[e, c]
  {
    seq(m.Length1, c requires 0 <= c < m.Length1 reads m => m[e, c])
  }

  function ZeroRow(n: nat): (r: seq<real>)
    ensures |r| == n && forall c :: 0 <= c < n ==> r[c] == 0.0
  {
    seq(n, _ => 0.0)
  }

  /** The loop of generate_reap_router_weight; false is death. */
  method RouterWeight(lp: Option<LayerPlan>, src: seq<seq<real>>, dst: array2<real>) returns (ok: bool)
    requires forall x :: 0 <= x < |src| ==> |src[x]| == dst.Length1
    requires forall e, c :: 0 <= e < dst.Length0 && 0 <= c < dst.Length1 ==> dst[e, c] == 0.0
    modifies dst
    ensures ok <==> forall e :: 0 <= e < dst.Length0 ==> SourceOf(lp, e).Some?
    ensures ok ==> forall e :: 0 <= e < dst.Length0 ==> Some(Row(dst, e)) == Picked(lp, src, e, ZeroRow(dst.Length1))
  {
    for e := 0 to dst.Length0
      invariant forall k :: 0 <= k < e ==> SourceOf(lp, k).Some?
      invariant forall k :: 0 <= k < e ==> Some(Row(dst, k)) == Picked(lp, src, k, ZeroRow(dst.Length1))
      invariant forall k, c :: e <= k < dst.Length0 && 0 <= c < dst.Length1 ==> dst[k, c] == 0.0
    {
      var source := SourceOf(lp, e);
      if source == None { return false; }
      var expert := source.value;
      ghost var rows := seq(e, k requires 0 <= k < e reads dst => Row(dst, k));
      if expert < |src| && IsKept(lp, expert) {
        CopyRow(src[expert], dst, e);
        assert Row(dst, e) == src[expert];
      } else {
        assert Row(dst, e) == ZeroRow(dst.Length1);
      }
      forall k | 0 <= k < e ensures Row(dst, k) == rows[k] {}
    }
    return true;
  }

  /** memcpy of a row */
  method CopyRow(row: seq<real>, dst: array2<real>, e: nat)
    requires e < dst.Length0 && |row| == dst.Length1
    modifies dst
    ensures forall c :: 0 <= c < dst.Length1 ==> dst[e, c] == row[c]
    ensures forall k, c :: 0 <= k < dst.Length0 && k != e && 0 <= c < dst.Length1 ==> dst[k, c] == old(dst[k, c])
  {
    for c := 0 to dst.Length1
      invariant forall j :: 0 <= j < c ==> dst[e, j] == row[j]
      invariant forall k, j :: 0 <= k < dst.Length0 && k != e && 0 <= j < dst.Length1 ==> dst[k, j] == old(dst[k, j])
    {
      dst[e, c] := row[c];
    }
  }

  /** The loops of generate_reap_router_bias. */
  method RouterBias(lp: Option<LayerPlan>, src: seq<real>, dst: array<real>) returns (ok: bool)
    modifies dst
    ensures ok <==> forall e :: 0 <= e < dst.Length ==> SourceOf(lp, e).Some?
    ensures ok ==> forall e :: 0 <= e < dst.Length ==> Some(dst[e]) == Picked(lp, src, e, NEVER)
  {
    for e := 0 to dst.Length
      invariant forall k :: 0 <= k < e ==> dst[k] == NEVER
    {
      dst[e] := NEVER;
    }
    for e := 0 to dst.Length
      invariant forall k :: 0 <= k < e ==> SourceOf(lp, k).Some? && Some(dst[k]) == Picked(lp, src, k, NEVER)
      invariant forall k :: e <= k < dst.Length ==> dst[k] == NEVER
    {
      var source := SourceOf(lp, e);
      if source == None { return false; }
      if source.value < |src| && IsKept(lp, source.value) { dst[e] := src[source.value]; }
    }
    return true;
  }

  /** The loop of generate_nvfp4_scale2, given the second scale of each source expert. */
  method Scales2(lp: Option<LayerPlan>, src: seq<real>, scales: array<real>) returns (ok: bool)
    requires forall e :: 0 <= e < scales.Length ==> scales[e] == 0.0
    modifies scales
    ensures ok <==> forall e :: 0 <= e < scales.Length ==> Read(lp, src, e, 0.0).Some?
    ensures ok ==> forall e :: 0 <= e < scales.Length ==> Some(scales[e]) == Read(lp, src, e, 0.0)
  {
    for e := 0 to scales.Length
      invariant forall k :: 0 <= k < e ==> Some(scales[k]) == Read(lp, src, k, 0.0)
    {
      var source := SourceOf(lp, e);
      if source == None { assert Read(lp, src, e, 0.0) == None; return false; }
      if !IsKept(lp, source.value) {
        scales[e] := 0.0;
      } else {
        if source.value >= |src| { assert Read(lp, src, e, 0.0) == None; return false; }
        scales[e] := src[source.value];
      }
    }
    return true;
  }

  /** generate_one_expert: the bytes for a slot, given those of each source expert. */
  function Slab(lp: Option<LayerPlan>, src: seq<seq<byte>>, slot: nat, zero: seq<byte>): Option<seq<byte>> {
    Read(lp, src, slot, zero)
  }

  // ---- the layer as a whole --------------------------------------------------------------------------------

  /** The source model: per expert a router row, a bias, and for w1, w2 and w3 a slab and a second scale. */
  datatype Source = Source(rows: seq<seq<real>>, bias: seq<real>, slabs: seq<seq<seq<byte>>>, scales: seq<seq<real>>) {
    predicate Has(n: nat) {
      && |rows| == n && |bias| == n && |slabs| == 3 && |scales| == 3
      && forall p :: 0 <= p < 3 ==> |slabs[p]| == n && |scales[p]| == n
    }
  }

  /** A slot of a layer takes everything from one expert. */
  ghost predicate FromOne(lp: Option<LayerPlan>, src: Source, n: nat, slot: nat, expert: nat)
    requires src.Has(n)
  {
    && expert < n
    && (forall zero: seq<real> :: Picked(lp, src.rows, slot, zero) == Some(src.rows[expert]))
    && Picked(lp, src.bias, slot, NEVER) == Some(src.bias[expert])
    && (forall p, zero: seq<byte> :: 0 <= p < 3 ==> Slab(lp, src.slabs[p], slot, zero) == Some(src.slabs[p][expert]))
    && (forall p :: 0 <= p < 3 ==> Read(lp, src.scales[p], slot, 0.0) == Some(src.scales[p][expert]))
  }

  /** The listed experts exist in the source. */
  predicate Fits(lp: Option<LayerPlan>, n: nat) {
    || lp == None
    || lp.value.disabled
    || (lp.value.hasKeepSet && lp.value.expertCount <= n
        && forall i :: 0 <= i < |lp.value.keep| ==> lp.value.keep[i] < lp.value.expertCount)
  }

  /** Router row, bias, the three slabs and the three second scales of a slot come from the same expert. */
  lemma SlotIsOneExpert(lp: Option<LayerPlan>, src: Source, n: nat, slot: nat)
    requires src.Has(n) && Fits(lp, n) && slot < Physical(lp, n)
    ensures SourceOf(lp, slot).Some? && FromOne(lp, src, n, slot, SourceOf(lp, slot).value)
  {
    var expert := SourceOf(lp, slot).value;
    assert IsKept(lp, expert) && expert < n;
  }

  // ---- the threads -------------------------------------------------------------------------------------------

  /** The work of generate_expert for a tensor: a slab for each slot. */
  function JobOf(lp: Option<LayerPlan>, src: seq<seq<byte>>, slots: nat, zero: seq<byte>): (job: Job)
    requires forall s :: 0 <= s < slots ==> Slab(lp, src, s, zero).Some?
    ensures |job.slabs| == slots && forall s :: 0 <= s < slots ==> Some(job.slabs[s]) == Slab(lp, src, s, zero)
  {
    Job(seq(slots, s requires 0 <= s < slots => Slab(lp, src, s, zero).value), |zero|)
  }

  lemma JobIsValid(lp: Option<LayerPlan>, src: seq<seq<byte>>, slots: nat, zero: seq<byte>)
    requires forall x :: 0 <= x < |src| ==> |src[x]| == |zero|
    requires forall s :: 0 <= s < slots ==> Slab(lp, src, s, zero).Some?
    ensures JobOf(lp, src, slots, zero).Valid()
  {
    forall s | 0 <= s < slots ensures |JobOf(lp, src, slots, zero).slabs[s]| == |zero| {
      assert Some(JobOf(lp, src, slots, zero).slabs[s]) == Slab(lp, src, s, zero);
    }
  }

  /** However the threads interleave, the tensor ends up with the slab of the slot's own expert in every slot. */
  lemma TensorIsFilled(lp: Option<LayerPlan>, src: seq<seq<byte>>, n: nat, zero: seq<byte>, m: nat,
                       states: seq<State>, steps: seq<Step>)
    requires |src| == n && (forall x :: 0 <= x < n ==> |src[x]| == |zero|) && Fits(lp, n)
    requires forall s :: 0 <= s < Physical(lp, n) ==> Slab(lp, src, s, zero).Some?
    requires m > 0 && IsRun(JobOf(lp, src, Physical(lp, n), zero), m, states, steps) && AllExited(states[|steps|])
    ensures var out := states[|steps|].out;
      |out| == Physical(lp, n) && forall s :: 0 <= s < |out| ==>
        SourceOf(lp, s).Some? && SourceOf(lp, s).value < n && out[s] == src[SourceOf(lp, s).value]
  {
    assert |states| == |steps| + 1;
    hide IsRun, AllExited;
    var job := JobOf(lp, src, Physical(lp, n), zero);
    RunFillsEverySlab(job, m, states, steps);
    var out := states[|steps|].out;
    forall s | 0 <= s < |out|
      ensures SourceOf(lp, s).Some? && SourceOf(lp, s).value < n && out[s] == src[SourceOf(lp, s).value]
    {
      assert Some(job.slabs[s]) == Slab(lp, src, s, zero);
      assert IsKept(lp, SourceOf(lp, s).value);
    }
  }

  /** The work of the threads is well-formed: any number of them can start on it. */
  lemma TensorRunStarts(lp: Option<LayerPlan>, src: seq<seq<byte>>, slots: nat, zero: seq<byte>, m: nat, s: State)
    requires forall x :: 0 <= x < |src| ==> |src[x]| == |zero|
    requires forall k :: 0 <= k < slots ==> Slab(lp, src, k, zero).Some?
    requires Init(JobOf(lp, src, slots, zero), m, s)
    ensures IsRun(JobOf(lp, src, slots, zero), m, [s], [])
  {
    hide Init, Follows;
    JobIsValid(lp, src, slots, zero);
  }

  /** Every run ends, and no thread is stuck before that. */
  lemma TensorRunEnds(lp: Option<LayerPlan>, src: seq<seq<byte>>, slots: nat, zero: seq<byte>, m: nat,
                      states: seq<State>, steps: seq<Step>)
    requires forall k :: 0 <= k < slots ==> Slab(lp, src, k, zero).Some?
    requires IsRun(JobOf(lp, src, slots, zero), m, states, steps)
    ensures |steps| <= Rank(JobOf(lp, src, slots, zero), states[0])
    ensures !AllExited(states[|steps|]) ==>
      exists step: Step :: Enabled(JobOf(lp, src, slots, zero), states[|steps|], step)
  {
    var job := JobOf(lp, src, slots, zero);
    assert |states| == |steps| + 1;
    RunIsBounded(job, m, states, steps, |steps|);
    RunKeepsInv(job, m, states, steps, |steps|);
    var last := states[|steps|];
    if !AllExited(last) {
      var t :| 0 <= t < |last.threads| && last.threads[t] != Exited;
      hide Inv, IsRun, Enabled;
      var step := NeverStuck(job, last, t);
    }
  }
}
