/**
 Expert pruning plans: loading one, gguf-tools/deepseek4-quantize.c:934-993, which expert a slot of a compact tensor
 holds, 995-1031, the metadata about it, 2012-2029, 2073-2092, and what the loader then expects,
 src/model/ds4_weights.c:314-320, 377-391, 618-671.
 */
module Reap {
  import opened ByteEncoding
  import opened GgufProvenance

  const MAX_EXPERTS: nat := 4096
  const N_EXPERT: nat := 256
  const N_HASH_LAYER: nat := 3

  const POLICY_NONE: nat := 0
  const POLICY_HASH_PRESERVED: nat := 1
  const POLICY_ROUTER_MASK_PRUNED: nat := 2
  const POLICY_MOE_DISABLED: nat := 3

  // ---- plans --------------------------------------------------------------------------------------------

  /** What the plan file says of a layer. */
  datatype LayerText =
    LayerText(expertCount: Option<int>, disabled: bool, hashRouted: bool, keepExperts: Option<seq<int>>)

  /** A layer of a plan; keep is the list of kept experts in slot order. */
  datatype LayerPlan = LayerPlan(disabled: bool, hashRouted: bool, hasKeepSet: bool, expertCount: nat, keep: seq<nat>)

  /** The list without repetitions, first occurrences first. */
  function Distinct(ids: seq<nat>): seq<nat> {
    if |ids| == 0 then [] else
    var front, last := Distinct(ids[..|ids| - 1]), ids[|ids| - 1];
    if last in front then front else front + [last]
  }

  predicate NoRepeats(ids: seq<nat>) {
    forall i, j :: 0 <= i < j < |ids| ==> ids[i] != ids[j]
  }

  lemma {:induction false} DistinctFacts(ids: seq<nat>)
    ensures NoRepeats(Distinct(ids)) && |Distinct(ids)| <= |ids|
    ensures forall e :: e in Distinct(ids) <==> e in ids
  {
    if |ids| > 0 { DistinctFacts(ids[..|ids| - 1]); }
  }

  function Upto(n: nat): (r: seq<nat>)
    ensures |r| == n && forall i :: 0 <= i < n ==> r[i] == i
  {
    seq(n, i => i)
  }

  predicate InRange(ids: seq<int>) {
    forall i :: 0 <= i < |ids| ==> 0 <= ids[i] < MAX_EXPERTS
  }

  function AsNats(ids: seq<int>): (r: seq<nat>)
    requires InRange(ids)
    ensures |r| == |ids| && forall i :: 0 <= i < |r| ==> r[i] == ids[i]
  {
    seq(|ids|, i requires 0 <= i < |ids| => ids[i])
  }

  /** The plan of a layer, or death on a number out of range. */
  function PlanOf(t: LayerText): Option<LayerPlan> {
    var count := if t.expertCount.Some? then t.expertCount.value else 0;
    if count < 0 || count > MAX_EXPERTS then None
    else if t.keepExperts.Some? && !InRange(t.keepExperts.value) then None
    else if t.keepExperts.Some? then
      Some(LayerPlan(t.disabled, t.hashRouted, true, count, Distinct(AsNats(t.keepExperts.value))))
    else if !t.disabled && count > 0 then Some(LayerPlan(t.disabled, t.hashRouted, true, count, Upto(count)))
    else Some(LayerPlan(t.disabled, t.hashRouted, false, count, []))
  }

  /** What every loaded plan satisfies. */
  predicate Loadable(lp: LayerPlan) {
    && NoRepeats(lp.keep) && lp.expertCount <= MAX_EXPERTS && |lp.keep| <= MAX_EXPERTS
    && (forall i :: 0 <= i < |lp.keep| ==> lp.keep[i] < MAX_EXPERTS)
    && (!lp.hasKeepSet ==> lp.keep == [] && (lp.disabled || lp.expertCount == 0))
  }

  lemma {:induction false} NoRepeatsFits(ids: seq<nat>, n: nat)
    requires NoRepeats(ids) && forall i :: 0 <= i < |ids| ==> ids[i] < n
    ensures |ids| <= n
  {
    CountBelowAll(ids, n);
    CountIsBelow(ids, n);
    CountAtMost(ids, n);
  }

  lemma PlanIsLoadable(t: LayerText)
    ensures PlanOf(t).Some? ==> Loadable(PlanOf(t).value)
  {
    if PlanOf(t).Some? && t.keepExperts.Some? {
      var ids := AsNats(t.keepExperts.value);
      DistinctFacts(ids);
      assert forall i :: 0 <= i < |Distinct(ids)| ==> Distinct(ids)[i] in ids;
      NoRepeatsFits(Distinct(ids), MAX_EXPERTS);
    }
  }

  /** A list with a new id is not full. */
  lemma MoreFits(ids: seq<nat>, e: nat)
    requires NoRepeats(ids) && e !in ids && e < MAX_EXPERTS && forall i :: 0 <= i < |ids| ==> ids[i] < MAX_EXPERTS
    ensures |ids| < MAX_EXPERTS
  {
    NoRepeatsFits(ids + [e], MAX_EXPERTS);
  }

  /** The kept experts of the first i entries. */
  function Seen(ids: seq<int>, i: nat): seq<nat>
    requires i <= |ids| && InRange(ids[..i])
  {
    Distinct(AsNats(ids[..i]))
  }

  lemma SeenStep(ids: seq<int>, i: nat)
    requires i < |ids| && InRange(ids[..i])
    ensures InRange(ids[..i + 1]) <==> 0 <= ids[i] < MAX_EXPERTS
    ensures InRange(ids[..i + 1]) ==>
      Seen(ids, i + 1) == if ids[i] in Seen(ids, i) then Seen(ids, i) else Seen(ids, i) + [ids[i]]
    ensures InRange(ids[..i + 1]) && ids[i] !in Seen(ids, i) ==> |Seen(ids, i)| < MAX_EXPERTS
  {
    assert ids[..i + 1] == ids[..i] + [ids[i]];
    var before := AsNats(ids[..i]);
    if 0 <= ids[i] < MAX_EXPERTS {
      assert AsNats(ids[..i + 1]) == before + [ids[i]];
      assert (before + [ids[i]])[..i] == before;
      DistinctFacts(before);
      assert forall k :: 0 <= k < |Distinct(before)| ==> Distinct(before)[k] in before;
      if ids[i] !in Distinct(before) { MoreFits(Distinct(before), ids[i]); }
    } else {
      assert ids[..i + 1][i] == ids[i];
    }
  }

  lemma InRangePart(ids: seq<int>, i: nat)
    requires i <= |ids| && InRange(ids)
    ensures InRange(ids[..i])
  {
  }

  /** reap_fill_keep_array: the list and the flags beside it. */
  method FillKeep(ids: seq<int>, keepSet: array<bool>, keepList: array<nat>) returns (nKeep: Option<nat>)
    requires keepSet.Length == MAX_EXPERTS == keepList.Length && forall e :: 0 <= e < MAX_EXPERTS ==> !keepSet[e]
    modifies keepSet, keepList
    ensures nKeep.Some? <==> InRange(ids)
    ensures nKeep.Some? ==> nKeep.value <= MAX_EXPERTS && keepList[..nKeep.value] == Distinct(AsNats(ids))
    ensures nKeep.Some? ==> forall e :: 0 <= e < MAX_EXPERTS ==> (keepSet[e] <==> e in keepList[..nKeep.value])
  {
    hide InRange, Distinct, AsNats, Seen;
    var n := 0;
    assert InRange(ids[..0]) && Seen(ids, 0) == [] by { NothingSeen(ids); }
    for i := 0 to |ids|
      invariant InRange(ids[..i]) && n <= MAX_EXPERTS && keepList[..n] == Seen(ids, i)
      invariant forall e :: 0 <= e < MAX_EXPERTS ==> (keepSet[e] <==> e in keepList[..n])
    {
      var expert := ids[i];
      SeenStep(ids, i);
      if expert < 0 || expert >= MAX_EXPERTS {
        if InRange(ids) { InRangePart(ids, i + 1); }
        return None;
      }
      ghost var was := keepList[..n];
      if !keepSet[expert] {
        keepList[n] := expert;
        n := n + 1;
        assert keepList[..n] == was + [expert];
      }
      keepSet[expert] := true;
    }
    assert InRange(ids) && Seen(ids, |ids|) == Distinct(AsNats(ids)) by { AllSeen(ids); }
    return Some(n);
  }

  lemma NothingSeen(ids: seq<int>)
    ensures InRange(ids[..0]) && Seen(ids, 0) == []
  {
  }

  lemma AllSeen(ids: seq<int>)
    requires InRange(ids[..|ids|])
    ensures InRange(ids) && Seen(ids, |ids|) == Distinct(AsNats(ids))
  {
    assert ids[..|ids|] == ids;
  }

  /** The layer part of reap_load_plan; the flags mark the experts of the list. */
  method LoadLayer(t: LayerText) returns (r: Option<LayerPlan>, keepSet: array<bool>)
    ensures r == PlanOf(t) && keepSet.Length == MAX_EXPERTS
    ensures r.Some? ==> forall e :: 0 <= e < MAX_EXPERTS ==> (keepSet[e] <==> e in r.value.keep)
  {
    hide Distinct, AsNats;
    var count := if t.expertCount.Some? then t.expertCount.value else 0;
    keepSet := new bool[MAX_EXPERTS](_ => false);
    if count < 0 || count > MAX_EXPERTS { return None, keepSet; }
    var keepList := new nat[MAX_EXPERTS](_ => 0);
    var nKeep, hasKeepSet := 0, false;
    if t.keepExperts.Some? {
      hasKeepSet := true;
      var filled := FillKeep(t.keepExperts.value, keepSet, keepList);
      if filled == None { return None, keepSet; }
      nKeep := filled.value;
    }
    assert forall k :: 0 <= k < MAX_EXPERTS ==> (keepSet[k] <==> k in keepList[..nKeep]);
    if !t.disabled && !hasKeepSet && count > 0 {
      hasKeepSet := true;
      for e := 0 to count
        invariant nKeep == e && keepList[..nKeep] == Upto(e)
        invariant forall k :: 0 <= k < MAX_EXPERTS ==> (keepSet[k] <==> k in keepList[..nKeep])
      {
        ghost var was := keepList[..nKeep];
        keepSet[e] := true;
        keepList[nKeep] := e;
        nKeep := nKeep + 1;
        assert keepList[..nKeep] == was + [e];
      }
    }
    r := Some(LayerPlan(t.disabled, t.hashRouted, hasKeepSet, count, keepList[..nKeep]));
  }

  // ---- slots ----------------------------------------------------------------------------------------------

  /** reap_compact_old_expert_for_slot: the expert that a slot holds, or death. */
  function SourceOf(lp: Option<LayerPlan>, slot: nat): Option<nat> {
    if lp == None || !lp.value.hasKeepSet then Some(slot)
    else if slot >= |lp.value.keep| then None
    else Some(lp.value.keep[slot])
  }

  /** reap_expert_slot_is_kept */
  predicate IsKept(lp: Option<LayerPlan>, expert: nat) {
    || lp == None
    || (!lp.value.disabled && expert < lp.value.expertCount && (!lp.value.hasKeepSet || expert in lp.value.keep))
  }

  /** reap_layer_physical_expert_count */
  function Physical(lp: Option<LayerPlan>, fallback: nat): nat {
    if lp == None then fallback
    else if lp.value.disabled then 0
    else if lp.value.hasKeepSet then |lp.value.keep|
    else if lp.value.expertCount > 0 then lp.value.expertCount else fallback
  }

  /** Different slots hold different experts, and the slots hold exactly the experts of the keep set. */
  lemma SlotsMatchKeepSet(lp: LayerPlan, fallback: nat)
    requires Loadable(lp) && lp.hasKeepSet && !lp.disabled
    ensures forall s :: 0 <= s < Physical(Some(lp), fallback) ==> SourceOf(Some(lp), s).Some?
    ensures forall s, u :: 0 <= s < u < Physical(Some(lp), fallback) ==> SourceOf(Some(lp), s) != SourceOf(Some(lp), u)
    ensures forall e ::
      e in lp.keep <==> exists s :: 0 <= s < Physical(Some(lp), fallback) && SourceOf(Some(lp), s) == Some(e)
  {
    forall e: nat
      ensures e in lp.keep <==> exists s :: 0 <= s < Physical(Some(lp), fallback) && SourceOf(Some(lp), s) == Some(e)
    {
      if e in lp.keep {
        var s :| 0 <= s < |lp.keep| && lp.keep[s] == e;
        assert SourceOf(Some(lp), s) == Some(e);
      }
    }
  }

  /** Slots are expert numbers exactly when the list counts up from zero; that is what a plan without a list gets. */
  lemma SlotsAreExperts(t: LayerText, fallback: nat)
    requires PlanOf(t).Some?
    ensures var lp := PlanOf(t);
      (forall s :: 0 <= s < Physical(lp, fallback) ==> SourceOf(lp, s) == Some(s))
      <==> lp.value.disabled || !lp.value.hasKeepSet || lp.value.keep == Upto(|lp.value.keep|)
    ensures t.keepExperts == None ==>
      forall s :: 0 <= s < Physical(PlanOf(t), fallback) ==> SourceOf(PlanOf(t), s) == Some(s)
  {
    var lp := PlanOf(t).value;
    if !lp.disabled && lp.hasKeepSet && forall s :: 0 <= s < |lp.keep| ==> SourceOf(Some(lp), s) == Some(s) {
      forall s | 0 <= s < |lp.keep| ensures lp.keep[s] == s { assert SourceOf(Some(lp), s) == Some(s); }
    }
    hide Distinct, InRange;
  }

  /** Every slot that is written holds a kept expert exactly when the listed experts exist, and when a layer of the plan
      that says nothing of its experts has none. */
  lemma SlotsAreKept(lp: LayerPlan, fallback: nat)
    requires Loadable(lp)
    ensures (forall s :: 0 <= s < Physical(Some(lp), fallback) ==>
               SourceOf(Some(lp), s).Some? && IsKept(Some(lp), SourceOf(Some(lp), s).value))
       <==> (if lp.disabled then true
             else if lp.hasKeepSet then forall i :: 0 <= i < |lp.keep| ==> lp.keep[i] < lp.expertCount
             else fallback == 0)
  {
    if !lp.disabled && lp.hasKeepSet {
      if s :| 0 <= s < |lp.keep| && lp.keep[s] >= lp.expertCount {
        assert SourceOf(Some(lp), s) == Some(lp.keep[s]) && !IsKept(Some(lp), lp.keep[s]);
      }
    } else if !lp.disabled && fallback > 0 {
      assert SourceOf(Some(lp), 0) == Some(0) && !IsKept(Some(lp), 0);
    }
  }

  /** For every layer that loads: distinct slots, exactly the listed experts, and kept ones exactly if they exist. */
  lemma LoadedSlots(t: LayerText, fallback: nat)
    requires PlanOf(t).Some?
    ensures var lp := PlanOf(t);
      !lp.value.disabled && lp.value.hasKeepSet ==>
        && (forall s, u :: 0 <= s < u < Physical(lp, fallback) ==> SourceOf(lp, s) != SourceOf(lp, u))
        && (forall e ::
              e in lp.value.keep <==> exists s :: 0 <= s < Physical(lp, fallback) && SourceOf(lp, s) == Some(e))
    ensures var lp := PlanOf(t);
      (forall s :: 0 <= s < Physical(lp, fallback) ==>
         SourceOf(lp, s).Some? && IsKept(lp, SourceOf(lp, s).value))
      <==> (if lp.value.disabled then true
            else if lp.value.hasKeepSet then
              forall i :: 0 <= i < |lp.value.keep| ==> lp.value.keep[i] < lp.value.expertCount
            else fallback == 0)
  {
    var lp := PlanOf(t).value;
    PlanIsLoadable(t);
    hide PlanOf, Loadable, SourceOf, Physical, IsKept;
    SlotsAreKept(lp, fallback);
    if lp.hasKeepSet && !lp.disabled { SlotsMatchKeepSet(lp, fallback); }
  }

  // ---- metadata ----------------------------------------------------------------------------------------------

  function One(b: bool): nat { if b then 1 else 0 }

  /** Experts below n that the list keeps. */
  function CountKept(keep: seq<nat>, n: nat): nat {
    if n == 0 then 0 else CountKept(keep, n - 1) + One(n - 1 in keep)
  }

  /** Entries of the list below n. */
  function Below(keep: seq<nat>, n: nat): nat {
    if |keep| == 0 then 0 else Below(keep[..|keep| - 1], n) + One(keep[|keep| - 1] < n)
  }

  lemma {:induction false} BelowStep(keep: seq<nat>, n: nat)
    requires NoRepeats(keep)
    ensures Below(keep, n + 1) == Below(keep, n) + One(n in keep)
  {
    if |keep| == 0 {
    } else {
      var front, last := keep[..|keep| - 1], keep[|keep| - 1];
      BelowStep(front, n);
      assert keep == front + [last];
      if last == n { assert n !in front; }
    }
  }

  lemma {:induction false} BelowZero(keep: seq<nat>)
    ensures Below(keep, 0) == 0
  {
    if |keep| > 0 { BelowZero(keep[..|keep| - 1]); }
  }

  /** Counting the kept experts counts the entries in range. */
  lemma {:induction false} CountIsBelow(keep: seq<nat>, n: nat)
    requires NoRepeats(keep)
    ensures CountKept(keep, n) == Below(keep, n)
  {
    if n == 0 { BelowZero(keep); } else { CountIsBelow(keep, n - 1); BelowStep(keep, n - 1); }
    hide NoRepeats;
  }

  lemma {:induction false} CountAtMost(keep: seq<nat>, n: nat)
    ensures CountKept(keep, n) <= n
  {
    if n > 0 { CountAtMost(keep, n - 1); }
  }

  lemma {:induction false} CountBelowAll(keep: seq<nat>, n: nat)
    ensures Below(keep, n) <= |keep|
    ensures Below(keep, n) == |keep| <==> forall i :: 0 <= i < |keep| ==> keep[i] < n
    ensures Below(keep, n) == 0 <==> forall i :: 0 <= i < |keep| ==> keep[i] >= n
  {
    if |keep| == 0 {
    } else {
      CountBelowAll(keep[..|keep| - 1], n);
      assert forall i :: 0 <= i < |keep| - 1 ==> keep[i] == keep[..|keep| - 1][i];
    }
  }

  /** reap_layer_keep_count */
  function KeepCount(lp: Option<LayerPlan>): nat {
    if lp == None || lp.value.disabled then 0
    else if lp.value.hasKeepSet then CountKept(lp.value.keep, lp.value.expertCount) else lp.value.expertCount
  }

  method CountLayer(lp: Option<LayerPlan>) returns (n: nat)
    ensures n == KeepCount(lp)
  {
    if lp == None || lp.value.disabled || lp.value.expertCount <= 0 { return 0; }
    n := 0;
    for e := 0 to lp.value.expertCount
      invariant n == if lp.value.hasKeepSet then CountKept(lp.value.keep, e) else e
    {
      if !lp.value.hasKeepSet || e in lp.value.keep { n := n + 1; }
    }
  }

  /** reap_layer_policy */
  function Policy(lp: Option<LayerPlan>): nat {
    if lp == None then POLICY_NONE
    else if lp.value.disabled then POLICY_MOE_DISABLED
    else if lp.value.hashRouted then POLICY_HASH_PRESERVED
    else if lp.value.hasKeepSet && lp.value.expertCount > 0 && KeepCount(lp) < lp.value.expertCount then
      POLICY_ROUTER_MASK_PRUNED
    else POLICY_NONE
  }

  function CountOf(lp: Option<LayerPlan>): nat { if lp == None then 0 else lp.value.expertCount }

  ghost predicate Plan(layers: seq<Option<LayerPlan>>) {
    |layers| == LAYERS && forall il :: 0 <= il < |layers| ==> layers[il] == None || Loadable(layers[il].value)
  }

  /** write_reap_kvs: the three arrays. */
  method DescribePlan(path: Option<seq<byte>>, layers: seq<Option<LayerPlan>>) returns (r: ReapRecord)
    requires Plan(layers)
    ensures r.path == path && |r.policy| == LAYERS && |r.expertCount| == LAYERS && |r.keepCount| == LAYERS
    ensures forall il :: 0 <= il < LAYERS ==>
      && r.policy[il] == Policy(layers[il]) && r.expertCount[il] == CountOf(layers[il])
      && r.keepCount[il] == KeepCount(layers[il])
  {
    hide Policy, KeepCount;
    var policy, expertCount, keepCount := [], [], [];
    for il := 0 to LAYERS
      invariant |policy| == il && |expertCount| == il && |keepCount| == il
      invariant forall k :: 0 <= k < il ==>
        policy[k] == Policy(layers[k]) && expertCount[k] == CountOf(layers[k]) && keepCount[k] == KeepCount(layers[k])
    {
      var n := CountLayer(layers[il]);
      policy := policy + [Policy(layers[il])];
      expertCount := expertCount
        + [if layers[il].Some? && layers[il].value.expertCount > 0 then layers[il].value.expertCount else 0];
      keepCount := keepCount + [n];
    }
    r := ReapRecord(path, policy, expertCount, keepCount);
  }

  // ---- the loader ----------------------------------------------------------------------------------------------

  /** A layer of the loaded model, as far as pruning goes. */
  datatype LayerWeights = LayerWeights(policy: nat, expertCount: nat, keepCount: nat, moeDisabled: bool)

  /** weights_apply_reap_metadata refuses. */
  predicate Refused(policy: nat, il: nat) {
    policy > POLICY_MOE_DISABLED || (policy == POLICY_MOE_DISABLED && il < N_HASH_LAYER)
  }

  /** The loop of weights_apply_reap_metadata. */
  method ApplyReapMetadata(r: ReapRecord) returns (layers: Option<seq<LayerWeights>>)
    requires |r.policy| == LAYERS && |r.expertCount| == LAYERS && |r.keepCount| == LAYERS
    ensures layers == None <==> exists il :: 0 <= il < LAYERS && Refused(r.policy[il], il)
    ensures layers.Some? ==> |layers.value| == LAYERS && forall il :: 0 <= il < LAYERS ==>
      layers.value[il]
        == LayerWeights(r.policy[il], r.expertCount[il], r.keepCount[il], r.policy[il] == POLICY_MOE_DISABLED)
  {
    var done: seq<LayerWeights> := [];
    for il := 0 to LAYERS
      invariant |done| == il && forall k :: 0 <= k < il ==> !Refused(r.policy[k], k)
      invariant forall k :: 0 <= k < il ==>
        done[k] == LayerWeights(r.policy[k], r.expertCount[k], r.keepCount[k], r.policy[k] == POLICY_MOE_DISABLED)
    {
      var moeDisabled := r.policy[il] == POLICY_MOE_DISABLED;
      if moeDisabled && il < N_HASH_LAYER { assert Refused(r.policy[il], il); return None; }
      if r.policy[il] > POLICY_MOE_DISABLED { assert Refused(r.policy[il], il); return None; }
      done := done + [LayerWeights(r.policy[il], r.expertCount[il], r.keepCount[il], moeDisabled)];
    }
    return Some(done);
  }

  /** weights_expected_layer_experts */
  function Expected(compact: bool, l: LayerWeights): nat {
    if !compact then N_EXPERT
    else if l.moeDisabled then 0
    else if l.keepCount > 0 then l.keepCount
    else if l.expertCount > 0 then l.expertCount
    else N_EXPERT
  }

  /** The listed experts exist; or none does, and their number happens to be the one assumed without a list. */
  predicate Countable(lp: Option<LayerPlan>) {
    lp == None || lp.value.disabled || !lp.value.hasKeepSet ||
    var keep, n := lp.value.keep, lp.value.expertCount;
    if exists i :: 0 <= i < |keep| && keep[i] < n then forall i :: 0 <= i < |keep| ==> keep[i] < n
    else |keep| == if n > 0 then n else N_EXPERT
  }

  /** The number of experts the loader expects in a layer is the number that was written, exactly for such lists. */
  lemma ExpectedIsWritten(lp: Option<LayerPlan>)
    requires lp.Some? ==> Loadable(lp.value)
    ensures Expected(true, LayerWeights(Policy(lp), CountOf(lp), KeepCount(lp), Policy(lp) == POLICY_MOE_DISABLED))
         == Physical(lp, N_EXPERT)
       <==> Countable(lp)
  {
    if lp.Some? && !lp.value.disabled && lp.value.hasKeepSet {
      CountIsBelow(lp.value.keep, lp.value.expertCount);
      CountBelowAll(lp.value.keep, lp.value.expertCount);
    }
  }

  /** A written description is accepted exactly when no hash layer is disabled. */
  lemma DescriptionAccepted(layers: seq<Option<LayerPlan>>)
    requires Plan(layers)
    ensures (exists il :: 0 <= il < LAYERS && Refused(Policy(layers[il]), il))
       <==> exists il :: 0 <= il < N_HASH_LAYER && layers[il].Some? && layers[il].value.disabled
  {
    forall il | 0 <= il < LAYERS
      ensures Refused(Policy(layers[il]), il) <==> il < N_HASH_LAYER && layers[il].Some? && layers[il].value.disabled
    {
      hide KeepCount;
    }
    hide Refused, Policy;
    if il :| 0 <= il < N_HASH_LAYER && layers[il].Some? && layers[il].value.disabled {
      assert Refused(Policy(layers[il]), il);
    }
  }
}
