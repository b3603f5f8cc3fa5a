/**
 Planning the tensors of a GGUF file, gguf-tools/deepseek4-quantize.c:1408-1412, 2207-2300.
 Which tensors there are, their shapes and their types are inputs.
 */
module GgufPlan {
  import opened ByteEncoding
  import opened GgufValues
  import opened GgufMetadata

  const F32: nat := 0
  const F16: nat := 1
  const Q8_0: nat := 8
  const Q2_K: nat := 10
  const Q4_K: nat := 12
  const IQ2_XXS: nat := 16
  const I32: nat := 26
  const BF16: nat := 30
  const NVFP4: nat := 40

  // ---- sizes -----------------------------------------------------------------------------------

  /** Elements and bytes of a block, for the types that can be written. */
  function Traits(t: nat): (r: (nat, nat))
    ensures r.0 > 0
  {
    if t == F32 then (1, 4) else if t == F16 then (1, 2) else if t == Q8_0 then (32, 34)
    else if t == Q2_K then (256, 84) else if t == Q4_K then (256, 144) else if t == IQ2_XXS then (256, 66)
    else if t == I32 then (1, 4) else if t == BF16 then (1, 2) else if t == NVFP4 then (256, 144) else (1, 0)
  }

  predicate CanQuantize(t: nat) {
    t == Q8_0 || t == Q2_K || t == Q4_K || t == IQ2_XXS || t == NVFP4
  }

  /** What the plan accepts as a type. */
  predicate Plannable(t: nat) {
    t == I32 || t == F32 || t == F16 || t == BF16 || CanQuantize(t)
  }

  function RowSize(t: nat, ne: nat): nat {
    if ne % Traits(t).0 != 0 then 0 else Traits(t).1 * (ne / Traits(t).0)
  }

  /** The product of the dimensions from the second on. */
  function Rest(ne: seq<nat>, n: nat): nat
    requires n <= |ne|
  {
    if n <= 1 then 1 else Rest(ne, n - 1) * ne[n - 1]
  }

  /** tensor_nbytes of the writer */
  function WriterBytes(t: nat, ne: seq<nat>): nat
    requires |ne| >= 1
  {
    RowSize(t, ne[0]) * Rest(ne, |ne|)
  }

  /** ds4q_pad */
  function Pad(x: nat, n: nat): (r: nat)
    requires n > 0
    ensures x <= r < x + n && r % n == 0
  {
    PadFacts(x, n);
    (x + n - 1) / n * n
  }

  lemma PadFacts(x: nat, n: nat)
    requires n > 0
    ensures x <= (x + n - 1) / n * n < x + n && (x + n - 1) / n * n % n == 0
  {
    var q := (x + n - 1) / n;
    assert x + n - 1 == q * n + (x + n - 1) % n;
    MultipleMod(q, n);
  }

  lemma MultipleMod(q: nat, n: nat)
    requires n > 0
    ensures q * n % n == 0
  {
    if q > 0 { MultipleMod(q - 1, n); assert q * n == (q - 1) * n + n; ModAdd((q - 1) * n, n); }
  }

  lemma ModAdd(a: nat, n: nat)
    requires n > 0
    ensures (a + n) % n == a % n
  {
    var q := a / n;
    assert a == q * n + a % n;
    assert a + n == (q + 1) * n + a % n;
    UniqueQuotient(a + n, n, q + 1, a % n);
  }

  lemma UniqueQuotient(x: nat, n: nat, q: nat, r: nat)
    requires n > 0 && x == q * n + r && r < n
    ensures x / n == q && x % n == r
  {
    var q', r' := x / n, x % n;
    assert x == q' * n + r';
    if q' < q { Apart(q', q, n); }
    if q < q' { Apart(q, q', n); }
  }

  lemma Apart(a: nat, b: nat, n: nat)
    requires a < b
    ensures a * n + n <= b * n
  {
    var d := b - a - 1;
    assert b == a + 1 + d;
    Split(a, d, n);
  }

  lemma Split(a: nat, d: nat, n: nat)
    ensures (a + 1 + d) * n == a * n + n + d * n && d * n >= 0
  {
  }

  // ---- records --------------------------------------------------------------------------------------

  /** One entry of the tensor directory. */
  datatype Record = Record(name: seq<byte>, ne: seq<nat>, t: nat, offset: nat) {
    predicate Fits() {
      |name| < U64 && 1 <= |ne| <= 4 && (forall i :: 0 <= i < |ne| ==> ne[i] < U64) && t < U32 && offset < U64
    }

    /** What a loader accepts: up to eight dimensions. */
    predicate Readable() {
      |name| < U64 && 1 <= |ne| <= 8 && (forall i :: 0 <= i < |ne| ==> ne[i] < U64) && t < U32 && offset < U64
    }
  }

  /** A tensor before offsets: what the template, the policy and the expert plan say. */
  datatype Planned = Planned(name: seq<byte>, ne: seq<nat>, t: nat, isExpert: bool)

  // .weight
  const WEIGHT: seq<byte> := [0x2e, 0x77, 0x65, 0x69, 0x67, 0x68, 0x74]

  // .nvfp4_weight
  const NVFP4_WEIGHT: seq<byte> := [0x2e, 0x6e, 0x76, 0x66, 0x70, 0x34, 0x5f, 0x77, 0x65, 0x69, 0x67, 0x68, 0x74]

  // .nvfp4_scale_2
  const NVFP4_SCALE: seq<byte> :=
    [0x2e, 0x6e, 0x76, 0x66, 0x70, 0x34, 0x5f, 0x73, 0x63, 0x61, 0x6c, 0x65, 0x5f, 0x32]

  /** Where the first occurrence of a text is. */
  function Find(s: seq<byte>, text: seq<byte>, from: nat): Option<nat>
    requires from <= |s|
    decreases |s| - from
  {
    if from + |text| <= |s| && s[from..from + |text|] == text then Some(from)
    else if from == |s| then None
    else Find(s, text, from + 1)
  }

  /** snprintf into a buffer of 256 bytes. */
  function Truncated(s: seq<byte>): (r: seq<byte>)
    ensures |r| <= 255 && (|s| <= 255 ==> r == s)
  {
    if |s| <= 255 then s else s[..255]
  }

  function FindEnds(s: seq<byte>, text: seq<byte>): (r: Option<nat>)
    ensures r.Some? ==> r.value <= |s|
  {
    FindInside(s, text, 0);
    Find(s, text, 0)
  }

  lemma {:induction false} FindInside(s: seq<byte>, text: seq<byte>, from: nat)
    requires from <= |s|
    ensures Find(s, text, from).Some? ==> Find(s, text, from).value <= |s|
    decreases |s| - from
  {
    if from + |text| <= |s| && s[from..from + |text|] == text {
    } else if from < |s| {
      FindInside(s, text, from + 1);
    }
  }

  function WeightName(name: seq<byte>): seq<byte> {
    match FindEnds(name, WEIGHT)
    case Some(dot) => Truncated(name[..dot] + NVFP4_WEIGHT)
    case None => name
  }

  function ScaleName(name: seq<byte>): seq<byte> {
    match FindEnds(name, WEIGHT)
    case Some(dot) => Truncated(name[..dot] + NVFP4_SCALE)
    case None => Truncated(name + NVFP4_SCALE)
  }

  /** A dimension; the unused ones of the source's array are zero. */
  function Dim(ne: seq<nat>, i: nat): nat { if i < |ne| then ne[i] else 0 }

  predicate HasCompanion(p: Planned) { p.t == NVFP4 && p.isExpert }

  /** The directory entries of one planned tensor: itself, and for an NVFP4 expert its scales. */
  function Expand(p: Planned): (r: seq<Planned>)
    ensures |r| == if HasCompanion(p) then 2 else 1
  {
    if HasCompanion(p) then
      [Planned(WeightName(p.name), p.ne, p.t, true), Planned(ScaleName(p.name), [Dim(p.ne, 2)], F32, false)]
    else [p]
  }

  function ExpandAll(ps: seq<Planned>): seq<Planned> {
    if |ps| == 0 then [] else ExpandAll(ps[..|ps| - 1]) + Expand(ps[|ps| - 1])
  }

  /** count_nvfp4_experts */
  function CountCompanions(ps: seq<Planned>): nat {
    if |ps| == 0 then 0 else CountCompanions(ps[..|ps| - 1]) + if HasCompanion(ps[|ps| - 1]) then 1 else 0
  }

  /** The tensor count in the header is the number of entries written. */
  lemma {:induction false} TensorCount(ps: seq<Planned>)
    ensures |ExpandAll(ps)| == |ps| + CountCompanions(ps)
  {
    if |ps| > 0 { TensorCount(ps[..|ps| - 1]); }
  }

  function SizeOf(p: Planned): nat {
    if |p.ne| == 0 then 0 else WriterBytes(p.t, p.ne)
  }

  /** The padded bytes of the first n entries: the offset of the next. */
  function OffsetOf(es: seq<Planned>, n: nat, alignment: nat): (off: nat)
    requires n <= |es| && alignment > 0
  {
    if n == 0 then 0 else OffsetOf(es, n - 1, alignment) + Pad(SizeOf(es[n - 1]), alignment)
  }

  function RecordOf(es: seq<Planned>, i: nat, alignment: nat): Record
    requires i < |es| && alignment > 0
  {
    Record(es[i].name, es[i].ne, es[i].t, OffsetOf(es, i, alignment))
  }

  function Records(es: seq<Planned>, alignment: nat): (r: seq<Record>)
    requires alignment > 0
    ensures |r| == |es| && forall i :: 0 <= i < |es| ==> r[i] == RecordOf(es, i, alignment)
  {
    seq(|es|, i requires 0 <= i < |es| => RecordOf(es, i, alignment))
  }

  lemma {:induction false} OffsetAligned(es: seq<Planned>, n: nat, alignment: nat)
    requires n <= |es| && alignment > 0
    ensures OffsetOf(es, n, alignment) % alignment == 0
  {
    if n == 0 {
    } else {
      OffsetAligned(es, n - 1, alignment);
      SumOfMultiples(OffsetOf(es, n - 1, alignment), Pad(SizeOf(es[n - 1]), alignment), alignment);
    }
  }

  lemma SumOfMultiples(a: nat, b: nat, n: nat)
    requires n > 0 && a % n == 0 && b % n == 0
    ensures (a + b) % n == 0
  {
    var p, q := a / n, b / n;
    assert a == p * n && b == q * n;
    assert a + b == (p + q) * n;
    MultipleMod(p + q, n);
  }

  /** Every entry begins on the alignment, and ends before the next begins. */
  lemma {:induction false} RangesDisjoint(es: seq<Planned>, i: nat, j: nat, alignment: nat)
    requires i < j <= |es| && alignment > 0
    ensures OffsetOf(es, i, alignment) % alignment == 0
    ensures OffsetOf(es, i, alignment) + SizeOf(es[i]) <= OffsetOf(es, j, alignment)
    decreases j
  {
    OffsetAligned(es, i, alignment);
    if i < j - 1 { RangesDisjoint(es, i, j - 1, alignment); }
  }

  // ---- directory bytes ------------------------------------------------------------------------------------

  function EncodeDims(ne: seq<nat>): (b: seq<byte>)
    ensures |b| == 8 * |ne|
  {
    if |ne| == 0 then [] else Le(ne[0], 8) + EncodeDims(ne[1..])
  }

  function EncodeRecord(r: Record): (b: seq<byte>)
    ensures |b| == 8 + |r.name| + 4 + 8 * |r.ne| + 4 + 8
  {
    EncodeString(r.name) + (Le(|r.ne|, 4) + (EncodeDims(r.ne) + (Le(r.t, 4) + Le(r.offset, 8))))
  }

  function EncodeRecords(rs: seq<Record>): seq<byte> {
    if |rs| == 0 then [] else EncodeRecord(rs[0]) + EncodeRecords(rs[1..])
  }

  /** What the plan adds up for one entry of the directory. */
  function InfoSize(name: seq<byte>, ne: seq<nat>): nat {
    StringSize(name) + 4 + 8 * |ne| + 4 + 8
  }

  /** The plan's directory size, entry by entry. */
  function TensorInfo(es: seq<Planned>): nat {
    if |es| == 0 then 0 else TensorInfo(es[..|es| - 1]) + InfoSize(es[|es| - 1].name, es[|es| - 1].ne)
  }

  lemma {:induction false} EncodeRecordsAppend(a: seq<Record>, b: seq<Record>)
    ensures EncodeRecords(a + b) == EncodeRecords(a) + EncodeRecords(b)
  {
    if |a| == 0 {
      assert a + b == b;
    } else {
      assert (a + b)[0] == a[0] && (a + b)[1..] == a[1..] + b;
      EncodeRecordsAppend(a[1..], b);
    }
  }

  /** The planned directory size is the number of bytes written for it, whatever the offsets. */
  lemma {:induction false} TensorInfoIsBytes(es: seq<Planned>, rs: seq<Record>)
    requires |es| == |rs| && forall i :: 0 <= i < |es| ==> rs[i].name == es[i].name && rs[i].ne == es[i].ne
    ensures |EncodeRecords(rs)| == TensorInfo(es)
  {
    if |es| == 0 {
    } else {
      var n := |es| - 1;
      TensorInfoIsBytes(es[..n], rs[..n]);
      assert rs == rs[..n] + [rs[n]];
      EncodeRecordsAppend(rs[..n], [rs[n]]);
      assert EncodeRecords([rs[n]]) == EncodeRecord(rs[n]);
    }
  }

  // ---- planning in place ------------------------------------------------------------------------------------

  /** What the plan refuses to write. */
  predicate Writable(p: Planned) {
    Plannable(p.t) && 1 <= |p.ne| <= 4 && (CanQuantize(p.t) ==> p.ne[0] % Traits(p.t).0 == 0)
  }

  predicate AllWritable(ps: seq<Planned>) {
    forall i :: 0 <= i < |ps| ==> Writable(ps[i])
  }

  lemma {:induction false} ExpandedWritable(ps: seq<Planned>)
    requires AllWritable(ps)
    ensures AllWritable(ExpandAll(ps))
  {
    if |ps| > 0 { ExpandedWritable(ps[..|ps| - 1]); }
  }

  lemma OffsetOfPrefix(es: seq<Planned>, more: seq<Planned>, n: nat, alignment: nat)
    requires n <= |es| && alignment > 0
    ensures OffsetOf(es + more, n, alignment) == OffsetOf(es, n, alignment)
  {
    if n > 0 {
      OffsetOfPrefix(es, more, n - 1, alignment);
      assert (es + more)[n - 1] == es[n - 1];
    }
  }

  lemma RecordsAppend(es: seq<Planned>, e: Planned, alignment: nat)
    requires alignment > 0
    ensures Records(es + [e], alignment)
         == Records(es, alignment) + [Record(e.name, e.ne, e.t, OffsetOf(es, |es|, alignment))]
    ensures OffsetOf(es + [e], |es| + 1, alignment) == OffsetOf(es, |es|, alignment) + Pad(SizeOf(e), alignment)
    ensures TensorInfo(es + [e]) == TensorInfo(es) + InfoSize(e.name, e.ne)
  {
    assert (es + [e])[..|es|] == es;
    OffsetOfPrefix(es, [e], |es|, alignment);
    hide OffsetOf, Pad, SizeOf;
    var all := Records(es, alignment) + [RecordOf(es + [e], |es|, alignment)];
    forall i | 0 <= i <= |es| ensures Records(es + [e], alignment)[i] == all[i] {
      OffsetOfPrefix(es, [e], i, alignment);
    }
    assert Records(es + [e], alignment) == all;
  }

  lemma ScaleSize(n: nat)
    ensures WriterBytes(F32, [n]) == n * 4
  {
  }

  /** One step of the plan, for a tensor without and with a companion. */
  lemma PlanStep(es: seq<Planned>, p: Planned, alignment: nat)
    requires alignment > 0 && |p.ne| >= 1
    ensures var off := OffsetOf(es, |es|, alignment);
      var next := off + Pad(WriterBytes(p.t, p.ne), alignment);
      var all := es + Expand(p);
      if HasCompanion(p) then
        && Records(all, alignment) == Records(es, alignment) + [Record(WeightName(p.name), p.ne, p.t, off)]
             + [Record(ScaleName(p.name), [Dim(p.ne, 2)], F32, next)]
        && OffsetOf(all, |all|, alignment) == next + Pad(Dim(p.ne, 2) * 4, alignment)
        && TensorInfo(all) == TensorInfo(es) + InfoSize(WeightName(p.name), p.ne)
             + InfoSize(ScaleName(p.name), [Dim(p.ne, 2)])
      else
        && Records(all, alignment) == Records(es, alignment) + [Record(p.name, p.ne, p.t, off)]
        && OffsetOf(all, |all|, alignment) == next
        && TensorInfo(all) == TensorInfo(es) + InfoSize(p.name, p.ne)
  {
    if HasCompanion(p) {
      var first := Planned(WeightName(p.name), p.ne, p.t, true);
      var second := Planned(ScaleName(p.name), [Dim(p.ne, 2)], F32, false);
      RecordsAppend(es, first, alignment);
      RecordsAppend(es + [first], second, alignment);
      ScaleSize(Dim(p.ne, 2));
      assert es + Expand(p) == es + [first] + [second];
      hide Pad, WriterBytes, ScaleName, WeightName, Records, OffsetOf, TensorInfo;
    } else {
      RecordsAppend(es, p, alignment);
    }
  }

  lemma WritableStep(ps: seq<Planned>, i: nat)
    requires i < |ps|
    ensures AllWritable(ps[..i + 1]) <==> AllWritable(ps[..i]) && Writable(ps[i])
    ensures ExpandAll(ps[..i + 1]) == ExpandAll(ps[..i]) + Expand(ps[i])
  {
    assert ps[..i + 1][..i] == ps[..i];
    assert ps[..i + 1][i] == ps[i];
    forall k | 0 <= k < i ensures ps[..i + 1][k] == ps[..i][k] {}
  }

  lemma WritablePart(ps: seq<Planned>, n: nat)
    requires n <= |ps| && AllWritable(ps)
    ensures AllWritable(ps[..n])
  {
  }

  /**
   The loop of build_output_context: the directory, the planned size of the directory in bytes and of the data.
   The size of an entry is added under its old name and corrected after the renaming.
   */
  method PlanTensors(ps: seq<Planned>, alignment: nat) returns (r: Option<(seq<Record>, nat, nat)>)
    requires alignment > 0
    ensures r.Some? <==> AllWritable(ps)
    ensures r.Some? ==> var es := ExpandAll(ps);
      r.value == (Records(es, alignment), TensorInfo(es), OffsetOf(es, |es|, alignment))
  {
    hide Pad, WriterBytes, ScaleName, WeightName, Traits, Records, OffsetOf, TensorInfo, Expand, ExpandAll, AllWritable;
    var tensors: seq<Record>, tensorInfo, off := [], 0, 0;
    var i := 0;
    assert tensors == Records([], alignment) && ExpandAll(ps[..0]) == [] && AllWritable(ps[..0])
      && TensorInfo([]) == 0 && OffsetOf([], 0, alignment) == 0 by { Empty(ps, alignment); }
    while i < |ps|
      invariant 0 <= i <= |ps| && AllWritable(ps[..i])
      invariant tensors == Records(ExpandAll(ps[..i]), alignment)
      invariant tensorInfo == TensorInfo(ExpandAll(ps[..i]))
      invariant off == OffsetOf(ExpandAll(ps[..i]), |ExpandAll(ps[..i])|, alignment)
    {
      var p := ps[i];
      WritableStep(ps, i);
      if !Plannable(p.t) || |p.ne| < 1 || |p.ne| > 4 || (CanQuantize(p.t) && p.ne[0] % Traits(p.t).0 != 0) {
        if AllWritable(ps) { WritablePart(ps, i + 1); }
        return None;
      }
      PlanStep(ExpandAll(ps[..i]), p, alignment);
      tensors := tensors + [Record(p.name, p.ne, p.t, off)];
      off := off + Pad(WriterBytes(p.t, p.ne), alignment);
      tensorInfo := tensorInfo + InfoSize(p.name, p.ne);
      if p.t == NVFP4 && p.isExpert {
        var last := |tensors| - 1;
        tensors := tensors[last := tensors[last].(name := WeightName(p.name))];
        tensorInfo := tensorInfo + StringSize(WeightName(p.name)) - StringSize(p.name);
        tensors := tensors + [Record(ScaleName(p.name), [Dim(p.ne, 2)], F32, off)];
        off := off + Pad(Dim(p.ne, 2) * 4, alignment);
        tensorInfo := tensorInfo + StringSize(ScaleName(p.name)) + 4 + 8 + 4 + 8;
      }
      i := i + 1;
    }
    assert ps[..i] == ps;
    return Some((tensors, tensorInfo, off));
  }

  lemma Empty(ps: seq<Planned>, alignment: nat)
    requires alignment > 0
    ensures Records([], alignment) == [] && ExpandAll(ps[..0]) == [] && AllWritable(ps[..0])
    ensures TensorInfo([]) == 0 && OffsetOf([], 0, alignment) == 0
  {
  }
}
