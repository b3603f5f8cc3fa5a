/**
 The provenance records the tool adds, gguf-tools/deepseek4-quantize.c:1953-2092: importance matrix and expert plan,
 with the sizes and counts that the plan reserves for them.
 */
module GgufProvenance {
  import opened ByteEncoding
  import opened GgufValues
  import opened GgufMetadata

  const LAYERS: nat := 43

  datatype Imatrix = Imatrix(file: seq<byte>, entries: nat, dataset: Option<seq<byte>>, chunks: int) {
    predicate Valid() {
      && |file| < U32 && entries < 0x8000_0000 && -0x8000_0000 <= chunks < 0x8000_0000
      && (dataset.Some? ==> |dataset.value| < U32)
    }

    /** imatrix_enabled */
    predicate Enabled() { entries > 0 }
  }

  /** An enabled expert plan: its path, and per layer a policy and two counts. */
  datatype ReapRecord =
    ReapRecord(path: Option<seq<byte>>, policy: seq<nat>, expertCount: seq<nat>, keepCount: seq<nat>)
  {
    predicate Valid() {
      (path.Some? ==> |path.value| < U32) && U32s(policy) && U32s(expertCount) && U32s(keepCount)
    }
  }

  predicate U32s(values: seq<nat>) {
    |values| == LAYERS && forall i :: 0 <= i < |values| ==> values[i] < U32
  }

  function FileKey(): seq<byte> { Ascii("quantize.imatrix.file") }
  function DatasetKey(): seq<byte> { Ascii("quantize.imatrix.dataset") }
  function EntriesKey(): seq<byte> { Ascii("quantize.imatrix.entries_count") }
  function ChunksKey(): seq<byte> { Ascii("quantize.imatrix.chunks_count") }
  function EnabledKey(): seq<byte> { Ascii("reap.enabled") }
  function LayoutKey(): seq<byte> { Ascii("reap.layout") }
  function PathKey(): seq<byte> { Ascii("reap.plan.path") }
  function PolicyKey(): seq<byte> { Ascii("reap.layer.policy") }
  function ExpertCountKey(): seq<byte> { Ascii("reap.layer.expert_count") }
  function KeepCountKey(): seq<byte> { Ascii("reap.layer.keep_count") }
  function Layout(): seq<byte> { Ascii("ds4-compact-v1") }

  // ---- the records ---------------------------------------------------------------------------------

  function TextKv(key: seq<byte>, text: seq<byte>): Kv { Kv(key, STRING, EncodeString(text)) }

  function CountKv(key: seq<byte>, n: nat): Kv { Kv(key, UINT64, Le(n, 8)) }

  function EncodeU32s(values: seq<nat>): (b: seq<byte>)
    ensures |b| == 4 * |values|
  {
    if |values| == 0 then [] else EncodeU32s(values[..|values| - 1]) + Le(values[|values| - 1], 4)
  }

  function ArrayKv(key: seq<byte>, values: seq<nat>): Kv {
    Kv(key, ARRAY, Le(UINT32, 4) + Le(|values|, 8) + EncodeU32s(values))
  }

  function ImatrixKvs(im: Option<Imatrix>): seq<Kv> {
    if im == None || !im.value.Enabled() then [] else
    var m := im.value;
    [TextKv(FileKey(), m.file), CountKv(EntriesKey(), m.entries)]
    + (if m.dataset.Some? then [TextKv(DatasetKey(), m.dataset.value)] else [])
    + if m.chunks > 0 then [CountKv(ChunksKey(), m.chunks)] else []
  }

  function ReapKvs(reap: Option<ReapRecord>): seq<Kv> {
    if reap == None then [] else
    var r := reap.value;
    [Kv(EnabledKey(), BOOL, [1]), TextKv(LayoutKey(), Layout())]
    + (if r.path.Some? then [TextKv(PathKey(), r.path.value)] else [])
    + [ArrayKv(PolicyKey(), r.policy), ArrayKv(ExpertCountKey(), r.expertCount), ArrayKv(KeepCountKey(), r.keepCount)]
  }

  function ExtraKvs(im: Option<Imatrix>, reap: Option<ReapRecord>): seq<Kv> {
    ImatrixKvs(im) + ReapKvs(reap)
  }

  // ---- what the plan reserves ---------------------------------------------------------------------------

  function ImatrixSize(im: Option<Imatrix>): nat {
    if im == None || !im.value.Enabled() then 0 else
    var m := im.value;
    StringSize(FileKey()) + 4 + StringSize(m.file)
    + (StringSize(EntriesKey()) + 4 + 8)
    + (if m.dataset.Some? then StringSize(DatasetKey()) + 4 + StringSize(m.dataset.value) else 0)
    + if m.chunks > 0 then StringSize(ChunksKey()) + 4 + 8 else 0
  }

  function ImatrixCount(im: Option<Imatrix>): nat {
    if im == None || !im.value.Enabled() then 0 else
    2 + (if im.value.dataset.Some? then 1 else 0) + if im.value.chunks > 0 then 1 else 0
  }

  function ArraySize(key: seq<byte>, n: nat): nat { StringSize(key) + 4 + 4 + 8 + n * 4 }

  function ReapSize(reap: Option<ReapRecord>): nat {
    if reap == None then 0 else
    StringSize(EnabledKey()) + 4 + 1
    + (StringSize(LayoutKey()) + 4 + StringSize(Layout()))
    + (if reap.value.path.Some? then StringSize(PathKey()) + 4 + StringSize(reap.value.path.value) else 0)
    + ArraySize(PolicyKey(), LAYERS) + ArraySize(ExpertCountKey(), LAYERS) + ArraySize(KeepCountKey(), LAYERS)
  }

  function ReapCount(reap: Option<ReapRecord>): nat {
    if reap == None then 0 else 5 + if reap.value.path.Some? then 1 else 0
  }

  function KvsSize(kvs: seq<Kv>): nat {
    if |kvs| == 0 then 0 else KvsSize(kvs[..|kvs| - 1]) + |EncodeKv(kvs[|kvs| - 1])|
  }

  lemma {:induction false} KvsSizeIsBytes(kvs: seq<Kv>)
    ensures |EncodeKvs(kvs)| == KvsSize(kvs)
  {
    if |kvs| == 0 {
    } else {
      var n := |kvs| - 1;
      KvsSizeIsBytes(kvs[..n]);
      EncodeKvsSnoc(kvs[..n], kvs[n]);
      assert kvs[..n] + [kvs[n]] == kvs;
    }
  }

  lemma KvsSizeSnoc(kvs: seq<Kv>, kv: Kv)
    ensures KvsSize(kvs + [kv]) == KvsSize(kvs) + |EncodeKv(kv)|
  {
    assert (kvs + [kv])[..|kvs|] == kvs;
  }

  lemma KvsSizeTwo(a: Kv, b: Kv)
    ensures KvsSize([a, b]) == |EncodeKv(a)| + |EncodeKv(b)|
  {
    KvsSizeSnoc([], a);
    KvsSizeSnoc([a], b);
    assert [] + [a] == [a] && [a] + [b] == [a, b];
  }

  /** The reserved size and count are those of the records written. */
  lemma ImatrixReserved(im: Option<Imatrix>)
    ensures ImatrixSize(im) == |EncodeKvs(ImatrixKvs(im))| && ImatrixCount(im) == |ImatrixKvs(im)|
  {
    hide Le, EncodeKv, KvsSize, Ascii;
    KvsSizeIsBytes(ImatrixKvs(im));
    if im != None && im.value.Enabled() {
      var m := im.value;
      var first := [TextKv(FileKey(), m.file), CountKv(EntriesKey(), m.entries)];
      KvsSizeTwo(first[0], first[1]);
      var second := first + if m.dataset.Some? then [TextKv(DatasetKey(), m.dataset.value)] else [];
      if m.dataset.Some? { KvsSizeSnoc(first, TextKv(DatasetKey(), m.dataset.value)); } else { assert second == first; }
      if m.chunks > 0 { KvsSizeSnoc(second, CountKv(ChunksKey(), m.chunks)); } else { assert ImatrixKvs(im) == second; }
    } else {
      assert KvsSize([]) == 0 by { NoSize(); }
    }
  }

  lemma NoSize()
    ensures KvsSize([]) == 0
  {
  }

  lemma ReapReserved(reap: Option<ReapRecord>)
    requires reap.Some? ==> reap.value.Valid()
    ensures ReapSize(reap) == |EncodeKvs(ReapKvs(reap))| && ReapCount(reap) == |ReapKvs(reap)|
  {
    hide Le, EncodeKv, KvsSize, Ascii, EncodeU32s;
    KvsSizeIsBytes(ReapKvs(reap));
    if reap.Some? {
      var r := reap.value;
      var first := [Kv(EnabledKey(), BOOL, [1]), TextKv(LayoutKey(), Layout())];
      KvsSizeTwo(first[0], first[1]);
      var second := first + if r.path.Some? then [TextKv(PathKey(), r.path.value)] else [];
      if r.path.Some? { KvsSizeSnoc(first, TextKv(PathKey(), r.path.value)); } else { assert second == first; }
      var a, b := ArrayKv(PolicyKey(), r.policy), ArrayKv(ExpertCountKey(), r.expertCount);
      var c := ArrayKv(KeepCountKey(), r.keepCount);
      KvsSizeSnoc(second, a);
      KvsSizeSnoc(second + [a], b);
      KvsSizeSnoc(second + [a] + [b], c);
      assert second + [a, b, c] == second + [a] + [b] + [c];
    } else {
      assert KvsSize([]) == 0 by { NoSize(); }
    }
  }

  // ---- the records are well-formed and leave the alignment alone ---------------------------------------------

  lemma TextValid(key: seq<byte>, text: seq<byte>)
    requires |key| < U64 && |text| < U64
    ensures ValidKv(TextKv(key, text))
  {
    var v := Str(text);
    assert v.Type() == STRING && WellFormed(v, 0) && EncodeValue(v) == EncodeString(text);
    hide WellFormed, EncodeValue, EncodeString;
  }

  lemma CountValid(key: seq<byte>, n: nat)
    requires |key| < U64
    ensures ValidKv(CountKv(key, n))
  {
    var v := Scalar(UINT64, Le(n, 8));
    assert v.Type() == UINT64 && WellFormed(v, 0) && EncodeValue(v) == Le(n, 8);
    hide WellFormed, EncodeValue, Le;
  }

  lemma FlagValid(key: seq<byte>)
    requires |key| < U64
    ensures ValidKv(Kv(key, BOOL, [1]))
  {
    var v := Scalar(BOOL, [1]);
    assert v.Type() == BOOL && WellFormed(v, 0) && EncodeValue(v) == [1];
    hide WellFormed, EncodeValue;
  }

  function Items(values: seq<nat>): (r: seq<Value>)
    ensures |r| == |values|
    ensures forall i :: 0 <= i < |r| ==> r[i] == Scalar(UINT32, Le(values[i], 4))
  {
    if |values| == 0 then [] else Items(values[..|values| - 1]) + [Scalar(UINT32, Le(values[|values| - 1], 4))]
  }

  lemma {:induction false} ItemsBytes(a: seq<Value>, b: seq<Value>)
    ensures EncodeAll(a + b) == EncodeAll(a) + EncodeAll(b)
  {
    if |a| == 0 {
      assert a + b == b;
    } else {
      assert (a + b)[0] == a[0] && (a + b)[1..] == a[1..] + b;
      ItemsBytes(a[1..], b);
    }
  }

  lemma {:induction false} ItemsAreU32s(values: seq<nat>)
    ensures EncodeAll(Items(values)) == EncodeU32s(values)
  {
    if |values| == 0 {
    } else {
      var n := |values| - 1;
      ItemsAreU32s(values[..n]);
      var last := Scalar(UINT32, Le(values[n], 4));
      ItemsBytes(Items(values[..n]), [last]);
      assert EncodeAll([last]) == EncodeValue(last) + EncodeAll([]);
    }
  }

  lemma ArrayValid(key: seq<byte>, values: seq<nat>)
    requires |key| < U64 && |values| < U64
    ensures ValidKv(ArrayKv(key, values))
  {
    ItemsAreU32s(values);
    var v := Arr(UINT32, Items(values));
    assert v.Type() == ARRAY && WellFormed(v, 0) && EncodeValue(v) == ArrayKv(key, values).payload;
    hide WellFormed, EncodeValue, ArrayKv, EncodeU32s, Items;
    assert ArrayKv(key, values).t == ARRAY && ArrayKv(key, values).key == key by { ArrayParts(key, values); }
  }

  lemma ArrayParts(key: seq<byte>, values: seq<nat>)
    ensures ArrayKv(key, values).t == ARRAY && ArrayKv(key, values).key == key
  {
  }

  lemma ExtrasValid(im: Option<Imatrix>, reap: Option<ReapRecord>)
    requires (im.Some? ==> im.value.Valid()) && (reap.Some? ==> reap.value.Valid())
    ensures ValidKvs(ExtraKvs(im, reap))
  {
    hide ValidKv, TextKv, CountKv, ArrayKv, Ascii, Le;
    if im.Some? && im.value.Enabled() {
      TextValid(FileKey(), im.value.file);
      CountValid(EntriesKey(), im.value.entries);
      if im.value.dataset.Some? { TextValid(DatasetKey(), im.value.dataset.value); }
      if im.value.chunks > 0 { CountValid(ChunksKey(), im.value.chunks); }
    }
    assert ValidKvs(ImatrixKvs(im));
    if reap.Some? {
      var r := reap.value;
      FlagValid(EnabledKey());
      TextValid(LayoutKey(), Layout());
      if r.path.Some? { TextValid(PathKey(), r.path.value); }
      ArrayValid(PolicyKey(), r.policy);
      ArrayValid(ExpertCountKey(), r.expertCount);
      ArrayValid(KeepCountKey(), r.keepCount);
    }
    assert ValidKvs(ReapKvs(reap));
  }

  predicate OtherKey(kv: Kv) { kv.key != AlignmentKey() }

  lemma {:induction false} OthersKeepAlignment(kvs: seq<Kv>, extras: seq<Kv>)
    requires forall i :: 0 <= i < |extras| ==> OtherKey(extras[i])
    ensures LoaderAlignment(kvs + extras) == LoaderAlignment(kvs)
  {
    if |extras| == 0 {
      assert kvs + extras == kvs;
    } else {
      var n := |extras| - 1;
      OthersKeepAlignment(kvs, extras[..n]);
      assert kvs + extras == kvs + extras[..n] + [extras[n]];
      KeptStep(kvs + extras[..n], extras[n]);
      assert OtherKey(extras[n]);
    }
  }

  lemma ExtrasAreOthers(im: Option<Imatrix>, reap: Option<ReapRecord>)
    ensures forall i :: 0 <= i < |ExtraKvs(im, reap)| ==> OtherKey(ExtraKvs(im, reap)[i])
  {
    assert AlignmentKey()[0] == 103;
    assert forall i :: 0 <= i < |ImatrixKvs(im)| ==> OtherKey(ImatrixKvs(im)[i]) by {
      assert FileKey()[0] == 113 && DatasetKey()[0] == 113 && EntriesKey()[0] == 113 && ChunksKey()[0] == 113;
      hide EncodeString, Le, Ascii;
    }
    assert forall i :: 0 <= i < |ReapKvs(reap)| ==> OtherKey(ReapKvs(reap)[i]) by {
      assert EnabledKey()[0] == 114 && LayoutKey()[0] == 114 && PathKey()[0] == 114;
      assert PolicyKey()[0] == 114 && ExpertCountKey()[0] == 114 && KeepCountKey()[0] == 114;
      hide EncodeString, Le, Ascii, EncodeU32s;
    }
    hide ImatrixKvs, ReapKvs, OtherKey;
  }

  /** The loader sees in the written records the alignment the tool laid the file out with, unless one is hidden. */
  lemma WrittenAlignment(kvs: seq<Kv>, im: Option<Imatrix>, reap: Option<ReapRecord>)
    ensures LoaderAlignment(Kept(kvs) + ExtraKvs(im, reap)) == WriterAlignment(kvs) <==> NothingHidden(kvs)
  {
    AlignmentAgrees(kvs);
    ExtrasAreOthers(im, reap);
    OthersKeepAlignment(Kept(kvs), ExtraKvs(im, reap));
  }

  // ---- writing ------------------------------------------------------------------------------------------------

  function Zeros(n: nat): (z: seq<byte>)
    ensures |z| == n && forall i :: 0 <= i < n ==> z[i] == 0
  {
    seq(n, _ => 0)
  }

  /** The file being written. */
  class Output {
    var bytes: seq<byte>

    constructor ()
      ensures bytes == []
    {
      bytes := [];
    }

    method Write(b: seq<byte>)
      modifies this
      ensures bytes == old(bytes) + b
    {
      bytes := bytes + b;
    }

    /** write_u32 and write_u64 */
    method WriteNumber(n: nat, k: nat)
      modifies this
      ensures bytes == old(bytes) + Le(n, k)
    {
      Write(Le(n, k));
    }

    method WriteString(s: seq<byte>)
      modifies this
      ensures bytes == old(bytes) + EncodeString(s)
    {
      WriteNumber(|s|, 8);
      if |s| > 0 { Write(s); }
    }

    /** write_padding: zeros in chunks of 4096. */
    method WritePadding(n: nat)
      modifies this
      ensures bytes == old(bytes) + Zeros(n)
    {
      var left := n;
      while left > 0
        invariant 0 <= left <= n && bytes == old(bytes) + Zeros(n - left)
      {
        var chunk := if left < 4096 then left else 4096;
        Write(Zeros(chunk));
        assert Zeros(n - left) + Zeros(chunk) == Zeros(n - left + chunk);
        left := left - chunk;
      }
    }

    /** Key, type and value of a record. */
    method WriteKv(kv: Kv)
      modifies this
      ensures bytes == old(bytes) + EncodeKv(kv)
    {
      WriteString(kv.key);
      WriteNumber(kv.t, 4);
      Write(kv.payload);
      hide EncodeString, Le;
    }

    method WriteU32Array(key: seq<byte>, values: seq<nat>)
      modifies this
      ensures bytes == old(bytes) + EncodeKv(ArrayKv(key, values))
    {
      hide EncodeString, Le;
      WriteString(key);
      WriteNumber(ARRAY, 4);
      WriteNumber(UINT32, 4);
      WriteNumber(|values|, 8);
      ghost var head := bytes;
      for i := 0 to |values|
        invariant bytes == head + EncodeU32s(values[..i])
      {
        assert values[..i + 1][..i] == values[..i];
        WriteNumber(values[i], 4);
      }
      assert values[..|values|] == values;
    }

    method WriteImatrixKvs(im: Option<Imatrix>)
      modifies this
      ensures bytes == old(bytes) + EncodeKvs(ImatrixKvs(im))
    {
      hide EncodeKv, EncodeKvs, Le, EncodeString, Ascii;
      if im == None || !im.value.Enabled() {
        NoKvs();
        return;
      }
      var m := im.value;
      ghost var was := bytes;
      WriteKv(TextKv(FileKey(), m.file));
      WriteKv(CountKv(EntriesKey(), m.entries));
      TwoKvs(TextKv(FileKey(), m.file), CountKv(EntriesKey(), m.entries));
      ghost var kvs := [TextKv(FileKey(), m.file), CountKv(EntriesKey(), m.entries)];
      assert bytes == was + EncodeKvs(kvs);
      if m.dataset.Some? {
        WriteKv(TextKv(DatasetKey(), m.dataset.value));
        EncodeKvsSnoc(kvs, TextKv(DatasetKey(), m.dataset.value));
        kvs := kvs + [TextKv(DatasetKey(), m.dataset.value)];
      }
      assert bytes == was + EncodeKvs(kvs);
      if m.chunks > 0 {
        WriteKv(CountKv(ChunksKey(), m.chunks));
        EncodeKvsSnoc(kvs, CountKv(ChunksKey(), m.chunks));
        kvs := kvs + [CountKv(ChunksKey(), m.chunks)];
      }
      assert kvs == ImatrixKvs(im);
    }

    method WriteReapKvs(reap: Option<ReapRecord>)
      modifies this
      ensures bytes == old(bytes) + EncodeKvs(ReapKvs(reap))
    {
      hide EncodeKv, EncodeKvs, Le, EncodeString, Ascii, EncodeU32s;
      if reap == None {
        NoKvs();
        return;
      }
      var r := reap.value;
      ghost var was := bytes;
      WriteKv(Kv(EnabledKey(), BOOL, [1]));
      WriteKv(TextKv(LayoutKey(), Layout()));
      TwoKvs(Kv(EnabledKey(), BOOL, [1]), TextKv(LayoutKey(), Layout()));
      ghost var kvs := [Kv(EnabledKey(), BOOL, [1]), TextKv(LayoutKey(), Layout())];
      assert bytes == was + EncodeKvs(kvs);
      if r.path.Some? {
        WriteKv(TextKv(PathKey(), r.path.value));
        EncodeKvsSnoc(kvs, TextKv(PathKey(), r.path.value));
        kvs := kvs + [TextKv(PathKey(), r.path.value)];
      }
      assert bytes == was + EncodeKvs(kvs);
      WriteU32Array(PolicyKey(), r.policy);
      WriteU32Array(ExpertCountKey(), r.expertCount);
      WriteU32Array(KeepCountKey(), r.keepCount);
      ThreeMore(kvs, ArrayKv(PolicyKey(), r.policy), ArrayKv(ExpertCountKey(), r.expertCount),
                ArrayKv(KeepCountKey(), r.keepCount));
      assert ReapKvs(reap) == kvs + [ArrayKv(PolicyKey(), r.policy), ArrayKv(ExpertCountKey(), r.expertCount),
        ArrayKv(KeepCountKey(), r.keepCount)];
    }
  }

  lemma NoKvs()
    ensures EncodeKvs([]) == []
  {
  }

  lemma TwoKvs(a: Kv, b: Kv)
    ensures EncodeKvs([a, b]) == EncodeKv(a) + EncodeKv(b)
  {
    EncodeKvsSnoc([], a);
    EncodeKvsSnoc([a], b);
    assert [] + [a] == [a] && [a] + [b] == [a, b];
  }

  lemma ThreeMore(kvs: seq<Kv>, a: Kv, b: Kv, c: Kv)
    ensures EncodeKvs(kvs + [a, b, c]) == EncodeKvs(kvs) + EncodeKv(a) + EncodeKv(b) + EncodeKv(c)
  {
    EncodeKvsSnoc(kvs, a);
    EncodeKvsSnoc(kvs + [a], b);
    EncodeKvsSnoc(kvs + [a] + [b], c);
    assert kvs + [a, b, c] == kvs + [a] + [b] + [c];
  }
}
