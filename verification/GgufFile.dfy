/**
 The file that the tool writes, gguf-tools/deepseek4-quantize.c:2220-2356, and that the loader opens,
 src/model/ds4_gguf.c:220-297, 370-384. The bytes of the tensors are inputs.
 */
module GgufFile {
  import opened ByteEncoding
  import opened GgufValues
  import opened GgufMetadata
  import opened GgufProvenance
  import opened GgufPlan
  import opened GgufLoad

  function Magic(): (m: seq<byte>)
    ensures |m| == 4
  {
    Ascii("GGUF")
  }

  function Head(version: nat, nTensors: nat, nKv: nat): (b: seq<byte>)
    ensures |b| == 24
  {
    Magic() + (Le(version, 4) + (Le(nTensors, 8) + Le(nKv, 8)))
  }

  /** Everything in front of the padding. */
  function Meta(version: nat, kvs: seq<Kv>, rs: seq<Record>): (b: seq<byte>)
    ensures |b| == 24 + |EncodeKvs(kvs)| + |EncodeRecords(rs)|
  {
    Head(version, |rs|, |kvs|) + (EncodeKvs(kvs) + EncodeRecords(rs))
  }

  function Padded(b: seq<byte>, alignment: nat): (r: seq<byte>)
    requires alignment > 0
    ensures |r| == Pad(|b|, alignment) && r[..|b|] == b
  {
    b + Zeros(Pad(|b|, alignment) - |b|)
  }

  /** The tensors' bytes, each padded. */
  function Data(data: seq<seq<byte>>, alignment: nat): seq<byte>
    requires alignment > 0
  {
    if |data| == 0 then [] else Data(data[..|data| - 1], alignment) + Padded(data[|data| - 1], alignment)
  }

  function File(version: nat, kvs: seq<Kv>, rs: seq<Record>, data: seq<seq<byte>>, alignment: nat): seq<byte>
    requires alignment > 0
  {
    Padded(Meta(version, kvs, rs), alignment) + Data(data, alignment)
  }

  // ---- the plan is what is written -------------------------------------------------------------------------

  /** meta_size */
  function MetaSize(kvRaw: nat, im: Option<Imatrix>, reap: Option<ReapRecord>, tensorInfo: nat): nat {
    4 + 4 + 8 + 8 + kvRaw + ImatrixSize(im) + ReapSize(reap) + tensorInfo
  }

  /** The planned size of the metadata is the number of bytes written in front of the padding, and the planned counts
      are the numbers of records written. */
  lemma PlannedIsWritten(version: nat, kept: seq<Kv>, im: Option<Imatrix>, reap: Option<ReapRecord>, ps: seq<Planned>,
                         alignment: nat)
    requires alignment > 0 && (reap.Some? ==> reap.value.Valid())
    ensures var es := ExpandAll(ps);
      && MetaSize(|EncodeKvs(kept)|, im, reap, TensorInfo(es))
        == |Meta(version, kept + ExtraKvs(im, reap), Records(es, alignment))|
      && |ps| + CountCompanions(ps) == |Records(es, alignment)|
      && |kept| + (ImatrixCount(im) + ReapCount(reap)) == |kept + ExtraKvs(im, reap)|
  {
    hide Records, TensorInfo, EncodeKvs, EncodeRecords, ImatrixKvs, ReapKvs, ImatrixSize, ReapSize;
    TensorInfoIsBytes(ExpandAll(ps), Records(ExpandAll(ps), alignment));
    TensorCount(ps);
    ImatrixReserved(im);
    ReapReserved(reap);
    EncodeKvsAppend(ImatrixKvs(im), ReapKvs(reap));
    EncodeKvsAppend(kept, ExtraKvs(im, reap));
  }

  /** Data of the planned sizes lie at the planned offsets. */
  ghost predicate Sized(es: seq<Planned>, data: seq<seq<byte>>) {
    |data| == |es| && forall i :: 0 <= i < |es| ==> |data[i]| == SizeOf(es[i])
  }

  lemma {:induction false} DataAt(es: seq<Planned>, data: seq<seq<byte>>, n: nat, alignment: nat)
    requires alignment > 0 && Sized(es, data) && n <= |es|
    ensures |Data(data[..n], alignment)| == OffsetOf(es, n, alignment)
    ensures Data(data[..n], alignment) <= Data(data, alignment)
    decreases |es| - n
  {
    hide SizeOf, Pad;
    if n < |es| {
      DataAt(es, data, n + 1, alignment);
      assert data[..n + 1][..n] == data[..n] && data[..n + 1][n] == data[n];
    } else {
      assert data[..n] == data;
      DataLength(es, data, alignment);
    }
  }

  lemma {:induction false} DataLength(es: seq<Planned>, data: seq<seq<byte>>, alignment: nat)
    requires alignment > 0 && Sized(es, data)
    ensures |Data(data, alignment)| == OffsetOf(es, |es|, alignment)
    decreases |es|
  {
    hide SizeOf, Pad;
    if |es| == 0 {
    } else {
      var n := |es| - 1;
      DataLength(es[..n], data[..n], alignment);
      OffsetOfPrefix(es[..n], es[n..], n, alignment);
      assert es[..n] + es[n..] == es;
    }
  }

  /** The bytes of tensor i stand at its offset from the start of the data. */
  lemma TensorBytesAt(es: seq<Planned>, data: seq<seq<byte>>, i: nat, alignment: nat)
    requires alignment > 0 && Sized(es, data) && i < |es|
    ensures Holds(Data(data, alignment), OffsetOf(es, i, alignment), data[i])
  {
    hide SizeOf, Pad, OffsetOf;
    DataAt(es, data, i, alignment);
    DataAt(es, data, i + 1, alignment);
    assert data[..i + 1][..i] == data[..i] && data[..i + 1][i] == data[i];
    var all, front, last := Data(data, alignment), Data(data[..i], alignment), Padded(data[i], alignment);
    assert Data(data[..i + 1], alignment) == front + last;
    HereIsPart(all, front, last, data[i]);
  }

  lemma HereIsPart(all: seq<byte>, front: seq<byte>, last: seq<byte>, part: seq<byte>)
    requires front + last <= all && |part| <= |last| && last[..|part|] == part
    ensures Holds(all, |front|, part)
  {
    forall k | 0 <= k < |part| ensures all[|front|..|front| + |part|][k] == part[k] {
      assert all[|front| + k] == (front + last)[|front| + k] == last[k] == last[..|part|][k];
    }
  }

  // ---- what is written is loaded ------------------------------------------------------------------------------

  /** An entry that both programs can describe. */
  predicate Describable(e: Planned) {
    Writable(e) && |e.name| < U64 && e.t < U32 && DimsFit(e.ne)
  }

  predicate AllDescribable(es: seq<Planned>) {
    forall i :: 0 <= i < |es| ==> Describable(es[i])
  }

  /** What the loader knows of tensor i. */
  function LoadedOf(es: seq<Planned>, i: nat, alignment: nat, dataPos: nat): Loaded
    requires alignment > 0 && i < |es|
  {
    var r := RecordOf(es, i, alignment);
    Loaded(r, Elements(r.ne), LoaderBytes(r.t, Elements(r.ne)), dataPos + r.offset)
  }

  function AllLoaded(es: seq<Planned>, alignment: nat, dataPos: nat): (r: seq<Loaded>)
    requires alignment > 0
    ensures |r| == |es| && forall i :: 0 <= i < |es| ==> r[i] == LoadedOf(es, i, alignment, dataPos)
  {
    seq(|es|, i requires 0 <= i < |es| => LoadedOf(es, i, alignment, dataPos))
  }

  lemma {:induction false} EveryRecordCounts(rs: seq<Record>)
    ensures |rs| <= |EncodeRecords(rs)|
  {
    if |rs| > 0 { EveryRecordCounts(rs[1..]); }
  }

  lemma {:induction false} EveryKvCounts(kvs: seq<Kv>)
    ensures |kvs| <= |EncodeKvs(kvs)|
  {
    if |kvs| > 0 { EveryKvCounts(kvs[1..]); }
  }

  lemma MagicNumber()
    ensures Number(Magic()) == MAGIC
  {
    assert Magic() == [0x47, 0x47, 0x55, 0x46];
    FourBytes(0x47, 0x47, 0x55, 0x46);
  }

  lemma FourBytes(a: byte, b: byte, c: byte, d: byte)
    ensures Number([a, b, c, d]) == a + 256 * (b + 256 * (c + 256 * d))
  {
    assert [a, b, c, d][1..] == [b, c, d] && [b, c, d][1..] == [c, d] && [c, d][1..] == [d] && [d][1..] == [];
    assert Number([]) == 0 && Number([d]) == d && Number([c, d]) == c + 256 * d;
    assert Number([b, c, d]) == b + 256 * (c + 256 * d);
  }

  lemma HeadRead(b: seq<byte>, version: nat, nTensors: nat, nKv: nat)
    requires Holds(b, 0, Head(version, nTensors, nKv)) && version < U32 && nTensors < U64 && nKv < U64
    ensures |b| >= 24 && Number(b[..4]) == MAGIC && Number(b[4..8]) == version
    ensures Number(b[8..16]) == nTensors && Number(b[16..24]) == nKv
  {
    MagicNumber();
    assert Bound(4) == U32 && Bound(8) == U64 by { Bounds(); }
    hide Le, Number, Bound, Magic;
    var c := Le(nTensors, 8) + Le(nKv, 8);
    HoldsParts(b, 0, Magic(), Le(version, 4) + c);
    HoldsParts(b, 4, Le(version, 4), c);
    HoldsParts(b, 8, Le(nTensors, 8), Le(nKv, 8));
    assert b[0..4] == b[..4];
    NumberOfLe(version, 4);
    NumberOfLe(nTensors, 8);
    NumberOfLe(nKv, 8);
  }

  lemma RecordsDescribable(es: seq<Planned>, alignment: nat)
    requires alignment > 0 && AllDescribable(es) && OffsetOf(es, |es|, alignment) < U64
    ensures RecordsFit(Records(es, alignment))
  {
    hide SizeOf, Pad, DimsFit, Writable;
    forall i | 0 <= i < |es| ensures RecordOf(es, i, alignment).Fits() && DimsFit(es[i].ne) {
      assert Describable(es[i]);
      RangesDisjoint(es, i, |es|, alignment);
      DescribableDims(es[i]);
    }
  }

  lemma DescribableDims(e: Planned)
    requires Describable(e)
    ensures 1 <= |e.ne| <= 4 && forall i :: 0 <= i < |e.ne| ==> e.ne[i] < U64
  {
  }

  /** A described tensor is placed where it was planned. */
  lemma Placed(es: seq<Planned>, i: nat, alignment: nat, dataPos: nat, size: nat)
    requires alignment > 0 && AllDescribable(es) && i < |es|
    requires dataPos + OffsetOf(es, |es|, alignment) <= size < U64
    ensures Place(RecordOf(es, i, alignment), dataPos, size) == Some(LoadedOf(es, i, alignment, dataPos))
  {
    RangesDisjoint(es, i, |es|, alignment);
    var e := es[i];
    assert Describable(e);
    DescribableBytes(e);
    hide OffsetOf, LoaderBytes, SizeOf, Elements, Describable;
  }

  lemma DescribableBytes(e: Planned)
    requires Describable(e) && SizeOf(e) < U64
    ensures LoaderBytes(e.t, Elements(e.ne)) <= SizeOf(e)
    ensures e.t != NVFP4 ==> LoaderBytes(e.t, Elements(e.ne)) == SizeOf(e)
  {
    assert Shared(e.t) || e.t == NVFP4;
    assert e.ne[0] % Traits(e.t).0 == 0 by { if !CanQuantize(e.t) { assert Traits(e.t).0 == 1; } }
    hide LoaderTraits, WriterBytes, Elements;
    SizesAgree(e.t, e.ne);
  }

  lemma {:induction false} AllPlaced(es: seq<Planned>, n: nat, alignment: nat, dataPos: nat, size: nat)
    requires alignment > 0 && AllDescribable(es) && n <= |es|
    requires dataPos + OffsetOf(es, |es|, alignment) <= size < U64
    ensures PlaceAll(Records(es, alignment)[..n], dataPos, size) == Some(AllLoaded(es, alignment, dataPos)[..n])
    decreases n
  {
    hide Place, OffsetOf, LoadedOf, AllDescribable;
    var rs, all := Records(es, alignment), AllLoaded(es, alignment, dataPos);
    if n == 0 {
    } else {
      AllPlaced(es, n - 1, alignment, dataPos, size);
      Placed(es, n - 1, alignment, dataPos, size);
      assert rs[..n][..n - 1] == rs[..n - 1] && rs[..n][n - 1] == rs[n - 1];
      assert all[..n] == all[..n - 1] + [all[n - 1]];
    }
  }

  /**
   Loading a written file recovers every record, name, shape, type and offset, for version 3; the only other reason to
   refuse it is that it is shorter than 32 bytes.
   */
  lemma WrittenFileLoads(version: nat, kvs: seq<Kv>, es: seq<Planned>, data: seq<seq<byte>>, alignment: nat)
    requires alignment == LoaderAlignment(kvs) && alignment > 0
    requires version < U32 && ValidKvs(kvs) && AllDescribable(es) && Sized(es, data)
    requires |File(version, kvs, Records(es, alignment), data, alignment)| < U64
    ensures var rs := Records(es, alignment);
      var dataPos := Pad(|Meta(version, kvs, rs)|, alignment);
      LoadFile(File(version, kvs, rs, data, alignment)) ==
        if version != 3 || |File(version, kvs, rs, data, alignment)| < 32 then None
        else Some(Model(kvs, alignment, AllLoaded(es, alignment, dataPos), dataPos))
  {
    hide Number, Le, ValidKvs, AllDescribable, Sized, LoaderAlignment, EncodeKvs, EncodeRecords, Records, AllLoaded,
      KvsAt, RecordsAt, PlaceAll, Pad, OffsetOf, Head, AlignUp, Data;
    var rs := Records(es, alignment);
    var meta := Meta(version, kvs, rs);
    var b := File(version, kvs, rs, data, alignment);
    var dataPos := Pad(|meta|, alignment);
    assert Holds(b, 0, meta) by { MetaFirst(meta, alignment, Data(data, alignment)); }
    HoldsParts(b, 0, Head(version, |rs|, |kvs|), EncodeKvs(kvs) + EncodeRecords(rs));
    HoldsParts(b, 24, EncodeKvs(kvs), EncodeRecords(rs));
    EveryRecordCounts(rs);
    EveryKvCounts(kvs);
    HeadRead(b, version, |rs|, |kvs|);
    KvsRead(b, 24, kvs);
    DataLength(es, data, alignment);
    RecordsDescribable(es, alignment);
    RecordsRead(b, 24 + |EncodeKvs(kvs)|, rs);
    AlignUpIsPad(|meta|, alignment);
    AllPlaced(es, |es|, alignment, dataPos, |b|);
    WholeSeqs(rs, AllLoaded(es, alignment, dataPos), |es|);
  }

  lemma WholeSeqs(rs: seq<Record>, all: seq<Loaded>, n: nat)
    requires |rs| == n && |all| == n
    ensures rs[..n] == rs && all[..n] == all
  {
  }

  lemma MetaFirst(meta: seq<byte>, alignment: nat, rest: seq<byte>)
    requires alignment > 0
    ensures Holds(Padded(meta, alignment) + rest, 0, meta)
  {
    HereIsPart(Padded(meta, alignment) + rest, [], Padded(meta, alignment), meta);
    hide Pad;
  }

  /** The loader finds each tensor's bytes at its absolute offset, aligned, inside the file, and of the size that it
      computes itself; only for the type it does not know it computes none. */
  lemma LoadedBytes(version: nat, kvs: seq<Kv>, es: seq<Planned>, data: seq<seq<byte>>, alignment: nat, i: nat)
    requires alignment > 0 && AllDescribable(es) && Sized(es, data) && i < |es|
    requires |File(version, kvs, Records(es, alignment), data, alignment)| < U64
    ensures var rs := Records(es, alignment);
      var dataPos := Pad(|Meta(version, kvs, rs)|, alignment);
      var t := LoadedOf(es, i, alignment, dataPos);
      && Holds(File(version, kvs, rs, data, alignment), t.absOffset, data[i])
      && t.absOffset % alignment == 0
      && t.bytes == if es[i].t == NVFP4 then 0 else |data[i]|
  {
    hide Pad, Meta, SizeOf, OffsetOf, Elements, LoaderBytes, Records, Data;
    var rs := Records(es, alignment);
    var meta := Meta(version, kvs, rs);
    TensorBytesAt(es, data, i, alignment);
    DataLength(es, data, alignment);
    RangesDisjoint(es, i, |es|, alignment);
    SumOfMultiples(Pad(|meta|, alignment), OffsetOf(es, i, alignment), alignment);
    LaterHolds(Padded(meta, alignment), Data(data, alignment), OffsetOf(es, i, alignment), data[i]);
    DescribableBytes(es[i]);
    if es[i].t == NVFP4 { UnknownHasNone(NVFP4, Elements(es[i].ne)); }
  }

  lemma LaterHolds(front: seq<byte>, b: seq<byte>, pos: nat, part: seq<byte>)
    requires Holds(b, pos, part)
    ensures Holds(front + b, |front| + pos, part)
  {
    forall k | 0 <= k < |part| ensures (front + b)[|front| + pos..|front| + pos + |part|][k] == part[k] {
      assert b[pos..pos + |part|][k] == b[pos + k];
    }
  }

  /** A tensor of the template whose name and shape the format can hold. */
  predicate Storable(p: Planned) {
    |p.name| < U64 && DimsFit(p.ne)
  }

  predicate AllStorable(ps: seq<Planned>) {
    forall i :: 0 <= i < |ps| ==> Storable(ps[i])
  }

  lemma ExpandStorable(p: Planned)
    requires Storable(p)
    ensures AllStorable(Expand(p))
  {
    hide FindEnds, Elements;
    var d := Dim(p.ne, 2);
    assert d < U64;
    OneDim(d);
  }

  lemma OneDim(d: nat)
    requires d < U64
    ensures DimsFit([d])
  {
    var ne := [d];
    forall k | 0 <= k <= |ne|
      ensures Elements(ne[..k]) < U64
    {
      if k == 1 {
        assert ne[..1] == ne && ne[..0] == [];
      }
    }
  }

  lemma {:induction false} ExpandedStorable(ps: seq<Planned>)
    requires AllStorable(ps)
    ensures AllStorable(ExpandAll(ps))
  {
    hide Storable, Expand;
    if |ps| == 0 {
    } else {
      ExpandedStorable(ps[..|ps| - 1]);
      ExpandStorable(ps[|ps| - 1]);
    }
  }

  lemma PlannableIsU32(t: nat)
    requires Plannable(t)
    ensures t < U32
  {
  }

  /** What the plan accepts with names and shapes of the format, expands to entries that both programs can describe. */
  lemma ExpandedDescribable(ps: seq<Planned>)
    requires AllWritable(ps) && AllStorable(ps)
    ensures AllDescribable(ExpandAll(ps))
  {
    hide ExpandAll, Plannable, CanQuantize, Traits, DimsFit;
    ExpandedWritable(ps);
    ExpandedStorable(ps);
    forall i | 0 <= i < |ExpandAll(ps)|
      ensures Describable(ExpandAll(ps)[i])
    {
      assert Writable(ExpandAll(ps)[i]) && Storable(ExpandAll(ps)[i]);
      PlannableIsU32(ExpandAll(ps)[i].t);
    }
  }

  /**
   From a template to the model: the loader recovers the template's records without the stale ones, then the provenance,
   the alignment the tool laid the file out with, and every planned tensor.
   */
  lemma TemplateToModel(template: seq<byte>, version: nat, n: nat, im: Option<Imatrix>, reap: Option<ReapRecord>,
                        ps: seq<Planned>, data: seq<seq<byte>>)
    requires 24 <= |template| < U64 && version < U32 && KvsAt(template, 24, n, true).Some?
    requires NothingHidden(KvsAt(template, 24, n, true).value.0)
    requires (im.Some? ==> im.value.Valid()) && (reap.Some? ==> reap.value.Valid())
    requires AllWritable(ps) && AllStorable(ps) && Sized(ExpandAll(ps), data)
    ensures WriterAlignment(KvsAt(template, 24, n, true).value.0) > 0
    ensures var kvs := KvsAt(template, 24, n, true).value.0;
      var alignment := WriterAlignment(kvs);
      var all := Kept(kvs) + ExtraKvs(im, reap);
      var rs := Records(ExpandAll(ps), alignment);
      var b := File(version, all, rs, data, alignment);
      var dataPos := Pad(|Meta(version, all, rs)|, alignment);
      |b| < U64 ==>
        LoadFile(b) == if version != 3 || |b| < 32 then None
                       else Some(Model(all, alignment, AllLoaded(ExpandAll(ps), alignment, dataPos), dataPos))
  {
    hide KvsAt, LoadFile, File, Meta, Kept, ExtraKvs, Records, AllLoaded, WriterAlignment, LoaderAlignment,
         AllDescribable, AllWritable, AllStorable, Sized, ValidKv, ExpandAll, Pad, NothingHidden, Imatrix.Valid,
         ReapRecord.Valid;
    var kvs := KvsAt(template, 24, n, true).value.0;
    AlignmentPositive(kvs);
    KvsAtAre(template, 24, n, true);
    KeptValid(kvs);
    ExtrasValid(im, reap);
    var all := Kept(kvs) + ExtraKvs(im, reap);
    assert ValidKvs(all);
    WrittenAlignment(kvs, im, reap);
    ExpandedDescribable(ps);
    if |File(version, all, Records(ExpandAll(ps), WriterAlignment(kvs)), data, WriterAlignment(kvs))| < U64 {
      WrittenFileLoads(version, all, ExpandAll(ps), data, WriterAlignment(kvs));
    }
  }

  // ---- writing in place -------------------------------------------------------------------------------------------

  /** The loop over the directory. */
  method WriteDirectory(out: Output, rs: seq<Record>)
    modifies out
    ensures out.bytes == old(out.bytes) + EncodeRecords(rs)
  {
    hide EncodeRecords, EncodeString, Le;
    assert EncodeRecords(rs[..0]) == [] by { NoRecords(); assert rs[..0] == []; }
    for i := 0 to |rs|
      invariant out.bytes == old(out.bytes) + EncodeRecords(rs[..i])
    {
      var r := rs[i];
      ghost var was := out.bytes;
      out.WriteString(r.name);
      out.WriteNumber(|r.ne|, 4);
      ghost var head := out.bytes;
      assert EncodeDims(r.ne[..0]) == [] by { assert r.ne[..0] == []; }
      for j := 0 to |r.ne|
        invariant out.bytes == head + EncodeDims(r.ne[..j])
      {
        EncodeDimsSnoc(r.ne[..j], r.ne[j]);
        assert r.ne[..j + 1] == r.ne[..j] + [r.ne[j]];
        out.WriteNumber(r.ne[j], 8);
      }
      assert r.ne[..|r.ne|] == r.ne;
      out.WriteNumber(r.t, 4);
      out.WriteNumber(r.offset, 8);
      assert out.bytes == was + EncodeRecord(r);
      EncodeRecordsSnoc(rs, i);
    }
    assert rs[..|rs|] == rs;
  }

  lemma NoRecords()
    ensures EncodeRecords([]) == []
  {
  }

  lemma EncodeRecordsSnoc(rs: seq<Record>, i: nat)
    requires i < |rs|
    ensures EncodeRecords(rs[..i + 1]) == EncodeRecords(rs[..i]) + EncodeRecord(rs[i])
  {
    EncodeRecordsAppend(rs[..i], [rs[i]]);
    assert rs[..i + 1] == rs[..i] + [rs[i]];
    assert EncodeRecords([rs[i]]) == EncodeRecord(rs[i]) + EncodeRecords([]);
  }

  /** The loop over the data: dies when a tensor does not have its planned size. */
  method WriteData(out: Output, data: seq<seq<byte>>, sizes: seq<nat>, alignment: nat) returns (ok: bool)
    requires alignment > 0 && |data| == |sizes|
    modifies out
    ensures ok <==> forall i :: 0 <= i < |data| ==> |data[i]| == sizes[i]
    ensures ok ==> out.bytes == old(out.bytes) + Data(data, alignment)
  {
    hide Pad;
    for i := 0 to |data|
      invariant out.bytes == old(out.bytes) + Data(data[..i], alignment)
      invariant forall k :: 0 <= k < i ==> |data[k]| == sizes[k]
    {
      assert data[..i + 1][..i] == data[..i];
      if |data[i]| != sizes[i] { return false; }
      ghost var was := out.bytes;
      out.Write(data[i]);
      out.WritePadding(Pad(|data[i]|, alignment) - |data[i]|);
      assert out.bytes == was + Padded(data[i], alignment);
    }
    assert data[..|data|] == data;
    return true;
  }

  /** The size that the plan keeps with an entry. */
  function PlannedSize(r: Record): nat {
    if |r.ne| == 0 then 0 else WriterBytes(r.t, r.ne)
  }

  lemma PlannedSizes(es: seq<Planned>, alignment: nat)
    requires alignment > 0
    ensures forall i :: 0 <= i < |es| ==> PlannedSize(Records(es, alignment)[i]) == SizeOf(es[i])
  {
    hide WriterBytes, OffsetOf;
  }

  /**
   write_full_gguf: with the planned tensors, sizes and offset, exactly the file, unless a tensor has the wrong size.
   */
  method WriteFullGguf(out: Output, version: nat, kvRaw: seq<byte>, nKv: nat, ghost kept: seq<Kv>, im: Option<Imatrix>,
                       reap: Option<ReapRecord>, ps: seq<Planned>, data: seq<seq<byte>>, alignment: nat)
    returns (ok: bool)
    requires kvRaw == EncodeKvs(kept) && nKv == |kept|
    requires alignment > 0 && (reap.Some? ==> reap.value.Valid()) && |data| == |ExpandAll(ps)| && out.bytes == []
    modifies out
    ensures ok <==> AllWritable(ps) && Sized(ExpandAll(ps), data)
    ensures ok ==>
      out.bytes == File(version, kept + ExtraKvs(im, reap), Records(ExpandAll(ps), alignment), data, alignment)
  {
    hide Pad, Le, EncodeKvs, EncodeRecords, Records, OffsetOf, TensorInfo, ExpandAll, AllWritable, Data, SizeOf,
      ImatrixKvs, ReapKvs, ImatrixSize, ReapSize, ImatrixCount, ReapCount, CountCompanions, Magic, PlannedSize;
    ghost var es := ExpandAll(ps);
    var planned := PlanTensors(ps, alignment);
    if planned == None { return false; }
    var (tensors, tensorInfo, tensorBytes) := planned.value;
    PlannedIsWritten(version, kept, im, reap, ps, alignment);
    var dataOffset := Pad(MetaSize(|kvRaw|, im, reap, tensorInfo), alignment);
    out.Write(Magic());
    out.WriteNumber(version, 4);
    out.WriteNumber(|ps| + CountCompanions(ps), 8);
    out.WriteNumber(nKv + (ImatrixCount(im) + ReapCount(reap)), 8);
    ghost var kvs := kept + ExtraKvs(im, reap);
    assert out.bytes == Head(version, |tensors|, |kvs|);
    out.Write(kvRaw);
    out.WriteImatrixKvs(im);
    out.WriteReapKvs(reap);
    EncodeKvsAppend(ImatrixKvs(im), ReapKvs(reap));
    EncodeKvsAppend(kept, ExtraKvs(im, reap));
    assert out.bytes == Head(version, |tensors|, |kvs|) + EncodeKvs(kvs);
    WriteDirectory(out, tensors);
    assert out.bytes == Meta(version, kvs, tensors);
    assert |out.bytes| <= dataOffset;
    out.WritePadding(dataOffset - |out.bytes|);
    assert out.bytes == Padded(Meta(version, kvs, tensors), alignment);
    var sizes := seq(|tensors|, i requires 0 <= i < |tensors| => PlannedSize(tensors[i]));
    assert forall i :: 0 <= i < |es| ==> sizes[i] == SizeOf(es[i]) by { PlannedSizes(es, alignment); }
    ok := WriteData(out, data, sizes, alignment);
  }

  /**
   The tool from its template to the written file, and the loader on that file: unless a key hides its text, and the
   format cannot hold the names and shapes, it opens as the model that was planned.
   */
  method ConvertTemplate(out: Output, template: seq<byte>, version: nat, n: nat, im: Option<Imatrix>,
                         reap: Option<ReapRecord>, ps: seq<Planned>, data: seq<seq<byte>>)
    returns (ok: bool, ghost kvs: seq<Kv>)
    requires 24 <= |template| < U64 && version < U32 && |data| == |ExpandAll(ps)| && out.bytes == []
    requires (im.Some? ==> im.value.Valid()) && (reap.Some? ==> reap.value.Valid())
    modifies out
    ensures ok <==> KvsAt(template, 24, n, true).Some? && AllWritable(ps) && Sized(ExpandAll(ps), data)
    ensures ok ==> kvs == KvsAt(template, 24, n, true).value.0 && WriterAlignment(kvs) > 0
    ensures ok && NothingHidden(kvs) && AllStorable(ps) && version == 3 && 32 <= |out.bytes| < U64 ==>
      var alignment := WriterAlignment(kvs);
      var all := Kept(kvs) + ExtraKvs(im, reap);
      var dataPos := Pad(|Meta(version, all, Records(ExpandAll(ps), alignment))|, alignment);
      LoadFile(out.bytes)
        == Some(Model(all, alignment, AllLoaded(ExpandAll(ps), alignment, dataPos), dataPos))
  {
    hide KvsAt, LoadFile, File, Meta, Kept, ExtraKvs, Records, AllLoaded, WriterAlignment, AllWritable, AllStorable,
         Sized, ExpandAll, Pad, NothingHidden, Imatrix.Valid, ReapRecord.Valid, EncodeKvs;
    kvs := [];
    var read := LoadKeyValues(template, 24, n);
    if read == None { return false, kvs; }
    var (kvRaw, nKv, alignment, end) := read.value;
    kvs := KvsAt(template, 24, n, true).value.0;
    AlignmentPositive(kvs);
    ok := WriteFullGguf(out, version, kvRaw, nKv, Kept(kvs), im, reap, ps, data, alignment);
    if ok && NothingHidden(kvs) && AllStorable(ps) { TemplateToModel(template, version, n, im, reap, ps, data); }
  }
}
