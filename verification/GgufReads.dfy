/**
 Which files the loader opens, and as what (src/model/ds4_gguf.c:220-297, 305-384): exactly those whose bytes begin with
 a head of version 3, valid records and a readable directory, and that hold every tensor.
 */
module GgufReads {
  import opened ByteEncoding
  import opened GgufValues
  import opened GgufMetadata
  import opened GgufPlan
  import opened GgufLoad
  import opened GgufFile
  import opened GgufLayout

  // ---- the directory ----------------------------------------------------------------------------------

  lemma ElementsFitMore(ne: seq<nat>, d: nat)
    requires DimsFit(ne) && d < U64 && Elements(ne) * d < U64
    ensures DimsFit(ne + [d])
  {
    var more := ne + [d];
    ElementsStep(ne, d);
    hide Elements;
    forall k | 0 <= k <= |more|
      ensures Elements(more[..k]) < U64
    {
      if k <= |ne| { assert more[..k] == ne[..k]; } else { assert more[..k] == more; }
    }
  }

  lemma ProductFits(a: nat, d: nat)
    requires d == 0 || a <= (U64 - 1) / d
    ensures a * d < U64
  {
    if d > 0 {
      var q := (U64 - 1) / d;
      assert U64 - 1 == q * d + (U64 - 1) % d;
      AtMostTimes(a, q, d);
    }
  }

  lemma AtMostTimes(a: nat, q: nat, d: nat)
    requires a <= q
    ensures a * d <= q * d
  {
    assert (q - a) * d >= 0;
  }

  lemma {:induction false} DimsAtAre(b: seq<byte>, pos: nat, n: nat)
    requires |b| < U64 && pos <= |b| && DimsAt(b, pos, n).Some?
    ensures var (ne, end) := DimsAt(b, pos, n).value;
      |ne| == n && DimsFit(ne) && Holds(b, pos, EncodeDims(ne)) && end == pos + 8 * n <= |b|
    decreases n
  {
    hide Le, Number, Bound, Read, DimsFit, Elements;
    if n == 0 {
      NoDims();
    } else {
      DimsAtAre(b, pos, n - 1);
      var (ne, at) := DimsAt(b, pos, n - 1).value;
      assert Read(b, at, 8).Some?;
      var (d, end) := Read(b, at, 8).value;
      assert Bound(8) == U64 by { Bounds(); }
      ReadIsLe(b, at, 8);
      ProductFits(Elements(ne), d);
      ElementsFitMore(ne, d);
      EncodeDimsSnoc(ne, d);
      HoldsParts(b, pos, EncodeDims(ne), Le(d, 8));
    }
  }

  lemma NoDims()
    ensures DimsFit([]) && EncodeDims([]) == []
  {
  }

  /** A directory entry is read exactly where the encoding of a readable one stands. */
  lemma RecordAtIs(b: seq<byte>, pos: nat)
    requires |b| < U64 && pos <= |b| && RecordAt(b, pos).Some?
    ensures var (r, end) := RecordAt(b, pos).value;
      r.Readable() && DimsFit(r.ne) && Holds(b, pos, EncodeRecord(r)) && end == pos + |EncodeRecord(r)| <= |b|
  {
    hide Le, Number, Bound, Read, ReadString, EncodeString, EncodeDims, DimsAt, ElementsFit, Holds;
    assert Bound(4) == U32 && Bound(8) == U64 by { Bounds(); }
    ReadStringIs(b, pos);
    var (name, at) := ReadString(b, pos).value;
    ReadIsLe(b, at, 4);
    var (ndim, dims) := Read(b, at, 4).value;
    HoldsInside(b, at, Le(ndim, 4));
    DimsAtAre(b, dims, ndim);
    var (ne, after) := DimsAt(b, dims, ndim).value;
    ReadIsLe(b, after, 4);
    var (t, last) := Read(b, after, 4).value;
    ReadIsLe(b, last, 8);
    var (offset, end) := Read(b, last, 8).value;
    HoldsInside(b, last, Le(offset, 8));
    var d := Le(t, 4) + Le(offset, 8);
    var c := EncodeDims(ne) + d;
    HoldsParts(b, after, Le(t, 4), Le(offset, 8));
    HoldsParts(b, dims, EncodeDims(ne), d);
    HoldsParts(b, at, Le(ndim, 4), c);
    HoldsParts(b, pos, EncodeString(name), Le(ndim, 4) + c);
  }

  lemma HoldsInside(b: seq<byte>, pos: nat, e: seq<byte>)
    requires Holds(b, pos, e)
    ensures pos + |e| <= |b|
  {
  }

  lemma {:induction false} RecordsAtAre(b: seq<byte>, pos: nat, n: nat)
    requires |b| < U64 && pos <= |b| && RecordsAt(b, pos, n).Some?
    ensures var (rs, end) := RecordsAt(b, pos, n).value;
      |rs| == n && RecordsFit(rs) && Holds(b, pos, EncodeRecords(rs)) && end == pos + |EncodeRecords(rs)| <= |b|
    decreases n
  {
    hide RecordAt, EncodeRecord, DimsFit, Record.Readable;
    if n == 0 {
    } else {
      RecordAtIs(b, pos);
      var (r, next) := RecordAt(b, pos).value;
      RecordsAtAre(b, next, n - 1);
      var (rest, end) := RecordsAt(b, next, n - 1).value;
      var rs := [r] + rest;
      assert rs[0] == r && rs[1..] == rest;
      HoldsParts(b, pos, EncodeRecord(r), EncodeRecords(rest));
    }
  }

  // ---- the tensors ------------------------------------------------------------------------------------

  /** The tensor is where its record says, with the bytes that the loader computes, and inside the file unless empty. */
  predicate Placed(t: Loaded, dataPos: nat, size: nat) {
    && t.elements == Elements(t.record.ne) && t.bytes == LoaderBytes(t.record.t, t.elements)
    && t.absOffset == dataPos + t.record.offset < U64
    && (t.bytes > 0 ==> t.absOffset + t.bytes <= size)
  }

  lemma PlaceExactly(r: Record, dataPos: nat, size: nat, t: Loaded)
    ensures Place(r, dataPos, size) == Some(t) <==> t.record == r && Placed(t, dataPos, size)
  {
    hide LoaderBytes, Elements;
  }

  function RecordsOf(ts: seq<Loaded>): (rs: seq<Record>)
    ensures |rs| == |ts| && forall i :: 0 <= i < |ts| ==> rs[i] == ts[i].record
  {
    seq(|ts|, i requires 0 <= i < |ts| => ts[i].record)
  }

  predicate AllPlaced(ts: seq<Loaded>, dataPos: nat, size: nat) {
    forall i :: 0 <= i < |ts| ==> Placed(ts[i], dataPos, size)
  }

  lemma {:induction false} PlaceAllExactly(rs: seq<Record>, dataPos: nat, size: nat, ts: seq<Loaded>)
    ensures PlaceAll(rs, dataPos, size) == Some(ts) <==> RecordsOf(ts) == rs && AllPlaced(ts, dataPos, size)
    decreases |rs|
  {
    hide Place, Placed, AllPlaced, RecordsOf;
    if |rs| == 0 {
      if ts == [] { NothingPlaced(dataPos, size); }
    } else if |ts| > 0 {
      var before, t := ts[..|ts| - 1], ts[|ts| - 1];
      PlaceAllExactly(rs[..|rs| - 1], dataPos, size, before);
      PlaceExactly(rs[|rs| - 1], dataPos, size, t);
      LastRecord(rs, ts);
      LastPlaced(ts, dataPos, size);
      assert ts == before + [t];
    }
  }

  lemma NothingPlaced(dataPos: nat, size: nat)
    ensures RecordsOf([]) == [] && AllPlaced([], dataPos, size)
  {
  }

  lemma LastRecord(rs: seq<Record>, ts: seq<Loaded>)
    requires |rs| > 0 && |ts| > 0
    ensures RecordsOf(ts) == rs
       <==> RecordsOf(ts[..|ts| - 1]) == rs[..|rs| - 1] && ts[|ts| - 1].record == rs[|rs| - 1]
  {
    var a, b := RecordsOf(ts), RecordsOf(ts[..|ts| - 1]);
    assert a == b + [ts[|ts| - 1].record];
    assert rs == rs[..|rs| - 1] + [rs[|rs| - 1]];
  }

  lemma LastPlaced(ts: seq<Loaded>, dataPos: nat, size: nat)
    requires |ts| > 0
    ensures AllPlaced(ts, dataPos, size)
       <==> AllPlaced(ts[..|ts| - 1], dataPos, size) && Placed(ts[|ts| - 1], dataPos, size)
  {
    hide Placed;
    var before := ts[..|ts| - 1];
    assert forall i :: 0 <= i < |before| ==> before[i] == ts[i];
    if AllPlaced(before, dataPos, size) && Placed(ts[|ts| - 1], dataPos, size) {
      forall i | 0 <= i < |ts|
        ensures Placed(ts[i], dataPos, size)
      {
        if i < |before| { assert Placed(before[i], dataPos, size); }
      }
    }
  }

  // ---- the file ---------------------------------------------------------------------------------------

  /** The bytes in front of the data, with their magic number, version and counts. */
  function FrontOf(kvs: seq<Kv>, rs: seq<Record>): seq<byte> {
    [0x47, 0x47, 0x55, 0x46] + U32Bytes(3) + U64Bytes(|rs|) + U64Bytes(|kvs|) + EncodeKvs(kvs) + EncodeRecords(rs)
  }

  /** The file begins with the records and the directory of m, and holds its tensors behind them on its alignment. */
  ghost predicate IsModel(b: seq<byte>, m: Model) {
    var rs := RecordsOf(m.tensors);
    && |b| >= 32 && FrontOf(m.kvs, rs) <= b
    && ValidKvs(m.kvs) && |m.kvs| < U64 && RecordsFit(rs) && |rs| < U64
    && m.alignment == LoaderAlignment(m.kvs) && m.alignment > 0
    && m.dataPos == AlignUp(|FrontOf(m.kvs, rs)|, m.alignment)
    && AllPlaced(m.tensors, m.dataPos, |b|)
  }

  /** The loader opens exactly such files, and as exactly that model. */
  lemma LoadsExactly(b: seq<byte>, m: Model)
    requires |b| < U64
    ensures LoadFile(b) == Some(m) <==> IsModel(b, m)
  {
    hide LoadBody, Number, LoaderAlignment, AlignUp, Placed, ValidKv, DimsFit, Record.Readable, U32Bytes, U64Bytes;
    if LoadFile(b) == Some(m) {
      LoadedIsModel(b, m);
    }
    if IsModel(b, m) {
      ModelIsLoaded(b, m);
    }
  }

  lemma FrontIs(kvs: seq<Kv>, rs: seq<Record>)
    ensures FrontOf(kvs, rs) == Head(3, |rs|, |kvs|) + (EncodeKvs(kvs) + EncodeRecords(rs))
  {
    HeadLayout(3, |rs|, |kvs|);
    hide Head, EncodeKvs, EncodeRecords, U32Bytes, U64Bytes;
  }

  lemma HoldsPrefix(b: seq<byte>, e: seq<byte>)
    ensures Holds(b, 0, e) <==> e <= b
  {
    if e <= b { assert b[0..|e|] == b[..|e|]; }
    if Holds(b, 0, e) { assert b[0..|e|] == b[..|e|]; }
  }

  lemma ModelIsLoaded(b: seq<byte>, m: Model)
    requires |b| < U64 && IsModel(b, m)
    ensures LoadFile(b) == Some(m)
  {
    hide LoaderAlignment, AlignUp, Placed, EncodeKvs, EncodeRecords, KvsAt, RecordsAt, PlaceAll, Number, Head, Holds,
         ValidKvs, RecordsFit, FrontOf;
    var rs := RecordsOf(m.tensors);
    FrontIs(m.kvs, rs);
    HoldsPrefix(b, FrontOf(m.kvs, rs));
    HoldsParts(b, 0, Head(3, |rs|, |m.kvs|), EncodeKvs(m.kvs) + EncodeRecords(rs));
    HoldsParts(b, 24, EncodeKvs(m.kvs), EncodeRecords(rs));
    HeadRead(b, 3, |rs|, |m.kvs|);
    KvsRead(b, 24, m.kvs);
    RecordsRead(b, 24 + |EncodeKvs(m.kvs)|, rs);
    PlaceAllExactly(rs, m.dataPos, |b|, m.tensors);
  }

  lemma LoadedIsModel(b: seq<byte>, m: Model)
    requires |b| < U64 && LoadFile(b) == Some(m)
    ensures IsModel(b, m)
  {
    hide LoaderAlignment, AlignUp, Placed, EncodeKvs, EncodeRecords, KvsAt, RecordsAt, PlaceAll, Number, Head, Holds,
         ValidKvs, RecordsFit, FrontOf;
    var nTensors, nKv := Number(b[8..16]), Number(b[16..24]);
    KvsAtAre(b, 24, nKv, false);
    var (kvs, at) := KvsAt(b, 24, nKv, false).value;
    HoldsInside(b, 24, EncodeKvs(kvs));
    RecordsAtAre(b, at, nTensors);
    var (rs, end) := RecordsAt(b, at, nTensors).value;
    HeadIs(b);
    AlignmentPositive(kvs);
    PlaceAllExactly(rs, AlignUp(end, LoaderAlignment(kvs)), |b|, m.tensors);
    FrontIs(kvs, rs);
    HoldsParts(b, 24, EncodeKvs(kvs), EncodeRecords(rs));
    HoldsParts(b, 0, Head(3, |rs|, |kvs|), EncodeKvs(kvs) + EncodeRecords(rs));
    HoldsPrefix(b, FrontOf(kvs, rs));
  }

  lemma HeadIs(b: seq<byte>)
    requires |b| >= 24 && Number(b[..4]) == MAGIC && Number(b[4..8]) == 3
    ensures Number(b[8..16]) < U64 && Number(b[16..24]) < U64
    ensures Holds(b, 0, Head(3, Number(b[8..16]), Number(b[16..24])))
  {
    LeOfNumber(b[..4]);
    LeOfNumber(b[4..8]);
    LeOfNumber(b[8..16]);
    LeOfNumber(b[16..24]);
    MagicBytes();
    assert Bound(8) == U64 by { Bounds(); }
    hide Le, Number, Bound, Magic;
    assert b[0..24] == b[..4] + (b[4..8] + (b[8..16] + b[16..24]));
  }

  lemma MagicBytes()
    ensures Le(MAGIC, 4) == Magic()
  {
    NumbersLayout(MAGIC);
    assert Magic() == [0x47, 0x47, 0x55, 0x46];
    hide Le;
  }
}
