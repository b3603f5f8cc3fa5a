/**
 Opening a GGUF file, src/model/ds4_gguf.c:85-142, 220-297, 305-384. The file is a byte sequence; dying is the
 result None.
 */
module GgufLoad {
  import opened ByteEncoding
  import opened GgufValues
  import opened GgufMetadata
  import opened GgufPlan

  const MAGIC: nat := 0x4655_4747
  const MAX_DIMS: nat := 8

  // ---- sizes ------------------------------------------------------------------------------------------

  /** gguf_types: elements and bytes of a block; no bytes for a type that is not in the table. */
  function LoaderTraits(t: nat): (r: (nat, nat))
    ensures r.0 > 0
  {
    if t == 0 then (1, 4) else if t == 1 then (1, 2) else if t == 2 then (32, 18) else if t == 3 then (32, 20)
    else if t == 6 then (32, 22) else if t == 7 then (32, 24) else if t == 8 then (32, 34) else if t == 9 then (32, 40)
    else if t == 10 then (256, 84) else if t == 11 then (256, 110) else if t == 12 then (256, 144)
    else if t == 13 then (256, 176) else if t == 14 then (256, 210) else if t == 15 then (256, 292)
    else if t == 16 then (256, 66) else if t == 17 then (256, 74) else if t == 18 then (256, 98)
    else if t == 19 then (256, 110) else if t == 20 then (256, 50) else if t == 21 then (256, 110)
    else if t == 22 then (256, 82) else if t == 23 then (256, 136) else if t == 24 then (1, 1)
    else if t == 25 then (1, 2) else if t == 26 then (1, 4) else if t == 27 then (1, 8) else if t == 28 then (1, 8)
    else if t == 29 then (256, 56) else if t == 30 then (1, 2)
    else (1, 0)
  }

  /** tensor_nbytes of the loader, in 64 bits; a tensor of an unknown type keeps its zero bytes. */
  function LoaderBytes(t: nat, elements: nat): nat {
    var (size, bytes) := LoaderTraits(t);
    if bytes == 0 then 0 else
    var blocks := (elements + size - 1) % U64 / size;
    if blocks > (U64 - 1) / bytes then 0 else blocks * bytes
  }

  /** align_up, in 64 bits */
  function AlignUp(value: nat, alignment: nat): nat
    requires alignment > 0
  {
    var rem := value % alignment;
    if rem == 0 then value else (value + alignment - rem) % U64
  }

  lemma PadIs(value: nat, n: nat, q: nat, rem: nat)
    requires n > 0 && value == q * n + rem && rem < n
    ensures Pad(value, n) == if rem == 0 then value else value + n - rem
  {
    if rem == 0 {
      UniqueQuotient(value + n - 1, n, q, n - 1);
    } else {
      assert (q + 1) * n == q * n + n;
      UniqueQuotient(value + n - 1, n, q + 1, rem - 1);
    }
  }

  /** The two roundings agree. */
  lemma AlignUpIsPad(value: nat, alignment: nat)
    requires alignment > 0 && Pad(value, alignment) < U64
    ensures AlignUp(value, alignment) == Pad(value, alignment)
  {
    hide Pad;
    var q, rem := value / alignment, value % alignment;
    assert value == q * alignment + rem;
    PadIs(value, alignment, q, rem);
  }

  function Elements(ne: seq<nat>): nat {
    if |ne| == 0 then 1 else Elements(ne[..|ne| - 1]) * ne[|ne| - 1]
  }

  /** The product of every prefix fits 64 bits: no element count overflows. */
  predicate ElementsFit(ne: seq<nat>) {
    forall k :: 0 <= k <= |ne| ==> Elements(ne[..k]) < U64
  }

  /** The number of elements is the first dimension times the rest. */
  lemma {:induction false} ElementsSplit(ne: seq<nat>, n: nat)
    requires 1 <= n <= |ne|
    ensures Elements(ne[..n]) == ne[0] * Rest(ne, n)
  {
    assert ne[..n][..n - 1] == ne[..n - 1] && ne[..n][n - 1] == ne[n - 1];
    if n == 1 {
      assert Elements(ne[..0]) == 1;
    } else {
      ElementsSplit(ne, n - 1);
      Associate(ne[0], Rest(ne, n - 1), ne[n - 1]);
    }
  }

  lemma Associate(a: nat, b: nat, c: nat)
    ensures a * b * c == a * (b * c) && b * a == a * b
  {
  }

  /** The types both programs know: f32, f16, q8_0, q2_K, q4_K, iq2_xxs, i32 and bf16. */
  predicate Shared(t: nat) {
    t == F32 || t == F16 || t == Q8_0 || t == Q2_K || t == Q4_K || t == IQ2_XXS || t == I32 || t == BF16
  }

  lemma WholeBlocks(blocks: nat, size: nat)
    requires (size == 1 || size == 32 || size == 256) && blocks * size < U64
    ensures (blocks * size + size - 1) % U64 / size == blocks
  {
  }

  lemma BytesFit(blocks: nat, bytes: nat)
    requires bytes > 0 && blocks * bytes < U64
    ensures blocks <= (U64 - 1) / bytes
  {
    var q, r := (U64 - 1) / bytes, (U64 - 1) % bytes;
    assert U64 - 1 == q * bytes + r;
    if blocks > q { Apart(q, blocks, bytes); }
  }

  lemma BlocksOf(n: nat, size: nat)
    requires size > 0 && n % size == 0
    ensures n / size * size == n
  {
  }

  /** Writer and loader give a tensor the same size; the loader gives the type it does not know none. */
  lemma SizesAgree(t: nat, ne: seq<nat>)
    requires 1 <= |ne| && ElementsFit(ne) && WriterBytes(t, ne) < U64 && ne[0] % Traits(t).0 == 0
    ensures Shared(t) ==> LoaderBytes(t, Elements(ne)) == WriterBytes(t, ne)
    ensures t == NVFP4 ==> LoaderBytes(t, Elements(ne)) == 0
  {
    SharedTraits(t);
    hide Elements, Rest, WriterBytes, LoaderTraits, Traits, LoaderBytes;
    if Shared(t) {
      var (size, bytes) := Traits(t);
      var rest := Rest(ne, |ne|);
      ElementsSplit(ne, |ne|);
      assert ne[..|ne|] == ne;
      var perRow := ne[0] / size;
      BlocksOf(ne[0], size);
      BlocksTimesSize(perRow, size, rest);
      BlocksTimesSize(perRow, bytes, rest);
      assert Elements(ne[..|ne|]) < U64;
      WriterBytesIs(t, ne, perRow);
      LoaderBytesIs(t, Elements(ne), perRow * rest);
    } else if t == NVFP4 {
      assert LoaderBytes(t, Elements(ne)) == 0 by { UnknownHasNone(t, Elements(ne)); }
    }
  }

  lemma UnknownHasNone(t: nat, elements: nat)
    requires t == NVFP4
    ensures LoaderBytes(t, elements) == 0
  {
  }

  lemma SharedTraits(t: nat)
    ensures Shared(t) ==> LoaderTraits(t) == Traits(t) && Traits(t).1 > 0
    ensures Shared(t) ==> Traits(t).0 == 1 || Traits(t).0 == 32 || Traits(t).0 == 256
  {
  }

  lemma WriterBytesIs(t: nat, ne: seq<nat>, perRow: nat)
    requires |ne| >= 1 && ne[0] % Traits(t).0 == 0 && perRow == ne[0] / Traits(t).0
    ensures WriterBytes(t, ne) == Traits(t).1 * perRow * Rest(ne, |ne|)
  {
    hide Traits, Rest;
  }

  lemma LoaderBytesIs(t: nat, elements: nat, blocks: nat)
    requires LoaderTraits(t).1 > 0 && (LoaderTraits(t).0 == 1 || LoaderTraits(t).0 == 32 || LoaderTraits(t).0 == 256)
    requires elements == blocks * LoaderTraits(t).0 && elements < U64 && blocks * LoaderTraits(t).1 < U64
    ensures LoaderBytes(t, elements) == blocks * LoaderTraits(t).1
  {
    WholeBlocks(blocks, LoaderTraits(t).0);
    BytesFit(blocks, LoaderTraits(t).1);
    hide LoaderTraits;
  }

  lemma BlocksTimesSize(a: nat, size: nat, rest: nat)
    ensures a * size * rest == a * rest * size && size * a * rest == a * rest * size
  {
    Associate(a, size, rest);
    Associate(a, rest, size);
    Associate(rest, size, 1);
  }

  // ---- the directory -------------------------------------------------------------------------------------

  function DimsAt(b: seq<byte>, pos: nat, n: nat): Option<(seq<nat>, nat)>
    decreases n
  {
    if n == 0 then Some(([], pos)) else
    match DimsAt(b, pos, n - 1)
    case None => None
    case Some((ne, at)) =>
      match Read(b, at, 8)
      case None => None
      case Some((d, end)) => if d != 0 && Elements(ne) > (U64 - 1) / d then None else Some((ne + [d], end))
  }

  /** One entry of the directory. */
  function RecordAt(b: seq<byte>, pos: nat): Option<(Record, nat)> {
    match ReadString(b, pos)
    case None => None
    case Some((name, at)) =>
      match Read(b, at, 4)
      case None => None
      case Some((ndim, dims)) =>
        if ndim == 0 || ndim > MAX_DIMS then None else
        match DimsAt(b, dims, ndim)
        case None => None
        case Some((ne, after)) =>
          match Read(b, after, 4)
          case None => None
          case Some((t, last)) =>
            match Read(b, last, 8)
            case None => None
            case Some((offset, end)) => Some((Record(name, ne, t, offset), end))
  }

  function RecordsAt(b: seq<byte>, pos: nat, n: nat): Option<(seq<Record>, nat)>
    decreases n
  {
    if n == 0 then Some(([], pos)) else
    match RecordAt(b, pos)
    case None => None
    case Some((r, next)) =>
      match RecordsAt(b, next, n - 1)
      case None => None
      case Some((rest, end)) => Some(([r] + rest, end))
  }

  /** A tensor of the model: its record, its size and where its bytes are. */
  datatype Loaded = Loaded(record: Record, elements: nat, bytes: nat, absOffset: nat)

  /** The second loop: absolute offsets, inside the file unless the tensor is empty. */
  function Place(r: Record, dataPos: nat, size: nat): Option<Loaded> {
    if r.offset > U64 - 1 || dataPos > U64 - 1 - r.offset then None else
    var bytes := LoaderBytes(r.t, Elements(r.ne));
    var at := dataPos + r.offset;
    if bytes != 0 && (at > size || bytes > size - at) then None else Some(Loaded(r, Elements(r.ne), bytes, at))
  }

  function PlaceAll(rs: seq<Record>, dataPos: nat, size: nat): (r: Option<seq<Loaded>>)
    ensures r.Some? ==> |r.value| == |rs|
  {
    if |rs| == 0 then Some([]) else
    match PlaceAll(rs[..|rs| - 1], dataPos, size)
    case None => None
    case Some(front) =>
      match Place(rs[|rs| - 1], dataPos, size)
      case None => None
      case Some(last) => Some(front + [last])
  }

  /** What the model keeps: its records, the alignment, the tensors and where their bytes begin. */
  datatype Model = Model(kvs: seq<Kv>, alignment: nat, tensors: seq<Loaded>, dataPos: nat)

  function LoadBody(b: seq<byte>, nTensors: nat, nKv: nat): Option<Model> {
    match KvsAt(b, 24, nKv, false)
    case None => None
    case Some((kvs, at)) =>
      match RecordsAt(b, at, nTensors)
      case None => None
      case Some((rs, end)) =>
        AlignmentPositive(kvs);
        var dataPos := AlignUp(end, LoaderAlignment(kvs));
        match PlaceAll(rs, dataPos, |b|)
        case None => None
        case Some(tensors) => Some(Model(kvs, LoaderAlignment(kvs), tensors, dataPos))
  }

  /** model_open, on the bytes of the file. */
  function LoadFile(b: seq<byte>): Option<Model> {
    if |b| < 32 || Number(b[..4]) != MAGIC || Number(b[4..8]) != 3 then None
    else LoadBody(b, Number(b[8..16]), Number(b[16..24]))
  }

  // ---- written entries are read back ---------------------------------------------------------------------

  lemma {:induction false} EncodeDimsSnoc(ne: seq<nat>, d: nat)
    ensures EncodeDims(ne + [d]) == EncodeDims(ne) + Le(d, 8)
  {
    if |ne| == 0 {
      assert ne + [d] == [d];
      assert EncodeDims([d]) == Le(d, 8) + EncodeDims([]);
    } else {
      assert (ne + [d])[0] == ne[0] && (ne + [d])[1..] == ne[1..] + [d];
      EncodeDimsSnoc(ne[1..], d);
    }
  }

  predicate DimsFit(ne: seq<nat>) {
    (forall i :: 0 <= i < |ne| ==> ne[i] < U64) && ElementsFit(ne)
  }

  lemma {:induction false} DimsRead(b: seq<byte>, pos: nat, ne: seq<nat>)
    requires DimsFit(ne) && Holds(b, pos, EncodeDims(ne)) && |b| < U64
    ensures DimsAt(b, pos, |ne|) == Some((ne, pos + 8 * |ne|))
    decreases |ne|
  {
    hide Le, Number, Bound, Read, Holds, Elements;
    if |ne| == 0 {
    } else {
      var front, d := ne[..|ne| - 1], ne[|ne| - 1];
      assert ne == front + [d];
      FitsFront(ne);
      EncodeDimsSnoc(front, d);
      HoldsParts(b, pos, EncodeDims(front), Le(d, 8));
      DimsRead(b, pos, front);
      assert Bound(8) == U64 by { Bounds(); }
      ReadLe(b, pos + 8 * |front|, d, 8);
      if d != 0 { BytesFit(Elements(front), d); }
    }
  }

  lemma FitsFront(ne: seq<nat>)
    requires DimsFit(ne) && |ne| > 0
    ensures DimsFit(ne[..|ne| - 1]) && Elements(ne[..|ne| - 1]) * ne[|ne| - 1] < U64
  {
    assert Elements(ne[..|ne|]) < U64 && ne[..|ne|] == ne;
    hide Elements;
    var front := ne[..|ne| - 1];
    forall k | 0 <= k <= |front| ensures Elements(front[..k]) < U64 { assert front[..k] == ne[..k]; }
    ElementsStep(front, ne[|ne| - 1]);
    assert front + [ne[|ne| - 1]] == ne;
  }

  lemma RecordRead(b: seq<byte>, pos: nat, r: Record)
    requires r.Readable() && DimsFit(r.ne) && Holds(b, pos, EncodeRecord(r)) && |b| < U64
    ensures RecordAt(b, pos) == Some((r, pos + |EncodeRecord(r)|))
  {
    hide Le, Number, Bound, Read, ReadString, Holds, EncodeString, EncodeDims, DimsAt, DimsFit;
    assert Bound(4) == U32 && Bound(8) == U64 by { Bounds(); }
    var d := Le(r.t, 4) + Le(r.offset, 8);
    var c := EncodeDims(r.ne) + d;
    HoldsParts(b, pos, EncodeString(r.name), Le(|r.ne|, 4) + c);
    ReadStringOf(b, pos, r.name);
    var at := pos + 8 + |r.name|;
    HoldsParts(b, at, Le(|r.ne|, 4), c);
    ReadLe(b, at, |r.ne|, 4);
    HoldsParts(b, at + 4, EncodeDims(r.ne), d);
    DimsRead(b, at + 4, r.ne);
    var after := at + 4 + 8 * |r.ne|;
    HoldsParts(b, after, Le(r.t, 4), Le(r.offset, 8));
    ReadLe(b, after, r.t, 4);
    ReadLe(b, after + 4, r.offset, 8);
  }

  predicate RecordsFit(rs: seq<Record>) {
    forall i :: 0 <= i < |rs| ==> rs[i].Readable() && DimsFit(rs[i].ne)
  }

  lemma {:induction false} RecordsRead(b: seq<byte>, pos: nat, rs: seq<Record>)
    requires RecordsFit(rs) && Holds(b, pos, EncodeRecords(rs)) && |b| < U64
    ensures RecordsAt(b, pos, |rs|) == Some((rs, pos + |EncodeRecords(rs)|))
    decreases |rs|
  {
    hide RecordAt, Holds, EncodeRecord, DimsFit;
    if |rs| == 0 {
      assert rs == [];
    } else {
      HoldsParts(b, pos, EncodeRecord(rs[0]), EncodeRecords(rs[1..]));
      RecordRead(b, pos, rs[0]);
      RecordsRead(b, pos + |EncodeRecord(rs[0])|, rs[1..]);
      assert rs == [rs[0]] + rs[1..];
    }
  }

  // ---- the loader ------------------------------------------------------------------------------------------

  /** A row of the loader's metadata table: the value stays in the file. */
  datatype Entry = Entry(key: seq<byte>, t: nat, valuePos: nat)

  ghost predicate Describes(b: seq<byte>, e: Entry, kv: Kv) {
    e.key == kv.key && e.t == kv.t && Holds(b, e.valuePos, kv.payload)
  }

  ghost predicate Describe(b: seq<byte>, es: seq<Entry>, kvs: seq<Kv>) {
    |es| == |kvs| && forall i :: 0 <= i < |es| ==> Describes(b, es[i], kvs[i])
  }

  function ValueAfter(b: seq<byte>, t: (nat, nat)): Option<nat> { SkipValue(b, t.1, t.0, 0) }

  /** A record read by the loader, field by field. */
  lemma KvFields(b: seq<byte>, pos: nat)
    requires pos <= |b|
    ensures KvAt(b, pos, false).Some?
       <==> && ReadString(b, pos).Some?
            && Read(b, ReadString(b, pos).value.1, 4).Some?
            && ValueAfter(b, Read(b, ReadString(b, pos).value.1, 4).value).Some?
    ensures KvAt(b, pos, false).Some? ==>
      var key := ReadString(b, pos).value;
      var t := Read(b, key.1, 4).value;
      var end := ValueAfter(b, t).value;
      t.1 <= end <= |b| && KvAt(b, pos, false) == Some((Kv(key.0, t.0, b[t.1..end]), end))
  {
    if ReadString(b, pos).Some? {
      var at := ReadString(b, pos).value.1;
      ReadIsSkip(b, at, 4);
      if Read(b, at, 4).Some? && SkipValue(b, at + 4, Read(b, at, 4).value.0, 0).Some? {
        SkippedPayload(b, at + 4, Read(b, at, 4).value.0, false);
      }
    }
    hide Number, SkipValue, Payload;
  }

  /** parse_metadata: the table, and the alignment in force after the last record. */
  method ParseMetadata(c: Cursor, nKv: nat) returns (ok: bool, table: seq<Entry>, alignment: nat)
    requires c.Valid()
    modifies c
    ensures c.Valid() && (ok <==> KvsAt(c.base, old(c.pos), nKv, false).Some?)
    ensures ok ==> var (kvs, end) := KvsAt(c.base, old(c.pos), nKv, false).value;
      c.pos == end && Describe(c.base, table, kvs) && alignment == LoaderAlignment(kvs)
  {
    hide KvsAt, KvAt, SkipValue, Read, ReadString, LoaderAlignment, AlignmentKey, Number, Holds;
    table, alignment := [], DEFAULT_ALIGNMENT;
    ghost var start := c.pos;
    ghost var done: seq<Kv> := [];
    assert LoaderAlignment(done) == DEFAULT_ALIGNMENT
      && After(done, KvsAt(c.base, start, nKv, false)) == KvsAt(c.base, start, nKv, false) by {
      NoneDone(c.base, start, nKv);
    }
    var i := 0;
    while i < nKv
      invariant 0 <= i <= nKv && c.Valid()
      invariant KvsAt(c.base, start, nKv, false) == After(done, KvsAt(c.base, c.pos, nKv - i, false))
      invariant Describe(c.base, table, done) && alignment == LoaderAlignment(done)
    {
      AfterStep(c.base, c.pos, nKv - i, false, done);
      KvFields(c.base, c.pos);
      var key, t;
      ok, key := c.StringAt();
      if !ok { return; }
      ok, t := c.ReadNumber(4);
      if !ok { return; }
      var value := c.pos;
      var stated: nat := 0;
      if key == AlignmentKey() && t == UINT32 {
        var tmp := new Cursor(c.base, value);
        var read, a := tmp.ReadNumber(4);
        if read && a != 0 { stated := a; }
      }
      ok := c.SkipTyped(t, 0);
      if !ok { return; }
      ghost var kv := Kv(key, t, c.base[value..c.pos]);
      if t == UINT32 { StatedAlignment(c.base, value, t); }
      KeptStep(done, kv);
      if stated != 0 { alignment := stated; }
      assert Holds(c.base, value, kv.payload) by { SliceHolds(c.base, value, c.pos); }
      table := table + [Entry(key, t, value)];
      done := done + [kv];
      i := i + 1;
    }
    AfterNone(c.base, c.pos, false, done);
    ok := true;
  }

  lemma NoneDone(b: seq<byte>, start: nat, n: nat)
    ensures LoaderAlignment([]) == DEFAULT_ALIGNMENT
    ensures After([], KvsAt(b, start, n, false)) == KvsAt(b, start, n, false)
  {
    if KvsAt(b, start, n, false).Some? {
      assert [] + KvsAt(b, start, n, false).value.0 == KvsAt(b, start, n, false).value.0;
    }
  }

  lemma SliceHolds(b: seq<byte>, from: nat, to: nat)
    requires from <= to <= |b|
    ensures Holds(b, from, b[from..to])
  {
  }

  /** What the second cursor reads is the number the value holds. */
  lemma StatedAlignment(b: seq<byte>, value: nat, t: nat)
    requires t == UINT32 && SkipValue(b, value, t, 0).Some?
    ensures value + 4 <= |b| && SkipValue(b, value, t, 0) == Some(value + 4)
    ensures Read(b, value, 4) == Some((Number(b[value..value + 4]), value + 4))
  {
  }

  /** One directory entry. */
  method ParseRecord(c: Cursor) returns (ok: bool, r: Record)
    requires c.Valid()
    modifies c
    ensures c.Valid() && (ok <==> RecordAt(c.base, old(c.pos)).Some?)
    ensures ok ==> RecordAt(c.base, old(c.pos)) == Some((r, c.pos))
  {
    hide Number, Elements, Read, ReadString;
    r := Record([], [], 0, 0);
    var name, ndim;
    ok, name := c.StringAt();
    if !ok { return; }
    ok, ndim := c.ReadNumber(4);
    if !ok { return; }
    if ndim == 0 || ndim > MAX_DIMS {
      return false, r;
    }
    ghost var dims := c.pos;
    var elements, ne := 1, [];
    assert Elements(ne) == 1 by { NoElements(); }
    var d := 0;
    while d < ndim
      invariant 0 <= d <= ndim && c.Valid()
      invariant DimsAt(c.base, dims, d) == Some((ne, c.pos)) && elements == Elements(ne)
    {
      var x;
      ghost var at := c.pos;
      ok, x := c.ReadNumber(8);
      DimsStep(c.base, dims, d, ndim);
      if !ok { return; }
      if x != 0 && elements > (U64 - 1) / x {
        return false, r;
      }
      ElementsStep(ne, x);
      elements := elements * x;
      ne := ne + [x];
      d := d + 1;
    }
    var t, offset;
    ok, t := c.ReadNumber(4);
    if !ok { return; }
    ok, offset := c.ReadNumber(8);
    if !ok { return; }
    r := Record(name, ne, t, offset);
  }

  lemma NoElements()
    ensures Elements([]) == 1
  {
  }

  lemma ElementsStep(ne: seq<nat>, d: nat)
    ensures Elements(ne + [d]) == Elements(ne) * d
  {
    assert (ne + [d])[..|ne|] == ne;
  }

  /** If some dimension cannot be read, neither can all of them. */
  lemma {:induction false} DimsStep(b: seq<byte>, pos: nat, d: nat, n: nat)
    requires d < n
    ensures DimsAt(b, pos, n).Some? ==> DimsAt(b, pos, d + 1).Some?
    decreases n
  {
    hide Read, Elements;
    if d + 1 < n { DimsStep(b, pos, d, n - 1); }
  }

  lemma RecordsNone(b: seq<byte>, pos: nat, n: nat)
    requires n > 0
    ensures match RecordAt(b, pos)
      case None => RecordsAt(b, pos, n) == None
      case Some((r, next)) =>
        match RecordsAt(b, next, n - 1)
        case None => RecordsAt(b, pos, n) == None
        case Some((rest, end)) => RecordsAt(b, pos, n) == Some(([r] + rest, end))
  {
    hide RecordAt;
  }

  function AfterRecords(done: seq<Record>, more: Option<(seq<Record>, nat)>): Option<(seq<Record>, nat)> {
    match more
    case None => None
    case Some((rest, end)) => Some((done + rest, end))
  }

  lemma AfterRecordsStep(b: seq<byte>, pos: nat, n: nat, done: seq<Record>)
    requires n > 0
    ensures match RecordAt(b, pos)
      case None => AfterRecords(done, RecordsAt(b, pos, n)) == None
      case Some((r, next)) =>
        AfterRecords(done, RecordsAt(b, pos, n)) == AfterRecords(done + [r], RecordsAt(b, next, n - 1))
  {
    hide RecordAt;
    RecordsNone(b, pos, n);
    if RecordAt(b, pos).Some? {
      var (r, next) := RecordAt(b, pos).value;
      if RecordsAt(b, next, n - 1).Some? {
        var rest := RecordsAt(b, next, n - 1).value.0;
        assert done + ([r] + rest) == done + [r] + rest;
      }
    }
  }

  lemma AfterRecordsEnds(b: seq<byte>, pos: nat, n: nat, done: seq<Record>)
    ensures AfterRecords(done, RecordsAt(b, pos, 0)) == Some((done, pos))
    ensures AfterRecords([], RecordsAt(b, pos, n)) == RecordsAt(b, pos, n)
  {
    assert done + [] == done;
    if RecordsAt(b, pos, n).Some? {
      assert [] + RecordsAt(b, pos, n).value.0 == RecordsAt(b, pos, n).value.0;
    }
  }

  /** parse_tensors: the directory, then the absolute offsets. */
  method ParseTensors(c: Cursor, nTensors: nat, alignment: nat) returns (r: Option<(seq<Loaded>, nat)>)
    requires c.Valid() && alignment > 0
    modifies c
    ensures match RecordsAt(c.base, old(c.pos), nTensors)
      case None => r == None
      case Some((rs, end)) =>
        match PlaceAll(rs, AlignUp(end, alignment), |c.base|)
        case None => r == None
        case Some(tensors) => r == Some((tensors, AlignUp(end, alignment)))
  {
    hide RecordsAt, RecordAt, Place, PlaceAll, AlignUp;
    ghost var start := c.pos;
    var rs: seq<Record> := [];
    AfterRecordsEnds(c.base, start, nTensors, rs);
    var i := 0;
    while i < nTensors
      invariant 0 <= i <= nTensors && c.Valid()
      invariant RecordsAt(c.base, start, nTensors) == AfterRecords(rs, RecordsAt(c.base, c.pos, nTensors - i))
    {
      AfterRecordsStep(c.base, c.pos, nTensors - i, rs);
      var ok, one := ParseRecord(c);
      if !ok { return None; }
      rs := rs + [one];
      i := i + 1;
    }
    AfterRecordsEnds(c.base, c.pos, 0, rs);
    var dataPos := AlignUp(c.pos, alignment);
    var tensors: seq<Loaded> := [];
    assert PlaceAll(rs[..0], dataPos, |c.base|) == Some([]) by { PlaceNone(dataPos, |c.base|); assert rs[..0] == []; }
    for k := 0 to |rs|
      invariant PlaceAll(rs[..k], dataPos, |c.base|) == Some(tensors)
    {
      PlaceStep(rs, k, dataPos, |c.base|);
      match Place(rs[k], dataPos, |c.base|) {
        case None => return None;
        case Some(t) => tensors := tensors + [t];
      }
    }
    assert rs[..|rs|] == rs;
    return Some((tensors, dataPos));
  }

  lemma PlaceNone(dataPos: nat, size: nat)
    ensures PlaceAll([], dataPos, size) == Some([])
  {
  }

  /** One more tensor placed; a tensor that cannot be placed spoils the whole directory. */
  lemma PlaceStep(rs: seq<Record>, k: nat, dataPos: nat, size: nat)
    requires k < |rs| && PlaceAll(rs[..k], dataPos, size).Some?
    ensures Place(rs[k], dataPos, size).Some?
        ==> PlaceAll(rs[..k + 1], dataPos, size)
            == Some(PlaceAll(rs[..k], dataPos, size).value + [Place(rs[k], dataPos, size).value])
    ensures Place(rs[k], dataPos, size) == None ==> PlaceAll(rs, dataPos, size) == None
  {
    hide Place;
    assert rs[..k + 1][..k] == rs[..k] && rs[..k + 1][k] == rs[k];
    if Place(rs[k], dataPos, size) == None {
      PlaceFails(rs, k + 1, dataPos, size);
    }
  }

  lemma {:induction false} PlaceFails(rs: seq<Record>, k: nat, dataPos: nat, size: nat)
    requires k <= |rs| && PlaceAll(rs[..k], dataPos, size) == None
    ensures PlaceAll(rs, dataPos, size) == None
    decreases |rs|
  {
    hide Place;
    if k < |rs| {
      assert rs[..|rs| - 1][..k] == rs[..k];
      PlaceFails(rs[..|rs| - 1], k, dataPos, size);
    } else {
      assert rs[..k] == rs;
    }
  }

  /** model_open: exactly the model that the bytes describe, or death. */
  method ModelOpen(b: seq<byte>) returns (r: Option<(seq<Entry>, nat, seq<Loaded>, nat)>)
    requires |b| < U64
    ensures match LoadFile(b)
      case None => r == None
      case Some(m) =>
        && r.Some?
        && Describe(b, r.value.0, m.kvs)
        && (r.value.1, r.value.2, r.value.3) == (m.alignment, m.tensors, m.dataPos)
  {
    hide Number, KvsAt, RecordsAt, PlaceAll, AlignUp, LoaderAlignment, Describe;
    if |b| < 32 { return None; }
    var c := new Cursor(b, 0);
    var ok, magic := c.ReadNumber(4);
    if magic != MAGIC { return None; }
    var version, nTensors, nKv;
    ok, version := c.ReadNumber(4);
    ok, nTensors := c.ReadNumber(8);
    ok, nKv := c.ReadNumber(8);
    if version != 3 { return None; }
    var table, alignment;
    ok, table, alignment := ParseMetadata(c, nKv);
    if !ok { return None; }
    AlignmentPositive(KvsAt(b, 24, nKv, false).value.0);
    var tensors := ParseTensors(c, nTensors, alignment);
    match tensors {
      case None => return None;
      case Some((ts, dataPos)) => return Some((table, alignment, ts, dataPos));
    }
  }
}
