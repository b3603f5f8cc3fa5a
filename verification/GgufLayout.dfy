/**
 The bytes of a GGUF file, written out: numbers, records, names and padding as the "File Structure" section of the GGUF
 v3 specification has them (gguf-tools/deepseek4-quantize.c:1408-1412, 1953-2092, 2207-2356).
 */
module GgufLayout {
  import opened ByteEncoding
  import opened GgufValues
  import opened GgufMetadata
  import opened GgufProvenance
  import opened GgufPlan
  import opened GgufFile

  // ---- numbers ----------------------------------------------------------------------------------------

  function U32Bytes(n: nat): (b: seq<byte>)
    ensures |b| == 4
  {
    [n % 256, n / 256 % 256, n / 0x1_0000 % 256, n / 0x100_0000 % 256]
  }

  function U64Bytes(n: nat): (b: seq<byte>)
    ensures |b| == 8
  {
    U32Bytes(n % U32) + U32Bytes(n / U32)
  }

  lemma FourBytes(n: nat, k: nat)
    ensures Le(n, 4 + k) == U32Bytes(n) + Le(n / U32, k)
  {
    var a, b, c := n / 256, n / 0x1_0000, n / 0x100_0000;
    assert a / 256 == b && b / 256 == c && c / 256 == n / U32;
    LeIs(n, 3 + k);
    LeIs(a, 2 + k);
    LeIs(b, 1 + k);
    LeIs(c, k);
    hide Le;
    assert U32Bytes(n) == [n % 256] + [a % 256] + [b % 256] + [c % 256];
  }

  lemma LeIs(n: nat, k: nat)
    ensures Le(n, 1 + k) == [n % 256] + Le(n / 256, k)
  {
  }

  lemma LowHalf(n: nat)
    ensures U32Bytes(n % U32) == U32Bytes(n)
  {
    var q, r := n / U32, n % U32;
    LowByte(n, q, r, 1, 0x1_0000_0000);
    LowByte(n, q, r, 256, 0x100_0000);
    LowByte(n, q, r, 0x1_0000, 0x1_0000);
    LowByte(n, q, r, 0x100_0000, 256);
    assert U32Bytes(r) == [r / 1 % 256, r / 256 % 256, r / 0x1_0000 % 256, r / 0x100_0000 % 256];
    assert U32Bytes(n) == [n / 1 % 256, n / 256 % 256, n / 0x1_0000 % 256, n / 0x100_0000 % 256];
  }

  lemma LowByte(n: nat, q: nat, r: nat, d: nat, e: nat)
    requires n == U32 * q + r && d > 0 && d * e == U32 && e % 256 == 0
    ensures n / d % 256 == r / d % 256
  {
    var a, b, f := r / d, r % d, e / 256;
    assert e == 256 * f && r == d * a + b;
    assert U32 * q == d * (e * q) by { assert d * (e * q) == (d * e) * q; }
    assert n == d * (e * q + a) + b by { assert d * (e * q + a) == d * (e * q) + d * a; }
    UniqueQuotient(n, d, e * q + a, b);
    assert e * q == 256 * (f * q) by { assert 256 * (f * q) == 256 * f * q; }
    MultipleOf(f * q, a);
  }

  lemma MultipleOf(m: nat, a: nat)
    ensures (256 * m + a) % 256 == a % 256
  {
  }

  /** Numbers are little-endian. */
  lemma NumbersLayout(n: nat)
    ensures Le(n, 4) == U32Bytes(n) && Le(n, 8) == U64Bytes(n)
  {
    FourBytes(n, 0);
    FourBytes(n, 4);
    FourBytes(n / U32, 0);
    LowHalf(n);
    assert Le(n / U32, 0) == [] && Le(n / U32 / U32, 0) == [];
    hide U32Bytes;
  }

  // ---- metadata ---------------------------------------------------------------------------------------

  /** The sizes of the scalar types 0 to 12; strings, arrays and anything else have none. */
  lemma ScalarSizes(t: nat)
    ensures ScalarSize(t) == if t <= 12 then [1, 1, 2, 2, 4, 4, 4, 1, 0, 0, 8, 8, 8][t] else 0
  {
  }

  /** A key with its length, the type, and the value. */
  lemma KvLayout(kv: Kv)
    ensures EncodeKv(kv) == U64Bytes(|kv.key|) + kv.key + U32Bytes(kv.t) + kv.payload
  {
    NumbersLayout(|kv.key|);
    NumbersLayout(kv.t);
    hide Le, U32Bytes, U64Bytes;
  }

  /** Texts stand behind their lengths, arrays behind the type and the number of their items, which follow in order. */
  lemma ValueLayout(text: seq<byte>, itemType: nat, items: seq<Value>, last: Value)
    ensures EncodeValue(Str(text)) == U64Bytes(|text|) + text
    ensures EncodeValue(Arr(itemType, items)) == U32Bytes(itemType) + U64Bytes(|items|) + EncodeAll(items)
    ensures EncodeAll([]) == [] && EncodeAll(items + [last]) == EncodeAll(items) + EncodeValue(last)
  {
    NumbersLayout(|text|);
    NumbersLayout(itemType);
    NumbersLayout(|items|);
    hide Le, U32Bytes, U64Bytes;
    ItemsInOrder(items, last);
  }

  lemma {:induction false} ItemsInOrder(items: seq<Value>, last: Value)
    ensures EncodeAll(items + [last]) == EncodeAll(items) + EncodeValue(last)
  {
    hide EncodeValue;
    if |items| == 0 {
      assert items + [last] == [last];
      assert EncodeAll([last]) == EncodeValue(last) + EncodeAll([]);
    } else {
      assert (items + [last])[0] == items[0] && (items + [last])[1..] == items[1..] + [last];
      ItemsInOrder(items[1..], last);
    }
  }

  /** The records about the importance matrix, for an enabled one. */
  lemma ImatrixLayout(m: Imatrix)
    ensures ImatrixKvs(Some(m)) == if m.entries == 0 then [] else
      [Kv(Ascii("quantize.imatrix.file"), 8, U64Bytes(|m.file|) + m.file),
       Kv(Ascii("quantize.imatrix.entries_count"), 10, U64Bytes(m.entries))]
      + (if m.dataset.None? then [] else
         [Kv(Ascii("quantize.imatrix.dataset"), 8, U64Bytes(|m.dataset.value|) + m.dataset.value)])
      + (if m.chunks <= 0 then [] else [Kv(Ascii("quantize.imatrix.chunks_count"), 10, U64Bytes(m.chunks))])
  {
    NumbersLayout(|m.file|);
    NumbersLayout(m.entries);
    if m.dataset.Some? { NumbersLayout(|m.dataset.value|); }
    if m.chunks > 0 { NumbersLayout(m.chunks); }
    hide Le, U32Bytes, U64Bytes, Ascii;
  }

  /** The records about the expert plan; the three arrays hold 32-bit numbers. */
  lemma ReapLayout(r: ReapRecord)
    ensures ReapKvs(Some(r)) ==
      [Kv(Ascii("reap.enabled"), 7, [1]), Kv(Ascii("reap.layout"), 8, U64Bytes(14) + Ascii("ds4-compact-v1"))]
      + (if r.path.None? then [] else [Kv(Ascii("reap.plan.path"), 8, U64Bytes(|r.path.value|) + r.path.value)])
      + [Kv(Ascii("reap.layer.policy"), 9, U32Bytes(4) + U64Bytes(|r.policy|) + EncodeU32s(r.policy)),
         Kv(Ascii("reap.layer.expert_count"), 9, U32Bytes(4) + U64Bytes(|r.expertCount|) + EncodeU32s(r.expertCount)),
         Kv(Ascii("reap.layer.keep_count"), 9, U32Bytes(4) + U64Bytes(|r.keepCount|) + EncodeU32s(r.keepCount))]
  {
    NumbersLayout(14);
    NumbersLayout(4);
    NumbersLayout(|r.policy|);
    NumbersLayout(|r.expertCount|);
    NumbersLayout(|r.keepCount|);
    if r.path.Some? { NumbersLayout(|r.path.value|); }
    assert |Layout()| == 14;
    hide Le, U32Bytes, U64Bytes, EncodeU32s, Ascii;
  }

  lemma NumbersInOrder(values: seq<nat>, n: nat)
    ensures EncodeU32s([]) == [] && EncodeU32s(values + [n]) == EncodeU32s(values) + U32Bytes(n)
  {
    NumbersLayout(n);
    assert (values + [n])[..|values + [n]| - 1] == values;
    hide Le, U32Bytes, U64Bytes;
  }

  // ---- which records are kept -------------------------------------------------------------------------

  lemma {:induction false} CPrefix(key: seq<byte>, p: seq<byte>)
    requires forall i :: 0 <= i < |p| ==> p[i] != 0
    ensures p <= CString(key) <==> p <= key
  {
    if |p| == 0 {
    } else if |key| == 0 || key[0] == 0 {
    } else {
      CPrefix(key[1..], p[1..]);
      assert key == [key[0]] + key[1..] && p == [p[0]] + p[1..];
    }
  }

  lemma AsciiHasNoNul(s: string)
    requires forall i :: 0 <= i < |s| ==> 0 as char < s[i] < 128 as char
    ensures forall i :: 0 <= i < |Ascii(s)| ==> Ascii(s)[i] != 0
  {
  }

  /** A record of an earlier run is one whose key begins with one of two texts. */
  lemma StaleExactly(key: seq<byte>)
    ensures Stale(key) <==> Ascii("quantize.imatrix.") <= key || Ascii("reap.") <= key
  {
    AsciiHasNoNul("quantize.imatrix.");
    AsciiHasNoNul("reap.");
    CPrefix(key, Ascii("quantize.imatrix."));
    CPrefix(key, Ascii("reap."));
    hide Ascii, CString;
  }

  /** The records that are kept stay in order. */
  lemma {:induction false} KeptInOrder(a: seq<Kv>, b: seq<Kv>)
    ensures Kept(a + b) == Kept(a) + Kept(b)
  {
    hide Stale;
    if |b| == 0 {
      assert a + b == a;
      KeptNone();
    } else {
      assert (a + b)[..|a + b| - 1] == a + b[..|b| - 1];
      KeptInOrder(a, b[..|b| - 1]);
    }
  }

  lemma KeptOne(kv: Kv)
    ensures Kept([kv]) == if Stale(kv.key) then [] else [kv]
  {
    var one: seq<Kv> := [kv];
    assert one[..0] == [];
    hide Stale;
  }

  /** The alignment is 32 until a record of type 4 with the key "general.alignment" holds a number that is not zero. */
  lemma AlignmentIs(kvs: seq<Kv>, kv: Kv)
    ensures LoaderAlignment([]) == WriterAlignment([]) == 32
    ensures LoaderAlignment(kvs + [kv])
         == if kv.key == Ascii("general.alignment") && SetsTo(kv) != 0 then SetsTo(kv) else LoaderAlignment(kvs)
    ensures WriterAlignment(kvs + [kv])
         == if CString(kv.key) == Ascii("general.alignment") && SetsTo(kv) != 0 then SetsTo(kv)
            else WriterAlignment(kvs)
  {
    assert (kvs + [kv])[..|kvs + [kv]| - 1] == kvs;
    if kv.t == 4 && |kv.payload| == 4 { FourByteNumber(kv.payload); }
    hide Ascii, CString, Number;
  }

  /** The number that a record of type 4 holds. */
  function SetsTo(kv: Kv): nat {
    var p := kv.payload;
    if kv.t != 4 || |p| != 4 then 0 else
    p[0] as int + 256 * p[1] as int + 0x1_0000 * p[2] as int + 0x100_0000 * p[3] as int
  }

  lemma FourByteNumber(p: seq<byte>)
    requires |p| == 4
    ensures Number(p) == p[0] as int + 256 * p[1] as int + 0x1_0000 * p[2] as int + 0x100_0000 * p[3] as int
  {
    assert Number(p[1..]) == p[1] as int + 256 * Number(p[1..][1..]);
    assert Number(p[1..][1..]) == p[2] as int + 256 * Number(p[1..][1..][1..]);
    assert Number(p[1..][1..][1..]) == p[3] as int + 256 * Number(p[1..][1..][1..][1..]);
  }

  // ---- the directory ----------------------------------------------------------------------------------

  /** A name with its length, the number of dimensions and the dimensions, the type and the offset. */
  lemma RecordLayout(r: Record)
    ensures EncodeRecord(r)
         == U64Bytes(|r.name|) + r.name + U32Bytes(|r.ne|) + EncodeDims(r.ne) + U32Bytes(r.t) + U64Bytes(r.offset)
  {
    NumbersLayout(|r.name|);
    NumbersLayout(|r.ne|);
    NumbersLayout(r.t);
    NumbersLayout(r.offset);
    hide Le, U32Bytes, U64Bytes, EncodeDims;
  }

  lemma DimsInOrder(d: nat, ne: seq<nat>)
    ensures EncodeDims([]) == [] && EncodeDims([d] + ne) == U64Bytes(d) + EncodeDims(ne)
  {
    NumbersLayout(d);
    assert ([d] + ne)[1..] == ne;
    hide Le, U32Bytes, U64Bytes;
  }

  /** Elements and bytes of the blocks that are written, field by field. */
  lemma BlockSizes()
    ensures Traits(0) == Traits(26) == (1, 4) && Traits(1) == Traits(30) == (1, 2)
    ensures Traits(8) == (32, 2 + 32)
    ensures Traits(10) == (256, 16 + 64 + 2 + 2) && Traits(12) == (256, 2 + 2 + 12 + 128)
    ensures Traits(16) == (256, 2 + 64) && Traits(40) == (256, 128 + 16)
  {
  }

  // ---- names ------------------------------------------------------------------------------------------

  lemma {:induction false} FindIs(s: seq<byte>, text: seq<byte>, from: nat, at: nat)
    requires from <= at <= |s| && text <= s[at..] && forall i :: from <= i < at ==> !(text <= s[i..])
    ensures Find(s, text, from) == Some(at)
    decreases at - from
  {
    if from == at {
      assert s[at..][..|text|] == s[at..at + |text|];
    } else {
      NotHere(s, text, from);
      FindIs(s, text, from + 1, at);
    }
  }

  lemma NotHere(s: seq<byte>, text: seq<byte>, i: nat)
    requires i <= |s| && !(text <= s[i..])
    ensures !(i + |text| <= |s| && s[i..i + |text|] == text)
  {
    if i + |text| <= |s| { assert s[i..][..|text|] == s[i..i + |text|]; }
  }

  lemma {:induction false} FindNone(s: seq<byte>, text: seq<byte>, from: nat)
    requires from <= |s| && forall i :: from <= i <= |s| ==> !(text <= s[i..])
    ensures Find(s, text, from) == None
    decreases |s| - from
  {
    NotHere(s, text, from);
    if from < |s| { FindNone(s, text, from + 1); }
  }

  /**
   The names of an NVFP4 expert and of its scales: what stands behind the first ".weight" is replaced with it, wherever
   in the name that is; both fit a buffer of 256 bytes.
   */
  lemma CompanionNames(front: seq<byte>, back: seq<byte>)
    requires forall i :: 0 <= i < |front| ==> !(Ascii(".weight") <= (front + Ascii(".weight") + back)[i..])
    ensures WeightName(front + Ascii(".weight") + back) == Truncated(front + Ascii(".nvfp4_weight"))
    ensures ScaleName(front + Ascii(".weight") + back) == Truncated(front + Ascii(".nvfp4_scale_2"))
  {
    Texts();
    hide Ascii;
    var s := front + Ascii(".weight") + back;
    assert s[|front|..] == Ascii(".weight") + back;
    FindIs(s, WEIGHT, 0, |front|);
    assert s[..|front|] == front;
  }

  lemma Texts()
    ensures Ascii(".weight") == WEIGHT && Ascii(".nvfp4_weight") == NVFP4_WEIGHT
    ensures Ascii(".nvfp4_scale_2") == NVFP4_SCALE
  {
  }

  lemma OtherNames(name: seq<byte>)
    requires forall i :: 0 <= i <= |name| ==> !(Ascii(".weight") <= name[i..])
    ensures WeightName(name) == name && ScaleName(name) == Truncated(name + Ascii(".nvfp4_scale_2"))
  {
    Texts();
    hide Ascii;
    FindNone(name, WEIGHT, 0);
  }

  /** The entries of an NVFP4 expert: itself, and one float for each of its experts, the third dimension. */
  lemma CompanionEntry(p: Planned)
    requires p.t == 40 && p.isExpert && |p.ne| >= 3
    ensures Expand(p) == [Planned(WeightName(p.name), p.ne, 40, true), Planned(ScaleName(p.name), [p.ne[2]], 0, false)]
    ensures SizeOf(Expand(p)[1]) == 4 * p.ne[2]
  {
    hide WeightName, ScaleName;
    var scales: seq<nat> := [p.ne[2]];
    assert Rest(scales, 1) == 1 && RowSize(0, p.ne[2]) == 4 * p.ne[2];
  }

  lemma OtherEntry(p: Planned)
    requires p.t != 40 || !p.isExpert
    ensures Expand(p) == [p]
  {
  }

  // ---- the file ---------------------------------------------------------------------------------------

  /** The magic number, the version and the two counts. */
  lemma HeadLayout(version: nat, nTensors: nat, nKv: nat)
    ensures Head(version, nTensors, nKv)
         == [0x47, 0x47, 0x55, 0x46] + U32Bytes(version) + U64Bytes(nTensors) + U64Bytes(nKv)
  {
    NumbersLayout(version);
    NumbersLayout(nTensors);
    NumbersLayout(nKv);
    assert Magic() == [0x47, 0x47, 0x55, 0x46];
    hide Le, U32Bytes, U64Bytes, Magic;
  }

  /** Fewer zeros than the alignment, up to a multiple of it. */
  predicate Fills(zeros: seq<byte>, length: nat, alignment: nat)
    requires alignment > 0
  {
    |zeros| < alignment && (length + |zeros|) % alignment == 0 && forall i :: 0 <= i < |zeros| ==> zeros[i] == 0
  }

  lemma PaddedIs(b: seq<byte>, alignment: nat) returns (zeros: seq<byte>)
    requires alignment > 0
    ensures Padded(b, alignment) == b + zeros && Fills(zeros, |b|, alignment)
  {
    zeros := Zeros(Pad(|b|, alignment) - |b|);
    hide Pad;
  }

  /** Head, metadata records, directory, padding, and the tensors in order, each with its padding. */
  lemma FileLayout(version: nat, kvs: seq<Kv>, rs: seq<Record>, data: seq<seq<byte>>, last: seq<byte>, alignment: nat)
    returns (pad: seq<byte>, tail: seq<byte>)
    requires alignment > 0
    ensures var head := Head(version, |rs|, |kvs|) + EncodeKvs(kvs) + EncodeRecords(rs);
      File(version, kvs, rs, [], alignment) == head + pad && Fills(pad, |head|, alignment)
    ensures File(version, kvs, rs, data + [last], alignment) == File(version, kvs, rs, data, alignment) + last + tail
    ensures Fills(tail, |last|, alignment)
  {
    pad := PaddedIs(Meta(version, kvs, rs), alignment);
    tail := PaddedIs(last, alignment);
    assert (data + [last])[..|data + [last]| - 1] == data;
    hide Padded, EncodeKvs, EncodeRecords, Head;
    assert Meta(version, kvs, rs) == Head(version, |rs|, |kvs|) + EncodeKvs(kvs) + EncodeRecords(rs);
  }
}
