/**
 Metadata records: reading a template's, gguf-tools/deepseek4-quantize.c:1892-1951, 2106-2155, and the loader's
 table, src/model/ds4_gguf.c:220-246.
 */
module GgufMetadata {
  import opened ByteEncoding
  import opened GgufValues

  const DEFAULT_ALIGNMENT: nat := 32

  /** The bytes of an ASCII text. */
  function Ascii(s: string): (b: seq<byte>)
    ensures |b| == |s|
  {
    seq(|s|, i requires 0 <= i < |s| => if s[i] < 128 as char then s[i] as int else 63)
  }

  function AlignmentKey(): seq<byte> { Ascii("general.alignment") }
  function ImatrixPrefix(): seq<byte> { Ascii("quantize.imatrix.") }
  function ReapPrefix(): seq<byte> { Ascii("reap.") }

  /** gguf_string_size */
  function StringSize(s: seq<byte>): nat { 8 + |s| }

  // ---- records ------------------------------------------------------------------------------------

  /** A metadata record: a key, a type and the bytes of the value. */
  datatype Kv = Kv(key: seq<byte>, t: nat, payload: seq<byte>)

  function EncodeKv(kv: Kv): (b: seq<byte>)
    ensures |b| == 12 + |kv.key| + |kv.payload|
  {
    EncodeString(kv.key) + (Le(kv.t, 4) + kv.payload)
  }

  function EncodeKvs(kvs: seq<Kv>): seq<byte> {
    if |kvs| == 0 then [] else EncodeKv(kvs[0]) + EncodeKvs(kvs[1..])
  }

  lemma {:induction false} EncodeKvsAppend(a: seq<Kv>, b: seq<Kv>)
    ensures EncodeKvs(a + b) == EncodeKvs(a) + EncodeKvs(b)
  {
    if |a| == 0 {
      assert a + b == b;
    } else {
      assert (a + b)[0] == a[0] && (a + b)[1..] == a[1..] + b;
      EncodeKvsAppend(a[1..], b);
    }
  }

  lemma EncodeKvsSnoc(a: seq<Kv>, kv: Kv)
    ensures EncodeKvs(a + [kv]) == EncodeKvs(a) + EncodeKv(kv)
  {
    EncodeKvsAppend(a, [kv]);
    assert EncodeKvs([kv]) == EncodeKv(kv) + EncodeKvs([]);
  }

  /** The bytes are the encoding of a value of this type. */
  ghost predicate Payload(t: nat, payload: seq<byte>) {
    exists v: Value :: v.Type() == t && WellFormed(v, 0) && EncodeValue(v) == payload
  }

  ghost predicate ValidKv(kv: Kv) {
    |kv.key| < U64 && kv.t < U32 && Payload(kv.t, kv.payload)
  }

  ghost predicate ValidKvs(kvs: seq<Kv>) {
    forall i :: 0 <= i < |kvs| ==> ValidKv(kvs[i])
  }

  // ---- reading records --------------------------------------------------------------------------------

  /** skip_gguf_value_fp: where a value ends, for the tool that reads the template. */
  function TemplateSkip(b: seq<byte>, pos: nat, t: nat): Option<nat> {
    if t == STRING then
      match ReadString(b, pos)
      case None => None
      case Some((_, end)) => Some(end)
    else if t == ARRAY then
      match Read(b, pos, 4)
      case None => None
      case Some((itemType, at)) =>
        match Read(b, at, 8)
        case None => None
        case Some((len, items)) =>
          if itemType == STRING then SkipStrings(b, items, len)
          else if ScalarSize(itemType) == 0 || len > (U64 - 1) / ScalarSize(itemType) then None
          else Skip(b, items, len * ScalarSize(itemType))
    else if ScalarSize(t) == 0 then None
    else Skip(b, pos, ScalarSize(t))
  }

  function SkipStrings(b: seq<byte>, pos: nat, len: nat): Option<nat>
    decreases len
  {
    if len == 0 then Some(pos) else
    match ReadString(b, pos)
    case None => None
    case Some((_, end)) => SkipStrings(b, end, len - 1)
  }

  lemma {:induction false} SkipStringsAgrees(b: seq<byte>, pos: nat, len: nat)
    ensures SkipStrings(b, pos, len) == SkipItems(b, pos, STRING, len, 0)
    decreases len
  {
    if len > 0 && ReadString(b, pos).Some? { SkipStringsAgrees(b, ReadString(b, pos).value.1, len - 1); }
  }

  /** Whatever the tool copies, the loader skips to the same place. */
  lemma TemplateSkipAgrees(b: seq<byte>, pos: nat, t: nat)
    requires TemplateSkip(b, pos, t).Some?
    ensures SkipValue(b, pos, t, 0) == TemplateSkip(b, pos, t)
  {
    if t == ARRAY {
      var (itemType, at) := Read(b, pos, 4).value;
      var (len, items) := Read(b, at, 8).value;
      if itemType == STRING { SkipStringsAgrees(b, items, len); }
    }
    hide Number;
  }

  function SkipFor(b: seq<byte>, pos: nat, t: nat, template: bool): (r: Option<nat>) {
    if template then TemplateSkip(b, pos, t) else SkipValue(b, pos, t, 0)
  }

  /** One record at pos and where it ends, for the tool or for the loader. */
  function KvAt(b: seq<byte>, pos: nat, template: bool): Option<(Kv, nat)> {
    match ReadString(b, pos)
    case None => None
    case Some((key, at)) =>
      match Read(b, at, 4)
      case None => None
      case Some((t, value)) =>
        match SkipFor(b, value, t, template)
        case None => None
        case Some(end) => if value <= end <= |b| then Some((Kv(key, t, b[value..end]), end)) else None
  }

  function KvsAt(b: seq<byte>, pos: nat, n: nat, template: bool): Option<(seq<Kv>, nat)>
    decreases n
  {
    if n == 0 then Some(([], pos)) else
    match KvAt(b, pos, template)
    case None => None
    case Some((kv, next)) =>
      match KvsAt(b, next, n - 1, template)
      case None => None
      case Some((rest, end)) => Some(([kv] + rest, end))
  }

  /** What is skipped as a value is one. */
  lemma SkippedPayload(b: seq<byte>, pos: nat, t: nat, template: bool)
    requires pos <= |b| && SkipFor(b, pos, t, template).Some?
    ensures pos <= SkipFor(b, pos, t, template).value <= |b|
    ensures Payload(t, b[pos..SkipFor(b, pos, t, template).value])
  {
    if template { TemplateSkipAgrees(b, pos, t); }
    var v := SkippedIsEncoded(b, pos, t, 0);
    hide SkipValue, TemplateSkip, EncodeValue, WellFormed;
  }

  /** A record that is read is a valid record that stands there. */
  lemma KvAtIs(b: seq<byte>, pos: nat, template: bool)
    requires pos <= |b| < U64 && KvAt(b, pos, template).Some?
    ensures var (kv, end) := KvAt(b, pos, template).value;
      ValidKv(kv) && Holds(b, pos, EncodeKv(kv)) && end == pos + |EncodeKv(kv)|
  {
    hide SkipFor, Le, Number, Bound, ReadString, Read, EncodeString, Payload;
    ReadStringIs(b, pos);
    var (key, at) := ReadString(b, pos).value;
    assert Bound(4) == U32 by { Bounds(); }
    ReadIsLe(b, at, 4);
    var (t, value) := Read(b, at, 4).value;
    assert value <= |b|;
    SkippedPayload(b, value, t, template);
    var payload := b[value..SkipFor(b, value, t, template).value];
    assert Holds(b, value, payload);
    HoldsParts(b, at, Le(t, 4), payload);
    HoldsParts(b, pos, EncodeString(key), Le(t, 4) + payload);
  }

  /** A valid record that stands somewhere is read by the loader, wherever that is. */
  lemma KvRead(b: seq<byte>, pos: nat, kv: Kv)
    requires |b| < U64 && ValidKv(kv) && Holds(b, pos, EncodeKv(kv))
    ensures KvAt(b, pos, false) == Some((kv, pos + |EncodeKv(kv)|))
  {
    hide SkipValue, TemplateSkip, Le, Number, Bound, EncodeValue, WellFormed, ReadString, Read, EncodeString, Holds;
    var v: Value :| v.Type() == kv.t && WellFormed(v, 0) && EncodeValue(v) == kv.payload;
    HoldsParts(b, pos, EncodeString(kv.key), Le(kv.t, 4) + kv.payload);
    ReadStringOf(b, pos, kv.key);
    var at := pos + 8 + |kv.key|;
    HoldsParts(b, at, Le(kv.t, 4), kv.payload);
    assert Bound(4) == U32 by { Bounds(); }
    ReadLe(b, at, kv.t, 4);
    SkipsEncoded(b, at + 4, v, 0);
    assert at + 4 + |kv.payload| <= |b| && b[at + 4..at + 4 + |kv.payload|] == kv.payload by {
      HoldsIs(b, at + 4, kv.payload);
    }
  }

  lemma HoldsIs(b: seq<byte>, pos: nat, e: seq<byte>)
    requires Holds(b, pos, e)
    ensures pos + |e| <= |b| && b[pos..pos + |e|] == e
  {
  }

  lemma {:induction false} KvsRead(b: seq<byte>, pos: nat, kvs: seq<Kv>)
    requires |b| < U64 && ValidKvs(kvs) && Holds(b, pos, EncodeKvs(kvs))
    ensures KvsAt(b, pos, |kvs|, false) == Some((kvs, pos + |EncodeKvs(kvs)|))
    decreases |kvs|
  {
    hide KvAt, ValidKv, Holds, EncodeKv;
    if |kvs| == 0 {
      assert kvs == [];
    } else {
      HoldsParts(b, pos, EncodeKv(kvs[0]), EncodeKvs(kvs[1..]));
      KvRead(b, pos, kvs[0]);
      KvsRead(b, pos + |EncodeKv(kvs[0])|, kvs[1..]);
      assert kvs == [kvs[0]] + kvs[1..];
    }
  }

  lemma {:induction false} KvsAtAre(b: seq<byte>, pos: nat, n: nat, template: bool)
    requires pos <= |b| < U64 && KvsAt(b, pos, n, template).Some?
    ensures var (kvs, end) := KvsAt(b, pos, n, template).value;
      |kvs| == n && ValidKvs(kvs) && Holds(b, pos, EncodeKvs(kvs)) && end == pos + |EncodeKvs(kvs)|
    decreases n
  {
    hide KvAt, ValidKv, EncodeKv;
    if n == 0 {
    } else {
      KvAtIs(b, pos, template);
      var (kv, next) := KvAt(b, pos, template).value;
      KvsAtAre(b, next, n - 1, template);
      var (rest, end) := KvsAt(b, next, n - 1, template).value;
      assert ([kv] + rest)[1..] == rest;
      HoldsParts(b, pos, EncodeKv(kv), EncodeKvs(rest));
    }
  }

  // ---- the template's records ---------------------------------------------------------------------------

  /** A byte string as C reads it: up to the first NUL. */
  function CString(s: seq<byte>): (r: seq<byte>)
    ensures |r| <= |s|
  {
    if |s| == 0 || s[0] == 0 then [] else [s[0]] + CString(s[1..])
  }

  /** Provenance of an earlier run. */
  predicate Stale(key: seq<byte>) {
    ImatrixPrefix() <= CString(key) || ReapPrefix() <= CString(key)
  }

  function Kept(kvs: seq<Kv>): seq<Kv> {
    if |kvs| == 0 then [] else
    var kv := kvs[|kvs| - 1];
    Kept(kvs[..|kvs| - 1]) + if Stale(kv.key) then [] else [kv]
  }

  lemma KeptNone()
    ensures Kept([]) == []
  {
  }

  lemma {:induction false} KeptExactly(kvs: seq<Kv>, kv: Kv)
    ensures multiset(Kept(kvs))[kv] == if Stale(kv.key) then 0 else multiset(kvs)[kv]
  {
    hide Stale, Kept, WriterAlignment, LoaderAlignment;
    if |kvs| == 0 {
      assert Kept([]) == [] by { KeptNone(); }
    } else {
      var front, last := kvs[..|kvs| - 1], kvs[|kvs| - 1];
      KeptExactly(front, kv);
      assert kvs == front + [last];
      OneMoreKv(front, last, kv);
      KeptStep(front, last);
      if !Stale(last.key) { OneMoreKv(Kept(front), last, kv); } else { assert Kept(front) + [] == Kept(front); }
    }
  }

  lemma OneMoreKv(kvs: seq<Kv>, last: Kv, kv: Kv)
    ensures multiset(kvs + [last])[kv] == multiset(kvs)[kv] + if kv == last then 1 else 0
  {
  }

  lemma {:induction false} KeptValid(kvs: seq<Kv>)
    requires ValidKvs(kvs)
    ensures ValidKvs(Kept(kvs))
  {
    if |kvs| > 0 { KeptValid(kvs[..|kvs| - 1]); }
  }

  /** An alignment record changes the alignment unless it is zero; the tool compares keys as C strings. */
  function Aligned(kv: Kv, isKey: bool, before: nat): nat {
    if isKey && kv.t == UINT32 && |kv.payload| == 4 && Number(kv.payload) != 0 then Number(kv.payload) else before
  }

  function WriterAlignment(kvs: seq<Kv>): nat {
    if |kvs| == 0 then DEFAULT_ALIGNMENT else
    var kv := kvs[|kvs| - 1];
    Aligned(kv, CString(kv.key) == AlignmentKey(), WriterAlignment(kvs[..|kvs| - 1]))
  }

  function LoaderAlignment(kvs: seq<Kv>): nat {
    if |kvs| == 0 then DEFAULT_ALIGNMENT else
    var kv := kvs[|kvs| - 1];
    Aligned(kv, kv.key == AlignmentKey(), LoaderAlignment(kvs[..|kvs| - 1]))
  }

  lemma {:induction false} AlignmentPositive(kvs: seq<Kv>)
    ensures WriterAlignment(kvs) > 0 && LoaderAlignment(kvs) > 0
  {
    if |kvs| > 0 { AlignmentPositive(kvs[..|kvs| - 1]); }
  }

  /** Whether a record sets an alignment, under whatever key. */
  predicate SetsAlignment(kv: Kv) {
    kv.t == UINT32 && |kv.payload| == 4 && Number(kv.payload) != 0
  }

  /**
   The last record that sets the tool's alignment hides no text behind a NUL in its key, or sets what the loader has
   anyway from the records before it.
   */
  predicate NothingHidden(kvs: seq<Kv>) {
    if |kvs| == 0 then true else
    var kv, front := kvs[|kvs| - 1], kvs[..|kvs| - 1];
    if CString(kv.key) == AlignmentKey() && SetsAlignment(kv) then
      0 !in kv.key || Number(kv.payload) == LoaderAlignment(front)
    else NothingHidden(front)
  }

  lemma {:induction false} PlainIsWhole(s: seq<byte>)
    requires 0 !in s
    ensures CString(s) == s
  {
    if |s| > 0 { PlainIsWhole(s[1..]); }
  }

  /** A stale key is not the alignment key. */
  lemma StaleIsNotAlignment(key: seq<byte>)
    requires Stale(key)
    ensures CString(key) != AlignmentKey()
  {
    assert ImatrixPrefix()[0] == 113 && ReapPrefix()[0] == 114 && AlignmentKey()[0] == 103;
  }

  lemma AlignmentKeyIsPlain()
    ensures 0 !in AlignmentKey() && CString(AlignmentKey()) == AlignmentKey()
  {
    PlainIsWhole(AlignmentKey());
  }

  /** Dropping stale records changes nothing for the loader: none of them sets its alignment. */
  lemma {:induction false} KeptAlignment(kvs: seq<Kv>)
    ensures LoaderAlignment(Kept(kvs)) == LoaderAlignment(kvs)
  {
    hide *;
    if |kvs| == 0 {
      KeptNone();
      assert kvs == [];
    } else {
      var front, kv := kvs[..|kvs| - 1], kvs[|kvs| - 1];
      KeptAlignment(front);
      assert kvs == front + [kv];
      KeptStep(front, kv);
      if Stale(kv.key) {
        AlignmentKeyIsPlain();
        StaleIsNotAlignment(kv.key);
        assert Kept(front) + [] == Kept(front);
        AlignedIs(kv, LoaderAlignment(front));
      } else {
        KeptStep(Kept(front), kv);
      }
    }
  }

  /** The loader sees the tool's alignment exactly when nothing is hidden. */
  lemma {:induction false} AlignmentAgrees(kvs: seq<Kv>)
    ensures LoaderAlignment(Kept(kvs)) == WriterAlignment(kvs) <==> NothingHidden(kvs)
  {
    hide *;
    KeptAlignment(kvs);
    SameAlignment(kvs);
  }

  lemma {:induction false} SameAlignment(kvs: seq<Kv>)
    ensures LoaderAlignment(kvs) == WriterAlignment(kvs) <==> NothingHidden(kvs)
  {
    if |kvs| == 0 {
    } else {
      var front, kv := kvs[..|kvs| - 1], kvs[|kvs| - 1];
      SameAlignment(front);
      AlignmentKeyIsPlain();
      if 0 !in kv.key { PlainIsWhole(kv.key); }
      HiddenStep(kvs, front, kv);
      AlignedIs(kv, LoaderAlignment(front));
      AlignedIs(kv, WriterAlignment(front));
      hide *;
      KeptStep(front, kv);
      assert kvs == front + [kv];
    }
  }

  lemma HiddenStep(kvs: seq<Kv>, front: seq<Kv>, kv: Kv)
    requires |kvs| > 0 && kvs[..|kvs| - 1] == front && kvs[|kvs| - 1] == kv
    ensures NothingHidden(kvs)
       <==> if CString(kv.key) == AlignmentKey() && SetsAlignment(kv) then
              0 !in kv.key || Number(kv.payload) == LoaderAlignment(front)
            else NothingHidden(front)
  {
    hide CString, AlignmentKey, SetsAlignment, LoaderAlignment, Number;
  }

  lemma AlignedIs(kv: Kv, before: nat)
    ensures Aligned(kv, true, before) == if SetsAlignment(kv) then Number(kv.payload) else before
    ensures Aligned(kv, false, before) == before
  {
    hide Number;
  }

  /** With a NUL behind the alignment key the tool aligns to 64 and the loader to 32. */
  lemma HiddenTextDiffers() returns (kvs: seq<Kv>)
    ensures ValidKvs(kvs) && WriterAlignment(kvs) == 64 && LoaderAlignment(Kept(kvs)) == 32
  {
    var payload: seq<byte> := [64, 0, 0, 0];
    var kv := Kv(AlignmentKey() + [0], UINT32, payload);
    kvs := [kv];
    var v := Scalar(UINT32, payload);
    assert v.Type() == UINT32 && WellFormed(v, 0) && EncodeValue(v) == payload;
    SixtyFour(payload);
    assert CString(kv.key) == AlignmentKey() by {
      assert 0 !in AlignmentKey();
      CutAtNul(AlignmentKey(), []);
      assert AlignmentKey() + [0] + [] == kv.key;
    }
    assert !Stale(kv.key) by {
      assert ImatrixPrefix()[0] == 113 && ReapPrefix()[0] == 114 && AlignmentKey()[0] == 103;
    }
    hide AlignmentKey, Number, Stale, CString;
    assert kvs[..0] == [] && Kept(kvs) == [kv];
    assert kv.key != AlignmentKey();
  }

  lemma SixtyFour(b: seq<byte>)
    requires b == [64, 0, 0, 0]
    ensures Number(b) == 64
  {
    var c := b[1..];
    var d := c[1..];
    assert Number(d[1..]) == 0 && Number(d) == 0 && Number(c) == 0;
  }

  lemma {:induction false} CutAtNul(a: seq<byte>, b: seq<byte>)
    requires 0 !in a
    ensures CString(a + [0] + b) == a
  {
    if |a| == 0 {
      assert (a + [0] + b)[0] == 0;
    } else {
      assert (a + [0] + b)[1..] == a[1..] + [0] + b;
      CutAtNul(a[1..], b);
    }
  }

  // ---- loading the template's records in place -------------------------------------------------------------

  /** The bytes of the kept spans, one after the other; spans count from the first record. */
  function Joined(b: seq<byte>, start: nat, spans: seq<(nat, nat)>): seq<byte>
    requires forall i :: 0 <= i < |spans| ==> spans[i].0 <= spans[i].1 && start + spans[i].1 <= |b|
  {
    if |spans| == 0 then [] else
    Joined(b, start, spans[..|spans| - 1]) + b[start + spans[|spans| - 1].0..start + spans[|spans| - 1].1]
  }

  lemma KvsStep(b: seq<byte>, pos: nat, n: nat, template: bool)
    requires n > 0
    ensures match KvAt(b, pos, template)
      case None => KvsAt(b, pos, n, template) == None
      case Some((kv, next)) =>
        match KvsAt(b, next, n - 1, template)
        case None => KvsAt(b, pos, n, template) == None
        case Some((rest, end)) => KvsAt(b, pos, n, template) == Some(([kv] + rest, end))
  {
    hide KvAt;
  }

  /** What is read altogether, when some records are read already. */
  function After(done: seq<Kv>, more: Option<(seq<Kv>, nat)>): Option<(seq<Kv>, nat)> {
    match more
    case None => None
    case Some((rest, end)) => Some((done + rest, end))
  }

  lemma AfterStep(b: seq<byte>, pos: nat, n: nat, template: bool, done: seq<Kv>)
    requires n > 0
    ensures match KvAt(b, pos, template)
      case None => After(done, KvsAt(b, pos, n, template)) == None
      case Some((kv, next)) =>
        After(done, KvsAt(b, pos, n, template)) == After(done + [kv], KvsAt(b, next, n - 1, template))
  {
    KvsStep(b, pos, n, template);
    if KvAt(b, pos, template).Some? {
      var (kv, next) := KvAt(b, pos, template).value;
      if KvsAt(b, next, n - 1, template).Some? {
        assert done + ([kv] + KvsAt(b, next, n - 1, template).value.0)
            == done + [kv] + KvsAt(b, next, n - 1, template).value.0;
      }
    }
    hide KvAt;
  }

  lemma AfterNone(b: seq<byte>, pos: nat, template: bool, done: seq<Kv>)
    ensures After(done, KvsAt(b, pos, 0, template)) == Some((done, pos))
  {
    assert done + [] == done;
  }

  /** One more record: what it adds to the kept ones and to the alignment. */
  lemma KeptStep(done: seq<Kv>, kv: Kv)
    ensures Kept(done + [kv]) == Kept(done) + if Stale(kv.key) then [] else [kv]
    ensures WriterAlignment(done + [kv]) == Aligned(kv, CString(kv.key) == AlignmentKey(), WriterAlignment(done))
    ensures LoaderAlignment(done + [kv]) == Aligned(kv, kv.key == AlignmentKey(), LoaderAlignment(done))
  {
    assert (done + [kv])[..|done|] == done;
  }

  lemma KeptBytesStep(done: seq<Kv>, kv: Kv)
    ensures EncodeKvs(Kept(done + [kv])) == EncodeKvs(Kept(done)) + if Stale(kv.key) then [] else EncodeKv(kv)
  {
    KeptStep(done, kv);
    if Stale(kv.key) {
      assert Kept(done) + [] == Kept(done);
    } else {
      EncodeKvsSnoc(Kept(done), kv);
    }
  }

  /**
   The record loop of load_gguf_metadata: spans of the records to keep are noted, then their bytes are copied.
   The result is the copied bytes, their number of records, the alignment and where the records end.
   */
  method LoadKeyValues(b: seq<byte>, start: nat, n: nat) returns (r: Option<(seq<byte>, nat, nat, nat)>)
    requires start <= |b| < U64
    ensures match KvsAt(b, start, n, true)
      case None => r == None
      case Some((kvs, end)) => r == Some((EncodeKvs(Kept(kvs)), |Kept(kvs)|, WriterAlignment(kvs), end))
  {
    hide Kept, EncodeKvs, WriterAlignment, KvsAt, Joined, ReadString, Read, SkipFor, CString, Stale, AlignmentKey,
         Number, EncodeKv, ValidKv, Le;
    var alignment := DEFAULT_ALIGNMENT;
    var keep: seq<(nat, nat)> := [];
    var pos := start;
    ghost var done: seq<Kv> := [];
    NothingYet(b, start, n);
    var i := 0;
    while i < n
      invariant 0 <= i <= n && start <= pos <= |b|
      invariant KvsAt(b, start, n, true) == After(done, KvsAt(b, pos, n - i, true))
      invariant forall k :: 0 <= k < |keep| ==> keep[k].0 <= keep[k].1 && start + keep[k].1 <= |b|
      invariant Joined(b, start, keep) == EncodeKvs(Kept(done)) && |keep| == |Kept(done)|
      invariant alignment == WriterAlignment(done)
    {
      AfterStep(b, pos, n - i, true, done);
      var recStart := pos;
      if KvAt(b, pos, true).Some? { KvAtIs(b, pos, true); }
      var key;
      match ReadString(b, pos) {
        case None => return None;
        case Some((k, at)) => key := k; pos := at;
      }
      var t;
      match Read(b, pos, 4) {
        case None => return None;
        case Some((type_, at)) => ReadIsSkip(b, pos, 4); t := type_; pos := at;
      }
      if CString(key) == AlignmentKey() && t == UINT32 {
        assert SkipFor(b, pos, t, true) == Skip(b, pos, 4) by { SkipForScalar(b, pos, t); }
        match Read(b, pos, 4) {
          case None => assert SkipFor(b, pos, t, true) == None by { ReadIsSkip(b, pos, 4); } return None;
          case Some((a, at)) =>
            assert Skip(b, pos, 4) == Some(at) && a == Number(b[pos..at]) by { ReadIsSkip(b, pos, 4); }
            if a != 0 { alignment := a; }
            pos := at;
        }
      } else {
        match SkipFor(b, pos, t, true) {
          case None => return None;
          case Some(at) => SkippedPayload(b, pos, t, true); pos := at;
        }
      }
      ghost var kv := KvAt(b, recStart, true).value.0;
      KeptStep(done, kv);
      KeptBytesStep(done, kv);
      if !Stale(key) {
        JoinedStep(b, start, keep, (recStart - start, pos - start));
        keep := keep + [(recStart - start, pos - start)];
      }
      done := done + [kv];
      i := i + 1;
    }
    AfterNone(b, pos, true, done);
    var raw := CopySpans(b, start, keep);
    return Some((raw, |keep|, alignment, pos));
  }

  lemma NothingYet(b: seq<byte>, start: nat, n: nat)
    requires start <= |b|
    ensures Kept([]) == [] && WriterAlignment([]) == DEFAULT_ALIGNMENT
    ensures EncodeKvs([]) == [] && Joined(b, start, []) == []
    ensures After([], KvsAt(b, start, n, true)) == KvsAt(b, start, n, true)
  {
    if KvsAt(b, start, n, true).Some? {
      assert [] + KvsAt(b, start, n, true).value.0 == KvsAt(b, start, n, true).value.0;
    }
  }

  lemma SkipForScalar(b: seq<byte>, pos: nat, t: nat)
    requires t == UINT32
    ensures SkipFor(b, pos, t, true) == Skip(b, pos, 4)
  {
  }

  lemma ReadIsSkip(b: seq<byte>, pos: nat, k: nat)
    ensures match Skip(b, pos, k)
      case None => Read(b, pos, k) == None
      case Some(end) => pos <= end <= |b| && Read(b, pos, k) == Some((Number(b[pos..end]), end))
  {
  }

  lemma JoinedStep(b: seq<byte>, start: nat, spans: seq<(nat, nat)>, s: (nat, nat))
    requires forall i :: 0 <= i < |spans| ==> spans[i].0 <= spans[i].1 && start + spans[i].1 <= |b|
    requires s.0 <= s.1 && start + s.1 <= |b|
    ensures Joined(b, start, spans + [s]) == Joined(b, start, spans) + b[start + s.0..start + s.1]
  {
    assert (spans + [s])[..|spans|] == spans;
  }

  lemma NoSpans(b: seq<byte>, start: nat)
    ensures Joined(b, start, []) == []
  {
  }

  /** Sums the kept lengths, then copies span by span. */
  method CopySpans(b: seq<byte>, start: nat, spans: seq<(nat, nat)>) returns (raw: seq<byte>)
    requires forall i :: 0 <= i < |spans| ==> spans[i].0 <= spans[i].1 && start + spans[i].1 <= |b|
    ensures raw == Joined(b, start, spans)
  {
    hide Joined;
    assert Joined(b, start, spans[..0]) == [] by { NoSpans(b, start); }
    var length := 0;
    for i := 0 to |spans|
      invariant length == |Joined(b, start, spans[..i])|
    {
      assert spans[..i + 1] == spans[..i] + [spans[i]];
      JoinedStep(b, start, spans[..i], spans[i]);
      length := length + (spans[i].1 - spans[i].0);
    }
    assert spans[..|spans|] == spans;
    var out := new byte[length](_ => 0);
    var at := 0;
    for i := 0 to |spans|
      invariant at == |Joined(b, start, spans[..i])| <= length && length == |Joined(b, start, spans)|
      invariant out[..at] == Joined(b, start, spans[..i])
    {
      assert spans[..i + 1] == spans[..i] + [spans[i]];
      JoinedStep(b, start, spans[..i], spans[i]);
      JoinedGrows(b, start, spans, i + 1);
      var n := spans[i].1 - spans[i].0;
      CopyBytes(out, at, b, start + spans[i].0, n);
      at := at + n;
    }
    raw := out[..];
  }

  /** memcpy */
  method CopyBytes(out: array<byte>, at: nat, b: seq<byte>, from: nat, n: nat)
    requires at + n <= out.Length && from + n <= |b|
    modifies out
    ensures out[..at + n] == old(out[..at]) + b[from..from + n] && out[at + n..] == old(out[at + n..])
  {
    for k := 0 to n
      invariant out[..at + k] == old(out[..at]) + b[from..from + k] && out[at + k..] == old(out[at + k..])
    {
      out[at + k] := b[from + k];
    }
  }

  lemma {:induction false} JoinedGrows(b: seq<byte>, start: nat, spans: seq<(nat, nat)>, i: nat)
    requires i <= |spans|
    requires forall i :: 0 <= i < |spans| ==> spans[i].0 <= spans[i].1 && start + spans[i].1 <= |b|
    ensures |Joined(b, start, spans[..i])| <= |Joined(b, start, spans)|
    decreases |spans|
  {
    if i < |spans| {
      JoinedGrows(b, start, spans[..|spans| - 1], i);
      assert spans[..|spans| - 1][..i] == spans[..i];
    } else {
      assert spans[..i] == spans;
    }
  }
}
