/**
 Reading GGUF metadata values, src/model/ds4_gguf.c:40-83, 146-206: a cursor over bytes and a skipper for typed values.
 The layout is that of the "File Structure" section of the GGUF v3 specification.
 */
module GgufValues {
  import opened ByteEncoding

  const U32: nat := 0x1_0000_0000
  const U64: nat := 0x1_0000_0000_0000_0000

  const UINT8: nat := 0
  const INT8: nat := 1
  const UINT16: nat := 2
  const INT16: nat := 3
  const UINT32: nat := 4
  const INT32: nat := 5
  const FLOAT32: nat := 6
  const BOOL: nat := 7
  const STRING: nat := 8
  const ARRAY: nat := 9
  const UINT64: nat := 10
  const INT64: nat := 11
  const FLOAT64: nat := 12

  const MAX_DEPTH: nat := 8

  // ---- little-endian numbers -------------------------------------------------------------------

  /** The k low bytes of n, least significant first. */
  function Le(n: nat, k: nat): (b: seq<byte>)
    ensures |b| == k
  {
    if k == 0 then [] else [n % 256] + Le(n / 256, k - 1)
  }

  function Number(b: seq<byte>): nat {
    if |b| == 0 then 0 else b[0] + 256 * Number(b[1..])
  }

  function Bound(k: nat): (p: nat)
    ensures p > 0
  {
    if k == 0 then 1 else 256 * Bound(k - 1)
  }

  lemma Bounds()
    ensures Bound(4) == U32 && Bound(8) == U64
  {
    assert Bound(4) == U32;
    assert Bound(6) == 0x1_0000_0000_0000;
  }

  lemma {:induction false} NumberOfLe(n: nat, k: nat)
    requires n < Bound(k)
    ensures Number(Le(n, k)) == n
  {
    if k == 0 {
    } else {
      NumberOfLe(n / 256, k - 1);
      assert Le(n, k)[1..] == Le(n / 256, k - 1);
    }
  }

  lemma {:induction false} LeOfNumber(b: seq<byte>)
    ensures Number(b) < Bound(|b|) && Le(Number(b), |b|) == b
  {
    if |b| == 0 {
    } else {
      LeOfNumber(b[1..]);
      assert Number(b) % 256 == b[0] && Number(b) / 256 == Number(b[1..]);
    }
  }

  // ---- values -------------------------------------------------------------------------------------

  function ScalarSize(t: nat): (n: nat)
    ensures n == 0 || n == 1 || n == 2 || n == 4 || n == 8
  {
    if t == UINT8 || t == INT8 || t == BOOL then 1
    else if t == UINT16 || t == INT16 then 2
    else if t == UINT32 || t == INT32 || t == FLOAT32 then 4
    else if t == UINT64 || t == INT64 || t == FLOAT64 then 8
    else 0
  }

  /** A metadata value: the bytes of a scalar, the bytes of a string, or an array with the type of its items. */
  datatype Value = Scalar(t: nat, bytes: seq<byte>) | Str(text: seq<byte>) | Arr(itemType: nat, items: seq<Value>) {
    function Type(): nat {
      match this
      case Scalar(t, _) => t
      case Str(_) => STRING
      case Arr(_, _) => ARRAY
    }
  }

  function EncodeString(s: seq<byte>): (b: seq<byte>)
    ensures |b| == 8 + |s|
  {
    Le(|s|, 8) + s
  }

  function EncodeValue(v: Value): seq<byte> {
    match v
    case Scalar(_, bytes) => bytes
    case Str(text) => EncodeString(text)
    case Arr(itemType, items) => Le(itemType, 4) + Le(|items|, 8) + EncodeAll(items)
  }

  function EncodeAll(items: seq<Value>): seq<byte> {
    if |items| == 0 then [] else EncodeValue(items[0]) + EncodeAll(items[1..])
  }

  /** Well-formed at this depth: nesting stops at 8, and items have the array's item type. */
  predicate WellFormed(v: Value, depth: nat) {
    && depth <= MAX_DEPTH
    && match v
       case Scalar(t, bytes) => ScalarSize(t) > 0 && |bytes| == ScalarSize(t)
       case Str(text) => |text| < U64
       case Arr(itemType, items) =>
         && itemType < U32 && |items| < U64
         && forall i :: 0 <= i < |items| ==> (
              && items[i].Type() == itemType
              && if ScalarSize(itemType) > 0 then items[i].Scalar? && |items[i].bytes| == ScalarSize(itemType)
                 else WellFormed(items[i], depth + 1))
  }

  // ---- the parser as functions ----------------------------------------------------------------------

  /** Where n more bytes end, if they are there. */
  function Skip(b: seq<byte>, pos: nat, n: nat): Option<nat> {
    if n > |b| || pos > |b| - n then None else Some(pos + n)
  }

  /** A number of k bytes and where it ends. */
  function Read(b: seq<byte>, pos: nat, k: nat): Option<(nat, nat)> {
    match Skip(b, pos, k)
    case None => None
    case Some(end) => Some((Number(b[pos..end]), end))
  }

  function ReadString(b: seq<byte>, pos: nat): Option<(seq<byte>, nat)> {
    match Read(b, pos, 8)
    case None => None
    case Some((len, at)) =>
      match Skip(b, at, len)
      case None => None
      case Some(end) => Some((b[at..end], end))
  }

  /** skip_value: where a value of this type ends. */
  function SkipValue(b: seq<byte>, pos: nat, t: nat, depth: nat): Option<nat>
    decreases MAX_DEPTH + 1 - depth, 0, 1
  {
    if depth > MAX_DEPTH then None
    else if ScalarSize(t) > 0 then Skip(b, pos, ScalarSize(t))
    else if t == STRING then
      match ReadString(b, pos)
      case None => None
      case Some((_, end)) => Some(end)
    else if t == ARRAY then
      match Read(b, pos, 4)
      case None => None
      case Some((itemType, at)) =>
        match Read(b, at, 8)
        case None => None
        case Some((len, items)) =>
          var size := ScalarSize(itemType);
          if size > 0 then
            if len > (U64 - 1) / size then None else Skip(b, items, len * size)
          else
            SkipItems(b, items, itemType, len, depth)
    else None
  }

  function SkipItems(b: seq<byte>, pos: nat, itemType: nat, len: nat, depth: nat): Option<nat>
    requires depth <= MAX_DEPTH
    decreases MAX_DEPTH - depth, len, 2
  {
    if len == 0 then Some(pos) else
    match SkipValue(b, pos, itemType, depth + 1)
    case None => None
    case Some(next) => SkipItems(b, next, itemType, len - 1, depth)
  }

  // ---- the skipper accepts exactly the well-formed values ---------------------------------------------

  /** The bytes e stand at pos. */
  ghost predicate Holds(b: seq<byte>, pos: nat, e: seq<byte>) {
    pos + |e| <= |b| && b[pos..pos + |e|] == e
  }

  lemma HoldsParts(b: seq<byte>, pos: nat, x: seq<byte>, y: seq<byte>)
    ensures Holds(b, pos, x + y) <==> Holds(b, pos, x) && Holds(b, pos + |x|, y)
  {
    if pos + |x| + |y| <= |b| {
      assert b[pos..pos + |x + y|] == b[pos..pos + |x|] + b[pos + |x|..pos + |x| + |y|];
      if b[pos..pos + |x + y|] == x + y {
        assert b[pos..pos + |x|] == (x + y)[..|x|] && b[pos + |x|..pos + |x| + |y|] == (x + y)[|x|..];
      }
    }
  }

  lemma ReadLe(b: seq<byte>, pos: nat, n: nat, k: nat)
    requires Holds(b, pos, Le(n, k)) && n < Bound(k)
    ensures Read(b, pos, k) == Some((n, pos + k))
  {
    NumberOfLe(n, k);
  }

  lemma ReadIsLe(b: seq<byte>, pos: nat, k: nat)
    requires Read(b, pos, k).Some?
    ensures var (n, end) := Read(b, pos, k).value; n < Bound(k) && end == pos + k && Holds(b, pos, Le(n, k))
  {
    LeOfNumber(b[pos..pos + k]);
  }

  lemma ReadStringOf(b: seq<byte>, pos: nat, s: seq<byte>)
    requires |s| < U64 && Holds(b, pos, EncodeString(s))
    ensures ReadString(b, pos) == Some((s, pos + 8 + |s|))
  {
    Bounds();
    HoldsParts(b, pos, Le(|s|, 8), s);
    ReadLe(b, pos, |s|, 8);
    hide Le, Number, Bound;
  }

  lemma ReadStringIs(b: seq<byte>, pos: nat)
    requires ReadString(b, pos).Some?
    ensures var (s, end) := ReadString(b, pos).value;
      |s| < U64 && end == pos + 8 + |s| && Holds(b, pos, EncodeString(s))
  {
    Bounds();
    ReadIsLe(b, pos, 8);
    var (s, end) := ReadString(b, pos).value;
    HoldsParts(b, pos, Le(|s|, 8), s);
    hide Le, Number, Bound;
  }

  lemma {:induction false} ScalarsLength(items: seq<Value>, t: nat)
    requires forall i :: 0 <= i < |items| ==> items[i].Scalar? && |items[i].bytes| == ScalarSize(t)
    ensures |EncodeAll(items)| == |items| * ScalarSize(t)
  {
    if |items| == 0 {
    } else {
      ScalarsLength(items[1..], t);
      OneMore(|items| - 1, ScalarSize(t));
    }
  }

  lemma OneMore(n: nat, k: nat)
    ensures (n + 1) * k == n * k + k
  {
  }

  lemma NoOverflow(len: nat, size: nat)
    requires (size == 1 || size == 2 || size == 4 || size == 8) && len * size < U64
    ensures len <= (U64 - 1) / size
  {
  }

  /** An encoded well-formed value is skipped to its end. */
  lemma {:induction false} SkipsEncoded(b: seq<byte>, pos: nat, v: Value, depth: nat)
    requires WellFormed(v, depth) && Holds(b, pos, EncodeValue(v)) && |b| < U64
    ensures SkipValue(b, pos, v.Type(), depth) == Some(pos + |EncodeValue(v)|)
    decreases v, 1
  {
    match v
    case Scalar(t, bytes) =>
    case Str(text) => ReadStringOf(b, pos, text);
    case Arr(itemType, items) =>
      ArrayHead(b, pos, itemType, |items|, EncodeAll(items));
      hide Le, Number, Bound;
      if ScalarSize(itemType) > 0 {
        ScalarsLength(items, itemType);
        NoOverflow(|items|, ScalarSize(itemType));
      } else {
        SkipsEncodedItems(b, pos + 12, items, itemType, depth);
      }
  }

  /** Type and length in front of an array's items. */
  lemma ArrayHead(b: seq<byte>, pos: nat, itemType: nat, len: nat, rest: seq<byte>)
    requires itemType < U32 && len < U64 && Holds(b, pos, Le(itemType, 4) + Le(len, 8) + rest)
    ensures Read(b, pos, 4) == Some((itemType, pos + 4)) && Read(b, pos + 4, 8) == Some((len, pos + 12))
    ensures Holds(b, pos + 12, rest)
  {
    Bounds();
    HoldsParts(b, pos, Le(itemType, 4) + Le(len, 8), rest);
    HoldsParts(b, pos, Le(itemType, 4), Le(len, 8));
    ReadLe(b, pos, itemType, 4);
    ReadLe(b, pos + 4, len, 8);
  }

  lemma {:induction false} SkipsEncodedItems(b: seq<byte>, pos: nat, items: seq<Value>, itemType: nat, depth: nat)
    requires depth <= MAX_DEPTH && Holds(b, pos, EncodeAll(items)) && |b| < U64
    requires forall i :: 0 <= i < |items| ==> items[i].Type() == itemType && WellFormed(items[i], depth + 1)
    ensures SkipItems(b, pos, itemType, |items|, depth) == Some(pos + |EncodeAll(items)|)
    decreases items, 0
  {
    hide EncodeValue, SkipValue, WellFormed, Value.Type;
    if |items| == 0 {
    } else {
      HoldsParts(b, pos, EncodeValue(items[0]), EncodeAll(items[1..]));
      SkipsEncoded(b, pos, items[0], depth + 1);
      SkipsEncodedItems(b, pos + |EncodeValue(items[0])|, items[1..], itemType, depth);
    }
  }

  /** Whatever is skipped is the encoding of a well-formed value of that type. */
  lemma {:induction false} SkippedIsEncoded(b: seq<byte>, pos: nat, t: nat, depth: nat) returns (v: Value)
    requires SkipValue(b, pos, t, depth).Some? && pos <= |b|
    ensures v.Type() == t && WellFormed(v, depth) && Holds(b, pos, EncodeValue(v))
    ensures SkipValue(b, pos, t, depth) == Some(pos + |EncodeValue(v)|)
    decreases MAX_DEPTH + 1 - depth, 0, 1
  {
    if ScalarSize(t) > 0 {
      v := Scalar(t, b[pos..pos + ScalarSize(t)]);
    } else if t == STRING {
      ReadStringIs(b, pos);
      v := Str(ReadString(b, pos).value.0);
    } else {
      assert Bound(4) == U32 && Bound(8) == U64 by { Bounds(); }
      hide Le, Number, Bound, EncodeAll;
      ReadIsLe(b, pos, 4);
      var itemType := Read(b, pos, 4).value.0;
      ReadIsLe(b, pos + 4, 8);
      var len := Read(b, pos + 4, 8).value.0;
      var items: seq<Value>;
      if ScalarSize(itemType) > 0 {
        items := SlicedScalars(b, pos + 12, itemType, len);
      } else {
        items := SkippedItems(b, pos + 12, itemType, len, depth);
      }
      v := Arr(itemType, items);
      HoldsParts(b, pos, Le(itemType, 4), Le(len, 8));
      HoldsParts(b, pos, Le(itemType, 4) + Le(len, 8), EncodeAll(items));
    }
  }

  lemma {:induction false} SlicedScalars(b: seq<byte>, pos: nat, t: nat, len: nat) returns (items: seq<Value>)
    requires ScalarSize(t) > 0 && pos + len * ScalarSize(t) <= |b|
    ensures |items| == len && Holds(b, pos, EncodeAll(items)) && |EncodeAll(items)| == len * ScalarSize(t)
    ensures forall i :: 0 <= i < len ==> items[i].Scalar? && items[i].t == t && |items[i].bytes| == ScalarSize(t)
    decreases len
  {
    if len == 0 {
      items := [];
    } else {
      var size := ScalarSize(t);
      OneMore(len - 1, size);
      var rest := SlicedScalars(b, pos + size, t, len - 1);
      var first := Scalar(t, b[pos..pos + size]);
      items := [first] + rest;
      assert items[1..] == rest;
      HoldsParts(b, pos, EncodeValue(first), EncodeAll(rest));
    }
  }

  lemma {:induction false} SkippedItems(b: seq<byte>, pos: nat, itemType: nat, len: nat, depth: nat)
    returns (items: seq<Value>)
    requires depth <= MAX_DEPTH && pos <= |b| && SkipItems(b, pos, itemType, len, depth).Some?
    ensures |items| == len && Holds(b, pos, EncodeAll(items))
    ensures SkipItems(b, pos, itemType, len, depth) == Some(pos + |EncodeAll(items)|)
    ensures forall i :: 0 <= i < len ==> items[i].Type() == itemType && WellFormed(items[i], depth + 1)
    decreases MAX_DEPTH - depth, len, 2
  {
    if len == 0 {
      items := [];
    } else {
      var first := SkippedIsEncoded(b, pos, itemType, depth + 1);
      var next := pos + |EncodeValue(first)|;
      var rest := SkippedItems(b, next, itemType, len - 1, depth);
      items := [first] + rest;
      assert items[1..] == rest;
      HoldsParts(b, pos, EncodeValue(first), EncodeAll(rest));
    }
  }

  /** skip_value succeeds exactly on the encodings of well-formed values, and stops exactly behind them. */
  lemma SkipsExactlyValues(b: seq<byte>, pos: nat, t: nat, depth: nat, end: nat)
    requires |b| < U64 && pos <= |b|
    ensures SkipValue(b, pos, t, depth) == Some(end)
       <==> exists v: Value ::
              v.Type() == t && WellFormed(v, depth) && Holds(b, pos, EncodeValue(v)) && end == pos + |EncodeValue(v)|
  {
    if SkipValue(b, pos, t, depth) == Some(end) {
      var v := SkippedIsEncoded(b, pos, t, depth);
    }
    if v: Value :|
      v.Type() == t && WellFormed(v, depth) && Holds(b, pos, EncodeValue(v)) && end == pos + |EncodeValue(v)| {
      SkipsEncoded(b, pos, v, depth);
    }
  }

  // ---- the cursor ------------------------------------------------------------------------------------------

  /** A cursor keeps the first error and where it happened. */
  class Cursor {
    const base: seq<byte>
    var pos: nat
    var error: Option<(string, nat)>

    ghost predicate Valid()
      reads this
    {
      |base| < U64 && pos <= |base|
    }

    constructor (base: seq<byte>, pos: nat)
      requires |base| < U64 && pos <= |base|
      ensures Valid() && this.base == base && this.pos == pos && error == None
    {
      this.base := base;
      this.pos := pos;
      this.error := None;
    }

    method Fail(msg: string)
      modifies this`error
      ensures error.Some? && (old(error).Some? ==> error == old(error))
      ensures old(error) == None ==> error == Some((msg, pos))
    {
      if error == None { error := Some((msg, pos)); }
    }

    /** cursor_has: the subtraction cannot wrap. */
    method Has(n: nat) returns (ok: bool)
      requires Valid()
      modifies this`error
      ensures ok <==> Skip(base, pos, n).Some?
      ensures if ok then error == old(error) else error.Some? && (old(error).Some? ==> error == old(error))
    {
      if n > |base| || pos > |base| - n {
        Fail("truncated GGUF file");
        return false;
      }
      return true;
    }

    method SkipBytes(n: nat) returns (ok: bool)
      requires Valid()
      modifies this
      ensures Valid() && (ok <==> Skip(base, old(pos), n).Some?)
      ensures if ok then pos == Skip(base, old(pos), n).value && error == old(error)
              else pos == old(pos) && error.Some? && (old(error).Some? ==> error == old(error))
    {
      ok := Has(n);
      if ok { pos := pos + n; }
    }

    /** cursor_u32 and cursor_u64 */
    method ReadNumber(k: nat) returns (ok: bool, v: nat)
      requires Valid()
      modifies this
      ensures Valid() && (ok <==> Read(base, old(pos), k).Some?)
      ensures if ok then (v, pos) == Read(base, old(pos), k).value && error == old(error)
              else pos == old(pos) && error.Some? && (old(error).Some? ==> error == old(error))
    {
      v := 0;
      ok := Has(k);
      if ok {
        v := Number(base[pos..pos + k]);
        pos := pos + k;
      }
    }

    /** cursor_string; a failing length leaves the cursor behind it. */
    method StringAt() returns (ok: bool, s: seq<byte>)
      requires Valid()
      modifies this
      ensures Valid() && (ok <==> ReadString(base, old(pos)).Some?)
      ensures if ok then (s, pos) == ReadString(base, old(pos)).value && error == old(error)
              else error.Some? && (old(error).Some? ==> error == old(error))
    {
      s := [];
      var len;
      ok, len := ReadNumber(8);
      if !ok { return; }
      ok := Has(len);
      if !ok { return; }
      s := base[pos..pos + len];
      pos := pos + len;
    }

    /** skip_value: on success the cursor stands where the value ends, on failure an error is kept. */
    method SkipTyped(t: nat, depth: nat) returns (ok: bool)
      requires Valid()
      modifies this
      ensures Valid() && (ok <==> SkipValue(base, old(pos), t, depth).Some?)
      ensures if ok then pos == SkipValue(base, old(pos), t, depth).value && error == old(error)
              else error.Some? && (old(error).Some? ==> error == old(error))
      decreases MAX_DEPTH + 1 - depth, 0
    {
      hide Number;
      if depth > MAX_DEPTH {
        Fail("metadata array nesting is too deep");
        return false;
      }
      var scalar := ScalarSize(t);
      if scalar != 0 {
        ok := SkipBytes(scalar);
        return;
      }
      if t == STRING {
        var ignored;
        ok, ignored := StringAt();
        return;
      }
      if t == ARRAY {
        var itemType, len;
        ok, itemType := ReadNumber(4);
        if !ok { return; }
        ok, len := ReadNumber(8);
        if !ok { return; }
        var itemSize := ScalarSize(itemType);
        if itemSize != 0 {
          if len > (U64 - 1) / itemSize {
            Fail("metadata array is too large");
            return false;
          }
          ok := SkipBytes(len * itemSize);
          return;
        }
        ok := SkipEach(itemType, len, depth);
        return;
      }
      Fail("unknown GGUF metadata type");
      return false;
    }

    /** The loop over the items of an array. */
    method SkipEach(itemType: nat, len: nat, depth: nat) returns (ok: bool)
      requires Valid() && depth <= MAX_DEPTH
      modifies this
      ensures Valid() && (ok <==> SkipItems(base, old(pos), itemType, len, depth).Some?)
      ensures if ok then pos == SkipItems(base, old(pos), itemType, len, depth).value && error == old(error)
              else error.Some? && (old(error).Some? ==> error == old(error))
      decreases MAX_DEPTH - depth, 1
    {
      hide SkipValue;
      var i := 0;
      while i < len
        invariant 0 <= i <= len && Valid() && error == old(error)
        invariant SkipItems(base, pos, itemType, len - i, depth) == SkipItems(base, old(pos), itemType, len, depth)
      {
        ok := SkipTyped(itemType, depth + 1);
        if !ok { return; }
        i := i + 1;
      }
      return true;
    }
  }
}
