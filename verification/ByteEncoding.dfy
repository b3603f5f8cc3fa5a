/**
 The GPT-2 byte encoder of src/tokenizer/ds4_tokenizer.c: every raw byte becomes a
 printable code point written in UTF-8 (section 3 of RFC 3629), and the detokenizer maps back.
 Shifts and masks of the source are written as division and remainder by powers of two.
 */
module ByteEncoding {

  type byte = x: int | 0 <= x < 256

  datatype Option<+T> = None | Some(value: T)

  // ---- concatenation of parts ---------------------------------------------

  function Flatten<T>(parts: seq<seq<T>>): seq<T> {
    if parts == [] then [] else parts[0] + Flatten(parts[1..])
  }

  lemma {:induction false} FlattenAppend<T>(a: seq<seq<T>>, b: seq<seq<T>>)
    ensures Flatten(a + b) == Flatten(a) + Flatten(b)
  {
    if a == [] {
      assert a + b == b;
    } else {
      assert (a + b)[0] == a[0] && (a + b)[1..] == a[1..] + b;
      FlattenAppend(a[1..], b);
    }
  }

  // ---- UTF-8 ---------------------------------------------------------------

  function Utf8(cp: nat): (r: seq<byte>)
    requires cp < 0x20_0000
    ensures 1 <= |r| <= 4
  {
    if cp <= 0x7f then [cp]
    else if cp <= 0x7ff then [0xc0 + cp / 0x40, 0x80 + cp % 0x40]
    else if cp <= 0xffff then [0xe0 + cp / 0x1000, 0x80 + cp / 0x40 % 0x40, 0x80 + cp % 0x40]
    else [0xf0 + cp / 0x4_0000, 0x80 + cp / 0x1000 % 0x40, 0x80 + cp / 0x40 % 0x40, 0x80 + cp % 0x40]
  }

  /** utf8_len_from_first_byte */
  function Utf8Len(c: byte): (n: nat)
    ensures 1 <= n <= 4
    ensures c < 0xc0 ==> n == 1
  {
    if c < 0x80 then 1
    else if 0xc0 <= c < 0xe0 then 2
    else if 0xe0 <= c < 0xf0 then 3
    else if 0xf0 <= c < 0xf8 then 4
    else 1
  }

  /** utf8_decode_one: the code point at pos and the position after it; malformed bytes stand for themselves. */
  function Utf8DecodeOne(s: seq<byte>, pos: nat): (r: (nat, nat))
    requires pos < |s|
    ensures pos < r.1 <= |s|
  {
    var c: int := s[pos];
    if c < 0x80 || pos + 1 >= |s| then (c, pos + 1)
    else if 0xc0 <= c < 0xe0 then (c % 0x20 * 0x40 + Low6(s[pos + 1]), pos + 2)
    else if 0xe0 <= c < 0xf0 && pos + 2 < |s| then
      (c % 0x10 * 0x1000 + Low6(s[pos + 1]) * 0x40 + Low6(s[pos + 2]), pos + 3)
    else if 0xf0 <= c < 0xf8 && pos + 3 < |s| then
      (c % 8 * 0x4_0000 + Low6(s[pos + 1]) * 0x1000 + Low6(s[pos + 2]) * 0x40 + Low6(s[pos + 3]), pos + 4)
    else (c, pos + 1)
  }

  /** c & 0x3f */
  function Low6(c: int): nat { c % 0x40 }

  lemma Digits64(cp: nat)
    ensures cp == cp / 0x40 * 0x40 + cp % 0x40
    ensures cp / 0x40 == cp / 0x1000 * 0x40 + cp / 0x40 % 0x40
    ensures cp / 0x1000 == cp / 0x4_0000 * 0x40 + cp / 0x1000 % 0x40
  {
  }

  lemma TailByte(x: nat)
    ensures Low6(0x80 + x % 0x40) == x % 0x40
  {
  }

  lemma LeadByte(h: nat)
    ensures h < 0x20 ==> (0xc0 + h) % 0x20 == h
    ensures h < 0x10 ==> (0xe0 + h) % 0x10 == h
    ensures h < 8 ==> (0xf0 + h) % 8 == h
  {
  }

  lemma Utf8RoundTrip2(cp: nat, s: seq<byte>)
    requires 0x7f < cp <= 0x7ff && Utf8(cp) <= s
    ensures Utf8DecodeOne(s, 0) == (cp, 2)
  {
    assert s[0] == 0xc0 + cp / 0x40 && s[1] == 0x80 + cp % 0x40;
    TailByte(cp);
    LeadByte(cp / 0x40);
  }

  lemma Utf8RoundTrip3(cp: nat, s: seq<byte>)
    requires 0x7ff < cp <= 0xffff && Utf8(cp) <= s
    ensures Utf8DecodeOne(s, 0) == (cp, 3)
  {
    assert s[0] == 0xe0 + cp / 0x1000 && s[1] == 0x80 + cp / 0x40 % 0x40 && s[2] == 0x80 + cp % 0x40;
    TailByte(cp);
    TailByte(cp / 0x40);
    LeadByte(cp / 0x1000);
    Digits64(cp);
  }

  lemma Utf8RoundTrip4(cp: nat, s: seq<byte>)
    requires 0xffff < cp < 0x20_0000 && Utf8(cp) <= s
    ensures Utf8DecodeOne(s, 0) == (cp, 4)
  {
    assert s[0] == 0xf0 + cp / 0x4_0000 && s[1] == 0x80 + cp / 0x1000 % 0x40;
    assert s[2] == 0x80 + cp / 0x40 % 0x40 && s[3] == 0x80 + cp % 0x40;
    TailByte(cp);
    TailByte(cp / 0x40);
    TailByte(cp / 0x1000);
    LeadByte(cp / 0x4_0000);
    Digits64(cp);
  }

  /** Decoding undoes encoding for every code point UTF-8 can carry, whatever bytes follow. */
  lemma Utf8RoundTrip(cp: nat, s: seq<byte>)
    requires cp < 0x20_0000 && Utf8(cp) <= s
    ensures Utf8DecodeOne(s, 0) == (cp, |Utf8(cp)|)
    ensures Utf8Len(s[0]) == |Utf8(cp)|
  {
    if cp <= 0x7f {
      assert s[0] == cp;
    } else if cp <= 0x7ff {
      Utf8RoundTrip2(cp, s);
    } else if cp <= 0xffff {
      Utf8RoundTrip3(cp, s);
    } else {
      Utf8RoundTrip4(cp, s);
    }
  }

  // ---- the byte <-> code point bijection -------------------------------------

  predicate Printable(b: int) {
    33 <= b <= 126 || 161 <= b <= 172 || b >= 174
  }

  /** How many of the values below b are not printable. */
  function Skipped(b: nat): nat {
    if b == 0 then 0 else Skipped(b - 1) + if Printable(b - 1) then 0 else 1
  }

  /** The code point that stands for byte b. */
  function CodepointOf(b: byte): nat {
    if Printable(b) then b else 256 + Skipped(b)
  }

  lemma {:induction false} SkippedValue(b: nat)
    requires b <= 256
    ensures Skipped(b) == if b <= 33 then b else if b <= 127 then 33 else if b <= 161 then b - 94
                          else if b <= 173 then 67 else 68
  {
    if b > 0 { SkippedValue(b - 1); }
  }

  method Gpt2ByteToCodepoint(b: byte) returns (cp: nat)
    ensures cp == CodepointOf(b)
  {
    if (b >= 33 && b <= 126) || (b >= 161 && b <= 172) || b >= 174 {
      return b;
    }
    var n := 0;
    var x := 0;
    while x < 256
      invariant 0 <= x <= b
      invariant n == Skipped(x)
    {
      if (x >= 33 && x <= 126) || (x >= 161 && x <= 172) || x >= 174 {
        x := x + 1;
        continue;
      }
      if x == b { return 256 + n; }
      n := n + 1;
      x := x + 1;
    }
    assert false;
  }

  /** The byte that code point cp stands for, if any: the first one found counting upwards. */
  function ByteFrom(cp: nat, b: nat): Option<byte>
    requires b <= 256
    decreases 256 - b
  {
    if b == 256 then None
    else if !Printable(b) && cp == 256 + Skipped(b) then Some(b)
    else ByteFrom(cp, b + 1)
  }

  function ByteOf(cp: nat): Option<byte> {
    if Printable(cp) && cp <= 255 then Some(cp) else ByteFrom(cp, 0)
  }

  method Gpt2CodepointToByte(cp: nat) returns (r: int)
    ensures r == match ByteOf(cp) case Some(b) => b case None => -1
  {
    if (cp >= 33 && cp <= 126) || (cp >= 161 && cp <= 172) || (cp >= 174 && cp <= 255) {
      return cp;
    }
    var n := 0;
    var b := 0;
    while b < 256
      invariant 0 <= b <= 256
      invariant n == Skipped(b)
      invariant ByteFrom(cp, 0) == ByteFrom(cp, b)
    {
      if (b >= 33 && b <= 126) || (b >= 161 && b <= 172) || b >= 174 {
        b := b + 1;
        continue;
      }
      if cp == 256 + n { return b; }
      n := n + 1;
      b := b + 1;
    }
    return -1;
  }

  lemma {:induction false} ByteFromFinds(cp: nat, from: nat, b: byte)
    requires from <= b && !Printable(b) && cp == 256 + Skipped(b)
    ensures ByteFrom(cp, from) == Some(b)
    decreases b - from
  {
    SkippedValue(b);
    SkippedValue(from);
    if from < b { ByteFromFinds(cp, from + 1, b); }
  }

  lemma {:induction false} ByteFromSound(cp: nat, from: nat)
    requires from <= 256
    ensures ByteFrom(cp, from).Some? ==>
              !Printable(ByteFrom(cp, from).value) && cp == 256 + Skipped(ByteFrom(cp, from).value)
    decreases 256 - from
  {
    if from < 256 { ByteFromSound(cp, from + 1); }
  }

  /** The two directions of the map are inverse to each other: a bijection between bytes and 256 code points. */
  lemma CodepointBijection(cp: nat, b: byte)
    ensures ByteOf(cp) == Some(b) <==> cp == CodepointOf(b)
    ensures CodepointOf(b) <= 323 && (CodepointOf(b) < 0x80 <==> 33 <= b <= 126) && CodepointOf(b) != 32
  {
    SkippedValue(b);
    if cp == CodepointOf(b) && !Printable(b) {
      ByteFromFinds(cp, 0, b);
    }
    ByteFromSound(cp, 0);
  }

  // ---- encoding and decoding whole strings -------------------------------------

  /** The encoding of one byte. */
  function EncodeByte(b: byte): (r: seq<byte>) {
    CodepointBijection(0, b);
    Utf8(CodepointOf(b))
  }

  function Encode(raw: seq<byte>): seq<byte> {
    if raw == [] then [] else EncodeByte(raw[0]) + Encode(raw[1..])
  }

  method ByteEncode(raw: seq<byte>) returns (out: seq<byte>)
    ensures out == Encode(raw)
  {
    out := [];
    for i := 0 to |raw|
      invariant out == Encode(raw[..i])
    {
      var cp := Gpt2ByteToCodepoint(raw[i]);
      CodepointBijection(0, raw[i]);
      EncodeAppend(raw[..i], raw[i..i + 1]);
      assert raw[..i + 1] == raw[..i] + raw[i..i + 1];
      assert Encode(raw[i..i + 1]) == EncodeByte(raw[i]) + Encode([]);
      out := out + Utf8(cp);
    }
    assert raw[..|raw|] == raw;
  }

  /** What the detokenizer makes of an encoded string: unmapped code points are dropped. */
  function DecodeFrom(s: seq<byte>, pos: nat): seq<byte>
    requires pos <= |s|
    decreases |s| - pos
  {
    if pos == |s| then []
    else
      var (cp, next) := Utf8DecodeOne(s, pos);
      (match ByteOf(cp) case Some(b) => [b] case None => []) + DecodeFrom(s, next)
  }

  function Decode(s: seq<byte>): seq<byte> {
    DecodeFrom(s, 0)
  }

  lemma {:induction false} EncodeAppend(a: seq<byte>, b: seq<byte>)
    ensures Encode(a + b) == Encode(a) + Encode(b)
  {
    if a == [] {
      assert a + b == b;
    } else {
      assert (a + b)[0] == a[0] && (a + b)[1..] == a[1..] + b;
      EncodeAppend(a[1..], b);
    }
  }

  /** Decoding depends only on the bytes from pos on. */
  lemma {:induction false} DecodeFromSuffix(s: seq<byte>, pos: nat, from: nat)
    requires from <= pos <= |s|
    ensures DecodeFrom(s, pos) == DecodeFrom(s[from..], pos - from)
    decreases |s| - pos
  {
    if pos < |s| {
      var (cp, next) := Utf8DecodeOne(s, pos);
      assert Utf8DecodeOne(s[from..], pos - from) == (cp, next - from);
      DecodeFromSuffix(s, next, from);
    }
  }

  /** The detokenizer undoes the byte encoder, for every byte string. */
  lemma {:induction false} DecodeEncode(raw: seq<byte>)
    ensures Decode(Encode(raw)) == raw
  {
    if raw != [] {
      var head, rest := EncodeByte(raw[0]), Encode(raw[1..]);
      CodepointBijection(CodepointOf(raw[0]), raw[0]);
      Utf8RoundTrip(CodepointOf(raw[0]), head + rest);
      DecodeFromSuffix(head + rest, |head|, |head|);
      assert (head + rest)[|head|..] == rest;
      DecodeEncode(raw[1..]);
      assert Decode(head + rest) == [raw[0]] + DecodeFrom(head + rest, |head|);
    }
  }

  /** Bytes of an encoded string: never a space, and never above 0xC5. */
  lemma {:induction false} EncodedBytes(raw: seq<byte>, i: nat)
    requires i < |Encode(raw)|
    ensures Encode(raw)[i] != 32 && Encode(raw)[i] <= 0xc5
  {
    CodepointBijection(0, raw[0]);
    var head := EncodeByte(raw[0]);
    if i >= |head| { EncodedBytes(raw[1..], i - |head|); }
  }
}
