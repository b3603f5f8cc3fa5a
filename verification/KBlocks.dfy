/**
 The bit layout of Q2_K and Q4_K blocks: how the offline writer packs codes and scales
 (gguf-tools/quants.c:394-431, 549-585) and how the readers take them apart (gguf-tools/quants.c:331-339,
 src/quant/ds4_quant.c:436-453, 549-585).
 */
module KBlocks {

  const QK: nat := 256

  // ---- two-bit codes --------------------------------------------------------------------------

  /** The codes are all below the given bound. */
  ghost predicate Below(codes: seq<bv8>, bound: bv8) {
    forall i :: 0 <= i < |codes| ==> codes[i] < bound
  }

  function Pack2(a: bv8, b: bv8, c: bv8, d: bv8): bv8 {
    a | (b << 2) | (c << 4) | (d << 6)
  }

  /** Byte i of a Q2_K block holds four codes that are 32 apart. */
  function Q2Byte(codes: seq<bv8>, i: nat): bv8
    requires |codes| == QK && i < 64
  {
    var e := i / 32 * 128 + i % 32;
    Pack2(codes[e], codes[e + 32], codes[e + 64], codes[e + 96])
  }

  /** The code at element e, by the reader's shift. */
  function Q2Code(qs: seq<bv8>, e: nat): bv8
    requires |qs| == 64 && e < QK
  {
    var b, s := qs[e / 128 * 32 + e % 32], e / 32 % 4;
    (if s == 0 then b else if s == 1 then b >> 2 else if s == 2 then b >> 4 else b >> 6) & 3
  }

  lemma Unpack2(a: bv8, b: bv8, c: bv8, d: bv8)
    requires a < 4 && b < 4 && c < 4 && d < 4
    ensures Pack2(a, b, c, d) & 3 == a
    ensures (Pack2(a, b, c, d) >> 2) & 3 == b
    ensures (Pack2(a, b, c, d) >> 4) & 3 == c
    ensures (Pack2(a, b, c, d) >> 6) & 3 == d
  {
  }

  /** Reading a packed block gives the codes back. */
  lemma Q2RoundTrip(codes: seq<bv8>, qs: seq<bv8>, e: nat)
    requires |codes| == QK && |qs| == 64 && Below(codes, 4) && e < QK
    requires forall i :: 0 <= i < 64 ==> qs[i] == Q2Byte(codes, i)
    ensures Q2Code(qs, e) == codes[e]
  {
    var i := e / 128 * 32 + e % 32;
    var base := e / 128 * 128 + e % 32;
    assert i / 32 == e / 128 && i % 32 == e % 32;
    assert e == base + 32 * (e / 32 % 4);
    Unpack2(codes[base], codes[base + 32], codes[base + 64], codes[base + 96]);
    assert qs[i] == Pack2(codes[base], codes[base + 32], codes[base + 64], codes[base + 96]);
    hide Pack2;
  }

  /** The packing loop of the Q2_K writers. */
  method PackQ2Codes(codes: seq<bv8>, qs: array<bv8>)
    requires |codes| == QK && qs.Length == 64
    modifies qs
    ensures forall i :: 0 <= i < 64 ==> qs[i] == Q2Byte(codes, i)
  {
    hide Pack2;
    var j := 0;
    while j < QK
      invariant 0 <= j <= QK && j % 128 == 0
      invariant forall i :: 0 <= i < j / 4 ==> qs[i] == Q2Byte(codes, i)
    {
      var l := 0;
      while l < 32
        invariant 0 <= l <= 32
        invariant forall i :: 0 <= i < j / 4 + l ==> qs[i] == Q2Byte(codes, i)
      {
        qs[j / 4 + l] := Pack2(codes[j + l], codes[j + l + 32], codes[j + l + 64], codes[j + l + 96]);
        assert (j / 4 + l) / 32 * 128 + (j / 4 + l) % 32 == j + l;
        l := l + 1;
      }
      j := j + 128;
    }
  }

  /** A Q2_K scale byte: the scale in the low nibble, the minimum in the high one. */
  lemma NibblePair(sc: bv8, m: bv8)
    requires sc < 16 && m < 16
    ensures (sc | (m << 4)) & 15 == sc && (sc | (m << 4)) >> 4 == m
  {
  }

  // ---- four-bit codes ---------------------------------------------------------------------------

  function Q4Byte(codes: seq<bv8>, i: nat): bv8
    requires |codes| == QK && i < 128
  {
    var e := i / 32 * 64 + i % 32;
    codes[e] | (codes[e + 32] << 4)
  }

  function Q4Code(qs: seq<bv8>, e: nat): bv8
    requires |qs| == 128 && e < QK
  {
    var b := qs[e / 64 * 32 + e % 32];
    if e / 32 % 2 == 0 then b & 15 else b >> 4
  }

  lemma Q4RoundTrip(codes: seq<bv8>, qs: seq<bv8>, e: nat)
    requires |codes| == QK && |qs| == 128 && Below(codes, 16) && e < QK
    requires forall i :: 0 <= i < 128 ==> qs[i] == Q4Byte(codes, i)
    ensures Q4Code(qs, e) == codes[e]
  {
    var i := e / 64 * 32 + e % 32;
    var base := e / 64 * 64 + e % 32;
    assert i / 32 == e / 64 && i % 32 == e % 32;
    assert e == base + 32 * (e / 32 % 2);
    NibblePair(codes[base], codes[base + 32]);
    assert qs[i] == codes[base] | (codes[base + 32] << 4);
  }

  method PackQ4Codes(codes: seq<bv8>, qs: array<bv8>)
    requires |codes| == QK && qs.Length == 128
    modifies qs
    ensures forall i :: 0 <= i < 128 ==> qs[i] == Q4Byte(codes, i)
  {
    var j, q := 0, 0;
    while j < QK
      invariant 0 <= j <= QK && j % 64 == 0 && q == j / 2
      invariant forall i :: 0 <= i < q ==> qs[i] == Q4Byte(codes, i)
    {
      var l := 0;
      while l < 32
        invariant 0 <= l <= 32
        invariant forall i :: 0 <= i < q + l ==> qs[i] == Q4Byte(codes, i)
      {
        qs[q + l] := codes[j + l] | (codes[j + l + 32] << 4);
        assert (q + l) / 32 * 64 + (q + l) % 32 == j + l;
        l := l + 1;
      }
      j, q := j + 64, q + 32;
    }
  }

  /** Where codes stand in a Q2_K block: code 128 h + 32 k + l in bits 2 k and 2 k + 1 of byte 32 h + l. */
  lemma Q2Layout(codes: seq<bv8>, h: nat, l: nat)
    requires |codes| == QK && Below(codes, 4) && h < 2 && l < 32
    ensures var b := Q2Byte(codes, 32 * h + l);
      && b & 3 == codes[128 * h + l] && (b >> 2) & 3 == codes[128 * h + 32 + l]
      && (b >> 4) & 3 == codes[128 * h + 64 + l] && b >> 6 == codes[128 * h + 96 + l]
  {
    assert (32 * h + l) / 32 * 128 + (32 * h + l) % 32 == 128 * h + l;
    var a, b, c, d := codes[128 * h + l], codes[128 * h + 32 + l], codes[128 * h + 64 + l], codes[128 * h + 96 + l];
    assert Q2Byte(codes, 32 * h + l) == Pack2(a, b, c, d);
    Unpack2(a, b, c, d);
    TopBits(Pack2(a, b, c, d));
    hide Pack2;
  }

  lemma TopBits(b: bv8)
    ensures (b >> 6) & 3 == b >> 6
  {
  }

  /** In a Q4_K block: code 64 g + l in the low and code 64 g + 32 + l in the high nibble of byte 32 g + l. */
  lemma Q4Layout(codes: seq<bv8>, g: nat, l: nat)
    requires |codes| == QK && Below(codes, 16) && g < 4 && l < 32
    ensures var b := Q4Byte(codes, 32 * g + l);
      b & 15 == codes[64 * g + l] && b >> 4 == codes[64 * g + 32 + l]
  {
    assert (32 * g + l) / 32 * 64 + (32 * g + l) % 32 == 64 * g + l;
    NibblePair(codes[64 * g + l], codes[64 * g + 32 + l]);
  }

  // ---- six-bit scales ----------------------------------------------------------------------------

  function LowByte(a: bv8, b: bv8): bv8 { a | ((b >> 4) << 6) }

  function HighByte(s: bv8, m: bv8): bv8 { (s & 15) | ((m & 15) << 4) }

  /** The twelve bytes that hold eight scales and eight minima. */
  function ScaleBytes(ls: seq<bv8>, lm: seq<bv8>, i: nat): bv8
    requires |ls| == |lm| == 8 && i < 12
  {
    if i < 4 then LowByte(ls[i], ls[i + 4])
    else if i < 8 then LowByte(lm[i - 4], lm[i])
    else HighByte(ls[i - 4], lm[i - 4])
  }

  /** q4_k_get_scale_min, and ds4q_get_scale_min_k4, which is the same */
  function GetScaleMin(j: nat, q: seq<bv8>): (bv8, bv8)
    requires j < 8 && |q| == 12
  {
    if j < 4 then (q[j] & 63, q[j + 4] & 63)
    else ((q[j + 4] & 15) | ((q[j - 4] >> 6) << 4), (q[j + 4] >> 4) | ((q[j] >> 6) << 4))
  }

  lemma SixBits(a: bv8, b: bv8, c: bv8)
    requires a < 64 && b < 64 && c < 64
    ensures LowByte(a, b) & 63 == a
    ensures (HighByte(b, c) & 15) | ((LowByte(a, b) >> 6) << 4) == b
    ensures (HighByte(c, b) >> 4) | ((LowByte(a, b) >> 6) << 4) == b
  {
  }

  /** Reading packed scales gives every pair back. */
  lemma ScalesRoundTrip(ls: seq<bv8>, lm: seq<bv8>, q: seq<bv8>, j: nat)
    requires |ls| == |lm| == 8 && |q| == 12 && Below(ls, 64) && Below(lm, 64) && j < 8
    requires forall i :: 0 <= i < 12 ==> q[i] == ScaleBytes(ls, lm, i)
    ensures GetScaleMin(j, q) == (ls[j], lm[j])
  {
    hide LowByte, HighByte;
    if j < 4 {
      SixBits(ls[j], ls[j + 4], lm[j + 4]);
      SixBits(lm[j], lm[j + 4], ls[j + 4]);
    } else {
      SixBits(ls[j - 4], ls[j], lm[j]);
      SixBits(lm[j - 4], lm[j], ls[j]);
    }
  }

  /**
   Where the scales of a Q4_K block stand: those of the first four groups in the low six bits of bytes 0 to 7, scales
   before minima; of the other four the low nibbles in bytes 8 to 11 and the high bits on top of bytes 0 to 7.
   */
  lemma ScalesLayout(ls: seq<bv8>, lm: seq<bv8>, j: nat)
    requires |ls| == |lm| == 8 && Below(ls, 64) && Below(lm, 64) && j < 4
    ensures ScaleBytes(ls, lm, j) & 63 == ls[j] && ScaleBytes(ls, lm, 4 + j) & 63 == lm[j]
    ensures ScaleBytes(ls, lm, j) >> 6 == ls[4 + j] >> 4 && ScaleBytes(ls, lm, 4 + j) >> 6 == lm[4 + j] >> 4
    ensures ScaleBytes(ls, lm, 8 + j) & 15 == ls[4 + j] & 15 && ScaleBytes(ls, lm, 8 + j) >> 4 == lm[4 + j] & 15
  {
    LowBits(ls[j], ls[4 + j]);
    LowBits(lm[j], lm[4 + j]);
    HighBits(ls[4 + j], lm[4 + j]);
    hide LowByte, HighByte;
  }

  lemma LowBits(a: bv8, b: bv8)
    requires a < 64 && b < 64
    ensures LowByte(a, b) & 63 == a && LowByte(a, b) >> 6 == b >> 4
  {
  }

  lemma HighBits(s: bv8, m: bv8)
    ensures HighByte(s, m) & 15 == s & 15 && HighByte(s, m) >> 4 == m & 15
  {
  }

  /** Byte i once the first j scales are packed; the two high bits of the first eight bytes come last. */
  function PartialByte(ls: seq<bv8>, lm: seq<bv8>, j: nat, i: nat): bv8
    requires |ls| == |lm| == 8 && i < 12 && j <= 8
  {
    if i < 4 then if i + 4 < j then LowByte(ls[i], ls[i + 4]) else ls[i]
    else if i < 8 then if i < j then LowByte(lm[i - 4], lm[i]) else lm[i - 4]
    else HighByte(ls[i - 4], lm[i - 4])
  }

  /** Whether byte i has been written by then. */
  predicate Written(j: nat, i: nat) {
    if i < 4 then i < j else i - 4 < j
  }

  /** The scale packing loop of the Q4_K writers. */
  method PackScales(ls: seq<bv8>, lm: seq<bv8>, out: array<bv8>)
    requires |ls| == |lm| == 8 && out.Length == 12
    modifies out
    ensures forall i :: 0 <= i < 12 ==> out[i] == ScaleBytes(ls, lm, i)
  {
    hide LowByte, HighByte;
    var j := 0;
    while j < 8
      invariant 0 <= j <= 8
      invariant forall i :: 0 <= i < 12 && Written(j, i) ==> out[i] == PartialByte(ls, lm, j, i)
    {
      var s, m := ls[j], lm[j];
      if j < 4 {
        out[j] := s;
        out[j + 4] := m;
      } else {
        assert out[j - 4] == ls[j - 4] && out[j] == lm[j - 4] by { assert Written(j, j - 4) && Written(j, j); }
        out[j + 4] := HighByte(s, m);
        out[j - 4] := LowByte(out[j - 4], s);
        out[j] := LowByte(out[j], m);
      }
      j := j + 1;
    }
    assert forall i :: 0 <= i < 12 ==> Written(8, i);
  }
}
