/**
 The eight-at-once FP4 unpacking of the CUDA reader, src/gpu/ds4_cuda_common.h:717-743, on 32-bit words.
 FP4 is E2M1 of the OCP Microscaling Formats v1.0 specification, section 5.3.3.
 */
module Nvfp4Lanes {

  /** nvfp4_e2m1_x2_val: twice the value of a nibble, as an int8. */
  function X2(nib: bv8): bv8 {
    var idx := nib & 7;
    var two := 1 << (idx >> 1);
    var mag := (two + (idx & 1) * (two >> 1)) * (if idx != 0 then 1 else 0);
    if nib & 8 != 0 then 0 - mag else mag
  }

  /** The int8 with these bits. */
  function Signed(b: bv8): (r: int)
    ensures -128 <= r <= 127
  {
    if b < 128 then b as int else b as int - 256
  }

  /** The table of dequant_fp4_weight. */
  function Fp4(nib: bv8): real {
    var idx := nib & 7;
    var v := if idx == 0 then 0.0 else if idx == 1 then 0.5 else if idx == 2 then 1.0 else if idx == 3 then 1.5
             else if idx == 4 then 2.0 else if idx == 5 then 3.0 else if idx == 6 then 4.0 else 6.0;
    if nib & 8 != 0 then -v else v
  }

  /** The reader's doubled value, halved, is the table entry, for all sixteen nibbles. */
  lemma X2IsTwiceFp4(nib: bv8)
    requires nib < 16
    ensures Signed(X2(nib)) as real * 0.5 == Fp4(nib)
  {
    if nib == 0 {} else if nib == 1 {} else if nib == 2 {} else if nib == 3 {}
    else if nib == 4 {} else if nib == 5 {} else if nib == 6 {} else if nib == 7 {}
    else if nib == 8 {} else if nib == 9 {} else if nib == 10 {} else if nib == 11 {}
    else if nib == 12 {} else if nib == 13 {} else if nib == 14 {} else { assert nib == 15; }
  }

  // ---- byte operations on words ---------------------------------------------------------------

  /** The byte of the pair (a, b) that one selector nibble of __byte_perm picks. */
  function PickByte(a: bv32, b: bv32, sel: bv32): bv32 {
    var w := if sel & 4 == 0 then a else b;
    var k := sel & 3;
    var v := (if k == 0 then w else if k == 1 then w >> 8 else if k == 2 then w >> 16 else w >> 24) & 0xff;
    if sel & 8 == 0 then v else if v & 0x80 != 0 then 0xff else 0
  }

  function BytePerm(a: bv32, b: bv32, s: bv32): bv32 {
    PickByte(a, b, s) | (PickByte(a, b, s >> 4) << 8) | (PickByte(a, b, s >> 8) << 16) | (PickByte(a, b, s >> 12) << 24)
  }

  function Sub8(a: bv32, b: bv32): bv32 { ((a & 0xff) - (b & 0xff)) & 0xff }

  function Vsub4(a: bv32, b: bv32): bv32 {
    Sub8(a, b) | (Sub8(a >> 8, b >> 8) << 8) | (Sub8(a >> 16, b >> 16) << 16) | (Sub8(a >> 24, b >> 24) << 24)
  }

  /** One lane: magnitudes by table look-up on half a word, then conditional negation byte by byte. */
  function Lane(packed: bv32, half: bv32, signs: bv32): bv32 {
    var mag := BytePerm(0x03020100, 0x0C080604, half & 0x7777);
    var los := (packed >> 3) & 0x01010101;
    var his := (packed >> 7) & 0x01010101;
    var sm := Vsub4(0, BytePerm(los, his, signs));
    Vsub4(mag ^ sm, sm)
  }

  /** nvfp4_unpack8 */
  function Unpack8(packed: bv32): (bv32, bv32) {
    (Lane(packed, packed, 0x5140), Lane(packed, packed >> 16, 0x7362))
  }

  function WideX2(nib: bv32): bv32 {
    var idx := nib & 7;
    var two := 1 << (idx >> 1);
    var mag := (two + (idx & 1) * (two >> 1)) * (if idx != 0 then 1 else 0);
    if nib & 8 != 0 then (0 - mag) & 0xff else mag
  }

  /** Byte i of a word. */
  function ByteAt(w: bv32, i: nat): bv32
    requires i < 4
  {
    (if i == 0 then w else if i == 1 then w >> 8 else if i == 2 then w >> 16 else w >> 24) & 0xff
  }

  /** Nibble j of a word. */
  function NibbleAt(w: bv32, j: nat): bv32
    requires j < 8
  {
    (if j == 0 then w else if j == 1 then w >> 4 else if j == 2 then w >> 8 else if j == 3 then w >> 12
     else if j == 4 then w >> 16 else if j == 5 then w >> 20 else if j == 6 then w >> 24 else w >> 28) & 15
  }

  lemma BytesOf(w: bv32)
    ensures ByteAt(w, 0) == w & 0xff && ByteAt(w, 1) == (w >> 8) & 0xff
    ensures ByteAt(w, 2) == (w >> 16) & 0xff && ByteAt(w, 3) == (w >> 24) & 0xff
  {
  }

  lemma NibblesOf(w: bv32)
    ensures NibbleAt(w, 0) == w & 15 && NibbleAt(w, 1) == (w >> 4) & 15
    ensures NibbleAt(w, 2) == (w >> 8) & 15 && NibbleAt(w, 3) == (w >> 12) & 15
    ensures NibbleAt(w, 4) == (w >> 16) & 15 && NibbleAt(w, 5) == (w >> 20) & 15
    ensures NibbleAt(w, 6) == (w >> 24) & 15 && NibbleAt(w, 7) == (w >> 28) & 15
  {
  }

  lemma Lane0Low(p: bv32)
    ensures Unpack8(p).0 & 0xff == WideX2(p & 15)
    ensures (Unpack8(p).0 >> 8) & 0xff == WideX2((p >> 4) & 15)
  {
  }

  lemma Lane0High(p: bv32)
    ensures (Unpack8(p).0 >> 16) & 0xff == WideX2((p >> 8) & 15)
    ensures (Unpack8(p).0 >> 24) & 0xff == WideX2((p >> 12) & 15)
  {
  }

  lemma Lane0At(p: bv32, i: nat)
    requires i < 4
    ensures ByteAt(Unpack8(p).0, i) == WideX2(NibbleAt(p, i))
  {
    hide *;
    Lane0Low(p);
    Lane0High(p);
    BytesOf(Unpack8(p).0);
    NibblesOf(p);
    if i == 0 {} else if i == 1 {} else if i == 2 {} else { assert i == 3; }
  }

  lemma Lane1Low(p: bv32)
    ensures Unpack8(p).1 & 0xff == WideX2((p >> 16) & 15)
    ensures (Unpack8(p).1 >> 8) & 0xff == WideX2((p >> 20) & 15)
  {
  }

  lemma Lane1High(p: bv32)
    ensures (Unpack8(p).1 >> 16) & 0xff == WideX2((p >> 24) & 15)
    ensures (Unpack8(p).1 >> 24) & 0xff == WideX2((p >> 28) & 15)
  {
  }

  lemma Lane1At(p: bv32, i: nat)
    requires i < 4
    ensures ByteAt(Unpack8(p).1, i) == WideX2(NibbleAt(p, 4 + i))
  {
    hide *;
    Lane1Low(p);
    Lane1High(p);
    BytesOf(Unpack8(p).1);
    NibblesOf(p);
    if i == 0 {} else if i == 1 {} else if i == 2 {} else { assert i == 3; }
  }

  // ---- bytes of a block --------------------------------------------------------------------------

  /** Four bytes read as a little-endian word. */
  function Word(b: seq<bv8>): bv32
    requires |b| == 4
  {
    (b[0] as bv32) | ((b[1] as bv32) << 8) | ((b[2] as bv32) << 16) | ((b[3] as bv32) << 24)
  }

  /** Byte i of a lane, as the bits of an int8. */
  function LaneByte(lane: bv32, i: nat): bv8
    requires i < 4
  {
    Narrow(ByteAt(lane, i))
  }

  function Narrow(w: bv32): bv8 { (w & 0xff) as bv8 }

  /** Nibble j of packed bytes: low nibbles first. */
  function Nibble(b: seq<bv8>, j: nat): (r: bv8)
    requires j / 2 < |b|
    ensures r < 16
  {
    if j % 2 == 0 then b[j / 2] & 15 else b[j / 2] >> 4
  }

  lemma WideIsNarrow(nib: bv32, n: bv8)
    requires nib == n as bv32 && n < 16
    ensures Narrow(WideX2(nib)) == X2(n)
  {
  }

  lemma WordLow(b: seq<bv8>)
    requires |b| == 4
    ensures Word(b) & 15 == (b[0] & 15) as bv32 && (Word(b) >> 4) & 15 == (b[0] >> 4) as bv32
    ensures (Word(b) >> 8) & 15 == (b[1] & 15) as bv32 && (Word(b) >> 12) & 15 == (b[1] >> 4) as bv32
  {
  }

  lemma WordHigh(b: seq<bv8>)
    requires |b| == 4
    ensures (Word(b) >> 16) & 15 == (b[2] & 15) as bv32 && (Word(b) >> 20) & 15 == (b[2] >> 4) as bv32
    ensures (Word(b) >> 24) & 15 == (b[3] & 15) as bv32 && (Word(b) >> 28) & 15 == (b[3] >> 4) as bv32
  {
  }

  lemma WordNibble(b: seq<bv8>, j: nat)
    requires |b| == 4 && j < 8
    ensures NibbleAt(Word(b), j) == Nibble(b, j) as bv32
  {
    WordLow(b);
    WordHigh(b);
    hide Word;
    if j == 0 {} else if j == 1 {} else if j == 2 {} else if j == 3 {}
    else if j == 4 {} else if j == 5 {} else if j == 6 {} else { assert j == 7; }
  }

  /** Unpacking a word gives the doubled values of its eight nibbles in element order, four to a lane. */
  lemma UnpackIsElementwise(b: seq<bv8>, i: nat)
    requires |b| == 4 && i < 4
    ensures LaneByte(Unpack8(Word(b)).0, i) == X2(Nibble(b, i))
    ensures LaneByte(Unpack8(Word(b)).1, i) == X2(Nibble(b, 4 + i))
  {
    hide Unpack8, WideX2, X2, Word, NibbleAt, ByteAt, Nibble, Narrow;
    var w := Word(b);
    Lane0At(w, i);
    Lane1At(w, i);
    WordNibble(b, i);
    WordNibble(b, 4 + i);
    WideIsNarrow(NibbleAt(w, i), Nibble(b, i));
    WideIsNarrow(NibbleAt(w, 4 + i), Nibble(b, 4 + i));
  }
}
