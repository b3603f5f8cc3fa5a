/**
 Repacking MXFP4 experts as NVFP4 blocks (gguf-tools/deepseek4-quantize.c:1647-1655, 1691-1807) and reading them
 back (src/gpu/ds4_cuda_common.h:745-776). E8M0 scales follow section 5.4.1 of the OCP Microscaling Formats v1.0
 specification. Products and sums are over reals.
 */
module Nvfp4 {
  import opened Binary32
  import opened ByteEncoding
  import opened Nvfp4Lanes
  import E4m3

  const QK: nat := 256
  const BLOCK_BYTES: nat := 144
  const NIBBLE_BYTES: nat := 128

  /** A two-dimensional tensor of bytes, row after row. */
  datatype Tensor = Tensor(rows: nat, cols: nat, data: seq<bv8>) {
    predicate Sized() { |data| == rows * cols }
  }

  // ---- scales ---------------------------------------------------------------------------------

  /** The exponent of an E8M0 scale byte. */
  function Exponent(b: bv8): (k: int)
    ensures -127 <= k <= 128
  {
    b as int - 127
  }

  /** e8m0_to_f32 for the bytes with a finite value. */
  function E8m0(b: bv8): real
    requires b != 255
  {
    FloatValue(if b == 0 then 0x40_0000 else b as nat * MANTISSA)
  }

  lemma E8m0Value(b: bv8)
    requires b != 255
    ensures E8m0(b) == Exp2(Exponent(b))
  {
    hide Exp2;
    Exp2Constants();
    if b == 0 {
      Exp2Sum(-149, 22);
      Exp2Step(22);
      assert Biased(0x40_0000) == 0 && Fraction(0x40_0000) == 0x40_0000;
    } else {
      var e := b as nat;
      assert 0 < e < 255 by { ByteNat(b); }
      assert Biased(e * MANTISSA) == e && Fraction(e * MANTISSA) == 0;
      Exp2Sum(e - 150, 23);
    }
  }

  lemma ByteNat(b: bv8)
    ensures b != 0 ==> b as nat > 0
    ensures b != 255 ==> b as nat < 255
  {
  }

  /** The largest exponent of the first n scales, counting none below zero. */
  function Kmax(s: seq<bv8>, n: nat): (k: int)
    requires n <= |s|
    ensures 0 <= k <= 128
    ensures forall i :: 0 <= i < n ==> Exponent(s[i]) <= k
    ensures k == 0 || exists i :: 0 <= i < n && Exponent(s[i]) == k
  {
    if n == 0 then 0 else
    var k := Kmax(s, n - 1);
    if s[n - 1] != 0 && Exponent(s[n - 1]) > k then Exponent(s[n - 1]) else
    assert s[n - 1] == 0 ==> Exponent(s[n - 1]) <= k;
    k
  }

  /** nvfp4_kmax_from_e8m0 */
  method KmaxFromE8m0(s: seq<bv8>, n: nat) returns (kMax: int)
    requires n <= |s|
    ensures kMax == Kmax(s, n)
  {
    kMax := 0;
    for i := 0 to n
      invariant kMax == Kmax(s, i)
    {
      var k := Exponent(s[i]);
      if s[i] != 0 && k > kMax { kMax := k; }
    }
  }

  /** The scale byte stored for a source scale of exponent k. */
  function ScaleCode(k: int, kMax: int): (c: nat)
    requires k <= kMax
    ensures c <= E4m3.TOP
  {
    var bits := PowerBits(k - (kMax - 8));
    E4m3.EncoderMonotone(bits, bits);
    E4m3.Encode(false, bits)
  }

  /** The per-expert factor. */
  function Scale2(kMax: int): real { Exp2(kMax - 8) }

  lemma PowerCode(e: int)
    requires -9 <= e <= 8
    ensures E4m3.Encode(false, PowerBits(e)) <= E4m3.TOP
    ensures E4m3.Value(E4m3.Encode(false, PowerBits(e))) == Exp2(e)
  {
    PowerBitsValue(e);
    var bits := PowerBits(e);
    assert bits > 0;
    var c: nat := if e >= -6 then 8 * (e + 7) else if e == -9 then 1 else if e == -8 then 2 else 4;
    PowerValue(e, c);
    hide Exp2, PowerBits, FloatValue, E4m3.Value, E4m3.Code7;
    E4m3.EncodeDecoded(bits, c);
  }

  lemma PowerValue(e: int, c: nat)
    requires -9 <= e <= 8
    requires c == if e >= -6 then 8 * (e + 7) else if e == -9 then 1 else if e == -8 then 2 else 4
    ensures E4m3.Value(c) == Exp2(e)
  {
    hide Exp2;
    if e >= -6 {
      assert c / 8 == e + 7 && c % 8 == 0;
      Exp2Sum(e - 3, 3);
      Exp2Constants();
    } else {
      Exp2Step(-9);
      Exp2Step(-8);
    }
  }

  lemma TinyPowerCode(e: int)
    requires e < -9
    ensures E4m3.Encode(false, PowerBits(e)) == 0
  {
    if PowerBits(e) != 0 {
      assert Biased(PowerBits(e)) < 118;
    }
  }

  /** The scale the reader applies to a nibble. */
  function BlockScale(code: nat, scale2: real): real
    requires code <= E4m3.TOP
  {
    E4m3.DeviceValue(code) * scale2
  }

  lemma BlockScaleIs(code: nat, v: real, scale2: real)
    requires code <= E4m3.TOP && E4m3.Value(code) == v
    ensures BlockScale(code, scale2) == v * scale2
  {
    hide E4m3.DeviceValue, E4m3.OfflineValue, E4m3.RuntimeValue, E4m3.Value;
    assert code % 128 == code;
    E4m3.DecodersAgree(code);
  }

  /** A stored scale times scale_2 is the source scale within 17 octaves of the maximum, and zero beyond. */
  lemma ScaleCodeValue(k: int, kMax: int)
    requires k <= kMax
    ensures BlockScale(ScaleCode(k, kMax), Scale2(kMax)) == if kMax - k <= 17 then Exp2(k) else 0.0
  {
    hide Exp2, E4m3.Value, PowerBits, E4m3.Encode, BlockScale;
    var e := k - (kMax - 8);
    if e >= -9 {
      PowerCode(e);
      Exp2Sum(e, kMax - 8);
      BlockScaleIs(ScaleCode(k, kMax), Exp2(e), Scale2(kMax));
    } else {
      TinyPowerCode(e);
      ZeroCode();
      BlockScaleIs(ScaleCode(k, kMax), 0.0, Scale2(kMax));
    }
  }

  lemma ZeroCode()
    ensures E4m3.Value(0) == 0.0
  {
  }

  // ---- one weight ----------------------------------------------------------------------------------

  /** dequant_fp4_weight: the weight of a nibble under its scale byte. */
  function SourceWeight(nib: bv8, scale: bv8): real
    requires scale != 255
  {
    Fp4(nib) * E8m0(scale)
  }

  /** The weight the reader sees: nibble times block scale times scale_2. */
  function ReadWeight(nib: bv8, code: nat, scale2: real): real
    requires code <= E4m3.TOP
  {
    Fp4(nib) * BlockScale(code, scale2)
  }

  /** The repack loses nothing exactly when the nibble is a zero or its scale is within 17 octaves of kMax. */
  lemma RepackedWeight(nib: bv8, scale: bv8, kMax: int)
    requires scale != 255 && Exponent(scale) <= kMax
    ensures ReadWeight(nib, ScaleCode(Exponent(scale), kMax), Scale2(kMax)) == SourceWeight(nib, scale)
        <==> Fp4(nib) == 0.0 || kMax - Exponent(scale) <= 17
  {
    hide Exp2, BlockScale, ScaleCode, Scale2, E8m0, Fp4, Exponent;
    ScaleCodeValue(Exponent(scale), kMax);
    E8m0Value(scale);
    var p := Exp2(Exponent(scale));
    SameProduct(Fp4(nib), BlockScale(ScaleCode(Exponent(scale), kMax), Scale2(kMax)), p, kMax - Exponent(scale) <= 17);
  }

  lemma SameProduct(a: real, r: real, p: real, near: bool)
    requires p > 0.0 && r == if near then p else 0.0
    ensures a * r == a * p <==> a == 0.0 || near
  {
    if !near {
      assert a * r == 0.0;
      if a > 0.0 { PositiveProduct(a, p); }
      if a < 0.0 { PositiveProduct(-a, p); }
    }
  }

  lemma PositiveProduct(a: real, p: real)
    requires a > 0.0 && p > 0.0
    ensures a * p > 0.0
    ensures -a * p < 0.0
  {
  }
}
