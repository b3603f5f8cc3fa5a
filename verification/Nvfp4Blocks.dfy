/**
 The byte layout of NVFP4 experts: the writer of gguf-tools/deepseek4-quantize.c:1691-1759 and the block dot
 product of src/gpu/ds4_cuda_common.h:756-776. A block is 128 packed nibble bytes followed by its own 16 scales.
 */
module Nvfp4Blocks {
  import opened ByteEncoding
  import opened Nvfp4Lanes
  import opened Nvfp4
  import E4m3

  /** Row r of a tensor. */
  function Slab(t: Tensor, r: nat): (row: seq<bv8>)
    requires t.Sized() && r < t.rows
    ensures |row| == t.cols
  {
    RowInside(r, t.rows, t.cols);
    t.data[r * t.cols..(r + 1) * t.cols]
  }

  lemma RowInside(r: nat, rows: nat, cols: nat)
    requires r < rows
    ensures r * cols <= (r + 1) * cols <= rows * cols && (r + 1) * cols == r * cols + cols
  {
    NonNegative(rows - r - 1, cols);
    assert rows * cols == (r + 1) * cols + (rows - r - 1) * cols;
  }

  lemma NonNegative(a: nat, b: nat)
    ensures a * b >= 0
  {
  }

  ghost predicate Covers(kMax: int, scales: seq<bv8>) {
    forall i :: 0 <= i < |scales| ==> Exponent(scales[i]) <= kMax
  }

  /** The stored byte for the scale of exponent k. */
  function ScaleByte(scale: bv8, kMax: int): bv8
    requires Exponent(scale) <= kMax
  {
    ScaleCode(Exponent(scale), kMax) as bv8
  }

  lemma ScaleByteIs(scale: bv8, kMax: int)
    requires Exponent(scale) <= kMax
    ensures ScaleByte(scale, kMax) as nat == ScaleCode(Exponent(scale), kMax)
  {
    ByteRoundTrip(ScaleCode(Exponent(scale), kMax));
  }

  lemma ByteRoundTrip(n: nat)
    requires n < 256
    ensures (n as bv8) as nat == n
  {
    var m: int := n;
    assert m % 256 == m;
  }

  /** The sixteen scale bytes of a block, each source scale twice. */
  function ScaleBytes(scales: seq<bv8>, blk: nat, kMax: int): (b: seq<bv8>)
    requires (blk + 1) * 8 <= |scales| && Covers(kMax, scales)
    ensures |b| == 16 && forall i :: 0 <= i < 16 ==> b[i] == ScaleByte(scales[blk * 8 + i / 2], kMax)
  {
    seq(16, i requires 0 <= i < 16 => ScaleByte(scales[blk * 8 + i / 2], kMax))
  }

  /** The 144 bytes of one block of a row. */
  function BlockBytes(nibbles: seq<bv8>, scales: seq<bv8>, blk: nat, kMax: int): (b: seq<bv8>)
    requires (blk + 1) * 8 <= |scales| && |nibbles| == 16 * |scales| && Covers(kMax, scales)
    ensures |b| == BLOCK_BYTES
  {
    nibbles[blk * NIBBLE_BYTES..(blk + 1) * NIBBLE_BYTES] + ScaleBytes(scales, blk, kMax)
  }

  /** The first n blocks of a row. */
  function RowBytes(nibbles: seq<bv8>, scales: seq<bv8>, n: nat, kMax: int): (b: seq<bv8>)
    requires n * 8 <= |scales| && |nibbles| == 16 * |scales| && Covers(kMax, scales)
    ensures |b| == n * BLOCK_BYTES
  {
    if n == 0 then [] else RowBytes(nibbles, scales, n - 1, kMax) + BlockBytes(nibbles, scales, n - 1, kMax)
  }

  ghost predicate Expert(w: Tensor, s: Tensor, kMax: int) {
    w.Sized() && s.Sized() && w.rows == s.rows && w.cols == 16 * s.cols && Covers(kMax, s.data)
  }

  lemma CoversRow(w: Tensor, s: Tensor, kMax: int, r: nat)
    requires Expert(w, s, kMax) && r < s.rows
    ensures Covers(kMax, Slab(s, r))
  {
    RowInside(r, s.rows, s.cols);
  }

  function Blocks(s: Tensor): nat { s.cols / 8 }

  /** The first n rows. */
  ghost function AllBytes(w: Tensor, s: Tensor, kMax: int, n: nat): (b: seq<bv8>)
    requires Expert(w, s, kMax) && n <= w.rows
    ensures |b| == n * (Blocks(s) * BLOCK_BYTES)
  {
    if n == 0 then [] else
    CoversRow(w, s, kMax, n - 1);
    AllBytes(w, s, kMax, n - 1) + RowBytes(Slab(w, n - 1), Slab(s, n - 1), Blocks(s), kMax)
  }

  lemma AllBytesStep(w: Tensor, s: Tensor, kMax: int, n: nat)
    requires Expert(w, s, kMax) && n < w.rows
    ensures Covers(kMax, Slab(s, n))
    ensures AllBytes(w, s, kMax, n + 1)
         == AllBytes(w, s, kMax, n) + RowBytes(Slab(w, n), Slab(s, n), Blocks(s), kMax)
  {
    CoversRow(w, s, kMax, n);
    hide RowBytes, Slab, Covers, Blocks;
  }

  // ---- where a block is ------------------------------------------------------------------------------

  lemma {:induction false} BlockInRow(nibbles: seq<bv8>, scales: seq<bv8>, n: nat, kMax: int, blk: nat)
    requires n * 8 <= |scales| && |nibbles| == 16 * |scales| && Covers(kMax, scales) && blk < n
    ensures RowBytes(nibbles, scales, n, kMax)[blk * BLOCK_BYTES..(blk + 1) * BLOCK_BYTES]
         == BlockBytes(nibbles, scales, blk, kMax)
  {
    hide BlockBytes;
    var before := RowBytes(nibbles, scales, n - 1, kMax);
    if blk < n - 1 {
      BlockInRow(nibbles, scales, n - 1, kMax, blk);
      SliceOfPrefix(before, BlockBytes(nibbles, scales, n - 1, kMax), blk * BLOCK_BYTES, (blk + 1) * BLOCK_BYTES);
    }
  }

  lemma SliceOfPrefix<T>(a: seq<T>, b: seq<T>, i: nat, j: nat)
    requires i <= j <= |a|
    ensures (a + b)[i..j] == a[i..j]
  {
  }

  lemma {:induction false} RowInAll(w: Tensor, s: Tensor, kMax: int, n: nat, r: nat)
    requires Expert(w, s, kMax) && r < n <= w.rows
    ensures Covers(kMax, Slab(s, r))
    ensures r * (Blocks(s) * BLOCK_BYTES) <= (r + 1) * (Blocks(s) * BLOCK_BYTES) <= n * (Blocks(s) * BLOCK_BYTES)
    ensures AllBytes(w, s, kMax, n)[r * (Blocks(s) * BLOCK_BYTES)..(r + 1) * (Blocks(s) * BLOCK_BYTES)]
         == RowBytes(Slab(w, r), Slab(s, r), Blocks(s), kMax)
    decreases n
  {
    CoversRow(w, s, kMax, r);
    AllBytesStep(w, s, kMax, n - 1);
    hide *;
    var before, last := AllBytes(w, s, kMax, n - 1), RowBytes(Slab(w, n - 1), Slab(s, n - 1), Blocks(s), kMax);
    RowInSum(before, last, Blocks(s) * BLOCK_BYTES, r, n);
    if r < n - 1 {
      RowInAll(w, s, kMax, n - 1, r);
    }
  }

  lemma RowInSum<T>(before: seq<T>, last: seq<T>, size: nat, r: nat, n: nat)
    requires r < n && |before| == (n - 1) * size && |last| == size
    ensures r * size <= (r + 1) * size <= n * size == |before + last|
    ensures r == n - 1 ==> (before + last)[r * size..(r + 1) * size] == last
    ensures r < n - 1 ==> (r + 1) * size <= |before|
    ensures r < n - 1 ==> (before + last)[r * size..(r + 1) * size] == before[r * size..(r + 1) * size]
  {
    RowInside(r, n, size);
    RowInside(n - 1, n, size);
    if r < n - 1 {
      RowInside(r, n - 1, size);
      SliceOfPrefix(before, last, r * size, (r + 1) * size);
    } else {
      SliceOfTail(before, last, r * size, (r + 1) * size);
    }
  }

  lemma SliceOfTail<T>(a: seq<T>, b: seq<T>, i: nat, j: nat)
    requires |a| == i && j == i + |b|
    ensures (a + b)[i..j] == b
  {
  }

  lemma SliceOfSlice<T>(a: seq<T>, i: nat, j: nat, k: nat, l: nat)
    requires i <= j <= |a| && k <= l <= j - i
    ensures i + l <= |a| && a[i..j][k..l] == a[i + k..i + l]
  {
    assert forall x :: 0 <= x < l - k ==> a[i..j][k..l][x] == a[i..j][k + x] == a[i + k + x];
  }

  /** Where block blk of row r starts. */
  function Offset(s: Tensor, r: nat, blk: nat): nat {
    r * (Blocks(s) * BLOCK_BYTES) + blk * BLOCK_BYTES
  }

  /** The bytes of the output tensor at block blk of row r. */
  ghost function BlockAt(w: Tensor, s: Tensor, kMax: int, r: nat, blk: nat): (b: seq<bv8>)
    requires Expert(w, s, kMax) && r < w.rows && blk < Blocks(s)
    ensures |b| == BLOCK_BYTES
  {
    OffsetInside(w, s, r, blk);
    AllBytes(w, s, kMax, w.rows)[Offset(s, r, blk)..Offset(s, r, blk) + BLOCK_BYTES]
  }

  lemma OffsetInside(w: Tensor, s: Tensor, r: nat, blk: nat)
    requires r < w.rows && blk < Blocks(s)
    ensures Offset(s, r, blk) + BLOCK_BYTES <= w.rows * (Blocks(s) * BLOCK_BYTES)
  {
    RowInside(r, w.rows, Blocks(s) * BLOCK_BYTES);
  }

  lemma BlockPlace(w: Tensor, s: Tensor, kMax: int, r: nat, blk: nat)
    requires Expert(w, s, kMax) && r < w.rows && blk < Blocks(s)
    ensures Covers(kMax, Slab(s, r))
    ensures BlockAt(w, s, kMax, r, blk) == BlockBytes(Slab(w, r), Slab(s, r), blk, kMax)
  {
    var size := Blocks(s) * BLOCK_BYTES;
    RowInAll(w, s, kMax, w.rows, r);
    BlockInRow(Slab(w, r), Slab(s, r), Blocks(s), kMax, blk);
    RowInside(r, w.rows, size);
    var at := r * size + blk * BLOCK_BYTES;
    assert at + BLOCK_BYTES <= |AllBytes(w, s, kMax, w.rows)| by { OffsetInside(w, s, r, blk); }
    assert BlockAt(w, s, kMax, r, blk) == AllBytes(w, s, kMax, w.rows)[at..at + BLOCK_BYTES];
    assert (blk + 1) * BLOCK_BYTES == blk * BLOCK_BYTES + BLOCK_BYTES;
    assert 0 <= blk * BLOCK_BYTES && (blk + 1) * BLOCK_BYTES <= size;
    hide *;
    SliceOfSlice(AllBytes(w, s, kMax, w.rows), r * size, (r + 1) * size, blk * BLOCK_BYTES, (blk + 1) * BLOCK_BYTES);
  }

  // ---- lossless ------------------------------------------------------------------------------------------

  /** The weight the reader decodes for element j of a block. */
  function BlockWeight(block: seq<bv8>, scale2: real, j: nat): real
    requires |block| == BLOCK_BYTES && j < QK && block[NIBBLE_BYTES + j / 16] as nat <= E4m3.TOP
  {
    ReadWeight(Nibble(block, j), block[NIBBLE_BYTES + j / 16] as nat, scale2)
  }

  lemma BlockElement(nibbles: seq<bv8>, scales: seq<bv8>, blk: nat, kMax: int, j: nat)
    requires (blk + 1) * 8 <= |scales| && |nibbles| == 16 * |scales| && Covers(kMax, scales) && j < QK
    ensures var b := BlockBytes(nibbles, scales, blk, kMax);
      var c := blk * QK + j;
      && c / 2 < |nibbles| && c / 32 < |scales|
      && Nibble(b, j) == Nibble(nibbles, c)
      && b[NIBBLE_BYTES + j / 16] == ScaleByte(scales[c / 32], kMax)
      && b[NIBBLE_BYTES + j / 16] as nat == ScaleCode(Exponent(scales[c / 32]), kMax)
  {
    ScaleByteIs(scales[(blk * QK + j) / 32], kMax);
    hide ScaleByte, ScaleCode;
    var c := blk * QK + j;
    var b := BlockBytes(nibbles, scales, blk, kMax);
    assert c / 2 == blk * NIBBLE_BYTES + j / 2 && c % 2 == j % 2;
    assert b[j / 2] == nibbles[c / 2];
    assert c / 32 == blk * 8 + j / 32 && j / 16 / 2 == j / 32;
  }

  /**
   A weight read from the repacked expert equals the source weight exactly when its nibble is a zero or the exponent
   of its scale is within 17 of the largest, for every element of every block of every row.
   */
  lemma RepackLossless(w: Tensor, s: Tensor, r: nat, blk: nat, j: nat)
    requires w.Sized() && s.Sized() && w.rows == s.rows && w.cols == 16 * s.cols
    requires r < w.rows && blk < Blocks(s) && j < QK
    requires Slab(s, r)[(blk * QK + j) / 32] != 255
    ensures Expert(w, s, Kmax(s.data, |s.data|))
    ensures BlockAt(w, s, Kmax(s.data, |s.data|), r, blk)[NIBBLE_BYTES + j / 16] as nat <= E4m3.TOP
    ensures
      var kMax := Kmax(s.data, |s.data|);
      var nib, scale := Nibble(Slab(w, r), blk * QK + j), Slab(s, r)[(blk * QK + j) / 32];
      (BlockWeight(BlockAt(w, s, kMax, r, blk), Scale2(kMax), j) == SourceWeight(nib, scale)
       <==> Fp4(nib) == 0.0 || kMax - Exponent(scale) <= 17)
  {
    var kMax := Kmax(s.data, |s.data|);
    var c := blk * QK + j;
    BlockPlace(w, s, kMax, r, blk);
    BlockElement(Slab(w, r), Slab(s, r), blk, kMax, j);
    hide Slab, BlockAt, BlockBytes, ScaleCode, Nibble, Kmax, ReadWeight, SourceWeight, Exponent, Scale2, Fp4;
    RepackedWeight(Nibble(Slab(w, r), c), Slab(s, r)[c / 32], kMax);
  }

  /** Every column lies in a block exactly when the number of columns is a multiple of 256. */
  lemma AllColumnsCovered(s: Tensor)
    ensures (forall c: nat :: c < 32 * s.cols ==> c / QK < Blocks(s)) <==> 32 * s.cols % QK == 0
  {
    if 32 * s.cols % QK != 0 {
      var c := 32 * s.cols - 1;
      assert c / QK >= Blocks(s);
    }
  }

  // ---- the writer ------------------------------------------------------------------------------------------

  /** Writes the sixteen scales of a block at offset at. */
  method WriteScales(out: array<bv8>, at: nat, scales: seq<bv8>, blk: nat, kMax: int)
    requires at + 16 <= out.Length && (blk + 1) * 8 <= |scales| && Covers(kMax, scales)
    modifies out
    ensures out[..at] == old(out[..at])
    ensures out[at..at + 16] == ScaleBytes(scales, blk, kMax)
  {
    hide ScaleByte;
    ghost var bytes := ScaleBytes(scales, blk, kMax);
    var sb := 0;
    while sb < 8
      invariant 0 <= sb <= 8
      invariant forall i :: 0 <= i < at ==> out[i] == old(out[i])
      invariant forall t :: 0 <= t < 2 * sb ==> out[at + t] == bytes[t]
    {
      var code := ScaleByte(scales[blk * 8 + sb], kMax);
      assert bytes[2 * sb] == code && bytes[2 * sb + 1] == code;
      out[at + 2 * sb] := code;
      out[at + 2 * sb + 1] := code;
      sb := sb + 1;
    }
  }

  /** Writes block blk of a row at offset base. */
  method WriteBlock(out: array<bv8>, base: nat, nibbles: seq<bv8>, scales: seq<bv8>, blk: nat, kMax: int)
    requires base + BLOCK_BYTES <= out.Length
    requires (blk + 1) * 8 <= |scales| && |nibbles| == 16 * |scales| && Covers(kMax, scales)
    modifies out
    ensures out[..base] == old(out[..base])
    ensures out[base..base + BLOCK_BYTES] == BlockBytes(nibbles, scales, blk, kMax)
  {
    hide ScaleBytes;
    var i := 0;
    while i < NIBBLE_BYTES
      invariant 0 <= i <= NIBBLE_BYTES
      invariant out[..base] == old(out[..base])
      invariant out[base..base + i] == nibbles[blk * NIBBLE_BYTES..blk * NIBBLE_BYTES + i]
    {
      out[base + i] := nibbles[blk * NIBBLE_BYTES + i];
      i := i + 1;
    }
    ghost var done := out[..base + NIBBLE_BYTES];
    WriteScales(out, base + NIBBLE_BYTES, scales, blk, kMax);
    assert out[..base + NIBBLE_BYTES] == done;
    assert out[..base] == done[..base] && out[base..base + NIBBLE_BYTES] == done[base..];
    assert out[base..base + BLOCK_BYTES]
        == out[base..base + NIBBLE_BYTES] + out[base + NIBBLE_BYTES..base + NIBBLE_BYTES + 16];
  }

  /** Writes one row of blocks behind the bytes before it. */
  method WriteRow(out: array<bv8>, base: nat, nibbles: seq<bv8>, scales: seq<bv8>, kMax: int)
    requires base + |scales| / 8 * BLOCK_BYTES <= out.Length && |nibbles| == 16 * |scales| && Covers(kMax, scales)
    modifies out
    ensures out[..base] == old(out[..base])
    ensures out[base..base + |scales| / 8 * BLOCK_BYTES] == RowBytes(nibbles, scales, |scales| / 8, kMax)
  {
    hide BlockBytes;
    ghost var before := out[..];
    var blocks := |scales| / 8;
    var blk := 0;
    while blk < blocks
      invariant 0 <= blk <= blocks
      invariant out[..base] == before[..base]
      invariant out[base..base + blk * BLOCK_BYTES] == RowBytes(nibbles, scales, blk, kMax)
    {
      var at := base + blk * BLOCK_BYTES;
      ghost var current := out[..at];
      WriteBlock(out, at, nibbles, scales, blk, kMax);
      assert out[..at] == current;
      assert out[..base] == out[..at][..base];
      assert out[base..at] == out[..at][base..];
      assert out[base..at + BLOCK_BYTES] == out[base..at] + out[at..at + BLOCK_BYTES];
      blk := blk + 1;
    }
  }

  /** generate_nvfp4_expert: the bytes, or nothing when a shape check fails. */
  method GenerateExpert(w: Tensor, s: Tensor, nrows: nat, ncols: nat) returns (result: Option<array<bv8>>)
    requires w.Sized() && s.Sized()
    ensures result.Some? <==> w.rows == nrows && s.rows == nrows && w.cols * 2 == ncols && s.cols * 32 == ncols
    ensures result.Some? ==> Expert(w, s, Kmax(s.data, |s.data|))
    ensures result.Some? ==> fresh(result.value) && result.value[..] == AllBytes(w, s, Kmax(s.data, |s.data|), w.rows)
  {
    if nrows != w.rows || nrows != s.rows || w.cols * 2 != ncols || s.cols * 32 != ncols { return None; }
    hide Kmax, RowBytes, Slab, Exponent, Covers, AllBytes;
    var blocks := ncols / QK;
    var rowBytes := blocks * BLOCK_BYTES;
    assert blocks == Blocks(s);
    var out := new bv8[nrows * rowBytes](_ => 0);
    var kMax := KmaxFromE8m0(s.data, |s.data|);
    var row := 0;
    while row < nrows
      invariant 0 <= row <= nrows && row * rowBytes <= out.Length
      invariant out[..row * rowBytes] == AllBytes(w, s, kMax, row)
    {
      ghost var done := out[..row * rowBytes];
      AllBytesStep(w, s, kMax, row);
      RowInside(row, nrows, rowBytes);
      WriteRow(out, row * rowBytes, Slab(w, row), Slab(s, row), kMax);
      assert out[..(row + 1) * rowBytes] == out[..row * rowBytes] + out[row * rowBytes..row * rowBytes + rowBytes];
      row := row + 1;
    }
    assert out[..] == out[..row * rowBytes];
    return Some(out);
  }

  /** The part of generate_nvfp4_scale2 for one kept expert. */
  method ExpertScale2(s: Tensor) returns (scale2: real)
    requires s.Sized()
    ensures scale2 == Scale2(Kmax(s.data, |s.data|))
  {
    hide Kmax;
    var kMax := KmaxFromE8m0(s.data, s.rows * s.cols);
    scale2 := Scale2(kMax);
  }

  // ---- the reader ------------------------------------------------------------------------------------------

  /** The product of element j of a block with its activation. */
  ghost function ElementTerm(block: seq<bv8>, q8: seq<int>, scale2: real, yd: real, j: nat): real
    requires Readable(block) && |q8| == QK && j < QK
  {
    BlockWeight(block, scale2, j) * (yd * q8[j] as real)
  }

  /** The sum of the first n products of a block with quantised activations. */
  ghost function Dot(block: seq<bv8>, q8: seq<int>, scale2: real, yd: real, n: nat): real
    requires Readable(block) && |q8| == QK && n <= QK
  {
    if n == 0 then 0.0 else Dot(block, q8, scale2, yd, n - 1) + ElementTerm(block, q8, scale2, yd, n - 1)
  }

  /** __dp4a on a lane and four int8 values. */
  function Dp4a(lane: bv32, q: seq<int>, acc: int): int
    requires |q| == 4
  {
    acc + Signed(LaneByte(lane, 0)) * q[0] + Signed(LaneByte(lane, 1)) * q[1]
        + Signed(LaneByte(lane, 2)) * q[2] + Signed(LaneByte(lane, 3)) * q[3]
  }

  /** The doubled value of element j. */
  function Doubled(block: seq<bv8>, j: nat): int
    requires |block| == BLOCK_BYTES && j < QK
  {
    Signed(X2(Nibble(block, j)))
  }

  /** The products of four neighbouring elements. */
  function Four(block: seq<bv8>, q8: seq<int>, j: nat): int
    requires |block| == BLOCK_BYTES && |q8| == QK && j + 4 <= QK
  {
    Doubled(block, j) * q8[j] + Doubled(block, j + 1) * q8[j + 1]
    + Doubled(block, j + 2) * q8[j + 2] + Doubled(block, j + 3) * q8[j + 3]
  }

  lemma WordElements(block: seq<bv8>, j: nat, i: nat)
    requires |block| == BLOCK_BYTES && j + 8 <= QK && j % 8 == 0 && i < 8
    ensures Nibble(block[j / 2..j / 2 + 4], i) == Nibble(block, j + i)
  {
    assert (j + i) / 2 == j / 2 + i / 2 && (j + i) % 2 == i % 2;
  }

  /** One unpacked word against eight activations: two groups of four elements. */
  lemma LanesAreElements(block: seq<bv8>, q8: seq<int>, j: nat, acc: int)
    requires |block| == BLOCK_BYTES && |q8| == QK && j + 8 <= QK && j % 8 == 0
    ensures var lanes := Unpack8(Word(block[j / 2..j / 2 + 4]));
      && Dp4a(lanes.0, q8[j..j + 4], acc) == acc + Four(block, q8, j)
      && Dp4a(lanes.1, q8[j + 4..j + 8], acc) == acc + Four(block, q8, j + 4)
  {
    hide Unpack8, LaneByte, X2, Word, Nibble, Signed;
    var b := block[j / 2..j / 2 + 4];
    UnpackIsElementwise(b, 0);
    UnpackIsElementwise(b, 1);
    UnpackIsElementwise(b, 2);
    UnpackIsElementwise(b, 3);
    WordElements(block, j, 0);
    WordElements(block, j, 1);
    WordElements(block, j, 2);
    WordElements(block, j, 3);
    WordElements(block, j, 4);
    WordElements(block, j, 5);
    WordElements(block, j, 6);
    WordElements(block, j, 7);
  }

  ghost predicate Readable(block: seq<bv8>) {
    |block| == BLOCK_BYTES && forall b :: NIBBLE_BYTES <= b < BLOCK_BYTES ==> block[b] as nat <= E4m3.TOP
  }

  /** The value the reader takes for scale b. */
  ghost function SubScale(block: seq<bv8>, b: nat): real
    requires Readable(block) && b < 16
  {
    E4m3.DeviceValue(block[NIBBLE_BYTES + b] as nat)
  }

  /** What an integer sum contributes under a block scale. */
  function Contribution(scale2: real, yd: real, s: real, sumi: int): real {
    yd * scale2 * 0.5 * (s * sumi as real)
  }

  lemma ContributionAdds(scale2: real, yd: real, s: real, a: int, b: int)
    ensures Contribution(scale2, yd, s, a + b) == Contribution(scale2, yd, s, a) + Contribution(scale2, yd, s, b)
  {
    var c := yd * scale2 * 0.5;
    assert s * (a + b) as real == s * a as real + s * b as real;
    assert c * (s * a as real + s * b as real) == c * (s * a as real) + c * (s * b as real);
  }

  lemma WeightTerm(x2: int, fp4: real, s: real, scale2: real, yd: real, q: int)
    requires x2 as real * 0.5 == fp4
    ensures fp4 * (s * scale2) * (yd * q as real) == Contribution(scale2, yd, s, x2 * q)
  {
    assert (x2 * q) as real == x2 as real * q as real;
  }

  lemma ElementTermIs(block: seq<bv8>, q8: seq<int>, scale2: real, yd: real, n: nat)
    requires Readable(block) && |q8| == QK && n < QK
    ensures ElementTerm(block, q8, scale2, yd, n)
         == Contribution(scale2, yd, SubScale(block, n / 16), Doubled(block, n) * q8[n])
  {
    hide Fp4, X2, Signed, Nibble, E4m3.DeviceValue, Contribution;
    X2IsTwiceFp4(Nibble(block, n));
    WeightTerm(Doubled(block, n), Fp4(Nibble(block, n)), SubScale(block, n / 16), scale2, yd, q8[n]);
  }

  lemma DotFour(block: seq<bv8>, q8: seq<int>, scale2: real, yd: real, n: nat, b: nat)
    requires Readable(block) && |q8| == QK && 16 * b <= n && n + 4 <= 16 * b + 16 && b < 16
    ensures Dot(block, q8, scale2, yd, n + 4)
         == Dot(block, q8, scale2, yd, n) + Contribution(scale2, yd, SubScale(block, b), Four(block, q8, n))
  {
    hide Contribution, ElementTerm, SubScale, Doubled;
    var s := SubScale(block, b);
    var t0, t1 := Doubled(block, n) * q8[n], Doubled(block, n + 1) * q8[n + 1];
    var t2, t3 := Doubled(block, n + 2) * q8[n + 2], Doubled(block, n + 3) * q8[n + 3];
    DotOne(block, q8, scale2, yd, n, b);
    DotOne(block, q8, scale2, yd, n + 1, b);
    DotOne(block, q8, scale2, yd, n + 2, b);
    DotOne(block, q8, scale2, yd, n + 3, b);
    ContributionAdds(scale2, yd, s, t0, t1);
    ContributionAdds(scale2, yd, s, t0 + t1, t2);
    ContributionAdds(scale2, yd, s, t0 + t1 + t2, t3);
  }

  lemma DotOne(block: seq<bv8>, q8: seq<int>, scale2: real, yd: real, n: nat, b: nat)
    requires Readable(block) && |q8| == QK && 16 * b <= n < 16 * b + 16 && b < 16
    ensures Dot(block, q8, scale2, yd, n + 1)
         == Dot(block, q8, scale2, yd, n) + Contribution(scale2, yd, SubScale(block, b), Doubled(block, n) * q8[n])
  {
    hide Contribution, ElementTerm, SubScale, Doubled;
    assert n / 16 == b;
    ElementTermIs(block, q8, scale2, yd, n);
  }

  lemma Accumulated(scale2: real, yd: real, s: real, sumi: int, acc: real, acc': real)
    requires acc' == s * sumi as real + acc
    ensures yd * scale2 * 0.5 * acc' == yd * scale2 * 0.5 * acc + Contribution(scale2, yd, s, sumi)
  {
    var c := yd * scale2 * 0.5;
    assert c * acc' == c * (s * sumi as real) + c * acc;
  }

  /** The integer sum of one sub-block, two words of eight elements each. */
  method SubBlockSum(block: seq<bv8>, q8: seq<int>, b: nat) returns (sumi: int)
    requires |block| == BLOCK_BYTES && |q8| == QK && b < 16
    ensures var n := 16 * b;
      sumi == Four(block, q8, n) + Four(block, q8, n + 4) + Four(block, q8, n + 8) + Four(block, q8, n + 12)
  {
    hide Four, Dp4a, Unpack8, Word;
    var at := b * 8;
    var (l0a, l0b) := Unpack8(Word(block[at..at + 4]));
    var (l1a, l1b) := Unpack8(Word(block[at + 4..at + 8]));
    LanesAreElements(block, q8, 16 * b, 0);
    sumi := Dp4a(l0a, q8[b * 16..b * 16 + 4], 0);
    LanesAreElements(block, q8, 16 * b, sumi);
    sumi := Dp4a(l0b, q8[b * 16 + 4..b * 16 + 8], sumi);
    LanesAreElements(block, q8, 16 * b + 8, sumi);
    sumi := Dp4a(l1a, q8[b * 16 + 8..b * 16 + 12], sumi);
    LanesAreElements(block, q8, 16 * b + 8, sumi);
    sumi := Dp4a(l1b, q8[b * 16 + 12..b * 16 + 16], sumi);
  }

  /** dev_dot_nvfp4_q8_K_block: the fast form is the plain sum of weight times activation over all 256 elements. */
  method DotBlock(block: seq<bv8>, q8: seq<int>, yd: real, scale2: real) returns (r: real)
    requires Readable(block) && |q8| == QK
    ensures r == Dot(block, q8, scale2, yd, QK)
  {
    hide Contribution, SubScale, Four, ElementTerm;
    var acc := 0.0;
    var b := 0;
    while b < 16
      invariant 0 <= b <= 16
      invariant yd * scale2 * 0.5 * acc == Dot(block, q8, scale2, yd, 16 * b)
    {
      var sumi := SubBlockSum(block, q8, b);
      var s := ReadScale(block, b);
      ghost var before := acc;
      acc := s * sumi as real + acc;
      Accumulated(scale2, yd, s, sumi, before, acc);
      DotSixteen(block, q8, scale2, yd, b, sumi);
      b := b + 1;
    }
    r := yd * scale2 * 0.5 * acc;
  }

  method ReadScale(block: seq<bv8>, b: nat) returns (s: real)
    requires Readable(block) && b < 16
    ensures s == SubScale(block, b)
  {
    s := E4m3.DeviceValue(block[NIBBLE_BYTES + b] as nat);
  }

  lemma DotSixteen(block: seq<bv8>, q8: seq<int>, scale2: real, yd: real, b: nat, sumi: int)
    requires Readable(block) && |q8| == QK && b < 16
    requires var n := 16 * b;
      sumi == Four(block, q8, n) + Four(block, q8, n + 4) + Four(block, q8, n + 8) + Four(block, q8, n + 12)
    ensures Dot(block, q8, scale2, yd, 16 * b + 16)
         == Dot(block, q8, scale2, yd, 16 * b) + Contribution(scale2, yd, SubScale(block, b), sumi)
  {
    hide Contribution, SubScale, Four, Dot;
    var s, n := SubScale(block, b), 16 * b;
    DotFour(block, q8, scale2, yd, n, b);
    DotFour(block, q8, scale2, yd, n + 4, b);
    DotFour(block, q8, scale2, yd, n + 8, b);
    DotFour(block, q8, scale2, yd, n + 12, b);
    var f0, f1, f2, f3 := Four(block, q8, n), Four(block, q8, n + 4), Four(block, q8, n + 8), Four(block, q8, n + 12);
    ContributionAdds(scale2, yd, s, f0, f1);
    ContributionAdds(scale2, yd, s, f0 + f1, f2);
    ContributionAdds(scale2, yd, s, f0 + f1 + f2, f3);
  }
}
