/**
 From token ids back to text (vocab_token_text of src/tokenizer/ds4_tokenizer.c), and why BPE
 followed by detokenization gives back the bytes of the piece.
 */
module Detokenizer {
  import opened ByteEncoding
  import opened StrTable
  import opened Vocabulary
  import opened Bpe

  // ---- token text -----------------------------------------------------------

  /** A token is stored literally when it contains the bytes of U+FF5C, and byte-encoded otherwise. */
  ghost function TokenText(v: Vocab, id: int): seq<byte> {
    if id < 0 || id >= |v.token| then []
    else if HasBar(v.token[id]) then v.token[id]
    else Decode(v.token[id])
  }

  ghost function TextOf(v: Vocab, ids: seq<int>): seq<byte> {
    if ids == [] then [] else TokenText(v, ids[0]) + TextOf(v, ids[1..])
  }

  /** vocab_token_is_literal_special */
  method IsLiteralSpecial(s: Key) returns (special: bool)
    ensures special <==> HasBar(s)
  {
    if |s| < 3 { return false; }
    var i := 0;
    while i + 3 <= |s|
      invariant 0 <= i <= |s| - 2
      invariant forall j :: 0 <= j < i && j <= |s| - 3 ==> !(s[j] == 0xef && s[j + 1] == 0xbd && s[j + 2] == 0x9c)
    {
      if s[i] == 0xef && s[i + 1] == 0xbd && s[i + 2] == 0x9c { return true; }
      i := i + 1;
    }
    return false;
  }

  /** vocab_token_text */
  method VocabTokenText(v: Vocab, token: int) returns (out: seq<byte>)
    ensures out == TokenText(v, token)
  {
    if token < 0 || token >= |v.token| { return []; }
    var s := v.token[token];
    var special := IsLiteralSpecial(s);
    if special { return s; }
    out := DecodeToken(s);
  }

  /** The decoding loop of vocab_token_text. */
  method DecodeToken(s: Key) returns (out: seq<byte>)
    ensures out == Decode(s)
  {
    out := [];
    var pos := 0;
    while pos < |s|
      invariant pos <= |s|
      invariant out + DecodeFrom(s, pos) == Decode(s)
      decreases |s| - pos
    {
      DecodeStep(s, pos, out);
      assert pos < Utf8DecodeOne(s, pos).1 <= |s|;
      var (cp, next) := Utf8DecodeOne(s, pos);
      var b := Gpt2CodepointToByte(cp);
      if b >= 0 { out := out + [b]; }
      pos := next;
    }
  }

  lemma DecodeStep(s: Key, pos: nat, done: seq<byte>)
    requires pos < |s|
    ensures var (cp, next) := Utf8DecodeOne(s, pos);
            done + DecodeFrom(s, pos)
            == done + (match ByteOf(cp) case Some(b) => [b] case None => []) + DecodeFrom(s, next)
  {
  }

  lemma {:induction false} TextOfAppend(v: Vocab, a: seq<int>, b: seq<int>)
    ensures TextOf(v, a + b) == TextOf(v, a) + TextOf(v, b)
  {
    if a == [] {
      assert a + b == b;
    } else {
      assert (a + b)[0] == a[0] && (a + b)[1..] == a[1..] + b;
      TextOfAppend(v, a[1..], b);
    }
  }

  // ---- symbols are encodings of consecutive segments -------------------------------

  ghost predicate Segments(syms: seq<Sym>, segs: seq<seq<byte>>) {
    |syms| == |segs| && forall i :: 0 <= i < |syms| ==> syms[i] == Encode(segs[i])
  }

  /** One segment per byte. */
  ghost function Units(raw: seq<byte>): seq<seq<byte>> {
    if raw == [] then [] else [raw[..1]] + Units(raw[1..])
  }

  lemma {:induction false} UnitsFlat(raw: seq<byte>)
    ensures Flatten(Units(raw)) == raw
  {
    if raw != [] { UnitsFlat(raw[1..]); }
  }

  /** Splitting an encoded piece gives the encodings of its single bytes. */
  lemma {:induction false} SplitEncode(raw: seq<byte>)
    ensures Segments(SplitChars(Encode(raw)), Units(raw))
    ensures forall s :: s in SplitChars(Encode(raw)) ==> exists b: byte :: s == EncodeByte(b)
  {
    if raw != [] {
      var head, rest := EncodeByte(raw[0]), Encode(raw[1..]);
      CodepointBijection(0, raw[0]);
      Utf8RoundTrip(CodepointOf(raw[0]), head + rest);
      var all := head + rest;
      assert all[..|head|] == head && all[|head|..] == rest;
      assert SplitChars(all) == [head] + SplitChars(rest);
      SplitEncode(raw[1..]);
      assert Encode(raw[..1]) == head + Encode(raw[..1][1..]);
    }
  }

  lemma MergeSegmentsAt(syms: seq<Sym>, segs: seq<seq<byte>>, i: nat)
    requires Segments(syms, segs) && i + 1 < |syms|
    ensures Segments(MergeAt(syms, i), MergeAt(segs, i))
  {
    EncodeAppend(segs[i], segs[i + 1]);
    forall k | 0 <= k < |syms| - 1
      ensures MergeAt(syms, i)[k] == Encode(MergeAt(segs, i)[k])
    {
      MergeAtIndex(syms, i, k);
      MergeAtIndex(segs, i, k);
    }
  }

  /** After merging, the symbols still encode consecutive segments of the same bytes. */
  lemma {:induction false} MergeSegments(v: Vocab, syms: seq<Sym>, segs: seq<seq<byte>>)
    returns (merged: seq<seq<byte>>)
    requires Segments(syms, segs)
    ensures Segments(MergeAll(v, syms), merged) && Flatten(merged) == Flatten(segs)
    decreases |syms|
  {
    var i := Best(v, syms);
    if i < 0 {
      merged := segs;
    } else {
      MergeSegmentsAt(syms, segs, i);
      MergeAtFlat(segs, i);
      merged := MergeSegments(v, MergeAt(syms, i), MergeAt(segs, i));
    }
  }

  /** The symbols that a piece is finally cut into, as segments of the piece. */
  lemma PieceSegments(v: Vocab, piece: seq<byte>) returns (segs: seq<seq<byte>>)
    ensures Segments(MergeAll(v, SplitChars(Encode(piece))), segs) && Flatten(segs) == piece
  {
    SplitEncode(piece);
    UnitsFlat(piece);
    segs := MergeSegments(v, SplitChars(Encode(piece)), Units(piece));
  }

  // ---- the round trip of one piece ----------------------------------------------------

  /**
   The vocabulary is closed: the encoding of every single byte is a token, and so is the
   result of every merge that has a usable rank.
   */
  ghost predicate Complete(v: Vocab) {
    && (forall b: byte :: EncodeByte(b) in v.tokenToId)
    && (forall a: Sym, b: Sym :: Mergeable(v, a, b) ==> a + b in v.tokenToId)
  }

  ghost predicate AllTokens(v: Vocab, syms: seq<Sym>) {
    forall i :: 0 <= i < |syms| ==> syms[i] in v.tokenToId
  }

  lemma MergeKeepsOne(v: Vocab, syms: seq<Sym>, i: nat)
    requires Complete(v) && AllTokens(v, syms) && i + 1 < |syms| && i == Best(v, syms)
    ensures |MergeAt(syms, i)| == |syms| - 1 && AllTokens(v, MergeAt(syms, i))
  {
    BestPairIsLeast(v, syms, |syms| - 1);
    assert Mergeable(v, syms[i], syms[i + 1]);
    assert syms[i] + syms[i + 1] in v.tokenToId;
    hide Best, Mergeable, Complete, MergeAt, BestPair;
    MergeAtIndex(syms, i, 0);
    forall k | 0 <= k < |syms| - 1
      ensures MergeAt(syms, i)[k] in v.tokenToId
    {
      MergeAtIndex(syms, i, k);
    }
  }

  lemma {:induction false} MergeKeepsTokens(v: Vocab, syms: seq<Sym>)
    requires Complete(v) && AllTokens(v, syms)
    ensures AllTokens(v, MergeAll(v, syms))
    decreases |syms|
  {
    hide Best, MergeAt, Complete;
    var i := Best(v, syms);
    if i >= 0 {
      MergeKeepsOne(v, syms, i);
      MergeKeepsTokens(v, MergeAt(syms, i));
    }
  }

  /** Encoded text never looks like a literally stored control token. */
  lemma NoBarInEncoding(raw: seq<byte>)
    ensures !HasBar(Encode(raw))
  {
    if HasBar(Encode(raw)) {
      var i :| 0 <= i <= |Encode(raw)| - 3 && Encode(raw)[i] == 0xef;
      EncodedBytes(raw, i);
    }
  }

  lemma {:induction false} SymbolsText(v: Vocab, syms: seq<Sym>, segs: seq<seq<byte>>)
    requires IdsOk(v) && AllTokens(v, syms) && Segments(syms, segs)
    ensures TextOf(v, EmitSyms(v, syms)) == Flatten(segs)
  {
    if syms != [] {
      var id := v.tokenToId[syms[0]];
      assert v.token[id] == Encode(segs[0]);
      NoBarInEncoding(segs[0]);
      DecodeEncode(segs[0]);
      assert TextOf(v, [id]) == segs[0] + TextOf(v, []);
      TextOfAppend(v, [id], EmitSyms(v, syms[1..]));
      SymbolsText(v, syms[1..], segs[1..]);
    }
  }

  /** With a closed vocabulary, the tokens of any piece spell exactly that piece. */
  lemma PieceRoundTrip(v: Vocab, piece: seq<byte>)
    requires IdsOk(v) && Complete(v)
    ensures TextOf(v, PieceTokens(v, piece)) == piece
  {
    var syms := SplitChars(Encode(piece));
    SplitEncode(piece);
    forall i | 0 <= i < |syms|
      ensures syms[i] in v.tokenToId
    {
      assert syms[i] in syms;
    }
    MergeKeepsTokens(v, syms);
    var segs := PieceSegments(v, piece);
    SymbolsText(v, MergeAll(v, syms), segs);
  }
}
