/**
 What the tokens of a piece are, said of the vocabulary's lists (src/tokenizer/ds4_tokenizer.c:205-330): which pair is
 merged first, where its rank comes from, and what happens to symbols that are no token.
 */
module TokenLaws {
  import opened ByteEncoding
  import opened StrTable
  import opened Vocabulary
  import opened Bpe
  import opened Detokenizer

  // ---- the byte encoding ---------------------------------------------------------------------------

  /** The bytes that stand for one byte: itself from 33 to 126, and two bytes otherwise. */
  lemma EncodingOfByte(b: byte)
    ensures EncodeByte(b) ==
      if b <= 32 then [0xc4, 0x80 + b]
      else if b <= 126 then [b]
      else if b <= 157 then [0xc4, 0xa1 + (b - 127)]
      else if b <= 160 then [0xc5, 0x80 + (b - 158)]
      else if b == 173 then [0xc5, 0x83]
      else [0xc0 + b / 64, 0x80 + b % 64]
  {
    SkippedValue(b);
    if 127 <= b <= 157 { TwoBytes(b + 162, 4, b - 94); }
    if 158 <= b <= 160 { TwoBytes(b + 162, 5, b - 158); }
    if b <= 32 { TwoBytes(b + 256, 4, b); }
  }

  lemma TwoBytes(cp: nat, high: nat, low: nat)
    requires cp == 64 * high + low && low < 64
    ensures cp / 64 == high && cp % 64 == low
  {
  }

  /** A text is a control text, or the text of a token, by the three bytes of U+FF5C standing anywhere in it. */
  lemma HasBarExactly(s: Key)
    ensures HasBar(s) <==> exists i :: 0 <= i <= |s| && [0xef, 0xbd, 0x9c] <= s[i..]
  {
    if i :| 0 <= i <= |s| && [0xef, 0xbd, 0x9c] <= s[i..] {
      assert s[i] == s[i..][0] == 0xef && s[i + 1] == s[i..][1] == 0xbd && s[i + 2] == s[i..][2] == 0x9c;
    }
    if HasBar(s) {
      var i :| 0 <= i <= |s| - 3 && s[i] == 0xef && s[i + 1] == 0xbd && s[i + 2] == 0x9c;
      assert [0xef, 0xbd, 0x9c] <= s[i..];
    }
  }

  // ---- merging ---------------------------------------------------------------------------------------

  /** Merge r of the list is "a b", and none behind it is. */
  ghost predicate LastMerge(merges: seq<Key>, a: Sym, b: Sym, r: int) {
    0 <= r < |merges| && merges[r] == a + [32] + b && forall j :: r < j < |merges| ==> merges[j] != a + [32] + b
  }

  /** Two symbols have rank r exactly when the last merge that names them, with a space between, is number r. */
  lemma RankIsPosition(v: Vocab, merges: seq<Key>, a: Sym, b: Sym, r: int)
    requires |merges| <= INT32_MAX && v.mergeRank == IndexOf(merges)
    ensures r >= 0 ==> (RankOf(v, a, b) == r <==> LastMerge(merges, a, b, r))
    ensures Mergeable(v, a, b) <==> a + [32] + b in merges
  {
    IndexOfLast(merges, a + [32] + b);
    if RankOf(v, a, b) >= 0 { assert LastMerge(merges, a, b, RankOf(v, a, b)); }
  }

  /** Pair i can be merged, no pair has a lower rank, and none in front of it has the same. */
  ghost predicate MergesNext(v: Vocab, syms: seq<Sym>, i: nat) {
    && i + 1 < |syms| && Mergeable(v, syms[i], syms[i + 1])
    && (forall j: nat :: j + 1 < |syms| && Mergeable(v, syms[j], syms[j + 1]) ==>
          RankOf(v, syms[i], syms[i + 1]) <= RankOf(v, syms[j], syms[j + 1]))
    && forall j: nat :: j < i && Mergeable(v, syms[j], syms[j + 1]) ==>
         RankOf(v, syms[i], syms[i + 1]) < RankOf(v, syms[j], syms[j + 1])
  }

  /** Merging joins the first of the pairs of least rank and goes on; without a pair to merge it is done. */
  lemma MergesLeastFirst(v: Vocab, syms: seq<Sym>, i: nat)
    ensures MergesNext(v, syms, i) ==>
      MergeAll(v, syms) == MergeAll(v, syms[..i] + [syms[i] + syms[i + 1]] + syms[i + 2..])
    ensures (forall j: nat :: j + 1 < |syms| ==> !Mergeable(v, syms[j], syms[j + 1])) ==> MergeAll(v, syms) == syms
  {
    hide BestPair, Mergeable, RankOf;
    BestPairIsLeast(v, syms, if syms == [] then 0 else |syms| - 1);
    var best := Best(v, syms);
    if MergesNext(v, syms, i) {
      assert best >= 0;
      assert best == i;
    } else if forall j: nat :: j + 1 < |syms| ==> !Mergeable(v, syms[j], syms[j + 1]) {
      assert best == -1;
    }
  }

  // ---- looking symbols up ----------------------------------------------------------------------------

  /** A symbol that is a token gives its id. */
  lemma TokenOfSymbol(v: Vocab, s: Sym)
    requires s in v.tokenToId
    ensures EmitSyms(v, [s]) == [v.tokenToId[s]]
  {
    var one: seq<Sym> := [s];
    assert one[1..] == [];
  }

  /** A symbol that is none gives the ids of those of its bytes that are tokens by themselves, in order. */
  lemma FallbackOfSymbol(v: Vocab, s: Sym, x: byte)
    ensures s !in v.tokenToId ==> EmitSyms(v, [s]) == ByteTokens(v, s)
    ensures ByteTokens(v, []) == []
    ensures ByteTokens(v, s + [x]) == ByteTokens(v, s) + if [x] in v.tokenToId then [v.tokenToId[[x]]] else []
  {
    var t := s + [x];
    var one: seq<Sym> := [s];
    assert one[1..] == [];
    ByteTokensStep(v, t, |s|);
    assert t[..|s| + 1] == t && t[..|s|] == s && t[|s|..|s| + 1] == [x];
  }

  /** Symbols are looked up one behind the other. */
  lemma {:induction false} SymbolsInOrder(v: Vocab, a: seq<Sym>, b: seq<Sym>)
    ensures EmitSyms(v, a + b) == EmitSyms(v, a) + EmitSyms(v, b)
  {
    hide SymTokens;
    if a == [] {
      assert a + b == b;
    } else {
      assert (a + b)[0] == a[0] && (a + b)[1..] == a[1..] + b;
      SymbolsInOrder(v, a[1..], b);
    }
  }

  /** The tokens of a piece: its bytes are encoded one by one, the encodings merged, and what results is looked up. */
  lemma PieceTokensAre(v: Vocab, piece: seq<byte>, syms: seq<Sym>)
    requires |syms| == |piece| && forall i :: 0 <= i < |piece| ==> syms[i] == EncodeByte(piece[i])
    ensures PieceTokens(v, piece) == EmitSyms(v, MergeAll(v, syms))
  {
    hide MergeAll, EmitSyms, EncodeByte;
    SplitEncode(piece);
    UnitsAre(piece);
    var split := SplitChars(Encode(piece));
    forall i | 0 <= i < |piece|
      ensures |split| == |piece| && split[i] == syms[i]
    {
      EncodeOne(piece[i]);
    }
    assert split == syms;
  }

  lemma {:induction false} UnitsAre(raw: seq<byte>)
    ensures |Units(raw)| == |raw| && forall i :: 0 <= i < |raw| ==> Units(raw)[i] == [raw[i]]
  {
    if raw != [] { UnitsAre(raw[1..]); }
  }

  lemma EncodeOne(b: byte)
    ensures Encode([b]) == EncodeByte(b)
  {
    assert [b][1..] == [];
    hide EncodeByte;
  }
}
