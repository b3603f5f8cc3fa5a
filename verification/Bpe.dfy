/**
 Byte-level BPE on one pre-token piece (src/tokenizer/ds4_tokenizer.c): the piece is byte-encoded,
 split into characters, merged greedily by rank, and the symbols are looked up.
 */
module Bpe {
  import opened ByteEncoding
  import opened StrTable
  import opened Vocabulary

  type Sym = seq<byte>

  // ---- splitting into characters ------------------------------------------------

  /** The number of bytes the character at the front of s takes; a truncated one counts as one byte. */
  function CharLen(s: seq<byte>): (n: nat)
    requires s != []
    ensures 1 <= n <= |s|
  {
    if Utf8Len(s[0]) > |s| then 1 else Utf8Len(s[0])
  }

  function SplitChars(s: seq<byte>): seq<Sym> {
    if s == [] then [] else [s[..CharLen(s)]] + SplitChars(s[CharLen(s)..])
  }

  // ---- merging ---------------------------------------------------------------------

  /** bpe_rank: the rank of merging a and b, or -1. */
  function RankOf(v: Vocab, a: Sym, b: Sym): int {
    var k := a + [SPACE] + b;
    if k in v.mergeRank then v.mergeRank[k] else -1
  }

  predicate Mergeable(v: Vocab, a: Sym, b: Sym) {
    0 <= RankOf(v, a, b) < INT32_MAX
  }

  /** The scan for the pair to merge: best index and rank after looking at the first n pairs. */
  function BestPair(v: Vocab, syms: seq<Sym>, n: nat): (r: (int, int))
    requires n < |syms| || n == 0
    ensures -1 <= r.0 < n
  {
    if n == 0 then (-1, INT32_MAX)
    else
      var (bestI, bestRank) := BestPair(v, syms, n - 1);
      var rank := RankOf(v, syms[n - 1], syms[n]);
      if rank >= 0 && rank < bestRank then (n - 1, rank) else (bestI, bestRank)
  }

  /** The pair the next merge takes, or -1. */
  function Best(v: Vocab, syms: seq<Sym>): (i: int)
    ensures -1 <= i < |syms| - 1 || i == -1
  {
    BestPair(v, syms, if syms == [] then 0 else |syms| - 1).0
  }

  /** Best is the leftmost pair of least rank, and -1 exactly when no pair can be merged. */
  lemma {:induction false} BestPairIsLeast(v: Vocab, syms: seq<Sym>, n: nat)
    requires n < |syms| || n == 0
    ensures var (i, rank) := BestPair(v, syms, n);
            && (i == -1 ==> rank == INT32_MAX && forall j: nat :: j < n ==> !Mergeable(v, syms[j], syms[j + 1]))
            && (i >= 0 ==>
                  && Mergeable(v, syms[i], syms[i + 1]) && rank == RankOf(v, syms[i], syms[i + 1])
                  && (forall j: nat :: j < n && Mergeable(v, syms[j], syms[j + 1]) ==>
                        rank <= RankOf(v, syms[j], syms[j + 1]))
                  && (forall j: nat :: j < i && Mergeable(v, syms[j], syms[j + 1]) ==>
                        rank < RankOf(v, syms[j], syms[j + 1])))
  {
    if n > 0 { BestPairIsLeast(v, syms, n - 1); }
  }

  function MergeAt(syms: seq<Sym>, i: nat): seq<Sym>
    requires i + 1 < |syms|
  {
    syms[..i] + [syms[i] + syms[i + 1]] + syms[i + 2..]
  }

  /** Merge until no pair is left. */
  function MergeAll(v: Vocab, syms: seq<Sym>): seq<Sym>
    decreases |syms|
  {
    var i := Best(v, syms);
    if i < 0 then syms else MergeAll(v, MergeAt(syms, i))
  }

  /** Merging never changes the bytes, and stops only when no adjacent pair can be merged. */
  lemma {:induction false} MergeAllResult(v: Vocab, syms: seq<Sym>)
    ensures Flatten(MergeAll(v, syms)) == Flatten(syms)
    ensures forall j :: 0 <= j < |MergeAll(v, syms)| - 1 ==>
              !Mergeable(v, MergeAll(v, syms)[j], MergeAll(v, syms)[j + 1])
    decreases |syms|
  {
    var i := Best(v, syms);
    if i < 0 {
      BestPairIsLeast(v, syms, if syms == [] then 0 else |syms| - 1);
    } else {
      MergeAtFlat(syms, i);
      MergeAllResult(v, MergeAt(syms, i));
    }
  }

  lemma {:induction false} MergeAtFlat(syms: seq<Sym>, i: nat)
    requires i + 1 < |syms|
    ensures Flatten(MergeAt(syms, i)) == Flatten(syms)
  {
    var m := MergeAt(syms, i);
    if i == 0 {
      assert m[0] == syms[0] + syms[1] && m[1..] == syms[2..] == syms[1..][1..];
      assert Flatten(syms) == syms[0] + (syms[1] + Flatten(syms[1..][1..]));
    } else {
      assert m[0] == syms[0] && m[1..] == MergeAt(syms[1..], i - 1) by {
        assert syms[i..][1..] == syms[i + 1..];
      }
      MergeAtFlat(syms[1..], i - 1);
    }
  }

  lemma MergeAtIndex(syms: seq<Sym>, i: nat, k: nat)
    requires i + 1 < |syms| && k < |syms| - 1
    ensures |MergeAt(syms, i)| == |syms| - 1
    ensures MergeAt(syms, i)[k] == if k < i then syms[k] else if k == i then syms[i] + syms[i + 1] else syms[k + 1]
  {
  }

  // ---- looking symbols up --------------------------------------------------------------

  /** Symbols that are no token fall back to those of their single bytes that are. */
  function ByteTokens(v: Vocab, s: Sym): seq<int> {
    if s == [] then []
    else (if s[..1] in v.tokenToId then [v.tokenToId[s[..1]]] else []) + ByteTokens(v, s[1..])
  }

  function SymTokens(v: Vocab, s: Sym): seq<int> {
    if s in v.tokenToId then [v.tokenToId[s]] else ByteTokens(v, s)
  }

  function EmitSyms(v: Vocab, syms: seq<Sym>): seq<int> {
    if syms == [] then [] else SymTokens(v, syms[0]) + EmitSyms(v, syms[1..])
  }

  lemma {:induction false} ByteTokensStep(v: Vocab, s: Sym, j: nat)
    requires j < |s|
    ensures ByteTokens(v, s[..j + 1])
         == ByteTokens(v, s[..j]) + if s[j..j + 1] in v.tokenToId then [v.tokenToId[s[j..j + 1]]] else []
  {
    var p := s[..j + 1];
    if j == 0 {
      assert p[..1] == s[0..1] && p[1..] == [] && s[..0] == [];
    } else {
      assert p[1..] == s[1..][..j] && s[..j][1..] == s[1..][..j - 1];
      assert p[..1] == s[..j][..1] && s[1..][j - 1..j] == s[j..j + 1];
      ByteTokensStep(v, s[1..], j - 1);
    }
  }

  lemma {:induction false} EmitSymsStep(v: Vocab, syms: seq<Sym>, i: nat)
    requires i < |syms|
    ensures EmitSyms(v, syms[..i + 1]) == EmitSyms(v, syms[..i]) + SymTokens(v, syms[i])
  {
    var p := syms[..i + 1];
    if i == 0 {
      assert p[1..] == [] && syms[..0] == [];
    } else {
      assert p[1..] == syms[1..][..i] && syms[..i][1..] == syms[1..][..i - 1];
      EmitSymsStep(v, syms[1..], i - 1);
    }
  }

  /** The tokens of one piece. */
  function PieceTokens(v: Vocab, piece: seq<byte>): seq<int> {
    EmitSyms(v, MergeAll(v, SplitChars(Encode(piece))))
  }

  /** bpe_rank through the string table. */
  method LookUpRank(vocab: VocabTables, a: Sym, b: Sym) returns (rank: int)
    requires vocab.Valid()
    ensures rank == RankOf(vocab.V(), a, b)
  {
    var found := vocab.mergeRank.Get(a + [SPACE] + b);
    return if found.Some? then found.value else -1;
  }

  // ---- the same, in place -------------------------------------------------------------------

  /** The growing token vector. */
  class TokenVec {
    var v: seq<int>

    constructor ()
      ensures v == []
    {
      v := [];
    }

    method Push(token: int)
      modifies this
      ensures v == old(v) + [token]
    {
      v := v + [token];
    }
  }

  method FindBest(v: Vocab, sym: array<Sym>, nSym: nat) returns (bestI: int)
    requires nSym <= sym.Length
    ensures bestI == Best(v, sym[..nSym])
  {
    bestI := -1;
    var bestRank := INT32_MAX;
    var i := 0;
    while i + 1 < nSym
      invariant 0 <= i && (nSym > 0 ==> i < nSym) && (nSym == 0 ==> i == 0)
      invariant (bestI, bestRank) == BestPair(v, sym[..nSym], i)
    {
      var rank := RankOf(v, sym[i], sym[i + 1]);
      if rank >= 0 && rank < bestRank {
        bestRank := rank;
        bestI := i;
      }
      i := i + 1;
    }
  }

  /** Replace sym[i] by the merged symbol and shift the tail left. */
  method MergeInPlace(sym: array<Sym>, nSym: nat, i: nat)
    requires i + 1 < nSym <= sym.Length
    modifies sym
    ensures sym[..nSym - 1] == MergeAt(old(sym[..nSym]), i)
  {
    ghost var was := sym[..nSym];
    sym[i] := sym[i] + sym[i + 1];
    var j := i + 1;
    while j + 1 < nSym
      invariant i + 1 <= j < nSym
      invariant forall k :: 0 <= k < i ==> sym[k] == was[k]
      invariant sym[i] == was[i] + was[i + 1]
      invariant forall k :: i + 1 <= k < j ==> sym[k] == was[k + 1]
      invariant forall k :: j <= k < nSym ==> sym[k] == was[k]
    {
      sym[j] := sym[j + 1];
      j := j + 1;
    }
    MergeAtIndex(was, i, 0);
    forall k | 0 <= k < nSym - 1
      ensures sym[..nSym - 1][k] == MergeAt(was, i)[k]
    {
      MergeAtIndex(was, i, k);
    }
  }

  method MergeSymbols(v: Vocab, sym: array<Sym>, n: nat) returns (nSym: nat)
    requires n <= sym.Length
    modifies sym
    ensures nSym <= sym.Length && sym[..nSym] == MergeAll(v, old(sym[..n]))
  {
    nSym := n;
    while true
      invariant nSym <= sym.Length
      invariant MergeAll(v, sym[..nSym]) == MergeAll(v, old(sym[..n]))
      decreases nSym
    {
      var best := FindBest(v, sym, nSym);
      if best < 0 { break; }
      MergeInPlace(sym, nSym, best);
      nSym := nSym - 1;
    }
  }

  method SplitInto(encoded: seq<byte>) returns (sym: array<Sym>, nSym: nat)
    ensures fresh(sym) && nSym <= sym.Length && sym[..nSym] == SplitChars(encoded)
  {
    hide SplitChars, CharLen, Utf8Len;
    sym := new Sym[|encoded|](_ => []);
    nSym := 0;
    var off := 0;
    ghost var rest := encoded;   // encoded from off on
    ghost var done: seq<Sym> := [];
    while off < |encoded|
      invariant nSym <= off <= |encoded| == sym.Length
      invariant fresh(sym)
      invariant rest == encoded[off..] && sym[..nSym] == done
      invariant done + SplitChars(rest) == SplitChars(encoded)
      decreases |encoded| - off
    {
      var n := Utf8Len(encoded[off]);
      if off + n > |encoded| { n := 1; }
      CharLenAt(encoded, off);
      SplitStep(rest, n, done);
      assert encoded[off..off + n] == rest[..n];
      sym[nSym] := encoded[off..off + n];
      done := done + [rest[..n]];
      rest := rest[n..];
      nSym := nSym + 1;
      off := off + n;
    }
    assert rest == [];
    SplitNothing();
  }

  lemma SplitNothing()
    ensures SplitChars([]) == []
  {
  }

  lemma CharLenAt(encoded: seq<byte>, off: nat)
    requires off < |encoded|
    ensures CharLen(encoded[off..]) == if off + Utf8Len(encoded[off]) > |encoded| then 1 else Utf8Len(encoded[off])
  {
    assert encoded[off..][0] == encoded[off];
    hide Utf8Len;
  }

  lemma SplitStep(rest: seq<byte>, n: nat, done: seq<Sym>)
    requires rest != [] && n == CharLen(rest)
    ensures done + SplitChars(rest) == done + [rest[..n]] + SplitChars(rest[n..])
  {
  }

  /** The fallback for a symbol that is no token. */
  method EmitBytes(v: Vocab, s: Sym, out: TokenVec)
    modifies out
    ensures out.v == old(out.v) + ByteTokens(v, s)
  {
    assert s[..0] == [];
    for j := 0 to |s|
      invariant out.v == old(out.v) + ByteTokens(v, s[..j])
    {
      ByteTokensStep(v, s, j);
      if s[j..j + 1] in v.tokenToId { out.Push(v.tokenToId[s[j..j + 1]]); }
    }
    assert s[..|s|] == s;
  }

  method EmitSymbol(v: Vocab, s: Sym, out: TokenVec)
    modifies out
    ensures out.v == old(out.v) + SymTokens(v, s)
  {
    if s in v.tokenToId {
      out.Push(v.tokenToId[s]);
    } else {
      EmitBytes(v, s, out);
    }
  }

  method EmitSymbols(v: Vocab, sym: array<Sym>, nSym: nat, out: TokenVec)
    requires nSym <= sym.Length
    modifies out
    ensures out.v == old(out.v) + EmitSyms(v, sym[..nSym])
  {
    ghost var all := sym[..nSym];
    assert all[..0] == [] && EmitSyms(v, all[..0]) == [];
    hide EmitSyms, SymTokens;
    for i := 0 to nSym
      invariant sym[..nSym] == all
      invariant out.v == old(out.v) + EmitSyms(v, all[..i])
    {
      EmitSymsStep(v, all, i);
      EmitSymbol(v, sym[i], out);
    }
    assert all[..nSym] == all;
  }

  /** bpe_emit_piece: append the tokens of one raw piece. */
  method EmitPiece(v: Vocab, rawPiece: seq<byte>, out: TokenVec)
    modifies out
    ensures out.v == old(out.v) + PieceTokens(v, rawPiece)
  {
    var encoded := ByteEncode(rawPiece);
    var sym, n := SplitInto(encoded);
    var nSym := MergeSymbols(v, sym, n);
    EmitSymbols(v, sym, nSym, out);
  }
}
