/**
 Text can never smuggle in a control token: no piece of any text, however malformed, tokenizes
 to one of the seven control ids (src/tokenizer/ds4_tokenizer.c).
 */
module ControlTokens {
  import opened ByteEncoding
  import opened StrTable
  import opened Vocabulary
  import opened Bpe
  import opened Detokenizer
  import opened PreTokenizer

  ghost function ControlIds(v: Vocab): set<int> {
    {v.bos, v.eos, v.user, v.assistant, v.thinkStart, v.thinkEnd, v.dsml}
  }

  // ---- no piece has three ASCII letters before a '>' ------------------------------

  const GT: byte := 62

  /** A byte of 128 or more lies at most three places before g, and not before lo. */
  ghost predicate Covered(t: Text, lo: int, g: int)
    requires 0 <= lo <= g <= |t|
  {
    exists l :: lo <= l < g && g <= l + 3 && t[l] >= 128
  }

  /**
   A letter run may swallow a '>', when a malformed multi-byte character jumps over it, but
   then a lead byte stands right before it.
   */
  lemma {:induction false} LettersCover(t: Text, pos: nat, g: nat)
    requires pos <= |t| && pos <= g < LettersEnd(t, pos) && t[g] == GT
    ensures Covered(t, pos, g)
    decreases |t| - pos
  {
    var next := NextChar(t, pos);
    if g >= next {
      LettersCover(t, next, g);
    } else {
      assert t[pos] >= 128;
    }
  }

  lemma {:induction false} CjkCover(t: Text, pos: nat, g: nat)
    requires pos <= |t| && pos <= g < CjkEnd(t, pos) && t[g] == GT
    ensures Covered(t, pos, g)
    decreases |t| - pos
  {
    var next := NextChar(t, pos);
    if g >= next { CjkCover(t, next, g); }
  }

  lemma {:induction false} AlphasOnly(t: Text, pos: nat, g: nat)
    requires pos <= |t| && pos <= g < AlphasEnd(t, pos)
    ensures Alpha(t[g])
    decreases |t| - pos
  {
    if g > pos { AlphasOnly(t, pos + 1, g); }
  }

  lemma {:induction false} DigitsOnly(t: Text, pos: nat, left: nat, g: nat)
    requires pos <= |t| && pos <= g < DigitsEnd(t, pos, left)
    ensures Digit(t[g])
    decreases left
  {
    if g > pos { DigitsOnly(t, pos + 1, left - 1, g); }
  }

  lemma {:induction false} PunctsOnly(t: Text, pos: nat, g: nat)
    requires pos <= |t| && pos <= g < PunctsEnd(t, pos)
    ensures Punct(t[g])
    decreases |t| - pos
  {
    if g > pos { PunctsOnly(t, pos + 1, g); }
  }

  lemma {:induction false} NewlinesOnly(t: Text, pos: nat, g: nat)
    requires pos <= |t| && pos <= g < NewlinesEnd(t, pos)
    ensures Newline(t[g])
    decreases |t| - pos
  {
    if g > pos { NewlinesOnly(t, pos + 1, g); }
  }

  lemma {:induction false} BlanksOnly(t: Text, pos: nat, last: nat, g: nat)
    requires last <= pos <= |t| && pos <= g < BlanksEnd(t, pos, last).0
    ensures Blank(t[g])
    decreases |t| - pos
  {
    if g > pos { BlanksOnly(t, pos + 1, if Newline(t[pos]) then pos + 1 else last, g); }
  }

  /** Three ASCII letters and then '>' at position i. */
  ghost predicate LettersGt(t: Text, i: int) {
    0 <= i && i + 3 < |t| && Alpha(t[i]) && Alpha(t[i + 1]) && Alpha(t[i + 2]) && t[i + 3] == GT
  }

  /** Between lo and hi, no '>' follows three ASCII letters. */
  ghost predicate Clean(t: Text, lo: nat, hi: nat) {
    forall i :: lo <= i && i + 3 < hi ==> !LettersGt(t, i)
  }

  lemma CoveredIsClean(t: Text, lo: nat, hi: nat)
    requires lo <= hi <= |t|
    requires forall g :: lo < g < hi && t[g] == GT ==> Covered(t, lo, g)
    ensures Clean(t, lo, hi)
  {
    forall i | lo <= i && i + 3 < hi
      ensures !LettersGt(t, i)
    {
      var g := i + 3;
      if t[g] == GT {
        assert Covered(t, lo, g);
        var l :| lo <= l < g && g <= l + 3 && t[l] >= 128;
        assert l == i || l == i + 1 || l == i + 2;
      }
    }
  }

  lemma LetterPieceClean(t: Text, start: nat, pos: nat)
    requires start <= pos <= |t| && pos <= start + 1
    requires pos == start + 1 ==> t[start] != GT
    ensures Clean(t, start, LettersEnd(t, pos))
  {
    forall g | start < g < LettersEnd(t, pos) && t[g] == GT
      ensures Covered(t, start, g)
    {
      LettersCover(t, pos, g);
    }
    CoveredIsClean(t, start, LettersEnd(t, pos));
  }

  lemma CjkPieceClean(t: Text, start: nat)
    requires start < |t| && CjkAt(t, start)
    ensures Clean(t, start, CjkEnd(t, NextChar(t, start)))
  {
    var hi := CjkEnd(t, start);
    assert hi == CjkEnd(t, NextChar(t, start));
    forall g | start < g < hi && t[g] == GT
      ensures Covered(t, start, g)
    {
      CjkCover(t, start, g);
    }
    CoveredIsClean(t, start, hi);
  }

  lemma PunctPieceClean(t: Text, start: nat, pos: nat)
    requires start <= pos <= |t| && pos <= start + 1
    ensures Clean(t, start, NewlinesEnd(t, PunctsEnd(t, pos)))
  {
    var mid := PunctsEnd(t, pos);
    forall i | start <= i && i + 3 < NewlinesEnd(t, mid)
      ensures !LettersGt(t, i)
    {
      if i + 3 >= mid {
        NewlinesOnly(t, mid, i + 3);
      } else {
        PunctsOnly(t, pos, i + 2);
      }
    }
  }

  lemma AsciiPieceClean(t: Text, pos: nat)
    requires pos < |t|
    ensures Clean(t, pos, DigitsEnd(t, pos, 3))
    ensures pos + 1 <= |t| ==> Clean(t, pos, AlphasEnd(t, pos + 1))
    ensures Clean(t, pos, BlanksEnd(t, pos, 0).0)
  {
    forall i | pos <= i && i + 3 < DigitsEnd(t, pos, 3) ensures !LettersGt(t, i) { DigitsOnly(t, pos, 3, i); }
    forall i | pos <= i && i + 3 < AlphasEnd(t, pos + 1) ensures !LettersGt(t, i) { AlphasOnly(t, pos + 1, i + 3); }
    forall i | pos <= i && i + 3 < BlanksEnd(t, pos, 0).0 ensures !LettersGt(t, i) { BlanksOnly(t, pos, 0, i); }
  }

  lemma SubClean(t: Text, lo: nat, hi: nat, lo': nat, hi': nat)
    requires Clean(t, lo, hi) && lo <= lo' && hi' <= hi
    ensures Clean(t, lo', hi')
  {
  }

  /** Every piece of every text is clean. */
  lemma CutsClean(t: Text, pos: nat)
    requires pos < |t|
    ensures var cuts := Cuts(t, pos);
            Clean(t, pos, cuts[0]) && (|cuts| == 2 ==> Clean(t, cuts[0], cuts[1]))
  {
    var c := t[pos];
    AsciiPieceClean(t, pos);
    if Digit(c) {
    } else if CjkAt(t, pos) {
      CjkPieceClean(t, pos);
    } else if Punct(c) {
      PunctPieceClean(t, pos, pos + 1);
    } else if LetterAt(t, pos) {
      LetterPieceClean(t, pos, pos);
    } else {
      LetterPieceClean(t, pos, pos + 1);
      PunctPieceClean(t, pos, pos + 1);
      var (p, last) := BlanksEnd(t, pos, 0);
      if last > 0 {
        SubClean(t, pos, p, pos, last);
        SubClean(t, pos, p, last, p);
      }
    }
  }

  ghost predicate CleanPiece(p: Text) {
    forall i :: !LettersGt(p, i)
  }

  lemma SliceClean(t: Text, lo: nat, hi: nat)
    requires lo <= hi <= |t| && Clean(t, lo, hi)
    ensures CleanPiece(t[lo..hi])
  {
    var p := t[lo..hi];
    forall i
      ensures !LettersGt(p, i)
    {
      if 0 <= i && i + 3 < |p| {
        assert !LettersGt(t, lo + i);
        assert p[i] == t[lo + i] && p[i + 1] == t[lo + i + 1] && p[i + 2] == t[lo + i + 2] && p[i + 3] == t[lo + i + 3];
      }
    }
  }

  lemma {:induction false} PiecesClean(t: Text, pos: nat)
    requires pos <= |t|
    ensures forall p :: p in Pieces(t, pos) ==> CleanPiece(p)
    decreases |t| - pos
  {
    if pos < |t| {
      var cuts := Cuts(t, pos);
      CutsClean(t, pos);
      SliceClean(t, pos, cuts[0]);
      if |cuts| == 2 { SliceClean(t, cuts[0], cuts[1]); }
      PiecesClean(t, LastCut(cuts));
    }
  }

  /**
   The stronger statement one might expect, that no ASCII letter stands before a '>', fails:
   a stray lead byte swallows both into one letter run.
   */
  lemma LetterBeforeGtHappens()
    ensures Pieces([0xe0, 107, 62], 0) == [[0xe0, 107, 62]]
  {
    var t: Text := [0xe0, 107, 62];
    assert PeekOne(t, 0) == 0 * 0x1000 + Low6(t[1]) * 0x40 + Low6(t[2]);
    assert NextChar(t, 0) == 3 && LettersEnd(t, 3) == 3;
    assert Cuts(t, 0) == [3];
    assert t[0..3] == t;
    assert Pieces(t, 3) == [];
  }

  // ---- no symbol of a clean piece is a control text ----------------------------------

  /** Where a segment lies in the whole. */
  lemma {:induction false} SegmentInside(segs: seq<seq<byte>>, k: nat) returns (o: nat)
    requires k < |segs|
    ensures o + |segs[k]| <= |Flatten(segs)| && Flatten(segs)[o..o + |segs[k]|] == segs[k]
  {
    var rest := Flatten(segs[1..]);
    if k == 0 {
      o := 0;
    } else {
      var inner := SegmentInside(segs[1..], k - 1);
      o := |segs[0]| + inner;
      assert (segs[0] + rest)[o..o + |segs[k]|] == rest[inner..inner + |segs[k]|];
    }
  }

  /** What matters about a think tag: printable ASCII, ending in three letters and '>'. */
  ghost predicate TagLike(tag: Key) {
    LettersGt(tag, |tag| - 4) && forall i :: 0 <= i < |tag| ==> 33 <= tag[i] <= 126
  }

  lemma ThinkTagsAreTagLike()
    ensures TagLike(THINK_START_TEXT) && TagLike(THINK_END_TEXT)
  {
  }

  /** A text that contains a tag is not clean. */
  lemma TagIsNotClean(p: Text, o: nat, tag: Key)
    requires TagLike(tag)
    requires o + |tag| <= |p| && p[o..o + |tag|] == tag
    ensures !CleanPiece(p)
  {
    var i := o + |tag| - 4;
    assert p[i] == tag[|tag| - 4] && p[i + 1] == tag[|tag| - 3] && p[i + 2] == tag[|tag| - 2];
    assert p[i + 3] == tag[|tag| - 1];
    assert LettersGt(p, i);
  }

  lemma {:induction false} AsciiSelf(raw: seq<byte>)
    requires forall i :: 0 <= i < |raw| ==> 33 <= raw[i] <= 126
    ensures Encode(raw) == raw
  {
    if raw != [] { AsciiSelf(raw[1..]); }
  }

  /** Only the tag itself encodes to a tag of printable ASCII. */
  lemma EncodesToTag(seg: seq<byte>, tag: Key)
    requires TagLike(tag)
    requires Encode(seg) == tag
    ensures seg == tag
  {
    AsciiSelf(tag);
    DecodeEncode(tag);
    DecodeEncode(seg);
  }

  lemma SegmentNotTag(segs: seq<seq<byte>>, k: nat, tag: Key)
    requires k < |segs| && CleanPiece(Flatten(segs)) && TagLike(tag)
    ensures Encode(segs[k]) != tag
  {
    var o := SegmentInside(segs, k);
    if segs[k] == tag {
      TagIsNotClean(Flatten(segs), o, tag);
    }
    if Encode(segs[k]) == tag {
      EncodesToTag(segs[k], tag);
    }
  }

  /** No symbol that BPE makes of a clean piece is the text of a control token. */
  lemma SymbolNotControl(v: Vocab, t: Texts, piece: Text, sym: Sym)
    requires ControlLike(t) && CleanPiece(piece)
    requires sym in MergeAll(v, SplitChars(Encode(piece)))
    ensures sym !in TextList(t)
  {
    hide MergeAll, SplitChars, Encode, HasBar;
    var segs := PieceSegments(v, piece);
    var k :| 0 <= k < |segs| && sym == Encode(segs[k]);
    NoBarInEncoding(segs[k]);
    ThinkTagsAreTagLike();
    SegmentNotTag(segs, k, t.thinkStart);
    SegmentNotTag(segs, k, t.thinkEnd);
  }

  lemma {:induction false} ByteTokensShort(v: Vocab, s: Sym, id: int)
    requires IdsOk(v) && id in ByteTokens(v, s)
    ensures 0 <= id < |v.token| && |v.token[id]| == 1
  {
    if !(s[..1] in v.tokenToId && id == v.tokenToId[s[..1]]) { ByteTokensShort(v, s[1..], id); }
  }

  /** An emitted token is the text of one of the symbols, or a single byte. */
  lemma {:induction false} EmittedToken(v: Vocab, syms: seq<Sym>, id: int)
    requires IdsOk(v) && id in EmitSyms(v, syms)
    ensures 0 <= id < |v.token| && (v.token[id] in syms || |v.token[id]| == 1)
  {
    if id in SymTokens(v, syms[0]) {
      if syms[0] !in v.tokenToId { ByteTokensShort(v, syms[0], id); }
    } else {
      EmittedToken(v, syms[1..], id);
    }
  }

  /** A control id names its control text. */
  lemma ControlIdText(v: Vocab, t: Texts, id: int)
    requires VocabOk(v, t) && ControlLike(t) && id in ControlIds(v)
    ensures 0 <= id < |v.token| && v.token[id] in TextList(t) && |v.token[id]| >= 3
  {
  }

  lemma PieceNeverControl(v: Vocab, t: Texts, piece: Text, id: int)
    requires VocabOk(v, t) && ControlLike(t) && CleanPiece(piece) && id in PieceTokens(v, piece)
    ensures id !in ControlIds(v)
  {
    var syms := MergeAll(v, SplitChars(Encode(piece)));
    EmittedToken(v, syms, id);
    if id in ControlIds(v) {
      ControlIdText(v, t, id);
      if v.token[id] in syms { SymbolNotControl(v, t, piece, v.token[id]); }
    }
  }

  lemma {:induction false} PiecesNeverControl(v: Vocab, t: Texts, pieces: seq<Text>, id: int)
    requires VocabOk(v, t) && ControlLike(t) && id in TokensOfPieces(v, pieces)
    requires forall p :: p in pieces ==> CleanPiece(p)
    ensures id !in ControlIds(v)
  {
    if id in PieceTokens(v, pieces[0]) {
      PieceNeverControl(v, t, pieces[0], id);
    } else {
      PiecesNeverControl(v, t, pieces[1..], id);
    }
  }

  /** For every vocabulary and every text, tokenizing the text never yields a control id. */
  lemma TextNeverControl(v: Vocab, t: Texts, text: Text)
    requires VocabOk(v, t) && ControlLike(t)
    ensures forall id :: id in TextTokens(v, text) ==> id !in ControlIds(v)
  {
    PiecesClean(text, 0);
    forall id | id in TextTokens(v, text)
      ensures id !in ControlIds(v)
    {
      PiecesNeverControl(v, t, Pieces(text, 0), id);
    }
  }
}
