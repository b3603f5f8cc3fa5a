/**
 The JoyAI/DeepSeek pre-tokenizer of src/tokenizer/ds4_tokenizer.c: cuts the text into pieces,
 each of which then goes through BPE on its own.
 A text is the bytes before the terminating NUL of the source's C string.
 */
module PreTokenizer {
  import opened ByteEncoding
  import opened StrTable
  import opened Vocabulary
  import opened Bpe
  import opened Detokenizer

  type Text = seq<byte>

  // ---- character classes ----------------------------------------------------

  predicate Alpha(c: byte) { 65 <= c <= 90 || 97 <= c <= 122 }

  predicate Digit(c: byte) { 48 <= c <= 57 }

  predicate Blank(c: byte) { c == 32 || 9 <= c <= 13 }

  predicate Newline(c: byte) { c == 10 || c == 13 }

  predicate Punct(c: byte) { 33 <= c <= 47 || 58 <= c <= 64 || 91 <= c <= 96 || 123 <= c <= 126 }

  /** Any non-ASCII byte counts as the start of a letter. */
  predicate LetterAt(t: Text, pos: nat)
    requires pos < |t|
  {
    if t[pos] < 128 then Alpha(t[pos]) else true
  }

  function NextChar(t: Text, pos: nat): (next: nat)
    requires pos < |t|
    ensures pos < next <= |t|
  {
    if pos + Utf8Len(t[pos]) > |t| then pos + 1 else pos + Utf8Len(t[pos])
  }

  /** utf8_peek_one */
  function PeekOne(t: Text, pos: nat): nat
    requires pos < |t|
  {
    var c: int := t[pos];
    var n := NextChar(t, pos) - pos;
    if n == 1 then c
    else if n == 2 then c % 0x20 * 0x40 + Low6(t[pos + 1])
    else if n == 3 then c % 0x10 * 0x1000 + Low6(t[pos + 1]) * 0x40 + Low6(t[pos + 2])
    else c % 8 * 0x4_0000 + Low6(t[pos + 1]) * 0x1000 + Low6(t[pos + 2]) * 0x40 + Low6(t[pos + 3])
  }

  predicate CjkHiraKata(cp: nat) {
    0x4e00 <= cp <= 0x9fa5 || 0x3040 <= cp <= 0x309f || 0x30a0 <= cp <= 0x30ff
  }

  predicate CjkAt(t: Text, pos: nat)
    requires pos < |t|
  {
    t[pos] >= 128 && CjkHiraKata(PeekOne(t, pos))
  }

  // ---- runs of one class ---------------------------------------------------------

  function DigitsEnd(t: Text, pos: nat, left: nat): (r: nat)
    requires pos <= |t|
    ensures pos <= r <= |t|
    ensures pos < |t| && left > 0 && Digit(t[pos]) ==> pos < r
    decreases left
  {
    if pos < |t| && Digit(t[pos]) && left > 0 then DigitsEnd(t, pos + 1, left - 1) else pos
  }

  function CjkEnd(t: Text, pos: nat): (r: nat)
    requires pos <= |t|
    ensures pos <= r <= |t|
    decreases |t| - pos
  {
    if pos < |t| && CjkAt(t, pos) then CjkEnd(t, NextChar(t, pos)) else pos
  }

  function AlphasEnd(t: Text, pos: nat): (r: nat)
    requires pos <= |t|
    ensures pos <= r <= |t|
    decreases |t| - pos
  {
    if pos < |t| && Alpha(t[pos]) then AlphasEnd(t, pos + 1) else pos
  }

  function LettersEnd(t: Text, pos: nat): (r: nat)
    requires pos <= |t|
    ensures pos <= r <= |t|
    decreases |t| - pos
  {
    if pos < |t| && LetterAt(t, pos) then LettersEnd(t, NextChar(t, pos)) else pos
  }

  function PunctsEnd(t: Text, pos: nat): (r: nat)
    requires pos <= |t|
    ensures pos <= r <= |t|
    decreases |t| - pos
  {
    if pos < |t| && Punct(t[pos]) then PunctsEnd(t, pos + 1) else pos
  }

  function NewlinesEnd(t: Text, pos: nat): (r: nat)
    requires pos <= |t|
    ensures pos <= r <= |t|
    decreases |t| - pos
  {
    if pos < |t| && Newline(t[pos]) then NewlinesEnd(t, pos + 1) else pos
  }

  /** The end of the run of blanks, and the position after its last newline (or last). */
  function BlanksEnd(t: Text, pos: nat, last: nat): (r: (nat, nat))
    requires last <= pos <= |t|
    ensures pos <= r.0 <= |t| && last <= r.1 <= r.0
    ensures r.1 == last || pos < r.1
    ensures pos < |t| && Blank(t[pos]) ==> pos < r.0
    decreases |t| - pos
  {
    if pos < |t| && Blank(t[pos]) then BlanksEnd(t, pos + 1, if Newline(t[pos]) then pos + 1 else last)
    else (pos, last)
  }

  // ---- one step of the splitter ------------------------------------------------------

  /** The ends of the piece (or, for some runs of blanks, the two pieces) that start at pos. */
  function Cuts(t: Text, pos: nat): (cuts: seq<nat>)
    requires pos < |t|
    ensures |cuts| == 1 || |cuts| == 2
    ensures pos < cuts[0] <= |t|
    ensures |cuts| == 2 ==> cuts[0] < cuts[1] <= |t|
  {
    var c := t[pos];
    if Digit(c) then [DigitsEnd(t, pos, 3)]
    else if CjkAt(t, pos) then [CjkEnd(t, NextChar(t, pos))]
    else if Punct(c) && pos + 1 < |t| && Alpha(t[pos + 1]) then [AlphasEnd(t, pos + 1)]
    else if LetterAt(t, pos) then [LettersEnd(t, NextChar(t, pos))]
    else if !Newline(c) && !Punct(c) && pos + 1 < |t| && LetterAt(t, pos + 1) then [LettersEnd(t, pos + 1)]
    else if c == 32 && pos + 1 < |t| && Punct(t[pos + 1]) then [NewlinesEnd(t, PunctsEnd(t, pos + 1))]
    else if Punct(c) then [NewlinesEnd(t, PunctsEnd(t, pos + 1))]
    else if Blank(c) then
      var (p, last) := BlanksEnd(t, pos, 0);
      if last == 0 then [p] else if last < p then [last, p] else [last]
    else [pos + 1]
  }

  function LastCut(cuts: seq<nat>): nat
    requires cuts != []
  {
    cuts[|cuts| - 1]
  }

  /** The pieces that cuts makes of t from pos on. */
  function Slices(t: Text, pos: nat, cuts: seq<nat>): seq<Text>
    requires |cuts| == 1 || |cuts| == 2
    requires pos <= cuts[0] <= |t| && (|cuts| == 2 ==> cuts[0] <= cuts[1] <= |t|)
  {
    if |cuts| == 1 then [t[pos..cuts[0]]] else [t[pos..cuts[0]], t[cuts[0]..cuts[1]]]
  }

  /** All pieces of t from pos on. */
  function Pieces(t: Text, pos: nat): seq<Text>
    requires pos <= |t|
    decreases |t| - pos
  {
    if pos == |t| then [] else Slices(t, pos, Cuts(t, pos)) + Pieces(t, LastCut(Cuts(t, pos)))
  }

  function TokensOfPieces(v: Vocab, pieces: seq<Text>): seq<int> {
    if pieces == [] then [] else PieceTokens(v, pieces[0]) + TokensOfPieces(v, pieces[1..])
  }

  /** The token stream of a text. */
  function TextTokens(v: Vocab, t: Text): seq<int> {
    TokensOfPieces(v, Pieces(t, 0))
  }

  // ---- the splitter as it runs --------------------------------------------------------

  method ConsumeDigits(t: Text, start: nat) returns (pos: nat)
    requires start <= |t|
    ensures pos == DigitsEnd(t, start, 3)
  {
    pos := start;
    var ndigits := 0;
    while pos < |t| && Digit(t[pos]) && ndigits < 3
      invariant start <= pos <= |t| && 0 <= ndigits <= 3
      invariant DigitsEnd(t, pos, 3 - ndigits) == DigitsEnd(t, start, 3)
    {
      pos := pos + 1;
      ndigits := ndigits + 1;
    }
  }

  method ConsumeCjk(t: Text, start: nat) returns (pos: nat)
    requires start <= |t|
    ensures pos == CjkEnd(t, start)
  {
    pos := start;
    while pos < |t| && CjkAt(t, pos)
      invariant pos <= |t| && CjkEnd(t, pos) == CjkEnd(t, start)
    {
      pos := NextChar(t, pos);
    }
  }

  method ConsumeAlphas(t: Text, start: nat) returns (pos: nat)
    requires start <= |t|
    ensures pos == AlphasEnd(t, start)
  {
    pos := start;
    while pos < |t| && Alpha(t[pos])
      invariant pos <= |t| && AlphasEnd(t, pos) == AlphasEnd(t, start)
    {
      pos := pos + 1;
    }
  }

  method ConsumeLetters(t: Text, start: nat) returns (pos: nat)
    requires start <= |t|
    ensures pos == LettersEnd(t, start)
  {
    pos := start;
    while pos < |t| && LetterAt(t, pos)
      invariant pos <= |t| && LettersEnd(t, pos) == LettersEnd(t, start)
    {
      pos := NextChar(t, pos);
    }
  }

  /** Punctuation, and the newlines kept in the same piece. */
  method ConsumePunct(t: Text, start: nat) returns (pos: nat)
    requires start <= |t|
    ensures pos == NewlinesEnd(t, PunctsEnd(t, start))
  {
    pos := start;
    while pos < |t| && Punct(t[pos])
      invariant pos <= |t| && PunctsEnd(t, pos) == PunctsEnd(t, start)
    {
      pos := pos + 1;
    }
    while pos < |t| && Newline(t[pos])
      invariant pos <= |t| && NewlinesEnd(t, pos) == NewlinesEnd(t, PunctsEnd(t, start))
    {
      pos := pos + 1;
    }
  }

  method ConsumeBlanks(t: Text, start: nat) returns (p: nat, lastNewlineEnd: nat)
    requires start <= |t|
    ensures (p, lastNewlineEnd) == BlanksEnd(t, start, 0)
  {
    p, lastNewlineEnd := start, 0;
    while p < |t| && Blank(t[p])
      invariant lastNewlineEnd <= p <= |t|
      invariant BlanksEnd(t, p, lastNewlineEnd) == BlanksEnd(t, start, 0)
    {
      var sc := t[p];
      p := p + 1;
      if Newline(sc) { lastNewlineEnd := p; }
    }
  }

  /** The branches of the splitting loop: the ends of the pieces that start at pos. */
  method NextCuts(t: Text, start: nat) returns (cuts: seq<nat>)
    requires start < |t|
    ensures cuts == Cuts(t, start)
  {
    var c := t[start];
    var pos := start;
    if Digit(c) {
      pos := ConsumeDigits(t, pos);
    } else if CjkAt(t, pos) {
      pos := ConsumeCjk(t, NextChar(t, pos));
    } else if Punct(c) && pos + 1 < |t| && Alpha(t[pos + 1]) {
      pos := ConsumeAlphas(t, pos + 1);
    } else if LetterAt(t, pos) {
      pos := ConsumeLetters(t, pos);
    } else if !Newline(c) && !Punct(c) && pos + 1 < |t| && LetterAt(t, pos + 1) {
      pos := ConsumeLetters(t, pos + 1);
    } else if c == 32 && pos + 1 < |t| && Punct(t[pos + 1]) {
      pos := ConsumePunct(t, pos + 1);
    } else if Punct(c) {
      pos := ConsumePunct(t, pos);
    } else if Blank(c) {
      var p, lastNewlineEnd := ConsumeBlanks(t, pos);
      if lastNewlineEnd > 0 {
        return if lastNewlineEnd < p then [lastNewlineEnd, p] else [lastNewlineEnd];
      }
      pos := p;
    } else {
      pos := pos + 1;
    }
    return [pos];
  }

  /** bpe_tokenize_text: append the tokens of the whole text. */
  method BpeTokenizeText(v: Vocab, t: Text, out: TokenVec)
    modifies out
    ensures out.v == old(out.v) + TextTokens(v, t)
  {
    var pos := 0;
    ghost var left := Pieces(t, 0);
    while pos < |t|
      invariant pos <= |t| && left == Pieces(t, pos)
      invariant out.v + TokensOfPieces(v, left) == old(out.v) + TextTokens(v, t)
      decreases |t| - pos
    {
      var cuts := NextCuts(t, pos);
      ghost var before, now := out.v, Slices(t, pos, cuts);
      EmitPiece(v, t[pos..cuts[0]], out);
      if |cuts| == 2 {
        EmitPiece(v, t[cuts[0]..cuts[1]], out);
      }
      left := Pieces(t, LastCut(cuts));
      TakePieces(v, before, now, left);
      pos := cuts[|cuts| - 1];
    }
  }

  lemma TokensOfCons(v: Vocab, piece: Text, rest: seq<Text>)
    ensures TokensOfPieces(v, [piece] + rest) == PieceTokens(v, piece) + TokensOfPieces(v, rest)
  {
    assert ([piece] + rest)[1..] == rest;
  }

  lemma Regroup<T>(a: seq<T>, b: seq<T>, c: seq<T>, d: seq<T>)
    ensures a + (b + (c + d)) == a + b + c + d
    ensures a + (b + c) == a + b + c
  {
  }

  lemma TakePieces(v: Vocab, done: seq<int>, now: seq<Text>, left: seq<Text>)
    requires |now| == 1 || |now| == 2
    ensures done + TokensOfPieces(v, now + left)
         == (if |now| == 1 then done + PieceTokens(v, now[0])
             else done + PieceTokens(v, now[0]) + PieceTokens(v, now[1])) + TokensOfPieces(v, left)
  {
    if |now| == 1 {
      assert now + left == [now[0]] + left;
      TokensOfCons(v, now[0], left);
      Regroup(done, PieceTokens(v, now[0]), TokensOfPieces(v, left), []);
    } else {
      assert now + left == [now[0]] + ([now[1]] + left);
      TokensOfCons(v, now[0], [now[1]] + left);
      TokensOfCons(v, now[1], left);
      Regroup(done, PieceTokens(v, now[0]), PieceTokens(v, now[1]), TokensOfPieces(v, left));
    }
  }

  // ---- the pieces partition the text -----------------------------------------------------

  lemma SlicesFlat(t: Text, pos: nat, cuts: seq<nat>)
    requires pos < |t| && cuts == Cuts(t, pos)
    ensures Flatten(Slices(t, pos, cuts)) == t[pos..LastCut(cuts)]
    ensures forall p :: p in Slices(t, pos, cuts) ==> p != []
  {
    var now := Slices(t, pos, cuts);
    if |cuts| == 1 {
      assert Flatten(now) == now[0] + [];
    } else {
      var second: seq<Text> := now[1..];
      assert Flatten(second) == second[0] + [];
      assert Flatten(now) == now[0] + Flatten(second);
    }
  }

  /** Every text is the concatenation of its pieces, and no piece is empty. */
  lemma {:induction false} PiecesPartition(t: Text, pos: nat)
    requires pos <= |t|
    ensures Flatten(Pieces(t, pos)) == t[pos..]
    ensures forall p :: p in Pieces(t, pos) ==> p != []
    decreases |t| - pos
  {
    hide Cuts, Slices;
    if pos < |t| {
      var cuts := Cuts(t, pos);
      var next := LastCut(cuts);
      PiecesPartition(t, next);
      SlicesFlat(t, pos, cuts);
      FlattenAppend(Slices(t, pos, cuts), Pieces(t, next));
      assert t[pos..] == t[pos..next] + t[next..];
    }
  }

  lemma {:induction false} PiecesRoundTrip(v: Vocab, pieces: seq<Text>)
    requires IdsOk(v) && Complete(v)
    ensures TextOf(v, TokensOfPieces(v, pieces)) == Flatten(pieces)
  {
    if pieces != [] {
      PieceRoundTrip(v, pieces[0]);
      TextOfAppend(v, PieceTokens(v, pieces[0]), TokensOfPieces(v, pieces[1..]));
      PiecesRoundTrip(v, pieces[1..]);
    }
  }

  /** Tokenizing any byte string, malformed UTF-8 included, and detokenizing gives it back. */
  lemma TextRoundTrip(v: Vocab, t: Text)
    requires IdsOk(v) && Complete(v)
    ensures TextOf(v, TextTokens(v, t)) == t
  {
    PiecesPartition(t, 0);
    PiecesRoundTrip(v, Pieces(t, 0));
    assert t[0..] == t;
  }
}
