/**
 When a piece holds an ASCII letter in front of a `>` (src/tokenizer/ds4_tokenizer.c:345-366, 395-458): exactly when
 the two bytes lie inside one character, which only a malformed multi-byte character can hold.
 */
module LetterRuns {
  import opened ByteEncoding
  import opened PreTokenizer
  import opened ControlTokens

  /** An ASCII letter and then '>' at position i. */
  ghost predicate LetterGt(t: Text, i: int) {
    0 <= i && i + 1 < |t| && Alpha(t[i]) && t[i + 1] == GT
  }

  ghost predicate Between(t: Text, lo: nat, hi: nat) {
    exists i :: lo <= i && i + 1 < hi && LetterGt(t, i)
  }

  ghost predicate InPiece(p: Text) {
    exists i :: LetterGt(p, i)
  }

  /** One of the characters from pos up to end, as the splitter steps over them, holds the two bytes. */
  ghost predicate InChar(t: Text, pos: nat, end: nat)
    requires end <= |t|
    decreases |t| - pos
  {
    pos < end && (Between(t, pos, NextChar(t, pos)) || InChar(t, NextChar(t, pos), end))
  }

  /** The characters from lo on end at hi, and none of them begins with a '>' behind a letter. */
  ghost predicate Joined(t: Text, lo: nat, hi: nat)
    requires hi <= |t|
    decreases |t| - lo
  {
    || lo == hi
    || (lo < hi && (NextChar(t, lo) < hi ==> !LetterGt(t, NextChar(t, lo) - 1)) && Joined(t, NextChar(t, lo), hi))
  }

  lemma {:induction false} JoinedBetween(t: Text, lo: nat, hi: nat)
    requires hi <= |t| && Joined(t, lo, hi)
    ensures lo <= hi
    ensures Between(t, lo, hi) <==> InChar(t, lo, hi)
    decreases |t| - lo
  {
    if lo == hi {
    } else {
      var next := NextChar(t, lo);
      JoinedBetween(t, next, hi);
      hide NextChar, LetterGt, InChar, Joined;
      BetweenSplits(t, lo, next, hi);
      assert InChar(t, lo, hi) <==> Between(t, lo, next) || InChar(t, next, hi) by { InCharStep(t, lo, hi); }
    }
  }

  lemma InCharStep(t: Text, lo: nat, hi: nat)
    requires lo < hi <= |t|
    ensures InChar(t, lo, hi) <==> Between(t, lo, NextChar(t, lo)) || InChar(t, NextChar(t, lo), hi)
  {
    hide Between;
  }

  lemma BetweenSplits(t: Text, lo: nat, mid: nat, hi: nat)
    requires lo < mid <= hi && (mid < hi ==> !LetterGt(t, mid - 1))
    ensures Between(t, lo, hi) <==> Between(t, lo, mid) || Between(t, mid, hi)
  {
    hide LetterGt;
    if Between(t, lo, hi) {
      var i :| lo <= i && i + 1 < hi && LetterGt(t, i);
      if i + 1 < mid {
        assert Between(t, lo, mid);
      } else {
        assert i != mid - 1;
        assert Between(t, mid, hi);
      }
    }
  }

  /** The characters of two stretches are those of the whole. */
  lemma {:induction false} InCharAppend(t: Text, lo: nat, mid: nat, hi: nat)
    requires mid <= hi <= |t| && Joined(t, lo, mid)
    ensures InChar(t, lo, hi) <==> InChar(t, lo, mid) || InChar(t, mid, hi)
    decreases |t| - lo
  {
    hide Between, LetterGt;
    if lo == mid {
    } else {
      JoinedBetween(t, lo, mid);
      InCharAppend(t, NextChar(t, lo), mid, hi);
    }
  }

  // ---- the branches of the splitter ----------------------------------------------------------

  /** ASCII bytes without the pair. */
  ghost predicate Plain(t: Text, lo: nat, hi: nat)
    requires hi <= |t|
  {
    && (forall i :: lo <= i < hi ==> t[i] < 128)
    && (forall i :: lo <= i && i + 1 < hi ==> !LetterGt(t, i))
  }

  lemma AsciiStep(t: Text, pos: nat)
    requires pos < |t| && t[pos] < 128
    ensures NextChar(t, pos) == pos + 1
  {
  }

  lemma {:induction false} PlainJoined(t: Text, lo: nat, hi: nat)
    requires lo <= hi <= |t| && Plain(t, lo, hi)
    ensures Joined(t, lo, hi)
    decreases hi - lo
  {
    if lo == hi {
    } else {
      AsciiStep(t, lo);
      PlainJoined(t, lo + 1, hi);
    }
  }

  lemma {:induction false} LettersJoined(t: Text, pos: nat)
    requires pos <= |t|
    ensures Joined(t, pos, LettersEnd(t, pos))
    ensures pos < LettersEnd(t, pos) ==> LetterAt(t, pos)
    decreases |t| - pos
  {
    if pos < |t| && LetterAt(t, pos) {
      LettersJoined(t, NextChar(t, pos));
    } else {
      assert LettersEnd(t, pos) == pos;
    }
  }

  lemma {:induction false} CjkJoined(t: Text, pos: nat)
    requires pos <= |t|
    ensures Joined(t, pos, CjkEnd(t, pos))
    ensures pos < CjkEnd(t, pos) ==> t[pos] >= 128
    decreases |t| - pos
  {
    hide PeekOne, CjkHiraKata;
    if pos < |t| && CjkAt(t, pos) {
      CjkJoined(t, NextChar(t, pos));
    } else {
      assert CjkEnd(t, pos) == pos;
    }
  }

  /** A byte that is not a letter, and the letters behind it. */
  lemma OtherThenLetters(t: Text, pos: nat)
    requires pos < |t| && t[pos] < 128 && !Alpha(t[pos])
    ensures Joined(t, pos, LettersEnd(t, pos + 1))
  {
    AsciiStep(t, pos);
    LettersJoined(t, pos + 1);
  }

  lemma DigitsPlain(t: Text, pos: nat)
    requires pos <= |t|
    ensures Plain(t, pos, DigitsEnd(t, pos, 3))
  {
    forall i | pos <= i < DigitsEnd(t, pos, 3) ensures Digit(t[i]) { DigitsOnly(t, pos, 3, i); }
  }

  lemma AlphasPlain(t: Text, pos: nat)
    requires pos < |t| && Punct(t[pos])
    ensures Plain(t, pos, AlphasEnd(t, pos + 1))
  {
    forall i | pos + 1 <= i < AlphasEnd(t, pos + 1) ensures Alpha(t[i]) { AlphasOnly(t, pos + 1, i); }
  }

  lemma PunctsPlain(t: Text, pos: nat)
    requires pos < |t| && (t[pos] == 32 || Punct(t[pos]))
    ensures Plain(t, pos, NewlinesEnd(t, PunctsEnd(t, pos + 1)))
  {
    var mid := PunctsEnd(t, pos + 1);
    forall i | pos + 1 <= i < mid ensures Punct(t[i]) { PunctsOnly(t, pos + 1, i); }
    forall i | mid <= i < NewlinesEnd(t, mid) ensures Newline(t[i]) { NewlinesOnly(t, mid, i); }
    assert forall i :: pos <= i < NewlinesEnd(t, mid) ==> t[i] < 128 && !Alpha(t[i]);
  }

  lemma BlanksPlain(t: Text, pos: nat, lo: nat, hi: nat)
    requires pos <= |t| && pos <= lo <= hi <= BlanksEnd(t, pos, 0).0
    ensures Plain(t, lo, hi)
  {
    forall i | lo <= i < hi ensures Blank(t[i]) { BlanksOnly(t, pos, 0, i); }
  }

  lemma LetterCuts(t: Text, pos: nat)
    requires pos < |t| && LetterAt(t, pos)
    ensures LettersEnd(t, NextChar(t, pos)) == LettersEnd(t, pos)
  {
  }

  lemma CjkCuts(t: Text, pos: nat)
    requires pos < |t| && CjkAt(t, pos)
    ensures CjkEnd(t, NextChar(t, pos)) == CjkEnd(t, pos)
  {
  }

  /** Whatever branch is taken, the pieces end where characters end. */
  lemma CutsJoined(t: Text, pos: nat)
    requires pos < |t|
    ensures var cuts := Cuts(t, pos);
      Joined(t, pos, cuts[0]) && (|cuts| == 2 ==> Joined(t, cuts[0], cuts[1]))
  {
    hide Joined, DigitsEnd, CjkEnd, AlphasEnd, LettersEnd, PunctsEnd, NewlinesEnd, BlanksEnd, NextChar, CjkAt, Plain;
    var c := t[pos];
    if Digit(c) {
      DigitsPlain(t, pos);
      PlainJoined(t, pos, DigitsEnd(t, pos, 3));
    } else if CjkAt(t, pos) {
      CjkCuts(t, pos);
      CjkJoined(t, pos);
    } else if Punct(c) && pos + 1 < |t| && Alpha(t[pos + 1]) {
      AlphasPlain(t, pos);
      PlainJoined(t, pos, AlphasEnd(t, pos + 1));
    } else if LetterAt(t, pos) {
      LetterCuts(t, pos);
      LettersJoined(t, pos);
    } else if !Newline(c) && !Punct(c) && pos + 1 < |t| && LetterAt(t, pos + 1) {
      OtherThenLetters(t, pos);
    } else if (c == 32 && pos + 1 < |t| && Punct(t[pos + 1])) || Punct(c) {
      PunctsPlain(t, pos);
      PlainJoined(t, pos, NewlinesEnd(t, PunctsEnd(t, pos + 1)));
    } else if Blank(c) {
      var (p, last) := BlanksEnd(t, pos, 0);
      var mid := if last == 0 then p else last;
      BlanksPlain(t, pos, pos, mid);
      BlanksPlain(t, pos, mid, p);
      PlainJoined(t, pos, mid);
      PlainJoined(t, mid, p);
    } else {
      SingleJoined(t, pos);
    }
  }

  lemma SingleJoined(t: Text, pos: nat)
    requires pos < |t| && t[pos] < 128
    ensures Joined(t, pos, pos + 1)
  {
    AsciiStep(t, pos);
    assert Joined(t, pos + 1, pos + 1);
  }

  // ---- pieces --------------------------------------------------------------------------------

  lemma PieceBetween(t: Text, lo: nat, hi: nat)
    requires lo <= hi <= |t|
    ensures InPiece(t[lo..hi]) <==> Between(t, lo, hi)
  {
    var p := t[lo..hi];
    if InPiece(p) {
      var i :| LetterGt(p, i);
      assert LetterGt(t, lo + i);
    }
    if Between(t, lo, hi) {
      var i :| lo <= i && i + 1 < hi && LetterGt(t, i);
      assert p[i - lo] == t[i] && p[i - lo + 1] == t[i + 1];
      assert LetterGt(p, i - lo);
    }
  }

  ghost predicate SomePiece(ps: seq<Text>) {
    exists p :: p in ps && InPiece(p)
  }

  lemma SomePieceAppend(a: seq<Text>, b: seq<Text>)
    ensures SomePiece(a + b) <==> SomePiece(a) || SomePiece(b)
  {
    hide InPiece;
  }

  lemma SlicesInChar(t: Text, pos: nat)
    requires pos < |t|
    ensures SomePiece(Slices(t, pos, Cuts(t, pos))) <==> InChar(t, pos, LastCut(Cuts(t, pos)))
  {
    var cuts := Cuts(t, pos);
    CutsJoined(t, pos);
    JoinedBetween(t, pos, cuts[0]);
    PieceBetween(t, pos, cuts[0]);
    if |cuts| == 2 {
      JoinedBetween(t, cuts[0], cuts[1]);
      PieceBetween(t, cuts[0], cuts[1]);
      InCharAppend(t, pos, cuts[0], cuts[1]);
    }
    hide InChar, InPiece, Between, Joined, Cuts;
    var now := Slices(t, pos, cuts);
    assert now[0] in now && (|cuts| == 2 ==> now[1] in now);
  }

  lemma {:induction false} InCharCuts(t: Text, pos: nat, end: nat)
    requires pos < |t| && end == LastCut(Cuts(t, pos))
    ensures InChar(t, pos, |t|) <==> InChar(t, pos, end) || InChar(t, end, |t|)
  {
    var cuts := Cuts(t, pos);
    CutsJoined(t, pos);
    hide InChar, Joined, Cuts;
    InCharAppend(t, pos, cuts[0], |t|);
    if |cuts| == 2 {
      InCharAppend(t, cuts[0], cuts[1], |t|);
      InCharAppend(t, pos, cuts[0], cuts[1]);
    }
  }

  /** Some piece of a text holds a letter in front of a '>' exactly when one of its characters does. */
  lemma {:induction false} LetterBeforeGtExactly(t: Text, pos: nat)
    requires pos <= |t|
    ensures (exists p :: p in Pieces(t, pos) && InPiece(p)) <==> InChar(t, pos, |t|)
    decreases |t| - pos
  {
    hide Cuts, Slices, InPiece;
    if pos == |t| {
    } else {
      var end := LastCut(Cuts(t, pos));
      SlicesInChar(t, pos);
      InCharCuts(t, pos, end);
      LetterBeforeGtExactly(t, end);
      SomePieceAppend(Slices(t, pos, Cuts(t, pos)), Pieces(t, end));
      assert SomePiece(Pieces(t, pos)) <==> exists p :: p in Pieces(t, pos) && InPiece(p);
      assert SomePiece(Pieces(t, end)) <==> exists p :: p in Pieces(t, end) && InPiece(p);
    }
  }

  /** No character from pos on has a byte below 128 behind its first one. */
  ghost predicate WholeChars(t: Text, pos: nat)
    requires pos <= |t|
    decreases |t| - pos
  {
    pos < |t| ==>
      && (forall i :: pos < i < NextChar(t, pos) ==> t[i] >= 128)
      && WholeChars(t, NextChar(t, pos))
  }

  lemma {:induction false} WholeNotInChar(t: Text, pos: nat)
    requires pos <= |t| && WholeChars(t, pos)
    ensures !InChar(t, pos, |t|)
    decreases |t| - pos
  {
    if pos < |t| {
      WholeNotInChar(t, NextChar(t, pos));
    }
  }

  /** So it never happens in a text whose multi-byte characters hold no ASCII byte. */
  lemma NeverInWholeChars(t: Text)
    requires WholeChars(t, 0)
    ensures forall p :: p in Pieces(t, 0) ==> !InPiece(p)
  {
    LetterBeforeGtExactly(t, 0);
    WholeNotInChar(t, 0);
  }

  // ---- well-formed text --------------------------------------------------------------------------

  /** The text of a sequence of code points. */
  function Encoded(cps: seq<nat>): Text
    requires forall i :: 0 <= i < |cps| ==> cps[i] < 0x20_0000
  {
    if cps == [] then [] else Utf8(cps[0]) + Encoded(cps[1..])
  }

  lemma Utf8Bytes(cp: nat)
    requires cp < 0x20_0000
    ensures Utf8Len(Utf8(cp)[0]) == |Utf8(cp)|
    ensures forall i :: 0 < i < |Utf8(cp)| ==> Utf8(cp)[i] >= 128
  {
    Utf8RoundTrip(cp, Utf8(cp));
  }

  lemma {:induction false} EncodedIsWhole(t: Text, pos: nat, cps: seq<nat>)
    requires forall i :: 0 <= i < |cps| ==> cps[i] < 0x20_0000
    requires pos <= |t| && t[pos..] == Encoded(cps)
    ensures WholeChars(t, pos)
    decreases |cps|
  {
    hide Utf8, Utf8Len;
    if cps == [] {
    } else {
      var c, rest := Utf8(cps[0]), Encoded(cps[1..]);
      Utf8Bytes(cps[0]);
      assert t[pos..] == c + rest;
      assert t[pos] == (c + rest)[0] == c[0];
      var next := pos + |c|;
      assert NextChar(t, pos) == next;
      forall i | pos < i < next ensures t[i] >= 128 { assert t[i] == t[pos..][i - pos] == c[i - pos]; }
      assert t[next..] == (c + rest)[|c|..] == rest;
      EncodedIsWhole(t, next, cps[1..]);
    }
  }

  /** And so never in encoded text, whatever code points it spells. */
  lemma NeverInEncoded(cps: seq<nat>)
    requires forall i :: 0 <= i < |cps| ==> cps[i] < 0x20_0000
    ensures forall p :: p in Pieces(Encoded(cps), 0) ==> !InPiece(p)
  {
    var t := Encoded(cps);
    assert t[0..] == t;
    EncodedIsWhole(t, 0, cps);
    NeverInWholeChars(t);
  }
}
