/**
 What the pieces of the pre-tokenizer are, said of the bytes alone (src/tokenizer/ds4_tokenizer.c:376-458): which
 alternative a piece belongs to, where it ends, and that nothing else fits.
 */
module PieceShapes {
  import opened ByteEncoding
  import opened PreTokenizer

  /** The byte at p, if there is one, is not of the class. */
  ghost predicate Stops(t: Text, p: nat, class_: byte -> bool) {
    p < |t| ==> !class_(t[p])
  }

  ghost predicate AllOf(t: Text, lo: nat, hi: nat, class_: byte -> bool) {
    lo <= hi <= |t| && forall i :: lo <= i < hi ==> class_(t[i])
  }

  /** Up to three digits, and fewer only where no digit follows. */
  ghost predicate Digits(t: Text, pos: nat, e: nat) {
    && pos < e <= pos + 3 && AllOf(t, pos, e, Digit)
    && (e == pos + 3 || Stops(t, e, Digit))
  }

  /** The starts of whole characters from lo up to hi. */
  ghost predicate CharStarts(t: Text, lo: nat, hi: nat, s: seq<nat>) {
    && |s| > 0 && s[0] == lo && s[|s| - 1] == hi && (forall k :: 0 <= k < |s| ==> s[k] <= |t|)
    && (forall k :: 0 <= k < |s| - 1 ==> s[k] < |t| && s[k + 1] == NextChar(t, s[k]))
  }

  /** Whole characters from lo to hi, all of them CJK, hiragana or katakana, and none at hi. */
  ghost predicate CjkRun(t: Text, lo: nat, hi: nat) {
    && (exists s: seq<nat> :: CharStarts(t, lo, hi, s) && forall k :: 0 <= k < |s| - 1 ==> CjkAt(t, s[k]))
    && hi <= |t| && (hi < |t| ==> !CjkAt(t, hi))
  }

  /** Whole characters from lo to hi, all of them letters, and none at hi. */
  ghost predicate LetterRun(t: Text, lo: nat, hi: nat) {
    && (exists s: seq<nat> :: CharStarts(t, lo, hi, s) && forall k :: 0 <= k < |s| - 1 ==> LetterAt(t, s[k]))
    && hi <= |t| && (hi < |t| ==> !LetterAt(t, hi))
  }

  /** One punctuation mark and all ASCII letters behind it. */
  ghost predicate PunctLetters(t: Text, pos: nat, e: nat) {
    pos + 1 < e && AllOf(t, pos, pos + 1, Punct) && AllOf(t, pos + 1, e, Alpha) && Stops(t, e, Alpha)
  }

  ghost predicate PunctsUpTo(t: Text, lo: nat, m: nat, e: nat) {
    && lo < m <= e && AllOf(t, lo, m, Punct) && Stops(t, m, Punct)
    && AllOf(t, m, e, Newline) && Stops(t, e, Newline)
  }

  /** All punctuation from lo on, and all newlines behind it. */
  ghost predicate PunctsNewlines(t: Text, lo: nat, e: nat) {
    exists m :: PunctsUpTo(t, lo, m, e)
  }

  /** A whole run of blanks that ends at p; its last newline, if any, stands in front of n. */
  ghost predicate BlankRun(t: Text, pos: nat, n: nat, p: nat) {
    && pos < p && AllOf(t, pos, p, Blank) && Stops(t, p, Blank)
    && (forall i :: pos <= i < p && n <= i ==> !Newline(t[i]))
    && (n == 0 || (pos < n <= p && Newline(t[n - 1])))
  }

  /** The alternatives in their order. */
  datatype Kind = Number | Cjk | Marked | Word | Other | Spaced | Marks | Blanks | Single

  ghost function KindAt(t: Text, pos: nat): Kind
    requires pos < |t|
  {
    var c := t[pos];
    if 48 <= c <= 57 then Number
    else if CjkAt(t, pos) then Cjk
    else if Punct(c) && pos + 1 < |t| && Alpha(t[pos + 1]) then Marked
    else if c >= 128 || Alpha(c) then Word
    else if c != 10 && c != 13 && !Punct(c) && pos + 1 < |t| && (t[pos + 1] >= 128 || Alpha(t[pos + 1])) then Other
    else if c == 32 && pos + 1 < |t| && Punct(t[pos + 1]) then Spaced
    else if Punct(c) then Marks
    else if c == 32 || 9 <= c <= 13 then Blanks
    else Single
  }

  /** The ends of the piece at pos, or of the two pieces that a run of blanks with a newline inside is cut into. */
  ghost predicate IsMatch(t: Text, pos: nat, ends: seq<nat>)
    requires pos < |t|
  {
    match KindAt(t, pos)
    case Number => |ends| == 1 && Digits(t, pos, ends[0])
    case Cjk => |ends| == 1 && CjkRun(t, pos, ends[0])
    case Marked => |ends| == 1 && PunctLetters(t, pos, ends[0])
    case Word => |ends| == 1 && LetterRun(t, pos, ends[0])
    case Other => |ends| == 1 && LetterRun(t, pos + 1, ends[0])
    case Spaced => |ends| == 1 && PunctsNewlines(t, pos + 1, ends[0])
    case Marks => |ends| == 1 && PunctsNewlines(t, pos, ends[0])
    case Blanks =>
      || (|ends| == 1 && BlankRun(t, pos, 0, ends[0]))
      || (|ends| == 1 && BlankRun(t, pos, ends[0], ends[0]))
      || (|ends| == 2 && pos < ends[0] < ends[1] && BlankRun(t, pos, ends[0], ends[1]))
    case Single => ends == [pos + 1]
  }

  /** The pieces begin with those that the ends cut off, and the last end is next. */
  ghost predicate Begins(t: Text, pos: nat, ends: seq<nat>, pieces: seq<Text>, next: nat) {
    && (|ends| == 1 || |ends| == 2) && |ends| <= |pieces|
    && pos < ends[0] <= ends[|ends| - 1] == next <= |t|
    && pieces[0] == t[pos..ends[0]] && (|ends| == 2 ==> pieces[1] == t[ends[0]..ends[1]])
  }

  /** A text from pos on, cut into matches. */
  ghost predicate IsCut(t: Text, pos: nat, pieces: seq<Text>)
    requires pos <= |t|
    decreases |pieces|
  {
    if pos == |t| then pieces == []
    else exists ends: seq<nat>, next: nat ::
      IsMatch(t, pos, ends) && Begins(t, pos, ends, pieces, next) && IsCut(t, next, pieces[|ends|..])
  }

  // ---- runs ------------------------------------------------------------------------------------------

  lemma {:induction false} DigitsAre(t: Text, pos: nat, left: nat)
    requires pos <= |t|
    ensures var e := DigitsEnd(t, pos, left);
      e - pos <= left && AllOf(t, pos, e, Digit) && (e - pos == left || Stops(t, e, Digit))
    decreases left
  {
    if pos < |t| && Digit(t[pos]) && left > 0 {
      DigitsAre(t, pos + 1, left - 1);
    } else {
      assert DigitsEnd(t, pos, left) == pos;
    }
  }

  lemma {:induction false} AlphasAre(t: Text, pos: nat)
    requires pos <= |t|
    ensures AllOf(t, pos, AlphasEnd(t, pos), Alpha) && Stops(t, AlphasEnd(t, pos), Alpha)
    decreases |t| - pos
  {
    if pos < |t| && Alpha(t[pos]) {
      AlphasAre(t, pos + 1);
    } else {
      assert AlphasEnd(t, pos) == pos;
    }
  }

  lemma {:induction false} PunctsAre(t: Text, pos: nat)
    requires pos <= |t|
    ensures AllOf(t, pos, PunctsEnd(t, pos), Punct) && Stops(t, PunctsEnd(t, pos), Punct)
    ensures pos < |t| && Punct(t[pos]) ==> pos < PunctsEnd(t, pos)
    decreases |t| - pos
  {
    if pos < |t| && Punct(t[pos]) {
      PunctsAre(t, pos + 1);
    } else {
      assert PunctsEnd(t, pos) == pos;
    }
  }

  lemma {:induction false} NewlinesAre(t: Text, pos: nat)
    requires pos <= |t|
    ensures AllOf(t, pos, NewlinesEnd(t, pos), Newline) && Stops(t, NewlinesEnd(t, pos), Newline)
    decreases |t| - pos
  {
    if pos < |t| && Newline(t[pos]) {
      NewlinesAre(t, pos + 1);
    } else {
      assert NewlinesEnd(t, pos) == pos;
    }
  }

  lemma {:induction false} BlanksAre(t: Text, pos: nat, last: nat)
    requires last <= pos <= |t|
    ensures var (p, n) := BlanksEnd(t, pos, last);
      && AllOf(t, pos, p, Blank) && Stops(t, p, Blank)
      && (forall i :: pos <= i < p && n <= i ==> !Newline(t[i]))
      && (n == last || (pos < n <= p && Newline(t[n - 1])))
    decreases |t| - pos
  {
    if pos < |t| && Blank(t[pos]) {
      BlanksAre(t, pos + 1, if Newline(t[pos]) then pos + 1 else last);
    } else {
      assert BlanksEnd(t, pos, last) == (pos, last);
    }
  }

  lemma {:induction false} CjkAre(t: Text, pos: nat) returns (s: seq<nat>)
    requires pos <= |t|
    ensures CharStarts(t, pos, CjkEnd(t, pos), s) && forall k :: 0 <= k < |s| - 1 ==> CjkAt(t, s[k])
    ensures CjkEnd(t, pos) < |t| ==> !CjkAt(t, CjkEnd(t, pos))
    decreases |t| - pos
  {
    hide CjkAt, NextChar;
    if pos < |t| && CjkAt(t, pos) {
      var rest := CjkAre(t, NextChar(t, pos));
      s := [pos] + rest;
      assert forall k :: 1 <= k < |s| ==> s[k] == rest[k - 1];
    } else {
      s := [pos];
      assert CjkEnd(t, pos) == pos;
    }
  }

  lemma {:induction false} LettersAre(t: Text, pos: nat) returns (s: seq<nat>)
    requires pos <= |t|
    ensures CharStarts(t, pos, LettersEnd(t, pos), s) && forall k :: 0 <= k < |s| - 1 ==> LetterAt(t, s[k])
    ensures LettersEnd(t, pos) < |t| ==> !LetterAt(t, LettersEnd(t, pos))
    decreases |t| - pos
  {
    hide LetterAt, NextChar;
    if pos < |t| && LetterAt(t, pos) {
      var rest := LettersAre(t, NextChar(t, pos));
      s := [pos] + rest;
      assert forall k :: 1 <= k < |s| ==> s[k] == rest[k - 1];
    } else {
      s := [pos];
      assert LettersEnd(t, pos) == pos;
    }
  }

  lemma LettersRun(t: Text, pos: nat)
    requires pos <= |t|
    ensures LetterRun(t, pos, LettersEnd(t, pos))
  {
    var s := LettersAre(t, pos);
  }

  lemma CjksRun(t: Text, pos: nat)
    requires pos <= |t|
    ensures CjkRun(t, pos, CjkEnd(t, pos))
  {
    var s := CjkAre(t, pos);
  }

  // ---- one step --------------------------------------------------------------------------------------

  lemma WordFrom(t: Text, pos: nat)
    requires pos < |t| && LetterAt(t, pos)
    ensures LetterRun(t, pos, LettersEnd(t, NextChar(t, pos)))
  {
    LettersRun(t, pos);
    assert LettersEnd(t, pos) == LettersEnd(t, NextChar(t, pos));
    hide LetterRun;
  }

  lemma CjkFrom(t: Text, pos: nat)
    requires pos < |t| && CjkAt(t, pos)
    ensures CjkRun(t, pos, CjkEnd(t, NextChar(t, pos)))
  {
    CjksRun(t, pos);
    assert CjkEnd(t, pos) == CjkEnd(t, NextChar(t, pos));
    hide CjkRun;
  }

  lemma MarksFrom(t: Text, pos: nat)
    requires pos < |t| && Punct(t[pos])
    ensures PunctsNewlines(t, pos, NewlinesEnd(t, PunctsEnd(t, pos)))
    ensures PunctsEnd(t, pos) == PunctsEnd(t, pos + 1)
  {
    PunctsAre(t, pos);
    NewlinesAre(t, PunctsEnd(t, pos));
    hide Stops, AllOf;
    assert PunctsUpTo(t, pos, PunctsEnd(t, pos), NewlinesEnd(t, PunctsEnd(t, pos)));
  }

  lemma MarkedFrom(t: Text, pos: nat)
    requires pos + 1 < |t| && Punct(t[pos]) && Alpha(t[pos + 1])
    ensures PunctLetters(t, pos, AlphasEnd(t, pos + 1))
  {
    AlphasAre(t, pos + 1);
    assert pos + 1 < AlphasEnd(t, pos + 1);
  }

  lemma BlanksFrom(t: Text, pos: nat)
    requires pos < |t| && Blank(t[pos])
    ensures var (p, n) := BlanksEnd(t, pos, 0); BlankRun(t, pos, n, p)
  {
    BlanksAre(t, pos, 0);
  }

  lemma SameKinds(t: Text, pos: nat)
    requires pos < |t|
    ensures Digit(t[pos]) <==> 48 <= t[pos] <= 57
    ensures LetterAt(t, pos) <==> t[pos] >= 128 || Alpha(t[pos])
    ensures Newline(t[pos]) <==> t[pos] == 10 || t[pos] == 13
    ensures Blank(t[pos]) <==> t[pos] == 32 || 9 <= t[pos] <= 13
  {
  }

  /** The cuts are a match. */
  lemma CutsMatch(t: Text, pos: nat)
    requires pos < |t|
    ensures IsMatch(t, pos, Cuts(t, pos))
  {
    SameKinds(t, pos);
    if pos + 1 < |t| { SameKinds(t, pos + 1); }
    hide Digits, CjkRun, LetterRun, PunctLetters, PunctsNewlines, BlankRun, CjkAt, LetterAt, Digit, Newline, Blank,
         DigitsEnd, AlphasEnd, LettersEnd, PunctsEnd, NewlinesEnd, BlanksEnd, CjkEnd, NextChar;
    match KindAt(t, pos)
    case Number => DigitsFrom(t, pos);
    case Cjk => CjkFrom(t, pos);
    case Marked => MarkedFrom(t, pos);
    case Word => WordFrom(t, pos);
    case Other => LettersRun(t, pos + 1);
    case Spaced => MarksFrom(t, pos + 1);
    case Marks => MarksFrom(t, pos);
    case Blanks => BlanksFrom(t, pos);
    case Single =>
  }

  lemma DigitsFrom(t: Text, pos: nat)
    requires pos < |t| && Digit(t[pos])
    ensures Digits(t, pos, DigitsEnd(t, pos, 3))
  {
    DigitsAre(t, pos, 3);
  }

  // ---- nothing else fits -----------------------------------------------------------------------------

  lemma AllOfEnds(t: Text, lo: nat, a: nat, b: nat, class_: byte -> bool)
    requires AllOf(t, lo, a, class_) && Stops(t, a, class_) && AllOf(t, lo, b, class_) && Stops(t, b, class_)
    ensures a == b
  {
  }

  lemma DigitsEndOnce(t: Text, pos: nat, a: nat, b: nat)
    requires Digits(t, pos, a) && Digits(t, pos, b)
    ensures a == b
  {
  }

  lemma PunctsOnce(t: Text, lo: nat, a: nat, b: nat)
    requires PunctsNewlines(t, lo, a) && PunctsNewlines(t, lo, b)
    ensures a == b
  {
    var m :| PunctsUpTo(t, lo, m, a);
    var n :| PunctsUpTo(t, lo, n, b);
    AllOfEnds(t, lo, m, n, Punct);
    AllOfEnds(t, m, a, b, Newline);
  }

  /** Two chains of characters from the same start agree as far as both go. */
  lemma {:induction false} SameStarts(t: Text, lo: nat, a: nat, b: nat, r: seq<nat>, s: seq<nat>, k: nat)
    requires CharStarts(t, lo, a, r) && CharStarts(t, lo, b, s) && k < |r| && k < |s|
    ensures r[k] == s[k]
  {
    hide NextChar;
    if k == 0 {
    } else {
      SameStarts(t, lo, a, b, r, s, k - 1);
      assert r[k - 1 + 1] == NextChar(t, r[k - 1]) && s[k - 1 + 1] == NextChar(t, s[k - 1]);
    }
  }

  lemma LetterRunOnce(t: Text, lo: nat, a: nat, b: nat)
    requires LetterRun(t, lo, a) && LetterRun(t, lo, b)
    ensures a == b
  {
    hide LetterAt, NextChar;
    var r: seq<nat> :| CharStarts(t, lo, a, r) && forall k :: 0 <= k < |r| - 1 ==> LetterAt(t, r[k]);
    var s: seq<nat> :| CharStarts(t, lo, b, s) && forall k :: 0 <= k < |s| - 1 ==> LetterAt(t, s[k]);
    var k := if |r| < |s| then |r| - 1 else |s| - 1;
    SameStarts(t, lo, a, b, r, s, k);
  }

  lemma CjkRunOnce(t: Text, lo: nat, a: nat, b: nat)
    requires CjkRun(t, lo, a) && CjkRun(t, lo, b)
    ensures a == b
  {
    hide CjkAt, NextChar;
    var r: seq<nat> :| CharStarts(t, lo, a, r) && forall k :: 0 <= k < |r| - 1 ==> CjkAt(t, r[k]);
    var s: seq<nat> :| CharStarts(t, lo, b, s) && forall k :: 0 <= k < |s| - 1 ==> CjkAt(t, s[k]);
    var k := if |r| < |s| then |r| - 1 else |s| - 1;
    SameStarts(t, lo, a, b, r, s, k);
  }

  lemma BlankRunOnce(t: Text, pos: nat, m: nat, a: nat, n: nat, b: nat)
    requires BlankRun(t, pos, m, a) && BlankRun(t, pos, n, b)
    ensures a == b && m == n
  {
    AllOfEnds(t, pos, a, b, Blank);
  }

  /** There is only one match at a place. */
  lemma MatchOnce(t: Text, pos: nat, a: seq<nat>, b: seq<nat>)
    requires pos < |t| && IsMatch(t, pos, a) && IsMatch(t, pos, b)
    ensures a == b
  {
    hide Digits, CjkRun, LetterRun, PunctLetters, PunctsNewlines, BlankRun;
    match KindAt(t, pos)
    case Number => DigitsEndOnce(t, pos, a[0], b[0]);
    case Cjk => CjkRunOnce(t, pos, a[0], b[0]);
    case Marked => MarkedOnce(t, pos, a[0], b[0]);
    case Word => LetterRunOnce(t, pos, a[0], b[0]);
    case Other => LetterRunOnce(t, pos + 1, a[0], b[0]);
    case Spaced => PunctsOnce(t, pos + 1, a[0], b[0]);
    case Marks => PunctsOnce(t, pos, a[0], b[0]);
    case Blanks => BlanksOnce(t, pos, a, b);
    case Single =>
  }

  lemma MarkedOnce(t: Text, pos: nat, a: nat, b: nat)
    requires PunctLetters(t, pos, a) && PunctLetters(t, pos, b)
    ensures a == b
  {
    AllOfEnds(t, pos + 1, a, b, Alpha);
  }

  lemma BlanksOnce(t: Text, pos: nat, a: seq<nat>, b: seq<nat>)
    requires pos < |t| && KindAt(t, pos) == Blanks && IsMatch(t, pos, a) && IsMatch(t, pos, b)
    ensures a == b
  {
    hide BlankRun;
    var m := if |a| == 2 || BlankRun(t, pos, a[0], a[0]) then a[0] else 0;
    var n := if |b| == 2 || BlankRun(t, pos, b[0], b[0]) then b[0] else 0;
    BlankRunOnce(t, pos, m, a[|a| - 1], n, b[|b| - 1]);
    RunNotEmpty(t, pos, m, a[|a| - 1]);
  }

  lemma RunNotEmpty(t: Text, pos: nat, n: nat, p: nat)
    requires BlankRun(t, pos, n, p)
    ensures p > 0 && n <= p
  {
  }

  /** The cuts are the only match. */
  lemma CutsExactly(t: Text, pos: nat, ends: seq<nat>)
    requires pos < |t|
    ensures IsMatch(t, pos, ends) <==> ends == Cuts(t, pos)
  {
    hide IsMatch, Cuts;
    CutsMatch(t, pos);
    if IsMatch(t, pos, ends) { MatchOnce(t, pos, ends, Cuts(t, pos)); }
  }

  // ---- the whole text ---------------------------------------------------------------------------------

  /** The pieces of a text are its cut into matches, and the only one. */
  lemma {:induction false} PiecesExactly(t: Text, pos: nat, pieces: seq<Text>)
    requires pos <= |t|
    ensures IsCut(t, pos, pieces) <==> pieces == Pieces(t, pos)
    decreases |t| - pos
  {
    hide IsMatch, Cuts, Slices;
    if pos == |t| {
    } else {
      var cuts := Cuts(t, pos);
      var next := LastCut(cuts);
      var rest := Pieces(t, next);
      CutsExactly(t, pos, cuts);
      if IsCut(t, pos, pieces) {
        var ends: seq<nat>, end: nat :|
          IsMatch(t, pos, ends) && Begins(t, pos, ends, pieces, end) && IsCut(t, end, pieces[|ends|..]);
        CutsExactly(t, pos, ends);
        PiecesExactly(t, next, pieces[|cuts|..]);
        SlicesBegin(t, pos, cuts, pieces, next);
      }
      if pieces == Pieces(t, pos) {
        SlicesAre(t, pos, cuts, rest);
        PiecesExactly(t, next, rest);
        assert IsMatch(t, pos, cuts) && Begins(t, pos, cuts, pieces, next) && IsCut(t, next, pieces[|cuts|..]);
      }
    }
  }

  lemma SlicesBegin(t: Text, pos: nat, cuts: seq<nat>, pieces: seq<Text>, next: nat)
    requires Begins(t, pos, cuts, pieces, next)
    ensures pieces == Slices(t, pos, cuts) + pieces[|cuts|..]
  {
  }

  lemma SlicesAre(t: Text, pos: nat, cuts: seq<nat>, rest: seq<Text>)
    requires pos < |t| && cuts == Cuts(t, pos)
    ensures Begins(t, pos, cuts, Slices(t, pos, cuts) + rest, LastCut(cuts))
    ensures (Slices(t, pos, cuts) + rest)[|cuts|..] == rest
  {
    hide Cuts;
  }

  // ---- the classes ----------------------------------------------------------------------------------------

  /** Every ASCII byte is a letter, a digit, a blank, a mark or a control byte, and only one of them. */
  lemma AsciiClasses(c: byte)
    requires c < 128
    ensures Alpha(c) <==> 'A' as int <= c as int <= 'Z' as int || 'a' as int <= c as int <= 'z' as int
    ensures Digit(c) <==> '0' as int <= c as int <= '9' as int
    ensures Blank(c) <==> c == 9 || c == 10 || c == 11 || c == 12 || c == 13 || c == 32
    ensures Newline(c) <==> c == 10 || c == 13
    ensures Punct(c) <==> 32 < c < 127 && !Alpha(c) && !Digit(c)
  {
  }

  /** Every character beyond ASCII is a letter, and it counts as CJK, hiragana or katakana by its code point alone. */
  lemma CjkByCodePoint(cp: nat, t: Text, pos: nat)
    requires 128 <= cp < 0x20_0000 && pos + |Utf8(cp)| <= |t| && t[pos..pos + |Utf8(cp)|] == Utf8(cp)
    ensures NextChar(t, pos) == pos + |Utf8(cp)| && LetterAt(t, pos)
    ensures CjkAt(t, pos) <==> 0x4e00 <= cp <= 0x9fa5 || 0x3040 <= cp <= 0x309f || 0x30a0 <= cp <= 0x30ff
  {
    var c := Utf8(cp);
    Utf8RoundTrip(cp, c);
    forall i | 0 <= i < |c| ensures t[pos + i] == c[i] { assert t[pos + i] == t[pos..pos + |c|][i]; }
    PeekIsDecode(c, t, pos);
  }

  /** Peeking at a whole character decodes it. */
  lemma PeekIsDecode(c: seq<byte>, t: Text, pos: nat)
    requires 1 < |c| <= 4 && pos + |c| <= |t| && (forall i :: 0 <= i < |c| ==> t[pos + i] == c[i])
    requires Utf8Len(c[0]) == |c| && c[0] >= 128
    ensures NextChar(t, pos) == pos + |c|
    ensures PeekOne(t, pos) == Utf8DecodeOne(c, 0).0
  {
    assert t[pos + 0] == c[0];
    hide Low6;
  }
}
