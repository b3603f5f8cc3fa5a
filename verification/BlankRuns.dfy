/**
 Runs of blanks: the branch that cuts them (src/tokenizer/ds4_tokenizer.c:435-450) against the last three alternatives
 of the pattern that it stands for (src/tokenizer/ds4_tokenizer.c:385-387), `\s*[\r\n]+`, `\s+(?!\S)` and `\s+`.
 */
module BlankRuns {
  import opened ByteEncoding
  import opened PreTokenizer

  /** The branch for blanks is reached: no earlier one applies. */
  predicate AtBlanks(t: Text, pos: nat)
    requires pos < |t|
  {
    && Blank(t[pos])
    && !(pos + 1 < |t| && LetterAt(t, pos + 1) && !Newline(t[pos]))
    && !(t[pos] == 32 && pos + 1 < |t| && Punct(t[pos + 1]))
  }

  /**
   Where the pattern ends its next match: behind the last newline of the run, or in front of the last blank if another
   byte follows, and at the end of the run otherwise. In front of anything but blanks it is the cut of the code.
   */
  function PatternCut(t: Text, pos: nat): (end: nat)
    requires pos < |t|
    ensures pos < end <= |t|
  {
    if !AtBlanks(t, pos) then Cuts(t, pos)[0] else
    var (p, last) := BlanksEnd(t, pos, 0);
    if last > 0 then last else if p == |t| || p == pos + 1 then p else p - 1
  }

  function PatternPieces(t: Text, pos: nat): seq<Text>
    requires pos <= |t|
    decreases |t| - pos
  {
    if pos == |t| then [] else [t[pos..PatternCut(t, pos)]] + PatternPieces(t, PatternCut(t, pos))
  }

  /** Two blanks and a letter: the code keeps the blanks together, the pattern leaves the second to the letter. */
  lemma BlanksDiffer()
    ensures Pieces([32, 32, 97], 0) == [[32, 32], [97]]
    ensures PatternPieces([32, 32, 97], 0) == [[32], [32, 97]]
  {
    var t: Text := [32, 32, 97];
    assert LettersEnd(t, 3) == 3 && NextChar(t, 2) == 3;
    assert BlanksEnd(t, 0, 0) == (2, 0);
    assert Cuts(t, 0) == [2] && Cuts(t, 2) == [3] && Cuts(t, 1) == [3];
    assert PatternCut(t, 0) == 1 && PatternCut(t, 1) == 3;
    assert t[0..2] == [32, 32] && t[2..3] == [97] && t[0..1] == [32] && t[1..3] == [32, 97];
    assert Pieces(t, 3) == [] && PatternPieces(t, 3) == [];
    assert Pieces(t, 2) == [[97]] && PatternPieces(t, 1) == [[32, 97]];
  }

  /** The blank at pos goes to the letters or the punctuation behind it. */
  predicate Taken(t: Text, pos: nat)
    requires pos < |t|
  {
    pos + 1 < |t| && (LetterAt(t, pos + 1) || (t[pos] == 32 && Punct(t[pos + 1])))
  }

  /** Whether the branch for blanks cuts like the pattern, told from the ends of the run alone. */
  predicate SameCuts(t: Text, pos: nat)
    requires pos < |t|
  {
    AtBlanks(t, pos) ==>
      var (p, last) := BlanksEnd(t, pos, 0);
      || p == |t|
      || (last == 0 && p == pos + 1)
      || (last > 0 && (last == p || (p == last + 1 && !Taken(t, last))))
  }

  lemma {:induction false} RunFacts(t: Text, pos: nat, last: nat, i: nat)
    requires last <= pos <= |t|
    ensures var (p, l) := BlanksEnd(t, pos, last);
      && (p < |t| ==> !Blank(t[p]))
      && (pos <= i < p ==> Blank(t[i]))
      && (pos <= i < p && l <= i ==> !Newline(t[i]) && BlanksEnd(t, i, 0) == (p, 0))
    decreases |t| - pos
  {
    if pos < |t| && Blank(t[pos]) {
      var next := if Newline(t[pos]) then pos + 1 else last;
      RunFacts(t, pos + 1, next, i);
      if i == pos && BlanksEnd(t, pos, last).1 <= pos < BlanksEnd(t, pos, last).0 {
        RunRestart(t, pos + 1, last);
        assert !Newline(t[pos]);
      }
    }
  }

  /** A run without newlines ends at the same place whatever came before it. */
  lemma {:induction false} RunRestart(t: Text, pos: nat, last: nat)
    requires last <= pos <= |t|
    ensures BlanksEnd(t, pos, last).0 == BlanksEnd(t, pos, 0).0
    ensures BlanksEnd(t, pos, last).1 == if BlanksEnd(t, pos, 0).1 == 0 then last else BlanksEnd(t, pos, 0).1
    decreases |t| - pos
  {
    if pos < |t| && Blank(t[pos]) {
      RunRestart(t, pos + 1, if Newline(t[pos]) then pos + 1 else last);
      RunRestart(t, pos + 1, if Newline(t[pos]) then pos + 1 else 0);
    }
  }

  /** At a blank the code takes the branch for blanks exactly when no other branch does. */
  lemma BlankCuts(t: Text, pos: nat)
    requires pos < |t| && AtBlanks(t, pos)
    ensures var (p, last) := BlanksEnd(t, pos, 0);
      pos < p && Cuts(t, pos) == if last == 0 then [p] else if last < p then [last, p] else [last]
  {
    hide BlanksEnd;
  }

  lemma OtherCuts(t: Text, pos: nat)
    requires pos < |t| && !AtBlanks(t, pos)
    ensures |Cuts(t, pos)| == 1
  {
    hide BlanksEnd, LettersEnd, PunctsEnd, NewlinesEnd, DigitsEnd, AlphasEnd, CjkEnd, PeekOne, NextChar;
  }

  /** The match behind the last newline of a run. */
  lemma SecondCut(t: Text, pos: nat, p: nat, last: nat)
    requires pos < |t| && BlanksEnd(t, pos, 0) == (p, last) && 0 < last < p
    ensures PatternCut(t, last) == p <==> p == |t| || (p == last + 1 && !Taken(t, last))
  {
    RunFacts(t, pos, 0, last);
    assert Blank(t[last]) && !Newline(t[last]) && BlanksEnd(t, last, 0) == (p, 0);
    if last + 1 < p {
      RunFacts(t, pos, 0, last + 1);
      assert !Punct(t[last + 1]) && !LetterAt(t, last + 1) by { assert Blank(t[last + 1]); }
      assert AtBlanks(t, last);
    } else if AtBlanks(t, last) {
      assert !Taken(t, last);
    } else {
      TakenCut(t, last);
    }
  }

  /** A blank that is taken ends up in a piece that goes on behind it. */
  lemma TakenCut(t: Text, pos: nat)
    requires pos < |t| && Blank(t[pos]) && !Newline(t[pos]) && !AtBlanks(t, pos)
    ensures Taken(t, pos) && PatternCut(t, pos) > pos + 1
  {
    hide BlanksEnd, NextChar, PeekOne, DigitsEnd, AlphasEnd, CjkEnd;
    if LetterAt(t, pos + 1) {
      LettersGrow(t, pos + 1);
      assert Cuts(t, pos) == [LettersEnd(t, pos + 1)];
    } else {
      PunctsGrow(t, pos + 1);
      assert Cuts(t, pos) == [NewlinesEnd(t, PunctsEnd(t, pos + 1))];
    }
  }

  lemma LettersGrow(t: Text, pos: nat)
    requires pos < |t| && LetterAt(t, pos)
    ensures LettersEnd(t, pos) > pos
  {
    hide NextChar;
  }

  lemma PunctsGrow(t: Text, pos: nat)
    requires pos < |t| && Punct(t[pos])
    ensures NewlinesEnd(t, PunctsEnd(t, pos)) > pos
  {
  }

  /** One step: the code's one or two cuts are the pattern's matches exactly under SameCuts. */
  lemma CutsAgree(t: Text, pos: nat)
    requires pos < |t|
    ensures var cuts := Cuts(t, pos);
      PatternCut(t, pos) == cuts[0] && (|cuts| == 2 ==> PatternCut(t, cuts[0]) == cuts[1]) <==> SameCuts(t, pos)
  {
    if AtBlanks(t, pos) {
      var (p, last) := BlanksEnd(t, pos, 0);
      BlankCuts(t, pos);
      hide BlanksEnd, Cuts, AtBlanks, Taken;
      if 0 < last < p { SecondCut(t, pos, p, last); }
      FirstCut(t, pos, p, last);
    } else {
      OtherCuts(t, pos);
      hide BlanksEnd, Cuts;
    }
  }

  lemma FirstCut(t: Text, pos: nat, p: nat, last: nat)
    requires pos < |t| && AtBlanks(t, pos) && BlanksEnd(t, pos, 0) == (p, last)
    ensures PatternCut(t, pos) == if last > 0 then last else if p == |t| || p == pos + 1 then p else p - 1
  {
    hide BlanksEnd, Cuts, AtBlanks;
  }

  /** Every step from pos on cuts like the pattern. */
  predicate AllSame(t: Text, pos: nat)
    requires pos <= |t|
    decreases |t| - pos
  {
    pos < |t| ==> SameCuts(t, pos) && AllSame(t, LastCut(Cuts(t, pos)))
  }

  /** The pieces are the matches of the pattern exactly when every run of blanks meets the condition. */
  lemma {:induction false} PatternExactly(t: Text, pos: nat)
    requires pos <= |t|
    ensures Pieces(t, pos) == PatternPieces(t, pos) <==> AllSame(t, pos)
    decreases |t| - pos
  {
    hide *;
    if pos == |t| {
      NoPieces(t);
    } else {
      var cuts := Cuts(t, pos);
      CutsAgree(t, pos);
      PatternExactly(t, cuts[|cuts| - 1]);
      PiecesUnfold(t, pos);
      PatternUnfold(t, pos);
      var first := PatternCut(t, pos);
      SameHead(t, pos, cuts[0], first, if |cuts| == 1 then Pieces(t, cuts[0]) else Behind(t, cuts),
               PatternPieces(t, first));
      if first == cuts[0] && |cuts| == 2 {
        PatternUnfold(t, first);
        SameHead(t, first, cuts[1], PatternCut(t, first), Pieces(t, cuts[1]),
                 PatternPieces(t, PatternCut(t, first)));
      }
    }
  }

  lemma NoPieces(t: Text)
    ensures Pieces(t, |t|) == PatternPieces(t, |t|) == [] && AllSame(t, |t|)
  {
  }

  /** The second of two pieces and all that follow. */
  function Behind(t: Text, cuts: seq<nat>): seq<Text>
    requires |cuts| == 2 && cuts[0] <= cuts[1] <= |t|
  {
    [t[cuts[0]..cuts[1]]] + Pieces(t, cuts[1])
  }

  lemma PiecesUnfold(t: Text, pos: nat)
    requires pos < |t|
    ensures var cuts := Cuts(t, pos);
      && (AllSame(t, pos) <==> SameCuts(t, pos) && AllSame(t, cuts[|cuts| - 1]))
      && Pieces(t, pos) == [t[pos..cuts[0]]] + (if |cuts| == 1 then Pieces(t, cuts[0]) else Behind(t, cuts))
      && (|cuts| == 2 ==> Behind(t, cuts) == [t[cuts[0]..cuts[1]]] + Pieces(t, cuts[1]))
  {
    hide Cuts, SameCuts;
  }

  lemma PatternUnfold(t: Text, pos: nat)
    requires pos < |t|
    ensures PatternPieces(t, pos) == [t[pos..PatternCut(t, pos)]] + PatternPieces(t, PatternCut(t, pos))
  {
    hide PatternCut;
  }

  lemma SameHead(t: Text, pos: nat, a: nat, b: nat, restA: seq<Text>, restB: seq<Text>)
    requires pos < a <= |t| && pos < b <= |t|
    ensures [t[pos..a]] + restA == [t[pos..b]] + restB <==> a == b && restA == restB
  {
    var x, y := [t[pos..a]] + restA, [t[pos..b]] + restB;
    if x == y {
      assert x[0] == y[0] && |t[pos..a]| == a - pos && |t[pos..b]| == b - pos;
      assert x[1..] == restA && y[1..] == restB;
    }
  }
}
