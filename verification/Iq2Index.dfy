/**
 The map and neighbour lists of IQ2_XXS, gguf-tools/quants.c:671-787: allowed tuples map to their grid index, every
 other tuple to a list of the grid points in its two nearest shells. One pass counts the space, a second fills it.
 */
module Iq2Index {
  import opened Iq2Grid

  const SHELLS: nat := 2

  // ---- tuples -----------------------------------------------------------------------------------

  /** (u >> 2k) & 3 */
  function Digit(u: nat, k: nat): (d: nat)
    requires k < 8
    ensures d < 4
  {
    (if k == 0 then u else if k == 1 then u / 4 else if k == 2 then u / 16 else if k == 3 then u / 64
     else if k == 4 then u / 256 else if k == 5 then u / 1024 else if k == 6 then u / 4096 else u / 16384) % 4
  }

  function Digits(u: nat): (t: seq<nat>)
    ensures |t| == 8 && forall k :: 0 <= k < 8 ==> t[k] == Digit(u, k)
  {
    seq(8, k requires 0 <= k < 8 => Digit(u, k))
  }

  function Power4(k: nat): (p: nat)
    requires k < 8
    ensures p > 0
  {
    if k == 0 then 1 else if k == 1 then 4 else if k == 2 then 16 else if k == 3 then 64
    else if k == 4 then 256 else if k == 5 then 1024 else if k == 6 then 4096 else 16384
  }

  /** The digits of a tuple or-ed together: the first n of them. */
  function Code(t: seq<nat>, n: nat): nat
    requires n <= 8 && |t| == 8
  {
    if n == 0 then 0 else Code(t, n - 1) + t[n - 1] * Power4(n - 1)
  }

  lemma CodeSum(t: seq<nat>)
    requires |t| == 8
    ensures Code(t, 8)
         == t[0] + 4 * t[1] + 16 * t[2] + 64 * t[3] + 256 * t[4] + 1024 * t[5] + 4096 * t[6] + 16384 * t[7]
  {
    CodeStep(t, 0);
    CodeStep(t, 1);
    CodeStep(t, 2);
    CodeStep(t, 3);
    CodeStep(t, 4);
    CodeStep(t, 5);
    CodeStep(t, 6);
    CodeStep(t, 7);
    assert Code(t, 0) == 0;
    hide Code;
  }

  lemma CodeStep(t: seq<nat>, n: nat)
    requires |t| == 8 && n < 8
    ensures Code(t, n + 1) == Code(t, n) + t[n] * Power4(n)
  {
  }

  /** The code of a number's digits is the number. */
  lemma CodeOfDigits(u: nat)
    requires u < 65536
    ensures Code(Digits(u), 8) == u
  {
    CodeSum(Digits(u));
    DigitValues(u);
    hide Code, Digit;
  }

  lemma DigitValues(u: nat)
    requires u < 65536
    ensures u == Digit(u, 0) + 4 * Digit(u, 1) + 16 * Digit(u, 2) + 64 * Digit(u, 3)
              + 256 * Digit(u, 4) + 1024 * Digit(u, 5) + 4096 * Digit(u, 6) + 16384 * Digit(u, 7)
  {
    var r2 := u / 16;
    var r4 := r2 / 16;
    var r6 := r4 / 16;
    TwoDigits(u, r2);
    TwoDigits(r2, r4);
    TwoDigits(r4, r6);
    TwoDigits(r6, r6 / 16);
    Chain(u, r2);
    Chain(r2, r4);
    Chain(r4, r6);
    assert Digit(u, 2) == r2 % 4 && Digit(u, 3) == r2 / 4 % 4;
    assert Digit(u, 4) == r4 % 4 && Digit(u, 5) == r4 / 4 % 4;
    assert Digit(u, 6) == r6 % 4 && Digit(u, 7) == r6 / 4 % 4;
  }

  lemma TwoDigits(u: nat, rest: nat)
    requires rest == u / 16
    ensures u == u % 4 + 4 * (u / 4 % 4) + 16 * rest
  {
  }

  lemma Chain(u: nat, r: nat)
    requires r == u / 16
    ensures u / 64 == r / 4 && u / 256 == r / 16 && u / 1024 == r / 64 && u / 4096 == r / 256 && u / 16384 == r / 1024
  {
  }

  /** Codes of tuples with digits up to 2 fit the map. */
  lemma CodeFitsMap(t: seq<nat>)
    requires |t| == 8 && forall k :: 0 <= k < 8 ==> t[k] <= 2
    ensures Code(t, 8) <= 43690 < MAP_SIZE
  {
    CodeSum(t);
    hide Code;
  }

  // ---- distances -----------------------------------------------------------------------------------

  function Position(digit: nat): int { 2 * digit + 1 }

  /** The squared distance between two tuples over the first n positions. */
  function Distance(a: nat, b: nat, n: nat): (d: nat)
    requires n <= 8
  {
    if n == 0 then 0 else
    var e := Position(Digit(a, n - 1)) - Position(Digit(b, n - 1));
    SquareNat(e);
    Distance(a, b, n - 1) + e * e
  }

  lemma SquareNat(e: int)
    ensures e * e >= 0
  {
  }

  type Pair = (nat, nat)

  /** ds4q_iq2_compare_func: by distance, then by index. */
  predicate AtMost(a: Pair, b: Pair) {
    a.0 < b.0 || (a.0 == b.0 && a.1 <= b.1)
  }

  ghost predicate Sorted(s: seq<Pair>) {
    forall i, j :: 0 <= i < j < |s| ==> AtMost(s[i], s[j])
  }

  function Insert(s: seq<Pair>, x: Pair): (r: seq<Pair>)
    ensures multiset(r) == multiset(s) + multiset{x}
  {
    if |s| == 0 || AtMost(s[|s| - 1], x) then s + [x] else
    assert s == s[..|s| - 1] + [s[|s| - 1]];
    Insert(s[..|s| - 1], x) + [s[|s| - 1]]
  }

  /** Stands for qsort with that comparison. */
  function Sort(s: seq<Pair>): (r: seq<Pair>)
    ensures multiset(r) == multiset(s) && |r| == |s|
  {
    if |s| == 0 then [] else
    assert s == s[..|s| - 1] + [s[|s| - 1]];
    var r := Insert(Sort(s[..|s| - 1]), s[|s| - 1]);
    assert |multiset(r)| == |multiset(s)|;
    r
  }

  lemma {:induction false} InsertSorted(s: seq<Pair>, x: Pair)
    requires Sorted(s)
    ensures Sorted(Insert(s, x))
  {
    if |s| == 0 || AtMost(s[|s| - 1], x) {
    } else {
      var head, last := s[..|s| - 1], s[|s| - 1];
      InsertSorted(head, x);
      var r := Insert(head, x);
      forall i | 0 <= i < |r|
        ensures AtMost(r[i], last)
      {
        assert r[i] in multiset(r);
        assert r[i] == x || r[i] in multiset(head);
      }
    }
  }

  lemma {:induction false} SortSorted(s: seq<Pair>)
    ensures Sorted(Sort(s))
  {
    if |s| == 0 {
    } else {
      SortSorted(s[..|s| - 1]);
      InsertSorted(Sort(s[..|s| - 1]), s[|s| - 1]);
    }
  }

  /** Distance and index of every grid point from tuple i, in index order. */
  function Distances(grid: seq<nat>, i: nat): (r: seq<Pair>)
    ensures |r| == |grid| && forall j :: 0 <= j < |grid| ==> r[j] == (Distance(grid[j], i, 8), j)
  {
    seq(|grid|, j requires 0 <= j < |grid| => (Distance(grid[j], i, 8), j))
  }

  // ---- the two nearest shells -------------------------------------------------------------------------

  /** Where the scan over sorted distances stops, from position j with shell distance d2 and `have` shells met. */
  function ScanEnd(s: seq<Pair>, j: nat, d2: nat, have: nat): (n: nat)
    requires j <= |s|
    ensures j <= n <= |s|
    decreases |s| - j
  {
    if j == |s| then j
    else if s[j].0 > d2 then if have == SHELLS then j else ScanEnd(s, j + 1, s[j].0, have + 1)
    else ScanEnd(s, j + 1, d2, have)
  }

  /** d is one of the two smallest distances: at most one distance is smaller. */
  ghost predicate InTwoShells(s: seq<Pair>, d: nat) {
    forall a, b :: 0 <= a < |s| && 0 <= b < |s| && s[a].0 < d && s[b].0 < d ==> s[a].0 == s[b].0
  }

  /** The scan stops exactly behind the two nearest shells. */
  lemma ScanIsTwoShells(s: seq<Pair>, k: nat)
    requires Sorted(s) && k < |s|
    ensures k < ScanEnd(s, 0, s[0].0, 1) <==> InTwoShells(s, s[k].0)
  {
    ScanInvariant(s, 0, s[0].0, 1, k);
  }

  lemma {:induction false} ScanInvariant(s: seq<Pair>, j: nat, d2: nat, have: nat, k: nat)
    requires Sorted(s) && j <= |s| && k < |s| && 1 <= have <= 2
    requires if j == 0 then d2 == s[0].0 && have == 1 else d2 == s[j - 1].0
    requires have == 1 ==> forall i :: 0 <= i < j ==> s[i].0 == d2
    requires have == 2 ==> s[0].0 < d2 && forall i :: 0 <= i < j ==> s[i].0 == s[0].0 || s[i].0 == d2
    ensures k < ScanEnd(s, j, d2, have) <==> k < j || InTwoShells(s, s[k].0)
    decreases |s| - j
  {
    if j < |s| {
      if s[j].0 > d2 {
        if have == SHELLS {
          if k >= j {
            assert AtMost(s[j], s[k]) || j == k;
            assert s[0].0 < s[k].0 && s[j - 1].0 < s[k].0;
          }
        } else {
          ScanInvariant(s, j + 1, s[j].0, have + 1, k);
          if k == j { NoThird(s, j, d2); }
        }
      } else {
        assert j > 0 ==> AtMost(s[j - 1], s[j]);
        ScanInvariant(s, j + 1, d2, have, k);
        if k == j {
          if have == 1 { NoSmaller(s, j, d2); } else { NoThirdBelow(s, j, d2); }
        }
      }
    }
  }

  lemma SortedDistances(s: seq<Pair>, i: nat, j: nat)
    requires Sorted(s) && i <= j < |s|
    ensures s[i].0 <= s[j].0
  {
    if i < j { assert AtMost(s[i], s[j]); }
  }

  lemma NoSmaller(s: seq<Pair>, j: nat, d2: nat)
    requires Sorted(s) && j < |s| && s[j].0 == s[0].0
    ensures InTwoShells(s, s[j].0)
  {
    forall a | 0 <= a < |s|
      ensures s[j].0 <= s[a].0
    {
      SortedDistances(s, 0, a);
    }
  }

  lemma NoThird(s: seq<Pair>, j: nat, d2: nat)
    requires Sorted(s) && j < |s| && d2 < s[j].0 && forall i :: 0 <= i < j ==> s[i].0 == d2
    ensures InTwoShells(s, s[j].0)
  {
    forall a | j <= a < |s|
      ensures s[j].0 <= s[a].0
    {
      SortedDistances(s, j, a);
    }
  }

  lemma NoThirdBelow(s: seq<Pair>, j: nat, d2: nat)
    requires Sorted(s) && j < |s| && s[j].0 == d2
    requires forall i :: 0 <= i < j ==> s[i].0 == s[0].0 || s[i].0 == d2
    ensures InTwoShells(s, s[j].0)
  {
    forall a | j <= a < |s|
      ensures s[j].0 <= s[a].0
    {
      SortedDistances(s, j, a);
    }
  }
}
