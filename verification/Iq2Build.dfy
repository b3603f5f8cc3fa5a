/**
 Building the IQ2_XXS map and neighbour lists in two passes, gguf-tools/quants.c:717-794.
 */
module Iq2Build {
  import opened Iq2Grid
  import opened Iq2Index

  /** What the construction needs of the table of allowed tuples. */
  ghost predicate IsGrid(g: seq<nat>) {
    |g| == GRID_SIZE && Increasing(g) && forall k :: 0 <= k < GRID_SIZE ==> g[k] < MAP_SIZE
  }

  lemma GridIsGrid()
    ensures IsGrid(Grid())
  {
    GridIncreasing();
    hide Rows;
  }

  function Shells(g: seq<nat>, i: nat): (n: nat)
    requires |g| > 0
    ensures 0 < n <= |g|
  {
    var s := Sort(Distances(g, i));
    ScanNotEmpty(s);
    ScanEnd(s, 0, s[0].0, 1)
  }

  lemma ScanNotEmpty(s: seq<Pair>)
    requires |s| > 0
    ensures ScanEnd(s, 0, s[0].0, 1) > 0
  {
  }

  /** The indices of the first n pairs. */
  function Indices(s: seq<Pair>, n: nat): (r: seq<nat>)
    requires n <= |s|
    ensures |r| == n && forall j :: 0 <= j < n ==> r[j] == s[j].1
  {
    seq(n, j requires 0 <= j < n => s[j].1)
  }

  /** The neighbours of tuple i, nearest first. */
  function Neighbours(g: seq<nat>, i: nat): (r: seq<nat>)
    requires |g| > 0
    ensures 0 < |r| <= |g|
  {
    Indices(Sort(Distances(g, i)), Shells(g, i))
  }

  /** The lists of all tuples below i that are not allowed, each behind its length. */
  function Filled(g: seq<nat>, i: nat): seq<nat>
    requires |g| > 0
  {
    if i == 0 then []
    else if i - 1 in g then Filled(g, i - 1)
    else Filled(g, i - 1) + ([|Neighbours(g, i - 1)|] + Neighbours(g, i - 1))
  }

  lemma {:induction false} FilledGrows(g: seq<nat>, i: nat, j: nat)
    requires |g| > 0 && i <= j
    ensures |Filled(g, i)| <= |Filled(g, j)| && Filled(g, j)[..|Filled(g, i)|] == Filled(g, i)
    decreases j
  {
    hide Neighbours;
    if i < j {
      FilledGrows(g, i, j - 1);
      assert Filled(g, j - 1) <= Filled(g, j);
    }
  }

  // ---- what the lists hold ----------------------------------------------------------------------

  lemma SortedPairs(g: seq<nat>, i: nat, j: nat)
    requires j < |Sort(Distances(g, i))|
    ensures var p := Sort(Distances(g, i))[j]; p.1 < |g| && p == (Distance(g[p.1], i, 8), p.1)
  {
    var s := Sort(Distances(g, i));
    assert s[j] in multiset(s);
    assert s[j] in multiset(Distances(g, i));
    assert s[j] in Distances(g, i);
  }

  lemma EveryIndexSorted(g: seq<nat>, i: nat, k: nat)
    requires k < |g|
    ensures exists j :: 0 <= j < |Sort(Distances(g, i))| && Sort(Distances(g, i))[j] == (Distance(g[k], i, 8), k)
  {
    var s := Sort(Distances(g, i));
    assert Distances(g, i)[k] in multiset(Distances(g, i));
    assert Distances(g, i)[k] in multiset(s);
    assert Distances(g, i)[k] in s;
  }

  /** Grid point k is at one of the two smallest distances from tuple i. */
  ghost predicate InNearestShells(g: seq<nat>, i: nat, k: nat)
    requires k < |g|
  {
    forall a, b :: 0 <= a < |g| && 0 <= b < |g|
      && Distance(g[a], i, 8) < Distance(g[k], i, 8) && Distance(g[b], i, 8) < Distance(g[k], i, 8)
      ==> Distance(g[a], i, 8) == Distance(g[b], i, 8)
  }

  lemma ShellsAgree(g: seq<nat>, i: nat, k: nat)
    requires k < |g|
    ensures InTwoShells(Sort(Distances(g, i)), Distance(g[k], i, 8)) <==> InNearestShells(g, i, k)
  {
    hide Distance, Sort;
    var s := Sort(Distances(g, i));
    var d := Distance(g[k], i, 8);
    if InTwoShells(s, d) {
      forall a, b | 0 <= a < |g| && 0 <= b < |g| && Distance(g[a], i, 8) < d && Distance(g[b], i, 8) < d
        ensures Distance(g[a], i, 8) == Distance(g[b], i, 8)
      {
        EveryIndexSorted(g, i, a);
        EveryIndexSorted(g, i, b);
        var x :| 0 <= x < |s| && s[x] == (Distance(g[a], i, 8), a);
        var y :| 0 <= y < |s| && s[y] == (Distance(g[b], i, 8), b);
      }
    }
    if InNearestShells(g, i, k) {
      forall x, y | 0 <= x < |s| && 0 <= y < |s| && s[x].0 < d && s[y].0 < d
        ensures s[x].0 == s[y].0
      {
        SortedPairs(g, i, x);
        SortedPairs(g, i, y);
      }
    }
  }

  /** The list of a tuple holds exactly the grid points of its two nearest shells. */
  lemma NeighboursAreShells(g: seq<nat>, i: nat, k: nat)
    requires k < |g|
    ensures k in Neighbours(g, i) <==> InNearestShells(g, i, k)
  {
    hide Distance, Sort, ScanEnd, InNearestShells, InTwoShells;
    var s := Sort(Distances(g, i));
    SortSorted(Distances(g, i));
    ShellsAgree(g, i, k);
    EveryIndexSorted(g, i, k);
    var j :| 0 <= j < |s| && s[j] == (Distance(g[k], i, 8), k);
    ScanIsTwoShells(s, j);
    if k in Neighbours(g, i) {
      var m :| 0 <= m < |Neighbours(g, i)| && Neighbours(g, i)[m] == k;
      assert s[m].1 == k;
      SortedPairs(g, i, m);
      ScanIsTwoShells(s, m);
    }
    if InNearestShells(g, i, k) {
      assert Neighbours(g, i)[j] == k;
    }
  }

  lemma NeighboursInGrid(g: seq<nat>, i: nat)
    requires |g| > 0
    ensures forall j :: 0 <= j < |Neighbours(g, i)| ==> Neighbours(g, i)[j] < |g|
  {
    hide Distance, Sort, ScanEnd;
    forall j | 0 <= j < |Neighbours(g, i)|
      ensures Neighbours(g, i)[j] < |g|
    {
      SortedPairs(g, i, j);
    }
  }

  // ---- the built index -------------------------------------------------------------------------------

  /** What the finished map holds for tuple u. */
  ghost predicate MapEntry(g: seq<nat>, u: nat, entry: int)
    requires |g| > 0
  {
    if u in g then 0 <= entry < |g| && g[entry] == u else entry == -(|Filled(g, u)| + 1)
  }

  ghost predicate Built(g: seq<nat>, table: seq<int>, neighbours: seq<nat>)
    requires |g| > 0
  {
    && |table| == MAP_SIZE && neighbours == Filled(g, MAP_SIZE)
    && forall u :: 0 <= u < MAP_SIZE ==> MapEntry(g, u, table[u])
  }

  /** The list that a negative map entry leads to: a length and that many grid indices. */
  lemma ListOfEntry(g: seq<nat>, table: seq<int>, neighbours: seq<nat>, u: nat)
    requires |g| > 0 && Built(g, table, neighbours) && u < MAP_SIZE && table[u] < 0
    ensures u !in g
    ensures var start := -table[u] - 1;
      && start < |neighbours| && neighbours[start] == |Neighbours(g, u)| > 0
      && start + 1 + neighbours[start] <= |neighbours|
      && neighbours[start + 1..start + 1 + neighbours[start]] == Neighbours(g, u)
  {
    hide Neighbours;
    var start := |Filled(g, u)|;
    var list := [|Neighbours(g, u)|] + Neighbours(g, u);
    assert MapEntry(g, u, table[u]);
    FilledGrows(g, u + 1, MAP_SIZE);
    assert Filled(g, u + 1) == Filled(g, u) + list;
    PartOf(neighbours, Filled(g, u), list);
  }

  lemma PartOf(all: seq<nat>, before: seq<nat>, list: seq<nat>)
    requires |before| + |list| <= |all| && all[..|before| + |list|] == before + list && |list| > 0
    ensures all[|before|] == list[0] && all[|before| + 1..|before| + |list|] == list[1..]
  {
    var prefix := all[..|before| + |list|];
    assert all[|before|] == prefix[|before|];
    assert all[|before| + 1..|before| + |list|] == prefix[|before| + 1..];
    assert prefix[|before| + 1..] == list[1..];
  }

  // ---- the loops ---------------------------------------------------------------------------------------

  method ComputeDistances(g: seq<nat>, i: nat) returns (dist2: seq<Pair>)
    ensures dist2 == Distances(g, i)
  {
    hide Digit;
    dist2 := [];
    var j := 0;
    while j < |g|
      invariant 0 <= j <= |g| && |dist2| == j
      invariant forall m :: 0 <= m < j ==> dist2[m] == (Distance(g[m], i, 8), m)
    {
      var d2, k := 0, 0;
      while k < 8
        invariant 0 <= k <= 8 && d2 == Distance(g[j], i, k)
      {
        var e := Position(Digit(g[j], k)) - Position(Digit(i, k));
        SquareNat(e);
        d2 := d2 + e * e;
        k := k + 1;
      }
      dist2 := dist2 + [(d2, j)];
      j := j + 1;
    }
  }

  /** The counting scan of the first pass. */
  method CountShells(s: seq<Pair>) returns (n: nat)
    requires |s| > 0
    ensures n == ScanEnd(s, 0, s[0].0, 1)
  {
    var d2, have, j := s[0].0, 1, 0;
    n := 0;
    while j < |s|
      invariant 0 <= j <= |s| && n == j
      invariant ScanEnd(s, j, d2, have) == ScanEnd(s, 0, s[0].0, 1)
    {
      if s[j].0 > d2 {
        if have == SHELLS { break; }
        d2 := s[j].0;
        have := have + 1;
      }
      n := n + 1;
      j := j + 1;
    }
  }

  /** The same scan in the second pass, which writes the indices behind `counter`. */
  method FillShells(s: seq<Pair>, neighbours: array<nat>, counter: nat) returns (n: nat)
    requires |s| > 0 && counter + ScanEnd(s, 0, s[0].0, 1) <= neighbours.Length
    modifies neighbours
    ensures n == ScanEnd(s, 0, s[0].0, 1)
    ensures neighbours[..counter] == old(neighbours[..counter])
    ensures neighbours[counter..counter + n] == Indices(s, n)
  {
    var d2, have, j := s[0].0, 1, 0;
    n := 0;
    while j < |s|
      invariant 0 <= j <= |s| && n == j <= ScanEnd(s, 0, s[0].0, 1)
      invariant ScanEnd(s, j, d2, have) == ScanEnd(s, 0, s[0].0, 1)
      invariant forall i :: 0 <= i < counter ==> neighbours[i] == old(neighbours[i])
      invariant forall i :: 0 <= i < n ==> neighbours[counter + i] == s[i].1
    {
      if s[j].0 > d2 {
        if have == SHELLS { break; }
        d2 := s[j].0;
        have := have + 1;
      }
      neighbours[counter + n] := s[j].1;
      n := n + 1;
      j := j + 1;
    }
  }

  /** Every allowed tuple gets its index, every other tuple -1. */
  method MapGrid(g: seq<nat>) returns (table: array<int>)
    requires IsGrid(g)
    ensures fresh(table) && table.Length == MAP_SIZE
    ensures forall u :: 0 <= u < MAP_SIZE ==> if u in g then 0 <= table[u] < |g| && g[table[u]] == u else table[u] == -1
  {
    table := new int[MAP_SIZE](_ => -1);
    var k := 0;
    while k < |g|
      invariant 0 <= k <= |g|
      invariant forall u :: 0 <= u < MAP_SIZE ==>
        if u in g[..k] then 0 <= table[u] < k && g[table[u]] == u else table[u] == -1
    {
      assert g[..k + 1] == g[..k] + [g[k]];
      table[g[k]] := k;
      k := k + 1;
    }
    assert g[..k] == g;
  }

  /** The first pass: how much room the lists need. */
  method CountSpace(g: seq<nat>, table: array<int>) returns (numNeighbors: nat, numNotInMap: nat)
    requires |g| > 0 && table.Length == MAP_SIZE && forall u :: 0 <= u < MAP_SIZE ==> (table[u] >= 0 <==> u in g)
    ensures numNeighbors + numNotInMap == |Filled(g, MAP_SIZE)|
  {
    hide ScanEnd, Distances, Sort, MAP_SIZE;
    numNeighbors, numNotInMap := 0, 0;
    var i := 0;
    while i < MAP_SIZE
      invariant 0 <= i <= MAP_SIZE && numNeighbors + numNotInMap == |Filled(g, i)|
    {
      if table[i] < 0 {
        numNotInMap := numNotInMap + 1;
        var dist2 := ComputeDistances(g, i);
        var n := CountShells(Sort(dist2));
        numNeighbors := numNeighbors + n;
      }
      i := i + 1;
    }
  }

  /** The map while the second pass is at tuple i. */
  ghost predicate PartlyBuilt(g: seq<nat>, table: seq<int>, i: nat)
    requires |g| > 0
  {
    |table| == MAP_SIZE && forall u :: 0 <= u < MAP_SIZE ==>
      if u < i then MapEntry(g, u, table[u])
      else if u in g then 0 <= table[u] < |g| && g[table[u]] == u else table[u] == -1
  }

  lemma PartStep(g: seq<nat>, before: seq<int>, after: seq<int>, i: nat)
    requires |g| > 0 && i < MAP_SIZE && PartlyBuilt(g, before, i) && |after| == MAP_SIZE
    requires before[i] >= 0 ==> after == before
    requires before[i] < 0 ==> after[i] == -(|Filled(g, i)| + 1)
    requires forall u :: 0 <= u < MAP_SIZE && u != i ==> after[u] == before[u]
    ensures before[i] < 0 <==> i !in g
    ensures PartlyBuilt(g, after, i + 1)
  {
    hide Filled;
  }

  /** ds4q_iq2_xxs_init: the first pass predicts exactly the space the second fills. */
  method BuildIndex(g: seq<nat>) returns (table: array<int>, neighbours: array<nat>)
    requires IsGrid(g)
    ensures Built(g, table[..], neighbours[..])
    ensures neighbours.Length == |Filled(g, MAP_SIZE)|
  {
    table := MapGrid(g);
    assert PartlyBuilt(g, table[..], 0);
    var numNeighbors, numNotInMap := CountSpace(g, table);
    neighbours := new nat[numNeighbors + numNotInMap](_ => 0);
    hide Filled, PartlyBuilt, MapEntry;
    FillLists(g, table, neighbours);
    AllBuilt(g, table[..]);
  }

  /** The second pass. */
  method FillLists(g: seq<nat>, table: array<int>, neighbours: array<nat>)
    requires |g| > 0 && table.Length == MAP_SIZE && PartlyBuilt(g, table[..], 0)
    requires neighbours.Length == |Filled(g, MAP_SIZE)|
    modifies table, neighbours
    ensures PartlyBuilt(g, table[..], MAP_SIZE) && neighbours[..] == Filled(g, MAP_SIZE)
  {
    var counter, i := 0, 0;
    assert Filled(g, 0) == [];
    hide Filled, PartlyBuilt;
    while i < MAP_SIZE
      invariant 0 <= i <= MAP_SIZE && counter == |Filled(g, i)| <= neighbours.Length
      invariant neighbours[..counter] == Filled(g, i)
      invariant PartlyBuilt(g, table[..], i)
    {
      counter := FillTuple(g, i, table, neighbours, counter);
      i := i + 1;
    }
    assert neighbours[..] == neighbours[..counter];
  }

  method FillTuple(g: seq<nat>, i: nat, table: array<int>, neighbours: array<nat>, counter0: nat) returns (counter: nat)
    requires |g| > 0 && i < MAP_SIZE && table.Length == MAP_SIZE && PartlyBuilt(g, table[..], i)
    requires neighbours.Length == |Filled(g, MAP_SIZE)| && counter0 == |Filled(g, i)| <= neighbours.Length
    requires neighbours[..counter0] == Filled(g, i)
    modifies table, neighbours
    ensures counter == |Filled(g, i + 1)| <= neighbours.Length && neighbours[..counter] == Filled(g, i + 1)
    ensures PartlyBuilt(g, table[..], i + 1)
  {
    hide Filled, PartlyBuilt;
    counter := counter0;
    ghost var before := table[..];
    FilledGrows(g, i + 1, MAP_SIZE);
    NegativeIsOutside(g, before, i);
    if table[i] < 0 {
      counter := AddList(g, i, table, neighbours, counter);
    } else {
      SkipStep(g, i);
    }
    PartStep(g, before, table[..], i);
  }

  lemma NegativeIsOutside(g: seq<nat>, table: seq<int>, i: nat)
    requires |g| > 0 && i < MAP_SIZE && PartlyBuilt(g, table, i)
    ensures |table| == MAP_SIZE && (table[i] < 0 <==> i !in g)
  {
    hide Filled;
  }

  lemma SkipStep(g: seq<nat>, i: nat)
    requires |g| > 0 && i in g
    ensures Filled(g, i + 1) == Filled(g, i)
  {
  }

  lemma AllBuilt(g: seq<nat>, table: seq<int>)
    requires |g| > 0 && PartlyBuilt(g, table, MAP_SIZE)
    ensures Built(g, table, Filled(g, MAP_SIZE))
  {
    hide Filled;
  }

  /** One step of the second pass: the list of tuple i behind its length. */
  method AddList(g: seq<nat>, i: nat, table: array<int>, neighbours: array<nat>, counter0: nat) returns (counter: nat)
    requires |g| > 0 && i < table.Length && i !in g && counter0 == |Filled(g, i)| <= neighbours.Length
    requires |Filled(g, i + 1)| <= neighbours.Length && neighbours[..counter0] == Filled(g, i)
    modifies table, neighbours
    ensures counter == |Filled(g, i + 1)| && neighbours[..counter] == Filled(g, i + 1)
    ensures table[i] == -(counter0 + 1) && forall u :: 0 <= u < table.Length && u != i ==> table[u] == old(table[u])
  {
    hide ScanEnd, Distances, Sort;
    counter := counter0;
    var dist2 := ComputeDistances(g, i);
    var s := Sort(dist2);
    table[i] := -(counter + 1);
    var start := counter;
    counter := counter + 1;
    var n := FillShells(s, neighbours, counter);
    counter := counter + n;
    neighbours[start] := n;
    assert neighbours[..counter] == neighbours[..start] + [neighbours[start]] + neighbours[start + 1..counter];
    assert neighbours[start + 1..counter] == Neighbours(g, i);
  }
}
