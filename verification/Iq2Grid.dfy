/**
 The allowed 8-tuples of IQ2_XXS, gguf-tools/quants.c:698-715: a tuple of digits 0..3 is read as a number in base 4.
 */
module Iq2Grid {

  const GRID_SIZE: nat := 256
  const MAP_SIZE: nat := 43692

  function Row0(): seq<nat> {
    [0, 2, 5, 8, 10, 17, 20, 32, 34, 40, 42, 65, 68, 80, 88, 97]
  }

  function Row1(): seq<nat> {
    [100, 128, 130, 138, 162, 257, 260, 272, 277, 320, 388, 408, 512, 514, 546, 642]
  }

  function Row2(): seq<nat> {
    [1025, 1028, 1040, 1057, 1060, 1088, 1090, 1096, 1120, 1153, 1156, 1168, 1188, 1280, 1282, 1288]
  }

  function Row3(): seq<nat> {
    [1312, 1350, 1385, 1408, 1425, 1545, 1552, 1600, 1668, 1700, 2048, 2053, 2056, 2068, 2088, 2113]
  }

  function Row4(): seq<nat> {
    [2116, 2128, 2130, 2184, 2308, 2368, 2562, 2580, 4097, 4100, 4112, 4129, 4160, 4192, 4228, 4240]
  }

  function Row5(): seq<nat> {
    [4245, 4352, 4360, 4384, 4432, 4442, 4480, 4644, 4677, 5120, 5128, 5152, 5157, 5193, 5248, 5400]
  }

  function Row6(): seq<nat> {
    [5474, 5632, 5654, 6145, 6148, 6160, 6208, 6273, 6400, 6405, 6560, 6737, 8192, 8194, 8202, 8260]
  }

  function Row7(): seq<nat> {
    [8289, 8320, 8322, 8489, 8520, 8704, 8706, 9217, 9220, 9232, 9280, 9302, 9472, 9537, 9572, 9872]
  }

  function Row8(): seq<nat> {
    [10248, 10272, 10388, 10820, 16385, 16388, 16400, 16408, 16417, 16420, 16448, 16456, 16470, 16480, 16513, 16516]
  }

  function Row9(): seq<nat> {
    [16528, 16640, 16672, 16737, 16768, 16773, 16897, 16912, 16968, 16982, 17000, 17408, 17416, 17440, 17536, 17561]
  }

  function Row10(): seq<nat> {
    [17682, 17700, 17920, 18433, 18436, 18448, 18496, 18501, 18688, 18776, 18785, 18818, 19013, 19088, 20480, 20488]
  }

  function Row11(): seq<nat> {
    [20497, 20505, 20512, 20608, 20616, 20740, 20802, 20900, 21137, 21648, 21650, 21770, 22017, 22100, 22528, 22545]
  }

  function Row12(): seq<nat> {
    [22553, 22628, 22848, 23048, 24580, 24592, 24640, 24680, 24832, 24917, 25112, 25184, 25600, 25605, 25872, 25874]
  }

  function Row13(): seq<nat> {
    [25988, 26690, 32768, 32770, 32778, 32833, 32898, 33028, 33048, 33088, 33297, 33793, 33796, 33808, 33813, 33856]
  }

  function Row14(): seq<nat> {
    [33888, 34048, 34118, 34196, 34313, 34368, 34400, 34818, 35076, 35345, 36868, 36880, 36900, 36928, 37025, 37142]
  }

  function Row15(): seq<nat> {
    [37248, 37445, 37888, 37922, 37956, 38225, 39041, 39200, 40962, 41040, 41093, 41225, 41472, 42008, 43088, 43268]
  }


  function Row(r: nat): seq<nat>
    requires r < 16
  {
    if r < 8 then
      if r == 0 then Row0() else if r == 1 then Row1() else if r == 2 then Row2() else if r == 3 then Row3()
      else if r == 4 then Row4() else if r == 5 then Row5() else if r == 6 then Row6() else Row7()
    else
      if r == 8 then Row8() else if r == 9 then Row9() else if r == 10 then Row10() else if r == 11 then Row11()
      else if r == 12 then Row12() else if r == 13 then Row13() else if r == 14 then Row14() else Row15()
  }

  ghost predicate Increasing(s: seq<nat>) {
    forall i, j :: 0 <= i < j < |s| ==> s[i] < s[j]
  }

  /** The first n rows of the table. */
  function Rows(n: nat): seq<nat>
    requires n <= 16
  {
    if n == 0 then [] else Rows(n - 1) + Row(n - 1)
  }

  /** kgrid */
  function Grid(): seq<nat> { Rows(16) }

  /** Consecutive comparisons of one row of sixteen. */
  predicate RowIncreasing(s: seq<nat>)
    requires |s| == 16
  {
    && s[0] < s[1] < s[2] < s[3] < s[4] < s[5] < s[6] < s[7] < s[8]
    && s[8] < s[9] < s[10] < s[11] < s[12] < s[13] < s[14] < s[15]
  }

  lemma RowIsIncreasing(s: seq<nat>)
    requires |s| == 16 && RowIncreasing(s)
    ensures Increasing(s)
  {
  }

  lemma RowFact0()
    ensures |Row0()| == 16 && RowIncreasing(Row0()) && Row0()[15] < Row1()[0]
  {
  }

  lemma RowFact1()
    ensures |Row1()| == 16 && RowIncreasing(Row1()) && Row1()[15] < Row2()[0]
  {
  }

  lemma RowFact2()
    ensures |Row2()| == 16 && RowIncreasing(Row2()) && Row2()[15] < Row3()[0]
  {
  }

  lemma RowFact3()
    ensures |Row3()| == 16 && RowIncreasing(Row3()) && Row3()[15] < Row4()[0]
  {
  }

  lemma RowFact4()
    ensures |Row4()| == 16 && RowIncreasing(Row4()) && Row4()[15] < Row5()[0]
  {
  }

  lemma RowFact5()
    ensures |Row5()| == 16 && RowIncreasing(Row5()) && Row5()[15] < Row6()[0]
  {
  }

  lemma RowFact6()
    ensures |Row6()| == 16 && RowIncreasing(Row6()) && Row6()[15] < Row7()[0]
  {
  }

  lemma RowFact7()
    ensures |Row7()| == 16 && RowIncreasing(Row7()) && Row7()[15] < Row8()[0]
  {
  }

  lemma RowFact8()
    ensures |Row8()| == 16 && RowIncreasing(Row8()) && Row8()[15] < Row9()[0]
  {
  }

  lemma RowFact9()
    ensures |Row9()| == 16 && RowIncreasing(Row9()) && Row9()[15] < Row10()[0]
  {
  }

  lemma RowFact10()
    ensures |Row10()| == 16 && RowIncreasing(Row10()) && Row10()[15] < Row11()[0]
  {
  }

  lemma RowFact11()
    ensures |Row11()| == 16 && RowIncreasing(Row11()) && Row11()[15] < Row12()[0]
  {
  }

  lemma RowFact12()
    ensures |Row12()| == 16 && RowIncreasing(Row12()) && Row12()[15] < Row13()[0]
  {
  }

  lemma RowFact13()
    ensures |Row13()| == 16 && RowIncreasing(Row13()) && Row13()[15] < Row14()[0]
  {
  }

  lemma RowFact14()
    ensures |Row14()| == 16 && RowIncreasing(Row14()) && Row14()[15] < Row15()[0]
  {
  }

  lemma RowFact15()
    ensures |Row15()| == 16 && RowIncreasing(Row15()) && Row15()[15] < MAP_SIZE
  {
  }

  lemma RowFacts(r: nat)
    requires r < 16
    ensures |Row(r)| == 16 && RowIncreasing(Row(r))
    ensures if r < 15 then |Row(r + 1)| == 16 && Row(r)[15] < Row(r + 1)[0] else Row(r)[15] < MAP_SIZE
  {
    hide RowIncreasing, Row0, Row1, Row2, Row3, Row4, Row5, Row6, Row7, Row8, Row9, Row10, Row11, Row12, Row13,
         Row14, Row15;
    RowFact0();
    RowFact1();
    RowFact2();
    RowFact3();
    RowFact4();
    RowFact5();
    RowFact6();
    RowFact7();
    RowFact8();
    RowFact9();
    RowFact10();
    RowFact11();
    RowFact12();
    RowFact13();
    RowFact14();
    RowFact15();
  }

  lemma Appended(a: seq<nat>, b: seq<nat>)
    requires Increasing(a) && Increasing(b) && |a| > 0 && |b| > 0 && a[|a| - 1] < b[0]
    ensures Increasing(a + b)
  {
    var s := a + b;
    forall i, j | 0 <= i < j < |s|
      ensures s[i] < s[j]
    {
      if i < |a| <= j {
        assert a[i] <= a[|a| - 1] < b[0] <= b[j - |a|];
      }
    }
  }

  lemma RowsStep(n: nat)
    requires 0 < n <= 16
    ensures Rows(n) == if n == 1 then Row(0) else Rows(n - 1) + Row(n - 1)
  {
    hide Row;
    if n == 1 { assert [] + Row(0) == Row(0); }
  }

  lemma {:induction false} RowsIncreasing(n: nat)
    requires 0 < n <= 16
    ensures |Rows(n)| == 16 * n && Increasing(Rows(n)) && Rows(n)[16 * n - 1] == Row(n - 1)[15]
  {
    hide *;
    RowsStep(n);
    RowFacts(n - 1);
    RowIsIncreasing(Row(n - 1));
    if n > 1 {
      RowsIncreasing(n - 1);
      RowFacts(n - 2);
      Appended(Rows(n - 1), Row(n - 1));
    }
  }

  /** The table is strictly increasing and fits the map. */
  lemma GridIncreasing()
    ensures |Grid()| == GRID_SIZE && Increasing(Grid()) && forall k :: 0 <= k < GRID_SIZE ==> Grid()[k] < MAP_SIZE
  {
    hide Row, Rows, RowIncreasing;
    RowsIncreasing(16);
    RowFacts(15);
    var g := Grid();
    assert forall k :: 0 <= k < GRID_SIZE ==> g[k] <= g[GRID_SIZE - 1];
  }
}
