/** The two range tests of conrec.c skip nothing. */
module Pruning {
  import opened Conrec

  ghost predicate Increasing(z: seq<real>)
  {
    forall a, b :: 0 <= a < b < |z| ==> z[a] <= z[b]
  }

  /** Every level of a cell, with no test at all. */
  function EveryLevel(g: Grid, z: seq<real>, i: int, j: int, k: nat): seq<Piece>
    requires g.IsCell(i, j) && k <= |z|
    decreases |z| - k
  {
    if k == |z| then [] else CellPieces(g, z[k], k, i, j) + EveryLevel(g, z, i, j, k + 1)
  }

  lemma OutOfRangeHeight(g: Grid, level: real, i: int, j: int, m: nat)
    requires g.IsCell(i, j) && m <= 4
    ensures level < Lowest(g, i, j) ==> Height(g, level, Vertex(i, j, m)) > 0.0
    ensures level > Highest(g, i, j) ==> Height(g, level, Vertex(i, j, m)) < 0.0
  {
  }

  /** A level outside the range of a cell leaves no piece in triangles m, ..., 4. */
  lemma {:induction false} OutOfRange(g: Grid, level: real, k: nat, i: int, j: int, m: nat)
    requires g.IsCell(i, j) && 1 <= m <= 5 && (level < Lowest(g, i, j) || level > Highest(g, i, j))
    ensures TrianglesFrom(g, level, k, i, j, m) == []
    decreases 5 - m
  {
    if m < 5 {
      OutOfRange(g, level, k, i, j, m + 1);
      OutOfRangeHeight(g, level, i, j, m);
      OutOfRangeHeight(g, level, i, j, 0);
      OutOfRangeHeight(g, level, i, j, if m != 4 then m + 1 else 1);
      hide Vertex, Height, Lowest, Highest;
    }
  }

  lemma {:induction false} LevelTestLossless(g: Grid, z: seq<real>, i: int, j: int, k: nat)
    requires g.IsCell(i, j) && k <= |z|
    ensures LevelsFrom(g, z, i, j, k) == EveryLevel(g, z, i, j, k)
    decreases |z| - k
  {
    hide Lowest, Highest, TrianglesFrom;
    if k < |z| {
      LevelTestLossless(g, z, i, j, k + 1);
      if z[k] < Lowest(g, i, j) || z[k] > Highest(g, i, j) { OutOfRange(g, z[k], k, i, j, 1); }
    }
  }

  lemma {:induction false} NothingInRange(g: Grid, z: seq<real>, i: int, j: int, k: nat)
    requires g.IsCell(i, j) && k <= |z|
    requires forall l :: 0 <= l < |z| ==> z[l] < Lowest(g, i, j) || z[l] > Highest(g, i, j)
    ensures EveryLevel(g, z, i, j, k) == []
    decreases |z| - k
  {
    hide Lowest, Highest, TrianglesFrom;
    if k < |z| {
      NothingInRange(g, z, i, j, k + 1);
      OutOfRange(g, z[k], k, i, j, 1);
    }
  }

  /** For increasing levels a cell yields what the scan of every level without tests yields. */
  lemma CellTestLossless(g: Grid, z: seq<real>, i: int, j: int)
    requires g.IsCell(i, j) && |z| > 0 && Increasing(z)
    ensures CellScan(g, z, i, j) == EveryLevel(g, z, i, j, 0)
  {
    hide Lowest, Highest, EveryLevel, LevelsFrom;
    LevelTestLossless(g, z, i, j, 0);
    if !(Highest(g, i, j) >= z[0] && Lowest(g, i, j) <= z[|z| - 1]) {
      forall l | 0 <= l < |z| ensures z[l] < Lowest(g, i, j) || z[l] > Highest(g, i, j) {
        assert z[0] <= z[l] <= z[|z| - 1];
      }
      NothingInRange(g, z, i, j, 0);
    }
  }

  /** Rows j, j-1, ... without tests. */
  function EveryRowFrom(g: Grid, z: seq<real>, i: int, j: int): seq<Piece>
    requires g.Valid() && g.jlb <= j < g.jub && g.ilb <= i
    decreases g.iub - i
  {
    if i >= g.iub then [] else EveryLevel(g, z, i, j, 0) + EveryRowFrom(g, z, i + 1, j)
  }

  function EveryRowDown(g: Grid, z: seq<real>, j: int): seq<Piece>
    requires g.Valid() && j < g.jub
    decreases j - g.jlb
  {
    if j < g.jlb then [] else EveryRowFrom(g, z, g.ilb, j) + EveryRowDown(g, z, j - 1)
  }

  lemma {:induction false} RowLossless(g: Grid, z: seq<real>, i: int, j: int)
    requires g.Valid() && |z| > 0 && Increasing(z) && g.jlb <= j < g.jub && g.ilb <= i
    ensures RowFrom(g, z, i, j) == EveryRowFrom(g, z, i, j)
    decreases g.iub - i
  {
    hide CellScan, EveryLevel, Increasing;
    if i < g.iub {
      CellTestLossless(g, z, i, j);
      RowLossless(g, z, i + 1, j);
    }
  }

  lemma {:induction false} RowsLossless(g: Grid, z: seq<real>, j: int)
    requires g.Valid() && |z| > 0 && Increasing(z) && j < g.jub
    ensures RowsDown(g, z, j) == EveryRowDown(g, z, j)
    decreases j - g.jlb
  {
    hide RowFrom, EveryRowFrom, Increasing;
    if j >= g.jlb {
      RowLossless(g, z, g.ilb, j);
      RowsLossless(g, z, j - 1);
    }
  }

  /** For increasing levels both range tests together drop no piece and reorder none. */
  lemma PruningLossless(g: Grid, z: seq<real>)
    requires g.Valid() && |z| > 0 && Increasing(z)
    ensures Contours(g, z) == EveryRowDown(g, z, g.jub - 1)
  {
    hide RowsDown, EveryRowDown, Increasing;
    RowsLossless(g, z, g.jub - 1);
  }

  /** The order of the levels matters: with a higher level first, a cell between them is skipped. */
  lemma UnorderedLevelsLosePieces()
    ensures exists g: Grid, z: seq<real> :: g.Valid() && |z| > 0 && Contours(g, z) != EveryRowDown(g, z, g.jub - 1)
  {
    var g := Grid([[0.0, 0.0], [0.0, 4.0]], [0.0, 1.0], [0.0, 1.0], 0, 1, 0, 1);
    var z := [5.0, 2.0];
    SkippedCell(g, z);
  }

  lemma SkippedCell(g: Grid, z: seq<real>)
    requires g == Grid([[0.0, 0.0], [0.0, 4.0]], [0.0, 1.0], [0.0, 1.0], 0, 1, 0, 1) && z == [5.0, 2.0]
    ensures g.Valid() && Contours(g, z) == [] && EveryRowDown(g, z, g.jub - 1) != []
  {
    assert g.IsCell(0, 0);
    assert CellScan(g, z, 0, 0) == [];
    assert RowFrom(g, z, 1, 0) == [];
    assert RowFrom(g, z, 0, 0) == [];
    assert RowsDown(g, z, -1) == [];
    NotEmpty(g, z);
  }

  lemma NotEmpty(g: Grid, z: seq<real>)
    requires g == Grid([[0.0, 0.0], [0.0, 4.0]], [0.0, 1.0], [0.0, 1.0], 0, 1, 0, 1) && z == [5.0, 2.0]
    ensures g.Valid() && EveryRowDown(g, z, 0) != []
  {
    assert g.IsCell(0, 0);
    var n1, n2, n3 := Vertex(0, 0, 2), Vertex(0, 0, 0), Vertex(0, 0, 3);
    assert Height(g, 2.0, n1) == -2.0 && Height(g, 2.0, n2) == -1.0 && Height(g, 2.0, n3) == 2.0;
    assert TrianglePieces(g, 2.0, 1, n1, n2, n3) != [];
    assert TrianglesFrom(g, 2.0, 1, 0, 0, 2) != [];
    assert CellPieces(g, z[1], 1, 0, 0) != [];
    assert EveryLevel(g, z, 0, 0, 1) != [];
    assert EveryLevel(g, z, 0, 0, 0) != [];
    assert EveryRowFrom(g, z, 0, 0) != [];
  }
}
