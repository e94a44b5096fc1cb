/** How many pieces of a contour end at one place, over the whole scan of conrec.c. */
module EndCounts {
  import opened Conrec
  import opened Pieces
  import opened Pruning

  function One(b: bool): nat { if b then 1 else 0 }

  /** How often pieces of level k end at e, counting both ends of each piece. */
  function EndsOn(ps: seq<Piece>, k: nat, e: End): nat
  {
    if ps == [] then 0
    else (if ps[0].k == k then One(SameEnd(ps[0].e1, e)) + One(SameEnd(ps[0].e2, e)) else 0) + EndsOn(ps[1..], k, e)
  }

  lemma {:induction false} EndsAdd(a: seq<Piece>, b: seq<Piece>, k: nat, e: End)
    ensures EndsOn(a + b, k, e) == EndsOn(a, k, e) + EndsOn(b, k, e)
  {
    hide SameEnd;
    if a == [] {
      assert a + b == b;
    } else {
      assert (a + b)[1..] == a[1..] + b;
      EndsAdd(a[1..], b, k, e);
    }
  }

  lemma {:induction false} EndsSwap(ps: seq<Piece>, k: nat, p: Node, q: Node)
    ensures EndsOn(ps, k, Between(p, q)) == EndsOn(ps, k, Between(q, p))
  {
    if ps != [] { EndsSwap(ps[1..], k, p, q); }
  }

  lemma NoEnds(k: nat, e: End)
    ensures EndsOn([], k, e) == 0
  {
  }

  lemma OnePiece(s: Piece, e: End)
    ensures EndsOn([s], s.k, e) == One(SameEnd(s.e1, e)) + One(SameEnd(s.e2, e))
  {
    assert [s][1..] == [];
  }

  lemma {:induction false} OtherLevel(g: Grid, level: real, k: nat, i: int, j: int, m: nat, k': nat, e: End)
    requires 1 <= m <= 5 && g.IsCell(i, j) && k != k'
    ensures EndsOn(TrianglesFrom(g, level, k, i, j, m), k', e) == 0
    decreases 5 - m
  {
    if m < 5 {
      var n1, n2, n3 := Vertex(i, j, m), Vertex(i, j, 0), Vertex(i, j, if m != 4 then m + 1 else 1);
      CellTriangle(g, i, j, m);
      OtherLevel(g, level, k, i, j, m + 1, k', e);
      var ps := TrianglePieces(g, level, k, n1, n2, n3);
      EndsAdd(ps, TrianglesFrom(g, level, k, i, j, m + 1), k', e);
      if ps != [] { assert ps[1..] == []; }
      hide CaseValue, Height, Vertex, SameEnd;
    }
  }

  /** The count in one cell; 0 where there is no cell. */
  function CellCount(g: Grid, z: seq<real>, k: nat, i: int, j: int, e: End): nat
    requires k < |z|
  {
    if g.IsCell(i, j) then EndsOn(CellPieces(g, z[k], k, i, j), k, e) else 0
  }

  lemma {:induction false} LevelEnds(g: Grid, z: seq<real>, i: int, j: int, l: nat, k: nat, e: End)
    requires k < |z| && g.IsCell(i, j) && l <= |z|
    ensures EndsOn(EveryLevel(g, z, i, j, l), k, e) == if l <= k then CellCount(g, z, k, i, j, e) else 0
    decreases |z| - l
  {
    hide TrianglesFrom, EndsOn;
    NoEnds(k, e);
    if l < |z| {
      LevelEnds(g, z, i, j, l + 1, k, e);
      EndsAdd(CellPieces(g, z[l], l, i, j), EveryLevel(g, z, i, j, l + 1), k, e);
      if l != k { OtherLevel(g, z[l], l, i, j, 1, k, e); }
    }
  }

  /** Only the four cells that meet at grid point (a, b) have pieces that end at e. */
  ghost predicate Around(g: Grid, z: seq<real>, k: nat, a: int, b: int, e: End)
    requires k < |z|
  {
    forall i: int, j: int :: CellCount(g, z, k, i, j, e) > 0 ==> (i == a || i == a - 1) && (j == b || j == b - 1)
  }

  /** The count in the two cells of row j at grid point (a, _). */
  function PairCount(g: Grid, z: seq<real>, k: nat, a: int, j: int, e: End): nat
    requires k < |z|
  {
    CellCount(g, z, k, a, j, e) + CellCount(g, z, k, a - 1, j, e)
  }

  lemma {:induction false} RowEnds(g: Grid, z: seq<real>, i: int, j: int, k: nat, a: int, b: int, e: End)
    requires k < |z| && g.Valid() && g.jlb <= j < g.jub && g.ilb <= i && Around(g, z, k, a, b, e)
    ensures EndsOn(EveryRowFrom(g, z, i, j), k, e)
         == (if i <= a then CellCount(g, z, k, a, j, e) else 0)
           + (if i <= a - 1 then CellCount(g, z, k, a - 1, j, e) else 0)
    decreases g.iub - i
  {
    hide EveryLevel, CellPieces, EndsOn;
    NoEnds(k, e);
    if i < g.iub {
      RowEnds(g, z, i + 1, j, k, a, b, e);
      EndsAdd(EveryLevel(g, z, i, j, 0), EveryRowFrom(g, z, i + 1, j), k, e);
      LevelEnds(g, z, i, j, 0, k, e);
      hide CellCount;
      assert i != a && i != a - 1 ==> CellCount(g, z, k, i, j, e) == 0;
    }
  }

  lemma WholeRow(g: Grid, z: seq<real>, j: int, k: nat, a: int, b: int, e: End)
    requires k < |z| && g.Valid() && g.jlb <= j < g.jub && Around(g, z, k, a, b, e)
    ensures EndsOn(EveryRowFrom(g, z, g.ilb, j), k, e) == PairCount(g, z, k, a, j, e)
    ensures j != b && j != b - 1 ==> PairCount(g, z, k, a, j, e) == 0
  {
    RowEnds(g, z, g.ilb, j, k, a, b, e);
    hide EveryRowFrom, EndsOn;
    assert a < g.ilb ==> CellCount(g, z, k, a, j, e) == 0;
    assert a - 1 < g.ilb ==> CellCount(g, z, k, a - 1, j, e) == 0;
  }

  lemma {:induction false} GridEnds(g: Grid, z: seq<real>, j: int, k: nat, a: int, b: int, e: End)
    requires k < |z| && g.Valid() && j < g.jub && Around(g, z, k, a, b, e)
    ensures EndsOn(EveryRowDown(g, z, j), k, e)
         == (if g.jlb <= b <= j then PairCount(g, z, k, a, b, e) else 0)
          + (if g.jlb <= b - 1 <= j then PairCount(g, z, k, a, b - 1, e) else 0)
    decreases j - g.jlb
  {
    hide EveryRowFrom, PairCount, Around, EndsOn;
    NoEnds(k, e);
    if j >= g.jlb {
      GridEnds(g, z, j - 1, k, a, b, e);
      EndsAdd(EveryRowFrom(g, z, g.ilb, j), EveryRowDown(g, z, j - 1), k, e);
      WholeRow(g, z, j, k, a, b, e);
    }
  }

  lemma NoRow(g: Grid, z: seq<real>, k: nat, a: int, j: int, e: End)
    requires k < |z| && (j < g.jlb || j >= g.jub)
    ensures PairCount(g, z, k, a, j, e) == 0
  {
  }

  /** Over the whole scan the count is that of the four cells. */
  lemma ScanEnds(g: Grid, z: seq<real>, k: nat, a: int, b: int, e: End)
    requires k < |z| && Increasing(z) && g.Valid() && Around(g, z, k, a, b, e)
    ensures EndsOn(Contours(g, z), k, e) == PairCount(g, z, k, a, b, e) + PairCount(g, z, k, a, b - 1, e)
  {
    hide Increasing, EveryRowDown, EndsOn, RowsDown, PairCount, Around;
    PruningLossless(g, z);
    GridEnds(g, z, g.jub - 1, k, a, b, e);
    if b < g.jlb || b >= g.jub { NoRow(g, z, k, a, b, e); }
    if b - 1 < g.jlb || b - 1 >= g.jub { NoRow(g, z, k, a, b - 1, e); }
  }
}
