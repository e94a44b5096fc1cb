/** Where the pieces of a scan come from, and that every one of them can be drawn. */
module Pieces {
  import opened Conrec
  import opened Triangles

  /** The piece of level p.k in triangle m of cell (i, j). */
  ghost predicate PieceOf(g: Grid, z: seq<real>, p: Piece, i: int, j: int, m: nat)
  {
    && p.k < |z| && g.IsCell(i, j) && 1 <= m <= 4
    && p in TrianglePieces(g, z[p.k], p.k, Vertex(i, j, m), Vertex(i, j, 0), Vertex(i, j, if m != 4 then m + 1 else 1))
  }

  ghost predicate OfGrid(g: Grid, z: seq<real>, p: Piece)
  {
    exists i: int, j: int, m: nat :: PieceOf(g, z, p, i, j, m)
  }

  ghost predicate AllOfGrid(g: Grid, z: seq<real>, ps: seq<Piece>)
  {
    forall p :: p in ps ==> OfGrid(g, z, p)
  }

  lemma AllAdd(g: Grid, z: seq<real>, a: seq<Piece>, b: seq<Piece>)
    requires AllOfGrid(g, z, a) && AllOfGrid(g, z, b)
    ensures AllOfGrid(g, z, a + b)
  {
  }

  lemma NoneOfGrid(g: Grid, z: seq<real>)
    ensures AllOfGrid(g, z, [])
  {
  }

  lemma TrianglePieceOf(g: Grid, z: seq<real>, k: nat, i: int, j: int, m: nat)
    requires k < |z| && g.IsCell(i, j) && 1 <= m <= 4
    ensures AllOfGrid(g, z, TrianglePieces(g, z[k], k, Vertex(i, j, m), Vertex(i, j, 0),
      Vertex(i, j, if m != 4 then m + 1 else 1)))
  {
    var ps := TrianglePieces(g, z[k], k, Vertex(i, j, m), Vertex(i, j, 0), Vertex(i, j, if m != 4 then m + 1 else 1));
    forall p | p in ps ensures OfGrid(g, z, p) {
      assert PieceOf(g, z, p, i, j, m);
    }
  }

  lemma {:induction false} CellOfGrid(g: Grid, z: seq<real>, k: nat, i: int, j: int, m: nat)
    requires k < |z| && g.IsCell(i, j) && 1 <= m <= 5
    ensures AllOfGrid(g, z, TrianglesFrom(g, z[k], k, i, j, m))
    decreases 5 - m
  {
    hide AllOfGrid, TrianglePieces;
    if m == 5 {
      NoneOfGrid(g, z);
    } else {
      CellOfGrid(g, z, k, i, j, m + 1);
      TrianglePieceOf(g, z, k, i, j, m);
      AllAdd(g, z, TrianglePieces(g, z[k], k, Vertex(i, j, m), Vertex(i, j, 0),
        Vertex(i, j, if m != 4 then m + 1 else 1)),
             TrianglesFrom(g, z[k], k, i, j, m + 1));
    }
  }

  lemma {:induction false} LevelsOfGrid(g: Grid, z: seq<real>, i: int, j: int, k: nat)
    requires k <= |z| && g.IsCell(i, j)
    ensures AllOfGrid(g, z, LevelsFrom(g, z, i, j, k))
    decreases |z| - k
  {
    hide AllOfGrid, TrianglesFrom, Lowest, Highest;
    NoneOfGrid(g, z);
    if k < |z| {
      LevelsOfGrid(g, z, i, j, k + 1);
      CellOfGrid(g, z, k, i, j, 1);
      AllAdd(g, z, CellPieces(g, z[k], k, i, j), LevelsFrom(g, z, i, j, k + 1));
      AllAdd(g, z, [], LevelsFrom(g, z, i, j, k + 1));
    }
  }

  lemma {:induction false} RowOfGrid(g: Grid, z: seq<real>, i: int, j: int)
    requires g.Valid() && |z| > 0 && g.jlb <= j < g.jub && g.ilb <= i
    ensures AllOfGrid(g, z, RowFrom(g, z, i, j))
    decreases g.iub - i
  {
    hide AllOfGrid, LevelsFrom, Lowest, Highest;
    NoneOfGrid(g, z);
    if i < g.iub {
      LevelsOfGrid(g, z, i, j, 0);
      RowOfGrid(g, z, i + 1, j);
      AllAdd(g, z, CellScan(g, z, i, j), RowFrom(g, z, i + 1, j));
    }
  }

  lemma {:induction false} RowsOfGrid(g: Grid, z: seq<real>, j: int)
    requires g.Valid() && |z| > 0 && j < g.jub
    ensures AllOfGrid(g, z, RowsDown(g, z, j))
    decreases j - g.jlb
  {
    hide AllOfGrid, RowFrom;
    NoneOfGrid(g, z);
    if j >= g.jlb {
      RowOfGrid(g, z, g.ilb, j);
      RowsOfGrid(g, z, j - 1);
      AllAdd(g, z, RowFrom(g, z, g.ilb, j), RowsDown(g, z, j - 1));
    }
  }

  lemma CellTriangle(g: Grid, i: int, j: int, m: nat)
    requires g.IsCell(i, j) && 1 <= m <= 4
    ensures Triangle(g, Vertex(i, j, m), Vertex(i, j, 0), Vertex(i, j, if m != 4 then m + 1 else 1))
  {
  }

  /** No section of a drawn piece divides by zero. */
  lemma PieceDrawable(g: Grid, z: seq<real>, p: Piece)
    requires OfGrid(g, z, p)
    ensures Drawable(g, z, p)
  {
    var i: int, j: int, m: nat :| PieceOf(g, z, p, i, j, m);
    CellTriangle(g, i, j, m);
    var n1, n2, n3 := Vertex(i, j, m), Vertex(i, j, 0), Vertex(i, j, if m != 4 then m + 1 else 1);
    EndsAreZeros(g, z[p.k], n1, n2, n3);
    hide Height, Vertex, CaseValue, CaseEnds, EndWeights;
  }

  /** Two names of one end: a side may be met from either side. */
  predicate SameEnd(e: End, f: End)
  {
    e == f || (e.Between? && f.Between? && e.p == f.q && e.q == f.p)
  }
}
