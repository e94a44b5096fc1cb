/** Where contours of conrec.c cross a spoke or a side, they go on: two pieces meet there, or one ends at the border. */
module Watertight {
  import opened Conrec
  import opened EndCounts
  import opened Pieces
  import opened Pruning
  import opened Triangles

  /** Side or spoke p-q is the same as r-s, in either direction. */
  predicate SameEdge(p: Node, q: Node, r: Node, s: Node)
  {
    (p == r && q == s) || (p == s && q == r)
  }

  ghost predicate Crosses(g: Grid, level: real, p: Node, q: Node)
  {
    p.In(g) && q.In(g) && Opposite(Height(g, level, p), Height(g, level, q))
  }

  // ----- one triangle

  /** 1 when p-q is an edge of the triangle. */
  function EdgeOf(n1: Node, n2: Node, n3: Node, p: Node, q: Node): nat
  {
    One(SameEdge(p, q, n1, n2) || SameEdge(p, q, n2, n3) || SameEdge(p, q, n3, n1))
  }

  lemma CrossesEdge(g: Grid, level: real, p: Node, q: Node, r: Node, s: Node)
    requires r.In(g) && s.In(g) && SameEdge(p, q, r, s)
    ensures Crosses(g, level, p, q) == Opposite(Height(g, level, r), Height(g, level, s))
  {
    hide Height;
  }

  lemma OneEdge(n1: Node, n2: Node, n3: Node, p: Node, q: Node)
    requires n1 != n2 && n2 != n3 && n3 != n1
    ensures !(SameEdge(p, q, n1, n2) && SameEdge(p, q, n2, n3))
    ensures !(SameEdge(p, q, n2, n3) && SameEdge(p, q, n3, n1))
    ensures !(SameEdge(p, q, n3, n1) && SameEdge(p, q, n1, n2))
  {
  }

  /** How many of the three edges are p-q and have ends on opposite sides of the level. */
  ghost function OppositeEdges(h1: real, h2: real, h3: real, n1: Node, n2: Node, n3: Node, p: Node, q: Node): nat
  {
    One(SameEdge(p, q, n1, n2) && Opposite(h1, h2)) + One(SameEdge(p, q, n2, n3) && Opposite(h2, h3))
    + One(SameEdge(p, q, n3, n1) && Opposite(h3, h1))
  }

  /** In every case the piece ends on exactly those edges. */
  lemma CaseTouches(v: nat, h1: real, h2: real, h3: real, n1: Node, n2: Node, n3: Node, p: Node, q: Node)
    requires 1 <= v <= 9 && Means(v, h1, h2, h3)
    ensures One(SameEnd(CaseEnds(v, n1, n2, n3).0, Between(p, q)))
      + One(SameEnd(CaseEnds(v, n1, n2, n3).1, Between(p, q)))
         == OppositeEdges(h1, h2, h3, n1, n2, n3, p, q)
  {
    SameNotOpposite(h1, h2, h3);
    ZeroNotOpposite(h1, h2, h3);
    BetweenEdge(n1, n2, p, q);
    BetweenEdge(n2, n3, p, q);
    BetweenEdge(n3, n1, p, q);
    hide SameEdge, Opposite, SameSide, SameEnd;
  }

  lemma BetweenEdge(r: Node, s: Node, p: Node, q: Node)
    ensures SameEnd(Between(r, s), Between(p, q)) == SameEdge(p, q, r, s)
    ensures !SameEnd(At(r), Between(p, q))
  {
  }

  lemma ZeroNotOpposite(h1: real, h2: real, h3: real)
    ensures h1 == 0.0 || h2 == 0.0 ==> !Opposite(h1, h2)
    ensures h2 == 0.0 || h3 == 0.0 ==> !Opposite(h2, h3)
    ensures h3 == 0.0 || h1 == 0.0 ==> !Opposite(h3, h1)
  {
  }

  lemma SameNotOpposite(h1: real, h2: real, h3: real)
    ensures SameSide(h1, h2) ==> !Opposite(h1, h2)
    ensures SameSide(h2, h3) ==> !Opposite(h2, h3)
    ensures SameSide(h3, h1) ==> !Opposite(h3, h1)
    ensures SameSide(h1, h2) && SameSide(h2, h3) ==> SameSide(h3, h1)
    ensures Opposite(h1, h2) && Opposite(h2, h3) ==> !Opposite(h3, h1)
    ensures Opposite(h2, h3) && Opposite(h3, h1) ==> !Opposite(h1, h2)
    ensures Opposite(h3, h1) && Opposite(h1, h2) ==> !Opposite(h2, h3)
  {
  }

  lemma EdgeCrossings(g: Grid, level: real, n1: Node, n2: Node, n3: Node, p: Node, q: Node)
    requires Triangle(g, n1, n2, n3)
    ensures OppositeEdges(Height(g, level, n1), Height(g, level, n2), Height(g, level, n3), n1, n2, n3, p, q)
         == if Crosses(g, level, p, q) then EdgeOf(n1, n2, n3, p, q) else 0
  {
    if SameEdge(p, q, n1, n2) { CrossesEdge(g, level, p, q, n1, n2); }
    if SameEdge(p, q, n2, n3) { CrossesEdge(g, level, p, q, n2, n3); }
    if SameEdge(p, q, n3, n1) { CrossesEdge(g, level, p, q, n3, n1); }
    OneEdge(n1, n2, n3, p, q);
    hide Height, Opposite, SameEdge, Crosses;
  }

  /** In every triangle exactly the sign-changing edges are met, once each. */
  lemma TriangleEnds(g: Grid, level: real, k: nat, n1: Node, n2: Node, n3: Node, p: Node, q: Node)
    requires Triangle(g, n1, n2, n3)
    ensures EndsOn(TrianglePieces(g, level, k, n1, n2, n3), k, Between(p, q))
         == if Crosses(g, level, p, q) then EdgeOf(n1, n2, n3, p, q) else 0
  {
    var h1, h2, h3 := Height(g, level, n1), Height(g, level, n2), Height(g, level, n3);
    TableMeans(h1, h2, h3);
    EdgeCrossings(g, level, n1, n2, n3, p, q);
    hide CaseValue, Height, Opposite, SameSide, SameEdge, Crosses, EndsOn, EdgeOf, SameEnd;
    NoEnds(k, Between(p, q));
    var v := CaseOf(g, level, n1, n2, n3);
    if v != 0 {
      var e := CaseEnds(v, n1, n2, n3);
      OnePiece(Piece(k, e.0, e.1), Between(p, q));
      CaseTouches(v, h1, h2, h3, n1, n2, n3, p, q);
    } else {
      NothingOpposite(h1, h2, h3);
    }
  }

  lemma NothingOpposite(h1: real, h2: real, h3: real)
    requires Means(0, h1, h2, h3)
    ensures !Opposite(h1, h2) && !Opposite(h2, h3) && !Opposite(h3, h1)
  {
  }

  // ----- one cell

  /** In how many triangles m, ..., 4 of the cell p-q is an edge. */
  function EdgesFrom(i: int, j: int, m: nat, p: Node, q: Node): nat
    requires 1 <= m <= 5
    decreases 5 - m
  {
    if m == 5 then 0
    else EdgeOf(Vertex(i, j, m), Vertex(i, j, 0), Vertex(i, j, if m != 4 then m + 1 else 1), p, q)
         + EdgesFrom(i, j, m + 1, p, q)
  }

  lemma {:induction false} CellEnds(g: Grid, level: real, k: nat, i: int, j: int, m: nat, p: Node, q: Node)
    requires 1 <= m <= 5 && g.IsCell(i, j)
    ensures EndsOn(TrianglesFrom(g, level, k, i, j, m), k, Between(p, q))
         == if Crosses(g, level, p, q) then EdgesFrom(i, j, m, p, q) else 0
    decreases 5 - m
  {
    if m < 5 {
      var n1, n2, n3 := Vertex(i, j, m), Vertex(i, j, 0), Vertex(i, j, if m != 4 then m + 1 else 1);
      CellTriangle(g, i, j, m);
      CellEnds(g, level, k, i, j, m + 1, p, q);
      TriangleEnds(g, level, k, n1, n2, n3, p, q);
      EndsAdd(TrianglePieces(g, level, k, n1, n2, n3), TrianglesFrom(g, level, k, i, j, m + 1), k, Between(p, q));
      hide TrianglePieces, Crosses, EdgeOf, EndsOn, Vertex;
    }
  }

  lemma SpokeEdges(i: int, j: int, a: int, b: int, m: nat)
    requires 1 <= m <= 4
    ensures EdgesFrom(i, j, 1, Centre(a, b), Vertex(a, b, m)) == 2 * One(i == a && j == b)
  {
    assert EdgesFrom(i, j, 5, Centre(a, b), Vertex(a, b, m)) == 0;
    assert EdgesFrom(i, j, 3, Centre(a, b), Vertex(a, b, m))
        == One(i == a && j == b && (m == 3 || m == 4)) + One(i == a && j == b && (m == 4 || m == 1));
  }

  lemma FlatEdges(i: int, j: int, a: int, b: int)
    ensures EdgesFrom(i, j, 1, Corner(a, b), Corner(a + 1, b)) == One(i == a && j == b) + One(i == a && j == b - 1)
  {
    assert EdgesFrom(i, j, 5, Corner(a, b), Corner(a + 1, b)) == 0;
    assert EdgesFrom(i, j, 3, Corner(a, b), Corner(a + 1, b)) == One(i == a && j == b - 1);
  }

  lemma UprightEdges(i: int, j: int, a: int, b: int)
    ensures EdgesFrom(i, j, 1, Corner(a, b), Corner(a, b + 1)) == One(j == b && i == a) + One(j == b && i == a - 1)
  {
    assert EdgesFrom(i, j, 5, Corner(a, b), Corner(a, b + 1)) == 0;
    assert EdgesFrom(i, j, 3, Corner(a, b), Corner(a, b + 1)) == One(j == b && i == a);
  }

  /** The count of a cell, for all cells at once. */
  lemma CellCounts(g: Grid, z: seq<real>, k: nat, i: int, j: int, p: Node, q: Node)
    requires k < |z|
    ensures CellCount(g, z, k, i, j, Between(p, q))
         == if g.IsCell(i, j) && Crosses(g, z[k], p, q) then EdgesFrom(i, j, 1, p, q) else 0
  {
    if g.IsCell(i, j) { CellEnds(g, z[k], k, i, j, 1, p, q); }
    hide EndsOn, TrianglesFrom, Crosses, EdgesFrom;
  }

  // ----- the whole grid

  /** A spoke of cell (a, b) whose ends have opposite signs is the end of two pieces, any other of none. */
  lemma SpokeMeetsTwo(g: Grid, z: seq<real>, k: nat, a: int, b: int, m: nat)
    requires k < |z| && Increasing(z) && g.IsCell(a, b) && 1 <= m <= 4
    ensures EndsOn(Contours(g, z), k, Between(Centre(a, b), Vertex(a, b, m)))
         == if Crosses(g, z[k], Centre(a, b), Vertex(a, b, m)) then 2 else 0
  {
    var p, q := Centre(a, b), Vertex(a, b, m);
    hide Increasing, Contours, EndsOn, Crosses, EdgesFrom, CellCount, Vertex;
    forall i: int, j: int ensures CellCount(g, z, k, i, j, Between(p, q))
      == if g.IsCell(i, j) && Crosses(g, z[k], p, q) then 2 * One(i == a && j == b) else 0
    {
      CellCounts(g, z, k, i, j, p, q);
      SpokeEdges(i, j, a, b, m);
    }
    ScanEnds(g, z, k, a, b, Between(p, q));
  }

  /** A sign-changing side is the end of one piece for each cell beside it: two inside the grid, one on its border. */
  lemma FlatSideMeets(g: Grid, z: seq<real>, k: nat, a: int, b: int)
    requires k < |z| && Increasing(z) && g.Valid()
    ensures EndsOn(Contours(g, z), k, Between(Corner(a, b), Corner(a + 1, b)))
         == if Crosses(g, z[k], Corner(a, b), Corner(a + 1, b)) then One(g.IsCell(a, b)) + One(g.IsCell(a, b - 1))
           else 0
  {
    var p, q := Corner(a, b), Corner(a + 1, b);
    hide Increasing, Contours, EndsOn, Crosses, EdgesFrom, CellCount, Grid.IsCell;
    forall i: int, j: int ensures CellCount(g, z, k, i, j, Between(p, q))
      == if g.IsCell(i, j) && Crosses(g, z[k], p, q) then One(i == a && j == b) + One(i == a && j == b - 1) else 0
    {
      CellCounts(g, z, k, i, j, p, q);
      FlatEdges(i, j, a, b);
    }
    ScanEnds(g, z, k, a, b, Between(p, q));
  }

  lemma UprightSideMeets(g: Grid, z: seq<real>, k: nat, a: int, b: int)
    requires k < |z| && Increasing(z) && g.Valid()
    ensures EndsOn(Contours(g, z), k, Between(Corner(a, b), Corner(a, b + 1)))
         == if Crosses(g, z[k], Corner(a, b), Corner(a, b + 1)) then One(g.IsCell(a, b)) + One(g.IsCell(a - 1, b))
           else 0
  {
    var p, q := Corner(a, b), Corner(a, b + 1);
    hide Increasing, Contours, EndsOn, Crosses, EdgesFrom, CellCount, Grid.IsCell;
    forall i: int, j: int ensures CellCount(g, z, k, i, j, Between(p, q))
      == if g.IsCell(i, j) && Crosses(g, z[k], p, q) then One(j == b && i == a) + One(j == b && i == a - 1) else 0
    {
      CellCounts(g, z, k, i, j, p, q);
      UprightEdges(i, j, a, b);
    }
    ScanEnds(g, z, k, a, b, Between(p, q));
  }

  /** A spoke of a cell, or a side between neighbouring grid points. */
  ghost predicate Edge(g: Grid, p: Node, q: Node)
  {
    || (p.Centre? && q.Corner? && g.IsCell(p.i, p.j) && p.i <= q.i <= p.i + 1 && p.j <= q.j <= p.j + 1)
    || (p.Corner? && q.Corner? && p.In(g) && q.In(g) && q.i == p.i + 1 && q.j == p.j)
    || (p.Corner? && q.Corner? && p.In(g) && q.In(g) && q.i == p.i && q.j == p.j + 1)
  }

  /** A side that runs along the border of the grid. */
  ghost predicate OnBorder(g: Grid, p: Node, q: Node)
  {
    && p.Corner? && q.Corner?
    && ((p.j == q.j && (p.j == g.jlb || p.j == g.jub)) || (p.i == q.i && (p.i == g.ilb || p.i == g.iub)))
  }

  lemma EdgeMeets(g: Grid, z: seq<real>, k: nat, p: Node, q: Node)
    requires k < |z| && Increasing(z) && g.Valid() && Edge(g, p, q) && Crosses(g, z[k], p, q)
    requires g.ilb < g.iub && g.jlb < g.jub
    ensures EndsOn(Contours(g, z), k, Between(p, q)) == if OnBorder(g, p, q) then 1 else 2
  {
    hide Increasing, Crosses, Contours, EndsOn;
    if p.Centre? {
      var m: nat := if q.j == p.j then (if q.i == p.i then 1 else 2) else if q.i == p.i then 4 else 3;
      assert q == Vertex(p.i, p.j, m);
      SpokeMeetsTwo(g, z, k, p.i, p.j, m);
    } else if q.j == p.j {
      FlatSideMeets(g, z, k, p.i, p.j);
    } else {
      UprightSideMeets(g, z, k, p.i, p.j);
    }
  }

  lemma VertexEdges(g: Grid, i: int, j: int, m: nat)
    requires g.IsCell(i, j) && 1 <= m <= 4
    ensures var n1, n2, n3 := Vertex(i, j, m), Vertex(i, j, 0), Vertex(i, j, if m != 4 then m + 1 else 1);
      Edge(g, n2, n1) && Edge(g, n2, n3) && (Edge(g, n3, n1) || Edge(g, n1, n3))
  {
  }

  ghost predicate EndMeans(g: Grid, level: real, n1: Node, n2: Node, n3: Node, e: End)
  {
    match e
    case At(n) => (n == n1 || n == n2 || n == n3) && n.In(g) && Height(g, level, n) == 0.0
    case Between(r, s) =>
      && (e == Between(n1, n2) || e == Between(n2, n3) || e == Between(n3, n1))
      && Crosses(g, level, r, s)
  }

  /** The ends of a piece of a triangle: vertices on the level, and sign-changing edges. */
  lemma EndsAreCrossings(g: Grid, level: real, n1: Node, n2: Node, n3: Node, p: Piece)
    requires Triangle(g, n1, n2, n3) && p in TrianglePieces(g, level, p.k, n1, n2, n3)
    ensures EndMeans(g, level, n1, n2, n3, p.e1) && EndMeans(g, level, n1, n2, n3, p.e2)
  {
    TableMeans(Height(g, level, n1), Height(g, level, n2), Height(g, level, n3));
    hide Height, CaseValue;
  }

  /** An end that lies between two vertices crosses an edge; an end at a vertex lies on the level. */
  lemma EndOnEdge(g: Grid, z: seq<real>, s: Piece, e: End, i: int, j: int, m: nat)
    requires PieceOf(g, z, s, i, j, m) && (e == s.e1 || e == s.e2)
    ensures g.ilb < g.iub && g.jlb < g.jub
    ensures e.Between? ==> Crosses(g, z[s.k], e.p, e.q) && (Edge(g, e.p, e.q) || Edge(g, e.q, e.p))
    ensures e.At? ==> e.n.In(g) && Height(g, z[s.k], e.n) == 0.0
  {
    CellTriangle(g, i, j, m);
    VertexEdges(g, i, j, m);
    var n1, n2, n3 := Vertex(i, j, m), Vertex(i, j, 0), Vertex(i, j, if m != 4 then m + 1 else 1);
    EndsAreCrossings(g, z[s.k], n1, n2, n3, s);
    hide Height, Vertex, TrianglePieces, Edge, Crosses;
  }

  lemma Origin(g: Grid, z: seq<real>, s: Piece) returns (i: int, j: int, m: nat)
    requires g.Valid() && |z| > 0 && s in Contours(g, z)
    ensures s.k < |z| && PieceOf(g, z, s, i, j, m)
  {
    hide RowsDown;
    RowsOfGrid(g, z, g.jub - 1);
    assert OfGrid(g, z, s);
    i, j, m :| PieceOf(g, z, s, i, j, m);
  }

  lemma CrossesBack(g: Grid, level: real, p: Node, q: Node)
    requires Crosses(g, level, p, q)
    ensures Crosses(g, level, q, p) && OnBorder(g, p, q) == OnBorder(g, q, p)
  {
  }

  /** Where a piece crosses an edge, exactly one more piece of its contour does, or the edge is on the border. */
  lemma CrossingGoesOn(g: Grid, z: seq<real>, s: Piece, e: End)
    requires g.Valid() && |z| > 0 && Increasing(z) && s in Contours(g, z) && (e == s.e1 || e == s.e2) && e.Between?
    ensures s.k < |z| && Crosses(g, z[s.k], e.p, e.q)
    ensures EndsOn(Contours(g, z), s.k, e) == if OnBorder(g, e.p, e.q) then 1 else 2
  {
    hide *;
    var i: int, j: int, m: nat := Origin(g, z, s);
    EndOnEdge(g, z, s, e, i, j, m);
    if Edge(g, e.p, e.q) {
      EdgeMeets(g, z, s.k, e.p, e.q);
    } else {
      CrossesBack(g, z[s.k], e.p, e.q);
      EdgeMeets(g, z, s.k, e.q, e.p);
      EndsSwap(Contours(g, z), s.k, e.p, e.q);
    }
  }
}
