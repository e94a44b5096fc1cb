/** Where contours of conrec.c pass through a vertex that lies on the level. */
module Junctions {
  import opened Conrec
  import opened EndCounts
  import opened Pieces
  import opened Pruning
  import opened Triangles
  import opened Watertight

  /** How many pieces of a triangle end at its vertex of height h, when the other two have heights x and y. */
  ghost function Passes(centre: bool, h: real, x: real, y: real): nat
  {
    One(h == 0.0 && !SameSide(x, y) && !(centre && x == 0.0 && y == 0.0))
  }

  /** The same for a vertex n of the triangle (n1, n2, n3), n2 being the centre of the cell. */
  ghost function PassesAt(h1: real, h2: real, h3: real, n1: Node, n2: Node, n3: Node, n: Node): nat
  {
    (if n == n1 then Passes(false, h1, h2, h3) else 0) + (if n == n2 then Passes(true, h2, h3, h1) else 0)
    + (if n == n3 then Passes(false, h3, h1, h2) else 0)
  }

  lemma CaseVertices(v: nat, h1: real, h2: real, h3: real, n1: Node, n2: Node, n3: Node, n: Node)
    requires v <= 9 && Means(v, h1, h2, h3) && n1 != n2 && n2 != n3 && n3 != n1
    ensures PassesAt(h1, h2, h3, n1, n2, n3, n)
         == if v == 0 then 0
            else One(SameEnd(CaseEnds(v, n1, n2, n3).0, At(n))) + One(SameEnd(CaseEnds(v, n1, n2, n3).1, At(n)))
  {
  }

  lemma TriangleVertexEnds(g: Grid, level: real, k: nat, n1: Node, n2: Node, n3: Node, n: Node)
    requires Triangle(g, n1, n2, n3)
    ensures EndsOn(TrianglePieces(g, level, k, n1, n2, n3), k, At(n))
         == PassesAt(Height(g, level, n1), Height(g, level, n2), Height(g, level, n3), n1, n2, n3, n)
  {
    var h1, h2, h3 := Height(g, level, n1), Height(g, level, n2), Height(g, level, n3);
    TableMeans(h1, h2, h3);
    hide CaseValue, Height, Means, EndsOn, PassesAt, SameEnd;
    NoEnds(k, At(n));
    var v := CaseOf(g, level, n1, n2, n3);
    CaseVertices(v, h1, h2, h3, n1, n2, n3, n);
    if v != 0 {
      var e := CaseEnds(v, n1, n2, n3);
      OnePiece(Piece(k, e.0, e.1), At(n));
    }
  }

  /** Triangles m, ..., 4 of a cell. */
  ghost function PassesFrom(g: Grid, level: real, i: int, j: int, m: nat, n: Node): nat
    requires g.IsCell(i, j) && 1 <= m <= 5
    decreases 5 - m
  {
    if m == 5 then 0
    else
      var n1, n2, n3 := Vertex(i, j, m), Vertex(i, j, 0), Vertex(i, j, if m != 4 then m + 1 else 1);
      PassesAt(Height(g, level, n1), Height(g, level, n2), Height(g, level, n3), n1, n2, n3, n)
        + PassesFrom(g, level, i, j, m + 1, n)
  }

  lemma {:induction false} CellVertexEnds(g: Grid, level: real, k: nat, i: int, j: int, m: nat, n: Node)
    requires g.IsCell(i, j) && 1 <= m <= 5
    ensures EndsOn(TrianglesFrom(g, level, k, i, j, m), k, At(n)) == PassesFrom(g, level, i, j, m, n)
    decreases 5 - m
  {
    if m < 5 {
      var n1, n2, n3 := Vertex(i, j, m), Vertex(i, j, 0), Vertex(i, j, if m != 4 then m + 1 else 1);
      CellTriangle(g, i, j, m);
      CellVertexEnds(g, level, k, i, j, m + 1, n);
      TriangleVertexEnds(g, level, k, n1, n2, n3, n);
      EndsAdd(TrianglePieces(g, level, k, n1, n2, n3), TrianglesFrom(g, level, k, i, j, m + 1), k, At(n));
      hide TrianglePieces, PassesAt, EndsOn, Vertex, Height;
    }
  }

  /** Height of vertex m of a cell. */
  ghost function H(g: Grid, level: real, i: int, j: int, m: nat): real
    requires g.IsCell(i, j) && m <= 4
  {
    Height(g, level, Vertex(i, j, m))
  }

  /** The two triangles of a cell that meet at its corner m. */
  ghost function CornerPasses(g: Grid, level: real, i: int, j: int, m: nat): nat
    requires g.IsCell(i, j) && 1 <= m <= 4
  {
    var h := H(g, level, i, j, m);
    Passes(false, h, H(g, level, i, j, 0), H(g, level, i, j, if m != 4 then m + 1 else 1))
    + Passes(false, h, H(g, level, i, j, if m != 1 then m - 1 else 4), H(g, level, i, j, 0))
  }

  /** The four triangles around the centre of a cell. */
  ghost function CentrePasses(g: Grid, level: real, i: int, j: int): nat
    requires g.IsCell(i, j)
  {
    var h := H(g, level, i, j, 0);
    var h1, h2, h3, h4 := H(g, level, i, j, 1), H(g, level, i, j, 2), H(g, level, i, j, 3), H(g, level, i, j, 4);
    Passes(true, h, h2, h1) + Passes(true, h, h3, h2) + Passes(true, h, h4, h3) + Passes(true, h, h1, h4)
  }

  lemma FourTriangles(g: Grid, level: real, i: int, j: int, n: Node)
    requires g.IsCell(i, j)
    ensures PassesFrom(g, level, i, j, 1, n)
         == PassesAt(H(g, level, i, j, 1), H(g, level, i, j, 0), H(g, level, i, j, 2), Vertex(i, j, 1),
           Vertex(i, j, 0), Vertex(i, j, 2), n)
          + PassesAt(H(g, level, i, j, 2), H(g, level, i, j, 0), H(g, level, i, j, 3), Vertex(i, j, 2),
            Vertex(i, j, 0), Vertex(i, j, 3), n)
          + PassesAt(H(g, level, i, j, 3), H(g, level, i, j, 0), H(g, level, i, j, 4), Vertex(i, j, 3),
            Vertex(i, j, 0), Vertex(i, j, 4), n)
          + PassesAt(H(g, level, i, j, 4), H(g, level, i, j, 0), H(g, level, i, j, 1), Vertex(i, j, 4),
            Vertex(i, j, 0), Vertex(i, j, 1), n)
  {
    hide PassesAt, Height, Vertex;
    assert PassesFrom(g, level, i, j, 5, n) == 0;
    var p4 := PassesFrom(g, level, i, j, 4, n);
    var p3 := PassesFrom(g, level, i, j, 3, n);
    var p2 := PassesFrom(g, level, i, j, 2, n);
  }

  lemma VerticesDiffer(i: int, j: int, m: nat, l: nat)
    requires m <= 4 && l <= 4
    ensures Vertex(i, j, m) == Vertex(i, j, l) <==> m == l
  {
  }

  lemma AllVerticesDiffer(i: int, j: int, m: nat)
    requires m <= 4
    ensures forall l: nat {:trigger Vertex(i, j, l)} :: l <= 4 ==> (Vertex(i, j, m) == Vertex(i, j, l) <==> m == l)
  {
    forall l: nat {:trigger Vertex(i, j, l)} | l <= 4 ensures Vertex(i, j, m) == Vertex(i, j, l) <==> m == l {
      VerticesDiffer(i, j, m, l);
    }
  }

  lemma VertexPasses(g: Grid, level: real, i: int, j: int, m: nat)
    requires g.IsCell(i, j) && m <= 4
    ensures PassesFrom(g, level, i, j, 1, Vertex(i, j, m))
         == if m == 0 then CentrePasses(g, level, i, j) else CornerPasses(g, level, i, j, m)
  {
    FourTriangles(g, level, i, j, Vertex(i, j, m));
    AllVerticesDiffer(i, j, m);
    hide H, Vertex, PassesFrom, Passes;
  }

  lemma OtherPasses(g: Grid, level: real, i: int, j: int, n: Node)
    requires g.IsCell(i, j) && forall l: nat {:trigger Vertex(i, j, l)} :: l <= 4 ==> n != Vertex(i, j, l)
    ensures PassesFrom(g, level, i, j, 1, n) == 0
  {
    FourTriangles(g, level, i, j, n);
    hide H, Vertex, PassesFrom, Passes;
  }

  // ----- the whole grid

  /** The corner of cell (i, j) that is grid point (a, b), or 5 when it is none. */
  function CornerNumber(i: int, j: int, a: int, b: int): (m: nat)
    ensures 1 <= m <= 5
  {
    if i == a && j == b then 1 else if i == a - 1 && j == b then 2
    else if i == a - 1 && j == b - 1 then 3 else if i == a && j == b - 1 then 4 else 5
  }

  lemma CornerNumberIs(i: int, j: int, a: int, b: int)
    ensures var m := CornerNumber(i, j, a, b);
      if m <= 4 then Vertex(i, j, m) == Corner(a, b)
      else forall l: nat {:trigger Vertex(i, j, l)} :: l <= 4 ==> Corner(a, b) != Vertex(i, j, l)
  {
  }

  lemma CornerCounts(g: Grid, z: seq<real>, k: nat, i: int, j: int, a: int, b: int)
    requires k < |z|
    ensures var m := CornerNumber(i, j, a, b);
      CellCount(g, z, k, i, j, At(Corner(a, b))) == if g.IsCell(i, j) && m <= 4 then CornerPasses(g, z[k], i, j, m)
        else 0
  {
    CornerNumberIs(i, j, a, b);
    hide EndsOn, PassesFrom, CornerPasses, Vertex, TrianglesFrom, CornerNumber;
    if g.IsCell(i, j) {
      CellVertexEnds(g, z[k], k, i, j, 1, Corner(a, b));
      var m := CornerNumber(i, j, a, b);
      if m <= 4 { VertexPasses(g, z[k], i, j, m); } else { OtherPasses(g, z[k], i, j, Corner(a, b)); }
    }
  }

  lemma CentreCounts(g: Grid, z: seq<real>, k: nat, i: int, j: int, a: int, b: int)
    requires k < |z|
    ensures CellCount(g, z, k, i, j, At(Centre(a, b)))
         == if g.IsCell(i, j) && i == a && j == b then CentrePasses(g, z[k], i, j) else 0
  {
    if g.IsCell(i, j) {
      CellVertexEnds(g, z[k], k, i, j, 1, Centre(a, b));
      if i == a && j == b { VertexPasses(g, z[k], i, j, 0); } else { OtherPasses(g, z[k], i, j, Centre(a, b)); }
    }
    hide EndsOn, PassesFrom, CentrePasses, TrianglesFrom;
  }

  /** The pieces that end at the centre of a cell are those of its four triangles. */
  lemma CentreEnds(g: Grid, z: seq<real>, k: nat, a: int, b: int)
    requires k < |z| && Increasing(z) && g.IsCell(a, b)
    ensures EndsOn(Contours(g, z), k, At(Centre(a, b))) == CentrePasses(g, z[k], a, b)
  {
    hide Increasing, Contours, EndsOn, CentrePasses, CellCount;
    forall i: int, j: int ensures CellCount(g, z, k, i, j, At(Centre(a, b)))
      == if g.IsCell(i, j) && i == a && j == b then CentrePasses(g, z[k], i, j) else 0
    {
      CentreCounts(g, z, k, i, j, a, b);
    }
    ScanEnds(g, z, k, a, b, At(Centre(a, b)));
  }

  /** A grid point that is not on the border. */
  predicate Inner(g: Grid, a: int, b: int)
  {
    g.Valid() && g.ilb < a < g.iub && g.jlb < b < g.jub
  }

  /** The pieces that end at an inner grid point are those of the eight triangles around it. */
  lemma CornerEnds(g: Grid, z: seq<real>, k: nat, a: int, b: int)
    requires k < |z| && Increasing(z) && Inner(g, a, b)
    ensures EndsOn(Contours(g, z), k, At(Corner(a, b)))
         == CornerPasses(g, z[k], a, b, 1) + CornerPasses(g, z[k], a - 1, b, 2)
          + CornerPasses(g, z[k], a, b - 1, 4) + CornerPasses(g, z[k], a - 1, b - 1, 3)
  {
    hide Increasing, Contours, EndsOn, CornerPasses, CellCount;
    forall i: int, j: int ensures var m := CornerNumber(i, j, a, b);
      CellCount(g, z, k, i, j, At(Corner(a, b))) == if g.IsCell(i, j) && m <= 4 then CornerPasses(g, z[k], i, j, m)
        else 0
    {
      CornerCounts(g, z, k, i, j, a, b);
    }
    ScanEnds(g, z, k, a, b, At(Corner(a, b)));
  }

  /** Around a circle of heights it never happens that exactly one pair of neighbours is not on the same side. */
  lemma NeverOneOfEight(a: real, b: real, c: real, d: real, e: real, f: real, g: real, h: real)
    ensures One(!SameSide(a, b)) + One(!SameSide(b, c)) + One(!SameSide(c, d)) + One(!SameSide(d, e))
          + One(!SameSide(e, f)) + One(!SameSide(f, g)) + One(!SameSide(g, h)) + One(!SameSide(h, a)) != 1
  {
  }

  lemma SideBack(x: real, y: real)
    ensures SameSide(x, y) == SameSide(y, x)
  {
  }

  /** At an inner grid point on the level never exactly one piece ends. */
  lemma CornerNotAlone(g: Grid, level: real, a: int, b: int)
    requires Inner(g, a, b)
    ensures CornerPasses(g, level, a, b, 1) + CornerPasses(g, level, a - 1, b, 2)
          + CornerPasses(g, level, a, b - 1, 4) + CornerPasses(g, level, a - 1, b - 1, 3) != 1
  {
    var h := Height(g, level, Corner(a, b));
    var c0, c1, c2, c3 := H(g, level, a, b, 0), H(g, level, a - 1, b, 0), H(g, level, a - 1, b - 1, 0),
      H(g, level, a, b - 1, 0);
    var e, n, w, s := H(g, level, a, b, 2), H(g, level, a, b, 4), H(g, level, a - 1, b, 1),
      H(g, level, a - 1, b - 1, 2);
    SharedHeights(g, level, a, b);
    hide H, Height, SameSide;
    NeverOneOfEight(e, c0, n, c1, w, c2, s, c3);
    SideBack(e, c0);
    SideBack(c0, n);
    SideBack(n, c1);
    SideBack(c1, w);
    SideBack(w, c2);
    SideBack(c2, s);
    SideBack(s, c3);
    SideBack(c3, e);
  }

  lemma SharedHeights(g: Grid, level: real, a: int, b: int)
    requires Inner(g, a, b)
    ensures H(g, level, a, b, 1) == H(g, level, a - 1, b, 2) == H(g, level, a - 1, b - 1, 3) == H(g, level, a, b - 1, 4)
    ensures H(g, level, a, b, 2) == H(g, level, a, b - 1, 3) && H(g, level, a, b, 4) == H(g, level, a - 1, b, 3)
    ensures H(g, level, a - 1, b, 1) == H(g, level, a - 1, b - 1, 4)
      && H(g, level, a - 1, b - 1, 2) == H(g, level, a, b - 1, 1)
  {
    hide Height;
  }

  lemma CentreNotAlone(g: Grid, level: real, a: int, b: int)
    requires g.IsCell(a, b)
    ensures CentrePasses(g, level, a, b) != 1
  {
    hide H;
  }

  lemma {:induction false} EndCounted(ps: seq<Piece>, s: Piece, e: End)
    requires s in ps && (e == s.e1 || e == s.e2)
    ensures EndsOn(ps, s.k, e) >= 1
  {
    if s != ps[0] {
      assert ps == [ps[0]] + ps[1..];
      EndCounted(ps[1..], s, e);
    }
  }

  /** Where a piece ends at a vertex that is not on the border, at least one more piece of its contour ends. */
  lemma VertexGoesOn(g: Grid, z: seq<real>, s: Piece, e: End)
    requires g.Valid() && |z| > 0 && Increasing(z) && s in Contours(g, z) && (e == s.e1 || e == s.e2) && e.At?
    ensures s.k < |z| && e.n.In(g) && Height(g, z[s.k], e.n) == 0.0
    ensures EndsOn(Contours(g, z), s.k, e) >= 2 || (e.n.Corner? && !Inner(g, e.n.i, e.n.j))
  {
    hide Contours, Increasing, EndsOn, Height, CentrePasses, CornerPasses;
    var i: int, j: int, m: nat := Origin(g, z, s);
    EndOnEdge(g, z, s, e, i, j, m);
    EndCounted(Contours(g, z), s, e);
    if e.n.Centre? {
      CentreEnds(g, z, s.k, e.n.i, e.n.j);
      CentreNotAlone(g, z[s.k], e.n.i, e.n.j);
    } else if Inner(g, e.n.i, e.n.j) {
      CornerEnds(g, z, s.k, e.n.i, e.n.j);
      CornerNotAlone(g, z[s.k], e.n.i, e.n.j);
    }
  }

  /**
   * No loose ends, for every level: where a piece ends, exactly one more piece of its contour goes on across the
   * edge, or at least one more at the vertex, unless the place is on the border of the grid.
   */
  lemma NoLooseEnds(g: Grid, z: seq<real>, s: Piece, e: End)
    requires g.Valid() && |z| > 0 && Increasing(z) && s in Contours(g, z) && (e == s.e1 || e == s.e2)
    ensures s.k < |z|
    ensures e.Between? ==> Crosses(g, z[s.k], e.p, e.q)
    ensures e.Between? ==> EndsOn(Contours(g, z), s.k, e) == if OnBorder(g, e.p, e.q) then 1 else 2
    ensures e.At? ==> e.n.In(g) && Height(g, z[s.k], e.n) == 0.0
    ensures e.At? ==> EndsOn(Contours(g, z), s.k, e) >= 2 || (e.n.Corner? && !Inner(g, e.n.i, e.n.j))
  {
    hide *;
    if e.Between? { CrossingGoesOn(g, z, s, e); } else { VertexGoesOn(g, z, s, e); }
  }
}
