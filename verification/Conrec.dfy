/** `conrec` of conrec.c: contour lines of gridded data, triangle by triangle. */
module Conrec {
  import opened Bresenham

  /** The data matrix with its column and row coordinates and index bounds. */
  datatype Grid = Grid(d: seq<seq<real>>, x: seq<real>, y: seq<real>, ilb: int, iub: int, jlb: int, jub: int) {
    predicate Valid() {
      && 0 <= ilb && iub < |d| && iub < |x|
      && 0 <= jlb && jub < |y|
      && forall i :: ilb <= i <= iub ==> jub < |d[i]|
    }

    predicate IsCell(i: int, j: int) {
      Valid() && ilb <= i < iub && jlb <= j < jub
    }
  }

  const IM: seq<nat> := [0, 1, 1, 0]
  const JM: seq<nat> := [0, 0, 1, 1]

  /** A vertex of the triangulation: a grid point or the centre of a cell. */
  datatype Node = Corner(i: int, j: int) | Centre(i: int, j: int) {
    predicate In(g: Grid) {
      match this
      case Corner(a, b) => g.Valid() && g.ilb <= a <= g.iub && g.jlb <= b <= g.jub
      case Centre(a, b) => g.IsCell(a, b)
    }
  }

  /** Vertex m of a cell: the centre is 0, the corners are 1 to 4 anticlockwise. */
  function Vertex(i: int, j: int, m: nat): Node
    requires m <= 4
  {
    if m == 0 then Centre(i, j) else Corner(i + IM[m - 1], j + JM[m - 1])
  }

  function Height(g: Grid, level: real, n: Node): real
    requires n.In(g)
  {
    match n
    case Corner(a, b) => g.d[a][b] - level
    case Centre(a, b) =>
      0.25 * ((g.d[a][b] - level) + (g.d[a + 1][b] - level) + (g.d[a + 1][b + 1] - level) + (g.d[a][b + 1] - level))
  }

  function PosX(g: Grid, n: Node): real
    requires n.In(g)
  {
    match n
    case Corner(a, _) => g.x[a]
    case Centre(a, _) => 0.5 * (g.x[a] + g.x[a + 1])
  }

  function PosY(g: Grid, n: Node): real
    requires n.In(g)
  {
    match n
    case Corner(_, b) => g.y[b]
    case Centre(_, b) => 0.5 * (g.y[b] + g.y[b + 1])
  }

  function Sign(h: real): (s: int)
    ensures -1 <= s <= 1
  {
    if h > 0.0 then 1 else if h < 0.0 then -1 else 0
  }

  const CASTAB: seq<seq<seq<nat>>> := [
    [[0, 0, 8], [0, 2, 5], [7, 6, 9]],
    [[0, 3, 4], [1, 3, 1], [4, 3, 0]],
    [[9, 6, 7], [5, 2, 0], [8, 0, 0]]]

  function CaseValue(s1: int, s2: int, s3: int): (v: nat)
    requires -1 <= s1 <= 1 && -1 <= s2 <= 1 && -1 <= s3 <= 1
    ensures v <= 9
  {
    CASTAB[s1 + 1][s2 + 1][s3 + 1]
  }

  // ----- pieces of contour

  /** An end of a piece: a vertex, or the point of a side where the height is zero. */
  datatype End = At(n: Node) | Between(p: Node, q: Node) {
    /** The heights of the two ends of a side differ. */
    ghost predicate In(g: Grid, level: real) {
      match this
      case At(n) => n.In(g)
      case Between(p, q) => p.In(g) && q.In(g) && Height(g, level, p) != Height(g, level, q)
    }
  }

  datatype Piece = Piece(k: nat, e1: End, e2: End)

  /** The nine cases of the switch. */
  function CaseEnds(value: nat, n1: Node, n2: Node, n3: Node): (End, End)
    requires 1 <= value <= 9
  {
    match value
    case 1 => (At(n1), At(n2))
    case 2 => (At(n2), At(n3))
    case 3 => (At(n3), At(n1))
    case 4 => (At(n1), Between(n2, n3))
    case 5 => (At(n2), Between(n3, n1))
    case 6 => (At(n3), Between(n1, n2))
    case 7 => (Between(n1, n2), Between(n2, n3))
    case 8 => (Between(n2, n3), Between(n3, n1))
    case _ => (Between(n3, n1), Between(n1, n2))
  }

  /** What triangle (n1, n2, n3) contributes at level k. */
  function TrianglePieces(g: Grid, level: real, k: nat, n1: Node, n2: Node, n3: Node): seq<Piece>
    requires n1.In(g) && n2.In(g) && n3.In(g)
  {
    var value := CaseValue(Sign(Height(g, level, n1)), Sign(Height(g, level, n2)), Sign(Height(g, level, n3)));
    if value == 0 then [] else
    var e := CaseEnds(value, n1, n2, n3);
    [Piece(k, e.0, e.1)]
  }

  /** Triangles m, ..., 4 of a cell. */
  function TrianglesFrom(g: Grid, level: real, k: nat, i: int, j: int, m: nat): seq<Piece>
    requires g.IsCell(i, j) && 1 <= m <= 5
    decreases 5 - m
  {
    if m == 5 then [] else
    TrianglePieces(g, level, k, Vertex(i, j, m), Vertex(i, j, 0), Vertex(i, j, if m != 4 then m + 1 else 1))
    + TrianglesFrom(g, level, k, i, j, m + 1)
  }

  function CellPieces(g: Grid, level: real, k: nat, i: int, j: int): seq<Piece>
    requires g.IsCell(i, j)
  {
    TrianglesFrom(g, level, k, i, j, 1)
  }

  function Least(a: real, b: real): real { if a < b then a else b }

  function Greatest(a: real, b: real): real { if a > b then a else b }

  function Lowest(g: Grid, i: int, j: int): real
    requires g.IsCell(i, j)
  {
    Least(Least(g.d[i][j], g.d[i][j + 1]), Least(g.d[i + 1][j], g.d[i + 1][j + 1]))
  }

  function Highest(g: Grid, i: int, j: int): real
    requires g.IsCell(i, j)
  {
    Greatest(Greatest(g.d[i][j], g.d[i][j + 1]), Greatest(g.d[i + 1][j], g.d[i + 1][j + 1]))
  }

  /** Levels k, k+1, ... of a cell, each tried only when it lies in the cell's range. */
  function LevelsFrom(g: Grid, z: seq<real>, i: int, j: int, k: nat): seq<Piece>
    requires g.IsCell(i, j) && k <= |z|
    decreases |z| - k
  {
    if k == |z| then [] else
    (if Lowest(g, i, j) <= z[k] <= Highest(g, i, j) then CellPieces(g, z[k], k, i, j) else [])
    + LevelsFrom(g, z, i, j, k + 1)
  }

  function CellScan(g: Grid, z: seq<real>, i: int, j: int): seq<Piece>
    requires g.IsCell(i, j) && |z| > 0
  {
    if Highest(g, i, j) >= z[0] && Lowest(g, i, j) <= z[|z| - 1] then LevelsFrom(g, z, i, j, 0) else []
  }

  function RowFrom(g: Grid, z: seq<real>, i: int, j: int): seq<Piece>
    requires g.Valid() && |z| > 0 && g.jlb <= j < g.jub && g.ilb <= i
    decreases g.iub - i
  {
    if i >= g.iub then [] else CellScan(g, z, i, j) + RowFrom(g, z, i + 1, j)
  }

  /** Rows j, j-1, ..., jlb. */
  function RowsDown(g: Grid, z: seq<real>, j: int): seq<Piece>
    requires g.Valid() && |z| > 0 && j < g.jub
    decreases j - g.jlb
  {
    if j < g.jlb then [] else RowFrom(g, z, g.ilb, j) + RowsDown(g, z, j - 1)
  }

  /** Every piece of every contour, in the order of the scan. */
  function Contours(g: Grid, z: seq<real>): seq<Piece>
    requires g.Valid() && |z| > 0
  {
    RowsDown(g, z, g.jub - 1)
  }

  // ----- from pieces to lines on the canvas

  /** `xsect` and `ysect`: the zero of the linear interpolant on a side. */
  function Section(hp: real, hq: real, cp: real, cq: real): real
    requires hp != hq
  {
    (hq * cp - hp * cq) / (hq - hp)
  }

  ghost function EndX(g: Grid, level: real, e: End): real
    requires e.In(g, level)
  {
    match e
    case At(n) => PosX(g, n)
    case Between(p, q) => Section(Height(g, level, p), Height(g, level, q), PosX(g, p), PosX(g, q))
  }

  ghost function EndY(g: Grid, level: real, e: End): real
    requires e.In(g, level)
  {
    match e
    case At(n) => PosY(g, n)
    case Between(p, q) => Section(Height(g, level, p), Height(g, level, q), PosY(g, p), PosY(g, q))
  }

  /** `round`: to the nearest integer, halves away from zero. */
  function Round(v: real): int
  {
    if v >= 0.0 then (v + 0.5).Floor else -((0.5 - v).Floor)
  }

  ghost predicate Drawable(g: Grid, z: seq<real>, p: Piece) {
    p.k < |z| && p.e1.In(g, z[p.k]) && p.e2.In(g, z[p.k])
  }

  ghost function LineOf(g: Grid, z: seq<real>, p: Piece): Line
    requires Drawable(g, z, p)
  {
    Line(Round(EndX(g, z[p.k], p.e1)), Round(EndY(g, z[p.k], p.e1)),
         Round(EndX(g, z[p.k], p.e2)), Round(EndY(g, z[p.k], p.e2)))
  }

  const BLACK := Colour(0, 0, 0, 255)

  ghost function DrawPieces(buf: seq<byte>, c: Canvas, g: Grid, z: seq<real>, ps: seq<Piece>): (r: seq<byte>)
    requires Fits(c, |buf|) && forall p :: p in ps ==> Drawable(g, z, p)
    ensures |r| == |buf|
  {
    if ps == [] then buf
    else Draw(DrawPieces(buf, c, g, z, ps[..|ps| - 1]), c, LineOf(g, z, ps[|ps| - 1]), BLACK)
  }
}
