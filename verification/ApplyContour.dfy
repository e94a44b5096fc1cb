/** `apply_contour` of hevc_decoder.c: the grid and the levels it hands to conrec, and what reaches the canvas. */
module ApplyContour {
  import opened Bresenham
  import opened Conrec
  import opened ConrecScan
  import opened Pieces
  import opened Pixels
  import opened Pruning
  import opened Triangles

  // ----- coordinates of the ends of pieces

  /** An end is a vertex, or the crossing of a sign-changing side. */
  ghost predicate GoodEnd(g: Grid, level: real, e: End)
  {
    match e
    case At(n) => n.In(g)
    case Between(p, q) => p.In(g) && q.In(g) && Opposite(Height(g, level, p), Height(g, level, q))
  }

  lemma TriangleGoodEnds(g: Grid, level: real, n1: Node, n2: Node, n3: Node, p: Piece)
    requires Triangle(g, n1, n2, n3) && p in TrianglePieces(g, level, p.k, n1, n2, n3)
    ensures GoodEnd(g, level, p.e1) && GoodEnd(g, level, p.e2)
  {
    TableMeans(Height(g, level, n1), Height(g, level, n2), Height(g, level, n3));
    hide Height, CaseValue, Opposite;
  }

  lemma PieceGoodEnds(g: Grid, z: seq<real>, p: Piece)
    requires OfGrid(g, z, p)
    ensures p.k < |z| && GoodEnd(g, z[p.k], p.e1) && GoodEnd(g, z[p.k], p.e2)
  {
    var i: int, j: int, m: nat :| PieceOf(g, z, p, i, j, m);
    hide GoodEnd, TrianglePieces, Vertex;
    CellTriangle(g, i, j, m);
    TriangleGoodEnds(g, z[p.k], Vertex(i, j, m), Vertex(i, j, 0), Vertex(i, j, if m != 4 then m + 1 else 1), p);
  }

  /** A section lies between the two ends of its side. */
  lemma SectionBetween(hp: real, hq: real, cp: real, cq: real, lo: real, hi: real)
    requires Opposite(hp, hq) && lo <= cp <= hi && lo <= cq <= hi
    ensures lo <= Section(hp, hq, cp, cq) <= hi
  {
    ZeroOfSide(hp, hq);
    var u := hq / (hq - hp);
    SectionWeights(hp, hq, cp, cq);
    Weighted(u, cp, cq, lo, hi);
  }

  lemma Product(a: real, b: real)
    requires 0.0 <= a && 0.0 <= b
    ensures 0.0 <= a * b
  {
  }

  lemma Weighted(u: real, x: real, y: real, lo: real, hi: real)
    requires 0.0 <= u <= 1.0 && lo <= x <= hi && lo <= y <= hi
    ensures lo <= u * x + (1.0 - u) * y <= hi
  {
    Product(u, x - lo);
    Product(1.0 - u, y - lo);
    Product(u, hi - x);
    Product(1.0 - u, hi - y);
    assert u * (x - lo) + (1.0 - u) * (y - lo) == u * x + (1.0 - u) * y - lo;
    assert u * (hi - x) + (1.0 - u) * (hi - y) == hi - (u * x + (1.0 - u) * y);
  }

  lemma SectionWeights(hp: real, hq: real, cp: real, cq: real)
    requires Opposite(hp, hq)
    ensures var u := hq / (hq - hp); Section(hp, hq, cp, cq) == u * cp + (1.0 - u) * cq
  {
    ZeroOfSide(hp, hq);
    var d := hq - hp;
    var u, s := hq / d, (hq * cp - hp * cq) / d;
    assert u * d == hq;
    assert s * d == hq * cp - hp * cq;
    Scaled(cp, d, cp * d, u, u * d);
    assert (u * cp) * d == hq * cp;
    assert ((1.0 - u) * cq) * d == cq * (d - u * d) == -hp * cq;
    Distribute(u * cp, (1.0 - u) * cq, d);
    Cancel(s, u * cp + (1.0 - u) * cq, d);
  }

  /** The vertices of a cell: its corners anticlockwise, and a centre with the mean of their positions and heights. */
  lemma CellVertices(g: Grid, level: real, i: int, j: int, m: nat)
    requires g.IsCell(i, j) && m <= 4
    ensures var a, b, n := if m == 2 || m == 3 then i + 1 else i, if m >= 3 then j + 1 else j, Vertex(i, j, m);
      && n.In(g)
      && (m > 0 ==> PosX(g, n) == g.x[a] && PosY(g, n) == g.y[b] && Height(g, level, n) == g.d[a][b] - level)
      && (m == 0 ==>
        && 2.0 * PosX(g, n) == g.x[i] + g.x[i + 1] && 2.0 * PosY(g, n) == g.y[j] + g.y[j + 1]
        && 4.0 * (Height(g, level, n) + level) == g.d[i][j] + g.d[i + 1][j] + g.d[i + 1][j + 1] + g.d[i][j + 1])
  {
  }

  /** An end stands where the interpolant says: its weights, with which the heights sum to 0, applied to the
      positions of the vertices. */
  lemma EndPosition(g: Grid, level: real, n1: Node, n2: Node, n3: Node, e: End)
    requires Triangle(g, n1, n2, n3) && CaseOf(g, level, n1, n2, n3) != 0
    requires var s := CaseEnds(CaseOf(g, level, n1, n2, n3), n1, n2, n3); e == s.0 || e == s.1
    ensures e.In(g, level)
    ensures var w := EndWeights(g, level, e, n1, n2, n3);
      && w.Inside() && w.Blend(Height(g, level, n1), Height(g, level, n2), Height(g, level, n3)) == 0.0
      && EndX(g, level, e) == w.Blend(PosX(g, n1), PosX(g, n2), PosX(g, n3))
      && EndY(g, level, e) == w.Blend(PosY(g, n1), PosY(g, n2), PosY(g, n3))
  {
    EndsAreZeros(g, level, n1, n2, n3);
    EndOfTriangle(g, level, n1, n2, n3, e);
    KnownWeights(g, level, n1, n2, n3);
    hide CaseOf, Height, PosX, PosY, Section, VertexWeights, SideWeights, EndWeights, CaseEnds, Weights.Inside;
    hide Opposite;
    match e
    case At(n) =>
      VertexBlend(if n == n1 then 1 else if n == n2 then 2 else 3, PosX(g, n1), PosX(g, n2), PosX(g, n3));
      VertexBlend(if n == n1 then 1 else if n == n2 then 2 else 3, PosY(g, n1), PosY(g, n2), PosY(g, n3));
    case Between(p, q) =>
      var m, hp, hq := if p == n1 then 1 else if p == n2 then 2 else 3, Height(g, level, p), Height(g, level, q);
      OppositeDiffers(hp, hq);
      SideBlend(m, hp, hq, PosX(g, n1), PosX(g, n2), PosX(g, n3));
      SideBlend(m, hp, hq, PosY(g, n1), PosY(g, n2), PosY(g, n3));
  }

  lemma OppositeDiffers(hp: real, hq: real)
    requires Opposite(hp, hq)
    ensures hp != hq
  {
  }

  lemma VertexBlend(m: nat, c1: real, c2: real, c3: real)
    requires 1 <= m <= 3
    ensures VertexWeights(m).Blend(c1, c2, c3) == if m == 1 then c1 else if m == 2 then c2 else c3
  {
  }

  lemma SideBlend(m: nat, hp: real, hq: real, c1: real, c2: real, c3: real)
    requires 1 <= m <= 3 && Opposite(hp, hq) && hp != hq
    ensures SideWeights(m, hp, hq).Blend(c1, c2, c3) ==
      if m == 1 then Section(hp, hq, c1, c2) else if m == 2 then Section(hp, hq, c2, c3) else Section(hp, hq, c3, c1)
  {
    ZeroOfSide(hp, hq);
    SectionWeights(hp, hq, c1, c2);
    SectionWeights(hp, hq, c2, c3);
    SectionWeights(hp, hq, c3, c1);
    hide Section, Opposite;
  }

  lemma EndOfTriangle(g: Grid, level: real, n1: Node, n2: Node, n3: Node, e: End)
    requires Triangle(g, n1, n2, n3) && CaseOf(g, level, n1, n2, n3) != 0
    requires var s := CaseEnds(CaseOf(g, level, n1, n2, n3), n1, n2, n3); e == s.0 || e == s.1
    ensures GoodEnd(g, level, e)
    ensures match e
      case At(n) => n == n1 || n == n2 || n == n3
      case Between(p, q) => (p == n1 && q == n2) || (p == n2 && q == n3) || (p == n3 && q == n1)
  {
    TableMeans(Height(g, level, n1), Height(g, level, n2), Height(g, level, n3));
    hide Height, CaseValue, Opposite;
  }

  /** Every vertex of the grid lies in the rectangle [0, maxX] x [0, maxY]. */
  ghost predicate Boxed(g: Grid, maxX: int, maxY: int)
  {
    && g.Valid()
    && (forall i :: g.ilb <= i <= g.iub ==> 0.0 <= g.x[i] <= maxX as real)
    && (forall j :: g.jlb <= j <= g.jub ==> 0.0 <= g.y[j] <= maxY as real)
  }

  lemma EndInBox(g: Grid, level: real, e: End, maxX: int, maxY: int)
    requires Boxed(g, maxX, maxY) && GoodEnd(g, level, e)
    ensures e.In(g, level)
    ensures 0.0 <= EndX(g, level, e) <= maxX as real && 0.0 <= EndY(g, level, e) <= maxY as real
  {
    hide Height, Section;
    if e.Between? {
      var hp, hq := Height(g, level, e.p), Height(g, level, e.q);
      SectionBetween(hp, hq, PosX(g, e.p), PosX(g, e.q), 0.0, maxX as real);
      SectionBetween(hp, hq, PosY(g, e.p), PosY(g, e.q), 0.0, maxY as real);
    }
  }

  /** A rounded number is nearest, and of two nearest ones the one away from zero. */
  lemma RoundIsNearest(v: real)
    ensures -0.5 <= Round(v) as real - v <= 0.5
    ensures v > 0.0 ==> Round(v) as real - v > -0.5
    ensures v < 0.0 ==> Round(v) as real - v < 0.5
  {
  }

  lemma RoundInBox(v: real, max: int)
    requires 0.0 <= v <= max as real
    ensures 0 <= Round(v) <= max
  {
  }

  lemma PieceLineInBox(g: Grid, z: seq<real>, p: Piece, maxX: int, maxY: int)
    requires Boxed(g, maxX, maxY) && OfGrid(g, z, p)
    ensures Drawable(g, z, p)
    ensures var l := LineOf(g, z, p); 0 <= l.x0 <= maxX && 0 <= l.x1 <= maxX && 0 <= l.y0 <= maxY && 0 <= l.y1 <= maxY
  {
    PieceDrawable(g, z, p);
    PieceGoodEnds(g, z, p);
    hide Boxed, GoodEnd, OfGrid, EndX, EndY, End.In, Round;
    var level := z[p.k];
    EndInBox(g, level, p.e1, maxX, maxY);
    EndInBox(g, level, p.e2, maxX, maxY);
    RoundInBox(EndX(g, level, p.e1), maxX);
    RoundInBox(EndX(g, level, p.e2), maxX);
    RoundInBox(EndY(g, level, p.e1), maxY);
    RoundInBox(EndY(g, level, p.e2), maxY);
  }

  lemma PointInBox(l: Line, k: nat, maxX: int, maxY: int)
    requires k <= Steps(l) && 0 <= l.x0 <= maxX && 0 <= l.x1 <= maxX && 0 <= l.y0 <= maxY && 0 <= l.y1 <= maxY
    ensures 0 <= Point(l, k).0 <= maxX && 0 <= Point(l, k).1 <= maxY
  {
    hide After;
    InsideBox(Abs(l.x1 - l.x0), Abs(l.y1 - l.y0), k);
  }

  /** Every pixel of every contour passes the bounds test of `set_pixel`. */
  lemma LitOnCanvas(g: Grid, z: seq<real>, ps: seq<Piece>, c: Canvas, y: int, x: int)
    requires AllOfGrid(g, z, ps) && Boxed(g, c.height - 1, c.width - 1) && Lit(g, z, ps, y, x)
    ensures OnCanvas(c, y, x)
  {
    hide Boxed, OfGrid, LineOf, Drawable, Point;
    var p :| p in ps && Drawable(g, z, p) && OnLine(LineOf(g, z, p), y, x);
    PieceLineInBox(g, z, p, c.height - 1, c.width - 1);
    var l := LineOf(g, z, p);
    var k: nat :| k < Steps(l) + 1 && Point(l, k) == (y, x);
    PointInBox(l, k, c.height - 1, c.width - 1);
  }

  // ----- ends shared by pieces

  lemma SamePosition(g: Grid, level: real, e: End, f: End)
    requires GoodEnd(g, level, e) && SameEnd(e, f)
    ensures e.In(g, level) && f.In(g, level)
    ensures EndX(g, level, e) == EndX(g, level, f) && EndY(g, level, e) == EndY(g, level, f)
  {
    hide Height, PosX, PosY, Section;
    if e != f {
      var hp, hq := Height(g, level, e.p), Height(g, level, e.q);
      SectionEitherWay(hp, hq, PosX(g, e.p), PosX(g, e.q));
      SectionEitherWay(hp, hq, PosY(g, e.p), PosY(g, e.q));
    }
  }

  lemma SectionEitherWay(hp: real, hq: real, cp: real, cq: real)
    requires hp != hq
    ensures Section(hp, hq, cp, cq) == Section(hq, hp, cq, cp)
  {
    var n, d := hq * cp - hp * cq, hq - hp;
    assert (n / d) * d == n;
    assert hp - hq == -d && hp * cq - hq * cp == -n;
    assert (-n / -d) * -d == -n;
    Cancel(n / d, -n / -d, d);
  }

  lemma EndsOnLine(l: Line)
    ensures OnLine(l, l.x0, l.y0) && OnLine(l, l.x1, l.y1)
  {
    EndsAtCorner(Abs(l.x1 - l.x0), Abs(l.y1 - l.y0));
    assert Point(l, 0) == (l.x0, l.y0);
    assert Point(l, Steps(l)) == (l.x1, l.y1);
    hide Point;
  }

  /** Two pieces of a contour that share an end share the pixel of that end. */
  lemma SharedEndSharedPixel(g: Grid, z: seq<real>, p: Piece, q: Piece, e: End, f: End)
    requires OfGrid(g, z, p) && OfGrid(g, z, q) && p.k == q.k
    requires (e == p.e1 || e == p.e2) && (f == q.e1 || f == q.e2) && SameEnd(e, f)
    ensures Drawable(g, z, p) && Drawable(g, z, q) && e.In(g, z[p.k])
    ensures var y, x := Round(EndX(g, z[p.k], e)), Round(EndY(g, z[p.k], e));
      OnLine(LineOf(g, z, p), y, x) && OnLine(LineOf(g, z, q), y, x)
  {
    PieceDrawable(g, z, p);
    PieceDrawable(g, z, q);
    PieceGoodEnds(g, z, p);
    hide OfGrid, GoodEnd, EndX, EndY, End.In, Round, OnLine, SameEnd;
    SamePosition(g, z[p.k], e, f);
    EndsOnLine(LineOf(g, z, p));
    EndsOnLine(LineOf(g, z, q));
  }

  // ----- apply_contour

  datatype Plane = Plane(bytes: seq<byte>, stride: nat)

  /** Pixel j of row i, counted from the bottom of the image. */
  function Flipped(p: Plane, h: nat, i: nat, j: nat): byte
    requires i < h && (h - 1 - i) * p.stride + j < |p.bytes|
  {
    p.bytes[(h - 1 - i) * p.stride + j]
  }

  /** The plane holds h rows of w bytes. */
  ghost predicate Holds(p: Plane, w: nat, h: nat)
  {
    h > 0 && w > 0 ==> (h - 1) * p.stride + w <= |p.bytes|
  }

  lemma HoldsRow(p: Plane, w: nat, h: nat, i: nat)
    requires Holds(p, w, h) && i < h && w > 0
    ensures 0 <= (h - 1 - i) * p.stride && (h - 1 - i) * p.stride + w <= |p.bytes|
  {
    assert (h - 1) * p.stride == (h - 1 - i) * p.stride + i * p.stride;
  }

  /** The luma of a pixel, or 0 where the mask is below 128. */
  function Masked(luma: Plane, alpha: Plane, w: nat, h: nat, i: nat, j: nat): real
    requires Holds(luma, w, h) && Holds(alpha, w, h) && i < h && j < w
  {
    HoldsRow(luma, w, h, i);
    HoldsRow(alpha, w, h, i);
    if Flipped(alpha, h, i, j) < 128 then 0.0 else Flipped(luma, h, i, j) as real
  }

  /** The levels (i + 1) * 255 / nc. */
  function Levels(nc: nat): (z: seq<real>)
    requires nc > 0
    ensures |z| == nc
  {
    seq(nc, i => (i + 1) as real * 255.0 / nc as real)
  }

  /** The levels increase strictly, the first is above 0 and the last is 255. */
  lemma LevelsIncrease(nc: nat)
    requires nc > 0
    ensures Increasing(Levels(nc)) && Levels(nc)[0] > 0.0 && Levels(nc)[nc - 1] == 255.0
    ensures forall a, b :: 0 <= a < b < nc ==> Levels(nc)[a] < Levels(nc)[b]
  {
    forall a, b | 0 <= a < b < nc ensures Levels(nc)[a] < Levels(nc)[b] {
      LevelBelow(a, b, nc);
    }
    LevelBelow(-1, 0, nc);
    assert nc as real * 255.0 / nc as real == 255.0;
  }

  /** The levels are evenly spaced. */
  lemma LevelsEven(nc: nat, k: nat)
    requires k < nc
    ensures Levels(nc)[k] * nc as real == (k + 1) as real * 255.0
  {
  }

  lemma LevelBelow(a: int, b: int, nc: nat)
    requires -1 <= a < b && nc > 0
    ensures (a + 1) as real * 255.0 / nc as real < (b + 1) as real * 255.0 / nc as real
  {
    var n := nc as real;
    var u, v := (a + 1) as real * 255.0, (b + 1) as real * 255.0;
    assert u < v;
    Positive(v - u, n);
    assert (u / n) * n == u && (v / n) * n == v;
  }

  /** Coordinates 0, 1, ..., n - 1. */
  function Coordinates(n: nat): (s: seq<real>)
    ensures |s| == n
  {
    seq(n, (i: int) => i as real)
  }

  function ImageRow(luma: Plane, alpha: Plane, w: nat, h: nat, i: nat): (r: seq<real>)
    requires Holds(luma, w, h) && Holds(alpha, w, h) && i < h
    ensures |r| == w
  {
    seq(w, j requires 0 <= j < w => Masked(luma, alpha, w, h, i, j))
  }

  function ImageRows(luma: Plane, alpha: Plane, w: nat, h: nat): (d: seq<seq<real>>)
    requires Holds(luma, w, h) && Holds(alpha, w, h)
    ensures |d| == h && forall i :: 0 <= i < h ==> |d[i]| == w
  {
    seq(h, i requires 0 <= i < h => ImageRow(luma, alpha, w, h, i))
  }

  /** The grid of an image: rows from the bottom up. */
  function ImageGrid(luma: Plane, alpha: Plane, w: nat, h: nat): Grid
    requires Holds(luma, w, h) && Holds(alpha, w, h)
  {
    Grid(ImageRows(luma, alpha, w, h), Coordinates(h), Coordinates(w), 0, h - 1, 0, w - 1)
  }

  lemma ImageBoxed(luma: Plane, alpha: Plane, w: nat, h: nat)
    requires Holds(luma, w, h) && Holds(alpha, w, h)
    ensures Boxed(ImageGrid(luma, alpha, w, h), h - 1, w - 1)
  {
    hide Masked, Holds;
  }

  /** Row i from the bottom: the luma where the mask is at least 128, and 0 elsewhere. */
  ghost predicate RowInBytes(row: seq<real>, luma: seq<byte>, strideLuma: nat, alpha: seq<byte>, strideAlpha: nat,
      w: nat, h: nat, i: nat)
    requires i < h
  {
    var l, a := (h - 1 - i) * strideLuma, (h - 1 - i) * strideAlpha;
    && |row| == w && (w > 0 ==> 0 <= l && l + w <= |luma| && 0 <= a && a + w <= |alpha|)
    && forall j: nat :: j < w ==> row[j] == if alpha[a + j] >= 128 then luma[l + j] as real else 0.0
  }

  lemma RowIsInBytes(luma: Plane, alpha: Plane, w: nat, h: nat, i: nat)
    requires Holds(luma, w, h) && Holds(alpha, w, h) && i < h
    ensures RowInBytes(ImageRow(luma, alpha, w, h, i), luma.bytes, luma.stride, alpha.bytes, alpha.stride, w, h, i)
  {
    if w > 0 {
      HoldsRow(luma, w, h, i);
      HoldsRow(alpha, w, h, i);
    }
    hide Holds;
  }

  /** One row of the grid: the copying loop over j. */
  method CopyRow(luma: array<byte>, strideLuma: nat, alpha: array<byte>, strideAlpha: nat, w: nat, h: nat, i: nat)
    returns (row: seq<real>)
    requires i < h
    requires Holds(Plane(luma[..], strideLuma), w, h) && Holds(Plane(alpha[..], strideAlpha), w, h)
    ensures row == ImageRow(Plane(luma[..], strideLuma), Plane(alpha[..], strideAlpha), w, h, i)
    ensures RowInBytes(row, luma[..], strideLuma, alpha[..], strideAlpha, w, h, i)
  {
    var luma_offset := (h - 1 - i) * strideLuma;
    var alpha_offset := (h - 1 - i) * strideAlpha;
    row := [];
    ghost var l, a := Plane(luma[..], strideLuma), Plane(alpha[..], strideAlpha);
    var j := 0;
    while j < w
      invariant 0 <= j <= w && |row| == j
      invariant luma_offset == (h - 1 - i) * strideLuma + j && alpha_offset == (h - 1 - i) * strideAlpha + j
      invariant forall n: nat :: n < j ==> row[n] == Masked(l, a, w, h, i, n)
    {
      HoldsRow(l, w, h, i);
      HoldsRow(a, w, h, i);
      var pixel := luma[luma_offset];
      luma_offset := luma_offset + 1;
      var mask := if alpha[alpha_offset] < 128 then 0 else 255;
      alpha_offset := alpha_offset + 1;
      pixel := if mask == 0 then 0 else pixel;
      row := row + [pixel as real];
      j := j + 1;
    }
    hide Holds, Masked, RowInBytes;
    RowIsInBytes(l, a, w, h, i);
    assert row == ImageRow(l, a, w, h, i);
  }

  /** The contours that `apply_contour` draws on a canvas of w by h pixels. */
  ghost predicate Contoured(luma: Plane, alpha: Plane, w: nat, h: nat, nc: nat, a: seq<byte>, b: seq<byte>)
  {
    && Holds(luma, w, h) && Holds(alpha, w, h) && nc > 0
    && ImageGrid(luma, alpha, w, h).Valid()
    && Drawn(Canvas(w, h), ImageGrid(luma, alpha, w, h), Levels(nc),
      Contours(ImageGrid(luma, alpha, w, h), Levels(nc)), a, b)
  }

  method ApplyContour(canvas: array?<byte>, w: nat, h: nat, luma: array?<byte>, strideLuma: nat,
                      alpha: array?<byte>, strideAlpha: nat, nc: nat)
    requires nc > 0
    requires canvas != null ==> Fits(Canvas(w, h), canvas.Length)
    requires luma != null ==> Holds(Plane(luma[..], strideLuma), w, h)
    requires alpha != null ==> Holds(Plane(alpha[..], strideAlpha), w, h)
    requires canvas != luma && canvas != alpha
    modifies canvas
    ensures canvas != null && (luma == null || alpha == null) ==> canvas[..] == old(canvas[..])
    ensures canvas != null && luma != null && alpha != null ==>
      Contoured(Plane(luma[..], strideLuma), Plane(alpha[..], strideAlpha), w, h, nc, old(canvas[..]), canvas[..])
  {
    if canvas == null || luma == null || alpha == null {
      return;
    }
    ghost var l, a := Plane(luma[..], strideLuma), Plane(alpha[..], strideAlpha);
    hide Holds, ImageRows, Coordinates, Levels, Drawn, Fits;
    var d := CopyImage(luma, strideLuma, alpha, strideAlpha, w, h);
    var xc := CountUp(h);
    var yc := CountUp(w);
    var zc := ContourLevels(nc);
    var g := Grid(d, xc, yc, 0, h - 1, 0, w - 1);
    ImageBoxed(l, a, w, h);
    var lines := DrawContours(g, zc, canvas, Canvas(w, h));
  }

  /** All rows: the copying loop over i. */
  method CopyImage(luma: array<byte>, strideLuma: nat, alpha: array<byte>, strideAlpha: nat, w: nat, h: nat)
    returns (d: seq<seq<real>>)
    requires Holds(Plane(luma[..], strideLuma), w, h) && Holds(Plane(alpha[..], strideAlpha), w, h)
    ensures d == ImageRows(Plane(luma[..], strideLuma), Plane(alpha[..], strideAlpha), w, h)
  {
    hide Holds, ImageRow;
    ghost var l, a := Plane(luma[..], strideLuma), Plane(alpha[..], strideAlpha);
    d := [];
    var i := 0;
    while i < h
      invariant 0 <= i <= h && |d| == i
      invariant forall r: nat :: r < i ==> d[r] == ImageRow(l, a, w, h, r)
    {
      var row := CopyRow(luma, strideLuma, alpha, strideAlpha, w, h, i);
      d := d + [row];
      i := i + 1;
    }
  }

  method CountUp(n: nat) returns (s: seq<real>)
    ensures s == Coordinates(n)
  {
    s := [];
    var i := 0;
    while i < n
      invariant 0 <= i <= n && s == Coordinates(i)
    {
      s := s + [i as real];
      i := i + 1;
    }
  }

  method ContourLevels(nc: nat) returns (z: seq<real>)
    requires nc > 0
    ensures z == Levels(nc)
  {
    z := [];
    var i := 0;
    while i < nc
      invariant 0 <= i <= nc && |z| == i
      invariant forall k :: 0 <= k < i ==> z[k] == Levels(nc)[k]
    {
      z := z + [(i + 1) as real * 255.0 / nc as real];
      i := i + 1;
    }
  }

  /**
   * For every image and every number of levels, `apply_contour` turns exactly the pixels on the lines of
   * the contours black; all those pixels lie on the canvas, no other byte changes, and the scan it relies
   * on has skipped nothing.
   */
  lemma ContouredCanvas(luma: Plane, alpha: Plane, w: nat, h: nat, nc: nat, a: seq<byte>, b: seq<byte>)
    requires Contoured(luma, alpha, w, h, nc, a, b)
    ensures var c, g, z := Canvas(w, h), ImageGrid(luma, alpha, w, h), Levels(nc);
      && |b| == |a| && Fits(c, |a|)
      && (forall y: int, x: int :: Lit(g, z, Contours(g, z), y, x) ==> OnCanvas(c, y, x))
      && (forall y: nat, x: nat :: OnCanvas(c, y, x) ==>
            PixelBytes(b, c, y, x) == if Lit(g, z, Contours(g, z), y, x) then [0, 0, 0, 255]
              else PixelBytes(a, c, y, x))
      && (forall i: nat :: 4 * (w * h) <= i < |a| ==> b[i] == a[i])
      && Contours(g, z) == EveryRowDown(g, z, g.jub - 1)
  {
    var c, g, z := Canvas(w, h), ImageGrid(luma, alpha, w, h), Levels(nc);
    ImageBoxed(luma, alpha, w, h);
    LevelsIncrease(nc);
    hide ImageGrid, Levels, Lit, Drawn, PixelBytes, OnCanvas, RowsDown, EveryRowDown, Boxed, Increasing;
    OnlyLinesChange(c, g, z, Contours(g, z), a, b);
    RowsOfGrid(g, z, g.jub - 1);
    forall y: int, x: int | Lit(g, z, Contours(g, z), y, x) ensures OnCanvas(c, y, x) {
      LitOnCanvas(g, z, Contours(g, z), c, y, x);
    }
    PruningLossless(g, z);
  }
}
