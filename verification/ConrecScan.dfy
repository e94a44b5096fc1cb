/** The scanning loops of conrec.c, drawing as they go. */
module ConrecScan {
  import opened Bresenham
  import opened Conrec
  import opened Pieces
  import opened Triangles

  /** Entries m to 4 of the work arrays for cell (i, j) at a level. */
  ghost predicate Filled(g: Grid, level: real, i: int, j: int, m: nat, h: seq<real>, sh: seq<int>, xh: seq<real>,
      yh: seq<real>)
    requires g.IsCell(i, j)
  {
    && |h| == |sh| == |xh| == |yh| == 5
    && (forall l: nat {:trigger h[l]} {:trigger sh[l]} {:trigger xh[l]} {:trigger yh[l]} :: m <= l <= 4 ==>
      && h[l] == Height(g, level, Vertex(i, j, l)) && sh[l] == Sign(h[l])
      && xh[l] == PosX(g, Vertex(i, j, l)) && yh[l] == PosY(g, Vertex(i, j, l)))
  }

  lemma FillsOne(g: Grid, level: real, i: int, j: int, m: nat, h: seq<real>, sh: seq<int>, xh: seq<real>, yh: seq<real>)
    requires g.IsCell(i, j) && m <= 4 && Filled(g, level, i, j, m + 1, h, sh, xh, yh)
    ensures var n := Vertex(i, j, m); var v := Height(g, level, n);
      Filled(g, level, i, j, m, h[m := v], sh[m := Sign(v)], xh[m := PosX(g, n)], yh[m := PosY(g, n)])
    ensures m == 0 ==> Height(g, level, Vertex(i, j, 0)) == 0.25 * (h[1] + h[2] + h[3] + h[4])
  {
    if m == 0 { CentreHeight(g, level, i, j, h, sh, xh, yh); }
    hide Height, Sign, PosX, PosY, Vertex;
  }

  lemma CentreHeight(g: Grid, level: real, i: int, j: int, h: seq<real>, sh: seq<int>, xh: seq<real>, yh: seq<real>)
    requires g.IsCell(i, j) && Filled(g, level, i, j, 1, h, sh, xh, yh)
    ensures Height(g, level, Vertex(i, j, 0)) == 0.25 * (h[1] + h[2] + h[3] + h[4])
  {
  }

  lemma NothingFilled(g: Grid, level: real, i: int, j: int, h: seq<real>, sh: seq<int>, xh: seq<real>, yh: seq<real>)
    requires g.IsCell(i, j) && |h| == |sh| == |xh| == |yh| == 5
    ensures Filled(g, level, i, j, 5, h, sh, xh, yh)
  {
  }

  method FillVertex(g: Grid, level: real, i: int, j: int, m: nat,
                    h: array<real>, sh: array<int>, xh: array<real>, yh: array<real>)
    requires g.IsCell(i, j) && m <= 4 && h.Length == sh.Length == xh.Length == yh.Length == 5
    requires h != xh && xh != yh && yh != h
    requires m == 0 ==> Height(g, level, Vertex(i, j, 0)) == 0.25 * (h[1] + h[2] + h[3] + h[4])
    modifies h, sh, xh, yh
    ensures h[..] == old(h[..])[m := Height(g, level, Vertex(i, j, m))]
    ensures sh[..] == old(sh[..])[m := Sign(Height(g, level, Vertex(i, j, m)))]
    ensures xh[..] == old(xh[..])[m := PosX(g, Vertex(i, j, m))]
    ensures yh[..] == old(yh[..])[m := PosY(g, Vertex(i, j, m))]
  {
    if m > 0 {
      h[m] := g.d[i + IM[m - 1]][j + JM[m - 1]] - level;
      xh[m] := g.x[i + IM[m - 1]];
      yh[m] := g.y[j + JM[m - 1]];
    } else {
      h[0] := 0.25 * (h[1] + h[2] + h[3] + h[4]);
      xh[0] := 0.5 * (g.x[i] + g.x[i + 1]);
      yh[0] := 0.5 * (g.y[j] + g.y[j + 1]);
    }
    assert h[m] == Height(g, level, Vertex(i, j, m));
    if h[m] > 0.0 {
      sh[m] := 1;
    } else if h[m] < 0.0 {
      sh[m] := -1;
    } else {
      sh[m] := 0;
    }
  }

  /** The loop that fills the work arrays: the corners from 4 down to 1, then the centre. */
  method FillVertices(g: Grid, level: real, i: int, j: int,
                      h: array<real>, sh: array<int>, xh: array<real>, yh: array<real>)
    requires g.IsCell(i, j) && h.Length == sh.Length == xh.Length == yh.Length == 5
    requires h != xh && xh != yh && yh != h
    modifies h, sh, xh, yh
    ensures Filled(g, level, i, j, 0, h[..], sh[..], xh[..], yh[..])
  {
    NothingFilled(g, level, i, j, h[..], sh[..], xh[..], yh[..]);
    hide Filled, Height, Vertex, PosX, PosY;
    var m := 4;
    while m >= 0
      invariant -1 <= m <= 4
      invariant Filled(g, level, i, j, m + 1, h[..], sh[..], xh[..], yh[..])
    {
      FillsOne(g, level, i, j, m, h[..], sh[..], xh[..], yh[..]);
      FillVertex(g, level, i, j, m, h, sh, xh, yh);
      m := m - 1;
    }
  }

  /** The coordinates of an end, in terms of the work arrays. */
  lemma EndInArrays(g: Grid, level: real, i: int, j: int, p: nat, q: nat, h: seq<real>, sh: seq<int>, xh: seq<real>,
      yh: seq<real>)
    requires g.IsCell(i, j) && p <= 4 && q <= 4 && Filled(g, level, i, j, 0, h, sh, xh, yh)
    ensures var u, v := Vertex(i, j, p), Vertex(i, j, q);
      && EndX(g, level, At(u)) == xh[p] && EndY(g, level, At(u)) == yh[p]
      && (Between(u, v).In(g, level) <==> h[p] != h[q])
      && (h[p] != h[q] ==> EndX(g, level, Between(u, v)) == Section(h[p], h[q], xh[p], xh[q]))
      && (h[p] != h[q] ==> EndY(g, level, Between(u, v)) == Section(h[p], h[q], yh[p], yh[q]))
      && At(u).In(g, level)
  {
    assert Vertex(i, j, p).In(g) && Vertex(i, j, q).In(g);
    hide Height, PosX, PosY, Section, Vertex, Sign;
  }

  /** The switch: the two ends of the line for the triangle (m1, m2, m3). */
  method TriangleLine(g: Grid, level: real, i: int, j: int, case_value: nat, m1: nat, m2: nat, m3: nat,
                      h: array<real>, ghost sh: seq<int>, xh: array<real>, yh: array<real>)
    returns (x1: real, y1: real, x2: real, y2: real)
    requires g.IsCell(i, j) && m1 <= 4 && m2 <= 4 && m3 <= 4 && h.Length == xh.Length == yh.Length == 5
    requires Filled(g, level, i, j, 0, h[..], sh, xh[..], yh[..]) && 1 <= case_value <= 9
    requires CaseEnds(case_value, Vertex(i, j, m1), Vertex(i, j, m2), Vertex(i, j, m3)).0.In(g, level)
    requires CaseEnds(case_value, Vertex(i, j, m1), Vertex(i, j, m2), Vertex(i, j, m3)).1.In(g, level)
    ensures var e := CaseEnds(case_value, Vertex(i, j, m1), Vertex(i, j, m2), Vertex(i, j, m3));
      && x1 == EndX(g, level, e.0) && y1 == EndY(g, level, e.0) && x2 == EndX(g, level, e.1)
        && y2 == EndY(g, level, e.1)
  {
    EndInArrays(g, level, i, j, m1, m2, h[..], sh, xh[..], yh[..]);
    EndInArrays(g, level, i, j, m2, m3, h[..], sh, xh[..], yh[..]);
    EndInArrays(g, level, i, j, m3, m1, h[..], sh, xh[..], yh[..]);
    hide Filled, EndX, EndY, Section, Vertex, End.In;
    match case_value
    case 1 => x1 := xh[m1]; y1 := yh[m1]; x2 := xh[m2]; y2 := yh[m2];
    case 2 => x1 := xh[m2]; y1 := yh[m2]; x2 := xh[m3]; y2 := yh[m3];
    case 3 => x1 := xh[m3]; y1 := yh[m3]; x2 := xh[m1]; y2 := yh[m1];
    case 4 =>
      x1 := xh[m1]; y1 := yh[m1];
      x2 := Section(h[m2], h[m3], xh[m2], xh[m3]); y2 := Section(h[m2], h[m3], yh[m2], yh[m3]);
    case 5 =>
      x1 := xh[m2]; y1 := yh[m2];
      x2 := Section(h[m3], h[m1], xh[m3], xh[m1]); y2 := Section(h[m3], h[m1], yh[m3], yh[m1]);
    case 6 =>
      x1 := xh[m3]; y1 := yh[m3];
      x2 := Section(h[m1], h[m2], xh[m1], xh[m2]); y2 := Section(h[m1], h[m2], yh[m1], yh[m2]);
    case 7 =>
      x1 := Section(h[m1], h[m2], xh[m1], xh[m2]); y1 := Section(h[m1], h[m2], yh[m1], yh[m2]);
      x2 := Section(h[m2], h[m3], xh[m2], xh[m3]); y2 := Section(h[m2], h[m3], yh[m2], yh[m3]);
    case 8 =>
      x1 := Section(h[m2], h[m3], xh[m2], xh[m3]); y1 := Section(h[m2], h[m3], yh[m2], yh[m3]);
      x2 := Section(h[m3], h[m1], xh[m3], xh[m1]); y2 := Section(h[m3], h[m1], yh[m3], yh[m1]);
    case _ =>
      x1 := Section(h[m3], h[m1], xh[m3], xh[m1]); y1 := Section(h[m3], h[m1], yh[m3], yh[m1]);
      x2 := Section(h[m1], h[m2], xh[m1], xh[m2]); y2 := Section(h[m1], h[m2], yh[m1], yh[m2]);
  }

  // ----- drawing

  ghost predicate CanDraw(g: Grid, z: seq<real>, ps: seq<Piece>)
  {
    forall p :: p in ps ==> Drawable(g, z, p)
  }

  /** Drawing the pieces ps in order turns canvas a into canvas b. */
  ghost predicate Drawn(c: Canvas, g: Grid, z: seq<real>, ps: seq<Piece>, a: seq<byte>, b: seq<byte>)
  {
    && Fits(c, |a|) && CanDraw(g, z, ps)
    && b == DrawPieces(a, c, g, z, ps)
  }

  lemma NothingDrawn(c: Canvas, g: Grid, z: seq<real>, a: seq<byte>)
    requires Fits(c, |a|)
    ensures Drawn(c, g, z, [], a, a)
  {
  }

  lemma OneDrawn(c: Canvas, g: Grid, z: seq<real>, p: Piece, a: seq<byte>)
    requires Fits(c, |a|) && Drawable(g, z, p)
    ensures Drawn(c, g, z, [p], a, Draw(a, c, LineOf(g, z, p), BLACK))
  {
    NothingDrawn(c, g, z, a);
    assert [p][..0] == [];
  }

  lemma {:induction false} DrawnMore(c: Canvas, g: Grid, z: seq<real>, ps: seq<Piece>, qs: seq<Piece>, a: seq<byte>,
      b: seq<byte>, d: seq<byte>)
    requires Drawn(c, g, z, ps, a, b) && Drawn(c, g, z, qs, b, d)
    ensures Drawn(c, g, z, ps + qs, a, d)
  {
    hide Drawable, Draw, LineOf;
    if qs == [] {
      assert ps + qs == ps;
    } else {
      var n := |qs| - 1;
      DrawnMore(c, g, z, ps, qs[..n], a, b, DrawPieces(b, c, g, z, qs[..n]));
      assert (ps + qs)[..|ps + qs| - 1] == ps + qs[..n];
    }
  }

  /** One triangle: its case, its line, and the line on the canvas. */
  method ScanTriangle(g: Grid, z: seq<real>, k: nat, i: int, j: int, m: nat, canvas: array<byte>, c: Canvas,
                      h: array<real>, sh: array<int>, xh: array<real>, yh: array<real>) returns (drawn: nat)
    requires g.IsCell(i, j) && k < |z| && 1 <= m <= 4 && Fits(c, canvas.Length)
    requires h.Length == sh.Length == xh.Length == yh.Length == 5
    requires Filled(g, z[k], i, j, 0, h[..], sh[..], xh[..], yh[..])
    modifies canvas
    ensures var ps := TrianglePieces(g, z[k], k, Vertex(i, j, m), Vertex(i, j, 0),
      Vertex(i, j, if m != 4 then m + 1 else 1));
      drawn == |ps| && Drawn(c, g, z, ps, old(canvas[..]), canvas[..])
  {
    var m1, m2 := m, 0;
    var m3 := if m != 4 then m + 1 else 1;
    SignsInArrays(g, z[k], i, j, m1, m2, m3, h[..], sh[..], xh[..], yh[..]);
    var case_value := CASTAB[sh[m1] + 1][sh[m2] + 1][sh[m3] + 1];
    drawn := 0;
    if case_value != 0 {
      ghost var n1, n2, n3 := Vertex(i, j, m1), Vertex(i, j, m2), Vertex(i, j, m3);
      CellTriangle(g, i, j, m);
      EndsAreZeros(g, z[k], n1, n2, n3);
      ghost var e := CaseEnds(case_value, n1, n2, n3);
      var x1, y1, x2, y2 := TriangleLine(g, z[k], i, j, case_value, m1, m2, m3, h, sh[..], xh, yh);
      OneDrawn(c, g, z, Piece(k, e.0, e.1), canvas[..]);
      DrawLine(canvas, c, Line(Round(x1), Round(y1), Round(x2), Round(y2)), BLACK);
      drawn := 1;
    } else {
      NothingDrawn(c, g, z, canvas[..]);
    }
  }

  lemma SignsInArrays(g: Grid, level: real, i: int, j: int, m1: nat, m2: nat, m3: nat,
                      h: seq<real>, sh: seq<int>, xh: seq<real>, yh: seq<real>)
    requires g.IsCell(i, j) && m1 <= 4 && m2 <= 4 && m3 <= 4 && Filled(g, level, i, j, 0, h, sh, xh, yh)
    ensures -1 <= sh[m1] <= 1 && -1 <= sh[m2] <= 1 && -1 <= sh[m3] <= 1
    ensures CASTAB[sh[m1] + 1][sh[m2] + 1][sh[m3] + 1]
      == CaseOf(g, level, Vertex(i, j, m1), Vertex(i, j, m2), Vertex(i, j, m3))
    ensures CaseOf(g, level, Vertex(i, j, m1), Vertex(i, j, m2), Vertex(i, j, m3)) <= 9
  {
    hide Height, PosX, PosY, Vertex;
  }

  lemma NoTriangles(g: Grid, level: real, k: nat, i: int, j: int)
    requires g.IsCell(i, j)
    ensures TrianglesFrom(g, level, k, i, j, 5) == []
  {
  }

  lemma NextTriangle(g: Grid, level: real, k: nat, i: int, j: int, m: nat)
    requires g.IsCell(i, j) && 1 <= m <= 4
    ensures TrianglesFrom(g, level, k, i, j, m)
         == TrianglePieces(g, level, k, Vertex(i, j, m), Vertex(i, j, 0), Vertex(i, j, if m != 4 then m + 1 else 1))
          + TrianglesFrom(g, level, k, i, j, m + 1)
  {
    hide TrianglePieces, Vertex;
  }

  /** All four triangles of a cell at level k. */
  method ScanAtLevel(g: Grid, z: seq<real>, k: nat, i: int, j: int, canvas: array<byte>, c: Canvas,
                     h: array<real>, sh: array<int>, xh: array<real>, yh: array<real>) returns (drawn: nat)
    requires g.IsCell(i, j) && k < |z| && Fits(c, canvas.Length)
    requires h.Length == sh.Length == xh.Length == yh.Length == 5 && h != xh && xh != yh && yh != h
    modifies canvas, h, sh, xh, yh
    ensures drawn == |CellPieces(g, z[k], k, i, j)|
    ensures Drawn(c, g, z, CellPieces(g, z[k], k, i, j), old(canvas[..]), canvas[..])
  {
    hide Filled, Drawn, TrianglePieces, Vertex, TrianglesFrom, Fits;
    NoTriangles(g, z[k], k, i, j);
    FillVertices(g, z[k], i, j, h, sh, xh, yh);
    drawn := 0;
    ghost var done: seq<Piece> := [];
    NothingDrawn(c, g, z, canvas[..]);
    var m := 1;
    while m <= 4
      invariant 1 <= m <= 5 && drawn == |done|
      invariant done + TrianglesFrom(g, z[k], k, i, j, m) == CellPieces(g, z[k], k, i, j)
      invariant Drawn(c, g, z, done, old(canvas[..]), canvas[..])
      invariant Filled(g, z[k], i, j, 0, h[..], sh[..], xh[..], yh[..])
    {
      CellTriangle(g, i, j, m);
      NextTriangle(g, z[k], k, i, j, m);
      ghost var before := canvas[..];
      ghost var ps := TrianglePieces(g, z[k], k, Vertex(i, j, m), Vertex(i, j, 0),
        Vertex(i, j, if m != 4 then m + 1 else 1));
      var n := ScanTriangle(g, z, k, i, j, m, canvas, c, h, sh, xh, yh);
      DrawnMore(c, g, z, done, ps, old(canvas[..]), before, canvas[..]);
      drawn := drawn + n;
      done := done + ps;
      m := m + 1;
    }
    assert done == CellPieces(g, z[k], k, i, j);
  }

  /** One cell: the range tests and the loop over the levels. */
  method ScanCell(g: Grid, z: seq<real>, i: int, j: int, canvas: array<byte>, c: Canvas,
                  h: array<real>, sh: array<int>, xh: array<real>, yh: array<real>) returns (drawn: nat)
    requires g.IsCell(i, j) && |z| > 0 && Fits(c, canvas.Length)
    requires h.Length == sh.Length == xh.Length == yh.Length == 5 && h != xh && xh != yh && yh != h
    modifies canvas, h, sh, xh, yh
    ensures drawn == |CellScan(g, z, i, j)| && Drawn(c, g, z, CellScan(g, z, i, j), old(canvas[..]), canvas[..])
  {
    hide Drawn, CellPieces;
    drawn := 0;
    NothingDrawn(c, g, z, canvas[..]);
    var temp1 := Least(g.d[i][j], g.d[i][j + 1]);
    var temp2 := Least(g.d[i + 1][j], g.d[i + 1][j + 1]);
    var dmin := Least(temp1, temp2);
    temp1 := Greatest(g.d[i][j], g.d[i][j + 1]);
    temp2 := Greatest(g.d[i + 1][j], g.d[i + 1][j + 1]);
    var dmax := Greatest(temp1, temp2);
    assert dmin == Lowest(g, i, j) && dmax == Highest(g, i, j);
    hide Lowest, Highest;
    if dmax >= z[0] && dmin <= z[|z| - 1] {
      ghost var done: seq<Piece> := [];
      var k := 0;
      while k < |z|
        invariant 0 <= k <= |z| && drawn == |done|
        invariant done + LevelsFrom(g, z, i, j, k) == CellScan(g, z, i, j)
        invariant Drawn(c, g, z, done, old(canvas[..]), canvas[..])
      {
        if z[k] >= dmin && z[k] <= dmax {
          ghost var before := canvas[..];
          var n := ScanAtLevel(g, z, k, i, j, canvas, c, h, sh, xh, yh);
          DrawnMore(c, g, z, done, CellPieces(g, z[k], k, i, j), old(canvas[..]), before, canvas[..]);
          drawn := drawn + n;
          done := done + CellPieces(g, z[k], k, i, j);
        }
        k := k + 1;
      }
      assert done == CellScan(g, z, i, j);
    }
  }

  /** Row j, from column ilb. */
  method ScanRow(g: Grid, z: seq<real>, j: int, canvas: array<byte>, c: Canvas,
                 h: array<real>, sh: array<int>, xh: array<real>, yh: array<real>) returns (drawn: nat)
    requires g.Valid() && g.jlb <= j < g.jub && |z| > 0 && Fits(c, canvas.Length)
    requires h.Length == sh.Length == xh.Length == yh.Length == 5 && h != xh && xh != yh && yh != h
    modifies canvas, h, sh, xh, yh
    ensures drawn == |RowFrom(g, z, g.ilb, j)| && Drawn(c, g, z, RowFrom(g, z, g.ilb, j), old(canvas[..]), canvas[..])
  {
    hide Drawn, CellScan;
    drawn := 0;
    ghost var done: seq<Piece> := [];
    NothingDrawn(c, g, z, canvas[..]);
    var i := g.ilb;
    while i <= g.iub - 1
      invariant g.ilb <= i && drawn == |done|
      invariant done + RowFrom(g, z, i, j) == RowFrom(g, z, g.ilb, j)
      invariant Drawn(c, g, z, done, old(canvas[..]), canvas[..])
    {
      ghost var before := canvas[..];
      var n := ScanCell(g, z, i, j, canvas, c, h, sh, xh, yh);
      DrawnMore(c, g, z, done, CellScan(g, z, i, j), old(canvas[..]), before, canvas[..]);
      drawn := drawn + n;
      done := done + CellScan(g, z, i, j);
      i := i + 1;
    }
    assert done == RowFrom(g, z, g.ilb, j);
  }

  /** `conrec`: draws every piece of every contour; returns `line_count`. */
  method DrawContours(g: Grid, z: seq<real>, canvas: array<byte>, c: Canvas) returns (line_count: nat)
    requires g.Valid() && |z| > 0 && Fits(c, canvas.Length)
    modifies canvas
    ensures line_count == |Contours(g, z)| && Drawn(c, g, z, Contours(g, z), old(canvas[..]), canvas[..])
  {
    hide Drawn, RowFrom;
    var h, sh, xh, yh := new real[5], new int[5], new real[5], new real[5];
    line_count := 0;
    ghost var done: seq<Piece> := [];
    NothingDrawn(c, g, z, canvas[..]);
    var j := g.jub - 1;
    while j >= g.jlb
      invariant j < g.jub && line_count == |done|
      invariant done + RowsDown(g, z, j) == Contours(g, z)
      invariant Drawn(c, g, z, done, old(canvas[..]), canvas[..])
    {
      ghost var before := canvas[..];
      var n := ScanRow(g, z, j, canvas, c, h, sh, xh, yh);
      DrawnMore(c, g, z, done, RowFrom(g, z, g.ilb, j), old(canvas[..]), before, canvas[..]);
      line_count := line_count + n;
      done := done + RowFrom(g, z, g.ilb, j);
      j := j - 1;
    }
    assert done == Contours(g, z);
  }
}
