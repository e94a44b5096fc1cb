/** Which bytes of the canvas a line, and a list of contour pieces, changes. */
module Pixels {
  import opened Bresenham
  import opened Conrec
  import opened ConrecScan

  /** Pixel (y, x) is one of the first n points of the line. */
  ghost predicate Plotted(l: Line, n: nat, y: int, x: int)
  {
    exists k: nat :: k < n && Point(l, k) == (y, x)
  }

  ghost predicate OnLine(l: Line, y: int, x: int)
  {
    Plotted(l, Steps(l) + 1, y, x)
  }

  function Component(k: Colour, t: nat): byte
  {
    if t == 0 then k.r else if t == 1 then k.g else if t == 2 then k.b else k.a
  }

  lemma RowsApart(w: nat, y: nat, x: nat, y': nat, x': nat)
    requires x < w && x' < w && y < y'
    ensures y * w + x < y' * w + x'
  {
    assert (y + 1) * w <= y' * w;
    assert (y + 1) * w == y * w + w;
  }

  lemma PixelsApart(c: Canvas, y: nat, x: nat, y': nat, x': nat)
    requires OnCanvas(c, y, x) && OnCanvas(c, y', x') && (y, x) != (y', x')
    ensures Index(c, y, x) + 4 <= Index(c, y', x') || Index(c, y', x') + 4 <= Index(c, y, x)
  {
    if y < y' { RowsApart(c.width, y, x, y', x'); }
    if y' < y { RowsApart(c.width, y', x', y, x); }
  }

  lemma PutPixelAt(buf: seq<byte>, c: Canvas, py: int, px: int, k: Colour, y: nat, x: nat, t: nat)
    requires Fits(c, |buf|) && OnCanvas(c, y, x) && t < 4
    ensures Index(c, y, x) + 4 <= |buf|
    ensures PutPixel(buf, c, py, px, k)[Index(c, y, x) + t]
         == if (py, px) == (y, x) then Component(k, t) else buf[Index(c, y, x) + t]
  {
    IndexInside(c, |buf|, y, x);
    if OnCanvas(c, py, px) {
      IndexInside(c, |buf|, py, px);
      if (py, px) != (y, x) { PixelsApart(c, py, px, y, x); }
    }
    hide Index;
  }

  lemma PutPixelBeyond(buf: seq<byte>, c: Canvas, py: int, px: int, k: Colour, b: nat)
    requires Fits(c, |buf|) && 4 * (c.width * c.height) <= b < |buf|
    ensures PutPixel(buf, c, py, px, k)[b] == buf[b]
  {
    if OnCanvas(c, py, px) {
      IndexInside(c, 4 * (c.width * c.height), py, px);
    }
  }

  lemma {:induction false} PlotAt(buf: seq<byte>, c: Canvas, l: Line, n: nat, k: Colour, y: nat, x: nat, t: nat)
    requires Fits(c, |buf|) && OnCanvas(c, y, x) && t < 4
    ensures Index(c, y, x) + 4 <= |buf|
    ensures Plot(buf, c, l, n, k)[Index(c, y, x) + t]
         == if Plotted(l, n, y, x) then Component(k, t) else buf[Index(c, y, x) + t]
  {
    hide Index, PutPixel, Point, Component;
    PutPixelAt(buf, c, y, x, k, y, x, t);
    if n > 0 {
      PlotAt(buf, c, l, n - 1, k, y, x, t);
      var q := Point(l, n - 1);
      PutPixelAt(Plot(buf, c, l, n - 1, k), c, q.0, q.1, k, y, x, t);
      PlottedNext(l, n, y, x);
      hide Plotted;
    }
  }

  lemma PlottedNext(l: Line, n: nat, y: int, x: int)
    requires n > 0
    ensures Plotted(l, n, y, x) <==> Plotted(l, n - 1, y, x) || Point(l, n - 1) == (y, x)
  {
    hide Point;
  }

  lemma {:induction false} PlotBeyond(buf: seq<byte>, c: Canvas, l: Line, n: nat, k: Colour, b: nat)
    requires Fits(c, |buf|) && 4 * (c.width * c.height) <= b < |buf|
    ensures Plot(buf, c, l, n, k)[b] == buf[b]
  {
    if n > 0 {
      PlotBeyond(buf, c, l, n - 1, k, b);
      var q := Point(l, n - 1);
      PutPixelBeyond(Plot(buf, c, l, n - 1, k), c, q.0, q.1, k, b);
      hide Point, PutPixel;
    }
  }

  // ----- pieces

  /** Pixel (y, x) is on the line of one of the pieces. */
  ghost predicate Lit(g: Grid, z: seq<real>, ps: seq<Piece>, y: int, x: int)
  {
    exists p :: p in ps && Drawable(g, z, p) && OnLine(LineOf(g, z, p), y, x)
  }

  lemma {:induction false} DrawnAt(c: Canvas, g: Grid, z: seq<real>, ps: seq<Piece>, a: seq<byte>, b: seq<byte>,
      y: nat, x: nat, t: nat)
    requires Drawn(c, g, z, ps, a, b) && OnCanvas(c, y, x) && t < 4
    ensures Index(c, y, x) + 4 <= |a| == |b|
    ensures b[Index(c, y, x) + t] == if Lit(g, z, ps, y, x) then Component(BLACK, t) else a[Index(c, y, x) + t]
  {
    hide Index, Plot, OnLine, LineOf, Drawable, Component, OnCanvas, Fits, BLACK;
    PlotAt(a, c, Line(0, 0, 0, 0), 0, BLACK, y, x, t);
    if ps != [] {
      var n := |ps| - 1;
      var b' := DrawPieces(a, c, g, z, ps[..n]);
      DrawnAt(c, g, z, ps[..n], a, b', y, x, t);
      DrawAt(b', c, LineOf(g, z, ps[n]), y, x, t);
      LitNext(g, z, ps, y, x);
      hide Lit, Draw, DrawPieces;
    }
  }

  lemma DrawAt(buf: seq<byte>, c: Canvas, l: Line, y: nat, x: nat, t: nat)
    requires Fits(c, |buf|) && OnCanvas(c, y, x) && t < 4
    ensures Index(c, y, x) + 4 <= |buf|
    ensures Draw(buf, c, l, BLACK)[Index(c, y, x) + t]
         == if OnLine(l, y, x) then Component(BLACK, t) else buf[Index(c, y, x) + t]
  {
    PlotAt(buf, c, l, Steps(l) + 1, BLACK, y, x, t);
    hide Plot, Plotted, Index, Component;
  }

  lemma LitNext(g: Grid, z: seq<real>, ps: seq<Piece>, y: int, x: int)
    requires ps != [] && CanDraw(g, z, ps)
    ensures Drawable(g, z, ps[|ps| - 1])
    ensures Lit(g, z, ps, y, x) <==> Lit(g, z, ps[..|ps| - 1], y, x) || OnLine(LineOf(g, z, ps[|ps| - 1]), y, x)
  {
    hide Drawable, OnLine, LineOf;
    var n := |ps| - 1;
    assert ps == ps[..n] + [ps[n]];
    assert Drawable(g, z, ps[n]);
    if Lit(g, z, ps[..n], y, x) {
      var p :| p in ps[..n] && Drawable(g, z, p) && OnLine(LineOf(g, z, p), y, x);
      assert p in ps;
    }
  }

  lemma {:induction false} DrawnBeyond(c: Canvas, g: Grid, z: seq<real>, ps: seq<Piece>, a: seq<byte>, b: seq<byte>,
      i: nat)
    requires Drawn(c, g, z, ps, a, b) && 4 * (c.width * c.height) <= i < |a|
    ensures |b| == |a| && b[i] == a[i]
  {
    hide Plot, LineOf, Drawable;
    if ps != [] {
      var n := |ps| - 1;
      var b' := DrawPieces(a, c, g, z, ps[..n]);
      DrawnBeyond(c, g, z, ps[..n], a, b', i);
      PlotBeyond(b', c, LineOf(g, z, ps[n]), Steps(LineOf(g, z, ps[n])) + 1, BLACK, i);
    }
  }

  /** The four bytes of a pixel. */
  function PixelBytes(buf: seq<byte>, c: Canvas, y: nat, x: nat): seq<byte>
    requires Fits(c, |buf|) && OnCanvas(c, y, x)
  {
    IndexInside(c, |buf|, y, x);
    buf[Index(c, y, x)..Index(c, y, x) + 4]
  }

  lemma DrawnPixel(c: Canvas, g: Grid, z: seq<real>, ps: seq<Piece>, a: seq<byte>, b: seq<byte>, y: nat, x: nat)
    requires Drawn(c, g, z, ps, a, b) && OnCanvas(c, y, x)
    ensures |b| == |a|
    ensures PixelBytes(b, c, y, x) == if Lit(g, z, ps, y, x) then [0, 0, 0, 255] else PixelBytes(a, c, y, x)
  {
    hide Index, Lit, Drawn, BLACK;
    DrawnAt(c, g, z, ps, a, b, y, x, 0);
    DrawnAt(c, g, z, ps, a, b, y, x, 1);
    DrawnAt(c, g, z, ps, a, b, y, x, 2);
    DrawnAt(c, g, z, ps, a, b, y, x, 3);
    BlackIs();
  }

  lemma BlackIs()
    ensures BLACK.r == BLACK.g == BLACK.b == 0 && BLACK.a == 255
  {
  }

  /** Drawing contours paints every pixel on one of their lines black, and changes no other byte. */
  lemma OnlyLinesChange(c: Canvas, g: Grid, z: seq<real>, ps: seq<Piece>, a: seq<byte>, b: seq<byte>)
    requires Drawn(c, g, z, ps, a, b)
    ensures |b| == |a| && Fits(c, |a|)
    ensures forall y: nat, x: nat :: OnCanvas(c, y, x) ==>
      PixelBytes(b, c, y, x) == if Lit(g, z, ps, y, x) then [0, 0, 0, 255] else PixelBytes(a, c, y, x)
    ensures forall i: nat :: 4 * (c.width * c.height) <= i < |a| ==> b[i] == a[i]
  {
    forall y: nat, x: nat | OnCanvas(c, y, x)
      ensures |b| == |a| && PixelBytes(b, c, y, x) == if Lit(g, z, ps, y, x) then [0, 0, 0, 255]
        else PixelBytes(a, c, y, x)
    {
      DrawnPixel(c, g, z, ps, a, b, y, x);
    }
    forall i: nat | 4 * (c.width * c.height) <= i < |a| ensures b[i] == a[i] {
      DrawnBeyond(c, g, z, ps, a, b, i);
    }
    hide Lit, OnCanvas, PixelBytes;
  }
}
