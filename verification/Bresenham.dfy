/** `set_pixel` and `line` of conrec.c: Bresenham's line drawer. */
module Bresenham {

  import Bytes

  type byte = Bytes.byte

  datatype Canvas = Canvas(width: nat, height: nat)
  datatype Colour = Colour(r: byte, g: byte, b: byte, a: byte)

  predicate Fits(c: Canvas, length: nat)
  {
    4 * (c.width * c.height) <= length
  }

  predicate OnCanvas(c: Canvas, y: int, x: int)
  {
    0 <= x < c.width && 0 <= y < c.height
  }

  function Index(c: Canvas, y: nat, x: nat): nat
  {
    (y * c.width + x) * 4
  }

  lemma IndexInside(c: Canvas, length: nat, y: nat, x: nat)
    requires Fits(c, length) && OnCanvas(c, y, x)
    ensures Index(c, y, x) + 4 <= length
  {
    assert (y + 1) * c.width <= c.height * c.width;
    assert y * c.width + c.width == (y + 1) * c.width;
  }

  /** The buffer after one pixel; a pixel off the canvas is dropped. */
  function PutPixel(buf: seq<byte>, c: Canvas, y: int, x: int, k: Colour): (r: seq<byte>)
    requires Fits(c, |buf|)
    ensures |r| == |buf|
  {
    if !OnCanvas(c, y, x) then buf
    else
      IndexInside(c, |buf|, y, x);
      var i := Index(c, y, x);
      buf[..i] + [k.r, k.g, k.b, k.a] + buf[i + 4..]
  }

  method SetPixel(buffer: array<byte>, c: Canvas, y: int, x: int, k: Colour)
    requires Fits(c, buffer.Length)
    modifies buffer
    ensures buffer[..] == PutPixel(old(buffer[..]), c, y, x, k)
  {
    if x < 0 || x >= c.width || y < 0 || y >= c.height {
      return;
    }
    IndexInside(c, buffer.Length, y, x);
    var index := (y * c.width + x) * 4;
    buffer[index + 0] := k.r;
    buffer[index + 1] := k.g;
    buffer[index + 2] := k.b;
    buffer[index + 3] := k.a;
  }

  /** A pixel (y, x) on the canvas is the four bytes from 4 (y width + x) on; a pixel off it is dropped. */
  lemma PutPixelBytes(buf: seq<byte>, c: Canvas, y: int, x: int, k: Colour, n: nat)
    requires Fits(c, |buf|) && n < |buf|
    ensures PutPixel(buf, c, y, x, k)[n] ==
      var first := 4 * (y * c.width + x);
      if !(0 <= x < c.width && 0 <= y < c.height) then buf[n]
      else if n == first then k.r
      else if n == first + 1 then k.g
      else if n == first + 2 then k.b
      else if n == first + 3 then k.a
      else buf[n]
  {
    if OnCanvas(c, y, x) {
      IndexInside(c, |buf|, y, x);
    }
  }

  // ----- the pen

  function Abs(x: int): nat { if x < 0 then -x else x }

  function Max(a: int, b: int): int { if a > b then a else b }

  /** How many steps the pen has taken in x and in y, and the variable `err`. */
  datatype Pen = Pen(a: nat, b: nat, err: int)

  /** `(dx > dy ? dx : -dy) / 2`, rounding toward zero. */
  function StartError(dx: nat, dy: nat): int
  {
    if dx > dy then dx / 2 else -(dy / 2)
  }

  /** One turn of the loop. */
  function Next(dx: nat, dy: nat, p: Pen): Pen
  {
    var sx := p.err > 0 - dx;
    var sy := p.err < dy;
    Pen(if sx then p.a + 1 else p.a, if sy then p.b + 1 else p.b,
        p.err - (if sx then dy else 0) + if sy then dx else 0)
  }

  function After(dx: nat, dy: nat, k: nat): Pen
  {
    if k == 0 then Pen(0, 0, StartError(dx, dy)) else Next(dx, dy, After(dx, dy, k - 1))
  }

  /** The longer direction moves at every turn, and `err` stays in a window of its size. */
  ghost predicate OnCourse(dx: nat, dy: nat, k: nat, p: Pen)
  {
    && p.err == StartError(dx, dy) - p.a * dy + p.b * dx
    && if dx > dy then p.a == k && 0 <= p.err < dx else p.b == k && 0 <= p.err + dy <= dy && (dy > 0 ==> 0 < p.err + dy)
  }

  lemma {:induction false} StaysOnCourse(dx: nat, dy: nat, k: nat)
    requires k <= Max(dx, dy)
    ensures OnCourse(dx, dy, k, After(dx, dy, k))
  {
    if k > 0 {
      StaysOnCourse(dx, dy, k - 1);
      var p := After(dx, dy, k - 1);
      OneMore(p.a, dy);
      OneMore(p.b, dx);
    }
  }

  lemma OneMore(m: int, d: int)
    ensures (m + 1) * d == m * d + d
  {
  }

  lemma MultipleInWindow(m: int, d: nat)
    requires d > 0
    ensures m >= 1 ==> m * d >= d
    ensures m <= -1 ==> m * d <= 0 - d
  {
    if m >= 1 {
      assert m * d == d + (m - 1) * d && (m - 1) * d >= 0;
    } else if m <= -1 {
      assert m * d == -1 * d + (m + 1) * d && (m + 1) * d <= 0;
    }
  }

  /** The loop reaches the end point after exactly max(dx, dy) turns and not before. */
  lemma EndsAtCorner(dx: nat, dy: nat)
    ensures After(dx, dy, Max(dx, dy)).a == dx && After(dx, dy, Max(dx, dy)).b == dy
    ensures forall k :: 0 <= k < Max(dx, dy) ==> After(dx, dy, k).a != dx || After(dx, dy, k).b != dy
  {
    hide After, OnCourse;
    var n := Max(dx, dy);
    MajorSteps(dx, dy, n);
    if n > 0 {
      StaysOnCourse(dx, dy, n);
      ArrivesTogether(dx, dy, After(dx, dy, n));
    }
    forall k | 0 <= k < n ensures After(dx, dy, k).a != dx || After(dx, dy, k).b != dy {
      MajorSteps(dx, dy, k);
    }
  }

  lemma MajorSteps(dx: nat, dy: nat, k: nat)
    requires k <= Max(dx, dy)
    ensures var p := After(dx, dy, k); if dx > dy then p.a == k else p.b == k
    ensures After(dx, dy, 0).a == After(dx, dy, 0).b == 0
  {
    StaysOnCourse(dx, dy, k);
  }

  lemma ArrivesTogether(dx: nat, dy: nat, p: Pen)
    requires OnCourse(dx, dy, Max(dx, dy), p) && Max(dx, dy) > 0
    ensures p.a == dx && p.b == dy
  {
    if dx > dy {
      assert (p.b - dy) * dx == p.b * dx - dx * dy;
      MultipleInWindow(p.b - dy, dx);
    } else if dy > 0 {
      assert (dx - p.a) * dy == dy * dx - p.a * dy;
      MultipleInWindow(dx - p.a, dy);
    }
  }

  /** Every point is within half a step of the true line. */
  lemma ErrorBound(dx: nat, dy: nat, k: nat)
    requires k <= Max(dx, dy)
    ensures var p := After(dx, dy, k); 2 * Abs(p.b * dx - p.a * dy) <= Max(dx, dy)
  {
    StaysOnCourse(dx, dy, k);
  }

  lemma QuotientOf(m: int, d: int, n: int)
    requires 0 < d && n <= m * d < n + d
    ensures m == (n + d - 1) / d
  {
    var q := (n + d - 1) / d;
    assert n <= q * d < n + d;
    assert (m - q) * d == m * d - q * d;
    MultipleInWindow(m - q, d);
  }

  /** Point k in one formula: along the longer direction k, along the other one the multiple of the slope rounded to
      a whole number, halves down. */
  lemma ClosedForm(dx: nat, dy: nat, k: nat)
    requires k <= Max(dx, dy) && Max(dx, dy) > 0
    ensures var p := After(dx, dy, k);
      if dx > dy then p.a == k && p.b == (k * dy - dx / 2 + dx - 1) / dx
      else p.b == k && p.a == (k * dx - dy / 2 + dy - 1) / dy
  {
    StaysOnCourse(dx, dy, k);
    var p := After(dx, dy, k);
    hide After;
    if dx > dy {
      QuotientOf(p.b, dx, k * dy - dx / 2);
    } else {
      QuotientOf(p.a, dy, k * dx - dy / 2);
    }
  }

  lemma {:induction false} PenAdvances(dx: nat, dy: nat, k: nat, n: nat)
    requires k <= n
    ensures After(dx, dy, k).a <= After(dx, dy, n).a && After(dx, dy, k).b <= After(dx, dy, n).b
    decreases n
  {
    if k < n { PenAdvances(dx, dy, k, n - 1); }
  }

  /** Every point lies in the bounding box. */
  lemma InsideBox(dx: nat, dy: nat, k: nat)
    requires k <= Max(dx, dy)
    ensures After(dx, dy, k).a <= dx && After(dx, dy, k).b <= dy
  {
    EndsAtCorner(dx, dy);
    PenAdvances(dx, dy, k, Max(dx, dy));
  }

  /** Neighbouring points touch: each coordinate moves by at most one, and one of them moves. */
  lemma Connected(dx: nat, dy: nat, k: nat)
    requires k < Max(dx, dy)
    ensures var p, q := After(dx, dy, k), After(dx, dy, k + 1);
      p.a <= q.a <= p.a + 1 && p.b <= q.b <= p.b + 1 && (q.a > p.a || q.b > p.b)
  {
    StaysOnCourse(dx, dy, k);
  }

  // ----- the line

  datatype Line = Line(x0: int, y0: int, x1: int, y1: int)

  function Towards(from: int, to: int): int { if from < to then 1 else -1 }

  function Steps(l: Line): nat { Max(Abs(l.x1 - l.x0), Abs(l.y1 - l.y0)) }

  /** Point number k of the line. */
  function Point(l: Line, k: nat): (int, int)
  {
    var p := After(Abs(l.x1 - l.x0), Abs(l.y1 - l.y0), k);
    (l.x0 + Towards(l.x0, l.x1) * p.a, l.y0 + Towards(l.y0, l.y1) * p.b)
  }

  /** The buffer after the first n points. */
  function Plot(buf: seq<byte>, c: Canvas, l: Line, n: nat, k: Colour): (r: seq<byte>)
    requires Fits(c, |buf|)
    ensures |r| == |buf|
  {
    if n == 0 then buf
    else
      var q := Point(l, n - 1);
      PutPixel(Plot(buf, c, l, n - 1, k), c, q.0, q.1, k)
  }

  /** The buffer after the whole line. */
  function Draw(buf: seq<byte>, c: Canvas, l: Line, k: Colour): (r: seq<byte>)
    requires Fits(c, |buf|)
    ensures |r| == |buf|
  {
    Plot(buf, c, l, Steps(l) + 1, k)
  }

  /** The loop variables after n turns. */
  ghost predicate PenAt(l: Line, n: nat, x0: int, y0: int, err: int) {
    (x0, y0) == Point(l, n) && err == After(Abs(l.x1 - l.x0), Abs(l.y1 - l.y0), n).err
  }

  /** What one turn does to them. */
  lemma PenMoves(l: Line, n: nat, x0: int, y0: int, err: int)
    requires PenAt(l, n, x0, y0, err)
    ensures var dx, dy := Abs(l.x1 - l.x0), Abs(l.y1 - l.y0);
      PenAt(l, n + 1, if err > 0 - dx then x0 + Towards(l.x0, l.x1) else x0,
            if err < dy then y0 + Towards(l.y0, l.y1) else y0,
            err - (if err > 0 - dx then dy else 0) + if err < dy then dx else 0)
  {
    hide Abs;
  }

  lemma NothingPlotted(buf: seq<byte>, c: Canvas, l: Line, k: Colour)
    requires Fits(c, |buf|)
    ensures Plot(buf, c, l, 0, k) == buf
  {
  }

  lemma PlotNext(buf: seq<byte>, c: Canvas, l: Line, n: nat, k: Colour)
    requires Fits(c, |buf|)
    ensures Plot(buf, c, l, n + 1, k) == PutPixel(Plot(buf, c, l, n, k), c, Point(l, n).0, Point(l, n).1, k)
  {
    hide PutPixel, Point;
  }

  method DrawLine(buffer: array<byte>, c: Canvas, l: Line, k: Colour)
    requires Fits(c, buffer.Length)
    modifies buffer
    ensures buffer[..] == Draw(old(buffer[..]), c, l, k)
  {
    var x0, y0, x1, y1 := l.x0, l.y0, l.x1, l.y1;
    var dx: int, sx := Abs(x1 - x0), if x0 < x1 then 1 else -1;
    var dy: int, sy := Abs(y1 - y0), if y0 < y1 then 1 else -1;
    var err := if dx > dy then dx / 2 else -(dy / 2);
    ghost var n: nat := 0;
    assert PenAt(l, 0, x0, y0, err);
    hide After, Max, Abs, Point, PutPixel, PenAt, Steps, Plot;
    NothingPlotted(buffer[..], c, l, k);
    while true
      invariant n <= Steps(l) && PenAt(l, n, x0, y0, err)
      invariant buffer[..] == Plot(old(buffer[..]), c, l, n, k)
      decreases Steps(l) - n
    {
      AtEnd(l, n, x0, y0, err);
      PlotNext(old(buffer[..]), c, l, n, k);
      SetPixel(buffer, c, x0, y0, k);
      if x0 == x1 && y0 == y1 {
        break;
      }
      PenMoves(l, n, x0, y0, err);
      var e2 := err;
      if e2 > 0 - dx {
        err := err - dy;
        x0 := x0 + sx;
      }
      if e2 < dy {
        err := err + dx;
        y0 := y0 + sy;
      }
      n := n + 1;
    }
  }

  /** The exit test of the loop holds at the last point only. */
  lemma AtEnd(l: Line, n: nat, x0: int, y0: int, err: int)
    requires n <= Steps(l) && PenAt(l, n, x0, y0, err)
    ensures (x0, y0) == Point(l, n)
    ensures x0 == l.x1 && y0 == l.y1 <==> n == Steps(l)
  {
    var dx, dy := Abs(l.x1 - l.x0), Abs(l.y1 - l.y0);
    EndsAtCorner(dx, dy);
    InsideBox(dx, dy, n);
    hide After;
  }
}
