/** What the function of Lttb calls the area of a triangle. */
module TriangleAreas {
  import opened Lttb

  datatype Point = Point(x: real, y: real)

  function Area(a: Point, m: Point, r: Point): real { TriangleArea(a.x, a.y, m.x, m.y, r.x, r.y) }

  /** The point t of the way from p to q, seen from r. */
  function Along(r: Point, p: Point, q: Point, t: real): Point { Point(r.x + t * (q.x - p.x), r.y + t * (q.y - p.y)) }

  function Cross(u: real, v: real, x: real, y: real): real { u * y - x * v }

  ghost predicate Collinear(a: Point, m: Point, r: Point) { a == m || exists t: real :: r == Along(a, a, m, t) }

  /** Twice the area with its sign. */
  function Turned(a: Point, m: Point, r: Point): real
  {
    Cross(m.x - a.x, m.y - a.y, r.x - a.x, r.y - a.y)
  }

  /** Half the turn, whichever way round. */
  lemma AreaIsHalfTurn(a: Point, m: Point, r: Point)
    ensures Area(a, m, r) == Abs(Turned(a, m, r)) * 0.5
  {
    assert (a.x - m.x) * (r.y - a.y) == -((m.x - a.x) * (r.y - a.y));
    assert (a.x - r.x) * (m.y - a.y) == -((r.x - a.x) * (m.y - a.y));
  }

  lemma AbsProduct(x: real, y: real)
    ensures Abs(x * y) == Abs(x) * Abs(y)
  {
    if x >= 0.0 && y < 0.0 { assert x * y == -(x * -y); }
    if x < 0.0 && y >= 0.0 { assert x * y == -(-x * y); }
    if x < 0.0 && y < 0.0 { assert x * y == -x * -y; }
    Signs(Abs(x), Abs(y));
  }

  lemma Signs(x: real, y: real)
    requires x >= 0.0 && y >= 0.0
    ensures x * y >= 0.0
  {
  }

  /** Half base times height over a horizontal base. */
  lemma AreaOverBase(a: Point, m: Point, r: Point)
    requires a.y == m.y
    ensures Area(a, m, r) == Abs(m.x - a.x) * Abs(r.y - a.y) / 2.0
  {
    AreaIsHalfTurn(a, m, r);
    assert (r.x - a.x) * (m.y - a.y) == 0.0;
    AbsProduct(m.x - a.x, r.y - a.y);
  }

  /** Moving all three vertices alike changes nothing. */
  lemma AreaMoved(a: Point, m: Point, r: Point, dx: real, dy: real)
    ensures Area(Point(a.x + dx, a.y + dy), Point(m.x + dx, m.y + dy), Point(r.x + dx, r.y + dy)) == Area(a, m, r)
  {
    AreaIsHalfTurn(a, m, r);
    AreaIsHalfTurn(Point(a.x + dx, a.y + dy), Point(m.x + dx, m.y + dy), Point(r.x + dx, r.y + dy));
    hide Area, Cross, Abs;
  }

  lemma Distribute(a: real, b: real, c: real)
    ensures a * (b + c) == a * b + a * c && (b + c) * a == b * a + c * a
  {
  }

  lemma Reorder(a: real, b: real, c: real)
    ensures a * (b * c) == (b * a) * c
  {
  }

  lemma ShearedProducts(u: real, v: real, x: real, y: real, t: real, x': real, y': real)
    requires x' == x + t * u && y' == y + t * v
    ensures Cross(u, v, x', y') == Cross(u, v, x, y)
  {
    Distribute(u, y, t * v);
    Distribute(v, x, t * u);
    Reorder(u, t, v);
  }

  /** Moving a vertex along the opposite side changes nothing. */
  lemma AreaSheared(a: Point, m: Point, r: Point, t: real)
    ensures Area(a, m, Along(r, a, m, t)) == Area(a, m, r)
  {
    var s := Along(r, a, m, t);
    AreaIsHalfTurn(a, m, r);
    AreaIsHalfTurn(a, m, s);
    hide Area, Cross, Abs;
    ShearedProducts(m.x - a.x, m.y - a.y, r.x - a.x, r.y - a.y, t, s.x - a.x, s.y - a.y);
  }

  /** Nor does it matter which vertex comes first. */
  lemma AreaPermuted(a: Point, m: Point, r: Point)
    ensures Area(a, r, m) == Area(a, m, r) == Area(m, a, r) == Area(m, r, a) == Area(r, a, m) == Area(r, m, a)
  {
    AreaIsHalfTurn(a, m, r);
    AreaIsHalfTurn(a, r, m);
    AreaIsHalfTurn(m, a, r);
    AreaIsHalfTurn(m, r, a);
    AreaIsHalfTurn(r, a, m);
    AreaIsHalfTurn(r, m, a);
    hide Area;
    TurnsAround(a, m, r);
    TurnsAround(m, r, a);
    hide Turned;
  }

  lemma TurnsAround(a: Point, m: Point, r: Point)
    ensures Turned(m, r, a) == Turned(a, m, r)
    ensures Turned(a, r, m) == Turned(m, a, r) == Turned(r, m, a) == -Turned(a, m, r)
  {
  }

  lemma ZeroProduct(x: real, y: real)
    requires x * y == 0.0
    ensures x == 0.0 || y == 0.0
  {
  }

  /** The area is 0 if and only if the three points are on one line. */
  lemma AreaZero(a: Point, m: Point, r: Point)
    ensures Area(a, m, r) == 0.0 <==> Collinear(a, m, r)
  {
    AreaIsHalfTurn(a, m, r);
    hide Area;
    var u, v := m.x - a.x, m.y - a.y;
    if Turned(a, m, r) == 0.0 && a != m {
      var t := if u != 0.0 then (r.x - a.x) / u else (r.y - a.y) / v;
      OnLine(a, m, r, t);
      assert r == Along(a, a, m, t);
    }
    if t: real :| r == Along(a, a, m, t) {
      assert u * (t * v) == (t * u) * v;
    }
  }

  lemma OnLine(a: Point, m: Point, r: Point, t: real)
    requires Turned(a, m, r) == 0.0 && a != m
    requires t == if m.x != a.x then (r.x - a.x) / (m.x - a.x) else (r.y - a.y) / (m.y - a.y)
    ensures r == Along(a, a, m, t)
  {
    var u, v, x, y := m.x - a.x, m.y - a.y, r.x - a.x, r.y - a.y;
    if u != 0.0 {
      assert t * u == x;
      assert u * y == x * v == t * u * v == u * (t * v);
      assert u * (y - t * v) == 0.0;
      ZeroProduct(u, y - t * v);
    } else {
      assert t * v == y;
      assert x * v == 0.0;
      ZeroProduct(x, v);
    }
  }
}
