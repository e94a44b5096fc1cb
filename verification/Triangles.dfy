/** The pieces of conrec.c are the zero sets of the linear interpolants on the triangles. */
module Triangles {
  import opened Conrec

  /** A point of a triangle, as weights of its three vertices. */
  datatype Weights = Weights(a: real, b: real, c: real) {
    predicate Inside() { 0.0 <= a && 0.0 <= b && 0.0 <= c && a + b + c == 1.0 }

    /** The linear interpolant at this point. */
    function Blend(h1: real, h2: real, h3: real): real { a * h1 + b * h2 + c * h3 }
  }

  /** The weight of vertex n in an end of a piece. */
  function WeightOf(g: Grid, level: real, e: End, n: Node): real
    requires n.In(g)
    requires e.Between? ==> e.p.In(g) && e.q.In(g) && Height(g, level, e.p) != Height(g, level, e.q)
  {
    match e
    case At(v) => if v == n then 1.0 else 0.0
    case Between(p, q) =>
      var hp, hq := Height(g, level, p), Height(g, level, q);
      if n == p then hq / (hq - hp) else if n == q then -hp / (hq - hp) else 0.0
  }

  function EndWeights(g: Grid, level: real, e: End, n1: Node, n2: Node, n3: Node): Weights
    requires n1.In(g) && n2.In(g) && n3.In(g)
    requires e.Between? ==> e.p.In(g) && e.q.In(g) && Height(g, level, e.p) != Height(g, level, e.q)
  {
    Weights(WeightOf(g, level, e, n1), WeightOf(g, level, e, n2), WeightOf(g, level, e, n3))
  }

  function Interpolate(x: real, y: real, t: real): real { (1.0 - t) * x + t * y }

  /** The point a fraction t of the way from u to v. */
  function Mix(u: Weights, v: Weights, t: real): Weights
  {
    Weights(Interpolate(u.a, v.a, t), Interpolate(u.b, v.b, t), Interpolate(u.c, v.c, t))
  }

  ghost predicate OnSegment(w: Weights, u: Weights, v: Weights)
  {
    exists t :: 0.0 <= t <= 1.0 && w == Mix(u, v, t)
  }

  ghost predicate Triangle(g: Grid, n1: Node, n2: Node, n3: Node)
  {
    n1.In(g) && n2.In(g) && n3.In(g) && n1 != n2 && n2 != n3 && n3 != n1
  }

  ghost predicate Opposite(x: real, y: real) { (x > 0.0 && y < 0.0) || (x < 0.0 && y > 0.0) }

  lemma Share(y: real, d: real)
    requires (0.0 < y < d) || (d < y < 0.0)
    ensures 0.0 < y / d < 1.0 && y / d * d == y
  {
    var u := y / d;
    assert u * d == y;
    assert u <= 0.0 && d > 0.0 ==> u * d <= 0.0;
    assert u <= 0.0 && d < 0.0 ==> u * d >= 0.0;
    assert (u - 1.0) * d == y - d;
    assert u >= 1.0 && d > 0.0 ==> (u - 1.0) * d >= 0.0;
    assert u >= 1.0 && d < 0.0 ==> (u - 1.0) * d <= 0.0;
  }

  lemma Cancel(u: real, v: real, d: real)
    requires d != 0.0 && u * d == v * d
    ensures u == v
  {
    assert (u - v) * d == 0.0;
  }

  lemma Distribute(u: real, v: real, d: real)
    ensures (u + v) * d == u * d + v * d
  {
  }

  lemma Positive(w: real, u: real)
    requires 0.0 <= w && 0.0 < u
    ensures 0.0 <= w / u
  {
  }

  /** The two weights of the zero of a sign-changing side. */
  lemma ZeroOfSide(x: real, y: real)
    requires Opposite(x, y)
    ensures var u, v := y / (y - x), -x / (y - x); 0.0 < u < 1.0 && v == 1.0 - u && u * x + v * y == 0.0
    ensures y / (y - x) == -y / (x - y) && -x / (y - x) == x / (x - y)
  {
    var d := y - x;
    Share(y, d);
    Share(-x, d);
    Share(-y, x - y);
    Share(x, x - y);
    var u, v := y / d, -x / d;
    Distribute(u, v, d);
    Cancel(u + v, 1.0, d);
    assert u * x + v * y == x + v * d;
    assert (-y / (x - y)) * d == y;
    Cancel(u, -y / (x - y), d);
    assert (x / (x - y)) * d == -x;
    Cancel(v, x / (x - y), d);
  }

  /** A zero of the interpolant, seen from a vertex p that lies on the other side of q and r. */
  lemma CutOff(hq: real, hp: real, hr: real, wq: real, wp: real, wr: real) returns (t: real)
    requires Opposite(hq, hp) && Opposite(hp, hr)
    requires 0.0 <= wq && 0.0 <= wp && 0.0 <= wr && wq + wp + wr == 1.0
    requires wq * hq + wp * hp + wr * hr == 0.0
    ensures 0.0 <= t <= 1.0
    ensures wq == (1.0 - t) * (hp / (hp - hq)) && wr == t * (-hp / (hr - hp))
    ensures wp == (1.0 - t) * (-hq / (hp - hq)) + t * (hr / (hr - hp))
  {
    ZeroOfSide(hq, hp);
    ZeroOfSide(hp, hr);
    var u, v := hp / (hp - hq), -hp / (hr - hp);
    var s := wq / u;
    t := wr / v;
    Positive(wq, u);
    Positive(wr, v);
    SharesSum(u, v, s, t, hq, hp, hr, wq, wp, wr);
    Blended(u, v, t, wq, wr);
  }

  lemma Blended(u: real, v: real, t: real, wq: real, wr: real)
    requires wq == (1.0 - t) * u && wr == t * v
    ensures 1.0 - wq - wr == (1.0 - t) * (1.0 - u) + t * (1.0 - v)
  {
  }

  lemma Scaled(s: real, u: real, w: real, d: real, h: real)
    requires s * u == w && u * d == h
    ensures s * h == w * d
  {
    assert s * (u * d) == (s * u) * d;
  }

  lemma Combine(sp: real, tp: real, qp: real, rp: real, qq: real, pp: real, rr: real, hp: real)
    requires sp == qp - qq && tp == rp - rr && pp == hp - qp - rp && qq + pp + rr == 0.0
    ensures sp + tp == hp
  {
  }

  lemma SharesSum(u: real, v: real, s: real, t: real, hq: real, hp: real, hr: real, wq: real, wp: real, wr: real)
    requires hp != 0.0 && s * u == wq && t * v == wr
    requires u * (hp - hq) == hp && v * (hr - hp) == -hp
    requires wq + wp + wr == 1.0 && wq * hq + wp * hp + wr * hr == 0.0
    ensures s == 1.0 - t
  {
    Scaled(s, u, wq, hp - hq, hp);
    Scaled(t, v, wr, hr - hp, -hp);
    assert wp * hp == hp - wq * hp - wr * hp;
    assert wq * (hp - hq) == wq * hp - wq * hq;
    assert wr * (hr - hp) == wr * hr - wr * hp;
    assert s * hp == wq * hp - wq * hq;
    assert t * hp == wr * hp - wr * hr;
    Combine(s * hp, t * hp, wq * hp, wr * hp, wq * hq, wp * hp, wr * hr, hp);
    Distribute(s, t, hp);
    Cancel(s + t, 1.0, hp);
  }

  /** A zero of the interpolant when vertex p lies on the contour and q and r on its two sides. */
  lemma CutThrough(hq: real, hr: real, wp: real, wq: real, wr: real) returns (t: real)
    requires Opposite(hq, hr)
    requires 0.0 <= wq && 0.0 <= wp && 0.0 <= wr && wq + wp + wr == 1.0
    requires wq * hq + wr * hr == 0.0
    ensures 0.0 <= t <= 1.0
    ensures wp == 1.0 - t && wq == t * (hr / (hr - hq)) && wr == t * (-hq / (hr - hq))
  {
    ZeroOfSide(hq, hr);
    t := wq + wr;
    var u := hr / (hr - hq);
    assert u * (hr - hq) == hr;
    assert wq * (hr - hq) == t * hr == t * (u * (hr - hq)) == (t * u) * (hr - hq);
    Cancel(wq, t * u, hr - hq);
    assert t * (1.0 - u) == t - t * u;
  }

  /** A same-signed pair has no zero between it. */
  lemma NoZero(x: real, y: real, wx: real, wy: real)
    requires (x > 0.0 && y > 0.0) || (x < 0.0 && y < 0.0)
    requires 0.0 <= wx && 0.0 <= wy && wx * x + wy * y == 0.0
    ensures wx == 0.0 && wy == 0.0
  {
    if x > 0.0 {
      assert wx * x >= 0.0 && wy * y >= 0.0;
      assert wx > 0.0 ==> wx * x > 0.0;
      assert wy > 0.0 ==> wy * y > 0.0;
    } else {
      assert wx * -x >= 0.0 && wy * -y >= 0.0;
      assert wx > 0.0 ==> wx * -x > 0.0;
      assert wy > 0.0 ==> wy * -y > 0.0;
    }
  }

  // ----- a piece is the zero set of its triangle

  ghost predicate SameSide(x: real, y: real) { (x > 0.0 && y > 0.0) || (x < 0.0 && y < 0.0) }

  /** Which sign patterns the case table sends to which case. */
  ghost predicate Means(v: nat, h1: real, h2: real, h3: real)
  {
    match v
    case 0 =>
      || (SameSide(h1, h2) && SameSide(h2, h3))
      || (h1 == 0.0 && SameSide(h2, h3))
      || (h2 == 0.0 && SameSide(h3, h1))
      || (h3 == 0.0 && SameSide(h1, h2))
    case 1 => h1 == 0.0 && h2 == 0.0 && h3 != 0.0
    case 2 => h2 == 0.0 && h3 == 0.0 && h1 != 0.0
    case 3 => h3 == 0.0 && h1 == 0.0
    case 4 => h1 == 0.0 && Opposite(h2, h3)
    case 5 => h2 == 0.0 && Opposite(h3, h1)
    case 6 => h3 == 0.0 && Opposite(h1, h2)
    case 7 => Opposite(h1, h2) && Opposite(h2, h3)
    case 8 => Opposite(h2, h3) && Opposite(h3, h1)
    case 9 => Opposite(h3, h1) && Opposite(h1, h2)
    case _ => false
  }

  lemma TableMeans(h1: real, h2: real, h3: real)
    ensures Means(CaseValue(Sign(h1), Sign(h2), Sign(h3)), h1, h2, h3)
  {
    hide Opposite, SameSide;
    SignMeans(h1, h2);
    SignMeans(h2, h3);
    SignMeans(h3, h1);
  }

  lemma SignMeans(x: real, y: real)
    ensures Opposite(x, y) == (Sign(x) * Sign(y) == -1) && SameSide(x, y) == (Sign(x) * Sign(y) == 1)
    ensures x == 0.0 <==> Sign(x) == 0
  {
  }

  /** A good end: it is defined, it lies in the triangle, and the interpolant vanishes there. */
  ghost predicate IsZero(g: Grid, level: real, n1: Node, n2: Node, n3: Node, e: End)
    requires Triangle(g, n1, n2, n3)
  {
    && e.In(g, level)
    && EndWeights(g, level, e, n1, n2, n3).Inside()
    && EndWeights(g, level, e, n1, n2, n3).Blend(Height(g, level, n1), Height(g, level, n2), Height(g, level, n3))
      == 0.0
  }

  lemma VertexEnd(g: Grid, level: real, n1: Node, n2: Node, n3: Node, n: Node)
    requires Triangle(g, n1, n2, n3) && (n == n1 || n == n2 || n == n3) && Height(g, level, n) == 0.0
    ensures IsZero(g, level, n1, n2, n3, At(n))
  {
    hide Height;
  }

  lemma SideEnd(g: Grid, level: real, n1: Node, n2: Node, n3: Node, p: Node, q: Node)
    requires Triangle(g, n1, n2, n3)
    requires (p == n1 && q == n2) || (p == n2 && q == n3) || (p == n3 && q == n1)
    requires Opposite(Height(g, level, p), Height(g, level, q))
    ensures IsZero(g, level, n1, n2, n3, Between(p, q))
  {
    hide Height;
    ZeroOfSide(Height(g, level, p), Height(g, level, q));
  }

  function CaseOf(g: Grid, level: real, n1: Node, n2: Node, n3: Node): (v: nat)
    requires n1.In(g) && n2.In(g) && n3.In(g)
    ensures v <= 9
  {
    CaseValue(Sign(Height(g, level, n1)), Sign(Height(g, level, n2)), Sign(Height(g, level, n3)))
  }

  /** Both ends of every piece are zeros of the interpolant inside the triangle, and no section divides by zero. */
  lemma EndsAreZeros(g: Grid, level: real, n1: Node, n2: Node, n3: Node)
    requires Triangle(g, n1, n2, n3) && CaseOf(g, level, n1, n2, n3) != 0
    ensures var e := CaseEnds(CaseOf(g, level, n1, n2, n3), n1, n2, n3);
      IsZero(g, level, n1, n2, n3, e.0) && IsZero(g, level, n1, n2, n3, e.1)
  {
    TableMeans(Height(g, level, n1), Height(g, level, n2), Height(g, level, n3));
    hide CaseValue, Height, IsZero, Opposite;
    match CaseOf(g, level, n1, n2, n3)
    case 1 => VertexEnd(g, level, n1, n2, n3, n1); VertexEnd(g, level, n1, n2, n3, n2);
    case 2 => VertexEnd(g, level, n1, n2, n3, n2); VertexEnd(g, level, n1, n2, n3, n3);
    case 3 => VertexEnd(g, level, n1, n2, n3, n3); VertexEnd(g, level, n1, n2, n3, n1);
    case 4 => VertexEnd(g, level, n1, n2, n3, n1); SideEnd(g, level, n1, n2, n3, n2, n3);
    case 5 => VertexEnd(g, level, n1, n2, n3, n2); SideEnd(g, level, n1, n2, n3, n3, n1);
    case 6 => VertexEnd(g, level, n1, n2, n3, n3); SideEnd(g, level, n1, n2, n3, n1, n2);
    case 7 => SideEnd(g, level, n1, n2, n3, n1, n2); SideEnd(g, level, n1, n2, n3, n2, n3);
    case 8 => SideEnd(g, level, n1, n2, n3, n2, n3); SideEnd(g, level, n1, n2, n3, n3, n1);
    case _ => SideEnd(g, level, n1, n2, n3, n3, n1); SideEnd(g, level, n1, n2, n3, n1, n2);
  }

  function VertexWeights(m: nat): Weights
    requires 1 <= m <= 3
  {
    if m == 1 then Weights(1.0, 0.0, 0.0) else if m == 2 then Weights(0.0, 1.0, 0.0) else Weights(0.0, 0.0, 1.0)
  }

  function SideWeights(m: nat, x: real, y: real): Weights
    requires 1 <= m <= 3 && x != y
  {
    var u, v := y / (y - x), -x / (y - x);
    if m == 1 then Weights(u, v, 0.0) else if m == 2 then Weights(0.0, u, v) else Weights(v, 0.0, u)
  }

  lemma KnownWeights(g: Grid, level: real, n1: Node, n2: Node, n3: Node)
    requires Triangle(g, n1, n2, n3)
    ensures var h1, h2, h3 := Height(g, level, n1), Height(g, level, n2), Height(g, level, n3);
      && EndWeights(g, level, At(n1), n1, n2, n3) == VertexWeights(1)
      && EndWeights(g, level, At(n2), n1, n2, n3) == VertexWeights(2)
      && EndWeights(g, level, At(n3), n1, n2, n3) == VertexWeights(3)
      && (h1 != h2 ==> EndWeights(g, level, Between(n1, n2), n1, n2, n3) == SideWeights(1, h1, h2))
      && (h2 != h3 ==> EndWeights(g, level, Between(n2, n3), n1, n2, n3) == SideWeights(2, h2, h3))
      && (h3 != h1 ==> EndWeights(g, level, Between(n3, n1), n1, n2, n3) == SideWeights(3, h3, h1))
  {
    hide Height;
  }

  /** The same in terms of heights alone. */
  ghost predicate Along(v: nat, h1: real, h2: real, h3: real, w: Weights, t: real)
    requires 1 <= v <= 9 && Means(v, h1, h2, h3)
  {
    match v
    case 1 => w == Mix(VertexWeights(1), VertexWeights(2), t)
    case 2 => w == Mix(VertexWeights(2), VertexWeights(3), t)
    case 3 => w == Mix(VertexWeights(3), VertexWeights(1), t)
    case 4 => w == Mix(VertexWeights(1), SideWeights(2, h2, h3), t)
    case 5 => w == Mix(VertexWeights(2), SideWeights(3, h3, h1), t)
    case 6 => w == Mix(VertexWeights(3), SideWeights(1, h1, h2), t)
    case 7 => w == Mix(SideWeights(1, h1, h2), SideWeights(2, h2, h3), t)
    case 8 => w == Mix(SideWeights(2, h2, h3), SideWeights(3, h3, h1), t)
    case _ => w == Mix(SideWeights(3, h3, h1), SideWeights(1, h1, h2), t)
  }

  lemma OnlyZero(x: real, y: real, h: real, wx: real, wy: real, w: real)
    requires x == 0.0 && y == 0.0 && h != 0.0 && wx * x + wy * y + w * h == 0.0
    ensures w == 0.0
  {
  }

  lemma AlongSide(h1: real, h2: real, h3: real, w: Weights) returns (t: real)
    requires Means(1, h1, h2, h3) && w.Inside() && w.Blend(h1, h2, h3) == 0.0
    ensures 0.0 <= t <= 1.0 && Along(1, h1, h2, h3, w, t)
  {
    t := w.b;
    OnlyZero(h1, h2, h3, w.a, w.b, w.c);
  }

  lemma AlongBisector(h1: real, h2: real, h3: real, w: Weights) returns (t: real)
    requires Means(4, h1, h2, h3) && w.Inside() && w.Blend(h1, h2, h3) == 0.0
    ensures 0.0 <= t <= 1.0 && Along(4, h1, h2, h3, w, t)
  {
    t := CutThrough(h2, h3, w.a, w.b, w.c);
  }

  lemma AlongCut(h1: real, h2: real, h3: real, w: Weights) returns (t: real)
    requires Means(7, h1, h2, h3) && w.Inside() && w.Blend(h1, h2, h3) == 0.0
    ensures 0.0 <= t <= 1.0 && Along(7, h1, h2, h3, w, t)
  {
    t := CutOff(h1, h2, h3, w.a, w.b, w.c);
  }

  /** Cases 2, 5, 8 and 3, 6, 9 are cases 1, 4, 7 with the vertices renamed in a circle. */
  lemma AlongPiece(v: nat, h1: real, h2: real, h3: real, w: Weights) returns (t: real)
    requires 1 <= v <= 9 && Means(v, h1, h2, h3) && w.Inside() && w.Blend(h1, h2, h3) == 0.0
    requires h1 != 0.0 || h2 != 0.0 || h3 != 0.0
    ensures 0.0 <= t <= 1.0 && Along(v, h1, h2, h3, w, t)
  {
    if v == 1 {
      t := AlongSide(h1, h2, h3, w);
    } else if v == 4 {
      t := AlongBisector(h1, h2, h3, w);
    } else if v == 7 {
      t := AlongCut(h1, h2, h3, w);
    } else {
      t := AlongPiece(v - 1, h2, h3, h1, Turn(w));
      Turned(v, h1, h2, h3, w, t);
    }
  }

  function Turn(w: Weights): Weights { Weights(w.b, w.c, w.a) }

  lemma MixTurns(u: Weights, v: Weights, t: real)
    ensures Turn(Mix(u, v, t)) == Mix(Turn(u), Turn(v), t)
  {
    hide Interpolate;
  }

  lemma SidesTurn(x: real, y: real)
    ensures x != y ==> Turn(SideWeights(2, x, y)) == SideWeights(1, x, y)
    ensures x != y ==> Turn(SideWeights(3, x, y)) == SideWeights(2, x, y)
    ensures x != y ==> Turn(SideWeights(1, x, y)) == SideWeights(3, x, y)
    ensures Turn(VertexWeights(2)) == VertexWeights(1) && Turn(VertexWeights(3)) == VertexWeights(2)
    ensures Turn(VertexWeights(1)) == VertexWeights(3)
  {
  }

  lemma TurnsBack(w: Weights, u: Weights)
    requires Turn(w) == Turn(u)
    ensures w == u
  {
  }

  lemma MixTurnsBack(w: Weights, u: Weights, v: Weights, t: real)
    requires Turn(w) == Mix(Turn(u), Turn(v), t)
    ensures w == Mix(u, v, t)
  {
    hide Mix;
    MixTurns(u, v, t);
    TurnsBack(w, Mix(u, v, t));
  }

  lemma Turned(v: nat, h1: real, h2: real, h3: real, w: Weights, t: real)
    requires 2 <= v <= 9 && v != 4 && v != 7 && Means(v, h1, h2, h3) && Means(v - 1, h2, h3, h1)
    requires Along(v - 1, h2, h3, h1, Turn(w), t)
    ensures Along(v, h1, h2, h3, w, t)
  {
    SidesTurn(h1, h2);
    SidesTurn(h2, h3);
    SidesTurn(h3, h1);
    hide Mix, SideWeights, VertexWeights, Turn;
    match v
    case 2 => MixTurnsBack(w, VertexWeights(2), VertexWeights(3), t);
    case 3 => MixTurnsBack(w, VertexWeights(3), VertexWeights(1), t);
    case 5 => MixTurnsBack(w, VertexWeights(2), SideWeights(3, h3, h1), t);
    case 6 => MixTurnsBack(w, VertexWeights(3), SideWeights(1, h1, h2), t);
    case 8 => MixTurnsBack(w, SideWeights(2, h2, h3), SideWeights(3, h3, h1), t);
    case 9 => MixTurnsBack(w, SideWeights(3, h3, h1), SideWeights(1, h1, h2), t);
  }

  /** A zero of the interpolant lies on the piece, a fraction t of the way along. */
  lemma ZeroOnPiece(g: Grid, level: real, n1: Node, n2: Node, n3: Node, w: Weights) returns (t: real)
    requires Triangle(g, n1, n2, n3) && CaseOf(g, level, n1, n2, n3) != 0
    requires w.Inside() && w.Blend(Height(g, level, n1), Height(g, level, n2), Height(g, level, n3)) == 0.0
    requires Height(g, level, n1) != 0.0 || Height(g, level, n2) != 0.0 || Height(g, level, n3) != 0.0
    ensures 0.0 <= t <= 1.0
    ensures var e := CaseEnds(CaseOf(g, level, n1, n2, n3), n1, n2, n3);
      && e.0.In(g, level) && e.1.In(g, level)
      && w == Mix(EndWeights(g, level, e.0, n1, n2, n3), EndWeights(g, level, e.1, n1, n2, n3), t)
  {
    EndsAreZeros(g, level, n1, n2, n3);
    KnownWeights(g, level, n1, n2, n3);
    var h1, h2, h3 := Height(g, level, n1), Height(g, level, n2), Height(g, level, n3);
    TableMeans(h1, h2, h3);
    var v := CaseOf(g, level, n1, n2, n3);
    hide CaseValue, Height, SameSide, Mix, EndWeights, VertexWeights, SideWeights, Weights.Inside, Weights.Blend;
    t := AlongPiece(v, h1, h2, h3, w);
  }

  lemma {:induction false} MixIsZero(u: Weights, v: Weights, t: real, h1: real, h2: real, h3: real)
    requires u.Blend(h1, h2, h3) == 0.0 && v.Blend(h1, h2, h3) == 0.0
    ensures Mix(u, v, t).Blend(h1, h2, h3) == 0.0
  {
    MixedTerm(u.a, v.a, t, h1);
    MixedTerm(u.b, v.b, t, h2);
    MixedTerm(u.c, v.c, t, h3);
    Distribute(u.a * h1, u.b * h2, 1.0 - t);
    Distribute(u.a * h1 + u.b * h2, u.c * h3, 1.0 - t);
    Distribute(v.a * h1, v.b * h2, t);
    Distribute(v.a * h1 + v.b * h2, v.c * h3, t);
  }

  lemma MixedTerm(u: real, v: real, t: real, h: real)
    ensures ((1.0 - t) * u + t * v) * h == u * h * (1.0 - t) + v * h * t
  {
  }

  lemma LoneZero(v: nat, h1: real, h2: real, h3: real, w: Weights)
    requires v == 0 && Means(v, h1, h2, h3) && w.Inside()
    ensures w.Blend(h1, h2, h3) == 0.0 <==>
      (h1 == 0.0 && w.a == 1.0) || (h2 == 0.0 && w.b == 1.0) || (h3 == 0.0 && w.c == 1.0)
  {
    if w.Blend(h1, h2, h3) == 0.0 {
      if h1 == 0.0 { NoZero(h2, h3, w.b, w.c); }
      else if h2 == 0.0 { NoZero(h3, h1, w.c, w.a); }
      else if h3 == 0.0 { NoZero(h1, h2, w.a, w.b); }
      else { NoZeroInside(h1, h2, h3, w); }
    }
  }

  lemma NoZeroInside(h1: real, h2: real, h3: real, w: Weights)
    requires SameSide(h1, h2) && SameSide(h2, h3) && w.Inside()
    ensures w.Blend(h1, h2, h3) != 0.0
  {
    var s := if h1 > 0.0 then 1.0 else -1.0;
    assert w.a * (s * h1) >= 0.0 && w.b * (s * h2) >= 0.0 && w.c * (s * h3) >= 0.0;
    assert w.a > 0.0 ==> w.a * (s * h1) > 0.0;
    assert w.b > 0.0 ==> w.b * (s * h2) > 0.0;
    assert w.c > 0.0 ==> w.c * (s * h3) > 0.0;
    assert s * w.Blend(h1, h2, h3) == w.a * (s * h1) + w.b * (s * h2) + w.c * (s * h3);
  }

  /** The point lies on the piece that is drawn or, when none is, is a vertex on the level. */
  ghost predicate OnDrawn(g: Grid, level: real, n1: Node, n2: Node, n3: Node, w: Weights)
    requires n1.In(g) && n2.In(g) && n3.In(g)
  {
    var h1, h2, h3 := Height(g, level, n1), Height(g, level, n2), Height(g, level, n3);
    var ps := TrianglePieces(g, level, 0, n1, n2, n3);
    if ps == [] then (h1 == 0.0 && w.a == 1.0) || (h2 == 0.0 && w.b == 1.0) || (h3 == 0.0 && w.c == 1.0)
    else
      && ps[0].e1.In(g, level) && ps[0].e2.In(g, level)
      && OnSegment(w, EndWeights(g, level, ps[0].e1, n1, n2, n3), EndWeights(g, level, ps[0].e2, n1, n2, n3))
  }

  /** All three vertices are on the level. */
  ghost predicate Flat(g: Grid, level: real, n1: Node, n2: Node, n3: Node)
    requires n1.In(g) && n2.In(g) && n3.In(g)
  {
    Height(g, level, n1) == 0.0 && Height(g, level, n2) == 0.0 && Height(g, level, n3) == 0.0
  }

  /**
   * The contour in a triangle that is not wholly on the level: the interpolant vanishes exactly on the
   * piece that is drawn, and when none is drawn at most at one vertex.
   */
  lemma PieceIsZeroSet(g: Grid, level: real, n1: Node, n2: Node, n3: Node, w: Weights)
    requires Triangle(g, n1, n2, n3) && w.Inside() && !Flat(g, level, n1, n2, n3)
    ensures |TrianglePieces(g, level, 0, n1, n2, n3)| <= 1
    ensures w.Blend(Height(g, level, n1), Height(g, level, n2), Height(g, level, n3)) == 0.0 <==>
      OnDrawn(g, level, n1, n2, n3, w)
  {
    var h1, h2, h3 := Height(g, level, n1), Height(g, level, n2), Height(g, level, n3);
    var v := CaseOf(g, level, n1, n2, n3);
    TableMeans(h1, h2, h3);
    if v == 0 {
      LoneZero(v, h1, h2, h3, w);
    } else {
      ZeroSetOfPiece(g, level, n1, n2, n3, w);
    }
    hide CaseValue, Height, OnSegment, EndWeights, Means, Weights.Inside, Weights.Blend;
  }

  ghost predicate DrawsZeroSet(g: Grid, level: real, n1: Node, n2: Node, n3: Node)
    requires n1.In(g) && n2.In(g) && n3.In(g)
  {
    forall w: Weights :: w.Inside() ==>
      (w.Blend(Height(g, level, n1), Height(g, level, n2), Height(g, level, n3)) == 0.0 <==>
       OnDrawn(g, level, n1, n2, n3, w))
  }

  /** In a triangle wholly on the level the side from the third vertex to the first is drawn, and the second is left
      out although the interpolant vanishes there, too. */
  lemma FlatTriangle(g: Grid, level: real, n1: Node, n2: Node, n3: Node)
    requires Triangle(g, n1, n2, n3) && Flat(g, level, n1, n2, n3)
    ensures TrianglePieces(g, level, 0, n1, n2, n3) == [Piece(0, At(n3), At(n1))]
    ensures forall w: Weights :: w.Blend(Height(g, level, n1), Height(g, level, n2), Height(g, level, n3)) == 0.0
    ensures !OnDrawn(g, level, n1, n2, n3, Weights(0.0, 1.0, 0.0))
  {
  }

  /** What is drawn in a triangle is the zero set of the interpolant if and only if the triangle is not wholly on the
      level. */
  lemma DrawsExactly(g: Grid, level: real, n1: Node, n2: Node, n3: Node)
    requires Triangle(g, n1, n2, n3)
    ensures DrawsZeroSet(g, level, n1, n2, n3) <==> !Flat(g, level, n1, n2, n3)
  {
    hide OnDrawn, TrianglePieces, Height, Weights.Blend;
    if Flat(g, level, n1, n2, n3) {
      FlatTriangle(g, level, n1, n2, n3);
      assert Weights(0.0, 1.0, 0.0).Inside();
    } else {
      forall w: Weights | w.Inside()
        ensures w.Blend(Height(g, level, n1), Height(g, level, n2), Height(g, level, n3)) == 0.0 <==>
          OnDrawn(g, level, n1, n2, n3, w)
      {
        PieceIsZeroSet(g, level, n1, n2, n3, w);
      }
    }
  }

  lemma ZeroSetOfPiece(g: Grid, level: real, n1: Node, n2: Node, n3: Node, w: Weights)
    requires Triangle(g, n1, n2, n3) && w.Inside() && CaseOf(g, level, n1, n2, n3) != 0
    requires Height(g, level, n1) != 0.0 || Height(g, level, n2) != 0.0 || Height(g, level, n3) != 0.0
    ensures var h1, h2, h3 := Height(g, level, n1), Height(g, level, n2), Height(g, level, n3);
      var e := CaseEnds(CaseOf(g, level, n1, n2, n3), n1, n2, n3);
      && e.0.In(g, level) && e.1.In(g, level)
      && (w.Blend(h1, h2, h3) == 0.0 <==>
          OnSegment(w, EndWeights(g, level, e.0, n1, n2, n3), EndWeights(g, level, e.1, n1, n2, n3)))
  {
    EndsAreZeros(g, level, n1, n2, n3);
    var h1, h2, h3 := Height(g, level, n1), Height(g, level, n2), Height(g, level, n3);
    var e := CaseEnds(CaseOf(g, level, n1, n2, n3), n1, n2, n3);
    var u, v := EndWeights(g, level, e.0, n1, n2, n3), EndWeights(g, level, e.1, n1, n2, n3);
    hide CaseOf, CaseEnds, Height, EndWeights, Mix, Weights.Blend;
    if w.Blend(h1, h2, h3) == 0.0 {
      var t := ZeroOnPiece(g, level, n1, n2, n3, w);
    }
    if OnSegment(w, u, v) {
      var t :| 0.0 <= t <= 1.0 && w == Mix(u, v, t);
      MixIsZero(u, v, t, h1, h2, h3);
    }
  }
}
