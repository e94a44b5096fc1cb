/** The mouse tracker of xwebql.js: a Kalman filter over position and velocity in two axes. */
module Kalman {

  // ----- vectors and 4 by 4 matrices

  datatype Vec = Vec(a: real, b: real, c: real, d: real)

  datatype Mat = Mat(r0: Vec, r1: Vec, r2: Vec, r3: Vec)

  function Dot(u: Vec, v: Vec): real { u.a * v.a + u.b * v.b + u.c * v.c + u.d * v.d }

  function Add(u: Vec, v: Vec): Vec { Vec(u.a + v.a, u.b + v.b, u.c + v.c, u.d + v.d) }

  function Sub(u: Vec, v: Vec): Vec { Vec(u.a - v.a, u.b - v.b, u.c - v.c, u.d - v.d) }

  function Apply(m: Mat, v: Vec): Vec { Vec(Dot(m.r0, v), Dot(m.r1, v), Dot(m.r2, v), Dot(m.r3, v)) }

  function Transpose(m: Mat): Mat
  {
    Mat(Vec(m.r0.a, m.r1.a, m.r2.a, m.r3.a), Vec(m.r0.b, m.r1.b, m.r2.b, m.r3.b),
        Vec(m.r0.c, m.r1.c, m.r2.c, m.r3.c), Vec(m.r0.d, m.r1.d, m.r2.d, m.r3.d))
  }

  function RowTimes(u: Vec, m: Mat): Vec
  {
    var t := Transpose(m);
    Vec(Dot(u, t.r0), Dot(u, t.r1), Dot(u, t.r2), Dot(u, t.r3))
  }

  function Times(m: Mat, n: Mat): Mat
  {
    Mat(RowTimes(m.r0, n), RowTimes(m.r1, n), RowTimes(m.r2, n), RowTimes(m.r3, n))
  }

  function Plus(m: Mat, n: Mat): Mat
  {
    Mat(Add(m.r0, n.r0), Add(m.r1, n.r1), Add(m.r2, n.r2), Add(m.r3, n.r3))
  }

  function Minus(m: Mat, n: Mat): Mat
  {
    Mat(Sub(m.r0, n.r0), Sub(m.r1, n.r1), Sub(m.r2, n.r2), Sub(m.r3, n.r3))
  }

  function Diagonal(a: real, b: real, c: real, d: real): Mat
  {
    Mat(Vec(a, 0.0, 0.0, 0.0), Vec(0.0, b, 0.0, 0.0), Vec(0.0, 0.0, c, 0.0), Vec(0.0, 0.0, 0.0, d))
  }

  const IDENTITY := Diagonal(1.0, 1.0, 1.0, 1.0)

  /** A transition over dt, or with dt = 1 the observation matrix's upper rows. */
  function Transition(dt: real): Mat
  {
    Mat(Vec(1.0, 0.0, dt, 0.0), Vec(0.0, 1.0, 0.0, dt), Vec(0.0, 0.0, 1.0, 0.0), Vec(0.0, 0.0, 0.0, 1.0))
  }

  const OBSERVE := Mat(Vec(1.0, 0.0, 1.0, 0.0), Vec(0.0, 1.0, 0.0, 1.0), Vec(0.0, 0.0, 0.0, 0.0),
    Vec(0.0, 0.0, 0.0, 0.0))

  // ----- the shape of the covariance

  /** Equal blocks for the two axes: variances a of position and c of velocity, covariance b. */
  datatype Block = Block(a: real, b: real, c: real)

  function Covariance(k: Block): Mat
  {
    Mat(Vec(k.a, 0.0, k.b, 0.0), Vec(0.0, k.a, 0.0, k.b), Vec(k.b, 0.0, k.c, 0.0), Vec(0.0, k.b, 0.0, k.c))
  }

  ghost predicate Semidefinite(k: Block)
  {
    k.a >= 0.0 && k.c >= 0.0 && k.a * k.c >= k.b * k.b
  }

  function Predicted(k: Block, dt: real): Block
  {
    Block(k.a + dt * k.b + (k.b + dt * k.c) * dt, k.b + dt * k.c, k.c + 0.1)
  }

  /** The innovation variance of one axis. */
  function Innovation(p: Block): real { p.a + p.b + p.b + p.c + 100.0 }

  function Corrected(p: Block): Block
    requires Innovation(p) != 0.0
  {
    var s := Innovation(p);
    var u, v := (p.a + p.b) / s, (p.b + p.c) / s;
    Block(p.a - u * (p.a + p.b), p.b - u * (p.b + p.c), p.c - v * (p.b + p.c))
  }

  // ----- semidefiniteness

  lemma Square(x: real)
    ensures x * x >= 0.0
  {
  }

  lemma Product(x: real, y: real)
    requires x >= 0.0 && y >= 0.0
    ensures x * y >= 0.0
  {
  }

  lemma NonNegative(x: real, y: real)
    requires x > 0.0 && x * y >= 0.0
    ensures y >= 0.0
  {
  }

  /** One axis of the quadratic form. */
  lemma FormNonNegative(k: Block, x: real, y: real)
    requires Semidefinite(k)
    ensures k.a * x * x + 2.0 * k.b * x * y + k.c * y * y >= 0.0
  {
    var q := k.a * x * x + 2.0 * k.b * x * y + k.c * y * y;
    if k.a > 0.0 {
      CompleteSquare(k, x, y);
      Square(k.a * x + k.b * y);
      Square(y);
      Product(k.a * k.c - k.b * k.b, y * y);
      NonNegative(k.a, q);
    } else {
      NoCross(k);
      Square(y);
      Product(k.c, y * y);
      assert k.c * (y * y) == k.c * y * y;
    }
  }

  function Squared(x: real): real { x * x }

  lemma StrictProduct(x: real, y: real) returns (q: real)
    requires x > 0.0 && y > 0.0
    ensures 0.0 < q == x * y
  {
    q := x * y;
  }

  lemma SquareNonzero(x: real) returns (q: real)
    requires x != 0.0
    ensures 0.0 < q == Squared(x)
  {
    if x > 0.0 { q := StrictProduct(x, x); } else { q := StrictProduct(-x, -x); }
  }

  lemma SquareZero(x: real)
    requires Squared(x) <= 0.0
    ensures x == 0.0
  {
    hide Squared;
    if x != 0.0 { var q := SquareNonzero(x); }
  }

  lemma NoCross(k: Block)
    requires Semidefinite(k) && k.a == 0.0
    ensures k.b == 0.0
  {
    assert k.a * k.c == 0.0;
    SquareZero(k.b);
  }

  lemma CompleteSquare(k: Block, x: real, y: real)
    ensures k.a * (k.a * x * x + 2.0 * k.b * x * y + k.c * y * y)
         == (k.a * x + k.b * y) * (k.a * x + k.b * y) + (k.a * k.c - k.b * k.b) * (y * y)
  {
    var u, v := k.a * x, k.b * y;
    assert (u + v) * (u + v) == u * u + 2.0 * (u * v) + v * v;
    assert u * u == k.a * (k.a * x * x);
    assert u * v == k.a * (k.b * x * y);
    assert v * v == (k.b * k.b) * (y * y);
    assert (k.a * k.c) * (y * y) == k.a * (k.c * y * y);
  }

  /** The prediction keeps the covariance semidefinite. */
  lemma PredictedSemidefinite(k: Block, dt: real)
    requires Semidefinite(k)
    ensures Semidefinite(Predicted(k, dt))
  {
    var p := Predicted(k, dt);
    FormNonNegative(k, 1.0, dt);
    assert p.a == k.a * 1.0 * 1.0 + 2.0 * k.b * 1.0 * dt + k.c * dt * dt;
    PredictedDeterminant(k, dt);
  }

  lemma PredictedDeterminant(k: Block, dt: real)
    ensures var p := Predicted(k, dt); p.a * p.c - p.b * p.b == k.a * k.c - k.b * k.b + 0.1 * p.a
  {
    var p := Predicted(k, dt);
    var e := dt * k.c;
    assert p.a == k.a + dt * k.b + (k.b + e) * dt;
    assert (k.b + e) * dt == k.b * dt + e * dt;
    assert p.b * p.b == k.b * k.b + 2.0 * (k.b * e) + e * e;
    assert p.a * k.c == k.a * k.c + (dt * k.b) * k.c + (k.b * dt) * k.c + (e * dt) * k.c;
    assert (dt * k.b) * k.c == k.b * e;
    assert (e * dt) * k.c == e * e;
    assert p.a * p.c == p.a * k.c + p.a * 0.1;
  }

  lemma InnovationBound(p: Block)
    requires Semidefinite(p)
    ensures Innovation(p) >= 100.0
  {
    FormNonNegative(p, 1.0, 1.0);
  }

  /** The corrected block over the common denominator. */
  lemma CorrectedFractions(p: Block)
    requires Innovation(p) > 0.0
    ensures var s, d, c := Innovation(p), p.a * p.c - p.b * p.b, Corrected(p);
      c.a * s == d + 100.0 * p.a && c.b * s == 100.0 * p.b - d && c.c * s == d + 100.0 * p.c
  {
    var s := Innovation(p);
    var w, y := p.a + p.b, p.b + p.c;
    Fraction(p.a, w, w, s);
    Fraction(p.b, w, y, s);
    Fraction(p.c, y, y, s);
    assert s == w + y + 100.0;
    assert p.a * s == p.a * w + p.a * y + 100.0 * p.a;
    assert p.b * s == p.b * w + p.b * y + 100.0 * p.b;
    assert p.c * s == p.c * w + p.c * y + 100.0 * p.c;
    assert w * w == p.a * w + p.b * w && w * y == p.a * y + p.b * y && y * y == p.b * y + p.c * y;
    assert p.a * y == p.a * p.b + p.a * p.c && p.b * w == p.b * p.a + p.b * p.b && p.c * w == p.c * p.a + p.c * p.b
      && p.b * y == p.b * p.b + p.b * p.c;
  }

  lemma Fraction(x: real, w: real, y: real, s: real)
    requires s > 0.0
    ensures (x - w / s * y) * s == x * s - w * y
  {
    var u := w / s;
    assert u * s == w;
    assert (u * y) * s == (u * s) * y;
  }

  /** The correction keeps the covariance semidefinite. */
  lemma CorrectedSemidefinite(p: Block)
    requires Semidefinite(p)
    ensures Innovation(p) >= 100.0 && Semidefinite(Corrected(p))
  {
    InnovationBound(p);
    CorrectedFractions(p);
    var s, d, c := Innovation(p), p.a * p.c - p.b * p.b, Corrected(p);
    hide Corrected;
    NonNegative(s, c.a);
    NonNegative(s, c.c);
    Product(d, s);
    Numerators(p.a, p.b, p.c, d, s);
    Product(s, s);
    assert (c.a * c.c - c.b * c.b) * (s * s) == (c.a * s) * (c.c * s) - (c.b * s) * (c.b * s);
    NonNegative(s * s, c.a * c.c - c.b * c.b);
  }

  lemma Numerators(a: real, b: real, c: real, d: real, s: real)
    requires d == a * c - b * b && s == a + b + b + c + 100.0
    ensures (d + 100.0 * a) * (d + 100.0 * c) - (100.0 * b - d) * (100.0 * b - d) == 100.0 * (d * s)
  {
    assert (d + 100.0 * a) * (d + 100.0 * c) == d * d + 100.0 * (d * c) + 100.0 * (d * a) + 10000.0 * (a * c);
    assert (100.0 * b - d) * (100.0 * b - d) == 10000.0 * (b * b) - 200.0 * (d * b) + d * d;
    assert d * s == d * a + 2.0 * (d * b) + d * c + 100.0 * d;
  }

  // ----- the matrices of one update

  lemma PredictionBlock(k: Block, dt: real)
    ensures Plus(Times(Times(Transition(dt), Covariance(k)), Transpose(Transition(dt))), Diagonal(0.0, 0.0, 0.1, 0.1))
         == Covariance(Predicted(k, dt))
  {
  }

  function Observed(p: Block): Mat
  {
    Mat(Vec(p.a + p.b, 0.0, p.b + p.c, 0.0), Vec(0.0, p.a + p.b, 0.0, p.b + p.c),
        Vec(0.0, 0.0, 0.0, 0.0), Vec(0.0, 0.0, 0.0, 0.0))
  }

  lemma ObservedCovariance(p: Block)
    ensures Times(OBSERVE, Covariance(p)) == Observed(p)
  {
  }

  lemma ObservedTwice(p: Block)
    ensures Plus(Times(Observed(p), Transpose(OBSERVE)), Diagonal(100.0, 100.0, 1000.0, 1000.0))
         == Diagonal(Innovation(p), Innovation(p), 1000.0, 1000.0)
  {
    var w, y := p.a + p.b, p.b + p.c;
    ObservedRow(w, 0.0, y, 0.0);
    ObservedRow(0.0, w, 0.0, y);
    ObservedRow(0.0, 0.0, 0.0, 0.0);
    hide RowTimes, Transpose;
  }

  lemma ObservedRow(a: real, b: real, c: real, d: real)
    ensures RowTimes(Vec(a, b, c, d), Transpose(OBSERVE)) == Vec(a + c, b + d, 0.0, 0.0)
  {
  }

  /** S is diagonal. */
  lemma InnovationDiagonal(p: Block)
    ensures Plus(Times(Times(OBSERVE, Covariance(p)), Transpose(OBSERVE)), Diagonal(100.0, 100.0, 1000.0, 1000.0))
         == Diagonal(Innovation(p), Innovation(p), 1000.0, 1000.0)
  {
    hide Times, Plus, Transpose;
    ObservedCovariance(p);
    ObservedTwice(p);
  }

  ghost predicate IsInverse(m: Mat, n: Mat)
  {
    Times(m, n) == IDENTITY && Times(n, m) == IDENTITY
  }

  function InverseInnovation(s: real): Mat
    requires s != 0.0
  {
    Diagonal(1.0 / s, 1.0 / s, 1.0 / 1000.0, 1.0 / 1000.0)
  }

  lemma DiagonalTimes(a: real, b: real, c: real, d: real, n: Mat)
    ensures Times(Diagonal(a, b, c, d), n) == Mat(Scale(a, n.r0), Scale(b, n.r1), Scale(c, n.r2), Scale(d, n.r3))
  {
  }

  function Scale(x: real, v: Vec): Vec { Vec(x * v.a, x * v.b, x * v.c, x * v.d) }

  lemma Divided(s: real, x: real, e: real)
    requires s > 0.0
    ensures s * x == e <==> x == e / s
  {
    assert s * (e / s) == e;
    if s * x == e { assert s * (x - e / s) == 0.0; }
  }

  lemma RowDivided(s: real, v: Vec, e: Vec)
    requires s > 0.0
    ensures Scale(s, v) == e <==> v == Vec(e.a / s, e.b / s, e.c / s, e.d / s)
  {
    Divided(s, v.a, e.a);
    Divided(s, v.b, e.b);
    Divided(s, v.c, e.c);
    Divided(s, v.d, e.d);
  }

  lemma InverseTimes(s: real)
    requires s > 0.0
    ensures IsInverse(Diagonal(s, s, 1000.0, 1000.0), InverseInnovation(s))
  {
    hide Times;
    assert s * (1.0 / s) == 1.0 && (1.0 / s) * s == 1.0;
    DiagonalsTimes(s, s, 1000.0, 1000.0, 1.0 / s, 1.0 / s, 1.0 / 1000.0, 1.0 / 1000.0);
    DiagonalsTimes(1.0 / s, 1.0 / s, 1.0 / 1000.0, 1.0 / 1000.0, s, s, 1000.0, 1000.0);
  }

  lemma DiagonalsTimes(a: real, b: real, c: real, d: real, e: real, f: real, g: real, h: real)
    ensures Times(Diagonal(a, b, c, d), Diagonal(e, f, g, h)) == Diagonal(a * e, b * f, c * g, d * h)
  {
    DiagonalTimes(a, b, c, d, Diagonal(e, f, g, h));
    hide Times;
  }

  /** S has exactly one inverse, so any correct matrix inversion finds this one. */
  lemma InnovationInverse(s: real, n: Mat)
    requires s > 0.0
    ensures IsInverse(Diagonal(s, s, 1000.0, 1000.0), n) <==> n == InverseInnovation(s)
  {
    hide Times, Scale;
    InverseTimes(s);
    DiagonalTimes(s, s, 1000.0, 1000.0, n);
    RowDivided(s, n.r0, Vec(1.0, 0.0, 0.0, 0.0));
    RowDivided(s, n.r1, Vec(0.0, 1.0, 0.0, 0.0));
    RowDivided(1000.0, n.r2, Vec(0.0, 0.0, 1.0, 0.0));
    RowDivided(1000.0, n.r3, Vec(0.0, 0.0, 0.0, 1.0));
    assert 0.0 / s == 0.0;
  }

  function Gain(u: real, v: real): Mat
  {
    Mat(Vec(u, 0.0, 0.0, 0.0), Vec(0.0, u, 0.0, 0.0), Vec(v, 0.0, 0.0, 0.0), Vec(0.0, v, 0.0, 0.0))
  }

  lemma GainShape(p: Block)
    requires Innovation(p) > 0.0
    ensures var s := Innovation(p);
      Times(Times(Covariance(p), Transpose(OBSERVE)), InverseInnovation(s)) == Gain((p.a + p.b) / s, (p.b + p.c) / s)
  {
  }

  lemma CorrectionBlock(p: Block)
    requires Innovation(p) > 0.0
    ensures var s := Innovation(p);
      Times(Minus(IDENTITY, Times(Gain((p.a + p.b) / s, (p.b + p.c) / s), OBSERVE)), Covariance(p))
        == Covariance(Corrected(p))
  {
  }

  // ----- what an update does to the estimate

  function Predict(x: Vec, dt: real): Vec { Vec(x.a + dt * x.c, x.b + dt * x.d, x.c, x.d) }

  /** The estimate after a measured position (mx, my). */
  function Correct(p: Block, x: Vec, mx: real, my: real): Vec
    requires Innovation(p) != 0.0
  {
    var u, v := (p.a + p.b) / Innovation(p), (p.b + p.c) / Innovation(p);
    var y0, y1 := mx - (x.a + x.c), my - (x.b + x.d);
    Vec(x.a + u * y0, x.b + u * y1, x.c + v * y0, x.d + v * y1)
  }

  /** Positions move by elapsed time times velocity, and two predictions are one over both times. */
  lemma PredictComposes(x: Vec, d1: real, d2: real)
    ensures var p := Predict(x, d1);
      p.a - x.a == d1 * x.c && p.b - x.b == d1 * x.d && p.c == x.c && p.d == x.d
    ensures Predict(Predict(x, d1), d2) == Predict(x, d1 + d2)
  {
    assert (d1 + d2) * x.c == d1 * x.c + d2 * x.c && (d1 + d2) * x.d == d1 * x.d + d2 * x.d;
  }

  /** A prediction without the noise it adds to the velocity. */
  function Propagated(k: Block, dt: real): Block { Predicted(k, dt).(c := Predicted(k, dt).c - 0.1) }

  lemma PropagatedIs(k: Block, dt: real)
    ensures Propagated(k, dt) == Block(k.a + dt * k.b + (k.b + dt * k.c) * dt, k.b + dt * k.c, k.c)
  {
    var p := Predicted(k, dt);
    assert p == Block(k.a + dt * k.b + (k.b + dt * k.c) * dt, k.b + dt * k.c, k.c + 0.1);
    hide Predicted;
    assert Propagated(k, dt) == p.(c := k.c);
  }

  lemma TwiceIsOnce(a: real, b: real, c: real, d1: real, d2: real, a1: real, b1: real)
    requires b1 == b + d1 * c && a1 == a + d1 * b + b1 * d1
    ensures b1 + d2 * c == b + (d1 + d2) * c
    ensures a1 + d2 * b1 + (b1 + d2 * c) * d2 == a + (d1 + d2) * b + (b + (d1 + d2) * c) * (d1 + d2)
  {
  }

  /** Nothing is propagated over no time, and over two times as over their sum. */
  lemma PropagationComposes(k: Block, d1: real, d2: real)
    ensures Propagated(k, 0.0) == k
    ensures Propagated(Propagated(k, d1), d2) == Propagated(k, d1 + d2)
  {
    hide Propagated;
    PropagatedIs(k, 0.0);
    PropagatedIs(k, d1);
    PropagatedIs(k, d1 + d2);
    var once, d := Propagated(k, d1), d1 + d2;
    PropagatedIs(once, d2);
    TwiceIsOnce(k.a, k.b, k.c, d1, d2, once.a, once.b);
    var twice := Propagated(once, d2);
    assert twice.b == k.b + d * k.c;
    assert twice.a == k.a + d * k.b + (k.b + d * k.c) * d;
  }

  lemma PredictionVector(x: Vec, dt: real)
    ensures Add(Apply(Transition(dt), x), Apply(IDENTITY, Vec(0.0, 0.0, 0.0, 0.0))) == Predict(x, dt)
  {
  }

  /** The measured velocities have no effect. */
  lemma CorrectionVector(p: Block, x: Vec, mx: real, my: real, velX: real, velY: real)
    requires Innovation(p) > 0.0
    ensures var s := Innovation(p);
      Add(x, Apply(Gain((p.a + p.b) / s, (p.b + p.c) / s), Sub(Vec(mx, my, velX, velY), Apply(OBSERVE, x))))
      == Correct(p, x, mx, my)
  {
  }

  /** What the products of an update come to. */
  lemma UpdateIs(k: Block, dt: real, x0: Vec, m: Vec)
    requires Semidefinite(k)
    ensures var p := Predicted(k, dt); var s := Innovation(p);
      var x := Add(Apply(Transition(dt), x0), Apply(IDENTITY, Vec(0.0, 0.0, 0.0, 0.0)));
      var P := Plus(Times(Times(Transition(dt), Covariance(k)), Transpose(Transition(dt))),
                    Diagonal(0.0, 0.0, 0.1, 0.1));
      && s >= 100.0
      && Plus(Times(Times(OBSERVE, P), Transpose(OBSERVE)), Diagonal(100.0, 100.0, 1000.0, 1000.0))
        == Diagonal(s, s, 1000.0, 1000.0)
      && var K := Times(Times(P, Transpose(OBSERVE)), InverseInnovation(s));
        && Add(x, Apply(K, Sub(m, Apply(OBSERVE, x)))) == Correct(p, Predict(x0, dt), m.a, m.b)
        && Times(Minus(IDENTITY, Times(K, OBSERVE)), P) == Covariance(Corrected(p))
  {
    var p := Predicted(k, dt);
    PredictedSemidefinite(k, dt);
    CorrectedSemidefinite(p);
    hide Times, Plus, Minus, Transpose, Apply, Add, Sub, Semidefinite, Predicted, Corrected, Innovation, Predict,
      Correct, Gain, InverseInnovation, Transition, Diagonal, Covariance;
    PredictionVector(x0, dt);
    PredictionBlock(k, dt);
    InnovationDiagonal(p);
    GainShape(p);
    CorrectionVector(p, Predict(x0, dt), m.a, m.b, m.c, m.d);
    CorrectionBlock(p);
  }

  lemma Shrinks(s: real, w: real, y: real, r: real)
    requires s >= 100.0 && s == w + y + 100.0
    ensures r - (w / s * r + y / s * r) == 100.0 / s * r && 0.0 < 100.0 / s <= 1.0
  {
    var a, b, c := w / s, y / s, 100.0 / s;
    assert a * s == w && b * s == y && c * s == 100.0;
    assert (a + b + c) * s == a * s + b * s + c * s;
    assert (a + b + c - 1.0) * s == 0.0;
    assert a + b + c == 1.0;
    assert r - (a * r + b * r) == c * r + (1.0 - a - b - c) * r;
  }

  /**
   * The correction scales the residual between the measured position and the one the filter expects by exactly
   * 100 over the innovation variance, so it never grows and never changes sign.
   */
  lemma ResidualShrinks(p: Block, x: Vec, mx: real, my: real)
    requires Semidefinite(p)
    ensures Innovation(p) >= 100.0 && 0.0 < 100.0 / Innovation(p) <= 1.0
    ensures var c := Correct(p, x, mx, my);
      && mx - (c.a + c.c) == 100.0 / Innovation(p) * (mx - (x.a + x.c))
      && my - (c.b + c.d) == 100.0 / Innovation(p) * (my - (x.b + x.d))
  {
    InnovationBound(p);
    var s := Innovation(p);
    Shrinks(s, p.a + p.b, p.b + p.c, mx - (x.a + x.c));
    Shrinks(s, p.a + p.b, p.b + p.c, my - (x.b + x.d));
  }

  /** After a correction the variance of the observed position is below that of the measurement. */
  lemma CorrectedVariance(p: Block)
    requires Semidefinite(p)
    ensures Innovation(p) >= 100.0
    ensures var c := Corrected(p); 0.0 <= c.a + 2.0 * c.b + c.c < 100.0
  {
    CorrectedSemidefinite(p);
    CorrectedFractions(p);
    var s, c, d := Innovation(p), Corrected(p), p.a * p.c - p.b * p.b;
    hide Corrected;
    FormNonNegative(c, 1.0, 1.0);
    var q := c.a + 2.0 * c.b + c.c;
    assert q * s == c.a * s + 2.0 * (c.b * s) + c.c * s == 100.0 * (s - 100.0);
    NonNegative(s, 100.0 - q);
    assert (100.0 - q) * s == 10000.0;
  }

  /** The covariance is a positive semidefinite matrix in the usual sense. */
  lemma CovarianceSemidefinite(k: Block, v: Vec)
    requires Semidefinite(k)
    ensures Transpose(Covariance(k)) == Covariance(k)
    ensures Dot(v, Apply(Covariance(k), v)) >= 0.0
  {
    FormNonNegative(k, v.a, v.c);
    FormNonNegative(k, v.b, v.d);
    QuadraticForm(k, v);
  }

  lemma QuadraticForm(k: Block, v: Vec)
    ensures Dot(v, Apply(Covariance(k), v))
         == (k.a * v.a * v.a + 2.0 * k.b * v.a * v.c + k.c * v.c * v.c)
          + (k.a * v.b * v.b + 2.0 * k.b * v.b * v.d + k.c * v.d * v.d)
  {
  }

  // ----- the tracker

  class Tracker {
    var A: Mat
    var B: Mat
    var H: Mat
    var Q: Mat
    var R: Mat
    var last_x: Vec
    var last_P: Mat
    var last_t: real

    function CovarianceBlock(): Block
      reads this
    {
      Block(last_P.r0.a, last_P.r0.c, last_P.r2.c)
    }

    ghost predicate Valid()
      reads this
    {
      && A == Transition(A.r0.c) && B == IDENTITY && H == OBSERVE
      && Q == Diagonal(0.0, 0.0, 0.1, 0.1) && R == Diagonal(100.0, 100.0, 1000.0, 1000.0)
      && last_P == Covariance(CovarianceBlock()) && Semidefinite(CovarianceBlock())
    }

    lemma Shape()
      requires Valid()
      ensures last_P == Covariance(CovarianceBlock()) && Semidefinite(CovarianceBlock())
    {
    }

    /** `initKalman` */
    constructor (mx: real, my: real, now: real)
      ensures Valid() && CovarianceBlock() == Block(0.0, 0.0, 0.0)
      ensures last_x == Vec(mx, my, 0.0, 0.0) && last_t == now
    {
      A := Transition(1.0);
      B := IDENTITY;
      H := OBSERVE;
      Q := Diagonal(0.0, 0.0, 0.1, 0.1);
      R := Diagonal(100.0, 100.0, 1000.0, 1000.0);
      last_x := Vec(mx, my, 0.0, 0.0);
      last_t := now;
      last_P := Diagonal(0.0, 0.0, 0.0, 0.0);
    }

    /** `resetKalman`: the covariance survives a reset. */
    method Reset(mx: real, my: real, now: real)
      requires Valid()
      modifies this
      ensures Valid() && CovarianceBlock() == old(CovarianceBlock())
      ensures last_x == Vec(mx, my, 0.0, 0.0) && last_t == now
    {
      last_x := Vec(mx, my, 0.0, 0.0);
      last_t := now;
    }

    /** `updateKalman` */
    method Update(mx: real, my: real, now: real)
      requires Valid()
      modifies this
      ensures Valid()
      ensures now == old(last_t) ==>
        last_x == old(last_x) && CovarianceBlock() == old(CovarianceBlock()) && last_t == old(last_t)
      ensures now != old(last_t) ==>
        var dt := now - old(last_t);
        var p := Predicted(old(CovarianceBlock()), dt);
        && last_t == now && Innovation(p) >= 100.0
        && CovarianceBlock() == Corrected(p)
        && last_x == Correct(p, Predict(old(last_x), dt), mx, my)
    {
      hide Times, Plus, Minus, Transpose, Apply, Add, Sub, Semidefinite, Predicted, Corrected, Innovation, Predict,
        Correct, Gain, InverseInnovation, IsInverse;
      var dt := now - last_t;
      if dt == 0.0 {
        return;
      }
      ghost var k := CovarianceBlock();
      ghost var p := Predicted(k, dt);
      PredictedSemidefinite(k, dt);
      CorrectedSemidefinite(p);
      last_t := now;
      A := A.(r0 := A.r0.(c := dt), r1 := A.r1.(d := dt));
      assert A == Transition(dt);
      var measurement := Measure(mx, my, last_x, dt);
      var control := Vec(0.0, 0.0, 0.0, 0.0);
      UpdateIs(k, dt, last_x, measurement);
      var x := Add(Apply(A, last_x), Apply(B, control));
      var P := Plus(Times(Times(A, last_P), Transpose(A)), Q);

      var S := Plus(Times(Times(H, P), Transpose(H)), R);
      var inverse := Invert(S, Innovation(p));
      var K := Times(Times(P, Transpose(H)), inverse);
      var y := Sub(measurement, Apply(H, x));

      last_x := Add(x, Apply(K, y));
      last_P := Times(Minus(IDENTITY, Times(K, H)), P);
    }
  }

  /** The measured position, and the velocities since the estimate before. */
  method Measure(mx: real, my: real, last: Vec, dt: real) returns (m: Vec)
    requires dt != 0.0
    ensures m.a == mx && m.b == my && m.c * dt == mx - last.a && m.d * dt == my - last.b
  {
    var velX := (mx - last.a) / dt;
    var velY := (my - last.b) / dt;
    m := Vec(mx, my, velX, velY);
  }

  /** The inverse of S. */
  method Invert(S: Mat, ghost s: real) returns (n: Mat)
    requires s > 0.0 && S == Diagonal(s, s, 1000.0, 1000.0)
    ensures IsInverse(S, n) && n == InverseInnovation(s)
  {
    n := Diagonal(1.0 / S.r0.a, 1.0 / S.r1.b, 1.0 / S.r2.c, 1.0 / S.r3.d);
    InnovationInverse(s, n);
    hide IsInverse;
  }

  // ----- whole runs

  datatype Event = Reset | Update(dt: real)

  function CovarianceStep(k: Block, e: Event): Block
  {
    match e
    case Reset => k
    case Update(dt) =>
      if dt == 0.0 || Innovation(Predicted(k, dt)) == 0.0 then k else Corrected(Predicted(k, dt))
  }

  /** The covariance after a run of resets and updates from `initKalman`. */
  function CovarianceAfter(run: seq<Event>): Block
  {
    if run == [] then Block(0.0, 0.0, 0.0)
    else CovarianceStep(CovarianceAfter(run[..|run| - 1]), run[|run| - 1])
  }

  /** Over every run, whatever the times, the covariance stays semidefinite and no update divides by zero. */
  lemma {:induction false} RunSemidefinite(run: seq<Event>)
    ensures Semidefinite(CovarianceAfter(run))
    ensures forall dt: real :: Innovation(Predicted(CovarianceAfter(run), dt)) >= 100.0
    ensures run != [] && run[|run| - 1].Update? && run[|run| - 1].dt != 0.0 ==>
      var k := CovarianceAfter(run); 0.0 <= k.a + 2.0 * k.b + k.c < 100.0
  {
    hide Predicted, Corrected, Innovation, Semidefinite;
    NothingKnown();
    if run != [] {
      var k := CovarianceAfter(run[..|run| - 1]);
      RunSemidefinite(run[..|run| - 1]);
      if run[|run| - 1].Update? {
        var dt := run[|run| - 1].dt;
        PredictedSemidefinite(k, dt);
        CorrectedSemidefinite(Predicted(k, dt));
        CorrectedVariance(Predicted(k, dt));
      }
    }
    forall dt: real ensures Innovation(Predicted(CovarianceAfter(run), dt)) >= 100.0 {
      PredictedSemidefinite(CovarianceAfter(run), dt);
      InnovationBound(Predicted(CovarianceAfter(run), dt));
    }
  }

  lemma NothingKnown()
    ensures Semidefinite(Block(0.0, 0.0, 0.0))
  {
  }

  /** A call of `resetKalman` or `updateKalman` with the mouse at a point at a time. */
  datatype Call = ResetAt(mx: real, my: real, now: real) | UpdateAt(mx: real, my: real, now: real)

  /** The time of the last call. */
  function LastTime(start: real, calls: seq<Call>): real
  {
    if calls == [] then start else calls[|calls| - 1].now
  }

  /** The events of a run of calls: updates by the time since the call before. */
  function Events(start: real, calls: seq<Call>): seq<Event>
  {
    if calls == [] then []
    else
      var before := calls[..|calls| - 1];
      var c := calls[|calls| - 1];
      Events(start, before) + [if c.ResetAt? then Reset else Update(c.now - LastTime(start, before))]
  }

  /** The events of one more call. */
  lemma NextEvent(start: real, calls: seq<Call>, i: nat)
    requires i < |calls|
    ensures var e := if calls[i].ResetAt? then Reset else Update(calls[i].now - LastTime(start, calls[..i]));
      CovarianceAfter(Events(start, calls[..i + 1])) == CovarianceStep(CovarianceAfter(Events(start, calls[..i])), e)
    ensures LastTime(start, calls[..i + 1]) == calls[i].now
  {
    assert calls[..i + 1][..i] == calls[..i];
    var es := Events(start, calls[..i + 1]);
    assert es[..|es| - 1] == Events(start, calls[..i]);
    hide Predicted, Corrected, Innovation;
  }

  /** A tracker after any run of calls: equal blocks for the two axes, no cross terms, and the covariance of the run. */
  method Replay(mx: real, my: real, start: real, calls: seq<Call>) returns (tracker: Tracker)
    ensures fresh(tracker) && tracker.Valid() && tracker.last_t == LastTime(start, calls)
    ensures tracker.last_P == Covariance(CovarianceAfter(Events(start, calls)))
  {
    hide Predicted, Corrected, Innovation, Predict, Correct, Semidefinite, Tracker.Valid, Events, CovarianceAfter;
    tracker := new Tracker(mx, my, start);
    NoEvents(start);
    for i := 0 to |calls|
      invariant fresh(tracker) && tracker.Valid() && tracker.last_t == LastTime(start, calls[..i])
      invariant tracker.CovarianceBlock() == CovarianceAfter(Events(start, calls[..i]))
    {
      var c := calls[i];
      NextEvent(start, calls, i);
      if c.ResetAt? {
        tracker.Reset(c.mx, c.my, c.now);
      } else {
        tracker.Update(c.mx, c.my, c.now);
      }
    }
    assert calls[..|calls|] == calls;
    tracker.Shape();
  }

  lemma NoEvents(start: real)
    ensures CovarianceAfter(Events(start, [])) == Block(0.0, 0.0, 0.0)
  {
  }
}
