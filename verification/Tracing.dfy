/** Following a contour of conrec.c from piece to piece. */
module Tracing {
  import opened Conrec
  import opened EndCounts
  import opened Junctions
  import opened Pieces
  import opened Pruning
  import opened Walks
  import opened Watertight

  // Number 2 i stands for leaving piece i by its first end, number 2 i + 1 for leaving it by its second.

  function EndAt(ps: seq<Piece>, d: nat): End
    requires d < 2 * |ps|
  {
    if d % 2 == 0 then ps[d / 2].e1 else ps[d / 2].e2
  }

  function Other(d: nat): nat { if d % 2 == 0 then d + 1 else d - 1 }

  /** By number d, a piece of level k ends at e. */
  ghost predicate Reaches(ps: seq<Piece>, k: nat, e: End, d: nat)
  {
    d < 2 * |ps| && ps[d / 2].k == k && SameEnd(EndAt(ps, d), e)
  }

  lemma OneLess(ps: seq<Piece>, k: nat, e: End, d: nat)
    requires Reaches(ps, k, e, d) && d >= 2
    ensures Reaches(ps[1..], k, e, d - 2)
  {
    assert (d - 2) / 2 == d / 2 - 1;
  }

  lemma {:induction false} AtOne(ps: seq<Piece>, k: nat, e: End, a: nat)
    requires Reaches(ps, k, e, a)
    ensures EndsOn(ps, k, e) >= 1
  {
    hide SameEnd;
    if a >= 2 {
      OneLess(ps, k, e, a);
      AtOne(ps[1..], k, e, a - 2);
    }
  }

  lemma {:induction false} AtTwo(ps: seq<Piece>, k: nat, e: End, a: nat, b: nat)
    requires a < b && Reaches(ps, k, e, a) && Reaches(ps, k, e, b)
    ensures EndsOn(ps, k, e) >= 2
  {
    hide SameEnd;
    if b >= 2 {
      OneLess(ps, k, e, b);
      if a >= 2 {
        OneLess(ps, k, e, a);
        AtTwo(ps[1..], k, e, a - 2, b - 2);
      } else {
        AtOne(ps[1..], k, e, b - 2);
      }
    }
  }

  lemma {:induction false} AtThree(ps: seq<Piece>, k: nat, e: End, a: nat, b: nat, c: nat)
    requires a < b < c && Reaches(ps, k, e, a) && Reaches(ps, k, e, b) && Reaches(ps, k, e, c)
    ensures EndsOn(ps, k, e) >= 3
  {
    hide SameEnd;
    OneLess(ps, k, e, c);
    if b >= 2 {
      OneLess(ps, k, e, b);
      if a >= 2 {
        OneLess(ps, k, e, a);
        AtThree(ps[1..], k, e, a - 2, b - 2, c - 2);
      } else {
        AtTwo(ps[1..], k, e, b - 2, c - 2);
      }
    } else {
      AtOne(ps[1..], k, e, c - 2);
    }
  }

  /** Where two pieces end there is another number beside any one. */
  lemma {:induction false} AnotherAt(ps: seq<Piece>, k: nat, e: End, a: nat) returns (b: nat)
    requires EndsOn(ps, k, e) >= 2 || (EndsOn(ps, k, e) >= 1 && !Reaches(ps, k, e, a))
    ensures b != a && Reaches(ps, k, e, b)
  {
    hide SameEnd;
    if Reaches(ps, k, e, 0) && a != 0 {
      b := 0;
    } else if Reaches(ps, k, e, 1) && a != 1 {
      b := 1;
    } else if a >= 2 {
      if Reaches(ps[1..], k, e, a - 2) { OneMore(ps, k, e, a - 2); }
      b := AnotherAt(ps[1..], k, e, a - 2);
      OneMore(ps, k, e, b);
      b := b + 2;
    } else {
      b := AnotherAt(ps[1..], k, e, 2 * |ps|);
      OneMore(ps, k, e, b);
      b := b + 2;
    }
  }

  lemma OneMore(ps: seq<Piece>, k: nat, e: End, d: nat)
    requires ps != [] && Reaches(ps[1..], k, e, d)
    ensures Reaches(ps, k, e, d + 2)
  {
    assert (d + 2) / 2 == d / 2 + 1;
  }

  // ----- going on

  /** The same place is reached by another number. */
  ghost predicate Meets(ps: seq<Piece>, k: nat, d: nat, p: nat)
  {
    p != d && d < 2 * |ps| && ps[d / 2].k == k && Reaches(ps, k, EndAt(ps, d), p)
  }

  /** The number of the piece that goes on where a piece is left, -1 when there is none. */
  ghost function Partner(ps: seq<Piece>, k: nat, d: nat): (p: int)
    ensures p >= 0 ==> Meets(ps, k, d, p)
    ensures p < 0 ==> p == -1 && forall q: nat :: !Meets(ps, k, d, q)
  {
    if exists p: nat :: Meets(ps, k, d, p) then var p: nat :| Meets(ps, k, d, p); p else -1
  }

  /** Entering the next piece, which is left by its other end. */
  ghost function NextOf(ps: seq<Piece>, k: nat): (next: seq<int>)
    ensures |next| == 2 * |ps|
    ensures forall d: nat :: d < |next| ==> next[d] == if Partner(ps, k, d) >= 0 then Other(Partner(ps, k, d)) else -1
  {
    seq(2 * |ps|, d requires 0 <= d < 2 * |ps| => if Partner(ps, k, d) >= 0 then Other(Partner(ps, k, d)) else -1)
  }

  function BackOf(ps: seq<Piece>): (back: seq<int>)
    ensures |back| == 2 * |ps| && forall d: nat :: d < |back| ==> back[d] == Other(d)
  {
    seq(2 * |ps|, d requires 0 <= d < 2 * |ps| => Other(d))
  }

  /** At most two numbers reach the same place. */
  ghost predicate Pairs(ps: seq<Piece>, k: nat)
  {
    forall d: nat, p: nat, q: nat :: Meets(ps, k, d, p) && Meets(ps, k, d, q) ==> p == q
  }

  lemma MeetsBack(ps: seq<Piece>, k: nat, d: nat, p: nat)
    requires Meets(ps, k, d, p)
    ensures Meets(ps, k, p, d)
  {
  }

  lemma OtherBack(d: nat, n: nat)
    requires d < 2 * n
    ensures Other(d) < 2 * n && Other(Other(d)) == d
  {
  }

  /** Following can be turned round. */
  lemma Turns(ps: seq<Piece>, k: nat)
    requires Pairs(ps, k)
    ensures Reversible(NextOf(ps, k), BackOf(ps))
  {
    var next, back := NextOf(ps, k), BackOf(ps);
    hide Reaches, Meets, Other, Partner;
    forall d: nat | d < |next| ensures 0 <= back[d] < |back| && back[back[d]] == d { OtherBack(d, |ps|); }
    forall d: nat | d < |next|
      ensures -1 <= next[d] < |next| && (next[d] >= 0 ==> next[back[next[d]]] == back[d])
    {
      var p := Partner(ps, k, d);
      if p >= 0 {
        MeetsInside(ps, k, d, p);
        OtherBack(p, |ps|);
        MeetsBack(ps, k, d, p);
        assert Partner(ps, k, p) == d;
      }
    }
  }

  lemma MeetsInside(ps: seq<Piece>, k: nat, d: nat, p: nat)
    requires Meets(ps, k, d, p)
    ensures p < 2 * |ps|
  {
  }

  // ----- contours

  /** No grid point and no centre is on the level. */
  ghost predicate OffLevel(g: Grid, level: real) { forall n: Node :: n.In(g) ==> Height(g, level, n) != 0.0 }

  ghost predicate OnTheBorder(g: Grid, e: End) { e.Between? && OnBorder(g, e.p, e.q) }

  lemma PieceAt(g: Grid, z: seq<real>, k: nat, d: nat)
    requires g.Valid() && k < |z| && Increasing(z) && OffLevel(g, z[k])
    requires d < 2 * |Contours(g, z)| && Contours(g, z)[d / 2].k == k
    ensures var e := EndAt(Contours(g, z), d); EndsOn(Contours(g, z), k, e) == if OnTheBorder(g, e) then 1 else 2
  {
    var s := Contours(g, z)[d / 2];
    assert s in Contours(g, z);
    hide Contours, Increasing, Height, EndsOn, Crosses, OnBorder, Inner;
    NoLooseEnds(g, z, s, EndAt(Contours(g, z), d));
  }

  lemma ContourPairs(g: Grid, z: seq<real>, k: nat)
    requires g.Valid() && k < |z| && Increasing(z) && OffLevel(g, z[k])
    ensures Pairs(Contours(g, z), k)
  {
    var ps := Contours(g, z);
    hide Contours, Increasing, OffLevel, EndsOn, SameEnd;
    forall d: nat, p: nat, q: nat | Meets(ps, k, d, p) && Meets(ps, k, d, q) ensures p == q {
      PieceAt(g, z, k, d);
      var e := EndAt(ps, d);
      SameItself(e);
      if p < q { AtThreeAny(ps, k, e, d, p, q); }
      if q < p { AtThreeAny(ps, k, e, d, q, p); }
    }
  }

  lemma SameItself(e: End)
    ensures SameEnd(e, e)
  {
  }

  lemma AtThreeAny(ps: seq<Piece>, k: nat, e: End, d: nat, p: nat, q: nat)
    requires p < q && d != p && d != q && Reaches(ps, k, e, d) && Reaches(ps, k, e, p) && Reaches(ps, k, e, q)
    ensures EndsOn(ps, k, e) >= 3
  {
    hide Reaches, EndsOn;
    if d < p { AtThree(ps, k, e, d, p, q); }
    else if d < q { AtThree(ps, k, e, p, d, q); }
    else { AtThree(ps, k, e, p, q, d); }
  }

  lemma GoesOn(ps: seq<Piece>, k: nat, d: nat)
    requires d < 2 * |ps| && ps[d / 2].k == k && EndsOn(ps, k, EndAt(ps, d)) == 2
    ensures Partner(ps, k, d) >= 0
  {
    hide SameEnd, EndsOn;
    var b := AnotherAt(ps, k, EndAt(ps, d), d);
    assert Meets(ps, k, d, b);
  }

  /** A piece is left without another going on exactly at the border. */
  lemma StopsAtBorder(g: Grid, z: seq<real>, k: nat, d: nat)
    requires g.Valid() && k < |z| && Increasing(z) && OffLevel(g, z[k])
    requires d < 2 * |Contours(g, z)| && Contours(g, z)[d / 2].k == k
    ensures NextOf(Contours(g, z), k)[d] < 0 <==> OnTheBorder(g, EndAt(Contours(g, z), d))
  {
    var ps := Contours(g, z);
    PieceAt(g, z, k, d);
    var e := EndAt(ps, d);
    SameItself(e);
    hide Contours, Increasing, OffLevel, EndsOn, SameEnd, OnTheBorder;
    assert Reaches(ps, k, e, d);
    var p := Partner(ps, k, d);
    if p >= 0 {
      if p < d { AtTwo(ps, k, e, p, d); } else { AtTwo(ps, k, e, d, p); }
    }
    if EndsOn(ps, k, e) == 2 { GoesOn(ps, k, d); }
  }

  lemma {:induction false} WalkOnLevel(ps: seq<Piece>, k: nat, d: nat, n: nat)
    requires d < 2 * |ps| && ps[d / 2].k == k
    ensures var a := Walk(NextOf(ps, k), d, n); a >= 0 ==> a < 2 * |ps| && ps[a / 2].k == k
  {
    hide SameEnd;
    if n > 0 {
      WalkOnLevel(ps, k, d, n - 1);
      var b := Walk(NextOf(ps, k), d, n - 1);
      if b >= 0 && Partner(ps, k, b) >= 0 { SamePiece(Partner(ps, k, b)); }
    }
  }

  /** Following the contour from there comes to an end, and it is on the border. */
  ghost predicate EndsAtBorder(g: Grid, ps: seq<Piece>, k: nat, d: nat)
    requires d < 2 * |ps|
  {
    exists n: nat :: var a := Walk(NextOf(ps, k), d, n);
      0 <= a < 2 * |ps| && NextOf(ps, k)[a] < 0 && OnTheBorder(g, EndAt(ps, a))
  }

  lemma {:induction false} LastPlace(next: seq<int>, d: nat, n: nat) returns (m: nat)
    requires Map(next) && d < |next| && Walk(next, d, n) < 0
    ensures 0 <= Walk(next, d, m) < |next| && next[Walk(next, d, m)] < 0
  {
    WalkRange(next, d, n - 1);
    if Walk(next, d, n - 1) >= 0 { m := n - 1; } else { m := LastPlace(next, d, n - 1); }
  }

  lemma StopsMeansBorder(g: Grid, z: seq<real>, k: nat, d: nat)
    requires g.Valid() && k < |z| && Increasing(z) && OffLevel(g, z[k])
    requires d < 2 * |Contours(g, z)| && Contours(g, z)[d / 2].k == k && Map(NextOf(Contours(g, z), k))
    ensures Stops(NextOf(Contours(g, z), k), d) <==> EndsAtBorder(g, Contours(g, z), k, d)
  {
    var ps := Contours(g, z);
    var next := NextOf(ps, k);
    hide Contours, Increasing, OffLevel, OnTheBorder, NextOf;
    if Stops(next, d) {
      var n: nat :| Walk(next, d, n) < 0;
      var m := LastPlace(next, d, n);
      WalkOnLevel(ps, k, d, m);
      StopsAtBorder(g, z, k, Walk(next, d, m));
    }
    if EndsAtBorder(g, ps, k, d) {
      var n: nat :| var a := Walk(next, d, n);
        0 <= a < 2 * |ps| && next[a] < 0 && OnTheBorder(g, EndAt(ps, a));
      assert Walk(next, d, n + 1) < 0;
    }
  }

  /**
   * A contour whose level no grid point and no centre has, followed from any of its pieces by either end, from each
   * piece to the only one that goes on: either it comes back to this piece and this end, or it ends on the border,
   * and so it does by the other end.
   */
  lemma ContoursCloseOrCross(g: Grid, z: seq<real>, k: nat, d: nat)
    requires g.Valid() && k < |z| && Increasing(z) && OffLevel(g, z[k])
    requires d < 2 * |Contours(g, z)| && Contours(g, z)[d / 2].k == k
    ensures Pairs(Contours(g, z), k)
    ensures Returns(NextOf(Contours(g, z), k), d) <==> !EndsAtBorder(g, Contours(g, z), k, d)
    ensures Other(d) < 2 * |Contours(g, z)|
    ensures EndsAtBorder(g, Contours(g, z), k, d) <==> EndsAtBorder(g, Contours(g, z), k, Other(d))
  {
    var ps := Contours(g, z);
    OtherBack(d, |ps|);
    SamePiece(d);
    assert BackOf(ps)[d] == Other(d);
    hide Contours, Increasing, OffLevel, NextOf, BackOf, Pairs, Returns, Stops, EndsAtBorder, Other;
    ContourPairs(g, z, k);
    Turns(ps, k);
    NextSize(ps, k);
    ClosedOrOpen(NextOf(ps, k), BackOf(ps), d);
    StopsMeansBorder(g, z, k, d);
    StopsMeansBorder(g, z, k, Other(d));
  }

  lemma SamePiece(d: nat)
    ensures Other(d) / 2 == d / 2
  {
  }

  lemma NextSize(ps: seq<Piece>, k: nat)
    ensures |NextOf(ps, k)| == 2 * |ps|
    ensures Reversible(NextOf(ps, k), BackOf(ps)) ==> Map(NextOf(ps, k))
  {
  }
}
