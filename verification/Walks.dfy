/** Walks along a partial map of finitely many places that can be walked backwards. */
module Walks {

  /** `next` leads from each place to another, or nowhere (-1). */
  ghost predicate Map(next: seq<int>) { forall d :: 0 <= d < |next| ==> -1 <= next[d] < |next| }

  /** `back` turns round: turning twice is not turning, and a step can be taken back. */
  ghost predicate Reversible(next: seq<int>, back: seq<int>)
  {
    && Map(next) && |back| == |next| && (forall d :: 0 <= d < |back| ==> 0 <= back[d] < |back|)
    && (forall d :: 0 <= d < |back| ==> back[back[d]] == d)
    && forall d :: 0 <= d < |next| && next[d] >= 0 ==> next[back[next[d]]] == back[d]
  }

  /** The place after n steps, or -1 when the walk has stopped. */
  function Walk(next: seq<int>, d: nat, n: nat): int
    requires d < |next|
  {
    if n == 0 then d
    else
      var e := Walk(next, d, n - 1);
      if 0 <= e < |next| then next[e] else -1
  }

  ghost predicate Stops(next: seq<int>, d: nat)
    requires d < |next|
  {
    exists n: nat :: Walk(next, d, n) < 0
  }

  ghost predicate Returns(next: seq<int>, d: nat)
    requires d < |next|
  {
    exists n: nat :: n > 0 && Walk(next, d, n) == d
  }

  lemma {:induction false} WalkRange(next: seq<int>, d: nat, n: nat)
    requires Map(next) && d < |next|
    ensures -1 <= Walk(next, d, n) < |next|
  {
    if n > 0 { WalkRange(next, d, n - 1); }
  }

  /** Two walks that meet have met from the start. */
  lemma {:induction false} NeverMeets(next: seq<int>, back: seq<int>, d: nat, i: nat, j: nat)
    requires Reversible(next, back) && d < |next| && i < j && Walk(next, d, j) >= 0
      && Walk(next, d, i) == Walk(next, d, j)
    ensures Walk(next, d, j - i) == d
    decreases i
  {
    if i > 0 {
      var a, b := Walk(next, d, i - 1), Walk(next, d, j - 1);
      WalkRange(next, d, i - 1);
      WalkRange(next, d, j - 1);
      assert next[a] == next[b] >= 0;
      assert next[back[next[a]]] == back[a] && next[back[next[b]]] == back[b];
      assert back[back[a]] == a && back[back[b]] == b;
      NeverMeets(next, back, d, i - 1, j - 1);
    }
  }

  function Visited(next: seq<int>, d: nat, n: nat): set<int>
    requires d < |next|
  {
    if n == 0 then {d} else Visited(next, d, n - 1) + {Walk(next, d, n)}
  }

  lemma {:induction false} VisitedOnce(next: seq<int>, d: nat, n: nat) returns (i: nat, j: nat)
    requires Map(next) && d < |next| && forall m: nat :: m <= n ==> Walk(next, d, m) >= 0
    ensures forall e :: e in Visited(next, d, n) ==> 0 <= e < |next|
    ensures forall m: nat :: m <= n ==> Walk(next, d, m) in Visited(next, d, n)
    ensures (i < j <= n && Walk(next, d, i) == Walk(next, d, j)) || |Visited(next, d, n)| == n + 1
  {
    i, j := 0, 0;
    if n > 0 {
      i, j := VisitedOnce(next, d, n - 1);
      WalkRange(next, d, n);
      if Walk(next, d, n) in Visited(next, d, n - 1) {
        i := Revisited(next, d, n - 1, Walk(next, d, n));
        j := n;
      }
    }
  }

  lemma {:induction false} Revisited(next: seq<int>, d: nat, n: nat, e: int) returns (i: nat)
    requires d < |next| && e in Visited(next, d, n)
    ensures i <= n && Walk(next, d, i) == e
  {
    if n == 0 || Walk(next, d, n) == e { i := n; } else { i := Revisited(next, d, n - 1, e); }
  }

  lemma {:induction false} Crowded(s: set<int>, m: nat)
    requires forall e :: e in s ==> 0 <= e < m
    ensures |s| <= m
  {
    if m > 0 {
      Crowded(s - {m - 1}, m - 1);
      if m - 1 !in s { assert s - {m - 1} == s; }
    } else {
      assert forall e :: e !in s;
      assert s == {};
    }
  }

  /** A walk that does not stop comes back to its start. */
  lemma ReturnsUnlessStops(next: seq<int>, back: seq<int>, d: nat)
    requires Reversible(next, back) && d < |next| && !Stops(next, d)
    ensures Returns(next, d)
  {
    assert forall m: nat :: m <= |next| ==> Walk(next, d, m) >= 0;
    var i, j := VisitedOnce(next, d, |next|);
    Crowded(Visited(next, d, |next|), |next|);
    NeverMeets(next, back, d, i, j);
  }

  lemma {:induction false} StoppedForever(next: seq<int>, d: nat, n: nat, m: nat)
    requires d < |next| && n <= m && Walk(next, d, n) < 0
    ensures Walk(next, d, m) < 0
    decreases m
  {
    if n < m { StoppedForever(next, d, n, m - 1); }
  }

  lemma {:induction false} Around(next: seq<int>, d: nat, n: nat, m: nat)
    requires d < |next| && Walk(next, d, n) == d
    ensures Walk(next, d, n + m) == Walk(next, d, m)
  {
    if m > 0 { Around(next, d, n, m - 1); }
  }

  lemma {:induction false} ManyTimes(next: seq<int>, d: nat, n: nat, m: nat)
    requires d < |next| && Walk(next, d, n) == d
    ensures 0 <= m * n && Walk(next, d, m * n) == d
  {
    if m > 0 {
      ManyTimes(next, d, n, m - 1);
      assert m * n == n + (m - 1) * n;
      Around(next, d, n, (m - 1) * n);
    }
  }

  /** A walk that comes back does not stop. */
  lemma ReturnsNeverStops(next: seq<int>, d: nat)
    requires d < |next| && Returns(next, d)
    ensures !Stops(next, d)
  {
    var n: nat :| n > 0 && Walk(next, d, n) == d;
    forall m: nat ensures Walk(next, d, m) >= 0 {
      ManyTimes(next, d, n, m);
      assert m <= m * n;
      if Walk(next, d, m) < 0 { StoppedForever(next, d, m, m * n); }
    }
  }

  /** The way back of a closed walk. */
  lemma {:induction false} WalkBack(next: seq<int>, back: seq<int>, d: nat, n: nat, m: nat)
    requires Reversible(next, back) && d < |next| && Walk(next, d, n) == d && m <= n
    requires forall i: nat :: i <= n ==> Walk(next, d, i) >= 0
    ensures 0 <= Walk(next, d, n - m) < |next| && Walk(next, back[d], m) == back[Walk(next, d, n - m)]
    decreases m
  {
    WalkRange(next, d, n - m);
    if m > 0 {
      WalkBack(next, back, d, n, m - 1);
      var e := Walk(next, d, n - m);
      assert Walk(next, d, n - m + 1) == next[e];
    }
  }

  /** Either the walk comes back to its start, or it stops, and so does the walk the other way. */
  lemma ClosedOrOpen(next: seq<int>, back: seq<int>, d: nat)
    requires Reversible(next, back) && d < |next|
    ensures Returns(next, d) <==> !Stops(next, d)
    ensures Stops(next, d) <==> Stops(next, back[d])
  {
    OneWay(next, back, d);
    OneWay(next, back, back[d]);
    hide Stops, Returns;
  }

  lemma OneWay(next: seq<int>, back: seq<int>, d: nat)
    requires Reversible(next, back) && d < |next|
    ensures Returns(next, d) <==> !Stops(next, d)
    ensures Stops(next, back[d]) ==> Stops(next, d)
  {
    if Returns(next, d) { ReturnsNeverStops(next, d); }
    if !Stops(next, d) {
      ReturnsUnlessStops(next, back, d);
      var n: nat :| n > 0 && Walk(next, d, n) == d;
      WalkBack(next, back, d, n, n);
      assert Returns(next, back[d]);
      ReturnsNeverStops(next, back[d]);
    }
  }
}
