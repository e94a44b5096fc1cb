/** Facts about rearranging sequences that the Burrows-Wheeler proofs rest on. */
module Rearrange {

  function Map<A, B>(f: A -> B, a: seq<A>): (r: seq<B>)
    ensures |r| == |a| && forall i :: 0 <= i < |a| ==> r[i] == f(a[i])
  {
    seq(|a|, i requires 0 <= i < |a| => f(a[i]))
  }

  ghost predicate Distinct<A>(a: seq<A>)
  {
    forall i, j :: 0 <= i < j < |a| ==> a[i] != a[j]
  }

  /** t lists distinct indices below its own length. */
  ghost predicate Permutation(t: seq<nat>)
  {
    Distinct(t) && forall i :: 0 <= i < |t| ==> t[i] < |t|
  }

  ghost function Elements<A>(a: seq<A>): set<A>
  {
    set x | x in a
  }

  lemma {:induction false} DistinctCount<A>(a: seq<A>)
    requires Distinct(a)
    ensures |Elements(a)| == |a|
    ensures forall x :: multiset(a)[x] == if x in a then 1 else 0
  {
    if a != [] {
      var k := |a| - 1;
      var b := a[..k];
      DistinctCount(b);
      assert a == b + [a[k]];
      assert Elements(a) == Elements(b) + {a[k]};
    }
  }

  function Below(n: nat): (s: seq<nat>)
    ensures |s| == n && forall i :: 0 <= i < n ==> s[i] == i
  {
    seq(n, i => i)
  }

  lemma InBelow(n: nat, x: nat)
    ensures x in Below(n) <==> x < n
  {
    if x < n { assert Below(n)[x] == x; }
  }

  lemma SubsetOfSameSize<A>(s: set<A>, t: set<A>)
    requires s <= t && |s| == |t|
    ensures s == t
  {
    assert |t - s| == |t| - |s|;
  }

  /** Pigeonhole: a permutation reaches every index. */
  lemma PermutationOnto(t: seq<nat>, j: nat)
    requires Permutation(t) && j < |t|
    ensures exists i :: 0 <= i < |t| && t[i] == j
  {
    var id := Below(|t|);
    var s, all := Elements(t), Elements(id);
    DistinctCount(t);
    DistinctCount(id);
    forall x | x in s ensures x in all {
      InBelow(|t|, x);
    }
    SubsetOfSameSize(s, all);
    InBelow(|t|, j);
    assert j in all;
  }

  lemma PermutationMultiset(t: seq<nat>)
    requires Permutation(t)
    ensures multiset(t) == multiset(Below(|t|))
  {
    var id := Below(|t|);
    DistinctCount(t);
    DistinctCount(id);
    forall x ensures multiset(t)[x] == multiset(id)[x] {
      if x in t { InBelow(|t|, x); }
      if x in id { PermutationOnto(t, x); }
    }
  }

  lemma RemoveAt<A>(b: seq<A>, k: nat)
    requires k < |b|
    ensures multiset(b) == multiset(b[..k] + b[k+1..]) + multiset{b[k]}
  {
    assert b == b[..k] + [b[k]] + b[k+1..];
  }

  lemma MapRemoveAt<A, B>(f: A -> B, b: seq<A>, k: nat)
    requires k < |b|
    ensures multiset(Map(f, b)) == multiset(Map(f, b[..k] + b[k+1..])) + multiset{f(b[k])}
  {
    RemoveAt(Map(f, b), k);
    assert Map(f, b)[..k] + Map(f, b)[k+1..] == Map(f, b[..k] + b[k+1..]);
  }

  lemma {:induction false} MapKeepsMultiset<A, B>(f: A -> B, a: seq<A>, b: seq<A>)
    requires multiset(a) == multiset(b)
    ensures multiset(Map(f, a)) == multiset(Map(f, b))
    decreases |a|
  {
    if a == [] {
      assert |multiset(b)| == 0;
      assert b == [];
    } else {
      assert a[0] in multiset(b);
      var k :| 0 <= k < |b| && b[k] == a[0];
      RemoveAt(a, 0);
      RemoveAt(b, k);
      MapRemoveAt(f, a, 0);
      MapRemoveAt(f, b, k);
      var a', b' := a[..0] + a[1..], b[..k] + b[k+1..];
      assert multiset(a') == multiset(a) - multiset{a[0]};
      assert multiset(b') == multiset(b) - multiset{a[0]};
      MapKeepsMultiset(f, a', b');
    }
  }

  /** Picking the elements of a in the order given by a permutation rearranges a. */
  lemma PickIsRearrangement<A>(a: seq<A>, t: seq<nat>, picked: seq<A>)
    requires Permutation(t) && |picked| == |t| == |a| > 0
    requires forall j :: 0 <= j < |t| ==> picked[j] == a[t[j]]
    ensures multiset(picked) == multiset(a)
  {
    var f := (i: nat) => if i < |a| then a[i] else a[0];
    PermutationMultiset(t);
    MapKeepsMultiset(f, t, Below(|t|));
    assert Map(f, t) == picked;
    assert Map(f, Below(|t|)) == a;
  }

  /** How many of the first i elements are v. */
  function Count(s: seq<nat>, v: nat, i: nat): (r: nat)
    requires i <= |s|
    ensures r <= i
  {
    if i == 0 then 0 else Count(s, v, i - 1) + if s[i - 1] == v then 1 else 0
  }
}
