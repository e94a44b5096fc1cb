/** The selectors of a block, written by recency: no list of tables is moved. */
module SelectorRecency {
  import opened Bits
  import opened Outcomes
  import opened Rearrange
  import opened History
  import opened Selectors

  /** How many tables were used more recently than v or, if v was not used yet, were used or have a smaller number. */
  function TableRank(groupCount: nat, seen: seq<nat>, v: nat): nat
  {
    |set w: nat | w < groupCount && Ahead(seen, w, v)|
  }

  /** Every selector as its rank in ones, and a zero. */
  function RankBits(groupCount: nat, seen: seq<nat>, selectors: seq<nat>): seq<bit>
    decreases |selectors|
  {
    if selectors == [] then []
    else
      Ones(TableRank(groupCount, seen, selectors[0])) + [0]
      + RankBits(groupCount, seen + [selectors[0]], selectors[1..])
  }

  /** The list of tables by most recent use, and then by number. */
  ghost predicate Recent(list: seq<int>, groupCount: nat, seen: seq<nat>)
  {
    && Complete(list, groupCount) && (forall i :: 0 <= i < |list| ==> 0 <= list[i] < groupCount)
    && forall i, j :: 0 <= i < j < |list| ==> Ahead(seen, list[i], list[j])
  }

  lemma NoneAhead(seen: seq<nat>, v: nat)
    ensures !Ahead(seen, v, v)
  {
  }

  lemma RecentDistinct(list: seq<int>, groupCount: nat, seen: seq<nat>)
    requires Recent(list, groupCount, seen)
    ensures forall i, j :: 0 <= i < j < |list| ==> list[i] != list[j]
  {
    forall i, j | 0 <= i < j < |list| ensures list[i] != list[j] { NoneAhead(seen, list[i]); }
    hide Ahead;
  }

  lemma FirstRecent(groupCount: nat)
    ensures Recent(Below(groupCount), groupCount, [])
  {
    forall v | 0 <= v < groupCount ensures v in Below(groupCount) { InBelow(groupCount, v); }
  }

  lemma SpliceRecent(list: seq<int>, groupCount: nat, seen: seq<nat>, i: nat)
    requires Recent(list, groupCount, seen) && i < groupCount
    ensures Recent(Splice(list, i), groupCount, seen + [list[i]])
  {
    var v := list[i];
    var moved := Splice(list, i);
    RecentDistinct(list, groupCount, seen);
    SpliceKeeps(list, groupCount, i);
    assert |moved| == |list| && forall j :: 0 <= j < |moved| ==> moved[j] == list[Origin(i, j)];
    hide Complete, Splice;
    forall j, k | 0 <= j < k < |moved| ensures Ahead(seen + [v], moved[j], moved[k]) {
      SeenMore(seen, v, moved[j]);
      SeenMore(seen, v, moved[k]);
      hide LastSeen;
    }
  }

  /** Where entry j of the list comes from when entry i goes to the front. */
  function Origin(i: nat, j: nat): nat { if j == 0 then i else if j <= i then j - 1 else j }

  lemma RankIsIndex(list: seq<int>, groupCount: nat, seen: seq<nat>, i: nat)
    requires Recent(list, groupCount, seen) && i < groupCount
    ensures TableRank(groupCount, seen, list[i]) == i
  {
    RecentDistinct(list, groupCount, seen);
    DistinctCount(list[..i]);
    var ahead := set w: nat | w < groupCount && Ahead(seen, w, list[i]);
    forall w: nat ensures w in ahead <==> w in Elements(list[..i]) {
      if w < groupCount {
        assert w in list;
        var k :| 0 <= k < |list| && list[k] == w;
        NoneAhead(seen, w);
        if k > i { NotBoth(seen, list[i], w); }
        assert w in list[..i] <==> k < i;
      }
      hide Ahead;
    }
    SameElements(ahead, list[..i]);
  }

  lemma NotBoth(seen: seq<nat>, v: nat, w: nat)
    requires Ahead(seen, v, w)
    ensures !Ahead(seen, w, v)
  {
  }

  lemma SameElements(s: set<nat>, list: seq<int>)
    requires forall i :: 0 <= i < |list| ==> list[i] >= 0
    requires forall w: nat :: w in s <==> w in Elements(list)
    requires |Elements(list)| == |list|
    ensures |s| == |list|
  {
    assert forall w: int :: w in Elements(list) ==> w in list;
    var t: set<int> := s;
    assert t == Elements(list);
  }

  /** Written by the position in a list that is moved, the selectors are the same bits. */
  lemma {:induction false} SelectorBitsRank(list: seq<int>, groupCount: nat, seen: seq<nat>, selectors: seq<nat>)
    requires Recent(list, groupCount, seen) && forall i :: 0 <= i < |selectors| ==> selectors[i] < groupCount
    ensures SelectorBits(list, selectors) == RankBits(groupCount, seen, selectors)
    decreases |selectors|
  {
    hide Ones, Splice, Ahead, TableRank;
    if selectors != [] {
      assert selectors[0] in list;
      var i := IndexOf(list, selectors[0]);
      RankIsIndex(list, groupCount, seen, i);
      SpliceRecent(list, groupCount, seen, i);
      SelectorBitsRank(Splice(list, i), groupCount, seen + [selectors[0]], selectors[1..]);
    }
  }

  /** Selectors come back from their ranks. */
  lemma RanksReadBack(bytes: seq<byte>, p: nat, selectors: seq<nat>, groupCount: nat)
    requires 1 <= groupCount <= 256 && forall i :: 0 <= i < |selectors| ==> selectors[i] < groupCount
    requires At(bytes, p, RankBits(groupCount, [], selectors))
    ensures ReadSelectors(bytes, p, |selectors|, groupCount)
         == Ok((selectors, p + |RankBits(groupCount, [], selectors)|))
  {
    hide *;
    FirstRecent(groupCount);
    SelectorBitsRank(Below(groupCount), groupCount, [], selectors);
    SelectorsReadBack(bytes, p, selectors, groupCount);
  }
}
