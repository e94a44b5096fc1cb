/** What was written last: the order that moving to the front keeps, without moving anything. */
module History {

  /** Where v was last written, -1 if nowhere. */
  function LastSeen(seen: seq<nat>, v: nat): (k: int)
    ensures -1 <= k < |seen| && (k >= 0 ==> seen[k] == v)
    ensures forall i :: k < i < |seen| ==> seen[i] != v
  {
    if seen == [] then -1
    else if seen[|seen| - 1] == v then |seen| - 1
    else LastSeen(seen[..|seen| - 1], v)
  }

  /** v was written more recently than w or, when neither was, is the smaller. */
  predicate Ahead(seen: seq<nat>, v: nat, w: nat)
  {
    LastSeen(seen, v) > LastSeen(seen, w) || (LastSeen(seen, v) == LastSeen(seen, w) == -1 && v < w)
  }

  lemma SeenMore(seen: seq<nat>, v: nat, w: nat)
    ensures LastSeen(seen + [v], w) == if w == v then |seen| else LastSeen(seen, w)
  {
    assert (seen + [v])[..|seen|] == seen;
  }
}
