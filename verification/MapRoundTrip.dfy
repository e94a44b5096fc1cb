/** The bit map of used bytes and its reading. */
module MapRoundTrip {
  import opened Bits
  import opened Fields

  ghost predicate Ascending(used: seq<byte>)
  {
    forall i, j :: 0 <= i < j < |used| ==> used[i] < used[j]
  }

  /** The used bytes from lo to hi - 1, in order. */
  function Members(used: seq<byte>, lo: nat, hi: nat): seq<byte>
    requires hi <= 256
    decreases hi - lo
  {
    if lo >= hi then [] else (if lo in used then [lo] else []) + Members(used, lo + 1, hi)
  }

  function RowBits(used: seq<byte>, i: nat): (e: seq<bit>)
    requires i < 16
    ensures |e| == 16 && forall j :: 0 <= j < 16 ==> e[j] == if 16 * i + j in used then 1 else 0
  {
    seq(16, (j: nat) => if 16 * i + j in used then 1 else 0)
  }

  predicate Present(used: seq<byte>, i: nat)
    requires i < 16
  {
    Members(used, 16 * i, 16 * i + 16) != []
  }

  function Presence(used: seq<byte>): (e: seq<bit>)
    ensures |e| == 16 && forall i :: 0 <= i < 16 ==> e[i] == if Present(used, i) then 1 else 0
  {
    seq(16, (i: nat) requires i < 16 => if Present(used, i) then 1 else 0)
  }

  function Rows(used: seq<byte>, i: nat): seq<bit>
    requires i <= 16
    decreases 16 - i
  {
    if i == 16 then [] else (if Present(used, i) then RowBits(used, i) else []) + Rows(used, i + 1)
  }

  /** One bit for each row of 16 bytes, then the rows in use. */
  function MapBits(used: seq<byte>): seq<bit>
  {
    Presence(used) + Rows(used, 0)
  }

  lemma {:induction false} MembersSplit(used: seq<byte>, lo: nat, mid: nat, hi: nat)
    requires lo <= mid <= hi <= 256
    ensures Members(used, lo, hi) == Members(used, lo, mid) + Members(used, mid, hi)
    decreases mid - lo
  {
    if lo < mid {
      MembersSplit(used, lo + 1, mid, hi);
      var one: seq<byte> := if lo in used then [lo] else [];
      assert one + (Members(used, lo + 1, mid) + Members(used, mid, hi))
          == (one + Members(used, lo + 1, mid)) + Members(used, mid, hi);
    } else {
      assert [] + Members(used, mid, hi) == Members(used, mid, hi);
    }
  }

  lemma {:induction false} RowReads(used: seq<byte>, bytes: seq<byte>, q: nat, i: nat, j: nat)
    requires i < 16 && j <= 16 && At(bytes, q, RowBits(used, i))
    ensures RowFrom(bytes, q, i, j) == Members(used, 16 * i + j, 16 * i + 16)
    decreases 16 - j
  {
    hide BitAt;
    if j < 16 {
      RowReads(used, bytes, q, i, j + 1);
      assert BitAt(bytes, q + j) == RowBits(used, i)[j];
    }
  }

  ghost predicate ReadsRows(used: seq<byte>, bytes: seq<byte>, p: nat, q: nat, i: nat)
    requires i <= 16
  {
    var r := MapFrom(bytes, p, q, i);
    r.0 == Members(used, 16 * i, 256) && r.1 == q + |Rows(used, i)|
  }

  lemma {:induction false} MapReads(used: seq<byte>, bytes: seq<byte>, p: nat, q: nat, i: nat)
    requires i <= 16 && At(bytes, p, Presence(used)) && At(bytes, q, Rows(used, i))
    ensures ReadsRows(used, bytes, p, q, i)
    decreases 16 - i
  {
    hide BitAt, Present, Rows, At, ReadsRows, RowBits, Presence;
    if i == 16 {
      NoMoreRows(used, bytes, p, q);
    } else {
      var row: seq<bit> := if Present(used, i) then RowBits(used, i) else [];
      PresenceRead(used, bytes, p, i);
      RowsStep(used, i, row);
      AtConcat(bytes, q, row, Rows(used, i + 1));
      MapReads(used, bytes, p, q + |row|, i + 1);
      if Present(used, i) {
        RowReads(used, bytes, q, i, 0);
        PresentStep(used, bytes, p, q, i);
      } else {
        AbsentStep(used, bytes, p, q, i);
      }
    }
  }

  lemma NoMoreRows(used: seq<byte>, bytes: seq<byte>, p: nat, q: nat)
    ensures ReadsRows(used, bytes, p, q, 16)
  {
  }

  lemma PresentStep(used: seq<byte>, bytes: seq<byte>, p: nat, q: nat, i: nat)
    requires i < 16 && Present(used, i) && BitAt(bytes, p + i) == 1
    requires RowFrom(bytes, q, i, 0) == Members(used, 16 * i + 0, 16 * i + 16)
    requires ReadsRows(used, bytes, p, q + 16, i + 1)
    ensures ReadsRows(used, bytes, p, q, i)
  {
    RowsStep(used, i, RowBits(used, i));
    MapFromStep(bytes, p, q, i);
    hide BitAt, RowFrom, Members, Rows, MapFrom, Present;
    MembersSplit(used, 16 * i, 16 * i + 16, 256);
  }

  lemma AbsentStep(used: seq<byte>, bytes: seq<byte>, p: nat, q: nat, i: nat)
    requires i < 16 && !Present(used, i) && BitAt(bytes, p + i) != 1
    requires ReadsRows(used, bytes, p, q, i + 1)
    ensures ReadsRows(used, bytes, p, q, i)
  {
    RowsStep(used, i, []);
    MapFromStep(bytes, p, q, i);
    var rest := Members(used, 16 * i + 16, 256);
    hide BitAt, RowFrom, Members, Rows, MapFrom;
    MembersSplit(used, 16 * i, 16 * i + 16, 256);
    assert [] + rest == rest;
  }

  lemma PresenceRead(used: seq<byte>, bytes: seq<byte>, p: nat, i: nat)
    requires i < 16 && At(bytes, p, Presence(used))
    ensures BitAt(bytes, p + i) == 1 <==> Present(used, i)
  {
    hide BitAt, Present;
    assert BitAt(bytes, p + i) == Presence(used)[i];
  }

  lemma RowsStep(used: seq<byte>, i: nat, row: seq<bit>)
    requires i < 16 && row == if Present(used, i) then RowBits(used, i) else []
    ensures Rows(used, i) == row + Rows(used, i + 1)
  {
    hide Present;
  }

  lemma MapFromStep(bytes: seq<byte>, p: nat, q: nat, i: nat)
    requires i < 16
    ensures BitAt(bytes, p + i) == 1 ==>
      MapFrom(bytes, p, q, i)
      == (RowFrom(bytes, q, i, 0) + MapFrom(bytes, p, q + 16, i + 1).0, MapFrom(bytes, p, q + 16, i + 1).1)
    ensures BitAt(bytes, p + i) != 1 ==> MapFrom(bytes, p, q, i) == MapFrom(bytes, p, q, i + 1)
  {
    hide BitAt, RowFrom;
  }

  lemma {:induction false} MembersAscending(used: seq<byte>, k: nat, lo: nat)
    requires Ascending(used) && k <= |used| && lo <= 256
    requires (forall i :: 0 <= i < k ==> used[i] < lo) && forall i :: k <= i < |used| ==> lo <= used[i]
    ensures Members(used, lo, 256) == used[k..]
    decreases 256 - lo
  {
    if lo < 256 {
      if k < |used| && used[k] == lo {
        MembersAscending(used, k + 1, lo + 1);
        assert used[k..] == [lo] + used[k + 1..];
      } else {
        MembersAscending(used, k, lo + 1);
        assert lo !in used;
        assert [] + used[k..] == used[k..];
      }
    }
  }

  /** The map of used bytes comes back from its bits. */
  lemma MapReadBack(used: seq<byte>, bytes: seq<byte>, p: nat)
    requires Ascending(used) && At(bytes, p, MapBits(used))
    ensures ReadMap(bytes, p) == (used, p + |MapBits(used)|)
  {
    hide At, Members, Rows, MapFrom;
    AtConcat(bytes, p, Presence(used), Rows(used, 0));
    MapReads(used, bytes, p, p + 16, 0);
    MembersAscending(used, 0, 0);
  }
}
