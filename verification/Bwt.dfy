/** The Burrows-Wheeler stage of `bzip2.decompress`: an in-place counting sort packs a
    pointer into the upper 24 bits of every buffer slot, and following the pointers
    spells the block. */
module Bwt {
  import opened Bits
  import opened Rearrange

  // ----- counting sort, as arithmetic

  /** How many of the first i bytes of b are smaller than v. */
  function Smaller(b: seq<byte>, v: nat, i: nat): nat
    requires i <= |b|
  {
    if v == 0 then 0 else Smaller(b, v - 1, i) + Count(b, v - 1, i)
  }

  lemma {:induction false} SmallerStep(b: seq<byte>, v: nat, i: nat)
    requires i < |b|
    ensures Smaller(b, v, i + 1) == Smaller(b, v, i) + if b[i] < v then 1 else 0
  {
    if v > 0 { SmallerStep(b, v - 1, i); }
  }

  lemma {:induction false} SmallerAll(b: seq<byte>, i: nat)
    requires i <= |b|
    ensures Smaller(b, 256, i) == i
  {
    if i == 0 {
      SmallerNone(b, 256);
    } else {
      SmallerStep(b, 256, i - 1);
      SmallerAll(b, i - 1);
    }
  }

  lemma {:induction false} SmallerNone(b: seq<byte>, v: nat)
    ensures Smaller(b, v, 0) == 0
  {
    if v > 0 { SmallerNone(b, v - 1); }
  }

  lemma {:induction false} SmallerMonotone(b: seq<byte>, u: nat, v: nat)
    requires u < v
    ensures Smaller(b, u, |b|) + Count(b, u, |b|) <= Smaller(b, v, |b|)
    decreases v
  {
    if u < v - 1 { SmallerMonotone(b, u, v - 1); }
  }

  lemma {:induction false} OccurrencesMonotone(b: seq<byte>, v: nat, i: nat, k: nat)
    requires i < k <= |b|
    ensures Count(b, v, i) + (if b[i] == v then 1 else 0) <= Count(b, v, k)
    decreases k
  {
    if i < k - 1 { OccurrencesMonotone(b, v, i, k - 1); }
  }

  /** The slot that the counting sort assigns to byte number i. */
  function Rank(b: seq<byte>, i: nat): nat
    requires i < |b|
  {
    Smaller(b, b[i], |b|) + Count(b, b[i], i)
  }

  ghost predicate Before(b: seq<byte>, i: nat, k: nat)
    requires i < |b| && k < |b|
  {
    b[i] < b[k] || (b[i] == b[k] && i < k)
  }

  /** The counting sort is a stable sort by byte. */
  lemma RankOrder(b: seq<byte>, i: nat, k: nat)
    requires i < |b| && k < |b|
    ensures Rank(b, i) < Rank(b, k) <==> Before(b, i, k)
  {
    if Before(b, i, k) {
      RankOrderOneWay(b, i, k);
    } else if i != k {
      RankOrderOneWay(b, k, i);
    }
  }

  lemma RankOrderOneWay(b: seq<byte>, i: nat, k: nat)
    requires i < |b| && k < |b| && Before(b, i, k)
    ensures Rank(b, i) < Rank(b, k)
  {
    OccurrencesMonotone(b, b[i], i, |b|);
    if b[i] < b[k] {
      SmallerMonotone(b, b[i], b[k]);
    } else {
      OccurrencesMonotone(b, b[i], i, k);
    }
  }

  lemma RankBound(b: seq<byte>, i: nat)
    requires i < |b|
    ensures Rank(b, i) < |b|
  {
    OccurrencesMonotone(b, b[i], i, |b|);
    SmallerMonotone(b, b[i], 256);
    SmallerAll(b, |b|);
  }

  ghost function Ranks(b: seq<byte>): (t: seq<nat>)
    ensures |t| == |b| && forall i :: 0 <= i < |b| ==> t[i] == Rank(b, i)
  {
    seq(|b|, i requires 0 <= i < |b| => Rank(b, i))
  }

  lemma RanksPermute(b: seq<byte>)
    ensures Permutation(Ranks(b))
  {
    forall i | 0 <= i < |b| ensures Rank(b, i) < |b| {
      RankBound(b, i);
    }
    forall i, k | 0 <= i < k < |b| ensures Rank(b, i) != Rank(b, k) {
      if Before(b, i, k) { RankOrder(b, i, k); } else { RankOrder(b, k, i); }
    }
  }

  /** The byte number that ends up in slot j: the inverse of Rank. */
  ghost function Pointer(b: seq<byte>, j: nat): (i: nat)
    requires j < |b|
    ensures i < |b| && Rank(b, i) == j
  {
    RanksPermute(b);
    PermutationOnto(Ranks(b), j);
    var i: nat :| i < |b| && Ranks(b)[i] == j;
    i
  }

  ghost function Pointers(b: seq<byte>): (t: seq<nat>)
    ensures |t| == |b| && forall j :: 0 <= j < |b| ==> t[j] == Pointer(b, j)
  {
    seq(|b|, j requires 0 <= j < |b| => Pointer(b, j))
  }

  /** For every block, whether or not any encoder could have produced it, the pointers
      are a permutation of the slots and list the bytes in stable sorted order. */
  lemma PointersSortStably(b: seq<byte>)
    ensures Permutation(Pointers(b))
    ensures forall j, k :: 0 <= j < k < |b| ==> Before(b, Pointer(b, j), Pointer(b, k))
  {
    forall j, k | 0 <= j < k < |b| ensures Before(b, Pointer(b, j), Pointer(b, k)) && Pointer(b, j) != Pointer(b, k) {
      RankOrder(b, Pointer(b, j), Pointer(b, k));
    }
  }

  lemma RankPointer(b: seq<byte>, i: nat)
    requires i < |b|
    ensures Rank(b, i) < |b| && Pointer(b, Rank(b, i)) == i
  {
    RankBound(b, i);
    var k := Pointer(b, Rank(b, i));
    if k != i {
      RankOrder(b, i, k);
      RankOrder(b, k, i);
    }
  }

  // ----- the in-place sort

  /** `slot |= i << 8` on a slot whose upper 24 bits are clear. */
  function Pack(slot: nat, i: nat): (r: nat)
    requires slot < 0x100 && i < 0x80_0000
    ensures r < 0x8000_0000 && r % 0x100 == slot && r / 0x100 == i
  {
    slot + 0x100 * i
  }

  function LowBytes(s: seq<nat>): (b: seq<byte>)
    ensures |b| == |s| && forall i :: 0 <= i < |s| ==> b[i] == s[i] % 0x100
  {
    seq(|s|, i requires 0 <= i < |s| => s[i] % 0x100)
  }

  /** Slot j once the first i bytes have been handed out. */
  ghost function SlotAfter(b: seq<byte>, j: nat, i: nat): (r: nat)
    requires j < |b| <= 0x80_0000
    ensures r % 0x100 == b[j]
  {
    if Pointer(b, j) < i then Pack(b[j], Pointer(b, j)) else b[j]
  }

  ghost predicate PartlyPacked(s: seq<nat>, b: seq<byte>, i: nat)
    requires |b| <= 0x80_0000
  {
    |s| == |b| && forall j :: 0 <= j < |b| ==> s[j] == SlotAfter(b, j, i)
  }

  /** Every slot keeps its byte and gets the pointer that the sort assigns to it. */
  ghost predicate Packed(s: seq<nat>, b: seq<byte>)
    requires |b| <= 0x80_0000
  {
    |s| == |b| && forall j :: 0 <= j < |b| ==> s[j] == Pack(b[j], Pointer(b, j))
  }

  lemma PackOne(s: seq<nat>, b: seq<byte>, i: nat)
    requires |b| <= 0x80_0000 && i < |b| && PartlyPacked(s, b, i)
    ensures s[i] % 0x100 == b[i] && Rank(b, i) < |b| && s[Rank(b, i)] == b[Rank(b, i)]
    ensures PartlyPacked(s[Rank(b, i) := Pack(b[Rank(b, i)], i)], b, i + 1)
  {
    RankPointer(b, i);
    assert s[i] == SlotAfter(b, i, i);
    assert s[Rank(b, i)] == SlotAfter(b, Rank(b, i), i);
    forall j | 0 <= j < |b| && j != Rank(b, i) ensures SlotAfter(b, j, i + 1) == SlotAfter(b, j, i) {
      assert Rank(b, Pointer(b, j)) == j;
    }
  }

  ghost predicate NextSlots(slots: seq<nat>, b: seq<byte>, i: nat)
    requires i <= |b|
  {
    |slots| == 256 && forall v :: 0 <= v < 256 ==> slots[v] == Smaller(b, v, |b|) + Count(b, v, i)
  }

  lemma NextSlot(slots: seq<nat>, b: seq<byte>, i: nat)
    requires i < |b| && NextSlots(slots, b, i)
    ensures slots[b[i]] == Rank(b, i)
    ensures NextSlots(slots[b[i] := slots[b[i]] + 1], b, i + 1)
  {
  }

  /** One turn of the sorting loop: byte number i hands its index to its slot. */
  method PlacePointer(ghost b: seq<byte>, buf: array<nat>, byteCount: array<nat>, i: nat)
    requires buf != byteCount && i < |b| <= buf.Length && |b| <= 0x80_0000 && byteCount.Length == 256
    requires NextSlots(byteCount[..], b, i) && PartlyPacked(buf[..|b|], b, i)
    modifies buf, byteCount
    ensures NextSlots(byteCount[..], b, i + 1) && PartlyPacked(buf[..|b|], b, i + 1)
    ensures buf[|b|..] == old(buf[|b|..])
  {
    ghost var slots, packed := byteCount[..], buf[..|b|];
    PackOne(packed, b, i);
    NextSlot(slots, b, i);
    assert packed[i] == buf[i];
    var uc := buf[i] % 0x100;
    var slot := byteCount[uc];
    assert slots[uc] == slot == Rank(b, i);
    assert buf[slot] == packed[slot];
    buf[slot] := Pack(buf[slot], i);
    byteCount[uc] := byteCount[uc] + 1;
    assert byteCount[..] == slots[uc := slot + 1];
    assert buf[..|b|] == packed[slot := Pack(b[slot], i)];
  }

  method SortPointers(buf: array<nat>, byteCount: array<nat>, count: nat)
    requires buf != byteCount && count <= buf.Length && count <= 0x80_0000 && byteCount.Length == 256
    requires forall i :: 0 <= i < count ==> buf[i] < 0x100
    requires forall v {:trigger byteCount[v]} :: 0 <= v < 256 ==>
      byteCount[v] == Count(LowBytes(buf[..count]), v, count)
    modifies buf, byteCount
    ensures Packed(buf[..count], LowBytes(old(buf[..count])))
    ensures buf[count..] == old(buf[count..])
  {
    ghost var b := LowBytes(buf[..count]);
    Accumulate(b, byteCount);
    NoneHandedOut(buf[..count], byteCount[..], b);
    PlacePointers(b, buf, byteCount, count);
    AllHandedOut(buf[..count], b);
  }

  method PlacePointers(ghost b: seq<byte>, buf: array<nat>, byteCount: array<nat>, count: nat)
    requires |b| == count && buf != byteCount && |b| <= buf.Length && |b| <= 0x80_0000 && byteCount.Length == 256
    requires NextSlots(byteCount[..], b, 0) && PartlyPacked(buf[..|b|], b, 0)
    modifies buf, byteCount
    ensures PartlyPacked(buf[..|b|], b, |b|)
    ensures buf[|b|..] == old(buf[|b|..])
  {
    hide NextSlots, PartlyPacked;
    for i := 0 to count
      invariant NextSlots(byteCount[..], b, i)
      invariant PartlyPacked(buf[..|b|], b, i)
      invariant buf[|b|..] == old(buf[|b|..])
    {
      PlacePointer(b, buf, byteCount, i);
    }
  }

  lemma NoneHandedOut(s: seq<nat>, slots: seq<nat>, b: seq<byte>)
    requires |s| == |b| <= 0x80_0000 && |slots| == 256
    requires forall i :: 0 <= i < |b| ==> s[i] == b[i]
    requires forall v :: 0 <= v < 256 ==> slots[v] == Smaller(b, v, |b|)
    ensures NextSlots(slots, b, 0) && PartlyPacked(s, b, 0)
  {
  }

  lemma AllHandedOut(s: seq<nat>, b: seq<byte>)
    requires |b| <= 0x80_0000 && PartlyPacked(s, b, |b|)
    ensures Packed(s, b)
  {
  }

  /** Turns byte counts into the first slot of every byte. */
  method Accumulate(ghost b: seq<byte>, byteCount: array<nat>)
    requires byteCount.Length == 256
    requires forall v {:trigger byteCount[v]} :: 0 <= v < 256 ==> byteCount[v] == Count(b, v, |b|)
    modifies byteCount
    ensures forall v {:trigger byteCount[v]} :: 0 <= v < 256 ==> byteCount[v] == Smaller(b, v, |b|)
  {
    var j := 0;
    for i := 0 to 256
      invariant j == Smaller(b, i, |b|)
      invariant forall v {:trigger byteCount[v]} :: 0 <= v < i ==> byteCount[v] == Smaller(b, v, |b|)
      invariant forall v {:trigger byteCount[v]} :: i <= v < 256 ==> byteCount[v] == Count(b, v, |b|)
    {
      var k := j + byteCount[i];
      byteCount[i] := j;
      j := k;
    }
  }

  // ----- rotations

  type Row = seq<byte>

  function Rotation(s: Row, k: nat): (r: Row)
    requires k <= |s|
    ensures |r| == |s|
  {
    s[k..] + s[..k]
  }

  function Rotations(s: Row): (r: seq<Row>)
    ensures |r| == |s| && forall k :: 0 <= k < |s| ==> r[k] == Rotation(s, k)
  {
    seq(|s|, k requires 0 <= k < |s| => Rotation(s, k))
  }

  function TurnRight(x: Row): (r: Row)
    ensures |r| == |x|
  {
    if x == [] then [] else [x[|x| - 1]] + x[..|x| - 1]
  }

  function TurnLeft(x: Row): (r: Row)
    ensures |r| == |x|
  {
    if x == [] then [] else x[1..] + [x[0]]
  }

  predicate LexLe(a: Row, b: Row)
  {
    a == [] || (b != [] && (a[0] < b[0] || (a[0] == b[0] && LexLe(a[1..], b[1..]))))
  }

  lemma {:induction false} LexTotal(a: Row, b: Row)
    ensures LexLe(a, b) || LexLe(b, a)
  {
    if a != [] && b != [] { LexTotal(a[1..], b[1..]); }
  }

  lemma {:induction false} LexAntisymmetric(a: Row, b: Row)
    requires LexLe(a, b) && LexLe(b, a)
    ensures a == b
  {
    if a != [] {
      LexAntisymmetric(a[1..], b[1..]);
      assert a == [a[0]] + a[1..] && b == [b[0]] + b[1..];
    }
  }

  lemma {:induction false} LexTransitive(a: Row, b: Row, c: Row)
    requires LexLe(a, b) && LexLe(b, c)
    ensures LexLe(a, c)
  {
    if a != [] && a[0] == b[0] == c[0] { LexTransitive(a[1..], b[1..], c[1..]); }
  }

  lemma {:induction false} LexPrefix(a: Row, b: Row, k: nat)
    requires LexLe(a, b) && k <= |a| == |b|
    ensures LexLe(a[..k], b[..k])
  {
    if k > 0 && a[0] == b[0] {
      LexPrefix(a[1..], b[1..], k - 1);
      assert a[..k][1..] == a[1..][..k - 1] && b[..k][1..] == b[1..][..k - 1];
    }
  }

  ghost predicate Sorted(rows: seq<Row>)
  {
    forall i, j :: 0 <= i < j < |rows| ==> LexLe(rows[i], rows[j])
  }

  lemma LeastFirst(a: seq<Row>, x: Row)
    requires Sorted(a) && x in a
    ensures LexLe(a[0], x)
  {
    LexReflexive(a[0]);
  }

  /** A family of rows has only one sorted arrangement, even with equal rows. */
  lemma {:induction false} SortedUnique(a: seq<Row>, b: seq<Row>)
    requires Sorted(a) && Sorted(b) && multiset(a) == multiset(b)
    ensures a == b
  {
    if a == [] {
      assert |multiset(b)| == 0;
    } else {
      assert |multiset(a)| == |multiset(b)|;
      assert a[0] in multiset(b) && b[0] in multiset(a);
      LeastFirst(a, b[0]);
      LeastFirst(b, a[0]);
      LexAntisymmetric(a[0], b[0]);
      DropFirst(a);
      DropFirst(b);
      SortedUnique(a[1..], b[1..]);
    }
  }

  lemma DropFirst(a: seq<Row>)
    requires a != []
    ensures a == [a[0]] + a[1..] && multiset(a[1..]) == multiset(a) - multiset{a[0]}
  {
    assert a == [a[0]] + a[1..];
  }

  lemma {:induction false} LexReflexive(a: Row)
    ensures LexLe(a, a)
  {
    if a != [] { LexReflexive(a[1..]); }
  }

  // ----- the transform and its inverse

  /** The rows of the Burrows-Wheeler matrix of s. */
  ghost predicate SortedRotations(rows: seq<Row>, s: Row)
  {
    Sorted(rows) && multiset(rows) == multiset(Rotations(s))
  }

  lemma RowLengths(rows: seq<Row>, s: Row)
    requires SortedRotations(rows, s)
    ensures |rows| == |s| && forall j :: 0 <= j < |rows| ==> |rows[j]| == |s|
  {
    assert |multiset(rows)| == |multiset(Rotations(s))|;
    forall j | 0 <= j < |rows| ensures |rows[j]| == |s| {
      assert rows[j] in multiset(Rotations(s));
    }
  }

  /** b is the last column of the matrix. */
  ghost predicate LastColumn(b: seq<byte>, rows: seq<Row>)
  {
    |b| == |rows| && forall j :: 0 <= j < |rows| ==> rows[j] != [] && b[j] == rows[j][|rows[j]| - 1]
  }

  /** What a block header and buffer of a well-formed file hold for the block text s. */
  ghost predicate IsTransform(b: seq<byte>, origPtr: nat, s: Row)
  {
    exists rows :: SortedRotations(rows, s) && LastColumn(b, rows) && origPtr < |rows| && rows[origPtr] == s
  }

  lemma TurnedRotation(s: Row, k: nat)
    requires 1 <= k <= |s|
    ensures TurnRight(Rotation(s, k)) == Rotation(s, k - 1)
    ensures TurnLeft(Rotation(s, k - 1)) == Rotation(s, k)
  {
  }

  lemma TurnedFirst(s: Row)
    requires s != []
    ensures TurnRight(Rotation(s, 0)) == Rotation(s, |s| - 1)
  {
  }

  lemma Cycle(x: Row, m: seq<Row>)
    ensures multiset([x] + m) == multiset(m + [x])
  {
  }

  lemma TurnedList(s: Row)
    requires s != []
    ensures Map(TurnRight, Rotations(s)) == [Rotations(s)[|s| - 1]] + Rotations(s)[..|s| - 1]
  {
    hide Rotation, TurnRight;
    TurnedFirst(s);
    forall k | 1 <= k < |s| ensures TurnRight(Rotation(s, k)) == Rotation(s, k - 1) {
      TurnedRotation(s, k);
    }
  }

  /** Turning every rotation right only shifts the list of rotations. */
  lemma TurnedRotations(s: Row)
    requires s != []
    ensures multiset(Map(TurnRight, Rotations(s))) == multiset(Rotations(s))
  {
    hide Map, Rotations, Rotation, TurnRight;
    TurnedList(s);
    var rs, k := Rotations(s), |s| - 1;
    Cycle(rs[k], rs[..k]);
    assert rs == rs[..k] + [rs[k]];
  }

  /** The rows picked in pointer order and turned right. */
  ghost function TurnedRows(rows: seq<Row>, b: seq<byte>): (r: seq<Row>)
    requires |b| == |rows|
    ensures |r| == |rows| && forall j :: 0 <= j < |rows| ==> r[j] == TurnRight(rows[Pointer(b, j)])
  {
    seq(|rows|, j requires 0 <= j < |rows| => TurnRight(rows[Pointer(b, j)]))
  }

  lemma TurnedRowsSorted(rows: seq<Row>, b: seq<byte>, s: Row)
    requires SortedRotations(rows, s) && LastColumn(b, rows)
    ensures Sorted(TurnedRows(rows, b))
  {
    RowLengths(rows, s);
    PointersSortStably(b);
    var t := TurnedRows(rows, b);
    forall j, k | 0 <= j < k < |rows| ensures LexLe(t[j], t[k]) {
      var p, q := Pointer(b, j), Pointer(b, k);
      assert Before(b, p, q);
      if b[p] == b[q] {
        LexPrefix(rows[p], rows[q], |s| - 1);
        assert t[j][1..] == rows[p][..|s| - 1] && t[k][1..] == rows[q][..|s| - 1];
      }
    }
  }

  lemma TurnedRowsRearrange(rows: seq<Row>, b: seq<byte>, s: Row)
    requires SortedRotations(rows, s) && LastColumn(b, rows) && s != []
    ensures multiset(TurnedRows(rows, b)) == multiset(rows)
  {
    RowLengths(rows, s);
    PointersSortStably(b);
    var all := Map(TurnRight, rows);
    PickIsRearrangement(all, Pointers(b), TurnedRows(rows, b));
    MapKeepsMultiset(TurnRight, rows, Rotations(s));
    TurnedRotations(s);
  }

  /** The heart of the inverse: following a pointer turns the row left, also when rows tie. */
  lemma PointerTurnsLeft(rows: seq<Row>, b: seq<byte>, s: Row, j: nat)
    requires SortedRotations(rows, s) && LastColumn(b, rows) && j < |rows|
    ensures Pointer(b, j) < |rows| && rows[Pointer(b, j)] == TurnLeft(rows[j])
  {
    RowLengths(rows, s);
    TurnedRowsSorted(rows, b, s);
    TurnedRowsRearrange(rows, b, s);
    SortedUnique(TurnedRows(rows, b), rows);
    LeftUndoesRight(rows[Pointer(b, j)]);
  }

  lemma LeftUndoesRight(x: Row)
    ensures TurnLeft(TurnRight(x)) == x
  {
  }

  /** The bytes met when k pointers are followed from slot pos. */
  ghost function Walk(b: seq<byte>, pos: nat, k: nat): (r: seq<byte>)
    requires pos < |b|
    ensures |r| == k
    decreases k
  {
    if k == 0 then [] else [b[pos]] + Walk(b, Pointer(b, pos), k - 1)
  }

  lemma {:induction false} WalkFromRotation(rows: seq<Row>, b: seq<byte>, s: Row, pos: nat, k: nat)
    requires SortedRotations(rows, s) && LastColumn(b, rows) && pos < |b|
    requires 1 <= k <= |s| && rows[pos] == Rotation(s, k)
    ensures Walk(b, pos, |s| + 1 - k) == s[k - 1..]
    decreases |s| - k
  {
    RowLengths(rows, s);
    assert b[pos] == s[k - 1];
    if k == |s| {
      assert Walk(b, Pointer(b, pos), 0) == [];
      assert s[k - 1..] == [s[k - 1]];
    } else {
      PointerTurnsLeft(rows, b, s, pos);
      TurnedRotation(s, k + 1);
      WalkFromRotation(rows, b, s, Pointer(b, pos), k + 1);
      assert s[k - 1..] == [s[k - 1]] + s[k..];
    }
  }

  /** Everything the pointer walk of decompress meets: it starts one step after origPtr. */
  ghost function Unwound(b: seq<byte>, origPtr: nat): (s: seq<byte>)
    requires origPtr < |b|
    ensures |s| == |b|
  {
    Walk(b, Pointer(b, origPtr), |b|)
  }

  /** The walk inverts the transform for every text, periodic ones included. */
  lemma InverseTransform(b: seq<byte>, origPtr: nat, s: Row)
    requires IsTransform(b, origPtr, s)
    ensures origPtr < |b| == |s| && Unwound(b, origPtr) == s
  {
    var rows :| SortedRotations(rows, s) && LastColumn(b, rows) && origPtr < |rows| && rows[origPtr] == s;
    hide SortedRotations;
    UnwindRows(rows, b, s, origPtr);
  }

  lemma UnwindRows(rows: seq<Row>, b: seq<byte>, s: Row, origPtr: nat)
    requires SortedRotations(rows, s) && LastColumn(b, rows) && origPtr < |rows| && rows[origPtr] == s
    ensures origPtr < |b| == |s| && Unwound(b, origPtr) == s
  {
    hide SortedRotations;
    RowLengths(rows, s);
    assert Rotation(s, 0) == s;
    hide Rotation, TurnLeft;
    PointerTurnsLeft(rows, b, s, origPtr);
    TurnedRotation(s, 1);
    WalkFromRotation(rows, b, s, Pointer(b, origPtr), 1);
    assert s[0..] == s;
  }

  // ----- every text has a transform

  function Insert(x: Row, rows: seq<Row>): (r: seq<Row>)
    ensures multiset(r) == multiset(rows) + multiset{x}
  {
    if rows == [] then [x]
    else if LexLe(x, rows[0]) then [x] + rows
    else
      assert rows == [rows[0]] + rows[1..];
      [rows[0]] + Insert(x, rows[1..])
  }

  lemma {:induction false} InsertSorted(x: Row, rows: seq<Row>)
    requires Sorted(rows)
    ensures Sorted(Insert(x, rows))
  {
    if rows != [] {
      if LexLe(x, rows[0]) {
        forall i | 0 <= i < |rows| ensures LexLe(x, rows[i]) {
          if i > 0 { LexTransitive(x, rows[0], rows[i]); }
        }
      } else {
        LexTotal(x, rows[0]);
        InsertSorted(x, rows[1..]);
        var r := Insert(x, rows[1..]);
        forall y | y in r ensures LexLe(rows[0], y) {
          assert y in multiset(r);
        }
      }
    }
  }

  function SortRows(rows: seq<Row>): (r: seq<Row>)
    ensures multiset(r) == multiset(rows)
  {
    if rows == [] then []
    else
      assert rows == [rows[0]] + rows[1..];
      Insert(rows[0], SortRows(rows[1..]))
  }

  lemma {:induction false} SortRowsSorts(rows: seq<Row>)
    ensures Sorted(SortRows(rows))
  {
    if rows != [] {
      SortRowsSorts(rows[1..]);
      InsertSorted(rows[0], SortRows(rows[1..]));
    }
  }

  lemma EveryTextHasATransform(s: Row) returns (b: seq<byte>, origPtr: nat)
    requires s != []
    ensures IsTransform(b, origPtr, s)
  {
    var rows := SortRows(Rotations(s));
    SortRowsSorts(Rotations(s));
    RowLengths(rows, s);
    b := Lasts(rows);
    assert Rotation(s, 0) == s;
    assert Rotations(s)[0] in multiset(rows);
    origPtr :| origPtr < |rows| && rows[origPtr] == s;
  }

  function Lasts(rows: seq<Row>): (b: seq<byte>)
    requires forall j :: 0 <= j < |rows| ==> rows[j] != []
    ensures LastColumn(b, rows)
  {
    seq(|rows|, j requires 0 <= j < |rows| => rows[j][|rows[j]| - 1])
  }
}
