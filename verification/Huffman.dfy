/** Canonical Huffman codes as `bzip2.decompress` builds and reads them. */
module Huffman {
  import opened Rearrange

  const MAX_HUFCODE_BITS: nat := 20
  const MAX_SYMBOLS: nat := 258

  type Lengths = lens: seq<nat> | IsLengths(lens) witness [1, 1]

  predicate IsLengths(lens: seq<nat>)
  {
    2 <= |lens| <= MAX_SYMBOLS && forall i :: 0 <= i < |lens| ==> 1 <= lens[i] <= MAX_HUFCODE_BITS
  }

  // ----- counting symbols by code length

  type Counts = c: seq<nat> | |c| == MAX_HUFCODE_BITS + 1 witness seq(MAX_HUFCODE_BITS + 1, _ => 0)

  function TrueCounts(lens: Lengths): (c: Counts)
    ensures forall L :: 0 <= L <= MAX_HUFCODE_BITS ==> c[L] == Count(lens, L, |lens|)
  {
    seq(MAX_HUFCODE_BITS + 1, (L: nat) => Count(lens, L, |lens|))
  }

  /** The array `temp`: its slots are bytes, so 256 symbols of one length count as none. */
  function ByteCounts(lens: Lengths): (c: Counts)
    ensures forall L :: 0 <= L <= MAX_HUFCODE_BITS ==> c[L] == Count(lens, L, |lens|) % 256
  {
    seq(MAX_HUFCODE_BITS + 1, (L: nat) => Count(lens, L, |lens|) % 256)
  }

  /** The smallest code of length L. */
  function First(c: Counts, L: nat): nat
    requires L <= MAX_HUFCODE_BITS + 1
  {
    if L <= 1 then 0 else 2 * (First(c, L - 1) + c[L - 1])
  }

  /** How many symbols have codes shorter than L. */
  function Taken(c: Counts, L: nat): nat
    requires L <= MAX_HUFCODE_BITS + 1
  {
    if L <= 1 then 0 else Taken(c, L - 1) + c[L - 1]
  }

  /** The symbols among the first i with codes of length L, in order. */
  function OfLength(lens: seq<nat>, L: nat, i: nat): (r: seq<nat>)
    requires i <= |lens|
    ensures |r| == Count(lens, L, i)
  {
    if i == 0 then [] else OfLength(lens, L, i - 1) + if lens[i - 1] == L then [i - 1] else []
  }

  /** All symbols with codes of length at most L, by length and then by number. */
  function ByLength(lens: seq<nat>, L: nat): seq<nat>
  {
    if L == 0 then [] else ByLength(lens, L - 1) + OfLength(lens, L, |lens|)
  }

  /** The canonical code of symbol s. */
  function Code(lens: Lengths, s: nat): nat
    requires s < |lens|
  {
    First(TrueCounts(lens), lens[s]) + Count(lens, lens[s], s)
  }

  /** The place of symbol s in the order by length and number. */
  function Place(lens: Lengths, s: nat): nat
    requires s < |lens|
  {
    Taken(TrueCounts(lens), lens[s]) + Count(lens, lens[s], s)
  }

  // ----- the tables

  /** The object `hufGroup`: `limit` and `base` are the raw 21-slot arrays. The code reads
      and writes them through `subarray(1)`, so entry L lives in slot L + 1 and entry 20
      does not exist. */
  datatype Table = Table(permute: seq<nat>, limit: seq<nat>, base: seq<nat>, minLen: nat, maxLen: nat)

  predicate IsTable(t: Table)
  {
    |t.permute| == MAX_SYMBOLS && |t.limit| == |t.base| == MAX_HUFCODE_BITS + 1
      && 1 <= t.minLen <= t.maxLen <= MAX_HUFCODE_BITS
  }

  /** Storing into a Uint32Array. */
  function Uint32(x: int): (r: nat)
    ensures r == x % 0x1_0000_0000
  {
    if 0 <= x < 0x1_0000_0000 then x else x % 0x1_0000_0000
  }

  function Least(lens: seq<nat>, i: nat): nat
    requires 1 <= i <= |lens|
  {
    if i == 1 then lens[0] else var m := Least(lens, i - 1); if lens[i - 1] < m then lens[i - 1] else m
  }

  function Greatest(lens: seq<nat>, i: nat): nat
    requires 1 <= i <= |lens|
  {
    if i == 1 then lens[0] else var m := Greatest(lens, i - 1); if lens[i - 1] > m then lens[i - 1] else m
  }

  lemma {:induction false} LeastIs(lens: seq<nat>, i: nat)
    requires 1 <= i <= |lens|
    ensures forall k :: 0 <= k < i ==> Least(lens, i) <= lens[k]
    ensures exists k :: 0 <= k < i && lens[k] == Least(lens, i)
  {
    if i > 1 { LeastIs(lens, i - 1); }
  }

  lemma {:induction false} GreatestIs(lens: seq<nat>, i: nat)
    requires 1 <= i <= |lens|
    ensures forall k :: 0 <= k < i ==> lens[k] <= Greatest(lens, i)
    ensures exists k :: 0 <= k < i && lens[k] == Greatest(lens, i)
  {
    if i > 1 { GreatestIs(lens, i - 1); }
  }

  function MinLen(lens: Lengths): (r: nat)
    ensures 1 <= r <= MAX_HUFCODE_BITS
  {
    LeastIs(lens, |lens|);
    Least(lens, |lens|)
  }

  function MaxLen(lens: Lengths): (r: nat)
    ensures 1 <= r <= MAX_HUFCODE_BITS
  {
    GreatestIs(lens, |lens|);
    Greatest(lens, |lens|)
  }

  /** Every length lies between the least and the greatest, which both occur. */
  lemma Extremal(lens: Lengths)
    ensures 1 <= MinLen(lens) <= MaxLen(lens) <= MAX_HUFCODE_BITS
    ensures forall k :: 0 <= k < |lens| ==> MinLen(lens) <= lens[k] <= MaxLen(lens)
    ensures exists k :: 0 <= k < |lens| && lens[k] == MinLen(lens)
    ensures exists k :: 0 <= k < |lens| && lens[k] == MaxLen(lens)
  {
    LeastIs(lens, |lens|);
    GreatestIs(lens, |lens|);
    assert lens[0] <= MaxLen(lens);
  }

  function LimitOf(lens: Lengths, L: nat): nat
    requires L <= MAX_HUFCODE_BITS
  {
    Uint32(First(ByteCounts(lens), L) + ByteCounts(lens)[L] - 1)
  }

  function BaseOf(lens: Lengths, L: nat): nat
    requires L <= MAX_HUFCODE_BITS
  {
    Uint32(First(ByteCounts(lens), L) - Taken(ByteCounts(lens), L))
  }

  function LimitSlots(lens: Lengths): (s: seq<nat>)
    ensures |s| == MAX_HUFCODE_BITS + 1
  {
    seq(MAX_HUFCODE_BITS + 1, k => if 1 <= k && MinLen(lens) <= k - 1 <= MaxLen(lens) then LimitOf(lens, k - 1) else 0)
  }

  function BaseSlots(lens: Lengths): (s: seq<nat>)
    ensures |s| == MAX_HUFCODE_BITS + 1
  {
    seq(MAX_HUFCODE_BITS + 1, k => if 1 <= k && MinLen(lens) < k - 1 <= MaxLen(lens) then BaseOf(lens, k - 1) else 0)
  }

  function Zeros(n: nat): (s: seq<nat>)
    ensures |s| == n && forall k :: 0 <= k < n ==> s[k] == 0
  {
    seq(n, _ => 0)
  }

  function Permute(lens: Lengths): (s: seq<nat>)
    ensures |s| == MAX_SYMBOLS
    ensures s[..|lens|] == ByLength(lens, MaxLen(lens))
  {
    Extremal(lens);
    ByLengthSize(lens, MaxLen(lens));
    ByLength(lens, MaxLen(lens)) + Zeros(MAX_SYMBOLS - |lens|)
  }

  function TableOf(lens: Lengths): (t: Table)
    ensures IsTable(t)
  {
    Extremal(lens);
    Table(Permute(lens), LimitSlots(lens), BaseSlots(lens), MinLen(lens), MaxLen(lens))
  }

  // ----- the order of the symbols

  lemma {:induction false} CountUpTo(lens: Lengths, L: nat, i: nat)
    requires L <= MAX_HUFCODE_BITS && i <= |lens|
    ensures SumCounts(lens, L, i) == CountAtMost(lens, L, i)
  {
    if i > 0 {
      CountUpTo(lens, L, i - 1);
      SumStep(lens, L, i);
    } else {
      SumEmpty(lens, L);
    }
  }

  function SumCounts(lens: seq<nat>, L: nat, i: nat): nat
    requires i <= |lens|
  {
    if L == 0 then 0 else SumCounts(lens, L - 1, i) + Count(lens, L, i)
  }

  function CountAtMost(lens: seq<nat>, L: nat, i: nat): (r: nat)
    requires i <= |lens|
    ensures r <= i
  {
    if i == 0 then 0 else CountAtMost(lens, L, i - 1) + if lens[i - 1] <= L then 1 else 0
  }

  lemma {:induction false} SumStep(lens: Lengths, L: nat, i: nat)
    requires 1 <= i <= |lens|
    ensures SumCounts(lens, L, i) == SumCounts(lens, L, i - 1) + if lens[i - 1] <= L then 1 else 0
  {
    if L > 0 { SumStep(lens, L - 1, i); }
  }

  lemma {:induction false} SumEmpty(lens: Lengths, L: nat)
    ensures SumCounts(lens, L, 0) == 0
  {
    if L > 0 { SumEmpty(lens, L - 1); }
  }

  lemma {:induction false} CountAtMostAll(lens: Lengths, L: nat, i: nat)
    requires i <= |lens| && MaxLen(lens) <= L
    ensures CountAtMost(lens, L, i) == i
  {
    if i > 0 {
      CountAtMostAll(lens, L, i - 1);
      Extremal(lens);
    }
  }

  lemma {:induction false} TakenIsSum(lens: Lengths, L: nat)
    requires 1 <= L <= MAX_HUFCODE_BITS + 1
    ensures Taken(TrueCounts(lens), L) == SumCounts(lens, L - 1, |lens|)
  {
    if L > 1 { TakenIsSum(lens, L - 1); }
  }

  lemma TakenAll(lens: Lengths, L: nat)
    requires MaxLen(lens) <= L <= MAX_HUFCODE_BITS
    ensures Taken(TrueCounts(lens), L + 1) == |lens|
  {
    TakenIsSum(lens, L + 1);
    CountUpTo(lens, L, |lens|);
    CountAtMostAll(lens, L, |lens|);
  }

  lemma {:induction false} TakenMonotone(c: Counts, L: nat, M: nat)
    requires L < M <= MAX_HUFCODE_BITS + 1 && L >= 1
    ensures Taken(c, L) + c[L] <= Taken(c, M)
    decreases M
  {
    if L < M - 1 { TakenMonotone(c, L, M - 1); }
  }

  lemma {:induction false} ByLengthTaken(lens: Lengths, L: nat)
    requires L <= MAX_HUFCODE_BITS
    ensures |ByLength(lens, L)| == Taken(TrueCounts(lens), L + 1)
  {
    if L > 0 { ByLengthTaken(lens, L - 1); }
  }

  lemma ByLengthSize(lens: Lengths, L: nat)
    requires L <= MAX_HUFCODE_BITS
    ensures |ByLength(lens, L)| == Taken(TrueCounts(lens), L + 1) <= |lens|
    ensures MaxLen(lens) <= L ==> |ByLength(lens, L)| == |lens|
  {
    ByLengthTaken(lens, L);
    Extremal(lens);
    TakenAll(lens, MAX_HUFCODE_BITS);
    if MaxLen(lens) <= L { TakenAll(lens, L); }
    if L < MAX_HUFCODE_BITS { TakenMonotone(TrueCounts(lens), L + 1, MAX_HUFCODE_BITS + 1); }
  }

  lemma {:induction false} OfLengthAt(lens: Lengths, L: nat, i: nat, s: nat)
    requires s < i <= |lens| && lens[s] == L
    ensures Count(lens, L, s) < Count(lens, L, i) && OfLength(lens, L, i)[Count(lens, L, s)] == s
    decreases i
  {
    if s < i - 1 { OfLengthAt(lens, L, i - 1, s); }
  }

  lemma {:induction false} ByLengthAt(lens: Lengths, L: nat, s: nat)
    requires s < |lens| && lens[s] <= L <= MAX_HUFCODE_BITS
    ensures Place(lens, s) < |ByLength(lens, L)| && ByLength(lens, L)[Place(lens, s)] == s
    decreases L
  {
    hide OfLength, Count, Taken, MaxLen, TrueCounts;
    ByLengthSize(lens, L - 1);
    if lens[s] < L {
      ByLengthAt(lens, L - 1, s);
    } else {
      OfLengthAt(lens, L, |lens|, s);
    }
  }

  /** Slot Place(s) of `permute` holds s. */
  lemma PermutePlace(lens: Lengths, s: nat)
    requires s < |lens|
    ensures Place(lens, s) < |lens| && Permute(lens)[Place(lens, s)] == s
  {
    Extremal(lens);
    ByLengthSize(lens, MaxLen(lens));
    ByLengthAt(lens, MaxLen(lens), s);
    assert Permute(lens)[..|lens|][Place(lens, s)] == s;
  }

  lemma PlaceOrder(lens: Lengths, s: nat, u: nat)
    requires s < |lens| && u < |lens|
    requires lens[s] < lens[u] || (lens[s] == lens[u] && s < u)
    ensures Place(lens, s) < Place(lens, u)
  {
    OfLengthAt(lens, lens[s], |lens|, s);
    if lens[s] < lens[u] {
      TakenMonotone(TrueCounts(lens), lens[s], lens[u]);
    } else {
      OfLengthAt(lens, lens[s], u, s);
    }
  }

  /** The table `permute` is the stable sort of the symbols by code length: it lists each
      symbol once, by length and then by number. */
  lemma PermuteSorts(lens: Lengths)
    ensures forall s :: 0 <= s < |lens| ==> Place(lens, s) < |lens| && Permute(lens)[Place(lens, s)] == s
    ensures forall s, u :: 0 <= s < |lens| && 0 <= u < |lens| ==>
      (Place(lens, s) < Place(lens, u) <==> lens[s] < lens[u] || (lens[s] == lens[u] && s < u))
  {
    forall s | 0 <= s < |lens| ensures Place(lens, s) < |lens| && Permute(lens)[Place(lens, s)] == s {
      PermutePlace(lens, s);
    }
    forall s, u | 0 <= s < |lens| && 0 <= u < |lens|
      ensures Place(lens, s) < Place(lens, u) <==> lens[s] < lens[u] || (lens[s] == lens[u] && s < u)
    {
      if lens[s] < lens[u] || (lens[s] == lens[u] && s < u) {
        PlaceOrder(lens, s, u);
      } else if s != u {
        PlaceOrder(lens, u, s);
      }
    }
  }
}
