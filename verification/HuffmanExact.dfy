/** Exactly which length vectors the decoder's tables can handle. The arrays `limit` and
    `base` have no entry 20, and `temp` counts symbols in bytes. */
module HuffmanExact {
  import opened Bits
  import opened Outcomes
  import opened Rearrange
  import opened Huffman
  import opened HuffmanDecode
  import opened HuffmanCodes

  /** Every symbol is read back from its canonical code, wherever the code stands. */
  ghost predicate AllDecode(lens: Lengths)
  {
    forall s: nat, bytes, p: nat :: s < |lens| && Value(bytes, p, lens[s]) == Code(lens, s) ==>
      DecodeSymbol(TableOf(lens), bytes, p) == Ok((s, p + lens[s]))
  }

  /** No code of 20 bits, and at most 255 symbols of one length; or exactly 256 symbols
      that all share one length, where the wrapped limit accepts everything. */
  ghost predicate TablesFit(lens: Lengths)
  {
    MaxLen(lens) < MAX_HUFCODE_BITS && (CountsFit(lens) || (|lens| == 256 && MinLen(lens) == MaxLen(lens)))
  }

  /** The decoder inverts a canonical prefix code if and only if its tables fit. */
  lemma DecodesExactlyWhenTablesFit(lens: Lengths)
    requires PrefixCodeExists(lens)
    ensures AllDecode(lens) <==> TablesFit(lens)
  {
    if TablesFit(lens) {
      forall s: nat, bytes, p: nat | s < |lens| && Value(bytes, p, lens[s]) == Code(lens, s)
        ensures DecodeSymbol(TableOf(lens), bytes, p) == Ok((s, p + lens[s]))
      {
        FittingTablesDecode(lens, bytes, p, s);
      }
    } else {
      var s := SomeSymbolFails(lens);
      var bytes := CodeBytes(lens, s);
    }
  }

  lemma FittingTablesDecode(lens: Lengths, bytes: seq<byte>, p: nat, s: nat)
    requires TablesFit(lens) && s < |lens| && Value(bytes, p, lens[s]) == Code(lens, s)
    ensures DecodeSymbol(TableOf(lens), bytes, p) == Ok((s, p + lens[s]))
  {
    hide DecodeSymbol, TableOf, Value, Taken, First, Permute;
    Extremal(lens);
    if CountsFit(lens) {
      hide Code, CountsFit;
      DecodeComplete(lens, bytes, p, s);
    } else {
      var L := MinLen(lens);
      MinLenCounted(lens);
      CountAll(lens, L, |lens|);
      CountAll(lens, L, s);
      NoneShorter(lens, TrueCounts(lens), L);
      WrappedDecode(lens, bytes, p);
      PermutePlace(lens, s);
    }
  }

  lemma {:induction false} CountAll(lens: Lengths, L: nat, i: nat)
    requires i <= |lens|
    ensures Count(lens, L, i) == i <==> forall k :: 0 <= k < i ==> lens[k] == L
  {
    if i > 0 { CountAll(lens, L, i - 1); }
  }

  lemma {:induction false} CountBoth(lens: Lengths, L: nat, M: nat, i: nat)
    requires i <= |lens| && L != M
    ensures Count(lens, L, i) + Count(lens, M, i) <= i
  {
    if i > 0 { CountBoth(lens, L, M, i - 1); }
  }

  /** A stream that starts with the code of s. */
  lemma CodeBytes(lens: Lengths, s: nat) returns (bytes: seq<byte>)
    requires PrefixCodeExists(lens) && s < |lens|
    ensures Value(bytes, 0, lens[s]) == Code(lens, s)
  {
    bytes := Pack(BigEndian(Code(lens, s), lens[s]));
    PackedAt(BigEndian(Code(lens, s), lens[s]));
    CodeFits(lens, s);
    ReadBack(bytes, 0, Code(lens, s), lens[s]);
  }

  /** An answer after n bits means that length n accepts what stands there. */
  lemma AnswerAccepts(lens: Lengths, bytes: seq<byte>, p: nat, s: nat, n: nat)
    requires DecodeSymbol(TableOf(lens), bytes, p) == Ok((s, p + n))
    ensures n == Stop(TableOf(lens), bytes, p, MinLen(lens)) <= MaxLen(lens)
    ensures Accepts(TableOf(lens), n, Value(bytes, p, n))
  {
    hide DecodeSymbol, Stop, Value, Permute, LimitSlots, BaseSlots, Accepts;
    SymbolStops(TableOf(lens), bytes, p);
  }

  /** Symbol s is not read back from its own code. */
  ghost predicate Fails(lens: Lengths, s: nat)
    requires s < |lens|
  {
    forall bytes, p: nat :: Value(bytes, p, lens[s]) == Code(lens, s) ==>
      DecodeSymbol(TableOf(lens), bytes, p) != Ok((s, p + lens[s]))
  }

  lemma SomeSymbolFails(lens: Lengths) returns (s: nat)
    requires !TablesFit(lens)
    ensures s < |lens| && Fails(lens, s)
  {
    Extremal(lens);
    if MaxLen(lens) == MAX_HUFCODE_BITS {
      s :| s < |lens| && lens[s] == MaxLen(lens);
      RefusedFails(lens, s);
    } else if ShortestCounted(lens) {
      MinLenCounted(lens);
      s := LastOfCrowd(lens);
      Entries(lens, lens[s]);
      RefusedFails(lens, s);
    } else {
      MinLenCounted(lens);
      s := LongerThanWrapped(lens);
    }
  }

  /** A symbol whose own length does not accept its code is not read back. */
  lemma RefusedFails(lens: Lengths, s: nat)
    requires s < |lens| && !Accepts(TableOf(lens), lens[s], Code(lens, s))
    ensures Fails(lens, s)
  {
    forall bytes, p: nat | Value(bytes, p, lens[s]) == Code(lens, s)
      ensures DecodeSymbol(TableOf(lens), bytes, p) != Ok((s, p + lens[s]))
    {
      RefusedOnce(lens, bytes, p, s);
    }
  }

  lemma RefusedOnce(lens: Lengths, bytes: seq<byte>, p: nat, s: nat)
    requires s < |lens| && !Accepts(TableOf(lens), lens[s], Value(bytes, p, lens[s]))
    ensures DecodeSymbol(TableOf(lens), bytes, p) != Ok((s, p + lens[s]))
  {
    if DecodeSymbol(TableOf(lens), bytes, p) == Ok((s, p + lens[s])) {
      AnswerAccepts(lens, bytes, p, s, lens[s]);
    }
  }

  /** When the count of the shortest length wraps, everything is taken for a shortest code. */
  lemma LongerThanWrapped(lens: Lengths) returns (s: nat)
    requires !ShortestCounted(lens) && MinLen(lens) < MAX_HUFCODE_BITS
      && !(|lens| == 256 && MinLen(lens) == MaxLen(lens))
    ensures s < |lens| && Fails(lens, s)
  {
    Extremal(lens);
    CountAll(lens, MinLen(lens), |lens|);
    s :| s < |lens| && lens[s] != MinLen(lens);
    forall bytes, p: nat ensures DecodeSymbol(TableOf(lens), bytes, p) != Ok((s, p + lens[s])) {
      WrappedDecode(lens, bytes, p);
    }
  }

  /** Some length is shared by 256 or more symbols, and its last code lies beyond the
      limit computed from the wrapped count. */
  lemma LastOfCrowd(lens: Lengths) returns (s: nat)
    requires MaxLen(lens) < MAX_HUFCODE_BITS && !CountsFit(lens)
    ensures s < |lens| && MinLen(lens) <= lens[s] <= MaxLen(lens)
    ensures Code(lens, s) >= First(ByteCounts(lens), lens[s]) + ByteCounts(lens)[lens[s]]
  {
    Extremal(lens);
    var L :| 0 <= L <= MAX_HUFCODE_BITS && Count(lens, L, |lens|) > 255;
    if L == 0 { CountNone(lens, 0, |lens|); }
    s := SymbolInPlace(lens, L, Count(lens, L, |lens|) - 1);
    FirstsAgree(lens, L, L);
  }

  lemma {:induction false} FirstsAgree(lens: Lengths, L: nat, k: nat)
    requires 1 <= k <= L <= MAX_HUFCODE_BITS && Count(lens, L, |lens|) > 255
    ensures First(ByteCounts(lens), k) == First(TrueCounts(lens), k)
  {
    if k > 1 {
      FirstsAgree(lens, L, k - 1);
      CountBoth(lens, k - 1, L, |lens|);
    }
  }

  /** A symbol with a 20-bit code is never read back when at most 255 symbols share a length. */
  lemma TwentyBitCodesAreLost(lens: Lengths, bytes: seq<byte>, p: nat, s: nat, q: nat)
    requires s < |lens| && lens[s] == MAX_HUFCODE_BITS && CountsFit(lens)
    ensures DecodeSymbol(TableOf(lens), bytes, p) != Ok((s, q))
  {
    DecodeIffCode(lens, bytes, p, s, q);
  }
}
