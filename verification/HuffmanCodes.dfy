/** Canonical codes against the tables: soundness, completeness, and the exact set of
    length vectors for which the decoder inverts the code. */
module HuffmanCodes {
  import opened Bits
  import opened Outcomes
  import opened Rearrange
  import opened Huffman
  import opened HuffmanDecode

  // ----- Kraft's inequality and codes that fit their length

  /** Sum over the first i symbols with codes no longer than L of 2^(L - length). */
  function Kraft(lens: Lengths, L: nat, i: nat): nat
    requires i <= |lens|
  {
    if i == 0 then 0 else Kraft(lens, L, i - 1) + if lens[i - 1] <= L then Pow2(L - lens[i - 1]) else 0
  }

  /** The lengths leave room for a prefix code. */
  ghost predicate PrefixCodeExists(lens: Lengths)
  {
    Kraft(lens, MAX_HUFCODE_BITS, |lens|) <= Pow2(MAX_HUFCODE_BITS)
  }

  lemma {:induction false} KraftStep(lens: Lengths, L: nat, i: nat)
    requires i <= |lens|
    ensures Kraft(lens, L + 1, i) == 2 * Kraft(lens, L, i) + Count(lens, L + 1, i)
  {
    if i > 0 { KraftStep(lens, L, i - 1); }
  }

  lemma {:induction false} KraftIsFirst(lens: Lengths, L: nat)
    requires 1 <= L <= MAX_HUFCODE_BITS
    ensures Kraft(lens, L, |lens|) == First(TrueCounts(lens), L) + TrueCounts(lens)[L]
  {
    KraftStep(lens, L - 1, |lens|);
    if L == 1 {
      KraftZero(lens, |lens|);
    } else {
      KraftIsFirst(lens, L - 1);
    }
  }

  /** Without a code of a length in between, the first code of length M follows the last of length L. */
  lemma {:induction false} FirstOver(c: Counts, L: nat, M: nat)
    requires 1 <= L < M <= MAX_HUFCODE_BITS && Taken(c, M) == Taken(c, L) + c[L]
    ensures First(c, M) == (First(c, L) + c[L]) * Pow2(M - L)
    decreases M
  {
    if L == M - 1 {
      assert Pow2(1) == 2 * Pow2(0) == 2;
    } else {
      TakenMonotone(c, L, M - 1);
      FirstOver(c, L, M - 1);
      Double(First(c, L) + c[L], Pow2(M - 1 - L));
      assert Pow2(M - L) == 2 * Pow2(M - 1 - L);
    }
  }

  lemma {:induction false} NothingBelow(c: Counts, L: nat)
    requires 1 <= L <= MAX_HUFCODE_BITS && Taken(c, L) == 0
    ensures First(c, L) == 0
  {
    if L > 1 { NothingBelow(c, L - 1); }
  }

  /** The codes are canonical: in the order of length and number the first is 0, and each next is one more, filled up
      with zeros to its length. */
  lemma NextCode(lens: Lengths, s: nat, u: nat)
    requires s < |lens| && u < |lens|
    ensures Place(lens, s) == 0 ==> Code(lens, s) == 0
    ensures Place(lens, u) == Place(lens, s) + 1 ==>
      lens[s] <= lens[u] && Code(lens, u) == (Code(lens, s) + 1) * Pow2(lens[u] - lens[s])
  {
    var c := TrueCounts(lens);
    hide First, Taken, TrueCounts;
    if Place(lens, s) == 0 { NothingBelow(c, lens[s]); }
    if Place(lens, u) == Place(lens, s) + 1 {
      if lens[u] < lens[s] { PlaceOrder(lens, u, s); }
      if lens[s] < lens[u] {
        TakenMonotone(c, lens[s], lens[u]);
        OfLengthAt(lens, lens[s], |lens|, s);
        FirstOver(c, lens[s], lens[u]);
      }
    }
  }

  lemma {:induction false} KraftZero(lens: Lengths, i: nat)
    requires i <= |lens|
    ensures Kraft(lens, 0, i) == 0
  {
    if i > 0 { KraftZero(lens, i - 1); }
  }

  lemma {:induction false} KraftAtMost(lens: Lengths, L: nat)
    requires PrefixCodeExists(lens) && 1 <= L <= MAX_HUFCODE_BITS
    ensures Kraft(lens, L, |lens|) <= Pow2(L)
    decreases MAX_HUFCODE_BITS - L
  {
    if L < MAX_HUFCODE_BITS {
      KraftAtMost(lens, L + 1);
      KraftStep(lens, L, |lens|);
    }
  }

  lemma CodeBelowLimit(lens: Lengths, s: nat)
    requires s < |lens|
    ensures First(TrueCounts(lens), lens[s]) <= Code(lens, s)
      < First(TrueCounts(lens), lens[s]) + TrueCounts(lens)[lens[s]]
  {
    OfLengthAt(lens, lens[s], |lens|, s);
  }

  /** Under Kraft's inequality every canonical code fits its length. */
  lemma CodeFits(lens: Lengths, s: nat)
    requires PrefixCodeExists(lens) && s < |lens|
    ensures Code(lens, s) < Pow2(lens[s])
  {
    CodeBelowLimit(lens, s);
    KraftIsFirst(lens, lens[s]);
    KraftAtMost(lens, lens[s]);
  }

  // ----- numbers in the tables

  lemma {:induction false} FirstBound(c: Counts, L: nat)
    requires 1 <= L <= MAX_HUFCODE_BITS + 1
    requires forall k :: 0 <= k < |c| ==> c[k] <= MAX_SYMBOLS
    ensures Taken(c, L) <= First(c, L) <= 516 * (Pow2(L - 1) - 1)
  {
    if L > 1 { FirstBound(c, L - 1); }
  }

  lemma Pow2Is19()
    ensures Pow2(19) == 524288
  {
    Pow2Is31();
    assert Pow2(16) == 65536 by { Pow2Add(8, 8); }
    Pow2Add(16, 3);
    assert Pow2(3) == 8;
  }

  /** The first codes stay far below 2^31, so `pp <<= 1` never overflows. */
  lemma FirstSmall(lens: Lengths, L: nat)
    requires 1 <= L <= MAX_HUFCODE_BITS
    ensures ByteCounts(lens)[L] <= 255
    ensures Taken(ByteCounts(lens), L) <= First(ByteCounts(lens), L) < 0x4000_0000 - 256
  {
    hide First, Taken, ByteCounts, Count, Pow2;
    FirstBound(ByteCounts(lens), L);
    Pow2Monotone(L - 1, 19);
    Pow2Is19();
  }

  lemma {:induction false} NoneShorter(lens: Lengths, c: Counts, L: nat)
    requires 1 <= L <= MinLen(lens)
    requires forall k :: 0 <= k <= MAX_HUFCODE_BITS && Count(lens, k, |lens|) == 0 ==> c[k] == 0
    ensures First(c, L) == Taken(c, L) == 0
  {
    if L > 1 {
      NoneShorter(lens, c, L - 1);
      Extremal(lens);
      CountNone(lens, L - 1, |lens|);
    }
  }

  lemma {:induction false} CountNone(lens: seq<nat>, L: nat, i: nat)
    requires i <= |lens| && forall k :: 0 <= k < i ==> lens[k] != L
    ensures Count(lens, L, i) == 0
  {
    if i > 0 { CountNone(lens, L, i - 1); }
  }

  lemma {:induction false} CountSome(lens: seq<nat>, L: nat, i: nat, k: nat)
    requires k < i <= |lens| && lens[k] == L
    ensures Count(lens, L, i) > 0
  {
    if k < i - 1 { CountSome(lens, L, i - 1, k); }
  }

  lemma MinLenCounted(lens: Lengths)
    ensures 1 <= MinLen(lens) <= MaxLen(lens) <= MAX_HUFCODE_BITS
    ensures Count(lens, MinLen(lens), |lens|) > 0
  {
    Extremal(lens);
    var k :| 0 <= k < |lens| && lens[k] == MinLen(lens);
    CountSome(lens, MinLen(lens), |lens|, k);
  }

  /** `temp[minLen]` did not wrap to zero: unless exactly 256 symbols share the shortest length. */
  ghost predicate ShortestCounted(lens: Lengths)
  {
    Count(lens, MinLen(lens), |lens|) != 256
  }

  lemma ShortestByteCount(lens: Lengths)
    ensures ShortestCounted(lens) <==> ByteCounts(lens)[MinLen(lens)] > 0
  {
    MinLenCounted(lens);
  }

  lemma {:induction false} FirstPositive(lens: Lengths, L: nat)
    requires ShortestCounted(lens) && MinLen(lens) <= L <= MAX_HUFCODE_BITS
    ensures First(ByteCounts(lens), L) + ByteCounts(lens)[L] > 0
    ensures L > MinLen(lens) ==> First(ByteCounts(lens), L) > 0
  {
    ShortestByteCount(lens);
    if L > MinLen(lens) {
      MinLenCounted(lens);
      FirstPositive(lens, L - 1);
    }
  }

  lemma Uint32Small(x: int)
    ensures 0 <= x < 0x1_0000_0000 ==> Uint32(x) == x
    ensures Uint32(-1) == 0xffff_ffff
  {
  }

  lemma SlotsOf(lens: Lengths, n: nat)
    requires MinLen(lens) <= n <= MaxLen(lens) && n < MAX_HUFCODE_BITS
    ensures LimitSlots(lens)[n + 1] == LimitOf(lens, n)
    ensures BaseSlots(lens)[n + 1] == if n == MinLen(lens) then 0 else BaseOf(lens, n)
  {
  }

  lemma LimitEntry(lens: Lengths, n: nat)
    requires MinLen(lens) <= n <= MaxLen(lens) && n < MAX_HUFCODE_BITS
    ensures ShortestCounted(lens) ==>
      LimitSlots(lens)[n + 1] == First(ByteCounts(lens), n) + ByteCounts(lens)[n] - 1
    ensures !ShortestCounted(lens) && n == MinLen(lens) ==> LimitSlots(lens)[n + 1] == 0xffff_ffff
  {
    MinLenCounted(lens);
    SlotsOf(lens, n);
    Uint32Small(First(ByteCounts(lens), n) + ByteCounts(lens)[n] - 1);
    if ShortestCounted(lens) {
      FirstSmall(lens, n);
      FirstPositive(lens, n);
    } else if n == MinLen(lens) {
      ShortestByteCount(lens);
      NoneShorter(lens, ByteCounts(lens), n);
    }
  }

  lemma BaseEntry(lens: Lengths, n: nat)
    requires MinLen(lens) <= n <= MaxLen(lens) && n < MAX_HUFCODE_BITS
    ensures BaseSlots(lens)[n + 1] == First(ByteCounts(lens), n) - Taken(ByteCounts(lens), n)
  {
    MinLenCounted(lens);
    SlotsOf(lens, n);
    if n == MinLen(lens) {
      NoneShorter(lens, ByteCounts(lens), n);
    } else {
      FirstSmall(lens, n);
      Uint32Small(First(ByteCounts(lens), n) - Taken(ByteCounts(lens), n));
    }
  }

  /** Entries of the tables, where they exist and the shortest length was counted. */
  lemma Entries(lens: Lengths, n: nat)
    requires MinLen(lens) <= n <= MaxLen(lens) && n < MAX_HUFCODE_BITS
    ensures ShortestCounted(lens) ==> forall j: nat ::
      Accepts(TableOf(lens), n, j) <==> j < First(ByteCounts(lens), n) + ByteCounts(lens)[n]
    ensures !ShortestCounted(lens) && n == MinLen(lens) ==> forall j: nat ::
      Accepts(TableOf(lens), n, j) <==> j < 0x1_0000_0000
    ensures TableOf(lens).base[n + 1] == First(ByteCounts(lens), n) - Taken(ByteCounts(lens), n)
  {
    LimitEntry(lens, n);
    BaseEntry(lens, n);
  }

  // ----- no index leaves the table

  lemma {:induction false} TakenAtMost(lens: Lengths, L: nat)
    requires 1 <= L <= MAX_HUFCODE_BITS + 1
    ensures Taken(ByteCounts(lens), L) <= Taken(TrueCounts(lens), L)
  {
    if L > 1 { TakenAtMost(lens, L - 1); }
  }

  /** Where the loop stops, the number read is at least the first code of that length. */
  lemma StopAboveFirst(lens: Lengths, bytes: seq<byte>, p: nat)
    requires ShortestCounted(lens)
    ensures var n := Stop(TableOf(lens), bytes, p, MinLen(lens));
      n <= MaxLen(lens) ==>
        && n < MAX_HUFCODE_BITS
        && First(ByteCounts(lens), n) <= Value(bytes, p, n) < First(ByteCounts(lens), n) + ByteCounts(lens)[n]
  {
    var t, m := TableOf(lens), MinLen(lens);
    var n := Stop(t, bytes, p, m);
    MinLenCounted(lens);
    if n <= MaxLen(lens) {
      Entries(lens, n);
      if n == m {
        NoneShorter(lens, ByteCounts(lens), m);
      } else {
        assert !Accepts(t, n - 1, Value(bytes, p, n - 1));
        Entries(lens, n - 1);
      }
    }
  }

  lemma IndexBound(lens: Lengths, n: nat, v: nat)
    requires 1 <= n <= MAX_HUFCODE_BITS
    requires First(ByteCounts(lens), n) <= v < First(ByteCounts(lens), n) + ByteCounts(lens)[n]
    ensures Taken(ByteCounts(lens), n) + v - First(ByteCounts(lens), n) < |lens|
  {
    TakenAtMost(lens, n + 1);
    TakenAll(lens, MAX_HUFCODE_BITS);
    if n < MAX_HUFCODE_BITS { TakenMonotone(TrueCounts(lens), n + 1, MAX_HUFCODE_BITS + 1); }
  }

  /** The index the decoder forms from what it read. */
  ghost function Index(lens: Lengths, bytes: seq<byte>, p: nat, n: nat): int
    requires 1 <= n <= MAX_HUFCODE_BITS
  {
    Value(bytes, p, n) - First(ByteCounts(lens), n) + Taken(ByteCounts(lens), n)
  }

  /** The stream holds a code of length n, as the tables see it. */
  ghost predicate HoldsCode(lens: Lengths, bytes: seq<byte>, p: nat, n: nat)
  {
    && MinLen(lens) <= n <= MaxLen(lens) && 1 <= n < MAX_HUFCODE_BITS
    && First(ByteCounts(lens), n) <= Value(bytes, p, n) < First(ByteCounts(lens), n) + ByteCounts(lens)[n]
    && 0 <= Index(lens, bytes, p, n) < |lens|
  }

  /** The answer of the decoder when the shortest length was counted. */
  lemma Answer(lens: Lengths, bytes: seq<byte>, p: nat) returns (n: nat)
    requires ShortestCounted(lens)
    ensures n == Stop(TableOf(lens), bytes, p, MinLen(lens))
    ensures n > MaxLen(lens) ==> DecodeSymbol(TableOf(lens), bytes, p) == Err(NoSuchCode)
    ensures n <= MaxLen(lens) ==> HoldsCode(lens, bytes, p, n)
    ensures n <= MaxLen(lens) ==>
      DecodeSymbol(TableOf(lens), bytes, p) == Ok((Permute(lens)[Index(lens, bytes, p, n)], p + n))
  {
    hide Stop, DecodeSymbol, Value, Permute, ShortestCounted;
    n := Stop(TableOf(lens), bytes, p, MinLen(lens));
    SymbolStops(TableOf(lens), bytes, p);
    if n <= MaxLen(lens) {
      AnswerHolds(lens, bytes, p);
      SelectEntry(lens, n, Value(bytes, p, n), p + n);
    }
  }

  lemma AnswerHolds(lens: Lengths, bytes: seq<byte>, p: nat)
    requires ShortestCounted(lens) && Stop(TableOf(lens), bytes, p, MinLen(lens)) <= MaxLen(lens)
    ensures HoldsCode(lens, bytes, p, Stop(TableOf(lens), bytes, p, MinLen(lens)))
  {
    MinLenCounted(lens);
    StopAboveFirst(lens, bytes, p);
    var n := Stop(TableOf(lens), bytes, p, MinLen(lens));
    IndexBound(lens, n, Value(bytes, p, n));
    FirstSmall(lens, n);
  }

  lemma SelectEntry(lens: Lengths, n: nat, v: nat, q: nat)
    requires MinLen(lens) <= n <= MaxLen(lens) && n < MAX_HUFCODE_BITS
    requires 0 <= v - First(ByteCounts(lens), n) + Taken(ByteCounts(lens), n) < |lens|
    ensures Select(TableOf(lens), n, v, q)
         == Ok((Permute(lens)[v - First(ByteCounts(lens), n) + Taken(ByteCounts(lens), n)], q))
  {
    BaseEntry(lens, n);
  }

  lemma WrappedDecode(lens: Lengths, bytes: seq<byte>, p: nat)
    requires !ShortestCounted(lens) && MinLen(lens) < MAX_HUFCODE_BITS
    ensures DecodeSymbol(TableOf(lens), bytes, p) == var v := Value(bytes, p, MinLen(lens));
      if v >= MAX_SYMBOLS then Err(IndexOutOfRange) else Ok((Permute(lens)[v], p + MinLen(lens)))
  {
    hide DecodeSymbol, Value, Pow2;
    var m := MinLen(lens);
    MinLenCounted(lens);
    Entries(lens, m);
    NoneShorter(lens, ByteCounts(lens), m);
    ValueBound(bytes, p, m);
    Pow2Monotone(m, 19);
    Pow2Is19();
    SymbolStops(TableOf(lens), bytes, p);
  }

  lemma LongWordsOnly(lens: Lengths, bytes: seq<byte>, p: nat)
    requires MinLen(lens) == MAX_HUFCODE_BITS
    ensures DecodeSymbol(TableOf(lens), bytes, p) == Err(NoSuchCode)
  {
    MinLenCounted(lens);
    SymbolStops(TableOf(lens), bytes, p);
  }

  /** The check `j < 0 || j >= MAX_SYMBOLS` can only fire when exactly 256 symbols share
      the shortest length and that length is 9..19; over-subscribed vectors are harmless. */
  lemma IndexCheckFires(lens: Lengths)
    ensures (exists bytes, p :: DecodeSymbol(TableOf(lens), bytes, p) == Err(IndexOutOfRange))
       <==> (Count(lens, MinLen(lens), |lens|) == 256 && 9 <= MinLen(lens) < MAX_HUFCODE_BITS)
  {
    forall bytes, p | DecodeSymbol(TableOf(lens), bytes, p) == Err(IndexOutOfRange)
      ensures Count(lens, MinLen(lens), |lens|) == 256 && 9 <= MinLen(lens) < MAX_HUFCODE_BITS
    {
      IndexCheckNeedsWrap(lens, bytes, p);
    }
    if Count(lens, MinLen(lens), |lens|) == 256 && 9 <= MinLen(lens) < MAX_HUFCODE_BITS {
      IndexCheckExample(lens);
    }
  }

  lemma IndexCheckNeedsWrap(lens: Lengths, bytes: seq<byte>, p: nat)
    requires DecodeSymbol(TableOf(lens), bytes, p) == Err(IndexOutOfRange)
    ensures !ShortestCounted(lens) && 9 <= MinLen(lens) < MAX_HUFCODE_BITS
  {
    var m := MinLen(lens);
    MinLenCounted(lens);
    if ShortestCounted(lens) {
      var n := Answer(lens, bytes, p);
    } else if m == MAX_HUFCODE_BITS {
      LongWordsOnly(lens, bytes, p);
    } else {
      WrappedDecode(lens, bytes, p);
      ValueBound(bytes, p, m);
      Pow2Is31();
      if m < 9 { Pow2Monotone(m, 8); }
    }
  }

  lemma IndexCheckExample(lens: Lengths)
    requires !ShortestCounted(lens) && 9 <= MinLen(lens) < MAX_HUFCODE_BITS
    ensures DecodeSymbol(TableOf(lens), [255, 255, 255], 0) == Err(IndexOutOfRange)
  {
    AllOnes([255, 255, 255], MinLen(lens));
    WrappedDecode(lens, [255, 255, 255], 0);
    Pow2Is31();
    Pow2Monotone(9, MinLen(lens));
    assert Pow2(9) == 2 * Pow2(8);
  }

  lemma {:induction false} AllOnes(bytes: seq<byte>, n: nat)
    requires n <= 24 && bytes == [255, 255, 255]
    ensures Value(bytes, 0, n) == Pow2(n) - 1
  {
    if n > 0 {
      AllOnes(bytes, n - 1);
      OneOfOnes(7 - (n - 1) % 8);
      assert ByteAt(bytes, (n - 1) / 8) == 255;
    }
  }

  lemma OneOfOnes(k: nat)
    requires k <= 7
    ensures 255 / Pow2(k) % 2 == 1
  {
    assert Pow2(0) == 1 && Pow2(1) == 2 && Pow2(2) == 4;
    assert Pow2(3) == 8 && Pow2(4) == 16 && Pow2(5) == 32 && Pow2(6) == 64 && Pow2(7) == 128;
    hide Pow2;
  }

  // ----- soundness and completeness

  /** `temp` holds the true counts. */
  ghost predicate CountsFit(lens: Lengths)
  {
    forall L :: 0 <= L <= MAX_HUFCODE_BITS ==> Count(lens, L, |lens|) <= 255
  }

  lemma ByteCountsTrue(lens: Lengths)
    requires CountsFit(lens)
    ensures ByteCounts(lens) == TrueCounts(lens) && ShortestCounted(lens)
  {
    MinLenCounted(lens);
  }

  lemma {:induction false} OfLengthInverse(lens: Lengths, L: nat, i: nat, r: nat)
    requires i <= |lens| && r < Count(lens, L, i)
    ensures var s := OfLength(lens, L, i)[r]; s < i && lens[s] == L && Count(lens, L, s) == r
  {
    if r < Count(lens, L, i - 1) {
      OfLengthInverse(lens, L, i - 1, r);
    }
  }

  /** The symbol in a given place. */
  lemma SymbolInPlace(lens: Lengths, L: nat, r: nat) returns (s: nat)
    requires 1 <= L <= MAX_HUFCODE_BITS && r < Count(lens, L, |lens|)
    ensures s < |lens| && lens[s] == L && Count(lens, L, s) == r
    ensures Taken(TrueCounts(lens), L) + r < |lens|
    ensures Permute(lens)[Taken(TrueCounts(lens), L) + r] == s
  {
    OfLengthInverse(lens, L, |lens|, r);
    s := OfLength(lens, L, |lens|)[r];
    PermutePlace(lens, s);
  }

  /** Any code read back is above the codes of all shorter lengths. */
  lemma {:induction false} FirstGrows(c: Counts, k: nat, L: nat)
    requires 1 <= k < L <= MAX_HUFCODE_BITS
    ensures (First(c, k) + c[k]) * Pow2(L - k) <= First(c, L)
    decreases L
  {
    var f := First(c, k) + c[k];
    if k == L - 1 {
      assert Pow2(1) == 2 * Pow2(0) == 2;
    } else {
      FirstGrows(c, k, L - 1);
      Double(f, Pow2(L - 1 - k));
      assert Pow2(L - k) == 2 * Pow2(L - 1 - k);
    }
  }

  lemma PrefixAbove(bytes: seq<byte>, p: nat, k: nat, L: nat, f: nat)
    requires k <= L && f * Pow2(L - k) <= Value(bytes, p, L)
    ensures f <= Value(bytes, p, k)
  {
    ValueSplit(bytes, p, k, L - k);
    ValueBound(bytes, p + k, L - k);
    Quotient(f, Value(bytes, p, k), Pow2(L - k), Value(bytes, p + k, L - k));
  }

  lemma Quotient(f: nat, v: nat, m: nat, r: nat)
    requires r < m && f * m <= v * m + r
    ensures f <= v
  {
    if f > v {
      MulAtLeast(m, f - v);
    }
  }

  /** With counts that fit, the loop answers symbol s exactly when the stream holds the
      canonical code of s and the length of s is not 20. */
  lemma DecodeIffCode(lens: Lengths, bytes: seq<byte>, p: nat, s: nat, q: nat)
    requires CountsFit(lens)
    ensures DecodeSymbol(TableOf(lens), bytes, p) == Ok((s, q)) <==>
      s < |lens| && lens[s] < MAX_HUFCODE_BITS && q == p + lens[s] && Value(bytes, p, lens[s]) == Code(lens, s)
  {
    if DecodeSymbol(TableOf(lens), bytes, p) == Ok((s, q)) {
      DecodeSound(lens, bytes, p, s, q);
    }
    if s < |lens| && lens[s] < MAX_HUFCODE_BITS && Value(bytes, p, lens[s]) == Code(lens, s) {
      DecodeComplete(lens, bytes, p, s);
    }
  }

  lemma DecodeSound(lens: Lengths, bytes: seq<byte>, p: nat, s: nat, q: nat)
    requires CountsFit(lens) && DecodeSymbol(TableOf(lens), bytes, p) == Ok((s, q))
    ensures s < |lens| && lens[s] < MAX_HUFCODE_BITS && q == p + lens[s] && Value(bytes, p, lens[s]) == Code(lens, s)
  {
    hide DecodeSymbol, TableOf, Value, First, Permute, Stop, Taken;
    ByteCountsTrue(lens);
    MinLenCounted(lens);
    var n := Answer(lens, bytes, p);
    var s' := SymbolInPlace(lens, n, Value(bytes, p, n) - First(TrueCounts(lens), n));
  }

  lemma RefusesShorter(lens: Lengths, bytes: seq<byte>, p: nat, s: nat, k: nat)
    requires CountsFit(lens) && s < |lens| && MinLen(lens) <= k < lens[s]
    requires Value(bytes, p, lens[s]) == Code(lens, s)
    ensures !Accepts(TableOf(lens), k, Value(bytes, p, k))
  {
    ByteCountsTrue(lens);
    Extremal(lens);
    var c := TrueCounts(lens);
    CodeBelowLimit(lens, s);
    FirstGrows(c, k, lens[s]);
    PrefixAbove(bytes, p, k, lens[s], First(c, k) + c[k]);
    Entries(lens, k);
  }

  lemma AcceptsOwn(lens: Lengths, bytes: seq<byte>, p: nat, s: nat)
    requires CountsFit(lens) && s < |lens| && lens[s] < MAX_HUFCODE_BITS
    requires Value(bytes, p, lens[s]) == Code(lens, s)
    ensures Accepts(TableOf(lens), lens[s], Code(lens, s))
    ensures Code(lens, s) - BaseSlots(lens)[lens[s] + 1] == Place(lens, s) < |lens|
  {
    ByteCountsTrue(lens);
    Extremal(lens);
    CodeBelowLimit(lens, s);
    Entries(lens, lens[s]);
    PermutePlace(lens, s);
  }

  lemma StopsAtOwn(lens: Lengths, bytes: seq<byte>, p: nat, s: nat)
    requires CountsFit(lens) && s < |lens| && lens[s] < MAX_HUFCODE_BITS
    requires Value(bytes, p, lens[s]) == Code(lens, s)
    ensures Stop(TableOf(lens), bytes, p, MinLen(lens)) == lens[s]
  {
    Extremal(lens);
    var n := Stop(TableOf(lens), bytes, p, MinLen(lens));
    AcceptsOwn(lens, bytes, p, s);
    if n < lens[s] {
      MinLenCounted(lens);
      RefusesShorter(lens, bytes, p, s, n);
    }
  }

  lemma DecodeComplete(lens: Lengths, bytes: seq<byte>, p: nat, s: nat)
    requires CountsFit(lens) && s < |lens| && lens[s] < MAX_HUFCODE_BITS
    requires Value(bytes, p, lens[s]) == Code(lens, s)
    ensures DecodeSymbol(TableOf(lens), bytes, p) == Ok((s, p + lens[s]))
  {
    ByteCountsTrue(lens);
    StopsAtOwn(lens, bytes, p, s);
    Extremal(lens);
    var n := Answer(lens, bytes, p);
    OwnIndex(lens, bytes, p, s);
  }

  lemma OwnIndex(lens: Lengths, bytes: seq<byte>, p: nat, s: nat)
    requires CountsFit(lens) && s < |lens| && Value(bytes, p, lens[s]) == Code(lens, s)
    ensures Index(lens, bytes, p, lens[s]) == Place(lens, s) < |lens| && Permute(lens)[Place(lens, s)] == s
  {
    ByteCountsTrue(lens);
    PermutePlace(lens, s);
  }

  /** No canonical code is a prefix of another. */
  lemma PrefixFree(lens: Lengths, bytes: seq<byte>, p: nat, s: nat, u: nat)
    requires s < |lens| && u < |lens|
    requires Value(bytes, p, lens[s]) == Code(lens, s) && Value(bytes, p, lens[u]) == Code(lens, u)
    ensures s == u
  {
    if lens[s] < lens[u] {
      ShorterCodeBelow(lens, bytes, p, s, u);
    } else if lens[u] < lens[s] {
      ShorterCodeBelow(lens, bytes, p, u, s);
    } else if s < u {
      OfLengthAt(lens, lens[s], u, s);
    } else if u < s {
      OfLengthAt(lens, lens[s], s, u);
    }
  }

  lemma ShorterCodeBelow(lens: Lengths, bytes: seq<byte>, p: nat, s: nat, u: nat)
    requires s < |lens| && u < |lens| && lens[s] < lens[u] && Value(bytes, p, lens[u]) == Code(lens, u)
    ensures Value(bytes, p, lens[s]) > Code(lens, s)
  {
    var c := TrueCounts(lens);
    CodeBelowLimit(lens, s);
    FirstGrows(c, lens[s], lens[u]);
    PrefixAbove(bytes, p, lens[s], lens[u], First(c, lens[s]) + c[lens[s]]);
  }
}
