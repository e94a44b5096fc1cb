/** Reading code lengths and filling the arrays of a `hufGroup`. */
module HuffmanBuild {
  import opened Bits
  import opened Outcomes
  import opened Rearrange
  import opened Huffman
  import opened HuffmanCodes

  // ----- code lengths: each is the previous one, stepped up or down

  /** One length, stepping from t. */
  function ReadLength(bytes: seq<byte>, p: nat, t: nat): (r: Result<(nat, nat)>)
    ensures r.Ok? ==> 1 <= r.value.0 <= MAX_HUFCODE_BITS && r.value.1 > p
    decreases if p < 8 * |bytes| then 8 * |bytes| - p else 0
  {
    if t < 1 || t > MAX_HUFCODE_BITS then Err(BadCodeLength)
    else if BitAt(bytes, p) == 0 then Ok((t, p + 1))
    else
      EndOfBits(bytes, p);
      ReadLength(bytes, p + 2, if BitAt(bytes, p + 1) == 0 then t + 1 else t - 1)
  }

  lemma EndOfBits(bytes: seq<byte>, p: nat)
    ensures BitAt(bytes, p) != 0 ==> p < 8 * |bytes|
  {
    if p >= 8 * |bytes| {
      assert p / 8 >= |bytes|;
    }
  }

  function LengthsFrom(bytes: seq<byte>, p: nat, t: nat, n: nat): (r: Result<(seq<nat>, nat)>)
    ensures r.Ok? ==> |r.value.0| == n && r.value.1 >= p
    ensures r.Ok? ==> forall i :: 0 <= i < n ==> 1 <= r.value.0[i] <= MAX_HUFCODE_BITS
    decreases n
  {
    if n == 0 then Ok(([], p))
    else
      var (l, q) :- ReadLength(bytes, p, t);
      var (rest, q') :- LengthsFrom(bytes, q, l, n - 1);
      Ok(([l] + rest, q'))
  }

  /** The lengths of n symbols at p, after a 5-bit starting value. */
  function ReadLengths(bytes: seq<byte>, p: nat, n: nat): (r: Result<(seq<nat>, nat)>)
    ensures r.Ok? ==> |r.value.0| == n && r.value.1 >= p
    ensures r.Ok? && 2 <= n <= MAX_SYMBOLS ==> IsLengths(r.value.0)
  {
    LengthsFrom(bytes, p + 5, Value(bytes, p, 5), n)
  }

  method ReadLengthArray(bits: BitReader, length: array<nat>, n: nat) returns (r: Result<()>)
    requires bits.Valid() && n <= length.Length
    modifies bits, length
    ensures bits.Valid()
    ensures var s := ReadLengths(bits.bytes, old(bits.Position()), n);
      if s.Ok? then r.Ok? && length[..n] == s.value.0 && bits.Position() == s.value.1 else r == Err(s.error)
  {
    ghost var whole := ReadLengths(bits.bytes, bits.Position(), n);
    var t: nat := bits.Bits(5);
    JoinNone(length[..0], LengthsFrom(bits.bytes, bits.Position(), t, n));
    for i := 0 to n
      invariant bits.Valid()
      invariant whole == Join(length[..i], LengthsFrom(bits.bytes, bits.Position(), t, n - i))
    {
      ghost var before := length[..i];
      var s := ReadLengthBits(bits, t);
      if s.Err? {
        return Err(s.error);
      }
      t := s.value;
      length[i] := t;
      JoinStep(before, t, LengthsFrom(bits.bytes, bits.Position(), t, n - i - 1));
      assert length[..i + 1] == before + [t];
    }
    JoinDone(bits.bytes, bits.Position(), length[..n], t);
    return Ok(());
  }

  /** Values already read, in front of those still to come. */
  ghost function Join(done: seq<nat>, rest: Result<(seq<nat>, nat)>): Result<(seq<nat>, nat)>
  {
    if rest.Ok? then Ok((done + rest.value.0, rest.value.1)) else Err(rest.error)
  }

  lemma JoinNone(done: seq<nat>, rest: Result<(seq<nat>, nat)>)
    requires done == []
    ensures Join(done, rest) == rest
  {
    if rest.Ok? { assert done + rest.value.0 == rest.value.0; }
  }

  lemma JoinDone(bytes: seq<byte>, p: nat, done: seq<nat>, t: nat)
    ensures Join(done, LengthsFrom(bytes, p, t, 0)) == Ok((done, p))
  {
    assert done + [] == done;
  }

  lemma JoinStep(done: seq<nat>, l: nat, rest: Result<(seq<nat>, nat)>)
    ensures Join(done, if rest.Ok? then Ok(([l] + rest.value.0, rest.value.1)) else Err(rest.error))
      == Join(done + [l], rest)
  {
    if rest.Ok? { assert done + ([l] + rest.value.0) == done + [l] + rest.value.0; }
  }

  method ReadLengthBits(bits: BitReader, from: nat) returns (r: Result<nat>)
    requires bits.Valid()
    modifies bits
    ensures bits.Valid()
    ensures var s := ReadLength(bits.bytes, old(bits.Position()), from);
      if s.Ok? then r == Ok(s.value.0) && bits.Position() == s.value.1 else r == Err(s.error)
  {
    var t: nat := from;
    ghost var whole := ReadLength(bits.bytes, bits.Position(), from);
    while true
      invariant bits.Valid() && whole == ReadLength(bits.bytes, bits.Position(), t)
      decreases if bits.Position() < 8 * |bits.bytes| then 8 * |bits.bytes| - bits.Position() else 0
    {
      if t < 1 || t > MAX_HUFCODE_BITS {
        return Err(BadCodeLength);
      }
      EndOfBits(bits.bytes, bits.Position());
      OneBit(bits.bytes, bits.Position());
      var more := bits.Bits(1);
      if more == 0 {
        return Ok(t);
      }
      OneBit(bits.bytes, bits.Position());
      var down := bits.Bits(1);
      t := if down == 0 then t + 1 else t - 1;
    }
  }

  // ----- the encoding of the lengths

  function Steps(from: nat, to: nat): seq<bit>
    decreases if from < to then to - from else from - to
  {
    if from == to then [0]
    else if from < to then [1, 0] + Steps(from + 1, to)
    else [1, 1] + Steps(from - 1, to)
  }

  function EncodeLengths(lens: seq<nat>, from: nat): seq<bit>
  {
    if lens == [] then [] else Steps(from, lens[0]) + EncodeLengths(lens[1..], lens[0])
  }

  lemma {:induction false} StepsRead(bytes: seq<byte>, p: nat, from: nat, to: nat)
    requires 1 <= from <= MAX_HUFCODE_BITS && 1 <= to <= MAX_HUFCODE_BITS
    requires At(bytes, p, Steps(from, to))
    ensures ReadLength(bytes, p, from) == Ok((to, p + |Steps(from, to)|))
    decreases if from < to then to - from else from - to
  {
    hide BitAt;
    if from == to {
      assert BitAt(bytes, p + 0) == [0][0];
    } else {
      var next := if from < to then from + 1 else from - 1;
      OneStep(bytes, p, if from < to then 0 else 1, Steps(next, to));
      StepsRead(bytes, p + 2, next, to);
    }
  }

  lemma OneStep(bytes: seq<byte>, p: nat, down: bit, rest: seq<bit>)
    requires At(bytes, p, [1, down] + rest)
    ensures BitAt(bytes, p) == 1 && BitAt(bytes, p + 1) == down && At(bytes, p + 2, rest)
  {
    hide BitAt;
    var step := [1, down];
    AtConcat(bytes, p, step, rest);
    assert BitAt(bytes, p + 0) == step[0] && BitAt(bytes, p + 1) == step[1];
  }

  ghost predicate InRange(lens: seq<nat>)
  {
    forall i :: 0 <= i < |lens| ==> 1 <= lens[i] <= MAX_HUFCODE_BITS
  }

  lemma {:induction false} LengthsFromEncoded(bytes: seq<byte>, p: nat, lens: seq<nat>, from: nat)
    requires 1 <= from <= MAX_HUFCODE_BITS && InRange(lens)
    requires At(bytes, p, EncodeLengths(lens, from))
    ensures LengthsFrom(bytes, p, from, |lens|) == Ok((lens, p + |EncodeLengths(lens, from)|))
    decreases |lens|
  {
    if lens != [] {
      hide EncodeLengths, Steps, LengthsFrom, At, InRange;
      EncodeNext(lens, from);
      var l, rest := lens[0], lens[1..];
      var steps, more := Steps(from, l), EncodeLengths(rest, l);
      AtConcat(bytes, p, steps, more);
      StepsRead(bytes, p, from, l);
      LengthsFromEncoded(bytes, p + |steps|, rest, l);
      LengthsCons(bytes, p, from, |lens|, l, p + |steps|, rest, p + |steps| + |more|);
      assert lens == [l] + rest;
    }
  }

  lemma EncodeNext(lens: seq<nat>, from: nat)
    requires lens != [] && InRange(lens)
    ensures InRange(lens[1..]) && 1 <= lens[0] <= MAX_HUFCODE_BITS
    ensures EncodeLengths(lens, from) == Steps(from, lens[0]) + EncodeLengths(lens[1..], lens[0])
  {
    hide Steps;
  }

  lemma LengthsCons(bytes: seq<byte>, p: nat, t: nat, n: nat, l: nat, q: nat, rest: seq<nat>, q': nat)
    requires n > 0 && ReadLength(bytes, p, t) == Ok((l, q)) && LengthsFrom(bytes, q, l, n - 1) == Ok((rest, q'))
    ensures LengthsFrom(bytes, p, t, n) == Ok(([l] + rest, q'))
  {
  }

  /** Code lengths come back from their delta encoding, whatever value it starts from. */
  lemma LengthsRoundTrip(bytes: seq<byte>, p: nat, lens: Lengths, from: nat)
    requires 1 <= from <= MAX_HUFCODE_BITS
    requires At(bytes, p, BigEndian(from, 5) + EncodeLengths(lens, from))
    ensures ReadLengths(bytes, p, |lens|) == Ok((lens, p + 5 + |EncodeLengths(lens, from)|))
  {
    hide At, BigEndian, EncodeLengths, LengthsFrom, Value, Pow2;
    AtConcat(bytes, p, BigEndian(from, 5), EncodeLengths(lens, from));
    FieldWidths();
    ReadBack(bytes, p, from, 5);
    LengthsFromEncoded(bytes, p + 5, lens, from);
  }

  // ----- the tables

  /** `view[i] = v` for `view = a.subarray(1)`: a store past the end is dropped. */
  method StoreView(a: array<nat>, i: nat, v: int)
    requires a.Length == MAX_HUFCODE_BITS + 1
    modifies a
    ensures a[..] == Stored(old(a[..]), i, v)
  {
    if i + 1 < a.Length {
      a[i + 1] := Uint32(v);
    }
  }

  method Extremes(length: array<nat>, n: nat, ghost lens: Lengths) returns (minLen: nat, maxLen: nat)
    requires n <= length.Length && lens == length[..n]
    ensures minLen == MinLen(lens) && maxLen == MaxLen(lens)
  {
    assert length[0] == lens[0];
    minLen, maxLen := length[0], length[0];
    for i := 1 to n
      invariant minLen == Least(lens, i) && maxLen == Greatest(lens, i)
    {
      assert length[i] == lens[i];
      LeastAtMostGreatest(lens, i);
      if length[i] > maxLen {
        maxLen := length[i];
      } else if length[i] < minLen {
        minLen := length[i];
      }
    }
  }

  lemma {:induction false} LeastAtMostGreatest(lens: seq<nat>, i: nat)
    requires 1 <= i <= |lens|
    ensures Least(lens, i) <= Greatest(lens, i)
  {
    if i > 1 { LeastAtMostGreatest(lens, i - 1); }
  }

  /** The array `permute` and its fill level once all symbols with codes of length at
      most L are listed. */
  ghost predicate Listed(permute: seq<nat>, pp: nat, lens: Lengths, L: nat)
  {
    var done := ByLength(lens, L);
    pp == |done| <= MAX_SYMBOLS && permute == done + Zeros(MAX_SYMBOLS - |done|)
  }

  lemma OfLengthNone(lens: Lengths, i: nat)
    ensures Count(lens, i, 0) == 0 && OfLength(lens, i, 0) == []
  {
  }

  lemma OfLengthNext(lens: Lengths, i: nat, t: nat)
    requires t < |lens|
    ensures Count(lens, i, t + 1) == Count(lens, i, t) + if lens[t] == i then 1 else 0
    ensures OfLength(lens, i, t + 1) == OfLength(lens, i, t) + if lens[t] == i then [t] else []
  {
  }

  /** The inner loop: appends the symbols with codes of length i. */
  method ListLength(length: array<nat>, n: nat, ghost lens: Lengths, permute: array<nat>, pp0: nat, i: nat)
      returns (pp: nat)
    requires n <= length.Length && lens == length[..n] && permute != length && permute.Length == MAX_SYMBOLS
    requires pp0 + Count(lens, i, n) <= n
    modifies permute
    ensures pp == pp0 + Count(lens, i, n)
    ensures permute[..pp] == old(permute[..pp0]) + OfLength(lens, i, n)
    ensures permute[pp..] == old(permute[pp0..])[pp - pp0..]
  {
    pp := pp0;
    CountGrows(lens, i, 0);
    hide Count, OfLength;
    OfLengthNone(lens, i);
    for t := 0 to n
      invariant pp == pp0 + Count(lens, i, t) <= n
      invariant permute[..pp] == old(permute[..pp0]) + OfLength(lens, i, t)
      invariant permute[pp..] == old(permute[pp0..])[pp - pp0..]
    {
      assert length[t] == lens[t];
      CountGrows(lens, i, t + 1);
      OfLengthNext(lens, i, t);
      if length[t] == i {
        ghost var before, after := permute[..pp], permute[pp..][1..];
        permute[pp] := t;
        pp := pp + 1;
        assert permute[..pp] == before + [t];
        assert permute[pp..] == after;
      }
    }
  }

  /** One turn of the outer loop. */
  method ListNext(length: array<nat>, n: nat, ghost lens: Lengths, permute: array<nat>, pp0: nat, i: nat)
      returns (pp: nat)
    requires n <= length.Length && lens == length[..n] && permute != length && permute.Length == MAX_SYMBOLS
    requires 1 <= i <= MAX_HUFCODE_BITS && Listed(permute[..], pp0, lens, i - 1)
    modifies permute
    ensures Listed(permute[..], pp, lens, i)
  {
    ghost var before := permute[..];
    ByLengthSize(lens, i);
    pp := ListLength(length, n, lens, permute, pp0, i);
    assert permute[..][..pp] == permute[..pp] && permute[..][pp..] == permute[pp..];
    assert before[..pp0] == old(permute[..pp0]) && before[pp0..] == old(permute[pp0..]);
    ListedStep(before, permute[..], lens, i, pp0);
  }

  /** The nested loops that list the symbols by length. */
  method FillPermute(length: array<nat>, n: nat, ghost lens: Lengths, minLen: nat, maxLen: nat)
      returns (permute: array<nat>)
    requires n <= length.Length && lens == length[..n]
    requires minLen == MinLen(lens) && maxLen == MaxLen(lens)
    ensures fresh(permute) && permute[..] == Permute(lens)
  {
    hide ByLength, Permute, MinLen, MaxLen, Listed;
    permute := NewZeros(MAX_SYMBOLS);
    var pp := 0;
    ListedNone(lens);
    for i := minLen to maxLen + 1
      invariant 1 <= i <= MAX_HUFCODE_BITS + 1 && permute.Length == MAX_SYMBOLS
      invariant Listed(permute[..], pp, lens, i - 1)
    {
      pp := ListNext(length, n, lens, permute, pp, i);
    }
    ListedAll(permute[..], pp, lens);
  }

  /** A fresh typed array. */
  method NewZeros(n: nat) returns (a: array<nat>)
    ensures fresh(a) && a[..] == Zeros(n)
  {
    a := new nat[n](_ => 0);
  }

  lemma ListedNone(lens: Lengths)
    ensures 1 <= MinLen(lens) <= MaxLen(lens) <= MAX_HUFCODE_BITS
    ensures Listed(Zeros(MAX_SYMBOLS), 0, lens, MinLen(lens) - 1)
  {
    MinLenCounted(lens);
    NoneBelow(lens, MinLen(lens) - 1);
    hide ByLength, MinLen, MaxLen;
    assert Zeros(MAX_SYMBOLS) == [] + Zeros(MAX_SYMBOLS);
  }

  lemma ListedAll(permute: seq<nat>, pp: nat, lens: Lengths)
    requires Listed(permute, pp, lens, MaxLen(lens))
    ensures permute == Permute(lens)
  {
    Extremal(lens);
    ByLengthSize(lens, MaxLen(lens));
  }

  lemma ListedStep(before: seq<nat>, after: seq<nat>, lens: Lengths, i: nat, pp: nat)
    requires 1 <= i <= MAX_HUFCODE_BITS && Listed(before, pp, lens, i - 1)
    requires |after| == MAX_SYMBOLS && pp + Count(lens, i, |lens|) <= MAX_SYMBOLS
    requires after[..pp + Count(lens, i, |lens|)] == before[..pp] + OfLength(lens, i, |lens|)
    requires after[pp + Count(lens, i, |lens|)..] == before[pp..][Count(lens, i, |lens|)..]
    ensures Listed(after, pp + Count(lens, i, |lens|), lens, i)
  {
    var pp' := pp + Count(lens, i, |lens|);
    assert before[..pp] == ByLength(lens, i - 1);
    assert after[..pp'] == ByLength(lens, i);
    assert after == after[..pp'] + after[pp'..];
  }

  lemma {:induction false} CountGrows(lens: Lengths, L: nat, i: nat)
    requires i <= |lens|
    ensures Count(lens, L, i) <= Count(lens, L, |lens|)
    decreases |lens| - i
  {
    if i < |lens| { CountGrows(lens, L, i + 1); }
  }

  lemma {:induction false} NoneBelow(lens: Lengths, L: nat)
    requires L < MinLen(lens)
    ensures ByLength(lens, L) == []
  {
    if L > 0 {
      NoneBelow(lens, L - 1);
      Extremal(lens);
      CountNone(lens, L, |lens|);
    }
  }

  /** `temp[length[i]]++` on an array of bytes. */
  method CountLengths(length: array<nat>, n: nat, ghost lens: Lengths) returns (temp: array<nat>)
    requires n <= length.Length && lens == length[..n]
    ensures fresh(temp) && temp[..] == ByteCounts(lens)
  {
    temp := new nat[MAX_HUFCODE_BITS + 1](_ => 0);
    for i := 0 to n
      invariant forall L :: 0 <= L <= MAX_HUFCODE_BITS ==> temp[L] == Count(lens, L, i) % 256
    {
      assert length[i] == lens[i];
      temp[length[i]] := (temp[length[i]] + 1) % 256;
    }
  }

  /** `x <<= 1` on a number that stays a signed 32-bit integer. */
  function ShiftLeftOne(x: nat): nat
    requires x < 0x4000_0000
  {
    2 * x
  }

  /** The slots of `limit` once all lengths below i are done. */
  ghost predicate LimitsDone(limit: seq<nat>, lens: Lengths, i: nat)
  {
    |limit| == MAX_HUFCODE_BITS + 1 && forall k :: 0 <= k <= MAX_HUFCODE_BITS ==>
      limit[k] == if 1 <= k && MinLen(lens) <= k - 1 < i then LimitOf(lens, k - 1) else 0
  }

  /** The slots of `base`, which is one length ahead. */
  ghost predicate BasesDone(base: seq<nat>, lens: Lengths, i: nat)
  {
    |base| == MAX_HUFCODE_BITS + 1 && forall k :: 0 <= k <= MAX_HUFCODE_BITS ==>
      base[k] == if 1 <= k && MinLen(lens) < k - 1 <= i then BaseOf(lens, k - 1) else 0
  }

  /** The loop that turns counts into `limit` and `base`. */
  method FillSlots(temp: array<nat>, ghost lens: Lengths, minLen: nat, maxLen: nat)
      returns (limit: array<nat>, base: array<nat>)
    requires temp.Length == MAX_HUFCODE_BITS + 1 && temp[..] == ByteCounts(lens)
    requires minLen == MinLen(lens) && maxLen == MaxLen(lens)
    ensures fresh(limit) && limit[..] == LimitSlots(lens)
    ensures fresh(base) && base[..] == BaseSlots(lens)
  {
    limit := NewZeros(MAX_HUFCODE_BITS + 1);
    base := NewZeros(MAX_HUFCODE_BITS + 1);
    var pp: nat, t: nat := 0, 0;
    MinLenCounted(lens);
    NoneShorter(lens, ByteCounts(lens), minLen);
    for i := minLen to maxLen
      invariant limit.Length == base.Length == MAX_HUFCODE_BITS + 1
      invariant pp == First(ByteCounts(lens), i) && t == Taken(ByteCounts(lens), i)
      invariant LimitsDone(limit[..], lens, i) && BasesDone(base[..], lens, i)
    {
      pp, t := FillNext(temp, limit, base, lens, i, pp, t);
    }
    assert temp[maxLen] == ByteCounts(lens)[maxLen];
    LimitStep(limit[..], lens, maxLen);
    BaseFirst(base[..], lens, maxLen);
    StoreView(limit, maxLen, pp + temp[maxLen] - 1);
    StoreView(base, minLen, 0);
    SlotsComplete(limit[..], base[..], lens);
  }

  method FillNext(temp: array<nat>, limit: array<nat>, base: array<nat>, ghost lens: Lengths, i: nat, pp0: nat, t0: nat)
      returns (pp: nat, t: nat)
    requires limit != base && limit != temp && base != temp
    requires temp.Length == limit.Length == base.Length == MAX_HUFCODE_BITS + 1 && temp[..] == ByteCounts(lens)
    requires 1 <= MinLen(lens) <= i < MaxLen(lens) <= MAX_HUFCODE_BITS
    requires pp0 == First(ByteCounts(lens), i) && t0 == Taken(ByteCounts(lens), i)
    requires LimitsDone(limit[..], lens, i) && BasesDone(base[..], lens, i)
    modifies limit, base
    ensures pp == First(ByteCounts(lens), i + 1) && t == Taken(ByteCounts(lens), i + 1)
    ensures LimitsDone(limit[..], lens, i + 1) && BasesDone(base[..], lens, i + 1)
  {
    assert temp[i] == ByteCounts(lens)[i];
    FirstSmall(lens, i);
    LimitStep(limit[..], lens, i);
    BaseStep(base[..], lens, i);
    pp := pp0 + temp[i];
    StoreView(limit, i, pp - 1);
    pp := ShiftLeftOne(pp);
    t := t0 + temp[i];
    StoreView(base, i + 1, pp - t);
  }

  /** What `StoreView` makes of an array. */
  function Stored(a: seq<nat>, i: nat, v: int): seq<nat>
    requires |a| == MAX_HUFCODE_BITS + 1
  {
    if i < MAX_HUFCODE_BITS then a[i + 1 := Uint32(v)] else a
  }

  lemma LimitStep(limit: seq<nat>, lens: Lengths, i: nat)
    requires MinLen(lens) <= i <= MAX_HUFCODE_BITS && LimitsDone(limit, lens, i)
    ensures LimitsDone(Stored(limit, i, First(ByteCounts(lens), i) + ByteCounts(lens)[i] - 1), lens, i + 1)
  {
    assert LimitOf(lens, i) == Uint32(First(ByteCounts(lens), i) + ByteCounts(lens)[i] - 1);
    hide LimitOf;
    var after := Stored(limit, i, First(ByteCounts(lens), i) + ByteCounts(lens)[i] - 1);
    forall k | 0 <= k <= MAX_HUFCODE_BITS
      ensures after[k] == if 1 <= k && MinLen(lens) <= k - 1 < i + 1 then LimitOf(lens, k - 1) else 0
    {
      if k != i + 1 { assert after[k] == limit[k]; }
    }
  }

  lemma BaseStep(base: seq<nat>, lens: Lengths, i: nat)
    requires MinLen(lens) <= i < MAX_HUFCODE_BITS && BasesDone(base, lens, i)
    ensures BasesDone(Stored(base, i + 1, First(ByteCounts(lens), i + 1) - Taken(ByteCounts(lens), i + 1)), lens, i + 1)
  {
  }

  lemma BaseFirst(base: seq<nat>, lens: Lengths, i: nat)
    requires BasesDone(base, lens, i)
    ensures Stored(base, MinLen(lens), 0) == base
  {
  }

  lemma SlotsComplete(limit: seq<nat>, base: seq<nat>, lens: Lengths)
    requires LimitsDone(limit, lens, MaxLen(lens) + 1) && BasesDone(base, lens, MaxLen(lens))
    ensures limit == LimitSlots(lens) && base == BaseSlots(lens)
  {
  }

  method BuildTable(length: array<nat>, n: nat, ghost lens: Lengths) returns (t: Table)
    requires n <= length.Length && lens == length[..n]
    ensures t == TableOf(lens)
  {
    var minLen, maxLen := Extremes(length, n, lens);
    var permute := FillPermute(length, n, lens, minLen, maxLen);
    var temp := CountLengths(length, n, lens);
    var limit, base := FillSlots(temp, lens, minLen, maxLen);
    t := Table(permute[..], limit[..], base[..], minLen, maxLen);
  }
}
