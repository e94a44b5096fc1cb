/** Reading one symbol with a Huffman table, and exactly when that inverts the
    canonical code. */
module HuffmanDecode {
  import opened Bits
  import opened Outcomes
  import opened Huffman

  // ----- the reading loop

  /** `j <= limit[i]`: entry 20 is undefined, and a comparison with undefined is false. */
  predicate Accepts(t: Table, i: nat, j: nat)
    requires IsTable(t)
  {
    i < MAX_HUFCODE_BITS && j <= t.limit[i + 1]
  }

  /** The loop from the point where the i bits before p have been read as j. */
  function DecodeFrom(t: Table, bytes: seq<byte>, p: nat, i: nat, j: nat): Result<(nat, nat)>
    requires IsTable(t)
    decreases MAX_HUFCODE_BITS + 1 - i
  {
    if i > t.maxLen then Err(NoSuchCode)
    else if !Accepts(t, i, j) then DecodeFrom(t, bytes, p + 1, i + 1, 2 * j + BitAt(bytes, p))
    else
      var k := j - t.base[i + 1];
      if k < 0 || k >= MAX_SYMBOLS then Err(IndexOutOfRange) else Ok((t.permute[k], p))
  }

  /** The symbol at p and the position after it. */
  function DecodeSymbol(t: Table, bytes: seq<byte>, p: nat): Result<(nat, nat)>
    requires IsTable(t)
  {
    DecodeFrom(t, bytes, p + t.minLen, t.minLen, Value(bytes, p, t.minLen))
  }

  method ReadSymbol(bits: BitReader, t: Table) returns (r: Result<nat>)
    requires bits.Valid() && IsTable(t)
    modifies bits
    ensures bits.Valid() && bits.Position() >= old(bits.Position())
    ensures var d := DecodeSymbol(t, bits.bytes, old(bits.Position()));
      if d.Ok? then r == Ok(d.value.0) && bits.Position() == d.value.1 else r == Err(d.error)
  {
    hide Value, BitAt;
    ghost var p := bits.Position();
    var i := t.minLen;
    var j: nat := bits.Bits(i);
    while true
      invariant t.minLen <= i <= t.maxLen + 1
      invariant bits.Valid() && bits.Position() == p + i
      invariant DecodeSymbol(t, bits.bytes, p) == DecodeFrom(t, bits.bytes, p + i, i, j)
      decreases MAX_HUFCODE_BITS + 1 - i
    {
      if i > t.maxLen {
        return Err(NoSuchCode);
      }
      if Accepts(t, i, j) {
        break;
      }
      i := i + 1;
      j := ShiftIn(bits, j);
    }
    var k := j - t.base[i + 1];
    if k < 0 || k >= MAX_SYMBOLS {
      return Err(IndexOutOfRange);
    }
    return Ok(t.permute[k]);
  }

  /** `(j << 1) | bits(1)` */
  method ShiftIn(bits: BitReader, j: nat) returns (j': nat)
    requires bits.Valid()
    modifies bits
    ensures bits.Valid() && bits.Position() == old(bits.Position()) + 1
    ensures j' == 2 * j + BitAt(bits.bytes, old(bits.Position()))
  {
    OneBit(bits.bytes, bits.Position());
    hide Value, BitAt;
    var b: nat := bits.Bits(1);
    j' := 2 * j + b;
  }

  // ----- what an answer of the loop means

  /** The first length from i on at which the table accepts; maxLen + 1 if there is none. */
  ghost function Stop(t: Table, bytes: seq<byte>, p: nat, i: nat): (n: nat)
    requires IsTable(t) && i <= t.maxLen + 1
    ensures i <= n <= t.maxLen + 1
    ensures n <= t.maxLen ==> Accepts(t, n, Value(bytes, p, n))
    ensures forall k :: i <= k < n ==> !Accepts(t, k, Value(bytes, p, k))
    decreases t.maxLen + 1 - i
  {
    if i > t.maxLen || Accepts(t, i, Value(bytes, p, i)) then i else Stop(t, bytes, p, i + 1)
  }

  /** The symbol that code j of length n selects. */
  function Select(t: Table, n: nat, j: nat, q: nat): Result<(nat, nat)>
    requires IsTable(t) && n < MAX_HUFCODE_BITS
  {
    var k := j - t.base[n + 1];
    if k < 0 || k >= MAX_SYMBOLS then Err(IndexOutOfRange) else Ok((t.permute[k], q))
  }

  /** Whatever the tables hold, the loop stops at the first length that accepts. */
  lemma {:induction false} DecodeStops(t: Table, bytes: seq<byte>, p: nat, i: nat)
    requires IsTable(t) && t.minLen <= i <= t.maxLen + 1
    ensures var n := Stop(t, bytes, p, i);
      DecodeFrom(t, bytes, p + i, i, Value(bytes, p, i)) ==
        if n > t.maxLen then Err(NoSuchCode) else Select(t, n, Value(bytes, p, n), p + n)
    decreases t.maxLen + 1 - i
  {
    hide Value, BitAt, Accepts;
    if i <= t.maxLen && !Accepts(t, i, Value(bytes, p, i)) {
      OneMoreRead(t, bytes, p, i);
      DecodeStops(t, bytes, p, i + 1);
    }
  }

  lemma OneMoreRead(t: Table, bytes: seq<byte>, p: nat, i: nat)
    requires IsTable(t) && i <= t.maxLen && !Accepts(t, i, Value(bytes, p, i))
    ensures DecodeFrom(t, bytes, p + i, i, Value(bytes, p, i))
         == DecodeFrom(t, bytes, p + (i + 1), i + 1, Value(bytes, p, i + 1))
  {
    assert Value(bytes, p, i + 1) == 2 * Value(bytes, p, i) + BitAt(bytes, p + i);
    hide Value, BitAt, Accepts;
  }

  lemma SymbolStops(t: Table, bytes: seq<byte>, p: nat)
    requires IsTable(t)
    ensures var n := Stop(t, bytes, p, t.minLen);
      DecodeSymbol(t, bytes, p) == if n > t.maxLen then Err(NoSuchCode) else Select(t, n, Value(bytes, p, n), p + n)
  {
    DecodeStops(t, bytes, p, t.minLen);
  }
}
