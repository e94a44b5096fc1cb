/** The main loop of `bzip2.decompress`: Huffman symbols drive the symbol machine, which
    fills the block buffer and counts its bytes. */
module Symbols {
  import opened Bits
  import opened Outcomes
  import opened Rearrange
  import opened Huffman
  import opened HuffmanDecode
  import opened Rle
  import opened Mtf
  import opened MtfRoundTrip

  const GROUP_SIZE: nat := 50

  /** The tables of a block and, for every 50 symbols, which of them to use. */
  datatype Coding = Coding(tables: seq<Table>, selectors: seq<nat>)

  predicate IsCoding(c: Coding)
  {
    && (forall i :: 0 <= i < |c.tables| ==> IsTable(c.tables[i]))
    && (forall i :: 0 <= i < |c.selectors| ==> c.selectors[i] < |c.tables|)
  }

  /** Decoding from symbol number k on, at position p. */
  function DecodeLoop(a: Alphabet, c: Coding, bytes: seq<byte>, p: nat, k: nat, s: State): Result<(seq<byte>, nat)>
    requires IsAlphabet(a) && IsCoding(c)
    decreases GROUP_SIZE * |c.selectors| - k
  {
    if k >= GROUP_SIZE * |c.selectors| then Err(OutOfSelectors)
    else
      var (sym, q) :- DecodeSymbol(c.tables[c.selectors[k / GROUP_SIZE]], bytes, p);
      match Step(a, s, sym)
      case More(s') => DecodeLoop(a, c, bytes, q, k + 1, s')
      case Done(out) => Ok((out, q))
      case Failed(e) => Err(e)
  }

  // ----- the arrays

  /** The first slots of `buf` hold the bytes out, and `byteCount` counts them. */
  ghost predicate Holds(buf: seq<nat>, byteCount: seq<nat>, out: seq<byte>)
  {
    && |out| <= |buf| && (forall i :: 0 <= i < |out| ==> buf[i] == out[i])
    && |byteCount| == 256 && forall v :: 0 <= v < 256 ==> byteCount[v] == Count(out, v, |out|)
  }

  lemma {:induction false} OccurrencesPrefix(out: seq<byte>, more: seq<byte>, v: nat, i: nat)
    requires i <= |out|
    ensures Count(out + more, v, i) == Count(out, v, i)
  {
    if i > 0 { OccurrencesPrefix(out, more, v, i - 1); }
  }

  lemma {:induction false} OccurrencesRepeat(out: seq<byte>, x: byte, n: nat, v: nat)
    ensures Count(out + Repeat(x, n), v, |out| + n) == Count(out, v, |out|) + if v == x then n else 0
  {
    if n == 0 {
      assert out + Repeat(x, 0) == out;
    } else {
      OccurrencesRepeat(out, x, n - 1, v);
      OccurrencesPrefix(out + Repeat(x, n - 1), [x], v, |out| + n - 1);
      RepeatMore(x, n - 1);
      assert out + Repeat(x, n) == out + Repeat(x, n - 1) + [x];
    }
  }

  lemma HoldsMore(buf: seq<nat>, byteCount: seq<nat>, out: seq<byte>, uc: byte, n: nat, buf': seq<nat>)
    requires Holds(buf, byteCount, out) && |out| + n <= |buf'|
    requires forall i :: 0 <= i < |out| ==> buf'[i] == buf[i]
    requires forall i :: |out| <= i < |out| + n ==> buf'[i] == uc
    ensures Holds(buf', byteCount[uc := byteCount[uc] + n], out + Repeat(uc, n))
  {
    var counts := byteCount[uc := byteCount[uc] + n];
    forall v | 0 <= v < 256
      ensures counts[v] == Count(out + Repeat(uc, n), v, |out| + n)
    {
      OccurrencesRepeat(out, uc, n, v);
    }
  }

  /** `byteCount[uc] += t; while(t--) buf[count++] = uc;` */
  method AppendRun(buf: array<nat>, byteCount: array<nat>, count0: nat, uc: byte, t: nat, ghost out: seq<byte>)
      returns (count: nat)
    requires buf != byteCount && byteCount.Length == 256
    requires Holds(buf[..], byteCount[..], out) && count0 == |out| && count0 + t <= buf.Length
    modifies buf, byteCount
    ensures Holds(buf[..], byteCount[..], out + Repeat(uc, t)) && count == |out| + t
  {
    ghost var buf0, counts0 := buf[..], byteCount[..];
    byteCount[uc] := byteCount[uc] + t;
    count := count0;
    for k := 0 to t
      invariant count == count0 + k
      invariant forall i :: 0 <= i < count0 ==> buf[i] == buf0[i]
      invariant forall i :: count0 <= i < count ==> buf[i] == uc
      invariant byteCount[..] == counts0[uc := counts0[uc] + t]
    {
      buf[count] := uc;
      count := count + 1;
    }
    HoldsMore(buf0, counts0, out, uc, t, buf[..]);
  }

  /** What one symbol does to the arrays: the imperative form of Step. */
  method Apply(a: Alphabet, buf: array<nat>, byteCount: array<nat>, ghost s: State, sym: nat,
               order0: Order, runPos0: int, t0: int, count0: nat)
      returns (done: bool, failed: bool, error: Error, order: Order, runPos: int, t: int, count: nat)
    requires IsAlphabet(a) && buf != byteCount && buf.Length == a.bufsize && byteCount.Length == 256
    requires Holds(buf[..], byteCount[..], s.out)
    requires s.order == order0 && s.runPos == runPos0 && s.t == t0 && |s.out| == count0
    modifies buf, byteCount
    ensures match Step(a, s, sym)
      case More(s') => !done && !failed && Holds(buf[..], byteCount[..], s'.out)
        && s' == Registers(order, runPos, t, s'.out) && |s'.out| == count
      case Done(out) => done && !failed && Holds(buf[..], byteCount[..], out) && |out| == count
      case Failed(e) => failed && error == e
  {
    done, failed, error := false, false, BufferFull;
    order, runPos, t, count := order0, runPos0, t0, count0;
    if sym == RUNA || sym == RUNB {
      if runPos == 0 {
        runPos, t := 1, 0;
      }
      t := if sym == RUNA then t + runPos else t + 2 * runPos;
      runPos := ToInt32(2 * runPos);
      return;
    }
    ghost var out := s.out;
    if runPos != 0 {
      runPos := 0;
      if count + t >= a.bufsize {
        failed, error := true, RunOverflowsBuffer;
        return;
      }
      var uc := a.symToByte[order[0]];
      count := AppendRun(buf, byteCount, count, uc, t, out);
      out := out + Repeat(uc, t);
    }
    assert Flush(a, s) == Ok(out);
    if sym > a.symTotal {
      done := true;
      return;
    }
    if count >= a.bufsize {
      failed, error := true, BufferFull;
      return;
    }
    var i := sym - 1;
    var uc := a.symToByte[order[i]];
    var taken := order[i];
    var others := order[..i] + order[i + 1..];
    assert [taken] + others == MoveToFront(order, i);
    order := [taken] + others;
    assert Repeat(uc, 1) == [uc];
    count := AppendRun(buf, byteCount, count, uc, 1, out);
  }

  lemma HoldsNothing(buf: seq<nat>, byteCount: seq<nat>)
    requires |byteCount| == 256 && forall v :: 0 <= v < 256 ==> byteCount[v] == 0
    ensures Holds(buf, byteCount, [])
  {
  }

  /** `left` symbols remain for the current table, after k symbols in all. */
  ghost predicate Turn(c: Coding, k: nat, left: nat, selector: nat, table: Table)
  {
    && k + left == GROUP_SIZE * selector && left < GROUP_SIZE && selector <= |c.selectors|
    && (forall i :: 0 <= i < |c.selectors| ==> c.selectors[i] < |c.tables|)
    && (left > 0 ==> selector > 0 && table == c.tables[c.selectors[selector - 1]])
  }

  /** Picks the table for symbol number k, every 50 symbols a new one, and reads the symbol. */
  method NextSymbol(bits: BitReader, c: Coding, ghost k: nat, left0: nat, selector0: nat, table0: Table)
      returns (r: Result<nat>, left: nat, selector: nat, table: Table)
    requires bits.Valid() && IsCoding(c) && Turn(c, k, left0, selector0, table0)
    modifies bits
    ensures bits.Valid()
    ensures r.Ok? ==> Turn(c, k + 1, left, selector, table)
    ensures if k >= GROUP_SIZE * |c.selectors| then r == Err(OutOfSelectors)
      else
        var d := DecodeSymbol(c.tables[c.selectors[k / GROUP_SIZE]], bits.bytes, old(bits.Position()));
        if d.Ok? then r == Ok(d.value.0) && bits.Position() == d.value.1 else r == Err(d.error)
  {
    left, selector, table := left0, selector0, table0;
    if left == 0 {
      left := GROUP_SIZE - 1;
      if selector >= |c.selectors| {
        r := Err(OutOfSelectors);
        return;
      }
      table := c.tables[c.selectors[selector]];
      selector := selector + 1;
    } else {
      left := left - 1;
    }
    assert k / GROUP_SIZE == selector - 1;
    r := ReadSymbol(bits, table);
  }

  method FillBuffer(bits: BitReader, a: Alphabet, c: Coding, buf: array<nat>, byteCount: array<nat>)
      returns (r: Result<nat>, ghost out: seq<byte>)
    requires bits.Valid() && IsAlphabet(a) && IsCoding(c)
    requires buf != byteCount && buf.Length == a.bufsize && byteCount.Length == 256
    requires Holds(buf[..], byteCount[..], [])
    modifies bits, buf, byteCount
    ensures bits.Valid()
    ensures var d := DecodeLoop(a, c, bits.bytes, old(bits.Position()), 0, InitialState());
      if d.Ok? then
        && d.value == (out, bits.Position())
        && r == Ok(|out|) && Holds(buf[..], byteCount[..], out)
      else r == Err(d.error)
  {
    hide Holds, Step, DecodeSymbol, IsAlphabet, IsTable, InitialOrder;
    var order: Order, runPos, t, count: nat := InitialOrder(), 0, 0, 0;
    var left: nat, selector: nat := 0, 0;
    var table: Table := Table([], [], [], 1, 1);
    ghost var s, k: nat := InitialState(), 0;
    ghost var whole := DecodeLoop(a, c, bits.bytes, bits.Position(), 0, s);
    out := [];
    while true
      invariant bits.Valid() && Turn(c, k, left, selector, table)
      invariant s == Registers(order, runPos, t, s.out) && |s.out| == count && Holds(buf[..], byteCount[..], s.out)
      invariant whole == DecodeLoop(a, c, bits.bytes, bits.Position(), k, s)
      decreases GROUP_SIZE * |c.selectors| - k
    {
      var sym;
      sym, left, selector, table := NextSymbol(bits, c, k, left, selector, table);
      if sym.Err? {
        r := Err(sym.error);
        return;
      }
      var done, failed, error;
      ghost var outcome := Step(a, s, sym.value);
      done, failed, error, order, runPos, t, count :=
        Apply(a, buf, byteCount, s, sym.value, order, runPos, t, count);
      if failed {
        r := Err(error);
        return;
      }
      if done {
        out := outcome.out;
        r := Ok(count);
        return;
      }
      s, k := outcome.state, k + 1;
    }
  }

  method DecodeSymbols(bits: BitReader, a: Alphabet, c: Coding)
      returns (r: Result<nat>, buf: array<nat>, byteCount: array<nat>, ghost out: seq<byte>)
    requires bits.Valid() && IsAlphabet(a) && IsCoding(c)
    modifies bits
    ensures bits.Valid() && fresh(buf) && fresh(byteCount) && buf != byteCount && buf.Length == a.bufsize
    ensures var d := DecodeLoop(a, c, bits.bytes, old(bits.Position()), 0, InitialState());
      if d.Ok? then
        && d.value == (out, bits.Position())
        && r == Ok(|out|) && Holds(buf[..], byteCount[..], out)
      else r == Err(d.error)
  {
    hide DecodeLoop;
    buf := new nat[a.bufsize](_ => 0);
    byteCount := new nat[256](_ => 0);
    HoldsNothing(buf[..], byteCount[..]);
    hide Holds;
    r, out := FillBuffer(bits, a, c, buf, byteCount);
  }
}
