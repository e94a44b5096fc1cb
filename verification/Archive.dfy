/** `bzip2.header` and `bzip2.simple`: a whole compressed file. */
module Archive {
  import opened Bits
  import opened Outcomes
  import opened Huffman
  import opened HuffmanDecode
  import opened HuffmanBuild
  import opened Fields
  import opened Mtf
  import opened MtfRoundTrip
  import opened Symbols
  import opened Decoder

  /** "BZh" and a digit: the block size in units of 100000 bytes. */
  function ReadLevel(bytes: seq<byte>, p: nat): (r: Result<(nat, nat)>)
    ensures r.Ok? ==> 1 <= r.value.0 <= 9
  {
    if Value(bytes, p, 24) != 4348520 then Err(NoMagicNumber)
    else
      var i := Value(bytes, p + 24, 8) - 48;
      if i < 1 || i > 9 then Err(NotBzipArchive) else Ok((i, p + 32))
  }

  method ReadFileHeader(bits: BitReader) returns (r: Result<nat>)
    requires bits.Valid()
    modifies bits
    ensures bits.Valid()
    ensures var l := ReadLevel(bits.bytes, old(bits.Position()));
      if l.Ok? then r == Ok(l.value.0) && bits.Position() == l.value.1 else r == Err(l.error)
  {
    hide Value;
    var magic := bits.Bits(24);
    if magic != 4348520 {
      return Err(NoMagicNumber);
    }
    var digit := bits.Bits(8);
    var i := digit - 48;
    if i < 1 || i > 9 {
      return Err(NotBzipArchive);
    }
    return Ok(i);
  }

  // ----- a block moves the reader on

  lemma SymbolAdvances(t: Table, bytes: seq<byte>, p: nat)
    requires IsTable(t)
    ensures var d := DecodeSymbol(t, bytes, p); d.Ok? ==> d.value.1 >= p
  {
    hide DecodeSymbol, Stop, Value, Accepts;
    SymbolStops(t, bytes, p);
  }

  lemma {:induction false} LoopAdvances(a: Alphabet, c: Coding, bytes: seq<byte>, p: nat, k: nat, s: State)
    requires IsAlphabet(a) && IsCoding(c)
    ensures var d := DecodeLoop(a, c, bytes, p, k, s); d.Ok? ==> d.value.1 >= p
    decreases GROUP_SIZE * |c.selectors| - k
  {
    hide DecodeSymbol, Step, IsTable, IsAlphabet;
    if k < GROUP_SIZE * |c.selectors| {
      var t := c.tables[c.selectors[k / GROUP_SIZE]];
      SymbolAdvances(t, bytes, p);
      var d := DecodeSymbol(t, bytes, p);
      if d.Ok? && Step(a, s, d.value.0).More? {
        LoopAdvances(a, c, bytes, d.value.1, k + 1, Step(a, s, d.value.0).state);
      }
    }
  }

  lemma BodyAdvances(bytes: seq<byte>, p: nat, size: nat, len: nat)
    requires size <= 9
    ensures var d := DecodeBody(bytes, p, size, len); d.Ok? ==> d.value.1 >= p
  {
    hide ReadHeader, ReadCoding, DecodeLoop, Finish, AlphabetOf, IsAlphabet, IsCoding;
    var h := ReadHeader(bytes, p, 100000 * size);
    if h.Ok? {
      var c := ReadCoding(bytes, h.value.1, h.value.0);
      if c.Ok? {
        LoopAdvances(AlphabetOf(h.value.0.used, 100000 * size), c.value.0, bytes, c.value.1, 0, InitialState());
      }
    }
  }

  /** Past the end there are only zeros, so no block starts there. */
  lemma NoMagicPastEnd(bytes: seq<byte>, p: nat)
    requires BytesAt(bytes, p, 6) == BLOCK_MAGIC
    ensures p < 8 * |bytes|
  {
    assert BytesAt(bytes, p, 6)[0] == 0x31;
    FirstByte(bytes, p, 6);
    if p >= 8 * |bytes| {
      ZerosPastEnd(bytes, p, 8);
    }
  }

  lemma {:induction false} FirstByte(bytes: seq<byte>, p: nat, n: nat)
    requires n > 0
    ensures BytesAt(bytes, p, n)[0] == OneByte(bytes, p)
  {
    hide OneByte;
    if n > 1 { FirstByte(bytes, p, n - 1); }
  }

  lemma {:induction false} ZerosPastEnd(bytes: seq<byte>, p: nat, n: nat)
    requires p >= 8 * |bytes|
    ensures Value(bytes, p, n) == 0
  {
    if n > 0 {
      ZerosPastEnd(bytes, p, n - 1);
      EndOfBits(bytes, p + n - 1);
      hide BitAt;
    }
  }

  lemma BlockAdvances(bytes: seq<byte>, p: nat, size: nat, len: nat)
    requires size <= 9
    ensures var d := DecodeBlock(bytes, p, size, len);
      d.Ok? ==> d.value.1 > p && (d.value.0.Text? ==> p < 8 * |bytes|)
  {
    if BytesAt(bytes, p, 6) == BLOCK_MAGIC { NoMagicPastEnd(bytes, p); }
    hide DecodeBody, BytesAt;
    BodyAdvances(bytes, p + 48, size, len);
  }

  // ----- all blocks

  /** The loop of simple. A text that JavaScript finds loosely equal to -1 ends it just as
      the end mark does; which texts those are is the parameter `stops`. */
  ghost function DecodeBlocks(bytes: seq<byte>, p: nat, size: nat, stops: seq<byte> -> bool): Result<(seq<byte>, nat)>
    requires size <= 9
    decreases if p < 8 * |bytes| then 8 * |bytes| - p else 0
  {
    var (chunk, q) :- DecodeBlock(bytes, p, size, 0);
    if chunk.EndMark? || stops(chunk.text) then Ok(([], q))
    else
      BlockAdvances(bytes, p, size, 0);
      var (rest, q') :- DecodeBlocks(bytes, q, size, stops);
      Ok((chunk.text + rest, q'))
  }

  ghost function DecodeArchive(bytes: seq<byte>, stops: seq<byte> -> bool): Result<(seq<byte>, nat)>
  {
    var (size, p) :- ReadLevel(bytes, 0);
    DecodeBlocks(bytes, p, size, stops)
  }

  /** Text already decoded, in front of what is still to come. */
  ghost function Joined(done: seq<byte>, rest: Result<(seq<byte>, nat)>): Result<(seq<byte>, nat)>
  {
    if rest.Ok? then Ok((done + rest.value.0, rest.value.1)) else Err(rest.error)
  }

  lemma AppendStep(bytes: seq<byte>, p: nat, size: nat, stops: seq<byte> -> bool, done: seq<byte>)
    requires size <= 9
    ensures var d := DecodeBlock(bytes, p, size, 0);
      Joined(done, DecodeBlocks(bytes, p, size, stops)) ==
        if d.Err? then Err(d.error)
        else if d.value.0.EndMark? || stops(d.value.0.text) then Ok((done, d.value.1))
        else Joined(done + d.value.0.text, DecodeBlocks(bytes, d.value.1, size, stops))
  {
    hide DecodeBlock;
    var d := DecodeBlock(bytes, p, size, 0);
    if d.Ok? {
      if d.value.0.EndMark? || stops(d.value.0.text) {
        assert done + [] == done;
      } else {
        BlockAdvances(bytes, p, size, 0);
        var rest := DecodeBlocks(bytes, d.value.1, size, stops);
        if rest.Ok? {
          assert done + (d.value.0.text + rest.value.0) == done + d.value.0.text + rest.value.0;
        }
      }
    }
  }

  lemma AppendNone(rest: Result<(seq<byte>, nat)>)
    ensures Joined([], rest) == rest
  {
    if rest.Ok? { assert [] + rest.value.0 == rest.value.0; }
  }

  /** `bzip2.simple(bits)`: the texts of all blocks, one after the other. */
  method Simple(bits: BitReader, stops: seq<byte> -> bool) returns (r: Result<seq<byte>>)
    requires bits.Valid() && bits.Position() == 0
    modifies bits
    ensures bits.Valid()
    ensures var d := DecodeArchive(bits.bytes, stops);
      if d.Ok? then r == Ok(d.value.0) && bits.Position() == d.value.1 else r == Err(d.error)
  {
    hide ReadLevel, DecodeBlocks, DecodeBlock;
    var size := ReadFileHeader(bits);
    if size.Err? {
      return Err(size.error);
    }
    ghost var whole := DecodeBlocks(bits.bytes, bits.Position(), size.value, stops);
    var all, chunk: seq<byte> := [], [];
    AppendNone(whole);
    hide Joined;
    while true
      invariant bits.Valid()
      invariant whole == Joined(all + chunk, DecodeBlocks(bits.bytes, bits.Position(), size.value, stops))
      decreases if bits.Position() < 8 * |bits.bytes| then 8 * |bits.bytes| - bits.Position() else 0
    {
      all := all + chunk;
      AppendStep(bits.bytes, bits.Position(), size.value, stops, all);
      BlockAdvances(bits.bytes, bits.Position(), size.value, 0);
      var block := Decompress(bits, size.value, 0);
      if block.Err? {
        return Err(block.error);
      }
      if block.value.EndMark? || stops(block.value.text) {
        break;
      }
      chunk := block.value.text;
    }
    return Ok(all);
  }
}
