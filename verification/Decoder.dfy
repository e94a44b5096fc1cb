/** `bzip2.decompress`, `bzip2.header` and `bzip2.simple`. */
module Decoder {
  import opened Bits
  import opened Outcomes
  import opened Rearrange
  import opened HuffmanDecode
  import opened Fields
  import opened Selectors
  import opened Rle
  import opened Bwt
  import opened Mtf
  import opened MtfRoundTrip
  import opened Symbols
  import opened Output

  /** What decompress returns: -1 for the end mark, or the text of a block. */
  datatype Chunk = EndMark | Text(text: seq<byte>)

  datatype Header = Header(origPtr: nat, used: seq<byte>, groupCount: nat, nSelectors: nat)

  /** The array `symToByte` for the used bytes. */
  function Padded(used: seq<byte>): (s: seq<byte>)
    requires |used| <= 256
    ensures |s| == 256 && Filled(s, used)
  {
    used + seq(256 - |used|, _ => 0)
  }

  function AlphabetOf(used: seq<byte>, bufsize: nat): (a: Alphabet)
    requires |used| <= 256 && bufsize <= 900000
    ensures IsAlphabet(a) && a.symTotal == |used| && a.bufsize == bufsize
  {
    Alphabet(Padded(used), |used|, bufsize)
  }

  // ----- the fields after the magic text

  function ReadHeader(bytes: seq<byte>, p: nat, bufsize: nat): (r: Result<(Header, nat)>)
    ensures r.Ok? ==> var (h, q) := r.value; |h.used| <= 256 && 2 <= h.groupCount <= 6 && h.nSelectors > 0 && q > p
  {
    var origPtr := Value(bytes, p + 33, 24);
    var (used, q) := ReadMap(bytes, p + 57);
    if BitAt(bytes, p + 32) != 0 then Err(ObsoleteVersion)
    else if origPtr > bufsize then Err(OrigPtrBeyondBuffer)
    else if Value(bytes, q, 3) < 2 || Value(bytes, q, 3) > 6 then Err(BadGroupCount)
    else if Value(bytes, q + 3, 15) == 0 then Err(NoSelectors)
    else Ok((Header(origPtr, used, Value(bytes, q, 3), Value(bytes, q + 3, 15)), q + 18))
  }

  method ReadHeaderFields(bits: BitReader, bufsize: nat)
      returns (r: Result<Header>, symToByte: array<byte>)
    requires bits.Valid()
    modifies bits
    ensures bits.Valid()
    ensures var h := ReadHeader(bits.bytes, old(bits.Position()), bufsize);
      if h.Ok? then r == Ok(h.value.0) && bits.Position() == h.value.1 && Filled(symToByte[..], h.value.0.used)
      else r == Err(h.error)
  {
    hide Value, BitAt, ReadMap, Filled, ToInt32;
    symToByte := NewBytes();
    ghost var p := bits.Position();
    var crc := bits.Bits(32);
    OneBit(bits.bytes, bits.Position());
    var obsolete := bits.Bits(1);
    if obsolete != 0 {
      return Err(ObsoleteVersion), symToByte;
    }
    var origPtr: nat := bits.Bits(24);
    if origPtr > bufsize {
      return Err(OrigPtrBeyondBuffer), symToByte;
    }
    var symTotal;
    ghost var used;
    symToByte, symTotal, used := ReadSymbolMap(bits);
    var groupCount: nat := bits.Bits(3);
    if groupCount < 2 || groupCount > 6 {
      return Err(BadGroupCount), symToByte;
    }
    var nSelectors: nat := bits.Bits(15);
    if nSelectors == 0 {
      return Err(NoSelectors), symToByte;
    }
    FilledPrefix(symToByte[..], used);
    r := Ok(Header(origPtr, symToByte[..symTotal], groupCount, nSelectors));
  }

  lemma FilledPrefix(s: seq<byte>, used: seq<byte>)
    requires Filled(s, used)
    ensures |s| == 256 && |used| <= 256 && s[..|used|] == used && s == Padded(used)
  {
  }

  function ReadCoding(bytes: seq<byte>, p: nat, h: Header): (r: Result<(Coding, nat)>)
    requires |h.used| <= 256 && 2 <= h.groupCount <= 6
    ensures r.Ok? ==> IsCoding(r.value.0) && r.value.1 >= p
  {
    var (selectors, q) :- ReadSelectors(bytes, p, h.nSelectors, h.groupCount);
    var (tables, q') :- TablesFrom(bytes, q, |h.used| + 2, h.groupCount);
    Ok((Coding(tables, selectors), q'))
  }

  method ReadCodingFields(bits: BitReader, h: Header) returns (r: Result<Coding>)
    requires bits.Valid() && |h.used| <= 256 && 2 <= h.groupCount <= 6 && h.nSelectors <= 32768
    modifies bits
    ensures bits.Valid()
    ensures var c := ReadCoding(bits.bytes, old(bits.Position()), h);
      if c.Ok? then r == Ok(c.value.0) && bits.Position() == c.value.1 else r == Err(c.error)
  {
    hide ReadSelectors, TablesFrom;
    var selectors := new nat[32768](_ => 0);
    var ok := ReadSelectorArray(bits, selectors, h.nSelectors, h.groupCount);
    if ok.Err? {
      return Err(ok.error);
    }
    var tables := ReadTables(bits, |h.used| + 2, h.groupCount);
    if tables.Err? {
      return Err(tables.error);
    }
    return Ok(Coding(tables.value, selectors[..h.nSelectors]));
  }

  // ----- a block

  /** The text of a block from its buffer. */
  ghost function Finish(out: seq<byte>, origPtr: nat, len: nat): Result<seq<byte>>
  {
    if origPtr >= |out| then Err(OrigPtrBeyondBlock) else Ok(Limited(Decoded(out, origPtr), len))
  }

  /** The body of a block: p is the position after its magic text. */
  ghost function DecodeBody(bytes: seq<byte>, p: nat, size: nat, len: nat): Result<(seq<byte>, nat)>
    requires size <= 9
  {
    var bufsize := 100000 * size;
    var (h, q) :- ReadHeader(bytes, p, bufsize);
    var (c, q') :- ReadCoding(bytes, q, h);
    var (out, q'') :- DecodeLoop(AlphabetOf(h.used, bufsize), c, bytes, q', 0, InitialState());
    var text :- Finish(out, h.origPtr, len);
    Ok((text, q''))
  }

  /** What stands at p: the end mark, a block, or something else. */
  ghost function DecodeBlock(bytes: seq<byte>, p: nat, size: nat, len: nat): Result<(Chunk, nat)>
    requires size <= 9
  {
    if BytesAt(bytes, p, 6) == END_MAGIC then Ok((EndMark, p + 48))
    else if BytesAt(bytes, p, 6) != BLOCK_MAGIC then Err(NotBlockData)
    else
      var (text, q) :- DecodeBody(bytes, p + 48, size, len);
      Ok((Text(text), q))
  }

  function FirstBytes(t: seq<byte>, len: nat): seq<byte> { t[..if |t| < len then |t| else len] }

  lemma FinishCuts(out: seq<byte>, origPtr: nat, len: nat)
    requires len > 0
    ensures var f, g := Finish(out, origPtr, len), Finish(out, origPtr, 0);
      if g.Ok? then f == Ok(FirstBytes(g.value, len)) else f == g
  {
    if origPtr < |out| {
      var t := Decoded(out, origPtr);
      assert t[..|t|] == t;
    }
    hide Decoded;
  }

  lemma BodyCuts(bytes: seq<byte>, p: nat, size: nat, len: nat)
    requires size <= 9 && len > 0
    ensures var d, e := DecodeBody(bytes, p, size, len), DecodeBody(bytes, p, size, 0);
      if e.Ok? then d == Ok((FirstBytes(e.value.0, len), e.value.1)) else d == e
  {
    var h := ReadHeader(bytes, p, 100000 * size);
    if h.Ok? {
      var c := ReadCoding(bytes, h.value.1, h.value.0);
      if c.Ok? {
        var b := DecodeLoop(AlphabetOf(h.value.0.used, 100000 * size), c.value.0, bytes, c.value.1, 0, InitialState());
        if b.Ok? { FinishCuts(b.value.0, h.value.0.origPtr, len); }
      }
    }
    hide ReadHeader, ReadCoding, DecodeLoop, Finish, FirstBytes;
  }

  /** With a limit of len bytes a block reads as without one, but of its text only the first len bytes are left. */
  lemma LimitCuts(bytes: seq<byte>, p: nat, size: nat, len: nat)
    requires size <= 9 && len > 0
    ensures var d, e := DecodeBlock(bytes, p, size, len), DecodeBlock(bytes, p, size, 0);
      if e.Ok? && e.value.0.Text? then d == Ok((Text(FirstBytes(e.value.0.text, len)), e.value.1)) else d == e
  {
    BodyCuts(bytes, p + 48, size, len);
    hide BytesAt, DecodeBody, FirstBytes;
  }

  method FinishBlock(buf: array<nat>, byteCount: array<nat>, count: nat, origPtr: nat, len: nat, ghost out: seq<byte>)
      returns (r: Result<seq<byte>>)
    requires buf != byteCount && Holds(buf[..], byteCount[..], out) && |out| == count <= 900000
    modifies buf, byteCount
    ensures r == Finish(out, origPtr, len)
  {
    if origPtr >= count {
      return Err(OrigPtrBeyondBlock);
    }
    HoldsSlots(buf[..], byteCount[..], out);
    assert buf[..][..count] == buf[..count];
    SortPointers(buf, byteCount, count);
    hide Packed, Decoded;
    var text := Unwind(buf, origPtr, count, len, out);
    return Ok(text);
  }

  lemma HoldsSlots(buf: seq<nat>, byteCount: seq<nat>, out: seq<byte>)
    requires Holds(buf, byteCount, out)
    ensures LowBytes(buf[..|out|]) == out
    ensures forall i :: 0 <= i < |out| ==> buf[i] < 0x100
    ensures forall v {:trigger byteCount[v]} :: 0 <= v < 256 ==>
      byteCount[v] == Count(LowBytes(buf[..|out|]), v, |out|)
  {
    assert LowBytes(buf[..|out|]) == out;
  }

  lemma {:induction false} LoopFillsBuffer(a: Alphabet, c: Coding, bytes: seq<byte>, p: nat, k: nat, s: State)
    requires IsAlphabet(a) && IsCoding(c) && |s.out| <= a.bufsize
    ensures var d := DecodeLoop(a, c, bytes, p, k, s); d.Ok? ==> |d.value.0| <= a.bufsize
    decreases GROUP_SIZE * |c.selectors| - k
  {
    hide DecodeSymbol;
    if k < GROUP_SIZE * |c.selectors| {
      var d := DecodeSymbol(c.tables[c.selectors[k / GROUP_SIZE]], bytes, p);
      if d.Ok? && Step(a, s, d.value.0).More? {
        LoopFillsBuffer(a, c, bytes, d.value.1, k + 1, Step(a, s, d.value.0).state);
      }
    }
  }

  method DecompressBody(bits: BitReader, size: nat, len: nat) returns (r: Result<seq<byte>>)
    requires bits.Valid() && size <= 9
    modifies bits
    ensures bits.Valid()
    ensures var d := DecodeBody(bits.bytes, old(bits.Position()), size, len);
      if d.Ok? then r == Ok(d.value.0) && bits.Position() == d.value.1 else r == Err(d.error)
  {
    hide ReadHeader, ReadCoding, DecodeLoop, Finish, Value, ReadMap;
    var bufsize := 100000 * size;
    var h, symToByte := ReadHeaderFields(bits, bufsize);
    if h.Err? {
      return Err(h.error);
    }
    var header := h.value;
    SelectorCount(bits.bytes, old(bits.Position()), bufsize);
    FilledPrefix(symToByte[..], header.used);
    var c := ReadCodingFields(bits, header);
    if c.Err? {
      return Err(c.error);
    }
    var a := Alphabet(symToByte[..], |header.used|, bufsize);
    assert a == AlphabetOf(header.used, bufsize);
    LoopFillsBuffer(a, c.value, bits.bytes, bits.Position(), 0, InitialState());
    var count, buf, byteCount;
    ghost var out;
    count, buf, byteCount, out := DecodeSymbols(bits, a, c.value);
    if count.Err? {
      return Err(count.error);
    }
    r := FinishBlock(buf, byteCount, count.value, header.origPtr, len, out);
  }

  lemma SelectorCount(bytes: seq<byte>, p: nat, bufsize: nat)
    ensures var r := ReadHeader(bytes, p, bufsize); r.Ok? ==> r.value.0.nSelectors < 32768
  {
    hide Value, ReadMap, Pow2;
    var (used, q) := ReadMap(bytes, p + 57);
    ValueBound(bytes, q + 3, 15);
    FieldWidths();
  }

  /** `bzip2.decompress(bits, size, len)`. */
  method Decompress(bits: BitReader, size: nat, len: nat) returns (r: Result<Chunk>)
    requires bits.Valid() && size <= 9
    modifies bits
    ensures bits.Valid()
    ensures var d := DecodeBlock(bits.bytes, old(bits.Position()), size, len);
      if d.Ok? then r == Ok(d.value.0) && bits.Position() == d.value.1 else r == Err(d.error)
  {
    hide DecodeBody, BytesAt;
    var h := ReadMagic(bits);
    if h == "177245385090" {
      return Ok(EndMark);
    }
    if h != "314159265359" {
      return Err(NotBlockData);
    }
    var text := DecompressBody(bits, size, len);
    if text.Err? {
      return Err(text.error);
    }
    return Ok(Text(text.value));
  }
}
