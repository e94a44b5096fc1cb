/** A reference encoder for whole blocks, and the round trip through decompress. */
module BlockRoundTrip {
  import opened Bits
  import opened Outcomes
  import opened Huffman
  import opened Fields
  import opened MapRoundTrip
  import opened Selectors
  import opened SelectorRecency
  import opened Rle
  import opened Bwt
  import opened Mtf
  import opened MtfRoundTrip
  import opened Recency
  import opened Symbols
  import opened SymbolsRoundTrip
  import opened Output
  import opened Decoder

  /** Everything an encoder chooses for one block. */
  datatype Block = Block(
    crc: seq<bit>,
    runs: seq<Run>,           // the text, cut into runs
    last: seq<byte>,          // the last column of the sorted rotations of the run-length code
    origPtr: nat,             // a row of the sorted rotations that equals the code
    used: seq<byte>,          // the bytes in use, and perhaps more
    codes: seq<Lengths>,      // code lengths of the 2..6 tables
    starts: seq<nat>,         // where the delta coding of each table's lengths starts
    selectors: seq<nat>)      // which table codes each group of 50 symbols

  function BlockAlphabet(b: Block, size: nat): (a: Alphabet)
    requires size <= 9 && |b.used| <= 256
    ensures IsAlphabet(a)
  {
    AlphabetOf(b.used, 100000 * size)
  }

  /** A block that some encoder may write, whatever its length. */
  ghost predicate Prepared(b: Block, size: nat)
  {
    && size <= 9 && |b.crc| == 32
    && Encodable(b.runs) && IsTransform(b.last, b.origPtr, RunLengthCode(b.runs))
    && |b.last| < 0xffff_ffff && b.origPtr < 0x100_0000
    && 1 <= |b.used| <= 256 && Ascending(b.used) && (forall i :: 0 <= i < |b.last| ==> b.last[i] in b.used)
    && 2 <= |b.codes| <= 6 && |b.starts| == |b.codes| && Startable(b.starts)
    && UsableCodes(b.codes, |b.used| + 2)
    && 1 <= |b.selectors| < 0x8000 && UsableSelectors(b.codes, b.selectors)
  }

  lemma PreparedSpells(b: Block, size: nat)
    requires Prepared(b, size)
    ensures Spells(BlockAlphabet(b, size), b.last)
    ensures Orders(InitialOrder(), |b.used|)
  {
    InitialOrders(|b.used|);
    var a := BlockAlphabet(b, size);
    forall i | 0 <= i < |b.last| ensures InAlphabet(a, b.last[i]) {
      var k :| 0 <= k < |b.used| && b.used[k] == b.last[i];
      assert a.symToByte[k] == b.last[i];
    }
  }

  /** The symbols of the block. */
  ghost function SymbolsOf(b: Block, size: nat): seq<nat>
    requires Prepared(b, size)
  {
    RecencySymbols(BlockAlphabet(b, size), b.last)
  }

  lemma AlphabetAscends(b: Block, size: nat)
    requires Prepared(b, size)
    ensures AscendingBytes(BlockAlphabet(b, size))
  {
    var a := BlockAlphabet(b, size);
    assert forall i :: 0 <= i < a.symTotal ==> a.symToByte[i] == b.used[i];
  }

  /** The same symbols come from a list that is moved. */
  lemma SymbolsAreMoved(b: Block, size: nat)
    requires Prepared(b, size)
    ensures Spells(BlockAlphabet(b, size), b.last) && Orders(InitialOrder(), |b.used|)
    ensures SymbolsOf(b, size) == Encode(BlockAlphabet(b, size), InitialOrder(), 0, b.last)
  {
    PreparedSpells(b, size);
    AlphabetAscends(b, size);
    hide Prepared, Encode, ByRecency, AscendingBytes, PositionCode, Positions;
    InitialRecency(BlockAlphabet(b, size));
    EncodeIsRecency(BlockAlphabet(b, size), InitialOrder(), [], 0, b.last);
  }

  /** There is a selector for every group of symbols. */
  ghost predicate EnoughSelectors(b: Block, size: nat)
    requires Prepared(b, size)
  {
    |SymbolsOf(b, size)| <= 50 * |b.selectors|
  }

  /** The block fits the buffer. It may fill the buffer only if it does not end in a run. */
  predicate BlockFits(b: Block, size: nat)
    requires |b.used| > 0
  {
    |b.last| < 100000 * size || (|b.last| == 100000 * size && !EndsInRun(b.used[0], b.last))
  }

  function HeaderBits(b: Block): seq<bit>
  {
    b.crc + [0] + BigEndian(b.origPtr, 24) + MapBits(b.used) + BigEndian(|b.codes|, 3) + BigEndian(|b.selectors|, 15)
  }

  function CodingBits(b: Block): seq<bit>
    requires |b.starts| == |b.codes|
  {
    RankBits(|b.codes|, [], b.selectors) + TableBits(b.codes, b.starts)
  }

  ghost function BodyBits(b: Block, size: nat): seq<bit>
    requires Prepared(b, size)
  {
    HeaderBits(b) + (CodingBits(b) + WriteSymbols(b.codes, b.selectors, SymbolsOf(b, size), 0))
  }

  /** The bits of a whole block. */
  ghost function BlockBits(b: Block, size: nat): seq<bit>
    requires Prepared(b, size)
  {
    MagicBits(BLOCK_MAGIC) + BodyBits(b, size)
  }

  // ----- the header comes back

  lemma FieldRead(bytes: seq<byte>, p: nat, v: nat, n: nat, rest: seq<bit>)
    requires At(bytes, p, BigEndian(v, n) + rest) && v < Pow2(n)
    ensures Value(bytes, p, n) == v && At(bytes, p + n, rest)
  {
    hide At, BigEndian, Value, Pow2;
    AtConcat(bytes, p, BigEndian(v, n), rest);
    ReadBack(bytes, p, v, n);
  }

  lemma HeaderParts(b: Block)
    ensures HeaderBits(b) == b.crc + ([0] + (BigEndian(b.origPtr, 24) + (MapBits(b.used) +
      (BigEndian(|b.codes|, 3) + (BigEndian(|b.selectors|, 15) + [])))))
  {
    hide BigEndian, MapBits;
  }

  lemma HeaderReads(bytes: seq<byte>, p: nat, b: Block, bufsize: nat)
    requires |b.crc| == 32 && b.origPtr < 0x100_0000 && Ascending(b.used) && |b.used| <= 256
    requires 2 <= |b.codes| <= 6 && 1 <= |b.selectors| < 0x8000
    requires At(bytes, p, HeaderBits(b))
    ensures ReadHeader(bytes, p, bufsize) ==
      if b.origPtr > bufsize then Err(OrigPtrBeyondBuffer)
      else Ok((Header(b.origPtr, b.used, |b.codes|, |b.selectors|), p + |HeaderBits(b)|))
  {
    HeaderParts(b);
    FieldWidths();
    hide At, BigEndian, MapBits, Value, Pow2, ReadMap, HeaderBits, BitAt;
    var selectors := BigEndian(|b.selectors|, 15) + [];
    var groups := BigEndian(|b.codes|, 3) + selectors;
    var rows := MapBits(b.used) + groups;
    var ptr := BigEndian(b.origPtr, 24) + rows;
    AtConcat(bytes, p, b.crc, [0] + ptr);
    AtConcat(bytes, p + 32, [0], ptr);
    ZeroBit(bytes, p + 32);
    FieldRead(bytes, p + 33, b.origPtr, 24, rows);
    AtConcat(bytes, p + 57, MapBits(b.used), groups);
    MapReadBack(b.used, bytes, p + 57);
    var q := p + 57 + |MapBits(b.used)|;
    FieldRead(bytes, q, |b.codes|, 3, selectors);
    FieldRead(bytes, q + 3, |b.selectors|, 15, []);
  }

  lemma ZeroBit(bytes: seq<byte>, p: nat)
    requires At(bytes, p, [0])
    ensures BitAt(bytes, p) == 0
  {
    hide BitAt;
    assert BitAt(bytes, p + 0) == [0][0];
  }

  /** The part of Prepared that concerns tables and selectors. */
  ghost predicate CodingUsable(b: Block, symCount: nat)
  {
    && 2 <= |b.codes| <= 6 && |b.starts| == |b.codes| && Startable(b.starts)
    && UsableCodes(b.codes, symCount) && UsableSelectors(b.codes, b.selectors)
  }

  lemma CodingJoins(bytes: seq<byte>, p: nat, h: Header, selectors: seq<nat>, q: nat, tables: seq<Table>, q': nat)
    requires |h.used| <= 256 && 2 <= h.groupCount <= 6
    requires ReadSelectors(bytes, p, h.nSelectors, h.groupCount) == Ok((selectors, q))
    requires TablesFrom(bytes, q, |h.used| + 2, h.groupCount) == Ok((tables, q'))
    ensures ReadCoding(bytes, p, h) == Ok((Coding(tables, selectors), q'))
  {
    hide ReadSelectors, TablesFrom, IsCoding;
  }

  lemma CodingReads(bytes: seq<byte>, p: nat, b: Block, h: Header)
    requires h.groupCount == |b.codes| && h.nSelectors == |b.selectors| && |h.used| <= 256
    requires CodingUsable(b, |h.used| + 2) && At(bytes, p, CodingBits(b))
    ensures ReadCoding(bytes, p, h) == Ok((Coding(TablesOf(b.codes), b.selectors), p + |CodingBits(b)|))
  {
    hide *;
    CodingParts(bytes, p, b, |h.used| + 2);
    var first := RankBits(|b.codes|, [], b.selectors);
    SelectorsPart(bytes, p, b, |h.used| + 2);
    TablesPart(bytes, p + |first|, b, |h.used| + 2);
    CodingJoins(bytes, p, h, b.selectors, p + |first|, TablesOf(b.codes), p + |CodingBits(b)|);
  }

  lemma CodingParts(bytes: seq<byte>, p: nat, b: Block, symCount: nat)
    requires CodingUsable(b, symCount) && At(bytes, p, CodingBits(b))
    ensures 2 <= |b.codes| <= 6 && |b.starts| == |b.codes|
    ensures var first := RankBits(|b.codes|, [], b.selectors);
      && At(bytes, p, first) && At(bytes, p + |first|, TableBits(b.codes, b.starts))
      && |CodingBits(b)| == |first| + |TableBits(b.codes, b.starts)|
  {
    hide At, RankBits, TableBits, Startable, UsableCodes, UsableSelectors;
    AtConcat(bytes, p, RankBits(|b.codes|, [], b.selectors), TableBits(b.codes, b.starts));
  }

  lemma SelectorsPart(bytes: seq<byte>, p: nat, b: Block, symCount: nat)
    requires CodingUsable(b, symCount) && At(bytes, p, RankBits(|b.codes|, [], b.selectors))
    ensures ReadSelectors(bytes, p, |b.selectors|, |b.codes|)
         == Ok((b.selectors, p + |RankBits(|b.codes|, [], b.selectors)|))
  {
    hide At, RankBits, Startable, UsableCodes, ReadSelectors;
    RanksReadBack(bytes, p, b.selectors, |b.codes|);
  }

  lemma UsableParts(b: Block, symCount: nat)
    requires CodingUsable(b, symCount)
    ensures |b.starts| == |b.codes| && Startable(b.starts) && UsableCodes(b.codes, symCount)
  {
    hide Startable, UsableCodes;
  }

  lemma TablesPart(bytes: seq<byte>, p: nat, b: Block, symCount: nat)
    requires CodingUsable(b, symCount) && 2 <= symCount <= 258 && At(bytes, p, TableBits(b.codes, b.starts))
    ensures TablesFrom(bytes, p, symCount, |b.codes|) == Ok((TablesOf(b.codes), p + |TableBits(b.codes, b.starts)|))
  {
    hide *;
    UsableParts(b, symCount);
    CodesHaveCount(b.codes, symCount);
    TablesReadBack(bytes, p, b.codes, b.starts, symCount);
  }

  lemma CodesHaveCount(codes: seq<Lengths>, symCount: nat)
    requires UsableCodes(codes, symCount)
    ensures forall i :: 0 <= i < |codes| ==> |codes[i]| == symCount
  {
  }

  // ----- the symbols come back

  /** An encoding ends in its only end mark. */
  lemma {:induction false} EncodeTerminated(a: Alphabet, order: Order, r: nat, text: seq<byte>)
    requires IsAlphabet(a) && 1 <= a.symTotal && Orders(order, a.symTotal) && Spells(a, text)
    ensures Terminated(a, Encode(a, order, r, text))
    ensures |Encode(a, order, r, text)| <= r + |text| + 1
    decreases |text|
  {
    DigitsOfLength(r);
    DigitsShort(r);
    hide Digits, Position, MoveToFront;
    if text != [] {
      SpellsTail(a, text);
      var i := Position(a, order, text[0]);
      if i == 0 {
        EncodeTerminated(a, order, r + 1, text[1..]);
      } else {
        MoveKeepsOrder(order, a.symTotal, i);
        EncodeTerminated(a, MoveToFront(order, i), 0, text[1..]);
        TerminatedMore(a, Digits(r) + [i + 1], Encode(a, MoveToFront(order, i), 0, text[1..]));
      }
    }
  }

  lemma {:induction false} DigitsShort(r: nat)
    ensures |Digits(r)| <= r
  {
    if r > 0 {
      var d, h := DigitsStep(r);
      DigitsShort(h);
    }
  }

  lemma TerminatedMore(a: Alphabet, syms: seq<nat>, rest: seq<nat>)
    requires Terminated(a, rest) && forall i :: 0 <= i < |syms| ==> syms[i] <= a.symTotal
    ensures Terminated(a, syms + rest)
  {
  }

  /** Whether decoding gives back the last column is decided by its length alone. */
  lemma SymbolsDecide(b: Block, size: nat)
    requires Prepared(b, size)
    ensures var d := Fold(BlockAlphabet(b, size), InitialState(), SymbolsOf(b, size));
      if BlockFits(b, size) then d == Ok(b.last) else d.Err?
  {
    PreparedSpells(b, size);
    AlphabetAscends(b, size);
    var a := BlockAlphabet(b, size);
    assert a.symToByte[0] == b.used[0];
    hide Fold, RecencySymbols, Prepared, AscendingBytes;
    RecencyRoundTrip(a, b.last);
  }

  lemma SymbolsWritten(bytes: seq<byte>, p: nat, b: Block, size: nat)
    requires Prepared(b, size) && EnoughSelectors(b, size)
    requires At(bytes, p, WriteSymbols(b.codes, b.selectors, SymbolsOf(b, size), 0))
    ensures Written(BlockAlphabet(b, size), b.codes, b.selectors, SymbolsOf(b, size), bytes, p, 0)
  {
    SymbolsAreMoved(b, size);
    hide At, Encode, SymbolsOf, IsTransform, Encodable, RunLengthCode;
    EncodeTerminated(BlockAlphabet(b, size), InitialOrder(), 0, b.last);
  }

  lemma SymbolsDecode(bytes: seq<byte>, p: nat, b: Block, size: nat)
    requires Prepared(b, size) && EnoughSelectors(b, size)
    requires At(bytes, p, WriteSymbols(b.codes, b.selectors, SymbolsOf(b, size), 0))
    ensures Agrees(BlockAlphabet(b, size), b.codes, b.selectors, SymbolsOf(b, size), bytes, p, 0, InitialState())
  {
    SymbolsWritten(bytes, p, b, size);
    hide Prepared, EnoughSelectors, At, WriteSymbols, Written, Agrees, SymbolsOf;
    WrittenSymbolsDecode(BlockAlphabet(b, size), b.codes, b.selectors, SymbolsOf(b, size), bytes, p, 0, InitialState());
  }

  // ----- the whole block

  /** The text of the block, from its last column. */
  lemma TextReads(b: Block, size: nat)
    requires Prepared(b, size)
    ensures Finish(b.last, b.origPtr, 0) == Ok(PlainText(b.runs))
  {
    hide IsTransform, Encodable, Decoded, PlainText, RunLengthCode, UsableCodes, Ascending;
    DecodedInverts(b.last, b.origPtr, b.runs);
  }

  lemma BodyParts(bytes: seq<byte>, p: nat, b: Block, size: nat)
    requires Prepared(b, size) && At(bytes, p, BodyBits(b, size))
    ensures At(bytes, p, HeaderBits(b))
    ensures At(bytes, p + |HeaderBits(b)|, CodingBits(b))
    ensures At(bytes, p + |HeaderBits(b)| + |CodingBits(b)|, WriteSymbols(b.codes, b.selectors, SymbolsOf(b, size), 0))
    ensures |BodyBits(b, size)| ==
      |HeaderBits(b)| + |CodingBits(b)| + |WriteSymbols(b.codes, b.selectors, SymbolsOf(b, size), 0)|
  {
    hide *;
    BodyIs(b, size);
    ThreeParts(bytes, p, HeaderBits(b), CodingBits(b), WriteSymbols(b.codes, b.selectors, SymbolsOf(b, size), 0));
  }

  lemma BodyIs(b: Block, size: nat)
    requires Prepared(b, size)
    ensures |b.starts| == |b.codes|
    ensures BodyBits(b, size)
         == HeaderBits(b) + (CodingBits(b) + WriteSymbols(b.codes, b.selectors, SymbolsOf(b, size), 0))
  {
    hide HeaderBits, CodingBits, WriteSymbols, SymbolsOf;
  }

  lemma ThreeParts(bytes: seq<byte>, p: nat, a: seq<bit>, b: seq<bit>, c: seq<bit>)
    requires At(bytes, p, a + (b + c))
    ensures At(bytes, p, a) && At(bytes, p + |a|, b) && At(bytes, p + |a| + |b|, c)
    ensures |a + (b + c)| == |a| + |b| + |c|
  {
    hide At;
    AtConcat(bytes, p, a, b + c);
    AtConcat(bytes, p + |a|, b, c);
  }

  /** The three stages of the body, put together. */
  lemma StagesCompose(bytes: seq<byte>, p: nat, size: nat, h: Header, q: nat, c: Coding, q': nat,
      out: Result<seq<byte>>, q'': nat)
    requires size <= 9 && ReadHeader(bytes, p, 100000 * size) == Ok((h, q))
    requires |h.used| <= 256 && 2 <= h.groupCount <= 6 && ReadCoding(bytes, q, h) == Ok((c, q')) && IsCoding(c)
    requires DecodeLoop(AlphabetOf(h.used, 100000 * size), c, bytes, q', 0, InitialState()) == Ended(out, q'')
    ensures DecodeBody(bytes, p, size, 0) == Finished(out, h.origPtr, q'')
  {
    hide ReadHeader, ReadCoding, DecodeLoop, Finish, IsCoding, AlphabetOf, InitialState;
  }

  /** The stages of a written body, up to what the symbol machine makes of the symbols. */
  lemma BodyDecodes(bytes: seq<byte>, p: nat, b: Block, size: nat)
    requires Prepared(b, size) && EnoughSelectors(b, size) && At(bytes, p, BodyBits(b, size))
    ensures b.origPtr > 100000 * size ==> DecodeBody(bytes, p, size, 0).Err?
    ensures b.origPtr <= 100000 * size ==>
      DecodeBody(bytes, p, size, 0) == Finished(Fold(BlockAlphabet(b, size), InitialState(), SymbolsOf(b, size)),
                                                b.origPtr, p + |BodyBits(b, size)|)
  {
    hide *;
    PreparedParts(b, size);
    BodyParts(bytes, p, b, size);
    HeaderReads(bytes, p, b, 100000 * size);
    if b.origPtr > 100000 * size {
      HeaderStops(bytes, p, size);
    } else {
      var h := Header(b.origPtr, b.used, |b.codes|, |b.selectors|);
      CodingReads(bytes, p + |HeaderBits(b)|, b, h);
      SymbolsDecode(bytes, p + |HeaderBits(b)| + |CodingBits(b)|, b, size);
      var c := Coding(TablesOf(b.codes), b.selectors);
      var fold := Fold(BlockAlphabet(b, size), InitialState(), SymbolsOf(b, size));
      AgreesMeans(BlockAlphabet(b, size), b.codes, b.selectors, SymbolsOf(b, size),
                  bytes, p + |HeaderBits(b)| + |CodingBits(b)|, 0, InitialState());
      AlphabetIs(b, size);
      StagesCompose(bytes, p, size, h, p + |HeaderBits(b)|, c, p + |HeaderBits(b)| + |CodingBits(b)|, fold,
                    p + |BodyBits(b, size)|);
    }
  }

  /** What decompress makes of the result of the symbol machine. */
  ghost function Finished(out: Result<seq<byte>>, origPtr: nat, q: nat): Result<(seq<byte>, nat)>
  {
    if out.Err? then Err(out.error)
    else
      var text := Finish(out.value, origPtr, 0);
      if text.Ok? then Ok((text.value, q)) else Err(text.error)
  }

  lemma AlphabetIs(b: Block, size: nat)
    requires size <= 9 && |b.used| <= 256
    ensures BlockAlphabet(b, size) == AlphabetOf(b.used, 100000 * size)
  {
  }

  lemma HeaderStops(bytes: seq<byte>, p: nat, size: nat)
    requires size <= 9 && ReadHeader(bytes, p, 100000 * size).Err?
    ensures DecodeBody(bytes, p, size, 0).Err?
  {
    hide ReadHeader;
  }

  lemma PreparedParts(b: Block, size: nat)
    requires Prepared(b, size)
    ensures size <= 9 && |b.crc| == 32 && b.origPtr < 0x100_0000 && Ascending(b.used) && 1 <= |b.used| <= 256
    ensures 2 <= |b.codes| <= 6 && 1 <= |b.selectors| < 0x8000 && |b.starts| == |b.codes|
    ensures CodingUsable(b, |b.used| + 2)
  {
    hide IsTransform, Encodable, Ascending, UsableCodes, UsableSelectors, Startable;
  }

  lemma AgreesMeans(a: Alphabet, codes: seq<Lengths>, selectors: seq<nat>,
      syms: seq<nat>, bytes: seq<byte>, p: nat, k: nat, s: State)
    requires IsAlphabet(a) && Agrees(a, codes, selectors, syms, bytes, p, k, s)
    ensures IsCoding(Coding(TablesOf(codes), selectors))
    ensures DecodeLoop(a, Coding(TablesOf(codes), selectors), bytes, p, k, s)
         == Ended(Fold(a, s, syms), p + |WriteSymbols(codes, selectors, syms, k)|)
  {
    hide DecodeLoop, Fold, WriteSymbols, IsCoding, TablesOf, Ended;
  }

  lemma FitsMeans(b: Block, size: nat)
    requires Prepared(b, size)
    ensures |b.used| > 0 && (BlockFits(b, size) ==> b.origPtr <= 100000 * size)
  {
    hide Encodable, IsTransform, UsableCodes, Ascending, EndsInRun;
    DecodedInverts(b.last, b.origPtr, b.runs);
  }

  lemma FinishedValues(out: Result<seq<byte>>, origPtr: nat, q: nat)
    ensures out.Err? ==> Finished(out, origPtr, q).Err?
    ensures out.Ok? && Finish(out.value, origPtr, 0).Ok? ==>
      Finished(out, origPtr, q) == Ok((Finish(out.value, origPtr, 0).value, q))
  {
    hide Finish;
  }

  /** The round trip of a block body: decoding gives back the text if and only if the block
      fits the buffer, and fails otherwise. */
  lemma BodyRoundTrip(bytes: seq<byte>, p: nat, b: Block, size: nat)
    requires Prepared(b, size) && EnoughSelectors(b, size) && At(bytes, p, BodyBits(b, size))
    ensures |b.used| > 0
    ensures var d := DecodeBody(bytes, p, size, 0);
      if BlockFits(b, size) then d == Ok((PlainText(b.runs), p + |BodyBits(b, size)|)) else d.Err?
  {
    hide *;
    PreparedParts(b, size);
    FitsMeans(b, size);
    BodyDecodes(bytes, p, b, size);
    SymbolsDecide(b, size);
    TextReads(b, size);
    var out := Fold(BlockAlphabet(b, size), InitialState(), SymbolsOf(b, size));
    FinishedValues(out, b.origPtr, p + |BodyBits(b, size)|);
  }

  lemma MagicDiffers()
    ensures BLOCK_MAGIC != END_MAGIC && |BLOCK_MAGIC| == |END_MAGIC| == 6
  {
    assert BLOCK_MAGIC[0] != END_MAGIC[0];
  }

  lemma BlockStarts(bytes: seq<byte>, p: nat, size: nat, len: nat)
    requires size <= 9 && BytesAt(bytes, p, 6) == BLOCK_MAGIC
    ensures var d := DecodeBody(bytes, p + 48, size, len);
      DecodeBlock(bytes, p, size, len) == if d.Ok? then Ok((Text(d.value.0), d.value.1)) else Err(d.error)
  {
    hide BytesAt, DecodeBody;
    MagicDiffers();
  }

  lemma BlockIs(b: Block, size: nat)
    requires Prepared(b, size)
    ensures BlockBits(b, size) == MagicBits(BLOCK_MAGIC) + BodyBits(b, size)
    ensures |BlockBits(b, size)| == |MagicBits(BLOCK_MAGIC)| + |BodyBits(b, size)|
  {
    hide Prepared, MagicBits, BodyBits;
  }

  /** The round trip of a block: whatever an encoder chooses, decompress returns the text and
      leaves the reader right behind the block if and only if the block fits the buffer. */
  lemma BlockRoundTrip(bytes: seq<byte>, p: nat, b: Block, size: nat)
    requires Prepared(b, size) && EnoughSelectors(b, size) && At(bytes, p, BlockBits(b, size))
    ensures |b.used| > 0
    ensures var d := DecodeBlock(bytes, p, size, 0);
      if BlockFits(b, size) then d == Ok((Text(PlainText(b.runs)), p + |BlockBits(b, size)|)) else d.Err?
  {
    hide *;
    BlockIs(b, size);
    PreparedParts(b, size);
    MagicDiffers();
    AtConcat(bytes, p, MagicBits(BLOCK_MAGIC), BodyBits(b, size));
    MagicRoundTrip(bytes, p, BLOCK_MAGIC);
    BodyRoundTrip(bytes, p + 48, b, size);
    BlockStarts(bytes, p, size, 0);
  }
}
