/** The round trip of whole files, and an encoding for every text. */
module ArchiveRoundTrip {
  import opened Bits
  import opened Outcomes
  import opened Fields
  import opened MapRoundTrip
  import opened Rle
  import opened Bwt
  import opened MtfRoundTrip
  import opened SymbolsRoundTrip
  import opened Decoder
  import opened BlockRoundTrip
  import opened Archive

  /** Blocks that an encoder may put into a file of the given size digit. */
  ghost predicate Writable(b: Block, size: nat)
  {
    Prepared(b, size) && EnoughSelectors(b, size) && |b.used| > 0 && BlockFits(b, size)
  }

  ghost predicate AllWritable(blocks: seq<Block>, size: nat)
  {
    forall i :: 0 <= i < |blocks| ==> Writable(blocks[i], size)
  }

  function AllText(blocks: seq<Block>): seq<byte>
  {
    if blocks == [] then [] else PlainText(blocks[0].runs) + AllText(blocks[1..])
  }

  ghost function BlocksBits(blocks: seq<Block>, size: nat): seq<bit>
    requires AllWritable(blocks, size)
  {
    if blocks == [] then MagicBits(END_MAGIC) else BlockBits(blocks[0], size) + BlocksBits(blocks[1..], size)
  }

  ghost function ArchiveBits(blocks: seq<Block>, size: nat): seq<bit>
    requires size <= 9 && AllWritable(blocks, size)
  {
    BigEndian(4348520, 24) + (BigEndian(48 + size, 8) + BlocksBits(blocks, size))
  }

  /** The first block whose text stops the loop of simple. */
  ghost function FirstStop(blocks: seq<Block>, stops: seq<byte> -> bool): (k: nat)
    ensures k <= |blocks|
  {
    if blocks == [] || stops(PlainText(blocks[0].runs)) then 0 else 1 + FirstStop(blocks[1..], stops)
  }

  lemma {:induction false} NoStops(blocks: seq<Block>, stops: seq<byte> -> bool)
    ensures FirstStop(blocks, stops) == |blocks| <==> forall i :: 0 <= i < |blocks| ==>
      !stops(PlainText(blocks[i].runs))
  {
    hide PlainText;
    if blocks != [] {
      var rest := blocks[1..];
      NoStops(rest, stops);
      assert forall i :: 0 <= i < |rest| ==> rest[i] == blocks[i + 1];
      if forall i :: 0 <= i < |rest| ==> !stops(PlainText(rest[i].runs)) {
        forall i | 1 <= i < |blocks| ensures !stops(PlainText(blocks[i].runs)) {
          assert blocks[i] == rest[i - 1];
        }
      }
    }
  }

  lemma WritableHead(blocks: seq<Block>, size: nat)
    requires AllWritable(blocks, size) && blocks != []
    ensures Writable(blocks[0], size) && AllWritable(blocks[1..], size)
  {
    hide Writable;
    assert forall i :: 0 <= i < |blocks| - 1 ==> blocks[1..][i] == blocks[i + 1];
  }

  lemma EndReads(bytes: seq<byte>, p: nat, size: nat, stops: seq<byte> -> bool)
    requires size <= 9 && At(bytes, p, MagicBits(END_MAGIC))
    ensures |MagicBits(END_MAGIC)| == 48 && DecodeBlocks(bytes, p, size, stops) == Ok(([], p + 48))
  {
    hide At, MagicBits, BytesAt, DecodeBody;
    MagicRoundTrip(bytes, p, END_MAGIC);
  }

  /** One turn of the loop of simple. */
  lemma BlocksStep(bytes: seq<byte>, p: nat, size: nat, stops: seq<byte> -> bool, text: seq<byte>, q: nat)
    requires size <= 9 && DecodeBlock(bytes, p, size, 0) == Ok((Text(text), q))
    ensures DecodeBlocks(bytes, p, size, stops) ==
      if stops(text) then Ok(([], q)) else Joined(text, DecodeBlocks(bytes, q, size, stops))
  {
    hide DecodeBlock;
    BlockAdvances(bytes, p, size, 0);
  }

  lemma WritableRead(bytes: seq<byte>, p: nat, b: Block, size: nat)
    requires Writable(b, size) && Prepared(b, size) && At(bytes, p, BlockBits(b, size))
    ensures size <= 9 && DecodeBlock(bytes, p, size, 0) == Ok((Text(PlainText(b.runs)), p + |BlockBits(b, size)|))
  {
    PreparedParts(b, size);
    hide Prepared, At, BlockBits, DecodeBlock, PlainText, EnoughSelectors, BlockFits;
    BlockRoundTrip.BlockRoundTrip(bytes, p, b, size);
  }

  /** What simple makes of written blocks: the texts up to the first that stops it. */
  ghost predicate ReadsBlocks(blocks: seq<Block>, bytes: seq<byte>, p: nat, size: nat, stops: seq<byte> -> bool)
    requires size <= 9 && AllWritable(blocks, size)
  {
    var d, k := DecodeBlocks(bytes, p, size, stops), FirstStop(blocks, stops);
    && d.Ok? && d.value.0 == AllText(blocks[..k])
    && (k == |blocks| ==> d.value.1 == p + |BlocksBits(blocks, size)|)
  }

  lemma ReadsNone(blocks: seq<Block>, bytes: seq<byte>, p: nat, size: nat, stops: seq<byte> -> bool)
    requires size <= 9 && blocks == [] && AllWritable(blocks, size) && At(bytes, p, BlocksBits(blocks, size))
    ensures ReadsBlocks(blocks, bytes, p, size, stops)
  {
    hide DecodeBlocks, MagicBits, At;
    EndReads(bytes, p, size, stops);
  }

  lemma ReadsOne(blocks: seq<Block>, bytes: seq<byte>, p: nat, size: nat, stops: seq<byte> -> bool, q: nat)
    requires size <= 9 && blocks != [] && AllWritable(blocks, size) && AllWritable(blocks[1..], size)
    requires DecodeBlock(bytes, p, size, 0) == Ok((Text(PlainText(blocks[0].runs)), q))
    requires q + |BlocksBits(blocks[1..], size)| == p + |BlocksBits(blocks, size)|
    requires ReadsBlocks(blocks[1..], bytes, q, size, stops)
    ensures ReadsBlocks(blocks, bytes, p, size, stops)
  {
    var text, k := PlainText(blocks[0].runs), FirstStop(blocks[1..], stops);
    TakeText(blocks, k);
    assert FirstStop(blocks, stops) == if stops(text) then 0 else k + 1;
    hide DecodeBlocks, DecodeBlock, BlocksBits, PlainText, AllText, AllWritable, FirstStop;
    BlocksStep(bytes, p, size, stops, text, q);
  }

  lemma TakeText(blocks: seq<Block>, k: nat)
    requires blocks != [] && k < |blocks|
    ensures AllText(blocks[..0]) == []
    ensures AllText(blocks[..k + 1]) == PlainText(blocks[0].runs) + AllText(blocks[1..][..k])
  {
    hide PlainText;
    assert blocks[..k + 1][0] == blocks[0] && blocks[..k + 1][1..] == blocks[1..][..k];
  }

  lemma {:induction false} BlocksRead(blocks: seq<Block>, bytes: seq<byte>, p: nat, size: nat, stops: seq<byte> -> bool)
    requires size <= 9 && AllWritable(blocks, size) && At(bytes, p, BlocksBits(blocks, size))
    ensures ReadsBlocks(blocks, bytes, p, size, stops)
    decreases |blocks|
  {
    hide *;
    if blocks == [] {
      ReadsNone(blocks, bytes, p, size, stops);
    } else {
      WritableHead(blocks, size);
      WritablePrepared(blocks[0], size);
      BlocksAre(blocks, size);
      AtConcat(bytes, p, BlockBits(blocks[0], size), BlocksBits(blocks[1..], size));
      WritableRead(bytes, p, blocks[0], size);
      var q := p + |BlockBits(blocks[0], size)|;
      BlocksRead(blocks[1..], bytes, q, size, stops);
      ReadsOne(blocks, bytes, p, size, stops, q);
    }
  }

  lemma WritablePrepared(b: Block, size: nat)
    requires Writable(b, size)
    ensures Prepared(b, size)
  {
    hide Prepared;
  }

  lemma BlocksAre(blocks: seq<Block>, size: nat)
    requires blocks != [] && AllWritable(blocks, size) && AllWritable(blocks[1..], size) && Writable(blocks[0], size)
    ensures Prepared(blocks[0], size)
    ensures BlocksBits(blocks, size) == BlockBits(blocks[0], size) + BlocksBits(blocks[1..], size)
    ensures |BlocksBits(blocks, size)| == |BlockBits(blocks[0], size)| + |BlocksBits(blocks[1..], size)|
  {
    hide BlockBits, Prepared, EnoughSelectors, BlockFits;
  }

  lemma LevelReads(bytes: seq<byte>, size: nat, rest: seq<bit>)
    requires 1 <= size <= 9 && At(bytes, 0, BigEndian(4348520, 24) + (BigEndian(48 + size, 8) + rest))
    ensures ReadLevel(bytes, 0) == Ok((size, 32)) && At(bytes, 32, rest)
  {
    hide At, BigEndian, Value, Pow2;
    FieldWidths();
    FieldRead(bytes, 0, 4348520, 24, BigEndian(48 + size, 8) + rest);
    FieldRead(bytes, 24, 48 + size, 8, rest);
  }

  lemma TextNotEmpty(b: Block, size: nat)
    requires Writable(b, size)
    ensures PlainText(b.runs) != []
  {
    hide UsableCodes, BlockFits, Ascending, Encode;
    TransformLength(b.last, b.origPtr, RunLengthCode(b.runs));
    assert b.runs != [];
    assert b.runs[0].length >= 1;
  }

  lemma TransformLength(last: seq<byte>, origPtr: nat, s: Row)
    requires IsTransform(last, origPtr, s)
    ensures origPtr < |s| == |last|
  {
    InverseTransform(last, origPtr, s);
  }

  lemma {:induction false} PrefixShorter(blocks: seq<Block>, k: nat, size: nat)
    requires AllWritable(blocks, size) && k <= |blocks|
    ensures |AllText(blocks[..k])| <= |AllText(blocks)|
    ensures k < |blocks| ==> |AllText(blocks[..k])| < |AllText(blocks)|
    decreases k
  {
    hide Writable, PlainText, AllWritable;
    if blocks != [] {
      WritableHead(blocks, size);
      TextNotEmpty(blocks[0], size);
      if k > 0 {
        assert blocks[..k][0] == blocks[0] && blocks[..k][1..] == blocks[1..][..k - 1];
        PrefixShorter(blocks[1..], k - 1, size);
      } else {
        assert blocks[..0] == [];
      }
    }
  }

  /** The round trip of a file: simple returns the texts of all blocks, and leaves the reader
      behind the end mark, if and only if no text is loosely equal to -1. */
  lemma ArchiveRoundTrip(bytes: seq<byte>, blocks: seq<Block>, size: nat, stops: seq<byte> -> bool)
    requires 1 <= size <= 9 && AllWritable(blocks, size) && At(bytes, 0, ArchiveBits(blocks, size))
    ensures DecodeArchive(bytes, stops).Ok?
    ensures DecodeArchive(bytes, stops) == Ok((AllText(blocks), |ArchiveBits(blocks, size)|)) <==>
      forall i :: 0 <= i < |blocks| ==> !stops(PlainText(blocks[i].runs))
  {
    hide At, AllWritable, BlocksBits, DecodeBlocks, ReadLevel, PlainText, AllText, BigEndian, FirstStop;
    LevelReads(bytes, size, BlocksBits(blocks, size));
    BlocksRead(blocks, bytes, 32, size, stops);
    NoStops(blocks, stops);
    PrefixShorter(blocks, FirstStop(blocks, stops), size);
    assert blocks[..|blocks|] == blocks;
  }
}
