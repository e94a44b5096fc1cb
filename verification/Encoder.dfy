/** Every byte string can be written: the round trip is never vacuous. */
module Encoder {
  import opened Bits
  import opened Huffman
  import opened HuffmanCodes
  import opened HuffmanExact
  import opened Rearrange
  import opened MapRoundTrip
  import opened Selectors
  import opened Rle
  import opened Bwt
  import opened Mtf
  import opened MtfRoundTrip
  import opened SymbolsRoundTrip
  import opened BlockRoundTrip
  import opened ArchiveRoundTrip

  const ALL_SYMBOLS: nat := 258

  /** A code for all 258 symbols: 128 words of 8 bits and 130 of 9. */
  function FlatLengths(): (lens: Lengths)
    ensures |lens| == ALL_SYMBOLS && forall i :: 0 <= i < ALL_SYMBOLS ==> lens[i] == if i < 128 then 8 else 9
  {
    seq(ALL_SYMBOLS, (i: nat) => if i < 128 then 8 else 9)
  }

  function Min(a: nat, b: nat): nat { if a < b then a else b }

  lemma {:induction false} FlatKraft(i: nat)
    requires i <= ALL_SYMBOLS
    ensures Kraft(FlatLengths(), 20, i) == 4096 * Min(i, 128) + 2048 * (i - Min(i, 128))
  {
    if i > 0 {
      FlatKraft(i - 1);
      FieldWidths();
      Pow2Add(8, 3);
      Pow2Add(8, 4);
      assert Pow2(11) == 2048 && Pow2(12) == 4096 by {
        assert Pow2(4) == 2 * Pow2(3);
      }
      hide Pow2;
    }
  }

  lemma {:induction false} FlatCounts(L: nat, i: nat)
    requires i <= ALL_SYMBOLS
    ensures Count(FlatLengths(), L, i) <= if L == 8 then Min(i, 128) else if L == 9 then i - Min(i, 128) else 0
  {
    if i > 0 { FlatCounts(L, i - 1); }
  }

  lemma FlatUsable()
    ensures PrefixCodeExists(FlatLengths()) && TablesFit(FlatLengths())
  {
    var lens := FlatLengths();
    FlatKraft(ALL_SYMBOLS);
    FieldWidths();
    Pow2Add(16, 3);
    assert Pow2(20) == 2 * Pow2(19);
    forall L | 0 <= L <= MAX_HUFCODE_BITS ensures Count(lens, L, |lens|) <= 255 {
      FlatCounts(L, |lens|);
    }
    Extremal(lens);
  }

  /** All bytes, in order. */
  function AllBytes(): (used: seq<byte>)
    ensures |used| == 256 && forall i :: 0 <= i < 256 ==> used[i] == i
  {
    seq(256, (i: nat) requires i < 256 => i)
  }

  function Repeated<T>(x: T, n: nat): (s: seq<T>)
    ensures |s| == n && forall i :: 0 <= i < n ==> s[i] == x
  {
    seq(n, _ => x)
  }

  function PlainBlock(runs: seq<Run>, last: seq<byte>, origPtr: nat): Block
  {
    Block(Repeated(0, 32), runs, last, origPtr, AllBytes(),
          [FlatLengths(), FlatLengths()], [8, 8], Repeated(0, 0x7fff))
  }

  lemma {:induction false} CodeLength(rs: seq<Run>)
    requires Encodable(rs)
    ensures 4 * |RunLengthCode(rs)| <= 5 * |PlainText(rs)|
    ensures rs != [] ==> RunLengthCode(rs) != []
  {
    if rs != [] {
      EncodableTail(rs);
      CodeLength(rs[1..]);
    }
  }

  lemma PlainCoding(runs: seq<Run>, last: seq<byte>, origPtr: nat)
    ensures var b := PlainBlock(runs, last, origPtr);
      && Startable(b.starts) && UsableCodes(b.codes, ALL_SYMBOLS) && UsableSelectors(b.codes, b.selectors)
  {
    FlatUsable();
    hide FlatLengths, PrefixCodeExists, TablesFit;
    assert |FlatLengths()| == ALL_SYMBOLS;
  }

  lemma AllBytesUsed(last: seq<byte>)
    ensures Ascending(AllBytes()) && forall i :: 0 <= i < |last| ==> last[i] in AllBytes()
  {
    var used := AllBytes();
    forall i | 0 <= i < |last| ensures last[i] in used {
      assert used[last[i]] == last[i];
    }
  }

  lemma PlainPrepared(runs: seq<Run>, last: seq<byte>, origPtr: nat, size: nat)
    requires 1 <= size <= 9 && Encodable(runs) && IsTransform(last, origPtr, RunLengthCode(runs)) && |last| < 100000
    ensures Prepared(PlainBlock(runs, last, origPtr), size)
  {
    TransformLength(last, origPtr, RunLengthCode(runs));
    PlainCoding(runs, last, origPtr);
    AllBytesUsed(last);
    hide IsTransform, Encodable, UsableCodes, UsableSelectors, Startable, Ascending, RunLengthCode;
    hide AllBytes, FlatLengths;
  }

  lemma PlainWritable(runs: seq<Run>, last: seq<byte>, origPtr: nat, size: nat)
    requires 1 <= size <= 9 && |last| < 100000 && Prepared(PlainBlock(runs, last, origPtr), size)
    ensures Writable(PlainBlock(runs, last, origPtr), size)
  {
    var b := PlainBlock(runs, last, origPtr);
    SymbolsAreMoved(b, size);
    EncodeTerminated(BlockAlphabet(b, size), InitialOrder(), 0, b.last);
    hide Prepared, Encode, SymbolsOf, FlatLengths, AllBytes;
  }

  /** A text whose run-length code is short enough fits one block. */
  lemma EveryTextHasABlock(text: seq<byte>, size: nat) returns (b: Block)
    requires 1 <= size <= 9 && 0 < |text| < 80000
    ensures Writable(b, size) && PlainText(b.runs) == text
  {
    hide Prepared, Encodable, Writable;
    var runs := Runs(text);
    EveryTextHasRuns(text);
    CodeLength(runs);
    var last, origPtr := EveryTextHasATransform(RunLengthCode(runs));
    TransformLength(last, origPtr, RunLengthCode(runs));
    PlainPrepared(runs, last, origPtr, size);
    PlainWritable(runs, last, origPtr, size);
    b := PlainBlock(runs, last, origPtr);
  }

  /** Every byte string, of any length, is the text of some file. */
  lemma EveryTextHasAnArchive(text: seq<byte>, size: nat) returns (blocks: seq<Block>, bytes: seq<byte>)
    requires 1 <= size <= 9
    ensures AllWritable(blocks, size) && AllText(blocks) == text
    ensures At(bytes, 0, ArchiveBits(blocks, size))
  {
    blocks := TextBlocks(text, size);
    bytes := Bits.Pack(ArchiveBits(blocks, size));
    PackedAt(ArchiveBits(blocks, size));
  }

  lemma TextBlocks(text: seq<byte>, size: nat) returns (blocks: seq<Block>)
    requires 1 <= size <= 9
    ensures AllWritable(blocks, size) && AllText(blocks) == text
    decreases |text|
  {
    hide Writable, PlainText;
    if text == [] {
      blocks := [];
    } else {
      var n := if |text| < 80000 then |text| else 79999;
      var b := EveryTextHasABlock(text[..n], size);
      var rest := TextBlocks(text[n..], size);
      blocks := [b] + rest;
      assert blocks[1..] == rest;
      assert text == text[..n] + text[n..];
    }
  }
}
