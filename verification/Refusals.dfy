/** What bzip2.js refuses at the start of a file and of a block. */
module Refusals {
  import opened Bits
  import opened Outcomes
  import opened Fields
  import opened Symbols
  import opened Decoder
  import opened Archive

  /** Eight bits at a byte boundary are the byte. */
  lemma WholeByte(bytes: seq<byte>, i: nat)
    ensures Value(bytes, 8 * i, 8) == if i < |bytes| then bytes[i] else 0
  {
    ValueInByte(bytes, i, 0, 8);
    assert Pow2(8) == 256 && Pow2(0) == 1 by { FieldWidths(); assert Pow2(0) == 1; }
    hide Value;
  }

  lemma ThreeBytes(bytes: seq<byte>, p: nat)
    ensures Value(bytes, p, 24) == Value(bytes, p, 8) * 65536 + Value(bytes, p + 8, 8) * 256 + Value(bytes, p + 16, 8)
    ensures 0 <= Value(bytes, p, 8) < 256 && 0 <= Value(bytes, p + 8, 8) < 256 && 0 <= Value(bytes, p + 16, 8) < 256
  {
    ValueSplit(bytes, p, 8, 16);
    ValueSplit(bytes, p + 8, 8, 8);
    ValueBound(bytes, p, 8);
    ValueBound(bytes, p + 8, 8);
    ValueBound(bytes, p + 16, 8);
    hide Value;
    assert Pow2(8) == 256 && Pow2(16) == 65536 by { EightAndSixteen(); }
    hide Pow2;
  }

  lemma EightAndSixteen()
    ensures Pow2(8) == 256 && Pow2(16) == 65536
  {
    assert Pow2(4) == 16;
    assert Pow2(12) == 4096;
  }

  ghost predicate StartsBZh(bytes: seq<byte>)
  {
    |bytes| >= 3 && bytes[0] == 'B' as int && bytes[1] == 'Z' as int && bytes[2] == 'h' as int
  }

  /** A file is taken if and only if it begins with BZh and a digit from 1 to 9, which is the block size. */
  lemma FileAccepted(bytes: seq<byte>)
    ensures ReadLevel(bytes, 0) ==
      if !StartsBZh(bytes) then Err(NoMagicNumber)
      else if |bytes| < 4 || !('1' as int <= bytes[3] <= '9' as int) then Err(NotBzipArchive)
      else Ok((bytes[3] - '0' as int, 32))
  {
    WholeByte(bytes, 0);
    WholeByte(bytes, 1);
    WholeByte(bytes, 2);
    WholeByte(bytes, 3);
    ThreeBytes(bytes, 0);
    hide Value;
  }

  /** Any other file is refused as a whole. */
  lemma OtherFilesRefused(bytes: seq<byte>, stops: seq<byte> -> bool)
    ensures !StartsBZh(bytes) ==> DecodeArchive(bytes, stops) == Err(NoMagicNumber)
    ensures StartsBZh(bytes) && (|bytes| < 4 || !('1' as int <= bytes[3] <= '9' as int)) ==>
      DecodeArchive(bytes, stops) == Err(NotBzipArchive)
  {
    FileAccepted(bytes);
    hide ReadLevel, DecodeBlocks;
  }

  /** The 48 bits of a block must be one of the two magic numbers. */
  lemma OtherBlocksRefused(bytes: seq<byte>, p: nat, size: nat, len: nat)
    requires size <= 9
    requires BytesAt(bytes, p, 6) != [0x31, 0x41, 0x59, 0x26, 0x53, 0x59]
    ensures DecodeBlock(bytes, p, size, len) ==
      if BytesAt(bytes, p, 6) == [0x17, 0x72, 0x45, 0x38, 0x50, 0x90] then Ok((EndMark, p + 48)) else Err(NotBlockData)
  {
    hide BytesAt, DecodeBody;
  }

  /** The tests on the fields of a block, in order: the obsolete bit, the origin, the tables, the selectors. */
  lemma FieldsRefused(bytes: seq<byte>, p: nat, size: nat, len: nat)
    requires size <= 9
    ensures BitAt(bytes, p + 32) == 1 ==> DecodeBody(bytes, p, size, len) == Err(ObsoleteVersion)
    ensures BitAt(bytes, p + 32) == 0 && Value(bytes, p + 33, 24) > 100000 * size ==>
      DecodeBody(bytes, p, size, len) == Err(OrigPtrBeyondBuffer)
    ensures BitAt(bytes, p + 32) == 0 && Value(bytes, p + 33, 24) <= 100000 * size ==>
      var q := ReadMap(bytes, p + 57).1; var groups := Value(bytes, q, 3);
      && (groups < 2 || groups == 7 ==> DecodeBody(bytes, p, size, len) == Err(BadGroupCount))
      && (2 <= groups <= 6 && Value(bytes, q + 3, 15) == 0 ==> DecodeBody(bytes, p, size, len) == Err(NoSelectors))
  {
    hide ReadMap, Value, BitAt, ReadCoding, DecodeLoop, Finish;
  }
}
