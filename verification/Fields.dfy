/** The header fields of a block: magic text, symbol map, selectors and tables. */
module Fields {
  import opened Bits

  // ----- the magic text

  function HexDigit(d: nat): char
    requires d < 16
  {
    "0123456789abcdef"[d]
  }

  /** `b.toString(16)`: without a leading zero. */
  function Hex(b: byte): string
  {
    if b < 16 then [HexDigit(b)] else [HexDigit(b / 16), HexDigit(b % 16)]
  }

  function HexText(bs: seq<byte>): string
  {
    if bs == [] then "" else HexText(bs[..|bs| - 1]) + Hex(bs[|bs| - 1])
  }

  function BytesAt(bytes: seq<byte>, p: nat, n: nat): (bs: seq<byte>)
    ensures |bs| == n
  {
    if n == 0 then [] else BytesAt(bytes, p, n - 1) + [OneByte(bytes, p + 8 * (n - 1))]
  }

  function OneByte(bytes: seq<byte>, p: nat): byte
  {
    ValueBound(bytes, p, 8);
    FieldWidths();
    Value(bytes, p, 8)
  }

  lemma HexInjective(a: byte, b: byte)
    requires |Hex(a)| == 2 && Hex(a) == Hex(b)
    ensures a == b
  {
    assert Hex(a)[0] == Hex(b)[0] && Hex(a)[1] == Hex(b)[1];
    DigitInjective(a / 16, b / 16);
    DigitInjective(a % 16, b % 16);
  }

  lemma DigitInjective(d: nat, e: nat)
    requires d < 16 && e < 16 && HexDigit(d) == HexDigit(e)
    ensures d == e
  {
  }

  lemma {:induction false} HexTextLength(bs: seq<byte>)
    ensures |HexText(bs)| <= 2 * |bs|
    ensures |HexText(bs)| == 2 * |bs| <==> forall i :: 0 <= i < |bs| ==> bs[i] >= 16
  {
    if bs != [] {
      var n := |bs| - 1;
      HexTextLength(bs[..n]);
      HexLength(bs[n]);
      hide Hex;
      assert bs == bs[..n] + [bs[n]];
    }
  }

  lemma HexLength(b: byte)
    ensures |Hex(b)| == if b >= 16 then 2 else 1
  {
  }

  /** The digits are not padded, and yet a text of two digits per byte names its bytes. */
  lemma {:induction false} HexTextNames(bs: seq<byte>, cs: seq<byte>)
    requires |bs| == |cs| && forall i :: 0 <= i < |cs| ==> cs[i] >= 16
    ensures HexText(bs) == HexText(cs) <==> bs == cs
  {
    if HexText(bs) == HexText(cs) && bs != [] {
      HexTextLength(bs);
      HexTextLength(cs);
      var n := |bs| - 1;
      var x, y := HexText(bs[..n]), HexText(cs[..n]);
      HexTextLength(bs[..n]);
      HexTextLength(cs[..n]);
      assert HexText(bs)[..|x|] == x && HexText(cs)[..|y|] == y;
      assert HexText(bs)[|x|..] == Hex(bs[n]) && HexText(cs)[|y|..] == Hex(cs[n]);
      HexInjective(bs[n], cs[n]);
      HexTextNames(bs[..n], cs[..n]);
      assert bs == bs[..n] + [bs[n]] && cs == cs[..n] + [cs[n]];
    }
  }

  const BLOCK_MAGIC: seq<byte> := [0x31, 0x41, 0x59, 0x26, 0x53, 0x59]
  const END_MAGIC: seq<byte> := [0x17, 0x72, 0x45, 0x38, 0x50, 0x90]

  lemma MagicTexts()
    ensures HexText(BLOCK_MAGIC) == "314159265359"
    ensures HexText(END_MAGIC) == "177245385090"
  {
    SixPairs(BLOCK_MAGIC, '3', '1', '4', '1', '5', '9', '2', '6', '5', '3', '5', '9');
    SixPairs(END_MAGIC, '1', '7', '7', '2', '4', '5', '3', '8', '5', '0', '9', '0');
  }

  lemma SixPairs(m: seq<byte>, a: char, b: char, c: char, d: char, e: char, f: char,
                 g: char, h: char, i: char, j: char, k: char, l: char)
    requires |m| == 6 && Hex(m[0]) == [a, b] && Hex(m[1]) == [c, d] && Hex(m[2]) == [e, f]
    requires Hex(m[3]) == [g, h] && Hex(m[4]) == [i, j] && Hex(m[5]) == [k, l]
    ensures HexText(m) == [a, b, c, d, e, f, g, h, i, j, k, l]
  {
    HexText6(m);
    hide HexText, Hex;
    assert [a, b] + [c, d] == [a, b, c, d];
    assert [a, b, c, d] + [e, f] == [a, b, c, d, e, f];
    assert [a, b, c, d, e, f] + [g, h] == [a, b, c, d, e, f, g, h];
    assert [a, b, c, d, e, f, g, h] + [i, j] == [a, b, c, d, e, f, g, h, i, j];
    assert [a, b, c, d, e, f, g, h, i, j] + [k, l] == [a, b, c, d, e, f, g, h, i, j, k, l];
  }

  lemma HexPrefix(m: seq<byte>, k: nat)
    requires 1 <= k <= |m|
    ensures HexText(m[..k]) == HexText(m[..k - 1]) + Hex(m[k - 1])
  {
    assert m[..k][..k - 1] == m[..k - 1];
  }

  lemma HexText6(m: seq<byte>)
    requires |m| == 6
    ensures HexText(m) == Hex(m[0]) + Hex(m[1]) + Hex(m[2]) + Hex(m[3]) + Hex(m[4]) + Hex(m[5])
  {
    hide HexText, Hex;
    HexText3(m);
    HexPrefix(m, 4);
    HexPrefix(m, 5);
    HexPrefix(m, 6);
    assert m[..6] == m;
  }

  lemma HexText3(m: seq<byte>)
    requires |m| >= 3
    ensures HexText(m[..3]) == Hex(m[0]) + Hex(m[1]) + Hex(m[2])
  {
    assert HexText(m[..0]) == "";
    hide HexText, Hex;
    HexPrefix(m, 1);
    assert "" + Hex(m[0]) == Hex(m[0]);
    HexPrefix(m, 2);
    HexPrefix(m, 3);
  }

  /** The text h is compared with two literals; that is the same as comparing the bytes. */
  method ReadMagic(bits: BitReader) returns (h: string)
    requires bits.Valid()
    modifies bits
    ensures bits.Valid() && bits.Position() == old(bits.Position()) + 48
    ensures h == "177245385090" <==> BytesAt(bits.bytes, old(bits.Position()), 6) == END_MAGIC
    ensures h == "314159265359" <==> BytesAt(bits.bytes, old(bits.Position()), 6) == BLOCK_MAGIC
  {
    hide HexText, BytesAt;
    MagicNames(BytesAt(bits.bytes, bits.Position(), 6));
    h := ReadHex(bits);
  }

  method ReadHex(bits: BitReader) returns (h: string)
    requires bits.Valid()
    modifies bits
    ensures bits.Valid() && bits.Position() == old(bits.Position()) + 48
    ensures h == HexText(BytesAt(bits.bytes, old(bits.Position()), 6))
  {
    hide HexText, Hex, Value, BytesAt, OneByte;
    ghost var p := bits.Position();
    h := "";
    NoHexText(bits.bytes, p);
    for i := 0 to 6
      invariant bits.Valid() && bits.Position() == p + 8 * i
      invariant h == HexText(BytesAt(bits.bytes, p, i))
    {
      HexNext(bits.bytes, p, i);
      h := ReadHexByte(bits, h);
    }
  }

  method ReadHexByte(bits: BitReader, h0: string) returns (h: string)
    requires bits.Valid()
    modifies bits
    ensures bits.Valid() && bits.Position() == old(bits.Position()) + 8
    ensures h == h0 + Hex(OneByte(bits.bytes, old(bits.Position())))
  {
    hide Hex, Value;
    ghost var b := OneByte(bits.bytes, bits.Position());
    var v: byte := bits.Bits(8);
    h := h0 + Hex(v);
  }

  lemma MagicNames(bs: seq<byte>)
    requires |bs| == 6
    ensures HexText(bs) == "177245385090" <==> bs == END_MAGIC
    ensures HexText(bs) == "314159265359" <==> bs == BLOCK_MAGIC
  {
    hide HexText;
    MagicTexts();
    HexTextNames(bs, END_MAGIC);
    HexTextNames(bs, BLOCK_MAGIC);
  }

  lemma HexNext(bytes: seq<byte>, p: nat, i: nat)
    ensures HexText(BytesAt(bytes, p, i + 1)) == HexText(BytesAt(bytes, p, i)) + Hex(OneByte(bytes, p + 8 * i))
  {
    hide HexText, Hex, OneByte;
    HexAppend(BytesAt(bytes, p, i), OneByte(bytes, p + 8 * i));
  }

  lemma NoHexText(bytes: seq<byte>, p: nat)
    ensures HexText(BytesAt(bytes, p, 0)) == ""
  {
  }

  lemma HexAppend(bs: seq<byte>, b: byte)
    ensures HexText(bs + [b]) == HexText(bs) + Hex(b)
  {
    assert (bs + [b])[..|bs|] == bs;
  }

  function MagicBits(m: seq<byte>): seq<bit>
  {
    if m == [] then [] else MagicBits(m[..|m| - 1]) + BigEndian(m[|m| - 1], 8)
  }

  lemma MagicStep(bytes: seq<byte>, p: nat, m: seq<byte>)
    ensures m == [] ==> |MagicBits(m)| == 0 && BytesAt(bytes, p, 0) == m
    ensures m != [] ==> MagicBits(m) == MagicBits(m[..|m| - 1]) + BigEndian(m[|m| - 1], 8)
    ensures m != [] ==> BytesAt(bytes, p, |m|) == BytesAt(bytes, p, |m| - 1) + [OneByte(bytes, p + 8 * (|m| - 1))]
  {
    hide BigEndian, OneByte;
  }

  lemma ByteReads(bytes: seq<byte>, p: nat, b: byte)
    requires At(bytes, p, BigEndian(b, 8))
    ensures |BigEndian(b, 8)| == 8 && OneByte(bytes, p) == b
  {
    hide At, BigEndian, Value;
    FieldWidths();
    ReadBack(bytes, p, b, 8);
  }

  lemma {:induction false} MagicRoundTrip(bytes: seq<byte>, p: nat, m: seq<byte>)
    requires At(bytes, p, MagicBits(m))
    ensures |MagicBits(m)| == 8 * |m| && BytesAt(bytes, p, |m|) == m
  {
    hide At, BytesAt, OneByte, BigEndian, MagicBits, Value, Pow2;
    MagicStep(bytes, p, m);
    if m != [] {
      var n := |m| - 1;
      AtConcat(bytes, p, MagicBits(m[..n]), BigEndian(m[n], 8));
      MagicRoundTrip(bytes, p, m[..n]);
      ByteReads(bytes, p + 8 * n, m[n]);
      assert m == m[..n] + [m[n]];
    }
  }

  // ----- the map of used bytes

  /** The bytes 16 i + j .. 16 i + 15 that the 16 bits at q mark as used. */
  function RowFrom(bytes: seq<byte>, q: nat, i: nat, j: nat): (r: seq<byte>)
    requires i < 16 && j <= 16
    ensures |r| <= 16 - j
    decreases 16 - j
  {
    if j == 16 then []
    else (if BitAt(bytes, q + j) == 1 then [16 * i + j] else []) + RowFrom(bytes, q, i, j + 1)
  }

  /** The used bytes from row i on: bit i at p says whether row i is present, next at q. */
  function MapFrom(bytes: seq<byte>, p: nat, q: nat, i: nat): (r: (seq<byte>, nat))
    requires i <= 16
    ensures |r.0| <= 16 * (16 - i) && q <= r.1
    decreases 16 - i
  {
    if i == 16 then ([], q)
    else if BitAt(bytes, p + i) == 1 then
      var (rest, q') := MapFrom(bytes, p, q + 16, i + 1);
      (RowFrom(bytes, q, i, 0) + rest, q')
    else MapFrom(bytes, p, q, i + 1)
  }

  function ReadMap(bytes: seq<byte>, p: nat): (r: (seq<byte>, nat))
    ensures |r.0| <= 256 && p <= r.1
  {
    MapFrom(bytes, p, p + 16, 0)
  }

  lemma HalfValue(bytes: seq<byte>, p: nat, n: nat)
    requires n > 0
    ensures Value(bytes, p, n) / 2 == Value(bytes, p, n - 1) && Value(bytes, p, n) % 2 == BitAt(bytes, p + n - 1)
  {
  }

  /** `v & (1 << (n - 1 - i))` for the n bits at p read as v is bit i. */
  lemma {:induction false} BitOfValue(bytes: seq<byte>, p: nat, n: nat, i: nat)
    requires i < n
    ensures Value(bytes, p, n) / Pow2(n - 1 - i) % 2 == BitAt(bytes, p + i)
    decreases n
  {
    HalfValue(bytes, p, n);
    PowStep(n - 1 - i);
    hide Value, Pow2, BitAt;
    if i < n - 1 {
      BitOfValue(bytes, p, n - 1, i);
      DivTwice(Value(bytes, p, n), 2, Pow2(n - 2 - i));
    }
  }

  lemma PowStep(k: nat)
    ensures Pow2(0) == 1 && (k > 0 ==> Pow2(k) == 2 * Pow2(k - 1))
  {
  }

  /** The typed array `symToByte`: the bytes found so far, then zeros. */
  ghost predicate Filled(s: seq<byte>, found: seq<byte>)
  {
    |found| <= |s| == 256 && (forall i :: 0 <= i < |found| ==> s[i] == found[i])
    && forall i :: |found| <= i < 256 ==> s[i] == 0
  }

  /** `v & (1 << k)` as a condition. */
  predicate TestBit(v: nat, k: nat)
  {
    v / Pow2(k) % 2 == 1
  }

  lemma TestRead(bytes: seq<byte>, p: nat, n: nat, i: nat)
    requires i < n
    ensures TestBit(Value(bytes, p, n), n - 1 - i) <==> BitAt(bytes, p + i) == 1
  {
    BitOfValue(bytes, p, n, i);
  }

  method ReadRow(bits: BitReader, i: nat, symToByte: array<byte>, symTotal0: nat, ghost found0: seq<byte>)
      returns (symTotal: nat, ghost found: seq<byte>)
    requires bits.Valid() && i < 16 && symTotal0 + 16 <= 256
    requires Filled(symToByte[..], found0) && |found0| == symTotal0
    modifies bits, symToByte
    ensures bits.Valid() && bits.Position() == old(bits.Position()) + 16
    ensures found == found0 + RowFrom(bits.bytes, old(bits.Position()), i, 0) && |found| <= |found0| + 16
    ensures Filled(symToByte[..], found) && |found| == symTotal
  {
    hide RowFrom, Filled, Value, BitAt, TestBit;
    ghost var q := bits.Position();
    var k := bits.Bits(16);
    symTotal, found := symTotal0, found0;
    for j := 0 to 16
      invariant bits.Valid() && bits.Position() == q + 16
      invariant |found| == symTotal <= symTotal0 + j && Filled(symToByte[..], found)
      invariant found + RowFrom(bits.bytes, q, i, j) == found0 + RowFrom(bits.bytes, q, i, 0)
    {
      TestRead(bits.bytes, q, 16, j);
      RowStep(bits.bytes, q, i, j, found);
      if TestBit(k, 15 - j) {
        var v: byte := 16 * i + j;
        FilledMore(symToByte[..], found, v);
        ghost var before := symToByte[..];
        symToByte[symTotal] := v;
        assert symToByte[..] == before[symTotal := v];
        symTotal, found := symTotal + 1, found + [v];
      }
    }
    RowDone(bits.bytes, q, i, found);
  }

  lemma RowStep(bytes: seq<byte>, q: nat, i: nat, j: nat, found: seq<byte>)
    requires i < 16 && j < 16
    ensures found + RowFrom(bytes, q, i, j) ==
      (if BitAt(bytes, q + j) == 1 then found + [16 * i + j] else found) + RowFrom(bytes, q, i, j + 1)
  {
    hide BitAt;
    var rest := RowFrom(bytes, q, i, j + 1);
    if BitAt(bytes, q + j) == 1 {
      assert found + ([16 * i + j] + rest) == found + [16 * i + j] + rest;
    } else {
      assert [] + rest == rest;
    }
  }

  lemma RowDone(bytes: seq<byte>, q: nat, i: nat, found: seq<byte>)
    requires i < 16
    ensures found + RowFrom(bytes, q, i, 16) == found
  {
  }

  lemma FilledMore(s: seq<byte>, found: seq<byte>, v: byte)
    requires Filled(s, found) && |found| < 256
    ensures |s| == 256 && Filled(s[|found| := v], found + [v])
  {
  }

  method NewBytes() returns (a: array<byte>)
    ensures fresh(a) && Filled(a[..], [])
  {
    a := new byte[256](_ => 0);
  }

  method ReadRowIfMarked(bits: BitReader, t: nat, i: nat, symToByte: array<byte>, symTotal0: nat,
                         ghost p: nat, ghost found0: seq<byte>)
      returns (symTotal: nat, ghost found: seq<byte>)
    requires bits.Valid() && i < 16 && symTotal0 <= 16 * i && t == Value(bits.bytes, p, 16)
    requires Filled(symToByte[..], found0) && |found0| == symTotal0
    modifies bits, symToByte
    ensures bits.Valid() && Filled(symToByte[..], found) && |found| == symTotal <= 16 * (i + 1)
    ensures Found(found, MapFrom(bits.bytes, p, bits.Position(), i + 1))
         == Found(found0, MapFrom(bits.bytes, p, old(bits.Position()), i))
  {
    hide Filled, Value, BitAt, TestBit, RowFrom, MapFrom, Found;
    TestRead(bits.bytes, p, 16, i);
    MapStep(bits.bytes, p, bits.Position(), i, found0);
    if TestBit(t, 15 - i) {
      symTotal, found := ReadRow(bits, i, symToByte, symTotal0, found0);
    } else {
      symTotal, found := symTotal0, found0;
    }
  }

  method ReadSymbolMap(bits: BitReader) returns (symToByte: array<byte>, symTotal: nat, ghost found: seq<byte>)
    requires bits.Valid()
    modifies bits
    ensures bits.Valid() && fresh(symToByte)
    ensures (found, bits.Position()) == ReadMap(bits.bytes, old(bits.Position()))
    ensures Filled(symToByte[..], found) && |found| == symTotal
  {
    ghost var p := bits.Position();
    symToByte := NewBytes();
    symTotal, found := 0, [];
    hide Filled, Value, BitAt, TestBit, RowFrom, MapFrom;
    var t := bits.Bits(16);
    FoundNone(ReadMap(bits.bytes, p));
    hide Found, ReadMap;
    for i := 0 to 16
      invariant bits.Valid() && |found| == symTotal <= 16 * i && Filled(symToByte[..], found)
      invariant ReadMap(bits.bytes, p) == Found(found, MapFrom(bits.bytes, p, bits.Position(), i))
    {
      symTotal, found := ReadRowIfMarked(bits, t, i, symToByte, symTotal, p, found);
    }
    FoundAll(bits.bytes, p, bits.Position(), found);
  }

  lemma FoundNone(rest: (seq<byte>, nat))
    ensures Found([], rest) == rest
  {
    assert [] + rest.0 == rest.0;
  }

  lemma FoundAll(bytes: seq<byte>, p: nat, q: nat, found: seq<byte>)
    ensures Found(found, MapFrom(bytes, p, q, 16)) == (found, q)
  {
    assert found + [] == found;
  }

  /** Bytes already found, in front of those still to come. */
  ghost function Found(found: seq<byte>, rest: (seq<byte>, nat)): (seq<byte>, nat)
  {
    (found + rest.0, rest.1)
  }

  lemma MapStep(bytes: seq<byte>, p: nat, q: nat, i: nat, found: seq<byte>)
    requires i < 16
    ensures Found(found, MapFrom(bytes, p, q, i)) ==
      if BitAt(bytes, p + i) == 1 then Found(found + RowFrom(bytes, q, i, 0), MapFrom(bytes, p, q + 16, i + 1))
      else Found(found, MapFrom(bytes, p, q, i + 1))
  {
    hide BitAt, RowFrom;
    var row, rest := RowFrom(bytes, q, i, 0), MapFrom(bytes, p, q + 16, i + 1).0;
    assert found + (row + rest) == found + row + rest;
  }
}
