/** The bit reader of bzip2.js: a closure over a byte array that hands out bits,
    most significant bit of each byte first, and reads zeros past the end. */
module Bits {

  import Bytes

  type byte = Bytes.byte
  type bit = x: nat | x < 2

  function Pow2(n: nat): (r: nat)
    ensures r > 0
  {
    if n == 0 then 1 else 2 * Pow2(n - 1)
  }

  /** JavaScript's conversion to a signed 32-bit integer. */
  function ToInt32(x: int): (r: int)
  {
    var m := x % 0x1_0000_0000;
    if m < 0x8000_0000 then m else m - 0x1_0000_0000
  }

  /** `bytes[i]` as an operand of `&`: undefined counts as zero. */
  function ByteAt(bytes: seq<byte>, i: nat): byte
  {
    if i < |bytes| then bytes[i] else 0
  }

  /** Bit number p of the stream. */
  function BitAt(bytes: seq<byte>, p: nat): bit
  {
    ByteAt(bytes, p / 8) / Pow2(7 - p % 8) % 2
  }

  /** The n bits at p, read as a big-endian number. */
  function Value(bytes: seq<byte>, p: nat, n: nat): nat
  {
    if n == 0 then 0 else 2 * Value(bytes, p, n - 1) + BitAt(bytes, p + n - 1)
  }

  // ----- what the encoder writes

  /** v as exactly n bits, most significant first. */
  function BigEndian(v: nat, n: nat): (e: seq<bit>)
    ensures |e| == n
  {
    if n == 0 then [] else BigEndian(v / 2, n - 1) + [v % 2]
  }

  /** The stream holds the bits e at position p. */
  ghost predicate At(bytes: seq<byte>, p: nat, e: seq<bit>)
  {
    forall k :: 0 <= k < |e| ==> BitAt(bytes, p + k) == e[k]
  }

  lemma AtConcat(bytes: seq<byte>, p: nat, a: seq<bit>, b: seq<bit>)
    ensures At(bytes, p, a + b) <==> At(bytes, p, a) && At(bytes, p + |a|, b)
  {
    if At(bytes, p, a + b) {
      forall k | 0 <= k < |a| ensures BitAt(bytes, p + k) == a[k] {
        assert a[k] == (a + b)[k];
      }
      forall k | 0 <= k < |b| ensures BitAt(bytes, p + |a| + k) == b[k] {
        assert b[k] == (a + b)[|a| + k];
      }
    }
    if At(bytes, p, a) && At(bytes, p + |a|, b) {
      forall k | 0 <= k < |a + b| ensures BitAt(bytes, p + k) == (a + b)[k] {
        if k >= |a| {
          assert BitAt(bytes, p + |a| + (k - |a|)) == b[k - |a|];
        }
      }
    }
  }

  lemma {:induction false} Pow2Add(a: nat, b: nat)
    ensures Pow2(a + b) == Pow2(a) * Pow2(b)
  {
    if a > 0 {
      Pow2Add(a - 1, b);
      DoubleFactor(Pow2(a - 1), Pow2(b));
      assert Pow2(a + b) == 2 * Pow2(a - 1 + b) && Pow2(a) == 2 * Pow2(a - 1);
    }
  }

  lemma DoubleFactor(x: int, y: int)
    ensures 2 * (x * y) == (2 * x) * y
  {
  }

  lemma {:induction false} Pow2Monotone(a: nat, b: nat)
    requires a <= b
    ensures Pow2(a) <= Pow2(b)
  {
    if a < b { Pow2Monotone(a, b - 1); }
  }

  lemma {:induction false} ValueBound(bytes: seq<byte>, p: nat, n: nat)
    ensures Value(bytes, p, n) < Pow2(n)
  {
    if n > 0 { ValueBound(bytes, p, n - 1); }
  }

  /** Two consecutive reads are one longer read. */
  lemma {:induction false} ValueSplit(bytes: seq<byte>, p: nat, a: nat, b: nat)
    ensures Value(bytes, p, a + b) == Value(bytes, p, a) * Pow2(b) + Value(bytes, p + a, b)
  {
    if b == 0 {
      assert Pow2(0) == 1 && Value(bytes, p + a, 0) == 0;
    } else {
      ValueSplit(bytes, p, a, b - 1);
      Double(Value(bytes, p, a), Pow2(b - 1));
      assert a + b - 1 == a + (b - 1);
      assert p + (a + b) - 1 == p + a + b - 1;
    }
  }

  lemma Double(v: int, q: int)
    ensures 2 * (v * q) == v * (2 * q)
  {
  }

  /** Writing a number and reading any number of its leading bits. */
  lemma {:induction false} ReadPrefix(bytes: seq<byte>, p: nat, v: nat, n: nat, m: nat)
    requires At(bytes, p, BigEndian(v, n)) && v < Pow2(n) && m <= n
    ensures Value(bytes, p, m) == v / Pow2(n - m)
  {
    if m == n {
      if n > 0 {
        AtConcat(bytes, p, BigEndian(v / 2, n - 1), [v % 2]);
        ReadPrefix(bytes, p, v / 2, n - 1, n - 1);
        assert BitAt(bytes, p + (n - 1) + 0) == [v % 2][0];
        assert p + (n - 1) + 0 == p + n - 1;
      }
    } else {
      AtConcat(bytes, p, BigEndian(v / 2, n - 1), [v % 2]);
      ReadPrefix(bytes, p, v / 2, n - 1, m);
      DivTwice(v, 2, Pow2(n - 1 - m));
    }
  }

  lemma MulAtLeast(d: int, k: int)
    requires d > 0
    ensures k >= 1 ==> d * k >= d
    ensures k <= -1 ==> d * k <= -d
  {
    if k >= 1 {
      assert d * k == d + d * (k - 1) && d * (k - 1) >= 0;
    } else if k <= -1 {
      assert d * k == -d - d * (-k - 1) && d * (-k - 1) >= 0;
    }
  }

  lemma QuotientUnique(v: int, d: int, q: int, r: int)
    requires d > 0 && v == d * q + r && 0 <= r < d
    ensures v / d == q && v % d == r
  {
    var q', r' := v / d, v % d;
    DivModOf(v, d);
    assert d * (q' - q) == d * q' - d * q;
    MulAtLeast(d, q' - q);
  }

  lemma DivModOf(v: int, d: int)
    requires d > 0
    ensures v == d * (v / d) + v % d && 0 <= v % d < d
  {
  }

  lemma DivTwice(v: nat, a: nat, b: nat)
    requires a > 0 && b > 0
    ensures a * b > 0 && v / a / b == v / (a * b)
  {
    var q, r := v / a, v % a;
    var q2, r2 := q / b, q % b;
    DivModOf(v, a);
    DivModOf(q, b);
    Regroup(v, a, b, q, r, q2, r2);
    QuotientUnique(v, a * b, q2, a * r2 + r);
  }

  lemma Regroup(v: int, a: int, b: int, q: int, r: int, q2: int, r2: int)
    requires a > 0 && b > 0 && v == a * q + r && q == b * q2 + r2 && 0 <= r < a && 0 <= r2 < b
    ensures a * b > 0 && v == a * b * q2 + (a * r2 + r) && 0 <= a * r2 + r < a * b
  {
    assert a * q == a * (b * q2) + a * r2;
    assert a * (b * q2) == a * b * q2;
    assert a * b == a * r2 + a * (b - r2);
    MulAtLeast(a, b - r2);
    assert a * r2 >= 0;
  }

  lemma ReadBack(bytes: seq<byte>, p: nat, v: nat, n: nat)
    requires At(bytes, p, BigEndian(v, n)) && v < Pow2(n)
    ensures Value(bytes, p, n) == v
  {
    ReadPrefix(bytes, p, v, n, n);
  }

  // ----- bits as bytes

  function PaddedBit(e: seq<bit>, k: nat): bit
  {
    if k < |e| then e[k] else 0
  }

  /** The first n bits of byte i of the packed stream, as a number. */
  function Leading(e: seq<bit>, i: nat, n: nat): (r: nat)
    ensures r < Pow2(n)
  {
    if n == 0 then 0 else 2 * Leading(e, i, n - 1) + PaddedBit(e, 8 * i + n - 1)
  }

  /** The bytes an encoder writes for the bits e, padded with zeros. */
  function Pack(e: seq<bit>): (bytes: seq<byte>)
    ensures |bytes| == (|e| + 7) / 8
  {
    Pow2Is31();
    seq((|e| + 7) / 8, (i: nat) => Leading(e, i, 8))
  }

  lemma {:induction false} LeadingDrop(e: seq<bit>, i: nat, m: nat, n: nat)
    requires m <= n
    ensures Leading(e, i, n) / Pow2(n - m) == Leading(e, i, m)
    decreases n
  {
    if m == n {
      assert Pow2(0) == 1;
    } else {
      LeadingDrop(e, i, m, n - 1);
      assert Leading(e, i, n) / 2 == Leading(e, i, n - 1);
      DivTwice(Leading(e, i, n), 2, Pow2(n - 1 - m));
    }
  }

  /** Reading the packed bytes gives the bits back. */
  lemma PackedAt(e: seq<bit>)
    ensures At(Pack(e), 0, e)
  {
    forall k | 0 <= k < |e| ensures BitAt(Pack(e), 0 + k) == e[k] {
      var i, m := k / 8, k % 8;
      LeadingDrop(e, i, m + 1, 8);
      assert Pack(e)[i] == Leading(e, i, 8);
      assert Leading(e, i, m + 1) == 2 * Leading(e, i, m) + e[k];
    }
  }

  /** The bits of one byte that start at offset b. */
  lemma {:induction false} ValueInByte(bytes: seq<byte>, i: nat, b: nat, n: nat)
    requires b + n <= 8
    ensures Value(bytes, 8 * i + b, n) == ByteAt(bytes, i) / Pow2(8 - n - b) % Pow2(n)
  {
    if n == 0 {
      assert Pow2(0) == 1;
    } else {
      ValueInByte(bytes, i, b, n - 1);
      BitInByte(bytes, i, b + n - 1);
      assert 7 - (b + n - 1) == 8 - n - b && 8 - (n - 1) - b == (8 - n - b) + 1;
      OneMoreBit(ByteAt(bytes, i), Pow2(8 - n - b), Pow2(n - 1));
    }
  }

  lemma OneMoreBit(v: nat, d: nat, m: nat)
    requires d > 0 && m > 0
    ensures 2 * (v / (2 * d) % m) + v / d % 2 == v / d % (2 * m)
  {
    DivTwice(v, d, 2);
    LowBit(v / d, m);
  }

  lemma BitInByte(bytes: seq<byte>, i: nat, b: nat)
    requires b < 8
    ensures BitAt(bytes, 8 * i + b) == ByteAt(bytes, i) / Pow2(7 - b) % 2
  {
    assert (8 * i + b) / 8 == i && (8 * i + b) % 8 == b;
  }

  lemma LowBit(x: nat, m: nat)
    requires m > 0
    ensures x % (2 * m) == 2 * (x / 2 % m) + x % 2
  {
    var q, r := x / 2 / m, x / 2 % m;
    DivModOf(x / 2, m);
    Double(m, q);
    assert 2 * (m * q) == (2 * m) * q;
    QuotientUnique(x, 2 * m, q, 2 * r + x % 2);
  }

  /** `high | low` when the k low bits of high are clear. */
  function Or(high: int, low: nat, k: nat): int
    requires high % Pow2(k) == 0 && low < Pow2(k)
  {
    high + low
  }

  /** One round of the reader: shift the 32-bit result left and or in k more bits. */
  function Append(result: int, low: nat, k: nat): int
    requires k <= 8 && low < Pow2(k)
  {
    ShiftClears(result, k);
    Or(ToInt32(result * Pow2(k)), low, k)
  }

  lemma SmallPowers(k: nat)
    requires k <= 8
    ensures Pow2(k) * Pow2(31 - k) == 0x8000_0000
  {
    Pow2Add(k, 31 - k);
    Pow2Is31();
  }

  lemma Pow2Is31()
    ensures Pow2(8) == 256 && Pow2(31) == 0x8000_0000
  {
    assert Pow2(4) == 16;
    Pow2Add(4, 4);
    Pow2Add(8, 8);
    Pow2Add(16, 8);
    Pow2Add(24, 7);
    assert Pow2(7) == 2 * Pow2(6) && Pow2(6) == 2 * Pow2(5) && Pow2(5) == 2 * Pow2(4);
  }

  /** The powers that occur as field widths. */
  lemma FieldWidths()
    ensures Pow2(1) == 2 && Pow2(3) == 8 && Pow2(5) == 32 && Pow2(8) == 256
    ensures Pow2(15) == 0x8000 && Pow2(16) == 0x1_0000 && Pow2(24) == 0x100_0000
  {
    assert Pow2(1) == 2 * Pow2(0);
    assert Pow2(3) == 2 * Pow2(2) && Pow2(2) == 2 * Pow2(1);
    Pow2Is31();
    Pow2Add(3, 5);
    Pow2Add(8, 8);
    Pow2Add(16, 8);
    assert Pow2(16) == 2 * Pow2(15);
  }

  /** x * c as a 32-bit integer, for c dividing 2^31. */
  lemma ShiftedInt32(x: int, c: nat, d: nat, low: nat)
    requires c * d == 0x8000_0000 && low < c
    ensures exists y :: ToInt32(x * c) == c * y
    ensures ToInt32(x * c + low) == ToInt32(x * c) + low
  {
    assert c > 0 && d > 0;
    var q, r := x / (2 * d), x % (2 * d);
    DivModOf(x, 2 * d);
    assert c * (2 * d) == 0x1_0000_0000;
    calc {
      x * c;
      ((2 * d) * q + r) * c;
      c * ((2 * d) * q) + c * r;
      (c * (2 * d)) * q + c * r;
      0x1_0000_0000 * q + c * r;
    }
    assert c * (2 * d) == c * r + c * (2 * d - r);
    MulAtLeast(c, 2 * d - r);
    assert c * r >= 0;
    QuotientUnique(x * c, 0x1_0000_0000, q, c * r);
    QuotientUnique(x * c + low, 0x1_0000_0000, q, c * r + low);
    assert c * (d - r) == c * d - c * r;
    MulAtLeast(c, d - r);
    MulAtLeast(c, r - d);
    if r < d {
      assert ToInt32(x * c) == c * r;
    } else {
      assert c * (r - 2 * d) == c * r - c * (2 * d);
      assert ToInt32(x * c) == c * (r - 2 * d);
    }
  }

  lemma ShiftClears(x: int, k: nat)
    requires k <= 8
    ensures ToInt32(x * Pow2(k)) % Pow2(k) == 0
  {
    SmallPowers(k);
    ShiftedInt32(x, Pow2(k), Pow2(31 - k), 0);
    var y :| ToInt32(x * Pow2(k)) == Pow2(k) * y;
    QuotientUnique(ToInt32(x * Pow2(k)), Pow2(k), y, 0);
  }

  lemma AppendInt32(v: int, low: nat, k: nat)
    requires k <= 8 && low < Pow2(k)
    ensures Append(ToInt32(v), low, k) == ToInt32(v * Pow2(k) + low)
  {
    SmallPowers(k);
    var c := Pow2(k);
    ShiftedInt32(v, c, Pow2(31 - k), low);
    var w := Int32Wraps(v);
    Rescale(v, w, c);
    SameInt32(v * c, -(w * c));
  }

  lemma Int32Wraps(v: int) returns (w: int)
    ensures ToInt32(v) == v - 0x1_0000_0000 * w
  {
    w := if v % 0x1_0000_0000 < 0x8000_0000 then v / 0x1_0000_0000 else v / 0x1_0000_0000 + 1;
  }

  lemma Rescale(v: int, w: int, c: int)
    ensures (v - 0x1_0000_0000 * w) * c == v * c + 0x1_0000_0000 * -(w * c)
  {
  }

  lemma SameInt32(x: int, q: int)
    ensures ToInt32(x + 0x1_0000_0000 * q) == ToInt32(x)
  {
    DivModOf(x, 0x1_0000_0000);
    QuotientUnique(x + 0x1_0000_0000 * q, 0x1_0000_0000, x / 0x1_0000_0000 + q, x % 0x1_0000_0000);
  }

  /** What one round of the reader's loop does: k bits of the current byte join
      the m bits already read. */
  lemma RoundIsExact(bytes: seq<byte>, p: nat, m: nat, i: nat, b: nat, k: nat)
    requires p + m == 8 * i + b && b + k <= 8
    ensures ByteAt(bytes, i) / Pow2(8 - k - b) % Pow2(k) < Pow2(k)
    ensures b + k == 8 ==> ByteAt(bytes, i) / Pow2(8 - k - b) == ByteAt(bytes, i)
    ensures Append(ToInt32(Value(bytes, p, m)), ByteAt(bytes, i) / Pow2(8 - k - b) % Pow2(k), k)
         == ToInt32(Value(bytes, p, m + k))
  {
    assert Pow2(0) == 1;
    ValueInByte(bytes, i, b, k);
    ValueBound(bytes, p + m, k);
    ValueSplit(bytes, p, m, k);
    AppendInt32(Value(bytes, p, m), Value(bytes, p + m, k), k);
  }

  lemma ExactUpTo31(bytes: seq<byte>, p: nat, n: nat)
    ensures n <= 31 ==> ToInt32(Value(bytes, p, n)) == Value(bytes, p, n)
  {
    if n <= 31 {
      ValueBound(bytes, p, n);
      Pow2Monotone(n, 31);
      Pow2Is31();
    }
  }

  lemma OneBit(bytes: seq<byte>, p: nat)
    ensures Value(bytes, p, 1) == BitAt(bytes, p)
  {
    assert Value(bytes, p, 0) == 0;
  }

  class BitReader {
    const bytes: seq<byte>
    var bit: nat
    var byte: nat

    ghost predicate Valid()
      reads this
    {
      bit < 8
    }

    ghost function Position(): nat
      reads this
    {
      8 * byte + bit
    }

    constructor (bytes: seq<byte>)
      ensures Valid() && Position() == 0 && this.bytes == bytes
    {
      this.bytes := bytes;
      bit, byte := 0, 0;
    }

    /** Reads n bits. The result is exact up to 31 bits and wraps like any
        32-bit shift does beyond that. */
    method Bits(n: nat) returns (result: int)
      requires Valid()
      modifies this
      ensures Valid() && Position() == old(Position()) + n
      ensures var v := Value(bytes, old(Position()), n); result == if n <= 31 then v else ToInt32(v)
    {
      result := 0;
      var n' := n;
      ghost var p := Position();
      while n' > 0
        invariant Valid() && 0 <= n' <= n && Position() == p + n - n'
        invariant result == ToInt32(Value(bytes, p, n - n'))
      {
        var left := 8 - bit;
        var b := ByteAt(bytes, byte);
        RoundIsExact(bytes, p, n - n', byte, bit, if n' >= left then left else n');
        if n' >= left {
          result := Append(result, b % Pow2(left), left);
          bit, byte, n' := 0, byte + 1, n' - left;
        } else {
          result := Append(result, b / Pow2(8 - n' - bit) % Pow2(n'), n');
          bit, n' := bit + n', 0;
        }
      }
      ExactUpTo31(bytes, p, n);
    }
  }
}
