/** What the move-to-front list of bzip2.js holds, told by the bytes already written and not by its moves. */
module Recency {
  import opened Bits
  import opened Outcomes
  import opened Rearrange
  import opened Rle
  import opened History
  import opened Mtf
  import opened MtfRoundTrip

  ghost predicate AscendingBytes(a: Alphabet)
  {
    |a.symToByte| == 256 && a.symTotal <= 256
    && forall i, j :: 0 <= i < j < a.symTotal ==> a.symToByte[i] < a.symToByte[j]
  }

  /** The list stands in this order: the bytes written, by most recent occurrence, and then the others, ascending. */
  ghost predicate ByRecency(a: Alphabet, order: Order, seen: seq<byte>)
    requires IsAlphabet(a)
  {
    forall i, j :: 0 <= i < j < a.symTotal ==> Ahead(seen, ByteOf(a, order, i), ByteOf(a, order, j))
  }

  lemma InitialRecency(a: Alphabet)
    requires IsAlphabet(a) && AscendingBytes(a)
    ensures ByRecency(a, InitialOrder(), [])
  {
  }

  lemma ByteAtDistinct(a: Alphabet, order: Order, i: nat, j: nat)
    requires IsAlphabet(a) && AscendingBytes(a) && Orders(order, a.symTotal) && i < j < a.symTotal
    ensures ByteOf(a, order, i) != ByteOf(a, order, j)
  {
    var p := order[..a.symTotal];
    assert p[i] != p[j] && p[i] == order[i] && p[j] == order[j];
  }

  /** Writing the byte at position i and moving it to the front keeps the list in this order. */
  lemma MoveKeepsRecency(a: Alphabet, order: Order, seen: seq<byte>, i: nat)
    requires IsAlphabet(a) && AscendingBytes(a) && Orders(order, a.symTotal) && i < a.symTotal
    requires ByRecency(a, order, seen)
    ensures ByRecency(a, MoveToFront(order, i), seen + [ByteOf(a, order, i)])
  {
    var v := ByteOf(a, order, i);
    var moved := MoveToFront(order, i);
    forall j, k | 0 <= j < k < a.symTotal
      ensures Ahead(seen + [v], ByteOf(a, moved, j), ByteOf(a, moved, k))
    {
      var j' := if j == 0 then i else if j <= i then j - 1 else j;
      var k' := if k <= i then k - 1 else k;
      assert ByteOf(a, moved, j) == ByteOf(a, order, j') && ByteOf(a, moved, k) == ByteOf(a, order, k');
      if k' < i { ByteAtDistinct(a, order, k', i); } else { ByteAtDistinct(a, order, i, k'); }
      if j' < i { ByteAtDistinct(a, order, j', i); } else if i < j' { ByteAtDistinct(a, order, i, j'); }
      SeenMore(seen, v, ByteOf(a, order, j'));
      SeenMore(seen, v, ByteOf(a, order, k'));
      hide LastSeen;
    }
  }

  /** Copies of the front byte leave the order right. */
  lemma {:induction false} FrontKeepsRecency(a: Alphabet, order: Order, seen: seq<byte>, r: nat)
    requires IsAlphabet(a) && AscendingBytes(a) && Orders(order, a.symTotal) && ByRecency(a, order, seen)
    ensures ByRecency(a, order, seen + Repeat(ByteOf(a, order, 0), r))
  {
    var front := ByteOf(a, order, 0);
    if r == 0 {
      assert seen + Repeat(front, 0) == seen;
    } else {
      FrontKeepsRecency(a, order, seen, r - 1);
      var before := seen + Repeat(front, r - 1);
      assert seen + Repeat(front, r) == before + [front];
      if a.symTotal > 0 { OnceMore(a, order, before); }
    }
  }

  lemma OnceMore(a: Alphabet, order: Order, seen: seq<byte>)
    requires IsAlphabet(a) && AscendingBytes(a) && Orders(order, a.symTotal) && ByRecency(a, order, seen)
    requires a.symTotal > 0
    ensures ByRecency(a, order, seen + [ByteOf(a, order, 0)])
  {
    var front := ByteOf(a, order, 0);
    forall j, k | 0 <= j < k < a.symTotal
      ensures Ahead(seen + [front], ByteOf(a, order, j), ByteOf(a, order, k))
    {
      ByteAtDistinct(a, order, 0, k);
      if j > 0 { ByteAtDistinct(a, order, 0, j); }
      SeenMore(seen, front, ByteOf(a, order, j));
      SeenMore(seen, front, ByteOf(a, order, k));
      hide LastSeen;
    }
  }

  /** After every symbol the list stands by recency of the bytes in the buffer. */
  lemma StepKeepsRecency(a: Alphabet, s: State, sym: nat)
    requires IsAlphabet(a) && AscendingBytes(a) && Orders(s.order, a.symTotal) && ByRecency(a, s.order, s.out)
    requires Step(a, s, sym).More?
    ensures ByRecency(a, Step(a, s, sym).state.order, Step(a, s, sym).state.out)
  {
    if sym > RUNB {
      var flushed := Flush(a, s).value;
      if s.runPos != 0 { FrontKeepsRecency(a, s.order, s.out, s.t); }
      hide ByRecency, MoveToFront;
      MoveKeepsRecency(a, s.order, flushed, sym - 1);
    }
  }

  // ----- positions by counting

  /** The bytes ahead of v. */
  function BytesAhead(a: Alphabet, seen: seq<byte>, v: byte): set<byte>
    requires IsAlphabet(a)
  {
    set w | w in a.symToByte[..a.symTotal] && Ahead(seen, w, v)
  }

  /** The position written for v: how many bytes are ahead of it. */
  function Rank(a: Alphabet, seen: seq<byte>, v: byte): nat
    requires IsAlphabet(a)
  {
    |BytesAhead(a, seen, v)|
  }

  function Positions(a: Alphabet, seen: seq<byte>, text: seq<byte>): (ps: seq<nat>)
    requires IsAlphabet(a)
    ensures |ps| == |text|
    decreases |text|
  {
    if text == [] then [] else [Rank(a, seen, text[0])] + Positions(a, seen + [text[0]], text[1..])
  }

  /** Positions 0 as runs, r of them pending, and the others as symbols. */
  function PositionCode(a: Alphabet, r: nat, ps: seq<nat>): seq<nat>
    decreases |ps|
  {
    if ps == [] then Digits(r) + [EndOfBlock(a)]
    else if ps[0] == 0 then PositionCode(a, r + 1, ps[1..])
    else Digits(r) + [ps[0] + 1] + PositionCode(a, 0, ps[1..])
  }

  /** The symbols of a text: its positions by recency, and runs. No list is moved. */
  function RecencySymbols(a: Alphabet, text: seq<byte>): seq<nat>
    requires IsAlphabet(a)
  {
    PositionCode(a, 0, Positions(a, [], text))
  }

  lemma AheadIsFirst(a: Alphabet, order: Order, seen: seq<byte>, i: nat)
    requires IsAlphabet(a) && AscendingBytes(a) && Orders(order, a.symTotal) && ByRecency(a, order, seen)
    requires i < a.symTotal
    ensures Rank(a, seen, ByteOf(a, order, i)) == i
  {
    var v := ByteOf(a, order, i);
    var first := seq(i, k requires 0 <= k < i => ByteOf(a, order, k));
    forall j, k | 0 <= j < k < i ensures first[j] != first[k] { ByteAtDistinct(a, order, j, k); }
    DistinctCount(first);
    forall w: byte ensures w in BytesAhead(a, seen, v) <==> w in Elements(first) {
      if w in first {
        var k: nat :| k < i && first[k] == w;
        assert order[..a.symTotal][k] < a.symTotal;
        assert a.symToByte[..a.symTotal][order[k]] == w;
      }
      if w in a.symToByte[..a.symTotal] {
        StandsAhead(a, order, seen, i, w);
        if k :| 0 <= k < i && ByteOf(a, order, k) == w { assert first[k] == w; }
      }
    }
    assert BytesAhead(a, seen, v) == Elements(first);
  }

  /** A byte of the alphabet is ahead of the one at position i exactly when it stands before it. */
  lemma StandsAhead(a: Alphabet, order: Order, seen: seq<byte>, i: nat, w: byte)
    requires IsAlphabet(a) && Orders(order, a.symTotal) && ByRecency(a, order, seen)
    requires i < a.symTotal && w in a.symToByte[..a.symTotal]
    ensures Ahead(seen, w, ByteOf(a, order, i)) <==> exists k :: 0 <= k < i && ByteOf(a, order, k) == w
  {
    var m: nat :| m < a.symTotal && a.symToByte[..a.symTotal][m] == w;
    assert InAlphabet(a, w) by { assert a.symToByte[m] == w; }
    AlphabetInOrder(a, order, w);
    var k: nat :| k < a.symTotal && ByteOf(a, order, k) == w;
    hide LastSeen;
  }

  /** Encoding with a list that is moved writes the positions by recency. */
  lemma {:induction false} EncodeIsRecency(a: Alphabet, order: Order, seen: seq<byte>, r: nat, text: seq<byte>)
    requires IsAlphabet(a) && AscendingBytes(a) && Orders(order, a.symTotal) && Spells(a, text)
    requires ByRecency(a, order, seen)
    ensures Encode(a, order, r, text) == PositionCode(a, r, Positions(a, seen, text))
    decreases |text|
  {
    hide Digits, Rank, ByRecency, MoveToFront;
    if text != [] {
      SpellsTail(a, text);
      var i := Position(a, order, text[0]);
      AheadIsFirst(a, order, seen, i);
      MoveKeepsRecency(a, order, seen, i);
      assert Positions(a, seen, text)[1..] == Positions(a, seen + [text[0]], text[1..]);
      if i == 0 {
        OnceMore(a, order, seen);
        EncodeIsRecency(a, order, seen + [text[0]], r + 1, text[1..]);
      } else {
        MoveKeepsOrder(order, a.symTotal, i);
        EncodeIsRecency(a, MoveToFront(order, i), seen + [text[0]], 0, text[1..]);
      }
    }
  }

  /** The symbols of a text decode to it if and only if it fits the buffer. */
  lemma RecencyRoundTrip(a: Alphabet, text: seq<byte>)
    requires IsAlphabet(a) && AscendingBytes(a) && 1 <= a.symTotal && Spells(a, text) && |text| < 0xffff_ffff
    ensures var d := Fold(a, InitialState(), RecencySymbols(a, text));
      if |text| < a.bufsize || (|text| == a.bufsize && !EndsInRun(a.symToByte[0], text)) then d == Ok(text) else d.Err?
  {
    hide Fold, Encode, ByRecency;
    InitialOrders(a.symTotal);
    InitialRecency(a);
    EncodeIsRecency(a, InitialOrder(), [], 0, text);
    SymbolRoundTrip(a, text);
  }
}
