/** The encoding that the symbol machine inverts, and exactly when it does. */
module MtfRoundTrip {
  import opened Bits
  import opened Outcomes
  import opened Rearrange
  import opened Rle
  import opened Mtf

  /** The end mark. */
  function EndOfBlock(a: Alphabet): nat { a.symTotal + 1 }

  ghost predicate InAlphabet(a: Alphabet, v: byte)
    requires IsAlphabet(a)
  {
    exists k :: 0 <= k < a.symTotal && a.symToByte[k] == v
  }

  ghost predicate Spells(a: Alphabet, text: seq<byte>)
    requires IsAlphabet(a)
  {
    forall i :: 0 <= i < |text| ==> InAlphabet(a, text[i])
  }

  /** The byte at position i of the order. */
  function ByteOf(a: Alphabet, order: Order, i: nat): byte
    requires IsAlphabet(a) && i < 256
  {
    a.symToByte[order[i]]
  }

  lemma AlphabetInOrder(a: Alphabet, order: Order, v: byte)
    requires IsAlphabet(a) && Orders(order, a.symTotal) && InAlphabet(a, v)
    ensures exists i :: 0 <= i < a.symTotal && ByteOf(a, order, i) == v
  {
    var k :| 0 <= k < a.symTotal && a.symToByte[k] == v;
    PermutationOnto(order[..a.symTotal], k);
    var i :| 0 <= i < a.symTotal && order[..a.symTotal][i] == k;
    assert ByteOf(a, order, i) == v;
  }

  /** The first position of a byte in the order. */
  ghost function Position(a: Alphabet, order: Order, v: byte): (i: nat)
    requires IsAlphabet(a) && Orders(order, a.symTotal) && InAlphabet(a, v)
    ensures i < a.symTotal && ByteOf(a, order, i) == v
    ensures i == 0 <==> ByteOf(a, order, 0) == v
  {
    AlphabetInOrder(a, order, v);
    if ByteOf(a, order, 0) == v then 0
    else var i: nat :| i < a.symTotal && ByteOf(a, order, i) == v; i
  }

  /** The symbols for a text when r copies of the front byte are still to be written. */
  ghost function Encode(a: Alphabet, order: Order, r: nat, text: seq<byte>): (syms: seq<nat>)
    requires IsAlphabet(a) && Orders(order, a.symTotal) && Spells(a, text)
    decreases |text|
  {
    if text == [] then Digits(r) + [EndOfBlock(a)]
    else
      var i := Position(a, order, text[0]);
      assert Spells(a, text[1..]) by { SpellsTail(a, text); }
      if i == 0 then Encode(a, order, r + 1, text[1..])
      else
        MoveKeepsOrder(order, a.symTotal, i);
        Digits(r) + [i + 1] + Encode(a, MoveToFront(order, i), 0, text[1..])
  }

  lemma SpellsTail(a: Alphabet, text: seq<byte>)
    requires IsAlphabet(a) && Spells(a, text) && text != []
    ensures InAlphabet(a, text[0]) && Spells(a, text[1..])
  {
  }

  /** The encoding of the text ends in a run. */
  predicate EndsInRun(front: byte, text: seq<byte>)
  {
    text != [] && text[|text| - 1] == if |text| == 1 then front else text[|text| - 2]
  }

  /** The buffer takes the text. A run may not fill it to the last slot. */
  predicate Fits(a: Alphabet, front: byte, used: nat, r: nat, text: seq<byte>)
  {
    var n := used + r + |text|;
    n < a.bufsize || (n == a.bufsize && !if text == [] then r > 0 else EndsInRun(front, text))
  }

  // ----- decoding what was encoded

  /** A run length that has at most 31 digits: the weight of the digits stays a non-zero 32-bit number. */
  predicate RunFits(r: nat) { |Digits(r)| <= 31 }

  lemma ShortRunFits(r: nat)
    requires r < 0xffff_ffff
    ensures RunFits(r)
  {
    DigitsOfLength(r);
    Pow2Is31();
    if |Digits(r)| > 31 { Pow2Monotone(32, |Digits(r)|); }
  }

  /** The state after the digits of a run. */
  function Pending(s: State, r: nat): State
    requires RunFits(r)
  {
    if r == 0 then s
    else
      DigitsOfLength(r);
      InRun(s, |Digits(r)|, r)
  }

  lemma FoldPending(a: Alphabet, s: State, r: nat, sym: nat, rest: seq<nat>)
    requires IsAlphabet(a) && s.runPos == 0 && RunFits(r)
    ensures Fold(a, s, Digits(r) + [sym] + rest) == Resume(a, Step(a, Pending(s, r), sym), rest)
  {
    hide Fold, Step, Resume;
    assert Digits(r) + [sym] + rest == Digits(r) + ([sym] + rest);
    if r == 0 {
      assert Digits(0) + ([sym] + rest) == [sym] + rest;
    } else {
      FoldRun(a, s, r, [sym] + rest);
    }
    FoldOne(a, Pending(s, r), sym, rest);
  }

  lemma FlushPending(a: Alphabet, s: State, r: nat)
    requires IsAlphabet(a) && s.runPos == 0 && RunFits(r)
    ensures Flush(a, Pending(s, r)) ==
      if r > 0 && |s.out| + r >= a.bufsize then Err(RunOverflowsBuffer)
      else Ok(s.out + Repeat(ByteOf(a, s.order, 0), r))
  {
    if r > 0 { WeightIs(|Digits(r)|); }
    if r == 0 { assert s.out + Repeat(ByteOf(a, s.order, 0), 0) == s.out; }
  }

  /** The state after a run and one literal. */
  function AfterLiteral(a: Alphabet, s: State, r: nat, i: nat): State
    requires IsAlphabet(a) && i < 256
  {
    Registers(MoveToFront(s.order, i), 0, if r == 0 then s.t else r,
          s.out + Repeat(ByteOf(a, s.order, 0), r) + [ByteOf(a, s.order, i)])
  }

  lemma FoldLiteral(a: Alphabet, s: State, r: nat, i: nat, rest: seq<nat>)
    requires IsAlphabet(a) && s.runPos == 0 && RunFits(r) && 1 <= i < a.symTotal
    ensures |s.out| + r < a.bufsize ==>
      Fold(a, s, Digits(r) + [i + 1] + rest) == Fold(a, AfterLiteral(a, s, r, i), rest)
    ensures |s.out| + r >= a.bufsize ==> Fold(a, s, Digits(r) + [i + 1] + rest).Err?
  {
    hide Fold, Digits;
    FoldPending(a, s, r, i + 1, rest);
    FlushPending(a, s, r);
  }

  lemma FoldEnd(a: Alphabet, s: State, r: nat)
    requires IsAlphabet(a) && s.runPos == 0 && RunFits(r) && 1 <= a.symTotal
    ensures Fold(a, s, Digits(r) + [EndOfBlock(a)]) ==
      if r > 0 && |s.out| + r >= a.bufsize then Err(RunOverflowsBuffer)
      else Ok(s.out + Repeat(ByteOf(a, s.order, 0), r))
  {
    hide Fold, Digits;
    assert Digits(r) + [EndOfBlock(a)] == Digits(r) + [EndOfBlock(a)] + [];
    FoldPending(a, s, r, EndOfBlock(a), []);
    FlushPending(a, s, r);
  }

  /** What decoding an encoded text gives, in every case. */
  ghost predicate Decodes(a: Alphabet, s: State, r: nat, text: seq<byte>)
    requires IsAlphabet(a) && Orders(s.order, a.symTotal) && Spells(a, text)
  {
    var front := ByteOf(a, s.order, 0);
    var d := Fold(a, s, Encode(a, s.order, r, text));
    if Fits(a, front, |s.out|, r, text) then d == Ok(s.out + Repeat(front, r) + text) else d.Err?
  }

  lemma {:induction false} EncodedDecodes(a: Alphabet, s: State, r: nat, text: seq<byte>)
    requires IsAlphabet(a) && 1 <= a.symTotal && Orders(s.order, a.symTotal) && Spells(a, text)
    requires s.runPos == 0 && |s.out| <= a.bufsize && r + |text| < 0xffff_ffff
    ensures Decodes(a, s, r, text)
    decreases |text|
  {
    var front := ByteOf(a, s.order, 0);
    ShortRunFits(r);
    if text == [] {
      FoldEnd(a, s, r);
      assert s.out + Repeat(front, r) + [] == s.out + Repeat(front, r);
    } else {
      SpellsTail(a, text);
      var i := Position(a, s.order, text[0]);
      if i == 0 {
        EncodedDecodes(a, s, r + 1, text[1..]);
        RunGoesOn(a, s, r, text);
      } else {
        MoveKeepsOrder(s.order, a.symTotal, i);
        var s' := AfterLiteral(a, s, r, i);
        FoldLiteral(a, s, r, i, Encode(a, s'.order, 0, text[1..]));
        if |s.out| + r < a.bufsize {
          EncodedDecodes(a, s', 0, text[1..]);
          LiteralGoesOn(a, s, r, text, i);
        }
      }
    }
  }

  lemma RunGoesOn(a: Alphabet, s: State, r: nat, text: seq<byte>)
    requires IsAlphabet(a) && Orders(s.order, a.symTotal) && Spells(a, text) && text != []
    requires InAlphabet(a, text[0]) && Spells(a, text[1..]) && Position(a, s.order, text[0]) == 0
    requires Decodes(a, s, r + 1, text[1..])
    ensures Decodes(a, s, r, text)
  {
    hide Fold, Position;
    var front := ByteOf(a, s.order, 0);
    RepeatMore(front, r);
    assert s.out + Repeat(front, r + 1) + text[1..] == s.out + Repeat(front, r) + text;
    assert Fits(a, front, |s.out|, r + 1, text[1..]) == Fits(a, front, |s.out|, r, text);
  }

  lemma LiteralGoesOn(a: Alphabet, s: State, r: nat, text: seq<byte>, i: nat)
    requires IsAlphabet(a) && Orders(s.order, a.symTotal) && Spells(a, text) && text != []
    requires InAlphabet(a, text[0]) && Spells(a, text[1..]) && 0 < i == Position(a, s.order, text[0])
    requires Orders(MoveToFront(s.order, i), a.symTotal) && Decodes(a, AfterLiteral(a, s, r, i), 0, text[1..])
    requires Fold(a, s, Digits(r) + [i + 1] + Encode(a, MoveToFront(s.order, i), 0, text[1..]))
          == Fold(a, AfterLiteral(a, s, r, i), Encode(a, MoveToFront(s.order, i), 0, text[1..]))
    ensures Decodes(a, s, r, text)
  {
    hide Fold, Position, Digits, Pending;
    var s', front := AfterLiteral(a, s, r, i), ByteOf(a, s.order, 0);
    assert ByteOf(a, s'.order, 0) == text[0];
    assert s'.out + Repeat(text[0], 0) + text[1..] == s.out + Repeat(front, r) + text;
    assert Fits(a, text[0], |s'.out|, 0, text[1..]) == Fits(a, front, |s.out|, r, text);
  }

  function InitialState(): State
  {
    Registers(InitialOrder(), 0, 0, [])
  }

  lemma InitialOrders(n: nat)
    requires n <= 256
    ensures Orders(InitialOrder(), n)
  {
  }

  /** The symbol machine inverts the encoding exactly for the texts that fit the buffer. */
  lemma SymbolRoundTrip(a: Alphabet, text: seq<byte>)
    requires IsAlphabet(a) && 1 <= a.symTotal && Spells(a, text) && |text| < 0xffff_ffff
    ensures Orders(InitialOrder(), a.symTotal)
    ensures var d := Fold(a, InitialState(), Encode(a, InitialOrder(), 0, text));
      if |text| < a.bufsize || (|text| == a.bufsize && !EndsInRun(a.symToByte[0], text)) then d == Ok(text) else d.Err?
  {
    InitialOrders(a.symTotal);
    hide Fold;
    EncodedDecodes(a, InitialState(), 0, text);
    assert [] + Repeat(a.symToByte[0], 0) + text == text;
    assert !EndsInRun(a.symToByte[0], []);
  }

  // ----- an accepted list of symbols is the encoding of what it decodes to

  /** All symbols but the last are below the end mark, which is the last. */
  ghost predicate Terminated(a: Alphabet, syms: seq<nat>)
  {
    && syms != [] && syms[|syms| - 1] == EndOfBlock(a)
    && forall i :: 0 <= i < |syms| - 1 ==> syms[i] <= a.symTotal
  }

  /** How many digits the symbols start with. */
  function Leading(syms: seq<nat>): (k: nat)
    ensures k <= |syms| && AreDigits(syms[..k])
    ensures k < |syms| ==> syms[k] > RUNB
  {
    if syms == [] || syms[0] > RUNB then 0
    else
      var k := 1 + Leading(syms[1..]);
      assert syms[..k] == [syms[0]] + syms[1..][..k - 1];
      k
  }

  /** No run is spelled with more than 31 digits: the 32nd would make it vanish. */
  ghost predicate ShortRuns(syms: seq<nat>)
  {
    forall i :: 0 <= i < |syms| ==> Leading(syms[i..]) <= 31
  }

  ghost predicate DistinctBytes(a: Alphabet)
  {
    |a.symToByte| == 256 && a.symTotal <= 256 && Distinct(a.symToByte[..a.symTotal])
  }

  lemma PositionOfByte(a: Alphabet, order: Order, i: nat)
    requires IsAlphabet(a) && DistinctBytes(a) && Orders(order, a.symTotal) && i < a.symTotal
    ensures InAlphabet(a, ByteOf(a, order, i)) && Position(a, order, ByteOf(a, order, i)) == i
  {
    var p := order[..a.symTotal];
    var b := a.symToByte[..a.symTotal];
    assert p[i] == order[i] && b[p[i]] == ByteOf(a, order, i);
    var k := Position(a, order, ByteOf(a, order, i));
    assert p[k] == order[k] && b[p[k]] == ByteOf(a, order, k);
  }

  lemma FrontInAlphabet(a: Alphabet, order: Order)
    requires IsAlphabet(a) && Orders(order, a.symTotal) && 1 <= a.symTotal
    ensures InAlphabet(a, ByteOf(a, order, 0))
  {
    assert order[..a.symTotal][0] < a.symTotal;
  }

  /** Copies of the front byte only lengthen the pending run. */
  lemma {:induction false} EncodeFront(a: Alphabet, order: Order, q: nat, r: nat, text: seq<byte>)
    requires IsAlphabet(a) && Orders(order, a.symTotal) && Spells(a, text) && 1 <= a.symTotal
    ensures Spells(a, Repeat(ByteOf(a, order, 0), r) + text)
    ensures Encode(a, order, q, Repeat(ByteOf(a, order, 0), r) + text) == Encode(a, order, q + r, text)
    decreases r
  {
    var front := ByteOf(a, order, 0);
    FrontInAlphabet(a, order);
    if r == 0 {
      assert Repeat(front, 0) + text == text;
    } else {
      RepeatMore(front, r - 1);
      var all := Repeat(front, r) + text;
      assert all[0] == front && all[1..] == Repeat(front, r - 1) + text;
      EncodeFront(a, order, q + 1, r - 1, text);
    }
  }

  /** The first run of an accepted list, and the symbol after it. */
  lemma SplitLead(syms: seq<nat>) returns (r: nat, sym: nat, rest: seq<nat>)
    requires syms != [] && syms[|syms| - 1] > RUNB && ShortRuns(syms)
    ensures syms == Digits(r) + [sym] + rest && sym > RUNB && RunFits(r)
  {
    var k := ShortLead(syms);
    hide Leading, Length, Digits, ShortRuns;
    var d := syms[..k];
    assert syms == d + [syms[k]] + syms[k + 1..];
    r, sym, rest := Length(d), syms[k], syms[k + 1..];
    LengthOfDigits(d);
  }

  lemma ShortLead(syms: seq<nat>) returns (k: nat)
    requires syms != [] && syms[|syms| - 1] > RUNB && ShortRuns(syms)
    ensures k <= 31 && k < |syms| && syms[k] > RUNB && AreDigits(syms[..k])
  {
    assert syms[0..] == syms;
    k := Leading(syms);
  }

  /** Whatever list of symbols the machine accepts, it is the encoding of the buffer it
      leaves: no two lists with short runs decode to the same text. */
  lemma {:induction false} AcceptedIsEncoded(a: Alphabet, s: State, syms: seq<nat>) returns (text: seq<byte>)
    requires IsAlphabet(a) && DistinctBytes(a) && 1 <= a.symTotal && Orders(s.order, a.symTotal) && s.runPos == 0
    requires Terminated(a, syms) && ShortRuns(syms) && Fold(a, s, syms).Ok?
    ensures Spells(a, text) && Fold(a, s, syms) == Ok(s.out + text)
    ensures Encode(a, s.order, 0, text) == syms
    decreases |syms|
  {
    var r, sym, rest := SplitLead(syms);
    if rest == [] {
      text := AcceptedEnd(a, s, r, syms);
    } else {
      var i := sym - 1;
      LiteralIndex(a, s, syms, r, sym, rest);
      FoldLiteral(a, s, r, i, rest);
      MoveKeepsOrder(s.order, a.symTotal, i);
      hide Fold, Digits, Encode;
      var more := AcceptedIsEncoded(a, AfterLiteral(a, s, r, i), rest);
      text := AcceptedLiteral(a, s, r, i, rest, more);
    }
  }

  lemma LiteralIndex(a: Alphabet, s: State, syms: seq<nat>, r: nat, sym: nat, rest: seq<nat>)
    requires Terminated(a, syms) && ShortRuns(syms) && syms == Digits(r) + [sym] + rest && rest != [] && sym > RUNB
    ensures sym <= a.symTotal && Terminated(a, rest) && ShortRuns(rest) && |rest| < |syms|
  {
    hide Digits, Leading;
    assert sym == syms[|Digits(r)|] && |Digits(r)| < |syms| - 1;
    assert rest == syms[|Digits(r)| + 1..];
    TerminatedRest(a, syms, |Digits(r)| + 1, rest);
  }

  lemma AcceptedEnd(a: Alphabet, s: State, r: nat, syms: seq<nat>) returns (text: seq<byte>)
    requires IsAlphabet(a) && 1 <= a.symTotal && Orders(s.order, a.symTotal) && s.runPos == 0 && RunFits(r)
    requires Terminated(a, syms) && Fold(a, s, syms).Ok?
    requires exists sym :: syms == Digits(r) + [sym] + []
    ensures Spells(a, text) && Fold(a, s, syms) == Ok(s.out + text)
    ensures Encode(a, s.order, 0, text) == syms
  {
    var sym :| syms == Digits(r) + [sym] + [];
    assert syms[|syms| - 1] == sym;
    assert syms == Digits(r) + [EndOfBlock(a)];
    FoldEnd(a, s, r);
    text := Repeat(ByteOf(a, s.order, 0), r);
    EncodeFront(a, s.order, 0, r, []);
    assert text + [] == text;
  }

  lemma AcceptedLiteral(a: Alphabet, s: State, r: nat, i: nat, rest: seq<nat>, more: seq<byte>)
      returns (text: seq<byte>)
    requires IsAlphabet(a) && DistinctBytes(a) && Orders(s.order, a.symTotal) && 0 < i < a.symTotal
    requires Orders(MoveToFront(s.order, i), a.symTotal) && Spells(a, more)
    requires Encode(a, MoveToFront(s.order, i), 0, more) == rest
    requires Fold(a, s, Digits(r) + [i + 1] + rest) == Ok(AfterLiteral(a, s, r, i).out + more)
    ensures Spells(a, text) && Fold(a, s, Digits(r) + [i + 1] + rest) == Ok(s.out + text)
    ensures Encode(a, s.order, 0, text) == Digits(r) + [i + 1] + rest
  {
    hide Fold, Digits, Encode, Position, Pending, MoveToFront;
    var front, v := ByteOf(a, s.order, 0), ByteOf(a, s.order, i);
    PositionOfByte(a, s.order, i);
    EncodeLiteral(a, s.order, r, i, more);
    EncodeFront(a, s.order, 0, r, [v] + more);
    text := Repeat(front, r) + ([v] + more);
    assert AfterLiteral(a, s, r, i).out + more == s.out + text;
  }

  lemma EncodeLiteral(a: Alphabet, order: Order, r: nat, i: nat, more: seq<byte>)
    requires IsAlphabet(a) && Orders(order, a.symTotal) && 0 < i < a.symTotal && Spells(a, more)
    requires InAlphabet(a, ByteOf(a, order, i)) && Position(a, order, ByteOf(a, order, i)) == i
    ensures Spells(a, [ByteOf(a, order, i)] + more) && Orders(MoveToFront(order, i), a.symTotal)
    ensures Encode(a, order, r, [ByteOf(a, order, i)] + more)
         == Digits(r) + [i + 1] + Encode(a, MoveToFront(order, i), 0, more)
  {
    MoveKeepsOrder(order, a.symTotal, i);
    assert ([ByteOf(a, order, i)] + more)[1..] == more;
  }

  lemma TerminatedRest(a: Alphabet, syms: seq<nat>, k: nat, rest: seq<nat>)
    requires Terminated(a, syms) && ShortRuns(syms) && k < |syms| && rest == syms[k..]
    ensures Terminated(a, rest) && ShortRuns(rest)
  {
    forall i | 0 <= i < |rest| ensures Leading(rest[i..]) <= 31 {
      assert rest[i..] == syms[k + i..];
    }
    forall i | 0 <= i < |rest| - 1 ensures rest[i] <= a.symTotal {
      assert rest[i] == syms[k + i];
    }
  }

  // ----- which accepted lists are encodings

  lemma {:induction false} FoldFillsBuffer(a: Alphabet, s: State, syms: seq<nat>)
    requires IsAlphabet(a) && |s.out| <= a.bufsize && Fold(a, s, syms).Ok?
    ensures |Fold(a, s, syms).value| <= a.bufsize
    decreases |syms|
  {
    var o := Step(a, s, syms[0]);
    if o.More? { FoldFillsBuffer(a, o.state, syms[1..]); }
  }

  lemma {:induction false} LeadingAt(d: seq<nat>, sym: nat, rest: seq<nat>)
    requires AreDigits(d) && sym > RUNB
    ensures Leading(d + [sym] + rest) == |d|
  {
    var all := d + [sym] + rest;
    if d != [] {
      assert all[1..] == d[1..] + [sym] + rest;
      LeadingAt(d[1..], sym, rest);
    }
  }

  lemma ShortRunsJoin(d: seq<nat>, sym: nat, rest: seq<nat>)
    requires AreDigits(d) && |d| <= 31 && sym > RUNB && ShortRuns(rest)
    ensures ShortRuns(d + [sym] + rest)
  {
    hide Leading;
    var all := d + [sym] + rest;
    forall i | 0 <= i < |all| ensures Leading(all[i..]) <= 31 {
      if i <= |d| {
        assert all[i..] == d[i..] + [sym] + rest;
        LeadingAt(d[i..], sym, rest);
      } else {
        assert all[i..] == rest[i - |d| - 1..];
      }
    }
  }

  lemma {:induction false} EncodeShortRuns(a: Alphabet, order: Order, r: nat, text: seq<byte>)
    requires IsAlphabet(a) && Orders(order, a.symTotal) && Spells(a, text) && 1 <= a.symTotal
      && r + |text| < 0xffff_ffff
    ensures ShortRuns(Encode(a, order, r, text))
    decreases |text|
  {
    hide Digits, Position, MoveToFront, ShortRuns, Leading;
    ShortRunFits(r);
    DigitsOfLength(r);
    if text == [] {
      NoRuns();
      ShortRunsJoin(Digits(r), EndOfBlock(a), []);
      assert Digits(r) + [EndOfBlock(a)] + [] == Digits(r) + [EndOfBlock(a)];
    } else {
      SpellsTail(a, text);
      var i := Position(a, order, text[0]);
      if i == 0 {
        EncodeShortRuns(a, order, r + 1, text[1..]);
      } else {
        MoveKeepsOrder(order, a.symTotal, i);
        EncodeShortRuns(a, MoveToFront(order, i), 0, text[1..]);
        ShortRunsJoin(Digits(r), i + 1, Encode(a, MoveToFront(order, i), 0, text[1..]));
      }
    }
  }

  lemma NoRuns()
    ensures ShortRuns([])
  {
  }

  ghost predicate IsEncoding(a: Alphabet, s: State, syms: seq<nat>, text: seq<byte>)
    requires IsAlphabet(a) && Orders(s.order, a.symTotal)
  {
    Spells(a, text) && Fold(a, s, syms) == Ok(s.out + text) && Encode(a, s.order, 0, text) == syms
  }

  /** An accepted list is the encoding of what it decodes to if and only if none of its runs has 32 digits or more. */
  lemma AcceptedExactlyWhenShort(a: Alphabet, s: State, syms: seq<nat>)
    requires IsAlphabet(a) && DistinctBytes(a) && 1 <= a.symTotal && Orders(s.order, a.symTotal) && s.runPos == 0
    requires |s.out| <= a.bufsize && Terminated(a, syms) && Fold(a, s, syms).Ok?
    ensures (exists text :: IsEncoding(a, s, syms, text)) <==> ShortRuns(syms)
  {
    if ShortRuns(syms) {
      var text := AcceptedIsEncoded(a, s, syms);
      assert IsEncoding(a, s, syms, text);
    }
    if text :| IsEncoding(a, s, syms, text) {
      FoldFillsBuffer(a, s, syms);
      EncodeShortRuns(a, s.order, 0, text);
    }
  }

  /** The failing input: a block of 32 run symbols alone is accepted, and the run is gone. */
  lemma VanishingRun(a: Alphabet)
    requires IsAlphabet(a) && 1 <= a.symTotal
    ensures Fold(a, InitialState(), seq(32, _ => RUNA) + [EndOfBlock(a)]) == Ok([])
  {
    var d := seq(31, _ => RUNA);
    var s := InitialState();
    LengthOfDigits(d);
    RunOf32Dropped(a, s, Length(d), RUNA, [EndOfBlock(a)]);
    assert d + [RUNA] + [EndOfBlock(a)] == seq(32, _ => RUNA) + [EndOfBlock(a)];
    var t :| Fold(a, s, d + [RUNA] + [EndOfBlock(a)]) == Fold(a, s.(t := t), [EndOfBlock(a)]);
    assert [EndOfBlock(a)] + [] == [EndOfBlock(a)];
    FoldOne(a, s.(t := t), EndOfBlock(a), []);
  }
}
