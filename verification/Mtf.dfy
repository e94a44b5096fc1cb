/** The symbol level of `bzip2.decompress`: move-to-front positions, runs of the front
    byte written in bijective base 2 with the symbols RUNA and RUNB, and an end mark. */
module Mtf {
  import opened Bits
  import opened Outcomes
  import opened Rearrange
  import opened Rle

  const RUNA: nat := 0
  const RUNB: nat := 1

  /** What stays fixed while the symbols of a block are decoded. */
  datatype Alphabet = Alphabet(symToByte: seq<byte>, symTotal: nat, bufsize: nat)

  predicate IsAlphabet(a: Alphabet)
  {
    |a.symToByte| == 256 && a.symTotal <= 256 && a.bufsize <= 900000
  }

  type Order = s: seq<nat> | |s| == 256 && forall i :: 0 <= i < 256 ==> s[i] < 256 witness seq(256, _ => 0)

  /** The two splices: entry i moves to the front. */
  function MoveToFront(order: Order, i: nat): Order
    requires i < 256
  {
    [order[i]] + order[..i] + order[i + 1..]
  }

  /** The variables `mtfSymbol`, `runPos`, `t` and the filled part of `buf`.
      While `runPos` is 0 the value of `t` is never used. */
  datatype Registers = Registers(order: Order, runPos: int, t: int, out: seq<byte>)

  /** A pending run of k digits has weight 2^k, as a 32-bit number, and at least the length of k times RUNA. So the
      weight is negative only after 31 digits, when the length is far above any buffer; the 32nd digit makes it 0. */
  predicate Counting(runPos: int, t: int)
  {
    || runPos == 0
    || (runPos == -0x8000_0000 && t >= 0x7fff_ffff)
    || exists k: nat :: 1 <= k <= 30 && runPos == Pow2(k) && t >= runPos - 1
  }

  type State = s: Registers | Counting(s.runPos, s.t) witness Registers(seq(256, _ => 0), 0, 0, [])

  datatype Outcome = More(state: State) | Done(out: seq<byte>) | Failed(error: Error)

  lemma SmallWeights(k: nat)
    requires k <= 30
    ensures 1 <= Pow2(k) <= 0x4000_0000 && Pow2(k + 1) == 2 * Pow2(k)
    ensures k == 30 <==> Pow2(k) == 0x4000_0000
  {
    Pow2Is31();
    Pow2Monotone(k + 1, 31);
    if k < 30 { Pow2Monotone(k + 2, 31); }
  }

  lemma NextDigit(pos: int, t: int, sym: nat)
    requires (pos == 1 && t == 0) || (pos != 0 && Counting(pos, t))
    ensures Counting(ToInt32(2 * pos), t + if sym == RUNA then pos else 2 * pos)
  {
    if pos > 0 {
      assert Pow2(0) == 1;
      var k: nat :| k <= 30 && pos == Pow2(k) && t >= pos - 1;
      SmallWeights(k);
      assert k < 30 ==> ToInt32(2 * pos) == Pow2(k + 1);
    }
  }

  /** RUNA and RUNB: one more digit of the run length. */
  function AddDigit(s: State, sym: nat): State
  {
    var pos := if s.runPos == 0 then 1 else s.runPos;
    var t := if s.runPos == 0 then 0 else s.t;
    NextDigit(pos, t, sym);
    s.(runPos := ToInt32(2 * pos), t := t + if sym == RUNA then pos else 2 * pos)
  }

  /** Writes out a pending run. */
  function Flush(a: Alphabet, s: State): Result<seq<byte>>
    requires IsAlphabet(a)
  {
    if s.runPos == 0 then Ok(s.out)
    else if |s.out| + s.t >= a.bufsize then Err(RunOverflowsBuffer)
    else Ok(s.out + Repeat(a.symToByte[s.order[0]], s.t))
  }

  /** What one symbol does. */
  function Step(a: Alphabet, s: State, sym: nat): Outcome
    requires IsAlphabet(a)
  {
    if sym <= RUNB then More(AddDigit(s, sym))
    else match Flush(a, s)
      case Err(e) => Failed(e)
      case Ok(out) =>
        if sym > a.symTotal then Done(out)
        else if |out| >= a.bufsize then Failed(BufferFull)
        else More(Registers(MoveToFront(s.order, sym - 1), 0, s.t, out + [a.symToByte[s.order[sym - 1]]]))
  }

  /** The buffer that a list of symbols leaves; the list must hold an end mark. */
  function Fold(a: Alphabet, s: State, syms: seq<nat>): Result<seq<byte>>
    requires IsAlphabet(a)
    decreases |syms|, 0
  {
    if syms == [] then Err(OutOfSelectors) else Resume(a, Step(a, s, syms[0]), syms[1..])
  }

  function Resume(a: Alphabet, o: Outcome, rest: seq<nat>): Result<seq<byte>>
    requires IsAlphabet(a)
    decreases |rest|, 1
  {
    match o
    case More(s) => Fold(a, s, rest)
    case Done(out) => Ok(out)
    case Failed(e) => Err(e)
  }

  // ----- the order stays a permutation

  /** The first n entries are 0 .. n-1 in some order. */
  ghost predicate Orders(order: Order, n: nat)
  {
    n <= 256 && Permutation(order[..n])
  }

  function InitialOrder(): (order: Order)
    ensures forall i :: 0 <= i < 256 ==> order[i] == i
  {
    seq(256, (i: nat) requires i < 256 => i)
  }

  lemma MoveKeepsOrder(order: Order, n: nat, i: nat)
    requires Orders(order, n) && i < n
    ensures Orders(MoveToFront(order, i), n)
  {
    var s, r := order[..n], MoveToFront(order, i)[..n];
    assert r == [s[i]] + s[..i] + s[i + 1..];
    forall j, k | 0 <= j < k < n ensures r[j] != r[k] {
      var j' := if j == 0 then i else if j <= i then j - 1 else j;
      var k' := if k <= i then k - 1 else k;
      assert r[j] == s[j'] && r[k] == s[k'];
      if j' < k' { assert s[j'] != s[k']; } else { assert s[k'] != s[j']; }
    }
    forall j | 0 <= j < n ensures r[j] < n {
      var j' := if j == 0 then i else if j <= i then j - 1 else j;
      assert r[j] == s[j'];
    }
  }

  /** Every symbol up to symTotal keeps the first symTotal entries a permutation. */
  lemma StepKeepsOrder(a: Alphabet, s: State, sym: nat)
    requires IsAlphabet(a) && Orders(s.order, a.symTotal) && Step(a, s, sym).More?
    ensures Orders(Step(a, s, sym).state.order, a.symTotal)
  {
    if sym > RUNB { MoveKeepsOrder(s.order, a.symTotal, sym - 1); }
  }

  // ----- run lengths in bijective base 2

  /** The digits of a run length, least significant first. */
  function Digits(r: nat): (d: seq<nat>)
  {
    if r == 0 then []
    else if r % 2 == 1 then [RUNA] + Digits((r - 1) / 2)
    else [RUNB] + Digits((r - 2) / 2)
  }

  /** The number that digits stand for: the sum of (d_k + 1) * 2^k. */
  function Length(d: seq<nat>): nat
  {
    if d == [] then 0 else d[0] + 1 + 2 * Length(d[1..])
  }

  ghost predicate AreDigits(d: seq<nat>)
  {
    forall i :: 0 <= i < |d| ==> d[i] <= RUNB
  }

  /** Every length has exactly one spelling: the two functions are inverse to each other. */
  lemma {:induction false} DigitsOfLength(r: nat)
    ensures AreDigits(Digits(r)) && Length(Digits(r)) == r
    ensures Pow2(|Digits(r)|) <= r + 1
  {
    if r == 0 {
      assert Pow2(0) == 1;
    } else {
      var h := if r % 2 == 1 then (r - 1) / 2 else (r - 2) / 2;
      DigitsOfLength(h);
      assert Digits(r)[1..] == Digits(h);
    }
  }

  lemma {:induction false} LengthOfDigits(d: seq<nat>)
    requires AreDigits(d)
    ensures Digits(Length(d)) == d && (d != [] ==> Length(d) > 0)
  {
    if d != [] {
      LengthOfDigits(d[1..]);
      assert d == [d[0]] + d[1..];
    }
  }

  lemma FoldOne(a: Alphabet, s: State, sym: nat, rest: seq<nat>)
    requires IsAlphabet(a)
    ensures Fold(a, s, [sym] + rest) == Resume(a, Step(a, s, sym), rest)
  {
    assert ([sym] + rest)[1..] == rest;
  }

  /** The first digit of a length, and the half that remains. */
  lemma DigitsStep(r: nat) returns (d: nat, h: nat)
    requires r > 0
    ensures d <= RUNB && r == 2 * h + d + 1 && Digits(r) == [d] + Digits(h)
  {
    d := if r % 2 == 1 then RUNA else RUNB;
    h := (r - d - 1) / 2;
  }

  lemma FoldDigit(a: Alphabet, s: State, d: nat, h: nat, rest: seq<nat>)
    requires IsAlphabet(a) && d <= RUNB
    ensures Fold(a, s, [d] + Digits(h) + rest) == Fold(a, AddDigit(s, d), Digits(h) + rest)
  {
    hide Fold, Digits;
    FoldOne(a, s, d, Digits(h) + rest);
    assert [d] + (Digits(h) + rest) == [d] + Digits(h) + rest;
  }

  /** The weight after n digits, as a 32-bit number. */
  function Weight(n: nat): int { ToInt32(Pow2(n)) }

  lemma WeightIs(n: nat)
    requires n <= 31
    ensures Weight(n) == if n <= 30 then Pow2(n) else -0x8000_0000
    ensures Weight(n) != 0
  {
    hide Pow2;
    Pow2Is31();
    if n <= 30 { SmallWeights(n); }
  }

  /** Between 1 and 31 digits the length so far is at least the weight less one. */
  lemma WeightCounts(n: nat, t: int)
    requires 1 <= n <= 31 && t >= Pow2(n) - 1
    ensures Counting(Weight(n), t)
  {
    hide Pow2, Weight;
    Pow2Is31();
    WeightIs(n);
  }

  /** A run in progress: n digits have been read, and they add up to t. */
  function InRun(s: State, n: nat, t: int): State
    requires 1 <= n <= 31 && t >= Pow2(n) - 1
  {
    WeightCounts(n, t);
    s.(runPos := Weight(n), t := t)
  }

  lemma AddedDigit(s: State, n: nat, t: int, d: nat)
    requires 1 <= n <= 30 && t >= Pow2(n) - 1 && d <= RUNB
    ensures t + Pow2(n) * (d + 1) >= Pow2(n + 1) - 1
    ensures AddDigit(InRun(s, n, t), d) == InRun(s, n + 1, t + Pow2(n) * (d + 1))
  {
    WeightIs(n);
    SmallWeights(n);
    if d == RUNA {
      assert Pow2(n) * (d + 1) == Pow2(n);
    } else {
      assert Pow2(n) * (d + 1) == 2 * Pow2(n);
    }
    hide Pow2;
  }

  /** Digits added to a run in progress. */
  lemma {:induction false} FoldDigits(a: Alphabet, s: State, n: nat, t: int, r: nat, rest: seq<nat>)
    requires IsAlphabet(a) && 1 <= n && n + |Digits(r)| <= 31 && t >= Pow2(n) - 1
    ensures t + Pow2(n) * r >= Pow2(n + |Digits(r)|) - 1
    ensures Fold(a, InRun(s, n, t), Digits(r) + rest) == Fold(a, InRun(s, n + |Digits(r)|, t + Pow2(n) * r), rest)
    decreases r
  {
    hide Fold, Pow2, AddDigit, InRun;
    if r == 0 {
      assert Digits(0) + rest == rest;
      assert t + Pow2(n) * 0 == t;
    } else {
      var d, h := DigitsStep(r);
      hide Digits;
      SmallWeights(n);
      FoldDigit(a, InRun(s, n, t), d, h, rest);
      AddedDigit(s, n, t, d);
      FoldDigits(a, s, n + 1, t + Pow2(n) * (d + 1), h, rest);
      Weights(Pow2(n), r, h, d);
      assert n + 1 + |Digits(h)| == n + |Digits(r)|;
    }
  }

  lemma Weights(w: nat, r: nat, h: nat, d: nat)
    requires r == 2 * h + d + 1
    ensures w * (d + 1) + (2 * w) * h == w * r
  {
  }

  lemma FirstDigit(s: State, d: nat)
    requires s.runPos == 0 && d <= RUNB
    ensures Pow2(1) == 2 && AddDigit(s, d) == InRun(s, 1, d + 1)
  {
    assert Pow2(1) == 2 * Pow2(0);
    WeightIs(1);
  }

  /** A whole run length of at most 31 digits, read from a state without a pending run. */
  lemma FoldRun(a: Alphabet, s: State, r: nat, rest: seq<nat>)
    requires IsAlphabet(a) && s.runPos == 0 && 1 <= r && |Digits(r)| <= 31
    ensures |Digits(r)| >= 1 && r >= Pow2(|Digits(r)|) - 1
    ensures Fold(a, s, Digits(r) + rest) == Fold(a, InRun(s, |Digits(r)|, r), rest)
  {
    hide Fold, Digits, Pow2, AddDigit, InRun;
    DigitsOfLength(r);
    var d, h := DigitsStep(r);
    FirstDigit(s, d);
    FoldDigit(a, s, d, h, rest);
    FoldDigits(a, s, 1, d + 1, h, rest);
  }

  /** The 32nd digit of a run makes its weight 0: the run is dropped, and the next digit starts another. */
  lemma RunOf32Dropped(a: Alphabet, s: State, r: nat, d: nat, rest: seq<nat>)
    requires IsAlphabet(a) && s.runPos == 0 && |Digits(r)| == 31 && d <= RUNB
    ensures exists t :: Fold(a, s, Digits(r) + [d] + rest) == Fold(a, s.(t := t), rest)
  {
    FoldRun(a, s, r, [d] + rest);
    var s31 := InRun(s, 31, r);
    WeightIs(31);
    assert Digits(r) + [d] + rest == Digits(r) + ([d] + rest);
    FoldOne(a, s31, d, rest);
    var t := AddDigit(s31, d).t;
    assert AddDigit(s31, d) == s.(t := t);
    hide Fold, Digits;
    assert Fold(a, s, Digits(r) + [d] + rest) == Fold(a, s.(t := t), rest);
  }
}
