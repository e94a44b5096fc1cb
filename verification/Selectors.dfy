/** Selectors and tables: the fields between the map and the symbols of a block. */
module Selectors {
  import opened Bits
  import opened Outcomes
  import opened Rearrange
  import opened Huffman
  import opened HuffmanBuild

  /** An array element read or spliced past the end. */
  const UNDEFINED: int := -1

  /** `for(j = 0; bits(1); j++) if(j >= groupCount) throw`: groupCount ones still pass. */
  function Unary(bytes: seq<byte>, p: nat, j: nat, groupCount: nat): (r: Result<(nat, nat)>)
    ensures r.Ok? ==> r.value.1 > p
    decreases groupCount + 1 - j
  {
    if BitAt(bytes, p) == 0 then Ok((j, p + 1))
    else if j >= groupCount then Err(BadSelector)
    else Unary(bytes, p + 1, j + 1, groupCount)
  }

  function Entry(list: seq<int>, j: nat): int
  {
    if j < |list| then list[j] else UNDEFINED
  }

  /** The two splices: entry j, or undefined, goes to the front. */
  function Splice(list: seq<int>, j: nat): seq<int>
  {
    [Entry(list, j)] + if j < |list| then list[..j] + list[j + 1..] else list
  }

  /** Storing into a Uint8Array; undefined is stored as zero. */
  function Uint8(x: int): nat
  {
    if x == UNDEFINED then 0 else x % 256
  }

  /** The list holds table numbers, perhaps with undefined entries in front. */
  ghost predicate TableNumbers(list: seq<int>, groupCount: nat)
  {
    forall i :: 0 <= i < |list| ==> UNDEFINED <= list[i] < groupCount
  }

  function SelectorsFrom(bytes: seq<byte>, p: nat, n: nat, groupCount: nat,
      list: seq<int>): (r: Result<(seq<nat>, nat)>)
    ensures r.Ok? ==> |r.value.0| == n && r.value.1 >= p
    decreases n
  {
    if n == 0 then Ok(([], p))
    else
      var (j, q) :- Unary(bytes, p, 0, groupCount);
      var (rest, q') :- SelectorsFrom(bytes, q, n - 1, groupCount, Splice(list, j));
      Ok(([Uint8(Entry(list, j))] + rest, q'))
  }

  lemma SpliceNumbers(list: seq<int>, groupCount: nat, j: nat)
    requires 1 <= groupCount <= 256 && TableNumbers(list, groupCount)
    ensures TableNumbers(Splice(list, j), groupCount) && Uint8(Entry(list, j)) < groupCount
  {
  }

  ghost predicate AllBelow(s: seq<nat>, n: nat)
  {
    forall i :: 0 <= i < |s| ==> s[i] < n
  }

  lemma {:induction false} SelectorsBelow(bytes: seq<byte>, p: nat, n: nat, groupCount: nat, list: seq<int>)
    requires 1 <= groupCount <= 256 && TableNumbers(list, groupCount)
    requires SelectorsFrom(bytes, p, n, groupCount, list).Ok?
    ensures AllBelow(SelectorsFrom(bytes, p, n, groupCount, list).value.0, groupCount)
    decreases n
  {
    hide Unary, Uint8, Entry, Splice, TableNumbers;
    if n > 0 {
      var (j, q) := Unary(bytes, p, 0, groupCount).value;
      SpliceNumbers(list, groupCount, j);
      SelectorsBelow(bytes, q, n - 1, groupCount, Splice(list, j));
    }
  }

  function ReadSelectors(bytes: seq<byte>, p: nat, n: nat, groupCount: nat): (r: Result<(seq<nat>, nat)>)
    requires 1 <= groupCount <= 256
    ensures r.Ok? ==> |r.value.0| == n && r.value.1 >= p && AllBelow(r.value.0, groupCount)
  {
    var r := SelectorsFrom(bytes, p, n, groupCount, Below(groupCount));
    if r.Ok? then SelectorsBelow(bytes, p, n, groupCount, Below(groupCount)); r else r
  }

  // ----- the methods

  method ReadUnary(bits: BitReader, groupCount: nat) returns (r: Result<nat>)
    requires bits.Valid()
    modifies bits
    ensures bits.Valid()
    ensures var s := Unary(bits.bytes, old(bits.Position()), 0, groupCount);
      if s.Ok? then r == Ok(s.value.0) && bits.Position() == s.value.1 else r == Err(s.error)
  {
    hide Value, BitAt;
    ghost var whole := Unary(bits.bytes, bits.Position(), 0, groupCount);
    var j: nat := 0;
    while true
      invariant bits.Valid() && j <= groupCount + 1 && whole == Unary(bits.bytes, bits.Position(), j, groupCount)
      decreases groupCount + 1 - j
    {
      OneBit(bits.bytes, bits.Position());
      var more := bits.Bits(1);
      if more == 0 {
        return Ok(j);
      }
      if j >= groupCount {
        return Err(BadSelector);
      }
      j := j + 1;
    }
  }

  lemma SelectorsStep(bytes: seq<byte>, p: nat, n: nat, groupCount: nat, list: seq<int>, done: seq<nat>)
    requires n > 0
    ensures var u := Unary(bytes, p, 0, groupCount);
      Join(done, SelectorsFrom(bytes, p, n, groupCount, list)) ==
        if u.Err? then Err(u.error)
        else Join(done + [Uint8(Entry(list, u.value.0))],
                  SelectorsFrom(bytes, u.value.1, n - 1, groupCount, Splice(list, u.value.0)))
  {
    hide Unary, Uint8, Entry, Splice;
    var u := Unary(bytes, p, 0, groupCount);
    if u.Ok? {
      var rest := SelectorsFrom(bytes, u.value.1, n - 1, groupCount, Splice(list, u.value.0));
      if rest.Ok? {
        var s := [Uint8(Entry(list, u.value.0))];
        assert done + (s + rest.value.0) == done + s + rest.value.0;
      }
    }
  }

  lemma JoinEnds(bytes: seq<byte>, p: nat, groupCount: nat, list: seq<int>, done: seq<nat>,
      all: Result<(seq<nat>, nat)>)
    ensures Join([], all) == all
    ensures Join(done, SelectorsFrom(bytes, p, 0, groupCount, list)) == Ok((done, p))
  {
    assert done + [] == done;
    if all.Ok? { assert [] + all.value.0 == all.value.0; }
  }

  method ReadSelectorArray(bits: BitReader, selectors: array<nat>, n: nat, groupCount: nat) returns (r: Result<()>)
    requires bits.Valid() && n <= selectors.Length && 1 <= groupCount <= 256
    modifies bits, selectors
    ensures bits.Valid()
    ensures var s := ReadSelectors(bits.bytes, old(bits.Position()), n, groupCount);
      if s.Ok? then r.Ok? && selectors[..n] == s.value.0 && bits.Position() == s.value.1 else r == Err(s.error)
  {
    hide Unary, SelectorsFrom, Splice, Entry, Uint8;
    var mtfSymbol := Below(groupCount);
    ghost var whole := SelectorsFrom(bits.bytes, bits.Position(), n, groupCount, mtfSymbol);
    JoinEnds(bits.bytes, bits.Position(), groupCount, mtfSymbol, [], whole);
    hide Join;
    for i := 0 to n
      invariant bits.Valid()
      invariant whole == Join(selectors[..i], SelectorsFrom(bits.bytes, bits.Position(), n - i, groupCount, mtfSymbol))
    {
      ghost var done := selectors[..i];
      SelectorsStep(bits.bytes, bits.Position(), n - i, groupCount, mtfSymbol, done);
      var j := ReadUnary(bits, groupCount);
      if j.Err? {
        return Err(j.error);
      }
      selectors[i] := Uint8(Entry(mtfSymbol, j.value));
      mtfSymbol := Splice(mtfSymbol, j.value);
      assert selectors[..i + 1] == done + [selectors[i]];
    }
    JoinEnds(bits.bytes, bits.Position(), groupCount, mtfSymbol, selectors[..n], whole);
    return Ok(());
  }

  // ----- the encoding of the selectors

  function IndexOf(list: seq<int>, v: int): (j: nat)
    ensures j <= |list| && (v in list ==> j < |list| && list[j] == v)
  {
    if list == [] || list[0] == v then 0 else 1 + IndexOf(list[1..], v)
  }

  function Ones(n: nat): (e: seq<bit>)
    ensures |e| == n && forall i :: 0 <= i < n ==> e[i] == 1
  {
    seq(n, _ => 1)
  }

  function SelectorBits(list: seq<int>, selectors: seq<nat>): seq<bit>
    decreases |selectors|
  {
    if selectors == [] then []
    else
      var j := IndexOf(list, selectors[0]);
      Ones(j) + [0] + SelectorBits(Splice(list, j), selectors[1..])
  }

  ghost predicate Complete(list: seq<int>, groupCount: nat)
  {
    |list| == groupCount && forall v :: 0 <= v < groupCount ==> v in list
  }

  lemma SpliceKeeps(list: seq<int>, groupCount: nat, j: nat)
    requires Complete(list, groupCount) && j < groupCount
    ensures Complete(Splice(list, j), groupCount)
  {
    assert list == list[..j] + [list[j]] + list[j + 1..];
    forall v | 0 <= v < groupCount ensures v in Splice(list, j) {
      assert v in list;
    }
  }

  lemma {:induction false} UnaryReads(bytes: seq<byte>, p: nat, j: nat, k: nat, groupCount: nat)
    requires j + k <= groupCount && At(bytes, p, Ones(k) + [0])
    ensures Unary(bytes, p, j, groupCount) == Ok((j + k, p + k + 1))
    decreases k
  {
    hide BitAt;
    assert BitAt(bytes, p + 0) == (Ones(k) + [0])[0];
    if k > 0 {
      assert Ones(k) + [0] == [1] + (Ones(k - 1) + [0]);
      AtConcat(bytes, p, [1], Ones(k - 1) + [0]);
      UnaryReads(bytes, p + 1, j + 1, k - 1, groupCount);
    }
  }

  lemma {:induction false} OnlyOnes(bytes: seq<byte>, p: nat, j: nat, groupCount: nat)
    requires j <= groupCount && At(bytes, p, Ones(groupCount + 1 - j))
    ensures Unary(bytes, p, j, groupCount) == Err(BadSelector)
    decreases groupCount - j
  {
    hide BitAt;
    assert BitAt(bytes, p + 0) == Ones(groupCount + 1 - j)[0];
    if j < groupCount {
      assert Ones(groupCount + 1 - j) == [1] + Ones(groupCount - j);
      AtConcat(bytes, p, [1], Ones(groupCount - j));
      OnlyOnes(bytes, p + 1, j + 1, groupCount);
    }
  }

  /** As many ones as there are tables name no table: they are read as selector 0, and later ranks count an
      undefined entry in front. One more is an error. */
  lemma PastTheTables(bytes: seq<byte>, p: nat, n: nat, groupCount: nat)
    ensures At(bytes, p, Ones(groupCount) + [0]) ==>
      SelectorsFrom(bytes, p, n + 1, groupCount, Below(groupCount)) ==
        var missing: seq<int> := [-1];
        var rest := SelectorsFrom(bytes, p + groupCount + 1, n, groupCount, missing + Below(groupCount));
        if rest.Ok? then Ok(([0] + rest.value.0, rest.value.1)) else rest
    ensures At(bytes, p, Ones(groupCount + 1)) ==>
      SelectorsFrom(bytes, p, n + 1, groupCount, Below(groupCount)) == Err(BadSelector)
  {
    if At(bytes, p, Ones(groupCount) + [0]) {
      UnaryReads(bytes, p, 0, groupCount, groupCount);
    }
    if At(bytes, p, Ones(groupCount + 1)) {
      OnlyOnes(bytes, p, 0, groupCount);
    }
    hide At, Ones, Unary;
  }

  /** One selector, read from its word, in front of the rest. */
  lemma SelectorStep(bytes: seq<byte>, p: nat, list: seq<int>, selectors: seq<nat>, groupCount: nat, q: nat)
    requires selectors != [] && groupCount <= 256 && selectors[0] < groupCount
    requires selectors[0] in list && IndexOf(list, selectors[0]) < groupCount
    requires At(bytes, p, Ones(IndexOf(list, selectors[0])) + [0])
    requires SelectorsFrom(bytes, p + IndexOf(list, selectors[0]) + 1, |selectors| - 1, groupCount,
                           Splice(list, IndexOf(list, selectors[0]))) == Ok((selectors[1..], q))
    ensures SelectorsFrom(bytes, p, |selectors|, groupCount, list) == Ok((selectors, q))
  {
    hide At, Unary, Splice, IndexOf;
    var j := IndexOf(list, selectors[0]);
    UnaryReads(bytes, p, 0, j, groupCount);
    assert Uint8(Entry(list, j)) == selectors[0];
    hide Uint8, Entry;
    assert selectors == [selectors[0]] + selectors[1..];
  }

  lemma {:induction false} SelectorsFromBits(bytes: seq<byte>, p: nat, list: seq<int>, selectors: seq<nat>,
      groupCount: nat)
    requires 1 <= groupCount <= 256 && Complete(list, groupCount)
    requires forall i :: 0 <= i < |selectors| ==> selectors[i] < groupCount
    requires At(bytes, p, SelectorBits(list, selectors))
    ensures SelectorsFrom(bytes, p, |selectors|, groupCount, list)
         == Ok((selectors, p + |SelectorBits(list, selectors)|))
    decreases |selectors|
  {
    hide At, SelectorsFrom, Splice, IndexOf, Ones;
    if selectors == [] {
      NoSelectorsLeft(bytes, p, list, selectors, groupCount);
    } else {
      var s, rest := selectors[0], selectors[1..];
      assert s in list;
      var j := IndexOf(list, s);
      var word, more := Ones(j) + [0], SelectorBits(Splice(list, j), rest);
      assert SelectorBits(list, selectors) == word + more;
      hide SelectorBits;
      AtConcat(bytes, p, word, more);
      SpliceKeeps(list, groupCount, j);
      SelectorsFromBits(bytes, p + j + 1, Splice(list, j), rest, groupCount);
      SelectorStep(bytes, p, list, selectors, groupCount, p + j + 1 + |more|);
    }
  }

  lemma NoSelectorsLeft(bytes: seq<byte>, p: nat, list: seq<int>, selectors: seq<nat>, groupCount: nat)
    requires selectors == []
    ensures SelectorsFrom(bytes, p, |selectors|, groupCount, list)
      == Ok((selectors, p + |SelectorBits(list, selectors)|))
  {
  }

  /** Selectors come back from their unary move-to-front code. */
  lemma SelectorsReadBack(bytes: seq<byte>, p: nat, selectors: seq<nat>, groupCount: nat)
    requires 1 <= groupCount <= 256 && forall i :: 0 <= i < |selectors| ==> selectors[i] < groupCount
    requires At(bytes, p, SelectorBits(Below(groupCount), selectors))
    ensures ReadSelectors(bytes, p, |selectors|, groupCount)
         == Ok((selectors, p + |SelectorBits(Below(groupCount), selectors)|))
  {
    hide At, SelectorsFrom, SelectorBits;
    var list := Below(groupCount);
    forall v | 0 <= v < groupCount ensures v in list {
      assert list[v] == v;
    }
    SelectorsFromBits(bytes, p, list, selectors, groupCount);
  }

  // ----- the tables of a block

  function TablesFrom(bytes: seq<byte>, p: nat, symCount: nat, n: nat): (r: Result<(seq<Table>, nat)>)
    requires 2 <= symCount <= MAX_SYMBOLS
    ensures r.Ok? ==> |r.value.0| == n && r.value.1 >= p && forall i :: 0 <= i < n ==> IsTable(r.value.0[i])
    decreases n
  {
    if n == 0 then Ok(([], p))
    else
      var (lens, q) :- ReadLengths(bytes, p, symCount);
      var (rest, q') :- TablesFrom(bytes, q, symCount, n - 1);
      Ok(([TableOf(lens)] + rest, q'))
  }

  function TableBits(codes: seq<Lengths>, starts: seq<nat>): seq<bit>
    requires |codes| == |starts|
    decreases |codes|
  {
    if codes == [] then []
    else BigEndian(starts[0], 5) + EncodeLengths(codes[0], starts[0]) + TableBits(codes[1..], starts[1..])
  }

  /** Starting values from which lengths can be delta coded. */
  ghost predicate Startable(starts: seq<nat>)
  {
    forall i :: 0 <= i < |starts| ==> 1 <= starts[i] <= MAX_HUFCODE_BITS
  }

  lemma {:induction false} TablesReadBack(bytes: seq<byte>, p: nat, codes: seq<Lengths>, starts: seq<nat>,
      symCount: nat)
    requires 2 <= symCount <= 258 && |codes| == |starts| && Startable(starts)
    requires forall i :: 0 <= i < |codes| ==> |codes[i]| == symCount
    requires At(bytes, p, TableBits(codes, starts))
    ensures TablesFrom(bytes, p, symCount, |codes|) == Ok((TablesOf(codes), p + |TableBits(codes, starts)|))
    decreases |codes|
  {
    hide At, TablesFrom, EncodeLengths, TableOf;
    if codes == [] {
      NoTablesLeft(bytes, p, codes, starts, symCount);
    } else {
      var word := BigEndian(starts[0], 5) + EncodeLengths(codes[0], starts[0]);
      var more := TableBits(codes[1..], starts[1..]);
      assert TableBits(codes, starts) == word + more;
      hide TableBits;
      AtConcat(bytes, p, word, more);
      LengthsRoundTrip(bytes, p, codes[0], starts[0]);
      TablesReadBack(bytes, p + |word|, codes[1..], starts[1..], symCount);
      TableStep(bytes, p, codes, symCount, p + |word|, p + |word| + |more|);
    }
  }

  function TablesOf(codes: seq<Lengths>): (t: seq<Table>)
    ensures |t| == |codes| && forall i :: 0 <= i < |codes| ==> t[i] == TableOf(codes[i])
  {
    seq(|codes|, i requires 0 <= i < |codes| => TableOf(codes[i]))
  }

  lemma TableStep(bytes: seq<byte>, p: nat, codes: seq<Lengths>, symCount: nat, q: nat, q': nat)
    requires 2 <= symCount <= MAX_SYMBOLS && codes != []
    requires ReadLengths(bytes, p, symCount) == Ok((codes[0], q))
    requires TablesFrom(bytes, q, symCount, |codes| - 1) == Ok((TablesOf(codes[1..]), q'))
    ensures TablesFrom(bytes, p, symCount, |codes|) == Ok((TablesOf(codes), q'))
  {
    hide TableOf, ReadLengths;
    assert TablesOf(codes) == [TableOf(codes[0])] + TablesOf(codes[1..]);
  }

  lemma NoTablesLeft(bytes: seq<byte>, p: nat, codes: seq<Lengths>, starts: seq<nat>, symCount: nat)
    requires 2 <= symCount <= MAX_SYMBOLS && codes == [] && starts == []
    ensures TablesFrom(bytes, p, symCount, |codes|) == Ok((TablesOf(codes), p + |TableBits(codes, starts)|))
  {
  }

  /** Tables already built, in front of those still to come. */
  ghost function JoinTables(done: seq<Table>, rest: Result<(seq<Table>, nat)>): Result<(seq<Table>, nat)>
  {
    if rest.Ok? then Ok((done + rest.value.0, rest.value.1)) else Err(rest.error)
  }

  lemma JoinTable(bytes: seq<byte>, p: nat, symCount: nat, n: nat, done: seq<Table>)
    requires 2 <= symCount <= MAX_SYMBOLS && n > 0
    ensures var l := ReadLengths(bytes, p, symCount);
      JoinTables(done, TablesFrom(bytes, p, symCount, n)) ==
        if l.Err? then Err(l.error)
        else JoinTables(done + [TableOf(l.value.0)], TablesFrom(bytes, l.value.1, symCount, n - 1))
  {
    hide ReadLengths, TableOf;
    var l := ReadLengths(bytes, p, symCount);
    if l.Ok? {
      var rest := TablesFrom(bytes, l.value.1, symCount, n - 1);
      if rest.Ok? {
        assert done + ([TableOf(l.value.0)] + rest.value.0) == done + [TableOf(l.value.0)] + rest.value.0;
      }
    }
  }

  lemma JoinTablesEnds(bytes: seq<byte>, p: nat, symCount: nat, done: seq<Table>, all: Result<(seq<Table>, nat)>)
    requires 2 <= symCount <= MAX_SYMBOLS
    ensures JoinTables([], all) == all
    ensures JoinTables(done, TablesFrom(bytes, p, symCount, 0)) == Ok((done, p))
  {
    assert done + [] == done;
    if all.Ok? { assert [] + all.value.0 == all.value.0; }
  }

  method ReadTables(bits: BitReader, symCount: nat, groupCount: nat) returns (r: Result<seq<Table>>)
    requires bits.Valid() && 2 <= symCount <= MAX_SYMBOLS
    modifies bits
    ensures bits.Valid()
    ensures var t := TablesFrom(bits.bytes, old(bits.Position()), symCount, groupCount);
      if t.Ok? then r == Ok(t.value.0) && bits.Position() == t.value.1 else r == Err(t.error)
  {
    hide TablesFrom, ReadLengths, TableOf;
    ghost var whole := TablesFrom(bits.bytes, bits.Position(), symCount, groupCount);
    var groups: seq<Table> := [];
    JoinTablesEnds(bits.bytes, bits.Position(), symCount, groups, whole);
    hide JoinTables;
    for j := 0 to groupCount
      invariant bits.Valid()
      invariant whole == JoinTables(groups, TablesFrom(bits.bytes, bits.Position(), symCount, groupCount - j))
    {
      JoinTable(bits.bytes, bits.Position(), symCount, groupCount - j, groups);
      var length := new nat[MAX_SYMBOLS](_ => 0);
      ghost var l := ReadLengths(bits.bytes, bits.Position(), symCount);
      var ok := ReadLengthArray(bits, length, symCount);
      if ok.Err? {
        return Err(ok.error);
      }
      var table := BuildTable(length, symCount, l.value.0);
      groups := groups + [table];
    }
    JoinTablesEnds(bits.bytes, bits.Position(), symCount, groups, whole);
    return Ok(groups);
  }
}
