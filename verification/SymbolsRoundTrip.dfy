/** Writing symbols with canonical codes and reading them back. */
module SymbolsRoundTrip {
  import opened Bits
  import opened Outcomes
  import opened Huffman
  import opened HuffmanDecode
  import opened HuffmanCodes
  import opened HuffmanExact
  import opened Mtf
  import opened MtfRoundTrip
  import opened Symbols
  import opened Selectors

  /** The codes of an encoder: prefix codes for all symbols, within what the tables take. */
  ghost predicate UsableCodes(codes: seq<Lengths>, symCount: nat)
  {
    forall i :: 0 <= i < |codes| ==>
      |codes[i]| == symCount && PrefixCodeExists(codes[i]) && TablesFit(codes[i])
  }

  ghost predicate UsableSelectors(codes: seq<Lengths>, selectors: seq<nat>)
  {
    forall i :: 0 <= i < |selectors| ==> selectors[i] < |codes|
  }

  /** The bits of the symbols from number k on, 50 to a selector; symbols without a code are not written. */
  function WriteSymbols(codes: seq<Lengths>, selectors: seq<nat>, syms: seq<nat>, k: nat): seq<bit>
    decreases |syms|
  {
    var i := k / 50;
    if syms == [] || i >= |selectors| || selectors[i] >= |codes| || syms[0] >= |codes[selectors[i]]| then []
    else
      var lens := codes[selectors[i]];
      BigEndian(Code(lens, syms[0]), lens[syms[0]]) + WriteSymbols(codes, selectors, syms[1..], k + 1)
  }

  lemma ReadWritten(lens: Lengths, bytes: seq<byte>, p: nat, sym: nat)
    requires PrefixCodeExists(lens) && TablesFit(lens) && sym < |lens|
    requires At(bytes, p, BigEndian(Code(lens, sym), lens[sym]))
    ensures DecodeSymbol(TableOf(lens), bytes, p) == Ok((sym, p + lens[sym]))
  {
    hide DecodeSymbol, Value, At, Pow2, Code, Kraft;
    CodeFits(lens, sym);
    ReadBack(bytes, p, Code(lens, sym), lens[sym]);
    FittingTablesDecode(lens, bytes, p, sym);
  }

  /** The result of the symbol machine, with the position after its last symbol. */
  function Ended(r: Result<seq<byte>>, q: nat): Result<(seq<byte>, nat)>
  {
    if r.Ok? then Ok((r.value, q)) else Err(r.error)
  }

  /** A well-formed symbol stream stands at p, up to its end mark. */
  ghost predicate Written(a: Alphabet, codes: seq<Lengths>, selectors: seq<nat>, syms: seq<nat>,
      bytes: seq<byte>, p: nat, k: nat)
  {
    && Terminated(a, syms) && 1 <= a.symTotal && k + |syms| <= GROUP_SIZE * |selectors|
    && UsableCodes(codes, a.symTotal + 2) && UsableSelectors(codes, selectors)
    && At(bytes, p, WriteSymbols(codes, selectors, syms, k))
  }

  /** The code of the next symbol, and what is written behind it. */
  lemma WrittenCode(a: Alphabet, codes: seq<Lengths>, selectors: seq<nat>, syms: seq<nat>,
      bytes: seq<byte>, p: nat, k: nat) returns (lens: Lengths)
    requires Written(a, codes, selectors, syms, bytes, p, k)
    ensures syms != [] && UsableSelectors(codes, selectors)
    ensures k < GROUP_SIZE * |selectors| && k / GROUP_SIZE < |selectors| && selectors[k / GROUP_SIZE] < |codes|
    ensures lens == codes[selectors[k / GROUP_SIZE]] && syms[0] < |lens| && PrefixCodeExists(lens) && TablesFit(lens)
    ensures var code, more := BigEndian(Code(lens, syms[0]), lens[syms[0]]),
      WriteSymbols(codes, selectors, syms[1..], k + 1);
      WriteSymbols(codes, selectors, syms, k) == code + more && At(bytes, p, code + more)
  {
    lens := codes[selectors[k / GROUP_SIZE]];
    TerminatedTail(a, syms);
    hide At, BigEndian, Code, PrefixCodeExists, TablesFit, Terminated;
  }

  lemma WrittenTail(a: Alphabet, codes: seq<Lengths>, selectors: seq<nat>, syms: seq<nat>,
      bytes: seq<byte>, p: nat, k: nat, q: nat)
    requires Written(a, codes, selectors, syms, bytes, p, k)
    requires At(bytes, q, WriteSymbols(codes, selectors, syms[1..], k + 1))
    ensures |syms| > 1 ==> Written(a, codes, selectors, syms[1..], bytes, q, k + 1)
  {
    TerminatedTail(a, syms);
    hide At, UsableCodes, UsableSelectors, WriteSymbols, Terminated;
  }

  lemma TablesCode(codes: seq<Lengths>, selectors: seq<nat>)
    requires UsableSelectors(codes, selectors)
    ensures IsCoding(Coding(TablesOf(codes), selectors))
  {
    hide TableOf, IsTable;
  }

  lemma WrittenHead(a: Alphabet, codes: seq<Lengths>, selectors: seq<nat>, syms: seq<nat>,
      bytes: seq<byte>, p: nat, k: nat) returns (q: nat)
    requires Written(a, codes, selectors, syms, bytes, p, k)
    ensures syms != [] && UsableSelectors(codes, selectors) && IsCoding(Coding(TablesOf(codes), selectors))
    ensures k < GROUP_SIZE * |selectors| && k / GROUP_SIZE < |selectors| && selectors[k / GROUP_SIZE] < |codes|
    ensures DecodeSymbol(TableOf(codes[selectors[k / GROUP_SIZE]]), bytes, p) == Ok((syms[0], q))
    ensures p + |WriteSymbols(codes, selectors, syms, k)| == q + |WriteSymbols(codes, selectors, syms[1..], k + 1)|
    ensures |syms| > 1 ==> Written(a, codes, selectors, syms[1..], bytes, q, k + 1)
  {
    hide *;
    var lens := WrittenCode(a, codes, selectors, syms, bytes, p, k);
    TablesCode(codes, selectors);
    var code := BigEndian(Code(lens, syms[0]), lens[syms[0]]);
    AtConcat(bytes, p, code, WriteSymbols(codes, selectors, syms[1..], k + 1));
    ReadWritten(lens, bytes, p, syms[0]);
    q := p + |code|;
    WrittenTail(a, codes, selectors, syms, bytes, p, k, q);
  }

  /** Decoding from k on agrees with running the symbol machine on what was written. */
  ghost predicate Agrees(a: Alphabet, codes: seq<Lengths>, selectors: seq<nat>,
      syms: seq<nat>, bytes: seq<byte>, p: nat, k: nat, s: State)
    requires IsAlphabet(a)
  {
    var c := Coding(TablesOf(codes), selectors);
    IsCoding(c) &&
    DecodeLoop(a, c, bytes, p, k, s) == Ended(Fold(a, s, syms), p + |WriteSymbols(codes, selectors, syms, k)|)
  }

  lemma AgreesStep(a: Alphabet, codes: seq<Lengths>, selectors: seq<nat>,
      syms: seq<nat>, bytes: seq<byte>, p: nat, k: nat, s: State, q: nat)
    requires IsAlphabet(a) && syms != [] && IsCoding(Coding(TablesOf(codes), selectors))
    requires k < GROUP_SIZE * |selectors| && k / GROUP_SIZE < |selectors| && selectors[k / GROUP_SIZE] < |codes|
    requires DecodeSymbol(TableOf(codes[selectors[k / GROUP_SIZE]]), bytes, p) == Ok((syms[0], q))
    requires p + |WriteSymbols(codes, selectors, syms, k)| == q + |WriteSymbols(codes, selectors, syms[1..], k + 1)|
    requires match Step(a, s, syms[0])
      case More(s') => Agrees(a, codes, selectors, syms[1..], bytes, q, k + 1, s')
      case Done(out) => WriteSymbols(codes, selectors, syms[1..], k + 1) == []
      case Failed(e) => true
    ensures Agrees(a, codes, selectors, syms, bytes, p, k, s)
  {
    hide DecodeSymbol, Step, WriteSymbols, IsAlphabet, IsCoding, DecodeLoop, Fold, TableOf;
    LoopStep(a, Coding(TablesOf(codes), selectors), bytes, p, k, s, syms[0], q);
    FoldStep(a, s, syms);
  }

  /** Decoding written symbols is running the symbol machine on them. */
  lemma {:induction false} WrittenSymbolsDecode(a: Alphabet, codes: seq<Lengths>, selectors: seq<nat>,
      syms: seq<nat>, bytes: seq<byte>, p: nat, k: nat, s: State)
    requires IsAlphabet(a) && Written(a, codes, selectors, syms, bytes, p, k)
    ensures Agrees(a, codes, selectors, syms, bytes, p, k, s)
    decreases |syms|
  {
    hide *;
    var q := WrittenHead(a, codes, selectors, syms, bytes, p, k);
    EndIsLast(a, codes, selectors, s, syms, bytes, p, k);
    match Step(a, s, syms[0]) {
      case More(s') =>
        WrittenSymbolsDecode(a, codes, selectors, syms[1..], bytes, q, k + 1, s');
      case Done(out) =>
        NothingWritten(codes, selectors, syms[1..], k + 1);
      case Failed(e) =>
    }
    AgreesStep(a, codes, selectors, syms, bytes, p, k, s, q);
  }

  lemma NothingWritten(codes: seq<Lengths>, selectors: seq<nat>, syms: seq<nat>, k: nat)
    ensures syms == [] ==> WriteSymbols(codes, selectors, syms, k) == []
  {
  }

  lemma LoopStep(a: Alphabet, c: Coding, bytes: seq<byte>, p: nat, k: nat, s: State, sym: nat, q: nat)
    requires IsAlphabet(a) && IsCoding(c) && k < GROUP_SIZE * |c.selectors|
    requires DecodeSymbol(c.tables[c.selectors[k / GROUP_SIZE]], bytes, p) == Ok((sym, q))
    ensures var o, d := Step(a, s, sym), DecodeLoop(a, c, bytes, p, k, s);
      && (o.More? ==> d == DecodeLoop(a, c, bytes, q, k + 1, o.state))
      && (o.Done? ==> d == Ok((o.out, q)))
      && (o.Failed? ==> d == Err(o.error))
  {
    hide DecodeSymbol, Step;
  }

  lemma FoldStep(a: Alphabet, s: State, syms: seq<nat>)
    requires IsAlphabet(a) && syms != []
    ensures var o, d := Step(a, s, syms[0]), Fold(a, s, syms);
      && (o.More? ==> d == Fold(a, o.state, syms[1..]))
      && (o.Done? ==> d == Ok(o.out))
      && (o.Failed? ==> d == Err(o.error))
  {
    hide Step;
  }

  /** Only the end mark finishes, and nothing goes on after it. */
  lemma EndIsLast(a: Alphabet, codes: seq<Lengths>, selectors: seq<nat>, s: State, syms: seq<nat>,
      bytes: seq<byte>, p: nat, k: nat)
    requires IsAlphabet(a) && Written(a, codes, selectors, syms, bytes, p, k) && syms != []
    ensures Step(a, s, syms[0]).Done? ==> |syms| == 1
    ensures Step(a, s, syms[0]).More? ==> |syms| > 1
  {
  }

  lemma TerminatedTail(a: Alphabet, syms: seq<nat>)
    requires Terminated(a, syms)
    ensures |syms| > 1 ==> syms[0] <= a.symTotal && Terminated(a, syms[1..])
    ensures |syms| == 1 ==> syms[1..] == [] && syms[0] == EndOfBlock(a)
    ensures forall i :: 0 <= i < |syms| ==> syms[i] < a.symTotal + 2
  {
  }
}
