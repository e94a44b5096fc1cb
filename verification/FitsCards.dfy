/** Writing the cards of a binary table header, and that the scan of sxs.c reads them back. */
module FitsCards {
  import opened Fits
  import opened Options

  function Spaces(n: nat): (s: string)
    ensures |s| == n && forall i :: 0 <= i < n ==> s[i] == ' '
  {
    seq(n, _ => ' ')
  }

  function Decimal(n: nat): string
  {
    if n < 10 then ['0' + n as char] else Decimal(n / 10) + ['0' + (n % 10) as char]
  }

  ghost predicate AllDigits(s: string) { forall i :: 0 <= i < |s| ==> IsDigit(s[i]) }

  ghost predicate Spells(ds: string, n: nat) { ds != [] && AllDigits(ds) && Value(ds) == n }

  lemma {:induction false} DecimalSpells(n: nat)
    ensures Spells(Decimal(n), n)
  {
    var d := Decimal(n);
    if n < 10 {
      assert d[..|d| - 1] == [];
    } else {
      DecimalSpells(n / 10);
      assert d[..|d| - 1] == Decimal(n / 10);
    }
  }

  ghost predicate AllSpaces(s: string) { forall i :: 0 <= i < |s| ==> IsSpace(s[i]) }

  ghost predicate NoSpace(s: string) { forall i :: 0 <= i < |s| ==> !IsSpace(s[i]) }

  lemma SkipStep(s: string)
    ensures AllSpaces([]) && SkipSpaces(s) == if s != [] && IsSpace(s[0]) then SkipSpaces(s[1..]) else s
  {
  }

  lemma {:induction false} SkipsSpaces(lead: string, t: string)
    requires AllSpaces(lead) && (t == [] || !IsSpace(t[0]))
    ensures SkipSpaces(lead + t) == t
  {
    hide SkipSpaces;
    SkipStep(lead + t);
    if lead == [] {
      assert lead + t == t;
    } else {
      SkipsSpaces(lead[1..], t);
      assert (lead + t)[1..] == lead[1..] + t;
    }
  }

  /** What is skipped is white space, and what follows is not. */
  lemma {:induction false} Skipped(s: string) returns (lead: string)
    ensures AllSpaces(lead) && s == lead + SkipSpaces(s) && (SkipSpaces(s) == [] || !IsSpace(SkipSpaces(s)[0]))
  {
    hide SkipSpaces, AllSpaces;
    SkipStep(s);
    if s != [] && IsSpace(s[0]) {
      var rest := Skipped(s[1..]);
      lead := [s[0]] + rest;
      MoreSpaces(s[0], rest);
      assert s == [s[0]] + (rest + SkipSpaces(s[1..])) == lead + SkipSpaces(s);
    } else {
      lead := [];
      assert s == lead + s;
    }
  }

  lemma MoreSpaces(c: char, s: string)
    requires IsSpace(c) && AllSpaces(s)
    ensures AllSpaces([c] + s)
  {
  }

  lemma {:induction false} CountsDigits(ds: string, rest: string)
    requires AllDigits(ds) && (rest == [] || !IsDigit(rest[0]))
    ensures DigitCount(ds + rest) == |ds|
  {
    if ds == [] {
      assert ds + rest == rest;
    } else {
      CountsDigits(ds[1..], rest);
      assert (ds + rest)[1..] == ds[1..] + rest;
    }
  }

  lemma {:induction false} SignedReads(plus: bool, ds: string, n: nat, rest: string)
    requires Spells(ds, n) && NoDigit(rest)
    ensures SignedNumber((if plus then ['+'] else []) + ds + rest) == Some(n)
  {
    hide Value, DigitCount;
    CountsDigits(ds, rest);
    var u := ds + rest;
    assert u[0] == ds[0] && IsDigit(ds[0]) && u[..|ds|] == ds;
    var t := if plus then ['+'] + u else u;
    assert t == (if plus then ['+'] else []) + ds + rest;
    assert plus ==> t[1..] == u;
  }

  /** A number, in any spelling and before anything but a digit, is read back. */
  lemma NumberReads(lead: string, plus: bool, ds: string, n: nat, rest: string)
    requires AllSpaces(lead) && Spells(ds, n) && NoDigit(rest)
    ensures Number(NumberField(lead, plus, ds, rest)) == Some(n)
  {
    hide Value, SignedNumber, SkipSpaces;
    var t := (if plus then ['+'] else []) + ds + rest;
    assert t[0] == (if plus then '+' else ds[0]) && IsDigit(ds[0]);
    SkipsSpaces(lead, t);
    SignedReads(plus, ds, n, rest);
  }

  // ----- string values

  lemma {:induction false} CountsWord(v: string, rest: string)
    requires NoSpace(v) && (rest == [] || IsSpace(rest[0]))
    ensures WordLength(v + rest) == |v|
  {
    if v == [] {
      assert v + rest == rest;
    } else {
      CountsWord(v[1..], rest);
      assert (v + rest)[1..] == v[1..] + rest;
    }
  }

  /** What is counted is a word, and what follows is not part of it. */
  lemma {:induction false} Counted(s: string)
    ensures NoSpace(s[..WordLength(s)]) && (WordLength(s) < |s| ==> IsSpace(s[WordLength(s)]))
  {
    if s != [] && !IsSpace(s[0]) {
      Counted(s[1..]);
      assert s[..WordLength(s)] == [s[0]] + s[1..][..WordLength(s[1..])];
    }
  }

  /** A word without the quote at its end. */
  function Unquoted(word: string): string
  {
    if word != [] && word[|word| - 1] == '\'' then word[..|word| - 1] else word
  }

  /** A string value: the opening quote, any white space, a word, and the rest of the card. */
  function WordField(lead: string, word: string, more: string): string
  {
    ['\''] + (lead + (word + more))
  }

  lemma FirstWordReads(word: string, more: string)
    requires NoSpace(word) && word != [] && (more == [] || IsSpace(more[0]))
    ensures FirstWord(word + more) == if more == [] then None else Some(Unquoted(word))
  {
    CountsWord(word, more);
    hide WordLength;
    var t := word + more;
    assert t[..|word|] == word && t[..|word| - 1] == word[..|word| - 1];
  }

  /** Of a string value the first word is read, up to a space, and loses a quote at its end. */
  lemma StringReads(lead: string, word: string, more: string)
    requires AllSpaces(lead) && NoSpace(word) && word != [] && (more == [] || IsSpace(more[0]))
    ensures StringValue(WordField(lead, word, more)) == if more == [] then None else Some(Unquoted(word))
  {
    FirstWordReads(word, more);
    hide SkipSpaces, FirstWord, Unquoted;
    var t := word + more;
    SkipsSpaces(lead, t);
    var field := WordField(lead, word, more);
    assert field == ['\''] + (lead + t);
    assert field[1..] == lead + t;
  }

  // ----- spellings

  ghost predicate NoDigit(rest: string) { rest == [] || !IsDigit(rest[0]) }

  /** A number behind any white space, with or without a sign and leading zeros, and before anything but a digit:
      spaces or a comment, say. */
  function NumberField(lead: string, plus: bool, ds: string, rest: string): string
  {
    lead + ((if plus then ['+'] else []) + ds + rest)
  }

  ghost predicate SpellsNumber(field: string, n: nat)
  {
    exists lead: string, plus: bool, ds: string, rest: string ::
      AllSpaces(lead) && Spells(ds, n) && NoDigit(rest) && field == NumberField(lead, plus, ds, rest)
  }

  /** v is the first word, without a quote at its end, and a space follows. */
  ghost predicate SpellsWord(field: string, v: string)
  {
    exists lead: string, word: string, more: string ::
      && AllSpaces(lead) && NoSpace(word) && word != [] && more != [] && IsSpace(more[0])
      && field == WordField(lead, word, more) && v == Unquoted(word)
  }

  /** A card with a ten-character key and a number. */
  ghost predicate SaysNumber(line: string, key: string, n: nat)
  {
    |line| == 80 && |key| == 10 && line[..10] == key && SpellsNumber(line[10..], n)
  }

  /** A card with a five-character key, an index, and a string whose first word is v. */
  ghost predicate SaysWord(line: string, key: string, k: nat, v: string)
  {
    |line| == 80 && |key| == 5 && line[..5] == key && SpellsNumber(line[5..], k) && SpellsWord(line[10..], v)
  }

  lemma NumberSaid(field: string, n: nat)
    requires SpellsNumber(field, n)
    ensures Number(field) == Some(n) && Atoi(field) == n
  {
    var lead: string, plus: bool, ds: string, rest: string :|
      AllSpaces(lead) && Spells(ds, n) && NoDigit(rest) && field == NumberField(lead, plus, ds, rest);
    hide Number;
    NumberReads(lead, plus, ds, n, rest);
  }

  /** A value from which a word is read, taken apart. */
  lemma WordFound(field: string, v: string) returns (lead: string, word: string, more: string)
    requires StringValue(field) == Some(v)
    ensures AllSpaces(lead) && NoSpace(word) && word != [] && more != [] && IsSpace(more[0])
    ensures field == WordField(lead, word, more) && v == Unquoted(word)
  {
    var t := SkipSpaces(field[1..]);
    QuoteFirst(field, v);
    hide StringValue, SkipSpaces, AllSpaces, NoSpace, FirstWord, Unquoted;
    lead := Skipped(field[1..]);
    word, more := FirstWordFound(t, v);
  }

  lemma QuoteFirst(field: string, v: string)
    requires StringValue(field) == Some(v)
    ensures field != [] && field == ['\''] + field[1..] && FirstWord(SkipSpaces(field[1..])) == Some(v)
  {
    hide SkipSpaces, FirstWord;
  }

  lemma FirstWordFound(t: string, v: string) returns (word: string, more: string)
    requires FirstWord(t) == Some(v)
    ensures NoSpace(word) && word != [] && more != [] && IsSpace(more[0]) && t == word + more && v == Unquoted(word)
  {
    Counted(t);
    var n := WordLength(t);
    hide WordLength, NoSpace;
    word, more := t[..n], t[n..];
    assert word[n - 1] == t[n - 1] && word[..n - 1] == t[..n - 1];
  }

  /** A string value is read as v if and only if it spells v. */
  lemma WordSaid(field: string, v: string)
    ensures SpellsWord(field, v) <==> StringValue(field) == Some(v)
  {
    if lead: string, word: string, more: string :|
      && AllSpaces(lead) && NoSpace(word) && word != [] && more != [] && IsSpace(more[0])
      && field == WordField(lead, word, more) && v == Unquoted(word) {
      StringReads(lead, word, more);
    }
    hide StringValue, WordField, Unquoted;
    if StringValue(field) == Some(v) { var lead, word, more := WordFound(field, v); }
  }

  // ----- cards

  /** What a card says to the reader: one of the three sizes, the name or the format of a column, anything else, or a
      string that runs to the end of its card, where the C code reads on. */
  datatype Statement =
    | RowWidth(n: nat)
    | Rows(n: nat)
    | Columns(n: nat)
    | Name(k: nat, name: string)
    | Format(k: nat, form: string)
    | Other
    | Garbled

  /** A card of any other keyword. */
  predicate Neutral(line: string)
  {
    && !IsEnd(line) && !Starts(line, "NAXIS1  = ") && !Starts(line, "NAXIS2  = ") && !Starts(line, "TFIELDS = ")
    && !Starts(line, "TTYPE") && !Starts(line, "TFORM")
  }

  /** A name or a format without a word that ends on the card. */
  ghost predicate SaysNothing(line: string)
  {
    && |line| == 80 && (line[..5] == "TTYPE" || line[..5] == "TFORM")
    && (exists k: nat :: SpellsNumber(line[5..], k)) && StringValue(line[10..]) == None
  }

  ghost predicate Says(line: string, st: Statement)
  {
    match st
    case RowWidth(n) => SaysNumber(line, "NAXIS1  = ", n)
    case Rows(n) => SaysNumber(line, "NAXIS2  = ", n)
    case Columns(n) => SaysNumber(line, "TFIELDS = ", n)
    case Name(k, name) => SaysWord(line, "TTYPE", k, name)
    case Format(k, form) => SaysWord(line, "TFORM", k, form)
    case Other => |line| == 80 && Neutral(line)
    case Garbled => SaysNothing(line)
  }

  function Take(f: Fields, st: Statement): Fields
  {
    match st
    case RowWidth(n) => f.(naxis1 := n)
    case Rows(n) => f.(naxis2 := n)
    case Columns(n) => f.(tfields := n, columns := Blank(n))
    case Name(k, name) =>
      if name == "X" then f.(posx := k)
      else if name == "Y" then f.(posy := k)
      else if name == "PI" then f.(pospi := k)
      else f
    case Format(k, form) =>
      if 0 < k <= f.tfields && k <= |f.columns| then f.(columns := f.columns[k - 1 := Some(TypeSize(form))]) else f
    case Other => f
    case Garbled => f.(broken := true)
  }

  lemma Differs(line: string, prefix: string, i: nat)
    requires i < |prefix| && (i >= |line| || line[i] != prefix[i])
    ensures !Starts(line, prefix)
  {
    if |prefix| <= |line| { assert line[..|prefix|][i] == line[i]; }
  }

  lemma RowWidthScanned(f: Fields, line: string, n: nat)
    requires Says(line, RowWidth(n))
    ensures !IsEnd(line) && ScanCard(f, line) == f.(naxis1 := n)
  {
    NumberSaid(line[10..], n);
    hide Atoi, StringValue, Number, TypeSize, SpellsNumber;
    assert line[0] == line[..10][0] == 'N';
    Differs(line, "END       ", 0);
    Differs(line, "TTYPE", 0);
    Differs(line, "TFORM", 0);
  }

  lemma RowsScanned(f: Fields, line: string, n: nat)
    requires Says(line, Rows(n))
    ensures !IsEnd(line) && ScanCard(f, line) == f.(naxis2 := n)
  {
    NumberSaid(line[10..], n);
    hide Atoi, StringValue, Number, TypeSize, SpellsNumber;
    assert line[0] == line[..10][0] == 'N' && line[5] == line[..10][5] == '2';
    Differs(line, "END       ", 0);
    Differs(line, "NAXIS1  = ", 5);
    Differs(line, "TTYPE", 0);
    Differs(line, "TFORM", 0);
  }

  lemma ColumnsScanned(f: Fields, line: string, n: nat)
    requires Says(line, Columns(n))
    ensures !IsEnd(line) && ScanCard(f, line) == f.(tfields := n, columns := Blank(n))
  {
    NumberSaid(line[10..], n);
    hide Atoi, StringValue, Number, TypeSize, SpellsNumber;
    assert line[0] == line[..10][0] == 'T' && line[1] == line[..10][1] == 'F' && line[2] == line[..10][2] == 'I';
    Differs(line, "END       ", 0);
    Differs(line, "NAXIS1  = ", 0);
    Differs(line, "NAXIS2  = ", 0);
    Differs(line, "TTYPE", 1);
    Differs(line, "TFORM", 2);
  }

  lemma TypeCard(f: Fields, line: string, k: nat, name: string)
    requires |line| == 80 && line[..5] == "TTYPE" && Number(Index(line)) == Some(k)
      && StringValue(Field(line)) == Some(name)
    ensures !IsEnd(line) && ScanCard(f, line) == Take(f, Name(k, name))
  {
    hide Atoi, StringValue, Number, TypeSize;
    assert line[0] == line[..5][0] == 'T' && line[1] == line[..5][1] == 'T';
    Differs(line, "END       ", 0);
    Differs(line, "NAXIS1  = ", 0);
    Differs(line, "NAXIS2  = ", 0);
    Differs(line, "TFIELDS = ", 1);
    Differs(line, "TFORM", 1);
  }

  lemma FormCard(f: Fields, line: string, k: nat, form: string)
    requires |line| == 80 && line[..5] == "TFORM" && Number(Index(line)) == Some(k)
      && StringValue(Field(line)) == Some(form)
    ensures !IsEnd(line) && ScanCard(f, line) == Take(f, Format(k, form))
  {
    hide Atoi, StringValue, Number, TypeSize;
    assert line[0] == line[..5][0] == 'T' && line[1] == line[..5][1] == 'F' && line[2] == line[..5][2] == 'O';
    Differs(line, "END       ", 0);
    Differs(line, "NAXIS1  = ", 0);
    Differs(line, "NAXIS2  = ", 0);
    Differs(line, "TFIELDS = ", 2);
    Differs(line, "TTYPE", 1);
  }

  lemma OtherScanned(f: Fields, line: string)
    requires Says(line, Other)
    ensures !IsEnd(line) && ScanCard(f, line) == f
  {
  }

  lemma GarbledScanned(f: Fields, line: string)
    requires Says(line, Garbled)
    ensures !IsEnd(line) && ScanCard(f, line) == f.(broken := true)
  {
    var k: nat :| SpellsNumber(line[5..], k);
    NumberSaid(line[5..], k);
    hide Atoi, StringValue, Number, TypeSize, SpellsNumber;
    assert line[0] == line[..5][0] == 'T' && line[1] == line[..5][1] && line[2] == line[..5][2];
    Differs(line, "END       ", 0);
    Differs(line, "NAXIS1  = ", 0);
    Differs(line, "NAXIS2  = ", 0);
    Differs(line, "TFIELDS = ", if line[1] == 'T' then 1 else 2);
    if line[1] == 'T' { Differs(line, "TFORM", 1); } else { Differs(line, "TTYPE", 1); }
  }

  /** However it is spelled, a card is scanned as what it says. */
  lemma CardScanned(f: Fields, line: string, st: Statement)
    requires Says(line, st)
    ensures |line| == 80 && !IsEnd(line) && ScanCard(f, line) == Take(f, st)
  {
    hide ScanCard, IsEnd, SpellsNumber, SpellsWord, Neutral, TypeSize, Number, StringValue;
    match st
    case RowWidth(n) => RowWidthScanned(f, line, n);
    case Rows(n) => RowsScanned(f, line, n);
    case Columns(n) => ColumnsScanned(f, line, n);
    case Name(k, name) =>
      NumberSaid(line[5..], k);
      WordSaid(line[10..], name);
      TypeCard(f, line, k, name);
    case Format(k, form) =>
      NumberSaid(line[5..], k);
      WordSaid(line[10..], form);
      FormCard(f, line, k, form);
    case Other => OtherScanned(f, line);
    case Garbled => GarbledScanned(f, line);
  }

  // ----- columns

  /**
   * A column by its format (section 7.3 of the FITS Standard 4.0): the repeat count, the type code, and what is read
   * behind the code: the element type and largest size of a descriptor, and any other characters up to a space.
   */
  datatype Column = Column(repeat: nat, code: char, extra: string)

  /** The ways to write a format: the repeat count may be left out when it is 1. */
  ghost predicate IsForm(c: Column, form: string)
  {
    exists ds: string :: form == ds + ([c.code] + c.extra) && (Spells(ds, c.repeat) || (ds == [] && c.repeat == 1))
  }

  /** The types of Table 18 that hold their elements in the row. */
  const CODES := "LXBIJKAEDCM"

  /** All of them: P and Q are descriptors of arrays elsewhere. */
  const TABLE_18 := CODES + "PQ"

  /** The bytes of one element; bits are counted apart. */
  function ElementSize(code: char): nat
  {
    if code == 'I' then 2
    else if code == 'J' || code == 'E' then 4
    else if code == 'K' || code == 'D' || code == 'C' || code == 'P' then 8
    else if code == 'M' || code == 'Q' then 16
    else 1
  }

  /** The bytes of n elements. */
  function Bytes(code: char, n: nat): nat
  {
    if code == 'X' then (n + 7) / 8 else n * ElementSize(code)
  }

  /** The bytes a column takes in a row. */
  function Width(c: Column): nat { Bytes(c.code, c.repeat) }

  /** The last character of the format as it is read. */
  function LastRead(c: Column): char { if c.extra == [] then c.code else c.extra[|c.extra| - 1] }

  /** The bytes the reader takes a column for: it goes by the last character, and counts at least one element. */
  function ReadSize(c: Column): nat
  {
    if LastRead(c) in CODES then Bytes(LastRead(c), if c.repeat == 0 then 1 else c.repeat) else 0
  }

  /** n elements of the one type take as many bytes as n of the other. */
  predicate SameBytes(a: char, b: char, n: nat)
  {
    a == b || (a != 'X' && b != 'X' && ElementSize(a) == ElementSize(b))
      || (n == 1 && ElementSize(a) == ElementSize(b) == 1)
  }

  /** The formats that are understood: with an element, when the last character read is a code of the same size;
      without one, when it is no code of the reader's at all. */
  predicate Understood(c: Column)
  {
    if LastRead(c) in CODES then c.repeat >= 1 && SameBytes(LastRead(c), c.code, c.repeat) else c.repeat == 0
  }

  lemma BytesOfCode(form: string, last: char, num: int, n: nat)
    requires form != [] && form[|form| - 1] == last && Atoi(form[..|form| - 1]) == num
    requires num == n || (num == 0 && n == 1)
    ensures TypeSize(form) == if last in CODES then Bytes(last, if n == 0 then 1 else n) else 0
  {
    hide Atoi;
  }

  lemma CountRead(c: Column, ds: string, rest: string)
    requires c.code in TABLE_18 && (rest == [] || rest[0] == c.code)
    requires Spells(ds, c.repeat) || (ds == [] && c.repeat == 1)
    ensures Atoi(ds + rest) == c.repeat || (Atoi(ds + rest) == 0 && c.repeat == 1)
  {
    hide Number, Value;
    if ds == [] {
      NoCount(c.code, rest);
      assert ds + rest == rest;
    } else {
      NumberReads([], false, ds, c.repeat, rest);
      assert [] + ([] + ds + rest) == ds + rest;
    }
  }

  lemma NoCount(code: char, rest: string)
    requires code in TABLE_18 && (rest == [] || rest[0] == code)
    ensures Number(rest) == None
  {
    assert rest == [] || (!IsSpace(rest[0]) && !IsDigit(rest[0]));
  }

  /** `get_type_size` of a format of Table 18, with anything behind its code: the size by its last character. */
  lemma TypeSizeReads(c: Column, form: string)
    requires c.code in TABLE_18 && IsForm(c, form)
    ensures TypeSize(form) == ReadSize(c)
  {
    var ds: string :| form == ds + ([c.code] + c.extra) && (Spells(ds, c.repeat) || (ds == [] && c.repeat == 1));
    hide TypeSize, Atoi, Value;
    var behind := [c.code] + c.extra;
    var rest := behind[..|behind| - 1];
    assert form[..|form| - 1] == ds + rest && form[|form| - 1] == behind[|behind| - 1] == LastRead(c);
    CountRead(c, ds, rest);
    BytesOfCode(form, LastRead(c), Atoi(ds + rest), c.repeat);
  }

  /** The size read is the width of the standard if and only if the format is understood; without further characters
      that is if and only if its type is not a descriptor and it has an element. */
  lemma TypeSizeIsWidth(c: Column, form: string)
    requires c.code in TABLE_18 && IsForm(c, form)
    ensures TypeSize(form) == Width(c) <==> Understood(c)
    ensures c.extra == [] && c.code in CODES ==> (Understood(c) <==> c.repeat >= 1)
  {
    TypeSizeReads(c, form);
    hide TypeSize, IsForm;
    UnderstoodSizes(c);
  }

  lemma UnderstoodSizes(c: Column)
    requires c.code in TABLE_18
    ensures ReadSize(c) == Width(c) <==> Understood(c)
  {
    var a, b, n := LastRead(c), c.code, c.repeat;
    if a in CODES && n >= 1 {
      SameSizes(a, b, n);
    } else {
      assert n >= 1 ==> Bytes(b, n) >= 1;
    }
  }

  lemma SameSizes(a: char, b: char, n: nat)
    requires a in CODES && b in TABLE_18 && n >= 1
    ensures Bytes(a, n) == Bytes(b, n) <==> SameBytes(a, b, n)
  {
    if a != 'X' && b != 'X' {
      if ElementSize(a) < ElementSize(b) { assert n * ElementSize(a) < n * ElementSize(b); }
      if ElementSize(b) < ElementSize(a) { assert n * ElementSize(b) < n * ElementSize(a); }
    } else if n > 1 {
      assert (n + 7) / 8 < n;
    }
  }

  lemma OneSpelled()
    ensures Spells("1", 1)
  {
    assert "1"[..0] == [];
  }

  lemma DescriptorForm()
    ensures IsForm(Column(1, 'P', "E(100)"), "1PE(100)")
  {
    OneSpelled();
    hide Spells;
    assert "1PE(100)" == "1" + (['P'] + "E(100)");
  }

  /** A descriptor with its largest size, of one array: 8 bytes that are taken for none. */
  lemma DescriptorSize()
    ensures IsForm(Column(1, 'P', "E(100)"), "1PE(100)")
    ensures Width(Column(1, 'P', "E(100)")) == 8 && TypeSize("1PE(100)") == 0
  {
    DescriptorForm();
    hide TypeSize, IsForm;
    TypeSizeReads(Column(1, 'P', "E(100)"), "1PE(100)");
  }
}
