/** `sxs.c`: reading X, Y and PI from the binary table extension of a FITS file. */
module Fits {
  import opened Options

  const BLOCK := 2880

  // ----- the C library

  predicate IsDigit(c: char) { '0' <= c <= '9' }

  /** `isspace` */
  predicate IsSpace(c: char) { c == ' ' || 9 <= c as int <= 13 }

  function SkipSpaces(s: string): (t: string)
    ensures |t| <= |s| && t == s[|s| - |t|..]
  {
    if s != [] && IsSpace(s[0]) then SkipSpaces(s[1..]) else s
  }

  function DigitCount(s: string): (n: nat)
    ensures n <= |s|
  {
    if s != [] && IsDigit(s[0]) then 1 + DigitCount(s[1..]) else 0
  }

  function Value(ds: string): int
  {
    if ds == [] then 0 else Value(ds[..|ds| - 1]) * 10 + (ds[|ds| - 1] as int - '0' as int)
  }

  function SignedNumber(t: string): Option<int>
  {
    var signed := t != [] && (t[0] == '-' || t[0] == '+');
    var u := if signed then t[1..] else t;
    var n := DigitCount(u);
    if n == 0 then None else Some(if signed && t[0] == '-' then -Value(u[..n]) else Value(u[..n]))
  }

  /** `sscanf(s, "%d", ...)` */
  function Number(s: string): Option<int> { SignedNumber(SkipSpaces(s)) }

  function Atoi(s: string): int
  {
    match Number(s)
    case None => 0
    case Some(n) => n
  }

  function WordLength(s: string): (n: nat)
    ensures n <= |s|
  {
    if s != [] && !IsSpace(s[0]) then 1 + WordLength(s[1..]) else 0
  }

  // ----- cards

  function FirstWord(t: string): Option<string>
  {
    var n := WordLength(t);
    if n == 0 || n == |t| then None
    else if t[n - 1] == '\'' then Some(t[..n - 1]) else Some(t[..n])
  }

  /** `hdr_get_string_value`; None where the C code would read outside the value of the card. */
  function StringValue(field: string): Option<string>
  {
    if field == [] || field[0] != '\'' then None else FirstWord(SkipSpaces(field[1..]))
  }

  function Max1(n: int): nat { if n > 1 then n else 1 }

  /** `get_type_size` */
  function TypeSize(form: string): nat
  {
    if form == [] then 0
    else
      var last := form[|form| - 1];
      var num := Atoi(form[..|form| - 1]);
      if last == 'L' then Max1(num)
      else if last == 'X' then Max1((num + 7) / 8)
      else if last == 'B' then Max1(num)
      else if last == 'I' then 2 * Max1(num)
      else if last == 'J' then 4 * Max1(num)
      else if last == 'K' then 8 * Max1(num)
      else if last == 'A' then Max1(num)
      else if last == 'E' then 4 * Max1(num)
      else if last == 'D' then 8 * Max1(num)
      else if last == 'C' then 8 * Max1(num)
      else if last == 'M' then 16 * Max1(num)
      else 0
  }

  predicate Starts(line: string, prefix: string)
  {
    |prefix| <= |line| && line[..|prefix|] == prefix
  }

  /**
   * What the scan has found. A column whose size has not been stored is None; `broken` records that the C code has
   * left the bounds of a string.
   */
  datatype Fields = Fields(naxis1: int, naxis2: int, tfields: int, posx: int, posy: int, pospi: int,
                           columns: seq<Option<nat>>, broken: bool)

  const EMPTY := Fields(0, 0, 0, 0, 0, 0, [], false)

  predicate IsEnd(line: string) { Starts(line, "END       ") }

  function Blank(n: nat): (s: seq<Option<nat>>)
    ensures |s| == n && forall i :: 0 <= i < n ==> s[i] == None
  {
    seq(n, _ => None)
  }

  /** The value of a card. */
  function Field(line: string): string { if |line| >= 10 then line[10..] else "" }

  /** What follows a five-letter keyword. */
  function Index(line: string): string { if |line| >= 5 then line[5..] else "" }

  function ScanSizes(f: Fields, line: string): Fields
  {
    if Starts(line, "NAXIS1  = ") then f.(naxis1 := Atoi(Field(line)))
    else if Starts(line, "NAXIS2  = ") then f.(naxis2 := Atoi(Field(line)))
    else if Starts(line, "TFIELDS = ") then
      var n := Atoi(Field(line));
      f.(tfields := n, columns := Blank(if n > 0 then n else 0))
    else f
  }

  function ScanType(f: Fields, line: string): Fields
  {
    if !Starts(line, "TTYPE") || Number(Index(line)).None? then f
    else
      var index := Number(Index(line)).value;
      match StringValue(Field(line))
      case None => f.(broken := true)
      case Some(name) =>
        if name == "X" then f.(posx := index)
        else if name == "Y" then f.(posy := index)
        else if name == "PI" then f.(pospi := index)
        else f
  }

  function ScanForm(f: Fields, line: string): Fields
  {
    if !Starts(line, "TFORM") || Number(Index(line)).None? then f
    else
      var index := Number(Index(line)).value;
      match StringValue(Field(line))
      case None => f.(broken := true)
      case Some(form) =>
        if 0 < index <= f.tfields && index <= |f.columns| then
          f.(columns := f.columns[index - 1 := Some(TypeSize(form))])
        else f
  }

  function ScanCard(f: Fields, line: string): Fields
  {
    ScanForm(ScanType(ScanSizes(f, line), line), line)
  }

  datatype Scan = Scan(fields: Fields, ended: bool)

  /** The cards one after another, up to END. */
  function ScanList(f: Fields, cards: seq<string>): Scan
    decreases |cards|
  {
    if cards == [] then Scan(f, false)
    else if IsEnd(cards[0]) then Scan(f, true)
    else ScanList(ScanCard(f, cards[0]), cards[1..])
  }

  /** The n cards from an offset on. */
  function CardsAt(file: string, offset: nat, n: nat): (cards: seq<string>)
    requires offset + n * 80 <= |file|
    ensures |cards| == n && forall c :: 0 <= c < n ==> cards[c] == file[offset + c * 80..offset + c * 80 + 80]
  {
    seq(n, c requires 0 <= c < n => file[offset + c * 80..offset + c * 80 + 80])
  }

  lemma CardsNext(file: string, offset: nat, n: nat)
    requires offset + n * 80 <= |file| && n > 0
    ensures CardsAt(file, offset, n)[0] == file[offset..offset + 80]
    ensures CardsAt(file, offset, n)[1..] == CardsAt(file, offset + 80, n - 1)
  {
  }

  lemma ScanNext(f: Fields, file: string, offset: nat, n: nat)
    requires offset + n * 80 <= |file|
    ensures ScanList(f, CardsAt(file, offset, n)) ==
      if n == 0 then Scan(f, false)
      else if IsEnd(file[offset..offset + 80]) then Scan(f, true)
      else ScanList(ScanCard(f, file[offset..offset + 80]), CardsAt(file, offset + 80, n - 1))
  {
    if n > 0 { CardsNext(file, offset, n); }
    hide ScanCard, IsEnd, CardsAt;
  }

  /** `scan_table_header`: one block. */
  method ScanTableHeader(file: string, offset: nat, f0: Fields) returns (s: Scan)
    requires offset + BLOCK <= |file|
    ensures s == ScanList(f0, CardsAt(file, offset, 36))
  {
    hide ScanCard, IsEnd, CardsAt, ScanList;
    var f := f0;
    var at := 0;
    ghost var left := 36;
    while at < 2880
      invariant 0 <= left <= 36 && at + left * 80 == 2880
      invariant ScanList(f, CardsAt(file, offset + at, left)) == ScanList(f0, CardsAt(file, offset, 36))
    {
      var line := file[offset + at..offset + at + 80];
      ScanNext(f, file, offset + at, left);
      if IsEnd(line) {
        return Scan(f, true);
      }
      f := ScanCard(f, line);
      at := at + 80;
      left := left - 1;
    }
    ScanNext(f, file, offset + at, left);
    s := Scan(f, false);
  }

  // ----- the whole header

  /** Where a scan of whole blocks stands: `at` is the block that holds END, or past the last whole block. */
  datatype Header = Header(scan: Scan, at: nat)

  /** Block after block. */
  function ScanFrom(file: string, offset: nat, f: Fields): Header
    decreases |file| - offset
  {
    if offset + BLOCK > |file| then Header(Scan(f, false), offset)
    else
      var s := ScanList(f, CardsAt(file, offset, 36));
      if s.ended then Header(s, offset) else ScanFrom(file, offset + BLOCK, s.fields)
  }

  /** The cards of all whole blocks from an offset on. */
  function AllCards(file: string, offset: nat): seq<string>
    decreases |file| - offset
  {
    if offset + BLOCK > |file| then [] else CardsAt(file, offset, 36) + AllCards(file, offset + BLOCK)
  }

  lemma {:induction false} ScanSplit(f: Fields, a: seq<string>, b: seq<string>)
    ensures ScanList(f, a + b) == if ScanList(f, a).ended then ScanList(f, a) else ScanList(ScanList(f, a).fields, b)
    decreases |a|
  {
    hide ScanCard, IsEnd;
    if a == [] {
      assert a + b == b;
    } else {
      assert (a + b)[1..] == a[1..] + b;
      if !IsEnd(a[0]) { ScanSplit(ScanCard(f, a[0]), a[1..], b); }
    }
  }

  /** Scanning block by block is the same as one pass over all the cards up to END. */
  lemma {:induction false} BlocksAreCards(file: string, offset: nat, f: Fields)
    ensures ScanFrom(file, offset, f).scan == ScanList(f, AllCards(file, offset))
    decreases |file| - offset
  {
    hide ScanList, CardsAt;
    if offset + BLOCK > |file| {
      ScanNothing(f);
    } else {
      ScanSplit(f, CardsAt(file, offset, 36), AllCards(file, offset + BLOCK));
      BlocksAreCards(file, offset + BLOCK, ScanList(f, CardsAt(file, offset, 36)).fields);
    }
  }

  lemma ScanNothing(f: Fields)
    ensures ScanList(f, []) == Scan(f, false)
  {
  }

  /** The first block that begins a binary table extension. */
  function FindTable(file: string, offset: nat): Option<nat>
    decreases |file| - offset
  {
    if offset + BLOCK > |file| then None
    else if Starts(file[offset..], "XTENSION= 'BINTABLE'") then Some(offset)
    else FindTable(file, offset + BLOCK)
  }

  // ----- columns and rows

  predicate AllKnown(columns: seq<Option<nat>>) { forall i :: 0 <= i < |columns| ==> columns[i].Some? }

  function Total(columns: seq<Option<nat>>): nat
    requires AllKnown(columns)
  {
    if columns == [] then 0 else Total(columns[..|columns| - 1]) + columns[|columns| - 1].value
  }

  /** The offset of column n, counted from 1; a missing column counts as the first,
      and the column after the last begins behind the row. */
  function ColumnOffset(columns: seq<Option<nat>>, n: int): nat
    requires AllKnown(columns) && n <= |columns| + 1
  {
    if n <= 1 then 0 else Total(columns[..n - 1])
  }

  method GetColumnOffset(columns: seq<Option<nat>>, index: int) returns (offset: nat)
    requires AllKnown(columns) && index <= |columns|
    ensures offset == ColumnOffset(columns, index + 1)
  {
    offset := 0;
    var i := 0;
    while i < index
      invariant 0 <= i && (i <= index || i == 0)
      invariant offset == Total(columns[..i])
    {
      assert columns[..i + 1][..i] == columns[..i];
      offset := offset + columns[i].value;
      i := i + 1;
    }
  }

  /** Big-endian. */
  function Unsigned(bytes: string): nat
  {
    if bytes == [] then 0 else Unsigned(bytes[..|bytes| - 1]) * 256 + bytes[|bytes| - 1] as int
  }

  /** Converted to `int16_t`. */
  function Signed16(bytes: string): int
  {
    var u := Unsigned(bytes);
    if u < 0x8000 then u else u - 0x10000
  }

  /** Where the rows are and where the three values are in a row. */
  datatype Layout = Layout(start: nat, width: nat, rows: nat, x: nat, y: nat, pi: nat, piSize: nat) {
    function PiBytes(): nat { if piSize == 2 || piSize == 4 then piSize else 0 }

    /** Every read of the row loop stays inside the file, and `i * NAXIS1` is an `int`. */
    predicate Inside(size: nat) {
      rows > 0 ==>
        && (rows - 1) * width < 0x8000_0000
        && start + (rows - 1) * width + x + 2 <= size && start + (rows - 1) * width + y + 2 <= size
        && start + (rows - 1) * width + pi + PiBytes() <= size
    }
  }

  lemma RowInside(l: Layout, size: nat, i: nat)
    requires l.Inside(size) && i < l.rows
    ensures 0 <= i * l.width && l.start + i * l.width + l.x + 2 <= size && l.start + i * l.width + l.y + 2 <= size
    ensures l.start + i * l.width + l.pi + l.PiBytes() <= size
  {
    assert i * l.width <= (l.rows - 1) * l.width;
  }

  function XAt(file: string, l: Layout, i: nat): int
    requires l.Inside(|file|) && i < l.rows
  {
    RowInside(l, |file|, i);
    var row := l.start + i * l.width;
    Signed16(file[row + l.x..row + l.x + 2])
  }

  function YAt(file: string, l: Layout, i: nat): int
    requires l.Inside(|file|) && i < l.rows
  {
    RowInside(l, |file|, i);
    var row := l.start + i * l.width;
    Signed16(file[row + l.y..row + l.y + 2])
  }

  function EnergyAt(file: string, l: Layout, i: nat): real
    requires l.Inside(|file|) && i < l.rows
  {
    RowInside(l, |file|, i);
    var row := l.start + i * l.width;
    Unsigned(file[row + l.pi..row + l.pi + l.PiBytes()]) as real
  }

  /** A PI column that is neither 2 nor 4 bytes wide is read as 0. */
  lemma OtherPiIsZero(file: string, l: Layout, i: nat)
    requires l.Inside(|file|) && i < l.rows && l.piSize != 2 && l.piSize != 4
    ensures EnergyAt(file, l, i) == 0.0
  {
    RowInside(l, |file|, i);
  }

  /** The row loop. */
  method ReadRows(file: string, l: Layout) returns (x: array<int>, y: array<int>, energy: array<real>)
    requires l.Inside(|file|)
    ensures x.Length == y.Length == energy.Length == l.rows
    ensures forall i: nat :: i < l.rows ==>
      x[i] == XAt(file, l, i) && y[i] == YAt(file, l, i) && energy[i] == EnergyAt(file, l, i)
  {
    x, y, energy := new int[l.rows], new int[l.rows], new real[l.rows];
    var i := 0;
    while i < l.rows
      invariant 0 <= i <= l.rows
      invariant forall k: nat :: k < i ==>
        x[k] == XAt(file, l, k) && y[k] == YAt(file, l, k) && energy[k] == EnergyAt(file, l, k)
    {
      RowInside(l, |file|, i);
      var row := l.start + i * l.width;
      x[i] := Signed16(file[row + l.x..row + l.x + 2]);
      y[i] := Signed16(file[row + l.y..row + l.y + 2]);
      if l.piSize == 2 {
        energy[i] := Unsigned(file[row + l.pi..row + l.pi + 2]) as real;
      } else if l.piSize == 4 {
        energy[i] := Unsigned(file[row + l.pi..row + l.pi + 4]) as real;
      } else {
        energy[i] := 0.0;
      }
      i := i + 1;
    }
  }

  // ----- the whole file

  /** `Undefined`: the C code has read outside an array or an uninitialised size, or overflowed an `int`. */
  datatype Outcome = Failed(code: int) | Undefined | Events(x: seq<int>, y: seq<int>, energy: seq<real>)

  function LayoutOf(f: Fields, start: nat): Layout
    requires AllKnown(f.columns) && f.naxis1 >= 0 && f.naxis2 >= 0
    requires f.posx <= |f.columns| + 1 && f.posy <= |f.columns| + 1 && 1 <= f.pospi <= |f.columns|
  {
    Layout(start, f.naxis1, f.naxis2, ColumnOffset(f.columns, f.posx), ColumnOffset(f.columns, f.posy),
           ColumnOffset(f.columns, f.pospi), f.columns[f.pospi - 1].value)
  }

  /** From the scanned header to the events. */
  function ReadTable(file: string, f: Fields, at: nat): Outcome
  {
    var start := at + BLOCK;
    if f.broken || !AllKnown(f.columns) then Undefined
    else if Total(f.columns) != f.naxis1 || f.naxis2 < 0 || start + f.naxis2 * f.naxis1 > |file| then Failed(0)
    else if f.posx > |f.columns| + 1 || f.posy > |f.columns| + 1 || f.pospi < 1 || f.pospi > |f.columns| then Undefined
    else
      var l := LayoutOf(f, start);
      if !l.Inside(|file|) then Undefined
      else Events(seq(l.rows, i requires 0 <= i < l.rows => XAt(file, l, i)),
                  seq(l.rows, i requires 0 <= i < l.rows => YAt(file, l, i)),
                  seq(l.rows, i requires 0 <= i < l.rows => EnergyAt(file, l, i)))
  }

  function Read(file: string): Outcome
  {
    if |file| < BLOCK then Failed(-1)
    else
      match FindTable(file, 0)
      case None => Failed(0)
      case Some(offset) =>
        var h := ScanFrom(file, offset, EMPTY);
        ReadTable(file, h.scan.fields, h.at)
  }

  /** The loop that looks for the extension. */
  method Find(file: string) returns (found: Option<nat>)
    ensures found == FindTable(file, 0)
  {
    hide Starts;
    var sxs_offset := 0;
    while sxs_offset + BLOCK <= |file|
      invariant 0 <= sxs_offset && FindTable(file, sxs_offset) == FindTable(file, 0)
    {
      if Starts(file[sxs_offset..], "XTENSION= 'BINTABLE'") {
        return Some(sxs_offset);
      }
      sxs_offset := sxs_offset + BLOCK;
    }
    found := None;
  }

  /** The loop over the blocks of the header. */
  method ScanHeader(file: string, offset: nat) returns (f: Fields, at: nat)
    ensures f == ScanFrom(file, offset, EMPTY).scan.fields && at == ScanFrom(file, offset, EMPTY).at
  {
    hide ScanList, CardsAt, EMPTY;
    f, at := EMPTY, offset;
    while at + BLOCK <= |file|
      invariant ScanFrom(file, at, f) == ScanFrom(file, offset, EMPTY)
    {
      var s := ScanTableHeader(file, at, f);
      f := s.fields;
      if s.ended {
        return;
      }
      at := at + BLOCK;
    }
  }

  /** `read_sxs_events` */
  method ReadEvents(file: string) returns (o: Outcome)
    ensures o == Read(file)
  {
    if |file| < BLOCK {
      return Failed(-1);
    }
    hide FindTable, ScanFrom, ReadTable;
    var found := Find(file);
    if found.None? {
      return Failed(0);
    }
    var f, at := ScanHeader(file, found.value);
    o := ReadData(file, f, at);
  }

  /** The loop that adds up the sizes of the columns. */
  method SumOfSizes(columns: seq<Option<nat>>) returns (sum: nat)
    requires AllKnown(columns)
    ensures sum == Total(columns)
  {
    sum := 0;
    var i := 0;
    while i < |columns|
      invariant 0 <= i <= |columns| && sum == Total(columns[..i])
    {
      assert columns[..i + 1][..i] == columns[..i];
      sum := sum + columns[i].value;
      i := i + 1;
    }
    assert columns[..i] == columns;
  }

  /** The checks after the header, and the rows. */
  method ReadData(file: string, f: Fields, at: nat) returns (o: Outcome)
    ensures o == ReadTable(file, f, at)
  {
    var start := at + BLOCK;
    if f.broken || !(forall i :: 0 <= i < |f.columns| ==> f.columns[i].Some?) {
      return Undefined;
    }
    var sum := SumOfSizes(f.columns);
    if sum != f.naxis1 || f.naxis2 < 0 || start + f.naxis2 * f.naxis1 > |file| {
      return Failed(0);
    }
    if f.posx > |f.columns| + 1 || f.posy > |f.columns| + 1 || f.pospi < 1 || f.pospi > |f.columns| {
      return Undefined;
    }
    var x_offset := GetColumnOffset(f.columns, f.posx - 1);
    var y_offset := GetColumnOffset(f.columns, f.posy - 1);
    var pi_offset := GetColumnOffset(f.columns, f.pospi - 1);
    var l := Layout(start, f.naxis1, f.naxis2, x_offset, y_offset, pi_offset, f.columns[f.pospi - 1].value);
    if !l.Inside(|file|) {
      return Undefined;
    }
    var x, y, energy := ReadRows(file, l);
    o := Events(x[..], y[..], energy[..]);
  }
}
