/** A binary table in a FITS file is read back by sxs.c value by value. */
module FitsRoundTrip {
  import opened Fits
  import opened FitsCards
  import opened FitsTable
  import opened Options

  // ----- integers

  function Pow256(n: nat): nat { if n == 0 then 1 else 256 * Pow256(n - 1) }

  /** The last n bytes of u, big-endian. */
  function Put(u: nat, n: nat): (s: string)
    ensures |s| == n
  {
    if n == 0 then "" else Put(u / 256, n - 1) + [(u % 256) as char]
  }

  lemma {:induction false} PutReads(u: nat, n: nat)
    requires u < Pow256(n)
    ensures Unsigned(Put(u, n)) == u
  {
    if n > 0 {
      PutReads(u / 256, n - 1);
      assert Put(u, n)[..n - 1] == Put(u / 256, n - 1);
    }
  }

  /** Two's complement in n bytes. */
  function PutInt(v: int, n: nat): (s: string)
    requires 0 - Pow256(n) <= v
    ensures |s| == n
  {
    Put(if v >= 0 then v else v + Pow256(n), n)
  }

  lemma Powers()
    ensures Pow256(2) == 0x1_0000 && Pow256(4) == 0x1_0000_0000
  {
    assert Pow256(1) == 256;
    assert Pow256(3) == 0x100_0000;
  }

  /** Every 16-bit integer is read back. */
  lemma Int16Reads(v: int)
    requires -0x8000 <= v < 0x8000
    ensures Pow256(2) == 0x1_0000 && Signed16(PutInt(v, 2)) == v
  {
    Powers();
    PutReads(if v >= 0 then v else v + 0x1_0000, 2);
    hide Put, Unsigned;
  }

  /** A signed PI value is read back exactly when it is not negative. */
  lemma PiReads(v: int, n: nat)
    requires n == 2 || n == 4
    requires 0 - Pow256(n) <= 2 * v < Pow256(n)
    ensures Unsigned(PutInt(v, n)) == if v >= 0 then v else v + Pow256(n)
    ensures Unsigned(PutInt(v, n)) == v <==> v >= 0
  {
    Powers();
    PutReads(if v >= 0 then v else v + Pow256(n), n);
    hide Put, Unsigned;
  }

  // ----- rows

  /** One row: the three values that are read, and the bytes of every column. */
  datatype Row = Row(x: int, y: int, pi: int, cells: seq<string>)

  function Size(cols: seq<Column>, n: int): nat
    requires 1 <= n <= |cols|
  {
    Width(cols[n - 1])
  }

  ghost predicate GoodRow(cols: seq<Column>, px: nat, py: nat, pp: nat, r: Row)
    requires 1 <= px <= |cols| && 1 <= py <= |cols| && 1 <= pp <= |cols|
  {
    && |r.cells| == |cols| && (forall j :: 0 <= j < |cols| ==> |r.cells[j]| == Width(cols[j]))
    && -0x8000 <= r.x < 0x8000 && -0x8000 <= r.y < 0x8000
    && Size(cols, px) == 2 && Size(cols, py) == 2 && (Size(cols, pp) == 2 || Size(cols, pp) == 4)
    && 0 - Pow256(Size(cols, pp)) <= 2 * r.pi < Pow256(Size(cols, pp))
    && 0 - Pow256(2) <= r.x && 0 - Pow256(2) <= r.y
    && r.cells[px - 1] == PutInt(r.x, 2) && r.cells[py - 1] == PutInt(r.y, 2)
    && r.cells[pp - 1] == PutInt(r.pi, Size(cols, pp))
  }

  /** The cells of a row tile it: column k starts where the sizes of the columns before it end. */
  lemma {:induction false} CellsTile(cols: seq<Column>, cells: seq<string>, k: nat)
    requires k <= |cols| == |cells| && forall j :: 0 <= j < |cols| ==> |cells[j]| == Width(cols[j])
    ensures Total(Sizes(cols)[..k]) == |Join(cells[..k])|
  {
    hide Width;
    if k > 0 {
      CellsTile(cols, cells, k - 1);
      assert cells[..k][..k - 1] == cells[..k - 1];
      assert Sizes(cols)[..k][..k - 1] == Sizes(cols)[..k - 1];
    }
  }

  /** The bytes of column p in a row are its cell. */
  lemma CellInRow(cols: seq<Column>, cells: seq<string>, p: int)
    requires 1 <= p <= |cols| == |cells| && forall j :: 0 <= j < |cols| ==> |cells[j]| == Width(cols[j])
    ensures |Join(cells)| == Total(Sizes(cols))
    ensures var o := ColumnOffset(Sizes(cols), p);
      o + Width(cols[p - 1]) <= |Join(cells)| && Join(cells)[o..o + Width(cols[p - 1])] == cells[p - 1]
  {
    hide Width, Join, Total;
    NoCells();
    CellsTile(cols, cells, p - 1);
    CellsTile(cols, cells, |cols|);
    assert cells[..|cols|] == cells && Sizes(cols)[..|cols|] == Sizes(cols);
    assert Sizes(cols)[..0] == [] && cells[..0] == [];
    JoinSlice(cells, p - 1);
  }

  lemma NoCells()
    ensures Join([]) == "" && Total([]) == 0
  {
  }

  function RowBytes(rows: seq<Row>): (s: seq<string>)
    ensures |s| == |rows|
  {
    seq(|rows|, i requires 0 <= i < |rows| => Join(rows[i].cells))
  }

  /** A slice of a slice. */
  lemma SliceOfSlice(file: string, before: string, data: string, tail: string, a: nat, w: nat, o: nat, n: nat)
    requires file == before + data + tail && a + w <= |data| && o + n <= w
    ensures |before| + a + o + n <= |file|
    ensures file[|before| + a + o..|before| + a + o + n] == data[a..a + w][o..o + n]
  {
    var s, t := file[|before| + a + o..|before| + a + o + n], data[a..a + w][o..o + n];
    forall k | 0 <= k < n ensures s[k] == t[k] {
      assert s[k] == file[|before| + (a + o + k)] == data[a + o + k];
    }
  }

  /** The bytes of column p in row i of the file. */
  lemma CellInFile(file: string, before: string, cols: seq<Column>, rows: seq<Row>, tail: string, i: nat, p: int)
    requires i < |rows| && 1 <= p <= |cols|
    requires forall r :: 0 <= r < |rows| ==> |rows[r].cells| == |cols| && forall j :: 0 <= j < |cols| ==>
      |rows[r].cells[j]| == Width(cols[j])
    requires file == before + Join(RowBytes(rows)) + tail
    ensures var w, o, n := Total(Sizes(cols)), ColumnOffset(Sizes(cols), p), Width(cols[p - 1]);
      && |Join(RowBytes(rows))| == |rows| * w && 0 <= i * w && |before| + i * w + o + n <= |file|
      && file[|before| + i * w + o..|before| + i * w + o + n] == rows[i].cells[p - 1]
  {
    hide Width, Join, Total, Sizes, ColumnOffset;
    var w := Total(Sizes(cols));
    var parts := RowBytes(rows);
    forall r | 0 <= r < |rows| ensures |parts[r]| == w {
      CellInRow(cols, rows[r].cells, p);
    }
    JoinUniform(parts, w);
    UniformSlice(parts, w, i);
    CellInRow(cols, rows[i].cells, p);
    SliceOfSlice(file, before, Join(parts), tail, i * w, w, ColumnOffset(Sizes(cols), p), Width(cols[p - 1]));
  }

  // ----- the whole file

  /** A file whose binary table extension is the first one in it; `sts` is what the cards of its header say. */
  datatype Parts = Parts(front: string, body: seq<string>, sts: seq<Statement>, fill: seq<string>, cols: seq<Column>,
    rows: seq<Row>, tail: string)

  /** All cards of the extension's header. */
  function Cards(t: Parts): seq<string> { t.body + [END_CARD] + t.fill }

  function FileOf(t: Parts): string
  {
    t.front + Join(Cards(t)) + Join(RowBytes(t.rows)) + t.tail
  }

  /** No block before the extension begins like one. */
  ghost predicate NoTableBefore(front: string)
  {
    |front| % 2880 == 0 && forall b: nat :: b * 2880 < |front| ==> !Starts(front[b * 2880..], "XTENSION= 'BINTABLE'")
  }

  /** The header takes whole blocks, END is in the last, and the cards describe the table. */
  ghost predicate GoodHeader(t: Parts)
  {
    && t.body != [] && Starts(t.body[0], "XTENSION= 'BINTABLE'")
    && (forall i :: 0 <= i < |t.fill| ==> |t.fill[i]| == 80)
    && |Cards(t)| % 36 == 0 && |t.fill| < 36
    && SayAll(t.body, t.sts) && Describes(t.sts, t.cols, |t.rows|)
  }

  ghost predicate GoodRows(t: Parts, px: nat, py: nat, pp: nat)
  {
    && 1 <= px <= |t.cols| && 1 <= py <= |t.cols| && 1 <= pp <= |t.cols|
    && forall i :: 0 <= i < |t.rows| ==> GoodRow(t.cols, px, py, pp, t.rows[i])
  }

  lemma StartsInFile(file: string, front: string, o: nat, prefix: string)
    requires front <= file && o + |prefix| <= |front|
    ensures Starts(file[o..], prefix) == Starts(front[o..], prefix)
  {
    assert file[o..][..|prefix|] == front[o..][..|prefix|];
  }

  /** The search passes the blocks in front and stops at the extension. */
  lemma {:induction false} FrontPassed(file: string, front: string, b: nat)
    requires NoTableBefore(front) && front <= file && |front| + 2880 <= |file| && b * 2880 <= |front|
    requires Starts(file[|front|..], "XTENSION= 'BINTABLE'")
    ensures FindTable(file, b * 2880) == Some(|front|)
    decreases |front| - b * 2880
  {
    var prefix := "XTENSION= 'BINTABLE'";
    if b * 2880 < |front| {
      StartsInFile(file, front, b * 2880, prefix);
      FrontPassed(file, front, b + 1);
    }
    hide Starts;
  }

  /** The cards are found in the file. */
  lemma CardsInFile(front: string, cards: seq<string>, rest: string)
    requires forall i :: 0 <= i < |cards| ==> |cards[i]| == 80
    ensures |Join(cards)| == |cards| * 80 && CardsAt(front + Join(cards) + rest, |front|, |cards|) == cards
  {
    hide Join;
    JoinUniform(cards, 80);
    var file := front + Join(cards) + rest;
    forall c | 0 <= c < |cards| ensures file[|front| + c * 80..|front| + c * 80 + 80] == cards[c] {
      UniformSlice(cards, 80, c);
      SliceOfSlice(file, front, Join(cards), rest, c * 80, 80, 0, 80);
      assert Join(cards)[c * 80..c * 80 + 80][0..80] == Join(cards)[c * 80..c * 80 + 80];
    }
  }

  /** The number of blocks of the header. */
  function HeaderBlocks(t: Parts): nat { |Cards(t)| / 36 }

  lemma HeaderSize(t: Parts)
    requires GoodHeader(t)
    ensures HeaderBlocks(t) > 0 && |Cards(t)| == HeaderBlocks(t) * 36
    ensures (HeaderBlocks(t) - 1) * 36 <= |t.body| < HeaderBlocks(t) * 36
    ensures Cards(t)[..|t.body|] == t.body && Cards(t)[|t.body|] == END_CARD
    ensures Cards(t) == t.body + [END_CARD] + t.fill
    ensures forall i :: 0 <= i < |Cards(t)| ==> |Cards(t)[i]| == 80
    ensures NoEnd(t.body)
  {
    NoEndSaid(t.body, t.sts);
    EndIsEnd();
    hide SayAll, Describes, Starts, END_CARD, NoEnd;
  }

  lemma HeaderSays(t: Parts)
    requires GoodHeader(t)
    ensures SayAll(t.body, t.sts) && Describes(t.sts, t.cols, |t.rows|)
    ensures FileOf(t) == t.front + Join(Cards(t)) + (Join(RowBytes(t.rows)) + t.tail)
    ensures Cards(t) != [] && Starts(Cards(t)[0], "XTENSION= 'BINTABLE'")
  {
    assert Cards(t)[0] == t.body[0];
    hide SayAll, Describes, Join, RowBytes, Starts;
  }

  /** A file with this header and anything behind it. */
  function WithData(t: Parts, data: string): string { t.front + Join(Cards(t)) + data }

  /** The scan of the header finds what the cards say, whatever data follow. */
  lemma HeaderScan(t: Parts, data: string)
    requires GoodHeader(t)
    ensures |Join(Cards(t))| == HeaderBlocks(t) * 2880 && HeaderBlocks(t) > 0
    ensures ScanFrom(WithData(t, data), |t.front|, EMPTY)
         == Header(Scan(TakeAll(EMPTY, t.sts), true), |t.front| + (HeaderBlocks(t) - 1) * 2880)
  {
    assert WithData(t, data) == t.front + Join(Cards(t)) + data;
    hide *;
    HeaderSize(t);
    HeaderSays(t);
    CardsInFile(t.front, Cards(t), data);
    EndIsEnd();
    EnoughFile(t.front, Join(Cards(t)), data, HeaderBlocks(t));
    ScanFindsEnd(WithData(t, data), |t.front|, EMPTY, HeaderBlocks(t), |t.body|);
    HeaderTaken(t.body, t.sts, t.fill);
  }

  lemma FileWithData(t: Parts)
    ensures FileOf(t) == WithData(t, Join(RowBytes(t.rows)) + t.tail)
  {
    hide Join, RowBytes, Cards;
  }

  lemma HeaderRead(t: Parts)
    requires GoodHeader(t)
    ensures |Join(Cards(t))| == HeaderBlocks(t) * 2880 && HeaderBlocks(t) > 0
    ensures ScanFrom(FileOf(t), |t.front|, EMPTY)
         == Header(Scan(TakeAll(EMPTY, t.sts), true), |t.front| + (HeaderBlocks(t) - 1) * 2880)
  {
    hide *;
    FileWithData(t);
    HeaderScan(t, Join(RowBytes(t.rows)) + t.tail);
  }

  lemma EnoughFile(a: string, b: string, c: string, n: nat)
    requires |b| == n * 36 * 80
    ensures |a| + n * 36 * 80 <= |a + b + c|
  {
  }

  lemma FirstCard(front: string, cards: seq<string>, rest: string)
    requires cards != [] && Starts(cards[0], "XTENSION= 'BINTABLE'")
    requires forall i :: 0 <= i < |cards| ==> |cards[i]| == 80
    ensures Starts((front + Join(cards) + rest)[|front|..], "XTENSION= 'BINTABLE'")
  {
    UniformSlice(cards, 80, 0);
    hide Join;
    var file := front + Join(cards) + rest;
    assert Join(cards)[..80] == cards[0];
    assert file[|front|..][..20] == cards[0][..20];
  }

  lemma TableStarts(t: Parts, data: string)
    requires GoodHeader(t) && NoTableBefore(t.front)
    requires |Join(Cards(t))| == HeaderBlocks(t) * 2880 && HeaderBlocks(t) > 0
    ensures |WithData(t, data)| >= 2880 && FindTable(WithData(t, data), 0) == Some(|t.front|)
  {
    assert WithData(t, data) == t.front + Join(Cards(t)) + data;
    hide *;
    HeaderSize(t);
    HeaderSays(t);
    FirstCard(t.front, Cards(t), data);
    FrontPassed(WithData(t, data), t.front, 0);
  }

  lemma ExtensionFound(t: Parts)
    requires GoodHeader(t) && NoTableBefore(t.front)
    requires |Join(Cards(t))| == HeaderBlocks(t) * 2880 && HeaderBlocks(t) > 0
    ensures |FileOf(t)| >= 2880 && FindTable(FileOf(t), 0) == Some(|t.front|)
  {
    hide *;
    FileWithData(t);
    TableStarts(t, Join(RowBytes(t.rows)) + t.tail);
  }

  lemma ShortData(file: string, f: Fields, at: nat)
    requires !f.broken && AllKnown(f.columns) && f.naxis2 >= 0
    requires Total(f.columns) != f.naxis1 || at + 2880 + f.naxis2 * f.naxis1 > |file|
    ensures ReadTable(file, f, at) == Failed(0)
  {
    hide Total;
  }

  lemma DataEnds(t: Parts, data: string)
    requires |Join(Cards(t))| == HeaderBlocks(t) * 2880
    ensures |WithData(t, data)| == |t.front| + HeaderBlocks(t) * 2880 + |data|
  {
  }

  /** A file that ends before its last row is refused, whatever its columns are called and whatever their formats. */
  lemma ShortFileFails(t: Parts, data: string)
    requires NoTableBefore(t.front) && GoodHeader(t) && |data| < |t.rows| * Total(Sizes(t.cols))
    ensures Read(WithData(t, data)) == Failed(0)
  {
    hide *;
    HeaderScan(t, data);
    HeaderSays(t);
    SizesFound(t.sts, t.cols, |t.rows|);
    TableStarts(t, data);
    DataEnds(t, data);
    var f, at := TakeAll(EMPTY, t.sts), |t.front| + (HeaderBlocks(t) - 1) * 2880;
    ReadIs(WithData(t, data), |t.front|, f, at);
    ShortData(WithData(t, data), f, at);
  }

  // ----- the result

  /** What PI is read as: the bytes of a signed integer taken as an unsigned one. */
  function ReadPi(t: Parts, pp: nat, i: nat): int
    requires i < |t.rows| && 1 <= pp <= |t.cols|
  {
    var v := t.rows[i].pi;
    if v >= 0 then v else v + Pow256(Size(t.cols, pp))
  }

  function TheLayout(t: Parts, px: nat, py: nat, pp: nat): Layout
    requires 1 <= px <= |t.cols| && 1 <= py <= |t.cols| && 1 <= pp <= |t.cols|
  {
    Layout(|t.front| + HeaderBlocks(t) * 2880, Total(Sizes(t.cols)), |t.rows|,
           ColumnOffset(Sizes(t.cols), px), ColumnOffset(Sizes(t.cols), py), ColumnOffset(Sizes(t.cols), pp),
           Size(t.cols, pp))
  }

  /** Where the reader takes the columns to be. */
  function ReadLayout(t: Parts, px: nat, py: nat, pp: nat): Layout
    requires 1 <= px <= |t.cols| && 1 <= py <= |t.cols| && 1 <= pp <= |t.cols|
  {
    var sizes := ReadSizes(t.cols);
    Layout(|t.front| + HeaderBlocks(t) * 2880, Total(Sizes(t.cols)), |t.rows|,
           ColumnOffset(sizes, px), ColumnOffset(sizes, py), ColumnOffset(sizes, pp), ReadSize(t.cols[pp - 1]))
  }

  lemma WidthsFit(t: Parts, px: nat, py: nat, pp: nat, i: nat)
    requires GoodRows(t, px, py, pp) && i < |t.rows|
    ensures GoodRow(t.cols, px, py, pp, t.rows[i])
    ensures forall r :: 0 <= r < |t.rows| ==>
      |t.rows[r].cells| == |t.cols| && forall j :: 0 <= j < |t.cols| ==> |t.rows[r].cells[j]| == Width(t.cols[j])
  {
    hide Width;
    forall r | 0 <= r < |t.rows|
      ensures |t.rows[r].cells| == |t.cols| && forall j :: 0 <= j < |t.cols| ==>
        |t.rows[r].cells[j]| == Width(t.cols[j])
    {
      assert GoodRow(t.cols, px, py, pp, t.rows[r]);
    }
  }

  lemma FileSplit(t: Parts)
    requires |Join(Cards(t))| == HeaderBlocks(t) * 2880
    ensures FileOf(t) == (t.front + Join(Cards(t))) + Join(RowBytes(t.rows)) + t.tail
    ensures |t.front + Join(Cards(t))| == |t.front| + HeaderBlocks(t) * 2880
  {
  }

  /** Row i of the file holds the three values of row i of the table. */
  lemma RowRead(t: Parts, px: nat, py: nat, pp: nat, i: nat)
    requires GoodRows(t, px, py, pp) && i < |t.rows| && |Join(Cards(t))| == HeaderBlocks(t) * 2880
    ensures var l := TheLayout(t, px, py, pp); var file := FileOf(t);
      && 0 <= i * l.width && l.start + |t.rows| * l.width <= |file| && (l.piSize == 2 || l.piSize == 4)
      && l.start + i * l.width + l.x + 2 <= |file| && l.start + i * l.width + l.y + 2 <= |file|
      && l.start + i * l.width + l.pi + l.piSize <= |file|
      && (l.Inside(|file|) ==> XAt(file, l, i) == t.rows[i].x && YAt(file, l, i) == t.rows[i].y
                               && EnergyAt(file, l, i) == ReadPi(t, pp, i) as real)
  {
    hide GoodRow, Join, Width, Total, Sizes, ColumnOffset, RowBytes, Cards, HeaderBlocks, FileOf, Put, PutInt,
      Unsigned, Signed16, Pow256, Size;
    WidthsFit(t, px, py, pp, i);
    var before := t.front + Join(Cards(t));
    FileSplit(t);
    RowCells(t.cols, px, py, pp, t.rows[i]);
    CellInFile(FileOf(t), before, t.cols, t.rows, t.tail, i, px);
    CellInFile(FileOf(t), before, t.cols, t.rows, t.tail, i, py);
    CellInFile(FileOf(t), before, t.cols, t.rows, t.tail, i, pp);
  }

  /** The cells of the three columns, read. */
  lemma RowCells(cols: seq<Column>, px: nat, py: nat, pp: nat, r: Row)
    requires 1 <= px <= |cols| && 1 <= py <= |cols| && 1 <= pp <= |cols| && GoodRow(cols, px, py, pp, r)
    ensures Width(cols[px - 1]) == 2 && Width(cols[py - 1]) == 2
    ensures Width(cols[pp - 1]) == Size(cols, pp) && (Size(cols, pp) == 2 || Size(cols, pp) == 4)
    ensures |r.cells| == |cols| && Signed16(r.cells[px - 1]) == r.x && Signed16(r.cells[py - 1]) == r.y
    ensures Unsigned(r.cells[pp - 1]) == if r.pi >= 0 then r.pi else r.pi + Pow256(Size(cols, pp))
  {
    Int16Reads(r.x);
    Int16Reads(r.y);
    PiReads(r.pi, Size(cols, pp));
    hide Put, PutInt, Unsigned, Signed16, Pow256;
  }

  /** The layout passes the checks: all reads stay inside the file. */
  lemma LayoutInside(t: Parts, px: nat, py: nat, pp: nat)
    requires GoodRows(t, px, py, pp) && |Join(Cards(t))| == HeaderBlocks(t) * 2880
    requires (|t.rows| - 1) * Total(Sizes(t.cols)) < 0x8000_0000
    ensures TheLayout(t, px, py, pp).Inside(|FileOf(t)|)
    ensures |t.front| + HeaderBlocks(t) * 2880 + |t.rows| * Total(Sizes(t.cols)) <= |FileOf(t)|
  {
    FileSplit(t);
    hide Join, Width, Total, Sizes, ColumnOffset, RowBytes, Cards, HeaderBlocks, FileOf, GoodRows, XAt, YAt, EnergyAt,
      ReadPi;
    if t.rows != [] { RowRead(t, px, py, pp, |t.rows| - 1); }
  }

  /** The events of the table, with PI as it is read. */
  function TableEvents(t: Parts, pp: nat): Outcome
    requires 1 <= pp <= |t.cols|
  {
    Events(seq(|t.rows|, i requires 0 <= i < |t.rows| => t.rows[i].x),
           seq(|t.rows|, i requires 0 <= i < |t.rows| => t.rows[i].y),
           seq(|t.rows|, i requires 0 <= i < |t.rows| => ReadPi(t, pp, i) as real))
  }

  function LayoutEvents(file: string, l: Layout): Outcome
    requires l.Inside(|file|)
  {
    Events(seq(l.rows, i requires 0 <= i < l.rows => XAt(file, l, i)),
           seq(l.rows, i requires 0 <= i < l.rows => YAt(file, l, i)),
           seq(l.rows, i requires 0 <= i < l.rows => EnergyAt(file, l, i)))
  }

  /** The rows by a layout, unless it leaves the file. */
  function AtLayout(file: string, l: Layout): Outcome
  {
    if l.Inside(|file|) then LayoutEvents(file, l) else Undefined
  }

  lemma ChecksPassed(file: string, f: Fields, at: nat)
    requires !f.broken && AllKnown(f.columns) && f.naxis1 >= 0 && f.naxis2 >= 0
    requires f.posx <= |f.columns| && f.posy <= |f.columns| && 1 <= f.pospi <= |f.columns|
    requires at + 2880 + f.naxis2 * f.naxis1 <= |file|
    ensures ReadTable(file, f, at)
         == if Total(f.columns) != f.naxis1 then Failed(0) else AtLayout(file, LayoutOf(f, at + 2880))
  {
    hide Total, ColumnOffset, Layout.Inside, XAt, YAt, EnergyAt;
  }

  lemma RowsAgree(t: Parts, px: nat, py: nat, pp: nat)
    requires GoodRows(t, px, py, pp) && |Join(Cards(t))| == HeaderBlocks(t) * 2880
    requires TheLayout(t, px, py, pp).Inside(|FileOf(t)|)
    ensures LayoutEvents(FileOf(t), TheLayout(t, px, py, pp)) == TableEvents(t, pp)
  {
    var l := TheLayout(t, px, py, pp);
    var file := FileOf(t);
    assert l.rows == |t.rows|;
    hide Join, Total, Sizes, ColumnOffset, RowBytes, Cards, HeaderBlocks, FileOf, GoodRow, XAt, YAt, EnergyAt, ReadPi,
      Layout.Inside, TheLayout;
    forall i | 0 <= i < |t.rows|
      ensures XAt(file, l, i) == t.rows[i].x && YAt(file, l, i) == t.rows[i].y
        && EnergyAt(file, l, i) == ReadPi(t, pp, i) as real
    {
      RowRead(t, px, py, pp, i);
    }
  }

  lemma FoundLayout(t: Parts, px: nat, py: nat, pp: nat)
    requires 1 <= px <= |t.cols| && 1 <= py <= |t.cols| && 1 <= pp <= |t.cols|
    ensures LayoutOf(Found(t.cols, |t.rows|, px, py, pp), |t.front| + HeaderBlocks(t) * 2880)
      == ReadLayout(t, px, py, pp)
  {
    hide Total, HeaderBlocks, Width, ReadSize;
  }

  lemma InRange(t: Parts, px: nat, py: nat, pp: nat)
    requires GoodRows(t, px, py, pp)
    ensures 1 <= px <= |t.cols| && 1 <= py <= |t.cols| && 1 <= pp <= |t.cols|
  {
    hide GoodRow;
  }

  lemma FoundPasses(t: Parts, px: nat, py: nat, pp: nat)
    requires 1 <= px <= |t.cols| && 1 <= py <= |t.cols| && 1 <= pp <= |t.cols|
    ensures var f := Found(t.cols, |t.rows|, px, py, pp);
      && !f.broken && AllKnown(f.columns) && f.columns == ReadSizes(t.cols)
      && f.naxis1 == Total(Sizes(t.cols)) && f.naxis2 == |t.rows|
      && f.posx <= |f.columns| && f.posy <= |f.columns| && 1 <= f.pospi <= |f.columns|
  {
    hide Total, Width, ReadSize;
  }

  /** What is read of a table whose columns px, py and pp the reader takes for X, Y and PI. */
  function TableOutcome(t: Parts, px: nat, py: nat, pp: nat): Outcome
    requires 1 <= px <= |t.cols| && 1 <= py <= |t.cols| && 1 <= pp <= |t.cols|
  {
    if Total(ReadSizes(t.cols)) != Total(Sizes(t.cols)) then Failed(0)
    else AtLayout(FileOf(t), ReadLayout(t, px, py, pp))
  }

  lemma FoundChecked(t: Parts, px: nat, py: nat, pp: nat, at: nat)
    requires 1 <= px <= |t.cols| && 1 <= py <= |t.cols| && 1 <= pp <= |t.cols|
    requires at + 2880 == |t.front| + HeaderBlocks(t) * 2880
    requires at + 2880 + |t.rows| * Total(Sizes(t.cols)) <= |FileOf(t)|
    ensures ReadTable(FileOf(t), Found(t.cols, |t.rows|, px, py, pp), at) == TableOutcome(t, px, py, pp)
  {
    hide *;
    FoundLayout(t, px, py, pp);
    FoundPasses(t, px, py, pp);
    ChecksPassed(FileOf(t), Found(t.cols, |t.rows|, px, py, pp), at);
    OutcomeIs(t, px, py, pp);
  }

  /** After the header is scanned. */
  lemma OutcomeRead(t: Parts, px: nat, py: nat, pp: nat)
    requires GoodRows(t, px, py, pp) && |Join(Cards(t))| == HeaderBlocks(t) * 2880 && HeaderBlocks(t) > 0
    requires (|t.rows| - 1) * Total(Sizes(t.cols)) < 0x8000_0000
    ensures 1 <= px <= |t.cols| && 1 <= py <= |t.cols| && 1 <= pp <= |t.cols|
    ensures ReadTable(FileOf(t), Found(t.cols, |t.rows|, px, py, pp), |t.front| + (HeaderBlocks(t) - 1) * 2880)
         == TableOutcome(t, px, py, pp)
  {
    hide *;
    InRange(t, px, py, pp);
    LayoutInside(t, px, py, pp);
    FoundChecked(t, px, py, pp, |t.front| + (HeaderBlocks(t) - 1) * 2880);
  }

  lemma OutcomeIs(t: Parts, px: nat, py: nat, pp: nat)
    requires 1 <= px <= |t.cols| && 1 <= py <= |t.cols| && 1 <= pp <= |t.cols|
    ensures TableOutcome(t, px, py, pp) ==
      if Total(ReadSizes(t.cols)) != Total(Sizes(t.cols)) then Failed(0)
      else AtLayout(FileOf(t), ReadLayout(t, px, py, pp))
  {
  }

  lemma ReadIs(file: string, offset: nat, f: Fields, at: nat)
    requires |file| >= 2880 && FindTable(file, 0) == Some(offset)
    requires ScanFrom(file, offset, EMPTY) == Header(Scan(f, true), at)
    ensures Read(file) == ReadTable(file, f, at)
  {
    hide FindTable, ScanFrom, ReadTable;
  }

  /** What is read of a file: no events when the sizes as they are read do not add up to the row, and otherwise the
      rows by these sizes. */
  lemma TableRead(t: Parts, px: nat, py: nat, pp: nat)
    requires NoTableBefore(t.front) && GoodHeader(t) && Names(t.sts, px, py, pp) && GoodRows(t, px, py, pp)
    requires (|t.rows| - 1) * Total(Sizes(t.cols)) < 0x8000_0000
    ensures 1 <= px <= |t.cols| && 1 <= py <= |t.cols| && 1 <= pp <= |t.cols|
    ensures Read(FileOf(t)) == TableOutcome(t, px, py, pp)
  {
    hide *;
    HeaderRead(t);
    HeaderSays(t);
    TableFound(t.sts, t.cols, |t.rows|, px, py, pp);
    ExtensionFound(t);
    OutcomeRead(t, px, py, pp);
    ReadIs(FileOf(t), |t.front|, Found(t.cols, |t.rows|, px, py, pp), |t.front| + (HeaderBlocks(t) - 1) * 2880);
  }

  // ----- when the sizes are understood

  ghost predicate AllUnderstood(cols: seq<Column>) { forall i :: 0 <= i < |cols| ==> Understood(cols[i]) }

  /** No column is taken for narrower than it is, or none for wider. */
  ghost predicate OneSided(cols: seq<Column>)
  {
    || (forall i :: 0 <= i < |cols| ==> Width(cols[i]) <= ReadSize(cols[i]))
    || (forall i :: 0 <= i < |cols| ==> ReadSize(cols[i]) <= Width(cols[i]))
  }

  ghost predicate Below(a: seq<Option<nat>>, b: seq<Option<nat>>)
    requires AllKnown(a) && AllKnown(b)
  {
    |a| == |b| && forall i :: 0 <= i < |a| ==> a[i].value <= b[i].value
  }

  lemma {:induction false} TotalsCompare(a: seq<Option<nat>>, b: seq<Option<nat>>)
    requires AllKnown(a) && AllKnown(b) && Below(a, b)
    ensures Total(a) <= Total(b) && (Total(a) == Total(b) <==> a == b)
  {
    if a != [] {
      var n := |a| - 1;
      LastSize(a);
      LastSize(b);
      hide Total;
      TotalsCompare(a[..n], b[..n]);
    }
  }

  lemma LastSize(a: seq<Option<nat>>)
    requires AllKnown(a) && a != []
    ensures var n := |a| - 1; Total(a) == Total(a[..n]) + a[n].value && a == a[..n] + [Some(a[n].value)]
  {
  }

  lemma SizesUnderstood(cols: seq<Column>)
    requires forall i :: 0 <= i < |cols| ==> cols[i].code in TABLE_18
    ensures ReadSizes(cols) == Sizes(cols) <==> AllUnderstood(cols)
  {
    hide Understood, Width, ReadSize;
    forall i | 0 <= i < |cols| ensures ReadSizes(cols)[i] == Sizes(cols)[i] <==> Understood(cols[i]) {
      UnderstoodSizes(cols[i]);
    }
  }

  /** The sizes add up to the row if and only if every column is understood. */
  lemma TotalsUnderstood(cols: seq<Column>)
    requires OneSided(cols) && forall i :: 0 <= i < |cols| ==> cols[i].code in TABLE_18
    ensures Total(ReadSizes(cols)) == Total(Sizes(cols)) <==> AllUnderstood(cols)
  {
    SizesUnderstood(cols);
    hide Total, Width, ReadSize, AllUnderstood;
    if Below(ReadSizes(cols), Sizes(cols)) {
      TotalsCompare(ReadSizes(cols), Sizes(cols));
    } else {
      TotalsCompare(Sizes(cols), ReadSizes(cols));
    }
  }

  lemma UnderstoodLayout(t: Parts, px: nat, py: nat, pp: nat)
    requires 1 <= px <= |t.cols| && 1 <= py <= |t.cols| && 1 <= pp <= |t.cols|
    requires ReadSizes(t.cols) == Sizes(t.cols)
    ensures ReadLayout(t, px, py, pp) == TheLayout(t, px, py, pp)
  {
    hide Total, HeaderBlocks, ColumnOffset, Width, ReadSize;
    assert ReadSizes(t.cols)[pp - 1] == Sizes(t.cols)[pp - 1];
  }

  lemma HeaderCodes(t: Parts)
    requires GoodHeader(t)
    ensures forall i :: 0 <= i < |t.cols| ==> t.cols[i].code in TABLE_18
  {
    hide SayAll, Stated, HasForm;
  }

  /** A table whose columns are all understood. */
  lemma UnderstoodRead(t: Parts, px: nat, py: nat, pp: nat)
    requires NoTableBefore(t.front) && GoodHeader(t) && Names(t.sts, px, py, pp) && GoodRows(t, px, py, pp)
    requires (|t.rows| - 1) * Total(Sizes(t.cols)) < 0x8000_0000 && AllUnderstood(t.cols)
    ensures 1 <= pp <= |t.cols| && Read(FileOf(t)) == TableEvents(t, pp)
  {
    hide *;
    TableRead(t, px, py, pp);
    HeaderCodes(t);
    SizesUnderstood(t.cols);
    UnderstoodLayout(t, px, py, pp);
    OutcomeIs(t, px, py, pp);
    HeaderRead(t);
    LayoutInside(t, px, py, pp);
    RowsAgree(t, px, py, pp);
    InsideIs(FileOf(t), TheLayout(t, px, py, pp));
  }

  lemma InsideIs(file: string, l: Layout)
    requires l.Inside(|file|)
    ensures AtLayout(file, l) == LayoutEvents(file, l)
  {
  }

  /**
   * For every file whose first binary table extension has 16-bit X and Y columns and a 16-bit or 32-bit PI column
   * among any others of Table 18, its cards in any spelling and order and among any others. Unless the reader takes
   * one column for too narrow and another for too wide, it reads X and Y exactly, and PI as an unsigned number, that
   * is exactly when it is not negative (PiReads), if and only if it understands all formats; otherwise it fails.
   */
  lemma OneSidedRead(t: Parts, px: nat, py: nat, pp: nat)
    requires NoTableBefore(t.front) && GoodHeader(t) && Names(t.sts, px, py, pp) && GoodRows(t, px, py, pp)
    requires (|t.rows| - 1) * Total(Sizes(t.cols)) < 0x8000_0000 && OneSided(t.cols)
    ensures 1 <= pp <= |t.cols|
    ensures Read(FileOf(t)) == if AllUnderstood(t.cols) then TableEvents(t, pp) else Failed(0)
  {
    hide *;
    HeaderCodes(t);
    TotalsUnderstood(t.cols);
    TableRead(t, px, py, pp);
    OutcomeIs(t, px, py, pp);
    if AllUnderstood(t.cols) { UnderstoodRead(t, px, py, pp); }
  }

  /** Tables of the eleven types without further characters: all is read if and only if every column has an element. */
  lemma PlainTableRead(t: Parts, px: nat, py: nat, pp: nat)
    requires NoTableBefore(t.front) && GoodHeader(t) && Names(t.sts, px, py, pp) && GoodRows(t, px, py, pp)
    requires (|t.rows| - 1) * Total(Sizes(t.cols)) < 0x8000_0000
    requires forall i :: 0 <= i < |t.cols| ==> t.cols[i].code in CODES && t.cols[i].extra == []
    ensures 1 <= pp <= |t.cols|
    ensures Read(FileOf(t)) ==
      if forall i :: 0 <= i < |t.cols| ==> t.cols[i].repeat >= 1 then TableEvents(t, pp) else Failed(0)
  {
    PlainUnderstood(t.cols);
    hide *;
    OneSidedRead(t, px, py, pp);
  }

  lemma PlainUnderstood(cols: seq<Column>)
    requires forall i :: 0 <= i < |cols| ==> cols[i].code in CODES && cols[i].extra == []
    ensures OneSided(cols)
    ensures AllUnderstood(cols) <==> forall i :: 0 <= i < |cols| ==> cols[i].repeat >= 1
  {
    forall i | 0 <= i < |cols| ensures Width(cols[i]) <= ReadSize(cols[i]) {
      hide ElementSize;
    }
    hide Width, ReadSize, ElementSize;
  }

  /** A descriptor as it is written with its largest size. */
  predicate Descriptor(c: Column) { c.code in "PQ" && c.extra != [] && c.extra[|c.extra| - 1] == ')' }

  /** Tables whose other columns are understood: one descriptor with an array and a largest size is enough that nothing
      is read. */
  lemma DescriptorTableRead(t: Parts, px: nat, py: nat, pp: nat)
    requires NoTableBefore(t.front) && GoodHeader(t) && Names(t.sts, px, py, pp) && GoodRows(t, px, py, pp)
    requires (|t.rows| - 1) * Total(Sizes(t.cols)) < 0x8000_0000
    requires forall i :: 0 <= i < |t.cols| ==> Understood(t.cols[i]) || Descriptor(t.cols[i])
    ensures 1 <= pp <= |t.cols|
    ensures Read(FileOf(t)) ==
      if exists i :: 0 <= i < |t.cols| && Descriptor(t.cols[i]) && t.cols[i].repeat >= 1 then Failed(0)
        else TableEvents(t, pp)
  {
    HeaderCodes(t);
    DescriptorsUnderstood(t.cols);
    hide *;
    OneSidedRead(t, px, py, pp);
  }

  lemma DescriptorsUnderstood(cols: seq<Column>)
    requires forall i :: 0 <= i < |cols| ==> cols[i].code in TABLE_18 && (Understood(cols[i]) || Descriptor(cols[i]))
    ensures OneSided(cols)
    ensures AllUnderstood(cols) <==> !exists i :: 0 <= i < |cols| && Descriptor(cols[i]) && cols[i].repeat >= 1
  {
    forall i | 0 <= i < |cols|
      ensures ReadSize(cols[i]) <= Width(cols[i])
      ensures Descriptor(cols[i]) ==> (Understood(cols[i]) <==> cols[i].repeat == 0)
    {
      UnderstoodSizes(cols[i]);
    }
    hide Width, ReadSize, ElementSize;
  }
}
