/** Binary tables written by the FITS Standard are read back by sxs.c. */
module FitsTable {
  import opened Fits
  import opened FitsCards
  import opened Options

  function Join(parts: seq<string>): string
  {
    if parts == [] then "" else Join(parts[..|parts| - 1]) + parts[|parts| - 1]
  }

  /** Part k stands where the parts before it end. */
  lemma {:induction false} JoinSlice(parts: seq<string>, k: nat)
    requires k < |parts|
    ensures |Join(parts[..k])| + |parts[k]| <= |Join(parts)|
    ensures Join(parts)[|Join(parts[..k])|..|Join(parts[..k])| + |parts[k]|] == parts[k]
  {
    var n := |parts| - 1;
    if k < n {
      JoinSlice(parts[..n], k);
      assert parts[..n][..k] == parts[..k];
    }
  }

  lemma {:induction false} JoinUniform(parts: seq<string>, w: nat)
    requires forall i :: 0 <= i < |parts| ==> |parts[i]| == w
    ensures |Join(parts)| == |parts| * w
  {
    if parts != [] {
      JoinUniform(parts[..|parts| - 1], w);
      assert |parts| * w == (|parts| - 1) * w + w;
    }
  }

  lemma UniformSlice(parts: seq<string>, w: nat, k: nat)
    requires k < |parts| && forall i :: 0 <= i < |parts| ==> |parts[i]| == w
    ensures 0 <= k * w && k * w + w <= |Join(parts)| && Join(parts)[k * w..k * w + w] == parts[k]
  {
    JoinSlice(parts, k);
    JoinUniform(parts[..k], w);
  }

  // ----- statements

  /** What the scan holds after a list of statements. */
  function TakeAll(f: Fields, sts: seq<Statement>): Fields
    decreases |sts|
  {
    if sts == [] then f else Take(TakeAll(f, sts[..|sts| - 1]), sts[|sts| - 1])
  }

  /** The statements of the cards, one each. */
  ghost predicate SayAll(cards: seq<string>, sts: seq<Statement>)
  {
    |cards| == |sts| && forall i :: 0 <= i < |cards| ==> Says(cards[i], sts[i])
  }

  lemma ScanOne(f: Fields, card: string, rest: seq<string>)
    ensures ScanList(f, [card] + rest) == if IsEnd(card) then Scan(f, true) else ScanList(ScanCard(f, card), rest)
  {
    hide ScanCard, IsEnd;
    assert ([card] + rest)[1..] == rest;
  }

  /** However the cards are spelled, scanning them is taking in what they say. */
  lemma {:induction false} CardsTaken(f: Fields, cards: seq<string>, sts: seq<Statement>, rest: seq<string>)
    requires SayAll(cards, sts)
    ensures ScanList(f, cards + rest) == ScanList(TakeAll(f, sts), rest)
    decreases |cards|
  {
    hide ScanList, ScanCard, IsEnd, Says, Take;
    if cards == [] {
      assert cards + rest == rest;
    } else {
      var n := |cards| - 1;
      assert cards + rest == cards[..n] + ([cards[n]] + rest);
      CardsTaken(f, cards[..n], sts[..n], [cards[n]] + rest);
      var g := TakeAll(f, sts[..n]);
      ScanOne(g, cards[n], rest);
      CardScanned(g, cards[n], sts[n]);
    }
  }

  /** `late` takes back what `early` has said. */
  predicate Overrides(late: Statement, early: Statement)
  {
    match early
    case RowWidth(_) => late.RowWidth?
    case Rows(_) => late.Rows?
    case Columns(_) => late.Columns?
    case Name(_, name) => late.Name? && late.name == name
    case Format(k, _) => late.Columns? || (late.Format? && late.k == k)
    case Other => false
    case Garbled => false
  }

  ghost predicate Last(sts: seq<Statement>, i: nat)
    requires i < |sts|
  {
    forall j :: i < j < |sts| ==> !Overrides(sts[j], sts[i])
  }

  /** Said, and not taken back. */
  ghost predicate Stated(sts: seq<Statement>, st: Statement)
  {
    exists i: nat :: i < |sts| && sts[i] == st && Last(sts, i)
  }

  /** The scan holds what was said. */
  ghost predicate Holds(f: Fields, st: Statement)
  {
    match st
    case RowWidth(n) => f.naxis1 == n
    case Rows(n) => f.naxis2 == n
    case Columns(n) => f.tfields == n == |f.columns|
    case Name(k, name) =>
      && (name == "X" ==> f.posx == k)
      && (name == "Y" ==> f.posy == k)
      && (name == "PI" ==> f.pospi == k)
    case Format(k, form) => 0 < k <= f.tfields && k <= |f.columns| ==> f.columns[k - 1] == Some(TypeSize(form))
    case Other => true
    case Garbled => f.broken
  }

  lemma Taken(f: Fields, st: Statement)
    ensures Holds(Take(f, st), st)
  {
    hide TypeSize;
  }

  lemma Kept(f: Fields, late: Statement, st: Statement)
    requires Holds(f, st) && !Overrides(late, st)
    ensures Holds(Take(f, late), st)
  {
    hide TypeSize;
  }

  lemma {:induction false} HoldsFrom(f: Fields, sts: seq<Statement>, i: nat)
    requires i < |sts| && Last(sts, i)
    ensures Holds(TakeAll(f, sts), sts[i])
    decreases |sts|
  {
    hide Holds, Take, Overrides;
    var n := |sts| - 1;
    var g := TakeAll(f, sts[..n]);
    if i == n {
      Taken(g, sts[n]);
    } else {
      HoldsFrom(f, sts[..n], i);
      Kept(g, sts[n], sts[i]);
    }
  }

  /** What is said and not taken back is what the scan holds at the end. */
  lemma StatedHolds(f: Fields, sts: seq<Statement>, st: Statement)
    requires Stated(sts, st)
    ensures Holds(TakeAll(f, sts), st)
  {
    hide Holds, TakeAll, Overrides;
    var i: nat :| i < |sts| && sts[i] == st && Last(sts, i);
    HoldsFrom(f, sts, i);
  }

  lemma {:induction false} NothingBroken(f: Fields, sts: seq<Statement>)
    requires Garbled !in sts
    ensures TakeAll(f, sts).broken == f.broken
    decreases |sts|
  {
    hide TypeSize;
    if sts != [] { NothingBroken(f, sts[..|sts| - 1]); }
  }

  /** The position held for one of the three names. */
  function Position(f: Fields, name: string): int
  {
    if name == "X" then f.posx else if name == "Y" then f.posy else f.pospi
  }

  lemma {:induction false} HeldIsStated(sts: seq<Statement>, name: string, k: nat)
    requires name in ["X", "Y", "PI"] && k > 0 && Position(TakeAll(EMPTY, sts), name) == k
    ensures Stated(sts, Name(k, name))
    decreases |sts|
  {
    hide TypeSize;
    assert sts != [];
    var n := |sts| - 1;
    if sts[n] == Name(k, name) {
      assert Last(sts, n);
    } else {
      HeldIsStated(sts[..n], name, k);
      var i: nat :| i < n && sts[i] == Name(k, name) && Last(sts[..n], i);
      assert Last(sts, i);
    }
  }

  /** The reader takes column k for the one of that name if and only if the last card that gives the name is of
      column k. */
  lemma PositionStated(sts: seq<Statement>, name: string, k: nat)
    requires name in ["X", "Y", "PI"] && k > 0
    ensures Position(TakeAll(EMPTY, sts), name) == k <==> Stated(sts, Name(k, name))
  {
    hide TakeAll, Stated;
    if Position(TakeAll(EMPTY, sts), name) == k { HeldIsStated(sts, name, k); }
    if Stated(sts, Name(k, name)) { StatedHolds(EMPTY, sts, Name(k, name)); }
  }

  // ----- the header

  /** The widths of all columns. */
  function Sizes(cols: seq<Column>): (s: seq<Option<nat>>)
    ensures |s| == |cols| && AllKnown(s)
  {
    seq(|cols|, i requires 0 <= i < |cols| => Some(Width(cols[i])))
  }

  /** The sizes the reader takes them for. */
  function ReadSizes(cols: seq<Column>): (s: seq<Option<nat>>)
    ensures |s| == |cols| && AllKnown(s)
  {
    seq(|cols|, i requires 0 <= i < |cols| => Some(ReadSize(cols[i])))
  }

  ghost predicate HasForm(sts: seq<Statement>, cols: seq<Column>, i: nat)
    requires i < |cols|
  {
    exists form: string :: IsForm(cols[i], form) && Stated(sts, Format(i + 1, form))
  }

  /** Columns px, py and pp are those the reader takes for X, Y and PI. */
  ghost predicate Names(sts: seq<Statement>, px: nat, py: nat, pp: nat)
  {
    Stated(sts, Name(px, "X")) && Stated(sts, Name(py, "Y")) && Stated(sts, Name(pp, "PI"))
  }

  /** The sizes of the table and a format for every column, behind the number of columns; nothing is said about the
      order of the cards besides. */
  ghost predicate Describes(sts: seq<Statement>, cols: seq<Column>, n: nat)
  {
    && Garbled !in sts
    && Stated(sts, RowWidth(Total(Sizes(cols)))) && Stated(sts, Rows(n)) && Stated(sts, Columns(|cols|))
    && forall i :: 0 <= i < |cols| ==> cols[i].code in TABLE_18 && HasForm(sts, cols, i)
  }

  function Found(cols: seq<Column>, n: nat, px: nat, py: nat, pp: nat): Fields
  {
    Fields(Total(Sizes(cols)), n, |cols|, px, py, pp, ReadSizes(cols), false)
  }

  lemma SizeHeld(sts: seq<Statement>, cols: seq<Column>, n: nat, i: nat)
    requires Describes(sts, cols, n) && i < |cols|
    ensures var f := TakeAll(EMPTY, sts); f.tfields == |f.columns| == |cols| && f.columns[i] == Some(ReadSize(cols[i]))
  {
    assert HasForm(sts, cols, i) && cols[i].code in TABLE_18;
    var form: string :| IsForm(cols[i], form) && Stated(sts, Format(i + 1, form));
    hide TakeAll, EMPTY, Stated, TypeSize, ReadSize, IsForm, HasForm, Total;
    StatedHolds(EMPTY, sts, Columns(|cols|));
    StatedHolds(EMPTY, sts, Format(i + 1, form));
    TypeSizeReads(cols[i], form);
  }

  /** The statements that describe a table leave its description, with the sizes as they are read, whatever names
      they give. */
  lemma SizesFound(sts: seq<Statement>, cols: seq<Column>, n: nat)
    requires Describes(sts, cols, n)
    ensures var f := TakeAll(EMPTY, sts);
      f == Fields(Total(Sizes(cols)), n, |cols|, f.posx, f.posy, f.pospi, ReadSizes(cols), false)
  {
    NothingBroken(EMPTY, sts);
    hide TakeAll, Stated, ReadSize, HasForm, Total;
    StatedHolds(EMPTY, sts, RowWidth(Total(Sizes(cols))));
    StatedHolds(EMPTY, sts, Rows(n));
    StatedHolds(EMPTY, sts, Columns(|cols|));
    forall i | 0 <= i < |cols| ensures TakeAll(EMPTY, sts).columns[i] == ReadSizes(cols)[i] {
      SizeHeld(sts, cols, n, i);
    }
  }

  lemma TableFound(sts: seq<Statement>, cols: seq<Column>, n: nat, px: nat, py: nat, pp: nat)
    requires Describes(sts, cols, n) && Names(sts, px, py, pp)
    ensures TakeAll(EMPTY, sts) == Found(cols, n, px, py, pp)
  {
    SizesFound(sts, cols, n);
    hide TakeAll, Stated, Describes;
    StatedHolds(EMPTY, sts, Name(px, "X"));
    StatedHolds(EMPTY, sts, Name(py, "Y"));
    StatedHolds(EMPTY, sts, Name(pp, "PI"));
  }

  const END_CARD := "END" + Spaces(77)

  lemma EndIsEnd()
    ensures |END_CARD| == 80 && IsEnd(END_CARD)
  {
    assert END_CARD[..10] == "END       ";
  }

  /** A header, in any spelling, scans to what its cards say. */
  lemma HeaderTaken(body: seq<string>, sts: seq<Statement>, rest: seq<string>)
    requires SayAll(body, sts)
    ensures ScanList(EMPTY, body + [END_CARD] + rest) == Scan(TakeAll(EMPTY, sts), true)
  {
    hide *;
    CardsTaken(EMPTY, body, sts, [END_CARD] + rest);
    assert body + [END_CARD] + rest == body + ([END_CARD] + rest);
    EndIsEnd();
    ScanOne(TakeAll(EMPTY, sts), END_CARD, rest);
  }

  /** The cards of a table, in any spelling and order and among any others, scan to its description. */
  lemma HeaderScanned(cols: seq<Column>, n: nat, px: nat, py: nat, pp: nat,
      body: seq<string>, sts: seq<Statement>, rest: seq<string>)
    requires SayAll(body, sts) && Describes(sts, cols, n) && Names(sts, px, py, pp)
    ensures ScanList(EMPTY, body + [END_CARD] + rest) == Scan(Found(cols, n, px, py, pp), true)
  {
    hide *;
    HeaderTaken(body, sts, rest);
    TableFound(sts, cols, n, px, py, pp);
  }

  // ----- the file

  ghost predicate NoEnd(cards: seq<string>) { forall i :: 0 <= i < |cards| ==> !IsEnd(cards[i]) }

  lemma NoEndSaid(cards: seq<string>, sts: seq<Statement>)
    requires SayAll(cards, sts)
    ensures NoEnd(cards) && forall i :: 0 <= i < |cards| ==> |cards[i]| == 80
  {
    hide IsEnd, ScanCard, Take, Says;
    forall i | 0 <= i < |cards| ensures !IsEnd(cards[i]) && |cards[i]| == 80 {
      CardScanned(EMPTY, cards[i], sts[i]);
    }
  }

  lemma {:induction false} EndsHere(f: Fields, cards: seq<string>, e: nat)
    requires e < |cards| && NoEnd(cards[..e]) && IsEnd(cards[e])
    ensures ScanList(f, cards).ended
    decreases e
  {
    hide ScanCard, IsEnd;
    assert cards == [cards[0]] + cards[1..];
    ScanOne(f, cards[0], cards[1..]);
    if e > 0 {
      assert cards[..e][0] == cards[0];
      NoEndAfter(cards[..e], 1);
      assert cards[1..][..e - 1] == cards[..e][1..];
      EndsHere(ScanCard(f, cards[0]), cards[1..], e - 1);
    }
  }

  lemma NoEndAfter(cards: seq<string>, k: nat)
    requires NoEnd(cards) && k <= |cards|
    ensures NoEnd(cards[k..]) && NoEnd(cards[..k])
  {
    hide IsEnd;
  }

  lemma {:induction false} NotEnded(f: Fields, cards: seq<string>)
    requires NoEnd(cards)
    ensures !ScanList(f, cards).ended
    decreases |cards|
  {
    hide ScanCard, IsEnd;
    if cards != [] {
      assert cards == [cards[0]] + cards[1..];
      ScanOne(f, cards[0], cards[1..]);
      NoEndAfter(cards, 1);
      NotEnded(ScanCard(f, cards[0]), cards[1..]);
    }
  }

  lemma CardsTail(file: string, offset: nat, b: nat)
    requires offset + b * 36 * 80 <= |file| && b > 0
    ensures CardsAt(file, offset, 36) == CardsAt(file, offset, b * 36)[..36]
    ensures CardsAt(file, offset + 2880, (b - 1) * 36) == CardsAt(file, offset, b * 36)[36..]
  {
  }

  /** A header of b blocks with END in the last: the scan reads them all and stops there. */
  lemma {:induction false} ScanFindsEnd(file: string, offset: nat, f: Fields, b: nat, e: nat)
    requires b > 0 && offset + b * 36 * 80 <= |file| && (b - 1) * 36 <= e < b * 36
    requires NoEnd(CardsAt(file, offset, b * 36)[..e]) && IsEnd(CardsAt(file, offset, b * 36)[e])
    ensures ScanFrom(file, offset, f) == Header(ScanList(f, CardsAt(file, offset, b * 36)), offset + (b - 1) * 2880)
    decreases b
  {
    hide ScanList, ScanCard, IsEnd, NoEnd;
    var cards := CardsAt(file, offset, b * 36);
    if b == 1 {
      EndsHere(f, cards, e);
    } else {
      CardsTail(file, offset, b);
      hide CardsAt;
      NoEndAfter(cards[..e], 36);
      assert cards[..e][..36] == cards[..36] && cards[..e][36..] == cards[36..][..e - 36];
      NotEnded(f, cards[..36]);
      var g := ScanList(f, cards[..36]).fields;
      ScanFindsEnd(file, offset + 2880, g, b - 1, e - 36);
      ScanSplit(f, cards[..36], cards[36..]);
      assert cards == cards[..36] + cards[36..];
    }
  }
}
