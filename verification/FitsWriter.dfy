/** Writing the cards of a binary table: every table has a file that is read back. */
module FitsWriter {
  import opened Fits
  import opened FitsCards
  import opened FitsTable
  import opened FitsRoundTrip
  import opened FitsNames

  const EXTENSION_CARD := "XTENSION= 'BINTABLE'" + Spaces(60)

  lemma ExtensionCard()
    ensures |EXTENSION_CARD| == 80 && Starts(EXTENSION_CARD, "XTENSION= 'BINTABLE'") && Neutral(EXTENSION_CARD)
  {
    assert EXTENSION_CARD[..20] == "XTENSION= 'BINTABLE'";
    assert EXTENSION_CARD[0] == 'X';
    Differs(EXTENSION_CARD, "END       ", 0);
    Differs(EXTENSION_CARD, "NAXIS1  = ", 0);
    Differs(EXTENSION_CARD, "NAXIS2  = ", 0);
    Differs(EXTENSION_CARD, "TFIELDS = ", 0);
    Differs(EXTENSION_CARD, "TTYPE", 0);
    Differs(EXTENSION_CARD, "TFORM", 0);
  }

  function NumberCard(key: string, n: nat): string
    requires |key| == 10 && |Decimal(n)| <= 70
  {
    key + (Decimal(n) + Spaces(70 - |Decimal(n)|))
  }

  lemma NumberCardSays(key: string, n: nat)
    requires |key| == 10 && |Decimal(n)| <= 70
    ensures SaysNumber(NumberCard(key, n), key, n)
  {
    DecimalSpells(n);
    hide Decimal, Spells;
    var line, ds, rest := NumberCard(key, n), Decimal(n), Spaces(70 - |Decimal(n)|);
    assert line[10..] == NumberField([], false, ds, rest);
  }

  function WordCard(key: string, k: nat, v: string): string
    requires |key| == 5 && |Decimal(k)| <= 3 && |v| <= 60
  {
    key + (Decimal(k) + Spaces(3 - |Decimal(k)|) + "= '" + v + "'" + Spaces(68 - |v|))
  }

  /** The text of a card, padded behind its closing quote. */
  function LabelOf(v: string): Label
    requires |v| <= 60
  {
    Label(v, 0, Spaces(68 - |v|))
  }

  /** A text of one word without quotes. */
  ghost predicate PlainText(v: string) { v != [] && NoSpace(v) && Quotes(v) == 0 && |v| <= 60 }

  lemma LabelSpells(v: string)
    requires PlainText(v)
    ensures IsLabel(LabelOf(v)) && SpaceBehind(LabelOf(v)) && SpellsWord(LabelField(LabelOf(v)), v)
  {
    var l := LabelOf(v);
    hide LabelField, Readable;
    TextIsRead(l);
    assert Readable(l) by { ReadableLabel(v); }
    WordSaid(LabelField(l), v);
  }

  lemma ReadableLabel(v: string)
    requires PlainText(v)
    ensures Readable(LabelOf(v))
  {
  }

  lemma WordCardParts(key: string, k: nat, v: string)
    requires |key| == 5 && |Decimal(k)| <= 3 && |v| <= 60
    ensures var line, ds := WordCard(key, k, v), Decimal(k);
      && |line| == 80 && line[..5] == key && line[10..] == ['\''] + (v + (['\''] + Spaces(68 - |v|)))
      && line[5..] == ds + (Spaces(3 - |ds|) + "= '" + v + "'" + Spaces(68 - |v|))
  {
    hide Decimal;
  }

  lemma LabelPlain(v: string)
    requires PlainText(v)
    ensures LabelField(LabelOf(v)) == ['\''] + (v + (['\''] + Spaces(68 - |v|)))
  {
    DoubledSize(v);
    hide Doubled, NoSpace, Quotes;
    assert Spaces(0) + (['\''] + Spaces(68 - |v|)) == ['\''] + Spaces(68 - |v|);
  }

  lemma IndexSpells(k: nat, rest: string)
    requires NoDigit(rest)
    ensures SpellsNumber(Decimal(k) + rest, k)
  {
    DecimalSpells(k);
    hide Decimal, Spells;
    assert Decimal(k) + rest == NumberField([], false, Decimal(k), rest);
  }

  lemma WordCardSays(key: string, k: nat, v: string)
    requires |key| == 5 && |Decimal(k)| <= 3 && PlainText(v)
    ensures SaysWord(WordCard(key, k, v), key, k, v) && WordCard(key, k, v)[10..] == LabelField(LabelOf(v))
  {
    hide *;
    PlainSize(v);
    WordCardParts(key, k, v);
    LabelSpells(v);
    LabelPlain(v);
    WordCardIndex(key, k, v);
    Said(WordCard(key, k, v), key, k, v);
  }

  lemma PlainSize(v: string)
    requires PlainText(v)
    ensures |v| <= 60
  {
  }

  lemma WordCardIndex(key: string, k: nat, v: string)
    requires |key| == 5 && |Decimal(k)| <= 3 && |v| <= 60
    ensures SpellsNumber(WordCard(key, k, v)[5..], k)
  {
    WordCardParts(key, k, v);
    var rest := Spaces(3 - |Decimal(k)|) + "= '" + v + "'" + Spaces(68 - |v|);
    assert NoDigit(rest);
    hide Decimal, SpellsNumber, WordCard, NoDigit;
    IndexSpells(k, rest);
  }

  lemma Said(line: string, key: string, k: nat, v: string)
    requires |line| == 80 && |key| == 5 && line[..5] == key && SpellsNumber(line[5..], k) && SpellsWord(line[10..], v)
    ensures SaysWord(line, key, k, v)
  {
  }

  function Form(c: Column): string { Decimal(c.repeat) + ([c.code] + c.extra) }

  /** Three different columns, and sizes and formats that fit their cards. */
  ghost predicate Writable(cols: seq<Column>, n: nat, px: nat, py: nat, pp: nat)
  {
    && |cols| <= 999 && px <= 999 && py <= 999 && pp <= 999 && px != py && py != pp && pp != px
    && |Decimal(Total(Sizes(cols)))| <= 70 && |Decimal(n)| <= 70
    && forall i :: 0 <= i < |cols| ==> cols[i].code in TABLE_18 && PlainText(Form(cols[i]))
  }

  function FirstSaid(cols: seq<Column>, n: nat, px: nat, py: nat, pp: nat): seq<Statement>
  {
    [Other, RowWidth(Total(Sizes(cols))), Rows(n), Columns(|cols|), Name(px, "X"), Name(py, "Y"), Name(pp, "PI")]
  }

  /** What a header says of a table. */
  function Statements(cols: seq<Column>, n: nat, px: nat, py: nat, pp: nat): (sts: seq<Statement>)
    ensures |sts| == 7 + |cols| && forall i :: 0 <= i < |cols| ==> sts[7 + i] == Format(i + 1, Form(cols[i]))
    ensures sts[..7] == FirstSaid(cols, n, px, py, pp)
  {
    FirstSaid(cols, n, px, py, pp) + seq(|cols|, i requires 0 <= i < |cols| => Format(i + 1, Form(cols[i])))
  }

  lemma LastHere(sts: seq<Statement>, i: nat)
    requires i < |sts| && forall j :: i < j < |sts| ==> !Overrides(sts[j], sts[i])
    ensures Stated(sts, sts[i])
  {
  }

  lemma ThreeDigits(k: nat)
    requires k <= 999
    ensures |Decimal(k)| <= 3
  {
    assert k / 10 <= 99;
    assert k >= 100 ==> |Decimal(k / 10 / 10)| == 1;
  }

  /** The simplest card for a statement that fits. */
  ghost predicate OnCard(st: Statement)
  {
    match st
    case RowWidth(n) => |Decimal(n)| <= 70
    case Rows(n) => |Decimal(n)| <= 70
    case Columns(n) => |Decimal(n)| <= 70
    case Name(k, name) => k <= 999 && PlainText(name)
    case Format(k, form) => k <= 999 && PlainText(form)
    case Other => true
    case Garbled => false
  }

  ghost predicate AllOnCards(sts: seq<Statement>) { forall i :: 0 <= i < |sts| ==> OnCard(sts[i]) }

  lemma NameFits(st: Statement)
    requires OnCard(st)
    ensures st.Name? ==> |st.name| <= 60
  {
  }

  ghost function CardOf(st: Statement): (line: string)
    requires OnCard(st)
    ensures Says(line, st) && (st.Other? ==> line == EXTENSION_CARD)
    ensures st.Name? ==> line[10..] == LabelField(LabelOf(st.name))
  {
    hide Decimal, WordCard, NumberCard, SpellsWord, SpellsNumber, LabelField, PlainText;
    assert st.Name? ==> |st.name| <= 60 by { NameFits(st); }
    ThreeDigits(if st.Name? || st.Format? then st.k else 0);
    ExtensionCard();
    match st
    case RowWidth(n) => NumberCardSays("NAXIS1  = ", n); NumberCard("NAXIS1  = ", n)
    case Rows(n) => NumberCardSays("NAXIS2  = ", n); NumberCard("NAXIS2  = ", n)
    case Columns(n) => NumberCardSays("TFIELDS = ", n); NumberCard("TFIELDS = ", n)
    case Name(k, name) => WordCardSays("TTYPE", k, name); WordCard("TTYPE", k, name)
    case Format(k, form) => WordCardSays("TFORM", k, form); WordCard("TFORM", k, form)
    case Other => EXTENSION_CARD
  }

  lemma FormFits(c: Column)
    ensures IsForm(c, Form(c))
  {
    DecimalSpells(c.repeat);
    hide Decimal, Spells;
  }

  lemma FirstStatements(cols: seq<Column>, n: nat, px: nat, py: nat, pp: nat)
    ensures var sts := Statements(cols, n, px, py, pp);
      && sts[0] == Other && sts[1] == RowWidth(Total(Sizes(cols))) && sts[2] == Rows(n) && sts[3] == Columns(|cols|)
      && sts[4] == Name(px, "X") && sts[5] == Name(py, "Y") && sts[6] == Name(pp, "PI")
  {
  }

  lemma FirstOnCard(w: nat, n: nat, m: nat, px: nat, py: nat, pp: nat)
    requires |Decimal(w)| <= 70 && |Decimal(n)| <= 70 && m <= 999 && px <= 999 && py <= 999 && pp <= 999
    ensures OnCard(Other) && OnCard(RowWidth(w)) && OnCard(Rows(n)) && OnCard(Columns(m))
    ensures OnCard(Name(px, "X")) && OnCard(Name(py, "Y")) && OnCard(Name(pp, "PI"))
  {
    ThreeDigits(m);
    ThreeNames();
    hide Decimal, NoSpace, Quotes;
  }

  lemma StatementsFit(cols: seq<Column>, n: nat, px: nat, py: nat, pp: nat)
    requires Writable(cols, n, px, py, pp)
    ensures AllOnCards(Statements(cols, n, px, py, pp))
  {
    var sts := Statements(cols, n, px, py, pp);
    FirstStatements(cols, n, px, py, pp);
    hide Decimal, Form, PlainText, Total, Sizes, Statements;
    FirstOnCard(Total(Sizes(cols)), n, |cols|, px, py, pp);
    forall i | 0 <= i < |sts| ensures OnCard(sts[i]) {
      if i >= 7 {
        assert sts[7 + (i - 7)] == Format(i - 6, Form(cols[i - 7]));
      }
    }
  }

  lemma StatementsDescribe(cols: seq<Column>, n: nat, px: nat, py: nat, pp: nat)
    requires Writable(cols, n, px, py, pp)
    ensures Describes(Statements(cols, n, px, py, pp), cols, n) && Names(Statements(cols, n, px, py, pp), px, py, pp)
  {
    var sts := Statements(cols, n, px, py, pp);
    hide Decimal, PlainText, Total, Sizes, Statements, Form, IsForm, Stated;
    forall i | 1 <= i < |sts| ensures Stated(sts, sts[i]) {
      NotTakenBack(cols, n, px, py, pp, i);
      LastHere(sts, i);
    }
    FirstStatements(cols, n, px, py, pp);
    forall i | 0 <= i < |sts| ensures sts[i] != Garbled {
      if i >= 7 { assert sts[7 + (i - 7)] == Format(i - 6, Form(cols[i - 7])); }
    }
    forall i | 0 <= i < |cols| ensures HasForm(sts, cols, i) {
      FormFits(cols[i]);
      assert sts[7 + i] == Format(i + 1, Form(cols[i]));
    }
  }

  lemma NotTakenBack(cols: seq<Column>, n: nat, px: nat, py: nat, pp: nat, i: nat)
    requires 1 <= i < 7 + |cols|
    ensures var sts := Statements(cols, n, px, py, pp); forall j :: i < j < |sts| ==> !Overrides(sts[j], sts[i])
  {
    var sts := Statements(cols, n, px, py, pp);
    hide Decimal, Total, Sizes, Statements, Form;
    assert forall j :: 0 <= j < 7 ==> sts[j] == sts[..7][j];
    forall j | i < j < |sts| ensures !Overrides(sts[j], sts[i]) {
      if j >= 7 { assert sts[7 + (j - 7)] == Format(j - 6, Form(cols[j - 7])); }
      if i >= 7 { assert sts[7 + (i - 7)] == Format(i - 6, Form(cols[i - 7])); }
    }
  }

  lemma Filler(m: nat) returns (n: nat)
    ensures n < 36 && (m + n) % 36 == 0
  {
    n := (36 - m % 36) % 36;
    assert m == m / 36 * 36 + m % 36;
  }

  ghost predicate CardsOf(body: seq<string>, sts: seq<Statement>)
    requires AllOnCards(sts)
  {
    |body| == |sts| && forall i :: 0 <= i < |sts| ==> body[i] == CardOf(sts[i])
  }

  /** The cards of the statements, filled up to whole blocks. */
  lemma WrittenHeader(sts: seq<Statement>) returns (body: seq<string>, fill: seq<string>)
    requires sts != [] && sts[0] == Other && AllOnCards(sts)
    ensures body != [] && CardsOf(body, sts) && SayAll(body, sts) && Starts(body[0], "XTENSION= 'BINTABLE'")
    ensures FillsUp(|body|, fill)
  {
    ExtensionCard();
    hide Says, OnCard, EXTENSION_CARD, CardOf, Starts, Neutral;
    body := seq(|sts|, i requires 0 <= i < |sts| => CardOf(sts[i]));
    assert body[0] == CardOf(sts[0]);
    var n := Filler(|body| + 1);
    fill := seq(n, _ => Spaces(80));
  }

  ghost predicate FillsUp(m: nat, fill: seq<string>)
  {
    |fill| < 36 && (m + 1 + |fill|) % 36 == 0 && forall i :: 0 <= i < |fill| ==> |fill[i]| == 80
  }

  lemma GoodParts(t: Parts)
    requires t.front == "" && t.body != [] && Starts(t.body[0], "XTENSION= 'BINTABLE'") && SayAll(t.body, t.sts)
    requires FillsUp(|t.body|, t.fill)
    requires Describes(t.sts, t.cols, |t.rows|)
    ensures GoodHeader(t) && NoTableBefore(t.front)
  {
    hide Describes, SayAll, Starts, END_CARD;
  }

  /** The values of the name cards. */
  ghost function Labels(sts: seq<Statement>): (labels: seq<Label>)
    requires AllOnCards(sts)
    ensures |labels| == |sts|
  {
    seq(|sts|, i requires 0 <= i < |sts| =>
      if sts[i].Name? then (NameFits(sts[i]); LabelOf(sts[i].name)) else Label([], 0, []))
  }

  lemma CardLabel(st: Statement)
    requires OnCard(st) && st.Name?
    ensures |st.name| <= 60 && |CardOf(st)| == 80
    ensures IsLabel(LabelOf(st.name)) && SpaceBehind(LabelOf(st.name)) && NoSpace(st.name)
    ensures CardOf(st)[10..] == LabelField(LabelOf(st.name))
  {
    LabelSpells(st.name);
    hide LabelField, SpellsWord, SpellsNumber, CardOf, IsLabel, SpaceBehind, NoSpace;
  }

  ghost predicate LabelsName(labels: seq<Label>, sts: seq<Statement>)
    requires |labels| == |sts|
  {
    forall i :: 0 <= i < |sts| && sts[i].Name? ==>
      labels[i].text == sts[i].name && NoSpace(labels[i].text) && SpaceBehind(labels[i])
  }

  lemma LabelsOfCards(t: Parts)
    requires AllOnCards(t.sts) && CardsOf(t.body, t.sts)
    ensures Labelled(t, Labels(t.sts)) && LabelsName(Labels(t.sts), t.sts)
  {
    hide OnCard, CardOf, IsLabel, LabelField, SpaceBehind, NoSpace;
    forall i | 0 <= i < |t.sts| && t.sts[i].Name?
      ensures IsLabel(Labels(t.sts)[i]) && |t.body[i]| == 80 && t.body[i][10..] == LabelField(Labels(t.sts)[i])
      ensures var l := Labels(t.sts)[i]; l.text == t.sts[i].name && NoSpace(l.text) && SpaceBehind(l)
    {
      CardLabel(t.sts[i]);
    }
  }

  /** The only names are those of the three columns. */
  lemma NamesSaid(cols: seq<Column>, n: nat, px: nat, py: nat, pp: nat, i: nat)
    requires i < 7 + |cols|
    ensures Statements(cols, n, px, py, pp)[i].Name? <==> 4 <= i <= 6
  {
    hide Total, Sizes, Form, Statements;
    FirstStatements(cols, n, px, py, pp);
    if i >= 7 { assert Statements(cols, n, px, py, pp)[7 + (i - 7)] == Format(i - 6, Form(cols[i - 7])); }
  }

  lemma ColumnsCalled(t: Parts, labels: seq<Label>, px: nat, py: nat, pp: nat)
    requires |labels| == |t.sts| && px != py && py != pp && pp != px
    requires t.sts == Statements(t.cols, |t.rows|, px, py, pp)
    requires LabelsName(labels, t.sts)
    ensures AllCalled(t, labels, px, py, pp) && PlainNames(t, labels)
  {
    FirstStatements(t.cols, |t.rows|, px, py, pp);
    hide Total, Sizes, Form, Statements, NoSpace, SpaceBehind;
    forall i: nat | i < |t.sts| ensures t.sts[i].Name? <==> 4 <= i <= 6 {
      NamesSaid(t.cols, |t.rows|, px, py, pp, i);
    }
    assert NamesColumn(t, 4, px) && NamesColumn(t, 5, py) && NamesColumn(t, 6, pp);
  }

  /** Every table whose sizes and formats fit their cards has a file, in which the columns called X, Y and PI are
      found. */
  lemma EveryTableHasAFile(cols: seq<Column>, rows: seq<Row>, px: nat, py: nat, pp: nat)
      returns (t: Parts, labels: seq<Label>)
    requires Writable(cols, |rows|, px, py, pp)
    ensures t.cols == cols && t.rows == rows && GoodHeader(t) && NoTableBefore(t.front)
    ensures Labelled(t, labels) && AllCalled(t, labels, px, py, pp) && PlainNames(t, labels)
  {
    Different(cols, |rows|, px, py, pp);
    hide *;
    var sts := Statements(cols, |rows|, px, py, pp);
    StatementsFit(cols, |rows|, px, py, pp);
    StatementsDescribe(cols, |rows|, px, py, pp);
    FirstStatements(cols, |rows|, px, py, pp);
    var body, fill := WrittenHeader(sts);
    t := Parts("", body, sts, fill, cols, rows, "");
    GoodParts(t);
    labels := Labels(sts);
    LabelsOfCards(t);
    ColumnsCalled(t, labels, px, py, pp);
  }

  lemma Different(cols: seq<Column>, n: nat, px: nat, py: nat, pp: nat)
    requires Writable(cols, n, px, py, pp)
    ensures px != py && py != pp && pp != px
  {
  }
}
