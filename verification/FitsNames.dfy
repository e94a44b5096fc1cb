/** String values as the FITS Standard writes them, and when sxs.c finds the columns called X, Y and PI. */
module FitsNames {
  import opened Fits
  import opened FitsCards
  import opened FitsTable
  import opened FitsRoundTrip
  import opened Options

  // ----- string values (section 4.2.1 of the FITS Standard 4.0)

  /** A quote inside a string is written twice. */
  function Doubled(s: string): string
  {
    if s == [] then [] else Twice(s[0]) + Doubled(s[1..])
  }

  function Twice(c: char): string { if c == '\'' then "''" else [c] }

  function Quotes(s: string): nat
  {
    if s == [] then 0 else (if s[0] == '\'' then 1 else 0) + Quotes(s[1..])
  }

  /** A text without trailing blanks, the blanks behind it in its quotes, and the card behind the closing quote. */
  datatype Label = Label(text: string, pad: nat, rest: string)

  ghost predicate IsLabel(l: Label)
  {
    (l.text == [] || !IsSpace(l.text[|l.text| - 1])) && (l.rest == [] || l.rest[0] != '\'')
  }

  function LabelField(l: Label): string
  {
    ['\''] + (Doubled(l.text) + (Spaces(l.pad) + (['\''] + l.rest)))
  }

  lemma DoubledFirst(c: char, s: string)
    ensures Doubled([c] + s) == Twice(c) + Doubled(s)
  {
    assert ([c] + s)[1..] == s;
  }

  lemma Associate(a: string, b: string, c: string)
    ensures (a + b) + c == a + (b + c)
  {
  }

  lemma {:induction false} DoubledAdd(a: string, b: string)
    ensures Doubled(a + b) == Doubled(a) + Doubled(b)
  {
    if a == [] {
      assert a + b == b;
    } else {
      hide Doubled, Twice;
      DoubledAdd(a[1..], b);
      assert a == [a[0]] + a[1..] && a + b == [a[0]] + (a[1..] + b);
      DoubledFirst(a[0], a[1..] + b);
      DoubledFirst(a[0], a[1..]);
      Associate(Twice(a[0]), Doubled(a[1..]), Doubled(b));
    }
  }

  lemma {:induction false} DoubledSize(s: string)
    ensures |Doubled(s)| == |s| + Quotes(s) && (Quotes(s) == 0 ==> Doubled(s) == s)
    ensures Quotes(Doubled(s)) == 2 * Quotes(s)
  {
    if s != [] {
      DoubledSize(s[1..]);
      var d := Twice(s[0]);
      QuotesAdd(d, Doubled(s[1..]));
      assert "''"[1..] == "'" && "'"[1..] == [] && [s[0]][1..] == [];
      assert s == [s[0]] + s[1..];
    }
  }

  lemma {:induction false} QuotesAdd(a: string, b: string)
    ensures Quotes(a + b) == Quotes(a) + Quotes(b)
  {
    if a == [] {
      assert a + b == b;
    } else {
      QuotesAdd(a[1..], b);
      assert (a + b)[1..] == a[1..] + b;
    }
  }

  lemma {:induction false} DoubledNoSpace(s: string)
    requires NoSpace(s)
    ensures NoSpace(Doubled(s))
  {
    if s != [] { DoubledNoSpace(s[1..]); }
  }

  lemma {:induction false} DoubledSpaces(s: string)
    requires AllSpaces(s)
    ensures Doubled(s) == s
  {
    if s != [] {
      DoubledSpaces(s[1..]);
      assert s == [s[0]] + s[1..];
    }
  }

  /** The text as leading blanks, its first word, and what follows the word. */
  ghost predicate Split(l: Label, lead: string, word: string, tail: string)
  {
    && l.text == lead + (word + tail) && AllSpaces(lead) && NoSpace(word)
    && (tail == [] || IsSpace(tail[0])) && (word == [] ==> l.text == [])
  }

  lemma SplitLabel(l: Label) returns (lead: string, word: string, tail: string)
    requires IsLabel(l)
    ensures Split(l, lead, word, tail)
  {
    var t := SkipSpaces(l.text);
    lead := Skipped(l.text);
    Counted(t);
    hide SkipSpaces, WordLength;
    word, tail := t[..WordLength(t)], t[WordLength(t)..];
    assert t == word + tail;
  }

  /** What stands right behind the closing quote, up to a space. */
  function Glue(rest: string): string { rest[..WordLength(rest)] }

  /** A blank follows the first word, or there is no word. */
  predicate BlankBehind(l: Label, word: string, tail: string) { word != [] && (tail != [] || l.pad > 0) }

  /** What is read of a string value. */
  function ReadText(l: Label, word: string, tail: string): Option<string>
  {
    if BlankBehind(l, word, tail) then Some(Unquoted(Doubled(word)))
    else if Glue(l.rest) == l.rest then None
    else Some(Unquoted(Doubled(word) + (['\''] + Glue(l.rest))))
  }

  lemma FieldSplit(l: Label, lead: string, word: string, tail: string)
    requires Split(l, lead, word, tail)
    ensures LabelField(l) == ['\''] + (lead + (Doubled(word) + (Doubled(tail) + (Spaces(l.pad) + (['\''] + l.rest)))))
  {
    DoubledSpaces(lead);
    DoubledAdd(lead, word + tail);
    DoubledAdd(word, tail);
    hide Doubled, Spaces, Split;
    var end := Spaces(l.pad) + (['\''] + l.rest);
    Associate(lead, Doubled(word) + Doubled(tail), end);
    Associate(Doubled(word), Doubled(tail), end);
  }

  lemma BlankReads(l: Label, lead: string, word: string, tail: string)
    requires Split(l, lead, word, tail) && BlankBehind(l, word, tail)
    ensures StringValue(LabelField(l)) == Some(Unquoted(Doubled(word)))
  {
    FieldSplit(l, lead, word, tail);
    var more := Doubled(tail) + (Spaces(l.pad) + (['\''] + l.rest));
    DoubledNoSpace(word);
    DoubledSize(word);
    assert IsSpace(more[0]);
    hide StringValue, Doubled, Unquoted, Spaces, LabelField;
    StringReads(lead, Doubled(word), more);
  }

  lemma ClosedField(l: Label, lead: string, word: string)
    requires Split(l, lead, word, []) && (word == [] || l.pad == 0)
    ensures var glue := Glue(l.rest);
      LabelField(l) == WordField(lead + Spaces(l.pad), Doubled(word) + (['\''] + glue), l.rest[|glue|..])
  {
    FieldSplit(l, lead, word, []);
    var d, glue := Doubled(word), Glue(l.rest);
    hide Glue, LabelField, Split;
    assert l.rest == glue + l.rest[|glue|..];
    NothingDoubled();
    hide Doubled;
    if word == [] { WithoutWord(lead, Spaces(l.pad), glue, l.rest[|glue|..]); }
    else { WithWord(lead, d, glue, l.rest[|glue|..], Spaces(l.pad)); }
  }

  lemma NothingDoubled()
    ensures Doubled([]) == []
  {
  }

  lemma WithoutWord(lead: string, pad: string, glue: string, more: string)
    ensures lead + ([] + ([] + (pad + (['\''] + (glue + more))))) == (lead + pad) + (([] + (['\''] + glue)) + more)
  {
  }

  lemma WithWord(lead: string, d: string, glue: string, more: string, pad: string)
    requires pad == []
    ensures lead + (d + ([] + (pad + (['\''] + (glue + more))))) == (lead + pad) + ((d + (['\''] + glue)) + more)
  {
  }

  lemma GlueIs(rest: string)
    ensures NoSpace(Glue(rest)) && Glue(rest) <= rest
    ensures rest[|Glue(rest)|..] == [] || IsSpace(rest[|Glue(rest)|..][0])
    ensures rest[|Glue(rest)|..] == [] <==> Glue(rest) == rest
  {
    Counted(rest);
    hide WordLength;
  }

  lemma ClosedReads(l: Label, lead: string, word: string, tail: string)
    requires IsLabel(l) && Split(l, lead, word, tail) && !BlankBehind(l, word, tail)
    ensures StringValue(LabelField(l)) ==
      if Glue(l.rest) == l.rest then None else Some(Unquoted(Doubled(word) + (['\''] + Glue(l.rest))))
  {
    GlueIs(l.rest);
    DoubledNoSpace(word);
    var glue := Glue(l.rest);
    assert tail == [] && AllSpaces(lead) && NoSpace(word);
    assert AllSpaces(lead + Spaces(l.pad)) && NoSpace(Doubled(word) + (['\''] + glue)) by {
      hide Glue, Doubled, Split;
    }
    ClosedField(l, lead, word);
    hide StringValue, Unquoted, LabelField, Glue, WordField, Doubled, AllSpaces, NoSpace, Split, IsLabel, Spaces;
    StringReads(lead + Spaces(l.pad), Doubled(word) + (['\''] + glue), l.rest[|glue|..]);
  }

  /** Exactly what the reader takes a string value of the standard for. */
  lemma LabelReads(l: Label, lead: string, word: string, tail: string)
    requires IsLabel(l) && Split(l, lead, word, tail)
    ensures StringValue(LabelField(l)) == ReadText(l, word, tail)
  {
    hide StringValue, LabelField, Split, Unquoted, Doubled, Glue;
    if BlankBehind(l, word, tail) { BlankReads(l, lead, word, tail); } else { ClosedReads(l, lead, word, tail); }
  }

  // ----- when the text is read

  ghost predicate SpaceFirst(rest: string) { rest != [] && IsSpace(rest[0]) }

  /** One word without quotes inside, with a blank or the closing quote and a space behind it. A quote at the end of
      the text, before padding, loses its double. */
  ghost predicate Readable(l: Label)
  {
    && NoSpace(l.text)
    && if l.text != [] && l.pad > 0 then Quotes(l.text) == 0 || (Quotes(l.text) == 1 && l.text[|l.text| - 1] == '\'')
       else Quotes(l.text) == 0 && SpaceFirst(l.rest)
  }

  lemma {:induction false} DoubledLast(s: string)
    requires s != []
    ensures Doubled(s) != [] && Doubled(s)[|Doubled(s)| - 1] == s[|s| - 1]
  {
    if |s| == 1 {
      assert s[1..] == [];
    } else {
      DoubledLast(s[1..]);
    }
  }

  lemma {:induction false} OneQuoteAtEnd(s: string)
    requires Quotes(s) == 1 && s[|s| - 1] == '\''
    ensures Doubled(s) == s + ['\'']
  {
    var n := |s| - 1;
    assert s == s[..n] + ['\''];
    QuotesAdd(s[..n], ['\'']);
    assert "\'"[1..] == [];
    DoubledAdd(s[..n], ['\'']);
    DoubledSize(s[..n]);
  }

  lemma UnquotedIsText(s: string)
    requires s != []
    ensures Unquoted(Doubled(s)) == s <==> Quotes(s) == 0 || (Quotes(s) == 1 && s[|s| - 1] == '\'')
  {
    hide *;
    UnquotedSize(s);
    DoubledSize(s);
    if Quotes(s) == 1 && s[|s| - 1] == '\'' { QuoteAtEnd(s); }
    if Quotes(s) == 0 && s[|s| - 1] == '\'' { NoQuoteInside(s, |s| - 1); }
  }

  lemma UnquotedSize(s: string)
    requires s != []
    ensures var d := Doubled(s);
      && |Unquoted(d)| == |s| + Quotes(s) - (if s[|s| - 1] == '\'' then 1 else 0)
      && (s[|s| - 1] != '\'' ==> Unquoted(d) == d)
  {
    hide Doubled, Quotes;
    DoubledSize(s);
    DoubledLast(s);
  }

  lemma QuoteAtEnd(s: string)
    requires Quotes(s) == 1 && s[|s| - 1] == '\''
    ensures Unquoted(Doubled(s)) == s
  {
    hide Doubled;
    OneQuoteAtEnd(s);
    assert (s + ['\''])[..|s|] == s;
  }

  lemma {:induction false} NoQuoteInside(s: string, i: nat)
    requires Quotes(s) == 0 && i < |s|
    ensures s[i] != '\''
  {
    if i > 0 { NoQuoteInside(s[1..], i - 1); }
  }

  lemma ClosedIsText(s: string, glue: string)
    ensures Unquoted(Doubled(s) + (['\''] + glue)) == s <==> Quotes(s) == 0 && glue == []
  {
    DoubledSize(s);
    hide Doubled;
    var d := Doubled(s) + (['\''] + glue);
    if glue == [] { assert Unquoted(d) == Doubled(s); }
  }

  lemma WordsHaveNoSpace(word: string, glue: string)
    requires NoSpace(word) && NoSpace(glue)
    ensures NoSpace(Unquoted(Doubled(word))) && NoSpace(Unquoted(Doubled(word) + (['\''] + glue)))
  {
    DoubledNoSpace(word);
    hide Doubled;
  }

  lemma WholeWord(l: Label, lead: string, word: string, tail: string)
    requires Split(l, lead, word, tail)
    ensures NoSpace(l.text) <==> lead == [] && tail == [] && word == l.text
  {
    if lead != [] || tail != [] {
      var i := if lead != [] then 0 else |lead| + |word|;
      assert l.text[i] == if lead != [] then lead[0] else tail[0];
      assert !NoSpace(l.text);
    }
  }

  /** The text is read, by its split. */
  ghost predicate ReadWhole(l: Label, word: string)
  {
    && word == l.text
    && if l.text != [] && l.pad > 0 then Unquoted(Doubled(word)) == word
       else SpaceFirst(l.rest) && Unquoted(Doubled(word) + (['\''] + Glue(l.rest))) == word
  }

  lemma ReadTextWhole(l: Label, lead: string, word: string, tail: string)
    requires IsLabel(l) && Split(l, lead, word, tail)
    ensures ReadText(l, word, tail) == Some(l.text) <==> ReadWhole(l, word)
  {
    GlueOfSpace(l.rest);
    GlueIs(l.rest);
    WholeWord(l, lead, word, tail);
    assert NoSpace(word) && (word == [] ==> l.text == []);
    WordsHaveNoSpace(word, Glue(l.rest));
    ClosedIsText(word, Glue(l.rest));
    hide Split, Glue, Doubled, Quotes, NoSpace, IsLabel, SpaceFirst, Unquoted;
  }

  lemma ReadableWhole(l: Label, lead: string, word: string, tail: string)
    requires IsLabel(l) && Split(l, lead, word, tail)
    ensures ReadWhole(l, word) <==> Readable(l)
  {
    GlueOfSpace(l.rest);
    WholeWord(l, lead, word, tail);
    assert NoSpace(word);
    hide Split, Glue, Unquoted, Doubled, Quotes, NoSpace, IsLabel, SpaceFirst;
    if l.text != [] { UnquotedIsText(l.text); }
    ClosedIsText(l.text, Glue(l.rest));
  }

  /** A text is read as it is if and only if it has no space in it or before it, no quote that is doubled, and a space
      right behind it or its closing quote. */
  lemma TextIsRead(l: Label)
    requires IsLabel(l)
    ensures StringValue(LabelField(l)) == Some(l.text) <==> Readable(l)
  {
    hide *;
    var lead, word, tail := SplitLabel(l);
    LabelReads(l, lead, word, tail);
    ReadTextWhole(l, lead, word, tail);
    ReadableWhole(l, lead, word, tail);
  }

  // ----- when another name is read

  /** The first word of the text is this name, and a space follows it or its closing quote. */
  ghost predicate Begins(l: Label, name: string)
  {
    exists lead: string, tail: string ::
      Split(l, lead, name, tail) && (BlankBehind(l, name, tail) || SpaceFirst(l.rest))
  }

  lemma QuotelessDoubled(word: string, name: string)
    requires Quotes(name) == 0
    ensures Doubled(word) == name <==> word == name
    ensures Doubled(word) != name + ['\'']
  {
    DoubledSize(word);
    DoubledSize(name);
    QuotesAdd(name, ['\'']);
    assert "\'"[1..] == [];
    hide Doubled;
  }

  lemma QuotelessRead(word: string, glue: string, name: string)
    requires name != [] && Quotes(name) == 0
    ensures Unquoted(Doubled(word)) == name <==> word == name
    ensures Unquoted(Doubled(word) + (['\''] + glue)) == name <==> word == name && glue == []
  {
    QuotelessDoubled(word, name);
    NoQuoteInside(name, |name| - 1);
    hide Doubled, Quotes;
    UnquotedName(Doubled(word), name);
    QuoteBeforeGlue(Doubled(word), glue, name);
  }

  lemma UnquotedName(d: string, name: string)
    requires name != [] && name[|name| - 1] != '\''
    ensures Unquoted(d) == name <==> d == name || d == name + ['\'']
  {
    if d != [] { assert d == d[..|d| - 1] + [d[|d| - 1]]; }
  }

  lemma QuoteBeforeGlue(d: string, glue: string, name: string)
    requires Quotes(name) == 0
    ensures Unquoted(d + (['\''] + glue)) == name <==> d == name && glue == []
  {
    var e := d + (['\''] + glue);
    if glue != [] {
      assert Unquoted(e)[|d|] == '\'';
      if Unquoted(e) == name { NoQuoteInside(name, |d|); }
    } else {
      assert Unquoted(e) == d;
    }
  }

  /** A string value is read as a name without spaces and quotes if and only if it begins with it. */
  lemma NameIsRead(l: Label, name: string)
    requires IsLabel(l) && name != [] && NoSpace(name) && Quotes(name) == 0
    ensures StringValue(LabelField(l)) == Some(name) <==> Begins(l, name)
  {
    hide StringValue, LabelField, Split, Glue, Unquoted, Doubled, Quotes, NoSpace, IsLabel;
    GlueIs(l.rest);
    if Begins(l, name) {
      var lead: string, tail: string :| Split(l, lead, name, tail)
        && (BlankBehind(l, name, tail) || SpaceFirst(l.rest));
      LabelReads(l, lead, name, tail);
      GlueOfSpace(l.rest);
      QuotelessRead(name, [], name);
    }
    if StringValue(LabelField(l)) == Some(name) {
      var lead, word, tail := SplitLabel(l);
      LabelReads(l, lead, word, tail);
      QuotelessRead(word, Glue(l.rest), name);
      GlueOfSpace(l.rest);
      assert word == name;
    }
  }

  lemma GlueOfSpace(rest: string)
    ensures SpaceFirst(rest) <==> Glue(rest) == [] && rest != []
  {
    GlueIs(rest);
  }

  /** A blank or, behind the closing quote, a space follows the text. */
  ghost predicate SpaceBehind(l: Label) { l.pad > 0 || SpaceFirst(l.rest) }

  lemma WholeBegins(l: Label)
    requires l.text != [] && NoSpace(l.text)
    ensures Begins(l, l.text) <==> SpaceBehind(l)
  {
    if SpaceBehind(l) {
      assert l.text == [] + (l.text + []);
      assert Split(l, [], l.text, []);
    }
    if Begins(l, l.text) {
      var lead: string, tail: string :| Split(l, lead, l.text, tail)
        && (BlankBehind(l, l.text, tail) || SpaceFirst(l.rest));
      assert |tail| == 0;
    }
  }

  lemma ThreeNames()
    ensures NoSpace("X") && NoSpace("Y") && NoSpace("PI") && Quotes("X") == 0 && Quotes("Y") == 0 && Quotes("PI") == 0
  {
    assert "X"[1..] == [] && "Y"[1..] == [] && "PI"[1..] == "I" && "I"[1..] == [];
  }

  lemma SplitOffset(pad: nat, rest: string)
    ensures Split(Label("X OFFSET", pad, rest), [], "X", " OFFSET")
  {
    assert "X OFFSET" == [] + ("X" + " OFFSET");
  }

  /** A name of two words, `'X OFFSET'`, is taken for the first of them, whatever follows. */
  lemma FirstWordTaken(pad: nat, rest: string)
    requires rest == [] || rest[0] != '\''
    ensures IsLabel(Label("X OFFSET", pad, rest))
    ensures StringValue(LabelField(Label("X OFFSET", pad, rest))) == Some("X")
  {
    SplitOffset(pad, rest);
    ThreeNames();
    hide StringValue, LabelField, Split, Quotes, NoSpace;
    NameIsRead(Label("X OFFSET", pad, rest), "X");
  }

  lemma NoQuoteInX()
    ensures Quotes("X") == 0 && Doubled("X") == "X"
  {
    assert "X"[1..] == [];
  }

  /** In `'X'/ comment` the quote and the slash are taken for part of the name. */
  lemma SlashTaken(comment: string)
    requires SpaceFirst(comment)
    ensures StringValue(LabelField(Label("X", 0, "/" + comment))) == Some("X'/")
  {
    var l := Label("X", 0, "/" + comment);
    assert l.text == [] + ("X" + []);
    assert Split(l, [], "X", []);
    NoQuoteInX();
    CountsWord("/", comment);
    assert Glue(l.rest) == "/";
    hide StringValue, LabelField, Split, Glue;
    LabelReads(l, [], "X", []);
    assert Doubled("X") + (['\''] + "/") == "X'/";
  }

  lemma OffsetBegins(pad: nat, rest: string)
    ensures Begins(Label("X OFFSET", pad, rest), "X")
  {
    SplitOffset(pad, rest);
    assert BlankBehind(Label("X OFFSET", pad, rest), "X", " OFFSET");
    hide Split;
  }

  // ----- formats

  /** What is read of a format behind its text. */
  function Behind(l: Label): string { if l.pad > 0 then [] else Unquoted(['\''] + Glue(l.rest)) }

  lemma FormBehind(c: Column, form: string, behind: string)
    requires IsForm(c, form)
    ensures IsForm(c.(extra := c.extra + behind), form + behind)
  {
    var ds: string :| form == ds + ([c.code] + c.extra) && (Spells(ds, c.repeat) || (ds == [] && c.repeat == 1));
    hide Spells;
    assert form + behind == ds + ([c.code] + (c.extra + behind));
  }

  lemma WordRead(l: Label)
    requires IsLabel(l) && l.text != [] && NoSpace(l.text) && Quotes(l.text) == 0
    ensures StringValue(LabelField(l)) == if l.pad == 0 && Glue(l.rest) == l.rest then None
      else Some(l.text + Behind(l))
  {
    assert l.text == [] + (l.text + []);
    assert Split(l, [], l.text, []);
    NoQuoteInside(l.text, |l.text| - 1);
    DoubledSize(l.text);
    hide StringValue, LabelField, Split, Glue, Doubled;
    LabelReads(l, [], l.text, []);
    UnquotedBehind(l.text, Glue(l.rest));
    assert l.text + [] == l.text == Unquoted(l.text);
  }

  lemma UnquotedBehind(word: string, glue: string)
    ensures Unquoted(word + (['\''] + glue)) == word + Unquoted(['\''] + glue)
  {
  }

  /** A format is read with what stands right behind its closing quote, as one of further characters. */
  lemma FormatIsRead(l: Label, c: Column)
    requires IsLabel(l) && IsForm(c, l.text) && NoSpace(l.text) && Quotes(l.text) == 0
    ensures StringValue(LabelField(l)) == if l.pad == 0 && Glue(l.rest) == l.rest then None
      else Some(l.text + Behind(l))
    ensures IsForm(c.(extra := c.extra + Behind(l)), l.text + Behind(l))
  {
    assert l.text != [];
    hide StringValue, LabelField, Glue, Behind, IsForm;
    WordRead(l);
    FormBehind(c, l.text, Behind(l));
  }

  // ----- the header

  /** The values of all name cards are string values of the standard. */
  ghost predicate Labelled(t: Parts, labels: seq<Label>)
  {
    && |labels| == |t.sts| == |t.body|
    && forall i :: 0 <= i < |t.sts| && t.sts[i].Name? ==>
      IsLabel(labels[i]) && |t.body[i]| == 80 && t.body[i][10..] == LabelField(labels[i])
  }

  ghost predicate NamesColumn(t: Parts, i: int, k: nat) { 0 <= i < |t.sts| && t.sts[i].Name? && t.sts[i].k == k }

  /** Column k has this name. */
  ghost predicate Called(t: Parts, labels: seq<Label>, k: nat, name: string)
    requires |labels| == |t.sts|
  {
    (exists i: int :: NamesColumn(t, i, k)) && forall i: int :: NamesColumn(t, i, k) ==> labels[i].text == name
  }

  /** On its card a space follows the name, and no later card begins with it. */
  ghost predicate FoundAs(t: Parts, labels: seq<Label>, k: nat, name: string)
    requires |labels| == |t.sts|
  {
    exists i: int :: NamesColumn(t, i, k) && SpaceBehind(labels[i])
      && forall j :: i < j < |t.sts| && t.sts[j].Name? ==> !Begins(labels[j], name)
  }

  lemma SaidName(t: Parts, labels: seq<Label>, i: nat, name: string)
    requires SayAll(t.body, t.sts) && Labelled(t, labels) && i < |t.sts| && t.sts[i].Name?
    requires name != [] && NoSpace(name) && Quotes(name) == 0
    ensures t.sts[i].name == name <==> Begins(labels[i], name)
  {
    assert Says(t.body[i], t.sts[i]);
    WordSaid(t.body[i][10..], t.sts[i].name);
    hide StringValue, LabelField, SpellsWord, Begins, Quotes, NoSpace;
    NameIsRead(labels[i], name);
  }

  /** The reader takes a column for X, Y or PI by its name if and only if a space follows the name on its card and no
      later card begins with it. */
  lemma NameFound(t: Parts, labels: seq<Label>, k: nat, name: string)
    requires SayAll(t.body, t.sts) && Labelled(t, labels) && Called(t, labels, k, name)
    requires name != [] && NoSpace(name) && Quotes(name) == 0
    ensures Stated(t.sts, Name(k, name)) <==> FoundAs(t, labels, k, name)
  {
    var sts := t.sts;
    hide SayAll, Labelled, Begins, SpaceBehind, Quotes, NoSpace;
    assert |labels| == |sts| by { LabelledSize(t, labels); }
    forall i: int | 0 <= i < |sts| && sts[i].Name?
      ensures sts[i].name == name <==> Begins(labels[i], name)
      ensures sts[i].k == k ==> (sts[i].name == name <==> SpaceBehind(labels[i]))
    {
      SaidName(t, labels, i, name);
      if sts[i].k == k {
        assert NamesColumn(t, i, k);
        WholeBegins(labels[i]);
      }
    }
    if Stated(sts, Name(k, name)) {
      var i: nat :| i < |sts| && sts[i] == Name(k, name) && Last(sts, i);
      assert NamesColumn(t, i, k);
    }
    if FoundAs(t, labels, k, name) {
      var i: int :| NamesColumn(t, i, k) && SpaceBehind(labels[i])
        && forall j :: i < j < |sts| && sts[j].Name? ==> !Begins(labels[j], name);
      assert sts[i] == Name(k, name) && Last(sts, i);
    }
  }

  lemma LabelledSize(t: Parts, labels: seq<Label>)
    requires Labelled(t, labels)
    ensures |labels| == |t.sts| == |t.body|
  {
  }

  ghost predicate AllCalled(t: Parts, labels: seq<Label>, px: nat, py: nat, pp: nat)
    requires |labels| == |t.sts|
  {
    Called(t, labels, px, "X") && Called(t, labels, py, "Y") && Called(t, labels, pp, "PI")
  }

  ghost predicate AllFound(t: Parts, labels: seq<Label>, px: nat, py: nat, pp: nat)
    requires |labels| == |t.sts|
  {
    FoundAs(t, labels, px, "X") && FoundAs(t, labels, py, "Y") && FoundAs(t, labels, pp, "PI")
  }

  lemma AllNamesFound(t: Parts, labels: seq<Label>, px: nat, py: nat, pp: nat)
    requires SayAll(t.body, t.sts) && Labelled(t, labels) && AllCalled(t, labels, px, py, pp)
    ensures Names(t.sts, px, py, pp) <==> AllFound(t, labels, px, py, pp)
  {
    hide SayAll, Labelled, Called, FoundAs, Stated, Quotes, NoSpace;
    ThreeNames();
    NameFound(t, labels, px, "X");
    NameFound(t, labels, py, "Y");
    NameFound(t, labels, pp, "PI");
  }

  /** The columns called X, Y and PI are those the reader takes for them if and only if all three are found. */
  lemma PositionsFound(t: Parts, labels: seq<Label>, px: nat, py: nat, pp: nat)
    requires GoodHeader(t) && Labelled(t, labels) && AllCalled(t, labels, px, py, pp) && px > 0 && py > 0 && pp > 0
    ensures var f := ScanFrom(FileOf(t), |t.front|, EMPTY).scan.fields;
      f.posx == px && f.posy == py && f.pospi == pp <==> AllFound(t, labels, px, py, pp)
  {
    hide *;
    HeaderRead(t);
    HeaderSays(t);
    AllNamesFound(t, labels, px, py, pp);
    PositionsStated(t.sts, px, py, pp);
  }

  lemma PositionsStated(sts: seq<Statement>, px: nat, py: nat, pp: nat)
    requires px > 0 && py > 0 && pp > 0
    ensures var f := TakeAll(EMPTY, sts); f.posx == px && f.posy == py && f.pospi == pp <==> Names(sts, px, py, pp)
  {
    PositionStated(sts, "X", px);
    PositionStated(sts, "Y", py);
    PositionStated(sts, "PI", pp);
    hide TakeAll, Stated;
  }

  /** A card of another column behind all cards of the column called X, with a name like X OFFSET, displaces it. */
  lemma OffsetDisplaces(t: Parts, labels: seq<Label>, k: nat, j: nat)
    requires |labels| == |t.sts| && j < |t.sts| && t.sts[j].Name?
    requires labels[j].text == "X OFFSET" && forall i: int :: NamesColumn(t, i, k) ==> i < j
    ensures !FoundAs(t, labels, k, "X")
  {
    OffsetBegins(labels[j].pad, labels[j].rest);
    hide Begins, SpaceBehind;
  }

  /** Names of one word each, with a space behind, of which no two are the same. */
  ghost predicate PlainNames(t: Parts, labels: seq<Label>)
    requires |labels| == |t.sts|
  {
    && (forall i :: 0 <= i < |t.sts| && t.sts[i].Name? ==> NoSpace(labels[i].text) && SpaceBehind(labels[i]))
    && forall i, j :: 0 <= i < j < |t.sts| && t.sts[i].Name? && t.sts[j].Name? ==> labels[i].text != labels[j].text
  }

  lemma PlainNameFound(t: Parts, labels: seq<Label>, k: nat, name: string)
    requires |labels| == |t.sts| && PlainNames(t, labels) && Called(t, labels, k, name) && name != []
    ensures FoundAs(t, labels, k, name)
  {
    var i: int :| NamesColumn(t, i, k);
    forall j | i < j < |t.sts| && t.sts[j].Name? ensures !Begins(labels[j], name) {
      if Begins(labels[j], name) { WordBegins(labels[j], name); }
    }
  }

  lemma WordBegins(l: Label, name: string)
    requires NoSpace(l.text) && Begins(l, name) && name != []
    ensures l.text == name
  {
    var lead: string, tail: string :| Split(l, lead, name, tail) && (BlankBehind(l, name, tail) || SpaceFirst(l.rest));
    WholeWord(l, lead, name, tail);
  }

  lemma AllPlainFound(t: Parts, labels: seq<Label>, px: nat, py: nat, pp: nat)
    requires |labels| == |t.sts| && PlainNames(t, labels) && AllCalled(t, labels, px, py, pp)
    ensures AllFound(t, labels, px, py, pp)
  {
    hide PlainNames, Called, FoundAs;
    PlainNameFound(t, labels, px, "X");
    PlainNameFound(t, labels, py, "Y");
    PlainNameFound(t, labels, pp, "PI");
  }

  // ----- the table

  /**
   * For every file whose first binary table extension has 16-bit columns called X and Y and a 16-bit or 32-bit column
   * called PI, among any others of Table 18, its cards in any spelling and order and among any others:
   * - The reader takes these columns for X, Y and PI if and only if on their cards a space follows the name, and no
   *   later name begins with it as a word.
   * - If so, and unless it takes one column for too narrow and another for too wide, it reads X and Y exactly, and PI
   *   as an unsigned number, that is exactly when it is not negative (PiReads), if and only if it understands all
   *   formats; otherwise it fails.
   */
  lemma TableReadBack(t: Parts, labels: seq<Label>, px: nat, py: nat, pp: nat)
    requires NoTableBefore(t.front) && GoodHeader(t) && GoodRows(t, px, py, pp)
    requires (|t.rows| - 1) * Total(Sizes(t.cols)) < 0x8000_0000
    requires Labelled(t, labels) && AllCalled(t, labels, px, py, pp)
    ensures 1 <= px <= |t.cols| && 1 <= py <= |t.cols| && 1 <= pp <= |t.cols|
    ensures var f := ScanFrom(FileOf(t), |t.front|, EMPTY).scan.fields;
      f.posx == px && f.posy == py && f.pospi == pp <==> AllFound(t, labels, px, py, pp)
    ensures AllFound(t, labels, px, py, pp) ==> Read(FileOf(t)) == TableOutcome(t, px, py, pp)
    ensures AllFound(t, labels, px, py, pp) && OneSided(t.cols) ==>
      Read(FileOf(t)) == if AllUnderstood(t.cols) then TableEvents(t, pp) else Failed(0)
  {
    hide *;
    InRange(t, px, py, pp);
    HeaderSays(t);
    LabelledSize(t, labels);
    PositionsFound(t, labels, px, py, pp);
    AllNamesFound(t, labels, px, py, pp);
    if AllFound(t, labels, px, py, pp) {
      TableRead(t, px, py, pp);
      if OneSided(t.cols) { OneSidedRead(t, px, py, pp); }
    }
  }

  /** With one-word names, all different, and formats of the eleven types: all is read if and only if every column has
      an element. */
  lemma PlainTableReadBack(t: Parts, labels: seq<Label>, px: nat, py: nat, pp: nat)
    requires NoTableBefore(t.front) && GoodHeader(t) && GoodRows(t, px, py, pp)
    requires (|t.rows| - 1) * Total(Sizes(t.cols)) < 0x8000_0000
    requires Labelled(t, labels) && AllCalled(t, labels, px, py, pp) && PlainNames(t, labels)
    requires forall i :: 0 <= i < |t.cols| ==> t.cols[i].code in CODES && t.cols[i].extra == []
    ensures 1 <= pp <= |t.cols|
    ensures Read(FileOf(t)) ==
      if forall i :: 0 <= i < |t.cols| ==> t.cols[i].repeat >= 1 then TableEvents(t, pp) else Failed(0)
  {
    hide *;
    HeaderSays(t);
    LabelledSize(t, labels);
    AllNamesFound(t, labels, px, py, pp);
    AllPlainFound(t, labels, px, py, pp);
    PlainTableRead(t, px, py, pp);
  }
}
