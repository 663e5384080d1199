/** The parser of src/cJSON.c accepts nothing but the texts of the wider grammar: from every successful
    parse the syntax tree of the text can be read off. */
module JsonAccepts {
  import opened Basics
  import opened Json
  import opened JsonGrammar
  import opened JsonBuffers

  // ---------------------------------------------------------------- strings

  lemma DigitsAre(a: nat, b: nat, c: nat, d: nat)
    requires a < 16 && b < 16 && c < 16 && d < 16
    ensures var n := a * 0x1000 + b * 0x100 + c * 0x10 + d;
      n < 0x1_0000 && n / 0x1000 == a && n / 0x100 % 16 == b && n / 0x10 % 16 == c && n % 16 == d
  {
    Digit(a * 0x100 + b * 0x10 + c, d);
    Digit(a * 0x10 + b, c);
    Digit(a, b);
    var n := a * 0x1000 + b * 0x100 + c * 0x10 + d;
    assert n / 0x100 == n / 0x10 / 16 && n / 0x1000 == n / 0x10 / 16 / 16;
  }

  lemma Digit(high: nat, d: nat)
    requires d < 16
    ensures (high * 16 + d) / 16 == high && (high * 16 + d) % 16 == d
  {
  }

  /** Four digits that are read as a number other than 0. */
  lemma Hex4Syntax(s: Bytes, i: nat)
    requires Hex4(s, i) != 0 && i + 4 <= |s|
    ensures IsHex4(s[i..i + 4], Hex4(s, i)) && Has(s, i, s[i..i + 4])
  {
    hide IsHex;
    var h := s[i..i + 4];
    var a, b, c, d := HexValue(h[0]), HexValue(h[1]), HexValue(h[2]), HexValue(h[3]);
    DigitsAre(a.value, b.value, c.value, d.value);
    HexDigitIs(h[0], a.value);
    HexDigitIs(h[1], b.value);
    HexDigitIs(h[2], c.value);
    HexDigitIs(h[3], d.value);
  }

  lemma MeaningIs(letter: Byte)
    ensures Meaning(letter) == Unescape(letter)
  {
  }

  /** A \u escape that is accepted stands for the code point it names in UTF-16, in UTF-8. */
  lemma LiteralSyntax(s: Bytes, p: nat, end: nat) returns (c: SChar)
    requires Ch(s, p) == 0x5C && Ch(s, p + 1) == 0x75 && end <= |s| && Utf16Literal(s, p, end).Some?
    ensures CharOk(c, Lenient) && (c.Unit? || c.Pair?) && Has(s, p, CharText(c))
    ensures Utf16Literal(s, p, end) == Some(Piece(CharBytes(c), |CharText(c)|))
  {
    hide Hex4, FromUtf8, Utf8, IsHex4, Has;
    Hex4Syntax(s, p + 2);
    var first, h := Hex4(s, p + 2), s[p + 2..p + 6];
    Backslash(s, p);
    HasSplit(s, p, [0x5C, 0x75], h);
    HexLength(h, first);
    if 0xD800 <= first <= 0xDBFF {
      var second, l := Hex4(s, p + 8), s[p + 8..p + 12];
      Hex4Syntax(s, p + 8);
      HexLength(l, second);
      Backslash(s, p + 6);
      HasSplit(s, p, [0x5C, 0x75] + h, [0x5C, 0x75]);
      HasSplit(s, p, [0x5C, 0x75] + h + [0x5C, 0x75], l);
      var k := (first - 0xD800) * 0x400 + (second - 0xDC00);
      PairOf(first - 0xD800, second - 0xDC00);
      Utf8Decodes(0x1_0000 + k);
      c := Pair(0x1_0000 + k, h, l, Utf8(0x1_0000 + k));
    } else {
      Utf8Decodes(first);
      c := Unit(first, h, Utf8(first));
    }
  }

  lemma PairOf(a: nat, b: nat)
    requires a < 0x400 && b < 0x400
    ensures (a * 0x400 + b) / 0x400 == a && (a * 0x400 + b) % 0x400 == b
  {
  }

  lemma Backslash(s: Bytes, p: nat)
    requires Ch(s, p) == 0x5C && Ch(s, p + 1) == 0x75
    ensures Has(s, p, [0x5C, 0x75])
  {
  }

  lemma CharSyntax(s: Bytes, p: nat, end: nat) returns (c: SChar)
    requires p < end < |s| && Ch(s, p) != 0x22 && Ch(s, p) != 0 && DecodeOne(s, p, end).Some?
    ensures CharOk(c, Lenient) && Has(s, p, CharText(c))
    ensures DecodeOne(s, p, end) == Some(Piece(CharBytes(c), |CharText(c)|))
  {
    hide Utf16Literal, FromUtf8, IsHex4, Meaning, Unescape;
    if Ch(s, p) != 0x5C {
      c := Raw(Ch(s, p));
    } else if Ch(s, p + 1) == 0x75 {
      c := LiteralSyntax(s, p, end);
    } else {
      MeaningIs(Ch(s, p + 1));
      c := Short(Ch(s, p + 1));
      ZeroMeansNothing();
      assert Has(s, p, [0x5C, Ch(s, p + 1)]);
    }
  }

  lemma ZeroMeansNothing()
    ensures Unescape(0) == None
  {
  }

  lemma CharsCons(c: SChar, cs: seq<SChar>)
    ensures CharsText([c] + cs) == CharText(c) + CharsText(cs) && CharsBytes([c] + cs) == CharBytes(c) + CharsBytes(cs)
    ensures CharsOk([c] + cs, Lenient) <==> CharOk(c, Lenient) && CharsOk(cs, Lenient)
  {
    hide CharOk, CharText, CharBytes;
    var all := [c] + cs;
    assert all[0] == c && all[1..] == cs;
    assert c in all && forall x :: x in cs ==> x in all;
  }

  lemma QuoteNotYet(s: Bytes, p: nat, end: nat)
    requires p < end && EndQuote(s, p) == Some(end)
    ensures Ch(s, p) != 0x22 && Ch(s, p) != 0 && end < |s|
  {
  }

  lemma {:induction false} CharsSyntax(s: Bytes, p: nat, end: nat) returns (cs: seq<SChar>)
    requires p <= end && EndQuote(s, p) == Some(end) && Decode(s, p, end).Some?
    ensures CharsOk(cs, Lenient) && Has(s, p, CharsText(cs)) && p + |CharsText(cs)| == end
    ensures Decode(s, p, end) == Some(CharsBytes(cs))
    decreases end - p
  {
    hide DecodeOne, EndQuote, Decode, CharOk, CharText, CharBytes;
    if p == end {
      DecodeDone(s, p);
      cs := [];
    } else {
      QuoteNotYet(s, p, end);
      DecodeStep(s, p, end);
      PieceFits(s, p, end);
      var c := CharSyntax(s, p, end);
      SomeText(c);
      var rest := CharsSyntax(s, p + |CharText(c)|, end);
      cs := [c] + rest;
      CharsCons(c, rest);
      HasSplit(s, p, CharText(c), CharsText(rest));
    }
  }

  /** A string that is parsed is a string of the grammar. */
  lemma StringSyntax(s: Bytes, i: nat) returns (cs: seq<SChar>)
    requires ParseString(s, i).Ok?
    ensures CharsOk(cs, Lenient) && Has(s, i, StringText(cs))
    ensures ParseString(s, i) == Ok(CharsBytes(cs), i + |StringText(cs)|)
  {
    hide EndQuote, Decode, CharsOk, CharsText, CharsBytes, Has;
    var end := EndQuote(s, i + 1).value;
    QuoteAt(s, i + 1);
    cs := CharsSyntax(s, i + 1, end);
    var body := CharsText(cs);
    HasOne(s, i, 0x22);
    HasOne(s, end, 0x22);
    HasSplit(s, i, [0x22], body);
    HasSplit(s, i, [0x22] + body, [0x22]);
  }

  lemma QuoteAt(s: Bytes, i: nat)
    ensures EndQuote(s, i).Some? ==> i <= EndQuote(s, i).value < |s| && Ch(s, EndQuote(s, i).value) == 0x22
  {
  }

  // ---------------------------------------------------------------- trees

  /** What is skipped is white space. */
  lemma {:induction false} Skipped(s: Bytes, i: nat)
    requires i <= |s|
    ensures i <= Skip(s, i) <= |s| && Blanks(s[i..Skip(s, i)], Lenient) && Has(s, i, s[i..Skip(s, i)])
    decreases |s| - i
  {
    if 0 < Ch(s, i) <= 32 {
      Skipped(s, i + 1);
      assert s[i..Skip(s, i)] == [s[i]] + s[i + 1..Skip(s, i)];
    }
  }

  lemma Encloses(s: Bytes, i: nat, open: Byte, body: Bytes, close: Byte)
    requires Ch(s, i) == open != 0 && Has(s, i + 1, body) && Ch(s, i + 1 + |body|) == close != 0
    ensures Has(s, i, [open] + body + [close])
  {
    hide Has;
    HasOne(s, i, open);
    HasOne(s, i + 1 + |body|, close);
    HasSplit(s, i, [open], body);
    HasSplit(s, i, [open] + body, [close]);
  }

  /** The kinds of values, by their first byte. */
  lemma Starts(s: Bytes, i: nat)
    requires ParseValue(s, i).Ok?
    ensures i < ParseValue(s, i).end <= |s|
    ensures Has(s, i, Text(SNull)) || Has(s, i, Text(SFalse)) || Has(s, i, Text(STrue))
            || Ch(s, i) == 0x22 || Ch(s, i) == 0x5B || Ch(s, i) == 0x7B
  {
  }

  /** From every successful parse its text's syntax tree. */
  lemma {:induction false} ValueSyntax(s: Bytes, i: nat) returns (x: Syntax)
    requires ParseValue(s, i).Ok?
    ensures SyntaxOk(x, Lenient) && Has(s, i, Text(x)) && ParseValue(s, i) == Ok(Tree(x), i + |Text(x)|)
    decreases |s| - i, 2
  {
    hide *;
    Starts(s, i);
    if Ch(s, i) == 0x22 {
      AtString(s, i);
      var cs := StringSyntax(s, i);
      x := SString(cs);
      StringValue(x, Lenient);
    } else if Ch(s, i) == 0x5B {
      x := ArraySyntax(s, i);
    } else if Ch(s, i) == 0x7B {
      x := ObjectSyntax(s, i);
    } else {
      x := if Has(s, i, Text(SNull)) then SNull else if Has(s, i, Text(SFalse)) then SFalse else STrue;
      LiteralParses(s, i, x);
      LiteralOk(x);
    }
  }

  lemma LiteralOk(x: Syntax)
    requires x.SNull? || x.SFalse? || x.STrue?
    ensures SyntaxOk(x, Lenient)
  {
  }

  lemma ArrayOf(s: Bytes, i: nat, gap: Bytes, items: seq<Item>)
    requires Blanks(gap, Lenient) && ItemsOk(items, Lenient)
    requires var body := if items == [] then gap else ItemsText(items);
      Ch(s, i) == 0x5B && Has(s, i + 1, body) && Ch(s, i + 1 + |body|) == 0x5D
    ensures var x, body := SArray(gap, items), if items == [] then gap else ItemsText(items);
      && SyntaxOk(x, Lenient) && Has(s, i, Text(x)) && Tree(x) == Arr(ItemsTree(items)) && |Text(x)| == |body| + 2
  {
    hide Has, ItemsText, ItemsTree, ItemsOk, Blanks;
    Encloses(s, i, 0x5B, if items == [] then gap else ItemsText(items), 0x5D);
  }

  lemma {:induction false} ArraySyntax(s: Bytes, i: nat) returns (x: Syntax)
    requires Ch(s, i) == 0x5B && ParseValue(s, i).Ok?
    ensures SyntaxOk(x, Lenient) && Has(s, i, Text(x)) && ParseValue(s, i) == Ok(Tree(x), i + |Text(x)|)
    decreases |s| - i, 1
  {
    hide *;
    Starts(s, i);
    AtArray(s, i);
    Skipped(s, i + 1);
    var j := Skip(s, i + 1);
    var gap := s[i + 1..j];
    NoTrees();
    NoBlanks();
    if Ch(s, j) == 0x5D {
      ArrayOf(s, i, gap, []);
      x := SArray(gap, []);
    } else {
      SkipOne(s, j);
      ItemsStep(s, i + 1);
      ItemsStep(s, j);
      SkipTwice(s, i + 1);
      var items := ItemsSyntax(s, i + 1);
      ArrayOf(s, i, [], items);
      x := SArray([], items);
    }
  }

  lemma NoBlanks()
    ensures Blanks([], Lenient) && ItemsOk([], Lenient) && EntriesOk([], Lenient)
  {
  }

  lemma {:induction false} SkipTwice(s: Bytes, i: nat)
    ensures Skip(s, Skip(s, i)) == Skip(s, i)
    decreases |s| - i
  {
    if 0 < Ch(s, i) <= 32 { SkipTwice(s, i + 1); }
  }

  /** The value at a place between white space, as an item. */
  lemma ItemAt(s: Bytes, i: nat, x: Syntax) returns (item: Item)
    requires i <= |s| && SyntaxOk(x, Lenient) && Has(s, Skip(s, i), Text(x)) && Skip(s, i) + |Text(x)| <= |s|
    ensures item.value == x && ItemOk(item, Lenient) && Has(s, i, ItemText(item))
    ensures i + |ItemText(item)| == Skip(s, Skip(s, i) + |Text(x)|)
  {
    hide Has, SyntaxOk, Text, Skip, Blanks;
    var a := Skip(s, i);
    var e := a + |Text(x)|;
    Skipped(s, i);
    Skipped(s, e);
    item := Item(s[i..a], x, s[e..Skip(s, e)]);
    HasSplit(s, i, s[i..a], Text(x));
    HasSplit(s, i, s[i..a] + Text(x), s[e..Skip(s, e)]);
  }

  lemma ItemsOf(s: Bytes, i: nat, item: Item, rest: seq<Item>)
    requires ItemOk(item, Lenient) && ItemsOk(rest, Lenient) && Has(s, i, ItemText(item))
    requires rest != [] ==> var j := i + |ItemText(item)|; Ch(s, j) == 0x2C && Has(s, j + 1, ItemsText(rest))
    ensures var items := [item] + rest;
      && ItemsOk(items, Lenient) && Has(s, i, ItemsText(items))
      && ItemsTree(items) == [Tree(item.value)] + ItemsTree(rest)
      && |ItemsText(items)| == |ItemText(item)| + if rest == [] then 0 else 1 + |ItemsText(rest)|
  {
    hide Has, ItemOk, ItemText, Tree;
    var items, j := [item] + rest, i + |ItemText(item)|;
    assert items[0] == item && items[1..] == rest;
    if rest != [] {
      HasOne(s, j, 0x2C);
      InText(s, j);
      HasSplit(s, j, [0x2C], ItemsText(rest));
      HasSplit(s, i, ItemText(item), [0x2C] + ItemsText(rest));
    } else {
      assert ItemText(item) + [] == ItemText(item);
    }
  }

  lemma InText(s: Bytes, j: nat)
    ensures Ch(s, j) != 0 ==> j < |s|
  {
  }

  lemma ItemsBounds(s: Bytes, i: nat)
    ensures ParseItems(s, i).Ok? ==> i < ParseItems(s, i).end <= |s|
    ensures ParseMembers(s, i).Ok? ==> i < ParseMembers(s, i).end <= |s|
    ensures i <= Skip(s, i) && (i <= |s| ==> Skip(s, i) <= |s|)
  {
  }

  lemma {:induction false} ItemsSyntax(s: Bytes, i: nat) returns (items: seq<Item>)
    requires ParseItems(s, i).Ok?
    ensures items != [] && ItemsOk(items, Lenient) && Has(s, i, ItemsText(items))
    ensures Ch(s, i + |ItemsText(items)|) == 0x5D
    ensures ParseItems(s, i) == Ok(ItemsTree(items), i + |ItemsText(items)| + 1)
    decreases |s| - i, 3
  {
    hide *;
    ItemsBounds(s, i);
    ItemsStep(s, i);
    Starts(s, Skip(s, i));
    var x := ValueSyntax(s, Skip(s, i));
    var item := ItemAt(s, i, x);
    var j := i + |ItemText(item)|;
    NoTrees();
    NoBlanks();
    if Ch(s, j) == 0x2C {
      ItemsBounds(s, Skip(s, i) + |Text(x)|);
      var rest := ItemsSyntax(s, j + 1);
      ItemsOf(s, i, item, rest);
      items := [item] + rest;
    } else {
      ItemsOf(s, i, item, []);
      items := [item] + [];
      assert [Tree(x)] + [] == [Tree(x)];
    }
  }

  lemma ObjectOf(s: Bytes, i: nat, gap: Bytes, entries: seq<Entry>)
    requires Blanks(gap, Lenient) && EntriesOk(entries, Lenient)
    requires var body := if entries == [] then gap else EntriesText(entries);
      Ch(s, i) == 0x7B && Has(s, i + 1, body) && Ch(s, i + 1 + |body|) == 0x7D
    ensures var x, body := SObject(gap, entries), if entries == [] then gap else EntriesText(entries);
      && SyntaxOk(x, Lenient) && Has(s, i, Text(x)) && Tree(x) == Obj(EntriesTree(entries)) && |Text(x)| == |body| + 2
  {
    hide Has, EntriesText, EntriesTree, EntriesOk, Blanks;
    Encloses(s, i, 0x7B, if entries == [] then gap else EntriesText(entries), 0x7D);
  }

  lemma {:induction false} ObjectSyntax(s: Bytes, i: nat) returns (x: Syntax)
    requires Ch(s, i) == 0x7B && ParseValue(s, i).Ok?
    ensures SyntaxOk(x, Lenient) && Has(s, i, Text(x)) && ParseValue(s, i) == Ok(Tree(x), i + |Text(x)|)
    decreases |s| - i, 1
  {
    hide *;
    Starts(s, i);
    AtObject(s, i);
    Skipped(s, i + 1);
    var j := Skip(s, i + 1);
    var gap := s[i + 1..j];
    NoTrees();
    NoBlanks();
    if Ch(s, j) == 0x7D {
      ObjectOf(s, i, gap, []);
      x := SObject(gap, []);
    } else {
      MembersStep(s, i + 1);
      MembersStep(s, j);
      SkipTwice(s, i + 1);
      var entries := EntriesSyntax(s, i + 1);
      ObjectOf(s, i, [], entries);
      x := SObject([], entries);
    }
  }

  lemma StringBounds(s: Bytes, i: nat)
    ensures ParseString(s, i).Ok? ==> i < ParseString(s, i).end <= |s|
  {
  }

  /** Name and colon in front of an item. */
  lemma EntryAt(s: Bytes, i: nat, cs: seq<SChar>, item: Item) returns (x: Entry)
    requires i <= |s| && CharsOk(cs, Lenient) && Has(s, Skip(s, i), StringText(cs)) && ItemOk(item, Lenient)
    requires var e := Skip(s, i) + |StringText(cs)|;
      e <= |s| && Ch(s, Skip(s, e)) == 0x3A && Has(s, Skip(s, e) + 1, ItemText(item))
    ensures x.name == cs && x.item == item && Blanks(x.before, Lenient) && Blanks(x.mid, Lenient)
    ensures Has(s, i, EntryText(x))
    ensures i + |EntryText(x)| == Skip(s, Skip(s, i) + |StringText(cs)|) + 1 + |ItemText(item)|
  {
    hide Has, CharsOk, StringText, Skip, Blanks, ItemOk, ItemText;
    var a, name := Skip(s, i), StringText(cs);
    var e := a + |name|;
    var c := Skip(s, e);
    Skipped(s, i);
    Skipped(s, e);
    var before, mid := s[i..a], s[e..c];
    x := Entry(before, cs, mid, item);
    HasOne(s, c, 0x3A);
    InText(s, c);
    HasSplit(s, i, before, name);
    HasSplit(s, i, before + name, mid);
    HasSplit(s, i, before + name + mid, [0x3A]);
    HasSplit(s, i, before + name + mid + [0x3A], ItemText(item));
  }

  lemma EntriesOf(s: Bytes, i: nat, x: Entry, rest: seq<Entry>)
    requires Blanks(x.before, Lenient) && CharsOk(x.name, Lenient) && Blanks(x.mid, Lenient) && ItemOk(x.item, Lenient)
    requires EntriesOk(rest, Lenient) && Has(s, i, EntryText(x))
    requires rest != [] ==> var j := i + |EntryText(x)|; Ch(s, j) == 0x2C && Has(s, j + 1, EntriesText(rest))
    ensures var entries := [x] + rest;
      && EntriesOk(entries, Lenient) && Has(s, i, EntriesText(entries))
      && EntriesTree(entries) == [Member(CharsBytes(x.name), Tree(x.item.value))] + EntriesTree(rest)
      && |EntriesText(entries)| == |EntryText(x)| + if rest == [] then 0 else 1 + |EntriesText(rest)|
  {
    hide Has, ItemOk, EntryText, Tree, Blanks, CharsOk, CharsBytes;
    var entries, j := [x] + rest, i + |EntryText(x)|;
    assert entries[0] == x && entries[1..] == rest;
    if rest != [] {
      HasOne(s, j, 0x2C);
      InText(s, j);
      HasSplit(s, j, [0x2C], EntriesText(rest));
      HasSplit(s, i, EntryText(x), [0x2C] + EntriesText(rest));
    } else {
      assert EntryText(x) + [] == EntryText(x);
    }
  }

  lemma {:induction false} EntriesSyntax(s: Bytes, i: nat) returns (entries: seq<Entry>)
    requires ParseMembers(s, i).Ok?
    ensures entries != [] && EntriesOk(entries, Lenient) && Has(s, i, EntriesText(entries))
    ensures Ch(s, i + |EntriesText(entries)|) == 0x7D
    ensures ParseMembers(s, i) == Ok(EntriesTree(entries), i + |EntriesText(entries)| + 1)
    decreases |s| - i, 3
  {
    hide *;
    ItemsBounds(s, i);
    MembersStep(s, i);
    var a := Skip(s, i);
    var cs := StringSyntax(s, a);
    StringBounds(s, a);
    var c := Skip(s, a + |StringText(cs)|);
    ItemsBounds(s, a + |StringText(cs)|);
    InText(s, c);
    ItemsBounds(s, c + 1);
    Starts(s, Skip(s, c + 1));
    var x := ValueSyntax(s, Skip(s, c + 1));
    var item := ItemAt(s, c + 1, x);
    var entry := EntryAt(s, i, cs, item);
    var j := i + |EntryText(entry)|;
    NoTrees();
    NoBlanks();
    if Ch(s, j) == 0x2C {
      var rest := EntriesSyntax(s, j + 1);
      EntriesOf(s, i, entry, rest);
      entries := [entry] + rest;
    } else {
      EntriesOf(s, i, entry, []);
      entries := [entry] + [];
      var m := Member(CharsBytes(cs), Tree(x));
      assert [m] + [] == [m];
    }
  }

  // ---------------------------------------------------------------- the results

  /** s[i..] starts with a text of the grammar for v that ends at end. */
  ghost predicate Stands(s: Bytes, i: nat, v: Json, end: nat) {
    exists x :: SyntaxOk(x, Lenient) && Has(s, i, Text(x)) && Tree(x) == v && i + |Text(x)| == end
  }

  /** The parser accepts exactly the texts of the wider grammar, and gives their trees. */
  lemma ParseExact(s: Bytes, i: nat, v: Json, end: nat)
    ensures ParseValue(s, i) == Ok(v, end) <==> Stands(s, i, v, end)
  {
    hide SyntaxOk, Has, Text, Tree, ParseValue;
    if ParseValue(s, i) == Ok(v, end) {
      var x := ValueSyntax(s, i);
      assert SyntaxOk(x, Lenient) && Has(s, i, Text(x));
    }
    if Stands(s, i, v, end) {
      var x :| SyntaxOk(x, Lenient) && Has(s, i, Text(x)) && Tree(x) == v && i + |Text(x)| == end;
      ValueParses(s, i, x);
    }
  }
}
