/** What the printer of src/cJSON.c writes is a text of the grammar for the tree it was given, so that
    the parser gives the tree back, formatted or not. */
module JsonRoundTrip {
  import opened Basics
  import opened Json
  import opened JsonGrammar

  predicate NulFree(t: Bytes) { 0 !in t }

  predicate NulFreeTree(v: Json) {
    match v
    case Str(text) => NulFree(text)
    case Arr(items) => forall k :: 0 <= k < |items| ==> NulFreeTree(items[k])
    case Obj(members) => forall k :: 0 <= k < |members| ==> NulFree(members[k].name) && NulFreeTree(members[k].value)
    case _ => true
  }

  // ---------------------------------------------------------------- strings

  /** The character a byte is printed as. */
  function CharOf(b: Byte): SChar {
    if ShortEscape(b).Some? then Short(ShortEscape(b).value)
    else if b > 31 then Raw(b)
    else Unit(b, [0x30, 0x30, HexDigit(b / 16), HexDigit(b % 16)], [b])
  }

  function CharsOf(t: Bytes): seq<SChar> { if t == [] then [] else [CharOf(t[0])] + CharsOf(t[1..]) }

  lemma CharPrinted(b: Byte, d: Dialect)
    requires d == Lenient ==> b != 0
    ensures CharOk(CharOf(b), d) && CharText(CharOf(b)) == Escape(b) && CharBytes(CharOf(b)) == [b]
  {
    hide IsHex;
    if ShortEscape(b).None? && b <= 31 {
      HexPrinted(0);
      HexPrinted(b / 16);
      HexPrinted(b % 16);
      var h := [0x30, 0x30, HexDigit(b / 16), HexDigit(b % 16)];
      assert b / 0x1000 == 0 && b / 0x100 == 0 && b / 0x10 % 16 == b / 16;
      assert [0x5C, 0x75] + h == Escape(b);
    }
  }

  lemma HexPrinted(n: nat)
    requires n < 16
    ensures IsHex(HexDigit(n), n)
  {
    HexDigitIs(HexDigit(n), n);
  }

  lemma {:induction false} CharsPrinted(t: Bytes, d: Dialect)
    requires d == Lenient ==> NulFree(t)
    ensures CharsOk(CharsOf(t), d) && CharsText(CharsOf(t)) == EscapeAll(t) && CharsBytes(CharsOf(t)) == t
  {
    hide CharOk, CharText, CharBytes, CharOf, Escape;
    if t != [] {
      assert t[0] in t;
      CharPrinted(t[0], d);
      CharsPrinted(t[1..], d);
      var c, rest := CharOf(t[0]), CharsOf(t[1..]);
      assert ([c] + rest)[0] == c && ([c] + rest)[1..] == rest;
      assert t == [t[0]] + t[1..];
    }
  }

  lemma StringPrinted(t: Bytes, d: Dialect)
    requires d == Lenient ==> NulFree(t)
    ensures CharsOk(CharsOf(t), d) && StringText(CharsOf(t)) == PrintString(t) && CharsBytes(CharsOf(t)) == t
  {
    hide CharsOk, CharsText, EscapeAll, CharsBytes, CharsOf;
    CharsPrinted(t, d);
  }

  // ---------------------------------------------------------------- trees

  /** How a tree is laid out. */
  function Layout(v: Json, depth: nat, fmt: bool): Syntax
    decreases v, 1
  {
    match v
    case Null => SNull
    case False => SFalse
    case True => STrue
    case Str(text) => SString(CharsOf(text))
    case Arr(items) => SArray([], ItemsLayout(items, [], depth + 1, fmt))
    case Obj(members) =>
      SObject(NewlineIf(fmt) + TabsIf(fmt, depth), EntriesLayout(members, depth, fmt))
  }

  function ItemsLayout(items: seq<Json>, before: Bytes, depth: nat, fmt: bool): seq<Item>
    decreases items, 0
  {
    if items == [] then []
    else [Item(before, Layout(items[0], depth, fmt), [])]
         + ItemsLayout(items[1..], if fmt then [0x20] else [], depth, fmt)
  }

  /** Members of an object at this depth: one line each, the last with the indentation of the brace. */
  function EntriesLayout(members: seq<Member>, depth: nat, fmt: bool): seq<Entry>
    decreases members, 0
  {
    if members == [] then []
    else
      [Entry(NewlineIf(fmt) + TabsIf(fmt, depth + 1), CharsOf(members[0].name), [],
             Item(if fmt then [0x09] else [], Layout(members[0].value, depth + 1, fmt),
                  if |members| == 1 then NewlineIf(fmt) + TabsIf(fmt, depth) else []))]
      + EntriesLayout(members[1..], depth, fmt)
  }

  /** Printing follows the grammar: the text is that of a syntax tree for the value. */
  ghost predicate Printed(v: Json, depth: nat, fmt: bool, d: Dialect) {
    var x := Layout(v, depth, fmt);
    SyntaxOk(x, d) && Text(x) == PrintValue(v, depth, fmt) && Tree(x) == v
  }

  lemma PaddingBlank(fmt: bool, depth: nat, d: Dialect)
    ensures Blanks([], d) && Blanks([0x20], d) && Blanks([0x09], d) && Blanks(NewlineIf(fmt) + TabsIf(fmt, depth), d)
  {
    assert forall b :: b in TabsIf(fmt, depth) ==> b == 9;
    assert forall b :: b in NewlineIf(fmt) ==> b == 10;
  }

  lemma {:induction false} ValuePrinted(v: Json, depth: nat, fmt: bool, d: Dialect)
    requires d == Lenient ==> NulFreeTree(v)
    ensures Printed(v, depth, fmt, d)
    decreases v, 1
  {
    hide CharsOf, CharsOk, StringText, PrintString, CharsBytes, ItemsLayout, EntriesLayout;
    if v.Str? {
      StringPrinted(v.text, d);
    } else if v.Arr? {
      ArrayPrinted(v, depth, fmt, d);
    } else if v.Obj? {
      ObjectPrinted(v, depth, fmt, d);
    }
  }

  lemma ItemsCons(x: Item, rest: seq<Item>, d: Dialect)
    ensures ItemsOk([x] + rest, d) <==> ItemOk(x, d) && ItemsOk(rest, d)
    ensures ItemsText([x] + rest) == ItemText(x) + if rest == [] then [] else [0x2C] + ItemsText(rest)
    ensures ItemsTree([x] + rest) == [Tree(x.value)] + ItemsTree(rest)
  {
    hide ItemOk, ItemText, Tree;
    assert ([x] + rest)[0] == x && ([x] + rest)[1..] == rest;
  }

  ghost predicate ItemsArePrinted(items: seq<Json>, before: Bytes, depth: nat, fmt: bool, d: Dialect)
    requires items != []
  {
    var xs := ItemsLayout(items, before, depth, fmt);
    xs != [] && ItemsOk(xs, d) && ItemsText(xs) == before + PrintItems(items, depth, fmt) && ItemsTree(xs) == items
  }

  lemma {:induction false} ArrayPrinted(v: Json, depth: nat, fmt: bool, d: Dialect)
    requires v.Arr? && (d == Lenient ==> NulFreeTree(v))
    ensures Printed(v, depth, fmt, d)
    decreases v, 0
  {
    PaddingBlank(fmt, depth, d);
    if v.items == [] {
      assert Text(Layout(v, depth, fmt)) == [0x5B] + [] + [0x5D];
    } else {
      NulFreeItems(v, d);
      ItemsPrinted(v.items, [], depth + 1, fmt, d);
      ArrayFromItems(v, depth, fmt, d);
    }
  }

  lemma ArrayFromItems(v: Json, depth: nat, fmt: bool, d: Dialect)
    requires v.Arr? && v.items != [] && ItemsArePrinted(v.items, [], depth + 1, fmt, d)
    ensures Printed(v, depth, fmt, d)
  {
    hide ItemsLayout, ItemsOk, ItemsText, PrintItems, ItemsTree, Blank;
    var body := PrintItems(v.items, depth + 1, fmt);
    assert [] + body == body;
  }

  lemma NulFreeItems(v: Json, d: Dialect)
    requires v.Arr? && (d == Lenient ==> NulFreeTree(v))
    ensures d == Lenient ==> forall k :: 0 <= k < |v.items| ==> NulFreeTree(v.items[k])
  {
  }

  lemma {:induction false} ItemsPrinted(items: seq<Json>, before: Bytes, depth: nat, fmt: bool, d: Dialect)
    requires items != [] && (d == Lenient ==> forall k :: 0 <= k < |items| ==> NulFreeTree(items[k]))
    requires Blanks(before, d)
    ensures ItemsArePrinted(items, before, depth, fmt, d)
    decreases items, 0
  {
    hide NulFreeTree, Layout, Printed, Blanks, ItemsArePrinted;
    var rest, gap := items[1..], if fmt then [0x20] else [];
    assert forall k :: 0 <= k < |rest| ==> rest[k] == items[k + 1];
    PaddingBlank(fmt, depth, d);
    ValuePrinted(items[0], depth, fmt, d);
    if rest != [] { ItemsPrinted(rest, gap, depth, fmt, d); }
    ItemsFromRest(items, before, depth, fmt, d);
  }

  lemma ItemsFromRest(items: seq<Json>, before: Bytes, depth: nat, fmt: bool, d: Dialect)
    requires items != [] && Printed(items[0], depth, fmt, d) && Blanks(before, d) && Blanks([], d)
    requires items[1..] != [] ==> ItemsArePrinted(items[1..], if fmt then [0x20] else [], depth, fmt, d)
    ensures ItemsArePrinted(items, before, depth, fmt, d)
  {
    hide Layout, PrintValue, Text, Tree, SyntaxOk, Blanks, ItemsOk, ItemsText, ItemsTree;
    var rest, gap := items[1..], if fmt then [0x20] else [];
    var x, xs := Item(before, Layout(items[0], depth, fmt), []), ItemsLayout(rest, gap, depth, fmt);
    var first := PrintValue(items[0], depth, fmt);
    ItemsCons(x, xs, d);
    NoItems(d);
    assert ItemText(x) == before + first;
    assert items == [items[0]] + rest;
    if rest == [] {
      assert before + first + [] == before + (first + []);
    } else {
      var more := PrintItems(rest, depth, fmt);
      assert before + first + ([0x2C] + (gap + more)) == before + (first + (Separator(fmt) + more));
    }
  }

  lemma NoItems(d: Dialect)
    ensures ItemsOk([], d) && ItemsTree([]) == [] && EntriesOk([], d) && EntriesTree([]) == []
  {
  }

  lemma EntriesCons(x: Entry, rest: seq<Entry>, d: Dialect)
    ensures EntriesOk([x] + rest, d) <==>
            Blanks(x.before, d) && CharsOk(x.name, d) && Blanks(x.mid, d) && ItemOk(x.item, d) && EntriesOk(rest, d)
    ensures EntriesText([x] + rest) == EntryText(x) + if rest == [] then [] else [0x2C] + EntriesText(rest)
    ensures EntriesTree([x] + rest) == [Member(CharsBytes(x.name), Tree(x.item.value))] + EntriesTree(rest)
  {
    hide ItemOk, EntryText, Tree, Blanks, CharsOk, CharsBytes;
    assert ([x] + rest)[0] == x && ([x] + rest)[1..] == rest;
  }

  ghost predicate EntriesArePrinted(members: seq<Member>, depth: nat, fmt: bool, d: Dialect)
    requires members != []
  {
    var xs := EntriesLayout(members, depth, fmt);
    && xs != [] && EntriesOk(xs, d) && EntriesTree(xs) == members
    && EntriesText(xs) == NewlineIf(fmt) + PrintMembers(members, depth + 1, fmt) + TabsIf(fmt, depth)
  }

  lemma {:induction false} ObjectPrinted(v: Json, depth: nat, fmt: bool, d: Dialect)
    requires v.Obj? && (d == Lenient ==> NulFreeTree(v))
    ensures Printed(v, depth, fmt, d)
    decreases v, 0
  {
    hide EntriesArePrinted, Printed;
    PaddingBlank(fmt, depth, d);
    if v.members == [] {
      EmptyPrinted(v, depth, fmt, d);
    } else {
      NulFreeMembers(v, d);
      EntriesPrinted(v.members, depth, fmt, d);
      ObjectFromEntries(v, depth, fmt, d);
    }
  }

  lemma EmptyPrinted(v: Json, depth: nat, fmt: bool, d: Dialect)
    requires v == Obj([]) && Blanks(NewlineIf(fmt) + TabsIf(fmt, depth), d)
    ensures Printed(v, depth, fmt, d)
  {
    hide NewlineIf, TabsIf, Blanks;
    var nl, pad := NewlineIf(fmt), TabsIf(fmt, depth);
    assert Layout(v, depth, fmt) == SObject(nl + pad, []);
    assert Text(SObject(nl + pad, [])) == [0x7B] + (nl + pad) + [0x7D] == [0x7B] + nl + pad + [0x7D];
    assert PrintValue(v, depth, fmt) == [0x7B] + nl + pad + [0x7D];
    NoItems(d);
  }

  lemma ObjectFromEntries(v: Json, depth: nat, fmt: bool, d: Dialect)
    requires v.Obj? && v.members != [] && EntriesArePrinted(v.members, depth, fmt, d)
    requires Blanks(NewlineIf(fmt) + TabsIf(fmt, depth), d)
    ensures Printed(v, depth, fmt, d)
  {
    hide EntriesLayout, EntriesOk, EntriesText, PrintMembers, EntriesTree, Blanks, NewlineIf, TabsIf;
    var nl, body, pad := NewlineIf(fmt), PrintMembers(v.members, depth + 1, fmt), TabsIf(fmt, depth);
    assert [0x7B] + (nl + body + pad) + [0x7D] == [0x7B] + nl + body + pad + [0x7D];
  }

  lemma NulFreeMembers(v: Json, d: Dialect)
    requires v.Obj? && (d == Lenient ==> NulFreeTree(v))
    ensures d == Lenient ==>
      forall k :: 0 <= k < |v.members| ==> NulFree(v.members[k].name) && NulFreeTree(v.members[k].value)
  {
  }

  lemma {:induction false} EntriesPrinted(members: seq<Member>, depth: nat, fmt: bool, d: Dialect)
    requires members != []
    requires d == Lenient ==>
      forall k :: 0 <= k < |members| ==> NulFree(members[k].name) && NulFreeTree(members[k].value)
    ensures EntriesArePrinted(members, depth, fmt, d)
    decreases members, 0
  {
    hide NulFree, NulFreeTree, Layout, Printed, Blanks, EntriesArePrinted, CharsOf;
    var rest := members[1..];
    assert forall k :: 0 <= k < |rest| ==> rest[k] == members[k + 1];
    PaddingBlank(fmt, depth, d);
    PaddingBlank(fmt, depth + 1, d);
    StringPrinted(members[0].name, d);
    ValuePrinted(members[0].value, depth + 1, fmt, d);
    if rest != [] { EntriesPrinted(rest, depth, fmt, d); }
    EntriesFromRest(members, depth, fmt, d);
  }

  lemma EntriesFromRest(members: seq<Member>, depth: nat, fmt: bool, d: Dialect)
    requires members != [] && Printed(members[0].value, depth + 1, fmt, d)
    requires var name := members[0].name;
      CharsOk(CharsOf(name), d) && StringText(CharsOf(name)) == PrintString(name) && CharsBytes(CharsOf(name)) == name
    requires Blanks([], d) && Blanks([0x09], d)
    requires Blanks(NewlineIf(fmt) + TabsIf(fmt, depth), d) && Blanks(NewlineIf(fmt) + TabsIf(fmt, depth + 1), d)
    requires members[1..] != [] ==> EntriesArePrinted(members[1..], depth, fmt, d)
    ensures EntriesArePrinted(members, depth, fmt, d)
  {
    hide Layout, PrintValue, Text, Tree, SyntaxOk, Blanks, EntriesOk, EntriesText, EntriesTree;
    hide NewlineIf, TabsIf, CharsOf, CharsOk, StringText, PrintString, CharsBytes, EntryText, PrintMember;
    var rest, m := members[1..], members[0];
    var nl, pad := NewlineIf(fmt), TabsIf(fmt, depth);
    var after := if |members| == 1 then nl + pad else [];
    var x := Entry(nl + TabsIf(fmt, depth + 1), CharsOf(m.name), [],
                   Item(if fmt then [0x09] else [], Layout(m.value, depth + 1, fmt), after));
    var xs := EntriesLayout(rest, depth, fmt);
    var first := PrintMember(m, depth + 1, fmt);
    EntriesCons(x, xs, d);
    NoItems(d);
    EntryPrinted(x, m, depth + 1, fmt, after);
    assert members == [m] + rest;
    if rest == [] {
      assert nl + first + (nl + pad) + [] == nl + (first + nl) + pad;
    } else {
      var more := PrintMembers(rest, depth + 1, fmt);
      assert nl + first + [] + ([0x2C] + (nl + more + pad)) == nl + (first + [0x2C] + nl + more) + pad;
    }
  }

  lemma EntryPrinted(x: Entry, m: Member, depth: nat, fmt: bool, after: Bytes)
    requires x == Entry(NewlineIf(fmt) + TabsIf(fmt, depth), CharsOf(m.name), [],
                        Item(if fmt then [0x09] else [], Layout(m.value, depth, fmt), after))
    requires StringText(CharsOf(m.name)) == PrintString(m.name)
    requires Text(Layout(m.value, depth, fmt)) == PrintValue(m.value, depth, fmt)
    ensures EntryText(x) == NewlineIf(fmt) + PrintMember(m, depth, fmt) + after
  {
    hide Layout, PrintValue, Text, NewlineIf, TabsIf, CharsOf, StringText, PrintString;
    var nl, pad := NewlineIf(fmt), TabsIf(fmt, depth);
    var name, value := PrintString(m.name), PrintValue(m.value, depth, fmt);
    var tab: Bytes := if fmt then [0x09] else [];
    assert ColonIf(fmt) == [0x3A] + tab;
    assert nl + pad + name + [] + [0x3A] + (tab + value + after) == nl + (pad + name + ([0x3A] + tab) + value) + after;
  }

  // ---------------------------------------------------------------- the results

  /** Every tree is printed as a text of RFC 8259 that stands for it. */
  lemma PrintedIsJson(v: Json, depth: nat, fmt: bool)
    ensures exists x :: SyntaxOk(x, Rfc) && Text(x) == PrintValue(v, depth, fmt) && Tree(x) == v
  {
    hide SyntaxOk, Text, Tree, PrintValue;
    ValuePrinted(v, depth, fmt, Rfc);
    var x := Layout(v, depth, fmt);
    assert SyntaxOk(x, Rfc) && Text(x) == PrintValue(v, depth, fmt) && Tree(x) == v;
  }

  /** Parsing the printed text at any place in any surrounding text gives the value back and
      stops right after it. */
  lemma ValueRoundTrip(s: Bytes, i: nat, v: Json, depth: nat, fmt: bool)
    requires NulFreeTree(v) && Has(s, i, PrintValue(v, depth, fmt))
    ensures ParseValue(s, i) == Ok(v, i + |PrintValue(v, depth, fmt)|)
  {
    hide SyntaxOk, Text, Tree, PrintValue, ParseValue, Has, Layout;
    ValuePrinted(v, depth, fmt, Lenient);
    ValueParses(s, i, Layout(v, depth, fmt));
  }

  lemma StringRoundTrip(s: Bytes, i: nat, t: Bytes)
    requires NulFree(t) && Has(s, i, PrintString(t))
    ensures ParseString(s, i) == Ok(t, i + |PrintString(t)|)
  {
    hide CharsOk, StringText, PrintString, CharsBytes, ParseString, Has, CharsOf;
    StringPrinted(t, Lenient);
    StringParses(s, i, CharsOf(t));
  }

  lemma PrintedStart(v: Json, fmt: bool)
    requires NulFreeTree(v)
    ensures var s := PrintValue(v, 0, fmt); Has(s, 0, s) && Skip(s, 0) == 0 && Skip(s, |s|) == |s|
  {
    hide SyntaxOk, Text, Tree, PrintValue, Layout;
    var s := PrintValue(v, 0, fmt);
    ValuePrinted(v, 0, fmt, Lenient);
    ValueStart(s, 0, Layout(v, 0, fmt));
  }

  /** Parsing undoes printing, formatted or not. */
  lemma RoundTrip(v: Json, fmt: bool, whole: bool)
    requires NulFreeTree(v)
    ensures Parse(PrintValue(v, 0, fmt), whole) == Some(v)
  {
    hide PrintValue, ParseValue, Has, NulFreeTree, Skip;
    var s := PrintValue(v, 0, fmt);
    PrintedStart(v, fmt);
    ValueRoundTrip(s, 0, v, 0, fmt);
  }
}
