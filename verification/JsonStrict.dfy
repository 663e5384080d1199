/** Texts of RFC 8259 without numbers are parsed to their trees by src/cJSON.c, exactly but for those
    with an escaped NUL in a string, which are refused. */
module JsonStrict {
  import opened Basics
  import opened Json
  import opened JsonGrammar
  import JsonBuffers

  predicate NulChar(c: SChar) { c.Unit? && c.cp == 0 }

  predicate NulChars(cs: seq<SChar>) { cs != [] && (NulChar(cs[0]) || NulChars(cs[1..])) }

  /** Some string of the text has the escape \u0000. */
  predicate HasNul(x: Syntax)
    decreases x, 1
  {
    match x
    case SString(chars) => NulChars(chars)
    case SArray(_, items) => ItemsHaveNul(items)
    case SObject(_, entries) => EntriesHaveNul(entries)
    case _ => false
  }

  predicate ItemsHaveNul(items: seq<Item>)
    decreases items, 0
  {
    items != [] && (HasNul(items[0].value) || ItemsHaveNul(items[1..]))
  }

  predicate EntriesHaveNul(entries: seq<Entry>)
    decreases entries, 0
  {
    entries != [] && (NulChars(entries[0].name) || HasNul(entries[0].item.value) || EntriesHaveNul(entries[1..]))
  }

  // ---------------------------------------------------------------- without an escaped NUL

  lemma BlanksWider(w: Bytes)
    requires Blanks(w, Rfc)
    ensures Blanks(w, Lenient)
  {
  }

  lemma {:induction false} CharsWider(cs: seq<SChar>)
    requires CharsOk(cs, Rfc) && !NulChars(cs)
    ensures CharsOk(cs, Lenient)
  {
    hide FromUtf8, IsHex4, Meaning;
    if cs != [] {
      assert cs[0] in cs;
      CharsWider(cs[1..]);
      assert cs == [cs[0]] + cs[1..];
    }
  }

  lemma {:induction false} Wider(x: Syntax)
    requires SyntaxOk(x, Rfc) && !HasNul(x)
    ensures SyntaxOk(x, Lenient)
    decreases x, 1
  {
    hide CharsOk, NulChars, Blanks;
    if x.SString? { CharsWider(x.chars); }
    if x.SArray? {
      BlanksWider(x.gap);
      ItemsWider(x.items);
    }
    if x.SObject? {
      BlanksWider(x.gap);
      EntriesWider(x.entries);
    }
  }

  lemma {:induction false} ItemWider(x: Item)
    requires ItemOk(x, Rfc) && !HasNul(x.value)
    ensures ItemOk(x, Lenient)
    decreases x, 2
  {
    hide Blanks;
    BlanksWider(x.before);
    BlanksWider(x.after);
    Wider(x.value);
  }

  lemma {:induction false} ItemsWider(items: seq<Item>)
    requires ItemsOk(items, Rfc) && !ItemsHaveNul(items)
    ensures ItemsOk(items, Lenient)
    decreases items, 0
  {
    hide ItemOk, HasNul;
    if items != [] {
      ItemWider(items[0]);
      ItemsWider(items[1..]);
    }
  }

  lemma {:induction false} EntriesWider(entries: seq<Entry>)
    requires EntriesOk(entries, Rfc) && !EntriesHaveNul(entries)
    ensures EntriesOk(entries, Lenient)
    decreases entries, 0
  {
    hide ItemOk, HasNul, Blanks, CharsOk, NulChars;
    if entries != [] {
      BlanksWider(entries[0].before);
      BlanksWider(entries[0].mid);
      CharsWider(entries[0].name);
      ItemWider(entries[0].item);
      EntriesWider(entries[1..]);
    }
  }

  // ---------------------------------------------------------------- with an escaped NUL

  lemma NulRefused(s: Bytes, i: nat, c: SChar, end: nat)
    requires CharOk(c, Rfc) && NulChar(c) && Has(s, i, CharText(c))
    ensures DecodeOne(s, i, end) == None
  {
    hide FromUtf8, Utf8, IsHex4, Hex4, Has;
    HasByte(s, i, CharText(c), 0);
    HasByte(s, i, CharText(c), 1);
    HasSplit(s, i, [0x5C, 0x75], c.h);
    Hex4Is(s, i + 2, c.h, 0);
  }

  lemma OneWider(c: SChar)
    requires CharOk(c, Rfc) && !NulChar(c)
    ensures CharOk(c, Lenient)
  {
  }

  lemma {:induction false} CharsRefused(s: Bytes, i: nat, cs: seq<SChar>, end: nat)
    requires CharsOk(cs, Rfc) && NulChars(cs) && Has(s, i, CharsText(cs)) && i + |CharsText(cs)| <= end
    ensures Decode(s, i, end) == None
    decreases |cs|
  {
    hide Has, DecodeOne, Decode, CharText, CharBytes, CharOk, NulChar;
    var e, rest := CharText(cs[0]), CharsText(cs[1..]);
    assert cs[0] in cs;
    HasSplit(s, i, e, rest);
    SomeText(cs[0]);
    JsonBuffers.DecodeStep(s, i, end);
    if NulChar(cs[0]) {
      NulRefused(s, i, cs[0], end);
    } else {
      OneWider(cs[0]);
      CharDecodes(s, i, cs[0], end);
      CharsRefused(s, i + |e|, cs[1..], end);
    }
  }

  lemma StringRefused(s: Bytes, i: nat, cs: seq<SChar>)
    requires CharsOk(cs, Rfc) && NulChars(cs) && Has(s, i, StringText(cs))
    ensures ParseString(s, i) == Fail && Ch(s, i) == 0x22
  {
    hide Has, CharsOk, Decode, EndQuote, NulChars;
    var body := CharsText(cs);
    Enclosed(s, i, 0x22, body, 0x22);
    CharsEnd(s, i + 1, cs, Rfc);
    CharsRefused(s, i + 1, cs, i + 1 + |body|);
  }

  lemma {:induction false} ValueRefused(s: Bytes, i: nat, x: Syntax)
    requires SyntaxOk(x, Rfc) && HasNul(x) && Has(s, i, Text(x))
    ensures ParseValue(s, i) == Fail
    decreases x, 1
  {
    hide *;
    NulKinds(x);
    if x.SString? {
      StringValue(x, Rfc);
      StringRefused(s, i, x.chars);
      AtString(s, i);
    } else if x.SArray? {
      ArrayParts(s, i, x, Rfc);
      AtArray(s, i);
      ItemsRefused(s, i + 1, x.items);
      var j := Skip(s, i + 1);
      SkipOne(s, j);
      ItemsStep(s, i + 1);
      ItemsStep(s, j);
    } else {
      ObjectParts(s, i, x, Rfc);
      AtObject(s, i);
      EntriesRefused(s, i + 1, x.entries);
      var j := Skip(s, i + 1);
      SkipOne(s, j);
      MembersStep(s, i + 1);
      MembersStep(s, j);
    }
  }

  lemma NulKinds(x: Syntax)
    requires HasNul(x)
    ensures (x.SString? && NulChars(x.chars)) || (x.SArray? && x.items != [] && ItemsHaveNul(x.items))
            || (x.SObject? && x.entries != [] && EntriesHaveNul(x.entries))
  {
  }

  lemma NulPlace(items: seq<Item>, entries: seq<Entry>)
    ensures ItemsHaveNul(items) ==> items != [] && (HasNul(items[0].value) || ItemsHaveNul(items[1..]))
    ensures EntriesHaveNul(entries) ==>
      entries != []
      && (NulChars(entries[0].name) || HasNul(entries[0].item.value) || EntriesHaveNul(entries[1..]))
    ensures !ItemsHaveNul([]) && !EntriesHaveNul([])
  {
  }

  lemma {:induction false} ItemsRefused(s: Bytes, i: nat, items: seq<Item>)
    requires items != [] && ItemsOk(items, Rfc) && ItemsHaveNul(items) && Has(s, i, ItemsText(items))
    ensures ParseItems(s, i) == Fail
    ensures Ch(s, Skip(s, i)) > 32 && Ch(s, Skip(s, i)) != 0x5D
    decreases items, 0
  {
    hide *;
    NulPlace(items, []);
    ItemsParts(s, i, items, Rfc);
    var x := items[0];
    ItemParts(s, i, x, Rfc);
    ItemValueOk(x, Rfc);
    var a := i + |x.before|;
    ItemsStep(s, i);
    if HasNul(x.value) {
      ValueRefused(s, a, x.value);
    } else {
      Wider(x.value);
      ValueParses(s, a, x.value);
      var j := i + |ItemText(x)|;
      SkipOne(s, j);
      ItemsRefused(s, j + 1, items[1..]);
    }
  }

  lemma {:induction false} EntriesRefused(s: Bytes, i: nat, entries: seq<Entry>)
    requires entries != [] && EntriesOk(entries, Rfc) && EntriesHaveNul(entries) && Has(s, i, EntriesText(entries))
    ensures ParseMembers(s, i) == Fail
    ensures Ch(s, Skip(s, i)) == 0x22
    decreases entries, 0
  {
    hide *;
    NulPlace([], entries);
    EntriesParts(s, i, entries, Rfc);
    var x := entries[0];
    EntryParts(s, i, x);
    var a := i + |x.before|;
    SkipBlanks(s, i, x.before, Rfc);
    MembersStep(s, i);
    if NulChars(x.name) {
      StringRefused(s, a, x.name);
      SkipOne(s, a);
    } else {
      var b := a + |StringText(x.name)|;
      var c := b + |x.mid|;
      CharsWider(x.name);
      StringParses(s, a, x.name);
      SkipOne(s, a);
      SkipBlanks(s, b, x.mid, Rfc);
      SkipOne(s, c);
      ItemParts(s, c + 1, x.item, Rfc);
      ItemValueOk(x.item, Rfc);
      var d := c + 1 + |x.item.before|;
      if HasNul(x.item.value) {
        ValueRefused(s, d, x.item.value);
      } else {
        Wider(x.item.value);
        ValueParses(s, d, x.item.value);
        var j := i + |EntryText(x)|;
        SkipOne(s, j);
        EntriesRefused(s, j + 1, entries[1..]);
      }
    }
  }

  // ---------------------------------------------------------------- the result

  lemma AtEnd(s: Bytes)
    ensures Ch(s, |s|) == 0 && Skip(s, |s|) == |s|
  {
  }

  /** JSON-text of section 2: a value between white space. */
  lemma RfcExact(before: Bytes, x: Syntax, after: Bytes, whole: bool)
    requires Blanks(before, Rfc) && SyntaxOk(x, Rfc) && Blanks(after, Rfc)
    ensures Parse(before + Text(x) + after, whole) == if HasNul(x) then None else Some(Tree(x))
  {
    hide Blanks, SyntaxOk, Text, Tree, HasNul, ParseValue, Skip, Has, Ch;
    var s := before + Text(x) + after;
    var a, e := |before|, |before + Text(x)|;
    Pieces(before, Text(x), after);
    SkipBlanks(s, 0, before, Rfc);
    ValueStart(s, a, x);
    SkipBlanks(s, e, after, Rfc);
    AtEnd(s);
    if HasNul(x) {
      ValueRefused(s, a, x);
    } else {
      Wider(x);
      ValueParses(s, a, x);
    }
  }

  lemma Pieces(a: Bytes, b: Bytes, c: Bytes)
    ensures var s := a + b + c; Has(s, 0, a) && Has(s, |a|, b) && Has(s, |a + b|, c)
  {
  }
}
