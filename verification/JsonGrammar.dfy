/** The grammar of RFC 8259 without its numbers, as syntax trees with the text they stand for, and
    the proof that the parser of src/cJSON.c accepts exactly the texts of a slightly wider one. */
module JsonGrammar {
  import opened Basics
  import opened Json

  // ---------------------------------------------------------------- UTF-8

  /** A decoder written from section 3 of RFC 3629: no overlong forms, no surrogates. */
  function FromUtf8(u: Bytes): Option<nat> {
    if |u| == 1 && u[0] < 0x80 then Some(u[0])
    else if |u| == 2 && 0xC2 <= u[0] < 0xE0 && Tail(u[1]) then Some(Join(u[0] - 0xC0, u[1]))
    else if |u| == 3 && 0xE0 <= u[0] < 0xF0 && Tail(u[1]) && Tail(u[2]) then
      var cp := Join(Join(u[0] - 0xE0, u[1]), u[2]);
      if cp < 0x800 || 0xD800 <= cp <= 0xDFFF then None else Some(cp)
    else if |u| == 4 && 0xF0 <= u[0] < 0xF5 && Tail(u[1]) && Tail(u[2]) && Tail(u[3]) then
      var cp := Join(Join(Join(u[0] - 0xF0, u[1]), u[2]), u[3]);
      if cp < 0x1_0000 || cp > 0x10_FFFF then None else Some(cp)
    else None
  }

  predicate Tail(b: Byte) { 0x80 <= b < 0xC0 }

  /** Six more bits. */
  function Join(high: nat, tail: Byte): nat
    requires Tail(tail)
  {
    high * 64 + (tail as int - 0x80)
  }

  lemma Utf8Decodes(cp: nat)
    requires 0 < cp < 0x11_0000 && !(0xD800 <= cp <= 0xDFFF)
    ensures FromUtf8(Utf8(cp)) == Some(cp)
  {
    var b, c := cp / 64 / 64, cp / 64 / 64 / 64;
    assert cp / 4096 == b && cp / 0x4_0000 == c;
    assert Join(cp / 64, 0x80 + cp % 64) == cp;
    assert Join(b, 0x80 + cp / 64 % 64) == cp / 64;
    assert Join(c, 0x80 + b % 64) == b;
    if cp < 0x80 {
    } else if cp < 0x800 {
      assert FromUtf8([0xC0 + cp / 64, 0x80 + cp % 64]) == Some(cp);
    } else if cp < 0x1_0000 {
      assert FromUtf8([0xE0 + b, 0x80 + cp / 64 % 64, 0x80 + cp % 64]) == Some(cp);
    } else {
      assert FromUtf8([0xF0 + c, 0x80 + b % 64, 0x80 + cp / 64 % 64, 0x80 + cp % 64]) == Some(cp);
    }
  }

  lemma JoinSplits(high: nat, tail: Byte)
    requires Tail(tail)
    ensures Join(high, tail) / 64 == high && 0x80 + Join(high, tail) % 64 == tail
  {
  }

  /** No two texts are the same code point. */
  lemma Utf8Unique(u: Bytes, cp: nat)
    requires FromUtf8(u) == Some(cp) && cp > 0
    ensures cp < 0x11_0000 && u == Utf8(cp)
  {
    hide Join;
    if |u| == 1 {
      assert u == [u[0]];
    } else if |u| == 2 {
      JoinSplits(u[0] - 0xC0, u[1]);
      TwoBytes(u, cp);
    } else if |u| == 3 {
      var a := Join(u[0] - 0xE0, u[1]);
      JoinSplits(u[0] - 0xE0, u[1]);
      JoinSplits(a, u[2]);
      assert cp / 4096 == cp / 64 / 64;
      assert u == [u[0], u[1], u[2]];
    } else {
      var a := Join(u[0] - 0xF0, u[1]);
      var b := Join(a, u[2]);
      JoinSplits(u[0] - 0xF0, u[1]);
      JoinSplits(a, u[2]);
      JoinSplits(b, u[3]);
      assert cp / 4096 == cp / 64 / 64 && cp / 0x4_0000 == cp / 64 / 64 / 64;
      assert u == [u[0], u[1], u[2], u[3]];
    }
  }

  lemma TwoBytes(u: Bytes, cp: nat)
    requires |u| == 2 && 0xC2 <= u[0] < 0xE0 && cp / 64 == u[0] - 0xC0 && 0x80 + cp % 64 == u[1]
    ensures 0x80 <= cp < 0x800 && u == Utf8(cp)
  {
    assert u == [u[0], u[1]];
  }

  // ---------------------------------------------------------------- the grammar

  /** The grammar of RFC 8259, or what the parser makes of it: any byte up to a space is white space,
      control characters may stand in strings, and there is no NUL. */
  datatype Dialect = Rfc | Lenient

  /** A character of a string: as it is, a two-character escape, or one or two \u escapes for the code
      point cp with its UTF-8 form u. */
  datatype SChar =
    | Raw(b: Byte)
    | Short(letter: Byte)
    | Unit(cp: nat, h: Bytes, u: Bytes)
    | Pair(cp: nat, h: Bytes, l: Bytes, u: Bytes)

  datatype Syntax =
    | SNull | SFalse | STrue
    | SString(chars: seq<SChar>)
    | SArray(gap: Bytes, items: seq<Item>)
    | SObject(gap: Bytes, entries: seq<Entry>)

  /** A value between white space; gap is the white space of an empty array or object. */
  datatype Item = Item(before: Bytes, value: Syntax, after: Bytes)

  datatype Entry = Entry(before: Bytes, name: seq<SChar>, mid: Bytes, item: Item)

  /** Section 2: space, tab, line feed, carriage return. */
  predicate Blank(b: Byte, d: Dialect) {
    if d == Rfc then b == 0x20 || b == 0x09 || b == 0x0A || b == 0x0D else 0 < b <= 0x20
  }

  predicate Blanks(w: Bytes, d: Dialect) { forall b :: b in w ==> Blank(b, d) }

  predicate IsHex(b: Byte, n: nat) {
    n < 16 && (b == "0123456789abcdef"[n] as int || b == "0123456789ABCDEF"[n] as int)
  }

  /** Four hexadecimal digits of n. */
  predicate IsHex4(h: Bytes, n: nat) {
    |h| == 4 && n < 0x1_0000
    && IsHex(h[0], n / 0x1000) && IsHex(h[1], n / 0x100 % 16) && IsHex(h[2], n / 0x10 % 16) && IsHex(h[3], n % 16)
  }

  /** Section 7: what a letter stands for behind a backslash. */
  function Meaning(letter: Byte): Option<Byte> {
    match letter
    case 0x22 => Some(0x22)
    case 0x5C => Some(0x5C)
    case 0x2F => Some(0x2F)
    case 0x62 => Some(0x08)
    case 0x66 => Some(0x0C)
    case 0x6E => Some(0x0A)
    case 0x72 => Some(0x0D)
    case 0x74 => Some(0x09)
    case _ => None
  }

  /** Section 7: a code point above 0xFFFF is written as its UTF-16 surrogate pair. */
  predicate CharOk(c: SChar, d: Dialect) {
    match c
    case Raw(b) => b != 0x22 && b != 0x5C && (if d == Rfc then b >= 0x20 else b > 0)
    case Short(letter) => Meaning(letter).Some?
    case Unit(cp, h, u) =>
      !(0xD800 <= cp <= 0xDFFF) && IsHex4(h, cp) && FromUtf8(u) == Some(cp) && (d == Lenient ==> cp > 0)
    case Pair(cp, h, l, u) =>
      && 0x1_0000 <= cp <= 0x10_FFFF && FromUtf8(u) == Some(cp)
      && IsHex4(h, 0xD800 + (cp - 0x1_0000) / 0x400) && IsHex4(l, 0xDC00 + (cp - 0x1_0000) % 0x400)
  }

  function CharText(c: SChar): Bytes {
    match c
    case Raw(b) => [b]
    case Short(letter) => [0x5C, letter]
    case Unit(_, h, _) => [0x5C, 0x75] + h
    case Pair(_, h, l, _) => [0x5C, 0x75] + h + [0x5C, 0x75] + l
  }

  function CharBytes(c: SChar): Bytes {
    match c
    case Raw(b) => [b]
    case Short(letter) => if Meaning(letter).Some? then [Meaning(letter).value] else []
    case Unit(_, _, u) => u
    case Pair(_, _, _, u) => u
  }

  predicate CharsOk(cs: seq<SChar>, d: Dialect) { forall c :: c in cs ==> CharOk(c, d) }

  function CharsText(cs: seq<SChar>): Bytes { if cs == [] then [] else CharText(cs[0]) + CharsText(cs[1..]) }

  function CharsBytes(cs: seq<SChar>): Bytes { if cs == [] then [] else CharBytes(cs[0]) + CharsBytes(cs[1..]) }

  function StringText(cs: seq<SChar>): Bytes { [0x22] + CharsText(cs) + [0x22] }

  /** Sections 3, 4 and 5. */
  predicate SyntaxOk(x: Syntax, d: Dialect)
    decreases x, 1
  {
    match x
    case SString(chars) => CharsOk(chars, d)
    case SArray(gap, items) => Blanks(gap, d) && ItemsOk(items, d)
    case SObject(gap, entries) => Blanks(gap, d) && EntriesOk(entries, d)
    case _ => true
  }

  predicate ItemOk(x: Item, d: Dialect)
    decreases x, 2
  {
    Blanks(x.before, d) && SyntaxOk(x.value, d) && Blanks(x.after, d)
  }

  predicate ItemsOk(items: seq<Item>, d: Dialect)
    decreases items, 0
  {
    items != [] ==> ItemOk(items[0], d) && ItemsOk(items[1..], d)
  }

  predicate EntriesOk(entries: seq<Entry>, d: Dialect)
    decreases entries, 0
  {
    entries != [] ==>
      && Blanks(entries[0].before, d) && CharsOk(entries[0].name, d) && Blanks(entries[0].mid, d)
      && ItemOk(entries[0].item, d) && EntriesOk(entries[1..], d)
  }

  function Text(x: Syntax): Bytes
    decreases x, 1
  {
    match x
    case SNull => [0x6E, 0x75, 0x6C, 0x6C]
    case SFalse => [0x66, 0x61, 0x6C, 0x73, 0x65]
    case STrue => [0x74, 0x72, 0x75, 0x65]
    case SString(chars) => StringText(chars)
    case SArray(gap, items) => [0x5B] + (if items == [] then gap else ItemsText(items)) + [0x5D]
    case SObject(gap, entries) => [0x7B] + (if entries == [] then gap else EntriesText(entries)) + [0x7D]
  }

  function ItemText(x: Item): Bytes
    decreases x, 2
  {
    x.before + Text(x.value) + x.after
  }

  function ItemsText(items: seq<Item>): Bytes
    requires items != []
    decreases items, 0
  {
    ItemText(items[0]) + if |items| == 1 then [] else [0x2C] + ItemsText(items[1..])
  }

  function EntryText(x: Entry): Bytes
    decreases x, 3
  {
    x.before + StringText(x.name) + x.mid + [0x3A] + ItemText(x.item)
  }

  function EntriesText(entries: seq<Entry>): Bytes
    requires entries != []
    decreases entries, 0
  {
    EntryText(entries[0]) + if |entries| == 1 then [] else [0x2C] + EntriesText(entries[1..])
  }

  /** The tree a syntax tree stands for. */
  function Tree(x: Syntax): Json
    decreases x, 1
  {
    match x
    case SNull => Null
    case SFalse => False
    case STrue => True
    case SString(chars) => Str(CharsBytes(chars))
    case SArray(_, items) => Arr(ItemsTree(items))
    case SObject(_, entries) => Obj(EntriesTree(entries))
  }

  function ItemsTree(items: seq<Item>): seq<Json>
    decreases items, 0
  {
    if items == [] then [] else [Tree(items[0].value)] + ItemsTree(items[1..])
  }

  function EntriesTree(entries: seq<Entry>): seq<Member>
    decreases entries, 0
  {
    if entries == [] then []
    else [Member(CharsBytes(entries[0].name), Tree(entries[0].item.value))] + EntriesTree(entries[1..])
  }

  // ---------------------------------------------------------------- places in a text

  lemma HasSplit(s: Bytes, i: nat, a: Bytes, b: Bytes)
    ensures Has(s, i, a + b) <==> Has(s, i, a) && Has(s, i + |a|, b)
  {
    if Has(s, i, a + b) {
      forall k | 0 <= k < |a| ensures s[i + k] == a[k] { assert (a + b)[k] == a[k]; }
      forall k | 0 <= k < |b| ensures s[i + |a| + k] == b[k] { assert (a + b)[|a| + k] == b[k]; }
    }
  }

  lemma HasByte(s: Bytes, i: nat, t: Bytes, k: nat)
    requires Has(s, i, t) && k < |t|
    ensures Ch(s, i + k) == t[k]
  {
  }

  lemma HasOne(s: Bytes, i: nat, b: Byte)
    ensures Has(s, i, [b]) <==> i < |s| && Ch(s, i) == b
  {
    assert [b][0] == b;
  }

  lemma HasSlice(s: Bytes, i: nat, j: nat)
    requires i <= j <= |s|
    ensures Has(s, i, s[i..j])
  {
  }

  // ---------------------------------------------------------------- strings: syntax is parsed

  lemma HexDigitIs(b: Byte, n: nat)
    ensures IsHex(b, n) <==> HexValue(b) == Some(n)
  {
    assert forall k :: 0 <= k < 10 ==> "0123456789abcdef"[k] as int == 0x30 + k == "0123456789ABCDEF"[k] as int;
    assert forall k :: 10 <= k < 16 ==> "0123456789abcdef"[k] as int == 0x61 + k - 10;
    assert forall k :: 10 <= k < 16 ==> "0123456789ABCDEF"[k] as int == 0x41 + k - 10;
  }

  lemma Hex4Is(s: Bytes, i: nat, h: Bytes, n: nat)
    requires Has(s, i, h) && IsHex4(h, n)
    ensures Hex4(s, i) == n
  {
    hide IsHex, HexValue;
    HasByte(s, i, h, 0);
    HasByte(s, i, h, 1);
    HasByte(s, i, h, 2);
    HasByte(s, i, h, 3);
    HexDigitIs(h[0], n / 0x1000);
    HexDigitIs(h[1], n / 0x100 % 16);
    HexDigitIs(h[2], n / 0x10 % 16);
    HexDigitIs(h[3], n % 16);
    Digits(n);
  }

  lemma Digits(n: nat)
    requires n < 0x1_0000
    ensures n / 0x1000 * 0x1000 + n / 0x100 % 16 * 0x100 + n / 0x10 % 16 * 0x10 + n % 16 == n
  {
    assert n / 0x100 == n / 0x10 / 16 && n / 0x1000 == n / 0x10 / 16 / 16;
  }

  /** One character decodes to the bytes of its code point. */
  lemma CharDecodes(s: Bytes, i: nat, c: SChar, end: nat)
    requires CharOk(c, Lenient) && Has(s, i, CharText(c)) && i + |CharText(c)| <= end
    ensures DecodeOne(s, i, end) == Some(Piece(CharBytes(c), |CharText(c)|))
  {
    hide FromUtf8, Utf8, IsHex4, Hex4, Has;
    var e := CharText(c);
    match c {
      case Raw(b) => HasByte(s, i, e, 0);
      case Short(letter) => HasByte(s, i, e, 0); HasByte(s, i, e, 1);
      case Unit(cp, h, u) =>
        HasByte(s, i, e, 0);
        HasByte(s, i, e, 1);
        HasSplit(s, i, [0x5C, 0x75], h);
        Hex4Is(s, i + 2, h, cp);
        Utf8Unique(u, cp);
        HexLength(h, cp);
      case Pair(cp, h, l, u) => PairDecodes(s, i, cp, h, l, u, end);
    }
  }

  lemma HexLength(h: Bytes, n: nat)
    requires IsHex4(h, n)
    ensures |h| == 4 && n < 0x1_0000
  {
  }

  lemma PairDecodes(s: Bytes, i: nat, cp: nat, h: Bytes, l: Bytes, u: Bytes, end: nat)
    requires CharOk(Pair(cp, h, l, u), Lenient) && Has(s, i, CharText(Pair(cp, h, l, u)))
    requires i + |CharText(Pair(cp, h, l, u))| <= end
    ensures |CharText(Pair(cp, h, l, u))| == 12 && DecodeOne(s, i, end) == Some(Piece(u, 12))
  {
    hide FromUtf8, Utf8, IsHex4, Hex4, Has;
    var k := cp - 0x1_0000;
    HexLength(h, 0xD800 + k / 0x400);
    HexLength(l, 0xDC00 + k % 0x400);
    HasSplit(s, i, [0x5C, 0x75] + h + [0x5C, 0x75], l);
    HasSplit(s, i, [0x5C, 0x75] + h, [0x5C, 0x75]);
    HasSplit(s, i, [0x5C, 0x75], h);
    HasByte(s, i, [0x5C, 0x75], 0);
    HasByte(s, i, [0x5C, 0x75], 1);
    HasByte(s, i + 6, [0x5C, 0x75], 0);
    HasByte(s, i + 6, [0x5C, 0x75], 1);
    Hex4Is(s, i + 2, h, 0xD800 + k / 0x400);
    Hex4Is(s, i + 8, l, 0xDC00 + k % 0x400);
    Utf8Unique(u, cp);
    assert k / 0x400 * 0x400 + k % 0x400 == k;
  }

  lemma QuotePlain(s: Bytes, i: nat)
    requires Ch(s, i) != 0 && Ch(s, i) != 0x22 && Ch(s, i) != 0x5C
    ensures EndQuote(s, i) == EndQuote(s, i + 1)
  {
  }

  lemma QuoteEscape(s: Bytes, i: nat)
    requires Ch(s, i) == 0x5C && Ch(s, i + 1) != 0
    ensures EndQuote(s, i) == EndQuote(s, i + 2)
  {
  }

  lemma QuoteHex(s: Bytes, i: nat, h: Bytes, n: nat)
    requires Has(s, i, h) && IsHex4(h, n)
    ensures EndQuote(s, i) == EndQuote(s, i + 4)
  {
    hide EndQuote, IsHex, Has;
    HexBytes(h, n);
    HasByte(s, i, h, 0);
    HasByte(s, i, h, 1);
    HasByte(s, i, h, 2);
    HasByte(s, i, h, 3);
    QuotePlain(s, i);
    QuotePlain(s, i + 1);
    QuotePlain(s, i + 2);
    QuotePlain(s, i + 3);
  }

  lemma HexBytes(h: Bytes, n: nat)
    requires IsHex4(h, n)
    ensures forall k :: 0 <= k < 4 ==> h[k] != 0 && h[k] != 0x22 && h[k] != 0x5C
  {
    hide IsHex;
    HexByte(h[0], n / 0x1000);
    HexByte(h[1], n / 0x100 % 16);
    HexByte(h[2], n / 0x10 % 16);
    HexByte(h[3], n % 16);
  }

  lemma HexByte(b: Byte, n: nat)
    ensures IsHex(b, n) ==> b != 0 && b != 0x22 && b != 0x5C
  {
    HexDigitIs(b, n);
  }

  /** A character does not end the string. */
  lemma CharSkipped(s: Bytes, i: nat, c: SChar, d: Dialect)
    requires CharOk(c, d) && Has(s, i, CharText(c))
    ensures EndQuote(s, i) == EndQuote(s, i + |CharText(c)|)
  {
    hide EndQuote, IsHex4, FromUtf8, Has;
    var e := CharText(c);
    HasByte(s, i, e, 0);
    if c.Raw? {
      QuotePlain(s, i);
    } else {
      HasByte(s, i, e, 1);
      QuoteEscape(s, i);
      if c.Unit? {
        HexLength(c.h, c.cp);
        HasSplit(s, i, [0x5C, 0x75], c.h);
        QuoteHex(s, i + 2, c.h, c.cp);
      }
      if c.Pair? {
        var k := c.cp - 0x1_0000;
        HexLength(c.h, 0xD800 + k / 0x400);
        HexLength(c.l, 0xDC00 + k % 0x400);
        HasSplit(s, i, [0x5C, 0x75] + c.h + [0x5C, 0x75], c.l);
        HasSplit(s, i, [0x5C, 0x75] + c.h, [0x5C, 0x75]);
        HasSplit(s, i, [0x5C, 0x75], c.h);
        HasByte(s, i + 6, [0x5C, 0x75], 0);
        HasByte(s, i + 6, [0x5C, 0x75], 1);
        QuoteHex(s, i + 2, c.h, 0xD800 + k / 0x400);
        QuoteEscape(s, i + 6);
        QuoteHex(s, i + 8, c.l, 0xDC00 + k % 0x400);
      }
    }
  }

  lemma {:induction false} CharsEnd(s: Bytes, i: nat, cs: seq<SChar>, d: Dialect)
    requires CharsOk(cs, d) && Has(s, i, CharsText(cs)) && Ch(s, i + |CharsText(cs)|) == 0x22
    ensures EndQuote(s, i) == Some(i + |CharsText(cs)|)
    decreases |cs|
  {
    hide Has, CharOk, CharText;
    if cs != [] {
      assert cs[0] in cs;
      HasSplit(s, i, CharText(cs[0]), CharsText(cs[1..]));
      CharSkipped(s, i, cs[0], d);
      CharsEnd(s, i + |CharText(cs[0])|, cs[1..], d);
    }
  }

  lemma DecodeDone(s: Bytes, i: nat)
    ensures Decode(s, i, i) == Some([])
  {
  }

  lemma DecodeMore(s: Bytes, p: nat, end: nat, one: Bytes, n: nat, rest: Bytes)
    requires n > 0 && p + n <= end && DecodeOne(s, p, end) == Some(Piece(one, n))
    requires Decode(s, p + n, end) == Some(rest)
    ensures Decode(s, p, end) == Some(one + rest)
  {
  }

  lemma {:induction false} CharsDecode(s: Bytes, i: nat, cs: seq<SChar>)
    requires CharsOk(cs, Lenient) && Has(s, i, CharsText(cs))
    ensures Decode(s, i, i + |CharsText(cs)|) == Some(CharsBytes(cs))
    decreases |cs|
  {
    hide Has, DecodeOne, Decode, CharText, CharBytes, CharOk;
    if cs == [] {
      DecodeDone(s, i);
    } else {
      var e, rest := CharText(cs[0]), CharsText(cs[1..]);
      assert cs[0] in cs;
      HasSplit(s, i, e, rest);
      SomeText(cs[0]);
      CharDecodes(s, i, cs[0], i + |e| + |rest|);
      CharsDecode(s, i + |e|, cs[1..]);
      DecodeMore(s, i, i + |e| + |rest|, CharBytes(cs[0]), |e|, CharsBytes(cs[1..]));
    }
  }

  lemma SomeText(c: SChar)
    ensures |CharText(c)| > 0
  {
  }

  /** A string of the grammar is parsed, in any surrounding text, to the bytes it stands for. */
  lemma StringParses(s: Bytes, i: nat, cs: seq<SChar>)
    requires CharsOk(cs, Lenient) && Has(s, i, StringText(cs))
    ensures ParseString(s, i) == Ok(CharsBytes(cs), i + |StringText(cs)|)
    ensures Ch(s, i) == 0x22
  {
    hide Has, CharsOk, Decode, EndQuote;
    var body := CharsText(cs);
    HasSplit(s, i, [0x22] + body, [0x22]);
    HasSplit(s, i, [0x22], body);
    HasByte(s, i, [0x22], 0);
    HasByte(s, i + 1 + |body|, [0x22], 0);
    CharsEnd(s, i + 1, cs, Lenient);
    CharsDecode(s, i + 1, cs);
  }

  // ---------------------------------------------------------------- trees: syntax is parsed

  lemma SkipOne(s: Bytes, i: nat)
    ensures Skip(s, i) == if 0 < Ch(s, i) <= 32 then Skip(s, i + 1) else i
  {
  }

  lemma {:induction false} SkipBlanks(s: Bytes, i: nat, w: Bytes, d: Dialect)
    requires Blanks(w, d) && Has(s, i, w)
    ensures Skip(s, i) == Skip(s, i + |w|)
    decreases |w|
  {
    if w != [] {
      assert w == [w[0]] + w[1..] && w[0] in w;
      HasSplit(s, i, [w[0]], w[1..]);
      HasByte(s, i, w, 0);
      SkipOne(s, i);
      SkipBlanks(s, i + 1, w[1..], d);
    }
  }

  /** Literals are told apart by their first byte. */
  lemma NotLiteral(s: Bytes, i: nat)
    ensures Has(s, i, NULL_TEXT) ==> Ch(s, i) == 0x6E
    ensures Has(s, i, FALSE_TEXT) ==> Ch(s, i) == 0x66
    ensures Has(s, i, TRUE_TEXT) ==> Ch(s, i) == 0x74
  {
    if Has(s, i, NULL_TEXT) { HasByte(s, i, NULL_TEXT, 0); }
    if Has(s, i, FALSE_TEXT) { HasByte(s, i, FALSE_TEXT, 0); }
    if Has(s, i, TRUE_TEXT) { HasByte(s, i, TRUE_TEXT, 0); }
  }

  // What the parser does at a place, by the bytes it meets there.

  lemma LiteralParses(s: Bytes, i: nat, x: Syntax)
    requires (x.SNull? || x.SFalse? || x.STrue?) && Has(s, i, Text(x))
    ensures ParseValue(s, i) == Ok(Tree(x), i + |Text(x)|)
  {
    HasByte(s, i, Text(x), 0);
    NotLiteral(s, i);
  }

  lemma AtString(s: Bytes, i: nat)
    requires Ch(s, i) == 0x22
    ensures ParseValue(s, i) == var r := ParseString(s, i); if r == Fail then Fail else Ok(Str(r.value), r.end)
  {
    NotLiteral(s, i);
  }

  lemma AtArray(s: Bytes, i: nat)
    requires Ch(s, i) == 0x5B
    ensures ParseValue(s, i) ==
      var j := Skip(s, i + 1);
      if Ch(s, j) == 0x5D then Ok(Arr([]), j + 1)
      else
        var r := ParseItems(s, j);
        if r == Fail then Fail else Ok(Arr(r.value), r.end)
  {
    NotLiteral(s, i);
  }

  lemma AtObject(s: Bytes, i: nat)
    requires Ch(s, i) == 0x7B
    ensures ParseValue(s, i) ==
      var j := Skip(s, i + 1);
      if Ch(s, j) == 0x7D then Ok(Obj([]), j + 1)
      else
        var r := ParseMembers(s, j);
        if r == Fail then Fail else Ok(Obj(r.value), r.end)
  {
    NotLiteral(s, i);
  }

  lemma ItemsStep(s: Bytes, i: nat)
    ensures ParseItems(s, i) ==
      var v := ParseValue(s, Skip(s, i));
      if v == Fail then Fail
      else
        var j := Skip(s, v.end);
        if Ch(s, j) == 0x2C then
          var rest := ParseItems(s, j + 1);
          if rest == Fail then Fail else Ok([v.value] + rest.value, rest.end)
        else if Ch(s, j) == 0x5D then Ok([v.value], j + 1)
        else Fail
  {
  }

  lemma MembersStep(s: Bytes, i: nat)
    ensures ParseMembers(s, i) ==
      var n := ParseString(s, Skip(s, i));
      if n == Fail || Ch(s, Skip(s, n.end)) != 0x3A then Fail
      else
        var v := ParseValue(s, Skip(s, Skip(s, n.end) + 1));
        if v == Fail then Fail
        else
          var j := Skip(s, v.end);
          if Ch(s, j) == 0x2C then
            var rest := ParseMembers(s, j + 1);
            if rest == Fail then Fail else Ok([Member(n.value, v.value)] + rest.value, rest.end)
          else if Ch(s, j) == 0x7D then Ok([Member(n.value, v.value)], j + 1)
          else Fail
  {
  }

  /** A value starts with a visible byte that closes nothing. */
  lemma ValueStart(s: Bytes, i: nat, x: Syntax)
    requires Has(s, i, Text(x))
    ensures Ch(s, i) > 32 && Ch(s, i) != 0x5D && Ch(s, i) != 0x7D && Skip(s, i) == i
  {
    assert |Text(x)| > 0;
    HasByte(s, i, Text(x), 0);
  }

  /** Where the parts of an item lie, and what skipping white space makes of them. */
  lemma ItemParts(s: Bytes, i: nat, x: Item, d: Dialect)
    requires ItemOk(x, d) && Has(s, i, ItemText(x))
    ensures var a := i + |x.before|;
      var e := a + |Text(x.value)|;
      && Has(s, a, Text(x.value)) && Skip(s, i) == a && Ch(s, a) > 32 && Ch(s, a) != 0x5D
      && e + |x.after| == i + |ItemText(x)| && Skip(s, e) == Skip(s, i + |ItemText(x)|)
  {
    hide Has, Text, Skip, Blanks;
    HasSplit(s, i, x.before + Text(x.value), x.after);
    HasSplit(s, i, x.before, Text(x.value));
    var a := i + |x.before|;
    ValueStart(s, a, x.value);
    SkipBlanks(s, i, x.before, d);
    SkipBlanks(s, a + |Text(x.value)|, x.after, d);
  }

  /** What is parsed from a text of the grammar, wherever it stands: its tree, up to its end. */
  lemma {:induction false} ValueParses(s: Bytes, i: nat, x: Syntax)
    requires SyntaxOk(x, Lenient) && Has(s, i, Text(x))
    ensures ParseValue(s, i) == Ok(Tree(x), i + |Text(x)|)
    decreases x, 1
  {
    hide *;
    if x.SString? {
      StringValue(x, Lenient);
      StringParses(s, i, x.chars);
      AtString(s, i);
    } else if x.SArray? {
      ArrayParses(s, i, x);
    } else if x.SObject? {
      ObjectParses(s, i, x);
    } else {
      LiteralParses(s, i, x);
    }
  }

  lemma StringValue(x: Syntax, d: Dialect)
    requires x.SString?
    ensures Text(x) == StringText(x.chars) && Tree(x) == Str(CharsBytes(x.chars))
    ensures SyntaxOk(x, d) <==> CharsOk(x.chars, d)
  {
  }

  /** A text between two brackets or braces. */
  lemma Enclosed(s: Bytes, i: nat, open: Byte, body: Bytes, close: Byte)
    requires Has(s, i, [open] + body + [close])
    ensures Ch(s, i) == open && Has(s, i + 1, body) && Ch(s, i + 1 + |body|) == close
  {
    hide Has;
    HasSplit(s, i, [open] + body, [close]);
    HasSplit(s, i, [open], body);
    HasByte(s, i, [open], 0);
    HasByte(s, i + 1 + |body|, [close], 0);
  }

  lemma ArrayParts(s: Bytes, i: nat, x: Syntax, d: Dialect)
    requires x.SArray? && SyntaxOk(x, d) && Has(s, i, Text(x))
    ensures var body := if x.items == [] then x.gap else ItemsText(x.items);
      && Ch(s, i) == 0x5B && Has(s, i + 1, body) && Ch(s, i + 1 + |body|) == 0x5D && |Text(x)| == |body| + 2
      && Tree(x) == Arr(ItemsTree(x.items)) && Blanks(x.gap, d) && ItemsOk(x.items, d)
  {
    hide Has, ItemsText, ItemsTree, ItemsOk, Blanks;
    Enclosed(s, i, 0x5B, if x.items == [] then x.gap else ItemsText(x.items), 0x5D);
  }

  lemma ObjectParts(s: Bytes, i: nat, x: Syntax, d: Dialect)
    requires x.SObject? && SyntaxOk(x, d) && Has(s, i, Text(x))
    ensures var body := if x.entries == [] then x.gap else EntriesText(x.entries);
      && Ch(s, i) == 0x7B && Has(s, i + 1, body) && Ch(s, i + 1 + |body|) == 0x7D && |Text(x)| == |body| + 2
      && Tree(x) == Obj(EntriesTree(x.entries)) && Blanks(x.gap, d) && EntriesOk(x.entries, d)
  {
    hide Has, EntriesText, EntriesTree, EntriesOk, Blanks;
    Enclosed(s, i, 0x7B, if x.entries == [] then x.gap else EntriesText(x.entries), 0x7D);
  }

  lemma NoTrees()
    ensures ItemsTree([]) == [] && EntriesTree([]) == []
  {
  }

  lemma {:induction false} ArrayParses(s: Bytes, i: nat, x: Syntax)
    requires x.SArray? && SyntaxOk(x, Lenient) && Has(s, i, Text(x))
    ensures ParseValue(s, i) == Ok(Tree(x), i + |Text(x)|)
    decreases x, 0
  {
    hide *;
    ArrayParts(s, i, x, Lenient);
    AtArray(s, i);
    if x.items == [] {
      SkipBlanks(s, i + 1, x.gap, Lenient);
      SkipOne(s, i + 1 + |x.gap|);
      NoTrees();
    } else {
      ItemsParse(s, i + 1, x.items);
      var j := Skip(s, i + 1);
      SkipOne(s, j);
      ItemsStep(s, i + 1);
      ItemsStep(s, j);
    }
  }

  lemma ItemsParts(s: Bytes, i: nat, items: seq<Item>, d: Dialect)
    requires items != [] && ItemsOk(items, d) && Has(s, i, ItemsText(items))
    ensures var j := i + |ItemText(items[0])|;
      && ItemOk(items[0], d) && Has(s, i, ItemText(items[0])) && ItemsOk(items[1..], d)
      && (|items| == 1 ==> j == i + |ItemsText(items)| && ItemsTree(items) == [Tree(items[0].value)])
      && (|items| > 1 ==>
            && Ch(s, j) == 0x2C && Has(s, j + 1, ItemsText(items[1..]))
            && i + |ItemsText(items)| == j + 1 + |ItemsText(items[1..])|
            && ItemsTree(items) == [Tree(items[0].value)] + ItemsTree(items[1..]))
  {
    hide Has, ItemText, ItemOk, Tree;
    var first := ItemText(items[0]);
    if |items| == 1 {
      assert first + [] == first;
      assert ItemsTree(items[1..]) == [];
    } else {
      var more := ItemsText(items[1..]);
      HasSplit(s, i, first, [0x2C] + more);
      HasSplit(s, i + |first|, [0x2C], more);
      HasByte(s, i + |first|, [0x2C], 0);
    }
  }

  /** The items of an array up to its closing bracket. */
  lemma {:induction false} ItemsParse(s: Bytes, i: nat, items: seq<Item>)
    requires items != [] && ItemsOk(items, Lenient) && Has(s, i, ItemsText(items))
    requires Ch(s, i + |ItemsText(items)|) == 0x5D
    ensures ParseItems(s, i) == Ok(ItemsTree(items), i + |ItemsText(items)| + 1)
    ensures Ch(s, Skip(s, i)) > 32 && Ch(s, Skip(s, i)) != 0x5D
    decreases items, 0
  {
    hide *;
    ItemsParts(s, i, items, Lenient);
    ItemParts(s, i, items[0], Lenient);
    var a := i + |items[0].before|;
    ItemValueOk(items[0], Lenient);
    ValueParses(s, a, items[0].value);
    var j := i + |ItemText(items[0])|;
    SkipOne(s, j);
    ItemsStep(s, i);
    if |items| > 1 { ItemsParse(s, j + 1, items[1..]); }
  }

  lemma ItemValueOk(x: Item, d: Dialect)
    requires ItemOk(x, d)
    ensures SyntaxOk(x.value, d)
  {
  }

  lemma {:induction false} ObjectParses(s: Bytes, i: nat, x: Syntax)
    requires x.SObject? && SyntaxOk(x, Lenient) && Has(s, i, Text(x))
    ensures ParseValue(s, i) == Ok(Tree(x), i + |Text(x)|)
    decreases x, 0
  {
    hide *;
    ObjectParts(s, i, x, Lenient);
    AtObject(s, i);
    if x.entries == [] {
      SkipBlanks(s, i + 1, x.gap, Lenient);
      SkipOne(s, i + 1 + |x.gap|);
      NoTrees();
    } else {
      EntriesParse(s, i + 1, x.entries);
      var j := Skip(s, i + 1);
      SkipOne(s, j);
      MembersStep(s, i + 1);
      MembersStep(s, j);
    }
  }

  lemma EntriesParts(s: Bytes, i: nat, entries: seq<Entry>, d: Dialect)
    requires entries != [] && EntriesOk(entries, d) && Has(s, i, EntriesText(entries))
    ensures var x, j := entries[0], i + |EntryText(entries[0])|;
      var m := Member(CharsBytes(x.name), Tree(x.item.value));
      && Blanks(x.before, d) && CharsOk(x.name, d) && Blanks(x.mid, d) && ItemOk(x.item, d)
      && Has(s, i, EntryText(x)) && EntriesOk(entries[1..], d)
      && (|entries| == 1 ==> j == i + |EntriesText(entries)| && EntriesTree(entries) == [m])
      && (|entries| > 1 ==>
            && Ch(s, j) == 0x2C && Has(s, j + 1, EntriesText(entries[1..]))
            && i + |EntriesText(entries)| == j + 1 + |EntriesText(entries[1..])|
            && EntriesTree(entries) == [m] + EntriesTree(entries[1..]))
  {
    hide Has, EntryText, ItemOk, Tree, Blanks, CharsOk, CharsBytes;
    var first := EntryText(entries[0]);
    if |entries| == 1 {
      assert first + [] == first;
      assert EntriesTree(entries[1..]) == [];
    } else {
      var more := EntriesText(entries[1..]);
      HasSplit(s, i, first, [0x2C] + more);
      HasSplit(s, i + |first|, [0x2C], more);
      HasByte(s, i + |first|, [0x2C], 0);
    }
  }

  /** Name, colon and value of a member. */
  lemma EntryParts(s: Bytes, i: nat, x: Entry)
    requires Has(s, i, EntryText(x))
    ensures var a := i + |x.before|;
      var b := a + |StringText(x.name)|;
      var c := b + |x.mid|;
      && Has(s, i, x.before) && Has(s, a, StringText(x.name)) && Has(s, b, x.mid) && Ch(s, c) == 0x3A
      && Has(s, c + 1, ItemText(x.item)) && i + |EntryText(x)| == c + 1 + |ItemText(x.item)|
  {
    hide Has, StringText, ItemText;
    var name, item := StringText(x.name), ItemText(x.item);
    HasSplit(s, i, x.before + name + x.mid + [0x3A], item);
    HasSplit(s, i, x.before + name + x.mid, [0x3A]);
    HasSplit(s, i, x.before + name, x.mid);
    HasSplit(s, i, x.before, name);
    HasByte(s, i + |x.before| + |name| + |x.mid|, [0x3A], 0);
  }

  /** The members of an object up to its closing brace. */
  lemma {:induction false} EntriesParse(s: Bytes, i: nat, entries: seq<Entry>)
    requires entries != [] && EntriesOk(entries, Lenient) && Has(s, i, EntriesText(entries))
    requires Ch(s, i + |EntriesText(entries)|) == 0x7D
    ensures ParseMembers(s, i) == Ok(EntriesTree(entries), i + |EntriesText(entries)| + 1)
    ensures Ch(s, Skip(s, i)) == 0x22
    decreases entries, 0
  {
    hide *;
    EntriesParts(s, i, entries, Lenient);
    var x := entries[0];
    EntryParts(s, i, x);
    var a := i + |x.before|;
    var b := a + |StringText(x.name)|;
    var c := b + |x.mid|;
    SkipBlanks(s, i, x.before, Lenient);
    StringParses(s, a, x.name);
    SkipOne(s, a);
    SkipBlanks(s, b, x.mid, Lenient);
    SkipOne(s, c);
    ItemParts(s, c + 1, x.item, Lenient);
    ItemValueOk(x.item, Lenient);
    ValueParses(s, c + 1 + |x.item.before|, x.item.value);
    var j := i + |EntryText(x)|;
    SkipOne(s, j);
    MembersStep(s, i);
    if |entries| > 1 { EntriesParse(s, j + 1, entries[1..]); }
  }
}
