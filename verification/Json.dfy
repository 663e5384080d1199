/** The JSON tree printer and parser of src/cJSON.c, without numbers.  Text is a C string:
    bytes up to, and not including, a terminating NUL. */
module Json {
  import opened Basics

  datatype Json =
    | Null | False | True
    | Str(text: Bytes)
    | Arr(items: seq<Json>)
    | Obj(members: seq<Member>)

  datatype Member = Member(name: Bytes, value: Json)

  // ---------------------------------------------------------------- text

  /** The byte at i; the end of the text reads as NUL. */
  function Ch(s: Bytes, i: nat): Byte { if i < |s| then s[i] else 0 }

  predicate Has(s: Bytes, i: nat, t: Bytes) {
    i + |t| <= |s| && forall k :: 0 <= k < |t| ==> s[i + k] == t[k]
  }

  const NULL_TEXT: Bytes := [0x6E, 0x75, 0x6C, 0x6C]
  const FALSE_TEXT: Bytes := [0x66, 0x61, 0x6C, 0x73, 0x65]
  const TRUE_TEXT: Bytes := [0x74, 0x72, 0x75, 0x65]

  const QUOTE: Byte := 0x22
  const BACKSLASH: Byte := 0x5C
  const COMMA: Byte := 0x2C
  const COLON: Byte := 0x3A
  const LBRACKET: Byte := 0x5B
  const RBRACKET: Byte := 0x5D
  const LBRACE: Byte := 0x7B
  const RBRACE: Byte := 0x7D
  const TAB: Byte := 9
  const NEWLINE: Byte := 10

  // ---------------------------------------------------------------- strings, printing

  function HexDigit(n: nat): Byte
    requires n < 16
  {
    if n < 10 then 0x30 + n else 0x61 + n - 10
  }

  /** The letter of a two-character escape, if there is one. */
  function ShortEscape(b: Byte): Option<Byte> {
    if b == QUOTE || b == BACKSLASH then Some(b)
    else if b == 8 then Some(0x62)
    else if b == 12 then Some(0x66)
    else if b == 10 then Some(0x6E)
    else if b == 13 then Some(0x72)
    else if b == 9 then Some(0x74)
    else None
  }

  function Escape(b: Byte): Bytes {
    if ShortEscape(b).Some? then [BACKSLASH, ShortEscape(b).value]
    else if b > 31 then [b]
    else [BACKSLASH, 0x75, 0x30, 0x30, HexDigit(b / 16), HexDigit(b % 16)]
  }

  function EscapeAll(s: Bytes): Bytes { if s == [] then [] else Escape(s[0]) + EscapeAll(s[1..]) }

  function PrintString(s: Bytes): Bytes { [QUOTE] + EscapeAll(s) + [QUOTE] }

  // ---------------------------------------------------------------- strings, parsing

  function HexValue(b: Byte): (v: Option<nat>)
    ensures v.Some? ==> v.value < 16
  {
    if 0x30 <= b <= 0x39 then Some(b - 0x30)
    else if 0x41 <= b <= 0x46 then Some(b - 0x41 + 10)
    else if 0x61 <= b <= 0x66 then Some(b - 0x61 + 10)
    else None
  }

  /** Four hexadecimal digits; 0 also if they are not. */
  function Hex4(s: Bytes, i: nat): (h: nat)
    ensures h < 0x1_0000
  {
    var a, b, c, d := HexValue(Ch(s, i)), HexValue(Ch(s, i + 1)), HexValue(Ch(s, i + 2)), HexValue(Ch(s, i + 3));
    if a == None || b == None || c == None || d == None then 0
    else a.value * 0x1000 + b.value * 0x100 + c.value * 0x10 + d.value
  }

  /** Section 3 of RFC 3629. */
  function Utf8(cp: nat): (u: Bytes)
    requires 0 < cp < 0x11_0000
    ensures 1 <= |u| <= 4
  {
    if cp < 0x80 then [cp]
    else if cp < 0x800 then [0xC0 + cp / 64, 0x80 + cp % 64]
    else if cp < 0x1_0000 then [0xE0 + cp / 4096, 0x80 + cp / 64 % 64, 0x80 + cp % 64]
    else [0xF0 + cp / 0x4_0000, 0x80 + cp / 4096 % 64, 0x80 + cp / 64 % 64, 0x80 + cp % 64]
  }

  datatype Piece = Piece(bytes: Bytes, len: nat)

  /** utf16_literal_to_utf8: one or two \uXXXX sequences at p, before end. */
  function Utf16Literal(s: Bytes, p: nat, end: nat): Option<Piece> {
    if end < p + 6 then None
    else
      var first := Hex4(s, p + 2);
      if 0xDC00 <= first <= 0xDFFF || first == 0 then None
      else if 0xD800 <= first <= 0xDBFF then
        if end < p + 12 || Ch(s, p + 6) != BACKSLASH || Ch(s, p + 7) != 0x75 then None
        else
          var second := Hex4(s, p + 8);
          if second < 0xDC00 || second > 0xDFFF then None
          else Some(Piece(Utf8(0x1_0000 + (first - 0xD800) * 0x400 + (second - 0xDC00)), 12))
      else Some(Piece(Utf8(first), 6))
  }

  /** The escape letter's meaning. */
  function Unescape(b: Byte): Option<Byte> {
    if b == 0x62 then Some(8)
    else if b == 0x66 then Some(12)
    else if b == 0x6E then Some(10)
    else if b == 0x72 then Some(13)
    else if b == 0x74 then Some(9)
    else if b == QUOTE || b == BACKSLASH || b == 0x2F then Some(b)
    else None
  }

  /** One byte or one escape sequence of a string body. */
  function DecodeOne(s: Bytes, p: nat, end: nat): (r: Option<Piece>)
    ensures r.Some? ==> r.value.len > 0
  {
    if Ch(s, p) != BACKSLASH then Some(Piece([Ch(s, p)], 1))
    else if Ch(s, p + 1) == 0x75 then Utf16Literal(s, p, end)
    else if Unescape(Ch(s, p + 1)).Some? then Some(Piece([Unescape(Ch(s, p + 1)).value], 2))
    else None
  }

  function Decode(s: Bytes, p: nat, end: nat): Option<Bytes>
    decreases end - p
  {
    if p >= end then Some([])
    else
      var one := DecodeOne(s, p, end);
      if one == None then None
      else
        var rest := Decode(s, p + one.value.len, end);
        if rest == None then None else Some(one.value.bytes + rest.value)
  }

  /** The closing quote, stepping over escaped characters. */
  function EndQuote(s: Bytes, i: nat): (r: Option<nat>)
    ensures r.Some? ==> i <= r.value < |s| && s[r.value] == QUOTE
    decreases |s| - i
  {
    if Ch(s, i) == QUOTE then Some(i)
    else if Ch(s, i) == 0 then None
    else if Ch(s, i) == BACKSLASH then (if Ch(s, i + 1) == 0 then None else EndQuote(s, i + 2))
    else EndQuote(s, i + 1)
  }

  datatype Parsed<T> = Fail | Ok(value: T, end: nat)

  function ParseString(s: Bytes, i: nat): (r: Parsed<Bytes>)
    ensures r.Ok? ==> i < r.end <= |s|
  {
    if Ch(s, i) != QUOTE then Fail
    else
      var end := EndQuote(s, i + 1);
      if end == None then Fail
      else
        var text := Decode(s, i + 1, end.value);
        if text == None then Fail else Ok(text.value, end.value + 1)
  }

  // ---------------------------------------------------------------- trees, printing

  function Tabs(n: nat): Bytes { seq(n, _ => TAB) }

  // White space written only in formatted output.

  function TabsIf(fmt: bool, n: nat): Bytes { if fmt then Tabs(n) else [] }

  function NewlineIf(fmt: bool): Bytes { if fmt then [NEWLINE] else [] }

  function ColonIf(fmt: bool): Bytes { if fmt then [COLON, TAB] else [COLON] }

  function PrintValue(v: Json, depth: nat, fmt: bool): Bytes
    decreases v, 1
  {
    match v
    case Null => NULL_TEXT
    case False => FALSE_TEXT
    case True => TRUE_TEXT
    case Str(text) => PrintString(text)
    case Arr(items) =>
      if items == [] then [LBRACKET, RBRACKET]
      else [LBRACKET] + PrintItems(items, depth + 1, fmt) + [RBRACKET]
    case Obj(members) =>
      if members == [] then [LBRACE] + NewlineIf(fmt) + TabsIf(fmt, depth) + [RBRACE]
      else [LBRACE] + NewlineIf(fmt) + PrintMembers(members, depth + 1, fmt) + TabsIf(fmt, depth) + [RBRACE]
  }

  function Separator(fmt: bool): Bytes { if fmt then [COMMA, 0x20] else [COMMA] }

  function PrintItems(items: seq<Json>, depth: nat, fmt: bool): Bytes
    requires items != []
    decreases items, 0
  {
    PrintValue(items[0], depth, fmt)
    + (if |items| == 1 then [] else Separator(fmt) + PrintItems(items[1..], depth, fmt))
  }

  function PrintMember(m: Member, depth: nat, fmt: bool): Bytes
    decreases m, 2
  {
    TabsIf(fmt, depth) + PrintString(m.name) + ColonIf(fmt) + PrintValue(m.value, depth, fmt)
  }

  function PrintMembers(members: seq<Member>, depth: nat, fmt: bool): Bytes
    requires members != []
    decreases members, 0
  {
    var first := PrintMember(members[0], depth, fmt);
    if |members| == 1 then first + NewlineIf(fmt)
    else first + [COMMA] + NewlineIf(fmt) + PrintMembers(members[1..], depth, fmt)
  }

  // ---------------------------------------------------------------- trees, parsing

  function Skip(s: Bytes, i: nat): (j: nat)
    ensures i <= j && (i <= |s| ==> j <= |s|)
    decreases |s| - i
  {
    if 0 < Ch(s, i) <= 32 then Skip(s, i + 1) else i
  }

  /** parse_value; values that start like a number are outside this model and fail. */
  function ParseValue(s: Bytes, i: nat): (r: Parsed<Json>)
    ensures r.Ok? ==> i < r.end <= |s|
    decreases |s| - i, 2
  {
    if Has(s, i, NULL_TEXT) then Ok(Null, i + 4)
    else if Has(s, i, FALSE_TEXT) then Ok(False, i + 5)
    else if Has(s, i, TRUE_TEXT) then Ok(True, i + 4)
    else if Ch(s, i) == QUOTE then
      var r := ParseString(s, i);
      if r == Fail then Fail else Ok(Str(r.value), r.end)
    else if Ch(s, i) == LBRACKET then
      var j := Skip(s, i + 1);
      if Ch(s, j) == RBRACKET then Ok(Arr([]), j + 1)
      else
        var r := ParseItems(s, j);
        if r == Fail then Fail else Ok(Arr(r.value), r.end)
    else if Ch(s, i) == LBRACE then
      var j := Skip(s, i + 1);
      if Ch(s, j) == RBRACE then Ok(Obj([]), j + 1)
      else
        var r := ParseMembers(s, j);
        if r == Fail then Fail else Ok(Obj(r.value), r.end)
    else Fail
  }

  /** The element loop of parse_array, up to and including the closing bracket. */
  function ParseItems(s: Bytes, i: nat): (r: Parsed<seq<Json>>)
    ensures r.Ok? ==> i < r.end <= |s|
    decreases |s| - i, 3
  {
    var v := ParseValue(s, Skip(s, i));
    if v == Fail then Fail
    else
      var j := Skip(s, v.end);
      if Ch(s, j) == COMMA then
        var rest := ParseItems(s, j + 1);
        if rest == Fail then Fail else Ok([v.value] + rest.value, rest.end)
      else if Ch(s, j) == RBRACKET then Ok([v.value], j + 1)
      else Fail
  }

  function ParseMembers(s: Bytes, i: nat): (r: Parsed<seq<Member>>)
    ensures r.Ok? ==> i < r.end <= |s|
    decreases |s| - i, 3
  {
    var n := ParseString(s, Skip(s, i));
    if n == Fail then Fail
    else
      var c := Skip(s, n.end);
      if Ch(s, c) != COLON then Fail
      else
        var v := ParseValue(s, Skip(s, c + 1));
        if v == Fail then Fail
        else
          var j := Skip(s, v.end);
          if Ch(s, j) == COMMA then
            var rest := ParseMembers(s, j + 1);
            if rest == Fail then Fail else Ok([Member(n.value, v.value)] + rest.value, rest.end)
          else if Ch(s, j) == RBRACE then Ok([Member(n.value, v.value)], j + 1)
          else Fail
  }

  /** cJSON_ParseWithOpts, with or without the demand that nothing follows. */
  function Parse(s: Bytes, whole: bool): Option<Json> {
    var v := ParseValue(s, Skip(s, 0));
    if v == Fail || (whole && Ch(s, Skip(s, v.end)) != 0) then None else Some(v.value)
  }
}
