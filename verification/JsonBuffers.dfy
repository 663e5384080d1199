/** The sizes src/cJSON.c computes before it writes, and its two string loops with their buffers. */
module JsonBuffers {
  import opened Basics
  import opened Json
  import opened JsonGrammar
  import opened JsonRoundTrip

  // ---------------------------------------------------------------- printing strings

  lemma {:induction false} EscapeAllAppend(t: Bytes, b: Byte)
    ensures EscapeAll(t + [b]) == EscapeAll(t) + Escape(b)
  {
    if t == [] {
      assert [] + [b] == [b] && [b][1..] == [];
      assert EscapeAll([b]) == Escape(b) + EscapeAll([]);
    } else {
      assert (t + [b])[1..] == t[1..] + [b];
      EscapeAllAppend(t[1..], b);
    }
  }

  predicate Plain(b: Byte) { b > 31 && b != QUOTE && b != BACKSLASH }

  lemma {:induction false} PlainText(t: Bytes)
    requires forall k :: 0 <= k < |t| ==> Plain(t[k])
    ensures EscapeAll(t) == t
  {
    if t != [] {
      PlainText(t[1..]);
      assert t == [t[0]] + t[1..];
    }
  }

  /** The bytes one character adds to the computed length. */
  function Extent(b: Byte): nat {
    if ShortEscape(b).Some? then 2 else if b < 32 then 6 else 1
  }

  /** Both length computations of print_string_ptr are exact: quotes, text and NUL fill the
      allocation and nothing is left over. */
  method PrintStringPtr(str: Bytes) returns (out: array<Byte>)
    requires NulFree(str)
    ensures fresh(out)
    ensures out[..] == PrintString(str) + [0]
  {
    var flag := NeedsEscape(str);
    if !flag {
      PlainText(str);
      out := new Byte[|str| + 3](_ => 0);
      out[0] := QUOTE;
      forall k | 0 <= k < |str| { out[k + 1] := str[k]; }
      out[|str| + 1] := QUOTE;
      assert out[..] == [QUOTE] + str + [QUOTE] + [0];
    } else {
      var len := EscapedLength(str);
      out := new Byte[len + 3](_ => 0);
      CopyEscaped(str, out);
    }
  }

  /** The flag loop. */
  method NeedsEscape(str: Bytes) returns (flag: bool)
    requires NulFree(str)
    ensures flag <==> exists k :: 0 <= k < |str| && !Plain(str[k])
  {
    flag := false;
    for i := 0 to |str|
      invariant flag <==> exists k :: 0 <= k < i && !Plain(str[k])
    {
      assert str[i] in str;
      if !Plain(str[i]) { flag := true; }
    }
  }

  method EscapedLength(str: Bytes) returns (len: nat)
    requires NulFree(str)
    ensures len == |EscapeAll(str)|
  {
    len := 0;
    for i := 0 to |str|
      invariant len == |EscapeAll(str[..i])|
    {
      EscapeAllAppend(str[..i], str[i]);
      assert str[..i + 1] == str[..i] + [str[i]];
      len := len + Extent(str[i]);
    }
    assert str[..|str|] == str;
  }

  lemma {:induction false} EscapeAllPrefix(str: Bytes, i: nat)
    requires i < |str|
    ensures EscapeAll(str[..i + 1]) == EscapeAll(str[..i]) + Escape(str[i])
    ensures |EscapeAll(str[..i])| + |Escape(str[i])| <= |EscapeAll(str)|
    decreases |str| - i
  {
    assert str[..i + 1] == str[..i] + [str[i]];
    EscapeAllAppend(str[..i], str[i]);
    if i + 1 < |str| { EscapeAllPrefix(str, i + 1); } else { assert str[..i + 1] == str; }
  }

  /** The copy loop, into a buffer that starts out zero. */
  method CopyEscaped(str: Bytes, out: array<Byte>)
    requires NulFree(str) && out.Length == |EscapeAll(str)| + 3
    modifies out
    ensures out[..] == PrintString(str) + [0]
  {
    var p := 1;
    out[0] := QUOTE;
    for i := 0 to |str|
      invariant p == 1 + |EscapeAll(str[..i])| <= out.Length - 2
      invariant out[..p] == [QUOTE] + EscapeAll(str[..i])
    {
      EscapeAllPrefix(str, i);
      p := WriteAll(out, p, Escape(str[i]));
    }
    assert str[..|str|] == str;
    out[p] := QUOTE;
    out[p + 1] := 0;
    assert out[..] == out[..p] + [QUOTE] + [0];
  }

  method WriteAll(out: array<Byte>, at: nat, bytes: Bytes) returns (end: nat)
    requires at + |bytes| <= out.Length
    modifies out
    ensures end == at + |bytes| && out[..end] == old(out[..at]) + bytes
  {
    for k := 0 to |bytes|
      invariant out[..at + k] == old(out[..at]) + bytes[..k]
    {
      out[at + k] := bytes[k];
      assert out[..at + k + 1] == out[..at + k] + [bytes[k]];
    }
    end := at + |bytes|;
    assert bytes[..|bytes|] == bytes;
  }

  // ---------------------------------------------------------------- parsing strings

  /** What is left to allocate for a string body that still has to be decoded: its bytes, less one
      for every escaped character. */
  function Weight(s: Bytes, p: nat, end: nat): nat
    decreases end - p
  {
    if p >= end then 0
    else if Ch(s, p) == BACKSLASH then 1 + Weight(s, p + 2, end)
    else 1 + Weight(s, p + 1, end)
  }

  lemma WeightStep(s: Bytes, p: nat, end: nat)
    requires p < end && Ch(s, p) != BACKSLASH && Ch(s, p) != QUOTE && EndQuote(s, p) == Some(end)
    ensures Weight(s, p, end) == 1 + Weight(s, p + 1, end) && EndQuote(s, p + 1) == Some(end)
  {
  }

  lemma WeightEscape(s: Bytes, p: nat, end: nat)
    requires p < end && Ch(s, p) == BACKSLASH && EndQuote(s, p) == Some(end)
    ensures Weight(s, p, end) == 1 + Weight(s, p + 2, end) && EndQuote(s, p + 2) == Some(end) && p + 2 <= end
  {
  }

  /** Four hexadecimal digits leave the scan in step. */
  lemma WeightHex(s: Bytes, p: nat, end: nat)
    requires p + 4 <= end && Hex4(s, p) != 0 && EndQuote(s, p) == Some(end)
    ensures Weight(s, p, end) == 4 + Weight(s, p + 4, end) && EndQuote(s, p + 4) == Some(end)
  {
    hide EndQuote, Weight;
    WeightStep(s, p, end);
    WeightStep(s, p + 1, end);
    WeightStep(s, p + 2, end);
    WeightStep(s, p + 3, end);
  }

  /** A decoded piece never outweighs the text it came from. */
  lemma PieceFits(s: Bytes, p: nat, end: nat)
    requires p < end && EndQuote(s, p) == Some(end) && Ch(s, p) != QUOTE && DecodeOne(s, p, end).Some?
    ensures var one := DecodeOne(s, p, end).value;
      && p + one.len <= end && EndQuote(s, p + one.len) == Some(end)
      && |one.bytes| + Weight(s, p + one.len, end) <= Weight(s, p, end)
  {
    hide EndQuote, Weight, Hex4;
    if Ch(s, p) != BACKSLASH {
      WeightStep(s, p, end);
    } else {
      WeightEscape(s, p, end);
      if Ch(s, p + 1) == 0x75 { LiteralFits(s, p, end); }
    }
  }

  lemma LiteralFits(s: Bytes, p: nat, end: nat)
    requires EndQuote(s, p + 2) == Some(end) && Utf16Literal(s, p, end).Some?
    ensures var one := Utf16Literal(s, p, end).value;
      && p + one.len <= end && EndQuote(s, p + one.len) == Some(end)
      && |one.bytes| + Weight(s, p + one.len, end) <= 1 + Weight(s, p + 2, end)
  {
    hide EndQuote, Weight, Hex4;
    WeightHex(s, p + 2, end);
    var first := Hex4(s, p + 2);
    if 0xD800 <= first <= 0xDBFF {
      WeightEscape(s, p + 6, end);
      WeightHex(s, p + 8, end);
    } else {
      assert |Utf8(first)| <= 3;
    }
  }

  /** The scan of parse_string: the closing quote, and the length to allocate. */
  method ScanString(s: Bytes, from: nat) returns (end: Option<nat>, skipped: nat)
    ensures end == EndQuote(s, from)
    ensures end.Some? ==> skipped <= end.value - from && end.value - from - skipped == Weight(s, from, end.value)
  {
    var p := from;
    skipped := 0;
    while Ch(s, p) != QUOTE && Ch(s, p) != 0
      invariant from <= p && skipped <= p - from
      invariant EndQuote(s, from) == EndQuote(s, p)
      invariant EndQuote(s, p).Some? ==>
        Weight(s, from, EndQuote(s, p).value) == p - from - skipped + Weight(s, p, EndQuote(s, p).value)
      decreases |s| - p
    {
      if Ch(s, p) == BACKSLASH {
        if Ch(s, p + 1) == 0 { return None, skipped; }
        if EndQuote(s, p).Some? { WeightEscape(s, p, EndQuote(s, p).value); }
        skipped := skipped + 1;
        p := p + 2;
      } else {
        if EndQuote(s, p).Some? { WeightStep(s, p, EndQuote(s, p).value); }
        p := p + 1;
      }
    }
    end := if Ch(s, p) == 0 then None else Some(p);
  }

  lemma DecodeStep(s: Bytes, p: nat, end: nat)
    requires p < end
    ensures var one := DecodeOne(s, p, end);
      if one == None then Decode(s, p, end) == None
      else
        var rest := Decode(s, p + one.value.len, end);
        Decode(s, p, end) == if rest == None then None else Some(one.value.bytes + rest.value)
  {
  }

  /** The decoding loop writes only inside its allocation. */
  method DecodeInto(s: Bytes, from: nat, end: nat, out: array<Byte>) returns (len: Option<nat>)
    requires EndQuote(s, from) == Some(end) && out.Length >= Weight(s, from, end) + 1
    modifies out
    ensures len.None? <==> Decode(s, from, end).None?
    ensures len.Some? ==>
        len.value < out.Length && Decode(s, from, end) == Some(out[..len.value]) && out[len.value] == 0
  {
    hide EndQuote, DecodeOne, Decode;
    var p, n := from, 0;
    assert out[..0] == [];
    Prepend(s, p, end);
    while p < end
      invariant from <= p <= end && EndQuote(s, p) == Some(end)
      invariant 0 <= n && n + Weight(s, p, end) < out.Length
      invariant Decode(s, from, end) == Prefixed(out[..n], Decode(s, p, end))
      decreases end - p
    {
      DecodeStep(s, p, end);
      var one := DecodeOne(s, p, end);
      if one == None { return None; }
      NotYetQuote(s, p, end);
      PieceFits(s, p, end);
      ghost var before := out[..n];
      n := WriteAll(out, n, one.value.bytes);
      p := p + one.value.len;
      PrefixedTwice(before, one.value.bytes, Decode(s, p, end));
    }
    DecodeDone(s, end);
    ghost var text := out[..n];
    assert text + [] == text;
    out[n] := 0;
    assert out[..n] == text;
    return Some(n);
  }

  function Prefixed(head: Bytes, rest: Option<Bytes>): Option<Bytes> {
    if rest == None then None else Some(head + rest.value)
  }

  lemma Prepend(s: Bytes, p: nat, end: nat)
    ensures Decode(s, p, end) == Prefixed([], Decode(s, p, end))
    ensures EndQuote(s, p) == Some(end) ==> p <= end
  {
    if Decode(s, p, end).Some? { assert [] + Decode(s, p, end).value == Decode(s, p, end).value; }
  }

  lemma PrefixedTwice(a: Bytes, b: Bytes, rest: Option<Bytes>)
    ensures Prefixed(a, Prefixed(b, rest)) == Prefixed(a + b, rest)
  {
    if rest.Some? { assert a + (b + rest.value) == a + b + rest.value; }
  }

  lemma NotYetQuote(s: Bytes, p: nat, end: nat)
    requires p < end && EndQuote(s, p) == Some(end)
    ensures Ch(s, p) != QUOTE
  {
  }

  /** parse_string with its buffer: what it returns is what the specification says, and every
      write, the terminating NUL included, falls inside the allocation. */
  method ParseStringPtr(s: Bytes, i: nat) returns (r: Parsed<Bytes>)
    ensures r == ParseString(s, i)
  {
    if Ch(s, i) != QUOTE { return Fail; }
    var end, skipped := ScanString(s, i + 1);
    if end == None { return Fail; }
    var allocation := end.value - i - skipped;
    var out := new Byte[allocation + 1](_ => 0);
    var len := DecodeInto(s, i + 1, end.value, out);
    if len == None { return Fail; }
    r := Ok(out[..len.value], end.value + 1);
  }

  // ---------------------------------------------------------------- room for arrays and objects

  /** The allocation of print_array. */
  function ArrayRoom(items: seq<Json>, depth: nat, fmt: bool): nat {
    if items == [] then 3 else 5 + EntriesRoom(items, depth + 1, fmt)
  }

  function EntriesRoom(items: seq<Json>, depth: nat, fmt: bool): nat {
    if items == [] then 0
    else |PrintValue(items[0], depth, fmt)| + 2 + (if fmt then 1 else 0) + EntriesRoom(items[1..], depth, fmt)
  }

  /** The allocation of print_object. */
  function ObjectRoom(members: seq<Member>, depth: nat, fmt: bool): nat {
    if members == [] then (if fmt then depth + 4 else 3)
    else 7 + (if fmt then depth + 1 else 0) + MembersRoom(members, depth + 1, fmt)
  }

  function MembersRoom(members: seq<Member>, depth: nat, fmt: bool): nat {
    if members == [] then 0
    else
      |PrintValue(members[0].value, depth, fmt)| + |PrintString(members[0].name)| + 2 + (if fmt then 2 + depth else 0)
      + MembersRoom(members[1..], depth, fmt)
  }

  lemma {:induction false} EntriesFit(items: seq<Json>, depth: nat, fmt: bool)
    requires items != []
    ensures |PrintItems(items, depth, fmt)| <= EntriesRoom(items, depth, fmt)
  {
    if |items| > 1 { EntriesFit(items[1..], depth, fmt); }
  }

  lemma {:induction false} MembersFit(members: seq<Member>, depth: nat, fmt: bool)
    requires members != []
    ensures |PrintMembers(members, depth, fmt)| <= MembersRoom(members, depth, fmt) + (if fmt then 1 else 0)
  {
    if |members| > 1 { MembersFit(members[1..], depth, fmt); }
  }

  /** The computed sizes hold the printed text and its NUL. */
  lemma PrintedFits(items: seq<Json>, members: seq<Member>, depth: nat, fmt: bool)
    ensures |PrintValue(Arr(items), depth, fmt)| + 1 <= ArrayRoom(items, depth, fmt)
    ensures |PrintValue(Obj(members), depth, fmt)| + 1 <= ObjectRoom(members, depth, fmt)
  {
    if items != [] { EntriesFit(items, depth + 1, fmt); }
    if members != [] { MembersFit(members, depth + 1, fmt); }
  }
}
