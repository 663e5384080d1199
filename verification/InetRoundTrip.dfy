/** Parsing undoes printing for every internet address, and what "::" does in a full address. */
module InetRoundTrip {
  import opened Basics
  import opened Inet
  import Text

  // ---------------------------------------------------------------- IPv4

  lemma {:induction false} DecimalParses(n: nat, rest: string, q: Quad)
    requires n < 256 && !q.saw && q.cur == 0 && q.octets < 4
    ensures Pton4From(Decimal(n) + rest, q) == Pton4From(rest, Quad(q.done, n, true, q.octets + 1))
  {
    DigitValues(n % 10);
    var d, s := Digit(n % 10), Decimal(n) + rest;
    if n < 10 {
      assert s[0] == d && s[1..] == rest;
    } else {
      DecimalParses(n / 10, [d] + rest, q);
      assert s == Decimal(n / 10) + ([d] + rest);
      assert ([d] + rest)[0] == d && ([d] + rest)[1..] == rest;
    }
  }

  lemma DotParses(rest: string, q: Quad)
    requires q.saw && q.octets != 4
    ensures Pton4From("." + rest, q) == Pton4From(rest, Quad(q.done + [q.cur], 0, false, q.octets))
  {
    assert ("." + rest)[1..] == rest;
  }

  lemma RoundTrip4(a: Address4)
    ensures Pton4(Dotted(a)) == Some(a)
  {
    hide Pton4From, Decimal;
    var t3 := Decimal(a[3]);
    var t2 := Decimal(a[2]) + ("." + t3);
    var t1 := Decimal(a[1]) + ("." + t2);
    DecimalParses(a[0], "." + t1, Quad([], 0, false, 0));
    DotParses(t1, Quad([], a[0], true, 1));
    DecimalParses(a[1], "." + t2, Quad([a[0]], 0, false, 1));
    DotParses(t2, Quad([a[0]], a[1], true, 2));
    DecimalParses(a[2], "." + t3, Quad(a[..2], 0, false, 2));
    DotParses(t3, Quad(a[..2], a[2], true, 3));
    assert t3 == t3 + "";
    DecimalParses(a[3], "", Quad(a[..3], 0, false, 3));
    QuadDone(a[..3], a[3]);
    assert [] + [a[0]] == [a[0]] && [a[0]] + [a[1]] == a[..2] && a[..2] + [a[2]] == a[..3];
    assert a[..3] + [a[3]] == a;
  }

  lemma QuadDone(done: Bytes, cur: Byte)
    ensures Pton4From("", Quad(done, cur, true, 4)) == Some(done + [cur])
  {
  }

  lemma {:induction false} DecimalLength(n: nat)
    requires n < 1000
    ensures 1 <= |Decimal(n)| <= 3 && (n < 100 ==> |Decimal(n)| <= 2) && (n < 10 ==> |Decimal(n)| == 1)
  {
    if n >= 10 { DecimalLength(n / 10); }
  }

  // ---------------------------------------------------------------- one token of IPv6 text

  lemma {:induction false} HexParses(n: nat, rest: string, token: string, st: Scan)
    requires n < 0x1_0000 && Sound(st) && st.val == 0
    ensures Pton6From(Hex(n) + rest, token, st) == Pton6From(rest, token, Scan(st.out, st.colon, n, true))
  {
    hide Pton6From, Digit;
    var d := Digit(n % 16);
    if n < 16 {
      DigitParses(n, rest, token, st);
    } else {
      HexParses(n / 16, [d] + rest, token, st);
      assert Hex(n) + rest == Hex(n / 16) + ([d] + rest);
      DigitParses(n % 16, rest, token, Scan(st.out, st.colon, n / 16, true));
      assert n / 16 * 16 + n % 16 == n;
    }
  }

  lemma DigitParses(d: nat, rest: string, token: string, st: Scan)
    requires d < 16 && Sound(st) && st.val * 16 + d <= 0xffff
    ensures Pton6From([Digit(d)] + rest, token, st)
            == Pton6From(rest, token, Scan(st.out, st.colon, st.val * 16 + d, true))
  {
    hide Finish, Pton4, Octets;
    DigitValues(d);
    var s := [Digit(d)] + rest;
    assert s[0] == Digit(d) && s[1..] == rest;
  }

  lemma {:induction false} HexShape(n: nat)
    requires n < 0x1_0000
    ensures Hex(n) != "" && Hex(n)[0] != ':' && |Hex(n)| <= 4
    ensures n < 0x1000 ==> |Hex(n)| <= 3
    ensures n < 0x100 ==> |Hex(n)| <= 2
  {
    if n >= 16 { HexShape(n / 16); }
  }

  /** A colon after a group. */
  lemma ColonEnds(rest: string, token: string, st: Scan)
    requires Sound(st) && st.saw && |st.out| + 2 <= 16
    ensures Pton6From(":" + rest, token, st) == Pton6From(rest, rest, Scan(st.out + Octets(st.val), st.colon, 0, false))
  {
    assert (":" + rest)[1..] == rest;
  }

  /** A second colon. */
  lemma ColonGap(rest: string, token: string, st: Scan)
    requires Sound(st) && !st.saw && st.colon == None
    ensures Pton6From(":" + rest, token, st) == Pton6From(rest, rest, Scan(st.out, Some(|st.out|), st.val, false))
  {
    assert (":" + rest)[1..] == rest;
  }

  lemma EndParses(token: string, st: Scan)
    requires Sound(st)
    ensures Pton6From("", token, st) == Finish(st)
  {
  }

  function AsHex(n: nat): nat { if n < 10 then n else AsHex(n / 10) * 16 + n % 10 }

  lemma {:induction false} AsHexBound(n: nat)
    requires n < 1000
    ensures AsHex(n) < 0x1000 && (n < 100 ==> AsHex(n) < 0x100) && (n < 10 ==> AsHex(n) < 0x10)
  {
    if n >= 10 { AsHexBound(n / 10); }
  }

  /** The first number of a dotted quad is read as hexadecimal digits until its dot is met. */
  lemma {:induction false} DecimalAsHex(n: nat, rest: string, token: string, st: Scan)
    requires n < 1000 && Sound(st) && st.val == 0
    ensures AsHex(n) < 0x1000
    ensures Pton6From(Decimal(n) + rest, token, st) == Pton6From(rest, token, Scan(st.out, st.colon, AsHex(n), true))
  {
    AsHexBound(n);
    DigitValues(n % 10);
    var d, s := Digit(n % 10), Decimal(n) + rest;
    if n < 10 {
      assert s[0] == d && s[1..] == rest;
    } else {
      DecimalAsHex(n / 10, [d] + rest, token, st);
      assert s == Decimal(n / 10) + ([d] + rest);
      assert ([d] + rest)[0] == d && ([d] + rest)[1..] == rest;
    }
  }

  lemma DotEnds(rest: string, token: string, st: Scan, quad: Address4)
    requires Sound(st) && |st.out| + 4 <= 16 && Pton4(token) == Some(quad)
    ensures Pton6From("." + rest, token, st) == Finish(Scan(st.out + quad, st.colon, st.val, false))
  {
    hide Pton4;
  }

  ghost predicate ReadsQuad(a: Address4, st: Scan, val: nat)
    requires Sound(st)
  {
    var st' := Scan(st.out + a, st.colon, val, false);
    Sound(st') && Pton6From(Dotted(a), Dotted(a), st) == Finish(st')
  }

  lemma QuadParses(a: Address4, st: Scan)
    requires Sound(st) && st.val == 0 && |st.out| + 4 <= 16
    ensures exists val :: ReadsQuad(a, st, val)
  {
    hide Pton6From, Pton4, Finish, Decimal;
    RoundTrip4(a);
    var rest := Decimal(a[1]) + ("." + (Decimal(a[2]) + ("." + Decimal(a[3]))));
    DecimalAsHex(a[0], "." + rest, Dotted(a), st);
    DotEnds(rest, Dotted(a), Scan(st.out, st.colon, AsHex(a[0]), true), a);
    assert ReadsQuad(a, st, AsHex(a[0]));
  }

  // ---------------------------------------------------------------- the words of an address

  lemma WordOctets(a: Address6, i: nat)
    requires i < 8
    ensures Octets(Word(a, i)) == a[2 * i..2 * i + 2]
  {
  }

  predicate Shortening(a: Address6, best: Option<Run>) {
    best.Some? ==> best.value.len >= 1 && Zeros(WordsOf(a), best.value)
  }

  /** Octets written once word i is the next to print. */
  function Written(a: Address6, best: Option<Run>, i: nat): Bytes
    requires i <= 8 && Shortening(a, best)
  {
    if best.Some? && best.value.base + best.value.len <= i then
      a[..2 * best.value.base] + a[2 * (best.value.base + best.value.len)..2 * i]
    else a[..2 * i]
  }

  function Gap(best: Option<Run>, i: nat): Option<nat> {
    if best.Some? && best.value.base + best.value.len <= i then Some(2 * best.value.base) else None
  }

  /** Just after word i - 1 has been read. */
  function Pending(a: Address6, best: Option<Run>, i: nat): Scan
    requires 0 < i <= 8 && Shortening(a, best)
  {
    Scan(Written(a, best, i - 1), Gap(best, i - 1), Word(a, i - 1), true)
  }

  lemma WrittenGrows(a: Address6, best: Option<Run>, i: nat)
    requires 0 < i <= 8 && Shortening(a, best) && !Inside(best, i - 1)
    ensures Written(a, best, i) == Written(a, best, i - 1) + Octets(Word(a, i - 1))
    ensures |Written(a, best, i)| <= 2 * i && Gap(best, i) == Gap(best, i - 1)
    ensures Sound(Pending(a, best, i))
  {
    hide Written, Word, Octets, Zeros, WordsOf;
    WordOctets(a, i - 1);
    WordBound(a, i - 1);
    WrittenIs(a, best, i);
    WrittenIs(a, best, i - 1);
    NextWord(a, 0, i);
    if best.Some? && best.value.base + best.value.len <= i - 1 { NextWord(a, best.value.base + best.value.len, i); }
  }

  lemma NextWord(a: Address6, e: nat, i: nat)
    requires e < i <= 8
    ensures forall x: Bytes :: x + a[2 * e..2 * i] == x + a[2 * e..2 * i - 2] + a[2 * i - 2..2 * i]
    ensures a[..2 * i] == a[..2 * i - 2] + a[2 * i - 2..2 * i]
  {
    assert a[2 * e..2 * i] == a[2 * e..2 * i - 2] + a[2 * i - 2..2 * i];
  }

  lemma WrittenIs(a: Address6, best: Option<Run>, i: nat)
    requires i <= 8 && Shortening(a, best)
    ensures best.Some? ==> best.value.base + best.value.len <= 8
    ensures Written(a, best, i) ==
            if best.Some? && best.value.base + best.value.len <= i
            then a[..2 * best.value.base] + a[2 * (best.value.base + best.value.len)..2 * i] else a[..2 * i]
  {
  }

  lemma WordBound(a: Address6, i: nat)
    requires i < 8
    ensures 0 <= Word(a, i) <= 0xffff
  {
  }

  /** The run's octets are zero, so leaving them out and shifting restores the address. */
  lemma GapRestores(a: Address6, best: Option<Run>)
    requires best.Some? && Shortening(a, best)
    ensures |Written(a, best, 8)| < 16
    ensures Shifted(Written(a, best, 8), 2 * best.value.base) == a
  {
    var b, e := best.value.base, best.value.base + best.value.len;
    var z := Zeroes(2 * best.value.len);
    forall k | 2 * b <= k < 2 * e ensures a[k] == 0 {
      assert WordsOf(a)[k / 2] == Word(a, k / 2) == 0;
    }
    assert a[2 * b..2 * e] == z;
    assert a == a[..2 * b] + z + a[2 * e..];
    var out := Written(a, best, 8);
    assert out == a[..2 * b] + a[2 * e..];
    assert out[..2 * b] == a[..2 * b] && out[2 * b..] == a[2 * e..];
  }

  lemma FinishWhole(a: Address6, best: Option<Run>, val: nat)
    requires Shortening(a, best) && val < 0x1_0000 && Sound(Scan(Written(a, best, 8), Gap(best, 8), val, false))
    ensures Finish(Scan(Written(a, best, 8), Gap(best, 8), val, false)) == Some(a)
  {
    if best.Some? { GapRestores(a, best); } else { assert a[..16] == a; }
  }

  /** The last word ends the text, unless the shortened run does. */
  lemma LastWord(a: Address6, best: Option<Run>, token: string)
    requires Shortening(a, best) && !Inside(best, 7)
    ensures Sound(Pending(a, best, 8)) && Pton6From(TextFrom(a, best, 8), token, Pending(a, best, 8)) == Some(a)
  {
    WrittenGrows(a, best, 8);
    var st := Pending(a, best, 8);
    EndParses(token, st);
    calc {
      Finish(st);
      Finish(Scan(st.out + Octets(st.val), st.colon, 0, false));
      Finish(Scan(Written(a, best, 8), Gap(best, 8), 0, false));
      { FinishWhole(a, best, 0); }
      Some(a);
    }
  }

  // ---------------------------------------------------------------- the whole text

  /** From a word outside the run that is not the first. */
  lemma {:induction false} ParsesFrom(a: Address6, best: Option<Run>, i: nat, token: string)
    requires 0 < i <= 8 && Shortening(a, best) && !Inside(best, i - 1)
    ensures Sound(Pending(a, best, i)) && Pton6From(TextFrom(a, best, i), token, Pending(a, best, i)) == Some(a)
    decreases 8 - i
  {
    hide Pton6From, Finish, Octets, Hex, Dotted, Word, TextFrom, Written, Shortening;
    WrittenGrows(a, best, i);
    var st := Pending(a, best, i);
    if i == 8 {
      LastWord(a, best, token);
    } else {
      if Inside(best, i) {
        ParsesRun(a, best, i, token);
      } else {
        var rest := AfterColon(a, best, i);
        TextAtWord(a, best, i);
        ColonEnds(rest, token, st);
        ParsesWord(a, best, i);
      }
    }
  }

  /** What follows the colon in front of word i. */
  function AfterColon(a: Address6, best: Option<Run>, i: nat): string
    requires i < 8
  {
    if i == 6 && Embedded(a, best) then Dotted(a[12..]) else Hex(Word(a, i)) + TextFrom(a, best, i + 1)
  }

  lemma TextAtWord(a: Address6, best: Option<Run>, i: nat)
    requires i < 8 && !Inside(best, i)
    ensures TextFrom(a, best, i) == (if i == 0 then "" else ":") + AfterColon(a, best, i)
  {
    hide Dotted, Hex, Embedded, Word;
  }

  lemma {:induction false} ParsesWord(a: Address6, best: Option<Run>, i: nat)
    requires i < 8 && Shortening(a, best) && !Inside(best, i)
    ensures var st := Scan(Written(a, best, i), Gap(best, i), 0, false);
      Sound(st) && Pton6From(AfterColon(a, best, i), AfterColon(a, best, i), st) == Some(a)
    decreases 8 - i, 0
  {
    hide Pton6From, Finish, Octets, Hex, Dotted, TextFrom;
    WrittenGrows(a, best, i + 1);
    var st, text := Scan(Written(a, best, i), Gap(best, i), 0, false), AfterColon(a, best, i);
    if i == 6 && Embedded(a, best) {
      EmbeddedParses(a, best);
    } else {
      HexParses(Word(a, i), TextFrom(a, best, i + 1), text, st);
      ParsesFrom(a, best, i + 1, text);
    }
  }

  lemma EmbeddedParses(a: Address6, best: Option<Run>)
    requires Shortening(a, best) && Embedded(a, best)
    ensures var st := Scan(Written(a, best, 6), Gap(best, 6), 0, false);
      Sound(st) && Pton6From(Dotted(a[12..]), Dotted(a[12..]), st) == Some(a)
  {
    hide Pton6From, Finish, Dotted;
    var st := Scan(Written(a, best, 6), Gap(best, 6), 0, false);
    QuadParses(a[12..], st);
    assert Written(a, best, 8) == Written(a, best, 6) + a[12..];
    var val :| ReadsQuad(a[12..], st, val);
    FinishWhole(a, best, val);
  }

  lemma TextStep(a: Address6, best: Option<Run>, i: nat)
    requires i < 8 && Inside(best, i)
    ensures TextFrom(a, best, i) == (if i == best.value.base then ":" else "") + TextFrom(a, best, i + 1)
  {
    hide Dotted, Hex;
    assert !(i == 6 && Embedded(a, best));
  }

  /** Inside the run nothing more is printed. */
  lemma {:induction false} TextInRun(a: Address6, best: Option<Run>, i: nat)
    requires Inside(best, i) && i > best.value.base && best.value.base + best.value.len <= 8
    ensures TextFrom(a, best, i) == TextFrom(a, best, best.value.base + best.value.len)
    decreases 8 - i
  {
    hide TextFrom;
    if i + 1 < best.value.base + best.value.len { TextInRun(a, best, i + 1); }
    TextStep(a, best, i);
    assert "" + TextFrom(a, best, i + 1) == TextFrom(a, best, i + 1);
  }

  lemma TextAtRun(a: Address6, best: Option<Run>)
    requires best.Some? && best.value.len >= 1 && best.value.base + best.value.len <= 8
    ensures TextFrom(a, best, best.value.base) == ":" + TextFrom(a, best, best.value.base + best.value.len)
  {
    hide TextFrom;
    var b := best.value.base;
    TextStep(a, best, b);
    if best.value.len > 1 { TextInRun(a, best, b + 1); }
  }

  /** The second colon of the run, then whatever comes after it. */
  lemma {:induction false} ParsesGap(a: Address6, best: Option<Run>, token: string)
    requires best.Some? && Shortening(a, best)
    ensures var e := best.value.base + best.value.len;
      var st := Scan(a[..2 * best.value.base], None, 0, false);
      Sound(st) && Pton6From(TextFrom(a, best, e), token, st) == Some(a)
    decreases 8 - (best.value.base + best.value.len), 1
  {
    hide Pton6From, Finish, Octets, Hex, Dotted, Word;
    var b, e := best.value.base, best.value.base + best.value.len;
    var st := Scan(a[..2 * b], None, 0, false);
    assert Written(a, best, e) == a[..2 * b];
    assert Gap(best, e) == Some(2 * b);
    if e == 8 {
      ColonGap("", token, st);
      assert ":" + "" == ":" == TextFrom(a, best, 8);
      EndParses("", Scan(a[..2 * b], Some(2 * b), 0, false));
      FinishWhole(a, best, 0);
    } else {
      TextAtWord(a, best, e);
      ColonGap(AfterColon(a, best, e), token, st);
      ParsesWord(a, best, e);
    }
  }

  /** The run in the middle of an address. */
  lemma {:induction false} ParsesRun(a: Address6, best: Option<Run>, i: nat, token: string)
    requires 0 < i < 8 && Shortening(a, best) && !Inside(best, i - 1) && Inside(best, i)
    ensures Sound(Pending(a, best, i)) && Pton6From(TextFrom(a, best, i), token, Pending(a, best, i)) == Some(a)
    decreases 8 - i, 0
  {
    hide Pton6From, Octets, TextFrom;
    WrittenGrows(a, best, i);
    var rest := TextFrom(a, best, i + best.value.len);
    TextAtRun(a, best);
    ColonEnds(rest, token, Pending(a, best, i));
    ParsesGap(a, best, rest);
  }

  /** Printing with any run of zero words shortened, the best one included, parses back. */
  lemma AnyShorteningParses(a: Address6, best: Option<Run>)
    requires Shortening(a, best)
    ensures Pton6(Text6(a, best)) == Some(a)
  {
    hide Pton6From, Hex, Dotted, TextFrom;
    var text := Text6(a, best);
    if Inside(best, 0) {
      TextAtRun(a, best);
      var rest := TextFrom(a, best, best.value.len);
      LeadingColons(a, best);
      assert text[1..] == rest;
      ParsesGap(a, best, rest);
      assert a[..0] == [];
    } else {
      TextAtWord(a, best, 0);
      WordFirst(a, best);
      ParsesWord(a, best, 0);
      assert text == AfterColon(a, best, 0);
      assert Written(a, best, 0) == [];
    }
  }

  lemma LeadingColons(a: Address6, best: Option<Run>)
    requires Inside(best, 0) && Shortening(a, best)
    ensures TextFrom(a, best, best.value.len) != "" && TextFrom(a, best, best.value.len)[0] == ':'
  {
    var e := best.value.len;
    if e < 8 { TextAtWord(a, best, e); }
  }

  lemma WordFirst(a: Address6, best: Option<Run>)
    requires !Inside(best, 0)
    ensures AfterColon(a, best, 0) != "" && AfterColon(a, best, 0)[0] != ':'
  {
    HexShape(Word(a, 0));
  }

  /** For every address, inet_pton6 gives back what inet_ntop6 printed. */
  lemma RoundTrip6(a: Address6, best: Option<Run>)
    requires IsBest(WordsOf(a), best)
    ensures Pton6(Text6(a, best)) == Some(a)
  {
    AnyShorteningParses(a, best);
  }

  // ---------------------------------------------------------------- the size of the text

  lemma {:induction false} TextLength(a: Address6, best: Option<Run>, i: nat)
    requires i <= 8 && !Embedded(a, best)
    ensures |TextFrom(a, best, i)| <= 5 * (8 - i) + 1
    decreases 8 - i
  {
    hide Hex, Dotted;
    if i < 8 {
      TextLength(a, best, i + 1);
      HexShape(Word(a, i));
    }
  }

  /** The text and its NUL fit the 46 bytes of the local buffer. */
  lemma TextFits(a: Address6, best: Option<Run>)
    requires Shortening(a, best)
    ensures |Text6(a, best)| + 1 <= 46
  {
    hide Hex, Dotted, TextFrom;
    if Embedded(a, best) {
      DottedLength(a[12..]);
      TextAtRun(a, best);
      TextAtWord(a, best, 6);
      if best.value.len == 5 {
        TextAtWord(a, best, 5);
        HexShape(Word(a, 5));
      }
    } else {
      TextLength(a, best, 0);
    }
  }

  /** Inside an IPv6 address there is always room for the IPv4 part and its NUL. */
  lemma EmbeddedRoom(a: Address6, best: Option<Run>)
    requires Shortening(a, best) && Embedded(a, best)
    ensures var text, quad := Text6(a, best), Dotted(a[12..]);
      && |quad| <= |text| && text[|text| - |quad|..] == quad
      && var room := 46 - (|text| - |quad|);
         room > |quad| && Ntop4(a[12..], room) == Some(quad)
  {
    hide Hex, Dotted, TextFrom;
    TextFits(a, best);
    TextAtRun(a, best);
    TextAtWord(a, best, 6);
    var quad := Dotted(a[12..]);
    assert TextFrom(a, best, 6) == ":" + quad;
    if best.value.len == 5 {
      TextAtWord(a, best, 5);
      assert Text6(a, best) == ":" + (":" + (Hex(Word(a, 5)) + (":" + quad)));
      assert Text6(a, best) == ((":" + ":") + Hex(Word(a, 5)) + ":") + quad;
    } else {
      assert Text6(a, best) == (":" + ":") + quad;
    }
  }

  lemma DottedLength(a: Address4)
    ensures |Dotted(a)| <= 15
  {
    hide Decimal;
    DecimalLength(a[0]);
    DecimalLength(a[1]);
    DecimalLength(a[2]);
    DecimalLength(a[3]);
  }

  // ---------------------------------------------------------------- "::" in a full address

  /** All eight words, with "::" in place of the colon before word k. */
  function FullFrom(a: Address6, k: nat, i: nat): string
    requires i <= 8
    decreases 8 - i
  {
    (if i == k then "::" else if i == 0 || i == 8 then "" else ":")
    + if i == 8 then "" else Hex(Word(a, i)) + FullFrom(a, k, i + 1)
  }

  /** The state before FullFrom(a, k, i): word i - 1 has been read. */
  function FullState(a: Address6, k: nat, i: nat): Scan
    requires 0 < i <= 8
  {
    Scan(a[..2 * i - 2], if k < i then Some(2 * k) else None, Word(a, i - 1), true)
  }

  function Cleared(a: Address6, k: nat): Bytes
    requires k <= 8
  {
    a[..2 * k] + Zeroes(16 - 2 * k)
  }

  lemma {:induction false} FullParses(a: Address6, k: nat, i: nat, token: string)
    requires k <= 8 && 0 < i <= 8
    ensures Sound(FullState(a, k, i)) && Pton6From(FullFrom(a, k, i), token, FullState(a, k, i)) == Some(Cleared(a, k))
    decreases 8 - i
  {
    hide Pton6From, FullFrom, Cleared, Hex, Word, Octets;
    WordBound(a, i - 1);
    if i == 8 {
      FullEnds(a, k, token);
    } else {
      WordBound(a, i);
      var more := FullFrom(a, k, i + 1);
      var rest := Hex(Word(a, i)) + more;
      FullColon(a, k, i, token);
      HexParses(Word(a, i), more, rest, Scan(a[..2 * i], if k < i + 1 then Some(2 * k) else None, 0, false));
      FullParses(a, k, i + 1, rest);
    }
  }

  /** The colon, or the two, before word i. */
  lemma FullColon(a: Address6, k: nat, i: nat, token: string)
    requires k <= 8 && 0 < i < 8
    ensures var rest := Hex(Word(a, i)) + FullFrom(a, k, i + 1);
      var st := Scan(a[..2 * i], if k < i + 1 then Some(2 * k) else None, 0, false);
      Sound(FullState(a, k, i)) && Sound(st)
      && Pton6From(FullFrom(a, k, i), token, FullState(a, k, i)) == Pton6From(rest, rest, st)
  {
    hide Pton6From, Hex, Word, Octets;
    WordOctets(a, i - 1);
    WordBound(a, i - 1);
    assert a[..2 * i - 2] + a[2 * i - 2..2 * i] == a[..2 * i];
    var st, rest := FullState(a, k, i), Hex(Word(a, i)) + FullFrom(a, k, i + 1);
    if i == k {
      assert FullFrom(a, k, i) == ":" + (":" + rest);
      ColonEnds(":" + rest, token, st);
      ColonGap(rest, ":" + rest, Scan(a[..2 * i], None, 0, false));
    } else {
      assert FullFrom(a, k, i) == ":" + rest;
      ColonEnds(rest, token, st);
    }
  }

  lemma FullEnds(a: Address6, k: nat, token: string)
    requires k <= 8
    ensures Pton6From(FullFrom(a, k, 8), token, FullState(a, k, 8)) == Some(Cleared(a, k))
  {
    hide Pton6From, Word;
    WordOctets(a, 7);
    assert a[..14] + a[14..16] == a;
    var st := FullState(a, k, 8);
    if k == 8 {
      assert FullFrom(a, k, 8) == ":" + (":" + "");
      ColonEnds(":" + "", token, st);
      ColonGap("", ":" + "", Scan(a, None, 0, false));
      EndParses("", Scan(a, Some(16), 0, false));
    } else {
      assert FullFrom(a, k, 8) == "";
      EndParses(token, st);
    }
  }

  /** "::" among eight words is accepted, and clears every word after it: it is ignored, as the
      comment in the code has it, exactly when those words are zero. */
  lemma GapInFullAddress(a: Address6, k: nat)
    requires k <= 8
    ensures Pton6(FullFrom(a, k, 0)) == Some(Cleared(a, k))
    ensures Pton6(FullFrom(a, k, 0)) == Some(a) <==> forall i :: k <= i < 8 ==> Word(a, i) == 0
  {
    hide Pton6From, Hex, Word;
    var rest := Hex(Word(a, 0)) + FullFrom(a, k, 1);
    var text := FullFrom(a, k, 0);
    HexShape(Word(a, 0));
    assert a[..0] == [];
    if k == 0 {
      assert text == ":" + (":" + rest);
      assert text[1..] == ":" + rest;
      ColonGap(rest, ":" + rest, Scan([], None, 0, false));
      HexParses(Word(a, 0), FullFrom(a, k, 1), rest, Scan([], Some(0), 0, false));
    } else {
      assert text == rest;
      HexParses(Word(a, 0), FullFrom(a, k, 1), rest, Scan([], None, 0, false));
    }
    FullParses(a, k, 1, rest);
    ClearedSame(a, k);
  }

  lemma ClearedSame(a: Address6, k: nat)
    requires k <= 8
    ensures Cleared(a, k) == a <==> forall i :: k <= i < 8 ==> Word(a, i) == 0
  {
    var c := Cleared(a, k);
    if c == a {
      forall i | k <= i < 8 ensures Word(a, i) == 0 {
        assert c[2 * i] == 0 && c[2 * i + 1] == 0;
      }
    } else if forall i :: k <= i < 8 ==> Word(a, i) == 0 {
      forall j | 0 <= j < 16 ensures a[j] == c[j] {
        if j >= 2 * k { assert Word(a, j / 2) == 0; }
      }
    }
  }

  // ---------------------------------------------------------------- capital letters

  /** The text in capital letters. */
  function Capitals(s: string): (r: string)
    ensures |r| == |s| && forall i :: 0 <= i < |s| ==> r[i] == Text.Upper(s[i])
  {
    seq(|s|, i requires 0 <= i < |s| => Text.Upper(s[i]))
  }

  lemma CapitalsTail(s: string)
    requires s != ""
    ensures Capitals(s)[1..] == Capitals(s[1..]) && Capitals(s)[0] == Text.Upper(s[0])
  {
  }

  lemma CapitalDigit(c: char)
    ensures HexValue(Text.Upper(c)) == HexValue(c) && DecimalValue(Text.Upper(c)) == DecimalValue(c)
    ensures (Text.Upper(c) == ':' <==> c == ':') && (Text.Upper(c) == '.' <==> c == '.')
  {
  }

  lemma {:induction false} Capital4(s: string, q: Quad)
    ensures Pton4From(Capitals(s), q) == Pton4From(s, q)
  {
    hide DecimalValue, HexValue, Capitals, Text.Upper;
    CapitalsLength(s);
    if s != "" {
      CapitalsTail(s);
      CapitalDigit(s[0]);
      var d := DecimalValue(s[0]);
      if d.Some? {
        DecimalBound(s[0]);
        var next := Digit4(q, d.value);
        if next.Some? { Capital4(s[1..], next.value); }
      } else if s[0] == '.' && q.saw && q.octets != 4 {
        Capital4(s[1..], Quad(q.done + [q.cur], 0, false, q.octets));
      }
    }
  }

  lemma CapitalsLength(s: string)
    ensures |Capitals(s)| == |s|
  {
  }

  lemma DecimalBound(c: char)
    ensures DecimalValue(c).Some? ==> DecimalValue(c).value < 10
  {
  }

  lemma {:induction false} CapitalFrom(s: string, token: string, st: Scan)
    requires Sound(st)
    ensures Pton6From(Capitals(s), Capitals(token), st) == Pton6From(s, token, st)
    decreases |s|
  {
    hide DecimalValue, HexValue, Capitals, Text.Upper, Finish, Pton4From;
    CapitalsLength(s);
    Capital4(token, Quad([], 0, false, 0));
    if s != "" {
      CapitalsTail(s);
      CapitalDigit(s[0]);
      var rest := s[1..];
      if HexValue(s[0]).Some? {
        var val := st.val * 16 + HexValue(s[0]).value;
        if val <= 0xffff { CapitalFrom(rest, token, Scan(st.out, st.colon, val, true)); }
      } else if s[0] == ':' {
        if !st.saw {
          if st.colon.None? { CapitalFrom(rest, rest, Scan(st.out, Some(|st.out|), st.val, false)); }
        } else if |st.out| + 2 <= 16 {
          CapitalFrom(rest, rest, Scan(st.out + Octets(st.val), st.colon, 0, false));
        }
      }
    }
  }

  /** An address in capital letters is the same address. */
  lemma CapitalsSame(s: string)
    ensures Pton6(Capitals(s)) == Pton6(s) && Pton4(Capitals(s)) == Pton4(s)
  {
    hide Capitals, Text.Upper, Pton6From, Pton4From;
    CapitalsLength(s);
    Capital4(s, Quad([], 0, false, 0));
    CapitalFrom(s, s, Scan([], None, 0, false));
    if s != "" {
      CapitalsTail(s);
      CapitalDigit(s[0]);
      CapitalFrom(s[1..], s[1..], Scan([], None, 0, false));
      if |s| > 1 {
        CapitalsTail(s[1..]);
        CapitalDigit(s[1]);
      }
    }
  }
}
