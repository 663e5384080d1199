/** Access lists of src/acl.c.  Address words are taken by value, most significant bit first;
    unsigned long has 64 bits. */
module Acl {
  import opened Basics
  import opened KeyHash
  import opened Text

  // ---------------------------------------------------------------- bits

  /** Bitwise and. */
  function And(a: nat, b: nat): nat {
    if a == 0 || b == 0 then 0 else a % 2 * (b % 2) + 2 * And(a / 2, b / 2)
  }

  lemma {:induction false} Pow2Positive(n: nat)
    ensures Pow2(n) > 0
  {
    if n > 0 { Pow2Positive(n - 1); }
  }

  lemma {:induction false} Pow2Grows(k: nat, n: nat)
    requires k <= n
    ensures Pow2(k) <= Pow2(n)
  {
    Pow2Positive(k);
    if k < n { Pow2Grows(k, n - 1); }
  }

  lemma AndStep(a: nat, b: nat)
    ensures And(a, b) == a % 2 * (b % 2) + 2 * And(a / 2, b / 2)
  {
  }

  lemma {:induction false} AndOnes(a: nat, n: nat)
    requires a < Pow2(n)
    ensures And(a, Pow2(n) - 1) == a
  {
    Pow2Positive(n);
    if n > 0 {
      AndOnes(a / 2, n - 1);
      AndStep(a, Pow2(n) - 1);
      assert (Pow2(n) - 1) / 2 == Pow2(n - 1) - 1 && (Pow2(n) - 1) % 2 == 1;
    }
  }

  /** A mask with the top n - k of n bits set clears the last k bits. */
  lemma {:induction false} AndMask(a: nat, n: nat, k: nat)
    requires a < Pow2(n) && k <= n
    ensures Pow2(k) <= Pow2(n) && Pow2(k) > 0
    ensures And(a, Pow2(n) - Pow2(k)) == a / Pow2(k) * Pow2(k)
  {
    Pow2Grows(k, n);
    Pow2Positive(k);
    if k == 0 {
      AndOnes(a, n);
    } else {
      AndMask(a / 2, n - 1, k - 1);
      AndStep(a, Pow2(n) - Pow2(k));
      var h := Pow2(k - 1);
      assert (Pow2(n) - Pow2(k)) / 2 == Pow2(n - 1) - h && (Pow2(n) - Pow2(k)) % 2 == 0;
      HalfQuotient(a, h);
      DoubleProduct(a / Pow2(k), h);
    }
  }

  lemma HalfQuotient(a: nat, h: nat)
    requires h > 0
    ensures a / 2 / h == a / (2 * h)
  {
    var q := a / 2 / h;
    assert q * h <= a / 2 < q * h + h;
    assert q * (2 * h) == 2 * (q * h);
    QuotientIs(a, 2 * h, q);
  }

  lemma QuotientIs(a: int, b: int, q: int)
    requires b > 0 && q * b <= a < q * b + b
    ensures a / b == q
  {
    var d := a / b - q;
    assert a / b * b == q * b + d * b;
    if d >= 1 { AtLeast(d, b); }
    if d <= -1 { AtLeast(-d, b); }
  }

  lemma AtLeast(d: int, b: int)
    requires d >= 1 && b > 0
    ensures d * b >= b
  {
  }

  lemma DoubleProduct(x: int, h: int)
    ensures 2 * (x * h) == x * (2 * h)
  {
  }

  /** Bit j of a word, counted from the top. */
  function Bit(w: Word, j: nat): nat
    requires j < 32
  {
    Pow2Positive(31 - j);
    w / Pow2(31 - j) % 2
  }

  /** Two words have the same quotient exactly if they agree in their leading bits. */
  lemma {:induction false} LeadingBits(v: Word, w: Word, s: nat)
    requires s <= 32
    ensures Pow2(32 - s) > 0
    ensures v / Pow2(32 - s) == w / Pow2(32 - s) <==> forall j :: 0 <= j < s ==> Bit(v, j) == Bit(w, j)
  {
    Pow2Positive(32 - s);
    if s == 0 {
      WordBits();
    } else {
      LeadingBits(v, w, s - 1);
      var h := Pow2(32 - s);
      assert Pow2(33 - s) == 2 * h;
      QuotientStep(v, h);
      QuotientStep(w, h);
      assert Bit(v, s - 1) == v / h % 2 && Bit(w, s - 1) == w / h % 2;
    }
  }

  lemma QuotientStep(a: nat, h: nat)
    requires h > 0
    ensures a / h == 2 * (a / (2 * h)) + a / h % 2
  {
    QuotientHalf(a, h);
  }

  lemma QuotientHalf(a: nat, h: nat)
    requires h > 0
    ensures a / h / 2 == a / (2 * h)
  {
    var q := a / h / 2;
    var r := a / h;
    assert r * h <= a < r * h + h;
    assert r == 2 * q || r == 2 * q + 1;
    assert q * (2 * h) == 2 * q * h;
    if r == 2 * q + 1 { assert r * h == 2 * q * h + h; }
    QuotientIs(a, 2 * h, q);
  }

  // ---------------------------------------------------------------- masks

  /** The mask with the first s bits set. */
  function Mask(s: nat): (m: Word)
    requires s <= 32
  {
    WordBits();
    Pow2Grows(32 - s, 32);
    Pow2Positive(32 - s);
    WORD - Pow2(32 - s)
  }

  /** mask |= 1 << 31 */
  function SetTop(mask: Word): Word { if mask >= 0x8000_0000 then mask else mask + 0x8000_0000 }

  /** The loop of acl_add for IPv4. */
  method MaskLoop(prefixlen: nat) returns (mask: Word)
    requires prefixlen <= 32
    ensures mask == Mask(prefixlen)
  {
    mask := 0;
    WordBits();
    for i := 0 to prefixlen
      invariant mask == Mask(i)
    {
      HalfMask(i);
      mask := mask / 2;
      mask := SetTop(mask);
    }
  }

  lemma HalfMask(i: nat)
    requires i < 32
    ensures Mask(i) / 2 < 0x8000_0000 && Mask(i) / 2 + 0x8000_0000 == Mask(i + 1)
  {
    hide *;
    var h := Pow2(31 - i);
    MaskIs(i);
    MaskIs(i + 1);
    Pow2Positive(31 - i);
    Pow2Double(31 - i);
    Word32();
  }

  lemma MaskIs(s: nat)
    requires s <= 32
    ensures Mask(s) == WORD - Pow2(32 - s)
  {
  }

  lemma Pow2Double(n: nat)
    ensures Pow2(n + 1) == 2 * Pow2(n)
  {
  }

  lemma Word32()
    ensures WORD == 0x1_0000_0000
  {
  }

  /** The word of an IPv6 mask: 0UL - (1UL << (32UL - s)), cut to 32 bits. */
  function LongMask(s: nat): Word
    requires s <= 32
  {
    (0x1_0000_0000_0000_0000 - Pow2(32 - s)) % WORD
  }

  lemma LongMaskIs(s: nat)
    requires s <= 32
    ensures LongMask(s) == Mask(s)
  {
    WordBits();
    Pow2Grows(32 - s, 32);
    Pow2Positive(32 - s);
    var p := Pow2(32 - s);
    assert 0x1_0000_0000_0000_0000 - p == 0xFFFF_FFFF * WORD + (WORD - p);
  }

  /** Testing under the mask is comparing the first s bits. */
  lemma MaskExact(addr: Word, rule: Word, s: nat)
    requires s <= 32
    ensures And(addr, Mask(s)) == And(rule, Mask(s)) <==> forall j :: 0 <= j < s ==> Bit(addr, j) == Bit(rule, j)
  {
    hide And, Bit;
    WordBits();
    var p := Pow2(32 - s);
    hide Pow2;
    MaskIs(s);
    AndMask(addr, 32, 32 - s);
    AndMask(rule, 32, 32 - s);
    LeadingBits(addr, rule, s);
    SameProduct(addr / p, rule / p, p);
  }

  lemma SameProduct(x: int, y: int, p: int)
    requires p > 0
    ensures x * p == y * p <==> x == y
  {
    if x != y { assert (x - y) * p != 0; }
  }

  // ---------------------------------------------------------------- rules and entries

  type Words = w: seq<Word> | |w| == 4 witness [0, 0, 0, 0]

  /** What the resolver made of a netspec: one address, or nothing usable. */
  datatype Net = V4(addr: Word) | V6(words: Words) | Unresolved | OtherFamily

  /** One line of the rule file; prefix is the number after the slash, if there is one. */
  datatype Rule = Rule(net: Net, prefix: Option<int>, allow: bool)

  datatype E4 = E4(addr: Word, mask: Word, allow: bool)
  datatype E6 = E6(addr: Words, mask: Words, allow: bool)

  function PrefixLen(r: Rule): int { if r.prefix == None then 128 else r.prefix.value }

  predicate Good(r: Rule) { r.net != Unresolved && 0 <= PrefixLen(r) <= 128 }

  function Clip(n: int): (s: nat)
    ensures s <= 32
  {
    if n < 0 then 0 else if n > 32 then 32 else n
  }

  /** Whether the first prefixlen bits of an IPv4 address agree with the rule's; a longer prefix
      means the whole address. */
  ghost predicate Agrees4(r: Rule, addr: Word) {
    r.net.V4? && forall j :: 0 <= j < Clip(PrefixLen(r)) ==> Bit(addr, j) == Bit(r.net.addr, j)
  }

  /** Bit j of a 128-bit address. */
  function Bit6(w: Words, j: nat): nat
    requires j < 128
  {
    Bit(w[j / 32], j % 32)
  }

  ghost predicate Agrees6(r: Rule, addr: Words) {
    r.net.V6? && forall j :: 0 <= j < PrefixLen(r) && j < 128 ==> Bit6(addr, j) == Bit6(r.net.words, j)
  }

  function Masked(a: Word, s: nat): Word
    requires s <= 32
  {
    MaskedBound(a, s);
    And(a, Mask(s))
  }

  lemma MaskedBound(a: Word, s: nat)
    requires s <= 32
    ensures And(a, Mask(s)) < WORD
  {
    hide And;
    WordBits();
    MaskIs(s);
    AndMask(a, 32, 32 - s);
    var p := Pow2(32 - s);
    DivisionRounds(a, p);
  }

  lemma DivisionRounds(a: nat, p: nat)
    requires p > 0
    ensures a / p * p <= a
  {
  }

  function Entry4(r: Rule): E4
    requires r.net.V4?
  {
    var s := Clip(PrefixLen(r));
    E4(Masked(r.net.addr, s), Mask(s), r.allow)
  }

  function Share(prefixlen: int, i: nat): nat { Clip(prefixlen - 32 * i) }

  function Entry6(r: Rule): E6
    requires r.net.V6? && Good(r)
  {
    E6(seq(4, i requires 0 <= i < 4 => Masked(r.net.words[i], Share(PrefixLen(r), i))),
       seq(4, i requires 0 <= i < 4 => Mask(Share(PrefixLen(r), i))), r.allow)
  }

  predicate Match4(e: E4, addr: Word) { And(addr, e.mask) == e.addr }

  predicate Match6(e: E6, addr: Words) { forall i :: 0 <= i < 4 ==> And(addr[i], e.mask[i]) == e.addr[i] }

  lemma Match4Exact(r: Rule, addr: Word)
    requires r.net.V4?
    ensures Match4(Entry4(r), addr) <==> Agrees4(r, addr)
    ensures Entry4(r).allow == r.allow
  {
    hide And, Bit, Mask;
    MaskExact(addr, r.net.addr, Clip(PrefixLen(r)));
  }

  lemma Match6Exact(r: Rule, addr: Words)
    requires r.net.V6? && Good(r)
    ensures Match6(Entry6(r), addr) <==> Agrees6(r, addr)
    ensures Entry6(r).allow == r.allow
  {
    hide And, Bit, Mask;
    var e, n, w := Entry6(r), PrefixLen(r), r.net.words;
    forall i | 0 <= i < 4
      ensures And(addr[i], e.mask[i]) == e.addr[i] <==>
              forall j :: 0 <= j < Share(n, i) ==> Bit(addr[i], j) == Bit(w[i], j)
    {
      MaskExact(addr[i], w[i], Share(n, i));
    }
    if Match6(e, addr) {
      forall j | 0 <= j < n && j < 128 ensures Bit6(addr, j) == Bit6(w, j) {
        assert 0 <= j % 32 < Share(n, j / 32);
        assert And(addr[j / 32], e.mask[j / 32]) == e.addr[j / 32];
      }
    }
    if Agrees6(r, addr) {
      forall i | 0 <= i < 4 ensures And(addr[i], e.mask[i]) == e.addr[i] {
        forall j | 0 <= j < Share(n, i) ensures Bit(addr[i], j) == Bit(w[i], j) {
          assert Bit6(addr, 32 * i + j) == Bit6(w, 32 * i + j);
        }
      }
    }
  }

  // ---------------------------------------------------------------- lists

  function Entries4(rules: seq<Rule>): seq<E4> {
    if rules == [] then []
    else Entries4(rules[..|rules| - 1]) + if rules[|rules| - 1].net.V4? then [Entry4(rules[|rules| - 1])] else []
  }

  function Entries6(rules: seq<Rule>): seq<E6>
    requires forall k :: 0 <= k < |rules| ==> Good(rules[k])
  {
    if rules == [] then []
    else Entries6(rules[..|rules| - 1]) + if rules[|rules| - 1].net.V6? then [Entry6(rules[|rules| - 1])] else []
  }

  function First4(es: seq<E4>, addr: Word): bool {
    if es == [] then false else if Match4(es[0], addr) then es[0].allow else First4(es[1..], addr)
  }

  function First6(es: seq<E6>, addr: Words): bool {
    if es == [] then false else if Match6(es[0], addr) then es[0].allow else First6(es[1..], addr)
  }

  // ---------------------------------------------------------------- the code

  class Acl {
    var entries4: seq<E4>
    var entries6: seq<E6>

    constructor ()
      ensures entries4 == [] && entries6 == []
    {
      entries4, entries6 := [], [];
    }

    /** acl_add, for a netspec that resolves to at most one address. */
    method Add(r: Rule) returns (ok: bool)
      modifies this
      ensures ok <==> Good(r)
      ensures entries4 == if ok && r.net.V4? then [Entry4(r)] + old(entries4) else old(entries4)
      ensures entries6 == if ok && r.net.V6? then [Entry6(r)] + old(entries6) else old(entries6)
    {
      hide And, Mask;
      var prefixlen := 128;
      if r.net == Unresolved { return false; }
      if r.prefix.Some? {
        prefixlen := r.prefix.value;
        if prefixlen < 0 || prefixlen > 128 { return false; }
      }
      match r.net {
        case V6(words) =>
          var addr, mask := MaskWords(words, prefixlen);
          assert addr == Entry6(r).addr && mask == Entry6(r).mask;
          entries6 := [E6(addr, mask, r.allow)] + entries6;
        case V4(addr) =>
          if prefixlen > 32 { prefixlen := 32; }
          var mask := MaskLoop(prefixlen);
          entries4 := [E4(Masked(addr, prefixlen), mask, r.allow)] + entries4;
        case OtherFamily =>
      }
      return true;
    }

    /** acl_dup: a new list, built by prepending. */
    method Dup() returns (a: Acl)
      ensures fresh(a) && a.entries4 == Reverse(entries4) && a.entries6 == Reverse(entries6)
    {
      a := new Acl();
      for k := 0 to |entries4|
        invariant a.entries4 == Reverse(entries4[..k]) && a.entries6 == []
      {
        a.entries4 := [entries4[k]] + a.entries4;
        assert entries4[..k + 1][..k] == entries4[..k];
      }
      for k := 0 to |entries6|
        invariant a.entries4 == Reverse(entries4[..|entries4|]) && a.entries6 == Reverse(entries6[..k])
      {
        a.entries6 := [entries6[k]] + a.entries6;
        assert entries6[..k + 1][..k] == entries6[..k];
      }
      assert entries4[..|entries4|] == entries4 && entries6[..|entries6|] == entries6;
    }

    method Check4(addr: Word) returns (allow: bool)
      ensures allow == First4(entries4, addr)
    {
      for k := 0 to |entries4|
        invariant First4(entries4, addr) == First4(entries4[k..], addr)
      {
        if Match4(entries4[k], addr) { return entries4[k].allow; }
        assert entries4[k..][1..] == entries4[k + 1..];
      }
      return false;
    }

    method Check6(addr: Words) returns (allow: bool)
      ensures allow == First6(entries6, addr)
    {
      for k := 0 to |entries6|
        invariant First6(entries6, addr) == First6(entries6[k..], addr)
      {
        var fail, i := false, 0;
        while i < 4 && !fail
          invariant 0 <= i <= 4
          invariant fail ==> !Match6(entries6[k], addr)
          invariant !fail ==> forall j :: 0 <= j < i ==> And(addr[j], entries6[k].mask[j]) == entries6[k].addr[j]
        {
          if And(addr[i], entries6[k].mask[i]) != entries6[k].addr[i] { fail := true; }
          i := i + 1;
        }
        if !fail { return entries6[k].allow; }
        assert entries6[k..][1..] == entries6[k + 1..];
      }
      return false;
    }
  }

  /** The IPv6 mask loop, which also clears the host bits of the address. */
  method MaskWords(words: Words, prefixlen: int) returns (addr: Words, mask: Words)
    requires 0 <= prefixlen <= 128
    ensures forall i :: 0 <= i < 4 ==>
        mask[i] == Mask(Share(prefixlen, i)) && addr[i] == Masked(words[i], Share(prefixlen, i))
  {
    hide And, Mask, LongMask;
    addr, mask := words, [0, 0, 0, 0];
    if prefixlen == 128 {
      var m: Word := 0xFFFF_FFFF;
      mask := [m, m, m, m];
      assert forall i :: 0 <= i < 4 ==> Share(128, i) == 32;
      forall i | 0 <= i < 4 ensures mask[i] == Mask(32) && Masked(words[i], 32) == words[i] { WholeMask(words[i]); }
    } else {
      var shift := prefixlen;
      for i := 0 to 4
        invariant shift == if prefixlen > 32 * i then prefixlen - 32 * i else 0
        invariant forall k :: 0 <= k < i ==>
            mask[k] == Mask(Share(prefixlen, k)) && addr[k] == Masked(words[k], Share(prefixlen, k))
        invariant forall k :: i <= k < 4 ==> addr[k] == words[k]
      {
        var s := if shift > 32 then 32 else shift;
        shift := shift - s;
        LongMaskIs(s);
        mask := mask[i := LongMask(s)];
        addr := addr[i := Masked(addr[i], s)];
      }
    }
  }

  lemma WholeMask(a: Word)
    ensures Mask(32) == 0xFFFF_FFFF && Masked(a, 32) == a
  {
    hide And;
    WordBits();
    assert Pow2(0) == 1;
    AndMask(a, 32, 0);
  }

  /** A word of a rule file, and what it means as a netspec: what its address part resolves to, and
      the number after the slash. */
  datatype Arg = Arg(text: string, net: Net, prefix: Option<int>)

  /** A line without comment and line end: empty, split into words (none, if it is white space only),
      or ending in a quoted word that breaks off with a backslash.  For the latter parse_args says
      that there are no words, but has stored them, and has not stored the NULL behind them. */
  datatype Line = Empty | Split(args: seq<Arg>) | Broken(first: Arg, rest: seq<Arg>)

  predicate IsCommand(text: string) { SameFolded(text, "allow") || SameFolded(text, "deny") }

  function RuleOf(args: seq<Arg>): Rule
    requires |args| == 2
  {
    Rule(args[1].net, args[1].prefix, SameFolded(args[0].text, "allow"))
  }

  /** A line the loader has nothing to object to. */
  predicate LineOk(l: Line) {
    match l
    case Empty => true
    case Split(args) => |args| == 2 && IsCommand(args[0].text) && Good(RuleOf(args))
    case Broken(_, _) => false
  }

  function RulesOf(lines: seq<Line>): seq<Rule>
    requires AllOk(lines)
  {
    if lines == [] then []
    else
      var k := |lines| - 1;
      assert LineOk(lines[k]);
      RulesOf(lines[..k]) + if lines[k].Empty? then [] else [RuleOf(lines[k].args)]
  }

  predicate AllOk(lines: seq<Line>) { forall k :: 0 <= k < |lines| ==> LineOk(lines[k]) }

  lemma {:induction false} GoodRules(lines: seq<Line>)
    requires AllOk(lines)
    ensures forall k :: 0 <= k < |RulesOf(lines)| ==> Good(RulesOf(lines)[k])
  {
    if lines != [] {
      assert LineOk(lines[|lines| - 1]);
      GoodRules(lines[..|lines| - 1]);
    }
  }

  // ---------------------------------------------------------------- missing words

  /** What the variable for the second word holds: never written, NULL, or some word. */
  datatype Slot = Unset | Null | Filled

  /** The variable after a line. */
  function SlotAfter(before: Slot, l: Line): Slot {
    match l
    case Empty => before
    case Split(args) => if |args| >= 2 then Filled else if |args| == 1 then Null else before
    case Broken(_, rest) => if rest != [] then Filled else before
  }

  function SlotOf(lines: seq<Line>): Slot {
    if lines == [] then Unset else SlotAfter(SlotOf(lines[..|lines| - 1]), lines[|lines| - 1])
  }

  /** A line on which the loader reads a word that is not there: it counts the words and notes the
      error, but goes on. */
  predicate ReadsMissing(before: Slot, l: Line) {
    match l
    case Empty => false
    case Split(args) => args == [] || (|args| == 1 && IsCommand(args[0].text))
    case Broken(first, rest) => rest == [] && IsCommand(first.text) && before != Filled
  }

  ghost predicate MissingWord(lines: seq<Line>) {
    exists k :: 0 <= k < |lines| && ReadsMissing(SlotOf(lines[..k]), lines[k])
  }

  /** In a file without broken words this happens exactly if a line that is not empty has no word, or
      has "allow" or "deny" as its only word. */
  lemma MissingWordExact(lines: seq<Line>)
    requires forall k :: 0 <= k < |lines| ==> !lines[k].Broken?
    ensures MissingWord(lines) <==>
            exists k :: 0 <= k < |lines| && lines[k].Split?
                        && (lines[k].args == [] || (|lines[k].args| == 1 && IsCommand(lines[k].args[0].text)))
  {
    hide IsCommand;
    if k :| 0 <= k < |lines| && lines[k].Split?
            && (lines[k].args == [] || (|lines[k].args| == 1 && IsCommand(lines[k].args[0].text))) {
      assert ReadsMissing(SlotOf(lines[..k]), lines[k]);
    }
    if MissingWord(lines) {
      var k :| 0 <= k < |lines| && ReadsMissing(SlotOf(lines[..k]), lines[k]);
      assert lines[k].Split?;
    }
  }

  /** The line "allow", and a line of blanks. */
  lemma MissingWordExamples(net: Net, prefix: Option<int>)
    ensures MissingWord([Split([Arg("allow", net, prefix)])]) && MissingWord([Split([])])
  {
    var a, b := [Split([Arg("allow", net, prefix)])], [Split([])];
    assert ReadsMissing(SlotOf(a[..0]), a[0]);
    assert ReadsMissing(SlotOf(b[..0]), b[0]);
  }

  /** A good file is read without harm. */
  lemma OkReadsWords(lines: seq<Line>)
    requires AllOk(lines)
    ensures !MissingWord(lines)
  {
    hide IsCommand, Good;
    forall k | 0 <= k < |lines| ensures !ReadsMissing(SlotOf(lines[..k]), lines[k]) { assert LineOk(lines[k]); }
  }

  lemma EntriesNone()
    ensures Reverse(Entries4(RulesOf([]))) == [] && Reverse(Entries6(RulesOf([]))) == []
  {
  }

  /** One more rule puts its entry in front. */
  lemma EntriesStep(rules: seq<Rule>, r: Rule)
    requires Good(r) && forall j :: 0 <= j < |rules| ==> Good(rules[j])
    ensures Reverse(Entries4(rules + [r])) == (if r.net.V4? then [Entry4(r)] else []) + Reverse(Entries4(rules))
    ensures Reverse(Entries6(rules + [r])) == (if r.net.V6? then [Entry6(r)] else []) + Reverse(Entries6(rules))
  {
    hide Entry4, Entry6, Entries4, Entries6, Reverse, Good;
    Entries4More(rules, r);
    Entries6More(rules, r);
    var es4, es6 := Entries4(rules), Entries6(rules);
    if r.net.V4? { ReverseLast(es4, Entry4(r)); } else { assert es4 + [] == es4; }
    if r.net.V6? { ReverseLast(es6, Entry6(r)); } else { assert es6 + [] == es6; }
  }

  lemma Entries4More(rules: seq<Rule>, r: Rule)
    ensures Entries4(rules + [r]) == Entries4(rules) + if r.net.V4? then [Entry4(r)] else []
  {
    hide Entry4;
    assert (rules + [r])[..|rules|] == rules;
  }

  lemma Entries6More(rules: seq<Rule>, r: Rule)
    requires Good(r) && forall j :: 0 <= j < |rules| ==> Good(rules[j])
    ensures Entries6(rules + [r]) == Entries6(rules) + if r.net.V6? then [Entry6(r)] else []
  {
    hide Entry6;
    assert (rules + [r])[..|rules|] == rules;
  }

  /** What the list holds after the rules of these lines. */
  ghost predicate Loaded(acl: Acl, lines: seq<Line>)
    reads acl
  {
    AllOk(lines) ==>
      (GoodRules(lines);
       acl.entries4 == Reverse(Entries4(RulesOf(lines))) && acl.entries6 == Reverse(Entries6(RulesOf(lines))))
  }

  /** How loading ends: with a list, with NULL, or in a read of a missing word. */
  datatype Outcome = Accepted | Refused | MissingRead

  /** One line of acl_load, with the variable for the second word as earlier lines left it.  A stale
      word there is added like any other; the file is refused anyway. */
  method LoadLine(acl: Acl, ghost before: seq<Line>, slot: Slot, l: Line) returns (r: Outcome)
    requires Loaded(acl, before)
    modifies acl
    ensures r == MissingRead <==> ReadsMissing(slot, l)
    ensures r == Accepted <==> LineOk(l)
    ensures Loaded(acl, before + [l])
  {
    hide Entry4, Entry6, Entries4, Entries6, Reverse, IsCommand;
    AllOkMore(before, l);
    match l {
      case Empty =>
        if AllOk(before) {
          RulesMore(before, l);
          assert RulesOf(before) + [] == RulesOf(before);
        }
        return Accepted;
      case Split(args) =>
        var failed := |args| != 2;
        if |args| < 1 { return MissingRead; }
        if !IsCommand(args[0].text) { return Refused; }
        if |args| < 2 { return MissingRead; }
        if AllOk(before) && LineOk(l) {
          RulesMore(before, l);
          GoodRules(before);
          EntriesStep(RulesOf(before), RuleOf(args));
        }
        var added := acl.Add(RuleOf(args[..2]));
        assert failed || args[..2] == args;
        return if failed || !added then Refused else Accepted;
      case Broken(first, rest) =>
        if !IsCommand(first.text) { return Refused; }
        if rest == [] && slot != Filled { return MissingRead; }
        return Refused;
    }
  }

  lemma AllOkMore(before: seq<Line>, l: Line)
    ensures AllOk(before + [l]) <==> AllOk(before) && LineOk(l)
  {
    hide LineOk;
    var all := before + [l];
    assert all[|before|] == l;
    assert forall k :: 0 <= k < |before| ==> all[k] == before[k];
  }

  lemma RulesMore(before: seq<Line>, l: Line)
    requires AllOk(before) && LineOk(l)
    ensures AllOk(before + [l])
    ensures RulesOf(before + [l]) == RulesOf(before) + if l.Empty? then [] else [RuleOf(l.args)]
  {
    hide IsCommand, Good;
    AllOkMore(before, l);
    assert (before + [l])[..|before|] == before;
  }

  /** acl_load, up to the first read of a missing word. */
  method Load(lines: seq<Line>) returns (acl: Acl, r: Outcome)
    ensures fresh(acl)
    ensures r == MissingRead <==> MissingWord(lines)
    ensures r == Refused <==> !MissingWord(lines) && !AllOk(lines)
    ensures r == Accepted <==> AllOk(lines)
    ensures Loaded(acl, lines) || r == MissingRead
  {
    hide Loaded, LineOk, SlotOf, SlotAfter, ReadsMissing;
    acl := new Acl();
    var failed, slot := false, Unset;
    LoadedNone(acl);
    SlotNone();
    assert lines[..0] == [];
    for k := 0 to |lines|
      invariant fresh(acl) && (failed <==> !AllOk(lines[..k])) && Loaded(acl, lines[..k])
      invariant slot == SlotOf(lines[..k])
      invariant forall j :: 0 <= j < k ==> !ReadsMissing(SlotOf(lines[..j]), lines[j])
    {
      assert lines[..k + 1] == lines[..k] + [lines[k]];
      AllOkMore(lines[..k], lines[k]);
      SlotMore(lines[..k], lines[k]);
      var one := LoadLine(acl, lines[..k], slot, lines[k]);
      if one == MissingRead {
        if AllOk(lines) { OkReadsWords(lines); }
        return acl, MissingRead;
      }
      failed := failed || one == Refused;
      slot := SlotAfter(slot, lines[k]);
    }
    assert lines[..|lines|] == lines;
    return acl, if failed then Refused else Accepted;
  }

  lemma SlotNone()
    ensures SlotOf([]) == Unset
  {
  }

  lemma SlotMore(before: seq<Line>, l: Line)
    ensures SlotOf(before + [l]) == SlotAfter(SlotOf(before), l)
  {
    hide SlotAfter;
    assert (before + [l])[..|before|] == before;
  }

  lemma LoadedNone(acl: Acl)
    requires acl.entries4 == [] && acl.entries6 == []
    ensures Loaded(acl, [])
  {
    EntriesNone();
  }

  // ---------------------------------------------------------------- who decides

  /** The first rule of the file that agrees with the address, else deny. */
  ghost function Decide4(rules: seq<Rule>, addr: Word): bool {
    if rules == [] then false else if Agrees4(rules[0], addr) then rules[0].allow else Decide4(rules[1..], addr)
  }

  ghost function Decide6(rules: seq<Rule>, addr: Words): bool {
    if rules == [] then false else if Agrees6(rules[0], addr) then rules[0].allow else Decide6(rules[1..], addr)
  }

  lemma {:induction false} Entries4Front(rules: seq<Rule>)
    requires rules != []
    ensures Entries4(rules) == (if rules[0].net.V4? then [Entry4(rules[0])] else []) + Entries4(rules[1..])
  {
    hide Entry4;
    var n := |rules| - 1;
    if n > 0 {
      Entries4Front(rules[..n]);
      assert rules[..n][1..] == rules[1..][..n - 1];
    }
  }

  lemma {:induction false} Entries6Front(rules: seq<Rule>)
    requires rules != [] && forall k :: 0 <= k < |rules| ==> Good(rules[k])
    ensures Entries6(rules) == (if rules[0].net.V6? then [Entry6(rules[0])] else []) + Entries6(rules[1..])
  {
    hide Entry6;
    var n := |rules| - 1;
    if n > 0 {
      Entries6Front(rules[..n]);
      assert rules[..n][1..] == rules[1..][..n - 1];
    }
  }

  lemma {:induction false} FileOrder4(rules: seq<Rule>, addr: Word)
    ensures First4(Entries4(rules), addr) == Decide4(rules, addr)
  {
    hide Entry4, Match4, Agrees4, Entries4;
    if rules == [] {
      NoEntries();
    } else {
      Entries4Front(rules);
      FileOrder4(rules[1..], addr);
      if rules[0].net.V4? {
        Match4Exact(rules[0], addr);
        assert Entries4(rules)[1..] == Entries4(rules[1..]);
      } else {
        NotV4(rules[0], addr);
        assert Entries4(rules) == Entries4(rules[1..]);
      }
    }
  }

  lemma NoEntries()
    ensures Entries4([]) == [] && Entries6([]) == []
  {
  }

  lemma NotV4(r: Rule, addr: Word)
    requires !r.net.V4?
    ensures !Agrees4(r, addr)
  {
  }

  lemma NotV6(r: Rule, addr: Words)
    requires !r.net.V6?
    ensures !Agrees6(r, addr)
  {
  }

  lemma {:induction false} FileOrder6(rules: seq<Rule>, addr: Words)
    requires forall k :: 0 <= k < |rules| ==> Good(rules[k])
    ensures First6(Entries6(rules), addr) == Decide6(rules, addr)
  {
    hide Entry6, Match6, Agrees6, Entries6;
    if rules == [] {
      NoEntries();
    } else {
      Entries6Front(rules);
      FileOrder6(rules[1..], addr);
      if rules[0].net.V6? {
        Match6Exact(rules[0], addr);
        assert Entries6(rules)[1..] == Entries6(rules[1..]);
      } else {
        NotV6(rules[0], addr);
        assert Entries6(rules) == Entries6(rules[1..]);
      }
    }
  }

  /** Loading a rule file and copying the list for a listener: the copy decides every address by the
      first rule in file order that agrees with it, else denies. */
  lemma ListenerDecides(rules: seq<Rule>, addr4: Word, addr6: Words)
    requires forall k :: 0 <= k < |rules| ==> Good(rules[k])
    ensures First4(Reverse(Reverse(Entries4(rules))), addr4) == Decide4(rules, addr4)
    ensures First6(Reverse(Reverse(Entries6(rules))), addr6) == Decide6(rules, addr6)
  {
    ReverseTwice(Entries4(rules));
    ReverseTwice(Entries6(rules));
    FileOrder4(rules, addr4);
    FileOrder6(rules, addr6);
  }

  /** From the rule file to the listener's answer. */
  method ListenerCheck(lines: seq<Line>, addr4: Word, addr6: Words) returns (r: Outcome, allow4: bool, allow6: bool)
    ensures r == MissingRead <==> MissingWord(lines)
    ensures r == Accepted <==> AllOk(lines)
    ensures r == Accepted ==> allow4 == Decide4(RulesOf(lines), addr4) && allow6 == Decide6(RulesOf(lines), addr6)
  {
    hide Decide4, Decide6, Reverse, First4, First6, Entries4, Entries6, AllOk, RulesOf, Good, MissingWord;
    var acl;
    acl, r := Load(lines);
    allow4, allow6 := false, false;
    if r == Accepted {
      GoodRules(lines);
      var copy := acl.Dup();
      ListenerDecides(RulesOf(lines), addr4, addr6);
      allow4 := copy.Check4(addr4);
      allow6 := copy.Check6(addr6);
    }
  }
}
