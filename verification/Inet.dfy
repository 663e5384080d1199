/** Textual internet addresses: src/inet_ntop.c and src/inet_pton.c.  Text is a C string without
    its terminating NUL; addresses are 4 or 16 octets in network order. */
module Inet {
  import opened Basics

  type Address4 = a: Bytes | |a| == 4 witness [0, 0, 0, 0]
  type Address6 = a: Bytes | |a| == 16 witness [0, 0, 0, 0, 0, 0, 0, 0, 0, 0, 0, 0, 0, 0, 0, 0]

  // ---------------------------------------------------------------- digits

  function Digit(n: nat): char
    requires n < 16
  {
    if n < 10 then '0' + n as char else 'a' + (n - 10) as char
  }

  function DecimalValue(c: char): (v: Option<nat>)
    ensures v.Some? ==> v.value < 10
  {
    if '0' <= c <= '9' then Some(c as int - '0' as int) else None
  }

  function HexValue(c: char): (v: Option<nat>)
    ensures v.Some? ==> v.value < 16
  {
    if '0' <= c <= '9' then Some(c as int - '0' as int)
    else if 'a' <= c <= 'f' then Some(c as int - 'a' as int + 10)
    else if 'A' <= c <= 'F' then Some(c as int - 'A' as int + 10)
    else None
  }

  /** "%u" */
  function Decimal(n: nat): string { if n < 10 then [Digit(n)] else Decimal(n / 10) + [Digit(n % 10)] }

  /** "%x" */
  function Hex(n: nat): string { if n < 16 then [Digit(n)] else Hex(n / 16) + [Digit(n % 16)] }

  lemma DigitValues(n: nat)
    requires n < 16
    ensures HexValue(Digit(n)) == Some(n) && (n < 10 ==> DecimalValue(Digit(n)) == Some(n))
  {
  }

  // ---------------------------------------------------------------- IPv4

  function Dotted(a: Address4): string {
    Decimal(a[0]) + ("." + (Decimal(a[1]) + ("." + (Decimal(a[2]) + ("." + Decimal(a[3]))))))
  }

  /** inet_ntop4; the count compared with the caller's room is that of the text without its NUL. */
  function Ntop4(a: Address4, size: nat): Option<string> { if |Dotted(a)| > size then None else Some(Dotted(a)) }

  /** The text is copied with its NUL although that does not fit, exactly if the room is the length of
      the text. */
  lemma Ntop4Room(a: Address4, size: nat)
    ensures Ntop4(a, size).Some? && |Dotted(a)| + 1 > size <==> size == |Dotted(a)|
    ensures Ntop4(a, size).Some? <==> size >= |Dotted(a)|
  {
  }

  /** The octets before tp, the one tp points at, and the two counters of inet_pton4. */
  datatype Quad = Quad(done: Bytes, cur: Byte, saw: bool, octets: nat)

  function Digit4(q: Quad, d: nat): Option<Quad>
    requires d < 10
  {
    var octets := if q.saw then q.octets else q.octets + 1;
    if q.cur as int * 10 + d > 255 || octets > 4 then None
    else Some(Quad(q.done, q.cur as int * 10 + d, true, octets))
  }

  function Pton4From(s: string, q: Quad): Option<Bytes> {
    if s == "" then (if q.octets < 4 then None else Some(q.done + [q.cur]))
    else
      var d := DecimalValue(s[0]);
      if d.Some? then
        var next := Digit4(q, d.value);
        if next == None then None else Pton4From(s[1..], next.value)
      else if s[0] == '.' && q.saw && q.octets != 4 then Pton4From(s[1..], Quad(q.done + [q.cur], 0, false, q.octets))
      else None
  }

  function Pton4(s: string): Option<Bytes> { Pton4From(s, Quad([], 0, false, 0)) }

  /** The loop keeps tp inside its four octets and counts them. */
  ghost predicate Counted(q: Quad) {
    |q.done| <= 3 && q.octets == |q.done| + (if q.saw then 1 else 0)
  }

  lemma {:induction false} Pton4Length(s: string, q: Quad)
    requires Counted(q)
    ensures Pton4From(s, q).Some? ==> |Pton4From(s, q).value| == 4
  {
    if s != "" {
      var d := DecimalValue(s[0]);
      if d.Some? {
        var next := Digit4(q, d.value);
        if next.Some? { Pton4Length(s[1..], next.value); }
      } else if s[0] == '.' && q.saw && q.octets != 4 {
        Pton4Length(s[1..], Quad(q.done + [q.cur], 0, false, q.octets));
      }
    }
  }

  method InetPton4(src: string) returns (r: Option<Bytes>)
    ensures r == Pton4(src)
    ensures r.Some? ==> |r.value| == 4
  {
    Pton4Length(src, Quad([], 0, false, 0));
    var tmp := new Byte[4](_ => 0);
    var tp, sawDigit, octets := 0, false, 0;
    for i := 0 to |src|
      invariant 0 <= tp < 4
      invariant Counted(Quad(tmp[..tp], tmp[tp], sawDigit, octets))
      invariant Pton4(src) == Pton4From(src[i..], Quad(tmp[..tp], tmp[tp], sawDigit, octets))
    {
      var d := DecimalValue(src[i]);
      assert src[i..][0] == src[i] && src[i..][1..] == src[i + 1..];
      ghost var done := tmp[..tp];
      if d.Some? {
        var new_ := tmp[tp] as int * 10 + d.value;
        if new_ > 255 { return None; }
        tmp[tp] := new_;
        assert tmp[..tp] == done;
        if !sawDigit {
          octets := octets + 1;
          if octets > 4 { return None; }
          sawDigit := true;
        }
      } else if src[i] == '.' && sawDigit {
        if octets == 4 { return None; }
        tp := tp + 1;
        tmp[tp] := 0;
        assert tmp[..tp] == done + [tmp[tp - 1]];
        sawDigit := false;
      } else {
        return None;
      }
    }
    assert src[|src|..] == "";
    if octets < 4 { return None; }
    assert tmp[..] == tmp[..tp] + [tmp[tp]];
    r := Some(tmp[..]);
  }

  // ---------------------------------------------------------------- IPv6, printing

  type Words = w: seq<nat> | |w| == 8 && forall k :: 0 <= k < 8 ==> w[k] < 0x1_0000 witness [0, 0, 0, 0, 0, 0, 0, 0]

  function Word(a: Address6, i: nat): (w: nat)
    requires i < 8
    ensures w < 0x1_0000
  {
    a[2 * i] as int * 256 + a[2 * i + 1]
  }

  function WordsOf(a: Address6): Words { seq(8, i requires 0 <= i < 8 => Word(a, i)) }

  datatype Run = Run(base: nat, len: nat)

  predicate Zeros(w: Words, r: Run) {
    r.base + r.len <= 8 && forall k :: r.base <= k < r.base + r.len ==> w[k] == 0
  }

  /** Section 4.2 of RFC 5952: the run to shorten is the leftmost of the longest runs of zero
      words, and a single zero word is not shortened. */
  ghost predicate IsBest(w: Words, best: Option<Run>) {
    match best
    case None => forall r :: Zeros(w, r) ==> r.len < 2
    case Some(b) =>
      && b.len >= 2 && Zeros(w, b)
      && forall r :: Zeros(w, r) ==> r.len <= b.len && (r.len == b.len ==> b.base <= r.base)
  }

  lemma BestUnique(w: Words, a: Option<Run>, b: Option<Run>)
    requires IsBest(w, a) && IsBest(w, b)
    ensures a == b
  {
    if a.Some? { assert Zeros(w, a.value); }
    if b.Some? { assert Zeros(w, b.value); }
  }

  predicate Inside(best: Option<Run>, i: nat) {
    best.Some? && best.value.base <= i < best.value.base + best.value.len
  }

  /** An IPv4 address in the last two words is printed as one. */
  predicate Embedded(a: Address6, best: Option<Run>) {
    best.Some? && best.value.base == 0
    && (best.value.len == 6 || (best.value.len == 5 && Word(a, 5) == 0xffff))
  }

  /** What the formatting loop writes for word i: a colon at the start of the shortened run, else
      the word after a colon. */
  function Piece(a: Address6, best: Option<Run>, i: nat): string
    requires i < 8
  {
    if Inside(best, i) then (if i == best.value.base then ":" else "")
    else (if i != 0 then ":" else "") + (if i == 6 && Embedded(a, best) then Dotted(a[12..]) else Hex(Word(a, i)))
  }

  function TextFrom(a: Address6, best: Option<Run>, i: nat): string
    requires i <= 8
    decreases 8 - i
  {
    if i == 8 then (if best.Some? && best.value.base + best.value.len == 8 then ":" else "")
    else if i == 6 && Embedded(a, best) then Piece(a, best, 6)
    else Piece(a, best, i) + TextFrom(a, best, i + 1)
  }

  function Text6(a: Address6, best: Option<Run>): string { TextFrom(a, best, 0) }

  /** The word-assembling loop. */
  method Assemble(src: Address6) returns (words: Words)
    ensures words == WordsOf(src)
  {
    words := [0, 0, 0, 0, 0, 0, 0, 0];
    for i := 0 to 16
      invariant forall k :: 0 <= k < 8 ==>
        words[k] == if 2 * k + 1 < i then Word(src, k) else if 2 * k < i then src[2 * k] as int * 256 else 0
    {
      var shifted := if i % 2 == 0 then src[i] as int * 256 else src[i];
      words := words[i / 2 := words[i / 2] + shifted];
    }
  }

  /** Zero words from r.base, as far as the scan has come, not preceded by one. */
  ghost predicate Current(w: Words, cur: Option<Run>, i: nat)
    requires i <= 8
  {
    match cur
    case None => i > 0 ==> w[i - 1] != 0
    case Some(c) => c.len > 0 && c.base + c.len == i && Zeros(w, c) && (c.base > 0 ==> w[c.base - 1] != 0)
  }

  /** The best run among those that end before the current one starts. */
  ghost predicate BestUpTo(w: Words, best: Option<Run>, limit: nat) {
    match best
    case None => forall r :: Zeros(w, r) && r.base + r.len <= limit ==> r.len == 0
    case Some(b) =>
      && b.len > 0 && Zeros(w, b) && b.base + b.len <= limit
      && forall r :: Zeros(w, r) && r.base + r.len <= limit ==>
           r.len <= b.len && (r.len == b.len && r.len > 0 ==> b.base <= r.base)
  }

  function Start(cur: Option<Run>, i: nat): nat { if cur.Some? then cur.value.base else i }

  function Better(best: Option<Run>, cur: Option<Run>): Option<Run> {
    if cur.Some? && (best == None || cur.value.len > best.value.len) then cur else best
  }

  lemma BetterIsBest(w: Words, best: Option<Run>, cur: Option<Run>, i: nat)
    requires i <= 8 && Current(w, cur, i) && BestUpTo(w, best, Start(cur, i))
    ensures BestUpTo(w, Better(best, cur), i)
  {
    if cur.Some? {
      var c := cur.value;
      assert c.base > 0 ==> w[c.base - 1] != 0;
      assert forall r :: Zeros(w, r) && r.base + r.len <= i && r.len > 0 ==>
        r.base + r.len <= c.base || r.base >= c.base;
    }
  }

  lemma StepPastNonzero(w: Words, best: Option<Run>, i: nat)
    requires i < 8 && w[i] != 0 && BestUpTo(w, best, i)
    ensures BestUpTo(w, best, i + 1)
  {
    assert forall r :: Zeros(w, r) && r.base + r.len <= i + 1 && r.len > 0 ==> r.base + r.len <= i;
  }

  /** The scan for the run to shorten. */
  method FindBestRun(words: Words) returns (best: Option<Run>)
    ensures IsBest(words, best)
  {
    var cur := None;
    best := None;
    for i := 0 to 8
      invariant Current(words, cur, i) && BestUpTo(words, best, Start(cur, i))
    {
      if words[i] == 0 {
        cur := Some(if cur == None then Run(i, 1) else Run(cur.value.base, cur.value.len + 1));
      } else {
        BetterIsBest(words, best, cur, i);
        best := Better(best, cur);
        StepPastNonzero(words, best, i);
        cur := None;
      }
    }
    BetterIsBest(words, best, cur, 8);
    best := Better(best, cur);
    if best.Some? && best.value.len < 2 { best := None; }
  }

  /** One turn of the formatting loop; last is its break. */
  method FormatWord(src: Address6, words: Words, best: Option<Run>, i: nat) returns (out: string, last: bool)
    requires words == WordsOf(src) && i < 8
    ensures out == Piece(src, best, i) && (last <==> i == 6 && Embedded(src, best))
  {
    out, last := "", false;
    if Inside(best, i) {
      if i == best.value.base { out := ":"; }
      return;
    }
    if i != 0 { out := ":"; }
    if i == 6 && best.Some? && best.value.base == 0
       && (best.value.len == 6 || (best.value.len == 5 && words[5] == 0xffff)) {
      out, last := out + Dotted(src[12..]), true;
    } else {
      out := out + Hex(words[i]);
    }
  }

  lemma Associative(a: string, b: string, c: string)
    ensures a + b + c == a + (b + c)
  {
  }

  method Format(src: Address6, words: Words, best: Option<Run>) returns (out: string)
    requires words == WordsOf(src)
    ensures out == Text6(src, best)
  {
    hide Piece, Embedded;
    out := "";
    for i := 0 to 8
      invariant Text6(src, best) == out + TextFrom(src, best, i)
    {
      var piece, last := FormatWord(src, words, best, i);
      if !last { Associative(out, piece, TextFrom(src, best, i + 1)); }
      out := out + piece;
      if last { return; }
    }
    if best.Some? && best.value.base + best.value.len == 8 { out := out + ":"; }
  }

  /** inet_ntop6.  The shortened run is the one RFC 5952 asks for; None is ENOSPC. */
  method InetNtop6(src: Address6, size: nat) returns (r: Option<string>)
    ensures forall best :: IsBest(WordsOf(src), best) ==>
      r == if |Text6(src, best)| + 1 > size then None else Some(Text6(src, best))
    ensures exists best :: IsBest(WordsOf(src), best)
  {
    var words := Assemble(src);
    var best := FindBestRun(words);
    var text := Format(src, words, best);
    forall b | IsBest(WordsOf(src), b) ensures b == best { BestUnique(words, b, best); }
    r := if |text| + 1 > size then None else Some(text);
  }

  // ---------------------------------------------------------------- IPv6, parsing

  /** What inet_pton6 has so far: the octets written, the place of "::", and the group being read. */
  datatype Scan = Scan(out: Bytes, colon: Option<nat>, val: nat, saw: bool)

  function Octets(w: nat): Bytes
    requires w < 0x1_0000
  {
    [w / 256, w % 256]
  }

  function Zeroes(n: nat): Bytes { seq(n, _ => 0) }

  /** The effect of the shift loop.  With all sixteen octets written the two ranges coincide, and
      every octet after the gap is cleared. */
  function Shifted(out: Bytes, c: nat): (r: Bytes)
    requires c <= |out| <= 16
    ensures |r| == 16
  {
    if |out| == 16 then out[..c] + Zeroes(16 - c) else out[..c] + Zeroes(16 - |out|) + out[c..]
  }

  ghost predicate Sound(st: Scan) {
    |st.out| <= 16 && st.val < 0x1_0000 && (st.colon.Some? ==> st.colon.value <= |st.out|)
  }

  function Finish(st: Scan): Option<Bytes>
    requires Sound(st)
  {
    if st.saw && |st.out| + 2 > 16 then None
    else
      var out := if st.saw then st.out + Octets(st.val) else st.out;
      if st.colon.Some? then Some(Shifted(out, st.colon.value))
      else if |out| == 16 then Some(out) else None
  }

  /** The character loop: s is what is left, token what was left when the group began. */
  function Pton6From(s: string, token: string, st: Scan): Option<Bytes>
    requires Sound(st)
    decreases |s|
  {
    if s == "" then Finish(st)
    else if HexValue(s[0]).Some? then
      var val := st.val * 16 + HexValue(s[0]).value;
      if val > 0xffff then None else Pton6From(s[1..], token, Scan(st.out, st.colon, val, true))
    else if s[0] == ':' then
      if !st.saw then
        if st.colon.Some? then None
        else Pton6From(s[1..], s[1..], Scan(st.out, Some(|st.out|), st.val, false))
      else if |st.out| + 2 > 16 then None
      else Pton6From(s[1..], s[1..], Scan(st.out + Octets(st.val), st.colon, 0, false))
    else if s[0] == '.' && |st.out| + 4 <= 16 && Pton4(token).Some? then
      Pton4Length(token, Quad([], 0, false, 0));
      Finish(Scan(st.out + Pton4(token).value, st.colon, st.val, false))
    else None
  }

  function Pton6(s: string): Option<Bytes> {
    if s != "" && s[0] == ':' then
      if |s| < 2 || s[1] != ':' then None else Pton6From(s[1..], s[1..], Scan([], None, 0, false))
    else Pton6From(s, s, Scan([], None, 0, false))
  }

  /** The shift loop, octet by octet from the end. */
  method ShiftTail(tmp: array<Byte>, tp: nat, colon: nat)
    requires tmp.Length == 16 && colon <= tp <= 16 && forall k :: tp <= k < 16 ==> tmp[k] == 0
    modifies tmp
    ensures tmp[..] == Shifted(old(tmp[..tp]), colon)
  {
    var n := tp - colon;
    for i := 1 to n + 1
      invariant forall k :: 0 <= k < colon ==> tmp[k] == old(tmp[k])
      invariant forall k :: colon <= k < tp - (i - 1) ==> tmp[k] == old(tmp[k])
      invariant forall k :: 16 - (i - 1) <= k < 16 ==> tmp[k] == if tp == 16 then 0 else old(tmp[k - (16 - tp)])
      invariant forall k :: tp - (i - 1) <= k < 16 - (i - 1) ==> tmp[k] == 0
    {
      tmp[16 - i] := tmp[colon + n - i];
      tmp[colon + n - i] := 0;
    }
  }

  method InetPton6(src: string) returns (r: Option<Bytes>)
    ensures r == Pton6(src)
  {
    hide Finish, Pton4;
    var tmp := new Byte[16](_ => 0);
    var tp, colonp, val, saw := 0, None, 0, false;
    var from := 0;
    if src != "" && src[0] == ':' {
      if |src| < 2 || src[1] != ':' { return None; }
      from := 1;
    }
    assert src[0..] == src;
    var curtok, i := from, from;
    var stop := false;
    while i < |src| && !stop
      invariant 0 <= curtok <= i <= |src| && 0 <= tp <= 16 && 0 <= val
      invariant forall k :: tp <= k < 16 ==> tmp[k] == 0
      invariant Sound(Scan(tmp[..tp], colonp, val, saw))
      invariant Pton6(src) == if stop then Finish(Scan(tmp[..tp], colonp, val, saw))
                              else Pton6From(src[i..], src[curtok..], Scan(tmp[..tp], colonp, val, saw))
      decreases |src| - i, !stop
    {
      var ch := src[i];
      assert src[i..][0] == ch && src[i..][1..] == src[i + 1..];
      i := i + 1;
      var d := HexValue(ch);
      if d.Some? {
        val := val * 16 + d.value;
        if val > 0xffff { return None; }
        saw := true;
      } else if ch == ':' {
        curtok := i;
        if !saw {
          if colonp.Some? { return None; }
          colonp := Some(tp);
        } else {
          if tp + 2 > 16 { return None; }
          PutWord(tmp, tp, val);
          tp := tp + 2;
          saw, val := false, 0;
        }
      } else if ch == '.' && tp + 4 <= 16 {
        var quad := InetPton4(src[curtok..]);
        if quad == None { return None; }
        PutQuad(tmp, tp, quad.value);
        tp := tp + 4;
        saw, stop := false, true;
      } else {
        return None;
      }
    }
    assert i == |src| ==> src[i..] == "";
    r := Conclude(tmp, tp, colonp, val, saw);
  }

  /** The last group and the gap. */
  method Conclude(tmp: array<Byte>, written: nat, colonp: Option<nat>, val: nat, saw: bool) returns (r: Option<Bytes>)
    requires tmp.Length == 16 && written <= 16 && forall k :: written <= k < 16 ==> tmp[k] == 0
    requires Sound(Scan(tmp[..written], colonp, val, saw))
    modifies tmp
    ensures r == old(Finish(Scan(tmp[..written], colonp, val, saw)))
  {
    var tp := written;
    if saw {
      if tp + 2 > 16 { return None; }
      PutWord(tmp, tp, val);
      tp := tp + 2;
    }
    if colonp.Some? {
      ShiftTail(tmp, tp, colonp.value);
      tp := 16;
    }
    if tp != 16 { return None; }
    assert tmp[..16] == tmp[..];
    r := Some(tmp[..]);
  }

  method PutWord(tmp: array<Byte>, tp: nat, val: nat)
    requires tmp.Length == 16 && tp + 2 <= 16 && val < 0x1_0000
    modifies tmp
    ensures tmp[..tp + 2] == old(tmp[..tp]) + Octets(val)
    ensures forall k :: tp + 2 <= k < 16 ==> tmp[k] == old(tmp[k])
  {
    tmp[tp] := val / 256;
    tmp[tp + 1] := val % 256;
  }

  method PutQuad(tmp: array<Byte>, tp: nat, quad: Bytes)
    requires tmp.Length == 16 && tp + 4 <= 16 && |quad| == 4
    modifies tmp
    ensures tmp[..tp + 4] == old(tmp[..tp]) + quad
    ensures forall k :: tp + 4 <= k < 16 ==> tmp[k] == old(tmp[k])
  {
    for j := 0 to 4
      invariant forall k :: 0 <= k < 16 && !(tp <= k < tp + j) ==> tmp[k] == old(tmp[k])
      invariant forall k :: 0 <= k < j ==> tmp[tp + k] == quad[k]
    {
      tmp[tp + j] := quad[j];
    }
  }
}
