/** Client filters of src/filter.c: parsing callsign-set filters, the merging of consecutive ones,
    and the decision whether a packet passes.  Filters by area, range, symbol, type or q construct
    are left to parameters that give their parse result and their answer. */
module Filters {
  import opened Basics
  import opened Text

  /** One name of a filter: what it starts with and whether it had a star.  The code also keeps a
      negation bit there, which no filter ever sets. */
  datatype Ref = Ref(call: string, wild: bool)

  datatype Mode = MatchPrefix | MatchWild

  // ---------------------------------------------------------------- names in a filter string

  function SegmentEnd(s: string, p: nat): (e: nat)
    requires p <= |s|
    ensures p <= e <= |s|
    decreases |s| - p
  {
    if p < |s| && s[p] != '/' then SegmentEnd(s, p + 1) else p
  }

  /** Past the slash that ends a segment. */
  function Next(s: string, p: nat): (n: nat)
    requires p <= |s|
    ensures p <= n <= |s| && (p < |s| ==> p < n)
  {
    var e := SegmentEnd(s, p);
    if e < |s| then e + 1 else e
  }

  /** Where the names of a filter start. */
  function NamesStart(filt: string): (p: nat)
    ensures p <= |filt|
  {
    Next(filt, if filt != "" && filt[0] == '-' then 1 else 0)
  }

  /** The pre-scan that sizes the name table. */
  function CountNames(s: string, p: nat): nat
    requires p <= |s|
    decreases |s| - p
  {
    if p == |s| then 0 else 1 + CountNames(s, Next(s, p))
  }

  function NoStars(s: string): string {
    if s == "" then "" else NoStars(s[..|s| - 1]) + if s[|s| - 1] == '*' then "" else [s[|s| - 1]]
  }

  function Clip(s: string): string { if |s| <= CALLSIGNLEN_MAX then s else s[..CALLSIGNLEN_MAX] }

  function NameOf(segment: string): Ref { Ref(Clip(NoStars(segment)), '*' in segment) }

  /** The names from p on; None if one has a star where none is allowed. */
  function Names(s: string, p: nat, mode: Mode): Option<seq<Ref>>
    requires p <= |s|
    decreases |s| - p
  {
    if p == |s| then Some([])
    else
      var segment := s[p..SegmentEnd(s, p)];
      if '*' in segment && mode != MatchWild then None
      else
        var rest := Names(s, Next(s, p), mode);
        if rest == None then None else Some([NameOf(segment)] + rest.value)
  }

  /** The table sized by the pre-scan is filled exactly. */
  lemma {:induction false} NamesFit(s: string, p: nat, mode: Mode)
    requires p <= |s|
    ensures Names(s, p, mode).Some? ==> |Names(s, p, mode).value| == CountNames(s, p)
    decreases |s| - p
  {
    if p < |s| { NamesFit(s, Next(s, p), mode); }
  }

  method ScanSegment(s: string, p: nat) returns (e: nat)
    requires p <= |s|
    ensures e == SegmentEnd(s, p)
  {
    e := p;
    while e < |s| && s[e] != '/'
      invariant p <= e <= |s| && SegmentEnd(s, p) == SegmentEnd(s, e)
    {
      e := e + 1;
    }
  }

  method CountLoop(s: string, start: nat) returns (n: nat)
    requires start <= |s|
    ensures n == CountNames(s, start)
  {
    n := 0;
    var p := start;
    while p < |s|
      invariant p <= |s| && CountNames(s, start) == n + CountNames(s, p)
      decreases |s| - p
    {
      n := n + 1;
      p := ScanSegment(s, p);
      if p < |s| { p := p + 1; }
    }
  }

  /** One name: stars are dropped, and only the first nine other characters kept. */
  method ReadName(s: string, start: nat, mode: Mode) returns (r: Option<Ref>, p: nat)
    requires start <= |s|
    ensures p <= |s|
    ensures r.None? <==> '*' in s[start..SegmentEnd(s, start)] && mode != MatchWild
    ensures r.Some? ==> p == SegmentEnd(s, start) && r.value == NameOf(s[start..p])
  {
    hide NoStars, Clip, SegmentEnd, Starry;
    p := start;
    var call, wild, i := "", false, 0;
    ghost var seen := "";
    NoName();
    assert s[start..start] == "";
    while p < |s| && s[p] != '/'
      invariant start <= p <= |s| && SegmentEnd(s, start) == SegmentEnd(s, p) && seen == s[start..p]
      invariant i == |NoStars(seen)| && call == Clip(NoStars(seen))
      invariant wild <==> Starry(seen)
      invariant wild ==> mode == MatchWild
      decreases |s| - p
    {
      NameMore(seen, s[p]);
      SegmentMore(s, p);
      SliceMore(s, start, p);
      seen := seen + [s[p]];
      if s[p] == '*' {
        wild := true;
        p := p + 1;
        if mode != MatchWild {
          StarInSegment(s, start, p - 1);
          return None, p;
        }
      } else {
        if i < CALLSIGNLEN_MAX { call := call + [s[p]]; }
        p := p + 1;
        i := i + 1;
      }
    }
    SegmentStops(s, p);
    StarryMeans(seen);
    r := Some(Ref(call, wild));
  }

  predicate Starry(segment: string) { '*' in segment }

  lemma StarryMeans(segment: string)
    ensures Starry(segment) <==> '*' in segment
  {
  }

  lemma SliceMore(s: string, start: nat, p: nat)
    requires start <= p < |s|
    ensures s[start..p + 1] == s[start..p] + [s[p]]
  {
  }

  lemma SegmentMore(s: string, p: nat)
    requires p < |s| && s[p] != '/'
    ensures SegmentEnd(s, p) == SegmentEnd(s, p + 1) && p < SegmentEnd(s, p) <= |s|
  {
  }

  lemma SegmentStops(s: string, p: nat)
    requires p == |s| || (p < |s| && s[p] == '/')
    ensures SegmentEnd(s, p) == p
  {
  }

  lemma NoName()
    ensures NoStars("") == "" && Clip("") == "" && !Starry("")
  {
  }

  lemma NameMore(segment: string, c: char)
    ensures Starry(segment + [c]) <==> Starry(segment) || c == '*'
    ensures NoStars(segment + [c]) == if c == '*' then NoStars(segment) else NoStars(segment) + [c]
    ensures var t := NoStars(segment);
      Clip(t + [c]) == if |t| < CALLSIGNLEN_MAX then Clip(t) + [c] else Clip(t)
  {
    assert (segment + [c])[..|segment|] == segment;
  }

  lemma StarInSegment(s: string, start: nat, p: nat)
    requires start <= p < |s| && s[p] == '*' && SegmentEnd(s, start) == SegmentEnd(s, p)
    ensures '*' in s[start..SegmentEnd(s, start)]
  {
    var e := SegmentEnd(s, start);
    assert SegmentEnd(s, p) == SegmentEnd(s, p + 1);
    assert s[start..e][p - start] == '*';
  }

  /** The name loop of filter_parse_one_callsignset: names are written to the table from index from
      on.  None is its -1, with names up to the bad one already written. */
  method FillNames(table: array<Ref>, from: nat, filt: string, start: nat, mode: Mode) returns (end: Option<nat>)
    requires start <= |filt| && table.Length == from + CountNames(filt, start)
    modifies table
    ensures end.None? <==> Names(filt, start, mode).None?
    ensures end.Some? ==> end.value == table.Length && table[..] == old(table[..from]) + Names(filt, start, mode).value
    ensures table[..from] == old(table[..from])
  {
    hide Names, CountNames, NameOf, Prepend;
    var p, refcount := start, from;
    ghost var base, done := table[..from], [];
    NamesFit(filt, p, mode);
    PrependNone(Names(filt, p, mode));
    while p < |filt|
      invariant start <= p <= |filt| && from <= refcount && refcount + CountNames(filt, p) == table.Length
      invariant refcount <= table.Length && table[..refcount] == base + done
      invariant Names(filt, start, mode) == Prepend(done, Names(filt, p, mode))
      decreases |filt| - p
    {
      NamesStep(filt, p, mode);
      var name, e := ReadName(filt, p, mode);
      if name == None {
        PrependRejected(done);
        KeepFront(table, from, refcount, base, done);
        return None;
      }
      p := if e < |filt| then e + 1 else e;
      PutName(table, refcount, name.value);
      refcount := refcount + 1;
      PrependTwice(done, name.value, Names(filt, p, mode));
      done := done + [name.value];
    }
    NamesDone(filt, mode);
    PrependDone(done);
    KeepFront(table, from, refcount, base, done);
    assert table[..refcount] == table[..];
    end := Some(refcount);
  }

  method PutName(table: array<Ref>, at: nat, name: Ref)
    requires at < table.Length
    modifies table
    ensures table[..at + 1] == old(table[..at]) + [name]
  {
    table[at] := name;
  }

  lemma KeepFront(table: array<Ref>, from: nat, refcount: nat, base: seq<Ref>, done: seq<Ref>)
    requires from <= refcount <= table.Length && |base| == from && table[..refcount] == base + done
    ensures table[..from] == base
  {
    assert table[..from] == table[..refcount][..from];
  }

  lemma PrependRejected(a: seq<Ref>)
    ensures Prepend(a, None) == None
  {
  }

  lemma PrependDone(a: seq<Ref>)
    ensures Prepend(a, Some([])) == Some(a)
  {
    assert a + [] == a;
  }

  lemma NamesStep(s: string, p: nat, mode: Mode)
    requires p < |s|
    ensures var segment := s[p..SegmentEnd(s, p)];
      && CountNames(s, p) == 1 + CountNames(s, Next(s, p))
      && Names(s, p, mode) ==
         if '*' in segment && mode != MatchWild then None else Prepend([NameOf(segment)], Names(s, Next(s, p), mode))
  {
  }

  lemma NamesDone(s: string, mode: Mode)
    ensures CountNames(s, |s|) == 0 && Names(s, |s|, mode) == Some([])
  {
  }

  function Parsed(filt: string, mode: Mode): Option<seq<Ref>> {
    if NamesStart(filt) == |filt| then None else Names(filt, NamesStart(filt), mode)
  }

  function Prepend(a: seq<Ref>, b: Option<seq<Ref>>): Option<seq<Ref>> {
    if b == None then None else Some(a + b.value)
  }

  lemma PrependNone(b: Option<seq<Ref>>)
    ensures Prepend([], b) == b
  {
    if b.Some? { assert [] + b.value == b.value; }
  }

  lemma PrependTwice(a: seq<Ref>, x: Ref, b: Option<seq<Ref>>)
    ensures Prepend(a, Prepend([x], b)) == Prepend(a + [x], b)
  {
    if b.Some? { assert a + ([x] + b.value) == a + [x] + b.value; }
  }

  // ---------------------------------------------------------------- matching names

  /** A name matches a call it starts, or only equals if it has no star and mode asks for that. */
  predicate Matches(r: Ref, key: string, mode: Mode) {
    var len := |r.call|;
    0 < len <= |key| && SameFolded(key[..len], r.call) && (mode == MatchPrefix || r.wild || len == |key|)
  }

  predicate MatchSet(refs: seq<Ref>, key: string, mode: Mode) {
    exists k :: 0 <= k < |refs| && Matches(refs[k], key, mode)
  }

  lemma MatchUnion(a: seq<Ref>, b: seq<Ref>, key: string, mode: Mode)
    ensures MatchSet(a + b, key, mode) <==> MatchSet(a, key, mode) || MatchSet(b, key, mode)
  {
    hide Matches;
    var all := a + b;
    if MatchSet(all, key, mode) {
      var k :| 0 <= k < |all| && Matches(all[k], key, mode);
      if k < |a| { assert Matches(a[k], key, mode); } else { assert Matches(b[k - |a|], key, mode); }
    }
    if MatchSet(a, key, mode) {
      var k :| 0 <= k < |a| && Matches(a[k], key, mode);
      assert all[k] == a[k];
    }
    if MatchSet(b, key, mode) {
      var k :| 0 <= k < |b| && Matches(b[k], key, mode);
      assert all[|a| + k] == b[k];
    }
  }

  /** filter_match_on_callsignset: only the first numnames names of the table count. */
  method MatchOnCallsignset(table: array<Ref>, numnames: nat, key: string, mode: Mode) returns (r: int)
    requires numnames <= table.Length
    ensures r == if MatchSet(table[..numnames], key, mode) then 1 else 0
  {
    ghost var refs := table[..numnames];
    for i := 0 to numnames
      invariant forall k :: 0 <= k < i ==> !Matches(refs[k], key, mode)
    {
      var ref := table[i];
      assert ref == refs[i];
      var len := |ref.call|;
      if len > |key| || len == 0 { continue; }
      if !SameFolded(key[..len], ref.call) { continue; }
      if mode == MatchPrefix { return 1; }
      if ref.wild { return 1; }
      if len == |key| { return 1; }
    }
    return 0;
  }

  // ---------------------------------------------------------------- packets

  /** What the callsign filters look at: source call, inner source of a third-party packet that is
      no object or item, destination call, entry call, message recipient, object or item name,
      and the text between the destination call and the q construct. */
  datatype Packet = Packet(src: string, third: Option<string>, dst: string, entry: string,
                           recipient: Option<string>, item: Option<string>, via: string)

  // ---------------------------------------------------------------- digipeater filter

  const MAX_CALLS: nat := 10

  datatype Via = Via(call: string, starred: bool)

  /** The text ends at the comma before the q construct. */
  function At(via: string, p: nat): char { if p < |via| then via[p] else ',' }

  function CallLen(via: string, p: nat, i: nat): (n: nat)
    requires p + i <= |via| && i <= CALLSIGNLEN_MAX + 1
    ensures i <= n <= CALLSIGNLEN_MAX + 1 && p + n <= |via|
    ensures i <= CALLSIGNLEN_MAX && At(via, p + i) != ',' ==> n > i
    ensures n <= CALLSIGNLEN_MAX ==> At(via, p + n) == ','
    decreases |via| - p - i
  {
    if i <= CALLSIGNLEN_MAX && At(via, p + i) != ',' then CallLen(via, p, i + 1) else i
  }

  function CallStart(via: string, p: nat): nat { if At(via, p) == ',' then p + 1 else p }

  function CallEnd(via: string, p: nat): (e: nat)
    requires p < |via|
    ensures p < e <= |via|
  {
    CallStart(via, p) + CallLen(via, CallStart(via, p), 0)
  }

  /** The call scanned at p, without its star. */
  function CallAt(via: string, p: nat): Via
    requires p < |via|
  {
    var d, e := CallStart(via, p), CallEnd(via, p);
    if d < e && via[e - 1] == '*' then Via(via[d..e - 1], true) else Via(Clip(via[d..e]), false)
  }

  /** The calls the scan visits, at most left of them. */
  function Calls(via: string, p: nat, left: nat): seq<Via>
    decreases left
  {
    if p >= |via| || left == 0 then [] else [CallAt(via, p)] + Calls(via, CallEnd(via, p), left - 1)
  }

  predicate Starred(calls: seq<Via>, from: nat) { exists b :: from <= b < |calls| && calls[b].starred }

  /** A named station is in the path, and it or a later one has marked its use. */
  predicate Digipeated(calls: seq<Via>, refs: seq<Ref>) {
    exists a :: 0 <= a < |calls| && MatchSet(refs, calls[a].call, MatchWild) && Starred(calls, a)
  }

  lemma DigipeatedUnion(calls: seq<Via>, a: seq<Ref>, b: seq<Ref>)
    ensures Digipeated(calls, a + b) <==> Digipeated(calls, a) || Digipeated(calls, b)
  {
    hide MatchSet, Starred;
    forall k | 0 <= k < |calls|
      ensures MatchSet(a + b, calls[k].call, MatchWild) <==>
              MatchSet(a, calls[k].call, MatchWild) || MatchSet(b, calls[k].call, MatchWild)
    {
      MatchUnion(a, b, calls[k].call, MatchWild);
    }
    if Digipeated(calls, a + b) {
      var k :| 0 <= k < |calls| && MatchSet(a + b, calls[k].call, MatchWild) && Starred(calls, k);
      assert MatchSet(a, calls[k].call, MatchWild) || MatchSet(b, calls[k].call, MatchWild);
    }
    if Digipeated(calls, a) {
      var k :| 0 <= k < |calls| && MatchSet(a, calls[k].call, MatchWild) && Starred(calls, k);
      assert MatchSet(a + b, calls[k].call, MatchWild);
    }
    if Digipeated(calls, b) {
      var k :| 0 <= k < |calls| && MatchSet(b, calls[k].call, MatchWild) && Starred(calls, k);
      assert MatchSet(a + b, calls[k].call, MatchWild);
    }
  }

  /** Leaving out a first call that does not match changes nothing. */
  lemma SkipCall(c: Via, rest: seq<Via>, refs: seq<Ref>)
    requires !MatchSet(refs, c.call, MatchWild)
    ensures Digipeated([c] + rest, refs) <==> Digipeated(rest, refs)
  {
    hide MatchSet;
    var all := [c] + rest;
    if Digipeated(all, refs) {
      var a :| 0 <= a < |all| && MatchSet(refs, all[a].call, MatchWild) && Starred(all, a);
      var b :| a <= b < |all| && all[b].starred;
      assert rest[b - 1] == all[b] && rest[a - 1] == all[a];
      assert Starred(rest, a - 1);
    }
    if Digipeated(rest, refs) {
      var a :| 0 <= a < |rest| && MatchSet(refs, rest[a].call, MatchWild) && Starred(rest, a);
      var b :| a <= b < |rest| && rest[b].starred;
      assert all[b + 1] == rest[b] && all[a + 1] == rest[a];
      assert Starred(all, a + 1);
    }
  }

  /** Once the first call matches, only a star matters. */
  lemma FirstMatches(calls: seq<Via>, refs: seq<Ref>)
    requires calls != [] && MatchSet(refs, calls[0].call, MatchWild)
    ensures Digipeated(calls, refs) <==> Starred(calls, 0)
  {
    hide MatchSet;
    if Starred(calls, 0) { assert calls[0].call == calls[0].call; }
  }

  lemma StarredFirst(c: Via, rest: seq<Via>)
    ensures Starred([c] + rest, 0) <==> c.starred || Starred(rest, 0)
  {
    var all := [c] + rest;
    if Starred(all, 0) {
      var b :| 0 <= b < |all| && all[b].starred;
      if b > 0 { assert rest[b - 1].starred; }
    }
    if Starred(rest, 0) {
      var b :| 0 <= b < |rest| && rest[b].starred;
      assert all[b + 1].starred;
    }
    if c.starred { assert all[0].starred; }
  }

  /** The search for the end of a call. */
  method FindEnd(via: string, d: nat) returns (i: nat)
    requires d <= |via|
    ensures i == CallLen(via, d, 0)
  {
    i := 0;
    while d + i <= |via| && i <= CALLSIGNLEN_MAX
      invariant i <= CALLSIGNLEN_MAX + 1 && d + i <= |via| && CallLen(via, d, 0) == CallLen(via, d, i)
    {
      if At(via, d + i) == ',' { break; }
      i := i + 1;
    }
  }

  /** filter_process_one_d: d is the scan position, j counts the calls seen. */
  method ProcessD(via: string, table: array<Ref>, numnames: nat) returns (r: int)
    requires numnames <= table.Length
    ensures r == if Digipeated(Calls(via, 0, MAX_CALLS), table[..numnames]) then 1 else 0
  {
    hide MatchSet, Digipeated, Starred, CallLen, Calls, CallAt, CallEnd;
    ghost var refs := table[..numnames];
    var limit := MAX_CALLS;
    ghost var all := Calls(via, 0, limit);
    var d, j := 0, 0;
    while d < |via| && j < limit
      invariant 0 <= d <= |via| && 0 <= j <= limit
      invariant Digipeated(all, refs) <==> Digipeated(Calls(via, d, limit - j), refs)
      decreases |via| - d
    {
      var start, i, cl := NextCall(via, d);
      CallsStep(via, d, limit - j);
      CallEnds(via, d);
      ghost var rest := Calls(via, start + i, limit - j - 1);
      var rc := MatchOnCallsignset(table, numnames, via[start..start + cl], MatchWild);
      if rc == 1 {
        FirstMatches(Calls(via, d, limit - j), refs);
        StarredFirst(CallAt(via, d), rest);
        if At(via, start + cl) == '*' { return 1; }
        r := StarFrom(via, start + i, limit - j - 1);
        return;
      }
      SkipCall(CallAt(via, d), rest, refs);
      d := start + i;
      j := j + 1;
    }
    CallsDone(via, d, limit - j);
    NothingLeft(refs);
    return 0;
  }

  /** The call at d: where it starts, how long it is, and how long without its star. */
  method NextCall(via: string, d: nat) returns (start: nat, i: nat, cl: nat)
    requires d < |via|
    ensures start + i == CallEnd(via, d) && start + cl <= start + i <= |via|
    ensures CallAt(via, d).call == via[start..start + cl] && (CallAt(via, d).starred <==> At(via, start + cl) == '*')
  {
    start := if At(via, d) == ',' then d + 1 else d;
    i := FindEnd(via, start);
    CallEnds(via, d);
    cl := i;
    if i > 0 && via[start + i - 1] == '*' { cl := cl - 1; }
    if cl > CALLSIGNLEN_MAX { cl := CALLSIGNLEN_MAX; }
    CallIs(via, d, start, i, cl);
  }

  lemma NothingLeft(refs: seq<Ref>)
    ensures !Digipeated([], refs) && !Starred([], 0)
  {
  }

  /** The second loop: a star on any of the calls left. */
  method StarFrom(via: string, from: nat, left: nat) returns (r: int)
    ensures r == if Starred(Calls(via, from, left), 0) then 1 else 0
  {
    hide Starred, Calls, CallLen;
    var d, n := from, left;
    while d < |via| && n > 0
      invariant 0 <= d && 0 <= n
      invariant Starred(Calls(via, from, left), 0) <==> Starred(Calls(via, d, n), 0)
      decreases n
    {
      var start := if At(via, d) == ',' then d + 1 else d;
      var i := FindEnd(via, start);
      CallEnds(via, d);
      CallsStep(via, d, n);
      StarredFirst(CallAt(via, d), Calls(via, start + i, n - 1));
      if i > 0 && via[start + i - 1] == '*' { return 1; }
      d := start + i;
      n := n - 1;
    }
    CallsDone(via, d, n);
    NothingLeft([]);
    return 0;
  }

  lemma CallEnds(via: string, p: nat)
    requires p < |via|
    ensures CallEnd(via, p) == CallStart(via, p) + CallLen(via, CallStart(via, p), 0)
    ensures p < CallEnd(via, p) <= |via|
  {
  }

  lemma CallsStep(via: string, p: nat, left: nat)
    requires p < |via| && left > 0
    ensures Calls(via, p, left) == [CallAt(via, p)] + Calls(via, CallEnd(via, p), left - 1)
  {
  }

  lemma CallsDone(via: string, p: nat, left: nat)
    requires p >= |via| || left == 0
    ensures Calls(via, p, left) == []
  {
  }

  lemma CallStops(via: string, d: nat)
    requires d <= |via|
    ensures var i := CallLen(via, d, 0);
      && d + i <= |via| && i <= CALLSIGNLEN_MAX + 1
      && (i <= CALLSIGNLEN_MAX ==> At(via, d + i) == ',')
  {
  }

  /** The two ways the code looks for a call's star agree. */
  lemma CallIs(via: string, p: nat, d: nat, i: nat, cl: nat)
    requires p < |via| && d == CallStart(via, p) && i == CallLen(via, d, 0) && d + i <= |via|
    requires var c := if i > 0 && via[d + i - 1] == '*' then i - 1 else i;
      cl == if c > CALLSIGNLEN_MAX then CALLSIGNLEN_MAX else c
    ensures d + i == CallEnd(via, p) && cl <= i
    ensures CallAt(via, p).call == via[d..d + cl] && (CallAt(via, p).starred <==> At(via, d + cl) == '*')
  {
    CallEnds(via, p);
    CallStops(via, d);
    hide CallLen, CallEnd;
    if i > 0 && via[d + i - 1] == '*' {
      assert At(via, d + cl) == '*';
    } else if i <= CALLSIGNLEN_MAX {
      assert Clip(via[d..d + i]) == via[d..d + cl];
    } else {
      assert Clip(via[d..d + i]) == via[d..d + i][..CALLSIGNLEN_MAX] == via[d..d + cl];
    }
  }

  // ---------------------------------------------------------------- one filter

  /** A filter: by callsigns, of another kind, or with a string that ends before its kind. */
  datatype Node = Callset(kind: char, refs: seq<Ref>) | Other(text: string) | Kindless(text: string)

  function TextOf(n: Node): string { if n.Callset? then "" else n.text }

  const CALLSET_KINDS := "bdegopuBDEGOPU"
  const OTHER_KINDS := "afmqrstAFMQRST"

  function ModeOf(kind: char): Mode { if kind == 'p' || kind == 'P' then MatchPrefix else MatchWild }

  /** Source filters also look at the inner source of third-party packets. */
  predicate FromMatches(refs: seq<Ref>, pb: Packet, mode: Mode) {
    MatchSet(refs, Clip(pb.src), mode) || (pb.third.Some? && MatchSet(refs, Clip(pb.third.value), mode))
  }

  predicate Passes(kind: char, refs: seq<Ref>, pb: Packet) {
    match Upper(kind)
    case 'B' => FromMatches(refs, pb, MatchWild)
    case 'P' => FromMatches(refs, pb, MatchPrefix)
    case 'D' => Digipeated(Calls(pb.via, 0, MAX_CALLS), refs)
    case 'E' => |pb.entry| >= 1 && MatchSet(refs, pb.entry, MatchWild)
    case 'G' => pb.recipient.Some? && |pb.recipient.value| >= 1 && MatchSet(refs, pb.recipient.value, MatchWild)
    case 'O' => pb.item.Some? && 1 <= |pb.item.value| <= CALLSIGNLEN_MAX && MatchSet(refs, pb.item.value, MatchWild)
    case 'U' => MatchSet(refs, Clip(pb.dst), MatchWild)
    case _ => false
  }

  /** A filter of any kind passes what its names pass between them. */
  lemma PassesUnion(kind: char, a: seq<Ref>, b: seq<Ref>, pb: Packet)
    ensures Passes(kind, a + b, pb) <==> Passes(kind, a, pb) || Passes(kind, b, pb)
  {
    hide MatchSet, Digipeated, Calls, FromMatches;
    FromUnion(a, b, pb, if Upper(kind) == 'P' then MatchPrefix else MatchWild);
    DigipeatedUnion(Calls(pb.via, 0, MAX_CALLS), a, b);
    MatchUnion(a, b, pb.entry, MatchWild);
    if pb.recipient.Some? { MatchUnion(a, b, pb.recipient.value, MatchWild); }
    if pb.item.Some? { MatchUnion(a, b, pb.item.value, MatchWild); }
    MatchUnion(a, b, Clip(pb.dst), MatchWild);
  }

  lemma FromUnion(a: seq<Ref>, b: seq<Ref>, pb: Packet, mode: Mode)
    ensures FromMatches(a + b, pb, mode) <==> FromMatches(a, pb, mode) || FromMatches(b, pb, mode)
  {
    hide MatchSet;
    MatchUnion(a, b, Clip(pb.src), mode);
    if pb.third.Some? { MatchUnion(a, b, Clip(pb.third.value), mode); }
  }

  /** The parts of the filter code outside this model: how it parses the other kinds (negative is a
      rejection), what their filters answer for the packet at hand, whether the client has been
      warned of a bad filter before, and what printing the warning returns, which is the number of
      bytes or an error. */
  datatype World = World(judge: string -> int, answer: string -> int, warned: bool, printed: string -> int)

  /** client_bad_filter_notify */
  function Notify(w: World, text: string): int { if w.warned then 0 else w.printed(text) }

  function Answer(w: World, n: Node, pb: Packet): int {
    match n
    case Callset(kind, refs) => if Passes(kind, refs, pb) then 1 else 0
    case Other(text) => w.answer(text)
    case Kindless(_) => -1
  }

  method ProcessFrom(table: array<Ref>, numnames: nat, pb: Packet, mode: Mode) returns (r: int)
    requires numnames <= table.Length
    ensures r == if FromMatches(table[..numnames], pb, mode) then 1 else 0
  {
    r := MatchOnCallsignset(table, numnames, Clip(pb.src), mode);
    if r == 0 && pb.third.Some? { r := MatchOnCallsignset(table, numnames, Clip(pb.third.value), mode); }
  }

  method ProcessKey(table: array<Ref>, numnames: nat, key: Option<string>) returns (r: int)
    requires numnames <= table.Length
    ensures r == if key.Some? && |key.value| >= 1 && MatchSet(table[..numnames], key.value, MatchWild) then 1 else 0
  {
    if key == None || |key.value| < 1 { return 0; }
    r := MatchOnCallsignset(table, numnames, key.value, MatchWild);
  }

  method ProcessObject(table: array<Ref>, numnames: nat, key: Option<string>) returns (r: int)
    requires numnames <= table.Length
    ensures r == if key.Some? && 1 <= |key.value| <= CALLSIGNLEN_MAX
        && MatchSet(table[..numnames], key.value, MatchWild)
                 then 1 else 0
  {
    if key == None || |key.value| < 1 || |key.value| > CALLSIGNLEN_MAX { return 0; }
    r := MatchOnCallsignset(table, numnames, key.value, MatchWild);
  }

  // ---------------------------------------------------------------- filters in memory

  /** struct filter_t: for the callsign kinds, a table of names of which the first numnames count. */
  class Filter {
    const node: Node   // kind or text; the names are in the table
    var names: array<Ref>
    var numnames: nat

    ghost predicate Valid()
      reads this
    {
      numnames <= names.Length && (node.Callset? ==> node.kind in CALLSET_KINDS)
    }

    ghost function Value(): Node
      reads this, names
      requires Valid()
    {
      if node.Callset? then Callset(node.kind, names[..numnames]) else node
    }

    constructor (node: Node)
      requires node.Callset? ==> node.kind in CALLSET_KINDS && node.refs == []
      ensures Valid() && this.node == node && fresh(names) && Value() == node
    {
      this.node := node;
      names, numnames := new Ref[0], 0;
    }

    /** filter_parse_one_callsignset.  The table is made larger and names are written behind its end
        before the string is known to be good; only numnames decides what counts, and it is written
        last. */
    method Extend(filt: string, mode: Mode) returns (ok: bool)
      requires Valid()
      modifies this`names, this`numnames
      ensures Valid() && (names == old(names) || fresh(names))
      ensures ok <==> Parsed(filt, mode).Some?
      ensures names[..numnames] == old(names[..numnames]) + (if ok then Parsed(filt, mode).value else [])
      ensures !ok ==> numnames == old(numnames)
    {
      hide Names, CountNames;
      var p := NamesStart(filt);
      var refmax := CountLoop(filt, p);
      ghost var before := names[..numnames];
      assert before + [] == before;
      SomeNames(filt, p);
      if refmax == 0 { return false; }
      var kept := names[..numnames];
      var table := new Ref[numnames + refmax](i => if 0 <= i < |kept| then kept[i] else Ref("", false));
      assert table[..numnames] == kept;
      names := table;
      var end := FillNames(table, numnames, filt, p, mode);
      if end == None { return false; }
      numnames := end.value;
      assert names[..numnames] == table[..];
      return true;
    }

    /** filter_process_one for the callsign kinds. */
    method ProcessOne(w: World, pb: Packet) returns (rc: int)
      requires Valid()
      ensures rc == Answer(w, Value(), pb)
    {
      hide MatchSet, Digipeated, Calls;
      if node.Other? { return w.answer(node.text); }
      if node.Kindless? { return -1; }
      match node.kind {
        case 'b' => rc := ProcessFrom(names, numnames, pb, MatchWild);
        case 'B' => rc := ProcessFrom(names, numnames, pb, MatchWild);
        case 'p' => rc := ProcessFrom(names, numnames, pb, MatchPrefix);
        case 'P' => rc := ProcessFrom(names, numnames, pb, MatchPrefix);
        case 'd' => rc := ProcessD(pb.via, names, numnames);
        case 'D' => rc := ProcessD(pb.via, names, numnames);
        case 'e' => rc := ProcessKey(names, numnames, Some(pb.entry));
        case 'E' => rc := ProcessKey(names, numnames, Some(pb.entry));
        case 'g' => rc := ProcessKey(names, numnames, pb.recipient);
        case 'G' => rc := ProcessKey(names, numnames, pb.recipient);
        case 'o' => rc := ProcessObject(names, numnames, pb.item);
        case 'O' => rc := ProcessObject(names, numnames, pb.item);
        case _ => rc := MatchOnCallsignset(names, numnames, Clip(pb.dst), MatchWild);
      }
    }
  }

  lemma SomeNames(filt: string, p: nat)
    requires p <= |filt|
    ensures CountNames(filt, p) == 0 <==> p == |filt|
  {
  }
}
