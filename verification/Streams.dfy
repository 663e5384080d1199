/** The byte streams of src/worker.c: lines are cut out of the input however reads split it, and
    bytes put in the output buffer leave it in order. */
module Streams {
  import opened Basics

  predicate Eol(b: Byte) { b == 13 || b == 10 }

  // ---------------------------------------------------------------- lines

  /** The non-empty runs of s, after cur, that an end-of-line character closes. */
  function Lines(s: Bytes, cur: Bytes): seq<Bytes> {
    if s == [] then []
    else if Eol(s[0]) then (if cur == [] then [] else [cur]) + Lines(s[1..], [])
    else Lines(s[1..], cur + [s[0]])
  }

  /** The run left open at the end. */
  function Rest(s: Bytes, cur: Bytes): Bytes {
    if s == [] then cur else if Eol(s[0]) then Rest(s[1..], []) else Rest(s[1..], cur + [s[0]])
  }

  predicate NoEol(s: Bytes) { forall k :: 0 <= k < |s| ==> !Eol(s[k]) }

  lemma {:induction false} LinesSplit(a: Bytes, b: Bytes, cur: Bytes)
    ensures Lines(a + b, cur) == Lines(a, cur) + Lines(b, Rest(a, cur))
    ensures Rest(a + b, cur) == Rest(b, Rest(a, cur))
    decreases |a|
  {
    if a == [] {
      assert a + b == b;
    } else {
      assert (a + b)[1..] == a[1..] + b;
      LinesSplit(a[1..], b, if Eol(a[0]) then [] else cur + [a[0]]);
    }
  }

  /** Text without line ends only lengthens the open run. */
  lemma {:induction false} NoLines(x: Bytes, cur: Bytes)
    requires NoEol(x)
    ensures Lines(x, cur) == [] && Rest(x, cur) == cur + x
    decreases |x|
  {
    if x != [] {
      NoLines(x[1..], cur + [x[0]]);
      assert cur + [x[0]] + x[1..] == cur + x;
    }
  }

  lemma {:induction false} RestNoEol(s: Bytes, cur: Bytes)
    requires NoEol(cur)
    ensures NoEol(Rest(s, cur))
    decreases |s|
  {
    if s != [] { RestNoEol(s[1..], if Eol(s[0]) then [] else cur + [s[0]]); }
  }

  function Joined(ls: seq<Bytes>): Bytes { if ls == [] then [] else ls[0] + Joined(ls[1..]) }

  function WithoutEol(s: Bytes): Bytes {
    if s == [] then [] else (if Eol(s[0]) then [] else [s[0]]) + WithoutEol(s[1..])
  }

  lemma JoinedCons(x: Bytes, ls: seq<Bytes>)
    ensures Joined([x] + ls) == x + Joined(ls)
  {
    assert ([x] + ls)[1..] == ls;
  }

  lemma WithoutStep(s: Bytes)
    requires s != []
    ensures WithoutEol(s) == if Eol(s[0]) then WithoutEol(s[1..]) else [s[0]] + WithoutEol(s[1..])
  {
    if Eol(s[0]) { assert [] + WithoutEol(s[1..]) == WithoutEol(s[1..]); }
  }

  /** Nothing but line ends is lost: the lines and the open run are the input without them. */
  lemma {:induction false} LinesConserve(s: Bytes, cur: Bytes)
    ensures Joined(Lines(s, cur)) + Rest(s, cur) == cur + WithoutEol(s)
    decreases |s|
  {
    hide Joined, WithoutEol;
    if s == [] {
      NothingJoined();
      assert [] + cur == cur + [];
    } else {
      WithoutStep(s);
      var tail := s[1..];
      if Eol(s[0]) {
        LinesConserve(tail, []);
        var ls, rest := Lines(tail, []), Rest(tail, []);
        if cur == [] {
          assert [] + ls == ls;
        } else {
          JoinedCons(cur, ls);
          assert cur + Joined(ls) + rest == cur + (Joined(ls) + rest);
          assert [] + WithoutEol(tail) == WithoutEol(tail);
        }
      } else {
        LinesConserve(tail, cur + [s[0]]);
        assert cur + [s[0]] + WithoutEol(tail) == cur + ([s[0]] + WithoutEol(tail));
      }
    }
  }

  lemma NothingJoined()
    ensures Joined([]) == [] && WithoutEol([]) == []
  {
  }

  /** Lines are not empty and contain no line end. */
  lemma {:induction false} LinesClean(s: Bytes, cur: Bytes)
    requires NoEol(cur)
    ensures forall k :: 0 <= k < |Lines(s, cur)| ==> Lines(s, cur)[k] != [] && NoEol(Lines(s, cur)[k])
    decreases |s|
  {
    if s != [] { LinesClean(s[1..], if Eol(s[0]) then [] else cur + [s[0]]); }
  }

  /** Bytes 13 and 10 in any order and number, at least one. */
  predicate Ending(e: Bytes) { e != [] && forall b :: b in e ==> b == 13 || b == 10 }

  /** Each line with its ending. */
  function Framed(ls: seq<Bytes>, es: seq<Bytes>): Bytes
    requires |es| == |ls|
  {
    if ls == [] then [] else ls[0] + es[0] + Framed(ls[1..], es[1..])
  }

  lemma {:induction false} EndingOnly(e: Bytes, cur: Bytes)
    requires Ending(e)
    ensures Lines(e, cur) == (if cur == [] then [] else [cur]) && Rest(e, cur) == []
    decreases |e|
  {
    assert e[0] in e;
    if |e| > 1 {
      assert forall b :: b in e[1..] ==> b in e;
      EndingOnly(e[1..], []);
    } else {
      assert e[1..] == [];
    }
  }

  /** Whatever lines are sent with whatever endings, these lines are read. */
  lemma {:induction false} FramedLines(ls: seq<Bytes>, es: seq<Bytes>)
    requires |es| == |ls| && (forall k :: 0 <= k < |es| ==> Ending(es[k]))
    requires forall k :: 0 <= k < |ls| ==> ls[k] != [] && 13 !in ls[k] && 10 !in ls[k]
    ensures Lines(Framed(ls, es), []) == ls && Rest(Framed(ls, es), []) == []
    decreases |ls|
  {
    if ls != [] {
      var x, e, more := ls[0], es[0], Framed(ls[1..], es[1..]);
      FramedLines(ls[1..], es[1..]);
      assert forall k :: 0 <= k < |x| ==> x[k] in x;
      NoLines(x, []);
      EndingOnly(e, x);
      LinesSplit(x, e, []);
      LinesSplit(x + e, more, []);
      assert [] + x == x && ls == [x] + ls[1..];
    }
  }

  // ---------------------------------------------------------------- reads of any size

  function Concat(chunks: seq<Bytes>): Bytes {
    if chunks == [] then [] else Concat(chunks[..|chunks| - 1]) + chunks[|chunks| - 1]
  }

  /** The buffer after a sequence of reads, each handled as the code does. */
  function Kept(chunks: seq<Bytes>): Bytes {
    if chunks == [] then [] else Rest(Kept(chunks[..|chunks| - 1]) + chunks[|chunks| - 1], [])
  }

  /** The lines delivered on the way. */
  function Delivered(chunks: seq<Bytes>): seq<Bytes> {
    if chunks == [] then []
    else
      var k := |chunks| - 1;
      Delivered(chunks[..k]) + Lines(Kept(chunks[..k]) + chunks[k], [])
  }

  /** However the input is split into reads, the lines delivered are those of the whole input. */
  lemma {:induction false} ChunkingIrrelevant(chunks: seq<Bytes>)
    ensures Delivered(chunks) == Lines(Concat(chunks), [])
    ensures Kept(chunks) == Rest(Concat(chunks), [])
  {
    hide Lines, Rest;
    if chunks == [] {
      NothingRead();
    } else {
      var k := |chunks| - 1;
      var a, b := Concat(chunks[..k]), chunks[k];
      var kept := Kept(chunks[..k]);
      ChunkingIrrelevant(chunks[..k]);
      LinesSplit(a, b, []);
      RestNoEol(a, []);
      LinesSplit(kept, b, []);
      NoLines(kept, []);
      assert [] + kept == kept;
      assert [] + Lines(b, kept) == Lines(b, kept);
    }
  }

  lemma NothingRead()
    ensures Lines([], []) == [] && Rest([], []) == []
  {
  }

  // ---------------------------------------------------------------- the input buffer

  /** Whether the handler drops the client on a line, given the lines it was fed before: a login
      line, say, and then packets. */
  type Handler = (seq<Bytes>, Bytes) -> bool

  /** The lines up to the first on which the client is dropped. */
  function UpTo(before: seq<Bytes>, ls: seq<Bytes>, drops: Handler): seq<Bytes>
    decreases |ls|
  {
    if ls == [] then []
    else if drops(before, ls[0]) then [ls[0]]
    else [ls[0]] + UpTo(before + [ls[0]], ls[1..], drops)
  }

  predicate Dropped(before: seq<Bytes>, ls: seq<Bytes>, drops: Handler)
    decreases |ls|
  {
    ls != [] && (drops(before, ls[0]) || Dropped(before + [ls[0]], ls[1..], drops))
  }

  lemma {:induction false} UpToAll(before: seq<Bytes>, ls: seq<Bytes>, drops: Handler)
    requires !Dropped(before, ls, drops)
    ensures UpTo(before, ls, drops) == ls
    decreases |ls|
  {
    if ls != [] {
      UpToAll(before + [ls[0]], ls[1..], drops);
      assert ls == [ls[0]] + ls[1..];
    }
  }

  lemma {:induction false} UpToSplit(before: seq<Bytes>, a: seq<Bytes>, b: seq<Bytes>, drops: Handler)
    ensures UpTo(before, a + b, drops) ==
            if Dropped(before, a, drops) then UpTo(before, a, drops) else a + UpTo(before + a, b, drops)
    ensures Dropped(before, a + b, drops) <==> Dropped(before, a, drops) || Dropped(before + a, b, drops)
    decreases |a|
  {
    if a == [] {
      assert a + b == b && before + a == before;
      assert [] + UpTo(before, b, drops) == UpTo(before, b, drops);
    } else {
      assert (a + b)[1..] == a[1..] + b && (a + b)[0] == a[0];
      UpToSplit(before + [a[0]], a[1..], b, drops);
      assert before + [a[0]] + a[1..] == before + a;
      if !Dropped(before, a, drops) { SplitHead(a, UpTo(before + a, b, drops)); }
    }
  }

  lemma SplitHead(a: seq<Bytes>, rest: seq<Bytes>)
    requires a != []
    ensures [a[0]] + (a[1..] + rest) == a + rest
  {
  }

  /** The handler drops the client on the line after a. */
  lemma UpToStops(before: seq<Bytes>, a: seq<Bytes>, x: Bytes, b: seq<Bytes>, drops: Handler)
    requires !Dropped(before, a, drops) && drops(before + a, x)
    ensures UpTo(before, a + ([x] + b), drops) == a + [x] && Dropped(before, a + ([x] + b), drops)
  {
    UpToSplit(before, a, [x] + b, drops);
  }

  lemma DroppedMore(before: seq<Bytes>, a: seq<Bytes>, x: Bytes, drops: Handler)
    requires !Dropped(before, a, drops) && !drops(before + a, x)
    ensures !Dropped(before, a + [x], drops)
  {
    UpToSplit(before, a, [x], drops);
  }

  lemma LineAt(s: Bytes, row: nat, i: nat)
    requires row <= i < |s| && NoEol(s[row..i]) && Eol(s[i])
    ensures Lines(s[row..], []) == (if row == i then [] else [s[row..i]]) + Lines(s[i + 1..], [])
    ensures Rest(s[row..], []) == Rest(s[i + 1..], [])
  {
    hide Lines, Rest;
    assert s[row..] == s[row..i] + s[i..];
    LinesSplit(s[row..i], s[i..], []);
    NoLines(s[row..i], []);
    assert [] + s[row..i] == s[row..i];
    assert s[i..][1..] == s[i + 1..];
    EolStep(s[i..], s[row..i]);
    assert [] + Lines(s[i..], s[row..i]) == Lines(s[i..], s[row..i]);
  }

  lemma EolStep(s: Bytes, cur: Bytes)
    requires s != [] && Eol(s[0])
    ensures Lines(s, cur) == (if cur == [] then [] else [cur]) + Lines(s[1..], []) && Rest(s, cur) == Rest(s[1..], [])
  {
  }

  /** deframe_aprsis_input_lines over the filled part of the buffer.  The result is the number of
      bytes consumed, or -1 when the handler dropped the client. */
  method Deframe(ibuf: Bytes, before: seq<Bytes>, drops: Handler) returns (consumed: int, fed: seq<Bytes>)
    ensures fed == UpTo(before, Lines(ibuf, []), drops)
    ensures consumed == -1 <==> Dropped(before, Lines(ibuf, []), drops)
    ensures consumed != -1 ==> 0 <= consumed <= |ibuf| && ibuf[consumed..] == Rest(ibuf, [])
  {
    hide Lines, Rest, UpTo, Dropped;
    ghost var all := Lines(ibuf, []);
    var i, row := 0, 0;
    fed := [];
    assert ibuf[0..] == ibuf && fed + all == all;
    NotDropped(before, drops);
    while i < |ibuf|
      invariant 0 <= row <= |ibuf| && row <= i <= |ibuf| + 1 && (i > |ibuf| ==> row == |ibuf|)
      invariant i <= |ibuf| ==> NoEol(ibuf[row..i])
      invariant all == fed + Lines(ibuf[row..], []) && Rest(ibuf, []) == Rest(ibuf[row..], [])
      invariant !Dropped(before, fed, drops)
      decreases |ibuf| - i
    {
      if Eol(ibuf[i]) {
        LineAt(ibuf, row, i);
        var was := fed;
        if i - row > 0 {
          fed := fed + [ibuf[row..i]];
          if drops(before + was, ibuf[row..i]) {
            UpToStops(before, was, ibuf[row..i], Lines(ibuf[i + 1..], []), drops);
            return -1, fed;
          }
          DroppedMore(before, was, ibuf[row..i], drops);
        }
        i := SkipEols(ibuf, i + 1);
        row := i;
      }
      assert i < |ibuf| ==> ibuf[row..i + 1] == ibuf[row..i] + [ibuf[i]];
      i := i + 1;
    }
    NoLines(ibuf[row..], []);
    assert [] + ibuf[row..] == ibuf[row..];
    assert fed + [] == fed;
    UpToAll(before, fed, drops);
    consumed := row;
  }

  lemma NotDropped(before: seq<Bytes>, drops: Handler)
    ensures !Dropped(before, [], drops)
  {
  }

  method SkipEols(ibuf: Bytes, from: nat) returns (i: nat)
    requires from <= |ibuf|
    ensures from <= i <= |ibuf| && (i < |ibuf| ==> !Eol(ibuf[i]))
    ensures Lines(ibuf[from..], []) == Lines(ibuf[i..], []) && Rest(ibuf[from..], []) == Rest(ibuf[i..], [])
  {
    hide Lines, Rest;
    i := from;
    while i < |ibuf| && Eol(ibuf[i])
      invariant from <= i <= |ibuf|
      invariant Lines(ibuf[from..], []) == Lines(ibuf[i..], []) && Rest(ibuf[from..], []) == Rest(ibuf[i..], [])
    {
      EolStep(ibuf[i..], []);
      assert ibuf[i..][1..] == ibuf[i + 1..];
      i := i + 1;
    }
  }

  /** A client's input buffer; one byte of it stays unused. */
  class Input {
    const ibuf: array<Byte>
    var ibufEnd: nat

    ghost predicate Valid()
      reads this
    {
      ibuf.Length >= 1 && ibufEnd < ibuf.Length
    }

    ghost function Contents(): Bytes
      reads this, ibuf
      requires Valid()
    {
      ibuf[..ibufEnd]
    }

    constructor (size: nat)
      requires size >= 1
      ensures Valid() && fresh(ibuf) && ibuf.Length == size && Contents() == []
    {
      ibuf, ibufEnd := new Byte[size](_ => 0), 0;
    }

    /** A read of data, then client_postread: lines are fed to the handler and the open run moves
        to the front. */
    method Receive(data: Bytes, before: seq<Bytes>, drops: Handler) returns (ok: bool, fed: seq<Bytes>)
      requires Valid() && |data| <= ibuf.Length - ibufEnd - 1
      modifies this, ibuf
      ensures Valid()
      ensures fed == UpTo(before, Lines(old(Contents()) + data, []), drops)
      ensures ok <==> !Dropped(before, Lines(old(Contents()) + data, []), drops)
      ensures ok ==> Contents() == Rest(old(Contents()) + data, [])
    {
      hide Lines, Rest, UpTo, Dropped;
      ghost var kept := Contents();
      forall k | 0 <= k < |data| { ibuf[ibufEnd + k] := data[k]; }
      ibufEnd := ibufEnd + |data|;
      assert ibuf[..ibufEnd] == kept + data;
      var consumed;
      consumed, fed := Deframe(ibuf[..ibufEnd], before, drops);
      if consumed == -1 { return false, fed; }
      ghost var all, rest := ibuf[..ibufEnd], ibuf[..ibufEnd][consumed..];
      assert forall k :: 0 <= k < |rest| ==> rest[k] == all[consumed + k] == ibuf[consumed + k];
      if consumed >= ibufEnd {
        ibufEnd := 0;
      } else if consumed > 0 {
        ibufEnd := ibufEnd - consumed;
        forall k | 0 <= k < ibufEnd { ibuf[k] := ibuf[consumed + k]; }
      }
      assert |rest| == ibufEnd && forall k :: 0 <= k < ibufEnd ==> ibuf[k] == rest[k];
      assert ibuf[..ibufEnd] == rest;
      return true, fed;
    }
  }

  // ---------------------------------------------------------------- a whole connection

  /** The lines of a longer input start with those of the shorter one. */
  lemma {:induction false} DeliveredPrefix(chunks: seq<Bytes>, n: nat)
    requires n <= |chunks|
    ensures Delivered(chunks[..n]) <= Delivered(chunks)
    decreases |chunks| - n
  {
    hide Lines, Kept;
    if n < |chunks| {
      assert chunks[..n + 1][..n] == chunks[..n];
      DeliveredPrefix(chunks, n + 1);
    } else {
      assert chunks[..n] == chunks;
    }
  }

  lemma NothingDelivered(chunks: seq<Bytes>)
    ensures Delivered(chunks[..0]) == [] && Kept(chunks[..0]) == []
  {
  }

  lemma DeliveredMore(chunks: seq<Bytes>, n: nat)
    requires n < |chunks|
    ensures Delivered(chunks[..n + 1]) == Delivered(chunks[..n]) + Lines(Kept(chunks[..n]) + chunks[n], [])
    ensures Kept(chunks[..n + 1]) == Rest(Kept(chunks[..n]) + chunks[n], [])
  {
    assert chunks[..n + 1][..n] == chunks[..n];
  }

  /** Every read fits behind what is kept: no line outgrows the buffer. */
  ghost predicate Fit(chunks: seq<Bytes>, size: nat) {
    forall i :: 0 <= i < |chunks| ==> |Kept(chunks[..i])| + |chunks[i]| < size
  }

  /** However the input is split into reads, the handler is fed the lines of the whole input, up to
      one that drops the client. */
  method ReceiveAll(inp: Input, chunks: seq<Bytes>, drops: Handler) returns (ok: bool, fed: seq<Bytes>)
    requires inp.Valid() && inp.Contents() == [] && Fit(chunks, inp.ibuf.Length)
    modifies inp, inp.ibuf
    ensures inp.Valid()
    ensures fed == UpTo([], Lines(Concat(chunks), []), drops)
    ensures ok <==> !Dropped([], Lines(Concat(chunks), []), drops)
    ensures ok ==> inp.Contents() == Rest(Concat(chunks), [])
  {
    hide Lines, Rest, UpTo, Dropped, Concat, Kept, Delivered;
    ChunkingIrrelevant(chunks);
    NothingDelivered(chunks);
    fed := [];
    NotDropped([], drops);
    for n := 0 to |chunks|
      invariant inp.Valid() && inp.Contents() == Kept(chunks[..n])
      invariant fed == Delivered(chunks[..n]) && !Dropped([], fed, drops)
    {
      DeliveredMore(chunks, n);
      var more;
      ok, more := inp.Receive(chunks[n], fed, drops);
      ghost var lines := Lines(Kept(chunks[..n]) + chunks[n], []);
      assert [] + fed == fed;
      UpToSplit([], fed, lines, drops);
      if !ok {
        DeliveredPrefix(chunks, n + 1);
        ghost var done := Delivered(chunks[..n + 1]);
        UpToSplit([], done, Delivered(chunks)[|done|..], drops);
        assert Delivered(chunks) == done + Delivered(chunks)[|done|..];
        fed := fed + more;
        return;
      }
      UpToAll(fed, lines, drops);
      fed := fed + more;
    }
    assert chunks[..|chunks|] == chunks;
    UpToAll([], fed, drops);
    return true, fed;
  }

  // ---------------------------------------------------------------- the output buffer

  /** What write() can answer. */
  datatype Written = Wrote(n: nat) | Again | Pipe | Failed

  /** Where the buffered bytes end once len more are in, moved to the front or not. */
  function EndAfter(start: int, end: int, len: int, size: int): int {
    if end + len > size then end - start + len else end + len
  }

  /** Whether tcp_client_write tries to write at once. */
  predicate Tries(end: int, pending: int, flushsize: int, len: int) { end > flushsize || (len == 0 && pending > 0) }

  /** What it returns after trying. */
  function CodeOf(answer: Written, len: int): int {
    match answer
    case Pipe => -9
    case Again => -1
    case Failed => if len != 0 then -11 else len
    case Wrote(_) => len
  }

  class Output {
    const obuf: array<Byte>
    const flushsize: int
    var start: nat
    var end: nat
    /** Bytes taken from the caller, and bytes handed to the socket. */
    ghost var accepted: Bytes
    ghost var sent: Bytes

    ghost predicate Valid()
      reads this, obuf
    {
      start <= end <= obuf.Length && sent + obuf[start..end] == accepted
    }

    constructor (size: nat, flushsize: int)
      ensures Valid() && fresh(obuf) && obuf.Length == size && this.flushsize == flushsize
      ensures start == 0 && end == 0 && accepted == [] && sent == []
    {
      obuf, this.flushsize := new Byte[size](_ => 0), flushsize;
      start, end, accepted, sent := 0, 0, [], [];
    }

    /** client_buffer_outgoing_allocate: room for len bytes at the end, if need be by moving what is
        pending to the front. */
    method Allocate(len: nat) returns (ok: bool)
      requires Valid()
      modifies this`start, this`end, obuf
      ensures Valid()
      ensures ok <==> len <= obuf.Length - (old(end) - old(start))
      ensures ok ==> end + len <= obuf.Length && end + len == EndAfter(old(start), old(end), len, obuf.Length)
      ensures obuf[start..end] == old(obuf[start..end])
    {
      if end + len > obuf.Length {
        if len > obuf.Length - (end - start) { return false; }
        ghost var pending := obuf[start..end];
        if start > 0 {
          forall k | 0 <= k < end - start { obuf[k] := obuf[start + k]; }
        }
        end := end - start;
        start := 0;
        assert obuf[start..end] == pending;
      }
      return true;
    }

    /** client_buffer_outgoing_data. */
    method Buffer(p: Bytes) returns (ok: bool)
      requires Valid()
      modifies this, obuf
      ensures Valid() && sent == old(sent)
      ensures ok <==> |p| <= obuf.Length - (old(end) - old(start))
      ensures accepted == if ok then old(accepted) + p else old(accepted)
      ensures ok ==> end == EndAfter(old(start), old(end), |p|, obuf.Length)
    {
      ok := Allocate(|p|);
      if !ok { return; }
      ghost var pending := obuf[start..end];
      forall k | 0 <= k < |p| { obuf[end + k] := p[k]; }
      end := end + |p|;
      assert obuf[start..end] == pending + p;
      accepted := accepted + p;
      assert sent + (pending + p) == sent + pending + p;
    }

    /** The socket takes the first n pending bytes. */
    method Advance(n: nat)
      requires Valid() && n <= end - start
      modifies this`start, this`sent
      ensures Valid() && start == old(start) + n && sent == old(sent) + obuf[old(start)..start]
    {
      ghost var pending := obuf[start..end];
      ghost var taken := obuf[start..start + n];
      assert pending == taken + obuf[start + n..end];
      start := start + n;
      assert sent + pending == (sent + taken) + obuf[start..end];
      sent := sent + taken;
    }

    /** tcp_client_write, with what write() answers after any interrupted tries. */
    method ClientWrite(p: Bytes, answer: Written) returns (rc: int)
      requires Valid() && (answer.Wrote? ==> answer.n <= end - start + |p|)
      modifies this, obuf
      ensures Valid()
      ensures var fits := |p| <= obuf.Length - (old(end) - old(start));
        var end' := EndAfter(old(start), old(end), |p|, obuf.Length);
        var tried := Tries(end', old(end) - old(start) + |p|, flushsize, |p|);
        && rc == (if !fits then -12 else if tried then CodeOf(answer, |p|) else |p|)
        && accepted == (if fits then old(accepted) + p else old(accepted))
        && sent == accepted[..|old(sent)| + if fits && tried && answer.Wrote? then answer.n else 0]
    {
      var len := |p|;
      ghost var backlog, sent0 := end - start, sent;
      var ok := Buffer(p);
      if !ok {
        assert accepted[..|sent|] == sent;
        return -12;
      }
      assert end - start == backlog + len by { Backlog(sent, obuf[start..end], old(accepted), p); }
      assert accepted[..|sent0|] == sent0;
      if end > flushsize || (len == 0 && end > start) {
        match answer {
          case Pipe => return -9;
          case Again => return -1;
          case Failed => if len != 0 { return -11; }
          case Wrote(i) =>
            if i > 0 { Advance(i); }
            assert accepted[..|sent|] == sent;
        }
      }
      if start >= end {
        start, end := 0, 0;
        assert obuf[0..0] == [];
      }
      return len;
    }

    /** handle_client_writable. */
    method Writable(answer: Written) returns (rc: int)
      requires Valid() && (answer.Wrote? ==> answer.n <= end - start)
      modifies this
      ensures Valid() && accepted == old(accepted)
      ensures rc == if answer.Pipe? || answer.Failed? then -1 else 0
      ensures sent == if answer.Wrote? then old(sent) + old(obuf[start..start + answer.n]) else old(sent)
    {
      match answer {
        case Again => return 0;
        case Pipe => return -1;
        case Failed => return -1;
        case Wrote(n) =>
          Advance(n);
          if start == end {
            start, end := 0, 0;
            assert obuf[0..0] == [];
          }
          return 0;
      }
    }
  }

  lemma Backlog(sent: Bytes, pending: Bytes, accepted: Bytes, p: Bytes)
    requires sent + pending == accepted + p
    ensures |pending| == |accepted| + |p| - |sent|
  {
  }
}
