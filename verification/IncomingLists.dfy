/** The two packet lists of a worker as src/incoming.c and src/dupecheck.c keep them: head variables,
    next fields, and tail pointers that hold the address of the place to write to. */
module IncomingLists {
  import opened Basics

  type Addr = nat

  /** A `struct pbuf_t **`. */
  datatype Loc = SharedHead | LocalHead | NextOf(a: Addr)

  /** pbuf_incoming and pbuf_incoming_local, with their tail pointers and counters. */
  datatype Lists = Lists(next: map<Addr, Option<Addr>>,
                         shared: Option<Addr>, sharedLast: Loc, sharedCount: int,
                         local: Option<Addr>, localLast: Loc, localCount: int)

  /** *loc = v */
  function Write(l: Lists, loc: Loc, v: Option<Addr>): Lists {
    match loc
    case SharedHead => l.(shared := v)
    case LocalHead => l.(local := v)
    case NextOf(a) => l.(next := l.next[a := v])
  }

  /** The end of incoming_parse: a packet whose next field is NULL joins the local list. */
  function Enqueued(l: Lists, pb: Addr): Lists {
    var l1 := Write(l.(next := l.next[pb := None]), l.localLast, Some(pb));
    l1.(localLast := NextOf(pb), localCount := l1.localCount + 1)
  }

  /** incoming_flush, with the mutex taken. */
  function Flushed(l: Lists): Lists {
    var l1 := Write(l, l.sharedLast, l.local);
    var l2 := l1.(sharedLast := l1.localLast, sharedCount := l1.sharedCount + l1.localCount);
    l2.(local := None, localLast := LocalHead, localCount := 0)
  }

  /** dupecheck_drain_worker takes the shared list as a whole. */
  function Grabbed(l: Lists): Lists { l.(shared := None, sharedLast := SharedHead, sharedCount := 0) }

  // ---------------------------------------------------------------- what is reachable

  /** Following next fields from head visits items and ends at NULL. */
  ghost predicate Reaches(next: map<Addr, Option<Addr>>, head: Option<Addr>, items: seq<Addr>)
    decreases |items|
  {
    if items == [] then head == None
    else head == Some(items[0]) && items[0] in next && Reaches(next, next[items[0]], items[1..])
  }

  predicate Distinct(s: seq<Addr>) { forall i, j :: 0 <= i < j < |s| ==> s[i] != s[j] }

  predicate Disjoint(a: seq<Addr>, b: seq<Addr>) { forall x :: x in a ==> x !in b }

  function EndOf(head: Loc, items: seq<Addr>): Loc { if items == [] then head else NextOf(items[|items| - 1]) }

  /** Both lists are well formed and hold these packets. */
  ghost predicate Holds(l: Lists, sh: seq<Addr>, lo: seq<Addr>) {
    && Reaches(l.next, l.shared, sh) && Reaches(l.next, l.local, lo)
    && Distinct(sh) && Distinct(lo) && Disjoint(sh, lo)
    && l.sharedLast == EndOf(SharedHead, sh) && l.sharedCount == |sh|
    && l.localLast == EndOf(LocalHead, lo) && l.localCount == |lo|
  }

  /** What a head reaches is unique. */
  lemma {:induction false} ReachesUnique(next: map<Addr, Option<Addr>>, head: Option<Addr>, a: seq<Addr>, b: seq<Addr>)
    requires Reaches(next, head, a) && Reaches(next, head, b)
    ensures a == b
    decreases |a|
  {
    if a != [] && b != [] {
      ReachesUnique(next, next[a[0]], a[1..], b[1..]);
      assert a == [a[0]] + a[1..] && b == [b[0]] + b[1..];
    }
  }

  /** Writes elsewhere leave a list alone. */
  lemma {:induction false} ReachesFrame(next: map<Addr, Option<Addr>>, head: Option<Addr>, items: seq<Addr>,
                                        a: Addr, v: Option<Addr>)
    requires Reaches(next, head, items) && a !in items
    ensures Reaches(next[a := v], head, items)
    decreases |items|
  {
    if items != [] { ReachesFrame(next, next[items[0]], items[1..], a, v); }
  }

  /** Writing the next field of the last cell joins another list. */
  lemma {:induction false} ReachesJoin(next: map<Addr, Option<Addr>>, head: Option<Addr>, items: seq<Addr>,
                                       more: Option<Addr>, rest: seq<Addr>)
    requires items != [] && Distinct(items) && Reaches(next, head, items)
    requires Reaches(next, more, rest) && Disjoint(items, rest)
    ensures Reaches(next[items[|items| - 1] := more], head, items + rest)
    decreases |items|
  {
    var last := items[|items| - 1];
    var next' := next[last := more];
    assert (items + rest)[1..] == items[1..] + rest && (items + rest)[0] == items[0];
    if |items| == 1 {
      assert last in items;
      ReachesFrame(next, more, rest, last, more);
      assert items[1..] + rest == rest;
    } else {
      assert items[1..][|items| - 2] == last;
      ReachesJoin(next, next[items[0]], items[1..], more, rest);
    }
  }

  // ---------------------------------------------------------------- the operations

  /** A parsed packet goes to the end of the local list. */
  lemma EnqueueAppends(l: Lists, sh: seq<Addr>, lo: seq<Addr>, pb: Addr)
    requires Holds(l, sh, lo) && pb !in sh && pb !in lo
    ensures Holds(Enqueued(l, pb), sh, lo + [pb])
  {
    var next := l.next[pb := None];
    ReachesFrame(l.next, l.shared, sh, pb, None);
    ReachesFrame(l.next, l.local, lo, pb, None);
    assert Reaches(next, Some(pb), [pb]);
    if lo == [] {
      assert [] + [pb] == [pb];
    } else {
      var last := lo[|lo| - 1];
      assert last in lo;
      ReachesJoin(next, l.local, lo, Some(pb), [pb]);
      ReachesFrame(next, l.shared, sh, last, Some(pb));
    }
  }

  /** The shared list after a flush holds the packets of both, in order, also if the local list was
      empty ... */
  lemma FlushJoins(l: Lists, sh: seq<Addr>, lo: seq<Addr>)
    requires Holds(l, sh, lo)
    ensures Reaches(Flushed(l).next, Flushed(l).shared, sh + lo)
  {
    if sh == [] {
      assert [] + lo == lo;
    } else {
      ReachesJoin(l.next, l.shared, sh, l.local, lo);
    }
  }

  /** ... but the lists stay well formed if and only if it was not: else the shared list's tail
      pointer ends up at the local list's head variable. */
  lemma FlushExact(l: Lists, sh: seq<Addr>, lo: seq<Addr>)
    requires Holds(l, sh, lo)
    ensures lo != [] ==> Holds(Flushed(l), sh + lo, [])
    ensures (exists sh', lo' :: Holds(Flushed(l), sh', lo')) <==> lo != []
  {
    FlushJoins(l, sh, lo);
    if lo != [] {
      JoinDistinct(sh, lo);
      assert (sh + lo)[|sh + lo| - 1] == lo[|lo| - 1];
      var l' := Flushed(l);
      assert l'.localLast == LocalHead && l'.sharedLast == l.localLast;
      assert Reaches(l'.next, l'.local, []);
      assert Holds(l', sh + lo, []);
    }
  }

  lemma JoinDistinct(a: seq<Addr>, b: seq<Addr>)
    requires Distinct(a) && Distinct(b) && Disjoint(a, b)
    ensures Distinct(a + b)
  {
    var all := a + b;
    forall i, j | 0 <= i < j < |all| ensures all[i] != all[j] {
      if i < |a| <= j { assert all[i] in a && all[j] in b; }
    }
  }

  function EnqueuedAll(l: Lists, pbs: seq<Addr>): Lists
    decreases |pbs|
  {
    if pbs == [] then l else EnqueuedAll(Enqueued(l, pbs[0]), pbs[1..])
  }

  /** What an empty flush leaves behind: the shared list is intact, and its tail pointer is at the
      local head, where the packets xs are now. */
  ghost predicate Astray(l: Lists, sh: seq<Addr>, xs: seq<Addr>) {
    && Reaches(l.next, l.shared, sh) && Reaches(l.next, l.local, xs)
    && Distinct(xs) && Disjoint(sh, xs)
    && l.sharedLast == LocalHead && l.sharedCount == |sh|
    && l.localLast == EndOf(LocalHead, xs) && l.localCount == |xs|
  }

  lemma {:induction false} EnqueueAstray(l: Lists, sh: seq<Addr>, xs: seq<Addr>, pbs: seq<Addr>)
    requires Astray(l, sh, xs) && Distinct(xs + pbs) && Disjoint(sh, xs + pbs)
    ensures Astray(EnqueuedAll(l, pbs), sh, xs + pbs)
    decreases |pbs|
  {
    if pbs == [] {
      assert xs + pbs == xs;
    } else {
      var pb := pbs[0];
      assert (xs + pbs)[|xs|] == pb && pb in xs + pbs;
      forall x | x in xs ensures x != pb {
        var k :| 0 <= k < |xs| && xs[k] == x;
        assert (xs + pbs)[k] == x;
      }
      OneAstray(l, sh, xs, pb);
      assert xs + [pb] + pbs[1..] == xs + pbs;
      EnqueueAstray(Enqueued(l, pb), sh, xs + [pb], pbs[1..]);
    }
  }

  lemma OneAstray(l: Lists, sh: seq<Addr>, xs: seq<Addr>, pb: Addr)
    requires Astray(l, sh, xs) && pb !in sh && pb !in xs
    ensures Astray(Enqueued(l, pb), sh, xs + [pb])
  {
    var next := l.next[pb := None];
    ReachesFrame(l.next, l.shared, sh, pb, None);
    ReachesFrame(l.next, l.local, xs, pb, None);
    assert Reaches(next, Some(pb), [pb]);
    if xs == [] {
      assert [] + [pb] == [pb];
    } else {
      var last := xs[|xs| - 1];
      assert last in xs;
      ReachesJoin(next, l.local, xs, Some(pb), [pb]);
      ReachesFrame(next, l.shared, sh, last, Some(pb));
    }
  }

  /** After a flush of an empty list, the packets queued and flushed next are counted as shared and
      can be reached from neither head. */
  lemma EmptyFlushLoses(l: Lists, sh: seq<Addr>, pbs: seq<Addr>)
    requires Holds(l, sh, []) && pbs != [] && Distinct(pbs) && Disjoint(sh, pbs)
    ensures var after := Flushed(EnqueuedAll(Flushed(l), pbs));
      && Reaches(after.next, after.shared, sh) && after.local == None
      && after.sharedCount == |sh| + |pbs|
      && forall items :: Reaches(after.next, after.shared, items) ==> Disjoint(items, pbs)
  {
    FlushJoins(l, sh, []);
    assert sh + [] == sh && [] + pbs == pbs;
    EnqueueAstray(Flushed(l), sh, [], pbs);
    var after := Flushed(EnqueuedAll(Flushed(l), pbs));
    forall items | Reaches(after.next, after.shared, items) ensures Disjoint(items, pbs) {
      ReachesUnique(after.next, after.shared, items, sh);
    }
  }

  /** Draining takes exactly the shared packets. */
  lemma GrabTakes(l: Lists, sh: seq<Addr>, lo: seq<Addr>)
    requires Holds(l, sh, lo)
    ensures Holds(Grabbed(l), [], lo)
    ensures forall items :: Reaches(l.next, l.shared, items) ==> items == sh
  {
    forall items | Reaches(l.next, l.shared, items) ensures items == sh { ReachesUnique(l.next, l.shared, items, sh); }
  }
}
