/** historydb_lookup reads the head of its chain before it takes the read lock (src/historydb.c:453).
    Between the two, insertions and clean-ups may run.  Cells have addresses here. */
module HistoryRace {
  import opened Basics
  import opened HistoryDb

  type Addr = nat

  datatype Node = Node(addr: Addr, cell: Cell)

  function Cells(ch: seq<Node>): Chain { if ch == [] then [] else [ch[0].cell] + Cells(ch[1..]) }

  /** What a writer does to the chain: an insertion of a key of this bucket, with the address for a
      new cell, or a clean-up. */
  datatype Write = Put(u: Update, addr: Addr, expiry: int) | Sweep(expiry: int)

  /** A cell under the writer's scan: it stays where it is, perhaps with a new record, or is unlinked
      and freed. */
  function Kept(n: Node, w: Write): (r: seq<Node>)
    ensures r == [] || (|r| == 1 && r[0].addr == n.addr)
  {
    match w
    case Put(u, _, expiry) =>
      var c := Rewritten(n.cell, u, expiry);
      if c == [] then [] else [Node(n.addr, c[0])]
    case Sweep(expiry) => if n.cell.record.arrivaltime < expiry then [] else [n]
  }

  function Scan(ch: seq<Node>, w: Write): seq<Node> { if ch == [] then [] else Kept(ch[0], w) + Scan(ch[1..], w) }

  predicate Appends(ch: seq<Node>, w: Write) {
    w.Put? && !w.u.isdead && w.u.haveCell && !Hit(Cells(ch), w.u.key, w.expiry)
  }

  function After(ch: seq<Node>, w: Write): seq<Node> {
    Scan(ch, w) + if Appends(ch, w) then [Node(w.addr, NewCell(w.u))] else []
  }

  function Run(ch: seq<Node>, ws: seq<Write>): seq<Node>
    decreases |ws|
  {
    if ws == [] then ch else Run(After(ch, ws[0]), ws[1..])
  }

  // ---------------------------------------------------------------- the chain without addresses

  lemma {:induction false} CellsConcat(a: seq<Node>, b: seq<Node>)
    ensures Cells(a + b) == Cells(a) + Cells(b)
  {
    if a == [] {
      assert a + b == b;
    } else {
      assert (a + b)[1..] == a[1..] + b;
      CellsConcat(a[1..], b);
    }
  }

  lemma KeptCells(n: Node, w: Write)
    ensures w.Put? ==> Cells(Kept(n, w)) == Rewritten(n.cell, w.u, w.expiry)
    ensures w.Sweep? ==> Cells(Kept(n, w)) == if n.cell.record.arrivaltime < w.expiry then [] else [n.cell]
  {
    hide Matches;
    var k := Kept(n, w);
    if k != [] { assert k[1..] == []; }
  }

  lemma {:induction false} ScanCells(ch: seq<Node>, w: Write)
    ensures w.Put? ==> Cells(Scan(ch, w)) == Scanned(Cells(ch), w.u, w.expiry)
    ensures w.Sweep? ==> Cells(Scan(ch, w)) == Live(Cells(ch), w.expiry)
  {
    hide Kept, Rewritten;
    if ch != [] {
      ScanCells(ch[1..], w);
      CellsConcat(Kept(ch[0], w), Scan(ch[1..], w));
      KeptCells(ch[0], w);
      assert Cells(ch)[1..] == Cells(ch[1..]);
    }
  }

  /** These are the writes of HistoryDb. */
  lemma AfterCells(ch: seq<Node>, w: Write)
    ensures w.Put? ==> Cells(After(ch, w)) == Updated(Cells(ch), w.u, w.expiry)
    ensures w.Sweep? ==> Cells(After(ch, w)) == Live(Cells(ch), w.expiry)
  {
    hide Scan, Scanned, Live, Hit;
    ScanCells(ch, w);
    if Appends(ch, w) {
      var new_ := [Node(w.addr, NewCell(w.u))];
      CellsConcat(Scan(ch, w), new_);
      assert new_[1..] == [];
    } else {
      assert Scan(ch, w) + [] == Scan(ch, w);
    }
  }

  // ---------------------------------------------------------------- what becomes of the head

  /** The head cell after some writes, if it is still linked. */
  function HeadAfter(n: Node, ws: seq<Write>): Option<Node>
    decreases |ws|
  {
    if ws == [] then Some(n)
    else
      var k := Kept(n, ws[0]);
      if k == [] then None else HeadAfter(k[0], ws[1..])
  }

  function Addrs(ch: seq<Node>): set<Addr> { set n | n in ch :: n.addr }

  predicate Distinct(ch: seq<Node>) { forall i, j :: 0 <= i < j < |ch| ==> ch[i].addr != ch[j].addr }

  /** New cells get addresses that no linked cell has, and that of the reader's cell is not handed out
      again meanwhile: the allocator reuses cells in the order of their release. */
  predicate NewAddresses(ch: seq<Node>, ws: seq<Write>, head: Addr)
    decreases |ws|
  {
    ws != [] ==>
      && (ws[0].Put? ==> ws[0].addr !in Addrs(ch) && ws[0].addr != head)
      && NewAddresses(After(ch, ws[0]), ws[1..], head)
  }

  lemma {:induction false} ScanAddrs(ch: seq<Node>, w: Write)
    ensures Addrs(Scan(ch, w)) <= Addrs(ch)
    ensures Distinct(ch) ==> Distinct(Scan(ch, w))
  {
    hide Kept;
    if ch != [] {
      var first, rest := Kept(ch[0], w), Scan(ch[1..], w);
      KeptAddr(ch[0], w);
      ScanAddrs(ch[1..], w);
      assert forall n :: n in ch[1..] ==> n in ch;
      assert Addrs(ch[1..]) <= Addrs(ch);
      assert ch[0] in ch;
      AddrsConcat(first, rest);
      if Distinct(ch) {
        TailDistinct(ch);
        forall i, j | 0 <= i < j < |first + rest| ensures (first + rest)[i].addr != (first + rest)[j].addr {
          if i < |first| <= j { assert rest[j - |first|].addr in Addrs(rest); }
        }
      }
    }
  }

  lemma KeptAddr(n: Node, w: Write)
    ensures Kept(n, w) == [] || (|Kept(n, w)| == 1 && Kept(n, w)[0].addr == n.addr)
  {
  }

  lemma AddrsConcat(a: seq<Node>, b: seq<Node>)
    ensures Addrs(a + b) == Addrs(a) + Addrs(b)
  {
  }

  lemma TailDistinct(ch: seq<Node>)
    requires ch != [] && Distinct(ch)
    ensures Distinct(ch[1..]) && ch[0].addr !in Addrs(ch[1..])
  {
    forall n | n in ch[1..] ensures n.addr != ch[0].addr {
      var k :| 0 <= k < |ch| - 1 && ch[1..][k] == n;
      assert ch[k + 1] == n;
    }
  }

  lemma AfterDistinct(ch: seq<Node>, w: Write)
    requires Distinct(ch) && (w.Put? ==> w.addr !in Addrs(ch))
    ensures Distinct(After(ch, w))
    ensures forall a :: a in Addrs(After(ch, w)) ==> a in Addrs(ch) || (w.Put? && a == w.addr)
  {
    hide Scan, Appends;
    ScanAddrs(ch, w);
    var s := Scan(ch, w);
    if Appends(ch, w) {
      AppendsPut(ch, w);
      var new_ := [Node(w.addr, NewCell(w.u))];
      AddrsConcat(s, new_);
      forall i | 0 <= i < |s| ensures s[i].addr != w.addr { assert s[i].addr in Addrs(s); }
    } else {
      assert s + [] == s;
    }
  }

  lemma AppendsPut(ch: seq<Node>, w: Write)
    requires Appends(ch, w)
    ensures w.Put?
  {
  }

  /** A head that stays linked stays the head. */
  lemma {:induction false} HeadStays(ch: seq<Node>, ws: seq<Write>)
    requires ch != [] && HeadAfter(ch[0], ws).Some?
    ensures Run(ch, ws) != [] && Run(ch, ws)[0] == HeadAfter(ch[0], ws).value
    ensures Run(ch, ws)[0].addr == ch[0].addr
    decreases |ws|
  {
    hide Kept, Appends;
    if ws != [] {
      KeptAddr(ch[0], ws[0]);
      var ch' := After(ch, ws[0]);
      assert ch'[0] == Kept(ch[0], ws[0])[0];
      HeadStays(ch', ws[1..]);
    }
  }

  /** One that was unlinked is nowhere in the chain. */
  lemma {:induction false} GoneStays(ch: seq<Node>, ws: seq<Write>, a: Addr)
    requires Distinct(ch) && a !in Addrs(ch) && NewAddresses(ch, ws, a)
    ensures a !in Addrs(Run(ch, ws))
    decreases |ws|
  {
    hide After;
    if ws != [] {
      AfterDistinct(ch, ws[0]);
      GoneStays(After(ch, ws[0]), ws[1..], a);
    }
  }

  lemma {:induction false} HeadGone(ch: seq<Node>, ws: seq<Write>)
    requires ch != [] && Distinct(ch) && NewAddresses(ch, ws, ch[0].addr) && HeadAfter(ch[0], ws) == None
    ensures ch[0].addr !in Addrs(Run(ch, ws))
    decreases |ws|
  {
    hide Kept, Appends;
    var w, a := ws[0], ch[0].addr;
    var ch' := After(ch, w);
    KeptAddr(ch[0], w);
    AfterDistinct(ch, w);
    if Kept(ch[0], w) == [] {
      TailDistinct(ch);
      GoneAfter(ch, w);
      GoneStays(ch', ws[1..], a);
    } else {
      assert ch'[0] == Kept(ch[0], w)[0];
      HeadGone(ch', ws[1..]);
    }
  }

  lemma GoneAfter(ch: seq<Node>, w: Write)
    requires ch != [] && Distinct(ch) && Kept(ch[0], w) == [] && (w.Put? ==> w.addr != ch[0].addr)
    ensures ch[0].addr !in Addrs(After(ch, w))
  {
    hide Kept, Appends;
    TailDistinct(ch);
    ScanAddrs(ch[1..], w);
    assert Scan(ch, w) == [] + Scan(ch[1..], w) == Scan(ch[1..], w);
    if Appends(ch, w) {
      AppendsPut(ch, w);
      AddrsConcat(Scan(ch, w), [Node(w.addr, NewCell(w.u))]);
    } else {
      assert Scan(ch, w) + [] == Scan(ch, w);
    }
  }

  // ---------------------------------------------------------------- the reader

  /** Following next fields from an address: the cells from there on, or None if that cell is not
      linked any more, which means that the walk starts in a freed cell. */
  function WalkFrom(ch: seq<Node>, a: Addr): Option<Chain>
    decreases |ch|
  {
    if ch == [] then None else if ch[0].addr == a then Some(Cells(ch)) else WalkFrom(ch[1..], a)
  }

  lemma {:induction false} WalkExact(ch: seq<Node>, a: Addr)
    ensures WalkFrom(ch, a).None? <==> a !in Addrs(ch)
  {
    hide Cells;
    if ch != [] {
      WalkExact(ch[1..], a);
      assert ch == [ch[0]] + ch[1..];
      AddrsConcat([ch[0]], ch[1..]);
      assert Addrs([ch[0]]) == {ch[0].addr};
    }
  }

  /** What the reader walks through once it has the lock is the chain as it then is, unless the head
      it has read was unlinked meanwhile; and then, and only then, it reads a freed cell. */
  lemma RaceExact(ch: seq<Node>, ws: seq<Write>)
    requires ch != [] && Distinct(ch) && NewAddresses(ch, ws, ch[0].addr)
    ensures WalkFrom(Run(ch, ws), ch[0].addr) ==
            if HeadAfter(ch[0], ws).Some? then Some(Cells(Run(ch, ws))) else None
  {
    hide Run, HeadAfter, NewAddresses, Cells, Addrs;
    if HeadAfter(ch[0], ws).Some? {
      HeadStays(ch, ws);
    } else {
      HeadGone(ch, ws);
      WalkExact(Run(ch, ws), ch[0].addr);
    }
  }

  /** If only clean-ups run in between, that is exactly if the head expired before one of them. */
  lemma {:induction false} SweepExact(n: Node, ws: seq<Write>)
    requires forall k :: 0 <= k < |ws| ==> ws[k].Sweep?
    ensures HeadAfter(n, ws) == None <==> exists k :: 0 <= k < |ws| && n.cell.record.arrivaltime < ws[k].expiry
    decreases |ws|
  {
    if ws != [] && Kept(n, ws[0]) != [] {
      SweepExact(n, ws[1..]);
      if k :| 0 <= k < |ws| && n.cell.record.arrivaltime < ws[k].expiry { assert ws[1..][k - 1] == ws[k]; }
      if k :| 0 <= k < |ws| - 1 && n.cell.record.arrivaltime < ws[1..][k].expiry { assert ws[k + 1] == ws[1..][k]; }
    } else if ws != [] {
      assert ws[0].Sweep?;
    }
  }

  /** A single clean-up between the two accesses frees an expired head under the reader. */
  lemma SweepFreesHead(n: Node, rest: seq<Node>, expiry: int)
    requires Distinct([n] + rest) && n.cell.record.arrivaltime < expiry
    ensures WalkFrom(Run([n] + rest, [Sweep(expiry)]), n.addr) == None
  {
    hide WalkFrom, Run, HeadAfter, NewAddresses, Kept;
    var ch, ws := [n] + rest, [Sweep(expiry)];
    SweepIsProper(ch, expiry, n.addr);
    RaceExact(ch, ws);
    SweepExact(n, ws);
    assert ws[0].Sweep?;
  }

  lemma SweepIsProper(ch: seq<Node>, expiry: int, a: Addr)
    ensures NewAddresses(ch, [Sweep(expiry)], a)
  {
    var ws := [Sweep(expiry)];
    assert ws[1..] == [];
  }

  /** A reader whose head stayed linked answers as the map does when it has the lock; one that found
      the chain empty answers as the map did when it looked. */
  lemma ReaderAnswers(ch: seq<Node>, ws: seq<Write>, m0: Store, m1: Store, key: Bytes,
                      before: int, tick: int, storetime: int)
    requires before <= tick - storetime
    requires ChainOk(Cells(ch), m0, Bucket(key), before) && ChainOk(Cells(Run(ch, ws)), m1, Bucket(key), before)
    ensures ch == [] ==> Found(m0, key, tick, storetime) == None
    ensures ch != [] && HeadAfter(ch[0], ws).Some? && Distinct(ch) && NewAddresses(ch, ws, ch[0].addr) ==>
      var walk := WalkFrom(Run(ch, ws), ch[0].addr);
      && walk.Some?
      && Lookup(walk.value, key, tick - storetime + VALIDITY_MARGIN) == Found(m1, key, tick, storetime)
  {
    hide Run, HeadAfter, NewAddresses, Distinct, ChainOk, Bucket, Found, WalkFrom;
    LookupOk(Cells(ch), m0, key, before, tick, storetime);
    LookupOk(Cells(Run(ch, ws)), m1, key, before, tick, storetime);
    if ch != [] && HeadAfter(ch[0], ws).Some? && Distinct(ch) && NewAddresses(ch, ws, ch[0].addr) { RaceExact(ch, ws); }
  }
}
