/** Where packet buffers are: src/incoming.c hands them out and collects them, src/dupecheck.c
    passes them on, and every buffer is in exactly one place at any time. */
module PbufLedger {
  import opened Basics

  datatype Size = Small | Medium | Large

  /** A buffer, known by its address, with the length class kept in its buf_len field. */
  datatype Pbuf = Pbuf(id: nat, size: Size)

  function SizeFor(len: int): Option<Size> {
    if len <= PACKETLEN_MAX_SMALL then Some(Small)
    else if len <= PACKETLEN_MAX_MEDIUM then Some(Medium)
    else if len <= PACKETLEN_MAX_LARGE then Some(Large)
    else None
  }

  /** The bytes a buffer holds. */
  function Room(size: Size): nat {
    match size
    case Small => 100
    case Medium => 180
    case Large => 512
  }

  /** The smallest buffer that is large enough, if there is one. */
  lemma SizeExact(len: int, size: Size)
    ensures SizeFor(len) == Some(size) <==>
            len <= Room(size) && forall z: Size :: len <= Room(z) ==> Room(size) <= Room(z)
    ensures SizeFor(len) == None <==> forall z: Size :: len > Room(z)
  {
    assert Room(Small) == 100 && Room(Medium) == 180 && Room(Large) == 512;
  }

  function Bunch(size: Size): nat { if size == Large then 50 else 2000 }

  // ---------------------------------------------------------------- occurrences

  /** How often a buffer occurs in a list. */
  function Occ(s: seq<Pbuf>, p: Pbuf): nat { multiset(s)[p] }

  lemma OccConcat(a: seq<Pbuf>, b: seq<Pbuf>, p: Pbuf)
    ensures Occ(a + b, p) == Occ(a, p) + Occ(b, p)
  {
  }

  lemma OccOne(x: Pbuf, p: Pbuf)
    ensures Occ([], p) == 0 && Occ([x], p) == if x == p then 1 else 0
  {
  }

  lemma OccSplit(s: seq<Pbuf>, k: nat, p: Pbuf)
    requires k <= |s|
    ensures Occ(s, p) == Occ(s[..k], p) + Occ(s[k..], p)
  {
    assert s == s[..k] + s[k..];
  }

  // ---------------------------------------------------------------- lists with a tail pointer

  /** Where a tail pointer points: at the list's head pointer, or at the next field of a buffer.
      IncomingLists derives the lists of a worker from their pointers. */
  datatype Tail = AtHead | After(last: Pbuf)

  datatype Queue = Queue(items: seq<Pbuf>, count: int, tail: Tail)

  function TailOf(items: seq<Pbuf>): Tail { if items == [] then AtHead else After(items[|items| - 1]) }

  /** The counter is the length and the tail pointer is at the end. */
  predicate Right(q: Queue) { q.count == |q.items| && q.tail == TailOf(q.items) }

  const EMPTY := Queue([], 0, AtHead)

  // ---------------------------------------------------------------- workers

  datatype Worker = Worker(small: seq<Pbuf>, medium: seq<Pbuf>, large: seq<Pbuf>, held: seq<Pbuf>,
                           local: Queue, shared: Queue)

  function Pool(w: Worker, size: Size): seq<Pbuf> {
    match size case Small => w.small case Medium => w.medium case Large => w.large
  }

  function WithPool(w: Worker, size: Size, pool: seq<Pbuf>): Worker {
    match size case Small => w.(small := pool) case Medium => w.(medium := pool) case Large => w.(large := pool)
  }

  /** pbuf_get with the pool of the right class and what cellmallocmany gave if that is empty. */
  function AfterGet(pool: seq<Pbuf>, given: seq<Pbuf>): (r: (Option<Pbuf>, seq<Pbuf>))
  {
    if pool != [] then (Some(pool[0]), pool[1..])
    else if given == [] then (None, [])
    else (Some(given[0]), Reverse(given[1..]))
  }

  lemma {:induction false} ReverseOcc(s: seq<Pbuf>, p: Pbuf)
    ensures Occ(Reverse(s), p) == Occ(s, p)
  {
    hide Occ;
    if s != [] {
      var n := |s| - 1;
      ReverseOcc(s[..n], p);
      OccConcat([s[n]], Reverse(s[..n]), p);
      OccSplit(s, n, p);
      assert s[n..] == [s[n]];
    }
  }

  lemma {:induction false} ReverseSizes(s: seq<Pbuf>, size: Size)
    requires AllOf(s, size)
    ensures AllOf(Reverse(s), size)
  {
    if s != [] { ReverseSizes(s[..|s| - 1], size); }
  }

  method PbufGet(pool: seq<Pbuf>, given: seq<Pbuf>) returns (pb: Option<Pbuf>, left: seq<Pbuf>)
    ensures (pb, left) == AfterGet(pool, given)
  {
    if pool != [] { return Some(pool[0]), pool[1..]; }
    left := [];
    if |given| < 1 { return None, left; }
    for i := 1 to |given|
      invariant left == Reverse(given[1..i])
    {
      ReverseLast(given[1..i], given[i]);
      assert given[1..i + 1] == given[1..i] + [given[i]];
      left := [given[i]] + left;
    }
    assert given[1..|given|] == given[1..];
    pb := Some(given[0]);
  }

  // ---------------------------------------------------------------- sorting by class, partitioning by verdict

  function OfSize(s: seq<Pbuf>, size: Size): seq<Pbuf> {
    if s == [] then [] else OfSize(s[..|s| - 1], size) + if s[|s| - 1].size == size then [s[|s| - 1]] else []
  }

  /** pbuf_free_many's sorting loop. */
  method SortBySize(bufs: seq<Pbuf>) returns (small: seq<Pbuf>, medium: seq<Pbuf>, large: seq<Pbuf>)
    ensures small == OfSize(bufs, Small) && medium == OfSize(bufs, Medium) && large == OfSize(bufs, Large)
  {
    small, medium, large := [], [], [];
    for i := 0 to |bufs|
      invariant small == OfSize(bufs[..i], Small) && medium == OfSize(bufs[..i], Medium)
          && large == OfSize(bufs[..i], Large)
    {
      assert bufs[..i + 1][..i] == bufs[..i];
      match bufs[i].size {
        case Small => small := small + [bufs[i]];
        case Medium => medium := medium + [bufs[i]];
        case Large => large := large + [bufs[i]];
      }
    }
    assert bufs[..|bufs|] == bufs;
  }

  predicate AllOf(s: seq<Pbuf>, size: Size) { forall k :: 0 <= k < |s| ==> s[k].size == size }

  lemma {:induction false} SortedOcc(s: seq<Pbuf>, p: Pbuf)
    ensures Occ(OfSize(s, Small), p) + Occ(OfSize(s, Medium), p) + Occ(OfSize(s, Large), p) == Occ(s, p)
  {
    hide Occ;
    OccOne(p, p);
    if s != [] {
      var k := |s| - 1;
      SortedOcc(s[..k], p);
      OccSplit(s, k, p);
      assert s[k..] == [s[k]];
      OneMore(OfSize(s[..k], Small), s[k], s[k].size == Small, p);
      OneMore(OfSize(s[..k], Medium), s[k], s[k].size == Medium, p);
      OneMore(OfSize(s[..k], Large), s[k], s[k].size == Large, p);
    }
  }

  lemma OneMore(s: seq<Pbuf>, x: Pbuf, add: bool, p: Pbuf)
    ensures Occ(s + (if add then [x] else []), p) == Occ(s, p) + if add then Occ([x], p) else 0
  {
    hide Occ;
    OccConcat(s, if add then [x] else [], p);
    OccOne(x, p);
  }

  lemma {:induction false} SortedSizes(s: seq<Pbuf>, size: Size)
    ensures AllOf(OfSize(s, size), size)
  {
    if s != [] { SortedSizes(s[..|s| - 1], size); }
  }

  /** The drained packets with one verdict, in order. */
  function Chain(s: seq<Pbuf>, dupe: Pbuf -> bool, want: bool): seq<Pbuf> {
    if s == [] then [] else Chain(s[..|s| - 1], dupe, want) + if dupe(s[|s| - 1]) == want then [s[|s| - 1]] else []
  }

  /** dupecheck_drain_worker's loop: two chains grow at their tails, and sequence numbers count on. */
  method DrainLoop(list: seq<Pbuf>, dupe: Pbuf -> bool, out: Queue, outDupe: Queue)
    returns (out': Queue, outDupe': Queue, n: nat)
    requires Right(out) && Right(outDupe)
    ensures Right(out') && out'.items == out.items + Chain(list, dupe, false)
    ensures Right(outDupe') && outDupe'.items == outDupe.items + Chain(list, dupe, true)
    ensures n == |list|
  {
    out', outDupe', n := out, outDupe, 0;
    assert out.items + [] == out.items && outDupe.items + [] == outDupe.items;
    for i := 0 to |list|
      invariant n == i && Right(out') && Right(outDupe')
      invariant out'.items == out.items + Chain(list[..i], dupe, false)
      invariant outDupe'.items == outDupe.items + Chain(list[..i], dupe, true)
    {
      var pb := list[i];
      assert list[..i + 1][..i] == list[..i];
      if !dupe(pb) {
        out' := Queue(out'.items + [pb], out'.count + 1, After(pb));
      } else {
        outDupe' := Queue(outDupe'.items + [pb], outDupe'.count + 1, After(pb));
      }
      n := n + 1;
    }
    assert list[..|list|] == list;
  }

  /** Every drained packet is in exactly one chain, the one its verdict names. */
  lemma {:induction false} ChainOcc(s: seq<Pbuf>, dupe: Pbuf -> bool, want: bool, p: Pbuf)
    ensures Occ(Chain(s, dupe, want), p) == if dupe(p) == want then Occ(s, p) else 0
  {
    hide Occ;
    OccOne(p, p);
    if s != [] {
      var k := |s| - 1;
      ChainOcc(s[..k], dupe, want, p);
      OccSplit(s, k, p);
      assert s[k..] == [s[k]];
      OccOne(s[k], p);
      OneMore(Chain(s[..k], dupe, want), s[k], dupe(s[k]) == want, p);
    }
  }

  /** Both chains keep the order of the drained list. */
  lemma {:induction false} ChainOrder(s: seq<Pbuf>, dupe: Pbuf -> bool, want: bool)
    ensures Subsequence(Chain(s, dupe, want), s)
  {
    if s != [] {
      var k := |s| - 1;
      ChainOrder(s[..k], dupe, want);
      var c := Chain(s[..k], dupe, want);
      assert (c + [s[k]])[..|c|] == c && c + [] == c;
    }
  }

  predicate Subsequence(a: seq<Pbuf>, s: seq<Pbuf>) {
    if a == [] then true
    else if s == [] then false
    else
      || (a[|a| - 1] == s[|s| - 1] && Subsequence(a[..|a| - 1], s[..|s| - 1]))
      || Subsequence(a, s[..|s| - 1])
  }

  // ---------------------------------------------------------------- the whole system

  datatype State = State(small: seq<Pbuf>, medium: seq<Pbuf>, large: seq<Pbuf>, workers: seq<Worker>,
                         out: Queue, outDupe: Queue, main: Queue, dupe: Queue, freeset: seq<Pbuf>)

  // pbuf_global_count_limit and pbuf_global_dupe_count_limit
  const MAIN_LIMIT := 5000
  const DUPE_LIMIT := 100

  function Arena(s: State, size: Size): seq<Pbuf> {
    match size case Small => s.small case Medium => s.medium case Large => s.large
  }

  function WithArena(s: State, size: Size, cells: seq<Pbuf>): State {
    match size case Small => s.(small := cells) case Medium => s.(medium := cells) case Large => s.(large := cells)
  }

  /** Grow: a new block in an arena.  Get, Free, Enqueue, Flush: a worker allocates a buffer, gives
      it back, queues it, or passes its queue on.  Drain, Publish: the dupecheck thread takes a
      worker's packets, and puts its chains on the global lists.  Purge: one turn of the purger's
      loop moves the first buffer of a list to its free set.  FreeMany: the free set goes back to the
      arenas. */
  datatype Step =
    | Grow(size: Size, ids: seq<nat>)
    | Get(w: nat, len: int) | Free(w: nat) | Enqueue(w: nat) | Flush(w: nat)
    | Drain(w: nat, dupes: set<Pbuf>) | Publish
    | Purge | PurgeDupe | FreeMany

  function Fresh(size: Size, ids: seq<nat>): seq<Pbuf> { seq(|ids|, i requires 0 <= i < |ids| => Pbuf(ids[i], size)) }

  predicate Enabled(s: State, step: Step) {
    match step
    case Grow(size, ids) =>
      && (forall i, j :: 0 <= i < j < |ids| ==> ids[i] != ids[j])
      && forall i :: 0 <= i < |ids| ==> IdCount(s, ids[i]) == 0
    case Get(w, len) => w < |s.workers|
    case Free(w) => w < |s.workers| && s.workers[w].held != []
    case Enqueue(w) => w < |s.workers| && s.workers[w].held != []
    case Flush(w) => w < |s.workers| && s.workers[w].local.items != []
    case Drain(w, _) => w < |s.workers|
    case Publish => true
    case Purge => s.main.count > MAIN_LIMIT && s.main.items != []
    case PurgeDupe => s.dupe.count > DUPE_LIMIT && s.dupe.items != []
    case FreeMany => true
  }

  function Taken(arena: seq<Pbuf>, pool: seq<Pbuf>, size: Size): nat {
    if pool != [] then 0 else if |arena| < Bunch(size) then |arena| else Bunch(size)
  }

  function GetStep(s: State, w: nat, size: Size): State
    requires w < |s.workers|
  {
    var wk := s.workers[w];
    var n := Taken(Arena(s, size), Pool(wk, size), size);
    var r := AfterGet(Pool(wk, size), Arena(s, size)[..n]);
    WithArena(s, size, Arena(s, size)[n..]).(workers := s.workers[w :=
      WithPool(wk, size, r.1).(held := wk.held + if r.0 == None then [] else [r.0.value])])
  }

  function Returned(s: State, bufs: seq<Pbuf>): State {
    s.(small := s.small + OfSize(bufs, Small), medium := s.medium + OfSize(bufs, Medium),
       large := s.large + OfSize(bufs, Large))
  }

  function Append(q: Queue, p: Pbuf): Queue { Queue(q.items + [p], q.count + 1, After(p)) }

  function Extend(q: Queue, items: seq<Pbuf>): Queue {
    if items == [] then q else Queue(q.items + items, q.count + |items|, TailOf(items))
  }

  /** The head moves on and the counter drops; the tail pointer is not looked at. */
  function DropFirst(q: Queue): Queue
    requires q.items != []
  {
    Queue(q.items[1..], q.count - 1, q.tail)
  }

  function Apply(s: State, step: Step): State
    requires Enabled(s, step)
  {
    match step
    case Grow(size, ids) => WithArena(s, size, Arena(s, size) + Fresh(size, ids))
    case Get(w, len) => if SizeFor(len) == None then s else GetStep(s, w, SizeFor(len).value)
    case Free(w) =>
      var wk := s.workers[w];
      var p := wk.held[0];
      s.(workers := s.workers[w := WithPool(wk, p.size, [p] + Pool(wk, p.size)).(held := wk.held[1..])])
    case Enqueue(w) =>
      var wk := s.workers[w];
      s.(workers := s.workers[w := wk.(local := Append(wk.local, wk.held[0]), held := wk.held[1..])])
    case Flush(w) =>
      var wk := s.workers[w];
      s.(workers := s.workers[w := wk.(shared := Extend(wk.shared, wk.local.items), local := EMPTY)])
    case Drain(w, dupes) =>
      var wk, verdict := s.workers[w], (p: Pbuf) => p in dupes;
      s.(workers := s.workers[w := wk.(shared := EMPTY)],
         out := Extend(s.out, Chain(wk.shared.items, verdict, false)),
         outDupe := Extend(s.outDupe, Chain(wk.shared.items, verdict, true)))
    case Publish =>
      s.(main := Extend(s.main, s.out.items), dupe := Extend(s.dupe, s.outDupe.items), out := EMPTY, outDupe := EMPTY)
    case Purge => s.(main := DropFirst(s.main), freeset := s.freeset + [s.main.items[0]])
    case PurgeDupe => s.(dupe := DropFirst(s.dupe), freeset := s.freeset + [s.dupe.items[0]])
    case FreeMany => Returned(s.(freeset := []), s.freeset)
  }

  // ---------------------------------------------------------------- the ledger

  function WorkerCount(w: Worker, p: Pbuf): nat {
    Occ(w.small, p) + Occ(w.medium, p) + Occ(w.large, p) + Occ(w.held, p) + Occ(w.local.items, p)
      + Occ(w.shared.items, p)
  }

  function WorkersCount(ws: seq<Worker>, p: Pbuf): nat {
    if ws == [] then 0 else WorkerCount(ws[0], p) + WorkersCount(ws[1..], p)
  }

  function ArenaCount(s: State, p: Pbuf): nat { Occ(s.small, p) + Occ(s.medium, p) + Occ(s.large, p) }

  function ChainCount(s: State, p: Pbuf): nat {
    Occ(s.out.items, p) + Occ(s.outDupe.items, p) + Occ(s.main.items, p) + Occ(s.dupe.items, p) + Occ(s.freeset, p)
  }

  /** In how many places a buffer is. */
  function Count(s: State, p: Pbuf): nat { ArenaCount(s, p) + WorkersCount(s.workers, p) + ChainCount(s, p) }

  /** In how many places the buffer at an address is, whatever its class. */
  function IdCount(s: State, id: nat): nat {
    Count(s, Pbuf(id, Small)) + Count(s, Pbuf(id, Medium)) + Count(s, Pbuf(id, Large))
  }

  lemma {:induction false} WorkersUpdate(ws: seq<Worker>, i: nat, w: Worker, p: Pbuf)
    requires i < |ws|
    ensures WorkersCount(ws[i := w], p) == WorkersCount(ws, p) - WorkerCount(ws[i], p) + WorkerCount(w, p)
    ensures WorkersCount(ws, p) >= WorkerCount(ws[i], p)
  {
    hide WorkerCount;
    if i == 0 {
      assert ws[i := w][1..] == ws[1..];
    } else {
      assert ws[i := w][1..] == ws[1..][i - 1 := w];
      WorkersUpdate(ws[1..], i - 1, w, p);
    }
  }

  /** What a step adds. */
  function Added(step: Step, p: Pbuf): nat { if step.Grow? then Occ(Fresh(step.size, step.ids), p) else 0 }

  // One lemma for each kind of step: buffers move, and none appears or disappears.

  lemma GetConserves(s: State, w: nat, size: Size, p: Pbuf)
    requires w < |s.workers|
    ensures Count(GetStep(s, w, size), p) == Count(s, p)
  {
    hide Occ, WorkersCount, Bunch, Reverse;
    var wk, arena := s.workers[w], Arena(s, size);
    var pool, n := Pool(wk, size), Taken(arena, Pool(wk, size), size);
    var r := AfterGet(pool, arena[..n]);
    WorkersUpdate(s.workers, w, GetStep(s, w, size).workers[w], p);
    OccSplit(arena, n, p);
    OccOne(p, p);
    GetOcc(pool, arena[..n], p);
    OccConcat(wk.held, if r.0 == None then [] else [r.0.value], p);
  }

  lemma GetOcc(pool: seq<Pbuf>, given: seq<Pbuf>, p: Pbuf)
    requires pool != [] ==> given == []
    ensures var r := AfterGet(pool, given);
      Occ(if r.0 == None then [] else [r.0.value], p) + Occ(r.1, p) == Occ(pool, p) + Occ(given, p)
  {
    hide Occ;
    OccOne(p, p);
    if pool != [] {
      OccSplit(pool, 1, p);
      assert pool[..1] == [pool[0]];
    } else if given != [] {
      OccSplit(given, 1, p);
      assert given[..1] == [given[0]];
      ReverseOcc(given[1..], p);
    }
  }

  lemma FreeConserves(s: State, w: nat, p: Pbuf)
    requires Enabled(s, Free(w))
    ensures Count(Apply(s, Free(w)), p) == Count(s, p)
  {
    hide Occ, WorkersCount;
    var wk := s.workers[w];
    var x := wk.held[0];
    WorkersUpdate(s.workers, w, Apply(s, Free(w)).workers[w], p);
    OccSplit(wk.held, 1, p);
    assert wk.held[..1] == [x];
    OccConcat([x], Pool(wk, x.size), p);
  }

  lemma EnqueueConserves(s: State, w: nat, p: Pbuf)
    requires Enabled(s, Enqueue(w))
    ensures Count(Apply(s, Enqueue(w)), p) == Count(s, p)
  {
    hide Occ, WorkersCount;
    var wk := s.workers[w];
    WorkersUpdate(s.workers, w, Apply(s, Enqueue(w)).workers[w], p);
    OccSplit(wk.held, 1, p);
    assert wk.held[..1] == [wk.held[0]];
    OccConcat(wk.local.items, [wk.held[0]], p);
  }

  lemma FlushConserves(s: State, w: nat, p: Pbuf)
    requires Enabled(s, Flush(w))
    ensures Count(Apply(s, Flush(w)), p) == Count(s, p)
  {
    hide Occ, WorkersCount;
    var wk := s.workers[w];
    WorkersUpdate(s.workers, w, Apply(s, Flush(w)).workers[w], p);
    OccOne(p, p);
    ExtendOcc(wk.shared, wk.local.items, p);
  }

  lemma ExtendOcc(q: Queue, items: seq<Pbuf>, p: Pbuf)
    ensures Occ(Extend(q, items).items, p) == Occ(q.items, p) + Occ(items, p)
  {
    hide Occ;
    OccOne(p, p);
    OccConcat(q.items, items, p);
  }

  lemma DrainConserves(s: State, w: nat, dupes: set<Pbuf>, p: Pbuf)
    requires Enabled(s, Drain(w, dupes))
    ensures Count(Apply(s, Drain(w, dupes)), p) == Count(s, p)
  {
    hide Occ, WorkersCount, Chain, Extend;
    var wk, verdict := s.workers[w], (p: Pbuf) => p in dupes;
    var s' := Apply(s, Drain(w, dupes));
    WorkersUpdate(s.workers, w, s'.workers[w], p);
    OccOne(p, p);
    ChainOcc(wk.shared.items, verdict, false, p);
    ChainOcc(wk.shared.items, verdict, true, p);
    ExtendOcc(s.out, Chain(wk.shared.items, verdict, false), p);
    ExtendOcc(s.outDupe, Chain(wk.shared.items, verdict, true), p);
  }

  lemma PublishConserves(s: State, p: Pbuf)
    ensures Count(Apply(s, Publish), p) == Count(s, p)
  {
    hide Occ, WorkersCount, Extend;
    OccOne(p, p);
    ExtendOcc(s.main, s.out.items, p);
    ExtendOcc(s.dupe, s.outDupe.items, p);
  }

  lemma ReturnedOcc(s: State, bufs: seq<Pbuf>, p: Pbuf)
    ensures Count(Returned(s, bufs), p) == Count(s, p) + Occ(bufs, p)
  {
    hide Occ, WorkersCount, OfSize;
    SortedOcc(bufs, p);
    OccConcat(s.small, OfSize(bufs, Small), p);
    OccConcat(s.medium, OfSize(bufs, Medium), p);
    OccConcat(s.large, OfSize(bufs, Large), p);
  }

  lemma DropOcc(q: Queue, free: seq<Pbuf>, p: Pbuf)
    requires q.items != []
    ensures Occ(DropFirst(q).items, p) + Occ(free + [q.items[0]], p) == Occ(q.items, p) + Occ(free, p)
  {
    hide Occ;
    OccSplit(q.items, 1, p);
    assert q.items[..1] == [q.items[0]];
    OccConcat(free, [q.items[0]], p);
  }

  lemma PurgeConserves(s: State, step: Step, p: Pbuf)
    requires Enabled(s, step) && (step.Purge? || step.PurgeDupe?)
    ensures Count(Apply(s, step), p) == Count(s, p)
  {
    hide Occ, WorkersCount, DropFirst;
    DropOcc(if step.Purge? then s.main else s.dupe, s.freeset, p);
  }

  lemma FreeManyConserves(s: State, p: Pbuf)
    ensures Count(Apply(s, FreeMany), p) == Count(s, p)
  {
    hide Occ, WorkersCount, Returned;
    OccOne(p, p);
    ReturnedOcc(s.(freeset := []), s.freeset, p);
  }

  lemma GrowAdds(s: State, size: Size, ids: seq<nat>, p: Pbuf)
    requires Enabled(s, Grow(size, ids))
    ensures Count(Apply(s, Grow(size, ids)), p) == Count(s, p) + Occ(Fresh(size, ids), p)
  {
    hide Occ, WorkersCount, Fresh;
    OccConcat(Arena(s, size), Fresh(size, ids), p);
  }

  /** No step loses or duplicates a buffer; only a new block adds any. */
  lemma StepConserves(s: State, step: Step, p: Pbuf)
    requires Inv(s) && Enabled(s, step)
    ensures Count(Apply(s, step), p) == Count(s, p) + Added(step, p)
  {
    hide Count, GetStep, Fresh;
    match step
    case Grow(size, ids) => GrowAdds(s, size, ids, p);
    case Get(w, len) => if SizeFor(len).Some? { GetConserves(s, w, SizeFor(len).value, p); }
    case Free(w) => FreeConserves(s, w, p);
    case Enqueue(w) => EnqueueConserves(s, w, p);
    case Flush(w) => FlushConserves(s, w, p);
    case Drain(w, dupes) => DrainConserves(s, w, dupes, p);
    case Publish => PublishConserves(s, p);
    case Purge => PurgeConserves(s, step, p);
    case PurgeDupe => PurgeConserves(s, step, p);
    case FreeMany => FreeManyConserves(s, p);
  }

  // ---------------------------------------------------------------- invariant

  ghost predicate WorkerOk(w: Worker) {
    && AllOf(w.small, Small) && AllOf(w.medium, Medium) && AllOf(w.large, Large)
    && Right(w.local) && Right(w.shared)
  }

  /** Arenas and pools hold only their own class, counters are lengths, and tail pointers are at the
      ends. */
  ghost predicate Ordered(s: State) {
    && AllOf(s.small, Small) && AllOf(s.medium, Medium) && AllOf(s.large, Large)
    && (forall w :: 0 <= w < |s.workers| ==> WorkerOk(s.workers[w]))
    && Right(s.out) && Right(s.outDupe) && Right(s.main) && Right(s.dupe)
  }

  /** And every buffer is in one place only. */
  ghost predicate Inv(s: State) {
    Ordered(s) && forall id :: IdCount(s, id) <= 1
  }

  lemma FreshOnce(size: Size, ids: seq<nat>, p: Pbuf)
    requires forall i, j :: 0 <= i < j < |ids| ==> ids[i] != ids[j]
    ensures Occ(Fresh(size, ids), p) <= 1
    ensures Occ(Fresh(size, ids), p) > 0 ==> exists i :: 0 <= i < |ids| && p == Pbuf(ids[i], size)
  {
    var f := Fresh(size, ids);
    DistinctOcc(f, p);
    if Occ(f, p) > 0 {
      assert p in f;
      var i :| 0 <= i < |f| && f[i] == p;
    }
  }

  lemma {:induction false} DistinctOcc(s: seq<Pbuf>, p: Pbuf)
    requires forall i, j :: 0 <= i < j < |s| ==> s[i] != s[j]
    ensures Occ(s, p) <= 1
  {
    if s != [] {
      DistinctOcc(s[1..], p);
      OccSplit(s, 1, p);
      assert s[..1] == [s[0]];
      if s[0] == p { assert p !in s[1..]; }
    }
  }

  lemma CountNat(s: State, id: nat)
    ensures Count(s, Pbuf(id, Small)) >= 0 && Count(s, Pbuf(id, Medium)) >= 0 && Count(s, Pbuf(id, Large)) >= 0
  {
  }

  /** A new block adds each of its addresses once, and in one class. */
  lemma FreshId(size: Size, ids: seq<nat>, id: nat)
    requires forall i, j :: 0 <= i < j < |ids| ==> ids[i] != ids[j]
    ensures var n := Occ(Fresh(size, ids), Pbuf(id, Small)) + Occ(Fresh(size, ids), Pbuf(id, Medium))
                     + Occ(Fresh(size, ids), Pbuf(id, Large));
      0 <= n <= 1 && (n > 0 ==> id in ids)
  {
    hide Fresh;
    FreshOnce(size, ids, Pbuf(id, Small));
    FreshOnce(size, ids, Pbuf(id, Medium));
    FreshOnce(size, ids, Pbuf(id, Large));
  }

  lemma CountBounded(s: State, step: Step, id: nat)
    requires Inv(s) && Enabled(s, step)
    ensures IdCount(Apply(s, step), id) <= 1
  {
    hide Count, Occ, Fresh, Apply, Ordered;
    StepConserves(s, step, Pbuf(id, Small));
    StepConserves(s, step, Pbuf(id, Medium));
    StepConserves(s, step, Pbuf(id, Large));
    CountNat(s, id);
    assert IdCount(s, id) <= 1;
    if step.Grow? { FreshId(step.size, step.ids, id); }
  }

  lemma GetOrdered(s: State, w: nat, size: Size)
    requires Ordered(s) && w < |s.workers|
    ensures Ordered(GetStep(s, w, size))
  {
    hide Bunch, Reverse;
    var wk, arena := s.workers[w], Arena(s, size);
    assert WorkerOk(wk);
    var n := Taken(arena, Pool(wk, size), size);
    if Pool(wk, size) == [] && n > 0 { ReverseSizes(arena[..n][1..], size); }
    assert WorkerOk(GetStep(s, w, size).workers[w]);
  }

  lemma WorkerSteps(s: State, step: Step)
    requires Ordered(s) && Enabled(s, step) && (step.Free? || step.Enqueue? || step.Flush?)
    ensures Ordered(Apply(s, step))
  {
    assert WorkerOk(s.workers[step.w]);
    assert WorkerOk(Apply(s, step).workers[step.w]);
  }

  lemma ExtendRight(q: Queue, items: seq<Pbuf>)
    requires Right(q)
    ensures Right(Extend(q, items))
  {
  }

  /** A list longer than one buffer keeps its last one, and with it its tail pointer: the loop's test
      against the limit is what keeps the tail right. */
  lemma DropRight(q: Queue, limit: int)
    requires Right(q) && q.count > limit >= 1
    ensures q.items != [] && Right(DropFirst(q)) && DropFirst(q).count >= limit
  {
  }

  lemma ReturnedOrdered(s: State, bufs: seq<Pbuf>)
    requires Ordered(s)
    ensures Ordered(Returned(s, bufs))
  {
    hide OfSize, WorkerOk, Right;
    SortedSizes(bufs, Small);
    SortedSizes(bufs, Medium);
    SortedSizes(bufs, Large);
  }

  lemma StepOrdered(s: State, step: Step)
    requires Ordered(s) && Enabled(s, step)
    ensures Ordered(Apply(s, step))
  {
    hide WorkerOk, Right, Chain, OfSize, GetStep, Count, Returned, Extend, DropFirst;
    match step
    case Grow(size, ids) =>
    case Get(w, len) => if SizeFor(len).Some? { GetOrdered(s, w, SizeFor(len).value); }
    case Free(w) => WorkerSteps(s, step);
    case Enqueue(w) => WorkerSteps(s, step);
    case Flush(w) => WorkerSteps(s, step);
    case Drain(w, dupes) =>
      var verdict := (p: Pbuf) => p in dupes;
      ExtendRight(s.out, Chain(s.workers[w].shared.items, verdict, false));
      ExtendRight(s.outDupe, Chain(s.workers[w].shared.items, verdict, true));
      DrainedOk(s.workers[w]);
    case Publish =>
      ExtendRight(s.main, s.out.items);
      ExtendRight(s.dupe, s.outDupe.items);
      EmptyRight();
    case Purge => DropRight(s.main, MAIN_LIMIT);
    case PurgeDupe => DropRight(s.dupe, DUPE_LIMIT);
    case FreeMany => ReturnedOrdered(s.(freeset := []), s.freeset);
  }

  lemma DrainedOk(w: Worker)
    requires WorkerOk(w)
    ensures WorkerOk(w.(shared := EMPTY))
  {
  }

  lemma EmptyRight()
    ensures Right(EMPTY)
  {
  }

  lemma InvPreserved(s: State, step: Step)
    requires Inv(s) && Enabled(s, step)
    ensures Inv(Apply(s, step))
  {
    hide IdCount, Ordered, Apply, Enabled;
    StepOrdered(s, step);
    forall id ensures IdCount(Apply(s, step), id) <= 1 { CountBounded(s, step, id); }
  }

  ghost predicate Run(s: State, steps: seq<Step>, e: State)
    decreases |steps|
  {
    if steps == [] then s == e else Enabled(s, steps[0]) && Run(Apply(s, steps[0]), steps[1..], e)
  }

  function AddedBy(steps: seq<Step>, p: Pbuf): nat {
    if steps == [] then 0 else Added(steps[0], p) + AddedBy(steps[1..], p)
  }

  /** Over any run the invariant holds, and the buffers at the end are those at the start and those
      of the blocks made. */
  lemma {:induction false} Conservation(s: State, steps: seq<Step>, e: State, p: Pbuf)
    requires Inv(s) && Run(s, steps, e)
    ensures Inv(e) && Count(e, p) == Count(s, p) + AddedBy(steps, p)
    decreases |steps|
  {
    hide Count, Inv, Apply, Enabled, Added;
    if steps != [] {
      InvPreserved(s, steps[0]);
      StepConserves(s, steps[0], p);
      Conservation(Apply(s, steps[0]), steps[1..], e, p);
    }
  }

  // ---------------------------------------------------------------- one place only

  datatype Place =
    | InArena(size: Size) | InPool(w: nat, size: Size) | InHand(w: nat) | InLocal(w: nat) | InShared(w: nat)
    | InOut | InOutDupe | InMain | InDupe | InFreeset

  function WorkerAt(w: Worker, at: Place): seq<Pbuf> {
    match at
    case InPool(_, size) => Pool(w, size)
    case InHand(_) => w.held
    case InLocal(_) => w.local.items
    case InShared(_) => w.shared.items
    case _ => []
  }

  predicate OfWorker(at: Place) { at.InPool? || at.InHand? || at.InLocal? || at.InShared? }

  function At(s: State, at: Place): seq<Pbuf> {
    if OfWorker(at) then (if at.w < |s.workers| then WorkerAt(s.workers[at.w], at) else [])
    else
      match at
      case InArena(size) => Arena(s, size)
      case InOut => s.out.items
      case InOutDupe => s.outDupe.items
      case InMain => s.main.items
      case InDupe => s.dupe.items
      case InFreeset => s.freeset
      case _ => []
  }

  lemma {:induction false} TwoWorkers(ws: seq<Worker>, i: nat, j: nat, p: Pbuf)
    requires i < j < |ws|
    ensures WorkersCount(ws, p) >= WorkerCount(ws[i], p) + WorkerCount(ws[j], p)
  {
    hide WorkerCount;
    if i > 0 { TwoWorkers(ws[1..], i - 1, j - 1, p); } else { WorkersUpdate(ws[1..], j - 1, ws[j], p); }
  }

  lemma WorkerPlaces(w: Worker, a: Place, b: Place, p: Pbuf)
    requires OfWorker(a) && OfWorker(b) && a.w == b.w && a != b
    ensures WorkerCount(w, p) >= Occ(WorkerAt(w, a), p) + Occ(WorkerAt(w, b), p)
  {
    hide Occ;
  }

  lemma WorkerPlace(w: Worker, a: Place, p: Pbuf)
    requires OfWorker(a)
    ensures WorkerCount(w, p) >= Occ(WorkerAt(w, a), p)
  {
    hide Occ;
  }

  lemma PlaceCount(s: State, a: Place, p: Pbuf)
    ensures Count(s, p) >= Occ(At(s, a), p)
    ensures OfWorker(a) ==> WorkersCount(s.workers, p) >= Occ(At(s, a), p)
    ensures !OfWorker(a) ==> ArenaCount(s, p) + ChainCount(s, p) >= Occ(At(s, a), p)
  {
    hide Occ, WorkersCount;
    OccOne(p, p);
    if OfWorker(a) && a.w < |s.workers| {
      WorkersUpdate(s.workers, a.w, s.workers[a.w], p);
      WorkerPlace(s.workers[a.w], a, p);
    }
  }

  lemma TwoPlaces(s: State, a: Place, b: Place, p: Pbuf)
    requires a != b
    ensures Count(s, p) >= Occ(At(s, a), p) + Occ(At(s, b), p)
  {
    hide Occ, WorkersCount, WorkerCount;
    OccOne(p, p);
    PlaceCount(s, a, p);
    PlaceCount(s, b, p);
    if OfWorker(a) && OfWorker(b) && a.w < |s.workers| && b.w < |s.workers| {
      var i, j := a.w, b.w;
      WorkersUpdate(s.workers, i, s.workers[i], p);
      if i == j {
        WorkerPlaces(s.workers[i], a, b, p);
      } else {
        TwoWorkers(s.workers, if i < j then i else j, if i < j then j else i, p);
        WorkerPlace(s.workers[i], a, p);
        WorkerPlace(s.workers[j], b, p);
      }
    }
  }

  /** In every reachable state the buffer at an address is of one class and in one place, once. */
  lemma OnePlace(s: State, steps: seq<Step>, e: State, p: Pbuf, q: Pbuf, a: Place, b: Place)
    requires Inv(s) && Run(s, steps, e) && p in At(e, a) && q in At(e, b) && p.id == q.id
    ensures p == q && a == b && Occ(At(e, a), p) == 1
  {
    hide Count, At, Run, AddedBy, Ordered;
    Conservation(s, steps, e, p);
    OneId(e, p, q);
    InOcc(At(e, a), p);
    InOcc(At(e, b), q);
    PlaceCount(e, a, p);
    PlaceCount(e, b, q);
    if p == q && a != b { TwoPlaces(e, a, b, p); }
  }

  lemma InOcc(s: seq<Pbuf>, p: Pbuf)
    ensures p in s <==> Occ(s, p) > 0
  {
  }

  lemma Classes(p: Pbuf)
    ensures p == Pbuf(p.id, Small) || p == Pbuf(p.id, Medium) || p == Pbuf(p.id, Large)
  {
    match p.size
    case Small =>
    case Medium =>
    case Large =>
  }

  lemma OneId(e: State, p: Pbuf, q: Pbuf)
    requires Inv(e) && p.id == q.id
    ensures Count(e, p) <= 1 && Count(e, q) <= 1 && (p != q ==> Count(e, p) + Count(e, q) <= 1)
  {
    hide Count, Ordered;
    CountNat(e, p.id);
    Classes(p);
    Classes(q);
    assert IdCount(e, p.id) <= 1;
  }

  lemma {:induction false} SomeWorker(ws: seq<Worker>, p: Pbuf) returns (w: nat)
    requires WorkersCount(ws, p) > 0
    ensures w < |ws| && WorkerCount(ws[w], p) > 0
  {
    hide WorkerCount;
    if WorkerCount(ws[0], p) > 0 {
      w := 0;
    } else {
      var v := SomeWorker(ws[1..], p);
      w := v + 1;
    }
  }

  /** A buffer that counts is somewhere. */
  lemma PlaceOf(s: State, p: Pbuf) returns (a: Place)
    requires Count(s, p) > 0
    ensures p in At(s, a)
  {
    hide WorkersCount;
    if ArenaCount(s, p) > 0 {
      a := InArena(if p in s.small then Small else if p in s.medium then Medium else Large);
    } else if WorkersCount(s.workers, p) > 0 {
      var w := SomeWorker(s.workers, p);
      a := WorkerPlaceOf(s.workers[w], w, p);
    } else {
      a := if p in s.out.items then InOut else if p in s.outDupe.items then InOutDupe
           else if p in s.main.items then InMain else if p in s.dupe.items then InDupe else InFreeset;
    }
  }

  lemma WorkerPlaceOf(wk: Worker, w: nat, p: Pbuf) returns (a: Place)
    requires WorkerCount(wk, p) > 0
    ensures OfWorker(a) && a.w == w && p in WorkerAt(wk, a)
  {
    a := if p in wk.small then InPool(w, Small) else if p in wk.medium then InPool(w, Medium)
         else if p in wk.large then InPool(w, Large) else if p in wk.held then InHand(w)
         else if p in wk.local.items then InLocal(w) else InShared(w);
  }

  /** In every reachable state a buffer is somewhere if and only if it was there at the start or was
      made since: none is ever lost. */
  lemma NeverLost(s: State, steps: seq<Step>, e: State, p: Pbuf)
    requires Inv(s) && Run(s, steps, e)
    ensures (exists a :: p in At(e, a)) <==> Count(s, p) + AddedBy(steps, p) > 0
  {
    hide Count, At, Run, AddedBy, Inv;
    Conservation(s, steps, e, p);
    if Count(e, p) > 0 {
      var a := PlaceOf(e, p);
    }
    forall a | p in At(e, a) ensures Count(e, p) > 0 {
      InOcc(At(e, a), p);
      PlaceCount(e, a, p);
    }
  }
}
