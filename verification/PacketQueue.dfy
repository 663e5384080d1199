/** The global packet queue of src/dupecheck.c, src/outgoing.c and src/worker.c.

    The dupecheck thread stamps packets with 32-bit sequence numbers and appends them to a
    singly linked list.  Every worker walks that list with a cursor of its own, and the
    purger cuts old packets off the front without taking the lock.  All of it is one state
    machine over single memory accesses.  The main and the duplicate queue are two instances
    of it that share nothing but the threads, and every result holds for all `Params`. */
module PacketQueue {
  import opened Basics

  type Addr = nat
  type WorkerId = nat

  const MODULUS: int := 0x1_0000_0000
  const NO_DATA_LAG: int := 2_000_000_000

  type Seqnum = n: int | 0 <= n < 0x1_0000_0000

  // ---------------------------------------------------------------- sequence numbers

  /** The counter after n packets: it starts at -2000, so it passes 0 after 2000 packets. */
  function CounterAfter(n: int): Seqnum { (n - 2000) % MODULUS }

  /** The number stamped on packet k, counting packets from 0. */
  function SeqOf(k: int): Seqnum { CounterAfter(k + 1) }

  function ToInt32(u: Seqnum): int { if u < 0x8000_0000 then u else u - MODULUS }

  /** pbuf_seqnum_lag */
  function SeqnumLag(seqnum: Seqnum, pbufSeq: Seqnum): int {
    if pbufSeq == 0 then NO_DATA_LAG else ToInt32((seqnum - pbufSeq) % MODULUS)
  }

  lemma ModularDifference(a: int, b: int)
    requires 0 <= a - b < MODULUS
    ensures (a % MODULUS - b % MODULUS) % MODULUS == a - b
  {
    var qa, qb := a / MODULUS, b / MODULUS;
    var d := a % MODULUS - b % MODULUS;
    assert d == (a - b) - MODULUS * (qa - qb);
    if qa - qb == 0 {
    } else if qa - qb == 1 {
      assert d + MODULUS == a - b;
      assert d % MODULUS == (d + MODULUS) % MODULUS;
    } else {
      assert false;
    }
  }

  /** The wrap-around arithmetic measures true distance, however often the counter wrapped;
      only the special value 0 reads as "no data". */
  lemma LagIsDistance(n: int, k: int)
    requires 0 <= n - 1 - k < 0x8000_0000
    ensures SeqnumLag(CounterAfter(n), SeqOf(k)) == if SeqOf(k) == 0 then NO_DATA_LAG else n - 1 - k
  {
    ModularDifference(n - 2000, k + 1 - 2000);
  }

  lemma CounterStep(n: int)
    ensures (CounterAfter(n) + 1) % MODULUS == CounterAfter(n + 1)
  {
    var q := (n - 2000) / MODULUS;
    assert n - 2000 == MODULUS * q + CounterAfter(n);
    if CounterAfter(n) + 1 == MODULUS {
      assert n + 1 - 2000 == MODULUS * (q + 1);
    } else {
      assert n + 1 - 2000 == MODULUS * q + (CounterAfter(n) + 1);
    }
  }

  // ---------------------------------------------------------------- state

  /** A packet buffer cell.  A freed cell stays in memory and may be handed out again. */
  datatype Pbuf = Pbuf(next: Option<Addr>, seqnum: Seqnum, t: int, data: Bytes, isFree: bool)

  /** A `struct pbuf_t **`: the list head variable, or the next field of a cell. */
  datatype Loc = Head | NextOf(a: Addr)

  /** Where a worker is inside the loop of process_outgoing. */
  datatype WorkerPc =
    | Idle               // about to read through its cursor
    | Holding(pb: Addr)  // has read pb, is sending it to its clients
    | Stamped(pb: Addr)  // has written last_pbuf_seqnum, not yet its cursor

  datatype Visit = Visit(data: Bytes, seqnum: Seqnum, t: int)

  /** start, passed and visited are history: they record, but no step depends on them. */
  datatype Worker = Worker(prevp: Loc, lastSeqnum: Seqnum, pc: WorkerPc,
                           start: nat, passed: nat, visited: seq<Visit>)

  /** Where the dupecheck thread is: collecting and publishing, finding the highest worker
      lag, or in the loop of global_pbuf_purger with local variables expire and pb. */
  datatype ThreadPc =
    | Collecting
    | Scanning(todo: set<WorkerId>, lag: int)
    | Purging(lag: int, expire: int, pb: Option<Addr>)

  datatype Params = Params(limit: int, expiration: int)

  /** The packet memory and what the dupecheck thread keeps about the list in it.
      log (all packets ever published) and chain (the cells linked in now) are history. */
  datatype List = List(mem: map<Addr, Pbuf>, tailp: Loc, count: int, seqnum: Seqnum,
                       log: seq<Visit>, chain: seq<Addr>)

  /** born: workers that have taken their cursor and are not yet linked in, so that neither the
      scan for the highest lag nor the purger knows of them. */
  datatype State = State(list: List, head: Option<Addr>, tick: int, born: map<WorkerId, Worker>,
                         workers: map<WorkerId, Worker>, thread: ThreadPc)

  predicate Init(s: State) {
    && s.list == List(map[], Head, 0, CounterAfter(0), [], [])
    && s.head == None && s.born == map[] && s.workers == map[] && s.thread == Collecting
  }

  predicate Live(l: List, a: Addr) { a in l.mem && !l.mem[a].isFree }

  // ---------------------------------------------------------------- steps

  datatype Packet = Packet(cell: Addr, t: int, data: Bytes)

  datatype Step =
    | Tick(now: int)
    | TakeCursor(w: WorkerId)               // worker_alloc copies the tail pointer
    | LinkWorker(w: WorkerId, seen: bool)   // the worker joins worker_threads, before or behind a scan in progress
    | StopWorker(w: WorkerId)
    | ReadCursor(w: WorkerId)
    | WriteSeqnum(w: WorkerId)
    | WriteCursor(w: WorkerId)
    | Publish(out: seq<Packet>)
    | BeginScan
    | ScanWorker(w: WorkerId)
    | BeginPurge
    | PurgeOne
    | EndPurge

  /** The value a read through a cursor returns. */
  function Fetch(s: State, p: Loc): Option<Addr> {
    match p
    case Head => s.head
    case NextOf(a) => if a in s.list.mem then s.list.mem[a].next else None
  }

  predicate DistinctCells(out: seq<Packet>) {
    forall i, j :: 0 <= i < j < |out| ==> out[i].cell != out[j].cell
  }

  predicate Linkable(l: List, out: seq<Packet>) {
    && out != []
    && (forall i :: 0 <= i < |out| ==> !Live(l, out[i].cell))
    && DistinctCells(out)
    && |l.chain| + |out| < NO_DATA_LAG
  }

  /** The out-chain as drained: consecutive sequence numbers, linked in order. */
  function Cells(out: seq<Packet>, seqnum: Seqnum): map<Addr, Pbuf>
    decreases |out|
  {
    if out == [] then map[]
    else
      var n := (seqnum + 1) % MODULUS;
      var next := if |out| == 1 then None else Some(out[1].cell);
      Cells(out[1..], n)[out[0].cell := Pbuf(next, n, out[0].t, out[0].data, false)]
  }

  function Records(out: seq<Packet>, seqnum: Seqnum): seq<Visit>
    decreases |out|
  {
    if out == [] then []
    else
      var n := (seqnum + 1) % MODULUS;
      [Visit(out[0].data, n, out[0].t)] + Records(out[1..], n)
  }

  function CounterAdd(seqnum: Seqnum, n: nat): Seqnum { (seqnum + n) % MODULUS }

  function Addrs(out: seq<Packet>): seq<Addr> { seq(|out|, i requires 0 <= i < |out| => out[i].cell) }

  /** Stamping, linking and splicing of an out-chain; the splice writes through tailp. */
  function Append(l: List, out: seq<Packet>): List
    requires out != []
  {
    var mem := l.mem + Cells(out, l.seqnum);
    List(if l.tailp.NextOf? && l.tailp.a in mem
         then mem[l.tailp.a := mem[l.tailp.a].(next := Some(out[0].cell))] else mem,
         NextOf(out[|out| - 1].cell),
         l.count + |out|,
         CounterAdd(l.seqnum, |out|),
         l.log + Records(out, l.seqnum),
         l.chain + Addrs(out))
  }

  /** The purger's loop condition and its two break tests. */
  predicate MayPurge(p: Params, l: List, lag: int, expire: int, pb: Option<Addr>) {
    && l.count > p.limit
    && pb.Some?
    && pb.value in l.mem
    && !(l.mem[pb.value].t >= expire)
    && !(lag >= SeqnumLag(l.seqnum, l.mem[pb.value].seqnum))
  }

  /** Dissociates a cell from the list and frees it. */
  function Cut(l: List, a: Addr): List
    requires a in l.mem
  {
    l.(mem := l.mem[a := l.mem[a].(next := None, isFree := true)],
       count := l.count - 1,
       chain := if l.chain == [] then [] else l.chain[1..])
  }

  predicate ThreadMayPurge(p: Params, s: State) {
    s.thread.Purging? && MayPurge(p, s.list, s.thread.lag, s.thread.expire, s.thread.pb)
  }

  predicate Enabled(p: Params, s: State, step: Step) {
    match step
    case Tick(now) => s.tick <= now
    case TakeCursor(w) => w !in s.born && w !in s.workers
    case LinkWorker(w, _) => w in s.born && w !in s.workers
    case StopWorker(w) => w in s.workers && s.workers[w].pc == Idle
    case ReadCursor(w) => w in s.workers && s.workers[w].pc == Idle
    case WriteSeqnum(w) => w in s.workers && s.workers[w].pc.Holding? && s.workers[w].pc.pb in s.list.mem
    case WriteCursor(w) => w in s.workers && s.workers[w].pc.Stamped? && s.workers[w].pc.pb in s.list.mem
    case Publish(out) => s.thread == Collecting && Linkable(s.list, out)
    case BeginScan => s.thread == Collecting
    case ScanWorker(w) => s.thread.Scanning? && w in s.thread.todo && w in s.workers
    case BeginPurge => s.thread.Scanning? && s.thread.todo == {}
    case PurgeOne => ThreadMayPurge(p, s)
    case EndPurge => s.thread.Purging? && !ThreadMayPurge(p, s)
  }

  function Apply(p: Params, s: State, step: Step): State
    requires Enabled(p, s, step)
  {
    match step
    case Tick(now) => s.(tick := now)
    case TakeCursor(w) =>
      var n := |s.list.log|;
      s.(born := s.born[w := Worker(s.list.tailp, 0, Idle, n, n, [])])
    case LinkWorker(w, seen) =>
      s.(born := s.born - {w}, workers := s.workers[w := s.born[w]],
         thread := if s.thread.Scanning? && seen then s.thread.(todo := s.thread.todo + {w}) else s.thread)
    case StopWorker(w) =>
      s.(workers := s.workers - {w},
         thread := if s.thread.Scanning? then s.thread.(todo := s.thread.todo - {w}) else s.thread)
    case ReadCursor(w) =>
      var v := s.workers[w];
      var got := Fetch(s, v.prevp);
      if got == None then s else s.(workers := s.workers[w := v.(pc := Holding(got.value))])
    case WriteSeqnum(w) =>
      var v := s.workers[w];
      s.(workers := s.workers[w := AfterWriteSeqnum(v, s.list.mem[v.pc.pb])])
    case WriteCursor(w) =>
      var v := s.workers[w];
      s.(workers := s.workers[w := AfterWriteCursor(v, s.list.mem[v.pc.pb])])
    case Publish(out) =>
      s.(list := Append(s.list, out), head := if s.list.tailp.Head? then Some(out[0].cell) else s.head)
    case BeginScan => s.(thread := Scanning(s.workers.Keys, -1))
    case ScanWorker(w) =>
      var c := SeqnumLag(s.list.seqnum, s.workers[w].lastSeqnum);
      s.(thread := Scanning(s.thread.todo - {w}, if c > s.thread.lag then c else s.thread.lag))
    case BeginPurge => s.(thread := Purging(s.thread.lag, s.tick - p.expiration, s.head))
    case PurgeOne =>
      var a := s.thread.pb.value;
      s.(list := Cut(s.list, a), thread := s.thread.(pb := s.list.mem[a].next))
    case EndPurge => s.(head := s.thread.pb, thread := Collecting)
  }

  // ---------------------------------------------------------------- what every step keeps

  /** The index of the first packet still in the list. */
  function Base(l: List): int { |l.log| - |l.chain| }

  predicate ListInv(l: List) {
    && |l.chain| <= |l.log|
    && |l.chain| < NO_DATA_LAG
    && (l.log != [] ==> l.chain != [])
    && l.count == |l.chain|
    && l.seqnum == CounterAfter(|l.log|)
    && (forall k :: 0 <= k < |l.log| ==> l.log[k].seqnum == SeqOf(k))
    && (forall i {:trigger CellInv(l, i)} :: 0 <= i < |l.chain| ==> CellInv(l, i))
    && (forall i, j :: 0 <= i < j < |l.chain| ==> l.chain[i] != l.chain[j])
    && l.tailp == (if l.chain == [] then Head else NextOf(l.chain[|l.chain| - 1]))
  }

  predicate CellInv(l: List, i: int)
    requires 0 <= i < |l.chain| <= |l.log|
  {
    var a := l.chain[i];
    var k := Base(l) + i;
    && Live(l, a)
    && l.mem[a].next == (if i + 1 < |l.chain| then Some(l.chain[i + 1]) else None)
    && l.mem[a].seqnum == SeqOf(k)
    && l.mem[a].data == l.log[k].data
    && l.mem[a].t == l.log[k].t
  }

  function First(l: List): Option<Addr> { if l.chain == [] then None else Some(l.chain[0]) }

  /** While the purger runs, the head variable is out of date once something was cut. */
  predicate HeadInv(s: State) {
    && (s.thread.Purging? ==> s.thread.pb == First(s.list))
    && (!s.thread.Purging? || Base(s.list) == 0 ==> s.head == First(s.list))
  }

  /** The lowest packet index this worker still needs in memory. */
  function Needs(v: Worker): int { if v.pc.Stamped? then v.passed else v.passed - 1 }

  predicate CursorInv(l: List, v: Worker)
    requires |l.chain| <= |l.log|
  {
    if v.passed == 0 then v.prevp == Head && Base(l) == 0
    else Base(l) <= v.passed - 1 < |l.log| && v.prevp == NextOf(l.chain[v.passed - 1 - Base(l)])
  }

  predicate HoldsNext(l: List, v: Worker, a: Addr)
    requires |l.chain| <= |l.log|
  {
    Base(l) <= v.passed < |l.log| && a == l.chain[v.passed - Base(l)]
  }

  predicate WorkerInv(l: List, v: Worker)
    requires |l.chain| <= |l.log|
  {
    && v.start <= v.passed <= |l.log|
    && v.visited == l.log[v.start..v.passed]
    && v.lastSeqnum == (if v.pc.Stamped? then SeqOf(v.passed)
                        else if v.passed == v.start then 0 else SeqOf(v.passed - 1))
    && match v.pc
       case Idle => CursorInv(l, v)
       case Holding(a) => CursorInv(l, v) && HoldsNext(l, v, a)
       case Stamped(a) => HoldsNext(l, v, a)
  }

  /** A purge with this highest lag leaves alone everything the worker needs ... */
  predicate Covered(l: List, lag: int, v: Worker) {
    lag >= NO_DATA_LAG || |l.log| - 1 - Needs(v) <= lag
  }

  /** ... or the worker was linked in too late to be seen, and what it needs is among the last
      packets, which the purger always leaves. */
  predicate Near(p: Params, l: List, v: Worker) { |l.log| - Needs(v) <= p.limit }

  predicate Spared(p: Params, l: List, lag: int, v: Worker) { Covered(l, lag, v) || Near(p, l, v) }

  /** The list never gets shorter than the limit, once it was that long. */
  predicate Floor(p: Params, l: List) { |l.chain| >= |l.log| || |l.chain| >= p.limit }

  /** A worker that is not linked in yet is safe as long as fewer packets than the limit have been
      published since it took its cursor. */
  predicate BornInv(p: Params, l: List, v: Worker)
    requires |l.chain| <= |l.log|
  {
    && v.pc == Idle && v.start == v.passed <= |l.log|
    && (|l.log| - v.start < p.limit ==> WorkerInv(l, v))
  }

  /** The stop index of a purge, |log| - 1 - lag, is not yet freed, and is not the packet
      whose number reads as "no data". */
  predicate LagInv(l: List, lag: int) {
    && -1 <= lag
    && (0 <= lag < NO_DATA_LAG ==>
        Base(l) <= |l.log| - 1 - lag && SeqOf(|l.log| - 1 - lag) != 0)
  }

  predicate ThreadInv(p: Params, s: State) {
    match s.thread
    case Collecting => true
    case Scanning(todo, lag) =>
      && LagInv(s.list, lag)
      && todo <= s.workers.Keys
      && forall w :: w in s.workers && w !in todo ==> Spared(p, s.list, lag, s.workers[w])
    case Purging(lag, _, _) =>
      && LagInv(s.list, lag)
      && forall w :: w in s.workers ==> Spared(p, s.list, lag, s.workers[w])
  }

  predicate Inv(p: Params, s: State) {
    && ListInv(s.list)
    && Floor(p, s.list)
    && HeadInv(s)
    && (forall w :: w in s.workers ==> WorkerInv(s.list, s.workers[w]))
    && (forall w :: w in s.born ==> BornInv(p, s.list, s.born[w]))
    && ThreadInv(p, s)
  }

  // ---------------------------------------------------------------- publishing

  lemma {:induction false} OutChainKeys(out: seq<Packet>, q: Seqnum, a: Addr)
    ensures |Records(out, q)| == |out|
    ensures a in Cells(out, q) ==> exists i :: 0 <= i < |out| && out[i].cell == a
    decreases |out|
  {
    if out != [] {
      OutChainKeys(out[1..], (q + 1) % MODULUS, a);
      if a in Cells(out[1..], (q + 1) % MODULUS) {
        var i :| 0 <= i < |out[1..]| && out[1..][i].cell == a;
        assert out[i + 1].cell == a;
      } else if a in Cells(out, q) {
        assert out[0].cell == a;
      }
    }
  }

  /** Packet i of an out-chain drained after n packets: its cell and its log record. */
  lemma {:induction false} OutChainCell(out: seq<Packet>, n: int, i: nat)
    requires DistinctCells(out) && i < |out|
    ensures var cells := Cells(out, CounterAfter(n));
      && out[i].cell in cells
      && cells[out[i].cell] == Pbuf(if i + 1 < |out| then Some(out[i + 1].cell) else None,
                                    SeqOf(n + i), out[i].t, out[i].data, false)
    ensures |Records(out, CounterAfter(n))| == |out|
    ensures Records(out, CounterAfter(n))[i] == Visit(out[i].data, SeqOf(n + i), out[i].t)
    decreases |out|
  {
    CounterStep(n);
    OutChainKeys(out, CounterAfter(n), 0);
    if i > 0 {
      assert out[1..][i - 1] == out[i];
      OutChainCell(out[1..], n + 1, i - 1);
    }
  }

  lemma AddCounter(n: int, d: nat)
    ensures CounterAdd(CounterAfter(n), d) == CounterAfter(n + d)
  {
    var q := (n - 2000) / MODULUS;
    assert n - 2000 == MODULUS * q + CounterAfter(n);
    var x := CounterAfter(n) + d;
    assert n + d - 2000 == MODULUS * q + x;
    var r := x / MODULUS;
    assert x == MODULUS * r + x % MODULUS;
    assert n + d - 2000 == MODULUS * (q + r) + x % MODULUS;
  }

  lemma OldCellAfterAppend(l: List, out: seq<Packet>, i: int)
    requires ListInv(l) && Linkable(l, out) && 0 <= i < |l.chain|
    ensures var l' := Append(l, out);
      Base(l') == Base(l) && |l'.chain| == |l.chain| + |out| <= |l'.log| && CellInv(l', i)
  {
    OutChainKeys(out, l.seqnum, l.chain[i]);
    assert CellInv(l, i);
    var l' := Append(l, out);
    assert l'.log[Base(l) + i] == l.log[Base(l) + i];
    assert i + 1 == |l.chain| ==> l'.chain[i + 1] == out[0].cell;
  }

  lemma NewCellAfterAppend(l: List, out: seq<Packet>, i: int)
    requires ListInv(l) && Linkable(l, out) && 0 <= i < |out|
    ensures var l' := Append(l, out);
      Base(l') == Base(l) && |l'.chain| == |l.chain| + |out| <= |l'.log| && CellInv(l', |l.chain| + i)
  {
    OutChainCell(out, |l.log|, i);
    if l.chain != [] { assert CellInv(l, |l.chain| - 1); }
    var l' := Append(l, out);
    assert l'.chain[|l.chain| + i] == out[i].cell;
    assert i + 1 < |out| ==> l'.chain[|l.chain| + i + 1] == out[i + 1].cell;
    assert l'.log[|l.log| + i] == Records(out, l.seqnum)[i];
  }

  lemma AppendKeepsDistinct(l: List, out: seq<Packet>, i: int, j: int)
    requires ListInv(l) && Linkable(l, out) && 0 <= i < j < |l.chain| + |out|
    ensures Append(l, out).chain[i] != Append(l, out).chain[j]
  {
    if i < |l.chain| <= j {
      assert CellInv(l, i) && !Live(l, out[j - |l.chain|].cell);
    }
  }

  lemma AppendKeepsNumbers(l: List, out: seq<Packet>, k: int)
    requires ListInv(l) && Linkable(l, out) && 0 <= k < |l.log| + |out|
    ensures |Append(l, out).log| == |l.log| + |out|
    ensures Append(l, out).log[k].seqnum == SeqOf(k)
  {
    OutChainKeys(out, l.seqnum, 0);
    if k >= |l.log| { OutChainCell(out, |l.log|, k - |l.log|); }
  }

  lemma AppendKeepsList(l: List, out: seq<Packet>)
    requires ListInv(l) && Linkable(l, out)
    ensures ListInv(Append(l, out)) && Base(Append(l, out)) == Base(l)
  {
    var l' := Append(l, out);
    AddCounter(|l.log|, |out|);
    AppendKeepsNumbers(l, out, 0);
    forall i | 0 <= i < |l'.chain| ensures CellInv(l', i) {
      if i < |l.chain| { OldCellAfterAppend(l, out, i); } else { NewCellAfterAppend(l, out, i - |l.chain|); }
    }
    forall k | 0 <= k < |l'.log| ensures l'.log[k].seqnum == SeqOf(k) { AppendKeepsNumbers(l, out, k); }
    forall i, j | 0 <= i < j < |l'.chain| ensures l'.chain[i] != l'.chain[j] {
      AppendKeepsDistinct(l, out, i, j);
    }
  }

  lemma AppendKeepsWorker(l: List, out: seq<Packet>, v: Worker)
    requires ListInv(l) && Linkable(l, out) && WorkerInv(l, v)
    ensures ListInv(Append(l, out)) && WorkerInv(Append(l, out), v)
  {
    AppendKeepsList(l, out);
    var l' := Append(l, out);
    assert l'.log[v.start..v.passed] == l.log[v.start..v.passed];
  }

  // ---------------------------------------------------------------- purging

  /** The node the purger frees is one that no worker needs any more. */
  lemma CutUnneeded(p: Params, l: List, lag: int, expire: int, v: Worker)
    requires p.limit >= 1 && ListInv(l) && LagInv(l, lag) && MayPurge(p, l, lag, expire, First(l))
    requires WorkerInv(l, v) && Spared(p, l, lag, v)
    ensures Needs(v) > Base(l)
  {
    assert CellInv(l, 0);
    LagIsDistance(|l.log|, Base(l));
  }

  /** Cutting the first cell keeps the list, whatever the lag was. */
  lemma CutKeepsChain(p: Params, l: List, lag: int, expire: int)
    requires p.limit >= 1 && ListInv(l) && MayPurge(p, l, lag, expire, First(l))
    ensures var l' := Cut(l, l.chain[0]);
      && ListInv(l') && Floor(p, l')
      && l'.log == l.log && l'.chain == l.chain[1..] && l.mem[l.chain[0]].next == First(l')
  {
    var l' := Cut(l, l.chain[0]);
    assert CellInv(l, 0);
    forall i | 0 <= i < |l'.chain| ensures CellInv(l', i) {
      assert CellInv(l, i + 1);
      assert l'.chain[i] == l.chain[i + 1] != l.chain[0];
    }
  }

  lemma CutKeepsList(p: Params, l: List, lag: int, expire: int)
    requires p.limit >= 1 && ListInv(l) && LagInv(l, lag) && MayPurge(p, l, lag, expire, First(l))
    ensures var l' := Cut(l, l.chain[0]);
      && ListInv(l') && LagInv(l', lag) && Floor(p, l')
      && l'.log == l.log && l'.chain == l.chain[1..] && l.mem[l.chain[0]].next == First(l')
  {
    CutKeepsChain(p, l, lag, expire);
    assert CellInv(l, 0);
    LagIsDistance(|l.log|, Base(l));
  }

  lemma CutKeepsWorker(p: Params, l: List, lag: int, expire: int, v: Worker)
    requires p.limit >= 1 && ListInv(l) && LagInv(l, lag) && MayPurge(p, l, lag, expire, First(l))
    requires WorkerInv(l, v) && Spared(p, l, lag, v)
    ensures WorkerInv(Cut(l, l.chain[0]), v)
  {
    CutUnneeded(p, l, lag, expire, v);
  }

  // ---------------------------------------------------------------- scanning

  lemma ScannedIsCovered(l: List, v: Worker)
    requires ListInv(l) && WorkerInv(l, v)
    ensures var c := SeqnumLag(l.seqnum, v.lastSeqnum);
      c >= 0 && LagInv(l, c) && Covered(l, c, v)
  {
    if Needs(v) >= 0 { LagIsDistance(|l.log|, Needs(v)); }
  }

  lemma ScanKeepsThreadInv(p: Params, s: State, w: WorkerId)
    requires Inv(p, s) && Enabled(p, s, ScanWorker(w))
    ensures ThreadInv(p, Apply(p, s, ScanWorker(w)))
  {
    var s' := Apply(p, s, ScanWorker(w));
    ScannedIsCovered(s.list, s.workers[w]);
    forall u | u in s'.workers && u !in s'.thread.todo
      ensures Spared(p, s'.list, s'.thread.lag, s'.workers[u])
    {
      assert u == w || u !in s.thread.todo;
    }
  }

  // ---------------------------------------------------------------- workers

  /** The value a worker gets through its cursor is the next packet it has not passed. */
  lemma CursorReadsNext(s: State, v: Worker)
    requires ListInv(s.list) && HeadInv(s) && CursorInv(s.list, v) && v.passed <= |s.list.log|
    ensures Fetch(s, v.prevp) ==
            if v.passed == |s.list.log| then None else Some(s.list.chain[v.passed - Base(s.list)])
  {
    if v.passed > 0 { assert CellInv(s.list, v.passed - 1 - Base(s.list)); }
  }

  /** A worker's step keeps its own invariant and moves it forward only. */
  predicate Advances(l: List, v: Worker, v': Worker)
    requires |l.chain| <= |l.log|
  {
    WorkerInv(l, v') && Needs(v') >= Needs(v)
  }

  /** A worker that has read its cursor holds the next packet. */
  lemma HoldingAdvances(l: List, v: Worker)
    requires |l.chain| <= |l.log| && WorkerInv(l, v) && v.pc == Idle
    ensures Advances(l, v, v)
    ensures v.passed < |l.log| && v.passed >= Base(l) ==> Advances(l, v, v.(pc := Holding(l.chain[v.passed - Base(l)])))
  {
  }

  lemma ReadAdvances(p: Params, s: State, w: WorkerId)
    requires Inv(p, s) && Enabled(p, s, ReadCursor(w))
    ensures var s' := Apply(p, s, ReadCursor(w));
      Advances(s.list, s.workers[w], s'.workers[w]) && s' == s.(workers := s.workers[w := s'.workers[w]])
  {
    var v := s.workers[w];
    assert WorkerInv(s.list, v);
    CursorReadsNext(s, v);
    HoldingAdvances(s.list, v);
    hide Fetch, ListInv, CellInv, Advances;
    assert s.workers[w := v] == s.workers;
  }

  function AfterWriteSeqnum(v: Worker, pb: Pbuf): Worker
    requires v.pc.Holding?
  {
    v.(lastSeqnum := pb.seqnum, pc := Stamped(v.pc.pb))
  }

  function AfterWriteCursor(v: Worker, pb: Pbuf): Worker
    requires v.pc.Stamped?
  {
    v.(prevp := NextOf(v.pc.pb), pc := Idle, passed := v.passed + 1,
       visited := v.visited + [Visit(pb.data, pb.seqnum, pb.t)])
  }

  lemma WriteSeqnumAdvances(l: List, v: Worker)
    requires 0 <= Base(l) && WorkerInv(l, v) && v.pc.Holding? && CellInv(l, v.passed - Base(l))
    ensures Advances(l, v, AfterWriteSeqnum(v, l.mem[v.pc.pb]))
  {
  }

  lemma WriteCursorAdvances(l: List, v: Worker)
    requires 0 <= Base(l) && WorkerInv(l, v) && v.pc.Stamped? && CellInv(l, v.passed - Base(l))
    requires l.log[v.passed].seqnum == SeqOf(v.passed)
    ensures Advances(l, v, AfterWriteCursor(v, l.mem[v.pc.pb]))
  {
    assert l.log[v.start..v.passed + 1] == l.log[v.start..v.passed] + [l.log[v.passed]];
  }

  lemma AdvanceKeepsInv(p: Params, s: State, w: WorkerId, v': Worker)
    requires Inv(p, s) && w in s.workers && Advances(s.list, s.workers[w], v')
    ensures Inv(p, s.(workers := s.workers[w := v']))
  {
    var v := s.workers[w];
    assert forall lag :: Spared(p, s.list, lag, v) ==> Spared(p, s.list, lag, v');
  }

  // ---------------------------------------------------------------- whole runs

  lemma PublishKeepsInv(p: Params, s: State, out: seq<Packet>)
    requires Inv(p, s) && Enabled(p, s, Publish(out))
    ensures Inv(p, Apply(p, s, Publish(out)))
  {
    var s' := Apply(p, s, Publish(out));
    AppendKeepsList(s.list, out);
    forall w | w in s'.workers ensures WorkerInv(s'.list, s'.workers[w]) {
      AppendKeepsWorker(s.list, out, s.workers[w]);
    }
    forall w | w in s'.born ensures BornInv(p, s'.list, s'.born[w]) {
      if |s'.list.log| - s.born[w].start < p.limit { AppendKeepsWorker(s.list, out, s.born[w]); }
    }
  }

  lemma PurgeKeepsInv(p: Params, s: State)
    requires p.limit >= 1 && Inv(p, s) && Enabled(p, s, PurgeOne)
    ensures Inv(p, Apply(p, s, PurgeOne))
  {
    var s' := Apply(p, s, PurgeOne);
    var th := s.thread;
    CutKeepsList(p, s.list, th.lag, th.expire);
    forall w | w in s'.workers ensures WorkerInv(s'.list, s'.workers[w]) {
      CutKeepsWorker(p, s.list, th.lag, th.expire, s.workers[w]);
    }
    forall w | w in s'.born ensures BornInv(p, s'.list, s'.born[w]) {
      if |s.list.log| - s.born[w].start < p.limit { CutKeepsWorker(p, s.list, th.lag, th.expire, s.born[w]); }
    }
  }

  /** Fewer packets than the limit have been published since the worker took its cursor. */
  predicate InTime(p: Params, s: State, step: Step)
    requires Enabled(p, s, step)
  {
    step.LinkWorker? ==> |s.list.log| - s.born[step.w].start < p.limit
  }

  lemma InvPreserved(p: Params, s: State, step: Step)
    requires p.limit >= 1 && Inv(p, s) && Enabled(p, s, step) && InTime(p, s, step)
    ensures Inv(p, Apply(p, s, step))
  {
    var s' := Apply(p, s, step);
    match step
    case ReadCursor(w) => ReadAdvances(p, s, w); AdvanceKeepsInv(p, s, w, s'.workers[w]);
    case WriteSeqnum(w) => WriteSeqnumAdvances(s.list, s.workers[w]); AdvanceKeepsInv(p, s, w, s'.workers[w]);
    case WriteCursor(w) => WriteCursorAdvances(s.list, s.workers[w]); AdvanceKeepsInv(p, s, w, s'.workers[w]);
    case Publish(out) => PublishKeepsInv(p, s, out);
    case ScanWorker(w) => ScanKeepsThreadInv(p, s, w);
    case PurgeOne => PurgeKeepsInv(p, s);
    case _ => BookkeepingKeepsInv(p, s, step);
  }

  lemma BookkeepingKeepsInv(p: Params, s: State, step: Step)
    requires Inv(p, s) && Enabled(p, s, step) && InTime(p, s, step)
    requires step.Tick? || step.TakeCursor? || step.LinkWorker? || step.StopWorker?
             || step.BeginScan? || step.BeginPurge? || step.EndPurge?
    ensures Inv(p, Apply(p, s, step))
  {
    ChainShort(s.list);
    if step.TakeCursor? { TakeKeepsInv(p, s, step.w); }
    if step.LinkWorker? { LinkKeepsInv(p, s, step); }
    hide ListInv;
  }

  lemma ChainShort(l: List)
    requires ListInv(l)
    ensures |l.chain| <= |l.log|
  {
  }

  lemma TakeKeepsInv(p: Params, s: State, w: WorkerId)
    requires Inv(p, s) && Enabled(p, s, TakeCursor(w))
    ensures Inv(p, Apply(p, s, TakeCursor(w)))
  {
    var s' := Apply(p, s, TakeCursor(w));
    assert WorkerInv(s'.list, s'.born[w]);
  }

  lemma LinkKeepsInv(p: Params, s: State, step: Step)
    requires Inv(p, s) && Enabled(p, s, step) && InTime(p, s, step) && step.LinkWorker?
    ensures Inv(p, Apply(p, s, step))
  {
    ChainShort(s.list);
    assert BornInv(p, s.list, s.born[step.w]);
    hide ListInv;
  }

  /** A run: any interleaving of the steps of all threads. */
  predicate Run(p: Params, states: seq<State>, steps: seq<Step>) {
    && |states| == |steps| + 1
    && Init(states[0])
    && forall i :: 0 <= i < |steps| ==>
         Enabled(p, states[i], steps[i]) && states[i + 1] == Apply(p, states[i], steps[i])
  }

  predicate Goes(p: Params, s: State, step: Step, s': State) { Enabled(p, s, step) && s' == Apply(p, s, step) }

  lemma RunGoes(p: Params, states: seq<State>, steps: seq<Step>, i: nat)
    requires Run(p, states, steps) && i + 1 < |states|
    ensures |states| == |steps| + 1 && Goes(p, states[i], steps[i], states[i + 1])
  {
  }

  // The list itself is sound in every run, whatever the workers do.

  predicate CoreInv(p: Params, s: State) { ListInv(s.list) && Floor(p, s.list) && HeadInv(s) }

  lemma CorePreserved(p: Params, s: State, step: Step)
    requires p.limit >= 1 && CoreInv(p, s) && Enabled(p, s, step)
    ensures CoreInv(p, Apply(p, s, step))
  {
    if step.Publish? {
      AppendKeepsList(s.list, step.out);
    } else if step.PurgeOne? {
      CutKeepsChain(p, s.list, s.thread.lag, s.thread.expire);
    } else {
      hide ListInv;
    }
  }

  lemma {:induction false} CoreThroughRun(p: Params, states: seq<State>, steps: seq<Step>, i: nat)
    requires p.limit >= 1 && Run(p, states, steps) && i < |states|
    ensures CoreInv(p, states[i])
  {
    if i > 0 {
      CoreThroughRun(p, states, steps, i - 1);
      CorePreserved(p, states[i - 1], steps[i - 1]);
    }
  }

  lemma {:induction false} ExpireThroughRun(p: Params, states: seq<State>, steps: seq<Step>, i: nat)
    requires Run(p, states, steps) && i < |states|
    ensures states[i].thread.Purging? ==> states[i].thread.expire <= states[i].tick - p.expiration
  {
    hide Append, Cut, MayPurge;
    if i > 0 { ExpireThroughRun(p, states, steps, i - 1); }
  }

  /** In every run, a packet that is cut off is the oldest in the list and older than the expiration
      time, and the list is longer than the limit. */
  lemma PurgedAreOld(p: Params, states: seq<State>, steps: seq<Step>, i: nat)
    requires p.limit >= 1 && Run(p, states, steps) && i < |steps| && steps[i].PurgeOne?
    ensures var l, l' := states[i].list, states[i + 1].list;
      && |l.chain| > p.limit && l'.log == l.log && l'.chain == l.chain[1..]
      && 0 <= Base(l) < |l.log| && l.log[Base(l)].t < states[i].tick - p.expiration
  {
    hide Append, Cut, SeqnumLag;
    CoreThroughRun(p, states, steps, i);
    ExpireThroughRun(p, states, steps, i);
    var s := states[i];
    assert Enabled(p, s, steps[i]);
    assert CellInv(s.list, 0);
    CutKeepsChain(p, s.list, s.thread.lag, s.thread.expire);
  }

  /** In every run the publisher writes through its tail pointer into a live last cell, the counter
      is the length of the list, and the list keeps all packets or at least as many as the limit. */
  lemma TailAlwaysLive(p: Params, states: seq<State>, steps: seq<Step>, i: nat)
    requires p.limit >= 1 && Run(p, states, steps) && i < |states|
    ensures var l := states[i].list;
      && TailSafe(l) && l.count == |l.chain|
      && (|l.log| < p.limit ==> l.count == |l.log|) && (|l.log| >= p.limit ==> l.count >= p.limit)
  {
    CoreThroughRun(p, states, steps, i);
    var l := states[i].list;
    if l.chain != [] { assert CellInv(l, |l.chain| - 1); }
  }

  /** A tail position stays in the list while fewer packets than the limit follow. */
  lemma TailStays(p: Params, states: seq<State>, steps: seq<Step>, i: nat, j: nat)
    requires p.limit >= 1 && Run(p, states, steps) && i <= j < |states|
    requires states[i].list.log != [] && |states[j].list.log| - |states[i].list.log| < p.limit
    ensures states[i].list.tailp.NextOf? && Live(states[j].list, states[i].list.tailp.a)
  {
    LogOnlyGrows(p, states, steps, i, j);
    CoreThroughRun(p, states, steps, i);
    CoreThroughRun(p, states, steps, j);
    ChainPersists(p, states, steps, i, j, |states[i].list.log| - 1);
    assert CellInv(states[j].list, |states[i].list.log| - 1 - Base(states[j].list));
  }

  /** The cell of a packet is the same in all states in which the packet is in the list. */
  lemma {:induction false} ChainPersists(p: Params, states: seq<State>, steps: seq<Step>, i: nat, j: nat, k: nat)
    requires p.limit >= 1 && Run(p, states, steps) && i <= j < |states| && k < |states[i].list.log|
    requires Base(states[j].list) <= k
    ensures Base(states[i].list) <= k && k < |states[j].list.log|
    ensures states[i].list.chain[k - Base(states[i].list)] == states[j].list.chain[k - Base(states[j].list)]
  {
    hide *;
    CoreThroughRun(p, states, steps, j);
    LogOnlyGrows(p, states, steps, i, j);
    ChainFits(p, states[j]);
    if i < j {
      CoreThroughRun(p, states, steps, j - 1);
      LogOnlyGrows(p, states, steps, i, j - 1);
      RunGoes(p, states, steps, j - 1);
      ChainStep(p, states[j - 1], steps[j - 1], states[j], k);
      ChainPersists(p, states, steps, i, j - 1, k);
    }
  }

  lemma ChainFits(p: Params, s: State)
    requires CoreInv(p, s)
    ensures 0 <= Base(s.list) && |s.list.chain| == |s.list.log| - Base(s.list)
  {
  }

  lemma ChainStep(p: Params, s: State, step: Step, s': State, k: nat)
    requires p.limit >= 1 && CoreInv(p, s) && Goes(p, s, step, s') && k < |s.list.log|
    ensures var l, l' := s.list, s'.list;
      && |l.log| <= |l'.log| && 0 <= Base(l) <= Base(l')
      && (Base(l') <= k ==>
            && k - Base(l) < |l.chain| && k - Base(l') < |l'.chain| && l.chain[k - Base(l)] == l'.chain[k - Base(l')])
  {
    if step.Publish? {
      AppendKeepsList(s.list, step.out);
    } else if step.PurgeOne? {
      CutKeepsChain(p, s.list, s.thread.lag, s.thread.expire);
    }
  }

  /** A run in which every worker is linked in before as many packets as the limit have been
      published since it took its cursor. */
  predicate Timely(p: Params, states: seq<State>, steps: seq<Step>)
    requires Run(p, states, steps)
  {
    forall i :: 0 <= i < |steps| ==> InTime(p, states[i], steps[i])
  }

  lemma {:induction false} InvThroughRun(p: Params, states: seq<State>, steps: seq<Step>, i: nat)
    requires p.limit >= 1 && Run(p, states, steps) && Timely(p, states, steps) && i < |states|
    ensures Inv(p, states[i])
  {
    if i > 0 {
      InvThroughRun(p, states, steps, i - 1);
      InvPreserved(p, states[i - 1], steps[i - 1]);
    }
  }

  /** What a worker touches next is live: the cell its cursor is in (unless it is about to
      overwrite the cursor unread), the cell that cursor yields, and the cell it holds. */
  predicate WorkerSafe(s: State, v: Worker) {
    && (v.pc != Idle ==> Live(s.list, v.pc.pb))
    && (!v.pc.Stamped? ==>
          && (v.prevp.NextOf? ==> Live(s.list, v.prevp.a))
          && (Fetch(s, v.prevp).Some? ==> Live(s.list, Fetch(s, v.prevp).value)))
  }

  /** The publisher writes through its tail pointer into a live last cell. */
  predicate TailSafe(l: List) {
    l.log != [] ==> l.tailp.NextOf? && Live(l, l.tailp.a) && l.mem[l.tailp.a].next == None
  }

  /** No interleaving lets a worker reach a freed packet buffer, if workers are linked in in time.
      LateLinkFails shows that one packet more is too many. */
  lemma NoUseAfterFree(p: Params, states: seq<State>, steps: seq<Step>, i: nat)
    requires p.limit >= 1 && Run(p, states, steps) && Timely(p, states, steps) && i < |states|
    ensures forall w :: w in states[i].workers ==> WorkerSafe(states[i], states[i].workers[w])
  {
    var s := states[i];
    InvThroughRun(p, states, steps, i);
    forall w | w in s.workers ensures WorkerSafe(s, s.workers[w]) {
      WorkerIsSafe(s, s.workers[w]);
    }
  }

  lemma WorkerIsSafe(s: State, v: Worker)
    requires ListInv(s.list) && HeadInv(s) && WorkerInv(s.list, v)
    ensures WorkerSafe(s, v)
  {
    var l := s.list;
    if v.pc != Idle { assert CellInv(l, v.passed - Base(l)); }
    if !v.pc.Stamped? {
      CursorReadsNext(s, v);
      if v.passed > 0 { assert CellInv(l, v.passed - 1 - Base(l)); }
      if v.passed < |l.log| { assert CellInv(l, v.passed - Base(l)); }
    }
  }

  function LatePacket(cell: Addr): Packet { Packet(cell, 0, []) }

  function LatePackets(n: nat): seq<Packet> { seq(n, i requires 0 <= i < n => LatePacket(i + 1)) }

  const EMPTY_LIST := List(map[], Head, 0, CounterAfter(0), [], [])

  /** Two publications: one packet in cell 0 ... */
  lemma LateFirst() returns (l1: List)
    ensures ListInv(EMPTY_LIST) && Linkable(EMPTY_LIST, [LatePacket(0)]) && l1 == Append(EMPTY_LIST, [LatePacket(0)])
    ensures ListInv(l1) && l1.tailp == NextOf(0) && |l1.log| == 1 && l1.chain == [0]
    ensures l1.mem.Keys == {0} && l1.mem[0].t == 0
  {
    var first := [LatePacket(0)];
    l1 := Append(EMPTY_LIST, first);
    AppendKeepsList(EMPTY_LIST, first);
    OutChainCell(first, 0, 0);
  }

  /** ... then n more. */
  lemma LateMore(l1: List, n: nat) returns (l2: List)
    requires ListInv(l1) && l1.tailp == NextOf(0) && |l1.log| == 1 && l1.chain == [0]
    requires l1.mem.Keys == {0} && l1.mem[0].t == 0 && 1 <= n < NO_DATA_LAG - 1
    ensures Linkable(l1, LatePackets(n)) && l2 == Append(l1, LatePackets(n))
    ensures ListInv(l2) && |l2.log| == n + 1 == l2.count && l2.chain[0] == 0 && 0 in l2.mem && l2.mem[0].t == 0
  {
    var more := LatePackets(n);
    l2 := Append(l1, more);
    AppendKeepsList(l1, more);
    AppendKeepsNumbers(l1, more, 0);
    OutChainKeys(more, l1.seqnum, 0);
    hide ListInv, Records;
  }

  /** The purger may cut the first of n + 1 packets when nobody is known to lag. */
  lemma LateMayPurge(p: Params, l2: List)
    requires 1 <= p.limit < NO_DATA_LAG - 1 && ListInv(l2) && |l2.log| == p.limit + 1 == l2.count
    requires l2.chain[0] == 0 && 0 in l2.mem && l2.mem[0].t == 0
    ensures MayPurge(p, l2, -1, 1, First(l2))
  {
    assert CellInv(l2, 0);
    LagIsDistance(|l2.log|, 0);
  }

  const LATE_WORKER := Worker(NextOf(0), 0, Idle, 1, 1, [])

  function Late(l: List, now: int, linked: bool, thread: ThreadPc): State {
    State(l, Some(0), now, if linked then map[] else map[0 := LATE_WORKER],
          if linked then map[0 := LATE_WORKER] else map[], thread)
  }

  lemma LatePublish(p: Params, l1: List, l2: List, now: int)
    requires p.limit >= 1 && Linkable(EMPTY_LIST, [LatePacket(0)]) && l1 == Append(EMPTY_LIST, [LatePacket(0)])
    requires l1.tailp == NextOf(0) && |l1.log| == 1
    requires Linkable(l1, LatePackets(p.limit)) && l2 == Append(l1, LatePackets(p.limit))
    ensures var s0 := State(EMPTY_LIST, None, now, map[], map[], Collecting);
      var s1 := State(l1, Some(0), now, map[], map[], Collecting);
      && Goes(p, s0, Publish([LatePacket(0)]), s1) && Goes(p, s1, TakeCursor(0), Late(l1, now, false, Collecting))
      && Goes(p, Late(l1, now, false, Collecting), Publish(LatePackets(p.limit)), Late(l2, now, false, Collecting))
  {
    hide Append, Linkable;
  }

  lemma LatePurge(p: Params, l2: List, l3: List)
    requires 0 in l2.mem && l3 == Cut(l2, 0) && First(l2) == Some(0) && MayPurge(p, l2, -1, 1, First(l2))
    ensures var now, next := p.expiration + 1, l2.mem[0].next;
      && Goes(p, Late(l2, now, false, Collecting), BeginScan, Late(l2, now, false, Scanning({}, -1)))
      && Goes(p, Late(l2, now, false, Scanning({}, -1)), BeginPurge, Late(l2, now, false, Purging(-1, 1, Some(0))))
      && Goes(p, Late(l2, now, false, Purging(-1, 1, Some(0))), PurgeOne, Late(l3, now, false, Purging(-1, 1, next)))
      && Goes(p, Late(l3, now, false, Purging(-1, 1, next)), LinkWorker(0, false),
          Late(l3, now, true, Purging(-1, 1, next)))
  {
    hide Cut, MayPurge;
  }

  /** For every limit: if exactly as many packets as the limit are published between the two steps
      of starting a worker, the purger may free the cell its cursor is in. */
  lemma LateLinkFails(p: Params) returns (states: seq<State>, steps: seq<Step>)
    requires 1 <= p.limit < NO_DATA_LAG - 1
    ensures Run(p, states, steps) && |steps| == 7 && steps[6] == LinkWorker(0, false)
    ensures var s := states[7];
      && 0 in s.workers && |s.list.log| - s.workers[0].start == p.limit
      && !WorkerSafe(s, s.workers[0])
  {
    hide Goes, Append, ListInv, Linkable, MayPurge, Floor, CounterAfter;
    var l1 := LateFirst();
    var l2 := LateMore(l1, p.limit);
    LateMayPurge(p, l2);
    CutKeepsChain(p, l2, -1, 1);
    var now, l3, next := p.expiration + 1, Cut(l2, 0), l2.mem[0].next;
    LatePublish(p, l1, l2, now);
    LatePurge(p, l2, l3);
    states := [State(EMPTY_LIST, None, now, map[], map[], Collecting),
               State(l1, Some(0), now, map[], map[], Collecting),
               Late(l1, now, false, Collecting), Late(l2, now, false, Collecting),
               Late(l2, now, false, Scanning({}, -1)), Late(l2, now, false, Purging(-1, 1, Some(0))),
               Late(l3, now, false, Purging(-1, 1, next)), Late(l3, now, true, Purging(-1, 1, next))];
    steps := [Publish([LatePacket(0)]), TakeCursor(0), Publish(LatePackets(p.limit)), BeginScan, BeginPurge, PurgeOne,
              LinkWorker(0, false)];
    assert WorkerFreed(states[7], LATE_WORKER);
    SevenSteps(p, states, steps);
  }

  predicate WorkerFreed(s: State, v: Worker) { v.pc == Idle && v.prevp.NextOf? && !Live(s.list, v.prevp.a) }

  lemma SevenSteps(p: Params, states: seq<State>, steps: seq<Step>)
    requires |states| == 8 && |steps| == 7 && Init(states[0])
    requires Goes(p, states[0], steps[0], states[1]) && Goes(p, states[1], steps[1], states[2])
    requires Goes(p, states[2], steps[2], states[3]) && Goes(p, states[3], steps[3], states[4])
    requires Goes(p, states[4], steps[4], states[5]) && Goes(p, states[5], steps[5], states[6])
    requires Goes(p, states[6], steps[6], states[7])
    ensures Run(p, states, steps)
  {
    forall i | 0 <= i < 7 ensures Goes(p, states[i], steps[i], states[i + 1]) {}
    hide Enabled, Apply;
  }

  /** Exactly once, in order, with consecutive numbers: what a worker has visited is the
      published sequence from its start; once its cursor yields nothing, all of it. */
  lemma ExactlyOnceInOrder(p: Params, states: seq<State>, steps: seq<Step>, i: nat, w: WorkerId)
    requires p.limit >= 1 && Run(p, states, steps) && Timely(p, states, steps) && i < |states| && w in states[i].workers
    ensures var s, v := states[i], states[i].workers[w];
      && v.start + |v.visited| <= |s.list.log|
      && v.visited == s.list.log[v.start..v.start + |v.visited|]
      && (forall k :: 0 <= k < |v.visited| ==> v.visited[k].seqnum == SeqOf(v.start + k))
      && (v.pc == Idle && Fetch(s, v.prevp) == None ==> v.visited == s.list.log[v.start..])
  {
    var s, v := states[i], states[i].workers[w];
    InvThroughRun(p, states, steps, i);
    assert WorkerInv(s.list, v);
    if v.pc == Idle { CursorReadsNext(s, v); }
  }

  /** The log only grows: what was published stays published. */
  lemma {:induction false} LogOnlyGrows(p: Params, states: seq<State>, steps: seq<Step>, i: nat, j: nat)
    requires Run(p, states, steps) && i <= j < |states|
    ensures states[i].list.log <= states[j].list.log
  {
    if i < j { LogOnlyGrows(p, states, steps, i, j - 1); }
  }

  // ---------------------------------------------------------------- the two loops

  const FREESET_SIZE: nat := 2002

  function Flatten(batches: seq<seq<Addr>>): seq<Addr> {
    if batches == [] then [] else Flatten(batches[..|batches| - 1]) + batches[|batches| - 1]
  }

  lemma FlattenMore(batches: seq<seq<Addr>>, b: seq<Addr>)
    ensures Flatten(batches + [b]) == Flatten(batches) + b
  {
    assert (batches + [b])[..|batches|] == batches;
  }

  /** The loop of global_pbuf_purger: it cuts a prefix of the list, handing the cells to
      pbuf_free_many in list order and in batches that fit its array, and stops exactly
      where one of its tests fails. */
  method GlobalPbufPurger(p: Params, l0: List, lag: int, expire: int)
    returns (l: List, head: Option<Addr>, freed: seq<seq<Addr>>)
    requires p.limit >= 1 && ListInv(l0) && LagInv(l0, lag) && Floor(p, l0)
    ensures ListInv(l) && l.log == l0.log && Floor(p, l)
    ensures l0.chain == Flatten(freed) + l.chain
    ensures BatchesFit(freed, [])
    ensures head == First(l) && !MayPurge(p, l, lag, expire, head)
    ensures Base(l0) <= Base(l) && forall k :: Base(l0) <= k < Base(l) ==> Expendable(l0.log, lag, expire, k)
    ensures |l.chain| <= p.limit || !Expendable(l0.log, lag, expire, Base(l))
  {
    hide ListInv, MayPurge, LagInv, Floor, Cut, Expendable, Flatten, BatchesFit;
    l, head, freed := l0, First(l0), [];
    StartPurge(p, l0, lag);
    var freeset: seq<Addr> := [];
    while MayPurge(p, l, lag, expire, head)
      invariant CutSoFar(p, l0, l, lag, Flatten(freed) + freeset)
      invariant Base(l0) <= Base(l) && forall k :: Base(l0) <= k < Base(l) ==> Expendable(l0.log, lag, expire, k)
      invariant head == First(l) && BatchesFit(freed, freeset)
      decreases |l.chain|
    {
      ghost var cut := Flatten(freed) + freeset;
      PurgeLonger(p, l, lag, expire);
      freed, freeset := FreeLater(freed, freeset, head.value);
      MayPurgeMeans(p, l, lag, expire);
      l, head := PurgeIteration(p, l0, l, lag, expire, head.value, cut);
    }
    freed := FreeRest(freed, freeset);
    if |l.chain| > p.limit { MayPurgeMeans(p, l, lag, expire); }
  }

  /** Packet k of the history is older than the limit, and every scanned worker is past it. */
  predicate Expendable(log: seq<Visit>, lag: int, expire: int, k: int) {
    0 <= k < |log| && log[k].t < expire && lag < if SeqOf(k) == 0 then 2_000_000_000 else |log| - 1 - k
  }

  lemma StartPurge(p: Params, l: List, lag: int)
    requires ListInv(l) && LagInv(l, lag) && Floor(p, l)
    ensures CutSoFar(p, l, l, lag, Flatten([]) + []) && BatchesFit([], [])
  {
    assert [] + l.chain == l.chain;
  }

  lemma PurgeLonger(p: Params, l: List, lag: int, expire: int)
    requires ListInv(l) && MayPurge(p, l, lag, expire, First(l))
    ensures First(l).Some? && |l.chain| > p.limit
  {
  }

  lemma MayPurgeMeans(p: Params, l: List, lag: int, expire: int)
    requires p.limit >= 1 && ListInv(l) && |l.chain| > p.limit
    ensures 0 <= Base(l) < |l.log|
    ensures MayPurge(p, l, lag, expire, First(l)) <==> Expendable(l.log, lag, expire, Base(l))
  {
    assert CellInv(l, 0);
    LagIsDistance(|l.log|, Base(l));
  }

  /** The purger has cut this prefix off the list it started with. */
  ghost predicate CutSoFar(p: Params, l0: List, l: List, lag: int, cut: seq<Addr>) {
    ListInv(l) && Floor(p, l) && LagInv(l, lag) && l.log == l0.log && l0.chain == cut + l.chain
  }

  predicate BatchesFit(freed: seq<seq<Addr>>, freeset: seq<Addr>) {
    |freeset| < 2000 && forall b :: b in freed ==> 0 < |b| < FREESET_SIZE
  }

  /** A dissociated cell goes into the free set, which is flushed when it reaches 2000. */
  method FreeLater(freed0: seq<seq<Addr>>, freeset0: seq<Addr>, pb: Addr)
    returns (freed: seq<seq<Addr>>, freeset: seq<Addr>)
    requires BatchesFit(freed0, freeset0)
    ensures BatchesFit(freed, freeset)
    ensures Flatten(freed) + freeset == Flatten(freed0) + freeset0 + [pb]
  {
    freed, freeset := freed0, freeset0 + [pb];
    if |freeset| >= 2000 {
      FlattenMore(freed, freeset);
      freed, freeset := freed + [freeset], [];
    }
  }

  method FreeRest(freed0: seq<seq<Addr>>, freeset: seq<Addr>) returns (freed: seq<seq<Addr>>)
    requires BatchesFit(freed0, freeset)
    ensures BatchesFit(freed, [])
    ensures Flatten(freed) == Flatten(freed0) + freeset
  {
    freed := freed0;
    if |freeset| > 0 {
      FlattenMore(freed, freeset);
      freed := freed + [freeset];
    }
  }

  method PurgeIteration(p: Params, ghost l0: List, l1: List, lag: int, expire: int, pb: Addr, ghost cut: seq<Addr>)
    returns (l: List, next: Option<Addr>)
    requires p.limit >= 1 && CutSoFar(p, l0, l1, lag, cut) && First(l1) == Some(pb)
    requires MayPurge(p, l1, lag, expire, Some(pb))
    ensures CutSoFar(p, l0, l, lag, cut + [pb]) && next == First(l) && |l.chain| + 1 == |l1.chain|
  {
    CutKeepsList(p, l1, lag, expire);
    l, next := Cut(l1, pb), l1.mem[pb].next;
    assert l1.chain == [pb] + l.chain;
  }

  /** The loop of process_outgoing, run under the read lock: it leaves the worker with
      everything published visited and nothing more to read. */
  method ProcessOutgoing(p: Params, s0: State, w: WorkerId) returns (s: State)
    requires p.limit >= 1 && Inv(p, s0) && w in s0.workers && s0.workers[w].pc == Idle
    ensures Inv(p, s) && s.list == s0.list && w in s.workers
    ensures var v := s.workers[w];
      && v.pc == Idle && v.start == s0.workers[w].start
      && v.visited == s.list.log[v.start..] && Fetch(s, v.prevp) == None
  {
    s := s0;
    while Fetch(s, s.workers[w].prevp).Some?
      invariant Inv(p, s) && s.list == s0.list && w in s.workers && s.workers[w].pc == Idle
      invariant s.workers[w].start == s0.workers[w].start
      decreases |s.list.log| - s.workers[w].passed
    {
      s := VisitOne(p, s, w);
    }
    assert WorkerInv(s.list, s.workers[w]);
    CursorReadsNext(s, s.workers[w]);
  }

  method VisitOne(p: Params, s0: State, w: WorkerId) returns (s: State)
    requires p.limit >= 1 && Inv(p, s0) && w in s0.workers && s0.workers[w].pc == Idle
    requires Fetch(s0, s0.workers[w].prevp).Some?
    ensures Inv(p, s) && s.list == s0.list && w in s.workers && s.workers[w].pc == Idle
    ensures s.workers[w].start == s0.workers[w].start
    ensures s.workers[w].passed == s0.workers[w].passed + 1 <= |s.list.log|
  {
    InvPreserved(p, s0, ReadCursor(w));
    s := Apply(p, s0, ReadCursor(w));
    WorkerIsSafe(s, s.workers[w]);
    InvPreserved(p, s, WriteSeqnum(w));
    s := Apply(p, s, WriteSeqnum(w));
    WorkerIsSafe(s, s.workers[w]);
    InvPreserved(p, s, WriteCursor(w));
    s := Apply(p, s, WriteCursor(w));
  }
}
