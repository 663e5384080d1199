/** The reader/writer lock of src/rwlock.c: a mutex, four counters and two condition variables.
    One step is one critical section, from taking the mutex to releasing it in
    pthread_mutex_unlock or pthread_cond_wait. */
module RwLock {

  datatype Counters = Counters(rActive: int, wActive: int, rWait: int, wWait: int)

  /** What a critical section asks of the condition variables. */
  datatype Wake = Nobody | AllReaders | AWriter

  // ---------------------------------------------------------------- the critical sections

  /** The lock's fields, and its critical sections as the code performs them. */
  class Lock {
    var rActive: int
    var wActive: int
    var rWait: int
    var wWait: int

    function Value(): Counters
      reads this
    {
      Counters(rActive, wActive, rWait, wWait)
    }

    constructor ()
      ensures Value() == Counters(0, 0, 0, 0)
    {
      rActive, wActive, rWait, wWait := 0, 0, 0, 0;
    }

    /** rwl_rdlock up to its first wait. */
    method RdLock() returns (got: bool)
      modifies this
      ensures got <==> old(wActive) == 0
      ensures Value() == AfterRdLock(old(Value()))
    {
      if wActive != 0 {
        rWait := rWait + 1;
        return false;
      }
      rActive := rActive + 1;
      return true;
    }

    /** rwl_rdlock after a wait returned. */
    method RdAgain() returns (got: bool)
      modifies this
      ensures got <==> old(wActive) == 0
      ensures Value() == AfterRdAgain(old(Value()))
    {
      if wActive != 0 { return false; }
      rWait := rWait - 1;
      rActive := rActive + 1;
      return true;
    }

    method TryRdLock() returns (got: bool)
      modifies this
      ensures got <==> old(wActive) == 0
      ensures Value() == AfterTryRdLock(old(Value()))
    {
      if wActive != 0 { return false; }
      rActive := rActive + 1;
      return true;
    }

    method RdUnlock() returns (wake: Wake)
      modifies this
      ensures Value() == old(Value()).(rActive := old(rActive) - 1)
      ensures wake == OnRdUnlock(old(Value()))
    {
      rActive := rActive - 1;
      if rActive == 0 && wWait > 0 { return AWriter; }
      return Nobody;
    }

    method WrLock() returns (got: bool)
      modifies this
      ensures got <==> Free(old(Value()))
      ensures Value() == AfterWrLock(old(Value()))
    {
      if wActive != 0 || rActive > 0 {
        wWait := wWait + 1;
        return false;
      }
      wActive := 1;
      return true;
    }

    method WrAgain() returns (got: bool)
      modifies this
      ensures got <==> Free(old(Value()))
      ensures Value() == AfterWrAgain(old(Value()))
    {
      if wActive != 0 || rActive > 0 { return false; }
      wWait := wWait - 1;
      wActive := 1;
      return true;
    }

    method TryWrLock() returns (got: bool)
      modifies this
      ensures got <==> Free(old(Value()))
      ensures Value() == AfterTryWrLock(old(Value()))
    {
      if wActive != 0 || rActive > 0 { return false; }
      wActive := 1;
      return true;
    }

    method WrUnlock() returns (wake: Wake)
      modifies this
      ensures Value() == old(Value()).(wActive := 0)
      ensures wake == OnWrUnlock(old(Value()))
    {
      wActive := 0;
      if rWait > 0 { return AllReaders; }
      if wWait > 0 { return AWriter; }
      return Nobody;
    }
  }

  // The counters after each section, and whom it wakes.

  predicate Free(c: Counters) { c.wActive == 0 && c.rActive <= 0 }

  function AfterRdLock(c: Counters): Counters {
    if c.wActive == 0 then c.(rActive := c.rActive + 1) else c.(rWait := c.rWait + 1)
  }

  function AfterRdAgain(c: Counters): Counters {
    if c.wActive == 0 then c.(rActive := c.rActive + 1, rWait := c.rWait - 1) else c
  }

  function AfterTryRdLock(c: Counters): Counters { if c.wActive == 0 then c.(rActive := c.rActive + 1) else c }

  function AfterWrLock(c: Counters): Counters {
    if Free(c) then c.(wActive := 1) else c.(wWait := c.wWait + 1)
  }

  function AfterWrAgain(c: Counters): Counters {
    if Free(c) then c.(wActive := 1, wWait := c.wWait - 1) else c
  }

  function AfterTryWrLock(c: Counters): Counters { if Free(c) then c.(wActive := 1) else c }

  function OnRdUnlock(c: Counters): Wake { if c.rActive == 1 && c.wWait > 0 then AWriter else Nobody }

  function OnWrUnlock(c: Counters): Wake {
    if c.rWait > 0 then AllReaders else if c.wWait > 0 then AWriter else Nobody
  }

  // ---------------------------------------------------------------- all the threads together

  /** Where a thread is.  A signalled thread has been released from its wait and has yet to get the
      mutex back. */
  datatype Phase = Out | BlockedR | SignalledR | Reading | BlockedW | SignalledW | Writing

  datatype State = State(c: Counters, threads: seq<Phase>)

  /** woken: the waiting writers that a pthread_cond_signal releases, at least one if any waits. */
  datatype Step =
    | RdLock(t: nat) | RdAgain(t: nat) | TryRdLock(t: nat) | RdUnlock(t: nat, woken: set<nat>)
    | WrLock(t: nat) | WrAgain(t: nat) | TryWrLock(t: nat) | WrUnlock(t: nat, woken: set<nat>)
    | Spurious(t: nat)

  predicate Initial(s: State) {
    s.c == Counters(0, 0, 0, 0) && forall t :: 0 <= t < |s.threads| ==> s.threads[t] == Out
  }

  predicate Signals(threads: seq<Phase>, wake: Wake, woken: set<nat>) {
    && (forall u :: u in woken ==> u < |threads| && threads[u] == BlockedW)
    && (wake != AWriter ==> woken == {})
    && (wake == AWriter && BlockedW in threads ==> woken != {})
  }

  predicate Enabled(s: State, step: Step) {
    step.t < |s.threads| &&
    var p := s.threads[step.t];
    match step
    case RdLock(_) => p == Out
    case RdAgain(_) => p == SignalledR
    case TryRdLock(_) => p == Out
    case RdUnlock(t, woken) => p == Reading && Signals(s.threads, OnRdUnlock(s.c), woken)
    case WrLock(_) => p == Out
    case WrAgain(_) => p == SignalledW
    case TryWrLock(_) => p == Out
    case WrUnlock(t, woken) => p == Writing && Signals(s.threads, OnWrUnlock(s.c), woken)
    case Spurious(_) => p == BlockedR || p == BlockedW
  }

  function Wakened(p: Phase): Phase { if p == BlockedR then SignalledR else if p == BlockedW then SignalledW else p }

  /** The condition variables after a critical section. */
  function Released(threads: seq<Phase>, wake: Wake, woken: set<nat>): (r: seq<Phase>)
    ensures |r| == |threads|
  {
    seq(|threads|, u requires 0 <= u < |threads| =>
      if (wake == AllReaders && threads[u] == BlockedR) || u in woken then Wakened(threads[u]) else threads[u])
  }

  function Apply(s: State, step: Step): State
    requires Enabled(s, step)
  {
    var c, ts, t := s.c, s.threads, step.t;
    match step
    case RdLock(_) => State(AfterRdLock(c), ts[t := if c.wActive == 0 then Reading else BlockedR])
    case RdAgain(_) => State(AfterRdAgain(c), ts[t := if c.wActive == 0 then Reading else BlockedR])
    case TryRdLock(_) => State(AfterTryRdLock(c), ts[t := if c.wActive == 0 then Reading else Out])
    case RdUnlock(_, woken) =>
      State(c.(rActive := c.rActive - 1), Released(ts, OnRdUnlock(c), woken)[t := Out])
    case WrLock(_) => State(AfterWrLock(c), ts[t := if Free(c) then Writing else BlockedW])
    case WrAgain(_) => State(AfterWrAgain(c), ts[t := if Free(c) then Writing else BlockedW])
    case TryWrLock(_) => State(AfterTryWrLock(c), ts[t := if Free(c) then Writing else Out])
    case WrUnlock(_, woken) =>
      State(c.(wActive := 0), Released(ts, OnWrUnlock(c), woken)[t := Out])
    case Spurious(_) => State(c, ts[t := Wakened(ts[t])])
  }

  // ---------------------------------------------------------------- invariant

  /** How many threads are in a phase. */
  function Count(ts: seq<Phase>, p: Phase): nat {
    if ts == [] then 0 else (if ts[0] == p then 1 else 0) + Count(ts[1..], p)
  }

  ghost predicate Counted(c: Counters, ts: seq<Phase>) {
    && c.rActive == Count(ts, Reading) && c.wActive == Count(ts, Writing)
    && c.rWait == Count(ts, BlockedR) + Count(ts, SignalledR)
    && c.wWait == Count(ts, BlockedW) + Count(ts, SignalledW)
  }

  /** No lost wakeup. */
  ghost predicate Awake(c: Counters, ts: seq<Phase>) {
    && (Count(ts, BlockedR) > 0 ==> c.wActive > 0)
    && (Count(ts, BlockedW) > 0 ==> c.wActive > 0 || c.rActive > 0 || Count(ts, SignalledR) + Count(ts, SignalledW) > 0)
  }

  ghost predicate Inv(s: State) {
    && Counted(s.c, s.threads) && Awake(s.c, s.threads)
    && s.c.wActive <= 1 && (s.c.wActive == 1 ==> s.c.rActive == 0)
  }

  lemma {:induction false} CountUpdate(ts: seq<Phase>, t: nat, p: Phase, q: Phase)
    requires t < |ts|
    ensures Count(ts[t := q], p) == Count(ts, p) - (if ts[t] == p then 1 else 0) + (if q == p then 1 else 0)
    ensures ts[t] == p ==> Count(ts, p) > 0
  {
    if t == 0 {
      assert ts[t := q][1..] == ts[1..];
    } else {
      assert ts[t := q][1..] == ts[1..][t - 1 := q];
      CountUpdate(ts[1..], t - 1, p, q);
    }
  }

  lemma {:induction false} CountPositive(ts: seq<Phase>, p: Phase)
    ensures Count(ts, p) > 0 <==> p in ts
  {
    if ts != [] { CountPositive(ts[1..], p); assert ts == [ts[0]] + ts[1..]; }
  }

  /** Every phase count after one thread moved to q. */
  lemma CountsMoved(ts: seq<Phase>, t: nat, q: Phase)
    requires t < |ts|
    ensures forall p :: Count(ts[t := q], p) == Count(ts, p) - (if ts[t] == p then 1 else 0) + (if q == p then 1 else 0)
    ensures Count(ts, ts[t]) > 0
  {
    forall p ensures Count(ts[t := q], p) == Count(ts, p) - (if ts[t] == p then 1 else 0) + (if q == p then 1 else 0) {
      CountUpdate(ts, t, p, q);
    }
    CountUpdate(ts, t, ts[t], q);
  }

  /** Releasing waiters only moves them from blocked to signalled. */
  lemma {:induction false} ReleasedCounts(ts: seq<Phase>, rs: seq<Phase>)
    requires |rs| == |ts| && forall u :: 0 <= u < |ts| ==> rs[u] == ts[u] || rs[u] == Wakened(ts[u])
    ensures Count(rs, Reading) == Count(ts, Reading) && Count(rs, Writing) == Count(ts, Writing)
    ensures Count(rs, BlockedR) + Count(rs, SignalledR) == Count(ts, BlockedR) + Count(ts, SignalledR)
    ensures Count(rs, BlockedW) + Count(rs, SignalledW) == Count(ts, BlockedW) + Count(ts, SignalledW)
    ensures Count(rs, SignalledW) >= Count(ts, SignalledW)
  {
    if ts != [] {
      forall u | 0 <= u < |ts| - 1 ensures rs[1..][u] == ts[1..][u] || rs[1..][u] == Wakened(ts[1..][u]) {
        assert rs[1..][u] == rs[u + 1] && ts[1..][u] == ts[u + 1];
      }
      ReleasedCounts(ts[1..], rs[1..]);
    }
  }

  /** What an unlock's wakeup achieves: after a broadcast no reader stays blocked; after a signal
      some writer is released if one was blocked. */
  lemma ReleasedWakes(ts: seq<Phase>, wake: Wake, woken: set<nat>)
    requires Signals(ts, wake, woken)
    ensures var rs := Released(ts, wake, woken);
      && Count(rs, Reading) == Count(ts, Reading) && Count(rs, Writing) == Count(ts, Writing)
      && Count(rs, BlockedR) + Count(rs, SignalledR) == Count(ts, BlockedR) + Count(ts, SignalledR)
      && Count(rs, BlockedW) + Count(rs, SignalledW) == Count(ts, BlockedW) + Count(ts, SignalledW)
      && (wake == AllReaders ==> Count(rs, BlockedR) == 0)
      && (wake != AllReaders ==> Count(rs, BlockedR) == Count(ts, BlockedR))
      && (wake == AWriter && Count(ts, BlockedW) > 0 ==> Count(rs, SignalledW) > 0)
      && Count(rs, SignalledW) >= Count(ts, SignalledW)
  {
    hide Count;
    var rs := Released(ts, wake, woken);
    ReleasedCounts(ts, rs);
    CountPositive(ts, BlockedW);
    CountPositive(rs, SignalledW);
    CountPositive(rs, BlockedR);
    if wake == AWriter && BlockedW in ts {
      var u :| u in woken;
      assert rs[u] == SignalledW;
    }
    if wake != AllReaders { SameReaders(ts, rs); }
  }

  lemma {:induction false} SameReaders(ts: seq<Phase>, rs: seq<Phase>)
    requires |rs| == |ts| && forall u :: 0 <= u < |ts| ==> (rs[u] == BlockedR <==> ts[u] == BlockedR)
    ensures Count(rs, BlockedR) == Count(ts, BlockedR)
  {
    if ts != [] { SameReaders(ts[1..], rs[1..]); }
  }

  lemma UnlockKeeps(s: State, step: Step)
    requires Inv(s) && Enabled(s, step) && (step.RdUnlock? || step.WrUnlock?)
    ensures Inv(Apply(s, step))
  {
    hide Released, Signals;
    var wake := if step.RdUnlock? then OnRdUnlock(s.c) else OnWrUnlock(s.c);
    ReleasedWakes(s.threads, wake, step.woken);
    var rs := Released(s.threads, wake, step.woken);
    ReleasedSelf(s.threads, wake, step.woken, step.t);
    CountsMoved(s.threads, step.t, Out);
    CountsMoved(rs, step.t, Out);
    var e := Apply(s, step);
    assert e.threads == rs[step.t := Out];
  }

  lemma ReleasedSelf(ts: seq<Phase>, wake: Wake, woken: set<nat>, t: nat)
    requires Signals(ts, wake, woken) && t < |ts| && (ts[t] == Reading || ts[t] == Writing)
    ensures Released(ts, wake, woken)[t] == ts[t]
  {
  }

  /** Every step keeps the invariant. */
  lemma InvPreserved(s: State, step: Step)
    requires Inv(s) && Enabled(s, step)
    ensures Inv(Apply(s, step))
  {
    hide Count, Released, Signals;
    if step.RdUnlock? || step.WrUnlock? {
      UnlockKeeps(s, step);
    } else {
      CountsMoved(s.threads, step.t, Apply(s, step).threads[step.t]);
      assert s.threads[step.t := s.threads[step.t]] == s.threads;
    }
  }

  ghost predicate Run(s: State, steps: seq<Step>, e: State)
    decreases |steps|
  {
    if steps == [] then s == e else Enabled(s, steps[0]) && Run(Apply(s, steps[0]), steps[1..], e)
  }

  lemma {:induction false} InvThroughRun(s: State, steps: seq<Step>, e: State)
    requires Inv(s) && Run(s, steps, e)
    ensures Inv(e)
    decreases |steps|
  {
    if steps != [] {
      InvPreserved(s, steps[0]);
      InvThroughRun(Apply(s, steps[0]), steps[1..], e);
    }
  }

  lemma InitialInv(s: State)
    requires Initial(s)
    ensures Inv(s)
  {
    forall p | p != Out ensures Count(s.threads, p) == 0 { CountPositive(s.threads, p); }
  }

  // ---------------------------------------------------------------- results over every run

  lemma {:induction false} TwoOfAKind(ts: seq<Phase>, t: nat, u: nat)
    requires t < u < |ts| && ts[t] == ts[u]
    ensures Count(ts, ts[t]) >= 2
  {
    if t == 0 {
      CountPositive(ts[1..], ts[u]);
      assert ts[1..][u - 1] == ts[u];
    } else {
      TwoOfAKind(ts[1..], t - 1, u - 1);
    }
  }

  /** A writer never shares the lock, with a reader or with another writer. */
  lemma MutualExclusion(s: State, steps: seq<Step>, e: State, t: nat, u: nat)
    requires Initial(s) && Run(s, steps, e) && t < |e.threads| && u < |e.threads| && t != u && e.threads[t] == Writing
    ensures e.threads[u] != Reading && e.threads[u] != Writing
  {
    InitialInv(s);
    InvThroughRun(s, steps, e);
    CountPositive(e.threads, Writing);
    CountPositive(e.threads, Reading);
    if e.threads[u] == Writing { TwoOfAKind(e.threads, if t < u then t else u, if t < u then u else t); }
  }

  ghost predicate Waits(p: Phase) { p == BlockedR || p == BlockedW || p == SignalledR || p == SignalledW }

  /** The wait counters are the numbers of threads inside the wait loops, and r_active and w_active
      those of threads holding the lock. */
  lemma CountersExact(s: State, steps: seq<Step>, e: State)
    requires Initial(s) && Run(s, steps, e)
    ensures Counted(e.c, e.threads)
  {
    InitialInv(s);
    InvThroughRun(s, steps, e);
  }

  /** When nobody holds the lock and someone waits, a waiter has been released and has yet to run,
      and running it gives it the lock: no wakeup is lost. */
  lemma NoLostWakeup(s: State, steps: seq<Step>, e: State, w: nat)
    requires Initial(s) && Run(s, steps, e) && w < |e.threads| && Waits(e.threads[w])
    requires forall t :: 0 <= t < |e.threads| ==> e.threads[t] != Reading && e.threads[t] != Writing
    ensures exists t: nat :: t < |e.threads| && Acquires(e, t)
  {
    InitialInv(s);
    InvThroughRun(s, steps, e);
    CountPositive(e.threads, Reading);
    CountPositive(e.threads, Writing);
    CountPositive(e.threads, BlockedR);
    CountPositive(e.threads, BlockedW);
    CountPositive(e.threads, SignalledR);
    CountPositive(e.threads, SignalledW);
    assert SignalledR in e.threads || SignalledW in e.threads;
    var t :| 0 <= t < |e.threads| && (e.threads[t] == SignalledR || e.threads[t] == SignalledW);
    assert Acquires(e, t);
  }

  ghost predicate Acquires(e: State, t: nat)
    requires t < |e.threads|
  {
    || (e.threads[t] == SignalledR && Apply(e, RdAgain(t)).threads[t] == Reading)
    || (e.threads[t] == SignalledW && Apply(e, WrAgain(t)).threads[t] == Writing)
  }
}
