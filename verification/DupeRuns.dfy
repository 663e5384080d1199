/** What the duplicate filter promises over whole runs: any sequence of arriving packets and
    database clean-ups, with the clock never going back. */
module DupeRuns {
  import opened Basics
  import opened KeyHash
  import opened DupeDb

  /** A packet, with what storing it came to if it was no duplicate: nothing when memory was out
      at once, else the packet's own key and those of the mangled forms for which memory lasted.
      Or a clean-up of the database. */
  datatype Event =
    | Arrive(addr: Bytes, data: Bytes, tick: int, stored: Option<set<Key>>)
    | Clean(tick: int)

  predicate Monotone(es: seq<Event>) {
    forall i, j :: 0 <= i < j < |es| ==> es[i].tick <= es[j].tick
  }

  predicate Before(es: seq<Event>, tick: int) { forall i :: 0 <= i < |es| ==> es[i].tick <= tick }

  function Next(m: Store, storetime: nat, e: Event): Store {
    match e
    case Arrive(addr, data, tick, stored) =>
      if stored == None || Fresh(m, PacketKey(addr, data), tick, storetime) then m
      else Put(m, {PacketKey(addr, data)} + stored.value, tick)
    case Clean(tick) => Expire(m, tick, storetime)
  }

  /** The store after a run; the second one never forgets anything. */
  function After(storetime: nat, es: seq<Event>): Store {
    if es == [] then map[] else Next(After(storetime, es[..|es| - 1]), storetime, es[|es| - 1])
  }

  function AfterKeeping(storetime: nat, es: seq<Event>): Store {
    if es == [] then map[]
    else
      var m := AfterKeeping(storetime, es[..|es| - 1]);
      var e := es[|es| - 1];
      if e.Clean? then m else Next(m, storetime, e)
  }

  predicate Accepted(storetime: nat, es: seq<Event>, i: nat)
    requires i < |es|
  {
    && es[i].Arrive? && es[i].stored.Some?
    && !Fresh(After(storetime, es[..i]), PacketKey(es[i].addr, es[i].data), es[i].tick, storetime)
  }

  /** Two stores no later check can tell apart. */
  ghost predicate Alike(a: Store, b: Store, tick: int, storetime: nat) {
    forall k :: (k in a && a[k] >= tick - storetime) || (k in b && b[k] >= tick - storetime)
                ==> k in a && k in b && a[k] == b[k]
  }

  lemma AlikeStep(a: Store, b: Store, e: Event, tick: int, storetime: nat)
    requires Alike(a, b, tick, storetime) && tick <= e.tick
    ensures Alike(Next(a, storetime, e), if e.Clean? then b else Next(b, storetime, e), e.tick, storetime)
  {
  }

  /** Cleaning up never changes an answer: any packet checked now or later is judged as if
      nothing had ever been removed from the database, whatever could be stored on the way. */
  lemma {:induction false} CleanupUnobservable(storetime: nat, es: seq<Event>, k: Key, tick: int)
    requires Monotone(es) && Before(es, tick)
    ensures Fresh(After(storetime, es), k, tick, storetime) <==>
            Fresh(AfterKeeping(storetime, es), k, tick, storetime)
  {
    StoresAlike(storetime, es, tick);
  }

  lemma {:induction false} StoresAlike(storetime: nat, es: seq<Event>, tick: int)
    requires Monotone(es) && Before(es, tick)
    ensures Alike(After(storetime, es), AfterKeeping(storetime, es), tick, storetime)
  {
    if es != [] {
      var rest, e := es[..|es| - 1], es[|es| - 1];
      StoresAlike(storetime, rest, e.tick);
      AlikeStep(After(storetime, rest), AfterKeeping(storetime, rest), e, e.tick, storetime);
    }
  }

  function PutBy(e: Event): set<Key>
    requires e.Arrive? && e.stored.Some?
  {
    {PacketKey(e.addr, e.data)} + e.stored.value
  }

  /** Whatever an accepted packet put stays, with its time or a later one, through the
      storage window, whatever arrives or is cleaned up in between. */
  lemma {:induction false} PutStays(storetime: nat, es: seq<Event>, i: nat, n: nat, k: Key, tick: int)
    requires Monotone(es) && i < n <= |es| && Accepted(storetime, es, i) && k in PutBy(es[i])
    requires Before(es[..n], tick) && tick - es[i].tick <= storetime
    ensures var m := After(storetime, es[..n]); k in m && m[k] >= es[i].tick
  {
    hide PacketKey, Put;
    var m, e := After(storetime, es[..n - 1]), es[n - 1];
    assert es[..n][..n - 1] == es[..n - 1];
    assert After(storetime, es[..n]) == Next(m, storetime, e);
    if i < n - 1 {
      assert forall j :: 0 <= j < n - 1 ==> es[..n - 1][j] == es[..n][j];
      PutStays(storetime, es, i, n - 1, k, tick);
      assert e == es[..n][n - 1] && e.tick <= tick;
      assert es[i].tick <= e.tick;
      NextKeeps(m, storetime, e, k, es[i].tick);
    } else {
      AcceptPuts(m, storetime, e, k);
    }
  }

  lemma NextKeeps(m: Store, storetime: nat, e: Event, k: Key, t: int)
    requires k in m && m[k] >= t && t <= e.tick <= t + storetime
    ensures var m' := Next(m, storetime, e); k in m' && m'[k] >= t
  {
    hide PacketKey, Hash;
  }

  lemma AcceptPuts(m: Store, storetime: nat, e: Event, k: Key)
    requires e.Arrive? && e.stored.Some? && k in PutBy(e)
    requires !Fresh(m, PacketKey(e.addr, e.data), e.tick, storetime)
    ensures var m' := Next(m, storetime, e); k in m' && m'[k] == e.tick
  {
    hide PacketKey, Hash;
  }

  lemma SeenWithinWindow(storetime: nat, es: seq<Event>, i: nat, j: nat, k: Key)
    requires Monotone(es) && i < j < |es| && Accepted(storetime, es, i) && k in PutBy(es[i])
    requires es[j].tick - es[i].tick <= storetime
    ensures Fresh(After(storetime, es[..j]), k, es[j].tick, storetime)
  {
    PutStays(storetime, es, i, j, k, es[j].tick);
  }

  /** Two packets with the same address and payload are both accepted only if they are more
      than the storage time apart. */
  lemma AcceptedApart(storetime: nat, es: seq<Event>, i: nat, j: nat)
    requires Monotone(es) && i < j < |es|
    requires Accepted(storetime, es, i) && Accepted(storetime, es, j)
    requires es[i].addr == es[j].addr && es[i].data == es[j].data
    ensures es[j].tick - es[i].tick > storetime
  {
    if es[j].tick - es[i].tick <= storetime {
      SeenWithinWindow(storetime, es, i, j, PacketKey(es[j].addr, es[j].data));
    }
  }

  /** A mangled copy of an accepted packet, if its address does not hash to 0 and memory lasted for
      the packet's forms, is not accepted during the storage time. */
  lemma MangledCopyDropped(storetime: nat, es: seq<Event>, i: nat, j: nat)
    requires Monotone(es) && i < j < |es| && Accepted(storetime, es, i) && es[j].Arrive?
    requires |es[i].addr + es[i].data| <= PACKETLEN_MAX
    requires es[i].stored.value == MangledKeys(es[i].addr + es[i].data)
    requires es[j].addr + es[j].data in Differing(Forms(es[i].addr + es[i].data), es[i].addr + es[i].data)
    requires Hash(es[j].addr, 0) != 0
    requires es[j].tick - es[i].tick <= storetime
    ensures !Accepted(storetime, es, j)
  {
    var s := es[i].addr + es[i].data;
    CopyKeyStored(s, es[j].addr, es[j].data);
    SeenWithinWindow(storetime, es, i, j, PacketKey(es[j].addr, es[j].data));
  }

  /** Storing the mangled forms covers a copy exactly if the copy's address does not hash
      to 0: forms are hashed as a whole, packets as two areas. */
  lemma CopyKeyStored(s: Bytes, addr: Bytes, data: Bytes)
    requires |s| <= PACKETLEN_MAX && addr + data in Differing(Forms(s), s)
    ensures PacketKey(addr, data) in MangledKeys(s) <==> Hash(addr, 0) != 0
  {
    SplitHash(addr, data);
    var f := addr + data;
    assert WholeKey(f) in WholeKeys(Differing(Forms(s), s));
    if PacketKey(addr, data) in MangledKeys(s) {
      var g :| g in Differing(Forms(s), s) && WholeKey(g) == PacketKey(addr, data);
    }
  }

  // "M0TJ>G1J"
  const ZERO_HASH_ADDRESS: Bytes := [0x4D, 0x30, 0x54, 0x4A, 0x3E, 0x47, 0x31, 0x4A]

  /** Exclusive or with a byte changes only the low byte. */
  lemma {:induction false} XorLow(n: nat, q: nat, r: nat, b: nat)
    requires r < Pow2(n) && b < Pow2(n)
    ensures Xor(Pow2(n) * q + r, b) == Pow2(n) * q + Xor(r, b)
  {
    if n == 0 {
      XorZero(q);
    } else {
      var h := Pow2(n - 1);
      assert Pow2(n) == 2 * h;
      hide Xor, Pow2;
      XorLow(n - 1, q, r / 2, b / 2);
      XorLowStep(h, q, r, b);
    }
  }

  lemma XorLowStep(h: nat, q: nat, r: nat, b: nat)
    requires Xor(h * q + r / 2, b / 2) == h * q + Xor(r / 2, b / 2)
    ensures Xor(2 * h * q + r, b) == 2 * h * q + Xor(r, b)
  {
    hide Xor;
    HalfSum(h, q, r);
    var a := 2 * h * q + r;
    XorUnfold(a, b);
    XorUnfold(r, b);
    var x, y := Xor(a / 2, b / 2), Xor(r / 2, b / 2);
    assert x == h * q + y;
  }

  lemma HalfSum(h: nat, q: nat, r: nat)
    ensures (2 * h * q + r) / 2 == h * q + r / 2 && (2 * h * q + r) % 2 == r % 2
    ensures 2 * h * q == 2 * (h * q)
  {
    assert 2 * h * q == 2 * (h * q);
  }

  lemma {:induction false} XorZero(a: nat)
    ensures Xor(a, 0) == a
  {
    if a > 0 { XorZero(a / 2); }
  }

  lemma XorLowByte(q: nat, r: nat, b: Byte)
    requires r < 256
    ensures Xor(256 * q + r, b) == 256 * q + Xor(r, b)
  {
    Pow8();
    XorLow(8, q, r, b);
  }

  lemma Pow8()
    ensures Pow2(8) == 256
  {
  }

  lemma Residue(a: int, b: int, k: int)
    requires a == WORD * k + b && 0 <= b < WORD
    ensures a % WORD == b
  {
  }

  lemma MixValue(h: Word, b: Byte, k: nat, q: nat, r: nat, x: nat)
    requires h * FNV_PRIME == WORD * k + 256 * q + r && r < 256 && q < 0x100_0000
    requires Xor(r, b) == x
    ensures Mix(h, b) == 256 * q + x
  {
    Residue(h * FNV_PRIME, 256 * q + r, k);
    XorLowByte(q, r, b);
  }

  lemma Mix0()
    ensures Mix(2166136261, 77) == 84696402
  {
    assert Xor(0, 1) == 1;
    assert Xor(1, 4) == 5;
    assert Xor(7, 19) == 20;
    MixValue(2166136261, 77, 8461673, 330845, 31, 82);
  }

  lemma Mix1()
    ensures Mix(84696402, 48) == 1148643366
  {
    assert Xor(0, 0) == 0;
    assert Xor(1, 3) == 2;
    assert Xor(5, 12) == 9;
    MixValue(84696402, 48, 330853, 4486888, 22, 38);
  }

  lemma Mix2()
    ensures Mix(1148643366, 84) == 3979309958
  {
    assert Xor(3, 1) == 2;
    assert Xor(13, 5) == 8;
    assert Xor(52, 21) == 33;
    MixValue(1148643366, 84, 4486995, 15544179, 210, 134);
  }

  lemma Mix3()
    ensures Mix(3979309958, 74) == 3887258552
  {
    assert Xor(3, 1) == 2;
    assert Xor(15, 4) == 11;
    assert Xor(60, 18) == 46;
    MixValue(3979309958, 74, 15544552, 15184603, 242, 184);
  }

  lemma Mix4()
    ensures Mix(3887258552, 62) == 1989141142
  {
    assert Xor(2, 0) == 2;
    assert Xor(10, 3) == 9;
    assert Xor(42, 15) == 37;
    MixValue(3887258552, 62, 15184968, 7770082, 168, 150);
  }

  lemma Mix5()
    ensures Mix(1989141142, 71) == 981578341
  {
    assert Xor(0, 1) == 1;
    assert Xor(2, 4) == 6;
    assert Xor(8, 17) == 25;
    MixValue(1989141142, 71, 7770269, 3834290, 34, 101);
  }

  lemma Mix6()
    ensures Mix(981578341, 49) == 2133578958
  {
    assert Xor(3, 0) == 3;
    assert Xor(15, 3) == 12;
    assert Xor(63, 12) == 51;
    MixValue(981578341, 49, 3834382, 8334292, 255, 206);
  }

  lemma Mix7()
    ensures Mix(2133578958, 74) == 0
  {
    assert Xor(1, 1) == 0;
    assert Xor(4, 4) == 0;
    assert Xor(18, 18) == 0;
    MixValue(2133578958, 74, 8334493, 0, 74, 0);
  }

  lemma FoldOne(s: Bytes, i: nat, h: Word)
    requires i < |s|
    ensures Fold(s[i..], h) == Fold(s[i + 1..], Mix(h, s[i]))
  {
    assert s[i..][1..] == s[i + 1..];
  }

  lemma ZeroHashAddressExists()
    ensures Hash(ZERO_HASH_ADDRESS, 0) == 0
  {
    var s := ZERO_HASH_ADDRESS;
    Mix0(); FoldOne(s, 0, 2166136261);
    Mix1(); FoldOne(s, 1, 84696402);
    Mix2(); FoldOne(s, 2, 1148643366);
    Mix3(); FoldOne(s, 3, 3979309958);
    Mix4(); FoldOne(s, 4, 3887258552);
    Mix5(); FoldOne(s, 5, 1989141142);
    Mix6(); FoldOne(s, 6, 981578341);
    Mix7(); FoldOne(s, 7, 2133578958);
    assert s[0..] == s && s[8..] == [];
  }

  /** Such addresses exist, and for them a copy that lost a trailing space gets through. */
  lemma MangledCopyAccepted()
    ensures var a := ZERO_HASH_ADDRESS;
      var es := [Arrive(a, [0x78, 0x20], 0, Some(MangledKeys(a + [0x78, 0x20]))),
                 Arrive(a, [0x78], 0, Some(MangledKeys(a + [0x78])))];
      Accepted(30, es, 0) && Accepted(30, es, 1)
  {
    var a := ZERO_HASH_ADDRESS;
    var s, f := a + [0x78, 0x20], a + [0x78];
    var es := [Arrive(a, [0x78, 0x20], 0, Some(MangledKeys(s))), Arrive(a, [0x78], 0, Some(MangledKeys(f)))];
    ZeroHashAddressExists();
    assert s[..|s| - 1] == f;
    assert Trim(s) == Trim(f) == f;
    CopyKeyStored(s, a, [0x78]);
    assert es[..1] == [es[0]] && es[..1][..0] == [];
    assert After(30, es[..1]) == Put(map[], PutBy(es[0]), 0);
  }

  // ---------------------------------------------------------------- the table over a run

  /** What the dupecheck thread does to the database. */
  datatype Task = Check(addr: Bytes, data: Bytes, tick: int) | CleanUp(tick: int)

  /** An event as a task, leaving open what storing came to. */
  function TaskOf(e: Event): Task {
    match e
    case Arrive(addr, data, tick, _) => Check(addr, data, tick)
    case Clean(tick) => CleanUp(tick)
  }

  /** Only keys of mangled forms are stored with a packet. */
  ghost predicate Plausible(e: Event) {
    e.Arrive? && e.stored.Some? ==> e.stored.value <= MangledKeys(e.addr + e.data)
  }

  ghost predicate Follows(storetime: nat, es: seq<Event>, i: nat, v: Verdict)
    requires i < |es|
  {
    && (v == NotDupe <==> es[i].Clean? || Accepted(storetime, es, i))
    && (v == IsDupe <==> es[i].Arrive? && AlreadySeen(storetime, es, i))
  }

  ghost predicate AlreadySeen(storetime: nat, es: seq<Event>, i: nat)
    requires i < |es| && es[i].Arrive?
  {
    Fresh(After(storetime, es[..i]), PacketKey(es[i].addr, es[i].data), es[i].tick, storetime)
  }

  lemma {:induction false} FollowsPrefix(storetime: nat, es: seq<Event>, e: Event, i: nat, v: Verdict)
    requires i < |es| && Follows(storetime, es, i, v)
    ensures Follows(storetime, es + [e], i, v)
  {
    assert (es + [e])[..i] == es[..i];
  }

  lemma AfterMore(storetime: nat, es: seq<Event>, e: Event)
    ensures After(storetime, es + [e]) == Next(After(storetime, es), storetime, e)
  {
    assert (es + [e])[..|es|] == es;
  }

  function TickOf(t: Task): int { t.tick }

  /** Drives the hash table through any sequence of checks and clean-ups: its verdicts are those of
      the plain map, whatever memory there is, and with memory for all, all forms are stored. */
  method Drive(db: Db, tasks: seq<Task>) returns (verdicts: seq<Verdict>, ghost es: seq<Event>)
    requires db.Valid() && db.m == map[]
    requires forall i :: 0 <= i < |tasks| ==> db.now <= TickOf(tasks[i])
    requires forall i, j :: 0 <= i < j < |tasks| ==> TickOf(tasks[i]) <= TickOf(tasks[j])
    modifies db
    ensures db.Valid() && |verdicts| == |tasks| == |es| && db.m == After(db.storetime, es)
    ensures forall i :: 0 <= i < |es| ==> TaskOf(es[i]) == tasks[i] && Plausible(es[i])
    ensures Monotone(es)
    ensures forall i :: 0 <= i < |es| ==> Follows(db.storetime, es, i, verdicts[i])
    ensures old(db.cells) >= 9 * |tasks| ==> forall i :: 0 <= i < |es| ==> FullyStored(es[i])
  {
    hide After, Accepted, Fresh, Put, PacketKey, MangledKeys, Expire;
    verdicts, es := [], [];
    NothingYet(db.storetime);
    for n := 0 to |tasks|
      invariant db.Valid() && |verdicts| == |es| == n && db.m == After(db.storetime, es)
      invariant n < |tasks| ==> db.now <= TickOf(tasks[n])
      invariant n > 0 ==> db.now == TickOf(tasks[n - 1])
      invariant forall i :: 0 <= i < n ==> TaskOf(es[i]) == tasks[i] && Plausible(es[i])
      invariant forall i :: 0 <= i < n ==> Follows(db.storetime, es, i, verdicts[i])
      invariant old(db.cells) >= 9 * |tasks| ==>
        db.cells >= 9 * (|tasks| - n) && forall i :: 0 <= i < n ==> FullyStored(es[i])
    {
      ghost var es', vs' := es, verdicts;
      var v;
      v, es := DriveOne(db, tasks[n], es);
      verdicts := verdicts + [v];
      forall i | 0 <= i < n ensures Follows(db.storetime, es, i, verdicts[i]) {
        FollowsPrefix(db.storetime, es', es[n], i, vs'[i]);
      }
    }
    TicksOrdered(es, tasks);
  }

  lemma NothingYet(storetime: nat)
    ensures After(storetime, []) == map[]
  {
  }

  lemma TicksOrdered(es: seq<Event>, tasks: seq<Task>)
    requires |es| == |tasks| && forall i :: 0 <= i < |es| ==> TaskOf(es[i]) == tasks[i]
    requires forall i, j :: 0 <= i < j < |tasks| ==> TickOf(tasks[i]) <= TickOf(tasks[j])
    ensures Monotone(es)
  {
    forall i, j | 0 <= i < j < |es| ensures es[i].tick <= es[j].tick {
      assert es[i].tick == TickOf(tasks[i]) && es[j].tick == TickOf(tasks[j]);
    }
  }

  ghost predicate FullyStored(e: Event) {
    e.Arrive? ==> e.stored.Some? && e.stored.value == MangledKeys(e.addr + e.data)
  }

  method DriveOne(db: Db, task: Task, ghost es: seq<Event>) returns (v: Verdict, ghost es': seq<Event>)
    requires db.Valid() && db.now <= TickOf(task) && db.m == After(db.storetime, es)
    modifies db
    ensures db.Valid() && db.now == TickOf(task) && db.m == After(db.storetime, es')
    ensures |es'| == |es| + 1 && es' == es + [es'[|es|]] && TaskOf(es'[|es|]) == task && Plausible(es'[|es|])
    ensures Follows(db.storetime, es', |es|, v)
    ensures old(db.cells) >= 9 ==> FullyStored(es'[|es|])
    ensures db.cells >= old(db.cells) - 9
  {
    hide After, Fresh, Put, PacketKey, MangledKeys, Expire;
    ghost var e: Event;
    match task {
      case Check(addr, data, tick) =>
        ghost var stored;
        v, stored := db.Dupecheck(addr, data, tick);
        e := Arrive(addr, data, tick, if v == AllocError then None
                                      else if v == IsDupe then Some(MangledKeys(addr + data)) else Some(stored));
      case CleanUp(tick) =>
        v := NotDupe;
        db.Cleanup(tick);
        e := Clean(tick);
    }
    AfterMore(db.storetime, es, e);
    es' := es + [e];
    assert es'[..|es|] == es;
  }

  /** On the table itself: two packets with the same address and payload both get through only if
      they are more than the storage time apart. */
  method DriveApart(db: Db, tasks: seq<Task>) returns (verdicts: seq<Verdict>)
    requires db.Valid() && db.m == map[]
    requires forall i :: 0 <= i < |tasks| ==> db.now <= TickOf(tasks[i])
    requires forall i, j :: 0 <= i < j < |tasks| ==> TickOf(tasks[i]) <= TickOf(tasks[j])
    modifies db
    ensures |verdicts| == |tasks|
    ensures forall i, j ::
      0 <= i < j < |tasks| && SamePacket(tasks[i], tasks[j]) && verdicts[i] == verdicts[j] == NotDupe ==>
        TickOf(tasks[j]) - TickOf(tasks[i]) > db.storetime
  {
    hide After, Accepted, Fresh, PacketKey;
    ghost var es;
    verdicts, es := Drive(db, tasks);
    forall i, j | 0 <= i < j < |tasks| && SamePacket(tasks[i], tasks[j]) && verdicts[i] == verdicts[j] == NotDupe
      ensures TickOf(tasks[j]) - TickOf(tasks[i]) > db.storetime
    {
      assert TaskOf(es[i]) == tasks[i] && TaskOf(es[j]) == tasks[j];
      assert Follows(db.storetime, es, i, verdicts[i]) && Follows(db.storetime, es, j, verdicts[j]);
      AcceptedApart(db.storetime, es, i, j);
    }
  }

  predicate SamePacket(a: Task, b: Task) { a.Check? && b.Check? && a.addr == b.addr && a.data == b.data }
}
