/** The position history of src/historydb.c: a table of hash chains whose cells expire, which
    refines a plain map from key to last position.  Here each operation is one step; HistoryRace
    takes up that a lookup reads the head of its chain before it has the lock. */
module HistoryDb {
  import opened Basics
  import opened KeyHash

  const HASH_MODULO: nat := 8192
  const VALIDITY_MARGIN := 300

  /** What a packet leaves behind. */
  datatype Record = Record(lat: real, coslat: real, lon: real, packettype: int, flags: int, arrivaltime: int)

  datatype Cell = Cell(key: Bytes, hash1: Word, record: Record)

  type Chain = seq<Cell>

  function Fold13(h: Word): Word { XorWord(XorWord(h, h / 0x2000), h / 0x400_0000) }

  function Bucket(key: Bytes): (i: nat)
    ensures i < HASH_MODULO
  {
    Fold13(Hash(key, 0)) % HASH_MODULO
  }

  // ---------------------------------------------------------------- the map it refines

  type Store = map<Bytes, Record>

  /** What one insertion asks for; haveCell tells whether the allocator had a cell left. */
  datatype Update = Update(key: Bytes, record: Record, isdead: bool, haveCell: bool)

  predicate Unexpired(m: Store, key: Bytes, expiry: int) { key in m && m[key].arrivaltime >= expiry }

  function Inserted(m: Store, u: Update, expiry: int): Store {
    if u.isdead then m - {u.key}
    else if u.haveCell || Unexpired(m, u.key, expiry) then m[u.key := u.record]
    else m
  }

  /** A record answers lookups until five minutes before it expires. */
  function Found(m: Store, key: Bytes, tick: int, storetime: int): Option<Record> {
    if key in m && m[key].arrivaltime > tick - storetime + VALIDITY_MARGIN then Some(m[key]) else None
  }

  // ---------------------------------------------------------------- chains

  predicate Matches(c: Cell, key: Bytes) { c.hash1 == Hash(key, 0) && c.key == key }

  function Live(chain: Chain, expiry: int): Chain {
    if chain == [] then []
    else (if chain[0].record.arrivaltime < expiry then [] else [chain[0]]) + Live(chain[1..], expiry)
  }

  /** One cell under the scan of historydb_insert. */
  function Rewritten(c: Cell, u: Update, expiry: int): Chain {
    if c.record.arrivaltime < expiry then []
    else if Matches(c, u.key) then (if u.isdead then [] else [c.(record := u.record)])
    else [c]
  }

  function Scanned(chain: Chain, u: Update, expiry: int): Chain {
    if chain == [] then [] else Rewritten(chain[0], u, expiry) + Scanned(chain[1..], u, expiry)
  }

  predicate Hit(chain: Chain, key: Bytes, expiry: int) {
    exists k :: 0 <= k < |chain| && chain[k].record.arrivaltime >= expiry && Matches(chain[k], key)
  }

  function NewCell(u: Update): Cell { Cell(u.key, Hash(u.key, 0), u.record) }

  /** A chain after historydb_insert. */
  function Updated(chain: Chain, u: Update, expiry: int): Chain {
    Scanned(chain, u, expiry)
    + if !u.isdead && u.haveCell && !Hit(chain, u.key, expiry) then [NewCell(u)] else []
  }

  function Lookup(chain: Chain, key: Bytes, validity: int): Option<Record> {
    if chain == [] then None
    else if Matches(chain[0], key) && chain[0].record.arrivaltime > validity then Some(chain[0].record)
    else Lookup(chain[1..], key, validity)
  }

  // ---------------------------------------------------------------- a chain against the map

  predicate HasKey(chain: Chain, key: Bytes) { exists k :: 0 <= k < |chain| && chain[k].key == key }

  ghost predicate Distinct(chain: Chain) { forall k, l :: 0 <= k < l < |chain| ==> chain[k].key != chain[l].key }

  /** A cell of bucket i holds the record the map has for its key. */
  ghost predicate CellOk(c: Cell, m: Store, i: nat) {
    Bucket(c.key) == i && c.hash1 == Hash(c.key, 0) && c.key in m && m[c.key] == c.record
  }

  /** Every cell is right, no key occurs twice, and only expired keys are missing. */
  ghost predicate ChainOk(chain: Chain, m: Store, i: nat, expiry: int) {
    && (forall k :: 0 <= k < |chain| ==> CellOk(chain[k], m, i))
    && Distinct(chain)
    && forall key :: Bucket(key) == i && Unexpired(m, key, expiry) ==> HasKey(chain, key)
  }

  lemma {:induction false} LiveCells(chain: Chain, expiry: int)
    ensures forall c :: c in Live(chain, expiry) <==> c in chain && c.record.arrivaltime >= expiry
    ensures Distinct(chain) ==> Distinct(Live(chain, expiry))
  {
    if chain != [] {
      LiveCells(chain[1..], expiry);
      assert chain == [chain[0]] + chain[1..];
      if Distinct(chain) { TailDistinct(chain); }
    }
  }

  lemma TailDistinct(chain: Chain)
    requires Distinct(chain) && chain != []
    ensures Distinct(chain[1..]) && forall c :: c in chain[1..] ==> c.key != chain[0].key
  {
    forall c | c in chain[1..] ensures c.key != chain[0].key {
      var k :| 0 <= k < |chain| - 1 && chain[1..][k] == c;
      assert chain[k + 1] == c;
    }
  }

  lemma InHasKey(chain: Chain, c: Cell)
    requires c in chain
    ensures HasKey(chain, c.key)
  {
  }

  lemma KeyCell(chain: Chain, key: Bytes) returns (c: Cell)
    requires HasKey(chain, key)
    ensures c in chain && c.key == key
  {
    var k :| 0 <= k < |chain| && chain[k].key == key;
    c := chain[k];
  }

  /** Dropping expired cells does not disturb the representation. */
  lemma LiveOk(chain: Chain, m: Store, i: nat, before: int, expiry: int)
    requires ChainOk(chain, m, i, before) && before <= expiry
    ensures ChainOk(Live(chain, expiry), m, i, expiry)
  {
    hide Hash, Bucket, Live;
    var live := Live(chain, expiry);
    LiveCells(chain, expiry);
    forall k | 0 <= k < |live| ensures CellOk(live[k], m, i) { assert live[k] in live; }
    forall key | Bucket(key) == i && Unexpired(m, key, expiry) ensures HasKey(live, key) {
      var c := KeyCell(chain, key);
      InHasKey(live, c);
    }
  }

  lemma {:induction false} ScannedCells(chain: Chain, u: Update, expiry: int)
    requires Distinct(chain)
    ensures Distinct(Scanned(chain, u, expiry))
    ensures forall d :: d in Scanned(chain, u, expiry) <==> exists c :: c in chain && d in Rewritten(c, u, expiry)
    ensures forall d :: d in Scanned(chain, u, expiry) ==> HasKey(chain, d.key)
  {
    hide Hash, Bucket;
    if chain != [] {
      TailDistinct(chain);
      ScannedCells(chain[1..], u, expiry);
      assert chain == [chain[0]] + chain[1..];
      var first, rest := Rewritten(chain[0], u, expiry), Scanned(chain[1..], u, expiry);
      assert forall d :: d in first ==> d.key == chain[0].key;
      forall d | d in rest ensures d.key != chain[0].key && HasKey(chain, d.key) {
        var c := KeyCell(chain[1..], d.key);
        InHasKey(chain, c);
      }
      assert forall d :: d in Scanned(chain, u, expiry) ==> d in first || d in rest;
      InHasKey(chain, chain[0]);
    }
  }

  lemma UpdatedCells(chain: Chain, m: Store, u: Update, before: int, expiry: int)
    requires ChainOk(chain, m, Bucket(u.key), before) && before <= expiry
    ensures Hit(chain, u.key, expiry) <==> Unexpired(m, u.key, expiry)
  {
    hide Hash, Bucket;
    if Unexpired(m, u.key, expiry) {
      var k :| 0 <= k < |chain| && chain[k].key == u.key;
      assert CellOk(chain[k], m, Bucket(u.key)) && Matches(chain[k], u.key);
    }
  }

  /** A scanned cell still agrees with the map. */
  lemma ScannedOk(chain: Chain, m: Store, u: Update, before: int, expiry: int, c: Cell, d: Cell)
    requires ChainOk(chain, m, Bucket(u.key), before) && before <= expiry && c in chain && d in Rewritten(c, u, expiry)
    ensures CellOk(d, Inserted(m, u, expiry), Bucket(u.key))
  {
    hide Hash, Bucket;
    assert CellOk(c, m, Bucket(u.key));
    if c.key == u.key { assert Unexpired(m, u.key, expiry); }
  }

  /** The chain after an insertion represents the map after it. */
  lemma UpdatedOk(chain: Chain, m: Store, u: Update, before: int, expiry: int)
    requires ChainOk(chain, m, Bucket(u.key), before) && before <= expiry
    ensures ChainOk(Updated(chain, u, expiry), Inserted(m, u, expiry), Bucket(u.key), expiry)
  {
    var i, m', scanned, all := Bucket(u.key), Inserted(m, u, expiry), Scanned(chain, u, expiry),
      Updated(chain, u, expiry);
    hide Hash, Bucket, Scanned;
    ScannedCells(chain, u, expiry);
    UpdatedCells(chain, m, u, before, expiry);
    forall d | d in scanned ensures CellOk(d, m', i) {
      var c :| c in chain && d in Rewritten(c, u, expiry);
      ScannedOk(chain, m, u, before, expiry, c, d);
    }
    forall k | 0 <= k < |all| ensures CellOk(all[k], m', i) { assert k < |scanned| ==> all[k] in scanned; }
    UpdatedDistinct(chain, m, u, before, expiry);
    forall key | Bucket(key) == i && Unexpired(m', key, expiry) ensures HasKey(all, key) {
      UpdatedHas(chain, m, u, before, expiry, key);
    }
  }

  lemma UpdatedDistinct(chain: Chain, m: Store, u: Update, before: int, expiry: int)
    requires ChainOk(chain, m, Bucket(u.key), before) && before <= expiry
    ensures Distinct(Updated(chain, u, expiry))
  {
    var scanned := Scanned(chain, u, expiry);
    hide Hash, Bucket, Scanned;
    ScannedCells(chain, u, expiry);
    if !Hit(chain, u.key, expiry) {
      forall d | d in scanned ensures d.key != u.key {
        var c :| c in chain && d in Rewritten(c, u, expiry);
        assert CellOk(c, m, Bucket(u.key));
      }
    }
  }

  lemma UpdatedHas(chain: Chain, m: Store, u: Update, before: int, expiry: int, key: Bytes)
    requires ChainOk(chain, m, Bucket(u.key), before) && before <= expiry
    requires Bucket(key) == Bucket(u.key) && Unexpired(Inserted(m, u, expiry), key, expiry)
    ensures HasKey(Updated(chain, u, expiry), key)
  {
    var scanned, all := Scanned(chain, u, expiry), Updated(chain, u, expiry);
    hide Hash, Bucket, Scanned;
    ScannedCells(chain, u, expiry);
    UpdatedCells(chain, m, u, before, expiry);
    if Unexpired(m, key, expiry) {
      var c := KeyCell(chain, key);
      assert CellOk(c, m, Bucket(u.key));
      var d := if key == u.key then c.(record := u.record) else c;
      assert d in Rewritten(c, u, expiry);
      assert d in scanned;
      assert d in all;
      InHasKey(all, d);
    } else {
      assert NewCell(u) in all;
      InHasKey(all, NewCell(u));
    }
  }

  /** A chain of another bucket is not affected. */
  lemma OtherOk(chain: Chain, m: Store, u: Update, i: nat, before: int, expiry: int)
    requires ChainOk(chain, m, i, before) && i != Bucket(u.key)
    ensures ChainOk(chain, Inserted(m, u, expiry), i, before)
  {
    hide Hash, Bucket;
    forall k | 0 <= k < |chain| ensures CellOk(chain[k], Inserted(m, u, expiry), i) {
      assert CellOk(chain[k], m, i);
    }
    assert forall key :: Bucket(key) == i && Unexpired(Inserted(m, u, expiry), key, before) ==>
      Unexpired(m, key, before);
  }

  lemma {:induction false} LookupFinds(chain: Chain, key: Bytes, validity: int, k: nat)
    requires Distinct(chain) && k < |chain| && Matches(chain[k], key)
    ensures Lookup(chain, key, validity) ==
            if chain[k].record.arrivaltime > validity then Some(chain[k].record) else None
  {
    hide Hash;
    if k > 0 {
      LookupFinds(chain[1..], key, validity, k - 1);
    } else {
      LookupMisses(chain[1..], key, validity);
    }
  }

  lemma {:induction false} LookupMisses(chain: Chain, key: Bytes, validity: int)
    requires forall k :: 0 <= k < |chain| ==> chain[k].key != key
    ensures Lookup(chain, key, validity) == None
  {
    if chain != [] { LookupMisses(chain[1..], key, validity); }
  }

  /** A lookup in the chain answers as the map does. */
  lemma LookupOk(chain: Chain, m: Store, key: Bytes, before: int, tick: int, storetime: int)
    requires ChainOk(chain, m, Bucket(key), before) && before <= tick - storetime
    ensures Lookup(chain, key, tick - storetime + VALIDITY_MARGIN) == Found(m, key, tick, storetime)
  {
    hide Hash, Bucket, Lookup;
    var validity := tick - storetime + VALIDITY_MARGIN;
    if HasKey(chain, key) {
      var k :| 0 <= k < |chain| && chain[k].key == key;
      assert CellOk(chain[k], m, Bucket(key));
      LookupFinds(chain, key, validity, k);
    } else {
      LookupMisses(chain, key, validity);
    }
  }

  // ---------------------------------------------------------------- the table

  type Table = t: seq<Chain> | |t| == HASH_MODULO witness seq(HASH_MODULO, _ => [])

  ghost predicate Represents(t: Table, m: Store, expiry: int) {
    forall i :: 0 <= i < HASH_MODULO ==> ChainOk(t[i], m, i, expiry)
  }

  function InsertInto(t: Table, u: Update, expiry: int): Table {
    t[Bucket(u.key) := Updated(t[Bucket(u.key)], u, expiry)]
  }

  function Clean(t: Table, expiry: int): Table {
    seq(HASH_MODULO, i requires 0 <= i < HASH_MODULO => Live(t[i], expiry))
  }

  lemma LaterOk(chain: Chain, m: Store, i: nat, before: int, expiry: int)
    requires ChainOk(chain, m, i, before) && before <= expiry
    ensures ChainOk(chain, m, i, expiry)
  {
    hide Hash, Bucket;
  }

  /** Inserting, with all the expiry it does on the way, is inserting into the map. */
  lemma InsertRefines(t: Table, m: Store, u: Update, before: int, expiry: int)
    requires Represents(t, m, before) && before <= expiry
    ensures Represents(InsertInto(t, u, expiry), Inserted(m, u, expiry), expiry)
  {
    var t', m' := InsertInto(t, u, expiry), Inserted(m, u, expiry);
    hide Bucket, ChainOk, Inserted, Updated;
    forall i | 0 <= i < HASH_MODULO ensures ChainOk(t'[i], m', i, expiry) {
      if i == Bucket(u.key) {
        UpdatedOk(t[i], m, u, before, expiry);
      } else {
        OtherOk(t[i], m, u, i, before, expiry);
        LaterOk(t[i], m', i, before, expiry);
      }
    }
  }

  /** Cleaning up changes the table and not the map. */
  lemma CleanRefines(t: Table, m: Store, before: int, expiry: int)
    requires Represents(t, m, before) && before <= expiry
    ensures Represents(Clean(t, expiry), m, expiry)
  {
    hide ChainOk, Live;
    forall i | 0 <= i < HASH_MODULO ensures ChainOk(Clean(t, expiry)[i], m, i, expiry) {
      LiveOk(t[i], m, i, before, expiry);
    }
  }

  // ---------------------------------------------------------------- runs

  datatype Op = Insert(u: Update) | Query(key: Bytes) | Cleanup

  /** An operation and the time it happens at. */
  datatype Event = Event(op: Op, tick: int)

  /** The answers a sequence of operations gets from the table. */
  function Answers(t: Table, events: seq<Event>, storetime: int): seq<Option<Record>>
    decreases |events|
  {
    if events == [] then []
    else
      var e := events[0];
      match e.op
      case Insert(u) => Answers(InsertInto(t, u, e.tick - storetime), events[1..], storetime)
      case Query(key) =>
        [Lookup(t[Bucket(key)], key, e.tick - storetime + VALIDITY_MARGIN)] + Answers(t, events[1..], storetime)
      case Cleanup => Answers(Clean(t, e.tick - storetime), events[1..], storetime)
  }

  /** The answers it gets from the map, where cleaning up means nothing. */
  function MapAnswers(m: Store, events: seq<Event>, storetime: int): seq<Option<Record>>
    decreases |events|
  {
    if events == [] then []
    else
      var e := events[0];
      match e.op
      case Insert(u) => MapAnswers(Inserted(m, u, e.tick - storetime), events[1..], storetime)
      case Query(key) => [Found(m, key, e.tick, storetime)] + MapAnswers(m, events[1..], storetime)
      case Cleanup => MapAnswers(m, events[1..], storetime)
  }

  /** The clock never goes back. */
  predicate Ordered(events: seq<Event>, now: int) {
    events == [] || (now <= events[0].tick && Ordered(events[1..], events[0].tick))
  }

  /** Over any run, the hash table and the map are indistinguishable. */
  lemma {:induction false} TableIsMap(t: Table, m: Store, events: seq<Event>, now: int, storetime: int)
    requires Represents(t, m, now - storetime) && Ordered(events, now)
    ensures Answers(t, events, storetime) == MapAnswers(m, events, storetime)
    decreases |events|
  {
    hide Bucket, Represents, InsertInto, Inserted, Clean, Lookup, Found;
    if events != [] {
      var e := events[0];
      var before, expiry := now - storetime, e.tick - storetime;
      match e.op
      case Insert(u) =>
        InsertRefines(t, m, u, before, expiry);
        TableIsMap(InsertInto(t, u, expiry), Inserted(m, u, expiry), events[1..], e.tick, storetime);
      case Query(key) =>
        QueryRefines(t, m, key, before, e.tick, storetime);
        TableIsMap(t, m, events[1..], e.tick, storetime);
      case Cleanup =>
        CleanRefines(t, m, before, expiry);
        TableIsMap(Clean(t, expiry), m, events[1..], e.tick, storetime);
    }
  }

  lemma QueryRefines(t: Table, m: Store, key: Bytes, before: int, tick: int, storetime: int)
    requires Represents(t, m, before) && before <= tick - storetime
    ensures Lookup(t[Bucket(key)], key, tick - storetime + VALIDITY_MARGIN) == Found(m, key, tick, storetime)
    ensures Represents(t, m, tick - storetime)
  {
    hide Bucket, Lookup, Found, ChainOk;
    LookupOk(t[Bucket(key)], m, key, before, tick, storetime);
    forall i | 0 <= i < HASH_MODULO ensures ChainOk(t[i], m, i, tick - storetime) {
      LaterOk(t[i], m, i, before, tick - storetime);
    }
  }

  // ---------------------------------------------------------------- the code

  lemma {:induction false} ScannedAppend(a: Chain, c: Cell, u: Update, expiry: int)
    ensures Scanned(a + [c], u, expiry) == Scanned(a, u, expiry) + Rewritten(c, u, expiry)
  {
    hide Hash;
    if a == [] {
      assert [] + [c] == [c] && Scanned([c], u, expiry) == Rewritten(c, u, expiry) + Scanned([], u, expiry);
    } else {
      assert (a + [c])[1..] == a[1..] + [c];
      ScannedAppend(a[1..], c, u, expiry);
    }
  }

  lemma {:induction false} LiveAppend(a: Chain, c: Cell, expiry: int)
    ensures Live(a + [c], expiry) == Live(a, expiry) + if c.record.arrivaltime < expiry then [] else [c]
  {
    if a == [] {
      assert [] + [c] == [c];
    } else {
      assert (a + [c])[1..] == a[1..] + [c];
      LiveAppend(a[1..], c, expiry);
    }
  }

  /** The scan of historydb_insert: kept is the chain up to hp, rest the chain from it on. */
  method ScanChain(chain: Chain, h1: Word, u: Update, expiry: int) returns (kept: Chain, found: bool)
    requires h1 == Hash(u.key, 0)
    ensures kept == Scanned(chain, u, expiry)
    ensures !u.isdead ==> (found <==> Hit(chain, u.key, expiry))
  {
    hide Hash;
    kept, found := [], false;
    for n := 0 to |chain|
      invariant kept == Scanned(chain[..n], u, expiry)
      invariant !u.isdead ==> (found <==> Hit(chain[..n], u.key, expiry))
    {
      var cp := chain[n];
      ScannedAppend(chain[..n], cp, u, expiry);
      HitAppend(chain, n, u.key, expiry);
      assert chain[..n + 1] == chain[..n] + [cp];
      if cp.record.arrivaltime < expiry { continue; }
      if cp.hash1 == h1 {
        if |cp.key| == |u.key| && cp.key == u.key {
          if u.isdead { continue; }
          cp := cp.(record := u.record);
          found := true;
        }
      }
      kept := kept + [cp];
    }
    assert chain[..|chain|] == chain;
  }

  lemma HitAppend(chain: Chain, n: nat, key: Bytes, expiry: int)
    requires n < |chain|
    ensures Hit(chain[..n + 1], key, expiry) <==>
            Hit(chain[..n], key, expiry) || (chain[n].record.arrivaltime >= expiry && Matches(chain[n], key))
  {
    hide Hash, Matches;
    var a, b := chain[..n], chain[..n + 1];
    if Hit(a, key, expiry) {
      var k :| 0 <= k < n && a[k].record.arrivaltime >= expiry && Matches(a[k], key);
      assert b[k] == a[k];
    }
    if Hit(b, key, expiry) {
      var k :| 0 <= k < n + 1 && b[k].record.arrivaltime >= expiry && Matches(b[k], key);
      if k < n { assert a[k] == b[k]; }
    }
    assert b[n] == chain[n];
  }

  method UpdateChain(chain: Chain, u: Update, expiry: int) returns (r: Chain)
    ensures r == Updated(chain, u, expiry)
  {
    var h1 := Hash(u.key, 0);
    hide Hash, Scanned, Hit;
    var kept, found := ScanChain(chain, h1, u, expiry);
    r := if !found && !u.isdead && u.haveCell then kept + [Cell(u.key, h1, u.record)] else kept;
  }

  lemma InsertIs(t: Table, u: Update, expiry: int, i: nat, chain: Chain)
    requires i == Bucket(u.key) && chain == Updated(t[i], u, expiry)
    ensures InsertInto(t, u, expiry) == t[i := chain]
  {
  }

  /** The inner loop of historydb_cleanup. */
  method CleanChain(chain: Chain, expiry: int) returns (kept: Chain)
    ensures kept == Live(chain, expiry)
  {
    kept := [];
    for n := 0 to |chain|
      invariant kept == Live(chain[..n], expiry)
    {
      LiveAppend(chain[..n], chain[n], expiry);
      assert chain[..n + 1] == chain[..n] + [chain[n]];
      if chain[n].record.arrivaltime < expiry { continue; }
      kept := kept + [chain[n]];
    }
    assert chain[..|chain|] == chain;
  }

  class History {
    const hash: array<Chain>
    const storetime: int

    ghost predicate Valid() { hash.Length == HASH_MODULO }

    constructor (storetime: int)
      ensures Valid() && fresh(hash) && hash[..] == seq(HASH_MODULO, _ => []) && this.storetime == storetime
      ensures forall expiry :: Represents(hash[..], map[], expiry)
    {
      hash := new Chain[HASH_MODULO](_ => []);
      this.storetime := storetime;
      new;
      assert hash[..] == seq(HASH_MODULO, _ => []);
    }

    method Insert(u: Update, tick: int)
      requires Valid()
      modifies hash
      ensures hash[..] == InsertInto(old(hash[..]), u, tick - storetime)
    {
      var i := Bucket(u.key);
      var chain := UpdateChain(hash[i], u, tick - storetime);
      ghost var before := hash[..];
      hide *;
      hash[i] := chain;
      assert hash[..] == before[i := chain];
      InsertIs(before, u, tick - storetime, i, chain);
    }

    method Find(key: Bytes, tick: int) returns (r: Option<Record>)
      requires Valid()
      ensures r == Lookup(hash[..][Bucket(key)], key, tick - storetime + VALIDITY_MARGIN)
    {
      var h1, chain := Hash(key, 0), hash[Bucket(key)];
      hide Hash, Bucket;
      var validity := tick - storetime + 5 * 60;
      var n := 0;
      while n < |chain| && !(chain[n].hash1 == h1 && |chain[n].key| == |key| && chain[n].key == key
                             && chain[n].record.arrivaltime > validity)
        invariant 0 <= n <= |chain|
        invariant Lookup(chain, key, validity) == Lookup(chain[n..], key, validity)
      {
        assert chain[n..][1..] == chain[n + 1..];
        n := n + 1;
      }
      r := if n == |chain| then None else Some(chain[n].record);
    }

    method Cleanup(tick: int)
      requires Valid()
      modifies hash
      ensures hash[..] == Clean(old(hash[..]), tick - storetime)
    {
      hide Live;
      for i := 0 to HASH_MODULO
        invariant forall k :: 0 <= k < HASH_MODULO ==>
          hash[k] == if k < i then Live(old(hash[k]), tick - storetime) else old(hash[k])
      {
        var kept := CleanChain(hash[i], tick - storetime);
        hash[i] := kept;
      }
    }
  }
}
