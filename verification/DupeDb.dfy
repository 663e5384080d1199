/** The duplicate database of src/dupecheck.c: a table of hash chains whose records expire,
    and the mangled variants that are stored along with every accepted packet. */
module DupeDb {
  import opened Basics
  import opened KeyHash

  const DB_SIZE: nat := 8192

  // ---------------------------------------------------------------- mangled forms

  predicate High(b: Byte) { b >= 0x80 }
  predicate Low(b: Byte) { 0 < b < 0x20 }
  predicate Del(b: Byte) { b == 0x7F }

  function Strip(s: Bytes, bad: Byte -> bool): Bytes {
    if s == [] then []
    else
      var k := |s| - 1;
      Strip(s[..k], bad) + (if bad(s[k]) then [] else [s[k]])
  }

  function Subst(s: Bytes, bad: Byte -> bool, good: Byte -> Byte): Bytes {
    seq(|s|, i requires 0 <= i < |s| => if bad(s[i]) then good(s[i]) else s[i])
  }

  function Space(b: Byte): Byte { 0x20 }
  function Clear8(b: Byte): Byte { b % 128 }

  function Trim(s: Bytes): Bytes {
    if s != [] && s[|s| - 1] == 0x20 then Trim(s[..|s| - 1]) else s
  }

  function HighForms(s: Bytes): set<Bytes> {
    {Strip(s, High), Subst(s, High, Clear8), Subst(s, High, Space)}
  }
  function LowForms(s: Bytes): set<Bytes> { {Strip(s, Low), Subst(s, Low, Space)} }
  function DelForms(s: Bytes): set<Bytes> { {Strip(s, Del), Subst(s, Del, Space)} }

  /** The eight ways in which packets are known to be mangled on the way. */
  function Forms(s: Bytes): set<Bytes> { {Trim(s)} + HighForms(s) + LowForms(s) + DelForms(s) }

  function Differing(fs: set<Bytes>, s: Bytes): set<Bytes> { set f | f in fs && f != s }

  predicate Occurs(s: Bytes, bad: Byte -> bool) { exists i :: 0 <= i < |s| && bad(s[i]) }

  lemma {:induction false} StripShortens(s: Bytes, bad: Byte -> bool)
    ensures |Strip(s, bad)| <= |s|
    ensures |Strip(s, bad)| == |s| <==> !Occurs(s, bad)
    ensures !Occurs(s, bad) ==> Strip(s, bad) == s
  {
    hide Occurs;
    if s == [] {
      OccursNone(bad);
    } else {
      var k := |s| - 1;
      StripShortens(s[..k], bad);
      OccursMore(s, k, bad);
      assert s == s[..k] + [s[k]] && s[..k + 1] == s;
    }
  }

  lemma OccursNone(bad: Byte -> bool)
    ensures !Occurs([], bad)
  {
  }

  lemma SubstDiffers(s: Bytes, bad: Byte -> bool, good: Byte -> Byte)
    requires forall b :: bad(b) ==> good(b) != b
    ensures Subst(s, bad, good) != s <==> Occurs(s, bad)
  {
    if Occurs(s, bad) {
      var i :| 0 <= i < |s| && bad(s[i]);
      assert Subst(s, bad, good)[i] != s[i];
    }
  }

  lemma {:induction false} TrimShortens(s: Bytes)
    ensures Trim(s) <= s
  {
    if s != [] && s[|s| - 1] == 0x20 { TrimShortens(s[..|s| - 1]); }
  }

  /** The bytes outside lo..hi. */
  function Without(s: Bytes, lo: int, hi: int): Bytes {
    if s == [] then [] else (if lo <= s[0] <= hi then [] else [s[0]]) + Without(s[1..], lo, hi)
  }

  /** t has the same bytes, but x where s has one in lo..hi. */
  predicate Replaced(s: Bytes, lo: int, hi: int, x: Byte, t: Bytes) {
    |t| == |s| && forall i :: 0 <= i < |s| ==> t[i] == if lo <= s[i] <= hi then x else s[i]
  }

  lemma {:induction false} WithoutLast(s: Bytes, b: Byte, lo: int, hi: int)
    ensures Without(s + [b], lo, hi) == Without(s, lo, hi) + if lo <= b <= hi then [] else [b]
  {
    hide Without;
    WithoutStep(s, lo, hi);
    WithoutStep(s + [b], lo, hi);
    if s == [] {
      assert (s + [b])[1..] == [];
      WithoutStep([], lo, hi);
    } else {
      assert (s + [b])[1..] == s[1..] + [b];
      WithoutLast(s[1..], b, lo, hi);
    }
  }

  lemma WithoutStep(s: Bytes, lo: int, hi: int)
    ensures Without(s, lo, hi) ==
            if s == [] then []
            else if lo <= s[0] <= hi then Without(s[1..], lo, hi) else [s[0]] + Without(s[1..], lo, hi)
  {
    if s != [] && lo <= s[0] <= hi { assert [] + Without(s[1..], lo, hi) == Without(s[1..], lo, hi); }
  }

  lemma {:induction false} StripIs(s: Bytes, bad: Byte -> bool, lo: int, hi: int)
    requires forall b: Byte :: bad(b) <==> lo <= b <= hi
    ensures Strip(s, bad) == Without(s, lo, hi)
  {
    if s != [] {
      var k := |s| - 1;
      StripIs(s[..k], bad, lo, hi);
      WithoutLast(s[..k], s[k], lo, hi);
      assert s == s[..k] + [s[k]];
    }
  }

  lemma {:induction false} TrimIs(s: Bytes, t: Bytes, n: nat)
    requires s == t + Spaces(n) && (t != [] ==> t[|t| - 1] != 0x20)
    ensures Trim(s) == t
    decreases n
  {
    if n == 0 {
      assert s == t;
    } else {
      assert s[..|s| - 1] == t + Spaces(n - 1);
      TrimIs(s[..|s| - 1], t, n - 1);
    }
  }

  /** A copy that a station on the way has mangled in one of eight ways: it lost the bytes with the top
      bit set, their top bit, or has spaces for them; it lost control characters or has spaces for
      them; the same with DEL; or it lost its trailing spaces. */
  ghost predicate Mangled(s: Bytes, t: Bytes) {
    || t == Without(s, 0x80, 0xFF) || t == Without(s, 0x01, 0x1F) || t == Without(s, 0x7F, 0x7F)
    || Replaced(s, 0x80, 0xFF, 0x20, t) || Replaced(s, 0x01, 0x1F, 0x20, t) || Replaced(s, 0x7F, 0x7F, 0x20, t)
    || (|t| == |s| && forall i :: 0 <= i < |s| ==> t[i] == if s[i] >= 0x80 then s[i] - 0x80 else s[i])
    || ((t != [] ==> t[|t| - 1] != 0x20) && exists n: nat :: s == t + Spaces(n))
  }

  function Spaces(n: nat): Bytes { seq(n, _ => 0x20) }

  lemma {:induction false} TrimSplits(s: Bytes)
    ensures var t := Trim(s);
      |t| <= |s| && s == t + Spaces(|s| - |t|) && (t != [] ==> t[|t| - 1] != 0x20)
  {
    if s != [] && s[|s| - 1] == 0x20 {
      var k := |s| - 1;
      TrimSplits(s[..k]);
      var t := Trim(s[..k]);
      assert s == s[..k] + [0x20] && Spaces(k - |t|) + [0x20] == Spaces(|s| - |t|);
    }
  }

  /** The forms that are stored are exactly these. */
  lemma FormsExact(s: Bytes, t: Bytes)
    ensures t in Forms(s) <==> Mangled(s, t)
  {
    hide Trim, Strip, Without;
    StripIs(s, High, 0x80, 0xFF);
    StripIs(s, Low, 0x01, 0x1F);
    StripIs(s, Del, 0x7F, 0x7F);
    SubstIs(s, t);
    TrimExact(s, t);
  }

  lemma SubstAt(s: Bytes, bad: Byte -> bool, good: Byte -> Byte, t: Bytes)
    ensures t == Subst(s, bad, good) <==>
            |t| == |s| && forall i :: 0 <= i < |s| ==> t[i] == if bad(s[i]) then good(s[i]) else s[i]
  {
    var u := Subst(s, bad, good);
    assert forall i :: 0 <= i < |s| ==> u[i] == if bad(s[i]) then good(s[i]) else s[i];
  }

  lemma SubstIs(s: Bytes, t: Bytes)
    ensures t == Subst(s, High, Space) <==> Replaced(s, 0x80, 0xFF, 0x20, t)
    ensures t == Subst(s, Low, Space) <==> Replaced(s, 0x01, 0x1F, 0x20, t)
    ensures t == Subst(s, Del, Space) <==> Replaced(s, 0x7F, 0x7F, 0x20, t)
    ensures t == Subst(s, High, Clear8) <==>
            |t| == |s| && forall i :: 0 <= i < |s| ==> t[i] == if s[i] >= 0x80 then s[i] - 0x80 else s[i]
  {
    hide Subst;
    SubstAt(s, High, Space, t);
    SubstAt(s, Low, Space, t);
    SubstAt(s, Del, Space, t);
    SubstAt(s, High, Clear8, t);
    assert forall b: Byte :: High(b) ==> Clear8(b) == b - 0x80;
  }

  lemma TrimExact(s: Bytes, t: Bytes)
    ensures t == Trim(s) <==> (t != [] ==> t[|t| - 1] != 0x20) && exists n: nat :: s == t + Spaces(n)
  {
    hide Trim, Spaces;
    TrimSplits(s);
    if (t != [] ==> t[|t| - 1] != 0x20) && exists n: nat :: s == t + Spaces(n) {
      var n: nat :| s == t + Spaces(n);
      TrimIs(s, t, n);
    }
  }

  // A form differs from the packet exactly if the packet has a byte of its kind.

  lemma DifferingHigh(s: Bytes)
    ensures Differing(HighForms(s), s) == if Occurs(s, High) then HighForms(s) else {}
  {
    StripShortens(s, High);
    SubstDiffers(s, High, Clear8);
    SubstDiffers(s, High, Space);
  }

  lemma DifferingPair(s: Bytes, bad: Byte -> bool)
    requires forall b :: bad(b) ==> b != 0x20
    ensures Differing({Strip(s, bad), Subst(s, bad, Space)}, s)
            == if Occurs(s, bad) then {Strip(s, bad), Subst(s, bad, Space)} else {}
  {
    StripShortens(s, bad);
    SubstDiffers(s, bad, Space);
  }

  lemma DifferingTrim(s: Bytes)
    ensures Differing({Trim(s)}, s) == if |Trim(s)| != |s| then {Trim(s)} else {}
  {
    TrimShortens(s);
  }

  lemma DifferingUnion(a: set<Bytes>, b: set<Bytes>, c: set<Bytes>, d: set<Bytes>, s: Bytes)
    ensures Differing(a + b + c + d, s) == Differing(a, s) + Differing(b, s) + Differing(c, s) + Differing(d, s)
  {
  }

  // ---------------------------------------------------------------- the plain map it refines

  /** What a record is compared by: the stored hash and the bytes. */
  datatype Key = Key(hash: Word, packet: Bytes)

  /** The key of a packet: address and payload are hashed as two areas. */
  function PacketKey(addr: Bytes, data: Bytes): Key { Key(Hash(data, Hash(addr, 0)), addr + data) }

  /** The key of a byte string stored as a whole. */
  function WholeKey(s: Bytes): Key { Key(Hash(s, 0), s) }

  type Store = map<Key, int>

  predicate Fresh(m: Store, k: Key, tick: int, storetime: int) {
    k in m && m[k] >= tick - storetime
  }

  function Put(m: Store, ks: set<Key>, tick: int): Store {
    map k | k in m.Keys + ks :: if k in ks then tick else m[k]
  }

  function WholeKeys(fs: set<Bytes>): set<Key> { set f | f in fs :: WholeKey(f) }

  function MangledKeys(s: Bytes): set<Key> {
    if |s| > PACKETLEN_MAX then {} else WholeKeys(Differing(Forms(s), s))
  }

  function Expire(m: Store, tick: int, storetime: int): Store {
    map k | k in m && m[k] >= tick - storetime :: m[k]
  }

  // ---------------------------------------------------------------- the table

  datatype Rec = Rec(hash: Word, t: int, dtype: int, packet: Bytes)
  type Chain = seq<Rec>

  function KeyOf(r: Rec): Key { Key(r.hash, r.packet) }

  /** The bucket of a hash: its bits folded onto the table size. */
  function Bucket(hash: Word): (i: nat)
    ensures i < DB_SIZE
  {
    var x := XorWord(hash, hash / 0x2000);
    XorWord(x, x / 0x400_0000) % DB_SIZE
  }

  /** Every record sits in its bucket and is no newer than its key's time ... */
  ghost predicate Placed(m: Store, i: int, r: Rec) {
    Bucket(r.hash) == i && KeyOf(r) in m && r.t <= m[KeyOf(r)]
  }

  ghost predicate Bounded(db: seq<Chain>, m: Store) {
    && |db| == DB_SIZE
    && forall i, r :: 0 <= i < DB_SIZE && r in db[i] ==> Placed(m, i, r)
  }

  ghost predicate HasRecord(c: Chain, k: Key, t: int) {
    exists r :: r in c && KeyOf(r) == k && r.t == t
  }

  /** ... and every key has a record with its time; older records of it may linger. */
  ghost predicate Attained(db: seq<Chain>, m: Store)
    requires |db| == DB_SIZE
  {
    forall k :: k in m ==> HasRecord(db[Bucket(k.hash)], k, m[k])
  }

  ghost predicate Represents(db: seq<Chain>, m: Store) { Bounded(db, m) && Attained(db, m) }

  function RemoveOld(c: Chain, lo: int, hi: int): Chain {
    if c == [] then []
    else
      var k := |c| - 1;
      RemoveOld(c[..k], lo, hi) + (if c[k].t < lo || c[k].t > hi then [] else [c[k]])
  }

  lemma {:induction false} RemoveOldKeeps(c: Chain, lo: int, hi: int, r: Rec)
    ensures r in RemoveOld(c, lo, hi) <==> r in c && lo <= r.t <= hi
  {
    if c != [] {
      RemoveOldKeeps(c[..|c| - 1], lo, hi, r);
      assert c == c[..|c| - 1] + [c[|c| - 1]];
    }
  }

  /** Adding a record with the current time, or refreshing one, puts its key. */
  lemma PutRecord(db: seq<Chain>, m: Store, b: nat, c: Chain, k: Key, tick: int)
    requires Represents(db, m) && b == Bucket(k.hash)
    requires forall x :: x in m ==> m[x] <= tick
    requires HasRecord(c, k, tick)
    requires forall r :: r in c ==> r in db[b] || (KeyOf(r) == k && r.t == tick)
    requires forall r :: r in db[b] && KeyOf(r) != k ==> r in c
    ensures Represents(db[b := c], Put(m, {k}, tick))
  {
    var db', m' := db[b := c], Put(m, {k}, tick);
    forall i: int, r: Rec | 0 <= i < DB_SIZE && r in db'[i]
      ensures Placed(m', i, r)
    {
      if i != b || r in db[b] { assert r in db[i]; }
    }
    forall x | x in m' ensures HasRecord(db'[Bucket(x.hash)], x, m'[x]) {
      if x != k {
        assert HasRecord(db[Bucket(x.hash)], x, m[x]);
        var r :| r in db[Bucket(x.hash)] && KeyOf(r) == x && r.t == m[x];
        assert r in db'[Bucket(x.hash)];
      }
    }
  }

  lemma CleanedRecord(db: seq<Chain>, m: Store, i: nat, r: Rec, tick: int, storetime: nat)
    requires Bounded(db, m) && i < DB_SIZE
    requires r in RemoveOld(db[i], tick - storetime, tick + storetime)
    ensures Placed(Expire(m, tick, storetime), i, r)
  {
    RemoveOldKeeps(db[i], tick - storetime, tick + storetime, r);
    assert Placed(m, i, r);
  }

  lemma KeptKey(db: seq<Chain>, m: Store, k: Key, tick: int, storetime: nat)
    requires |db| == DB_SIZE && Attained(db, m) && k in Expire(m, tick, storetime) && m[k] <= tick
    ensures HasRecord(RemoveOld(db[Bucket(k.hash)], tick - storetime, tick + storetime), k, m[k])
  {
    var b := Bucket(k.hash);
    assert HasRecord(db[b], k, m[k]);
    var r :| r in db[b] && KeyOf(r) == k && r.t == m[k];
    RemoveOldKeeps(db[b], tick - storetime, tick + storetime, r);
  }

  function CleanTable(db: seq<Chain>, lo: int, hi: int): seq<Chain> {
    seq(|db|, i requires 0 <= i < |db| => RemoveOld(db[i], lo, hi))
  }

  lemma CleanBuckets(db: seq<Chain>, m: Store, tick: int, storetime: nat)
    requires Represents(db, m)
    requires forall x :: x in m ==> m[x] <= tick
    ensures Represents(CleanTable(db, tick - storetime, tick + storetime), Expire(m, tick, storetime))
  {
    var m' := Expire(m, tick, storetime);
    var db' := CleanTable(db, tick - storetime, tick + storetime);
    forall i: int, r: Rec | 0 <= i < DB_SIZE && r in db'[i] ensures Placed(m', i, r) {
      CleanedRecord(db, m, i, r, tick, storetime);
    }
    forall x | x in m' ensures HasRecord(db'[Bucket(x.hash)], x, m'[x]) {
      KeptKey(db, m, x, tick, storetime);
    }
  }

  /** Refreshing one record of a key. */
  lemma RefreshRecord(db: seq<Chain>, m: Store, b: nat, j: nat, k: Key, tick: int)
    requires Represents(db, m) && b == Bucket(k.hash) && j < |db[b]| && KeyOf(db[b][j]) == k
    requires forall x :: x in m ==> m[x] <= tick
    ensures k in m
    ensures Represents(db[b := db[b][j := db[b][j].(t := tick)]], Put(m, {k}, tick))
  {
    var chain := db[b];
    var c := chain[j := chain[j].(t := tick)];
    assert chain[j] in db[b];
    assert c[j] in c && KeyOf(c[j]) == k && c[j].t == tick;
    forall r | r in chain && KeyOf(r) != k ensures r in c {
      var i :| 0 <= i < |chain| && chain[i] == r;
      assert c[i] == r;
    }
    PutRecord(db, m, b, c, k, tick);
  }

  /** Appending a record at the tail of its chain. */
  lemma AppendRecord(db: seq<Chain>, m: Store, dp: Rec)
    requires Represents(db, m)
    requires forall x :: x in m ==> m[x] <= dp.t
    ensures var b := Bucket(dp.hash);
      Represents(db[b := db[b] + [dp]], Put(m, {KeyOf(dp)}, dp.t))
  {
    var b := Bucket(dp.hash);
    assert dp in db[b] + [dp];
    PutRecord(db, m, b, db[b] + [dp], KeyOf(dp), dp.t);
  }

  lemma PutPut(m: Store, a: set<Key>, b: set<Key>, tick: int)
    ensures Put(Put(m, a, tick), b, tick) == Put(m, a + b, tick)
  {
  }

  lemma ExpireTimes(m: Store, tick: int, storetime: int)
    requires forall k :: k in m ==> m[k] <= tick
    ensures forall k :: k in Expire(m, tick, storetime) ==> Expire(m, tick, storetime)[k] <= tick
  {
  }

  lemma PutTimes(m: Store, ks: set<Key>, tick: int)
    requires forall k :: k in m ==> m[k] <= tick
    ensures forall k :: k in Put(m, ks, tick) ==> Put(m, ks, tick)[k] <= tick
  {
  }

  lemma BucketBound(db: seq<Chain>, m: Store, hash: Word)
    requires Represents(db, m)
    ensures 0 <= Bucket(hash) < |db|
  {
    hide XorWord;
  }

  lemma NotStored(db: seq<Chain>, m: Store, idx: nat, k: Key)
    requires Represents(db, m) && idx == Bucket(k.hash) && forall r :: r in db[idx] ==> KeyOf(r) != k
    ensures k !in m
  {
    hide Bucket;
    assert forall x :: x in m && Bucket(x.hash) == idx ==> HasRecord(db[idx], x, m[x]);
  }

  // ---------------------------------------------------------------- the code

  datatype Verdict = NotDupe | IsDupe | AllocError

  /** The inner loop of dupecheck_cleanup. */
  method CleanChain(chain: Chain, expiretime: int, futuretime: int) returns (kept: Chain, dropped: nat)
    ensures kept == RemoveOld(chain, expiretime, futuretime) && |kept| + dropped == |chain|
  {
    kept, dropped := [], 0;
    for j := 0 to |chain|
      invariant kept == RemoveOld(chain[..j], expiretime, futuretime) && |kept| + dropped == j
    {
      assert chain[..j + 1][..j] == chain[..j];
      if chain[j].t < expiretime || chain[j].t > futuretime {
        dropped := dropped + 1;
      } else {
        kept := kept + [chain[j]];
      }
    }
    assert chain[..|chain|] == chain;
  }

  method CleanAll(db: seq<Chain>, expiretime: int, futuretime: int) returns (table: seq<Chain>, dropped: nat)
    ensures table == CleanTable(db, expiretime, futuretime)
  {
    table, dropped := db, 0;
    for i := 0 to |db|
      invariant |table| == |db|
      invariant forall j :: 0 <= j < i ==> table[j] == RemoveOld(db[j], expiretime, futuretime)
      invariant forall j :: i <= j < |db| ==> table[j] == db[j]
    {
      var chain, n := CleanChain(table[i], expiretime, futuretime);
      table, dropped := table[i := chain], dropped + n;
    }
  }

  /** The first record of these bytes in a chain, or its length. */
  method FindRecord(chain: Chain, hash: Word, s: Bytes) returns (j: nat)
    ensures j <= |chain|
    ensures j < |chain| ==> KeyOf(chain[j]) == Key(hash, s)
    ensures j == |chain| ==> forall r :: r in chain ==> KeyOf(r) != Key(hash, s)
  {
    j := 0;
    while j < |chain|
      invariant j <= |chain|
      invariant forall i :: 0 <= i < j ==> KeyOf(chain[i]) != Key(hash, s)
    {
      if chain[j].hash == hash && |chain[j].packet| == |s| && chain[j].packet == s { return; }
      j := j + 1;
    }
  }

  method TrimSpaces(s: Bytes) returns (n: nat)
    ensures n <= |s| && s[..n] == Trim(s)
  {
    n := |s|;
    assert s[..n] == s;
    while n > 0 && s[n - 1] == 0x20
      invariant n <= |s| && Trim(s[..n]) == Trim(s)
    {
      assert s[..n][..n - 1] == s[..n - 1];
      n := n - 1;
    }
  }

  /** The initial scan: three forms at once, and whether further scans are needed. */
  method ScanHigh(s: Bytes) returns (tb1: Bytes, tb2: Bytes, tb3: Bytes, haveDel: bool, haveLow: bool)
    ensures tb1 == Strip(s, High) && tb2 == Subst(s, High, Clear8) && tb3 == Subst(s, High, Space)
    ensures haveDel == Occurs(s, Del) && haveLow == Occurs(s, Low)
  {
    tb1, tb2, tb3, haveDel, haveLow := [], [], [], false, false;
    hide Strip, Subst, Occurs;
    ScanNone(s);
    for i := 0 to |s|
      invariant tb1 == Strip(s[..i], High) && tb2 == Subst(s[..i], High, Clear8)
      invariant tb3 == Subst(s[..i], High, Space)
      invariant haveDel == Occurs(s[..i], Del) && haveLow == Occurs(s[..i], Low)
    {
      StripMore(s, i, High);
      SubstMore(s, i, High, Clear8);
      SubstMore(s, i, High, Space);
      OccursMore(s, i, Del);
      OccursMore(s, i, Low);
      var c := s[i];
      if c == 0x7F { haveDel := true; }
      if c < 0x20 && c > 0 { haveLow := true; }
      c := c % 128;
      tb2 := tb2 + [c];
      if s[i] != c {
        tb3 := tb3 + [0x20];
      } else {
        tb1, tb3 := tb1 + [c], tb3 + [c];
      }
    }
    assert s[..|s|] == s;
  }

  lemma ScanNone(s: Bytes)
    ensures Strip(s[..0], High) == [] && Subst(s[..0], High, Clear8) == [] && Subst(s[..0], High, Space) == []
    ensures !Occurs(s[..0], Del) && !Occurs(s[..0], Low)
  {
  }

  lemma StripMore(s: Bytes, i: nat, bad: Byte -> bool)
    requires i < |s|
    ensures Strip(s[..i + 1], bad) == Strip(s[..i], bad) + if bad(s[i]) then [] else [s[i]]
  {
    assert s[..i + 1][..i] == s[..i];
  }

  lemma SubstMore(s: Bytes, i: nat, bad: Byte -> bool, good: Byte -> Byte)
    requires i < |s|
    ensures Subst(s[..i + 1], bad, good) == Subst(s[..i], bad, good) + [if bad(s[i]) then good(s[i]) else s[i]]
  {
  }

  lemma OccursMore(s: Bytes, i: nat, bad: Byte -> bool)
    requires i < |s|
    ensures Occurs(s[..i + 1], bad) <==> Occurs(s[..i], bad) || bad(s[i])
  {
    if Occurs(s[..i], bad) { var j :| 0 <= j < i && bad(s[..i][j]); assert bad(s[..i + 1][j]); }
    if bad(s[i]) { assert bad(s[..i + 1][i]); }
    if Occurs(s[..i + 1], bad) && !bad(s[i]) {
      var j :| 0 <= j < i + 1 && bad(s[..i + 1][j]);
      assert bad(s[..i][j]);
    }
  }

  /** The scans for low bytes and for DEL have the same shape. */
  method ScanFor(s: Bytes, bad: Byte -> bool) returns (tb1: Bytes, tb2: Bytes)
    ensures tb1 == Strip(s, bad) && tb2 == Subst(s, bad, Space)
  {
    tb1, tb2 := [], [];
    for i := 0 to |s|
      invariant tb1 == Strip(s[..i], bad) && tb2 == Subst(s[..i], bad, Space)
    {
      assert s[..i + 1][..i] == s[..i];
      if bad(s[i]) {
        tb2 := tb2 + [0x20];
      } else {
        tb1, tb2 := tb1 + [s[i]], tb2 + [s[i]];
      }
    }
    assert s[..|s|] == s;
  }

  datatype Form = Form(text: Bytes, dtype: int)

  function Texts(fs: seq<Form>): set<Bytes> { set f | f in fs :: f.text }

  method HighFormsOf(s: Bytes) returns (fs: seq<Form>, haveDel: bool, haveLow: bool)
    ensures Texts(fs) == Differing(HighForms(s), s) && |fs| <= 3
    ensures haveDel == Occurs(s, Del) && haveLow == Occurs(s, Low)
  {
    DifferingHigh(s);
    StripShortens(s, High);
    var tb1, tb2, tb3;
    tb1, tb2, tb3, haveDel, haveLow := ScanHigh(s);
    fs := [];
    if |tb1| != |s| {
      fs := [Form(tb1, 2), Form(tb2, 3), Form(tb3, 4)];
      assert fs[0] in fs && fs[1] in fs && fs[2] in fs;
    }
  }

  method FormsFor(s: Bytes, bad: Byte -> bool, have: bool, dtype: int) returns (fs: seq<Form>)
    requires have == Occurs(s, bad) && forall b :: bad(b) ==> b != 0x20
    ensures Texts(fs) == Differing({Strip(s, bad), Subst(s, bad, Space)}, s)
    ensures |fs| <= 2
  {
    DifferingPair(s, bad);
    fs := [];
    if have {
      StripShortens(s, bad);
      var tb1, tb2 := ScanFor(s, bad);
      if |tb1| != |s| {
        fs := [Form(tb1, dtype), Form(tb2, dtype + 1)];
        assert fs[0] in fs && fs[1] in fs;
      }
    }
  }

  lemma TextsConcat(a: seq<Form>, b: seq<Form>)
    ensures Texts(a + b) == Texts(a) + Texts(b)
  {
    forall x | x in Texts(a) + Texts(b) ensures x in Texts(a + b) {
      var f :| (f in a || f in b) && f.text == x;
      assert f in a + b;
    }
  }

  method TrimForm(s: Bytes) returns (fs: seq<Form>)
    ensures Texts(fs) == Differing({Trim(s)}, s) && |fs| <= 1
  {
    DifferingTrim(s);
    var n := TrimSpaces(s);
    fs := [];
    if n != |s| {
      fs := [Form(s[..n], 1)];
      assert fs[0] in fs;
    }
  }

  /** All scans of dupecheck_mangle_store: exactly the forms that differ, at most eight. */
  method MangledForms(s: Bytes) returns (fs: seq<Form>)
    ensures Texts(fs) == Differing(Forms(s), s) && |fs| <= 8
  {
    var trim := TrimForm(s);
    var high, haveDel, haveLow := HighFormsOf(s);
    var low := FormsFor(s, Low, haveLow, 5);
    var del := FormsFor(s, Del, haveDel, 7);
    fs := trim + high + low + del;
    TextsConcat(trim + high + low, del);
    TextsConcat(trim + high, low);
    TextsConcat(trim, high);
    DifferingUnion({Trim(s)}, HighForms(s), LowForms(s), DelForms(s), s);
  }

  class Db {
    var db: seq<Chain>
    var cells: nat          // records that can still be allocated
    const storetime: nat    // dupefilter_storetime

    ghost var m: Store      // what the table stands for
    ghost var now: int      // the latest tick seen

    ghost predicate Valid()
      reads this
    {
      Represents(db, m) && forall k :: k in m ==> m[k] <= now
    }

    constructor (storetime: nat, cells: nat, tick: int)
      ensures Valid() && m == map[] && now == tick && this.storetime == storetime && this.cells == cells
    {
      this.storetime := storetime;
      this.cells := cells;
      db := seq(DB_SIZE, _ => []);
      m := map[];
      now := tick;
    }

    /** dupecheck_cleanup: drops what is too old, or too far in the future. */
    method Cleanup(tick: int)
      requires Valid() && now <= tick
      modifies this
      ensures Valid() && now == tick
      ensures m == Expire(old(m), tick, storetime)
      ensures cells >= old(cells)
    {
      var table, dropped := CleanAll(db, tick - storetime, tick + storetime);
      CleanBuckets(db, m, tick, storetime);
      ExpireTimes(m, tick, storetime);
      hide Represents, CleanTable, Expire;
      db := table;
      cells := cells + dropped;
      m := Expire(m, tick, storetime);
      now := tick;
    }

    /** dupecheck_append, with the tail of the chain found by the caller. */
    method Append(hash: Word, addr: Bytes, data: Bytes, tick: int) returns (ok: bool)
      requires Valid() && now <= tick
      modifies this
      ensures Valid() && now == tick && ok == (old(cells) > 0)
      ensures cells == if ok then old(cells) - 1 else old(cells)
      ensures m == if ok then Put(old(m), {Key(hash, addr + data)}, tick) else old(m)
    {
      now := tick;
      if cells == 0 { return false; }
      var idx := Bucket(hash);
      var dp := Rec(hash, tick, 0, addr + data);
      AppendRecord(db, m, dp);
      db := db[idx := db[idx] + [dp]];
      cells := cells - 1;
      m := Put(m, {Key(hash, addr + data)}, tick);
      return true;
    }

    /** dupecheck_add_buf: refreshes the first record of these bytes, or appends one. */
    method AddBuf(s: Bytes, dtype: int, tick: int) returns (ok: bool)
      requires Valid() && now <= tick
      modifies this
      ensures Valid() && now == tick
      ensures ok == (WholeKey(s) in old(m) || old(cells) > 0)
      ensures m == if ok then Put(old(m), {WholeKey(s)}, tick) else old(m)
      ensures old(cells) - 1 <= cells <= old(cells)
    {
      hide Represents, Put, Bucket, Hash;
      now := tick;
      var hash := Keyhash(s, 0);
      var idx := Bucket(hash);
      BucketBound(db, m, hash);
      var j := FindRecord(db[idx], hash, s);
      ghost var k := WholeKey(s);
      if j < |db[idx]| {
        RefreshRecord(db, m, idx, j, k, tick);
        db := db[idx := db[idx][j := db[idx][j].(t := tick)]];
        m := Put(m, {k}, tick);
        PutTimes(old(m), {k}, tick);
        return true;
      }
      NotStored(db, m, idx, k);
      if cells == 0 { return false; }
      var dp := Rec(hash, tick, dtype, s);
      AppendRecord(db, m, dp);
      db := db[idx := db[idx] + [dp]];
      cells := cells - 1;
      m := Put(m, {k}, tick);
      PutTimes(old(m), {k}, tick);
      return true;
    }

    /** Stores one mangled form; stored collects the keys put since the store was m0. */
    method StoreForm(f: Bytes, dtype: int, tick: int, ghost m0: Store, ghost stored0: set<Key>)
      returns (ghost stored: set<Key>)
      requires Valid() && now <= tick && m == Put(m0, stored0, tick)
      modifies this
      ensures Valid() && now == tick && m == Put(m0, stored, tick)
      ensures stored0 <= stored <= stored0 + {WholeKey(f)}
      ensures old(cells) > 0 ==> stored == stored0 + {WholeKey(f)}
      ensures old(cells) - 1 <= cells
    {
      var ok := AddBuf(f, dtype, tick);
      stored := if ok then stored0 + {WholeKey(f)} else stored0;
      PutPut(m0, stored0, {WholeKey(f)}, tick);
    }

    /** dupecheck_mangle_store: the forms that differ are stored, as far as memory lasts. */
    method MangleStore(addr: Bytes, data: Bytes, tick: int) returns (ghost stored: set<Key>)
      requires Valid() && now <= tick
      modifies this
      ensures Valid() && now == tick && m == Put(old(m), stored, tick)
      ensures stored <= MangledKeys(addr + data)
      ensures old(cells) >= 8 ==> stored == MangledKeys(addr + data)
      ensures cells >= old(cells) - 8
    {
      var ib := addr + data;
      stored := {};
      assert Put(m, {}, tick) == m;
      now := tick;
      if |ib| > PACKETLEN_MAX { return; }
      var fs := MangledForms(ib);
      stored := StoreForms(fs, tick);
    }

    method StoreForms(fs: seq<Form>, tick: int) returns (ghost stored: set<Key>)
      requires Valid() && now == tick
      modifies this
      ensures Valid() && now == tick && m == Put(old(m), stored, tick)
      ensures stored <= WholeKeys(Texts(fs))
      ensures old(cells) >= |fs| ==> stored == WholeKeys(Texts(fs))
      ensures cells >= old(cells) - |fs|
    {
      stored := {};
      assert Put(m, {}, tick) == m;
      for i := 0 to |fs|
        invariant Valid() && now == tick && m == Put(old(m), stored, tick)
        invariant stored <= WholeKeys(Texts(fs[..i])) && cells >= old(cells) - i
        invariant old(cells) >= |fs| ==> cells >= |fs| - i && stored == WholeKeys(Texts(fs[..i]))
      {
        OneMore(fs, i);
        stored := StoreForm(fs[i].text, fs[i].dtype, tick, old(m), stored);
      }
      assert fs[..|fs|] == fs;
    }

    /** dupecheck: a packet is a duplicate exactly if its key was put within the storage
        time; otherwise it is recorded, along with its mangled forms. */
    method Dupecheck(addr: Bytes, data: Bytes, tick: int) returns (v: Verdict, ghost stored: set<Key>)
      requires Valid() && now <= tick
      modifies this
      ensures Valid() && now == tick
      ensures v == IsDupe <==> Fresh(old(m), PacketKey(addr, data), tick, storetime)
      ensures v == IsDupe ==> m == old(m) && db == old(db)
      ensures v == AllocError <==> v != IsDupe && old(cells) == 0
      ensures v == AllocError ==> m == old(m)
      ensures v == NotDupe ==>
        stored <= MangledKeys(addr + data) && m == Put(old(m), {PacketKey(addr, data)} + stored, tick)
      ensures v == NotDupe && old(cells) >= 9 ==> stored == MangledKeys(addr + data)
      ensures cells >= old(cells) - 9
    {
      var expiretime := tick - storetime;
      var hash := Keyhash(addr, 0);
      hash := Keyhash(data, hash);
      var k := PacketKey(addr, data);
      var found := FindFresh(db[Bucket(hash)], hash, expiretime, addr, data);
      FreshMeansRecord(db, m, k, expiretime);
      stored := {};
      if found {
        now := tick;
        return IsDupe, stored;
      }
      ghost var m0 := m;
      var ok := Append(hash, addr, data, tick);
      if !ok { return AllocError, stored; }
      stored := MangleStore(addr, data, tick);
      PutPut(m0, {k}, stored, tick);
      return NotDupe, stored;
    }
  }

  lemma OneMore(fs: seq<Form>, i: nat)
    requires i < |fs|
    ensures WholeKeys(Texts(fs[..i + 1])) == WholeKeys(Texts(fs[..i])) + {WholeKey(fs[i].text)}
  {
    assert fs[..i + 1] == fs[..i] + [fs[i]];
    TextsConcat(fs[..i], [fs[i]]);
    assert fs[i] in [fs[i]];
    assert Texts([fs[i]]) == {fs[i].text};
  }

  /** Some record of this key is recent exactly if the latest one is. */
  lemma FreshMeansRecord(db: seq<Chain>, m: Store, k: Key, expiretime: int)
    requires Represents(db, m)
    ensures (k in m && m[k] >= expiretime) <==>
            exists r :: r in db[Bucket(k.hash)] && KeyOf(r) == k && r.t >= expiretime
  {
    var c := db[Bucket(k.hash)];
    if k in m && m[k] >= expiretime {
      assert HasRecord(c, k, m[k]);
    }
    if r :| r in c && KeyOf(r) == k && r.t >= expiretime {
      assert Placed(m, Bucket(k.hash), r);
    }
  }

  /** The search loop of dupecheck, over stale and fresh records. */
  method FindFresh(chain: Chain, hash: Word, expiretime: int, addr: Bytes, data: Bytes) returns (found: bool)
    ensures found <==> exists r :: r in chain && KeyOf(r) == Key(hash, addr + data) && r.t >= expiretime
  {
    for j := 0 to |chain|
      invariant forall r :: r in chain[..j] ==> !(KeyOf(r) == Key(hash, addr + data) && r.t >= expiretime)
    {
      var dp := chain[j];
      assert chain[..j + 1] == chain[..j] + [dp];
      if dp.hash == hash && dp.t >= expiretime {
        if |dp.packet| == |addr| + |data| && dp.packet[..|addr|] == addr && dp.packet[|addr|..] == data {
          assert dp.packet == dp.packet[..|addr|] + dp.packet[|addr|..];
          return true;
        }
        assert dp.packet != addr + data by {
          assert (addr + data)[..|addr|] == addr && (addr + data)[|addr|..] == data;
        }
      }
    }
    assert chain[..|chain|] == chain;
    return false;
  }
}
