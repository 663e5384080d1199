/** The cell allocator of src/cellmalloc.c.  Addresses are integers, 0 is NULL, and the link each
    free cell holds in its first bytes is an entry of a map.  Every operation runs under the
    arena's mutex, so it is one step. */
module CellArena {
  import opened Basics

  const CELLBLOCKS_MAX := 200

  datatype Shape = Shape(increment: int, createsize: int)

  ghost predicate Sensible(sh: Shape) { sh.increment > 0 && sh.createsize >= 0 }

  /** Cells in a block. */
  function PerBlock(sh: Shape): (n: int)
    requires Sensible(sh)
    ensures n >= 0
  {
    sh.createsize / sh.increment
  }

  function Cell(sh: Shape, base: int, k: int): int { base + k * sh.increment }

  /** The first k cells of a block, in address order. */
  function CellsOf(sh: Shape, base: int, k: nat): seq<int> { seq(k, i => Cell(sh, base, i)) }

  // ---------------------------------------------------------------- memory

  lemma Within(sh: Shape, k: int)
    requires Sensible(sh) && 0 <= k < PerBlock(sh)
    ensures 0 <= k * sh.increment && k * sh.increment + sh.increment <= sh.createsize
  {
    WithinQuotient(sh.createsize, sh.increment, k);
  }

  lemma WithinQuotient(a: int, b: int, k: int)
    requires b > 0 && 0 <= k < a / b
    ensures 0 <= k * b && k * b + b <= a
  {
    var n := a / b;
    assert n * b <= a;
    var d := n - k - 1;
    Product(d, b);
    Product(k, b);
    assert n * b == k * b + b + d * b by { assert n == k + 1 + d; }
  }

  lemma Product(a: int, b: int)
    requires a >= 0 && b >= 0
    ensures a * b >= 0
  {
  }

  /** Blocks do not overlap each other or NULL; a zero base is a failed mmap. */
  ghost predicate Apart(sh: Shape, bases: seq<int>) {
    && (forall i :: 0 <= i < |bases| ==> bases[i] >= 0)
    && forall i, j :: 0 <= i < j < |bases| && bases[i] != 0 && bases[j] != 0 ==>
         bases[i] + sh.createsize <= bases[j] || bases[j] + sh.createsize <= bases[i]
  }

  ghost predicate IsCell(sh: Shape, base: int, c: int)
    requires Sensible(sh)
  {
    exists k :: 0 <= k < PerBlock(sh) && c == Cell(sh, base, k)
  }

  /** A cell lies inside its block. */
  lemma CellInBounds(sh: Shape, base: int, c: int)
    requires Sensible(sh) && IsCell(sh, base, c)
    ensures base <= c && c + sh.increment <= base + sh.createsize
  {
    var k :| 0 <= k < PerBlock(sh) && c == Cell(sh, base, k);
    Within(sh, k);
  }

  /** Different cells of one block do not overlap. */
  lemma CellsApart(sh: Shape, base: int, k: int, l: int)
    requires Sensible(sh) && k < l
    ensures Cell(sh, base, k) + sh.increment <= Cell(sh, base, l)
  {
    assert (l - k - 1) * sh.increment >= 0;
    assert l * sh.increment == k * sh.increment + sh.increment + (l - k - 1) * sh.increment;
  }

  ghost predicate Owned(sh: Shape, blocks: seq<int>, c: int)
    requires Sensible(sh)
  {
    exists j :: 0 <= j < |blocks| && blocks[j] > 0 && IsCell(sh, blocks[j], c)
  }

  /** Cells of one arena are the same or do not overlap. */
  lemma NoOverlap(sh: Shape, blocks: seq<int>, c: int, d: int)
    requires Sensible(sh) && Apart(sh, blocks) && Owned(sh, blocks, c) && Owned(sh, blocks, d) && c != d
    ensures c + sh.increment <= d || d + sh.increment <= c
  {
    var i :| 0 <= i < |blocks| && blocks[i] > 0 && IsCell(sh, blocks[i], c);
    var j :| 0 <= j < |blocks| && blocks[j] > 0 && IsCell(sh, blocks[j], d);
    CellInBounds(sh, blocks[i], c);
    CellInBounds(sh, blocks[j], d);
    if i == j {
      var k :| 0 <= k < PerBlock(sh) && c == Cell(sh, blocks[i], k);
      var l :| 0 <= l < PerBlock(sh) && d == Cell(sh, blocks[i], l);
      if k < l { CellsApart(sh, blocks[i], k, l); } else { CellsApart(sh, blocks[i], l, k); }
    }
  }

  /** The cells of a new block are new. */
  lemma NewCellsNew(sh: Shape, blocks: seq<int>, base: int, c: int, d: int)
    requires Sensible(sh) && Apart(sh, blocks + [base]) && base > 0
    requires IsCell(sh, base, c) && Owned(sh, blocks, d)
    ensures c != d
  {
    var j :| 0 <= j < |blocks| && blocks[j] > 0 && IsCell(sh, blocks[j], d);
    CellInBounds(sh, base, c);
    CellInBounds(sh, blocks[j], d);
    var all := blocks + [base];
    assert all[j] == blocks[j] && all[|blocks|] == base;
  }

  lemma StillOwned(sh: Shape, blocks: seq<int>, base: int, c: int)
    requires Sensible(sh) && Owned(sh, blocks, c)
    ensures Owned(sh, blocks + [base], c)
  {
    var j :| 0 <= j < |blocks| && blocks[j] > 0 && IsCell(sh, blocks[j], c);
    assert (blocks + [base])[j] == blocks[j];
  }

  // ---------------------------------------------------------------- the linked list

  ghost predicate Distinct(s: seq<int>) { forall i, j :: 0 <= i < j < |s| ==> s[i] != s[j] }

  function Head(free: seq<int>): int { if free == [] then 0 else free[0] }

  function Last(free: seq<int>): int { if free == [] then 0 else free[|free| - 1] }

  /** Following links from the first cell visits exactly the free list and ends at NULL. */
  ghost predicate Linked(next: map<int, int>, free: seq<int>) {
    && Distinct(free)
    && forall i :: 0 <= i < |free| ==> free[i] > 0 && free[i] in next && next[free[i]] == Head(free[i + 1..])
  }

  lemma LinkedPop(next: map<int, int>, free: seq<int>)
    requires Linked(next, free) && free != []
    ensures Linked(next[free[0] := 0], free[1..]) && next[free[0]] == Head(free[1..]) && free[0] !in free[1..]
  {
    var rest := free[1..];
    forall i | 0 <= i < |rest| ensures rest[i] != free[0] && rest[i] in next && next[rest[i]] == Head(rest[i + 1..]) {
      assert rest[i] == free[i + 1] && rest[i + 1..] == free[i + 2..];
    }
  }

  lemma LinkedAppend(next: map<int, int>, free: seq<int>, c: int)
    requires Linked(next, free) && c > 0 && c !in free
    ensures Linked((if free == [] then next else next[Last(free) := c])[c := 0], free + [c])
  {
    var all, m := free + [c], (if free == [] then next else next[Last(free) := c])[c := 0];
    forall i | 0 <= i < |all| ensures all[i] > 0 && all[i] in m && m[all[i]] == Head(all[i + 1..]) {
      if i + 1 < |free| {
        assert all[i] == free[i] && free[i] != Last(free) && all[i + 1..] == free[i + 1..] + [c];
      }
    }
  }

  lemma LinkedPush(next: map<int, int>, free: seq<int>, c: int)
    requires Linked(next, free) && c > 0 && c !in free
    ensures Linked(next[c := Head(free)], [c] + free)
  {
    var all, m := [c] + free, next[c := Head(free)];
    forall i | 0 <= i < |all| ensures all[i] > 0 && all[i] in m && m[all[i]] == Head(all[i + 1..]) {
      if i > 0 { assert all[i] == free[i - 1] && all[i + 1..] == free[i..]; } else { assert all[1..] == free; }
    }
  }

  lemma LinkedOther(next: map<int, int>, free: seq<int>, c: int)
    requires Linked(next, free) && c !in free
    ensures Linked(next[c := 0], free)
  {
  }

  // ---------------------------------------------------------------- growing

  lemma MoreCells(sh: Shape, k: int)
    requires Sensible(sh) && 0 <= k <= PerBlock(sh) && k * sh.increment <= sh.createsize - sh.increment
    ensures k < PerBlock(sh)
  {
    assert (k + 1) * sh.increment <= sh.createsize;
    QuotientLeast(sh.createsize, sh.increment, k + 1);
  }

  lemma QuotientLeast(a: int, b: int, q: int)
    requires b > 0 && q * b <= a
    ensures q <= a / b
  {
    var n := a / b;
    assert a < n * b + b;
    if q > n { Product(q - n - 1, b); }
  }

  lemma AllCells(sh: Shape, k: int)
    requires Sensible(sh) && 0 <= k <= PerBlock(sh) && k * sh.increment > sh.createsize - sh.increment
    ensures k == PerBlock(sh)
  {
    if k < PerBlock(sh) { Within(sh, k); }
  }

  lemma CellIsNew(sh: Shape, cb: int, k: int, free: seq<int>)
    requires Sensible(sh) && 0 <= k < PerBlock(sh) && forall c :: IsCell(sh, cb, c) ==> c !in free
    ensures Cell(sh, cb, k) !in free + CellsOf(sh, cb, k) && Cell(sh, cb, k) >= cb
  {
    assert IsCell(sh, cb, Cell(sh, cb, k));
    Within(sh, k);
    var cs := CellsOf(sh, cb, k);
    forall i | 0 <= i < k ensures cs[i] != Cell(sh, cb, k) { CellsApart(sh, cb, i, k); }
  }

  lemma ApartLess(sh: Shape, blocks: seq<int>, supply: seq<int>)
    requires Apart(sh, blocks + supply) && supply != []
    ensures Apart(sh, blocks + supply[1..]) && Apart(sh, blocks + [supply[0]])
  {
    var all, rest, one := blocks + supply, blocks + supply[1..], blocks + [supply[0]];
    forall i | 0 <= i < |rest| ensures rest[i] == all[if i < |blocks| then i else i + 1] { }
    forall i | 0 <= i < |one| ensures one[i] == all[i] { }
  }

  lemma NewCellsDistinct(sh: Shape, blocks: seq<int>, cb: int, c: int, free: seq<int>, out: set<int>)
    requires Sensible(sh) && Apart(sh, blocks + [cb]) && cb > 0 && IsCell(sh, cb, c)
    requires (forall d :: d in free ==> Owned(sh, blocks, d)) && (forall d :: d in out ==> Owned(sh, blocks, d))
    ensures c !in free && c !in out
  {
    hide Owned, IsCell, Apart;
    forall d | d in free || d in out ensures c != d { NewCellsNew(sh, blocks, cb, c, d); }
  }

  lemma OwnedAfter(sh: Shape, blocks: seq<int>, cb: int, free: seq<int>, out: set<int>)
    requires Sensible(sh) && cb > 0
    requires (forall d :: d in free ==> Owned(sh, blocks, d)) && (forall d :: d in out ==> Owned(sh, blocks, d))
    ensures forall d :: d in out ==> Owned(sh, blocks + [cb], d)
    ensures forall d :: d in free + CellsOf(sh, cb, PerBlock(sh)) ==> Owned(sh, blocks + [cb], d)
    ensures forall d :: d in CellsOf(sh, cb, PerBlock(sh)) ==> IsCell(sh, cb, d)
  {
    hide Owned;
    forall d | d in free || d in out ensures Owned(sh, blocks + [cb], d) { StillOwned(sh, blocks, cb, d); }
    var cs := CellsOf(sh, cb, PerBlock(sh));
    forall d | d in cs ensures IsCell(sh, cb, d) && Owned(sh, blocks + [cb], d) {
      var k :| 0 <= k < |cs| && cs[k] == d;
      assert d == Cell(sh, cb, k);
      NewlyOwned(sh, blocks, cb, d);
    }
  }

  lemma NewlyOwned(sh: Shape, blocks: seq<int>, cb: int, d: int)
    requires Sensible(sh) && cb > 0 && IsCell(sh, cb, d)
    ensures Owned(sh, blocks + [cb], d)
  {
    assert (blocks + [cb])[|blocks|] == cb;
  }

  // ---------------------------------------------------------------- who has which cell

  /** The free list and the cells handed out; and, in order, every cell that ever joined the list
      and every cell ever handed out. */
  datatype Pool = Pool(free: seq<int>, out: set<int>, joined: seq<int>, handed: seq<int>)

  ghost predicate Owns(sh: Shape, blocks: seq<int>, p: Pool)
    requires Sensible(sh)
  {
    && (forall c :: c in p.free ==> Owned(sh, blocks, c) && c !in p.out)
    && (forall c :: c in p.out ==> Owned(sh, blocks, c))
  }

  /** Every cell of every block is free or handed out, never both; and a FIFO arena hands out cells
      in the order in which they joined. */
  ghost predicate Kept(sh: Shape, lifo: bool, blocks: seq<int>, supply: seq<int>, p: Pool) {
    && Sensible(sh) && Owns(sh, blocks, p)
    && |blocks| <= CELLBLOCKS_MAX && Apart(sh, blocks + supply)
    && (forall j :: 0 <= j < |blocks| ==> blocks[j] > 0)
    && |p.free| + |p.out| == |blocks| * PerBlock(sh)
    && (!lifo ==> p.joined == p.handed + p.free)
  }

  function Take(p: Pool): Pool
    requires p.free != []
  {
    Pool(p.free[1..], p.out + {p.free[0]}, p.joined, p.handed + [p.free[0]])
  }

  function Append(p: Pool, cells: seq<int>): Pool { p.(free := p.free + cells, joined := p.joined + cells) }

  function Give(lifo: bool, p: Pool, c: int): Pool {
    Pool(if lifo then [c] + p.free else p.free + [c], p.out - {c}, p.joined + [c], p.handed)
  }

  lemma KeptTake(sh: Shape, lifo: bool, blocks: seq<int>, supply: seq<int>, p: Pool)
    requires Kept(sh, lifo, blocks, supply, p) && p.free != [] && p.free[0] !in p.free[1..]
    ensures Kept(sh, lifo, blocks, supply, Take(p))
    ensures p.free[0] !in p.out
  {
    hide Owned, Apart, PerBlock;
    assert p.free == [p.free[0]] + p.free[1..];
    assert p.free[0] in p.free && Owned(sh, blocks, p.free[0]);
    assert |Take(p).out| == |p.out| + 1;
    forall c | c in p.free[1..] ensures c in p.free && c != p.free[0] { }
    assert !lifo ==> p.handed + p.free == p.handed + [p.free[0]] + p.free[1..];
  }

  lemma KeptGive(sh: Shape, lifo: bool, blocks: seq<int>, supply: seq<int>, p: Pool, c: int)
    requires Kept(sh, lifo, blocks, supply, p) && c in p.out
    ensures Kept(sh, lifo, blocks, supply, Give(lifo, p, c))
    ensures c !in p.free && c > 0
  {
    OwnedPositive(sh, blocks, c);
    hide Owned, Apart, PerBlock;
  }

  lemma OwnedPositive(sh: Shape, blocks: seq<int>, c: int)
    requires Sensible(sh) && Owned(sh, blocks, c)
    ensures c > 0
  {
    var j :| 0 <= j < |blocks| && blocks[j] > 0 && IsCell(sh, blocks[j], c);
    CellInBounds(sh, blocks[j], c);
  }

  lemma KeptGrow(sh: Shape, lifo: bool, blocks: seq<int>, supply: seq<int>, p: Pool)
    requires Kept(sh, lifo, blocks, supply, p) && supply != [] && supply[0] > 0 && |blocks| < CELLBLOCKS_MAX
    ensures forall c :: IsCell(sh, supply[0], c) ==> c !in p.free
    ensures Kept(sh, lifo, blocks + [supply[0]], supply[1..], Append(p, CellsOf(sh, supply[0], PerBlock(sh))))
  {
    var cb, cells := supply[0], CellsOf(sh, supply[0], PerBlock(sh));
    hide Owned, Apart, IsCell, Cell, PerBlock;
    ApartLess(sh, blocks, supply);
    assert blocks + supply == (blocks + [cb]) + supply[1..];
    forall c | IsCell(sh, cb, c) ensures c !in p.free && c !in p.out {
      NewCellsDistinct(sh, blocks, cb, c, p.free, p.out);
    }
    OwnedAfter(sh, blocks, cb, p.free, p.out);
    assert (|blocks| + 1) * PerBlock(sh) == |blocks| * PerBlock(sh) + PerBlock(sh);
    assert !lifo ==> p.handed + p.free + cells == p.handed + (p.free + cells);
    CellsCount(sh, cb);
  }

  lemma CellsCount(sh: Shape, cb: int)
    requires Sensible(sh)
    ensures |CellsOf(sh, cb, PerBlock(sh))| == PerBlock(sh)
  {
  }

  lemma KeptFailed(sh: Shape, lifo: bool, blocks: seq<int>, supply: seq<int>, p: Pool)
    requires Kept(sh, lifo, blocks, supply, p) && supply != []
    ensures supply[0] >= 0 && Kept(sh, lifo, blocks, supply[1..], p)
  {
    ApartLess(sh, blocks, supply);
    assert (blocks + supply)[|blocks|] == supply[0];
  }

  // ---------------------------------------------------------------- the arena

  class Arena {
    const shape: Shape
    const minfree: int
    const lifo: bool
    var freeHead: int
    var freeTail: int
    var freecount: int
    var blocks: seq<int>
    var next: map<int, int>
    /** What mmap will return, 0 where it fails. */
    var supply: seq<int>
    ghost var pool: Pool

    ghost predicate Listed()
      reads this
    {
      && Linked(next, pool.free) && freeHead == Head(pool.free) && freecount == |pool.free|
      && (!lifo ==> freeTail == Last(pool.free))
    }

    /** A LIFO arena keeps no tail, which is why it must not ask for a reserve. */
    ghost predicate Valid()
      reads this
    {
      Listed() && Kept(shape, lifo, blocks, supply, pool) && (lifo ==> minfree <= 0)
    }

    /** cellinit, before any block is made. */
    constructor (shape: Shape, minfree: int, lifo: bool, supply: seq<int>)
      requires Sensible(shape) && (lifo ==> minfree <= 0) && Apart(shape, supply)
      ensures Valid() && pool == Pool([], {}, [], []) && blocks == []
      ensures this.shape == shape && this.minfree == minfree && this.lifo == lifo && this.supply == supply
    {
      this.shape, this.minfree, this.lifo := shape, minfree, lifo;
      freeHead, freeTail, freecount := 0, 0, 0;
      blocks, next, this.supply := [], map[], supply;
      pool := Pool([], {}, [], []);
      assert [] + supply == supply;
    }

    lemma HeadZero()
      requires Listed()
      ensures freeHead == 0 <==> pool.free == []
    {
    }

    lemma TailZero()
      requires Listed() && !lifo
      ensures freeTail == 0 <==> pool.free == []
    {
    }

    /** One turn of the loop in new_cellblock. */
    method AddCell(c: int)
      requires Listed() && c > 0 && c !in pool.free && (pool.free != [] ==> freeTail == Last(pool.free))
      modifies this`freeHead, this`freeTail, this`freecount, this`next, this`pool
      ensures Listed() && pool == Append(old(pool), [c]) && freeTail == c
    {
      LinkedAppend(next, pool.free, c);
      HeadZero();
      if freeHead == 0 { freeHead := c; } else { next := next[freeTail := c]; }
      freeTail := c;
      next := next[c := 0];
      freecount := freecount + 1;
      pool := Append(pool, [c]);
    }

    /** The loop of new_cellblock. */
    method FillBlock(cb: int)
      requires Sensible(shape) && Listed() && cb > 0 && (lifo ==> pool.free == [])
      requires forall c :: IsCell(shape, cb, c) ==> c !in pool.free
      modifies this`freeHead, this`freeTail, this`freecount, this`next, this`pool
      ensures Listed() && pool == Append(old(pool), CellsOf(shape, cb, PerBlock(shape)))
    {
      hide Linked;
      var i := 0;
      ghost var k := 0;
      assert Append(pool, CellsOf(shape, cb, 0)) == pool;
      while i <= shape.createsize - shape.increment
        invariant 0 <= k <= PerBlock(shape) && i == k * shape.increment
        invariant Listed() && pool == Append(old(pool), CellsOf(shape, cb, k))
        invariant pool.free != [] ==> freeTail == Last(pool.free)
        decreases shape.createsize - i
      {
        MoreCells(shape, k);
        CellIsNew(shape, cb, k, old(pool.free));
        assert CellsOf(shape, cb, k + 1) == CellsOf(shape, cb, k) + [cb + i];
        AppendTwice(old(pool), CellsOf(shape, cb, k), [cb + i]);
        AddCell(cb + i);
        i := i + shape.increment;
        k := k + 1;
        assert k * shape.increment == (k - 1) * shape.increment + shape.increment;
      }
      AllCells(shape, k);
    }

    /** new_cellblock: the block's cells join the list at its end, in address order. */
    method NewCellblock() returns (ok: bool)
      requires Valid() && (lifo ==> pool.free == [])
      modifies this
      ensures Valid()
      ensures ok <==> CanGrow(old(blocks), old(supply))
      ensures ok ==> blocks == old(blocks + [supply[0]]) && supply == old(supply[1..])
                     && pool == Append(old(pool), CellsOf(shape, old(supply[0]), PerBlock(shape)))
      ensures !ok ==> blocks == old(blocks) && pool == old(pool)
    {
      hide Kept, Linked, CellsOf, Owns, Owned, IsCell;
      if |blocks| >= CELLBLOCKS_MAX || supply == [] { return false; }
      KeptFailed(shape, lifo, blocks, supply, pool);
      var cb := supply[0];
      if cb == 0 {
        supply := supply[1..];
        return false;
      }
      KeptGrow(shape, lifo, blocks, supply, pool);
      KeptSensible(shape, lifo, blocks, supply, pool);
      supply := supply[1..];
      blocks := blocks + [cb];
      FillBlock(cb);
      return true;
    }

    /** The head of the free list leaves it. */
    method TakeHead() returns (c: int)
      requires Valid() && pool.free != []
      modifies this`freeHead, this`freeTail, this`freecount, this`next, this`pool
      ensures Valid() && c == old(pool.free[0]) && pool == Take(old(pool)) && c !in old(pool.out)
    {
      hide Kept;
      LinkedPop(next, pool.free);
      KeptTake(shape, lifo, blocks, supply, pool);
      c := freeHead;
      freeHead := next[c];
      next := next[c := 0];
      if freeHead == 0 { freeTail := 0; }
      freecount := freecount - 1;
      pool := Take(pool);
      HeadZero();
    }

    /** The loop that makes blocks until there is a cell and the reserve is full. */
    method Refill() returns (ok: bool)
      requires Valid()
      modifies this
      ensures Valid() && Grown(old(blocks), old(pool), blocks, pool)
      ensures ok <==> pool.free != [] && freecount >= minfree
      ensures !ok ==> Exhausted(old(blocks), old(supply), blocks)
      ensures old(pool.free != [] && freecount >= minfree) ==> ok && blocks == old(blocks) && pool == old(pool)
    {
      hide Kept, Linked, CellsOf, Append, Grown;
      GrownNone(blocks, pool);
      ghost var made := 0;
      while freeHead == 0 || freecount < minfree
        invariant Valid() && Grown(old(blocks), old(pool), blocks, pool)
        invariant 0 <= made <= |old(supply)| && |blocks| == |old(blocks)| + made && supply == old(supply)[made..]
        invariant old(pool.free != [] && freecount >= minfree) ==> blocks == old(blocks) && pool == old(pool)
        decreases CELLBLOCKS_MAX - |blocks|
      {
        HeadZero();
        ghost var blocks', pool', supply' := blocks, pool, supply;
        ok := NewCellblock();
        if !ok { return; }
        KeptSensible(shape, lifo, blocks, supply, pool);
        GrownMore(old(blocks), old(pool), blocks', pool', supply'[0], CellsOf(shape, supply'[0], PerBlock(shape)));
        made := made + 1;
      }
      HeadZero();
      return true;
    }

    /** cellmalloc: the oldest free cell, or NULL when there is none and no block can be made. */
    method Cellmalloc() returns (r: Option<int>)
      requires Valid()
      modifies this
      ensures Valid()
      ensures old(pool.free != [] && freecount >= minfree) ==>
          r.Some? && blocks == old(blocks) && pool == Take(old(pool))
      ensures r.None? ==> Grown(old(blocks), old(pool), blocks, pool) && (pool.free == [] || freecount < minfree)
                          && Exhausted(old(blocks), old(supply), blocks)
      ensures r.Some? ==> exists p :: Grown(old(blocks), old(pool), blocks, p) && p.free != []
                                      && r.value == p.free[0] && pool == Take(p) && |p.free| >= minfree
      ensures r.Some? ==> r.value !in old(pool.out)
    {
      hide Kept, Linked, Take, Grown, Exhausted;
      var ok := Refill();
      if !ok { return None; }
      GrownOut(old(blocks), old(pool), blocks, pool);
      var c := TakeHead();
      r := Some(c);
    }

    /** cellmallocmany: up to numcells cells, fewer only when the free list is empty. */
    method CellmallocMany(numcells: nat) returns (cells: seq<int>)
      requires Valid()
      modifies this
      ensures Valid() && |cells| <= numcells && (|cells| < numcells ==> pool.free == [])
      ensures pool.handed == old(pool.handed) + cells && old(pool.joined) <= pool.joined
      ensures Distinct(cells) && forall c :: c in cells ==> c !in old(pool.out)
      ensures forall c :: c in pool.out <==> c in old(pool.out) || c in cells
    {
      hide Kept, Linked, CellsOf;
      cells := [];
      while |cells| < numcells
        invariant Valid() && |cells| <= numcells
        invariant pool.handed == old(pool.handed) + cells && old(pool.joined) <= pool.joined
        invariant Distinct(cells) && forall c :: c in cells ==> c !in old(pool.out)
        invariant forall c :: c in pool.out <==> c in old(pool.out) || c in cells
      {
        ghost var pool', blocks' := pool, blocks;
        var _ := Refill();
        GrownOut(blocks', pool', blocks, pool);
        HeadZero();
        if freeHead == 0 { break; }
        var c := TakeHead();
        assert c !in cells;
        cells := cells + [c];
      }
    }

    /** cellfree: a LIFO arena takes the cell in front, a FIFO one behind. */
    method Cellfree(c: int)
      requires Valid() && c in pool.out
      modifies this`freeHead, this`freeTail, this`freecount, this`next, this`pool
      ensures Valid() && pool == Give(lifo, old(pool), c)
    {
      hide Kept, Linked;
      if !lifo { TailZero(); }
      KeptGive(shape, lifo, blocks, supply, pool, c);
      LinkedOther(next, pool.free, c);
      next := next[c := 0];
      HeadZero();
      if lifo {
        LinkedPush(next, pool.free, c);
        next := next[c := freeHead];
        freeHead := c;
      } else {
        LinkedAppend(next, pool.free, c);
        if freeTail != 0 { next := next[freeTail := c]; }
        freeTail := c;
        if freeHead == 0 { freeHead := c; }
        next := next[c := 0];
      }
      freecount := freecount + 1;
      pool := Give(lifo, pool, c);
    }

    method CellfreeMany(cells: seq<int>)
      requires Valid() && Distinct(cells) && forall c :: c in cells ==> c in pool.out
      modifies this`freeHead, this`freeTail, this`freecount, this`next, this`pool
      ensures Valid() && pool == GiveAll(lifo, old(pool), cells)
    {
      hide Kept, Linked;
      forall j | 0 <= j < |cells| ensures cells[j] in pool.out { assert cells[j] in cells; }
      for i := 0 to |cells|
        invariant Valid() && pool == GiveAll(lifo, old(pool), cells[..i])
        invariant forall j :: i <= j < |cells| ==> cells[j] in pool.out
      {
        Cellfree(cells[i]);
        assert cells[..i + 1][..i] == cells[..i];
      }
      assert cells[..|cells|] == cells;
    }
  }

  function GiveAll(lifo: bool, p: Pool, cells: seq<int>): Pool {
    if cells == [] then p else Give(lifo, GiveAll(lifo, p, cells[..|cells| - 1]), cells[|cells| - 1])
  }

  lemma AppendTwice(p: Pool, a: seq<int>, b: seq<int>)
    ensures Append(Append(p, a), b) == Append(p, a + b)
  {
    assert p.free + a + b == p.free + (a + b) && p.joined + a + b == p.joined + (a + b);
  }

  lemma KeptSensible(sh: Shape, lifo: bool, blocks: seq<int>, supply: seq<int>, p: Pool)
    requires Kept(sh, lifo, blocks, supply, p)
    ensures Sensible(sh)
  {
  }

  ghost predicate CanGrow(blocks: seq<int>, supply: seq<int>) {
    |blocks| < CELLBLOCKS_MAX && supply != [] && supply[0] != 0
  }

  /** After the blocks made so far, no other one could be. */
  ghost predicate Exhausted(blocks0: seq<int>, supply0: seq<int>, blocks: seq<int>) {
    var n := |blocks| - |blocks0|;
    0 <= n <= |supply0| && !CanGrow(blocks, supply0[n..])
  }

  /** Blocks were made and their cells put at the end of the list; nothing else changed. */
  ghost predicate Grown(blocks0: seq<int>, p0: Pool, blocks: seq<int>, p: Pool) {
    && blocks0 <= blocks && p0.free <= p.free && p.out == p0.out && p.handed == p0.handed
    && p.joined == p0.joined + p.free[|p0.free|..]
  }

  lemma GrownNone(blocks: seq<int>, p: Pool)
    ensures Grown(blocks, p, blocks, p)
  {
    assert p.joined + [] == p.joined;
  }

  lemma GrownMore(blocks0: seq<int>, p0: Pool, blocks: seq<int>, p: Pool, cb: int, cells: seq<int>)
    requires Grown(blocks0, p0, blocks, p)
    ensures Grown(blocks0, p0, blocks + [cb], Append(p, cells))
  {
    assert (p.free + cells)[|p0.free|..] == p.free[|p0.free|..] + cells;
    assert p0.joined + p.free[|p0.free|..] + cells == p0.joined + (p.free[|p0.free|..] + cells);
  }

  lemma GrownOut(blocks0: seq<int>, p0: Pool, blocks: seq<int>, p: Pool)
    requires Grown(blocks0, p0, blocks, p)
    ensures p.out == p0.out && p.handed == p0.handed && p0.joined <= p.joined
  {
  }
}
