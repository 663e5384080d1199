/** The FNV hash of src/keyhash.c on unsigned 32-bit words, wrap-around written out. */
module KeyHash {
  import opened Basics

  const WORD: int := 0x1_0000_0000
  type Word = x: int | 0 <= x < 0x1_0000_0000

  const FNV_PRIME: int := 16777619
  const FNV_OFFSET: Word := 2166136261

  function Times(h: Word, c: nat): Word { (h * c) % WORD }

  /** Exclusive or, bit by bit. */
  function Xor(a: nat, b: nat): nat
    decreases a + b
  {
    if a == 0 && b == 0 then 0
    else 2 * Xor(a / 2, b / 2) + (a % 2 + b % 2) % 2
  }

  function Pow2(n: nat): nat { if n == 0 then 1 else 2 * Pow2(n - 1) }

  lemma {:induction false} XorBound(a: nat, b: nat, n: nat)
    requires a < Pow2(n) && b < Pow2(n)
    ensures Xor(a, b) < Pow2(n)
  {
    if n > 0 { XorBound(a / 2, b / 2, n - 1); }
  }

  lemma XorUnfold(a: nat, b: nat)
    ensures Xor(a, b) / 2 == Xor(a / 2, b / 2)
    ensures Xor(a, b) % 2 == (a % 2 + b % 2) % 2
  {
  }

  lemma XorTwiceStep(a: nat, b: nat, x: nat, y: nat, h: nat)
    requires x / 2 == h && x % 2 == (a % 2 + b % 2) % 2
    requires y / 2 == a / 2 && y % 2 == (x % 2 + b % 2) % 2
    ensures y == a
  {
  }

  lemma {:induction false} XorTwice(a: nat, b: nat)
    ensures Xor(Xor(a, b), b) == a
    decreases a + b
  {
    if a > 0 || b > 0 {
      XorTwice(a / 2, b / 2);
      XorUnfold(a, b);
      XorUnfold(Xor(a, b), b);
      XorTwiceStep(a, b, Xor(a, b), Xor(Xor(a, b), b), Xor(a / 2, b / 2));
    }
  }

  lemma WordBits()
    ensures Pow2(32) == WORD
  {
    assert Pow2(8) == 256;
    assert Pow2(16) == 65536;
    assert Pow2(24) == 0x100_0000;
  }

  function XorWord(a: Word, b: Word): Word {
    WordBits(); XorBound(a, b, 32); Xor(a, b)
  }

  function Mix(h: Word, b: Byte): Word { XorWord(Times(h, FNV_PRIME), b) }

  function Fold(s: Bytes, h: Word): Word
    decreases |s|
  {
    if s == [] then h else Fold(s[1..], Mix(h, s[0]))
  }

  /** A zero hash argument asks for the standard offset. */
  function Start(h: Word): Word { if h == 0 then FNV_OFFSET else h }

  function Hash(s: Bytes, seed: Word): Word { Fold(s, Start(seed)) }

  /** The shift-add step of the loop: a shift left by k is a multiplication by 2^k. */
  function ShiftAdd(h: Word): Word {
    (h + (Times(h, 2) + Times(h, 16) + Times(h, 128) + Times(h, 256) + Times(h, 0x100_0000)) % WORD) % WORD
  }

  lemma ShiftAddIsMultiplication(h: Word)
    ensures ShiftAdd(h) == Times(h, FNV_PRIME)
  {
    var t := Times(h, 2) + Times(h, 16) + Times(h, 128) + Times(h, 256) + Times(h, 0x100_0000);
    var q := h * 2 / WORD + h * 16 / WORD + h * 128 / WORD + h * 256 / WORD + h * 0x100_0000 / WORD;
    assert t == h * 16777618 - WORD * q;
    var r := t / WORD;
    var u := h + t % WORD;
    assert u == h * FNV_PRIME - WORD * (q + r);
    SameResidue(h * FNV_PRIME, u, q + r);
  }

  lemma SameResidue(a: int, b: int, k: int)
    requires b == a - WORD * k
    ensures a % WORD == b % WORD
  {
    assert a == WORD * (b / WORD + k) + b % WORD;
  }

  /** keyhash: the loop over the bytes, with the shift-add form of the multiplication. */
  method Keyhash(s: Bytes, seed: Word) returns (hash: Word)
    ensures hash == Hash(s, seed)
  {
    hash := if seed == 0 then FNV_OFFSET else seed;
    for i := 0 to |s|
      invariant Fold(s[i..], hash) == Hash(s, seed)
    {
      ShiftAddIsMultiplication(hash);
      assert s[i..][1..] == s[i + 1..];
      hash := XorWord(ShiftAdd(hash), s[i]);
    }
  }

  function Upper(b: Byte): Byte { if 0x61 <= b <= 0x7A then b - 0x20 else b }

  /** Each small letter has its own capital, and nothing else is folded. */
  lemma UpperExact(b: Byte)
    ensures forall k :: 0 <= k < 26 ==>
      Upper("abcdefghijklmnopqrstuvwxyz"[k] as int) == "ABCDEFGHIJKLMNOPQRSTUVWXYZ"[k] as int
    ensures b as char !in "abcdefghijklmnopqrstuvwxyz" ==> Upper(b) == b
  {
    var small, capital := "abcdefghijklmnopqrstuvwxyz", "ABCDEFGHIJKLMNOPQRSTUVWXYZ";
    assert forall k :: 0 <= k < 26 ==> small[k] as int == 97 + k && capital[k] as int == 65 + k;
    if 0x61 <= b <= 0x7A { assert small[b - 0x61] as int == b; }
  }

  function UpperAll(s: Bytes): Bytes { seq(|s|, i requires 0 <= i < |s| => Upper(s[i])) }

  /** keyhashuc hashes the upper-cased text without building it. */
  method Keyhashuc(s: Bytes, seed: Word) returns (hash: Word)
    ensures hash == Hash(UpperAll(s), seed)
  {
    hash := if seed == 0 then FNV_OFFSET else seed;
    for i := 0 to |s|
      invariant Fold(UpperAll(s)[i..], hash) == Hash(UpperAll(s), seed)
    {
      ShiftAddIsMultiplication(hash);
      assert UpperAll(s)[i..][1..] == UpperAll(s)[i + 1..];
      var c := s[i];
      if 0x61 <= c <= 0x7A { c := c - 0x20; }
      hash := XorWord(ShiftAdd(hash), c);
    }
  }

  lemma {:induction false} FoldConcat(a: Bytes, b: Bytes, h: Word)
    ensures Fold(a + b, h) == Fold(b, Fold(a, h))
    decreases |a|
  {
    if a == [] {
      assert a + b == b;
    } else {
      assert (a + b)[1..] == a[1..] + b;
      FoldConcat(a[1..], b, Mix(h, a[0]));
    }
  }

  // 16777619 is odd, so it has an inverse modulo 2^32.
  const FNV_INVERSE: int := 899433627

  lemma MultiplicationInjective(x: Word, y: Word)
    requires Times(x, FNV_PRIME) == Times(y, FNV_PRIME)
    ensures x == y
  {
    assert FNV_PRIME * FNV_INVERSE == WORD * 3513497 + 1;
    Invertible(x, y, FNV_PRIME, FNV_INVERSE, WORD, 3513497);
  }

  /** Multiplication by p has the inverse q modulo w. */
  lemma Invertible(x: int, y: int, p: int, q: int, w: int, k: int)
    requires 0 <= x < w && 0 <= y < w && p * q == w * k + 1 && x * p % w == y * p % w
    ensures x == y
  {
    var t := x * p / w - y * p / w;
    SameRemainder(x * p, y * p, w);
    assert (x - y) * p == x * p - y * p;
    Cancel(x - y, p, q, w, t, k);
    SmallMultiple(x - y, t * q - (x - y) * k, w);
  }

  lemma SameRemainder(a: int, b: int, w: int)
    requires w > 0 && a % w == b % w
    ensures a - b == w * (a / w - b / w)
  {
    assert a == w * (a / w) + a % w && b == w * (b / w) + b % w;
  }

  lemma Cancel(d: int, p: int, q: int, w: int, t: int, k: int)
    requires d * p == w * t && p * q == w * k + 1
    ensures d == w * (t * q - d * k)
  {
    calc {
      d;
      d * (w * k + 1) - d * (w * k);
      d * (p * q) - d * (w * k);
      { assert d * (p * q) == d * p * q; }
      w * t * q - d * (w * k);
      { assert w * t * q == w * (t * q) && d * (w * k) == w * (d * k); }
      w * (t * q) - w * (d * k);
      w * (t * q - d * k);
    }
  }

  lemma SmallMultiple(d: int, m: int, w: int)
    requires d == w * m && -w < d < w
    ensures d == 0
  {
    assert m >= 1 ==> w * m >= w;
    assert m <= -1 ==> w * m <= -w;
  }

  lemma {:induction false} FoldInjective(s: Bytes, x: Word, y: Word)
    requires Fold(s, x) == Fold(s, y)
    ensures x == y
    decreases |s|
  {
    if s != [] {
      FoldInjective(s[1..], Mix(x, s[0]), Mix(y, s[0]));
      XorTwice(Times(x, FNV_PRIME), s[0]);
      XorTwice(Times(y, FNV_PRIME), s[0]);
      MultiplicationInjective(x, y);
    }
  }

  /** Hashing two disjoint areas in turn gives the hash of their concatenation exactly when
      the first area's hash is not 0: a 0 in between restarts from the offset. */
  lemma SplitHash(a: Bytes, b: Bytes)
    ensures Hash(b, Hash(a, 0)) == Hash(a + b, 0) <==> Hash(a, 0) != 0
  {
    FoldConcat(a, b, FNV_OFFSET);
    if Fold(b, FNV_OFFSET) == Fold(b, 0) { FoldInjective(b, FNV_OFFSET, 0); }
  }
}
