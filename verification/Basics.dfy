/** What the other modules share: optional values, bytes, limits and list reversal. */
module Basics {
  datatype Option<+T> = None | Some(value: T)

  type Byte = x: int | 0 <= x < 256
  type Bytes = seq<Byte>

  // src/worker.h
  const CALLSIGNLEN_MAX: nat := 9
  const PACKETLEN_MAX: nat := 512
  const PACKETLEN_MAX_SMALL: nat := 100
  const PACKETLEN_MAX_MEDIUM: nat := 180
  const PACKETLEN_MAX_LARGE: nat := PACKETLEN_MAX

  /** A list built by prepending each element of s. */
  function Reverse<T>(s: seq<T>): seq<T> { if s == [] then [] else [s[|s| - 1]] + Reverse(s[..|s| - 1]) }

  lemma ReverseLast<T>(s: seq<T>, x: T)
    ensures Reverse(s + [x]) == [x] + Reverse(s)
  {
    assert (s + [x])[..|s|] == s;
  }

  lemma {:induction false} ReverseAppend<T>(a: seq<T>, b: seq<T>)
    ensures Reverse(a + b) == Reverse(b) + Reverse(a)
  {
    if b == [] {
      assert a + b == a;
    } else {
      assert (a + b)[..|a + b| - 1] == a + b[..|b| - 1];
      ReverseAppend(a, b[..|b| - 1]);
    }
  }

  lemma {:induction false} ReverseTwice<T>(s: seq<T>)
    ensures Reverse(Reverse(s)) == s
  {
    if s != [] {
      var n := |s| - 1;
      ReverseAppend([s[n]], Reverse(s[..n]));
      ReverseTwice(s[..n]);
      assert Reverse([s[n]]) == [s[n]] + Reverse([]) == [s[n]];
      assert s == s[..n] + [s[n]];
    }
  }
}
