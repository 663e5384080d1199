/** Packet text: searching (memmem and memchr of the C library) and comparing regardless of case. */
module Text {
  import opened Basics

  function Upper(c: char): char { if 'a' <= c <= 'z' then (c as int - 32) as char else c }

  predicate SameFolded(a: string, b: string) {
    |a| == |b| && forall k :: 0 <= k < |a| ==> Upper(a[k]) == Upper(b[k])
  }

  /** Each small letter has its own capital, and nothing else is folded. */
  lemma UpperExact(c: char)
    ensures forall k :: 0 <= k < 26 ==> Upper("abcdefghijklmnopqrstuvwxyz"[k]) == "ABCDEFGHIJKLMNOPQRSTUVWXYZ"[k]
    ensures c !in "abcdefghijklmnopqrstuvwxyz" ==> Upper(c) == c
  {
    var small, capital := "abcdefghijklmnopqrstuvwxyz", "ABCDEFGHIJKLMNOPQRSTUVWXYZ";
    assert forall k :: 0 <= k < 26 ==> small[k] as int == 97 + k && capital[k] as int == 65 + k;
    if 'a' <= c <= 'z' { assert small[c as int - 97] == c; }
  }

  predicate At(s: string, pat: string, i: int) { 0 <= i <= i + |pat| <= |s| && s[i..i + |pat|] == pat }

  /** The first occurrence of pat that lies within s[lo..hi]. */
  function Find(s: string, pat: string, lo: nat, hi: nat): (r: Option<nat>)
    requires hi <= |s|
    ensures r.Some? ==> lo <= r.value && r.value + |pat| <= hi && At(s, pat, r.value)
    ensures r.Some? ==> forall j :: lo <= j < r.value ==> !At(s, pat, j)
    ensures r == None ==> forall j :: lo <= j && j + |pat| <= hi ==> !At(s, pat, j)
    decreases hi - lo
  {
    if lo + |pat| > hi then None
    else if At(s, pat, lo) then Some(lo)
    else Find(s, pat, lo + 1, hi)
  }

  lemma FindIs(s: string, pat: string, lo: nat, hi: nat, i: nat)
    requires lo <= i && i + |pat| <= hi <= |s| && At(s, pat, i)
    requires forall j :: lo <= j < i ==> !At(s, pat, j)
    ensures Find(s, pat, lo, hi) == Some(i)
  {
  }

  /** The first occurrence of a character within s[lo..hi]. */
  function FindChar(s: string, ch: char, lo: nat, hi: nat): (r: Option<nat>)
    requires hi <= |s|
    ensures r.Some? ==> lo <= r.value < hi && s[r.value] == ch
    ensures r.Some? ==> forall j :: lo <= j < r.value ==> s[j] != ch
    ensures r == None ==> forall j :: lo <= j < hi ==> s[j] != ch
    decreases hi - lo
  {
    if lo >= hi then None
    else if s[lo] == ch then Some(lo)
    else FindChar(s, ch, lo + 1, hi)
  }

  lemma FindCharIs(s: string, ch: char, lo: nat, hi: nat, i: nat)
    requires lo <= i < hi <= |s| && s[i] == ch
    requires forall j :: lo <= j < i ==> s[j] != ch
    ensures FindChar(s, ch, lo, hi) == Some(i)
  {
  }
}
