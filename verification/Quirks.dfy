/** Quirks mode of src/incoming.c: for clients known to be broken, a line is copied without the
    spaces around the callsigns of its header before anything else looks at it. */
module Quirks {
  import opened Basics

  const INERR_NO_DST: int := -2
  const INERR_EMPTY: int := -32
  const INERR_INV_PATH_CALL: int := -19

  datatype Rewritten = Bad(code: int) | Good(line: string)

  /** The byte at p; what follows the line reads as NUL. */
  function At(s: string, p: nat): char { if p < |s| then s[p] else '\0' }

  function SkipLead(s: string, p: nat): (q: nat)
    requires p <= |s|
    ensures p <= q <= |s| && (q < |s| ==> s[q] != ' ' && s[q] != '\0')
    ensures forall k :: p <= k < q ==> s[k] == ' ' || s[k] == '\0'
    decreases |s| - p
  {
    if p < |s| && (s[p] == ' ' || s[p] == '\0') then SkipLead(s, p + 1) else p
  }

  function SkipSpaces(s: string, p: nat): (q: nat)
    requires p <= |s|
    ensures p <= q <= |s| && (q < |s| ==> s[q] != ' ') && forall k :: p <= k < q ==> s[k] == ' '
    decreases |s| - p
  {
    if p < |s| && s[p] == ' ' then SkipSpaces(s, p + 1) else p
  }

  /** The end of the source call. */
  function SourceEnd(s: string, p: nat): (q: nat)
    requires p <= |s|
    ensures p <= q <= |s| && (q < |s| ==> s[q] == '>' || s[q] == ' ')
    ensures forall k :: p <= k < q ==> s[k] != '>' && s[k] != ' '
    decreases |s| - p
  {
    if p < |s| && s[p] != '>' && s[p] != ' ' then SourceEnd(s, p + 1) else p
  }

  /** The end of a path element. */
  function ElementEnd(s: string, p: nat): (q: nat)
    requires p <= |s|
    ensures p <= q <= |s| && (q < |s| ==> s[q] == ',' || s[q] == ':' || s[q] == ' ')
    ensures forall k :: p <= k < q ==> s[k] != ',' && s[k] != ':' && s[k] != ' '
    decreases |s| - p
  {
    if p < |s| && s[p] != ',' && s[p] != ':' && s[p] != ' ' then ElementEnd(s, p + 1) else p
  }

  /** What is copied from p on, in the path: elements without the spaces behind them, then the rest
      from the colon on.  None if a space is inside an element, or the line ends behind one. */
  function PathFrom(s: string, p: nat): Option<string>
    requires p <= |s|
    decreases |s| - p
  {
    if p == |s| || s[p] == ':' then Some(s[p..])
    else
      var e := ElementEnd(s, p);
      var q := SkipSpaces(s, e);
      if At(s, q) == ',' then
        var rest := PathFrom(s, q + 1);
        if rest == None then None else Some(s[p..e] + "," + rest.value)
      else if At(s, q) == ':' then Some(s[p..e] + s[q..])
      else None
  }

  function Rewrite(s: string): Rewritten {
    var b := SkipLead(s, 0);
    if b == |s| then Bad(INERR_EMPTY)
    else
      var e := SourceEnd(s, b);
      var q := SkipSpaces(s, e);
      if At(s, q) != '>' then Bad(INERR_NO_DST)
      else
        var rest := PathFrom(s, q);
        if rest == None then Bad(INERR_INV_PATH_CALL) else Good(s[b..e] + rest.value)
  }

  // ---------------------------------------------------------------- what it keeps

  function NoSpaces(s: string): string {
    if s == "" then "" else (if s[0] == ' ' then "" else [s[0]]) + NoSpaces(s[1..])
  }

  lemma {:induction false} NoSpacesConcat(a: string, b: string)
    ensures NoSpaces(a + b) == NoSpaces(a) + NoSpaces(b)
  {
    if a == "" {
      assert a + b == b;
    } else {
      assert (a + b)[1..] == a[1..] + b;
      NoSpacesConcat(a[1..], b);
    }
  }

  lemma NoSpacesCut(s: string, p: nat, q: nat)
    requires p <= q <= |s|
    ensures NoSpaces(s[p..]) == NoSpaces(s[p..q]) + NoSpaces(s[q..])
  {
    assert s[p..] == s[p..q] + s[q..];
    NoSpacesConcat(s[p..q], s[q..]);
  }

  lemma {:induction false} OnlySpaces(s: string, p: nat, q: nat)
    requires p <= q <= |s| && forall k :: p <= k < q ==> s[k] == ' '
    ensures NoSpaces(s[p..q]) == ""
    decreases q - p
  {
    if p < q {
      assert s[p..q][1..] == s[p + 1..q];
      OnlySpaces(s, p + 1, q);
    }
  }

  lemma SpacesGone(s: string, p: nat, q: nat)
    requires p <= q <= |s| && forall k :: p <= k < q ==> s[k] == ' '
    ensures NoSpaces(s[p..]) == NoSpaces(s[q..])
  {
    NoSpacesCut(s, p, q);
    OnlySpaces(s, p, q);
  }

  lemma SpacesBehind(s: string, p: nat)
    requires p <= |s|
    ensures var e := ElementEnd(s, p); e <= |s| && forall k :: e <= k < SkipSpaces(s, e) ==> s[k] == ' '
  {
  }

  lemma {:induction false} PathKeeps(s: string, p: nat)
    requires p <= |s| && PathFrom(s, p).Some?
    ensures NoSpaces(PathFrom(s, p).value) == NoSpaces(s[p..])
    decreases |s| - p
  {
    hide NoSpaces, PathFrom, ElementEnd, SkipSpaces;
    if p == |s| || s[p] == ':' {
      PathEnd(s, p);
    } else {
      PathStep(s, p);
      SpacesBehind(s, p);
      var e := ElementEnd(s, p);
      var q := SkipSpaces(s, e);
      NoSpacesCut(s, p, e);
      SpacesGone(s, e, q);
      if At(s, q) == ',' {
        PathKeeps(s, q + 1);
        NoSpacesCut(s, q, q + 1);
        assert s[q..q + 1] == ",";
        NoSpacesConcat(s[p..e] + ",", PathFrom(s, q + 1).value);
        NoSpacesConcat(s[p..e], ",");
      } else {
        NoSpacesConcat(s[p..e], s[q..]);
      }
    }
  }

  /** Nothing but spaces is taken out, behind the spaces and NULs the line starts with. */
  lemma RewriteKeeps(s: string)
    requires Rewrite(s).Good?
    ensures NoSpaces(Rewrite(s).line) == NoSpaces(s[SkipLead(s, 0)..])
    ensures |Rewrite(s).line| <= |s|
  {
    hide NoSpaces, PathFrom;
    var b := SkipLead(s, 0);
    var e := SourceEnd(s, b);
    var q := SkipSpaces(s, e);
    PathKeeps(s, q);
    PathShort(s, q);
    NoSpacesCut(s, b, e);
    SpacesGone(s, e, q);
    NoSpacesConcat(s[b..e], PathFrom(s, q).value);
  }

  lemma {:induction false} PathShort(s: string, p: nat)
    requires p <= |s| && PathFrom(s, p).Some?
    ensures |PathFrom(s, p).value| <= |s| - p
    decreases |s| - p
  {
    if p < |s| && s[p] != ':' {
      var q := SkipSpaces(s, ElementEnd(s, p));
      if At(s, q) == ',' { PathShort(s, q + 1); }
    }
  }

  function FirstColon(s: string, p: nat): (c: nat)
    requires p <= |s|
    ensures p <= c <= |s| && (c < |s| ==> s[c] == ':') && forall k :: p <= k < c ==> s[k] != ':'
    decreases |s| - p
  {
    if p < |s| && s[p] != ':' then FirstColon(s, p + 1) else p
  }

  lemma {:induction false} PathPayload(s: string, p: nat)
    requires p <= |s| && PathFrom(s, p).Some?
    ensures var v, n := PathFrom(s, p).value, |s| - FirstColon(s, p);
      n <= |v| && v[|v| - n..] == s[FirstColon(s, p)..]
    decreases |s| - p
  {
    hide PathFrom, FirstColon, ElementEnd, SkipSpaces;
    if p == |s| || s[p] == ':' {
      PathEnd(s, p);
      ColonFrom(s, p, p);
    } else {
      PathStep(s, p);
      NoColonYet(s, p);
      var e := ElementEnd(s, p);
      var q := SkipSpaces(s, e);
      if At(s, q) == ',' {
        PathPayload(s, q + 1);
        ColonFrom(s, p, q + 1);
        var c, rest := FirstColon(s, q + 1), PathFrom(s, q + 1).value;
        SuffixKept(s[p..e] + ",", rest, |s| - c);
      } else {
        ColonFrom(s, p, q);
        SuffixKept(s[p..e], s[q..], |s| - q);
      }
    }
  }

  lemma NoColonYet(s: string, p: nat)
    requires p <= |s|
    ensures var q := SkipSpaces(s, ElementEnd(s, p)); q <= |s| && forall k :: p <= k < q ==> s[k] != ':'
  {
  }

  lemma SuffixKept(a: string, b: string, n: nat)
    requires n <= |b|
    ensures (a + b)[|a + b| - n..] == b[|b| - n..]
  {
  }

  /** The first colon from p on is the first from q on, if none is in between. */
  lemma {:induction false} ColonFrom(s: string, p: nat, q: nat)
    requires p <= q <= |s| && forall k :: p <= k < q ==> s[k] != ':'
    ensures FirstColon(s, p) == FirstColon(s, q) && q <= FirstColon(s, p) <= |s|
    ensures q < |s| && s[q] == ':' ==> FirstColon(s, p) == q
    decreases q - p
  {
    if p < q { ColonFrom(s, p + 1, q); }
  }

  /** The payload is kept byte for byte: the rewritten line ends in everything from the colon on. */
  lemma PayloadKept(s: string)
    requires Rewrite(s).Good?
    ensures var q := SkipSpaces(s, SourceEnd(s, SkipLead(s, 0)));
      var t, n := Rewrite(s).line, |s| - FirstColon(s, q);
      n <= |t| && t[|t| - n..] == s[FirstColon(s, q)..]
  {
    hide PathFrom, FirstColon;
    var b := SkipLead(s, 0);
    var e := SourceEnd(s, b);
    var q := SkipSpaces(s, e);
    PathPayload(s, q);
    ColonFrom(s, q, q);
    SuffixKept(s[b..e], PathFrom(s, q).value, |s| - FirstColon(s, q));
  }

  // ---------------------------------------------------------------- what is accepted

  /** Spaces from k on end at a comma or colon. */
  ghost predicate Separates(s: string, k: nat) {
    exists m :: k < m < |s| && (s[m] == ',' || s[m] == ':') && forall j :: k <= j < m ==> s[j] == ' '
  }

  /** In the path every space is before a comma or the colon, and the path ends with one of these. */
  ghost predicate PathSound(s: string, p: nat)
    requires p <= |s|
  {
    && (forall k :: p <= k < FirstColon(s, p) && k < |s| && s[k] == ' ' ==> Separates(s, k))
    && (FirstColon(s, p) < |s| || p == |s| || s[|s| - 1] == ',')
  }

  lemma SpacesEnd(s: string, e: nat, q: nat)
    requires e < q <= |s| && (forall k :: e <= k < q ==> s[k] == ' ') && (q < |s| ==> s[q] != ' ')
    ensures Separates(s, e) <==> q < |s| && (s[q] == ',' || s[q] == ':')
    ensures forall k :: e <= k < q && Separates(s, e) ==> Separates(s, k)
  {
    if Separates(s, e) {
      var m :| e < m < |s| && (s[m] == ',' || s[m] == ':') && forall j :: e <= j < m ==> s[j] == ' ';
      assert m == q;
      forall k | e <= k < q ensures Separates(s, k) { assert k < q < |s|; }
    }
  }

  /** One element and the spaces behind it. */
  lemma ElementAccepted(s: string, p: nat)
    requires p < |s| && s[p] != ':'
    ensures var e := ElementEnd(s, p);
      var q := SkipSpaces(s, e);
      && (At(s, q) == ',' ==> (PathSound(s, p) <==> PathSound(s, q + 1)))
      && (At(s, q) == ':' ==> PathSound(s, p))
      && (At(s, q) != ',' && At(s, q) != ':' ==> !PathSound(s, p))
  {
    hide FirstColon;
    var e := ElementEnd(s, p);
    var q := SkipSpaces(s, e);
    var n := FirstColon(s, p);
    ColonFrom(s, p, q);
    if e < q { SpacesEnd(s, e, q); }
    if At(s, q) == ',' {
      ColonFrom(s, q, q + 1);
      assert forall k :: p <= k < q && s[k] == ' ' ==> Separates(s, k);
    } else if At(s, q) == ':' {
      assert forall k :: p <= k < q && s[k] == ' ' ==> Separates(s, k);
    } else if e < q {
      assert !Separates(s, e) && e < n;
    } else {
      assert q == |s| && s[|s| - 1] != ',';
    }
  }

  lemma {:induction false} PathExact(s: string, p: nat)
    requires p <= |s|
    ensures PathFrom(s, p).Some? <==> PathSound(s, p)
    decreases |s| - p
  {
    hide PathSound, ElementEnd, SkipSpaces;
    if p == |s| || s[p] == ':' {
      PathStarts(s, p);
    } else {
      ElementAccepted(s, p);
      ElementBounds(s, p);
      var q := SkipSpaces(s, ElementEnd(s, p));
      if At(s, q) == ',' { PathExact(s, q + 1); }
    }
  }

  lemma ElementBounds(s: string, p: nat)
    requires p <= |s|
    ensures p <= ElementEnd(s, p) <= SkipSpaces(s, ElementEnd(s, p)) <= |s|
  {
  }

  lemma PathStarts(s: string, p: nat)
    requires p == |s| || (p < |s| && s[p] == ':')
    ensures PathSound(s, p)
  {
  }

  /** A source call without spaces, spaces, and '>' at g. */
  ghost predicate SourceAt(s: string, b: nat, e: nat, g: nat) {
    && b <= e <= g < |s| && s[g] == '>'
    && (forall k :: b <= k < e ==> s[k] != ' ' && s[k] != '>') && (forall k :: e <= k < g ==> s[k] == ' ')
  }

  lemma SourceExact(s: string, b: nat, e: nat, g: nat)
    requires SourceAt(s, b, e, g)
    ensures SourceEnd(s, b) == e && SkipSpaces(s, e) == g
  {
    var q := SourceEnd(s, b);
    assert s[e] == '>' || s[e] == ' ';
    assert q < |s| && (s[q] == '>' || s[q] == ' ');
    var r := SkipSpaces(s, e);
    assert r < |s| && s[r] != ' ';
  }

  /** The code of a line that is refused: nothing but spaces and NULs, no source call before a '>', or a
      path with a space inside an element or without its end. */
  lemma RewriteCodes(s: string)
    ensures var r, b := Rewrite(s), SkipLead(s, 0);
      && (r == Bad(-32) <==> forall k :: 0 <= k < |s| ==> s[k] == ' ' || s[k] == '\0')
      && (r == Bad(-2) <==> b < |s| && forall e: nat, g: nat :: !SourceAt(s, b, e, g))
      && (r == Bad(-19) <==> exists e: nat, g: nat :: SourceAt(s, b, e, g) && !PathSound(s, g))
      && (r.Good? <==> exists e: nat, g: nat :: SourceAt(s, b, e, g) && PathSound(s, g))
  {
    hide PathFrom, PathSound;
    var b := SkipLead(s, 0);
    forall e: nat, g: nat | SourceAt(s, b, e, g)
      ensures SourceEnd(s, b) == e && SkipSpaces(s, e) == g && g <= |s| && (PathFrom(s, g).Some? <==> PathSound(s, g))
    {
      SourceExact(s, b, e, g);
      PathExact(s, g);
    }
    if b < |s| {
      var e := SourceEnd(s, b);
      var q := SkipSpaces(s, e);
      if At(s, q) == '>' { assert SourceAt(s, b, e, q); }
    }
  }

  // ---------------------------------------------------------------- the result is clean

  /** No space before the first colon. */
  predicate CleanPath(s: string)
    decreases |s|
  {
    s == "" || s[0] == ':' || (s[0] != ' ' && CleanPath(s[1..]))
  }

  lemma {:induction false} CleanConcat(a: string, b: string)
    requires (forall k :: 0 <= k < |a| ==> a[k] != ' ' && a[k] != ':') && CleanPath(b)
    ensures CleanPath(a + b)
  {
    if a == "" {
      assert a + b == b;
    } else {
      assert (a + b)[1..] == a[1..] + b;
      CleanConcat(a[1..], b);
    }
  }

  lemma {:induction false} PathIsClean(s: string, p: nat)
    requires p <= |s| && PathFrom(s, p).Some?
    ensures CleanPath(PathFrom(s, p).value)
    decreases |s| - p
  {
    hide PathFrom;
    if p == |s| || s[p] == ':' {
      PathEnd(s, p);
    } else {
      PathStep(s, p);
      var e := ElementEnd(s, p);
      var q := SkipSpaces(s, e);
      if At(s, q) == ',' {
        PathIsClean(s, q + 1);
        CleanConcat(s[p..e] + ",", PathFrom(s, q + 1).value);
      } else {
        CleanConcat(s[p..e], s[q..]);
      }
    }
  }

  /** A clean path is copied as it is, unless the line ends in it behind an element. */
  lemma {:induction false} CleanIsKept(s: string, p: nat)
    requires p <= |s| && CleanPath(s[p..]) && PathFrom(s, p).Some?
    ensures PathFrom(s, p) == Some(s[p..])
    decreases |s| - p
  {
    if p < |s| && s[p] != ':' {
      var e := ElementEnd(s, p);
      CleanAt(s, p, e);
      if At(s, e) == ',' {
        assert s[p..e] + "," + s[e + 1..] == s[p..];
        CleanIsKept(s, e + 1);
      } else {
        assert s[p..e] + s[e..] == s[p..];
      }
    }
  }

  /** No space ends an element of a clean path. */
  lemma {:induction false} CleanAt(s: string, p: nat, e: nat)
    requires p <= e <= |s| && CleanPath(s[p..]) && forall k :: p <= k < e ==> s[k] != ':'
    ensures CleanPath(s[e..]) && SkipSpaces(s, e) == e
    ensures e < |s| && s[e] == ',' ==> CleanPath(s[e + 1..])
    decreases e - p
  {
    if p < e {
      assert s[p..][1..] == s[p + 1..];
      CleanAt(s, p + 1, e);
    } else if e < |s| {
      assert s[e..][0] == s[e] && s[e..][1..] == s[e + 1..];
    }
  }

  /** A path that is copied is accepted when it is copied again. */
  lemma {:induction false} PathAccepted(s: string, p: nat, t: string, r: nat)
    requires p <= |s| && PathFrom(s, p).Some? && r <= |t| && t[r..] == PathFrom(s, p).value
    ensures PathFrom(t, r).Some?
    decreases |s| - p, 1
  {
    hide PathFrom;
    if p == |s| || s[p] == ':' {
      PathEnd(s, p);
      PathEnd(t, r);
    } else {
      PathAcceptedStep(s, p, t, r);
    }
  }

  lemma {:induction false} PathAcceptedStep(s: string, p: nat, t: string, r: nat)
    requires p < |s| && s[p] != ':' && PathFrom(s, p).Some? && r <= |t| && t[r..] == PathFrom(s, p).value
    ensures PathFrom(t, r).Some?
    decreases |s| - p, 0
  {
    hide PathFrom;
    PathStep(s, p);
    var e := ElementEnd(s, p);
    var q := SkipSpaces(s, e);
    var n := e - p;
    if At(s, q) == ',' {
      var rest := PathFrom(s, q + 1).value;
      assert t[r..] == s[p..e] + ("," + rest);
      SameElement(s, p, e, t, r, "," + rest);
      assert t[r + n + 1..] == t[r..][n + 1..] == rest;
      PathAccepted(s, q + 1, t, r + n + 1);
    } else {
      SameElement(s, p, e, t, r, s[q..]);
    }
    if t[r] == ':' { PathEnd(t, r); } else { PathStep(t, r); }
  }

  lemma SameElement(s: string, p: nat, e: nat, t: string, r: nat, tail: string)
    requires p <= e <= |s| && r <= |t| && t[r..] == s[p..e] + tail && tail != "" && (tail[0] == ',' || tail[0] == ':')
    requires forall k :: p <= k < e ==> s[k] != ',' && s[k] != ':' && s[k] != ' '
    ensures r + (e - p) < |t| && t[r + (e - p)] == tail[0] && ElementEnd(t, r) == r + (e - p)
    ensures SkipSpaces(t, r + (e - p)) == r + (e - p)
    ensures e > p ==> t[r] == s[p]
  {
    var n := e - p;
    assert |t| - r == n + |tail|;
    forall i | r <= i < r + n ensures t[i] == s[p + (i - r)] { assert t[r..][i - r] == s[p..e][i - r]; }
    assert t[r..][n] == tail[0];
    ElementEndIs(t, r, r + n);
  }

  lemma {:induction false} ElementEndIs(t: string, r: nat, e: nat)
    requires r <= e < |t| && (t[e] == ',' || t[e] == ':')
    requires forall k :: r <= k < e ==> t[k] != ',' && t[k] != ':' && t[k] != ' '
    ensures ElementEnd(t, r) == e
    decreases e - r
  {
    if r < e { ElementEndIs(t, r + 1, e); }
  }

  lemma {:induction false} SourceEndIs(t: string, r: nat, e: nat)
    requires r <= e < |t| && t[e] == '>' && forall k :: r <= k < e ==> t[k] != '>' && t[k] != ' '
    ensures SourceEnd(t, r) == e
    decreases e - r
  {
    if r < e { SourceEndIs(t, r + 1, e); }
  }

  /** The path starts with the '>' it was found at. */
  lemma PathStart(s: string, q: nat)
    requires q < |s| && s[q] == '>' && PathFrom(s, q).Some?
    ensures PathFrom(s, q).value != "" && PathFrom(s, q).value[0] == '>'
  {
    var e := ElementEnd(s, q);
    assert s[q..e][0] == '>';
  }

  /** Rewriting twice is rewriting once: what comes out has no spaces left to remove. */
  lemma RewriteTwice(s: string)
    requires Rewrite(s).Good?
    ensures Rewrite(Rewrite(s).line) == Rewrite(s)
  {
    hide PathFrom, CleanPath;
    var b := SkipLead(s, 0);
    var e := SourceEnd(s, b);
    var q := SkipSpaces(s, e);
    var rest, t := PathFrom(s, q).value, Rewrite(s).line;
    PathStart(s, q);
    var n := e - b;
    assert t == s[b..e] + rest && t[n..] == rest && t[n] == '>';
    forall k | 0 <= k < n ensures t[k] == s[b + k] {}
    LeadKept(s, b, e, t);
    SourceEndIs(t, 0, n);
    assert SkipSpaces(t, n) == n;
    PathAccepted(s, q, t, n);
    PathIsClean(s, q);
    CleanIsKept(t, n);
    assert t[0..n] + t[n..] == t;
  }

  lemma LeadKept(s: string, b: nat, e: nat, t: string)
    requires b == SkipLead(s, 0) && b < |s| && b <= e <= |s| && t != "" && (e > b ==> t[0] == s[b])
    requires e == b ==> t[0] == '>'
    ensures SkipLead(t, 0) == 0
  {
  }

  // ---------------------------------------------------------------- the code

  /** The copying loops; out is the rewritten packet up to np. */
  method QuirkRewrite(s: string) returns (r: Rewritten)
    ensures r == Rewrite(s)
  {
    hide PathFrom;
    var p := ScanLead(s);
    if p == |s| { return Bad(INERR_EMPTY); }
    var from := p;
    p := ScanSource(s, p);
    var out := s[from..p];
    p := ScanSpaces(s, p);
    if At(s, p) != '>' { return Bad(INERR_NO_DST); }
    var rest := CopyPath(s, p);
    if rest == None { return Bad(INERR_INV_PATH_CALL); }
    return Good(out + rest.value);
  }

  method ScanLead(s: string) returns (p: nat)
    ensures p == SkipLead(s, 0)
  {
    p := 0;
    while p < |s| && (s[p] == ' ' || s[p] == '\0')
      invariant p <= |s| && SkipLead(s, 0) == SkipLead(s, p)
    {
      p := p + 1;
    }
  }

  method ScanSource(s: string, from: nat) returns (p: nat)
    requires from <= |s|
    ensures p == SourceEnd(s, from)
  {
    p := from;
    while p < |s| && s[p] != '>' && s[p] != ' '
      invariant from <= p <= |s| && SourceEnd(s, from) == SourceEnd(s, p)
    {
      p := p + 1;
    }
  }

  method ScanSpaces(s: string, from: nat) returns (p: nat)
    requires from <= |s|
    ensures p == SkipSpaces(s, from)
  {
    p := from;
    while p < |s| && s[p] == ' '
      invariant from <= p <= |s| && SkipSpaces(s, from) == SkipSpaces(s, p)
    {
      p := p + 1;
    }
  }

  method ScanElement(s: string, from: nat) returns (p: nat)
    requires from <= |s|
    ensures p == ElementEnd(s, from)
  {
    p := from;
    while p < |s| && s[p] != ',' && s[p] != ':' && s[p] != ' '
      invariant from <= p <= |s| && ElementEnd(s, from) == ElementEnd(s, p)
    {
      p := p + 1;
    }
  }

  function Prefixed(head: string, rest: Option<string>): Option<string> {
    if rest == None then None else Some(head + rest.value)
  }

  lemma PathStep(s: string, p: nat)
    requires p < |s| && s[p] != ':'
    ensures var e := ElementEnd(s, p);
      var q := SkipSpaces(s, e);
      && p <= e <= q <= |s|
      && PathFrom(s, p) == (if At(s, q) == ',' then Prefixed(s[p..e] + ",", PathFrom(s, q + 1))
                            else if At(s, q) == ':' then Some(s[p..e] + s[q..]) else None)
      && (At(s, q) == ':' ==> q < |s| && PathFrom(s, q) == Some(s[q..]))
  {
  }

  lemma PrefixedTwice(a: string, b: string, rest: Option<string>)
    ensures Prefixed(a, Prefixed(b, rest)) == Prefixed(a + b, rest)
  {
    if rest.Some? { assert a + (b + rest.value) == a + b + rest.value; }
  }

  lemma PrefixedNone(rest: Option<string>)
    ensures Prefixed("", rest) == rest
  {
    if rest.Some? { assert "" + rest.value == rest.value; }
  }

  lemma PathEnd(s: string, p: nat)
    requires p <= |s| && (p == |s| || s[p] == ':')
    ensures PathFrom(s, p) == Some(s[p..])
  {
  }

  /** The path loop, and the copy of the rest. */
  method CopyPath(s: string, from: nat) returns (r: Option<string>)
    requires from <= |s|
    ensures r == PathFrom(s, from)
  {
    hide PathFrom;
    var p, out := from, "";
    PrefixedNone(PathFrom(s, p));
    while p < |s| && s[p] != ':'
      invariant from <= p <= |s| && PathFrom(s, from) == Prefixed(out, PathFrom(s, p))
      decreases |s| - p, if p < |s| && s[p] == ':' then 0 else 1
    {
      PathStep(s, p);
      var e := ScanElement(s, p);
      var q := ScanSpaces(s, e);
      ghost var out0 := out;
      if q < |s| && s[q] == ',' {
        PrefixedTwice(out, s[p..e] + ",", PathFrom(s, q + 1));
        out := out + (s[p..e] + ",");
        p := q + 1;
      } else if At(s, q) == ':' {
        PrefixedTwice(out, s[p..e], Some(s[q..]));
        out := out + s[p..e];
        p := q;
      } else {
        return None;
      }
    }
    PathEnd(s, p);
    r := Some(out + s[p..]);
  }
}
