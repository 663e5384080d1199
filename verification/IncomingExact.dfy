/** What the conditions of incoming_parse mean on the text of a line: its parts, the fields of its
    path, and what a client's own packet is turned into. */
module IncomingExact {
  import opened Basics
  import opened Text
  import opened QCalls
  import opened QConstruct
  import opened Incoming
  import QHeader
  import QOutput

  // ---------------------------------------------------------------- the parts of a line

  /** SRC>DST,VIA:INFO with acceptable callsigns, nothing missing, and not too short. */
  ghost predicate Line(pol: Policy, s: string, src: string, dst: string, via: string, info: string) {
    && s == src + ">" + dst + via + ":" + info && |s| >= 8
    && ValidSrcDst(src) && ValidSrcDst(dst) && !DisallowedSource(src) && !pol.srcGlob(src)
    && (via == "" || via[0] == ',') && ':' !in via && info != ""
  }

  /** The same by positions. */
  ghost predicate Cuts(s: string, src: nat, via: nat, colon: nat) {
    && src < via <= colon < |s| && s[src] == '>' && s[colon] == ':'
    && (forall k :: 0 <= k < colon ==> s[k] != ':') && (forall k :: 0 <= k < src ==> s[k] != '>')
    && (forall k :: src < k < via ==> s[k] != ',') && (via < colon ==> s[via] == ',')
  }

  lemma DstStopIs(s: string, i: nat, hi: nat, ssid: bool, j: nat)
    requires i <= j <= hi <= |s|
    requires forall k :: i <= k < j ==> s[k] != ',' && s[k] != ':' && (ssid ==> s[k] != '-')
    requires j < hi ==> s[j] == ',' || s[j] == ':' || (ssid && s[j] == '-')
    ensures DstStop(s, i, hi, ssid) == j
  {
  }

  lemma LineCuts(pol: Policy, s: string, src: string, dst: string, via: string, info: string)
    requires Line(pol, s, src, dst, via, info)
    ensures var a := |src|;
      var b := a + 1 + |dst|;
      var z := b + |via|;
      && Cuts(s, a, b, z) && s[..a] == src && s[a + 1..b] == dst && s[b..z] == via && s[z + 1..] == info
      && z + 1 < |s| && |s| >= 8 && a <= 9
  {
    hide ValidSrcDst, DisallowedSource;
    ShortCall(src);
    ValidHasNo(src, ':');
    ValidHasNo(src, '>');
    ValidHasNo(dst, ':');
    ValidHasNo(dst, ',');
    var a := |src|;
    var b := a + 1 + |dst|;
    var z := b + |via|;
    assert s[..a] == src && s[a + 1..b] == dst && s[b..z] == via && s[z + 1..] == info;
    forall k | 0 <= k < z ensures s[k] != ':' && (k < a ==> s[k] != '>') && (a < k < b ==> s[k] != ',') {
      if k < a { assert s[k] == src[k]; }
      if a < k < b { assert s[k] == dst[k - a - 1]; }
      if b <= k { assert s[k] == via[k - b]; }
    }
  }

  lemma ShortCall(call: string)
    requires ValidSrcDst(call)
    ensures |call| <= 9
  {
  }

  lemma LineCalls(pol: Policy, s: string, src: string, dst: string, via: string, info: string)
    requires Line(pol, s, src, dst, via, info)
    ensures ValidSrcDst(src) && ValidSrcDst(dst) && !DisallowedSource(src) && !pol.srcGlob(src)
  {
  }

  lemma SliceAt(pol: Policy, s: string, a: nat, b: nat, z: nat)
    requires Cuts(s, a, b, z) && z + 1 < |s| && |s| >= 8 && a <= 9
    requires ValidSrcDst(s[..a]) && ValidSrcDst(s[a + 1..b]) && !DisallowedSource(s[..a]) && !pol.srcGlob(s[..a])
    ensures Slice(pol, s) == Good(a, a + 1 + BodyLen(s[a + 1..b]), b, z)
  {
    hide ValidSrcDst, DisallowedSource, BodyLen, DstStop, FindChar;
    FindCharIs(s, ':', 0, |s|, z);
    FindCharIs(s, '>', 0, Min(z, 10), a);
    DstEnds(s, a, b, z);
  }

  lemma DstEnds(s: string, a: nat, b: nat, z: nat)
    requires Cuts(s, a, b, z)
    ensures var ssid := a + 1 + BodyLen(s[a + 1..b]);
      ssid <= z && DstStop(s, a + 1, z, true) == ssid && DstStop(s, ssid, z, false) == b
  {
    hide DstStop;
    var dst := s[a + 1..b];
    var n := BodyLen(dst);
    assert forall k :: a < k < b ==> s[k] == dst[k - a - 1];
    DstStopIs(s, a + 1, z, true, a + 1 + n);
    DstStopIs(s, a + 1 + n, z, false, b);
  }

  /** A line is sliced exactly if it has these parts, and then into them. */
  lemma SliceExact(pol: Policy, s: string)
    ensures Slice(pol, s).Good? <==> exists src, dst, via, info :: Line(pol, s, src, dst, via, info)
    ensures forall src, dst, via, info :: Line(pol, s, src, dst, via, info) ==>
      Slice(pol, s) == Good(|src|, |src| + 1 + BodyLen(dst), |src| + 1 + |dst|, |src| + 1 + |dst| + |via|)
  {
    hide Line, Slice, BodyLen;
    forall src, dst, via, info | Line(pol, s, src, dst, via, info)
      ensures Slice(pol, s) == Good(|src|, |src| + 1 + BodyLen(dst), |src| + 1 + |dst|, |src| + 1 + |dst| + |via|)
    {
      LineSliced(pol, s, src, dst, via, info);
    }
    if Slice(pol, s).Good? { SlicedLine(pol, s); }
  }

  lemma LineSliced(pol: Policy, s: string, src: string, dst: string, via: string, info: string)
    requires Line(pol, s, src, dst, via, info)
    ensures Slice(pol, s) == Good(|src|, |src| + 1 + BodyLen(dst), |src| + 1 + |dst|, |src| + 1 + |dst| + |via|)
  {
    hide Line, Slice, Cuts, DisallowedSource, ValidSrcDst, BodyLen;
    LineCuts(pol, s, src, dst, via, info);
    LineCalls(pol, s, src, dst, via, info);
    SliceAt(pol, s, |src|, |src| + 1 + |dst|, |src| + 1 + |dst| + |via|);
  }

  lemma SlicedLine(pol: Policy, s: string)
    requires Slice(pol, s).Good?
    ensures exists src, dst, via, info :: Line(pol, s, src, dst, via, info)
  {
    hide ValidSrcDst, DisallowedSource, Slice, BodyLen;
    SlicedHeader(pol, s);
    SlicedCalls(pol, s);
    var g := Slice(pol, s);
    var src, dst, via, info := s[..g.srcEnd], s[g.srcEnd + 1..g.viaStart], s[g.viaStart..g.colon], s[g.colon + 1..];
    assert s == src + ">" + dst + via + ":" + info;
    assert Line(pol, s, src, dst, via, info);
  }

  lemma SlicedCalls(pol: Policy, s: string)
    requires Slice(pol, s).Good?
    ensures var g := Slice(pol, s);
      && g.srcEnd < g.viaStart <= g.colon && g.colon + 1 < |s| && |s| >= 8
      && ValidSrcDst(s[..g.srcEnd]) && ValidSrcDst(s[g.srcEnd + 1..g.viaStart])
      && !DisallowedSource(s[..g.srcEnd]) && !pol.srcGlob(s[..g.srcEnd])
  {
    hide ValidSrcDst, DisallowedSource;
  }

  /** Every code of the slicing, and that "no path" is never given. */
  lemma SliceCodes(pol: Policy, s: string)
    ensures var r := Slice(pol, s);
      && (r == Bad(-17) <==> |s| < 8)
      && (r == Bad(-1) <==> |s| >= 8 && ':' !in s)
      && (r == Bad(-2) <==> |s| >= 8 && ':' in s && forall k :: 0 <= k < |s| && s[k] == '>' ==> k > 9 || ':' in s[..k])
      && r != Bad(-3)
      && (r.Bad? ==> r.code in {-17, -1, -2, -4, -33, -5, -6})
  {
    hide ValidSrcDst, DisallowedSource;
    var colon := FindChar(s, ':', 0, |s|);
    if colon.Some? && |s| >= 8 {
      var z := colon.value;
      assert s[z] in s;
      forall k | 0 <= k < |s| ensures ':' in s[..k] <==> z < k {
        if z < k { assert s[..k][z] == ':'; }
      }
    }
  }

  /** The source call's own codes: it is invalid, or not accepted here. */
  lemma SourceCodes(pol: Policy, s: string, src: string, rest: string)
    requires s == src + ">" + rest && |s| >= 8 && ':' in rest && ':' !in src && '>' !in src && |src| <= 9
    ensures Slice(pol, s) == Bad(-4) <==> !ValidSrcDst(src)
    ensures Slice(pol, s) == Bad(-33) <==>
      ValidSrcDst(src) && ("N0CALL" <= src || "NOCALL" <= src || "SERVER" <= src || pol.srcGlob(src))
  {
    hide ValidSrcDst;
    var a := |src|;
    assert s[..a] == src;
    var colon := FindChar(s, ':', 0, |s|);
    assert forall k :: 0 <= k < a ==> s[k] == src[k] && s[k] in src;
    var j :| 0 <= j < |rest| && rest[j] == ':';
    assert s[a + 1 + j] == ':';
    FindCharIs(s, '>', 0, Min(colon.value, 10), a);
  }

  // ---------------------------------------------------------------- the fields of a path

  /** s[a..b] is a field of the text between from and end. */
  ghost predicate Field(s: string, from: nat, end: nat, a: int, b: int) {
    && from <= a <= b <= end <= |s| && a < end
    && (a == from || s[a - 1] == ',') && (b == end || s[b] == ',') && (forall k :: a <= k < b ==> s[k] != ',')
  }

  /** The first field, and the fields behind it. */
  lemma FieldSplit(s: string, from: nat, end: nat, a: int, b: int)
    requires from < end <= |s|
    ensures Field(s, from, end, from, FieldEnd(s, from, end))
    ensures Field(s, from, end, a, b) <==>
            (a == from && b == FieldEnd(s, from, end)) || Field(s, FieldEnd(s, from, end) + 1, end, a, b)
  {
    var e := FieldEnd(s, from, end);
    if Field(s, from, end, a, b) && a > from {
      assert a > e;
    }
    if Field(s, e + 1, end, a, b) {
      assert s[e] == ',';
    }
  }

  ghost predicate FieldBarred(pol: Policy, s: string, from: nat, end: nat, a: int, b: int) {
    Field(s, from, end, a, b) && pol.igateGlob(s[a..b])
  }

  /** An igate call is refused exactly if some field from the construct on matches the pattern. */
  lemma {:induction false} IgateExact(pol: Policy, s: string, p: nat, end: nat)
    requires end <= |s|
    ensures IgateDisallowed(pol, s, p, end) <==> exists a, b :: FieldBarred(pol, s, p, end, a, b)
    decreases end - p
  {
    hide Field, FieldEnd;
    if p < end {
      FieldEndBounds(s, p, end);
      var e := FieldEnd(s, p, end);
      var next := e + 1;
      IgateExact(pol, s, next, end);
      forall a, b ensures Field(s, p, end, a, b) <==> (a == p && b == e) || Field(s, next, end, a, b) {
        FieldSplit(s, p, end, a, b);
      }
      if a, b :| FieldBarred(pol, s, next, end, a, b) {
        assert FieldBarred(pol, s, p, end, a, b);
      }
      if a, b :| FieldBarred(pol, s, p, end, a, b) {
        assert (a == p && b == e) || FieldBarred(pol, s, next, end, a, b);
      }
      assert FieldBarred(pol, s, p, end, p, e) <==> pol.igateGlob(s[p..e]);
    } else {
      forall a, b ensures !FieldBarred(pol, s, p, end, a, b) { NoFields(s, p, end, a, b); }
    }
  }

  lemma FieldEndBounds(s: string, p: nat, end: nat)
    requires p <= end <= |s|
    ensures p <= FieldEnd(s, p, end) <= end
  {
  }

  lemma NoFields(s: string, p: nat, end: nat, a: int, b: int)
    requires p >= end
    ensures !Field(s, p, end, a, b)
  {
  }

  /** A three letter word that starts with q. */
  predicate QWord(s: string, a: int, b: int) { 0 <= a < |s| && s[a] == 'q' && b - a == 3 }

  ghost predicate QBefore(s: string, from: nat, end: nat, a: int) {
    exists x, y :: Field(s, from, end, x, y) && y < a && QWord(s, x, y)
  }

  ghost predicate FieldOk(s: string, from: nat, end: nat, afterQ: bool, a: int, b: int)
    requires Field(s, from, end, a, b)
  {
    QWord(s, a, b) || ValidPathCall(s[a..b], afterQ || QBefore(s, from, end, a))
  }

  /** A path is accepted exactly if every field is a q word or a valid call, where calls behind a q
      word may be addresses of 32 characters. */
  lemma {:induction false} PathExact(s: string, p: nat, end: nat, afterQ: bool)
    requires end <= |s|
    ensures PathOk(s, p, end, afterQ) <==> forall a, b :: Field(s, p, end, a, b) ==> FieldOk(s, p, end, afterQ, a, b)
    decreases end - p
  {
    hide Field, FieldEnd, FieldOk, PathOk;
    if p < end {
      PathStep(s, p, end, afterQ);
      var e := FieldEnd(s, p, end);
      var q := afterQ || QWord(s, p, e);
      PathExact(s, e + 1, end, q);
      FirstOk(s, p, end, afterQ);
      forall a, b
        ensures Field(s, p, end, a, b) <==> (a == p && b == e) || Field(s, e + 1, end, a, b)
        ensures Field(s, e + 1, end, a, b) ==>
                  Field(s, p, end, a, b) && (FieldOk(s, p, end, afterQ, a, b) <==> FieldOk(s, e + 1, end, q, a, b))
      {
        FieldSplit(s, p, end, a, b);
        if Field(s, e + 1, end, a, b) { LaterOk(s, p, end, afterQ, a, b); }
      }
      assert Field(s, p, end, p, e);
      assert PathOk(s, p, end, afterQ) <==> FieldOk(s, p, end, afterQ, p, e) && PathOk(s, e + 1, end, q);
      if PathOk(s, e + 1, end, q) {
        forall a, b | Field(s, e + 1, end, a, b) ensures FieldOk(s, p, end, afterQ, a, b) {}
      } else {
        var a, b :| Field(s, e + 1, end, a, b) && !FieldOk(s, e + 1, end, q, a, b);
        assert Field(s, p, end, a, b) && !FieldOk(s, p, end, afterQ, a, b);
      }
    } else {
      PathDone(s, p, end, afterQ);
      forall a, b ensures !Field(s, p, end, a, b) { NoFields(s, p, end, a, b); }
    }
  }

  lemma FirstOk(s: string, p: nat, end: nat, afterQ: bool)
    requires p < end <= |s|
    ensures var e := FieldEnd(s, p, end);
      Field(s, p, end, p, e) && (FieldOk(s, p, end, afterQ, p, e) <==> QWord(s, p, e) || ValidPathCall(s[p..e], afterQ))
  {
    hide ValidPathCall;
    FieldSplit(s, p, end, p, p);
  }

  lemma LaterOk(s: string, p: nat, end: nat, afterQ: bool, a: int, b: int)
    requires p < end <= |s| && Field(s, FieldEnd(s, p, end) + 1, end, a, b)
    ensures var e := FieldEnd(s, p, end);
      && Field(s, p, end, a, b)
      && (FieldOk(s, p, end, afterQ, a, b) <==> FieldOk(s, e + 1, end, afterQ || QWord(s, p, e), a, b))
  {
    hide Field, ValidPathCall, FieldEnd;
    var e := FieldEnd(s, p, end);
    FieldSplit(s, p, end, a, b);
    FieldStart(s, e + 1, end, a, b);
    if QWord(s, p, e) { FieldSplit(s, p, end, p, e); }
    if x, y :| Field(s, e + 1, end, x, y) && y < a && QWord(s, x, y) {
      FieldSplit(s, p, end, x, y);
      assert Field(s, p, end, x, y);
    }
    if x, y :| Field(s, p, end, x, y) && y < a && QWord(s, x, y) {
      FieldSplit(s, p, end, x, y);
    }
  }

  lemma FieldStart(s: string, from: nat, end: nat, a: int, b: int)
    requires Field(s, from, end, a, b)
    ensures from <= a
  {
  }

  // ---------------------------------------------------------------- pointers into a packet

  /** In a forwarded packet '>' ends the source call, the construct starts behind a comma and the payload
      behind a colon, and the payload is the one received. */
  lemma PointersMean(cfg: Config, c: Client, pol: Policy, s: string, haveBuffer: bool, r: Outcome)
    requires Judged(cfg, c, pol, s, haveBuffer, r) && r.Forwarded?
    ensures var pb, g := r.pb, Slice(pol, s);
      && pb.srcEnd < pb.ssid <= pb.dstEnd < pb.qconst < pb.info <= |pb.data|
      && pb.data[pb.srcEnd] == '>' && pb.data[pb.qconst - 1] == ',' && pb.data[pb.info - 1] == ':'
      && pb.data[pb.info..] == s[g.colon + 1..] + "\r\n" && pb.data[..pb.dstEnd] == s[..pb.dstEnd]
  {
    hide Slice, Routed, Judged, BarredIgate;
    SlicedWhenForwarded(cfg, c, pol, s, haveBuffer, r);
    SlicedHeader(pol, s);
    var g, out := Slice(pol, s), Routed(cfg, c, pol, s);
    RoutedBehindComma(cfg, c, pol, s);
    DataParts(s, g, out, r.pb.data);
  }

  /** What a forwarded packet is made of. */
  lemma SlicedWhenForwarded(cfg: Config, c: Client, pol: Policy, s: string, haveBuffer: bool, r: Outcome)
    requires Judged(cfg, c, pol, s, haveBuffer, r) && r.Forwarded?
    ensures Slice(pol, s).Good? && var g, out := Slice(pol, s), Routed(cfg, c, pol, s);
      && 0 < g.srcEnd < g.viaStart <= g.colon < |s| && Bounds(s, g.viaStart, g.colon, out)
      && HasConstruct(out, g.viaStart)
      && r.pb == PacketOf(cfg, c, s, g, c.username == s[..g.srcEnd], out)
  {
    hide Slice, Routed, CleanHeader, BarredIgate, PacketOf, NewLen;
  }

  lemma RoutedBehindComma(cfg: Config, c: Client, pol: Policy, s: string)
    requires Slice(pol, s).Good?
    ensures var out := Routed(cfg, c, pol, s);
      && (out.Keep? && out.qStart == Unset && out.text != "" ==> out.text[0] == ',')
      && (out.Keep? && out.qStart.At? ==> 1 <= out.qStart.i <= |out.s| && out.s[out.qStart.i - 1] == ',')
  {
    hide Slice, QSpec;
    SlicedHeader(pol, s);
    var g := Slice(pol, s);
    QHeader.StartsBehindComma(cfg, c, s, g.viaStart, g.colon, c.username == s[..g.srcEnd]);
  }

  lemma DataParts(s: string, g: Parsed, out: QOut, data: string)
    requires g.Good? && Bounds(s, g.viaStart, g.colon, out) && data == Reassembled(out, s, g.colon)
    requires g.srcEnd < g.viaStart
    ensures var n := CutOf(out) + |out.text|;
      && data[..g.viaStart] == s[..g.viaStart] && data[g.srcEnd] == s[g.srcEnd]
      && n + 1 <= |data| && data[n] == s[g.colon] && data[n + 1..] == s[g.colon + 1..] + "\r\n"
      && (out.text != "" ==> data[CutOf(out)] == out.text[0])
      && (forall i :: 0 <= i < CutOf(out) ==> data[i] == out.s[i])
  {
    var head := out.s[..CutOf(out)];
    var n := |head| + |out.text|;
    assert data == head + out.text + s[g.colon..] + "\r\n";
    assert data[..g.viaStart] == head[..g.viaStart] == s[..g.viaStart];
    assert data[g.srcEnd] == data[..g.viaStart][g.srcEnd];
    assert data[n + 1..] == s[g.colon..][1..] + "\r\n";
  }

  // ---------------------------------------------------------------- a client's own packet, end to end

  /** What the line LOGIN>DST,VIA:INFO is sent on as. */
  function OwnData(cfg: Config, c: Client, dst: string, info: string): string {
    c.username + ">" + dst + (if c.validated then ",TCPIP*" else ",TCPXX*")
    + QHeader.Q(cfg, if c.validated then 'C' else 'X', cfg.serverId) + ":" + info + "\r\n"
  }

  lemma OwnKeep(cfg: Config, c: Client, s: string, viaStart: nat, pathLen: nat)
    requires Header(s, viaStart, pathLen) && Locate(s, viaStart, pathLen).Absent? && !c.udpSubmit
    ensures QSpec(cfg, c, s, viaStart, pathLen, true) ==
      Keep((if c.validated then ",TCPIP*" else ",TCPXX*")
           + QHeader.Q(cfg, if c.validated then 'C' else 'X', cfg.serverId), pathLen, Unset, Some(viaStart), s)
  {
  }

  lemma OwnRouted(cfg: Config, c: Client, pol: Policy, s: string, dst: string, via: string, info: string)
    requires Line(pol, s, c.username, dst, via, info) && !c.udpSubmit
    requires forall at :: 0 <= at < |via| ==> !Text.At(via, ",q", at)
    ensures var b := |c.username| + 1 + |dst|;
      && Slice(pol, s) == Good(|c.username|, |c.username| + 1 + BodyLen(dst), b, b + |via|)
      && s[..|c.username|] == c.username && s[..b] == c.username + ">" + dst && s[b + |via|..] == ":" + info
      && Routed(cfg, c, pol, s) ==
           Keep((if c.validated then ",TCPIP*" else ",TCPXX*")
                + QHeader.Q(cfg, if c.validated then 'C' else 'X', cfg.serverId), b + |via|, Unset, Some(b), s)
  {
    hide Line, Slice, QSpec, Routed, Locate, BodyLen, QHeader.Q, Header, Text.At;
    LineSliced(pol, s, c.username, dst, via, info);
    LineText(pol, s, c.username, dst, via, info);
    SlicedHeader(pol, s);
    var b := |c.username| + 1 + |dst|;
    var z := b + |via|;
    NoQInPath(s, b, z);
    RoutedIs(cfg, c, pol, s, |c.username|, b, z);
    OwnKeep(cfg, c, s, b, z);
  }

  lemma RoutedIs(cfg: Config, c: Client, pol: Policy, s: string, src: nat, b: nat, z: nat)
    requires var g := Slice(pol, s); g.Good? && g.srcEnd == src && g.viaStart == b && g.colon == z
    requires src <= |s| && s[..src] == c.username && Header(s, b, z)
    ensures Routed(cfg, c, pol, s) == QSpec(cfg, c, s, b, z, true)
  {
    hide Slice, QSpec, Header;
    SlicedHeader(pol, s);
  }

  lemma NoQInPath(s: string, b: nat, z: nat)
    requires Header(s, b, z) && forall at :: 0 <= at < |s[b..z]| ==> !Text.At(s[b..z], ",q", at)
    ensures Locate(s, b, z).Absent?
  {
    hide Locate;
    var via := s[b..z];
    forall at | b <= at && at + 2 <= z ensures !Text.At(s, ",q", at) {
      var i := at - b;
      assert !Text.At(via, ",q", i);
      assert via[i..i + 2] == [via[i], via[i + 1]] == [s[at], s[at + 1]] == s[at..at + 2];
    }
    QHeader.NoneFound(s, b, z);
  }

  lemma LineText(pol: Policy, s: string, src: string, dst: string, via: string, info: string)
    requires Line(pol, s, src, dst, via, info)
    ensures var b := |src| + 1 + |dst|;
      && b + |via| <= |s| && s[..|src|] == src && s[..b] == src + ">" + dst && s[b..b + |via|] == via
      && s[b + |via|..] == ":" + info
  {
    hide ValidSrcDst, DisallowedSource;
  }

  /** An inbound client's own packet without a construct, if its header is clean: it is refused if it
      comes to more than 511 bytes or no buffer is to be had, and is otherwise forwarded with the path
      replaced by a marker and a construct that tell whether the client is verified. */
  lemma OwnLineForwarded(cfg: Config, c: Client, pol: Policy, s: string, dst: string, via: string, info: string,
                         haveBuffer: bool, r: Outcome)
    requires Line(pol, s, c.username, dst, via, info) && Inbound(c) && !c.udpSubmit && !c.dupeFeed
    requires forall at :: 0 <= at < |via| ==> !Text.At(via, ",q", at)
    requires Enters(pol, s) && Judged(cfg, c, pol, s, haveBuffer, r)
    ensures var data := OwnData(cfg, c, dst, info);
      && (|data| > 511 ==> r == Rejected(-18))
      && (|data| <= 511 && !haveBuffer ==> r == Rejected(-13))
      && (|data| <= 511 && haveBuffer ==> r.Forwarded? && r.pb.data == data && !r.pb.dupe)
  {
    hide Line, Slice, Routed, Judged, Enters, QHeader.Q, BodyLen;
    OwnRouted(cfg, c, pol, s, dst, via, info);
    var g, out := Slice(pol, s), Routed(cfg, c, pol, s);
    JudgedKept(cfg, c, pol, s, haveBuffer, r);
    assert Reassembled(out, s, g.colon) == OwnData(cfg, c, dst, info);
  }

  lemma JudgedKept(cfg: Config, c: Client, pol: Policy, s: string, haveBuffer: bool, r: Outcome)
    requires Judged(cfg, c, pol, s, haveBuffer, r) && Enters(pol, s) && Routed(cfg, c, pol, s).Keep?
    ensures var g, out := Slice(pol, s), Routed(cfg, c, pol, s);
      && g.srcEnd <= |s| && Bounds(s, g.viaStart, g.colon, out)
      && JudgedRouted(cfg, c, pol, s, haveBuffer, g, out, r)
  {
    hide Slice, Routed, CleanHeader, JudgedRouted;
  }
}
