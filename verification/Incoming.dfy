/** incoming_parse of src/incoming.c: slicing of a received line, the path checks, and the
    reassembly of the packet around the q construct, up to the APRS parser. */
module Incoming {
  import opened Basics
  import opened Text
  import opened QCalls
  import opened QConstruct
  import QOutput
  import Quirks

  const PACKETLEN_MIN: nat := 10

  const INERR_NO_COLON: int := -1
  const INERR_NO_DST: int := -2
  const INERR_NO_PATH: int := -3
  const INERR_INV_SRCCALL: int := -4
  const INERR_NO_BODY: int := -5
  const INERR_INV_DSTCALL: int := -6
  const INERR_DISALLOW_UNVERIFIED: int := -7
  const INERR_DISALLOW_UNVERIFIED_PATH: int := -8
  const INERR_NOGATE: int := -9
  const INERR_3RD_PARTY_IP: int := -10
  const INERR_GENERAL_QUERY: int := -12
  const INERR_OUT_OF_PBUFS: int := -13
  const INERR_CLASS_FAIL: int := -14
  const INERR_Q_BUG: int := -15
  const INERR_SHORT_PACKET: int := -17
  const INERR_LONG_PACKET: int := -18
  const INERR_INV_PATH_CALL: int := -19
  const INERR_DIS_SRCCALL: int := -33
  const INERR_DIS_IGATECALL: int := -36

  // ---------------------------------------------------------------- callsigns

  /** The length of the part before the SSID. */
  function BodyLen(call: string): (n: nat)
    ensures n <= |call| && (n < |call| ==> call[n] == '-')
    ensures forall i :: 0 <= i < n ==> call[i] != '-'
  {
    if call == "" || call[0] == '-' then 0 else 1 + BodyLen(call[1..])
  }

  predicate AllAlNum(s: string, lo: nat, hi: nat)
    requires hi <= |s|
  {
    forall i :: lo <= i < hi ==> AlNum(s[i])
  }

  predicate ValidSrcDst(call: string) {
    var n := BodyLen(call);
    && 1 <= |call| <= CALLSIGNLEN_MAX && AllAlNum(call, 0, n)
    && (n < |call| ==> n + 1 < |call| && AllAlNum(call, n + 1, |call|))
  }

  predicate ValidPathCall(text: string, afterQ: bool) {
    var call := if |text| > 1 && text[|text| - 1] == '*' then text[..|text| - 1] else text;
    var n := BodyLen(call);
    && (1 <= |call| <= CALLSIGNLEN_MAX || (|call| == 32 && afterQ)) && AllAlNum(call, 0, n)
    && (n < |call| ==> 1 <= |call| - n - 1 <= 2 && call[n + 1] != '0' && AllAlNum(call, n + 1, |call|))
  }

  /** The two loops over a callsign: stops at the SSID, or at a bad character. */
  method ScanAlNum(call: string, from: nat, stopAtDash: bool) returns (ok: bool, i: nat)
    requires from <= |call|
    ensures from <= i <= |call|
    ensures ok ==> AllAlNum(call, from, i) && (i < |call| ==> stopAtDash && call[i] == '-')
    ensures ok && stopAtDash ==> forall k :: from <= k < i ==> call[k] != '-'
    ensures !ok ==> i < |call| && !AlNum(call[i]) && (stopAtDash ==> forall k :: from <= k <= i ==> call[k] != '-')
  {
    i := from;
    while i < |call| && !(stopAtDash && call[i] == '-')
      invariant from <= i <= |call| && AllAlNum(call, from, i)
      invariant stopAtDash ==> forall k :: from <= k < i ==> call[k] != '-'
    {
      if !AlNum(call[i]) { return false, i; }
      i := i + 1;
    }
    return true, i;
  }

  lemma BodyLenIs(call: string, n: nat)
    requires n <= |call| && (n < |call| ==> call[n] == '-') && forall i :: 0 <= i < n ==> call[i] != '-'
    ensures BodyLen(call) == n
  {
  }

  /** check_invalid_src_dst */
  method CheckInvalidSrcDst(call: string) returns (rc: int)
    ensures rc == if ValidSrcDst(call) then 0 else -1
  {
    if |call| < 1 || |call| > CALLSIGNLEN_MAX { return -1; }
    var ok, i := ScanAlNum(call, 0, true);
    if !ok { return -1; }
    BodyLenIs(call, i);
    if i == |call| { return 0; }
    if |call| == i + 1 { return -1; }
    var ok2, j := ScanAlNum(call, i + 1, false);
    if !ok2 { return -1; }
    return 0;
  }

  /** check_invalid_path_callsign */
  method CheckInvalidPathCallsign(text: string, afterQ: bool) returns (rc: int)
    ensures rc == if ValidPathCall(text, afterQ) then 0 else -1
  {
    var call := text;
    if |text| > 1 && text[|text| - 1] == '*' { call := text[..|text| - 1]; }
    if |call| < 1 { return -1; }
    if |call| > CALLSIGNLEN_MAX && !(|call| == 32 && afterQ) { return -1; }
    var ok, i := ScanAlNum(call, 0, true);
    if !ok { return -1; }
    BodyLenIs(call, i);
    if i == |call| { return 0; }
    if |call| - i - 1 > 2 || |call| == i + 1 { return -1; }
    if call[i + 1] == '0' { return -1; }
    var ok2, j := ScanAlNum(call, i + 1, false);
    if !ok2 { return -1; }
    return 0;
  }

  // ---------------------------------------------------------------- the digipeater path

  function FieldEnd(s: string, p: nat, pathEnd: nat): (e: nat)
    requires p <= pathEnd <= |s|
    ensures p <= e <= pathEnd && (e < pathEnd ==> s[e] == ',') && forall k :: p <= k < e ==> s[k] != ','
    decreases pathEnd - p
  {
    if p < pathEnd && s[p] != ',' then FieldEnd(s, p + 1, pathEnd) else p
  }

  /** Every field is a callsign, or a three letter word starting with q. */
  predicate PathOk(s: string, p: nat, pathEnd: nat, afterQ: bool)
    requires pathEnd <= |s|
    decreases pathEnd - p
  {
    if p >= pathEnd then true
    else
      var e := FieldEnd(s, p, pathEnd);
      if s[p] == 'q' && e - p == 3 then PathOk(s, e + 1, pathEnd, true)
      else ValidPathCall(s[p..e], afterQ) && PathOk(s, e + 1, pathEnd, afterQ)
  }

  lemma PathStep(s: string, p: nat, pathEnd: nat, afterQ: bool)
    requires p < pathEnd <= |s|
    ensures var e := FieldEnd(s, p, pathEnd);
      var q := s[p] == 'q' && e - p == 3;
      && p <= e <= pathEnd
      && (PathOk(s, p, pathEnd, afterQ) <==>
          (q || ValidPathCall(s[p..e], afterQ)) && PathOk(s, e + 1, pathEnd, q || afterQ))
  {
    hide ValidPathCall;
  }

  method ScanField(s: string, p: nat, pathEnd: nat) returns (e: nat)
    requires p <= pathEnd <= |s|
    ensures e == FieldEnd(s, p, pathEnd)
  {
    e := p;
    while e < pathEnd && s[e] != ','
      invariant p <= e <= pathEnd && FieldEnd(s, e, pathEnd) == FieldEnd(s, p, pathEnd)
    {
      e := e + 1;
    }
  }

  /** check_path_calls */
  method CheckPathCalls(s: string, viaStart: nat, pathEnd: nat) returns (calls: int)
    requires viaStart <= pathEnd <= |s|
    ensures calls == -1 <==> !PathOk(s, viaStart + 1, pathEnd, false)
    ensures calls >= -1
  {
    hide PathOk, ValidPathCall, FieldEnd;
    var p, afterQ := viaStart + 1, false;
    calls := 0;
    while p < pathEnd
      invariant 0 <= p && calls >= 0
      invariant PathOk(s, p, pathEnd, afterQ) == PathOk(s, viaStart + 1, pathEnd, false)
      decreases pathEnd - p
    {
      calls := calls + 1;
      PathStep(s, p, pathEnd, afterQ);
      var e := ScanField(s, p, pathEnd);
      if s[p] == 'q' && e - p == 3 {
        afterQ := true;
      } else {
        var rc := CheckInvalidPathCallsign(s[p..e], afterQ);
        if rc != 0 { return -1; }
      }
      p := e + 1;
    }
    PathDone(s, p, pathEnd, afterQ);
  }

  lemma PathDone(s: string, p: nat, pathEnd: nat, afterQ: bool)
    requires pathEnd <= |s| && p >= pathEnd
    ensures PathOk(s, p, pathEnd, afterQ)
  {
  }

  /** A path that passed the check has no empty fields. */
  lemma {:induction false} CheckedPathHasCalls(s: string, p: nat, pathEnd: nat, afterQ: bool, i: nat)
    requires pathEnd <= |s| && PathOk(s, p, pathEnd, afterQ)
    requires p <= i + 1 < pathEnd && s[i] == ','
    ensures s[i + 1] != ','
    decreases pathEnd - p
  {
    hide PathOk, ValidPathCall;
    PathStep(s, p, pathEnd, afterQ);
    var e := FieldEnd(s, p, pathEnd);
    var q := s[p] == 'q' && e - p == 3;
    if p <= i {
      assert e <= i;
      CheckedPathHasCalls(s, e + 1, pathEnd, q || afterQ, i);
    } else {
      NoEmptyCall(afterQ);
      assert s[p..p] == "";
    }
  }

  lemma NoEmptyCall(afterQ: bool)
    ensures !ValidPathCall("", afterQ)
  {
  }

  // ---------------------------------------------------------------- slicing

  /** Operator configuration: call patterns that are not accepted. */
  datatype Policy = Policy(srcGlob: string -> bool, igateGlob: string -> bool)

  predicate DisallowedSource(call: string) {
    "N0CALL" <= call || "NOCALL" <= call || "SERVER" <= call
  }

  datatype Parsed = Bad(code: int) | Good(srcEnd: nat, ssid: nat, viaStart: nat, colon: nat)

  function Min(a: nat, b: nat): nat { if a < b then a else b }

  function DstStop(s: string, i: nat, hi: nat, ssid: bool): (j: nat)
    requires i <= hi <= |s|
    ensures i <= j <= hi
    ensures forall k :: i <= k < j ==> s[k] != ',' && s[k] != ':' && (ssid ==> s[k] != '-')
    ensures j < hi ==> s[j] == ',' || s[j] == ':' || (ssid && s[j] == '-')
    decreases hi - i
  {
    if i < hi && s[i] != ',' && s[i] != ':' && !(ssid && s[i] == '-') then DstStop(s, i + 1, hi, ssid) else i
  }

  /** SRCCALL>DSTCALL,PATH:INFO */
  function Slice(pol: Policy, s: string): Parsed {
    if |s| < PACKETLEN_MIN - 2 then Bad(INERR_SHORT_PACKET)
    else
      var colon := FindChar(s, ':', 0, |s|);
      if colon == None then Bad(INERR_NO_COLON)
      else
        var src := FindChar(s, '>', 0, Min(colon.value, CALLSIGNLEN_MAX + 1));
        if src == None then Bad(INERR_NO_DST)
        else if src.value + 1 >= |s| then Bad(INERR_NO_PATH)
        else if !ValidSrcDst(s[..src.value]) then Bad(INERR_INV_SRCCALL)
        else if DisallowedSource(s[..src.value]) || pol.srcGlob(s[..src.value]) then Bad(INERR_DIS_SRCCALL)
        else if colon.value + 1 >= |s| then Bad(INERR_NO_BODY)
        else
          var ssid := DstStop(s, src.value + 1, colon.value, true);
          var via := DstStop(s, ssid, colon.value, false);
          if !ValidSrcDst(s[src.value + 1..via]) then Bad(INERR_INV_DSTCALL)
          else Good(src.value, ssid, via, colon.value)
  }

  method SliceLine(pol: Policy, s: string) returns (r: Parsed)
    ensures r == Slice(pol, s)
    ensures r.Bad? ==> r.code != 0 && r.code != INERR_Q_BUG
  {
    if |s| < PACKETLEN_MIN - 2 { return Bad(INERR_SHORT_PACKET); }
    var pathEnd := FindChar(s, ':', 0, |s|);
    if pathEnd == None { return Bad(INERR_NO_COLON); }
    var srcEnd := FindChar(s, '>', 0, Min(pathEnd.value, CALLSIGNLEN_MAX + 1));
    if srcEnd == None { return Bad(INERR_NO_DST); }
    var pathStart := srcEnd.value + 1;
    if pathStart >= |s| { return Bad(INERR_NO_PATH); }
    var src := s[..srcEnd.value];
    var rc := CheckInvalidSrcDst(src);
    if rc != 0 { return Bad(INERR_INV_SRCCALL); }
    if DisallowedSource(src) || pol.srcGlob(src) { return Bad(INERR_DIS_SRCCALL); }
    if pathEnd.value + 1 >= |s| { return Bad(INERR_NO_BODY); }
    var dstcallEnd := ScanDst(s, pathStart, pathEnd.value, true);
    var ssid := dstcallEnd;
    dstcallEnd := ScanDst(s, ssid, pathEnd.value, false);
    rc := CheckInvalidSrcDst(s[pathStart..dstcallEnd]);
    if rc != 0 { return Bad(INERR_INV_DSTCALL); }
    return Good(srcEnd.value, ssid, dstcallEnd, pathEnd.value);
  }

  method ScanDst(s: string, from: nat, hi: nat, ssid: bool) returns (i: nat)
    requires from <= hi <= |s|
    ensures i == DstStop(s, from, hi, ssid)
  {
    i := from;
    while i < hi && s[i] != ',' && s[i] != ':' && !(ssid && s[i] == '-')
      invariant from <= i <= hi && DstStop(s, i, hi, ssid) == DstStop(s, from, hi, ssid)
    {
      i := i + 1;
    }
  }

  lemma ValidHasNo(call: string, ch: char)
    requires ValidSrcDst(call) && !AlNum(ch) && ch != '-'
    ensures ch !in call
  {
    forall i | 0 <= i < |call| ensures call[i] != ch {
      var n := BodyLen(call);
    }
  }

  /** A sliced line is a header as the q construct code expects it. */
  lemma SlicedHeader(pol: Policy, s: string)
    requires Slice(pol, s).Good?
    ensures var g := Slice(pol, s);
      && g.srcEnd < g.ssid <= g.viaStart <= g.colon < |s| && Header(s, g.viaStart, g.colon)
      && s[g.colon] == ':' && s[g.srcEnd] == '>'
  {
    var g := Slice(pol, s);
    var src, dst := s[..g.srcEnd], s[g.srcEnd + 1..g.viaStart];
    ValidHasNo(src, ',');
    ValidHasNo(dst, ',');
    forall i | 0 <= i < g.viaStart ensures s[i] != ',' {
      if i < g.srcEnd { assert s[i] == src[i]; }
      if i > g.srcEnd { assert s[i] == dst[i - g.srcEnd - 1]; }
    }
  }

  // ---------------------------------------------------------------- reassembly

  /** The packet with its new header: the colon and the payload as received, then CRLF. */
  function Reassembled(out: QOut, s: string, colon: nat): string
    requires out.Keep? && out.pathEnd <= |out.s| && (out.replace.Some? ==> out.replace.value <= |out.s|)
    requires colon <= |s|
  {
    QOutput.OutHeader(out) + s[colon..] + "\r\n"
  }

  /** new_len: what the buffer size is chosen by. */
  function NewLen(out: QOut, len: nat): int
    requires out.Keep?
  {
    if out.replace.Some? then len + |out.text| - (out.pathEnd - out.replace.value) + 3 else len + |out.text| + 3
  }

  function BufLen(newLen: int): nat {
    if newLen <= PACKETLEN_MAX_SMALL then PACKETLEN_MAX_SMALL
    else if newLen <= PACKETLEN_MAX_MEDIUM then PACKETLEN_MAX_MEDIUM else PACKETLEN_MAX_LARGE
  }

  function CutOf(out: QOut): nat
    requires out.Keep?
  {
    if out.replace.Some? then out.replace.value else out.pathEnd
  }

  /** The bounds every q_process result keeps. */
  ghost predicate Bounds(s: string, viaStart: nat, colon: nat, out: QOut) {
    && out.Keep? && 3 <= viaStart <= CutOf(out) <= out.pathEnd <= colon < |s| == |out.s|
    && out.s[..viaStart] == s[..viaStart]
    && (out.qStart.At? ==> viaStart < out.qStart.i && (out.replace.Some? ==> out.replace.value == out.qStart.i))
  }

  lemma ResultInBounds(cfg: Config, c: Client, s: string, viaStart: nat, colon: nat, originated: bool)
    requires Header(s, viaStart, colon) && colon < |s| && QSpec(cfg, c, s, viaStart, colon, originated).Keep?
    ensures Bounds(s, viaStart, colon, QSpec(cfg, c, s, viaStart, colon, originated))
  {
    CutInsidePath(cfg, c, s, viaStart, colon, originated);
  }

  /** Reassembly keeps source call, destination call and payload, and, but for the type
      letter of the construct, the path before the cut; what is written, with CRLF and NUL,
      fits the length the buffer is chosen by. */
  lemma ReassemblyPreserves(s: string, viaStart: nat, colon: nat, out: QOut)
    requires Bounds(s, viaStart, colon, out)
    ensures var p := Reassembled(out, s, colon);
      && |p| == CutOf(out) + |out.text| + (|s| - colon) + 2
      && p[..viaStart] == s[..viaStart]
      && p[..CutOf(out)] == out.s[..CutOf(out)]
      && p[CutOf(out) + |out.text|..|p| - 2] == s[colon..]
      && |p| + 1 <= NewLen(out, |s|)
  {
    var p, head := Reassembled(out, s, colon), out.s[..CutOf(out)];
    assert p == head + (out.text + s[colon..] + "\r\n");
    assert p[..viaStart] == head[..viaStart] == out.s[..viaStart];
  }

  /** memcpy */
  method Copy(buf: array<char>, at: nat, src: string)
    requires at + |src| <= buf.Length
    modifies buf
    ensures buf[at..at + |src|] == src
    ensures forall i :: 0 <= i < at || at + |src| <= i < buf.Length ==> buf[i] == old(buf[i])
  {
    for k := 0 to |src|
      invariant forall i :: 0 <= i < k ==> buf[at + i] == src[i]
      invariant forall i :: 0 <= i < at || at + k <= i < buf.Length ==> buf[i] == old(buf[i])
    {
      buf[at + k] := src[k];
    }
  }

  /** The memcpy calls that fill pb->data; no write leaves the buffer. */
  method FillBuffer(buf: array<char>, head: string, text: string, tail: string) returns (packetLen: nat)
    requires |head| + |text| + |tail| + 3 <= buf.Length
    modifies buf
    ensures packetLen == |head| + |text| + |tail| + 2
    ensures buf[..packetLen] == head + text + tail + "\r\n" && buf[packetLen] == '\0'
  {
    Copy(buf, 0, head);
    assert buf[..|head|] == head;
    var p := |head|;
    Copy(buf, p, text);
    assert buf[..p + |text|] == head + text;
    p := p + |text|;
    Copy(buf, p, tail);
    assert buf[..p + |tail|] == head + text + tail;
    p := p + |tail|;
    Copy(buf, p, "\r\n\0");
    packetLen := p + 2;
    assert buf[p..p + 3] == "\r\n\0";
    assert buf[p] == buf[p..p + 3][0] && buf[p + 1] == buf[p..p + 3][1] && buf[p + 2] == buf[p..p + 3][2];
  }

  datatype Pbuf = Pbuf(data: string, bufLen: nat, srcEnd: nat, ssid: nat, dstEnd: nat,
                       qconst: nat, info: nat, fromUpstream: bool, dupe: bool)

  datatype Outcome = Rejected(code: int) | Ignored | Forwarded(pb: Pbuf)

  predicate PathDropped(s: string, viaStart: nat, pathEnd: nat)
    requires viaStart <= pathEnd <= |s|
  {
    Find(s, ",NOGATE", viaStart, pathEnd).Some? || Find(s, ",RFONLY", viaStart, pathEnd).Some?
  }

  /** A third-party packet that has been on the Internet already. */
  predicate ThirdPartyFromIp(s: string, colon: nat)
    requires colon + 1 < |s|
  {
    && s[colon + 1] == '}'
    && var end := FindChar(s, ':', colon + 2, |s|);
       end.Some? && (Find(s, ",TCPIP", colon + 2, end.value).Some? || Find(s, ",TCPXX", colon + 2, end.value).Some?)
  }

  predicate IgateDisallowed(pol: Policy, s: string, p: nat, pathEnd: nat)
    requires pathEnd <= |s|
    decreases pathEnd - p
  {
    p < pathEnd &&
    var e := FieldEnd(s, p, pathEnd);
    pol.igateGlob(s[p..e]) || IgateDisallowed(pol, s, e + 1, pathEnd)
  }

  /** A packet buffer filled from a q_process result. */
  ghost predicate Holds(pb: Pbuf, s: string, g: Parsed, out: QOut) {
    && g.Good? && Bounds(s, g.viaStart, g.colon, out)
    && pb.data == Reassembled(out, s, g.colon)
    && pb.bufLen == BufLen(NewLen(out, |s|)) && |pb.data| + 1 <= NewLen(out, |s|) <= pb.bufLen
    && pb.srcEnd == g.srcEnd && pb.ssid == g.ssid && pb.dstEnd == g.viaStart
    && pb.dstEnd < pb.qconst < pb.info == CutOf(out) + |out.text| + 1 <= |pb.data|
    && pb.data[..pb.dstEnd] == s[..pb.dstEnd]
    && pb.data[pb.info - 1..|pb.data| - 2] == s[g.colon..]
  }

  /** The packet made of a line: where its parts begin, and who it came from. */
  function PacketOf(cfg: Config, c: Client, s: string, g: Parsed, originated: bool, out: QOut): Pbuf
    requires g.Good? && g.srcEnd <= |s| && g.colon <= |s|
    requires out.Keep? && out.pathEnd <= |out.s| && (out.replace.Some? ==> out.replace.value <= |out.s|)
  {
    Pbuf(Reassembled(out, s, g.colon), BufLen(NewLen(out, |s|)), g.srcEnd, g.ssid, g.viaStart,
         if out.qStart.At? then out.qStart.i else CutOf(out) + 1, CutOf(out) + |out.text| + 1,
         Upstream(c), !originated && s[..g.srcEnd] in cfg.localLogins)
  }

  predicate Upstream(c: Client) { c.state == CorePeer || c.uplinkPort }

  method BuildPacket(g: Parsed, s: string, out: QOut, qconst: nat, upstream: bool, dupe: bool) returns (pb: Pbuf)
    requires g.Good? && Bounds(s, g.viaStart, g.colon, out) && NewLen(out, |s|) <= PACKETLEN_MAX_LARGE
    requires g.viaStart < qconst <= CutOf(out) + |out.text|
    ensures Holds(pb, s, g, out)
    ensures pb == Pbuf(Reassembled(out, s, g.colon), BufLen(NewLen(out, |s|)), g.srcEnd, g.ssid, g.viaStart, qconst,
                       CutOf(out) + |out.text| + 1, upstream, dupe)
  {
    ReassemblyPreserves(s, g.viaStart, g.colon, out);
    var cut := CutOf(out);
    var buf := new char[BufLen(NewLen(out, |s|))];
    var n := FillBuffer(buf, out.s[..cut], out.text, s[g.colon..]);
    pb := Pbuf(buf[..n], buf.Length, g.srcEnd, g.ssid, g.viaStart, qconst, cut + |out.text| + 1, upstream, dupe);
  }

  /** The checks between slicing and the q construct. */
  method CheckHeader(s: string, viaStart: nat, colon: nat) returns (code: int)
    requires viaStart <= colon && colon + 1 < |s|
    ensures code == 0 <==> !PathDropped(s, viaStart, colon) && PathOk(s, viaStart + 1, colon, false)
                           && !ThirdPartyFromIp(s, colon)
    ensures PathDropped(s, viaStart, colon) ==> code == -9
    ensures !PathDropped(s, viaStart, colon) && !PathOk(s, viaStart + 1, colon, false) ==> code == -19
    ensures !PathDropped(s, viaStart, colon) && PathOk(s, viaStart + 1, colon, false) && ThirdPartyFromIp(s, colon) ==>
      code == -10
  {
    if PathDropped(s, viaStart, colon) { return INERR_NOGATE; }
    var calls := CheckPathCalls(s, viaStart, colon);
    if calls == -1 { return INERR_INV_PATH_CALL; }
    if ThirdPartyFromIp(s, colon) { return INERR_3RD_PARTY_IP; }
    return 0;
  }

  /** What a line that passed all checks up to the q construct gives. */
  ghost predicate Processed(cfg: Config, c: Client, pol: Policy, s: string, g: Parsed, originated: bool, out: QOut) {
    && g == Slice(pol, s) && g.Good? && Header(s, g.viaStart, g.colon) && g.srcEnd < g.viaStart && g.colon + 1 < |s|
    && !PathDropped(s, g.viaStart, g.colon) && PathOk(s, g.viaStart + 1, g.colon, false)
    && !ThirdPartyFromIp(s, g.colon)
    && originated == (c.username == s[..g.srcEnd])
    && out == QSpec(cfg, c, s, g.viaStart, g.colon, originated)
  }

  // The conditions a line has to meet, one after the other.

  /** No NOGATE or RFONLY, callsigns in the path, and no third-party packet from the Internet. */
  predicate CleanHeader(s: string, g: Parsed)
    requires g.Good? && g.viaStart <= g.colon && g.colon + 1 < |s|
  {
    !PathDropped(s, g.viaStart, g.colon) && PathOk(s, g.viaStart + 1, g.colon, false) && !ThirdPartyFromIp(s, g.colon)
  }

  function HeaderCode(s: string, g: Parsed): int
    requires g.Good? && g.viaStart <= g.colon && g.colon + 1 < |s|
  {
    if PathDropped(s, g.viaStart, g.colon) then -9 else if !PathOk(s, g.viaStart + 1, g.colon, false) then -19 else -10
  }

  /** What q_process says of a sliced line. */
  function Routed(cfg: Config, c: Client, pol: Policy, s: string): QOut
    requires Slice(pol, s).Good?
  {
    SlicedHeader(pol, s);
    var g := Slice(pol, s);
    QSpec(cfg, c, s, g.viaStart, g.colon, c.username == s[..g.srcEnd])
  }

  /** A construct that was kept names a call the operator does not accept. */
  predicate BarredIgate(pol: Policy, out: QOut)
    requires out.Keep? && out.pathEnd <= |out.s|
  {
    out.qStart.At? && IgateDisallowed(pol, out.s, out.qStart.i, out.pathEnd)
  }

  /** The slicing and the header checks. */
  predicate Enters(pol: Policy, s: string) {
    var g := Slice(pol, s);
    g.Good? && g.viaStart <= g.colon && g.colon + 1 < |s| && CleanHeader(s, g)
  }

  /** What the result is, condition by condition. */
  ghost predicate Judged(cfg: Config, c: Client, pol: Policy, s: string, haveBuffer: bool, r: Outcome) {
    var g := Slice(pol, s);
    if g.Bad? then r == Rejected(g.code)
    else
      && 0 < g.srcEnd < g.viaStart <= g.colon && g.colon + 1 < |s|
      && if !CleanHeader(s, g) then r == Rejected(HeaderCode(s, g))
         else
           var out := Routed(cfg, c, pol, s);
           if out.Drop? then r == Rejected(out.code)
           else Bounds(s, g.viaStart, g.colon, out) && JudgedRouted(cfg, c, pol, s, haveBuffer, g, out, r)
  }

  ghost predicate JudgedRouted(cfg: Config, c: Client, pol: Policy, s: string, haveBuffer: bool,
                               g: Parsed, out: QOut, r: Outcome)
    requires g.Good? && g.srcEnd <= |s| && Bounds(s, g.viaStart, g.colon, out)
  {
    && (BarredIgate(pol, out) ==> r == Rejected(-36))
    && (!BarredIgate(pol, out) ==>
          && (NewLen(out, |s|) > 512 ==> r == Rejected(-18))
          && (NewLen(out, |s|) <= 512 ==>
                && (!haveBuffer ==> r == Rejected(-13))
                && (haveBuffer && !Upstream(c) && c.dupeFeed ==> r == Ignored)
                && (haveBuffer && !Upstream(c) && !c.dupeFeed && !c.inPort ==> r == Rejected(-14))
                && (haveBuffer && (Upstream(c) || (!c.dupeFeed && c.inPort)) ==>
                      r == if HasConstruct(out, g.viaStart)
                           then Forwarded(PacketOf(cfg, c, s, g, c.username == s[..g.srcEnd], out))
                           else Rejected(-15))))
  }

  /** All conditions at once. */
  ghost predicate Acceptable(cfg: Config, c: Client, pol: Policy, s: string, haveBuffer: bool) {
    && Enters(pol, s) && haveBuffer && (Upstream(c) || (c.inPort && !c.dupeFeed))
    && var out := Routed(cfg, c, pol, s);
       && out.Keep? && out.pathEnd <= |out.s| && !BarredIgate(pol, out) && NewLen(out, |s|) <= 512
       && HasConstruct(out, Slice(pol, s).viaStart)
  }

  /** A line is forwarded exactly if it meets all of them. */
  lemma JudgedExact(cfg: Config, c: Client, pol: Policy, s: string, haveBuffer: bool, r: Outcome)
    requires Judged(cfg, c, pol, s, haveBuffer, r)
    ensures r.Forwarded? <==> Acceptable(cfg, c, pol, s, haveBuffer)
    ensures r.Forwarded? ==>
      && Slice(pol, s).Good? && var g, out := Slice(pol, s), Routed(cfg, c, pol, s);
         && out.Keep? && g.srcEnd <= |s| && g.colon <= |s| && out.pathEnd <= |out.s|
         && (out.replace.Some? ==> out.replace.value <= |out.s|)
         && r.pb == PacketOf(cfg, c, s, g, c.username == s[..g.srcEnd], out)
  {
    hide Slice, CleanHeader, QSpec, PacketOf, IgateDisallowed;
  }

  method ProcessHeader(cfg: Config, c: Client, pol: Policy, s: string)
    returns (code: int, g: Parsed, originated: bool, out: QOut)
    ensures code == 0 ==> Processed(cfg, c, pol, s, g, originated, out) && out.Keep?
    ensures g == Slice(pol, s)
    ensures code != 0 ==> Judged(cfg, c, pol, s, false, Rejected(code)) && Judged(cfg, c, pol, s, true, Rejected(code))
    ensures code != INERR_Q_BUG
  {
    hide QSpec, PathOk, PathDropped, ThirdPartyFromIp, Inbound;
    originated, out := false, Drop(0);
    g := SliceLine(pol, s);
    if g.Bad? { return g.code, g, originated, out; }
    SlicedHeader(pol, s);
    var src := s[..g.srcEnd];
    originated := |c.username| == |src| && c.username == src;
    code := CheckHeader(s, g.viaStart, g.colon);
    if code != 0 { return; }
    out := QProcess(cfg, c, s, g.viaStart, g.colon, originated);
    if out.Drop? { code := out.code; }
  }

  /** The part of incoming_parse from the line (without CRLF) to the packet handed to the APRS parser. */
  method ParseLine(cfg: Config, c: Client, pol: Policy, s: string, haveBuffer: bool)
    returns (r: Outcome, ghost g: Parsed, ghost originated: bool, ghost out: QOut)
    ensures Judged(cfg, c, pol, s, haveBuffer, r)
    ensures r.Forwarded? <==> Acceptable(cfg, c, pol, s, haveBuffer)
    ensures r.Forwarded? ==> haveBuffer && Carries(cfg, c, pol, s, r.pb, g, originated, out)
    ensures r == Rejected(INERR_Q_BUG) ==> !Inbound(c) && !c.uplinkPort
  {
    hide Holds, QOutput.Reparses, ProtoSet, Judged, Acceptable;
    var code, g0, originated0, out0 := ProcessHeader(cfg, c, pol, s);
    g, originated, out := g0, originated0, out0;
    if code != 0 {
      JudgedExact(cfg, c, pol, s, haveBuffer, Rejected(code));
      return Rejected(code), g, originated, out;
    }
    ProcessedResult(cfg, c, pol, s, g0, originated0, out0);
    if (Inbound(c) || c.uplinkPort) && QOutput.SaneConfig(cfg, c) && ProtoSet(s, g0) {
      ForwardedReparses(cfg, c, pol, s, g0, originated0, out0);
    }
    r := Complete(cfg, c, pol, s, g0, originated0, out0, haveBuffer);
    RoutedJudged(cfg, c, pol, s, haveBuffer, g0, originated0, out0, r);
    JudgedExact(cfg, c, pol, s, haveBuffer, r);
  }

  lemma RoutedJudged(cfg: Config, c: Client, pol: Policy, s: string, haveBuffer: bool, g: Parsed, originated: bool,
                     out: QOut, r: Outcome)
    requires Processed(cfg, c, pol, s, g, originated, out) && out.Keep? && g.srcEnd <= |s|
    requires Bounds(s, g.viaStart, g.colon, out) && JudgedRouted(cfg, c, pol, s, haveBuffer, g, out, r)
    ensures Judged(cfg, c, pol, s, haveBuffer, r)
  {
    hide JudgedRouted, QSpec, PathOk, PathDropped, ThirdPartyFromIp, Bounds;
  }

  /** What a packet made of a line is: the reassembly of the line with the header of the q construct
      algorithm, which parses to a construct again. */
  ghost predicate Carries(cfg: Config, c: Client, pol: Policy, s: string, pb: Pbuf,
                          g: Parsed, originated: bool, out: QOut)
  {
    && Processed(cfg, c, pol, s, g, originated, out) && Holds(pb, s, g, out)
    && pb.fromUpstream == (c.state == CorePeer || c.uplinkPort)
    && pb.dupe == (!originated && s[..g.srcEnd] in cfg.localLogins)
    && ((Inbound(c) || c.uplinkPort) && QOutput.SaneConfig(cfg, c) && ProtoSet(s, g) ==>
          QOutput.Reparses(out, g.viaStart))
  }

  /** What the APRS parser makes of a packet: its return code, and whether it is a message to the
      server itself or a general query. */
  datatype Aprs = Aprs(rc: int, toServer: bool, query: bool)

  /** What becomes of a line; a packet that is not queued is freed. */
  datatype Fate = Refused(code: int) | NotWanted | Consumed | Queued(pb: Pbuf)

  /** Whether the operator admits verified senders only, and this is not one. */
  predicate Unverified(cfg: Config, c: Client, s: string, g: Parsed)
    requires g.Good? && g.viaStart <= g.colon <= |s|
  {
    cfg.disallowUnverified && (!c.validated || Find(s, ",TCPXX", g.viaStart, g.colon).Some?)
  }

  /** The line as the parser gets it; none if quirks mode rejects it. */
  function Unquirked(line: string, quirks: bool): Option<string> {
    if !quirks then Some(line)
    else if Quirks.Rewrite(line).Good? then Some(Quirks.Rewrite(line).line) else None
  }

  /** What becomes of a packet the APRS parser has seen. */
  ghost predicate Disposed(cfg: Config, c: Client, s: string, g: Parsed, pb: Pbuf, a: Aprs, f: Fate)
    requires g.Good? && g.viaStart <= g.colon <= |s|
  {
    && (a.rc < 0 ==> f == Refused(a.rc))
    && (a.rc == 0 && a.toServer ==> f == Consumed)
    && (a.rc >= 0 && !(a.rc == 0 && a.toServer) ==>
          && (a.query ==> f == Refused(-12))
          && (!a.query && cfg.disallowUnverified && !c.validated ==> f == Refused(-7))
          && (!a.query && Unverified(cfg, c, s, g) && c.validated ==> f == Refused(-8))
          && (!a.query && !Unverified(cfg, c, s, g) ==> f == Queued(pb)))
  }

  /** What becomes of a line. */
  ghost predicate FateIs(cfg: Config, c: Client, pol: Policy, s: string, haveBuffer: bool, parse: Pbuf -> Aprs,
                         r: Outcome, f: Fate)
  {
    && Judged(cfg, c, pol, s, haveBuffer, r)
    && (r.Rejected? ==> f == Refused(r.code))
    && (r.Ignored? ==> f == NotWanted)
    && (r.Forwarded? ==>
          && var g := Slice(pol, s);
             g.Good? && g.viaStart <= g.colon <= |s| && Disposed(cfg, c, s, g, r.pb, parse(r.pb), f))
  }

  /** The packet a line that can be forwarded is made into. */
  ghost predicate MadeInto(cfg: Config, c: Client, pol: Policy, s: string, pb: Pbuf) {
    && Slice(pol, s).Good?
    && var g, out := Slice(pol, s), Routed(cfg, c, pol, s);
       && out.Keep? && g.srcEnd <= |s| && g.viaStart <= g.colon <= |s| && out.pathEnd <= |out.s|
       && (out.replace.Some? ==> out.replace.value <= |out.s|)
       && pb == PacketOf(cfg, c, s, g, c.username == s[..g.srcEnd], out)
  }

  /** The line is accepted and the parser has no objection to its packet. */
  ghost predicate Wanted(cfg: Config, c: Client, pol: Policy, s: string, haveBuffer: bool, parse: Pbuf -> Aprs,
                         pb: Pbuf)
  {
    && Acceptable(cfg, c, pol, s, haveBuffer) && MadeInto(cfg, c, pol, s, pb)
    && parse(pb).rc >= 0 && !(parse(pb).rc == 0 && parse(pb).toServer) && !parse(pb).query
    && !Unverified(cfg, c, s, Slice(pol, s))
  }

  /** A line is queued exactly if it is accepted and wanted, and as the packet it is made into. */
  lemma FateExact(cfg: Config, c: Client, pol: Policy, s: string, haveBuffer: bool, parse: Pbuf -> Aprs,
                  r: Outcome, f: Fate, pb: Pbuf)
    requires FateIs(cfg, c, pol, s, haveBuffer, parse, r, f)
    ensures f == Queued(pb) <==> Wanted(cfg, c, pol, s, haveBuffer, parse, pb)
  {
    hide Judged, Acceptable, PacketOf, Slice, Routed;
    JudgedExact(cfg, c, pol, s, haveBuffer, r);
  }

  /** incoming_parse.  line is what was received, s what quirks mode makes of it. */
  method IncomingParse(cfg: Config, c: Client, pol: Policy, line: string, quirks: bool,
                       haveBuffer: bool, parse: Pbuf -> Aprs)
    returns (f: Fate, ghost s: string, ghost g: Parsed, ghost originated: bool, ghost out: QOut)
    ensures Unquirked(line, quirks).None? ==> f == Refused(Quirks.Rewrite(line).code)
    ensures Unquirked(line, quirks).Some? ==>
      && s == Unquirked(line, quirks).value
      && (exists r :: FateIs(cfg, c, pol, s, haveBuffer, parse, r, f))
      && forall pb :: f == Queued(pb) <==> Wanted(cfg, c, pol, s, haveBuffer, parse, pb)
    ensures f.Queued? ==> Carries(cfg, c, pol, s, f.pb, g, originated, out)
    ensures f == Refused(INERR_Q_BUG) && (forall pb :: parse(pb).rc != INERR_Q_BUG) ==> !Inbound(c) && !c.uplinkPort
  {
    hide Carries, Judged, Acceptable, Quirks.Rewrite, Slice, Wanted;
    var text := line;
    s, g, originated, out := line, Bad(0), false, Drop(0);
    if quirks {
      var q := Quirks.QuirkRewrite(line);
      RewriteCodes(line);
      if q.Bad? { return Refused(q.code), s, g, originated, out; }
      text := q.line;
      s := text;
    }
    var r;
    r, g, originated, out := ParseLine(cfg, c, pol, text, haveBuffer);
    if r.Rejected? {
      f := Refused(r.code);
    } else if r.Ignored? {
      f := NotWanted;
    } else {
      CarriedBounds(cfg, c, pol, text, r.pb, g, originated, out);
      f := Dispose(cfg, c, text, r.pb, parse(r.pb), g);
    }
    assert FateIs(cfg, c, pol, s, haveBuffer, parse, r, f);
    forall pb ensures f == Queued(pb) <==> Wanted(cfg, c, pol, s, haveBuffer, parse, pb) {
      FateExact(cfg, c, pol, s, haveBuffer, parse, r, f, pb);
    }
  }

  lemma RewriteCodes(line: string)
    ensures Quirks.Rewrite(line).Bad? ==> Quirks.Rewrite(line).code != INERR_Q_BUG
  {
    hide Quirks.PathFrom;
  }

  lemma CarriedBounds(cfg: Config, c: Client, pol: Policy, s: string, pb: Pbuf, g: Parsed, originated: bool, out: QOut)
    requires Carries(cfg, c, pol, s, pb, g, originated, out)
    ensures g.Good? && g.viaStart <= g.colon <= |s| && g == Slice(pol, s)
    ensures pb.dstEnd == g.viaStart && FindChar(s, ':', 0, |s|) == Some(g.colon)
  {
    hide QOutput.Reparses, ProtoSet, PathOk, PathDropped, ThirdPartyFromIp, QSpec;
    HeaderBounds(s, g.viaStart, g.colon);
  }

  /** The tests after the APRS parser. */
  method Dispose(cfg: Config, c: Client, s: string, pb: Pbuf, a: Aprs, ghost g: Parsed) returns (f: Fate)
    requires g.Good? && g.viaStart <= g.colon <= |s| && pb.dstEnd == g.viaStart
    requires FindChar(s, ':', 0, |s|) == Some(g.colon)
    ensures f == if a.rc < 0 then Refused(a.rc)
                 else if a.rc == 0 && a.toServer then Consumed
                 else if a.query then Refused(INERR_GENERAL_QUERY)
                 else if Unverified(cfg, c, s, g) then
                   Refused(if !c.validated then INERR_DISALLOW_UNVERIFIED else INERR_DISALLOW_UNVERIFIED_PATH)
                 else Queued(pb)
  {
    if a.rc < 0 { return Refused(a.rc); }
    if a.rc == 0 && a.toServer { return Consumed; }
    if a.query { return Refused(INERR_GENERAL_QUERY); }
    if cfg.disallowUnverified {
      if !c.validated { return Refused(INERR_DISALLOW_UNVERIFIED); }
      var colon := FindChar(s, ':', 0, |s|).value;
      if Find(s, ",TCPXX", pb.dstEnd, colon).Some? { return Refused(INERR_DISALLOW_UNVERIFIED_PATH); }
    }
    return Queued(pb);
  }

  /** The header that is sent on parses to a construct, for every line and sane configuration. */
  lemma ForwardedReparses(cfg: Config, c: Client, pol: Policy, s: string, g: Parsed, originated: bool, out: QOut)
    requires Processed(cfg, c, pol, s, g, originated, out) && out.Keep?
    requires (Inbound(c) || c.uplinkPort) && QOutput.SaneConfig(cfg, c) && ProtoSet(s, g)
    ensures QOutput.Reparses(out, g.viaStart)
  {
    hide QSpec, Locate, QOutput.Reparses, QOutput.SaneConfig, PathOk, Slice, PathDropped, ThirdPartyFromIp, Header;
    HeaderBounds(s, g.viaStart, g.colon);
    CheckedPathNoEmpty(s, g.viaStart, g.colon);
    QOutput.OutputReparses(cfg, c, s, g.viaStart, g.colon, originated);
  }

  lemma HeaderBounds(s: string, viaStart: nat, colon: nat)
    requires Header(s, viaStart, colon)
    ensures viaStart <= colon <= |s|
  {
  }

  /** The protocol character of the construct that was received, if there is one, is not NUL, which
      the code takes for "no construct". */
  predicate ProtoSet(s: string, g: Parsed) {
    g.Good? && g.viaStart <= g.colon <= |s| &&
    var e := Locate(s, g.viaStart, g.colon);
    e.Found? ==> e.proto != '\0'
  }

  lemma ProcessedResult(cfg: Config, c: Client, pol: Policy, s: string, g: Parsed, originated: bool, out: QOut)
    requires Processed(cfg, c, pol, s, g, originated, out) && out.Keep?
    ensures g.Good? && g.srcEnd <= |s| && Bounds(s, g.viaStart, g.colon, out)
    ensures Inbound(c) || c.uplinkPort ==> HasConstruct(out, g.viaStart)
  {
    ResultInBounds(cfg, c, s, g.viaStart, g.colon, originated);
    ConstructAlways(cfg, c, s, g.viaStart, g.colon, originated);
  }

  /** The rest of incoming_parse, once the header has its construct. */
  method Complete(cfg: Config, c: Client, pol: Policy, s: string, g: Parsed, originated: bool, out: QOut,
    haveBuffer: bool)
    returns (r: Outcome)
    requires g.Good? && g.srcEnd <= |s| && Bounds(s, g.viaStart, g.colon, out)
    requires originated == (c.username == s[..g.srcEnd])
    ensures JudgedRouted(cfg, c, pol, s, haveBuffer, g, out, r)
    ensures r.Forwarded? ==> haveBuffer && Holds(r.pb, s, g, out)
    ensures r.Forwarded? ==> r.pb.dupe == (!originated && s[..g.srcEnd] in cfg.localLogins)
    ensures r.Forwarded? ==> r.pb.fromUpstream == (c.state == CorePeer || c.uplinkPort)
    ensures r == Rejected(INERR_Q_BUG) ==> !HasConstruct(out, g.viaStart)
  {
    if out.qStart.At? && out.qStart.i < out.pathEnd && IgateDisallowed(pol, out.s, out.qStart.i, out.pathEnd) {
      return Rejected(INERR_DIS_IGATECALL);
    }
    if NewLen(out, |s|) > PACKETLEN_MAX_LARGE { return Rejected(INERR_LONG_PACKET); }
    if !haveBuffer { return Rejected(INERR_OUT_OF_PBUFS); }
    var upstream := c.state == CorePeer || c.uplinkPort;
    if !upstream && c.dupeFeed { return Ignored; }
    if !upstream && !c.inPort { return Rejected(INERR_CLASS_FAIL); }
    var dupe := !originated && s[..g.srcEnd] in cfg.localLogins;
    var qconst: nat;
    if out.qStart == Unset && |out.text| > 0 {
      qconst := CutOf(out) + 1;
    } else if out.qStart.At? && 0 < out.qStart.i < out.pathEnd {
      qconst := out.qStart.i;
    } else {
      return Rejected(INERR_Q_BUG);
    }
    var pb := BuildPacket(g, s, out, qconst, upstream, dupe);
    return Forwarded(pb);
  }

  /** The path check gives what QOutput.OutputReparses asks of the digipeater path. */
  lemma CheckedPathNoEmpty(s: string, viaStart: nat, colon: nat)
    requires viaStart <= colon <= |s| && PathOk(s, viaStart + 1, colon, false)
    ensures QOutput.NoEmptyCalls(s, viaStart, colon)
  {
    forall i | viaStart <= i && i + 1 < colon && s[i] == ',' ensures s[i + 1] != ',' {
      CheckedPathHasCalls(s, viaStart + 1, colon, false, i);
    }
  }
}
