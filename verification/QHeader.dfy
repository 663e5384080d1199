/** The header a packet leaves q_process with, told from the header it came with: which markers,
    which type letter and whose call. */
module QHeader {
  import opened Basics
  import opened Text
  import opened QCalls
  import opened QConstruct
  import opened QOutput

  /** ",qPT,CALL" with this server's protocol id. */
  function Q(cfg: Config, t: char, call: string): string { ",q" + [cfg.qProtocolId, t] + "," + call }

  /** The packet is passed on with exactly this header. */
  predicate Sends(out: QOut, h: string) {
    && out.Keep? && out.pathEnd <= |out.s| && (out.replace.Some? ==> out.replace.value <= |out.s|)
    && OutHeader(out) == h
  }

  // ---------------------------------------------------------------- the construct that came along

  ghost predicate FirstQ(s: string, viaStart: nat, at: nat) {
    viaStart <= at && Text.At(s, ",q", at) && forall j :: viaStart <= j < at ==> !Text.At(s, ",q", j)
  }

  /** The first ",q" counts, and is a construct exactly if two characters, a comma and a call follow. */
  lemma LocateExact(s: string, viaStart: nat, pathLen: nat, at: nat)
    requires Header(s, viaStart, pathLen) && FirstQ(s, viaStart, at) && at + 2 <= pathLen
    ensures var e := Locate(s, viaStart, pathLen);
      && !e.Absent? && e.at == at
      && (e.Found? <==>
            at + 5 < pathLen && s[at + 2] != ',' && s[at + 3] != ',' && s[at + 4] == ',' && s[at + 5] != ',')
      && (e.Found? ==> e.proto == s[at + 2] && e.qType == s[at + 3])
      && (e.Found? ==> (e.callEnd < pathLen <==> ',' in s[at + 5..pathLen]))
  {
    FindIs(s, ",q", viaStart, pathLen, at);
    assert s[at..at + 2] == ",q";
    if at + 5 < pathLen && s[at + 2] != ',' && s[at + 3] != ',' && s[at + 4] == ',' {
      FindCharIs(s, ',', at + 1, pathLen, at + 4);
    }
    var e := Locate(s, viaStart, pathLen);
    if e.Found? {
      var rest := s[at + 5..pathLen];
      assert forall i :: 0 <= i < |rest| ==> rest[i] == s[at + 5 + i];
      if e.callEnd < pathLen { assert s[e.callEnd] == rest[e.callEnd - at - 5]; }
    }
  }

  lemma NoneFound(s: string, viaStart: nat, pathLen: nat)
    requires Header(s, viaStart, pathLen)
    ensures Locate(s, viaStart, pathLen).Absent? <==>
            forall at :: viaStart <= at && at + 2 <= pathLen ==> !Text.At(s, ",q", at)
  {
  }

  /** The path without a construct that cannot be used. */
  function Cut(e: Existing, pathLen: nat): nat { if e.Absent? then pathLen else e.at }

  // ---------------------------------------------------------------- where the construct starts

  /** New text starts with a comma. */
  lemma PlanComma(cfg: Config, c: Client, s: string, viaStart: nat, pathLen: nat, e: Existing, originated: bool)
    requires Header(s, viaStart, pathLen) && e == Locate(s, viaStart, pathLen)
    requires (e.Found? ==> e.at + 5 < pathLen) && (e.Broken? ==> viaStart <= e.at <= pathLen)
    ensures var p := MakePlan(cfg, c, s, viaStart, pathLen, e, originated);
      && (p.Final? && p.out.Keep? ==> p.out.text != "" && p.out.text[0] == ',')
      && (p.Check? && p.keep == Unset ==> p.text != "" && p.text[0] == ',')
  {
    hide Locate, SameFolded, EndsWithI, EndsWithTcpip, ViaCallBeforeI;
    ViaCallFits(s, viaStart, pathLen, if e.Broken? then e.at else pathLen);
  }

  lemma ViaCallFits(s: string, viaStart: nat, pathLen: nat, end: nat)
    requires Header(s, viaStart, pathLen) && viaStart <= end <= pathLen
    ensures EndsWithI(s, pathLen, end) && ViaCallBeforeI(s, viaStart, end).Some? ==>
              ViaCallBeforeI(s, viaStart, end).value + 3 <= end
  {
  }

  /** The construct starts behind a comma. */
  lemma StartsBehindComma(cfg: Config, c: Client, s: string, viaStart: nat, pathLen: nat, originated: bool)
    requires Header(s, viaStart, pathLen)
    ensures var out := QSpec(cfg, c, s, viaStart, pathLen, originated);
      && (out.Keep? && out.qStart == Unset && out.text != "" ==> out.text[0] == ',')
      && (out.Keep? && out.qStart.At? ==> 1 <= out.qStart.i <= |out.s| && out.s[out.qStart.i - 1] == ',')
  {
    hide Locate, MakePlan, Verdict, Header;
    LocateBounded(s, viaStart, pathLen);
    LocateComma(s, viaStart, pathLen);
    var e := Locate(s, viaStart, pathLen);
    var p := MakePlan(cfg, c, s, viaStart, pathLen, e, originated);
    PlanIsInside(cfg, c, s, viaStart, pathLen, e, originated);
    PlanComma(cfg, c, s, viaStart, pathLen, e, originated);
    if p.Check? {
      PassedText(cfg, c, p.s, p.proto, p.qType, TraceOf(p.s, e, p.pathEnd), Region(p.s, e, p.pathEnd), p.text);
    }
  }

  lemma LocateComma(s: string, viaStart: nat, pathLen: nat)
    requires Header(s, viaStart, pathLen)
    ensures var e := Locate(s, viaStart, pathLen); !e.Absent? ==> e.at < |s| && s[e.at] == ','
  {
  }

  // ---------------------------------------------------------------- the client's own packets

  ghost predicate Came(s: string, viaStart: nat, pathLen: nat, e: Existing) {
    Header(s, viaStart, pathLen) && e == Locate(s, viaStart, pathLen) && (e.Found? ==> e.proto != '\0')
  }

  /** A verified client's own packet: the path becomes TCPIP*, unless it is a qAI trace. */
  lemma VerifiedOwn(cfg: Config, c: Client, s: string, viaStart: nat, pathLen: nat, e: Existing)
    requires Came(s, viaStart, pathLen, e) && c.validated && !c.udpSubmit
    requires e.Absent? || (c.inPort && TypeOf(e) != 'I')
    ensures Sends(QSpec(cfg, c, s, viaStart, pathLen, true),
                  s[..viaStart] + ",TCPIP*" + Q(cfg, 'C', cfg.serverId))
  {
    LocateBounded(s, viaStart, pathLen);
    hide Locate;
    assert s[..viaStart] + (",TCPIP*" + Construct(cfg, 'C')) == s[..viaStart] + ",TCPIP*" + Construct(cfg, 'C');
  }

  /** An unverified client's own packet: the path becomes TCPXX*; a construct with several calls
      is an error. */
  lemma UnverifiedOwn(cfg: Config, c: Client, s: string, viaStart: nat, pathLen: nat, e: Existing)
    requires Came(s, viaStart, pathLen, e) && !c.validated && !c.udpSubmit && (e.Absent? || Inbound(c))
    ensures var out := QSpec(cfg, c, s, viaStart, pathLen, true);
      if e.Found? && e.callEnd < pathLen then out == Drop(-29)
      else Sends(out, s[..viaStart] + ",TCPXX*" + Q(cfg, 'X', cfg.serverId))
  {
    LocateBounded(s, viaStart, pathLen);
    hide Locate;
    assert s[..viaStart] + (",TCPXX*" + Construct(cfg, 'X')) == s[..viaStart] + ",TCPXX*" + Construct(cfg, 'X');
  }

  /** A packet submitted by UDP, whoever sent it. */
  lemma UdpHeader(cfg: Config, c: Client, s: string, viaStart: nat, pathLen: nat, e: Existing, originated: bool)
    requires Came(s, viaStart, pathLen, e) && Inbound(c) && c.udpSubmit
    ensures var path := s[..Cut(e, pathLen)];
      Sends(QSpec(cfg, c, s, viaStart, pathLen, originated),
            path + (if Text.At(path, ",TCPIP*", |path| - 7) then "" else ",TCPIP*") + Q(cfg, 'U', cfg.serverId))
  {
    hide Locate, EndsWithTcpip, Text.At, Header;
    LocateBounded(s, viaStart, pathLen);
    var cut := Cut(e, pathLen);
    var path := s[..cut];
    TcpipAtEnd(s, viaStart, pathLen, cut);
    var marker := if EndsWithTcpip(s, pathLen, cut) then "" else ",TCPIP*";
    assert path + (marker + Construct(cfg, 'U')) == path + marker + Construct(cfg, 'U');
  }

  lemma TcpipAtEnd(s: string, viaStart: nat, pathLen: nat, cut: int)
    requires Header(s, viaStart, pathLen) && viaStart <= cut <= pathLen
    ensures EndsWithTcpip(s, pathLen, cut) <==> Text.At(s[..cut], ",TCPIP*", cut - 7)
  {
    var path := s[..cut];
    if cut >= 7 {
      assert s[cut - 7..cut] == path[cut - 7..cut];
      assert path[cut - 7..cut][0] == s[cut - 7];
    }
  }

  // ---------------------------------------------------------------- packets of others

  /** The path ends with a call and ",I". */
  predicate EndsWithCallI(path: string, viaStart: nat, pre: string, call: string) {
    path == pre + "," + call + ",I" && ',' !in call && viaStart <= |pre|
  }

  /** The type and call of the construct that is put there for a packet with such a path. */
  function RelayQ(cfg: Config, c: Client, call: string): string {
    if !Inbound(c) then Q(cfg, 'r', call)
    else if c.validated && c.clientOnly then Q(cfg, 'o', call)
    else if SameFolded(c.username, call) then Q(cfg, 'R', c.username)
    else Q(cfg, 'r', call)
  }

  function PlainQ(cfg: Config, c: Client): string {
    if !Inbound(c) then Q(cfg, 'S', c.addrHex)
    else if c.validated && c.clientOnly then Q(cfg, 'O', c.username)
    else Q(cfg, 'S', c.username)
  }

  /** What becomes of somebody else's packet without a usable construct. */
  ghost predicate Relayed(cfg: Config, c: Client, path: string, viaStart: nat, out: QOut)
    requires viaStart <= |path|
  {
    && (forall pre, call :: EndsWithCallI(path, viaStart, pre, call) ==> Sends(out, pre + RelayQ(cfg, c, call)))
    && (path[viaStart..] == ",I" ==>
          if Inbound(c) && c.validated && c.clientOnly then Sends(out, path + Q(cfg, 'O', c.username))
          else out == Drop(-30))
    && (!(|path| >= 2 && path[|path| - 2..] == ",I") ==> Sends(out, path + PlainQ(cfg, c)))
  }

  /** Generated constructs pass the loop checks: there is no path behind them yet. */
  lemma GeneratedPasses(cfg: Config, c: Client, s: string, t: char, trace: string, text: string)
    requires t !in "XZI"
    ensures Verdict(cfg, c, s, cfg.qProtocolId, t, trace, "", text) == Passed(text, false)
  {
  }

  lemma ViaCallIs(s: string, viaStart: nat, pathLen: nat, cut: nat, pre: string, call: string)
    requires Header(s, viaStart, pathLen) && cut <= pathLen && EndsWithCallI(s[..cut], viaStart, pre, call)
    ensures EndsWithI(s, pathLen, cut) && ViaCallBeforeI(s, viaStart, cut) == Some(|pre|)
    ensures |pre| + 3 <= cut && s[..|pre|] == pre && s[|pre| + 1..cut - 2] == call
  {
    hide PrevComma;
    var path := s[..cut];
    CallIParts(path, pre, call);
    assert s[..|pre|] == path[..|pre|] && s[|pre| + 1..cut - 2] == path[|pre| + 1..cut - 2];
    assert forall k :: 0 <= k < cut ==> s[k] == path[k];
    PrevCommaIs(s, viaStart, cut - 3, |pre|);
  }

  lemma CallIParts(path: string, pre: string, call: string)
    requires path == pre + "," + call + ",I" && ',' !in call
    ensures var n := |path|;
      && n == |pre| + |call| + 3 && path[n - 1] == 'I' && path[n - 2] == ',' && path[|pre|] == ','
      && path[..|pre|] == pre && path[|pre| + 1..n - 2] == call
      && (forall k :: |pre| < k <= n - 3 ==> path[k] != ',')
  {
    var n := |path|;
    assert path[|pre| + 1..n - 2] == call;
    forall k | |pre| < k <= n - 3 ensures path[k] != ',' {
      assert path[k] == call[k - |pre| - 1] && call[k - |pre| - 1] in call;
    }
  }

  lemma {:induction false} PrevCommaIs(s: string, viaStart: nat, p: nat, j: nat)
    requires viaStart <= j <= p < |s| && s[j] == ',' && forall k :: j < k <= p ==> s[k] != ','
    ensures PrevComma(s, viaStart, p) == j
    decreases p
  {
    if p > j { PrevCommaIs(s, viaStart, p - 1, j); }
  }

  /** The path is ",I" alone: there is no call before it. */
  lemma NoViaCall(s: string, viaStart: nat, pathLen: nat, cut: nat)
    requires Header(s, viaStart, pathLen) && viaStart <= cut <= pathLen && s[viaStart..cut] == ",I"
    ensures EndsWithI(s, pathLen, cut) && ViaCallBeforeI(s, viaStart, cut) == None
  {
    assert s[viaStart] == s[viaStart..cut][0] && s[viaStart + 1] == s[viaStart..cut][1];
  }

  lemma NotI(s: string, viaStart: nat, pathLen: nat, cut: nat)
    requires Header(s, viaStart, pathLen) && viaStart <= cut <= pathLen && s[cut - 2..cut] != ",I"
    ensures !EndsWithI(s, pathLen, cut)
  {
    assert s[cut - 2..cut] == [s[cut - 2], s[cut - 1]];
  }

  /** What is generated is sent as it is. */
  lemma GeneratedSent(cfg: Config, c: Client, e: Existing, p: Plan)
    requires p.Check? && p.pathEnd <= |p.s| && p.keep == Unset && p.proto == cfg.qProtocolId && p.qType !in "XZI"
    requires !e.Absent? ==> p.pathEnd <= e.at
    ensures Sends(Conclude(cfg, c, e, p), p.s[..p.pathEnd] + p.text)
  {
    hide Verdict;
    GeneratedPasses(cfg, c, p.s, p.qType, "", p.text);
  }

  /** No usable construct, from a client that is inbound or an uplink, and not rewritten as its own. */
  ghost predicate Unusable(c: Client, s: string, viaStart: nat, pathLen: nat, e: Existing, originated: bool) {
    && Came(s, viaStart, pathLen, e) && !e.Found?
    && if Inbound(c) then !c.udpSubmit && !originated else c.uplinkPort && !OwnPacketRewritten(c, e, originated)
  }

  /** The plans for a path that ends with a call and ",I". */
  lemma CallPlans(cfg: Config, c: Client, s: string, viaStart: nat, pathLen: nat, cut: nat, e: Existing, p: nat)
    requires !e.Found? && 3 <= viaStart <= cut <= |s| && p + 3 <= cut
    requires EndsWithI(s, pathLen, cut) && ViaCallBeforeI(s, viaStart, cut) == Some(p)
    ensures var call := s[p + 1..cut - 2];
      && ClientOnlyRelay(cfg, c, s, viaStart, pathLen, cut, e)
         == Check(s, p, Q(cfg, 'o', call), cfg.qProtocolId, 'o', Unset)
      && ForwardPlan(cfg, c, s, viaStart, pathLen, cut, e, false)
         == (if SameFolded(c.username, call) then Check(s, p, Q(cfg, 'R', c.username), cfg.qProtocolId, 'R', Unset)
             else Check(s, p, Q(cfg, 'r', call), cfg.qProtocolId, 'r', Unset))
      && (c.uplinkPort ==>
            OutboundPlan(cfg, c, s, viaStart, pathLen, cut, e)
            == Check(s, p, Q(cfg, 'r', call), cfg.qProtocolId, 'r', Unset))
  {
    hide ViaCallBeforeI, EndsWithI, SameFolded;
  }

  lemma RelayedCall(cfg: Config, c: Client, s: string, viaStart: nat, pathLen: nat, e: Existing,
    originated: bool, pre: string, call: string)
    requires Unusable(c, s, viaStart, pathLen, e, originated)
    requires EndsWithCallI(s[..Cut(e, pathLen)], viaStart, pre, call)
    ensures Sends(QSpec(cfg, c, s, viaStart, pathLen, originated), pre + RelayQ(cfg, c, call))
  {
    hide Locate, ViaCallBeforeI, SameFolded, Conclude, EndsWithI, Sends, Q, Header, EndsWithCallI;
    hide ClientOnlyRelay, ForwardPlan, OutboundPlan;
    LocateBounded(s, viaStart, pathLen);
    var cut := Cut(e, pathLen);
    ViaCallIs(s, viaStart, pathLen, cut, pre, call);
    CallPlans(cfg, c, s, viaStart, pathLen, cut, e, |pre|);
    GeneratedSent(cfg, c, e, MakePlan(cfg, c, s, viaStart, pathLen, e, originated));
  }

  lemma RelayedAlone(cfg: Config, c: Client, s: string, viaStart: nat, pathLen: nat, e: Existing,
    originated: bool)
    requires Unusable(c, s, viaStart, pathLen, e, originated) && s[viaStart..Cut(e, pathLen)] == ",I"
    ensures var out := QSpec(cfg, c, s, viaStart, pathLen, originated);
      if Inbound(c) && c.validated && c.clientOnly then Sends(out, s[..Cut(e, pathLen)] + Q(cfg, 'O', c.username))
      else out == Drop(-30)
  {
    LocateBounded(s, viaStart, pathLen);
    hide Locate, PrevComma, ViaCallBeforeI, SameFolded, Verdict, EndsWithI, Sends;
    NoViaCall(s, viaStart, pathLen, Cut(e, pathLen));
    if Inbound(c) && c.validated && c.clientOnly {
      GeneratedSent(cfg, c, e, MakePlan(cfg, c, s, viaStart, pathLen, e, originated));
    }
  }

  lemma RelayedPlain(cfg: Config, c: Client, s: string, viaStart: nat, pathLen: nat, e: Existing,
    originated: bool)
    requires Unusable(c, s, viaStart, pathLen, e, originated) && s[Cut(e, pathLen) - 2..Cut(e, pathLen)] != ",I"
    ensures Sends(QSpec(cfg, c, s, viaStart, pathLen, originated), s[..Cut(e, pathLen)] + PlainQ(cfg, c))
  {
    LocateBounded(s, viaStart, pathLen);
    hide Locate, PrevComma, ViaCallBeforeI, SameFolded, Conclude, EndsWithI, Sends;
    NotI(s, viaStart, pathLen, Cut(e, pathLen));
    GeneratedSent(cfg, c, e, MakePlan(cfg, c, s, viaStart, pathLen, e, originated));
  }

  /** Somebody else's packet without a usable construct is never dropped but for a path ",I". */
  lemma RelayedHeader(cfg: Config, c: Client, s: string, viaStart: nat, pathLen: nat, e: Existing,
    originated: bool)
    requires Unusable(c, s, viaStart, pathLen, e, originated)
    ensures viaStart <= Cut(e, pathLen) <= |s|
    ensures Relayed(cfg, c, s[..Cut(e, pathLen)], viaStart, QSpec(cfg, c, s, viaStart, pathLen, originated))
  {
    LocateBounded(s, viaStart, pathLen);
    hide Locate, QSpec, Sends, RelayQ, PlainQ, EndsWithCallI;
    var cut, out := Cut(e, pathLen), QSpec(cfg, c, s, viaStart, pathLen, originated);
    var path := s[..cut];
    forall pre, call | EndsWithCallI(path, viaStart, pre, call) ensures Sends(out, pre + RelayQ(cfg, c, call)) {
      RelayedCall(cfg, c, s, viaStart, pathLen, e, originated, pre, call);
    }
    assert path[viaStart..] == s[viaStart..cut] && path[cut - 2..] == s[cut - 2..cut];
    if path[viaStart..] == ",I" { RelayedAlone(cfg, c, s, viaStart, pathLen, e, originated); }
    if path[cut - 2..] != ",I" { RelayedPlain(cfg, c, s, viaStart, pathLen, e, originated); }
  }

  // ---------------------------------------------------------------- packets that keep their construct

  /** The construct found stays in the packet. */
  predicate Keeps(c: Client, e: Existing, originated: bool) {
    && e.Found?
    && if Inbound(c) then !c.udpSubmit && (originated ==> c.validated && !c.clientOnly && e.qType == 'I')
       else !OwnPacketRewritten(c, e, originated)
  }

  /** A verified client-only connection turns gated packets into 'o' and server packets into 'O'. */
  function PassedOnAs(c: Client, t: char): char {
    if !(Inbound(c) && c.validated && c.clientOnly) then t
    else if t == 'R' || t == 'r' then 'o'
    else if t == 'S' || t == 'C' then 'O'
    else t
  }

  lemma KeptPlanIs(cfg: Config, c: Client, s: string, viaStart: nat, pathLen: nat, e: Existing, originated: bool)
    requires Came(s, viaStart, pathLen, e) && Keeps(c, e, originated) && e.at + 5 < pathLen <= |s|
    ensures var t := PassedOnAs(c, e.qType);
      MakePlan(cfg, c, s, viaStart, pathLen, e, originated)
      == Check(s[e.at + 3 := t], pathLen, "", e.proto, t, QConstruct.At(e.at + 1))
  {
    LocateBounded(s, viaStart, pathLen);
    assert s[e.at + 3] == e.qType && s[e.at + 3 := e.qType] == s;
    hide Locate;
  }

  /** If it is not dropped, the packet keeps its header but for the type letter; a trace is
      extended. */
  lemma KeptHeader(cfg: Config, c: Client, s: string, viaStart: nat, pathLen: nat, e: Existing, originated: bool)
    requires Came(s, viaStart, pathLen, e) && Keeps(c, e, originated)
    ensures e.at + 5 < pathLen <= |s|
    ensures var t, out := PassedOnAs(c, e.qType), QSpec(cfg, c, s, viaStart, pathLen, originated);
      var h := s[..e.at + 3] + [t] + s[e.at + 4..pathLen];
      out.Keep? ==>
        Sends(out, if e.qType == 'I' then h + Join(Added(cfg, c, Calls(s[e.at + 4..pathLen]))) else h)
  {
    hide Locate, MakePlan, Conclude, Calls, Join, Added, Header, Sends;
    LocateBounded(s, viaStart, pathLen);
    KeptPlanIs(cfg, c, s, viaStart, pathLen, e, originated);
    var t := PassedOnAs(c, e.qType);
    var s' := s[e.at + 3 := t];
    assert s'[e.at + 4..pathLen] == s[e.at + 4..pathLen];
    assert s'[..pathLen] == s[..e.at + 3] + [t] + s[e.at + 4..pathLen];
    KeptSent(cfg, c, e, s', pathLen, t);
  }

  lemma KeptSent(cfg: Config, c: Client, e: Existing, s: string, pathLen: nat, t: char)
    requires e.Found? && e.at + 5 < pathLen <= |s|
    ensures var out := Conclude(cfg, c, e, Check(s, pathLen, "", e.proto, t, QConstruct.At(e.at + 1)));
      out.Keep? ==>
        Sends(out, if t == 'I' then s[..pathLen] + Join(Added(cfg, c, Calls(s[e.at + 4..pathLen]))) else s[..pathLen])
  {
    hide Verdict, Calls, Join, Added;
    var trace, r := s[e.at + 1..pathLen], s[e.at + 4..pathLen];
    PassedText(cfg, c, s, e.proto, t, trace, r, "");
    if t == 'I' && Verdict(cfg, c, s, e.proto, 'I', trace, r, "").Passed? {
      PassedTrace(cfg, c, s, e.proto, trace, r, "");
    }
    var tail := Join(Added(cfg, c, Calls(r)));
    assert s[..e.at + 1] + (trace + tail) == s[..pathLen] + tail;
    assert s[..pathLen] + "" == s[..pathLen];
  }

  /** A verified client-only connection's own packet loses its qAI trace. */
  lemma OwnTraceCut(cfg: Config, c: Client, s: string, viaStart: nat, pathLen: nat, e: Existing)
    requires Came(s, viaStart, pathLen, e) && Inbound(c) && !c.udpSubmit && c.validated && c.clientOnly
    requires TypeOf(e) == 'I'
    ensures Sends(QSpec(cfg, c, s, viaStart, pathLen, true), s[..e.at] + Q(cfg, 'C', cfg.serverId))
  {
    hide Locate;
    LocateBounded(s, viaStart, pathLen);
  }

  /** What a packet with a kept construct is judged by. */
  lemma KeptJudged(cfg: Config, c: Client, s: string, viaStart: nat, pathLen: nat, e: Existing, originated: bool)
    requires Came(s, viaStart, pathLen, e) && Keeps(c, e, originated) && e.qType == 'I'
    ensures e.at + 5 < pathLen <= |s|
    ensures QSpec(cfg, c, s, viaStart, pathLen, originated).Keep? <==>
            Verdict(cfg, c, s, e.proto, 'I', s[e.at + 1..pathLen], s[e.at + 4..pathLen], "").Passed?
  {
    hide Locate, MakePlan, Verdict, Header;
    LocateBounded(s, viaStart, pathLen);
    LetterStays(s, viaStart, pathLen, e);
    assert s[e.at + 3 := e.qType] == s;
    KeptPlanIs(cfg, c, s, viaStart, pathLen, e, originated);
  }

  /** The path of calls behind a construct. */
  lemma RegionWellformed(s: string, viaStart: nat, pathLen: nat, e: Existing)
    requires Came(s, viaStart, pathLen, e) && e.Found?
    ensures e.at + 5 < pathLen <= |s| && Wellformed(s[e.at + 4..pathLen])
  {
    LocateBounded(s, viaStart, pathLen);
  }

  /** A header with a qAI trace and more calls behind it has the same construct. */
  lemma LongerTrace(s: string, viaStart: nat, pathLen: nat, e: Existing, h: string)
    requires Came(s, viaStart, pathLen, e) && e.Found?
    requires Header(h, viaStart, |h|) && s[..pathLen] <= h
    ensures var e' := Locate(h, viaStart, |h|);
      Came(h, viaStart, |h|, e') && e'.Found? && e'.at == e.at && e'.qType == e.qType
  {
    LocateBounds(s, viaStart, pathLen);
    forall i | 0 <= i < pathLen ensures h[i] == s[i] { assert h[i] == s[..pathLen][i]; }
    LocateKept(s, h, viaStart, pathLen);
  }

  /** From header to header: a qAI packet this server has sent on is dropped when it comes back, with
      whatever calls other servers have put behind its trace. */
  lemma TraceLoopDropped(cfg: Config, c: Client, s: string, viaStart: nat, pathLen: nat, e: Existing, originated: bool,
                         r: string, sent: string, more: seq<string>, c': Client, h: string, originated': bool)
    requires Came(s, viaStart, pathLen, e) && Keeps(c, e, originated) && e.qType == 'I'
    requires e.at + 4 <= pathLen && r == s[e.at + 4..pathLen] && |Calls(r)| < 64
    requires Plain(c.username) && c.username != "" && Plain(cfg.serverId) && cfg.serverId != "" && Fields(more)
    requires OnlyWhole(Calls(r) + [c.username] + more, cfg.serverId)
    requires Sends(QSpec(cfg, c, s, viaStart, pathLen, originated), sent) && h == sent + Join(more)
    requires Header(h, viaStart, |h|) && Keeps(c', Locate(h, viaStart, |h|), originated')
    ensures QSpec(cfg, c', h, viaStart, |h|, originated').Drop?
  {
    hide Locate, QSpec, Verdict, Header, Calls, Join, Added, OnlyWhole, Wellformed, Fields, Plain;
    KeptHeader(cfg, c, s, viaStart, pathLen, e, originated);
    KeptJudged(cfg, c, s, viaStart, pathLen, e, originated);
    LetterStays(s, viaStart, pathLen, e);
    RegionWellformed(s, viaStart, pathLen, e);
    var added, e' := Join(Added(cfg, c, Calls(r))), Locate(h, viaStart, |h|);
    assert sent == s[..pathLen] + added;
    LongerTrace(s, viaStart, pathLen, e, h);
    KeptJudged(cfg, c', h, viaStart, |h|, e', originated');
    TailOf(s, pathLen, e.at + 4, added, Join(more));
    LoopDropped(cfg, c, s, e.proto, s[e.at + 1..pathLen], r, "", more, c', h, e'.proto, h[e.at + 1..|h|], "");
  }

  lemma TailOf(s: string, pathLen: nat, at: nat, added: string, more: string)
    requires at <= pathLen <= |s|
    ensures var h := s[..pathLen] + added + more; h[at..|h|] == s[at..pathLen] + added + more
  {
    var h := s[..pathLen] + added + more;
    assert h[at..|h|] == h[at..];
  }

  // ---------------------------------------------------------------- what a marker tells

  /** ",TCPXX" occurs in the header from viaStart on. */
  ghost predicate Marked(h: string, viaStart: nat) { exists i :: viaStart <= i && Text.At(h, ",TCPXX", i) }

  predicate Unmarking(call: string) { ',' !in call && !("TCPXX" <= call) }

  lemma MarkBefore(h: string, call: string, i: nat)
    requires Unmarking(call) && Text.At(h + "," + call, ",TCPXX", i)
    ensures i + 6 <= |h|
  {
    var all, n := h + "," + call, |h|;
    var w := all[i..i + 6];
    assert w == ",TCPXX" && forall k :: i <= k < i + 6 ==> all[k] == w[k - i];
    assert forall k :: n < k < |all| ==> all[k] == call[k - n - 1] && all[k] in call;
    assert forall k :: i < k < i + 6 ==> all[k] != ',';
    assert all[i] == ',' && all[n] == ',';
    if |call| >= 5 {
      var five := call[..5];
      assert five != "TCPXX";
      assert five == all[n + 1..n + 6];
      assert w[1..] == all[i + 1..i + 6] == "TCPXX";
    }
  }

  /** One more field of the path. */
  lemma MarkAppend(h: string, viaStart: nat, call: string)
    requires viaStart <= |h| && Unmarking(call)
    ensures Marked(h + "," + call, viaStart) <==> Marked(h, viaStart)
  {
    var all, n := h + "," + call, |h|;
    if Marked(all, viaStart) {
      var i :| viaStart <= i && Text.At(all, ",TCPXX", i);
      MarkBefore(h, call, i);
      assert h[i..i + 6] == all[i..i + 6];
      assert Text.At(h, ",TCPXX", i);
    }
    if Marked(h, viaStart) {
      var i :| viaStart <= i && Text.At(h, ",TCPXX", i);
      assert all[i..i + 6] == h[i..i + 6];
      assert Text.At(all, ",TCPXX", i);
    }
  }

  lemma MarkConstruct(cfg: Config, h: string, viaStart: nat, t: char)
    requires viaStart <= |h| && cfg.qProtocolId != ',' && t != ',' && Unmarking(cfg.serverId)
    ensures Marked(h + Q(cfg, t, cfg.serverId), viaStart) <==> Marked(h, viaStart)
  {
    hide Marked;
    var field := "q" + [cfg.qProtocolId, t];
    MarkAppend(h, viaStart, field);
    MarkAppend(h + "," + field, viaStart, cfg.serverId);
    assert h + Q(cfg, t, cfg.serverId) == h + "," + field + "," + cfg.serverId;
  }

  lemma MarkPrefix(s: string, viaStart: nat)
    requires viaStart <= |s|
    ensures !Marked(s[..viaStart] + ",TCPIP*", viaStart) && Marked(s[..viaStart] + ",TCPXX*", viaStart)
  {
    assert "TCPIP*"[3] == 'I' && "TCPXX"[3] == 'X';
    MarkAppend(s[..viaStart], viaStart, "TCPIP*");
    assert s[..viaStart] + ",TCPIP*" == s[..viaStart] + "," + "TCPIP*";
    var h := s[..viaStart] + ",TCPXX*";
    assert h[viaStart..viaStart + 6] == ",TCPXX";
    assert Text.At(h, ",TCPXX", viaStart);
  }

  lemma {:induction false} MarkTail(h: string, viaStart: nat, calls: seq<string>)
    requires viaStart <= |h| && forall x :: x in calls ==> Unmarking(x)
    ensures Marked(h + Join(calls), viaStart) <==> Marked(h, viaStart)
    decreases |calls|
  {
    hide Marked, Unmarking;
    if calls == [] {
      assert h + "" == h;
    } else {
      assert calls[0] in calls;
      MarkAppend(h, viaStart, calls[0]);
      MarkTail(h + "," + calls[0], viaStart, calls[1..]);
      assert h + Join(calls) == h + "," + calls[0] + Join(calls[1..]);
    }
  }

  /** A client's own packet leaves with TCPXX exactly if the client is not verified, or it is a qAI
      trace that has it in the part that is kept. */
  lemma MarkerTells(cfg: Config, c: Client, s: string, viaStart: nat, pathLen: nat, e: Existing)
    requires Came(s, viaStart, pathLen, e) && !c.udpSubmit && (e.Absent? || Inbound(c))
    requires cfg.qProtocolId != ',' && Unmarking(cfg.serverId) && Unmarking(c.username)
    requires var out := QSpec(cfg, c, s, viaStart, pathLen, true); out.Keep?
    ensures exists h :: Sends(QSpec(cfg, c, s, viaStart, pathLen, true), h)
    ensures forall h :: Sends(QSpec(cfg, c, s, viaStart, pathLen, true), h) ==>
      (Marked(h, viaStart) <==>
       !c.validated || (TypeOf(e) == 'I' && Marked(s[..if c.clientOnly then e.at else pathLen], viaStart)))
  {
    hide Locate, QSpec, Q, Marked, Unmarking, Join, Calls;
    LocateBounded(s, viaStart, pathLen);
    MarkPrefix(s, viaStart);
    if !c.validated {
      UnverifiedOwn(cfg, c, s, viaStart, pathLen, e);
      MarkConstruct(cfg, s[..viaStart] + ",TCPXX*", viaStart, 'X');
    } else if TypeOf(e) != 'I' {
      VerifiedOwn(cfg, c, s, viaStart, pathLen, e);
      MarkConstruct(cfg, s[..viaStart] + ",TCPIP*", viaStart, 'C');
    } else if c.clientOnly {
      LocateBounds(s, viaStart, pathLen);
      OwnTraceCut(cfg, c, s, viaStart, pathLen, e);
      MarkConstruct(cfg, s[..e.at], viaStart, 'C');
    } else {
      KeptHeader(cfg, c, s, viaStart, pathLen, e, true);
      LetterStays(s, viaStart, pathLen, e);
      MarkTail(s[..pathLen], viaStart, Added(cfg, c, Calls(s[e.at + 4..pathLen])));
    }
  }

  lemma LetterStays(s: string, viaStart: nat, pathLen: nat, e: Existing)
    requires Came(s, viaStart, pathLen, e) && e.Found?
    ensures viaStart <= e.at && e.at + 5 < pathLen <= |s|
    ensures s[..e.at + 3] + [e.qType] + s[e.at + 4..pathLen] == s[..pathLen]
  {
  }

  /** Such a trace: the marker is not taken off a verified client's own packet. */
  lemma MarkedTraceExample(cfg: Config, c: Client)
    requires Inbound(c) && !c.udpSubmit && c.validated && c.clientOnly
    requires cfg.qProtocolId == 'A' && Unmarking(cfg.serverId)
    ensures var s := "N0A>APRS,TCPXX*,qAI,N0B";
      && Header(s, 8, |s|)
      && Sends(QSpec(cfg, c, s, 8, |s|, true), "N0A>APRS,TCPXX*,qAC," + cfg.serverId)
  {
    hide QSpec, Locate, Sends;
    var s := "N0A>APRS,TCPXX*,qAI,N0B";
    assert s[15..17] == ",q" && s[8] == ',';
    forall j | 8 <= j < 15 ensures !Text.At(s, ",q", j) {
      assert s[j + 1] != 'q';
      assert j + 2 <= |s| ==> s[j..j + 2][1] == s[j + 1];
    }
    LocateExact(s, 8, |s|, 15);
    OwnTraceCut(cfg, c, s, 8, |s|, Locate(s, 8, |s|));
    assert s[..15] + Q(cfg, 'C', cfg.serverId) == "N0A>APRS,TCPXX*,qAC," + cfg.serverId;
  }
}
