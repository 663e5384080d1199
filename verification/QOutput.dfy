/** What a packet header looks like after the q construct algorithm: it always carries a
    well-formed construct, so that the next server finds one. */
module QOutput {
  import opened Basics
  import opened Text
  import opened QCalls
  import opened QConstruct

  /** The header as incoming_parse puts it together. */
  function OutHeader(out: QOut): string
    requires out.Keep? && out.pathEnd <= |out.s| && (out.replace.Some? ==> out.replace.value <= |out.s|)
  {
    out.s[..if out.replace.Some? then out.replace.value else out.pathEnd] + out.text
  }

  predicate Callish(call: string) { call != "" && call[0] != ',' && call[0] != ':' }

  predicate SaneConfig(cfg: Config, c: Client) {
    cfg.qProtocolId != ',' && Callish(cfg.serverId) && Callish(c.username) && Callish(c.addrHex)
  }

  predicate Fillers(pre: string) { pre == "" || pre == ",TCPIP*" || pre == ",TCPXX*" }

  /** A generated construct, with or without a TCPIP marker in front. */
  ghost predicate Generated(text: string) {
    exists pre, proto, t, call :: GeneratedAs(text, pre, proto, t, call)
  }

  predicate GeneratedAs(text: string, pre: string, proto: char, t: char, call: string) {
    Fillers(pre) && proto != ',' && t != ',' && Callish(call) && text == pre + (",q" + [proto, t] + "," + call)
  }

  ghost predicate NoQ(a: string, lo: nat) { forall j :: lo <= j ==> !Text.At(a, ",q", j) }

  /** A construct at this place, with no ",q" before it, is the one found. */
  lemma LocateAt(h: string, lo: nat, at: nat)
    requires lo <= at && at + 5 < |h|
    requires h[at] == ',' && h[at + 1] == 'q' && h[at + 2] != ',' && h[at + 3] != ',' && h[at + 4] == ','
    requires h[at + 5] != ',' && h[at + 5] != ':'
    requires forall j :: lo <= j < at ==> !Text.At(h, ",q", j)
    ensures var e := Locate(h, lo, |h|); e.Found? && e.at == at && e.proto == h[at + 2] && e.qType == h[at + 3]
  {
    assert h[at..at + 2] == ",q";
    FindIs(h, ",q", lo, |h|, at);
    FindCharIs(h, ',', at + 1, |h|, at + 4);
  }

  lemma NoQBefore(a: string, lo: nat, text: string, pre: string, rest: string, j: nat)
    requires NoQ(a, lo) && Fillers(pre) && text == pre + rest && rest != "" && rest[0] == ','
    requires lo <= j < |a| + |pre|
    ensures !Text.At(a + text, ",q", j)
  {
    var h := a + text;
    if j + 2 <= |h| {
      var w := h[j..j + 2];
      assert w[0] == h[j] && w[1] == h[j + 1];
      if j + 1 < |a| {
        assert w == a[j..j + 2];
        assert !Text.At(a, ",q", j);
      } else if j < |a| {
        assert h[j + 1] == text[0] == ',';
      } else {
        assert h[j] == pre[j - |a|];
        assert j == |a| ==> h[j + 1] == pre[1] == 'T';
      }
    }
  }

  lemma LocateGenerated(a: string, lo: nat, text: string, pre: string, proto: char, t: char, call: string)
    requires lo <= |a| && NoQ(a, lo) && GeneratedAs(text, pre, proto, t, call)
    ensures var e := Locate(a + text, lo, |a + text|);
      e.Found? && e.at == |a| + |pre| && e.proto == proto && e.qType == t
  {
    var h := a + text;
    var rest := ",q" + [proto, t] + "," + call;
    forall j | lo <= j < |a| + |pre| ensures !Text.At(h, ",q", j) { NoQBefore(a, lo, text, pre, rest, j); }
    assert h[|a| + |pre|..] == rest;
    var at := |a| + |pre|;
    assert h[at] == rest[0] && h[at + 1] == rest[1] && h[at + 2] == rest[2];
    assert h[at + 3] == rest[3] && h[at + 4] == rest[4] && h[at + 5] == rest[5];
    LocateAt(h, lo, at);
  }

  /** A kept construct is found again where it was, whatever follows its first call. */
  lemma LocateKept(s: string, h: string, lo: nat, hi: nat)
    requires lo <= hi <= |s| && Locate(s, lo, hi).Found?
    requires var at := Locate(s, lo, hi).at;
      && at + 5 < |h| && (forall i :: 0 <= i < at + 3 ==> h[i] == s[i])
      && h[at + 3] != ',' && h[at + 4] == ',' && h[at + 5] == s[at + 5]
    ensures var e, e' := Locate(s, lo, hi), Locate(h, lo, |h|);
      e'.Found? && e'.at == e.at && e'.proto == e.proto && e'.qType == h[e.at + 3]
  {
    var at := Locate(s, lo, hi).at;
    assert Find(s, ",q", lo, hi) == Some(at);
    forall j | lo <= j < at ensures !Text.At(h, ",q", j) {
      assert h[j..j + 2] == s[j..j + 2];
      assert !Text.At(s, ",q", j);
    }
    assert FindChar(s, ',', at + 1, hi) == Some(at + 4);
    LocateAt(h, lo, at);
  }

  /** No empty fields in the digipeater path. */
  predicate NoEmptyCalls(s: string, viaStart: nat, pathLen: nat)
    requires pathLen <= |s|
  {
    forall i :: viaStart <= i && i + 1 < pathLen && s[i] == ',' ==> s[i + 1] != ','
  }

  /** New text goes where no construct is left in front of it. */
  ghost predicate Fresh(s: string, e: Existing, pathLen: nat, text: string, cut: nat, s': string) {
    Generated(text) && s' == s && cut <= if e.Absent? then pathLen else e.at
  }

  ghost predicate FreshPlan(s: string, e: Existing, pathLen: nat, p: Plan) {
    match p
    case Final(Drop(_)) => true
    case Final(Keep(text, end, _, replace, s')) =>
      Fresh(s, e, pathLen, text, if replace.Some? then replace.value else end, s')
    case Check(s', end, text, _, _, keep) => keep == Unset ==> Fresh(s, e, pathLen, text, end, s')
  }

  lemma MakesGenerated(pre: string, proto: char, t: char, call: string)
    requires Fillers(pre) && proto != ',' && t != ',' && Callish(call)
    ensures Generated(pre + (",q" + [proto, t] + "," + call))
  {
    assert GeneratedAs(pre + (",q" + [proto, t] + "," + call), pre, proto, t, call);
  }

  lemma FromIGenerated(cfg: Config, s: string, viaStart: nat, pathLen: nat, pathEnd: nat, t: char)
    requires Header(s, viaStart, pathLen) && viaStart <= pathEnd <= pathLen && NoEmptyCalls(s, viaStart, pathLen)
    requires EndsWithI(s, pathLen, pathEnd) && ViaCallBeforeI(s, viaStart, pathEnd).Some?
    requires cfg.qProtocolId != ',' && t != ','
    ensures var p := ViaCallBeforeI(s, viaStart, pathEnd).value;
      p + 3 <= pathEnd && Generated(FromI(cfg, s, pathEnd, p, t).text)
  {
    ViaCallInside(s, viaStart, pathLen, pathEnd);
    var p := ViaCallBeforeI(s, viaStart, pathEnd).value;
    var call := s[p + 1..pathEnd - 2];
    assert s[pathEnd - 3] != ',' by { assert pathEnd - 3 >= viaStart; }
    assert Callish(call);
    MakesGenerated("", cfg.qProtocolId, t, call);
    assert FromI(cfg, s, pathEnd, p, t).text == "" + (",q" + [cfg.qProtocolId, t] + "," + call);
  }

  lemma GenerateGenerated(cfg: Config, s: string, pathEnd: nat, t: char, call: string)
    requires cfg.qProtocolId != ',' && t != ',' && Callish(call)
    ensures Generated(Generate(cfg, s, pathEnd, t, call).text)
  {
    MakesGenerated("", cfg.qProtocolId, t, call);
    assert Generate(cfg, s, pathEnd, t, call).text == "" + (",q" + [cfg.qProtocolId, t] + "," + call);
  }

  lemma ConstructGenerated(cfg: Config, pre: string, t: char)
    requires cfg.qProtocolId != ',' && t != ',' && Callish(cfg.serverId) && Fillers(pre)
    ensures Generated(pre + Construct(cfg, t)) && Generated(Construct(cfg, t))
    ensures Generated(pre + ",qAC," + cfg.serverId)
  {
    MakesGenerated(pre, cfg.qProtocolId, t, cfg.serverId);
    MakesGenerated("", cfg.qProtocolId, t, cfg.serverId);
    MakesGenerated(pre, 'A', 'C', cfg.serverId);
    assert "" + Construct(cfg, t) == Construct(cfg, t);
    assert pre + ",qAC," + cfg.serverId == pre + (",q" + ['A', 'C'] + "," + cfg.serverId);
  }

  ghost predicate Setting(cfg: Config, c: Client, s: string, viaStart: nat, pathLen: nat, e: Existing) {
    && Header(s, viaStart, pathLen) && e == Locate(s, viaStart, pathLen)
    && NoEmptyCalls(s, viaStart, pathLen) && SaneConfig(cfg, c) && (e.Found? ==> e.proto != '\0')
  }

  lemma RelayFresh(cfg: Config, c: Client, s: string, viaStart: nat, pathLen: nat, e: Existing)
    requires Setting(cfg, c, s, viaStart, pathLen, e)
    ensures var end := if e.Broken? then e.at else pathLen;
      FreshPlan(s, e, pathLen, ClientOnlyRelay(cfg, c, s, viaStart, pathLen, end, e))
  {
    var end := if e.Broken? then e.at else pathLen;
    if EndsWithI(s, pathLen, end) && ViaCallBeforeI(s, viaStart, end).Some? {
      FromIGenerated(cfg, s, viaStart, pathLen, end, 'o');
    }
    GenerateGenerated(cfg, s, end, 'O', c.username);
  }

  lemma ForwardFresh(cfg: Config, c: Client, s: string, viaStart: nat, pathLen: nat, e: Existing, originated: bool)
    requires Setting(cfg, c, s, viaStart, pathLen, e)
    ensures var end := if e.Broken? then e.at else pathLen;
      FreshPlan(s, e, pathLen, ForwardPlan(cfg, c, s, viaStart, pathLen, end, e, originated))
  {
    var end := if e.Broken? then e.at else pathLen;
    if EndsWithI(s, pathLen, end) && ViaCallBeforeI(s, viaStart, end).Some? {
      FromIGenerated(cfg, s, viaStart, pathLen, end, 'r');
      GenerateGenerated(cfg, s, ViaCallBeforeI(s, viaStart, end).value, 'R', c.username);
    }
    GenerateGenerated(cfg, s, end, 'S', c.username);
    ConstructGenerated(cfg, if EndsWithTcpip(s, pathLen, end) then "" else ",TCPIP*", 'C');
  }

  lemma InboundFresh(cfg: Config, c: Client, s: string, viaStart: nat, pathLen: nat, e: Existing, originated: bool)
    requires Setting(cfg, c, s, viaStart, pathLen, e)
    ensures var end := if e.Broken? then e.at else pathLen;
      FreshPlan(s, e, pathLen, InboundPlan(cfg, c, s, viaStart, pathLen, end, e, originated))
  {
    RelayFresh(cfg, c, s, viaStart, pathLen, e);
    ForwardFresh(cfg, c, s, viaStart, pathLen, e, originated);
    ConstructGenerated(cfg, "", 'U');
    ConstructGenerated(cfg, ",TCPIP*", 'U');
    ConstructGenerated(cfg, ",TCPXX*", 'X');
    ConstructGenerated(cfg, "", 'C');
  }

  lemma OutboundFresh(cfg: Config, c: Client, s: string, viaStart: nat, pathLen: nat, e: Existing)
    requires Setting(cfg, c, s, viaStart, pathLen, e)
    ensures var end := if e.Broken? then e.at else pathLen;
      FreshPlan(s, e, pathLen, OutboundPlan(cfg, c, s, viaStart, pathLen, end, e))
  {
    var end := if e.Broken? then e.at else pathLen;
    if EndsWithI(s, pathLen, end) && ViaCallBeforeI(s, viaStart, end).Some? {
      FromIGenerated(cfg, s, viaStart, pathLen, end, 'r');
    }
    GenerateGenerated(cfg, s, end, 'S', c.addrHex);
  }

  lemma PlanFresh(cfg: Config, c: Client, s: string, viaStart: nat, pathLen: nat, e: Existing, originated: bool)
    requires Setting(cfg, c, s, viaStart, pathLen, e)
    ensures FreshPlan(s, e, pathLen, MakePlan(cfg, c, s, viaStart, pathLen, e, originated))
  {
    InboundFresh(cfg, c, s, viaStart, pathLen, e, originated);
    OutboundFresh(cfg, c, s, viaStart, pathLen, e);
    ConstructGenerated(cfg, ",TCPIP*", 'C');
    ConstructGenerated(cfg, ",TCPXX*", 'X');
  }

  lemma FreshReparses(s: string, viaStart: nat, pathLen: nat, e: Existing, text: string, cut: nat)
    requires Header(s, viaStart, pathLen) && e == Locate(s, viaStart, pathLen)
    requires viaStart <= cut && Fresh(s, e, pathLen, text, cut, s)
    ensures Locate(s[..cut] + text, viaStart, |s[..cut] + text|).Found?
  {
    var a := s[..cut];
    forall j | viaStart <= j ensures !Text.At(a, ",q", j) {
      if j + 2 <= cut {
        assert a[j..j + 2] == s[j..j + 2];
        assert !Text.At(s, ",q", j);
      }
    }
    var pre, proto, t, call :| GeneratedAs(text, pre, proto, t, call);
    LocateGenerated(a, viaStart, text, pre, proto, t, call);
  }

  /** The header up to the path end stays, also when it is replaced by an extended trace. */
  lemma KeptPrefix(cfg: Config, c: Client, e: Existing, p: Plan)
    requires p.Check? && p.pathEnd <= |p.s| && Conclude(cfg, c, e, p).Keep?
    requires e.Found? && p.text == "" && e.at + 1 <= p.pathEnd
    ensures var out := Conclude(cfg, c, e, p);
      && out.s == p.s && out.pathEnd == p.pathEnd && (out.replace.Some? ==> out.replace.value <= |out.s|)
      && p.s[..p.pathEnd] <= OutHeader(out)
  {
    var trace, r := TraceOf(p.s, e, p.pathEnd), Region(p.s, e, p.pathEnd);
    PassedText(cfg, c, p.s, p.proto, p.qType, trace, r, p.text);
    TracePrefix(cfg, c, p.s, p.proto, p.qType, trace, r, p.text);
    assert p.s[..e.at + 1] + trace == p.s[..p.pathEnd];
  }

  /** The construct that was kept, or extended as a qAI trace, is found again. */
  lemma KeptReparses(s: string, viaStart: nat, pathLen: nat, e: Existing, s': string, h: string)
    requires Header(s, viaStart, pathLen) && e == Locate(s, viaStart, pathLen) && e.Found?
    requires Within(s, viaStart, pathLen, e, s', pathLen) && s'[..pathLen] <= h
    ensures Locate(h, viaStart, |h|).Found?
  {
    forall i | 0 <= i < pathLen ensures h[i] == s'[i] { assert h[i] == s'[..pathLen][i]; }
    assert FindChar(s, ',', e.at + 1, pathLen) == Some(e.at + 4);
    LocateKept(s, h, viaStart, pathLen);
  }

  lemma TracePrefix(cfg: Config, c: Client, s: string, proto: char, qType: char,
                    trace: string, r: string, text: string)
    ensures var v := Verdict(cfg, c, s, proto, qType, trace, r, text);
      v.Passed? && v.replace ==> trace <= v.text
  {
  }

  ghost predicate Reparses(out: QOut, viaStart: nat) {
    && out.Keep? && out.pathEnd <= |out.s| && (out.replace.Some? ==> out.replace.value <= |out.s|)
    && viaStart <= |OutHeader(out)| && Locate(OutHeader(out), viaStart, |OutHeader(out)|).Found?
  }

  /** A plan that keeps the construct it found. */
  lemma KeptPlan(cfg: Config, c: Client, s: string, viaStart: nat, pathLen: nat, e: Existing, p: Plan)
    requires Header(s, viaStart, pathLen) && e == Locate(s, viaStart, pathLen) && PlanInside(s, viaStart, pathLen, e, p)
    requires p.Check? && p.keep != Unset && e.Found? && Conclude(cfg, c, e, p).Keep?
    ensures Reparses(Conclude(cfg, c, e, p), viaStart)
  {
    LocateBounds(s, viaStart, pathLen);
    hide Locate, Verdict, Conclude;
    KeptPrefix(cfg, c, e, p);
    KeptReparses(s, viaStart, pathLen, e, p.s, OutHeader(Conclude(cfg, c, e, p)));
  }

  lemma LocateBounds(s: string, viaStart: nat, pathLen: nat)
    requires Header(s, viaStart, pathLen)
    ensures var e := Locate(s, viaStart, pathLen); e.Found? ==> e.at + 4 < pathLen
  {
  }

  /** A plan with a new construct. */
  lemma FreshPlanReparses(cfg: Config, c: Client, s: string, viaStart: nat, pathLen: nat, e: Existing, p: Plan)
    requires Header(s, viaStart, pathLen) && e == Locate(s, viaStart, pathLen)
    requires PlanInside(s, viaStart, pathLen, e, p) && FreshPlan(s, e, pathLen, p)
    requires (p.Check? ==> p.keep == Unset) && Conclude(cfg, c, e, p).Keep?
    ensures Reparses(Conclude(cfg, c, e, p), viaStart)
  {
    hide Locate, Verdict, Generated;
    var out := Conclude(cfg, c, e, p);
    if p.Check? {
      PassedText(cfg, c, p.s, p.proto, p.qType, TraceOf(p.s, e, p.pathEnd), Region(p.s, e, p.pathEnd), p.text);
    }
    FreshReparses(s, viaStart, pathLen, e, out.text, if out.replace.Some? then out.replace.value else out.pathEnd);
  }

  /** A packet that is passed on carries a well-formed q construct, unless it came from a
      client that is neither inbound nor an uplink without having one. */
  lemma OutputReparses(cfg: Config, c: Client, s: string, viaStart: nat, pathLen: nat, originated: bool)
    requires Header(s, viaStart, pathLen) && Setting(cfg, c, s, viaStart, pathLen, Locate(s, viaStart, pathLen))
    requires Inbound(c) || c.uplinkPort || Locate(s, viaStart, pathLen).Found?
    requires QSpec(cfg, c, s, viaStart, pathLen, originated).Keep?
    ensures Reparses(QSpec(cfg, c, s, viaStart, pathLen, originated), viaStart)
  {
    hide Locate, MakePlan, Conclude, Reparses, FreshPlan, Setting, Within;
    var e := Locate(s, viaStart, pathLen);
    var p := MakePlan(cfg, c, s, viaStart, pathLen, e, originated);
    PlanIsInside(cfg, c, s, viaStart, pathLen, e, originated);
    PlanFresh(cfg, c, s, viaStart, pathLen, e, originated);
    if p.Check? && p.keep != Unset {
      KeptPlan(cfg, c, s, viaStart, pathLen, e, p);
    } else {
      FreshPlanReparses(cfg, c, s, viaStart, pathLen, e, p);
    }
  }
}
