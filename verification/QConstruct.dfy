/** q_process of src/parse_qc.c: finds, replaces or generates the q construct of a packet
    header.  Positions are indices into the packet text s; a header is s[..pathEnd], with the
    digipeater path starting at viaStart. */
module QConstruct {
  import opened Basics
  import opened Text
  import opened QCalls

  const INERR_Q_NONVAL_MULTI_Q_CALLS: int := -29
  const INERR_Q_I_NO_VIACALL: int := -30

  /** new_q_start: not set, a position, or computed from a null pointer. */
  datatype Ptr = Unset | At(i: nat) | Bogus

  datatype QOut =
    | Drop(code: int)
    | Keep(text: string, pathEnd: nat, qStart: Ptr, replace: Option<nat>, s: string)

  /** What incoming_parse guarantees about the header it passes. */
  predicate Header(s: string, viaStart: nat, pathEnd: nat) {
    && 3 <= viaStart <= pathEnd <= |s|
    && (forall i :: 0 <= i < viaStart ==> s[i] != ',')
    && (viaStart < pathEnd ==> s[viaStart] == ',')
    && (forall i :: 0 <= i < pathEnd ==> s[i] != ':')
  }

  // ---------------------------------------------------------------- the existing construct

  /** ",qPT,CALL": broken if there is no call after it or it is not three characters long. */
  datatype Existing = Absent | Broken(at: nat) | Found(at: nat, proto: char, qType: char, callEnd: nat)

  function CallEndAt(s: string, i: nat, hi: nat): (j: nat)
    requires i <= hi <= |s|
    ensures i <= j <= hi
    ensures forall k :: i <= k < j ==> s[k] != ',' && s[k] != ':'
    ensures j < hi ==> s[j] == ',' || s[j] == ':'
    decreases hi - i
  {
    if i < hi && s[i] != ',' && s[i] != ':' then CallEndAt(s, i + 1, hi) else i
  }

  function Locate(s: string, viaStart: nat, pathEnd: nat): (e: Existing)
    requires viaStart <= pathEnd <= |s|
    ensures e.Broken? ==> viaStart <= e.at < pathEnd && s[e.at] == ','
    ensures e.Found? ==> viaStart <= e.at && e.at + 5 < e.callEnd + 1 <= pathEnd + 1 && e.at + 5 < pathEnd
                         && s[e.at] == ',' && s[e.at + 1] == 'q' && s[e.at + 2] == e.proto
                         && s[e.at + 3] == e.qType && s[e.at + 4] == ',' && s[e.at + 5] != ','
  {
    var q := Find(s, ",q", viaStart, pathEnd);
    if q == None then Absent
    else
      var at := q.value;
      assert s[at..at + 2] == ",q";
      var next := FindChar(s, ',', at + 1, pathEnd);
      if next == None || next.value - at != 4 then Broken(at)
      else
        var end := CallEndAt(s, at + 5, pathEnd);
        if end == at + 5 then Broken(at) else Found(at, s[at + 2], s[at + 3], end)
  }

  // ---------------------------------------------------------------- header tests

  predicate EndsWithI(s: string, pathLen: nat, pathEnd: nat) {
    pathLen > 2 && 2 <= pathEnd <= |s| && s[pathEnd - 1] == 'I' && s[pathEnd - 2] == ','
  }

  predicate EndsWithTcpip(s: string, pathLen: nat, pathEnd: nat) {
    pathLen > 7 && pathEnd <= |s| && Text.At(s, ",TCPIP*", pathEnd - 7)
  }

  /** The last comma at or before p, looking no further than viaStart. */
  function PrevComma(s: string, viaStart: nat, p: nat): (j: nat)
    requires p < |s|
    ensures j <= p
    ensures viaStart <= p ==> viaStart <= j && (j == viaStart || s[j] == ',')
    ensures p < viaStart ==> j == p
    ensures forall k :: j < k <= p ==> s[k] != ','
    decreases p
  {
    if p > viaStart && s[p] != ',' then PrevComma(s, viaStart, p - 1) else p
  }

  // ---------------------------------------------------------------- the algorithm as a table

  /** Before the loop checks: a final result, or a construct that goes on to them.
      keep says that the existing construct is the packet's. */
  datatype Plan =
    | Final(out: QOut)
    | Check(s: string, pathEnd: nat, text: string, proto: char, qType: char, keep: Ptr)

  function Append(s: string, pathEnd: nat, text: string): Plan { Final(Keep(text, pathEnd, Unset, None, s)) }

  /** ",VIACALL,I" at the end: the position of the comma, if there is a VIACALL. */
  function ViaCallBeforeI(s: string, viaStart: nat, pathEnd: nat): Option<nat>
    requires 3 <= pathEnd <= |s|
  {
    var p := PrevComma(s, viaStart, pathEnd - 3);
    if s[p] == ',' then Some(p) else None
  }

  /** ",VIACALL,I" becomes ",qPt,VIACALL". */
  function FromI(cfg: Config, s: string, pathEnd: nat, p: nat, t: char): Plan
    requires p + 3 <= pathEnd <= |s|
  {
    Check(s, p, ",q" + [cfg.qProtocolId, t] + "," + s[p + 1..pathEnd - 2], cfg.qProtocolId, t, Unset)
  }

  function Generate(cfg: Config, s: string, pathEnd: nat, t: char, call: string): Plan {
    Check(s, pathEnd, ",q" + [cfg.qProtocolId, t] + "," + call, cfg.qProtocolId, t, Unset)
  }

  /** A verified client-only connection relaying somebody else's packet. */
  function ClientOnlyRelay(cfg: Config, c: Client, s: string, viaStart: nat, pathLen: nat, pathEnd: nat,
                           e: Existing): Plan
    requires 3 <= pathEnd <= |s| && (e.Found? ==> e.at + 5 < pathEnd)
  {
    if e.Found? && e.proto != '\0' then
      var t := if e.qType == 'R' || e.qType == 'r' then 'o'
               else if e.qType == 'S' || e.qType == 'C' then 'O' else e.qType;
      Check(s[e.at + 3 := t], pathEnd, "", e.proto, t, At(e.at + 1))
    else if EndsWithI(s, pathLen, pathEnd) && ViaCallBeforeI(s, viaStart, pathEnd).Some? then
      FromI(cfg, s, pathEnd, ViaCallBeforeI(s, viaStart, pathEnd).value, 'o')
    else Generate(cfg, s, pathEnd, 'O', c.username)
  }

  predicate HasQ(e: Existing) { e.Found? && e.proto != '\0' }

  function TypeOf(e: Existing): char { if e.Found? then e.qType else '\0' }
  function ProtoOf(e: Existing): char { if e.Found? then e.proto else '\0' }

  function Construct(cfg: Config, t: char): string { ",q" + [cfg.qProtocolId, t] + "," + cfg.serverId }

  /** Packets of others, or of unverified clients, from a server or a full connection. */
  function ForwardPlan(cfg: Config, c: Client, s: string, viaStart: nat, pathLen: nat, pathEnd: nat,
                       e: Existing, originated: bool): Plan
    requires 3 <= viaStart <= pathEnd <= |s|
  {
    if HasQ(e) then
      Check(s, pathEnd, "", e.proto, e.qType, At(e.at + 1))
    else if EndsWithI(s, pathLen, pathEnd) then
      var p := ViaCallBeforeI(s, viaStart, pathEnd);
      if p == None then Final(Drop(INERR_Q_I_NO_VIACALL))
      else if SameFolded(c.username, s[p.value + 1..pathEnd - 2])
        then Check(s, p.value, ",q" + [cfg.qProtocolId, 'R'] + "," + c.username, cfg.qProtocolId, 'R', Unset)
      else FromI(cfg, s, pathEnd, p.value, 'r')
    else if originated then
      Append(s, pathEnd, (if EndsWithTcpip(s, pathLen, pathEnd) then "" else ",TCPIP*") + ",qAC," + cfg.serverId)
    else Generate(cfg, s, pathEnd, 'S', c.username)
  }

  /** Packets from a connection to one of our ports. */
  function InboundPlan(cfg: Config, c: Client, s: string, viaStart: nat, pathLen: nat, pathEnd: nat,
                       e: Existing, originated: bool): Plan
    requires 3 <= viaStart <= pathEnd <= |s| && (e.Found? ==> e.at + 5 < pathEnd) && (e.Broken? ==> e.at == pathEnd)
  {
    if c.udpSubmit then
      var end := if HasQ(e) then e.at else pathEnd;
      Append(s, end, (if EndsWithTcpip(s, pathLen, end) then "" else ",TCPIP*") + Construct(cfg, 'U'))
    else if !c.validated && originated then
      if HasQ(e) && e.callEnd < pathEnd then Final(Drop(INERR_Q_NONVAL_MULTI_Q_CALLS))
      else Append(s, viaStart, ",TCPXX*" + Construct(cfg, 'X'))
    else if c.validated && c.clientOnly && originated then
      Append(s, if e.Absent? then viaStart else e.at, Construct(cfg, 'C'))
    else if c.validated && c.clientOnly then
      ClientOnlyRelay(cfg, c, s, viaStart, pathLen, pathEnd, e)
    else ForwardPlan(cfg, c, s, viaStart, pathLen, pathEnd, e, originated)
  }

  /** Packets from a connection we made, or from a peer. */
  function OutboundPlan(cfg: Config, c: Client, s: string, viaStart: nat, pathLen: nat, pathEnd: nat,
                        e: Existing): Plan
    requires 3 <= viaStart <= pathEnd <= |s|
  {
    if HasQ(e) || !c.uplinkPort then
      Check(s, pathEnd, "", ProtoOf(e), TypeOf(e), if e.Absent? then Bogus else At(e.at + 1))
    else if EndsWithI(s, pathLen, pathEnd) then
      var p := ViaCallBeforeI(s, viaStart, pathEnd);
      if p == None then Final(Drop(INERR_Q_I_NO_VIACALL)) else FromI(cfg, s, pathEnd, p.value, 'r')
    else Generate(cfg, s, pathEnd, 'S', c.addrHex)
  }

  predicate Inbound(c: Client) { c.state == Connected && c.inPort }

  /** The sender's own packet gets a fresh path and construct. */
  predicate OwnPacketRewritten(c: Client, e: Existing, originated: bool) {
    originated && !c.udpSubmit && (e.Absent? || (c.validated && c.inPort && TypeOf(e) != 'I'))
  }

  function MakePlan(cfg: Config, c: Client, s: string, viaStart: nat, pathLen: nat,
                    e: Existing, originated: bool): Plan
    requires 3 <= viaStart <= pathLen <= |s|
    requires (e.Found? ==> e.at + 5 < pathLen) && (e.Broken? ==> viaStart <= e.at <= pathLen)
  {
    var pathEnd := if e.Broken? then e.at else pathLen;
    if e.Absent? && originated && !c.udpSubmit then
      Final(Keep(if c.validated then ",TCPIP*" + Construct(cfg, 'C') else ",TCPXX*" + Construct(cfg, 'X'),
                 pathEnd, Unset, Some(viaStart), s))
    else if c.validated && originated && c.inPort && TypeOf(e) != 'I' && !c.udpSubmit then
      Final(Keep(",TCPIP*" + Construct(cfg, 'C'), pathEnd, Unset, Some(viaStart), s))
    else if Inbound(c) then InboundPlan(cfg, c, s, viaStart, pathLen, pathEnd, e, originated)
    else OutboundPlan(cfg, c, s, viaStart, pathLen, pathEnd, e)
  }

  // The path after the construct; nothing is left of it when the construct was cut off.
  function Region(s: string, e: Existing, pathEnd: nat): string
    requires pathEnd <= |s|
  {
    if e.Absent? || pathEnd < e.at + 4 then "" else s[e.at + 4..pathEnd]
  }

  function TraceOf(s: string, e: Existing, pathEnd: nat): string
    requires pathEnd <= |s|
  {
    if e.Absent? || pathEnd < e.at + 1 then "" else s[e.at + 1..pathEnd]
  }

  function Conclude(cfg: Config, c: Client, e: Existing, p: Plan): QOut
    requires p.Check? ==> p.pathEnd <= |p.s|
  {
    match p
    case Final(out) => out
    case Check(s, pathEnd, text, proto, t, keep) =>
      match Verdict(cfg, c, s, proto, t, TraceOf(s, e, pathEnd), Region(s, e, pathEnd), text)
      case Dropped(code) => Drop(code)
      case Passed(full, replace) =>
        Keep(full, pathEnd, keep, if replace && !e.Absent? then Some(e.at + 1) else None, s)
  }

  // ---------------------------------------------------------------- shape of the result

  /** Everything a plan may change: the end of the path moves towards viaStart, never past
      it, and at most the type letter of the existing construct is rewritten. */
  ghost predicate Within(s: string, viaStart: nat, pathLen: nat, e: Existing, s': string, end: nat) {
    && viaStart <= end <= pathLen
    && (s' == s || (e.Found? && e.at + 3 < |s| && (s' == s[e.at + 3 := 'o'] || s' == s[e.at + 3 := 'O'])))
  }

  ghost predicate PlanInside(s: string, viaStart: nat, pathLen: nat, e: Existing, p: Plan) {
    match p
    case Final(Drop(code)) => code == INERR_Q_NONVAL_MULTI_Q_CALLS || code == INERR_Q_I_NO_VIACALL
    case Final(Keep(text, end, q, replace, s')) =>
      Within(s, viaStart, pathLen, e, s', end) && q == Unset && text != ""
      && (replace.Some? ==> replace.value == viaStart)
    case Check(s', end, text, proto, t, keep) =>
      && Within(s, viaStart, pathLen, e, s', end)
      && (e.Broken? ==> end <= e.at)
      && (if keep == Unset then text != "" && t != 'I' else text == "" && end == (if e.Broken? then e.at else pathLen))
      && (if keep.At? then !e.Absent? && keep.i == e.at + 1 else keep == Bogus ==> e.Absent?)
      && (t == 'I' ==> e.Found?)
  }

  lemma ViaCallInside(s: string, viaStart: nat, pathLen: nat, pathEnd: nat)
    requires Header(s, viaStart, pathLen) && viaStart <= pathEnd <= pathLen && EndsWithI(s, pathLen, pathEnd)
    ensures var p := ViaCallBeforeI(s, viaStart, pathEnd); p.Some? ==> viaStart <= p.value && p.value + 3 <= pathEnd
  {
  }

  lemma RelayInside(cfg: Config, c: Client, s: string, viaStart: nat, pathLen: nat, e: Existing)
    requires Header(s, viaStart, pathLen) && e == Locate(s, viaStart, pathLen)
    ensures var end := if e.Broken? then e.at else pathLen;
      var p := ClientOnlyRelay(cfg, c, s, viaStart, pathLen, end, e);
      PlanInside(s, viaStart, pathLen, e, p) && (p.Check? ==> p.keep != Bogus && (p.keep.At? ==> e.Found?))
  {
    var end := if e.Broken? then e.at else pathLen;
    if EndsWithI(s, pathLen, end) { ViaCallInside(s, viaStart, pathLen, end); }
    if e.Found? { assert s[e.at + 3 := e.qType] == s; }
  }

  lemma ForwardInside(cfg: Config, c: Client, s: string, viaStart: nat, pathLen: nat, e: Existing, originated: bool)
    requires Header(s, viaStart, pathLen) && e == Locate(s, viaStart, pathLen)
    ensures var end := if e.Broken? then e.at else pathLen;
      var p := ForwardPlan(cfg, c, s, viaStart, pathLen, end, e, originated);
      PlanInside(s, viaStart, pathLen, e, p) && (p.Check? ==> p.keep != Bogus && (p.keep.At? ==> e.Found?))
  {
    var end := if e.Broken? then e.at else pathLen;
    if EndsWithI(s, pathLen, end) { ViaCallInside(s, viaStart, pathLen, end); }
  }

  lemma InboundInside(cfg: Config, c: Client, s: string, viaStart: nat, pathLen: nat, e: Existing, originated: bool)
    requires Header(s, viaStart, pathLen) && e == Locate(s, viaStart, pathLen)
    ensures var end := if e.Broken? then e.at else pathLen;
      var p := InboundPlan(cfg, c, s, viaStart, pathLen, end, e, originated);
      PlanInside(s, viaStart, pathLen, e, p) && (p.Check? ==> p.keep != Bogus && (p.keep.At? ==> e.Found?))
  {
    var end := if e.Broken? then e.at else pathLen;
    RelayInside(cfg, c, s, viaStart, pathLen, e);
    ForwardInside(cfg, c, s, viaStart, pathLen, e, originated);
  }

  lemma OutboundInside(cfg: Config, c: Client, s: string, viaStart: nat, pathLen: nat, e: Existing)
    requires Header(s, viaStart, pathLen) && e == Locate(s, viaStart, pathLen)
    ensures var end := if e.Broken? then e.at else pathLen;
      var p := OutboundPlan(cfg, c, s, viaStart, pathLen, end, e);
      PlanInside(s, viaStart, pathLen, e, p)
      && (p.Check? ==> (p.keep == Bogus <==> !c.uplinkPort && e.Absent?)
                       && (p.keep.At? && !e.Found? <==> !c.uplinkPort && e.Broken?))
  {
  }

  /** Whether the plan rests on a construct that is not there. */
  predicate Baseless(e: Existing, p: Plan) { p.Check? && p.keep != Unset && !e.Found? }

  lemma PlanIsInside(cfg: Config, c: Client, s: string, viaStart: nat, pathLen: nat, e: Existing, originated: bool)
    requires Header(s, viaStart, pathLen) && e == Locate(s, viaStart, pathLen)
    ensures var p := MakePlan(cfg, c, s, viaStart, pathLen, e, originated);
      && PlanInside(s, viaStart, pathLen, e, p)
      && (Baseless(e, p) <==> !(Inbound(c) || c.uplinkPort || e.Found? || OwnPacketRewritten(c, e, originated)))
  {
    InboundInside(cfg, c, s, viaStart, pathLen, e, originated);
    OutboundInside(cfg, c, s, viaStart, pathLen, e);
  }

  /** q_process as a whole. */
  function QSpec(cfg: Config, c: Client, s: string, viaStart: nat, pathLen: nat, originated: bool): QOut
    requires Header(s, viaStart, pathLen)
  {
    var e := Locate(s, viaStart, pathLen);
    PlanIsInside(cfg, c, s, viaStart, pathLen, e, originated);
    Conclude(cfg, c, e, MakePlan(cfg, c, s, viaStart, pathLen, e, originated))
  }

  /** What incoming_parse needs: new text with no start pointer, or a start pointer strictly
      inside the remaining path. */
  predicate HasConstruct(out: QOut, viaStart: nat)
    requires out.Keep?
  {
    if out.qStart == Unset then out.text != "" else out.qStart.At? && viaStart < out.qStart.i < out.pathEnd
  }

  lemma ConcludeInside(cfg: Config, c: Client, s: string, viaStart: nat, pathLen: nat, e: Existing, p: Plan)
    requires Header(s, viaStart, pathLen) && e == Locate(s, viaStart, pathLen)
    requires PlanInside(s, viaStart, pathLen, e, p) && Conclude(cfg, c, e, p).Keep?
    ensures var out := Conclude(cfg, c, e, p);
      && (HasConstruct(out, viaStart) <==> !Baseless(e, p))
      && (out.replace.Some? ==> viaStart <= out.replace.value <= out.pathEnd)
      && (out.qStart.At? ==> viaStart < out.qStart.i && (out.replace.Some? ==> out.replace.value == out.qStart.i))
      && Within(s, viaStart, pathLen, e, out.s, out.pathEnd)
  {
    if p.Check? {
      PassedText(cfg, c, p.s, p.proto, p.qType, TraceOf(p.s, e, p.pathEnd), Region(p.s, e, p.pathEnd), p.text);
    }
  }

  /** q_process never leaves a packet without a construct, exactly but for a client that is
      neither inbound nor an uplink, whose packet has no usable construct and is not its own with
      the path rewritten. */
  lemma ConstructAlways(cfg: Config, c: Client, s: string, viaStart: nat, pathLen: nat, originated: bool)
    requires Header(s, viaStart, pathLen)
    requires QSpec(cfg, c, s, viaStart, pathLen, originated).Keep?
    ensures HasConstruct(QSpec(cfg, c, s, viaStart, pathLen, originated), viaStart) <==>
            Inbound(c) || c.uplinkPort || Locate(s, viaStart, pathLen).Found?
            || OwnPacketRewritten(c, Locate(s, viaStart, pathLen), originated)
  {
    var e := Locate(s, viaStart, pathLen);
    PlanIsInside(cfg, c, s, viaStart, pathLen, e, originated);
    ConcludeInside(cfg, c, s, viaStart, pathLen, e, MakePlan(cfg, c, s, viaStart, pathLen, e, originated));
  }

  /** Every drop has a code of its own, from qAX down to a disallowed protocol id. */
  lemma DropCodes(cfg: Config, c: Client, s: string, viaStart: nat, pathLen: nat, originated: bool)
    requires Header(s, viaStart, pathLen)
    ensures var out := QSpec(cfg, c, s, viaStart, pathLen, originated);
      out.Drop? ==> INERR_Q_DISALLOW_PROTOCOL <= out.code <= INERR_Q_QAX
  {
    var e := Locate(s, viaStart, pathLen);
    var p := MakePlan(cfg, c, s, viaStart, pathLen, e, originated);
    PlanIsInside(cfg, c, s, viaStart, pathLen, e, originated);
    if p.Check? {
      DroppedCodes(cfg, c, p.s, p.proto, p.qType, TraceOf(p.s, e, p.pathEnd), Region(p.s, e, p.pathEnd), p.text);
    }
  }

  /** The cut lies between the start of the digipeater path and the original path end; the
      replaced part begins there too; and the packet text changes in one letter at most, the
      type of the existing construct. */
  lemma CutInsidePath(cfg: Config, c: Client, s: string, viaStart: nat, pathLen: nat, originated: bool)
    requires Header(s, viaStart, pathLen)
    requires QSpec(cfg, c, s, viaStart, pathLen, originated).Keep?
    ensures var out := QSpec(cfg, c, s, viaStart, pathLen, originated);
      && viaStart <= out.pathEnd <= pathLen
      && (out.replace.Some? ==> viaStart <= out.replace.value <= out.pathEnd)
      && (out.qStart.At? ==> viaStart < out.qStart.i && (out.replace.Some? ==> out.replace.value == out.qStart.i))
      && |out.s| == |s|
      && forall i :: 0 <= i < |s| && out.s[i] != s[i] ==>
           viaStart + 3 <= i < pathLen && s[i - 3..i - 1] == ",q" && out.s[i] in "oO"
  {
    var e, out := Locate(s, viaStart, pathLen), QSpec(cfg, c, s, viaStart, pathLen, originated);
    PlanIsInside(cfg, c, s, viaStart, pathLen, e, originated);
    ConcludeInside(cfg, c, s, viaStart, pathLen, e, MakePlan(cfg, c, s, viaStart, pathLen, e, originated));
    LetterChange(s, viaStart, pathLen, e, out.s, out.pathEnd);
  }

  lemma LetterChange(s: string, viaStart: nat, pathLen: nat, e: Existing, s': string, end: nat)
    requires Header(s, viaStart, pathLen) && e == Locate(s, viaStart, pathLen)
    requires Within(s, viaStart, pathLen, e, s', end)
    ensures |s'| == |s|
    ensures forall i :: 0 <= i < |s| && s'[i] != s[i] ==>
              viaStart + 3 <= i < pathLen && s[i - 3..i - 1] == ",q" && s'[i] in "oO"
  {
    if e.Found? { assert s[e.at..e.at + 2] == ",q"; }
  }

  // ---------------------------------------------------------------- what the type letter tells

  /** The type of a packet this server vouches for. */
  function OwnType(c: Client): char { if c.udpSubmit then 'U' else if c.validated then 'C' else 'X' }

  predicate RelayedType(c: Client, t: char) { if c.validated && c.clientOnly then t in "oO" else t in "RrS" }

  /** The type an existing construct is passed on with. */
  function KeptType(c: Client, t: char): char {
    if !(c.validated && c.clientOnly) then t else if t in "Rr" then 'o' else if t in "SC" then 'O' else t
  }

  /** The text is a construct of this type with this server as its call, after a marker or none. */
  predicate NamesServer(cfg: Config, text: string, t: char) {
    text == Construct(cfg, t) || text == ",TCPIP*" + Construct(cfg, t) || text == ",TCPXX*" + Construct(cfg, t)
  }

  predicate TypeTells(cfg: Config, c: Client, e: Existing, originated: bool, p: Plan) {
    match p
    case Final(Drop(_)) => true
    case Final(Keep(text, _, _, _, _)) => (originated || c.udpSubmit) && NamesServer(cfg, text, OwnType(c))
    case Check(_, _, text, proto, t, keep) =>
      && !c.udpSubmit
      && if keep == Unset then !originated && RelayedType(c, t) && proto == cfg.qProtocolId
         else e.Found? && t == KeptType(c, e.qType) && proto == e.proto && (originated ==> e.qType == 'I')
  }

  lemma ForwardTells(cfg: Config, c: Client, s: string, viaStart: nat, pathLen: nat, end: nat, e: Existing,
    originated: bool)
    requires 3 <= viaStart <= end <= |s| && !c.udpSubmit && !(c.validated && c.clientOnly)
    requires (e.Found? ==> e.proto != '\0') && (originated ==> e.Found? && e.qType == 'I')
    ensures TypeTells(cfg, c, e, originated, ForwardPlan(cfg, c, s, viaStart, pathLen, end, e, originated))
  {
  }

  lemma RelayTells(cfg: Config, c: Client, s: string, viaStart: nat, pathLen: nat, end: nat, e: Existing)
    requires 3 <= end <= |s| && (e.Found? ==> e.at + 5 < end && e.proto != '\0')
    requires !c.udpSubmit && c.validated && c.clientOnly
    ensures TypeTells(cfg, c, e, false, ClientOnlyRelay(cfg, c, s, viaStart, pathLen, end, e))
  {
  }

  /** For every inbound client and every header: this server puts its own call, with a type that says
      how the sender is known, exactly on packets the client sent itself or by UDP; all others get a
      relay type, or keep their construct. */
  lemma EntryType(cfg: Config, c: Client, s: string, viaStart: nat, pathLen: nat, originated: bool)
    requires Header(s, viaStart, pathLen) && Inbound(c)
    requires var e := Locate(s, viaStart, pathLen); e.Found? ==> e.proto != '\0'
    ensures var e := Locate(s, viaStart, pathLen);
      TypeTells(cfg, c, e, originated, MakePlan(cfg, c, s, viaStart, pathLen, e, originated))
  {
    var e := Locate(s, viaStart, pathLen);
    var end := if e.Broken? then e.at else pathLen;
    if c.udpSubmit || originated {
      assert [] + Construct(cfg, OwnType(c)) == Construct(cfg, OwnType(c));
    }
    if !c.udpSubmit && (originated ==> TypeOf(e) == 'I' && c.validated) {
      if c.validated && c.clientOnly && !originated {
        RelayTells(cfg, c, s, viaStart, pathLen, end, e);
      } else if !(c.validated && c.clientOnly) {
        ForwardTells(cfg, c, s, viaStart, pathLen, end, e, originated);
      }
    }
  }

  // ---------------------------------------------------------------- the code

  /** Existing construct: q_start, q_proto, q_type and the end of the call after it. */
  method ParseConstruct(s: string, viaStart: nat, pathEnd: nat) returns (e: Existing)
    requires viaStart <= pathEnd <= |s|
    ensures e == Locate(s, viaStart, pathEnd)
  {
    var q := Find(s, ",q", viaStart, pathEnd);
    if q == None { return Absent; }
    var qStart := q.value;
    assert s[qStart..qStart + 2] == ",q";
    var nextcall := FindChar(s, ',', qStart + 1, pathEnd);
    if nextcall == None || nextcall.value - qStart != 4 { return Broken(qStart); }
    var callEnd := qStart + 5;
    while callEnd < pathEnd && s[callEnd] != ',' && s[callEnd] != ':'
      invariant qStart + 5 <= callEnd <= pathEnd
      invariant CallEndAt(s, callEnd, pathEnd) == CallEndAt(s, qStart + 5, pathEnd)
    {
      callEnd := callEnd + 1;
    }
    if callEnd == qStart + 5 { return Broken(qStart); }
    return Found(qStart, s[qStart + 2], s[qStart + 3], callEnd);
  }

  /** The scan back for the call before ",I". */
  method FindViaCall(s: string, viaStart: nat, pathEnd: nat) returns (p: Option<nat>)
    requires 3 <= pathEnd <= |s|
    ensures p == ViaCallBeforeI(s, viaStart, pathEnd)
  {
    var i: nat := pathEnd - 3;
    while i > viaStart && s[i] != ','
      invariant i < |s| && PrevComma(s, viaStart, i) == PrevComma(s, viaStart, pathEnd - 3)
    {
      i := i - 1;
    }
    return if s[i] == ',' then Some(i) else None;
  }

  lemma LocateBounded(s: string, viaStart: nat, pathLen: nat)
    requires Header(s, viaStart, pathLen)
    ensures 3 <= viaStart <= pathLen <= |s|
    ensures var e := Locate(s, viaStart, pathLen);
      (e.Found? ==> e.at + 5 < pathLen) && (e.Broken? ==> viaStart <= e.at <= pathLen)
  {
  }

  lemma SpecIs(cfg: Config, c: Client, s: string, viaStart: nat, pathLen: nat, originated: bool, e: Existing, p: Plan)
    requires Header(s, viaStart, pathLen) && e == Locate(s, viaStart, pathLen)
    requires (e.Found? ==> e.at + 5 < pathLen) && (e.Broken? ==> viaStart <= e.at <= pathLen)
    requires p == MakePlan(cfg, c, s, viaStart, pathLen, e, originated) && (p.Check? ==> p.pathEnd <= |p.s|)
    ensures QSpec(cfg, c, s, viaStart, pathLen, originated) == Conclude(cfg, c, e, p)
  {
    hide MakePlan, Locate, Conclude;
  }

  /** What the loop checks need of a plan. */
  lemma PlanRegion(s: string, viaStart: nat, pathLen: nat, e: Existing, p: Plan)
    requires Header(s, viaStart, pathLen) && e == Locate(s, viaStart, pathLen)
    requires PlanInside(s, viaStart, pathLen, e, p) && p.Check?
    ensures p.pathEnd <= |p.s| && var r := Region(p.s, e, p.pathEnd); r != "" ==> r[0] == ','
  {
    RegionStart(s, viaStart, pathLen, e, p.s, p.pathEnd);
  }

  /** q_process */
  method QProcess(cfg: Config, c: Client, s: string, viaStart: nat, pathLen: nat, originated: bool)
    returns (out: QOut)
    requires Header(s, viaStart, pathLen)
    ensures out == QSpec(cfg, c, s, viaStart, pathLen, originated)
    ensures out.Drop? ==> INERR_Q_DISALLOW_PROTOCOL <= out.code <= INERR_Q_QAX
  {
    hide Locate, MakePlan, QSpec, Verdict, PlanInside, Header, Region, TraceOf;
    LocateBounded(s, viaStart, pathLen);
    DropCodes(cfg, c, s, viaStart, pathLen, originated);
    var e := ParseConstruct(s, viaStart, pathLen);
    var plan := MakePlan(cfg, c, s, viaStart, pathLen, e, originated);
    PlanIsInside(cfg, c, s, viaStart, pathLen, e, originated);
    if plan.Check? { PlanRegion(s, viaStart, pathLen, e, plan); }
    SpecIs(cfg, c, s, viaStart, pathLen, originated, e, plan);
    if plan.Final? { return plan.out; }
    var v := QDropcheck(cfg, c, plan.s, plan.proto, plan.qType,
                        TraceOf(plan.s, e, plan.pathEnd), Region(plan.s, e, plan.pathEnd), plan.text);
    if v.Dropped? { return Drop(v.code); }
    return Keep(v.text, plan.pathEnd, plan.keep, if v.replace && !e.Absent? then Some(e.at + 1) else None, plan.s);
  }

  lemma RegionStart(s: string, viaStart: nat, pathLen: nat, e: Existing, s': string, end: nat)
    requires Header(s, viaStart, pathLen) && e == Locate(s, viaStart, pathLen)
    requires Within(s, viaStart, pathLen, e, s', end) && (e.Broken? ==> end <= e.at)
    ensures var r := Region(s', e, end); r != "" ==> r[0] == ','
  {
  }
}
