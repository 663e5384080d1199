/** The last block of the q construct algorithm (q_dropcheck in src/parse_qc.c): the calls
    after an existing construct are split out, checked for loops, and a qAI trace is extended. */
module QCalls {
  import opened Basics
  import opened Text

  const MAX_Q_CALLS: nat := 64
  const NEW_Q_SIZE: nat := 600

  const INERR_Q_QAX: int := -20
  const INERR_Q_QAZ: int := -21
  const INERR_Q_QPATH_MYCALL: int := -22
  const INERR_Q_QPATH_CALL_TWICE: int := -23
  const INERR_Q_PATH_LOGIN_NOT_LAST: int := -24
  const INERR_Q_PATH_CALL_IS_LOCAL_CLIENT: int := -25
  const INERR_Q_PATH_CALL_IS_INVALID: int := -26
  const INERR_Q_QAU_PATH_CALL_IS_SRCCALL: int := -27
  const INERR_Q_NEWQ_BUFFER_SMALL: int := -28
  const INERR_Q_DISALLOW_PROTOCOL: int := -31

  datatype ClientState = Connected | CorePeer | OtherState

  datatype Client = Client(state: ClientState, inPort: bool, uplinkPort: bool, udpSubmit: bool,
                           clientOnly: bool, dupeFeed: bool, validated: bool,
                           username: string, addrHex: string)

  /** localLogins holds the verified logins on this server. */
  datatype Config = Config(serverId: string, qProtocolId: char, disallowOtherProtocolId: bool,
                           disallowUnverified: bool, localLogins: set<string>)

  // ---------------------------------------------------------------- callsigns

  predicate AlNum(ch: char) { '0' <= ch <= '9' || 'A' <= ch <= 'Z' || 'a' <= ch <= 'z' }

  predicate ValidQCall(call: string) {
    && (1 <= |call| <= CALLSIGNLEN_MAX || |call| == 32)
    && forall i :: 0 <= i < |call| ==> AlNum(call[i]) || call[i] == '-'
  }

  /** check_invalid_q_callsign */
  method CheckInvalidQCallsign(call: string) returns (rc: int)
    ensures rc == if ValidQCall(call) then 0 else -1
  {
    if (|call| > CALLSIGNLEN_MAX || |call| < 1) && |call| != 32 { return -1; }
    for i := 0 to |call|
      invariant forall j :: 0 <= j < i ==> AlNum(call[j]) || call[j] == '-'
    {
      if !AlNum(call[i]) && call[i] != '-' { return -1; }
    }
    return 0;
  }

  predicate Plain(s: string) { ',' !in s }

  // ---------------------------------------------------------------- splitting

  function NonComma(r: string, i: nat): (j: nat)
    requires i <= |r|
    ensures i <= j <= |r| && (j < |r| ==> r[j] != ',') && forall k :: i <= k < j ==> r[k] == ','
    decreases |r| - i
  {
    if i < |r| && r[i] == ',' then NonComma(r, i + 1) else i
  }

  function NextComma(r: string, i: nat): (j: nat)
    requires i <= |r|
    ensures i <= j <= |r| && (j < |r| ==> r[j] == ',') && forall k :: i <= k < j ==> r[k] != ','
    ensures i < |r| && r[i] != ',' ==> i < j
    decreases |r| - i
  {
    if i < |r| && r[i] != ',' then NextComma(r, i + 1) else i
  }

  /** Where a call whose text ends at e is taken to end: just before the start of the next
      one, so that stray commas count as part of the call. */
  function CallEnd(r: string, e: nat, n: nat): (j: nat)
    requires e <= |r| && (e < |r| ==> r[e] == ',')
    ensures e <= j <= |r|
  {
    if n == 0 || e == |r| then e
    else
      var b := NonComma(r, e);
      if b == |r| then |r| else b - 1
  }

  function CallsFrom(r: string, i: nat, n: nat): seq<string>
    requires i <= |r|
    decreases |r| - i
  {
    if n == 0 || i == |r| then []
    else
      var b := NonComma(r, i);
      if b == |r| then []
      else
        var e := NextComma(r, b);
        [r[b..CallEnd(r, e, n - 1)]] + CallsFrom(r, e, n - 1)
  }

  /** The calls of the region after the construct; at most 64 are looked at. */
  function Calls(r: string): seq<string> { CallsFrom(r, 0, MAX_Q_CALLS) }

  // The same calls as the qcallv array has them: their starts, and where the scan stopped.

  function Starts(r: string, i: nat, n: nat): seq<nat>
    requires i <= |r|
    decreases |r| - i
  {
    if n == 0 || i == |r| then []
    else
      var b := NonComma(r, i);
      if b == |r| then [] else [b] + Starts(r, NextComma(r, b), n - 1)
  }

  function Stop(r: string, i: nat, n: nat): (j: nat)
    requires i <= |r|
    ensures i <= j <= |r|
    decreases |r| - i
  {
    if n == 0 || i == |r| then i
    else
      var b := NonComma(r, i);
      if b == |r| then |r| else Stop(r, NextComma(r, b), n - 1)
  }

  predicate Ascending(v: seq<nat>, hi: nat) {
    forall i, j :: 0 <= i < j < |v| ==> v[i] < v[j] <= hi + 1
  }

  /** Call i lies between two entries: l = qcallv[i+1] - qcallv[i] - 1 bytes. */
  function Between(r: string, v: seq<nat>): seq<string>
    requires |v| > 0 && Ascending(v, |r|)
    decreases |v|
  {
    if |v| == 1 then [] else assert v[0] < v[1]; [r[v[0]..v[1] - 1]] + Between(r, v[1..])
  }

  function Entries(r: string, i: nat, n: nat): seq<nat>
    requires i <= |r|
  {
    Starts(r, i, n) + [Stop(r, i, n) + 1]
  }

  lemma {:induction false} EntriesAscend(r: string, i: nat, n: nat)
    requires i <= |r|
    ensures Ascending(Entries(r, i, n), |r|)
    ensures forall j :: 0 <= j < |Entries(r, i, n)| ==> i <= Entries(r, i, n)[j] <= |r| + 1
    decreases n
  {
    if n > 0 && i < |r| && NonComma(r, i) < |r| {
      var b := NonComma(r, i);
      var e := NextComma(r, b);
      EntriesAscend(r, e, n - 1);
      assert Entries(r, i, n) == [b] + Entries(r, e, n - 1);
    }
  }

  lemma EntriesStep(r: string, i: nat, n: nat)
    requires n > 0 && i < |r| && r[i] == ',' && NonComma(r, i) < |r|
    ensures var b := NonComma(r, i);
      var e := NextComma(r, b);
      && i < b < e <= |r| && (e < |r| ==> r[e] == ',') && CallEnd(r, i, n) == b - 1
      && Entries(r, i, n) == [b] + Entries(r, e, n - 1)
      && CallsFrom(r, i, n) == [r[b..CallEnd(r, e, n - 1)]] + CallsFrom(r, e, n - 1)
  {
  }

  lemma BetweenStep(r: string, v: seq<nat>)
    requires |v| > 1 && Ascending(v, |r|)
    ensures Ascending(v[1..], |r|) && v[0] < v[1] <= |r| + 1
    ensures Between(r, v) == [r[v[0]..v[1] - 1]] + Between(r, v[1..])
  {
  }

  lemma EntriesLast(r: string, i: nat, n: nat)
    requires i <= |r| && (i < |r| ==> r[i] == ',') && (n == 0 || i == |r| || NonComma(r, i) == |r|)
    ensures |Entries(r, i, n)| == 1 && CallsFrom(r, i, n) == [] && Entries(r, i, n)[0] == CallEnd(r, i, n) + 1
    ensures Ascending(Entries(r, i, n), |r|) && Between(r, Entries(r, i, n)) == []
  {
  }

  lemma {:induction false} EntriesGiveCalls(r: string, i: nat, n: nat)
    requires i <= |r| && (i < |r| ==> r[i] == ',')
    ensures Ascending(Entries(r, i, n), |r|) && Between(r, Entries(r, i, n)) == CallsFrom(r, i, n)
    ensures |Entries(r, i, n)| > 0 && Entries(r, i, n)[0] == CallEnd(r, i, n) + 1
    decreases n
  {
    hide Entries, CallsFrom, CallEnd, NextComma, Between, Ascending;
    EntriesAscend(r, i, n);
    if n > 0 && i < |r| && NonComma(r, i) < |r| {
      var b := NonComma(r, i);
      var e := NextComma(r, b);
      EntriesStep(r, i, n);
      EntriesGiveCalls(r, e, n - 1);
      var v, rest := Entries(r, i, n), Entries(r, e, n - 1);
      assert v[1..] == rest && v[0] == b && v[1] == rest[0];
      BetweenStep(r, v);
    } else {
      EntriesLast(r, i, n);
    }
  }

  /** The loop that fills qcallv. */
  method CollectStarts(r: string, max: nat) returns (starts: seq<nat>, p: nat)
    ensures starts == Starts(r, 0, max) && p == Stop(r, 0, max)
  {
    starts, p := [], 0;
    while |starts| < max && p < |r|
      invariant p <= |r| && |starts| <= max
      invariant Starts(r, 0, max) == starts + Starts(r, p, max - |starts|)
      invariant Stop(r, 0, max) == Stop(r, p, max - |starts|)
      decreases max - |starts|
    {
      var b := SkipCommas(r, p);
      if b == |r| { p := b; break; }
      p := SkipCall(r, b);
      Regroup(starts, b, Starts(r, p, max - |starts| - 1));
      starts := starts + [b];
    }
  }

  lemma Regroup(xs: seq<nat>, b: nat, ys: seq<nat>)
    ensures xs + ([b] + ys) == (xs + [b]) + ys
  {
  }

  method CollectCalls(r: string, max: nat) returns (qcallv: seq<nat>)
    requires r != "" ==> r[0] == ','
    ensures |qcallv| > 0 && Ascending(qcallv, |r|) && Between(r, qcallv) == CallsFrom(r, 0, max)
  {
    var starts, p := CollectStarts(r, max);
    EntriesGiveCalls(r, 0, max);
    qcallv := starts + [p + 1];
  }

  method SkipCommas(r: string, p: nat) returns (b: nat)
    requires p <= |r|
    ensures b == NonComma(r, p)
  {
    b := p;
    while b < |r| && r[b] == ','
      invariant p <= b <= |r| && NonComma(r, b) == NonComma(r, p)
    {
      b := b + 1;
    }
  }

  method SkipCall(r: string, p: nat) returns (e: nat)
    requires p <= |r|
    ensures e == NextComma(r, p)
  {
    e := p;
    while e < |r| && r[e] != ','
      invariant p <= e <= |r| && NextComma(r, e) == NextComma(r, p)
    {
      e := e + 1;
    }
  }

  // ---------------------------------------------------------------- the checks

  /** Own server call in the path: only the first byte occurrence is looked at, and it must
      be a whole call. */
  predicate OwnServer(r: string, id: string) {
    var p := Find(r, id, 0, |r|);
    p.Some? && p.value > 0 && r[p.value - 1] == ','
    && (p.value + |id| == |r| || r[p.value + |id|] == ',' || r[p.value + |id|] == ':')
  }

  predicate SentBy(s: string, call: string) { |call| < |s| && s[..|call|] == call && s[|call|] == '>' }

  predicate Repeated(calls: seq<string>, i: nat)
    requires i < |calls|
  {
    exists j :: i < j < |calls| && calls[j] == calls[i]
  }

  /** The verdict on call i: 0, or the code it is dropped with. */
  function CallCode(cfg: Config, c: Client, calls: seq<string>, qType: char, s: string, i: nat): int
    requires i < |calls|
  {
    if Repeated(calls, i) then INERR_Q_QPATH_CALL_TWICE
    else if SameFolded(calls[i], c.username) && c.state == Connected && c.inPort && i != |calls| - 1
      then INERR_Q_PATH_LOGIN_NOT_LAST
    else if !SameFolded(calls[i], c.username) && calls[i] in cfg.localLogins
      then INERR_Q_PATH_CALL_IS_LOCAL_CLIENT
    else if !SameFolded(calls[i], c.username) && !ValidQCall(calls[i])
      then INERR_Q_PATH_CALL_IS_INVALID
    else if qType == 'U' && SentBy(s, calls[i]) then INERR_Q_QAU_PATH_CALL_IS_SRCCALL
    else 0
  }

  function FirstCode(cfg: Config, c: Client, calls: seq<string>, qType: char, s: string, i: nat): int
    requires i <= |calls|
    decreases |calls| - i
  {
    if i == |calls| then 0
    else if CallCode(cfg, c, calls, qType, s, i) != 0 then CallCode(cfg, c, calls, qType, s, i)
    else FirstCode(cfg, c, calls, qType, s, i + 1)
  }

  predicate LoginInPath(c: Client, calls: seq<string>) {
    exists i :: 0 <= i < |calls| && SameFolded(calls[i], c.username)
  }

  /** The trace a qAI packet is sent on with: q construct and calls as received, the login if
      it is verified and missing, and this server. */
  function ExtendedTrace(cfg: Config, c: Client, trace: string, calls: seq<string>): string {
    trace + (if c.validated && !LoginInPath(c, calls) && c.state != CorePeer then "," + c.username else "")
    + "," + cfg.serverId
  }

  datatype Checked = Dropped(code: int) | Passed(text: string, replace: bool)

  function ExtendVerdict(cfg: Config, c: Client, trace: string, calls: seq<string>): Checked {
    var full := ExtendedTrace(cfg, c, trace, calls);
    if |trace| > NEW_Q_SIZE || NEW_Q_SIZE - (|full| - 1 - |cfg.serverId|) < 20
      then Dropped(INERR_Q_NEWQ_BUFFER_SMALL)
    else Passed(full, true)
  }

  function CallsVerdict(cfg: Config, c: Client, s: string, qType: char,
                        trace: string, calls: seq<string>, text: string): Checked
  {
    var code := FirstCode(cfg, c, calls, qType, s, 0);
    if code != 0 then Dropped(code)
    else if qType != 'I' then Passed(text, false)
    else ExtendVerdict(cfg, c, trace, calls)
  }

  /** What q_dropcheck decides: trace is the construct with its calls (for qAI), r the region
      from the comma before the first call, text what was generated before. */
  function Verdict(cfg: Config, c: Client, s: string, proto: char, qType: char,
                   trace: string, r: string, text: string): Checked
  {
    if proto != cfg.qProtocolId && cfg.disallowOtherProtocolId then Dropped(INERR_Q_DISALLOW_PROTOCOL)
    else if qType == 'X' && cfg.disallowUnverified then Dropped(INERR_Q_QAX)
    else if qType == 'Z' then Dropped(INERR_Q_QAZ)
    else if OwnServer(r, cfg.serverId) then Dropped(INERR_Q_QPATH_MYCALL)
    else CallsVerdict(cfg, c, s, qType, trace, Calls(r), text)
  }

  lemma {:induction false} FirstCodeRange(cfg: Config, c: Client, calls: seq<string>, qType: char, s: string, i: nat)
    requires i <= |calls|
    ensures var code := FirstCode(cfg, c, calls, qType, s, i);
      code != 0 ==> INERR_Q_QAU_PATH_CALL_IS_SRCCALL <= code <= INERR_Q_QPATH_CALL_TWICE
    decreases |calls| - i
  {
    if i < |calls| { FirstCodeRange(cfg, c, calls, qType, s, i + 1); }
  }

  lemma DroppedCodes(cfg: Config, c: Client, s: string, proto: char, qType: char,
                     trace: string, r: string, text: string)
    ensures var v := Verdict(cfg, c, s, proto, qType, trace, r, text);
      v.Dropped? ==> INERR_Q_DISALLOW_PROTOCOL <= v.code <= INERR_Q_QAX
  {
    FirstCodeRange(cfg, c, Calls(r), qType, s, 0);
  }

  /** Only a qAI trace is replaced; anything else passes unchanged. */
  lemma PassedText(cfg: Config, c: Client, s: string, proto: char, qType: char,
                   trace: string, r: string, text: string)
    ensures var v := Verdict(cfg, c, s, proto, qType, trace, r, text);
      v.Passed? ==> v.replace == (qType == 'I') && (!v.replace ==> v.text == text)
  {
  }

  /** q_dropcheck, with the region after the construct cut out by the caller. */
  method QDropcheck(cfg: Config, c: Client, s: string, proto: char, qType: char,
                    trace: string, r: string, text: string) returns (v: Checked)
    requires r != "" ==> r[0] == ','
    ensures v == Verdict(cfg, c, s, proto, qType, trace, r, text)
  {
    if proto != cfg.qProtocolId && cfg.disallowOtherProtocolId { return Dropped(INERR_Q_DISALLOW_PROTOCOL); }
    if qType == 'X' && cfg.disallowUnverified { return Dropped(INERR_Q_QAX); }
    if qType == 'Z' { return Dropped(INERR_Q_QAZ); }
    var qcallv := CollectCalls(r, MAX_Q_CALLS);
    if OwnServer(r, cfg.serverId) { return Dropped(INERR_Q_QPATH_MYCALL); }
    v := FinishCheck(cfg, c, s, qType, trace, Between(r, qcallv), text);
  }

  method FinishCheck(cfg: Config, c: Client, s: string, qType: char,
                     trace: string, calls: seq<string>, text: string) returns (v: Checked)
    ensures v == CallsVerdict(cfg, c, s, qType, trace, calls, text)
  {
    var code, loginInPath := CheckCalls(cfg, c, calls, qType, s);
    if code != 0 { return Dropped(code); }
    if qType != 'I' { return Passed(text, false); }
    v := ExtendTrace(cfg, c, trace, calls, loginInPath);
  }

  method ExtendTrace(cfg: Config, c: Client, trace: string, calls: seq<string>, loginInPath: bool)
    returns (v: Checked)
    requires loginInPath == LoginInPath(c, calls)
    ensures v == ExtendVerdict(cfg, c, trace, calls)
  {
    if |trace| > NEW_Q_SIZE { return Dropped(INERR_Q_NEWQ_BUFFER_SMALL); }
    var newQ := trace;
    if c.validated && !loginInPath && c.state != CorePeer { newQ := newQ + ("," + c.username); }
    if NEW_Q_SIZE - |newQ| < 20 { return Dropped(INERR_Q_NEWQ_BUFFER_SMALL); }
    assert newQ == trace + (if c.validated && !loginInPath && c.state != CorePeer then "," + c.username else "");
    return Passed(newQ + "," + cfg.serverId, true);
  }

  /** The loop over the calls: stops at the first one that is not acceptable. */
  method CheckCalls(cfg: Config, c: Client, calls: seq<string>, qType: char, s: string)
    returns (code: int, loginInPath: bool)
    ensures code == FirstCode(cfg, c, calls, qType, s, 0)
    ensures code == 0 ==> loginInPath == LoginInPath(c, calls)
  {
    loginInPath := false;
    for i := 0 to |calls|
      invariant FirstCode(cfg, c, calls, qType, s, 0) == FirstCode(cfg, c, calls, qType, s, i)
      invariant loginInPath == exists k :: 0 <= k < i && SameFolded(calls[k], c.username)
    {
      for j := i + 1 to |calls|
        invariant forall k :: i < k < j ==> calls[k] != calls[i]
      {
        if |calls[i]| == |calls[j]| && calls[i] == calls[j] {
          assert Repeated(calls, i);
          return INERR_Q_QPATH_CALL_TWICE, loginInPath;
        }
      }
      if SameFolded(calls[i], c.username) {
        loginInPath := true;
        if c.state == Connected && c.inPort && i != |calls| - 1 {
          return INERR_Q_PATH_LOGIN_NOT_LAST, loginInPath;
        }
      } else if calls[i] in cfg.localLogins {
        return INERR_Q_PATH_CALL_IS_LOCAL_CLIENT, loginInPath;
      } else {
        var rc := CheckInvalidQCallsign(calls[i]);
        if rc != 0 { return INERR_Q_PATH_CALL_IS_INVALID, loginInPath; }
      }
      if qType == 'U' && SentBy(s, calls[i]) { return INERR_Q_QAU_PATH_CALL_IS_SRCCALL, loginInPath; }
    }
    return 0, loginInPath;
  }

  // ---------------------------------------------------------------- what acceptance means

  /** All calls are different; each is the sender's login, last if the sender connected to
      us, or a valid server call that is nobody else's verified login here. */
  ghost predicate LoopFree(cfg: Config, c: Client, calls: seq<string>) {
    && (forall i, j :: 0 <= i < j < |calls| ==> calls[i] != calls[j])
    && forall i :: 0 <= i < |calls| ==>
         if SameFolded(calls[i], c.username) then c.state == Connected && c.inPort ==> i == |calls| - 1
         else calls[i] !in cfg.localLogins && ValidQCall(calls[i])
  }

  lemma {:induction false} NoCodeMeansNone(cfg: Config, c: Client, calls: seq<string>, qType: char, s: string, i: nat)
    requires i <= |calls|
    ensures FirstCode(cfg, c, calls, qType, s, i) == 0 <==>
            forall k :: i <= k < |calls| ==> CallCode(cfg, c, calls, qType, s, k) == 0
    decreases |calls| - i
  {
    if i < |calls| { NoCodeMeansNone(cfg, c, calls, qType, s, i + 1); }
  }

  /** The loop lets a path pass exactly if it is free of loops and, for qAU, does not name
      the sender. */
  lemma PassedCalls(cfg: Config, c: Client, calls: seq<string>, qType: char, s: string)
    ensures FirstCode(cfg, c, calls, qType, s, 0) == 0 <==>
            LoopFree(cfg, c, calls) && (qType == 'U' ==> forall k :: 0 <= k < |calls| ==> !SentBy(s, calls[k]))
  {
    NoCodeMeansNone(cfg, c, calls, qType, s, 0);
    if LoopFree(cfg, c, calls) && (qType == 'U' ==> forall k :: 0 <= k < |calls| ==> !SentBy(s, calls[k])) {
      forall i | 0 <= i < |calls| ensures CallCode(cfg, c, calls, qType, s, i) == 0 {}
    }
    if FirstCode(cfg, c, calls, qType, s, 0) == 0 {
      forall i, j | 0 <= i < j < |calls| ensures calls[i] != calls[j] {
        assert CallCode(cfg, c, calls, qType, s, i) == 0;
      }
      forall i | 0 <= i < |calls|
        ensures if SameFolded(calls[i], c.username) then c.state == Connected && c.inPort ==> i == |calls| - 1
                else calls[i] !in cfg.localLogins && ValidQCall(calls[i])
        ensures qType == 'U' ==> !SentBy(s, calls[i])
      {
        assert CallCode(cfg, c, calls, qType, s, i) == 0;
      }
    }
  }

  function Join(calls: seq<string>): string {
    if calls == [] then "" else "," + calls[0] + Join(calls[1..])
  }

  lemma PlainCallEnds(r: string, b: nat, n: nat)
    requires b < |r| && r[b] != ','
    requires var e := NextComma(r, b); Plain(r[b..CallEnd(r, e, n)])
    ensures var e := NextComma(r, b); CallEnd(r, e, n) == e
  {
  }

  lemma TailsPlain(calls: seq<string>)
    requires calls != [] && forall c :: c in calls ==> Plain(c)
    ensures forall c :: c in calls[1..] ==> Plain(c)
  {
  }

  /** Calls without stray commas are the comma-separated fields of the region. */
  lemma {:induction false} PlainCallsAreFields(r: string, i: nat, n: nat)
    requires i < |r| && r[i] == ',' && NonComma(r, i) == i + 1 < |r| && n > 0
    requires forall c :: c in CallsFrom(r, i, n) ==> Plain(c)
    ensures Join(CallsFrom(r, i, n)) <= r[i..]
    ensures |CallsFrom(r, i, n)| < n ==> Join(CallsFrom(r, i, n)) == r[i..]
    decreases n
  {
    var b, calls := i + 1, CallsFrom(r, i, n);
    var e := NextComma(r, b);
    FieldsStep(r, i, n);
    hide CallsFrom, NextComma, CallEnd, NonComma, Join, Plain;
    var rest := CallsFrom(r, e, n - 1);
    TailsPlain(calls);
    assert calls[1..] == rest;
    if n > 1 && e < |r| {
      PlainCallsAreFields(r, e, n - 1);
    } else {
      NoCallsLeft(r, e, n - 1);
      JoinNone();
    }
    JoinCons(r[b..e], rest);
    CutAt(r, i, e, Join(rest));
  }

  lemma JoinNone() ensures Join([]) == "" {}

  lemma CutAt(r: string, i: nat, e: nat, rest: string)
    requires i < e <= |r| && r[i] == ',' && rest <= r[e..]
    ensures "," + r[i + 1..e] + rest <= r[i..]
    ensures rest == r[e..] ==> "," + r[i + 1..e] + rest == r[i..]
  {
    assert r[i..] == "," + r[i + 1..e] + r[e..];
  }

  lemma JoinCons(c: string, calls: seq<string>)
    ensures Join([c] + calls) == "," + c + Join(calls)
  {
    assert ([c] + calls)[1..] == calls;
  }

  lemma NoCallsLeft(r: string, e: nat, n: nat)
    requires e <= |r| && (n == 0 || e == |r|)
    ensures CallsFrom(r, e, n) == []
  {
  }

  /** The first of several plain calls ends at its comma. */
  lemma FieldsStep(r: string, i: nat, n: nat)
    requires i < |r| && r[i] == ',' && NonComma(r, i) == i + 1 < |r| && n > 0
    requires forall c :: c in CallsFrom(r, i, n) ==> Plain(c)
    ensures var e := NextComma(r, i + 1);
      && i + 1 < e <= |r| && CallsFrom(r, i, n) == [r[i + 1..e]] + CallsFrom(r, e, n - 1)
      && (n > 1 && e < |r| ==> r[e] == ',' && NonComma(r, e) == e + 1 < |r|)
  {
    var b, calls := i + 1, CallsFrom(r, i, n);
    var e := NextComma(r, b);
    EntriesStep(r, i, n);
    hide CallsFrom;
    assert calls[0] in calls;
    PlainCallEnds(r, b, n - 1);
  }

  lemma ValidIsPlain(call: string, login: string)
    requires Plain(login) && (SameFolded(call, login) || ValidQCall(call))
    ensures Plain(call)
  {
    forall i | 0 <= i < |call| ensures call[i] != ',' {
      if SameFolded(call, login) { assert login[i] in login; }
    }
  }

  /** An accepted path is free of loops among its first 64 calls, and those calls are the
      comma-separated fields that start it: all of it, if there are fewer than 64. */
  lemma AcceptedPath(cfg: Config, c: Client, s: string, proto: char, qType: char,
                     trace: string, r: string, text: string)
    requires Plain(c.username) && (r != "" ==> |r| > 1 && r[0] == ',' && r[1] != ',')
    requires Verdict(cfg, c, s, proto, qType, trace, r, text).Passed?
    ensures LoopFree(cfg, c, Calls(r))
    ensures Join(Calls(r)) <= r
    ensures |Calls(r)| < MAX_Q_CALLS ==> Join(Calls(r)) == r
  {
    var calls := Calls(r);
    PassedCalls(cfg, c, calls, qType, s);
    if r != "" {
      forall call | call in calls ensures Plain(call) {
        var i :| 0 <= i < |calls| && calls[i] == call;
        ValidIsPlain(call, c.username);
      }
      assert NonComma(r, 0) == 1;
      PlainCallsAreFields(r, 0, MAX_Q_CALLS);
      assert r[0..] == r;
    }
  }

  /** A trace that this server has stamped twice within the first 64 calls is dropped. */
  lemma TwiceStampedDropped(cfg: Config, c: Client, s: string, proto: char, qType: char,
                            trace: string, r: string, text: string, i: nat, j: nat)
    requires i < j < |Calls(r)| && Calls(r)[i] == Calls(r)[j] == cfg.serverId
    ensures Verdict(cfg, c, s, proto, qType, trace, r, text).Dropped?
  {
    PassedCalls(cfg, c, Calls(r), qType, s);
  }

  /** An occurrence of a comma-free text in joined calls lies inside one of the calls. */
  lemma {:induction false} OccurrenceInCall(calls: seq<string>, id: string, p: nat) returns (k: nat, off: nat)
    requires Plain(id) && id != "" && (forall c :: c in calls ==> Plain(c))
    requires At(Join(calls), id, p)
    ensures k < |calls| && At(calls[k], id, off)
    ensures off == 0 ==> p > 0 && Join(calls)[p - 1] == ','
    ensures off + |id| == |calls[k]| ==> p + |id| == |Join(calls)| || Join(calls)[p + |id|] == ','
    decreases |calls|
  {
    var all, rest, n := Join(calls), Join(calls[1..]), 1 + |calls[0]|;
    assert all == "," + calls[0] + rest;
    assert all[0] == ',' && (rest != "" ==> all[n] == ',');
    if p >= n {
      assert all[p..p + |id|] == rest[p - n..p - n + |id|];
      var k', off' := OccurrenceInCall(calls[1..], id, p - n);
      k, off := k' + 1, off';
      assert p - n > 0 ==> all[p - 1] == rest[p - n - 1];
      assert p + |id| < |all| ==> all[p + |id|] == rest[p - n + |id|];
    } else {
      forall q | p <= q < p + |id| ensures all[q] != ',' {
        assert all[q] == id[q - p] && id[q - p] in id;
      }
      assert p + |id| <= n;
      k, off := 0, p - 1;
      assert forall q :: 1 <= q < n ==> all[q] == calls[0][q - 1];
      var a, b := all[p..p + |id|], calls[0][off..off + |id|];
      assert forall q :: 0 <= q < |a| ==> a[q] == b[q];
    }
  }

  /** One stamp is enough if no other call contains the server's call as part of itself. */
  lemma StampedDropped(cfg: Config, c: Client, s: string, proto: char, qType: char,
                       trace: string, r: string, text: string, calls: seq<string>)
    requires Plain(cfg.serverId) && cfg.serverId != ""
    requires r == Join(calls) && (forall x :: x in calls ==> Plain(x)) && cfg.serverId in calls
    requires forall x, i :: x in calls && At(x, cfg.serverId, i) ==> x == cfg.serverId
    ensures Verdict(cfg, c, s, proto, qType, trace, r, text).Dropped?
  {
    var id := cfg.serverId;
    var q := CallOccurs(calls, id);
    var p := Find(r, id, 0, |r|);
    assert p.Some?;
    var k, off := OccurrenceInCall(calls, id, p.value);
    assert calls[k] in calls;
    assert OwnServer(r, id);
  }

  lemma {:induction false} CallOccurs(calls: seq<string>, id: string) returns (p: nat)
    requires id in calls
    ensures At(Join(calls), id, p)
    decreases |calls|
  {
    var rest := Join(calls[1..]);
    assert Join(calls) == "," + calls[0] + rest;
    if calls[0] == id {
      p := 1;
    } else {
      var q := CallOccurs(calls[1..], id);
      p := 1 + |calls[0]| + q;
      assert Join(calls)[p..p + |id|] == rest[q..q + |id|];
    }
  }

  // ---------------------------------------------------------------- what each code tells

  /** Room for a trace: 600 bytes with the login, 20 of them kept for this server. */
  predicate TraceFits(c: Client, trace: string, calls: seq<string>) {
    var login := if c.validated && c.state != CorePeer && !LoginInPath(c, calls) then 1 + |c.username| else 0;
    |trace| <= 600 && |trace| + login <= 580
  }

  /** The reason for a code found by the loop over the calls. */
  ghost predicate CallReason(cfg: Config, c: Client, calls: seq<string>, qType: char, s: string, code: int) {
    match code
    case -23 => exists i, j :: 0 <= i < j < |calls| && calls[i] == calls[j]
    case -24 => c.state == Connected && c.inPort && exists i :: 0 <= i < |calls| - 1 && SameFolded(calls[i], c.username)
    case -25 => exists x :: x in calls && !SameFolded(x, c.username) && x in cfg.localLogins
    case -26 => exists x :: x in calls && !SameFolded(x, c.username) && !ValidQCall(x)
    case -27 => qType == 'U' && exists x :: x in calls && SentBy(s, x)
    case _ => false
  }

  lemma {:induction false} FirstCodeReason(cfg: Config, c: Client, calls: seq<string>, qType: char, s: string, i: nat)
    requires i <= |calls| && FirstCode(cfg, c, calls, qType, s, i) != 0
    ensures CallReason(cfg, c, calls, qType, s, FirstCode(cfg, c, calls, qType, s, i))
    decreases |calls| - i
  {
    hide SameFolded, ValidQCall, SentBy;
    if i < |calls| {
      if CallCode(cfg, c, calls, qType, s, i) == 0 { FirstCodeReason(cfg, c, calls, qType, s, i + 1); }
      assert calls[i] in calls;
    }
  }

  /** When a packet is passed, and what the code of a dropped one says about it. */
  lemma VerdictExact(cfg: Config, c: Client, s: string, proto: char, qType: char,
                     trace: string, r: string, text: string)
    ensures var v, calls := Verdict(cfg, c, s, proto, qType, trace, r, text), Calls(r);
      var foreign := proto != cfg.qProtocolId && cfg.disallowOtherProtocolId;
      var unverified := qType == 'X' && cfg.disallowUnverified;
      && (v == Dropped(-31) <==> foreign)
      && (v == Dropped(-20) <==> !foreign && unverified)
      && (v == Dropped(-21) <==> !foreign && qType == 'Z')
      && (v == Dropped(-22) <==> !foreign && !unverified && qType != 'Z' && OwnServer(r, cfg.serverId))
      && (v.Dropped? && v.code in {-23, -24, -25, -26, -27} ==> CallReason(cfg, c, calls, qType, s, v.code))
      && (v == Dropped(-28) ==> qType == 'I' && !TraceFits(c, trace, calls))
      && (v.Dropped? ==> -31 <= v.code <= -20 && v.code != -29 && v.code != -30)
      && (v.Passed? <==>
            && !foreign && !unverified && qType != 'Z' && !OwnServer(r, cfg.serverId)
            && LoopFree(cfg, c, calls)
            && (qType == 'U' ==> forall k :: 0 <= k < |calls| ==> !SentBy(s, calls[k]))
            && (qType == 'I' ==> TraceFits(c, trace, calls)))
  {
    hide Calls, FirstCode, OwnServer, LoopFree, SentBy, CallReason, LoginInPath;
    var calls := Calls(r);
    PassedCalls(cfg, c, calls, qType, s);
    FirstCodeRange(cfg, c, calls, qType, s, 0);
    if FirstCode(cfg, c, calls, qType, s, 0) != 0 { FirstCodeReason(cfg, c, calls, qType, s, 0); }
    TraceLength(cfg, c, trace, calls);
  }

  lemma TraceLength(cfg: Config, c: Client, trace: string, calls: seq<string>)
    ensures |ExtendedTrace(cfg, c, trace, calls)| - 1 - |cfg.serverId| ==
            |trace| + if c.validated && c.state != CorePeer && !LoginInPath(c, calls) then 1 + |c.username| else 0
  {
  }

  // ---------------------------------------------------------------- the trace of a qAI packet

  /** The calls this server adds: the login if it is verified, not a core peer's and not there yet,
      and its own. */
  function Added(cfg: Config, c: Client, calls: seq<string>): seq<string> {
    (if c.validated && c.state != CorePeer && (forall x :: x in calls ==> !SameFolded(x, c.username))
     then [c.username] else []) + [cfg.serverId]
  }

  predicate Fields(calls: seq<string>) { forall x :: x in calls ==> x != "" && Plain(x) }

  lemma {:induction false} JoinAppend(a: seq<string>, b: seq<string>)
    ensures Join(a + b) == Join(a) + Join(b)
  {
    if a == [] {
      assert a + b == b;
    } else {
      assert (a + b)[1..] == a[1..] + b;
      JoinAppend(a[1..], b);
    }
  }

  lemma NonCommaIs(r: string, i: nat, j: nat)
    requires i <= j <= |r| && (forall k :: i <= k < j ==> r[k] == ',') && (j < |r| ==> r[j] != ',')
    ensures NonComma(r, i) == j
  {
  }

  lemma NextCommaIs(r: string, i: nat, j: nat)
    requires i <= j <= |r| && (forall k :: i <= k < j ==> r[k] != ',') && (j < |r| ==> r[j] == ',')
    ensures NextComma(r, i) == j
  {
  }

  /** Calls joined by commas are read back as they are. */
  lemma {:induction false} JoinedCalls(pre: string, calls: seq<string>, n: nat)
    requires Fields(calls) && |calls| <= n
    ensures CallsFrom(pre + Join(calls), |pre|, n) == calls
    decreases |calls|
  {
    hide CallsFrom, Fields, Plain;
    var r := pre + Join(calls);
    if calls == [] {
      assert r == pre;
      NoCallsLeft(r, |pre|, n);
    } else {
      var x, rest := calls[0], calls[1..];
      FieldsSplit(calls);
      FieldsHead(rest);
      JoinedCalls(pre + "," + x, rest, n - 1);
      JoinedStep(pre, x, Join(rest), n);
      assert r == pre + "," + x + Join(rest);
      assert [x] + rest == calls;
    }
  }

  lemma FieldsSplit(calls: seq<string>)
    requires Fields(calls) && calls != []
    ensures calls[0] != "" && Plain(calls[0]) && Fields(calls[1..])
  {
    assert calls[0] in calls;
  }

  lemma FieldsHead(calls: seq<string>)
    requires Fields(calls)
    ensures Join(calls) == "" || (|Join(calls)| > 1 && Join(calls)[0] == ',' && Join(calls)[1] != ',')
  {
    if calls != [] { assert calls[0] in calls && calls[0][0] in calls[0]; }
  }

  /** A field of r between i and j, behind a comma. */
  ghost predicate FieldAt(r: string, i: nat, j: nat) {
    && i + 1 < j <= |r| && r[i] == ',' && (forall k :: i < k < j ==> r[k] != ',') && (j < |r| ==> r[j] == ',')
  }

  lemma FieldIsAt(pre: string, x: string, post: string)
    requires x != "" && Plain(x) && (post == "" || post[0] == ',')
    ensures var r := pre + "," + x + post;
      FieldAt(r, |pre|, |pre| + 1 + |x|) && r[|pre| + 1..|pre| + 1 + |x|] == x
  {
    var r, n := pre + "," + x + post, |pre| + 1;
    assert r[n..n + |x|] == x;
    forall k | n <= k < n + |x| ensures r[k] != ',' {
      assert r[k] == x[k - n] && x[k - n] in x;
    }
  }

  lemma FieldCalls(r: string, i: nat, j: nat, n: nat)
    requires FieldAt(r, i, j) && n > 0 && (j < |r| ==> j + 1 < |r| && r[j + 1] != ',')
    ensures CallsFrom(r, i, n) == [r[i + 1..j]] + CallsFrom(r, j, n - 1)
  {
    NonCommaIs(r, i, i + 1);
    NextCommaIs(r, i + 1, j);
    if j < |r| { NonCommaIs(r, j, j + 1); }
  }

  lemma JoinedStep(pre: string, x: string, post: string, n: nat)
    requires x != "" && Plain(x) && n > 0
    requires post == "" || (|post| > 1 && post[0] == ',' && post[1] != ',')
    ensures var r := pre + "," + x + post;
      CallsFrom(r, |pre|, n) == [x] + CallsFrom(r, |pre| + 1 + |x|, n - 1)
  {
    hide CallsFrom, FieldAt, Plain;
    var r, j := pre + "," + x + post, |pre| + 1 + |x|;
    FieldIsAt(pre, x, post);
    if post != "" { assert r[j + 1] == post[1]; }
    FieldCalls(r, |pre|, j, n);
  }

  /** What AcceptedPath says of a path, with its calls nonempty. */
  ghost predicate Wellformed(r: string) { r == "" || (|r| > 1 && r[0] == ',' && r[1] != ',') }

  lemma {:induction false} CallsNonempty(r: string, i: nat, n: nat)
    requires i <= |r|
    ensures "" !in CallsFrom(r, i, n)
    decreases n
  {
    if n > 0 && i < |r| && NonComma(r, i) < |r| {
      var e := NextComma(r, NonComma(r, i));
      CallsNonempty(r, e, n - 1);
    }
  }

  lemma PassedFields(cfg: Config, c: Client, s: string, proto: char, qType: char,
                     trace: string, r: string, text: string)
    requires Plain(c.username) && Wellformed(r) && Verdict(cfg, c, s, proto, qType, trace, r, text).Passed?
    ensures Fields(Calls(r))
  {
    AcceptedPath(cfg, c, s, proto, qType, trace, r, text);
    hide Verdict, CallsFrom, ValidQCall, SameFolded;
    var calls := Calls(r);
    CallsNonempty(r, 0, MAX_Q_CALLS);
    forall call | call in calls ensures Plain(call) {
      var i :| 0 <= i < |calls| && calls[i] == call;
      ValidIsPlain(call, c.username);
    }
  }

  lemma TraceIs(cfg: Config, c: Client, trace: string, calls: seq<string>)
    ensures ExtendedTrace(cfg, c, trace, calls) == trace + Join(Added(cfg, c, calls))
  {
    hide SameFolded;
    var added := Added(cfg, c, calls);
    JoinCons(cfg.serverId, []);
    assert [cfg.serverId] + [] == [cfg.serverId];
    if LoginInPath(c, calls) {
      var i :| 0 <= i < |calls| && SameFolded(calls[i], c.username);
      assert calls[i] in calls;
    }
    if added == [c.username] + [cfg.serverId] {
      JoinCons(c.username, [cfg.serverId]);
      assert "," + c.username + ("," + cfg.serverId) == "," + c.username + "," + cfg.serverId;
      assert Join(added) == "," + c.username + "," + cfg.serverId;
    }
  }

  /** A qAI packet that is passed carries the calls it came with, the login if it is verified and
      missing, and this server's call. */
  lemma TraceRecorded(cfg: Config, c: Client, s: string, proto: char, trace: string, r: string, text: string)
    requires Plain(c.username) && c.username != "" && Plain(cfg.serverId) && cfg.serverId != "" && Wellformed(r)
    requires Verdict(cfg, c, s, proto, 'I', trace, r, text).Passed? && |Calls(r)| + 2 <= 64
    ensures var added := Added(cfg, c, Calls(r));
      && Verdict(cfg, c, s, proto, 'I', trace, r, text) == Passed(trace + Join(added), true)
      && Calls(r + Join(added)) == Calls(r) + added
  {
    AcceptedPath(cfg, c, s, proto, 'I', trace, r, text);
    PassedFields(cfg, c, s, proto, 'I', trace, r, text);
    PassedTrace(cfg, c, s, proto, trace, r, text);
    hide Verdict, CallsFrom, Join, SameFolded;
    var calls, added := Calls(r), Added(cfg, c, Calls(r));
    JoinAppend(calls, added);
    assert "" + Join(calls + added) == r + Join(added);
    JoinedCalls("", calls + added, 64);
  }

  lemma PassedTrace(cfg: Config, c: Client, s: string, proto: char, trace: string, r: string, text: string)
    requires Verdict(cfg, c, s, proto, 'I', trace, r, text).Passed?
    ensures Verdict(cfg, c, s, proto, 'I', trace, r, text) == Passed(trace + Join(Added(cfg, c, Calls(r))), true)
  {
    hide CallsFrom, Join, Added, ExtendedTrace, FirstCode, OwnServer;
    TraceIs(cfg, c, trace, Calls(r));
  }

  /** No call but the id itself contains the id. */
  ghost predicate OnlyWhole(calls: seq<string>, id: string) {
    forall x, i :: x in calls && At(x, id, i) ==> x == id
  }

  /** A qAI packet this server has passed is dropped when it comes back, from whichever client and
      whatever calls it has gathered on the way. */
  lemma LoopDropped(cfg: Config, c: Client, s: string, proto: char, trace: string, r: string, text: string,
                    more: seq<string>, c': Client, s': string, proto': char, trace': string, text': string)
    requires Plain(c.username) && c.username != "" && Plain(cfg.serverId) && cfg.serverId != "" && Wellformed(r)
    requires Verdict(cfg, c, s, proto, 'I', trace, r, text).Passed? && |Calls(r)| < 64
    requires Fields(more) && OnlyWhole(Calls(r) + [c.username] + more, cfg.serverId)
    ensures var r' := r + Join(Added(cfg, c, Calls(r))) + Join(more);
      Verdict(cfg, c', s', proto', 'I', trace', r', text').Dropped?
  {
    AcceptedPath(cfg, c, s, proto, 'I', trace, r, text);
    PassedFields(cfg, c, s, proto, 'I', trace, r, text);
    hide Verdict, CallsFrom, Join, SameFolded;
    var before, added := Calls(r), Added(cfg, c, Calls(r));
    var calls := before + added + more;
    JoinAppend(before, added);
    JoinAppend(before + added, more);
    assert added[|added| - 1] == cfg.serverId && cfg.serverId in calls;
    var known := before + [c.username] + more;
    assert forall x :: x in calls ==> x in known || x == cfg.serverId;
    StampedDropped(cfg, c', s', proto', 'I', trace', Join(calls), text', calls);
  }
}
