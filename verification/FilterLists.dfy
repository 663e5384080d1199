/** A client's four filter lists: filter_parse, which merges a callsign filter into the last one of
    the same kind, and filter_process, which decides.  Merging never changes a decision. */
module FilterLists {
  import opened Basics
  import opened Text
  import opened Filters

  // ---------------------------------------------------------------- parsing one filter

  function Body(filt: string): string { if filt != "" && filt[0] == '-' then filt[1..] else filt }

  predicate Negative(filt: string) { filt != "" && filt[0] == '-' }

  /** What a filter string parses to, or its error code.  An empty kind is accepted: the search for
      it in the list of kinds finds the terminating NUL. */
  function NodeOf(w: World, filt: string): (r: (int, Node))
    ensures r.0 <= 0
  {
    var body := Body(filt);
    if body == "" then (0, Kindless(filt))
    else if body[0] in CALLSET_KINDS then
      var refs := Parsed(filt, ModeOf(body[0]));
      if refs == None then (-1, Other(filt)) else (0, Callset(body[0], refs.value))
    else if body[0] in OTHER_KINDS then (if w.judge(filt) < 0 then w.judge(filt) else 0, Other(filt))
    else (-1, Other(filt))
  }

  /** Whether a filter joins the last one of the list. */
  predicate Extends(list: seq<Node>, n: Node) {
    list != [] && n.Callset? && list[|list| - 1].Callset? && list[|list| - 1].kind == n.kind
  }

  function Merge(list: seq<Node>, n: Node): seq<Node> {
    if Extends(list, n) then
      var k := |list| - 1;
      list[..k] + [Callset(n.kind, list[k].refs + n.refs)]
    else list + [n]
  }

  datatype Lists = Lists(posUser: seq<Node>, negUser: seq<Node>, posDefault: seq<Node>, negDefault: seq<Node>)

  /** A call of filter_parse: the string, for which lists, and whether a cell was to be had. */
  datatype Command = Command(filt: string, isUser: bool, haveCell: bool)

  function Chosen(l: Lists, c: Command): seq<Node> {
    if c.isUser then (if Negative(c.filt) then l.negUser else l.posUser)
    else (if Negative(c.filt) then l.negDefault else l.posDefault)
  }

  function Replace(l: Lists, c: Command, list: seq<Node>): Lists {
    if c.isUser then (if Negative(c.filt) then l.(negUser := list) else l.(posUser := list))
    else (if Negative(c.filt) then l.(negDefault := list) else l.(posDefault := list))
  }

  function Code(w: World, l: Lists, c: Command, userOk: bool): int {
    var r := NodeOf(w, c.filt);
    if c.isUser && !userOk then -1
    else if r.0 < 0 then r.0
    else if !Extends(Chosen(l, c), r.1) && !c.haveCell then -1
    else 0
  }

  /** The lists after filter_parse. */
  function AfterParse(w: World, l: Lists, c: Command, userOk: bool): Lists {
    if Code(w, l, c, userOk) < 0 then l else Replace(l, c, Merge(Chosen(l, c), NodeOf(w, c.filt).1))
  }

  // ---------------------------------------------------------------- deciding

  /** What a filter in a user list comes to; a bad one is reported to the client. */
  function UserAnswer(w: World, n: Node, pb: Packet): int {
    var rc := Answer(w, n, pb);
    if rc < 0 then Notify(w, TextOf(n)) else rc
  }

  function DefaultAnswer(w: World, n: Node, pb: Packet): int {
    var rc := Answer(w, n, pb);
    if rc < 0 then 0 else rc
  }

  /** The first answer of a list that is not 0. */
  function Walk(w: World, list: seq<Node>, pb: Packet, user: bool): int {
    if list == [] then 0
    else
      var rc := if user then UserAnswer(w, list[0], pb) else DefaultAnswer(w, list[0], pb);
      if rc != 0 then rc else Walk(w, list[1..], pb, user)
  }

  /** filter_process: negative before positive, defaults before the user's own. */
  function Decide(w: World, l: Lists, pb: Packet): int {
    if Walk(w, l.negDefault, pb, false) > 0 then 0
    else
      var pd := Walk(w, l.posDefault, pb, false);
      if pd > 0 then pd
      else
        var nu := Walk(w, l.negUser, pb, true);
        if nu != 0 then (if nu < 0 then nu else 0)
        else Walk(w, l.posUser, pb, true)
  }

  // ---------------------------------------------------------------- merging preserves meaning

  function Then(first: int, second: int): int { if first != 0 then first else second }

  lemma {:induction false} WalkAppend(w: World, a: seq<Node>, b: seq<Node>, pb: Packet, user: bool)
    ensures Walk(w, a + b, pb, user) == Then(Walk(w, a, pb, user), Walk(w, b, pb, user))
  {
    hide UserAnswer, DefaultAnswer;
    if a == [] {
      assert a + b == b;
    } else {
      assert (a + b)[1..] == a[1..] + b;
      WalkAppend(w, a[1..], b, pb, user);
    }
  }

  lemma WalkOne(w: World, n: Node, pb: Packet, user: bool)
    ensures Walk(w, [n], pb, user) == if user then UserAnswer(w, n, pb) else DefaultAnswer(w, n, pb)
  {
    hide UserAnswer, DefaultAnswer;
    assert [n][1..] == [];
  }

  lemma MergedAnswer(w: World, kind: char, a: seq<Ref>, b: seq<Ref>, pb: Packet, user: bool)
    ensures Walk(w, [Callset(kind, a + b)], pb, user) ==
            Then(Walk(w, [Callset(kind, a)], pb, user), Walk(w, [Callset(kind, b)], pb, user))
  {
    hide Passes, Walk;
    WalkOne(w, Callset(kind, a + b), pb, user);
    WalkOne(w, Callset(kind, a), pb, user);
    WalkOne(w, Callset(kind, b), pb, user);
    PassesUnion(kind, a, b, pb);
  }

  /** A merged list answers like the list with the filter put at its end. */
  lemma MergeMeans(w: World, list: seq<Node>, n: Node, pb: Packet, user: bool)
    ensures Walk(w, Merge(list, n), pb, user) == Walk(w, list + [n], pb, user)
  {
    hide Walk;
    if Extends(list, n) {
      var k := |list| - 1;
      var last := list[k];
      calc {
        Walk(w, Merge(list, n), pb, user);
        { WalkAppend(w, list[..k], [Callset(n.kind, last.refs + n.refs)], pb, user); }
        Then(Walk(w, list[..k], pb, user), Walk(w, [Callset(n.kind, last.refs + n.refs)], pb, user));
        { MergedAnswer(w, n.kind, last.refs, n.refs, pb, user);
          assert last == Callset(n.kind, last.refs) && n == Callset(n.kind, n.refs); }
        Then(Walk(w, list[..k], pb, user), Then(Walk(w, [last], pb, user), Walk(w, [n], pb, user)));
        Then(Then(Walk(w, list[..k], pb, user), Walk(w, [last], pb, user)), Walk(w, [n], pb, user));
        { WalkAppend(w, list[..k], [last], pb, user); assert list == list[..k] + [last]; }
        Then(Walk(w, list, pb, user), Walk(w, [n], pb, user));
        { WalkAppend(w, list, [n], pb, user); }
        Walk(w, list + [n], pb, user);
      }
    }
  }

  ghost predicate SameMeaning(w: World, a: seq<Node>, b: seq<Node>, user: bool) {
    forall pb :: Walk(w, a, pb, user) == Walk(w, b, pb, user)
  }

  ghost predicate SameLists(w: World, a: Lists, b: Lists) {
    && SameMeaning(w, a.posUser, b.posUser, true) && SameMeaning(w, a.negUser, b.negUser, true)
    && SameMeaning(w, a.posDefault, b.posDefault, false) && SameMeaning(w, a.negDefault, b.negDefault, false)
  }

  /** What the lists would be with one node for every accepted string. */
  function AfterParseUnmerged(w: World, merged: Lists, l: Lists, c: Command, userOk: bool): Lists {
    if Code(w, merged, c, userOk) < 0 then l else Replace(l, c, Chosen(l, c) + [NodeOf(w, c.filt).1])
  }

  lemma MergeKeeps(w: World, a: seq<Node>, b: seq<Node>, n: Node, user: bool)
    requires SameMeaning(w, a, b, user)
    ensures SameMeaning(w, Merge(a, n), b + [n], user)
  {
    hide Merge, Walk;
    forall pb ensures Walk(w, Merge(a, n), pb, user) == Walk(w, b + [n], pb, user) {
      MergeMeans(w, a, n, pb, user);
      WalkAppend(w, a, [n], pb, user);
      WalkAppend(w, b, [n], pb, user);
    }
  }

  lemma ParseKeeps(w: World, a: Lists, b: Lists, c: Command, userOk: bool)
    requires SameLists(w, a, b)
    ensures SameLists(w, AfterParse(w, a, c, userOk), AfterParseUnmerged(w, a, b, c, userOk))
  {
    hide SameMeaning, Merge, NodeOf, Code;
    MergeKeeps(w, Chosen(a, c), Chosen(b, c), NodeOf(w, c.filt).1, c.isUser);
  }

  function RunMerged(w: World, l: Lists, cmds: seq<Command>, userOk: bool): Lists {
    if cmds == [] then l
    else
      var k := |cmds| - 1;
      AfterParse(w, RunMerged(w, l, cmds[..k], userOk), cmds[k], userOk)
  }

  function RunUnmerged(w: World, l: Lists, cmds: seq<Command>, userOk: bool): Lists {
    if cmds == [] then l
    else
      var k := |cmds| - 1;
      AfterParseUnmerged(w, RunMerged(w, l, cmds[..k], userOk), RunUnmerged(w, l, cmds[..k], userOk), cmds[k], userOk)
  }

  lemma {:induction false} RunsAgree(w: World, l: Lists, cmds: seq<Command>, userOk: bool)
    ensures SameLists(w, RunMerged(w, l, cmds, userOk), RunUnmerged(w, l, cmds, userOk))
  {
    hide Walk, AfterParse, AfterParseUnmerged;
    if cmds != [] {
      var k := |cmds| - 1;
      RunsAgree(w, l, cmds[..k], userOk);
      ParseKeeps(w, RunMerged(w, l, cmds[..k], userOk), RunUnmerged(w, l, cmds[..k], userOk), cmds[k], userOk);
    }
  }

  lemma SameDecision(w: World, a: Lists, b: Lists, pb: Packet)
    requires SameLists(w, a, b)
    ensures Decide(w, a, pb) == Decide(w, b, pb)
  {
    hide Walk;
  }

  /** For every sequence of filter strings and every packet, the decision is that of the unmerged
      lists. */
  lemma MergingPreservesDecisions(w: World, l: Lists, cmds: seq<Command>, userOk: bool, pb: Packet)
    ensures Decide(w, RunMerged(w, l, cmds, userOk), pb) == Decide(w, RunUnmerged(w, l, cmds, userOk), pb)
  {
    hide *;
    RunsAgree(w, l, cmds, userOk);
    SameDecision(w, RunMerged(w, l, cmds, userOk), RunUnmerged(w, l, cmds, userOk), pb);
  }

  lemma {:induction false} WalkPasses(w: World, list: seq<Node>, pb: Packet, user: bool)
    requires forall k :: 0 <= k < |list| ==> list[k].Callset?
    ensures Walk(w, list, pb, user) ==
            if exists k :: 0 <= k < |list| && Passes(list[k].kind, list[k].refs, pb) then 1 else 0
  {
    hide Passes;
    if list != [] {
      WalkPasses(w, list[1..], pb, user);
      if exists k :: 0 <= k < |list| - 1 && Passes(list[1..][k].kind, list[1..][k].refs, pb) {
        var k :| 0 <= k < |list| - 1 && Passes(list[1..][k].kind, list[1..][k].refs, pb);
        assert list[1..][k] == list[k + 1];
      }
      if exists k :: 1 <= k < |list| && Passes(list[k].kind, list[k].refs, pb) {
        var k :| 1 <= k < |list| && Passes(list[k].kind, list[k].refs, pb);
        assert list[1..][k - 1] == list[k];
      }
    }
  }

  // ---------------------------------------------------------------- what a decision means

  /** Some filter of the list answers for the packet. */
  ghost predicate SomeMatch(w: World, list: seq<Node>, pb: Packet) {
    exists k :: 0 <= k < |list| && Answer(w, list[k], pb) > 0
  }

  /** No filter of the list answers with an error. */
  ghost predicate NoErrors(w: World, list: seq<Node>, pb: Packet) {
    forall k :: 0 <= k < |list| ==> Answer(w, list[k], pb) >= 0
  }

  lemma {:induction false} WalkMeans(w: World, list: seq<Node>, pb: Packet, user: bool)
    requires user ==> NoErrors(w, list, pb)
    ensures Walk(w, list, pb, user) >= 0 && (Walk(w, list, pb, user) > 0 <==> SomeMatch(w, list, pb))
  {
    hide Answer;
    if list != [] {
      var rest := list[1..];
      assert forall k :: 0 <= k < |rest| ==> rest[k] == list[k + 1];
      WalkMeans(w, rest, pb, user);
      if SomeMatch(w, rest, pb) {
        var k :| 0 <= k < |rest| && Answer(w, rest[k], pb) > 0;
        assert Answer(w, list[k + 1], pb) > 0;
      }
      if SomeMatch(w, list, pb) && Answer(w, list[0], pb) <= 0 {
        var k :| 0 <= k < |list| && Answer(w, list[k], pb) > 0;
        assert rest[k - 1] == list[k];
      }
    }
  }

  /** A packet passes exactly if no negative server filter matches it, and either a positive one of the
      server does, or no negative filter of the user and some positive one does. */
  lemma DecideMeans(w: World, l: Lists, pb: Packet)
    requires NoErrors(w, l.negUser, pb) && NoErrors(w, l.posUser, pb)
    ensures Decide(w, l, pb) >= 0
    ensures Decide(w, l, pb) > 0 <==>
      && !SomeMatch(w, l.negDefault, pb)
      && (SomeMatch(w, l.posDefault, pb) || (!SomeMatch(w, l.negUser, pb) && SomeMatch(w, l.posUser, pb)))
  {
    hide Walk, SomeMatch, NoErrors;
    WalkMeans(w, l.negDefault, pb, false);
    WalkMeans(w, l.posDefault, pb, false);
    WalkMeans(w, l.negUser, pb, true);
    WalkMeans(w, l.posUser, pb, true);
  }

  predicate AllCallsets(list: seq<Node>) { forall k :: 0 <= k < |list| ==> list[k].Callset? }

  ghost predicate SomePasses(list: seq<Node>, pb: Packet) {
    exists k :: 0 <= k < |list| && list[k].Callset? && Passes(list[k].kind, list[k].refs, pb)
  }

  /** With callsign filters only, the answer is 1 or 0. */
  lemma CallsignDecision(w: World, l: Lists, pb: Packet)
    requires AllCallsets(l.negDefault) && AllCallsets(l.posDefault) && AllCallsets(l.negUser) && AllCallsets(l.posUser)
    ensures Decide(w, l, pb) ==
      if !SomePasses(l.negDefault, pb)
         && (SomePasses(l.posDefault, pb) || (!SomePasses(l.negUser, pb) && SomePasses(l.posUser, pb)))
      then 1 else 0
  {
    hide Walk, Passes;
    WalkPasses(w, l.negDefault, pb, false);
    WalkPasses(w, l.posDefault, pb, false);
    WalkPasses(w, l.negUser, pb, true);
    WalkPasses(w, l.posUser, pb, true);
  }

  // ---------------------------------------------------------------- a filter with one name

  /** "x/NAME" */
  function OneName(kind: char, name: string): string { [kind] + "/" + name }

  predicate IsName(name: string) { 1 <= |name| <= 9 && '/' !in name && '*' !in name }

  /** The string parses to a filter with that name. */
  lemma OneNameParses(w: World, kind: char, name: string)
    requires kind in CALLSET_KINDS && IsName(name)
    ensures NodeOf(w, OneName(kind, name)) == (0, Callset(kind, [Ref(name, false)]))
  {
    hide Parsed;
    OneNameParsed(kind, name, ModeOf(kind));
  }

  lemma OneNameParsed(kind: char, name: string, mode: Mode)
    requires kind != '/' && kind != '-' && IsName(name)
    ensures Parsed(OneName(kind, name), mode) == Some([Ref(name, false)])
  {
    hide Names, NoStars, SegmentEnd;
    var s := OneName(kind, name);
    assert s[0] == kind && s[1] == '/' && s[2..] == name;
    KindEnds(s);
    SegmentAll(s, 2);
    assert s[2..|s|] == name;
    NoStarsSame(name);
    NamesDone(s, mode);
    NamesStep(s, 2, mode);
    assert [Ref(name, false)] + [] == [Ref(name, false)];
  }

  lemma KindEnds(s: string)
    requires |s| > 2 && s[0] != '/' && s[1] == '/'
    ensures SegmentEnd(s, 0) == 1
  {
    assert SegmentEnd(s, 1) == 1;
  }

  lemma {:induction false} SegmentAll(s: string, p: nat)
    requires p <= |s| && '/' !in s[p..]
    ensures SegmentEnd(s, p) == |s|
    decreases |s| - p
  {
    if p < |s| {
      assert s[p..][0] == s[p] && s[p..][1..] == s[p + 1..];
      SegmentAll(s, p + 1);
    }
  }

  lemma {:induction false} NoStarsSame(s: string)
    requires '*' !in s
    ensures NoStars(s) == s
  {
    if s != "" {
      var k := |s| - 1;
      NoStarsSame(s[..k]);
      assert s[k] in s && s == s[..k] + [s[k]];
    }
  }

  /** At most nine characters of a call are looked at. */
  function Short(call: string): string { if |call| <= 9 then call else call[..9] }

  predicate StartsWith(call: string, name: string) { |name| <= |call| && SameFolded(call[..|name|], name) }

  lemma OneMatch(name: string, key: string)
    requires IsName(name)
    ensures MatchSet([Ref(name, false)], key, MatchWild) <==> SameFolded(key, name)
    ensures MatchSet([Ref(name, false)], key, MatchPrefix) <==> StartsWith(key, name)
  {
    var refs := [Ref(name, false)];
    assert refs[0] == Ref(name, false);
    if |key| == |name| { assert key[..|name|] == key; }
    if SameFolded(key, name) { assert Matches(refs[0], key, MatchWild); }
    if StartsWith(key, name) { assert Matches(refs[0], key, MatchPrefix); }
  }

  lemma OneNameAnswer(w: World, kind: char, name: string, pb: Packet)
    requires kind in CALLSET_KINDS && IsName(name)
    ensures Answer(w, NodeOf(w, OneName(kind, name)).1, pb) > 0 <==> Passes(kind, [Ref(name, false)], pb)
  {
    hide NodeOf, Passes;
    OneNameParses(w, kind, name);
  }

  // What a filter with one name passes, kind by kind and whatever the case of letters.

  /** "b/NAME": packets from that station, or relayed for it as third-party traffic. */
  lemma StationFilter(w: World, kind: char, name: string, pb: Packet)
    requires IsName(name) && (kind == 'b' || kind == 'B')
    ensures Answer(w, NodeOf(w, OneName(kind, name)).1, pb) > 0 <==>
            SameFolded(Short(pb.src), name) || (pb.third.Some? && SameFolded(Short(pb.third.value), name))
  {
    hide NodeOf, MatchSet, SameFolded, Calls, StartsWith, Answer;
    OneNameAnswer(w, kind, name, pb);
    OneMatch(name, Clip(pb.src));
    if pb.third.Some? { OneMatch(name, Clip(pb.third.value)); }
  }

  /** "p/NAME": packets from stations whose call starts with the name. */
  lemma PrefixFilter(w: World, kind: char, name: string, pb: Packet)
    requires IsName(name) && (kind == 'p' || kind == 'P')
    ensures Answer(w, NodeOf(w, OneName(kind, name)).1, pb) > 0 <==>
            StartsWith(Short(pb.src), name) || (pb.third.Some? && StartsWith(Short(pb.third.value), name))
  {
    hide NodeOf, MatchSet, SameFolded, Calls, StartsWith, Answer;
    OneNameAnswer(w, kind, name, pb);
    OneMatch(name, Clip(pb.src));
    if pb.third.Some? { OneMatch(name, Clip(pb.third.value)); }
  }

  /** "u/NAME": packets sent to that destination call. */
  lemma DestinationFilter(w: World, kind: char, name: string, pb: Packet)
    requires IsName(name) && (kind == 'u' || kind == 'U')
    ensures Answer(w, NodeOf(w, OneName(kind, name)).1, pb) > 0 <==>
            SameFolded(Short(pb.dst), name)
  {
    hide NodeOf, MatchSet, SameFolded, Calls, StartsWith, Answer;
    OneNameAnswer(w, kind, name, pb);
    OneMatch(name, Clip(pb.dst));
  }

  /** "e/NAME": packets that entered the network at that station. */
  lemma EntryFilter(w: World, kind: char, name: string, pb: Packet)
    requires IsName(name) && (kind == 'e' || kind == 'E')
    ensures Answer(w, NodeOf(w, OneName(kind, name)).1, pb) > 0 <==>
            SameFolded(pb.entry, name)
  {
    hide NodeOf, MatchSet, SameFolded, Calls, StartsWith, Answer;
    OneNameAnswer(w, kind, name, pb);
    FoldedLength(pb.entry, name);
    OneMatch(name, pb.entry);
  }

  /** "g/NAME": packets that are messages to that recipient. */
  lemma MessageFilter(w: World, kind: char, name: string, pb: Packet)
    requires IsName(name) && (kind == 'g' || kind == 'G')
    ensures Answer(w, NodeOf(w, OneName(kind, name)).1, pb) > 0 <==>
            pb.recipient.Some? && SameFolded(pb.recipient.value, name)
  {
    hide NodeOf, MatchSet, SameFolded, Calls, StartsWith, Answer;
    OneNameAnswer(w, kind, name, pb);
    if pb.recipient.Some? {
      FoldedLength(pb.recipient.value, name);
      OneMatch(name, pb.recipient.value);
    }
  }

  /** "o/NAME": packets with an object or item of that name. */
  lemma ObjectFilter(w: World, kind: char, name: string, pb: Packet)
    requires IsName(name) && (kind == 'o' || kind == 'O')
    ensures Answer(w, NodeOf(w, OneName(kind, name)).1, pb) > 0 <==>
            pb.item.Some? && SameFolded(pb.item.value, name)
  {
    hide NodeOf, MatchSet, SameFolded, Calls, StartsWith, Answer;
    OneNameAnswer(w, kind, name, pb);
    if pb.item.Some? {
      FoldedLength(pb.item.value, name);
      OneMatch(name, pb.item.value);
    }
  }

  /** "d/NAME": packets whose path has that station, used by it or by a later one. */
  lemma DigipeaterFilter(w: World, kind: char, name: string, pb: Packet)
    requires IsName(name) && (kind == 'd' || kind == 'D')
    ensures Answer(w, NodeOf(w, OneName(kind, name)).1, pb) > 0 <==>
            exists a, b :: 0 <= a <= b < |Calls(pb.via, 0, 10)| && SameFolded(Calls(pb.via, 0, 10)[a].call, name)
                           && Calls(pb.via, 0, 10)[b].starred
  {
    hide NodeOf, MatchSet, SameFolded, Calls, Digipeated, Answer;
    OneNameAnswer(w, kind, name, pb);
    OneDigipeated(Calls(pb.via, 0, 10), name);
  }

  /** A path as digipeaters write it: calls behind commas, with a star where one was used. */
  function PathText(calls: seq<Via>): string {
    if calls == [] then "" else "," + Field(calls[0]) + PathText(calls[1..])
  }

  predicate PathCall(c: Via) { 1 <= |c.call| <= 9 && ',' !in c.call && '*' !in c.call }

  /** The first ten calls of such a path are what a digipeater filter looks at. */
  lemma {:induction false} PathCalls(pre: string, calls: seq<Via>, left: nat)
    requires forall k :: 0 <= k < |calls| ==> PathCall(calls[k])
    ensures Calls(pre + PathText(calls), |pre|, left) == if |calls| <= left then calls else calls[..left]
    decreases calls
  {
    hide CallAt, CallEnd, CallLen, PathCall, Field;
    var via := pre + PathText(calls);
    if calls == [] || left == 0 {
      CallsDone(via, |pre|, left);
      if left == 0 { assert calls[..0] == []; }
    } else {
      var c := calls[0];
      assert via == pre + "," + Field(c) + PathText(calls[1..]);
      PathCalls(pre + "," + Field(c), calls[1..], left - 1);
      FieldRead(pre, c, PathText(calls[1..]));
      CallsStep(via, |pre|, left);
      assert [c] + calls[1..] == calls;
      if |calls| > left { assert [c] + calls[1..][..left - 1] == calls[..left]; }
    }
  }

  function Field(c: Via): string { c.call + if c.starred then "*" else "" }

  lemma FieldPlain(c: Via)
    requires PathCall(c)
    ensures 1 <= |Field(c)| <= 10 && ',' !in Field(c)
    ensures var f := Field(c);
      && (c.starred ==> f[|f| - 1] == '*' && f[..|f| - 1] == c.call)
      && (!c.starred ==> f[|f| - 1] != '*' && f == c.call && |f| <= 9)
  {
    if !c.starred { assert c.call[|c.call| - 1] in c.call; }
  }

  /** One field of the path. */
  lemma FieldRead(pre: string, c: Via, post: string)
    requires PathCall(c) && (post == "" || post[0] == ',')
    ensures var via := pre + "," + Field(c) + post;
      CallAt(via, |pre|) == c && CallEnd(via, |pre|) == |pre| + 1 + |Field(c)|
  {
    hide CallLen, Field, PathCall;
    var f := Field(c);
    FieldPlain(c);
    var via := pre + "," + f + post;
    var d, n := |pre| + 1, |f|;
    FieldLength(pre + ",", f, post);
    assert via == (pre + ",") + f + post;
    assert via[d..d + n] == f;
    assert via[d + n - 1] == via[d..d + n][n - 1];
    assert via[d..d + n - 1] == via[d..d + n][..n - 1];
  }

  lemma FieldLength(pre: string, f: string, post: string)
    requires |f| <= 10 && ',' !in f && (post == "" || post[0] == ',')
    ensures CallLen(pre + f + post, |pre|, 0) == |f|
  {
    hide CallLen;
    var via, d, n := pre + f + post, |pre|, |f|;
    forall j | d <= j < d + n ensures Filters.At(via, j) != ',' {
      assert via[j] == f[j - d] && f[j - d] in f;
    }
    LengthIs(via, d, 0, n);
  }

  lemma {:induction false} LengthIs(via: string, d: nat, i: nat, n: nat)
    requires i <= n <= CALLSIGNLEN_MAX + 1 && d + n <= |via|
    requires forall j :: d + i <= j < d + n ==> Filters.At(via, j) != ','
    requires Filters.At(via, d + n) == ','
    ensures CallLen(via, d, i) == n
    decreases n - i
  {
    if i < n { LengthIs(via, d, i + 1, n); }
  }

  lemma FoldedLength(a: string, b: string)
    ensures SameFolded(a, b) ==> |a| == |b|
  {
  }

  lemma OneDigipeated(calls: seq<Via>, name: string)
    requires IsName(name)
    ensures Digipeated(calls, [Ref(name, false)]) <==>
            exists a, b :: 0 <= a <= b < |calls| && SameFolded(calls[a].call, name) && calls[b].starred
  {
    hide MatchSet, SameFolded;
    var refs := [Ref(name, false)];
    forall k | 0 <= k < |calls| ensures MatchSet(refs, calls[k].call, MatchWild) <==> SameFolded(calls[k].call, name) {
      OneMatch(name, calls[k].call);
    }
    if Digipeated(calls, refs) {
      var a :| 0 <= a < |calls| && MatchSet(refs, calls[a].call, MatchWild) && Starred(calls, a);
      var b :| a <= b < |calls| && calls[b].starred;
      assert SameFolded(calls[a].call, name);
    }
    if a, b :| 0 <= a <= b < |calls| && SameFolded(calls[a].call, name) && calls[b].starred {
      assert Starred(calls, a);
      assert MatchSet(refs, calls[a].call, MatchWild);
    }
  }

  // ---------------------------------------------------------------- filters without a kind

  /** A string whose kind is none of the 28 letters is refused if and only if it has one at all. */
  lemma UnknownKindRefused(w: World, filt: string)
    requires Body(filt) != "" ==> Body(filt)[0] !in CALLSET_KINDS && Body(filt)[0] !in OTHER_KINDS
    ensures NodeOf(w, filt).0 < 0 <==> Body(filt) != ""
    ensures Body(filt) == "" ==> NodeOf(w, filt) == (0, Kindless(filt))
  {
  }

  /** The strings that are accepted without a kind are the empty one and "-". */
  lemma KindlessStrings(w: World, filt: string)
    ensures NodeOf(w, filt).1.Kindless? <==> filt == "" || filt == "-"
    ensures NodeOf(w, "") == (0, Kindless("")) && NodeOf(w, "-") == (0, Kindless("-"))
  {
    hide Parsed;
    if filt != "" && filt[0] == '-' { assert filt == "-" + filt[1..]; }
  }

  lemma WalkKindless(w: World, list: seq<Node>, filt: string, pb: Packet, user: bool)
    ensures Walk(w, list + [Kindless(filt)], pb, user) ==
            Then(Walk(w, list, pb, user), if user then Notify(w, filt) else 0)
  {
    hide Walk;
    WalkAppend(w, list, [Kindless(filt)], pb, user);
    WalkOne(w, Kindless(filt), pb, user);
  }

  /** Among the server's own filters such a filter does nothing. */
  lemma KindlessDefault(w: World, l: Lists, pb: Packet)
    ensures Decide(w, l.(posDefault := l.posDefault + [Kindless("")]), pb) == Decide(w, l, pb)
    ensures Decide(w, l.(negDefault := l.negDefault + [Kindless("-")]), pb) == Decide(w, l, pb)
  {
    hide Walk;
    WalkKindless(w, l.posDefault, "", pb, false);
    WalkKindless(w, l.negDefault, "-", pb, false);
  }

  /** Among the user's it does nothing once the client has been warned.  Before, the number of bytes
      of the warning counts as a match: a packet that no filter decided passes on account of "", and
      one that no earlier list and no negative filter decided is dropped on account of "-". */
  lemma KindlessUser(w: World, l: Lists, pb: Packet)
    ensures w.warned ==> Decide(w, l.(posUser := l.posUser + [Kindless("")]), pb) == Decide(w, l, pb)
    ensures w.warned ==> Decide(w, l.(negUser := l.negUser + [Kindless("-")]), pb) == Decide(w, l, pb)
    ensures !w.warned && w.printed("") > 0 && Undecided(w, l, pb) && Walk(w, l.posUser, pb, true) == 0 ==>
      Decide(w, l, pb) == 0 && Decide(w, l.(posUser := l.posUser + [Kindless("")]), pb) == w.printed("")
    ensures !w.warned && w.printed("-") > 0 && Undecided(w, l, pb) ==>
      && Decide(w, l, pb) == Walk(w, l.posUser, pb, true)
      && Decide(w, l.(negUser := l.negUser + [Kindless("-")]), pb) == 0
  {
    hide Walk;
    WalkKindless(w, l.posUser, "", pb, true);
    WalkKindless(w, l.negUser, "-", pb, true);
  }

  /** No server filter and no negative user filter answers for the packet. */
  ghost predicate Undecided(w: World, l: Lists, pb: Packet) {
    Walk(w, l.negDefault, pb, false) <= 0 && Walk(w, l.posDefault, pb, false) <= 0 && Walk(w, l.negUser, pb, true) == 0
  }

  // ---------------------------------------------------------------- the code

  predicate DistinctFilters(fs: seq<Filter>) { forall i, j :: 0 <= i < j < |fs| ==> fs[i] != fs[j] }

  predicate Disjoint(a: seq<Filter>, b: seq<Filter>) { forall f :: f in a ==> f !in b }

  ghost predicate AllValid(fs: seq<Filter>)
    reads set f | f in fs
  {
    forall f :: f in fs ==> f.Valid()
  }

  /** What a list of filters in memory stands for. */
  ghost function Values(fs: seq<Filter>): (r: seq<Node>)
    reads (set f | f in fs), set f | f in fs :: f.names
    requires AllValid(fs)
    ensures |r| == |fs|
  {
    if fs == [] then [] else Values(fs[..|fs| - 1]) + [fs[|fs| - 1].Value()]
  }

  method ParseOther(w: World, filt: string) returns (code: int)
    requires Body(filt) != "" ==> Body(filt)[0] !in CALLSET_KINDS
    ensures code == NodeOf(w, filt).0
    ensures code == 0 ==> NodeOf(w, filt).1 == if Body(filt) == "" then Kindless(filt) else Other(filt)
  {
    hide Parsed;
    var body := Body(filt);
    if body == "" { return 0; }
    if body[0] !in OTHER_KINDS { return -1; }
    code := w.judge(filt);
    if code > 0 { code := 0; }
  }

  lemma {:induction false} ValuesAt(fs: seq<Filter>, i: nat)
    requires AllValid(fs) && i < |fs|
    ensures Values(fs)[i] == fs[i].Value()
  {
    if i < |fs| - 1 { ValuesAt(fs[..|fs| - 1], i); }
  }

  /** filter_parse for the list chosen by the sign of the filter. */
  function ListCode(w: World, list: seq<Node>, filt: string, haveCell: bool): int {
    var r := NodeOf(w, filt);
    if r.0 < 0 then r.0 else if !Extends(list, r.1) && !haveCell then -1 else 0
  }

  function ListAfter(w: World, list: seq<Node>, filt: string, haveCell: bool): seq<Node> {
    if ListCode(w, list, filt, haveCell) < 0 then list else Merge(list, NodeOf(w, filt).1)
  }

  method AppendTo(list: seq<Filter>, f: Filter) returns (list': seq<Filter>)
    requires AllValid(list) && f.Valid() && f !in list
    ensures list' == list + [f] && AllValid(list') && Values(list') == Values(list) + [f.Value()]
  {
    list' := list + [f];
    assert list'[..|list|] == list;
  }

  /** The last filter of a list takes more names: the others are not touched. */
  method ExtendLast(list: seq<Filter>, filt: string, mode: Mode) returns (ok: bool)
    requires list != [] && AllValid(list) && DistinctFilters(list)
    requires list[|list| - 1].node.Callset? && list[|list| - 1].Valid()
    modifies list[|list| - 1]
    ensures AllValid(list) && (ok <==> Parsed(filt, mode).Some?)
    ensures forall f :: f in list ==> f.names == old(f.names) || fresh(f.names)
    ensures Values(list) ==
            old(Values(list[..|list| - 1])) + [Callset(list[|list| - 1].node.kind,
              old(list[|list| - 1].names[..list[|list| - 1].numnames]) + if ok then Parsed(filt, mode).value else [])]
  {
    var k := |list| - 1;
    ghost var front := list[..k];
    assert forall f :: f in front ==> f in list && f != list[k];
    ok := list[k].Extend(filt, mode);
    assert Values(front) == old(Values(front));
  }

  lemma ExtendsMeans(w: World, fs: seq<Filter>, filt: string)
    requires AllValid(fs) && Body(filt) != "" && Body(filt)[0] in CALLSET_KINDS && NodeOf(w, filt).0 == 0
    ensures Extends(Values(fs), NodeOf(w, filt).1) <==>
            fs != [] && fs[|fs| - 1].node.Callset? && fs[|fs| - 1].node.kind == Body(filt)[0]
  {
    hide Parsed;
    if fs != [] { ValuesAt(fs, |fs| - 1); }
  }

  lemma ValuesLast(fs: seq<Filter>)
    requires AllValid(fs) && fs != []
    ensures Values(fs) == Values(fs[..|fs| - 1]) + [fs[|fs| - 1].Value()]
  {
  }

  /** The list after merging names into its last filter. */
  lemma MergedInto(w: World, front: seq<Node>, kind: char, names: seq<Ref>, filt: string, haveCell: bool)
    requires Body(filt) != "" && Body(filt)[0] == kind && kind in CALLSET_KINDS
    ensures var list, parsed := front + [Callset(kind, names)], Parsed(filt, ModeOf(kind));
      && ListAfter(w, list, filt, haveCell) == front
          + [Callset(kind, names + if parsed.Some? then parsed.value else [])]
      && ListCode(w, list, filt, haveCell) == if parsed.Some? then 0 else -1
  {
    hide Parsed;
    var list := front + [Callset(kind, names)];
    assert names + [] == names;
    assert list[..|front|] == front && list[|front|] == Callset(kind, names);
  }

  predicate IsCallset(filt: string) { Body(filt) != "" && Body(filt)[0] in CALLSET_KINDS }

  /** Whether filter_parse_one_callsignset extends the last filter. */
  predicate JoinsLast(list: seq<Filter>, filt: string) {
    IsCallset(filt) && list != [] && list[|list| - 1].node.Callset? && list[|list| - 1].node.kind == Body(filt)[0]
  }

  lemma NotJoined(w: World, list: seq<Filter>, filt: string)
    requires AllValid(list) && !JoinsLast(list, filt)
    ensures NodeOf(w, filt).0 == 0 ==> !Extends(Values(list), NodeOf(w, filt).1)
  {
    hide Parsed, Values;
    if list != [] { ValuesAt(list, |list| - 1); }
  }

  method ParseMerge(w: World, list: seq<Filter>, filt: string, haveCell: bool) returns (rc: int)
    requires AllValid(list) && DistinctFilters(list) && JoinsLast(list, filt)
    modifies list[|list| - 1]
    ensures AllValid(list)
    ensures forall f :: f in list ==> f.names == old(f.names) || fresh(f.names)
    ensures rc == ListCode(w, old(Values(list)), filt, haveCell)
    ensures Values(list) == ListAfter(w, old(Values(list)), filt, haveCell)
  {
    hide Parsed, Values, ListCode, ListAfter;
    var last := list[|list| - 1];
    assert last.Valid();
    ValuesLast(list);
    MergedInto(w, Values(list[..|list| - 1]), last.node.kind, last.names[..last.numnames], filt, haveCell);
    var ok := ExtendLast(list, filt, ModeOf(last.node.kind));
    return if ok then 0 else -1;
  }

  /** A filter of its own, not yet in a list; None with the error code if the string is rejected. */
  method NewFilter(w: World, filt: string) returns (rc: int, f: Option<Filter>)
    ensures rc == NodeOf(w, filt).0 && (f.Some? <==> rc == 0)
    ensures f.Some? ==> fresh(f.value) && fresh(f.value.names)
    ensures f.Some? ==> f.value.Valid() && f.value.Value() == NodeOf(w, filt).1
  {
    hide Parsed;
    if IsCallset(filt) {
      var kind := Body(filt)[0];
      var g := new Filter(Callset(kind, []));
      var ok := g.Extend(filt, ModeOf(kind));
      if !ok { return -1, None; }
      return 0, Some(g);
    }
    rc := ParseOther(w, filt);
    if rc < 0 { return rc, None; }
    var g := new Filter(if Body(filt) == "" then Kindless(filt) else Other(filt));
    return 0, Some(g);
  }

  /** filter_parse, once the list is chosen. */
  method ParseInto(w: World, list: seq<Filter>, filt: string, haveCell: bool) returns (rc: int, list': seq<Filter>)
    requires AllValid(list) && DistinctFilters(list)
    modifies if list == [] then {} else {list[|list| - 1]}
    ensures AllValid(list') && DistinctFilters(list') && list <= list' && |list'| <= |list| + 1
    ensures |list'| == |list| + 1 ==> fresh(list'[|list|]) && fresh(list'[|list|].names)
    ensures forall f :: f in list ==> f.names == old(f.names) || fresh(f.names)
    ensures rc == ListCode(w, old(Values(list)), filt, haveCell)
    ensures Values(list') == ListAfter(w, old(Values(list)), filt, haveCell)
  {
    hide Parsed, Values, NodeOf;
    list' := list;
    if JoinsLast(list, filt) {
      rc := ParseMerge(w, list, filt, haveCell);
      return;
    }
    NotJoined(w, list, filt);
    var f;
    rc, f := NewFilter(w, filt);
    if f == None { return; }
    if !haveCell { return -1, list; }
    list' := AppendTo(list, f.value);
  }

  // Indices of a client's lists.
  const POS_USER := 0
  const NEG_USER := 1
  const POS_DEFAULT := 2
  const NEG_DEFAULT := 3

  function Slot(c: Command): (i: nat)
    ensures i < 4
  {
    (if c.isUser then 0 else 2) + if Negative(c.filt) then 1 else 0
  }

  class ClientFilters {
    /** posuserfilters, neguserfilters, posdefaultfilters and negdefaultfilters. */
    var lists: seq<seq<Filter>>
    const userOk: bool

    ghost predicate Apart()
      reads this
    {
      && |lists| == 4 && (forall i :: 0 <= i < 4 ==> DistinctFilters(lists[i]))
      && forall i, j :: 0 <= i < 4 && 0 <= j < 4 && i != j ==> Disjoint(lists[i], lists[j])
    }

    ghost function All(): set<Filter>
      reads this
    {
      set i, f | 0 <= i < |lists| && f in lists[i] :: f
    }

    ghost predicate Valid()
      reads this, All()
    {
      Apart() && forall i :: 0 <= i < 4 ==> AllValid(lists[i])
    }

    ghost function Value(): Lists
      reads this, All(), set f | f in All() :: f.names
      requires Valid()
    {
      Lists(Values(lists[POS_USER]), Values(lists[NEG_USER]), Values(lists[POS_DEFAULT]), Values(lists[NEG_DEFAULT]))
    }

    constructor (userOk: bool)
      ensures Valid() && Value() == Lists([], [], [], []) && this.userOk == userOk
    {
      this.userOk := userOk;
      lists := [[], [], [], []];
    }

    /** filter_parse on one of the lists; the other three are not touched. */
    method ParseSlot(w: World, i: nat, filt: string, haveCell: bool) returns (rc: int)
      requires Valid() && i < 4
      modifies this, All()
      ensures Valid() && fresh(All() - old(All()))
      ensures forall j :: 0 <= j < 4 && j != i ==>
          lists[j] == old(lists[j]) && Values(lists[j]) == old(Values(lists[j]))
      ensures rc == ListCode(w, old(Values(lists[i])), filt, haveCell)
      ensures Values(lists[i]) == ListAfter(w, old(Values(lists[i])), filt, haveCell)
    {
      hide Values, ListCode, ListAfter;
      ghost var before := lists;
      assert lists[i] != [] ==> lists[i][|lists[i]| - 1] in lists[i] && lists[i][|lists[i]| - 1] in All();
      var list;
      rc, list := ParseInto(w, lists[i], filt, haveCell);
      forall j | 0 <= j < 4 && j != i
        ensures AllValid(before[j]) && Values(before[j]) == old(Values(before[j]))
        ensures Disjoint(list, before[j]) && Disjoint(before[j], list)
      {
        assert Disjoint(before[i], before[j]) && Disjoint(before[j], before[i]);
        assert forall f :: f in list ==> f in before[i] || fresh(f);
      }
      lists := lists[i := list];
      forall f | f in All() ensures f in old(All()) || fresh(f) {
        var j :| 0 <= j < 4 && f in lists[j];
        if j == i { assert f in before[i] || fresh(f); } else { assert f in before[j]; }
      }
    }

    method FilterParse(w: World, c: Command) returns (rc: int)
      requires Valid()
      modifies this, All()
      ensures Valid() && fresh(All() - old(All()))
      ensures rc == Code(w, old(Value()), c, userOk) && Value() == AfterParse(w, old(Value()), c, userOk)
    {
      hide Values, NodeOf, Merge, Valid;
      if c.isUser && !userOk {
        assert All() - old(All()) == {};
        return -1;
      }
      rc := ParseSlot(w, Slot(c), c.filt, c.haveCell);
    }

    method FilterProcess(w: World, igateWants: bool, pb: Packet) returns (rc: int)
      requires Valid()
      ensures rc == if igateWants then 1 else Decide(w, Value(), pb)
    {
      hide Walk, Values;
      if igateWants { return 1; }
      rc := WalkList(w, lists[NEG_DEFAULT], pb, false);
      if rc > 0 { return 0; }
      rc := WalkList(w, lists[POS_DEFAULT], pb, false);
      if rc > 0 { return; }
      rc := WalkList(w, lists[NEG_USER], pb, true);
      if rc < 0 { return; }
      if rc > 0 { return 0; }
      rc := WalkList(w, lists[POS_USER], pb, true);
    }
  }

  lemma WalkStep(w: World, list: seq<Node>, k: nat, pb: Packet, user: bool)
    requires k < |list|
    ensures Walk(w, list[k..], pb, user) ==
            Then(if user then UserAnswer(w, list[k], pb) else DefaultAnswer(w, list[k], pb),
              Walk(w, list[k + 1..], pb, user))
  {
    hide UserAnswer, DefaultAnswer;
    assert list[k..][1..] == list[k + 1..];
  }

  lemma WalkDone(w: World, pb: Packet, user: bool)
    ensures Walk(w, [], pb, user) == 0
  {
  }

  /** One of the four walks of filter_process. */
  method WalkList(w: World, list: seq<Filter>, pb: Packet, user: bool) returns (rc: int)
    requires AllValid(list)
    ensures rc == Walk(w, Values(list), pb, user)
  {
    hide Walk, Values;
    ghost var nodes := Values(list);
    SameLength(list);
    assert nodes[0..] == nodes;
    for k := 0 to |list|
      invariant Walk(w, nodes, pb, user) == Walk(w, nodes[k..], pb, user)
    {
      WalkStep(w, nodes, k, pb, user);
      ValuesAt(list, k);
      var text := TextOf(list[k].node);
      rc := list[k].ProcessOne(w, pb);
      if rc < 0 { rc := if user then Notify(w, text) else 0; }
      if rc != 0 { return; }
    }
    assert nodes[|list|..] == [];
    WalkDone(w, pb, user);
    return 0;
  }

  lemma SameLength(fs: seq<Filter>)
    requires AllValid(fs)
    ensures |Values(fs)| == |fs|
  {
  }

  /** Any sequence of filter strings, then a decision: the code with its merged tables decides as one
      node for every accepted string would. */
  method ParseAllAndDecide(cf: ClientFilters, w: World, cmds: seq<Command>, pb: Packet) returns (rc: int)
    requires cf.Valid()
    modifies cf, cf.All()
    ensures cf.Valid() && cf.Value() == RunMerged(w, old(cf.Value()), cmds, cf.userOk)
    ensures rc == Decide(w, RunUnmerged(w, old(cf.Value()), cmds, cf.userOk), pb)
  {
    hide AfterParse, AfterParseUnmerged, Decide, Values, Code;
    ghost var start := cf.Value();
    for k := 0 to |cmds|
      invariant cf.Valid() && fresh(cf.All() - old(cf.All()))
      invariant cf.Value() == RunMerged(w, start, cmds[..k], cf.userOk)
    {
      assert cmds[..k + 1][..k] == cmds[..k];
      var code := cf.FilterParse(w, cmds[k]);
    }
    assert cmds[..|cmds|] == cmds;
    MergingPreservesDecisions(w, start, cmds, cf.userOk, pb);
    rc := cf.FilterProcess(w, false, pb);
  }
}
