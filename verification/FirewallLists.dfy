/**
 * Setups with several forwardings, from pairwise different source zones.
 *
 * Such a setup does all it was asked, and can be repeated, exactly when every
 * request finds its forwarding or an unused name in the reset configuration.
 */
module FirewallLists {
  import opened Outcomes
  import opened FirewallWizard

  predicate SourcesApart(rs: seq<Request>) {
    forall j, k :: 0 <= j < k < |rs| ==> rs[j].src != rs[k].src
  }

  predicate AllNamed(rs: seq<Request>) {
    forall k :: 0 <= k < |rs| ==> rs[k].name != ""
  }

  predicate NamesApart(rs: seq<Request>) {
    AllNamed(rs) && forall j, k :: 0 <= j < k < |rs| ==> rs[j].name != rs[k].name
  }

  lemma RestIsApart(rs: seq<Request>)
    requires rs != [] && SourcesApart(rs)
    ensures SourcesApart(rs[1..])
    ensures forall k :: 0 <= k < |rs[1..]| ==> rs[1..][k].src != rs[0].src
    ensures AllNamed(rs) ==> AllNamed(rs[1..])
    ensures NamesApart(rs) ==> NamesApart(rs[1..]) && forall k :: 0 <= k < |rs[1..]| ==> rs[1..][k].name != rs[0].name
  {
    assert forall k :: 0 <= k < |rs[1..]| ==> rs[1..][k] == rs[k + 1];
  }

  // ---- Freshness, at the start -------------------------------------------------------

  /** Neither request finds its forwarding, and both have the one name. */
  predicate Clash(c: Config, r: Request, q: Request) {
    Match(c, r).None? && Match(c, q).None? && r.name == q.name
  }

  /** Each request finds its forwarding or an unused name in the store, and no two need the same one. */
  predicate FreshAtStart(c: Config, rs: seq<Request>) {
    && (forall k :: 0 <= k < |rs| ==> Fresh(c, rs[k]))
    && (forall j, k :: 0 <= j < k < |rs| ==> !Clash(c, rs[j], rs[k]))
  }

  lemma UnmatchedIsAdded(c: Config, r: Request)
    requires Fresh(c, r) && Requested(c, r).Success? && r.name != ""
    ensures var n := Requested(c, r).value;
            if Match(c, r).Some? then |n| == |c|
            else |n| == |c| + 1 && n[|c|] == Section(r.name, "forwarding", map["src" := [r.src], "dest" := [r.dest]])
  {
    RequestKeepsOldSections(c, r);
    MatchSurvivesPreparing(c, r);
  }

  /** A fresh request takes its name if it needs it, and no other. */
  lemma FreshRequestTakesOwnName(c: Config, r: Request, name: string)
    requires Fresh(c, r) && Requested(c, r).Success? && r.name != ""
    ensures NameUsed(Requested(c, r).value, name) <==> NameUsed(c, name) || (Match(c, r).None? && name == r.name)
  {
    var n := Requested(c, r).value;
    RequestKeepsOldSections(c, r);
    UnmatchedIsAdded(c, r);
    assert forall i :: 0 <= i < |c| ==> Alike(n[i], c[i]);
    if i :| 0 <= i < |c| && c[i].name == name { assert n[i].name == name; }
    if i :| 0 <= i < |n| && n[i].name == name && i < |c| { assert c[i].name == name; }
    if Match(c, r).None? { assert n[|c|].name == r.name; }
  }

  /** A fresh request adds nothing a request of another source looks for, and hides nothing. */
  lemma FreshRequestKeepsMatch(c: Config, r: Request, q: Request)
    requires Fresh(c, r) && Requested(c, r).Success? && r.src != q.src && r.name != ""
    ensures Match(Requested(c, r).value, q).None? <==> Match(c, q).None?
  {
    var n := Requested(c, r).value;
    RequestKeepsOldSections(c, r);
    UnmatchedIsAdded(c, r);
    assert forall i :: 0 <= i < |c| ==> Alike(n[i], c[i]);
    assert forall i :: 0 <= i < |c| ==> Forwards(n[i], q.src, q.dest) == Forwards(c[i], q.src, q.dest);
    assert forall i :: |c| <= i < |n| ==> !Forwards(n[i], q.src, q.dest);
  }

  /** What is fresh once the first request is met is what was fresh beside it. */
  lemma FreshBesideFirst(c: Config, r: Request, q: Request)
    requires Fresh(c, r) && Requested(c, r).Success? && r.src != q.src && r.name != "" && q.name != ""
    ensures Fresh(Requested(c, r).value, q) <==> Fresh(c, q) && !Clash(c, r, q)
  {
    FreshRequestKeepsMatch(c, r, q);
    FreshRequestTakesOwnName(c, r, q.name);
  }

  lemma FreshAtStartOneMore(c: Config, rs: seq<Request>)
    requires rs != [] && SourcesApart(rs) && AllNamed(rs) && Fresh(c, rs[0]) && Requested(c, rs[0]).Success?
    ensures FreshAtStart(c, rs) <==> FreshAtStart(Requested(c, rs[0]).value, rs[1..])
  {
    var n, rest := Requested(c, rs[0]).value, rs[1..];
    RestIsApart(rs);
    forall k | 0 <= k < |rest|
      ensures Fresh(n, rest[k]) <==> Fresh(c, rs[k + 1]) && !Clash(c, rs[0], rs[k + 1])
      ensures Match(n, rest[k]).None? <==> Match(c, rs[k + 1]).None?
    {
      assert rest[k] == rs[k + 1];
      FreshBesideFirst(c, rs[0], rest[k]);
      FreshRequestKeepsMatch(c, rs[0], rest[k]);
    }
    assert forall j, k :: 0 <= j < k < |rest| ==> Clash(n, rest[j], rest[k]) == Clash(c, rs[j + 1], rs[k + 1]);
    if FreshAtStart(n, rest) {
      forall j, k | 0 <= j < k < |rs| ensures Fresh(c, rs[k]) && !Clash(c, rs[j], rs[k]) {
        assert rest[k - 1] == rs[k] && Fresh(n, rest[k - 1]);
        if j > 0 { assert !Clash(n, rest[j - 1], rest[k - 1]); }
      }
    }
    if FreshAtStart(c, rs) {
      forall k | 0 <= k < |rest| ensures Fresh(n, rest[k]) {
        assert Fresh(c, rs[k + 1]) && !Clash(c, rs[0], rs[k + 1]);
      }
      forall j, k | 0 <= j < k < |rest| ensures !Clash(n, rest[j], rest[k]) {
        assert !Clash(c, rs[j + 1], rs[k + 1]);
      }
    }
  }

  /** All requests of a run are fresh when their turn comes exactly if they are at the start. */
  lemma {:induction false} FreshAllIffAtStart(c: Config, rs: seq<Request>)
    requires SourcesApart(rs) && AllNamed(rs) && RequestedAll(c, rs).Success?
    ensures FreshAll(c, rs) <==> FreshAtStart(c, rs)
    decreases |rs|
  {
    if rs != [] && Fresh(c, rs[0]) {
      RestIsApart(rs);
      FreshAllIffAtStart(Requested(c, rs[0]).value, rs[1..]);
      FreshAtStartOneMore(c, rs);
    }
  }

  // ---- All that was asked for flows exactly if all was fresh -------------------------

  /** Some live forwarding starts at src. */
  predicate LiveFrom(c: Config, src: string) {
    exists i :: 0 <= i < |c| && Live(c[i]) && FromSource(c[i], src)
  }

  predicate EnabledAreLive(c: Config) {
    forall i :: 0 <= i < |c| && c[i].kind == FORWARDING && Enabled(c[i]) ==> Live(c[i])
  }

  predicate Asks(rs: seq<Request>, src: string) {
    exists k :: 0 <= k < |rs| && rs[k].src == src
  }

  lemma NotAskedByRest(rs: seq<Request>, src: string)
    requires rs != [] && !Asks(rs, src)
    ensures rs[0].src != src && !Asks(rs[1..], src)
  {
    assert forall k :: 0 <= k < |rs[1..]| ==> rs[1..][k] == rs[k + 1];
  }

  lemma RequestAddsNoLife(c: Config, r: Request, src: string)
    requires !LiveFrom(c, src) && Requested(c, r).Success? && r.src != src
    ensures !LiveFrom(Requested(c, r).value, src)
  {
    if EnabledMatch(c, r).None? {
      var k := RequestSilencesSource(c, r);
    }
  }

  /** Nothing comes alive from a source nobody asks for. */
  lemma {:induction false} RunAddsNoLife(c: Config, rs: seq<Request>, src: string)
    requires !LiveFrom(c, src) && RequestedAll(c, rs).Success? && !Asks(rs, src)
    ensures !LiveFrom(RequestedAll(c, rs).value, src)
    decreases |rs|
  {
    if rs != [] {
      NotAskedByRest(rs, src);
      RequestAddsNoLife(c, rs[0], src);
      RunAddsNoLife(Requested(c, rs[0]).value, rs[1..], src);
    }
  }

  lemma PreparedEnablesNothing(c: Config, r: Request, i: nat)
    requires i < |c| && c[i].kind == FORWARDING && Enabled(Prepared(c, r)[i])
    ensures Enabled(c[i]) && Prepared(c, r)[i].kind == FORWARDING
  {
    assert NatApplied(c, r.dest, r.natOnDest)[i] == c[i];
  }

  /** A live section that is repointed was the only one of its source. */
  lemma RepointedLeavesNone(c: Config, n: Config, k: nat, src: string)
    requires SourcesDiffer(c) && k < |c| && |n| == |c| && Live(c[k]) && FromSource(c[k], src) && !FromSource(n[k], src)
    requires forall i :: 0 <= i < |n| && i != k && Live(n[i]) ==> n[i] == c[i]
    ensures LiveFrom(c, src) && !LiveFrom(n, src)
  {
    forall i | 0 <= i < |n| && Live(n[i]) ensures !FromSource(n[i], src) {
      if i < k { assert First(c[i], "src") != First(c[k], "src"); }
    }
  }

  /**
   * A request that takes another's section kills a source: that of the section if it
   * was live, and its own otherwise.
   */
  lemma TakenNameKills(c: Config, r: Request) returns (src: string)
    requires SourcesDiffer(c) && EnabledAreLive(c) && !LiveFrom(c, r.src)
    requires Requested(c, r).Success? && !Fresh(c, r)
    ensures src == r.src || LiveFrom(c, src)
    ensures !LiveFrom(Requested(c, r).value, src)
  {
    NoneEnabledFrom(c, r);
    TakenNameIsRepointed(c, r);
    PreparedSilencesSource(c, r);
    var k, n := Named(c, SectionName(c, r)).value, Requested(c, r).value;
    assert forall i :: 0 <= i < |n| && i != k && Live(n[i]) ==> n[i] == c[i];
    if Live(c[k]) {
      src := First(c[k], "src").value;
      assert LiveFrom(c, src);
      RepointedLeavesNone(c, n, k, src);
    } else {
      src := r.src;
      if Enabled(n[k]) {
        PreparedEnablesNothing(c, r, k);
      }
    }
  }

  lemma NoneEnabledFrom(c: Config, r: Request)
    requires !LiveFrom(c, r.src)
    ensures EnabledMatch(c, r).None?
  {
    if EnabledMatch(c, r).Some? {
      assert Live(c[EnabledMatch(c, r).value]);
    }
  }

  /** Whatever is live starts at a zone that nobody still asks for and that is live in the end. */
  ghost predicate LivesOn(c: Config, rs: seq<Request>, f: Config) {
    forall src :: LiveFrom(c, src) ==> !Asks(rs, src) && LiveFrom(f, src)
  }

  lemma RequestKeepsEnabledLive(c: Config, r: Request)
    requires EnabledAreLive(c) && Requested(c, r).Success?
    ensures EnabledAreLive(Requested(c, r).value)
  {
    if EnabledMatch(c, r).None? {
      PreparedKeepsEnabledLive(c, r);
      var p, n := Prepared(c, r), Requested(c, r).value;
      forall i | 0 <= i < |n| && n[i].kind == FORWARDING && Enabled(n[i]) ensures Live(n[i]) {
        if i < |p| && n[i] != p[i] {
          assert First(n[i], "src").Some?;
        }
      }
    }
  }

  lemma PreparedKeepsEnabledLive(c: Config, r: Request)
    requires EnabledAreLive(c)
    ensures EnabledAreLive(Prepared(c, r))
  {
    var p := Prepared(c, r);
    PreparedIsAlike(c, r);
    forall i | 0 <= i < |p| && p[i].kind == FORWARDING && Enabled(p[i]) ensures Live(p[i]) {
      assert Alike(p[i], c[i]);
      PreparedEnablesNothing(c, r, i);
    }
  }

  lemma RequestKeepsLivesOn(c: Config, rs: seq<Request>, f: Config)
    requires rs != [] && SourcesApart(rs) && SourcesDiffer(c) && Requested(c, rs[0]).Success?
    requires LivesOn(c, rs, f) && LiveFrom(f, rs[0].src)
    ensures LivesOn(Requested(c, rs[0]).value, rs[1..], f)
  {
    var n := Requested(c, rs[0]).value;
    RestIsApart(rs);
    forall src | LiveFrom(n, src) ensures !Asks(rs[1..], src) && LiveFrom(f, src) {
      if src != rs[0].src {
        if !LiveFrom(c, src) { RequestAddsNoLife(c, rs[0], src); }
        NotAskedByRest(rs, src);
      }
    }
  }

  /** If every source asked for is live in the end, every request was fresh. */
  lemma {:induction false} LiveInTheEndIsFresh(c: Config, rs: seq<Request>)
    requires RequestedAll(c, rs).Success? && SourcesApart(rs) && SourcesDiffer(c) && EnabledAreLive(c)
    requires LivesOn(c, rs, RequestedAll(c, rs).value)
    requires forall k :: 0 <= k < |rs| ==> LiveFrom(RequestedAll(c, rs).value, rs[k].src)
    ensures FreshAll(c, rs)
    decreases |rs|
  {
    if rs != [] {
      var r, n, f := rs[0], Requested(c, rs[0]).value, RequestedAll(c, rs).value;
      RestIsApart(rs);
      assert Asks(rs, r.src);
      if !Fresh(c, r) {
        var src := TakenNameKills(c, r);
        if src != r.src { NotAskedByRest(rs, src); }
        RunAddsNoLife(n, rs[1..], src);
        assert false;
      }
      RequestKeepsSourcesApart(c, r);
      RequestKeepsEnabledLive(c, r);
      RequestKeepsLivesOn(c, rs, f);
      assert forall k :: 0 <= k < |rs[1..]| ==> rs[1..][k] == rs[k + 1];
      LiveInTheEndIsFresh(n, rs[1..]);
    }
  }

  lemma {:induction false} LastDestOfApart(rs: seq<Request>, k: nat, before: Option<string>)
    requires SourcesApart(rs) && k < |rs|
    ensures LastDest(rs, rs[k].src, before) == Some(rs[k].dest)
    decreases |rs|
  {
    RestIsApart(rs);
    if k == 0 {
      LastDestOfOthers(rs[1..], rs[0].src, Some(rs[0].dest));
    } else {
      assert rs[1..][k - 1] == rs[k];
      LastDestOfApart(rs[1..], k - 1, before);
    }
  }

  lemma {:induction false} LastDestOfOthers(rs: seq<Request>, src: string, before: Option<string>)
    requires forall k :: 0 <= k < |rs| ==> rs[k].src != src
    ensures LastDest(rs, src, before) == before
    decreases |rs|
  {
    if rs != [] { LastDestOfOthers(rs[1..], src, before); }
  }

  /** Every request's forwarding is there and enabled. */
  predicate AllFlow(c: Config, rs: seq<Request>) {
    forall k :: 0 <= k < |rs| ==> Flows(c, rs[k].src, rs[k].dest)
  }

  lemma OffHasNoLife(a: Config)
    requires ForwardingsOff(a)
    ensures SourcesDiffer(a) && EnabledAreLive(a) && forall src :: !LiveFrom(a, src) && Answers(a, src, None)
  {
    assert forall i :: 0 <= i < |a| ==> !Live(a[i]);
  }

  lemma FlowIsLife(c: Config, src: string, dest: string)
    requires Flows(c, src, dest)
    ensures LiveFrom(c, src)
  {
    var i :| 0 <= i < |c| && EnabledForwards(c[i], src, dest);
    assert Live(c[i]);
  }

  /** With every forwarding off at first, all that was asked for flows in the end exactly if all requests were fresh. */
  lemma RunFlowsIffFreshAll(a: Config, rs: seq<Request>)
    requires ForwardingsOff(a) && RequestedAll(a, rs).Success? && SourcesApart(rs)
    ensures AllFlow(RequestedAll(a, rs).value, rs) <==> FreshAll(a, rs)
  {
    var f := RequestedAll(a, rs).value;
    OffHasNoLife(a);
    if AllFlow(f, rs) {
      forall k | 0 <= k < |rs| ensures LiveFrom(f, rs[k].src) { FlowIsLife(f, rs[k].src, rs[k].dest); }
      LiveInTheEndIsFresh(a, rs);
    }
    if FreshAll(a, rs) {
      forall k | 0 <= k < |rs| ensures Flows(f, rs[k].src, rs[k].dest) {
        RunKeepsAnswers(a, rs, rs[k].src, None);
        LastDestOfApart(rs, k, None);
      }
    }
  }

  // ---- Whole setups ------------------------------------------------------------------

  lemma {:induction false} RunKeepsNoRules(c: Config, rs: seq<Request>)
    requires NoRules(c) && RequestedAll(c, rs).Success?
    ensures NoRules(RequestedAll(c, rs).value)
    decreases |rs|
  {
    if rs != [] {
      RequestKeepsNoRules(c, rs[0]);
      RunKeepsNoRules(Requested(c, rs[0]).value, rs[1..]);
    }
  }

  /** Fresh or not, a setup is its forwardings and then the rules, and the next reset removes the rules again. */
  lemma SetupOfList(c: Config, rs: seq<Request>, rules: seq<Rule>)
    requires Setup(c, rs, rules).Success?
    ensures RequestedAll(Reset(c), rs).Success?
    ensures var f := RequestedAll(Reset(c), rs).value;
            && Setup(c, rs, rules).value == f + RuleSections(rules, 0)
            && Reset(Setup(c, rs, rules).value) == Quiet(f)
  {
    var f := RequestedAll(Reset(c), rs).value;
    ResetLeavesNoRules(c);
    RunKeepsNoRules(Reset(c), rs);
    AddedRulesAppend(f, rules);
    RemovedRulesAreGone(f, RuleSections(rules, 0));
  }

  /**
   * A setup of several forwardings does all it was asked exactly if, in the reset
   * store, every request finds its forwarding or an unused name of its own.
   */
  lemma SetupFlowsIffFreshAtStart(c: Config, rs: seq<Request>, rules: seq<Rule>)
    requires SourcesApart(rs) && AllNamed(rs) && Setup(c, rs, rules).Success?
    ensures AllFlow(Setup(c, rs, rules).value, rs) <==> FreshAtStart(Reset(c), rs)
  {
    var a, g := Reset(c), Setup(c, rs, rules).value;
    SetupOfList(c, rs, rules);
    ResetIsReset(c);
    ResetForwardingsAreOff(a);
    RunFlowsIffFreshAll(a, rs);
    FreshAllIffAtStart(a, rs);
    forall k | 0 <= k < |rs|
      ensures Flows(g, rs[k].src, rs[k].dest) <==> Flows(RequestedAll(a, rs).value, rs[k].src, rs[k].dest)
    {
      RulesDoNotFlow(RequestedAll(a, rs).value, rules, rs[k].src, rs[k].dest);
    }
  }

  // ---- Repeating ------------------------------------------------------------------------

  /** The same sections between the same zones, on or off. */
  predicate SameLinks(s: Section, t: Section) {
    s.name == t.name && s.kind == t.kind && First(s, "src") == First(t, "src") && First(s, "dest") == First(t, "dest")
  }

  predicate SamePlan(c: Config, d: Config) {
    |c| == |d| && forall i :: 0 <= i < |c| ==> SameLinks(c[i], d[i])
  }

  lemma QuietIsSamePlan(f: Config)
    ensures SamePlan(Quiet(f), f)
  {
    forall i | 0 <= i < |f| ensures SameLinks(Quiet(f)[i], f[i]) {
      assert Quiet(f)[i] == Quieted(f[i]);
    }
  }

  lemma PreparedIsSamePlan(c: Config, r: Request)
    ensures SamePlan(Prepared(c, r), c)
  {
    PreparedIsAlike(c, r);
    forall i | 0 <= i < |c| ensures SameLinks(Prepared(c, r)[i], c[i]) {
      assert Alike(Prepared(c, r)[i], c[i]);
    }
  }

  /** A request keeps the links of every section that has not its name. */
  lemma RequestKeepsLinks(c: Config, r: Request, i: nat)
    requires Requested(c, r).Success? && r.name != "" && i < |c| && c[i].name != r.name
    ensures |c| <= |Requested(c, r).value| && SameLinks(Requested(c, r).value[i], c[i])
  {
    PreparedIsSamePlan(c, r);
    var p := Prepared(c, r);
    assert SameLinks(p[i], c[i]);
    if EnabledMatch(c, r).None? && Match(p, r).None? && Named(p, r.name).Some? {
      assert i != Named(p, r.name).value;
    }
  }

  lemma {:induction false} RunKeepsLinks(c: Config, rs: seq<Request>, i: nat)
    requires RequestedAll(c, rs).Success? && AllNamed(rs) && i < |c|
    requires forall k :: 0 <= k < |rs| ==> rs[k].name != c[i].name
    ensures i < |RequestedAll(c, rs).value| && SameLinks(RequestedAll(c, rs).value[i], c[i])
    decreases |rs|
  {
    if rs != [] {
      RequestKeepsLinks(c, rs[0], i);
      RunKeepsLinks(Requested(c, rs[0]).value, rs[1..], i);
    }
  }

  /** A request that does not find its forwarding leaves a section of its name that makes it. */
  lemma UnmatchedMakesLink(c: Config, r: Request) returns (k: nat)
    requires Requested(c, r).Success? && Match(c, r).None? && r.name != ""
    ensures var n := Requested(c, r).value;
            && k < |n| && n[k].name == r.name && Forwards(n[k], r.src, r.dest)
            && (k == |c| || (k < |c| && |n| == |c|))
  {
    var p := Prepared(c, r);
    MatchSurvivesPreparing(c, r);
    k := if Named(p, r.name).Some? then Named(p, r.name).value else |c|;
  }

  /** When a run ends with the links it began with, its first request found its forwarding. */
  lemma FirstIsMatched(c: Config, rs: seq<Request>)
    requires rs != [] && SourcesApart(rs) && NamesApart(rs) && RequestedAll(c, rs).Success?
    requires SamePlan(c, RequestedAll(c, rs).value)
    ensures Match(c, rs[0]).Some?
  {
    if Match(c, rs[0]).None? {
      var n, f := Requested(c, rs[0]).value, RequestedAll(c, rs).value;
      RestIsApart(rs);
      var k := UnmatchedMakesLink(c, rs[0]);
      RunKeepsLinks(n, rs[1..], k);
      assert SameLinks(c[k], f[k]);
      assert Forwards(c[k], rs[0].src, rs[0].dest);
      assert false;
    }
  }

  lemma MatchedKeepsPlan(c: Config, r: Request)
    requires Requested(c, r).Success? && Match(c, r).Some? && r.name != ""
    ensures Fresh(c, r) && SamePlan(Requested(c, r).value, c)
  {
    RequestKeepsOldSections(c, r);
    UnmatchedIsAdded(c, r);
    forall i | 0 <= i < |c| ensures SameLinks(Requested(c, r).value[i], c[i]) {
      assert Alike(Requested(c, r).value[i], c[i]);
    }
  }

  /** When a run ends with the links it began with, every request found its forwarding. */
  lemma {:induction false} SamePlanIsFreshAll(c: Config, rs: seq<Request>)
    requires SourcesApart(rs) && NamesApart(rs) && RequestedAll(c, rs).Success?
    requires SamePlan(c, RequestedAll(c, rs).value)
    ensures FreshAll(c, rs)
    decreases |rs|
  {
    if rs != [] {
      var n := Requested(c, rs[0]).value;
      FirstIsMatched(c, rs);
      MatchedKeepsPlan(c, rs[0]);
      RestIsApart(rs);
      SamePlanIsFreshAll(n, rs[1..]);
    }
  }

  /** What can be repeated does all it was asked. */
  lemma RepeatedSetupFlows(c: Config, rs: seq<Request>, rules: seq<Rule>)
    requires SourcesApart(rs) && NamesApart(rs) && Setup(c, rs, rules).Success?
    requires Setup(Setup(c, rs, rules).value, rs, rules) == Setup(c, rs, rules)
    ensures AllFlow(RequestedAll(Reset(c), rs).value, rs)
  {
    var f, g := RequestedAll(Reset(c), rs).value, Setup(c, rs, rules).value;
    SetupOfList(c, rs, rules);
    SetupOfList(g, rs, rules);
    var again := RequestedAll(Quiet(f), rs).value;
    assert |again| == |f|;
    assert again == g[..|f|] == f;
    QuietIsSamePlan(f);
    SamePlanIsFreshAll(Quiet(f), rs);
    ResetIsReset(g);
    ResetForwardingsAreOff(Quiet(f));
    RunFlowsIffFreshAll(Quiet(f), rs);
  }

  /**
   * With sources and names pairwise different, a setup can be repeated exactly if every
   * request finds its forwarding or an unused name in the reset store.
   */
  lemma SetupRepeatsIffFreshAtStart(c: Config, rs: seq<Request>, rules: seq<Rule>)
    requires SourcesApart(rs) && NamesApart(rs) && Setup(c, rs, rules).Success?
    ensures Setup(Setup(c, rs, rules).value, rs, rules) == Setup(c, rs, rules)
            <==> forall k :: 0 <= k < |rs| ==> Fresh(Reset(c), rs[k])
  {
    var a := Reset(c);
    SetupOfList(c, rs, rules);
    FreshAllIffAtStart(a, rs);
    if Setup(Setup(c, rs, rules).value, rs, rules) == Setup(c, rs, rules) {
      RepeatedSetupFlows(c, rs, rules);
      ResetIsReset(c);
      ResetForwardingsAreOff(a);
      RunFlowsIffFreshAll(a, rs);
    }
    if forall k :: 0 <= k < |rs| ==> Fresh(a, rs[k]) {
      assert FreshAtStart(a, rs);
      SetupTwiceIsOnce(c, rs, rules);
    }
  }

  // ---- Requests that share a name may repeat --------------------------------------

  /** The section such requests fight over, switched off. */
  function PointedAt(src: string, dest: string): Section {
    Section("n", FORWARDING, map["src" := [src], "dest" := [dest], "enabled" := ["0"]])
  }

  /** A request under the name of the only section, between other zones. */
  lemma LoneStore(s: Section, r: Request)
    requires s.kind == FORWARDING && !Forwards(s, r.src, r.dest) && s.name == r.name != ""
    requires r.src != "" && r.dest != ""
    ensures var t := if FromSource(s, r.src) then Put(s, "enabled", ["0"]) else s;
            Requested([s], r) == Success([Repointed(t, r.src, r.dest)])
  {
    var c := [s];
    var t := if FromSource(s, r.src) then Put(s, "enabled", ["0"]) else s;
    assert c[0] == s;
    assert EnabledMatch(c, r).None? && Match(c, r).None? && DestZone(c, r.dest).None?;
    MatchSurvivesPreparing(c, r);
    var p := Prepared(c, r);
    assert p == [t];
    assert p[0].name == r.name && Named(p, r.name) == Some(0);
    assert p[0 := Repointed(t, r.src, r.dest)] == [Repointed(t, r.src, r.dest)];
  }

  lemma EmptyStore(r: Request)
    requires r.src != "" && r.dest != "" && r.name != ""
    ensures Requested([], r) == Success([NewForwarding(r.name, r.src, r.dest)])
  {
    assert Prepared([], r) == [];
    assert Named([], r.name).None?;
    assert [] + [NewForwarding(r.name, r.src, r.dest)] == [NewForwarding(r.name, r.src, r.dest)];
  }

  lemma PointedIsRepointed(src: string, dest: string, r: Request)
    requires r.name == "n" && r.src != "" && r.dest != "" && (r.src != src || r.dest != dest)
    ensures Requested([PointedAt(src, dest)], r) == Success([PointedAt(r.src, r.dest)])
  {
    var s, t := PointedAt(src, dest), PointedAt(r.src, r.dest);
    assert s.options["enabled" := ["0"]] == s.options;
    assert Repointed(s, r.src, r.dest).options == t.options;
    LoneStore(s, r);
  }

  lemma PointedIsReset(src: string, dest: string)
    ensures Reset([PointedAt(src, dest)]) == [PointedAt(src, dest)]
  {
    var c := [PointedAt(src, dest)];
    assert c[1..] == [];
    assert RemoveRules(c) == c;
    assert c[0].options["enabled" := ["0"]] == c[0].options;
    assert Quiet(c) == c;
  }

  /** Two requests and no rules, from a store the reset leaves alone. */
  lemma SetupOfTwo(c: Config, d: Config, f: Config, y: Request, z: Request)
    requires Reset(c) == c && Requested(c, y) == Success(d) && Requested(d, z) == Success(f)
    ensures Setup(c, [y, z], []) == Success(f)
  {
    assert [y, z][1..] == [z] && [z][1..] == [];
    assert RequestedAll(f, []) == Success(f);
    assert RequestedAll(d, [z]) == Success(f);
  }

  lemma FirstIsNotFresh(q: Request, r: Request)
    requires q.name == r.name == "n" && (r.src != q.src || r.dest != q.dest)
    ensures !Fresh([PointedAt(q.src, q.dest)], r)
  {
    var c := [PointedAt(q.src, q.dest)];
    assert c[0].name == r.name && NameUsed(c, r.name);
    assert Match(c, r).None?;
  }

  /**
   * Two requests that share a section name fight over it in every run alike: from any
   * store holding just that section, switched off, the setup repeats, whatever the
   * zones are, although the first is not fresh.
   */
  lemma SharedNamesMayRepeat(r: Request, q: Request)
    requires r.name == q.name == "n" && (r.src != q.src || r.dest != q.dest)
    requires r.src != "" && r.dest != "" && q.src != "" && q.dest != ""
    ensures var c := [PointedAt(q.src, q.dest)];
            Setup(c, [r, q], []) == Success(c) && !Fresh(Reset(c), r)
  {
    var c := [PointedAt(q.src, q.dest)];
    PointedIsReset(q.src, q.dest);
    PointedIsRepointed(q.src, q.dest, r);
    PointedIsRepointed(r.src, r.dest, q);
    SetupOfTwo(c, [PointedAt(r.src, r.dest)], c, r, q);
    FirstIsNotFresh(q, r);
  }

  function AskFor(dest: string): Request {
    Request("x", dest, "n", false)
  }

  /** And with one source they come to that even from an empty store. */
  lemma TakenNamesMayRepeat()
    ensures var rs, f := [AskFor("y"), AskFor("z")], [PointedAt("x", "z")];
            && Setup([], rs, []) == Success(f) && Setup(f, rs, []) == Success(f)
            && !FreshAll(Reset([]), rs)
  {
    var y, z := AskFor("y"), AskFor("z");
    EmptyStore(y);
    NewIsRepointed(y, z);
    assert Reset([]) == [];
    SetupOfTwo([], [NewForwarding("n", "x", "y")], [PointedAt("x", "z")], y, z);
    SharedNamesMayRepeat(y, z);
    SecondIsNotFresh(y, z);
  }

  lemma NewIsRepointed(y: Request, z: Request)
    requires y.src == z.src && y.dest != z.dest && y.name == z.name == "n" && z.src != "" && z.dest != ""
    ensures Requested([NewForwarding("n", y.src, y.dest)], z) == Success([PointedAt(z.src, z.dest)])
  {
    var s := NewForwarding("n", y.src, y.dest);
    assert s.options["enabled" := ["0"]]["src" := [z.src]]["dest" := [z.dest]] == PointedAt(z.src, z.dest).options;
    LoneStore(s, z);
  }

  lemma SecondIsNotFresh(y: Request, z: Request)
    requires Requested([], y) == Success([NewForwarding("n", "x", "y")]) && z == AskFor("z")
    ensures !FreshAll([], [y, z])
  {
    var d := [NewForwarding("n", "x", "y")];
    assert [y, z][1..] == [z];
    assert d[0].name == "n" && NameUsed(d, "n");
    assert Match(d, z).None?;
    assert !Fresh(d, z);
  }
}
