/**
 * What happens when the wizard is run a second time for another uplink.
 *
 * Both router scenarios name their forwarding alike, so the second run takes the
 * first one's section while it is off, and the mesh has no uplink afterwards.
 */
module FirewallSwitch {
  import opened Outcomes
  import opened Text
  import opened FirewallWizard
  import opened FirewallZones
  import opened FirewallScenarios
  import opened FirewallRepeats

  // ---- The forwarding of the first run -------------------------------------------

  /** Steps that request nothing leave every section but zones as it is. */
  lemma {:induction false} RestKeepsSection(cs: seq<Config>, steps: seq<Step>, k: nat, l: nat, i: nat)
    requires Run(cs, steps) && Ordered(steps) && k <= l <= |steps| && i < |cs[k]| && cs[k][i].kind != ZONE
    requires forall j :: k <= j < l ==> !steps[j].Forward?
    ensures i < |cs[l]| && cs[l][i] == cs[k][i]
    decreases l
  {
    if k < l {
      RestKeepsSection(cs, steps, k, l - 1, i);
      assert PerformsAt(cs, steps, l - 1) && SetsNatFlag(steps[l - 1]);
      StepGrowsOthers(cs[l - 1], steps[l - 1], cs[l]);
    }
  }

  /** The request is met by a section of its own, and by none to the other zone. */
  lemma RequestAddsOwn(s: Config, r: Request, n: Config, other: string)
    requires Requested(s, r) == Success(n) && Fresh(s, r) && !Reaches(s, r.src, r.dest) && !Reaches(s, r.src, other)
    requires r.name != "" && r.dest != other
    ensures |n| == |s| + 1 && n[|s|] == NewForwarding(r.name, r.src, r.dest)
    ensures !Reaches(n, r.src, other)
  {
    MatchIffReaches(s, r);
    MatchedOrAdded(s, n, r);
    RequestKeepsOldSections(s, r);
    forall i | 0 <= i < |n| ensures !Forwards(n[i], r.src, other) {
      if i < |s| {
        assert Alike(n[i], s[i]) && !Forwards(s[i], r.src, other);
      }
    }
  }

  /** After a scenario from a store without the two forwardings and with the name free, the name is taken and the other zone not reached. */
  lemma FirstRunTakesName(cs: seq<Config>, steps: seq<Step>, k: nat, other: string)
    requires Run(cs, steps) && Repeatable(steps) && k < |steps| && steps[k].Forward? && steps[k].request.dest != other
    requires var r := steps[k].request;
             !Reaches(cs[0], r.src, r.dest) && !Reaches(cs[0], r.src, other) && !NameUsed(cs[0], r.name)
    ensures var r, f := steps[k].request, cs[|steps|];
            NameUsed(f, r.name) && !Reaches(f, r.src, other) && Flows(f, r.src, r.dest)
  {
    var r := steps[k].request;
    assert OwnName(r, steps);
    CleanIffAtStart(cs, steps, k);
    RestKeepsForwardings(cs, steps, 0, k, r.src, r.dest);
    RestKeepsForwardings(cs, steps, 0, k, r.src, other);
    assert PerformsAt(cs, steps, k);
    RequestAddsOwn(cs[k], r, cs[k + 1], other);
    FreshRequestFlows(cs[k], r);
    RestKeepsForwardings(cs, steps, k + 1, |steps|, r.src, r.dest);
    RestKeepsForwardings(cs, steps, k + 1, |steps|, r.src, other);
    RestKeepsSection(cs, steps, k + 1, |steps|, |cs[k]|);
    assert cs[|steps|][|cs[k]|].name == r.name;
  }

  // ---- The second run ---------------------------------------------------------------

  lemma QuietKeepsReach(f: Config, src: string, dest: string, name: string)
    ensures Reaches(Quiet(f), src, dest) <==> Reaches(f, src, dest)
    ensures NameUsed(Quiet(f), name) <==> NameUsed(f, name)
  {
    var q := Quiet(f);
    assert forall i :: 0 <= i < |f| ==> q[i].name == f[i].name && Forwards(q[i], src, dest) == Forwards(f[i], src, dest);
    if i :| 0 <= i < |f| && f[i].name == name { assert q[i].name == name; }
    if i :| 0 <= i < |q| && q[i].name == name { assert f[i].name == name; }
    if i :| 0 <= i < |f| && Forwards(f[i], src, dest) { assert Forwards(q[i], src, dest); }
    if i :| 0 <= i < |q| && Forwards(q[i], src, dest) { assert Forwards(f[i], src, dest); }
  }

  /** The second request is not clean on the store the first run leaves. */
  lemma SecondStartIsNotClean(f: Config, s: Step)
    requires s.Forward? && s.request.name != "" && NameUsed(f, s.request.name) && !Reaches(f, s.request.src, s.request.dest)
    ensures !Clean(Quiet(f), s)
  {
    var r := s.request;
    QuietKeepsReach(f, r.src, r.dest, r.name);
    MatchIffReaches(Quiet(f), r);
  }

  /**
   * Two scenarios that forward from one zone to different ones under one section name:
   * after the second nothing flows where it asked to, though the forwarding stands,
   * and running the second once more does not leave the store as it is.
   */
  lemma SwitchedForwardIsLost(c: Config, a: seq<Step>, b: seq<Step>, j: nat, k: nat, rules: seq<Rule>,
                              cs: seq<Config>, g: Config, ts: seq<Config>, h: Config)
    requires Scenario(c, a, rules, cs, g) && Scenario(g, b, rules, ts, h) && Repeatable(a) && Repeatable(b)
    requires j < |a| && a[j].Forward? && k < |b| && b[k].Forward?
    requires var r, q := a[j].request, b[k].request;
             && q.src == r.src && q.name == r.name && q.dest != r.dest
             && !Reaches(Reset(c), r.src, r.dest) && !Reaches(Reset(c), r.src, q.dest) && !NameUsed(Reset(c), r.name)
    ensures Flows(g, a[j].request.src, a[j].request.dest)
    ensures !Flows(h, b[k].request.src, b[k].request.dest) && Reaches(h, b[k].request.src, b[k].request.dest)
    ensures !exists us :: Scenario(h, b, rules, us, h)
  {
    var q, f := b[k].request, cs[|a|];
    FirstRunTakesName(cs, a, j, q.dest);
    OutcomeOf(c, a, rules, cs, g);
    RulesDoNotFlow(f, rules, q.src, a[j].request.dest);
    assert OwnName(q, b);
    SecondStartIsNotClean(f, b[k]);
    CleanIffAtStart(ts, b, k);
    TakenNameEndsOff(ts, b, k);
    OutcomeOf(g, b, rules, ts, h);
    RulesDoNotFlow(ts[|b|], rules, q.src, q.dest);
    var i :| 0 <= i < |ts[|b|]| && Forwards(ts[|b|][i], q.src, q.dest);
    assert Forwards(h[i], q.src, q.dest);
    ScenarioRepeatsIffClean(g, b, rules, ts, h);
  }

  /** Every wizard run for one uplink and then for the other ends without an uplink. */
  lemma SwitchedUplinkIsLostInScenario(c: Config, before: string, now: string, rules: seq<Rule>,
                                       cs: seq<Config>, g: Config, ts: seq<Config>, h: Config)
    requires before in {"lan", "wan"} && now in {"lan", "wan"} && before != now
    requires Scenario(c, RouterSteps(before), rules, cs, g) && Scenario(g, RouterSteps(now), rules, ts, h)
    requires !Reaches(Reset(c), "ahwlan", "lan") && !Reaches(Reset(c), "ahwlan", "wan") && !NameUsed(Reset(c), "mmrouter")
    ensures Flows(g, "ahwlan", before)
    ensures !Flows(h, "ahwlan", now) && !exists us :: Scenario(h, RouterSteps(now), rules, us, h)
  {
    RouterToLanIsRepeatable();
    RouterToWanIsRepeatable();
    var j, k := ForwardAt(before), ForwardAt(now);
    RouterForwards(before);
    RouterForwards(now);
    SwitchedForwardIsLost(c, RouterSteps(before), RouterSteps(now), j, k, rules, cs, g, ts, h);
  }

  /** Where the router scenario requests its forwarding. */
  function ForwardAt(upstream: string): nat {
    if upstream == "wan" then 4 else 3
  }

  lemma RouterForwards(upstream: string)
    ensures ForwardAt(upstream) < |RouterSteps(upstream)|
    ensures RouterSteps(upstream)[ForwardAt(upstream)] == Forward(Request("ahwlan", upstream, "mmrouter", true))
  {
  }

  // ---- The runs exist ----------------------------------------------------------------

  /** A zone is named for the network, and the first zone listing the network has a name. */
  predicate ReadyFor(c: Config, network: string) {
    DestZone(c, network).Some? && ZoneNameFor(c, network) != ""
  }

  predicate Ready(c: Config) {
    ReadyFor(c, "ahwlan") && ReadyFor(c, "lan") && ReadyFor(c, "wan")
  }

  const RULE_PREFIX := "wizard_rule_"

  /** A name that belongs to the wizard is used by a section of the wizard's type only. */
  predicate NameIsFit(s: Section) {
    && (s.name == "mmrouter" ==> s.kind == FORWARDING)
    && (RULE_PREFIX <= s.name ==> s.kind == RULE)
  }

  predicate NamesFit(c: Config) {
    forall i :: 0 <= i < |c| ==> NameIsFit(c[i])
  }

  /** Ready for any router step. */
  predicate Prepares(c: Config) {
    Ready(c) && NamesFit(c)
  }

  /** The steps of a router scenario, whichever the uplink. */
  predicate RouterStep(s: Step) {
    match s
    case EnsureZone(network) => network in {"ahwlan", "lan", "wan"}
    case ZoneOption(zone, key, _) => zone in {"ahwlan", "lan"} && key in {"mtu_fix", "masq"}
    case AppendNetwork(zone, network) => zone == "wan" && network == "wan6"
    case Forward(r) => r.src == "ahwlan" && r.dest in {"lan", "wan"} && r.name == "mmrouter"
  }

  lemma GrownStaysReady(c: Config, d: Config, extra: set<string>, network: string)
    requires ZonesGrown(c, d, extra) && ReadyFor(c, network) && network !in extra
    requires forall i :: |c| <= i < |d| ==> d[i].kind != ZONE
    ensures ReadyFor(d, network)
  {
    var k, l := DestZone(c, network).value, Lister(c, network).value;
    GrownListsTheSame(c[k], d[k], extra, network);
    GrownListsTheSame(c[l], d[l], extra, network);
    forall i | 0 <= i < l ensures !ListsNetwork(d[i], network) {
      if c[i].kind == ZONE { GrownListsTheSame(c[i], d[i], extra, network); }
    }
    assert Lister(d, network) == Some(l);
    assert ZoneNamed(d[k], network);
  }

  lemma RouterNameIsNoRule()
    ensures !(RULE_PREFIX <= "mmrouter")
  {
    assert RULE_PREFIX[0] == 'w' && "mmrouter"[0] == 'm';
  }

  lemma RuleNamesArePrefixed(display: string, n: nat)
    ensures RULE_PREFIX <= RuleSectionName(display, n) && RuleSectionName(display, n) != "mmrouter"
  {
    var rest := Sanitized(display, false) + "_" + Decimal(n);
    assert RuleSectionName(display, n) == RULE_PREFIX + rest;
    RouterNameIsNoRule();
  }

  lemma SectionsStayFit(c: Config, next: Config)
    requires NamesFit(c) && |c| <= |next|
    requires forall i :: 0 <= i < |c| ==> next[i].name == c[i].name && next[i].kind == c[i].kind
    requires forall i :: |c| <= i < |next| ==> next[i].kind == FORWARDING && next[i].name == "mmrouter"
    ensures NamesFit(next)
  {
    RouterNameIsNoRule();
    forall i | 0 <= i < |next| ensures NameIsFit(next[i]) {
      if i < |c| { assert NameIsFit(c[i]); }
    }
  }

  /** Growth, with the wizard's forwarding behind it perhaps, leaves a store prepared. */
  lemma GrownStaysPrepared(c: Config, next: Config, extra: set<string>)
    requires Prepares(c) && ZonesGrown(c, next, extra) && extra <= {"wan6"}
    requires forall i :: 0 <= i < |c| ==> next[i].name == c[i].name
    requires forall i :: |c| <= i < |next| ==> next[i].kind == FORWARDING && next[i].name == "mmrouter"
    ensures Prepares(next)
  {
    assert |"wan6"| == 4 && |"lan"| == 3 && |"wan"| == 3 && |"ahwlan"| == 6;
    SectionsStayFit(c, next);
    GrownStaysReady(c, next, extra, "ahwlan");
    GrownStaysReady(c, next, extra, "lan");
    GrownStaysReady(c, next, extra, "wan");
  }

  lemma AllGrownGrowsZones(c: Config, next: Config, extra: set<string>)
    requires AllGrown(c, next, extra)
    ensures ZonesGrown(c, next, extra) && forall i :: 0 <= i < |c| ==> next[i].name == c[i].name
  {
  }

  lemma OptionGoesOn(c: Config, zone: string, key: string, value: string) returns (next: Config)
    requires Prepares(c) && zone in {"ahwlan", "lan"} && key in {"mtu_fix", "masq"}
    ensures Optioned(c, zone, key, value) == Some(next) && Prepares(next)
  {
    var k := DestZone(c, zone).value;
    next := c[k := Put(c[k], key, [value])];
    FlaggedIsGrown(c[k], key, value, {});
    OneGrown(c, k, Put(c[k], key, [value]), {});
    AllGrownGrowsZones(c, next, {});
    GrownStaysPrepared(c, next, {});
  }

  lemma AppendGoesOn(c: Config) returns (next: Config)
    requires Prepares(c)
    ensures Appended(c, "wan", "wan6") == Some(next) && Prepares(next)
  {
    var k := DestZone(c, "wan").value;
    next := c;
    if "wan6" !in Networks(c[k]) {
      var s := Put(c[k], "network", Networks(c[k]) + ["wan6"]);
      next := c[k := s];
      WidenedIsGrown(c[k], "wan6");
      OneGrown(c, k, s, {"wan6"});
      AllGrownGrowsZones(c, next, {"wan6"});
      GrownStaysPrepared(c, next, {"wan6"});
    }
  }

  /** A request under the wizard's name cannot meet a section of another type. */
  lemma RequestSucceeds(c: Config, r: Request)
    requires NamesFit(c) && r.src != "" && r.dest != "" && r.name == "mmrouter"
    ensures Requested(c, r).Success?
  {
    PreparedIsAlike(c, r);
    NamesSurvivePreparing(c, r, r.name);
    var found := Named(c, r.name);
    if found.Some? {
      assert Alike(Prepared(c, r)[found.value], c[found.value]) && NameIsFit(c[found.value]);
    }
  }

  lemma RequestKeepsNames(c: Config, r: Request, next: Config)
    requires Requested(c, r) == Success(next) && r.name == "mmrouter"
    ensures |c| <= |next| && forall i :: 0 <= i < |c| ==> next[i].name == c[i].name
    ensures forall i :: |c| <= i < |next| ==> next[i].kind == FORWARDING && next[i].name == "mmrouter"
  {
    var p := Prepared(c, r);
    PreparedIsAlike(c, r);
    forall i | 0 <= i < |c| ensures p[i].name == c[i].name {
      assert Alike(p[i], c[i]);
    }
  }

  lemma RequestGoesOn(c: Config, r: Request) returns (next: Config)
    requires Prepares(c) && r.src != "" && r.dest != "" && r.name == "mmrouter"
    ensures Requested(c, r) == Success(next) && Prepares(next)
  {
    RequestSucceeds(c, r);
    next := Requested(c, r).value;
    RequestKeepsNames(c, r, next);
    RequestGrowsZones(c, r, next);
    GrownStaysPrepared(c, next, {});
  }

  lemma EnsureGoesOn(c: Config, network: string)
    requires Prepares(c) && network in {"ahwlan", "lan", "wan"}
    ensures Performs(c, EnsureZone(network), c)
  {
    assert ZoneCall(c, network, ZoneNameFor(c, network), c);
  }

  /** A router step can be taken, and leaves the store ready for the next. */
  lemma RouterStepGoesOn(c: Config, s: Step) returns (next: Config)
    requires Prepares(c) && RouterStep(s)
    ensures Performs(c, s, next) && Prepares(next)
  {
    match s
    case EnsureZone(network) =>
      EnsureGoesOn(c, network);
      next := c;
    case ZoneOption(zone, key, value) =>
      next := OptionGoesOn(c, zone, key, value);
    case AppendNetwork(zone, network) =>
      next := AppendGoesOn(c);
    case Forward(r) =>
      next := RequestGoesOn(c, r);
  }

  predicate RouterProgram(steps: seq<Step>) {
    forall k :: 0 <= k < |steps| ==> RouterStep(steps[k])
  }

  /** The first n steps have been taken. */
  ghost predicate Course(cs: seq<Config>, steps: seq<Step>, n: nat) {
    && n <= |steps| && |cs| == n + 1
    && forall k :: 0 <= k < n ==> Performs(cs[k], steps[k], cs[k + 1])
  }

  lemma CourseGrows(cs: seq<Config>, steps: seq<Step>, n: nat, next: Config)
    requires n < |steps| && Course(cs, steps, n) && Performs(cs[n], steps[n], next)
    ensures Course(cs + [next], steps, n + 1)
  {
    var longer := cs + [next];
    forall k | 0 <= k < n + 1 ensures Performs(longer[k], steps[k], longer[k + 1]) {
      assert k < n ==> longer[k] == cs[k] && longer[k + 1] == cs[k + 1];
    }
  }

  /** A course of so many steps that ends prepared. */
  ghost predicate PreparedCourse(cs: seq<Config>, steps: seq<Step>, n: nat) {
    Course(cs, steps, n) && Prepares(cs[n])
  }

  /** A course that ends prepared can be taken one step further. */
  lemma CourseGoesOn(most: seq<Config>, steps: seq<Step>, n: nat) returns (next: Config)
    requires PreparedCourse(most, steps, n) && RouterProgram(steps) && n < |steps|
    ensures PreparedCourse(most + [next], steps, n + 1)
  {
    assert RouterStep(steps[n]);
    next := RouterStepGoesOn(most[n], steps[n]);
    CourseGrows(most, steps, n, next);
    assert (most + [next])[n + 1] == next;
  }

  /** On a prepared store every router scenario has a course. */
  lemma {:induction false} RouterRuns(c: Config, steps: seq<Step>, n: nat) returns (cs: seq<Config>)
    requires Prepares(c) && RouterProgram(steps) && n <= |steps|
    ensures PreparedCourse(cs, steps, n) && cs[0] == c
  {
    if n == 0 {
      cs := [c];
    } else {
      var most := RouterRuns(c, steps, n - 1);
      var next := CourseGoesOn(most, steps, n - 1);
      cs := most + [next];
    }
  }

  lemma RuleRuns(c: Config, r: Rule)
    requires NamesFit(c)
    ensures AddedRule(c, r).Success?
    ensures var next := AddedRule(c, r).value;
            && NamesFit(next) && |c| <= |next|
            && (forall i :: 0 <= i < |c| ==> next[i].kind == c[i].kind && (c[i].kind != RULE ==> next[i] == c[i]))
            && (forall i :: |c| <= i < |next| ==> next[i].kind == RULE)
  {
    var section := RuleSection(r, Count(c, RULE));
    RuleNamesArePrefixed(r.name, Count(c, RULE));
    if Named(c, section.name).Some? {
      assert NameIsFit(c[Named(c, section.name).value]);
    }
    var next := AddedRule(c, r).value;
    forall i | 0 <= i < |next| ensures NameIsFit(next[i]) {
      if i < |c| { assert NameIsFit(c[i]); }
    }
  }

  lemma {:induction false} RulesRun(c: Config, rules: seq<Rule>)
    requires NamesFit(c) && Ready(c)
    ensures AddedRules(c, rules).Success? && NamesFit(AddedRules(c, rules).value) && Ready(AddedRules(c, rules).value)
    decreases |rules|
  {
    if rules != [] {
      var m := |rules| - 1;
      RulesRun(c, rules[..m]);
      var before := AddedRules(c, rules[..m]).value;
      RuleRuns(before, rules[m]);
      RulesKeepReady(before, AddedRule(before, rules[m]).value, "ahwlan");
      RulesKeepReady(before, AddedRule(before, rules[m]).value, "lan");
      RulesKeepReady(before, AddedRule(before, rules[m]).value, "wan");
    }
  }

  lemma RulesKeepReady(c: Config, d: Config, network: string)
    requires ReadyFor(c, network) && |c| <= |d|
    requires forall i :: 0 <= i < |c| ==> d[i].kind == c[i].kind && (c[i].kind != RULE ==> d[i] == c[i])
    requires forall i :: |c| <= i < |d| ==> d[i].kind == RULE
    ensures ReadyFor(d, network)
  {
    assert Lister(d, network) == Lister(c, network);
    assert DestZone(d, network) == DestZone(c, network);
  }

  lemma QuietKeepsReady(f: Config, network: string)
    requires ReadyFor(f, network)
    ensures ReadyFor(Quiet(f), network)
  {
    var q := Quiet(f);
    forall i | 0 <= i < |f| ensures SameZone(q[i], f[i], network) {
      QuietedIsSameZone(f[i], network);
    }
    assert Lister(q, network) == Lister(f, network);
    assert DestZone(q, network) == DestZone(f, network);
    assert SameZone(q[Lister(f, network).value], f[Lister(f, network).value], network);
  }

  /** The sections are alike as zones of the network. */
  predicate SameZone(s: Section, t: Section, network: string) {
    && ListsNetwork(s, network) == ListsNetwork(t, network) && ZoneNamed(s, network) == ZoneNamed(t, network)
    && First(s, "name") == First(t, "name")
  }

  lemma QuietedIsSameZone(s: Section, network: string)
    ensures SameZone(Quieted(s), s, network)
  {
    NetOfQuieted(s);
    NameOfQuieted(s);
  }

  lemma RouterStepsAreRouterSteps(upstream: string)
    requires upstream in {"lan", "wan"}
    ensures RouterProgram(RouterSteps(upstream))
  {
  }

  /** On a store whose reset is ready, a router scenario has an outcome. */
  lemma RouterHasOutcome(c: Config, upstream: string, rules: seq<Rule>) returns (cs: seq<Config>, g: Config)
    requires upstream in {"lan", "wan"} && Prepares(Reset(c))
    ensures Scenario(c, RouterSteps(upstream), rules, cs, g)
    ensures Prepares(cs[|RouterSteps(upstream)|])
  {
    var steps := RouterSteps(upstream);
    RouterStepsAreRouterSteps(upstream);
    cs := RouterRuns(Reset(c), steps, |steps|);
    assert Run(cs, steps) by {
      forall k | 0 <= k < |steps| ensures PerformsAt(cs, steps, k) {
        assert Performs(cs[k], steps[k], cs[k + 1]);
      }
    }
    RulesRun(cs[|steps|], rules);
    g := AddedRules(cs[|steps|], rules).value;
  }

  /**
   * Such stores exist in plenty: on any that has the three zones, uses the wizard's
   * names for the wizard's sections only and does not forward from the mesh yet, the
   * wizard can be run for one uplink and then for the other, and then the mesh has none.
   */
  lemma SwitchingUplinksLosesThem(c: Config, before: string, now: string, rules: seq<Rule>)
    returns (cs: seq<Config>, g: Config, ts: seq<Config>, h: Config)
    requires before in {"lan", "wan"} && now in {"lan", "wan"} && before != now
    requires Prepares(Reset(c)) && !NameUsed(Reset(c), "mmrouter")
    requires !Reaches(Reset(c), "ahwlan", "lan") && !Reaches(Reset(c), "ahwlan", "wan")
    ensures Scenario(c, RouterSteps(before), rules, cs, g) && Scenario(g, RouterSteps(now), rules, ts, h)
    ensures Flows(g, "ahwlan", before) && !Flows(h, "ahwlan", now)
    ensures !exists us :: Scenario(h, RouterSteps(now), rules, us, h)
  {
    cs, g := RouterHasOutcome(c, before, rules);
    RouterToLanIsRepeatable();
    RouterToWanIsRepeatable();
    OutcomeOf(c, RouterSteps(before), rules, cs, g);
    SecondStartIsReady(cs[|RouterSteps(before)|]);
    ts, h := RouterHasOutcome(g, now, rules);
    SwitchedUplinkIsLostInScenario(c, before, now, rules, cs, g, ts, h);
  }

  lemma SecondStartIsReady(f: Config)
    requires Prepares(f)
    ensures Prepares(Quiet(f))
  {
    QuietKeepsReady(f, "ahwlan");
    QuietKeepsReady(f, "lan");
    QuietKeepsReady(f, "wan");
    forall i | 0 <= i < |f| ensures NameIsFit(Quiet(f)[i]) {
      assert NameIsFit(f[i]);
      NetOfQuieted(f[i]);
    }
  }
}
