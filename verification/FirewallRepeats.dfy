/**
 * Which wizard scenarios can be run again to the same firewall, exactly.
 *
 * The condition is read off the reset store the first run starts from: it asks of
 * each step whether it would be clean there, though the run meets most steps later.
 */
module FirewallRepeats {
  import opened Outcomes
  import opened FirewallWizard
  import opened FirewallZones
  import opened FirewallScenarios

  // ---- What any run keeps ----------------------------------------------------------

  /** Whatever happens to forwardings, zones grow and sections keep their types. */
  ghost predicate ZonesGrown(c: Config, f: Config, extra: set<string>) {
    && |c| <= |f|
    && forall i :: 0 <= i < |c| ==> f[i].kind == c[i].kind && (c[i].kind == ZONE ==> Grown(c[i], f[i], extra))
  }

  lemma PreparedGrowsZones(c: Config, r: Request)
    ensures AllGrown(c, Prepared(c, r), {})
  {
    PreparedIsAlike(c, r);
    forall i | 0 <= i < |c| ensures Grown(c[i], Prepared(c, r)[i], {}) {
      AlikeIsGrown(c[i], Prepared(c, r)[i], {});
    }
  }

  lemma RequestGrowsZones(c: Config, r: Request, next: Config)
    requires Requested(c, r) == Success(next)
    ensures ZonesGrown(c, next, {}) && forall i :: |c| <= i < |next| ==> next[i].kind == FORWARDING
  {
    RequestShape(c, r, next);
    if next == c {
      AllUnchangedIsGrown(c, {});
    } else {
      PreparedGrowsZones(c, r);
    }
  }

  lemma StepGrowsZones(c: Config, s: Step, next: Config)
    requires Performs(c, s, next) && SetsNatFlag(s)
    ensures ZonesGrown(c, next, Addition(s))
    ensures forall i :: |c| <= i < |next| ==> next[i].kind in {FORWARDING, ZONE}
  {
    if s.Forward? {
      RequestGrowsZones(c, s.request, next);
    } else {
      StepGrowsOthers(c, s, next);
    }
  }

  lemma StepGrowsOthers(c: Config, s: Step, next: Config)
    requires Performs(c, s, next) && SetsNatFlag(s) && !s.Forward?
    ensures AllGrown(c, next, Addition(s)) && forall i :: |c| <= i < |next| ==> next[i].kind == ZONE
    ensures forall i :: 0 <= i < |c| && c[i].kind != ZONE ==> next[i] == c[i]
  {
    AllUnchangedIsGrown(c, Addition(s));
    match s
    case EnsureZone(network) =>
      var name :| ZoneCall(c, network, name, next);
    case ZoneOption(zone, key, value) =>
      var k := DestZone(c, zone).value;
      FlaggedIsGrown(c[k], key, value, Addition(s));
      OneGrown(c, k, Put(c[k], key, [value]), Addition(s));
    case AppendNetwork(zone, network) =>
      var k := DestZone(c, zone).value;
      if network !in Networks(c[k]) {
        WidenedIsGrown(c[k], network);
        OneGrown(c, k, Put(c[k], "network", Networks(c[k]) + [network]), {network});
      }
  }

  lemma ZonesGrownIsTransitive(c: Config, d: Config, f: Config, a: set<string>, b: set<string>, all: set<string>)
    requires ZonesGrown(c, d, a) && ZonesGrown(d, f, b) && a <= all && b <= all
    ensures ZonesGrown(c, f, all)
  {
    forall i | 0 <= i < |c| && c[i].kind == ZONE ensures Grown(c[i], f[i], all) {
      GrownIsTransitive(c[i], d[i], f[i], a, b, all);
    }
  }

  lemma {:induction false} RunGrowsZones(cs: seq<Config>, steps: seq<Step>, k: nat, l: nat)
    requires Run(cs, steps) && Ordered(steps) && k <= l <= |steps|
    ensures ZonesGrown(cs[k], cs[l], Additions(steps))
    decreases l
  {
    if k == l {
      AllUnchangedIsGrown(cs[k], Additions(steps));
    } else {
      RunGrowsZones(cs, steps, k, l - 1);
      assert PerformsAt(cs, steps, l - 1) && SetsNatFlag(steps[l - 1]);
      StepGrowsZones(cs[l - 1], steps[l - 1], cs[l]);
      ZonesGrownIsTransitive(cs[k], cs[l - 1], cs[l], Additions(steps), Addition(steps[l - 1]), Additions(steps));
    }
  }

  lemma {:induction false} RunKeepsNoRules(cs: seq<Config>, steps: seq<Step>, k: nat)
    requires Run(cs, steps) && Ordered(steps) && NoRules(cs[0]) && k <= |steps|
    ensures NoRules(cs[k])
  {
    if k > 0 {
      RunKeepsNoRules(cs, steps, k - 1);
      assert PerformsAt(cs, steps, k - 1) && SetsNatFlag(steps[k - 1]);
      StepGrowsZones(cs[k - 1], steps[k - 1], cs[k]);
    }
  }

  /** A zone some steps later lists a network that is not added exactly if it did before, under the same name. */
  lemma GrownListsTheSame(x: Section, y: Section, extra: set<string>, network: string)
    requires Grown(x, y, extra) && network !in extra
    ensures ListsNetwork(y, network) <==> ListsNetwork(x, network)
    ensures First(y, "name") == First(x, "name")
  {
    WithNetReads(x, Net(y));
    NameOfQuieted(WithNet(x, Net(y)));
    NameOfQuieted(y);
  }

  lemma NameOfQuieted(s: Section)
    ensures First(Quieted(s), "name") == First(s, "name") && Networks(Quieted(s)) == Networks(s)
  {
  }

  lemma ListersOf(x: Section, y: Section, z: Section, extra: set<string>, network: string)
    requires x.kind == y.kind == z.kind && network !in extra
    requires x.kind == ZONE ==> Grown(x, y, extra) && Grown(Quieted(y), z, extra)
    ensures ListsNetwork(z, network) <==> ListsNetwork(x, network)
    ensures ListsNetwork(x, network) ==> First(z, "name") == First(x, "name")
  {
    if x.kind == ZONE {
      GrownListsTheSame(x, y, extra, network);
      NameOfQuieted(y);
      GrownListsTheSame(Quieted(y), z, extra, network);
    }
  }

  /** A network hidden behind an unnamed zone stays hidden in the second run. */
  lemma HiddenStaysHidden(cs: seq<Config>, ts: seq<Config>, steps: seq<Step>, k: nat, network: string)
    requires Run(cs, steps) && Run(ts, steps) && Ordered(steps) && ts[0] == Quiet(cs[|steps|]) && k <= |steps|
    requires network !in Additions(steps) && HiddenByUnnamed(cs[k], network)
    ensures HiddenByUnnamed(ts[k], network)
  {
    RunGrowsZones(cs, steps, k, |steps|);
    RunGrowsZones(ts, steps, 0, k);
    SameFirstLister(cs[k], cs[|steps|], ts[k], Additions(steps), network);
  }

  lemma SameListing(c: Config, f: Config, t: Config, extra: set<string>, network: string, i: nat)
    requires ZonesGrown(c, f, extra) && ZonesGrown(Quiet(f), t, extra) && network !in extra && i < |c|
    ensures ListsNetwork(t[i], network) <==> ListsNetwork(c[i], network)
    ensures ListsNetwork(c[i], network) ==> First(t[i], "name") == First(c[i], "name")
  {
    assert Quiet(f)[i] == Quieted(f[i]);
    NetOfQuieted(f[i]);
    ListersOf(c[i], f[i], t[i], extra, network);
  }

  lemma SameFirstLister(c: Config, f: Config, t: Config, extra: set<string>, network: string)
    requires ZonesGrown(c, f, extra) && ZonesGrown(Quiet(f), t, extra) && network !in extra && Lister(c, network).Some?
    ensures Lister(t, network) == Lister(c, network)
    ensures First(t[Lister(c, network).value], "name") == First(c[Lister(c, network).value], "name")
  {
    var k := Lister(c, network).value;
    SameListing(c, f, t, extra, network, k);
    forall i | 0 <= i < k ensures !ListsNetwork(t[i], network) {
      SameListing(c, f, t, extra, network, i);
    }
  }

  /** A second run that comes back to where it started adds nothing on its way. */
  lemma RunBackAddsNothing(ts: seq<Config>, steps: seq<Step>, k: nat)
    requires Run(ts, steps) && Ordered(steps) && k < |steps| && |ts[0]| == |ts[|steps|]|
    ensures |ts[k + 1]| == |ts[k]|
  {
    RunGrowsZones(ts, steps, 0, k);
    RunGrowsZones(ts, steps, k, k + 1);
    RunGrowsZones(ts, steps, k + 1, |steps|);
  }

  lemma RepeatedZonesAreClean(cs: seq<Config>, ts: seq<Config>, steps: seq<Step>, k: nat)
    requires Run(cs, steps) && Run(ts, steps) && Ordered(steps) && Apart(steps)
    requires ts[0] == Quiet(cs[|steps|]) && ts[|steps|] == cs[|steps|]
    requires k < |steps| && steps[k].EnsureZone?
    ensures Clean(cs[k], steps[k])
  {
    var network := steps[k].network;
    RunBackAddsNothing(ts, steps, k);
    assert PerformsAt(ts, steps, k);
    var name :| ZoneCall(ts[k], network, name, ts[k + 1]);
    assert |ts[k] + [NewZone(name, network)]| == |ts[k]| + 1;
    if HiddenByUnnamed(cs[k], network) {
      HiddenStaysHidden(cs, ts, steps, k, network);
    }
  }

  /** Some section forwards between the zones, enabled or not. */
  ghost predicate Reaches(c: Config, src: string, dest: string) {
    exists i :: 0 <= i < |c| && Forwards(c[i], src, dest)
  }

  lemma MatchIffReaches(c: Config, r: Request)
    ensures Match(c, r).Some? <==> Reaches(c, r.src, r.dest)
  {
  }

  /** Steps that request nothing leave forwardings as they are. */
  lemma OthersKeepForwardings(c: Config, s: Step, next: Config, src: string, dest: string)
    requires Performs(c, s, next) && SetsNatFlag(s) && !s.Forward?
    ensures ForwardingsOff(c) ==> ForwardingsOff(next)
    ensures Flows(next, src, dest) <==> Flows(c, src, dest)
    ensures Reaches(next, src, dest) <==> Reaches(c, src, dest)
  {
    StepGrowsOthers(c, s, next);
    forall i | 0 <= i < |next| && next[i].kind == FORWARDING ensures i < |c| && next[i] == c[i] {
      if i < |c| { assert Grown(c[i], next[i], Addition(s)); }
    }
    if i :| 0 <= i < |c| && EnabledForwards(c[i], src, dest) { assert next[i] == c[i]; }
    if i :| 0 <= i < |next| && EnabledForwards(next[i], src, dest) { assert next[i] == c[i]; }
    if i :| 0 <= i < |c| && Forwards(c[i], src, dest) { assert next[i] == c[i]; }
    if i :| 0 <= i < |next| && Forwards(next[i], src, dest) { assert next[i] == c[i]; }
  }

  lemma {:induction false} RestKeepsForwardings(cs: seq<Config>, steps: seq<Step>, k: nat, l: nat, src: string, dest: string)
    requires Run(cs, steps) && Ordered(steps) && k <= l <= |steps|
    requires forall j :: k <= j < l ==> !steps[j].Forward?
    ensures ForwardingsOff(cs[k]) ==> ForwardingsOff(cs[l])
    ensures Flows(cs[l], src, dest) <==> Flows(cs[k], src, dest)
    ensures Reaches(cs[l], src, dest) <==> Reaches(cs[k], src, dest)
    decreases l
  {
    if k < l {
      RestKeepsForwardings(cs, steps, k, l - 1, src, dest);
      assert PerformsAt(cs, steps, l - 1) && SetsNatFlag(steps[l - 1]);
      OthersKeepForwardings(cs[l - 1], steps[l - 1], cs[l], src, dest);
    }
  }

  /** At most one forwarding is requested. */
  predicate OneForward(steps: seq<Step>) {
    forall j, k :: 0 <= j < k < |steps| ==> !(steps[j].Forward? && steps[k].Forward?)
  }

  /** After a run whose request took a used name nothing flows there, but the forwarding stands, off. */
  lemma TakenNameEndsOff(cs: seq<Config>, steps: seq<Step>, k: nat)
    requires Run(cs, steps) && Ordered(steps) && OneForward(steps) && ForwardingsOff(cs[0])
    requires k < |steps| && steps[k].Forward? && !Clean(cs[k], steps[k])
    ensures !Flows(cs[|steps|], steps[k].request.src, steps[k].request.dest)
    ensures Reaches(cs[|steps|], steps[k].request.src, steps[k].request.dest)
  {
    var r := steps[k].request;
    RestKeepsForwardings(cs, steps, 0, k, r.src, r.dest);
    assert PerformsAt(cs, steps, k);
    TakenNameStaysOff(cs[k], r);
    RestKeepsForwardings(cs, steps, k + 1, |steps|, r.src, r.dest);
  }

  /** A run that starts where such a forwarding stands makes it flow. */
  lemma StandingForwardingFlows(ts: seq<Config>, steps: seq<Step>, k: nat)
    requires Run(ts, steps) && Ordered(steps) && OneForward(steps)
    requires k < |steps| && steps[k].Forward? && Reaches(ts[0], steps[k].request.src, steps[k].request.dest)
    ensures Flows(ts[|steps|], steps[k].request.src, steps[k].request.dest)
  {
    var r := steps[k].request;
    RestKeepsForwardings(ts, steps, 0, k, r.src, r.dest);
    assert PerformsAt(ts, steps, k);
    FreshRequestFlows(ts[k], r);
    RestKeepsForwardings(ts, steps, k + 1, |steps|, r.src, r.dest);
  }

  lemma RepeatedForwardIsClean(cs: seq<Config>, ts: seq<Config>, steps: seq<Step>, k: nat)
    requires Run(cs, steps) && Run(ts, steps) && Ordered(steps) && OneForward(steps) && ForwardingsOff(cs[0])
    requires ts[0] == Quiet(cs[|steps|]) && ts[|steps|] == cs[|steps|]
    requires k < |steps| && steps[k].Forward?
    ensures Clean(cs[k], steps[k])
  {
    if !Clean(cs[k], steps[k]) {
      var r, f := steps[k].request, cs[|steps|];
      TakenNameEndsOff(cs, steps, k);
      var i :| 0 <= i < |f| && Forwards(f[i], r.src, r.dest);
      assert Forwards(ts[0][i], r.src, r.dest);
      StandingForwardingFlows(ts, steps, k);
    }
  }

  lemma RulesDecideConfig(f: Config, g: Config, rules: seq<Rule>)
    requires f + RuleSections(rules, 0) == g + RuleSections(rules, 0)
    ensures f == g
  {
    var n := |f + RuleSections(rules, 0)| - |rules|;
    assert f == (f + RuleSections(rules, 0))[..n] && g == (g + RuleSections(rules, 0))[..n];
  }

  /** What a scenario leaves, and what the reset makes of it. */
  lemma OutcomeOf(c: Config, steps: seq<Step>, rules: seq<Rule>, cs: seq<Config>, g: Config)
    requires Scenario(c, steps, rules, cs, g) && Ordered(steps)
    ensures g == cs[|steps|] + RuleSections(rules, 0) && Reset(g) == Quiet(cs[|steps|]) && ForwardingsOff(cs[0])
  {
    ResetLeavesNoRules(c);
    RunKeepsNoRules(cs, steps, |steps|);
    AddedRulesAppend(cs[|steps|], rules);
    RemovedRulesAreGone(cs[|steps|], RuleSections(rules, 0));
    ResetIsReset(c);
    ResetForwardingsAreOff(cs[0]);
  }

  /** The two courses of a repeated scenario: the second starts from the first's end, quieted, and comes back to it. */
  lemma CoursesOfRepeat(c: Config, steps: seq<Step>, rules: seq<Rule>, cs: seq<Config>, ts: seq<Config>, g: Config)
    requires Scenario(c, steps, rules, cs, g) && Scenario(g, steps, rules, ts, g) && Ordered(steps)
    ensures ts[0] == Quiet(cs[|steps|]) && ts[|steps|] == cs[|steps|] && ForwardingsOff(cs[0])
  {
    OutcomeOf(c, steps, rules, cs, g);
    OutcomeOf(g, steps, rules, ts, g);
    RulesDecideConfig(cs[|steps|], ts[|steps|], rules);
  }

  /** A scenario that requests at most one forwarding can be run a second time to the same end if and only if its first run was clean. */
  lemma ScenarioRepeatsIffRunClean(c: Config, steps: seq<Step>, rules: seq<Rule>, cs: seq<Config>, g: Config)
    requires Scenario(c, steps, rules, cs, g) && Ordered(steps) && Apart(steps) && OneForward(steps)
    ensures (exists ts :: Scenario(g, steps, rules, ts, g)) <==> CleanRun(cs, steps)
  {
    if CleanRun(cs, steps) {
      ScenarioTwiceIsOnce(c, steps, rules, cs, g);
    }
    if ts :| Scenario(g, steps, rules, ts, g) {
      CoursesOfRepeat(c, steps, rules, cs, ts, g);
      forall k | 0 <= k < |steps| ensures Clean(cs[k], steps[k]) {
        if steps[k].EnsureZone? {
          RepeatedZonesAreClean(cs, ts, steps, k);
        } else if steps[k].Forward? {
          RepeatedForwardIsClean(cs, ts, steps, k);
        }
      }
    }
  }

  // ---- What is clean at the start is clean all the way ---------------------------

  /** A zone some step added: it has a name, and the name of its section is a network's with something behind it. */
  ghost predicate OwnZone(s: Section, steps: seq<Step>) {
    && s.kind == ZONE && First(s, "name").Some? && First(s, "name").value != ""
    && exists j :: 0 <= j < |steps| && steps[j].EnsureZone? && steps[j].network <= s.name
  }

  /** d is c after steps that requested nothing: other sections as they were, and zones of its own behind them. */
  ghost predicate OnlyZonesAdded(c: Config, d: Config, steps: seq<Step>) {
    && |c| <= |d|
    && (forall i :: 0 <= i < |c| ==> d[i].name == c[i].name && (c[i].kind != ZONE ==> d[i] == c[i]))
    && (forall i :: 0 <= i < |c| && c[i].kind == ZONE ==> Grown(c[i], d[i], Additions(steps)))
    && (forall i :: |c| <= i < |d| ==> OwnZone(d[i], steps))
  }

  lemma GrownStaysOwn(x: Section, y: Section, steps: seq<Step>, extra: set<string>)
    requires OwnZone(x, steps) && Grown(x, y, extra)
    ensures OwnZone(y, steps)
  {
    NameOfQuieted(y);
    NameOfQuieted(WithNet(x, Net(y)));
    WithNetReads(x, Net(y));
  }

  lemma CandidateExtends(network: string, i: nat)
    ensures network <= Candidate(network, i)
  {
  }

  /** What a step adds without requesting anything is a zone of its own. */
  lemma StepAddsOwnZone(c: Config, steps: seq<Step>, k: nat, next: Config)
    requires k < |steps| && !steps[k].Forward? && Performs(c, steps[k], next)
    ensures forall i :: |c| <= i < |next| ==> OwnZone(next[i], steps)
  {
    if steps[k].EnsureZone? {
      var network := steps[k].network;
      var name :| ZoneCall(c, network, name, next);
      if |next| > |c| {
        var j :| FirstFree(c, network, j) && name == Candidate(network, j);
        CandidateExtends(network, j);
        assert name != "";
        assert next[|c|] == NewZone(name, network);
      }
    }
  }

  lemma ZonesAddedOneMore(c: Config, d: Config, next: Config, steps: seq<Step>, k: nat)
    requires OnlyZonesAdded(c, d, steps) && Ordered(steps)
    requires k < |steps| && !steps[k].Forward? && Performs(d, steps[k], next)
    ensures OnlyZonesAdded(c, next, steps)
  {
    assert SetsNatFlag(steps[k]);
    StepGrowsOthers(d, steps[k], next);
    StepAddsOwnZone(d, steps, k, next);
    forall i | 0 <= i < |d| ensures Grown(d[i], next[i], Additions(steps)) {
      GrownWiden(d[i], next[i], Addition(steps[k]), Additions(steps));
    }
    forall i | 0 <= i < |c| && c[i].kind == ZONE ensures Grown(c[i], next[i], Additions(steps)) {
      GrownIsTransitive(c[i], d[i], next[i], Additions(steps), Additions(steps), Additions(steps));
    }
    forall i | |c| <= i < |d| ensures OwnZone(next[i], steps) {
      GrownStaysOwn(d[i], next[i], steps, Additions(steps));
    }
  }

  lemma GrownWiden(x: Section, y: Section, a: set<string>, b: set<string>)
    requires Grown(x, y, a) && a <= b
    ensures Grown(x, y, b)
  {
  }

  lemma {:induction false} BeforeRequests(cs: seq<Config>, steps: seq<Step>, k: nat)
    requires Run(cs, steps) && Ordered(steps) && k <= |steps| && forall j :: 0 <= j < k ==> !steps[j].Forward?
    ensures OnlyZonesAdded(cs[0], cs[k], steps)
  {
    if k == 0 {
      AllUnchangedIsGrown(cs[0], Additions(steps));
    } else {
      BeforeRequests(cs, steps, k - 1);
      assert PerformsAt(cs, steps, k - 1);
      ZonesAddedOneMore(cs[0], cs[k - 1], cs[k], steps, k - 1);
    }
  }

  /** A network is hidden exactly if it was at the start. */
  lemma HiddenIffAtStart(c: Config, d: Config, steps: seq<Step>, network: string)
    requires OnlyZonesAdded(c, d, steps) && network !in Additions(steps)
    ensures HiddenByUnnamed(d, network) <==> HiddenByUnnamed(c, network)
  {
    forall i | 0 <= i < |c|
      ensures ListsNetwork(d[i], network) <==> ListsNetwork(c[i], network)
      ensures First(d[i], "name") == First(c[i], "name")
    {
      if c[i].kind == ZONE { GrownListsTheSame(c[i], d[i], Additions(steps), network); }
    }
    if Lister(c, network).Some? {
      assert Lister(d, network) == Lister(c, network);
    } else if Lister(d, network).Some? {
      assert OwnZone(d[Lister(d, network).value], steps);
    }
  }

  /** The name does not extend the name of any network that gets a zone, so no added zone takes it. */
  predicate OwnName(r: Request, steps: seq<Step>) {
    r.name != "" && forall j :: 0 <= j < |steps| && steps[j].EnsureZone? ==> !(steps[j].network <= r.name)
  }

  /** Every forwarding has a name of that kind. */
  predicate OwnNames(steps: seq<Step>) {
    forall k :: 0 <= k < |steps| && steps[k].Forward? ==> OwnName(steps[k].request, steps)
  }

  /** A request finds its forwarding, or its name free, exactly if it would have at the start. */
  lemma FreshIffAtStart(c: Config, d: Config, steps: seq<Step>, r: Request)
    requires OnlyZonesAdded(c, d, steps) && OwnName(r, steps)
    ensures Fresh(d, r) <==> Fresh(c, r)
  {
    assert forall i :: 0 <= i < |c| ==> Forwards(d[i], r.src, r.dest) == Forwards(c[i], r.src, r.dest);
    assert forall i :: |c| <= i < |d| ==> OwnZone(d[i], steps);
    assert Match(d, r) == Match(c, r);
    if i :| 0 <= i < |c| && c[i].name == r.name { assert d[i].name == r.name; }
    if i :| 0 <= i < |d| && d[i].name == r.name {
      assert i < |c| && c[i].name == r.name;
    }
  }

  /** Each step is clean where the run meets it exactly if it is clean on the store the run starts from. */
  lemma CleanIffAtStart(cs: seq<Config>, steps: seq<Step>, k: nat)
    requires Run(cs, steps) && Ordered(steps) && Apart(steps) && OneForward(steps) && OwnNames(steps) && k < |steps|
    ensures Clean(cs[k], steps[k]) <==> Clean(cs[0], steps[k])
  {
    match steps[k]
    case EnsureZone(network) =>
      BeforeRequests(cs, steps, k);
      HiddenIffAtStart(cs[0], cs[k], steps, network);
    case Forward(r) =>
      BeforeRequests(cs, steps, k);
      FreshIffAtStart(cs[0], cs[k], steps, r);
    case _ =>
  }

  /** Every step is clean on this one store. */
  predicate CleanStart(c: Config, steps: seq<Step>) {
    forall k :: 0 <= k < |steps| ==> Clean(c, steps[k])
  }

  /** Zones first, only NAT flags, no network both added and ensured, one forwarding at most and under its own name. */
  predicate Repeatable(steps: seq<Step>) {
    Ordered(steps) && Apart(steps) && OneForward(steps) && OwnNames(steps)
  }

  /**
   * A scenario that requests at most one forwarding, under a name of its own, can be
   * run a second time to the same end if and only if, on the reset store it started
   * from, no network it ensures is hidden behind an unnamed zone and its forwarding
   * stands there already or its section name is unused.
   */
  lemma ScenarioRepeatsIffClean(c: Config, steps: seq<Step>, rules: seq<Rule>, cs: seq<Config>, g: Config)
    requires Scenario(c, steps, rules, cs, g) && Repeatable(steps)
    ensures (exists ts :: Scenario(g, steps, rules, ts, g)) <==> CleanStart(Reset(c), steps)
  {
    ScenarioRepeatsIffRunClean(c, steps, rules, cs, g);
    forall k | 0 <= k < |steps| ensures Clean(cs[k], steps[k]) <==> Clean(Reset(c), steps[k]) {
      CleanIffAtStart(cs, steps, k);
    }
  }

  // ---- The wizard's scenarios ---------------------------------------------------

  /** A mesh gate that routes into the upstream zone. */
  function RouterSteps(upstream: string): seq<Step> {
    [EnsureZone("ahwlan"), ZoneOption("ahwlan", "mtu_fix", "1"), EnsureZone(upstream)]
    + (if upstream == "wan" then [AppendNetwork("wan", "wan6")] else [])
    + [Forward(Request("ahwlan", upstream, "mmrouter", true))]
    + (if upstream == "lan" then [ZoneOption("lan", "masq", "1")] else [])
    + [ZoneOption("lan", "mtu_fix", "1")]
  }

  function ExtenderSteps(): seq<Step> {
    [EnsureZone("lan"), ZoneOption("lan", "mtu_fix", "1"), EnsureZone("ahwlan"), ZoneOption("ahwlan", "mtu_fix", "1"),
     Forward(Request("ahwlan", "lan", "mmextender", false))]
  }

  function HeadlessSteps(): seq<Step> {
    [EnsureZone("ahwlan"), ZoneOption("ahwlan", "mtu_fix", "1"), EnsureZone("lan"), ZoneOption("lan", "mtu_fix", "1")]
  }

  predicate WizardSteps(steps: seq<Step>) {
    steps in {RouterSteps("lan"), RouterSteps("wan"), ExtenderSteps(), HeadlessSteps()}
  }

  /** The forwarding names of the wizard begin with an m, and none of the networks it gives zones does. */
  lemma WizardNamesAreOwn(steps: seq<Step>)
    requires forall k :: 0 <= k < |steps| && steps[k].Forward? ==> steps[k].request.name in {"mmrouter", "mmextender"}
    requires forall k :: 0 <= k < |steps| && steps[k].EnsureZone? ==> steps[k].network in {"ahwlan", "lan", "wan"}
    ensures OwnNames(steps)
  {
    forall j, k | 0 <= j < |steps| && 0 <= k < |steps| && steps[k].Forward? && steps[j].EnsureZone?
      ensures !(steps[j].network <= steps[k].request.name)
    {
      assert steps[k].request.name[0] == 'm' && steps[j].network[0] != 'm';
    }
  }

  lemma RouterToLanIsRepeatable()
    ensures Repeatable(RouterSteps("lan"))
  {
    var steps := [EnsureZone("ahwlan"), ZoneOption("ahwlan", "mtu_fix", "1"), EnsureZone("lan"),
                  Forward(Request("ahwlan", "lan", "mmrouter", true)), ZoneOption("lan", "masq", "1"),
                  ZoneOption("lan", "mtu_fix", "1")];
    assert RouterSteps("lan") == steps;
    assert forall k :: 0 <= k < |steps| ==>
        && (steps[k].Forward? <==> k == 3) && (steps[k].EnsureZone? ==> k < 3)
        && !steps[k].AppendNetwork? && SetsNatFlag(steps[k]);
    WizardNamesAreOwn(steps);
  }

  lemma RouterToWanIsRepeatable()
    ensures Repeatable(RouterSteps("wan"))
  {
    var steps := [EnsureZone("ahwlan"), ZoneOption("ahwlan", "mtu_fix", "1"), EnsureZone("wan"), AppendNetwork("wan", "wan6"),
                  Forward(Request("ahwlan", "wan", "mmrouter", true)), ZoneOption("lan", "mtu_fix", "1")];
    assert RouterSteps("wan") == steps;
    assert |"wan6"| == 4 && |"wan"| == 3 && |"ahwlan"| == 6;
    assert forall k :: 0 <= k < |steps| ==>
        && (steps[k].Forward? <==> k == 4) && (steps[k].EnsureZone? <==> k == 0 || k == 2)
        && (steps[k].AppendNetwork? <==> k == 3) && SetsNatFlag(steps[k]);
    WizardNamesAreOwn(steps);
  }

  lemma MeshPointsAreRepeatable()
    ensures Repeatable(ExtenderSteps()) && Repeatable(HeadlessSteps())
  {
    var steps := ExtenderSteps();
    assert forall k :: 0 <= k < |steps| ==> (steps[k].Forward? <==> k == 4) && !steps[k].AppendNetwork? && SetsNatFlag(steps[k]);
    var others := HeadlessSteps();
    assert forall k :: 0 <= k < |others| ==> !others[k].Forward? && !others[k].AppendNetwork? && SetsNatFlag(others[k]);
    WizardNamesAreOwn(steps);
    WizardNamesAreOwn(others);
  }

  lemma WizardStepsAreRepeatable(steps: seq<Step>)
    requires WizardSteps(steps)
    ensures Repeatable(steps)
  {
    RouterToLanIsRepeatable();
    RouterToWanIsRepeatable();
    MeshPointsAreRepeatable();
  }

  /** Any of the wizard's scenarios can be run again to the same firewall exactly if the reset store it started from was clean for it. */
  lemma WizardScenarioRepeatsIffClean(c: Config, steps: seq<Step>, cs: seq<Config>, g: Config)
    requires WizardSteps(steps) && Scenario(c, steps, DefaultRules("ahwlan"), cs, g)
    ensures (exists ts :: Scenario(g, steps, DefaultRules("ahwlan"), ts, g)) <==> CleanStart(Reset(c), steps)
  {
    WizardStepsAreRepeatable(steps);
    ScenarioRepeatsIffClean(c, steps, DefaultRules("ahwlan"), cs, g);
  }
}
