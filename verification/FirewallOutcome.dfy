/**
 * What a wizard scenario leaves behind: which zones translate addresses, which clamp
 * segment sizes, and where traffic flows. It is said of each zone of the final store
 * and of each pair of zones, whatever the store was before.
 */
module FirewallOutcome {
  import opened Outcomes
  import opened FirewallWizard
  import opened FirewallNat
  import opened FirewallZones
  import opened FirewallScenarios
  import opened FirewallRepeats

  // ---- Flags over a run ------------------------------------------------------------

  /** The step sets the option on the i-th section: a flag set by zone name, or by a request with work to do. */
  predicate SetsFlag(c: Config, s: Step, key: string, i: nat) {
    match s
    case ZoneOption(zone, k, _) => k == key && DestZone(c, zone) == Some(i)
    case Forward(r) =>
      EnabledMatch(c, r).None? && DestZone(c, r.dest) == Some(i) && (key == "mtu_fix" || (key == "masq" && r.natOnDest))
    case _ => false
  }

  predicate NatKey(key: string) {
    key in {"mtu_fix", "masq"}
  }

  /** The flag is 1 or absent. */
  predicate SetOrAbsent(s: Section, key: string) {
    key in s.options ==> s.options[key] == ["1"]
  }

  lemma RequestFlagsZone(c: Config, r: Request, next: Config, key: string, i: nat)
    requires Requested(c, r) == Success(next) && NatKey(key) && i < |next| && next[i].kind == ZONE
    ensures i < |c| && c[i].kind == ZONE
    ensures key in next[i].options <==> key in c[i].options || SetsFlag(c, Forward(r), key, i)
    ensures SetOrAbsent(c[i], key) ==> SetOrAbsent(next[i], key)
  {
    RequestGrowsZones(c, r, next);
    RequestZones(c, r, i);
  }

  /** A zone has a flag after a step exactly if it had it or the step sets it. */
  lemma StepFlagsZone(c: Config, s: Step, next: Config, key: string, i: nat)
    requires Performs(c, s, next) && NatKey(key) && i < |next| && next[i].kind == ZONE
    requires s.ZoneOption? ==> s.value == "1"
    ensures key in next[i].options <==> (i < |c| && key in c[i].options) || SetsFlag(c, s, key, i)
    ensures (i < |c| ==> c[i].kind == ZONE && SetOrAbsent(c[i], key)) ==> SetOrAbsent(next[i], key)
    ensures i < |c| ==> c[i].kind == ZONE
  {
    match s
    case Forward(r) => RequestFlagsZone(c, r, next, key, i);
    case EnsureZone(network) => var name :| ZoneCall(c, network, name, next);
    case ZoneOption(zone, k, _) =>
    case AppendNetwork(zone, network) =>
  }

  /** A zone found by name stays the one found. */
  lemma StepKeepsDestZone(c: Config, s: Step, next: Config, zone: string)
    requires Performs(c, s, next) && SetsNatFlag(s) && DestZone(c, zone).Some?
    ensures DestZone(next, zone) == DestZone(c, zone)
  {
    StepGrowsZones(c, s, next);
    var k := DestZone(c, zone).value;
    forall i | 0 <= i <= k ensures ZoneNamed(next[i], zone) <==> ZoneNamed(c[i], zone) {
      if c[i].kind == ZONE { GrownKeepsName(c[i], next[i], Addition(s)); }
    }
  }

  lemma GrownKeepsName(x: Section, y: Section, extra: set<string>)
    requires Grown(x, y, extra)
    ensures First(y, "name") == First(x, "name")
  {
    WithNetReads(x, Net(y));
    NameOfQuieted(WithNet(x, Net(y)));
    NameOfQuieted(y);
  }

  lemma {:induction false} RunKeepsDestZone(cs: seq<Config>, steps: seq<Step>, k: nat, l: nat, zone: string)
    requires Run(cs, steps) && Ordered(steps) && k <= l <= |steps| && DestZone(cs[k], zone).Some?
    ensures DestZone(cs[l], zone) == DestZone(cs[k], zone)
    decreases l
  {
    if k < l {
      RunKeepsDestZone(cs, steps, k, l - 1, zone);
      assert PerformsAt(cs, steps, l - 1) && SetsNatFlag(steps[l - 1]);
      StepKeepsDestZone(cs[l - 1], steps[l - 1], cs[l], zone);
    }
  }

  predicate FlagsAreOnes(steps: seq<Step>) {
    forall j :: 0 <= j < |steps| && steps[j].ZoneOption? ==> steps[j].value == "1"
  }

  /** A store whose zones have no flag, as a reset leaves it. */
  predicate Bare(c: Config) {
    forall i :: 0 <= i < |c| && c[i].kind == ZONE ==> "masq" !in c[i].options && "mtu_fix" !in c[i].options
  }

  /** Over any run from such a store a zone has a flag exactly if some step set it there. */
  lemma {:induction false} RunFlagsZone(cs: seq<Config>, steps: seq<Step>, n: nat, key: string, i: nat)
    requires Run(cs, steps) && FlagsAreOnes(steps) && Bare(cs[0]) && NatKey(key)
    requires n <= |steps| && i < |cs[n]| && cs[n][i].kind == ZONE
    ensures key in cs[n][i].options <==> exists j :: 0 <= j < n && SetsFlag(cs[j], steps[j], key, i)
    ensures SetOrAbsent(cs[n][i], key)
  {
    RunSetsFlag(cs, steps, n, key, i);
  }

  lemma StepAtFlagsZone(cs: seq<Config>, steps: seq<Step>, n: nat, key: string, i: nat)
    requires Run(cs, steps) && FlagsAreOnes(steps) && NatKey(key)
    requires n < |steps| && i < |cs[n + 1]| && cs[n + 1][i].kind == ZONE
    ensures i < |cs[n]| ==> cs[n][i].kind == ZONE
    ensures key in cs[n + 1][i].options <==> (i < |cs[n]| && key in cs[n][i].options) || SetsFlag(cs[n], steps[n], key, i)
    ensures (i < |cs[n]| ==> SetOrAbsent(cs[n][i], key)) ==> SetOrAbsent(cs[n + 1][i], key)
  {
    assert PerformsAt(cs, steps, n);
    StepFlagsZone(cs[n], steps[n], cs[n + 1], key, i);
  }

  /** Some step before the n-th sets the flag on the i-th section. */
  ghost predicate SetBefore(cs: seq<Config>, steps: seq<Step>, n: nat, key: string, i: nat)
    requires n <= |steps| && |cs| == |steps| + 1
  {
    exists j :: 0 <= j < n && SetsFlag(cs[j], steps[j], key, i)
  }

  lemma {:induction false} RunSetsFlag(cs: seq<Config>, steps: seq<Step>, n: nat, key: string, i: nat)
    requires Run(cs, steps) && FlagsAreOnes(steps) && Bare(cs[0]) && NatKey(key)
    requires n <= |steps| && i < |cs[n]| && cs[n][i].kind == ZONE
    ensures key in cs[n][i].options <==> SetBefore(cs, steps, n, key, i)
    ensures SetOrAbsent(cs[n][i], key)
  {
    if n > 0 {
      SetBeforeOneMore(cs, steps, n - 1, key, i);
      StepAtFlagsZone(cs, steps, n - 1, key, i);
      if i < |cs[n - 1]| {
        RunSetsFlag(cs, steps, n - 1, key, i);
      } else {
        NoFlagYet(cs, steps, n - 1, key, i);
      }
    }
  }

  lemma SetBeforeOneMore(cs: seq<Config>, steps: seq<Step>, n: nat, key: string, i: nat)
    requires n < |steps| && |cs| == |steps| + 1
    ensures SetBefore(cs, steps, n + 1, key, i) <==> SetBefore(cs, steps, n, key, i) || SetsFlag(cs[n], steps[n], key, i)
  {
  }

  /** A section that is not there yet has had no flag set. */
  lemma NoFlagYet(cs: seq<Config>, steps: seq<Step>, n: nat, key: string, i: nat)
    requires Run(cs, steps) && n <= |steps| && i >= |cs[n]|
    ensures !SetBefore(cs, steps, n, key, i)
  {
    forall j | 0 <= j < n ensures !SetsFlag(cs[j], steps[j], key, i) {
      RunGrowsInSize(cs, steps, j, n);
    }
  }

  lemma {:induction false} RunGrowsInSize(cs: seq<Config>, steps: seq<Step>, k: nat, l: nat)
    requires Run(cs, steps) && k <= l <= |steps|
    ensures |cs[k]| <= |cs[l]|
    decreases l
  {
    if k < l {
      RunGrowsInSize(cs, steps, k, l - 1);
      assert PerformsAt(cs, steps, l - 1);
      StepGrowsInSize(cs[l - 1], steps[l - 1], cs[l]);
    }
  }

  lemma StepGrowsInSize(c: Config, s: Step, next: Config)
    requires Performs(c, s, next)
    ensures |c| <= |next|
  {
    match s
    case Forward(r) => RequestGrowsZones(c, r, next);
    case EnsureZone(network) => var name :| ZoneCall(c, network, name, next);
    case _ =>
  }

  lemma ResetIsBare(c: Config)
    ensures Bare(Reset(c))
  {
    forall i | 0 <= i < |Reset(c)| && Reset(c)[i].kind == ZONE
      ensures "masq" !in Reset(c)[i].options && "mtu_fix" !in Reset(c)[i].options
    {
      ResetZones(c, i);
    }
  }

  // ---- Where traffic flows ------------------------------------------------------------

  /** A request made with every forwarding off makes nothing flow but what it asks for. */
  lemma OnlyRequestFlows(c: Config, r: Request, next: Config, src: string, dest: string)
    requires ForwardingsOff(c) && Requested(c, r) == Success(next) && Flows(next, src, dest)
    ensures src == r.src && dest == r.dest
  {
    assert forall i :: 0 <= i < |c| ==> !Live(c[i]);
    var i :| 0 <= i < |next| && EnabledForwards(next[i], src, dest);
    LiveAfterRequest(c, r, i);
  }

  /** After a scenario with one request, traffic flows between no zones but those it asks for, and there exactly from a clean start. */
  lemma ScenarioFlows(c: Config, steps: seq<Step>, rules: seq<Rule>, cs: seq<Config>, g: Config, k: nat, src: string, dest: string)
    requires Scenario(c, steps, rules, cs, g) && Repeatable(steps) && k < |steps| && steps[k].Forward?
    ensures Flows(g, src, dest) <==> src == steps[k].request.src && dest == steps[k].request.dest && Fresh(Reset(c), steps[k].request)
  {
    OutcomeOf(c, steps, rules, cs, g);
    RulesDoNotFlow(cs[|steps|], rules, src, dest);
    RunFlows(cs, steps, k, src, dest);
  }

  lemma RunFlows(cs: seq<Config>, steps: seq<Step>, k: nat, src: string, dest: string)
    requires Run(cs, steps) && Repeatable(steps) && ForwardingsOff(cs[0]) && k < |steps| && steps[k].Forward?
    ensures Flows(cs[|steps|], src, dest) <==>
              src == steps[k].request.src && dest == steps[k].request.dest && Fresh(cs[0], steps[k].request)
  {
    RestKeepsForwardings(cs, steps, 0, k, src, dest);
    RestKeepsForwardings(cs, steps, k + 1, |steps|, src, dest);
    assert PerformsAt(cs, steps, k);
    CleanIffAtStart(cs, steps, k);
    RequestFlowsAlone(cs[k], steps[k].request, cs[k + 1], src, dest);
  }

  lemma RequestFlowsAlone(c: Config, r: Request, next: Config, src: string, dest: string)
    requires ForwardingsOff(c) && Requested(c, r) == Success(next)
    ensures Flows(next, src, dest) <==> src == r.src && dest == r.dest && Fresh(c, r)
  {
    RequestFlowsIffFresh(c, r);
    if Flows(next, src, dest) {
      OnlyRequestFlows(c, r, next, src, dest);
    }
  }

  /** After a scenario without a request nothing flows. */
  lemma NothingFlows(c: Config, steps: seq<Step>, rules: seq<Rule>, cs: seq<Config>, g: Config, src: string, dest: string)
    requires Scenario(c, steps, rules, cs, g) && Ordered(steps) && forall j :: 0 <= j < |steps| ==> !steps[j].Forward?
    ensures !Flows(g, src, dest)
  {
    OutcomeOf(c, steps, rules, cs, g);
    RulesDoNotFlow(cs[|steps|], rules, src, dest);
    RestKeepsForwardings(cs, steps, 0, |steps|, src, dest);
    assert forall i :: 0 <= i < |cs[|steps|]| && cs[|steps|][i].kind == FORWARDING ==> Off(cs[|steps|][i]);
  }

  // ---- The wizard's scenarios ----------------------------------------------------------

  /** Zones that are masqueraded, and zones that are clamped, by name. */
  ghost predicate LeavesFlags(f: Config, masked: set<string>, clamped: set<string>) {
    && (forall z :: z in masked + clamped ==> DestZone(f, z).Some?)
    && forall i: nat :: i < |f| && f[i].kind == ZONE ==>
         && ("masq" in f[i].options <==> exists z :: z in masked && DestZone(f, z) == Some(i))
         && ("mtu_fix" in f[i].options <==> exists z :: z in clamped && DestZone(f, z) == Some(i))
         && SetOrAbsent(f[i], "masq") && SetOrAbsent(f[i], "mtu_fix")
  }

  /** The zones whose flag the step sets, if it has work to do. */
  function FlaggedBy(s: Step, key: string): Option<string> {
    match s
    case ZoneOption(zone, k, _) => if k == key then Some(zone) else None
    case Forward(r) => if key == "mtu_fix" || r.natOnDest then Some(r.dest) else None
    case _ => None
  }

  /** The flag ends on exactly those zones by name that some step flags, if each of these names finds a zone in the end. */
  lemma FlagEndsWhereAsked(cs: seq<Config>, steps: seq<Step>, key: string, names: set<string>, i: nat)
    requires Run(cs, steps) && Ordered(steps) && FlagsAreOnes(steps) && Bare(cs[0]) && NatKey(key)
    requires i < |cs[|steps|]| && cs[|steps|][i].kind == ZONE
    requires forall j :: 0 <= j < |steps| && FlaggedBy(steps[j], key).Some? ==> FlaggedBy(steps[j], key).value in names
    requires forall z :: z in names ==> exists j :: 0 <= j < |steps| && FlaggedBy(steps[j], key) == Some(z)
                                                    && DestZone(cs[j], z).Some? && SetsFlag(cs[j], steps[j], key, DestZone(cs[j], z).value)
    ensures key in cs[|steps|][i].options <==> exists z :: z in names && DestZone(cs[|steps|], z) == Some(i)
  {
    var n := |steps|;
    RunFlagsZone(cs, steps, n, key, i);
    if j :| 0 <= j < n && SetsFlag(cs[j], steps[j], key, i) {
      var z := FlaggedBy(steps[j], key).value;
      RunKeepsDestZone(cs, steps, j, n, z);
      assert z in names && DestZone(cs[n], z) == Some(i);
    }
    if z :| z in names && DestZone(cs[n], z) == Some(i) {
      var j :| 0 <= j < n && FlaggedBy(steps[j], key) == Some(z)
               && DestZone(cs[j], z).Some? && SetsFlag(cs[j], steps[j], key, DestZone(cs[j], z).value);
      RunKeepsDestZone(cs, steps, j, n, z);
    }
  }

  /** A step that sets a flag by name finds the zone and sets it. */
  lemma OptionStepSets(cs: seq<Config>, steps: seq<Step>, j: nat)
    requires Run(cs, steps) && j < |steps| && steps[j].ZoneOption?
    ensures var z := steps[j].zone;
            DestZone(cs[j], z).Some? && SetsFlag(cs[j], steps[j], steps[j].key, DestZone(cs[j], z).value)
  {
    assert PerformsAt(cs, steps, j);
  }

  /** The one request of a scenario has work to do. */
  lemma RequestHasWork(cs: seq<Config>, steps: seq<Step>, k: nat)
    requires Run(cs, steps) && Ordered(steps) && OneForward(steps) && ForwardingsOff(cs[0]) && k < |steps| && steps[k].Forward?
    ensures EnabledMatch(cs[k], steps[k].request).None?
  {
    var r := steps[k].request;
    RestKeepsForwardings(cs, steps, 0, k, r.src, r.dest);
    forall i | 0 <= i < |cs[k]| ensures !EnabledForwards(cs[k][i], r.src, r.dest) {
      assert cs[k][i].kind == FORWARDING ==> Off(cs[k][i]);
    }
  }

  lemma FlagsOf(cs: seq<Config>, steps: seq<Step>, masked: set<string>, clamped: set<string>)
    requires Run(cs, steps) && Ordered(steps) && FlagsAreOnes(steps) && Bare(cs[0])
    requires FlagsReach(cs, steps, "masq", masked) && FlagsReach(cs, steps, "mtu_fix", clamped)
    ensures LeavesFlags(cs[|steps|], masked, clamped)
  {
    var f := cs[|steps|];
    forall z | z in masked + clamped ensures DestZone(f, z).Some? {
      var key := if z in masked then "masq" else "mtu_fix";
      var j :| 0 <= j < |steps| && FlaggedBy(steps[j], key) == Some(z) && DestZone(cs[j], z).Some?;
      RunKeepsDestZone(cs, steps, j, |steps|, z);
    }
    forall i: nat | i < |f| && f[i].kind == ZONE
      ensures "masq" in f[i].options <==> exists z :: z in masked && DestZone(f, z) == Some(i)
      ensures "mtu_fix" in f[i].options <==> exists z :: z in clamped && DestZone(f, z) == Some(i)
      ensures SetOrAbsent(f[i], "masq") && SetOrAbsent(f[i], "mtu_fix")
    {
      FlagEndsWhereAsked(cs, steps, "masq", masked, i);
      FlagEndsWhereAsked(cs, steps, "mtu_fix", clamped, i);
      RunFlagsZone(cs, steps, |steps|, "masq", i);
      RunFlagsZone(cs, steps, |steps|, "mtu_fix", i);
    }
  }

  /** Every step that sets the flag sets it on one of the names, and each name is reached by some step. */
  ghost predicate FlagsReach(cs: seq<Config>, steps: seq<Step>, key: string, names: set<string>)
    requires Run(cs, steps)
  {
    && (forall j :: 0 <= j < |steps| && FlaggedBy(steps[j], key).Some? ==> FlaggedBy(steps[j], key).value in names)
    && forall z :: z in names ==> exists j :: 0 <= j < |steps| && FlaggedBy(steps[j], key) == Some(z)
                                              && DestZone(cs[j], z).Some? && SetsFlag(cs[j], steps[j], key, DestZone(cs[j], z).value)
  }

  lemma RulesKeepDestZone(f: Config, rules: seq<Rule>, zone: string)
    ensures DestZone(f + RuleSections(rules, 0), zone) == DestZone(f, zone)
  {
    var g := f + RuleSections(rules, 0);
    assert forall i :: 0 <= i < |f| ==> g[i] == f[i];
    assert forall i :: |f| <= i < |g| ==> g[i].kind == RULE;
    assert forall i :: 0 <= i < |g| && ZoneNamed(g[i], zone) ==> i < |f|;
  }

  lemma RulesKeepFlags(f: Config, rules: seq<Rule>, masked: set<string>, clamped: set<string>)
    requires LeavesFlags(f, masked, clamped)
    ensures LeavesFlags(f + RuleSections(rules, 0), masked, clamped)
  {
    var g := f + RuleSections(rules, 0);
    assert forall i :: 0 <= i < |f| ==> g[i] == f[i];
    assert forall i :: |f| <= i < |g| ==> g[i].kind == RULE;
    forall z ensures DestZone(g, z) == DestZone(f, z) {
      RulesKeepDestZone(f, rules, z);
    }
  }

  /** The steps of a gate with a LAN uplink, as far as flags go. */
  predicate LanSteps(steps: seq<Step>) {
    && |steps| == 6 && steps[0].EnsureZone? && steps[2].EnsureZone?
    && steps[1] == ZoneOption("ahwlan", "mtu_fix", "1")
    && steps[3].Forward? && steps[3].request.dest == "lan" && steps[3].request.natOnDest
    && steps[4] == ZoneOption("lan", "masq", "1")
    && steps[5] == ZoneOption("lan", "mtu_fix", "1")
  }

  lemma LanFlagsReach(cs: seq<Config>, steps: seq<Step>)
    requires LanSteps(steps) && Run(cs, steps)
    ensures FlagsReach(cs, steps, "masq", {"lan"}) && FlagsReach(cs, steps, "mtu_fix", {"ahwlan", "lan"})
  {
    OptionStepSets(cs, steps, 1);
    OptionStepSets(cs, steps, 4);
    OptionStepSets(cs, steps, 5);
    assert FlaggedBy(steps[1], "mtu_fix") == Some("ahwlan") && FlaggedBy(steps[5], "mtu_fix") == Some("lan");
    assert FlaggedBy(steps[4], "masq") == Some("lan");
  }

  lemma RouterToLanFlags(cs: seq<Config>, steps: seq<Step>)
    requires LanSteps(steps) && FlagsAreOnes(steps) && Run(cs, steps) && Ordered(steps) && Bare(cs[0])
    ensures LeavesFlags(cs[6], {"lan"}, {"ahwlan", "lan"})
  {
    LanFlagsReach(cs, steps);
    FlagsOf(cs, steps, {"lan"}, {"ahwlan", "lan"});
  }

  lemma RouterToLanSteps()
    ensures LanSteps(RouterSteps("lan")) && FlagsAreOnes(RouterSteps("lan"))
  {
    var steps := [EnsureZone("ahwlan"), ZoneOption("ahwlan", "mtu_fix", "1"), EnsureZone("lan"),
                  Forward(Request("ahwlan", "lan", "mmrouter", true)), ZoneOption("lan", "masq", "1"),
                  ZoneOption("lan", "mtu_fix", "1")];
    assert RouterSteps("lan") == steps;
    assert forall j :: 0 <= j < |steps| && steps[j].ZoneOption? ==> j == 1 || j == 4 || j == 5;
  }

  lemma RouterToWanFlags(cs: seq<Config>, steps: seq<Step>)
    requires WanSteps(steps) && FlagsAreOnes(steps)
    requires Run(cs, steps) && Ordered(steps) && OneForward(steps) && Bare(cs[0]) && ForwardingsOff(cs[0])
    ensures LeavesFlags(cs[6], {"wan"}, {"ahwlan", "lan", "wan"})
    ensures DestZone(cs[6], "wan").Some? && "wan6" in Networks(cs[6][DestZone(cs[6], "wan").value])
  {
    WanIsUplink(cs, steps);
    WanFlagsReach(cs, steps);
    FlagsOf(cs, steps, {"wan"}, {"ahwlan", "lan", "wan"});
  }

  lemma RouterToWanSteps()
    ensures WanSteps(RouterSteps("wan")) && FlagsAreOnes(RouterSteps("wan"))
  {
    var steps := [EnsureZone("ahwlan"), ZoneOption("ahwlan", "mtu_fix", "1"), EnsureZone("wan"), AppendNetwork("wan", "wan6"),
                  Forward(Request("ahwlan", "wan", "mmrouter", true)), ZoneOption("lan", "mtu_fix", "1")];
    assert RouterSteps("wan") == steps;
    assert forall j :: 0 <= j < |steps| && steps[j].ZoneOption? ==> j == 1 || j == 5;
  }

  /** The steps of a gate with a WAN uplink, as far as flags go. */
  predicate WanSteps(steps: seq<Step>) {
    && |steps| == 6 && steps[0].EnsureZone? && steps[2].EnsureZone?
    && steps[1] == ZoneOption("ahwlan", "mtu_fix", "1")
    && steps[3] == AppendNetwork("wan", "wan6")
    && steps[4].Forward? && steps[4].request.dest == "wan" && steps[4].request.natOnDest
    && steps[5] == ZoneOption("lan", "mtu_fix", "1")
  }

  lemma WanFlagsReach(cs: seq<Config>, steps: seq<Step>)
    requires WanSteps(steps) && Run(cs, steps) && DestZone(cs[4], "wan").Some?
    requires SetsFlag(cs[4], steps[4], "masq", DestZone(cs[4], "wan").value)
    requires SetsFlag(cs[4], steps[4], "mtu_fix", DestZone(cs[4], "wan").value)
    ensures FlagsReach(cs, steps, "masq", {"wan"}) && FlagsReach(cs, steps, "mtu_fix", {"ahwlan", "lan", "wan"})
  {
    OptionStepSets(cs, steps, 1);
    OptionStepSets(cs, steps, 5);
    assert FlaggedBy(steps[1], "mtu_fix") == Some("ahwlan") && FlaggedBy(steps[5], "mtu_fix") == Some("lan");
    assert FlaggedBy(steps[4], "mtu_fix") == Some("wan") && FlaggedBy(steps[4], "masq") == Some("wan");
  }

  /** The WAN zone is found when the forwarding is requested, lists wan6 by then, and does to the end. */
  lemma WanIsUplink(cs: seq<Config>, steps: seq<Step>)
    requires WanSteps(steps) && Run(cs, steps) && Ordered(steps) && OneForward(steps) && ForwardingsOff(cs[0])
    ensures DestZone(cs[4], "wan").Some?
    ensures SetsFlag(cs[4], steps[4], "masq", DestZone(cs[4], "wan").value)
    ensures SetsFlag(cs[4], steps[4], "mtu_fix", DestZone(cs[4], "wan").value)
    ensures DestZone(cs[6], "wan").Some? && "wan6" in Networks(cs[6][DestZone(cs[6], "wan").value])
  {
    assert PerformsAt(cs, steps, 3) && PerformsAt(cs, steps, 4) && PerformsAt(cs, steps, 5);
    RunKeepsDestZone(cs, steps, 3, 4, "wan");
    RunKeepsDestZone(cs, steps, 3, 6, "wan");
    RequestHasWork(cs, steps, 4);
    var k := DestZone(cs[3], "wan").value;
    RequestZones(cs[4], steps[4].request, k);
    assert Networks(cs[5][k]) == Networks(cs[4][k]);
    assert SetsNatFlag(steps[5]);
    assert Networks(cs[6][k]) == Networks(cs[5][k]);
  }

  lemma MeshPointFlags(cs: seq<Config>, steps: seq<Step>)
    requires steps in {ExtenderSteps(), HeadlessSteps()} && Run(cs, steps) && Bare(cs[0])
    ensures LeavesFlags(cs[|steps|], {}, {"ahwlan", "lan"})
  {
    MeshPointsAreRepeatable();
    OptionStepSets(cs, steps, 1);
    OptionStepSets(cs, steps, 3);
    assert FlaggedBy(steps[1], "mtu_fix") == Some(steps[1].zone) && FlaggedBy(steps[3], "mtu_fix") == Some(steps[3].zone);
    FlagsOf(cs, steps, {}, {"ahwlan", "lan"});
  }

  /**
   * A gate that routes into the uplink zone, once set up: that zone and no other is
   * masqueraded, it and the mesh and LAN zones and no others are clamped, a WAN uplink
   * carries IPv6 transit too, and traffic is forwarded from the mesh to the uplink and
   * nowhere else, exactly if the forwarding stood or its name was free at the start.
   */
  lemma RouterLeaves(c: Config, upstream: string, rules: seq<Rule>, cs: seq<Config>, g: Config)
    requires upstream in {"lan", "wan"} && Scenario(c, RouterSteps(upstream), rules, cs, g)
    ensures LeavesFlags(g, {upstream}, {"ahwlan", "lan", upstream})
    ensures upstream == "wan" ==> "wan6" in Networks(g[DestZone(g, "wan").value])
    ensures forall src, dest :: Flows(g, src, dest) <==>
              src == "ahwlan" && dest == upstream && Fresh(Reset(c), Request("ahwlan", upstream, "mmrouter", true))
  {
    RouterFlags(c, upstream, rules, cs, g);
    forall src, dest
      ensures Flows(g, src, dest) <==>
                src == "ahwlan" && dest == upstream && Fresh(Reset(c), Request("ahwlan", upstream, "mmrouter", true))
    {
      RouterFlows(c, upstream, rules, cs, g, src, dest);
    }
  }

  lemma RouterFlags(c: Config, upstream: string, rules: seq<Rule>, cs: seq<Config>, g: Config)
    requires upstream in {"lan", "wan"} && Scenario(c, RouterSteps(upstream), rules, cs, g)
    ensures LeavesFlags(g, {upstream}, {"ahwlan", "lan", upstream})
    ensures upstream == "wan" ==> "wan6" in Networks(g[DestZone(g, "wan").value])
  {
    var steps := RouterSteps(upstream);
    WizardStepsAreRepeatable(steps);
    ResetIsBare(c);
    OutcomeOf(c, steps, rules, cs, g);
    assert |steps| == 6;
    if upstream == "lan" {
      RouterToLanSteps();
      RouterToLanFlags(cs, steps);
      assert {"ahwlan", "lan", upstream} == {"ahwlan", "lan"};
    } else {
      RouterToWanSteps();
      RouterToWanFlags(cs, steps);
      RulesKeepDestZone(cs[6], rules, "wan");
    }
    RulesKeepFlags(cs[6], rules, {upstream}, {"ahwlan", "lan", upstream});
  }

  lemma RouterFlows(c: Config, upstream: string, rules: seq<Rule>, cs: seq<Config>, g: Config, src: string, dest: string)
    requires upstream in {"lan", "wan"} && Scenario(c, RouterSteps(upstream), rules, cs, g)
    ensures Flows(g, src, dest) <==>
              src == "ahwlan" && dest == upstream && Fresh(Reset(c), Request("ahwlan", upstream, "mmrouter", true))
  {
    var steps := RouterSteps(upstream);
    WizardStepsAreRepeatable(steps);
    var k := if upstream == "wan" then 4 else 3;
    assert steps[k] == Forward(Request("ahwlan", upstream, "mmrouter", true));
    ScenarioFlows(c, steps, rules, cs, g, k, src, dest);
  }

  /** An extender masquerades nothing, clamps the mesh and LAN zones, and forwards from the mesh to the LAN only. */
  lemma ExtenderLeaves(c: Config, rules: seq<Rule>, cs: seq<Config>, g: Config)
    requires Scenario(c, ExtenderSteps(), rules, cs, g)
    ensures LeavesFlags(g, {}, {"ahwlan", "lan"})
    ensures forall src, dest :: Flows(g, src, dest) <==>
              src == "ahwlan" && dest == "lan" && Fresh(Reset(c), Request("ahwlan", "lan", "mmextender", false))
  {
    var steps := ExtenderSteps();
    WizardStepsAreRepeatable(steps);
    ResetIsBare(c);
    OutcomeOf(c, steps, rules, cs, g);
    MeshPointFlags(cs, steps);
    RulesKeepFlags(cs[|steps|], rules, {}, {"ahwlan", "lan"});
    forall src, dest
      ensures Flows(g, src, dest) <==>
                src == "ahwlan" && dest == "lan" && Fresh(Reset(c), Request("ahwlan", "lan", "mmextender", false))
    {
      ScenarioFlows(c, steps, rules, cs, g, 4, src, dest);
    }
  }

  /** A headless node does the same to the zones and forwards nothing. */
  lemma HeadlessLeaves(c: Config, rules: seq<Rule>, cs: seq<Config>, g: Config)
    requires Scenario(c, HeadlessSteps(), rules, cs, g)
    ensures LeavesFlags(g, {}, {"ahwlan", "lan"})
    ensures forall src, dest :: !Flows(g, src, dest)
  {
    var steps := HeadlessSteps();
    WizardStepsAreRepeatable(steps);
    ResetIsBare(c);
    OutcomeOf(c, steps, rules, cs, g);
    MeshPointFlags(cs, steps);
    RulesKeepFlags(cs[|steps|], rules, {}, {"ahwlan", "lan"});
    assert forall j :: 0 <= j < |steps| ==> !steps[j].Forward?;
    forall src, dest ensures !Flows(g, src, dest) {
      NothingFlows(c, steps, rules, cs, g, src, dest);
    }
  }
}
