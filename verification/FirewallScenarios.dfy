/**
 * A whole wizard scenario on the firewall: zones ensured, flags set on them,
 * networks added to them, forwardings requested, and then the default rules.
 *
 * Running it again, reset first, gives the configuration of running it once. The
 * second run meets the sections of the first from the start, switched off and with
 * their networks already grown, so the proof keeps the two runs side by side.
 */
module FirewallScenarios {
  import opened Outcomes
  import opened FirewallWizard
  import opened FirewallStore
  import opened FirewallZones

  datatype Step =
    | EnsureZone(network: string)
    | ZoneOption(zone: string, key: string, value: string)
    | AppendNetwork(zone: string, network: string)
    | Forward(request: Request)

  function Networks(s: Section): seq<string> {
    if "network" in s.options then s.options["network"] else []
  }

  function Optioned(c: Config, zone: string, key: string, value: string): Option<Config> {
    match DestZone(c, zone)
    case None => None
    case Some(k) => Some(c[k := Put(c[k], key, [value])])
  }

  function Appended(c: Config, zone: string, network: string): Option<Config> {
    match DestZone(c, zone)
    case None => None
    case Some(k) =>
      Some(if network in Networks(c[k]) then c else c[k := Put(c[k], "network", Networks(c[k]) + [network])])
  }

  /** The step succeeds on c and leaves next. */
  ghost predicate Performs(c: Config, s: Step, next: Config) {
    match s
    case EnsureZone(network) => exists name :: ZoneCall(c, network, name, next)
    case ZoneOption(zone, key, value) => zone != "" && Optioned(c, zone, key, value) == Some(next)
    case AppendNetwork(zone, network) => zone != "" && network != "" && Appended(c, zone, network) == Some(next)
    case Forward(r) => Requested(c, r) == Success(next)
  }

  ghost predicate PerformsAt(cs: seq<Config>, steps: seq<Step>, k: nat)
    requires k < |steps| && |cs| == |steps| + 1
  {
    Performs(cs[k], steps[k], cs[k + 1])
  }

  /** cs are the configurations before, between and after the steps. */
  ghost predicate Run(cs: seq<Config>, steps: seq<Step>) {
    |cs| == |steps| + 1 && forall k :: 0 <= k < |steps| ==> PerformsAt(cs, steps, k)
  }

  lemma ZoneCallIsFunctional(c: Config, network: string, m: string, a: Config, n: string, b: Config)
    requires ZoneCall(c, network, m, a) && ZoneCall(c, network, n, b)
    ensures m == n && a == b
  {
    if ZoneNameFor(c, network) == "" {
      var i :| FirstFree(c, network, i) && m == Candidate(network, i);
      var j :| FirstFree(c, network, j) && n == Candidate(network, j);
      FirstFreeIsUnique(c, network, i, j);
    }
  }

  lemma PerformsIsFunctional(c: Config, s: Step, a: Config, b: Config)
    requires Performs(c, s, a) && Performs(c, s, b)
    ensures a == b
  {
    if s.EnsureZone? {
      var m :| ZoneCall(c, s.network, m, a);
      var n :| ZoneCall(c, s.network, n, b);
      ZoneCallIsFunctional(c, s.network, m, a, n, b);
    }
  }

  /** A scenario has at most one course. */
  lemma {:induction false} RunIsFunctional(cs: seq<Config>, ds: seq<Config>, steps: seq<Step>, k: nat)
    requires Run(ds, steps) && |cs| > k && cs[0] == ds[0] && k <= |steps|
    requires forall j :: 0 <= j < k ==> Performs(cs[j], steps[j], cs[j + 1])
    ensures cs[k] == ds[k]
  {
    if k > 0 {
      RunIsFunctional(cs, ds, steps, k - 1);
      assert PerformsAt(ds, steps, k - 1);
      PerformsIsFunctional(cs[k - 1], steps[k - 1], cs[k], ds[k]);
    }
  }

  // ---- Scenarios that can be repeated -------------------------------------------

  /** A forwarding, if it must be added, has an unused name; a zone is not hidden behind an unnamed one. */
  predicate Clean(c: Config, s: Step) {
    match s
    case EnsureZone(network) => !HiddenByUnnamed(c, network)
    case Forward(r) => Fresh(c, r)
    case _ => true
  }

  ghost predicate CleanRun(cs: seq<Config>, steps: seq<Step>) {
    Run(cs, steps) && forall k :: 0 <= k < |steps| ==> Clean(cs[k], steps[k])
  }

  predicate SetsNatFlag(s: Step) {
    s.ZoneOption? ==> s.key in {"mtu_fix", "masq"}
  }

  /** Zones are ensured before forwardings are requested, and only the two NAT flags are set. */
  predicate Ordered(steps: seq<Step>) {
    && (forall k :: 0 <= k < |steps| ==> SetsNatFlag(steps[k]))
    && (forall j, k :: 0 <= j < k < |steps| && steps[j].Forward? ==> !steps[k].EnsureZone?)
  }

  /** The networks that are added to zones. */
  ghost function Additions(steps: seq<Step>): set<string> {
    set k | 0 <= k < |steps| && steps[k].AppendNetwork? :: steps[k].network
  }

  /** No network is both added to a zone and given one of its own. */
  predicate Apart(steps: seq<Step>) {
    forall j, k :: 0 <= j < |steps| && 0 <= k < |steps| && steps[j].EnsureZone? && steps[k].AppendNetwork? ==>
      steps[j].network != steps[k].network
  }

  // ---- How sections grow during a run ------------------------------------------

  function Net(s: Section): Option<seq<string>> {
    if "network" in s.options then Some(s.options["network"]) else None
  }

  function WithNet(s: Section, net: Option<seq<string>>): Section {
    if net.Some? then Put(s, "network", net.value) else s
  }

  /** y is x some steps later: only what the reset undoes has changed, and networks out of extra were added. */
  ghost predicate Grown(x: Section, y: Section, extra: set<string>) {
    && y.name == x.name && y.kind == x.kind
    && Quieted(y) == Quieted(WithNet(x, Net(y)))
    && (Net(x).Some? ==> Net(y).Some?)
    && (x.kind != ZONE ==> Net(y) == Net(x))
    && (forall n :: n in Networks(x) ==> n in Networks(y))
    && (forall n :: n in Networks(y) ==> n in Networks(x) || n in extra)
  }

  lemma GrownIsReflexive(x: Section, extra: set<string>)
    ensures Grown(x, x, extra)
  {
    assert WithNet(x, Net(x)) == x by {
      if Net(x).Some? { assert x.options["network" := x.options["network"]] == x.options; }
    }
  }

  /** Quieting and replacing the networks can be done in either order. */
  lemma QuietedWithNet(x: Section, net: Option<seq<string>>)
    ensures Quieted(WithNet(x, net)) == WithNet(Quieted(x), net)
  {
    if net.Some? {
      assert x.options["network" := net.value]["enabled" := ["0"]] == x.options["enabled" := ["0"]]["network" := net.value];
      assert x.options["network" := net.value] - {"mtu_fix"} - {"masq"} == (x.options - {"mtu_fix"} - {"masq"})["network" := net.value];
    }
  }

  lemma GrownIsTransitive(x: Section, y: Section, z: Section, a: set<string>, b: set<string>, all: set<string>)
    requires Grown(x, y, a) && Grown(y, z, b) && a <= all && b <= all
    ensures Grown(x, z, all)
  {
    QuietedWithNet(x, Net(y));
    QuietedWithNet(y, Net(z));
    QuietedWithNet(x, Net(z));
    if Net(y).Some? && Net(z).Some? {
      assert Quieted(x).options["network" := Net(y).value]["network" := Net(z).value] == Quieted(x).options["network" := Net(z).value];
    }
  }

  lemma AlikeIsGrown(x: Section, y: Section, extra: set<string>)
    requires Alike(y, x)
    ensures Grown(x, y, extra)
  {
    NetOfQuieted(x);
    NetOfQuieted(y);
    GrownIsReflexive(x, extra);
  }

  lemma NetOfQuieted(s: Section)
    ensures Net(Quieted(s)) == Net(s) && Quieted(s).kind == s.kind && Quieted(s).name == s.name
  {
  }

  /** Every section of c has grown into its place in f. */
  ghost predicate AllGrown(c: Config, f: Config, extra: set<string>) {
    |c| <= |f| && forall i :: 0 <= i < |c| ==> Grown(c[i], f[i], extra)
  }

  lemma FlaggedIsGrown(x: Section, key: string, value: string, extra: set<string>)
    requires x.kind == ZONE && key in {"mtu_fix", "masq"}
    ensures Grown(x, Put(x, key, [value]), extra)
  {
    var y := Put(x, key, [value]);
    GrownIsReflexive(x, extra);
    assert y.options - {"mtu_fix"} - {"masq"} == x.options - {"mtu_fix"} - {"masq"};
  }

  lemma WidenedIsGrown(x: Section, network: string)
    requires x.kind == ZONE && network !in Networks(x)
    ensures Grown(x, Put(x, "network", Networks(x) + [network]), {network})
  {
  }

  lemma AllUnchangedIsGrown(c: Config, extra: set<string>)
    ensures AllGrown(c, c, extra)
  {
    forall i | 0 <= i < |c| ensures Grown(c[i], c[i], extra) {
      GrownIsReflexive(c[i], extra);
    }
  }

  /** One section of c grown, the others as they were. */
  lemma OneGrown(c: Config, k: nat, s: Section, extra: set<string>)
    requires k < |c| && Grown(c[k], s, extra)
    ensures AllGrown(c, c[k := s], extra)
  {
    AllUnchangedIsGrown(c, extra);
  }

  /** What a step adds to zones. */
  function Addition(s: Step): set<string> {
    if s.AppendNetwork? then {s.network} else {}
  }

  lemma StepGrows(c: Config, s: Step, next: Config)
    requires Performs(c, s, next) && Clean(c, s) && SetsNatFlag(s)
    ensures AllGrown(c, next, Addition(s)) && |next| <= |c| + 1
    ensures |next| > |c| ==> next[|c|].kind == FORWARDING || (s.EnsureZone? && next[|c|].kind == ZONE)
  {
    AllUnchangedIsGrown(c, Addition(s));
    match s
    case EnsureZone(network) =>
      var name :| ZoneCall(c, network, name, next);
    case ZoneOption(zone, key, value) =>
      var k := DestZone(c, zone).value;
      FlaggedIsGrown(c[k], key, value, Addition(s));
      OneGrown(c, k, Put(c[k], key, [value]), Addition(s));
    case AppendNetwork(zone, network) =>
      var k := DestZone(c, zone).value;
      if network !in Networks(c[k]) {
        WidenedIsGrown(c[k], network);
        OneGrown(c, k, Put(c[k], "network", Networks(c[k]) + [network]), {network});
      }
    case Forward(r) =>
      RequestKeepsOldSections(c, r);
      forall i | 0 <= i < |c| ensures Grown(c[i], next[i], Addition(s)) {
        AlikeIsGrown(c[i], next[i], Addition(s));
      }
  }

  lemma AllGrownIsTransitive(c: Config, d: Config, f: Config, a: set<string>, all: set<string>)
    requires AllGrown(c, d, a) && AllGrown(d, f, all) && a <= all
    ensures AllGrown(c, f, all)
  {
    forall i | 0 <= i < |c| ensures Grown(c[i], f[i], all) {
      GrownIsTransitive(c[i], d[i], f[i], a, all, all);
    }
  }

  /** Step k of a clean run, and what it does to the sections. */
  lemma StepAtGrows(cs: seq<Config>, steps: seq<Step>, k: nat)
    requires CleanRun(cs, steps) && Ordered(steps) && k < |steps|
    ensures Performs(cs[k], steps[k], cs[k + 1]) && Clean(cs[k], steps[k])
    ensures AllGrown(cs[k], cs[k + 1], Addition(steps[k])) && Addition(steps[k]) <= Additions(steps)
    ensures |cs[k]| <= |cs[k + 1]| <= |cs[k]| + 1
    ensures |cs[k + 1]| > |cs[k]| ==>
              var s := cs[k + 1][|cs[k]|];
              s.kind == FORWARDING || (steps[k].EnsureZone? && s.kind == ZONE)
  {
    assert PerformsAt(cs, steps, k) && SetsNatFlag(steps[k]);
    StepGrows(cs[k], steps[k], cs[k + 1]);
  }

  /** Over a clean run sections only grow. */
  lemma {:induction false} RunGrows(cs: seq<Config>, steps: seq<Step>, k: nat)
    requires CleanRun(cs, steps) && Ordered(steps) && k <= |steps|
    ensures AllGrown(cs[k], cs[|steps|], Additions(steps))
    decreases |steps| - k
  {
    if k == |steps| {
      AllUnchangedIsGrown(cs[k], Additions(steps));
    } else {
      StepAtGrows(cs, steps, k);
      RunGrows(cs, steps, k + 1);
      AllGrownIsTransitive(cs[k], cs[k + 1], cs[|steps|], Addition(steps[k]), Additions(steps));
    }
  }

  lemma RunKeepsKind(cs: seq<Config>, steps: seq<Step>, k: nat, i: nat)
    requires CleanRun(cs, steps) && Ordered(steps) && k <= |steps| && i < |cs[k]|
    ensures i < |cs[|steps|]| && cs[|steps|][i].kind == cs[k][i].kind
  {
    RunGrows(cs, steps, k);
    assert Grown(cs[k][i], cs[|steps|][i], Additions(steps));
  }

  lemma StepAtAdds(cs: seq<Config>, steps: seq<Step>, k: nat)
    requires CleanRun(cs, steps) && Ordered(steps) && k < |steps|
    ensures |cs[k]| <= |cs[k + 1]| <= |cs[k]| + 1
    ensures |cs[k + 1]| > |cs[k]| ==>
              var s := cs[k + 1][|cs[k]|];
              s.kind == FORWARDING || (steps[k].EnsureZone? && s.kind == ZONE)
  {
    StepAtGrows(cs, steps, k);
  }

  /** What is added is a zone or a forwarding, and a zone only by a step that ensures one. */
  lemma {:induction false} RunAdds(cs: seq<Config>, steps: seq<Step>, k: nat, i: nat)
    requires CleanRun(cs, steps) && Ordered(steps) && k <= |steps| && |cs[k]| <= i < |cs[|steps|]|
    ensures cs[|steps|][i].kind in {FORWARDING, ZONE}
    ensures (forall j :: k <= j < |steps| ==> !steps[j].EnsureZone?) ==> cs[|steps|][i].kind == FORWARDING
    decreases |steps| - k
  {
    StepAtAdds(cs, steps, k);
    if i < |cs[k + 1]| {
      RunKeepsKind(cs, steps, k + 1, i);
    } else {
      RunAdds(cs, steps, k + 1, i);
    }
  }

  // ---- Requests do not look at networks ----------------------------------------

  lemma WithNetReads(x: Section, net: Option<seq<string>>)
    ensures var y := WithNet(x, net);
            && y.name == x.name && y.kind == x.kind
            && (forall o :: o != "network" ==> First(y, o) == First(x, o))
            && Net(y) == (if net.Some? then net else Net(x))
  {
  }

  /** t is b with some networks replaced. */
  ghost predicate Renetworked(b: Config, t: Config, nets: seq<Option<seq<string>>>) {
    |b| == |t| == |nets| && forall i :: 0 <= i < |b| ==> t[i] == WithNet(b[i], nets[i])
  }

  lemma PutCommutes(x: Section, net: Option<seq<string>>, key: string, values: seq<string>)
    requires key != "network"
    ensures Put(WithNet(x, net), key, values) == WithNet(Put(x, key, values), net)
    ensures Drop(WithNet(x, net), key) == WithNet(Drop(x, key), net)
  {
    if net.Some? {
      assert x.options["network" := net.value][key := values] == x.options[key := values]["network" := net.value];
      assert x.options["network" := net.value] - {key} == (x.options - {key})["network" := net.value];
    }
  }

  lemma SearchesIgnoreNetworks(b: Config, t: Config, nets: seq<Option<seq<string>>>, r: Request)
    requires Renetworked(b, t, nets)
    ensures EnabledMatch(t, r) == EnabledMatch(b, r)
    ensures Match(t, r) == Match(b, r)
    ensures DestZone(t, r.dest) == DestZone(b, r.dest)
  {
    forall i | 0 <= i < |b|
      ensures Forwards(t[i], r.src, r.dest) == Forwards(b[i], r.src, r.dest)
      ensures Enabled(t[i]) == Enabled(b[i]) && ZoneNamed(t[i], r.dest) == ZoneNamed(b[i], r.dest)
    {
      WithNetReads(b[i], nets[i]);
    }
  }

  lemma NatIgnoresNetworks(b: Config, t: Config, nets: seq<Option<seq<string>>>, r: Request)
    requires Renetworked(b, t, nets)
    ensures Renetworked(NatApplied(b, r.dest, r.natOnDest), NatApplied(t, r.dest, r.natOnDest), nets)
  {
    SearchesIgnoreNetworks(b, t, nets, r);
    var nb, nt := NatApplied(b, r.dest, r.natOnDest), NatApplied(t, r.dest, r.natOnDest);
    forall i | 0 <= i < |b| ensures nt[i] == WithNet(nb[i], nets[i]) {
      PutCommutes(b[i], nets[i], "mtu_fix", ["1"]);
      PutCommutes(Put(b[i], "mtu_fix", ["1"]), nets[i], "masq", ["1"]);
    }
  }

  lemma PreparedIgnoresNetworks(b: Config, t: Config, nets: seq<Option<seq<string>>>, r: Request)
    requires Renetworked(b, t, nets)
    ensures Renetworked(Prepared(b, r), Prepared(t, r), nets)
  {
    NatIgnoresNetworks(b, t, nets, r);
    var nb, nt := NatApplied(b, r.dest, r.natOnDest), NatApplied(t, r.dest, r.natOnDest);
    forall i | 0 <= i < |b| ensures Prepared(t, r)[i] == WithNet(Prepared(b, r)[i], nets[i]) {
      WithNetReads(nb[i], nets[i]);
      PutCommutes(nb[i], nets[i], "enabled", ["0"]);
    }
  }

  /** A request that finds its forwarding changes the same sections in the same way, whatever their networks. */
  lemma RequestIgnoresNetworks(b: Config, t: Config, nets: seq<Option<seq<string>>>, r: Request)
    requires Renetworked(b, t, nets) && Requested(b, r).Success? && Match(b, r).Some?
    ensures Requested(t, r).Success? && Renetworked(Requested(b, r).value, Requested(t, r).value, nets)
  {
    SearchesIgnoreNetworks(b, t, nets, r);
    if EnabledMatch(b, r).None? {
      var pb, pt := Prepared(b, r), Prepared(t, r);
      PreparedIgnoresNetworks(b, t, nets, r);
      MatchSurvivesPreparing(b, r);
      MatchSurvivesPreparing(t, r);
      var k := Match(b, r).value;
      PutCommutes(pb[k], nets[k], "enabled", ["0"]);
    }
  }

  // ---- The second run beside the first ------------------------------------------

  /**
   * t is where the second run stands when the first stood at s on its way to f: what
   * s holds it holds too, networks already grown, and what s lacks it holds as the
   * reset left it.
   */
  ghost predicate Beside(s: Config, t: Config, f: Config) {
    && |s| <= |t| == |f|
    && (forall i :: 0 <= i < |s| ==> t[i] == WithNet(s[i], Net(f[i])))
    && (forall i :: |s| <= i < |t| ==> t[i] == Quieted(f[i]))
  }

  /** In the sections of s the second run finds the same networks, but for added ones. */
  lemma SameListers(s: Config, t: Config, f: Config, extra: set<string>, network: string, i: nat)
    requires Beside(s, t, f) && AllGrown(s, f, extra) && network !in extra && i < |s|
    ensures ListsNetwork(t[i], network) <==> ListsNetwork(s[i], network)
    ensures First(t[i], "name") == First(s[i], "name")
  {
    assert Grown(s[i], f[i], extra);
    WithNetReads(s[i], Net(f[i]));
  }

  lemma EnsureBeside(s: Config, n: Config, t: Config, f: Config, extra: set<string>, network: string, name: string)
    requires Beside(s, t, f) && AllGrown(s, f, extra) && AllGrown(n, f, extra) && network !in extra
    requires ZoneCall(s, network, name, n) && !HiddenByUnnamed(s, network)
    ensures ZoneCall(t, network, name, t) && Beside(n, t, f)
  {
    forall i | 0 <= i < |s|
      ensures ListsNetwork(t[i], network) == ListsNetwork(s[i], network) && First(t[i], "name") == First(s[i], "name")
    {
      SameListers(s, t, f, extra, network, i);
    }
    if ZoneNameFor(s, network) != "" {
      assert Lister(t, network) == Lister(s, network);
    } else {
      CandidateIsNotEmpty(s, network, name);
      NewZoneBeside(s, n, t, f, extra, network, name);
      assert Lister(t, network) == Some(|s|);
    }
  }

  /** A zone the first run adds stands in the second run's store, lists its network and has its name. */
  lemma NewZoneBeside(s: Config, n: Config, t: Config, f: Config, extra: set<string>, network: string, name: string)
    requires Beside(s, t, f) && AllGrown(n, f, extra) && n == s + [NewZone(name, network)]
    ensures |s| < |t| && ListsNetwork(t[|s|], network) && First(t[|s|], "name") == Some(name)
    ensures Beside(n, t, f)
  {
    var k, z := |s|, NewZone(name, network);
    assert n[k] == z && Grown(z, f[k], extra);
    assert network in Networks(f[k]);
    QuietedWithNet(z, Net(f[k]));
    assert Quieted(z) == z by { assert z.options - {"mtu_fix"} - {"masq"} == z.options; }
    WithNetReads(z, Net(f[k]));
  }

  lemma OptionBeside(s: Config, n: Config, t: Config, f: Config, zone: string, key: string, value: string) returns (u: Config)
    requires Beside(s, t, f) && key != "network" && Optioned(s, zone, key, value) == Some(n)
    ensures Optioned(t, zone, key, value) == Some(u) && Beside(n, u, f)
  {
    var k := DestZone(s, zone).value;
    SameZone(s, t, f, zone);
    u := t[k := Put(t[k], key, [value])];
    PutCommutes(s[k], Net(f[k]), key, [value]);
  }

  lemma SameZone(s: Config, t: Config, f: Config, zone: string)
    requires Beside(s, t, f) && DestZone(s, zone).Some?
    ensures DestZone(t, zone) == DestZone(s, zone)
  {
    forall i | 0 <= i < |s| ensures ZoneNamed(t[i], zone) == ZoneNamed(s[i], zone) {
      WithNetReads(s[i], Net(f[i]));
    }
  }

  lemma AppendBeside(s: Config, n: Config, t: Config, f: Config, extra: set<string>, zone: string, network: string)
    requires Beside(s, t, f) && AllGrown(n, f, extra) && Appended(s, zone, network) == Some(n)
    ensures Appended(t, zone, network) == Some(t) && Beside(n, t, f)
  {
    var k := DestZone(s, zone).value;
    SameZone(s, t, f, zone);
    assert Grown(n[k], f[k], extra);
    WithNetReads(s[k], Net(f[k]));
    assert network in Networks(n[k]);
    if network !in Networks(s[k]) {
      assert s[k].options["network" := Networks(s[k]) + [network]]["network" := Net(f[k]).value] == s[k].options["network" := Net(f[k]).value];
    }
  }

  /** s, and behind it the second run's switched-off sections. */
  function Joined(s: Config, t: Config): Config
    requires |s| <= |t|
  {
    s + t[|s|..]
  }

  lemma NewForwardingBeside(s: Config, n: Config, t: Config, f: Config, extra: set<string>, r: Request)
    requires Beside(s, t, f) && AllGrown(n, f, extra) && Requested(s, r) == Success(n) && Fresh(s, r) && |n| > |s|
    ensures |t| > |s| && t[|s|] == Quieted(n[|s|]) && Net(f[|s|]).None? && Forwards(t[|s|], r.src, r.dest)
  {
    RequestKeepsOldSections(s, r);
    assert Grown(n[|s|], f[|s|], extra);
    RevivedIsNew(SectionName(s, r), r.src, r.dest);
  }

  function KeptNets(s: Config, f: Config): (nets: seq<Option<seq<string>>>)
    requires |s| <= |f|
    ensures |nets| == |f|
  {
    seq(|f|, i requires 0 <= i < |f| => if i < |s| then Net(f[i]) else None)
  }

  lemma JoinedIsRenetworked(s: Config, t: Config, f: Config)
    requires Beside(s, t, f) && forall i :: |s| <= i < |f| ==> f[i].kind == FORWARDING
    ensures var b := Joined(s, t);
            |b| == |t| && b[..|s|] == s && TailIsOff(b, |s|) && Renetworked(b, t, KeptNets(s, f))
  {
  }

  /** The request meets its forwarding in the joined store, and changes it as the first run changed s. */
  lemma RequestJoined(s: Config, n: Config, t: Config, f: Config, extra: set<string>, r: Request) returns (m: Config)
    requires Beside(s, t, f) && AllGrown(n, f, extra) && Requested(s, r) == Success(n) && Fresh(s, r)
    requires var b := Joined(s, t); |b| == |t| && b[..|s|] == s && TailIsOff(b, |s|)
    ensures var b := Joined(s, t);
            && Requested(b, r) == Success(m) && Match(b, r).Some?
            && |s| <= |n| <= |t| && |m| == |b| && m[..|n|] == n && m[|n|..] == b[|n|..]
    ensures forall i :: |s| <= i < |n| ==> Net(f[i]).None?
  {
    var b := Joined(s, t);
    RequestKeepsOldSections(s, r);
    if |n| > |s| {
      NewForwardingBeside(s, n, t, f, extra, r);
      assert b[|s|] == t[|s|];
    }
    RequestWithTail(s, b, r);
    SearchesIgnoreTail(s, b, r);
    MatchedOrAdded(s, n, r);
    m := Requested(b, r).value;
  }

  lemma MatchedOrAdded(s: Config, n: Config, r: Request)
    requires Requested(s, r) == Success(n) && Fresh(s, r)
    ensures Match(s, r).Some? || |n| > |s|
  {
    MatchSurvivesPreparing(s, r);
  }

  lemma ForwardBeside(s: Config, n: Config, t: Config, f: Config, extra: set<string>, r: Request) returns (u: Config)
    requires Beside(s, t, f) && AllGrown(n, f, extra) && Requested(s, r) == Success(n) && Fresh(s, r)
    requires forall i :: |s| <= i < |f| ==> f[i].kind == FORWARDING
    ensures Requested(t, r) == Success(u) && Beside(n, u, f)
  {
    var b, nets := Joined(s, t), KeptNets(s, f);
    JoinedIsRenetworked(s, t, f);
    var m := RequestJoined(s, n, t, f, extra, r);
    RequestIgnoresNetworks(b, t, nets, r);
    u := Requested(t, r).value;
    AfterForward(s, n, t, f, b, m, u, nets);
  }

  lemma AfterForward(s: Config, n: Config, t: Config, f: Config, b: Config, m: Config, u: Config, nets: seq<Option<seq<string>>>)
    requires Beside(s, t, f) && |s| <= |n| <= |t| && b == Joined(s, t)
    requires |m| == |b| && m[..|n|] == n && m[|n|..] == b[|n|..] && Renetworked(m, u, nets)
    requires |nets| == |t| && forall i :: 0 <= i < |t| ==> nets[i] == if i < |s| then Net(f[i]) else None
    requires forall i :: |s| <= i < |n| ==> Net(f[i]).None?
    ensures Beside(n, u, f)
  {
    assert forall i :: 0 <= i < |n| ==> m[i] == n[i];
    forall i | |n| <= i < |t| ensures u[i] == Quieted(f[i]) {
      assert m[i] == m[|n|..][i - |n|] == b[|n|..][i - |n|] == b[i] == t[i];
    }
  }

  /** One step of both runs. */
  lemma StepBeside(cs: seq<Config>, steps: seq<Step>, k: nat, t: Config) returns (u: Config)
    requires CleanRun(cs, steps) && Ordered(steps) && Apart(steps) && k < |steps|
    requires Beside(cs[k], t, cs[|steps|])
    ensures Performs(t, steps[k], u) && Beside(cs[k + 1], u, cs[|steps|])
  {
    var s, n, f, extra := cs[k], cs[k + 1], cs[|steps|], Additions(steps);
    StepAtGrows(cs, steps, k);
    RunGrows(cs, steps, k);
    RunGrows(cs, steps, k + 1);
    match steps[k]
    case EnsureZone(network) =>
      var name :| ZoneCall(s, network, name, n);
      EnsureBeside(s, n, t, f, extra, network, name);
      u := t;
    case ZoneOption(zone, key, value) =>
      assert SetsNatFlag(steps[k]);
      u := OptionBeside(s, n, t, f, zone, key, value);
    case AppendNetwork(zone, network) =>
      AppendBeside(s, n, t, f, extra, zone, network);
      u := t;
    case Forward(r) =>
      forall i | |s| <= i < |f| ensures f[i].kind == FORWARDING {
        RunAdds(cs, steps, k, i);
      }
      u := ForwardBeside(s, n, t, f, extra, r);
  }

  /** The second run keeps beside the first, and ends with it. */
  lemma {:induction false} RunBeside(cs: seq<Config>, steps: seq<Step>, t: Config, k: nat) returns (ts: seq<Config>)
    requires CleanRun(cs, steps) && Ordered(steps) && Apart(steps) && k <= |steps|
    requires Beside(cs[0], t, cs[|steps|])
    ensures |ts| == k + 1 && ts[0] == t && Beside(cs[k], ts[k], cs[|steps|])
    ensures forall j :: 0 <= j < k ==> Performs(ts[j], steps[j], ts[j + 1])
  {
    if k == 0 {
      ts := [t];
    } else {
      ts := RunBeside(cs, steps, t, k - 1);
      var u := StepBeside(cs, steps, k - 1, ts[k - 1]);
      ts := ts + [u];
    }
  }

  lemma BesideAtTheEnd(t: Config, f: Config)
    requires Beside(f, t, f)
    ensures t == f
  {
    forall i | 0 <= i < |f| ensures t[i] == f[i] {
      if Net(f[i]).Some? { assert f[i].options["network" := f[i].options["network"]] == f[i].options; }
    }
  }

  // ---- Whole scenarios ----------------------------------------------------------

  /** After the last step, the rules. */
  ghost predicate Scenario(c: Config, steps: seq<Step>, rules: seq<Rule>, cs: seq<Config>, g: Config) {
    Run(cs, steps) && cs[0] == Reset(c) && AddedRules(cs[|steps|], rules) == Success(g)
  }

  lemma ResetOfScenario(c: Config, steps: seq<Step>, rules: seq<Rule>, cs: seq<Config>, g: Config)
    requires Scenario(c, steps, rules, cs, g) && CleanRun(cs, steps) && Ordered(steps)
    ensures Reset(g) == Quiet(cs[|steps|]) && Beside(cs[0], Reset(g), cs[|steps|])
  {
    var a, f := cs[0], cs[|steps|];
    ResetLeavesNoRules(c);
    RunGrows(cs, steps, 0);
    assert NoRules(f) by {
      forall i | 0 <= i < |f| ensures f[i].kind != RULE {
        if i < |a| { assert Grown(a[i], f[i], Additions(steps)); } else { RunAdds(cs, steps, 0, i); }
      }
    }
    AddedRulesAppend(f, rules);
    RemovedRulesAreGone(f, RuleSections(rules, 0));
    ResetIsReset(c);
    forall i | 0 <= i < |a| ensures Quiet(f)[i] == WithNet(a[i], Net(f[i])) {
      assert Grown(a[i], f[i], Additions(steps));
      QuietedWithNet(a[i], Net(f[i]));
      assert Quiet(a)[i] == a[i];
    }
  }

  /**
   * Running a scenario a second time is possible, and ends in the very configuration
   * the first run left.
   */
  lemma ScenarioTwiceIsOnce(c: Config, steps: seq<Step>, rules: seq<Rule>, cs: seq<Config>, g: Config)
    requires Scenario(c, steps, rules, cs, g) && CleanRun(cs, steps) && Ordered(steps) && Apart(steps)
    ensures exists ts :: Scenario(g, steps, rules, ts, g)
    ensures forall ts, h :: Scenario(g, steps, rules, ts, h) ==> h == g
  {
    ResetOfScenario(c, steps, rules, cs, g);
    var ts := RunBeside(cs, steps, Reset(g), |steps|);
    BesideAtTheEnd(ts[|steps|], cs[|steps|]);
    assert Run(ts, steps) by {
      forall k | 0 <= k < |steps| ensures PerformsAt(ts, steps, k) {
        assert Performs(ts[k], steps[k], ts[k + 1]);
      }
    }
    assert Scenario(g, steps, rules, ts, g);
    forall us, h | Scenario(g, steps, rules, us, h) ensures h == g {
      assert forall j :: 0 <= j < |steps| ==> PerformsAt(ts, steps, j);
      RunIsFunctional(ts, us, steps, |steps|);
    }
  }

  // ---- The steps on the store --------------------------------------------------------

  method SetZoneOption(store: UciStore, zone: string, key: string, value: string) returns (ok: bool)
    requires store.Valid()
    modifies store
    ensures store.Valid()
    ensures ok <==> zone != "" && DestZone(old(store.sections), zone).Some?
    ensures if ok then Optioned(old(store.sections), zone, key, value) == Some(store.sections)
            else store.sections == old(store.sections)
  {
    ghost var was := store.sections;
    if zone == "" {
      return false;
    }
    var found := store.ZoneSectionByName(zone);
    if found.None? {
      return false;
    }
    ghost var k := DestZone(was, zone).value;
    UniqueFoundByName(was, k);
    store.SetType(found.value, key, [value]);
    assert store.sections == was[k := Put(was[k], key, [value])];
    ok := true;
  }

  method AppendZoneNetwork(store: UciStore, zone: string, network: string) returns (ok: bool)
    requires store.Valid()
    modifies store
    ensures store.Valid()
    ensures ok <==> zone != "" && network != "" && DestZone(old(store.sections), zone).Some?
    ensures if ok then Appended(old(store.sections), zone, network) == Some(store.sections)
            else store.sections == old(store.sections)
  {
    ghost var was := store.sections;
    if zone == "" || network == "" {
      return false;
    }
    var found := store.ZoneSectionByName(zone);
    if found.None? {
      return false;
    }
    UniqueFoundByName(was, DestZone(was, zone).value);
    var k := store.Find(found.value);
    var existing := Networks(store.sections[k]);
    if network !in existing {
      store.SetType(found.value, "network", existing + [network]);
      assert store.sections == was[k := Put(was[k], "network", existing + [network])];
    }
    ok := true;
  }

  /** A zone call that fails could not have succeeded. */
  lemma NoZoneCall(c: Config, network: string)
    requires network == "" || (ZoneNameFor(c, network) == ""
                               && exists k :: FirstFree(c, network, k) && NameUsed(c, Candidate(network, k)))
    ensures forall name, next :: !ZoneCall(c, network, name, next)
  {
    if network != "" {
      var i :| FirstFree(c, network, i) && NameUsed(c, Candidate(network, i));
      forall j | FirstFree(c, network, j) ensures j == i {
        FirstFreeIsUnique(c, network, i, j);
      }
    }
  }

  method PerformStep(store: UciStore, s: Step) returns (ok: bool)
    requires store.Valid()
    modifies store
    ensures store.Valid()
    ensures ok ==> Performs(old(store.sections), s, store.sections)
    ensures !ok ==> forall next :: !Performs(old(store.sections), s, next)
  {
    match s
    case EnsureZone(network) =>
      ghost var was := store.sections;
      var result := GetOrCreateZone(store, network);
      ok := result.Success?;
      if !ok {
        assert result.error.EmptyZoneName? || result.error.SectionTypeMismatch?;
        assert result == Failure(EmptyZoneName) || result == Failure(SectionTypeMismatch);
        NoZoneCall(was, network);
      }
    case ZoneOption(zone, key, value) =>
      ok := SetZoneOption(store, zone, key, value);
    case AppendNetwork(zone, network) =>
      ok := AppendZoneNetwork(store, zone, network);
    case Forward(r) =>
      var result := store.GetOrCreateForwarding(r);
      ok := result.Success?;
  }

  /** A step that cannot be taken stops every run that comes this way. */
  lemma NobodyPasses(cs: seq<Config>, steps: seq<Step>, n: nat)
    requires n < |steps| && |cs| == n + 1
    requires forall j :: 0 <= j < n ==> Performs(cs[j], steps[j], cs[j + 1])
    requires forall next :: !Performs(cs[n], steps[n], next)
    ensures forall ds :: Run(ds, steps) ==> ds[0] != cs[0]
  {
    forall ds | Run(ds, steps) ensures ds[0] != cs[0] {
      assert PerformsAt(ds, steps, n);
      if ds[0] == cs[0] {
        RunIsFunctional(cs, ds, steps, n);
      }
    }
  }

  /** Reset, the steps in order, the default rules: it succeeds exactly if the scenario has an outcome, and leaves it. */
  method RunScenario(store: UciStore, steps: seq<Step>, localZone: string) returns (ok: bool, ghost cs: seq<Config>)
    requires store.Valid() && localZone != ""
    modifies store
    ensures store.Valid()
    ensures ok ==> Scenario(old(store.sections), steps, DefaultRules(localZone), cs, store.sections)
    ensures !ok ==> forall ds, g :: !Scenario(old(store.sections), steps, DefaultRules(localZone), ds, g)
  {
    ghost var was := store.sections;
    store.ResetFirewall();
    cs := [store.sections];
    for n := 0 to |steps|
      invariant store.Valid() && |cs| == n + 1 && cs[0] == Reset(was) && cs[n] == store.sections
      invariant forall j :: 0 <= j < n ==> Performs(cs[j], steps[j], cs[j + 1])
    {
      ok := PerformStep(store, steps[n]);
      if !ok {
        NobodyPasses(cs, steps, n);
        return;
      }
      cs := cs + [store.sections];
    }
    assert Run(cs, steps) by {
      forall k | 0 <= k < |steps| ensures PerformsAt(cs, steps, k) {
        assert Performs(cs[k], steps[k], cs[k + 1]);
      }
    }
    forall ds | Run(ds, steps) && ds[0] == Reset(was) ensures ds[|steps|] == cs[|steps|] {
      RunIsFunctional(cs, ds, steps, |steps|);
    }
    var error := store.AddDefaultWanFirewallRules(localZone);
    ok := error.None?;
  }
}
