/**
 * The setup wizard's firewall passes over an ordered store of named sections.
 *
 * A run resets the configuration (no rules, every forwarding disabled, no NAT
 * flags on zones), asks for a list of forwardings and writes the default rules.
 */
module FirewallWizard {
  import opened Outcomes
  import opened Text

  datatype Section = Section(name: string, kind: string, options: map<string, seq<string>>)

  type Config = seq<Section>

  const ZONE := "zone"
  const FORWARDING := "forwarding"
  const RULE := "rule"

  datatype WizardError = EmptyZoneName | SectionTypeMismatch

  // ---- Reading the store ---------------------------------------------------------

  function First(s: Section, option: string): Option<string> {
    if option in s.options && s.options[option] != [] then Some(s.options[option][0]) else None
  }

  function Put(s: Section, option: string, values: seq<string>): Section {
    s.(options := s.options[option := values])
  }

  function Drop(s: Section, option: string): Section {
    s.(options := s.options - {option})
  }

  function Count(c: Config, kind: string): (n: nat)
    ensures n <= |c|
  {
    if c == [] then 0 else (if c[0].kind == kind then 1 else 0) + Count(c[1..], kind)
  }

  predicate NameUsed(c: Config, name: string) {
    exists i :: 0 <= i < |c| && c[i].name == name
  }

  predicate Forwards(s: Section, src: string, dest: string) {
    s.kind == FORWARDING && First(s, "src") == Some(src) && First(s, "dest") == Some(dest)
  }

  predicate FromSource(s: Section, src: string) {
    s.kind == FORWARDING && First(s, "src") == Some(src)
  }

  /** Absent, empty or anything but 0 means enabled. */
  predicate Enabled(s: Section): (r: bool)
    ensures r <==> !("enabled" in s.options && |s.options["enabled"]| > 0 && s.options["enabled"][0] == "0")
  {
    First(s, "enabled") != Some("0")
  }

  predicate ZoneNamed(s: Section, name: string) {
    s.kind == ZONE && First(s, "name") == Some(name)
  }

  /** The first index whose section satisfies p. */
  function FindFirst(c: Config, p: Section -> bool): (r: Option<nat>)
    ensures r.Some? ==> r.value < |c| && p(c[r.value]) && forall i :: 0 <= i < r.value ==> !p(c[i])
    ensures r.None? ==> forall i :: 0 <= i < |c| ==> !p(c[i])
  {
    if c == [] then None
    else if p(c[0]) then Some(0)
    else match FindFirst(c[1..], p)
         case None => None
         case Some(i) =>
           assert forall j :: 1 <= j < i + 1 ==> c[j] == c[1..][j - 1];
           Some(i + 1)
  }

  function DestZone(c: Config, dest: string): (r: Option<nat>)
    ensures r.Some? ==> r.value < |c| && ZoneNamed(c[r.value], dest)
                        && forall i :: 0 <= i < r.value ==> !ZoneNamed(c[i], dest)
    ensures r.None? ==> forall i :: 0 <= i < |c| ==> !ZoneNamed(c[i], dest)
  {
    FindFirst(c, (s: Section) => ZoneNamed(s, dest))
  }

  function Named(c: Config, name: string): (r: Option<nat>)
    ensures r.Some? ==> r.value < |c| && c[r.value].name == name
                        && forall i :: 0 <= i < r.value ==> c[i].name != name
    ensures r.None? <==> !NameUsed(c, name)
  {
    FindFirst(c, (s: Section) => s.name == name)
  }

  function Match(c: Config, r: Request): (m: Option<nat>)
    ensures m.Some? ==> m.value < |c| && Forwards(c[m.value], r.src, r.dest)
                        && forall i :: 0 <= i < m.value ==> !Forwards(c[i], r.src, r.dest)
    ensures m.None? ==> forall i :: 0 <= i < |c| ==> !Forwards(c[i], r.src, r.dest)
  {
    FindFirst(c, (s: Section) => Forwards(s, r.src, r.dest))
  }

  predicate EnabledForwards(s: Section, src: string, dest: string) {
    Forwards(s, src, dest) && Enabled(s)
  }

  function EnabledMatch(c: Config, r: Request): (m: Option<nat>)
    ensures m.Some? ==> m.value < |c| && EnabledForwards(c[m.value], r.src, r.dest)
                        && forall i :: 0 <= i < m.value ==> !EnabledForwards(c[i], r.src, r.dest)
    ensures m.None? ==> forall i :: 0 <= i < |c| ==> !EnabledForwards(c[i], r.src, r.dest)
  {
    FindFirst(c, (s: Section) => EnabledForwards(s, r.src, r.dest))
  }

  // ---- Reset -----------------------------------------------------------------------

  function RemoveRules(c: Config): Config {
    if c == [] then []
    else (if c[0].kind == RULE then [] else [c[0]]) + RemoveRules(c[1..])
  }

  /** A section as the reset leaves it: forwardings off, zones without NAT flags. */
  function Quieted(s: Section): Section {
    if s.kind == FORWARDING then Put(s, "enabled", ["0"])
    else if s.kind == ZONE then Drop(Drop(s, "mtu_fix"), "masq")
    else s
  }

  function Quiet(c: Config): (r: Config)
    ensures |r| == |c|
  {
    seq(|c|, i requires 0 <= i < |c| => Quieted(c[i]))
  }

  function Reset(c: Config): Config {
    Quiet(RemoveRules(c))
  }

  // ---- One forwarding ------------------------------------------------------------

  /** A call of GetOrCreateForwarding. */
  datatype Request = Request(src: string, dest: string, name: string, natOnDest: bool)

  function WithNat(s: Section, natOnDest: bool): Section {
    var fixed := Put(s, "mtu_fix", ["1"]);
    if natOnDest then Put(fixed, "masq", ["1"]) else fixed
  }

  /** The first zone named dest gets the MSS clamp, and masquerading when asked for. */
  function NatApplied(c: Config, dest: string, natOnDest: bool): (r: Config)
    ensures |r| == |c|
  {
    match DestZone(c, dest)
    case None => c
    case Some(k) => c[k := WithNat(c[k], natOnDest)]
  }

  function SourceDisabled(c: Config, src: string): (r: Config)
    ensures |r| == |c|
  {
    seq(|c|, i requires 0 <= i < |c| => if FromSource(c[i], src) then Put(c[i], "enabled", ["0"]) else c[i])
  }

  function Prepared(c: Config, r: Request): (p: Config)
    ensures |p| == |c|
  {
    SourceDisabled(NatApplied(c, r.dest, r.natOnDest), r.src)
  }

  /** The name asked for, or one made from the number of forwardings there are. */
  function SectionName(c: Config, r: Request): (name: string)
    ensures name == if r.name != "" then r.name else "wizard_fwd_" + Decimal(Count(c, "forwarding"))
  {
    if r.name == "" then "wizard_fwd_" + Decimal(Count(c, FORWARDING)) else r.name
  }

  function NewForwarding(name: string, src: string, dest: string): Section {
    Section(name, FORWARDING, map["src" := [src], "dest" := [dest]])
  }

  /** A forwarding section pointed at another pair of zones. */
  function Repointed(s: Section, src: string, dest: string): Section {
    Put(Put(s, "src", [src]), "dest", [dest])
  }

  /** Adding a section that exists with the same type changes nothing; the two options are written either way. */
  function Created(c: Config, name: string, src: string, dest: string): Result<Config, WizardError> {
    match Named(c, name)
    case None => Success(c + [NewForwarding(name, src, dest)])
    case Some(k) =>
      if c[k].kind != FORWARDING then Failure(SectionTypeMismatch)
      else Success(c[k := Repointed(c[k], src, dest)])
  }

  function Requested(c: Config, r: Request): Result<Config, WizardError> {
    if r.src == "" || r.dest == "" then Failure(EmptyZoneName)
    else if EnabledMatch(c, r).Some? then Success(c)
    else
      var p := Prepared(c, r);
      match Match(p, r)
      case Some(k) => Success(p[k := Drop(p[k], "enabled")])
      case None => Created(p, SectionName(c, r), r.src, r.dest)
  }

  /** The name of the section a request returns. */
  function Chosen(c: Config, r: Request): string {
    if EnabledMatch(c, r).Some? then c[EnabledMatch(c, r).value].name
    else if Match(c, r).Some? then c[Match(c, r).value].name
    else SectionName(c, r)
  }

  function RequestedAll(c: Config, rs: seq<Request>): Result<Config, WizardError>
    decreases |rs|
  {
    if rs == [] then Success(c)
    else match Requested(c, rs[0])
         case Failure(e) => Failure(e)
         case Success(next) => RequestedAll(next, rs[1..])
  }

  /** A request that adds its section, if it needs one, under an unused name. */
  predicate Fresh(c: Config, r: Request) {
    Match(c, r).None? ==> !NameUsed(c, SectionName(c, r))
  }

  predicate FreshAll(c: Config, rs: seq<Request>)
    decreases |rs|
  {
    rs == [] || (Fresh(c, rs[0])
                 && (Requested(c, rs[0]).Success? ==> FreshAll(Requested(c, rs[0]).value, rs[1..])))
  }

  // ---- What a request leaves alone ---------------------------------------------

  /** The reset sees no difference between the two sections, and they forward alike. */
  predicate Alike(s: Section, t: Section) {
    && Quieted(s) == Quieted(t) && s.name == t.name && s.kind == t.kind
    && First(s, "src") == First(t, "src") && First(s, "dest") == First(t, "dest")
    && First(s, "name") == First(t, "name")
  }

  lemma WithNatIsAlike(s: Section, natOnDest: bool)
    requires s.kind == ZONE
    ensures Alike(WithNat(s, natOnDest), s)
  {
    assert (s.options["mtu_fix" := ["1"]]["masq" := ["1"]] - {"mtu_fix"}) - {"masq"} == (s.options - {"mtu_fix"}) - {"masq"};
    assert (s.options["mtu_fix" := ["1"]] - {"mtu_fix"}) - {"masq"} == (s.options - {"mtu_fix"}) - {"masq"};
  }

  lemma SwitchedIsAlike(s: Section)
    requires s.kind == FORWARDING
    ensures Alike(Put(s, "enabled", ["0"]), s)
    ensures Alike(Drop(s, "enabled"), s)
  {
    assert s.options["enabled" := ["0"]]["enabled" := ["0"]] == s.options["enabled" := ["0"]];
    assert (s.options - {"enabled"})["enabled" := ["0"]] == s.options["enabled" := ["0"]];
  }

  /** Preparing touches only what the reset would undo. */
  lemma PreparedIsAlike(c: Config, r: Request)
    ensures forall i :: 0 <= i < |c| ==> Alike(Prepared(c, r)[i], c[i])
  {
    var n := NatApplied(c, r.dest, r.natOnDest);
    forall i | 0 <= i < |c| ensures Alike(n[i], c[i]) {
      if c[i].kind == ZONE { WithNatIsAlike(c[i], r.natOnDest); }
    }
    forall i | 0 <= i < |c| ensures Alike(Prepared(c, r)[i], c[i]) {
      assert Alike(n[i], c[i]);
      if n[i].kind == FORWARDING { SwitchedIsAlike(n[i]); }
    }
  }

  /** The match is looked for before and after preparing; both searches agree. */
  lemma MatchSurvivesPreparing(c: Config, r: Request)
    ensures Match(Prepared(c, r), r) == Match(c, r)
    ensures forall name :: NameUsed(Prepared(c, r), name) == NameUsed(c, name)
  {
    PreparedIsAlike(c, r);
    var p := Prepared(c, r);
    assert forall i :: 0 <= i < |c| ==> Forwards(p[i], r.src, r.dest) == Forwards(c[i], r.src, r.dest);
    forall name ensures NameUsed(p, name) == NameUsed(c, name) {
      if i :| 0 <= i < |c| && c[i].name == name { assert p[i].name == name; }
      if i :| 0 <= i < |c| && p[i].name == name { assert c[i].name == name; }
    }
  }

  /** A fresh request that succeeds changes nothing the reset keeps, and adds at most one section. */
  lemma RequestKeepsOldSections(c: Config, r: Request)
    requires Fresh(c, r) && Requested(c, r).Success?
    ensures |c| <= |Requested(c, r).value| <= |c| + 1
    ensures forall i :: 0 <= i < |c| ==> Alike(Requested(c, r).value[i], c[i])
    ensures |Requested(c, r).value| > |c| ==>
              && EnabledMatch(c, r).None? && Match(c, r).None?
              && Requested(c, r).value == Prepared(c, r) + [NewForwarding(SectionName(c, r), r.src, r.dest)]
  {
    var p := Prepared(c, r);
    PreparedIsAlike(c, r);
    MatchSurvivesPreparing(c, r);
    if EnabledMatch(c, r).None? && Match(p, r).Some? {
      SwitchedIsAlike(p[Match(p, r).value]);
    }
  }

  lemma {:induction false} RunKeepsOldSections(c: Config, rs: seq<Request>)
    requires FreshAll(c, rs) && RequestedAll(c, rs).Success?
    ensures |c| <= |RequestedAll(c, rs).value|
    ensures forall i :: 0 <= i < |c| ==> Alike(RequestedAll(c, rs).value[i], c[i])
    ensures forall i :: |c| <= i < |RequestedAll(c, rs).value| ==> RequestedAll(c, rs).value[i].kind == FORWARDING
    decreases |rs|
  {
    if rs != [] {
      var next := Requested(c, rs[0]).value;
      RequestKeepsOldSections(c, rs[0]);
      RunKeepsOldSections(next, rs[1..]);
      assert forall i :: 0 <= i < |c| ==> Alike(next[i], c[i]);
    }
  }

  /** Requests that can be checked beforehand: each finds its forwarding or has a name of its own that is unused. */
  predicate WellNamed(c: Config, rs: seq<Request>) {
    && (forall k :: 0 <= k < |rs| ==> rs[k].name != "" && Fresh(c, rs[k]))
    && (forall j, k :: 0 <= j < k < |rs| && rs[j].name == rs[k].name ==> rs[j].src == rs[k].src && rs[j].dest == rs[k].dest)
  }

  lemma RequestKeepsFresh(c: Config, r: Request, later: Request)
    requires Fresh(c, r) && Requested(c, r).Success? && r.name != ""
    requires Fresh(c, later) && later.name != ""
    requires r.name == later.name ==> r.src == later.src && r.dest == later.dest
    ensures Fresh(Requested(c, r).value, later)
  {
    var next := Requested(c, r).value;
    FreshKeepsLinks(c, r, later.src, later.dest);
    if Match(next, later).None? {
      assert forall i :: 0 <= i < |c| ==> !Forwards(c[i], later.src, later.dest);
      forall i | 0 <= i < |next| ensures next[i].name != later.name {
        assert !Forwards(next[i], later.src, later.dest);
      }
    }
  }

  lemma FreshKeepsLinks(c: Config, r: Request, src: string, dest: string)
    requires Fresh(c, r) && Requested(c, r).Success? && r.name != ""
    ensures var next := Requested(c, r).value;
            && |c| <= |next|
            && (forall i :: 0 <= i < |c| ==> next[i].name == c[i].name && Forwards(next[i], src, dest) == Forwards(c[i], src, dest))
            && (forall i :: |c| <= i < |next| ==> next[i] == NewForwarding(r.name, r.src, r.dest))
  {
    RequestKeepsOldSections(c, r);
    var next := Requested(c, r).value;
    assert forall i :: 0 <= i < |c| ==> Alike(next[i], c[i]);
  }

  /** Such requests stay so while they run. */
  lemma {:induction false} WellNamedIsFreshAll(c: Config, rs: seq<Request>)
    requires WellNamed(c, rs)
    ensures FreshAll(c, rs)
    decreases |rs|
  {
    if rs != [] && Requested(c, rs[0]).Success? {
      var next := Requested(c, rs[0]).value;
      forall k | 0 <= k < |rs[1..]| ensures rs[1..][k].name != "" && Fresh(next, rs[1..][k]) {
        assert rs[1..][k] == rs[k + 1];
        RequestKeepsFresh(c, rs[0], rs[k + 1]);
      }
      WellNamedIsFreshAll(next, rs[1..]);
    }
  }

  // ---- A second run follows the first --------------------------------------------

  /** A forwarding the reset has switched off, or that is still off. */
  predicate Off(s: Section) {
    s.kind == FORWARDING && "enabled" in s.options && s.options["enabled"] == ["0"]
  }

  predicate TailIsOff(b: Config, from: nat) {
    forall i :: from <= i < |b| ==> Off(b[i])
  }

  /** A section added by the first run, as the second run finds it. */
  lemma RevivedIsNew(name: string, src: string, dest: string)
    ensures Drop(Quieted(NewForwarding(name, src, dest)), "enabled") == NewForwarding(name, src, dest)
    ensures Quieted(Quieted(NewForwarding(name, src, dest))) == Quieted(NewForwarding(name, src, dest))
    ensures Forwards(Quieted(NewForwarding(name, src, dest)), src, dest)
  {
    var s := NewForwarding(name, src, dest);
    assert s.options["enabled" := ["0"]] - {"enabled"} == s.options;
    assert s.options["enabled" := ["0"]]["enabled" := ["0"]] == s.options["enabled" := ["0"]];
  }

  lemma OffStaysOff(s: Section)
    requires Off(s)
    ensures Put(s, "enabled", ["0"]) == s
  {
    assert s.options["enabled" := ["0"]] == s.options;
  }

  /** Preparing the longer store prepares the shorter one and leaves the switched-off tail alone. */
  lemma PreparedWithTail(a: Config, b: Config, r: Request)
    requires |a| <= |b| && b[..|a|] == a && TailIsOff(b, |a|)
    ensures Prepared(b, r)[..|a|] == Prepared(a, r)
    ensures Prepared(b, r)[|a|..] == b[|a|..]
  {
    assert forall i :: 0 <= i < |a| ==> b[i] == a[i];
    assert forall i :: |a| <= i < |b| ==> !ZoneNamed(b[i], r.dest);
    assert DestZone(b, r.dest) == DestZone(a, r.dest);
    var na, nb := NatApplied(a, r.dest, r.natOnDest), NatApplied(b, r.dest, r.natOnDest);
    assert forall i :: 0 <= i < |a| ==> nb[i] == na[i];
    forall i | |a| <= i < |b| ensures Prepared(b, r)[i] == b[i] {
      assert nb[i] == b[i];
      OffStaysOff(b[i]);
    }
  }

  /** A request answered inside the shorter store has the same effect in the longer one. */
  lemma SearchesIgnoreTail(a: Config, b: Config, r: Request)
    requires |a| <= |b| && b[..|a|] == a && TailIsOff(b, |a|)
    ensures EnabledMatch(b, r) == EnabledMatch(a, r)
    ensures Match(a, r).Some? ==> Match(b, r) == Match(a, r)
    ensures Match(a, r).None? && |b| > |a| && Forwards(b[|a|], r.src, r.dest) ==> Match(b, r) == Some(|a|)
  {
    assert forall i :: 0 <= i < |a| ==> b[i] == a[i];
    assert forall i :: |a| <= i < |b| ==> !Enabled(b[i]);
  }

  /** A request that finds its forwarding in the shorter store finds it in the longer one. */
  lemma MatchWithTail(a: Config, b: Config, r: Request)
    requires |a| <= |b| && b[..|a|] == a && TailIsOff(b, |a|) && Requested(a, r).Success? && Match(a, r).Some?
    ensures Requested(b, r).Success?
    ensures var n, m := Requested(a, r).value, Requested(b, r).value;
            |n| == |a| && |m| == |b| && m[..|a|] == n && m[|a|..] == b[|a|..]
  {
    SearchesIgnoreTail(a, b, r);
    if EnabledMatch(a, r).None? {
      PreparedWithTail(a, b, r);
      MatchSurvivesPreparing(a, r);
      MatchSurvivesPreparing(b, r);
      var k, pa, pb := Match(a, r).value, Prepared(a, r), Prepared(b, r);
      assert pb[k] == pa[k] by { assert pb[..|a|][k] == pa[k]; }
      var s := Drop(pa[k], "enabled");
      assert pb[k := s][..|a|] == pb[..|a|][k := s] && pb[k := s][|a|..] == pb[|a|..];
    }
  }

  /** A request that adds its section to the shorter store revives it at the head of the longer one's tail. */
  lemma AddedWithTail(a: Config, b: Config, r: Request)
    requires |a| < |b| && b[..|a|] == a && TailIsOff(b, |a|)
    requires Requested(a, r) == Success(Prepared(a, r) + [NewForwarding(SectionName(a, r), r.src, r.dest)])
    requires EnabledMatch(a, r).None? && Match(a, r).None?
    requires b[|a|] == Quieted(NewForwarding(SectionName(a, r), r.src, r.dest))
    ensures Requested(b, r).Success?
    ensures var n, m := Requested(a, r).value, Requested(b, r).value;
            |n| == |a| + 1 && |m| == |b| && m[..|n|] == n && m[|n|..] == b[|n|..]
  {
    RevivedIsNew(SectionName(a, r), r.src, r.dest);
    SearchesIgnoreTail(a, b, r);
    PreparedWithTail(a, b, r);
    MatchSurvivesPreparing(b, r);
    var pa, pb, s := Prepared(a, r), Prepared(b, r), NewForwarding(SectionName(a, r), r.src, r.dest);
    assert pb[|a|] == b[|a|] by { assert pb[|a|..][0] == b[|a|..][0]; }
    assert pb[|a| := s][..|a| + 1] == pb[..|a|] + [s];
    assert pb[|a| := s][|a| + 1..] == pb[|a|..][1..] == b[|a|..][1..] == b[|a| + 1..];
  }

  /** A request has the same effect over its own switched-off result as without it. */
  lemma RequestWithTail(a: Config, b: Config, r: Request)
    requires |a| <= |b| && b[..|a|] == a && TailIsOff(b, |a|)
    requires Fresh(a, r) && Requested(a, r).Success?
    requires |Requested(a, r).value| > |a| ==> |b| > |a| && b[|a|] == Quieted(Requested(a, r).value[|a|])
    ensures Requested(b, r).Success?
    ensures var n := Requested(a, r).value;
            var m := Requested(b, r).value;
            |m| == |b| && |n| <= |m| && m[..|n|] == n && m[|n|..] == b[|n|..]
  {
    RequestKeepsOldSections(a, r);
    MatchSurvivesPreparing(a, r);
    if Match(a, r).Some? {
      MatchWithTail(a, b, r);
    } else {
      AddedWithTail(a, b, r);
    }
  }

  /** Replaying requests over what they produced, switched off, produces it again. */
  lemma {:induction false} ReplayMeets(a: Config, b: Config, rs: seq<Request>)
    requires FreshAll(a, rs) && RequestedAll(a, rs).Success?
    requires var f := RequestedAll(a, rs).value;
             |a| <= |b| && |b| == |f| && b[..|a|] == a && forall i :: |a| <= i < |b| ==> b[i] == Quieted(f[i])
    ensures RequestedAll(b, rs) == RequestedAll(a, rs)
    decreases |rs|
  {
    var f := RequestedAll(a, rs).value;
    RunKeepsOldSections(a, rs);
    if rs == [] {
      assert b == b[..|a|];
    } else {
      var next := Requested(a, rs[0]).value;
      RequestKeepsOldSections(a, rs[0]);
      RunKeepsOldSections(next, rs[1..]);
      if |next| > |a| {
        assert Alike(f[|a|], next[|a|]);
      }
      RequestWithTail(a, b, rs[0]);
      var m := Requested(b, rs[0]).value;
      forall i | |next| <= i < |m| ensures m[i] == Quieted(f[i]) {
        assert m[i] == m[|next|..][i - |next|] == b[|next|..][i - |next|] == b[i];
      }
      ReplayMeets(next, m, rs[1..]);
    }
  }

  // ---- Rules ------------------------------------------------------------------------

  datatype Rule = Rule(name: string, src: string, dest: string, srcIp: string, destIp: string, proto: string,
                       destPort: string, target: string, family: string, limit: string, icmpType: seq<string>)

  function BlankRule(name: string, src: string, target: string): Rule {
    Rule(name, src, "", "", "", "", "", target, "", "", [])
  }

  /** The display names of the default rules. */
  function DefaultNames(localZone: string): (names: seq<string>)
    ensures |names| == 13
  {
    ["Allow-DHCP-Renew", "Allow-Ping", "Allow-IGMP", "Allow-DHCPv6", "Allow-MLD", "Allow-ICMPv6-Input",
     "Allow-ICMPv6-Forward", "Allow-IPSec-ESP", "Allow-ISAKMP", "Allow Batman Mesh TCP 4242", "Allow Incoming Comms",
     "Block-DHCP-Request-Out-" + localZone, "Block-DHCP-Response-In-" + localZone]
  }

  /** The thirteen rules of every setup. */
  function DefaultRules(localZone: string): (rules: seq<Rule>)
    ensures |rules| == 13
  {
    var n := DefaultNames(localZone);
    var common := ["echo-request", "echo-reply", "destination-unreachable", "packet-too-big", "time-exceeded",
                   "bad-header", "unknown-header-type"];
    var input := common + ["router-solicitation", "neighbour-solicitation", "router-advertisement",
                           "neighbour-advertisement"];
    [ BlankRule(n[0], "wan", "ACCEPT").(proto := "udp", destPort := "68", family := "ipv4"),
      BlankRule(n[1], "wan", "ACCEPT").(proto := "icmp", icmpType := ["echo-request"], family := "ipv4"),
      BlankRule(n[2], "wan", "ACCEPT").(proto := "igmp", family := "ipv4"),
      BlankRule(n[3], "wan", "ACCEPT").(proto := "udp", destPort := "546", family := "ipv6"),
      BlankRule(n[4], "wan", "ACCEPT").(proto := "icmp", srcIp := "fe80::/10",
        icmpType := ["130/0", "131/0", "132/0", "143/0"], family := "ipv6"),
      BlankRule(n[5], "wan", "ACCEPT").(proto := "icmp", icmpType := input, limit := "1000/sec",
        family := "ipv6"),
      BlankRule(n[6], "wan", "ACCEPT").(dest := "*", proto := "icmp", icmpType := common,
        limit := "1000/sec", family := "ipv6"),
      BlankRule(n[7], "wan", "ACCEPT").(dest := "*", proto := "esp"),
      BlankRule(n[8], "wan", "ACCEPT").(dest := "*", destPort := "500", proto := "udp"),
      BlankRule(n[9], "*", "ACCEPT").(dest := "*", destPort := "4242", proto := "tcp"),
      BlankRule(n[10], "*", "ACCEPT").(destIp := "239.192.41.1", dest := "*",
        destPort := "38801-38864", proto := "udp"),
      BlankRule(n[11], localZone, "DROP").(dest := "*", proto := "udp",
        destPort := "67", family := "ipv4"),
      BlankRule(n[12], "*", "DROP").(dest := localZone, proto := "udp",
        destPort := "68", family := "ipv4") ]
  }

  /** Every rule accepts traffic but the last two, which keep DHCP off the local zone; the first nine are about the WAN. */
  lemma DefaultRulesProtectLocalZone(localZone: string)
    ensures var rules := DefaultRules(localZone);
            && (forall k :: 0 <= k < 11 ==> rules[k].target == "ACCEPT")
            && (forall k :: 0 <= k < 9 ==> rules[k].src == "wan")
            && rules[11].target == "DROP" && rules[11].src == localZone && rules[11].dest == "*" && rules[11].destPort == "67"
            && rules[12].target == "DROP" && rules[12].src == "*" && rules[12].dest == localZone && rules[12].destPort == "68"
            && rules[11].proto == "udp" && rules[12].proto == "udp"
            && rules[11].name == "Block-DHCP-Request-Out-" + localZone && rules[12].name == "Block-DHCP-Response-In-" + localZone
  {
  }

  /** The rules' protocols and address families. */
  lemma DefaultRuleProtocols(localZone: string)
    ensures var rules := DefaultRules(localZone);
            && rules[0].proto == "udp" && rules[1].proto == "icmp" && rules[2].proto == "igmp" && rules[3].proto == "udp"
            && rules[4].proto == "icmp" && rules[5].proto == "icmp" && rules[6].proto == "icmp" && rules[7].proto == "esp"
            && rules[8].proto == "udp" && rules[9].proto == "tcp" && rules[10].proto == "udp" && rules[11].proto == "udp"
            && rules[12].proto == "udp"
            && rules[0].family == "ipv4" && rules[1].family == "ipv4" && rules[2].family == "ipv4"
            && rules[3].family == "ipv6" && rules[4].family == "ipv6" && rules[5].family == "ipv6"
            && rules[6].family == "ipv6" && rules[7].family == "" && rules[8].family == "" && rules[9].family == ""
            && rules[10].family == "" && rules[11].family == "ipv4" && rules[12].family == "ipv4"
  {
  }

  /** Their source and destination zones. */
  lemma DefaultRuleZones(localZone: string)
    ensures var rules := DefaultRules(localZone);
            && rules[0].src == "wan" && rules[1].src == "wan" && rules[2].src == "wan" && rules[3].src == "wan"
            && rules[4].src == "wan" && rules[5].src == "wan" && rules[6].src == "wan" && rules[7].src == "wan"
            && rules[8].src == "wan" && rules[9].src == "*" && rules[10].src == "*" && rules[11].src == localZone
            && rules[12].src == "*"
            && rules[0].dest == "" && rules[1].dest == "" && rules[2].dest == "" && rules[3].dest == ""
            && rules[4].dest == "" && rules[5].dest == "" && rules[6].dest == "*" && rules[7].dest == "*"
            && rules[8].dest == "*" && rules[9].dest == "*" && rules[10].dest == "*" && rules[11].dest == "*"
            && rules[12].dest == localZone
  {
  }

  /** Their destination ports and targets. */
  lemma DefaultRulePorts(localZone: string)
    ensures var rules := DefaultRules(localZone);
            && rules[0].destPort == "68" && rules[1].destPort == "" && rules[2].destPort == ""
            && rules[3].destPort == "546" && rules[4].destPort == "" && rules[5].destPort == "" && rules[6].destPort == ""
            && rules[7].destPort == "" && rules[8].destPort == "500" && rules[9].destPort == "4242"
            && rules[10].destPort == "38801-38864" && rules[11].destPort == "67" && rules[12].destPort == "68"
            && rules[0].target == "ACCEPT" && rules[1].target == "ACCEPT" && rules[2].target == "ACCEPT"
            && rules[3].target == "ACCEPT" && rules[4].target == "ACCEPT" && rules[5].target == "ACCEPT"
            && rules[6].target == "ACCEPT" && rules[7].target == "ACCEPT" && rules[8].target == "ACCEPT"
            && rules[9].target == "ACCEPT" && rules[10].target == "ACCEPT" && rules[11].target == "DROP"
            && rules[12].target == "DROP"
  {
  }

  /** Addresses, limits and ICMP types, given for few of them. */
  lemma DefaultRuleRest(localZone: string)
    ensures var rules := DefaultRules(localZone);
            && (forall k :: 0 <= k < 13 ==> rules[k].srcIp == if k == 4 then "fe80::/10" else "")
            && (forall k :: 0 <= k < 13 ==> rules[k].destIp == if k == 10 then "239.192.41.1" else "")
            && (forall k :: 0 <= k < 13 ==> rules[k].limit == if k == 5 || k == 6 then "1000/sec" else "")
            && rules[1].icmpType == ["echo-request"] && rules[4].icmpType == ["130/0", "131/0", "132/0", "143/0"]
            && |rules[6].icmpType| == 7 && |rules[5].icmpType| == 11 && rules[5].icmpType[..7] == rules[6].icmpType
            && rules[5].icmpType[7..] ==
                 ["router-solicitation", "neighbour-solicitation", "router-advertisement", "neighbour-advertisement"]
            && (forall k :: 0 <= k < 13 ==> rules[k].icmpType == [] || k == 1 || 4 <= k <= 6)
  {
  }

  /** What tells the names apart: the first letter, then for the allowing ones length and one letter more. */
  function NameMark(name: string): int
    requires |name| > 13 || (|name| > 6 && name[0] == 'A')
  {
    if name[0] == 'A' then 1000 * |name| + 10 * (name[6] as int) + (if name[5] == '-' then 1 else 0)
    else -(name[13] as int)
  }

  lemma DefaultNameMarks(localZone: string)
    ensures var n := DefaultNames(localZone);
            && |n| == 13
            && (forall k :: 0 <= k < 11 ==> |n[k]| > 6 && n[k][0] == 'A')
            && NameMark(n[0]) == 16681 && NameMark(n[1]) == 10801 && NameMark(n[2]) == 10731 && NameMark(n[3]) == 12681
            && NameMark(n[4]) == 9771 && NameMark(n[5]) == 18731 && NameMark(n[6]) == 20731 && NameMark(n[7]) == 15731
            && NameMark(n[8]) == 12731 && NameMark(n[9]) == 26660 && NameMark(n[10]) == 20730
            && |n[11]| > 13 && |n[12]| > 13 && NameMark(n[11]) == -113 && NameMark(n[12]) == -115
  {
  }

  /** No two display names are the same, whatever the local zone is called. */
  lemma DefaultRuleNamesDiffer(localZone: string)
    ensures forall i, j :: 0 <= i < j < 13 ==> DefaultRules(localZone)[i].name != DefaultRules(localZone)[j].name
  {
    DefaultRulesAreNamed(localZone);
    DefaultNamesDiffer(localZone);
  }

  lemma DefaultRulesAreNamed(localZone: string)
    ensures forall k :: 0 <= k < 13 ==> DefaultRules(localZone)[k].name == DefaultNames(localZone)[k]
  {
  }

  lemma DefaultNamesDiffer(localZone: string)
    ensures |DefaultNames(localZone)| == 13
    ensures forall i, j :: 0 <= i < j < 13 ==> DefaultNames(localZone)[i] != DefaultNames(localZone)[j]
  {
    DefaultNameMarks(localZone);
    var n := DefaultNames(localZone);
    var marks := [16681, 10801, 10731, 12681, 9771, 18731, 20731, 15731, 12731, 26660, 20730, -113, -115];
    assert forall i, j :: 0 <= i < j < 13 ==> marks[i] != marks[j];
    forall i, j | 0 <= i < j < 13 ensures n[i] != n[j] {
      assert NameMark(n[i]) == marks[i] && NameMark(n[j]) == marks[j];
    }
  }

  /** Empty fields are not written. */
  function Opt(options: map<string, seq<string>>, option: string, value: string): map<string, seq<string>> {
    if value == "" then options else options[option := [value]]
  }

  function IcmpTypes(options: map<string, seq<string>>, types: seq<string>): map<string, seq<string>> {
    if |types| == 0 then options
    else if |types| == 1 then Opt(options, "icmp_type", types[0])
    else options["icmp_type" := types]
  }

  /** The options of a section after a rule has been written to it. */
  function RuleOptions(options: map<string, seq<string>>, r: Rule): map<string, seq<string>> {
    RuleRest(RuleTraffic(RuleZones(options, r), r), r)
  }

  function RuleZones(options: map<string, seq<string>>, r: Rule): map<string, seq<string>> {
    Opt(Opt(Opt(options, "name", r.name), "src", r.src), "dest", r.dest)
  }

  function RuleTraffic(options: map<string, seq<string>>, r: Rule): map<string, seq<string>> {
    Opt(Opt(Opt(Opt(options, "src_ip", r.srcIp), "dest_ip", r.destIp), "proto", r.proto), "dest_port", r.destPort)
  }

  function RuleRest(options: map<string, seq<string>>, r: Rule): map<string, seq<string>> {
    Opt(Opt(Opt(IcmpTypes(options, r.icmpType), "limit", r.limit), "target", r.target), "family", r.family)
  }

  /** A new rule's options: each field that is not empty, under its name, and nothing else. */
  lemma RuleOptionByOption(r: Rule)
    ensures var o := RuleOptions(map[], r);
            && Written(o, "name", r.name) && Written(o, "src", r.src) && Written(o, "dest", r.dest)
            && Written(o, "src_ip", r.srcIp) && Written(o, "dest_ip", r.destIp) && Written(o, "proto", r.proto)
            && Written(o, "dest_port", r.destPort) && Written(o, "limit", r.limit) && Written(o, "target", r.target)
            && Written(o, "family", r.family)
            && (if r.icmpType in {[], [""]} then "icmp_type" !in o else "icmp_type" in o && o["icmp_type"] == r.icmpType)
            && o.Keys <= ZONE_KEYS + TRAFFIC_KEYS + REST_KEYS
  {
    var z := RuleZones(map[], r);
    var t := RuleTraffic(z, r);
    var o := RuleRest(t, r);
    ZonesWritten(r);
    TrafficWritten(z, r);
    RestWritten(t, r);
    KeysAreApart();
    forall x | x in ZONE_KEYS + TRAFFIC_KEYS ensures (x in o <==> x in t) && (x in t ==> o[x] == t[x]) {
    }
    forall x | x in ZONE_KEYS ensures (x in t <==> x in z) && (x in z ==> t[x] == z[x]) {
    }
    assert "name" in ZONE_KEYS && "src" in ZONE_KEYS && "dest" in ZONE_KEYS;
    assert "src_ip" in TRAFFIC_KEYS && "dest_ip" in TRAFFIC_KEYS && "proto" in TRAFFIC_KEYS && "dest_port" in TRAFFIC_KEYS;
  }

  lemma KeysAreApart()
    ensures ZONE_KEYS !! TRAFFIC_KEYS && ZONE_KEYS !! REST_KEYS && TRAFFIC_KEYS !! REST_KEYS
  {
  }

  const ZONE_KEYS: set<string> := {"name", "src", "dest"}
  const TRAFFIC_KEYS: set<string> := {"src_ip", "dest_ip", "proto", "dest_port"}
  const REST_KEYS: set<string> := {"icmp_type", "limit", "target", "family"}

  /** What is there stays, and what comes is among these keys. */
  ghost predicate Adds(o: map<string, seq<string>>, p: map<string, seq<string>>, keys: set<string>) {
    (forall x :: x in o ==> x in p && p[x] == o[x]) && forall x :: x in p ==> x in o || x in keys
  }

  lemma ZonesWritten(r: Rule)
    ensures var o := RuleZones(map[], r);
            Written(o, "name", r.name) && Written(o, "src", r.src) && Written(o, "dest", r.dest) && o.Keys <= ZONE_KEYS
  {
  }

  lemma TrafficWritten(o: map<string, seq<string>>, r: Rule)
    requires o.Keys <= ZONE_KEYS
    ensures var p := RuleTraffic(o, r);
            && Adds(o, p, TRAFFIC_KEYS)
            && Written(p, "src_ip", r.srcIp) && Written(p, "dest_ip", r.destIp) && Written(p, "proto", r.proto)
            && Written(p, "dest_port", r.destPort)
  {
  }

  lemma IcmpWritten(o: map<string, seq<string>>, r: Rule)
    requires "icmp_type" !in o
    ensures var p := IcmpTypes(o, r.icmpType);
            && Adds(o, p, {"icmp_type"})
            && (if r.icmpType in {[], [""]} then "icmp_type" !in p else "icmp_type" in p && p["icmp_type"] == r.icmpType)
  {
    if |r.icmpType| == 1 {
      assert r.icmpType == [r.icmpType[0]];
    }
  }

  lemma OptWrites(o: map<string, seq<string>>, option: string, value: string)
    requires option !in o
    ensures Written(Opt(o, option, value), option, value) && Adds(o, Opt(o, option, value), {option})
  {
  }

  lemma RestKeysDiffer()
    ensures "limit" != "target" && "limit" != "family" && "target" != "family"
    ensures "limit" != "icmp_type" && "target" != "icmp_type" && "family" != "icmp_type"
  {
  }

  lemma RestWritten(o: map<string, seq<string>>, r: Rule)
    requires o.Keys <= ZONE_KEYS + TRAFFIC_KEYS
    ensures var p := RuleRest(o, r);
            && Adds(o, p, REST_KEYS)
            && Written(p, "limit", r.limit) && Written(p, "target", r.target) && Written(p, "family", r.family)
            && (if r.icmpType in {[], [""]} then "icmp_type" !in p else "icmp_type" in p && p["icmp_type"] == r.icmpType)
  {
    KeysAreApart();
    RestKeysDiffer();
    assert "icmp_type" in REST_KEYS && "limit" in REST_KEYS && "target" in REST_KEYS && "family" in REST_KEYS;
    var p := IcmpTypes(o, r.icmpType);
    IcmpWritten(o, r);
    OptWrites(p, "limit", r.limit);
    OptWrites(Opt(p, "limit", r.limit), "target", r.target);
    OptWrites(Opt(Opt(p, "limit", r.limit), "target", r.target), "family", r.family);
  }

  predicate Written(o: map<string, seq<string>>, option: string, value: string) {
    if value == "" then option !in o else option in o && o[option] == [value]
  }

  /** The letters and digits of a name, capitals as small letters. */
  function Letters(s: string): string {
    if s == [] then ""
    else
      var rest := Letters(s[1..]);
      if 'a' <= s[0] <= 'z' || '0' <= s[0] <= '9' then [s[0]] + rest
      else if 'A' <= s[0] <= 'Z' then [(s[0] as int + 32) as char] + rest
      else rest
  }

  /** A sanitised name keeps the letters and digits in order, has single underscores between them and nothing else. */
  lemma {:induction false} SanitizedReads(s: string, afterUnderscore: bool)
    ensures var t := Sanitized(s, afterUnderscore);
            && Letters(t) == Letters(s)
            && (forall i :: 0 <= i < |t| ==> 'a' <= t[i] <= 'z' || '0' <= t[i] <= '9' || t[i] == '_')
            && (forall i :: 0 < i < |t| ==> !(t[i - 1] == '_' && t[i] == '_'))
            && (afterUnderscore && t != [] ==> t[0] != '_')
    decreases |s|
  {
    if s != [] {
      var c := LowerChar(s[0]);
      var kept := 'a' <= c <= 'z' || '0' <= c <= '9';
      var rest := Sanitized(s[1..], !kept);
      SanitizedReads(s[1..], !kept);
      var t := Sanitized(s, afterUnderscore);
      if kept {
        assert t == [c] + rest && t[1..] == rest;
      } else if !afterUnderscore {
        assert t == "_" + rest && t[1..] == rest;
      }
    }
  }

  /** Every other character becomes an underscore, and runs of them become one. */
  function Sanitized(s: string, afterUnderscore: bool): string {
    if s == [] then ""
    else
      var c := LowerChar(s[0]);
      if 'a' <= c <= 'z' || '0' <= c <= '9' then [c] + Sanitized(s[1..], false)
      else if afterUnderscore then Sanitized(s[1..], true)
      else "_" + Sanitized(s[1..], true)
  }

  function RuleSectionName(display: string, index: nat): string {
    "wizard_rule_" + Sanitized(display, false) + "_" + Decimal(index)
  }

  function RuleSection(r: Rule, index: nat): Section {
    Section(RuleSectionName(r.name, index), RULE, RuleOptions(map[], r))
  }

  /** The section of the i-th rule. */
  lemma RuleSectionReads(r: Rule, i: nat)
    ensures var s := RuleSection(r, i);
            && s.kind == "rule" && s.options == RuleOptions(map[], r)
            && s.name == "wizard_rule_" + Sanitized(r.name, false) + "_" + Decimal(i)
  {
  }

  /** What the reset does to a section: it switches forwardings off and takes the two NAT flags from zones, and no more. */
  lemma QuietedOptionByOption(s: Section, x: string)
    ensures var t := Quieted(s);
            && t.name == s.name && t.kind == s.kind
            && (x in t.options <==>
                  (s.kind == "forwarding" && x == "enabled")
                  || (x in s.options && !(s.kind == "zone" && x in {"mtu_fix", "masq"})))
            && (x in t.options ==> t.options[x] == if s.kind == "forwarding" && x == "enabled" then ["0"] else s.options[x])
  {
  }

  /** The reset keeps, in order, exactly the sections that are no rules. */
  lemma {:induction false} RemoveRulesKeepsOthers(c: Config, s: Section)
    ensures RemoveRules([]) == []
    ensures RemoveRules(c + [s]) == RemoveRules(c) + if s.kind == "rule" then [] else [s]
  {
    if c == [] {
      assert c + [s] == [s] && [s][1..] == [];
    } else {
      assert (c + [s])[1..] == c[1..] + [s];
      RemoveRulesKeepsOthers(c[1..], s);
    }
  }

  /** A section added under an existing name of the same type keeps its options and gets the new ones. */
  function AddedRule(c: Config, r: Rule): Result<Config, WizardError> {
    var added := RuleSection(r, Count(c, RULE));
    match Named(c, added.name)
    case None => Success(c + [added])
    case Some(k) =>
      if c[k].kind != RULE then Failure(SectionTypeMismatch)
      else Success(c[k := c[k].(options := RuleOptions(c[k].options, r))])
  }

  function AddedRules(c: Config, rules: seq<Rule>): Result<Config, WizardError>
    decreases |rules|
  {
    if rules == [] then Success(c)
    else match AddedRules(c, rules[..|rules| - 1])
         case Failure(e) => Failure(e)
         case Success(most) => AddedRule(most, rules[|rules| - 1])
  }

  /** Names that end in different numbers differ, whatever stands before them. */
  lemma SuffixDecides(p: string, q: string, m: nat, n: nat)
    requires p + "_" + Decimal(m) == q + "_" + Decimal(n)
    ensures m == n
  {
    var a, b := Decimal(m), Decimal(n);
    var s, t := p + "_" + a, q + "_" + b;
    DecimalHasNoUnderscore(m);
    DecimalHasNoUnderscore(n);
    assert s[|p|] == '_' && t[|q|] == '_';
    assert forall i :: |p| < i < |s| ==> s[i] == a[i - |p| - 1];
    assert forall i :: |q| < i < |t| ==> t[i] == b[i - |q| - 1];
    assert |p| == |q|;
    assert a == s[|p| + 1..] && b == t[|q| + 1..];
    DecimalIsInjective(m, n);
  }

  function RuleSections(rules: seq<Rule>, from: nat): (s: Config)
    ensures |s| == |rules|
  {
    seq(|rules|, i requires 0 <= i < |rules| => RuleSection(rules[i], from + i))
  }

  lemma {:induction false} CountAppends(c: Config, d: Config, kind: string)
    ensures Count(c + d, kind) == Count(c, kind) + Count(d, kind)
  {
    if c == [] {
      assert c + d == d;
    } else {
      assert (c + d)[1..] == c[1..] + d;
      CountAppends(c[1..], d, kind);
    }
  }

  predicate NoRules(c: Config) {
    forall i :: 0 <= i < |c| ==> c[i].kind != RULE
  }

  lemma {:induction false} NoRulesCountsZero(c: Config)
    requires NoRules(c)
    ensures Count(c, RULE) == 0
  {
    if c != [] {
      assert NoRules(c[1..]) by { assert forall i :: 0 <= i < |c[1..]| ==> c[1..][i] == c[i + 1]; }
      NoRulesCountsZero(c[1..]);
    }
  }

  lemma {:induction false} RuleSectionsCount(rules: seq<Rule>, from: nat)
    ensures Count(RuleSections(rules, from), RULE) == |rules|
  {
    if rules != [] {
      assert RuleSections(rules, from)[1..] == RuleSections(rules[1..], from + 1);
      RuleSectionsCount(rules[1..], from + 1);
    }
  }

  /** The next rule's number is new among the rules. */
  lemma NextRuleNameIsNew(base: Config, done: seq<Rule>, display: string)
    requires NoRules(base)
    ensures var c := base + RuleSections(done, 0);
            Count(c, RULE) == |done|
            && forall i :: 0 <= i < |c| && c[i].kind == RULE ==> c[i].name != RuleSectionName(display, |done|)
  {
    var c := base + RuleSections(done, 0);
    NoRulesCountsZero(base);
    RuleSectionsCount(done, 0);
    CountAppends(base, RuleSections(done, 0), RULE);
    forall i | 0 <= i < |c| && c[i].kind == RULE ensures c[i].name != RuleSectionName(display, |done|) {
      assert c[i] == RuleSection(done[i - |base|], i - |base|);
      NumbersKeepNamesApart(done[i - |base|].name, i - |base|, display, |done|);
    }
  }

  /** So its section is appended. */
  lemma AddedRuleAppends(base: Config, done: seq<Rule>, r: Rule)
    requires NoRules(base)
    ensures var c := base + RuleSections(done, 0);
            AddedRule(c, r).Success? ==> AddedRule(c, r).value == base + RuleSections(done + [r], 0)
  {
    var c := base + RuleSections(done, 0);
    NextRuleNameIsNew(base, done, r.name);
    assert RuleSections(done + [r], 0) == RuleSections(done, 0) + [RuleSection(r, |done|)];
    assert c + [RuleSection(r, |done|)] == base + RuleSections(done + [r], 0);
  }

  /** Rules numbered differently get different section names, however their display names are spelt. */
  lemma NumbersKeepNamesApart(d: string, m: nat, e: string, n: nat)
    ensures m != n ==> RuleSectionName(d, m) != RuleSectionName(e, n)
  {
    if RuleSectionName(d, m) == RuleSectionName(e, n) {
      SuffixDecides("wizard_rule_" + Sanitized(d, false), "wizard_rule_" + Sanitized(e, false), m, n);
    }
  }

  /** Starting without rules, every rule gets a section of its own, in order. */
  lemma {:induction false} AddedRulesAppend(f: Config, rules: seq<Rule>)
    requires NoRules(f) && AddedRules(f, rules).Success?
    ensures AddedRules(f, rules).value == f + RuleSections(rules, 0)
    decreases |rules|
  {
    if rules == [] {
      assert f + RuleSections(rules, 0) == f;
    } else {
      var most, last := rules[..|rules| - 1], rules[|rules| - 1];
      assert most + [last] == rules;
      AddedRulesAppend(f, most);
      AddedRuleAppends(f, most, last);
    }
  }

  // ---- Whole runs ---------------------------------------------------------------------

  /** Reset, then the forwardings, then the rules. */
  function Setup(c: Config, rs: seq<Request>, rules: seq<Rule>): Result<Config, WizardError> {
    match RequestedAll(Reset(c), rs)
    case Failure(e) => Failure(e)
    case Success(f) => AddedRules(f, rules)
  }

  lemma {:induction false} RemovedRulesAreGone(c: Config, rules: Config)
    requires NoRules(c)
    requires forall i :: 0 <= i < |rules| ==> rules[i].kind == RULE
    ensures RemoveRules(c + rules) == c
  {
    if c != [] {
      assert (c + rules)[1..] == c[1..] + rules;
      assert NoRules(c[1..]) by { assert forall i :: 0 <= i < |c[1..]| ==> c[1..][i] == c[i + 1]; }
      RemovedRulesAreGone(c[1..], rules);
    } else {
      assert c + rules == rules;
      OnlyRulesRemoved(rules);
    }
  }

  lemma {:induction false} OnlyRulesRemoved(rules: Config)
    requires forall i :: 0 <= i < |rules| ==> rules[i].kind == RULE
    ensures RemoveRules(rules) == []
  {
    if rules != [] { OnlyRulesRemoved(rules[1..]); }
  }

  lemma {:induction false} ResetLeavesNoRules(c: Config)
    ensures NoRules(RemoveRules(c)) && NoRules(Reset(c))
  {
    if c != [] {
      ResetLeavesNoRules(c[1..]);
    }
  }

  lemma QuietIsStable(c: Config)
    ensures Quiet(Quiet(c)) == Quiet(c)
  {
    forall i | 0 <= i < |c| ensures Quieted(Quieted(c[i])) == Quieted(c[i]) {
      QuietedIsStable(c[i]);
    }
  }

  lemma QuietedIsStable(s: Section)
    ensures Quieted(Quieted(s)) == Quieted(s)
  {
    if s.kind == FORWARDING {
      assert s.options["enabled" := ["0"]]["enabled" := ["0"]] == s.options["enabled" := ["0"]];
    } else if s.kind == ZONE {
      var o := (s.options - {"mtu_fix"}) - {"masq"};
      assert (o - {"mtu_fix"}) - {"masq"} == o;
    }
  }

  /** What the first run wrote, reset again, is the first run's starting point and a switched-off tail. */
  lemma ResetOfRun(c: Config, rs: seq<Request>, rules: seq<Rule>)
    requires FreshAll(Reset(c), rs) && Setup(c, rs, rules).Success?
    ensures var a, f := Reset(c), RequestedAll(Reset(c), rs).value;
            && NoRules(f)
            && Setup(c, rs, rules).value == f + RuleSections(rules, 0)
            && Reset(Setup(c, rs, rules).value) == Quiet(f)
            && |a| <= |f| && Quiet(f)[..|a|] == a
  {
    var a, f := Reset(c), RequestedAll(Reset(c), rs).value;
    RunKeepsOldSections(a, rs);
    ResetLeavesNoRules(c);
    assert NoRules(f) by {
      forall i | 0 <= i < |f| ensures f[i].kind != RULE {
        if i < |a| { assert Alike(f[i], a[i]); }
      }
    }
    RemovedRulesAreGone(f, RuleSections(rules, 0));
    AddedRulesAppend(f, rules);
    QuietIsStable(RemoveRules(c));
    forall i | 0 <= i < |a| ensures Quiet(f)[i] == a[i] {
      assert Alike(f[i], a[i]);
      assert Quieted(a[i]) == Quiet(a)[i];
    }
  }

  /** Setting up twice gives the configuration of setting up once. */
  lemma SetupTwiceIsOnce(c: Config, rs: seq<Request>, rules: seq<Rule>)
    requires FreshAll(Reset(c), rs) && Setup(c, rs, rules).Success?
    ensures Setup(Setup(c, rs, rules).value, rs, rules) == Setup(c, rs, rules)
  {
    var a, f := Reset(c), RequestedAll(Reset(c), rs).value;
    ResetOfRun(c, rs, rules);
    ReplayMeets(a, Quiet(f), rs);
  }

  // ---- One request, exactly ---------------------------------------------------------

  predicate IsReset(c: Config) {
    NoRules(c) && Quiet(c) == c
  }

  lemma ResetIsReset(c: Config)
    ensures IsReset(Reset(c))
  {
    ResetLeavesNoRules(c);
    QuietIsStable(RemoveRules(c));
  }

  predicate ForwardingsOff(c: Config) {
    forall i :: 0 <= i < |c| && c[i].kind == FORWARDING ==> Off(c[i])
  }

  lemma ResetForwardingsAreOff(c: Config)
    requires IsReset(c)
    ensures ForwardingsOff(c)
  {
    forall i | 0 <= i < |c| && c[i].kind == FORWARDING ensures Off(c[i]) {
      assert c[i] == Quiet(c)[i];
    }
  }

  /** Some section forwards between the zones and is enabled. */
  predicate Flows(c: Config, src: string, dest: string) {
    exists i :: 0 <= i < |c| && EnabledForwards(c[i], src, dest)
  }

  lemma PreparedKeepsOff(c: Config, r: Request)
    requires ForwardingsOff(c)
    ensures ForwardingsOff(Prepared(c, r))
  {
    PreparedIsAlike(c, r);
    var n, p := NatApplied(c, r.dest, r.natOnDest), Prepared(c, r);
    forall i | 0 <= i < |c| && p[i].kind == FORWARDING ensures Off(p[i]) {
      assert Alike(p[i], c[i]);
      assert n[i] == c[i];
    }
  }

  lemma NamesSurvivePreparing(c: Config, r: Request, name: string)
    ensures Named(Prepared(c, r), name) == Named(c, name)
  {
    PreparedKeepsNames(c, r);
    var p := Prepared(c, r);
    if Named(c, name).Some? {
      assert p[Named(c, name).value].name == name;
    }
    if Named(p, name).Some? {
      assert c[Named(p, name).value].name == name;
    }
  }

  lemma PreparedKeepsNames(c: Config, r: Request)
    ensures forall i :: 0 <= i < |c| ==> Prepared(c, r)[i].name == c[i].name
  {
    PreparedIsAlike(c, r);
    assert forall i :: 0 <= i < |c| ==> Alike(Prepared(c, r)[i], c[i]);
  }

  /** A request whose section name is taken repoints that section and changes no other. */
  lemma TakenNameIsRepointed(c: Config, r: Request)
    requires EnabledMatch(c, r).None? && Requested(c, r).Success? && !Fresh(c, r)
    ensures Named(c, SectionName(c, r)).Some?
    ensures var k := Named(c, SectionName(c, r)).value;
            && c[k].kind == FORWARDING
            && Requested(c, r).value == Prepared(c, r)[k := Repointed(Prepared(c, r)[k], r.src, r.dest)]
  {
    MatchSurvivesPreparing(c, r);
    NamesSurvivePreparing(c, r, SectionName(c, r));
    PreparedIsAlike(c, r);
    var k := Named(c, SectionName(c, r)).value;
    assert Alike(Prepared(c, r)[k], c[k]);
  }

  /** With every forwarding off, a request whose section name is taken leaves that section off. */
  lemma TakenNameStaysOff(c: Config, r: Request)
    requires ForwardingsOff(c) && Requested(c, r).Success? && !Fresh(c, r)
    ensures !Flows(Requested(c, r).value, r.src, r.dest)
    ensures Named(c, SectionName(c, r)).Some?
    ensures var k := Named(c, SectionName(c, r)).value;
            |Requested(c, r).value| == |c| && Off(Requested(c, r).value[k])
            && Forwards(Requested(c, r).value[k], r.src, r.dest)
  {
    TakenNameIsRepointed(c, r);
    PreparedKeepsOff(c, r);
    var k, p := Named(c, SectionName(c, r)).value, Prepared(c, r);
    PreparedIsAlike(c, r);
    assert Alike(p[k], c[k]);
    var s := Repointed(p[k], r.src, r.dest);
    assert Off(s) && Forwards(s, r.src, r.dest);
    var n := p[k := s];
    forall i | 0 <= i < |n| ensures !EnabledForwards(n[i], r.src, r.dest) {
      assert n[i] == s || n[i] == p[i];
    }
  }

  lemma FreshRequestFlows(c: Config, r: Request)
    requires Requested(c, r).Success? && Fresh(c, r)
    ensures Flows(Requested(c, r).value, r.src, r.dest)
  {
    var n := Requested(c, r).value;
    MatchSurvivesPreparing(c, r);
    RequestKeepsOldSections(c, r);
    if EnabledMatch(c, r).Some? {
      assert EnabledForwards(n[EnabledMatch(c, r).value], r.src, r.dest);
    } else if Match(c, r).Some? {
      var k := Match(c, r).value;
      assert Alike(n[k], c[k]);
      assert EnabledForwards(n[k], r.src, r.dest);
    } else {
      assert EnabledForwards(n[|c|], r.src, r.dest);
    }
  }

  /** With every forwarding off, as after a reset, a request switches its forwarding on exactly when its section name was not taken. */
  lemma RequestFlowsIffFresh(c: Config, r: Request)
    requires ForwardingsOff(c) && Requested(c, r).Success?
    ensures Flows(Requested(c, r).value, r.src, r.dest) <==> Fresh(c, r)
  {
    if Fresh(c, r) {
      FreshRequestFlows(c, r);
    } else {
      TakenNameStaysOff(c, r);
    }
  }

  lemma RequestKeepsNoRules(c: Config, r: Request)
    requires NoRules(c) && Requested(c, r).Success?
    ensures NoRules(Requested(c, r).value)
  {
    var p := Prepared(c, r);
    PreparedIsAlike(c, r);
    assert NoRules(p) by {
      assert forall i :: 0 <= i < |c| ==> Alike(p[i], c[i]);
    }
  }

  lemma RulesDoNotFlow(f: Config, rules: seq<Rule>, src: string, dest: string)
    ensures Flows(f + RuleSections(rules, 0), src, dest) <==> Flows(f, src, dest)
  {
    var g := f + RuleSections(rules, 0);
    if i :| 0 <= i < |g| && EnabledForwards(g[i], src, dest) { assert g[i] == f[i]; }
    if i :| 0 <= i < |f| && EnabledForwards(f[i], src, dest) { assert g[i] == f[i]; }
  }

  /** One request followed by rules, on a store without rules. */
  lemma SetupOfOne(c: Config, r: Request, rules: seq<Rule>)
    requires Setup(c, [r], rules).Success?
    ensures Requested(Reset(c), r).Success?
    ensures NoRules(Requested(Reset(c), r).value)
    ensures Setup(c, [r], rules).value == Requested(Reset(c), r).value + RuleSections(rules, 0)
    ensures Reset(Setup(c, [r], rules).value) == Quiet(Requested(Reset(c), r).value)
  {
    assert [r][1..] == [];
    ResetLeavesNoRules(c);
    var f := Requested(Reset(c), r).value;
    assert RequestedAll(f, []) == Success(f);
    RequestKeepsNoRules(Reset(c), r);
    AddedRulesAppend(f, rules);
    RemovedRulesAreGone(f, RuleSections(rules, 0));
  }

  /** A setup with one forwarding can be repeated exactly when its section name was not taken. */
  lemma OneRequestRepeatsIffFresh(c: Config, r: Request, rules: seq<Rule>)
    requires Setup(c, [r], rules).Success?
    ensures Setup(Setup(c, [r], rules).value, [r], rules) == Setup(c, [r], rules) <==> Fresh(Reset(c), r)
  {
    if Fresh(Reset(c), r) {
      assert FreshAll(Reset(c), [r]) by { assert [r][1..] == []; }
      SetupTwiceIsOnce(c, [r], rules);
    } else {
      TakenNameDoesNotFlow(c, r, rules);
      if Setup(Setup(c, [r], rules).value, [r], rules).Success? {
        FoundRequestFlows(c, r, rules);
      }
    }
  }

  lemma TakenNameDoesNotFlow(c: Config, r: Request, rules: seq<Rule>)
    requires Setup(c, [r], rules).Success? && !Fresh(Reset(c), r)
    ensures !Flows(Setup(c, [r], rules).value, r.src, r.dest)
    ensures Requested(Reset(c), r).Success? && Match(Quiet(Requested(Reset(c), r).value), r).Some?
  {
    var a := Reset(c);
    SetupOfOne(c, r, rules);
    ResetIsReset(c);
    ResetForwardingsAreOff(a);
    TakenNameIsFoundOff(a, r);
    RulesDoNotFlow(Requested(a, r).value, rules, r.src, r.dest);
  }

  /** The next reset finds the forwarding a taken name left off. */
  lemma TakenNameIsFoundOff(a: Config, r: Request)
    requires ForwardingsOff(a) && Requested(a, r).Success? && !Fresh(a, r)
    ensures !Flows(Requested(a, r).value, r.src, r.dest) && Match(Quiet(Requested(a, r).value), r).Some?
  {
    TakenNameStaysOff(a, r);
    var f, k := Requested(a, r).value, Named(a, SectionName(a, r)).value;
    assert Forwards(Quiet(f)[k], r.src, r.dest);
  }

  /** A setup whose request finds its forwarding in what an earlier setup left makes it flow. */
  lemma FoundRequestFlows(c: Config, r: Request, rules: seq<Rule>)
    requires Setup(c, [r], rules).Success? && Requested(Reset(c), r).Success?
    requires Match(Quiet(Requested(Reset(c), r).value), r).Some?
    requires Setup(Setup(c, [r], rules).value, [r], rules).Success?
    ensures Flows(Setup(Setup(c, [r], rules).value, [r], rules).value, r.src, r.dest)
  {
    SetupOfOne(c, r, rules);
    var g := Setup(c, [r], rules).value;
    SetupOfOne(g, r, rules);
    FreshRequestFlows(Reset(g), r);
    RulesDoNotFlow(Requested(Reset(g), r).value, rules, r.src, r.dest);
  }

  /**
   * Moving the uplink of src to another zone under the same section name loses it: the
   * second setup repoints the old section while it is off.
   */
  lemma SwitchedUplinkIsLost(c: Config, before: Request, now: Request, rules: seq<Rule>)
    requires now == before.(dest := now.dest) && now.dest != before.dest && before.name != ""
    requires Match(Reset(c), before).None? && Match(Reset(c), now).None? && !NameUsed(Reset(c), before.name)
    requires Setup(c, [before], rules).Success?
    ensures var g := Setup(c, [before], rules).value;
            && Flows(g, before.src, before.dest)
            && (Setup(g, [now], rules).Success? ==> !Flows(Setup(g, [now], rules).value, now.src, now.dest))
  {
    var a := Reset(c);
    var f, g := Requested(a, before).value, Setup(c, [before], rules).value;
    SetupOfOne(c, before, rules);
    RequestKeepsOldSections(a, before);
    RemovedRulesAreGone(f, RuleSections(rules, 0));
    FreshRequestFlows(a, before);
    RulesDoNotFlow(f, rules, before.src, before.dest);
    UplinkSectionIsTaken(a, before, now);
    if Setup(g, [now], rules).Success? {
      SetupOfOne(g, now, rules);
      ResetIsReset(g);
      ResetForwardingsAreOff(Quiet(f));
      TakenNameStaysOff(Quiet(f), now);
      RulesDoNotFlow(Requested(Quiet(f), now).value, rules, now.src, now.dest);
    }
  }

  lemma UplinkSectionIsTaken(a: Config, before: Request, now: Request)
    requires now == before.(dest := now.dest) && now.dest != before.dest && before.name != ""
    requires Match(a, before).None? && Match(a, now).None? && !NameUsed(a, before.name)
    requires Requested(a, before).Success?
    ensures !Fresh(Quiet(Requested(a, before).value), now)
  {
    var f := Requested(a, before).value;
    var q := Quiet(f);
    RequestKeepsOldSections(a, before);
    MatchSurvivesPreparing(a, before);
    assert f[|a|] == NewForwarding(before.name, before.src, before.dest);
    assert q[|a|].name == before.name;
    forall i | 0 <= i < |q| ensures !Forwards(q[i], now.src, now.dest) {
      if i < |a| { assert Alike(f[i], a[i]); }
    }
  }

  // ---- One enabled forwarding per source, the last one requested --------------

  predicate Live(s: Section) {
    s.kind == FORWARDING && Enabled(s) && First(s, "src").Some?
  }

  predicate SourcesDiffer(c: Config) {
    forall i, j :: 0 <= i < j < |c| && Live(c[i]) && Live(c[j]) ==> First(c[i], "src") != First(c[j], "src")
  }

  /** What is live after preparing was live before, and starts elsewhere. */
  lemma PreparedSilencesSource(c: Config, r: Request)
    ensures var p := Prepared(c, r);
            forall i :: 0 <= i < |c| && Live(p[i]) ==> p[i] == c[i] && First(c[i], "src") != Some(r.src)
  {
    PreparedIsAlike(c, r);
    var n, p := NatApplied(c, r.dest, r.natOnDest), Prepared(c, r);
    forall i | 0 <= i < |c| && Live(p[i]) ensures p[i] == c[i] && First(c[i], "src") != Some(r.src) {
      assert Alike(p[i], c[i]);
      assert n[i] == c[i];
    }
  }

  /** After a request that had work to do, everything live but one section is untouched and starts elsewhere. */
  lemma RequestSilencesSource(c: Config, r: Request) returns (k: nat)
    requires EnabledMatch(c, r).None? && Requested(c, r).Success?
    ensures var n := Requested(c, r).value;
            && k < |n| && Forwards(n[k], r.src, r.dest)
            && |c| <= |n|
            && forall i :: 0 <= i < |n| && i != k && Live(n[i]) ==>
                 i < |c| && n[i] == c[i] && First(c[i], "src") != Some(r.src)
  {
    k := RequestWritesOne(c, r);
    PreparedSilencesSource(c, r);
  }

  /** Beside preparing, a request with work to do writes one section, and that one forwards as asked. */
  lemma RequestWritesOne(c: Config, r: Request) returns (k: nat)
    requires EnabledMatch(c, r).None? && Requested(c, r).Success?
    ensures var p, n := Prepared(c, r), Requested(c, r).value;
            && k < |n| && Forwards(n[k], r.src, r.dest)
            && |c| <= |n|
            && forall i :: 0 <= i < |n| && i != k ==> i < |c| && n[i] == p[i]
  {
    var p := Prepared(c, r);
    if Match(p, r).Some? {
      k := Match(p, r).value;
    } else if Named(p, SectionName(c, r)).Some? {
      k := Named(p, SectionName(c, r)).value;
    } else {
      k := |c|;
    }
  }

  /** A request with work to do touches one forwarding at most besides what preparing touches. */
  lemma RequestShape(c: Config, r: Request, next: Config)
    requires Requested(c, r) == Success(next)
    ensures |c| <= |next| && forall i :: |c| <= i < |next| ==> next[i].kind == FORWARDING
    ensures if EnabledMatch(c, r).Some? then next == c
            else forall i :: 0 <= i < |c| ==>
                   next[i] == Prepared(c, r)[i] || (Prepared(c, r)[i].kind == FORWARDING && next[i].kind == FORWARDING)
  {
  }

  lemma RequestKeepsSourcesApart(c: Config, r: Request)
    requires SourcesDiffer(c) && Requested(c, r).Success?
    ensures SourcesDiffer(Requested(c, r).value)
  {
    if EnabledMatch(c, r).None? {
      var k := RequestSilencesSource(c, r);
    }
  }

  /** However section names collide, a run leaves each source zone at most one enabled forwarding. */
  lemma {:induction false} RunKeepsSourcesApart(c: Config, rs: seq<Request>)
    requires SourcesDiffer(c) && RequestedAll(c, rs).Success?
    ensures SourcesDiffer(RequestedAll(c, rs).value)
    decreases |rs|
  {
    if rs != [] {
      RequestKeepsSourcesApart(c, rs[0]);
      RunKeepsSourcesApart(Requested(c, rs[0]).value, rs[1..]);
    }
  }

  /** The destination last asked for from src, or before if rs does not ask. */
  function LastDest(rs: seq<Request>, src: string, before: Option<string>): Option<string>
    decreases |rs|
  {
    if rs == [] then before
    else LastDest(rs[1..], src, if rs[0].src == src then Some(rs[0].dest) else before)
  }

  /** Whatever is live from src goes to dest, and without a dest nothing is. */
  predicate Answers(c: Config, src: string, dest: Option<string>) {
    && (forall i :: 0 <= i < |c| && Live(c[i]) && FromSource(c[i], src) ==> First(c[i], "dest") == dest && dest.Some?)
    && (dest.Some? ==> Flows(c, src, dest.value))
  }

  /** What is live after a request answers it or was live before, from another source. */
  lemma LiveAfterRequest(c: Config, r: Request, i: nat)
    requires SourcesDiffer(c) && Requested(c, r).Success?
    requires i < |Requested(c, r).value| && Live(Requested(c, r).value[i])
    ensures var s := Requested(c, r).value[i];
            || Forwards(s, r.src, r.dest)
            || (First(s, "src") != Some(r.src) && i < |c| && s == c[i])
  {
    if EnabledMatch(c, r).None? {
      var k := RequestSilencesSource(c, r);
    } else {
      var k := EnabledMatch(c, r).value;
      assert Live(c[k]);
    }
  }

  /** A flow from another source outlives a fresh request. */
  lemma FlowSurvives(c: Config, r: Request, src: string, dest: string)
    requires Fresh(c, r) && Requested(c, r).Success? && Flows(c, src, dest) && src != r.src
    ensures Flows(Requested(c, r).value, src, dest)
  {
    var n := Requested(c, r).value;
    var i :| 0 <= i < |c| && EnabledForwards(c[i], src, dest);
    if EnabledMatch(c, r).None? {
      PreparedKeepsOthers(c, r, i);
      MatchSurvivesPreparing(c, r);
    }
    assert n[i] == c[i];
  }

  lemma PreparedKeepsOthers(c: Config, r: Request, i: nat)
    requires i < |c| && c[i].kind == FORWARDING && !FromSource(c[i], r.src)
    ensures Prepared(c, r)[i] == c[i]
  {
    assert NatApplied(c, r.dest, r.natOnDest)[i] == c[i];
  }

  lemma RequestKeepsAnswers(c: Config, r: Request, src: string, dest: Option<string>)
    requires Answers(c, src, dest) && SourcesDiffer(c) && Fresh(c, r) && Requested(c, r).Success?
    ensures Answers(Requested(c, r).value, src, if r.src == src then Some(r.dest) else dest)
  {
    var n := Requested(c, r).value;
    var now := if r.src == src then Some(r.dest) else dest;
    forall i | 0 <= i < |n| && Live(n[i]) && FromSource(n[i], src) ensures First(n[i], "dest") == now && now.Some? {
      LiveAfterRequest(c, r, i);
    }
    if r.src == src {
      FreshRequestFlows(c, r);
    } else if dest.Some? {
      FlowSurvives(c, r, src, dest.value);
    }
  }

  lemma {:induction false} RunKeepsAnswers(c: Config, rs: seq<Request>, src: string, dest: Option<string>)
    requires Answers(c, src, dest) && SourcesDiffer(c) && FreshAll(c, rs) && RequestedAll(c, rs).Success?
    ensures Answers(RequestedAll(c, rs).value, src, LastDest(rs, src, dest))
    decreases |rs|
  {
    if rs != [] {
      RequestKeepsAnswers(c, rs[0], src, dest);
      RequestKeepsSourcesApart(c, rs[0]);
      RunKeepsAnswers(Requested(c, rs[0]).value, rs[1..], src, if rs[0].src == src then Some(rs[0].dest) else dest);
    }
  }

  /** After any setup each source zone has the one forwarding last requested for it, and a source never requested has none. */
  lemma SetupLeavesLastRequest(c: Config, rs: seq<Request>, rules: seq<Rule>, src: string)
    requires FreshAll(Reset(c), rs) && Setup(c, rs, rules).Success?
    ensures Answers(Setup(c, rs, rules).value, src, LastDest(rs, src, None))
    ensures SourcesDiffer(Setup(c, rs, rules).value)
  {
    var a, f := Reset(c), RequestedAll(Reset(c), rs).value;
    ResetIsReset(c);
    ResetForwardingsAreOff(a);
    RunKeepsAnswers(a, rs, src, None);
    RunKeepsSourcesApart(a, rs);
    ResetOfRun(c, rs, rules);
    RulesKeepAnswers(f, rules, src, LastDest(rs, src, None));
  }

  lemma RulesKeepAnswers(f: Config, rules: seq<Rule>, src: string, dest: Option<string>)
    requires Answers(f, src, dest) && SourcesDiffer(f)
    ensures Answers(f + RuleSections(rules, 0), src, dest) && SourcesDiffer(f + RuleSections(rules, 0))
  {
    var g := f + RuleSections(rules, 0);
    assert forall i :: 0 <= i < |g| && Live(g[i]) ==> i < |f| && g[i] == f[i];
    if dest.Some? {
      RulesDoNotFlow(f, rules, src, dest.value);
    }
  }
}
