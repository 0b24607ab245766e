/**
 * Getting or creating the firewall zone of a network: the search for an unused
 * name ends on every store, and asking again changes nothing unless the first
 * zone listing the network has no name.
 */
module FirewallZones {
  import opened Outcomes
  import opened Text
  import opened FirewallWizard
  import opened FirewallStore
  import opened FiniteSets

  predicate ListsNetwork(s: Section, network: string) {
    s.kind == ZONE && "network" in s.options && network in s.options["network"]
  }

  /** The first zone listing a network. */
  function Lister(c: Config, network: string): (r: Option<nat>)
    ensures r.Some? ==> r.value < |c| && ListsNetwork(c[r.value], network)
                        && forall i :: 0 <= i < r.value ==> !ListsNetwork(c[i], network)
    ensures r.None? ==> forall i :: 0 <= i < |c| ==> !ListsNetwork(c[i], network)
  {
    FindFirst(c, (s: Section) => ListsNetwork(s, network))
  }

  /** Its name, or nothing when no zone lists the network or the first that does has no name. */
  function ZoneNameFor(c: Config, network: string): string {
    match Lister(c, network)
    case None => ""
    case Some(k) => if First(c[k], "name").Some? then First(c[k], "name").value else ""
  }

  /** A zone, forwarding or rule of this section name, or a zone of this name option. */
  predicate Takes(s: Section, name: string) {
    || (s.kind in {ZONE, FORWARDING, RULE} && s.name == name)
    || ZoneNamed(s, name)
  }

  predicate Taken(c: Config, name: string) {
    exists i :: 0 <= i < |c| && Takes(c[i], name)
  }

  /** A name is taken exactly by a zone, forwarding or rule of that section name, or a zone whose name option begins with it. */
  lemma TakenMeans(c: Config, name: string)
    ensures Taken(c, name) <==>
              exists i :: 0 <= i < |c| && (
                (c[i].kind in {"zone", "forwarding", "rule"} && c[i].name == name)
                || (c[i].kind == "zone" && "name" in c[i].options && |c[i].options["name"]| > 0 && c[i].options["name"][0] == name))
  {
    if i :| 0 <= i < |c| && ((c[i].kind in {"zone", "forwarding", "rule"} && c[i].name == name)
              || (c[i].kind == "zone" && "name" in c[i].options && |c[i].options["name"]| > 0 && c[i].options["name"][0] == name)) {
      assert Takes(c[i], name);
    }
  }

  /** The proposals in order: the network's own name, then that name with 1, 2 and so on behind it. */
  function Candidate(network: string, i: nat): string {
    if i == 0 then network else network + Decimal(i)
  }

  lemma CandidatesDiffer(network: string, i: nat, j: nat)
    ensures i != j ==> Candidate(network, i) != Candidate(network, j)
  {
    if Candidate(network, i) == Candidate(network, j) {
      DecimalIsNotEmpty(i);
      DecimalIsNotEmpty(j);
      if i > 0 && j > 0 {
        var a, b := network + Decimal(i), network + Decimal(j);
        assert a[|network|..] == Decimal(i) && b[|network|..] == Decimal(j);
        DecimalIsInjective(i, j);
      }
    }
  }

  // ---- The search for a name ends -----------------------------------------------

  /** Every name a store takes is a section name or a zone's name option. */
  ghost function TakenNames(c: Config): (names: set<string>)
    ensures |names| <= 2 * |c|
    ensures forall i, name :: 0 <= i < |c| && Takes(c[i], name) ==> name in names
  {
    if c == [] then {}
    else
      var m := |c| - 1;
      var own := {c[m].name} + if First(c[m], "name").Some? then {First(c[m], "name").value} else {};
      assert forall i :: 0 <= i < m ==> c[i] == c[..m][i];
      UnionSize(TakenNames(c[..m]), own);
      TakenNames(c[..m]) + own
  }

  lemma {:induction false} CandidatesFill(network: string, n: nat, names: set<string>)
    requires forall i :: 0 <= i < n ==> Candidate(network, i) in names
    ensures n <= |names|
  {
    if n > 0 {
      var last := Candidate(network, n - 1);
      forall i | 0 <= i < n - 1 ensures Candidate(network, i) in names - {last} {
        CandidatesDiffer(network, i, n - 1);
      }
      CandidatesFill(network, n - 1, names - {last});
    }
  }

  /** Before the first free candidate there are at most two taken ones for each section. */
  lemma TakenCandidatesAreFew(c: Config, network: string, n: nat)
    requires forall i :: 0 <= i < n ==> Taken(c, Candidate(network, i))
    ensures n <= 2 * |c|
  {
    var names := TakenNames(c);
    forall i | 0 <= i < n ensures Candidate(network, i) in names {
      assert Taken(c, Candidate(network, i));
    }
    CandidatesFill(network, n, names);
  }

  // ---- Getting or creating -----------------------------------------------------

  function NewZone(name: string, network: string): Section {
    Section(name, ZONE, map["name" := [name], "network" := [network], "input" := ["ACCEPT"],
                            "output" := ["ACCEPT"], "forward" := ["ACCEPT"]])
  }

  /** k is the first free candidate. */
  predicate FirstFree(c: Config, network: string, k: nat) {
    !Taken(c, Candidate(network, k)) && forall j :: 0 <= j < k ==> Taken(c, Candidate(network, j))
  }

  /** What a call on c that returns name may leave behind. */
  ghost predicate ZoneCall(c: Config, network: string, name: string, next: Config) {
    && network != ""
    && if ZoneNameFor(c, network) != "" then name == ZoneNameFor(c, network) && next == c
       else exists k :: FirstFree(c, network, k) && name == Candidate(network, k)
                        && !NameUsed(c, name) && next == c + [NewZone(name, network)]
  }

  /** The first zone listing the network has no name, so it is passed over but never replaced. */
  predicate HiddenByUnnamed(c: Config, network: string) {
    Lister(c, network).Some? && ZoneNameFor(c, network) == ""
  }

  /** A second call for the same network changes nothing exactly when no unnamed zone lists it first. */
  lemma RepeatChangesNothingIffNamed(c: Config, network: string, name: string, next: Config)
    requires ZoneCall(c, network, name, next)
    ensures ZoneCall(next, network, name, next) <==> !HiddenByUnnamed(c, network)
  {
    if ZoneNameFor(c, network) == "" {
      var added := NewZone(name, network);
      assert next[|c|] == added && forall i :: 0 <= i < |c| ==> next[i] == c[i];
      assert ListsNetwork(added, network);
      if Lister(c, network).Some? {
        assert Lister(next, network) == Lister(c, network);
      } else {
        assert Lister(next, network) == Some(|c|);
        CandidateIsNotEmpty(c, network, name);
      }
    }
  }

  lemma CandidateIsNotEmpty(c: Config, network: string, name: string)
    requires network != "" && exists k :: FirstFree(c, network, k) && name == Candidate(network, k)
    ensures name != ""
  {
  }

  /** Two calls return one name, whether or not a zone was there before the first. */
  lemma RepeatReturnsSameName(c: Config, network: string, name: string, next: Config, again: string, last: Config)
    requires ZoneCall(c, network, name, next) && ZoneCall(next, network, again, last)
    requires !HiddenByUnnamed(c, network)
    ensures again == name && last == next
  {
    RepeatChangesNothingIffNamed(c, network, name, next);
    assert |next + [NewZone(name, network)]| == |next| + 1;
  }

  lemma FirstFreeIsUnique(c: Config, network: string, i: nat, j: nat)
    requires FirstFree(c, network, i) && FirstFree(c, network, j)
    ensures i == j
  {
    assert i < j ==> Taken(c, Candidate(network, i));
    assert j < i ==> Taken(c, Candidate(network, j));
  }

  /** The new zone's name is used by no other zone, so looking it up finds the new section. */
  lemma NewZoneIsFoundByName(c: Config, network: string, name: string, next: Config)
    requires ZoneCall(c, network, name, next) && ZoneNameFor(c, network) == ""
    ensures DestZone(next, name) == Some(|c|)
  {
    assert next[|c|] == NewZone(name, network);
    forall i | 0 <= i < |c| ensures !ZoneNamed(next[i], name) {
      assert next[i] == c[i] && !Takes(c[i], name);
    }
  }

  method ZoneNameOf(store: UciStore, network: string) returns (name: string)
    requires store.Valid()
    ensures name == ZoneNameFor(store.sections, network)
  {
    var names, ps := store.GetSections(ZONE);
    NothingBetween(store.sections, ZONE, names, ps, 0);
    for n := 0 to |names|
      invariant Place(store.sections, ps, n) <= |store.sections|
      invariant forall i :: 0 <= i < Place(store.sections, ps, n) ==> !ListsNetwork(store.sections[i], network)
    {
      UniqueFoundByName(store.sections, ps[n]);
      var k := store.Find(names[n]);
      if ListsNetwork(store.sections[k], network) {
        var option := First(store.sections[k], "name");
        return if option.Some? then option.value else "";
      }
      NextPlace(store.sections, ZONE, names, ps, n);
    }
    return "";
  }

  /** Whether a section of one type takes a name. */
  method TakenByKind(store: UciStore, kind: string, name: string) returns (taken: bool)
    requires store.Valid() && kind in {ZONE, FORWARDING, RULE}
    ensures taken <==> exists i :: 0 <= i < |store.sections| && store.sections[i].kind == kind && Takes(store.sections[i], name)
  {
    var names, ps := store.GetSections(kind);
    NothingBetween(store.sections, kind, names, ps, 0);
    for n := 0 to |names|
      invariant Place(store.sections, ps, n) <= |store.sections|
      invariant forall i :: 0 <= i < Place(store.sections, ps, n) && store.sections[i].kind == kind ==>
                  !Takes(store.sections[i], name)
    {
      UniqueFoundByName(store.sections, ps[n]);
      var k := store.Find(names[n]);
      if names[n] == name || (kind == ZONE && First(store.sections[k], "name") == Some(name)) {
        assert Takes(store.sections[k], name);
        return true;
      }
      NextPlace(store.sections, kind, names, ps, n);
    }
    return false;
  }

  method ZoneNameOrSectionExists(store: UciStore, name: string) returns (taken: bool)
    requires store.Valid()
    ensures taken <==> Taken(store.sections, name)
  {
    var kinds := [ZONE, FORWARDING, RULE];
    assert kinds[0] in kinds && kinds[1] in kinds && kinds[2] in kinds;
    for n := 0 to |kinds|
      invariant forall i :: 0 <= i < |store.sections| && Takes(store.sections[i], name) ==> store.sections[i].kind !in kinds[..n]
    {
      taken := TakenByKind(store, kinds[n], name);
      if taken {
        return;
      }
      assert kinds[..n + 1] == kinds[..n] + [kinds[n]];
    }
    assert kinds[..|kinds|] == kinds;
    taken := false;
  }

  /** The first proposal nothing takes. */
  method NextZoneName(store: UciStore, network: string) returns (name: string, ghost k: nat)
    requires store.Valid()
    ensures FirstFree(store.sections, network, k) && name == Candidate(network, k)
  {
    name := network;
    var i := 0;
    while true
      invariant name == Candidate(network, i)
      invariant forall j :: 0 <= j < i ==> Taken(store.sections, Candidate(network, j))
      decreases 2 * |store.sections| - i
    {
      var conflict := ZoneNameOrSectionExists(store, name);
      if !conflict {
        break;
      }
      TakenCandidatesAreFew(store.sections, network, i + 1);
      name := network + Decimal(i + 1);
      i := i + 1;
    }
    k := i;
  }

  method GetOrCreateZone(store: UciStore, network: string) returns (result: Result<string, WizardError>)
    requires store.Valid()
    modifies store
    ensures store.Valid()
    ensures result.Success? ==> ZoneCall(old(store.sections), network, result.value, store.sections)
    ensures result.Success? && ZoneNameFor(old(store.sections), network) == "" ==>
              store.sections == old(store.sections) +
                [Section(result.value, "zone", map["name" := [result.value], "network" := [network], "input" := ["ACCEPT"],
                                                   "output" := ["ACCEPT"], "forward" := ["ACCEPT"]])]
    ensures result.Failure? ==> store.sections == old(store.sections)
    ensures result == Failure(EmptyZoneName) <==> network == ""
    ensures result == Failure(SectionTypeMismatch) <==>
              network != "" && ZoneNameFor(old(store.sections), network) == ""
              && exists k :: FirstFree(old(store.sections), network, k) && NameUsed(old(store.sections), Candidate(network, k))
  {
    if network == "" {
      return Failure(EmptyZoneName);
    }
    var known := ZoneNameOf(store, network);
    if known != "" {
      return Success(known);
    }
    var proposed, i := NextZoneName(store, network);
    forall k | FirstFree(store.sections, network, k) ensures k == i {
      FirstFreeIsUnique(store.sections, network, k, i);
    }
    result := CreateZone(store, proposed, network);
  }

  method CreateZone(store: UciStore, name: string, network: string) returns (result: Result<string, WizardError>)
    requires store.Valid() && !Taken(store.sections, name)
    modifies store
    ensures store.Valid()
    ensures if NameUsed(old(store.sections), name)
            then result == Failure(SectionTypeMismatch) && store.sections == old(store.sections)
            else result == Success(name) && store.sections == old(store.sections) + [NewZone(name, network)]
  {
    ghost var was := store.sections;
    var error := store.AddSection(name, ZONE);
    if error.Some? {
      return Failure(error.value);
    }
    assert forall i :: 0 <= i < |was| ==> !Takes(was[i], name);
    ghost var k := |was|;
    assert store.sections[k].name == name;
    store.SetType(name, "name", [name]);
    assert store.sections[k].name == name;
    store.SetType(name, "network", [network]);
    assert store.sections[k].name == name;
    store.SetType(name, "input", ["ACCEPT"]);
    assert store.sections[k].name == name;
    store.SetType(name, "output", ["ACCEPT"]);
    assert store.sections[k].name == name;
    store.SetType(name, "forward", ["ACCEPT"]);
    assert store.sections == was + [NewZone(name, network)];
    result := Success(name);
  }
}
