/**
 * The wizard's passes as they run: sections are listed by type, then read and
 * written one at a time by name. Each pass is proved to compute its function in
 * FirewallWizard.
 */
module FirewallStore {
  import opened Outcomes
  import opened Text
  import opened FirewallWizard
  import opened FirewallNat

  ghost predicate Unique(c: Config) {
    forall i, j :: 0 <= i < j < |c| ==> c[i].name != c[j].name
  }

  /** The names are those of the sections of the type, in store order; ps says where they stand. */
  ghost predicate Lists(c: Config, kind: string, names: seq<string>, ps: seq<nat>) {
    && |names| == |ps| == Count(c, kind)
    && (forall k :: 0 <= k < |ps| ==> ps[k] < |c| && c[ps[k]].kind == kind && c[ps[k]].name == names[k])
    && (forall i, j :: 0 <= i < j < |ps| ==> ps[i] < ps[j])
    && (forall i :: 0 <= i < |c| && c[i].kind == kind ==> i in ps)
  }

  lemma ListsOneMore(c: Config, s: Section, kind: string, names: seq<string>, ps: seq<nat>)
    requires Lists(c, kind, names, ps)
    ensures if s.kind == kind then Lists(c + [s], kind, names + [s.name], ps + [|c|]) else Lists(c + [s], kind, names, ps)
  {
    CountAppends(c, [s], kind);
  }

  /** Where the n-th listed section stands, or the end of the store. */
  ghost function Place(c: Config, ps: seq<nat>, n: nat): nat {
    if n < |ps| then ps[n] else |c|
  }

  /** Nothing of the type stands between two listed sections. */
  lemma NothingBetween(c: Config, kind: string, names: seq<string>, ps: seq<nat>, n: nat)
    requires Lists(c, kind, names, ps)
    ensures Place(c, ps, n) <= |c|
    ensures forall i :: 0 <= i < |c| && c[i].kind == kind ==> Place(c, ps, 0) <= i
    ensures n < |ps| ==>
              forall i :: 0 <= i < |c| && c[i].kind == kind ==> i <= ps[n] || Place(c, ps, n + 1) <= i
  {
    forall i | 0 <= i < |c| && c[i].kind == kind
      ensures Place(c, ps, 0) <= i
      ensures n < |ps| ==> i <= ps[n] || Place(c, ps, n + 1) <= i
    {
      var j :| 0 <= j < |ps| && ps[j] == i;
      assert j == 0 || ps[0] < ps[j];
      assert n < j < |ps| ==> n + 1 == j || ps[n + 1] < ps[j];
      assert j < n < |ps| ==> ps[j] < ps[n];
    }
  }

  lemma NextPlace(c: Config, kind: string, names: seq<string>, ps: seq<nat>, n: nat)
    requires Lists(c, kind, names, ps) && n < |ps|
    ensures ps[n] < Place(c, ps, n + 1) <= |c|
    ensures forall i :: ps[n] < i < Place(c, ps, n + 1) ==> c[i].kind != kind
  {
    NothingBetween(c, kind, names, ps, n);
  }

  /** Under unique names, a section is listed exactly when it has the type. */
  lemma ListedIffOfKind(c: Config, kind: string, names: seq<string>, ps: seq<nat>, i: nat)
    requires Unique(c) && Lists(c, kind, names, ps) && i < |c|
    ensures c[i].name in names <==> c[i].kind == kind
  {
    if c[i].kind == kind {
      var k :| 0 <= k < |ps| && ps[k] == i;
      assert names[k] == c[i].name;
    }
    if k :| 0 <= k < |names| && names[k] == c[i].name {
      assert c[ps[k]].name == c[i].name;
    }
  }

  /** The sections whose names are not gone. */
  ghost function Without(c: Config, gone: set<string>): Config {
    if c == [] then []
    else (if c[0].name in gone then [] else [c[0]]) + Without(c[1..], gone)
  }

  lemma {:induction false} WithoutTwice(c: Config, a: set<string>, b: set<string>)
    ensures Without(Without(c, a), b) == Without(c, a + b)
  {
    if c != [] {
      WithoutTwice(c[1..], a, b);
      var w := Without(c[1..], a);
      if c[0].name !in a {
        assert Without(c, a) == [c[0]] + w;
        assert ([c[0]] + w)[1..] == w;
      } else {
        assert Without(c, a) == w;
      }
    }
  }

  lemma {:induction false} WithoutNothing(c: Config)
    ensures Without(c, {}) == c
  {
    if c != [] { WithoutNothing(c[1..]); }
  }

  lemma {:induction false} WithoutRules(c: Config, gone: set<string>)
    requires forall i :: 0 <= i < |c| ==> (c[i].name in gone <==> c[i].kind == RULE)
    ensures Without(c, gone) == RemoveRules(c)
  {
    if c != [] {
      assert forall i :: 0 <= i < |c[1..]| ==> c[1..][i] == c[i + 1];
      WithoutRules(c[1..], gone);
    }
  }

  lemma {:induction false} WithoutIsPart(c: Config, gone: set<string>)
    requires Unique(c)
    ensures Unique(Without(c, gone))
    ensures forall s :: s in Without(c, gone) <==> s in c && s.name !in gone
  {
    if c != [] {
      var w := Without(c[1..], gone);
      assert forall i :: 0 <= i < |c[1..]| ==> c[1..][i] == c[i + 1];
      WithoutIsPart(c[1..], gone);
      assert c == [c[0]] + c[1..];
      assert forall i :: 0 <= i < |w| ==> w[i] in c[1..];
    }
  }

  ghost predicate SameNames(c: Config, d: Config) {
    |c| == |d| && forall i :: 0 <= i < |c| ==> c[i].name == d[i].name && c[i].kind == d[i].kind
  }

  /** A write of the same value, or the same removals, twice. */
  lemma WrittenTwice(s: Section)
    ensures Put(Put(s, "enabled", ["0"]), "enabled", ["0"]) == Put(s, "enabled", ["0"])
    ensures Drop(Drop(Drop(Drop(s, "mtu_fix"), "masq"), "mtu_fix"), "masq") == Drop(Drop(s, "mtu_fix"), "masq")
  {
    assert s.options["enabled" := ["0"]]["enabled" := ["0"]] == s.options["enabled" := ["0"]];
    var o := s.options - {"mtu_fix"} - {"masq"};
    assert o - {"mtu_fix"} - {"masq"} == o;
  }

  /** What a request comes to when its forwarding is not enabled, by the prepared store. */
  lemma RequestedWhenOff(c: Config, r: Request)
    requires r.src != "" && r.dest != "" && EnabledMatch(c, r).None?
    ensures var p := Prepared(c, r);
            match Match(p, r)
            case Some(k) => Requested(c, r) == Success(p[k := Drop(p[k], "enabled")]) && Chosen(c, r) == p[k].name
            case None => Requested(c, r) == Created(p, SectionName(c, r), r.src, r.dest) && Chosen(c, r) == SectionName(c, r)
  {
    MatchSurvivesPreparing(c, r);
    PreparedIsAlike(c, r);
    if Match(c, r).Some? {
      assert Alike(Prepared(c, r)[Match(c, r).value], c[Match(c, r).value]);
    }
  }

  /** Forwardings from src are off, up to a place. */
  ghost predicate DisabledUpTo(c: Config, d: Config, src: string, place: nat) {
    && |d| == |c|
    && forall i :: 0 <= i < |c| ==>
         d[i] == if i < place && FromSource(c[i], src) then Put(c[i], "enabled", ["0"]) else c[i]
  }

  lemma DisabledToNext(c: Config, d: Config, src: string, names: seq<string>, ps: seq<nat>, n: nat)
    requires Lists(c, FORWARDING, names, ps) && n < |ps| && DisabledUpTo(c, d, src, ps[n])
    ensures d[ps[n]] == c[ps[n]] && c[ps[n]].kind == FORWARDING && c[ps[n]].name == names[n]
    ensures var k := ps[n];
            DisabledUpTo(c, if FromSource(c[k], src) then d[k := Put(d[k], "enabled", ["0"])] else d, src, Place(c, ps, n + 1))
  {
    NextPlace(c, FORWARDING, names, ps, n);
  }

  ghost predicate NoneEnabledBelow(c: Config, r: Request, place: nat) {
    && place <= |c|
    && forall i :: 0 <= i < place ==> !EnabledForwards(c[i], r.src, r.dest)
  }

  lemma NoneEnabledBelowNext(c: Config, r: Request, names: seq<string>, ps: seq<nat>, n: nat)
    requires Lists(c, FORWARDING, names, ps) && n < |ps|
    requires NoneEnabledBelow(c, r, ps[n]) && !EnabledForwards(c[ps[n]], r.src, r.dest)
    ensures NoneEnabledBelow(c, r, Place(c, ps, n + 1))
  {
    NextPlace(c, FORWARDING, names, ps, n);
  }

  lemma DisabledAtFirst(c: Config, src: string, names: seq<string>, ps: seq<nat>)
    requires Lists(c, FORWARDING, names, ps)
    ensures DisabledUpTo(c, c, src, Place(c, ps, 0))
  {
    NothingBetween(c, FORWARDING, names, ps, 0);
  }

  lemma DisabledToTheEnd(c: Config, d: Config, src: string)
    requires DisabledUpTo(c, d, src, |c|)
    ensures d == SourceDisabled(c, src)
  {
  }

  /** The named sections have lost both flags. */
  ghost predicate UnsetAmong(c: Config, d: Config, names: set<string>) {
    && |d| == |c|
    && forall i :: 0 <= i < |c| ==>
         d[i] == if c[i].name in names then Drop(Drop(c[i], "mtu_fix"), "masq") else c[i]
  }

  lemma UnsetOneMore(c: Config, d: Config, e: Config, names: set<string>, name: string)
    requires UnsetAmong(c, d, names) && |e| == |c|
    requires forall i :: 0 <= i < |c| ==> e[i] == if c[i].name == name then Drop(Drop(d[i], "mtu_fix"), "masq") else d[i]
    ensures UnsetAmong(c, e, names + {name})
  {
    forall i | 0 <= i < |c| { WrittenTwice(c[i]); }
  }

  lemma UniqueFoundByName(c: Config, k: nat)
    requires Unique(c) && k < |c|
    ensures Named(c, c[k].name) == Some(k) && NameUsed(c, c[k].name)
  {
  }

  /** An ordered store of named sections, no two of one name. */
  class UciStore {
    var sections: Config

    ghost predicate Valid()
      reads this
    {
      Unique(sections)
    }

    constructor (initial: Config)
      requires Unique(initial)
      ensures Valid() && sections == initial
    {
      sections := initial;
    }

    /** Where the section of a name is. */
    method Find(name: string) returns (k: nat)
      requires Valid() && NameUsed(sections, name)
      ensures k < |sections| && sections[k].name == name && Named(sections, name) == Some(k)
    {
      k := 0;
      while sections[k].name != name
        invariant k < |sections| && forall i :: 0 <= i < k ==> sections[i].name != name
        decreases |sections| - k
      {
        k := k + 1;
      }
    }

    method GetSections(kind: string) returns (names: seq<string>, ghost ps: seq<nat>)
      requires Valid()
      ensures Lists(sections, kind, names, ps)
    {
      names, ps := [], [];
      for n := 0 to |sections|
        invariant Lists(sections[..n], kind, names, ps)
      {
        ListsOneMore(sections[..n], sections[n], kind, names, ps);
        assert sections[..n + 1] == sections[..n] + [sections[n]];
        if sections[n].kind == kind {
          names, ps := names + [sections[n].name], ps + [n];
        }
      }
      assert sections[..|sections|] == sections;
    }

    method SetType(name: string, option: string, values: seq<string>)
      requires Valid() && NameUsed(sections, name)
      modifies this
      ensures Valid() && SameNames(sections, old(sections))
      ensures forall i :: 0 <= i < |sections| ==>
                sections[i] == if old(sections)[i].name == name then Put(old(sections)[i], option, values) else old(sections)[i]
    {
      var k := Find(name);
      sections := sections[k := Put(sections[k], option, values)];
    }

    method Del(name: string, option: string)
      requires Valid() && NameUsed(sections, name)
      modifies this
      ensures Valid() && SameNames(sections, old(sections))
      ensures forall i :: 0 <= i < |sections| ==>
                sections[i] == if old(sections)[i].name == name then Drop(old(sections)[i], option) else old(sections)[i]
    {
      var k := Find(name);
      sections := sections[k := Drop(sections[k], option)];
    }

    /** Adding a section that exists with the same type changes nothing. */
    method AddSection(name: string, kind: string) returns (error: Option<WizardError>)
      requires Valid()
      modifies this
      ensures Valid() && NameUsed(sections, name)
      ensures match Named(old(sections), name)
              case None => error == None && sections == old(sections) + [Section(name, kind, map[])]
              case Some(k) =>
                sections == old(sections)
                && error == if old(sections)[k].kind == kind then None else Some(SectionTypeMismatch)
    {
      match Named(sections, name)
      case None =>
        sections := sections + [Section(name, kind, map[])];
        assert sections[|sections| - 1].name == name;
        error := None;
      case Some(k) =>
        error := if sections[k].kind == kind then None else Some(SectionTypeMismatch);
    }

    method DelSection(name: string)
      requires Valid()
      modifies this
      ensures Valid() && sections == Without(old(sections), {name})
    {
      ghost var was := sections;
      var kept: Config := [];
      var i := |sections|;
      while i > 0
        invariant 0 <= i <= |sections| && sections == was
        invariant kept == Without(was[i..], {name})
      {
        i := i - 1;
        assert was[i..][1..] == was[i + 1..];
        kept := (if sections[i].name == name then [] else [sections[i]]) + kept;
      }
      sections := kept;
      assert was[0..] == was;
      WithoutIsPart(was, {name});
    }

    // ---- Reset passes ---------------------------------------------------------------

    /** Delete the named sections, last to first. */
    method DeleteSections(names: seq<string>)
      requires Valid()
      modifies this
      ensures Valid() && sections == Without(old(sections), set name | name in names)
    {
      ghost var was := sections;
      var i := |names|;
      WithoutNothing(was);
      ghost var gone: set<string> := {};
      while i > 0
        invariant 0 <= i <= |names| && Valid()
        invariant gone == set name | name in names[i..]
        invariant sections == Without(was, gone)
      {
        i := i - 1;
        DelSection(names[i]);
        WithoutTwice(was, gone, {names[i]});
        gone := gone + {names[i]};
        assert names[i..] == [names[i]] + names[i + 1..];
      }
      assert names[0..] == names;
    }

    method RemoveAllRules()
      requires Valid()
      modifies this
      ensures Valid() && sections == RemoveRules(old(sections))
    {
      var names, ps := GetSections(RULE);
      forall j | 0 <= j < |sections| ensures sections[j].name in names <==> sections[j].kind == RULE {
        ListedIffOfKind(sections, RULE, names, ps, j);
      }
      WithoutRules(sections, set name | name in names);
      DeleteSections(names);
    }

    method WhitelistAndDisableForwardings()
      requires Valid()
      modifies this
      ensures Valid() && SameNames(sections, old(sections))
      ensures forall i :: 0 <= i < |sections| ==>
                sections[i] == if old(sections)[i].kind == FORWARDING then Put(old(sections)[i], "enabled", ["0"])
                               else old(sections)[i]
    {
      ghost var was := sections;
      var names, ps := GetSections(FORWARDING);
      for n := 0 to |names|
        invariant Valid() && SameNames(sections, was)
        invariant forall i :: 0 <= i < |was| ==>
                    sections[i] == if was[i].name in names[..n] then Put(was[i], "enabled", ["0"]) else was[i]
      {
        assert sections[ps[n]].name == names[n];
        assert names[..n + 1] == names[..n] + [names[n]];
        forall i | 0 <= i < |was| { WrittenTwice(was[i]); }
        SetType(names[n], "enabled", ["0"]);
      }
      assert names[..|names|] == names;
      forall i | 0 <= i < |was| ensures was[i].name in names <==> was[i].kind == FORWARDING {
        ListedIffOfKind(was, FORWARDING, names, ps, i);
      }
    }

    method UnsetMtuFixAndMasq()
      requires Valid()
      modifies this
      ensures Valid() && SameNames(sections, old(sections))
      ensures forall i :: 0 <= i < |sections| ==>
                sections[i] == if old(sections)[i].kind == ZONE then Drop(Drop(old(sections)[i], "mtu_fix"), "masq")
                               else old(sections)[i]
    {
      ghost var was := sections;
      var names, ps := GetSections(ZONE);
      for n := 0 to |names|
        invariant Valid() && SameNames(sections, was)
        invariant UnsetAmong(was, sections, set k | 0 <= k < n :: names[k])
      {
        ghost var before := sections;
        assert sections[ps[n]].name == names[n];
        Del(names[n], "mtu_fix");
        assert sections[ps[n]].name == names[n];
        Del(names[n], "masq");
        UnsetOneMore(was, before, sections, set k | 0 <= k < n :: names[k], names[n]);
        assert (set k | 0 <= k < n :: names[k]) + {names[n]} == set k | 0 <= k < n + 1 :: names[k];
      }
      forall i | 0 <= i < |was| ensures was[i].name in names <==> was[i].kind == ZONE {
        ListedIffOfKind(was, ZONE, names, ps, i);
      }
    }

    /** The three passes in the order the reset phase calls them. */
    method ResetFirewall()
      requires Valid()
      modifies this
      ensures Valid() && sections == Reset(old(sections))
    {
      RemoveAllRules();
      WhitelistAndDisableForwardings();
      UnsetMtuFixAndMasq();
      assert sections == Reset(old(sections));
    }

    // ---- Forwardings -------------------------------------------------------------

    method ZoneSectionByName(name: string) returns (found: Option<string>)
      requires Valid()
      ensures match DestZone(sections, name)
              case None => found == None
              case Some(k) => found == Some(sections[k].name)
    {
      var names, ps := GetSections(ZONE);
      NothingBetween(sections, ZONE, names, ps, 0);
      for n := 0 to |names|
        invariant forall i :: 0 <= i < Place(sections, ps, n) ==> i < |sections| && !ZoneNamed(sections[i], name)
      {
        UniqueFoundByName(sections, ps[n]);
        var k := Find(names[n]);
        if ZoneNamed(sections[k], name) {
          return Some(names[n]);
        }
        NextPlace(sections, ZONE, names, ps, n);
      }
      return None;
    }

    method SetDestZoneNatOptions(dest: string, natOnDest: bool)
      requires Valid()
      modifies this
      ensures Valid() && SameNames(sections, old(sections)) && sections == NatApplied(old(sections), dest, natOnDest)
      ensures forall i :: 0 <= i < |sections| ==>
                var s := old(sections)[i];
                sections[i] ==
                  if DestZone(old(sections), dest) != Some(i) then s
                  else if natOnDest then s.(options := s.options["mtu_fix" := ["1"]]["masq" := ["1"]])
                  else s.(options := s.options["mtu_fix" := ["1"]])
    {
      ghost var was := sections;
      var found := ZoneSectionByName(dest);
      if found.Some? {
        UniqueFoundByName(sections, DestZone(sections, dest).value);
        SetType(found.value, "mtu_fix", ["1"]);
        if natOnDest {
          UniqueFoundByName(sections, DestZone(was, dest).value);
          SetType(found.value, "masq", ["1"]);
        }
      }
      assert sections == NatApplied(was, dest, natOnDest);
      forall i | 0 <= i < |was|
        ensures sections[i] ==
                  if DestZone(was, dest) != Some(i) then was[i]
                  else if natOnDest then was[i].(options := was[i].options["mtu_fix" := ["1"]]["masq" := ["1"]])
                  else was[i].(options := was[i].options["mtu_fix" := ["1"]])
      {
        NatZones(was, dest, natOnDest, i);
      }
    }

    method DisableOtherForwardingsFromSrc(names: seq<string>, ghost ps: seq<nat>, src: string)
      requires Valid() && Lists(sections, FORWARDING, names, ps)
      modifies this
      ensures Valid() && SameNames(sections, old(sections)) && sections == SourceDisabled(old(sections), src)
    {
      ghost var was := sections;
      DisabledAtFirst(was, src, names, ps);
      for n := 0 to |names|
        invariant Valid() && SameNames(sections, was)
        invariant DisabledUpTo(was, sections, src, Place(was, ps, n))
      {
        DisabledToNext(was, sections, src, names, ps, n);
        DisableIfFrom(names[n], ps[n], src);
      }
      DisabledToTheEnd(was, sections, src);
    }

    method DisableIfFrom(name: string, ghost at: nat, src: string)
      requires Valid() && at < |sections| && sections[at].name == name && sections[at].kind == FORWARDING
      modifies this
      ensures Valid() && SameNames(sections, old(sections))
      ensures var s := old(sections)[at];
              sections == if FromSource(s, src) then old(sections)[at := Put(s, "enabled", ["0"])] else old(sections)
    {
      UniqueFoundByName(sections, at);
      var k := Find(name);
      ghost var was := sections;
      if First(sections[k], "src") == Some(src) {
        SetType(name, "enabled", ["0"]);
        assert sections == was[at := Put(was[at], "enabled", ["0"])];
      }
    }

    /** The first enabled forwarding between two zones. */
    method FindEnabled(names: seq<string>, ghost ps: seq<nat>, r: Request) returns (found: Option<string>)
      requires Valid() && Lists(sections, FORWARDING, names, ps)
      ensures match EnabledMatch(sections, r)
              case None => found == None
              case Some(k) => found == Some(sections[k].name)
    {
      NothingBetween(sections, FORWARDING, names, ps, 0);
      for n := 0 to |names|
        invariant NoneEnabledBelow(sections, r, Place(sections, ps, n))
      {
        UniqueFoundByName(sections, ps[n]);
        var k := Find(names[n]);
        assert k == ps[n];
        if Forwards(sections[k], r.src, r.dest) && Enabled(sections[k]) {
          return Some(names[n]);
        }
        NoneEnabledBelowNext(sections, r, names, ps, n);
      }
      return None;
    }

    /** The first forwarding between two zones, enabled or not. */
    method FindForwarding(names: seq<string>, ghost ps: seq<nat>, r: Request) returns (found: Option<string>)
      requires Valid() && Lists(sections, FORWARDING, names, ps)
      ensures match Match(sections, r)
              case None => found == None
              case Some(k) => found == Some(sections[k].name)
    {
      NothingBetween(sections, FORWARDING, names, ps, 0);
      for n := 0 to |names|
        invariant Place(sections, ps, n) <= |sections|
        invariant forall i :: 0 <= i < Place(sections, ps, n) ==> !Forwards(sections[i], r.src, r.dest)
      {
        UniqueFoundByName(sections, ps[n]);
        var k := Find(names[n]);
        assert k == ps[n];
        if Forwards(sections[k], r.src, r.dest) {
          return Some(names[n]);
        }
        NextPlace(sections, FORWARDING, names, ps, n);
      }
      return None;
    }

    /** NAT flags on the destination zone, then every forwarding of the source off. */
    method Prepare(names: seq<string>, ghost ps: seq<nat>, r: Request)
      requires Valid() && Lists(sections, FORWARDING, names, ps)
      modifies this
      ensures Valid() && sections == Prepared(old(sections), r)
      ensures Lists(sections, FORWARDING, names, ps)
    {
      ghost var was := sections;
      SetDestZoneNatOptions(r.dest, r.natOnDest);
      ListedAgain(was, sections, FORWARDING, names, ps);
      ghost var flagged := sections;
      DisableOtherForwardingsFromSrc(names, ps, r.src);
      ListedAgain(flagged, sections, FORWARDING, names, ps);
    }

    method GetOrCreateForwarding(r: Request) returns (result: Result<string, WizardError>)
      requires Valid()
      modifies this
      ensures Valid()
      ensures match Requested(old(sections), r)
              case Success(next) => sections == next && result == Success(Chosen(old(sections), r))
              case Failure(e) =>
                result == Failure(e)
                && sections == if e == EmptyZoneName then old(sections) else Prepared(old(sections), r)
      ensures r.src != "" && r.dest != "" && EnabledMatch(old(sections), r).None? ==>
                ZonesFlagged(old(sections), sections, r.dest, r.natOnDest)
      ensures r.src == "" || r.dest == "" || EnabledMatch(old(sections), r).Some? ==> sections == old(sections)
    {
      if r.src == "" || r.dest == "" {
        return Failure(EmptyZoneName);
      }
      ghost var was := sections;
      var names, ps := GetSections(FORWARDING);
      var enabled := FindEnabled(names, ps, r);
      if enabled.Some? {
        return Success(enabled.value);
      }
      WorkFlagsZones(was, r);
      Prepare(names, ps, r);
      RequestedWhenOff(was, r);
      result := EnableOrCreate(names, ps, r);
    }

    /** The second half, on the prepared store. */
    method EnableOrCreate(names: seq<string>, ghost ps: seq<nat>, r: Request) returns (result: Result<string, WizardError>)
      requires Valid() && Lists(sections, FORWARDING, names, ps)
      modifies this
      ensures Valid()
      ensures var p := old(sections);
              match Match(p, r)
              case Some(k) => sections == p[k := Drop(p[k], "enabled")] && result == Success(p[k].name)
              case None =>
                match Created(p, SectionName(p, r), r.src, r.dest)
                case Success(next) => sections == next && result == Success(SectionName(p, r))
                case Failure(e) => sections == p && result == Failure(e)
    {
      var existing := FindForwarding(names, ps, r);
      if existing.Some? {
        UniqueFoundByName(sections, Match(sections, r).value);
        Del(existing.value, "enabled");
        return Success(existing.value);
      }
      var section := if r.name == "" then "wizard_fwd_" + Decimal(|names|) else r.name;
      result := CreateForwarding(section, r.src, r.dest);
    }

    method CreateForwarding(section: string, src: string, dest: string) returns (result: Result<string, WizardError>)
      requires Valid()
      modifies this
      ensures Valid()
      ensures match Created(old(sections), section, src, dest)
              case Success(next) => sections == next && result == Success(section)
              case Failure(e) => sections == old(sections) && result == Failure(e)
    {
      ghost var was := sections;
      var error := AddSection(section, FORWARDING);
      if error.Some? {
        return Failure(error.value);
      }
      SetType(section, "src", [src]);
      SetType(section, "dest", [dest]);
      result := Success(section);
      assert sections == Created(was, section, src, dest).value;
    }

    // ---- Rules -----------------------------------------------------------------------

    /** An empty value is not written. */
    method SetOpt(ghost k: nat, name: string, option: string, value: string)
      requires Valid() && k < |sections| && sections[k].name == name
      modifies this
      ensures Valid() && sections == WithOptions(old(sections), k, Opt(old(sections)[k].options, option, value))
    {
      ghost var was := sections;
      UniqueFoundByName(sections, k);
      if value != "" {
        SetType(name, option, [value]);
      }
      assert sections == WithOptions(was, k, Opt(was[k].options, option, value));
    }

    method SetIcmpTypes(ghost k: nat, name: string, types: seq<string>)
      requires Valid() && k < |sections| && sections[k].name == name
      modifies this
      ensures Valid() && sections == WithOptions(old(sections), k, IcmpTypes(old(sections)[k].options, types))
    {
      ghost var was := sections;
      UniqueFoundByName(sections, k);
      if |types| == 1 {
        SetOpt(k, name, "icmp_type", types[0]);
      } else if |types| > 1 {
        SetType(name, "icmp_type", types);
      }
      assert sections == WithOptions(was, k, IcmpTypes(was[k].options, types));
    }

    /** Write a rule's non-empty fields into its section. */
    method WriteRule(ghost k: nat, name: string, r: Rule)
      requires Valid() && k < |sections| && sections[k].name == name
      modifies this
      ensures Valid() && sections == WithOptions(old(sections), k, RuleOptions(old(sections)[k].options, r))
    {
      SetOpt(k, name, "name", r.name);
      SetOpt(k, name, "src", r.src);
      SetOpt(k, name, "dest", r.dest);
      SetOpt(k, name, "src_ip", r.srcIp);
      SetOpt(k, name, "dest_ip", r.destIp);
      SetOpt(k, name, "proto", r.proto);
      SetOpt(k, name, "dest_port", r.destPort);
      SetIcmpTypes(k, name, r.icmpType);
      SetOpt(k, name, "limit", r.limit);
      SetOpt(k, name, "target", r.target);
      SetOpt(k, name, "family", r.family);
    }

    method AddAnonymousRule(r: Rule) returns (error: Option<WizardError>)
      requires Valid()
      modifies this
      ensures Valid()
      ensures match AddedRule(old(sections), r)
              case Success(next) => error == None && sections == next
              case Failure(e) => error == Some(e) && sections == old(sections)
    {
      ghost var was := sections;
      var names, ps := GetSections(RULE);
      var section := RuleSectionName(r.name, |names|);
      error := AddSection(section, RULE);
      if error.Some? {
        return;
      }
      ghost var k := if Named(was, section).Some? then Named(was, section).value else |was|;
      WriteRule(k, section, r);
      assert sections == AddedRule(was, r).value;
    }

    /** The default rules in order; a failure leaves the rules before it. */
    method AddDefaultWanFirewallRules(localZone: string) returns (error: Option<WizardError>)
      requires Valid()
      modifies this
      ensures Valid()
      ensures localZone == "" ==> error == Some(EmptyZoneName) && sections == old(sections)
      ensures localZone != "" ==>
                match AddedRules(old(sections), DefaultRules(localZone))
                case Success(next) => error == None && sections == next
                case Failure(e) =>
                  error.Some? && exists n :: 0 <= n < 13 && AddedRules(old(sections), DefaultRules(localZone)[..n]) == Success(sections)
    {
      if localZone == "" {
        return Some(EmptyZoneName);
      }
      ghost var was := sections;
      var rules := DefaultRules(localZone);
      for n := 0 to |rules|
        invariant Valid() && AddedRules(was, rules[..n]) == Success(sections)
      {
        assert rules[..n + 1][..n] == rules[..n] && rules[..n + 1][n] == rules[n];
        error := AddAnonymousRule(rules[n]);
        if error.Some? {
          FailureStays(was, rules, n + 1);
          return;
        }
      }
      assert rules[..|rules|] == rules;
      error := None;
    }

    // ---- A whole setup --------------------------------------------------------------

    /** Reset, the forwardings in order, the default rules. */
    method RunSetup(requests: seq<Request>, localZone: string) returns (done: bool)
      requires Valid() && localZone != ""
      modifies this
      ensures Valid()
      ensures done <==> Setup(old(sections), requests, DefaultRules(localZone)).Success?
      ensures done ==> Setup(old(sections), requests, DefaultRules(localZone)) == Success(sections)
    {
      ghost var was := sections;
      ResetFirewall();
      for n := 0 to |requests|
        invariant Valid() && RequestedAll(sections, requests[n..]) == RequestedAll(Reset(was), requests)
      {
        assert requests[n..][1..] == requests[n + 1..];
        var result := GetOrCreateForwarding(requests[n]);
        if result.Failure? {
          return false;
        }
      }
      var error := AddDefaultWanFirewallRules(localZone);
      done := error.None?;
    }
  }

  /** The store with one section's options replaced. */
  ghost function WithOptions(c: Config, k: nat, options: map<string, seq<string>>): Config
    requires k < |c|
  {
    c[k := c[k].(options := options)]
  }

  /** A rule that cannot be added stops the rest. */
  lemma {:induction false} FailureStays(c: Config, rules: seq<Rule>, n: nat)
    requires n <= |rules| && AddedRules(c, rules[..n]).Failure?
    ensures AddedRules(c, rules).Failure?
    decreases |rules|
  {
    if n == |rules| {
      assert rules[..n] == rules;
    } else {
      assert rules[..|rules| - 1][..n] == rules[..n];
      FailureStays(c, rules[..|rules| - 1], n);
    }
  }

  lemma ListedAgain(c: Config, d: Config, kind: string, names: seq<string>, ps: seq<nat>)
    requires SameNames(c, d) && Lists(c, kind, names, ps)
    ensures Lists(d, kind, names, ps)
  {
    SameCount(c, d, kind);
  }

  lemma {:induction false} SameCount(c: Config, d: Config, kind: string)
    requires SameNames(c, d)
    ensures Count(c, kind) == Count(d, kind)
  {
    if c != [] {
      SameCount(c[1..], d[1..], kind);
    }
  }
}
