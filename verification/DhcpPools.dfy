/**
 * The setup wizard's DHCP pools: the reset that switches every pool off, and the
 * call that finds, re-enables or creates the pool of a network.
 *
 * The start offset of a pool without one is random, so every property is about
 * any two draws.
 */
module DhcpPools {
  import opened Outcomes
  import opened Text
  import opened FirewallWizard
  import opened FirewallStore
  import opened FirewallZones
  import opened FiniteSets

  const POOL := "dhcp"

  type Options = map<string, seq<string>>

  datatype PoolError = EmptyNetwork | NoRng | TypeMismatch

  // ---- Reset -----------------------------------------------------------------------

  const ALL_OPTIONS := ["interface", "start", "limit", "leasetime", "ignore", "force", "ra", "ra_slaac", "ra_flags",
                        "dns", "dns_service", "dhcp_option", "instance"]
  const WHITELIST := ["start", "leasetime", "limit", "interface"]

  /** The options the reset strips. */
  const STRIPPED: set<string> := {"ignore", "force", "ra", "ra_slaac", "ra_flags", "dns", "dns_service", "dhcp_option", "instance"}

  function Shelved(s: Section): Section {
    if s.kind == POOL then s.(options := (s.options - STRIPPED)["ignore" := ["1"]]) else s
  }

  function ResetPools(c: Config): (r: Config)
    ensures |r| == |c|
  {
    seq(|c|, i requires 0 <= i < |c| => Shelved(c[i]))
  }

  // ---- Getting or creating -----------------------------------------------------

  predicate Targets(s: Section, network: string) {
    s.kind == POOL && First(s, "interface") == Some(network)
  }

  predicate Serves(s: Section, network: string) {
    Targets(s, network) && First(s, "ignore") != Some("1")
  }

  function FirstServing(c: Config, network: string): (r: Option<nat>)
    ensures r.Some? ==> r.value < |c| && Serves(c[r.value], network)
                        && forall i :: 0 <= i < r.value ==> !Serves(c[i], network)
    ensures r.None? ==> forall i :: 0 <= i < |c| ==> !Serves(c[i], network)
  {
    FindFirst(c, (s: Section) => Serves(s, network))
  }

  function FirstTargeting(c: Config, network: string): (r: Option<nat>)
    ensures r.Some? ==> r.value < |c| && Targets(c[r.value], network)
                        && forall i :: 0 <= i < r.value ==> !Targets(c[i], network)
    ensures r.None? ==> forall i :: 0 <= i < |c| ==> !Targets(c[i], network)
  {
    FindFirst(c, (s: Section) => Targets(s, network))
  }

  function IfAbsent(o: Options, option: string, value: string): Options {
    if option in o then o else o[option := [value]]
  }

  function Kept(o: Options, start: string): Options {
    IfAbsent(IfAbsent(IfAbsent(o, "start", start), "limit", "16"), "leasetime", "12h")
  }

  /** The wizard's options: three only where absent, the others and the extras always. */
  function FilledOptions(o: Options, network: string, extra: Options, start: string): Options {
    Kept(o, start)["interface" := [network]]["force" := ["1"]] + extra
  }

  function Filled(s: Section, network: string, extra: Options, start: string): Section {
    s.(options := FilledOptions(s.options, network, extra, start))
  }

  function Reenabled(s: Section): Section {
    Drop(Drop(s, "ignore"), "instance")
  }

  function RandomStart(draw: nat): string {
    Decimal(255 + 16 * draw)
  }

  /** A pool of that section name, or any section of that name with an interface. */
  predicate PoolNameTaken(c: Config, name: string) {
    exists i :: 0 <= i < |c| && c[i].name == name && (c[i].kind == POOL || "interface" in c[i].options)
  }

  predicate FirstFreePool(c: Config, network: string, k: nat) {
    && !PoolNameTaken(c, Candidate(network, k))
    && forall j :: 0 <= j < k ==> PoolNameTaken(c, Candidate(network, j))
  }

  /** The first free name belongs to a section of another type. */
  ghost predicate PoolNameMismatch(c: Config, network: string) {
    exists k :: FirstFreePool(c, network, k) && NameUsed(c, Candidate(network, k))
  }

  lemma FirstFreePoolIsUnique(c: Config, network: string, i: nat, j: nat)
    requires FirstFreePool(c, network, i) && FirstFreePool(c, network, j)
    ensures i == j
  {
    assert i < j ==> PoolNameTaken(c, Candidate(network, i));
    assert j < i ==> PoolNameTaken(c, Candidate(network, j));
  }

  /** What a call on c that returns name may leave behind. */
  ghost predicate PoolCall(c: Config, network: string, extra: Options, start: string, name: string, next: Config) {
    && network != ""
    && match FirstServing(c, network)
       case Some(k) => name == c[k].name && next == c[k := Filled(c[k], network, extra, start)]
       case None =>
         match FirstTargeting(c, network)
         case Some(k) => name == c[k].name && next == c[k := Filled(Reenabled(c[k]), network, extra, start)]
         case None => PoolCreated(c, network, extra, start, name, next)
  }

  ghost predicate PoolCreated(c: Config, network: string, extra: Options, start: string, name: string, next: Config) {
    && (exists k :: FirstFreePool(c, network, k) && name == Candidate(network, k))
    && !NameUsed(c, name)
    && next == c + [Filled(Section(name, POOL, map[]), network, extra, start)]
  }

  /**
   * A filled pool, option by option: an extra is as given; the pool points at its network
   * and is forced; any other option it had it keeps; and only where it had none it gets the
   * drawn start offset, the limit 16 and the lease time 12h.
   */
  lemma FilledOptionByOption(o: Options, network: string, extra: Options, start: string, x: string)
    ensures x in FilledOptions(o, network, extra, start) <==>
              x in extra || x in o || x in {"interface", "force", "start", "limit", "leasetime"}
    ensures x in FilledOptions(o, network, extra, start) ==>
              FilledOptions(o, network, extra, start)[x] ==
                if x in extra then extra[x]
                else if x == "interface" then [network]
                else if x == "force" then ["1"]
                else if x in o then o[x]
                else if x == "start" then [start]
                else if x == "limit" then ["16"]
                else ["12h"]
  {
  }

  /** A shelved pool keeps start, lease time, limit and interface and every option the wizard does not know, and is ignored. */
  lemma ShelvedOptionByOption(s: Section, x: string)
    requires s.kind == "dhcp"
    ensures x in Shelved(s).options <==>
              || x == "ignore"
              || (x in s.options && x !in {"force", "ra", "ra_slaac", "ra_flags", "dns", "dns_service", "dhcp_option", "instance"})
    ensures x in Shelved(s).options ==> Shelved(s).options[x] == if x == "ignore" then ["1"] else s.options[x]
  {
  }

  /** The start offsets drawn are 255 and sixteens above it. */
  lemma DrawnStarts(draw: nat)
    ensures NumberOf(RandomStart(draw)) == 255 + 16 * draw
  {
    DecimalReadsBack(255 + 16 * draw);
  }

  // ---- Filling twice -------------------------------------------------------------

  /** The extras leave the pool pointed at its network. */
  predicate KeepsInterface(extra: Options, network: string) {
    "interface" in extra ==> extra["interface"] != [] && extra["interface"][0] == network
  }

  /** The extras do not switch the pool off. */
  predicate KeepsServing(extra: Options) {
    "ignore" in extra ==> extra["ignore"] == [] || extra["ignore"][0] != "1"
  }

  lemma FilledTwice(s: Section, network: string, extra: Options, a: string, b: string)
    ensures Filled(Filled(s, network, extra, a), network, extra, b) == Filled(s, network, extra, a)
  {
    var once := FilledOptions(s.options, network, extra, a);
    assert FilledOptions(once, network, extra, b) == once;
  }

  lemma FilledTargets(s: Section, network: string, extra: Options, start: string)
    requires s.kind == POOL
    ensures Targets(Filled(s, network, extra, start), network) <==> KeepsInterface(extra, network)
  {
  }

  lemma FilledServes(s: Section, network: string, extra: Options, start: string)
    requires s.kind == POOL && First(s, "ignore") != Some("1")
    requires KeepsInterface(extra, network)
    ensures Serves(Filled(s, network, extra, start), network) <==> KeepsServing(extra)
  {
    FilledTargets(s, network, extra, start);
  }

  /** The one section a call writes, and what it wrote there. */
  lemma CallWritesOne(c: Config, network: string, extra: Options, start: string, name: string, next: Config) returns (k: nat, s: Section)
    requires PoolCall(c, network, extra, start, name, next)
    ensures k <= |c| && s.kind == POOL && s.name == name && First(s, "ignore") != Some("1")
    ensures |next| == (if k < |c| then |c| else |c| + 1)
    ensures next[k] == Filled(s, network, extra, start)
    ensures forall i :: 0 <= i < |c| && i != k ==> next[i] == c[i]
    ensures forall i :: 0 <= i < k ==> !Serves(c[i], network)
    ensures k < |c| ==> Targets(c[k], network)
  {
    if FirstServing(c, network).Some? {
      k := FirstServing(c, network).value;
      s := c[k];
    } else if FirstTargeting(c, network).Some? {
      k := FirstTargeting(c, network).value;
      s := Reenabled(c[k]);
    } else {
      k := |c|;
      s := Section(name, POOL, map[]);
    }
  }

  /** Calling again with extras that spare the two keys changes nothing, whatever was drawn. */
  lemma RepeatChangesNothing(c: Config, network: string, extra: Options, a: string, name: string, next: Config,
                             b: string, again: string, last: Config)
    requires PoolCall(c, network, extra, a, name, next) && PoolCall(next, network, extra, b, again, last)
    requires KeepsInterface(extra, network) && KeepsServing(extra)
    ensures again == name && last == next
  {
    var k, s := CallWritesOne(c, network, extra, a, name, next);
    FilledServes(s, network, extra, a);
    assert forall i :: 0 <= i < k ==> next[i] == c[i];
    assert FirstServing(next, network) == Some(k);
    FilledTwice(s, network, extra, a, b);
  }

  ghost predicate AlwaysRepeats(network: string, extra: Options) {
    forall c, a, name, next, b, again, last ::
      PoolCall(c, network, extra, a, name, next) && PoolCall(next, network, extra, b, again, last) ==> last == next
  }

  /** Extras that point the pool elsewhere make every call create another pool. */
  lemma MovedPoolIsNotFound(network: string, extra: Options)
    requires network != "" && !KeepsInterface(extra, network)
    ensures !AlwaysRepeats(network, extra)
  {
    var p := Filled(Section(network, POOL, map[]), network, extra, "255");
    FilledTargets(Section(network, POOL, map[]), network, extra, "255");
    assert Candidate(network, 0) == network;
    assert FirstFreePool([], network, 0);
    assert PoolCall([], network, extra, "255", network, [p]);
    var name := Candidate(network, 1);
    CandidatesDiffer(network, 0, 1);
    assert [p][0].name == network;
    assert PoolNameTaken([p], network);
    assert FirstFreePool([p], network, 1);
    var q := Filled(Section(name, POOL, map[]), network, extra, "255");
    assert PoolCreated([p], network, extra, "255", name, [p] + [q]);
    assert PoolCall([p], network, extra, "255", name, [p] + [q]);
  }

  /** Extras that switch the pool off make the next call switch off another one. */
  lemma SwitchedOffPoolIsPassedOver(network: string, extra: Options)
    requires network != "" && KeepsInterface(extra, network) && !KeepsServing(extra)
    ensures !AlwaysRepeats(network, extra)
  {
    var s, t := Section("a", POOL, map["interface" := [network]]), Section("b", POOL, map["interface" := [network]]);
    var f, g := Filled(s, network, extra, "255"), Filled(t, network, extra, "255");
    assert Serves(s, network) && Serves(t, network);
    assert FirstServing([s, t], network) == Some(0);
    assert [s, t][0 := f] == [f, t];
    assert PoolCall([s, t], network, extra, "255", "a", [f, t]);
    FilledServes(s, network, extra, "255");
    FilledServes(t, network, extra, "255");
    assert !Serves([f, t][0], network) && Serves([f, t][1], network);
    assert FirstServing([f, t], network) == Some(1);
    assert [f, t][1 := g] == [f, g];
    assert PoolCall([f, t], network, extra, "255", "b", [f, g]);
    assert [f, t][1] != [f, g][1];
  }

  /** Calls can be repeated freely on every store exactly if the extras spare the interface and the ignore flag. */
  lemma RepeatsIffExtrasSpareKeys(network: string, extra: Options)
    requires network != ""
    ensures AlwaysRepeats(network, extra) <==> KeepsInterface(extra, network) && KeepsServing(extra)
  {
    if !KeepsInterface(extra, network) {
      MovedPoolIsNotFound(network, extra);
    } else if !KeepsServing(extra) {
      SwitchedOffPoolIsPassedOver(network, extra);
    } else {
      forall c, a, name, next, b, again, last
        | PoolCall(c, network, extra, a, name, next) && PoolCall(next, network, extra, b, again, last)
        ensures last == next
      {
        RepeatChangesNothing(c, network, extra, a, name, next, b, again, last);
      }
    }
  }

  // ---- Whole runs: reset, then the pool ---------------------------------------

  lemma ShelvedTwice(s: Section)
    ensures Shelved(Shelved(s)) == Shelved(s)
  {
    if s.kind == POOL {
      var o := (s.options - STRIPPED)["ignore" := ["1"]];
      assert (o - STRIPPED)["ignore" := ["1"]] == o;
    }
  }

  /** The reset keeps what a pool serves, and nothing serves any more. */
  lemma ShelvedKeepsTarget(s: Section, network: string)
    ensures Targets(Shelved(s), network) <==> Targets(s, network)
    ensures !Serves(Shelved(s), network)
  {
  }

  /** Nothing the reset strips is left. */
  predicate Bare(o: Options) {
    o.Keys !! STRIPPED
  }

  /** What the reset strips from a filled pool, filling puts back. */
  lemma StrippedIsPutBack(kept: Options, network: string, extra: Options)
    requires Bare(kept)
    ensures var once := kept["interface" := [network]]["force" := ["1"]] + extra;
            (once - STRIPPED)["interface" := [network]]["force" := ["1"]] + extra == once
  {
    var once := kept["interface" := [network]]["force" := ["1"]] + extra;
    var again := (once - STRIPPED)["interface" := [network]]["force" := ["1"]] + extra;
    forall x | x in once ensures x in again && again[x] == once[x] {
      if x !in extra && x != "force" {
        assert x == "interface" || x in kept;
        assert x !in STRIPPED;
      }
    }
    forall x | x in again ensures x in once {
    }
  }

  lemma KeptStays(o: Options, start: string)
    requires "start" in o && "limit" in o && "leasetime" in o
    ensures Kept(o, start) == o
  {
  }

  lemma KeptIsBare(o: Options, start: string)
    requires Bare(o)
    ensures Bare(Kept(o, start))
    ensures "start" in Kept(o, start) && "limit" in Kept(o, start) && "leasetime" in Kept(o, start)
  {
  }

  lemma SwitchedOnAgain(once: Options)
    ensures (once - STRIPPED)["ignore" := ["1"]] - {"ignore"} - {"instance"} == once - STRIPPED
  {
  }

  /** Filling a bare pool, resetting it and filling it again gives the same pool, start offset included. */
  lemma RefilledIsFilled(s: Section, network: string, extra: Options, a: string, b: string)
    requires s.kind == POOL && Bare(s.options)
    ensures Filled(Reenabled(Shelved(Filled(s, network, extra, a))), network, extra, b) == Filled(s, network, extra, a)
  {
    var kept := Kept(s.options, a);
    var once := kept["interface" := [network]]["force" := ["1"]] + extra;
    KeptIsBare(s.options, a);
    StrippedIsPutBack(kept, network, extra);
    SwitchedOnAgain(once);
    assert Reenabled(Shelved(s.(options := once))).options == once - STRIPPED;
    KeptStays(once - STRIPPED, b);
  }

  /** A call right after a reset writes a bare pool. */
  lemma CallAfterResetWritesBare(c: Config, network: string, extra: Options, start: string, name: string, next: Config)
    returns (k: nat, s: Section)
    requires PoolCall(ResetPools(c), network, extra, start, name, next)
    ensures k <= |c| && s.kind == POOL && s.name == name && Bare(s.options)
    ensures |next| == (if k < |c| then |c| else |c| + 1)
    ensures next[k] == Filled(s, network, extra, start)
    ensures forall i :: 0 <= i < |c| && i != k ==> next[i] == ResetPools(c)[i]
    ensures forall i :: 0 <= i < k ==> !Targets(ResetPools(c)[i], network)
  {
    var a := ResetPools(c);
    forall i | 0 <= i < |c| ensures !Serves(a[i], network) {
      ShelvedKeepsTarget(c[i], network);
    }
    if FirstTargeting(a, network).Some? {
      k := FirstTargeting(a, network).value;
      s := Reenabled(a[k]);
    } else {
      k := |c|;
      s := Section(name, POOL, map[]);
    }
  }

  /** What the second run's reset makes of the first run's store. */
  lemma SecondResetKeepsTargets(c: Config, network: string, next: Config, k: nat, s: Section, extra: Options, start: string)
    requires k <= |c| && |next| == (if k < |c| then |c| else |c| + 1)
    requires s.kind == POOL && next[k] == Filled(s, network, extra, start)
    requires forall i :: 0 <= i < |c| && i != k ==> next[i] == ResetPools(c)[i]
    requires forall i :: 0 <= i < k ==> !Targets(ResetPools(c)[i], network)
    ensures forall i :: 0 <= i < |c| && i != k ==> ResetPools(next)[i] == next[i]
    ensures forall i :: 0 <= i < |next| ==> !Serves(ResetPools(next)[i], network)
    ensures KeepsInterface(extra, network) ==> FirstTargeting(ResetPools(next), network) == Some(k)
    ensures !KeepsInterface(extra, network) ==> !Targets(ResetPools(next)[k], network)
  {
    var a := ResetPools(next);
    forall i | 0 <= i < |c| && i != k ensures a[i] == next[i] {
      ShelvedTwice(c[i]);
    }
    forall i | 0 <= i < |next| ensures !Serves(a[i], network) {
      ShelvedKeepsTarget(next[i], network);
    }
    ShelvedKeepsTarget(next[k], network);
    FilledTargets(s, network, extra, start);
    assert forall i :: 0 <= i < k ==> a[i] == next[i] == ResetPools(c)[i];
    assert forall i :: 0 <= i < k ==> !Targets(a[i], network);
    assert Targets(a[k], network) <==> KeepsInterface(extra, network);
  }

  /**
   * Running reset and call twice gives the same pool and store as running them once,
   * whatever the two draws, exactly if the extras leave the interface alone.
   */
  lemma PoolSetupTwiceIsOnceIffInterfaceKept(c: Config, network: string, extra: Options, a: string, name: string, next: Config,
                                             b: string, again: string, last: Config)
    requires PoolCall(ResetPools(c), network, extra, a, name, next)
    requires PoolCall(ResetPools(next), network, extra, b, again, last)
    ensures again == name && last == next <==> KeepsInterface(extra, network)
  {
    var k, s := CallAfterResetWritesBare(c, network, extra, a, name, next);
    SecondResetKeepsTargets(c, network, next, k, s, extra, a);
    if KeepsInterface(extra, network) {
      KeptPoolIsRefilled(next, network, extra, a, b, again, last, k, s);
    } else {
      MovedPoolChangesStore(next, network, extra, b, again, last, k);
    }
  }

  /** A second call after the reset that finds the first one's pool fills it as it was. */
  lemma KeptPoolIsRefilled(next: Config, network: string, extra: Options, a: string, b: string, again: string, last: Config,
                           k: nat, s: Section)
    requires PoolCall(ResetPools(next), network, extra, b, again, last)
    requires k < |next| && s.kind == POOL && Bare(s.options) && next[k] == Filled(s, network, extra, a)
    requires forall i :: 0 <= i < |next| && i != k ==> ResetPools(next)[i] == next[i]
    requires forall i :: 0 <= i < |next| ==> !Serves(ResetPools(next)[i], network)
    requires FirstTargeting(ResetPools(next), network) == Some(k)
    ensures again == s.name && last == next
  {
    var r := ResetPools(next);
    RefilledIsFilled(s, network, extra, a, b);
    assert r[k] == Shelved(Filled(s, network, extra, a));
    assert last == r[k := next[k]];
  }

  lemma MovedPoolChangesStore(next: Config, network: string, extra: Options, b: string, again: string, last: Config, k: nat)
    requires k < |next| && PoolCall(ResetPools(next), network, extra, b, again, last)
    requires !KeepsInterface(extra, network) && !Targets(ResetPools(next)[k], network)
    ensures last != next
  {
    var r := ResetPools(next);
    var j, t := CallAfterResetWritesBare(next, network, extra, b, again, last);
    if j < |next| {
      FilledTargets(t, network, extra, b);
      assert !Targets(last[j], network);
      var i, u := CallWritesOne(r, network, extra, b, again, last);
      ShelvedKeepsTarget(next[j], network);
      ShelvedKeepsTarget(next[i], network);
    }
  }

  /** The start offset survives: the second draw is not used. */
  lemma StartIsKept(s: Section, network: string, extra: Options, start: string)
    requires "start" !in extra
    ensures "start" in s.options ==> Filled(s, network, extra, start).options["start"] == s.options["start"]
    ensures "start" !in s.options ==> Filled(s, network, extra, start).options["start"] == [start]
    ensures "start" in s.options ==> "start" in Shelved(s).options && Shelved(s).options["start"] == s.options["start"]
  {
  }

  // ---- The calls themselves ---------------------------------------------------------

  /** At most one candidate for each section is taken before a free one. */
  lemma TakenPoolNamesAreFew(c: Config, network: string, n: nat)
    requires forall i :: 0 <= i < n ==> PoolNameTaken(c, Candidate(network, i))
    ensures n <= |c|
  {
    var names := set i | 0 <= i < |c| :: c[i].name;
    NamesAreFew(c);
    forall i | 0 <= i < n ensures Candidate(network, i) in names {
      assert PoolNameTaken(c, Candidate(network, i));
    }
    CandidatesFill(network, n, names);
  }

  lemma {:induction false} NamesAreFew(c: Config)
    ensures |set i | 0 <= i < |c| :: c[i].name| <= |c|
  {
    if c != [] {
      var m := |c| - 1;
      NamesAreFew(c[..m]);
      assert (set i | 0 <= i < |c| :: c[i].name) == (set i | 0 <= i < m :: c[..m][i].name) + {c[m].name};
      UnionSize(set i | 0 <= i < m :: c[..m][i].name, {c[m].name});
    }
  }

  method DelIfPresent(store: UciStore, ghost k: nat, name: string, option: string)
    requires store.Valid() && k < |store.sections| && store.sections[k].name == name
    modifies store
    ensures store.Valid()
    ensures store.sections == WithOptions(old(store.sections), k, old(store.sections)[k].options - {option})
  {
    ghost var was := store.sections;
    UniqueFoundByName(store.sections, k);
    var at := store.Find(name);
    if option in store.sections[at].options {
      store.Del(name, option);
    } else {
      assert was[k].options - {option} == was[k].options;
    }
    assert store.sections == WithOptions(was, k, was[k].options - {option});
  }

  method StripPool(store: UciStore, ghost k: nat, name: string)
    requires store.Valid() && k < |store.sections| && store.sections[k].name == name
    modifies store
    ensures store.Valid()
    ensures store.sections == WithOptions(old(store.sections), k, old(store.sections)[k].options - STRIPPED)
  {
    ghost var was := store.sections;
    ghost var gone: set<string> := {};
    assert was[k].options - gone == was[k].options;
    for n := 0 to |ALL_OPTIONS|
      invariant store.Valid() && k < |was|
      invariant gone == set i | 0 <= i < n && ALL_OPTIONS[i] !in WHITELIST :: ALL_OPTIONS[i]
      invariant store.sections == WithOptions(was, k, was[k].options - gone)
    {
      var option := ALL_OPTIONS[n];
      if option !in WHITELIST {
        DelIfPresent(store, k, name, option);
        assert was[k].options - gone - {option} == was[k].options - (gone + {option});
        gone := gone + {option};
      }
    }
    StrippedIsTheRest(gone);
  }

  lemma StrippedIsTheRest(gone: set<string>)
    requires gone == set i | 0 <= i < |ALL_OPTIONS| && ALL_OPTIONS[i] !in WHITELIST :: ALL_OPTIONS[i]
    ensures gone == STRIPPED
  {
    var all := ALL_OPTIONS;
    assert all[4] == "ignore" && all[5] == "force" && all[6] == "ra" && all[7] == "ra_slaac" && all[8] == "ra_flags"
           && all[9] == "dns" && all[10] == "dns_service" && all[11] == "dhcp_option" && all[12] == "instance";
    forall i | 4 <= i < |ALL_OPTIONS| ensures ALL_OPTIONS[i] in gone {
      assert ALL_OPTIONS[i] !in WHITELIST;
    }
  }

  method WhitelistAndIgnoreAllPools(store: UciStore)
    requires store.Valid()
    modifies store
    ensures store.Valid() && store.sections == ResetPools(old(store.sections))
  {
    ghost var was := store.sections;
    var names, ps := store.GetSections(POOL);
    NothingBetween(was, POOL, names, ps, 0);
    for n := 0 to |names|
      invariant store.Valid() && |store.sections| == |was| && Place(was, ps, n) <= |was|
      invariant forall i :: 0 <= i < |was| ==>
                  store.sections[i] == if i < Place(was, ps, n) then Shelved(was[i]) else was[i]
    {
      NextPlace(was, POOL, names, ps, n);
      StripPool(store, ps[n], names[n]);
      UniqueFoundByName(store.sections, ps[n]);
      store.SetType(names[n], "ignore", ["1"]);
    }
    assert store.sections == ResetPools(was);
  }

  /** Writes one option of the k-th section when it is absent. */
  method SetIfAbsent(store: UciStore, ghost k: nat, name: string, option: string, value: string)
    requires store.Valid() && k < |store.sections| && store.sections[k].name == name
    modifies store
    ensures store.Valid()
    ensures store.sections == WithOptions(old(store.sections), k, IfAbsent(old(store.sections)[k].options, option, value))
  {
    ghost var was := store.sections;
    UniqueFoundByName(store.sections, k);
    var at := store.Find(name);
    if option !in store.sections[at].options {
      store.SetType(name, option, [value]);
    }
    assert store.sections == WithOptions(was, k, IfAbsent(was[k].options, option, value));
  }

  method SetOption(store: UciStore, ghost k: nat, name: string, option: string, values: seq<string>)
    requires store.Valid() && k < |store.sections| && store.sections[k].name == name
    modifies store
    ensures store.Valid()
    ensures store.sections == WithOptions(old(store.sections), k, old(store.sections)[k].options[option := values])
  {
    ghost var was := store.sections;
    UniqueFoundByName(store.sections, k);
    store.SetType(name, option, values);
    assert store.sections == WithOptions(was, k, was[k].options[option := values]);
  }

  /** The extras, in whatever order the map is visited. */
  method SetExtras(store: UciStore, ghost k: nat, name: string, extra: Options)
    requires store.Valid() && k < |store.sections| && store.sections[k].name == name
    modifies store
    ensures store.Valid() && store.sections == WithOptions(old(store.sections), k, old(store.sections)[k].options + extra)
  {
    ghost var was := store.sections;
    var rest := extra.Keys;
    ghost var done: Options := map[];
    assert was[k].options + done == was[k].options;
    while rest != {}
      invariant store.Valid() && k < |was| && rest <= extra.Keys
      invariant done == map x | x in extra && x !in rest :: extra[x]
      invariant store.sections == WithOptions(was, k, was[k].options + done)
      decreases rest
    {
      var option :| option in rest;
      SetOption(store, k, name, option, extra[option]);
      rest := rest - {option};
      assert (was[k].options + done)[option := extra[option]] == was[k].options + done[option := extra[option]];
      done := done[option := extra[option]];
    }
    assert done == extra;
  }

  /** Without a random source a pool that lacks a start offset is left as it is. */
  method BackfillPoolOptions(store: UciStore, ghost k: nat, name: string, network: string, extra: Options, draw: Option<nat>)
    returns (ok: bool)
    requires store.Valid() && k < |store.sections| && store.sections[k].name == name
    modifies store
    ensures store.Valid()
    ensures ok <==> draw.Some? || "start" in old(store.sections)[k].options
    ensures !ok ==> store.sections == old(store.sections)
    ensures ok ==>
              var start := if draw.Some? then RandomStart(draw.value) else "";
              store.sections == old(store.sections)[k := Filled(old(store.sections)[k], network, extra, start)]
  {
    UniqueFoundByName(store.sections, k);
    var at := store.Find(name);
    if "start" !in store.sections[at].options && draw.None? {
      return false;
    }
    var start := if draw.Some? then RandomStart(draw.value) else "";
    SetIfAbsent(store, k, name, "start", start);
    SetIfAbsent(store, k, name, "limit", "16");
    SetIfAbsent(store, k, name, "leasetime", "12h");
    SetOption(store, k, name, "interface", [network]);
    SetOption(store, k, name, "force", ["1"]);
    SetExtras(store, k, name, extra);
    ok := true;
  }

  method FindServing(store: UciStore, names: seq<string>, ghost ps: seq<nat>, network: string) returns (found: Option<string>)
    requires store.Valid() && Lists(store.sections, POOL, names, ps)
    ensures match FirstServing(store.sections, network)
            case None => found == None
            case Some(k) => found == Some(store.sections[k].name)
  {
    NothingBetween(store.sections, POOL, names, ps, 0);
    for n := 0 to |names|
      invariant Place(store.sections, ps, n) <= |store.sections|
      invariant forall i :: 0 <= i < Place(store.sections, ps, n) ==> !Serves(store.sections[i], network)
    {
      UniqueFoundByName(store.sections, ps[n]);
      var k := store.Find(names[n]);
      assert k == ps[n];
      if Serves(store.sections[k], network) {
        return Some(names[n]);
      }
      NextPlace(store.sections, POOL, names, ps, n);
    }
    return None;
  }

  method FindTargeting(store: UciStore, names: seq<string>, ghost ps: seq<nat>, network: string) returns (found: Option<string>)
    requires store.Valid() && Lists(store.sections, POOL, names, ps)
    ensures match FirstTargeting(store.sections, network)
            case None => found == None
            case Some(k) => found == Some(store.sections[k].name)
  {
    NothingBetween(store.sections, POOL, names, ps, 0);
    for n := 0 to |names|
      invariant Place(store.sections, ps, n) <= |store.sections|
      invariant forall i :: 0 <= i < Place(store.sections, ps, n) ==> !Targets(store.sections[i], network)
    {
      UniqueFoundByName(store.sections, ps[n]);
      var k := store.Find(names[n]);
      if Targets(store.sections[k], network) {
        return Some(names[n]);
      }
      NextPlace(store.sections, POOL, names, ps, n);
    }
    return None;
  }

  method NextPoolName(store: UciStore, network: string) returns (name: string, ghost k: nat)
    requires store.Valid()
    ensures FirstFreePool(store.sections, network, k) && name == Candidate(network, k)
  {
    name := network;
    var i := 0;
    var names, ps := store.GetSections(POOL);
    while true
      invariant name == Candidate(network, i)
      invariant forall j :: 0 <= j < i ==> PoolNameTaken(store.sections, Candidate(network, j))
      decreases |store.sections| - i
    {
      var at := Named(store.sections, name);
      if !(at.Some? && "interface" in store.sections[at.value].options) && name !in names {
        FreeNameIsNotTaken(store.sections, names, ps, name);
        break;
      }
      TakenNameIsTaken(store.sections, names, ps, name);
      TakenPoolNamesAreFew(store.sections, network, i + 1);
      name := network + Decimal(i + 1);
      i := i + 1;
    }
    k := i;
  }

  lemma FreeNameIsNotTaken(c: Config, names: seq<string>, ps: seq<nat>, name: string)
    requires Unique(c) && Lists(c, POOL, names, ps)
    requires name !in names
    requires !(Named(c, name).Some? && "interface" in c[Named(c, name).value].options)
    ensures !PoolNameTaken(c, name)
  {
    forall i | 0 <= i < |c| && c[i].name == name ensures c[i].kind != POOL && "interface" !in c[i].options {
      ListedIffOfKind(c, POOL, names, ps, i);
      UniqueFoundByName(c, i);
    }
  }

  lemma TakenNameIsTaken(c: Config, names: seq<string>, ps: seq<nat>, name: string)
    requires Lists(c, POOL, names, ps)
    requires name in names || (Named(c, name).Some? && "interface" in c[Named(c, name).value].options)
    ensures PoolNameTaken(c, name)
  {
    if k :| 0 <= k < |names| && names[k] == name {
      assert c[ps[k]].name == name && c[ps[k]].kind == POOL;
    }
  }

  method CreateDhcpPool(store: UciStore, network: string, extra: Options, draw: Option<nat>) returns (result: Result<string, PoolError>)
    requires store.Valid()
    modifies store
    ensures store.Valid()
    ensures result == Failure(EmptyNetwork) <==> network == ""
    ensures result == Failure(NoRng) <==> network != "" && draw.None?
    ensures result == Failure(TypeMismatch) <==> network != "" && draw.Some? && PoolNameMismatch(old(store.sections), network)
    ensures result.Failure? ==> store.sections == old(store.sections)
    ensures result.Success? ==>
              draw.Some? && PoolCreated(old(store.sections), network, extra, RandomStart(draw.value), result.value, store.sections)
  {
    if network == "" {
      return Failure(EmptyNetwork);
    }
    if draw.None? {
      return Failure(NoRng);
    }
    ghost var was := store.sections;
    var name, k := NextPoolName(store, network);
    forall j | FirstFreePool(was, network, j) ensures j == k {
      FirstFreePoolIsUnique(was, network, j, k);
    }
    FreshSection(was, name, network, k);
    var error := store.AddSection(name, POOL);
    if error.Some? {
      return Failure(TypeMismatch);
    }
    var ok := BackfillPoolOptions(store, |was|, name, network, extra, draw);
    assert store.sections == was + [Filled(Section(name, POOL, map[]), network, extra, RandomStart(draw.value))];
    result := Success(name);
  }

  /** A free name that a pool section could be added under is used by no section. */
  lemma FreshSection(c: Config, name: string, network: string, k: nat)
    requires FirstFreePool(c, network, k) && name == Candidate(network, k)
    ensures Named(c, name).Some? ==> c[Named(c, name).value].kind != POOL
  {
  }

  /** The pool a call would fill has no start offset yet. */
  predicate NeedsDraw(c: Config, network: string) {
    match FirstServing(c, network)
    case Some(k) => "start" !in c[k].options
    case None =>
      match FirstTargeting(c, network)
      case Some(k) => "start" !in c[k].options
      case None => true
  }

  /** Without a random source a switched-off pool is left switched on but unfilled. */
  function Refused(c: Config, network: string): Config {
    if FirstServing(c, network).None? && FirstTargeting(c, network).Some? then
      var k := FirstTargeting(c, network).value;
      c[k := Reenabled(c[k])]
    else c
  }

  method GetOrCreateDhcpPool(store: UciStore, network: string, extra: Options, draw: Option<nat>) returns (result: Result<string, PoolError>)
    requires store.Valid()
    modifies store
    ensures store.Valid()
    ensures result == Failure(EmptyNetwork) <==> network == ""
    ensures result == Failure(NoRng) <==> network != "" && draw.None? && NeedsDraw(old(store.sections), network)
    ensures result == Failure(TypeMismatch) <==>
              network != "" && draw.Some? && FirstTargeting(old(store.sections), network).None?
              && PoolNameMismatch(old(store.sections), network)
    ensures result == Failure(NoRng) ==> store.sections == Refused(old(store.sections), network)
    ensures result.Failure? && result != Failure(NoRng) ==> store.sections == old(store.sections)
    ensures result.Success? ==>
              PoolCall(old(store.sections), network, extra, if draw.Some? then RandomStart(draw.value) else "",
                       result.value, store.sections)
  {
    if network == "" {
      return Failure(EmptyNetwork);
    }
    ghost var was := store.sections;
    var names, ps := store.GetSections(POOL);
    var serving := FindServing(store, names, ps, network);
    if serving.Some? {
      var ok := BackfillPoolOptions(store, FirstServing(was, network).value, serving.value, network, extra, draw);
      return if ok then Success(serving.value) else Failure(NoRng);
    }
    var target := FindTargeting(store, names, ps, network);
    if target.Some? {
      ghost var k := FirstTargeting(was, network).value;
      Reenable(store, k, target.value);
      var ok := BackfillPoolOptions(store, k, target.value, network, extra, draw);
      assert was[k := Reenabled(was[k])][k := Filled(Reenabled(was[k]), network, extra,
        if draw.Some? then RandomStart(draw.value) else "")] == was[k := Filled(Reenabled(was[k]), network, extra,
        if draw.Some? then RandomStart(draw.value) else "")];
      return if ok then Success(target.value) else Failure(NoRng);
    }
    ServingTargets(was, network);
    result := CreateDhcpPool(store, network, extra, draw);
  }

  lemma ServingTargets(c: Config, network: string)
    ensures FirstTargeting(c, network).None? ==> FirstServing(c, network).None?
  {
  }

  method Reenable(store: UciStore, ghost k: nat, name: string)
    requires store.Valid() && k < |store.sections| && store.sections[k].name == name
    modifies store
    ensures store.Valid() && store.sections == old(store.sections)[k := Reenabled(old(store.sections)[k])]
  {
    ghost var was := store.sections;
    UniqueFoundByName(store.sections, k);
    store.Del(name, "ignore");
    UniqueFoundByName(store.sections, k);
    store.Del(name, "instance");
    assert store.sections == was[k := Reenabled(was[k])];
  }
}
