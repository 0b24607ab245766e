/**
 * What requests do to zones: which of them get the MSS clamp and masquerading.
 *
 * A zone is masqueraded exactly where a forwarding that had to be set up asked for
 * it, so a gate translates addresses onto its uplink and an extender does not.
 */
module FirewallNat {
  import opened Outcomes
  import opened FirewallWizard
  import opened FirewallLists

  // ---- One request ---------------------------------------------------------------

  /** Only the destination's zone changes: it gets the clamp, and masquerading if asked for. */
  lemma NatZones(c: Config, dest: string, natOnDest: bool, i: nat)
    requires i < |c|
    ensures NatApplied(c, dest, natOnDest)[i] ==
              if DestZone(c, dest) != Some(i) then c[i]
              else if natOnDest then c[i].(options := c[i].options["mtu_fix" := ["1"]]["masq" := ["1"]])
              else c[i].(options := c[i].options["mtu_fix" := ["1"]])
  {
  }

  lemma PreparedZones(c: Config, r: Request, i: nat)
    requires i < |c| && c[i].kind == ZONE
    ensures Prepared(c, r)[i] ==
              if DestZone(c, r.dest) != Some(i) then c[i]
              else if r.natOnDest then c[i].(options := c[i].options["mtu_fix" := ["1"]]["masq" := ["1"]])
              else c[i].(options := c[i].options["mtu_fix" := ["1"]])
  {
    NatZones(c, r.dest, r.natOnDest, i);
  }

  /** A request met by an enabled forwarding changes nothing; any other changes one zone, as it asks. */
  lemma RequestZones(c: Config, r: Request, i: nat)
    requires i < |c| && c[i].kind == ZONE && Requested(c, r).Success?
    ensures |c| <= |Requested(c, r).value|
    ensures Requested(c, r).value[i] ==
              if EnabledMatch(c, r).Some? || DestZone(c, r.dest) != Some(i) then c[i]
              else if r.natOnDest then c[i].(options := c[i].options["mtu_fix" := ["1"]]["masq" := ["1"]])
              else c[i].(options := c[i].options["mtu_fix" := ["1"]])
  {
    PreparedZones(c, r, i);
    RequestShape(c, r, Requested(c, r).value);
  }

  /** Zones are as they were, but that the first one named dest has the clamp, and masquerading if asked for. */
  ghost predicate ZonesFlagged(c: Config, n: Config, dest: string, natOnDest: bool) {
    forall i :: 0 <= i < |c| && c[i].kind == ZONE ==>
      && i < |n|
      && n[i] ==
           if DestZone(c, dest) != Some(i) then c[i]
           else if natOnDest then c[i].(options := c[i].options["mtu_fix" := ["1"]]["masq" := ["1"]])
           else c[i].(options := c[i].options["mtu_fix" := ["1"]])
  }

  /** Whether it then succeeds or not, a request with work to do flags the zones. */
  lemma WorkFlagsZones(c: Config, r: Request)
    requires EnabledMatch(c, r).None?
    ensures ZonesFlagged(c, Prepared(c, r), r.dest, r.natOnDest)
    ensures Requested(c, r).Success? ==> ZonesFlagged(c, Requested(c, r).value, r.dest, r.natOnDest)
  {
    forall i | 0 <= i < |c| && c[i].kind == ZONE
      ensures Requested(c, r).Success? ==> i < |Requested(c, r).value| && Requested(c, r).value[i] == Prepared(c, r)[i]
    {
      PreparedZones(c, r, i);
      if Requested(c, r).Success? { RequestZones(c, r, i); }
    }
    forall i | 0 <= i < |c| && c[i].kind == ZONE
      ensures Prepared(c, r)[i] ==
                if DestZone(c, r.dest) != Some(i) then c[i]
                else if r.natOnDest then c[i].(options := c[i].options["mtu_fix" := ["1"]]["masq" := ["1"]])
                else c[i].(options := c[i].options["mtu_fix" := ["1"]])
    {
      PreparedZones(c, r, i);
    }
  }

  lemma RequestKeepsDestZone(c: Config, r: Request, dest: string)
    requires Requested(c, r).Success?
    ensures DestZone(Requested(c, r).value, dest) == DestZone(c, dest)
  {
    var n := Requested(c, r).value;
    RequestShape(c, r, n);
    PreparedIsAlike(c, r);
    forall i | 0 <= i < |n| ensures ZoneNamed(n[i], dest) <==> i < |c| && ZoneNamed(c[i], dest) {
      if i < |c| { assert Alike(Prepared(c, r)[i], c[i]); }
    }
  }

  // ---- Lists of requests ---------------------------------------------------------------

  lemma {:induction false} PrefixSucceeds(c: Config, rs: seq<Request>, j: nat)
    requires j <= |rs| && RequestedAll(c, rs).Success?
    ensures RequestedAll(c, rs[..j]).Success?
    decreases j
  {
    if j > 0 {
      assert rs[..j][1..] == rs[1..][..j - 1];
      PrefixSucceeds(Requested(c, rs[0]).value, rs[1..], j - 1);
    }
  }

  /** The j-th request meets no enabled forwarding, so it prepares the store. */
  predicate Works(c: Config, rs: seq<Request>, j: nat) {
    j < |rs| && RequestedAll(c, rs[..j]).Success? && EnabledMatch(RequestedAll(c, rs[..j]).value, rs[j]).None?
  }

  lemma WorksLater(c: Config, rs: seq<Request>, j: nat)
    requires rs != [] && Requested(c, rs[0]).Success?
    ensures Works(c, rs, j + 1) <==> Works(Requested(c, rs[0]).value, rs[1..], j)
  {
    if j + 1 < |rs| {
      assert rs[..j + 1][1..] == rs[1..][..j];
    }
  }

  /** Some request that works goes to this zone, and asks to masquerade it if only those count. */
  ghost predicate FlagsZone(c: Config, rs: seq<Request>, i: nat, onlyNat: bool) {
    exists j: nat :: Works(c, rs, j) && DestZone(c, rs[j].dest) == Some(i) && (onlyNat ==> rs[j].natOnDest)
  }

  lemma FlagsZoneOneMore(c: Config, rs: seq<Request>, i: nat, onlyNat: bool)
    requires rs != [] && Requested(c, rs[0]).Success?
    ensures FlagsZone(c, rs, i, onlyNat) <==>
              || (EnabledMatch(c, rs[0]).None? && DestZone(c, rs[0].dest) == Some(i) && (onlyNat ==> rs[0].natOnDest))
              || FlagsZone(Requested(c, rs[0]).value, rs[1..], i, onlyNat)
  {
    var n, rest := Requested(c, rs[0]).value, rs[1..];
    assert rs[..0] == [] && (Works(c, rs, 0) <==> EnabledMatch(c, rs[0]).None?);
    forall j: nat | j < |rest|
      ensures Works(c, rs, j + 1) <==> Works(n, rest, j)
      ensures rest[j] == rs[j + 1] && DestZone(n, rest[j].dest) == DestZone(c, rs[j + 1].dest)
    {
      WorksLater(c, rs, j);
      RequestKeepsDestZone(c, rs[0], rest[j].dest);
    }
    if j: nat :| Works(c, rs, j) && DestZone(c, rs[j].dest) == Some(i) && (onlyNat ==> rs[j].natOnDest) && j > 0 {
      assert Works(n, rest, j - 1);
    }
    if j: nat :| Works(n, rest, j) && DestZone(n, rest[j].dest) == Some(i) && (onlyNat ==> rest[j].natOnDest) {
      assert Works(c, rs, j + 1);
    }
  }

  /** The options a zone ends with: its own, with the flags that were asked for. */
  function Flagged(options: map<string, seq<string>>, clamp: bool, mask: bool): map<string, seq<string>> {
    var clamped := if clamp then options["mtu_fix" := ["1"]] else options;
    if mask then clamped["masq" := ["1"]] else clamped
  }

  lemma FlaggedTwice(o: map<string, seq<string>>, a: bool, b: bool, x: bool, y: bool)
    ensures Flagged(Flagged(o, a, b), x, y) == Flagged(o, a || x, b || y)
  {
    if b && x {
      assert o["masq" := ["1"]]["mtu_fix" := ["1"]] == o["mtu_fix" := ["1"]]["masq" := ["1"]];
    }
  }

  lemma FlaggedBare(o: map<string, seq<string>>, clamp: bool, mask: bool)
    requires "mtu_fix" !in o && "masq" !in o
    ensures var f := Flagged(o, clamp, mask);
            && ("mtu_fix" in f <==> clamp) && (clamp ==> f["mtu_fix"] == ["1"])
            && ("masq" in f <==> mask) && (mask ==> f["masq"] == ["1"])
            && f - {"mtu_fix", "masq"} == o
  {
    assert Flagged(o, clamp, mask) - {"mtu_fix", "masq"} == o;
  }

  lemma RequestFlags(c: Config, r: Request, i: nat)
    requires i < |c| && c[i].kind == ZONE && Requested(c, r).Success?
    ensures var first := EnabledMatch(c, r).None? && DestZone(c, r.dest) == Some(i);
            && i < |Requested(c, r).value|
            && Requested(c, r).value[i] == c[i].(options := Flagged(c[i].options, first, first && r.natOnDest))
  {
    RequestZones(c, r, i);
  }

  /**
   * After any list of requests a zone has the clamp exactly if it had it or a request
   * that worked goes there, is masqueraded exactly if it was or such a request asked
   * for it, and has nothing else changed.
   */
  lemma {:induction false} RunZones(c: Config, rs: seq<Request>, i: nat)
    requires i < |c| && c[i].kind == ZONE && RequestedAll(c, rs).Success?
    ensures var f := RequestedAll(c, rs).value;
            i < |f| && f[i] == c[i].(options := Flagged(c[i].options, FlagsZone(c, rs, i, false), FlagsZone(c, rs, i, true)))
    decreases |rs|
  {
    if rs != [] {
      var n, first := Requested(c, rs[0]).value, EnabledMatch(c, rs[0]).None? && DestZone(c, rs[0].dest) == Some(i);
      RequestFlags(c, rs[0], i);
      FlagsZoneOneMore(c, rs, i, false);
      FlagsZoneOneMore(c, rs, i, true);
      RunZones(n, rs[1..], i);
      FlaggedTwice(c[i].options, first, first && rs[0].natOnDest, FlagsZone(n, rs[1..], i, false), FlagsZone(n, rs[1..], i, true));
    }
  }

  // ---- Whole setups ------------------------------------------------------------------------

  /** From different sources, with every forwarding off at first, each request works. */
  lemma AllWork(a: Config, rs: seq<Request>, j: nat)
    requires ForwardingsOff(a) && SourcesApart(rs) && RequestedAll(a, rs).Success? && j < |rs|
    ensures Works(a, rs, j)
  {
    PrefixSucceeds(a, rs, j);
    OffHasNoLife(a);
    RunAddsNoLife(a, rs[..j], rs[j].src);
    NoneEnabledFrom(RequestedAll(a, rs[..j]).value, rs[j]);
  }

  lemma ResetZones(c: Config, i: nat)
    requires i < |Reset(c)| && Reset(c)[i].kind == ZONE
    ensures "masq" !in Reset(c)[i].options && "mtu_fix" !in Reset(c)[i].options
  {
    assert Reset(c)[i] == Quieted(RemoveRules(c)[i]);
  }

  /**
   * A setup leaves a zone masqueraded exactly if some request to it that found no enabled
   * forwarding asked for it, and clamped exactly if there was such a request at all.
   */
  lemma SetupZones(c: Config, rs: seq<Request>, rules: seq<Rule>, i: nat)
    requires Setup(c, rs, rules).Success? && i < |Reset(c)| && Reset(c)[i].kind == ZONE
    ensures var a, g := Reset(c), Setup(c, rs, rules).value;
            && i < |g| && g[i].name == a[i].name && g[i].kind == ZONE
            && ("masq" in g[i].options <==>
                  exists j: nat :: Works(a, rs, j) && DestZone(a, rs[j].dest) == Some(i) && rs[j].natOnDest)
            && ("masq" in g[i].options ==> g[i].options["masq"] == ["1"])
            && ("mtu_fix" in g[i].options <==> exists j: nat :: Works(a, rs, j) && DestZone(a, rs[j].dest) == Some(i))
            && ("mtu_fix" in g[i].options ==> g[i].options["mtu_fix"] == ["1"])
            && g[i].options - {"mtu_fix", "masq"} == a[i].options
  {
    var a, g := Reset(c), Setup(c, rs, rules).value;
    SetupOfList(c, rs, rules);
    RunZones(a, rs, i);
    ResetZones(c, i);
    FlaggedBare(a[i].options, FlagsZone(a, rs, i, false), FlagsZone(a, rs, i, true));
  }

  /** When the sources differ every request counts: a zone is masqueraded exactly if some request to it asked for it. */
  lemma SetupMasksIffAsked(c: Config, rs: seq<Request>, rules: seq<Rule>, i: nat)
    requires Setup(c, rs, rules).Success? && SourcesApart(rs) && i < |Reset(c)| && Reset(c)[i].kind == ZONE
    ensures var a, g := Reset(c), Setup(c, rs, rules).value;
            && i < |g|
            && ("masq" in g[i].options <==>
                  exists j :: 0 <= j < |rs| && DestZone(a, rs[j].dest) == Some(i) && rs[j].natOnDest)
            && ("mtu_fix" in g[i].options <==> exists j :: 0 <= j < |rs| && DestZone(a, rs[j].dest) == Some(i))
  {
    var a := Reset(c);
    SetupOfList(c, rs, rules);
    ResetIsReset(c);
    ResetForwardingsAreOff(a);
    SetupZones(c, rs, rules, i);
    forall j: nat | j < |rs| ensures Works(a, rs, j) {
      AllWork(a, rs, j);
    }
  }
}
