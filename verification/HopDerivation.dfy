/**
 * Hop counts from best-next-hop chains.
 *
 * The table maps a lower-case originator MAC to its best neighbour. Following
 * neighbours from an originator ends at a direct one, leaves the table, or runs
 * in a circle. The walk gives up after a fixed number of hops and shares its
 * cache between calls, so what it answers can depend on which call came first.
 */
module HopDerivation {
  import opened Text

  const MAX_CHAIN := 16
  const UNKNOWN := 99

  type Table = map<string, string>
  type Cache = map<string, int>

  // ---- Distance, defined without a cache or a limit ------------------------

  function Next(t: Table, k: string): string
    requires k in t
  {
    ToLower(t[k])
  }

  predicate Direct(t: Table, k: string) {
    k in t && (Next(t, k) == k || Next(t, k) == "")
  }

  /** k is d hops away: direct at one hop, else one more than its next hop. */
  ghost predicate AtDistance(t: Table, k: string, d: nat)
    decreases d
  {
    && d >= 1 && k in t
    && if Direct(t, k) then d == 1 else d > 1 && AtDistance(t, Next(t, k), d - 1)
  }

  ghost predicate Resolvable(t: Table, k: string) {
    exists d: nat :: AtDistance(t, k, d)
  }

  lemma {:induction false} DistanceIsUnique(t: Table, k: string, d: nat, e: nat)
    requires AtDistance(t, k, d) && AtDistance(t, k, e)
    ensures d == e
    decreases d
  {
    if !Direct(t, k) {
      DistanceIsUnique(t, Next(t, k), d - 1, e - 1);
    }
  }

  /** The answer the snapshot is meant to carry. */
  ghost function Distance(t: Table, k: string): (d: nat)
    ensures if Resolvable(t, k) then AtDistance(t, k, d) else d == UNKNOWN
  {
    if Resolvable(t, k) then var d: nat :| AtDistance(t, k, d); d else UNKNOWN
  }

  /** No originator that can be resolved is further away than the walk looks. */
  ghost predicate Shallow(t: Table) {
    forall k, d: nat :: AtDistance(t, k, d) ==> d <= MAX_CHAIN
  }

  // ---- What makes an originator unresolvable ---------------------------------

  /** n next hops lead from k to x, none of them from a direct neighbour. */
  ghost predicate Leads(t: Table, k: string, n: nat, x: string)
    decreases n
  {
    if n == 0 then x == k
    else k in t && !Direct(t, k) && Leads(t, Next(t, k), n - 1, x)
  }

  ghost predicate Dangles(t: Table, k: string) {
    exists n: nat, x :: Leads(t, k, n, x) && x !in t
  }

  ghost predicate Circles(t: Table, k: string) {
    exists n: nat, m: nat, x :: Leads(t, k, n, x) && m > 0 && Leads(t, x, m, x)
  }

  lemma {:induction false} LeadsShortens(t: Table, k: string, d: nat, n: nat, x: string)
    requires AtDistance(t, k, d) && Leads(t, k, n, x)
    ensures n < d && AtDistance(t, x, d - n)
    decreases n
  {
    if n > 0 {
      LeadsShortens(t, Next(t, k), d - 1, n - 1, x);
    }
  }

  lemma {:induction false} LeadsExtends(t: Table, k: string, n: nat, x: string)
    requires Leads(t, k, n, x) && x in t && !Direct(t, x)
    ensures Leads(t, k, n + 1, Next(t, x))
    decreases n
  {
    if n > 0 {
      LeadsExtends(t, Next(t, k), n - 1, x);
    }
  }

  /** chain follows next hops, and every member but the last has gone on to the one after it. */
  ghost predicate Linked(t: Table, chain: seq<string>) {
    && chain != []
    && (forall i :: 0 <= i < |chain| - 1 ==>
          chain[i] in t && !Direct(t, chain[i]) && Next(t, chain[i]) == chain[i + 1])
    && forall i, j :: 0 <= i < j < |chain| ==> chain[i] != chain[j]
  }

  lemma {:induction false} LinkedLeads(t: Table, chain: seq<string>, i: nat, j: nat)
    requires Linked(t, chain) && i <= j < |chain|
    ensures Leads(t, chain[i], j - i, chain[j])
    decreases j - i
  {
    if i < j {
      LinkedLeads(t, chain, i + 1, j);
    }
  }

  lemma {:induction false} LinkedDistance(t: Table, chain: seq<string>, i: nat, h: nat)
    requires Linked(t, chain) && i < |chain| && AtDistance(t, chain[|chain| - 1], h)
    ensures AtDistance(t, chain[i], h + |chain| - 1 - i)
    decreases |chain| - i
  {
    if i < |chain| - 1 {
      LinkedDistance(t, chain, i + 1, h);
    }
  }

  lemma LinkedGrows(t: Table, chain: seq<string>)
    requires Linked(t, chain)
    requires var last := chain[|chain| - 1]; last in t && !Direct(t, last) && Next(t, last) !in chain
    ensures Linked(t, chain + [Next(t, chain[|chain| - 1])])
  {
  }

  function Members(chain: seq<string>): set<string> {
    set x | x in chain
  }

  /** Following next hops for as long as they are new ends in one of the three ways. */
  lemma ChainEnds(t: Table, chain: seq<string>)
    requires Linked(t, chain)
    ensures Resolvable(t, chain[0]) || Dangles(t, chain[0]) || Circles(t, chain[0])
    decreases t.Keys - Members(chain[..|chain| - 1])
  {
    var n := |chain| - 1;
    var last := chain[n];
    LinkedLeads(t, chain, 0, n);
    if last !in t {
      assert Dangles(t, chain[0]);
    } else if Direct(t, last) {
      assert AtDistance(t, last, 1);
      LinkedDistance(t, chain, 0, 1);
    } else if Next(t, last) in chain {
      var j :| 0 <= j < |chain| && chain[j] == Next(t, last);
      LinkedLeads(t, chain, j, n);
      LeadsExtends(t, chain[j], n - j, last);
      LinkedLeads(t, chain, 0, j);
      assert Circles(t, chain[0]);
    } else {
      LinkedGrows(t, chain);
      var longer := chain + [Next(t, last)];
      assert longer[..|longer| - 1] == chain;
      assert last in t.Keys - Members(chain[..n]) && last in Members(chain);
      assert Members(chain[..n]) <= Members(chain);
      ChainEnds(t, longer);
    }
  }

  /** An originator has no distance exactly when its chain leaves the table or circles. */
  lemma UnresolvableIffDanglesOrCircles(t: Table, k: string)
    ensures !Resolvable(t, k) <==> Dangles(t, k) || Circles(t, k)
  {
    ChainEnds(t, [k]);
    if d: nat :| AtDistance(t, k, d) {
      if n: nat, x :| Leads(t, k, n, x) && x !in t {
        LeadsShortens(t, k, d, n, x);
      }
      if n: nat, m: nat, x :| Leads(t, k, n, x) && m > 0 && Leads(t, x, m, x) {
        LeadsShortens(t, k, d, n, x);
        LeadsShortens(t, x, d - n, m, x);
        DistanceIsUnique(t, x, d - n, d - n - m);
      }
    }
  }

  // ---- The walk --------------------------------------------------------------

  /** hops to the tail of chain, one more for each member before it. */
  function Backfilled(chain: seq<string>, hops: int, cache: Cache): Cache {
    if chain == [] then cache
    else Backfilled(chain[..|chain| - 1], hops + 1, cache[chain[|chain| - 1] := hops])
  }

  function Unknowns(chain: seq<string>, cache: Cache): Cache {
    if chain == [] then cache
    else Unknowns(chain[..|chain| - 1], cache)[chain[|chain| - 1] := UNKNOWN]
  }

  /** The cache after a walk that has reached the tail of chain and may look at limit more entries. */
  function Walked(t: Table, cache: Cache, chain: seq<string>, limit: nat): Cache
    requires chain != []
    decreases limit
  {
    var cur := chain[|chain| - 1];
    if limit == 0 || cur !in t then Unknowns(chain, cache)
    else
      var next := Next(t, cur);
      if Direct(t, cur) then Backfilled(chain, 1, cache)
      else if next in cache && cache[next] != UNKNOWN then Backfilled(chain, cache[next] + 1, cache)
      else if next in chain then Unknowns(chain, cache)
      else Walked(t, cache, chain + [next], limit - 1)
  }

  /** The cache after one call for key, a lower-case MAC. */
  function Queried(t: Table, cache: Cache, key: string): Cache {
    if key in cache then cache else Walked(t, cache, [key], MAX_CHAIN)
  }

  function QueriedAll(t: Table, keys: seq<string>): Cache {
    if keys == [] then map[]
    else Queried(t, QueriedAll(t, keys[..|keys| - 1]), keys[|keys| - 1])
  }

  lemma {:induction false} BackfilledValues(chain: seq<string>, hops: int, cache: Cache)
    requires forall i, j :: 0 <= i < j < |chain| ==> chain[i] != chain[j]
    ensures var c := Backfilled(chain, hops, cache);
            && c.Keys == cache.Keys + Members(chain)
            && (forall i :: 0 <= i < |chain| ==> c[chain[i]] == hops + |chain| - 1 - i)
            && (forall k :: k in cache && k !in chain ==> c[k] == cache[k])
  {
    if chain != [] {
      var n := |chain| - 1;
      var rest := chain[..n];
      BackfilledValues(rest, hops + 1, cache[chain[n] := hops]);
      assert chain == rest + [chain[n]];
      assert Members(chain) == Members(rest) + {chain[n]};
      assert forall i :: 0 <= i < n ==> chain[i] == rest[i];
    }
  }

  lemma {:induction false} UnknownsValues(chain: seq<string>, cache: Cache)
    ensures var c := Unknowns(chain, cache);
            && c.Keys == cache.Keys + Members(chain)
            && (forall k :: k in c ==> c[k] == if k in chain then UNKNOWN else cache[k])
  {
    if chain != [] {
      var n := |chain| - 1;
      UnknownsValues(chain[..n], cache);
      assert chain == chain[..n] + [chain[n]];
      assert Members(chain) == Members(chain[..n]) + {chain[n]};
    }
  }

  // ---- With no limit on chain length: what is cached is true or unknown ------

  ghost predicate Sound(t: Table, cache: Cache) {
    forall k :: k in cache && cache[k] != UNKNOWN ==> cache[k] >= 1 && AtDistance(t, k, cache[k])
  }

  lemma BackfilledIsSound(t: Table, cache: Cache, chain: seq<string>, h: nat)
    requires Sound(t, cache) && Linked(t, chain) && AtDistance(t, chain[|chain| - 1], h)
    ensures Sound(t, Backfilled(chain, h, cache)) && chain[0] in Backfilled(chain, h, cache)
    ensures AtDistance(t, chain[0], Backfilled(chain, h, cache)[chain[0]])
  {
    BackfilledValues(chain, h, cache);
    var c := Backfilled(chain, h, cache);
    assert chain[0] in Members(chain);
    forall i | 0 <= i < |chain| ensures c[chain[i]] >= 1 && AtDistance(t, chain[i], c[chain[i]]) {
      LinkedDistance(t, chain, i, h);
    }
  }

  lemma {:induction false} WalkedIsSound(t: Table, cache: Cache, chain: seq<string>, limit: nat)
    requires Sound(t, cache) && Linked(t, chain)
    ensures Sound(t, Walked(t, cache, chain, limit)) && chain[0] in Walked(t, cache, chain, limit)
    decreases limit
  {
    UnknownsValues(chain, cache);
    assert chain[0] in Members(chain);
    var cur := chain[|chain| - 1];
    if limit > 0 && cur in t {
      var next := Next(t, cur);
      if Direct(t, cur) {
        BackfilledIsSound(t, cache, chain, 1);
      } else if next in cache && cache[next] != UNKNOWN {
        BackfilledIsSound(t, cache, chain, cache[next] + 1);
      } else if next !in chain {
        LinkedGrows(t, chain);
        WalkedIsSound(t, cache, chain + [next], limit - 1);
      }
    }
  }

  /** Any calls in any order: a cached value other than 99 is the distance, however long the chain. */
  lemma {:induction false} EveryCachedHopIsTrue(t: Table, keys: seq<string>)
    ensures Sound(t, QueriedAll(t, keys))
    ensures forall k :: k in keys ==> k in QueriedAll(t, keys)
  {
    if keys != [] {
      var n := |keys| - 1;
      EveryCachedHopIsTrue(t, keys[..n]);
      var before := QueriedAll(t, keys[..n]);
      QueryIsSound(t, before, keys[n]);
      QueryKeepsKeys(t, before, keys[n]);
      assert keys == keys[..n] + [keys[n]];
    }
  }

  lemma QueryIsSound(t: Table, cache: Cache, key: string)
    requires Sound(t, cache)
    ensures Sound(t, Queried(t, cache, key)) && key in Queried(t, cache, key)
  {
    if key !in cache {
      WalkedIsSound(t, cache, [key], MAX_CHAIN);
    }
  }

  lemma QueryKeepsKeys(t: Table, cache: Cache, key: string)
    ensures cache.Keys <= Queried(t, cache, key).Keys
  {
    WalkedKeepsKeys(t, cache, [key], MAX_CHAIN);
  }

  lemma {:induction false} BackfilledKeepsKeys(chain: seq<string>, hops: int, cache: Cache)
    ensures cache.Keys <= Backfilled(chain, hops, cache).Keys
  {
    if chain != [] {
      BackfilledKeepsKeys(chain[..|chain| - 1], hops + 1, cache[chain[|chain| - 1] := hops]);
    }
  }

  lemma {:induction false} WalkedKeepsKeys(t: Table, cache: Cache, chain: seq<string>, limit: nat)
    requires chain != []
    ensures cache.Keys <= Walked(t, cache, chain, limit).Keys
    decreases limit
  {
    UnknownsValues(chain, cache);
    var cur := chain[|chain| - 1];
    if limit > 0 && cur in t {
      var next := Next(t, cur);
      BackfilledKeepsKeys(chain, 1, cache);
      if next in cache {
        BackfilledKeepsKeys(chain, cache[next] + 1, cache);
      }
      if next !in chain {
        WalkedKeepsKeys(t, cache, chain + [next], limit - 1);
      }
    }
  }

  // ---- Within the limit: every answer is the distance -----------------------

  ghost predicate Exact(t: Table, cache: Cache) {
    forall k :: k in cache ==> cache[k] == Distance(t, k)
  }

  lemma DistanceIs(t: Table, k: string, d: nat)
    requires AtDistance(t, k, d)
    ensures Distance(t, k) == d
  {
    DistanceIsUnique(t, k, d, Distance(t, k));
  }

  lemma BackfilledIsExact(t: Table, cache: Cache, chain: seq<string>, h: nat)
    requires Exact(t, cache) && Linked(t, chain) && AtDistance(t, chain[|chain| - 1], h)
    ensures Exact(t, Backfilled(chain, h, cache))
  {
    BackfilledValues(chain, h, cache);
    forall i | 0 <= i < |chain| ensures Distance(t, chain[i]) == h + |chain| - 1 - i {
      LinkedDistance(t, chain, i, h);
      DistanceIs(t, chain[i], h + |chain| - 1 - i);
    }
  }

  lemma UnknownsAreExact(t: Table, cache: Cache, chain: seq<string>)
    requires Exact(t, cache) && Linked(t, chain) && !Resolvable(t, chain[|chain| - 1])
    ensures Exact(t, Unknowns(chain, cache))
  {
    UnknownsValues(chain, cache);
    var n := |chain| - 1;
    forall i | 0 <= i < |chain| ensures Distance(t, chain[i]) == UNKNOWN {
      if d: nat :| AtDistance(t, chain[i], d) {
        LinkedLeads(t, chain, i, n);
        LeadsShortens(t, chain[i], d, n - i, chain[n]);
      }
    }
  }

  /** The tail of a chain that closes on itself has no distance. */
  lemma ClosedChainHasNoDistance(t: Table, chain: seq<string>, j: nat)
    requires Linked(t, chain) && j < |chain|
    requires var last := chain[|chain| - 1]; last in t && !Direct(t, last) && Next(t, last) == chain[j]
    ensures !Resolvable(t, chain[|chain| - 1])
  {
    var n := |chain| - 1;
    LinkedLeads(t, chain, j, n);
    LeadsExtends(t, chain[j], n - j, chain[n]);
    assert Leads(t, chain[n], 0, chain[n]);
    LeadsExtends(t, chain[n], 0, chain[n]);
    LeadsAdd(t, chain[n], 1, chain[j], n - j, chain[n]);
    assert Circles(t, chain[n]);
    UnresolvableIffDanglesOrCircles(t, chain[n]);
  }

  lemma {:induction false} LeadsAdd(t: Table, k: string, m: nat, y: string, n: nat, x: string)
    requires Leads(t, k, m, y) && Leads(t, y, n, x)
    ensures Leads(t, k, m + n, x)
    decreases m
  {
    if m > 0 {
      LeadsAdd(t, Next(t, k), m - 1, y, n, x);
    }
  }

  lemma {:induction false} WalkedIsExact(t: Table, cache: Cache, chain: seq<string>, limit: nat)
    requires Exact(t, cache) && Linked(t, chain) && Shallow(t) && |chain| + limit == MAX_CHAIN + 1
    ensures Exact(t, Walked(t, cache, chain, limit))
    decreases limit
  {
    var n := |chain| - 1;
    var cur := chain[n];
    if limit == 0 {
      if d: nat :| AtDistance(t, cur, d) {
        LinkedDistance(t, chain, 0, d);
      }
      UnknownsAreExact(t, cache, chain);
    } else if cur !in t {
      UnknownsAreExact(t, cache, chain);
    } else {
      var next := Next(t, cur);
      if Direct(t, cur) {
        BackfilledIsExact(t, cache, chain, 1);
      } else if next in cache && cache[next] != UNKNOWN {
        BackfilledIsExact(t, cache, chain, cache[next] + 1);
      } else if next in chain {
        var j :| 0 <= j < |chain| && chain[j] == next;
        ClosedChainHasNoDistance(t, chain, j);
        UnknownsAreExact(t, cache, chain);
      } else {
        LinkedGrows(t, chain);
        WalkedIsExact(t, cache, chain + [next], limit - 1);
      }
    }
  }

  lemma {:induction false} ShallowAnswersAreExact(t: Table, keys: seq<string>)
    requires Shallow(t)
    ensures Exact(t, QueriedAll(t, keys))
  {
    if keys != [] {
      var n := |keys| - 1;
      ShallowAnswersAreExact(t, keys[..n]);
      if keys[n] !in QueriedAll(t, keys[..n]) {
        WalkedIsExact(t, QueriedAll(t, keys[..n]), [keys[n]], MAX_CHAIN);
      }
    }
  }

  // ---- Beyond the limit: the order of the calls shows ------------------------

  /** One pass over the table, in whatever order its keys come. */
  ghost predicate Order(t: Table, keys: seq<string>) {
    && (forall i, j :: 0 <= i < j < |keys| ==> keys[i] != keys[j])
    && Members(keys) == t.Keys
  }

  /** What call number i of a pass answers. */
  ghost function Answer(t: Table, keys: seq<string>, i: nat): int
    requires i < |keys|
  {
    EveryCachedHopIsTrue(t, keys[..i + 1]);
    assert keys[i] == keys[..i + 1][i];
    QueriedAll(t, keys[..i + 1])[keys[i]]
  }

  lemma AnswerFromPrefix(t: Table, keys: seq<string>, i: nat)
    requires i < |keys|
    ensures keys[i] in Queried(t, QueriedAll(t, keys[..i]), keys[i])
    ensures Answer(t, keys, i) == Queried(t, QueriedAll(t, keys[..i]), keys[i])[keys[i]]
  {
    assert keys[..i + 1][..i] == keys[..i];
    EveryCachedHopIsTrue(t, keys[..i]);
    QueryIsSound(t, QueriedAll(t, keys[..i]), keys[i]);
  }

  lemma OrderStartingWith(t: Table, prefix: seq<string>) returns (keys: seq<string>)
    requires Members(prefix) <= t.Keys
    requires forall i, j :: 0 <= i < j < |prefix| ==> prefix[i] != prefix[j]
    ensures Order(t, keys) && |prefix| <= |keys| && keys[..|prefix|] == prefix
    decreases t.Keys - Members(prefix)
  {
    if k :| k in t.Keys && k !in Members(prefix) {
      assert Members(prefix + [k]) == Members(prefix) + {k};
      keys := OrderStartingWith(t, prefix + [k]);
      assert keys[..|prefix|] == keys[..|prefix| + 1][..|prefix|];
    } else {
      keys := prefix;
      assert Members(prefix) == t.Keys;
    }
  }

  /** With an empty cache, an originator past the limit is given up on, and so is all the walk has come by. */
  lemma {:induction false} FarWalkGivesUp(t: Table, chain: seq<string>, limit: nat, d: nat, n: nat, k: string)
    requires Linked(t, chain) && AtDistance(t, chain[|chain| - 1], d) && d > limit
    requires k in chain || (n <= limit && Leads(t, chain[|chain| - 1], n, k))
    ensures k in Walked(t, map[], chain, limit) && Walked(t, map[], chain, limit)[k] == UNKNOWN
    decreases limit
  {
    UnknownsValues(chain, map[]);
    assert k in chain ==> k in Members(chain);
    var last := chain[|chain| - 1];
    if limit > 0 {
      var next := Next(t, last);
      if next in chain {
        var j :| 0 <= j < |chain| && chain[j] == next;
        ClosedChainHasNoDistance(t, chain, j);
      } else {
        LinkedGrows(t, chain);
        assert k !in chain ==> n > 0;
        FarWalkGivesUp(t, chain + [next], limit - 1, d - 1, if n > 0 then n - 1 else 0, k);
      }
    }
  }

  /** With an empty cache, an originator within the limit is resolved, and nothing further away is cached. */
  lemma {:induction false} NearWalkResolves(t: Table, chain: seq<string>, limit: nat, d: nat)
    requires Linked(t, chain) && AtDistance(t, chain[|chain| - 1], d) && d <= limit
    ensures var c := Walked(t, map[], chain, limit);
            && chain[0] in c && c[chain[0]] == |chain| - 1 + d
            && forall k :: k in c ==> 1 <= c[k] <= |chain| - 1 + d
    decreases limit
  {
    BackfilledValues(chain, 1, map[]);
    assert chain[0] in Members(chain);
    var last := chain[|chain| - 1];
    if !Direct(t, last) {
      var next := Next(t, last);
      if next in chain {
        var j :| 0 <= j < |chain| && chain[j] == next;
        ClosedChainHasNoDistance(t, chain, j);
      } else {
        LinkedGrows(t, chain);
        NearWalkResolves(t, chain + [next], limit - 1, d - 1);
      }
    } else {
      var c := Backfilled(chain, 1, map[]);
      forall k | k in c ensures 1 <= c[k] <= |chain| {
        var i :| 0 <= i < |chain| && chain[i] == k;
      }
    }
  }

  lemma {:induction false} SomeAtSeventeen(t: Table, k: string, d: nat) returns (far: string)
    requires AtDistance(t, k, d) && d > MAX_CHAIN
    ensures AtDistance(t, far, MAX_CHAIN + 1)
    decreases d
  {
    if d == MAX_CHAIN + 1 {
      far := k;
    } else {
      far := SomeAtSeventeen(t, Next(t, k), d - 1);
    }
  }

  lemma FarAskedFirst(t: Table, far: string) returns (a: seq<string>)
    requires AtDistance(t, far, MAX_CHAIN + 1)
    ensures Order(t, a) && |a| > 0 && a[0] == far && Answer(t, a, 0) == UNKNOWN
  {
    assert Members([far]) == {far};
    a := OrderStartingWith(t, [far]);
    assert a[0] == a[..1][0];
    assert a[..0] == [];
    AnswerFromPrefix(t, a, 0);
    FarWalkGivesUp(t, [far], MAX_CHAIN, MAX_CHAIN + 1, 0, far);
  }

  lemma FarAfterNear(t: Table, far: string, c: Cache)
    requires AtDistance(t, far, MAX_CHAIN + 1)
    requires c == Queried(t, map[], Next(t, far))
    ensures far in Queried(t, c, far) && Queried(t, c, far)[far] == MAX_CHAIN + 1
  {
    var near := Next(t, far);
    NearWalkResolves(t, [near], MAX_CHAIN, MAX_CHAIN);
    QueryIsSound(t, map[], near);
    if far in c {
      DistanceIsUnique(t, far, MAX_CHAIN + 1, c[far]);
    }
    BackfilledValues([far], MAX_CHAIN + 1, c);
    assert Queried(t, c, far) == Walked(t, c, [far], MAX_CHAIN) == Backfilled([far], MAX_CHAIN + 1, c);
    assert far in Members([far]) && [far][0] == far;
  }

  lemma FarAskedSecond(t: Table, far: string) returns (b: seq<string>)
    requires AtDistance(t, far, MAX_CHAIN + 1)
    ensures Order(t, b) && |b| > 1 && b[1] == far && Answer(t, b, 1) == MAX_CHAIN + 1
  {
    var near := Next(t, far);
    assert Members([near, far]) == {near, far};
    b := OrderStartingWith(t, [near, far]);
    assert b[0] == b[..2][0] && b[1] == b[..2][1];
    AnswerFromPrefix(t, b, 1);
    assert b[..1] == [near] && [near][..0] == [];
    FarAfterNear(t, far, QueriedAll(t, b[..1]));
  }

  /** The same originator, asked for first or right after its next hop, gets two answers. */
  lemma FarAnswerDependsOnOrder(t: Table, far: string) returns (a: seq<string>, b: seq<string>)
    requires AtDistance(t, far, MAX_CHAIN + 1)
    ensures Order(t, a) && Order(t, b) && |a| > 0 && |b| > 1 && a[0] == far && b[1] == far
    ensures Answer(t, a, 0) == UNKNOWN && Answer(t, b, 1) == MAX_CHAIN + 1
  {
    a := FarAskedFirst(t, far);
    b := FarAskedSecond(t, far);
  }

  /**
   * When the snapshot can be trusted: the answers of every pass are the
   * distances exactly if no resolvable originator is more than 16 hops away.
   */
  lemma AnswersExactIffShallow(t: Table)
    ensures Shallow(t) <==>
            forall keys, i: nat :: Order(t, keys) && i < |keys| ==> Answer(t, keys, i) == Distance(t, keys[i])
  {
    if Shallow(t) {
      forall keys, i: nat | Order(t, keys) && i < |keys| ensures Answer(t, keys, i) == Distance(t, keys[i]) {
        ShallowAnswersAreExact(t, keys[..i + 1]);
        EveryCachedHopIsTrue(t, keys[..i + 1]);
        assert keys[i] == keys[..i + 1][i];
      }
    } else {
      var k, d: nat :| AtDistance(t, k, d) && d > MAX_CHAIN;
      var far := SomeAtSeventeen(t, k, d);
      var a, b := FarAnswerDependsOnOrder(t, far);
      DistanceIs(t, far, MAX_CHAIN + 1);
    }
  }

  /** And only then does the order of the map not show in the snapshot. */
  lemma OrderIrrelevantIffShallow(t: Table)
    ensures Shallow(t) <==>
            forall a, b, i: nat, j: nat ::
              Order(t, a) && Order(t, b) && i < |a| && j < |b| && a[i] == b[j] ==> Answer(t, a, i) == Answer(t, b, j)
  {
    AnswersExactIffShallow(t);
    if !Shallow(t) {
      var k, d: nat :| AtDistance(t, k, d) && d > MAX_CHAIN;
      var far := SomeAtSeventeen(t, k, d);
      var a, b := FarAnswerDependsOnOrder(t, far);
    }
  }

  // ---- Which answers can be trusted in a table that is not shallow --------------

  /** An originator past the limit, k itself perhaps, routes through k. */
  ghost predicate ServesFar(t: Table, k: string) {
    exists far, d: nat, n: nat :: AtDistance(t, far, d) && d > MAX_CHAIN && Leads(t, far, n, k)
  }

  /** A sound cache that holds k's distance if it holds k. */
  ghost predicate TrueFor(t: Table, cache: Cache, k: string) {
    Sound(t, cache) && (k in cache ==> cache[k] == Distance(t, k))
  }

  lemma {:induction false} LeadsLengthens(t: Table, k: string, n: nat, x: string, d: nat)
    requires Leads(t, k, n, x) && AtDistance(t, x, d)
    ensures AtDistance(t, k, d + n)
    decreases n
  {
    if n > 0 {
      LeadsLengthens(t, Next(t, k), n - 1, x, d);
    }
  }

  /** A walk that stops at the limit with k behind it started past the limit. */
  lemma LimitReachedFromFar(t: Table, chain: seq<string>, i: nat, e: nat)
    requires Linked(t, chain) && |chain| == MAX_CHAIN + 1 && i < |chain| && AtDistance(t, chain[i], e)
    ensures ServesFar(t, chain[i])
  {
    var n := |chain| - 1;
    LinkedLeads(t, chain, i, n);
    LeadsShortens(t, chain[i], e, n - i, chain[n]);
    LinkedLeads(t, chain, 0, i);
    LeadsLengthens(t, chain[0], i, chain[i], e);
  }

  /** What ends a walk without an answer. */
  ghost predicate GivesUp(t: Table, chain: seq<string>, limit: nat)
    requires chain != []
  {
    var cur := chain[|chain| - 1];
    limit == 0 || cur !in t || (!Direct(t, cur) && Next(t, cur) in chain)
  }

  /** A walk gives up on a resolvable k only on the way from an originator past the limit. */
  lemma GivenUpOnTheWay(t: Table, chain: seq<string>, limit: nat, i: nat, e: nat)
    requires Linked(t, chain) && |chain| + limit == MAX_CHAIN + 1 && GivesUp(t, chain, limit)
    requires i < |chain| && AtDistance(t, chain[i], e)
    ensures ServesFar(t, chain[i])
  {
    var n := |chain| - 1;
    LinkedLeads(t, chain, i, n);
    LeadsShortens(t, chain[i], e, n - i, chain[n]);
    if limit == 0 {
      LimitReachedFromFar(t, chain, i, e);
    } else {
      var j :| 0 <= j < |chain| && chain[j] == Next(t, chain[n]);
      ClosedChainHasNoDistance(t, chain, j);
    }
  }

  lemma GivingUpIsTrueFor(t: Table, cache: Cache, chain: seq<string>, limit: nat, k: string)
    requires TrueFor(t, cache, k) && Linked(t, chain) && |chain| + limit == MAX_CHAIN + 1 && !ServesFar(t, k)
    requires GivesUp(t, chain, limit)
    ensures var c := Unknowns(chain, cache); k in c ==> c[k] == Distance(t, k)
  {
    UnknownsValues(chain, cache);
    if i :| 0 <= i < |chain| && chain[i] == k {
      if e: nat :| AtDistance(t, k, e) {
        GivenUpOnTheWay(t, chain, limit, i, e);
      }
    }
  }

  lemma BackfillingIsTrueFor(t: Table, cache: Cache, chain: seq<string>, h: nat, k: string)
    requires TrueFor(t, cache, k) && Linked(t, chain) && AtDistance(t, chain[|chain| - 1], h)
    ensures TrueFor(t, Backfilled(chain, h, cache), k)
  {
    BackfilledIsSound(t, cache, chain, h);
    BackfilledValues(chain, h, cache);
    if i :| 0 <= i < |chain| && chain[i] == k {
      LinkedDistance(t, chain, i, h);
      DistanceIs(t, k, h + |chain| - 1 - i);
    }
  }

  lemma {:induction false} WalkedIsTrueFor(t: Table, cache: Cache, chain: seq<string>, limit: nat, k: string)
    requires TrueFor(t, cache, k) && Linked(t, chain) && |chain| + limit == MAX_CHAIN + 1 && !ServesFar(t, k)
    ensures TrueFor(t, Walked(t, cache, chain, limit), k)
    decreases limit
  {
    WalkedIsSound(t, cache, chain, limit);
    var cur := chain[|chain| - 1];
    if limit == 0 || cur !in t {
      GivingUpIsTrueFor(t, cache, chain, limit, k);
    } else {
      var next := Next(t, cur);
      if Direct(t, cur) {
        BackfillingIsTrueFor(t, cache, chain, 1, k);
      } else if next in cache && cache[next] != UNKNOWN {
        BackfillingIsTrueFor(t, cache, chain, cache[next] + 1, k);
      } else if next in chain {
        GivingUpIsTrueFor(t, cache, chain, limit, k);
      } else {
        LinkedGrows(t, chain);
        WalkedIsTrueFor(t, cache, chain + [next], limit - 1, k);
      }
    }
  }

  lemma {:induction false} PassIsTrueFor(t: Table, keys: seq<string>, k: string)
    requires !ServesFar(t, k)
    ensures TrueFor(t, QueriedAll(t, keys), k)
  {
    if keys != [] {
      var n := |keys| - 1;
      PassIsTrueFor(t, keys[..n], k);
      var before := QueriedAll(t, keys[..n]);
      if keys[n] !in before {
        WalkedIsTrueFor(t, before, [keys[n]], MAX_CHAIN, k);
      }
    }
  }

  /** Whatever the order, k's answer is its distance, or 99 without one. */
  ghost predicate AlwaysTrue(t: Table, k: string) {
    forall keys, i: nat :: Order(t, keys) && i < |keys| && keys[i] == k ==> Answer(t, keys, i) == Distance(t, k)
  }

  lemma SparedIsAlwaysTrue(t: Table, k: string)
    requires !ServesFar(t, k) || Distance(t, k) == UNKNOWN
    ensures AlwaysTrue(t, k)
  {
    forall keys, i: nat | Order(t, keys) && i < |keys| && keys[i] == k ensures Answer(t, keys, i) == Distance(t, k) {
      EveryCachedHopIsTrue(t, keys[..i + 1]);
      assert keys[i] == keys[..i + 1][i];
      if !ServesFar(t, k) {
        PassIsTrueFor(t, keys[..i + 1], k);
      } else if Answer(t, keys, i) != UNKNOWN {
        DistanceIs(t, k, Answer(t, keys, i));
      }
    }
  }

  /** On the way from a far originator to a near one there is one at exactly 17 hops. */
  lemma {:induction false} SeventeenOnTheWay(t: Table, far: string, d: nat, n: nat, k: string) returns (q: string)
    requires AtDistance(t, far, d) && Leads(t, far, n, k) && d > MAX_CHAIN && d - n <= MAX_CHAIN
    ensures AtDistance(t, q, MAX_CHAIN + 1) && MAX_CHAIN + 1 - (d - n) >= 0 && Leads(t, q, MAX_CHAIN + 1 - (d - n), k)
    decreases d
  {
    if d == MAX_CHAIN + 1 {
      q := far;
    } else {
      q := SeventeenOnTheWay(t, Next(t, far), d - 1, n - 1, k);
    }
  }

  /** A call whose key the call before it left unknown answers 99. */
  lemma AskedSecondIsPoisoned(t: Table, keys: seq<string>)
    requires Order(t, keys) && |keys| > 1
    requires var c := Queried(t, map[], keys[0]); keys[1] in c && c[keys[1]] == UNKNOWN
    ensures Answer(t, keys, 1) == UNKNOWN
  {
    assert keys[..1] == [keys[0]] && [keys[0]][..0] == [];
    AnswerFromPrefix(t, keys, 1);
  }

  lemma FarQueryMarks(t: Table, q: string, d: nat, n: nat, k: string)
    requires AtDistance(t, q, d) && d > MAX_CHAIN && n <= MAX_CHAIN && Leads(t, q, n, k)
    ensures k in Queried(t, map[], q) && Queried(t, map[], q)[k] == UNKNOWN
  {
    FarWalkGivesUp(t, [q], MAX_CHAIN, d, n, k);
  }

  lemma OrderOfTwo(t: Table, q: string, k: string) returns (keys: seq<string>)
    requires q in t && k in t && q != k
    ensures Order(t, keys) && |keys| > 1 && keys[0] == q && keys[1] == k
  {
    assert Members([q, k]) == {q, k};
    keys := OrderStartingWith(t, [q, k]);
    assert keys[0] == keys[..2][0] && keys[1] == keys[..2][1];
  }

  /** An originator asked right after a far one that routes through it is answered 99. */
  lemma NearIsPoisoned(t: Table, k: string, q: string, d: nat, n: nat) returns (keys: seq<string>)
    requires AtDistance(t, q, d) && d > MAX_CHAIN && n <= MAX_CHAIN && Leads(t, q, n, k)
    requires q in t && k in t && q != k
    ensures Order(t, keys) && |keys| > 1 && keys[1] == k && Answer(t, keys, 1) == UNKNOWN
  {
    keys := OrderOfTwo(t, q, k);
    FarQueryMarks(t, q, d, n, k);
    AskedSecondIsPoisoned(t, keys);
  }

  lemma NearAndFarDiffer(t: Table, k: string, e: nat, q: string, d: nat)
    requires AtDistance(t, k, e) && AtDistance(t, q, d) && e < d
    ensures q != k && q in t && k in t
  {
    if q == k { DistanceIsUnique(t, k, e, d); }
  }

  /** A far originator asked first is answered 99. */
  lemma FarIsGivenUp(t: Table, k: string, e: nat)
    requires AtDistance(t, k, e) && e > MAX_CHAIN
    ensures exists keys, i: nat :: Order(t, keys) && i < |keys| && keys[i] == k && Answer(t, keys, i) == UNKNOWN
  {
    assert Members([k]) == {k};
    var keys := OrderStartingWith(t, [k]);
    assert keys[0] == keys[..1][0];
    assert keys[..0] == [];
    AnswerFromPrefix(t, keys, 0);
    FarQueryMarks(t, k, e, 0, k);
    assert Answer(t, keys, 0) == UNKNOWN;
  }

  /**
   * Whose answer can be trusted in any table: an originator is answered exactly in
   * every pass if and only if no resolvable originator past 16 hops, itself
   * included, routes through it, or the exact answer is 99 anyway.
   */
  lemma AlwaysTrueIffServesNoFar(t: Table, k: string)
    requires k in t
    ensures AlwaysTrue(t, k) <==> !ServesFar(t, k) || Distance(t, k) == UNKNOWN
  {
    if !ServesFar(t, k) || Distance(t, k) == UNKNOWN {
      SparedIsAlwaysTrue(t, k);
    } else {
      var far, d: nat, n: nat :| AtDistance(t, far, d) && d > MAX_CHAIN && Leads(t, far, n, k);
      LeadsShortens(t, far, d, n, k);
      DistanceIs(t, k, d - n);
      if d - n <= MAX_CHAIN {
        var q := SeventeenOnTheWay(t, far, d, n, k);
        NearAndFarDiffer(t, k, d - n, q, MAX_CHAIN + 1);
        var keys := NearIsPoisoned(t, k, q, MAX_CHAIN + 1, MAX_CHAIN + 1 - (d - n));
      } else {
        FarIsGivenUp(t, k, d - n);
      }
    }
  }

  // ---- The code that fills the cache -------------------------------------------

  datatype Originator = Originator(origAddress: string, bestNeigh: string, best: bool)

  datatype OriginatorEntry = OriginatorEntry(origMac: string, nextHopMac: string, hops: int)

  /** The best rows by lower-case address; of two for one originator the later stays. */
  function BestByMac(rows: seq<Originator>): (m: map<string, Originator>)
    ensures forall k :: k in m ==> ToLower(m[k].origAddress) == k
  {
    if rows == [] then map[]
    else
      var m := BestByMac(rows[..|rows| - 1]);
      var r := rows[|rows| - 1];
      if r.best then m[ToLower(r.origAddress) := r] else m
  }

  /** The row is a best one, of the originator with that lower-case address. */
  predicate IsBestOf(row: Originator, key: string) {
    row.best && ToLower(row.origAddress) == key
  }

  ghost predicate IsLastBestOf(rows: seq<Originator>, key: string, i: int) {
    0 <= i < |rows| && IsBestOf(rows[i], key) && forall j :: i < j < |rows| ==> !IsBestOf(rows[j], key)
  }

  /** Each originator keeps the last of its best rows, and nothing else is kept. */
  lemma {:induction false} BestIsLastBest(rows: seq<Originator>, key: string)
    ensures key in BestByMac(rows) <==> exists i :: 0 <= i < |rows| && IsBestOf(rows[i], key)
    ensures key in BestByMac(rows) ==> exists i :: IsLastBestOf(rows, key, i) && BestByMac(rows)[key] == rows[i]
    decreases |rows|
  {
    if rows != [] {
      var n := |rows| - 1;
      BestIsLastBest(rows[..n], key);
      assert forall i :: 0 <= i < n ==> rows[..n][i] == rows[i];
      if IsBestOf(rows[n], key) {
        assert IsLastBestOf(rows, key, n);
      } else {
        OthersKeepBest(rows, key);
        if key in BestByMac(rows) {
          var i :| IsLastBestOf(rows[..n], key, i) && BestByMac(rows[..n])[key] == rows[..n][i];
          assert IsLastBestOf(rows, key, i);
        }
      }
    }
  }

  /** A last row that is not best for the originator leaves its entry as it was. */
  lemma OthersKeepBest(rows: seq<Originator>, key: string)
    requires rows != [] && !IsBestOf(rows[|rows| - 1], key)
    ensures key in BestByMac(rows) <==> key in BestByMac(rows[..|rows| - 1])
    ensures key in BestByMac(rows) ==> BestByMac(rows)[key] == BestByMac(rows[..|rows| - 1])[key]
  {
  }

  function NextHops(best: map<string, Originator>): Table {
    map k | k in best :: best[k].bestNeigh
  }

  class HopsCache {
    var hops: Cache

    constructor ()
      ensures hops == map[]
    {
      hops := map[];
    }

    method BackfillChain(chain: seq<string>, startHops: int)
      modifies this
      ensures hops == Backfilled(chain, startHops, old(hops))
    {
      var h := startHops;
      var i := |chain| - 1;
      assert chain[..i + 1] == chain;
      while i >= 0
        invariant -1 <= i < |chain|
        invariant Backfilled(chain[..i + 1], h, hops) == Backfilled(chain, startHops, old(hops))
      {
        assert chain[..i + 1][..i] == chain[..i];
        hops := hops[chain[i] := h];
        h := h + 1;
        i := i - 1;
      }
    }

    method MarkUnknown(chain: seq<string>)
      modifies this
      ensures hops == Unknowns(chain, old(hops))
    {
      for i := 0 to |chain|
        invariant hops == Unknowns(chain[..i], old(hops))
      {
        assert chain[..i + 1][..i] == chain[..i];
        hops := hops[chain[i] := UNKNOWN];
      }
      assert chain[..|chain|] == chain;
    }

    method HopsFor(origMac: string, best: map<string, Originator>) returns (h: int)
      modifies this
      ensures var key := ToLower(origMac);
              && hops == Queried(NextHops(best), old(hops), key)
              && key in hops && h == hops[key]
    {
      var key := ToLower(origMac);
      ghost var t := NextHops(best);
      if key in hops {
        return hops[key];
      }
      WalkedHoldsHead(t, hops, [key], MAX_CHAIN);
      var chain := [key];
      var cur := key;
      for n := 0 to MAX_CHAIN
        invariant chain != [] && chain[0] == key && cur == chain[|chain| - 1]
        invariant hops == old(hops)
        invariant Walked(t, hops, chain, MAX_CHAIN - n) == Walked(t, old(hops), [key], MAX_CHAIN)
      {
        if cur !in best {
          break;
        }
        var next := ToLower(best[cur].bestNeigh);
        if next == cur || next == "" {
          BackfillChain(chain, 1);
          return hops[key];
        }
        if next in hops && hops[next] != UNKNOWN {
          BackfillChain(chain, hops[next] + 1);
          return hops[key];
        }
        if next in chain {
          MarkUnknown(chain);
          UnknownsValues(chain, old(hops));
          assert key in Members(chain);
          return UNKNOWN;
        }
        chain := chain + [next];
        cur := next;
      }
      MarkUnknown(chain);
      UnknownsValues(chain, old(hops));
      assert key in Members(chain);
      return UNKNOWN;
    }
  }

  lemma {:induction false} BackfilledHoldsHead(chain: seq<string>, hops: int, cache: Cache, k: string)
    requires k in chain
    ensures k in Backfilled(chain, hops, cache)
  {
    var n := |chain| - 1;
    if k in chain[..n] {
      BackfilledHoldsHead(chain[..n], hops + 1, cache[chain[n] := hops], k);
    } else {
      BackfilledKeepsKeys(chain[..n], hops + 1, cache[chain[n] := hops]);
    }
  }

  lemma {:induction false} WalkedHoldsHead(t: Table, cache: Cache, chain: seq<string>, limit: nat)
    requires chain != []
    ensures chain[0] in Walked(t, cache, chain, limit)
    decreases limit
  {
    UnknownsValues(chain, cache);
    assert chain[0] in Members(chain);
    var cur := chain[|chain| - 1];
    if limit > 0 && cur in t {
      var next := Next(t, cur);
      BackfilledHoldsHead(chain, 1, cache, chain[0]);
      if next in cache {
        BackfilledHoldsHead(chain, cache[next] + 1, cache, chain[0]);
      }
      if next !in chain {
        WalkedHoldsHead(t, cache, chain + [next], limit - 1);
      }
    }
  }

  /** A hop count as the snapshot should carry it: the distance when it is not 99, and never a needless 99. */
  ghost predicate Correct(t: Table, k: string, h: int) {
    && (h != UNKNOWN ==> h >= 1 && AtDistance(t, k, h))
    && (Shallow(t) ==> h == Distance(t, k))
  }

  ghost predicate Trusted(t: Table, cache: Cache) {
    Sound(t, cache) && (Shallow(t) ==> Exact(t, cache))
  }

  lemma QueryKeepsTrust(t: Table, cache: Cache, k: string)
    requires Trusted(t, cache)
    ensures Trusted(t, Queried(t, cache, k))
    ensures k in Queried(t, cache, k) && Correct(t, k, Queried(t, cache, k)[k])
  {
    QueryIsSound(t, cache, k);
    if Shallow(t) && k !in cache {
      WalkedIsExact(t, cache, [k], MAX_CHAIN);
    }
  }

  ghost predicate EntryFor(best: map<string, Originator>, k: string, e: OriginatorEntry) {
    && k in best && ToLower(e.origMac) == k
    && e.nextHopMac == best[k].bestNeigh
    && Correct(NextHops(best), k, e.hops)
  }

  ghost predicate Covered(best: map<string, Originator>, entries: seq<OriginatorEntry>, k: string) {
    exists e :: e in entries && EntryFor(best, k, e)
  }

  method BestRows(rows: seq<Originator>) returns (best: map<string, Originator>)
    ensures best == BestByMac(rows)
  {
    best := map[];
    for i := 0 to |rows|
      invariant best == BestByMac(rows[..i])
    {
      assert rows[..i + 1][..i] == rows[..i];
      if rows[i].best {
        best := best[ToLower(rows[i].origAddress) := rows[i]];
      }
    }
    assert rows[..|rows|] == rows;
  }

  /**
   * A direct neighbour, one whose next hop is itself or missing, is one hop away, and
   * every other originator one hop more than its next hop.
   */
  lemma DistanceFollowsNextHop(t: Table, k: string, d: nat)
    ensures AtDistance(t, k, d) <==>
              k in t && if ToLower(t[k]) == k || t[k] == "" then d == 1 else d > 1 && AtDistance(t, ToLower(t[k]), d - 1)
  {
  }

  /** The walk looks at sixteen entries, and what it cannot tell it calls 99. */
  lemma Limits()
    ensures MAX_CHAIN == 16 && UNKNOWN == 99
  {
  }

  /** The entry's hop count is 99 or its distance. */
  ghost predicate TrueOrUnknown(t: Table, e: OriginatorEntry) {
    e.hops == 99 || (e.hops >= 1 && AtDistance(t, ToLower(e.origMac), e.hops))
  }

  /** The entries made so far are those of the keys taken so far, with the answers of a pass in that order. */
  ghost predicate EntriesOf(best: map<string, Originator>, keys: seq<string>, entries: seq<OriginatorEntry>) {
    && |entries| == |keys|
    && forall i :: 0 <= i < |keys| ==>
         && keys[i] in best
         && entries[i] == OriginatorEntry(best[keys[i]].origAddress, best[keys[i]].bestNeigh, Answer(NextHops(best), keys, i))
  }

  /** The answers of a pass do not depend on what is asked later. */
  lemma AnswersStand(t: Table, keys: seq<string>, k: string)
    ensures forall i :: 0 <= i < |keys| ==> Answer(t, keys + [k], i) == Answer(t, keys, i)
    ensures k in Queried(t, QueriedAll(t, keys), k)
    ensures Answer(t, keys + [k], |keys|) == Queried(t, QueriedAll(t, keys), k)[k]
    ensures QueriedAll(t, keys + [k]) == Queried(t, QueriedAll(t, keys), k)
  {
    var longer := keys + [k];
    assert longer[..|keys|] == keys && longer[..|keys| + 1] == longer;
    AnswerFromPrefix(t, longer, |keys|);
    forall i | 0 <= i < |keys| ensures Answer(t, longer, i) == Answer(t, keys, i) {
      assert longer[..i + 1] == keys[..i + 1];
    }
  }

  lemma EntriesOneMore(best: map<string, Originator>, keys: seq<string>, entries: seq<OriginatorEntry>, k: string, e: OriginatorEntry)
    requires EntriesOf(best, keys, entries) && k in best
    requires var t := NextHops(best);
             k in Queried(t, QueriedAll(t, keys), k)
             && e == OriginatorEntry(best[k].origAddress, best[k].bestNeigh, Queried(t, QueriedAll(t, keys), k)[k])
    ensures EntriesOf(best, keys + [k], entries + [e])
  {
    AnswersStand(NextHops(best), keys, k);
  }

  ghost predicate Visited(done: set<string>, keys: seq<string>) {
    Members(keys) == done && forall i, j :: 0 <= i < j < |keys| ==> keys[i] != keys[j]
  }

  lemma VisitedOneMore(done: set<string>, keys: seq<string>, k: string)
    requires Visited(done, keys) && k !in done
    ensures Visited(done + {k}, keys + [k])
  {
    assert forall i :: 0 <= i < |keys| ==> keys[i] in Members(keys);
    assert Members(keys + [k]) == Members(keys) + {k};
  }

  /** An entry made in such a pass is correct. */
  lemma EntryIsCorrect(best: map<string, Originator>, keys: seq<string>, entries: seq<OriginatorEntry>, i: nat)
    requires EntriesOf(best, keys, entries) && i < |entries|
    requires forall k :: k in best ==> ToLower(best[k].origAddress) == k
    ensures EntryFor(best, keys[i], entries[i]) && TrueOrUnknown(NextHops(best), entries[i])
  {
    var t := NextHops(best);
    AnswerFromPrefix(t, keys, i);
    PassIsTrusted(t, keys[..i]);
    QueryKeepsTrust(t, QueriedAll(t, keys[..i]), keys[i]);
  }

  lemma {:induction false} PassIsTrusted(t: Table, keys: seq<string>)
    ensures Trusted(t, QueriedAll(t, keys))
  {
    if keys != [] {
      PassIsTrusted(t, keys[..|keys| - 1]);
      QueryKeepsTrust(t, QueriedAll(t, keys[..|keys| - 1]), keys[|keys| - 1]);
    }
  }

  /** A pass with the originators in left still to be asked. */
  ghost predicate Pass(best: map<string, Originator>, left: set<string>, keys: seq<string>, entries: seq<OriginatorEntry>, hops: Cache) {
    && left <= best.Keys && Visited(best.Keys - left, keys)
    && hops == QueriedAll(NextHops(best), keys) && EntriesOf(best, keys, entries)
  }

  lemma PassStarts(best: map<string, Originator>)
    ensures Pass(best, best.Keys, [], [], map[])
  {
    assert best.Keys - best.Keys == {};
  }

  lemma {:induction false} VisitedSize(done: set<string>, keys: seq<string>)
    requires Visited(done, keys)
    ensures |keys| == |done|
  {
    if keys != [] {
      var n := |keys| - 1;
      assert keys == keys[..n] + [keys[n]];
      assert Members(keys[..n]) == done - {keys[n]};
      VisitedSize(done - {keys[n]}, keys[..n]);
      assert keys[n] in Members(keys);
    }
  }

  lemma PassEnds(best: map<string, Originator>, keys: seq<string>, entries: seq<OriginatorEntry>, hops: Cache)
    requires Pass(best, {}, keys, entries, hops)
    requires forall k :: k in best ==> ToLower(best[k].origAddress) == k
    ensures Order(NextHops(best), keys) && |entries| == |best|
    ensures forall e :: e in entries ==> EntryFor(best, ToLower(e.origMac), e) && TrueOrUnknown(NextHops(best), e)
    ensures forall k :: k in best ==> Covered(best, entries, k)
  {
    assert best.Keys - {} == best.Keys;
    VisitedSize(best.Keys, keys);
    assert |best.Keys| == |best|;
    SnapshotIsCovered(best, keys, entries);
  }

  /** The entry of the next originator. */
  method EntryOf(cache: HopsCache, best: map<string, Originator>, k: string,
                 ghost left: set<string>, ghost keys: seq<string>, ghost entries: seq<OriginatorEntry>)
    returns (entry: OriginatorEntry)
    requires k in left && k in best && ToLower(best[k].origAddress) == k
    requires Pass(best, left, keys, entries, cache.hops)
    modifies cache
    ensures Pass(best, left - {k}, keys + [k], entries + [entry], cache.hops)
  {
    AnswersStand(NextHops(best), keys, k);
    var r := best[k];
    var h := cache.HopsFor(r.origAddress, best);
    entry := OriginatorEntry(r.origAddress, r.bestNeigh, h);
    EntriesOneMore(best, keys, entries, k, entry);
    VisitedOneMore(best.Keys - left, keys, k);
    assert best.Keys - (left - {k}) == best.Keys - left + {k};
  }

  /**
   * The snapshot: one entry for each best originator, the map visited in an
   * order nothing determines, with the answers of a pass in that order. Every hop
   * count but 99 is the distance; with no resolvable originator past 16 hops every
   * entry carries its distance or 99.
   */
  method OriginatorEntries(rows: seq<Originator>) returns (entries: seq<OriginatorEntry>)
    ensures var best := BestByMac(rows);
            && (exists keys :: Order(NextHops(best), keys) && EntriesOf(best, keys, entries))
            && (forall e :: e in entries ==> EntryFor(best, ToLower(e.origMac), e) && TrueOrUnknown(NextHops(best), e))
            && (forall k :: k in best ==> Covered(best, entries, k))
            && |entries| == |best|
  {
    var best := BestRows(rows);
    var cache := new HopsCache();
    entries := [];
    ghost var keys: seq<string> := [];
    PassStarts(best);
    var left := best.Keys;
    while left != {}
      invariant Pass(best, left, keys, entries, cache.hops)
      decreases |left|
    {
      var k :| k in left;
      var entry := EntryOf(cache, best, k, left, keys, entries);
      entries, keys := entries + [entry], keys + [k];
      left := left - {k};
    }
    PassEnds(best, keys, entries, cache.hops);
  }

  lemma SnapshotIsCovered(best: map<string, Originator>, keys: seq<string>, entries: seq<OriginatorEntry>)
    requires EntriesOf(best, keys, entries) && Members(keys) == best.Keys
    requires forall k :: k in best ==> ToLower(best[k].origAddress) == k
    ensures forall e :: e in entries ==> EntryFor(best, ToLower(e.origMac), e) && TrueOrUnknown(NextHops(best), e)
    ensures forall k :: k in best ==> Covered(best, entries, k)
  {
    forall i | 0 <= i < |entries| ensures EntryFor(best, keys[i], entries[i]) && TrueOrUnknown(NextHops(best), entries[i]) {
      EntryIsCorrect(best, keys, entries, i);
    }
    forall k | k in best ensures Covered(best, entries, k) {
      assert k in Members(keys);
      var i :| 0 <= i < |keys| && keys[i] == k;
      assert entries[i] in entries;
    }
  }
}
