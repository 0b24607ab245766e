/**
 * That reservation ends, and ends well.
 *
 * A run of claims is short. It can stop because nobody has a reason to move, or
 * because the rows of those who have leave no window free. How many nodes it
 * takes for that is counted exactly.
 */
module MeshConvergence {
  import opened Outcomes
  import opened MeshRows
  import opened Text
  import opened FiniteSets
  import opened MeshReservation
  import DhcpAllocator

  // ---- How many rows it takes to leave no window free ---------------------------

  /** Starts a window can have. */
  const STARTS := 65519

  /** Starts one claimed window blocks: those less than a window away. */
  const BLOCKED := 31

  /** Nodes that may run out of windows need to be more than this. */
  const SURELY_SERVED := 2114

  predicate ClaimsOneWindow(row: MeshNode) {
    row.dhcpStart.Some? && row.dhcpLimit == Some(WINDOW)
  }

  predicate AllClaim(rows: seq<MeshNode>) {
    forall k :: 0 <= k < |rows| ==> ClaimsOneWindow(rows[k])
  }

  /** The starts whose window would meet a row's. */
  ghost function BlockedBy(rows: seq<MeshNode>): (b: set<int>)
    requires AllClaim(rows)
    ensures |b| <= BLOCKED * |rows|
  {
    if rows == [] then {}
    else
      var m := |rows| - 1;
      var span := Interval(rows[m].dhcpStart.value - WINDOW + 1, BLOCKED);
      UnionSize(BlockedBy(rows[..m]), span);
      BlockedBy(rows[..m]) + span
  }

  lemma {:induction false} NearIsBlocked(rows: seq<MeshNode>, k: nat, t: int)
    requires AllClaim(rows) && k < |rows|
    requires rows[k].dhcpStart.value - WINDOW < t < rows[k].dhcpStart.value + WINDOW
    ensures t in BlockedBy(rows)
    decreases |rows|
  {
    var m := |rows| - 1;
    if k < m {
      NearIsBlocked(rows[..m], k, t);
    }
  }

  /** A start that is not blocked is free. */
  lemma UnblockedIsFree(rows: seq<MeshNode>, t: int)
    requires AllClaim(rows) && 1 <= t <= STARTS && t !in BlockedBy(rows)
    ensures DhcpAllocator.Free(rows, HOSTS, WINDOW, t)
  {
    HostsOfTheSubnet();
    forall k | 0 <= k < |rows|
      ensures !(rows[k].dhcpStart.value - WINDOW < t < rows[k].dhcpStart.value + WINDOW)
    {
      if rows[k].dhcpStart.value - WINDOW < t < rows[k].dhcpStart.value + WINDOW {
        NearIsBlocked(rows, k, t);
      }
    }
    forall x | t <= x < t + WINDOW ensures !DhcpAllocator.Reserved(rows, x) {
      assert forall k :: 0 <= k < |rows| ==> ClaimsOneWindow(rows[k]);
    }
  }

  /** Rows that do not block every start leave a window free. */
  lemma FewRowsLeaveAWindow(rows: seq<MeshNode>)
    requires AllClaim(rows) && BLOCKED * |rows| < STARTS
    ensures exists s :: DhcpAllocator.Free(rows, HOSTS, WINDOW, s)
  {
    var t := LargerHasMore(Interval(1, STARTS), BlockedBy(rows));
    UnblockedIsFree(rows, t);
  }

  lemma {:induction false} ViewSize(mesh: Mesh, hostname: string)
    ensures |View(mesh, hostname)| <= |mesh|
  {
    if mesh != [] {
      ViewSize(mesh[..|mesh| - 1], hostname);
      UpsertSize(View(mesh[..|mesh| - 1], hostname), Row(mesh[|mesh| - 1]));
    }
  }

  lemma {:induction false} UpsertSize(table: seq<MeshNode>, row: MeshNode)
    ensures |table| <= |Upsert(table, row)| <= |table| + 1
  {
    if table != [] {
      UpsertSize(table[1..], row);
    }
  }

  /** A node's rows are those of others. */
  lemma {:induction false} ViewLeavesOutOneself(mesh: Mesh, i: int)
    requires 0 <= i < |mesh|
    ensures |View(mesh, mesh[i].hostname)| <= |mesh| - 1
  {
    var m := |mesh| - 1;
    if i == m {
      ViewSize(mesh[..m], mesh[i].hostname);
    } else {
      ViewLeavesOutOneself(mesh[..m], i);
      UpsertSize(View(mesh[..m], mesh[i].hostname), Row(mesh[m]));
    }
  }

  lemma ViewClaimsWindows(mesh: Mesh, hostname: string)
    ensures AllClaim(View(mesh, hostname))
  {
    ViewHoldsPeers(mesh, hostname);
    assert forall k :: 0 <= k < |View(mesh, hostname)| ==> View(mesh, hostname)[k] in View(mesh, hostname);
  }

  // ---- Who can move ------------------------------------------------------------------

  lemma {:induction false} LongerThanAll(rows: seq<MeshNode>) returns (n: nat)
    ensures forall r :: r in rows ==> |r.ip| < n
  {
    n := 0;
    for k := 0 to |rows|
      invariant forall i :: 0 <= i < k ==> |rows[i].ip| < n
    {
      n := if |rows[k].ip| >= n then |rows[k].ip| + 1 else n;
    }
  }

  /** The rows node i sees leave a window free. */
  ghost predicate SeesWindow(mesh: Mesh, i: int)
    requires 0 <= i < |mesh|
  {
    exists s :: DhcpAllocator.Free(View(mesh, mesh[i].hostname), HOSTS, WINDOW, s)
  }

  /** A node with a reason to move can do so on its own exactly when its rows leave a window free. */
  lemma MoverCanClaim(mesh: Mesh, i: int)
    requires i in Movers(mesh)
    ensures SeesWindow(mesh, i) <==> exists next :: Step(mesh, next, {i})
  {
    var view := View(mesh, mesh[i].hostname);
    if SeesWindow(mesh, i) {
      DhcpAllocator.BestExistsIffFree(view, HOSTS, WINDOW);
      var start :| DhcpAllocator.Best(view, HOSTS, WINDOW, start);
      var n := LongerThanAll(view);
      var next := mesh[i := mesh[i].(ip := DistinctIp(n), start := start, configured := true)];
      assert Step(mesh, next, {i});
    }
    if next :| Step(mesh, next, {i}) {
      ClaimerSeesWindow(mesh, next, {i}, i);
    }
  }

  lemma ClaimerSeesWindow(mesh: Mesh, next: Mesh, who: set<int>, i: int)
    requires Step(mesh, next, who) && i in who
    ensures 0 <= i < |mesh| && SeesWindow(mesh, i)
  {
    assert i in Movers(mesh);
    assert DhcpAllocator.Free(View(mesh, mesh[i].hostname), HOSTS, WINDOW, next[i].start);
  }

  /** In a mesh of up to 2114 nodes every node with a reason to move can. */
  lemma MoverOfSmallMeshCanClaim(mesh: Mesh, i: int)
    requires |mesh| <= SURELY_SERVED && i in Movers(mesh)
    ensures SeesWindow(mesh, i)
    ensures exists next :: Step(mesh, next, {i})
  {
    ViewLeavesOutOneself(mesh, i);
    ViewClaimsWindows(mesh, mesh[i].hostname);
    FewRowsLeaveAWindow(View(mesh, mesh[i].hostname));
    MoverCanClaim(mesh, i);
  }

  /** Nobody can take a step. */
  ghost predicate Stuck(mesh: Mesh) {
    forall next :: !Successor(mesh, next)
  }

  lemma MoverWithWindowIsNotStuck(mesh: Mesh, i: int)
    requires i in Movers(mesh) && SeesWindow(mesh, i)
    ensures !Stuck(mesh)
  {
    MoverCanClaim(mesh, i);
    var next :| Step(mesh, next, {i});
    assert Successor(mesh, next);
  }

  lemma NobodyStepsWithoutWindow(mesh: Mesh, next: Mesh)
    requires Successor(mesh, next)
    ensures exists i :: i in Movers(mesh) && SeesWindow(mesh, i)
  {
    var who :| Step(mesh, next, who);
    var i :| i in who;
    ClaimerSeesWindow(mesh, next, who, i);
    assert i in Movers(mesh);
  }

  /** A mesh is stuck exactly if no node with a reason to move sees a free window. */
  lemma StuckIffNoWindowForMovers(mesh: Mesh)
    ensures Stuck(mesh) <==> forall i :: i in Movers(mesh) ==> !SeesWindow(mesh, i)
  {
    if i :| i in Movers(mesh) && SeesWindow(mesh, i) {
      MoverWithWindowIsNotStuck(mesh, i);
    }
    if next :| Successor(mesh, next) {
      NobodyStepsWithoutWindow(mesh, next);
    }
  }

  // ---- A mesh that runs out of windows -------------------------------------------

  /** n nodes: the first 2114 stand 31 offsets apart, and the last is not configured. */
  function Crowded(n: nat): (mesh: Mesh)
    ensures |mesh| == n
  {
    seq(n, k requires 0 <= k < n =>
      Node(DistinctIp(k), DistinctIp(k), DistinctIp(k), BLOCKED * k + WINDOW, k < n - 1))
  }

  lemma {:induction false} LowerOfDots(s: string)
    requires forall k :: 0 <= k < |s| ==> s[k] == '.'
    ensures ToLower(s) == s
  {
    assert forall k :: 0 <= k < |s| ==> ToLower(s)[k] == s[k];
  }

  lemma CrowdedIsGood(n: nat)
    ensures GoodIdentities(Crowded(n))
  {
    var mesh := Crowded(n);
    forall i, j | 0 <= i < n && 0 <= j < n && i != j ensures Distinguishable(mesh[i], mesh[j]) {
      LowerOfDots(DistinctIp(i));
      LowerOfDots(DistinctIp(j));
      assert |DistinctIp(i)| != |DistinctIp(j)|;
    }
  }

  /** Every start meets the window of one of its first 2114 nodes. */
  lemma CrowdedLeavesNoWindow(n: nat, s: int)
    requires n > SURELY_SERVED
    ensures !DhcpAllocator.Free(View(Crowded(n), DistinctIp(n - 1)), HOSTS, WINDOW, s)
  {
    HostsOfTheSubnet();
    var mesh, host := Crowded(n), DistinctIp(n - 1);
    var view := View(mesh, host);
    if 1 <= s && s + WINDOW - 1 <= HOSTS {
      var k := (s - 1) / BLOCKED;
      assert 0 <= k < SURELY_SERVED;
      var start := BLOCKED * k + WINDOW;
      assert start - WINDOW < s < start + WINDOW;
      CrowdedIsGood(n);
      ViewIsComplete(mesh, host);
      assert |DistinctIp(k)| != |host|;
      assert Row(mesh[k]) in view;
      var i :| 0 <= i < |view| && view[i] == Row(mesh[k]);
      var x := if s >= start then s else start;
      assert DhcpAllocator.ClaimsWindow(view[i]);
      assert DhcpAllocator.Reserved(view, x);
    }
  }

  /** Alone on their addresses, all but the last keep them. */
  lemma CrowdedMoversAreTheLast(n: nat, i: int)
    requires i in Movers(Crowded(n))
    ensures i == n - 1
  {
    var mesh := Crowded(n);
    forall j | 0 <= j < n && j != i ensures mesh[i].ip != mesh[j].ip {
      assert |mesh[i].ip| != |mesh[j].ip|;
    }
    assert forall j :: !Collide(mesh, i, j);
    if i < n - 1 {
      var j := YieldsOnlyToLower(mesh, i);
      assert false;
    }
  }

  /** The last node sees no window. */
  lemma CrowdedSeesNoWindow(n: nat)
    requires n > SURELY_SERVED
    ensures !SeesWindow(Crowded(n), n - 1)
  {
    var view := View(Crowded(n), DistinctIp(n - 1));
    if s :| DhcpAllocator.Free(view, HOSTS, WINDOW, s) {
      CrowdedLeavesNoWindow(n, s);
    }
  }

  lemma CrowdedIsStuck(n: nat)
    requires n > SURELY_SERVED
    ensures GoodIdentities(Crowded(n)) && Stuck(Crowded(n)) && Movers(Crowded(n)) != {}
  {
    var mesh := Crowded(n);
    CrowdedIsGood(n);
    assert !mesh[n - 1].configured;
    assert n - 1 in Movers(mesh);
    forall i | i in Movers(mesh) ensures !SeesWindow(mesh, i) {
      CrowdedMoversAreTheLast(n, i);
      CrowdedSeesNoWindow(n);
    }
    StuckIffNoWindowForMovers(mesh);
  }

  /** Being stuck means being done, for every mesh of n nodes, exactly up to 2114 nodes. */
  lemma StuckIsDoneIffSmall(n: nat)
    ensures (forall mesh :: |mesh| == n && GoodIdentities(mesh) && Stuck(mesh) ==> Movers(mesh) == {})
            <==> n <= SURELY_SERVED
  {
    if n <= SURELY_SERVED {
      forall mesh: Mesh | |mesh| == n && GoodIdentities(mesh) && Stuck(mesh) ensures Movers(mesh) == {} {
        if i :| i in Movers(mesh) {
          MoverOfSmallMeshCanClaim(mesh, i);
          MoverWithWindowIsNotStuck(mesh, i);
        }
      }
    } else {
      CrowdedIsStuck(n);
    }
  }

  // ---- Convergence -----------------------------------------------------------------

  /** Every node configured, and no two on one address. */
  ghost predicate Done(mesh: Mesh) {
    ConflictFree(mesh) && forall i :: 0 <= i < |mesh| ==> mesh[i].configured
  }

  lemma DoneIffNoMovers(mesh: Mesh)
    requires GoodIdentities(mesh)
    ensures Done(mesh) <==> Movers(mesh) == {}
  {
    if Movers(mesh) == {} {
      QuietIsConflictFree(mesh);
      forall i | 0 <= i < |mesh| ensures mesh[i].configured {
        assert i !in Movers(mesh);
      }
    }
    if Done(mesh) {
      ConfiguredWithoutConflictIsFinal(mesh);
    }
  }

  /** However the scheduler groups the claims, a run of n nodes has at most n steps, n - 1 when all start configured. */
  lemma RunsAreShort(run: seq<Mesh>)
    requires Run(run) && GoodIdentities(run[0])
    ensures |run| - 1 <= |run[0]|
    ensures run[0] != [] && (forall i :: 0 <= i < |run[0]| ==> run[0][i].configured) ==> |run| - 1 <= |run[0]| - 1
  {
    RunSpendsMovers(run, |run| - 1);
    MoversAreNodes(run[0]);
    if run[0] != [] && (forall i :: 0 <= i < |run[0]| ==> run[0][i].configured) {
      SomeNodeKeeps(run[0]);
    }
  }

  /**
   * Convergence. Any run of up to 2114 nodes that can go no further, and none can
   * go further than n steps, has every node configured and no two on one address.
   */
  lemma Converges(run: seq<Mesh>)
    requires Run(run) && GoodIdentities(run[0]) && |run[0]| <= SURELY_SERVED
    ensures |run| - 1 <= |run[0]|
    ensures run[0] != [] && (forall i :: 0 <= i < |run[0]| ==> run[0][i].configured) ==> |run| - 1 <= |run[0]| - 1
    ensures Stuck(run[|run| - 1]) <==> Done(run[|run| - 1])
  {
    RunsAreShort(run);
    RunSpendsMovers(run, |run| - 1);
    var last := run[|run| - 1];
    DoneIffNoMovers(last);
    StuckIsDoneIffSmall(|last|);
    if Done(last) {
      ConfiguredWithoutConflictIsFinal(last);
    }
  }
}
