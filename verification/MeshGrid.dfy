/**
 * How large a mesh reservation serves when it started with nobody configured.
 *
 * The search only ever answers offset 100 and what lies whole windows beyond it,
 * or offset 1 and what lies whole windows beyond that and below 100. Counting
 * these places gives the exact size up to which every such mesh ends well.
 */
module MeshGrid {
  import opened Outcomes
  import opened MeshRows
  import opened FiniteSets
  import opened MeshReservation
  import opened MeshConvergence
  import DhcpAllocator

  const PREFERRED := DhcpAllocator.PREFERRED_START

  /** Places from offset 100 up, places below it, and all of them. */
  const UPPER := 4089
  const LOWER := 6
  const PLACES := UPPER + LOWER

  function Place(c: int): int {
    if c < UPPER then PREFERRED + WINDOW * c else 1 + WINDOW * (c - UPPER)
  }

  predicate IsPlace(c: int) {
    0 <= c < PLACES
  }

  ghost predicate OnGrid(start: int) {
    exists c :: IsPlace(c) && start == Place(c)
  }

  /** Windows at different places do not meet, and all lie among the hosts. */
  lemma PlacesAreApart(c: int, d: int)
    requires IsPlace(c) && IsPlace(d) && c != d
    ensures Place(c) + WINDOW <= Place(d) || Place(d) + WINDOW <= Place(c)
  {
  }

  lemma PlacesAreInside(c: int)
    requires IsPlace(c)
    ensures 1 <= Place(c) && Place(c) + WINDOW - 1 <= HOSTS
    ensures Place(c) >= PREFERRED <==> c < UPPER
  {
    HostsOfTheSubnet();
  }

  // ---- What rows on the grid leave free ------------------------------------------

  ghost predicate GridRows(rows: seq<MeshNode>) {
    AllClaim(rows) && forall k :: 0 <= k < |rows| ==> OnGrid(rows[k].dhcpStart.value)
  }

  /** Some row claims the window at a place. */
  ghost predicate Taken(rows: seq<MeshNode>, c: int)
    requires AllClaim(rows)
  {
    exists k :: 0 <= k < |rows| && rows[k].dhcpStart.value == Place(c)
  }

  lemma UntakenIsFree(rows: seq<MeshNode>, c: int)
    requires GridRows(rows) && IsPlace(c) && !Taken(rows, c)
    ensures DhcpAllocator.Free(rows, HOSTS, WINDOW, Place(c))
  {
    PlacesAreInside(c);
    forall x | Place(c) <= x < Place(c) + WINDOW ensures !DhcpAllocator.Reserved(rows, x) {
      if k :| 0 <= k < |rows| && rows[k].dhcpStart.value <= x < rows[k].dhcpStart.value + WINDOW {
        var d :| IsPlace(d) && rows[k].dhcpStart.value == Place(d);
        PlacesAreApart(c, d);
        assert false;
      }
      assert forall k :: 0 <= k < |rows| ==> ClaimsOneWindow(rows[k]);
    }
  }

  lemma TakenBlocks(rows: seq<MeshNode>, c: int, t: int)
    requires GridRows(rows) && IsPlace(c) && Taken(rows, c) && Place(c) - WINDOW < t < Place(c) + WINDOW
    ensures !DhcpAllocator.Free(rows, HOSTS, WINDOW, t)
  {
    PlacesAreInside(c);
    var k :| 0 <= k < |rows| && rows[k].dhcpStart.value == Place(c);
    var x := if t >= Place(c) then t else Place(c);
    assert ClaimsOneWindow(rows[k]) && DhcpAllocator.ClaimsWindow(rows[k]);
    assert DhcpAllocator.Reserved(rows, x);
  }

  /** The place at or below a start, counted from offset 100 or from offset 1. */
  lemma PlaceBelow(t: int) returns (c: int)
    requires 1 <= t && t + WINDOW - 1 <= HOSTS && (t < PREFERRED ==> t + WINDOW <= PREFERRED)
    ensures IsPlace(c) && Place(c) <= t < Place(c) + WINDOW && (t >= PREFERRED <==> c < UPPER)
  {
    HostsOfTheSubnet();
    c := if t >= PREFERRED then (t - PREFERRED) / WINDOW else UPPER + (t - 1) / WINDOW;
  }

  /** Among rows on the grid the search answers a place. */
  lemma BestIsOnGrid(rows: seq<MeshNode>, s: int)
    requires GridRows(rows) && DhcpAllocator.Best(rows, HOSTS, WINDOW, s)
    ensures OnGrid(s)
  {
    if s < PREFERRED && s + WINDOW > PREFERRED {
      PlacesAreInside(0);
      assert Place(0) == PREFERRED;
      if Taken(rows, 0) {
        TakenBlocks(rows, 0, s);
      } else {
        UntakenIsFree(rows, 0);
      }
      assert false;
    }
    var c := PlaceBelow(s);
    if Taken(rows, c) {
      TakenBlocks(rows, c, s);
      assert false;
    }
    UntakenIsFree(rows, c);
    PlacesAreInside(c);
  }

  /** The places rows take are no more than the rows. */
  ghost function TakenPlaces(rows: seq<MeshNode>): (places: set<int>)
    requires GridRows(rows)
    ensures |places| <= |rows|
    ensures forall c :: IsPlace(c) && Taken(rows, c) ==> c in places
  {
    if rows == [] then {}
    else
      var m := |rows| - 1;
      var c :| IsPlace(c) && rows[m].dhcpStart.value == Place(c);
      assert forall d :: IsPlace(d) && Place(d) == Place(c) ==> d == c by {
        forall d | IsPlace(d) && d != c ensures Place(d) != Place(c) { PlacesAreApart(c, d); }
      }
      assert forall d :: Taken(rows, d) ==> Taken(rows[..m], d) || Place(d) == Place(c);
      TakenPlaces(rows[..m]) + {c}
  }

  /** Fewer rows than places leave a window free. */
  lemma FewGridRowsLeaveAWindow(rows: seq<MeshNode>)
    requires GridRows(rows) && |rows| < PLACES
    ensures exists s :: DhcpAllocator.Free(rows, HOSTS, WINDOW, s)
  {
    var c := LargerHasMore(Interval(0, PLACES), TakenPlaces(rows));
    UntakenIsFree(rows, c);
  }

  // ---- Meshes on the grid ------------------------------------------------------------

  /** Every configured node's window is at a place. */
  ghost predicate GridMesh(mesh: Mesh) {
    forall i :: 0 <= i < |mesh| && mesh[i].configured ==> OnGrid(mesh[i].start)
  }

  ghost predicate NobodyConfigured(mesh: Mesh) {
    forall i :: 0 <= i < |mesh| ==> !mesh[i].configured
  }

  lemma ViewIsOnGrid(mesh: Mesh, hostname: string)
    requires GridMesh(mesh)
    ensures GridRows(View(mesh, hostname))
  {
    var view := View(mesh, hostname);
    ViewClaimsWindows(mesh, hostname);
    ViewHoldsPeers(mesh, hostname);
    forall k | 0 <= k < |view| ensures OnGrid(view[k].dhcpStart.value) {
      assert view[k] in view;
    }
  }

  lemma StepKeepsGrid(a: Mesh, b: Mesh, who: set<int>)
    requires Step(a, b, who) && GridMesh(a)
    ensures GridMesh(b)
  {
    forall i | 0 <= i < |b| && b[i].configured ensures OnGrid(b[i].start) {
      if i in who {
        var view := View(a, a[i].hostname);
        ViewIsOnGrid(a, a[i].hostname);
        assert DhcpAllocator.Best(view, HOSTS, WINDOW, b[i].start);
        BestIsOnGrid(view, b[i].start);
      }
    }
  }

  /** No run leaves the grid, however its claims are grouped. */
  lemma {:induction false} RunKeepsGrid(run: seq<Mesh>, k: nat)
    requires Run(run) && GridMesh(run[0]) && k < |run|
    ensures GridMesh(run[k])
  {
    if k > 0 {
      RunKeepsGrid(run, k - 1);
      assert Successor(run[k - 1], run[k]);
      var who :| Step(run[k - 1], run[k], who);
      StepKeepsGrid(run[k - 1], run[k], who);
    }
  }

  lemma MoverOnGridSeesWindow(mesh: Mesh, i: int)
    requires GridMesh(mesh) && |mesh| <= PLACES && i in Movers(mesh)
    ensures SeesWindow(mesh, i)
  {
    ViewLeavesOutOneself(mesh, i);
    ViewIsOnGrid(mesh, mesh[i].hostname);
    FewGridRowsLeaveAWindow(View(mesh, mesh[i].hostname));
  }

  /** From any mesh on the grid of up to 4095 nodes, a run that can go no further is done. */
  lemma GridRunConverges(run: seq<Mesh>)
    requires Run(run) && GoodIdentities(run[0]) && GridMesh(run[0]) && |run[0]| <= PLACES
    ensures Stuck(run[|run| - 1]) <==> Done(run[|run| - 1])
  {
    var last := run[|run| - 1];
    RunSpendsMovers(run, |run| - 1);
    RunKeepsGrid(run, |run| - 1);
    DoneIffNoMovers(last);
    if i :| i in Movers(last) {
      MoverOnGridSeesWindow(last, i);
      MoverWithWindowIsNotStuck(last, i);
    }
    if Done(last) {
      ConfiguredWithoutConflictIsFinal(last);
    }
  }

  // ---- Larger meshes -------------------------------------------------------------------

  lemma LoneRunLonger(mesh: Mesh, rest: seq<Mesh>)
    requires LoneRun(rest) && LoneSuccessor(mesh, rest[0])
    ensures LoneRun([mesh] + rest)
  {
    var run := [mesh] + rest;
    forall k | 0 < k < |run| ensures LoneSuccessor(run[k - 1], run[k]) {
      assert k > 1 ==> run[k - 1] == rest[k - 2] && run[k] == rest[k - 1];
    }
  }

  lemma LoneClaim(mesh: Mesh) returns (next: Mesh)
    requires GoodIdentities(mesh) && !Stuck(mesh)
    ensures LoneSuccessor(mesh, next) && GoodIdentities(next) && |Movers(next)| < |Movers(mesh)|
  {
    StuckIffNoWindowForMovers(mesh);
    var i :| i in Movers(mesh) && SeesWindow(mesh, i);
    MoverCanClaim(mesh, i);
    next :| Step(mesh, next, {i});
    StepShrinksMovers(mesh, next, {i});
    StepKeepsIdentities(mesh, next, {i});
  }

  /** Lone claims can be made until the mesh is stuck. */
  lemma {:induction false} LoneClaimsToTheEnd(mesh: Mesh) returns (run: seq<Mesh>)
    requires GoodIdentities(mesh)
    ensures LoneRun(run) && run[0] == mesh && Stuck(run[|run| - 1])
    decreases |Movers(mesh)|
  {
    if Stuck(mesh) {
      run := [mesh];
    } else {
      var next := LoneClaim(mesh);
      var rest := LoneClaimsToTheEnd(next);
      LoneRunLonger(mesh, rest);
      run := [mesh] + rest;
    }
  }

  lemma LoneRunIsRun(run: seq<Mesh>)
    requires LoneRun(run)
    ensures Run(run)
  {
    forall k | 0 < k < |run| ensures Successor(run[k - 1], run[k]) {
      assert LoneSuccessor(run[k - 1], run[k]);
      var i :| Step(run[k - 1], run[k], {i});
    }
  }

  ghost function PlaceOf(n: Node): (c: int)
    requires OnGrid(n.start)
    ensures IsPlace(c) && n.start == Place(c)
  {
    var c :| IsPlace(c) && n.start == Place(c);
    c
  }

  /** The places of the first m nodes, all configured: as many as they are. */
  lemma {:induction false} PlacesOfNodes(mesh: Mesh, m: nat) returns (places: set<int>)
    requires GridMesh(mesh) && WindowsDisjoint(mesh) && m <= |mesh|
    requires forall i :: 0 <= i < |mesh| ==> mesh[i].configured
    ensures |places| == m
    ensures forall c :: c in places ==> IsPlace(c) && exists i :: 0 <= i < m && mesh[i].start == Place(c)
  {
    if m == 0 {
      places := {};
    } else {
      var before := PlacesOfNodes(mesh, m - 1);
      var c := PlaceOf(mesh[m - 1]);
      forall i | 0 <= i < m - 1 ensures mesh[i].start != mesh[m - 1].start {
        assert Apart(mesh[i], mesh[m - 1]);
      }
      places := before + {c};
    }
  }

  /** No more nodes than places are served with windows of their own. */
  lemma AllocatedMeshIsSmall(mesh: Mesh)
    requires GridMesh(mesh) && WindowsDisjoint(mesh) && forall i :: 0 <= i < |mesh| ==> mesh[i].configured
    ensures |mesh| <= PLACES
  {
    var places := PlacesOfNodes(mesh, |mesh|);
    SubsetSize(places, Interval(0, PLACES));
  }

  /** n nodes that can be told apart, none of them configured. */
  function Unconfigured(n: nat): (mesh: Mesh)
    ensures |mesh| == n
  {
    seq(n, k requires 0 <= k < n => Node(DistinctIp(k), DistinctIp(k), DistinctIp(k), 0, false))
  }

  lemma UnconfiguredIsGood(n: nat)
    ensures GoodIdentities(Unconfigured(n)) && NobodyConfigured(Unconfigured(n))
  {
    var mesh := Unconfigured(n);
    forall i, j | 0 <= i < n && 0 <= j < n && i != j ensures Distinguishable(mesh[i], mesh[j]) {
      LowerOfDots(DistinctIp(i));
      LowerOfDots(DistinctIp(j));
      assert |DistinctIp(i)| != |DistinctIp(j)|;
    }
  }

  /** More nodes than places, claiming one at a time, end with one that wants a window and finds none. */
  lemma CrowdIsNotServed(mesh: Mesh) returns (run: seq<Mesh>)
    requires GoodIdentities(mesh) && NobodyConfigured(mesh) && |mesh| > PLACES
    ensures Run(run) && LoneRun(run) && run[0] == mesh
    ensures Stuck(run[|run| - 1]) && !Done(run[|run| - 1])
  {
    run := LoneClaimsToTheEnd(mesh);
    var k := |run| - 1;
    LoneRunIsRun(run);
    RunSpendsMovers(run, k);
    RunKeepsGrid(run, k);
    LoneRunStaysAllocated(run, k);
    if Done(run[k]) {
      AllocatedMeshIsSmall(run[k]);
    }
  }

  /** A run of n nodes, nobody configured at first, that can go no further. */
  ghost predicate RunFromNobody(run: seq<Mesh>, n: nat) {
    && Run(run) && |run[0]| == n && GoodIdentities(run[0]) && NobodyConfigured(run[0])
    && Stuck(run[|run| - 1])
  }

  /** From nobody configured being stuck means being done, in every run of n nodes, exactly up to 4095 nodes. */
  lemma ReachedStuckIsDoneIffServed(n: nat)
    ensures (forall run :: RunFromNobody(run, n) ==> Done(run[|run| - 1])) <==> n <= PLACES
  {
    if n <= PLACES {
      forall run | RunFromNobody(run, n) ensures Done(run[|run| - 1]) {
        GridRunConverges(run);
      }
    } else {
      UnconfiguredIsGood(n);
      var run := CrowdIsNotServed(Unconfigured(n));
      assert RunFromNobody(run, n);
    }
  }
}
