/**
 * Address reservation as a protocol of N nodes.
 *
 * Every configured node gossips its row. A node that is not configured yet, or
 * that shares its address with a peer of lower MAC, claims a fresh address and
 * DHCP window from what the rows it sees leave free. The scheduler lets any
 * non-empty set of such nodes claim at the same moment, each looking at the
 * rows from before the step.
 */
module MeshReservation {
  import opened Outcomes
  import opened MeshRows
  import opened Text
  import opened FiniteSets
  import DhcpAllocator

  const WINDOW := 16
  const HOSTS := DhcpAllocator.HostCount(16)

  lemma HostsOfTheSubnet()
    ensures HOSTS == 65534
  {
    DhcpAllocator.HostCounts();
  }

  // ---- One node's decision -------------------------------------------------

  /** Rows whose address is one of the interface's, in table order. */
  function FindIpConflicts(ips: seq<string>, nodes: seq<MeshNode>): (c: seq<MeshNode>)
    ensures forall r :: r in c <==> r in nodes && r.ip in ips
  {
    if nodes == [] then []
    else
      var rest := FindIpConflicts(ips, nodes[..|nodes| - 1]);
      var last := nodes[|nodes| - 1];
      assert nodes == nodes[..|nodes| - 1] + [last];
      if last.ip in ips then rest + [last] else rest
  }

  /** at lists, in order, where in the table the conflicts stand: one place for each clashing row. */
  ghost predicate Locates(at: seq<nat>, conflicts: seq<MeshNode>, ips: seq<string>, nodes: seq<MeshNode>) {
    && |at| == |conflicts|
    && (forall k :: 0 <= k < |at| ==> at[k] < |nodes| && conflicts[k] == nodes[at[k]])
    && (forall k, l :: 0 <= k < l < |at| ==> at[k] < at[l])
    && (forall i :: 0 <= i < |nodes| ==> (i in at <==> nodes[i].ip in ips))
  }

  lemma LocatesOneMore(at: seq<nat>, conflicts: seq<MeshNode>, ips: seq<string>, nodes: seq<MeshNode>, last: MeshNode)
    requires Locates(at, conflicts, ips, nodes)
    ensures last.ip in ips ==> Locates(at + [|nodes|], conflicts + [last], ips, nodes + [last])
    ensures last.ip !in ips ==> Locates(at, conflicts, ips, nodes + [last])
  {
  }

  /** The scan keeps the table's order and repeats nothing. */
  lemma {:induction false} ConflictsInTableOrder(ips: seq<string>, nodes: seq<MeshNode>) returns (at: seq<nat>)
    ensures Locates(at, FindIpConflicts(ips, nodes), ips, nodes)
    decreases |nodes|
  {
    if nodes == [] {
      at := [];
    } else {
      var m := |nodes| - 1;
      assert nodes[..m] + [nodes[m]] == nodes;
      at := ConflictsInTableOrder(ips, nodes[..m]);
      LocatesOneMore(at, FindIpConflicts(ips, nodes[..m]), ips, nodes[..m], nodes[m]);
      if nodes[m].ip in ips {
        at := at + [m];
      }
    }
  }

  /** Some peer's MAC is present and lower, compared without regard to case. */
  predicate YieldsAddress(ownMac: string, peers: seq<MeshNode>) {
    exists r :: r in peers && r.mac != "" && Less(ToLower(r.mac), ToLower(ownMac))
  }

  /**
   * Character by character, reading the capitals A to Z as small letters: a node yields
   * exactly if some peer's MAC is present and either ends or has the smaller letter
   * where the two first differ.
   */
  lemma YieldsByCharacters(ownMac: string, peers: seq<MeshNode>)
    ensures YieldsAddress(ownMac, peers) <==>
            exists r, k :: r in peers && r.mac != "" && FirstDifference(r.mac, ownMac, k)
  {
    forall r | r in peers { LessOfLowered(r.mac, ownMac); }
  }

  datatype Decision = Reserve | Idle | Keep | Readdress

  function Decide(configured: bool, ownMac: string, conflicts: seq<MeshNode>): Decision {
    if !configured then Reserve
    else if conflicts == [] then Idle
    else if !YieldsAddress(ownMac, conflicts) then Keep
    else Readdress
  }

  // ---- The mesh ------------------------------------------------------------

  datatype Node = Node(mac: string, hostname: string, ip: string, start: int, configured: bool)

  type Mesh = seq<Node>

  function Row(n: Node): MeshNode {
    MeshNode(n.mac, n.hostname, n.ip, Some(n.start), Some(WINDOW))
  }

  /** The table keeps one row per MAC; a later record replaces the earlier one. */
  function Upsert(table: seq<MeshNode>, row: MeshNode): (r: seq<MeshNode>)
    ensures row in r
    ensures forall x :: x in r ==> x == row || x in table
    ensures forall x :: x in table && x.mac != row.mac ==> x in r
  {
    if table == [] then [row]
    else if table[0].mac == row.mac then [row] + table[1..]
    else [table[0]] + Upsert(table[1..], row)
  }

  ghost predicate OneRowEach(table: seq<MeshNode>) {
    forall i, j :: 0 <= i < j < |table| ==> table[i].mac != table[j].mac
  }

  /** The MAC stays a key: recording leaves its newest row as the only one. */
  lemma {:induction false} UpsertKeepsOneRowEach(table: seq<MeshNode>, row: MeshNode)
    requires OneRowEach(table)
    ensures OneRowEach(Upsert(table, row))
    ensures forall x :: x in Upsert(table, row) && x.mac == row.mac ==> x == row
  {
    if table != [] && table[0].mac != row.mac {
      assert OneRowEach(table[1..]) by {
        assert forall i :: 0 <= i < |table[1..]| ==> table[1..][i] == table[i + 1];
      }
      UpsertKeepsOneRowEach(table[1..], row);
      var rest := Upsert(table[1..], row);
      forall j | 0 <= j < |rest| ensures rest[j].mac != table[0].mac {
        assert rest[j] in rest;
        assert rest[j] == row || rest[j] in table[1..];
      }
    }
  }

  /** What a node called hostname has stored: every gossiping peer under another hostname. */
  function View(mesh: Mesh, hostname: string): seq<MeshNode> {
    if mesh == [] then []
    else
      var rest := View(mesh[..|mesh| - 1], hostname);
      var n := mesh[|mesh| - 1];
      if n.configured && n.hostname != hostname then Upsert(rest, Row(n)) else rest
  }

  function Conflicts(mesh: Mesh, i: int): seq<MeshNode>
    requires 0 <= i < |mesh|
  {
    FindIpConflicts([mesh[i].ip], View(mesh, mesh[i].hostname))
  }

  function DecisionOf(mesh: Mesh, i: int): Decision
    requires 0 <= i < |mesh|
  {
    Decide(mesh[i].configured, mesh[i].mac, Conflicts(mesh, i))
  }

  predicate Moves(mesh: Mesh, i: int) {
    0 <= i < |mesh| && DecisionOf(mesh, i) in {Reserve, Readdress}
  }

  ghost function Movers(mesh: Mesh): set<int> {
    set i | 0 <= i < |mesh| && Moves(mesh, i)
  }

  /** Nodes i and j are on one address, and both are configured. */
  predicate Collide(mesh: Mesh, i: int, j: int) {
    0 <= i < |mesh| && 0 <= j < |mesh| && i != j
    && mesh[i].configured && mesh[j].configured && mesh[i].ip == mesh[j].ip
  }

  ghost predicate ConflictFree(mesh: Mesh) {
    forall i, j :: !Collide(mesh, i, j)
  }

  /** Two nodes can tell themselves apart: other hostname, and two present, different MACs. */
  predicate Distinguishable(a: Node, b: Node) {
    && a.hostname != b.hostname
    && a.mac != "" && b.mac != ""
    && ToLower(a.mac) != ToLower(b.mac)
  }

  ghost predicate GoodIdentities(mesh: Mesh) {
    forall i, j :: 0 <= i < |mesh| && 0 <= j < |mesh| && i != j ==> Distinguishable(mesh[i], mesh[j])
  }

  ghost predicate SameIdentities(a: Mesh, b: Mesh) {
    |a| == |b| && forall i :: 0 <= i < |a| ==> a[i].mac == b[i].mac && a[i].hostname == b[i].hostname
  }

  // ---- What a node sees ----------------------------------------------------

  lemma {:induction false} ViewHoldsPeers(mesh: Mesh, hostname: string)
    ensures forall r :: r in View(mesh, hostname) ==>
              exists j :: 0 <= j < |mesh| && mesh[j].configured && mesh[j].hostname != hostname && r == Row(mesh[j])
  {
    if mesh != [] {
      var k := |mesh| - 1;
      ViewHoldsPeers(mesh[..k], hostname);
      forall r | r in View(mesh, hostname)
        ensures exists j :: 0 <= j < |mesh| && mesh[j].configured && mesh[j].hostname != hostname && r == Row(mesh[j])
      {
        if r in View(mesh[..k], hostname) {
          var j :| 0 <= j < k && mesh[..k][j].configured && mesh[..k][j].hostname != hostname && r == Row(mesh[..k][j]);
          assert mesh[j] == mesh[..k][j];
        } else {
          assert r == Row(mesh[k]);
        }
      }
    }
  }

  lemma {:induction false} ViewIsComplete(mesh: Mesh, hostname: string)
    requires GoodIdentities(mesh)
    ensures forall j :: 0 <= j < |mesh| && mesh[j].configured && mesh[j].hostname != hostname ==>
              Row(mesh[j]) in View(mesh, hostname)
  {
    if mesh != [] {
      var k := |mesh| - 1;
      var before := mesh[..k];
      assert GoodIdentities(before) by {
        forall i, j | 0 <= i < k && 0 <= j < k && i != j ensures Distinguishable(before[i], before[j]) {
          assert Distinguishable(mesh[i], mesh[j]);
        }
      }
      ViewIsComplete(before, hostname);
      forall j | 0 <= j < |mesh| && mesh[j].configured && mesh[j].hostname != hostname
        ensures Row(mesh[j]) in View(mesh, hostname)
      {
        if j < k {
          assert before[j] == mesh[j];
          assert Row(mesh[j]) in View(before, hostname);
          assert Distinguishable(mesh[j], mesh[k]);
        }
      }
    }
  }

  /** A node only ever yields to a configured peer on its address with a lower MAC. */
  lemma YieldsOnlyToLower(mesh: Mesh, i: int) returns (j: int)
    requires 0 <= i < |mesh| && mesh[i].configured && Moves(mesh, i)
    ensures Collide(mesh, i, j) && mesh[j].hostname != mesh[i].hostname && mesh[j].mac != ""
    ensures Less(ToLower(mesh[j].mac), ToLower(mesh[i].mac))
  {
    ViewHoldsPeers(mesh, mesh[i].hostname);
    var r :| r in Conflicts(mesh, i) && r.mac != "" && Less(ToLower(r.mac), ToLower(mesh[i].mac));
    j :| 0 <= j < |mesh| && mesh[j].configured && mesh[j].hostname != mesh[i].hostname && r == Row(mesh[j]);
  }

  /** With good identities the lower MAC is also seen: a configured node moves exactly when one shares its address. */
  lemma YieldsExactlyToLower(mesh: Mesh, i: int)
    requires GoodIdentities(mesh) && 0 <= i < |mesh| && mesh[i].configured
    ensures Moves(mesh, i) <==>
            exists j :: Collide(mesh, i, j) && Less(ToLower(mesh[j].mac), ToLower(mesh[i].mac))
  {
    if Moves(mesh, i) {
      var j := YieldsOnlyToLower(mesh, i);
    }
    if j :| Collide(mesh, i, j) && Less(ToLower(mesh[j].mac), ToLower(mesh[i].mac)) {
      ViewIsComplete(mesh, mesh[i].hostname);
      assert Distinguishable(mesh[i], mesh[j]);
      assert Row(mesh[j]) in Conflicts(mesh, i);
    }
  }

  // ---- Quiet meshes ----------------------------------------------------------

  /** Once nobody has a reason to move, no two nodes share an address. */
  lemma QuietIsConflictFree(mesh: Mesh)
    requires GoodIdentities(mesh) && Movers(mesh) == {}
    ensures ConflictFree(mesh)
  {
    forall i, j | Collide(mesh, i, j) ensures i in Movers(mesh) || j in Movers(mesh) {
      assert Distinguishable(mesh[i], mesh[j]);
      LessIsTotal(ToLower(mesh[i].mac), ToLower(mesh[j].mac));
      YieldsExactlyToLower(mesh, i);
      YieldsExactlyToLower(mesh, j);
      assert Collide(mesh, j, i);
    }
  }

  function DistinctIp(k: nat): string {
    seq(k + 1, _ => '.')
  }

  /** Two nodes on one address, every other node alone on its own. */
  function CollisionOf(mesh: Mesh, i: nat, j: int): (r: Mesh)
    ensures |r| == |mesh|
  {
    seq(|mesh|, k requires 0 <= k < |mesh| =>
      mesh[k].(ip := if k == j then DistinctIp(i) else DistinctIp(k), configured := true))
  }

  lemma OnlyTheTwoShare(mesh: Mesh, i: nat, j: int, k: int, l: int)
    requires i < |mesh| && 0 <= j < |mesh| && i != j
    requires 0 <= k < |mesh| && 0 <= l < |mesh| && k != l
    requires CollisionOf(mesh, i, j)[k].ip == CollisionOf(mesh, i, j)[l].ip
    ensures (k == i && l == j) || (k == j && l == i)
  {
    assert |CollisionOf(mesh, i, j)[k].ip| == |CollisionOf(mesh, i, j)[l].ip|;
  }

  /** In such a collision of two that cannot be told apart, nobody has a reason to move. */
  lemma IndistinguishableStayPut(mesh: Mesh, i: nat, j: int, k: int)
    requires i < |mesh| && 0 <= j < |mesh| && i != j && !Distinguishable(mesh[i], mesh[j])
    ensures !Moves(CollisionOf(mesh, i, j), k)
  {
    var c := CollisionOf(mesh, i, j);
    if Moves(c, k) {
      var l := YieldsOnlyToLower(c, k);
      OnlyTheTwoShare(mesh, i, j, k, l);
      LessIsIrreflexive(ToLower(c[k].mac));
      assert false;
    }
  }

  lemma IndistinguishableStayInConflict(mesh: Mesh, i: nat, j: int)
    requires i < |mesh| && 0 <= j < |mesh| && i != j && !Distinguishable(mesh[i], mesh[j])
    ensures var c := CollisionOf(mesh, i, j);
            SameIdentities(mesh, c) && Movers(c) == {} && !ConflictFree(c)
  {
    var c := CollisionOf(mesh, i, j);
    assert Collide(c, i, j);
    forall k | 0 <= k < |c| ensures !Moves(c, k) {
      IndistinguishableStayPut(mesh, i, j, k);
    }
  }

  /**
   * Which identities make silence safe: exactly those under which every two
   * nodes differ in hostname and have present MACs that differ by more than case.
   */
  lemma QuietIsSafeIffIdentitiesGood(mesh: Mesh)
    ensures (forall m :: SameIdentities(mesh, m) && Movers(m) == {} ==> ConflictFree(m))
            <==> GoodIdentities(mesh)
  {
    if GoodIdentities(mesh) {
      forall m | SameIdentities(mesh, m) && Movers(m) == {} ensures ConflictFree(m) {
        assert GoodIdentities(m) by {
          forall i, j | 0 <= i < |m| && 0 <= j < |m| && i != j ensures Distinguishable(m[i], m[j]) {
            assert Distinguishable(mesh[i], mesh[j]);
          }
        }
        QuietIsConflictFree(m);
      }
    } else {
      var i, j :| 0 <= i < |mesh| && 0 <= j < |mesh| && i != j && !Distinguishable(mesh[i], mesh[j]);
      IndistinguishableStayInConflict(mesh, i, j);
    }
  }

  // ---- Steps and runs --------------------------------------------------------

  /** What node i can turn into by claiming: an address and the best window, both by the rows it sees. */
  ghost predicate Claims(mesh: Mesh, i: int, n: Node)
    requires 0 <= i < |mesh|
  {
    var view := View(mesh, mesh[i].hostname);
    && n.mac == mesh[i].mac && n.hostname == mesh[i].hostname && n.configured
    && (forall r :: r in view ==> r.ip != n.ip)
    && DhcpAllocator.Best(view, HOSTS, WINDOW, n.start)
  }

  ghost predicate Step(a: Mesh, b: Mesh, who: set<int>) {
    && who != {} && who <= Movers(a)
    && |b| == |a|
    && forall i :: 0 <= i < |a| ==> if i in who then Claims(a, i, b[i]) else b[i] == a[i]
  }

  lemma StepKeepsIdentities(a: Mesh, b: Mesh, who: set<int>)
    requires Step(a, b, who) && GoodIdentities(a)
    ensures SameIdentities(a, b) && GoodIdentities(b)
  {
    forall i, j | 0 <= i < |b| && 0 <= j < |b| && i != j ensures Distinguishable(b[i], b[j]) {
      assert Distinguishable(a[i], a[j]);
    }
  }

  /** A claimed address is nobody's who did not claim in the same step. */
  lemma ClaimedAddressIsFresh(a: Mesh, b: Mesh, who: set<int>, i: int, j: int)
    requires Step(a, b, who) && GoodIdentities(a)
    requires i in who && 0 <= j < |a| && j !in who && a[j].configured
    ensures b[i].ip != b[j].ip
  {
    assert i in Movers(a) && Distinguishable(a[i], a[j]);
    ViewIsComplete(a, a[i].hostname);
    assert Row(a[j]) in View(a, a[i].hostname);
  }

  /** A node that had no reason to move gets none from other nodes moving. */
  lemma KeeperStaysKeeper(a: Mesh, b: Mesh, who: set<int>, i: int)
    requires Step(a, b, who) && GoodIdentities(a) && 0 <= i < |a| && !Moves(a, i)
    ensures b[i] == a[i] && !Moves(b, i)
  {
    StepKeepsIdentities(a, b, who);
    assert i !in who;
    YieldsExactlyToLower(a, i);
    YieldsExactlyToLower(b, i);
    forall j | Collide(b, i, j) ensures Collide(a, i, j) && b[j] == a[j] {
      if j in who {
        ClaimedAddressIsFresh(a, b, who, j, i);
      }
    }
  }

  lemma LowestOf(mesh: Mesh, who: set<int>, known: int) returns (m: int)
    requires known in who && forall i :: i in who ==> 0 <= i < |mesh|
    ensures m in who
    ensures forall i :: i in who ==> !Less(ToLower(mesh[i].mac), ToLower(mesh[m].mac))
  {
    m := known;
    for k := 0 to |mesh|
      invariant m in who
      invariant forall i :: i in who && i < k ==> !Less(ToLower(mesh[i].mac), ToLower(mesh[m].mac))
    {
      var lower := ToLower(mesh[k].mac);
      LessIsIrreflexive(lower);
      if k in who && Less(lower, ToLower(mesh[m].mac)) {
        forall i | i in who && i < k
          ensures Less(ToLower(mesh[i].mac), lower) ==> Less(ToLower(mesh[i].mac), ToLower(mesh[m].mac))
        {
          LessIsTransitive(ToLower(mesh[i].mac), lower, ToLower(mesh[m].mac));
        }
        m := k;
      }
    }
  }

  /** Of the nodes that claim together, the one with the lowest MAC is done. */
  lemma LowestClaimerSettles(a: Mesh, b: Mesh, who: set<int>, m: int)
    requires Step(a, b, who) && GoodIdentities(a) && m in who
    requires forall i :: i in who ==> 0 <= i < |a| && !Less(ToLower(a[i].mac), ToLower(a[m].mac))
    ensures !Moves(b, m)
  {
    StepKeepsIdentities(a, b, who);
    YieldsExactlyToLower(b, m);
    forall j | Collide(b, m, j) ensures j in who {
      if j !in who {
        ClaimedAddressIsFresh(a, b, who, m, j);
      }
    }
  }

  /** Every step leaves strictly fewer nodes with a reason to move, and gives nobody a new one. */
  lemma StepShrinksMovers(a: Mesh, b: Mesh, who: set<int>)
    requires Step(a, b, who) && GoodIdentities(a)
    ensures Movers(b) < Movers(a)
    ensures |Movers(b)| < |Movers(a)|
  {
    forall i | i in Movers(b) ensures i in Movers(a) {
      if !Moves(a, i) {
        KeeperStaysKeeper(a, b, who, i);
      }
    }
    var known :| known in who;
    var m := LowestOf(a, who, known);
    LowestClaimerSettles(a, b, who, m);
    assert m in Movers(a) && m !in Movers(b);
    SubsetSize(Movers(b), Movers(a) - {m});
  }

  ghost predicate Successor(a: Mesh, b: Mesh) {
    exists who :: Step(a, b, who)
  }

  ghost predicate Run(run: seq<Mesh>) {
    && run != []
    && forall k :: 0 < k < |run| ==> Successor(run[k - 1], run[k])
  }

  lemma {:induction false} RunSpendsMovers(run: seq<Mesh>, k: nat)
    requires Run(run) && GoodIdentities(run[0]) && k < |run|
    ensures SameIdentities(run[0], run[k]) && GoodIdentities(run[k])
    ensures k + |Movers(run[k])| <= |Movers(run[0])|
  {
    if k > 0 {
      RunSpendsMovers(run, k - 1);
      var who :| Step(run[k - 1], run[k], who);
      StepKeepsIdentities(run[k - 1], run[k], who);
      StepShrinksMovers(run[k - 1], run[k], who);
    }
  }

  lemma MoversAreNodes(mesh: Mesh)
    ensures |Movers(mesh)| <= |mesh|
  {
    SubsetSize(Movers(mesh), Interval(0, |mesh|));
  }

  /** In a configured mesh the node with the lowest MAC of all has no reason to move. */
  lemma SomeNodeKeeps(mesh: Mesh)
    requires GoodIdentities(mesh) && mesh != [] && forall i :: 0 <= i < |mesh| ==> mesh[i].configured
    ensures |Movers(mesh)| <= |mesh| - 1
  {
    var all := Interval(0, |mesh|);
    assert 0 in all;
    var m := LowestOf(mesh, all, 0);
    YieldsExactlyToLower(mesh, m);
    SubsetSize(Movers(mesh), all - {m});
  }

  /** A node with no lower MAC on its address keeps address and window for good. */
  lemma {:induction false} KeeperNeverMoves(run: seq<Mesh>, i: int, k: nat)
    requires Run(run) && GoodIdentities(run[0]) && k < |run|
    requires 0 <= i < |run[0]| && run[0][i].configured
    requires forall j :: Collide(run[0], i, j) ==> !Less(ToLower(run[0][j].mac), ToLower(run[0][i].mac))
    ensures |run[k]| == |run[0]| && run[k][i] == run[0][i] && !Moves(run[k], i)
  {
    if k == 0 {
      YieldsExactlyToLower(run[0], i);
    } else {
      KeeperNeverMoves(run, i, k - 1);
      RunSpendsMovers(run, k - 1);
      var who :| Step(run[k - 1], run[k], who);
      KeeperStaysKeeper(run[k - 1], run[k], who, i);
    }
  }

  // ---- DHCP windows ------------------------------------------------------------

  predicate Apart(a: Node, b: Node) {
    a.start + WINDOW <= b.start || b.start + WINDOW <= a.start
  }

  ghost predicate WindowsDisjoint(mesh: Mesh) {
    forall i, j :: 0 <= i < |mesh| && 0 <= j < |mesh| && i != j && mesh[i].configured && mesh[j].configured ==>
      Apart(mesh[i], mesh[j])
  }

  ghost predicate WindowsInside(mesh: Mesh) {
    forall i :: 0 <= i < |mesh| && mesh[i].configured ==>
      1 <= mesh[i].start && mesh[i].start + WINDOW - 1 <= HOSTS
  }

  /** The goal of reservation: own address, own window, window among the subnet's hosts. */
  ghost predicate Allocated(mesh: Mesh) {
    ConflictFree(mesh) && WindowsDisjoint(mesh) && WindowsInside(mesh)
  }

  /** A claimed window is clear of every window that is not claimed in the same step. */
  lemma ClaimedWindowIsClear(a: Mesh, b: Mesh, who: set<int>, i: int, j: int)
    requires Step(a, b, who) && GoodIdentities(a) && WindowsInside(a)
    requires i in who && 0 <= j < |a| && j !in who && a[j].configured
    ensures Apart(b[i], b[j])
  {
    assert i in Movers(a) && Distinguishable(a[i], a[j]);
    var view := View(a, a[i].hostname);
    ViewIsComplete(a, a[i].hostname);
    assert Row(a[j]) in view;
    var k :| 0 <= k < |view| && view[k] == Row(a[j]);
    assert DhcpAllocator.Free(view, HOSTS, WINDOW, b[i].start);
    if !Apart(b[i], b[j]) {
      var x := if b[i].start >= b[j].start then b[i].start else b[j].start;
      assert DhcpAllocator.ClaimsWindow(view[k]);
      assert DhcpAllocator.Reserved(view, x);
      assert false;
    }
  }

  /** Claims made one at a time keep everything allocated. */
  lemma LoneClaimKeepsAllocated(a: Mesh, b: Mesh, i: int)
    requires Step(a, b, {i}) && GoodIdentities(a) && Allocated(a)
    ensures Allocated(b)
  {
    assert i in Movers(a);
    assert DhcpAllocator.Free(View(a, a[i].hostname), HOSTS, WINDOW, b[i].start);
    forall j | 0 <= j < |a| && j != i && a[j].configured ensures b[i].ip != b[j].ip && Apart(b[i], b[j]) {
      ClaimedAddressIsFresh(a, b, {i}, i, j);
      ClaimedWindowIsClear(a, b, {i}, i, j);
    }
    forall k, l | Collide(b, k, l) ensures Collide(a, k, l) {
    }
  }

  ghost predicate LoneSuccessor(a: Mesh, b: Mesh) {
    exists i :: Step(a, b, {i})
  }

  ghost predicate LoneRun(run: seq<Mesh>) {
    && run != []
    && forall k :: 0 < k < |run| ==> LoneSuccessor(run[k - 1], run[k])
  }

  /** Starting with nobody configured and claiming one at a time, every reachable state is fully allocated. */
  lemma {:induction false} LoneRunStaysAllocated(run: seq<Mesh>, k: nat)
    requires LoneRun(run) && GoodIdentities(run[0]) && k < |run|
    requires forall i :: 0 <= i < |run[0]| ==> !run[0][i].configured
    ensures GoodIdentities(run[k]) && Allocated(run[k])
  {
    if k > 0 {
      LoneRunStaysAllocated(run, k - 1);
      var i :| Step(run[k - 1], run[k], {i});
      StepKeepsIdentities(run[k - 1], run[k], {i});
      LoneClaimKeepsAllocated(run[k - 1], run[k], i);
    }
  }

  lemma {:induction false} OutsidersSeeTheSame(mesh: Mesh, h1: string, h2: string)
    requires forall j :: 0 <= j < |mesh| && mesh[j].configured ==> mesh[j].hostname != h1 && mesh[j].hostname != h2
    ensures View(mesh, h1) == View(mesh, h2)
  {
    if mesh != [] {
      OutsidersSeeTheSame(mesh[..|mesh| - 1], h1, h2);
    }
  }

  /** Two first-time claimers of one step see the same rows and so take the very same window. */
  lemma SimultaneousClaimersShareWindow(a: Mesh, b: Mesh, who: set<int>, i: int, j: int)
    requires Step(a, b, who) && GoodIdentities(a)
    requires i in who && j in who && i != j && i in Movers(a) && j in Movers(a) && !a[i].configured && !a[j].configured
    ensures b[i].start == b[j].start && b[i].configured && b[j].configured && !Apart(b[i], b[j])
  {
    forall k | 0 <= k < |a| && a[k].configured
      ensures a[k].hostname != a[i].hostname && a[k].hostname != a[j].hostname
    {
      assert Distinguishable(a[k], a[i]) && Distinguishable(a[k], a[j]);
    }
    OutsidersSeeTheSame(a, a[i].hostname, a[j].hostname);
    DhcpAllocator.BestIsUnique(View(a, a[i].hostname), HOSTS, WINDOW, b[i].start, b[j].start);
  }

  /**
   * Windows are not protected the way addresses are. When unconfigured nodes
   * claim, the windows come out disjoint exactly if one node claimed alone.
   */
  lemma WindowsStayDisjointIffLone(a: Mesh, b: Mesh, who: set<int>)
    requires Step(a, b, who) && GoodIdentities(a) && Allocated(a)
    requires forall i :: i in who ==> 0 <= i < |a| && !a[i].configured
    ensures WindowsDisjoint(b) <==> |who| == 1
  {
    var i :| i in who;
    if |who| == 1 {
      assert |who - {i}| == 0;
      assert who == {i};
      LoneClaimKeepsAllocated(a, b, i);
    } else {
      assert |who - {i}| > 0;
      var j :| j in who - {i};
      assert i in Movers(a) && j in Movers(a);
      SimultaneousClaimersShareWindow(a, b, who, i, j);
    }
  }

  /** A configured mesh without conflicts is final: nobody has a reason to claim again. */
  lemma ConfiguredWithoutConflictIsFinal(mesh: Mesh)
    requires GoodIdentities(mesh) && ConflictFree(mesh)
    requires forall i :: 0 <= i < |mesh| ==> mesh[i].configured
    ensures Movers(mesh) == {}
    ensures forall next :: !Successor(mesh, next)
  {
    forall i | 0 <= i < |mesh| ensures !Moves(mesh, i) {
      YieldsExactlyToLower(mesh, i);
    }
  }

  /** So windows shared by such a mesh stay shared, in every run. */
  lemma SharedWindowIsFinal(run: seq<Mesh>, i: int, j: int)
    requires Run(run) && GoodIdentities(run[0]) && ConflictFree(run[0])
    requires forall k :: 0 <= k < |run[0]| ==> run[0][k].configured
    requires 0 <= i < |run[0]| && 0 <= j < |run[0]| && i != j && !Apart(run[0][i], run[0][j])
    ensures run == [run[0]] && !WindowsDisjoint(run[|run| - 1])
  {
    assert |run| == 1 || Successor(run[0], run[1]);
    ConfiguredWithoutConflictIsFinal(run[0]);
  }

  /** Joint first-time claims end there when the addresses picked differ. */
  lemma JointClaimsEndShared(a: Mesh, b: Mesh, who: set<int>)
    requires Step(a, b, who) && GoodIdentities(a) && Allocated(a) && |who| > 1
    requires forall i :: 0 <= i < |a| ==> a[i].configured || i in who
    requires forall i :: i in who ==> 0 <= i < |a| && !a[i].configured
    requires forall i, j :: i in who && j in who && i != j ==> b[i].ip != b[j].ip
    ensures !WindowsDisjoint(b)
    ensures forall next :: !Successor(b, next)
  {
    WindowsStayDisjointIffLone(a, b, who);
    StepKeepsIdentities(a, b, who);
    forall i, j | Collide(b, i, j) ensures Collide(a, i, j) {
      if i in who && j !in who {
        ClaimedAddressIsFresh(a, b, who, i, j);
      } else if j in who && i !in who {
        ClaimedAddressIsFresh(a, b, who, j, i);
      }
    }
    ConfiguredWithoutConflictIsFinal(b);
  }
}
