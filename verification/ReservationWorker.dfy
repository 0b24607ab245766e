/**
 * One reservation tick on one node: refresh the table from gossip, decide, and
 * when the decision is to claim, write address, window and flag in that order.
 *
 * Every call that can fail is an input of the tick. The table starts from what
 * earlier refreshes stored; a failed refresh leaves it in use.
 */
module ReservationWorker {
  import opened Outcomes
  import opened MeshRows
  import opened MeshReservation
  import Text
  import DhcpAllocator

  // ---- The stored rows -------------------------------------------------------------

  /** A row and when its peer was last heard. */
  datatype Stored = Stored(row: MeshNode, heard: int)

  function Rows(table: seq<Stored>): (rows: seq<MeshNode>)
    ensures |rows| == |table|
  {
    seq(|table|, i requires 0 <= i < |table| => table[i].row)
  }

  /** One record of a gossip answer: unreadable, carrying a DHCP column that is no number, or a row and whether it can be written. */
  datatype GossipRecord =
    | Undecodable
    | BadColumn(hostname: string)
    | Readable(row: MeshNode, writable: bool)

  /**
   * One refresh: the answer if there was one, the node's own name (empty when it
   * could not be read), the time, and whether the sweep of stale rows succeeds.
   */
  datatype Refresh = Refresh(gossip: Option<seq<GossipRecord>>, hostname: string, now: int, sweepOk: bool)

  predicate Recordable(record: GossipRecord, hostname: string) {
    record.Readable? && record.writable && record.row.hostname != hostname
  }

  function Recorded(table: seq<Stored>, row: MeshNode, now: int): (t: seq<Stored>)
    ensures Stored(row, now) in t
  {
    if table == [] then [Stored(row, now)]
    else if table[0].row.mac == row.mac then [Stored(row, now)] + table[1..]
    else [table[0]] + Recorded(table[1..], row, now)
  }

  /** The table after one record: own, unreadable, malformed and unwritable records change nothing. */
  function AfterRecord(table: seq<Stored>, hostname: string, now: int, record: GossipRecord): seq<Stored> {
    if Recordable(record, hostname) then Recorded(table, record.row, now) else table
  }

  function AfterRecords(table: seq<Stored>, hostname: string, now: int, records: seq<GossipRecord>): seq<Stored> {
    if records == [] then table
    else AfterRecord(AfterRecords(table, hostname, now, records[..|records| - 1]), hostname, now, records[|records| - 1])
  }

  function Swept(table: seq<Stored>, cutoff: int): seq<Stored> {
    if table == [] then []
    else Swept(table[..|table| - 1], cutoff)
         + if table[|table| - 1].heard >= cutoff then [table[|table| - 1]] else []
  }

  /** Without an answer nothing changes. An expiry of zero or less sweeps nothing. */
  function Refreshed(table: seq<Stored>, expiry: int, r: Refresh): seq<Stored> {
    match r.gossip
    case None => table
    case Some(records) =>
      var heard := AfterRecords(table, r.hostname, r.now, records);
      if expiry > 0 && r.sweepOk then Swept(heard, r.now - expiry) else heard
  }

  // ---- What a refresh leaves stored -----------------------------------------------

  /** The last row a gossip answer carries for a MAC. */
  function LastHeard(records: seq<GossipRecord>, hostname: string, mac: string): Option<MeshNode> {
    if records == [] then None
    else
      var last := records[|records| - 1];
      if Recordable(last, hostname) && last.row.mac == mac then Some(last.row)
      else LastHeard(records[..|records| - 1], hostname, mac)
  }

  ghost predicate OneEach(table: seq<Stored>) {
    OneRowEach(Rows(table))
  }

  lemma OneEachByMac(table: seq<Stored>)
    ensures OneEach(table) <==> forall i, j :: 0 <= i < j < |table| ==> table[i].row.mac != table[j].row.mac
  {
    var rows := Rows(table);
    assert forall i :: 0 <= i < |table| ==> rows[i].mac == table[i].row.mac;
    if OneEach(table) {
      assert forall i, j :: 0 <= i < j < |table| ==> rows[i].mac != rows[j].mac;
    }
  }

  lemma {:induction false} RecordedIsUpsert(table: seq<Stored>, row: MeshNode, now: int)
    ensures Rows(Recorded(table, row, now)) == Upsert(Rows(table), row)
  {
    if table != [] {
      assert Rows(table)[1..] == Rows(table[1..]);
      if table[0].row.mac != row.mac {
        RecordedIsUpsert(table[1..], row, now);
      }
    }
  }

  lemma RecordedKeepsOneEach(table: seq<Stored>, row: MeshNode, now: int)
    requires OneEach(table)
    ensures OneEach(Recorded(table, row, now))
  {
    RecordedIsUpsert(table, row, now);
    UpsertKeepsOneRowEach(Rows(table), row);
  }

  /** One row takes the place of its MAC's; the others stay. */
  lemma {:induction false} RecordedReplaces(table: seq<Stored>, row: MeshNode, now: int)
    requires OneEach(table)
    ensures forall s :: s in Recorded(table, row, now) <==>
              if s.row.mac == row.mac then s == Stored(row, now) else s in table
  {
    if table != [] {
      OneEachByMac(table);
      OneEachByMac(table[1..]);
      assert table == [table[0]] + table[1..];
      assert forall i :: 0 <= i < |table[1..]| ==> table[1..][i] == table[i + 1];
      if table[0].row.mac != row.mac {
        RecordedReplaces(table[1..], row, now);
      }
    }
  }

  lemma {:induction false} AfterRecordsExactly(table: seq<Stored>, hostname: string, now: int, records: seq<GossipRecord>)
    requires OneEach(table)
    ensures OneEach(AfterRecords(table, hostname, now, records))
    ensures forall s :: s in AfterRecords(table, hostname, now, records) <==>
              match LastHeard(records, hostname, s.row.mac)
              case Some(row) => s == Stored(row, now)
              case None => s in table
    decreases |records|
  {
    if records != [] {
      var m := |records| - 1;
      AfterRecordsExactly(table, hostname, now, records[..m]);
      if Recordable(records[m], hostname) {
        RecordedKeepsOneEach(AfterRecords(table, hostname, now, records[..m]), records[m].row, now);
        RecordedReplaces(AfterRecords(table, hostname, now, records[..m]), records[m].row, now);
      }
    }
  }

  lemma {:induction false} SweptExactly(table: seq<Stored>, cutoff: int)
    ensures forall s :: s in Swept(table, cutoff) <==> s in table && s.heard >= cutoff
    ensures OneEach(table) ==> OneEach(Swept(table, cutoff))
  {
    if table != [] {
      var m := |table| - 1;
      SweptExactly(table[..m], cutoff);
      assert table == table[..m] + [table[m]];
      if OneEach(table) {
        var rest := Swept(table[..m], cutoff);
        OneEachByMac(table);
        OneEachByMac(table[..m]);
        OneEachByMac(rest);
        OneEachByMac(Swept(table, cutoff));
        forall j | 0 <= j < |rest| ensures rest[j].row.mac != table[m].row.mac {
          assert rest[j] in rest;
          var i :| 0 <= i < m && table[..m][i] == rest[j];
        }
      }
    }
  }

  /**
   * After a refresh a peer's row is stored exactly if the answer carries it last, or
   * does not mention its MAC and the row was stored and not yet stale. So no peer
   * that still gossips is ever swept, and no answer at all sweeps nobody.
   */
  lemma RefreshedExactly(table: seq<Stored>, expiry: int, r: Refresh)
    requires OneEach(table)
    ensures OneEach(Refreshed(table, expiry, r))
    ensures forall s :: s in Refreshed(table, expiry, r) <==>
              if r.gossip.None? then s in table
              else match LastHeard(r.gossip.value, r.hostname, s.row.mac)
                   case Some(row) => s == Stored(row, r.now)
                   case None => s in table && (expiry > 0 && r.sweepOk ==> s.heard >= r.now - expiry)
  {
    if r.gossip.Some? {
      AfterRecordsExactly(table, r.hostname, r.now, r.gossip.value);
      SweptExactly(AfterRecords(table, r.hostname, r.now, r.gossip.value), r.now - expiry);
    }
  }

  // ---- The mesh's view -----------------------------------------------------------

  /** What the nodes of a mesh gossip: one record per configured node. */
  function GossipOf(mesh: Mesh): seq<GossipRecord> {
    if mesh == [] then []
    else
      var rest := GossipOf(mesh[..|mesh| - 1]);
      var n := mesh[|mesh| - 1];
      if n.configured then rest + [Readable(Row(n), true)] else rest
  }

  lemma {:induction false} NothingJustHeardIsSwept(table: seq<Stored>, cutoff: int)
    requires forall i :: 0 <= i < |table| ==> table[i].heard >= cutoff
    ensures Swept(table, cutoff) == table
  {
    if table != [] {
      NothingJustHeardIsSwept(table[..|table| - 1], cutoff);
    }
  }

  lemma {:induction false} RecordedHeardNow(table: seq<Stored>, row: MeshNode, now: int)
    requires forall i :: 0 <= i < |table| ==> table[i].heard == now
    ensures forall i :: 0 <= i < |Recorded(table, row, now)| ==> Recorded(table, row, now)[i].heard == now
  {
    if table != [] && table[0].row.mac != row.mac {
      RecordedHeardNow(table[1..], row, now);
    }
  }

  lemma {:induction false} GossipGivesView(mesh: Mesh, hostname: string, now: int)
    ensures Rows(AfterRecords([], hostname, now, GossipOf(mesh))) == View(mesh, hostname)
    ensures forall i :: 0 <= i < |AfterRecords([], hostname, now, GossipOf(mesh))| ==>
              AfterRecords([], hostname, now, GossipOf(mesh))[i].heard == now
  {
    if mesh != [] {
      var before := mesh[..|mesh| - 1];
      GossipGivesView(before, hostname, now);
      if mesh[|mesh| - 1].configured {
        var all, last := GossipOf(mesh), Row(mesh[|mesh| - 1]);
        assert all[..|all| - 1] == GossipOf(before);
        var table := AfterRecords([], hostname, now, GossipOf(before));
        RecordedIsUpsert(table, last, now);
        RecordedHeardNow(table, last, now);
      }
    }
  }

  /** A sweep spares what was just heard. */
  lemma RefreshKeepsJustHeard(table: seq<Stored>, expiry: int, r: Refresh, heard: seq<Stored>)
    requires r.gossip.Some? && heard == AfterRecords(table, r.hostname, r.now, r.gossip.value)
    requires forall i :: 0 <= i < |heard| ==> heard[i].heard == r.now
    ensures Refreshed(table, expiry, r) == heard
  {
    if expiry > 0 {
      NothingJustHeardIsSwept(heard, r.now - expiry);
    }
  }

  /** A refresh from scratch stores exactly the view the protocol lets a node decide by. */
  lemma RefreshIsView(mesh: Mesh, hostname: string, expiry: int, now: int, sweepOk: bool)
    ensures Rows(Refreshed([], expiry, Refresh(Some(GossipOf(mesh)), hostname, now, sweepOk))) == View(mesh, hostname)
  {
    GossipGivesView(mesh, hostname, now);
    var heard := AfterRecords([], hostname, now, GossipOf(mesh));
    RefreshKeepsJustHeard([], expiry, Refresh(Some(GossipOf(mesh)), hostname, now, sweepOk), heard);
  }

  // ---- The tick --------------------------------------------------------------------

  datatype TickError =
    | FlagUnreadable
    | TableUnreadable
    | MeshConfigUnknown
    | NoAddress
    | BadInterfaceName
    | NetworkWriteFailed
    | NoWindow
    | DhcpWriteFailed
    | FlagWriteFailed
    | CleanupFailed
    | RebootFailed

  datatype TickIo = TickIo(
    refresh: Refresh,
    flagReadable: bool,
    tableReadable: bool,
    mac: string,
    ips: seq<string>,
    meshConfigKnown: bool,
    pick: Option<string>,
    interfaceNameOk: bool,
    networkWritable: bool,
    dhcpWritable: bool,
    flagWritable: bool,
    cleanupOk: bool,
    rebootOk: bool)

  /** What stops a claim: the first of these that fails, in the order they are tried. */
  ghost function ClaimError(io: TickIo, rows: seq<MeshNode>): Option<TickError> {
    if !io.meshConfigKnown then Some(MeshConfigUnknown)
    else if io.pick.None? then Some(NoAddress)
    else if !io.interfaceNameOk then Some(BadInterfaceName)
    else if !io.networkWritable then Some(NetworkWriteFailed)
    else if forall s :: !DhcpAllocator.Free(rows, HOSTS, WINDOW, s) then Some(NoWindow)
    else if !io.dhcpWritable then Some(DhcpWriteFailed)
    else if !io.flagWritable then Some(FlagWriteFailed)
    else if !io.cleanupOk then Some(CleanupFailed)
    else if !io.rebootOk then Some(RebootFailed)
    else None
  }

  class Worker {
    const expiry: int
    var table: seq<Stored>
    var configured: bool
    var address: Option<string>
    var window: Option<int>
    var rebooted: bool

    constructor (expiry: int, configured: bool, address: Option<string>, window: Option<int>)
      ensures this.expiry == expiry && this.configured == configured
      ensures this.address == address && this.window == window && table == [] && !rebooted
    {
      this.expiry, this.configured := expiry, configured;
      this.address, this.window := address, window;
      table, rebooted := [], false;
    }

    method ReceiveNodeData(r: Refresh)
      modifies this`table
      ensures table == Refreshed(old(table), expiry, r)
    {
      if r.gossip.None? {
        return;
      }
      var records := r.gossip.value;
      for k := 0 to |records|
        invariant table == AfterRecords(old(table), r.hostname, r.now, records[..k])
      {
        assert records[..k + 1][..k] == records[..k];
        match records[k]
        case Undecodable =>
        case BadColumn(_) =>
        case Readable(row, writable) =>
          if row.hostname != r.hostname && writable {
            table := Recorded(table, row, r.now);
          }
      }
      assert records[..|records|] == records;
      if expiry > 0 && r.sweepOk {
        ExpireStaleNodes(r.now - expiry);
      }
    }

    method ExpireStaleNodes(cutoff: int)
      modifies this`table
      ensures table == Swept(old(table), cutoff)
    {
      var was, kept := table, [];
      for k := 0 to |was|
        invariant kept == Swept(was[..k], cutoff)
      {
        assert was[..k + 1][..k] == was[..k];
        if was[k].heard >= cutoff {
          kept := kept + [was[k]];
        }
      }
      assert was[..|was|] == was;
      table := kept;
    }

    /** Rows that clash with one of the interface's addresses, found by the nested scan. */
    static method FindConflicts(ips: seq<string>, nodes: seq<MeshNode>) returns (conflicts: seq<MeshNode>)
      ensures conflicts == FindIpConflicts(ips, nodes)
    {
      conflicts := [];
      for k := 0 to |nodes|
        invariant conflicts == FindIpConflicts(ips, nodes[..k])
      {
        assert nodes[..k + 1][..k] == nodes[..k];
        var i := 0;
        while i < |ips| && ips[i] != nodes[k].ip
          invariant 0 <= i <= |ips|
          invariant nodes[k].ip !in ips[..i]
        {
          i := i + 1;
        }
        if i < |ips| {
          conflicts := conflicts + [nodes[k]];
        } else {
          assert ips[..i] == ips;
        }
      }
      assert nodes[..|nodes|] == nodes;
    }

    static method Yields(ownMac: string, peers: seq<MeshNode>) returns (r: bool)
      ensures r <==> YieldsAddress(ownMac, peers)
      ensures r <==> exists p, k :: p in peers && p.mac != "" && Text.FirstDifference(p.mac, ownMac, k)
    {
      YieldsByCharacters(ownMac, peers);
      for k := 0 to |peers|
        invariant !YieldsAddress(ownMac, peers[..k])
      {
        if peers[k].mac != "" && Text.Less(Text.ToLower(peers[k].mac), Text.ToLower(ownMac)) {
          return true;
        }
      }
      assert peers[..|peers|] == peers;
      return false;
    }

    /**
     * The claim. Each failure stops it where it happens, so the flag is set only
     * once both the address and the window are stored, and the reboot comes last.
     */
    method ApplyReservation(io: TickIo) returns (error: Option<TickError>)
      requires io.pick.Some? ==> forall r :: r in Rows(table) ==> r.ip != io.pick.value
      modifies this`configured, this`address, this`window, this`rebooted
      ensures error == ClaimError(io, Rows(table))
      ensures error == Some(MeshConfigUnknown) <==> !io.meshConfigKnown
      ensures error == Some(NoAddress) <==> io.meshConfigKnown && io.pick.None?
      ensures error == Some(BadInterfaceName) <==> io.meshConfigKnown && io.pick.Some? && !io.interfaceNameOk
      ensures error == Some(NetworkWriteFailed) <==>
                io.meshConfigKnown && io.pick.Some? && io.interfaceNameOk && !io.networkWritable
      ensures io.meshConfigKnown && io.pick.Some? && io.interfaceNameOk && io.networkWritable ==>
                var noWindow := forall s :: !DhcpAllocator.Free(Rows(table), HOSTS, WINDOW, s);
                && (error == Some(NoWindow) <==> noWindow)
                && (error == Some(DhcpWriteFailed) <==> !noWindow && !io.dhcpWritable)
                && (error == Some(FlagWriteFailed) <==> !noWindow && io.dhcpWritable && !io.flagWritable)
                && (error == Some(CleanupFailed) <==> !noWindow && io.dhcpWritable && io.flagWritable && !io.cleanupOk)
                && (error == Some(RebootFailed) <==>
                      !noWindow && io.dhcpWritable && io.flagWritable && io.cleanupOk && !io.rebootOk)
                && (error == None <==> !noWindow && io.dhcpWritable && io.flagWritable && io.cleanupOk && io.rebootOk)
      ensures address == (
                if error in {Some(MeshConfigUnknown), Some(NoAddress), Some(BadInterfaceName), Some(NetworkWriteFailed)}
                then old(address) else io.pick)
      ensures error in {None, Some(RebootFailed), Some(CleanupFailed), Some(FlagWriteFailed)} ==>
                window.Some? && DhcpAllocator.Best(Rows(table), HOSTS, WINDOW, window.value)
                && address.Some? && forall r :: r in Rows(table) ==> r.ip != address.value
      ensures error !in {None, Some(RebootFailed), Some(CleanupFailed), Some(FlagWriteFailed)} ==>
                window == old(window)
      ensures configured == (old(configured) || error in {None, Some(RebootFailed), Some(CleanupFailed)})
      ensures rebooted == (old(rebooted) || error.None?)
    {
      if !io.meshConfigKnown { return Some(MeshConfigUnknown); }
      if io.pick.None? { return Some(NoAddress); }
      if !io.interfaceNameOk { return Some(BadInterfaceName); }
      if !io.networkWritable { return Some(NetworkWriteFailed); }
      address := io.pick;

      var start, _, _ := DhcpAllocator.CalculateAvailableDhcpStart(Rows(table), true, Some(16), WINDOW);
      assert HOSTS == 65534 by { HostsOfTheSubnet(); }
      if start.Failure? { return Some(NoWindow); }
      assert DhcpAllocator.Free(Rows(table), HOSTS, WINDOW, start.value);
      if !io.dhcpWritable { return Some(DhcpWriteFailed); }
      window := Some(start.value);

      if !io.flagWritable { return Some(FlagWriteFailed); }
      configured := true;
      if !io.cleanupOk { return Some(CleanupFailed); }
      if !io.rebootOk { return Some(RebootFailed); }
      rebooted := true;
      return None;
    }

    /**
     * One tick. It decides on the refreshed rows, writes only when the decision is to
     * claim, and fails exactly where the first failing call stops it.
     */
    method ReserveOnce(io: TickIo) returns (r: Result<Decision, TickError>)
      requires io.pick.Some? ==>
                 forall row :: row in Rows(Refreshed(table, expiry, io.refresh)) ==> row.ip != io.pick.value
      modifies this
      ensures table == Refreshed(old(table), expiry, io.refresh)
      ensures var decision := Decide(old(configured), io.mac, FindIpConflicts(io.ips, Rows(table)));
              var claims := io.flagReadable && io.tableReadable && decision in {Reserve, Readdress};
              && r == (
                if !io.flagReadable then Failure(FlagUnreadable)
                else if !io.tableReadable then Failure(TableUnreadable)
                else if !claims || ClaimError(io, Rows(table)).None? then Success(decision)
                else Failure(ClaimError(io, Rows(table)).value))
              && (!claims ==> configured == old(configured) && address == old(address)
                              && window == old(window) && rebooted == old(rebooted))
              && (claims && r.Success? ==>
                    && configured && rebooted && address == io.pick
                    && address.Some? && (forall row :: row in Rows(table) ==> row.ip != address.value)
                    && window.Some? && DhcpAllocator.Best(Rows(table), HOSTS, WINDOW, window.value))
      ensures io.flagReadable && io.tableReadable && old(configured) ==>
                var clash := exists row :: row in Rows(table) && row.ip in io.ips;
                var lower := exists row, k :: row in Rows(table) && row.ip in io.ips && row.mac != ""
                                              && Text.FirstDifference(row.mac, io.mac, k);
                && (r == Success(Idle) <==> !clash)
                && (r == Success(Keep) <==> clash && !lower)
                && (!lower ==> configured && address == old(address) && window == old(window) && rebooted == old(rebooted))
                && (lower && r.Success? ==> r == Success(Readdress) && rebooted)
      ensures io.flagReadable && io.tableReadable && !old(configured) && r.Success? ==> r == Success(Reserve) && rebooted
      ensures configured && !old(configured) ==>
                && address.Some? && (forall row :: row in Rows(table) ==> row.ip != address.value)
                && window.Some? && DhcpAllocator.Best(Rows(table), HOSTS, WINDOW, window.value)
    {
      ReceiveNodeData(io.refresh);
      if !io.flagReadable {
        return Failure(FlagUnreadable);
      }
      if !io.tableReadable {
        return Failure(TableUnreadable);
      }
      var conflicts := FindConflicts(io.ips, Rows(table));
      assert conflicts != [] ==> conflicts[0] in conflicts;
      if !configured {
        r := Success(Reserve);
      } else if |conflicts| == 0 {
        return Success(Idle);
      } else {
        var mustMove := Yields(io.mac, conflicts);
        if !mustMove {
          return Success(Keep);
        }
        r := Success(Readdress);
      }
      var error := ApplyReservation(io);
      if error.Some? {
        r := Failure(error.value);
      }
    }
  }
}
