/**
 * The search for a DHCP window that no peer row already claims.
 *
 * Offsets count from the network address. A row claims a window only when both
 * of its columns are present and positive. The search prefers offset 100, then
 * the nearest gap above it, and only then the gaps below it.
 */
module DhcpAllocator {
  import opened Outcomes
  import opened MeshRows
  import opened FiniteSets

  const PREFERRED_START := 100

  datatype DhcpRange = DhcpRange(start: int, end: int)

  datatype AllocationError =
    | BadLimit
    | BadNetworkAddress
    | BadMask
    | NetworkTooSmall
    | NoRange

  type Prefix = n: nat | n <= 32

  // ---- What the search is for -------------------------------------------

  predicate ClaimsWindow(n: MeshNode) {
    n.dhcpStart.Some? && n.dhcpLimit.Some? && n.dhcpStart.value > 0 && n.dhcpLimit.value > 0
  }

  /** Offset x lies in the window some row claims. */
  ghost predicate Reserved(nodes: seq<MeshNode>, x: int) {
    exists i :: 0 <= i < |nodes| && ClaimsWindow(nodes[i])
                && nodes[i].dhcpStart.value <= x < nodes[i].dhcpStart.value + nodes[i].dhcpLimit.value
  }

  /** The limit offsets from start on are host offsets and nobody claims any of them. */
  ghost predicate Free(nodes: seq<MeshNode>, size: int, limit: int, start: int) {
    && 1 <= start
    && start + limit - 1 <= size
    && forall x :: start <= x < start + limit ==> !Reserved(nodes, x)
  }

  /** The least free start from 100 up; failing that, the least free start of all. */
  ghost predicate Best(nodes: seq<MeshNode>, size: int, limit: int, start: int) {
    && Free(nodes, size, limit, start)
    && (start >= PREFERRED_START ==>
          forall t :: PREFERRED_START <= t < start ==> !Free(nodes, size, limit, t))
    && (start < PREFERRED_START ==>
          forall t :: t < start || PREFERRED_START <= t ==> !Free(nodes, size, limit, t))
  }

  /** A window is free exactly if it lies on host offsets and ends before, or starts behind, each window a row claims. */
  lemma FreeIfApartFromClaims(nodes: seq<MeshNode>, size: int, limit: int, start: int)
    requires limit > 0
    ensures Free(nodes, size, limit, start) <==>
              && 1 <= start && start + limit - 1 <= size
              && forall n :: n in nodes ==>
                   match (n.dhcpStart, n.dhcpLimit)
                   case (Some(s), Some(l)) => s <= 0 || l <= 0 || start + limit <= s || s + l <= start
                   case _ => true
  {
    forall n | n in nodes && ClaimsWindow(n) && !(start + limit <= n.dhcpStart.value)
               && !(n.dhcpStart.value + n.dhcpLimit.value <= start)
      ensures exists x :: start <= x < start + limit && Reserved(nodes, x)
    {
      var i :| 0 <= i < |nodes| && nodes[i] == n;
      var x := if start >= n.dhcpStart.value then start else n.dhcpStart.value;
      assert nodes[i].dhcpStart.value <= x < nodes[i].dhcpStart.value + nodes[i].dhcpLimit.value;
      assert Reserved(nodes, x);
    }
    forall x | start <= x < start + limit && Reserved(nodes, x)
      ensures exists n :: n in nodes && ClaimsWindow(n) && !(start + limit <= n.dhcpStart.value)
                          && !(n.dhcpStart.value + n.dhcpLimit.value <= start)
    {
      var i :| 0 <= i < |nodes| && ClaimsWindow(nodes[i])
               && nodes[i].dhcpStart.value <= x < nodes[i].dhcpStart.value + nodes[i].dhcpLimit.value;
      assert nodes[i] in nodes;
    }
  }

  /** The best start comes before every other free one: those from 100 up before those below, and lower before higher. */
  lemma BestComesFirst(nodes: seq<MeshNode>, size: int, limit: int, s: int)
    ensures Best(nodes, size, limit, s) <==>
              && Free(nodes, size, limit, s)
              && forall t :: Free(nodes, size, limit, t) && t != s ==> if s >= 100 then t < 100 || s < t else t < 100 && s < t
  {
  }

  /** Rows alone decide the answer: at most one start is best. */
  lemma BestIsUnique(nodes: seq<MeshNode>, size: int, limit: int, a: int, b: int)
    requires Best(nodes, size, limit, a) && Best(nodes, size, limit, b)
    ensures a == b
  {
  }

  /** Some start is best exactly when any start is free. */
  lemma BestExistsIffFree(nodes: seq<MeshNode>, size: int, limit: int)
    ensures (exists s :: Best(nodes, size, limit, s)) <==> (exists s :: Free(nodes, size, limit, s))
  {
    if s :| Free(nodes, size, limit, s) {
      if t :| Free(nodes, size, limit, t) && t >= PREFERRED_START {
        var m := LeastFree(nodes, size, limit, PREFERRED_START, t);
        assert Best(nodes, size, limit, m);
      } else {
        var m := LeastFree(nodes, size, limit, 1, s);
        assert Best(nodes, size, limit, m);
      }
    }
  }

  lemma LeastFree(nodes: seq<MeshNode>, size: int, limit: int, from: int, known: int) returns (m: int)
    requires from <= known && Free(nodes, size, limit, known)
    ensures from <= m <= known && Free(nodes, size, limit, m)
    ensures forall t :: from <= t < m ==> !Free(nodes, size, limit, t)
  {
    m := from;
    while !Free(nodes, size, limit, m)
      invariant from <= m <= known
      invariant forall t :: from <= t < m ==> !Free(nodes, size, limit, t)
      decreases known - m
    {
      m := m + 1;
    }
  }

  // ---- The ranges the loops look at ---------------------------------------

  predicate RangesOverlap(start1: int, end1: int, start2: int, end2: int) {
    start1 <= end2 && start2 <= end1
  }

  predicate Within(x: int, start: int, end: int) {
    start <= x <= end
  }

  /** The comparison of end points decides whether two windows share an offset. */
  lemma OverlapIsSharedOffset(start1: int, end1: int, start2: int, end2: int)
    requires start1 <= end1 && start2 <= end2
    ensures RangesOverlap(start1, end1, start2, end2)
            <==> exists x :: Within(x, start1, end1) && Within(x, start2, end2)
  {
    if RangesOverlap(start1, end1, start2, end2) {
      var x := if start1 <= start2 then start2 else start1;
      assert Within(x, start1, end1) && Within(x, start2, end2);
    }
  }

  function ClaimedRange(n: MeshNode): (e: DhcpRange)
    requires ClaimsWindow(n)
  {
    DhcpRange(n.dhcpStart.value, n.dhcpStart.value + n.dhcpLimit.value - 1)
  }

  /** ranges lists exactly the windows that rows claim. */
  ghost predicate Lists(nodes: seq<MeshNode>, ranges: seq<DhcpRange>) {
    && (forall e :: e in ranges ==>
          exists i :: 0 <= i < |nodes| && ClaimsWindow(nodes[i]) && ClaimedRange(nodes[i]) == e)
    && (forall i :: 0 <= i < |nodes| && ClaimsWindow(nodes[i]) ==> ClaimedRange(nodes[i]) in ranges)
  }

  predicate Sorted(ranges: seq<DhcpRange>) {
    forall i, j :: 0 <= i < j < |ranges| ==> ranges[i].start <= ranges[j].start
  }

  ghost predicate Available(ranges: seq<DhcpRange>, size: int, limit: int, start: int) {
    && 1 <= start
    && start + limit - 1 <= size
    && forall e :: e in ranges ==> !RangesOverlap(start, start + limit - 1, e.start, e.end)
  }

  lemma ReservedOffsetBlocks(nodes: seq<MeshNode>, ranges: seq<DhcpRange>, start: int, end: int, x: int)
    requires Lists(nodes, ranges) && Reserved(nodes, x) && start <= x <= end
    ensures exists e :: e in ranges && RangesOverlap(start, end, e.start, e.end)
  {
    var i :| 0 <= i < |nodes| && ClaimsWindow(nodes[i])
             && nodes[i].dhcpStart.value <= x < nodes[i].dhcpStart.value + nodes[i].dhcpLimit.value;
    var e := ClaimedRange(nodes[i]);
    assert Within(x, start, end) && Within(x, e.start, e.end);
    OverlapIsSharedOffset(start, end, e.start, e.end);
  }

  /** What the loops test on ranges is what the rows leave free. */
  lemma AvailableIsFree(nodes: seq<MeshNode>, ranges: seq<DhcpRange>, size: int, limit: int, start: int)
    requires Lists(nodes, ranges) && limit > 0
    ensures Available(ranges, size, limit, start) <==> Free(nodes, size, limit, start)
  {
    forall x | start <= x < start + limit && Reserved(nodes, x)
      ensures exists e :: e in ranges && RangesOverlap(start, start + limit - 1, e.start, e.end)
    {
      ReservedOffsetBlocks(nodes, ranges, start, start + limit - 1, x);
    }
    forall e | e in ranges && RangesOverlap(start, start + limit - 1, e.start, e.end)
      ensures exists x :: start <= x < start + limit && Reserved(nodes, x)
    {
      var i :| 0 <= i < |nodes| && ClaimsWindow(nodes[i]) && ClaimedRange(nodes[i]) == e;
      OverlapIsSharedOffset(start, start + limit - 1, e.start, e.end);
      var x :| Within(x, start, start + limit - 1) && Within(x, e.start, e.end);
      assert Reserved(nodes, x);
    }
  }

  function ClaimCount(nodes: seq<MeshNode>): (n: nat)
    ensures n <= |nodes|
  {
    if nodes == [] then 0
    else ClaimCount(nodes[..|nodes| - 1]) + if ClaimsWindow(nodes[|nodes| - 1]) then 1 else 0
  }

  method CollectRanges(nodes: seq<MeshNode>) returns (ranges: seq<DhcpRange>)
    ensures Lists(nodes, ranges)
    ensures |ranges| == ClaimCount(nodes)
  {
    ranges := [];
    for k := 0 to |nodes|
      invariant Lists(nodes[..k], ranges)
      invariant |ranges| == ClaimCount(nodes[..k])
    {
      var node := nodes[k];
      assert nodes[..k + 1] == nodes[..k] + [node];
      assert nodes[..k + 1][..k] == nodes[..k];
      if node.dhcpStart.None? || node.dhcpLimit.None? {
        continue;
      }
      if node.dhcpStart.value > 0 && node.dhcpLimit.value > 0 {
        var e := DhcpRange(node.dhcpStart.value, node.dhcpStart.value + node.dhcpLimit.value - 1);
        ranges := ranges + [e];
        assert nodes[..k + 1][k] == node && e == ClaimedRange(node);
      }
    }
    assert nodes[..|nodes|] == nodes;
  }

  function InsertByStart(e: DhcpRange, s: seq<DhcpRange>): (r: seq<DhcpRange>)
    requires Sorted(s)
    ensures forall f :: f in r ==> f == e || f in s
    ensures Sorted(r)
  {
    if s == [] || e.start <= s[0].start then [e] + s
    else
      var rest := InsertByStart(e, s[1..]);
      assert forall k :: 0 <= k < |rest| ==> rest[k] in rest;
      [s[0]] + rest
  }

  lemma {:induction false} InsertKeepsAll(e: DhcpRange, s: seq<DhcpRange>)
    requires Sorted(s)
    ensures multiset(InsertByStart(e, s)) == multiset(s) + multiset{e}
  {
    if s != [] && e.start > s[0].start {
      InsertKeepsAll(e, s[1..]);
      assert s == [s[0]] + s[1..];
    }
  }

  /** The slice sort of the source: the same windows, in order of their starts. */
  function SortByStart(s: seq<DhcpRange>): (r: seq<DhcpRange>)
    ensures Sorted(r) && multiset(r) == multiset(s)
  {
    if s == [] then []
    else
      assert s == [s[0]] + s[1..];
      InsertKeepsAll(s[0], SortByStart(s[1..]));
      InsertByStart(s[0], SortByStart(s[1..]))
  }

  lemma SortKeepsLists(nodes: seq<MeshNode>, ranges: seq<DhcpRange>)
    requires Lists(nodes, ranges)
    ensures Lists(nodes, SortByStart(ranges)) && |SortByStart(ranges)| == |ranges|
  {
    var sorted := SortByStart(ranges);
    assert |multiset(sorted)| == |multiset(ranges)|;
    assert forall e :: e in sorted <==> e in multiset(sorted);
    assert forall e :: e in ranges <==> e in multiset(ranges);
  }

  lemma NothingFreeBetween(nodes: seq<MeshNode>, ranges: seq<DhcpRange>, size: int, limit: int, lo: int, hi: int)
    requires Lists(nodes, ranges) && limit > 0
    requires forall t :: lo <= t < hi ==> !Available(ranges, size, limit, t)
    ensures forall t :: lo <= t < hi ==> !Free(nodes, size, limit, t)
  {
    forall t | lo <= t < hi ensures !Free(nodes, size, limit, t) {
      AvailableIsFree(nodes, ranges, size, limit, t);
    }
  }

  // ---- The search ------------------------------------------------------------

  method CheckCandidate(ranges: seq<DhcpRange>, size: int, limit: int, start: int) returns (ok: bool)
    ensures ok <==> Available(ranges, size, limit, start)
  {
    if start < 1 || start + limit - 1 > size {
      return false;
    }
    var proposedEnd := start + limit - 1;
    for i := 0 to |ranges|
      invariant forall e :: e in ranges[..i] ==> !RangesOverlap(start, proposedEnd, e.start, e.end)
    {
      if RangesOverlap(start, proposedEnd, ranges[i].start, ranges[i].end) {
        return false;
      }
    }
    assert ranges[..|ranges|] == ranges;
    return true;
  }

  /** The ranges a candidate at c could still run into. */
  ghost function Ahead(ranges: seq<DhcpRange>, c: int): set<int> {
    set i | 0 <= i < |ranges| && ranges[i].end >= c
  }

  lemma AheadAtMostAll(ranges: seq<DhcpRange>, c: int)
    ensures |Ahead(ranges, c)| <= |ranges|
  {
    SubsetSize(Ahead(ranges, c), Interval(0, |ranges|));
  }

  /** Jumping past a range leaves it behind for good. */
  lemma JumpLeavesBehind(ranges: seq<DhcpRange>, c: int, k: int)
    requires 0 <= k < |ranges| && ranges[k].end >= c
    ensures |Ahead(ranges, ranges[k].end + 1)| < |Ahead(ranges, c)|
  {
    var past := Ahead(ranges, ranges[k].end + 1);
    assert k in Ahead(ranges, c);
    SubsetSize(past, Ahead(ranges, c) - {k});
  }

  /**
   * One scan: candidates from start up to below, skipping past whatever blocks
   * the current one. visits counts the candidates it looks at and fallbacks the
   * times nothing blocked a candidate that was not available.
   */
  method Scan(ranges: seq<DhcpRange>, size: int, limit: int, start: int, below: int)
    returns (found: Option<int>, ghost visits: nat, ghost fallbacks: int)
    requires limit > 0 && 1 <= start
    ensures found.Some? ==>
              && start <= found.value < below
              && Available(ranges, size, limit, found.value)
              && forall t :: start <= t < found.value ==> !Available(ranges, size, limit, t)
    ensures found.None? ==> forall t :: start <= t < below ==> !Available(ranges, size, limit, t)
    ensures visits <= |ranges| + 1
    ensures fallbacks == 0
  {
    visits, fallbacks := 0, 0;
    var candidate := start;
    AheadAtMostAll(ranges, candidate);
    while candidate < below && candidate + limit - 1 <= size
      invariant start <= candidate
      invariant forall t :: start <= t < candidate ==> !Available(ranges, size, limit, t)
      invariant visits + |Ahead(ranges, candidate)| <= |ranges|
      invariant fallbacks == 0
      decreases size - candidate
    {
      visits := visits + 1;
      var ok := CheckCandidate(ranges, size, limit, candidate);
      if ok {
        return Some(candidate), visits, fallbacks;
      }
      var moved := false;
      var proposedEnd := candidate + limit - 1;
      ghost var at := candidate;
      var i := 0;
      while i < |ranges|
        invariant 0 <= i <= |ranges| && candidate == at && !moved
        invariant forall k :: 0 <= k < i ==> !RangesOverlap(at, proposedEnd, ranges[k].start, ranges[k].end)
      {
        if RangesOverlap(candidate, proposedEnd, ranges[i].start, ranges[i].end) {
          candidate := ranges[i].end + 1;
          moved := true;
          JumpLeavesBehind(ranges, at, i);
          SkippedAreBlocked(ranges, size, limit, at, i);
          break;
        }
        i := i + 1;
      }
      if !moved {
        candidate := candidate + 1;
        fallbacks := fallbacks + 1;
      }
    }
    found := None;
  }

  /** Every start between a candidate and the end of what blocks it is blocked too. */
  lemma SkippedAreBlocked(ranges: seq<DhcpRange>, size: int, limit: int, c: int, k: int)
    requires 0 <= k < |ranges| && limit > 0
    requires RangesOverlap(c, c + limit - 1, ranges[k].start, ranges[k].end)
    ensures forall t :: c <= t <= ranges[k].end ==> !Available(ranges, size, limit, t)
  {
    forall t | c <= t <= ranges[k].end ensures !Available(ranges, size, limit, t) {
      assert ranges[k] in ranges;
    }
  }

  /** The preferred start, then a scan up from it, then a scan of what lies below it. */
  method FindWindow(nodes: seq<MeshNode>, size: int, limit: int)
    returns (found: Option<int>, ghost visits: nat, ghost fallbacks: int)
    requires limit > 0
    ensures found.Some? ==> Best(nodes, size, limit, found.value)
    ensures found.None? ==> forall s :: !Free(nodes, size, limit, s)
    ensures visits <= 2 * (ClaimCount(nodes) + 1)
    ensures fallbacks == 0
  {
    visits, fallbacks := 0, 0;
    var collected := CollectRanges(nodes);
    var ranges := SortByStart(collected);
    SortKeepsLists(nodes, collected);

    var preferred := CheckCandidate(ranges, size, limit, PREFERRED_START);
    if preferred {
      AvailableIsFree(nodes, ranges, size, limit, PREFERRED_START);
      return Some(PREFERRED_START), visits, fallbacks;
    }
    found, visits, fallbacks := Scan(ranges, size, limit, PREFERRED_START, size + 1);
    if found.Some? {
      AvailableIsFree(nodes, ranges, size, limit, found.value);
      NothingFreeBetween(nodes, ranges, size, limit, PREFERRED_START, found.value);
      return;
    }
    NothingFreeBetween(nodes, ranges, size, limit, PREFERRED_START, size + 1);
    assert forall t :: PREFERRED_START <= t ==> !Free(nodes, size, limit, t);
    ghost var v, f;
    found, v, f := Scan(ranges, size, limit, 1, PREFERRED_START);
    visits, fallbacks := visits + v, fallbacks + f;
    if found.Some? {
      AvailableIsFree(nodes, ranges, size, limit, found.value);
      NothingFreeBetween(nodes, ranges, size, limit, 1, found.value);
      return;
    }
    NothingFreeBetween(nodes, ranges, size, limit, 1, PREFERRED_START);
  }

  function Pow2(n: nat): nat {
    if n == 0 then 1 else 2 * Pow2(n - 1)
  }

  /** Host addresses of a network with the given prefix length: all but the first and the last. */
  function HostCount(ones: Prefix): int {
    Pow2(32 - ones) - 2
  }

  /** A /16 has 65534 host offsets, a /24 has 254, and a /31 and a /32 have none. */
  lemma HostCounts()
    ensures HostCount(16) == 65534 && HostCount(24) == 254 && HostCount(30) == 2 && HostCount(31) == 0 && HostCount(32) < 0
  {
    assert Pow2(4) == 16;
    assert Pow2(8) == 256;
    assert Pow2(12) == 4096;
    assert Pow2(16) == 65536;
    assert Pow2(2) == 4 && Pow2(1) == 2 && Pow2(0) == 1;
  }

  /**
   * The whole search. addressOk says whether the network address parsed as IPv4
   * and mask is the prefix length when the mask is a netmask, None otherwise.
   */
  method CalculateAvailableDhcpStart(nodes: seq<MeshNode>, addressOk: bool, mask: Option<Prefix>, desiredLimit: int)
    returns (r: Result<int, AllocationError>, ghost visits: nat, ghost fallbacks: int)
    ensures desiredLimit <= 0 <==> r == Failure(BadLimit)
    ensures desiredLimit > 0 && !addressOk <==> r == Failure(BadNetworkAddress)
    ensures desiredLimit > 0 && addressOk && mask.None? <==> r == Failure(BadMask)
    ensures desiredLimit > 0 && addressOk && mask.Some? ==>
              var size := HostCount(mask.value);
              && (size <= 0 <==> r == Failure(NetworkTooSmall))
              && (size > 0 && r.Success? ==> Best(nodes, size, desiredLimit, r.value))
              && (size > 0 && r.Failure? ==>
                    r == Failure(NoRange) && forall s :: !Free(nodes, size, desiredLimit, s))
    ensures visits <= 2 * (ClaimCount(nodes) + 1)
    ensures fallbacks == 0
  {
    visits, fallbacks := 0, 0;
    if desiredLimit <= 0 {
      return Failure(BadLimit), visits, fallbacks;
    }
    if !addressOk {
      return Failure(BadNetworkAddress), visits, fallbacks;
    }
    if mask.None? {
      return Failure(BadMask), visits, fallbacks;
    }
    var size := HostCount(mask.value);
    if size <= 0 {
      return Failure(NetworkTooSmall), visits, fallbacks;
    }
    var found;
    found, visits, fallbacks := FindWindow(nodes, size, desiredLimit);
    r := match found case Some(start) => Success(start) case None => Failure(NoRange);
  }
}
