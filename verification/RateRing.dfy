/**
 * The status worker's sixteen-slot ring of traffic totals and its connected-since
 * mark, proved to answer as the whole history since the last stop would.
 */
module RateRing {
  import opened Outcomes
  import opened Counters
  import opened ModularSlots

  const RING := 16

  /** Cumulative byte totals at a time. */
  datatype Sample = Sample(t: int, rx: nat, tx: nat)

  /** A status that was fetched: its totals and whether the backend runs. */
  datatype Poll = Poll(sample: Sample, up: bool)

  datatype Rates = Rates(rxBps: real, txBps: real, rxTotal: nat, txTotal: nat)

  // ---- What a history answers -----------------------------------------------------

  function Samples(h: seq<Poll>): (s: seq<Sample>)
    ensures |s| == |h|
  {
    seq(|h|, i requires 0 <= i < |h| => h[i].sample)
  }

  /** The oldest sample that is remembered. */
  function Low(h: seq<Sample>): nat {
    if |h| <= RING then 0 else |h| - RING
  }

  /**
   * The anchor of a look-back: every sample from it to the newest is inside the
   * window, and the one before it is outside or forgotten.
   */
  predicate IsAnchor(h: seq<Sample>, window: int, a: nat)
    requires |h| > 0
  {
    var n := |h| - 1;
    && Low(h) <= a <= n
    && (forall i :: a <= i < n ==> h[n].t - window <= h[i].t)
    && (a == Low(h) || h[a - 1].t < h[n].t - window)
  }

  /** There is one anchor. */
  lemma AnchorIsUnique(h: seq<Sample>, window: int, a: nat, b: nat)
    requires |h| > 0 && IsAnchor(h, window, a) && IsAnchor(h, window, b)
    ensures a == b
  {
    var n := |h| - 1;
    assert forall i :: a <= i < n ==> h[n].t - window <= h[i].t;
    assert a <= b - 1 < n ==> b == Low(h);
    assert b <= a - 1 < n ==> a == Low(h);
  }

  /** While the clock does not step back, the anchor is the oldest remembered sample inside the window. */
  lemma AnchorIsOldestInWindow(h: seq<Sample>, window: int, a: nat)
    requires |h| > 0 && window >= 0 && a < |h|
    requires forall i, j :: 0 <= i < j < |h| ==> h[i].t <= h[j].t
    ensures IsAnchor(h, window, a) <==>
              && |h| - 16 <= a && h[|h| - 1].t - window <= h[a].t
              && forall i :: 0 <= i < a && |h| - 16 <= i ==> h[i].t < h[|h| - 1].t - window
  {
    var n := |h| - 1;
    if IsAnchor(h, window, a) {
      forall i | Low(h) <= i < a ensures h[i].t < h[n].t - window {
        assert i == a - 1 || h[i].t <= h[a - 1].t;
      }
    }
  }

  /** The rates between an anchor and the newest sample; a counter that went back counts as no traffic. */
  function RatesFrom(h: seq<Sample>, a: nat): Rates
    requires a < |h|
  {
    RatesBetween(h[a], h[|h| - 1])
  }

  function RatesBetween(anchor: Sample, newest: Sample): Rates {
    var elapsed := newest.t - anchor.t;
    if elapsed <= 0 then Rates(0.0, 0.0, newest.rx, newest.tx)
    else Rates(Growth(anchor.rx, newest.rx) as real / elapsed as real,
               Growth(anchor.tx, newest.tx) as real / elapsed as real, newest.rx, newest.tx)
  }

  /** The totals are the newest; a rate times the time that passed is what its counter grew by, if any time passed. */
  ghost predicate RatesAre(r: Rates, anchor: Sample, newest: Sample) {
    var elapsed := newest.t - anchor.t;
    && r.rxTotal == newest.rx && r.txTotal == newest.tx
    && (elapsed <= 0 ==> r.rxBps == 0.0 && r.txBps == 0.0)
    && (elapsed > 0 ==>
          && r.rxBps * elapsed as real == (if newest.rx >= anchor.rx then (newest.rx - anchor.rx) as real else 0.0)
          && r.txBps * elapsed as real == (if newest.tx >= anchor.tx then (newest.tx - anchor.tx) as real else 0.0))
  }

  lemma RatesTimesElapsed(anchor: Sample, newest: Sample)
    ensures RatesAre(RatesBetween(anchor, newest), anchor, newest)
    ensures var r, elapsed := RatesBetween(anchor, newest), newest.t - anchor.t;
            && r.rxTotal == newest.rx && r.txTotal == newest.tx
            && (elapsed <= 0 ==> r.rxBps == 0.0 && r.txBps == 0.0)
            && (elapsed > 0 ==>
                  && r.rxBps * elapsed as real == (if newest.rx >= anchor.rx then (newest.rx - anchor.rx) as real else 0.0)
                  && r.txBps * elapsed as real == (if newest.tx >= anchor.tx then (newest.tx - anchor.tx) as real else 0.0))
  {
    var elapsed := (newest.t - anchor.t) as real;
    if elapsed > 0.0 {
      assert Growth(anchor.rx, newest.rx) as real / elapsed * elapsed == Growth(anchor.rx, newest.rx) as real;
      assert Growth(anchor.tx, newest.tx) as real / elapsed * elapsed == Growth(anchor.tx, newest.tx) as real;
    }
  }

  /** When the backend has been up without a break until the last poll: the time of the streak's first poll. */
  function StreakStart(h: seq<Poll>): Option<int> {
    if h == [] || !h[|h| - 1].up then None
    else match StreakStart(h[..|h| - 1])
         case Some(t) => Some(t)
         case None => Some(h[|h| - 1].sample.t)
  }

  /** The mark names the first poll of the unbroken run of polls with the backend up. */
  lemma {:induction false} StreakIsUnbroken(h: seq<Poll>)
    ensures StreakStart(h).None? <==> h == [] || !h[|h| - 1].up
    ensures StreakStart(h).Some? ==>
              exists k :: 0 <= k < |h| && StreakStart(h) == Some(h[k].sample.t)
                          && (forall i :: k <= i < |h| ==> h[i].up) && (k > 0 ==> !h[k - 1].up)
  {
    if h != [] && h[|h| - 1].up {
      var n := |h| - 1;
      StreakIsUnbroken(h[..n]);
      if StreakStart(h[..n]).Some? {
        var k :| 0 <= k < n && StreakStart(h[..n]) == Some(h[..n][k].sample.t)
                 && (forall i :: k <= i < n ==> h[..n][i].up) && (k > 0 ==> !h[..n][k - 1].up);
        assert forall i :: k <= i < n ==> h[i] == h[..n][i];
        assert StreakStart(h) == Some(h[k].sample.t);
        assert k > 0 ==> !h[k - 1].up;
      } else {
        assert n > 0 ==> !h[n - 1].up;
        assert StreakStart(h) == Some(h[n].sample.t);
      }
    }
  }

  // ---- The ring against the history -----------------------------------------------

  /** Every remembered sample is in its slot. */
  ghost predicate Holds(ring: seq<Sample>, h: seq<Sample>) {
    |ring| == RING && forall i :: Low(h) <= i < |h| ==> ring[Slot(i, RING)] == h[i]
  }

  /** Writing the next slot forgets exactly the sample that is too old. */
  lemma PushHolds(ring: seq<Sample>, h: seq<Sample>, s: Sample)
    requires Holds(ring, h)
    ensures Holds(ring[Slot(|h|, RING) := s], h + [s])
  {
    var now := h + [s];
    forall i | Low(now) <= i < |h| ensures ring[Slot(|h|, RING) := s][Slot(i, RING)] == now[i] {
      SlotsDiffer(i, |h|, RING);
      assert Low(h) <= i;
    }
  }

  // ---- The worker -----------------------------------------------------------------

  class StatusWorker {
    const ring: array<Sample>
    var head: nat
    var count: nat
    var connectedSince: Option<int>
    var running: bool
    /** Every fetched status since the last stop. */
    ghost var history: seq<Poll>

    ghost predicate Valid()
      reads this, ring
    {
      && ring.Length == RING
      && head == Slot(|history|, RING)
      && count == |history| - Low(Samples(history))
      && Holds(ring[..], Samples(history))
      && connectedSince == StreakStart(history)
    }

    constructor ()
      ensures Valid() && fresh(ring) && history == [] && !running
    {
      ring := new Sample[RING](_ => Sample(0, 0, 0));
      head, count, connectedSince, running := 0, 0, None, false;
      history := [];
    }

    method Start()
      requires Valid()
      modifies this`running
      ensures Valid() && running
    {
      running := true;
    }

    /** A worker that is not running keeps what it has. */
    method Stop()
      requires Valid()
      modifies this
      ensures Valid() && !running
      ensures history == if old(running) then [] else old(history)
      ensures connectedSince == if old(running) then None else old(connectedSince)
    {
      if !running {
        return;
      }
      running := false;
      connectedSince := None;
      head, count := 0, 0;
      history := [];
    }

    /** A failed fetch changes nothing. */
    method FetchAndStoreStatus(status: Option<Poll>)
      requires Valid()
      modifies this, ring
      ensures Valid() && running == old(running)
      ensures history == if status.Some? then old(history) + [status.value] else old(history)
      ensures connectedSince == StreakStart(history)
      ensures status.Some? ==>
                connectedSince == if !status.value.up then None
                                  else if old(connectedSince).Some? then old(connectedSince) else Some(status.value.sample.t)
    {
      if status.None? {
        return;
      }
      var poll := status.value;
      ghost var before := history;
      if poll.up && connectedSince.None? {
        connectedSince := Some(poll.sample.t);
      }
      if !poll.up {
        connectedSince := None;
      }
      history := before + [poll];
      assert history[..|history| - 1] == before;
      assert Samples(history) == Samples(before) + [poll.sample];
      RecordRateSample(Samples(before), poll.sample);
    }

    method RecordRateSample(ghost h: seq<Sample>, s: Sample)
      requires ring.Length == RING && Holds(ring[..], h)
      requires head == Slot(|h|, RING) && count == |h| - Low(h)
      modifies this`head, this`count, ring
      ensures head == Slot(|h| + 1, RING) && count == |h| + 1 - Low(h + [s]) && Holds(ring[..], h + [s])
    {
      ghost var was := ring[..];
      PushHolds(was, h, s);
      AddInSlot(|h|, 1, RING);
      ring[head] := s;
      assert ring[..] == was[Slot(|h|, RING) := s];
      head := (head + 1) % RING;
      if count < RING {
        count := count + 1;
      }
    }

    /** The answer is the history's, from its anchor. */
    method RateWindow(window: int) returns (r: Rates)
      requires Valid()
      ensures history == [] ==> r == Rates(0.0, 0.0, 0, 0)
      ensures history != [] ==>
                exists a: nat :: a < |history| && IsAnchor(Samples(history), window, a) && r == RatesFrom(Samples(history), a)
                                 && RatesAre(r, history[a].sample, history[|history| - 1].sample)
    {
      if count == 0 {
        return Rates(0.0, 0.0, 0, 0);
      }
      ghost var a;
      r, a := RatesFromAnchor(window);
      RatesTimesElapsed(history[a].sample, history[|history| - 1].sample);
    }

    method RatesFromAnchor(window: int) returns (r: Rates, ghost a: nat)
      requires Valid() && history != []
      ensures a < |history| && IsAnchor(Samples(history), window, a)
      ensures r == RatesBetween(history[a].sample, history[|history| - 1].sample)
    {
      ghost var h := Samples(history);
      ghost var n := |h| - 1;
      var newestIdx := (head + RING - 1) % RING;
      BackInSlot(|h|, 1, RING);
      var newest := ring[newestIdx];
      assert newest == h[n] by { assert ring[..][Slot(n, RING)] == h[n]; }
      if count < 2 {
        assert IsAnchor(h, window, 0);
        return Rates(0.0, 0.0, newest.rx, newest.tx), 0;
      }
      var anchor;
      anchor, a := FindAnchor(window, newestIdx);
      r := RatesOver(anchor, newest);
    }

    /** Bytes a second between two samples; a counter that fell gives no rate. */
    method RatesOver(anchor: Sample, newest: Sample) returns (r: Rates)
      ensures r == RatesBetween(anchor, newest)
    {
      var elapsed := newest.t - anchor.t;
      if elapsed <= 0 {
        return Rates(0.0, 0.0, newest.rx, newest.tx);
      }
      var rxBps := if newest.rx < anchor.rx then 0.0 else (newest.rx - anchor.rx) as real / elapsed as real;
      var txBps := if newest.tx < anchor.tx then 0.0 else (newest.tx - anchor.tx) as real / elapsed as real;
      r := Rates(rxBps, txBps, newest.rx, newest.tx);
    }

    /** Walk back from the newest sample until one is outside the window. */
    method FindAnchor(window: int, newestIdx: nat) returns (anchor: Sample, ghost a: nat)
      requires Valid() && history != [] && newestIdx == Slot(|history| - 1, RING)
      ensures IsAnchor(Samples(history), window, a) && anchor == Samples(history)[a]
    {
      ghost var h := Samples(history);
      ghost var n := |h| - 1;
      assert ring[..][Slot(n, RING)] == h[n];
      var cutoff := ring[newestIdx].t - window;
      anchor := ring[newestIdx];
      a := n;
      var offset := 1;
      while offset < count
        invariant 1 <= offset <= count && a == n - (offset - 1) && anchor == h[a]
        invariant forall i :: a <= i < n ==> cutoff <= h[i].t
      {
        var idx := (newestIdx + RING - offset) % RING;
        BackInSlot(n, offset, RING);
        var s := ring[idx];
        assert s == h[n - offset] by { assert ring[..][Slot(n - offset, RING)] == h[n - offset]; }
        if s.t < cutoff {
          return;
        }
        anchor, a := s, n - offset;
        offset := offset + 1;
      }
    }
  }
}
