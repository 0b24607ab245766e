/**
 * The forward-error-correction controller: a smoothed loss estimate, dwell
 * counters with hysteresis, and an encoder that may refuse a write.
 *
 * One tick takes the counters of every port and whether the encoder would
 * accept a write in that tick. Loss ratios are reals.
 */
module FecController {
  import opened Outcomes
  import opened Counters

  const ALPHA := 0.2
  const SILENT_STALL_LIMIT := 30
  const UPGRADE_DWELL := 2
  const DOWNGRADE_DWELL := 15
  const UP_20 := 0.08
  const UP_30 := 0.20
  const DOWN_40 := 0.10
  const DOWN_30 := 0.03

  // ---- What one tick observes ------------------------------------------------

  type Buckets = b: seq<int> | |b| == 6 witness [0, 0, 0, 0, 0, 0]

  const MIDPOINTS: Buckets := [1, 3, 8, 15, 35, 75]

  datatype PortState = PortState(rxPushed: int, buckets: Buckets)

  const FRESH := PortState(0, [0, 0, 0, 0, 0, 0])

  /** A port slot may be empty, receive-disabled, or readable; without a jitter buffer its buckets read zero. */
  datatype PortSample =
    | Missing
    | Disabled
    | Enabled(rxPushed: int, jitter: Option<Buckets>)

  function Current(s: PortSample): PortState
    requires s.Enabled?
  {
    PortState(s.rxPushed, if s.jitter.Some? then s.jitter.value else FRESH.buckets)
  }

  function WeightedGrowth(before: Buckets, now: Buckets, n: nat): nat
    requires n <= 6
  {
    if n == 0 then 0
    else WeightedGrowth(before, now, n - 1) + Growth(before[n - 1], now[n - 1]) * MIDPOINTS[n - 1]
  }

  /** A gap in each bucket counts for the middle of its range of run lengths. */
  lemma GapsAreWeighted(before: Buckets, now: Buckets)
    ensures WeightedGrowth(before, now, 6) ==
              Growth(before[0], now[0]) + 3 * Growth(before[1], now[1]) + 8 * Growth(before[2], now[2])
              + 15 * Growth(before[3], now[3]) + 35 * Growth(before[4], now[4]) + 75 * Growth(before[5], now[5])
  {
    assert MIDPOINTS[0] == 1 && MIDPOINTS[1] == 3 && MIDPOINTS[2] == 8;
    assert MIDPOINTS[3] == 15 && MIDPOINTS[4] == 35 && MIDPOINTS[5] == 75;
    assert WeightedGrowth(before, now, 1) == WeightedGrowth(before, now, 0) + Growth(before[0], now[0]) * MIDPOINTS[0];
    assert WeightedGrowth(before, now, 3) == WeightedGrowth(before, now, 2) + Growth(before[2], now[2]) * MIDPOINTS[2];
    assert WeightedGrowth(before, now, 5) == WeightedGrowth(before, now, 4) + Growth(before[4], now[4]) * MIDPOINTS[4];
  }

  function Pushed(before: PortState, s: PortSample): nat {
    if s.Enabled? then Growth(before.rxPushed, s.rxPushed) else 0
  }

  function Lost(before: PortState, s: PortSample): nat {
    if s.Enabled? then WeightedGrowth(before.buckets, Current(s).buckets, 6) else 0
  }

  function After(before: PortState, s: PortSample): PortState {
    if s.Enabled? then Current(s) else before
  }

  /** Remembered states, extended with zero counters for ports added since. */
  function Sized(prev: seq<PortState>, n: nat): (r: seq<PortState>)
    ensures |r| >= n && |r| >= |prev|
    ensures forall i :: 0 <= i < |r| ==> r[i] == if i < |prev| then prev[i] else PortState(0, [0, 0, 0, 0, 0, 0])
  {
    if |prev| < n then prev + seq(n - |prev|, _ => FRESH) else prev
  }

  function TotalPushed(prev: seq<PortState>, samples: seq<PortSample>): nat
    requires |prev| >= |samples|
  {
    if samples == [] then 0
    else var n := |samples| - 1; TotalPushed(prev, samples[..n]) + Pushed(prev[n], samples[n])
  }

  function TotalLost(prev: seq<PortState>, samples: seq<PortSample>): nat
    requires |prev| >= |samples|
  {
    if samples == [] then 0
    else var n := |samples| - 1; TotalLost(prev, samples[..n]) + Lost(prev[n], samples[n])
  }

  function Remembered(prev: seq<PortState>, samples: seq<PortSample>): seq<PortState>
    requires |prev| >= |samples|
  {
    seq(|prev|, i requires 0 <= i < |prev| => if i < |samples| then After(prev[i], samples[i]) else prev[i])
  }

  /**
   * The totals, port by port: a port that is missing or not received counts nothing and
   * keeps what is remembered of it; another counts what its counters grew by, without a
   * jitter buffer as if its buckets were empty, and is remembered as it is.
   */
  lemma {:induction false} TotalsByPort(prev: seq<PortState>, samples: seq<PortSample>, s: PortSample)
    requires |prev| > |samples|
    ensures TotalPushed(prev, []) == 0 && TotalLost(prev, []) == 0
    ensures var before, all := prev[|samples|], samples + [s];
            match s
            case Enabled(rx, jitter) =>
              var buckets := match jitter case Some(b) => b case None => [0, 0, 0, 0, 0, 0];
              && TotalPushed(prev, all) == TotalPushed(prev, samples) + (if rx > before.rxPushed then rx - before.rxPushed else 0)
              && TotalLost(prev, all) == TotalLost(prev, samples) + WeightedGrowth(before.buckets, buckets, 6)
              && Remembered(prev, all)[|samples|] == PortState(rx, buckets)
            case _ =>
              && TotalPushed(prev, all) == TotalPushed(prev, samples) && TotalLost(prev, all) == TotalLost(prev, samples)
              && Remembered(prev, all)[|samples|] == before
  {
    assert (samples + [s])[..|samples|] == samples;
  }

  function LossRatio(pushed: nat, lost: nat): (r: real)
    ensures 0.0 <= r <= 1.0
    ensures r * (pushed + lost) as real == lost as real
    ensures pushed + lost == 0 ==> r == 0.0
  {
    if pushed + lost > 0 then
      var l, e := lost as real, (pushed + lost) as real;
      assert l / e * e == l;
      l / e
    else 0.0
  }

  // ---- The controller as a state ---------------------------------------------

  datatype Control = Control(
    floor: int,
    level: int,
    ewma: real,
    up: int,
    down: int,
    silent: int,
    encoder: int)

  datatype TickInput = TickInput(pushed: nat, lost: nat, writeOk: bool)

  predicate Active(i: TickInput) {
    i.pushed > 0 || i.lost > 0
  }

  function Clamp(floor: int): int {
    if floor < 20 then 20 else if floor > 40 then 40 else floor
  }

  function Start(floor: int, encoder: int, writeOk: bool): Control {
    var f := Clamp(floor);
    Control(f, f, 0.0, 0, 0, 0, if writeOk then f else encoder)
  }

  function Transition(c: Control, target: int, writeOk: bool): Control {
    var to := if target < c.floor then c.floor else target;
    if to != c.level && writeOk then c.(level := to, encoder := to, up := 0, down := 0)
    else c.(up := 0, down := 0)
  }

  function Machine(c: Control, writeOk: bool): Control {
    if c.level == 20 then
      if c.ewma > UP_20 then
        if c.up + 1 >= UPGRADE_DWELL then Transition(c, 30, writeOk) else c.(up := c.up + 1, down := 0)
      else c.(up := 0)
    else if c.level == 30 then
      if c.ewma > UP_30 then
        if c.up + 1 >= UPGRADE_DWELL then Transition(c, 40, writeOk) else c.(up := c.up + 1, down := 0)
      else if c.ewma < DOWN_30 then
        if c.down + 1 >= DOWNGRADE_DWELL then Transition(c, 20, writeOk) else c.(down := c.down + 1, up := 0)
      else c.(up := 0, down := 0)
    else if c.level == 40 then
      if c.ewma < DOWN_40 then
        if c.down + 1 >= DOWNGRADE_DWELL then Transition(c, 30, writeOk) else c.(down := c.down + 1, up := 0)
      else c.(down := 0)
    else c
  }

  function Smoothed(c: Control, i: TickInput): real {
    ALPHA * LossRatio(i.pushed, i.lost) + (1.0 - ALPHA) * c.ewma
  }

  function Tick(c: Control, i: TickInput): Control {
    if !Active(i) then
      if c.silent + 1 >= SILENT_STALL_LIMIT then c.(ewma := 0.0, silent := 0) else c.(silent := c.silent + 1)
    else Machine(c.(silent := 0, ewma := Smoothed(c, i)), i.writeOk)
  }

  function Run(c: Control, inputs: seq<TickInput>): Control {
    if inputs == [] then c else Tick(Run(c, inputs[..|inputs| - 1]), inputs[|inputs| - 1])
  }

  // ---- What every run keeps ------------------------------------------------------

  ghost predicate Reachable(c: Control) {
    exists floor, encoder, ok, inputs :: c == Run(Start(floor, encoder, ok), inputs)
  }

  predicate Invariant(c: Control) {
    && 20 <= c.floor <= 40
    && c.floor <= c.level
    && (c.level == c.floor || (c.level in {30, 40} && c.floor in {20, 30}))
    && 0.0 <= c.ewma <= 1.0
    && 0 <= c.up < UPGRADE_DWELL
    && 0 <= c.down < DOWNGRADE_DWELL
    && (c.level == 20 ==> c.down == 0)
    && (c.level == 40 ==> c.up == 0)
    && (c.up > 0 ==> c.down == 0)
    && (c.level !in {20, 30, 40} ==> c.up == 0 && c.down == 0)
    && 0 <= c.silent < SILENT_STALL_LIMIT
  }

  lemma TickKeepsInvariant(c: Control, i: TickInput)
    requires Invariant(c)
    ensures Invariant(Tick(c, i))
    ensures Tick(c, i).floor == c.floor
    ensures c.encoder == c.level ==> Tick(c, i).encoder == Tick(c, i).level
  {
    assert 0.0 <= Smoothed(c, i) <= 1.0;
  }

  /** Every run: level at or above the floor, estimate a ratio, counters short of their dwell. */
  lemma {:induction false} RunKeepsInvariant(c: Control, inputs: seq<TickInput>)
    requires Invariant(c)
    ensures Invariant(Run(c, inputs)) && Run(c, inputs).floor == c.floor
    ensures c.encoder == c.level ==> Run(c, inputs).encoder == Run(c, inputs).level
  {
    if inputs != [] {
      RunKeepsInvariant(c, inputs[..|inputs| - 1]);
      TickKeepsInvariant(Run(c, inputs[..|inputs| - 1]), inputs[|inputs| - 1]);
    }
  }

  lemma ReachableStatesAreSane(c: Control)
    requires Reachable(c)
    ensures Invariant(c)
  {
    var floor, encoder, ok, inputs :| c == Run(Start(floor, encoder, ok), inputs);
    RunKeepsInvariant(Start(floor, encoder, ok), inputs);
  }

  /**
   * The level a caller reads is what the encoder holds, whatever writes fail later,
   * exactly if the first write succeeded or the encoder held the floor already.
   */
  lemma LevelIsEncoderIffFirstWriteTook(floor: int, encoder: int, ok: bool)
    ensures (forall inputs :: Run(Start(floor, encoder, ok), inputs).encoder == Run(Start(floor, encoder, ok), inputs).level)
            <==> ok || encoder == Clamp(floor)
  {
    var c := Start(floor, encoder, ok);
    if ok || encoder == Clamp(floor) {
      forall inputs ensures Run(c, inputs).encoder == Run(c, inputs).level {
        RunKeepsInvariant(c, inputs);
      }
    } else {
      assert Run(c, []).encoder != Run(c, []).level;
    }
  }

  /** A configured floor is left in some run exactly if it is a level the machine knows and not its highest. */
  lemma SomeRunLeavesFloorIffLevelBelowTop(floor: int, encoder: int, ok: bool)
    ensures (exists inputs :: Run(Start(floor, encoder, ok), inputs).level != Clamp(floor)) <==> Clamp(floor) in {20, 30}
  {
    var c := Start(floor, encoder, ok);
    if inputs :| Run(c, inputs).level != Clamp(floor) {
      RunKeepsInvariant(c, inputs);
    }
    if Clamp(floor) in {20, 30} {
      ThreeLossyTicks(c);
      assert Run(c, seq(3, _ => TOTAL_LOSS)).level != Clamp(floor);
    }
  }

  lemma ThreeLossyTicks(c: Control)
    requires c.level in {20, 30} && c.floor == c.level && c.ewma == 0.0 && c.up == 0 && c.down == 0
    ensures Run(c, seq(3, _ => TOTAL_LOSS)).level > c.level
  {
    LossyPrefix(c, 1);
    LossyPrefix(c, 2);
    LossyPrefix(c, 3);
  }

  // ---- Silence ------------------------------------------------------------------------

  /** Ticks without a pushed or a missing frame. */
  predicate Silent(inputs: seq<TickInput>) {
    forall i :: i in inputs ==> i.pushed == 0 && i.lost == 0
  }

  /** A silent tick changes the count of silent ticks, and the estimate when it is the thirtieth. */
  lemma SilentTickForgets(c: Control, i: TickInput)
    requires Invariant(c) && i.pushed == 0 && i.lost == 0
    ensures Tick(c, i) == c.(silent := (c.silent + 1) % 30, ewma := if c.silent + 1 == 30 then 0.0 else c.ewma)
  {
  }

  /** An active tick starts the count over, and moves the estimate a fifth of the way to the loss it saw. */
  lemma ActiveTickSmooths(c: Control, i: TickInput)
    requires i.pushed > 0 || i.lost > 0
    ensures Tick(c, i).silent == 0
    ensures Tick(c, i).ewma == 0.2 * (i.lost as real / (i.pushed + i.lost) as real) + 0.8 * c.ewma
  {
    var loss := i.lost as real / (i.pushed + i.lost) as real;
    assert LossRatio(i.pushed, i.lost) == loss;
  }

  lemma {:induction false} SilentTicksForget(c: Control, quiet: seq<TickInput>)
    requires Invariant(c) && Silent(quiet) && c.silent == 0
    ensures Run(c, quiet) == c.(silent := |quiet| % 30, ewma := if |quiet| >= 30 then 0.0 else c.ewma)
  {
    if quiet != [] {
      var n := |quiet| - 1;
      SilentTicksForget(c, quiet[..n]);
      RunKeepsInvariant(c, quiet[..n]);
      SilentTickForgets(Run(c, quiet[..n]), quiet[n]);
    }
  }

  lemma {:induction false} RunOfParts(c: Control, before: seq<TickInput>, after: seq<TickInput>)
    ensures Run(c, before + after) == Run(Run(c, before), after)
  {
    if after == [] {
      assert before + after == before;
    } else {
      var n := |after| - 1;
      RunOfParts(c, before, after[..n]);
      assert (before + after)[..|before| + n] == before + after[..n];
    }
  }

  /**
   * What silence does, in every run. After a tick that was active, or from the start,
   * any number of silent ticks leave level, dwell counters and encoder as they were; the
   * estimate is as it was up to the twenty-ninth and 0 from the thirtieth on, until the
   * next active tick.
   */
  lemma SilenceForgets(floor: int, encoder: int, ok: bool, inputs: seq<TickInput>, quiet: seq<TickInput>)
    requires inputs == [] || inputs[|inputs| - 1].pushed > 0 || inputs[|inputs| - 1].lost > 0
    requires Silent(quiet)
    ensures var c := Start(floor, encoder, ok);
            Run(c, inputs + quiet) ==
              Run(c, inputs).(silent := |quiet| % 30, ewma := if |quiet| >= 30 then 0.0 else Run(c, inputs).ewma)
  {
    var c := Start(floor, encoder, ok);
    RunOfParts(c, inputs, quiet);
    RunKeepsInvariant(c, inputs);
    if inputs != [] {
      ActiveTickSmooths(Run(c, inputs[..|inputs| - 1]), inputs[|inputs| - 1]);
    }
    SilentTicksForget(Run(c, inputs), quiet);
  }

  // ---- Dwell ------------------------------------------------------------------------

  /** What an active tick saw: the level it found and the estimate it computed. */
  datatype Observation = Observation(level: int, ewma: real)

  function Log(c: Control, inputs: seq<TickInput>): seq<Observation> {
    if inputs == [] then []
    else
      var n := |inputs| - 1;
      Logged(Log(c, inputs[..n]), Run(c, inputs[..n]), inputs[n])
  }

  predicate WantsUp(o: Observation): (r: bool)
    ensures r <==> (o.level == 20 && o.ewma > 0.08) || (o.level == 30 && o.ewma > 0.2)
  {
    (o.level == 20 && o.ewma > UP_20) || (o.level == 30 && o.ewma > UP_30)
  }

  predicate WantsDown(o: Observation): (r: bool)
    ensures r <==> (o.level == 40 && o.ewma < 0.1) || (o.level == 30 && o.ewma < 0.03)
  {
    (o.level == 40 && o.ewma < DOWN_40) || (o.level == 30 && o.ewma < DOWN_30)
  }

  /** How many observations in a row, up to the last, found this level and wanted up. */
  function UpRun(log: seq<Observation>, level: int): nat {
    if log == [] then 0
    else
      var last := log[|log| - 1];
      if last.level == level && WantsUp(last) then UpRun(log[..|log| - 1], level) + 1 else 0
  }

  function DownRun(log: seq<Observation>, level: int): nat {
    if log == [] then 0
    else
      var last := log[|log| - 1];
      if last.level == level && WantsDown(last) then DownRun(log[..|log| - 1], level) + 1 else 0
  }

  /** The run is unbroken, and as long as can be. */
  lemma {:induction false} UpRunIsLongest(log: seq<Observation>, level: int)
    ensures UpRun(log, level) <= |log|
    ensures forall k :: |log| - UpRun(log, level) <= k < |log| ==> log[k].level == level && WantsUp(log[k])
    ensures UpRun(log, level) < |log| ==>
              var o := log[|log| - UpRun(log, level) - 1]; !(o.level == level && WantsUp(o))
  {
    if log != [] {
      var n := |log| - 1;
      UpRunIsLongest(log[..n], level);
      assert forall k :: 0 <= k < n ==> log[..n][k] == log[k];
    }
  }

  lemma {:induction false} DownRunIsLongest(log: seq<Observation>, level: int)
    ensures DownRun(log, level) <= |log|
    ensures forall k :: |log| - DownRun(log, level) <= k < |log| ==> log[k].level == level && WantsDown(log[k])
    ensures DownRun(log, level) < |log| ==>
              var o := log[|log| - DownRun(log, level) - 1]; !(o.level == level && WantsDown(o))
  {
    if log != [] {
      var n := |log| - 1;
      DownRunIsLongest(log[..n], level);
      assert forall k :: 0 <= k < n ==> log[..n][k] == log[k];
    }
  }

  function Logged(log: seq<Observation>, before: Control, i: TickInput): seq<Observation> {
    if Active(i) then log + [Observation(before.level, Smoothed(before, i))] else log
  }

  /** Each counter is the length of its run, started over whenever the run reaches the dwell. */
  ghost predicate CountersCount(c: Control, log: seq<Observation>) {
    && c.up == UpRun(log, c.level) % UPGRADE_DWELL
    && c.down == DownRun(log, c.level) % DOWNGRADE_DWELL
  }

  lemma RunsOfOneMore(log: seq<Observation>, o: Observation, level: int)
    ensures UpRun(log + [o], level) == if o.level == level && WantsUp(o) then UpRun(log, level) + 1 else 0
    ensures DownRun(log + [o], level) == if o.level == level && WantsDown(o) then DownRun(log, level) + 1 else 0
  {
    assert (log + [o])[..|log|] == log;
  }

  /** The tick ends a run of whole dwells at a level from which it can move that way, and its write is accepted. */
  predicate Raises(before: Control, log: seq<Observation>, i: TickInput) {
    (i.pushed > 0 || i.lost > 0) && i.writeOk && UpRun(log, before.level) > 0 && UpRun(log, before.level) % 2 == 0
  }

  predicate Lowers(before: Control, log: seq<Observation>, i: TickInput) {
    && (i.pushed > 0 || i.lost > 0) && i.writeOk && before.level > before.floor
    && DownRun(log, before.level) > 0 && DownRun(log, before.level) % 15 == 0
  }

  /** One pass of the machine, with u and d the lengths of the two runs before it. */
  lemma MachineCounts(c: Control, u: nat, d: nat, writeOk: bool)
    requires Invariant(c) && c.up == u % UPGRADE_DWELL && c.down == d % DOWNGRADE_DWELL
    ensures var o := Observation(c.level, c.ewma);
            var u', d' := if WantsUp(o) then u + 1 else 0, if WantsDown(o) then d + 1 else 0;
            var after := Machine(c, writeOk);
            && after.level == (
                 if writeOk && u' > 0 && u' % UPGRADE_DWELL == 0 then c.level + 10
                 else if writeOk && c.level > c.floor && d' > 0 && d' % DOWNGRADE_DWELL == 0 then c.level - 10
                 else c.level)
            && after.up == (if after.level == c.level then u' % UPGRADE_DWELL else 0)
            && after.down == (if after.level == c.level then d' % DOWNGRADE_DWELL else 0)
  {
    ModSucc(u, UPGRADE_DWELL);
    ModSucc(d, DOWNGRADE_DWELL);
  }

  lemma ModSucc(n: nat, dwell: nat)
    requires dwell in {UPGRADE_DWELL, DOWNGRADE_DWELL}
    ensures (n + 1) % dwell == if n % dwell + 1 == dwell then 0 else n % dwell + 1
  {
  }

  lemma TickCounts(c: Control, log: seq<Observation>, i: TickInput)
    requires Invariant(c) && CountersCount(c, log)
    ensures CountersCount(Tick(c, i), Logged(log, c, i))
    ensures Tick(c, i).level ==
              if Raises(c, Logged(log, c, i), i) then c.level + 10
              else if Lowers(c, Logged(log, c, i), i) then c.level - 10
              else c.level
  {
    if Active(i) {
      var o := Observation(c.level, Smoothed(c, i));
      RunsOfOneMore(log, o, c.level);
      RunsOfOneMore(log, o, Tick(c, i).level);
      assert 0.0 <= Smoothed(c, i) <= 1.0;
      MachineCounts(c.(silent := 0, ewma := Smoothed(c, i)), UpRun(log, c.level), DownRun(log, c.level), i.writeOk);
    }
  }

  /**
   * In every run each counter is, exactly, the length of the current unbroken run of
   * active ticks at this level beyond its threshold, counted modulo the dwell.
   */
  lemma {:induction false} CountersAreStreaks(floor: int, encoder: int, ok: bool, inputs: seq<TickInput>)
    ensures var c := Start(floor, encoder, ok);
            Invariant(Run(c, inputs)) && CountersCount(Run(c, inputs), Log(c, inputs))
  {
    var c := Start(floor, encoder, ok);
    if inputs != [] {
      var n := |inputs| - 1;
      CountersAreStreaks(floor, encoder, ok, inputs[..n]);
      TickKeepsInvariant(Run(c, inputs[..n]), inputs[n]);
      TickCounts(Run(c, inputs[..n]), Log(c, inputs[..n]), inputs[n]);
    }
  }

  /**
   * When the level changes, exactly. In any run a tick raises the level by one step
   * if and only if it is active, its write is accepted and it ends a run of two, four
   * and so on ticks that found this level and exceeded its upper threshold; it
   * lowers the level if and only if the same holds of fifteens below the lower
   * threshold, above the floor. No other tick changes it.
   */
  lemma LevelChangesExactlyAtDwell(floor: int, encoder: int, ok: bool, inputs: seq<TickInput>, i: TickInput)
    ensures var c := Start(floor, encoder, ok);
            var before, log := Run(c, inputs), Log(c, inputs + [i]);
            && Run(c, inputs + [i]).level ==
                 (if Raises(before, log, i) then before.level + 10
                  else if Lowers(before, log, i) then before.level - 10
                  else before.level)
            && !(Raises(before, log, i) && Lowers(before, log, i))
  {
    var c := Start(floor, encoder, ok);
    assert (inputs + [i])[..|inputs|] == inputs;
    CountersAreStreaks(floor, encoder, ok, inputs);
    TickCounts(Run(c, inputs), Log(c, inputs), i);
    if Active(i) {
      RunsOfOneMore(Log(c, inputs), Observation(Run(c, inputs).level, Smoothed(Run(c, inputs), i)), Run(c, inputs).level);
    }
  }

  // ---- Recovery ----------------------------------------------------------------------

  function Decay(n: nat): (r: real)
    ensures 0.0 < r <= 1.0
  {
    if n == 0 then 1.0 else (1.0 - ALPHA) * Decay(n - 1)
  }

  lemma {:induction false} DecayFalls(m: nat, n: nat)
    requires m <= n
    ensures Decay(n) <= Decay(m)
  {
    if m < n {
      DecayFalls(m, n - 1);
    }
  }

  lemma DecayValues()
    ensures 0.107 < Decay(10) && Decay(11) < DOWN_40 && Decay(16) < DOWN_30 && Decay(14) < 0.044
  {
    assert Decay(2) == 0.64;
    assert Decay(4) == 0.4096;
    assert Decay(6) == 0.262144;
    assert Decay(8) == 0.16777216;
    assert Decay(10) == 0.1073741824;
    assert Decay(11) == 0.08589934592;
    assert Decay(13) == 0.0549755813888;
    assert Decay(14) == 0.04398046511104;
    assert Decay(16) < 0.0282;
  }

  function ActiveCount(inputs: seq<TickInput>): nat {
    if inputs == [] then 0
    else ActiveCount(inputs[..|inputs| - 1]) + if Active(inputs[|inputs| - 1]) then 1 else 0
  }

  predicate LossFree(inputs: seq<TickInput>) {
    forall i :: i in inputs ==> i.lost == 0 && i.writeOk
  }

  /** Where the controller can be after n loss-free active ticks. */
  ghost predicate Recovering(c: Control, n: nat) {
    && Invariant(c)
    && c.ewma <= Decay(n)
    && (c.level == 40 && c.floor < 40 && n > 10 ==> c.down >= n - 10)
    && (c.level == 30 && c.floor < 30 && n > 25 ==> c.down >= n - 25)
  }

  /** The estimate after a loss-free active tick, against the thresholds it has fallen below by then. */
  lemma QuietEstimateFalls(c: Control, n: nat, i: TickInput)
    requires 0.0 <= c.ewma <= Decay(n) && i.lost == 0
    ensures Smoothed(c, i) == 0.8 * c.ewma <= Decay(n + 1)
    ensures n >= 10 ==> Smoothed(c, i) < DOWN_40
    ensures n >= 15 ==> Smoothed(c, i) < DOWN_30
  {
    DecayValues();
    if n >= 10 {
      DecayFalls(11, n + 1);
    }
    if n >= 15 {
      DecayFalls(16, n + 1);
    }
  }

  lemma QuietMachineRecovers(c: Control, n: nat, e: real)
    requires Recovering(c, n) && 0.0 <= e <= 1.0 && e <= Decay(n + 1)
    requires (n >= 10 ==> e < DOWN_40) && (n >= 15 ==> e < DOWN_30)
    ensures var s := Machine(c.(silent := 0, ewma := e), true);
            Invariant(s) ==> Recovering(s, n + 1)
  {
  }

  lemma QuietTickRecovers(c: Control, n: nat, i: TickInput)
    requires Recovering(c, n) && i.lost == 0 && i.writeOk
    ensures Recovering(Tick(c, i), if Active(i) then n + 1 else n)
  {
    TickKeepsInvariant(c, i);
    if Active(i) {
      QuietEstimateFalls(c, n, i);
      QuietMachineRecovers(c, n, Smoothed(c, i));
    }
  }

  lemma {:induction false} QuietRunRecovers(c: Control, inputs: seq<TickInput>)
    requires Invariant(c) && LossFree(inputs)
    ensures Recovering(Run(c, inputs), ActiveCount(inputs)) && Run(c, inputs).floor == c.floor
  {
    if inputs != [] {
      var n := |inputs| - 1;
      QuietRunRecovers(c, inputs[..n]);
      QuietTickRecovers(Run(c, inputs[..n]), ActiveCount(inputs[..n]), inputs[n]);
      RunKeepsInvariant(c, inputs);
    }
  }

  /**
   * From every reachable state, forty loss-free active ticks, with any silent
   * ticks among them, bring the level down to the floor; and it is there after
   * any larger number too, so it stays while loss stays zero.
   */
  lemma FortyQuietTicksReachFloor(c: Control, inputs: seq<TickInput>)
    requires Reachable(c) && LossFree(inputs) && ActiveCount(inputs) >= 40
    ensures Run(c, inputs).level == c.floor
  {
    ReachableStatesAreSane(c);
    QuietRunRecovers(c, inputs);
  }

  const TOTAL_LOSS := TickInput(0, 1, true)
  const NO_LOSS := TickInput(1, 0, true)

  lemma {:induction false} TotalLossClimbs(encoder: int, n: nat)
    requires n >= 4
    ensures var c := Run(Start(20, encoder, true), seq(n, _ => TOTAL_LOSS));
            c.level == 40 && c.floor == 20 && c.up == 0 && c.down == 0 && c.ewma == 1.0 - Decay(n)
  {
    var c := Start(20, encoder, true);
    if n == 4 {
      LossyPrefix(c, 1);
      LossyPrefix(c, 2);
      LossyPrefix(c, 3);
      LossyPrefix(c, 4);
      assert Run(c, seq(0, _ => TOTAL_LOSS)) == c;
      assert Decay(2) == 0.64;
      assert Decay(4) == 0.4096;
    } else {
      TotalLossClimbs(encoder, n - 1);
      LossyPrefix(c, n);
      DecayFalls(4, n - 1);
      assert Decay(4) == 0.4096 by { assert Decay(2) == 0.64; }
    }
  }

  lemma LossyPrefix(c: Control, n: nat)
    requires n > 0
    ensures Run(c, seq(n, _ => TOTAL_LOSS)) == Tick(Run(c, seq(n - 1, _ => TOTAL_LOSS)), TOTAL_LOSS)
  {
    assert seq(n, _ => TOTAL_LOSS)[..n - 1] == seq(n - 1, _ => TOTAL_LOSS);
  }

  lemma QuietPrefix(c: Control, n: nat)
    requires n > 0
    ensures Run(c, seq(n, _ => NO_LOSS)) == Tick(Run(c, seq(n - 1, _ => NO_LOSS)), NO_LOSS)
  {
    assert seq(n, _ => NO_LOSS)[..n - 1] == seq(n - 1, _ => NO_LOSS);
  }

  /** A controller that found level 40 under a high estimate, n loss-free ticks on. */
  ghost predicate LingeringCounters(c: Control, n: nat) {
    && c.up == 0 && c.floor == 20
    && (n <= 10 ==> c.level == 40 && c.down == 0)
    && (10 < n < 25 ==> c.level == 40 && c.down == n - 10)
    && (n >= 25 ==> c.level == 30 && c.down == n - 25)
  }

  ghost predicate Lingering(c: Control, n: nat, e: real) {
    c.ewma == Faded(e, n) && LingeringCounters(c, n)
  }

  lemma LingeringMachine(c: Control, n: nat)
    requires LingeringCounters(c, n) && n < 39
    requires (n < 10 ==> DOWN_40 <= c.ewma) && (n >= 10 ==> c.ewma < DOWN_40) && (n >= 15 ==> c.ewma < DOWN_30)
    ensures LingeringCounters(Machine(c, true), n + 1) && Machine(c, true).ewma == c.ewma
  {
  }

  /** An estimate e after n loss-free ticks. */
  function Faded(e: real, n: nat): real {
    if n == 0 then e else 0.8 * Faded(e, n - 1)
  }

  lemma {:induction false} FadedBounds(e: real, n: nat)
    requires 0.95 <= e <= 1.0
    ensures 0.95 * Decay(n) <= Faded(e, n) <= Decay(n)
  {
    if n > 0 {
      FadedBounds(e, n - 1);
    }
  }

  lemma LingeringEstimate(n: nat, e: real)
    requires 0.95 <= e <= 1.0
    ensures n <= 10 ==> DOWN_40 <= Faded(e, n)
    ensures n >= 11 ==> Faded(e, n) < DOWN_40
    ensures n >= 16 ==> Faded(e, n) < DOWN_30
  {
    DecayValues();
    FadedBounds(e, n);
    if n <= 10 {
      DecayFalls(n, 10);
    } else {
      DecayFalls(11, n);
      if n >= 16 {
        DecayFalls(16, n);
      }
    }
  }

  lemma LingeringTick(c: Control, n: nat, e: real)
    requires Lingering(c, n, e) && 0.95 <= e <= 1.0 && n < 39
    ensures Lingering(Tick(c, NO_LOSS), n + 1, e)
  {
    LingeringEstimate(n + 1, e);
    var x := Smoothed(c, NO_LOSS);
    assert x == 0.8 * c.ewma;
    LingeringMachine(c.(silent := 0, ewma := x), n);
  }

  lemma {:induction false} HighStateLingers(c: Control, n: nat)
    requires Lingering(c, 0, c.ewma) && 0.95 <= c.ewma <= 1.0 && n <= 39
    ensures Lingering(Run(c, seq(n, _ => NO_LOSS)), n, c.ewma)
  {
    if n > 0 {
      HighStateLingers(c, n - 1);
      QuietPrefix(c, n);
      LingeringTick(Run(c, seq(n - 1, _ => NO_LOSS)), n - 1, c.ewma);
    }
  }

  /** Forty is exact: some reachable state is still above its floor after thirty-nine. */
  lemma ThirtyNineAreNotEnough() returns (c: Control, inputs: seq<TickInput>)
    ensures Reachable(c) && LossFree(inputs) && ActiveCount(inputs) == 39
    ensures Run(c, inputs).level > c.floor
  {
    c := Run(Start(20, 0, true), seq(14, _ => TOTAL_LOSS));
    TotalLossClimbs(0, 14);
    DecayValues();
    inputs := seq(39, _ => NO_LOSS);
    HighStateLingers(c, 39);
    AllActive(39);
  }

  lemma {:induction false} AllActive(n: nat)
    ensures ActiveCount(seq(n, _ => NO_LOSS)) == n
  {
    if n > 0 {
      AllActive(n - 1);
      assert seq(n, _ => NO_LOSS)[..n - 1] == seq(n - 1, _ => NO_LOSS);
    }
  }
}
