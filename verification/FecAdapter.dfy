/** The adapter object around the controller: counters remembered per port, and the encoder it drives. */
module FecAdapter {
  import opened FecController
  import opened Counters

  /** The encoder knob. accepts stands for whether the device takes this write. */
  class Encoder {
    var percent: int

    method SetPacketLossPerc(level: int, accepts: bool) returns (ok: bool)
      modifies this
      ensures ok == accepts
      ensures percent == if accepts then level else old(percent)
    {
      if accepts {
        percent := level;
      }
      return accepts;
    }
  }

  class Adapter {
    const encoder: Encoder
    const floor: int
    var currentLevel: int
    var lossEwma: real
    var upgradeTicks: int
    var downgradeTicks: int
    var silentTicks: int
    var writeErrors: int
    var prev: seq<PortState>

    ghost function State(): Control
      reads this, encoder
    {
      Control(floor, currentLevel, lossEwma, upgradeTicks, downgradeTicks, silentTicks, encoder.percent)
    }

    constructor (ports: nat, encoder: Encoder, floor: int, accepts: bool)
      modifies encoder
      ensures this.encoder == encoder
      ensures State() == Start(floor, old(encoder.percent), accepts)
      ensures this.floor == currentLevel == if floor < 20 then 20 else if floor > 40 then 40 else floor
      ensures lossEwma == 0.0 && upgradeTicks == 0 && downgradeTicks == 0 && silentTicks == 0
      ensures encoder.percent == if accepts then currentLevel else old(encoder.percent)
      ensures prev == seq(ports, _ => FRESH) && writeErrors == if accepts then 0 else 1
    {
      var clamped := floor;
      if clamped < 20 {
        clamped := 20;
      }
      if clamped > 40 {
        clamped := 40;
      }
      this.encoder, this.floor, currentLevel := encoder, clamped, clamped;
      lossEwma, upgradeTicks, downgradeTicks, silentTicks := 0.0, 0, 0, 0;
      writeErrors := 0;
      prev := seq(ports, _ => FRESH);
      new;
      var ok := encoder.SetPacketLossPerc(clamped, accepts);
      if !ok {
        writeErrors := writeErrors + 1;
      }
    }

    /** The weighted growth of one port's gap-run buckets. */
    static method MissingFrames(before: Buckets, now: Buckets) returns (lost: nat)
      ensures lost == WeightedGrowth(before, now, 6)
      ensures lost == Growth(before[0], now[0]) + 3 * Growth(before[1], now[1]) + 8 * Growth(before[2], now[2])
                    + 15 * Growth(before[3], now[3]) + 35 * Growth(before[4], now[4]) + 75 * Growth(before[5], now[5])
    {
      lost := 0;
      for b := 0 to 6
        invariant lost == WeightedGrowth(before, now, b)
      {
        var d := now[b] - before[b];
        if d < 0 {
          d := 0;
        }
        lost := lost + d * MIDPOINTS[b];
      }
      GapsAreWeighted(before, now);
    }

    /** Deltas of every readable port against the last tick, remembering the new counters as it goes. */
    method Collect(samples: seq<PortSample>) returns (pushed: nat, lost: nat, anyActivity: bool)
      modifies this`prev
      ensures var sized := Sized(old(prev), |samples|);
              && prev == Remembered(sized, samples)
              && pushed == TotalPushed(sized, samples) && lost == TotalLost(sized, samples)
      ensures anyActivity <==> pushed > 0 || lost > 0
    {
      pushed, lost, anyActivity := 0, 0, false;
      prev := Sized(prev, |samples|);
      ghost var sized := prev;
      for i := 0 to |samples|
        invariant |prev| == |sized|
        invariant forall k :: 0 <= k < i ==> prev[k] == After(sized[k], samples[k])
        invariant forall k :: i <= k < |sized| ==> prev[k] == sized[k]
        invariant pushed == TotalPushed(sized, samples[..i]) && lost == TotalLost(sized, samples[..i])
        invariant anyActivity <==> pushed > 0 || lost > 0
      {
        assert samples[..i + 1][..i] == samples[..i];
        if !samples[i].Enabled? {
          continue;
        }
        var now := Current(samples[i]);
        var dPushed := now.rxPushed - prev[i].rxPushed;
        if dPushed < 0 {
          dPushed := 0;
        }
        var dMissing := MissingFrames(prev[i].buckets, now.buckets);
        if dPushed > 0 || dMissing > 0 {
          anyActivity := true;
        }
        pushed, lost := pushed + dPushed, lost + dMissing;
        prev := prev[i := now];
      }
      assert samples[..|samples|] == samples;
    }

    method Tick(samples: seq<PortSample>, accepts: bool)
      modifies this, encoder
      ensures var sized := Sized(old(prev), |samples|);
              && prev == Remembered(sized, samples)
              && State() == FecController.Tick(old(State()),
                                               TickInput(TotalPushed(sized, samples), TotalLost(sized, samples), accepts))
      ensures var sized := Sized(old(prev), |samples|);
              TotalPushed(sized, samples) == 0 && TotalLost(sized, samples) == 0 ==>
                && currentLevel == old(currentLevel) && encoder.percent == old(encoder.percent)
                && upgradeTicks == old(upgradeTicks) && downgradeTicks == old(downgradeTicks)
                && (old(silentTicks) + 1 < 30 ==> lossEwma == old(lossEwma) && silentTicks == old(silentTicks) + 1)
                && (old(silentTicks) + 1 >= 30 ==> lossEwma == 0.0 && silentTicks == 0)
    {
      var pushed, lost, anyActivity := Collect(samples);
      if !anyActivity {
        silentTicks := silentTicks + 1;
        if silentTicks >= SILENT_STALL_LIMIT {
          lossEwma := 0.0;
          silentTicks := 0;
        }
        return;
      }
      silentTicks := 0;
      lossEwma := ALPHA * LossRatio(pushed, lost) + (1.0 - ALPHA) * lossEwma;
      ApplyStateMachine(accepts);
    }

    method ApplyStateMachine(accepts: bool)
      modifies this, encoder
      ensures State() == Machine(old(State()), accepts) && prev == old(prev)
    {
      if currentLevel == 20 {
        if lossEwma > UP_20 {
          upgradeTicks := upgradeTicks + 1;
          downgradeTicks := 0;
          if upgradeTicks >= UPGRADE_DWELL {
            TransitionTo(30, accepts);
          }
        } else {
          upgradeTicks := 0;
        }
      } else if currentLevel == 30 {
        if lossEwma > UP_30 {
          upgradeTicks := upgradeTicks + 1;
          downgradeTicks := 0;
          if upgradeTicks >= UPGRADE_DWELL {
            TransitionTo(40, accepts);
          }
        } else if lossEwma < DOWN_30 {
          downgradeTicks := downgradeTicks + 1;
          upgradeTicks := 0;
          if downgradeTicks >= DOWNGRADE_DWELL {
            TransitionTo(20, accepts);
          }
        } else {
          upgradeTicks := 0;
          downgradeTicks := 0;
        }
      } else if currentLevel == 40 {
        if lossEwma < DOWN_40 {
          downgradeTicks := downgradeTicks + 1;
          upgradeTicks := 0;
          if downgradeTicks >= DOWNGRADE_DWELL {
            TransitionTo(30, accepts);
          }
        } else {
          downgradeTicks := 0;
        }
      }
    }

    method TransitionTo(target: int, accepts: bool)
      modifies this, encoder
      ensures State() == Transition(old(State()), target, accepts) && prev == old(prev)
    {
      var to := target;
      if to < floor {
        to := floor;
      }
      upgradeTicks := 0;
      downgradeTicks := 0;
      if to == currentLevel {
        return;
      }
      var ok := encoder.SetPacketLossPerc(to, accepts);
      if !ok {
        writeErrors := writeErrors + 1;
        return;
      }
      currentLevel := to;
    }
  }
}
