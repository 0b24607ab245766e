/**
 * The service object, and how one of its calls relates to the small steps.
 *
 * Selected is a whole selection at once. The method computes it, and a thread
 * of the machine that nobody interrupts reaches it step by step.
 */
module TalkGroupService {
  import opened Outcomes
  import opened TalkGroups

  // ---- A selection at once -------------------------------------------------------

  /** s with everything from i on off, except at target. */
  function OffFrom(s: seq<bool>, target: nat, i: nat): (r: seq<bool>)
    ensures |r| == |s|
  {
    seq(|s|, j requires 0 <= j < |s| => if j >= i && j != target then false else s[j])
  }

  /** s with everything below i off, except at target. */
  function OffBelow(s: seq<bool>, target: nat, i: nat): (r: seq<bool>)
    ensures |r| == |s|
  {
    seq(|s|, j requires 0 <= j < |s| => if j < i && j != target then false else s[j])
  }

  lemma OffBelowStep(s: seq<bool>, target: nat, i: nat)
    requires i < |s|
    ensures OffBelow(s, target, i + 1) == if i == target then OffBelow(s, target, i) else OffBelow(s, target, i)[i := false]
    ensures OffBelow(s, target, i)[i] == s[i]
  {
  }

  lemma OffBelowEnds(s: seq<bool>, target: nat)
    ensures OffBelow(s, target, 0) == s
    ensures OffBelow(s, target, |s|) == OffFrom(s, target, 0)
  {
  }

  /** Some port from i on, beside target, has a flag on. */
  predicate AnyOnFrom(send: seq<bool>, receive: seq<bool>, target: nat, i: nat) {
    exists j :: 0 <= j < |send| && On(send, receive, j) && j >= i && j != target
  }

  /** The ports from i on, beside target, that receive. */
  function ReceivingFrom(receive: seq<bool>, target: nat, i: nat): seq<nat>
    requires i <= |receive|
    decreases |receive| - i
  {
    if i == |receive| then []
    else (if i != target && receive[i] then [i] else []) + ReceivingFrom(receive, target, i + 1)
  }

  predicate AnyOnBelow(send: seq<bool>, receive: seq<bool>, target: nat, i: nat)
    requires i <= |send| == |receive|
  {
    i > 0 && (AnyOnBelow(send, receive, target, i - 1) || (i - 1 != target && (send[i - 1] || receive[i - 1])))
  }

  function ReceivingBelow(receive: seq<bool>, target: nat, i: nat): seq<nat>
    requires i <= |receive|
  {
    if i == 0 then []
    else ReceivingBelow(receive, target, i - 1) + if i - 1 != target && receive[i - 1] then [i - 1] else []
  }

  lemma {:induction false} AnyOnBelowFinds(send: seq<bool>, receive: seq<bool>, target: nat, i: nat)
    requires i <= |send| == |receive|
    ensures AnyOnBelow(send, receive, target, i) <==> exists j :: 0 <= j < i && On(send, receive, j) && j != target
  {
    if i > 0 {
      AnyOnBelowFinds(send, receive, target, i - 1);
      assert On(send, receive, i - 1) == (send[i - 1] || receive[i - 1]);
    }
  }

  lemma AnyOnEitherWay(send: seq<bool>, receive: seq<bool>, target: nat)
    requires |send| == |receive|
    ensures AnyOnBelow(send, receive, target, |send|) == AnyOnFrom(send, receive, target, 0)
  {
    AnyOnBelowFinds(send, receive, target, |send|);
  }

  lemma {:induction false} ReceivingBelowAndFrom(receive: seq<bool>, target: nat, i: nat)
    requires i <= |receive|
    ensures ReceivingBelow(receive, target, i) + ReceivingFrom(receive, target, i) == ReceivingFrom(receive, target, 0)
    ensures i == |receive| ==> ReceivingBelow(receive, target, i) == ReceivingFrom(receive, target, 0)
  {
    if i > 0 {
      ReceivingBelowAndFrom(receive, target, i - 1);
      var before, own := ReceivingBelow(receive, target, i - 1), if i - 1 != target && receive[i - 1] then [i - 1] else [];
      var after := ReceivingFrom(receive, target, i);
      assert ReceivingFrom(receive, target, i - 1) == own + after;
      assert before + (own + after) == (before + own) + after;
    }
    if i == |receive| {
      assert ReceivingBelow(receive, target, i) + [] == ReceivingBelow(receive, target, i);
    }
  }

  lemma {:induction false} ReceivingFromFinds(receive: seq<bool>, target: nat, i: nat, j: nat)
    requires i <= |receive|
    ensures j in ReceivingFrom(receive, target, i) <==> i <= j < |receive| && j != target && receive[j]
    decreases |receive| - i
  {
    if i < |receive| {
      var rest := ReceivingFrom(receive, target, i + 1);
      ReceivingFromFinds(receive, target, i + 1, j);
      assert ReceivingFrom(receive, target, i) == if i != target && receive[i] then [i] + rest else rest;
    }
  }

  lemma ReceivingFromInRange(receive: seq<bool>, target: nat, i: nat)
    requires i <= |receive|
    ensures InRange(ReceivingFrom(receive, target, i), |receive|)
  {
    var r := ReceivingFrom(receive, target, i);
    forall k | 0 <= k < |r| ensures r[k] < |receive| {
      ReceivingFromFinds(receive, target, i, r[k]);
    }
  }

  /** Streams after the ports in rx have been brought in line with their flags. */
  function Realigned(installed: seq<bool>, receive: seq<bool>, running: seq<bool>, rx: seq<nat>): (r: seq<bool>)
    requires |installed| == |receive| == |running| && InRange(rx, |receive|)
    ensures |r| == |running|
    decreases |rx|
  {
    if rx == [] then running
    else Realigned(installed, receive, if installed[rx[0]] then running[rx[0] := receive[rx[0]]] else running, rx[1..])
  }

  /** Ports whose receive flag a selection of target changes, in the order it finds them. */
  function Flipped(receive: seq<bool>, target: nat): (r: seq<nat>)
    requires target < |receive|
    ensures InRange(r, |receive|)
  {
    ReceivingFromInRange(receive, target, 0);
    ReceivingFrom(receive, target, 0) + if receive[target] then [] else [target]
  }

  predicate SelectionChanges(send: seq<bool>, receive: seq<bool>, target: nat)
    requires target < |send| && target < |receive|
  {
    AnyOnFrom(send, receive, target, 0) || !send[target] || !receive[target]
  }

  function Selected(setup: Setup, m: Machine, channel: int): Machine
    requires Shaped(setup, m) && Target(setup, channel).Some?
  {
    var target := Target(setup, channel).value;
    var receive := OffFrom(m.receive, target, 0)[target := true];
    m.(send := OffFrom(m.send, target, 0)[target := true],
       receive := receive,
       active := channel,
       log := if SelectionChanges(m.send, m.receive, target) || m.active != channel
              then m.log + [Event(channel, m.active)] else m.log,
       running := Realigned(setup.installed, receive, m.running, Flipped(m.receive, target)))
  }

  /** Afterwards both directions are on at the target alone, and streams that were in step still are. */
  lemma SelectedIsExclusive(setup: Setup, m: Machine, channel: int)
    requires Shaped(setup, m) && Target(setup, channel).Some?
    ensures var s := Selected(setup, m, channel);
            && OnlyOn(s.send, s.receive, Target(setup, channel).value) && s.active == channel
            && Shaped(setup, s)
            && ((forall i: nat :: i < |setup.ports| ==> InStep(setup, m, i)) ==>
                  forall i: nat :: i < |setup.ports| ==> InStep(setup, s, i))
  {
    var s := Selected(setup, m, channel);
    var target := Target(setup, channel).value;
    var rx := Flipped(m.receive, target);
    if forall i: nat :: i < |setup.ports| ==> InStep(setup, m, i) {
      forall i: nat | i < |setup.ports| ensures InStep(setup, s, i) {
        assert InStep(setup, m, i);
        ReceivingFromFinds(m.receive, target, 0, i);
        RealignedAt(setup.installed, s.receive, m.running, rx, i);
      }
    }
  }

  /**
   * A selection, flag by flag: it turns both directions on at the first port of the
   * channel's number and off everywhere else, brings exactly the streams whose receive
   * flag it changed in line, and reports an event if a flag or the channel changed.
   */
  lemma SelectedFlagByFlag(setup: Setup, m: Machine, channel: int)
    requires Shaped(setup, m) && Target(setup, channel).Some?
    ensures var s, target := Selected(setup, m, channel), Target(setup, channel).value;
            && 1 <= channel <= 32 && setup.ports[target] == 38801 + 2 * (channel - 1)
            && (forall j :: 0 <= j < target ==> setup.ports[j] != 38801 + 2 * (channel - 1))
            && (forall i :: 0 <= i < |setup.ports| ==>
                  && s.send[i] == (i == target) && s.receive[i] == (i == target)
                  && s.running[i] == if setup.installed[i] && s.receive[i] != m.receive[i] then s.receive[i] else m.running[i])
            && s.active == channel
            && s.log == (if s.send != m.send || s.receive != m.receive || m.active != channel
                         then m.log + [Event(channel, m.active)] else m.log)
  {
    var s, target := Selected(setup, m, channel), Target(setup, channel).value;
    TargetIsFirstPort(setup, channel);
    forall i: nat | i < |setup.ports|
      ensures s.running[i] == if setup.installed[i] && s.receive[i] != m.receive[i] then s.receive[i] else m.running[i]
    {
      ReceivingFromFinds(m.receive, target, 0, i);
      RealignedAt(setup.installed, s.receive, m.running, Flipped(m.receive, target), i);
    }
    ChangesAreSeen(setup, m, channel);
  }

  lemma ChangesAreSeen(setup: Setup, m: Machine, channel: int)
    requires Shaped(setup, m) && Target(setup, channel).Some?
    ensures var s := Selected(setup, m, channel);
            SelectionChanges(m.send, m.receive, Target(setup, channel).value) <==> s.send != m.send || s.receive != m.receive
  {
    var s, target := Selected(setup, m, channel), Target(setup, channel).value;
    if j :| 0 <= j < |m.send| && On(m.send, m.receive, j) && j >= 0 && j != target {
      assert !s.send[j] && !s.receive[j];
    }
    if !SelectionChanges(m.send, m.receive, target) {
      forall j | 0 <= j < |m.send| ensures s.send[j] == m.send[j] && s.receive[j] == m.receive[j] {
        assert On(m.send, m.receive, j) ==> j == target;
      }
    }
  }

  /** A channel cannot be selected exactly if it is none of 1 to 32 or no port has its number. */
  lemma NotProvisioned(setup: Setup, channel: int)
    ensures Target(setup, channel).None? <==> !(1 <= channel <= 32) || 38801 + 2 * (channel - 1) !in setup.ports
  {
    TargetIsFirstPort(setup, channel);
  }

  /** One selection after another, channels that are not provisioned skipped. */
  function SelectedAll(setup: Setup, m: Machine, channels: seq<int>): (r: Machine)
    requires Shaped(setup, m)
    ensures Shaped(setup, r)
  {
    if channels == [] then m
    else
      var before, last := SelectedAll(setup, m, channels[..|channels| - 1]), channels[|channels| - 1];
      if Target(setup, last).None? then before
      else
        SelectedIsExclusive(setup, before, last);
        Selected(setup, before, last)
  }

  /** The last provisioned channel stands, alone; if none is provisioned nothing changes. */
  lemma {:induction false} LastSelectionStands(setup: Setup, m: Machine, channels: seq<int>, k: int)
    requires Shaped(setup, m) && -1 <= k < |channels|
    requires k >= 0 ==> Target(setup, channels[k]).Some?
    requires forall l :: k < l < |channels| ==> Target(setup, channels[l]).None?
    ensures var r := SelectedAll(setup, m, channels);
            if k < 0 then r == m
            else r.active == channels[k] && OnlyOn(r.send, r.receive, Target(setup, channels[k]).value)
    decreases |channels|
  {
    if channels != [] {
      var n := |channels| - 1;
      if k == n {
        SelectedIsExclusive(setup, SelectedAll(setup, m, channels[..n]), channels[n]);
      } else {
        LastSelectionStands(setup, m, channels[..n], k);
      }
    }
  }

  lemma {:induction false} RealignedAt(installed: seq<bool>, receive: seq<bool>, running: seq<bool>, rx: seq<nat>, i: nat)
    requires |installed| == |receive| == |running| && InRange(rx, |receive|) && i < |running|
    ensures Realigned(installed, receive, running, rx)[i]
            == if i in rx && installed[i] then receive[i] else running[i]
    decreases |rx|
  {
    if rx != [] {
      var next := if installed[rx[0]] then running[rx[0] := receive[rx[0]]] else running;
      RealignedAt(installed, receive, next, rx[1..], i);
    }
  }

  // ---- A selection step by step ----------------------------------------------------

  /** One call for a selection and then k steps of the caller. */
  function Alone(channel: int, k: nat): seq<Action> {
    if k == 0 then [Select(0, channel)] else Alone(channel, k - 1) + [Advance(0)]
  }

  /** start, left to one thread selecting channel, comes to m. */
  ghost predicate Follows(setup: Setup, start: Machine, channel: int, m: Machine) {
    Shaped(setup, start) && exists k: nat :: m == Exec(setup, start, Alone(channel, k))
  }

  lemma FollowsOn(setup: Setup, start: Machine, channel: int, m: Machine)
    requires Follows(setup, start, channel, m) && |start.threads| > 0
    ensures Shaped(setup, m) && |m.threads| > 0 && Follows(setup, start, channel, Advanced(setup, m, 0))
  {
    var k: nat :| m == Exec(setup, start, Alone(channel, k));
    var longer := Alone(channel, k + 1);
    assert longer[..|longer| - 1] == Alone(channel, k);
  }

  lemma FollowsFrom(setup: Setup, start: Machine, channel: int)
    requires Shaped(setup, start)
    ensures Follows(setup, start, channel, Apply(setup, start, Select(0, channel)))
  {
    var one := Alone(channel, 0);
    assert one[..|one| - 1] == [];
    assert Exec(setup, start, []) == start;
    assert Exec(setup, start, one) == Apply(setup, start, one[|one| - 1]);
  }

  /** m with its one thread somewhere. */
  function With(m: Machine, th: Thread, lock: Option<nat>): Machine {
    m.(threads := [th], lock := lock)
  }

  lemma FollowsTo(setup: Setup, start: Machine, channel: int, before: Machine, after: Machine)
    requires |start.threads| > 0 && Follows(setup, start, channel, before)
    requires Shaped(setup, before) && |before.threads| > 0 ==> Advanced(setup, before, 0) == after
    ensures Follows(setup, start, channel, after)
  {
    FollowsOn(setup, start, channel, before);
  }

  lemma SkipStep(setup: Setup, channel: int, m: Machine, target: nat, changed: bool, rx: seq<nat>)
    requires target < |setup.ports|
    requires Shaped(setup, With(m, Disabling(channel, target, target, false, changed, rx), Some(0)))
    ensures Advanced(setup, With(m, Disabling(channel, target, target, false, changed, rx), Some(0)), 0)
            == With(m, Disabling(channel, target, target + 1, false, changed, rx), Some(0))
  {
  }

  lemma SendOffStep(setup: Setup, channel: int, m: Machine, target: nat, i: nat, changed: bool, rx: seq<nat>)
    requires |m.send| == |setup.ports| && i < |setup.ports| && i != target
    requires Shaped(setup, With(m, Disabling(channel, target, i, false, changed, rx), Some(0)))
    ensures Advanced(setup, With(m, Disabling(channel, target, i, false, changed, rx), Some(0)), 0)
            == With(m.(send := m.send[i := false]), Disabling(channel, target, i, true, changed || m.send[i], rx), Some(0))
  {
  }

  lemma ReceiveOffStep(setup: Setup, channel: int, m: Machine, target: nat, i: nat, changed: bool, rx: seq<nat>)
    requires |m.receive| == |setup.ports| && i < |setup.ports| && i != target
    requires Shaped(setup, With(m, Disabling(channel, target, i, true, changed, rx), Some(0)))
    ensures Advanced(setup, With(m, Disabling(channel, target, i, true, changed, rx), Some(0)), 0)
            == With(m.(receive := m.receive[i := false]),
                    Disabling(channel, target, i + 1, false, changed || m.receive[i], if m.receive[i] then rx + [i] else rx), Some(0))
  {
  }

  lemma LoneSkip(setup: Setup, start: Machine, channel: int, m: Machine, target: nat, changed: bool, rx: seq<nat>)
    requires |start.threads| == 1
    requires Follows(setup, start, channel, With(m, Disabling(channel, target, target, false, changed, rx), Some(0)))
    requires target < |setup.ports|
    ensures Follows(setup, start, channel, With(m, Disabling(channel, target, target + 1, false, changed, rx), Some(0)))
  {
    var before := With(m, Disabling(channel, target, target, false, changed, rx), Some(0));
    if Shaped(setup, before) {
      SkipStep(setup, channel, m, target, changed, rx);
    }
    FollowsTo(setup, start, channel, before, With(m, Disabling(channel, target, target + 1, false, changed, rx), Some(0)));
  }

  lemma LoneSendOff(setup: Setup, start: Machine, channel: int, m: Machine, target: nat, i: nat, changed: bool, rx: seq<nat>)
    requires |start.threads| == 1 && |m.send| == |setup.ports| && i < |setup.ports| && i != target
    requires Follows(setup, start, channel, With(m, Disabling(channel, target, i, false, changed, rx), Some(0)))
    ensures Follows(setup, start, channel,
                    With(m.(send := m.send[i := false]),
                         Disabling(channel, target, i, true, changed || m.send[i], rx), Some(0)))
  {
    var before := With(m, Disabling(channel, target, i, false, changed, rx), Some(0));
    if Shaped(setup, before) {
      SendOffStep(setup, channel, m, target, i, changed, rx);
    }
    FollowsTo(setup, start, channel, before,
              With(m.(send := m.send[i := false]), Disabling(channel, target, i, true, changed || m.send[i], rx), Some(0)));
  }

  lemma LoneReceiveOff(setup: Setup, start: Machine, channel: int, m: Machine, target: nat, i: nat, changed: bool, rx: seq<nat>)
    requires |start.threads| == 1 && |m.receive| == |setup.ports| && i < |setup.ports| && i != target
    requires Follows(setup, start, channel, With(m, Disabling(channel, target, i, true, changed, rx), Some(0)))
    ensures Follows(setup, start, channel,
                    With(m.(receive := m.receive[i := false]),
                         Disabling(channel, target, i + 1, false, changed || m.receive[i],
                                   if m.receive[i] then rx + [i] else rx), Some(0)))
  {
    var before := With(m, Disabling(channel, target, i, true, changed, rx), Some(0));
    if Shaped(setup, before) {
      ReceiveOffStep(setup, channel, m, target, i, changed, rx);
    }
    FollowsTo(setup, start, channel, before,
              With(m.(receive := m.receive[i := false]),
                   Disabling(channel, target, i + 1, false, changed || m.receive[i],
                             if m.receive[i] then rx + [i] else rx), Some(0)));
  }

  lemma LoneOff(setup: Setup, start: Machine, channel: int, m: Machine, target: nat, i: nat, changed: bool, rx: seq<nat>)
    requires |start.threads| == 1 && |m.send| == |m.receive| == |setup.ports| && i < |setup.ports| && i != target
    requires Follows(setup, start, channel, With(m, Disabling(channel, target, i, false, changed, rx), Some(0)))
    ensures Follows(setup, start, channel,
                    With(m.(send := m.send[i := false], receive := m.receive[i := false]),
                         Disabling(channel, target, i + 1, false, changed || m.send[i] || m.receive[i],
                                   if m.receive[i] then rx + [i] else rx), Some(0)))
  {
    LoneSendOff(setup, start, channel, m, target, i, changed, rx);
    LoneReceiveOff(setup, start, channel, m.(send := m.send[i := false]), target, i, changed || m.send[i], rx);
  }

  /** m once every other port from i on is off. */
  function Disabled(setup: Setup, channel: int, m: Machine, target: nat, i: nat, changed: bool, rx: seq<nat>): Machine
    requires |m.send| == |m.receive| == |setup.ports| && i <= |setup.ports|
  {
    With(m.(send := OffFrom(m.send, target, i), receive := OffFrom(m.receive, target, i)),
         Disabling(channel, target, |setup.ports|, false,
                   changed || AnyOnFrom(m.send, m.receive, target, i),
                   rx + ReceivingFrom(m.receive, target, i)), Some(0))
  }

  lemma DisabledAtEnd(setup: Setup, channel: int, m: Machine, target: nat, changed: bool, rx: seq<nat>)
    requires |m.send| == |m.receive| == |setup.ports|
    ensures Disabled(setup, channel, m, target, |setup.ports|, changed, rx)
            == With(m, Disabling(channel, target, |setup.ports|, false, changed, rx), Some(0))
  {
    assert OffFrom(m.send, target, |m.send|) == m.send && OffFrom(m.receive, target, |m.send|) == m.receive;
    assert rx + [] == rx;
    assert !AnyOnFrom(m.send, m.receive, target, |m.send|);
  }

  lemma DisabledStep(setup: Setup, channel: int, m: Machine, target: nat, i: nat, changed: bool, rx: seq<nat>)
    requires |m.send| == |m.receive| == |setup.ports| && i < |setup.ports| && i != target
    ensures Disabled(setup, channel, m, target, i, changed, rx)
            == Disabled(setup, channel, m.(send := m.send[i := false], receive := m.receive[i := false]), target, i + 1,
                        changed || m.send[i] || m.receive[i], if m.receive[i] then rx + [i] else rx)
  {
    OffFromStep(m, m.(send := m.send[i := false], receive := m.receive[i := false]), target, i, rx);
  }

  lemma DisabledSkips(setup: Setup, channel: int, m: Machine, target: nat, changed: bool, rx: seq<nat>)
    requires |m.send| == |m.receive| == |setup.ports| && target < |setup.ports|
    ensures Disabled(setup, channel, m, target, target, changed, rx)
            == Disabled(setup, channel, m, target, target + 1, changed, rx)
  {
    OffFromSkips(m, target);
  }

  /** The loop that disables the other ports, from port i on. */
  lemma {:induction false} LoneDisables(setup: Setup, start: Machine, channel: int, m: Machine, target: nat, i: nat,
                                        changed: bool, rx: seq<nat>, final: Machine)
    requires |start.threads| == 1 && |m.send| == |m.receive| == |setup.ports| && i <= |setup.ports|
    requires target < |setup.ports| && final == Disabled(setup, channel, m, target, i, changed, rx)
    requires Follows(setup, start, channel, With(m, Disabling(channel, target, i, false, changed, rx), Some(0)))
    ensures Follows(setup, start, channel, final)
    decreases |setup.ports| - i
  {
    if i == |setup.ports| {
      DisabledAtEnd(setup, channel, m, target, changed, rx);
    } else if i == target {
      LoneSkip(setup, start, channel, m, target, changed, rx);
      DisabledSkips(setup, channel, m, target, changed, rx);
      LoneDisables(setup, start, channel, m, target, i + 1, changed, rx, final);
    } else {
      LoneOff(setup, start, channel, m, target, i, changed, rx);
      DisabledStep(setup, channel, m, target, i, changed, rx);
      var off := m.(send := m.send[i := false], receive := m.receive[i := false]);
      var ch, list := changed || m.send[i] || m.receive[i], if m.receive[i] then rx + [i] else rx;
      LoneDisables(setup, start, channel, off, target, i + 1, ch, list, final);
    }
  }

  lemma OffFromSkips(m: Machine, target: nat)
    requires |m.send| == |m.receive| && target < |m.send|
    ensures OffFrom(m.send, target, target) == OffFrom(m.send, target, target + 1)
    ensures OffFrom(m.receive, target, target) == OffFrom(m.receive, target, target + 1)
    ensures AnyOnFrom(m.send, m.receive, target, target) == AnyOnFrom(m.send, m.receive, target, target + 1)
    ensures ReceivingFrom(m.receive, target, target) == ReceivingFrom(m.receive, target, target + 1)
  {
    if AnyOnFrom(m.send, m.receive, target, target) {
      var j :| 0 <= j < |m.send| && On(m.send, m.receive, j) && j >= target && j != target;
      assert j >= target + 1;
    }
  }

  lemma OffFromStep(m: Machine, m2: Machine, target: nat, i: nat, rx: seq<nat>)
    requires |m.send| == |m.receive| && i < |m.send| && i != target
    requires m2.send == m.send[i := false] && m2.receive == m.receive[i := false]
    ensures OffFrom(m2.send, target, i + 1) == OffFrom(m.send, target, i)
    ensures OffFrom(m2.receive, target, i + 1) == OffFrom(m.receive, target, i)
    ensures (m.send[i] || m.receive[i] || AnyOnFrom(m2.send, m2.receive, target, i + 1))
            == AnyOnFrom(m.send, m.receive, target, i)
    ensures (if m.receive[i] then rx + [i] else rx) + ReceivingFrom(m2.receive, target, i + 1)
            == rx + ReceivingFrom(m.receive, target, i)
  {
    AnyOnFromStep(m, m2, target, i);
    ReceivingFromStep(m.receive, target, i, rx);
  }

  lemma AnyOnFromStep(m: Machine, m2: Machine, target: nat, i: nat)
    requires |m.send| == |m.receive| && i < |m.send| && i != target
    requires m2.send == m.send[i := false] && m2.receive == m.receive[i := false]
    ensures (m.send[i] || m.receive[i] || AnyOnFrom(m2.send, m2.receive, target, i + 1))
            == AnyOnFrom(m.send, m.receive, target, i)
  {
    if AnyOnFrom(m.send, m.receive, target, i) {
      var j :| 0 <= j < |m.send| && On(m.send, m.receive, j) && j >= i && j != target;
      assert j != i ==> On(m2.send, m2.receive, j) && j >= i + 1;
    }
    if m.send[i] || m.receive[i] {
      assert On(m.send, m.receive, i);
    }
    if AnyOnFrom(m2.send, m2.receive, target, i + 1) {
      var j :| 0 <= j < |m2.send| && On(m2.send, m2.receive, j) && j >= i + 1 && j != target;
      assert On(m.send, m.receive, j);
    }
  }

  lemma ReceivingFromStep(receive: seq<bool>, target: nat, i: nat, rx: seq<nat>)
    requires i < |receive| && i != target
    ensures (if receive[i] then rx + [i] else rx) + ReceivingFrom(receive[i := false], target, i + 1)
            == rx + ReceivingFrom(receive, target, i)
  {
    ReceivingFromBeyond(receive, receive[i := false], target, i + 1);
    var own, after := if receive[i] then [i] else [], ReceivingFrom(receive, target, i + 1);
    assert ReceivingFrom(receive, target, i) == own + after;
    assert rx + (own + after) == (rx + own) + after;
    assert rx + [] == rx;
  }

  lemma {:induction false} ReceivingFromBeyond(a: seq<bool>, b: seq<bool>, target: nat, i: nat)
    requires |a| == |b| && i <= |a| && forall j :: i <= j < |a| ==> a[j] == b[j]
    ensures ReceivingFrom(a, target, i) == ReceivingFrom(b, target, i)
    decreases |a| - i
  {
    if i < |a| {
      ReceivingFromBeyond(a, b, target, i + 1);
    }
  }

  /** From the end of that loop to the unlock. */
  lemma LoneEnables(setup: Setup, start: Machine, channel: int, m: Machine, target: nat, changed: bool, rx: seq<nat>)
    requires |start.threads| == 1 && |m.send| == |m.receive| == |setup.ports| && target < |setup.ports|
    requires Follows(setup, start, channel, With(m, Disabling(channel, target, |setup.ports|, false, changed, rx), Some(0)))
    ensures Follows(setup, start, channel,
                    With(m.(send := m.send[target := true], receive := m.receive[target := true]),
                         Activating(channel, target, changed || !m.send[target] || !m.receive[target],
                                    if m.receive[target] then rx else rx + [target]), Some(0)))
  {
    var m0 := With(m, Disabling(channel, target, |setup.ports|, false, changed, rx), Some(0));
    FollowsOn(setup, start, channel, m0);
    var m1 := With(m, EnablingSend(channel, target, changed, rx), Some(0));
    assert Advanced(setup, m0, 0) == m1;
    FollowsOn(setup, start, channel, m1);
    var m2 := With(m.(send := m.send[target := true]),
                   EnablingReceive(channel, target, changed || !m.send[target], rx), Some(0));
    assert Advanced(setup, m1, 0) == m2;
    FollowsOn(setup, start, channel, m2);
    assert Advanced(setup, m2, 0)
           == With(m.(send := m.send[target := true], receive := m.receive[target := true]),
                   Activating(channel, target, changed || !m.send[target] || !m.receive[target],
                              if m.receive[target] then rx else rx + [target]), Some(0));
  }

  lemma LoneActivates(setup: Setup, start: Machine, channel: int, m: Machine, target: nat, changed: bool, rx: seq<nat>)
    requires |start.threads| == 1
    requires Follows(setup, start, channel, With(m, Activating(channel, target, changed, rx), Some(0)))
    ensures Follows(setup, start, channel,
                    With(m.(active := channel), Notifying(channel, target, m.active, changed, rx), Some(0)))
  {
    var m0 := With(m, Activating(channel, target, changed, rx), Some(0));
    FollowsOn(setup, start, channel, m0);
    assert Advanced(setup, m0, 0) == With(m.(active := channel), Notifying(channel, target, m.active, changed, rx), Some(0));
  }

  lemma LoneNotifies(setup: Setup, start: Machine, channel: int, m: Machine, target: nat, prev: int, changed: bool, rx: seq<nat>)
    requires |start.threads| == 1
    requires Follows(setup, start, channel, With(m, Notifying(channel, target, prev, changed, rx), Some(0)))
    ensures Follows(setup, start, channel,
                    With(m.(log := if changed || prev != channel then m.log + [Event(channel, prev)] else m.log),
                         Unlocking(rx), Some(0)))
  {
    var m0 := With(m, Notifying(channel, target, prev, changed, rx), Some(0));
    FollowsOn(setup, start, channel, m0);
    assert Advanced(setup, m0, 0)
           == With(m.(log := if changed || prev != channel then m.log + [Event(channel, prev)] else m.log),
                   Unlocking(rx), Some(0));
  }

  lemma LoneUnlocks(setup: Setup, start: Machine, channel: int, m: Machine, rx: seq<nat>)
    requires |start.threads| == 1
    requires Follows(setup, start, channel, With(m, Unlocking(rx), Some(0)))
    ensures Follows(setup, start, channel, With(m, Reconciling(rx), None))
  {
    var m0 := With(m, Unlocking(rx), Some(0));
    FollowsOn(setup, start, channel, m0);
    assert Advanced(setup, m0, 0) == With(m, Reconciling(rx), None);
  }

  lemma {:induction false} LoneReconciles(setup: Setup, start: Machine, channel: int, m: Machine, rx: seq<nat>, rest: seq<nat>)
    requires |start.threads| == 1
    requires |setup.installed| == |m.receive| == |m.running| == |setup.ports| && InRange(rx, |m.receive|)
    requires Follows(setup, start, channel, With(m, Reconciling(rx + rest), None))
    ensures Follows(setup, start, channel,
                    With(m.(running := Realigned(setup.installed, m.receive, m.running, rx)), Reconciling(rest), None))
    decreases |rx|
  {
    if rx == [] {
      assert rx + rest == rest;
    } else {
      assert rx + rest == [rx[0]] + (rx[1..] + rest);
      LoneReconcilesOne(setup, start, channel, m, rx[0], rx[1..] + rest);
      var next := m.(running := if setup.installed[rx[0]] then m.running[rx[0] := m.receive[rx[0]]] else m.running);
      LoneReconciles(setup, start, channel, next, rx[1..], rest);
    }
  }

  lemma LoneLoads(setup: Setup, start: Machine, channel: int, m: Machine, i: nat, rest: seq<nat>)
    requires |start.threads| == 1 && i < |m.receive|
    requires Follows(setup, start, channel, With(m, Reconciling([i] + rest), None))
    ensures Follows(setup, start, channel, With(m, Applying(i, m.receive[i], rest), None))
  {
    var m0 := With(m, Reconciling([i] + rest), None);
    var rx: seq<nat> := [i] + rest;
    assert rx[1..] == rest && rx[0] == i;
    FollowsTo(setup, start, channel, m0, With(m, Applying(i, m.receive[i], rest), None));
  }

  lemma LoneReconcilesOne(setup: Setup, start: Machine, channel: int, m: Machine, i: nat, rest: seq<nat>)
    requires |start.threads| == 1
    requires |setup.installed| == |m.receive| == |m.running| == |setup.ports| && i < |m.receive|
    requires Follows(setup, start, channel, With(m, Reconciling([i] + rest), None))
    ensures Follows(setup, start, channel,
                    With(m.(running := if setup.installed[i] then m.running[i := m.receive[i]] else m.running), Reconciling(rest), None))
  {
    LoneLoads(setup, start, channel, m, i, rest);
    var next := m.(running := if setup.installed[i] then m.running[i := m.receive[i]] else m.running);
    FollowsTo(setup, start, channel, With(m, Applying(i, m.receive[i], rest), None), With(next, Reconciling(rest), None));
  }

  lemma LoneRests(setup: Setup, start: Machine, channel: int, m: Machine)
    requires |start.threads| == 1 && Follows(setup, start, channel, With(m, Reconciling([]), None))
    ensures Follows(setup, start, channel, With(m, Idle, None))
  {
    FollowsTo(setup, start, channel, With(m, Reconciling([]), None), With(m, Idle, None));
  }

  /** A selection that is decided and has left the lock, with no stream touched yet. */
  function Decided(setup: Setup, m: Machine, channel: int): Machine
    requires Shaped(setup, m) && Target(setup, channel).Some?
  {
    Selected(setup, m, channel).(running := m.running)
  }

  /** Left alone, a selection comes to owe exactly the ports whose flag it flipped, in order. */
  lemma LoneSelectionIsDecided(setup: Setup, start: Machine, channel: int)
    requires Shaped(setup, start) && start.threads == [Idle] && start.lock.None? && Target(setup, channel).Some?
    ensures Follows(setup, start, channel,
                    With(Decided(setup, start, channel), Reconciling(Flipped(start.receive, Target(setup, channel).value)), None))
  {
    var target := Target(setup, channel).value;
    FollowsFrom(setup, start, channel);
    var m0 := With(start, Locking(channel, target), None);
    assert Apply(setup, start, Select(0, channel)) == m0;
    FollowsOn(setup, start, channel, m0);
    assert Advanced(setup, m0, 0) == With(start, Disabling(channel, target, 0, false, false, []), Some(0));
    LoneDisables(setup, start, channel, start, target, 0, false, [], Disabled(setup, channel, start, target, 0, false, []));
    var off := start.(send := OffFrom(start.send, target, 0), receive := OffFrom(start.receive, target, 0));
    var changed := AnyOnFrom(start.send, start.receive, target, 0);
    var rx := ReceivingFrom(start.receive, target, 0);
    assert [] + rx == rx;
    LoneEnables(setup, start, channel, off, target, changed, rx);
    FinishDeciding(setup, start, channel);
  }

  lemma FinishDeciding(setup: Setup, start: Machine, channel: int)
    requires Shaped(setup, start) && start.threads == [Idle] && start.lock.None? && Target(setup, channel).Some?
    requires var target := Target(setup, channel).value;
             var off := start.(send := OffFrom(start.send, target, 0), receive := OffFrom(start.receive, target, 0));
             var rx := ReceivingFrom(start.receive, target, 0);
             Follows(setup, start, channel,
                     With(off.(send := off.send[target := true], receive := off.receive[target := true]),
                          Activating(channel, target,
                                     AnyOnFrom(start.send, start.receive, target, 0) || !off.send[target] || !off.receive[target],
                                     if off.receive[target] then rx else rx + [target]), Some(0)))
    ensures Follows(setup, start, channel,
                    With(Decided(setup, start, channel), Reconciling(Flipped(start.receive, Target(setup, channel).value)), None))
  {
    var target := Target(setup, channel).value;
    var on := start.(send := OffFrom(start.send, target, 0)[target := true],
                     receive := OffFrom(start.receive, target, 0)[target := true]);
    var rx := Flipped(start.receive, target);
    assert rx == if start.receive[target] then ReceivingFrom(start.receive, target, 0)
                 else ReceivingFrom(start.receive, target, 0) + [target];
    var changed := SelectionChanges(start.send, start.receive, target);
    LoneActivates(setup, start, channel, on, target, changed, rx);
    LoneNotifies(setup, start, channel, on.(active := channel), target, on.active, changed, rx);
    var named := on.(active := channel,
                     log := if changed || on.active != channel then on.log + [Event(channel, on.active)] else on.log);
    LoneUnlocks(setup, start, channel, named, rx);
    assert With(named, Reconciling(rx), None) == With(Decided(setup, start, channel), Reconciling(rx), None);
  }

  /** Left alone, the small steps of one selection add up to the selection at once. */
  lemma LoneSelectionIsSelected(setup: Setup, start: Machine, channel: int)
    requires Shaped(setup, start) && start.threads == [Idle] && start.lock.None? && Target(setup, channel).Some?
    ensures Follows(setup, start, channel, Selected(setup, start, channel))
  {
    var d, rx := Decided(setup, start, channel), Flipped(start.receive, Target(setup, channel).value);
    LoneSelectionIsDecided(setup, start, channel);
    assert rx + [] == rx;
    LoneReconciles(setup, start, channel, d, rx, []);
    var r := d.(running := Realigned(setup.installed, d.receive, d.running, rx));
    LoneRests(setup, start, channel, r);
    assert With(r, Idle, None) == Selected(setup, start, channel);
  }

  // ---- The service -------------------------------------------------------------------

  class Service {
    const setup: Setup
    var send: seq<bool>
    var receive: seq<bool>
    var running: seq<bool>
    var active: int
    var log: seq<Event>

    ghost predicate Valid()
      reads this
    {
      && |setup.installed| == |setup.ports|
      && |send| == |setup.ports| && |receive| == |setup.ports| && |running| == |setup.ports|
    }

    /** The fields as a machine with one idle caller. */
    ghost function State(): (m: Machine)
      requires Valid()
      reads this
      ensures Shaped(setup, m)
    {
      Machine(send, receive, active, None, log, running, [Idle])
    }

    /** Boot: seed the active channel from the flags; streams of receiving ports run. */
    constructor (setup: Setup, send: seq<bool>, receive: seq<bool>)
      requires |send| == |receive| == |setup.installed| == |setup.ports|
      ensures Valid() && this.setup == setup
      ensures State() == Boot(setup, send, receive, 1)
    {
      this.setup, this.send, this.receive := setup, send, receive;
      active, log := 0, [];
      running := seq(|send|, _ => false);
      new;
      MarkAndSyncPlayback();
      SeedActiveChannel();
      assert seq<Thread>(1, _ => Idle) == [Idle];
    }

    /** Hardware start runs every stream; those of ports that do not receive are stopped again. */
    method MarkAndSyncPlayback()
      requires Valid() && forall i :: 0 <= i < |running| ==> !running[i]
      modifies this`running
      ensures |running| == |setup.ports|
      ensures forall i :: 0 <= i < |running| ==> running[i] == (setup.installed[i] && receive[i])
    {
      for i := 0 to |setup.ports|
        invariant Valid()
        invariant forall j :: 0 <= j < i ==> running[j] == (setup.installed[j] && receive[j])
        invariant forall j :: i <= j < |running| ==> !running[j]
      {
        if !setup.installed[i] {
          continue;
        }
        running := running[i := true];
        if receive[i] {
          continue;
        }
        running := running[i := false];
      }
    }

    method SeedActiveChannel()
      requires Valid() && active == 0 && log == []
      modifies this`active, this`log
      ensures active == SeedChannel(setup, send, receive)
      ensures log == if active == 0 then [] else [Event(active, 0)]
    {
      var i := 0;
      while i < |setup.ports|
        invariant 0 <= i <= |setup.ports| && active == 0 && log == []
        invariant SeedChannel(setup.(ports := setup.ports[i..]), send[i..], receive[i..])
                  == SeedChannel(setup, send, receive)
      {
        if send[i] && receive[i] {
          var ch := TalkGroupChannel(setup.ports[i]);
          if ch.Some? {
            active := ch.value;
            log := [Event(ch.value, 0)];
            return;
          }
        }
        assert setup.ports[i..][1..] == setup.ports[i + 1..] && send[i..][1..] == send[i + 1..]
               && receive[i..][1..] == receive[i + 1..];
        i := i + 1;
      }
    }

    method FindTarget(port: int) returns (target: Option<nat>)
      ensures target == IndexOf(setup.ports, port)
    {
      var i := 0;
      while i < |setup.ports|
        invariant 0 <= i <= |setup.ports|
        invariant var rest := IndexOf(setup.ports[i..], port);
                  IndexOf(setup.ports, port) == if rest.Some? then Some(i + rest.value) else None
      {
        if setup.ports[i] == port {
          return Some(i);
        }
        assert setup.ports[i..][1..] == setup.ports[i + 1..];
        i := i + 1;
      }
      return None;
    }

    method SwapSend(i: nat, enabled: bool) returns (changed: bool)
      requires Valid() && i < |send|
      modifies this`send
      ensures send == old(send)[i := enabled] && changed == (old(send)[i] != enabled)
    {
      changed := send[i] != enabled;
      send := send[i := enabled];
    }

    method SwapReceive(i: nat, enabled: bool) returns (changed: bool)
      requires Valid() && i < |receive|
      modifies this`receive
      ensures receive == old(receive)[i := enabled] && changed == (old(receive)[i] != enabled)
    {
      changed := receive[i] != enabled;
      receive := receive[i := enabled];
    }

    /** One port goes off, sending before receiving. */
    method TurnOff(i: nat) returns (any: bool, receiveChanged: bool)
      requires Valid() && i < |setup.ports|
      modifies this`send, this`receive
      ensures send == old(send)[i := false] && receive == old(receive)[i := false]
      ensures any == (old(send)[i] || old(receive)[i]) && receiveChanged == old(receive)[i]
    {
      var sendChanged := SwapSend(i, false);
      receiveChanged := SwapReceive(i, false);
      any := sendChanged || receiveChanged;
    }

    /** Every port but the target goes off. */
    method DisableOthers(target: nat) returns (changed: bool, rx: seq<nat>)
      requires Valid() && target < |setup.ports|
      modifies this`send, this`receive
      ensures send == OffFrom(old(send), target, 0) && receive == OffFrom(old(receive), target, 0)
      ensures changed == AnyOnFrom(old(send), old(receive), target, 0)
      ensures rx == ReceivingFrom(old(receive), target, 0)
    {
      changed, rx := false, [];
      OffBelowEnds(send, target);
      OffBelowEnds(receive, target);
      for i := 0 to |setup.ports|
        invariant Valid()
        invariant send == OffBelow(old(send), target, i) && receive == OffBelow(old(receive), target, i)
        invariant changed == AnyOnBelow(old(send), old(receive), target, i)
        invariant rx == ReceivingBelow(old(receive), target, i)
      {
        OffBelowStep(old(send), target, i);
        OffBelowStep(old(receive), target, i);
        if i != target {
          var any, receiveChanged := TurnOff(i);
          if receiveChanged {
            rx := rx + [i];
          }
          changed := changed || any;
        }
      }
      AnyOnEitherWay(old(send), old(receive), target);
      ReceivingBelowAndFrom(old(receive), target, |setup.ports|);
    }

    /** Brings one port's stream in line with its flag. Starting and stopping are idempotent. */
    method ApplyReceivePlayback(i: nat)
      requires Valid() && i < |setup.ports|
      modifies this`running
      ensures running == if setup.installed[i] then old(running)[i := receive[i]] else old(running)
    {
      if !receive[i] {
        if setup.installed[i] && running[i] {
          running := running[i := false];
        }
        return;
      }
      if setup.installed[i] && !running[i] {
        running := running[i := true];
      }
    }

    method Reconcile(rx: seq<nat>)
      requires Valid() && InRange(rx, |setup.ports|)
      modifies this`running
      ensures Valid() && running == Realigned(setup.installed, receive, old(running), rx)
    {
      for k := 0 to |rx|
        invariant Valid()
        invariant Realigned(setup.installed, receive, running, rx[k..])
                  == Realigned(setup.installed, receive, old(running), rx)
      {
        assert rx[k..][1..] == rx[k + 1..];
        ApplyReceivePlayback(rx[k]);
      }
      assert rx[|rx|..] == [];
    }

    /**
     * A selection. It fails, changing nothing, exactly when the channel is not
     * provisioned; otherwise it leaves both directions on at the target alone,
     * streams in step, and does what the machine's steps do.
     */
    method SelectTalkGroup(channel: int) returns (ok: bool)
      requires Valid()
      modifies this
      ensures Valid()
      ensures ok <==> Target(setup, channel).Some?
      ensures State() == if ok then Selected(setup, old(State()), channel) else old(State())
      ensures ok ==> active == channel && OnlyOn(send, receive, Target(setup, channel).value)
      ensures ok <==> 1 <= channel <= 32 && 38801 + 2 * (channel - 1) in setup.ports
      ensures !ok ==> send == old(send) && receive == old(receive) && running == old(running) && active == old(active) && log == old(log)
      ensures ok ==>
                && (forall i :: 0 <= i < |setup.ports| ==>
                      && (send[i] || receive[i] ==> setup.ports[i] == 38801 + 2 * (channel - 1) && send[i] && receive[i])
                      && running[i] == if setup.installed[i] && receive[i] != old(receive)[i] then receive[i] else old(running)[i])
                && log == if send != old(send) || receive != old(receive) || old(active) != channel
                          then old(log) + [Event(channel, old(active))] else old(log)
      ensures ok ==> Follows(setup, old(State()), channel, State())
    {
      NotProvisioned(setup, channel);
      var port := TalkGroupPort(channel);
      if port.None? {
        return false;
      }
      var found := FindTarget(port.value);
      if found.None? {
        return false;
      }
      ghost var start := State();
      LoneSelectionIsSelected(setup, start, channel);
      SelectedIsExclusive(setup, start, channel);
      SelectedFlagByFlag(setup, start, channel);
      SwitchTo(found.value, channel);
      return true;
    }

    /** Everything off but the target, the event if there is one, and then the streams. */
    method SwitchTo(target: nat, channel: int)
      requires Valid() && Target(setup, channel) == Some(target)
      modifies this
      ensures Valid() && State() == Selected(setup, old(State()), channel)
    {
      ghost var start := State();
      var changed, rx := DisableOthers(target);
      var sendChanged := SwapSend(target, true);
      changed := changed || sendChanged;
      var receiveChanged := SwapReceive(target, true);
      if receiveChanged {
        rx := rx + [target];
      }
      changed := changed || receiveChanged;
      assert rx == Flipped(start.receive, target);
      var prev := active;
      active := channel;
      if changed || prev != channel {
        log := log + [Event(channel, prev)];
      }
      Reconcile(rx);
      assert State() == Selected(setup, start, channel);
    }

    /** A receive toggle: the flag flips, and only a real change touches the stream. */
    method EnableTalkGroupReceive(i: int, enabled: bool) returns (ok: bool)
      requires Valid()
      modifies this`receive, this`running
      ensures Valid()
      ensures ok <==> 0 <= i < |setup.ports|
      ensures ok ==> receive == old(receive)[i := enabled]
                     && running == if setup.installed[i] && old(receive)[i] != enabled
                                   then old(running)[i := enabled] else old(running)
      ensures !ok ==> receive == old(receive) && running == old(running)
    {
      if i < 0 || i >= |setup.ports| {
        return false;
      }
      var changed := SwapReceive(i, enabled);
      if changed {
        ApplyReceivePlayback(i);
      }
      return true;
    }

    /** The selector's channels, one selection each; those not provisioned are skipped. */
    method ForwardSelections(channels: seq<int>)
      requires Valid()
      modifies this
      ensures Valid() && State() == SelectedAll(setup, old(State()), channels)
    {
      for i := 0 to |channels|
        invariant Valid() && State() == SelectedAll(setup, old(State()), channels[..i])
      {
        assert channels[..i + 1][..i] == channels[..i];
        var ok := SelectTalkGroup(channels[i]);
      }
      assert channels[..|channels|] == channels;
    }
  }
}
