/**
 * What selections alone guarantee from boots and setups that are not the clean ones.
 *
 * From any flags at boot, one completed selection is enough for the promise to
 * hold ever after. And selections alone, without toggles, keep playback in step
 * in exactly those setups where no stream's port can be both selected and left.
 */
module TalkGroupRuns {
  import opened Outcomes
  import opened TalkGroups
  import opened TalkGroupService

  lemma {:induction false} ExecAppend(setup: Setup, m: Machine, a: seq<Action>, b: seq<Action>)
    requires Shaped(setup, m)
    ensures Exec(setup, m, a + b) == Exec(setup, Exec(setup, m, a), b)
    decreases |b|
  {
    if b == [] {
      assert a + b == a;
    } else {
      var n := |b| - 1;
      assert (a + b)[..|a + b| - 1] == a + b[..n];
      ExecAppend(setup, m, a, b[..n]);
    }
  }

  // ---- Before the first selection completes ---------------------------------------

  /** What holds inside the lock whatever the flags were before it was taken. */
  ghost predicate WeakPhase(setup: Setup, m: Machine, th: Thread) {
    match th
    case Disabling(_, target, i, sendDone, _, _) =>
      && LastChannel(m.log) == m.active
      && (forall j :: On(m.send, m.receive, j) && j < i ==> j == target)
      && (sendDone ==> i < |m.send| && i != target && !m.send[i])
    case EnablingSend(_, target, _, _) =>
      OffBeside(m.send, m.receive, target) && LastChannel(m.log) == m.active
    case EnablingReceive(_, target, _, _) =>
      && OffBeside(m.send, m.receive, target) && LastChannel(m.log) == m.active
      && target < |m.send| && m.send[target]
    case Activating(_, target, _, _) =>
      OnlyOn(m.send, m.receive, target) && LastChannel(m.log) == m.active
    case Notifying(ch, target, prev, _, _) =>
      OnlyOn(m.send, m.receive, target) && m.active == ch && LastChannel(m.log) == prev
    case Unlocking(_) => Settled(setup, m) && LastChannel(m.log) == m.active
    case _ => false
  }

  /** Events name their predecessors, and at most the thread in the lock is at work on the flags. */
  ghost predicate Sorting(setup: Setup, m: Machine) {
    && Chained(m.log, |m.log|)
    && (m.lock.None? ==>
          LastChannel(m.log) == m.active && forall t :: 0 <= t < |m.threads| ==> !Holds(m.threads[t]))
    && (m.lock.Some? ==>
          && m.lock.value < |m.threads| && WeakPhase(setup, m, m.threads[m.lock.value])
          && forall t :: 0 <= t < |m.threads| && t != m.lock.value ==> !Holds(m.threads[t]))
  }

  lemma BootIsSorting(setup: Setup, send: seq<bool>, receive: seq<bool>, n: nat)
    requires |send| == |receive| == |setup.installed| == |setup.ports|
    ensures Shaped(setup, Boot(setup, send, receive, n)) && Sorting(setup, Boot(setup, send, receive, n))
  {
    BootIsShaped(setup, send, receive, n);
    SeedIsFirstEvent(setup, send, receive, n);
  }

  lemma SeedIsFirstEvent(setup: Setup, send: seq<bool>, receive: seq<bool>, n: nat)
    requires |send| == |receive| == |setup.installed| == |setup.ports|
    ensures var m := Boot(setup, send, receive, n);
            Chained(m.log, |m.log|) && LastChannel(m.log) == m.active
  {
    var m := Boot(setup, send, receive, n);
    assert forall k :: 0 <= k < |m.log| ==> m.log[..k] == [];
  }

  lemma WeakDisablingStep(setup: Setup, m: Machine, t: nat)
    requires Shaped(setup, m) && t < |m.threads| && m.threads[t].Disabling? && WeakPhase(setup, m, m.threads[t])
    ensures var next := Advanced(setup, m, t); next.log == m.log && WeakPhase(setup, next, next.threads[t])
  {
    assert ThreadShaped(setup, m.threads[t]);
    var next := Advanced(setup, m, t);
    var i, target, sendDone := m.threads[t].i, m.threads[t].target, m.threads[t].sendDone;
    assert forall j :: On(next.send, next.receive, j) ==> On(m.send, m.receive, j);
    assert i < |m.send| && i != target && sendDone ==> !On(next.send, next.receive, i);
  }

  lemma WeakEnablingStep(setup: Setup, m: Machine, t: nat)
    requires Shaped(setup, m) && t < |m.threads| && WeakPhase(setup, m, m.threads[t])
    requires m.threads[t].EnablingSend? || m.threads[t].EnablingReceive?
    ensures var next := Advanced(setup, m, t); next.log == m.log && WeakPhase(setup, next, next.threads[t])
  {
    assert ThreadShaped(setup, m.threads[t]);
    var next := Advanced(setup, m, t);
    var target := m.threads[t].target;
    if m.threads[t].EnablingSend? {
      assert forall j :: On(next.send, next.receive, j) ==> j == target || On(m.send, m.receive, j);
    } else {
      LastSwapCompletes(m.send, m.receive, target);
    }
  }

  lemma WeakNotifyingStep(setup: Setup, m: Machine, t: nat)
    requires Shaped(setup, m) && t < |m.threads| && m.threads[t].Notifying?
    requires WeakPhase(setup, m, m.threads[t]) && Chained(m.log, |m.log|)
    ensures var next := Advanced(setup, m, t);
            WeakPhase(setup, next, next.threads[t]) && Chained(next.log, |next.log|)
  {
    assert ThreadShaped(setup, m.threads[t]);
    var next := Advanced(setup, m, t);
    if next.log != m.log {
      assert next.log[..|m.log|] == m.log;
      assert forall k :: 0 <= k < |m.log| ==> next.log[..k] == m.log[..k];
    }
  }

  /** The thread leaves the lock with its selection done. */
  ghost predicate Completes(m: Machine, a: Action) {
    a.Advance? && m.lock == Some(a.t) && a.t < |m.threads| && m.threads[a.t].Unlocking?
  }

  lemma HolderStepKeepsSorting(setup: Setup, m: Machine, t: nat)
    requires Shaped(setup, m) && Sorting(setup, m) && m.lock == Some(t)
    ensures Sorting(setup, Advanced(setup, m, t))
    ensures m.threads[t].Unlocking? ==> Selecting(setup, Advanced(setup, m, t), |m.log|)
  {
    var th := m.threads[t];
    assert ThreadShaped(setup, th) && WeakPhase(setup, m, th);
    var next := Advanced(setup, m, t);
    assert forall u :: 0 <= u < |m.threads| && u != t ==> next.threads[u] == m.threads[u];
    if th.Disabling? {
      WeakDisablingStep(setup, m, t);
    } else if th.EnablingSend? || th.EnablingReceive? {
      WeakEnablingStep(setup, m, t);
    } else if th.Notifying? {
      WeakNotifyingStep(setup, m, t);
    }
  }

  lemma OtherStepKeepsSorting(setup: Setup, m: Machine, t: nat)
    requires Shaped(setup, m) && Sorting(setup, m) && t < |m.threads| && m.lock != Some(t)
    ensures Sorting(setup, Advanced(setup, m, t))
  {
    assert ThreadShaped(setup, m.threads[t]);
  }

  lemma StepKeepsSorting(setup: Setup, m: Machine, a: Action)
    requires Shaped(setup, m) && Sorting(setup, m) && (a.Select? || a.Advance?)
    ensures Sorting(setup, Apply(setup, m, a))
    ensures Completes(m, a) ==> Selecting(setup, Apply(setup, m, a), |m.log|)
  {
    if a.t < |m.threads| && a.Advance? {
      if m.lock == Some(a.t) {
        HolderStepKeepsSorting(setup, m, a.t);
      } else {
        OtherStepKeepsSorting(setup, m, a.t);
      }
    }
  }

  lemma {:induction false} RunKeepsSorting(setup: Setup, m: Machine, actions: seq<Action>)
    requires Shaped(setup, m) && Sorting(setup, m) && SelectionsOnly(actions)
    ensures Sorting(setup, Exec(setup, m, actions))
  {
    if actions != [] {
      var n := |actions| - 1;
      RunKeepsSorting(setup, m, actions[..n]);
      StepKeepsSorting(setup, Exec(setup, m, actions[..n]), actions[n]);
    }
  }

  /**
   * From any boot and in any interleaving of selections, from the moment the first
   * selection completes the promise holds in every later state, events after that
   * moment naming a new channel each.
   */
  lemma PromiseHoldsAfterFirstSelection(setup: Setup, send: seq<bool>, receive: seq<bool>, n: nat,
                                        before: seq<Action>, a: Action, after: seq<Action>)
    requires |send| == |receive| == |setup.installed| == |setup.ports|
    requires SelectionsOnly(before) && SelectionsOnly(after)
    requires Shaped(setup, Boot(setup, send, receive, n))
    requires Completes(Exec(setup, Boot(setup, send, receive, n), before), a)
    ensures var boot := Boot(setup, send, receive, n);
            Promise(setup, Exec(setup, boot, before + [a] + after), |Exec(setup, boot, before).log|)
  {
    var boot := Boot(setup, send, receive, n);
    BootIsSorting(setup, send, receive, n);
    RunKeepsSorting(setup, boot, before);
    var m := Exec(setup, boot, before);
    StepKeepsSorting(setup, m, a);
    assert (before + [a])[..|before|] == before;
    var next := Exec(setup, boot, before + [a]);
    assert next == Apply(setup, m, a);
    RunKeepsSelecting(setup, next, after, |m.log|);
    ExecAppend(setup, boot, before + [a], after);
    SelectingIsExclusive(setup, Exec(setup, next, after), |m.log|);
  }

  // ---- Playback under selections alone: setups that keep it in step ------------

  /** Some channel's selection turns port i on. */
  ghost predicate Selectable(setup: Setup, i: nat) {
    exists channel :: Target(setup, channel) == Some(i)
  }

  /** Selections can turn a port with a stream both on and off. */
  ghost predicate Flickers(setup: Setup, i: nat, j: nat) {
    && i < |setup.installed| && setup.installed[i] && i != j
    && Selectable(setup, i) && Selectable(setup, j)
  }

  /** The thread has port i on its list, or has loaded its flag. */
  predicate Touches(th: Thread, i: nat) {
    i in ToReconcile(th) || (th.Applying? && th.port == i)
  }

  /** A stream's port that some thread still has to do with has the flag it will keep. */
  ghost predicate Final(setup: Setup, m: Machine) {
    |m.receive| == |setup.installed|
    && forall t: nat, i: nat :: t < |m.threads| && i < |setup.installed| && setup.installed[i] && Touches(m.threads[t], i) ==>
         m.receive[i] == Selectable(setup, i)
  }

  /** Without flicker a selection flips a stream's flag one way only. */
  lemma FlipsToFinal(setup: Setup, m: Machine, a: Action, i: nat)
    requires Shaped(setup, m) && (a.Select? || a.Advance?) && i < |setup.ports| && setup.installed[i]
    requires forall j :: !Flickers(setup, i, j)
    requires |Apply(setup, m, a).receive| == |setup.ports| && Apply(setup, m, a).receive[i] != m.receive[i]
    ensures Apply(setup, m, a).receive[i] == Selectable(setup, i)
  {
    var th := m.threads[a.t];
    assert ThreadShaped(setup, th);
    if th.Disabling? {
      assert Selectable(setup, th.target);
      assert !Flickers(setup, i, th.target);
    } else {
      assert Selectable(setup, th.target);
    }
  }

  /** A step adds to a thread's list only what it flips. */
  lemma NewOnListIsFlipped(setup: Setup, m: Machine, a: Action, i: nat)
    requires Shaped(setup, m) && (a.Select? || a.Advance?) && a.t < |m.threads| && i < |setup.ports|
    requires Shaped(setup, Apply(setup, m, a)) && |Apply(setup, m, a).threads| == |m.threads|
    requires Touches(Apply(setup, m, a).threads[a.t], i)
    ensures Touches(m.threads[a.t], i) || Apply(setup, m, a).receive[i] != m.receive[i]
  {
    assert ThreadShaped(setup, m.threads[a.t]);
  }

  lemma StepKeepsFinal(setup: Setup, m: Machine, a: Action)
    requires Shaped(setup, m) && Final(setup, m) && (a.Select? || a.Advance?)
    requires forall i, j :: !Flickers(setup, i, j)
    ensures Shaped(setup, Apply(setup, m, a)) && Final(setup, Apply(setup, m, a))
    ensures LeavesLoadsCurrent(setup, m, a)
  {
    ApplyKeepsShape(setup, m, a);
    var next := Apply(setup, m, a);
    if a.t < |m.threads| {
      OnlyAdvanceOrFlip(setup, m, a);
      forall i: nat | i < |setup.installed| && setup.installed[i]
        ensures next.receive[i] == m.receive[i] || next.receive[i] == Selectable(setup, i)
      {
        if next.receive[i] != m.receive[i] {
          FlipsToFinal(setup, m, a, i);
        }
      }
      forall t: nat, i: nat | t < |m.threads| && i < |setup.installed| && setup.installed[i] && Touches(next.threads[t], i)
        ensures next.receive[i] == Selectable(setup, i)
      {
        if t == a.t {
          NewOnListIsFlipped(setup, m, a, i);
        }
      }
      forall t: nat | t < |m.threads| && LoadedForStream(setup, m.threads[t])
        ensures next.receive[m.threads[t].port] == m.receive[m.threads[t].port]
      {
        assert Touches(m.threads[t], m.threads[t].port);
      }
    }
  }

  lemma {:induction false} RunWithoutFlickerIsUninterrupted(setup: Setup, m: Machine, actions: seq<Action>)
    requires Shaped(setup, m) && Final(setup, m) && SelectionsOnly(actions)
    requires forall i, j :: !Flickers(setup, i, j)
    ensures Uninterrupted(setup, m, actions) && Final(setup, Exec(setup, m, actions))
  {
    if actions != [] {
      var n := |actions| - 1;
      RunWithoutFlickerIsUninterrupted(setup, m, actions[..n]);
      StepKeepsFinal(setup, Exec(setup, m, actions[..n]), actions[n]);
    }
  }

  // ---- One caller among others ------------------------------------------------------

  /** m as thread t alone would see it. */
  function Solo(m: Machine, t: nat): Machine
    requires t < |m.threads|
  {
    m.(threads := [m.threads[t]], lock := if m.lock == Some(t) then Some(0) else None)
  }

  /** s, reached by thread t alone, with the other threads of m where they were. */
  function Beside(m: Machine, t: nat, s: Machine): Machine
    requires t < |m.threads| && |s.threads| == 1
  {
    s.(threads := m.threads[t := s.threads[0]], lock := if s.lock == Some(0) then Some(t) else None)
  }

  function As(a: Action, t: nat): Action {
    match a
    case Select(_, ch) => Select(t, ch)
    case SetSend(_, p, e) => SetSend(t, p, e)
    case SetReceive(_, p, e) => SetReceive(t, p, e)
    case Advance(_) => Advance(t)
  }

  function AllAs(actions: seq<Action>, t: nat): (r: seq<Action>)
    ensures |r| == |actions|
  {
    seq(|actions|, k requires 0 <= k < |actions| => As(actions[k], t))
  }

  lemma BesideIsShaped(setup: Setup, m: Machine, t: nat, s: Machine)
    requires Shaped(setup, m) && t < |m.threads| && Shaped(setup, s) && |s.threads| == 1
    ensures Shaped(setup, Beside(m, t, s))
  {
    assert ThreadShaped(setup, s.threads[0]);
    forall u | 0 <= u < |m.threads| ensures ThreadShaped(setup, Beside(m, t, s).threads[u]) {
      assert ThreadShaped(setup, m.threads[u]);
    }
  }

  /** A step of one thread alone is its step among threads that do not hold the lock. */
  lemma StepBeside(setup: Setup, m: Machine, t: nat, s: Machine, a: Action)
    requires Shaped(setup, m) && t < |m.threads| && Shaped(setup, s) && |s.threads| == 1 && s.lock in {None, Some(0)}
    requires (a.Select? || a.Advance?) && a.t == 0
    requires Shaped(setup, Beside(m, t, s))
    ensures |Apply(setup, s, a).threads| == 1 && Apply(setup, s, a).lock in {None, Some(0)}
    ensures Apply(setup, Beside(m, t, s), As(a, t)) == Beside(m, t, Apply(setup, s, a))
  {
    var b, next := Beside(m, t, s), Apply(setup, s, a);
    assert b.threads[t] == s.threads[0];
    assert ThreadShaped(setup, s.threads[0]);
    assert m.threads[t := s.threads[0]][t := next.threads[0]] == m.threads[t := next.threads[0]];
  }

  predicate OfThread0(actions: seq<Action>) {
    forall k :: 0 <= k < |actions| ==> (actions[k].Select? || actions[k].Advance?) && actions[k].t == 0
  }

  lemma {:induction false} RunBeside(setup: Setup, m: Machine, t: nat, s: Machine, actions: seq<Action>)
    requires Shaped(setup, m) && t < |m.threads| && Shaped(setup, s) && |s.threads| == 1 && s.lock in {None, Some(0)}
    requires Shaped(setup, Beside(m, t, s)) && OfThread0(actions)
    ensures Exec(setup, s, actions).lock in {None, Some(0)}
    ensures Exec(setup, Beside(m, t, s), AllAs(actions, t)) == Beside(m, t, Exec(setup, s, actions))
  {
    if actions != [] {
      var n := |actions| - 1;
      assert AllAs(actions, t)[..n] == AllAs(actions[..n], t);
      RunBeside(setup, m, t, s, actions[..n]);
      var at := Exec(setup, s, actions[..n]);
      BesideIsShaped(setup, m, t, at);
      StepBeside(setup, m, t, at, actions[n]);
    }
  }

  lemma {:induction false} AloneIsOfThread0(channel: int, k: nat)
    ensures OfThread0(Alone(channel, k))
  {
    if k > 0 {
      AloneIsOfThread0(channel, k - 1);
    }
  }

  /** What an idle thread reaches alone it reaches among others, by selections. */
  lemma ReachedAmongOthers(setup: Setup, m: Machine, t: nat, channel: int, s: Machine) returns (actions: seq<Action>)
    requires Shaped(setup, m) && t < |m.threads| && m.lock.None?
    requires Shaped(setup, Solo(m, t)) && Follows(setup, Solo(m, t), channel, s)
    ensures SelectionsOnly(actions) && |s.threads| == 1
    ensures Exec(setup, m, actions) == Beside(m, t, s)
  {
    var k: nat :| s == Exec(setup, Solo(m, t), Alone(channel, k));
    AloneIsOfThread0(channel, k);
    assert Beside(m, t, Solo(m, t)) == m;
    RunBeside(setup, m, t, Solo(m, t), Alone(channel, k));
    actions := AllAs(Alone(channel, k), t);
  }

  lemma SoloIsShaped(setup: Setup, m: Machine, t: nat)
    requires Shaped(setup, m) && t < |m.threads|
    ensures Shaped(setup, Solo(m, t))
  {
    assert ThreadShaped(setup, m.threads[t]);
  }

  /** One thread selects and is done; nobody else moves. */
  lemma SelectsAmongOthers(setup: Setup, m: Machine, t: nat, channel: int, target: nat) returns (actions: seq<Action>, next: Machine)
    requires Shaped(setup, m) && t < |m.threads| && m.lock.None? && m.threads[t].Idle?
    requires Target(setup, channel) == Some(target)
    ensures SelectionsOnly(actions) && next == Exec(setup, m, actions)
    ensures next.lock.None? && next.threads == m.threads && OnlyOn(next.send, next.receive, target)
  {
    SoloIsShaped(setup, m, t);
    var solo := Solo(m, t);
    LoneSelectionIsSelected(setup, solo, channel);
    SelectedIsExclusive(setup, solo, channel);
    actions := ReachedAmongOthers(setup, m, t, channel, Selected(setup, solo, channel));
    next := Exec(setup, m, actions);
    assert m.threads[t := Idle] == m.threads;
  }

  /** One thread selects a port that was off, and stops between loading its flag and starting its stream. */
  lemma LoadsAmongOthers(setup: Setup, m: Machine, t: nat, channel: int, target: nat) returns (actions: seq<Action>, next: Machine)
    requires Shaped(setup, m) && t < |m.threads| && m.lock.None? && m.threads[t].Idle?
    requires Target(setup, channel) == Some(target) && !m.receive[target]
    ensures SelectionsOnly(actions) && next == Exec(setup, m, actions)
    ensures next.lock.None? && next.threads == m.threads[t := Applying(target, true, [])]
  {
    SoloIsShaped(setup, m, t);
    var solo := Solo(m, t);
    var s := LoneLoadsTarget(setup, solo, channel, target);
    actions := ReachedAmongOthers(setup, m, t, channel, s);
    next := Exec(setup, m, actions);
  }

  lemma LoneLoadsTarget(setup: Setup, start: Machine, channel: int, target: nat) returns (s: Machine)
    requires Shaped(setup, start) && start.threads == [Idle] && start.lock.None?
    requires Target(setup, channel) == Some(target) && !start.receive[target]
    ensures Follows(setup, start, channel, s) && s.threads == [Applying(target, true, [])] && s.lock.None?
  {
    var d, rx := Decided(setup, start, channel), ReceivingFrom(start.receive, target, 0);
    LoneSelectionIsDecided(setup, start, channel);
    ReceivingFromInRange(start.receive, target, 0);
    LoneReconciles(setup, start, channel, d, rx, [target]);
    var r := d.(running := Realigned(setup.installed, d.receive, d.running, rx));
    assert [target] + [] == [target];
    LoneLoads(setup, start, channel, r, target, []);
    s := With(r, Applying(target, true, []), None);
  }

  // ---- Playback under selections alone: setups that do not ---------------------

  /** Two callers and a port that flickers: some interleaving of three selections leaves its stream running while it does not receive. */
  lemma FlickerBreaksPlayback(setup: Setup, m: Machine, i: nat, j: nat) returns (actions: seq<Action>)
    requires Shaped(setup, m) && Quiescent(m) && m.lock.None? && |m.threads| >= 2
    requires i < |setup.ports| && Flickers(setup, i, j)
    ensures SelectionsOnly(actions) && !PlaybackInStep(setup, Exec(setup, m, actions))
  {
    var on :| Target(setup, on) == Some(i);
    var off :| Target(setup, off) == Some(j);
    var a, m1 := SelectsAmongOthers(setup, m, 0, off, j);
    var b, m2 := LoadsAmongOthers(setup, m1, 0, on, i);
    var c, m3 := SelectsAmongOthers(setup, m2, 1, off, j);
    ExecAppend(setup, m, a, b);
    ExecAppend(setup, m, a + b, c);
    assert IdleBeside(m3, {0});
    actions := StaleActMisleads(setup, m, a + b + c, i);
  }

  /**
   * Streams are in step at every quiet moment of every run of selections exactly if
   * there is one caller, or no port with a stream can be selected while another
   * port can be selected too.
   */
  lemma SelectionsKeepPlaybackIffNoFlicker(setup: Setup, send: seq<bool>, receive: seq<bool>, n: nat)
    requires |send| == |receive| == |setup.installed| == |setup.ports|
    ensures Shaped(setup, Boot(setup, send, receive, n))
    ensures (forall actions :: SelectionsOnly(actions) ==>
               PlaybackInStep(setup, Exec(setup, Boot(setup, send, receive, n), actions)))
            <==> n <= 1 || forall i, j :: !Flickers(setup, i, j)
  {
    var m := Boot(setup, send, receive, n);
    BootIsShaped(setup, send, receive, n);
    if n <= 1 || forall i, j :: !Flickers(setup, i, j) {
      forall actions | SelectionsOnly(actions) ensures PlaybackInStep(setup, Exec(setup, m, actions)) {
        if n <= 1 {
          LoneThreadIsUninterrupted(setup, m, actions);
        } else {
          RunWithoutFlickerIsUninterrupted(setup, m, actions);
        }
        UninterruptedPlaybackInStep(setup, send, receive, n, actions);
      }
    } else {
      var i, j :| Flickers(setup, i, j);
      var actions := FlickerBreaksPlayback(setup, m, i, j);
    }
  }
}
