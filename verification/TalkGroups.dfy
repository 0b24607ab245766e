/**
 * Talk-group selection as interleaved atomic steps.
 *
 * Any number of threads call for selections and per-port toggles. Each atomic
 * swap, the event, the unlock, each load of a receive flag and each start or
 * stop of a playback stream is one step; a scheduler picks whose step is next.
 * An action that cannot be taken (the lock is held, the thread is busy) changes
 * nothing, so every sequence of actions is a run.
 */
module TalkGroups {
  import opened Outcomes

  // ---- Channels and ports ------------------------------------------------------

  const BASE_PORT := 38801
  const STRIDE := 2
  const MAX_CHANNEL := 32

  function TalkGroupPort(channel: int): Option<int> {
    if channel < 1 || channel > MAX_CHANNEL then None else Some(BASE_PORT + (channel - 1) * STRIDE)
  }

  function TalkGroupChannel(port: int): Option<int> {
    var offset := port - BASE_PORT;
    if offset < 0 || offset % STRIDE != 0 then None
    else
      var channel := offset / STRIDE + 1;
      if channel > MAX_CHANNEL then None else Some(channel)
  }

  /** Each map undoes the other, and neither accepts what the other cannot produce. */
  lemma PortAndChannelAreInverse(channel: int, port: int)
    ensures TalkGroupPort(channel) == Some(port) <==> TalkGroupChannel(port) == Some(channel)
  {
  }

  // ---- The machine -----------------------------------------------------------------

  /** What does not change: each port's number, and which ports have a playback stream. */
  datatype Setup = Setup(ports: seq<int>, installed: seq<bool>)

  datatype Event = Event(channel: int, prev: int)

  /**
   * Where a thread is. From Disabling to Unlocking it holds the lock; rx lists
   * the ports whose receive flag it changed and has yet to reconcile.
   */
  datatype Thread =
    | Idle
    | Locking(channel: int, target: nat)
    | Disabling(channel: int, target: nat, i: nat, sendDone: bool, changed: bool, rx: seq<nat>)
    | EnablingSend(channel: int, target: nat, changed: bool, rx: seq<nat>)
    | EnablingReceive(channel: int, target: nat, changed: bool, rx: seq<nat>)
    | Activating(channel: int, target: nat, changed: bool, rx: seq<nat>)
    | Notifying(channel: int, target: nat, prev: int, changed: bool, rx: seq<nat>)
    | Unlocking(rx: seq<nat>)
    | Reconciling(rx: seq<nat>)
    | Applying(port: nat, on: bool, rx: seq<nat>)

  datatype Machine = Machine(
    send: seq<bool>,
    receive: seq<bool>,
    active: int,
    lock: Option<nat>,
    log: seq<Event>,
    running: seq<bool>,
    threads: seq<Thread>)

  datatype Action =
    | Select(t: nat, channel: int)
    | SetSend(t: nat, port: nat, enabled: bool)
    | SetReceive(t: nat, port: nat, enabled: bool)
    | Advance(t: nat)

  function IndexOf(ports: seq<int>, port: int): (r: Option<nat>)
    ensures r.Some? ==> r.value < |ports| && ports[r.value] == port
  {
    if ports == [] then None
    else if ports[0] == port then Some(0)
    else match IndexOf(ports[1..], port)
         case None => None
         case Some(i) => Some(i + 1)
  }

  /** The first port provisioned for a channel. */
  function Target(setup: Setup, channel: int): (r: Option<nat>)
    ensures r.Some? ==> r.value < |setup.ports|
  {
    match TalkGroupPort(channel)
    case None => None
    case Some(port) => IndexOf(setup.ports, port)
  }

  lemma {:induction false} IndexOfIsFirst(ports: seq<int>, port: int)
    ensures match IndexOf(ports, port)
            case None => port !in ports
            case Some(k) => forall j :: 0 <= j < k ==> ports[j] != port
  {
    if ports != [] && ports[0] != port {
      IndexOfIsFirst(ports[1..], port);
      assert ports == [ports[0]] + ports[1..];
    }
  }

  /** A channel is selectable exactly if it is one of the 32 and a port carries its number; the first such port is taken. */
  lemma TargetIsFirstPort(setup: Setup, channel: int)
    ensures match Target(setup, channel)
            case None => TalkGroupPort(channel).None? || TalkGroupPort(channel).value !in setup.ports
            case Some(k) =>
              && TalkGroupPort(channel) == Some(setup.ports[k])
              && forall j :: 0 <= j < k ==> setup.ports[j] != setup.ports[k]
  {
    if TalkGroupPort(channel).Some? {
      IndexOfIsFirst(setup.ports, TalkGroupPort(channel).value);
    }
  }

  predicate Shaped(setup: Setup, m: Machine) {
    && |setup.installed| == |setup.ports|
    && |m.send| == |setup.ports| && |m.receive| == |setup.ports| && |m.running| == |setup.ports|
    && forall t :: 0 <= t < |m.threads| ==> ThreadShaped(setup, m.threads[t])
  }

  predicate InRange(rx: seq<nat>, n: nat) {
    forall k :: 0 <= k < |rx| ==> rx[k] < n
  }

  predicate ThreadShaped(setup: Setup, th: Thread) {
    var n := |setup.ports|;
    match th
    case Idle => true
    case Locking(ch, target) => Target(setup, ch) == Some(target)
    case Disabling(ch, target, i, _, _, rx) =>
      Target(setup, ch) == Some(target) && i <= n && InRange(rx, n)
    case EnablingSend(ch, target, _, rx) => Target(setup, ch) == Some(target) && InRange(rx, n)
    case EnablingReceive(ch, target, _, rx) => Target(setup, ch) == Some(target) && InRange(rx, n)
    case Activating(ch, target, _, rx) => Target(setup, ch) == Some(target) && InRange(rx, n)
    case Notifying(ch, target, _, _, rx) => Target(setup, ch) == Some(target) && InRange(rx, n)
    case Unlocking(rx) => InRange(rx, n)
    case Reconciling(rx) => InRange(rx, n)
    case Applying(port, _, rx) => port < n && InRange(rx, n)
  }

  /** The step a busy thread takes next. */
  function Advanced(setup: Setup, m: Machine, t: nat): Machine
    requires Shaped(setup, m) && t < |m.threads|
  {
    var n := |setup.ports|;
    match m.threads[t]
    case Idle => m
    case Locking(ch, target) =>
      if m.lock.Some? then m
      else m.(lock := Some(t), threads := m.threads[t := Disabling(ch, target, 0, false, false, [])])
    case Disabling(ch, target, i, sendDone, changed, rx) =>
      if i == n then m.(threads := m.threads[t := EnablingSend(ch, target, changed, rx)])
      else if i == target then m.(threads := m.threads[t := Disabling(ch, target, i + 1, false, changed, rx)])
      else if !sendDone then
        m.(send := m.send[i := false],
           threads := m.threads[t := Disabling(ch, target, i, true, changed || m.send[i], rx)])
      else
        m.(receive := m.receive[i := false],
           threads := m.threads[t := Disabling(ch, target, i + 1, false, changed || m.receive[i],
                                               if m.receive[i] then rx + [i] else rx)])
    case EnablingSend(ch, target, changed, rx) =>
      m.(send := m.send[target := true],
         threads := m.threads[t := EnablingReceive(ch, target, changed || !m.send[target], rx)])
    case EnablingReceive(ch, target, changed, rx) =>
      m.(receive := m.receive[target := true],
         threads := m.threads[t := Activating(ch, target, changed || !m.receive[target],
                                              if m.receive[target] then rx else rx + [target])])
    case Activating(ch, target, changed, rx) =>
      m.(active := ch, threads := m.threads[t := Notifying(ch, target, m.active, changed, rx)])
    case Notifying(ch, _, prev, changed, rx) =>
      m.(log := if changed || prev != ch then m.log + [Event(ch, prev)] else m.log,
         threads := m.threads[t := Unlocking(rx)])
    case Unlocking(rx) =>
      m.(lock := None, threads := m.threads[t := Reconciling(rx)])
    case Reconciling(rx) =>
      if rx == [] then m.(threads := m.threads[t := Idle])
      else m.(threads := m.threads[t := Applying(rx[0], m.receive[rx[0]], rx[1..])])
    case Applying(port, on, rx) =>
      m.(running := if setup.installed[port] then m.running[port := on] else m.running,
         threads := m.threads[t := Reconciling(rx)])
  }

  function Apply(setup: Setup, m: Machine, a: Action): Machine
    requires Shaped(setup, m)
  {
    if a.t >= |m.threads| then m
    else if a.Advance? then Advanced(setup, m, a.t)
    else if !m.threads[a.t].Idle? then m
    else match a
         case Select(t, ch) =>
           var target := Target(setup, ch);
           if target.None? then m else m.(threads := m.threads[t := Locking(ch, target.value)])
         case SetSend(t, port, enabled) =>
           if port >= |setup.ports| then m else m.(send := m.send[port := enabled])
         case SetReceive(t, port, enabled) =>
           if port >= |setup.ports| || m.receive[port] == enabled then m
           else m.(receive := m.receive[port := enabled], threads := m.threads[t := Reconciling([port])])
  }

  lemma ApplyKeepsThreadShaped(setup: Setup, m: Machine, a: Action)
    requires Shaped(setup, m) && a.t < |m.threads|
    ensures var next := Apply(setup, m, a);
            |next.threads| == |m.threads| && ThreadShaped(setup, next.threads[a.t])
  {
    assert ThreadShaped(setup, m.threads[a.t]);
  }

  lemma ApplyKeepsOthers(setup: Setup, m: Machine, a: Action)
    requires Shaped(setup, m)
    ensures var next := Apply(setup, m, a);
            && |next.send| == |m.send| && |next.receive| == |m.receive| && |next.running| == |m.running|
            && |next.threads| == |m.threads|
            && forall t :: 0 <= t < |m.threads| && t != a.t ==> next.threads[t] == m.threads[t]
  {
    assert a.t < |m.threads| ==> ThreadShaped(setup, m.threads[a.t]);
  }

  lemma ApplyKeepsShape(setup: Setup, m: Machine, a: Action)
    requires Shaped(setup, m)
    ensures Shaped(setup, Apply(setup, m, a)) && |Apply(setup, m, a).threads| == |m.threads|
  {
    ApplyKeepsOthers(setup, m, a);
    if a.t < |m.threads| {
      ApplyKeepsThreadShaped(setup, m, a);
    }
  }

  /** A toggle of an idle caller sets that flag; a receive flag that really changes is owed a look at its stream. */
  lemma TogglesSetFlags(setup: Setup, m: Machine, t: nat, port: nat, enabled: bool)
    requires Shaped(setup, m) && t < |m.threads| && m.threads[t] == Idle && port < |setup.ports|
    ensures Apply(setup, m, SetSend(t, port, enabled)) == m.(send := m.send[port := enabled])
    ensures Apply(setup, m, SetReceive(t, port, enabled)) ==
              if m.receive[port] == enabled then m
              else m.(receive := m.receive[port := enabled], threads := m.threads[t := Reconciling([port])])
  {
  }

  function Exec(setup: Setup, m: Machine, actions: seq<Action>): (r: Machine)
    requires Shaped(setup, m)
    ensures Shaped(setup, r) && |r.threads| == |m.threads|
  {
    if actions == [] then m
    else
      var before := Exec(setup, m, actions[..|actions| - 1]);
      ApplyKeepsShape(setup, before, actions[|actions| - 1]);
      Apply(setup, before, actions[|actions| - 1])
  }

  predicate SelectionsOnly(actions: seq<Action>) {
    forall a :: a in actions ==> a.Select? || a.Advance?
  }

  // ---- Boot ------------------------------------------------------------------------

  /** The first port with both flags on that belongs to a talk group names the active channel. */
  function SeedChannel(setup: Setup, send: seq<bool>, receive: seq<bool>): int
    requires |send| == |receive| == |setup.ports|
    decreases |send|
  {
    if setup.ports == [] then 0
    else if send[0] && receive[0] && TalkGroupChannel(setup.ports[0]).Some? then TalkGroupChannel(setup.ports[0]).value
    else SeedChannel(setup.(ports := setup.ports[1..]), send[1..], receive[1..])
  }

  /** Boot with the given flags: streams run where receiving is on, and n threads are ready. */
  function Boot(setup: Setup, send: seq<bool>, receive: seq<bool>, n: nat): Machine
    requires |send| == |receive| == |setup.installed| == |setup.ports|
  {
    var ch := SeedChannel(setup, send, receive);
    Machine(send, receive, ch, None,
            if ch == 0 then [] else [Event(ch, 0)],
            seq(|send|, i requires 0 <= i < |send| => setup.installed[i] && receive[i]),
            seq(n, _ => Idle))
  }

  // ---- Selection-only runs -------------------------------------------------------

  predicate On(send: seq<bool>, receive: seq<bool>, i: int) {
    0 <= i < |send| && 0 <= i < |receive| && (send[i] || receive[i])
  }

  /** Every enabled flag sits on one port. */
  ghost predicate Exclusive(send: seq<bool>, receive: seq<bool>) {
    forall i, j :: On(send, receive, i) && On(send, receive, j) ==> i == j
  }

  /** Port p has both directions on and no other port has either. */
  ghost predicate OnlyOn(send: seq<bool>, receive: seq<bool>, p: nat) {
    && (forall i :: 0 <= i < |send| ==> send[i] == (i == p))
    && (forall i :: 0 <= i < |receive| ==> receive[i] == (i == p))
  }

  ghost predicate OffBeside(send: seq<bool>, receive: seq<bool>, p: nat) {
    forall i :: On(send, receive, i) ==> i == p
  }

  /** The flags say what the active channel says. */
  ghost predicate Settled(setup: Setup, m: Machine) {
    if m.active == 0 then forall i :: !On(m.send, m.receive, i)
    else Target(setup, m.active).Some? && OnlyOn(m.send, m.receive, Target(setup, m.active).value)
  }

  function LastChannel(log: seq<Event>): int {
    if log == [] then 0 else log[|log| - 1].channel
  }

  /** Each event names its predecessor's channel as the previous one; from index from on it also names a different one as its own. */
  ghost predicate Chained(log: seq<Event>, from: nat) {
    && (forall k :: 0 <= k < |log| ==> log[k].prev == LastChannel(log[..k]))
    && (forall k :: from <= k < |log| ==> log[k].channel != log[k].prev)
  }

  predicate Holds(th: Thread) {
    !th.Idle? && !th.Locking? && !th.Reconciling? && !th.Applying?
  }

  /** What holds of the flags, the channel and the log at each step inside the lock. */
  ghost predicate Phase(setup: Setup, m: Machine, th: Thread) {
    match th
    case Disabling(ch, target, i, sendDone, changed, _) =>
      && Exclusive(m.send, m.receive) && LastChannel(m.log) == m.active
      && (forall j :: On(m.send, m.receive, j) && j < i ==> j == target)
      && (sendDone ==> i < |m.send| && i != target && !m.send[i])
      && (m.active == ch ==> !changed && OnlyOn(m.send, m.receive, target))
    case EnablingSend(ch, target, changed, _) =>
      && OffBeside(m.send, m.receive, target) && LastChannel(m.log) == m.active
      && (m.active == ch ==> !changed && OnlyOn(m.send, m.receive, target))
    case EnablingReceive(ch, target, changed, _) =>
      && OffBeside(m.send, m.receive, target) && LastChannel(m.log) == m.active
      && target < |m.send| && m.send[target]
      && (m.active == ch ==> !changed && OnlyOn(m.send, m.receive, target))
    case Activating(ch, target, changed, _) =>
      && OnlyOn(m.send, m.receive, target) && LastChannel(m.log) == m.active
      && (m.active == ch ==> !changed)
    case Notifying(ch, target, prev, changed, _) =>
      && OnlyOn(m.send, m.receive, target) && m.active == ch && LastChannel(m.log) == prev
      && (prev == ch ==> !changed)
    case Unlocking(_) => Settled(setup, m) && LastChannel(m.log) == m.active
    case _ => false
  }

  ghost predicate Selecting(setup: Setup, m: Machine, from: nat) {
    && from <= |m.log| && Chained(m.log, from)
    && (m.lock.None? ==>
          Settled(setup, m) && LastChannel(m.log) == m.active
          && forall t :: 0 <= t < |m.threads| ==> !Holds(m.threads[t]))
    && (m.lock.Some? ==>
          && m.lock.value < |m.threads| && Phase(setup, m, m.threads[m.lock.value])
          && forall t :: 0 <= t < |m.threads| && t != m.lock.value ==> !Holds(m.threads[t]))
  }

  /** Readers of the flags never see two ports active, at any step. */
  lemma SelectingIsExclusive(setup: Setup, m: Machine, from: nat)
    requires Selecting(setup, m, from)
    ensures Exclusive(m.send, m.receive)
  {
  }

  lemma LastSwapCompletes(send: seq<bool>, receive: seq<bool>, p: nat)
    requires |send| == |receive| && p < |send| && send[p] && OffBeside(send, receive, p)
    ensures OnlyOn(send, receive[p := true], p)
  {
    forall i | 0 <= i < |send| && i != p ensures !send[i] && !receive[i] {
      assert !On(send, receive, i);
    }
  }

  lemma DisablingStep(setup: Setup, m: Machine, t: nat)
    requires Shaped(setup, m) && t < |m.threads| && m.threads[t].Disabling? && Phase(setup, m, m.threads[t])
    ensures var next := Advanced(setup, m, t); Phase(setup, next, next.threads[t])
  {
    assert ThreadShaped(setup, m.threads[t]);
    var next := Advanced(setup, m, t);
    var i, target, sendDone := m.threads[t].i, m.threads[t].target, m.threads[t].sendDone;
    assert forall j :: On(next.send, next.receive, j) ==> On(m.send, m.receive, j);
    assert i < |m.send| && i != target && sendDone ==> !On(next.send, next.receive, i);
  }

  lemma EnablingStep(setup: Setup, m: Machine, t: nat)
    requires Shaped(setup, m) && t < |m.threads| && Phase(setup, m, m.threads[t])
    requires m.threads[t].EnablingSend? || m.threads[t].EnablingReceive?
    ensures var next := Advanced(setup, m, t); Phase(setup, next, next.threads[t])
  {
    assert ThreadShaped(setup, m.threads[t]);
    var next := Advanced(setup, m, t);
    var target := m.threads[t].target;
    if m.threads[t].EnablingSend? {
      assert forall j :: On(next.send, next.receive, j) ==> j == target || On(m.send, m.receive, j);
    } else {
      LastSwapCompletes(m.send, m.receive, target);
    }
  }

  lemma NotifyingStep(setup: Setup, m: Machine, t: nat, from: nat)
    requires Shaped(setup, m) && t < |m.threads| && Phase(setup, m, m.threads[t]) && from <= |m.log| && Chained(m.log, from)
    requires m.threads[t].Notifying?
    ensures var next := Advanced(setup, m, t); Phase(setup, next, next.threads[t]) && from <= |next.log| && Chained(next.log, from)
  {
    assert ThreadShaped(setup, m.threads[t]);
    var next := Advanced(setup, m, t);
    if next.log != m.log {
      assert next.log[..|m.log|] == m.log;
      assert forall k :: 0 <= k < |m.log| ==> next.log[..k] == m.log[..k];
    }
  }

  lemma HolderStepKeepsSelecting(setup: Setup, m: Machine, t: nat, from: nat)
    requires Shaped(setup, m) && Selecting(setup, m, from) && m.lock == Some(t)
    ensures Selecting(setup, Advanced(setup, m, t), from)
  {
    var th := m.threads[t];
    assert ThreadShaped(setup, th) && Phase(setup, m, th);
    var next := Advanced(setup, m, t);
    assert forall u :: 0 <= u < |m.threads| && u != t ==> next.threads[u] == m.threads[u];
    if th.Disabling? {
      DisablingStep(setup, m, t);
    } else if th.EnablingSend? || th.EnablingReceive? {
      EnablingStep(setup, m, t);
    } else if th.Notifying? {
      NotifyingStep(setup, m, t, from);
    }
  }

  /** A step outside the lock leaves flags, channel and log alone, and takes the lock at most to start disabling. */
  lemma OtherStepTakesLockAtMost(setup: Setup, m: Machine, t: nat)
    requires Shaped(setup, m) && t < |m.threads| && !Holds(m.threads[t])
    ensures var next := Advanced(setup, m, t);
            && next.send == m.send && next.receive == m.receive && next.active == m.active && next.log == m.log
            && |next.threads| == |m.threads| && (forall u :: 0 <= u < |m.threads| && u != t ==> next.threads[u] == m.threads[u])
            && (if m.threads[t].Locking? && m.lock.None?
                then next.lock == Some(t)
                     && next.threads[t] == Disabling(m.threads[t].channel, m.threads[t].target, 0, false, false, [])
                else next.lock == m.lock && !Holds(next.threads[t]))
  {
    assert ThreadShaped(setup, m.threads[t]);
  }

  lemma OtherStepKeepsSelecting(setup: Setup, m: Machine, t: nat, from: nat)
    requires Shaped(setup, m) && Selecting(setup, m, from) && t < |m.threads| && m.lock != Some(t)
    ensures Selecting(setup, Advanced(setup, m, t), from)
  {
    assert ThreadShaped(setup, m.threads[t]);
    OtherStepTakesLockAtMost(setup, m, t);
  }

  lemma StepKeepsSelecting(setup: Setup, m: Machine, a: Action, from: nat)
    requires Shaped(setup, m) && Selecting(setup, m, from) && (a.Select? || a.Advance?)
    ensures Selecting(setup, Apply(setup, m, a), from)
  {
    if a.t < |m.threads| && a.Advance? {
      if m.lock == Some(a.t) {
        HolderStepKeepsSelecting(setup, m, a.t, from);
      } else {
        OtherStepKeepsSelecting(setup, m, a.t, from);
      }
    }
  }

  // ---- Which boots make selection exclusive ------------------------------------

  /** Nothing is on, or one talk-group port is on both ways, alone, and is the first of its number. */
  ghost predicate CleanBoot(setup: Setup, send: seq<bool>, receive: seq<bool>)
    requires |send| == |receive| == |setup.ports|
  {
    || (forall i :: !On(send, receive, i))
    || exists p: nat :: p < |setup.ports| && OnlyOn(send, receive, p)
                        && TalkGroupChannel(setup.ports[p]).Some? && IndexOf(setup.ports, setup.ports[p]) == Some(p)
  }

  lemma {:induction false} SeedOfNothing(setup: Setup, send: seq<bool>, receive: seq<bool>)
    requires |send| == |receive| == |setup.ports|
    requires forall i :: 0 <= i < |send| ==> !send[i]
    ensures SeedChannel(setup, send, receive) == 0
    decreases |send|
  {
    if setup.ports != [] {
      SeedOfNothing(setup.(ports := setup.ports[1..]), send[1..], receive[1..]);
    }
  }

  lemma {:induction false} SeedOfOnly(setup: Setup, send: seq<bool>, receive: seq<bool>, p: nat)
    requires |send| == |receive| == |setup.ports| && p < |send|
    requires forall i :: 0 <= i < |send| ==> send[i] == (i == p) && receive[i] == (i == p)
    requires TalkGroupChannel(setup.ports[p]).Some?
    ensures SeedChannel(setup, send, receive) == TalkGroupChannel(setup.ports[p]).value
    decreases |send|
  {
    if p > 0 {
      SeedOfOnly(setup.(ports := setup.ports[1..]), send[1..], receive[1..], p - 1);
    }
  }

  lemma CleanBootIsSettled(setup: Setup, send: seq<bool>, receive: seq<bool>, n: nat)
    requires |send| == |receive| == |setup.installed| == |setup.ports|
    ensures CleanBoot(setup, send, receive) <==> Settled(setup, Boot(setup, send, receive, n))
  {
    var m := Boot(setup, send, receive, n);
    if forall i :: !On(send, receive, i) {
      forall i | 0 <= i < |send| ensures !send[i] {
        assert !On(send, receive, i);
      }
      SeedOfNothing(setup, send, receive);
    } else if CleanBoot(setup, send, receive) {
      var p: nat :| p < |setup.ports| && OnlyOn(send, receive, p)
                    && TalkGroupChannel(setup.ports[p]).Some? && IndexOf(setup.ports, setup.ports[p]) == Some(p);
      SeedOfOnly(setup, send, receive, p);
      PortAndChannelAreInverse(m.active, setup.ports[p]);
    }
    if m.active != 0 && Target(setup, m.active).Some? {
      PortAndChannelAreInverse(m.active, setup.ports[Target(setup, m.active).value]);
    }
  }

  lemma BootIsShaped(setup: Setup, send: seq<bool>, receive: seq<bool>, n: nat)
    requires |send| == |receive| == |setup.installed| == |setup.ports|
    ensures Shaped(setup, Boot(setup, send, receive, n))
  {
  }

  lemma {:induction false} RunKeepsSelecting(setup: Setup, m: Machine, actions: seq<Action>, from: nat)
    requires Shaped(setup, m) && Selecting(setup, m, from) && SelectionsOnly(actions)
    ensures Selecting(setup, Exec(setup, m, actions), from)
  {
    if actions != [] {
      var n := |actions| - 1;
      RunKeepsSelecting(setup, m, actions[..n], from);
      StepKeepsSelecting(setup, Exec(setup, m, actions[..n]), actions[n], from);
    }
  }

  /**
   * What selection promises at a state: no two ports ever active at once; the
   * events form a chain, from index from on naming a new channel each; and with the
   * lock free, the flags and the last event are those of the active channel.
   */
  ghost predicate Promise(setup: Setup, m: Machine, from: nat) {
    && Exclusive(m.send, m.receive)
    && Chained(m.log, from)
    && (m.lock.None? ==> Settled(setup, m) && LastChannel(m.log) == m.active)
  }

  /** The promise, flag by flag and event by event. */
  lemma PromiseMeans(setup: Setup, m: Machine, from: nat)
    requires Shaped(setup, m) && Promise(setup, m, from)
    ensures forall i, j :: 0 <= i < |setup.ports| && 0 <= j < |setup.ports| && (m.send[i] || m.receive[i]) && (m.send[j] || m.receive[j])
              ==> i == j
    ensures m.lock.None? && m.active == 0 ==> forall i :: 0 <= i < |setup.ports| ==> !m.send[i] && !m.receive[i]
    ensures m.lock.None? && m.active != 0 ==>
              && Target(setup, m.active).Some?
              && forall i :: 0 <= i < |setup.ports| ==> m.send[i] == m.receive[i] == (i == Target(setup, m.active).value)
    ensures forall k :: 0 <= k < |m.log| ==> m.log[k].prev == if k == 0 then 0 else m.log[k - 1].channel
    ensures forall k :: from <= k < |m.log| ==> m.log[k].channel != m.log[k].prev
    ensures m.lock.None? ==> m.active == if m.log == [] then 0 else m.log[|m.log| - 1].channel
  {
    forall i, j | 0 <= i < |setup.ports| && 0 <= j < |setup.ports| && (m.send[i] || m.receive[i]) && (m.send[j] || m.receive[j])
      ensures i == j
    {
      assert On(m.send, m.receive, i) && On(m.send, m.receive, j);
    }
    if m.lock.None? && m.active == 0 {
      forall i | 0 <= i < |setup.ports| ensures !m.send[i] && !m.receive[i] {
        assert !On(m.send, m.receive, i);
      }
    }
    forall k | 0 <= k < |m.log| ensures m.log[k].prev == if k == 0 then 0 else m.log[k - 1].channel {
      assert m.log[k].prev == LastChannel(m.log[..k]);
    }
  }

  /** In every interleaving of selections the promise holds, exactly if the boot flags were clean. */
  lemma SelectionsKeepPromiseIffCleanBoot(setup: Setup, send: seq<bool>, receive: seq<bool>, n: nat)
    requires |send| == |receive| == |setup.installed| == |setup.ports|
    ensures Shaped(setup, Boot(setup, send, receive, n))
    ensures (forall actions :: SelectionsOnly(actions) ==>
               Promise(setup, Exec(setup, Boot(setup, send, receive, n), actions), 0))
            <==> CleanBoot(setup, send, receive)
  {
    var m := Boot(setup, send, receive, n);
    BootIsShaped(setup, send, receive, n);
    CleanBootIsSettled(setup, send, receive, n);
    if CleanBoot(setup, send, receive) {
      assert Selecting(setup, m, 0);
      forall actions | SelectionsOnly(actions) ensures Promise(setup, Exec(setup, m, actions), 0) {
        RunKeepsSelecting(setup, m, actions, 0);
        SelectingIsExclusive(setup, Exec(setup, m, actions), 0);
      }
    } else {
      assert SelectionsOnly([]) && Exec(setup, m, []) == m;
    }
  }

  // ---- Playback ------------------------------------------------------------------

  /** Ports a thread has yet to look at. */
  function ToReconcile(th: Thread): seq<nat> {
    match th
    case Idle => []
    case Locking(_, _) => []
    case Disabling(_, _, _, _, _, rx) => rx
    case EnablingSend(_, _, _, rx) => rx
    case EnablingReceive(_, _, _, rx) => rx
    case Activating(_, _, _, rx) => rx
    case Notifying(_, _, _, _, rx) => rx
    case Unlocking(rx) => rx
    case Reconciling(rx) => rx
    case Applying(_, _, rx) => rx
  }

  /** Thread th is about to bring port i's stream in line with the flag. */
  predicate Owes(th: Thread, i: nat, flag: bool) {
    i in ToReconcile(th) || (th.Applying? && th.port == i && th.on == flag)
  }

  /** Port i's stream runs exactly when it exists and the port receives. */
  predicate InStep(setup: Setup, m: Machine, i: nat)
    requires Shaped(setup, m) && i < |setup.ports|
  {
    m.running[i] == (setup.installed[i] && m.receive[i])
  }

  predicate OwedByOne(setup: Setup, m: Machine, i: nat)
    requires Shaped(setup, m) && i < |setup.ports|
  {
    exists t :: 0 <= t < |m.threads| && Owes(m.threads[t], i, m.receive[i])
  }

  /** Every port is in step or about to be, and nobody is about to apply a flag that has changed. */
  predicate Reconciled(setup: Setup, m: Machine)
    requires Shaped(setup, m)
  {
    && (forall i: nat :: i < |setup.ports| ==> InStep(setup, m, i) || OwedByOne(setup, m, i))
    && (forall i: nat :: i < |setup.ports| && m.running[i] ==> setup.installed[i])
    && (forall t :: 0 <= t < |m.threads| && LoadedForStream(setup, m.threads[t]) ==>
          m.threads[t].on == m.receive[m.threads[t].port])
  }

  /** The thread has loaded the flag of a port with a stream and is about to start or stop it. */
  predicate LoadedForStream(setup: Setup, th: Thread) {
    th.Applying? && th.port < |setup.installed| && setup.installed[th.port]
  }

  /** The action flips no receive flag of a stream between another thread's load of it and that thread's start or stop. */
  predicate LeavesLoadsCurrent(setup: Setup, m: Machine, a: Action)
    requires Shaped(setup, m)
  {
    var next := Apply(setup, m, a);
    ApplyKeepsShape(setup, m, a);
    forall t :: 0 <= t < |m.threads| && LoadedForStream(setup, m.threads[t]) ==>
      next.receive[m.threads[t].port] == m.receive[m.threads[t].port]
  }

  predicate Uninterrupted(setup: Setup, m: Machine, actions: seq<Action>)
    requires Shaped(setup, m)
  {
    actions == [] ||
    (Uninterrupted(setup, m, actions[..|actions| - 1])
     && LeavesLoadsCurrent(setup, Exec(setup, m, actions[..|actions| - 1]), actions[|actions| - 1]))
  }

  predicate Quiescent(m: Machine) {
    forall t :: 0 <= t < |m.threads| ==> m.threads[t].Idle?
  }

  /** A thread that owes port i something still does after its step, or has just done it. */
  lemma OwnStepPaysOrKeepsOwing(setup: Setup, m: Machine, t: nat, i: nat)
    requires Shaped(setup, m) && t < |m.threads| && i < |setup.ports|
    requires m.running[i] ==> setup.installed[i]
    requires Owes(m.threads[t], i, m.receive[i])
    ensures var next := Advanced(setup, m, t);
            |next.running| == |next.receive| == |setup.ports| && |next.threads| == |m.threads|
            && (Owes(next.threads[t], i, next.receive[i]) || next.running[i] == (setup.installed[i] && next.receive[i]))
  {
    assert ThreadShaped(setup, m.threads[t]);
    var th := m.threads[t];
    if th.Reconciling? && th.rx != [] && i != th.rx[0] {
      assert i in th.rx[1..];
    }
  }

  /** A step that flips port i's flag makes its thread owe the port. */
  lemma FlipperOwes(setup: Setup, m: Machine, a: Action, i: nat)
    requires Shaped(setup, m) && a.t < |m.threads| && i < |setup.ports|
    requires |Apply(setup, m, a).receive| == |setup.ports| && |Apply(setup, m, a).threads| == |m.threads|
    requires Apply(setup, m, a).receive[i] != m.receive[i]
    ensures i in ToReconcile(Apply(setup, m, a).threads[a.t])
  {
    assert ThreadShaped(setup, m.threads[a.t]);
  }

  /** A step that leaves port i's flag alone and owes it nothing leaves its stream alone or in step. */
  lemma UnowedStreamIsLeftAlone(setup: Setup, m: Machine, a: Action, i: nat)
    requires Shaped(setup, m) && a.t < |m.threads| && i < |setup.ports| && Reconciled(setup, m)
    requires |Apply(setup, m, a).running| == |setup.ports|
    requires InStep(setup, m, i) && Apply(setup, m, a).receive == m.receive
    ensures Apply(setup, m, a).running[i] == (setup.installed[i] && m.receive[i])
  {
    assert ThreadShaped(setup, m.threads[a.t]);
  }

  lemma OnlyAdvanceOrFlip(setup: Setup, m: Machine, a: Action)
    requires Shaped(setup, m) && a.t < |m.threads|
    ensures var next := Apply(setup, m, a);
            && (next.receive != m.receive ==> next.running == m.running)
            && (forall u :: 0 <= u < |m.threads| && u != a.t ==> u < |next.threads| && next.threads[u] == m.threads[u])
            && (!a.Advance? && next.receive == m.receive ==>
                  next.running == m.running && |next.threads| == |m.threads|
                  && (next.threads == m.threads || next.threads[a.t].Locking?) && (a.Select? || next.threads == m.threads))
            && (!a.Advance? && next.threads != m.threads ==> m.threads[a.t].Idle?)
  {
    assert ThreadShaped(setup, m.threads[a.t]);
  }

  /** What one step does to what port i is owed. */
  lemma StepKeepsPortOwed(setup: Setup, m: Machine, a: Action, i: nat)
    requires Shaped(setup, m) && Reconciled(setup, m) && LeavesLoadsCurrent(setup, m, a) && i < |setup.ports|
    requires a.t < |m.threads|
    ensures Shaped(setup, Apply(setup, m, a))
    ensures InStep(setup, Apply(setup, m, a), i) || OwedByOne(setup, Apply(setup, m, a), i)
  {
    ApplyKeepsShape(setup, m, a);
    OnlyAdvanceOrFlip(setup, m, a);
    var next := Apply(setup, m, a);
    if next.receive[i] != m.receive[i] {
      FlipperOwes(setup, m, a, i);
      assert Owes(next.threads[a.t], i, next.receive[i]);
    } else if InStep(setup, m, i) {
      if next.receive == m.receive {
        UnowedStreamIsLeftAlone(setup, m, a, i);
      }
    } else {
      var t :| 0 <= t < |m.threads| && Owes(m.threads[t], i, m.receive[i]);
      if t == a.t && a.Advance? {
        OwnStepPaysOrKeepsOwing(setup, m, t, i);
      }
      assert InStep(setup, next, i) || Owes(next.threads[t], i, next.receive[i]);
    }
  }

  /** A loaded flag stays what the thread loaded, and a new load is current. */
  lemma StepKeepsLoadsCurrent(setup: Setup, m: Machine, a: Action, t: nat)
    requires Shaped(setup, m) && Reconciled(setup, m) && LeavesLoadsCurrent(setup, m, a)
    requires Shaped(setup, Apply(setup, m, a))
    requires t < |m.threads| && t < |Apply(setup, m, a).threads| && LoadedForStream(setup, Apply(setup, m, a).threads[t])
    ensures var th := Apply(setup, m, a).threads[t];
            ThreadShaped(setup, th) && th.on == Apply(setup, m, a).receive[th.port]
  {
    assert ThreadShaped(setup, Apply(setup, m, a).threads[t]);
    ApplyKeepsOthers(setup, m, a);
    if t == a.t {
      OwnLoadIsCurrent(setup, m, a);
    }
  }

  /** A thread that has loaded a flag after its own step loaded it in that step. */
  lemma OwnLoadIsCurrent(setup: Setup, m: Machine, a: Action)
    requires Shaped(setup, m) && a.t < |m.threads| && a.t < |Apply(setup, m, a).threads|
    requires LeavesLoadsCurrent(setup, m, a) && Reconciled(setup, m)
    requires LoadedForStream(setup, Apply(setup, m, a).threads[a.t])
    ensures var next := Apply(setup, m, a);
            next.threads[a.t].port < |next.receive| && next.threads[a.t].on == next.receive[next.threads[a.t].port]
  {
    assert ThreadShaped(setup, m.threads[a.t]);
  }

  lemma StepRunsInstalledOnly(setup: Setup, m: Machine, a: Action, i: nat)
    requires Shaped(setup, m) && i < |setup.ports| && (m.running[i] ==> setup.installed[i])
    requires Shaped(setup, Apply(setup, m, a))
    ensures Apply(setup, m, a).running[i] ==> setup.installed[i]
  {
    if a.t < |m.threads| {
      assert ThreadShaped(setup, m.threads[a.t]);
    }
  }

  lemma StepKeepsReconciled(setup: Setup, m: Machine, a: Action)
    requires Shaped(setup, m) && Reconciled(setup, m) && LeavesLoadsCurrent(setup, m, a)
    ensures Shaped(setup, Apply(setup, m, a)) && Reconciled(setup, Apply(setup, m, a))
  {
    ApplyKeepsShape(setup, m, a);
    var next := Apply(setup, m, a);
    if a.t < |m.threads| {
      forall i: nat | i < |setup.ports|
        ensures (InStep(setup, next, i) || OwedByOne(setup, next, i)) && (next.running[i] ==> setup.installed[i])
      {
        StepKeepsPortOwed(setup, m, a, i);
        StepRunsInstalledOnly(setup, m, a, i);
      }
      forall t | 0 <= t < |next.threads| && LoadedForStream(setup, next.threads[t])
        ensures ThreadShaped(setup, next.threads[t]) && next.threads[t].on == next.receive[next.threads[t].port]
      {
        StepKeepsLoadsCurrent(setup, m, a, t);
      }
    }
  }

  lemma {:induction false} RunKeepsReconciled(setup: Setup, m: Machine, actions: seq<Action>)
    requires Shaped(setup, m) && Reconciled(setup, m) && Uninterrupted(setup, m, actions)
    ensures Reconciled(setup, Exec(setup, m, actions))
  {
    if actions != [] {
      var n := |actions| - 1;
      RunKeepsReconciled(setup, m, actions[..n]);
      StepKeepsReconciled(setup, Exec(setup, m, actions[..n]), actions[n]);
    }
  }

  /** With every thread done, each installed stream runs exactly when its port receives. */
  ghost predicate PlaybackInStep(setup: Setup, m: Machine)
    requires Shaped(setup, m)
  {
    Quiescent(m) ==> forall i: nat :: i < |setup.ports| ==> InStep(setup, m, i)
  }

  /**
   * Any mix of selections and toggles, as long as no receive flag flips between
   * a thread's load of it and the start or stop that follows.
   */
  lemma UninterruptedPlaybackInStep(setup: Setup, send: seq<bool>, receive: seq<bool>, n: nat, actions: seq<Action>)
    requires |send| == |receive| == |setup.installed| == |setup.ports|
    requires Shaped(setup, Boot(setup, send, receive, n))
    requires Uninterrupted(setup, Boot(setup, send, receive, n), actions)
    ensures PlaybackInStep(setup, Exec(setup, Boot(setup, send, receive, n), actions))
  {
    RunKeepsReconciled(setup, Boot(setup, send, receive, n), actions);
  }

  lemma LoneThreadFlipsNothingLoaded(setup: Setup, m: Machine, a: Action)
    requires Shaped(setup, m) && |m.threads| <= 1
    ensures LeavesLoadsCurrent(setup, m, a)
  {
  }

  lemma {:induction false} LoneThreadIsUninterrupted(setup: Setup, m: Machine, actions: seq<Action>)
    requires Shaped(setup, m) && |m.threads| <= 1
    ensures Uninterrupted(setup, m, actions)
  {
    if actions != [] {
      var n := |actions| - 1;
      LoneThreadIsUninterrupted(setup, m, actions[..n]);
      LoneThreadFlipsNothingLoaded(setup, Exec(setup, m, actions[..n]), actions[n]);
    }
  }

  lemma {:induction false} NoStreamNothingRuns(setup: Setup, m: Machine, actions: seq<Action>)
    requires Shaped(setup, m) && (forall i :: 0 <= i < |setup.installed| ==> !setup.installed[i])
    requires forall i :: 0 <= i < |m.running| ==> !m.running[i]
    ensures forall i :: 0 <= i < |setup.ports| ==> !Exec(setup, m, actions).running[i]
  {
    if actions != [] {
      NoStreamNothingRuns(setup, m, actions[..|actions| - 1]);
    }
  }

  function Twice(setup: Setup, m: Machine, a: Action, b: Action): (r: Machine)
    requires Shaped(setup, m)
    ensures Shaped(setup, r) && |r.threads| == |m.threads|
  {
    ApplyKeepsShape(setup, m, a);
    ApplyKeepsShape(setup, Apply(setup, m, a), b);
    Apply(setup, Apply(setup, m, a), b)
  }

  lemma ExecTwice(setup: Setup, m: Machine, actions: seq<Action>, a: Action, b: Action)
    requires Shaped(setup, m)
    ensures Exec(setup, m, actions + [a, b]) == Twice(setup, Exec(setup, m, actions), a, b)
  {
    var all := actions + [a, b];
    assert all[..|all| - 1] == actions + [a];
    assert (actions + [a])[..|actions|] == actions;
  }

  /** A toggle that changes the flag, up to the load of what it wrote. */
  lemma ToggleAndLoad(setup: Setup, m: Machine, t: nat, i: nat, b: bool)
    requires Shaped(setup, m) && t < |m.threads| && m.threads[t].Idle? && i < |setup.ports| && m.receive[i] == !b
    ensures Twice(setup, m, SetReceive(t, i, b), Advance(t))
            == m.(receive := m.receive[i := b], threads := m.threads[t := Applying(i, b, [])])
  {
    var rx: seq<nat> := [i];
    assert rx[1..] == [];
    assert m.threads[t := Reconciling([i])][t := Applying(i, b, [])] == m.threads[t := Applying(i, b, [])];
  }

  /** The start or stop of a stream, and the thread is done. */
  lemma ActAndFinish(setup: Setup, m: Machine, t: nat, i: nat, on: bool)
    requires Shaped(setup, m) && t < |m.threads| && m.threads[t] == Applying(i, on, [])
    requires i < |setup.ports| && setup.installed[i]
    ensures Twice(setup, m, Advance(t), Advance(t))
            == m.(running := m.running[i := on], threads := m.threads[t := Idle])
  {
    assert m.threads[t := Reconciling([])][t := Idle] == m.threads[t := Idle];
  }

  /** Every thread but those listed is idle. */
  ghost predicate IdleBeside(m: Machine, busy: set<nat>) {
    forall t: nat :: t < |m.threads| && t !in busy ==> m.threads[t].Idle?
  }

  /** Thread 0 still has to act on a value the flag no longer has. */
  lemma StaleActMisleads(setup: Setup, m: Machine, sofar: seq<Action>, i: nat) returns (actions: seq<Action>)
    requires Shaped(setup, m) && i < |setup.ports| && setup.installed[i]
    requires var s := Exec(setup, m, sofar);
             0 < |s.threads| && s.threads[0] == Applying(i, !s.receive[i], []) && IdleBeside(s, {0})
    ensures actions == sofar + [Advance(0), Advance(0)]
    ensures !PlaybackInStep(setup, Exec(setup, m, actions))
  {
    var s := Exec(setup, m, sofar);
    actions := sofar + [Advance(0), Advance(0)];
    ExecTwice(setup, m, sofar, Advance(0), Advance(0));
    ActAndFinish(setup, s, 0, i, !s.receive[i]);
    assert !InStep(setup, Exec(setup, m, actions), i);
  }

  /** Thread 0 has loaded the flag; thread 1 flips it and catches up before thread 0 acts. */
  lemma FlipMakesStale(setup: Setup, m: Machine, sofar: seq<Action>, i: nat) returns (actions: seq<Action>)
    requires Shaped(setup, m) && i < |setup.ports| && setup.installed[i]
    requires var s := Exec(setup, m, sofar);
             1 < |s.threads| && s.threads[0] == Applying(i, s.receive[i], []) && IdleBeside(s, {0})
    ensures !PlaybackInStep(setup, Exec(setup, m, actions))
  {
    var s := Exec(setup, m, sofar);
    var b := !s.receive[i];
    ExecTwice(setup, m, sofar, SetReceive(1, i, b), Advance(1));
    ToggleAndLoad(setup, s, 1, i, b);
    actions := CatchUpMakesStale(setup, m, sofar + [SetReceive(1, i, b), Advance(1)], i);
  }

  lemma CatchUpMakesStale(setup: Setup, m: Machine, sofar: seq<Action>, i: nat) returns (actions: seq<Action>)
    requires Shaped(setup, m) && i < |setup.ports| && setup.installed[i]
    requires var s := Exec(setup, m, sofar);
             1 < |s.threads| && s.threads[0] == Applying(i, !s.receive[i], [])
             && s.threads[1] == Applying(i, s.receive[i], []) && IdleBeside(s, {0, 1})
    ensures !PlaybackInStep(setup, Exec(setup, m, actions))
  {
    var s := Exec(setup, m, sofar);
    ExecTwice(setup, m, sofar, Advance(1), Advance(1));
    ActAndFinish(setup, s, 1, i, s.receive[i]);
    actions := StaleActMisleads(setup, m, sofar + [Advance(1), Advance(1)], i);
  }

  /** With a stream and a second caller, some run comes to rest with the stream wrong. */
  lemma LateActBreaksPlayback(setup: Setup, m: Machine, i: nat) returns (actions: seq<Action>)
    requires Shaped(setup, m) && Quiescent(m) && |m.threads| >= 2
    requires i < |setup.ports| && setup.installed[i]
    ensures !PlaybackInStep(setup, Exec(setup, m, actions))
  {
    var b := !m.receive[i];
    ExecTwice(setup, m, [], SetReceive(0, i, b), Advance(0));
    ToggleAndLoad(setup, m, 0, i, b);
    actions := FlipMakesStale(setup, m, [] + [SetReceive(0, i, b), Advance(0)], i);
  }

  /**
   * No lock spans the load of a receive flag and the start or stop after it.
   * Streams are in step at every quiet moment of every run exactly if no port
   * has a stream or there is only one caller.
   */
  lemma PlaybackAlwaysInStepIffLoneCaller(setup: Setup, send: seq<bool>, receive: seq<bool>, n: nat)
    requires |send| == |receive| == |setup.installed| == |setup.ports|
    ensures Shaped(setup, Boot(setup, send, receive, n))
    ensures (forall actions :: PlaybackInStep(setup, Exec(setup, Boot(setup, send, receive, n), actions)))
            <==> n <= 1 || forall i :: 0 <= i < |setup.installed| ==> !setup.installed[i]
  {
    var m := Boot(setup, send, receive, n);
    BootIsShaped(setup, send, receive, n);
    if n <= 1 {
      forall actions ensures PlaybackInStep(setup, Exec(setup, m, actions)) {
        LoneThreadIsUninterrupted(setup, m, actions);
        UninterruptedPlaybackInStep(setup, send, receive, n, actions);
      }
    } else if i :| 0 <= i < |setup.installed| && setup.installed[i] {
      var actions := LateActBreaksPlayback(setup, m, i);
    } else {
      forall actions ensures PlaybackInStep(setup, Exec(setup, m, actions)) {
        NoStreamNothingRuns(setup, m, actions);
      }
    }
  }
}
