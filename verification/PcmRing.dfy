/**
 * The playback ring between the decoder (writer) and the audio callback (reader).
 *
 * Each thread is a program of steps over the shared slots and indices, one step a
 * shared access. In every interleaving what the reader plays is a prefix of what
 * the writer got accepted.
 */
module PcmRing {
  import opened ModularSlots

  type Pcm = real

  /** Samples gathered before playback starts. */
  const JITTER_PREFILL: nat := 11520

  datatype Writer =
    | Offering
    | Writing(src: seq<Pcm>, i: nat)
    | Checking
    | Opening

  datatype Reader =
    | Waiting
    | Loading(count: nat)
    | Copying(count: nat, n: nat, out: seq<Pcm>)
    | Padding(missing: nat)

  /**
   * The shared slots, indices, gate and counters, and both program counters. The
   * last three fields are the history: samples accepted and played, and samples
   * asked for since the gate opened.
   */
  datatype Ring = Ring(
    slots: seq<Pcm>, writeIndex: nat, readIndex: nat, prefilled: bool, dropped: nat, underrun: nat,
    writer: Writer, reader: Reader,
    accepted: seq<Pcm>, played: seq<Pcm>, asked: nat, offered: nat, taken: nat)

  datatype Step = Offer(frame: seq<Pcm>) | Write | Callback(size: nat) | Read

  function Initial(size: nat): Ring {
    Ring(seq(size, _ => 0.0), 0, 0, false, 0, 0, Offering, Waiting, [], [], 0, 0, 0)
  }

  function Avail(r: Ring): nat
    requires |r.slots| > 0
  {
    (r.writeIndex - r.readIndex + |r.slots|) % |r.slots|
  }

  // ---- The two programs ----------------------------------------------------------

  /** The room is read and a frame that does not fit is dropped whole. */
  function OfferStep(r: Ring, frame: seq<Pcm>): Ring
    requires |r.slots| > 0
  {
    if r.writer != Offering then r
    else if |frame| > |r.slots| - 1 - Avail(r) then r.(dropped := r.dropped + 1, offered := r.offered + 1)
    else r.(writer := Writing(frame, 0), offered := r.offered + 1)
  }

  function WriteStep(r: Ring): Ring
    requires |r.slots| > 0
  {
    match r.writer
    case Offering => r
    case Writing(src, i) =>
      if i < |src| then
        r.(slots := r.slots[(r.writeIndex + i) % |r.slots| := src[i]], writer := Writing(src, i + 1))
      else
        r.(writeIndex := (r.writeIndex + |src|) % |r.slots|, writer := Checking,
           accepted := r.accepted + src, taken := r.taken + 1)
    case Checking =>
      r.(writer := if !r.prefilled && Avail(r) >= JITTER_PREFILL then Opening else Offering)
    case Opening => r.(prefilled := true, writer := Offering)
  }

  /** A callback before the gate opens plays silence. */
  function CallbackStep(r: Ring, size: nat): Ring {
    if r.reader != Waiting || !r.prefilled then r
    else r.(reader := Loading(size), asked := r.asked + size)
  }

  function ReadStep(r: Ring): Ring
    requires |r.slots| > 0
  {
    match r.reader
    case Waiting => r
    case Loading(count) =>
      var avail := Avail(r);
      r.(reader := Copying(count, if count < avail then count else avail, []))
    case Copying(count, n, out) =>
      if |out| < n then
        r.(reader := Copying(count, n, out + [r.slots[(r.readIndex + |out|) % |r.slots|]]))
      else
        r.(readIndex := (r.readIndex + n) % |r.slots|, played := r.played + out,
           reader := if n < count then Padding(count - n) else Waiting)
    case Padding(missing) => r.(underrun := r.underrun + missing, reader := Waiting)
  }

  function Apply(r: Ring, s: Step): Ring
    requires |r.slots| > 0
  {
    match s
    case Offer(frame) => OfferStep(r, frame)
    case Write => WriteStep(r)
    case Callback(size) => CallbackStep(r, size)
    case Read => ReadStep(r)
  }

  // ---- The invariant --------------------------------------------------------------

  /** How many samples the slots hold. */
  function Held(r: Ring): int {
    |r.accepted| - |r.played|
  }

  /** The indices are the counts, and the slots between them hold what was accepted. */
  ghost predicate Sound(r: Ring) {
    var n := |r.slots|;
    && n > 0
    && r.writeIndex == |r.accepted| % n && r.readIndex == |r.played| % n
    && 0 <= Held(r) < n
    && (forall i :: |r.played| <= i < |r.accepted| ==> r.slots[Slot(i, n)] == r.accepted[i])
    && r.played == r.accepted[..|r.played|]
  }

  /** The writer stays within the room it saw, and has stored what it wrote. */
  ghost predicate WriterIsSafe(r: Ring)
    requires |r.slots| > 0
  {
    r.writer.Writing? ==>
      && r.writer.i <= |r.writer.src|
      && Held(r) + |r.writer.src| < |r.slots|
      && forall j :: 0 <= j < r.writer.i ==> r.slots[Slot(|r.accepted| + j, |r.slots|)] == r.writer.src[j]
  }

  /** The reader stays within what it saw, and has copied what was accepted. */
  ghost predicate ReaderIsSafe(r: Ring) {
    && |r.played| + (if r.reader.Copying? then r.reader.n else 0) <= |r.accepted|
    && (r.reader.Copying? ==>
          && |r.reader.out| <= r.reader.n <= r.reader.count
          && r.reader.out == r.accepted[|r.played|..|r.played| + |r.reader.out|])
  }

  /** What the current callback still owes. */
  function Owed(reader: Reader): nat {
    match reader
    case Waiting => 0
    case Loading(count) => count
    case Copying(count, _, _) => count
    case Padding(missing) => missing
  }

  /** Every sample asked for is played, padded or still owed; every frame offered is accepted, dropped or being written. */
  ghost predicate Accounted(r: Ring) {
    && r.asked == |r.played| + r.underrun + Owed(r.reader)
    && r.offered == r.taken + r.dropped + (if r.writer.Writing? then 1 else 0)
  }

  ghost predicate Safe(r: Ring) {
    Sound(r) && WriterIsSafe(r) && ReaderIsSafe(r) && Accounted(r)
  }

  /** The index arithmetic counts the held samples. */
  lemma AvailIsHeld(r: Ring)
    requires Sound(r)
    ensures Avail(r) == Held(r)
  {
    Distance(|r.played|, |r.accepted|, |r.slots|);
  }

  lemma OfferKeepsSafe(r: Ring, frame: seq<Pcm>)
    requires Safe(r)
    ensures Safe(OfferStep(r, frame))
  {
    AvailIsHeld(r);
  }

  /** Writing a slot beyond the accepted samples disturbs nothing the reader may read. */
  lemma StoreKeepsSafe(r: Ring)
    requires Safe(r) && r.writer.Writing? && r.writer.i < |r.writer.src|
    ensures Safe(WriteStep(r))
  {
    var n, at := |r.slots|, |r.accepted| + r.writer.i;
    var k := (r.writeIndex + r.writer.i) % n;
    AddInSlot(|r.accepted|, r.writer.i, n);
    forall j | |r.played| <= j < at ensures Slot(j, n) != k {
      SlotsDiffer(j, at, n);
    }
    var s := WriteStep(r);
    forall i | |s.played| <= i < |s.accepted| ensures s.slots[Slot(i, n)] == s.accepted[i] {
      assert Slot(i, n) != k;
    }
    forall j | 0 <= j < s.writer.i ensures s.slots[Slot(|s.accepted| + j, n)] == s.writer.src[j] {
      assert j < r.writer.i ==> Slot(|r.accepted| + j, n) != k;
    }
  }

  lemma StoredIsAccepted(r: Ring)
    requires Safe(r) && r.writer.Writing? && r.writer.i == |r.writer.src|
    ensures var all := r.accepted + r.writer.src;
            forall i :: |r.played| <= i < |all| ==> r.slots[Slot(i, |r.slots|)] == all[i]
  {
    var all := r.accepted + r.writer.src;
    forall i | |r.played| <= i < |all| ensures r.slots[Slot(i, |r.slots|)] == all[i] {
      if i >= |r.accepted| {
        var j := i - |r.accepted|;
        assert r.slots[Slot(|r.accepted| + j, |r.slots|)] == r.writer.src[j];
      }
    }
  }

  lemma PublishKeepsSafe(r: Ring)
    requires Safe(r) && r.writer.Writing? && r.writer.i == |r.writer.src|
    ensures Safe(WriteStep(r))
  {
    var s := WriteStep(r);
    AddInSlot(|r.accepted|, |r.writer.src|, |r.slots|);
    StoredIsAccepted(r);
    assert s.accepted[..|s.played|] == r.accepted[..|r.played|];
    assert r.reader.Copying? ==>
             s.accepted[|r.played|..|r.played| + |r.reader.out|] == r.accepted[|r.played|..|r.played| + |r.reader.out|];
  }

  lemma WriteKeepsSafe(r: Ring)
    requires Safe(r)
    ensures Safe(WriteStep(r))
  {
    if r.writer.Writing? {
      if r.writer.i < |r.writer.src| { StoreKeepsSafe(r); } else { PublishKeepsSafe(r); }
    }
  }

  lemma CopyKeepsSafe(r: Ring)
    requires Safe(r) && r.reader.Copying? && |r.reader.out| < r.reader.n
    ensures Safe(ReadStep(r))
  {
    var at := |r.played| + |r.reader.out|;
    AddInSlot(|r.played|, |r.reader.out|, |r.slots|);
    assert r.slots[Slot(at, |r.slots|)] == r.accepted[at];
  }

  lemma ReleaseKeepsSafe(r: Ring)
    requires Safe(r) && r.reader.Copying? && |r.reader.out| == r.reader.n
    ensures Safe(ReadStep(r))
  {
    AddInSlot(|r.played|, r.reader.n, |r.slots|);
    assert r.accepted[..|r.played|] + r.accepted[|r.played|..|r.played| + r.reader.n] == r.accepted[..|r.played| + r.reader.n];
  }

  lemma ReadKeepsSafe(r: Ring)
    requires Safe(r)
    ensures Safe(ReadStep(r))
  {
    match r.reader
    case Loading(count) => AvailIsHeld(r);
    case Copying(count, n, out) =>
      if |out| < n { CopyKeepsSafe(r); } else { ReleaseKeepsSafe(r); }
    case _ =>
  }

  lemma StepKeepsSafe(r: Ring, s: Step)
    requires Safe(r)
    ensures Safe(Apply(r, s))
  {
    match s
    case Offer(frame) => OfferKeepsSafe(r, frame);
    case Write => WriteKeepsSafe(r);
    case Callback(size) =>
    case Read => ReadKeepsSafe(r);
  }

  // ---- Runs -----------------------------------------------------------------------------

  /** The state after some steps. */
  function After(size: nat, steps: seq<Step>): (r: Ring)
    requires size > 0
    ensures |r.slots| == size
    decreases |steps|
  {
    if steps == [] then Initial(size) else Apply(After(size, steps[..|steps| - 1]), steps[|steps| - 1])
  }

  lemma {:induction false} RunIsSafe(size: nat, steps: seq<Step>)
    requires size > 0
    ensures Safe(After(size, steps))
    decreases |steps|
  {
    if steps != [] {
      RunIsSafe(size, steps[..|steps| - 1]);
      StepKeepsSafe(After(size, steps[..|steps| - 1]), steps[|steps| - 1]);
    }
  }

  /** In every interleaving the reader plays the accepted samples in order, without gap or repeat. */
  lemma PlaybackIsFifo(size: nat, steps: seq<Step>)
    requires size > 0
    ensures var r := After(size, steps);
            && |r.played| <= |r.accepted| < |r.played| + size
            && r.played == r.accepted[..|r.played|]
  {
    RunIsSafe(size, steps);
  }

  /** Between callbacks, what was played and what was padded is what was asked for since the gate opened. */
  lemma PlayedAndPaddedIsAsked(size: nat, steps: seq<Step>)
    requires size > 0
    ensures var r := After(size, steps);
            && (r.reader == Waiting ==> |r.played| + r.underrun == r.asked)
            && (!r.writer.Writing? ==> r.taken + r.dropped == r.offered)
  {
    RunIsSafe(size, steps);
  }

  // ---- When playback starts ------------------------------------------------------------

  /** Nothing is asked for or played before the gate opens, and it opens once 11520 samples have been accepted. */
  ghost predicate GateFollows(r: Ring) {
    && (!r.prefilled ==> r.played == [] && r.reader == Waiting && r.asked == 0 && r.underrun == 0)
    && (r.prefilled || r.writer == Opening ==> |r.accepted| >= 11520)
    && (!r.prefilled && (r.writer == Offering || r.writer.Writing?) ==> |r.accepted| < 11520)
  }

  lemma StepKeepsGate(r: Ring, s: Step)
    requires Safe(r) && GateFollows(r)
    ensures GateFollows(Apply(r, s))
  {
    AvailIsHeld(r);
  }

  lemma {:induction false} RunKeepsGate(size: nat, steps: seq<Step>)
    requires size > 0
    ensures GateFollows(After(size, steps))
    decreases |steps|
  {
    if steps != [] {
      RunIsSafe(size, steps[..|steps| - 1]);
      RunKeepsGate(size, steps[..|steps| - 1]);
      StepKeepsGate(After(size, steps[..|steps| - 1]), steps[|steps| - 1]);
    }
  }

  /**
   * In every interleaving, whenever the writer is between frames, the gate is open
   * exactly if 11520 samples have been accepted; before it opens nothing is played.
   */
  lemma GateOpensAtPrefill(size: nat, steps: seq<Step>)
    requires size > 0
    ensures var r := After(size, steps);
            && (r.writer == Offering ==> (r.prefilled <==> |r.accepted| >= 11520))
            && (!r.prefilled ==> r.played == [] && r.underrun == 0)
  {
    RunKeepsGate(size, steps);
  }

  /** A frame is taken up exactly if it fits beside the slot that stays free; otherwise it is counted as dropped. */
  lemma OfferTakesIffRoom(r: Ring, frame: seq<Pcm>)
    requires Safe(r) && r.writer == Offering
    ensures OfferStep(r, frame) ==
              if |r.accepted| - |r.played| + |frame| < |r.slots| then r.(writer := Writing(frame, 0), offered := r.offered + 1)
              else r.(dropped := r.dropped + 1, offered := r.offered + 1)
  {
    AvailIsHeld(r);
  }

  // ---- Each thread gets through its program ------------------------------------------

  function Writes(r: Ring, k: nat): (s: Ring)
    requires |r.slots| > 0
    ensures |s.slots| == |r.slots|
  {
    if k == 0 then r else WriteStep(Writes(r, k - 1))
  }

  function Reads(r: Ring, k: nat): (s: Ring)
    requires |r.slots| > 0
    ensures |s.slots| == |r.slots|
  {
    if k == 0 then r else ReadStep(Reads(r, k - 1))
  }

  lemma {:induction false} WritesStore(r: Ring, k: nat)
    requires Safe(r) && r.writer.Writing? && r.writer.i == 0 && k <= |r.writer.src|
    ensures Safe(Writes(r, k)) && Writes(r, k) == r.(slots := Writes(r, k).slots, writer := Writing(r.writer.src, k))
  {
    if k > 0 {
      WritesStore(r, k - 1);
      WriteKeepsSafe(Writes(r, k - 1));
    }
  }

  /**
   * A frame that fits is accepted by the writer's next steps, three more than it has
   * samples, and the gate is open then if it was or enough is held; nothing the reader
   * owns changes.
   */
  lemma LoneWriterFinishes(r: Ring, frame: seq<Pcm>)
    requires Safe(r) && r.writer == Offering && |r.accepted| - |r.played| + |frame| < |r.slots|
    ensures var s := Writes(OfferStep(r, frame), |frame| + 3);
            && Safe(s) && s.writer == Offering && s.accepted == r.accepted + frame && s.dropped == r.dropped
            && s.prefilled == (r.prefilled || |s.accepted| - |s.played| >= 11520)
            && s.reader == r.reader && s.played == r.played && s.readIndex == r.readIndex && s.underrun == r.underrun
  {
    var n, o := |frame|, OfferStep(r, frame);
    OfferTakesIffRoom(r, frame);
    OfferKeepsSafe(r, frame);
    WritesStore(o, n);
    LastWrites(Writes(o, n));
    ThreeMoreWrites(o, n);
  }

  lemma ThreeMoreWrites(o: Ring, n: nat)
    requires |o.slots| > 0
    ensures Writes(o, n + 3) == WriteStep(WriteStep(WriteStep(Writes(o, n))))
  {
    assert Writes(o, n + 1) == WriteStep(Writes(o, n)) && Writes(o, n + 2) == WriteStep(Writes(o, n + 1));
  }

  /** Publishing, checking and opening the gate, if it is to be opened. */
  lemma LastWrites(o: Ring)
    requires Safe(o) && o.writer.Writing? && o.writer.i == |o.writer.src|
    ensures var s := WriteStep(WriteStep(WriteStep(o)));
            && Safe(s)
            && s == o.(writer := Offering, writeIndex := s.writeIndex, accepted := o.accepted + o.writer.src, taken := o.taken + 1,
                       prefilled := o.prefilled || |o.accepted| + |o.writer.src| - |o.played| >= 11520)
  {
    var p := WriteStep(o);
    WriteKeepsSafe(o);
    AvailIsHeld(p);
    WriteKeepsSafe(p);
    WriteKeepsSafe(WriteStep(p));
  }

  lemma {:induction false} ReadsCopy(r: Ring, k: nat)
    requires Safe(r) && r.reader.Copying? && r.reader.out == [] && k <= r.reader.n
    ensures var s := Reads(r, k);
            && Safe(s) && s.reader.Copying? && s.reader.n == r.reader.n && s.reader.count == r.reader.count && |s.reader.out| == k
            && s == r.(reader := s.reader)
  {
    if k > 0 {
      ReadsCopy(r, k - 1);
      ReadKeepsSafe(Reads(r, k - 1));
    }
  }

  lemma {:induction false} ReadsCompose(r: Ring, j: nat, k: nat)
    requires |r.slots| > 0
    ensures Reads(r, j + k) == Reads(Reads(r, j), k)
  {
    if k > 0 {
      ReadsCompose(r, j, k - 1);
    }
  }

  lemma {:induction false} WaitingStays(r: Ring, k: nat)
    requires |r.slots| > 0 && r.reader == Waiting
    ensures Reads(r, k) == r
  {
    if k > 0 {
      WaitingStays(r, k - 1);
    }
  }

  /**
   * A callback after the gate has opened is answered by the reader's next steps, three
   * more than it asks for samples at most: it plays what is held, as far as asked, and
   * counts the rest as underrun; nothing the writer owns changes.
   */
  lemma LoneReaderFinishes(r: Ring, size: nat)
    requires Safe(r) && r.reader == Waiting && r.prefilled
    ensures var held := |r.accepted| - |r.played|;
            var n := if size < held then size else held;
            var s := Reads(CallbackStep(r, size), size + 3);
            && Safe(s) && s.reader == Waiting
            && s.played == r.accepted[..|r.played| + n] && s.underrun == r.underrun + (size - n)
            && s.writer == r.writer && s.accepted == r.accepted && s.writeIndex == r.writeIndex && s.slots == r.slots
  {
    var held := |r.accepted| - |r.played|;
    var n := if size < held then size else held;
    var c := CallbackStep(r, size);
    StepKeepsSafe(r, Callback(size));
    AvailIsHeld(c);
    ReadKeepsSafe(c);
    ReadsCopy(ReadStep(c), n);
    LastReads(Reads(ReadStep(c), n));
    WaitingStays(ReadStep(ReadStep(Reads(ReadStep(c), n))), size - n);
    ReadsFromCallback(c, n, size);
  }

  /** Releasing what was copied, and counting what was missing. */
  lemma LastReads(d: Ring)
    requires Safe(d) && d.reader.Copying? && |d.reader.out| == d.reader.n <= d.reader.count
    ensures var w := ReadStep(ReadStep(d));
            && Safe(w)
            && w == d.(reader := Waiting, readIndex := w.readIndex, played := w.played,
                       underrun := d.underrun + (d.reader.count - d.reader.n))
            && |w.played| == |d.played| + d.reader.n && w.played == w.accepted[..|w.played|]
  {
    ReadKeepsSafe(d);
    ReadKeepsSafe(ReadStep(d));
  }

  /** One step to load, n to copy, one to release, one to pad, and the rest at rest. */
  lemma ReadsFromCallback(c: Ring, n: nat, size: nat)
    requires |c.slots| > 0 && n <= size
    ensures Reads(c, size + 3) == Reads(ReadStep(ReadStep(Reads(ReadStep(c), n))), size - n)
  {
    assert Reads(c, 1) == ReadStep(Reads(c, 0));
    ReadsCompose(c, 1, n);
    ReadsCompose(c, n + 1, 2);
    var d := Reads(c, n + 1);
    assert Reads(d, 1) == ReadStep(Reads(d, 0)) && Reads(d, 2) == ReadStep(Reads(d, 1));
    ReadsCompose(c, n + 3, size - n);
  }

  /** The gate never closes. */
  lemma GateStaysOpen(r: Ring, s: Step)
    requires |r.slots| > 0 && r.prefilled
    ensures Apply(r, s).prefilled
  {
  }

  /** The indices can count the held samples exactly as long as one slot stays free. */
  lemma IndicesCountIffSlotFree(played: nat, accepted: nat, size: nat)
    requires size > 0 && played <= accepted <= played + size
    ensures (accepted % size - played % size + size) % size == accepted - played <==> accepted - played < size
  {
    if accepted - played < size {
      Distance(played, accepted, size);
    }
  }

  // ---- Whole calls --------------------------------------------------------------------

  /** The slots hold what was written from one index up to another. */
  ghost predicate StoredUpTo(slots: seq<Pcm>, from: nat, all: seq<Pcm>, to: nat) {
    && |slots| > 0 && to <= |all|
    && forall j :: from <= j < to ==> slots[Slot(j, |slots|)] == all[j]
  }

  /** One more sample disturbs none of the others while there are fewer than slots. */
  lemma StoredOneMore(slots: seq<Pcm>, from: nat, all: seq<Pcm>, to: nat)
    requires StoredUpTo(slots, from, all, to) && from <= to < |all| && to - from < |slots|
    ensures StoredUpTo(slots[Slot(to, |slots|) := all[to]], from, all, to + 1)
  {
    forall j | from <= j < to ensures Slot(j, |slots|) != Slot(to, |slots|) {
      SlotsDiffer(j, to, |slots|);
    }
  }

  /** The ring as one call of the writer or the reader sees it while the other rests. */
  class SharedRing {
    const ring: array<Pcm>
    var writeIndex: nat
    var readIndex: nat
    var prefilled: bool
    var dropped: nat
    var underrun: nat
    ghost var accepted: seq<Pcm>
    ghost var played: seq<Pcm>

    ghost predicate Valid()
      reads this, ring
    {
      Sound(Snapshot())
    }

    ghost function Snapshot(): Ring
      reads this, ring
    {
      Ring(ring[..], writeIndex, readIndex, prefilled, dropped, underrun, Offering, Waiting, accepted, played, 0, 0, 0)
    }

    constructor (size: nat)
      requires size > 0
      ensures Valid() && fresh(ring) && ring.Length == size
      ensures accepted == [] && played == [] && !prefilled && dropped == 0 && underrun == 0
    {
      ring := new Pcm[size](_ => 0.0);
      writeIndex, readIndex, prefilled, dropped, underrun := 0, 0, false, 0, 0;
      accepted, played := [], [];
    }

    /** A frame is accepted whole or dropped whole; the gate opens once enough is held. */
    method RingWrite(src: seq<Pcm>)
      requires Valid()
      modifies this, ring
      ensures Valid() && played == old(played) && underrun == old(underrun) && readIndex == old(readIndex)
      ensures var fits := |old(accepted)| - |old(played)| + |src| < ring.Length;
              && accepted == (if fits then old(accepted) + src else old(accepted))
              && dropped == old(dropped) + (if fits then 0 else 1)
              && prefilled == (old(prefilled) || (fits && |accepted| - |played| >= 11520))
    {
      AvailIsHeld(Snapshot());
      var avail := (writeIndex - readIndex + ring.Length) % ring.Length;
      if |src| > ring.Length - 1 - avail {
        dropped := dropped + 1;
        return;
      }
      StoreFrame(src);
      AvailIsHeld(Snapshot());
      avail := (writeIndex - readIndex + ring.Length) % ring.Length;
      if !prefilled && avail >= JITTER_PREFILL {
        prefilled := true;
      }
    }

    method StoreFrame(src: seq<Pcm>)
      requires Valid() && |accepted| - |played| + |src| < ring.Length
      modifies this`writeIndex, this`accepted, ring
      ensures Valid() && accepted == old(accepted) + src
    {
      ghost var all := accepted + src;
      for i := 0 to |src|
        invariant accepted == old(accepted) && writeIndex == old(writeIndex)
        invariant StoredUpTo(ring[..], |played|, all, |accepted| + i)
      {
        AddInSlot(|accepted|, i, ring.Length);
        StoredOneMore(ring[..], |played|, all, |accepted| + i);
        ring[(writeIndex + i) % ring.Length] := src[i];
      }
      AddInSlot(|accepted|, |src|, ring.Length);
      writeIndex := (writeIndex + |src|) % ring.Length;
      assert all[..|played|] == accepted[..|played|];
      accepted := all;
    }

    /** Fill the output with what is held, in order, then with silence. */
    method Process(output: array<Pcm>)
      requires Valid() && output != ring
      modifies this`readIndex, this`underrun, this`played, output
      ensures Valid()
      ensures var held := |accepted| - |old(played)|;
              var n := if !prefilled then 0 else if output.Length < held then output.Length else held;
              && played == old(played) + output[..n]
              && (forall i :: n <= i < output.Length ==> output[i] == 0.0)
              && underrun == old(underrun) + (if prefilled then output.Length - n else 0)
    {
      if !prefilled {
        Silence(output, 0);
        return;
      }
      AvailIsHeld(Snapshot());
      var avail := (writeIndex - readIndex + ring.Length) % ring.Length;
      var n := if output.Length < avail then output.Length else avail;
      CopyOut(output, n);
      AddInSlot(|played|, n, ring.Length);
      readIndex := (readIndex + n) % ring.Length;
      assert played + output[..n] == accepted[..|played| + n];
      played := played + output[..n];
      underrun := underrun + (output.Length - n);
      Silence(output, n);
    }

    method CopyOut(output: array<Pcm>, n: nat)
      requires Valid() && output != ring && n <= output.Length && |played| + n <= |accepted|
      modifies output
      ensures output[..n] == accepted[|played|..|played| + n]
    {
      for i := 0 to n
        invariant forall j :: 0 <= j < i ==> output[j] == accepted[|played| + j]
        invariant ring[..] == old(ring[..])
      {
        AddInSlot(|played|, i, ring.Length);
        assert ring[..][Slot(|played| + i, ring.Length)] == accepted[|played| + i];
        output[i] := ring[(readIndex + i) % ring.Length];
      }
    }

    method Silence(output: array<Pcm>, from: nat)
      requires from <= output.Length
      modifies output
      ensures output[..from] == old(output[..from])
      ensures forall i :: from <= i < output.Length ==> output[i] == 0.0
    {
      for i := from to output.Length
        invariant output[..from] == old(output[..from])
        invariant forall j :: from <= j < i ==> output[j] == 0.0
      {
        output[i] := 0.0;
      }
    }
  }
}
