/**
 The whole life of a device: a control block that runs, is checkpointed with attempts cut
 anywhere, loses its memory with the power, and starts again from what storage offers.
 */
module DeviceLife {
  import opened Octets
  import opened BrcbLog
  import opened BrcbHistory
  import opened BrcbPlans
  import opened StateImage
  import opened Checkpointing
  import CheckpointRecord
  import CrashSafety

  datatype Setup = Setup(c: Config, n: nat, fingerprint: u64, rooms: seq<nat>) {
    predicate Valid() {
      c.capacity > 0 && |rooms| == c.capacity
    }
  }

  datatype Device = Device(brcb: State, storage: seq<byte>)

  /** Which record a start finds readable: the newest, that of one bank, or none. */
  datatype Readable = Newest | OneBank(i: nat) | Neither

  datatype Event =
    | Operate(op: Op)
    | Save(progress: CrashSafety.Progress, acknowledged: bool)
    | Reboot(start: State, readable: Readable)

  predicate Sound(u: Setup, d: Device) {
    u.Valid() && CheckpointRecord.Layout(d.storage, u.n) && Loadable(u.c.capacity, d.brcb.queue)
  }

  function Readout(u: Setup, storage: seq<byte>, readable: Readable): Option<CheckpointRecord.Record>
    requires CheckpointRecord.Layout(storage, u.n)
  {
    match readable
    case Newest => CheckpointRecord.Newest(storage, u.n)
    case OneBank(i) => if i < 2 then CheckpointRecord.Offered(CheckpointRecord.Bank(storage, u.n, i)) else None
    case Neither => None
  }

  /** A control block as it comes up: fresh, and then restored if there is an image it accepts. */
  function Booted(u: Setup, storage: seq<byte>, start: State, readable: Readable): State
    requires CheckpointRecord.Layout(storage, u.n)
  {
    match Readout(u, storage, readable)
    case None => start
    case Some(record) =>
      match Parse(record.payload, u.fingerprint, u.rooms)
      case Rejected(_) => start
      case Restored(q) => AfterRestore(start, q)
  }

  ghost function AttemptOf(u: Setup, d: Device, e: Event): Option<CrashSafety.Attempt> {
    if e.Save? && Storable(d.brcb.queue) then
      var a := CrashSafety.Attempt(ImageV2(u.fingerprint, d.brcb.queue), e.progress, e.acknowledged);
      if a.Possible(u.n) then Some(a) else None
    else None
  }

  ghost function Live(u: Setup, d: Device, e: Event): Device
    requires Sound(u, d)
  {
    match e
    case Operate(op) => d.(brcb := Step(u.c, d.brcb, op))
    case Save(_, _) =>
      var a := AttemptOf(u, d, e);
      if a.None? then d else d.(storage := CrashSafety.After(d.storage, u.n, a.value))
    case Reboot(start, readable) =>
      if Fresh(start) then d.(brcb := Booted(u, d.storage, start, readable)) else d
  }

  lemma StaysSound(u: Setup, d: Device, e: Event)
    requires Sound(u, d)
    ensures Sound(u, Live(u, d, e))
  {
    hide Step, Loadable, ImageV2, CrashSafety.After;
    match e
    case Operate(op) => StepLoadable(u.c, d.brcb, op);
    case Save(_, _) =>
    case Reboot(start, readable) =>
      if Fresh(start) {
        FreshIsLoadable(u.c.capacity, start);
        BootedLoadable(u, d.storage, start, readable);
      }
  }

  lemma StepLoadable(c: Config, s: State, op: Op)
    requires c.capacity > 0 && Loadable(c.capacity, s.queue)
    ensures Loadable(c.capacity, Step(c, s, op).queue)
  {
    hide Step, Loadable;
    ReachableIsOrdered(c, s, [op]);
    RunsOne(c, s, op);
  }

  lemma RunsOne(c: Config, s: State, op: Op)
    requires c.capacity > 0
    ensures Run(c, s, [op]) == Step(c, s, op)
  {
    hide Step;
    assert |[op][..0]| == 0;
  }

  lemma BootedLoadable(u: Setup, storage: seq<byte>, start: State, readable: Readable)
    requires CheckpointRecord.Layout(storage, u.n) && u.Valid() && Loadable(u.c.capacity, start.queue)
    ensures Loadable(u.c.capacity, Booted(u, storage, start, readable).queue)
  {
    hide Parse, Loadable, Readout;
    var r := Readout(u, storage, readable);
    if r.Some? && Parse(r.value.payload, u.fingerprint, u.rooms).Restored? {
      ParsedIsLoadable(r.value.payload, u.fingerprint, u.rooms);
    }
  }

  ghost function LiveAll(u: Setup, d: Device, events: seq<Event>): (r: Device)
    requires Sound(u, d)
    ensures Sound(u, r)
  {
    if events == [] then d
    else
      var before := LiveAll(u, d, events[..|events| - 1]);
      StaysSound(u, before, events[|events| - 1]);
      Live(u, before, events[|events| - 1])
  }

  /**
   Whatever a device lives through, from whatever storage, its window is always one that
   the next checkpoint can save and a restart can take back: in order, within the ring.
   */
  lemma AlwaysLoadable(u: Setup, d: Device, events: seq<Event>)
    requires Sound(u, d)
    ensures Loadable(u.c.capacity, LiveAll(u, d, events).brcb.queue)
  {
    hide Loadable;
  }

  // ----- What a restart gives back

  /** The attempts of a life, and the window each of them saved. */
  ghost function Attempts(u: Setup, d: Device, events: seq<Event>): seq<CrashSafety.Attempt>
    requires Sound(u, d)
  {
    if events == [] then []
    else
      var k := |events| - 1;
      var a := AttemptOf(u, LiveAll(u, d, events[..k]), events[k]);
      Attempts(u, d, events[..k]) + if a.Some? then [a.value] else []
  }

  ghost function Saved(u: Setup, d: Device, events: seq<Event>): seq<Queue>
    requires Sound(u, d)
  {
    if events == [] then []
    else
      var k := |events| - 1;
      var before := LiveAll(u, d, events[..k]);
      Saved(u, d, events[..k]) + if AttemptOf(u, before, events[k]).Some? then [before.brcb.queue] else []
  }

  lemma {:induction false} LifeSaves(u: Setup, d: Device, events: seq<Event>)
    requires Sound(u, d)
    ensures Saves(Attempts(u, d, events), Saved(u, d, events), u.fingerprint, u.n)
    ensures LiveAll(u, d, events).storage == CrashSafety.AfterAll(d.storage, u.n, Attempts(u, d, events))
  {
    hide *;
    if events == [] {
      NothingLived(u, d);
    } else {
      var k := |events| - 1;
      var before, e := events[..k], events[k];
      LifeSaves(u, d, before);
      LivedOn(u, d, before, e);
      assert events == before + [e];
      var at := LiveAll(u, d, before);
      LiveStorage(u, at, e);
      var a := AttemptOf(u, at, e);
      if a.Some? {
        SavesMore(Attempts(u, d, before), Saved(u, d, before), u.fingerprint, u.n, a.value, at.brcb.queue);
        AttemptedNext(d.storage, u.n, Attempts(u, d, before), a.value);
      }
    }
  }

  lemma NothingLived(u: Setup, d: Device)
    requires Sound(u, d)
    ensures Attempts(u, d, []) == [] && Saved(u, d, []) == [] && LiveAll(u, d, []) == d
    ensures Saves([], [], u.fingerprint, u.n)
    ensures CheckpointRecord.Layout(d.storage, u.n) && CrashSafety.AfterAll(d.storage, u.n, []) == d.storage
  {
  }

  lemma LivedOn(u: Setup, d: Device, events: seq<Event>, e: Event)
    requires Sound(u, d)
    ensures CheckpointRecord.Layout(d.storage, u.n)
    ensures var all, at := events + [e], LiveAll(u, d, events);
      var a := AttemptOf(u, at, e);
      && LiveAll(u, d, all) == Live(u, at, e)
      && Attempts(u, d, all) == (if a.Some? then Attempts(u, d, events) + [a.value] else Attempts(u, d, events))
      && Saved(u, d, all) == (if a.Some? then Saved(u, d, events) + [at.brcb.queue] else Saved(u, d, events))
  {
    hide AttemptOf, Live;
    assert (events + [e])[..|events|] == events;
  }

  lemma AttemptedNext(storage: seq<byte>, n: nat, attempts: seq<CrashSafety.Attempt>, a: CrashSafety.Attempt)
    requires CheckpointRecord.Layout(storage, n)
    requires a.Possible(n) && forall i :: 0 <= i < |attempts| ==> attempts[i].Possible(n)
    ensures CrashSafety.AfterAll(storage, n, attempts + [a]) ==
            CrashSafety.After(CrashSafety.AfterAll(storage, n, attempts), n, a)
  {
    hide CrashSafety.After;
    assert (attempts + [a])[..|attempts|] == attempts;
  }

  lemma LiveStorage(u: Setup, d: Device, e: Event)
    requires Sound(u, d)
    ensures var a := AttemptOf(u, d, e);
      if a.Some?
      then a.value.Possible(u.n) && Live(u, d, e).storage == CrashSafety.After(d.storage, u.n, a.value) &&
           Storable(d.brcb.queue) && Ordered(d.brcb.queue) && a.value.payload == ImageV2(u.fingerprint, d.brcb.queue)
      else Live(u, d, e).storage == d.storage
  {
    hide Step, ImageV2, Storable, Ordered, CrashSafety.After, Booted;
  }

  lemma SavesMore(
    attempts: seq<CrashSafety.Attempt>, windows: seq<Queue>, fingerprint: u64, n: nat, a: CrashSafety.Attempt, q: Queue)
    requires Saves(attempts, windows, fingerprint, n)
    requires a.Possible(n) && Storable(q) && Ordered(q) && a.payload == ImageV2(fingerprint, q)
    ensures Saves(attempts + [a], windows + [q], fingerprint, n)
    ensures forall i :: 0 <= i < |attempts| ==> attempts[i].Possible(n)
  {
    hide ImageV2, Storable, Ordered;
  }

  /**
   Crash safety over whole lives: from storage with nothing to restore, after any run of
   operations, interrupted checkpoints and restarts, the next restart comes up as the
   window of the last acknowledged checkpoint or a later one, provided it fits the slots,
   and fresh only if it does not or if nothing was ever acknowledged.
   */
  lemma RestartGivesLastSavedOrLater(u: Setup, d: Device, events: seq<Event>, start: State)
    requires Sound(u, d) && CheckpointRecord.Newest(d.storage, u.n) == None
    ensures var attempts, saved := Attempts(u, d, events), Saved(u, d, events);
      var up := Booted(u, LiveAll(u, d, events).storage, start, Newest);
      && |saved| == |attempts|
      && (|| (up == start && CrashSafety.LastAcknowledgedBy(attempts, -1))
          || exists i :: 0 <= i < |attempts| && CrashSafety.LastAcknowledgedBy(attempts, i) &&
                         up == Recalled(u, start, saved[i]))
  {
    hide Parse, ImageV2, Attempts, Saved, LiveAll, CheckpointRecord.Newest;
    hide CrashSafety.AfterAll, CrashSafety.LastAcknowledgedBy;
    var attempts, saved := Attempts(u, d, events), Saved(u, d, events);
    LifeSaves(u, d, events);
    RestoredWindowIsLastAcknowledgedOrLater(d.storage, u.n, attempts, saved, u.fingerprint, u.rooms);
    var seen := CheckpointRecord.Newest(LiveAll(u, d, events).storage, u.n);
    if !(seen == None && CrashSafety.LastAcknowledgedBy(attempts, -1)) {
      var i :| 0 <= i < |attempts| && CrashSafety.LastAcknowledgedBy(attempts, i) && seen.Some? &&
        Parse(seen.value.payload, u.fingerprint, u.rooms) == Reading(saved[i], u.rooms);
      assert Booted(u, LiveAll(u, d, events).storage, start, Newest) == Recalled(u, start, saved[i]);
    }
  }

  /** A start with the image of a window: that window if it fits the slots. */
  function Recalled(u: Setup, start: State, q: Queue): State {
    if FitsSlots(q.retained, u.rooms) then AfterRestore(start, Recovered(q)) else start
  }

  /** Where the newest bank cannot be read, the other still gives some whole saved window or nothing. */
  lemma FallbackGivesSavedWindow(u: Setup, d: Device, events: seq<Event>, start: State, b: nat)
    requires Sound(u, d) && b < 2
    requires CheckpointRecord.Offered(CheckpointRecord.Bank(d.storage, u.n, b)) == None
    ensures var saved := Saved(u, d, events);
      var up := Booted(u, LiveAll(u, d, events).storage, start, OneBank(b));
      up == start || exists i :: 0 <= i < |saved| && up == Recalled(u, start, saved[i])
  {
    hide Parse, ImageV2, Attempts, Saved, LiveAll, Storable, Ordered;
    hide CrashSafety.AfterAll, CheckpointRecord.Offered, CheckpointRecord.Bank;
    var attempts, saved := Attempts(u, d, events), Saved(u, d, events);
    LifeSaves(u, d, events);
    CrashSafety.EveryBankTraceable(d.storage, u.n, attempts, b);
    var seen := Readout(u, LiveAll(u, d, events).storage, OneBank(b));
    if seen.Some? {
      var i :| 0 <= i < |attempts| && seen.value.payload == attempts[i].payload;
      ImageRoundTrip(u.fingerprint, saved[i], u.rooms);
      assert Booted(u, LiveAll(u, d, events).storage, start, OneBank(b)) == Recalled(u, start, saved[i]);
    }
  }

  // ----- EntryIDs across a restart

  function Operates(ops: seq<Op>): seq<Event> {
    seq(|ops|, i requires 0 <= i < |ops| => Operate(ops[i]))
  }

  lemma {:induction false} OperatesIsRun(u: Setup, d: Device, ops: seq<Op>)
    requires Sound(u, d)
    ensures LiveAll(u, d, Operates(ops)) == d.(brcb := Run(u.c, d.brcb, ops))
  {
    hide Step, Sound;
    if |ops| != 0 {
      var k := |ops| - 1;
      OperatesIsRun(u, d, ops[..k]);
      assert Operates(ops)[..k] == Operates(ops[..k]);
    }
  }

  lemma {:induction false} LivesOn(u: Setup, d: Device, a: seq<Event>, b: seq<Event>)
    requires Sound(u, d)
    ensures LiveAll(u, d, a + b) == LiveAll(u, LiveAll(u, d, a), b)
  {
    hide Live, Sound;
    if b == [] {
      assert a + b == a;
    } else {
      var k := |b| - 1;
      LivesOn(u, d, a, b[..k]);
      assert (a + b)[..|a + b| - 1] == a + b[..k];
    }
  }

  /** A checkpoint that completes and is acknowledged. */
  ghost predicate Completes(u: Setup, d: Device, e: Event) {
    AttemptOf(u, d, e).Some? && e.acknowledged
  }

  /** After a completed checkpoint and a run without another, a restart comes up as the window saved. */
  lemma RestartAfterSave(u: Setup, d: Device, save: Event, lost: seq<Op>, start: State)
    requires Sound(u, d) && Completes(u, d, save) && FitsSlots(d.brcb.queue.retained, u.rooms)
    ensures var gone := LiveAll(u, d, [save] + Operates(lost));
      && gone.brcb == Run(u.c, d.brcb, lost)
      && Booted(u, gone.storage, start, Newest) == AfterRestore(start, Recovered(d.brcb.queue))
  {
    hide Step, ImageV2, Storable, Loadable, CrashSafety.After, Booted, FitsSlots, Run, LiveAll;
    LiveStorage(u, d, save);
    LivesOn(u, d, [save], Operates(lost));
    LivedOn(u, d, [], save);
    NothingLived(u, d);
    assert [] + [save] == [save];
    var after := LiveAll(u, d, [save]);
    OperatesIsRun(u, after, lost);
    BootsAsSaved(u, d, AttemptOf(u, d, save).value, start);
  }

  /** Storage after a completed attempt comes up as the window it saved. */
  lemma BootsAsSaved(u: Setup, d: Device, a: CrashSafety.Attempt, start: State)
    requires Sound(u, d) && a.Possible(u.n) && a.acknowledged
    requires Storable(d.brcb.queue) && a.payload == ImageV2(u.fingerprint, d.brcb.queue)
    requires FitsSlots(d.brcb.queue.retained, u.rooms)
    ensures Booted(u, CrashSafety.After(d.storage, u.n, a), start, Newest) ==
            AfterRestore(start, Recovered(d.brcb.queue))
  {
    hide Parse, ImageV2, Storable, Consecutive, CrashSafety.After, CheckpointRecord.Newest, FitsSlots;
    CrashSafety.AttemptKeepsOrReplaces(d.storage, u.n, a);
    ImageRoundTrip(u.fingerprint, d.brcb.queue, u.rooms);
  }

  /**
   A restart gives EntryIDs out again exactly if reports were captured after the
   checkpoint that the power took with it, and further ones are captured afterwards.
   */
  lemma RestartReusesEntryIdsExactly(u: Setup, d: Device, save: Event, lost: seq<Op>, start: State, ops: seq<Op>)
    requires Sound(u, d) && Completes(u, d, save) && FitsSlots(d.brcb.queue.retained, u.rooms)
    requires NoRestore(lost) && NoRestore(ops)
    ensures var t := Booted(u, LiveAll(u, d, [save] + Operates(lost)).storage, start, Newest);
      var before, since := Admitted(u.c, d.brcb, lost), Admitted(u.c, t, ops);
      (exists i: nat, j: nat :: i < |before| && j < |since| && before[i].entryId == since[j].entryId) <==>
      before != [] && since != []
  {
    hide Admitted, Booted, LiveAll, Completes, FitsSlots, Run;
    RestartAfterSave(u, d, save, lost, start);
    EntryIdsReusedExactly(u.c, d.brcb, lost, AfterRestore(start, Recovered(d.brcb.queue)), ops);
  }

  /**
   So it does happen: any two reports, one captured after the checkpoint and lost, one
   captured after the restart, can carry the same EntryID.
   */
  lemma TwoReportsOneEntryId(u: Setup, d: Device, save: Event, start: State, p: Pdu, q: Pdu)
    returns (lost: seq<Op>, ops: seq<Op>)
    requires Sound(u, d) && Completes(u, d, save) && FitsSlots(d.brcb.queue.retained, u.rooms)
    requires Interrogable(d.brcb)
    requires start.schedule.triggers.generalInterrogation && |start.schedule.pending.masks| > 0
    ensures var t := Booted(u, LiveAll(u, d, [save] + Operates(lost)).storage, start, Newest);
      var before, since := Admitted(u.c, d.brcb, lost), Admitted(u.c, t, ops);
      && |before| == |since| == 1 && before[0].entryId == since[0].entryId
      && before[0].pdu == p && since[0].pdu == q
  {
    hide Admitted, Booted, LiveAll, Completes, FitsSlots, Run;
    lost := CaptureByInterrogation(u.c, d.brcb, p);
    RestartAfterSave(u, d, save, lost, start);
    ops := CaptureAfterEnabling(u.c, AfterRestore(start, Recovered(d.brcb.queue)), q);
  }

  // ----- Reports across a restart

  /** Captures, commits and whatever leaves the window alone: no cursor moves, purge or restore. */
  ghost predicate Plain(ops: seq<Op>) {
    forall i :: 0 <= i < |ops| ==> !MovesCursor(ops[i]) && !ops[i].PurgeOp? && !ops[i].RestoreOp?
  }

  lemma BookedPlain(c: Config, s: State, op: Op, l: Ledger)
    requires c.capacity > 0 && !MovesCursor(op) && !op.PurgeOp? && !op.RestoreOp?
    requires Allowed(c.capacity, s.queue, MoveOf(c, s, op))
    ensures var m := MoveOf(c, s, op);
      var l' := Booked(c.capacity, s.queue, l, m);
      && l'.captured == (if m.Admit? then l.captured + [m.entry] else l.captured)
      && l.settled <= l'.settled
  {
    hide Allowed, Produce, ToBE, NewEntry;
  }

  /** The ledger of such a run: the saved window and then the captures, settled from where the window had got to. */
  lemma {:induction false} PlainLedger(c: Config, s: State, ops: seq<Op>)
    requires c.capacity > 0 && Loadable(c.capacity, s.queue) && Plain(ops)
    ensures var l := Book(c, s, ops);
      l.captured == s.queue.retained + Admitted(c, s, ops) && Opening(s.queue).settled <= l.settled
  {
    if |ops| == 0 {
      assert s.queue.retained + [] == s.queue.retained;
    } else {
      hide Step, MoveOf, Allowed, Booked, Opening, Loadable;
      var n := |ops| - 1;
      var at := Run(c, s, ops[..n]);
      PlainLedger(c, s, ops[..n]);
      StepMoves(c, at, ops[n]);
      BookedPlain(c, at, ops[n], Book(c, s, ops[..n]));
      AdmittedNext(c, s, ops);
      BookNext(c, s, ops);
    }
  }

  lemma BookNext(c: Config, s: State, ops: seq<Op>)
    requires c.capacity > 0 && |ops| > 0 && s.queue.cursor <= |s.queue.retained|
    ensures var at := Run(c, s, ops[..|ops| - 1]);
      && Allowed(c.capacity, at.queue, MoveOf(c, at, ops[|ops| - 1]))
      && Book(c, s, ops) ==
         Booked(c.capacity, at.queue, Book(c, s, ops[..|ops| - 1]), MoveOf(c, at, ops[|ops| - 1]))
  {
    hide Step, MoveOf, Booked, Allowed, Run;
    StepMoves(c, Run(c, s, ops[..|ops| - 1]), ops[|ops| - 1]);
  }

  /** Report `i` was settled before the power went, and the restarted control block has it to deliver again. */
  ghost predicate UpAgain(l: Ledger, t: Queue, i: nat) {
    i < |l.settled| && t.cursor <= i < |t.retained| && t.retained[i] == Timeless(l.settled[i].entry)
  }

  ghost predicate Undelivered(l: Ledger, i: nat) {
    !(i < |l.settled| && l.settled[i].Delivered?)
  }

  /** Report `i` was captured and not delivered, and the restarted control block does not have it. */
  ghost predicate Vanished(l: Ledger, t: Queue, i: nat) {
    i < |l.captured| && Undelivered(l, i) && i >= |t.retained|
  }

  /**
   What a power loss does to reports, exactly. Of the saved window, those settled since the
   checkpoint are to be delivered again. Of those captured since, all that were not
   delivered are gone, and neither the drop counter nor the replay gap says so.
   */
  lemma RestartRepeatsAndLosesExactly(u: Setup, d: Device, save: Event, lost: seq<Op>, start: State)
    requires Sound(u, d) && Completes(u, d, save) && FitsSlots(d.brcb.queue.retained, u.rooms) && Plain(lost)
    ensures var q, l, more := d.brcb.queue, Book(u.c, d.brcb, lost), Admitted(u.c, d.brcb, lost);
      var t := Booted(u, LiveAll(u, d, [save] + Operates(lost)).storage, start, Newest).queue;
      && l.captured == q.retained + more && Entries(l.settled) <= l.captured && q.cursor <= |l.settled|
      && (forall i: nat :: UpAgain(l, t, i) <==> q.cursor <= i < |l.settled| && i < |q.retained|)
      && (forall i: nat :: Vanished(l, t, i) <==>
            |q.retained| <= i < |q.retained| + |more| && Undelivered(l, i))
      && t.dropped == q.dropped && t.gap == q.gap
  {
    hide Step, MoveOf, Book, Admitted, Booted, LiveAll, Completes, FitsSlots, Run, Consecutive;
    var q, l := d.brcb.queue, Book(u.c, d.brcb, lost);
    RestartAfterSave(u, d, save, lost, start);
    PlainLedger(u.c, d.brcb, lost);
    EveryReportSettledOnce(u.c, d.brcb, lost);
    var t := AfterRestore(start, Recovered(q)).queue;
    assert forall i :: 0 <= i < |l.settled| ==> l.settled[i].entry == Entries(l.settled)[i] == l.captured[i];
    assert forall i :: 0 <= i < |q.retained| ==> t.retained[i] == Timeless(q.retained[i]);
  }

  /** A settled report comes up again exactly if the lost run settled one that the saved window had yet to deliver. */
  lemma RepeatsExactly(u: Setup, d: Device, save: Event, lost: seq<Op>, start: State)
    requires Sound(u, d) && Completes(u, d, save) && FitsSlots(d.brcb.queue.retained, u.rooms) && Plain(lost)
    ensures var q, l := d.brcb.queue, Book(u.c, d.brcb, lost);
      var t := Booted(u, LiveAll(u, d, [save] + Operates(lost)).storage, start, Newest).queue;
      (exists i: nat :: UpAgain(l, t, i)) <==> q.cursor < |l.settled| && q.cursor < |q.retained|
  {
    hide Book, Booted, LiveAll, Completes, FitsSlots, UpAgain, Consecutive;
    var q, l := d.brcb.queue, Book(u.c, d.brcb, lost);
    var t := Booted(u, LiveAll(u, d, [save] + Operates(lost)).storage, start, Newest).queue;
    RestartRepeatsAndLosesExactly(u, d, save, lost, start);
    assert q.cursor < |l.settled| && q.cursor < |q.retained| ==> UpAgain(l, t, q.cursor);
  }

  /**
   A report vanishes uncounted exactly if the lost run captured any and, when the power
   went, had one still to deliver or had evicted one of those it captured.
   */
  lemma VanishesExactly(u: Setup, d: Device, save: Event, lost: seq<Op>, start: State)
    requires Sound(u, d) && Completes(u, d, save) && FitsSlots(d.brcb.queue.retained, u.rooms) && Plain(lost)
    ensures var n, l, at := |d.brcb.queue.retained|, Book(u.c, d.brcb, lost), Run(u.c, d.brcb, lost).queue;
      var t := Booted(u, LiveAll(u, d, [save] + Operates(lost)).storage, start, Newest).queue;
      (exists i: nat :: Vanished(l, t, i)) <==>
        && Admitted(u.c, d.brcb, lost) != []
        && (at.cursor < |at.retained| || exists i :: n <= i < |l.settled| && l.settled[i].Lost?)
  {
    hide Book, Admitted, Booted, LiveAll, Completes, FitsSlots, Vanished, Consecutive, Run;
    var n, l, at := |d.brcb.queue.retained|, Book(u.c, d.brcb, lost), Run(u.c, d.brcb, lost).queue;
    var t := Booted(u, LiveAll(u, d, [save] + Operates(lost)).storage, start, Newest).queue;
    RestartRepeatsAndLosesExactly(u, d, save, lost, start);
    EveryReportSettledOnce(u.c, d.brcb, lost);
    assert |l.captured| == |l.settled| + |at.retained| - at.cursor;
    if Admitted(u.c, d.brcb, lost) != [] && at.cursor < |at.retained| {
      assert Vanished(l, t, |l.captured| - 1);
    } else if i :| n <= i < |l.settled| && l.settled[i].Lost? {
      assert Vanished(l, t, i);
    }
  }

  /** It happens: a report is committed after the checkpoint, and is next in line again after the restart. */
  lemma CommittedComesBack(u: Setup, d: Device, save: Event, start: State) returns (lost: seq<Op>)
    requires Sound(u, d) && Completes(u, d, save) && FitsSlots(d.brcb.queue.retained, u.rooms)
    requires d.brcb.queue.cursor < |d.brcb.queue.retained|
    ensures var q := d.brcb.queue;
      var t := Booted(u, LiveAll(u, d, [save] + Operates(lost)).storage, start, Newest).queue;
      && lost == [CommitOp(q.retained[q.cursor].entryId)]
      && Run(u.c, d.brcb, lost).queue == q.(cursor := q.cursor + 1)
      && t.cursor == q.cursor < |t.retained| && t.retained[t.cursor] == Timeless(q.retained[q.cursor])
  {
    hide Booted, LiveAll, Completes, FitsSlots, Run, Consecutive;
    var q := d.brcb.queue;
    lost := [CommitOp(q.retained[q.cursor].entryId)];
    RestartAfterSave(u, d, save, lost, start);
    RunsOne(u.c, d.brcb, lost[0]);
    CommitsFront(u.c, d.brcb);
  }

  lemma CommitsFront(c: Config, s: State)
    requires c.capacity > 0 && s.queue.cursor < |s.queue.retained|
    ensures Step(c, s, CommitOp(s.queue.retained[s.queue.cursor].entryId)).queue ==
            s.queue.(cursor := s.queue.cursor + 1)
  {
  }

  /** And: a report captured after the checkpoint is gone after the restart, with no drop counted and no gap raised. */
  lemma CapturedVanishes(u: Setup, d: Device, save: Event, start: State, p: Pdu) returns (lost: seq<Op>)
    requires Sound(u, d) && Completes(u, d, save) && FitsSlots(d.brcb.queue.retained, u.rooms)
    requires Interrogable(d.brcb)
    ensures var q, more := d.brcb.queue, Admitted(u.c, d.brcb, lost);
      var t := Booted(u, LiveAll(u, d, [save] + Operates(lost)).storage, start, Newest).queue;
      && |more| == 1 && more[0].pdu == p
      && t.retained == AllTimeless(q.retained) && t.dropped == q.dropped && t.gap == q.gap
  {
    hide Admitted, Booted, LiveAll, Completes, FitsSlots, Run;
    lost := CaptureByInterrogation(u.c, d.brcb, p);
    RestartAfterSave(u, d, save, lost, start);
  }
}
