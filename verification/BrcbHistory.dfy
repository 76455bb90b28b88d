/**
 What holds of a buffered report control block over every run of its operations.
 */
module BrcbHistory {
  import opened Octets
  import opened BrcbLog

  datatype Config = Config(capacity: nat, bufferTime: u32)

  datatype Op =
    | SetEnabledOp(enabled: bool)
    | SetTriggersOp(options: byte)
    | SetPeriodOp(period: u32)
    | SetOptionalOp(fields: seq<byte>)
    | NotifyOp(member: nat, reason: EventReason, now: u64)
    | InterrogateOp
    | NextDueOp(now: u64)
    | CaptureOp(plan: Plan, reportTime: seq<byte>, values: seq<MemberRead>, encode: Report -> Encoding, room: nat)
    | CommitOp(id: seq<byte>)
    | ReplayOp(id: seq<byte>)
    | ResumeOp(id: seq<byte>)
    | RewindOp
    | PurgeOp
    | RestoreOp(queue: Queue)

  function Step(c: Config, s: State, op: Op): State
    requires c.capacity > 0
  {
    match op
    case SetEnabledOp(e) => SetEnabled(s, e)
    case SetTriggersOp(options) => SetTriggers(s, options).0
    case SetPeriodOp(p) => SetIntegrityPeriod(s, p).0
    case SetOptionalOp(f) => SetOptionalFields(s, f).0
    case NotifyOp(m, r, now) => Notify(s, m, r, now, c.bufferTime).0
    case InterrogateOp => RequestInterrogation(s).0
    case NextDueOp(now) => NextDue(s, c.capacity, now).0
    case CaptureOp(plan, t, values, encode, room) =>
      if |values| != |s.schedule.pending.masks| then s
      else Capture(s, c.capacity, plan, t, values, encode, room).0
    case CommitOp(id) => Commit(s, id).0
    case ReplayOp(id) => ReplayFrom(s, id).0
    case ResumeOp(id) => ResumeAfter(s, id).0
    case RewindOp => Rewind(s)
    case PurgeOp => Purge(s)
    case RestoreOp(q) => if Loadable(c.capacity, q) then AfterRestore(s, q) else s
  }

  /**
   What an image must describe to be restored: entries numbered in order up to `next`, the
   last of them with the current sequence number.
   */
  predicate Ordered(q: Queue) {
    && Consecutive(q.retained, q.next) && q.next != 0
    && q.cursor <= |q.retained|
    && (q.retained != [] ==> q.sequence == q.retained[|q.retained| - 1].sequenceNumber)
  }

  predicate Loadable(capacity: nat, q: Queue) {
    Ordered(q) && |q.retained| <= capacity
  }

  // ----- The ledger: what happened, kept apart from the state that has to remember it

  datatype Fate = Delivered(entry: Entry) | Lost(entry: Entry)

  /**
   Reports captured, and reports delivered or lost, since the last purge or restore; all
   losses ever. A restored window counts as captured, and delivered up to its cursor.
   */
  datatype Ledger = Ledger(captured: seq<Entry>, settled: seq<Fate>, losses: nat, lostSincePurge: nat)

  /** What an operation does to the retained window, whatever else it does. */
  datatype Move = Stay | Admit(entry: Entry) | Deliver | Place(cursor: nat) | Wipe | Load(queue: Queue)

  function MoveOf(c: Config, s: State, op: Op): Move
    requires c.capacity > 0
  {
    match op
    case CaptureOp(plan, t, values, encode, room) =>
      if |values| == |s.schedule.pending.masks| &&
         Capture(s, c.capacity, plan, t, values, encode, room).1 == Ok
      then Admit(NewEntry(plan, t, Produce(s, plan, t, values, encode).pdu))
      else Stay
    case CommitOp(id) => if Commit(s, id).1 == Ok then Deliver else Stay
    case ReplayOp(id) => if ReplayFrom(s, id).1 == Ok then Place(Find(s.queue.retained, id).value) else Stay
    case ResumeOp(id) => if ResumeAfter(s, id).1 == Ok then Place(Find(s.queue.retained, id).value + 1) else Stay
    case RewindOp => Place(0)
    case PurgeOp => Wipe
    case RestoreOp(q) => if Loadable(c.capacity, q) then Load(q) else Stay
    case _ => Stay
  }

  function Moved(capacity: nat, q: Queue, m: Move): Queue
    requires capacity > 0
  {
    match m
    case Stay => q
    case Admit(e) => Append(q, capacity, e)
    case Deliver => q.(cursor := q.cursor + 1)
    case Place(i) => q.(cursor := i)
    case Wipe => q.(retained := [], cursor := 0, gap := false)
    case Load(loaded) => loaded
  }

  /** A move this window allows: a report enters under the next EntryID, marked iff it evicts an undelivered one. */
  predicate Allowed(capacity: nat, q: Queue, m: Move) {
    match m
    case Stay => true
    case Admit(e) => e.entryId == ToBE(8, q.next) && e.bufferOverflow == Overflows(q, capacity) &&
                     e.sequenceNumber == NextSequence(q.sequence)
    case Deliver => q.cursor < |q.retained|
    case Place(i) => i <= |q.retained|
    case Wipe => true
    case Load(loaded) => Loadable(capacity, loaded)
  }

  /** The ledger of a run that starts with this window. */
  function Opening(q: Queue): Ledger
    requires q.cursor <= |q.retained|
  {
    Ledger(q.retained, seq(q.cursor, i requires 0 <= i < q.cursor => Delivered(q.retained[i])), q.dropped,
           if q.gap then 1 else 0)
  }

  function Booked(capacity: nat, q: Queue, l: Ledger, m: Move): Ledger
    requires capacity > 0 && Allowed(capacity, q, m)
  {
    match m
    case Admit(e) =>
      var l' := l.(captured := l.captured + [e]);
      if Overflows(q, capacity)
      then l'.(settled := l.settled + [Lost(q.retained[0])], losses := l.losses + 1,
               lostSincePurge := l.lostSincePurge + 1)
      else l'
    case Deliver => l.(settled := l.settled + [Delivered(q.retained[q.cursor])])
    case Wipe => l.(captured := [], settled := [], lostSincePurge := 0)
    case Load(loaded) => Opening(loaded)
    case _ => l
  }

  /** Every operation is such a move and nothing more; a refused one leaves the window alone. */
  lemma StepMoves(c: Config, s: State, op: Op)
    requires c.capacity > 0
    ensures Allowed(c.capacity, s.queue, MoveOf(c, s, op))
    ensures Step(c, s, op).queue == Moved(c.capacity, s.queue, MoveOf(c, s, op))
  {
    hide Produce, ToBE, Restarted, Find, Ordered;
  }

  function Run(c: Config, s: State, ops: seq<Op>): State
    requires c.capacity > 0
  {
    if |ops| == 0 then s else Step(c, Run(c, s, ops[..|ops| - 1]), ops[|ops| - 1])
  }

  function Book(c: Config, s: State, ops: seq<Op>): Ledger
    requires c.capacity > 0 && s.queue.cursor <= |s.queue.retained|
  {
    if |ops| == 0 then Opening(s.queue)
    else
      var before := ops[..|ops| - 1];
      var at := Run(c, s, before);
      StepMoves(c, at, ops[|ops| - 1]);
      Booked(c.capacity, at.queue, Book(c, s, before), MoveOf(c, at, ops[|ops| - 1]))
  }

  // ----- Ring refines log

  function Min(a: nat, b: nat): nat {
    if a < b then a else b
  }

  predicate Consecutive(es: seq<Entry>, next: u64) {
    && (forall i :: 0 <= i < |es| ==> |es[i].entryId| == 8 && Number(es[i]) != 0)
    && (forall i :: 0 < i < |es| ==> Number(es[i]) == Successor(Number(es[i - 1])))
    && (es != [] ==> next == Successor(Number(es[|es| - 1])))
  }

  function Successor(n: nat): nat {
    if n == U64_MAX then 1 else n + 1
  }

  /** The retained window is the newest part of what was captured since the last purge or restore. */
  ghost predicate Window(capacity: nat, q: Queue, l: Ledger) {
    && |q.retained| == Min(capacity, |l.captured|)
    && q.retained == l.captured[|l.captured| - |q.retained|..]
    && q.cursor <= |q.retained|
    && q.next != 0
    && Consecutive(l.captured, q.next)
    && (q.retained != [] ==> q.sequence == q.retained[|q.retained| - 1].sequenceNumber)
  }

  /** Losses are counted modulo 2^64 and remembered until the buffer is purged. */
  ghost predicate Accounted(q: Queue, l: Ledger) {
    && q.dropped == l.losses % U64_LIMIT
    && q.gap == (l.lostSincePurge > 0)
    && (l.lostSincePurge == 0 ==> forall i :: 0 <= i < |l.settled| ==> l.settled[i].Delivered?)
  }

  lemma ExtendConsecutive(es: seq<Entry>, next: u64, e: Entry)
    requires Consecutive(es, next) && next != 0 && e.entryId == ToBE(8, next)
    ensures Consecutive(es + [e], NextEntryNumber(next))
  {
    WordSizes();
    FromToBE(8, next);
    var all := es + [e];
    forall i | 0 < i < |all| ensures Number(all[i]) == Successor(Number(all[i - 1])) {
      if i == |es| { assert all[i - 1] == es[|es| - 1]; }
    }
  }

  lemma NothingConsecutive(next: u64)
    ensures Consecutive([], next)
  {
  }

  lemma WindowGrows(capacity: nat, q: Queue, captured: seq<Entry>, e: Entry)
    requires capacity > 0
    requires |q.retained| == Min(capacity, |captured|)
    requires q.retained == captured[|captured| - |q.retained|..]
    ensures var r := Append(q, capacity, e).retained;
      |r| == Min(capacity, |captured| + 1) && r == (captured + [e])[|captured| + 1 - |r|..] && r[|r| - 1] == e
  {
  }

  lemma AppendFields(capacity: nat, q: Queue, e: Entry)
    requires capacity > 0 && q.cursor <= |q.retained|
    ensures var q' := Append(q, capacity, e);
      q'.next == NextEntryNumber(q.next) && q'.sequence == e.sequenceNumber && q'.cursor <= |q'.retained|
  {
  }

  lemma WindowAdmits(capacity: nat, q: Queue, l: Ledger, e: Entry)
    requires capacity > 0 && Allowed(capacity, q, Admit(e)) && Window(capacity, q, l)
    ensures Window(capacity, Append(q, capacity, e), Booked(capacity, q, l, Admit(e)))
  {
    hide Consecutive, ToBE, Append, NextEntryNumber, Min;
    ExtendConsecutive(l.captured, q.next, e);
    WindowGrows(capacity, q, l.captured, e);
    AppendFields(capacity, q, e);
    assert Booked(capacity, q, l, Admit(e)).captured == l.captured + [e];
  }

  /** A move that only places the cursor inside the window. */
  lemma WindowPlaced(capacity: nat, q: Queue, l: Ledger, q': Queue, l': Ledger)
    requires Window(capacity, q, l)
    requires q' == q.(cursor := q'.cursor) && l'.captured == l.captured && q'.cursor <= |q.retained|
    ensures Window(capacity, q', l')
  {
    hide Consecutive;
  }

  lemma WindowWiped(capacity: nat, q: Queue, l: Ledger)
    requires capacity > 0 && Window(capacity, q, l)
    ensures Window(
      capacity, q.(retained := [], cursor := 0, gap := false), l.(captured := [], settled := [], lostSincePurge := 0))
  {
    hide Consecutive;
    NothingConsecutive(q.next);
  }

  lemma WindowOpens(capacity: nat, q: Queue)
    requires Loadable(capacity, q)
    ensures Window(capacity, q, Opening(q)) && Accounted(q, Opening(q)) && Conserved(q, Opening(q))
  {
    hide Consecutive;
    assert Entries(Opening(q).settled) == q.retained[..q.cursor];
  }

  lemma WindowMove(capacity: nat, q: Queue, l: Ledger, m: Move)
    requires capacity > 0 && Allowed(capacity, q, m) && Window(capacity, q, l)
    ensures Window(capacity, Moved(capacity, q, m), Booked(capacity, q, l, m))
  {
    CursorInside(capacity, q, l);
    hide Window, ToBE, Append;
    match m
    case Admit(e) => WindowAdmits(capacity, q, l, e);
    case Wipe => WindowWiped(capacity, q, l);
    case Load(loaded) => WindowOpens(capacity, loaded);
    case _ => WindowPlaced(capacity, q, l, Moved(capacity, q, m), Booked(capacity, q, l, m));
  }

  lemma CursorInside(capacity: nat, q: Queue, l: Ledger)
    requires Window(capacity, q, l)
    ensures q.cursor <= |q.retained|
  {
  }

  lemma AccountedMove(capacity: nat, q: Queue, l: Ledger, m: Move)
    requires capacity > 0 && Allowed(capacity, q, m) && |q.retained| <= capacity && Accounted(q, l)
    ensures Accounted(Moved(capacity, q, m), Booked(capacity, q, l, m))
  {
    hide Ordered;
  }

  ghost predicate Fresh(s: State) {
    s.queue == Queue([], 0, 1, 0, false, 0)
  }

  lemma FreshIsLoadable(capacity: nat, s: State)
    requires Fresh(s)
    ensures Loadable(capacity, s.queue) && Opening(s.queue) == Ledger([], [], 0, 0)
  {
  }

  /**
   After every run, restores included: the window holds exactly the newest min(capacity,
   captured) reports captured since the last purge or restore, with consecutive EntryIDs;
   the drop counter counts the undelivered reports evicted, and the replay gap is up
   exactly while one was evicted since then.
   */
  lemma {:induction false} RunKeepsWindow(c: Config, s: State, ops: seq<Op>)
    requires c.capacity > 0 && Loadable(c.capacity, s.queue)
    ensures Window(c.capacity, Run(c, s, ops).queue, Book(c, s, ops))
    ensures Accounted(Run(c, s, ops).queue, Book(c, s, ops))
  {
    if |ops| != 0 {
      var before, op := ops[..|ops| - 1], ops[|ops| - 1];
      var at := Run(c, s, before);
      RunKeepsWindow(c, s, before);
      assert |at.queue.retained| <= c.capacity;
      hide Window, Accounted, Moved, MoveOf, Step, Booked, Allowed;
      StepMoves(c, at, op);
      WindowMove(c.capacity, at.queue, Book(c, s, before), MoveOf(c, at, op));
      AccountedMove(c.capacity, at.queue, Book(c, s, before), MoveOf(c, at, op));
    } else {
      WindowOpens(c.capacity, s.queue);
    }
  }

  // ----- Conservation

  function Entries(fates: seq<Fate>): seq<Entry> {
    seq(|fates|, i requires 0 <= i < |fates| => fates[i].entry)
  }

  lemma EntriesExtend(fates: seq<Fate>, f: Fate)
    ensures Entries(fates + [f]) == Entries(fates) + [f.entry]
  {
  }

  predicate MovesCursor(op: Op) {
    op.ReplayOp? || op.ResumeOp? || op.RewindOp?
  }

  /** Delivered or lost so far, then still to be delivered: nothing twice, nothing missing, in order. */
  ghost predicate Conserved(q: Queue, l: Ledger) {
    q.cursor <= |q.retained| && l.captured == Entries(l.settled) + q.retained[q.cursor..]
  }

  lemma ConservedMove(capacity: nat, q: Queue, l: Ledger, m: Move)
    requires capacity > 0 && Allowed(capacity, q, m) && !m.Place?
    requires |q.retained| <= capacity && Conserved(q, l)
    ensures Conserved(Moved(capacity, q, m), Booked(capacity, q, l, m))
  {
    var q' := Moved(capacity, q, m);
    match m
    case Admit(e) =>
      if Overflows(q, capacity) {
        EntriesExtend(l.settled, Lost(q.retained[0]));
        assert q.retained[0..] == [q.retained[0]] + q.retained[1..];
        assert q'.retained[0..] == q.retained[1..] + [e];
      } else {
        assert q'.retained[q'.cursor..] == q.retained[q.cursor..] + [e];
      }
    case Deliver =>
      EntriesExtend(l.settled, Delivered(q.retained[q.cursor]));
      assert q.retained[q.cursor..] == [q.retained[q.cursor]] + q.retained[q.cursor + 1..];
    case Load(loaded) => WindowOpens(capacity, loaded);
    case _ =>
  }

  /**
   In every run that never moves the cursor back or forth by hand, each report
   captured since the last purge or restore is delivered once, or counted as lost once,
   or still queued, and in capture order. What a restart does to reports is another
   matter: the ledger of a restore starts with what it restored.
   */
  lemma {:induction false} EveryReportSettledOnce(c: Config, s: State, ops: seq<Op>)
    requires c.capacity > 0 && Loadable(c.capacity, s.queue)
    requires forall i :: 0 <= i < |ops| ==> !MovesCursor(ops[i])
    ensures Conserved(Run(c, s, ops).queue, Book(c, s, ops))
  {
    if |ops| != 0 {
      hide Window, Conserved, Moved, MoveOf, Step, Booked, Allowed, MovesCursor;
      var before, op := ops[..|ops| - 1], ops[|ops| - 1];
      var at := Run(c, s, before);
      EveryReportSettledOnce(c, s, before);
      RunKeepsWindow(c, s, before);
      WindowBounded(c.capacity, at.queue, Book(c, s, before));
      PlaceMovesCursor(c, at, op);
      StepMoves(c, at, op);
      ConservedMove(c.capacity, at.queue, Book(c, s, before), MoveOf(c, at, op));
    } else {
      WindowOpens(c.capacity, s.queue);
    }
  }

  lemma PlaceMovesCursor(c: Config, s: State, op: Op)
    requires c.capacity > 0
    ensures MoveOf(c, s, op).Place? ==> MovesCursor(op)
  {
  }

  lemma WindowBounded(capacity: nat, q: Queue, l: Ledger)
    requires Window(capacity, q, l)
    ensures |q.retained| <= capacity
  {
  }

  /** While no replay gap is up, what was committed is a prefix of what was captured. */
  lemma CommittedIsPrefix(c: Config, s: State, ops: seq<Op>)
    requires c.capacity > 0 && Loadable(c.capacity, s.queue)
    requires forall i :: 0 <= i < |ops| ==> !MovesCursor(ops[i])
    requires !Run(c, s, ops).queue.gap
    ensures var l := Book(c, s, ops);
      Entries(l.settled) <= l.captured && forall i :: 0 <= i < |l.settled| ==> l.settled[i].Delivered?
  {
    EveryReportSettledOnce(c, s, ops);
    RunKeepsWindow(c, s, ops);
  }

  // ----- Stale plans

  const REVISIONS: nat := U32_LIMIT - 1

  function BumpTimes(revision: u32, k: nat): u32 {
    if k == 0 then revision else Bump(BumpTimes(revision, k - 1))
  }

  /** A revision comes back exactly after a multiple of 2^32 - 1 bumps. */
  lemma {:induction false} BumpCycle(revision: u32, k: nat)
    requires revision != 0
    ensures BumpTimes(revision, k) == 1 + (revision - 1 + k) % REVISIONS
    ensures BumpTimes(revision, k) == revision <==> k % REVISIONS == 0
  {
    if k != 0 {
      BumpCycle(revision, k - 1);
      ModSuccessor(revision - 2 + k, REVISIONS);
    }
    SameResidue(revision - 1, k, REVISIONS);
  }

  lemma OneMoreBump(revision: u32, k: nat)
    ensures BumpTimes(revision, 0) == revision && BumpTimes(revision, k + 1) == Bump(BumpTimes(revision, k))
  {
  }

  predicate MovesQueue(c: Config, s: State, op: Op)
    requires c.capacity > 0
  {
    MoveOf(c, s, op) != Stay
  }

  function QueueMoves(c: Config, s: State, ops: seq<Op>): nat
    requires c.capacity > 0
  {
    if |ops| == 0 then 0
    else
      var before := ops[..|ops| - 1];
      QueueMoves(c, s, before) + (if MovesQueue(c, Run(c, s, before), ops[|ops| - 1]) then 1 else 0)
  }

  lemma StepBumps(c: Config, s: State, op: Op)
    requires c.capacity > 0
    ensures Step(c, s, op).queueRevision ==
            if MovesQueue(c, s, op) then Bump(s.queueRevision) else s.queueRevision
  {
    hide Produce, ToBE, Restarted, Append, Ordered;
  }

  lemma {:induction false} RevisionCountsMoves(c: Config, s: State, ops: seq<Op>)
    requires c.capacity > 0
    ensures Run(c, s, ops).queueRevision == BumpTimes(s.queueRevision, QueueMoves(c, s, ops))
  {
    if |ops| != 0 {
      hide Step, MoveOf, BumpTimes, Bump;
      var before := ops[..|ops| - 1];
      RevisionCountsMoves(c, s, before);
      OneMoreBump(s.queueRevision, QueueMoves(c, s, before));
      StepBumps(c, Run(c, s, before), ops[|ops| - 1]);
    }
  }

  /**
   A plan outlived by captures, commits, cursor moves or a purge is refused and
   changes nothing, unless their number is a multiple of 2^32 - 1.
   */
  lemma StalePlanRefused(c: Config, s: State, ops: seq<Op>, plan: Plan, reportTime: seq<byte>,
                         values: seq<MemberRead>, encode: Report -> Encoding, room: nat)
    requires c.capacity > 0 && s.queueRevision != 0 && plan.queueRevision == s.queueRevision
    requires QueueMoves(c, s, ops) % REVISIONS != 0
    requires |values| == |Run(c, s, ops).schedule.pending.masks|
    ensures Capture(Run(c, s, ops), c.capacity, plan, reportTime, values, encode, room) ==
            (Run(c, s, ops), StalePlan)
  {
    RevisionCountsMoves(c, s, ops);
    BumpCycle(s.queueRevision, QueueMoves(c, s, ops));
  }

  function Rewinds(k: nat): (ops: seq<Op>)
    ensures |ops| == k && forall i :: 0 <= i < k ==> ops[i] == RewindOp
  {
    seq(k, _ => RewindOp)
  }

  lemma {:induction false} RewindsOnlyBump(c: Config, s: State, k: nat)
    requires c.capacity > 0 && s.queue.cursor == 0
    ensures Run(c, s, Rewinds(k)) == s.(queueRevision := BumpTimes(s.queueRevision, k))
  {
    if k != 0 {
      RewindsOnlyBump(c, s, k - 1);
      assert Rewinds(k)[..k - 1] == Rewinds(k - 1);
    }
  }

  /** The exception is real: 2^32 - 1 rewinds later the same plan is current again. */
  lemma RevisionWrapsAround(c: Config, s: State, plan: Plan)
    requires c.capacity > 0 && s.queueRevision != 0 && s.queue.cursor == 0
    requires Current(s, c.capacity, plan)
    ensures Current(Run(c, s, Rewinds(REVISIONS)), c.capacity, plan)
  {
    RewindsOnlyBump(c, s, REVISIONS);
    BumpCycle(s.queueRevision, REVISIONS);
  }

  /** A plan just made is current, and stays so until something else happens. */
  lemma FreshPlanCurrent(s: State, capacity: nat, now: u64)
    requires NextDue(s, capacity, now).1.Some?
    ensures Current(NextDue(s, capacity, now).0, capacity, NextDue(s, capacity, now).1.value)
  {
  }
}
