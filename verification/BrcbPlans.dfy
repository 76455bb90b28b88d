/**
 When a capture plan is still good, and how EntryIDs run on: every counter a plan is
 checked against, followed over every run.
 */
module BrcbPlans {
  import opened Octets
  import opened BrcbLog
  import opened BrcbHistory
  import opened BrcbSchedule

  // ----- EntryIDs and sequence numbers

  /** EntryIDs skip zero, so they come back after 2^64 - 1 reports. */
  const NUMBERS: nat := U64_MAX

  function NumberAfter(n: u64, k: nat): u64 {
    if k == 0 then n else NextEntryNumber(NumberAfter(n, k - 1))
  }

  lemma {:induction false} NumberCycle(n: u64, k: nat)
    requires n != 0
    ensures NumberAfter(n, k) == 1 + (n - 1 + k) % NUMBERS
    ensures NumberAfter(n, k) == n <==> k % NUMBERS == 0
  {
    if k != 0 {
      NumberCycle(n, k - 1);
      ModSuccessor(n - 2 + k, NUMBERS);
    }
    SameResidue(n - 1, k, NUMBERS);
  }

  function SequenceAfter(sequence: byte, k: nat): byte {
    if k == 0 then sequence else NextSequence(SequenceAfter(sequence, k - 1))
  }

  lemma {:induction false} SequenceCycle(sequence: byte, k: nat)
    ensures SequenceAfter(sequence, k) == (sequence + k) % 256
    ensures SequenceAfter(sequence, k) == sequence <==> k % 256 == 0
  {
    if k != 0 {
      SequenceCycle(sequence, k - 1);
      ModSuccessor(sequence + k - 1, 256);
    }
    SameResidue(sequence, k, 256);
  }

  ghost predicate NoRestore(ops: seq<Op>) {
    forall i :: 0 <= i < |ops| ==> !ops[i].RestoreOp?
  }

  /** All reports a run captures, in order, whatever becomes of them. */
  function Admitted(c: Config, s: State, ops: seq<Op>): seq<Entry>
    requires c.capacity > 0
  {
    if |ops| == 0 then []
    else
      var n := |ops| - 1;
      match MoveOf(c, Run(c, s, ops[..n]), ops[n])
      case Admit(e) => Admitted(c, s, ops[..n]) + [e]
      case _ => Admitted(c, s, ops[..n])
  }

  lemma MoveNumbers(capacity: nat, q: Queue, m: Move)
    requires capacity > 0 && Allowed(capacity, q, m) && !m.Load?
    ensures var q' := Moved(capacity, q, m);
      if m.Admit?
      then q'.next == NextEntryNumber(q.next) && q'.sequence == NextSequence(q.sequence) &&
           m.entry.entryId == ToBE(8, q.next)
      else q'.next == q.next && q'.sequence == q.sequence
  {
    hide ToBE;
  }

  /** Reports `es` have been captured between two windows, one EntryID and sequence number after the other. */
  ghost predicate Numbered(from: Queue, to: Queue, es: seq<Entry>) {
    && to.next == NumberAfter(from.next, |es|)
    && to.sequence == SequenceAfter(from.sequence, |es|)
    && forall i :: 0 <= i < |es| ==> es[i].entryId == ToBE(8, NumberAfter(from.next, i))
  }

  lemma NumberedMove(capacity: nat, from: Queue, q: Queue, es: seq<Entry>, m: Move)
    requires capacity > 0 && Allowed(capacity, q, m) && !m.Load? && Numbered(from, q, es)
    ensures Numbered(from, Moved(capacity, q, m), if m.Admit? then es + [m.entry] else es)
  {
    hide Moved, Allowed, ToBE, NumberAfter, SequenceAfter, NextEntryNumber, NextSequence;
    MoveNumbers(capacity, q, m);
    OneFurther(from.next, from.sequence, |es|);
  }

  lemma AdmittedNext(c: Config, s: State, ops: seq<Op>)
    requires c.capacity > 0 && |ops| > 0
    ensures var n := |ops| - 1;
      var m, before := MoveOf(c, Run(c, s, ops[..n]), ops[n]), Admitted(c, s, ops[..n]);
      Admitted(c, s, ops) == if m.Admit? then before + [m.entry] else before
  {
    hide MoveOf, Run;
  }

  /** The k-th report of a run gets the k-th EntryID from where the run started. */
  lemma {:induction false} CapturesAreNumbered(c: Config, s: State, ops: seq<Op>)
    requires c.capacity > 0 && NoRestore(ops)
    ensures Numbered(s.queue, Run(c, s, ops).queue, Admitted(c, s, ops))
  {
    if |ops| == 0 {
      NoneYet(s.queue.next, s.queue.sequence);
    } else {
      hide Step, MoveOf, Moved, Allowed, Numbered, Admitted;
      var n := |ops| - 1;
      var at := Run(c, s, ops[..n]);
      CapturesAreNumbered(c, s, ops[..n]);
      StepMoves(c, at, ops[n]);
      OnlyRestoreLoads(c, at, ops[n]);
      AdmittedNext(c, s, ops);
      NumberedMove(c.capacity, s.queue, at.queue, Admitted(c, s, ops[..n]), MoveOf(c, at, ops[n]));
    }
  }

  lemma OneFurther(n: u64, sequence: byte, k: nat)
    ensures NumberAfter(n, k + 1) == NextEntryNumber(NumberAfter(n, k))
    ensures SequenceAfter(sequence, k + 1) == NextSequence(SequenceAfter(sequence, k))
  {
  }

  lemma NoneYet(n: u64, sequence: byte)
    ensures NumberAfter(n, 0) == n && SequenceAfter(sequence, 0) == sequence
  {
  }

  lemma OnlyRestoreLoads(c: Config, s: State, op: Op)
    requires c.capacity > 0
    ensures MoveOf(c, s, op).Load? ==> op.RestoreOp?
  {
  }

  /**
   Two runs that start from the same saved window, one lost with the power and one after
   the restart, give report i of the first and report j of the second the same EntryID
   exactly if i and j differ by a multiple of 2^64 - 1.
   */
  lemma SameEntryIdExactly(c: Config, s: State, lost: seq<Op>, t: State, ops: seq<Op>, i: nat, j: nat)
    requires c.capacity > 0 && NoRestore(lost) && NoRestore(ops) && s.queue.next == t.queue.next != 0
    requires i < |Admitted(c, s, lost)| && j < |Admitted(c, t, ops)|
    ensures Admitted(c, s, lost)[i].entryId == Admitted(c, t, ops)[j].entryId <==> i % NUMBERS == j % NUMBERS
  {
    hide Admitted, Run, ToBE;
    var n := s.queue.next;
    CapturesAreNumbered(c, s, lost);
    CapturesAreNumbered(c, t, ops);
    NumbersAgree(n, i, j);
    SameNumberSameId(NumberAfter(n, i), NumberAfter(n, j));
  }

  lemma SameNumberSameId(a: u64, b: u64)
    ensures ToBE(8, a) == ToBE(8, b) <==> a == b
  {
    WordSizes();
    FromToBE(8, a);
    FromToBE(8, b);
  }

  lemma NumbersAgree(n: u64, i: nat, j: nat)
    requires n != 0
    ensures NumberAfter(n, i) == NumberAfter(n, j) <==> i % NUMBERS == j % NUMBERS
  {
    hide NumberAfter;
    NumberCycle(n, i);
    NumberCycle(n, j);
    Shifted(n - 1, i, j, NUMBERS);
  }

  lemma Shifted(a: nat, i: nat, j: nat, m: nat)
    requires m > 0 && a < m
    ensures (a + i) % m == (a + j) % m <==> i % m == j % m
  {
    ReducedSum(a, i, m);
    ReducedSum(a, j, m);
  }

  lemma ReducedSum(a: nat, i: nat, m: nat)
    requires m > 0 && a < m
    ensures var r := i % m; r < m && (a + i) % m == if a + r < m then a + r else a + r - m
  {
    var q, r := i / m, i % m;
    assert i == q * m + r;
    if a + r < m {
      Remainder(a + i, m, q, a + r);
    } else {
      assert (q + 1) * m == q * m + m;
      Remainder(a + i, m, q + 1, a + r - m);
    }
  }

  /**
   EntryIDs are reused across a restart exactly if something was captured between the
   saved window and the loss of power, and something is captured after the restart.
   */
  lemma EntryIdsReusedExactly(c: Config, s: State, lost: seq<Op>, t: State, ops: seq<Op>)
    requires c.capacity > 0 && NoRestore(lost) && NoRestore(ops) && s.queue.next == t.queue.next != 0
    ensures (exists i: nat, j: nat ::
               i < |Admitted(c, s, lost)| && j < |Admitted(c, t, ops)| &&
               Admitted(c, s, lost)[i].entryId == Admitted(c, t, ops)[j].entryId) <==>
            Admitted(c, s, lost) != [] && Admitted(c, t, ops) != []
  {
    hide Admitted, Run;
    var a, b := Admitted(c, s, lost), Admitted(c, t, ops);
    if a != [] && b != [] {
      SameEntryIdExactly(c, s, lost, t, ops, 0, 0);
      assert a[0].entryId == b[0].entryId;
    }
  }

  // ----- One EntryID, one report

  /** The window is the newest part of `history`, which is numbered without a break up to the next EntryID. */
  ghost predicate Recent(q: Queue, history: seq<Entry>) {
    && q.next != 0 && Consecutive(history, q.next)
    && |q.retained| <= |history| && q.retained == history[|history| - |q.retained|..]
  }

  lemma RecentAdmits(capacity: nat, q: Queue, history: seq<Entry>, e: Entry)
    requires capacity > 0 && Recent(q, history) && e.entryId == ToBE(8, q.next)
    ensures Recent(Append(q, capacity, e), history + [e])
  {
    hide Consecutive, ToBE;
    ExtendConsecutive(history, q.next, e);
  }

  lemma RecentMove(capacity: nat, q: Queue, history: seq<Entry>, m: Move)
    requires capacity > 0 && Allowed(capacity, q, m) && !m.Load? && Recent(q, history)
    ensures Recent(Moved(capacity, q, m), if m.Admit? then history + [m.entry] else history)
  {
    hide Consecutive, ToBE, Append;
    if m.Admit? {
      RecentAdmits(capacity, q, history, m.entry);
    }
  }

  lemma RecentAtFirst(capacity: nat, q: Queue)
    requires Loadable(capacity, q)
    ensures Recent(q, q.retained)
  {
    hide Consecutive;
  }

  /** Until something is restored, whatever the window holds was in it or was captured since. */
  lemma {:induction false} WindowIsRecent(c: Config, s: State, ops: seq<Op>)
    requires c.capacity > 0 && NoRestore(ops) && Loadable(c.capacity, s.queue)
    ensures Recent(Run(c, s, ops).queue, s.queue.retained + Admitted(c, s, ops))
  {
    hide Step, MoveOf, Moved, Allowed, Recent, Loadable;
    if |ops| == 0 {
      RecentAtFirst(c.capacity, s.queue);
      assert s.queue.retained + Admitted(c, s, ops) == s.queue.retained;
    } else {
      hide Admitted;
      var n := |ops| - 1;
      var at, before := Run(c, s, ops[..n]), Admitted(c, s, ops[..n]);
      var m := MoveOf(c, at, ops[n]);
      WindowIsRecent(c, s, ops[..n]);
      StepMoves(c, at, ops[n]);
      OnlyRestoreLoads(c, at, ops[n]);
      AdmittedNext(c, s, ops);
      RecentMove(c.capacity, at.queue, s.queue.retained + before, m);
      if m.Admit? {
        assert s.queue.retained + before + [m.entry] == s.queue.retained + (before + [m.entry]);
      }
    }
  }

  lemma {:induction false} NumbersRunOn(es: seq<Entry>, next: u64, i: nat, d: nat)
    requires Consecutive(es, next) && i + d < |es|
    ensures 0 < Number(es[i]) < U64_LIMIT && Number(es[i + d]) == NumberAfter(Number(es[i]), d)
  {
    WordSizes();
    if d != 0 {
      NumbersRunOn(es, next, i, d - 1);
    }
  }

  /** Of fewer than 2^64 reports in a row no two have the same EntryID. */
  lemma NoEntryIdTwice(es: seq<Entry>, next: u64, i: nat, j: nat)
    requires Consecutive(es, next) && i <= j < |es| && j - i < NUMBERS && es[i].entryId == es[j].entryId
    ensures i == j
  {
    hide Consecutive, NumberAfter;
    NumbersRunOn(es, next, i, j - i);
    NumberCycle(Number(es[i]), j - i);
  }

  /**
   A report is named by its EntryID for as long as nothing is restored and fewer than
   2^64 - 1 reports follow it: what the window then has under that EntryID is that report.
   */
  lemma SameIdSameReport(c: Config, s: State, ops: seq<Op>, i: nat, j: nat)
    requires c.capacity > 0 && NoRestore(ops) && Loadable(c.capacity, s.queue) && c.capacity <= NUMBERS
    requires i < |s.queue.retained| && |s.queue.retained| - i + |Admitted(c, s, ops)| <= NUMBERS
    requires j < |Run(c, s, ops).queue.retained|
    requires Run(c, s, ops).queue.retained[j].entryId == s.queue.retained[i].entryId
    ensures Run(c, s, ops).queue.retained[j] == s.queue.retained[i]
  {
    WindowIsRecent(c, s, ops);
    hide Run, Admitted, Consecutive, Number;
    var q, history := Run(c, s, ops).queue, s.queue.retained + Admitted(c, s, ops);
    var k := |history| - |q.retained| + j;
    assert history[k] == q.retained[j] && history[i] == s.queue.retained[i];
    if i <= k {
      NoEntryIdTwice(history, q.next, i, k);
    } else {
      NoEntryIdTwice(history, q.next, k, i);
    }
  }

  // ----- Revisions of the schedule

  /** Operations that change what is pending. */
  function PendingMoves(c: Config, s: State, ops: seq<Op>): nat
    requires c.capacity > 0
  {
    if |ops| == 0 then 0
    else
      var n := |ops| - 1;
      var at := Run(c, s, ops[..n]);
      PendingMoves(c, s, ops[..n]) + if Clears(c, at, ops[n]) || Accepts(c, at, ops[n]) then 1 else 0
  }

  /**
   Operations that change the schedule: switching, reconfiguring, an interrogation asked for or
   reported, an integrity period begun or reported.
   */
  predicate Reschedules(c: Config, s: State, op: Op)
    requires c.capacity > 0
  {
    match op
    case InterrogateOp => s.schedule.enabled && s.schedule.triggers.generalInterrogation && !s.schedule.giPending
    case NextDueOp(_) => s.schedule.enabled && s.schedule.integrityArmed && s.schedule.integrityDue == 0
    case CaptureOp(plan, _, _, _, _) => MoveOf(c, s, op).Admit? && plan.reason != Event
    case RestoreOp(_) => false
    case _ => Clears(c, s, op)
  }

  function ScheduleMoves(c: Config, s: State, ops: seq<Op>): nat
    requires c.capacity > 0
  {
    if |ops| == 0 then 0
    else
      var n := |ops| - 1;
      ScheduleMoves(c, s, ops[..n]) + if Reschedules(c, Run(c, s, ops[..n]), ops[n]) then 1 else 0
  }

  lemma StepRevisions(c: Config, s: State, op: Op)
    requires c.capacity > 0 && !op.RestoreOp?
    ensures var p, p' := s.schedule, Step(c, s, op).schedule;
      && p'.pending.revision ==
         (if Clears(c, s, op) || Accepts(c, s, op) then Bump(p.pending.revision) else p.pending.revision)
      && p'.revision == if Reschedules(c, s, op) then Bump(p.revision) else p.revision
  {
    hide Produce, Append, Find, ToBE, Bump, Loadable;
  }

  lemma MovesNext(c: Config, s: State, ops: seq<Op>)
    requires c.capacity > 0 && |ops| > 0
    ensures var n := |ops| - 1;
      var at := Run(c, s, ops[..n]);
      && Run(c, s, ops) == Step(c, at, ops[n])
      && PendingMoves(c, s, ops) ==
         PendingMoves(c, s, ops[..n]) + (if Clears(c, at, ops[n]) || Accepts(c, at, ops[n]) then 1 else 0)
      && ScheduleMoves(c, s, ops) == ScheduleMoves(c, s, ops[..n]) + if Reschedules(c, at, ops[n]) then 1 else 0
  {
    hide Step, Clears, Accepts, Reschedules;
  }

  lemma NoMoves(c: Config, s: State, ops: seq<Op>)
    requires c.capacity > 0 && |ops| == 0
    ensures Run(c, s, ops) == s && PendingMoves(c, s, ops) == 0 && ScheduleMoves(c, s, ops) == 0
  {
  }

  lemma {:induction false} RevisionsCount(c: Config, s: State, ops: seq<Op>)
    requires c.capacity > 0 && NoRestore(ops)
    ensures var p, p' := s.schedule, Run(c, s, ops).schedule;
      && p'.pending.revision == BumpTimes(p.pending.revision, PendingMoves(c, s, ops))
      && p'.revision == BumpTimes(p.revision, ScheduleMoves(c, s, ops))
  {
    hide Step, Run, Clears, Accepts, Reschedules, BumpTimes, Bump, PendingMoves, ScheduleMoves;
    var p := s.schedule;
    if |ops| == 0 {
      NoMoves(c, s, ops);
      OneMoreBump(p.pending.revision, 0);
      OneMoreBump(p.revision, 0);
    } else {
      var n := |ops| - 1;
      RevisionsCount(c, s, ops[..n]);
      MovesNext(c, s, ops);
      OneMoreBump(p.pending.revision, PendingMoves(c, s, ops[..n]));
      OneMoreBump(p.revision, ScheduleMoves(c, s, ops[..n]));
      StepRevisions(c, Run(c, s, ops[..n]), ops[n]);
    }
  }

  // ----- Exactly when a plan is still current

  /** What the plan was made for is still wanted. */
  predicate Wanted(s: Schedule, plan: Plan) {
    && s.enabled
    && match plan.reason
       case Event => s.pending.active && s.pending.count != 0
       case GeneralInterrogation => s.giPending
       case Integrity => s.integrityArmed && s.integrityDue != 0 && plan.observedNow >= s.integrityDue
  }

  /** Every counter the plan is compared with has stood still or gone full circle. */
  ghost predicate CountersReturn(c: Config, s: State, ops: seq<Op>, reason: CaptureReason)
    requires c.capacity > 0
  {
    && QueueMoves(c, s, ops) % REVISIONS == 0
    && |Admitted(c, s, ops)| % NUMBERS == 0
    && |Admitted(c, s, ops)| % 256 == 0
    && (if reason == Event then PendingMoves(c, s, ops) else ScheduleMoves(c, s, ops)) % REVISIONS == 0
  }

  /**
   After any run without a restore, a plan that was current is current exactly if its
   purpose is still wanted, a capture would evict an undelivered report now as it would
   have then, and every counter it carries has come back to where it was.
   */
  lemma PlanCurrentExactly(c: Config, s: State, ops: seq<Op>, plan: Plan)
    requires c.capacity > 0 && NoRestore(ops) && Current(s, c.capacity, plan)
    requires s.queueRevision != 0 && s.queue.next != 0
    requires s.schedule.pending.revision != 0 && s.schedule.revision != 0
    ensures var s' := Run(c, s, ops);
      Current(s', c.capacity, plan) <==>
        && Wanted(s'.schedule, plan)
        && Overflows(s'.queue, c.capacity) == Overflows(s.queue, c.capacity)
        && CountersReturn(c, s, ops, plan.reason)
  {
    hide Run, Admitted, QueueMoves, PendingMoves, ScheduleMoves, BumpTimes, NumberAfter, SequenceAfter, Overflows;
    RevisionCountsMoves(c, s, ops);
    RevisionsCount(c, s, ops);
    CapturesAreNumbered(c, s, ops);
    BumpCycle(s.queueRevision, QueueMoves(c, s, ops));
    BumpCycle(s.schedule.pending.revision, PendingMoves(c, s, ops));
    BumpCycle(s.schedule.revision, ScheduleMoves(c, s, ops));
    NumberCycle(s.queue.next, |Admitted(c, s, ops)|);
    SequenceCycle(s.queue.sequence, |Admitted(c, s, ops)|);
    SequenceInjective(s.queue.sequence, Run(c, s, ops).queue.sequence);
  }

  lemma SequenceInjective(a: byte, b: byte)
    ensures NextSequence(a) == NextSequence(b) <==> a == b
  {
  }

  // ----- A capture that can always be had

  lemma {:induction false} CollectsAll(masks: seq<set<EventReason>>, values: seq<MemberRead>, k: nat)
    requires k <= |masks| == |values| && forall m :: 0 <= m < |values| ==> values[m].Value?
    ensures var r := Collect(GeneralInterrogation, masks, values, k); r.Collected? && |r.included| == k
  {
    if k != 0 {
      CollectsAll(masks, values, k - 1);
    }
  }

  ghost predicate Interrogable(s: State) {
    s.schedule.enabled && s.schedule.triggers.generalInterrogation && |s.schedule.pending.masks| > 0
  }

  /** With reporting on, an interrogation captures whatever report the encoder makes of it. */
  lemma CaptureByInterrogation(c: Config, s: State, pdu: Pdu) returns (ops: seq<Op>)
    requires c.capacity > 0 && Interrogable(s)
    ensures NoRestore(ops)
    ensures var es := Admitted(c, s, ops); |es| == 1 && es[0].pdu == pdu && es[0].entryId == ToBE(8, s.queue.next)
  {
    hide ToBE, Append;
    var s1 := RequestInterrogation(s).0;
    var plan := Plan(s1.schedule.pending.revision, s1.schedule.revision, s1.queueRevision, s1.queue.next, 0,
                     NextSequence(s1.queue.sequence), GeneralInterrogation, Overflows(s1.queue, c.capacity));
    var values := seq(|s.schedule.pending.masks|, _ => Value([]));
    var capture := CaptureOp(plan, [], values, _ => Encoded(pdu), |pdu|);
    CollectsAll(s1.schedule.pending.masks, values, |values|);
    ops := [InterrogateOp, capture];
    assert ops[..1] == [InterrogateOp] && |[InterrogateOp][..0]| == 0;
    assert Run(c, s, [InterrogateOp]) == Step(c, s, InterrogateOp) == s1;
    assert MoveOf(c, s, InterrogateOp) == Stay;
    assert Produce(s1, plan, [], values, capture.encode) == Encoded(pdu);
    assert MoveOf(c, s1, capture) == Admit(NewEntry(plan, [], pdu));
    assert Admitted(c, s, [InterrogateOp]) == [];
  }

  /** The same after switching reporting on. */
  lemma CaptureAfterEnabling(c: Config, s: State, pdu: Pdu) returns (ops: seq<Op>)
    requires c.capacity > 0 && !s.schedule.enabled && Interrogable(SetEnabled(s, true))
    ensures NoRestore(ops)
    ensures var es := Admitted(c, s, ops); |es| == 1 && es[0].pdu == pdu && es[0].entryId == ToBE(8, s.queue.next)
  {
    hide ToBE, Admitted, Interrogable;
    var more := CaptureByInterrogation(c, SetEnabled(s, true), pdu);
    ops := [SetEnabledOp(true)] + more;
    AdmittedLater(c, s, SetEnabledOp(true), more);
  }

  lemma {:induction false} AdmittedLater(c: Config, s: State, op: Op, ops: seq<Op>)
    requires c.capacity > 0 && MoveOf(c, s, op) == Stay
    ensures Admitted(c, s, [op] + ops) == Admitted(c, Step(c, s, op), ops)
    ensures Run(c, s, [op] + ops) == Run(c, Step(c, s, op), ops)
  {
    hide Step, MoveOf;
    if |ops| == 0 {
      assert [op] + ops == [op] && |[op][..0]| == 0;
    } else {
      var k := |ops| - 1;
      AdmittedLater(c, s, op, ops[..k]);
      assert ([op] + ops)[..|ops|] == [op] + ops[..k];
    }
  }
}
