/**
 Event coalescing: what a window of notifications becomes, and that no pending
 event is lost on the way to its report.
 */
module BrcbSchedule {
  import opened Octets
  import opened BrcbLog
  import opened BrcbHistory

  function Marked(masks: seq<set<EventReason>>): nat {
    if masks == [] then 0
    else Marked(masks[..|masks| - 1]) + (if masks[|masks| - 1] == {} then 0 else 1)
  }

  lemma {:induction false} MarkedUpdate(masks: seq<set<EventReason>>, i: nat, mask: set<EventReason>)
    requires i < |masks| && mask != {}
    ensures Marked(masks[i := mask]) == Marked(masks) + (if masks[i] == {} then 1 else 0)
  {
    var last := |masks| - 1;
    if i == last {
      assert masks[i := mask][..last] == masks[..last];
    } else {
      MarkedUpdate(masks[..last], i, mask);
      assert masks[i := mask][..last] == masks[..last][i := mask];
    }
  }

  lemma {:induction false} NoneMarked(masks: seq<set<EventReason>>)
    requires forall i :: 0 <= i < |masks| ==> masks[i] == {}
    ensures Marked(masks) == 0
  {
    if masks != [] {
      NoneMarked(masks[..|masks| - 1]);
    }
  }

  lemma {:induction false} SomeMarked(masks: seq<set<EventReason>>, i: nat)
    requires i < |masks| && masks[i] != {}
    ensures Marked(masks) > 0
  {
    if i < |masks| - 1 {
      SomeMarked(masks[..|masks| - 1], i);
    }
  }

  /** The pending counter is the number of members with a reason, and the window is open exactly then. */
  ghost predicate Exact(p: Pending) {
    p.count == Marked(p.masks) && (p.active <==> p.count != 0)
  }

  lemma ClearedExact(p: Pending, revision: u32)
    ensures Exact(Cleared(p).(revision := revision)) && |Cleared(p).masks| == |p.masks|
  {
    NoneMarked(Cleared(p).masks);
  }

  lemma NotedExact(p: Pending, member: nat, reason: EventReason, now: u64, bufferTime: u32)
    requires member < |p.masks| && Exact(p)
    ensures Exact(Noted(p, member, reason, now, bufferTime))
  {
    assert reason in p.masks[member] + {reason};
    MarkedUpdate(p.masks, member, p.masks[member] + {reason});
    if p.masks[member] != {} {
      SomeMarked(p.masks, member);
    }
  }

  // ----- What an operation does to the pending window

  /** An event report was captured, or reporting was switched, reconfigured or restored. */
  predicate Clears(c: Config, s: State, op: Op)
    requires c.capacity > 0
  {
    match op
    case SetEnabledOp(enabled) => enabled != s.schedule.enabled
    case SetTriggersOp(options) =>
      AllowedTriggers(options) && !s.schedule.enabled && TriggersOf(options) != s.schedule.triggers
    case SetPeriodOp(period) => !s.schedule.enabled && period != s.schedule.integrityPeriod
    case SetOptionalOp(fields) =>
      AllowedOptional(fields) && !s.schedule.enabled && fields != s.schedule.optionalFields
    case CaptureOp(plan, _, _, _, _) => MoveOf(c, s, op).Admit? && plan.reason == Event
    case RestoreOp(q) => Loadable(c.capacity, q)
    case _ => false
  }

  /** A notification the control block takes in. */
  predicate Accepts(c: Config, s: State, op: Op) {
    op.NotifyOp? && Notify(s, op.member, op.reason, op.now, c.bufferTime).1 == Ok
  }

  /** The same window but for its revision. */
  predicate Alike(p: Pending, q: Pending) {
    p.(revision := 0) == q.(revision := 0)
  }

  /** The window is emptied, or one more event is noted in it, or it stays as it is. */
  lemma StepPending(c: Config, s: State, op: Op)
    requires c.capacity > 0
    ensures Accepts(c, s, op) ==> op.member < |s.schedule.pending.masks| && !Clears(c, s, op)
    ensures var p, p' := s.schedule.pending, Step(c, s, op).schedule.pending;
      Alike(p', if Clears(c, s, op) then Cleared(p)
                else if Accepts(c, s, op) then Noted(p, op.member, op.reason, op.now, c.bufferTime)
                else p)
  {
    hide Produce, Append, Find, Noted, Cleared, Loadable;
  }

  lemma ExactStep(c: Config, s: State, op: Op)
    requires c.capacity > 0 && Exact(s.schedule.pending)
    ensures Exact(Step(c, s, op).schedule.pending)
    ensures |Step(c, s, op).schedule.pending.masks| == |s.schedule.pending.masks|
  {
    var p := s.schedule.pending;
    StepPending(c, s, op);
    ClearedExact(p, p.revision);
    if Accepts(c, s, op) {
      NotedExact(p, op.member, op.reason, op.now, c.bufferTime);
    }
    hide Step, Marked, Clears, Accepts;
  }

  lemma {:induction false} ExactAlways(c: Config, s: State, ops: seq<Op>)
    requires c.capacity > 0 && Exact(s.schedule.pending)
    ensures Exact(Run(c, s, ops).schedule.pending)
    ensures |Run(c, s, ops).schedule.pending.masks| == |s.schedule.pending.masks|
  {
    if |ops| != 0 {
      var before := ops[..|ops| - 1];
      ExactAlways(c, s, before);
      hide Step, Exact;
      ExactStep(c, Run(c, s, before), ops[|ops| - 1]);
    }
  }

  // ----- One window, over every run

  /** The run up to operation `i`. */
  function At(c: Config, s: State, ops: seq<Op>, i: nat): State
    requires c.capacity > 0 && i <= |ops|
  {
    Run(c, s, ops[..i])
  }

  ghost predicate AcceptedAt(c: Config, s: State, ops: seq<Op>, i: nat)
    requires c.capacity > 0
  {
    i < |ops| && ops[i].NotifyOp? && Accepts(c, At(c, s, ops, i), ops[i])
  }

  /** Where the window that is open after a run began: behind the last operation that cleared it. */
  function Since(c: Config, s: State, ops: seq<Op>): (k: nat)
    requires c.capacity > 0
    ensures k <= |ops|
  {
    if |ops| == 0 then 0
    else
      var n := |ops| - 1;
      if Clears(c, Run(c, s, ops[..n]), ops[n]) then |ops| else Since(c, s, ops[..n])
  }

  /** Member `m` was notified for `reason` since operation `k`. */
  ghost predicate Notified(c: Config, s: State, ops: seq<Op>, k: nat, m: nat, reason: EventReason)
    requires c.capacity > 0
  {
    exists i :: k <= i < |ops| && AcceptedAt(c, s, ops, i) && ops[i].member == m && ops[i].reason == reason
  }

  /** Operation `i` is the first notification taken in since operation `k`. */
  ghost predicate First(c: Config, s: State, ops: seq<Op>, k: nat, i: nat)
    requires c.capacity > 0
  {
    && k <= i < |ops| && AcceptedAt(c, s, ops, i)
    && forall j :: k <= j < i ==> !AcceptedAt(c, s, ops, j)
  }

  /** The window holds exactly the notifications since operation `k`, and is due by the first of them. */
  ghost predicate Gathers(c: Config, s: State, ops: seq<Op>, k: nat, p: Pending)
    requires c.capacity > 0
  {
    && (forall m: nat, reason | m < |p.masks| :: reason in p.masks[m] <==> Notified(c, s, ops, k, m, reason))
    && (p.active ==> exists i: nat :: First(c, s, ops, k, i) && p.due == SaturatingAdd(ops[i].now, c.bufferTime))
    && (!p.active ==> forall i :: k <= i < |ops| ==> !AcceptedAt(c, s, ops, i))
  }

  lemma AcceptedPrefix(c: Config, s: State, ops: seq<Op>, n: nat, i: nat)
    requires c.capacity > 0 && i < n <= |ops|
    ensures AcceptedAt(c, s, ops[..n], i) <==> AcceptedAt(c, s, ops, i)
  {
    assert ops[..n][..i] == ops[..i];
  }

  /** An operation that clears opens an empty window. */
  lemma GathersNothing(c: Config, s: State, ops: seq<Op>, p: Pending)
    requires c.capacity > 0 && !p.active && forall m :: 0 <= m < |p.masks| ==> p.masks[m] == {}
    ensures Gathers(c, s, ops, |ops|, p)
  {
  }

  /** An operation that neither clears nor notifies leaves the gathering as it is. */
  lemma GathersOn(c: Config, s: State, ops: seq<Op>, k: nat, p: Pending)
    requires c.capacity > 0 && |ops| > 0 && k < |ops|
    requires Gathers(c, s, ops[..|ops| - 1], k, p) && !AcceptedAt(c, s, ops, |ops| - 1)
    ensures Gathers(c, s, ops, k, p)
  {
    hide Accepts, Run;
    var n := |ops| - 1;
    SameNotices(c, s, ops, k);
    if p.active {
      var i: nat :| First(c, s, ops[..n], k, i) && p.due == SaturatingAdd(ops[..n][i].now, c.bufferTime);
      assert First(c, s, ops, k, i);
    }
    forall m: nat, reason | m < |p.masks|
      ensures Notified(c, s, ops[..n], k, m, reason) <==> Notified(c, s, ops, k, m, reason)
    {
      NotifiedNext(c, s, ops, k, m, reason);
    }
  }

  lemma SameNotices(c: Config, s: State, ops: seq<Op>, k: nat)
    requires c.capacity > 0 && |ops| > 0
    ensures forall i :: k <= i < |ops| - 1 ==>
      AcceptedAt(c, s, ops[..|ops| - 1], i) == AcceptedAt(c, s, ops, i)
  {
    forall i | k <= i < |ops| - 1 ensures AcceptedAt(c, s, ops[..|ops| - 1], i) == AcceptedAt(c, s, ops, i) {
      AcceptedPrefix(c, s, ops, |ops| - 1, i);
    }
  }

  lemma NotifiedNext(c: Config, s: State, ops: seq<Op>, k: nat, m: nat, reason: EventReason)
    requires c.capacity > 0 && |ops| > 0 && k < |ops|
    ensures var n := |ops| - 1;
      Notified(c, s, ops, k, m, reason) <==>
        || Notified(c, s, ops[..n], k, m, reason)
        || (AcceptedAt(c, s, ops, n) && ops[n].member == m && ops[n].reason == reason)
  {
    hide Accepts, Run;
    var n := |ops| - 1;
    SameNotices(c, s, ops, k);
    if Notified(c, s, ops[..n], k, m, reason) {
      var i :| k <= i < n && AcceptedAt(c, s, ops[..n], i) && ops[..n][i].member == m && ops[..n][i].reason == reason;
      assert AcceptedAt(c, s, ops, i) && ops[i].member == m;
    }
    if Notified(c, s, ops, k, m, reason) {
      var i :| k <= i < |ops| && AcceptedAt(c, s, ops, i) && ops[i].member == m && ops[i].reason == reason;
      assert i < n ==> AcceptedAt(c, s, ops[..n], i) && ops[..n][i].member == m;
    }
  }

  /** A notification joins the window, opening it if it is the first. */
  lemma GathersMore(c: Config, s: State, ops: seq<Op>, k: nat, p: Pending, p': Pending)
    requires c.capacity > 0 && |ops| > 0 && k < |ops|
    requires Gathers(c, s, ops[..|ops| - 1], k, p) && AcceptedAt(c, s, ops, |ops| - 1)
    requires var op := ops[|ops| - 1];
      op.member < |p.masks| && Alike(p', Noted(p, op.member, op.reason, op.now, c.bufferTime))
    ensures Gathers(c, s, ops, k, p')
  {
    hide Accepts, Run, SaturatingAdd;
    var n := |ops| - 1;
    SameNotices(c, s, ops, k);
    forall m: nat, reason | m < |p.masks| ensures reason in p'.masks[m] <==> Notified(c, s, ops, k, m, reason) {
      NotifiedNext(c, s, ops, k, m, reason);
    }
    if p.active {
      var i: nat :| First(c, s, ops[..n], k, i) && p.due == SaturatingAdd(ops[..n][i].now, c.bufferTime);
      assert First(c, s, ops, k, i) && ops[i] == ops[..n][i];
    } else {
      assert First(c, s, ops, k, n);
    }
  }

  /**
   Coalescing over every run: the pending window holds for each member exactly the
   reasons it was notified for since the window was last cleared, whatever captures,
   commits, interrogations and refusals came in between, and is due BufTm after the
   first of those notifications.
   */
  lemma {:induction false} WindowCoalesces(c: Config, s: State, ops: seq<Op>)
    requires c.capacity > 0 && Alike(s.schedule.pending, Cleared(s.schedule.pending))
    ensures Gathers(c, s, ops, Since(c, s, ops), Run(c, s, ops).schedule.pending)
  {
    if |ops| == 0 {
      GathersNothing(c, s, ops, s.schedule.pending);
    } else {
      hide Step, Clears, Accepts, Noted, Gathers;
      var n := |ops| - 1;
      var before, op := ops[..n], ops[n];
      var at := Run(c, s, before);
      var p, p' := at.schedule.pending, Run(c, s, ops).schedule.pending;
      WindowCoalesces(c, s, before);
      StepPending(c, at, op);
      if Clears(c, at, op) {
        GathersNothing(c, s, ops, p');
      } else if Accepts(c, at, op) {
        GathersMore(c, s, ops, Since(c, s, ops), p, p');
      } else {
        GathersOn(c, s, ops, Since(c, s, ops), p);
        GathersAlike(c, s, ops, Since(c, s, ops), p, p');
      }
    }
  }

  lemma GathersAlike(c: Config, s: State, ops: seq<Op>, k: nat, p: Pending, p': Pending)
    requires c.capacity > 0 && Gathers(c, s, ops, k, p) && Alike(p', p)
    ensures Gathers(c, s, ops, k, p')
  {
    hide Notified, First;
  }

  // ----- From the window to the report

  predicate Lists(reason: CaptureReason, masks: seq<set<EventReason>>, values: seq<MemberRead>, k: nat,
                  included: seq<Inclusion>)
    requires k <= |masks| == |values|
  {
    && (forall j :: 0 <= j < |included| ==>
          var x := included[j];
          x.member < k && Selected(reason, masks[x.member]) && values[x.member] == Value(x.value) &&
          Explains(reason, masks[x.member], x.reasons))
    && (forall i, j :: 0 <= i < j < |included| ==> included[i].member < included[j].member)
    && (forall m :: 0 <= m < k && Selected(reason, masks[m]) ==> Names(included, m))
  }

  /** The reasons a member is reported for: its own in an event report, and otherwise that of the report. */
  predicate Explains(reason: CaptureReason, mask: set<EventReason>, reasons: ReportReasons) {
    && (reason == Event ==> reasons.Events? && forall r :: r in reasons.events <==> r in mask)
    && (reason == GeneralInterrogation ==> reasons.ByGeneralInterrogation?)
    && (reason == Integrity ==> reasons.ByIntegrity?)
  }

  lemma ReasonsExplain(reason: CaptureReason, mask: set<EventReason>)
    ensures Explains(reason, mask, ReasonsFor(reason, mask))
  {
  }

  predicate Names(included: seq<Inclusion>, m: nat) {
    exists j :: 0 <= j < |included| && included[j].member == m
  }

  /** A report that can be built lists exactly the selected members, once each, with their values and reasons. */
  lemma {:induction false} CollectLists(reason: CaptureReason, masks: seq<set<EventReason>>, values: seq<MemberRead>,
                                        k: nat)
    requires k <= |masks| == |values|
    requires Collect(reason, masks, values, k).Collected?
    ensures Lists(reason, masks, values, k, Collect(reason, masks, values, k).included)
    ensures reason == Event ==> |Collect(reason, masks, values, k).included| == Marked(masks[..k])
    ensures reason != Event ==> |Collect(reason, masks, values, k).included| == k
  {
    hide Lists, ReasonsFor, Marked;
    if k == 0 {
      NothingListed(reason, masks, values);
    } else {
      CollectLists(reason, masks, values, k - 1);
      MarkedNext(masks, k);
      var before := Collect(reason, masks, values, k - 1).included;
      if Selected(reason, masks[k - 1]) {
        ListsMore(reason, masks, values, k, before, values[k - 1].encoded);
      } else {
        ListsOn(reason, masks, values, k, before);
      }
    }
  }

  lemma NothingListed(reason: CaptureReason, masks: seq<set<EventReason>>, values: seq<MemberRead>)
    requires |masks| == |values|
    ensures Lists(reason, masks, values, 0, []) && Marked(masks[..0]) == 0
  {
  }

  lemma MarkedNext(masks: seq<set<EventReason>>, k: nat)
    requires 0 < k <= |masks|
    ensures Marked(masks[..k]) == Marked(masks[..k - 1]) + if masks[k - 1] == {} then 0 else 1
  {
    assert masks[..k][..k - 1] == masks[..k - 1];
  }

  /** A selected member is listed last, after all earlier ones. */
  lemma ListsMore(reason: CaptureReason, masks: seq<set<EventReason>>, values: seq<MemberRead>, k: nat,
                  before: seq<Inclusion>, v: seq<byte>)
    requires 0 < k <= |masks| == |values| && Lists(reason, masks, values, k - 1, before)
    requires Selected(reason, masks[k - 1]) && values[k - 1] == Value(v)
    ensures Lists(reason, masks, values, k, before + [Inclusion(k - 1, v, ReasonsFor(reason, masks[k - 1]))])
  {
    hide Selected, ReasonsFor, Explains;
    ReasonsExplain(reason, masks[k - 1]);
    var included := before + [Inclusion(k - 1, v, ReasonsFor(reason, masks[k - 1]))];
    forall m | 0 <= m < k && Selected(reason, masks[m]) ensures Names(included, m) {
      if m < k - 1 {
        assert Names(before, m);
        var j :| 0 <= j < |before| && before[j].member == m;
        assert included[j].member == m;
      } else {
        assert included[|included| - 1].member == m;
      }
    }
  }

  /** A member that is not selected changes nothing. */
  lemma ListsOn(reason: CaptureReason, masks: seq<set<EventReason>>, values: seq<MemberRead>, k: nat,
                included: seq<Inclusion>)
    requires 0 < k <= |masks| == |values| && Lists(reason, masks, values, k - 1, included)
    requires !Selected(reason, masks[k - 1])
    ensures Lists(reason, masks, values, k, included)
  {
    hide Selected, Explains, Names;
  }

  /**
   In every reachable state a current event plan whose members can be read reaches
   the encoder, with exactly the members that were notified since the window opened.
   */
  lemma EventReportIsComplete(s: State, capacity: nat, plan: Plan, reportTime: seq<byte>, values: seq<MemberRead>,
                              encode: Report -> Encoding)
    requires Exact(s.schedule.pending) && Current(s, capacity, plan) && plan.reason == Event
    requires |values| == |s.schedule.pending.masks|
    requires forall m :: 0 <= m < |values| && s.schedule.pending.masks[m] != {} ==> values[m].Value?
    ensures exists included ::
      && Lists(Event, s.schedule.pending.masks, values, |values|, included)
      && Produce(s, plan, reportTime, values, encode) ==
         encode(Report(ToBE(8, plan.entryNumber), plan.sequenceNumber, plan.bufferOverflow, reportTime, included))
  {
    var p := s.schedule.pending;
    CollectSucceeds(p.masks, values, |values|);
    CollectLists(Event, p.masks, values, |values|);
    assert p.masks[..|values|] == p.masks;
    var included := Collect(Event, p.masks, values, |values|).included;
    assert Lists(Event, p.masks, values, |values|, included);
  }

  lemma {:induction false} CollectSucceeds(masks: seq<set<EventReason>>, values: seq<MemberRead>, k: nat)
    requires k <= |masks| == |values|
    requires forall m :: 0 <= m < |values| && masks[m] != {} ==> values[m].Value?
    ensures Collect(Event, masks, values, k).Collected?
  {
    if k != 0 {
      CollectSucceeds(masks, values, k - 1);
    }
  }

  // ----- What becomes of a capture

  /** Member `m` is to be reported and cannot be read. */
  predicate Unreadable(reason: CaptureReason, masks: seq<set<EventReason>>, values: seq<MemberRead>, m: nat)
    requires |masks| == |values|
  {
    m < |masks| && (reason == Event ==> masks[m] != {}) && values[m].ReadFails?
  }

  /** Member `m` is the first such. */
  ghost predicate FirstUnreadable(
    reason: CaptureReason, masks: seq<set<EventReason>>, values: seq<MemberRead>, m: nat)
    requires |masks| == |values|
  {
    Unreadable(reason, masks, values, m) && forall j: nat :: j < m ==> !Unreadable(reason, masks, values, j)
  }

  /** Members are collected up to the first that cannot be read, which the failure is about. */
  lemma {:induction false} CollectStops(reason: CaptureReason, masks: seq<set<EventReason>>, values: seq<MemberRead>,
                                        k: nat)
    requires k <= |masks| == |values|
    ensures var r := Collect(reason, masks, values, k);
      && (r.Collected? ==> forall j: nat :: j < k ==> !Unreadable(reason, masks, values, j))
      && (r.CollectFails? ==>
            exists m: nat :: m < k && FirstUnreadable(reason, masks, values, m) && r.status == values[m].status)
  {
    if k != 0 {
      CollectStops(reason, masks, values, k - 1);
      if Collect(reason, masks, values, k - 1).Collected? && Collect(reason, masks, values, k).CollectFails? {
        assert FirstUnreadable(reason, masks, values, k - 1);
      }
    }
  }

  /**
   What a plan for something that is wanted produces in a reachable state: the failure of
   the first member that cannot be read, or what the encoder makes of a report that lists
   exactly the members to be reported.
   */
  lemma ProducesExactly(s: State, plan: Plan, reportTime: seq<byte>, values: seq<MemberRead>,
                        encode: Report -> Encoding)
    requires Exact(s.schedule.pending) && |values| == |s.schedule.pending.masks|
    ensures var masks, produced := s.schedule.pending.masks, Produce(s, plan, reportTime, values, encode);
      || (exists m: nat ::
            FirstUnreadable(plan.reason, masks, values, m) && produced == EncodeFails(values[m].status))
      || (&& (forall m: nat :: !Unreadable(plan.reason, masks, values, m))
          && exists included ::
               && Lists(plan.reason, masks, values, |values|, included)
               && produced == (if included == [] then EncodeFails(StalePlan)
                               else encode(Report(ToBE(8, plan.entryNumber), plan.sequenceNumber,
                                                  plan.bufferOverflow, reportTime, included))))
  {
    hide ToBE, Lists, Marked;
    var masks := s.schedule.pending.masks;
    CollectStops(plan.reason, masks, values, |values|);
    assert masks[..|values|] == masks;
    if Collect(plan.reason, masks, values, |values|).Collected? {
      CollectLists(plan.reason, masks, values, |values|);
      var included := Collect(plan.reason, masks, values, |values|).included;
      assert Lists(plan.reason, masks, values, |values|, included);
    }
  }

  /** A capture either refuses and changes nothing, or puts exactly this report behind the others. */
  lemma CaptureAnswers(s: State, capacity: nat, plan: Plan, reportTime: seq<byte>, values: seq<MemberRead>,
                       encode: Report -> Encoding, room: nat)
    requires 0 < capacity && |values| == |s.schedule.pending.masks|
    ensures var (s', status) := Capture(s, capacity, plan, reportTime, values, encode, room);
      var produced := Produce(s, plan, reportTime, values, encode);
      && status == (if !Current(s, capacity, plan) then StalePlan
                    else if produced.EncodeFails? then produced.status
                    else if |produced.pdu| > room then SlotTooSmall
                    else Ok)
      && (status != Ok ==> s' == s)
      && (status == Ok ==>
            && s'.queue.retained != []
            && var e := s'.queue.retained[|s'.queue.retained| - 1];
               && e.pdu == produced.pdu && e.entryId == ToBE(8, s.queue.next)
               && e.timeOfEntry == (if |reportTime| == 6 then reportTime else [0, 0, 0, 0, 0, 0])
               && e.sequenceNumber == (s.queue.sequence + 1) % 256
               && (e.bufferOverflow <==> |s.queue.retained| == capacity && s.queue.cursor == 0))
  {
    hide Produce, ToBE, Rescheduled;
  }

  /** Until something clears the window, no pending event is lost or put off. */
  lemma {:induction false} PendingEventSurvives(c: Config, s: State, ops: seq<Op>, m: nat)
    requires c.capacity > 0 && m < |s.schedule.pending.masks|
    requires forall i :: 0 <= i < |ops| ==> !Clears(c, At(c, s, ops, i), ops[i])
    ensures var p, p' := s.schedule.pending, Run(c, s, ops).schedule.pending;
      && |p'.masks| == |p.masks| && p.masks[m] <= p'.masks[m]
      && (p.active ==> p'.active && p'.due == p.due)
  {
    if |ops| != 0 {
      hide Step, Clears, Accepts;
      var n := |ops| - 1;
      var before := ops[..n];
      forall i | 0 <= i < n ensures !Clears(c, At(c, s, before, i), before[i]) {
        assert before[..i] == ops[..i];
        assert !Clears(c, At(c, s, ops, i), ops[i]);
      }
      PendingEventSurvives(c, s, before, m);
      assert !Clears(c, At(c, s, ops, n), ops[n]);
      StepPending(c, Run(c, s, before), ops[n]);
    }
  }

  /** While reporting is on, only three things clear the window. */
  lemma ClearsWhileEnabled(c: Config, s: State, op: Op)
    requires c.capacity > 0 && s.schedule.enabled && Clears(c, s, op)
    ensures || op == SetEnabledOp(false)
            || (op.CaptureOp? && MoveOf(c, s, op).Admit? && op.plan.reason == Event)
            || (op.RestoreOp? && MoveOf(c, s, op).Load?)
  {
  }
}
