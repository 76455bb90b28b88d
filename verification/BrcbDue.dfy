/**
 When a report falls due and what is accepted: the answers of the control block, told
 from the record of operations and not from the fields it keeps about them.
 */
module BrcbDue {
  import opened Octets
  import opened BrcbLog
  import opened BrcbHistory
  import opened BrcbSchedule

  // ----- What the record says

  /** Reporting is as it was last switched, or off since a restore. */
  predicate On(c: Config, s: State, ops: seq<Op>) {
    if |ops| == 0 then s.schedule.enabled
    else
      var n := |ops| - 1;
      match ops[n]
      case SetEnabledOp(enabled) => enabled
      case RestoreOp(q) => !Loadable(c.capacity, q) && On(c, s, ops[..n])
      case _ => On(c, s, ops[..n])
  }

  datatype Settings = Settings(triggers: Triggers, integrityPeriod: u32, optionalFields: seq<byte>)

  /** The settings are the last ones that were allowed and came while reporting was off. */
  function SettingsOf(c: Config, s: State, ops: seq<Op>): Settings {
    if |ops| == 0 then Settings(s.schedule.triggers, s.schedule.integrityPeriod, s.schedule.optionalFields)
    else
      var n := |ops| - 1;
      var before := SettingsOf(c, s, ops[..n]);
      if On(c, s, ops[..n]) then before
      else
        match ops[n]
        case SetTriggersOp(options) =>
          if options % 4 == 0 then before.(triggers := TriggersOf(options)) else before
        case SetPeriodOp(period) => before.(integrityPeriod := period)
        case SetOptionalOp(fields) =>
          if |fields| == 2 && fields[0] < 0x80 && fields[1] in {0, 0x80} then before.(optionalFields := fields)
          else before
        case _ => before
  }

  lemma StepSettings(c: Config, s: State, op: Op)
    requires c.capacity > 0
    ensures var p, p' := s.schedule, Step(c, s, op).schedule;
      && p'.enabled == (match op case SetEnabledOp(enabled) => enabled
                                 case RestoreOp(q) => !Loadable(c.capacity, q) && p.enabled
                                 case _ => p.enabled)
      && p'.triggers == (if op.SetTriggersOp? && op.options % 4 == 0 && !p.enabled then TriggersOf(op.options)
                         else p.triggers)
      && p'.integrityPeriod == (if op.SetPeriodOp? && !p.enabled then op.period else p.integrityPeriod)
      && p'.optionalFields == (if op.SetOptionalOp? && AllowedOptional(op.fields) && !p.enabled then op.fields
                               else p.optionalFields)
  {
    hide Produce, Append, Find, Noted, Cleared, Loadable, TriggersOf, AllowedOptional;
  }

  lemma OptionalBits(fields: seq<byte>)
    ensures AllowedOptional(fields) <==> |fields| == 2 && fields[0] < 0x80 && fields[1] in {0, 0x80}
  {
  }

  /** Switch and settings are what the record says, after every run. */
  lemma {:induction false} SettingsStand(c: Config, s: State, ops: seq<Op>)
    requires c.capacity > 0
    ensures var p := Run(c, s, ops).schedule;
      && p.enabled == On(c, s, ops)
      && Settings(p.triggers, p.integrityPeriod, p.optionalFields) == SettingsOf(c, s, ops)
  {
    if |ops| != 0 {
      hide Step, Loadable, TriggersOf, AllowedOptional;
      var n := |ops| - 1;
      SettingsStand(c, s, ops[..n]);
      StepSettings(c, Run(c, s, ops[..n]), ops[n]);
      if ops[n].SetOptionalOp? {
        OptionalBits(ops[n].fields);
      }
    }
  }

  // ----- What is accepted

  /** The answer to a notification: accepted, or the first of the three things that can be wrong with it. */
  lemma NotifyAnswers(c: Config, s: State, ops: seq<Op>, member: nat, reason: EventReason, now: u64)
    requires c.capacity > 0 && Exact(s.schedule.pending)
    ensures Notify(Run(c, s, ops), member, reason, now, c.bufferTime).1 ==
      if !On(c, s, ops) then TemporarilyUnavailable
      else if reason !in SettingsOf(c, s, ops).triggers.events then TriggerNotSelected
      else if member >= |s.schedule.pending.masks| then MemberOutOfRange
      else Ok
  {
    hide Run, On, SettingsOf, Noted, Exact;
    SettingsStand(c, s, ops);
    ExactAlways(c, s, ops);
  }

  /** The answer to a request for an interrogation. */
  lemma InterrogationAnswers(c: Config, s: State, ops: seq<Op>)
    requires c.capacity > 0
    ensures RequestInterrogation(Run(c, s, ops)).1 ==
      if !On(c, s, ops) then TemporarilyUnavailable
      else if !SettingsOf(c, s, ops).triggers.generalInterrogation then TriggerNotSelected
      else Ok
  {
    hide Run, On, SettingsOf;
    SettingsStand(c, s, ops);
  }

  /** The answers to new settings: refused for bits that mean nothing and while reporting is on. */
  lemma SettingAnswers(c: Config, s: State, ops: seq<Op>, options: byte, fields: seq<byte>, period: u32)
    requires c.capacity > 0
    ensures var at, on := Run(c, s, ops), On(c, s, ops);
      var answer := if on then TemporarilyUnavailable else Ok;
      && SetTriggers(at, options).1 == (if options % 4 != 0 then InvalidDefinition else answer)
      && SetOptionalFields(at, fields).1 ==
         (if |fields| == 2 && fields[0] < 0x80 && fields[1] in {0, 0x80} then answer else InvalidDefinition)
      && SetIntegrityPeriod(at, period).1 == answer
  {
    hide Run, On, TriggersOf, Restarted, AllowedOptional;
    SettingsStand(c, s, ops);
    OptionalBits(fields);
  }

  // ----- Events

  /** The first notification since the window was last cleared is BufTm old. */
  ghost predicate EventDue(c: Config, s: State, ops: seq<Op>, now: u64)
    requires c.capacity > 0
  {
    exists i: nat :: First(c, s, ops, Since(c, s, ops), i) && now >= SaturatingAdd(ops[i].now, c.bufferTime)
  }

  lemma OneFirst(c: Config, s: State, ops: seq<Op>, k: nat, i: nat, j: nat)
    requires c.capacity > 0 && First(c, s, ops, k, i) && First(c, s, ops, k, j)
    ensures i == j
  {
    hide AcceptedAt;
  }

  /** After every run from a cleared window, what is pending is ripe exactly if its first notification is BufTm old. */
  lemma WindowRipens(c: Config, s: State, ops: seq<Op>, now: u64)
    requires c.capacity > 0 && Alike(s.schedule.pending, Cleared(s.schedule.pending))
    ensures var p := Run(c, s, ops).schedule.pending;
      p.active && p.count != 0 && now >= p.due <==> EventDue(c, s, ops, now)
  {
    hide Run, Since, Accepts, Marked, Notified, SaturatingAdd;
    var k, p := Since(c, s, ops), Run(c, s, ops).schedule.pending;
    WindowCoalesces(c, s, ops);
    ClearedIsExact(s.schedule.pending);
    ExactAlways(c, s, ops);
    if p.active {
      var i: nat :| First(c, s, ops, k, i) && p.due == SaturatingAdd(ops[i].now, c.bufferTime);
      if j: nat :| First(c, s, ops, k, j) && now >= SaturatingAdd(ops[j].now, c.bufferTime) {
        OneFirst(c, s, ops, k, i, j);
      }
    }
  }

  lemma ClearedIsExact(p: Pending)
    requires Alike(p, Cleared(p))
    ensures Exact(p)
  {
    ClearedExact(p, p.revision);
  }

  /**
   With reporting on and no interrogation pending, an event report is due exactly if the
   first notification since the window was cleared is BufTm old.
   */
  lemma EventDueExactly(c: Config, s: State, ops: seq<Op>, now: u64)
    requires c.capacity > 0 && Alike(s.schedule.pending, Cleared(s.schedule.pending))
    requires Run(c, s, ops).schedule.enabled && !Run(c, s, ops).schedule.giPending
    ensures var plan := NextDue(Run(c, s, ops), c.capacity, now).1;
      plan.Some? && plan.value.reason == Event <==> EventDue(c, s, ops, now)
  {
    hide Run, EventDue;
    WindowRipens(c, s, ops, now);
  }

  // ----- Interrogations and integrity reports

  /** Operation `i` switches reporting on or off. */
  predicate Switches(c: Config, s: State, ops: seq<Op>, i: nat) {
    i < |ops| && ops[i].SetEnabledOp? && ops[i].enabled != On(c, s, ops[..i])
  }

  /** Operation `i` captures a report of this kind. */
  predicate Reports(c: Config, s: State, ops: seq<Op>, i: nat, reason: CaptureReason)
    requires c.capacity > 0
  {
    i < |ops| && ops[i].CaptureOp? && ops[i].plan.reason == reason && MoveOf(c, Run(c, s, ops[..i]), ops[i]).Admit?
  }

  /** Operation `i` is a request for an interrogation that was accepted. */
  predicate Asks(c: Config, s: State, ops: seq<Op>, i: nat) {
    && i < |ops| && ops[i].InterrogateOp?
    && On(c, s, ops[..i]) && SettingsOf(c, s, ops[..i]).triggers.generalInterrogation
  }

  /** Operation `i` reports an interrogation, or drops it by a switch. */
  predicate Settles(c: Config, s: State, ops: seq<Op>, i: nat)
    requires c.capacity > 0
  {
    Reports(c, s, ops, i, GeneralInterrogation) || Switches(c, s, ops, i)
  }

  /** The request at `i` has been neither reported nor dropped since. */
  ghost predicate Stands(c: Config, s: State, ops: seq<Op>, i: nat)
    requires c.capacity > 0
  {
    Asks(c, s, ops, i) && forall j: nat :: i < j < |ops| ==> !Settles(c, s, ops, j)
  }

  /** An interrogation was asked for and has been neither reported nor dropped by a switch. */
  ghost predicate Asked(c: Config, s: State, ops: seq<Op>)
    requires c.capacity > 0
  {
    exists i: nat :: Stands(c, s, ops, i)
  }

  /** Where the present state of the switch began. */
  function OnSince(c: Config, s: State, ops: seq<Op>): (k: nat)
    ensures k <= |ops|
  {
    if |ops| == 0 then 0
    else if Switches(c, s, ops, |ops| - 1) then |ops|
    else OnSince(c, s, ops[..|ops| - 1])
  }

  /** The integrity period runs from `i`: the last integrity report since `k`, or else the first scan since `k`. */
  ghost predicate Anchor(c: Config, s: State, ops: seq<Op>, k: nat, i: nat)
    requires c.capacity > 0
  {
    && k <= i < |ops|
    && if Reports(c, s, ops, i, Integrity)
       then forall j: nat :: i < j ==> !Reports(c, s, ops, j, Integrity)
       else ops[i].NextDueOp? && (forall j: nat :: k <= j ==> !Reports(c, s, ops, j, Integrity))
            && forall j: nat :: k <= j < i ==> !ops[j].NextDueOp?
  }

  function TimeOf(op: Op): u64 {
    match op
    case NextDueOp(now) => now
    case CaptureOp(plan, _, _, _, _) => plan.observedNow
    case _ => 0
  }

  /** Integrity reports are wanted, and a full period has passed since the last one or since the first scan. */
  ghost predicate IntegrityDue(c: Config, s: State, ops: seq<Op>, now: u64)
    requires c.capacity > 0
  {
    var period := EffectivePeriod(SettingsOf(c, s, ops).integrityPeriod);
    && period != 0 && SettingsOf(c, s, ops).triggers.integrity
    && exists i: nat :: Anchor(c, s, ops, OnSince(c, s, ops), i) && now >= SaturatingAdd(TimeOf(ops[i]), period)
  }

  // ----- That the control block keeps it so

  /** The integrity due time is a period after the anchor, and zero while there is none. */
  ghost predicate Paced(c: Config, s: State, ops: seq<Op>, k: nat, due: u64, period: u32)
    requires c.capacity > 0
  {
    && (due == 0 ==>
          forall j: nat :: k <= j < |ops| ==> !Reports(c, s, ops, j, Integrity) && !ops[j].NextDueOp?)
    && (due != 0 ==> exists i: nat :: Anchor(c, s, ops, k, i) && due == SaturatingAdd(TimeOf(ops[i]), period))
  }

  /** While reporting is on, what the schedule has pending is what the record says. */
  ghost predicate Timed(c: Config, s: State, ops: seq<Op>, p: Schedule)
    requires c.capacity > 0
  {
    var period := EffectivePeriod(p.integrityPeriod);
    p.enabled ==>
      && (p.giPending <==> Asked(c, s, ops))
      && (p.integrityArmed <==> period != 0 && p.triggers.integrity)
      && (p.integrityArmed ==> Paced(c, s, ops, OnSince(c, s, ops), p.integrityDue, period))
  }

  predicate CapturesFor(c: Config, s: State, op: Op, reason: CaptureReason)
    requires c.capacity > 0
  {
    op.CaptureOp? && op.plan.reason == reason && MoveOf(c, s, op).Admit?
  }

  lemma StepSwitchesOn(c: Config, s: State, op: Op)
    requires c.capacity > 0 && !s.schedule.enabled && Step(c, s, op).schedule.enabled
    ensures var p := Step(c, s, op).schedule;
      && op == SetEnabledOp(true) && !p.giPending && p.integrityDue == 0
      && (p.integrityArmed <==> EffectivePeriod(p.integrityPeriod) != 0 && p.triggers.integrity)
  {
    hide Produce, Append, Find, Cleared, Loadable, TriggersOf, EffectivePeriod;
  }

  lemma StepWhileOn(c: Config, s: State, op: Op)
    requires c.capacity > 0 && s.schedule.enabled && Step(c, s, op).schedule.enabled
    ensures var p, p' := s.schedule, Step(c, s, op).schedule;
      var period := EffectivePeriod(p.integrityPeriod);
      && !(op.SetEnabledOp? && !op.enabled)
      && p'.triggers == p.triggers && p'.integrityPeriod == p.integrityPeriod
      && p'.giPending == (if op.InterrogateOp? && p.triggers.generalInterrogation then true
                          else if CapturesFor(c, s, op, GeneralInterrogation) then false
                          else p.giPending)
      && p'.integrityArmed == (if CapturesFor(c, s, op, Integrity) then period != 0 && p.triggers.integrity
                               else p.integrityArmed)
      && p'.integrityDue == (if CapturesFor(c, s, op, Integrity) then
                               (if period == 0 then 0 else SaturatingAdd(op.plan.observedNow, period))
                             else if op.NextDueOp? && p.integrityArmed && p.integrityDue == 0 then
                               (if period == 0 then 0 else SaturatingAdd(op.now, period))
                             else p.integrityDue)
      && (CapturesFor(c, s, op, Integrity) ==> p.integrityArmed && p.integrityDue != 0)
  {
    hide Produce, Append, Find, Cleared, Loadable, TriggersOf, EffectivePeriod, SaturatingAdd, Noted;
  }

  lemma RecordPrefix(c: Config, s: State, ops: seq<Op>, n: nat, i: nat)
    requires c.capacity > 0 && i < n <= |ops|
    ensures Asks(c, s, ops[..n], i) <==> Asks(c, s, ops, i)
    ensures Switches(c, s, ops[..n], i) <==> Switches(c, s, ops, i)
    ensures forall reason :: Reports(c, s, ops[..n], i, reason) <==> Reports(c, s, ops, i, reason)
  {
    hide On, SettingsOf, MoveOf;
    assert ops[..n][..i] == ops[..i];
  }

  lemma SameRecord(c: Config, s: State, ops: seq<Op>)
    requires c.capacity > 0 && |ops| > 0
    ensures forall i: nat :: i < |ops| - 1 ==> Asks(c, s, ops[..|ops| - 1], i) == Asks(c, s, ops, i)
    ensures forall i: nat :: i < |ops| - 1 ==> Settles(c, s, ops[..|ops| - 1], i) == Settles(c, s, ops, i)
    ensures forall i: nat, reason :: i < |ops| - 1 ==>
      Reports(c, s, ops[..|ops| - 1], i, reason) == Reports(c, s, ops, i, reason)
  {
    hide Asks, Switches, Reports;
    forall i: nat | i < |ops| - 1
      ensures Asks(c, s, ops[..|ops| - 1], i) == Asks(c, s, ops, i)
      ensures Settles(c, s, ops[..|ops| - 1], i) == Settles(c, s, ops, i)
    {
      RecordPrefix(c, s, ops, |ops| - 1, i);
    }
    forall i: nat, reason | i < |ops| - 1
      ensures Reports(c, s, ops[..|ops| - 1], i, reason) == Reports(c, s, ops, i, reason)
    {
      RecordPrefix(c, s, ops, |ops| - 1, i);
    }
  }

  lemma StandsNext(c: Config, s: State, ops: seq<Op>, i: nat)
    requires c.capacity > 0 && |ops| > 0
    ensures var n := |ops| - 1;
      Stands(c, s, ops, i) <==>
        if i == n then Asks(c, s, ops, n) else Stands(c, s, ops[..n], i) && !Settles(c, s, ops, n)
  {
    var n := |ops| - 1;
    var before := ops[..n];
    SameRecord(c, s, ops);
    AsksInside(c, s, ops, i);
    AsksInside(c, s, before, i);
    hide Asks, Settles;
    if Stands(c, s, ops, i) && i < n {
      forall j: nat | i < j < n ensures !Settles(c, s, before, j) {
        assert !Settles(c, s, ops, j);
      }
    }
    if Stands(c, s, before, i) && !Settles(c, s, ops, n) {
      forall j: nat | i < j < |ops| ensures !Settles(c, s, ops, j) {
        assert j < n ==> !Settles(c, s, before, j);
      }
    }
  }

  lemma AskedNext(c: Config, s: State, ops: seq<Op>)
    requires c.capacity > 0 && |ops| > 0
    ensures var n := |ops| - 1;
      Asked(c, s, ops) <==> Asks(c, s, ops, n) || (Asked(c, s, ops[..n]) && !Settles(c, s, ops, n))
  {
    hide Asks, Settles, Stands;
    var n := |ops| - 1;
    StandsNext(c, s, ops, n);
    if Asked(c, s, ops) {
      var i: nat :| Stands(c, s, ops, i);
      StandsNext(c, s, ops, i);
    }
    if Asked(c, s, ops[..n]) {
      var i: nat :| Stands(c, s, ops[..n], i);
      StandsInside(c, s, ops[..n], i);
      StandsNext(c, s, ops, i);
    }
  }

  lemma StandsInside(c: Config, s: State, ops: seq<Op>, i: nat)
    requires c.capacity > 0 && Stands(c, s, ops, i)
    ensures i < |ops|
  {
  }

  lemma AsksInside(c: Config, s: State, ops: seq<Op>, i: nat)
    ensures Asks(c, s, ops, i) ==> i < |ops|
  {
  }

  /** A report of integrity is a new anchor; otherwise the anchor stays, and the first scan is the first. */
  lemma PacedNext(c: Config, s: State, ops: seq<Op>, k: nat, due: u64, due': u64, period: u32)
    requires c.capacity > 0 && |ops| > 0 && k < |ops| && period != 0
    requires Paced(c, s, ops[..|ops| - 1], k, due, period)
    requires var n := |ops| - 1;
      due' == if Reports(c, s, ops, n, Integrity) then SaturatingAdd(TimeOf(ops[n]), period)
              else if ops[n].NextDueOp? && due == 0 then SaturatingAdd(ops[n].now, period)
              else due
    ensures Paced(c, s, ops, k, due', period)
  {
    hide Reports, SaturatingAdd;
    var n := |ops| - 1;
    SameRecord(c, s, ops);
    ReportsInside(c, s, ops, Integrity);
    ReportsInside(c, s, ops[..n], Integrity);
    if Reports(c, s, ops, n, Integrity) {
      assert Anchor(c, s, ops, k, n);
    } else if due != 0 {
      var i: nat :| Anchor(c, s, ops[..n], k, i) && due == SaturatingAdd(TimeOf(ops[..n][i]), period);
      AnchorStays(c, s, ops, k, i);
    } else if ops[n].NextDueOp? {
      assert Anchor(c, s, ops, k, n);
    }
  }

  lemma AnchorStays(c: Config, s: State, ops: seq<Op>, k: nat, i: nat)
    requires c.capacity > 0 && |ops| > 0 && Anchor(c, s, ops[..|ops| - 1], k, i)
    requires !Reports(c, s, ops, |ops| - 1, Integrity)
    ensures Anchor(c, s, ops, k, i)
  {
    hide Reports;
    SameRecord(c, s, ops);
    ReportsInside(c, s, ops, Integrity);
  }

  lemma ReportsInside(c: Config, s: State, ops: seq<Op>, reason: CaptureReason)
    requires c.capacity > 0
    ensures forall i: nat :: Reports(c, s, ops, i, reason) ==> i < |ops|
  {
  }

  lemma TimedWhileOn(c: Config, s: State, ops: seq<Op>)
    requires c.capacity > 0 && |ops| > 0 && Timed(c, s, ops[..|ops| - 1], Run(c, s, ops[..|ops| - 1]).schedule)
    requires Run(c, s, ops[..|ops| - 1]).schedule.enabled && Run(c, s, ops).schedule.enabled
    ensures Timed(c, s, ops, Run(c, s, ops).schedule)
  {
    var n := |ops| - 1;
    var at := Run(c, s, ops[..n]);
    SettingsStand(c, s, ops[..n]);
    StepWhileOn(c, at, ops[n]);
    AskedNext(c, s, ops);
    hide Step, On, SettingsOf, Asked, Paced, MoveOf;
    if at.schedule.integrityArmed {
      PacedNext(c, s, ops, OnSince(c, s, ops), at.schedule.integrityDue, Step(c, at, ops[n]).schedule.integrityDue,
                EffectivePeriod(at.schedule.integrityPeriod));
    }
  }

  lemma TimedFromSwitch(c: Config, s: State, ops: seq<Op>)
    requires c.capacity > 0 && |ops| > 0
    requires !Run(c, s, ops[..|ops| - 1]).schedule.enabled && Run(c, s, ops).schedule.enabled
    ensures Timed(c, s, ops, Run(c, s, ops).schedule)
  {
    var n := |ops| - 1;
    var at := Run(c, s, ops[..n]);
    SettingsStand(c, s, ops[..n]);
    StepSwitchesOn(c, at, ops[n]);
    AskedNext(c, s, ops);
    hide Step, SettingsOf, Asked, MoveOf, EffectivePeriod;
    assert Switches(c, s, ops, n) && OnSince(c, s, ops) == |ops|;
  }

  lemma {:induction false} AlwaysTimed(c: Config, s: State, ops: seq<Op>)
    requires c.capacity > 0 && !s.schedule.enabled
    ensures Timed(c, s, ops, Run(c, s, ops).schedule)
  {
    if |ops| != 0 {
      hide Step, Timed;
      var n := |ops| - 1;
      AlwaysTimed(c, s, ops[..n]);
      if Run(c, s, ops).schedule.enabled {
        if Run(c, s, ops[..n]).schedule.enabled {
          TimedWhileOn(c, s, ops);
        } else {
          TimedFromSwitch(c, s, ops);
        }
      } else {
        TimedWhileOff(c, s, ops, Run(c, s, ops).schedule);
      }
    }
  }

  lemma TimedWhileOff(c: Config, s: State, ops: seq<Op>, p: Schedule)
    requires c.capacity > 0 && !p.enabled
    ensures Timed(c, s, ops, p)
  {
  }

  // ----- What falls due

  /** What the record says is due at `now`, this scan included: an interrogation before events before integrity. */
  ghost function Due(c: Config, s: State, ops: seq<Op>, now: u64): Option<CaptureReason>
    requires c.capacity > 0
  {
    if !On(c, s, ops) then None
    else if Asked(c, s, ops) then Some(GeneralInterrogation)
    else if EventDue(c, s, ops, now) then Some(Event)
    else if IntegrityDue(c, s, ops + [NextDueOp(now)], now) then Some(Integrity)
    else None
  }

  /**
   After every run of a control block that starts with reporting off and nothing pending,
   next_due has a plan exactly for what the record says is due: an interrogation that was
   asked for, an event window whose first notification is BufTm old, or an integrity
   report a full period after the last one, or after the first scan.
   */
  lemma DueExactly(c: Config, s: State, ops: seq<Op>, now: u64)
    requires c.capacity > 0 && !s.schedule.enabled && Alike(s.schedule.pending, Cleared(s.schedule.pending))
    ensures var plan := NextDue(Run(c, s, ops), c.capacity, now).1;
      match Due(c, s, ops, now)
      case None => plan == None
      case Some(reason) => plan.Some? && plan.value.reason == reason && plan.value.observedNow == now
  {
    hide Run, On, SettingsOf, Asked, EventDue, IntegrityDue, EffectivePeriod, SaturatingAdd, Bump;
    SettingsStand(c, s, ops);
    AlwaysTimed(c, s, ops);
    WindowRipens(c, s, ops, now);
    if On(c, s, ops) {
      ScanPaces(c, s, ops, now);
    }
  }

  /** What a scan at `now` finds of integrity. */
  lemma ScanPaces(c: Config, s: State, ops: seq<Op>, now: u64)
    requires c.capacity > 0 && !s.schedule.enabled && Run(c, s, ops).schedule.enabled
    ensures var p := Primed(Run(c, s, ops).schedule, now);
      p.integrityArmed && p.integrityDue != 0 && now >= p.integrityDue <==>
      IntegrityDue(c, s, ops + [NextDueOp(now)], now)
  {
    var scan := ops + [NextDueOp(now)];
    assert scan[..|ops|] == ops;
    ScanIsPriming(c, Run(c, s, ops), now);
    AlwaysTimed(c, s, scan);
    SettingsStand(c, s, scan);
    var p := Run(c, s, scan).schedule;
    hide Run, On, SettingsOf, Asked, Primed, Reports, EffectivePeriod, SaturatingAdd, OnSince;
    if p.integrityArmed {
      PacedIsDue(c, s, scan, OnSince(c, s, scan), p.integrityDue, EffectivePeriod(p.integrityPeriod), now);
    }
  }

  lemma ScanIsPriming(c: Config, s: State, now: u64)
    requires c.capacity > 0 && s.schedule.enabled
    ensures Step(c, s, NextDueOp(now)).schedule == Primed(s.schedule, now)
  {
    hide Primed, DueReason;
  }

  lemma PacedIsDue(c: Config, s: State, ops: seq<Op>, k: nat, due: u64, period: u32, now: u64)
    requires c.capacity > 0 && period != 0 && Paced(c, s, ops, k, due, period)
    ensures due != 0 && now >= due <==>
      exists i: nat :: Anchor(c, s, ops, k, i) && now >= SaturatingAdd(TimeOf(ops[i]), period)
  {
    hide Reports, SaturatingAdd;
    ReportsInside(c, s, ops, Integrity);
    if i: nat :| Anchor(c, s, ops, k, i) && now >= SaturatingAdd(TimeOf(ops[i]), period) {
      if due != 0 {
        var j: nat :| Anchor(c, s, ops, k, j) && due == SaturatingAdd(TimeOf(ops[j]), period);
        OneAnchor(c, s, ops, k, i, j);
      }
    }
  }

  lemma OneAnchor(c: Config, s: State, ops: seq<Op>, k: nat, i: nat, j: nat)
    requires c.capacity > 0 && Anchor(c, s, ops, k, i) && Anchor(c, s, ops, k, j)
    ensures i == j
  {
    hide Reports;
  }

  // ----- At rest

  /** A fresh control block is off and empty, and nothing falls due until it is first switched on. */
  lemma QuietUntilEnabled(c: Config, members: nat, triggers: Triggers, period: u32, fields: seq<byte>, ops: seq<Op>,
                          now: u64)
    requires c.capacity > 0 && forall i :: 0 <= i < |ops| ==> ops[i] != SetEnabledOp(true)
    ensures var s := Initial(members, triggers, period, fields);
      && NextDue(Run(c, s, ops), c.capacity, now).1 == None
      && s.queue.retained == [] && !s.queue.gap && s.queue.dropped == 0
      && ToBE(8, s.queue.next) == [0, 0, 0, 0, 0, 0, 0, 1]
  {
    var s := Initial(members, triggers, period, fields);
    OffUntilEnabled(c, s, ops);
    SettingsStand(c, s, ops);
    NumberOne();
  }

  lemma NumberOne()
    ensures ToBE(8, 1) == [0, 0, 0, 0, 0, 0, 0, 1]
  {
  }

  lemma {:induction false} OffUntilEnabled(c: Config, s: State, ops: seq<Op>)
    requires c.capacity > 0 && !s.schedule.enabled && forall i :: 0 <= i < |ops| ==> ops[i] != SetEnabledOp(true)
    ensures !On(c, s, ops)
  {
    if |ops| != 0 {
      OffUntilEnabled(c, s, ops[..|ops| - 1]);
    }
  }

  /**
   A restored window stands alone: reporting is off and no event is pending, the settings
   stay, and a plan that was current before is refused, also once reporting is on again.
   */
  lemma RestoreLeaves(c: Config, s: State, q: Queue, plan: Plan)
    requires c.capacity > 0 && Loadable(c.capacity, q)
    ensures var t := Step(c, s, RestoreOp(q));
      && t.queue == q && !t.schedule.enabled
      && t.schedule.pending == Pending(seq(|s.schedule.pending.masks|, _ => {}), 0, 1, 0, false)
      && SettingsOf(c, s, [RestoreOp(q)]) == SettingsOf(c, s, [])
      && (Current(s, c.capacity, plan) ==>
            !Current(t, c.capacity, plan) && !Current(SetEnabled(t, true), c.capacity, plan))
  {
    hide Loadable;
    assert [RestoreOp(q)][..0] == [];
  }
}
