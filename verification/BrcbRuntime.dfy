/**
 The buffered report control block as it runs: a ring of caller-supplied slots, a
 head, a count, a delivery offset, and the pending-event state.  Every method is
 proved to do to View() exactly what BrcbLog says.
 */
module BrcbRuntime {
  import opened Octets
  import Log = BrcbLog
  import opened BrcbLog

  /** A slot: how many octets its storage holds, and the report in it, if any. */
  datatype Slot = Slot(room: nat, report: Option<Entry>)

  datatype Definition = Definition(
    domain: seq<byte>, item: seq<byte>, reportId: seq<byte>, dataSetDomain: seq<byte>, dataSetItem: seq<byte>,
    confRevision: u32, optionalFields: seq<byte>, bufferTime: u32, triggerOptions: byte, integrityPeriod: u32)

  /** Ring position of the i-th retained report. */
  function Physical(head: nat, i: nat, n: nat): (p: nat)
    requires head < n && i <= n
    ensures p < n
  {
    if head + i < n then head + i else head + i - n
  }

  lemma PhysicalIsMod(head: nat, i: nat, n: nat)
    requires head < n && i <= n
    ensures (head + i) % n == Physical(head, i, n)
  {
    if head + i < n {
      Remainder(head + i, n, 0, head + i);
    } else {
      Remainder(head + i, n, 1, head + i - n);
    }
  }

  /** Where the ring starts after one more report: a full one turns by a slot. */
  function Turned(head: nat, count: nat, n: nat): nat
    requires head < n
  {
    if count == n then Physical(head, 1, n) else head
  }

  /** A slot holding a report that fits its storage. */
  predicate Holds(slot: Slot) {
    slot.report.Some? && |slot.report.value.pdu| <= slot.room
  }

  /** `count` reports from `head` on, none of them missing. */
  predicate Ring(slots: seq<Slot>, head: nat, count: nat) {
    && head < |slots| && count <= |slots|
    && forall i :: 0 <= i < count ==> Holds(slots[Physical(head, i, |slots|)])
  }

  /** The reports of a ring, oldest first. */
  function Unrolled(slots: seq<Slot>, head: nat, count: nat): (r: seq<Entry>)
    requires Ring(slots, head, count)
    ensures |r| == count
    ensures forall i :: 0 <= i < count ==> r[i] == slots[Physical(head, i, |slots|)].report.value
  {
    seq(count, i requires 0 <= i < count => slots[Physical(head, i, |slots|)].report.value)
  }

  lemma AdmitBehind(slots: seq<Slot>, head: nat, count: nat, room: nat, entry: Entry)
    requires Ring(slots, head, count) && count < |slots| && |entry.pdu| <= room
    ensures var slots' := slots[Physical(head, count, |slots|) := Slot(room, Some(entry))];
      Ring(slots', head, count + 1) && Unrolled(slots', head, count + 1) == Unrolled(slots, head, count) + [entry]
  {
  }

  lemma AdmitOver(slots: seq<Slot>, head: nat, room: nat, entry: Entry)
    requires Ring(slots, head, |slots|) && |entry.pdu| <= room
    ensures var slots', head' := slots[head := Slot(room, Some(entry))], Physical(head, 1, |slots|);
      Ring(slots', head', |slots|) && Unrolled(slots', head', |slots|) == Unrolled(slots, head, |slots|)[1..] + [entry]
  {
    var n := |slots|;
    var slots', head' := slots[head := Slot(room, Some(entry))], Physical(head, 1, n);
    forall i | 0 <= i < n
      ensures Physical(head', i, n) == if i == n - 1 then head else Physical(head, i + 1, n)
      ensures Holds(slots'[Physical(head', i, n)])
    {
    }
  }

  class Runtime {
    const definition: Definition
    const slots: array<Slot>
    const masks: array<set<EventReason>>

    var head: nat
    var count: nat
    var deliveryOffset: nat
    var nextEntryNumber: u64
    var droppedReports: u64
    var sequenceNumber: byte
    var replayGap: bool
    var queueRevision: u32

    var enabled: bool
    var giPending: bool
    var integrityArmed: bool
    var nextIntegrityDue: u64
    var scheduleRevision: u32
    var triggers: Triggers
    var integrityPeriod: u32
    var optionalFields: seq<byte>

    var pendingDue: u64
    var pendingRevision: u32
    var pendingCount: nat
    var pending: bool

    ghost predicate Valid()
      reads this, slots
    {
      Ring(slots[..], head, count) && deliveryOffset <= count
    }

    ghost function Retained(): (r: seq<Entry>)
      requires Valid()
      reads this, slots
      ensures |r| == count
    {
      Unrolled(slots[..], head, count)
    }

    ghost function QueueView(): Queue
      requires Valid()
      reads this, slots
    {
      Queue(Retained(), deliveryOffset, nextEntryNumber, droppedReports, replayGap, sequenceNumber)
    }

    ghost function PendingView(): Pending
      reads this, masks
    {
      Pending(masks[..], pendingDue, pendingRevision, pendingCount, pending)
    }

    ghost function ScheduleView(): Schedule
      reads this, masks
    {
      Schedule(enabled, PendingView(), giPending, integrityArmed, nextIntegrityDue, scheduleRevision, triggers,
               integrityPeriod, optionalFields)
    }

    ghost function View(): State
      requires Valid()
      reads this, slots, masks
    {
      State(QueueView(), ScheduleView(), queueRevision)
    }

    /** A runtime once initialize() has accepted what it is made of. */
    constructor (definition: Definition, rooms: seq<nat>, members: nat)
      requires rooms != []
      ensures Valid() && fresh(slots) && fresh(masks) && this.definition == definition
      ensures slots.Length == |rooms| && forall i :: 0 <= i < |rooms| ==> slots[i] == Slot(rooms[i], None)
      ensures View() == Initial(
        members, TriggersOf(definition.triggerOptions), definition.integrityPeriod, definition.optionalFields)
      ensures head == 0
    {
      this.definition := definition;
      var ring := new Slot[|rooms|](i requires 0 <= i < |rooms| => Slot(rooms[i], None));
      var none := new set<EventReason>[members](_ => {});
      slots, masks := ring, none;
      head, count, deliveryOffset := 0, 0, 0;
      nextEntryNumber, droppedReports, sequenceNumber, replayGap, queueRevision := 1, 0, 0, false, 1;
      enabled, giPending, integrityArmed, nextIntegrityDue, scheduleRevision := false, false, false, 0, 1;
      triggers, integrityPeriod := TriggersOf(definition.triggerOptions), definition.integrityPeriod;
      optionalFields := definition.optionalFields;
      pendingDue, pendingRevision, pendingCount, pending := 0, 1, 0, false;
      new;
      assert masks[..] == seq(members, _ => {});
    }

    // ----- The retained window

    /** The i-th retained report, oldest first. */
    method ReportAt(i: nat) returns (entry: Entry)
      requires Valid() && i < count
      ensures entry == Retained()[i]
    {
      PhysicalIsMod(head, i, slots.Length);
      entry := slots[(head + i) % slots.Length].report.value;
    }

    method Front() returns (entry: Option<Entry>)
      requires Valid()
      ensures entry == if deliveryOffset < count then Some(Retained()[deliveryOffset]) else None
    {
      if count == 0 || deliveryOffset >= count {
        return None;
      }
      PhysicalIsMod(head, deliveryOffset, slots.Length);
      entry := slots[(head + deliveryOffset) % slots.Length].report;
    }

    method CommitDelivery(id: seq<byte>) returns (status: Status)
      requires Valid()
      modifies this`deliveryOffset, this`queueRevision
      ensures Valid() && (View(), status) == Commit(old(View()), id)
    {
      if deliveryOffset >= count {
        return EntryNotFound;
      }
      PhysicalIsMod(head, deliveryOffset, slots.Length);
      var slot := slots[(head + deliveryOffset) % slots.Length];
      assert slot.report.value == Retained()[deliveryOffset];
      if slot.report.None? || slot.report.value.entryId != id {
        return EntryNotFound;
      }
      deliveryOffset := deliveryOffset + 1;
      queueRevision := Bump(queueRevision);
      assert Retained() == old(Retained());
      return Ok;
    }

    method FindEntry(id: seq<byte>) returns (logical: Option<nat>)
      requires Valid()
      ensures logical == Find(Retained(), id)
    {
      for i := 0 to count
        invariant forall j :: 0 <= j < i ==> Retained()[j].entryId != id
      {
        PhysicalIsMod(head, i, slots.Length);
        var slot := slots[(head + i) % slots.Length];
        assert slot.report.value == Retained()[i];
        if slot.report.Some? && slot.report.value.entryId == id {
          return Some(i);
        }
      }
      return None;
    }

    method ReplayFrom(id: seq<byte>) returns (status: Status)
      requires Valid()
      modifies this`deliveryOffset, this`queueRevision
      ensures Valid() && (View(), status) == Log.ReplayFrom(old(View()), id)
    {
      var logical := FindEntry(id);
      if logical.None? {
        return EntryNotFound;
      }
      deliveryOffset := logical.value;
      queueRevision := Bump(queueRevision);
      assert Retained() == old(Retained());
      return Ok;
    }

    method ResumeAfter(id: seq<byte>) returns (status: Status)
      requires Valid()
      modifies this`deliveryOffset, this`queueRevision
      ensures Valid() && (View(), status) == Log.ResumeAfter(old(View()), id)
    {
      var logical := FindEntry(id);
      if logical.None? {
        return EntryNotFound;
      }
      deliveryOffset := logical.value + 1;
      queueRevision := Bump(queueRevision);
      assert Retained() == old(Retained());
      return Ok;
    }

    method RewindToOldest()
      requires Valid()
      modifies this`deliveryOffset, this`queueRevision
      ensures Valid() && View() == Rewind(old(View()))
    {
      deliveryOffset := 0;
      queueRevision := Bump(queueRevision);
      assert Retained() == old(Retained());
    }

    /** clear_retained_slots: every slot loses its report and keeps its storage. */
    method ClearSlots()
      modifies slots
      ensures forall i :: 0 <= i < slots.Length ==> slots[i] == Slot(old(slots[i].room), None)
    {
      for i := 0 to slots.Length
        invariant forall j :: 0 <= j < i ==> slots[j] == Slot(old(slots[j].room), None)
        invariant forall j :: i <= j < slots.Length ==> slots[j] == old(slots[j])
      {
        slots[i] := Slot(slots[i].room, None);
      }
    }

    method PurgeBuffer()
      requires Valid()
      modifies this`head, this`count, this`deliveryOffset, this`replayGap, this`queueRevision, slots
      ensures Valid() && View() == Purge(old(View()))
      ensures forall i :: 0 <= i < slots.Length ==> slots[i].room == old(slots[i].room)
    {
      ClearSlots();
      head, count, deliveryOffset, replayGap := 0, 0, 0, false;
      queueRevision := Bump(queueRevision);
    }

    /** A full ring: the report replaces the oldest one, which is lost if it was not delivered yet. */
    method Overwrite(entry: Entry)
      requires Valid() && |entry.pdu| <= Room() && count == slots.Length
      modifies this`head, this`deliveryOffset, this`droppedReports, this`replayGap, slots
      ensures Valid() && Retained() == old(Retained())[1..] + [entry]
      ensures deliveryOffset == if old(deliveryOffset) == 0 then 0 else old(deliveryOffset) - 1
      ensures droppedReports ==
        if old(deliveryOffset) == 0 then (old(droppedReports) + 1) % U64_LIMIT else old(droppedReports)
      ensures replayGap == (old(replayGap) || old(deliveryOffset) == 0)
      ensures head == Physical(old(head), 1, slots.Length)
      ensures forall i :: 0 <= i < slots.Length ==> slots[i].room == old(slots[i].room)
    {
      ghost var ring := slots[..];
      assert head < slots.Length;
      hide Ring, Unrolled, Holds;
      PhysicalIsMod(head, 1, slots.Length);
      AdmitOver(ring, head, ring[head].room, entry);
      slots[head] := Slot(slots[head].room, Some(entry));
      assert slots[..] == ring[head := Slot(ring[head].room, Some(entry))];
      if deliveryOffset == 0 {
        droppedReports := (droppedReports + 1) % U64_LIMIT;
        replayGap := true;
      } else {
        deliveryOffset := deliveryOffset - 1;
      }
      head := (head + 1) % slots.Length;
    }

    /** Room left: the report goes behind the newest one. */
    method Extend(entry: Entry)
      requires Valid() && |entry.pdu| <= Room() && count < slots.Length
      modifies this`count, slots
      ensures Valid() && Retained() == old(Retained()) + [entry]
      ensures forall i :: 0 <= i < slots.Length ==> slots[i].room == old(slots[i].room)
    {
      ghost var ring := slots[..];
      assert head < slots.Length;
      hide Ring, Unrolled, Holds;
      PhysicalIsMod(head, count, slots.Length);
      var target := (head + count) % slots.Length;
      AdmitBehind(ring, head, count, ring[target].room, entry);
      slots[target] := Slot(slots[target].room, Some(entry));
      assert slots[..] == ring[target := Slot(ring[target].room, Some(entry))];
      count := count + 1;
    }

    method Admit(entry: Entry)
      requires Valid() && |entry.pdu| <= Room()
      modifies this`head, this`count, this`deliveryOffset, this`droppedReports, this`replayGap
      modifies this`sequenceNumber, this`nextEntryNumber, slots
      ensures Valid() && QueueView() == Append(old(QueueView()), slots.Length, entry)
      ensures head == Turned(old(head), old(count), slots.Length)
      ensures forall i :: 0 <= i < slots.Length ==> slots[i].room == old(slots[i].room)
    {
      assert count <= slots.Length;
      hide Ring, Unrolled, Holds;
      if count == slots.Length {
        Overwrite(entry);
      } else {
        Extend(entry);
      }
      sequenceNumber := entry.sequenceNumber;
      nextEntryNumber := NextEntryNumber(nextEntryNumber);
    }

    /** Second half of a restore: slots already loaded from the first one on are taken over as the window. */
    method AdoptQueue(size: nat, cursor: nat, next: u64, dropped: u64, sequence: byte, gap: bool)
      requires Ring(slots[..], 0, size) && cursor <= size
      modifies this`head, this`count, this`deliveryOffset, this`nextEntryNumber, this`droppedReports
      modifies this`sequenceNumber, this`replayGap, this`queueRevision
      ensures Valid() && queueRevision == Bump(old(queueRevision))
      ensures QueueView() == Queue(Unrolled(slots[..], 0, size), cursor, next, dropped, gap, sequence)
    {
      hide Ring, Unrolled;
      head, count, deliveryOffset := 0, size, cursor;
      nextEntryNumber, droppedReports, sequenceNumber, replayGap := next, dropped, sequence, gap;
      queueRevision := Bump(queueRevision);
    }

    /** Reporting is off and nothing is pending after a restore: the schedule part of one that began in `before`. */
    method ForgetPending(ghost before: State)
      requires Valid() && ScheduleView() == before.schedule && queueRevision == Bump(before.queueRevision)
      modifies this`pendingDue, this`pendingCount, this`pending, this`pendingRevision, this`enabled, masks
      ensures Valid() && View() == AfterRestore(before, old(QueueView()))
    {
      hide Cleared, Ring, Unrolled, Bump;
      ClearPending();
      pendingRevision := 1;
      enabled := false;
    }

    // ----- The schedule

    /** clear_pending, and a new revision of the pending state. */
    method ClearPending()
      modifies this`pendingDue, this`pendingCount, this`pending, this`pendingRevision, masks
      ensures PendingView() == Cleared(old(PendingView())).(revision := Bump(old(pendingRevision)))
    {
      for i := 0 to masks.Length
        invariant forall j :: 0 <= j < i ==> masks[j] == {}
        modifies masks
      {
        masks[i] := {};
      }
      pendingDue, pendingCount, pending := 0, 0, false;
      pendingRevision := Bump(pendingRevision);
      assert masks[..] == Cleared(old(PendingView())).masks;
    }

    method RestartSchedule(armed: bool)
      modifies this`pendingDue, this`pendingCount, this`pending, this`pendingRevision, masks
      modifies this`giPending, this`nextIntegrityDue, this`integrityArmed, this`scheduleRevision
      ensures ScheduleView() == Restarted(old(ScheduleView()), armed)
    {
      ClearPending();
      giPending := false;
      nextIntegrityDue := 0;
      integrityArmed := armed;
      scheduleRevision := Bump(scheduleRevision);
    }

    method SetEnabled(enable: bool)
      requires Valid()
      modifies this`enabled, masks
      modifies this`pendingDue, this`pendingCount, this`pending, this`pendingRevision
      modifies this`giPending, this`nextIntegrityDue, this`integrityArmed, this`scheduleRevision
      ensures Valid() && View() == Log.SetEnabled(old(View()), enable)
    {
      hide Ring, Unrolled, Restarted;
      if enabled == enable {
        return;
      }
      enabled := enable;
      RestartSchedule(enable && EffectivePeriod(integrityPeriod) != 0 && triggers.integrity);
    }

    method SetTriggers(options: byte) returns (status: Status)
      requires Valid()
      modifies this`triggers, masks
      modifies this`pendingDue, this`pendingCount, this`pending, this`pendingRevision
      modifies this`giPending, this`nextIntegrityDue, this`integrityArmed, this`scheduleRevision
      ensures Valid() && (View(), status) == Log.SetTriggers(old(View()), options)
    {
      hide Ring, Unrolled, Restarted, TriggersOf;
      if !AllowedTriggers(options) {
        return InvalidDefinition;
      }
      if enabled {
        return TemporarilyUnavailable;
      }
      if triggers == TriggersOf(options) {
        return Ok;
      }
      triggers := TriggersOf(options);
      RestartSchedule(false);
      return Ok;
    }

    method SetOptionalFields(fields: seq<byte>) returns (status: Status)
      requires Valid()
      modifies this`optionalFields, masks
      modifies this`pendingDue, this`pendingCount, this`pending, this`pendingRevision
      modifies this`giPending, this`nextIntegrityDue, this`integrityArmed, this`scheduleRevision
      ensures Valid() && (View(), status) == Log.SetOptionalFields(old(View()), fields)
    {
      hide Ring, Unrolled, Restarted;
      if !AllowedOptional(fields) {
        return InvalidDefinition;
      }
      if enabled {
        return TemporarilyUnavailable;
      }
      if optionalFields == fields {
        return Ok;
      }
      optionalFields := fields;
      RestartSchedule(false);
      return Ok;
    }

    method SetIntegrityPeriod(period: u32) returns (status: Status)
      requires Valid()
      modifies this`integrityPeriod, masks
      modifies this`pendingDue, this`pendingCount, this`pending, this`pendingRevision
      modifies this`giPending, this`nextIntegrityDue, this`integrityArmed, this`scheduleRevision
      ensures Valid() && (View(), status) == Log.SetIntegrityPeriod(old(View()), period)
    {
      hide Ring, Unrolled, Restarted;
      if enabled {
        return TemporarilyUnavailable;
      }
      if integrityPeriod == period {
        return Ok;
      }
      integrityPeriod := period;
      RestartSchedule(false);
      return Ok;
    }

    method Notify(member: nat, reason: EventReason, now: u64) returns (status: Status)
      requires Valid()
      modifies this`pendingDue, this`pendingCount, this`pending, this`pendingRevision, masks
      ensures Valid() && (View(), status) == Log.Notify(old(View()), member, reason, now, definition.bufferTime)
    {
      hide Ring, Unrolled, Noted;
      if !enabled {
        return TemporarilyUnavailable;
      }
      if reason !in triggers.events {
        return TriggerNotSelected;
      }
      if member >= masks.Length {
        return MemberOutOfRange;
      }
      NoteEvent(member, reason, now);
      return Ok;
    }

    method NoteEvent(member: nat, reason: EventReason, now: u64)
      requires member < masks.Length
      modifies this`pendingDue, this`pendingCount, this`pending, this`pendingRevision, masks
      ensures PendingView() == Noted(old(PendingView()), member, reason, now, definition.bufferTime)
    {
      if !pending {
        pending := true;
        pendingDue := SaturatingAdd(now, definition.bufferTime);
      }
      if masks[member] == {} {
        pendingCount := pendingCount + 1;
      }
      masks[member] := masks[member] + {reason};
      pendingRevision := Bump(pendingRevision);
      assert masks[..] == old(masks[..])[member := old(masks[member]) + {reason}];
    }

    method RequestGeneralInterrogation() returns (status: Status)
      requires Valid()
      modifies this`giPending, this`scheduleRevision
      ensures Valid() && (View(), status) == RequestInterrogation(old(View()))
    {
      if !enabled {
        return TemporarilyUnavailable;
      }
      if !triggers.generalInterrogation {
        return TriggerNotSelected;
      }
      if !giPending {
        giPending := true;
        scheduleRevision := Bump(scheduleRevision);
      }
      return Ok;
    }

    method NextDue(now: u64) returns (plan: Option<Plan>)
      requires Valid()
      modifies this`nextIntegrityDue, this`scheduleRevision
      ensures Valid() && (View(), plan) == Log.NextDue(old(View()), slots.Length, now)
    {
      hide Ring, Unrolled;
      if !enabled {
        return None;
      }
      if integrityArmed && nextIntegrityDue == 0 {
        var period := EffectivePeriod(integrityPeriod);
        nextIntegrityDue := if period == 0 then 0 else SaturatingAdd(now, period);
        scheduleRevision := Bump(scheduleRevision);
      }
      var reason;
      if giPending {
        reason := GeneralInterrogation;
      } else if pending && pendingCount != 0 && now >= pendingDue {
        reason := Event;
      } else if integrityArmed && nextIntegrityDue != 0 && now >= nextIntegrityDue {
        reason := Integrity;
      } else {
        return None;
      }
      return Some(Plan(pendingRevision, scheduleRevision, queueRevision, nextEntryNumber, now,
                       NextSequence(sequenceNumber), reason, count == slots.Length && deliveryOffset == 0));
    }

    // ----- Capturing a report

    /** The loop over the data set: which members go into the report, with what. */
    method CollectMembers(reason: CaptureReason, values: seq<MemberRead>) returns (collected: Collected)
      requires |values| == masks.Length
      ensures collected == Collect(reason, masks[..], values, |values|)
    {
      var included := [];
      for member := 0 to |values|
        invariant Collected(included) == Collect(reason, masks[..], values, member)
      {
        if reason == Event && masks[member] == {} {
          continue;
        }
        match values[member]
        case ReadFails(status) =>
          CollectStaysFailed(reason, masks[..], values, member + 1, |values|);
          return CollectFails(status);
        case Value(v) =>
          included := included + [Inclusion(member, v, ReasonsFor(reason, masks[member]))];
      }
      return Collected(included);
    }

    method Capture(plan: Plan, reportTime: seq<byte>, values: seq<MemberRead>, encode: Report -> Encoding)
      returns (status: Status)
      requires Valid() && |values| == masks.Length
      modifies this, slots, masks
      ensures Valid() && forall i :: 0 <= i < slots.Length ==> slots[i].room == old(slots[i].room)
      ensures (View(), status) == Log.Capture(old(View()), slots.Length, plan, reportTime, values, encode, old(Room()))
      ensures head == if status == Ok then Turned(old(head), old(count), slots.Length) else old(head)
    {
      assert head < slots.Length && count <= slots.Length;
      hide Ring, Unrolled, Produce, Stored;
      var overflow := count == slots.Length && deliveryOffset == 0;
      if !enabled || plan.queueRevision != queueRevision || plan.entryNumber != nextEntryNumber ||
         plan.sequenceNumber != NextSequence(sequenceNumber) || plan.bufferOverflow != overflow ||
         (plan.reason == Event && (!pending || pendingCount == 0 || plan.pendingRevision != pendingRevision)) ||
         (plan.reason != Event && plan.scheduleRevision != scheduleRevision) ||
         (plan.reason == GeneralInterrogation && !giPending) ||
         (plan.reason == Integrity &&
          (!integrityArmed || nextIntegrityDue == 0 || plan.observedNow < nextIntegrityDue)) {
        return StalePlan;
      }
      var encoding := BuildReport(plan, reportTime, values, encode);
      match encoding
      case EncodeFails(failure) => return failure;
      case Encoded(pdu) =>
        PhysicalIsMod(head, count, slots.Length);
        var target := if count == slots.Length then head else (head + count) % slots.Length;
        if slots[target].room < |pdu| {
          return SlotTooSmall;
        }
        Store(plan, reportTime, pdu);
        return Ok;
    }

    /** The storage of the slot the next report would go to. */
    ghost function Room(): nat
      requires Valid()
      reads this, slots
    {
      slots[if count == slots.Length then head else Physical(head, count, slots.Length)].room
    }

    method BuildReport(plan: Plan, reportTime: seq<byte>, values: seq<MemberRead>, encode: Report -> Encoding)
      returns (encoding: Encoding)
      requires Valid() && |values| == masks.Length
      ensures encoding == Produce(View(), plan, reportTime, values, encode)
    {
      var collected := CollectMembers(plan.reason, values);
      match collected
      case CollectFails(failure) => return EncodeFails(failure);
      case Collected(included) =>
        var expected := if plan.reason == Event then pendingCount else |values|;
        if |included| == 0 || |included| != expected {
          return EncodeFails(StalePlan);
        }
        var id := ToBE(8, plan.entryNumber);
        return encode(Report(id, plan.sequenceNumber, plan.bufferOverflow, reportTime, included));
    }

    method Store(plan: Plan, reportTime: seq<byte>, pdu: Pdu)
      requires Valid() && |pdu| <= Room()
      modifies this, slots, masks
      ensures Valid() && View() == Stored(old(View()), slots.Length, plan, reportTime, pdu)
      ensures head == Turned(old(head), old(count), slots.Length)
      ensures forall i :: 0 <= i < slots.Length ==> slots[i].room == old(slots[i].room)
    {
      hide Ring, Unrolled, Append, Cleared, Rescheduled, ToBE;
      Admit(NewEntry(plan, reportTime, pdu));
      Reschedule(plan);
      queueRevision := Bump(queueRevision);
    }

    method Reschedule(plan: Plan)
      modifies this`pendingDue, this`pendingCount, this`pending, this`pendingRevision, masks
      modifies this`giPending, this`nextIntegrityDue, this`integrityArmed, this`scheduleRevision
      ensures ScheduleView() == Rescheduled(old(ScheduleView()), plan)
    {
      match plan.reason {
        case Event =>
          ClearPending();
        case GeneralInterrogation =>
          giPending := false;
          scheduleRevision := Bump(scheduleRevision);
        case Integrity =>
          var period := EffectivePeriod(integrityPeriod);
          nextIntegrityDue := if period == 0 then 0 else SaturatingAdd(plan.observedNow, period);
          integrityArmed := period != 0 && enabled && triggers.integrity;
          scheduleRevision := Bump(scheduleRevision);
      }
    }
  }

  // ----- What initialize accepts

  const MAXIMUM_TEXT: nat := 129
  const MAXIMUM_MEMBERS: nat := 128
  const OPT_ENTRY_ID: byte := 0x01

  predicate VisibleAscii(text: seq<byte>, maximum: nat) {
    0 < |text| <= maximum && forall i :: 0 <= i < |text| ==> 0 < text[i] <= 0x7F
  }

  predicate ValidReference(domain: seq<byte>, item: seq<byte>) {
    VisibleAscii(domain, MAXIMUM_TEXT) && VisibleAscii(item, MAXIMUM_TEXT) && |domain| + 1 + |item| <= MAXIMUM_TEXT
  }

  /** TrgOps has no bits below general interrogation. */
  predicate Acceptable(d: Definition) {
    && ValidReference(d.domain, d.item) && VisibleAscii(d.reportId, MAXIMUM_TEXT)
    && ValidReference(d.dataSetDomain, d.dataSetItem)
    && AllowedOptional(d.optionalFields) && d.optionalFields[0] % 2 == OPT_ENTRY_ID
    && d.triggerOptions != 0 && AllowedTriggers(d.triggerOptions)
  }

  /** A text of 1 to 129 octets, each of 1 to 127. */
  predicate Readable(text: seq<byte>) {
    1 <= |text| < 130 && forall b <- text :: 1 <= b < 128
  }

  /**
   A definition is accepted exactly if its texts are readable and its references short
   enough, EntryID is asked for and nothing that there is not, and something triggers reports.
   */
  lemma AcceptableExactly(d: Definition)
    ensures Acceptable(d) <==>
      && Readable(d.domain) && Readable(d.item) && Readable(d.reportId)
      && Readable(d.dataSetDomain) && Readable(d.dataSetItem)
      && |d.domain| + |d.item| < 129 && |d.dataSetDomain| + |d.dataSetItem| < 129
      && |d.optionalFields| == 2 && d.optionalFields[0] < 0x80 && d.optionalFields[1] in {0, 0x80}
      && d.optionalFields[0] % 2 == 1 && d.triggerOptions >= 4 && d.triggerOptions % 4 == 0
  {
    hide VisibleAscii, Readable;
    ReadableIsVisible(d.domain);
    ReadableIsVisible(d.item);
    ReadableIsVisible(d.reportId);
    ReadableIsVisible(d.dataSetDomain);
    ReadableIsVisible(d.dataSetItem);
  }

  lemma ReadableIsVisible(text: seq<byte>)
    ensures Readable(text) <==> VisibleAscii(text, MAXIMUM_TEXT)
  {
    assert forall i :: 0 <= i < |text| ==> text[i] in text;
  }

  predicate Initializable(d: Definition, rooms: seq<nat>, members: nat) {
    && Acceptable(d) && 0 < members <= MAXIMUM_MEMBERS
    && rooms != [] && forall i :: 0 <= i < |rooms| ==> rooms[i] > 0
  }

  /** initialize: a usable control block, or none if its definition, DataSet or storage will not do. */
  method Initialize(d: Definition, rooms: seq<nat>, members: nat) returns (runtime: Runtime?)
    ensures runtime != null <==> Initializable(d, rooms, members)
    ensures runtime != null ==>
      && fresh(runtime) && fresh(runtime.slots) && fresh(runtime.masks) && runtime.Valid() && runtime.definition == d
      && runtime.slots.Length == |rooms| && runtime.head == 0
      && (forall i :: 0 <= i < |rooms| ==> runtime.slots[i] == Slot(rooms[i], None))
      && runtime.View() == Initial(members, TriggersOf(d.triggerOptions), d.integrityPeriod, d.optionalFields)
  {
    if !Acceptable(d) || members == 0 || members > MAXIMUM_MEMBERS || |rooms| == 0 {
      return null;
    }
    for i := 0 to |rooms|
      invariant forall j :: 0 <= j < i ==> rooms[j] > 0
    {
      if rooms[i] == 0 {
        return null;
      }
    }
    runtime := new Runtime(d, rooms, members);
  }

  lemma {:induction false} CollectStaysFailed(reason: CaptureReason, masks: seq<set<EventReason>>,
                                              values: seq<MemberRead>, i: nat, k: nat)
    requires i <= k <= |masks| == |values|
    requires Collect(reason, masks, values, i).CollectFails?
    ensures Collect(reason, masks, values, k) == Collect(reason, masks, values, i)
  {
    if i < k {
      CollectStaysFailed(reason, masks, values, i, k - 1);
    }
  }
}
