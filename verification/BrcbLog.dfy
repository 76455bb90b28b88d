/**
 The buffered report control block seen as a log: a retained window of captured
 reports, an independent delivery cursor, and the schedule that decides when the
 next report is captured.  The ring in BrcbRuntime refines these definitions.
 */
module BrcbLog {
  import opened Octets

  datatype Status =
    | Ok | InvalidRuntime | InvalidDefinition | MemberOutOfRange | TriggerNotSelected | TemporarilyUnavailable
    | StalePlan | DataSetNotFound | ObjectNotFound | WorkspaceTooSmall | ResponseBufferTooSmall
    | SlotTooSmall | BackendFailure | ReportEncodeFailed | EntryNotFound

  type Failure = s: Status | s != Ok witness BackendFailure

  /** An encoded report; the encoder never produces an empty one. */
  type Pdu = s: seq<byte> | |s| > 0 witness [0]

  datatype EventReason = DataChange | QualityChange | DataUpdate
  datatype CaptureReason = Event | GeneralInterrogation | Integrity

  /** TrgOps, one flag per bit. */
  datatype Triggers = Triggers(events: set<EventReason>, integrity: bool, generalInterrogation: bool, transient: bool)

  predicate Bit(x: byte, weight: byte)
    requires weight != 0
  {
    x / weight % 2 == 1
  }

  function TriggersOf(options: byte): Triggers {
    Triggers(
      (if Bit(options, 0x40) then {DataChange} else {}) + (if Bit(options, 0x20) then {QualityChange} else {}) +
      (if Bit(options, 0x10) then {DataUpdate} else {}),
      Bit(options, 0x08), Bit(options, 0x04), Bit(options, 0x80))
  }

  type EntryId = s: seq<byte> | |s| == 8 witness [0, 0, 0, 0, 0, 0, 0, 0]

  datatype Entry = Entry(
    entryId: EntryId, timeOfEntry: seq<byte>, pdu: Pdu, sequenceNumber: byte, bufferOverflow: bool)

  datatype Queue = Queue(
    retained: seq<Entry>, cursor: nat, next: u64, dropped: u64, gap: bool, sequence: byte)

  datatype Pending = Pending(masks: seq<set<EventReason>>, due: u64, revision: u32, count: nat, active: bool)

  datatype Schedule = Schedule(
    enabled: bool, pending: Pending, giPending: bool, integrityArmed: bool, integrityDue: u64,
    revision: u32, triggers: Triggers, integrityPeriod: u32, optionalFields: seq<byte>)

  datatype State = State(queue: Queue, schedule: Schedule, queueRevision: u32)

  datatype Plan = Plan(
    pendingRevision: u32, scheduleRevision: u32, queueRevision: u32, entryNumber: u64,
    observedNow: u64, sequenceNumber: byte, reason: CaptureReason, bufferOverflow: bool)

  /** One data-set member as read for a report: its encoded value, or why it could not be read. */
  datatype MemberRead = Value(encoded: seq<byte>) | ReadFails(status: Failure)
  datatype Inclusion = Inclusion(member: nat, value: seq<byte>, reasons: ReportReasons)
  datatype ReportReasons = Events(events: set<EventReason>) | ByGeneralInterrogation | ByIntegrity
  datatype Report = Report(
    entryId: seq<byte>, sequenceNumber: byte, bufferOverflow: bool, reportTime: seq<byte>, included: seq<Inclusion>)
  datatype Encoding = Encoded(pdu: Pdu) | EncodeFails(status: Failure)

  const MINIMUM_INTEGRITY_PERIOD_MS: nat := 100

  // ----- Counters

  /** bump_revision: 32-bit, skipping zero. */
  function Bump(revision: u32): (r: u32)
    ensures r != 0 && r != revision
  {
    if revision == U32_LIMIT - 1 then 1 else revision + 1
  }

  function NextEntryNumber(current: u64): (r: u64)
    ensures r != 0
  {
    if current == U64_MAX then 1 else current + 1
  }

  function NextSequence(current: byte): byte {
    (current + 1) % 256
  }

  function SaturatingAdd(base: u64, delta: u64): (r: u64)
    ensures base <= r <= base + delta && (r < base + delta ==> r == U64_MAX)
  {
    if delta > U64_MAX - base then U64_MAX else base + delta
  }

  /** effective_integrity_period: off, or the configured period but never less than the least allowed. */
  function EffectivePeriod(configured: u32): (r: u32)
    ensures r == 0 <==> configured == 0
    ensures configured != 0 ==> r >= configured && r >= 100 && (r == configured || r == 100)
  {
    if configured == 0 then 0
    else if configured < MINIMUM_INTEGRITY_PERIOD_MS then MINIMUM_INTEGRITY_PERIOD_MS
    else configured
  }

  // ----- The retained window

  /** The reading of an EntryID as the number it encodes. */
  function Number(e: Entry): nat {
    FromBE(e.entryId)
  }

  /** Admitting a report to a window of at most `capacity` entries. */
  function Append(q: Queue, capacity: nat, e: Entry): Queue
    requires 0 < capacity
  {
    if |q.retained| < capacity then
      q.(retained := q.retained + [e], next := NextEntryNumber(q.next), sequence := e.sequenceNumber)
    else
      q.(retained := q.retained[1..] + [e],
         cursor := if q.cursor == 0 then 0 else q.cursor - 1,
         dropped := if q.cursor == 0 then (q.dropped + 1) % U64_LIMIT else q.dropped,
         gap := q.gap || q.cursor == 0,
         next := NextEntryNumber(q.next), sequence := e.sequenceNumber)
  }

  predicate Overflows(q: Queue, capacity: nat) {
    |q.retained| == capacity && q.cursor == 0
  }

  /** Index of the first retained entry with this EntryID. */
  function Find(retained: seq<Entry>, id: seq<byte>): (r: Option<nat>)
    ensures r.Some? ==> r.value < |retained| && retained[r.value].entryId == id
    ensures r.Some? ==> forall j :: 0 <= j < r.value ==> retained[j].entryId != id
    ensures r.None? ==> forall j :: 0 <= j < |retained| ==> retained[j].entryId != id
  {
    FindFrom(retained, id, 0)
  }

  function FindFrom(retained: seq<Entry>, id: seq<byte>, from: nat): (r: Option<nat>)
    requires from <= |retained|
    ensures r.Some? ==> from <= r.value < |retained| && retained[r.value].entryId == id
    ensures r.Some? ==> forall j :: from <= j < r.value ==> retained[j].entryId != id
    ensures r.None? ==> forall j :: from <= j < |retained| ==> retained[j].entryId != id
    decreases |retained| - from
  {
    if from == |retained| then None
    else if retained[from].entryId == id then Some(from)
    else FindFrom(retained, id, from + 1)
  }

  // ----- Operations

  function QueueMoved(s: State, q: Queue): State {
    s.(queue := q, queueRevision := Bump(s.queueRevision))
  }

  function Commit(s: State, id: seq<byte>): (State, Status) {
    var q := s.queue;
    if q.cursor < |q.retained| && q.retained[q.cursor].entryId == id
    then (QueueMoved(s, q.(cursor := q.cursor + 1)), Ok)
    else (s, EntryNotFound)
  }

  function ReplayFrom(s: State, id: seq<byte>): (State, Status) {
    match Find(s.queue.retained, id)
    case None => (s, EntryNotFound)
    case Some(i) => (QueueMoved(s, s.queue.(cursor := i)), Ok)
  }

  function ResumeAfter(s: State, id: seq<byte>): (State, Status) {
    match Find(s.queue.retained, id)
    case None => (s, EntryNotFound)
    case Some(i) => (QueueMoved(s, s.queue.(cursor := i + 1)), Ok)
  }

  function Rewind(s: State): State {
    QueueMoved(s, s.queue.(cursor := 0))
  }

  function Purge(s: State): State {
    QueueMoved(s, s.queue.(retained := [], cursor := 0, gap := false))
  }

  function Cleared(p: Pending): Pending {
    Pending(seq(|p.masks|, _ => {}), 0, p.revision, 0, false)
  }

  /** What enabling, disabling and reconfiguring all do to the schedule. */
  function Restarted(c: Schedule, armed: bool): Schedule {
    c.(pending := Cleared(c.pending).(revision := Bump(c.pending.revision)),
       giPending := false, integrityDue := 0, integrityArmed := armed, revision := Bump(c.revision))
  }

  function SetEnabled(s: State, enabled: bool): State {
    var c := s.schedule;
    if c.enabled == enabled then s
    else s.(schedule := Restarted(c.(enabled := enabled),
                                  enabled && EffectivePeriod(c.integrityPeriod) != 0 && c.triggers.integrity))
  }

  /** The two low bits of TrgOps mean nothing. */
  predicate AllowedTriggers(options: byte) {
    options % 4 == 0
  }

  /** Allowed options are what their flags say, so the flags can stand for them. */
  lemma TriggersTellApart(x: byte, y: byte)
    requires AllowedTriggers(x) && AllowedTriggers(y) && TriggersOf(x) == TriggersOf(y)
    ensures x == y
  {
    hide Bit;
    assert forall reason :: reason in TriggersOf(x).events <==> reason in TriggersOf(y).events;
    assert DataChange in TriggersOf(x).events <==> Bit(x, 0x40);
    assert QualityChange in TriggersOf(x).events <==> Bit(x, 0x20);
    assert DataUpdate in TriggersOf(x).events <==> Bit(x, 0x10);
    SameBit(x, y, 0x80);
    SameBit(x, y, 0x40);
    SameBit(x, y, 0x20);
    SameBit(x, y, 0x10);
    SameBit(x, y, 0x08);
    SameBit(x, y, 0x04);
  }

  lemma SameBit(x: byte, y: byte, weight: byte)
    requires weight in {0x80, 0x40, 0x20, 0x10, 0x08, 0x04} && x / (2 * weight) == y / (2 * weight)
    requires Bit(x, weight) == Bit(y, weight)
    ensures x / weight == y / weight
  {
    NextBit(x, weight);
    NextBit(y, weight);
  }

  lemma NextBit(x: byte, weight: byte)
    requires weight in {0x80, 0x40, 0x20, 0x10, 0x08, 0x04}
    ensures x / weight == 2 * (x / (2 * weight)) + if Bit(x, weight) then 1 else 0
  {
  }

  function SetTriggers(s: State, options: byte): (State, Status) {
    var c, triggers := s.schedule, TriggersOf(options);
    if !AllowedTriggers(options) then (s, InvalidDefinition)
    else if c.enabled then (s, TemporarilyUnavailable)
    else if c.triggers == triggers then (s, Ok)
    else (s.(schedule := Restarted(c.(triggers := triggers), false)), Ok)
  }

  /** OptFlds: ten bits in two octets, the ones this report format has. */
  predicate AllowedOptional(fields: seq<byte>) {
    |fields| == 2 && fields[0] <= 0x7F && fields[1] % 0x80 == 0
  }

  function SetOptionalFields(s: State, fields: seq<byte>): (State, Status) {
    var c := s.schedule;
    if !AllowedOptional(fields) then (s, InvalidDefinition)
    else if c.enabled then (s, TemporarilyUnavailable)
    else if c.optionalFields == fields then (s, Ok)
    else (s.(schedule := Restarted(c.(optionalFields := fields), false)), Ok)
  }

  function SetIntegrityPeriod(s: State, period: u32): (State, Status) {
    var c := s.schedule;
    if c.enabled then (s, TemporarilyUnavailable)
    else if c.integrityPeriod == period then (s, Ok)
    else (s.(schedule := Restarted(c.(integrityPeriod := period), false)), Ok)
  }

  function Noted(p: Pending, member: nat, reason: EventReason, now: u64, bufferTime: u32): Pending
    requires member < |p.masks|
  {
    Pending(
      p.masks[member := p.masks[member] + {reason}],
      if p.active then p.due else SaturatingAdd(now, bufferTime),
      Bump(p.revision),
      if p.masks[member] == {} then p.count + 1 else p.count,
      true)
  }

  function Notify(s: State, member: nat, reason: EventReason, now: u64, bufferTime: u32): (State, Status) {
    var c := s.schedule;
    if !c.enabled then (s, TemporarilyUnavailable)
    else if reason !in c.triggers.events then (s, TriggerNotSelected)
    else if member >= |c.pending.masks| then (s, MemberOutOfRange)
    else (s.(schedule := c.(pending := Noted(c.pending, member, reason, now, bufferTime))), Ok)
  }

  function RequestInterrogation(s: State): (State, Status) {
    var c := s.schedule;
    if !c.enabled then (s, TemporarilyUnavailable)
    else if !c.triggers.generalInterrogation then (s, TriggerNotSelected)
    else if c.giPending then (s, Ok)
    else (s.(schedule := c.(giPending := true, revision := Bump(c.revision))), Ok)
  }

  /** The first scan after arming starts the integrity period. */
  function Primed(c: Schedule, now: u64): Schedule {
    if c.integrityArmed && c.integrityDue == 0
    then c.(integrityDue := if EffectivePeriod(c.integrityPeriod) == 0 then 0
                            else SaturatingAdd(now, EffectivePeriod(c.integrityPeriod)),
            revision := Bump(c.revision))
    else c
  }

  function DueReason(c: Schedule, now: u64): Option<CaptureReason> {
    if c.giPending then Some(GeneralInterrogation)
    else if c.pending.active && c.pending.count != 0 && now >= c.pending.due then Some(Event)
    else if c.integrityArmed && c.integrityDue != 0 && now >= c.integrityDue then Some(Integrity)
    else None
  }

  function NextDue(s: State, capacity: nat, now: u64): (State, Option<Plan>) {
    if !s.schedule.enabled then (s, None)
    else
      var c := Primed(s.schedule, now);
      var s' := s.(schedule := c);
      match DueReason(c, now)
      case None => (s', None)
      case Some(reason) =>
        (s', Some(Plan(c.pending.revision, c.revision, s.queueRevision, s.queue.next, now,
                       NextSequence(s.queue.sequence), reason, Overflows(s.queue, capacity))))
  }

  /** The plan still describes this state. */
  predicate Current(s: State, capacity: nat, plan: Plan) {
    var c := s.schedule;
    && c.enabled
    && plan.queueRevision == s.queueRevision
    && plan.entryNumber == s.queue.next
    && plan.sequenceNumber == NextSequence(s.queue.sequence)
    && plan.bufferOverflow == Overflows(s.queue, capacity)
    && match plan.reason
       case Event => c.pending.active && c.pending.count != 0 && plan.pendingRevision == c.pending.revision
       case GeneralInterrogation => plan.scheduleRevision == c.revision && c.giPending
       case Integrity => plan.scheduleRevision == c.revision && c.integrityArmed && c.integrityDue != 0 &&
                         plan.observedNow >= c.integrityDue
  }

  function ReasonsFor(reason: CaptureReason, mask: set<EventReason>): ReportReasons {
    match reason
    case Event => Events(mask)
    case GeneralInterrogation => ByGeneralInterrogation
    case Integrity => ByIntegrity
  }

  predicate Selected(reason: CaptureReason, mask: set<EventReason>) {
    reason != Event || mask != {}
  }

  datatype Collected = Collected(included: seq<Inclusion>) | CollectFails(status: Failure)

  /** Members that go into the report, in data-set order, up to the first one that cannot be read. */
  function Collect(reason: CaptureReason, masks: seq<set<EventReason>>, values: seq<MemberRead>, k: nat): Collected
    requires k <= |masks| == |values|
  {
    if k == 0 then Collected([])
    else
      var before := Collect(reason, masks, values, k - 1);
      if before.CollectFails? || !Selected(reason, masks[k - 1]) then before
      else match values[k - 1]
        case ReadFails(status) => CollectFails(status)
        case Value(v) => Collected(before.included + [Inclusion(k - 1, v, ReasonsFor(reason, masks[k - 1]))])
  }

  /** The schedule once a report is captured: only what that report was for is settled. */
  function Rescheduled(c: Schedule, plan: Plan): Schedule {
    match plan.reason
    case Event => c.(pending := Cleared(c.pending).(revision := Bump(c.pending.revision)))
    case GeneralInterrogation => c.(giPending := false, revision := Bump(c.revision))
    case Integrity =>
      var period := EffectivePeriod(c.integrityPeriod);
      c.(integrityDue := if period == 0 then 0 else SaturatingAdd(plan.observedNow, period),
         integrityArmed := period != 0 && c.enabled && c.triggers.integrity,
         revision := Bump(c.revision))
  }

  function TimeField(reportTime: seq<byte>): seq<byte> {
    if |reportTime| == 6 then reportTime else Fill(6, 0)
  }

  function NewEntry(plan: Plan, reportTime: seq<byte>, pdu: Pdu): Entry {
    Entry(ToBE(8, plan.entryNumber), TimeField(reportTime), pdu, plan.sequenceNumber, plan.bufferOverflow)
  }

  function Stored(s: State, capacity: nat, plan: Plan, reportTime: seq<byte>, pdu: Pdu): State
    requires 0 < capacity
  {
    QueueMoved(s.(schedule := Rescheduled(s.schedule, plan)),
               Append(s.queue, capacity, NewEntry(plan, reportTime, pdu)))
  }

  /** The report a current plan describes, or why it cannot be built. */
  function Produce(s: State, plan: Plan, reportTime: seq<byte>, values: seq<MemberRead>, encode: Report -> Encoding)
    : Encoding
    requires |values| == |s.schedule.pending.masks|
  {
    var p := s.schedule.pending;
    match Collect(plan.reason, p.masks, values, |values|)
    case CollectFails(status) => EncodeFails(status)
    case Collected(included) =>
      var expected := if plan.reason == Event then p.count else |values|;
      if |included| == 0 || |included| != expected then EncodeFails(StalePlan)
      else encode(Report(ToBE(8, plan.entryNumber), plan.sequenceNumber, plan.bufferOverflow, reportTime, included))
  }

  /** capture: `room` is the size of the slot the report would go to. */
  function Capture(s: State, capacity: nat, plan: Plan, reportTime: seq<byte>, values: seq<MemberRead>,
                   encode: Report -> Encoding, room: nat): (State, Status)
    requires 0 < capacity && |values| == |s.schedule.pending.masks|
  {
    if !Current(s, capacity, plan) then (s, StalePlan)
    else match Produce(s, plan, reportTime, values, encode)
      case EncodeFails(status) => (s, status)
      case Encoded(pdu) =>
        if |pdu| > room then (s, SlotTooSmall)
        else (Stored(s, capacity, plan, reportTime, pdu), Ok)
  }

  /** A restore replaces the window, drops what was pending and leaves reporting disabled. */
  function AfterRestore(s: State, q: Queue): State {
    State(q, s.schedule.(enabled := false, pending := Cleared(s.schedule.pending).(revision := 1)),
          Bump(s.queueRevision))
  }

  function Initial(members: nat, triggers: Triggers, integrityPeriod: u32, optionalFields: seq<byte>): State {
    var nothing := Pending(seq(members, _ => {}), 0, 1, 0, false);
    State(Queue([], 0, 1, 0, false, 0),
          Schedule(false, nothing, false, false, 0, 1, triggers, integrityPeriod, optionalFields),
          1)
  }
}
