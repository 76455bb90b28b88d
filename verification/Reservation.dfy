/**
 Who may use a buffered report control block, and how its reports are delivered:
 static_brcb_control.cpp and static_brcb_connection.cpp as functions of one state.
 */
module Reservation {
  import opened Octets
  import opened BrcbLog
  import opened BrcbHistory
  import BrcbPlans

  datatype ControlStatus =
    | Granted | InvalidIdentity | AccessDenied | Unavailable | NoSuchEntry | Failed

  /** A live association and the stable identity of the client behind it. */
  datatype Client = Client(association: u64, owner: seq<byte>) {
    predicate Valid() {
      association != 0 && 0 < |owner| <= 16
    }
  }

  datatype Holder = Holder(
    reserved: bool, connected: bool, owner: seq<byte>, association: u64, expires: u64, resvTms: u32)

  const NOBODY: Holder := Holder(false, false, [], 0, 0, 0)

  /** The control object and the runtime it guards. */
  datatype World = World(holder: Holder, brcb: State)

  datatype Command =
    | Enable(enabled: bool) | Replay(id: seq<byte>) | Resume(id: seq<byte>) | RewindBuffer | PurgeBuffer
    | Interrogate | ChangeTriggers(options: byte) | ChangePeriod(period: u32) | ChangeOptional(fields: seq<byte>)

  /** reservation_deadline: close time plus ResvTms seconds, saturating. */
  function Deadline(now: u64, seconds: u32): u64 {
    if seconds * 1000 > U64_MAX - now then U64_MAX else now + seconds * 1000
  }

  /** tick: a disconnected reservation lapses at its deadline, and reporting with it. */
  function Ticked(w: World, now: u64): World {
    var h := w.holder;
    if !h.reserved || h.connected || h.resvTms == 0 || now < h.expires then w
    else World(NOBODY, SetEnabled(w.brcb, false))
  }

  predicate SameOwner(h: Holder, client: Client) {
    client.Valid() && h.reserved && h.owner == client.owner
  }

  predicate Owns(h: Holder, client: Client) {
    SameOwner(h, client) && h.connected && h.association == client.association
  }

  function Reserve(w: World, client: Client, resvTms: u32, now: u64): (World, ControlStatus) {
    if !client.Valid() then (w, InvalidIdentity)
    else
      var t := Ticked(w, now);
      var h := t.holder;
      if h.reserved && (!SameOwner(h, client) || (h.connected && h.association != client.association))
      then (t, AccessDenied)
      else (t.(holder := Holder(true, true, client.owner, client.association, 0, resvTms)), Granted)
  }

  /** require_control_access. */
  function Access(w: World, client: Client, now: u64): (World, ControlStatus) {
    if !client.Valid() then (w, InvalidIdentity)
    else
      var t := Ticked(w, now);
      (t, if Owns(t.holder, client) then Granted else AccessDenied)
  }

  function Mapped(status: Status): ControlStatus {
    match status
    case Ok => Granted
    case EntryNotFound => NoSuchEntry
    case TemporarilyUnavailable => Unavailable
    case StalePlan => Unavailable
    case _ => Failed
  }

  function Perform(s: State, command: Command): (State, ControlStatus) {
    if command.Enable? then (SetEnabled(s, command.enabled), Granted)
    else if command.Interrogate? != s.schedule.enabled then (s, Unavailable)
    else
      match command
      case Replay(id) => var (s', r) := ReplayFrom(s, id); (s', Mapped(r))
      case Resume(id) => var (s', r) := ResumeAfter(s, id); (s', Mapped(r))
      case RewindBuffer => (Rewind(s), Granted)
      case PurgeBuffer => (Purge(s), Granted)
      case Interrogate => var (s', r) := RequestInterrogation(s); (s', Mapped(r))
      case ChangeTriggers(t) => var (s', r) := SetTriggers(s, t); (s', Mapped(r))
      case ChangePeriod(p) => var (s', r) := SetIntegrityPeriod(s, p); (s', Mapped(r))
      case ChangeOptional(f) => var (s', r) := SetOptionalFields(s, f); (s', Mapped(r))
      case Enable(_) => (s, Granted)
  }

  function Execute(w: World, client: Client, command: Command, now: u64): (World, ControlStatus) {
    var (t, access) := Access(w, client, now);
    if access != Granted then (t, access)
    else
      var (s', status) := Perform(t.brcb, command);
      (t.(brcb := s'), status)
  }

  function Release(w: World, client: Client, now: u64): (World, ControlStatus) {
    var (t, access) := Access(w, client, now);
    if access != Granted then (t, access)
    else if t.brcb.schedule.enabled then (t, Unavailable)
    else (t.(holder := NOBODY), Granted)
  }

  function Closed(w: World, association: u64, now: u64): World {
    var t := Ticked(w, now);
    var h := t.holder;
    if !h.reserved || !h.connected || association == 0 || association != h.association then t
    else
      World(if h.resvTms == 0 then NOBODY
            else h.(association := 0, connected := false, expires := Deadline(now, h.resvTms)),
            SetEnabled(t.brcb, false))
  }

  // ----- Delivery

  /** A connection as delivery sees it; `frame` says whether a report can be framed for this peer. */
  datatype Connection = Connection(established: bool, association: u64, owner: seq<byte>, frame: Pdu -> Framing)

  datatype Framing = Framed | PeerLimitExceeded | WorkspaceShort | ResponseShort | FrameEncodeFailed

  datatype PollResult =
    | NotEstablished | ReportingDisabled | PollDenied | NoReportAvailable
    | Unframed(entryId: EntryId, why: Framing) | Ready(entryId: EntryId, sequenceNumber: byte, bufferOverflow: bool)

  predicate LiveOwner(w: World, connection: Connection) {
    var h := w.holder;
    && h.reserved && h.connected && h.association != 0
    && connection.association == h.association
    && connection.owner == h.owner && h.owner != []
  }

  function Poll(w: World, connection: Connection, now: u64): (World, PollResult) {
    if !connection.established then (w, NotEstablished)
    else
      var t := Ticked(w, now);
      var q := t.brcb.queue;
      if !t.brcb.schedule.enabled then (t, ReportingDisabled)
      else if !LiveOwner(t, connection) then (t, PollDenied)
      else if q.cursor >= |q.retained| then (t, NoReportAvailable)
      else
        var e := q.retained[q.cursor];
        var framing := connection.frame(e.pdu);
        (t, if framing == Framed then Ready(e.entryId, e.sequenceNumber, e.bufferOverflow)
            else Unframed(e.entryId, framing))
  }

  function CommitSent(w: World, connection: Connection, now: u64, staged: PollResult): (World, bool) {
    if !staged.Ready? || !connection.established then (w, false)
    else
      var t := Ticked(w, now);
      if !t.brcb.schedule.enabled || !LiveOwner(t, connection) then (t, false)
      else
        var (s', status) := Commit(t.brcb, staged.entryId);
        (t.(brcb := s'), status == Ok)
  }

  // ----- Every interleaving

  datatype Act =
    | ReserveAct(client: Client, resvTms: u32)
    | ReleaseAct(client: Client)
    | ExecuteAct(client: Client, command: Command)
    | ClosedAct(association: u64)
    | PollAct(connection: Connection)
    | CommitSentAct(connection: Connection, staged: PollResult)
    | ProcessAct(op: Op)

  /** What the process side does to the BRCB by itself: raise events, capture reports, restore a saved window. */
  predicate ByProcess(op: Op) {
    op.NotifyOp? || op.NextDueOp? || op.CaptureOp? || op.RestoreOp?
  }

  function Do(c: Config, w: World, act: Act, now: u64): World
    requires c.capacity > 0
  {
    match act
    case ReserveAct(client, tms) => Reserve(w, client, tms, now).0
    case ReleaseAct(client) => Release(w, client, now).0
    case ExecuteAct(client, command) => Execute(w, client, command, now).0
    case ClosedAct(association) => Closed(w, association, now)
    case PollAct(connection) => Poll(w, connection, now).0
    case CommitSentAct(connection, staged) => CommitSent(w, connection, now, staged).0
    case ProcessAct(op) => if ByProcess(op) then w.(brcb := Step(c, w.brcb, op)) else w
  }

  datatype Timed = Timed(act: Act, now: u64)

  function DoAll(c: Config, w: World, acts: seq<Timed>): World
    requires c.capacity > 0
  {
    if |acts| == 0 then w
    else Do(c, DoAll(c, w, acts[..|acts| - 1]), acts[|acts| - 1].act, acts[|acts| - 1].now)
  }

  /** Reporting is on only for a connected owner; a disconnected reservation has a deadline to lapse at. */
  predicate Guarded(w: World) {
    var h := w.holder;
    && (w.brcb.schedule.enabled ==> h.connected)
    && (h.connected ==> h.reserved && h.association != 0)
    && (h.reserved ==> 0 < |h.owner| <= 16)
    && (h.reserved && !h.connected ==> h.resvTms != 0 && h.association == 0)
  }

  lemma GuardedTick(w: World, now: u64)
    requires Guarded(w)
    ensures Guarded(Ticked(w, now))
  {
  }

  lemma PerformGuarded(s: State, command: Command)
    ensures !command.Enable? ==> Perform(s, command).0.schedule.enabled == s.schedule.enabled
  {
  }

  lemma ProcessNeverEnables(c: Config, s: State, op: Op)
    requires c.capacity > 0 && ByProcess(op)
    ensures Step(c, s, op).schedule.enabled ==> s.schedule.enabled
  {
    hide Produce, Append, Cleared, ToBE, Loadable;
  }

  lemma GuardedStep(c: Config, w: World, act: Act, now: u64)
    requires c.capacity > 0 && Guarded(w)
    ensures Guarded(Do(c, w, act, now))
  {
    GuardedTick(w, now);
    match act
    case ExecuteAct(client, command) => PerformGuarded(Ticked(w, now).brcb, command);
    case ProcessAct(op) => if ByProcess(op) { ProcessNeverEnables(c, w.brcb, op); }
    case _ =>
    hide Perform, Step, Restarted;
  }

  /** In every reachable state reporting enabled implies a connected owner. */
  lemma {:induction false} AlwaysGuarded(c: Config, w: World, acts: seq<Timed>)
    requires c.capacity > 0 && Guarded(w)
    ensures Guarded(DoAll(c, w, acts))
  {
    if |acts| != 0 {
      hide Guarded, Do;
      AlwaysGuarded(c, w, acts[..|acts| - 1]);
      GuardedStep(c, DoAll(c, w, acts[..|acts| - 1]), acts[|acts| - 1].act, acts[|acts| - 1].now);
    }
  }

  // ----- Other associations

  /** The act is on behalf of an association other than the one that holds the block. */
  predicate Foreign(w: World, act: Act) {
    var h := w.holder;
    match act
    case ReserveAct(client, _) =>
      h.reserved && (h.owner != client.owner || (h.connected && h.association != client.association))
    case ReleaseAct(client) => !Owns(h, client)
    case ExecuteAct(client, _) => !Owns(h, client)
    case ClosedAct(association) => association != h.association
    case PollAct(connection) => !LiveOwner(w, connection)
    case CommitSentAct(connection, _) => !LiveOwner(w, connection)
    case ProcessAct(_) => false
  }

  /** Whatever another association asks for, nothing changes but what the clock alone would change. */
  lemma ForeignActsChangeNothing(c: Config, w: World, act: Act, now: u64)
    requires c.capacity > 0 && Foreign(Ticked(w, now), act)
    ensures Do(c, w, act, now) == Ticked(w, now) || Do(c, w, act, now) == w
    ensures act.ReserveAct? ==> Reserve(w, act.client, act.resvTms, now).1 != Granted
    ensures act.ReleaseAct? ==> Release(w, act.client, now).1 != Granted
    ensures act.ExecuteAct? ==> Execute(w, act.client, act.command, now).1 != Granted
    ensures act.PollAct? ==> !Poll(w, act.connection, now).1.Ready?
    ensures act.CommitSentAct? ==> !CommitSent(w, act.connection, now, act.staged).1
  {
    hide Perform, Step, SetEnabled;
  }

  /**
   After the owner's association closes at `closedAt`, a client with another Owner
   gets the block exactly from closedAt + ResvTms on, and the same Owner at any time.
   */
  lemma TakeoverExactlyAtDeadline(w: World, closedAt: u64, other: Client, tms: u32, now: u64)
    requires Guarded(w) && w.holder.connected && w.holder.resvTms != 0 && other.Valid()
    ensures var left := Closed(w, w.holder.association, closedAt);
      if other.owner == w.holder.owner then Reserve(left, other, tms, now).1 == Granted
      else Reserve(left, other, tms, now).1 == Granted <==>
           now >= closedAt + 1000 * w.holder.resvTms || now == U64_MAX
    ensures !Closed(w, w.holder.association, closedAt).brcb.schedule.enabled
  {
  }

  // ----- Delivery over every interleaving

  /** Polling changes nothing but what the clock changes; what it stages is the report at the cursor. */
  lemma PollOnlyLooks(w: World, connection: Connection, now: u64)
    ensures var (w', r) := Poll(w, connection, now);
      && (w' == w || w' == Ticked(w, now)) && w'.brcb.queue == w.brcb.queue
      && (r.Ready? ==> LiveOwner(w', connection) && w'.brcb.schedule.enabled &&
                       w'.brcb.queue.cursor < |w'.brcb.queue.retained| &&
                       r.entryId == w'.brcb.queue.retained[w'.brcb.queue.cursor].entryId)
  {
    hide Restarted;
  }

  /** A commit succeeds only for the live owner and the report at the cursor, and moves the cursor by one. */
  lemma CommitAdvancesByOne(w: World, connection: Connection, now: u64, staged: PollResult)
    ensures var (w', sent) := CommitSent(w, connection, now, staged);
      var q, q' := w.brcb.queue, w'.brcb.queue;
      if sent
      then staged.Ready? && LiveOwner(w', connection) && q.cursor < |q.retained| &&
           q.retained[q.cursor].entryId == staged.entryId && q' == q.(cursor := q.cursor + 1)
      else q' == q
  {
    hide Restarted;
  }

  /** The BRCB operations an act amounts to. */
  function OpsOf(w: World, act: Act, now: u64): seq<Op> {
    var lapse, t := Lapse(w, now), Ticked(w, now);
    match act
    case ReserveAct(client, _) => if client.Valid() then lapse else []
    case ReleaseAct(client) => if client.Valid() then lapse else []
    case ExecuteAct(client, command) =>
      if !client.Valid() then []
      else if !Owns(t.holder, client) then lapse
      else lapse + CommandOps(t.brcb, command)
    case ClosedAct(association) =>
      if t.holder.reserved && t.holder.connected && association != 0 && association == t.holder.association
      then lapse + [SetEnabledOp(false)] else lapse
    case PollAct(connection) => if connection.established then lapse else []
    case CommitSentAct(connection, staged) =>
      if !staged.Ready? || !connection.established then []
      else if !t.brcb.schedule.enabled || !LiveOwner(t, connection) then lapse
      else lapse + [CommitOp(staged.entryId)]
    case ProcessAct(op) => if ByProcess(op) then [op] else []
  }

  function CommandOps(s: State, command: Command): seq<Op> {
    if command.Enable? then [SetEnabledOp(command.enabled)]
    else if command.Interrogate? != s.schedule.enabled then []
    else
      match command
      case Replay(id) => [ReplayOp(id)]
      case Resume(id) => [ResumeOp(id)]
      case RewindBuffer => [RewindOp]
      case PurgeBuffer => [PurgeOp]
      case Interrogate => [InterrogateOp]
      case ChangeTriggers(t) => [SetTriggersOp(t)]
      case ChangePeriod(p) => [SetPeriodOp(p)]
      case ChangeOptional(f) => [SetOptionalOp(f)]
      case Enable(_) => []
  }

  function Trace(c: Config, w: World, acts: seq<Timed>): seq<Op>
    requires c.capacity > 0
  {
    if |acts| == 0 then []
    else
      var before := acts[..|acts| - 1];
      Trace(c, w, before) + OpsOf(DoAll(c, w, before), acts[|acts| - 1].act, acts[|acts| - 1].now)
  }

  lemma {:induction false} RunAppend(c: Config, s: State, a: seq<Op>, b: seq<Op>)
    requires c.capacity > 0
    ensures Run(c, s, a + b) == Run(c, Run(c, s, a), b)
  {
    if |b| == 0 {
      assert a + b == a;
    } else {
      RunAppend(c, s, a, b[..|b| - 1]);
      assert (a + b)[..|a + b| - 1] == a + b[..|b| - 1];
      assert (a + b)[|a + b| - 1] == b[|b| - 1];
    }
  }

  lemma RunOne(c: Config, s: State, op: Op)
    requires c.capacity > 0
    ensures Run(c, s, [op]) == Step(c, s, op)
  {
    assert [op][..0] == [];
  }

  lemma PerformIsOps(c: Config, s: State, command: Command)
    requires c.capacity > 0
    ensures Run(c, s, CommandOps(s, command)) == Perform(s, command).0
  {
    var ops := CommandOps(s, command);
    if |ops| == 1 {
      assert ops == [ops[0]];
      RunOne(c, s, ops[0]);
    }
  }

  function Lapse(w: World, now: u64): seq<Op> {
    if Ticked(w, now) == w then [] else [SetEnabledOp(false)]
  }

  lemma DisableIsOp(c: Config, s: State)
    requires c.capacity > 0
    ensures Run(c, s, [SetEnabledOp(false)]) == SetEnabled(s, false)
  {
    RunOne(c, s, SetEnabledOp(false));
  }

  lemma CommitIsOp(c: Config, s: State, id: seq<byte>)
    requires c.capacity > 0
    ensures Run(c, s, [CommitOp(id)]) == Commit(s, id).0
  {
    RunOne(c, s, CommitOp(id));
  }

  lemma LapseIsOp(c: Config, w: World, now: u64)
    requires c.capacity > 0
    ensures Run(c, w.brcb, Lapse(w, now)) == Ticked(w, now).brcb
  {
    DisableIsOp(c, w.brcb);
    hide SetEnabled, Step;
  }

  lemma ActIsOps(c: Config, w: World, act: Act, now: u64)
    requires c.capacity > 0
    ensures Run(c, w.brcb, OpsOf(w, act, now)) == Do(c, w, act, now).brcb
  {
    hide SetEnabled, Step, Run, Ticked, Perform, CommandOps, Commit, Lapse;
    var t := Ticked(w, now);
    RunNothing(c, w.brcb);
    LapseIsOp(c, w, now);
    match act
    case ExecuteAct(client, command) =>
      PerformIsOps(c, t.brcb, command);
      RunAppend(c, w.brcb, Lapse(w, now), CommandOps(t.brcb, command));
    case ClosedAct(_) =>
      DisableIsOp(c, t.brcb);
      RunAppend(c, w.brcb, Lapse(w, now), [SetEnabledOp(false)]);
    case CommitSentAct(_, staged) =>
      if staged.Ready? {
        CommitIsOp(c, t.brcb, staged.entryId);
        RunAppend(c, w.brcb, Lapse(w, now), [CommitOp(staged.entryId)]);
      }
    case ProcessAct(op) => RunOne(c, w.brcb, op);
    case _ =>
  }

  lemma RunNothing(c: Config, s: State)
    requires c.capacity > 0
    ensures Run(c, s, []) == s
  {
  }

  /** Behind every interleaving of clients, the BRCB has simply run the operations of its trace. */
  lemma {:induction false} InterleavingIsRun(c: Config, w: World, acts: seq<Timed>)
    requires c.capacity > 0
    ensures DoAll(c, w, acts).brcb == Run(c, w.brcb, Trace(c, w, acts))
  {
    if |acts| != 0 {
      hide Do, OpsOf, Step;
      var before := acts[..|acts| - 1];
      var at, last := DoAll(c, w, before), acts[|acts| - 1];
      InterleavingIsRun(c, w, before);
      ActIsOps(c, at, last.act, last.now);
      RunAppend(c, w.brcb, Trace(c, w, before), OpsOf(at, last.act, last.now));
    }
  }

  predicate RepositionsCursor(act: Act) {
    act.ExecuteAct? && (act.command.Replay? || act.command.Resume? || act.command.RewindBuffer?)
  }

  lemma {:induction false} TraceMovesNoCursor(c: Config, w: World, acts: seq<Timed>)
    requires c.capacity > 0
    requires forall i :: 0 <= i < |acts| ==> !RepositionsCursor(acts[i].act)
    ensures forall i :: 0 <= i < |Trace(c, w, acts)| ==> !MovesCursor(Trace(c, w, acts)[i])
  {
    if |acts| != 0 {
      hide OpsOf, DoAll;
      var before, last := acts[..|acts| - 1], acts[|acts| - 1];
      TraceMovesNoCursor(c, w, before);
      OpsMoveNoCursor(DoAll(c, w, before), last.act, last.now);
    }
  }

  lemma OpsMoveNoCursor(w: World, act: Act, now: u64)
    requires !RepositionsCursor(act)
    ensures forall i :: 0 <= i < |OpsOf(w, act, now)| ==> !MovesCursor(OpsOf(w, act, now)[i])
  {
  }

  /**
   Under any interleaving of reservations, retries, foreign polls, disables, closures
   and reconnects in which nobody repositions the cursor, every report captured since
   the last purge or restore is delivered to a live owner once, or lost and counted once, or still
   queued, in capture order.
   */
  lemma EveryInterleavingConserves(c: Config, w: World, acts: seq<Timed>)
    requires c.capacity > 0 && Loadable(c.capacity, w.brcb.queue)
    requires forall i :: 0 <= i < |acts| ==> !RepositionsCursor(acts[i].act)
    ensures Conserved(DoAll(c, w, acts).brcb.queue, Book(c, w.brcb, Trace(c, w, acts)))
  {
    hide *;
    InterleavingIsRun(c, w, acts);
    TraceMovesNoCursor(c, w, acts);
    EveryReportSettledOnce(c, w.brcb, Trace(c, w, acts));
  }

  // ----- Every answer

  /** Nobody is connected and the deadline has come. */
  predicate Lapsed(h: Holder, now: u64) {
    h.reserved && !h.connected && now >= h.expires
  }

  /** The client is the one that holds the block, over the association that it holds it with. */
  predicate Holds(h: Holder, client: Client) {
    h.connected && h.owner == client.owner && h.association == client.association
  }

  lemma GuardedOwns(w: World, client: Client, now: u64)
    requires Guarded(w)
    ensures Ticked(w, now).holder == (if Lapsed(w.holder, now) then NOBODY else w.holder)
    ensures w.holder.connected ==> Ticked(w, now) == w
    ensures client.Valid() ==> (Owns(Ticked(w, now).holder, client) <==> Holds(w.holder, client))
  {
    hide SetEnabled;
  }

  /** A reservation is granted exactly if nobody holds the block, or its own holder is not on another association. */
  lemma ReserveAnswers(w: World, client: Client, resvTms: u32, now: u64)
    requires Guarded(w)
    ensures var (w', status) := Reserve(w, client, resvTms, now);
      var h := w.holder;
      && status == (if client.association == 0 || client.owner == [] || |client.owner| > 16 then InvalidIdentity
                    else if !h.reserved || Lapsed(h, now) then Granted
                    else if h.owner != client.owner then AccessDenied
                    else if h.connected && h.association != client.association then AccessDenied
                    else Granted)
      && (status == Granted ==>
            w'.holder == Holder(true, true, client.owner, client.association, 0, resvTms))
      && (status != Granted ==> w'.holder == if status == InvalidIdentity then h else Ticked(w, now).holder)
  {
    hide SetEnabled;
  }

  lemma ReleaseAnswers(w: World, client: Client, now: u64)
    requires Guarded(w)
    ensures var (w', status) := Release(w, client, now);
      && status == (if !client.Valid() then InvalidIdentity
                    else if !Holds(w.holder, client) then AccessDenied
                    else if w.brcb.schedule.enabled then Unavailable
                    else Granted)
      && (status == Granted ==> w' == World(NOBODY, w.brcb))
  {
    hide SetEnabled, Ticked, Owns;
    GuardedOwns(w, client, now);
  }

  /** What the holder is answered: switching always, an interrogation with reporting on, all else with it off. */
  function CommandStatus(s: State, command: Command): ControlStatus {
    var off := !s.schedule.enabled;
    match command
    case Enable(_) => Granted
    case Interrogate =>
      if off then Unavailable else if s.schedule.triggers.generalInterrogation then Granted else Failed
    case Replay(id) => if !off then Unavailable else if Retains(s.queue, id) then Granted else NoSuchEntry
    case Resume(id) => if !off then Unavailable else if Retains(s.queue, id) then Granted else NoSuchEntry
    case RewindBuffer => if off then Granted else Unavailable
    case PurgeBuffer => if off then Granted else Unavailable
    case ChangeTriggers(options) => if !off then Unavailable else if options % 4 == 0 then Granted else Failed
    case ChangePeriod(_) => if off then Granted else Unavailable
    case ChangeOptional(fields) => if !off then Unavailable else if AllowedOptional(fields) then Granted else Failed
  }

  predicate Retains(q: Queue, id: seq<byte>) {
    exists i :: 0 <= i < |q.retained| && q.retained[i].entryId == id
  }

  lemma ExecuteAnswers(w: World, client: Client, command: Command, now: u64)
    requires Guarded(w)
    ensures Execute(w, client, command, now).1 ==
      if !client.Valid() then InvalidIdentity
      else if !Holds(w.holder, client) then AccessDenied
      else CommandStatus(w.brcb, command)
  {
    hide SetEnabled, Ticked, Owns, Perform, Find, Restarted, TriggersOf;
    GuardedOwns(w, client, now);
    PerformAnswers(w.brcb, command);
  }

  lemma PerformAnswers(s: State, command: Command)
    ensures Perform(s, command).1 == CommandStatus(s, command)
  {
    hide SetEnabled, Restarted, TriggersOf, AllowedOptional;
    if command.Replay? || command.Resume? {
      var found := Find(s.queue.retained, command.id);
      assert found.Some? ==> s.queue.retained[found.value].entryId == command.id;
    }
  }

  /** The end of the holder's association switches reporting off and starts the reservation time, or frees the block. */
  lemma ClosedAnswers(w: World, association: u64, now: u64)
    requires Guarded(w)
    ensures var w', h := Closed(w, association, now), w.holder;
      if h.connected && association == h.association then
        && w'.brcb == SetEnabled(w.brcb, false)
        && w'.holder == (if h.resvTms == 0 then NOBODY
                         else Holder(true, false, h.owner, 0, Deadline(now, h.resvTms), h.resvTms))
      else w' == Ticked(w, now)
  {
    hide SetEnabled;
  }

  /** How a poll is answered, and the report it stages. */
  function PollStatus(w: World, connection: Connection): PollResult {
    var h, q := w.holder, w.brcb.queue;
    if !connection.established then NotEstablished
    else if !w.brcb.schedule.enabled then ReportingDisabled
    else if connection.association != h.association || connection.owner != h.owner then PollDenied
    else if q.cursor >= |q.retained| then NoReportAvailable
    else
      var e := q.retained[q.cursor];
      if connection.frame(e.pdu) != Framed then Unframed(e.entryId, connection.frame(e.pdu))
      else Ready(e.entryId, e.sequenceNumber, e.bufferOverflow)
  }

  /** In every reachable state a poll is answered so, whatever the clock says. */
  lemma PollAnswers(w: World, connection: Connection, now: u64)
    requires Guarded(w)
    ensures Poll(w, connection, now).1 == PollStatus(w, connection)
  {
    hide Restarted;
  }

  /** A commit succeeds exactly for the holder's own connection and the report at the cursor, with reporting on. */
  lemma CommitAnswers(w: World, connection: Connection, now: u64, staged: PollResult)
    requires Guarded(w)
    ensures var q := w.brcb.queue;
      CommitSent(w, connection, now, staged).1 <==>
        && staged.Ready? && connection.established && w.brcb.schedule.enabled
        && connection.association == w.holder.association && connection.owner == w.holder.owner
        && q.cursor < |q.retained| && q.retained[q.cursor].entryId == staged.entryId
  {
    hide Restarted;
  }

  /**
   Over every interleaving in which nobody repositions the cursor, the live owner's poll
   with reporting on stages a report exactly if some report captured since the last purge
   or restore is neither delivered nor lost and can be framed, and then the oldest such.
   */
  lemma PollStagesOldest(c: Config, w: World, acts: seq<Timed>, connection: Connection, now: u64)
    requires c.capacity > 0 && Guarded(w) && Loadable(c.capacity, w.brcb.queue)
    requires forall i :: 0 <= i < |acts| ==> !RepositionsCursor(acts[i].act)
    requires var at := DoAll(c, w, acts);
      && at.brcb.schedule.enabled && connection.established
      && connection.association == at.holder.association && connection.owner == at.holder.owner
    ensures var l, staged := Book(c, w.brcb, Trace(c, w, acts)), Poll(DoAll(c, w, acts), connection, now).1;
      if |l.settled| == |l.captured| then staged == NoReportAvailable
      else
        && |l.settled| < |l.captured|
        && var e := l.captured[|l.settled|];
           staged == if connection.frame(e.pdu) == Framed then Ready(e.entryId, e.sequenceNumber, e.bufferOverflow)
                     else Unframed(e.entryId, connection.frame(e.pdu))
  {
    hide DoAll, Trace, Book, Guarded, Poll, Consecutive;
    AlwaysGuarded(c, w, acts);
    EveryInterleavingConserves(c, w, acts);
    PollAnswers(DoAll(c, w, acts), connection, now);
    var q, l := DoAll(c, w, acts).brcb.queue, Book(c, w.brcb, Trace(c, w, acts));
    assert |l.captured| == |l.settled| + |q.retained| - q.cursor;
    assert q.cursor < |q.retained| ==> l.captured[|l.settled|] == q.retained[q.cursor..][0];
  }

  // ----- From poll to commit

  predicate Restores(act: Act) {
    act.ProcessAct? && act.op.RestoreOp?
  }

  lemma {:induction false} TraceRestoresNothing(c: Config, w: World, acts: seq<Timed>)
    requires c.capacity > 0
    requires forall i :: 0 <= i < |acts| ==> !Restores(acts[i].act)
    ensures BrcbPlans.NoRestore(Trace(c, w, acts))
  {
    if |acts| != 0 {
      hide OpsOf, DoAll;
      var before, last := acts[..|acts| - 1], acts[|acts| - 1];
      TraceRestoresNothing(c, w, before);
      OpsRestoreNothing(DoAll(c, w, before), last.act, last.now);
    }
  }

  lemma OpsRestoreNothing(w: World, act: Act, now: u64)
    requires !Restores(act)
    ensures BrcbPlans.NoRestore(OpsOf(w, act, now))
  {
  }

  /** The report a delivery is about. */
  function AtCursor(w: World): Entry
    requires w.brcb.queue.cursor < |w.brcb.queue.retained|
  {
    w.brcb.queue.retained[w.brcb.queue.cursor]
  }

  /** The reports captured by the acts, whatever becomes of them. */
  function Captured(c: Config, w: World, acts: seq<Timed>): seq<Entry>
    requires c.capacity > 0
  {
    BrcbPlans.Admitted(c, w.brcb, Trace(c, w, acts))
  }

  /**
   Whatever anybody does between the poll that staged a report and the commit, moving
   the cursor included: as long as nothing is restored and fewer than 2^64 - 1 reports
   follow the staged one, a commit that succeeds is that of the very report staged.
   */
  lemma {:induction false} CommittedIsStaged(
    c: Config, w: World, connection: Connection, now: u64, acts: seq<Timed>, sender: Connection, later: u64)
    requires 0 < c.capacity <= BrcbPlans.NUMBERS && Loadable(c.capacity, w.brcb.queue)
    requires forall i :: 0 <= i < |acts| ==> !Restores(acts[i].act)
    requires Poll(w, connection, now).1.Ready?
    requires var (polled, _) := Poll(w, connection, now);
      |w.brcb.queue.retained| - w.brcb.queue.cursor + |Captured(c, polled, acts)| <= BrcbPlans.NUMBERS
    ensures var (polled, staged) := Poll(w, connection, now);
      var before := DoAll(c, polled, acts);
      CommitSent(before, sender, later, staged).1 ==>
        && polled.brcb.queue.cursor < |polled.brcb.queue.retained|
        && before.brcb.queue.cursor < |before.brcb.queue.retained|
        && AtCursor(before) == AtCursor(polled)
  {
    PollOnlyLooks(w, connection, now);
    hide Poll, CommitSent, DoAll, Trace, Ticked, BrcbPlans.Admitted, Consecutive;
    var (polled, staged) := Poll(w, connection, now);
    var before := DoAll(c, polled, acts);
    CommitAdvancesByOne(before, sender, later, staged);
    if CommitSent(before, sender, later, staged).1 {
      var trace := Trace(c, polled, acts);
      TraceRestoresNothing(c, polled, acts);
      InterleavingIsRun(c, polled, acts);
      var i, j := polled.brcb.queue.cursor, before.brcb.queue.cursor;
      BrcbPlans.SameIdSameReport(c, polled.brcb, trace, i, j);
    }
  }

  /** The holder's own client. */
  function Insider(h: Holder): Client {
    Client(h.association, h.owner)
  }

  /**
   A restore in between breaks it: whatever report is staged, a saved window can hold
   another under the same EntryID, and the commit then counts as sent what never was.
   */
  lemma {:induction false} RestoreCommitsUnsent(c: Config, w: World, connection: Connection, now: u64, pdu: Pdu)
    returns (acts: seq<Timed>)
    requires c.capacity > 0 && Loadable(c.capacity, w.brcb.queue) && Guarded(w)
    requires Poll(w, connection, now).1.Ready?
    ensures var (polled, staged) := Poll(w, connection, now);
      var before := DoAll(c, polled, acts);
      && |acts| == 2 && Restores(acts[0].act) && acts[1].act == ExecuteAct(Insider(w.holder), Enable(true))
      && before.brcb.queue.cursor < |before.brcb.queue.retained| && AtCursor(before).pdu == pdu
      && CommitSent(before, connection, now, staged).1
  {
    PolledAsIs(w, connection, now);
    var q := w.brcb.queue;
    var e := q.retained[q.cursor];
    var other := q.(retained := q.retained[q.cursor := e.(pdu := pdu)]);
    StillLoadable(c.capacity, q, pdu);
    acts := [Timed(ProcessAct(RestoreOp(other)), now), Timed(ExecuteAct(Insider(w.holder), Enable(true)), now)];
    TwoActs(c, w, acts[0], acts[1]);
    RestoredAndEnabled(c, w, other, now);
    hide Poll, Do, DoAll, Ticked, Loadable, Restarted;
  }

  /** A report is staged for a connected owner, whose reservation does not lapse. */
  lemma PolledAsIs(w: World, connection: Connection, now: u64)
    requires Guarded(w) && Poll(w, connection, now).1.Ready?
    ensures Poll(w, connection, now).0 == Ticked(w, now) == w && LiveOwner(w, connection) && connection.established
    ensures var q := w.brcb.queue;
      q.cursor < |q.retained| && Poll(w, connection, now).1.entryId == q.retained[q.cursor].entryId
  {
    hide Restarted;
  }

  lemma RestoredAndEnabled(c: Config, w: World, q: Queue, now: u64)
    requires c.capacity > 0 && Loadable(c.capacity, q) && Guarded(w) && w.holder.connected
    ensures var middle := Do(c, w, ProcessAct(RestoreOp(q)), now);
      var after := Do(c, middle, ExecuteAct(Insider(w.holder), Enable(true)), now);
      after.holder == w.holder && after.brcb.queue == q && after.brcb.schedule.enabled
  {
    hide Loadable;
  }

  lemma StillLoadable(capacity: nat, q: Queue, pdu: Pdu)
    requires Loadable(capacity, q) && q.cursor < |q.retained|
    ensures Loadable(capacity, q.(retained := q.retained[q.cursor := q.retained[q.cursor].(pdu := pdu)]))
  {
  }

  lemma TwoActs(c: Config, w: World, a: Timed, b: Timed)
    requires c.capacity > 0
    ensures DoAll(c, w, [a, b]) == Do(c, Do(c, w, a.act, a.now), b.act, b.now)
  {
    hide Do;
    assert [a, b][..1] == [a] && [a][..0] == [];
    assert DoAll(c, w, [a]) == Do(c, w, a.act, a.now);
  }
}
