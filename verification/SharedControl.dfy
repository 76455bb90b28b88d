/**
 A boolean control object served to several associations at once: one selection shared
 by all of them, command correlation and CommandTermination kept by each association
 (static_direct_control.cpp).
 */
module SharedControl {
  import opened Octets

  datatype Model = StatusOnly | DirectNormal | SboNormal | DirectEnhanced | SboEnhanced

  datatype Command = Command(
    value: bool, category: byte, identifier: seq<byte>, number: byte, time: seq<byte>,
    test: bool, synchro: bool, interlock: bool)

  const BLANK: Command := Command(false, 0, [], 0, [], false, false, false)

  /** T is not part of a command's identity; Check is only for Oper. */
  predicate SameSequence(selected: Command, c: Command, compareCheck: bool) {
    && selected.value == c.value && selected.category == c.category && selected.identifier == c.identifier
    && selected.number == c.number && selected.test == c.test
    && (compareCheck ==> selected.synchro == c.synchro && selected.interlock == c.interlock)
  }

  datatype Policy = Policy(allowTest: bool, allowSynchro: bool, allowInterlock: bool)

  datatype Config = Config(model: Model, timeout: u64, policy: Policy, named: bool)

  predicate Selects(m: Model) {
    m == SboNormal || m == SboEnhanced
  }

  predicate Enhanced(m: Model) {
    m == DirectEnhanced || m == SboEnhanced
  }

  predicate Permitted(p: Policy, c: Command) {
    c.category <= 8 && (c.test ==> p.allowTest) && (c.synchro ==> p.allowSynchro) && (c.interlock ==> p.allowInterlock)
  }

  /** What every association sees. Owner and deadline are zero when nobody has selected. */
  datatype Shared = Shared(value: bool, owner: u64, deadline: u64)

  /** What one association keeps for itself. */
  datatype Local = Local(
    value: bool, lastNumber: byte, lastTest: bool, accepted: nat, rejected: nat,
    selected: bool, withValue: bool, command: Command, pending: bool, termination: Command)

  const FRESH: Local := Local(false, 0, false, 0, 0, false, false, BLANK, false, BLANK)

  datatype State = State(shared: Shared, local: Local)

  datatype Failure = Malformed | InvalidValue | Backend | Unavailable | NotHere
  datatype Outcome = Done | Failed(reason: Failure) | Terminated(command: Command)

  // ----- Selection

  /** now + timeout as the 64-bit addition computes it. */
  function Due(now: u64, timeout: u64): u64 {
    (now + timeout) % U64_LIMIT
  }

  predicate Expired(sh: Shared, now: u64) {
    sh.deadline != 0 && now >= sh.deadline
  }

  function Acquire(cfg: Config, sh: Shared, a: u64, now: u64): (Shared, bool) {
    if a == 0 || cfg.timeout == 0 then (sh, false)
    else if sh.owner != a && sh.owner != 0 && !Expired(sh, now) then (sh, false)
    else (sh.(owner := a, deadline := Due(now, cfg.timeout)), true)
  }

  function Unselected(l: Local): Local {
    l.(selected := false, withValue := false, command := BLANK)
  }

  function Release(s: State, a: u64): State {
    State(
      if a != 0 && s.shared.owner == a then s.shared.(owner := 0, deadline := 0) else s.shared,
      Unselected(s.local))
  }

  /** An owner that comes too late loses the selection on the spot. */
  function OwnsLive(s: State, a: u64, now: u64): (State, bool) {
    if a == 0 || s.shared.owner != a then (s, false)
    else if Expired(s.shared, now) then (Release(s, a), false)
    else (s, true)
  }

  function Rejected(s: State, why: Failure): (State, Outcome) {
    (s.(local := s.local.(rejected := s.local.rejected + 1)), Failed(why))
  }

  // ----- Services; `command` is None when the structure does not decode

  function Operate(cfg: Config, s: State, a: u64, command: Option<Command>, now: u64, applied: bool)
    : (State, Outcome)
  {
    if command.None? then Rejected(s, Malformed)
    else if !Permitted(cfg.policy, command.value) then Rejected(s, InvalidValue)
    else
      var c := command.value;
      var (s1, live) := if Selects(cfg.model) then OwnsLive(s, a, now) else (s, true);
      if !live then Rejected(s1, Unavailable)
      else if cfg.model == SboEnhanced && (!s1.local.withValue || !SameSequence(s1.local.command, c, true)) then
        Rejected(s1, InvalidValue)
      else if Enhanced(cfg.model) && s1.local.pending then Rejected(s1, Unavailable)
      else if !c.test && !applied then Rejected(s1, Backend)
      else (Operated(cfg, s1, a, c), Done)
  }

  function Operated(cfg: Config, s: State, a: u64, c: Command): State {
    var l := s.local.(
      value := if c.test then s.local.value else c.value,
      lastNumber := c.number, lastTest := c.test, accepted := s.local.accepted + 1);
    var sh := if c.test then s.shared else s.shared.(value := c.value);
    var s1 := if Selects(cfg.model) then Release(State(sh, l), a) else State(sh, l);
    if Enhanced(cfg.model) then s1.(local := s1.local.(termination := c, pending := true)) else s1
  }

  function SelectRead(cfg: Config, s: State, a: u64, now: u64): (State, Outcome) {
    if cfg.model != SboNormal || !cfg.named then (s, Failed(NotHere))
    else
      var (sh, ok) := Acquire(cfg, s.shared, a, now);
      if !ok then (s, Failed(Unavailable))
      else (State(sh, s.local.(selected := true, withValue := false)), Done)
  }

  function SelectWithValue(cfg: Config, s: State, a: u64, command: Option<Command>, now: u64): (State, Outcome) {
    if cfg.model != SboEnhanced then (s, Failed(InvalidValue))
    else if command.None? then Rejected(s, Malformed)
    else if !Permitted(cfg.policy, command.value) then Rejected(s, InvalidValue)
    else
      var (sh, ok) := Acquire(cfg, s.shared, a, now);
      if !ok then Rejected(s, Unavailable)
      else (State(sh, s.local.(selected := true, withValue := true, command := command.value)), Done)
  }

  function Cancel(cfg: Config, s: State, a: u64, command: Option<Command>, now: u64): (State, Outcome) {
    if !Selects(cfg.model) then (s, Failed(InvalidValue))
    else if command.None? then Rejected(s, Malformed)
    else if !Permitted(cfg.policy, command.value) then Rejected(s, InvalidValue)
    else
      var (s1, live) := OwnsLive(s, a, now);
      if !live then Rejected(s1, InvalidValue)
      else if cfg.model == SboEnhanced &&
              (!s1.local.withValue || !SameSequence(s1.local.command, command.value, false))
      then Rejected(s1, InvalidValue)
      else (Release(s1, a), Done)
  }

  function Closed(s: State, a: u64): State {
    var s1 := Release(s, a);
    s1.(local := s1.local.(pending := false, termination := BLANK))
  }

  /** The server loop sends the termination of the accepted command and forgets it. */
  function Send(s: State): (State, Outcome) {
    if s.local.pending
    then (s.(local := s.local.(pending := false, termination := BLANK)), Terminated(s.local.termination))
    else (s, Failed(NotHere))
  }

  // ----- Runs of calls by any number of associations

  datatype World = World(shared: Shared, locals: map<u64, Local>)

  const START: World := World(Shared(false, 0, 0), map[])

  function LocalOf(w: World, a: u64): Local {
    if a in w.locals then w.locals[a] else FRESH
  }

  datatype Request =
    | ReadSbo
    | WriteSbow(command: Option<Command>)
    | WriteOper(command: Option<Command>, applied: bool)
    | WriteCancel(command: Option<Command>)
    | AssociationClosed
    | SendTermination

  datatype Call = Call(a: u64, now: u64, request: Request)

  function Answer(cfg: Config, s: State, call: Call): (State, Outcome) {
    match call.request
    case ReadSbo => SelectRead(cfg, s, call.a, call.now)
    case WriteSbow(command) => SelectWithValue(cfg, s, call.a, command, call.now)
    case WriteOper(command, applied) => Operate(cfg, s, call.a, command, call.now, applied)
    case WriteCancel(command) => Cancel(cfg, s, call.a, command, call.now)
    case AssociationClosed => (Closed(s, call.a), Done)
    case SendTermination => Send(s)
  }

  function Next(cfg: Config, w: World, call: Call): World {
    var s := Answer(cfg, State(w.shared, LocalOf(w, call.a)), call).0;
    World(s.shared, w.locals[call.a := s.local])
  }

  function OutcomeOf(cfg: Config, w: World, call: Call): Outcome {
    Answer(cfg, State(w.shared, LocalOf(w, call.a)), call).1
  }

  function After(cfg: Config, calls: seq<Call>): World {
    if calls == [] then START
    else Next(cfg, After(cfg, calls[..|calls| - 1]), calls[|calls| - 1])
  }

  /** The answer to call `j` of a run. */
  function AnswerAt(cfg: Config, calls: seq<Call>, j: nat): Outcome
    requires j < |calls|
  {
    OutcomeOf(cfg, After(cfg, calls[..j]), calls[j])
  }

  predicate IsGrant(call: Call, outcome: Outcome) {
    outcome == Done && (call.request.ReadSbo? || call.request.WriteSbow?)
  }

  /**
   Call `j` granted the selection in force at the end of the run: its association has
   owned the object ever since, under the deadline set then and, with enhanced
   security, with the command stated then.
   */
  ghost predicate HeldSince(cfg: Config, calls: seq<Call>, j: nat) {
    var w := After(cfg, calls);
    && j < |calls| && IsGrant(calls[j], AnswerAt(cfg, calls, j))
    && calls[j].a == w.shared.owner != 0
    && w.shared.deadline == Due(calls[j].now, cfg.timeout) && cfg.timeout > 0
    && (forall k :: j < k <= |calls| ==> After(cfg, calls[..k]).shared.owner == w.shared.owner)
    && (cfg.model == SboEnhanced ==>
          && calls[j].request.WriteSbow?
          && LocalOf(w, w.shared.owner).withValue
          && calls[j].request.command == Some(LocalOf(w, w.shared.owner).command))
  }

  lemma AnswerSelection(cfg: Config, s: State, call: Call)
    ensures var (s', outcome) := Answer(cfg, s, call);
      var o := s'.shared.owner;
      o != 0 ==>
        if IsGrant(call, outcome) then
          && o == call.a && s'.shared.deadline == Due(call.now, cfg.timeout) && cfg.timeout > 0
          && (cfg.model == SboEnhanced ==>
                call.request.WriteSbow? && s'.local.withValue && call.request.command == Some(s'.local.command))
        else
          && o == s.shared.owner && s'.shared.deadline == s.shared.deadline
          && (o == call.a ==> s'.local.withValue == s.local.withValue && s'.local.command == s.local.command)
  {
    hide SameSequence, Permitted, Due, Expired;
    match call.request
    case ReadSbo =>
    case WriteSbow(command) =>
    case WriteOper(command, applied) =>
    case WriteCancel(command) =>
    case AssociationClosed =>
    case SendTermination =>
  }

  lemma OperatePending(cfg: Config, s: State, a: u64, command: Option<Command>, now: u64, applied: bool)
    ensures var (s', outcome) := Operate(cfg, s, a, command, now, applied);
      var l, l' := s.local, s'.local;
      if outcome == Done && Enhanced(cfg.model) then !l.pending && l'.pending && command == Some(l'.termination)
      else l'.pending == l.pending && l'.termination == l.termination
  {
    hide SameSequence, Permitted, Due, Expired;
  }

  lemma OthersPending(cfg: Config, s: State, call: Call)
    requires !call.request.WriteOper?
    ensures var l, l' := s.local, Answer(cfg, s, call).0.local;
      if call.request.SendTermination? || call.request.AssociationClosed? then !l'.pending
      else l'.pending == l.pending && l'.termination == l.termination
  {
    hide SameSequence, Permitted, Due, Expired, Operate;
    match call.request
    case ReadSbo =>
    case WriteSbow(_) =>
    case WriteCancel(_) =>
    case AssociationClosed =>
    case SendTermination =>
  }

  lemma AnswerPending(cfg: Config, s: State, call: Call)
    ensures var (s', outcome) := Answer(cfg, s, call);
      var l, l' := s.local, s'.local;
      if call.request.WriteOper? && outcome == Done && Enhanced(cfg.model) then
        !l.pending && l'.pending && call.request.command == Some(l'.termination)
      else if call.request.SendTermination? || call.request.AssociationClosed? then !l'.pending
      else l'.pending == l.pending && l'.termination == l.termination
  {
    hide Operate, SelectRead, SelectWithValue, Cancel, Closed, Send;
    if call.request.WriteOper? {
      OperatePending(cfg, s, call.a, call.request.command, call.now, call.request.applied);
    } else {
      OthersPending(cfg, s, call);
    }
  }

  /** What one call can do to the selection: grant it anew to the caller, leave it alone, or end it. */
  lemma SelectionStep(cfg: Config, w: World, call: Call)
    ensures var w', outcome := Next(cfg, w, call), OutcomeOf(cfg, w, call);
      var o := w'.shared.owner;
      && (forall b :: b != call.a ==> LocalOf(w', b) == LocalOf(w, b))
      && (o != 0 ==>
            if IsGrant(call, outcome) then
              && o == call.a && w'.shared.deadline == Due(call.now, cfg.timeout) && cfg.timeout > 0
              && (cfg.model == SboEnhanced ==>
                    && call.request.WriteSbow? && LocalOf(w', o).withValue
                    && call.request.command == Some(LocalOf(w', o).command))
            else
              && w'.shared.owner == w.shared.owner && w'.shared.deadline == w.shared.deadline
              && LocalOf(w', o).withValue == LocalOf(w, o).withValue
              && LocalOf(w', o).command == LocalOf(w, o).command)
  {
    hide Answer;
    AnswerSelection(cfg, State(w.shared, LocalOf(w, call.a)), call);
  }

  /** Whoever owns the object was granted it, and nothing has come between. */
  lemma {:induction false} OwnerWasGranted(cfg: Config, calls: seq<Call>) returns (j: nat)
    requires After(cfg, calls).shared.owner != 0
    ensures HeldSince(cfg, calls, j)
  {
    hide Next, OutcomeOf, LocalOf;
    var n := |calls| - 1;
    var before := calls[..n];
    SelectionStep(cfg, After(cfg, before), calls[n]);
    assert calls[..n + 1] == calls;
    if IsGrant(calls[n], AnswerAt(cfg, calls, n)) {
      j := n;
    } else {
      j := OwnerWasGranted(cfg, before);
      assert before[..j] == calls[..j];
      forall k | j < k <= |calls| ensures After(cfg, calls[..k]).shared.owner == After(cfg, calls).shared.owner {
        if k <= n {
          assert before[..k] == calls[..k];
        }
      }
    }
  }

  /**
   Cross-association select-before-operate: over every interleaving of calls by any
   associations, an accepted Oper on a select-before-operate object was preceded by a
   selection granted to the same association, for the same command with enhanced
   security, which that association has owned without a break and whose timeout has not
   passed; and it uses the selection up.
   */
  lemma AcceptedOperWasSelected(cfg: Config, calls: seq<Call>, call: Call) returns (j: nat)
    requires Selects(cfg.model) && call.request.WriteOper?
    requires OutcomeOf(cfg, After(cfg, calls), call) == Done
    ensures HeldSince(cfg, calls, j) && calls[j].a == call.a
    ensures call.now < calls[j].now + cfg.timeout
    ensures cfg.model == SboEnhanced ==>
      call.request.command.Some? && SameSequence(calls[j].request.command.value, call.request.command.value, true)
    ensures Next(cfg, After(cfg, calls), call).shared.owner == 0
  {
    hide After, HeldSince;
    var w := After(cfg, calls);
    assert w.shared.owner == call.a != 0 && !Expired(w.shared, call.now);
    j := OwnerWasGranted(cfg, calls);
    HeldFacts(cfg, calls, j);
    DueBound(calls[j].now, cfg.timeout, call.now);
  }

  lemma HeldFacts(cfg: Config, calls: seq<Call>, j: nat)
    requires HeldSince(cfg, calls, j)
    ensures var w := After(cfg, calls);
      && j < |calls| && calls[j].a == w.shared.owner
      && w.shared.deadline == Due(calls[j].now, cfg.timeout) && cfg.timeout > 0
      && (cfg.model == SboEnhanced ==>
            && calls[j].request.WriteSbow? && calls[j].request.command == Some(LocalOf(w, w.shared.owner).command)
            && LocalOf(w, w.shared.owner).withValue)
  {
  }

  /** A call's Oper on a select-before-operate object is accepted exactly if its association may have it. */
  lemma OperAcceptedExactly(cfg: Config, calls: seq<Call>, call: Call)
    requires Selects(cfg.model) && call.request.WriteOper? && call.a != 0
    ensures var w, c := After(cfg, calls), call.request.command;
      OutcomeOf(cfg, w, call) == Done <==>
        && c.Some? && Permitted(cfg.policy, c.value) && (c.value.test || call.request.applied)
        && (Enhanced(cfg.model) ==> Awaiting(cfg, calls, call.a).None?)
        && exists j: nat :: HeldSince(cfg, calls, j) && calls[j].a == call.a && InTime(cfg, calls[j], call.now)
             && (cfg.model == SboEnhanced ==> SameSequence(calls[j].request.command.value, c.value, true))
  {
    hide After, HeldSince, Awaiting, SameSequence, Permitted;
    var w, c := After(cfg, calls), call.request.command;
    PendingIsOwed(cfg, calls, call.a);
    forall j: nat | HeldSince(cfg, calls, j)
      ensures j < |calls| && calls[j].a == w.shared.owner != 0
      ensures InTime(cfg, calls[j], call.now) == !Expired(w.shared, call.now)
      ensures cfg.model == SboEnhanced ==>
        calls[j].request.WriteSbow? && calls[j].request.command == Some(LocalOf(w, w.shared.owner).command)
        && LocalOf(w, w.shared.owner).withValue
    {
      HeldFacts(cfg, calls, j);
      HeldOwned(cfg, calls, j);
    }
    if w.shared.owner == call.a {
      var j := OwnerWasGranted(cfg, calls);
      assert HeldSince(cfg, calls, j);
    }
  }

  /** The deadline set by a grant has not been reached. */
  predicate InTime(cfg: Config, grant: Call, now: u64) {
    Due(grant.now, cfg.timeout) == 0 || now < Due(grant.now, cfg.timeout)
  }

  /** Even where the deadline wraps around, no moment before it lies outside the timeout. */
  lemma DueBound(granted: u64, timeout: u64, now: u64)
    requires timeout > 0
    requires Due(granted, timeout) == 0 || now < Due(granted, timeout)
    ensures now < granted + timeout
  {
    if granted + timeout >= U64_LIMIT {
      Remainder(granted + timeout, U64_LIMIT, 1, granted + timeout - U64_LIMIT);
    }
  }

  /**
   When another association may take a held selection over: from the timeout on, exactly
   as long as the deadline does not pass the end of the clock; otherwise it can be taken
   at once.
   */
  lemma TakeoverExactlyAtTimeout(cfg: Config, calls: seq<Call>, j: nat, b: u64)
    requires HeldSince(cfg, calls, j) && b != 0 && b != calls[j].a
    ensures (forall t: u64 :: Acquire(cfg, After(cfg, calls).shared, b, t).1 <==> t >= calls[j].now + cfg.timeout)
      <==> calls[j].now + cfg.timeout <= U64_LIMIT
  {
    hide After, HeldSince;
    HeldFacts(cfg, calls, j);
    HeldOwned(cfg, calls, j);
    var sh, sum := After(cfg, calls).shared, calls[j].now + cfg.timeout;
    if sum >= U64_LIMIT {
      Remainder(sum, U64_LIMIT, 1, sum - U64_LIMIT);
    }
    if sum > U64_LIMIT {
      var t: u64 := sum - U64_LIMIT;
      assert Acquire(cfg, sh, b, t).1 && t < sum;
    }
  }

  lemma HeldOwned(cfg: Config, calls: seq<Call>, j: nat)
    requires HeldSince(cfg, calls, j)
    ensures After(cfg, calls).shared.owner != 0
  {
  }

  // ----- The process value

  /** What the last accepted Oper that was no test ordered. */
  function LastOrdered(cfg: Config, calls: seq<Call>): bool {
    if calls == [] then false
    else
      var n := |calls| - 1;
      if calls[n].request.WriteOper? && AnswerAt(cfg, calls, n) == Done && !Stated(calls[n]).test
      then Stated(calls[n]).value
      else LastOrdered(cfg, calls[..n])
  }

  lemma AnswerValue(cfg: Config, s: State, call: Call)
    ensures var (s', outcome) := Answer(cfg, s, call);
      s'.shared.value ==
        if call.request.WriteOper? && outcome == Done && !Stated(call).test then Stated(call).value else s.shared.value
  {
    hide SameSequence, Permitted, Due, Expired;
  }

  /** Over every run the shared value is what the last accepted command ordered; nothing else changes it. */
  lemma {:induction false} ValueIsLastOrdered(cfg: Config, calls: seq<Call>)
    ensures After(cfg, calls).shared.value == LastOrdered(cfg, calls)
  {
    hide Answer;
    if calls != [] {
      var n := |calls| - 1;
      var w := After(cfg, calls[..n]);
      ValueIsLastOrdered(cfg, calls[..n]);
      AnswerValue(cfg, State(w.shared, LocalOf(w, calls[n].a)), calls[n]);
    }
  }

  // ----- CommandTermination

  /** The accepted Oper of an association whose termination is still to be sent. */
  function Awaiting(cfg: Config, calls: seq<Call>, a: u64): (r: Option<nat>)
    ensures r.Some? ==> r.value < |calls|
  {
    if calls == [] then None
    else
      var n := |calls| - 1;
      var last := calls[n];
      if last.a != a then Awaiting(cfg, calls[..n], a)
      else if last.request.WriteOper? && AnswerAt(cfg, calls, n) == Done && Enhanced(cfg.model) then Some(n)
      else if last.request.SendTermination? || last.request.AssociationClosed? then None
      else Awaiting(cfg, calls[..n], a)
  }

  /** The command a call carries. */
  function Stated(call: Call): Command {
    if call.request.WriteOper? && call.request.command.Some? then call.request.command.value else BLANK
  }

  /** What an association has pending is the very command it last had accepted and not yet terminated. */
  ghost predicate Owed(cfg: Config, calls: seq<Call>, a: u64) {
    var l, r := LocalOf(After(cfg, calls), a), Awaiting(cfg, calls, a);
    && (l.pending <==> r.Some?)
    && (r.Some? ==>
          && calls[r.value].a == a && calls[r.value].request.WriteOper?
          && calls[r.value].request.command == Some(l.termination))
  }

  lemma PendingStep(cfg: Config, w: World, call: Call)
    ensures var w', l := Next(cfg, w, call), LocalOf(w, call.a);
      var l', outcome := LocalOf(w', call.a), OutcomeOf(cfg, w, call);
      if call.request.WriteOper? && outcome == Done && Enhanced(cfg.model) then
        !l.pending && l'.pending && call.request.command == Some(l'.termination)
      else if call.request.SendTermination? || call.request.AssociationClosed? then !l'.pending
      else l'.pending == l.pending && l'.termination == l.termination
  {
    hide Answer;
    AnswerPending(cfg, State(w.shared, LocalOf(w, call.a)), call);
  }

  lemma {:induction false} PendingIsOwed(cfg: Config, calls: seq<Call>, a: u64)
    ensures Owed(cfg, calls, a)
  {
    hide Next, OutcomeOf;
    if calls != [] {
      var n := |calls| - 1;
      PendingIsOwed(cfg, calls[..n], a);
      SelectionStep(cfg, After(cfg, calls[..n]), calls[n]);
      PendingStep(cfg, After(cfg, calls[..n]), calls[n]);
    }
  }

  /**
   Enhanced security: while an association's termination is owed its further Opers are
   refused, and what is sent is the accepted command itself, control number included.
   */
  lemma TerminationEchoesItsOper(cfg: Config, calls: seq<Call>, call: Call)
    ensures call.request.SendTermination? ==>
      var r := Awaiting(cfg, calls, call.a);
      OutcomeOf(cfg, After(cfg, calls), call) ==
        if r.Some? then Terminated(Stated(calls[r.value])) else Failed(NotHere)
    ensures call.request.WriteOper? && Enhanced(cfg.model) && Awaiting(cfg, calls, call.a).Some? ==>
      OutcomeOf(cfg, After(cfg, calls), call).Failed?
  {
    hide After, Awaiting;
    PendingIsOwed(cfg, calls, call.a);
  }

  /** Accepted enhanced commands of one association, terminations sent, and commands dropped by a close. */
  datatype Tally = Tally(accepted: nat, sent: nat, dropped: nat)

  function Count(cfg: Config, calls: seq<Call>, a: u64): Tally {
    if calls == [] then Tally(0, 0, 0)
    else
      var n := |calls| - 1;
      var t, last := Count(cfg, calls[..n], a), calls[n];
      if last.a != a then t
      else if last.request.WriteOper? && AnswerAt(cfg, calls, n) == Done && Enhanced(cfg.model) then
        t.(accepted := t.accepted + 1)
      else if last.request.SendTermination? && AnswerAt(cfg, calls, n).Terminated? then t.(sent := t.sent + 1)
      else if last.request.AssociationClosed? && Awaiting(cfg, calls[..n], a).Some? then t.(dropped := t.dropped + 1)
      else t
  }

  /** Every accepted command is terminated once, dropped with its association, or still owed. */
  lemma {:induction false} TerminationsBalance(cfg: Config, calls: seq<Call>, a: u64)
    ensures var t := Count(cfg, calls, a);
      t.accepted == t.sent + t.dropped + (if Awaiting(cfg, calls, a).Some? then 1 else 0)
  {
    hide After, OutcomeOf;
    if calls != [] {
      var n := |calls| - 1;
      TerminationsBalance(cfg, calls[..n], a);
      TerminationEchoesItsOper(cfg, calls[..n], calls[n]);
    }
  }

  /** The wait is per association: two of them can owe a termination for the same object. */
  lemma TerminationsArePerAssociation()
    ensures exists cfg: Config, calls: seq<Call>, a: u64, b: u64 ::
      && Enhanced(cfg.model) && a != b
      && Awaiting(cfg, calls, a).Some? && Awaiting(cfg, calls, b).Some?
  {
    var cfg := Config(SboEnhanced, 100, Policy(true, false, false), true);
    var c := BLANK;
    var s1, o1 := Call(1, 0, WriteSbow(Some(c))), Call(1, 1, WriteOper(Some(c), true));
    var s2, o2 := Call(2, 2, WriteSbow(Some(c))), Call(2, 3, WriteOper(Some(c), true));
    var r1, r2, r3 := [s1], [s1, o1], [s1, o1, s2];
    var r4 := [s1, o1, s2, o2];
    assert r1[..0] == [] && r2[..1] == r1 && r3[..2] == r2 && r4[..3] == r3;
    var w1, w2, w3 := After(cfg, r1), After(cfg, r2), After(cfg, r3);
    assert After(cfg, []) == START;
    assert w1 == Next(cfg, After(cfg, r1[..0]), s1);
    assert w1.shared.owner == 1 && w1.shared.deadline == 100 && LocalOf(w1, 1).withValue;
    assert OutcomeOf(cfg, w1, o1) == Done;
    assert w2.shared == Shared(false, 0, 0) && LocalOf(w2, 2) == FRESH;
    assert w3.shared.owner == 2 && w3.shared.deadline == 102 && LocalOf(w3, 2).withValue;
    assert OutcomeOf(cfg, w3, o2) == Done;
    assert Awaiting(cfg, r2, 1) == Some(1);
    assert Awaiting(cfg, r3, 1) == Some(1);
    assert Awaiting(cfg, r4, 1) == Some(1);
    assert Awaiting(cfg, r4, 2) == Some(3);
  }
}
