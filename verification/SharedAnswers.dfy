/**
 Every answer of a shared control object, told from the record of calls: who holds the
 selection, how each service ends, and what the counters of an association count.
 */
module SharedAnswers {
  import opened Octets
  import opened SharedControl

  // ----- The selection in force

  predicate SelectFirst(m: Model) {
    m in {SboNormal, SboEnhanced}
  }

  predicate Terminates(m: Model) {
    m in {DirectEnhanced, SboEnhanced}
  }

  /** An originator the standard knows, and none of the options that the policy forbids. */
  predicate Acceptable(p: Policy, c: Command) {
    && c.category < 9
    && !(c.test && !p.allowTest) && !(c.synchro && !p.allowSynchro) && !(c.interlock && !p.allowInterlock)
  }

  /** The same command, whatever its time; a Cancel need not repeat the checks. */
  predicate Repeats(selected: Command, c: Command) {
    c.(time := selected.time) == selected
  }

  predicate Revokes(selected: Command, c: Command) {
    c.(time := selected.time, synchro := selected.synchro, interlock := selected.interlock) == selected
  }

  lemma SameReadings(p: Policy, m: Model, selected: Command, c: Command)
    ensures Permitted(p, c) <==> Acceptable(p, c)
    ensures SameSequence(selected, c, true) <==> Repeats(selected, c)
    ensures SameSequence(selected, c, false) <==> Revokes(selected, c)
    ensures (Selects(m) <==> SelectFirst(m)) && (Enhanced(m) <==> Terminates(m))
  {
  }

  /** The selection granted by this call has timed out. */
  predicate LateFor(cfg: Config, grant: Call, now: u64) {
    var due := (grant.now + cfg.timeout) % U64_LIMIT;
    due != 0 && now >= due
  }

  /** The holder's own call uses the selection up, revokes it, finds it late, or ends the association. */
  predicate Ends(cfg: Config, call: Call, outcome: Outcome, grant: Call) {
    && call.a == grant.a
    && match call.request
       case WriteOper(c, _) =>
         outcome == Done || (c.Some? && Acceptable(cfg.policy, c.value) && LateFor(cfg, grant, call.now))
       case WriteCancel(c) =>
         outcome == Done || (c.Some? && Acceptable(cfg.policy, c.value) && LateFor(cfg, grant, call.now))
       case AssociationClosed => true
       case _ => false
  }

  /** The grant in force after a run: the last one, unless its holder has ended it. */
  function Standing(cfg: Config, calls: seq<Call>): (r: Option<nat>)
    ensures r.Some? ==> r.value < |calls|
  {
    if calls == [] then None
    else
      var n := |calls| - 1;
      var before := Standing(cfg, calls[..n]);
      if IsGrant(calls[n], AnswerAt(cfg, calls, n)) then Some(n)
      else if before.Some? && Ends(cfg, calls[n], AnswerAt(cfg, calls, n), calls[before.value]) then None
      else before
  }

  /** What one call does to owner and deadline. */
  lemma AnswerOwner(cfg: Config, s: State, call: Call)
    requires s.shared.owner != 0 ==> Selects(cfg.model)
    ensures var (s', outcome) := Answer(cfg, s, call);
      var expired := Expired(s.shared, call.now);
      if IsGrant(call, outcome) then
        && Selects(cfg.model) && call.a != 0 && cfg.timeout > 0
        && s'.shared.owner == call.a && s'.shared.deadline == Due(call.now, cfg.timeout)
      else if s.shared.owner == call.a != 0 &&
              (|| call.request.AssociationClosed?
               || ((call.request.WriteOper? || call.request.WriteCancel?) &&
                   (outcome == Done ||
                    (call.request.command.Some? && Permitted(cfg.policy, call.request.command.value) && expired))))
      then s'.shared.owner == 0 && s'.shared.deadline == 0
      else s'.shared.owner == s.shared.owner && s'.shared.deadline == s.shared.deadline
  {
    hide SameSequence, Permitted, Due, Expired;
    match call.request
    case ReadSbo =>
    case WriteSbow(_) =>
    case WriteOper(_, _) =>
    case WriteCancel(_) =>
    case AssociationClosed =>
    case SendTermination =>
  }

  /** Owner and deadline are those of the grant in force, and nobody's when there is none. */
  ghost predicate Reflects(cfg: Config, calls: seq<Call>, w: World) {
    var j := Standing(cfg, calls);
    if j.None? then w.shared.owner == 0 && w.shared.deadline == 0
    else
      var g := calls[j.value];
      && g.a != 0 && cfg.timeout > 0 && SelectFirst(cfg.model)
      && w.shared.owner == g.a && w.shared.deadline == Due(g.now, cfg.timeout)
      && (cfg.model == SboEnhanced ==>
            && g.request.WriteSbow? && LocalOf(w, g.a).withValue
            && g.request.command == Some(LocalOf(w, g.a).command))
  }

  lemma ReflectsStep(cfg: Config, calls: seq<Call>)
    requires calls != [] && Reflects(cfg, calls[..|calls| - 1], After(cfg, calls[..|calls| - 1]))
    ensures Reflects(cfg, calls, After(cfg, calls))
  {
    hide Answer, Permitted, SameSequence, Acceptable, LocalOf;
    var n := |calls| - 1;
    var w, call := After(cfg, calls[..n]), calls[n];
    SameReadings(cfg.policy, cfg.model, BLANK, BLANK);
    var j := Standing(cfg, calls[..n]);
    if j.Some? {
      assert calls[..n][j.value] == calls[j.value];
    }
    if (call.request.WriteOper? || call.request.WriteCancel?) && call.request.command.Some? {
      SameReadings(cfg.policy, cfg.model, BLANK, call.request.command.value);
    }
    AnswerOwner(cfg, State(w.shared, LocalOf(w, call.a)), call);
    SelectionStep(cfg, w, call);
  }

  lemma {:induction false} SelectionStands(cfg: Config, calls: seq<Call>)
    ensures Reflects(cfg, calls, After(cfg, calls))
  {
    if calls != [] {
      hide Reflects;
      SelectionStands(cfg, calls[..|calls| - 1]);
      ReflectsStep(cfg, calls);
    }
  }

  // ----- Every answer

  /** Nobody else holds the object at `now`. */
  predicate Free(cfg: Config, calls: seq<Call>, a: u64, now: u64) {
    var j := Standing(cfg, calls);
    a != 0 && cfg.timeout != 0 &&
    (j.None? || calls[j.value].a == a || LateFor(cfg, calls[j.value], now))
  }

  /** The association holds the object at `now`. */
  predicate Holds(cfg: Config, calls: seq<Call>, a: u64, now: u64) {
    var j := Standing(cfg, calls);
    j.Some? && calls[j.value].a == a && !LateFor(cfg, calls[j.value], now)
  }

  /** What it holds it for. */
  function Selected(cfg: Config, calls: seq<Call>): Command {
    var j := Standing(cfg, calls);
    if j.Some? && calls[j.value].request.WriteSbow? && calls[j.value].request.command.Some?
    then calls[j.value].request.command.value else BLANK
  }

  /** How a call is answered, told from the record. */
  function Expected(cfg: Config, calls: seq<Call>, call: Call): Outcome {
    match call.request
    case ReadSbo =>
      if cfg.model != SboNormal || !cfg.named then Failed(NotHere)
      else if Free(cfg, calls, call.a, call.now) then Done
      else Failed(Unavailable)
    case WriteSbow(c) =>
      if cfg.model != SboEnhanced then Failed(InvalidValue)
      else if c.None? then Failed(Malformed)
      else if !Acceptable(cfg.policy, c.value) then Failed(InvalidValue)
      else if Free(cfg, calls, call.a, call.now) then Done
      else Failed(Unavailable)
    case WriteOper(c, applied) =>
      if c.None? then Failed(Malformed)
      else if !Acceptable(cfg.policy, c.value) then Failed(InvalidValue)
      else if SelectFirst(cfg.model) && !Holds(cfg, calls, call.a, call.now) then Failed(Unavailable)
      else if cfg.model == SboEnhanced && !Repeats(Selected(cfg, calls), c.value) then Failed(InvalidValue)
      else if Terminates(cfg.model) && Awaiting(cfg, calls, call.a).Some? then Failed(Unavailable)
      else if c.value.test || applied then Done
      else Failed(Backend)
    case WriteCancel(c) =>
      if !SelectFirst(cfg.model) then Failed(InvalidValue)
      else if c.None? then Failed(Malformed)
      else if !Acceptable(cfg.policy, c.value) then Failed(InvalidValue)
      else if !Holds(cfg, calls, call.a, call.now) then Failed(InvalidValue)
      else if cfg.model == SboEnhanced && !Revokes(Selected(cfg, calls), c.value) then Failed(InvalidValue)
      else Done
    case AssociationClosed => Done
    case SendTermination =>
      var r := Awaiting(cfg, calls, call.a);
      if r.Some? then Terminated(Stated(calls[r.value])) else Failed(NotHere)
  }

  /** After every run of calls by any associations, every further call is answered as the record calls for. */
  lemma AnswersExactly(cfg: Config, calls: seq<Call>, call: Call)
    ensures OutcomeOf(cfg, After(cfg, calls), call) == Expected(cfg, calls, call)
  {
    SelectionStands(cfg, calls);
    PendingIsOwed(cfg, calls, call.a);
    hide After, Standing, Awaiting;
    match call.request
    case ReadSbo => SelectAnswers(cfg, calls, call);
    case WriteSbow(_) => SelectAnswers(cfg, calls, call);
    case WriteOper(_, _) => OperAnswers(cfg, calls, call);
    case WriteCancel(_) => CancelAnswers(cfg, calls, call);
    case AssociationClosed =>
    case SendTermination => TerminationEchoesItsOper(cfg, calls, call);
  }

  lemma SelectAnswers(cfg: Config, calls: seq<Call>, call: Call)
    requires (call.request.ReadSbo? || call.request.WriteSbow?) && Reflects(cfg, calls, After(cfg, calls))
    ensures OutcomeOf(cfg, After(cfg, calls), call) == Expected(cfg, calls, call)
  {
    hide After, Standing, Permitted, Acceptable;
    if call.request.WriteSbow? && call.request.command.Some? {
      SameReadings(cfg.policy, cfg.model, BLANK, call.request.command.value);
    }
  }

  lemma OperAnswers(cfg: Config, calls: seq<Call>, call: Call)
    requires call.request.WriteOper? && Reflects(cfg, calls, After(cfg, calls)) && Owed(cfg, calls, call.a)
    ensures OutcomeOf(cfg, After(cfg, calls), call) == Expected(cfg, calls, call)
  {
    hide After, Standing, Awaiting, Permitted, Acceptable, SameSequence, Repeats;
    if call.request.command.Some? {
      SameReadings(cfg.policy, cfg.model, Selected(cfg, calls), call.request.command.value);
    }
  }

  lemma CancelAnswers(cfg: Config, calls: seq<Call>, call: Call)
    requires call.request.WriteCancel? && Reflects(cfg, calls, After(cfg, calls))
    ensures OutcomeOf(cfg, After(cfg, calls), call) == Expected(cfg, calls, call)
  {
    hide After, Standing, Permitted, Acceptable, SameSequence, Revokes;
    if call.request.command.Some? {
      SameReadings(cfg.policy, cfg.model, Selected(cfg, calls), call.request.command.value);
    }
  }

  // ----- What an association keeps

  /** A refusal that is counted: not one of a service that the model of the object does not have. */
  predicate Counts(cfg: Config, call: Call, outcome: Outcome) {
    && outcome.Failed?
    && match call.request
       case WriteOper(_, _) => true
       case WriteSbow(_) => cfg.model == SboEnhanced
       case WriteCancel(_) => SelectFirst(cfg.model)
       case _ => false
  }

  /** What the record says an association has: Opers accepted, refusals, and the last Oper's number, test and value. */
  datatype Log = Log(accepted: nat, rejected: nat, number: byte, test: bool, value: bool)

  function Logged(cfg: Config, l: Log, call: Call, outcome: Outcome): Log {
    if call.request.WriteOper? && outcome == Done then
      var c := Stated(call);
      Log(l.accepted + 1, l.rejected, c.number, c.test, if c.test then l.value else c.value)
    else if Counts(cfg, call, outcome) then l.(rejected := l.rejected + 1)
    else l
  }

  function LogOf(cfg: Config, calls: seq<Call>, a: u64): Log {
    if calls == [] then Log(0, 0, 0, false, false)
    else
      var n := |calls| - 1;
      var before := LogOf(cfg, calls[..n], a);
      if calls[n].a == a then Logged(cfg, before, calls[n], AnswerAt(cfg, calls, n)) else before
  }

  function Kept(l: Local): Log {
    Log(l.accepted, l.rejected, l.lastNumber, l.lastTest, l.value)
  }

  lemma OperateCounted(cfg: Config, s: State, a: u64, command: Option<Command>, now: u64, applied: bool)
    ensures var (s', outcome) := Operate(cfg, s, a, command, now, applied);
      var l, l' := s.local, s'.local;
      if outcome == Done then command.Some? && l'.accepted == l.accepted + 1 && l'.rejected == l.rejected
      else outcome.Failed? && l'.accepted == l.accepted && l'.rejected == l.rejected + 1
  {
    hide SameSequence, Permitted, Expired, Selects, Enhanced;
  }

  lemma OperateLasts(cfg: Config, s: State, a: u64, command: Option<Command>, now: u64, applied: bool)
    ensures var (s', outcome) := Operate(cfg, s, a, command, now, applied);
      var l, l' := s.local, s'.local;
      if outcome == Done then
        && command.Some? && l'.lastNumber == command.value.number && l'.lastTest == command.value.test
        && l'.value == if command.value.test then l.value else command.value.value
      else l'.lastNumber == l.lastNumber && l'.lastTest == l.lastTest && l'.value == l.value
  {
    hide SameSequence, Permitted, Expired, Selects, Enhanced;
  }

  lemma SelectsKept(cfg: Config, s: State, call: Call)
    requires call.request.ReadSbo? || call.request.WriteSbow?
    ensures var (s', outcome) := Answer(cfg, s, call);
      Kept(s'.local) == Logged(cfg, Kept(s.local), call, outcome)
  {
    hide Permitted, Acquire;
  }

  lemma CancelCounted(cfg: Config, s: State, a: u64, command: Option<Command>, now: u64)
    ensures var (s', outcome) := Cancel(cfg, s, a, command, now);
      var l, l' := s.local, s'.local;
      && (outcome == Done || outcome.Failed?) && l'.accepted == l.accepted
      && l'.rejected == (if outcome.Failed? && Selects(cfg.model) then l.rejected + 1 else l.rejected)
      && l'.lastNumber == l.lastNumber && l'.lastTest == l.lastTest && l'.value == l.value
  {
    hide SameSequence, Permitted, Expired, Selects;
  }

  lemma CancelKept(cfg: Config, s: State, call: Call)
    requires call.request.WriteCancel?
    ensures var (s', outcome) := Answer(cfg, s, call);
      Kept(s'.local) == Logged(cfg, Kept(s.local), call, outcome)
  {
    CancelCounted(cfg, s, call.a, call.request.command, call.now);
    hide Cancel, Operate;
  }

  lemma EndsKept(cfg: Config, s: State, call: Call)
    requires call.request.AssociationClosed? || call.request.SendTermination?
    ensures var (s', outcome) := Answer(cfg, s, call);
      Kept(s'.local) == Logged(cfg, Kept(s.local), call, outcome)
  {
    hide Operate, Cancel;
  }

  lemma AnswerKept(cfg: Config, s: State, call: Call)
    ensures var (s', outcome) := Answer(cfg, s, call);
      Kept(s'.local) == Logged(cfg, Kept(s.local), call, outcome)
  {
    hide Operate, SelectRead, SelectWithValue, Cancel, Closed, Send;
    if call.request.WriteOper? {
      OperateCounted(cfg, s, call.a, call.request.command, call.now, call.request.applied);
      OperateLasts(cfg, s, call.a, call.request.command, call.now, call.request.applied);
    } else if call.request.ReadSbo? || call.request.WriteSbow? {
      SelectsKept(cfg, s, call);
    } else if call.request.WriteCancel? {
      CancelKept(cfg, s, call);
    } else {
      EndsKept(cfg, s, call);
    }
  }

  /** After every run an association's counters and last command are those of the record. */
  lemma {:induction false} CountersCount(cfg: Config, calls: seq<Call>, a: u64)
    ensures Kept(LocalOf(After(cfg, calls), a)) == LogOf(cfg, calls, a)
  {
    if calls != [] {
      hide Answer, Logged, Kept;
      var n := |calls| - 1;
      var w := After(cfg, calls[..n]);
      CountersCount(cfg, calls[..n], a);
      AnswerKept(cfg, State(w.shared, LocalOf(w, calls[n].a)), calls[n]);
    } else {
      FreshLog();
    }
  }

  lemma FreshLog()
    ensures Kept(FRESH) == Log(0, 0, 0, false, false)
  {
  }

  /** The flags of a selection go up with its grant and down with its end; a close drops what was owed. */
  lemma FlagsFollow(cfg: Config, s: State, call: Call)
    ensures var (s', outcome) := Answer(cfg, s, call);
      var l := s'.local;
      && (IsGrant(call, outcome) ==> l.selected && (l.withValue <==> call.request.WriteSbow?))
      && (outcome == Done && (|| (call.request.WriteOper? && SelectFirst(cfg.model)) || call.request.WriteCancel?
                              || call.request.AssociationClosed?) ==>
            !l.selected && !l.withValue && l.command == BLANK)
      && (call.request.AssociationClosed? || outcome.Terminated? ==> !l.pending && l.termination == BLANK)
  {
    hide SameSequence, Permitted, Due, Expired;
    match call.request
    case ReadSbo =>
    case WriteSbow(_) =>
    case WriteOper(_, _) =>
    case WriteCancel(_) =>
    case AssociationClosed =>
    case SendTermination =>
  }
}
