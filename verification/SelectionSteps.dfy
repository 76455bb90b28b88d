/**
 The same services of one SBO-enhanced object at the grain of their atomic loads, stores
 and compare-exchanges, each association being served by a worker of its own. What
 whole-call interleavings guarantee is weaker here, and this module says by how much.
 */
module SelectionSteps {
  import opened Octets
  import opened SharedControl

  datatype Goal = ToOper(command: Command) | ToCancel(command: Command)
  datatype Then = FinishOper(command: Command) | FinishCancel | FinishClose | FinishRefusal

  /** The atomic access a worker makes next. */
  datatype Pc =
    | Idle
    | LoadOwner(command: Command, now: u64, attempt: nat)
    | Refresh(command: Command, now: u64)
    | LoadDeadline(command: Command, now: u64, attempt: nat, seen: u64)
    | Evict(command: Command, now: u64, attempt: nat, seen: u64)
    | Wipe(command: Command, now: u64, attempt: nat)
    | Claim(command: Command, now: u64, attempt: nat)
    | Stamp(command: Command, now: u64)
    | CheckOwner(goal: Goal)
    | CheckDeadline(goal: Goal, now: u64)
    | Apply(command: Command)
    | StoreValue(command: Command)
    | ReleaseOwner(next: Then)
    | ClearDeadline(next: Then)

  const ATTEMPTS: nat := 4

  datatype Worker = Worker(pc: Pc, local: Local)

  /** A refusal counts; the reason it is answered with is that of the whole call. */
  function Refused(t: Worker): Worker {
    Worker(Idle, t.local.(rejected := t.local.rejected + 1))
  }

  function Retry(t: Worker, c: Command, now: u64, attempt: nat): Worker {
    if attempt + 1 < ATTEMPTS then t.(pc := LoadOwner(c, now, attempt + 1)) else Refused(t)
  }

  function Grant(t: Worker, c: Command): Worker {
    Worker(Idle, t.local.(selected := true, withValue := true, command := c))
  }

  function Finish(t: Worker, next: Then): Worker {
    var l := Unselected(t.local);
    match next
    case FinishOper(c) => Worker(Idle, l.(termination := c, pending := true))
    case FinishCancel => Worker(Idle, l)
    case FinishClose => Worker(Idle, l.(pending := false, termination := BLANK))
    case FinishRefusal => Refused(Worker(Idle, l))
  }

  /** A request reaches an idle worker; decoding and policy need no shared access. */
  function Begin(cfg: Config, t: Worker, a: u64, request: Request, now: u64): Worker {
    match request
    case WriteSbow(command) =>
      if command.None? || !Permitted(cfg.policy, command.value) || a == 0 || cfg.timeout == 0 then Refused(t)
      else t.(pc := LoadOwner(command.value, now, 0))
    case WriteOper(command, _) =>
      if command.None? || !Permitted(cfg.policy, command.value) || a == 0 then Refused(t)
      else t.(pc := CheckOwner(ToOper(command.value)))
    case WriteCancel(command) =>
      if command.None? || !Permitted(cfg.policy, command.value) || a == 0 then Refused(t)
      else t.(pc := CheckOwner(ToCancel(command.value)))
    case AssociationClosed => if a == 0 then Finish(t, FinishClose) else t.(pc := ReleaseOwner(FinishClose))
    case SendTermination =>
      if t.local.pending then t.(local := t.local.(pending := false, termination := BLANK)) else t
    case ReadSbo => t
  }

  /** Owner and deadline have been seen to be good; the rest of the guard is local. */
  function Passed(t: Worker, goal: Goal): Worker {
    if !t.local.withValue || !SameSequence(t.local.command, goal.command, goal.ToOper?) then Refused(t)
    else if goal.ToCancel? then t.(pc := ReleaseOwner(FinishCancel))
    else if t.local.pending then Refused(t)
    else t.(pc := Apply(goal.command))
  }

  function Applied(t: Worker, c: Command): Worker {
    Worker(
      ReleaseOwner(FinishOper(c)),
      t.local.(value := if c.test then t.local.value else c.value,
               lastNumber := c.number, lastTest := c.test, accepted := t.local.accepted + 1))
  }

  /** One atomic access or process callback of the worker of `a`; `now` and `applied` are what its callbacks say. */
  function Move(cfg: Config, sh: Shared, t: Worker, a: u64, now: u64, applied: bool): (Shared, Worker) {
    match t.pc
    case Idle => (sh, t)
    case LoadOwner(c, began, attempt) =>
      (sh, t.(pc := if sh.owner == a then Refresh(c, began)
                    else if sh.owner != 0 then LoadDeadline(c, began, attempt, sh.owner)
                    else Claim(c, began, attempt)))
    case Refresh(c, began) => (sh.(deadline := Due(began, cfg.timeout)), Grant(t, c))
    case LoadDeadline(c, began, attempt, seen) =>
      (sh, if Expired(sh, began) then t.(pc := Evict(c, began, attempt, seen)) else Refused(t))
    case Evict(c, began, attempt, seen) =>
      if sh.owner == seen then (sh.(owner := 0), t.(pc := Wipe(c, began, attempt)))
      else (sh, Retry(t, c, began, attempt))
    case Wipe(c, began, attempt) => (sh.(deadline := 0), Retry(t, c, began, attempt))
    case Claim(c, began, attempt) =>
      if sh.owner == 0 then (sh.(owner := a), t.(pc := Stamp(c, began))) else (sh, Retry(t, c, began, attempt))
    case Stamp(c, began) => (sh.(deadline := Due(began, cfg.timeout)), Grant(t, c))
    case CheckOwner(goal) =>
      (sh, if sh.owner != a then Refused(t) else t.(pc := CheckDeadline(goal, now)))
    case CheckDeadline(goal, read) =>
      (sh, if Expired(sh, read) then t.(pc := ReleaseOwner(FinishRefusal)) else Passed(t, goal))
    case Apply(c) =>
      if c.test then (sh, Applied(t, c))
      else if !applied then (sh, Refused(t))
      else (sh, t.(pc := StoreValue(c)))
    case StoreValue(c) => (sh.(value := c.value), Applied(t, c))
    case ReleaseOwner(next) =>
      if sh.owner == a then (sh.(owner := 0), t.(pc := ClearDeadline(next))) else (sh, Finish(t, next))
    case ClearDeadline(next) => (sh.(deadline := 0), Finish(t, next))
  }

  // ----- One worker alone

  function Moves(cfg: Config, sh: Shared, t: Worker, a: u64, now: u64, applied: bool, n: nat): (Shared, Worker)
    decreases n, t
  {
    if n == 0 then (sh, t)
    else
      var (sh', t') := Move(cfg, sh, t, a, now, applied);
      Moves(cfg, sh', t', a, now, applied, n - 1)
  }

  lemma {:induction false} StaysIdle(cfg: Config, sh: Shared, t: Worker, a: u64, now: u64, applied: bool, n: nat)
    requires t.pc == Idle
    ensures Moves(cfg, sh, t, a, now, applied, n) == (sh, t)
  {
    if n > 0 {
      StaysIdle(cfg, sh, t, a, now, applied, n - 1);
    }
  }

  lemma MoveOn(
    cfg: Config, sh: Shared, t: Worker, a: u64, now: u64, applied: bool, n: nat, sh': Shared, t': Worker)
    requires n > 0 && Move(cfg, sh, t, a, now, applied) == (sh', t')
    ensures Moves(cfg, sh, t, a, now, applied, n) == Moves(cfg, sh', t', a, now, applied, n - 1)
  {
  }

  /** The accesses of one service, left to themselves, make up the whole call. */
  lemma SbowAlone(cfg: Config, s: State, a: u64, command: Option<Command>, now: u64)
    requires cfg.model == SboEnhanced
    ensures var s' := SelectWithValue(cfg, s, a, command, now).0;
      Moves(cfg, s.shared, Begin(cfg, Worker(Idle, s.local), a, WriteSbow(command), now), a, now, true, 7) ==
      (s'.shared, Worker(Idle, s'.local))
  {
    hide Moves, Permitted;
    var sh, t := s.shared, Begin(cfg, Worker(Idle, s.local), a, WriteSbow(command), now);
    if t.pc == Idle {
      StaysIdle(cfg, sh, t, a, now, true, 7);
    } else {
      var c := command.value;
      var stamped := sh.(owner := a, deadline := Due(now, cfg.timeout));
      if sh.owner == a {
        MoveOn(cfg, sh, t, a, now, true, 7, sh, t.(pc := Refresh(c, now)));
        MoveOn(cfg, sh, t.(pc := Refresh(c, now)), a, now, true, 6, stamped, Grant(t, c));
        StaysIdle(cfg, stamped, Grant(t, c), a, now, true, 5);
      } else if sh.owner == 0 {
        ClaimAlone(cfg, sh, t, a, c, now, 0, 7);
      } else {
        var owner := sh.owner;
        MoveOn(cfg, sh, t, a, now, true, 7, sh, t.(pc := LoadDeadline(c, now, 0, owner)));
        if Expired(sh, now) {
          var freed, clear := sh.(owner := 0), sh.(owner := 0, deadline := 0);
          var loaded, evicting := t.(pc := LoadDeadline(c, now, 0, owner)), t.(pc := Evict(c, now, 0, owner));
          MoveOn(cfg, sh, loaded, a, now, true, 6, sh, evicting);
          MoveOn(cfg, sh, t.(pc := Evict(c, now, 0, owner)), a, now, true, 5, freed, t.(pc := Wipe(c, now, 0)));
          MoveOn(cfg, freed, t.(pc := Wipe(c, now, 0)), a, now, true, 4, clear, t.(pc := LoadOwner(c, now, 1)));
          ClaimAlone(cfg, clear, t.(pc := LoadOwner(c, now, 1)), a, c, now, 1, 3);
        } else {
          MoveOn(cfg, sh, t.(pc := LoadDeadline(c, now, 0, owner)), a, now, true, 6, sh, Refused(t));
          StaysIdle(cfg, sh, Refused(t), a, now, true, 5);
        }
      }
    }
  }

  lemma ClaimAlone(cfg: Config, sh: Shared, t: Worker, a: u64, c: Command, now: u64, attempt: nat, n: nat)
    requires n >= 3 && a != 0 && sh.owner == 0 && t.pc == LoadOwner(c, now, attempt)
    ensures Moves(cfg, sh, t, a, now, true, n) == (sh.(owner := a, deadline := Due(now, cfg.timeout)), Grant(t, c))
  {
    hide Moves;
    var claimed, stamped := sh.(owner := a), sh.(owner := a, deadline := Due(now, cfg.timeout));
    MoveOn(cfg, sh, t, a, now, true, n, sh, t.(pc := Claim(c, now, attempt)));
    MoveOn(cfg, sh, t.(pc := Claim(c, now, attempt)), a, now, true, n - 1, claimed, t.(pc := Stamp(c, now)));
    MoveOn(cfg, claimed, t.(pc := Stamp(c, now)), a, now, true, n - 2, stamped, Grant(t, c));
    StaysIdle(cfg, stamped, Grant(t, c), a, now, true, n - 3);
  }

  lemma ReleaseAlone(cfg: Config, sh: Shared, t: Worker, a: u64, now: u64, applied: bool, next: Then, n: nat)
    requires n >= 2 && a != 0 && t.pc == ReleaseOwner(next)
    ensures Moves(cfg, sh, t, a, now, applied, n) == (Release(State(sh, t.local), a).shared, Finish(t, next))
  {
    hide Moves;
    if sh.owner == a {
      var clear := sh.(owner := 0, deadline := 0);
      MoveOn(cfg, sh, t, a, now, applied, n, sh.(owner := 0), t.(pc := ClearDeadline(next)));
      MoveOn(cfg, sh.(owner := 0), t.(pc := ClearDeadline(next)), a, now, applied, n - 1, clear, Finish(t, next));
      StaysIdle(cfg, clear, Finish(t, next), a, now, applied, n - 2);
    } else {
      MoveOn(cfg, sh, t, a, now, applied, n, sh, Finish(t, next));
      StaysIdle(cfg, sh, Finish(t, next), a, now, applied, n - 1);
    }
  }

  lemma OperAlone(cfg: Config, s: State, a: u64, command: Option<Command>, now: u64, applied: bool)
    requires cfg.model == SboEnhanced
    ensures var s' := Operate(cfg, s, a, command, now, applied).0;
      var t := Begin(cfg, Worker(Idle, s.local), a, WriteOper(command, applied), now);
      Moves(cfg, s.shared, t, a, now, applied, 7) == (s'.shared, Worker(Idle, s'.local))
  {
    hide Moves, Permitted, SameSequence;
    var sh, t := s.shared, Begin(cfg, Worker(Idle, s.local), a, WriteOper(command, applied), now);
    if t.pc == Idle {
      StaysIdle(cfg, sh, t, a, now, applied, 7);
    } else {
      var c := command.value;
      var goal := ToOper(c);
      GuardAlone(cfg, s, t, a, goal, now, applied, 7);
      if sh.owner == a && !Expired(sh, now) {
        var p := Passed(t, goal);
        if p.pc == Idle {
          StaysIdle(cfg, sh, p, a, now, applied, 5);
        } else if !c.test && !applied {
          MoveOn(cfg, sh, p, a, now, applied, 5, sh, Refused(p));
          StaysIdle(cfg, sh, Refused(p), a, now, applied, 4);
        } else if c.test {
          MoveOn(cfg, sh, p, a, now, applied, 5, sh, Applied(p, c));
          ReleaseAlone(cfg, sh, Applied(p, c), a, now, applied, FinishOper(c), 4);
        } else {
          var storing, sh1 := p.(pc := StoreValue(c)), sh.(value := c.value);
          MoveOn(cfg, sh, p, a, now, applied, 5, sh, storing);
          MoveOn(cfg, sh, storing, a, now, applied, 4, sh1, Applied(storing, c));
          ReleaseAlone(cfg, sh1, Applied(storing, c), a, now, applied, FinishOper(c), 3);
        }
      }
    }
  }

  lemma CancelAlone(cfg: Config, s: State, a: u64, command: Option<Command>, now: u64)
    requires cfg.model == SboEnhanced
    ensures var s' := Cancel(cfg, s, a, command, now).0;
      Moves(cfg, s.shared, Begin(cfg, Worker(Idle, s.local), a, WriteCancel(command), now), a, now, true, 7) ==
      (s'.shared, Worker(Idle, s'.local))
  {
    hide Moves, Permitted, SameSequence;
    var sh, t := s.shared, Begin(cfg, Worker(Idle, s.local), a, WriteCancel(command), now);
    if t.pc == Idle {
      StaysIdle(cfg, sh, t, a, now, true, 7);
    } else {
      var goal := ToCancel(command.value);
      GuardAlone(cfg, s, t, a, goal, now, true, 7);
      if sh.owner == a && !Expired(sh, now) {
        var p := Passed(t, goal);
        if p.pc == Idle {
          StaysIdle(cfg, sh, p, a, now, true, 5);
        } else {
          ReleaseAlone(cfg, sh, p, a, now, true, FinishCancel, 5);
        }
      }
    }
  }

  lemma CloseAlone(cfg: Config, s: State, a: u64, now: u64)
    ensures var s' := Closed(s, a);
      Moves(cfg, s.shared, Begin(cfg, Worker(Idle, s.local), a, AssociationClosed, now), a, now, true, 7) ==
      (s'.shared, Worker(Idle, s'.local))
  {
    hide Moves;
    var sh, t := s.shared, Begin(cfg, Worker(Idle, s.local), a, AssociationClosed, now);
    if a == 0 {
      StaysIdle(cfg, sh, t, a, now, true, 7);
    } else {
      ReleaseAlone(cfg, sh, t, a, now, true, FinishClose, 7);
    }
  }

  lemma GuardAlone(cfg: Config, s: State, t: Worker, a: u64, goal: Goal, now: u64, applied: bool, n: nat)
    requires n >= 4 && a != 0 && t == Worker(CheckOwner(goal), s.local)
    ensures Moves(cfg, s.shared, t, a, now, applied, n) ==
      if s.shared.owner != a then (s.shared, Refused(t))
      else if Expired(s.shared, now) then (Release(s, a).shared, Finish(t, FinishRefusal))
      else Moves(cfg, s.shared, Passed(t, goal), a, now, applied, n - 2)
  {
    hide Moves, Passed, Finish;
    var sh := s.shared;
    if sh.owner != a {
      MoveOn(cfg, sh, t, a, now, applied, n, sh, Refused(t));
      StaysIdle(cfg, sh, Refused(t), a, now, applied, n - 1);
    } else {
      var timed := t.(pc := CheckDeadline(goal, now));
      MoveOn(cfg, sh, t, a, now, applied, n, sh, timed);
      if Expired(sh, now) {
        var late := t.(pc := ReleaseOwner(FinishRefusal));
        MoveOn(cfg, sh, timed, a, now, applied, n - 1, sh, late);
        ReleaseAlone(cfg, sh, late, a, now, applied, FinishRefusal, n - 2);
        FinishIgnoresPc(late, t, FinishRefusal);
      } else {
        PassedIgnoresPc(timed, t, goal);
        MoveOn(cfg, sh, timed, a, now, applied, n - 1, sh, Passed(timed, goal));
      }
    }
  }

  lemma FinishIgnoresPc(t: Worker, u: Worker, next: Then)
    requires t.local == u.local
    ensures Finish(t, next) == Finish(u, next)
  {
  }

  lemma PassedIgnoresPc(t: Worker, u: Worker, goal: Goal)
    requires t.local == u.local
    ensures Passed(t, goal) == Passed(u, goal)
  {
  }

  const LONGEST: nat := 7

  predicate Applies(request: Request) {
    request.WriteOper? ==> request.applied
  }

  /** Without interference the accesses of a service amount to the whole call. */
  lemma ServiceAlone(cfg: Config, s: State, call: Call)
    requires cfg.model == SboEnhanced
    ensures var s' := Answer(cfg, s, call).0;
      Moves(cfg, s.shared, Begin(cfg, Worker(Idle, s.local), call.a, call.request, call.now),
            call.a, call.now, Applies(call.request), LONGEST) ==
      (s'.shared, Worker(Idle, s'.local))
  {
    hide Moves, SelectWithValue, Operate, Cancel, Closed;
    match call.request
    case WriteSbow(command) => SbowAlone(cfg, s, call.a, command, call.now);
    case WriteOper(command, applied) => OperAlone(cfg, s, call.a, command, call.now, applied);
    case WriteCancel(command) => CancelAlone(cfg, s, call.a, command, call.now);
    case AssociationClosed => CloseAlone(cfg, s, call.a, call.now);
    case _ =>
      StaysIdle(cfg, s.shared, Begin(cfg, Worker(Idle, s.local), call.a, call.request, call.now),
                call.a, call.now, true, LONGEST);
  }

  // ----- Any number of workers, access by access

  /** association_guard serves no association numbered zero. */
  type Association = a: u64 | a != 0 witness 1

  datatype Act =
    | Ask(a: Association, now: u64, request: Request)
    | Tick(a: Association, now: u64, applied: bool)

  /** `process` is the value the process was given last. */
  datatype Scene = Scene(shared: Shared, workers: map<u64, Worker>, process: bool)

  const QUIET: Worker := Worker(Idle, FRESH)
  const OPENING: Scene := Scene(Shared(false, 0, 0), map[], false)

  function WorkerOf(w: Scene, a: u64): Worker {
    if a in w.workers then w.workers[a] else QUIET
  }

  function Played(cfg: Config, sh: Shared, t: Worker, act: Act): (Shared, Worker) {
    match act
    case Ask(a, now, request) => if t.pc == Idle then (sh, Begin(cfg, t, a, request, now)) else (sh, t)
    case Tick(a, now, applied) => Move(cfg, sh, t, a, now, applied)
  }

  /** The value this act hands to the process, if any. */
  function Hands(t: Worker, act: Act): Option<bool> {
    if act.Tick? && act.applied && t.pc.Apply? && !t.pc.command.test then Some(t.pc.command.value) else None
  }

  function Play(cfg: Config, w: Scene, act: Act): Scene {
    var t := WorkerOf(w, act.a);
    var (sh, t') := Played(cfg, w.shared, t, act);
    Scene(sh, w.workers[act.a := t'], match Hands(t, act) case Some(value) => value case None => w.process)
  }

  function PlayAll(cfg: Config, acts: seq<Act>): Scene {
    if acts == [] then OPENING
    else Play(cfg, PlayAll(cfg, acts[..|acts| - 1]), acts[|acts| - 1])
  }

  /** Access `g` of the run completed a selection for association `a` and command `c`. */
  ghost predicate Grants(cfg: Config, acts: seq<Act>, g: nat, a: u64, c: Command) {
    && g < |acts| && acts[g].Tick? && acts[g].a == a
    && var pc := WorkerOf(PlayAll(cfg, acts[..g]), a).pc;
    (pc.Stamp? || pc.Refresh?) && pc.command == c
  }

  ghost predicate OwnedBetween(cfg: Config, acts: seq<Act>, from: nat, to: nat, a: u64)
    requires to <= |acts|
  {
    forall k :: from < k <= to ==> PlayAll(cfg, acts[..k]).shared.owner == a
  }

  predicate GrantsNow(t: Worker, act: Act) {
    act.Tick? && (t.pc.Stamp? || t.pc.Refresh?)
  }

  /** A worker at one of these accesses has let go of the object or has yet to get it. */
  predicate Away(t: Worker) {
    t.pc.LoadDeadline? || t.pc.Evict? || t.pc.Wipe? || t.pc.Claim? || t.pc.ClearDeadline?
  }

  /** What one access by `a` can do to its own hold on the object, and to that of `b`. */
  lemma PlayedStep(cfg: Config, sh: Shared, t: Worker, act: Act, b: Association)
    requires Away(t) ==> sh.owner != act.a
    ensures var (sh', t') := Played(cfg, sh, t, act);
      && (Away(t') ==> sh'.owner != act.a)
      && (b != act.a && sh'.owner == b ==> sh.owner == b)
      && (sh'.owner == act.a && !t'.pc.Stamp? ==>
            if GrantsNow(t, act) then t'.local.withValue && t'.local.command == t.pc.command
            else
              && sh.owner == act.a && !t.pc.Stamp?
              && t'.local.withValue == t.local.withValue && t'.local.command == t.local.command)
  {
    hide SameSequence, Permitted, Due, Expired, Begin;
    match act
    case Ask(a, now, request) => BegunKeeps(cfg, t, a, request, now);
    case Tick(_, _, _) =>
      match t.pc
      case Idle =>
      case LoadOwner(_, _, _) =>
      case Refresh(_, _) =>
      case LoadDeadline(_, _, _, _) =>
      case Evict(_, _, _, _) =>
      case Wipe(_, _, _) =>
      case Claim(_, _, _) =>
      case Stamp(_, _) =>
      case CheckOwner(_) =>
      case CheckDeadline(_, _) =>
      case Apply(_) =>
      case StoreValue(_) =>
      case ReleaseOwner(_) =>
      case ClearDeadline(_) =>
  }

  lemma BegunKeeps(cfg: Config, t: Worker, a: Association, request: Request, now: u64)
    ensures var t' := Begin(cfg, t, a, request, now);
      && (t.pc == Idle ==> !Away(t') && !t'.pc.Stamp?)
      && t'.local.withValue == t.local.withValue && t'.local.command == t.local.command
  {
  }

  lemma {:induction false} AwayMeansNotOwner(cfg: Config, acts: seq<Act>, a: Association)
    ensures var w := PlayAll(cfg, acts);
      Away(WorkerOf(w, a)) ==> w.shared.owner != a
  {
    hide Played;
    if acts != [] {
      var n := |acts| - 1;
      var w := PlayAll(cfg, acts[..n]);
      AwayMeansNotOwner(cfg, acts[..n], a);
      AwayMeansNotOwner(cfg, acts[..n], acts[n].a);
      PlayedStep(cfg, w.shared, WorkerOf(w, acts[n].a), acts[n], a);
    }
  }

  /** The object has been `a`'s at every moment since `a` was granted it for the command it still has. */
  ghost predicate HeldFrom(cfg: Config, acts: seq<Act>, g: nat, a: Association) {
    var l := WorkerOf(PlayAll(cfg, acts), a).local;
    g < |acts| && l.withValue && Grants(cfg, acts, g, a, l.command) && OwnedBetween(cfg, acts, g, |acts|, a)
  }

  lemma GrantsPrefix(cfg: Config, acts: seq<Act>, n: nat, g: nat, a: u64, c: Command)
    requires n <= |acts| && g < n
    ensures Grants(cfg, acts[..n], g, a, c) <==> Grants(cfg, acts, g, a, c)
  {
    assert acts[..n][..g] == acts[..g];
  }

  lemma OwnedPrefix(cfg: Config, acts: seq<Act>, n: nat, from: nat, to: nat, a: u64)
    requires to <= n <= |acts|
    ensures OwnedBetween(cfg, acts[..n], from, to, a) <==> OwnedBetween(cfg, acts, from, to, a)
  {
    assert forall k :: 0 <= k <= to ==> acts[..n][..k] == acts[..k];
  }

  lemma {:induction false} OwnerHeldFromGrant(cfg: Config, acts: seq<Act>, a: Association) returns (g: nat)
    requires PlayAll(cfg, acts).shared.owner == a && !WorkerOf(PlayAll(cfg, acts), a).pc.Stamp?
    ensures HeldFrom(cfg, acts, g, a)
  {
    hide Played;
    var n := |acts| - 1;
    var before, act := acts[..n], acts[n];
    var w := PlayAll(cfg, before);
    AwayMeansNotOwner(cfg, before, act.a);
    PlayedStep(cfg, w.shared, WorkerOf(w, act.a), act, a);
    assert acts[..n + 1] == acts;
    if act.a == a && GrantsNow(WorkerOf(w, a), act) {
      g := n;
    } else {
      g := OwnerHeldFromGrant(cfg, before, a);
      GrantsPrefix(cfg, acts, n, g, a, WorkerOf(w, a).local.command);
      OwnedPrefix(cfg, acts, n, g, n, a);
    }
  }

  /** The command an Oper is about to be applied for, or is being guarded for. */
  function Guarding(t: Worker): Option<Command> {
    match t.pc
    case CheckDeadline(ToOper(c), _) => Some(c)
    case Apply(c) => Some(c)
    case StoreValue(c) => Some(c)
    case _ => None
  }

  /** Past every check of its Oper: about to give it to the process, or to store what it gave. */
  predicate PastCheck(t: Worker) {
    t.pc.Apply? || t.pc.StoreValue?
  }

  /** Access `i` found the object in `a`'s hands, as it had been ever since the grant at `g`. */
  ghost predicate Vouched(cfg: Config, acts: seq<Act>, g: nat, i: nat, a: Association, granted: Command) {
    && g < i < |acts| && acts[i].Tick? && acts[i].a == a
    && WorkerOf(PlayAll(cfg, acts[..i]), a).pc.CheckOwner?
    && Grants(cfg, acts, g, a, granted)
    && OwnedBetween(cfg, acts, g, i, a)
  }

  lemma VouchedPrefix(cfg: Config, acts: seq<Act>, n: nat, g: nat, i: nat, a: Association, granted: Command)
    requires n <= |acts| && i < n && Vouched(cfg, acts[..n], g, i, a, granted)
    ensures Vouched(cfg, acts, g, i, a, granted)
  {
    GrantsPrefix(cfg, acts, n, g, a, granted);
    OwnedPrefix(cfg, acts, n, g, i, a);
    assert acts[..n][..i] == acts[..i];
  }

  lemma GuardStep(cfg: Config, sh: Shared, t: Worker, act: Act)
    ensures var (sh', t') := Played(cfg, sh, t, act);
      Guarding(t').Some? ==>
        && t'.local == t.local && sh'.owner == sh.owner
        && (if act.Tick? && t.pc.CheckOwner? then sh.owner == act.a && !PastCheck(t')
            else
              && Guarding(t) == Guarding(t')
              && (PastCheck(t') ==> PastCheck(t) || SameSequence(t.local.command, Guarding(t').value, true)))
  {
    match act
    case Ask(_, _, _) =>
    case Tick(_, _, _) =>
      match t.pc
      case CheckOwner(_) =>
      case CheckDeadline(_, _) =>
      case _ =>
  }

  /** Access `e` is another worker's successful eviction of `a`. */
  ghost predicate Evicts(cfg: Config, acts: seq<Act>, e: nat, a: Association) {
    && e < |acts| && acts[e].Tick? && acts[e].a != a
    && var w := PlayAll(cfg, acts[..e]);
    w.shared.owner == a && WorkerOf(w, acts[e].a).pc.Evict? && WorkerOf(w, acts[e].a).pc.seen == a
  }

  ghost predicate EvictedAfter(cfg: Config, acts: seq<Act>, i: nat, a: Association) {
    exists e :: i < e < |acts| && Evicts(cfg, acts, e, a)
  }

  /** Another worker takes the object from `a` by evicting it and in no other way. */
  lemma OthersOnlyEvict(cfg: Config, sh: Shared, t: Worker, act: Act, a: Association)
    requires act.a != a
    ensures var sh' := Played(cfg, sh, t, act).0;
      sh'.owner == a <==> sh.owner == a && !(act.Tick? && t.pc.Evict? && t.pc.seen == a)
  {
    hide SameSequence, Permitted, Due, Expired, Begin;
  }

  lemma EvictedNext(cfg: Config, acts: seq<Act>, i: nat, a: Association)
    requires acts != [] && i < |acts| - 1
    ensures var n := |acts| - 1;
      EvictedAfter(cfg, acts, i, a) <==> EvictedAfter(cfg, acts[..n], i, a) || Evicts(cfg, acts, n, a)
  {
    hide PlayAll;
    var n := |acts| - 1;
    forall e | i < e < n ensures Evicts(cfg, acts[..n], e, a) <==> Evicts(cfg, acts, e, a) {
      assert acts[..n][..e] == acts[..e];
    }
    if EvictedAfter(cfg, acts[..n], i, a) {
      var e :| i < e < n && Evicts(cfg, acts[..n], e, a);
      assert Evicts(cfg, acts, e, a);
    }
  }

  /**
   What survives access-by-access interleaving: an Oper reaches the process only if,
   at some moment of the call, its association was seen to own the object, and had owned
   it without a break since it was granted it for that same command. It owns the object
   still exactly if no other worker has evicted it since that moment.
   */
  lemma {:induction false} AppliedOperWasVouched(cfg: Config, acts: seq<Act>, a: Association) returns (g: nat, i: nat)
    requires Guarding(WorkerOf(PlayAll(cfg, acts), a)).Some?
    ensures var t := WorkerOf(PlayAll(cfg, acts), a);
      && Vouched(cfg, acts, g, i, a, t.local.command)
      && (PastCheck(t) ==> SameSequence(t.local.command, t.pc.command, true))
    ensures PlayAll(cfg, acts).shared.owner == a <==> !EvictedAfter(cfg, acts, i, a)
  {
    hide Played, SameSequence, Grants, OwnedBetween;
    var n := |acts| - 1;
    var before, act := acts[..n], acts[n];
    var w := PlayAll(cfg, before);
    var t := WorkerOf(w, a);
    if act.a == a {
      GuardStep(cfg, w.shared, t, act);
    } else {
      OthersOnlyEvict(cfg, w.shared, WorkerOf(w, act.a), act, a);
    }
    if act.a == a && act.Tick? && t.pc.CheckOwner? {
      i := n;
      g := OwnerHeldFromGrant(cfg, before, a);
      GrantsPrefix(cfg, acts, n, g, a, t.local.command);
      OwnedPrefix(cfg, acts, n, g, n, a);
    } else {
      g, i := AppliedOperWasVouched(cfg, before, a);
      VouchedPrefix(cfg, acts, n, g, i, a, t.local.command);
      EvictedNext(cfg, acts, i, a);
    }
  }

  /**
   Two Opers are past the owner check together only if one of them was evicted between
   its check and its application: without such an eviction, at most one is.
   */
  lemma TwoOpersNeedAnEviction(cfg: Config, acts: seq<Act>, a: Association, b: Association)
    returns (i: nat, j: nat)
    requires a != b
    requires PastCheck(WorkerOf(PlayAll(cfg, acts), a)) && PastCheck(WorkerOf(PlayAll(cfg, acts), b))
    ensures i < |acts| && acts[i].a == a && WorkerOf(PlayAll(cfg, acts[..i]), a).pc.CheckOwner?
    ensures j < |acts| && acts[j].a == b && WorkerOf(PlayAll(cfg, acts[..j]), b).pc.CheckOwner?
    ensures EvictedAfter(cfg, acts, i, a) || EvictedAfter(cfg, acts, j, b)
  {
    hide PlayAll, EvictedAfter, Grants, OwnedBetween;
    var g, h;
    g, i := AppliedOperWasVouched(cfg, acts, a);
    h, j := AppliedOperWasVouched(cfg, acts, b);
  }

  // ----- The process and the shared value

  predicate Storing(w: Scene, a: Association) {
    WorkerOf(w, a).pc.StoreValue?
  }

  /** At most one worker has given the process a value that it has yet to store. */
  ghost predicate OneStorer(w: Scene) {
    forall a: Association, b: Association :: Storing(w, a) && Storing(w, b) ==> a == b
  }

  /** The shared value is the one the process has, or is about to become it. */
  ghost predicate InStep(w: Scene) {
    && (forall a: Association :: Storing(w, a) ==> WorkerOf(w, a).pc.command.value == w.process)
    && ((forall a: Association :: !Storing(w, a)) ==> w.shared.value == w.process)
  }

  lemma StoreStep(cfg: Config, sh: Shared, t: Worker, act: Act)
    ensures var (sh', t') := Played(cfg, sh, t, act);
      && (t'.pc.StoreValue? <==> Hands(t, act).Some? || (act.Ask? && t.pc.StoreValue?))
      && (t'.pc.StoreValue? ==> t'.pc.command == t.pc.command)
      && sh'.value == if act.Tick? && t.pc.StoreValue? then t.pc.command.value else sh.value
  {
    hide SameSequence, Permitted, Due, Expired;
  }

  lemma KeepsInStep(cfg: Config, w: Scene, act: Act)
    requires InStep(w) && OneStorer(w) && OneStorer(Play(cfg, w, act))
    ensures InStep(Play(cfg, w, act))
  {
    hide Played;
    var w' := Play(cfg, w, act);
    StoreStep(cfg, w.shared, WorkerOf(w, act.a), act);
    var a := act.a;
    assert forall b: Association :: b != a ==> WorkerOf(w', b) == WorkerOf(w, b) && (Storing(w', b) <==> Storing(w, b));
    if Hands(WorkerOf(w, a), act).Some? {
      assert Storing(w', a);
    } else if act.Tick? && Storing(w, a) {
      assert forall b: Association :: !Storing(w', b);
    } else {
      assert forall b: Association :: Storing(w', b) <==> Storing(w, b);
    }
  }

  /**
   The process callback and the store of the value are two steps. The shared value is
   the one the process was given last, whenever nobody is between the two, if at no
   moment of the run two workers were.
   */
  lemma {:induction false} ValueIsProcess(cfg: Config, acts: seq<Act>)
    requires forall k :: 0 <= k <= |acts| ==> OneStorer(PlayAll(cfg, acts[..k]))
    ensures InStep(PlayAll(cfg, acts))
  {
    hide OneStorer, InStep, Play;
    if acts == [] {
      NobodyStores();
    } else {
      var n := |acts| - 1;
      assert forall k :: 0 <= k <= n ==> acts[..n][..k] == acts[..k];
      ValueIsProcess(cfg, acts[..n]);
      assert acts[..n + 1] == acts;
      assert OneStorer(PlayAll(cfg, acts[..n])) && OneStorer(PlayAll(cfg, acts[..n + 1]));
      KeepsInStep(cfg, PlayAll(cfg, acts[..n]), acts[n]);
    }
  }

  lemma NobodyStores()
    ensures InStep(OPENING)
  {
    var a: Association := 1;
    assert !Storing(OPENING, a);
  }

  /** Access `e` evicts a worker in the middle of its Oper, past its owner check. */
  ghost predicate Overtakes(cfg: Config, acts: seq<Act>, e: nat) {
    exists a: Association ::
      Evicts(cfg, acts, e, a) && Guarding(WorkerOf(PlayAll(cfg, acts[..e]), a)).Some?
  }

  /** Without such an eviction, who has passed the owner check has the object. */
  lemma {:induction false} GuardingOwns(cfg: Config, acts: seq<Act>, a: Association)
    requires forall e: nat :: e < |acts| ==> !Overtakes(cfg, acts, e)
    requires Guarding(WorkerOf(PlayAll(cfg, acts), a)).Some?
    ensures PlayAll(cfg, acts).shared.owner == a
  {
    hide Played, SameSequence;
    var n := |acts| - 1;
    var w, act := PlayAll(cfg, acts[..n]), acts[n];
    assert !Overtakes(cfg, acts, n);
    OvertakesPrefix(cfg, acts, n);
    if act.a == a {
      GuardStep(cfg, w.shared, WorkerOf(w, a), act);
    } else {
      OthersOnlyEvict(cfg, w.shared, WorkerOf(w, act.a), act, a);
    }
    if !(act.a == a && act.Tick? && WorkerOf(w, a).pc.CheckOwner?) {
      GuardingOwns(cfg, acts[..n], a);
      assert !Evicts(cfg, acts, n, a);
    }
  }

  lemma OvertakesPrefix(cfg: Config, acts: seq<Act>, n: nat)
    requires n <= |acts|
    ensures forall e: nat :: e < n ==> (Overtakes(cfg, acts[..n], e) <==> Overtakes(cfg, acts, e))
  {
    hide PlayAll;
    forall e: nat, a: Association | e < n ensures Evicts(cfg, acts[..n], e, a) <==> Evicts(cfg, acts, e, a) {
      assert acts[..n][..e] == acts[..e];
    }
    assert forall e: nat :: e < n ==> acts[..n][..e] == acts[..e];
  }

  /** So process and value can only part where an Oper is overtaken by an eviction. */
  lemma InStepUnlessOvertaken(cfg: Config, acts: seq<Act>)
    requires forall e: nat :: e < |acts| ==> !Overtakes(cfg, acts, e)
    ensures InStep(PlayAll(cfg, acts))
  {
    hide PlayAll, Overtakes, InStep;
    forall k | 0 <= k <= |acts| ensures OneStorer(PlayAll(cfg, acts[..k])) {
      OvertakesPrefix(cfg, acts, k);
      var w := PlayAll(cfg, acts[..k]);
      forall a: Association, b: Association | Storing(w, a) && Storing(w, b) ensures a == b {
        GuardingOwns(cfg, acts[..k], a);
        GuardingOwns(cfg, acts[..k], b);
      }
    }
    ValueIsProcess(cfg, acts);
  }

  // ----- The deadline of a held selection

  /** The deadline an access stores, if any. */
  function Stores(cfg: Config, t: Worker, act: Act): Option<u64> {
    if !act.Tick? then None
    else
      match t.pc
      case Refresh(_, began) => Some(Due(began, cfg.timeout))
      case Stamp(_, began) => Some(Due(began, cfg.timeout))
      case Wipe(_, _, _) => Some(0)
      case ClearDeadline(_) => Some(0)
      case _ => None
  }

  function StoresAt(cfg: Config, acts: seq<Act>, e: nat): Option<u64>
    requires e < |acts|
  {
    Stores(cfg, WorkerOf(PlayAll(cfg, acts[..e]), acts[e].a), acts[e])
  }

  lemma PlayedDeadline(cfg: Config, sh: Shared, t: Worker, act: Act)
    ensures var stored := Stores(cfg, t, act);
      Played(cfg, sh, t, act).0.deadline == if stored.Some? then stored.value else sh.deadline
  {
    hide SameSequence, Permitted, Due, Expired, Begin;
  }

  /** Access `e` stored the deadline that stands. */
  ghost predicate LastStore(cfg: Config, acts: seq<Act>, e: nat) {
    && e < |acts| && StoresAt(cfg, acts, e) == Some(PlayAll(cfg, acts).shared.deadline)
    && forall k :: e < k < |acts| ==> StoresAt(cfg, acts, k).None?
  }

  lemma LastStoreStays(cfg: Config, acts: seq<Act>, e: nat)
    requires acts != [] && LastStore(cfg, acts[..|acts| - 1], e) && StoresAt(cfg, acts, |acts| - 1).None?
    ensures LastStore(cfg, acts, e)
  {
    hide Stores, Played;
    var n := |acts| - 1;
    var w := PlayAll(cfg, acts[..n]);
    PlayedDeadline(cfg, w.shared, WorkerOf(w, acts[n].a), acts[n]);
    forall k | e <= k < n ensures StoresAt(cfg, acts, k) == StoresAt(cfg, acts[..n], k) {
      assert acts[..n][..k] == acts[..k];
    }
  }

  /**
   An owner past its stamp has the deadline of its grant, unless another association has
   stored one since: only a foreign wipe, clear, stamp or refresh that comes late can
   make a selection permanent or cut it short.
   */
  lemma {:induction false} OwnerHasItsDeadline(cfg: Config, acts: seq<Act>, a: Association) returns (g: nat, e: nat)
    requires PlayAll(cfg, acts).shared.owner == a && !WorkerOf(PlayAll(cfg, acts), a).pc.Stamp?
    ensures HeldFrom(cfg, acts, g, a) && g <= e && LastStore(cfg, acts, e)
    ensures e != g ==> acts[e].a != a
  {
    hide Played, Stores, SameSequence;
    var n := |acts| - 1;
    var before, act := acts[..n], acts[n];
    var w := PlayAll(cfg, before);
    var t := WorkerOf(w, act.a);
    AwayMeansNotOwner(cfg, before, act.a);
    PlayedStep(cfg, w.shared, t, act, a);
    PlayedDeadline(cfg, w.shared, t, act);
    StoresWhen(cfg, t, act);
    assert acts[..n + 1] == acts;
    if act.a == a && GrantsNow(t, act) {
      g, e := n, n;
    } else {
      g, e := OwnerHasItsDeadline(cfg, before, a);
      GrantsPrefix(cfg, acts, n, g, a, WorkerOf(w, a).local.command);
      OwnedPrefix(cfg, acts, n, g, n, a);
      if StoresAt(cfg, acts, n).Some? {
        e := n;
      } else {
        LastStoreStays(cfg, acts, e);
      }
    }
  }

  lemma StoresWhen(cfg: Config, t: Worker, act: Act)
    ensures Stores(cfg, t, act).Some? ==> GrantsNow(t, act) || Away(t)
    ensures GrantsNow(t, act) ==> Stores(cfg, t, act) == Some(Due(t.pc.now, cfg.timeout))
  {
  }

  // ----- Calls one at a time

  lemma PlayNext(cfg: Config, acts: seq<Act>, act: Act)
    ensures PlayAll(cfg, acts + [act]) == Play(cfg, PlayAll(cfg, acts), act)
  {
    assert (acts + [act])[..|acts|] == acts;
  }

  function Ticks(a: Association, now: u64, applied: bool, n: nat): seq<Act> {
    if n == 0 then [] else [Tick(a, now, applied)] + Ticks(a, now, applied, n - 1)
  }

  lemma TickMoves(cfg: Config, w: Scene, tick: Act)
    requires tick.Tick?
    ensures var w' := Play(cfg, w, tick);
      && (w'.shared, WorkerOf(w', tick.a)) ==
         Move(cfg, w.shared, WorkerOf(w, tick.a), tick.a, tick.now, tick.applied)
      && (forall b :: b != tick.a ==> WorkerOf(w', b) == WorkerOf(w, b))
  {
    hide Move;
  }

  /** A worker moving `n` times while nobody else does. */
  lemma {:induction false} Serve(cfg: Config, acts: seq<Act>, a: Association, now: u64, applied: bool, n: nat)
    ensures var w, w' := PlayAll(cfg, acts), PlayAll(cfg, acts + Ticks(a, now, applied, n));
      && (w'.shared, WorkerOf(w', a)) == Moves(cfg, w.shared, WorkerOf(w, a), a, now, applied, n)
      && (forall b :: b != a ==> WorkerOf(w', b) == WorkerOf(w, b))
    decreases n
  {
    hide Move, Play, PlayAll, WorkerOf;
    var ticks := Ticks(a, now, applied, n);
    if n == 0 {
      assert acts + ticks == acts;
    } else {
      var tick := Tick(a, now, applied);
      PlayNext(cfg, acts, tick);
      TickMoves(cfg, PlayAll(cfg, acts), tick);
      Serve(cfg, acts + [tick], a, now, applied, n - 1);
      assert acts + ticks == acts + [tick] + Ticks(a, now, applied, n - 1);
    }
  }

  /** A run in which every call is begun and finished before the next one. */
  function OneAtATime(calls: seq<Call>): seq<Act>
    requires forall call <- calls :: call.a != 0
  {
    if calls == [] then []
    else
      var n := |calls| - 1;
      var call := calls[n];
      OneAtATime(calls[..n]) + [Ask(call.a, call.now, call.request)] +
      Ticks(call.a, call.now, Applies(call.request), LONGEST)
  }

  /** A scene between calls shows what the call-level world says. */
  ghost predicate Shows(v: Scene, w: World) {
    v.shared == w.shared && forall a :: WorkerOf(v, a) == Worker(Idle, LocalOf(w, a))
  }

  /**
   Calls made one at a time, each finished before the next starts, do access by access
   exactly what the whole-call model says: everything proved of that model holds of them.
   */
  lemma {:induction false} OneAtATimeIsWholeCalls(cfg: Config, calls: seq<Call>)
    requires cfg.model == SboEnhanced && forall call <- calls :: call.a != 0
    ensures Shows(PlayAll(cfg, OneAtATime(calls)), After(cfg, calls))
  {
    hide Moves, Move, Answer, Begin, Ticks;
    if calls != [] {
      var n := |calls| - 1;
      var call := calls[n];
      OneAtATimeIsWholeCalls(cfg, calls[..n]);
      var sofar := OneAtATime(calls[..n]);
      var w := After(cfg, calls[..n]);
      assert call in calls;
      var ask := Ask(call.a, call.now, call.request);
      PlayNext(cfg, sofar, ask);
      Serve(cfg, sofar + [ask], call.a, call.now, Applies(call.request), LONGEST);
      ServiceAlone(cfg, State(w.shared, LocalOf(w, call.a)), call);
      var v, v' := PlayAll(cfg, sofar), PlayAll(cfg, OneAtATime(calls));
      assert WorkerOf(v, call.a) == Worker(Idle, LocalOf(w, call.a));
      assert (v'.shared, WorkerOf(v', call.a)) ==
             (After(cfg, calls).shared, Worker(Idle, LocalOf(After(cfg, calls), call.a)));
      forall b | b != call.a ensures WorkerOf(v', b) == Worker(Idle, LocalOf(After(cfg, calls), b)) {
        assert WorkerOf(v, b) == WorkerOf(v', b);
      }
    }
  }

  // ----- Where interleaved accesses fall short of whole calls

  lemma Handle(cfg: Config, acts: seq<Act>, a: Association, now: u64, request: Request, n: nat)
    returns (acts': seq<Act>)
    requires WorkerOf(PlayAll(cfg, acts), a).pc == Idle
    ensures var w, w' := PlayAll(cfg, acts), PlayAll(cfg, acts');
      && (w'.shared, WorkerOf(w', a)) ==
         Moves(cfg, w.shared, Begin(cfg, WorkerOf(w, a), a, request, now), a, now, true, n)
      && (forall b :: b != a ==> WorkerOf(w', b) == WorkerOf(w, b))
    ensures acts' == acts + [Ask(a, now, request)] + Ticks(a, now, true, n)
  {
    hide Moves, Move, Begin;
    var ask := Ask(a, now, request);
    PlayNext(cfg, acts, ask);
    Serve(cfg, acts + [ask], a, now, true, n);
    acts' := acts + [ask] + Ticks(a, now, true, n);
  }

  const TRIAL: Config := Config(SboEnhanced, 100, Policy(true, false, false), true)
  const ON: Command := BLANK.(value := true)

  lemma SelectedAlone(acts: seq<Act>, a: Association, now: u64, c: Command) returns (acts': seq<Act>)
    requires var w := PlayAll(TRIAL, acts);
      WorkerOf(w, a) == QUIET && Acquire(TRIAL, w.shared, a, now).1 && Permitted(TRIAL.policy, c)
    ensures var w, w' := PlayAll(TRIAL, acts), PlayAll(TRIAL, acts');
      && w'.shared == Acquire(TRIAL, w.shared, a, now).0 && WorkerOf(w', a) == Grant(QUIET, c)
      && (forall b :: b != a ==> WorkerOf(w', b) == WorkerOf(w, b))
  {
    hide Moves, Move, Begin, PlayAll, Acquire;
    acts' := Handle(TRIAL, acts, a, now, WriteSbow(Some(c)), LONGEST);
    SbowAlone(TRIAL, State(PlayAll(TRIAL, acts).shared, FRESH), a, Some(c), now);
  }

  /** The owner check comes before the command is applied: two Opers, and opposite ones, can be past it together. */
  lemma TwoOpersPastTheCheck() returns (acts: seq<Act>, a: Association, b: Association)
    ensures var w := PlayAll(TRIAL, acts);
      && a != b && w.shared.owner == b
      && WorkerOf(w, a).pc == Apply(BLANK) && WorkerOf(w, b).pc == Apply(ON)
      && (forall x: Association :: x != a && x != b ==> WorkerOf(w, x) == QUIET)
  {
    hide Moves, PlayAll;
    a, b := 1, 2;
    var none: seq<Act> := [];
    Opened();
    var r1 := SelectedAlone(none, a, 0, BLANK);
    var r2 := Handle(TRIAL, r1, a, 50, WriteOper(Some(BLANK), true), 2);
    CheckedAlone(TRIAL, PlayAll(TRIAL, r1).shared, Grant(QUIET, BLANK), a, BLANK, 50);
    var r3 := SelectedAlone(r2, b, 100, ON);
    acts := Handle(TRIAL, r3, b, 101, WriteOper(Some(ON), true), 2);
    CheckedAlone(TRIAL, PlayAll(TRIAL, r3).shared, Grant(QUIET, ON), b, ON, 101);
    assert WorkerOf(PlayAll(TRIAL, acts), a).pc == Apply(BLANK);
  }

  /** Off is given to the process before on, and stored after it: both Opers are done and the two differ for good. */
  lemma ProcessAndValuePart() returns (acts: seq<Act>)
    ensures var w := PlayAll(TRIAL, acts);
      w.process && !w.shared.value && forall x: Association :: !Storing(w, x)
  {
    hide Moves, PlayAll;
    var r, a, b := TwoOpersPastTheCheck();
    var off, on := Tick(a, 102, true), Tick(b, 102, true);
    PlayNext(TRIAL, r, off);
    PlayNext(TRIAL, r + [off], on);
    PlayNext(TRIAL, r + [off] + [on], on);
    PlayNext(TRIAL, r + [off] + [on] + [on], off);
    acts := r + [off] + [on] + [on] + [off];
    var v, w := PlayAll(TRIAL, r), PlayAll(TRIAL, acts);
    forall x: Association ensures !Storing(w, x) {
      assert x != a && x != b ==> WorkerOf(w, x) == WorkerOf(v, x);
    }
  }

  lemma Opened()
    ensures PlayAll(TRIAL, []) == OPENING
  {
  }

  lemma CheckedAlone(cfg: Config, sh: Shared, t: Worker, a: Association, c: Command, now: u64)
    requires t.pc == Idle && sh.owner == a && !Expired(sh, now) && Permitted(cfg.policy, c)
    requires t.local.withValue && t.local.command == c && !t.local.pending
    ensures Moves(cfg, sh, Begin(cfg, t, a, WriteOper(Some(c), true), now), a, now, true, 2) == (sh, t.(pc := Apply(c)))
  {
    hide Moves, Permitted;
    var goal := ToOper(c);
    MoveOn(cfg, sh, t.(pc := CheckOwner(goal)), a, now, true, 2, sh, t.(pc := CheckDeadline(goal, now)));
    MoveOn(cfg, sh, t.(pc := CheckDeadline(goal, now)), a, now, true, 1, sh, t.(pc := Apply(c)));
    Rest(cfg, sh, t.(pc := Apply(c)), a, now);
  }

  lemma Rest(cfg: Config, sh: Shared, t: Worker, a: u64, now: u64)
    ensures Moves(cfg, sh, t, a, now, true, 0) == (sh, t)
  {
  }

  /** A release clears the deadline after it has let go: a selection granted in between never expires. */
  lemma LateClearMakesSelectionPermanent()
    ensures exists acts: seq<Act>, b: Association ::
      var w := PlayAll(TRIAL, acts);
      && w.shared.owner == b && WorkerOf(w, b) == Grant(QUIET, ON)
      && forall c: Association, now: u64 :: c != b ==> !Acquire(TRIAL, w.shared, c, now).1
  {
    hide Moves, PlayAll;
    var a: Association, b: Association := 1, 2;
    var none: seq<Act> := [];
    Opened();
    var r1 := SelectedAlone(none, a, 0, BLANK);
    var r2 := Handle(TRIAL, r1, a, 10, AssociationClosed, 1);
    var held, t := PlayAll(TRIAL, r1).shared, Grant(QUIET, BLANK);
    var freed, clearing := held.(owner := 0), t.(pc := ClearDeadline(FinishClose));
    MoveOn(TRIAL, held, t.(pc := ReleaseOwner(FinishClose)), a, 10, true, 1, freed, clearing);
    Rest(TRIAL, freed, clearing, a, 10);
    var r3 := SelectedAlone(r2, b, 20, ON);
    var tick := Tick(a, 30, true);
    PlayNext(TRIAL, r3, tick);
    var r4 := r3 + [tick];
    assert PlayAll(TRIAL, r4).shared.owner == b && PlayAll(TRIAL, r4).shared.deadline == 0;
    assert WorkerOf(PlayAll(TRIAL, r4), b) == Grant(QUIET, ON);
  }

  // ----- Every service ends

  /** How many accesses a worker can still need, whatever the others do. */
  function Left(pc: Pc): int {
    match pc
    case Idle => 0
    case LoadOwner(_, _, attempt) => 4 * (ATTEMPTS - attempt)
    case LoadDeadline(_, _, attempt, _) => 4 * (ATTEMPTS - attempt) - 1
    case Evict(_, _, attempt, _) => 4 * (ATTEMPTS - attempt) - 2
    case Wipe(_, _, attempt) => 4 * (ATTEMPTS - attempt) - 3
    case Claim(_, _, attempt) => 4 * (ATTEMPTS - attempt) - 2
    case Refresh(_, _) => 1
    case Stamp(_, _) => 1
    case CheckOwner(_) => 6
    case CheckDeadline(_, _) => 5
    case Apply(_) => 4
    case StoreValue(_) => 3
    case ReleaseOwner(_) => 2
    case ClearDeadline(_) => 1
  }

  const MOST_ACCESSES: int := 16

  function TicksOf(acts: seq<Act>, a: u64): nat {
    if acts == [] then 0
    else
      var n := |acts| - 1;
      TicksOf(acts[..n], a) + if acts[n].Tick? && acts[n].a == a then 1 else 0
  }

  lemma LeftNext(cfg: Config, sh: Shared, t: Worker, act: Act)
    requires 0 <= Left(t.pc) <= MOST_ACCESSES && (Left(t.pc) == 0 ==> t.pc == Idle)
    ensures var pc := Played(cfg, sh, t, act).1.pc;
      && 0 <= Left(pc) <= MOST_ACCESSES && (Left(pc) == 0 ==> pc == Idle)
      && (act.Tick? && t.pc != Idle ==> Left(pc) < Left(t.pc))
      && (act.Tick? && t.pc == Idle ==> pc == Idle)
  {
    hide Permitted, SameSequence, Due, Expired;
  }

  lemma {:induction false} AlwaysBounded(cfg: Config, acts: seq<Act>, a: u64)
    ensures var pc := WorkerOf(PlayAll(cfg, acts), a).pc;
      0 <= Left(pc) <= MOST_ACCESSES && (Left(pc) == 0 ==> pc == Idle)
  {
    if acts != [] {
      hide Left, Played;
      var n := |acts| - 1;
      AlwaysBounded(cfg, acts[..n], a);
      var w := PlayAll(cfg, acts[..n]);
      if acts[n].a == a {
        LeftNext(cfg, w.shared, WorkerOf(w, a), acts[n]);
      }
    } else {
      assert WorkerOf(PlayAll(cfg, acts), a) == QUIET;
    }
  }

  /** No service waits for another: whatever the others do, it has ended after sixteen accesses of its own. */
  lemma {:induction false} ServiceEnds(cfg: Config, acts: seq<Act>, from: nat, a: u64)
    requires from <= |acts| && forall k :: from <= k < |acts| && acts[k].a == a ==> acts[k].Tick?
    ensures var pc := WorkerOf(PlayAll(cfg, acts), a).pc;
      && (pc == Idle || Left(pc) + TicksOf(acts[from..], a) <= MOST_ACCESSES)
      && (TicksOf(acts[from..], a) >= MOST_ACCESSES ==> pc == Idle)
    decreases |acts|
  {
    AlwaysBounded(cfg, acts, a);
    if from < |acts| {
      hide Left, Played;
      var n := |acts| - 1;
      ServiceEnds(cfg, acts[..n], from, a);
      AlwaysBounded(cfg, acts[..n], a);
      assert acts[from..][..n - from] == acts[..n][from..];
      var w := PlayAll(cfg, acts[..n]);
      if acts[n].a == a {
        LeftNext(cfg, w.shared, WorkerOf(w, a), acts[n]);
      }
    } else {
      assert acts[from..] == [];
    }
  }

  lemma {:induction false} TicksOfTicks(acts: seq<Act>, b: Association, now: u64, n: nat, a: u64)
    ensures TicksOf(acts + Ticks(b, now, true, n), a) == TicksOf(acts, a) + if a == b then n else 0
    decreases n
  {
    if n == 0 {
      assert acts + Ticks(b, now, true, n) == acts;
    } else {
      var tick := Tick(b, now, true);
      TicksOfTicks(acts + [tick], b, now, n - 1, a);
      assert acts + Ticks(b, now, true, n) == acts + [tick] + Ticks(b, now, true, n - 1);
      assert (acts + [tick])[..|acts|] == acts;
    }
  }

  /** Association 2 selects and is evicted again before association 1 gets to its next attempt. */
  lemma Outrun(acts: seq<Act>, attempt: nat) returns (acts': seq<Act>)
    requires var w := PlayAll(TRIAL, acts);
      w.shared.owner == 0 && WorkerOf(w, 1) == QUIET.(pc := LoadOwner(BLANK, 200, attempt)) && WorkerOf(w, 2).pc == Idle
    ensures acts <= acts' && TicksOf(acts', 1) == TicksOf(acts, 1) + 3
    ensures var w := PlayAll(TRIAL, acts');
      w.shared.owner == 0 && WorkerOf(w, 1) == QUIET.(pc := Wipe(BLANK, 200, attempt)) && WorkerOf(w, 2).pc == Idle
  {
    hide Moves, PlayAll, TicksOf;
    var w := PlayAll(TRIAL, acts);
    var t, u := WorkerOf(w, 1), WorkerOf(w, 2);
    var ask := Ask(2, 0, WriteSbow(Some(ON)));
    var r := Handle(TRIAL, acts, 2, 0, WriteSbow(Some(ON)), 3);
    var taken := Shared(w.shared.value, 2, Due(0, 100));
    ClaimAlone(TRIAL, w.shared, u.(pc := LoadOwner(ON, 0, 0)), 2, ON, 0, 0, 3);
    Serve(TRIAL, r, 1, 200, true, 3);
    acts' := r + Ticks(1, 200, true, 3);
    var loaded, evicting := t.(pc := LoadDeadline(BLANK, 200, attempt, 2)), t.(pc := Evict(BLANK, 200, attempt, 2));
    var freed, wiping := taken.(owner := 0), t.(pc := Wipe(BLANK, 200, attempt));
    MoveOn(TRIAL, taken, t, 1, 200, true, 3, taken, loaded);
    MoveOn(TRIAL, taken, loaded, 1, 200, true, 2, taken, evicting);
    MoveOn(TRIAL, taken, evicting, 1, 200, true, 1, freed, wiping);
    Rest(TRIAL, freed, wiping, 1, 200);
    TicksOfAsk(acts, ask, 1);
    TicksOfTicks(acts + [ask], 2, 0, 3, 1);
    TicksOfTicks(r, 1, 200, 3, 1);
  }

  lemma TicksOfAsk(acts: seq<Act>, act: Act, a: u64)
    ensures TicksOf(acts + [act], a) == TicksOf(acts, a) + if act.Tick? && act.a == a then 1 else 0
  {
    assert (acts + [act])[..|acts|] == acts;
  }

  /** The wipe after an eviction leads to the next attempt. */
  lemma TryAgain(acts: seq<Act>, attempt: nat) returns (acts': seq<Act>)
    requires var w := PlayAll(TRIAL, acts);
      w.shared.owner == 0 && WorkerOf(w, 1) == QUIET.(pc := Wipe(BLANK, 200, attempt)) && WorkerOf(w, 2).pc == Idle
    ensures acts' == acts + [Tick(1, 200, true)] && TicksOf(acts', 1) == TicksOf(acts, 1) + 1
    ensures var w := PlayAll(TRIAL, acts');
      w.shared.owner == 0 && WorkerOf(w, 1) == Retry(QUIET, BLANK, 200, attempt) && WorkerOf(w, 2).pc == Idle
  {
    hide PlayAll, TicksOf;
    var tick := Tick(1, 200, true);
    acts' := acts + [tick];
    PlayNext(TRIAL, acts, tick);
    TicksOfAsk(acts, tick, 1);
  }

  /**
   The bound is met: a select that has evicted an expired owner in each of its attempts is
   still at work after fifteen accesses, and the sixteenth refuses it, with the object free.
   */
  lemma OutrunFourTimes() returns (acts: seq<Act>)
    ensures acts != [] && acts[0] == Ask(1, 200, WriteSbow(Some(BLANK))) && TicksOf(acts, 1) == MOST_ACCESSES - 1
    ensures WorkerOf(PlayAll(TRIAL, acts), 1).pc != Idle
    ensures var w := PlayAll(TRIAL, acts + [Tick(1, 200, true)]);
      w.shared.owner == 0 && WorkerOf(w, 1) == Refused(QUIET)
  {
    hide Moves, PlayAll;
    var none: seq<Act> := [];
    Opened();
    var ask := Ask(1, 200, WriteSbow(Some(BLANK)));
    acts := none + [ask];
    PlayNext(TRIAL, none, ask);
    TicksOfAsk(none, ask, 1);
    for attempt := 0 to 3
      invariant acts != [] && acts[0] == ask && TicksOf(acts, 1) == 4 * attempt
      invariant var w := PlayAll(TRIAL, acts);
        && w.shared.owner == 0 && WorkerOf(w, 1) == QUIET.(pc := LoadOwner(BLANK, 200, attempt))
        && WorkerOf(w, 2).pc == Idle
    {
      hide TicksOf;
      acts := Outrun(acts, attempt);
      acts := TryAgain(acts, attempt);
    }
    acts := Outrun(acts, 3);
    var last := TryAgain(acts, 3);
  }
}
