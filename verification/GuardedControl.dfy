/**
 Select-before-operate for one controllable object, as guarded_control.cpp plans it:
 ownership, timeout, an immutable command sequence, re-authorization and, with
 enhanced security, one outstanding command at a time.
 */
module GuardedControl {
  import opened Octets
  import opened Fnv

  datatype Model = StatusOnly | DirectNormal | SboNormal | DirectEnhanced | SboEnhanced | UnknownModel
  datatype Action = SelectAction | SelectWithValueAction | OperateAction | CancelAction

  datatype Status =
    | Ok | AcceptedWaiting | PositiveTermination | NegativeTermination | Unsupported | InvalidIdentity
    | InvalidSequence | Denied | NotSelected | AlreadySelected | LockedByOther | SelectionExpired
    | SequenceMismatch | AlreadyInExecution | NoActiveSelection | NoPendingTermination

  datatype Decision = Decision(status: Status, action: Action, controlNumber: byte)

  /** A command as the client states it; control number zero asks for automatic numbering. */
  datatype Sequence = Sequence(
    value: seq<byte>, originCategory: byte, origin: seq<byte>, controlNumber: byte, timestamp: u64,
    operateAt: u64, test: bool, interlockCheck: bool, synchroCheck: bool)
  {
    predicate Valid() {
      value != [] && |origin| <= 64 && originCategory <= 8
    }
  }

  datatype Fingerprint = Fingerprint(
    valueHash: u64, originHash: u64, valueBytes: nat, originBytes: nat, originCategory: byte,
    controlNumber: byte, timestamp: u64, operateAt: u64, test: bool, interlockCheck: bool, synchroCheck: bool)

  const NO_COMMAND: Fingerprint := Fingerprint(0, 0, 0, 0, 2, 0, 0, 0, false, false, false)

  function Print(s: Sequence, number: byte): Fingerprint {
    Fingerprint(Hash(FNV_OFFSET, s.value), Hash(FNV_OFFSET, s.origin), |s.value|, |s.origin|, s.originCategory,
                number, s.timestamp, s.operateAt, s.test, s.interlockCheck, s.synchroCheck)
  }

  predicate Matches(s: Sequence, selected: Fingerprint) {
    Print(s, if s.controlNumber == 0 then selected.controlNumber else s.controlNumber) == selected
  }

  /** A command differing from the selected one in one octet of value or origin, or in anything else, is no match. */
  lemma MatchTellsApart(s: Sequence, t: Sequence, number: byte)
    requires Matches(t, Print(s, number))
    ensures |t.value| == |s.value| && |t.origin| == |s.origin| && t.originCategory == s.originCategory
    ensures t.controlNumber == 0 || t.controlNumber == number
    ensures t.timestamp == s.timestamp && t.operateAt == s.operateAt && t.test == s.test
    ensures t.interlockCheck == s.interlockCheck && t.synchroCheck == s.synchroCheck
    ensures !OneOctetApart(s.value, t.value) && !OneOctetApart(s.origin, t.origin)
  {
    hide Hash, OneOctetApart;
    if OneOctetApart(s.value, t.value) {
      OneOctetTellsApart(FNV_OFFSET, s.value, t.value);
    }
    if OneOctetApart(s.origin, t.origin) {
      OneOctetTellsApart(FNV_OFFSET, s.origin, t.origin);
    }
  }

  predicate RequiresSelect(m: Model) {
    m == SboNormal || m == SboEnhanced
  }

  predicate Enhanced(m: Model) {
    m == DirectEnhanced || m == SboEnhanced
  }

  datatype Policy = Policy(model: Model, objectValid: bool, timeout: u64)

  datatype Planner = Planner(
    selected: bool, waiting: bool, owner: u64, expires: u64, active: Fingerprint, nextNumber: byte)

  const IDLE: Planner := Planner(false, false, 0, 0, NO_COMMAND, 0)

  function Cleared(p: Planner): Planner {
    IDLE.(nextNumber := p.nextNumber)
  }

  predicate Expired(p: Planner, now: u64) {
    p.selected && p.expires != 0 && now >= p.expires
  }

  function Expire(p: Planner, now: u64): Planner {
    if Expired(p, now) then Cleared(p) else p
  }

  function Reject(p: Planner, action: Action, status: Status): Decision {
    Decision(status, action, p.active.controlNumber)
  }

  function AutoNumber(p: Planner): byte {
    if p.nextNumber >= 255 then 1 else p.nextNumber + 1
  }

  function Numbered(p: Planner, s: Sequence): (Planner, byte) {
    if s.controlNumber != 0 then (p, s.controlNumber)
    else (p.(nextNumber := AutoNumber(p)), AutoNumber(p))
  }

  /** When a selection made at `now` lapses; zero is never. */
  function SelectionDeadline(policy: Policy, now: u64): u64 {
    if policy.timeout == 0 then 0
    else if now > U64_MAX - policy.timeout then U64_MAX
    else now + policy.timeout
  }

  /** select and select_with_value; `allowed` is what the authorization callback answers if asked. */
  function Select(policy: Policy, p: Planner, withValue: bool, client: u64, s: Sequence, now: u64, allowed: bool)
    : (Planner, Decision)
  {
    var action := if withValue then SelectWithValueAction else SelectAction;
    if policy.model != (if withValue then SboEnhanced else SboNormal) then (p, Reject(p, action, Unsupported))
    else if client == 0 then (p, Reject(p, action, InvalidIdentity))
    else if !s.Valid() then (p, Reject(p, action, InvalidSequence))
    else
      var e := Expire(p, now);
      if e.waiting then (e, Reject(e, action, AlreadyInExecution))
      else if e.selected then (e, Reject(e, action, if e.owner == client then AlreadySelected else LockedByOther))
      else if !allowed then (e, Reject(e, action, Denied))
      else
        var (n, number) := Numbered(e, s);
        (n.(active := Print(s, number), owner := client, expires := SelectionDeadline(policy, now), selected := true),
         Decision(Ok, action, number))
  }

  function Operate(policy: Policy, p: Planner, client: u64, s: Sequence, now: u64, allowed: bool): (Planner, Decision) {
    var sbo := RequiresSelect(policy.model);
    if !policy.objectValid || policy.model == UnknownModel || policy.model == StatusOnly
    then (p, Reject(p, OperateAction, Unsupported))
    else if client == 0 then (p, Reject(p, OperateAction, InvalidIdentity))
    else if !s.Valid() then (p, Reject(p, OperateAction, InvalidSequence))
    else if p.waiting then (p, Reject(p, OperateAction, AlreadyInExecution))
    else if sbo && Expired(p, now) then (Cleared(p), Reject(p, OperateAction, SelectionExpired))
    else if sbo && !p.selected then (p, Reject(p, OperateAction, NotSelected))
    else if sbo && p.owner != client then (p, Reject(p, OperateAction, LockedByOther))
    else if sbo && !Matches(s, p.active) then (Cleared(p), Reject(p, OperateAction, SequenceMismatch))
    else if !allowed then (if sbo then Cleared(p) else p, Reject(p, OperateAction, Denied))
    else
      var (n, number) := if sbo then (p.(selected := false, expires := 0), p.active.controlNumber)
                         else
                           var (d, k) := Numbered(p, s);
                           (d.(active := Print(s, k), owner := client), k);
      if Enhanced(policy.model) then (n.(waiting := true), Decision(AcceptedWaiting, OperateAction, number))
      else (Cleared(n), Decision(Ok, OperateAction, number))
  }

  function Cancel(policy: Policy, p: Planner, client: u64, now: u64, allowed: bool): (Planner, Decision) {
    if !RequiresSelect(policy.model) then (p, Reject(p, CancelAction, Unsupported))
    else if client == 0 then (p, Reject(p, CancelAction, InvalidIdentity))
    else if Expired(p, now) then (Cleared(p), Reject(p, CancelAction, SelectionExpired))
    else if !p.selected then (p, Reject(p, CancelAction, NoActiveSelection))
    else if p.owner != client then (p, Reject(p, CancelAction, LockedByOther))
    else if !allowed then (p, Reject(p, CancelAction, Denied))
    else (Cleared(p), Reject(p, CancelAction, Ok))
  }

  /** command_termination; positive means no error and an AddCause of unknown or none. */
  function Terminate(p: Planner, positive: bool): (Planner, Decision) {
    if !p.waiting then (p, Reject(p, OperateAction, NoPendingTermination))
    else (Cleared(p), Reject(p, OperateAction, if positive then PositiveTermination else NegativeTermination))
  }

  function AssociationClosed(p: Planner, association: u64): Planner {
    if association != 0 && p.owner == association then Cleared(p) else p
  }

  // ----- Every run

  datatype Call =
    | SelectCall(withValue: bool, client: u64, sequence: Sequence, now: u64, allowed: bool)
    | OperateCall(client: u64, sequence: Sequence, now: u64, allowed: bool)
    | CancelCall(client: u64, now: u64, allowed: bool)
    | TerminateCall(positive: bool)
    | ClosedCall(association: u64)
    | TickCall(now: u64)

  function Answer(policy: Policy, p: Planner, call: Call): (Planner, Option<Decision>) {
    match call
    case SelectCall(withValue, client, s, now, allowed) =>
      var (q, d) := Select(policy, p, withValue, client, s, now, allowed); (q, Some(d))
    case OperateCall(client, s, now, allowed) =>
      var (q, d) := Operate(policy, p, client, s, now, allowed); (q, Some(d))
    case CancelCall(client, now, allowed) => var (q, d) := Cancel(policy, p, client, now, allowed); (q, Some(d))
    case TerminateCall(positive) => var (q, d) := Terminate(p, positive); (q, Some(d))
    case ClosedCall(association) => (AssociationClosed(p, association), None)
    case TickCall(now) => (Expire(p, now), None)
  }

  function After(policy: Policy, calls: seq<Call>): Planner {
    if calls == [] then IDLE else Answer(policy, After(policy, calls[..|calls| - 1]), calls[|calls| - 1]).0
  }

  /** The status the last call was answered with. */
  function LastStatus(policy: Policy, calls: seq<Call>): Option<Status>
    requires calls != []
  {
    match Answer(policy, After(policy, calls[..|calls| - 1]), calls[|calls| - 1]).1
    case None => None
    case Some(d) => Some(d.status)
  }

  predicate Granted(policy: Policy, calls: seq<Call>) {
    calls != [] && calls[|calls| - 1].SelectCall? && LastStatus(policy, calls) == Some(Ok)
  }

  /** The clock a call carries has reached the deadline of a selection granted at `granted`. */
  predicate Late(policy: Policy, granted: u64, now: u64) {
    SelectionDeadline(policy, granted) != 0 && now >= SelectionDeadline(policy, granted)
  }

  /** The last call puts an end to a selection granted by `grant`, read off the call and its answer alone. */
  predicate Ends(policy: Policy, calls: seq<Call>, grant: Call)
    requires calls != [] && grant.SelectCall?
  {
    var status := LastStatus(policy, calls);
    match calls[|calls| - 1]
    case SelectCall(withValue, client, s, now, _) =>
      status !in {Some(Unsupported), Some(InvalidIdentity), Some(InvalidSequence)} && Late(policy, grant.now, now)
    case OperateCall(_, _, _, _) =>
      status in {Some(Ok), Some(AcceptedWaiting), Some(SelectionExpired), Some(SequenceMismatch), Some(Denied)}
    case CancelCall(_, _, _) => status in {Some(Ok), Some(SelectionExpired)}
    case TerminateCall(_) => false
    case ClosedCall(association) => association == grant.client
    case TickCall(now) => Late(policy, grant.now, now)
  }

  /** The granting call whose selection is still in force, from the record of calls and answers. */
  function InForce(policy: Policy, calls: seq<Call>): (r: Option<nat>)
    ensures r.Some? ==> r.value < |calls| && calls[r.value].SelectCall?
  {
    if calls == [] then None
    else if Granted(policy, calls) then Some(|calls| - 1)
    else
      var before := InForce(policy, calls[..|calls| - 1]);
      if before.Some? && Ends(policy, calls, calls[before.value]) then None else before
  }

  /** The number a granting call was answered with. */
  function GrantNumber(policy: Policy, calls: seq<Call>, j: nat): byte
    requires j < |calls| && calls[j].SelectCall?
  {
    Answer(policy, After(policy, calls[..j]), calls[j]).1.value.controlNumber
  }

  /** The planner's selection is exactly the one in force on the record. */
  ghost predicate Faithful(policy: Policy, calls: seq<Call>) {
    var p, j := After(policy, calls), InForce(policy, calls);
    && (p.selected <==> j.Some?)
    && (p.selected ==> !p.waiting)
    && (j.Some? ==>
          var g := calls[j.value];
          p.owner == g.client != 0 && p.expires == SelectionDeadline(policy, g.now) &&
          p.active == Print(g.sequence, GrantNumber(policy, calls, j.value)) &&
          RequiresSelect(policy.model))
  }

  lemma GrantNumberPrefix(policy: Policy, calls: seq<Call>, k: nat, j: nat)
    requires j < k <= |calls| && calls[j].SelectCall?
    ensures GrantNumber(policy, calls[..k], j) == GrantNumber(policy, calls, j)
  {
    assert calls[..k][..j] == calls[..j];
  }

  /** What the step to the last call starts from. */
  ghost predicate FaithfulSoFar(policy: Policy, calls: seq<Call>) {
    calls != [] && Faithful(policy, calls[..|calls| - 1])
  }

  /** The grant in force before the last call, if it survives it, is the same grant afterwards. */
  lemma SameGrant(policy: Policy, calls: seq<Call>)
    requires calls != []
    ensures var j := InForce(policy, calls[..|calls| - 1]);
      j.Some? ==>
        && calls[j.value] == calls[..|calls| - 1][j.value]
        && GrantNumber(policy, calls, j.value) == GrantNumber(policy, calls[..|calls| - 1], j.value)
  {
    hide Answer, After;
    var j := InForce(policy, calls[..|calls| - 1]);
    if j.Some? {
      GrantNumberPrefix(policy, calls, |calls| - 1, j.value);
    }
  }

  lemma FaithfulSelect(policy: Policy, calls: seq<Call>)
    requires FaithfulSoFar(policy, calls) && calls[|calls| - 1].SelectCall?
    ensures Faithful(policy, calls)
  {
    hide Print, Matches, Operate, Cancel;
    SameGrant(policy, calls);
  }

  lemma FaithfulOperate(policy: Policy, calls: seq<Call>)
    requires FaithfulSoFar(policy, calls) && calls[|calls| - 1].OperateCall?
    ensures Faithful(policy, calls)
  {
    hide Print, Matches, Select, Cancel;
    SameGrant(policy, calls);
  }

  lemma FaithfulCancel(policy: Policy, calls: seq<Call>)
    requires FaithfulSoFar(policy, calls) && calls[|calls| - 1].CancelCall?
    ensures Faithful(policy, calls)
  {
    hide Print, Matches, Select, Operate;
    SameGrant(policy, calls);
  }

  lemma FaithfulRest(policy: Policy, calls: seq<Call>)
    requires FaithfulSoFar(policy, calls)
    requires calls[|calls| - 1].TerminateCall? || calls[|calls| - 1].ClosedCall? || calls[|calls| - 1].TickCall?
    ensures Faithful(policy, calls)
  {
    hide Print, Matches, Select, Operate, Cancel;
    SameGrant(policy, calls);
  }

  lemma {:induction false} SelectionIsFaithful(policy: Policy, calls: seq<Call>)
    ensures Faithful(policy, calls)
  {
    if calls != [] {
      hide Faithful;
      SelectionIsFaithful(policy, calls[..|calls| - 1]);
      match calls[|calls| - 1]
      case SelectCall(_, _, _, _, _) => FaithfulSelect(policy, calls);
      case OperateCall(_, _, _, _) => FaithfulOperate(policy, calls);
      case CancelCall(_, _, _) => FaithfulCancel(policy, calls);
      case _ => FaithfulRest(policy, calls);
    }
  }

  /** Call k neither ended the selection granted by call j nor granted a new one. */
  predicate Kept(policy: Policy, calls: seq<Call>, j: nat, k: nat)
    requires j < |calls| && k < |calls| && calls[j].SelectCall?
  {
    !Granted(policy, calls[..k + 1]) && !Ends(policy, calls[..k + 1], calls[j])
  }

  lemma KeptPrefix(policy: Policy, calls: seq<Call>, n: nat, j: nat, k: nat)
    requires j < n <= |calls| && k < n && calls[j].SelectCall?
    ensures Kept(policy, calls[..n], j, k) == Kept(policy, calls, j, k)
    ensures Granted(policy, calls[..n][..k + 1]) == Granted(policy, calls[..k + 1])
  {
    hide Granted, Ends;
    assert calls[..n][..k + 1] == calls[..k + 1];
  }

  lemma InForceStep(policy: Policy, calls: seq<Call>)
    requires InForce(policy, calls).Some?
    ensures var j, last := InForce(policy, calls).value, |calls| - 1;
      if Granted(policy, calls) then j == last
      else InForce(policy, calls[..last]) == Some(j) && Kept(policy, calls, j, last)
  {
    hide Granted, Ends;
    assert calls[..|calls|] == calls;
  }

  /** In force means: granted, and neither ended nor granted anew by any later call. */
  lemma {:induction false} InForceSinceGrant(policy: Policy, calls: seq<Call>)
    requires InForce(policy, calls).Some?
    ensures Granted(policy, calls[..InForce(policy, calls).value + 1])
    ensures forall k :: InForce(policy, calls).value < k < |calls| ==>
      Kept(policy, calls, InForce(policy, calls).value, k)
  {
    hide *;
    var j, last := InForce(policy, calls).value, |calls| - 1;
    InForceStep(policy, calls);
    assert calls[..|calls|] == calls;
    if !Granted(policy, calls) {
      InForceSinceGrant(policy, calls[..last]);
      assert calls[j] == calls[..last][j];
      KeptPrefix(policy, calls, last, j, j);
      forall k | j < k < |calls| ensures Kept(policy, calls, j, k) {
        if k < last {
          KeptPrefix(policy, calls, last, j, k);
        }
      }
    }
  }

  /**
   Every Oper accepted on an SBO object executes a selection granted to the same
   association for a command with the same fingerprint, not yet late, re-authorized
   now, and neither cancelled, closed, refused, executed nor replaced in between.
   */
  lemma AcceptedOperateHadSelection(policy: Policy, calls: seq<Call>)
    requires calls != [] && calls[|calls| - 1].OperateCall? && RequiresSelect(policy.model)
    requires LastStatus(policy, calls) in {Some(Ok), Some(AcceptedWaiting)}
    ensures var j := InForce(policy, calls[..|calls| - 1]);
      && j.Some?
      && Granted(policy, calls[..j.value + 1])
      && (forall k :: j.value < k < |calls| - 1 ==> Kept(policy, calls, j.value, k))
      && var g, o := calls[j.value], calls[|calls| - 1];
         g.client == o.client && !Late(policy, g.now, o.now) && o.allowed &&
         Matches(o.sequence, Print(g.sequence, GrantNumber(policy, calls, j.value)))
  {
    var k := |calls| - 1;
    SelectionIsFaithful(policy, calls[..k]);
    var j := InForce(policy, calls[..k]);
    if j.Some? {
      GrantNumberPrefix(policy, calls, k, j.value);
      assert calls[j.value] == calls[..k][j.value];
      InForceSinceGrant(policy, calls[..k]);
      assert calls[..k][..j.value + 1] == calls[..j.value + 1];
      forall m | j.value < m < k ensures Kept(policy, calls, j.value, m) {
        KeptPrefix(policy, calls, k, j.value, m);
      }
    }
    hide Print, Kept, Granted;
  }

  // ----- Enhanced security: one outstanding command

  /** The accepted enhanced Oper that is still owed a CommandTermination, from the record of calls and answers. */
  function Awaiting(policy: Policy, calls: seq<Call>): (r: Option<nat>)
    ensures r.Some? ==> r.value < |calls| && calls[r.value].OperateCall?
  {
    if calls == [] then None
    else
      var last := calls[|calls| - 1];
      var before := Awaiting(policy, calls[..|calls| - 1]);
      if last.OperateCall? && LastStatus(policy, calls) == Some(AcceptedWaiting) then Some(|calls| - 1)
      else if before.Some? && (last.TerminateCall? ||
                               (last.ClosedCall? && last.association == calls[before.value].client))
      then None
      else before
  }

  function OperateNumber(policy: Policy, calls: seq<Call>, j: nat): byte
    requires j < |calls| && calls[j].OperateCall?
  {
    Answer(policy, After(policy, calls[..j]), calls[j]).1.value.controlNumber
  }

  ghost predicate Owed(policy: Policy, calls: seq<Call>) {
    var p, j := After(policy, calls), Awaiting(policy, calls);
    && (p.waiting <==> j.Some?)
    && (p.waiting ==> !p.selected) && (p.selected ==> RequiresSelect(policy.model))
    && (j.Some? ==> p.owner == calls[j.value].client != 0 &&
                    p.active.controlNumber == OperateNumber(policy, calls, j.value))
  }

  lemma {:induction false} WaitingIsOwed(policy: Policy, calls: seq<Call>)
    ensures Owed(policy, calls)
  {
    if calls != [] {
      var k := |calls| - 1;
      WaitingIsOwed(policy, calls[..k]);
      var j := Awaiting(policy, calls[..k]);
      if j.Some? {
        assert calls[..k][..j.value] == calls[..j.value];
        assert calls[j.value] == calls[..k][j.value];
      }
      assert calls[..k] == calls[..|calls| - 1];
      hide Hash, Matches;
    }
  }

  lemma WaitsOnlyFromRest(policy: Policy, p: Planner, call: Call)
    requires p.waiting ==> !p.selected
    ensures var d := Answer(policy, p, call).1;
      d.Some? && d.value.status == AcceptedWaiting ==> !p.waiting && call.OperateCall?
  {
    hide Hash, Matches, Print;
  }

  /** No Oper is accepted while a command is owed its termination; the termination carries that command's number. */
  lemma OneCommandAtATime(policy: Policy, calls: seq<Call>)
    requires calls != []
    ensures LastStatus(policy, calls) == Some(AcceptedWaiting) ==> Awaiting(policy, calls[..|calls| - 1]) == None
    ensures calls[|calls| - 1].TerminateCall? ==>
      var owed, d := Awaiting(policy, calls[..|calls| - 1]),
                     Answer(policy, After(policy, calls[..|calls| - 1]), calls[|calls| - 1]).1.value;
      if owed.None? then d.status == NoPendingTermination
      else d.status in {PositiveTermination, NegativeTermination} &&
           d.controlNumber == OperateNumber(policy, calls, owed.value) && Awaiting(policy, calls) == None
  {
    var k := |calls| - 1;
    WaitingIsOwed(policy, calls[..k]);
    var j := Awaiting(policy, calls[..k]);
    WaitsOnlyFromRest(policy, After(policy, calls[..k]), calls[k]);
    hide Select, Operate, Cancel, Hash, Matches, Print;
    if j.Some? {
      assert calls[..k][..j.value] == calls[..j.value];
    }
  }

  // ----- And the other way round: what is due is granted

  /** An Oper on an SBO object is accepted exactly if a matching selection of its client is in force and not late. */
  lemma OperateAcceptedExactly(policy: Policy, calls: seq<Call>)
    requires calls != [] && calls[|calls| - 1].OperateCall? && RequiresSelect(policy.model)
    ensures var o, j := calls[|calls| - 1], InForce(policy, calls[..|calls| - 1]);
      LastStatus(policy, calls) in {Some(Ok), Some(AcceptedWaiting)} <==>
        && policy.objectValid && o.sequence.Valid() && o.allowed
        && j.Some? && calls[j.value].client == o.client && !Late(policy, calls[j.value].now, o.now)
        && Matches(o.sequence, Print(calls[j.value].sequence, GrantNumber(policy, calls, j.value)))
  {
    hide Print, Matches, Hash;
    var k := |calls| - 1;
    SelectionIsFaithful(policy, calls[..k]);
    var j := InForce(policy, calls[..k]);
    if j.Some? {
      GrantNumberPrefix(policy, calls, k, j.value);
      assert calls[j.value] == calls[..k][j.value];
    }
  }

  /**
   A well-formed Select is granted exactly if it is authorized, no command awaits its
   termination, and no selection is in force or the one in force is late.
   */
  lemma SelectGrantedExactly(policy: Policy, calls: seq<Call>)
    requires calls != [] && calls[|calls| - 1].SelectCall?
    requires policy.model == if calls[|calls| - 1].withValue then SboEnhanced else SboNormal
    ensures var s, before := calls[|calls| - 1], calls[..|calls| - 1];
      var j := InForce(policy, before);
      Granted(policy, calls) <==>
        && s.client != 0 && s.sequence.Valid() && s.allowed && Awaiting(policy, before).None?
        && (j.None? || Late(policy, before[j.value].now, s.now))
  {
    hide Print, Matches, Hash;
    SelectionIsFaithful(policy, calls[..|calls| - 1]);
    WaitingIsOwed(policy, calls[..|calls| - 1]);
  }

  /** The selection in force before the last call, as far as the last call can see it. */
  lemma StandingBefore(policy: Policy, calls: seq<Call>)
    requires calls != []
    ensures var p, before := After(policy, calls[..|calls| - 1]), calls[..|calls| - 1];
      var j := InForce(policy, before);
      && (p.waiting <==> Awaiting(policy, before).Some?)
      && (p.selected <==> j.Some?)
      && (j.Some? ==>
            && p.owner == calls[j.value].client && p.expires == SelectionDeadline(policy, calls[j.value].now)
            && p.active == Print(calls[j.value].sequence, GrantNumber(policy, calls, j.value)))
  {
    hide Print, Hash, After, InForce, Awaiting, SelectionDeadline;
    var k := |calls| - 1;
    SelectionIsFaithful(policy, calls[..k]);
    WaitingIsOwed(policy, calls[..k]);
    var j := InForce(policy, calls[..k]);
    if j.Some? {
      GrantNumberPrefix(policy, calls, k, j.value);
      assert calls[j.value] == calls[..k][j.value];
    }
  }

  /** How an Oper is answered, told from the record of calls. */
  ghost function OperateStatus(policy: Policy, calls: seq<Call>): Status
    requires calls != [] && calls[|calls| - 1].OperateCall?
  {
    var o, before := calls[|calls| - 1], calls[..|calls| - 1];
    var j, sbo := InForce(policy, before), RequiresSelect(policy.model);
    if !policy.objectValid || policy.model in {UnknownModel, StatusOnly} then Unsupported
    else if o.client == 0 then InvalidIdentity
    else if !o.sequence.Valid() then InvalidSequence
    else if Awaiting(policy, before).Some? then AlreadyInExecution
    else if sbo && j.None? then NotSelected
    else if sbo && Late(policy, calls[j.value].now, o.now) then SelectionExpired
    else if sbo && calls[j.value].client != o.client then LockedByOther
    else if sbo && !Matches(o.sequence, Print(calls[j.value].sequence, GrantNumber(policy, calls, j.value)))
    then SequenceMismatch
    else if !o.allowed then Denied
    else if Enhanced(policy.model) then AcceptedWaiting
    else Ok
  }

  /** Every answer to an Oper, on every model and after every run, is the one the record calls for. */
  lemma OperateAnswers(policy: Policy, calls: seq<Call>)
    requires calls != [] && calls[|calls| - 1].OperateCall?
    ensures LastStatus(policy, calls) == Some(OperateStatus(policy, calls))
  {
    hide Print, Matches, Hash, After, InForce, Awaiting, SelectionDeadline;
    StandingBefore(policy, calls);
  }

  /**
   An Oper on a direct object is accepted exactly if object, client and sequence are
   valid, it is authorized, and no command awaits its termination; enhanced security
   answers that it waits.
   */
  lemma DirectOperateAcceptedExactly(policy: Policy, calls: seq<Call>)
    requires calls != [] && calls[|calls| - 1].OperateCall? && policy.model in {DirectNormal, DirectEnhanced}
    ensures var o, status := calls[|calls| - 1], LastStatus(policy, calls);
      && (status in {Some(Ok), Some(AcceptedWaiting)} <==>
            && policy.objectValid && o.client != 0 && o.sequence.Valid() && o.allowed
            && Awaiting(policy, calls[..|calls| - 1]).None?)
      && (status == Some(AcceptedWaiting) ==> policy.model == DirectEnhanced)
      && (status == Some(Ok) ==> policy.model == DirectNormal)
  {
    hide LastStatus, InForce, Awaiting;
    OperateAnswers(policy, calls);
  }

  /** How a Select is answered, told from the record of calls. */
  ghost function SelectStatus(policy: Policy, calls: seq<Call>): Status
    requires calls != [] && calls[|calls| - 1].SelectCall?
  {
    var s, before := calls[|calls| - 1], calls[..|calls| - 1];
    var j := InForce(policy, before);
    if policy.model != (if s.withValue then SboEnhanced else SboNormal) then Unsupported
    else if s.client == 0 then InvalidIdentity
    else if !s.sequence.Valid() then InvalidSequence
    else if Awaiting(policy, before).Some? then AlreadyInExecution
    else if j.Some? && !Late(policy, calls[j.value].now, s.now)
    then (if calls[j.value].client == s.client then AlreadySelected else LockedByOther)
    else if !s.allowed then Denied
    else Ok
  }

  lemma SelectAnswers(policy: Policy, calls: seq<Call>)
    requires calls != [] && calls[|calls| - 1].SelectCall?
    ensures LastStatus(policy, calls) == Some(SelectStatus(policy, calls))
  {
    hide Print, Matches, Hash, After, InForce, Awaiting, SelectionDeadline;
    StandingBefore(policy, calls);
    WaitingExcludesSelected(policy, calls[..|calls| - 1]);
  }

  lemma WaitingExcludesSelected(policy: Policy, calls: seq<Call>)
    ensures !(After(policy, calls).waiting && After(policy, calls).selected)
  {
    hide After, InForce, Awaiting;
    WaitingIsOwed(policy, calls);
  }

  /** How a Cancel is answered, told from the record of calls. */
  ghost function CancelStatus(policy: Policy, calls: seq<Call>): Status
    requires calls != [] && calls[|calls| - 1].CancelCall?
  {
    var c, j := calls[|calls| - 1], InForce(policy, calls[..|calls| - 1]);
    if !RequiresSelect(policy.model) then Unsupported
    else if c.client == 0 then InvalidIdentity
    else if j.None? then NoActiveSelection
    else if Late(policy, calls[j.value].now, c.now) then SelectionExpired
    else if calls[j.value].client != c.client then LockedByOther
    else if !c.allowed then Denied
    else Ok
  }

  lemma CancelAnswers(policy: Policy, calls: seq<Call>)
    requires calls != [] && calls[|calls| - 1].CancelCall?
    ensures LastStatus(policy, calls) == Some(CancelStatus(policy, calls))
  {
    hide Print, Matches, Hash, After, InForce, Awaiting, SelectionDeadline;
    StandingBefore(policy, calls);
  }

  // ----- Control numbers

  /** The last call was accepted and left its number to the planner. */
  predicate TakesNumber(policy: Policy, calls: seq<Call>)
    requires calls != []
  {
    var last, status := calls[|calls| - 1], LastStatus(policy, calls);
    || (last.SelectCall? && last.sequence.controlNumber == 0 && status == Some(Ok))
    || (last.OperateCall? && last.sequence.controlNumber == 0 && !RequiresSelect(policy.model) &&
        status in {Some(Ok), Some(AcceptedWaiting)})
  }

  function NumbersTaken(policy: Policy, calls: seq<Call>): nat {
    if calls == [] then 0
    else NumbersTaken(policy, calls[..|calls| - 1]) + if TakesNumber(policy, calls) then 1 else 0
  }

  /** The number that the k-th such call gets: 1 to 255 in turn. */
  function TurnOf(k: nat): byte {
    if k == 0 then 0 else 1 + (k - 1) % 255
  }

  lemma NextTurn(k: nat)
    ensures TurnOf(k + 1) == if TurnOf(k) >= 255 then 1 else TurnOf(k) + 1
  {
    if k != 0 {
      ModSuccessor(k - 1, 255);
    }
  }

  /** After every run the planner's counter stands where the calls it numbered have brought it. */
  lemma {:induction false} NumbersInTurn(policy: Policy, calls: seq<Call>)
    ensures After(policy, calls).nextNumber == TurnOf(NumbersTaken(policy, calls))
  {
    if calls != [] {
      var k := |calls| - 1;
      NumbersInTurn(policy, calls[..k]);
      NextTurn(NumbersTaken(policy, calls[..k]));
      StepNumber(policy, After(policy, calls[..k]), calls[k]);
      hide Print, Matches, Hash, TurnOf, Expired;
    }
  }

  lemma StepNumber(policy: Policy, p: Planner, call: Call)
    ensures var (p', d) := Answer(policy, p, call);
      p'.nextNumber ==
        if (&& call.SelectCall? && call.sequence.controlNumber == 0 && d.value.status == Ok) ||
           (&& call.OperateCall? && call.sequence.controlNumber == 0 && !RequiresSelect(policy.model)
            && d.value.status in {Ok, AcceptedWaiting})
        then AutoNumber(p) else p.nextNumber
  {
    hide Print, Matches, Hash, Expired;
  }

  /** A grant or a direct Oper is answered with the number it brought, or with the one whose turn it is. */
  lemma NumberAnswered(policy: Policy, calls: seq<Call>)
    requires calls != [] && LastStatus(policy, calls) in {Some(Ok), Some(AcceptedWaiting)}
    requires calls[|calls| - 1].SelectCall? || (calls[|calls| - 1].OperateCall? && !RequiresSelect(policy.model))
    ensures var last, before := calls[|calls| - 1], calls[..|calls| - 1];
      Answer(policy, After(policy, before), last).1.value.controlNumber ==
        if last.sequence.controlNumber != 0 then last.sequence.controlNumber
        else TurnOf(NumbersTaken(policy, before) + 1)
  {
    hide Print, Matches, Hash, TurnOf, After, NumbersTaken;
    var before := calls[..|calls| - 1];
    NumbersInTurn(policy, before);
    NextTurn(NumbersTaken(policy, before));
  }

  /** An Oper on an SBO object is answered with the number of the selection it executes. */
  lemma SelectedNumberAnswered(policy: Policy, calls: seq<Call>)
    requires calls != [] && LastStatus(policy, calls) in {Some(Ok), Some(AcceptedWaiting)}
    requires calls[|calls| - 1].OperateCall? && RequiresSelect(policy.model)
    ensures var last, before := calls[|calls| - 1], calls[..|calls| - 1];
      var j := InForce(policy, before);
      && j.Some?
      && Answer(policy, After(policy, before), last).1.value.controlNumber == GrantNumber(policy, calls, j.value)
  {
    hide Matches, Hash, After, InForce, Awaiting, SelectionDeadline, GrantNumber;
    StandingBefore(policy, calls);
  }

  // ----- What the planner cannot see

  /** The fields of which the planner keeps the values themselves. */
  predicate SamePlain(s: Sequence, t: Sequence, number: byte) {
    && t.originCategory == s.originCategory && (t.controlNumber == 0 || t.controlNumber == number)
    && t.timestamp == s.timestamp && t.operateAt == s.operateAt && t.test == s.test
    && t.interlockCheck == s.interlockCheck && t.synchroCheck == s.synchroCheck
  }

  /** A command matches the selected one exactly if the plain fields agree and value and origin are equal or collide. */
  lemma MatchesExactly(s: Sequence, t: Sequence, number: byte)
    ensures Matches(t, Print(s, number)) <==>
      && SamePlain(s, t, number)
      && (t.value == s.value || Collide(s.value, t.value)) && (t.origin == s.origin || Collide(s.origin, t.origin))
    ensures Matches(t, Print(s, number)) && |s.value| <= 1 && |s.origin| <= 1 ==>
      t.value == s.value && t.origin == s.origin
  {
    hide Hash;
    if |s.value| <= 1 && |s.origin| <= 1 && |t.value| == |s.value| && |t.origin| == |s.origin| {
      ShortTextsDoNotCollide(s.value, t.value);
      ShortTextsDoNotCollide(s.origin, t.origin);
    }
  }

  /**
   An Oper on an SBO object is accepted exactly if it is valid and authorized, a selection
   of its client is in force and not late, the plain fields are those selected, and value
   and origin are those selected or collide with them. A selection with a value and an
   origin of at most one octet each is executed as selected.
   */
  lemma AcceptedOperateIsSelectedExactly(policy: Policy, calls: seq<Call>)
    requires calls != [] && calls[|calls| - 1].OperateCall? && RequiresSelect(policy.model)
    ensures var o, j := calls[|calls| - 1], InForce(policy, calls[..|calls| - 1]);
      LastStatus(policy, calls) in {Some(Ok), Some(AcceptedWaiting)} <==>
        && policy.objectValid && o.sequence.Valid() && o.allowed
        && j.Some? && calls[j.value].client == o.client && !Late(policy, calls[j.value].now, o.now)
        && var g := calls[j.value].sequence;
           && SamePlain(g, o.sequence, GrantNumber(policy, calls, j.value))
           && (o.sequence.value == g.value || Collide(g.value, o.sequence.value))
           && (o.sequence.origin == g.origin || Collide(g.origin, o.sequence.origin))
    ensures var o, j := calls[|calls| - 1].sequence, InForce(policy, calls[..|calls| - 1]);
      LastStatus(policy, calls) in {Some(Ok), Some(AcceptedWaiting)} ==>
        && j.Some?
        && var g := calls[j.value].sequence;
           |g.value| <= 1 && |g.origin| <= 1 ==> o.value == g.value && o.origin == g.origin
  {
    hide Hash, Matches, Print, Collide, SamePlain, Late;
    OperateAcceptedExactly(policy, calls);
    var j := InForce(policy, calls[..|calls| - 1]);
    if j.Some? {
      MatchesExactly(calls[j.value].sequence, calls[|calls| - 1].sequence, GrantNumber(policy, calls, j.value));
    }
  }

  /** A Select and then an Oper of the same client, accepted. */
  ghost predicate Accepted(policy: Policy, calls: seq<Call>, selected: Sequence, operated: Sequence) {
    && |calls| == 2 && calls[0].SelectCall? && calls[1].OperateCall? && calls[0].client == calls[1].client
    && calls[0].sequence == selected && calls[1].sequence == operated
    && RequiresSelect(policy.model) && LastStatus(policy, calls) == Some(Ok)
  }

  lemma ColliderAccepted(selected: Sequence, operated: Sequence) returns (policy: Policy, calls: seq<Call>)
    requires selected.Valid() && operated.Valid() && selected.controlNumber == operated.controlNumber == 1
    requires Print(operated, 1) == Print(selected, 1)
    ensures Accepted(policy, calls, selected, operated)
  {
    hide Hash;
    policy := Policy(SboNormal, true, 100);
    var select, operate := SelectCall(false, 1, selected, 0, true), OperateCall(1, operated, 0, true);
    calls := [select, operate];
    assert calls[..1] == [select] && |[select][..0]| == 0;
    assert After(policy, [select]) == Answer(policy, After(policy, [select][..0]), select).0;
    var p := After(policy, [select]);
    assert p.selected && p.owner == 1 && p.active == Print(selected, 1) && p.expires == 100;
    assert LastStatus(policy, calls) == Some(Ok);
  }

  /** It happens: a command is selected, one of another originator is operated, and the planner accepts it. */
  lemma OtherOriginOperated()
    returns (policy: Policy, calls: seq<Call>, selected: Sequence, operated: Sequence)
    ensures Accepted(policy, calls, selected, operated)
    ensures operated == selected.(origin := operated.origin) && operated.origin != selected.origin
    ensures selected.value == [0x83, 1, 1]
  {
    hide Hash;
    TextsCollide();
    selected := Sequence([0x83, 1, 1], 0, FIRST_TEXT, 1, 0, 0, false, false, false);
    operated := selected.(origin := SECOND_TEXT);
    policy, calls := ColliderAccepted(selected, operated);
  }

  /** Nor does the planner look into a value: one is selected, another operated. */
  lemma OtherValueOperated()
    returns (policy: Policy, calls: seq<Call>, selected: Sequence, operated: Sequence)
    ensures Accepted(policy, calls, selected, operated)
    ensures operated == selected.(value := operated.value) && operated.value != selected.value
  {
    hide Hash;
    TextsCollide();
    selected := Sequence(FIRST_TEXT, 0, [], 1, 0, 0, false, false, false);
    operated := selected.(value := SECOND_TEXT);
    policy, calls := ColliderAccepted(selected, operated);
  }
}
