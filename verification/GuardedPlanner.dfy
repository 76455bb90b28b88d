/**
 The planner object of guarded_control.cpp: the fields it keeps and updates in place.
 */
module GuardedPlanner {
  import opened Octets
  import opened Fnv
  import Spec = GuardedControl
  import opened GuardedControl

  class GuardedControlPlanner {
    const policy: Policy
    var activeSequence: Fingerprint
    var ownerAssociation: u64
    var selectionExpiresAt: u64
    var nextControlNumber: byte
    var selected: bool
    var waitingForTermination: bool

    ghost function View(): Planner
      reads this
    {
      Planner(selected, waitingForTermination, ownerAssociation, selectionExpiresAt, activeSequence, nextControlNumber)
    }

    constructor (policy: Policy)
      ensures this.policy == policy && View() == IDLE
    {
      this.policy := policy;
      activeSequence, ownerAssociation, selectionExpiresAt := NO_COMMAND, 0, 0;
      nextControlNumber, selected, waitingForTermination := 0, false, false;
    }

    method ClearActive()
      modifies this
      ensures View() == Cleared(old(View()))
    {
      activeSequence, ownerAssociation, selectionExpiresAt := NO_COMMAND, 0, 0;
      selected, waitingForTermination := false, false;
    }

    method ExpireSelection(now: u64)
      modifies this
      ensures View() == Expire(old(View()), now)
    {
      if selected && selectionExpiresAt != 0 && now >= selectionExpiresAt {
        ClearActive();
      }
    }

    method TakeFingerprint(s: Sequence, number: byte) returns (f: Fingerprint)
      ensures f == Print(s, number)
    {
      var valueHash := HashBytes(FNV_OFFSET, s.value);
      var originHash := HashBytes(FNV_OFFSET, s.origin);
      f := Fingerprint(valueHash, originHash, |s.value|, |s.origin|, s.originCategory, number, s.timestamp,
                       s.operateAt, s.test, s.interlockCheck, s.synchroCheck);
    }

    method AssignControlNumber(s: Sequence) returns (number: byte)
      modifies this`nextControlNumber
      ensures (View(), number) == Numbered(old(View()), s)
    {
      if s.controlNumber != 0 {
        return s.controlNumber;
      }
      nextControlNumber := if nextControlNumber >= 255 then 1 else nextControlNumber + 1;
      return nextControlNumber;
    }

    method Select(withValue: bool, client: u64, s: Sequence, now: u64, allowed: bool) returns (decision: Decision)
      modifies this
      ensures (View(), decision) == Spec.Select(policy, old(View()), withValue, client, s, now, allowed)
    {
      var action := if withValue then SelectWithValueAction else SelectAction;
      if policy.model != (if withValue then SboEnhanced else SboNormal) {
        return Decision(Unsupported, action, activeSequence.controlNumber);
      }
      if client == 0 {
        return Decision(InvalidIdentity, action, activeSequence.controlNumber);
      }
      if !s.Valid() {
        return Decision(InvalidSequence, action, activeSequence.controlNumber);
      }
      ExpireSelection(now);
      if waitingForTermination {
        return Decision(AlreadyInExecution, action, activeSequence.controlNumber);
      }
      if selected {
        return Decision(if ownerAssociation == client then AlreadySelected else LockedByOther, action,
                        activeSequence.controlNumber);
      }
      if !allowed {
        return Decision(Denied, action, activeSequence.controlNumber);
      }
      hide Print, Expire;
      var number := AssignControlNumber(s);
      activeSequence := TakeFingerprint(s, number);
      ownerAssociation := client;
      selectionExpiresAt := SelectionDeadline(policy, now);
      selected := true;
      return Decision(Ok, action, number);
    }

    method SequenceMatches(s: Sequence) returns (matches: bool)
      ensures matches == Matches(s, activeSequence)
    {
      var candidate := TakeFingerprint(
        s, if s.controlNumber == 0 then activeSequence.controlNumber else s.controlNumber);
      return candidate == activeSequence;
    }

    method Operate(client: u64, s: Sequence, now: u64, allowed: bool) returns (decision: Decision)
      modifies this
      ensures (View(), decision) == Spec.Operate(policy, old(View()), client, s, now, allowed)
    {
      hide Print, Matches;
      var number := activeSequence.controlNumber;
      if !policy.objectValid || policy.model == UnknownModel || policy.model == StatusOnly {
        return Decision(Unsupported, OperateAction, number);
      }
      if client == 0 {
        return Decision(InvalidIdentity, OperateAction, number);
      }
      if !s.Valid() {
        return Decision(InvalidSequence, OperateAction, number);
      }
      if waitingForTermination {
        return Decision(AlreadyInExecution, OperateAction, number);
      }
      if RequiresSelect(policy.model) {
        if selected && selectionExpiresAt != 0 && now >= selectionExpiresAt {
          ClearActive();
          return Decision(SelectionExpired, OperateAction, number);
        }
        if !selected {
          return Decision(NotSelected, OperateAction, number);
        }
        if ownerAssociation != client {
          return Decision(LockedByOther, OperateAction, number);
        }
        var matches := SequenceMatches(s);
        if !matches {
          ClearActive();
          return Decision(SequenceMismatch, OperateAction, number);
        }
      }
      if !allowed {
        if RequiresSelect(policy.model) {
          ClearActive();
        }
        return Decision(Denied, OperateAction, number);
      }
      decision := Accept(client, s);
    }

    /** The accepting end of operate: consume the selection or number a direct command, then wait or finish. */
    method Accept(client: u64, s: Sequence) returns (decision: Decision)
      modifies this
      ensures var p := old(View());
        var (n, number) := if RequiresSelect(policy.model)
                           then (p.(selected := false, expires := 0), p.active.controlNumber)
                           else
                             var (d, k) := Numbered(p, s);
                             (d.(active := Print(s, k), owner := client), k);
        (View(), decision) ==
          if Enhanced(policy.model) then (n.(waiting := true), Decision(AcceptedWaiting, OperateAction, number))
          else (Cleared(n), Decision(Ok, OperateAction, number))
    {
      hide Print;
      var number;
      if RequiresSelect(policy.model) {
        number := activeSequence.controlNumber;
        selected, selectionExpiresAt := false, 0;
      } else {
        number := AssignControlNumber(s);
        activeSequence := TakeFingerprint(s, number);
        ownerAssociation := client;
      }
      if Enhanced(policy.model) {
        waitingForTermination := true;
        return Decision(AcceptedWaiting, OperateAction, number);
      }
      ClearActive();
      return Decision(Ok, OperateAction, number);
    }

    method Cancel(client: u64, now: u64, allowed: bool) returns (decision: Decision)
      modifies this
      ensures (View(), decision) == Spec.Cancel(policy, old(View()), client, now, allowed)
    {
      var number := activeSequence.controlNumber;
      if !RequiresSelect(policy.model) {
        return Decision(Unsupported, CancelAction, number);
      }
      if client == 0 {
        return Decision(InvalidIdentity, CancelAction, number);
      }
      if selected && selectionExpiresAt != 0 && now >= selectionExpiresAt {
        ClearActive();
        return Decision(SelectionExpired, CancelAction, number);
      }
      if !selected {
        return Decision(NoActiveSelection, CancelAction, number);
      }
      if ownerAssociation != client {
        return Decision(LockedByOther, CancelAction, number);
      }
      if !allowed {
        return Decision(Denied, CancelAction, number);
      }
      ClearActive();
      return Decision(Ok, CancelAction, number);
    }

    method CommandTermination(positive: bool) returns (decision: Decision)
      modifies this
      ensures (View(), decision) == Terminate(old(View()), positive)
    {
      var number := activeSequence.controlNumber;
      if !waitingForTermination {
        return Decision(NoPendingTermination, OperateAction, number);
      }
      ClearActive();
      return Decision(if positive then PositiveTermination else NegativeTermination, OperateAction, number);
    }

    method OnAssociationClosed(association: u64)
      modifies this
      ensures View() == AssociationClosed(old(View()), association)
    {
      if association != 0 && ownerAssociation == association {
        ClearActive();
      }
    }
  }
}
