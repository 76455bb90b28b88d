/**
 The service callbacks of one association on a shared control object, each proved to do
 to its own and the shared fields what the specification of the call says.
 */
module SharedControlBinding {
  import opened Octets
  import opened SharedControl

  class SharedState {
    var value: bool
    var selectedAssociation: u64
    var selectionDeadline: u64

    constructor ()
      ensures View() == Shared(false, 0, 0)
    {
      value, selectedAssociation, selectionDeadline := false, 0, 0;
    }

    ghost function View(): Shared
      reads this
    {
      Shared(value, selectedAssociation, selectionDeadline)
    }

    method CompareExchangeOwner(expected: u64, desired: u64) returns (swapped: bool)
      modifies this`selectedAssociation
      ensures swapped <==> old(selectedAssociation) == expected
      ensures selectedAssociation == if swapped then desired else old(selectedAssociation)
    {
      swapped := selectedAssociation == expected;
      if swapped {
        selectedAssociation := desired;
      }
    }
  }

  class Binding {
    const cfg: Config
    const association: u64
    const shared: SharedState

    var value: bool
    var lastNumber: byte
    var lastTest: bool
    var accepted: nat
    var rejected: nat
    var selected: bool
    var withValue: bool
    var command: Command
    var pending: bool
    var termination: Command

    constructor (cfg: Config, association: u64, shared: SharedState)
      ensures this.cfg == cfg && this.association == association && this.shared == shared
      ensures View() == State(shared.View(), FRESH)
    {
      this.cfg, this.association, this.shared := cfg, association, shared;
      value, lastNumber, lastTest, accepted, rejected := false, 0, false, 0, 0;
      selected, withValue, command, pending, termination := false, false, BLANK, false, BLANK;
    }

    ghost function View(): State
      reads this, shared
    {
      State(shared.View(),
            Local(value, lastNumber, lastTest, accepted, rejected, selected, withValue, command, pending, termination))
    }

    method SelectionExpired(now: u64) returns (expired: bool)
      ensures expired == Expired(shared.View(), now)
    {
      expired := shared.selectionDeadline != 0 && now >= shared.selectionDeadline;
    }

    method ReleaseSelection()
      modifies this, shared
      ensures View() == Release(old(View()), association)
    {
      if association != 0 {
        var swapped := shared.CompareExchangeOwner(association, 0);
        if swapped {
          shared.selectionDeadline := 0;
        }
      }
      selected, withValue, command := false, false, BLANK;
    }

    /** Four attempts are enough when nobody interferes: at most one goes to an expired owner. */
    method AcquireSelection(now: u64) returns (ok: bool)
      modifies shared
      ensures (shared.View(), ok) == Acquire(cfg, old(shared.View()), association, now)
    {
      if association == 0 || cfg.timeout == 0 {
        return false;
      }
      var due := (now + cfg.timeout) % U64_LIMIT;
      for attempt := 0 to 4
        invariant Acquire(cfg, shared.View(), association, now) == Acquire(cfg, old(shared.View()), association, now)
        invariant attempt > 0 ==> shared.selectedAssociation == 0
        invariant attempt < 2
      {
        var owner := shared.selectedAssociation;
        if owner == association {
          shared.selectionDeadline := due;
          return true;
        }
        if owner != 0 {
          var expired := SelectionExpired(now);
          if !expired {
            return false;
          }
          var evicted := shared.CompareExchangeOwner(owner, 0);
          if !evicted {
            continue;
          }
          shared.selectionDeadline := 0;
          continue;
        }
        var claimed := shared.CompareExchangeOwner(0, association);
        if claimed {
          shared.selectionDeadline := due;
          return true;
        }
      }
      return false;
    }

    method OwnsLiveSelection(now: u64) returns (live: bool)
      modifies this, shared
      ensures (View(), live) == OwnsLive(old(View()), association, now)
    {
      if association == 0 || shared.selectedAssociation != association {
        return false;
      }
      var expired := SelectionExpired(now);
      if !expired {
        return true;
      }
      ReleaseSelection();
      return false;
    }

    method Reject(why: Failure) returns (outcome: Outcome)
      modifies this`rejected
      ensures (View(), outcome) == Rejected(old(View()), why)
    {
      rejected := rejected + 1;
      return Failed(why);
    }

    /** `applied` is the answer of the process callback, or true where there is none. */
    method ApplyOperate(decoded: Option<Command>, now: u64, applied: bool) returns (outcome: Outcome)
      modifies this, shared
      ensures (View(), outcome) == Operate(cfg, old(View()), association, decoded, now, applied)
    {
      if decoded.None? {
        outcome := Reject(Malformed);
        return;
      }
      var operate := decoded.value;
      if !Permitted(cfg.policy, operate) {
        outcome := Reject(InvalidValue);
        return;
      }
      if Selects(cfg.model) {
        var live := OwnsLiveSelection(now);
        if !live {
          outcome := Reject(Unavailable);
          return;
        }
      }
      if cfg.model == SboEnhanced && (!withValue || !SameSequence(command, operate, true)) {
        outcome := Reject(InvalidValue);
        return;
      }
      if Enhanced(cfg.model) && pending {
        outcome := Reject(Unavailable);
        return;
      }
      if !operate.test && !applied {
        outcome := Reject(Backend);
        return;
      }
      Carry(operate);
      return Done;
    }

    /** What an accepted Oper leaves behind. */
    method Carry(operate: Command)
      modifies this, shared
      ensures View() == Operated(cfg, old(View()), association, operate)
    {
      if !operate.test {
        shared.value := operate.value;
        value := operate.value;
      }
      lastNumber := operate.number;
      lastTest := operate.test;
      accepted := accepted + 1;
      if Selects(cfg.model) {
        ReleaseSelection();
      }
      if Enhanced(cfg.model) {
        termination := operate;
        pending := true;
      }
    }

    method ReadSbo(now: u64) returns (outcome: Outcome)
      modifies this, shared
      ensures (View(), outcome) == SelectRead(cfg, old(View()), association, now)
    {
      if cfg.model != SboNormal || !cfg.named {
        return Failed(NotHere);
      }
      var ok := AcquireSelection(now);
      if !ok {
        return Failed(Unavailable);
      }
      selected, withValue := true, false;
      return Done;
    }

    method WriteSbow(decoded: Option<Command>, now: u64) returns (outcome: Outcome)
      modifies this, shared
      ensures (View(), outcome) == SelectWithValue(cfg, old(View()), association, decoded, now)
    {
      if cfg.model != SboEnhanced {
        return Failed(InvalidValue);
      }
      if decoded.None? {
        outcome := Reject(Malformed);
        return;
      }
      if !Permitted(cfg.policy, decoded.value) {
        outcome := Reject(InvalidValue);
        return;
      }
      var ok := AcquireSelection(now);
      if !ok {
        outcome := Reject(Unavailable);
        return;
      }
      selected, withValue, command := true, true, decoded.value;
      return Done;
    }

    method WriteCancel(decoded: Option<Command>, now: u64) returns (outcome: Outcome)
      modifies this, shared
      ensures (View(), outcome) == Cancel(cfg, old(View()), association, decoded, now)
    {
      if !Selects(cfg.model) {
        return Failed(InvalidValue);
      }
      if decoded.None? {
        outcome := Reject(Malformed);
        return;
      }
      if !Permitted(cfg.policy, decoded.value) {
        outcome := Reject(InvalidValue);
        return;
      }
      var live := OwnsLiveSelection(now);
      if !live {
        outcome := Reject(InvalidValue);
        return;
      }
      if cfg.model == SboEnhanced && (!withValue || !SameSequence(command, decoded.value, false)) {
        outcome := Reject(InvalidValue);
        return;
      }
      ReleaseSelection();
      return Done;
    }

    method OnAssociationClosed()
      modifies this, shared
      ensures View() == Closed(old(View()), association)
    {
      ReleaseSelection();
      pending, termination := false, BLANK;
    }

    /** The contextual write callbacks first make sure that the caller is this binding's association. */
    method WriteOperContextual(caller: u64, callerNamed: bool, decoded: Option<Command>, now: u64, applied: bool)
      returns (outcome: Option<Outcome>)
      modifies this, shared
      ensures outcome.None? <==> caller == 0 || !callerNamed || caller != association
      ensures outcome.None? ==> View() == old(View())
      ensures outcome.Some? ==>
        (View(), outcome.value) == Operate(cfg, old(View()), association, decoded, now, applied)
    {
      if caller == 0 || !callerNamed || association == 0 || caller != association {
        return None;
      }
      var answer := ApplyOperate(decoded, now, applied);
      return Some(answer);
    }
  }
}
