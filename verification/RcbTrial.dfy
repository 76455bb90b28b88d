/**
 The dynamic report control block trial: a client searches a free control block, defines
 a DataSet, binds and enables the block on it, and takes everything down again, whatever
 reply it gets on the way (dynamic_rcb_trial.cpp and report_subscription_runtime.cpp).
 */
module RcbTrial {
  import opened Octets
  import opened RcbServer
  import opened RcbFailover

  datatype Attribute = DatSet | RptEna | Resv | Gi
  datatype Event = Wrote(attribute: Attribute) | Note
  datatype Stage = Idle | Working | Active | Stopped | CleanupRequired | Faulted

  /** What a deletion found on the server: nothing of this run's doing, save where the run could not know. */
  ghost predicate CleanDeletes(log: seq<Sent>, rcb: nat, garbled: set<Request>, forgot: bool) {
    forall s <- log :: s.request == Delete ==>
      var b := BlockOf(s.before, rcb);
      && (b.binding == Us ==> BindDatSet(rcb) in garbled || forgot)
      && (b.enabled == Us ==> WriteRptEna(rcb, true) in garbled)
      && (b.reserved == Us ==> WriteResv(rcb, true) in garbled)
  }

  /** A binding of others was to be cleared. */
  ghost predicate ClearsForeign(log: seq<Sent>, rcb: nat) {
    exists s :: s in log && s.request == ClearDatSet(rcb) && BlockOf(s.before, rcb).binding == Others
  }

  /** No block but `rcb` is written to. */
  ghost predicate WritesOnly(log: seq<Sent>, rcb: nat) {
    forall s <- log :: Mutates(s.request) && Target(s.request).Some? ==> Target(s.request) == Some(rcb)
  }

  /** At most `maximum` events are kept, the DatSet write being the one `later` places from the end, if any. */
  ghost predicate Places(events: seq<Event>, maximum: nat, wrote: bool, later: nat) {
    && maximum > 0 && |events| <= maximum
    && (wrote ==> later < |events| || |events| == maximum)
    && (forall i :: 0 <= i < |events| ==> (events[i] == Wrote(DatSet) <==> wrote && i == |events| - 1 - later))
  }

  /** The server does what it is asked and says so, but for the one thing it gets wrong. */
  ghost predicate Faulty(association: Association) {
    Behaves(association, RefusesUnbind) || Behaves(association, GarblesBind)
  }

  ghost predicate Obliging(association: Association) {
    Faulty(association) || Behaves(association, Flawless)
  }

  /** Some read showed this run's name in the block, and if this run wrote it, with its binding there. */
  ghost predicate SawBound(association: Association, rcb: nat, wrote: bool) {
    exists i: nat, r: Remote :: Shows(association, i, r, rcb, OURS) && (wrote ==> BlockOf(r, rcb).binding == Us)
  }

  ghost predicate ShowsEnabled(association: Association, i: nat, r: Remote, rcb: nat) {
    var reply := association.replies(i, ReadRcb(rcb), r);
    reply.Confirmed? && reply.seen.enabled == Some(true)
  }

  /** Some read showed the block enabled when this run had enabled it. */
  ghost predicate SawEnabled(association: Association, rcb: nat) {
    exists i: nat, r: Remote :: ShowsEnabled(association, i, r, rcb) && BlockOf(r, rcb).enabled == Us
  }

  class Subscription {
    const association: Association
    const rcb: nat
    const reservable: bool
    const giWanted: bool
    const giExposed: bool
    const maximumEvents: nat

    var stage: Stage
    var events: seq<Event>
    var enabledByRuntime: bool
    var reservationTouched: bool
    var cleanupRequired: bool

    ghost var wrote: bool
    ghost var later: nat
    ghost var sawOurs: bool
    ghost var ended: bool

    constructor (association: Association, candidate: Candidate, giWanted: bool, maximumEvents: nat)
      requires maximumEvents > 0 && Ours(BlockOf(association.remote, candidate.rcb)) == {}
      ensures Valid() && this.association == association && rcb == candidate.rcb && stage == Idle && Unclaimed()
      ensures this.maximumEvents == maximumEvents && reservable == candidate.reservable
      ensures this.giWanted == giWanted && giExposed == candidate.interrogable
    {
      this.association, rcb, reservable := association, candidate.rcb, candidate.reservable;
      this.giWanted, giExposed := giWanted, candidate.interrogable;
      this.maximumEvents, stage, events := maximumEvents, Idle, [];
      enabledByRuntime, reservationTouched, cleanupRequired, wrote, later := false, false, false, false, 0;
      sawOurs, ended := false, false;
    }

    /** Nothing has been done to the block yet. */
    ghost predicate Unclaimed()
      reads this
    {
      !enabledByRuntime && !reservationTouched && !cleanupRequired && !wrote && !ended
    }

    ghost function B(): Block
      reads this, association
    {
      BlockOf(association.remote, rcb)
    }

    /** The DatSet write is on record among the events kept. */
    predicate Recorded()
      reads this
    {
      Wrote(DatSet) in events
    }

    ghost predicate Logged()
      reads this
    {
      Places(events, maximumEvents, wrote, later)
    }

    /** The flags know of everything on the server that this run did and heard back about. */
    ghost predicate Knows()
      reads this, association
    {
      association.associated ==>
        && (B().enabled == Us ==> enabledByRuntime || WriteRptEna(rcb, true) in association.garbled)
        && (B().reserved == Us ==> reservationTouched || WriteResv(rcb, true) in association.garbled)
        && (B().binding == Us ==> wrote || BindDatSet(rcb) in association.garbled)
        && (wrote ==> B().binding != Others)
        && (enabledByRuntime ==> B().enabled != Others) && (reservationTouched ==> B().reserved != Others)
    }

    ghost predicate Valid()
      reads this, association
    {
      Logged() && Knows()
    }

    lemma RecordedExactly()
      requires Logged()
      ensures Recorded() <==> wrote && later < maximumEvents
    {
      if wrote && later < |events| {
        assert events[|events| - 1 - later] == Wrote(DatSet);
      }
    }

    method AddEvent(e: Event)
      requires Logged() && (e == Wrote(DatSet) ==> !wrote)
      modifies this`events, this`later, this`wrote
      ensures Logged() && wrote == (old(wrote) || e == Wrote(DatSet))
      ensures later == if e == Wrote(DatSet) then 0 else old(later) + 1
    {
      if |events| >= maximumEvents {
        events := events[1..];
      }
      events := events + [e];
      if e == Wrote(DatSet) {
        wrote, later := true, 0;
      } else {
        later := later + 1;
      }
    }

    method Write(q: Request, attribute: Attribute) returns (ok: bool)
      requires Logged() && (attribute == DatSet ==> q == BindDatSet(rcb) && !wrote)
      requires Target(q) == Some(rcb) && (q.BindDatSet? || q.WriteGi? || q.WriteRptEna? || q.WriteResv?)
      requires association.associated ==> Spares(Sent(q, association.remote), rcb)
      modifies this`events, this`later, this`wrote, association
      ensures Logged() && wrote == (old(wrote) || (ok && attribute == DatSet))
      ensures later == if !ok then old(later) else if attribute == DatSet then 0 else old(later) + 1
      ensures ok ==>
        && old(association.associated) && association.associated
        && association.remote == Effect(old(association.remote), q) && association.garbled == old(association.garbled)
      ensures !ok && association.associated ==>
        && old(association.associated)
        && (association.remote == old(association.remote) ||
            (association.remote == Effect(old(association.remote), q) && q in association.garbled))
      ensures Quiet(old(association.log), association.log, rcb) && old(association.garbled) <= association.garbled
      ensures old(association.associated) && Obliging(association) ==>
        association.log == old(association.log) + [Sent(q, old(association.remote))]
      ensures old(association.associated) && Obliging(association) ==>
        if q.BindDatSet? && Behaves(association, GarblesBind) then
          && !ok && association.associated && association.remote == Effect(old(association.remote), q)
          && association.garbled == old(association.garbled) + {q}
        else ok
    {
      var seen;
      Answered(association, association.asked, q, association.remote);
      ok, seen := association.Exchange(q);
      if ok {
        AddEvent(Wrote(attribute));
      }
    }

    method Probe() returns (ok: bool, seen: Seen)
      requires Valid()
      modifies this`events, this`later, this`wrote, association
      ensures Valid() && Quiet(old(association.log), association.log, rcb)
      ensures old(association.garbled) <= association.garbled && wrote == old(wrote)
      ensures later == if ok then old(later) + 1 else old(later)
      ensures ok ==> association.associated
      ensures association.associated ==> association.remote == old(association.remote)
      ensures ok ==>
        association.replies(old(association.asked), ReadRcb(rcb), old(association.remote)) == Confirmed(seen)
      ensures old(association.associated) && Obliging(association) ==>
        && ok && seen == Display(old(association.remote), ReadRcb(rcb)) && association.associated
        && association.garbled == old(association.garbled)
    {
      Answered(association, association.asked, ReadRcb(rcb), association.remote);
      ok, seen := association.Exchange(ReadRcb(rcb));
      if ok {
        AddEvent(Note);
      }
    }

    method Reserve() returns (ok: bool)
      requires Valid()
      modifies this`stage, this`events, this`later, this`wrote, this`reservationTouched, association
      ensures Valid() && Quiet(old(association.log), association.log, rcb)
      ensures old(association.garbled) <= association.garbled && wrote == old(wrote)
      ensures ok ==> reservationTouched && later == old(later) + 3
      ensures !ok ==> reservationTouched == old(reservationTouched)
      ensures stage == Working && (ok ==> association.associated)
      ensures old(association.associated) && Obliging(association) ==>
        && ok && association.associated && association.garbled == old(association.garbled)
        && B() == old(B()).(reserved := Us) && association.remote.defined == old(association.remote.defined)
    {
      hide Places, Obliging, Behaves;
      stage := Working;
      AddEvent(Note);
      ok := Write(WriteResv(rcb, true), Resv);
      if ok {
        reservationTouched := true;
        AddEvent(Note);
      }
    }

    /** Binds the DataSet, unless the block names it already. */
    method Bind(ours: bool) returns (ok: bool)
      requires Valid() && !wrote
      modifies this`stage, this`events, this`later, this`wrote, association
      ensures Valid() && Quiet(old(association.log), association.log, rcb)
      ensures old(association.garbled) <= association.garbled && (ok && !ours ==> wrote) && (!ok ==> !wrote)
      ensures ok && !ours ==> association.associated && B().binding == Us
      ensures stage == Working && (ok ==> later == if ours then old(later) + 1 else 0)
      ensures old(association.associated) && Obliging(association) && !ours ==>
        && association.associated && B() == old(B()).(binding := Us)
        && ok == !Behaves(association, GarblesBind) && association.remote.defined == old(association.remote.defined)
        && association.garbled == old(association.garbled) + (if ok then {} else {BindDatSet(rcb)})
      ensures ours ==> ok && !wrote && association.remote == old(association.remote)
      ensures ours ==> association.associated == old(association.associated)
      ensures ours ==> association.garbled == old(association.garbled)
    {
      hide Places, Obliging, Behaves;
      stage := Working;
      AddEvent(Note);
      ok := true;
      if !ours {
        ok := Write(BindDatSet(rcb), DatSet);
      }
    }

    /** Reserves an unbuffered block, binds the DataSet and reads both back. */
    method Claim(ours: bool) returns (ok: bool)
      requires Valid() && !enabledByRuntime && !reservationTouched && !wrote
      modifies this, association
      ensures Valid() && Quiet(old(association.log), association.log, rcb)
      ensures old(association.garbled) <= association.garbled
      ensures cleanupRequired == old(cleanupRequired) && !enabledByRuntime
      ensures (ok && !ours ==> wrote) && (wrote ==> !ours) && sawOurs == old(sawOurs) && ended == old(ended)
      ensures ok && !ours ==> SawBound(association, rcb, true)
      ensures stage == Working && (ok ==> (reservationTouched <==> reservable))
      ensures ok && old(association.associated) ==> association.associated
      ensures wrote && reservable ==> reservationTouched
      ensures ok ==> later == if !ours then 2 else old(later) + if reservable then 6 else 1
      ensures old(association.associated && association.remote.defined) && Obliging(association) && !ours ==>
        && association.associated && B().binding == Us && B().enabled == old(B()).enabled
        && (Behaves(association, GarblesBind) ==>
              !ok && !wrote && association.garbled == old(association.garbled) + {BindDatSet(rcb)})
        && (!Behaves(association, GarblesBind) ==> ok && association.garbled == old(association.garbled))
      ensures old(association.associated) && Obliging(association) && ours ==>
        && ok && association.associated && B().binding == old(B()).binding && B().enabled == old(B()).enabled
        && association.garbled == old(association.garbled)
    {
      hide Places, Obliging, Behaves, Quiet, SawBound;
      ghost var start := association.log;
      QuietHere(start, rcb);
      if reservable {
        ok := Reserve();
        QuietOn(start, start, association.log, rcb);
        if !ok {
          return;
        }
      }
      ghost var middle := association.log;
      ok := Bind(ours);
      QuietOn(start, middle, association.log, rcb);
      if !ok {
        return;
      }
      if !ours || reservationTouched {
        middle := association.log;
        ok := VerifyClaim(ours);
        QuietOn(start, middle, association.log, rcb);
      }
    }

    /** Reads back the name, if this run wrote it, and the reservation, if this run made it. */
    method VerifyClaim(ours: bool) returns (ok: bool)
      requires Valid()
      modifies this`stage, this`events, this`later, this`wrote, association
      ensures Valid() && Quiet(old(association.log), association.log, rcb)
      ensures old(association.garbled) <= association.garbled && wrote == old(wrote) && stage == Working
      ensures ok ==> association.associated && later == old(later) + 2
      ensures ok && !ours && old(B()).binding == Us ==> SawBound(association, rcb, true)
      ensures old(association.associated) && Obliging(association) ==>
        && association.associated && association.remote == old(association.remote)
        && association.garbled == old(association.garbled)
        && (ours || (old(B()).binding == Us && old(association.remote.defined)) ==>
              (reservationTouched ==> old(B()).reserved == Us) ==> ok)
    {
      hide Places, Obliging, Behaves, Quiet;
      stage := Working;
      AddEvent(Note);
      var verified;
      ghost var asked, r := association.asked, association.remote;
      ok, verified := Probe();
      assert ok && verified.dataSet == OURS ==> Shows(association, asked, r, rcb, OURS);
      ok := ok && (ours || verified.dataSet == OURS) && (reservationTouched ==> verified.reserved == Some(true));
    }

    /** Enables the block and reads that back. */
    method Enable() returns (ok: bool)
      requires Valid() && !enabledByRuntime
      modifies this, association
      ensures Valid() && Quiet(old(association.log), association.log, rcb)
      ensures old(association.garbled) <= association.garbled
      ensures cleanupRequired == old(cleanupRequired) && wrote == old(wrote) && later >= old(later)
      ensures ok ==> enabledByRuntime && SawEnabled(association, rcb) && later == old(later) + 5
      ensures stage == Working && reservationTouched == old(reservationTouched)
      ensures sawOurs == old(sawOurs) && ended == old(ended)
      ensures old(association.associated) && Obliging(association) ==>
        && ok && association.associated
        && B().binding == old(B()).binding && association.garbled == old(association.garbled)
    {
      hide Places, Obliging, Behaves, Quiet, SawEnabled;
      ghost var start := association.log;
      stage := Working;
      AddEvent(Note);
      ok := Write(WriteRptEna(rcb, true), RptEna);
      if !ok {
        return;
      }
      enabledByRuntime := true;
      AddEvent(Note);
      ghost var middle := association.log;
      ok := VerifyEnabled();
      QuietOn(start, middle, association.log, rcb);
    }

    method VerifyEnabled() returns (ok: bool)
      requires Valid() && B().enabled == Us
      modifies this`events, this`later, this`wrote, association
      ensures Valid() && Quiet(old(association.log), association.log, rcb)
      ensures old(association.garbled) <= association.garbled && wrote == old(wrote) && later >= old(later)
      ensures ok ==> SawEnabled(association, rcb) && later == old(later) + 2
      ensures old(association.associated) && Obliging(association) ==>
        && ok && association.associated && association.remote == old(association.remote)
        && association.garbled == old(association.garbled)
    {
      hide Places, Obliging, Behaves, Quiet;
      ghost var asked, r := association.asked, association.remote;
      var enabled;
      ok, enabled := Probe();
      if !ok || enabled.enabled != Some(true) {
        return false;
      }
      assert ShowsEnabled(association, asked, r, rcb);
      AddEvent(Note);
    }

    /** The events that an interrogation leaves where it succeeds. */
    ghost function GiEvents(): nat {
      if !giWanted then 0 else if giExposed then 2 else 1
    }

    /** An interrogation was asked for. */
    ghost predicate AskedGi()
      reads association
    {
      exists s :: s in association.log && s.request == WriteGi(rcb)
    }

    /** A general interrogation that fails leaves the block enabled. */
    method Interrogate()
      requires Valid()
      modifies this`events, this`later, this`wrote, association
      ensures Valid() && Quiet(old(association.log), association.log, rcb)
      ensures old(association.garbled) <= association.garbled && wrote == old(wrote) && later >= old(later)
      ensures !giWanted || !giExposed ==> association.log == old(association.log)
      ensures giWanted && giExposed && old(association.associated) && Obliging(association) ==>
        association.log == old(association.log) + [Sent(WriteGi(rcb), old(association.remote))]
      ensures old(association.associated) && Obliging(association) ==>
        && association.associated && B() == old(B()) && association.garbled == old(association.garbled)
        && later == old(later) + GiEvents()
    {
      hide Places, Obliging, Behaves;
      if giWanted {
        if giExposed {
          var sent := Write(WriteGi(rcb), Gi);
        }
        AddEvent(Note);
      }
    }

    method Activate() returns (ok: bool)
      requires Valid() && !enabledByRuntime
      modifies this, association
      ensures Valid() && Quiet(old(association.log), association.log, rcb)
      ensures old(association.garbled) <= association.garbled
      ensures cleanupRequired == old(cleanupRequired) && wrote == old(wrote) && later >= old(later)
      ensures (ok ==> stage == Active && enabledByRuntime) && sawOurs == old(sawOurs) && ended == old(ended)
      ensures ok ==> SawEnabled(association, rcb)
      ensures (!ok ==> stage == Working) && reservationTouched == old(reservationTouched)
      ensures old(association.associated) && Obliging(association) ==>
        later == old(later) + 6 + GiEvents() && (giWanted && giExposed ==> AskedGi())
      ensures old(association.associated) && Obliging(association) ==>
        && ok && association.associated
        && B().binding == old(B()).binding && association.garbled == old(association.garbled)
    {
      hide Places, Obliging, Behaves, Quiet;
      ok := Enable();
      if ok {
        ghost var middle := association.log;
        ghost var gi := Sent(WriteGi(rcb), association.remote);
        Interrogate();
        QuietOn(old(association.log), middle, association.log, rcb);
        assert association.log == middle + [gi] ==> gi in association.log;
        stage := Active;
        AddEvent(Note);
      }
    }

    /** That the block had this run's name is what the reply to this probe showed. */
    ghost predicate SawWhatShows(asked: nat, r: Remote)
      reads this
    {
      sawOurs ==> Shows(association, asked, r, rcb, OURS)
    }

    /** start() has an association, a DataSet, and this block to start from. */
    ghost predicate Served(associated: bool, r: Remote, b: Block) {
      associated && r.defined && BlockOf(r, rcb) == b
    }

    /** The first probe, and the claim if the block is free. */
    method Approach() returns (ok: bool)
      requires Valid() && !enabledByRuntime && !reservationTouched && !wrote
      modifies this, association
      ensures Valid() && Quiet(old(association.log), association.log, rcb) && !enabledByRuntime
      ensures old(association.garbled) <= association.garbled && cleanupRequired == old(cleanupRequired)
      ensures (ok ==> wrote || sawOurs) && ended == old(ended) && (ok ==> SawBound(association, rcb, wrote))
      ensures stage == Working && (wrote && reservable ==> reservationTouched)
      ensures ok ==> (reservationTouched <==> reservable) && association.associated
      ensures ok ==> later == if wrote then 2 else old(later) + if reservable then 8 else 3
      ensures (wrote ==> !sawOurs) && SawWhatShows(old(association.asked), old(association.remote))
      ensures Obliging(association) && Served(old(association.associated), old(association.remote), UNTOUCHED) ==>
        && association.associated && B().binding == Us
        && (Behaves(association, GarblesBind) ==> !ok && !wrote)
        && (!Behaves(association, GarblesBind) ==> ok && wrote && association.garbled == old(association.garbled))
      ensures Obliging(association) && Served(old(association.associated), old(association.remote), LEFT_BOUND) ==>
        && ok && association.associated && B().binding == Others && sawOurs
    {
      hide Places, Obliging, Behaves, Quiet;
      sawOurs := false;
      ghost var start, asked, r := association.log, association.asked, association.remote;
      stage := Working;
      AddEvent(Note);
      var current;
      ok, current := Probe();
      if !ok || current.enabled == Some(true) || current.inUse {
        return false;
      }
      sawOurs := current.dataSet == OURS;
      assert sawOurs ==> Shows(association, asked, r, rcb, OURS);
      assert sawOurs ==> SawBound(association, rcb, false);
      hide SawBound;
      ghost var middle := association.log;
      ok := Claim(current.dataSet == OURS);
      QuietOn(start, middle, association.log, rcb);
    }

    /** The part of start() inside its try block, with the options the trial sets. */
    method Attempt() returns (ok: bool)
      requires Valid() && !enabledByRuntime && !reservationTouched && !wrote
      modifies this, association
      ensures Valid() && Quiet(old(association.log), association.log, rcb)
      ensures old(association.garbled) <= association.garbled && cleanupRequired == old(cleanupRequired)
      ensures (ok ==> stage == Active && enabledByRuntime && (wrote || sawOurs)) && ended == old(ended)
      ensures ok ==> SawBound(association, rcb, wrote) && SawEnabled(association, rcb)
      ensures (!ok ==> stage == Working) && (ok ==> (reservationTouched <==> reservable))
      ensures wrote && reservable ==> reservationTouched
      ensures ok && wrote && old(association.associated) && Obliging(association) ==>
        later == 8 + GiEvents() && (giWanted && giExposed ==> AskedGi())
      ensures (wrote ==> !sawOurs) && SawWhatShows(old(association.asked), old(association.remote))
      ensures Obliging(association) && Served(old(association.associated), old(association.remote), UNTOUCHED) ==>
        && association.associated && B().binding == Us
        && (Behaves(association, GarblesBind) ==> !ok && !wrote && !enabledByRuntime)
        && (!Behaves(association, GarblesBind) ==> ok && wrote && association.garbled == old(association.garbled))
      ensures Obliging(association) && Served(old(association.associated), old(association.remote), LEFT_BOUND) ==>
        && ok && association.associated && B().binding == Others && sawOurs
    {
      hide Places, Obliging, Behaves, Quiet, SawBound, SawEnabled;
      ok := Approach();
      if ok {
        ghost var middle := association.log;
        ok := Activate();
        QuietOn(old(association.log), middle, association.log, rcb);
      }
    }

    method TryWrite(q: Request, attribute: Attribute) returns (ok: bool)
      requires Valid() && attribute != DatSet
      requires q == WriteRptEna(rcb, false) || q == WriteResv(rcb, false)
      requires association.associated ==> Spares(Sent(q, association.remote), rcb)
      modifies this`events, this`later, this`wrote, association
      ensures Valid() && wrote == old(wrote) && later == old(later) + 1
      ensures ok ==>
        && association.associated && association.remote == Effect(old(association.remote), q)
        && association.garbled == old(association.garbled)
      ensures old(association.associated) && Obliging(association) ==> ok
      ensures Quiet(old(association.log), association.log, rcb) && old(association.garbled) <= association.garbled
    {
      hide Places, Obliging, Behaves, Quiet;
      ok := Write(q, attribute);
      if !ok {
        AddEvent(Note);
      }
    }

    /** RptEna off again; only stop() notes its success. */
    method Disable(noted: bool)
      requires Valid()
      modifies this`enabledByRuntime, this`events, this`later, this`wrote, association
      ensures Valid() && Quiet(old(association.log), association.log, rcb)
      ensures old(association.garbled) <= association.garbled && wrote == old(wrote) && later >= old(later)
      ensures old(association.associated) && Obliging(association) ==>
        && association.associated && !enabledByRuntime
        && B().binding == old(B()).binding && association.garbled == old(association.garbled)
        && later == old(later) + if old(enabledByRuntime) then (if noted then 2 else 1) else 0
    {
      hide Places, Obliging, Behaves, Quiet;
      QuietHere(association.log, rcb);
      if enabledByRuntime {
        var disabled := TryWrite(WriteRptEna(rcb, false), RptEna);
        if disabled {
          enabledByRuntime := false;
          if noted {
            AddEvent(Note);
          }
        }
      }
    }

    method ReleaseReservation(noted: bool)
      requires Valid()
      modifies this`reservationTouched, this`events, this`later, this`wrote, association
      ensures Valid() && Quiet(old(association.log), association.log, rcb)
      ensures old(association.garbled) <= association.garbled && wrote == old(wrote) && later >= old(later)
      ensures old(association.associated) && Obliging(association) ==>
        && association.associated && !reservationTouched
        && B().binding == old(B()).binding && association.garbled == old(association.garbled)
        && later == old(later) + if old(reservationTouched) then (if noted then 2 else 1) else 0
    {
      hide Places, Obliging, Behaves, Quiet;
      QuietHere(association.log, rcb);
      if reservationTouched {
        var released := TryWrite(WriteResv(rcb, false), Resv);
        if released {
          reservationTouched := false;
          if noted {
            AddEvent(Note);
          }
        }
      }
    }

    /** Writes back what this run had touched; a flag that cannot be cleared stays up. */
    method TakeDown(noted: bool)
      requires Valid()
      modifies this, association
      ensures Valid() && Quiet(old(association.log), association.log, rcb)
      ensures old(association.garbled) <= association.garbled
      ensures wrote == old(wrote) && later >= old(later)
      ensures cleanupRequired == old(cleanupRequired) && stage == old(stage)
      ensures sawOurs == old(sawOurs) && ended == old(ended)
      ensures old(association.associated) && Obliging(association) ==>
        && association.associated && !enabledByRuntime && !reservationTouched
        && B().binding == old(B()).binding && association.garbled == old(association.garbled)
        && later == old(later) + (if old(enabledByRuntime) then (if noted then 2 else 1) else 0) +
                    (if old(reservationTouched) then (if noted then 2 else 1) else 0)
    {
      hide Places, Obliging, Behaves, Quiet;
      Disable(noted);
      ghost var middle := association.log;
      ReleaseReservation(noted);
      QuietOn(old(association.log), middle, association.log, rcb);
    }

    method Start() returns (ok: bool)
      requires Valid() && stage == Idle && Unclaimed()
      modifies this, association
      ensures Valid() && Quiet(old(association.log), association.log, rcb)
      ensures old(association.garbled) <= association.garbled && Settled() && !ended
      ensures (ok ==> stage == Active && (wrote || sawOurs)) && (wrote ==> !sawOurs)
      ensures SawWhatShows(old(association.asked), old(association.remote))
      ensures !old(association.associated) ==>
        !ok && stage == Idle && events == old(events) && association.log == old(association.log)
      ensures ok ==> SawBound(association, rcb, wrote) && SawEnabled(association, rcb)
      ensures ok ==> enabledByRuntime && (reservationTouched <==> reservable)
      ensures ok && wrote && old(association.associated) && Obliging(association) ==>
        later == 8 + GiEvents() && (giWanted && giExposed ==> AskedGi())
      ensures Obliging(association) && Served(old(association.associated), old(association.remote), UNTOUCHED) ==>
        && association.associated && B().binding == Us
        && (Behaves(association, GarblesBind) ==> !ok && !wrote && !cleanupRequired)
        && (!Behaves(association, GarblesBind) ==> ok && wrote && association.garbled == old(association.garbled))
      ensures Obliging(association) && Served(old(association.associated), old(association.remote), LEFT_BOUND) ==>
        && ok && association.associated && B().binding == Others && sawOurs
    {
      hide Places, Obliging, Behaves, Quiet;
      ghost var start := association.log;
      QuietHere(start, rcb);
      sawOurs := false;
      if !association.associated {
        return false;
      }
      ok := Attempt();
      if !ok {
        ghost var middle := association.log;
        if association.associated {
          TakeDown(false);
          QuietOn(start, middle, association.log, rcb);
        }
        cleanupRequired := enabledByRuntime || reservationTouched;
        stage := Faulted;
        AddEvent(Note);
      }
    }

    /** Between calls: what is still up is pending cleanup, unless the subscription is live. */
    ghost predicate Settled()
      reads this
    {
      && stage != Working
      && (stage != Active ==> cleanupRequired == (enabledByRuntime || reservationTouched))
    }

    method Stop()
      requires Valid() && Settled()
      modifies this, association
      ensures Valid() && Quiet(old(association.log), association.log, rcb)
      ensures old(association.garbled) <= association.garbled
      ensures Settled() && stage != Active && wrote == old(wrote) && later >= old(later)
      ensures sawOurs == old(sawOurs) && ended == old(ended)
      ensures old(association.associated && (stage == Active || !cleanupRequired)) && Obliging(association) ==>
        && association.associated && !cleanupRequired
        && B().binding == old(B()).binding && association.garbled == old(association.garbled)
      ensures old(association.associated && stage == Active) && Obliging(association) ==>
        && stage == Stopped
        && later == old(later) + 2 + (if old(enabledByRuntime) then 2 else 0) +
                    (if old(reservationTouched) then 2 else 0)
      ensures old(stage) == Stopped ==>
        later == old(later) && association.log == old(association.log) && stage == Stopped
    {
      hide Places, Obliging, Behaves, Quiet;
      ghost var start := association.log;
      QuietHere(start, rcb);
      if stage == Idle || stage == Stopped {
        return;
      }
      AddEvent(Note);
      if association.associated {
        TakeDown(true);
      }
      cleanupRequired := enabledByRuntime || reservationTouched;
      stage := if cleanupRequired then CleanupRequired else Stopped;
      AddEvent(Note);
    }

    /** Each queued report leaves one event. */
    method DrainQueuedReports(reports: nat)
      requires Valid()
      modifies this`events, this`later, this`wrote
      ensures Valid() && wrote == old(wrote)
      ensures later == old(later) + reports
    {
      hide Places;
      for i := 0 to reports
        invariant Valid() && wrote == old(wrote)
        invariant later == old(later) + i
      {
        AddEvent(Note);
      }
    }
  }

  /** What of a block this run has set. */
  function Ours(b: Block): set<Attribute> {
    (if b.binding == Us then {DatSet} else {}) + (if b.enabled == Us then {RptEna} else {}) +
    (if b.reserved == Us then {Resv} else {})
  }

  lemma QuietHere(log: seq<Sent>, rcb: nat)
    ensures Quiet(log, log, rcb)
  {
  }

  lemma QuietExtends(a: seq<Sent>, b: seq<Sent>, rcb: nat)
    requires Quiet(a, b, rcb)
    ensures a <= b
  {
  }

  lemma QuietOn(a: seq<Sent>, b: seq<Sent>, c: seq<Sent>, rcb: nat)
    requires Quiet(a, b, rcb) && Quiet(b, c, rcb)
    ensures Quiet(a, c, rcb)
  {
  }

  lemma Answered(association: Association, i: nat, q: Request, r: Remote)
    ensures Behaves(association, Flawless) ==> association.replies(i, q, r) == Scripted(Flawless, q, r)
    ensures Behaves(association, GarblesBind) ==> association.replies(i, q, r) == Scripted(GarblesBind, q, r)
    ensures Behaves(association, RefusesUnbind) ==> association.replies(i, q, r) == Scripted(RefusesUnbind, q, r)
  {
  }

  // ----- The whole log so far

  /** The run wrote the binding but its event log no longer says so. */
  ghost predicate Forgot(sub: Subscription)
    reads sub
  {
    sub.wrote && sub.later >= sub.maximumEvents
  }

  /** The run found the block named as it wanted it, wrote no binding, and came to its normal end. */
  ghost predicate TookOver(sub: Subscription)
    reads sub
  {
    sub.sawOurs && !sub.wrote && sub.ended
  }

  /** Only this block written, nothing of others undone but a binding taken over, no deletion from under its own. */
  ghost predicate Clean(log: seq<Sent>, rcb: nat, garbled: set<Request>, tookOver: bool, forgot: bool) {
    && CleanDeletes(log, rcb, garbled, forgot) && (ClearsForeign(log, rcb) ==> tookOver) && WritesOnly(log, rcb)
    && forall s <- log :: Spares(s, rcb)
  }

  lemma QuietKeepsClean(a: seq<Sent>, b: seq<Sent>, rcb: nat, garbled: set<Request>, garbled': set<Request>,
                        tookOver: bool, forgot: bool, forgot': bool)
    requires Quiet(a, b, rcb) && garbled <= garbled' && Clean(a, rcb, garbled, tookOver, forgot)
    requires forgot ==> forgot'
    ensures Clean(b, rcb, garbled', tookOver, forgot')
  {
    forall s | s in b && s !in a ensures exists i :: |a| <= i < |b| && b[i] == s {
      var i :| 0 <= i < |b| && b[i] == s;
      assert i >= |a|;
    }
  }

  /** One request more. */
  lemma CleanNext(log: seq<Sent>, rcb: nat, garbled: set<Request>, tookOver: bool, forgot: bool, s: Sent)
    requires Clean(log, rcb, garbled, tookOver, forgot) && Spares(s, rcb)
    requires Mutates(s.request) && Target(s.request).Some? ==> Target(s.request) == Some(rcb)
    requires s.request == Delete ==>
      var b := BlockOf(s.before, rcb);
      && (b.binding == Us ==> BindDatSet(rcb) in garbled || forgot)
      && (b.enabled == Us ==> WriteRptEna(rcb, true) in garbled)
      && (b.reserved == Us ==> WriteResv(rcb, true) in garbled)
    requires s.request == ClearDatSet(rcb) && BlockOf(s.before, rcb).binding == Others ==> tookOver
    ensures Clean(log + [s], rcb, garbled, tookOver, forgot)
  {
  }

  lemma CleanGrows(log: seq<Sent>, rcb: nat, garbled: set<Request>, garbled': set<Request>, tookOver: bool,
                   tookOver': bool, forgot: bool, forgot': bool)
    requires Clean(log, rcb, garbled, tookOver, forgot) && garbled <= garbled'
    requires (tookOver ==> tookOver') && (forgot ==> forgot')
    ensures Clean(log, rcb, garbled', tookOver', forgot')
  {
  }

  /**
   best_effort_cleanup. The binding is cleared exactly when this run is on record as
   having written it and nothing else is pending; the DataSet is deleted exactly when it
   was created, nothing is pending and no such clearing failed.
   */
  method BestEffortCleanup(association: Association, sub: Subscription, created: bool)
    returns (ghost unbindTried: bool, ghost deleteTried: bool, ghost found: Remote)
    requires sub.association == association && sub.Valid() && sub.Settled() && sub.stage != Active
    requires Clean(association.log, sub.rcb, association.garbled, TookOver(sub), Forgot(sub))
    modifies association
    ensures unbindTried <==> old(association.associated) && !sub.cleanupRequired && sub.Recorded()
    ensures deleteTried ==> old(association.associated) && created && !sub.cleanupRequired
    ensures deleteTried && unbindTried ==> BlockOf(found, sub.rcb).binding == Nobody
    ensures old(association.associated) && created && !unbindTried && !sub.cleanupRequired ==>
      deleteTried && found == old(association.remote)
    ensures unbindTried ==> BlockOf(old(association.remote), sub.rcb).binding != Others
    ensures Clean(association.log, sub.rcb, association.garbled, TookOver(sub), Forgot(sub))
    ensures Obliging(association) && deleteTried && !unbindTried ==>
      Sent(Delete, found) in association.log && association.garbled == old(association.garbled)
    ensures Behaves(association, RefusesUnbind) ==> association.garbled == old(association.garbled)
    ensures old(association.log) <= association.log
  {
    hide Places, Clean, Behaves;
    unbindTried, deleteTried, found := false, false, association.remote;
    if !association.associated {
      return;
    }
    var safe, seen := true, NOTHING_SEEN;
    sub.RecordedExactly();
    if sub.cleanupRequired {
      safe := false;
    } else if sub.Recorded() {
      unbindTried := true;
      Answered(association, association.asked, ClearDatSet(sub.rcb), association.remote);
      safe, seen := Send(association, sub, ClearDatSet(sub.rcb));
    }
    if created && safe {
      deleteTried, found := true, association.remote;
      Answered(association, association.asked, Delete, association.remote);
      safe, seen := Send(association, sub, Delete);
    }
  }

  /** A clearing or deletion by the trial itself, keeping the log clean. */
  method Send(association: Association, sub: Subscription, q: Request) returns (ok: bool, seen: Seen)
    requires sub.association == association && (q == Delete || q == ClearDatSet(sub.rcb))
    requires association.associated && sub.Knows() && !sub.enabledByRuntime && !sub.reservationTouched
    requires Clean(association.log, sub.rcb, association.garbled, TookOver(sub), Forgot(sub))
    requires q == Delete && sub.B().binding == Us ==> Forgot(sub) || BindDatSet(sub.rcb) in association.garbled
    requires q.ClearDatSet? && sub.B().binding == Others ==> TookOver(sub)
    modifies association
    ensures sub.Knows() && old(association.log) <= association.log
    ensures Clean(association.log, sub.rcb, association.garbled, TookOver(sub), Forgot(sub))
    ensures old(association.garbled) <= association.garbled
    ensures ok ==>
      && association.associated && association.remote == Effect(old(association.remote), q)
      && association.garbled == old(association.garbled) && Sent(q, old(association.remote)) in association.log
    ensures association.replies(old(association.asked), q, old(association.remote)).Confirmed? ==> ok
    ensures association.replies(old(association.asked), q, old(association.remote)) == Refused ==>
      && !ok && association.associated && association.remote == old(association.remote)
      && association.garbled == old(association.garbled)
  {
    hide Clean;
    ghost var before, garbled := association.log, association.garbled;
    CleanNext(before, sub.rcb, garbled, TookOver(sub), Forgot(sub), Sent(q, association.remote));
    ok, seen := association.Exchange(q);
    ghost var took, forgot := TookOver(sub), Forgot(sub);
    CleanGrows(association.log, sub.rcb, garbled, association.garbled, took, took, forgot, forgot);
  }

  /** A request that leaves every control block alone. */
  method SendPlain(association: Association, rcb: nat, q: Request) returns (ok: bool)
    requires q in {ReadModel, Define, ReadDirectory, Delete} && Ours(BlockOf(association.remote, rcb)) == {}
    requires Clean(association.log, rcb, association.garbled, false, false)
    modifies association
    ensures association.remote.blocks == old(association.remote.blocks) && old(association.asked) <= association.asked
    ensures ok ==>
      && association.remote == Effect(old(association.remote), q)
      && association.log == old(association.log) + [Sent(q, old(association.remote))]
    ensures Clean(association.log, rcb, association.garbled, false, false)
    ensures Obliging(association) && old(association.associated) ==>
      && ok && association.associated && association.garbled == old(association.garbled)
      && association.remote == Effect(old(association.remote), q)
  {
    hide Clean, Behaves;
    ghost var before, garbled := association.log, association.garbled;
    Answered(association, association.asked, q, association.remote);
    CleanNext(before, rcb, garbled, false, false, Sent(q, association.remote));
    var seen;
    ok, seen := association.Exchange(q);
    CleanGrows(association.log, rcb, garbled, association.garbled, false, false, false, false);
  }

  /** The directory of the DataSet was read when it had been defined. */
  ghost predicate DirectoryRead(log: seq<Sent>) {
    exists s :: s in log && s.request == ReadDirectory && s.before.defined
  }

  lemma StillRead(a: seq<Sent>, b: seq<Sent>)
    requires DirectoryRead(a) && a <= b
    ensures DirectoryRead(b)
  {
  }

  /** Defines the DataSet and reads its directory back; one that reads back wrong is rolled back at once. */
  method Create(association: Association, rcb: nat, matches: bool) returns (created: bool)
    requires Ours(BlockOf(association.remote, rcb)) == {}
    requires Clean(association.log, rcb, association.garbled, false, false)
    modifies association
    ensures association.remote.blocks == old(association.remote.blocks) && old(association.asked) <= association.asked
    ensures Clean(association.log, rcb, association.garbled, false, false)
    ensures created ==> matches && association.remote.defined && DirectoryRead(association.log)
    ensures Obliging(association) && old(association.associated) && !matches ==> !association.remote.defined
    ensures Obliging(association) && old(association.associated) && matches ==>
      && created && association.associated && association.garbled == old(association.garbled)
      && association.remote.defined
  {
    hide Clean, Behaves, Obliging;
    created := SendPlain(association, rcb, Define);
    if !created {
      return;
    }
    ghost var read := Sent(ReadDirectory, association.remote);
    created := SendPlain(association, rcb, ReadDirectory);
    assert created ==> read in association.log;
    if !created || !matches {
      var removed := SendPlain(association, rcb, Delete);
      return false;
    }
  }

  /** A confirmation read. */
  method Confirm(association: Association, sub: Subscription) returns (ok: bool)
    requires sub.association == association && sub.Knows()
    requires Clean(association.log, sub.rcb, association.garbled, false, false)
    modifies association
    ensures sub.Knows()
    ensures ok ==> association.log == old(association.log) + [Sent(ConfirmationRead(sub.rcb), old(association.remote))]
    ensures old(association.log) <= association.log
    ensures Clean(association.log, sub.rcb, association.garbled, false, false)
    ensures Obliging(association) && old(association.associated) ==>
      && ok && association.associated
      && association.remote == old(association.remote) && association.garbled == old(association.garbled)
  {
    hide Clean, Behaves;
    var q := ConfirmationRead(sub.rcb);
    ghost var before, garbled := association.log, association.garbled;
    Answered(association, association.asked, q, association.remote);
    CleanNext(before, sub.rcb, garbled, false, false, Sent(q, association.remote));
    var seen;
    ok, seen := association.Exchange(q);
    CleanGrows(association.log, sub.rcb, garbled, association.garbled, false, false, false, false);
  }

  function Sum(xs: seq<nat>): nat {
    if xs == [] then 0 else Sum(xs[..|xs| - 1]) + xs[|xs| - 1]
  }

  /** A stretch of so many confirmation reads. */
  ghost predicate Confirms(before: seq<Sent>, after: seq<Sent>, rcb: nat, n: nat) {
    && before <= after && |after| == |before| + n
    && forall i :: |before| <= i < |after| ==> after[i].request == ConfirmationRead(rcb)
  }

  /** So many confirmation reads were answered, one behind the other. */
  ghost predicate ConfirmedIn(log: seq<Sent>, rcb: nat, n: nat) {
    exists before, after :: Confirms(before, after, rcb, n) && after <= log
  }

  /** The confirmation cycles, each draining the reports queued by then. */
  method Cycles(association: Association, sub: Subscription, drained: seq<nat>) returns (ok: bool)
    requires sub.association == association && sub.Valid() && sub.Settled()
    requires Clean(association.log, sub.rcb, association.garbled, false, false)
    modifies association, sub`events, sub`later, sub`wrote
    ensures sub.Valid() && sub.Settled() && sub.wrote == old(sub.wrote)
    ensures Clean(association.log, sub.rcb, association.garbled, false, false)
    ensures Obliging(association) && old(association.associated) ==>
      && ok && association.associated && association.remote == old(association.remote)
      && association.garbled == old(association.garbled)
    ensures ok ==> sub.later == old(sub.later) + Sum(drained)
    ensures ok ==> Confirms(old(association.log), association.log, sub.rcb, |drained|)
    ensures old(association.log) <= association.log
  {
    hide Clean, Behaves, Obliging, Places;
    ok := true;
    for cycle := 0 to |drained|
      invariant ok && sub.Valid() && sub.Settled() && sub.wrote == old(sub.wrote)
      invariant Clean(association.log, sub.rcb, association.garbled, false, false)
      invariant sub.later == old(sub.later) + Sum(drained[..cycle])
      invariant Confirms(old(association.log), association.log, sub.rcb, cycle)
      invariant Obliging(association) && old(association.associated) ==>
        && association.associated && association.remote == old(association.remote)
        && association.garbled == old(association.garbled)
    {
      ok := Confirm(association, sub);
      if !ok {
        return;
      }
      sub.DrainQueuedReports(drained[cycle]);
      assert drained[..cycle + 1][..cycle] == drained[..cycle];
    }
    assert drained[..|drained|] == drained;
  }

  /** The DataSet is gone, the block unbound, and nothing else of this run's stands but what a reply has hidden. */
  ghost predicate TakenDown(association: Association, sub: Subscription)
    reads association, sub
  {
    var b := BlockOf(association.remote, sub.rcb);
    && association.associated && !association.remote.defined && b.binding == Nobody
    && (b.enabled == Us ==> WriteRptEna(sub.rcb, true) in association.garbled)
    && (b.reserved == Us ==> WriteResv(sub.rcb, true) in association.garbled)
  }

  /** The normal end: disable, unbind, delete. */
  method Retire(association: Association, sub: Subscription) returns (ok: bool)
    requires sub.association == association && sub.Valid() && sub.Settled()
    requires (sub.wrote || sub.sawOurs) && !sub.ended
    requires Clean(association.log, sub.rcb, association.garbled, false, false)
    modifies association, sub
    ensures sub.Valid() && sub.Settled() && sub.wrote == old(sub.wrote) && sub.later >= old(sub.later)
    ensures sub.sawOurs == old(sub.sawOurs) && old(association.log) <= association.log
    ensures ok ==> TakenDown(association, sub)
    ensures Clean(association.log, sub.rcb, association.garbled, TookOver(sub), Forgot(sub))
    ensures Behaves(association, RefusesUnbind) && old(association.associated) && (old(sub.stage) == Active) ==>
      && !ok && association.associated && !sub.cleanupRequired && sub.B().binding == old(sub.B()).binding
      && association.garbled == old(association.garbled) && sub.stage == Stopped
      && sub.later == old(sub.later) + 2 + (if old(sub.enabledByRuntime) then 2 else 0) +
                      (if old(sub.reservationTouched) then 2 else 0)
    ensures Behaves(association, Flawless) && old(association.associated) && (old(sub.stage) == Active) ==>
      ok && (old(sub.B()).binding == Others ==> ClearsForeign(association.log, sub.rcb))
  {
    hide Clean, Behaves, Places, Quiet;
    ghost var before, garbled := association.log, association.garbled;
    sub.Stop();
    QuietExtends(before, association.log, sub.rcb);
    QuietKeepsClean(before, association.log, sub.rcb, garbled, association.garbled, false, false, Forgot(sub));
    ghost var now := association.garbled;
    if sub.cleanupRequired || !association.associated {
      return false;
    }
    sub.ended := true;
    CleanGrows(association.log, sub.rcb, now, now, false, TookOver(sub), Forgot(sub), Forgot(sub));
    var seen;
    Answered(association, association.asked, ClearDatSet(sub.rcb), association.remote);
    ok, seen := Send(association, sub, ClearDatSet(sub.rcb));
    if !ok {
      return;
    }
    Answered(association, association.asked, Delete, association.remote);
    ok, seen := Send(association, sub, Delete);
  }

  /** The events that a run adds behind its DatSet write, beside the reports it drains. */
  ghost function Overhead(sub: Subscription): nat {
    12 + sub.GiEvents() + if sub.reservable then 2 else 0
  }

  /** The steps between a created DataSet and its deletion; false stands for the exception that ends them. */
  method Lifecycle(association: Association, sub: Subscription, drained: seq<nat>) returns (ok: bool)
    requires sub.association == association && sub.Valid() && sub.stage == Idle && sub.Unclaimed()
    requires Clean(association.log, sub.rcb, association.garbled, false, false)
    modifies association, sub
    ensures sub.Valid() && sub.Settled() && sub.SawWhatShows(old(association.asked), old(association.remote))
    ensures old(association.log) <= association.log
    ensures Clean(association.log, sub.rcb, association.garbled, TookOver(sub), Forgot(sub))
    ensures Faulty(association) && sub.Served(old(association.associated), old(association.remote), UNTOUCHED) ==>
      && !ok && association.associated && sub.B().binding == Us && !sub.cleanupRequired
      && (Behaves(association, GarblesBind) ==> !sub.wrote)
      && (!Behaves(association, GarblesBind) ==>
            && sub.wrote && sub.later == Overhead(sub) + Sum(drained) && sub.stage == Stopped
            && association.garbled == old(association.garbled))
    ensures ok ==>
      TakenDown(association, sub) && SawBound(association, sub.rcb, sub.wrote) && SawEnabled(association, sub.rcb)
    ensures ok ==> ConfirmedIn(association.log, sub.rcb, |drained|)
    ensures Behaves(association, Flawless) &&
            sub.Served(old(association.associated), old(association.remote), UNTOUCHED) ==>
      ok
    ensures Behaves(association, Flawless) &&
            sub.Served(old(association.associated), old(association.remote), LEFT_BOUND) ==>
      ok && ClearsForeign(association.log, sub.rcb)
  {
    OneBehaviour(association);
    hide Clean, Behaves, Places, Quiet, SawBound, SawEnabled;
    ghost var before, garbled := association.log, association.garbled;
    ok := sub.Start();
    QuietExtends(before, association.log, sub.rcb);
    QuietKeepsClean(before, association.log, sub.rcb, garbled, association.garbled, false, false, false);
    ghost var now := association.garbled;
    CleanGrows(association.log, sub.rcb, now, now, false, TookOver(sub), false, Forgot(sub));
    if !ok {
      return;
    }
    ok := Cycles(association, sub, drained);
    now := association.garbled;
    CleanGrows(association.log, sub.rcb, now, now, false, TookOver(sub), false, Forgot(sub));
    if !ok {
      return;
    }
    ok := Retire(association, sub);
  }

  lemma OneBehaviour(association: Association)
    ensures Behaves(association, GarblesBind) ==>
      !Behaves(association, Flawless) && !Behaves(association, RefusesUnbind)
  {
    var q, r := BindDatSet(0), Remote(map[], false);
    Answered(association, 0, q, r);
  }

  // ----- The trial

  datatype Verdict = Blocked | PlanOnly | Failed | Passed

  datatype Options = Options(
    discoveryReads: nat, typeProbes: nat, rcbProbes: nat, urcb: bool, maximum: nat, probes: nat, membersFound: bool,
    armed: bool, directoryMatches: bool, giWanted: bool, maximumEvents: nat)

  /** One of the first replies, to a read of this block by a server in this state, told this. */
  ghost predicate Told(association: Association, until: nat, r: Remote, rcb: nat, seen: Seen) {
    exists i: nat :: i < until && association.replies(i, ReadRcb(rcb), r) == Confirmed(seen)
  }

  /** Discovery was told that the block is neither bound nor enabled nor reserved. */
  ghost predicate ShownFree(association: Association, until: nat, r: Remote, rcb: nat) {
    exists seen :: Told(association, until, r, rcb, seen) && Available(Some(seen))
  }

  lemma StillShownFree(association: Association, until: nat, until': nat, r: Remote, rcb: nat)
    requires ShownFree(association, until, r, rcb) && until <= until'
    ensures ShownFree(association, until', r, rcb)
  {
    var seen :| Told(association, until, r, rcb, seen) && Available(Some(seen));
    assert Told(association, until', r, rcb, seen);
  }

  /** What discovery is shown of the first blocks by a server that says what there is. */
  ghost function Displayed(r: Remote, inventory: seq<Candidate>, n: nat): (views: Views)
    requires n <= |inventory|
    ensures |views| == n
  {
    seq(n, k requires 0 <= k < n => Some(Display(r, ReadRcb(inventory[k].rcb))))
  }

  /** The block that the selector then prefers. */
  ghost function Favourite(r: Remote, inventory: seq<Candidate>, o: Options): (best: Option<nat>)
    ensures best.Some? ==> best.value < |inventory|
  {
    var n := if o.rcbProbes < |inventory| then o.rcbProbes else |inventory|;
    Best(inventory, Displayed(r, inventory, n), [], o.urcb, n)
  }

  /** Every view is what a read of the block told, in this state. */
  ghost predicate FromReads(association: Association, until: nat, r: Remote, inventory: seq<Candidate>, views: Views) {
    && |views| <= |inventory|
    && forall k :: 0 <= k < |views| && views[k].Some? ==> Told(association, until, r, inventory[k].rcb, views[k].value)
  }

  /** Discovery reads the blocks of the inventory one by one; a failed read leaves a block without a view. */
  method ReadBlocks(association: Association, inventory: seq<Candidate>, o: Options) returns (views: Views)
    requires OnlyReads(association.log)
    modifies association
    ensures OnlyReads(association.log) && association.remote == old(association.remote)
    ensures old(association.asked) <= association.asked && old(association.log) <= association.log
    ensures FromReads(association, association.asked, association.remote, inventory, views)
    ensures Obliging(association) && old(association.associated) ==>
      && association.associated && association.garbled == old(association.garbled)
      && views == Displayed(association.remote, inventory, |views|)
      && |views| == if o.rcbProbes < |inventory| then o.rcbProbes else |inventory|
  {
    hide Behaves, Obliging;
    var count := if o.rcbProbes < |inventory| then o.rcbProbes else |inventory|;
    views := [];
    while |views| < count && association.associated
      invariant |views| <= count
      invariant OnlyReads(association.log) && association.remote == old(association.remote)
      invariant old(association.asked) <= association.asked && old(association.log) <= association.log
      invariant FromReads(association, association.asked, association.remote, inventory, views)
      invariant Obliging(association) && old(association.associated) ==>
        && association.associated && association.garbled == old(association.garbled)
        && views == Displayed(association.remote, inventory, |views|)
      decreases count - |views|
    {
      var rcb := inventory[|views|].rcb;
      ghost var asked, before := association.asked, views;
      ObligingReads(association, association.remote);
      var ok, seen := association.Exchange(ReadRcb(rcb));
      views := views + [if ok then Some(seen) else None];
      ToldLater(association, asked, association.asked, association.remote, inventory, before);
      if ok {
        assert association.replies(asked, ReadRcb(rcb), association.remote) == Confirmed(seen);
        assert Told(association, association.asked, association.remote, rcb, seen);
      }
    }
  }

  lemma ToldLater(
    association: Association, until: nat, until': nat, r: Remote, inventory: seq<Candidate>, views: Views)
    requires FromReads(association, until, r, inventory, views) && until <= until'
    ensures FromReads(association, until', r, inventory, views)
  {
    forall k | 0 <= k < |views| && views[k].Some?
      ensures Told(association, until', r, inventory[k].rcb, views[k].value)
    {
      assert Told(association, until, r, inventory[k].rcb, views[k].value);
    }
  }

  /** What is known of the block a run settled on. */
  ghost predicate Chosen(
    candidate: Candidate, inventory: seq<Candidate>, tracker: FailoverTracker, evidence: seq<seq<Seen>>)
    reads tracker
  {
    && candidate in inventory && tracker.Valid() && tracker.selected == Some(candidate.rcb)
    && |evidence| == |tracker.attempts| && Stable(evidence[|evidence| - 1])
  }

  /** The names of the model have to be read; types need not be. */
  method ReadNames(association: Association, o: Options) returns (ok: bool)
    requires OnlyReads(association.log)
    modifies association
    ensures OnlyReads(association.log) && association.remote == old(association.remote)
    ensures ok ==> |association.log| >= |old(association.log)| + o.discoveryReads
    ensures !ok ==> |association.log| <= |old(association.log)| + o.discoveryReads
    ensures Obliging(association) && old(association.associated) ==>
      ok && association.associated && association.garbled == old(association.garbled)
  {
    hide Behaves;
    var seen;
    ok := true;
    for i := 0 to o.discoveryReads + o.typeProbes
      invariant ok && OnlyReads(association.log) && association.remote == old(association.remote)
      invariant |association.log| <= |old(association.log)| + i
      invariant |association.log| >= |old(association.log)| + if i < o.discoveryReads then i else o.discoveryReads
      invariant Obliging(association) && old(association.associated) ==>
        association.associated && association.garbled == old(association.garbled)
    {
      Answered(association, association.asked, ReadModel, association.remote);
      ok, seen := association.Exchange(ReadModel);
      if !ok && i < o.discoveryReads {
        return;
      }
      ok := true;
    }
  }

  /**
   Discovery, selection and the pre-claim search: nothing is written, and a candidate is
   one that discovery was told is free and whose probes were stable.
   */
  method Search(association: Association, inventory: seq<Candidate>, o: Options)
    returns (candidate: Option<Candidate>, failed: bool, tracker: FailoverTracker, ghost evidence: seq<seq<Seen>>)
    requires o.maximum > 0 && OnlyReads(association.log)
    modifies association
    ensures OnlyReads(association.log) && association.remote == old(association.remote)
    ensures fresh(tracker) && tracker.Valid() && tracker.maximum == o.maximum
    ensures candidate.Some? ==>
      && Chosen(candidate.value, inventory, tracker, evidence)
      && ShownFree(association, association.asked, association.remote, candidate.value.rcb)
      && |association.log| >= |old(association.log)| + o.discoveryReads
    ensures |association.log| < |old(association.log)| + o.discoveryReads ==> failed
    ensures Obliging(association) && old(association.associated) ==> !failed
    ensures Obliging(association) && old(association.associated) && Free(old(association.remote), inventory, o) ==>
      && candidate == Some(inventory[Favourite(association.remote, inventory, o).value])
      && association.associated && association.garbled == old(association.garbled)
  {
    hide Behaves, Stable, Searched, Displays, Best, Available, Eligible, FromReads;
    var read := ReadNames(association, o);
    if !read {
      tracker := new FailoverTracker(o.maximum);
      return None, true, tracker, [];
    }
    var views := ReadBlocks(association, inventory, o);
    ghost var asked, r := association.asked, association.remote;
    InventoryRead(association, asked, r, inventory, views);
    ObligingReads(association, r);
    ghost var before := association.log;
    candidate, failed, tracker, evidence := FindCandidate(association, inventory, views, o.urcb, o.maximum, o.probes);
    StillReads(before, association.log);
    if candidate.Some? {
      SelectedWasStable(before, association.log, tracker, evidence, o.probes);
      OfferedWasFree(association, asked, r, inventory, views, o.urcb, candidate.value);
      StillShownFree(association, asked, association.asked, r, candidate.value.rcb);
    }
  }

  /** The block that the selector prefers on such a server is free, or left bound by someone. */
  ghost predicate Free(r: Remote, inventory: seq<Candidate>, o: Options) {
    var best := Favourite(r, inventory, o);
    best.Some? && BlockOf(r, inventory[best.value].rcb) in {UNTOUCHED, LEFT_BOUND}
  }

  lemma InventoryRead(association: Association, until: nat, r: Remote, inventory: seq<Candidate>, views: Views)
    requires FromReads(association, until, r, inventory, views)
    ensures |views| <= |inventory|
  {
  }

  lemma OfferedWasFree(
    association: Association, until: nat, r: Remote, inventory: seq<Candidate>, views: Views, urcb: bool, c: Candidate)
    requires FromReads(association, until, r, inventory, views) && Offers(inventory, views, urcb, c)
    ensures c in inventory && ShownFree(association, until, r, c.rcb)
  {
    var k: nat :| Eligible(inventory, views, [], urcb, k) && inventory[k] == c;
    assert Told(association, until, r, c.rcb, views[k].value) && Available(Some(views[k].value));
  }

  lemma ObligingReads(association: Association, r: Remote)
    ensures Obliging(association) ==> DisplaysAll(association, r)
  {
  }

  lemma StillReads(before: seq<Sent>, after: seq<Sent>)
    requires OnlyReads(before) && ReadsOnly(before, after)
    ensures OnlyReads(after)
  {
  }

  lemma SelectedWasStable(
    before: seq<Sent>, after: seq<Sent>, tracker: FailoverTracker, evidence: seq<seq<Seen>>, probes: nat)
    requires tracker.Valid() && tracker.selected.Some?
    requires Searched(before, after, tracker.attempts, evidence, probes)
    ensures |evidence| == |tracker.attempts| > 0 && Stable(evidence[|evidence| - 1])
  {
    hide Stable;
  }

  /**
   The trial, over every server. An unarmed run only reads. At most the allowed number of
   candidates is tried, none twice; only one that discovery was told is free and whose
   probes were stable is ever written to. Whichever step fails, a DataSet is only deleted
   with no binding, enable or reservation of this run left standing, unless a reply hid
   that a write had gone through or the event log had already dropped the DatSet write. A
   binding that others wrote is cleared only at the normal end, and only if the server
   showed no DatSet at discovery and this run's name at start(), with nothing bound in
   between; so never by a server whose reads are honest. All three exceptions happen.
   */
  method Trial(association: Association, inventory: seq<Candidate>, o: Options, drained: seq<nat>)
    returns (verdict: Verdict, candidate: Option<Candidate>, sub: Subscription?, tracker: FailoverTracker,
             ghost evidence: seq<seq<Seen>>)
    requires o.maximum > 0 && o.maximumEvents > 0 && association.log == [] && association.garbled == {}
    requires forall rcb :: Ours(BlockOf(association.remote, rcb)) == {}
    modifies association
    ensures fresh(tracker) && tracker.Valid() && tracker.maximum == o.maximum
    ensures !o.armed || candidate.None? ==> OnlyReads(association.log)
    ensures candidate.Some? ==>
      && Chosen(candidate.value, inventory, tracker, evidence)
      && exists until :: ShownFree(association, until, old(association.remote), candidate.value.rcb)
    ensures sub != null ==> fresh(sub) && candidate.Some? && sub.rcb == candidate.value.rcb
    ensures sub != null ==> Clean(association.log, sub.rcb, association.garbled, TookOver(sub), Forgot(sub))
    ensures sub == null && candidate.Some? ==>
      Clean(association.log, candidate.value.rcb, association.garbled, false, false)
    ensures verdict == Passed ==>
      && sub != null && TakenDown(association, sub)
      && SawBound(association, sub.rcb, sub.wrote) && SawEnabled(association, sub.rcb)
      && ConfirmedIn(association.log, sub.rcb, |drained|)
    ensures candidate.None? ==>
      && verdict in {Blocked, Failed}
      && (|association.log| < o.discoveryReads ==> verdict == Failed)
      && (Obliging(association) && old(association.associated) ==> verdict == Blocked)
    ensures sub != null ==> o.directoryMatches && DirectoryRead(association.log)
    ensures candidate.Some? ==>
      && (verdict == Blocked <==> !candidate.value.bindable || !o.membersFound)
      && (verdict == PlanOnly <==> candidate.value.bindable && o.membersFound && !o.armed)
    ensures Ready(old(association.associated), old(association.remote), inventory, o, UNTOUCHED) ==>
      && (Behaves(association, Flawless) ==> verdict == Passed)
      && (Faulty(association) ==> verdict == Failed)
    ensures sub != null && sub.sawOurs ==> Appears(association, old(association.remote), sub.rcb)
    ensures candidate.Some? && HonestReads(association, old(association.remote), candidate.value.rcb) ==>
      && BlockOf(old(association.remote), candidate.value.rcb).binding == Nobody
      && !ClearsForeign(association.log, candidate.value.rcb)
    ensures Obliging(association) && candidate.Some? &&
            BlockOf(old(association.remote), candidate.value.rcb).binding == Nobody ==>
      !ClearsForeign(association.log, candidate.value.rcb)
    ensures Doomed(association, old(association.associated), old(association.remote), inventory, o, drained) ==>
      var c := inventory[Favourite(old(association.remote), inventory, o).value];
      && candidate == Some(c) && DeletesUnderBinding(association.log, c.rcb)
      && (!Behaves(association, GarblesBind) ==> association.garbled == {})
    ensures Behaves(association, RefusesUnbind) &&
            Ready(old(association.associated), old(association.remote), inventory, o, UNTOUCHED) ==>
      var c := inventory[Favourite(old(association.remote), inventory, o).value];
      DeletesUnderBinding(association.log, c.rcb) <==> EventsOf(c, o) + Sum(drained) >= o.maximumEvents
    ensures Behaves(association, Flawless) &&
            Ready(old(association.associated), old(association.remote), inventory, o, LEFT_BOUND) ==>
      var c := inventory[Favourite(old(association.remote), inventory, o).value];
      && verdict == Passed && candidate == Some(c) && ClearsForeign(association.log, c.rcb)
  {
    hide Behaves, Stable, Places, Clean, Available, ShownFree, Appears, HonestReads, ClearsForeign, Favourite;
    hide SawBound, SawEnabled, DirectoryRead, Told, Spares, Sum, ConfirmedIn;
    sub := null;
    var failed;
    candidate, failed, tracker, evidence := Search(association, inventory, o);
    if candidate.None? {
      return if failed then Failed else Blocked, candidate, sub, tracker, evidence;
    }
    var rcb := candidate.value.rcb;
    ghost var asked, r := association.asked, association.remote;
    ReadsAreClean(association.log, rcb, association.garbled);
    CleanIsOurs(association.log, rcb, association.garbled, false, false);
    HonestMeansUnbound(association, asked, r, rcb);
    if Obliging(association) && BlockOf(r, rcb).binding == Nobody {
      DisplayIsHonest(association, r, rcb);
    }
    if !candidate.value.bindable || !o.membersFound {
      return Blocked, candidate, sub, tracker, evidence;
    }
    if !o.armed {
      return PlanOnly, candidate, sub, tracker, evidence;
    }
    var created := Create(association, rcb, o.directoryMatches);
    CleanIsOurs(association.log, rcb, association.garbled, false, false);
    if !created {
      return Failed, candidate, sub, tracker, evidence;
    }
    var s := new Subscription(association, candidate.value, o.giWanted, o.maximumEvents);
    sub := s;
    ghost var later, now := association.asked, association.remote;
    ghost var subscribed := association.log;
    verdict := Armed(association, s, drained);
    StillRead(subscribed, association.log);
    CleanIsOurs(association.log, rcb, association.garbled, TookOver(s), Forgot(s));
    if s.sawOurs {
      FreeThenOurs(association, asked, r, later, now, rcb);
    }
    if HonestReads(association, r, rcb) {
      HonestNeverAppears(association, r, rcb);
    }
  }

  lemma CleanIsOurs(log: seq<Sent>, rcb: nat, garbled: set<Request>, tookOver: bool, forgot: bool)
    requires Clean(log, rcb, garbled, tookOver, forgot)
    ensures ClearsForeign(log, rcb) ==> tookOver
  {
  }

  lemma HonestMeansUnbound(association: Association, until: nat, r: Remote, rcb: nat)
    requires ShownFree(association, until, r, rcb)
    ensures HonestReads(association, r, rcb) ==> BlockOf(r, rcb).binding == Nobody
  {
    var i := ShownUnbound(association, until, r, rcb);
  }

  /** A server that says what there is, is honest about a block that is not bound. */
  lemma DisplayIsHonest(association: Association, r: Remote, rcb: nat)
    requires Obliging(association) && BlockOf(r, rcb).binding == Nobody
    ensures HonestReads(association, r, rcb)
  {
    forall i, s: Remote, name | s.blocks == r.blocks && Shows(association, i, s, rcb, name) ensures name == NONE {
      ObligingReads(association, s);
      assert Displays(association, ReadRcb(rcb), s);
    }
  }

  lemma ShownUnbound(association: Association, until: nat, r: Remote, rcb: nat) returns (i: nat)
    requires ShownFree(association, until, r, rcb)
    ensures i < until && Shows(association, i, r, rcb, NONE)
  {
    var seen :| Told(association, until, r, rcb, seen) && Available(Some(seen));
    i :| i < until && association.replies(i, ReadRcb(rcb), r) == Confirmed(seen);
  }

  lemma FreeThenOurs(association: Association, until: nat, r: Remote, later: nat, now: Remote, rcb: nat)
    requires ShownFree(association, until, r, rcb) && until <= later && r.blocks == now.blocks
    requires Shows(association, later, now, rcb, OURS)
    ensures Appears(association, r, rcb)
  {
    hide Shows;
    var i := ShownUnbound(association, until, r, rcb);
  }

  /** The armed part, with the cleanup that follows any failure. */
  method Armed(association: Association, s: Subscription, drained: seq<nat>) returns (verdict: Verdict)
    requires s.association == association && s.Valid() && s.stage == Idle && s.Unclaimed()
    requires Clean(association.log, s.rcb, association.garbled, false, false)
    modifies association, s
    ensures Clean(association.log, s.rcb, association.garbled, TookOver(s), Forgot(s))
    ensures s.SawWhatShows(old(association.asked), old(association.remote))
    ensures verdict in {Passed, Failed} && old(association.log) <= association.log
    ensures verdict == Passed ==>
      TakenDown(association, s) && SawBound(association, s.rcb, s.wrote) && SawEnabled(association, s.rcb)
    ensures verdict == Passed ==> ConfirmedIn(association.log, s.rcb, |drained|)
    ensures s.Served(old(association.associated), old(association.remote), UNTOUCHED) ==>
      (Behaves(association, Flawless) ==> verdict == Passed) && (Faulty(association) ==> verdict == Failed)
    ensures Behaves(association, Flawless) &&
            s.Served(old(association.associated), old(association.remote), LEFT_BOUND) ==>
      verdict == Passed && ClearsForeign(association.log, s.rcb)
    ensures Behaves(association, GarblesBind) &&
            s.Served(old(association.associated), old(association.remote), UNTOUCHED) ==>
      DeletesUnderBinding(association.log, s.rcb)
    ensures Behaves(association, RefusesUnbind) && BindDatSet(s.rcb) !in old(association.garbled) &&
            s.Served(old(association.associated), old(association.remote), UNTOUCHED) ==>
      && (DeletesUnderBinding(association.log, s.rcb) <==> Overhead(s) + Sum(drained) >= s.maximumEvents)
      && association.garbled == old(association.garbled)
  {
    OneBehaviour(association);
    hide Behaves, Places, Clean, Quiet, SawBound, SawEnabled;
    var ok := Lifecycle(association, s, drained);
    if ok {
      return Passed;
    }
    ghost var before, garbled, forgot := association.log, association.garbled, Forgot(s);
    s.Stop();
    QuietExtends(before, association.log, s.rcb);
    QuietKeepsClean(before, association.log, s.rcb, garbled, association.garbled, TookOver(s), forgot, Forgot(s));
    s.RecordedExactly();
    ghost var unbindTried, deleteTried, found := BestEffortCleanup(association, s, true);
    CleanMeans(association.log, s.rcb, association.garbled, TookOver(s), Forgot(s));
    return Failed;
  }

  lemma CleanMeans(log: seq<Sent>, rcb: nat, garbled: set<Request>, tookOver: bool, forgot: bool)
    requires Clean(log, rcb, garbled, tookOver, forgot)
    ensures DeletesUnderBinding(log, rcb) ==> BindDatSet(rcb) in garbled || forgot
  {
  }

  lemma ReadsAreClean(log: seq<Sent>, rcb: nat, garbled: set<Request>)
    requires OnlyReads(log)
    ensures Clean(log, rcb, garbled, false, false)
  {
  }

  ghost predicate DeletesUnderBinding(log: seq<Sent>, rcb: nat) {
    exists s :: s in log && s.request == Delete && BlockOf(s.before, rcb).binding == Us
  }

  /** The selector prefers a block that is in this state, and nothing on the side of the client stands in the way. */
  ghost predicate Ready(associated: bool, r: Remote, inventory: seq<Candidate>, o: Options, b: Block) {
    var best := Favourite(r, inventory, o);
    && associated && best.Some? && BlockOf(r, inventory[best.value].rcb) == b && inventory[best.value].bindable
    && o.membersFound && o.armed && o.directoryMatches
  }

  /** The events behind the DatSet write of a run on this block, beside the reports it drains. */
  function EventsOf(c: Candidate, o: Options): nat {
    12 + (if !o.giWanted then 0 else if c.interrogable then 2 else 1) + (if c.reservable then 2 else 0)
  }

  /** A run on a free block that will end in a deletion from under the binding. */
  ghost predicate Doomed(
    association: Association, associated: bool, r: Remote, inventory: seq<Candidate>, o: Options, drained: seq<nat>)
  {
    && Ready(associated, r, inventory, o, UNTOUCHED)
    && (|| Behaves(association, GarblesBind)
        || (&& Behaves(association, RefusesUnbind)
            && EventsOf(inventory[Favourite(r, inventory, o).value], o) + Sum(drained) >= o.maximumEvents))
  }

  /** One buffered block, and nothing left to choose. */
  const BLOCK: Candidate := Candidate(0, true, false, false, true, false, true, true, 0)
  const OPTIONS: Options := Options(1, 0, 1, true, 4, 2, true, true, true, false, 1024)

  lemma OnlyBlock(r: Remote)
    requires BlockOf(r, 0) in {UNTOUCHED, LEFT_BOUND} && !r.defined
    ensures Favourite(r, [BLOCK], OPTIONS) == Some(0)
  {
    var views := Displayed(r, [BLOCK], 1);
    assert views[0] == Some(Display(r, ReadRcb(0)));
    assert Eligible([BLOCK], views, [], true, 0);
    assert Best([BLOCK], views, [], true, 0) == None;
  }

  /**
   The event log does forget: a server that refuses only to clear DatSet, and as many
   reports as the log has room for, and the trial deletes the DataSet from under its binding.
   */
  method ForgottenBinding() returns (association: Association)
    ensures fresh(association) && association.garbled == {} && DeletesUnderBinding(association.log, 0)
  {
    hide Favourite;
    association := new Association((i, q, r) => Scripted(RefusesUnbind, q, r), Remote(map[], false));
    assert [1012][..0] == [] && Sum([1012]) == Sum([1012][..0]) + 1012;
    assert Behaves(association, RefusesUnbind);
    ghost var r := association.remote;
    assert Scripted(GarblesBind, BindDatSet(0), r) != association.replies(0, BindDatSet(0), r);
    OnlyBlock(r);
    var verdict, candidate, sub, tracker, evidence := Trial(association, [BLOCK], OPTIONS, [1012]);
  }

  /** A write can hide: a server whose reply to the binding does not read as success, though it took effect. */
  method HiddenBinding() returns (association: Association)
    ensures fresh(association) && DeletesUnderBinding(association.log, 0)
  {
    hide Favourite;
    association := new Association((i, q, r) => Scripted(GarblesBind, q, r), Remote(map[], false));
    assert Behaves(association, GarblesBind);
    OnlyBlock(association.remote);
    var verdict, candidate, sub, tracker, evidence := Trial(association, [BLOCK], OPTIONS, []);
  }

  /**
   A binding can show late: an earlier run has left the block bound to a DataSet that is
   gone, as in ForgottenBinding, and the server shows the name once this run has defined
   it again. Nothing fails, and the binding of the other is cleared.
   */
  method ForeignBindingCleared() returns (association: Association)
    ensures fresh(association) && Behaves(association, Flawless) && ClearsForeign(association.log, 0)
  {
    hide Favourite;
    association := new Association((i, q, r) => Scripted(Flawless, q, r), Remote(map[0 := LEFT_BOUND], false));
    assert Behaves(association, Flawless);
    OnlyBlock(association.remote);
    var verdict, candidate, sub, tracker, evidence := Trial(association, [BLOCK], OPTIONS, []);
  }
}
