/**
 The read-only window before a control block is claimed: candidates are probed, contended
 ones are passed over, and at most a fixed number is tried (rcb_failover.cpp and
 rcb_contention.hpp).
 */
module RcbFailover {
  import opened Octets
  import opened RcbServer

  /** A control block of the inventory; `place` is where its names come in alphabetical order. */
  datatype Candidate = Candidate(
    rcb: nat, bindable: bool, reservable: bool, interrogable: bool,
    buffered: bool, preferred: bool, sameDevice: bool, onLln0: bool, place: nat)

  // ----- One candidate

  predicate BusyAt(o: Seen) {
    o.enabled == Some(true) || o.reserved == Some(true) || (o.reservationTime.Some? && o.reservationTime.value > 0)
  }

  /** Nobody is seen to have the block; what was not read speaks for nobody. */
  predicate Unclaimed(o: Seen) {
    o.enabled != Some(true) && o.reserved != Some(true) && (o.reservationTime == None || o.reservationTime == Some(0))
  }

  lemma BusyIsClaimed(o: Seen)
    ensures BusyAt(o) <==> !Unclaimed(o)
  {
  }

  datatype Reserved = ByTime(seconds: nat) | ByFlag(on: bool)

  /** ResvTms speaks before Resv. */
  function ReservationAt(o: Seen): Option<Reserved> {
    match o.reservationTime
    case Some(t) => Some(ByTime(t))
    case None => match o.reserved case Some(b) => Some(ByFlag(b)) case None => None
  }

  function DataSetAt(o: Seen): Option<Name> {
    if o.dataSet == NONE then None else Some(o.dataSet)
  }

  /** What is absent contradicts nothing. */
  predicate Compatible<T(==)>(x: Option<T>, y: Option<T>) {
    x.Some? && y.Some? ==> x == y
  }

  predicate Agree(o: Seen, p: Seen) {
    && Compatible(o.enabled, p.enabled)
    && Compatible(ReservationAt(o), ReservationAt(p))
    && Compatible(DataSetAt(o), DataSetAt(p))
    && Compatible(o.revision, p.revision)
  }

  /** Two probes contradict each other exactly if both tell of a field, and differently. */
  lemma ContradictsExactly(o: Seen, p: Seen)
    ensures !Agree(o, p) <==>
      || (o.enabled != None && p.enabled != None && o.enabled != p.enabled)
      || (o.dataSet != NONE && p.dataSet != NONE && o.dataSet != p.dataSet)
      || (o.revision != None && p.revision != None && o.revision != p.revision)
      || (match (o.reservationTime, p.reservationTime)
          case (Some(x), Some(y)) => x != y
          case (Some(_), None) => p.reserved != None
          case (None, Some(_)) => o.reserved != None
          case (None, None) => o.reserved != None && p.reserved != None && o.reserved != p.reserved)
  {
  }

  /** Free at every probe, and unchanged from one to the next. */
  ghost predicate Stable(observations: seq<Seen>) {
    && (forall o <- observations :: Unclaimed(o))
    && forall o, p :: o in observations && p in observations ==> Agree(o, p)
  }

  lemma ManyMeansTwo<T>(s: set<T>)
    ensures |s| > 1 <==> exists x, y :: x in s && y in s && x != y
  {
    if |s| > 0 {
      var x :| x in s;
      if |s| > 1 {
        assert |s - {x}| > 0;
        var y :| y in s - {x};
        assert x in s && y in s && x != y;
      } else {
        assert |s - {x}| == 0;
        assert s == {x};
      }
    }
  }

  /** distinct_normalized: whether one field took more than one value over the probes. */
  method Varies<T(==)>(observations: seq<Seen>, field: Seen -> Option<T>) returns (varies: bool)
    ensures varies <==>
      exists o, p :: o in observations && p in observations && !Compatible(field(o), field(p))
  {
    var values: set<T> := {};
    for i := 0 to |observations|
      invariant forall x :: x in values <==> exists j :: 0 <= j < i && field(observations[j]) == Some(x)
    {
      match field(observations[i])
      case None =>
      case Some(x) => values := values + {x};
    }
    ManyMeansTwo(values);
    varies := |values| > 1;
    if varies {
      var x, y :| x in values && y in values && x != y;
      var j :| 0 <= j < |observations| && field(observations[j]) == Some(x);
      var k :| 0 <= k < |observations| && field(observations[k]) == Some(y);
      assert !Compatible(field(observations[j]), field(observations[k]));
      assert observations[j] in observations && observations[k] in observations;
    }
    forall o, p | o in observations && p in observations && !Compatible(field(o), field(p)) ensures varies {
      assert field(o).value in values && field(p).value in values;
    }
  }

  /** A candidate is contended if it was busy at any probe or any field varied. */
  method Evaluate(observations: seq<Seen>) returns (contended: bool)
    ensures contended <==> !Stable(observations)
  {
    hide Compatible, ReservationAt, DataSetAt, BusyAt, Unclaimed;
    var enabled := Varies(observations, (o: Seen) => o.enabled);
    var reservation := Varies(observations, ReservationAt);
    var dataSet := Varies(observations, DataSetAt);
    var revision := Varies(observations, (o: Seen) => o.revision);
    var busy := exists o :: o in observations && BusyAt(o);
    forall o | o in observations ensures BusyAt(o) <==> !Unclaimed(o) {
      BusyIsClaimed(o);
    }
    contended := busy || enabled || reservation || dataSet || revision;
  }

  // ----- The tracker

  datatype Outcome = StableProceed | SkippedContended | AttemptsExhausted
  datatype Attempt = Attempt(rcb: nat, outcome: Outcome)

  class FailoverTracker {
    const maximum: nat
    var attempts: seq<Attempt>
    var excluded: seq<nat>
    var selected: Option<nat>
    var exhausted: bool

    /** No more attempts than allowed, none twice; only the last can have gone well, and then it is the selection. */
    ghost predicate Valid()
      reads this
    {
      && 0 < maximum && |attempts| <= maximum
      && |excluded| + (if selected.Some? then 1 else 0) == |attempts|
      && (forall i :: 0 <= i < |excluded| ==> attempts[i].rcb == excluded[i] && attempts[i].outcome != StableProceed)
      && (forall i, j :: 0 <= i < j < |attempts| ==> attempts[i].rcb != attempts[j].rcb)
      && (selected.Some? ==> attempts[|attempts| - 1] == Attempt(selected.value, StableProceed))
      && (exhausted <==> |excluded| == maximum)
    }

    constructor (maximum: nat)
      requires maximum > 0
      ensures Valid() && this.maximum == maximum && attempts == [] && selected == None
    {
      this.maximum, attempts, excluded, selected, exhausted := maximum, [], [], None, false;
    }

    predicate MayAttempt()
      reads this
    {
      selected.None? && !exhausted && |attempts| < maximum
    }

    /** What the probe of a candidate not tried before makes of the search. */
    method Observe(rcb: nat, contended: bool) returns (outcome: Outcome)
      requires Valid() && MayAttempt() && rcb !in excluded
      modifies this
      ensures Valid() && attempts == old(attempts) + [Attempt(rcb, outcome)]
      ensures selected == if contended then None else Some(rcb)
      ensures excluded == if contended then old(excluded) + [rcb] else old(excluded)
      ensures outcome == StableProceed <==> !contended
      ensures outcome == AttemptsExhausted <==> contended && |attempts| == maximum
    {
      if !contended {
        outcome := StableProceed;
        selected := Some(rcb);
      } else {
        excluded := excluded + [rcb];
        exhausted := |attempts| + 1 >= maximum;
        outcome := if exhausted then AttemptsExhausted else SkippedContended;
      }
      attempts := attempts + [Attempt(rcb, outcome)];
    }
  }

  // ----- The pool selector

  /** What discovery read of the blocks of the inventory, as far as it got; None is a read that failed. */
  type Views = seq<Option<Seen>>

  /** available_dynamic_empty: read in full, and neither enabled nor reserved nor bound. */
  predicate Available(view: Option<Seen>) {
    view.Some? && !view.value.partial && Unclaimed(view.value) && view.value.dataSet == NONE
  }

  function When(condition: bool, points: int): int {
    if condition then points else 0
  }

  /** The score of an available block. */
  function Score(c: Candidate, seen: Seen): int {
    140 + 25 + When(c.preferred, 500) + When(c.sameDevice, 100) + When(c.buffered, 40) + When(c.onLln0, 15) +
    When(seen.enabled == Some(false), 25) + When(seen.revision.Some?, 10)
  }

  /** The order of the selector: by score, then buffered, then of the wanted device, then by name. */
  predicate Ahead(c: Candidate, seen: Seen, d: Candidate, other: Seen) {
    var x, y := Score(c, seen), Score(d, other);
    || x > y
    || (x == y && c.buffered && !d.buffered)
    || (x == y && c.buffered == d.buffered && c.sameDevice && !d.sameDevice)
    || (x == y && c.buffered == d.buffered && c.sameDevice == d.sameDevice && c.place < d.place)
  }

  predicate Disabled(seen: Seen) {
    seen.enabled == Some(false)
  }

  /** Block c is better placed than d by its logical node and by a revision that was read. */
  predicate BetterPlaced(c: Candidate, seen: Seen, d: Candidate, other: Seen) {
    c.onLln0 && !d.onLln0 && seen.revision.Some? && other.revision.None?
  }

  /**
   What the points come to: the preferred block is ahead, then the wanted device, then a
   buffered block unless the other outdoes it in all the rest, then one read as disabled,
   the logical node, the revision and the name.
   */
  lemma PreferenceDecides(c: Candidate, seen: Seen, d: Candidate, other: Seen)
    ensures c.preferred && !d.preferred ==> Ahead(c, seen, d, other)
    ensures c.preferred == d.preferred && c.sameDevice && !d.sameDevice ==> Ahead(c, seen, d, other)
    ensures c.preferred == d.preferred && c.sameDevice == d.sameDevice ==>
      && (c.buffered && !d.buffered ==>
            (Ahead(c, seen, d, other) <==>
             !(BetterPlaced(d, other, c, seen) && Disabled(other) && !Disabled(seen))))
      && (c.buffered == d.buffered && Disabled(seen) && !Disabled(other) ==>
            (Ahead(c, seen, d, other) <==> !BetterPlaced(d, other, c, seen) || c.place < d.place))
      && (c.buffered == d.buffered && Disabled(seen) == Disabled(other) ==>
            && (c.onLln0 && !d.onLln0 ==> Ahead(c, seen, d, other))
            && (c.onLln0 == d.onLln0 && seen.revision.Some? && other.revision.None? ==> Ahead(c, seen, d, other))
            && (c.onLln0 == d.onLln0 && seen.revision.Some? == other.revision.Some? ==>
                  (Ahead(c, seen, d, other) <==> c.place < d.place)))
  {
  }

  /** One block is ahead of the other, never both, and where three follow one another so do the outer two. */
  lemma AheadOrders(c: Candidate, seen: Seen, d: Candidate, other: Seen, e: Candidate, third: Seen)
    ensures !(Ahead(c, seen, d, other) && Ahead(d, other, c, seen))
    ensures c.place != d.place ==> Ahead(c, seen, d, other) || Ahead(d, other, c, seen)
    ensures Ahead(c, seen, d, other) && Ahead(d, other, e, third) ==> Ahead(c, seen, e, third)
  {
    hide Score;
  }

  /** Block `k` may be selected: not excluded, of an allowed kind, and shown to be available. */
  predicate Eligible(inventory: seq<Candidate>, views: Views, excluded: seq<nat>, urcb: bool, k: nat) {
    && k < |views| && k < |inventory| && Available(views[k])
    && inventory[k].rcb !in excluded && (inventory[k].buffered || urcb)
  }

  /** Which blocks may be selected; unbuffered ones only where that is allowed. */
  lemma EligibleExactly(inventory: seq<Candidate>, views: Views, excluded: seq<nat>, urcb: bool, k: nat)
    ensures Eligible(inventory, views, excluded, urcb, k) <==>
      && k < |inventory| && k < |views|
      && (match views[k]
          case None => false
          case Some(seen) =>
            && !seen.partial && seen.dataSet == NONE && seen.enabled != Some(true) && seen.reserved != Some(true)
            && (seen.reservationTime.Some? ==> seen.reservationTime.value == 0))
      && (forall i :: 0 <= i < |excluded| ==> excluded[i] != inventory[k].rcb)
      && (!urcb ==> inventory[k].buffered)
  {
  }

  /** The selection among the first `n` blocks. */
  function Best(inventory: seq<Candidate>, views: Views, excluded: seq<nat>, urcb: bool, n: nat): (r: Option<nat>)
    ensures r.Some? ==> r.value < n && Eligible(inventory, views, excluded, urcb, r.value)
  {
    if n == 0 then None
    else
      var best := Best(inventory, views, excluded, urcb, n - 1);
      var k := n - 1;
      if !Eligible(inventory, views, excluded, urcb, k) then best
      else if best.None? || Ahead(inventory[k], views[k].value, inventory[best.value], views[best.value].value)
      then Some(k)
      else best
  }

  /** It is there if any block is eligible, and none that is eligible comes ahead of it. */
  lemma {:induction false} BestIsBest(
    inventory: seq<Candidate>, views: Views, excluded: seq<nat>, urcb: bool, n: nat, k: nat)
    requires k < n && Eligible(inventory, views, excluded, urcb, k)
    ensures var best := Best(inventory, views, excluded, urcb, n);
      best.Some? && !Ahead(inventory[k], views[k].value, inventory[best.value], views[best.value].value)
  {
    hide Available, Score;
    if k < n - 1 {
      BestIsBest(inventory, views, excluded, urcb, n - 1, k);
    }
  }

  /** build_dynamic_selection: the selection among the whole inventory. */
  method Pick(inventory: seq<Candidate>, views: Views, excluded: seq<nat>, urcb: bool) returns (k: Option<nat>)
    requires |views| <= |inventory|
    ensures k == Best(inventory, views, excluded, urcb, |views|)
    ensures k.None? ==> forall i: nat :: !Eligible(inventory, views, excluded, urcb, i)
    ensures k.Some? ==> k.value < |views| && Eligible(inventory, views, excluded, urcb, k.value)
    ensures k.Some? ==>
      forall i: nat :: Eligible(inventory, views, excluded, urcb, i) ==>
        !Ahead(inventory[i], views[i].value, inventory[k.value], views[k.value].value)
  {
    hide Ahead;
    k := None;
    for i := 0 to |views|
      invariant k == Best(inventory, views, excluded, urcb, i)
    {
      if Eligible(inventory, views, excluded, urcb, i) &&
         (k.None? || Ahead(inventory[i], views[i].value, inventory[k.value], views[k.value].value)) {
        k := Some(i);
      }
    }
    forall i: nat | Eligible(inventory, views, excluded, urcb, i)
      ensures k.Some? && !Ahead(inventory[i], views[i].value, inventory[k.value], views[k.value].value)
    {
      BestIsBest(inventory, views, excluded, urcb, |views|, i);
    }
  }

  // ----- The search

  /** A stretch of probe reads of one block. */
  ghost predicate Probes(before: seq<Sent>, after: seq<Sent>, rcb: nat) {
    before <= after && forall i :: |before| <= i < |after| ==> after[i].request == ReadRcb(rcb)
  }

  /** `count` reads of a candidate; None is the exception of one that fails. */
  method Observations(association: Association, rcb: nat, count: nat) returns (seen: Option<seq<Seen>>)
    modifies association
    ensures Probes(old(association.log), association.log, rcb)
    ensures association.remote == old(association.remote) && old(association.asked) <= association.asked
    ensures association.garbled <= old(association.garbled) + {ReadRcb(rcb)}
    ensures seen.Some? ==> association.associated == old(association.associated)
    ensures seen.Some? ==> |seen.value| == count && |association.log| == |old(association.log)| + count
    ensures seen.Some? ==> association.garbled == old(association.garbled)
    ensures old(association.associated) && Displays(association, ReadRcb(rcb), old(association.remote)) ==>
      seen.Some? && forall o <- seen.value :: o == Display(old(association.remote), ReadRcb(rcb))
  {
    var found: seq<Seen> := [];
    for i := 0 to count
      invariant Probes(old(association.log), association.log, rcb)
      invariant association.remote == old(association.remote) && association.garbled == old(association.garbled)
      invariant association.associated == old(association.associated) && old(association.asked) <= association.asked
      invariant |found| == i && |association.log| == |old(association.log)| + i
      invariant old(association.associated) && Displays(association, ReadRcb(rcb), old(association.remote)) ==>
        forall o <- found :: o == Display(old(association.remote), ReadRcb(rcb))
    {
      var ok, o := association.Exchange(ReadRcb(rcb));
      if !ok {
        return None;
      }
      found := found + [o];
    }
    return Some(found);
  }

  /** Each attempt rests on its own probes, and went well exactly if they were stable. */
  ghost predicate Founded(attempts: seq<Attempt>, evidence: seq<seq<Seen>>, probes: nat) {
    && |evidence| == |attempts|
    && forall i :: 0 <= i < |attempts| ==>
         |evidence[i]| == probes && (attempts[i].outcome == StableProceed <==> Stable(evidence[i]))
  }

  predicate Tried(attempts: seq<Attempt>, q: Request) {
    exists k :: 0 <= k < |attempts| && q == ReadRcb(attempts[k].rcb)
  }

  /** What was sent is the probe reads of the candidates tried, so many for each, and nothing else. */
  ghost predicate Searched(
    before: seq<Sent>, after: seq<Sent>, attempts: seq<Attempt>, evidence: seq<seq<Seen>>, probes: nat)
  {
    && before <= after && |after| == |before| + |attempts| * probes
    && (forall i :: |before| <= i < |after| ==> Tried(attempts, after[i].request))
    && Founded(attempts, evidence, probes)
  }

  lemma NothingSearched(log: seq<Sent>, probes: nat)
    ensures Searched(log, log, [], [], probes)
  {
  }

  lemma SearchedMore(before: seq<Sent>, middle: seq<Sent>, after: seq<Sent>, attempts: seq<Attempt>,
                     evidence: seq<seq<Seen>>, probes: nat, last: Attempt, seen: seq<Seen>)
    requires Searched(before, middle, attempts, evidence, probes)
    requires Probes(middle, after, last.rcb) && |after| == |middle| + probes == |middle| + |seen|
    requires last.outcome == StableProceed <==> Stable(seen)
    ensures Searched(before, after, attempts + [last], evidence + [seen], probes)
  {
    hide Stable;
    var all := attempts + [last];
    Distribute(|all|, probes);
    forall i | |before| <= i < |after| ensures Tried(all, after[i].request) {
      if i < |middle| {
        assert Tried(attempts, middle[i].request);
        var k :| 0 <= k < |attempts| && middle[i].request == ReadRcb(attempts[k].rcb);
        assert after[i].request == ReadRcb(all[k].rcb);
      } else {
        assert after[i].request == ReadRcb(all[|attempts|].rcb);
      }
    }
  }

  /** One candidate: probed, judged and recorded. Probes that fail leave the record as it was. */
  method TryCandidate(association: Association, tracker: FailoverTracker, rcb: nat, probes: nat,
                      ghost start: seq<Sent>, ghost evidence: seq<seq<Seen>>)
    returns (outcome: Option<Outcome>, ghost evidence': seq<seq<Seen>>)
    requires tracker.Valid() && tracker.MayAttempt() && rcb !in tracker.excluded
    requires Searched(start, association.log, tracker.attempts, evidence, probes)
    modifies association, tracker
    ensures tracker.Valid()
    ensures association.remote == old(association.remote) && old(association.asked) <= association.asked
    ensures outcome.None? ==>
      && tracker.attempts == old(tracker.attempts) && tracker.selected == old(tracker.selected)
      && evidence' == evidence && Probes(old(association.log), association.log, rcb)
      && association.garbled <= old(association.garbled) + {ReadRcb(rcb)}
    ensures outcome.Some? ==>
      && tracker.attempts == old(tracker.attempts) + [Attempt(rcb, outcome.value)]
      && tracker.selected == (if outcome.value == StableProceed then Some(rcb) else None)
      && Searched(start, association.log, tracker.attempts, evidence', probes)
      && association.garbled == old(association.garbled) && association.associated == old(association.associated)
    ensures old(association.associated) && TrulyFree(association, rcb, old(association.remote)) ==>
      outcome == Some(StableProceed)
    ensures old(association.associated) && Displays(association, ReadRcb(rcb), old(association.remote)) ==>
      outcome.Some?
  {
    hide Searched, Stable, Probes, FailoverTracker.Valid;
    evidence' := evidence;
    ghost var middle, before := association.log, tracker.attempts;
    var seen := Observations(association, rcb, probes);
    if seen.None? {
      return None, evidence';
    }
    var contended := Evaluate(seen.value);
    if old(association.associated) {
      FreeIsStable(association, rcb, old(association.remote), seen.value);
    }
    var result := tracker.Observe(rcb, contended);
    SearchedMore(start, middle, association.log, before, evidence, probes, Attempt(rcb, result), seen.value);
    evidence' := evidence + [seen.value];
    return Some(result), evidence';
  }

  /** The server says of a free block that it is. */
  ghost predicate TrulyFree(association: Association, rcb: nat, r: Remote) {
    Displays(association, ReadRcb(rcb), r) && BlockOf(r, rcb) in {UNTOUCHED, LEFT_BOUND}
  }

  lemma FreeIsStable(association: Association, rcb: nat, r: Remote, seen: seq<Seen>)
    requires forall o <- seen :: TrulyFree(association, rcb, r) ==> o == Display(r, ReadRcb(rcb))
    ensures TrulyFree(association, rcb, r) ==> Stable(seen)
  {
  }

  ghost predicate DisplaysAll(association: Association, r: Remote) {
    forall rcb: nat :: Displays(association, ReadRcb(rcb), r)
  }

  /** The first selection is a block that the server says is free. */
  ghost predicate FirstIsFree(
    association: Association, inventory: seq<Candidate>, views: Views, urcb: bool, associated: bool, r: Remote)
  {
    var best := Best(inventory, views, [], urcb, |views|);
    associated && best.Some? && TrulyFree(association, inventory[best.value].rcb, r)
  }

  /** The inventory has this block, and discovery found it available. */
  ghost predicate Offers(inventory: seq<Candidate>, views: Views, urcb: bool, c: Candidate) {
    exists k: nat :: Eligible(inventory, views, [], urcb, k) && inventory[k] == c
  }

  /**
   The pre-claim search. It only reads, tries at most `maximum` candidates and none
   twice, all of them available at discovery and each the best of those left, and ends
   with a candidate exactly if the last one tried was free and unchanged at every probe.
   */
  method FindCandidate(
    association: Association, inventory: seq<Candidate>, views: Views, urcb: bool, maximum: nat, probes: nat)
    returns (candidate: Option<Candidate>, failed: bool, tracker: FailoverTracker, ghost evidence: seq<seq<Seen>>)
    requires maximum > 0 && |views| <= |inventory|
    modifies association
    ensures fresh(tracker) && tracker.Valid() && tracker.maximum == maximum
    ensures association.remote == old(association.remote) && old(association.asked) <= association.asked
    ensures !failed ==>
      && Searched(old(association.log), association.log, tracker.attempts, evidence, probes)
      && association.garbled == old(association.garbled) && association.associated == old(association.associated)
    ensures ReadsOnly(old(association.log), association.log)
    ensures candidate.Some? ==>
      && !failed && Offers(inventory, views, urcb, candidate.value)
      && tracker.selected == Some(candidate.value.rcb)
    ensures candidate.None? ==> tracker.selected.None?
    ensures candidate.None? && !failed ==>
      !tracker.MayAttempt() || forall k: nat :: !Eligible(inventory, views, tracker.excluded, urcb, k)
    ensures old(association.associated) && DisplaysAll(association, old(association.remote)) ==> !failed
    ensures FirstIsFree(association, inventory, views, urcb, old(association.associated), old(association.remote)) ==>
      candidate == Some(inventory[Best(inventory, views, [], urcb, |views|).value])
  {
    hide Searched, Stable, Probes, ReadsOnly, TrulyFree, Available, Ahead, Displays;
    ghost var start, r, associated := association.log, association.remote, association.associated;
    tracker := new FailoverTracker(maximum);
    candidate, failed, evidence := None, false, [];
    NothingSearched(association.log, probes);
    while tracker.MayAttempt()
      invariant tracker.Valid() && fresh(tracker) && tracker.maximum == maximum && !failed
      invariant Searched(start, association.log, tracker.attempts, evidence, probes)
      invariant association.remote == r && association.garbled == old(association.garbled)
      invariant association.associated == associated && old(association.asked) <= association.asked
      invariant candidate.Some? ==>
        Offers(inventory, views, urcb, candidate.value) && tracker.selected == Some(candidate.value.rcb)
      invariant candidate.None? ==> tracker.selected.None?
      invariant tracker.attempts == [] ==> tracker.excluded == [] && candidate.None?
      invariant FirstIsFree(association, inventory, views, urcb, associated, r) ==>
        tracker.attempts == [] || candidate == Some(inventory[Best(inventory, views, [], urcb, |views|).value])
      decreases maximum - |tracker.attempts|
    {
      var next := Pick(inventory, views, tracker.excluded, urcb);
      SearchReads(start, association.log, tracker.attempts, evidence, probes);
      if next.None? {
        return;
      }
      var c := inventory[next.value];
      assert Eligible(inventory, views, [], urcb, next.value);
      ghost var middle := association.log;
      var outcome;
      outcome, evidence := TryCandidate(association, tracker, c.rcb, probes, start, evidence);
      if outcome.None? {
        ReadsThenProbes(start, middle, association.log, c.rcb);
        failed := true;
        return;
      }
      candidate := if outcome.value == StableProceed then Some(c) else None;
    }
    SearchReads(start, association.log, tracker.attempts, evidence, probes);
  }

  ghost predicate ReadsOnly(before: seq<Sent>, after: seq<Sent>) {
    before <= after && forall i :: |before| <= i < |after| ==> !Mutates(after[i].request)
  }

  lemma SearchReads(
    before: seq<Sent>, after: seq<Sent>, attempts: seq<Attempt>, evidence: seq<seq<Seen>>, probes: nat)
    requires Searched(before, after, attempts, evidence, probes)
    ensures ReadsOnly(before, after)
  {
    hide Founded;
    forall i | |before| <= i < |after| ensures !Mutates(after[i].request) {
      assert Tried(attempts, after[i].request);
    }
  }

  lemma ReadsThenProbes(before: seq<Sent>, middle: seq<Sent>, after: seq<Sent>, rcb: nat)
    requires ReadsOnly(before, middle) && Probes(middle, after, rcb)
    ensures ReadsOnly(before, after)
  {
  }
}
