/**
 A control block whose own recovery image it refuses: three captures into slots of
 different sizes leave a long report where the image puts it into a short slot.
 */
module UnevenRing {
  import opened Octets
  import opened BrcbLog
  import opened BrcbHistory
  import opened BrcbPlans
  import opened BrcbRuntime
  import opened StateImage
  import opened StateCodec

  lemma AppendKeepsLoadable(capacity: nat, q: Queue, e: Entry)
    requires capacity > 0 && Loadable(capacity, q) && Allowed(capacity, q, Admit(e))
    ensures Loadable(capacity, Append(q, capacity, e))
  {
    hide Append, Allowed, Consecutive;
    WindowOpens(capacity, q);
    WindowAdmits(capacity, q, Opening(q), e);
    WindowIsOrdered(capacity, Append(q, capacity, e), Booked(capacity, q, Opening(q), Admit(e)));
  }

  /** A report of the given octets, had by general interrogation. */
  method CaptureOne(runtime: Runtime, pdu: Pdu)
    requires runtime.Valid() && Interrogable(runtime.View()) && !runtime.integrityArmed && runtime.masks.Length == 1
    requires |pdu| <= runtime.Room() && Loadable(runtime.slots.Length, runtime.QueueView())
    modifies runtime, runtime.slots, runtime.masks
    ensures runtime.Valid() && Interrogable(runtime.View()) && !runtime.integrityArmed
    ensures Loadable(runtime.slots.Length, runtime.QueueView())
    ensures forall i :: 0 <= i < runtime.slots.Length ==> runtime.slots[i].room == old(runtime.slots[i].room)
    ensures runtime.head == Turned(old(runtime.head), old(runtime.count), runtime.slots.Length)
    ensures var e := Captured(old(runtime.QueueView()), runtime.slots.Length, pdu);
      runtime.QueueView() == Append(old(runtime.QueueView()), runtime.slots.Length, e)
  {
    hide Ring, Unrolled, Append, Loadable, ToBE, Cleared;
    ghost var q := runtime.QueueView();
    var asked := runtime.RequestGeneralInterrogation();
    var plan := runtime.NextDue(0);
    var values: seq<MemberRead> := [Value([])];
    CollectsAll(runtime.masks[..], values, 1);
    var status := runtime.Capture(plan.value, [], values, _ => Encoded(pdu));
    AppendKeepsLoadable(runtime.slots.Length, q, Captured(q, runtime.slots.Length, pdu));
  }

  function Captured(q: Queue, capacity: nat, pdu: Pdu): Entry {
    Entry(ToBE(8, q.next), Fill(6, 0), pdu, NextSequence(q.sequence), Overflows(q, capacity))
  }

  /** Rooms of one and two octets, reports of one, two and one: the ring has turned, the long report is the oldest. */
  method TurnTheRing() returns (runtime: Runtime)
    ensures fresh(runtime) && fresh(runtime.slots) && fresh(runtime.masks) && runtime.Valid()
    ensures RoomsOf(runtime.slots[..]) == [1, 2] && Loadable(2, runtime.QueueView())
    ensures var es := runtime.QueueView().retained; |es| == 2 && |es[0].pdu| == 2 && |es[1].pdu| == 1
    ensures runtime.QueueView().cursor <= 2
  {
    hide Ring, Unrolled, Loadable, ToBE, Interrogable;
    runtime := Started();
    assert runtime.count == |runtime.QueueView().retained| == 0;
    CaptureOne(runtime, [1]);
    assert runtime.count == |runtime.QueueView().retained| == 1;
    CaptureOne(runtime, [1, 1]);
    assert runtime.count == |runtime.QueueView().retained| == 2;
    CaptureOne(runtime, [1]);
  }

  /** An empty ring, ready to be asked for reports. */
  method Started() returns (runtime: Runtime)
    ensures fresh(runtime) && fresh(runtime.slots) && fresh(runtime.masks) && runtime.Valid()
    ensures runtime.slots.Length == 2 && runtime.slots[0].room == 1 && runtime.slots[1].room == 2 && runtime.head == 0
    ensures runtime.masks.Length == 1 && runtime.QueueView().retained == [] && runtime.QueueView().cursor == 0
    ensures Interrogable(runtime.View()) && !runtime.View().schedule.integrityArmed && Loadable(2, runtime.QueueView())
  {
    hide Ring, Unrolled, Loadable, ToBE, Restarted;
    var d := Definition([65], [65], [65], [65], [65], 1, [OPT_ENTRY_ID, 0], 0, 0x04, 0);
    runtime := Initialize(d, [1, 2], 1);
    runtime.SetEnabled(true);
    Ready(runtime.View());
    assert runtime.masks.Length == |runtime.View().schedule.pending.masks|;
  }

  lemma Ready(s: State)
    requires s == SetEnabled(Initial(1, TriggersOf(0x04), 0, [OPT_ENTRY_ID, 0]), true)
    ensures Interrogable(s) && !s.schedule.integrityArmed && Loadable(2, s.queue)
    ensures |s.schedule.pending.masks| == 1 && s.queue.retained == []
  {
  }

  lemma ImageSize(fingerprint: u64, q: Queue)
    requires Storable(q) && |q.retained| == 2 && |q.retained[0].pdu| == 2 && |q.retained[1].pdu| == 1
    ensures |ImageV2(fingerprint, q)| == HEADER_V2 + 2 * ENTRY_HEADER + 3
  {
    hide EntryBytes, HeaderV2;
    var es := q.retained;
    assert |es[..1][..0]| == 0;
    assert EntriesBytes(es[..1]) == EntriesBytes(es[..1][..0]) + EntryBytes(es[0]);
    assert EntriesBytes(es) == EntriesBytes(es[..1]) + EntryBytes(es[1]);
  }

  /** Such a control block writes its image and then refuses it. */
  method OwnImageRefused() returns (runtime: Runtime, encoded: StateStatus, status: StateStatus)
    ensures fresh(runtime) && encoded == ImageOk && status == CapacityMismatch
  {
    hide Ring, Unrolled, Loadable, Parse, ImageV2, Fingerprint;
    runtime := TurnTheRing();
    ghost var q, f := runtime.QueueView(), Fingerprint(runtime.definition);
    StorableImage(f, q);
    var buffer := new byte[200];
    var written, required;
    encoded, written, required := Encode(runtime, buffer);
    assert buffer[..written] == ImageV2(f, q);
    ImageRoundTrip(f, q, Rooms(runtime));
    status := Restore(runtime, buffer[..written]);
  }

  lemma StorableImage(fingerprint: u64, q: Queue)
    requires Loadable(2, q) && |q.retained| == 2 && |q.retained[0].pdu| == 2 && |q.retained[1].pdu| == 1
    ensures Storable(q) && Ordered(q) && |ImageV2(fingerprint, q)| <= 200
    ensures !FitsSlots(q.retained, [1, 2])
  {
    hide Consecutive;
    assert Storable(q);
    ImageSize(fingerprint, q);
    var rooms: seq<nat> := [1, 2];
    assert |q.retained[0].pdu| > rooms[0];
  }
}
