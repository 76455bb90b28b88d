/**
 The life of a device as its code lives it: restoring and checkpointing a control block
 through the store are steps of the lives that DeviceLife reasons about.
 */
module DeviceRun {
  import opened Octets
  import opened BrcbLog
  import BrcbHistory
  import opened BrcbRuntime
  import opened StateImage
  import StateCodec
  import opened Checkpointing
  import CheckpointDevice
  import CheckpointRecord
  import CrashSafety
  import opened DeviceLife

  /** What a life takes for granted is what this store and control block are made of. */
  ghost predicate Describes(u: Setup, store: Store, runtime: Runtime)
    reads runtime, runtime.slots, store.storage.bytes
  {
    && store.Valid() && runtime.Valid() && u.n == store.bankBytes && u.c.capacity == runtime.slots.Length
    && u.fingerprint == Fingerprint(runtime.definition) && u.rooms == StateCodec.Rooms(runtime)
    && CheckpointRecord.Layout(store.Bytes(), u.n)
  }

  ghost predicate Buffered(u: Setup, storage: seq<byte>, buffer: nat)
    requires CheckpointRecord.Layout(storage, u.n)
  {
    var newest := CheckpointRecord.Newest(storage, u.n);
    newest.Some? ==> |newest.value.payload| <= buffer
  }

  /**
   A start restores through the store. Whatever reads fail, it is a reboot that found one
   record or none readable; if none fails and the newest record fits the buffer, it is
   the reboot from the newest record.
   */
  method Boot(ghost u: Setup, store: Store, runtime: Runtime, stateBuffer: array<byte>)
    returns (result: CheckpointResult, ghost readable: Readable)
    requires Describes(u, store, runtime) && stateBuffer != store.storage.bytes
    modifies store.storage`readFaults, stateBuffer, runtime, runtime.slots, runtime.masks
    ensures runtime.Valid() && store.Bytes() == old(store.Bytes()) && CheckpointRecord.Layout(store.Bytes(), u.n)
    ensures runtime.View() == Booted(u, store.Bytes(), old(runtime.View()), readable)
    ensures old(store.storage.readFaults) == [] && Buffered(u, store.Bytes(), stateBuffer.Length) ==>
      runtime.View() == Booted(u, store.Bytes(), old(runtime.View()), Newest)
  {
    ghost var before, rooms := runtime.View(), StateCodec.Rooms(runtime);
    ghost var faultless := store.storage.readFaults == [];
    result := store.Restore(runtime, stateBuffer);
    readable := if result.status == CheckpointDevice.Ok then OneBank(result.bank) else Neither;
    Rebooted(u, store.Bytes(), stateBuffer.Length, runtime.definition, rooms, result, faultless, before,
             runtime.View());
    hide Booted, Yields, Verdict, Buffered, StateCodec.Rooms, Ring, Unrolled;
  }

  /** What a restore says of its result makes it a reboot. */
  lemma Rebooted(u: Setup, storage: seq<byte>, buffer: nat, definition: Definition, rooms: seq<nat>,
                 result: CheckpointResult, faultless: bool, before: State, after: State)
    requires CheckpointRecord.Layout(storage, u.n) && u.fingerprint == Fingerprint(definition) && u.rooms == rooms
    requires result.status == CheckpointDevice.Ok ==>
      && result.bank < 2
      && Yields(CheckpointRecord.Offered(CheckpointRecord.Bank(storage, u.n, result.bank)), definition, rooms, before,
                after)
      && (faultless ==>
            CheckpointRecord.Newest(storage, u.n) ==
            CheckpointRecord.Offered(CheckpointRecord.Bank(storage, u.n, result.bank)))
    requires result.status != CheckpointDevice.Ok ==> after == before
    requires faultless ==>
      result.status == Verdict(CheckpointRecord.Newest(storage, u.n), buffer, definition, rooms)
    ensures after ==
      Booted(u, storage, before, if result.status == CheckpointDevice.Ok then OneBank(result.bank) else Neither)
    ensures faultless && Buffered(u, storage, buffer) ==> after == Booted(u, storage, before, Newest)
  {
    hide CheckpointRecord.Newest, CheckpointRecord.Offered, CheckpointRecord.Bank, Parse, Fingerprint, AfterRestore;
  }

  /** A checkpoint through the store, whatever becomes of it, is a save cut somewhere, or changes nothing. */
  method Persist(ghost u: Setup, store: Store, runtime: Runtime, stateBuffer: array<byte>)
    returns (result: CheckpointResult, ghost save: Event)
    requires Describes(u, store, runtime) && stateBuffer != store.storage.bytes
    requires BrcbHistory.Loadable(u.c.capacity, runtime.QueueView())
    modifies store.storage, store.storage.bytes, stateBuffer
    ensures IsSave(u, runtime.View(), old(store.Bytes()), store.Bytes(), save, result)
  {
    ghost var before := store.Bytes();
    SoundHere(u, runtime.View(), before);
    ghost var attempt;
    result, attempt := store.Checkpoint(runtime, stateBuffer);
    save := SaveOf(attempt);
    Persisted(u, runtime.View(), before, store.Bytes(), attempt, result);
    hide IsSave, ImageV2, Fingerprint, CrashSafety.After, BrcbHistory.Loadable, Ring, Unrolled;
  }

  /** This event of a life takes the storage from one content to the other, and is acknowledged if the result is. */
  ghost predicate IsSave(
    u: Setup, view: State, before: seq<byte>, after: seq<byte>, save: Event, result: CheckpointResult)
  {
    var d := Device(view, before);
    && save.Save? && Sound(u, d) && Live(u, d, save) == Device(view, after)
    && (result.status == CheckpointDevice.Ok <==> save.acknowledged && AttemptOf(u, d, save).Some?)
  }

  /** The event of an attempt; one that was not made is an acknowledged attempt that cannot be. */
  ghost function SaveOf(attempt: Option<CrashSafety.Attempt>): (save: Event)
    ensures save.Save?
  {
    match attempt
    case Some(a) => Save(a.progress, a.acknowledged)
    case None => Save(CrashSafety.Untouched, true)
  }

  lemma SoundHere(u: Setup, view: State, storage: seq<byte>)
    requires 0 < u.c.capacity == |u.rooms| && CheckpointRecord.Layout(storage, u.n)
    requires BrcbHistory.Loadable(u.c.capacity, view.queue)
    ensures Sound(u, Device(view, storage))
  {
  }

  /** What a checkpoint says of its result makes it a save. */
  lemma Persisted(u: Setup, view: State, before: seq<byte>, after: seq<byte>, attempt: Option<CrashSafety.Attempt>,
                  result: CheckpointResult)
    requires Sound(u, Device(view, before))
    requires attempt.None? ==> after == before && result.status != CheckpointDevice.Ok
    requires attempt.Some? ==>
      && attempt.value.Possible(u.n) && Storable(view.queue)
      && attempt.value.payload == ImageV2(u.fingerprint, view.queue)
      && after == CrashSafety.After(before, u.n, attempt.value)
      && (result.status == CheckpointDevice.Ok <==> attempt.value.acknowledged)
    ensures IsSave(u, view, before, after, SaveOf(attempt), result)
  {
    hide ImageV2, Storable, CrashSafety.After, BrcbHistory.Loadable;
  }
}
