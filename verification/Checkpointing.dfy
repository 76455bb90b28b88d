/**
 MmsStaticBrcbCheckpointStore: checkpointing a running BRCB into the two-bank
 journal and restoring one from it, and what that guarantees end to end.
 */
module Checkpointing {
  import opened Octets
  import opened Crc
  import opened CheckpointRecord
  import opened CrashSafety
  import opened CheckpointDevice
  import BrcbLog
  import BrcbHistory
  import opened BrcbRuntime
  import opened StateImage
  import opened StateCodec

  datatype CheckpointResult = CheckpointResult(
    status: CheckpointStatus, stateStatus: StateStatus, generation: u64, bank: nat, stateBytes: nat)

  class Store {
    const storage: Storage
    const bankBytes: nat

    constructor (storage: Storage, bankBytes: nat)
      ensures this.storage == storage && this.bankBytes == bankBytes
    {
      this.storage, this.bankBytes := storage, bankBytes;
    }

    predicate Valid() {
      bankBytes > HEADER_BYTES + FOOTER_BYTES && bankBytes <= storage.bytes.Length / 2
    }

    ghost function Bytes(): seq<byte>
      reads storage.bytes
    {
      storage.bytes[..]
    }

    /** Which bank to rewrite and under which generation, from what the two banks say. */
    method Choose(first: BankInfo, second: BankInfo) returns (target: nat, generation: u64)
      requires Valid() && first == Inspect(Bank(Bytes(), bankBytes, 0))
      requires second == Inspect(Bank(Bytes(), bankBytes, 1))
      ensures target == Target(Bytes(), bankBytes) && generation == Successor(Bytes(), bankBytes)
    {
      hide Inspect, GenerationNewer;
      target := 0;
      var current := 0;
      if first.valid && second.valid {
        var newest := if GenerationNewer(second.generation, first.generation) then 1 else 0;
        target := 1 - newest;
        current := if newest == 0 then first.generation else second.generation;
      } else if first.valid {
        target, current := 1, first.generation;
      } else if second.valid {
        target, current := 0, second.generation;
      }
      generation := NextGeneration(current);
    }

    /** Commits one payload; the ghost result says how far it got. */
    method Commit(payload: seq<byte>) returns (ok: bool, generation: u64, target: nat, ghost attempt: Attempt)
      requires Valid() && Fits(payload, bankBytes)
      modifies storage, storage.bytes
      ensures attempt.payload == payload && attempt.acknowledged == ok && attempt.Possible(bankBytes)
      ensures Bytes() == After(old(Bytes()), bankBytes, attempt)
      ensures old(storage.Reliable() && storage.readFaults == []) && bankBytes <= UNLIMITED ==> ok
    {
      ghost var before := Bytes();
      var first, firstError := InspectBank(storage, bankBytes, 0);
      var second, secondError := InspectBank(storage, bankBytes, 1);
      if firstError || secondError {
        return false, 0, 0, Attempt(payload, Untouched, false);
      }
      target, generation := Choose(first, second);
      hide Target, Successor, Inspect, SetBank, WrittenBank, Bank;
      ghost var progress;
      ok, progress := WriteRecord(storage, bankBytes, target, generation, payload);
      attempt := Attempt(payload, progress, ok);
    }

    /** MmsStaticBrcbCheckpointStore::checkpoint. */
    method Checkpoint(runtime: Runtime, stateBuffer: array<byte>)
      returns (result: CheckpointResult, ghost attempt: Option<Attempt>)
      requires runtime.Valid() && stateBuffer != storage.bytes
      modifies storage, storage.bytes, stateBuffer
      ensures attempt.None? ==> Bytes() == old(Bytes())
      ensures attempt.None? ==> result.status in {InvalidBackend, StateBufferTooSmall, StateEncodeFailed, InvalidLayout}
      ensures attempt.Some? ==>
        && Valid() && attempt.value.Possible(bankBytes) && Storable(runtime.QueueView())
        && attempt.value.payload == ImageV2(Fingerprint(runtime.definition), runtime.QueueView())
        && Bytes() == After(old(Bytes()), bankBytes, attempt.value)
        && result.status in {Ok, StorageFailure} && (result.status == Ok <==> attempt.value.acknowledged)
      ensures attempt.Some? <==> Valid() && Room(runtime.QueueView(), runtime.definition, stateBuffer.Length, bankBytes)
      ensures old(storage.Reliable() && storage.readFaults == []) && bankBytes <= UNLIMITED && attempt.Some? ==>
        result.status == Ok
    {
      if !Valid() {
        return CheckpointResult(InvalidBackend, ImageOk, 0, 0, 0), None;
      }
      var stateStatus, written, required := Encode(runtime, stateBuffer);
      if stateStatus != ImageOk {
        var status := if stateStatus == BufferTooSmall then StateBufferTooSmall else StateEncodeFailed;
        return CheckpointResult(status, stateStatus, 0, 0, 0), None;
      }
      if written > bankBytes - HEADER_BYTES - FOOTER_BYTES || written >= U32_LIMIT {
        return CheckpointResult(InvalidLayout, ImageOk, 0, 0, written), None;
      }
      var payload := stateBuffer[..written];
      assert payload == ImageV2(Fingerprint(runtime.definition), runtime.QueueView());
      hide ImageV2, Fingerprint, Ring, Unrolled, After;
      var ok, generation, target, a := Commit(payload);
      return CheckpointResult(if ok then Ok else StorageFailure, ImageOk, generation, target, written), Some(a);
    }

    /** The load_bank step of a restore: read the payload again and check it again. */
    method LoadBank(i: nat, info: BankInfo, stateBuffer: array<byte>)
      returns (status: CheckpointStatus, payload: seq<byte>)
      requires Valid() && i < 2 && stateBuffer != storage.bytes
      requires info.valid && info == Inspect(Bank(Bytes(), bankBytes, i))
      modifies storage`readFaults, stateBuffer
      ensures status in {Ok, StateBufferTooSmall, StorageFailure}
      ensures status == Ok ==> Offered(Bank(Bytes(), bankBytes, i)) == Some(Record(info.generation, payload))
      ensures status == StateBufferTooSmall <==> stateBuffer.Length < info.payloadBytes
      ensures old(storage.readFaults) == [] ==> status != StorageFailure && storage.readFaults == []
    {
      payload := [];
      if stateBuffer.Length < info.payloadBytes {
        return StateBufferTooSmall, [];
      }
      var read, data := ReadFromBank(storage, bankBytes, i, HEADER_BYTES, info.payloadBytes);
      if !read {
        return StorageFailure, [];
      }
      CopyInto(stateBuffer, 0, data);
      var check := ChecksumOf(data);
      ReadBack(Bank(Bytes(), bankBytes, i), data);
      hide Inspect, Offered, Crc32, Bank;
      status := if check == info.payloadCrc then Ok else StorageFailure;
      payload := data;
    }

    /** MmsStaticBrcbCheckpointStore::restore. */
    method Restore(runtime: Runtime, stateBuffer: array<byte>) returns (result: CheckpointResult)
      requires runtime.Valid() && stateBuffer != storage.bytes
      modifies storage`readFaults, stateBuffer, runtime, runtime.slots, runtime.masks
      ensures runtime.Valid() && Rooms(runtime) == old(Rooms(runtime))
      ensures result.status == Ok ==>
        && Valid() && result.bank < 2
        && Yields(Offered(Bank(Bytes(), bankBytes, result.bank)), runtime.definition, old(Rooms(runtime)),
                  old(runtime.View()), runtime.View())
      ensures result.status != Ok ==> runtime.View() == old(runtime.View())
      ensures result.status == Ok && old(storage.readFaults) == [] ==>
        Newest(Bytes(), bankBytes) == Offered(Bank(Bytes(), bankBytes, result.bank))
      ensures result.status == InvalidBackend <==> !Valid()
      ensures Valid() && old(storage.readFaults) == [] ==>
        result.status ==
        Verdict(Newest(Bytes(), bankBytes), stateBuffer.Length, runtime.definition, old(Rooms(runtime)))
    {
      if !Valid() {
        return CheckpointResult(InvalidBackend, ImageOk, 0, 0, 0);
      }
      var status, payload, generation, bank := LoadNewest(stateBuffer);
      if status != Ok {
        return CheckpointResult(status, ImageOk, generation, bank, |payload|);
      }
      ghost var before, rooms := runtime.View(), Rooms(runtime);
      ghost var offered := Offered(Bank(Bytes(), bankBytes, bank));
      hide Offered, Newest, Bank, Ring, Unrolled, Parse, Fingerprint, BrcbLog.AfterRestore, Layout, Yields, Verdict;
      var stateStatus := StateCodec.Restore(runtime, payload);
      Installed(offered, stateStatus, stateBuffer.Length, runtime.definition, rooms, before, runtime.View());
      status := if stateStatus == ImageOk then Ok else StateRestoreFailed;
      return CheckpointResult(status, stateStatus, generation, bank, |payload|);
    }

    method LoadNewest(stateBuffer: array<byte>)
      returns (status: CheckpointStatus, payload: seq<byte>, generation: u64, bank: nat)
      requires Valid() && stateBuffer != storage.bytes
      modifies storage`readFaults, stateBuffer
      ensures bank < 2
      ensures status == Ok ==> Offered(Bank(Bytes(), bankBytes, bank)) == Some(Record(generation, payload))
      ensures status == Ok && old(storage.readFaults) == [] ==>
        Newest(Bytes(), bankBytes) == Offered(Bank(Bytes(), bankBytes, bank))
      ensures status in {Ok, NoCheckpoint, StateBufferTooSmall, StorageFailure}
      ensures old(storage.readFaults) == [] ==>
        var newest := Newest(Bytes(), bankBytes);
        && (status == NoCheckpoint <==> newest == None)
        && (status == Ok <==> newest.Some? && |newest.value.payload| <= stateBuffer.Length)
        && status != StorageFailure
    {
      payload, generation, bank := [], 0, 0;
      var first, firstError := InspectBank(storage, bankBytes, 0);
      var second, secondError := InspectBank(storage, bankBytes, 1);
      hide Inspect, GenerationNewer, Offered, Newest, NewestBank, Bank, Layout;
      NewestIsPrimary(Bytes(), bankBytes);
      if !first.valid && !second.valid {
        return if firstError || secondError then StorageFailure else NoCheckpoint, [], 0, 0;
      }
      var both := first.valid && second.valid;
      bank := Primary(first, second);
      var primary := if bank == 0 then first else second;
      OfferedSize(Bytes(), bankBytes, 0);
      OfferedSize(Bytes(), bankBytes, 1);
      generation := primary.generation;
      status, payload := LoadBank(bank, primary, stateBuffer);
      if status == StorageFailure && both {
        bank := 1 - bank;
        var fallback := if bank == 0 then first else second;
        generation := fallback.generation;
        status, payload := LoadBank(bank, fallback, stateBuffer);
      }
    }
  }

  /** The image of a window can be made in a buffer and written into a bank of these sizes. */
  ghost predicate Room(q: BrcbLog.Queue, definition: Definition, buffer: nat, bankBytes: nat) {
    && Storable(q)
    && var size := |ImageV2(Fingerprint(definition), q)|;
       size <= buffer && Fitting(size, bankBytes)
  }

  predicate Fitting(size: nat, bankBytes: nat) {
    HEADER_BYTES + size + FOOTER_BYTES <= bankBytes && size < U32_LIMIT
  }

  /** How a restore ends where every read succeeds. */
  function Verdict(newest: Option<Record>, buffer: nat, definition: Definition, rooms: seq<nat>): CheckpointStatus {
    match newest
    case None => NoCheckpoint
    case Some(record) =>
      if |record.payload| > buffer then StateBufferTooSmall
      else if Parse(record.payload, Fingerprint(definition), rooms).Restored? then Ok
      else StateRestoreFailed
  }

  /** What is read where a valid bank has its payload is what it offers, and passes the check again. */
  lemma ReadBack(bank: seq<byte>, data: seq<byte>)
    requires |bank| > HEADER_BYTES + FOOTER_BYTES && Inspect(bank).valid
    requires data == bank[HEADER_BYTES..HEADER_BYTES + Inspect(bank).payloadBytes]
    ensures Crc32(data) == Inspect(bank).payloadCrc && Offered(bank) == Some(Record(Inspect(bank).generation, data))
  {
    hide Agreed, Crc32;
  }

  lemma OfferedSize(storage: seq<byte>, n: nat, i: nat)
    requires Layout(storage, n) && i < 2
    ensures var bank := Bank(storage, n, i);
      Inspect(bank).valid ==> Offered(bank).Some? && |Offered(bank).value.payload| == Inspect(bank).payloadBytes
  {
    hide Crc32, HeaderAccepted, FooterAccepted;
  }

  /** The bank a restore tries first, of those that could be read and are valid. */
  function Primary(first: BankInfo, second: BankInfo): (i: nat)
    requires first.valid || second.valid
    ensures i < 2 && (if i == 0 then first else second).valid
  {
    if first.valid && second.valid
    then (if GenerationNewer(second.generation, first.generation) then 1 else 0)
    else if second.valid then 1 else 0
  }

  lemma NewestIsPrimary(storage: seq<byte>, n: nat)
    requires Layout(storage, n)
    ensures var first, second := Inspect(Bank(storage, n, 0)), Inspect(Bank(storage, n, 1));
      if first.valid || second.valid
      then Newest(storage, n).Some? && Newest(storage, n) == Offered(Bank(storage, n, Primary(first, second)))
      else Newest(storage, n) == None
  {
    hide Inspect, GenerationNewer;
  }

  /** A restored runtime holds exactly what the image in the offered record describes. */
  ghost predicate Yields(offered: Option<Record>, definition: Definition, rooms: seq<nat>,
                         before: BrcbLog.State, after: BrcbLog.State)
  {
    && offered.Some?
    && var parsed := Parse(offered.value.payload, Fingerprint(definition), rooms);
       parsed.Restored? && after == BrcbLog.AfterRestore(before, parsed.queue)
  }

  /** What a restore of the offered record's payload comes to. */
  lemma Installed(offered: Option<Record>, status: StateStatus, buffer: nat, definition: Definition, rooms: seq<nat>,
                  before: BrcbLog.State, after: BrcbLog.State)
    requires offered.Some?
    requires match Parse(offered.value.payload, Fingerprint(definition), rooms)
      case Rejected(rejection) => status == rejection && after == before
      case Restored(q) => status == ImageOk && after == BrcbLog.AfterRestore(before, q)
    ensures status == ImageOk ==> Yields(offered, definition, rooms, before, after)
    ensures status != ImageOk ==> after == before
    ensures |offered.value.payload| <= buffer ==>
      Verdict(offered, buffer, definition, rooms) == if status == ImageOk then Ok else StateRestoreFailed
  {
  }

  // ----- End to end

  /** Each attempt saved the window `windows[i]` of a runtime with this fingerprint. */
  ghost predicate Saves(attempts: seq<Attempt>, windows: seq<BrcbLog.Queue>, fingerprint: u64, n: nat) {
    && |windows| == |attempts|
    && forall i :: 0 <= i < |attempts| ==>
         attempts[i].Possible(n) && Storable(windows[i]) && BrcbHistory.Ordered(windows[i]) &&
         attempts[i].payload == ImageV2(fingerprint, windows[i])
  }

  /**
   From erased storage, after any run of checkpoint attempts interrupted anywhere:
   if one was acknowledged there is something to restore, and it is the whole window,
   cursor, gap and counters saved by the last acknowledged attempt or a later one,
   restored exactly if it fits the slots.
   */
  lemma RestoredWindowIsLastAcknowledgedOrLater(
    storage: seq<byte>, n: nat, attempts: seq<Attempt>, windows: seq<BrcbLog.Queue>, fingerprint: u64, rooms: seq<nat>)
    requires Layout(storage, n) && Newest(storage, n) == None
    requires Saves(attempts, windows, fingerprint, n)
    ensures Recoverable(attempts, windows, fingerprint, rooms, Newest(AfterAll(storage, n, attempts), n))
  {
    RestoreSeesLastAcknowledgedOrLater(storage, n, attempts);
    hide *;
    ExplainedIsRecoverable(attempts, windows, fingerprint, n, rooms, Newest(AfterAll(storage, n, attempts), n));
  }

  /** What becomes of the image of a window: the window again if it fits the slots, and otherwise a refusal. */
  function Reading(window: BrcbLog.Queue, rooms: seq<nat>): Parsed {
    if FitsSlots(window.retained, rooms) then Restored(Recovered(window)) else Rejected(CapacityMismatch)
  }

  /** Nothing was ever acknowledged, or `seen` restores the window of the last acknowledged attempt or a later one. */
  ghost predicate Recoverable(attempts: seq<Attempt>, windows: seq<BrcbLog.Queue>, fingerprint: u64, rooms: seq<nat>,
                              seen: Option<Record>)
    requires |windows| == |attempts|
  {
    || (seen == None && LastAcknowledgedBy(attempts, -1))
    || exists i :: 0 <= i < |attempts| && LastAcknowledgedBy(attempts, i) && seen.Some? &&
                   Parse(seen.value.payload, fingerprint, rooms) == Reading(windows[i], rooms)
  }

  lemma ExplainedIsRecoverable(attempts: seq<Attempt>, windows: seq<BrcbLog.Queue>, fingerprint: u64, n: nat,
                               rooms: seq<nat>, seen: Option<Record>)
    requires Saves(attempts, windows, fingerprint, n) && Explained(None, attempts, seen)
    ensures Recoverable(attempts, windows, fingerprint, rooms, seen)
  {
    hide Parse, ImageV2, Storable, BrcbHistory.Ordered, FitsSlots, LastAcknowledgedBy, Recovered;
    if !(seen == None && LastAcknowledgedBy(attempts, -1)) {
      var i :| 0 <= i < |attempts| && LastAcknowledgedBy(attempts, i) && seen.Some? &&
        seen.value.payload == attempts[i].payload;
      ImageRoundTrip(fingerprint, windows[i], rooms);
    }
  }

  lemma ErasedOffersNothing(storage: seq<byte>, n: nat)
    requires Layout(storage, n) && storage == Fill(|storage|, ERASED)
    ensures Newest(storage, n) == None
  {
    ErasedBank(storage, n, 0);
    ErasedBank(storage, n, 1);
    hide Offered, Bank;
  }

  lemma ErasedBank(storage: seq<byte>, n: nat, i: nat)
    requires Layout(storage, n) && storage == Fill(|storage|, ERASED) && i < 2
    ensures Offered(Bank(storage, n, i)) == None
  {
    hide Offered;
    var bank := Bank(storage, n, i);
    PartlyErasedOffersNothing(bank, n);
    assert Splice(bank, 0, Fill(n, ERASED)) == bank;
  }
}
