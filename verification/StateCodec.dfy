/**
 Encoding a running BRCB into its recovery image and restoring one from it.
 */
module StateCodec {
  import opened Octets
  import opened Fnv
  import opened BrcbLog
  import opened BrcbRuntime
  import opened BrcbHistory
  import opened StateImage

  ghost function Rooms(runtime: Runtime): (r: seq<nat>)
    reads runtime.slots
    ensures |r| == runtime.slots.Length
  {
    RoomsOf(runtime.slots[..])
  }

  function RoomsOf(slots: seq<Slot>): (r: seq<nat>)
    ensures |r| == |slots| && forall i :: 0 <= i < |slots| ==> r[i] == slots[i].room
  {
    seq(|slots|, i requires 0 <= i < |slots| => slots[i].room)
  }

  // ----- Encoding

  lemma EntriesGrow(es: seq<Entry>, k: nat)
    requires k < |es| && Writable(es[..k]) && |es[k].pdu| < U32_LIMIT
    ensures Writable(es[..k + 1])
    ensures EntriesBytes(es[..k + 1]) == EntriesBytes(es[..k]) + EntryBytes(es[k])
  {
    assert es[..k + 1] == es[..k] + [es[k]];
    assert es[..k + 1][..k] == es[..k];
  }

  /** First pass: is every retained report storable, and how long is the image? */
  method RequiredBytes(runtime: Runtime) returns (ok: bool, required: nat)
    requires runtime.Valid()
    ensures ok ==> Writable(runtime.Retained()) && required == HEADER_V2 + |EntriesBytes(runtime.Retained())|
    ensures !ok ==> !Writable(runtime.Retained()) || HEADER_V2 + |EntriesBytes(runtime.Retained())| > U64_MAX
  {
    ghost var es := runtime.Retained();
    required := HEADER_V2;
    for logical := 0 to runtime.count
      invariant Writable(es[..logical])
      invariant required == HEADER_V2 + |EntriesBytes(es[..logical])| <= U64_MAX
    {
      var entry := runtime.ReportAt(logical);
      var bytes := |entry.pdu|;
      if bytes >= U32_LIMIT {
        return false, 0;
      }
      EntriesGrow(es, logical);
      if ENTRY_HEADER + bytes > U64_MAX - required {
        LongerPrefix(es, logical + 1);
        return false, 0;
      }
      required := required + ENTRY_HEADER + bytes;
    }
    assert es[..runtime.count] == es;
    return true, required;
  }

  lemma {:induction false} LongerPrefix(es: seq<Entry>, k: nat)
    requires k <= |es| && Writable(es[..k])
    ensures Writable(es) ==> |EntriesBytes(es[..k])| <= |EntriesBytes(es)|
  {
    if k == |es| {
      assert es[..k] == es;
    } else if Writable(es) {
      EntriesPrefix(es, k);
    }
  }

  method LayHeader(a: array<byte>, fingerprint: u64, ghost q: Queue, count: u32, next: u64, dropped: u64,
                   sequence: byte, gap: bool, cursor: u32)
    requires Storable(q) && count == |q.retained| && next == q.next && dropped == q.dropped
    requires sequence == q.sequence && gap == q.gap && cursor == q.cursor
    requires a.Length >= HEADER_V2 && Laid(a, [])
    modifies a
    ensures Laid(a, HeaderV2(fingerprint, q))
  {
    LayBytes(a, [], 0, MAGIC + [0x32]);
    ghost var p := [] + (MAGIC + [0x32]);
    LayBE(a, p, 8, 2, 2);
    p := p + ToBE(2, 2);
    LayBE(a, p, 10, 2, HEADER_V2);
    p := p + ToBE(2, HEADER_V2);
    LayBE(a, p, 12, 8, fingerprint);
    p := p + ToBE(8, fingerprint);
    LayBE(a, p, 20, 4, count);
    p := p + ToBE(4, count);
    LayBE(a, p, 24, 8, next);
    p := p + ToBE(8, next);
    LayBE(a, p, 32, 8, dropped);
    p := p + ToBE(8, dropped);
    LayBytes(a, p, 40, [sequence]);
    p := p + [sequence];
    assert p == CommonFields(2, HEADER_V2, fingerprint, q);
    LayBytes(a, p, 41, [Flag(gap), 0, 0]);
    p := p + [Flag(gap), 0, 0];
    LayBE(a, p, 44, 4, cursor);
    p := p + ToBE(4, cursor);
    LayZeros(a, p, 8);
    assert p + Fill(8, 0) == HeaderV2(fingerprint, q);
  }

  method LayEntry(a: array<byte>, ghost prefix: seq<byte>, offset: nat, e: Entry)
    requires Laid(a, prefix) && offset == |prefix| && |e.pdu| < U32_LIMIT
    requires offset + ENTRY_HEADER + |e.pdu| <= a.Length
    modifies a
    ensures Laid(a, prefix + EntryBytes(e))
  {
    LayBE(a, prefix, offset, 4, |e.pdu|);
    ghost var p := prefix + ToBE(4, |e.pdu|);
    LayBytes(a, p, offset + 4, e.entryId);
    p := p + e.entryId;
    LayBytes(a, p, offset + 12, [e.sequenceNumber, Flag(e.bufferOverflow), 0, 0]);
    p := p + [e.sequenceNumber, Flag(e.bufferOverflow), 0, 0];
    LayBytes(a, p, offset + 16, e.pdu);
    assert p + e.pdu == prefix + EntryBytes(e);
  }

  /** MmsStaticBrcbStateCodec::encode. */
  method Encode(runtime: Runtime, destination: array<byte>) returns (status: StateStatus, written: nat, required: nat)
    requires runtime.Valid()
    modifies destination
    ensures status in {ImageOk, BadRuntime, BufferTooSmall}
    ensures status == ImageOk ==>
      && Storable(runtime.QueueView())
      && var image := ImageV2(Fingerprint(runtime.definition), runtime.QueueView());
         written == |image| <= destination.Length && destination[..] == image + old(destination[..])[written..]
    ensures status == BufferTooSmall ==>
      && Storable(runtime.QueueView())
      && destination.Length < required == |ImageV2(Fingerprint(runtime.definition), runtime.QueueView())|
    ensures status != ImageOk ==> destination[..] == old(destination[..])
    ensures status == BadRuntime ==>
      || !Storable(runtime.QueueView())
      || |ImageV2(Fingerprint(runtime.definition), runtime.QueueView())| > U64_MAX
  {
    written, required := 0, 0;
    ghost var q := runtime.QueueView();
    var ok, needed := RequiredBytes(runtime);
    ImageSize(Fingerprint(runtime.definition), q);
    hide EntriesBytes, Writable, ImageV2, Ring, Unrolled, Fingerprint, HeaderV2;
    if !ok || runtime.count >= U32_LIMIT || runtime.deliveryOffset >= U32_LIMIT {
      return BadRuntime, 0, 0;
    }
    required := needed;
    if destination.Length < required {
      return BufferTooSmall, 0, required;
    }
    var output := WriteImage(runtime, required);
    PutFront(destination, output);
    return ImageOk, required, required;
  }

  method PutFront(destination: array<byte>, output: seq<byte>)
    requires |output| <= destination.Length
    modifies destination
    ensures destination[..] == output + old(destination[..])[|output|..]
  {
    CopyInto(destination, 0, output);
  }

  lemma ImageSize(fingerprint: u64, q: Queue)
    ensures Storable(q) ==> |ImageV2(fingerprint, q)| == HEADER_V2 + |EntriesBytes(q.retained)|
  {
    hide EntriesBytes, Writable;
  }

  lemma NothingWritten(es: seq<Entry>)
    ensures Writable(es[..0]) && EntriesBytes(es[..0]) == []
  {
  }

  lemma LaidWhole(a: array<byte>, bytes: seq<byte>)
    requires Laid(a, bytes) && |bytes| == a.Length
    ensures a[..] == bytes
  {
  }

  method LayEntries(runtime: Runtime, output: array<byte>, ghost header: seq<byte>)
    requires runtime.Valid() && Writable(runtime.Retained()) && |header| == HEADER_V2
    requires output.Length == HEADER_V2 + |EntriesBytes(runtime.Retained())| && Laid(output, header)
    modifies output
    ensures output[..] == header + EntriesBytes(runtime.Retained())
  {
    hide *;
    ghost var es := runtime.Retained();
    var offset := HEADER_V2;
    NothingWritten(es);
    assert header + EntriesBytes(es[..0]) == header;
    for logical := 0 to runtime.count
      invariant Writable(es[..logical])
      invariant offset == HEADER_V2 + |EntriesBytes(es[..logical])|
      invariant Laid(output, header + EntriesBytes(es[..logical]))
      modifies output
    {
      var entry := runtime.ReportAt(logical);
      WritableAt(es, logical);
      EntriesGrow(es, logical);
      LongerPrefix(es, logical + 1);
      LayEntry(output, header + EntriesBytes(es[..logical]), offset, entry);
      offset := offset + ENTRY_HEADER + |entry.pdu|;
      assert header + EntriesBytes(es[..logical]) + EntryBytes(es[logical]) ==
             header + (EntriesBytes(es[..logical]) + EntryBytes(es[logical]));
    }
    assert es[..runtime.count] == es;
    LaidWhole(output, header + EntriesBytes(es));
  }

  method WriteImage(runtime: Runtime, required: nat) returns (image: seq<byte>)
    requires runtime.Valid() && Storable(runtime.QueueView())
    requires required == HEADER_V2 + |EntriesBytes(runtime.Retained())|
    ensures image == ImageV2(Fingerprint(runtime.definition), runtime.QueueView())
  {
    ghost var q := runtime.QueueView();
    hide EntriesBytes, Hash, Writable, Ring, Unrolled, HeaderV2;
    var fingerprint := HashBytes(FNV_OFFSET, HashedText(runtime.definition));
    var output := new byte[required](_ => 0);
    assert Laid(output, []);
    LayHeader(output, fingerprint, q, runtime.count, runtime.nextEntryNumber, runtime.droppedReports,
              runtime.sequenceNumber, runtime.replayGap, runtime.deliveryOffset);
    LayEntries(runtime, output, HeaderV2(fingerprint, q));
    image := output[..];
  }

  // ----- Restoring

  method CheckEntry(source: seq<byte>, at: nat, room: nat, previous: Option<nat>)
    returns (status: StateStatus, bytes: nat, number: nat)
    requires at <= |source|
    ensures match ParseEntry(source, at, room, previous)
      case EntriesRejected(rejection) => status == rejection
      case ParsedEntries(one, next) =>
        status == ImageOk && next == at + ENTRY_HEADER + bytes <= |source| && 0 < bytes &&
        |one| == 1 && number == Number(one[0]) && one[0].sequenceNumber == source[at + 12]
  {
    bytes, number := 0, 0;
    if |source| - at < ENTRY_HEADER {
      return InvalidState, 0, 0;
    }
    bytes := ReadBE(source, at, 4);
    if bytes == 0 || source[at + 13] > 1 || source[at + 14] != 0 || source[at + 15] != 0 || bytes > room {
      return if bytes > room then CapacityMismatch else InvalidState, 0, 0;
    }
    if bytes > |source| - at - ENTRY_HEADER {
      return InvalidState, 0, 0;
    }
    number := ReadBE(source, at + 4, 8);
    if number == 0 || (previous.Some? && number != Successor(previous.value)) {
      return InvalidState, 0, 0;
    }
    return ImageOk, bytes, number;
  }

  /** The validation pass over all entries, before anything is changed. */
  method CheckEntries(source: seq<byte>, start: nat, count: nat, slots: array<Slot>)
    returns (status: StateStatus, end: nat, previous: Option<nat>, sequence: byte)
    requires start <= |source| && count <= slots.Length
    ensures match ParseEntries(source, start, count, RoomsOf(slots[..]))
      case EntriesRejected(rejection) => status == rejection
      case ParsedEntries(es, next) =>
        status == ImageOk && end == next <= |source| && previous == LastNumber(es) &&
        (es != [] ==> sequence == es[|es| - 1].sequenceNumber)
  {
    ghost var rooms := RoomsOf(slots[..]);
    end, previous, sequence := start, None, 0;
    ghost var es: seq<Entry> := [];
    ParseEntriesFromNothing(source, start, rooms);
    for logical := 0 to count
      invariant end <= |source| && |es| == logical
      invariant ParseEntries(source, start, logical, rooms) == ParsedEntries(es, end)
      invariant previous == LastNumber(es)
      invariant es != [] ==> sequence == es[|es| - 1].sequenceNumber
    {
      hide ParseEntry, ParseEntries;
      ParseEntriesUnfold(source, start, logical, rooms);
      var entryStatus, bytes, number := CheckEntry(source, end, slots[logical].room, previous);
      if entryStatus != ImageOk {
        RejectionStays(source, start, logical + 1, count, rooms);
        return entryStatus, 0, None, 0;
      }
      ghost var one := ParseEntry(source, end, rooms[logical], previous);
      es := es + one.entries;
      previous, sequence := Some(number), source[end + 12];
      end := end + ENTRY_HEADER + bytes;
    }
    return ImageOk, end, previous, sequence;
  }

  lemma ParseEntriesFromNothing(source: seq<byte>, start: nat, rooms: seq<nat>)
    requires start <= |source|
    ensures ParseEntries(source, start, 0, rooms) == ParsedEntries([], start)
  {
  }

  lemma {:induction false} RejectionStays(source: seq<byte>, start: nat, j: nat, k: nat, rooms: seq<nat>)
    requires start <= |source| && j <= k <= |rooms|
    requires ParseEntries(source, start, j, rooms).EntriesRejected?
    ensures ParseEntries(source, start, k, rooms) == ParseEntries(source, start, j, rooms)
  {
    if j < k {
      RejectionStays(source, start, j, k - 1, rooms);
    }
  }

  method ReadEntry(source: seq<byte>, at: nat, ghost room: nat, ghost previous: Option<nat>)
    returns (entry: Entry, next: nat)
    requires at <= |source| && ParseEntry(source, at, room, previous).ParsedEntries?
    ensures ParseEntry(source, at, room, previous) == ParsedEntries([entry], next)
  {
    var bytes := ReadBE(source, at, 4);
    var body := at + ENTRY_HEADER;
    entry := Entry(source[at + 4..at + 12], Fill(6, 0), source[body..body + bytes], source[at + 12],
                   source[at + 13] != 0);
    next := body + bytes;
  }

  /** A ring whose first slots hold the given entries; every slot keeps its storage. */
  function Loaded(ring: seq<Slot>, es: seq<Entry>): (r: seq<Slot>)
    requires |es| <= |ring|
    ensures |r| == |ring|
  {
    seq(|ring|, i requires 0 <= i < |ring| => Slot(ring[i].room, if i < |es| then Some(es[i]) else None))
  }

  lemma LoadedStep(ring: seq<Slot>, es: seq<Entry>, e: Entry)
    requires |es| < |ring|
    ensures Loaded(ring, es + [e]) == Loaded(ring, es)[|es| := Slot(ring[|es|].room, Some(e))]
  {
  }

  lemma LoadedRing(ring: seq<Slot>, es: seq<Entry>)
    requires 0 < |ring| && FitsSlots(es, RoomsOf(ring))
    ensures RoomsOf(Loaded(ring, es)) == RoomsOf(ring)
    ensures Ring(Loaded(ring, es), 0, |es|) && Unrolled(Loaded(ring, es), 0, |es|) == es
  {
  }

  /** The second pass, over cleared slots: entry k goes to slot k. */
  method LoadEntries(source: seq<byte>, start: nat, count: nat, slots: array<Slot>)
    requires start <= |source| && count <= slots.Length && slots[..] == Loaded(slots[..], [])
    requires ParseEntries(source, start, count, RoomsOf(slots[..])).ParsedEntries?
    modifies slots
    ensures slots[..] == Loaded(old(slots[..]), ParseEntries(source, start, count, old(RoomsOf(slots[..]))).entries)
  {
    ghost var ring, rooms := slots[..], RoomsOf(slots[..]);
    var offset: nat := start;
    ghost var es: seq<Entry> := [];
    ParseEntriesFromNothing(source, start, rooms);
    for logical := 0 to count
      invariant offset <= |source| && |es| == logical
      invariant ParseEntries(source, start, logical, rooms) == ParsedEntries(es, offset)
      invariant slots[..] == Loaded(ring, es)
    {
      ghost var before := slots[..];
      var room := slots[logical].room;
      assert room == rooms[logical] == ring[logical].room;
      hide *;
      ParseEntriesUnfold(source, start, logical, rooms);
      if ParseEntry(source, offset, rooms[logical], LastNumber(es)).EntriesRejected? {
        RejectionStays(source, start, logical + 1, count, rooms);
      }
      var entry, next := ReadEntry(source, offset, rooms[logical], LastNumber(es));
      slots[logical] := Slot(room, Some(entry));
      assert slots[..] == before[logical := Slot(room, Some(entry))];
      LoadedStep(ring, es, entry);
      es := es + [entry];
      offset := next;
    }
  }

  /** The runtime state a restore leaves: the queue of the image, reporting off, nothing pending. */
  method Reload(runtime: Runtime, source: seq<byte>, start: nat, count: nat)
    requires start <= |source| && count <= runtime.slots.Length && 0 < runtime.slots.Length
    requires ParseEntries(source, start, count, Rooms(runtime)).ParsedEntries?
    modifies runtime.slots
    ensures Rooms(runtime) == old(Rooms(runtime))
    ensures Ring(runtime.slots[..], 0, count)
    ensures Unrolled(runtime.slots[..], 0, count) ==
            ParseEntries(source, start, count, old(Rooms(runtime))).entries
  {
    hide ParseEntries, Ring, Unrolled, Loaded;
    ghost var rooms := Rooms(runtime);
    runtime.ClearSlots();
    ghost var cleared := runtime.slots[..];
    ClearedSlots(cleared);
    assert RoomsOf(cleared) == rooms;
    LoadEntries(source, start, count, runtime.slots);
    ParsedFit(source, start, count, rooms);
    LoadedRing(cleared, ParseEntries(source, start, count, rooms).entries);
  }

  /** The queue part: the slots and the counters beside them. */
  method InstallQueue(runtime: Runtime, source: seq<byte>, start: nat, count: nat, cursor: nat, next: u64, dropped: u64,
                      sequence: byte, gap: bool)
    requires start <= |source| && cursor <= count <= runtime.slots.Length && 0 < runtime.slots.Length
    requires ParseEntries(source, start, count, Rooms(runtime)).ParsedEntries?
    modifies runtime`head, runtime`count, runtime`deliveryOffset, runtime`nextEntryNumber, runtime`droppedReports
    modifies runtime`sequenceNumber, runtime`replayGap, runtime`queueRevision, runtime.slots
    ensures runtime.Valid() && Rooms(runtime) == old(Rooms(runtime))
    ensures runtime.queueRevision == Bump(old(runtime.queueRevision))
    ensures runtime.QueueView() ==
      Queue(ParseEntries(source, start, count, old(Rooms(runtime))).entries, cursor, next, dropped, gap, sequence)
  {
    hide ParseEntries, Ring, Unrolled, RoomsOf, Bump;
    Reload(runtime, source, start, count);
    runtime.AdoptQueue(count, cursor, next, dropped, sequence, gap);
  }

  /** The schedule part: reporting off, nothing pending. */
  method Install(runtime: Runtime, source: seq<byte>, start: nat, count: nat, cursor: nat, next: u64, dropped: u64,
                 sequence: byte, gap: bool)
    requires runtime.Valid() && start <= |source| && cursor <= count <= runtime.slots.Length
    requires ParseEntries(source, start, count, Rooms(runtime)).ParsedEntries?
    modifies runtime, runtime.slots, runtime.masks
    ensures runtime.Valid() && Rooms(runtime) == old(Rooms(runtime))
    ensures runtime.View() == AfterRestore(
      old(runtime.View()),
      Queue(ParseEntries(source, start, count, old(Rooms(runtime))).entries, cursor, next, dropped, gap, sequence))
  {
    assert 0 < runtime.slots.Length;
    hide ParseEntries, Ring, Unrolled, RoomsOf, Bump, AfterRestore;
    ghost var before := runtime.View();
    InstallQueue(runtime, source, start, count, cursor, next, dropped, sequence, gap);
    runtime.ForgetPending(before);
  }

  /** Whatever the validation pass accepted fits the slot it is meant for. */
  lemma {:induction false} ParsedFit(source: seq<byte>, start: nat, k: nat, rooms: seq<nat>)
    requires start <= |source| && k <= |rooms| && ParseEntries(source, start, k, rooms).ParsedEntries?
    ensures FitsSlots(ParseEntries(source, start, k, rooms).entries, rooms)
  {
    hide ParseEntry;
    if k != 0 {
      ParsedFit(source, start, k - 1, rooms);
      ghost var before := ParseEntries(source, start, k - 1, rooms);
      OneFits(source, before.offset, rooms[k - 1], LastNumber(before.entries));
    }
  }

  lemma OneFits(source: seq<byte>, at: nat, room: nat, previous: Option<nat>)
    requires at <= |source|
    ensures var one := ParseEntry(source, at, room, previous);
      one.ParsedEntries? ==> |one.entries| == 1 && |one.entries[0].pdu| <= room
  {
  }

  lemma ClearedSlots(slots: seq<Slot>)
    requires forall i :: 0 <= i < |slots| ==> slots[i] == Slot(slots[i].room, None)
    ensures slots == Loaded(slots, [])
  {
  }

  method CheckHeader(source: seq<byte>, version: nat, header: nat) returns (matches: bool)
    requires 12 <= header
    ensures matches == IsVersion(source, version, header)
  {
    if |source| < header || source[..7] != MAGIC || source[7] != 0x30 + version {
      return false;
    }
    var v := ReadBE(source, 8, 2);
    var h := ReadBE(source, 10, 2);
    return v == version && h == header;
  }

  /** MmsStaticBrcbStateCodec::restore: all of the image is checked before any of it is installed. */
  method Restore(runtime: Runtime, source: seq<byte>) returns (status: StateStatus)
    requires runtime.Valid()
    modifies runtime, runtime.slots, runtime.masks
    ensures runtime.Valid() && Rooms(runtime) == old(Rooms(runtime))
    ensures match Parse(source, Fingerprint(runtime.definition), old(Rooms(runtime)))
      case Rejected(rejection) => status == rejection && runtime.View() == old(runtime.View())
      case Restored(q) => status == ImageOk && runtime.View() == AfterRestore(old(runtime.View()), q)
  {
    hide ParseBody, IsVersion, Ring, Unrolled, Hash;
    var v2 := CheckHeader(source, 2, HEADER_V2);
    var v1 := CheckHeader(source, 1, HEADER_V1);
    VersionLength(source, 2, HEADER_V2);
    VersionLength(source, 1, HEADER_V1);
    if !v2 && !v1 {
      return InvalidState;
    }
    var cursor, gap, start := 0, false, HEADER_V1;
    if v2 {
      if source[41] > 1 || source[42] != 0 || source[43] != 0 || source[48..56] != Fill(8, 0) {
        return InvalidState;
      }
      gap := source[41] == 1;
      cursor := ReadBE(source, 44, 4);
      start := HEADER_V2;
    } else if source[41..48] != Fill(7, 0) {
      return InvalidState;
    }
    status := RestoreBody(runtime, source, start, cursor, gap);
  }

  lemma VersionLength(source: seq<byte>, version: nat, header: nat)
    ensures IsVersion(source, version, header) ==> |source| >= header
  {
  }

  method RestoreBody(runtime: Runtime, source: seq<byte>, start: nat, cursor: nat, gap: bool)
    returns (status: StateStatus)
    requires runtime.Valid() && 41 <= start <= |source|
    modifies runtime, runtime.slots, runtime.masks
    ensures runtime.Valid() && Rooms(runtime) == old(Rooms(runtime))
    ensures match ParseBody(source, start, cursor, gap, Fingerprint(runtime.definition), old(Rooms(runtime)))
      case Rejected(rejection) => status == rejection && runtime.View() == old(runtime.View())
      case Restored(q) => status == ImageOk && runtime.View() == AfterRestore(old(runtime.View()), q)
  {
    hide ParseEntries, Ring, Unrolled, Hash, HashedText, AfterRestore;
    var fingerprint := HashBytes(FNV_OFFSET, HashedText(runtime.definition));
    var announced := ReadBE(source, 12, 8);
    if announced != fingerprint {
      return DefinitionMismatch;
    }
    WordSizes();
    var count := ReadBE(source, 20, 4);
    var next := ReadBE(source, 24, 8);
    var dropped := ReadBE(source, 32, 8);
    if count > runtime.slots.Length {
      return CapacityMismatch;
    }
    if cursor > count || next == 0 {
      return InvalidState;
    }
    var entriesStatus, end, previous, sequence := CheckEntries(source, start, count, runtime.slots);
    if entriesStatus != ImageOk {
      return entriesStatus;
    }
    if end != |source| || (count != 0 && next != Successor(previous.value)) || (count != 0 && source[40] != sequence) {
      return InvalidState;
    }
    Install(runtime, source, start, count, cursor, next, dropped, source[40], gap);
    return ImageOk;
  }

  // ----- When a runtime's own image fits back into its slots

  /** With slots of one size, always. */
  lemma EqualSlotsFit(slots: seq<Slot>, head: nat, count: nat, room: nat)
    requires Ring(slots, head, count)
    requires forall i :: 0 <= i < |slots| ==> slots[i].room == room
    ensures FitsSlots(Unrolled(slots, head, count), RoomsOf(slots))
  {
    var es := Unrolled(slots, head, count);
    forall i | 0 <= i < count ensures |es[i].pdu| <= RoomsOf(slots)[i] {
      assert Holds(slots[Physical(head, i, |slots|)]);
    }
  }
}
