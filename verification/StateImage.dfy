/**
 The recovery image of a BRCB: what static_brcb_state_codec.cpp writes for a
 retained window and what it accepts back, in both format versions.
 */
module StateImage {
  import opened Octets
  import opened Fnv
  import opened BrcbLog
  import opened BrcbHistory
  import opened BrcbRuntime

  const MAGIC: seq<byte> := [0x41, 0x52, 0x42, 0x52, 0x43, 0x42, 0x51]  // 'ARBRCBQ'
  const HEADER_V1: nat := 48
  const HEADER_V2: nat := 56
  const ENTRY_HEADER: nat := 16

  datatype StateStatus = ImageOk | BadRuntime | BufferTooSmall | InvalidState | DefinitionMismatch | CapacityMismatch
  type Rejection = s: StateStatus | s != ImageOk witness InvalidState

  // ----- Fingerprint of a definition: 64-bit FNV-1a

  function Text(t: seq<byte>): seq<byte> {
    ToBE(8, |t|) + t
  }

  function HashedText(d: Definition): seq<byte> {
    Text(d.domain) + Text(d.item) + Text(d.reportId) + Text(d.dataSetDomain) + Text(d.dataSetItem) +
    ToBE(8, d.confRevision) + d.optionalFields + ToBE(8, d.bufferTime) + [d.triggerOptions]
  }

  function Fingerprint(d: Definition): u64 {
    Hash(FNV_OFFSET, HashedText(d))
  }

  // ----- What is written

  function Flag(b: bool): byte {
    if b then 1 else 0
  }

  function EntryBytes(e: Entry): (r: seq<byte>)
    requires |e.entryId| == 8 && |e.pdu| < U32_LIMIT
    ensures |r| == ENTRY_HEADER + |e.pdu|
  {
    ToBE(4, |e.pdu|) + e.entryId + [e.sequenceNumber, Flag(e.bufferOverflow), 0, 0] + e.pdu
  }

  predicate Writable(es: seq<Entry>) {
    forall i :: 0 <= i < |es| ==> |es[i].entryId| == 8 && |es[i].pdu| < U32_LIMIT
  }

  function EntriesBytes(es: seq<Entry>): seq<byte>
    requires Writable(es)
  {
    if es == [] then [] else EntriesBytes(es[..|es| - 1]) + EntryBytes(es[|es| - 1])
  }

  predicate Storable(q: Queue) {
    Writable(q.retained) && |q.retained| < U32_LIMIT && q.cursor < U32_LIMIT
  }

  /** The fields both versions share: magic and version, then fingerprint to sequence number. */
  function CommonFields(version: nat, header: nat, fingerprint: u64, q: Queue): (r: seq<byte>)
    requires Storable(q) && 1 <= version <= 2
    ensures |r| == 41
  {
    MAGIC + [0x30 + version] + ToBE(2, version) + ToBE(2, header) + ToBE(8, fingerprint) + ToBE(4, |q.retained|) +
    ToBE(8, q.next) + ToBE(8, q.dropped) + [q.sequence]
  }

  function HeaderV2(fingerprint: u64, q: Queue): (r: seq<byte>)
    requires Storable(q)
    ensures |r| == HEADER_V2
  {
    CommonFields(2, HEADER_V2, fingerprint, q) + [Flag(q.gap), 0, 0] + ToBE(4, q.cursor) + Fill(8, 0)
  }

  function HeaderV1(fingerprint: u64, q: Queue): (r: seq<byte>)
    requires Storable(q)
    ensures |r| == HEADER_V1
  {
    CommonFields(1, HEADER_V1, fingerprint, q) + Fill(7, 0)
  }

  function ImageV2(fingerprint: u64, q: Queue): (r: seq<byte>)
    requires Storable(q)
    ensures |r| >= HEADER_V2
  {
    HeaderV2(fingerprint, q) + EntriesBytes(q.retained)
  }

  function ImageV1(fingerprint: u64, q: Queue): (r: seq<byte>)
    requires Storable(q)
    ensures |r| >= HEADER_V1
  {
    HeaderV1(fingerprint, q) + EntriesBytes(q.retained)
  }

  // ----- What is accepted

  datatype ParsedEntries = ParsedEntries(entries: seq<Entry>, offset: nat) | EntriesRejected(status: Rejection)
  datatype Parsed = Restored(queue: Queue) | Rejected(status: Rejection)

  /** One entry at `at`, for a slot of `room` octets, following the entry numbered `previous`. */
  function ParseEntry(source: seq<byte>, at: nat, room: nat, previous: Option<nat>): ParsedEntries
    requires at <= |source|
  {
    if |source| - at < ENTRY_HEADER then EntriesRejected(InvalidState)
    else
      var bytes := FromBE(source[at..at + 4]);
      var id := source[at + 4..at + 12];
      if bytes > room then EntriesRejected(CapacityMismatch)
      else if bytes == 0 || source[at + 13] > 1 || source[at + 14] != 0 || source[at + 15] != 0
      then EntriesRejected(InvalidState)
      else if bytes > |source| - at - ENTRY_HEADER then EntriesRejected(InvalidState)
      else if FromBE(id) == 0 || (previous.Some? && FromBE(id) != Successor(previous.value))
      then EntriesRejected(InvalidState)
      else
        var body := at + ENTRY_HEADER;
        ParsedEntries(
          [Entry(id, Fill(6, 0), source[body..body + bytes], source[at + 12], source[at + 13] == 1)], body + bytes)
  }

  function LastNumber(es: seq<Entry>): Option<nat> {
    if es == [] then None else Some(Number(es[|es| - 1]))
  }

  function ParseEntries(source: seq<byte>, start: nat, k: nat, rooms: seq<nat>): (r: ParsedEntries)
    requires start <= |source| && k <= |rooms|
    ensures r.ParsedEntries? ==> |r.entries| == k && r.offset <= |source|
  {
    if k == 0 then ParsedEntries([], start)
    else match ParseEntries(source, start, k - 1, rooms)
      case EntriesRejected(status) => EntriesRejected(status)
      case ParsedEntries(es, at) =>
        match ParseEntry(source, at, rooms[k - 1], LastNumber(es))
        case EntriesRejected(status) => EntriesRejected(status)
        case ParsedEntries(one, next) => ParsedEntries(es + one, next)
  }

  predicate IsVersion(source: seq<byte>, version: nat, header: nat) {
    |source| >= header >= 12 && source[..7] == MAGIC && source[7] == 0x30 + version &&
    FromBE(source[8..10]) == version && FromBE(source[10..12]) == header
  }

  function Parse(source: seq<byte>, fingerprint: u64, rooms: seq<nat>): Parsed {
    var v2 := IsVersion(source, 2, HEADER_V2);
    var v1 := IsVersion(source, 1, HEADER_V1);
    if !v2 && !v1 then Rejected(InvalidState)
    else if v2 && (source[41] > 1 || source[42] != 0 || source[43] != 0 || source[48..56] != Fill(8, 0))
    then Rejected(InvalidState)
    else if !v2 && source[41..48] != Fill(7, 0) then Rejected(InvalidState)
    else
      var gap := v2 && source[41] == 1;
      var cursor := if v2 then FromBE(source[44..48]) else 0;
      ParseBody(source, if v2 then HEADER_V2 else HEADER_V1, cursor, gap, fingerprint, rooms)
  }

  function ParseBody(source: seq<byte>, start: nat, cursor: nat, gap: bool, fingerprint: u64, rooms: seq<nat>): Parsed
    requires 41 <= start <= |source|
  {
    WordSizes();
    var count := FromBE(source[20..24]);
    var next := FromBE(source[24..32]);
    var dropped := FromBE(source[32..40]);
    var sequence := source[40];
    if FromBE(source[12..20]) != fingerprint then Rejected(DefinitionMismatch)
    else if count > |rooms| then Rejected(CapacityMismatch)
    else if cursor > count || next == 0 then Rejected(InvalidState)
    else match ParseEntries(source, start, count, rooms)
      case EntriesRejected(status) => Rejected(status)
      case ParsedEntries(es, end) =>
        if end != |source| || (es != [] && next != Successor(Number(es[|es| - 1]))) ||
           (es != [] && sequence != es[|es| - 1].sequenceNumber)
        then Rejected(InvalidState)
        else Restored(Queue(es, cursor, next, dropped, gap, sequence))
  }

  // ----- Round trip

  /** The image keeps everything of an entry but its TimeOfEntry. */
  function Timeless(e: Entry): Entry {
    e.(timeOfEntry := Fill(6, 0))
  }

  function AllTimeless(es: seq<Entry>): (r: seq<Entry>)
    ensures |r| == |es|
    ensures forall i :: 0 <= i < |es| ==> r[i] == Timeless(es[i])
  {
    seq(|es|, i requires 0 <= i < |es| => Timeless(es[i]))
  }

  predicate FitsSlots(es: seq<Entry>, rooms: seq<nat>) {
    |es| <= |rooms| && forall i :: 0 <= i < |es| ==> |es[i].pdu| <= rooms[i]
  }

  lemma {:induction false} EntriesPrefix(es: seq<Entry>, k: nat)
    requires Writable(es) && k < |es|
    ensures EntriesBytes(es[..k]) + EntryBytes(es[k]) <= EntriesBytes(es)
  {
    var last := |es| - 1;
    if k < last {
      EntriesPrefix(es[..last], k);
      assert es[..last][..k] == es[..k];
    } else {
      assert es[..last] == es[..k];
    }
  }

  lemma SliceOfSlice(source: seq<byte>, at: nat, part: seq<byte>, i: nat, j: nat)
    requires at + |part| <= |source| && source[at..at + |part|] == part && i <= j <= |part|
    ensures source[at + i..at + j] == part[i..j]
  {
    forall x | 0 <= x < j - i ensures source[at + i..at + j][x] == part[i..j][x] {
      assert part[i + x] == source[at..at + |part|][i + x];
    }
  }

  lemma ParseWrittenEntry(source: seq<byte>, at: nat, e: Entry, room: nat, previous: Option<nat>)
    requires |e.entryId| == 8 && |e.pdu| < U32_LIMIT
    requires at + ENTRY_HEADER + |e.pdu| <= |source|
    requires source[at..at + ENTRY_HEADER + |e.pdu|] == EntryBytes(e)
    requires Number(e) != 0 && (previous.Some? ==> Number(e) == Successor(previous.value))
    ensures ParseEntry(source, at, room, previous) ==
            if |e.pdu| <= room then ParsedEntries([Timeless(e)], at + ENTRY_HEADER + |e.pdu|)
            else EntriesRejected(CapacityMismatch)
  {
    var written := EntryBytes(e);
    WordSizes();
    FromToBE(4, |e.pdu|);
    SliceOfSlice(source, at, written, 0, 4);
    assert written[0..4] == ToBE(4, |e.pdu|);
    SliceOfSlice(source, at, written, 4, 12);
    assert written[4..12] == e.entryId;
    assert source[at + 12] == written[12] && source[at + 13] == written[13];
    assert source[at + 14] == written[14] && source[at + 15] == written[15];
    SliceOfSlice(source, at, written, 16, 16 + |e.pdu|);
    assert written[16..16 + |e.pdu|] == e.pdu;
  }

  /** Where entry k of an image lies, and what precedes it. */
  lemma EntryPosition(header: seq<byte>, es: seq<Entry>, k: nat)
    requires Writable(es) && k < |es|
    ensures var source, at := header + EntriesBytes(es), |header| + |EntriesBytes(es[..k])|;
      && at + |EntryBytes(es[k])| <= |source| && source[at..at + |EntryBytes(es[k])|] == EntryBytes(es[k])
      && at + |EntryBytes(es[k])| == |header| + |EntriesBytes(es[..k + 1])|
  {
    EntriesPrefix(es, k);
    var a, b, all := EntriesBytes(es[..k]), EntryBytes(es[k]), EntriesBytes(es);
    assert all[|a|..|a| + |b|] == (a + b)[|a|..|a| + |b|] == b;
    assert (header + all)[|header| + |a|..|header| + |a| + |b|] == all[|a|..|a| + |b|];
    assert es[..k + 1][..k] == es[..k];
  }

  lemma PreviousNumber(es: seq<Entry>, next: u64, k: nat)
    requires Consecutive(es, next) && k < |es|
    ensures var previous := LastNumber(AllTimeless(es[..k]));
      Number(es[k]) != 0 && (previous.Some? ==> Number(es[k]) == Successor(previous.value))
  {
    if k != 0 {
      assert AllTimeless(es[..k])[k - 1] == Timeless(es[k - 1]);
      assert Number(es[k]) == Successor(Number(es[k - 1]));
    }
  }

  lemma FitsStep(es: seq<Entry>, rooms: seq<nat>, k: nat)
    requires k < |es| <= |rooms|
    ensures FitsSlots(es[..k + 1], rooms) <==> FitsSlots(es[..k], rooms) && |es[k].pdu| <= rooms[k]
    ensures AllTimeless(es[..k + 1]) == AllTimeless(es[..k]) + [Timeless(es[k])]
  {
    var a, b := es[..k], es[..k + 1];
    assert b == a + [es[k]];
    if FitsSlots(b, rooms) {
      assert b[k] == es[k];
      forall i | 0 <= i < |a| ensures |a[i].pdu| <= rooms[i] { assert a[i] == b[i]; }
    }
  }

  /** Reading back the first k entries of an image gives them, up to the first that does not fit its slot. */
  lemma {:induction false} ParseWrittenEntries(header: seq<byte>, es: seq<Entry>, next: u64, rooms: seq<nat>, k: nat)
    requires Writable(es) && Consecutive(es, next)
    requires k <= |es| <= |rooms|
    ensures ParseEntries(header + EntriesBytes(es), |header|, k, rooms) ==
            if FitsSlots(es[..k], rooms)
            then ParsedEntries(AllTimeless(es[..k]), |header| + |EntriesBytes(es[..k])|)
            else EntriesRejected(CapacityMismatch)
  {
    hide *;
    if k == 0 {
      ParseNothing(header, es, rooms);
    } else {
      ParseWrittenEntries(header, es, next, rooms, k - 1);
      ParseNext(header, es, next, rooms, k - 1);
    }
  }

  lemma ParseNothing(header: seq<byte>, es: seq<Entry>, rooms: seq<nat>)
    requires Writable(es) && |es| <= |rooms|
    ensures FitsSlots(es[..0], rooms)
    ensures ParseEntries(header + EntriesBytes(es), |header|, 0, rooms) ==
            ParsedEntries(AllTimeless(es[..0]), |header| + |EntriesBytes(es[..0])|)
  {
  }

  lemma ParseNext(header: seq<byte>, es: seq<Entry>, next: u64, rooms: seq<nat>, k: nat)
    requires Writable(es) && Consecutive(es, next) && k < |es| <= |rooms|
    requires ParseEntries(header + EntriesBytes(es), |header|, k, rooms) ==
             if FitsSlots(es[..k], rooms)
             then ParsedEntries(AllTimeless(es[..k]), |header| + |EntriesBytes(es[..k])|)
             else EntriesRejected(CapacityMismatch)
    ensures ParseEntries(header + EntriesBytes(es), |header|, k + 1, rooms) ==
            if FitsSlots(es[..k + 1], rooms)
            then ParsedEntries(AllTimeless(es[..k + 1]), |header| + |EntriesBytes(es[..k + 1])|)
            else EntriesRejected(CapacityMismatch)
  {
    hide *;
    var source := header + EntriesBytes(es);
    var start := |header|;
    WritableAt(es, k);
    ParseEntriesUnfold(source, start, k, rooms);
    FitsStep(es, rooms, k);
    if FitsSlots(es[..k], rooms) {
      EntryPosition(header, es, k);
      PreviousNumber(es, next, k);
      ParseWrittenEntry(source, start + |EntriesBytes(es[..k])|, es[k], rooms[k], LastNumber(AllTimeless(es[..k])));
    }
  }

  lemma WritableAt(es: seq<Entry>, k: nat)
    requires Writable(es) && k < |es|
    ensures |es[k].entryId| == 8 && |es[k].pdu| < U32_LIMIT
    ensures Writable(es[..k]) && Writable(es[..k + 1])
  {
  }

  lemma ParseEntriesUnfold(source: seq<byte>, start: nat, k: nat, rooms: seq<nat>)
    requires start <= |source| && k < |rooms|
    ensures ParseEntries(source, start, k + 1, rooms) ==
            match ParseEntries(source, start, k, rooms)
            case EntriesRejected(status) => EntriesRejected(status)
            case ParsedEntries(es, at) =>
              (match ParseEntry(source, at, rooms[k], LastNumber(es))
               case EntriesRejected(status) => EntriesRejected(status)
               case ParsedEntries(one, next) => ParsedEntries(es + one, next))
  {
  }

  // ----- Whole images

  lemma CommonFieldsRead(version: nat, header: nat, fingerprint: u64, q: Queue, rest: seq<byte>)
    requires Storable(q) && 1 <= version <= 2 && 12 <= header < 256 && header <= 41 + |rest|
    ensures var source := CommonFields(version, header, fingerprint, q) + rest;
      && IsVersion(source, version, header)
      && source[7] == 0x30 + version
      && FromBE(source[12..20]) == fingerprint
      && FromBE(source[20..24]) == |q.retained|
      && FromBE(source[24..32]) == q.next
      && FromBE(source[32..40]) == q.dropped
      && source[40] == q.sequence
  {
    var source := CommonFields(version, header, fingerprint, q) + rest;
    WordSizes();
    assert source[..7] == MAGIC;
    assert source[8..10] == ToBE(2, version);
    assert source[10..12] == ToBE(2, header);
    assert source[12..20] == ToBE(8, fingerprint);
    assert source[20..24] == ToBE(4, |q.retained|);
    assert source[24..32] == ToBE(8, q.next);
    assert source[32..40] == ToBE(8, q.dropped);
    FromToBE(2, version);
    FromToBE(2, header);
    FromToBE(8, fingerprint);
    FromToBE(4, |q.retained|);
    FromToBE(8, q.next);
    FromToBE(8, q.dropped);
  }

  /** The queue an image gives back. */
  function Recovered(q: Queue): Queue {
    q.(retained := AllTimeless(q.retained))
  }

  lemma BodyRoundTrip(header: seq<byte>, fingerprint: u64, q: Queue, cursor: nat, gap: bool, rooms: seq<nat>)
    requires Storable(q) && Ordered(q) && cursor <= |q.retained| && Announces(header, fingerprint, q)
    ensures ParseBody(header + EntriesBytes(q.retained), |header|, cursor, gap, fingerprint, rooms) ==
            if FitsSlots(q.retained, rooms) then Restored(Recovered(q).(cursor := cursor, gap := gap))
            else Rejected(CapacityMismatch)
  {
    hide FitsSlots, EntriesBytes, ParseEntries, Fingerprint, FromBE, Consecutive, Successor;
    var es := q.retained;
    var source := header + EntriesBytes(es);
    assert source[12..20] == header[12..20] && source[20..24] == header[20..24];
    assert source[24..32] == header[24..32] && source[32..40] == header[32..40] && source[40] == header[40];
    if |es| <= |rooms| {
      ParseWrittenEntries(header, es, q.next, rooms, |es|);
      assert es[..|es|] == es;
    }
    assert FitsSlots(es, rooms) ==> |es| <= |rooms| by { FitsBounds(es, rooms); }
    if |es| > 0 {
      LastTimeless(es, q.next);
    }
  }

  lemma FitsBounds(es: seq<Entry>, rooms: seq<nat>)
    ensures FitsSlots(es, rooms) ==> |es| <= |rooms|
  {
  }

  lemma LastTimeless(es: seq<Entry>, next: u64)
    requires |es| > 0 && Consecutive(es, next)
    ensures var e := AllTimeless(es)[|es| - 1];
      next == Successor(Number(e)) && e.sequenceNumber == es[|es| - 1].sequenceNumber
  {
  }

  lemma TailV2(common: seq<byte>, gap: bool, cursor: nat, rest: seq<byte>)
    requires |common| == 41 && cursor < U32_LIMIT
    ensures var s := common + (([Flag(gap), 0, 0] + ToBE(4, cursor) + Fill(8, 0)) + rest);
      && |s| >= HEADER_V2 && s[41] == Flag(gap) && s[42] == 0 && s[43] == 0
      && FromBE(s[44..48]) == cursor && s[48..56] == Fill(8, 0)
  {
    var s := common + (([Flag(gap), 0, 0] + ToBE(4, cursor) + Fill(8, 0)) + rest);
    WordSizes();
    FromToBE(4, cursor);
    assert s[44..48] == ToBE(4, cursor);
    assert s[48..56] == Fill(8, 0);
  }

  lemma ParseV2(source: seq<byte>, gap: bool, cursor: nat, fingerprint: u64, rooms: seq<nat>)
    requires IsVersion(source, 2, HEADER_V2) && source[41] == Flag(gap) && source[42] == 0 && source[43] == 0
    requires FromBE(source[44..48]) == cursor && source[48..56] == Fill(8, 0)
    ensures Parse(source, fingerprint, rooms) == ParseBody(source, HEADER_V2, cursor, gap, fingerprint, rooms)
  {
  }

  lemma ParseV1(source: seq<byte>, fingerprint: u64, rooms: seq<nat>)
    requires IsVersion(source, 1, HEADER_V1) && source[41..48] == Fill(7, 0)
    ensures Parse(source, fingerprint, rooms) == ParseBody(source, HEADER_V1, 0, false, fingerprint, rooms)
  {
  }

  /** The shared fields of a header, as a restore reads them. */
  predicate Announces(header: seq<byte>, fingerprint: u64, q: Queue) {
    && |header| >= 41
    && FromBE(header[12..20]) == fingerprint && FromBE(header[20..24]) == |q.retained|
    && FromBE(header[24..32]) == q.next && FromBE(header[32..40]) == q.dropped && header[40] == q.sequence
  }

  lemma ReadV2(fingerprint: u64, q: Queue)
    requires Storable(q)
    ensures Announces(HeaderV2(fingerprint, q), fingerprint, q)
    ensures var source := ImageV2(fingerprint, q);
      && Announces(source, fingerprint, q) && IsVersion(source, 2, HEADER_V2)
      && source[41] == Flag(q.gap) && source[42] == 0 && source[43] == 0
      && FromBE(source[44..48]) == q.cursor && source[48..56] == Fill(8, 0)
  {
    var common := CommonFields(2, HEADER_V2, fingerprint, q);
    var rest := [Flag(q.gap), 0, 0] + ToBE(4, q.cursor) + Fill(8, 0);
    var entries := EntriesBytes(q.retained);
    assert HeaderV2(fingerprint, q) == common + rest;
    assert ImageV2(fingerprint, q) == common + (rest + entries);
    hide CommonFields, HeaderV2, ImageV2, EntriesBytes, IsVersion;
    CommonFieldsRead(2, HEADER_V2, fingerprint, q, rest);
    CommonFieldsRead(2, HEADER_V2, fingerprint, q, rest + entries);
    TailV2(common, q.gap, q.cursor, entries);
  }

  lemma ReadV1(fingerprint: u64, q: Queue)
    requires Storable(q)
    ensures Announces(HeaderV1(fingerprint, q), fingerprint, q)
    ensures var source := ImageV1(fingerprint, q);
      Announces(source, fingerprint, q) && IsVersion(source, 1, HEADER_V1) && source[41..48] == Fill(7, 0)
  {
    var common := CommonFields(1, HEADER_V1, fingerprint, q);
    var entries := EntriesBytes(q.retained);
    assert HeaderV1(fingerprint, q) == common + Fill(7, 0);
    assert ImageV1(fingerprint, q) == common + (Fill(7, 0) + entries);
    hide CommonFields, HeaderV1, ImageV1, EntriesBytes, IsVersion;
    CommonFieldsRead(1, HEADER_V1, fingerprint, q, Fill(7, 0));
    CommonFieldsRead(1, HEADER_V1, fingerprint, q, Fill(7, 0) + entries);
    assert (common + (Fill(7, 0) + entries))[41..48] == Fill(7, 0);
  }

  /**
   Restoring the image of an ordered window gives the same window, cursor, drop
   count, replay gap and next EntryID, without the times, exactly when each entry
   fits the slot it lands in; otherwise the restore is refused.
   */
  lemma ImageRoundTrip(fingerprint: u64, q: Queue, rooms: seq<nat>)
    requires Storable(q) && Ordered(q)
    ensures Parse(ImageV2(fingerprint, q), fingerprint, rooms) ==
            if FitsSlots(q.retained, rooms) then Restored(Recovered(q)) else Rejected(CapacityMismatch)
  {
    assert q.cursor <= |q.retained|;
    assert Recovered(q).(cursor := q.cursor, gap := q.gap) == Recovered(q);
    assert ImageV2(fingerprint, q) == HeaderV2(fingerprint, q) + EntriesBytes(q.retained);
    hide *;
    ReadV2(fingerprint, q);
    BodyRoundTrip(HeaderV2(fingerprint, q), fingerprint, q, q.cursor, q.gap, rooms);
    ParseV2(ImageV2(fingerprint, q), q.gap, q.cursor, fingerprint, rooms);
  }

  /** A version 1 image gives the same entries, all of them undelivered and without a replay gap. */
  lemma LegacyRoundTrip(fingerprint: u64, q: Queue, rooms: seq<nat>)
    requires Storable(q) && Ordered(q)
    ensures Parse(ImageV1(fingerprint, q), fingerprint, rooms) ==
            if FitsSlots(q.retained, rooms) then Restored(Recovered(q).(cursor := 0, gap := false))
            else Rejected(CapacityMismatch)
  {
    assert ImageV1(fingerprint, q) == HeaderV1(fingerprint, q) + EntriesBytes(q.retained);
    hide *;
    ReadV1(fingerprint, q);
    BodyRoundTrip(HeaderV1(fingerprint, q), fingerprint, q, 0, false, rooms);
    ParseV1(ImageV1(fingerprint, q), fingerprint, rooms);
  }

  /** An image written for another fingerprint is refused as such, before anything else is looked at. */
  lemma OtherDefinitionRefused(fingerprint: u64, other: u64, q: Queue, rooms: seq<nat>)
    requires Storable(q) && fingerprint != other
    ensures Parse(ImageV2(fingerprint, q), other, rooms) == Rejected(DefinitionMismatch)
  {
    hide *;
    ReadV2(fingerprint, q);
    ParseV2(ImageV2(fingerprint, q), q.gap, q.cursor, other, rooms);
    BodyOfOther(ImageV2(fingerprint, q), q, q.cursor, q.gap, fingerprint, other, rooms);
  }

  lemma BodyOfOther(source: seq<byte>, q: Queue, cursor: nat, gap: bool, fingerprint: u64, other: u64, rooms: seq<nat>)
    requires Announces(source, fingerprint, q) && fingerprint != other && |source| >= HEADER_V2
    ensures ParseBody(source, HEADER_V2, cursor, gap, other, rooms) == Rejected(DefinitionMismatch)
  {
  }

  // ----- Which definitions accept whose images

  /** A length and then a text can be taken off the front in one way only. */
  lemma TextSplits(a: seq<byte>, b: seq<byte>, r: seq<byte>, s: seq<byte>)
    requires |a| < U64_LIMIT && |b| < U64_LIMIT && Text(a) + r == Text(b) + s
    ensures a == b && r == s
  {
    hide ToBE, FromBE;
    WordSizes();
    var left, right := Text(a) + r, Text(b) + s;
    assert left[..8] == ToBE(8, |a|) && right[..8] == ToBE(8, |b|);
    FromToBE(8, |a|);
    FromToBE(8, |b|);
    assert left[8..8 + |a|] == a && right[8..8 + |b|] == b;
    assert left[8 + |a|..] == r && right[8 + |b|..] == s;
  }

  function HashedTail(d: Definition): seq<byte> {
    ToBE(8, d.confRevision) + d.optionalFields + ToBE(8, d.bufferTime) + [d.triggerOptions]
  }

  lemma TextInParts(d: Definition)
    ensures HashedText(d) ==
      Text(d.domain) + (Text(d.item) + (Text(d.reportId) + (Text(d.dataSetDomain) +
        (Text(d.dataSetItem) + HashedTail(d)))))
  {
    hide ToBE, Text;
  }

  lemma TailSplits(d: Definition, e: Definition)
    requires |d.optionalFields| == |e.optionalFields| == 2 && HashedTail(d) == HashedTail(e)
    ensures d.confRevision == e.confRevision && d.optionalFields == e.optionalFields
    ensures d.bufferTime == e.bufferTime && d.triggerOptions == e.triggerOptions
  {
    hide ToBE, FromBE;
    WordSizes();
    var x, y := HashedTail(d), HashedTail(e);
    assert x[..8] == ToBE(8, d.confRevision) && y[..8] == ToBE(8, e.confRevision);
    assert x[8..10] == d.optionalFields && y[8..10] == e.optionalFields;
    assert x[10..18] == ToBE(8, d.bufferTime) && y[10..18] == ToBE(8, e.bufferTime);
    assert x[18] == d.triggerOptions && y[18] == e.triggerOptions;
    FromToBE(8, d.confRevision);
    FromToBE(8, e.confRevision);
    FromToBE(8, d.bufferTime);
    FromToBE(8, e.bufferTime);
  }

  predicate SameButPeriod(d: Definition, e: Definition) {
    d.(integrityPeriod := 0) == e.(integrityPeriod := 0)
  }

  /** What is hashed of a definition is all of it but the integrity period. */
  lemma HashedTextTellsApart(d: Definition, e: Definition)
    requires Acceptable(d) && Acceptable(e)
    ensures HashedText(d) == HashedText(e) <==> SameButPeriod(d, e)
  {
    if HashedText(d) == HashedText(e) {
      hide HashedText, Text, HashedTail, VisibleAscii;
      Lengths(d);
      Lengths(e);
      TextInParts(d);
      TextInParts(e);
      var d5, e5 := Text(d.dataSetItem) + HashedTail(d), Text(e.dataSetItem) + HashedTail(e);
      var d4, e4 := Text(d.dataSetDomain) + d5, Text(e.dataSetDomain) + e5;
      var d3, e3 := Text(d.reportId) + d4, Text(e.reportId) + e4;
      var d2, e2 := Text(d.item) + d3, Text(e.item) + e3;
      TextSplits(d.domain, e.domain, d2, e2);
      TextSplits(d.item, e.item, d3, e3);
      TextSplits(d.reportId, e.reportId, d4, e4);
      TextSplits(d.dataSetDomain, e.dataSetDomain, d5, e5);
      TextSplits(d.dataSetItem, e.dataSetItem, HashedTail(d), HashedTail(e));
      TailSplits(d, e);
    }
  }

  lemma Lengths(d: Definition)
    requires Acceptable(d)
    ensures |d.domain| <= MAXIMUM_TEXT && |d.item| <= MAXIMUM_TEXT && |d.reportId| <= MAXIMUM_TEXT
    ensures |d.dataSetDomain| <= MAXIMUM_TEXT && |d.dataSetItem| <= MAXIMUM_TEXT && |d.optionalFields| == 2
  {
  }

  /** The fingerprint leaves the integrity period out: definitions differing only there accept each other's image. */
  lemma FingerprintSkipsIntegrityPeriod(d: Definition, period: u32)
    ensures Fingerprint(d.(integrityPeriod := period)) == Fingerprint(d)
  {
  }

  /** Different texts under one hash. */
  predicate Confused(d: Definition, e: Definition) {
    HashedText(d) != HashedText(e) && Fingerprint(d) == Fingerprint(e)
  }

  /**
   The image a control block of definition d leaves is taken by one of definition e exactly
   if the two agree in all but the integrity period, or their hashed texts collide, and
   the window fits; texts one octet apart never collide.
   */
  lemma ImageAcceptedExactly(d: Definition, e: Definition, q: Queue, rooms: seq<nat>)
    requires Acceptable(d) && Acceptable(e) && Storable(q) && Ordered(q)
    ensures var parsed := Parse(ImageV2(Fingerprint(d), q), Fingerprint(e), rooms);
      && (parsed == Rejected(DefinitionMismatch) <==> !SameButPeriod(d, e) && !Confused(d, e))
      && (parsed != Rejected(DefinitionMismatch) ==>
            parsed == if FitsSlots(q.retained, rooms) then Restored(Recovered(q)) else Rejected(CapacityMismatch))
    ensures OneOctetApart(HashedText(d), HashedText(e)) ==> !Confused(d, e)
  {
    hide Parse, ImageV2, FitsSlots, Acceptable, HashedText, Hash, OneOctetApart, Storable, Ordered, SameButPeriod;
    HashedTextTellsApart(d, e);
    if Fingerprint(d) == Fingerprint(e) {
      ImageRoundTrip(Fingerprint(d), q, rooms);
    } else {
      OtherDefinitionRefused(Fingerprint(d), Fingerprint(e), q, rooms);
    }
    if OneOctetApart(HashedText(d), HashedText(e)) {
      OneOctetTellsApart(FNV_OFFSET, HashedText(d), HashedText(e));
    }
  }

  /** Any state a run can reach, restores included, has such a window. */
  lemma ReachableIsOrdered(c: Config, s: State, ops: seq<Op>)
    requires c.capacity > 0 && Loadable(c.capacity, s.queue)
    ensures Loadable(c.capacity, Run(c, s, ops).queue)
  {
    RunKeepsWindow(c, s, ops);
    hide Run, Book;
    WindowIsOrdered(c.capacity, Run(c, s, ops).queue, Book(c, s, ops));
  }

  lemma WindowIsOrdered(capacity: nat, q: Queue, l: Ledger)
    requires Window(capacity, q, l)
    ensures Loadable(capacity, q)
  {
    hide Consecutive;
    SuffixConsecutive(l.captured, q.next, |l.captured| - |q.retained|);
  }

  lemma SuffixConsecutive(es: seq<Entry>, next: u64, d: nat)
    requires d <= |es| && Consecutive(es, next)
    ensures Consecutive(es[d..], next)
  {
    hide Successor, Number;
    var tail := es[d..];
    assert forall i :: 0 <= i < |tail| ==> tail[i] == es[d + i];
  }

  lemma {:induction false} ParsedEntriesRun(source: seq<byte>, start: nat, k: nat, rooms: seq<nat>)
    requires start <= |source| && k <= |rooms| && ParseEntries(source, start, k, rooms).ParsedEntries?
    ensures var es := ParseEntries(source, start, k, rooms).entries;
      && (forall i :: 0 <= i < |es| ==> Number(es[i]) != 0)
      && (forall i :: 0 < i < |es| ==> Number(es[i]) == Successor(Number(es[i - 1])))
  {
    hide FromBE, Successor;
    if k != 0 {
      ParsedEntriesRun(source, start, k - 1, rooms);
      var before := ParseEntries(source, start, k - 1, rooms).entries;
      var all := ParseEntries(source, start, k, rooms).entries;
      assert forall i :: 0 <= i < k - 1 ==> all[i] == before[i];
    }
  }

  /** Whatever image is accepted, the window it gives is one a run could have left, and no larger than the ring. */
  lemma ParsedIsLoadable(source: seq<byte>, fingerprint: u64, rooms: seq<nat>)
    requires Parse(source, fingerprint, rooms).Restored?
    ensures Loadable(|rooms|, Parse(source, fingerprint, rooms).queue)
  {
    hide FromBE, ParseEntries, Successor, IsVersion;
    var start := if IsVersion(source, 2, HEADER_V2) then HEADER_V2 else HEADER_V1;
    HeaderInside(source);
    var count := FromBE(source[20..24]);
    ParsedEntriesRun(source, start, count, rooms);
  }

  lemma HeaderInside(source: seq<byte>)
    ensures IsVersion(source, 2, HEADER_V2) ==> |source| >= HEADER_V2
    ensures IsVersion(source, 1, HEADER_V1) ==> |source| >= HEADER_V1
  {
  }
}
