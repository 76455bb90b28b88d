/**
 Which octets are a recovery image: those that a control block writes, of either version,
 and no others.
 */
module ImageExact {
  import opened Octets
  import opened BrcbLog
  import opened BrcbHistory
  import opened StateImage

  // ----- Entries

  lemma EntryParts(s: seq<byte>, bytes: nat)
    requires |s| == ENTRY_HEADER + bytes
    ensures s == s[..4] + s[4..12] + [s[12], s[13], s[14], s[15]] + s[16..]
  {
  }

  /** An entry that parses stands there as it is written. */
  lemma EntryIsWritten(source: seq<byte>, at: nat, room: nat, previous: Option<nat>)
    requires at <= |source| && ParseEntry(source, at, room, previous).ParsedEntries?
    ensures var r := ParseEntry(source, at, room, previous);
      && |r.entries| == 1 && at <= r.offset <= |source|
      && var e := r.entries[0];
         && |e.pdu| < U32_LIMIT && e == Timeless(e) && |e.pdu| <= room
         && source[at..r.offset] == EntryBytes(e)
  {
    WordSizes();
    var r := ParseEntry(source, at, room, previous);
    var e, s := r.entries[0], source[at..r.offset];
    hide FromBE, ToBE;
    ToFromBE(source[at..at + 4]);
    EntryParts(s, |e.pdu|);
    assert s[..4] == source[at..at + 4] && s[4..12] == e.entryId && s[16..] == e.pdu;
    assert s[12] == e.sequenceNumber && s[13] == Flag(e.bufferOverflow) && s[14] == 0 && s[15] == 0;
  }

  /** And so do all of them, one behind the other. */
  lemma {:induction false} EntriesAreWritten(source: seq<byte>, start: nat, k: nat, rooms: seq<nat>)
    requires start <= |source| && k <= |rooms| && ParseEntries(source, start, k, rooms).ParsedEntries?
    ensures var r := ParseEntries(source, start, k, rooms);
      && Writable(r.entries) && FitsSlots(r.entries, rooms) && AllTimeless(r.entries) == r.entries
      && start <= r.offset && source[start..r.offset] == EntriesBytes(r.entries)
  {
    hide ParseEntry, EntryBytes;
    if k == 0 {
      assert source[start..start] == [];
    } else {
      EntriesAreWritten(source, start, k - 1, rooms);
      var before := ParseEntries(source, start, k - 1, rooms);
      EntryIsWritten(source, before.offset, rooms[k - 1], LastNumber(before.entries));
      var one := ParseEntry(source, before.offset, rooms[k - 1], LastNumber(before.entries));
      EntryAdded(source, start, before, one, rooms);
    }
  }

  lemma EntryAdded(source: seq<byte>, start: nat, before: ParsedEntries, one: ParsedEntries, rooms: seq<nat>)
    requires before.ParsedEntries? && one.ParsedEntries? && |one.entries| == 1 && |before.entries| < |rooms|
    requires start <= before.offset <= one.offset <= |source|
    requires Writable(before.entries) && FitsSlots(before.entries, rooms)
    requires AllTimeless(before.entries) == before.entries
    requires source[start..before.offset] == EntriesBytes(before.entries)
    requires var e := one.entries[0];
      && |e.pdu| < U32_LIMIT && e == Timeless(e) && |e.pdu| <= rooms[|before.entries|]
      && source[before.offset..one.offset] == EntryBytes(e)
    ensures var es := before.entries + one.entries;
      && Writable(es) && FitsSlots(es, rooms) && AllTimeless(es) == es
      && source[start..one.offset] == EntriesBytes(es)
  {
    hide EntryBytes, Timeless;
    var es := before.entries + one.entries;
    assert es[..|es| - 1] == before.entries && es[|es| - 1] == one.entries[0];
    assert source[start..one.offset] == source[start..before.offset] + source[before.offset..one.offset];
  }

  // ----- Whole images

  /** What a restored window was read from. */
  lemma BodyIsWritten(source: seq<byte>, start: nat, cursor: nat, gap: bool, fingerprint: u64, rooms: seq<nat>)
    requires 41 <= start <= |source| && cursor < U32_LIMIT
    requires ParseBody(source, start, cursor, gap, fingerprint, rooms).Restored?
    ensures var q := ParseBody(source, start, cursor, gap, fingerprint, rooms).queue;
      && Storable(q) && FitsSlots(q.retained, rooms) && Recovered(q) == q && q.cursor == cursor && q.gap == gap
      && Announces(source, fingerprint, q) && source[start..] == EntriesBytes(q.retained)
  {
    WordSizes();
    hide FromBE, ParseEntries, EntriesBytes;
    var count := FromBE(source[20..24]);
    EntriesAreWritten(source, start, count, rooms);
  }

  lemma SameCommonFields(s: seq<byte>, t: seq<byte>, fingerprint: u64, q: Queue, version: nat, header: nat)
    requires |s| == |t| && IsVersion(s, version, header) && IsVersion(t, version, header)
    requires Announces(s, fingerprint, q) && Announces(t, fingerprint, q)
    ensures s[..41] == t[..41]
  {
    hide FromBE;
    assert s[..8] == s[..7] + [s[7]] && t[..8] == t[..7] + [t[7]];
    AgreeOn(s, t, 8, 10);
    AgreeOn(s, t, 10, 12);
    AgreeOn(s, t, 12, 20);
    AgreeOn(s, t, 20, 24);
    AgreeOn(s, t, 24, 32);
    AgreeOn(s, t, 32, 40);
    assert s[..41] == s[..40] + [s[40]] && t[..41] == t[..40] + [t[40]];
  }

  lemma SameV2(s: seq<byte>, fingerprint: u64, q: Queue)
    requires Storable(q) && |s| == |ImageV2(fingerprint, q)| && s[HEADER_V2..] == EntriesBytes(q.retained)
    requires IsVersion(s, 2, HEADER_V2) && Announces(s, fingerprint, q)
    requires s[41] == Flag(q.gap) && s[42] == 0 && s[43] == 0 && FromBE(s[44..48]) == q.cursor
    requires s[48..56] == Fill(8, 0)
    ensures s == ImageV2(fingerprint, q)
  {
    var t := ImageV2(fingerprint, q);
    assert t[HEADER_V2..] == EntriesBytes(q.retained);
    ReadV2(fingerprint, q);
    hide IsVersion, Announces, ImageV2, EntriesBytes, FromBE;
    SameCommonFields(s, t, fingerprint, q, 2, HEADER_V2);
    assert s[..44] == s[..41] + [s[41], s[42], s[43]] && t[..44] == t[..41] + [t[41], t[42], t[43]];
    AgreeOn(s, t, 44, 48);
    assert s == s[..48] + s[48..56] + s[56..] && t == t[..48] + t[48..56] + t[56..];
  }

  lemma SameV1(s: seq<byte>, fingerprint: u64, q: Queue)
    requires Storable(q) && |s| == |ImageV1(fingerprint, q)| && s[HEADER_V1..] == EntriesBytes(q.retained)
    requires IsVersion(s, 1, HEADER_V1) && Announces(s, fingerprint, q) && s[41..48] == Fill(7, 0)
    ensures s == ImageV1(fingerprint, q)
  {
    var t := ImageV1(fingerprint, q);
    assert t[HEADER_V1..] == EntriesBytes(q.retained);
    ReadV1(fingerprint, q);
    hide IsVersion, Announces, ImageV1, EntriesBytes;
    SameCommonFields(s, t, fingerprint, q, 1, HEADER_V1);
    assert s == s[..41] + s[41..48] + s[48..] && t == t[..41] + t[41..48] + t[48..];
  }

  /** The octets are what a control block with this window writes, today or in version 1. */
  predicate IsImage(source: seq<byte>, fingerprint: u64, q: Queue) {
    && Storable(q) && Ordered(q)
    && (source == ImageV2(fingerprint, q) || (source == ImageV1(fingerprint, q) && q.cursor == 0 && !q.gap))
  }

  lemma ParsedIsImage(source: seq<byte>, fingerprint: u64, rooms: seq<nat>)
    requires Parse(source, fingerprint, rooms).Restored?
    ensures var q := Parse(source, fingerprint, rooms).queue;
      IsImage(source, fingerprint, q) && FitsSlots(q.retained, rooms) && Recovered(q) == q
  {
    var q := Parse(source, fingerprint, rooms).queue;
    ParsedIsLoadable(source, fingerprint, rooms);
    HeaderInside(source);
    WordSizes();
    if IsVersion(source, 2, HEADER_V2) {
      var cursor, gap := FromBE(source[44..48]), source[41] == 1;
      BodyIsWritten(source, HEADER_V2, cursor, gap, fingerprint, rooms);
      hide FromBE, ParseBody, IsVersion, Announces, EntriesBytes, FitsSlots, Consecutive;
      assert |source| == HEADER_V2 + |EntriesBytes(q.retained)|;
      SameV2(source, fingerprint, q);
    } else {
      BodyIsWritten(source, HEADER_V1, 0, false, fingerprint, rooms);
      hide FromBE, ParseBody, IsVersion, Announces, EntriesBytes, FitsSlots, Consecutive;
      assert |source| == HEADER_V1 + |EntriesBytes(q.retained)|;
      SameV1(source, fingerprint, q);
    }
  }

  /**
   A restore accepts exactly the images of windows whose reports fit their slots, and
   restores exactly that window.
   */
  lemma ParseExactly(source: seq<byte>, fingerprint: u64, rooms: seq<nat>, q: Queue)
    requires Recovered(q) == q
    ensures Parse(source, fingerprint, rooms) == Restored(q) <==>
      IsImage(source, fingerprint, q) && FitsSlots(q.retained, rooms)
  {
    if Parse(source, fingerprint, rooms) == Restored(q) {
      ParsedIsImage(source, fingerprint, rooms);
    }
    if IsImage(source, fingerprint, q) && FitsSlots(q.retained, rooms) {
      ImageRoundTrip(fingerprint, q, rooms);
      LegacyRoundTrip(fingerprint, q, rooms);
    }
    hide Parse, ImageV2, ImageV1, FitsSlots, Ordered, Storable;
  }
}
