/** Turning a version 2 recovery image into the version 1 image older firmware would have left. */
module LegacyImage {
  import opened Octets
  import opened BrcbLog
  import opened BrcbHistory
  import opened StateImage

  const SHARED: nat := 41

  predicate LooksLikeV2(v2: seq<byte>) {
    |v2| >= HEADER_V2 && v2[0] == 0x41 && v2[1] == 0x52 && v2[7] == 0x32
  }

  function Downgraded(v2: seq<byte>): (r: seq<byte>)
    requires LooksLikeV2(v2)
    ensures |r| == |v2| - 8
  {
    v2[..7] + [0x31, 0, 1, 0, HEADER_V1] + v2[12..SHARED] + Fill(HEADER_V1 - SHARED, 0) + v2[HEADER_V2..]
  }

  /** build_legacy_v1_from_v2; None is its refusal. */
  method BuildLegacyV1(v2: seq<byte>, legacy: array<byte>) returns (size: Option<nat>)
    modifies legacy
    ensures size.None? <==> !LooksLikeV2(v2) || legacy.Length < |v2| - 8
    ensures size.None? ==> legacy[..] == old(legacy[..])
    ensures size.Some? ==>
      size.value == |v2| - 8 && legacy[..] == Splice(old(legacy[..]), 0, Downgraded(v2))
  {
    hide Splice, Downgraded;
    if |v2| < HEADER_V2 || legacy.Length < |v2| - 8 || v2[0] != 0x41 || v2[1] != 0x52 || v2[7] != 0x32 {
      return None;
    }
    var bytes := |v2| - (HEADER_V2 - HEADER_V1);
    Assembled(legacy[..], v2);
    CopyInto(legacy, 0, Fill(bytes, 0));
    CopyInto(legacy, 0, v2[..SHARED]);
    CopyInto(legacy, 7, [0x31, 0, 1, 0, HEADER_V1]);
    CopyInto(legacy, HEADER_V1, v2[HEADER_V2..]);
    return Some(bytes);
  }

  lemma Assembled(was: seq<byte>, v2: seq<byte>)
    requires LooksLikeV2(v2) && |v2| - 8 <= |was|
    ensures var zeroed := Splice(was, 0, Fill(|v2| - 8, 0));
      var numbered := Splice(Splice(zeroed, 0, v2[..SHARED]), 7, [0x31, 0, 1, 0, HEADER_V1]);
      Splice(numbered, HEADER_V1, v2[HEADER_V2..]) == Splice(was, 0, Downgraded(v2))
  {
    var bytes, head: seq<byte> := |v2| - 8, [0x31, 0, 1, 0, HEADER_V1];
    var zeroed := Splice(was, 0, Fill(bytes, 0));
    var copied := Splice(zeroed, 0, v2[..SHARED]);
    assert copied == v2[..SHARED] + Fill(bytes - SHARED, 0) + was[bytes..];
    var numbered := Splice(copied, 7, head);
    assert numbered == v2[..7] + head + v2[12..SHARED] + Fill(bytes - SHARED, 0) + was[bytes..];
    assert Fill(bytes - SHARED, 0) == Fill(HEADER_V1 - SHARED, 0) + Fill(bytes - HEADER_V1, 0);
    assert numbered[..HEADER_V1] == v2[..7] + head + v2[12..SHARED] + Fill(HEADER_V1 - SHARED, 0);
    assert numbered[bytes..] == was[bytes..];
  }

  /** The downgrade of an image is the version 1 image of the same window. */
  lemma DowngradeIsV1(fingerprint: u64, q: Queue)
    requires Storable(q)
    ensures var v2 := ImageV2(fingerprint, q);
      LooksLikeV2(v2) && Downgraded(v2) == ImageV1(fingerprint, q)
  {
    var v2 := ImageV2(fingerprint, q);
    SharedFields(2, HEADER_V2, fingerprint, q);
    SharedFields(1, HEADER_V1, fingerprint, q);
    var c2, c1 := CommonFields(2, HEADER_V2, fingerprint, q), CommonFields(1, HEADER_V1, fingerprint, q);
    assert v2[..SHARED] == c2;
    assert v2[..7] == c2[..7] && v2[12..SHARED] == c2[12..] && v2[7] == c2[7];
    assert v2[HEADER_V2..] == EntriesBytes(q.retained);
    assert c1 == c1[..7] + c1[7..12] + c1[12..];
  }

  lemma SharedFields(version: nat, header: nat, fingerprint: u64, q: Queue)
    requires Storable(q) && 1 <= version <= 2 && header < 256
    ensures var c := CommonFields(version, header, fingerprint, q);
      && c[..7] == MAGIC && c[7..12] == [0x30 + version, 0, version, 0, header]
      && c[12..] == ToBE(8, fingerprint) + ToBE(4, |q.retained|) + ToBE(8, q.next) + ToBE(8, q.dropped) + [q.sequence]
  {
    hide ToBE;
    TwoOctets(version);
    TwoOctets(header);
    var c, start: seq<byte> := CommonFields(version, header, fingerprint, q), [0x30 + version, 0, version, 0, header];
    var rest := ToBE(8, fingerprint) + ToBE(4, |q.retained|) + ToBE(8, q.next) + ToBE(8, q.dropped) + [q.sequence];
    assert c == MAGIC + start + rest;
  }

  lemma TwoOctets(v: nat)
    requires v < 256
    ensures ToBE(2, v) == [0, v]
  {
    assert ToBE(1, v / 256) == ToBE(0, v / 256 / 256) + [v / 256 % 256];
  }

  /** Restoring the downgrade gives the same entries, every one of them undelivered. */
  lemma DowngradeRestoresUndelivered(fingerprint: u64, q: Queue, rooms: seq<nat>)
    requires Storable(q) && Ordered(q)
    ensures LooksLikeV2(ImageV2(fingerprint, q))
    ensures Parse(Downgraded(ImageV2(fingerprint, q)), fingerprint, rooms) ==
      if FitsSlots(q.retained, rooms) then Restored(Recovered(q).(cursor := 0, gap := false))
      else Rejected(CapacityMismatch)
  {
    DowngradeIsV1(fingerprint, q);
    LegacyRoundTrip(fingerprint, q, rooms);
  }
}
