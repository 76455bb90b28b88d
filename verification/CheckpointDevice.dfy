/**
 The storage backend with its faults, and the store's own steps on it: inspect a
 bank, write a record, load the newest one.
 */
module CheckpointDevice {
  import opened Octets
  import opened Crc
  import opened CheckpointRecord
  import opened CrashSafety

  const UNLIMITED: nat := U64_MAX
  const CHUNK_BYTES: nat := 256

  datatype CheckpointStatus =
    | Ok | NoCheckpoint | InvalidBackend | InvalidLayout | StateBufferTooSmall
    | StorageFailure | StateEncodeFailed | StateRestoreFailed

  /** A byte store whose writes and erases stop when their budget is spent, and whose reads and syncs may fail. */
  class Storage {
    const bytes: array<byte>
    var writeBudget: nat
    var eraseBudget: nat
    var readFaults: seq<bool>
    var syncFaults: seq<bool>

    /** No write, erase or sync is going to fail. */
    ghost predicate Reliable()
      reads this
    {
      writeBudget == eraseBudget == UNLIMITED && syncFaults == []
    }

    constructor (capacity: nat)
      ensures fresh(bytes) && bytes.Length == capacity
      ensures bytes[..] == Fill(capacity, ERASED)
      ensures writeBudget == eraseBudget == UNLIMITED && readFaults == syncFaults == []
    {
      bytes := new byte[capacity](_ => ERASED);
      writeBudget, eraseBudget := UNLIMITED, UNLIMITED;
      readFaults, syncFaults := [], [];
    }

    method Read(offset: nat, count: nat) returns (ok: bool, data: seq<byte>)
      modifies this`readFaults
      ensures ok <==> offset + count <= bytes.Length && (old(readFaults) == [] || !old(readFaults)[0])
      ensures ok ==> data == bytes[..][offset..offset + count]
      ensures old(readFaults) == [] ==> readFaults == []
    {
      data := [];
      var faulty := readFaults != [] && readFaults[0];
      readFaults := if readFaults == [] then [] else readFaults[1..];
      ok := !faulty && offset <= bytes.Length && count <= bytes.Length - offset;
      if ok {
        data := bytes[offset..offset + count];
        assert data == bytes[..][offset..offset + count];
      }
    }

    method Write(offset: nat, source: seq<byte>) returns (ok: bool, ghost written: nat)
      modifies this`writeBudget, bytes
      ensures written <= |source|
      ensures offset + |source| <= bytes.Length ==> bytes[..] == Splice(old(bytes[..]), offset, source[..written])
      ensures offset + |source| > bytes.Length ==> bytes[..] == old(bytes[..]) && !ok
      ensures offset + |source| <= bytes.Length ==> (ok <==> written == |source|)
      ensures offset + |source| <= bytes.Length && old(writeBudget) == UNLIMITED && |source| <= UNLIMITED ==>
                ok && writeBudget == UNLIMITED
    {
      written := 0;
      if offset > bytes.Length || |source| > bytes.Length - offset {
        return false, 0;
      }
      var writable := if |source| < writeBudget then |source| else writeBudget;
      CopyInto(bytes, offset, source[..writable]);
      if writeBudget != UNLIMITED {
        writeBudget := writeBudget - writable;
      }
      return writable == |source|, writable;
    }

    method Erase(offset: nat, count: nat) returns (ok: bool, ghost erased: nat)
      modifies this`eraseBudget, bytes
      ensures erased <= count
      ensures offset + count <= bytes.Length ==> bytes[..] == Splice(old(bytes[..]), offset, Fill(erased, ERASED))
      ensures offset + count > bytes.Length ==> bytes[..] == old(bytes[..]) && !ok
      ensures offset + count <= bytes.Length ==> (ok <==> erased == count)
      ensures offset + count <= bytes.Length && old(eraseBudget) == UNLIMITED && count <= UNLIMITED ==>
                ok && eraseBudget == UNLIMITED
    {
      erased := 0;
      if offset > bytes.Length || count > bytes.Length - offset {
        return false, 0;
      }
      var erasable := if count < eraseBudget then count else eraseBudget;
      CopyInto(bytes, offset, Fill(erasable, ERASED));
      if eraseBudget != UNLIMITED {
        eraseBudget := eraseBudget - erasable;
      }
      return erasable == count, erasable;
    }

    method Sync() returns (ok: bool)
      modifies this`syncFaults
      ensures old(syncFaults) == [] ==> ok && syncFaults == []
    {
      ok := syncFaults == [] || !syncFaults[0];
      syncFaults := if syncFaults == [] then [] else syncFaults[1..];
    }
  }

  function Base(n: nat, i: nat): nat {
    if i == 0 then 0 else n
  }

  // ----- Building a record

  method ChecksumOf(bytes: seq<byte>) returns (crc: u32)
    ensures crc == Crc32(bytes)
  {
    var state := UpdateChunk(INITIAL_STATE, bytes);
    crc := Finalize(state);
  }

  /** The trailing checksum over everything laid down so far. */
  method Seal(a: array<byte>, ghost fields: seq<byte>, offset: nat) returns (sealed: seq<byte>)
    requires Laid(a, fields) && offset == |fields| && a.Length == offset + 4
    modifies a
    ensures sealed == fields + ToBE(4, Crc32(fields))
  {
    assert a[..offset] == fields;
    var check := ChecksumOf(a[..offset]);
    LayBE(a, fields, offset, 4, check);
    sealed := a[..];
  }

  method BuildHeader(generation: u64, bytes: u32, crc: u32) returns (header: seq<byte>)
    ensures header == Header(generation, bytes, crc)
  {
    var a := new byte[HEADER_BYTES](_ => 0);
    assert Laid(a, []);
    LayBytes(a, [], 0, HEADER_MAGIC);
    ghost var p := [] + HEADER_MAGIC;
    LayBE(a, p, 8, 2, FORMAT_VERSION);
    p := p + ToBE(2, FORMAT_VERSION);
    LayBE(a, p, 10, 2, HEADER_BYTES);
    p := p + ToBE(2, HEADER_BYTES);
    LayBE(a, p, 12, 8, generation);
    p := p + ToBE(8, generation);
    LayBE(a, p, 20, 4, bytes);
    p := p + ToBE(4, bytes);
    LayBE(a, p, 24, 4, crc);
    p := p + ToBE(4, crc);
    LayZeros(a, p, 8);
    assert p + Fill(8, 0) == HeaderFields(generation, bytes, crc);
    header := Seal(a, HeaderFields(generation, bytes, crc), 36);
  }

  method BuildFooter(generation: u64, bytes: u32, crc: u32) returns (footer: seq<byte>)
    ensures footer == Footer(generation, bytes, crc)
  {
    var a := new byte[FOOTER_BYTES](_ => 0);
    assert Laid(a, []);
    LayBytes(a, [], 0, FOOTER_MAGIC);
    ghost var p := [] + FOOTER_MAGIC;
    LayBE(a, p, 8, 8, generation);
    p := p + ToBE(8, generation);
    LayBE(a, p, 16, 4, bytes);
    p := p + ToBE(4, bytes);
    LayBE(a, p, 20, 4, crc);
    p := p + ToBE(4, crc);
    LayZeros(a, p, 4);
    assert p + Fill(4, 0) == FooterFields(generation, bytes, crc);
    footer := Seal(a, FooterFields(generation, bytes, crc), 28);
  }

  // ----- Inspecting a bank

  /** read_payload_crc: the payload is read back in chunks of at most 256 octets. */
  method ReadPayloadCrc(storage: Storage, offset: nat, count: nat) returns (ok: bool, crc: u32)
    requires offset + count <= storage.bytes.Length
    modifies storage`readFaults
    ensures ok ==> crc == Crc32(storage.bytes[..][offset..offset + count])
    ensures old(storage.readFaults) == [] ==> ok && storage.readFaults == []
  {
    hide Update;
    var consumed, state := 0, INITIAL_STATE;
    UpdateNothing(INITIAL_STATE);
    ghost var all := storage.bytes[..];
    assert all[offset..offset] == [];
    while consumed < count
      invariant consumed <= count
      invariant all == storage.bytes[..]
      invariant state == Update(INITIAL_STATE, all[offset..offset + consumed])
      invariant old(storage.readFaults) == [] ==> storage.readFaults == []
    {
      var bytes := if count - consumed < CHUNK_BYTES then count - consumed else CHUNK_BYTES;
      var read, chunk := storage.Read(offset + consumed, bytes);
      if !read {
        return false, 0;
      }
      UpdateAppend(INITIAL_STATE, all[offset..offset + consumed], chunk);
      assert all[offset..offset + consumed] + chunk == all[offset..offset + consumed + bytes];
      state := UpdateChunk(state, chunk);
      consumed := consumed + bytes;
    }
    return true, Finalize(state);
  }

  method ReadFields(header: seq<byte>, footer: seq<byte>, limit: nat) returns (info: BankInfo)
    requires |header| == HEADER_BYTES && |footer| == FOOTER_BYTES
    ensures info == Agreed(header, footer, limit)
  {
    if !HeaderAccepted(header) || !FooterAccepted(footer) {
      return NO_BANK;
    }
    WordSizes();
    var generation := ReadBE(header, 12, 8);
    var bytes := ReadBE(header, 20, 4);
    var crc := ReadBE(header, 24, 4);
    var generation' := ReadBE(footer, 8, 8);
    var bytes' := ReadBE(footer, 16, 4);
    var crc' := ReadBE(footer, 20, 4);
    if generation == 0 || bytes == 0 || generation != generation' || bytes != bytes' || crc != crc' || bytes > limit {
      return NO_BANK;
    }
    return BankInfo(true, generation, bytes, crc);
  }

  lemma BankSlice(storage: seq<byte>, n: nat, i: nat, offset: nat, count: nat)
    requires Layout(storage, n) && i < 2 && offset + count <= n
    ensures storage[Base(n, i) + offset..Base(n, i) + offset + count] == Bank(storage, n, i)[offset..offset + count]
  {
  }

  method ReadFromBank(storage: Storage, n: nat, i: nat, offset: nat, count: nat) returns (ok: bool, data: seq<byte>)
    requires Layout(storage.bytes[..], n) && i < 2 && offset + count <= n
    modifies storage`readFaults
    ensures ok ==> data == Bank(storage.bytes[..], n, i)[offset..offset + count]
    ensures old(storage.readFaults) == [] ==> ok && storage.readFaults == []
  {
    BankSlice(storage.bytes[..], n, i, offset, count);
    ok, data := storage.Read(Base(n, i) + offset, count);
  }

  method MeasurePayload(storage: Storage, n: nat, i: nat, count: nat) returns (ok: bool, crc: u32)
    requires Layout(storage.bytes[..], n) && i < 2 && HEADER_BYTES + count <= n
    modifies storage`readFaults
    ensures ok ==> crc == Crc32(Bank(storage.bytes[..], n, i)[HEADER_BYTES..HEADER_BYTES + count])
    ensures old(storage.readFaults) == [] ==> ok && storage.readFaults == []
  {
    BankSlice(storage.bytes[..], n, i, HEADER_BYTES, count);
    ok, crc := ReadPayloadCrc(storage, Base(n, i) + HEADER_BYTES, count);
  }

  method InspectBank(storage: Storage, n: nat, i: nat) returns (info: BankInfo, ioError: bool)
    requires Layout(storage.bytes[..], n) && i < 2
    modifies storage`readFaults
    ensures !ioError ==> info == Inspect(Bank(storage.bytes[..], n, i))
    ensures ioError ==> info == NO_BANK
    ensures old(storage.readFaults) == [] ==> !ioError && storage.readFaults == []
  {
    hide Crc32, HeaderAccepted, FooterAccepted, Agreed;
    ghost var bank := Bank(storage.bytes[..], n, i);
    assert bank[0..HEADER_BYTES] == bank[..HEADER_BYTES];
    assert bank[n - FOOTER_BYTES..n] == bank[n - FOOTER_BYTES..];
    var readHeader, header := ReadFromBank(storage, n, i, 0, HEADER_BYTES);
    if !readHeader {
      return NO_BANK, true;
    }
    var readFooter, footer := ReadFromBank(storage, n, i, n - FOOTER_BYTES, FOOTER_BYTES);
    if !readFooter {
      return NO_BANK, true;
    }
    info := ReadFields(header, footer, n - HEADER_BYTES - FOOTER_BYTES);
    if !info.valid {
      return NO_BANK, false;
    }
    var measured, check := MeasurePayload(storage, n, i, info.payloadBytes);
    if !measured {
      return NO_BANK, true;
    }
    if check != info.payloadCrc {
      return NO_BANK, false;
    }
    return info, false;
  }

  // ----- Writing a record

  lemma SpliceInBank(storage: seq<byte>, n: nat, t: nat, bank: seq<byte>, offset: nat, b: seq<byte>)
    requires Layout(storage, n) && t < 2 && |bank| == n && offset + |b| <= n
    ensures Splice(SetBank(storage, n, t, bank), Base(n, t) + offset, b) ==
            SetBank(storage, n, t, Splice(bank, offset, b))
  {
    hide Splice, Bank;
    SpliceInside(storage, Base(n, t), bank, offset, b);
  }

  lemma SpliceInside(s: seq<byte>, base: nat, outer: seq<byte>, offset: nat, inner: seq<byte>)
    requires base + |outer| <= |s| && offset + |inner| <= |outer|
    ensures Splice(Splice(s, base, outer), base + offset, inner) == Splice(s, base, Splice(outer, offset, inner))
  {
  }

  lemma SameBank(storage: seq<byte>, n: nat, t: nat)
    requires Layout(storage, n) && t < 2
    ensures SetBank(storage, n, t, Bank(storage, n, t)) == storage
  {
  }

  lemma ErasedEnds(bank: seq<byte>)
    ensures Splice(bank, 0, Fill(0, ERASED)) == bank
    ensures Splice(bank, 0, Fill(|bank|, ERASED)) == Fill(|bank|, ERASED)
  {
  }

  lemma EraseStep(n: nat, generation: u64, payload: seq<byte>)
    requires Fits(payload, n)
    ensures WrittenBank(n, generation, payload, 0) == Fill(n, ERASED)
  {
  }

  lemma HeaderStep(n: nat, generation: u64, payload: seq<byte>, w: nat)
    requires Fits(payload, n) && w <= HEADER_BYTES
    ensures Splice(WrittenBank(n, generation, payload, 0), 0, Header(generation, |payload|, Crc32(payload))[..w]) ==
            WrittenBank(n, generation, payload, w)
  {
    var header := Header(generation, |payload|, Crc32(payload));
    assert (header + payload)[..w] == header[..w];
  }

  lemma PayloadStep(n: nat, generation: u64, payload: seq<byte>, w: nat)
    requires Fits(payload, n) && w <= |payload|
    ensures Splice(WrittenBank(n, generation, payload, HEADER_BYTES), HEADER_BYTES, payload[..w]) ==
            WrittenBank(n, generation, payload, HEADER_BYTES + w)
  {
    var header := Header(generation, |payload|, Crc32(payload));
    assert (header + payload)[..HEADER_BYTES] == header;
    assert (header + payload)[..HEADER_BYTES + w] == header + payload[..w];
    assert header + payload[..w] + Fill(n - HEADER_BYTES - w, ERASED) ==
           Splice(header + Fill(n - HEADER_BYTES, ERASED), HEADER_BYTES, payload[..w]);
  }

  lemma FooterStep(n: nat, generation: u64, payload: seq<byte>, w: nat)
    requires Fits(payload, n) && w <= FOOTER_BYTES
    ensures Splice(WrittenBank(n, generation, payload, HEADER_BYTES + |payload|), n - FOOTER_BYTES,
                   Footer(generation, |payload|, Crc32(payload))[..w]) ==
            WrittenBank(n, generation, payload, HEADER_BYTES + |payload| + w)
  {
    hide WrittenBank, Splice, Footer, Header;
    var tail := Footer(generation, |payload|, Crc32(payload))[..w];
    var before := WrittenBank(n, generation, payload, HEADER_BYTES + |payload|);
    var after := WrittenBank(n, generation, payload, HEADER_BYTES + |payload| + w);
    FooterCut(n, generation, payload, 0);
    FooterCut(n, generation, payload, w);
    JoinTail(before, after, n - FOOTER_BYTES, tail);
  }

  lemma JoinTail(before: seq<byte>, after: seq<byte>, m: nat, tail: seq<byte>)
    requires m + |tail| <= |before| == |after|
    requires before[..m] == after[..m]
    requires before[m..] == Fill(|before| - m, ERASED)
    requires after[m..] == tail + Fill(|before| - m - |tail|, ERASED)
    ensures Splice(before, m, tail) == after
  {
    assert before[m + |tail|..] == before[m..][|tail|..];
    assert after == after[..m] + after[m..];
  }

  /** The bytes after an attempt on bank `t` that got as far as `progress`. */
  ghost predicate Reached(before: seq<byte>, after: seq<byte>, n: nat, t: nat, generation: u64,
                          payload: seq<byte>, progress: Progress)
    requires Layout(before, n) && Fits(payload, n) && t < 2
  {
    match progress
    case Untouched =>
      after == before
    case Erasing(k) =>
      0 < k <= n && after == SetBank(before, n, t, Splice(Bank(before, n, t), 0, Fill(k, ERASED)))
    case Writing(cut) =>
      cut <= FullLength(payload) && after == SetBank(before, n, t, WrittenBank(n, generation, payload, cut))
  }

  method EraseBank(storage: Storage, n: nat, t: nat) returns (ok: bool, ghost k: nat)
    requires Layout(storage.bytes[..], n) && t < 2
    modifies storage`eraseBudget, storage.bytes
    ensures k <= n && (ok <==> k == n)
    ensures storage.bytes[..] == SetBank(old(storage.bytes[..]), n, t,
                                         Splice(Bank(old(storage.bytes[..]), n, t), 0, Fill(k, ERASED)))
    ensures old(storage.eraseBudget) == UNLIMITED && n <= UNLIMITED ==> ok && storage.eraseBudget == UNLIMITED
  {
    hide SetBank, Splice, Bank, Fill;
    ghost var before := storage.bytes[..];
    SameBank(before, n, t);
    ok, k := storage.Erase(Base(n, t), n);
    SpliceInBank(before, n, t, Bank(before, n, t), 0, Fill(k, ERASED));
  }

  method WritePart(storage: Storage, ghost before: seq<byte>, n: nat, t: nat, ghost bank: seq<byte>,
                   offset: nat, source: seq<byte>)
    returns (ok: bool, ghost written: nat)
    requires Layout(before, n) && t < 2 && |bank| == n && offset + |source| <= n
    requires storage.bytes[..] == SetBank(before, n, t, bank)
    modifies storage`writeBudget, storage.bytes
    ensures written <= |source| && (ok <==> written == |source|)
    ensures storage.bytes[..] == SetBank(before, n, t, Splice(bank, offset, source[..written]))
    ensures old(storage.writeBudget) == UNLIMITED && n <= UNLIMITED ==> ok && storage.writeBudget == UNLIMITED
  {
    ok, written := storage.Write(Base(n, t) + offset, source);
    SpliceInBank(before, n, t, bank, offset, source[..written]);
  }

  /** First half of a checkpoint: erase, sync, header, payload, sync; the footer is not touched. */
  method WriteBody(storage: Storage, n: nat, t: nat, generation: u64, payload: seq<byte>)
    returns (ok: bool, ghost progress: Progress)
    requires Layout(storage.bytes[..], n) && Fits(payload, n) && t < 2
    modifies storage, storage.bytes
    ensures storage.readFaults == old(storage.readFaults)
    ensures ok ==> progress == Writing(HEADER_BYTES + |payload|)
    ensures Reached(old(storage.bytes[..]), storage.bytes[..], n, t, generation, payload, progress)
    ensures old(storage.Reliable()) && n <= UNLIMITED ==> ok && storage.Reliable()
  {
    hide Crc32, WrittenBank, Header, SetBank, Splice;
    ghost var before := storage.bytes[..];
    var header := BuildHeaderFor(generation, payload);
    var done, k := EraseBank(storage, n, t);
    ErasedEnds(Bank(before, n, t));
    if !done {
      SameBank(before, n, t);
      return false, if k == 0 then Untouched else Erasing(k);
    }
    EraseStep(n, generation, payload);
    done := storage.Sync();
    if !done {
      return false, Writing(0);
    }
    ghost var written;
    done, written := WritePart(storage, before, n, t, WrittenBank(n, generation, payload, 0), 0, header);
    HeaderStep(n, generation, payload, written);
    if !done {
      return false, Writing(written);
    }
    done, written := WritePart(storage, before, n, t, WrittenBank(n, generation, payload, HEADER_BYTES),
                               HEADER_BYTES, payload);
    PayloadStep(n, generation, payload, written);
    progress := Writing(HEADER_BYTES + written);
    if !done {
      return false, progress;
    }
    ok := storage.Sync();
  }

  method BuildHeaderFor(generation: u64, payload: seq<byte>) returns (header: seq<byte>)
    requires |payload| < U32_LIMIT
    ensures header == Header(generation, |payload|, Crc32(payload))
  {
    var crc := ChecksumOf(payload);
    header := BuildHeader(generation, |payload|, crc);
  }

  method BuildFooterFor(generation: u64, payload: seq<byte>) returns (footer: seq<byte>)
    requires |payload| < U32_LIMIT
    ensures footer == Footer(generation, |payload|, Crc32(payload))
  {
    var crc := ChecksumOf(payload);
    footer := BuildFooter(generation, |payload|, crc);
  }

  /** The erase-sync-write-sync-write-sync sequence of one checkpoint, stopping at the first failure. */
  method WriteRecord(storage: Storage, n: nat, t: nat, generation: u64, payload: seq<byte>)
    returns (ok: bool, ghost progress: Progress)
    requires Layout(storage.bytes[..], n) && Fits(payload, n) && t < 2
    modifies storage, storage.bytes
    ensures storage.readFaults == old(storage.readFaults)
    ensures ok ==> progress == Writing(FullLength(payload))
    ensures Reached(old(storage.bytes[..]), storage.bytes[..], n, t, generation, payload, progress)
    ensures old(storage.Reliable()) && n <= UNLIMITED ==> ok && storage.Reliable()
  {
    hide Crc32, WrittenBank, Footer, SetBank, Splice;
    ghost var before := storage.bytes[..];
    ok, progress := WriteBody(storage, n, t, generation, payload);
    if ok {
      var footer := BuildFooterFor(generation, payload);
      var done, written := WritePart(storage, before, n, t,
                                     WrittenBank(n, generation, payload, HEADER_BYTES + |payload|),
                                     n - FOOTER_BYTES, footer);
      FooterStep(n, generation, payload, written);
      progress := Writing(HEADER_BYTES + |payload| + written);
      ok := done;
      if done {
        ok := storage.Sync();
      }
    }
  }
}
