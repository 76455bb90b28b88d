/**
 The two-bank checkpoint journal of static_brcb_checkpoint_store.cpp: how a bank
 is laid out, which bank a restore believes, and what an interrupted checkpoint
 may leave behind.
 */
module CheckpointRecord {
  import opened Octets
  import opened Crc

  const HEADER_BYTES: nat := 40
  const FOOTER_BYTES: nat := 32
  const FORMAT_VERSION: nat := 1
  const ERASED: byte := 0xFF

  // 'ARBRCBP1' and 'ARCOMMIT'
  const HEADER_MAGIC: seq<byte> := [0x41, 0x52, 0x42, 0x52, 0x43, 0x42, 0x50, 0x31]
  const FOOTER_MAGIC: seq<byte> := [0x41, 0x52, 0x43, 0x4F, 0x4D, 0x4D, 0x49, 0x54]

  datatype BankInfo = BankInfo(valid: bool, generation: u64, payloadBytes: u32, payloadCrc: u32)
  datatype Record = Record(generation: u64, payload: seq<byte>)

  const NO_BANK: BankInfo := BankInfo(false, 0, 0, 0)

  function HeaderFields(generation: u64, bytes: u32, crc: u32): (r: seq<byte>)
    ensures |r| == 36
  {
    HEADER_MAGIC + ToBE(2, FORMAT_VERSION) + ToBE(2, HEADER_BYTES) +
    ToBE(8, generation) + ToBE(4, bytes) + ToBE(4, crc) + Fill(8, 0)
  }

  function Header(generation: u64, bytes: u32, crc: u32): (r: seq<byte>)
    ensures |r| == HEADER_BYTES
  {
    HeaderFields(generation, bytes, crc) + ToBE(4, Crc32(HeaderFields(generation, bytes, crc)))
  }

  function FooterFields(generation: u64, bytes: u32, crc: u32): (r: seq<byte>)
    ensures |r| == 28
  {
    FOOTER_MAGIC + ToBE(8, generation) + ToBE(4, bytes) + ToBE(4, crc) + Fill(4, 0)
  }

  function Footer(generation: u64, bytes: u32, crc: u32): (r: seq<byte>)
    ensures |r| == FOOTER_BYTES
  {
    FooterFields(generation, bytes, crc) + ToBE(4, Crc32(FooterFields(generation, bytes, crc)))
  }

  predicate HeaderAccepted(header: seq<byte>)
    requires |header| == HEADER_BYTES
  {
    && header[..8] == HEADER_MAGIC
    && FromBE(header[8..10]) == FORMAT_VERSION
    && FromBE(header[10..12]) == HEADER_BYTES
    && Crc32(header[..36]) == FromBE(header[36..40])
    && forall i :: 28 <= i < 36 ==> header[i] == 0
  }

  predicate FooterAccepted(footer: seq<byte>)
    requires |footer| == FOOTER_BYTES
  {
    && footer[..8] == FOOTER_MAGIC
    && Crc32(footer[..28]) == FromBE(footer[28..32])
    && forall i :: 24 <= i < 28 ==> footer[i] == 0
  }

  /** What header and footer agree on, before the payload itself is checked. */
  function Agreed(header: seq<byte>, footer: seq<byte>, limit: nat): (info: BankInfo)
    requires |header| == HEADER_BYTES && |footer| == FOOTER_BYTES
    ensures info.valid ==> 0 < info.payloadBytes <= limit && info.generation != 0
    ensures info.valid ==> HeaderAccepted(header) && FooterAccepted(footer)
  {
    WordSizes();
    if !HeaderAccepted(header) || !FooterAccepted(footer) then NO_BANK
    else
      var generation := FromBE(header[12..20]);
      var bytes := FromBE(header[20..24]);
      var crc := FromBE(header[24..28]);
      if generation == 0 || bytes == 0 ||
         generation != FromBE(footer[8..16]) || bytes != FromBE(footer[16..20]) ||
         crc != FromBE(footer[20..24]) || bytes > limit
      then NO_BANK
      else BankInfo(true, generation, bytes, crc)
  }

  /** inspect_bank on a readable bank. */
  function Inspect(bank: seq<byte>): (info: BankInfo)
    requires |bank| > HEADER_BYTES + FOOTER_BYTES
    ensures info.valid ==> 0 < info.payloadBytes <= |bank| - HEADER_BYTES - FOOTER_BYTES
    ensures info.valid ==> info.generation != 0
  {
    var info := Agreed(bank[..HEADER_BYTES], bank[|bank| - FOOTER_BYTES..], |bank| - HEADER_BYTES - FOOTER_BYTES);
    if info.valid && Crc32(bank[HEADER_BYTES..HEADER_BYTES + info.payloadBytes]) == info.payloadCrc
    then info
    else NO_BANK
  }

  /** What a bank offers to a restore. */
  function Offered(bank: seq<byte>): Option<Record>
    requires |bank| > HEADER_BYTES + FOOTER_BYTES
  {
    var info := Inspect(bank);
    if info.valid
    then Some(Record(info.generation, bank[HEADER_BYTES..HEADER_BYTES + info.payloadBytes]))
    else None
  }

  /** generation_newer: wrap-around comparison of 64-bit generations. */
  predicate GenerationNewer(left: u64, right: u64) {
    left != right && (left - right + U64_LIMIT) % U64_LIMIT < U64_LIMIT / 2
  }

  function NextGeneration(current: u64): (next: u64)
    ensures next != 0
    ensures current != 0 ==> GenerationNewer(next, current) && !GenerationNewer(current, next)
  {
    if current == 0 || current == U64_MAX then 1 else current + 1
  }

  predicate Layout(storage: seq<byte>, n: nat) {
    n > HEADER_BYTES + FOOTER_BYTES && 2 * n <= |storage|
  }

  function Bank(storage: seq<byte>, n: nat, i: nat): (b: seq<byte>)
    requires Layout(storage, n) && i < 2
    ensures |b| == n
  {
    if i == 0 then storage[..n] else storage[n..2 * n]
  }

  /** The bank a restore tries first when both are readable. */
  function NewestBank(first: BankInfo, second: BankInfo): Option<nat> {
    if first.valid && second.valid
    then Some(if GenerationNewer(second.generation, first.generation) then 1 else 0)
    else if first.valid then Some(0)
    else if second.valid then Some(1)
    else None
  }

  function Newest(storage: seq<byte>, n: nat): Option<Record>
    requires Layout(storage, n)
  {
    match NewestBank(Inspect(Bank(storage, n, 0)), Inspect(Bank(storage, n, 1)))
    case None => None
    case Some(i) => Offered(Bank(storage, n, i))
  }

  /** The bank the next checkpoint rewrites, and the generation it gives it. */
  function Target(storage: seq<byte>, n: nat): (t: nat)
    requires Layout(storage, n)
    ensures t < 2
  {
    match NewestBank(Inspect(Bank(storage, n, 0)), Inspect(Bank(storage, n, 1)))
    case None => 0
    case Some(i) => 1 - i
  }

  function Successor(storage: seq<byte>, n: nat): (g: u64)
    requires Layout(storage, n)
    ensures g != 0
  {
    match Newest(storage, n)
    case None => NextGeneration(0)
    case Some(r) => NextGeneration(r.generation)
  }

  predicate Fits(payload: seq<byte>, n: nat) {
    n > HEADER_BYTES + FOOTER_BYTES && 0 < |payload| <= n - HEADER_BYTES - FOOTER_BYTES && |payload| < U32_LIMIT
  }

  /** A bank after its erase and the first `cut` octets of header, payload and footer. */
  function WrittenBank(n: nat, generation: u64, payload: seq<byte>, cut: nat): (bank: seq<byte>)
    requires Fits(payload, n)
    requires cut <= HEADER_BYTES + |payload| + FOOTER_BYTES
    ensures |bank| == n
  {
    var body := Header(generation, |payload|, Crc32(payload)) + payload;
    if cut <= |body| then body[..cut] + Fill(n - cut, ERASED)
    else
      var tail := Footer(generation, |payload|, Crc32(payload))[..cut - |body|];
      body + Fill(n - |body| - FOOTER_BYTES, ERASED) + tail + Fill(FOOTER_BYTES - |tail|, ERASED)
  }

  function FullLength(payload: seq<byte>): nat {
    HEADER_BYTES + |payload| + FOOTER_BYTES
  }

  /** A complete bank offers exactly the record that was written. */
  lemma CompleteBankOffered(n: nat, generation: u64, payload: seq<byte>)
    requires Fits(payload, n) && generation != 0
    ensures Offered(WrittenBank(n, generation, payload, FullLength(payload))) == Some(Record(generation, payload))
  {
    hide Crc32, HeaderAccepted, FooterAccepted, Header, Footer, WrittenBank, Agreed;
    var limit := n - HEADER_BYTES - FOOTER_BYTES;
    CompleteBankParts(n, generation, payload);
    AgreedReadsBack(generation, |payload|, Crc32(payload), limit);
  }

  lemma AgreedReadsBack(generation: u64, bytes: u32, crc: u32, limit: nat)
    requires generation != 0 && 0 < bytes <= limit
    ensures Agreed(Header(generation, bytes, crc), Footer(generation, bytes, crc), limit) ==
            BankInfo(true, generation, bytes, crc)
  {
    hide HeaderAccepted, FooterAccepted, Header, Footer;
    HeaderReadsBack(generation, bytes, crc);
    FooterReadsBack(generation, bytes, crc);
  }

  lemma CompleteBankParts(n: nat, generation: u64, payload: seq<byte>)
    requires Fits(payload, n)
    ensures var bank := WrittenBank(n, generation, payload, FullLength(payload));
      && bank[..HEADER_BYTES] == Header(generation, |payload|, Crc32(payload))
      && bank[HEADER_BYTES..HEADER_BYTES + |payload|] == payload
      && bank[n - FOOTER_BYTES..] == Footer(generation, |payload|, Crc32(payload))
  {
    hide Header, Footer, Crc32;
  }

  lemma HeaderReadsBack(generation: u64, bytes: u32, crc: u32)
    ensures HeaderAccepted(Header(generation, bytes, crc))
    ensures var h := Header(generation, bytes, crc);
      FromBE(h[12..20]) == generation && FromBE(h[20..24]) == bytes && FromBE(h[24..28]) == crc
  {
    var fields := HeaderFields(generation, bytes, crc);
    var h := Header(generation, bytes, crc);
    WordSizes();
    assert h[..36] == fields;
    assert h[8..10] == ToBE(2, FORMAT_VERSION);
    assert h[10..12] == ToBE(2, HEADER_BYTES);
    assert h[12..20] == ToBE(8, generation);
    assert h[20..24] == ToBE(4, bytes);
    assert h[24..28] == ToBE(4, crc);
    assert h[28..36] == Fill(8, 0);
    assert h[36..40] == ToBE(4, Crc32(fields));
    FromToBE(2, FORMAT_VERSION);
    FromToBE(2, HEADER_BYTES);
    FromToBE(8, generation);
    FromToBE(4, bytes);
    FromToBE(4, crc);
    FromToBE(4, Crc32(fields));
    forall i | 28 <= i < 36 ensures h[i] == 0 { assert h[i] == h[28..36][i - 28]; }
  }

  lemma FooterReadsBack(generation: u64, bytes: u32, crc: u32)
    ensures FooterAccepted(Footer(generation, bytes, crc))
    ensures var f := Footer(generation, bytes, crc);
      FromBE(f[8..16]) == generation && FromBE(f[16..20]) == bytes && FromBE(f[20..24]) == crc
  {
    var fields := FooterFields(generation, bytes, crc);
    var f := Footer(generation, bytes, crc);
    WordSizes();
    assert f[..28] == fields;
    assert f[8..16] == ToBE(8, generation);
    assert f[16..20] == ToBE(4, bytes);
    assert f[20..24] == ToBE(4, crc);
    assert f[24..28] == Fill(4, 0);
    assert f[28..32] == ToBE(4, Crc32(fields));
    FromToBE(8, generation);
    FromToBE(4, bytes);
    FromToBE(4, crc);
    FromToBE(4, Crc32(fields));
    forall i | 24 <= i < 28 ensures f[i] == 0 { assert f[i] == f[24..28][i - 24]; }
  }

  /** A footer cut short is accepted only if the missing octets equal the erased ones. */
  lemma TornFooter(generation: u64, bytes: u32, crc: u32, k: nat)
    requires k <= FOOTER_BYTES
    requires FooterAccepted(Footer(generation, bytes, crc)[..k] + Fill(FOOTER_BYTES - k, ERASED))
    ensures Footer(generation, bytes, crc)[..k] + Fill(FOOTER_BYTES - k, ERASED) == Footer(generation, bytes, crc)
  {
    var full := Footer(generation, bytes, crc);
    var torn := full[..k] + Fill(FOOTER_BYTES - k, ERASED);
    assert torn[27] == if k < 28 then ERASED else full[27];
    assert torn[..28] == full[..28] == FooterFields(generation, bytes, crc);
    FooterReadsBack(generation, bytes, crc);
    FromBEInjective(torn[28..32], full[28..32]);
    assert torn == torn[..28] + torn[28..32];
    assert full == full[..28] + full[28..32];
  }

  lemma NoFooterOffersNothing(n: nat, generation: u64, payload: seq<byte>, cut: nat)
    requires Fits(payload, n)
    requires cut <= HEADER_BYTES + |payload|
    ensures Offered(WrittenBank(n, generation, payload, cut)) == None
  {
    var bank := WrittenBank(n, generation, payload, cut);
    var footer := bank[n - FOOTER_BYTES..];
    assert footer[0] == bank[n - FOOTER_BYTES] == ERASED;
    assert footer[..8][0] == ERASED;
    assert !FooterAccepted(footer);
  }

  lemma OfferedHasFooter(bank: seq<byte>)
    requires |bank| > HEADER_BYTES + FOOTER_BYTES
    requires Offered(bank).Some?
    ensures FooterAccepted(bank[|bank| - FOOTER_BYTES..])
  {
  }

  lemma JoinAt(a: seq<byte>, b: seq<byte>, m: nat)
    requires m <= |a| == |b|
    requires a[..m] == b[..m] && a[m..] == b[m..]
    ensures a == b
  {
    assert a == a[..m] + a[m..];
    assert b == b[..m] + b[m..];
  }

  /** A bank cut inside its footer, split at the footer. */
  lemma FooterCut(n: nat, generation: u64, payload: seq<byte>, k: nat)
    requires Fits(payload, n) && k <= FOOTER_BYTES
    ensures var bank := WrittenBank(n, generation, payload, HEADER_BYTES + |payload| + k);
      var crc := Crc32(payload);
      && bank[..n - FOOTER_BYTES] == Header(generation, |payload|, crc) + payload +
                                     Fill(n - FullLength(payload), ERASED)
      && bank[n - FOOTER_BYTES..] == Footer(generation, |payload|, crc)[..k] + Fill(FOOTER_BYTES - k, ERASED)
  {
    var body := Header(generation, |payload|, Crc32(payload)) + payload;
    var tail := Footer(generation, |payload|, Crc32(payload))[..k];
    var bank := WrittenBank(n, generation, payload, HEADER_BYTES + |payload| + k);
    if k == 0 {
      assert bank == body + Fill(n - |body|, ERASED);
      assert bank[n - FOOTER_BYTES..] == Fill(FOOTER_BYTES, ERASED);
    } else {
      assert bank == body + Fill(n - |body| - FOOTER_BYTES, ERASED) + (tail + Fill(FOOTER_BYTES - k, ERASED));
    }
  }

  lemma TornInFooter(bank: seq<byte>, n: nat, generation: u64, payload: seq<byte>, k: nat)
    requires Fits(payload, n) && k <= FOOTER_BYTES && |bank| == n
    requires bank == WrittenBank(n, generation, payload, HEADER_BYTES + |payload| + k)
    requires FooterAccepted(bank[n - FOOTER_BYTES..])
    ensures bank == WrittenBank(n, generation, payload, FullLength(payload))
  {
    var whole := WrittenBank(n, generation, payload, FullLength(payload));
    FooterCut(n, generation, payload, k);
    FooterCut(n, generation, payload, FOOTER_BYTES);
    TornFooter(generation, |payload|, Crc32(payload), k);
    assert Footer(generation, |payload|, Crc32(payload))[..FOOTER_BYTES] + Fill(0, ERASED) ==
           Footer(generation, |payload|, Crc32(payload));
    JoinAt(bank, whole, n - FOOTER_BYTES);
  }

  /**
   No bank left by an interrupted write is a mixture: it offers nothing, or it is
   octet for octet the complete bank.  No property of the checksum is used.
   */
  lemma TornBankOffered(bank: seq<byte>, n: nat, generation: u64, payload: seq<byte>, cut: nat)
    requires Fits(payload, n) && cut <= FullLength(payload) && |bank| == n
    requires bank == WrittenBank(n, generation, payload, cut)
    ensures Offered(bank).Some? ==> bank == WrittenBank(n, generation, payload, FullLength(payload))
  {
    hide WrittenBank, Offered, FooterAccepted;
    if Offered(bank).Some? {
      OfferedHasFooter(bank);
      if HEADER_BYTES + |payload| < cut {
        TornInFooter(bank, n, generation, payload, cut - HEADER_BYTES - |payload|);
      } else {
        NoFooterOffersNothing(n, generation, payload, cut);
      }
    }
  }

  /** An erase interrupted after at least one octet leaves a bank that offers nothing. */
  lemma PartlyErasedOffersNothing(bank: seq<byte>, k: nat)
    requires |bank| > HEADER_BYTES + FOOTER_BYTES && 0 < k <= |bank|
    ensures Offered(Splice(bank, 0, Fill(k, ERASED))) == None
  {
    var torn := Splice(bank, 0, Fill(k, ERASED));
    assert torn[..HEADER_BYTES][..8][0] == ERASED;
  }

  // ----- What a bank that offers a record looks like

  /** Two accepted headers with the same fields are the same. */
  lemma SameHeader(h: seq<byte>, k: seq<byte>)
    requires |h| == |k| == HEADER_BYTES && HeaderAccepted(h) && HeaderAccepted(k)
    requires FromBE(h[12..20]) == FromBE(k[12..20]) && FromBE(h[20..24]) == FromBE(k[20..24])
    requires FromBE(h[24..28]) == FromBE(k[24..28])
    ensures h == k
  {
    hide Crc32, FromBE;
    AgreeOn(h, k, 8, 10);
    AgreeOn(h, k, 10, 12);
    AgreeOn(h, k, 12, 20);
    AgreeOn(h, k, 20, 24);
    AgreeOn(h, k, 24, 28);
    AgreeOnZeros(h, k, 28, 36);
    AgreeOn(h, k, 36, 40);
    assert h[..40] == h && k[..40] == k;
  }

  lemma SameFooter(f: seq<byte>, k: seq<byte>)
    requires |f| == |k| == FOOTER_BYTES && FooterAccepted(f) && FooterAccepted(k)
    requires FromBE(f[8..16]) == FromBE(k[8..16]) && FromBE(f[16..20]) == FromBE(k[16..20])
    requires FromBE(f[20..24]) == FromBE(k[20..24])
    ensures f == k
  {
    hide Crc32, FromBE;
    AgreeOn(f, k, 8, 16);
    AgreeOn(f, k, 16, 20);
    AgreeOn(f, k, 20, 24);
    AgreeOnZeros(f, k, 24, 28);
    AgreeOn(f, k, 28, 32);
    assert f[..32] == f && k[..32] == k;
  }

  /** The bank holds this record: header, payload and footer as a checkpoint writes them, and anything in between. */
  predicate Carries(bank: seq<byte>, r: Record)
    requires |bank| > HEADER_BYTES + FOOTER_BYTES
  {
    && Fits(r.payload, |bank|) && r.generation != 0
    && bank[..HEADER_BYTES] == Header(r.generation, |r.payload|, Crc32(r.payload))
    && bank[HEADER_BYTES..HEADER_BYTES + |r.payload|] == r.payload
    && bank[|bank| - FOOTER_BYTES..] == Footer(r.generation, |r.payload|, Crc32(r.payload))
  }

  /** A bank offers a record exactly if it holds it, octet for octet as it is written. */
  lemma OfferedExactly(bank: seq<byte>, r: Record)
    requires |bank| > HEADER_BYTES + FOOTER_BYTES
    ensures Offered(bank) == Some(r) <==> Carries(bank, r)
  {
    hide Crc32, HeaderAccepted, FooterAccepted, Header, Footer;
    var end := |bank| - FOOTER_BYTES;
    if Offered(bank) == Some(r) {
      WordSizes();
      var bytes, crc := |r.payload|, Crc32(r.payload);
      HeaderReadsBack(r.generation, bytes, crc);
      FooterReadsBack(r.generation, bytes, crc);
      SameHeader(bank[..HEADER_BYTES], Header(r.generation, bytes, crc));
      SameFooter(bank[end..], Footer(r.generation, bytes, crc));
    }
    if Carries(bank, r) {
      AgreedReadsBack(r.generation, |r.payload|, Crc32(r.payload), end - HEADER_BYTES);
    }
  }

  /** Of two generations the one ahead by less than half the circle is newer. */
  lemma NewerExactly(generation: u64, ahead: u64)
    ensures GenerationNewer((generation + ahead) % U64_LIMIT, generation) <==> 0 < ahead < 0x8000_0000_0000_0000
  {
    if generation + ahead < U64_LIMIT {
      Remainder(generation + ahead, U64_LIMIT, 0, generation + ahead);
      Remainder(ahead + U64_LIMIT, U64_LIMIT, 1, ahead);
    } else {
      Remainder(generation + ahead, U64_LIMIT, 1, generation + ahead - U64_LIMIT);
      Remainder(ahead, U64_LIMIT, 0, ahead);
    }
  }

  // ----- Octets that change by themselves

  lemma OneChanged(s: seq<byte>, p: nat, v: byte)
    requires p < |s| && s[p] != v
    ensures OneOctetApart(s, s[p := v])
  {
    var t := s[p := v];
    assert s[..p] == t[..p] && s[p + 1..] == t[p + 1..];
  }

  lemma HeaderCorrupted(header: seq<byte>, p: nat, v: byte)
    requires |header| == HEADER_BYTES && p < HEADER_BYTES && header[p] != v && HeaderAccepted(header)
    ensures !HeaderAccepted(header[p := v])
  {
    hide Crc32, OneOctetApart;
    var bad := header[p := v];
    if p < 36 {
      OneChanged(header[..36], p, v);
      OneOctetTellsApart(header[..36], header[..36][p := v]);
      assert bad[..36] == header[..36][p := v] && bad[36..40] == header[36..40];
    } else {
      assert bad[..36] == header[..36] && bad[36..40][p - 36] != header[36..40][p - 36];
      if HeaderAccepted(bad) {
        FromBEInjective(bad[36..40], header[36..40]);
      }
    }
  }

  lemma FooterCorrupted(footer: seq<byte>, p: nat, v: byte)
    requires |footer| == FOOTER_BYTES && p < FOOTER_BYTES && footer[p] != v && FooterAccepted(footer)
    ensures !FooterAccepted(footer[p := v])
  {
    hide Crc32, OneOctetApart;
    var bad := footer[p := v];
    if p < 28 {
      OneChanged(footer[..28], p, v);
      OneOctetTellsApart(footer[..28], footer[..28][p := v]);
      assert bad[..28] == footer[..28][p := v] && bad[28..32] == footer[28..32];
    } else {
      assert bad[..28] == footer[..28] && bad[28..32][p - 28] != footer[28..32][p - 28];
      if FooterAccepted(bad) {
        FromBEInjective(bad[28..32], footer[28..32]);
      }
    }
  }

  /** The octets of a bank that its record consists of. */
  predicate Covered(bank: seq<byte>, p: nat)
    requires |bank| > HEADER_BYTES + FOOTER_BYTES
  {
    p < HEADER_BYTES + Inspect(bank).payloadBytes || |bank| - FOOTER_BYTES <= p < |bank|
  }

  /**
   A bank that offers a record offers nothing once one octet of its header, payload or
   footer has changed, and the same as before if the octet is another.
   */
  lemma CorruptionDetectedExactly(bank: seq<byte>, p: nat, v: byte)
    requires |bank| > HEADER_BYTES + FOOTER_BYTES && Offered(bank).Some? && p < |bank| && bank[p] != v
    ensures Offered(bank[p := v]) == if Covered(bank, p) then None else Offered(bank)
  {
    hide Crc32, HeaderAccepted, FooterAccepted, OneOctetApart;
    var bad, info, end := bank[p := v], Inspect(bank), |bank| - FOOTER_BYTES;
    var header, footer := bank[..HEADER_BYTES], bank[end..];
    var payload := bank[HEADER_BYTES..HEADER_BYTES + info.payloadBytes];
    if p < HEADER_BYTES {
      HeaderCorrupted(header, p, v);
      assert bad[..HEADER_BYTES] == header[p := v];
    } else if end <= p {
      FooterCorrupted(footer, p - end, v);
      assert bad[end..] == footer[p - end := v];
    } else {
      assert bad[..HEADER_BYTES] == header && bad[end..] == footer;
      var q := p - HEADER_BYTES;
      if q < info.payloadBytes {
        OneChanged(payload, q, v);
        OneOctetTellsApart(payload, payload[q := v]);
        assert bad[HEADER_BYTES..HEADER_BYTES + info.payloadBytes] == payload[q := v];
      } else {
        assert bad[HEADER_BYTES..HEADER_BYTES + info.payloadBytes] == payload;
      }
    }
  }

  /** Storage with one octet of bank `i` changed. */
  function Corrupted(storage: seq<byte>, n: nat, i: nat, p: nat, v: byte): (r: seq<byte>)
    requires Layout(storage, n) && i < 2 && p < n
    ensures Layout(r, n) && Bank(r, n, i) == Bank(storage, n, i)[p := v]
    ensures Bank(r, n, 1 - i) == Bank(storage, n, 1 - i)
  {
    storage[(if i == 0 then p else n + p) := v]
  }

  /** A restore then believes what the other bank offers. */
  lemma CorruptedFallsBack(storage: seq<byte>, n: nat, i: nat, p: nat, v: byte)
    requires Layout(storage, n) && i < 2 && p < n && Bank(storage, n, i)[p] != v
    requires Offered(Bank(storage, n, i)).Some? && Covered(Bank(storage, n, i), p)
    ensures Newest(Corrupted(storage, n, i, p, v), n) == Offered(Bank(storage, n, 1 - i))
  {
    CorruptionDetectedExactly(Bank(storage, n, i), p, v);
    hide Inspect, Bank, Corrupted;
  }
}

/**
 What every run of checkpoint attempts leaves for a restore, whichever attempts
 were interrupted and wherever.
 */
module CrashSafety {
  import opened Octets
  import opened CheckpointRecord

  /** How far one attempt got: refused before touching the bank, stopped while erasing, or while writing. */
  datatype Progress = Untouched | Erasing(erased: nat) | Writing(written: nat)

  datatype Attempt = Attempt(payload: seq<byte>, progress: Progress, acknowledged: bool) {
    ghost predicate Possible(n: nat) {
      && Fits(payload, n)
      && match progress
         case Untouched => !acknowledged
         case Erasing(k) => 0 < k <= n && !acknowledged
         case Writing(cut) => cut <= FullLength(payload) && (acknowledged ==> cut == FullLength(payload))
    }
  }

  function SetBank(storage: seq<byte>, n: nat, i: nat, bank: seq<byte>): (r: seq<byte>)
    requires Layout(storage, n) && i < 2 && |bank| == n
    ensures |r| == |storage|
    ensures Bank(r, n, i) == bank
    ensures Bank(r, n, 1 - i) == Bank(storage, n, 1 - i)
  {
    Splice(storage, if i == 0 then 0 else n, bank)
  }

  function After(storage: seq<byte>, n: nat, attempt: Attempt): (r: seq<byte>)
    requires Layout(storage, n) && attempt.Possible(n)
    ensures |r| == |storage|
  {
    var t := Target(storage, n);
    match attempt.progress
    case Untouched => storage
    case Erasing(k) => SetBank(storage, n, t, Splice(Bank(storage, n, t), 0, Fill(k, ERASED)))
    case Writing(cut) => SetBank(storage, n, t, WrittenBank(n, Successor(storage, n), attempt.payload, cut))
  }

  /** The target bank afterwards: as it was, silent, or holding the whole new record. */
  lemma TargetBankAfter(storage: seq<byte>, n: nat, attempt: Attempt)
    requires Layout(storage, n) && attempt.Possible(n)
    ensures var t := Target(storage, n);
      var bank := Bank(After(storage, n, attempt), n, t);
      var fresh' := Some(Record(Successor(storage, n), attempt.payload));
      && (attempt.acknowledged ==> Offered(bank) == fresh')
      && (|| (attempt.progress == Untouched && bank == Bank(storage, n, t))
          || Offered(bank) == None || Offered(bank) == fresh')
  {
    var t, g := Target(storage, n), Successor(storage, n);
    var bank := Bank(After(storage, n, attempt), n, t);
    match attempt.progress
    case Untouched =>
    case Erasing(k) => PartlyErasedOffersNothing(Bank(storage, n, t), k);
    case Writing(cut) =>
      assert bank == WrittenBank(n, g, attempt.payload, cut);
      TornBankOffered(bank, n, g, attempt.payload, cut);
      CompleteBankOffered(n, g, attempt.payload);
  }

  /** The bank a restore would have believed is never written. */
  lemma OtherBankKept(storage: seq<byte>, n: nat, attempt: Attempt)
    requires Layout(storage, n) && attempt.Possible(n)
    ensures Bank(After(storage, n, attempt), n, 1 - Target(storage, n)) == Bank(storage, n, 1 - Target(storage, n))
  {
  }

  /** One attempt keeps the newest record or replaces it by its own, whole; success means the latter. */
  lemma AttemptKeepsOrReplaces(storage: seq<byte>, n: nat, attempt: Attempt)
    requires Layout(storage, n) && attempt.Possible(n)
    ensures var after := Newest(After(storage, n, attempt), n);
      var fresh' := Some(Record(Successor(storage, n), attempt.payload));
      && (after == Newest(storage, n) || after == fresh')
      && (attempt.acknowledged ==> after == fresh')
  {
    TargetBankAfter(storage, n, attempt);
    OtherBankKept(storage, n, attempt);
  }

  /**
   An octet of the newest record, changed after the checkpoint that wrote it was
   acknowledged: a restore believes again what it believed before that checkpoint.
   */
  lemma CorruptNewestFallsBack(storage: seq<byte>, n: nat, attempt: Attempt, p: nat, v: byte)
    requires Layout(storage, n) && attempt.Possible(n) && attempt.acknowledged && p < n
    requires var bank := Bank(After(storage, n, attempt), n, Target(storage, n)); bank[p] != v && Covered(bank, p)
    ensures Newest(Corrupted(After(storage, n, attempt), n, Target(storage, n), p, v), n) == Newest(storage, n)
  {
    TargetBankAfter(storage, n, attempt);
    OtherBankKept(storage, n, attempt);
    var after, t := After(storage, n, attempt), Target(storage, n);
    OtherIsNewest(storage, n);
    hide Offered, Newest, After, Bank, Covered, Target, Successor, Inspect;
    CorruptedFallsBack(after, n, t, p, v);
  }

  /** The bank that is not rewritten next offers what a restore believes. */
  lemma OtherIsNewest(storage: seq<byte>, n: nat)
    requires Layout(storage, n)
    ensures Offered(Bank(storage, n, 1 - Target(storage, n))) == Newest(storage, n)
  {
    hide Inspect, GenerationNewer;
  }

  function AfterAll(storage: seq<byte>, n: nat, attempts: seq<Attempt>): (r: seq<byte>)
    requires Layout(storage, n)
    requires forall i :: 0 <= i < |attempts| ==> attempts[i].Possible(n)
    ensures |r| == |storage|
  {
    if attempts == [] then storage
    else After(AfterAll(storage, n, attempts[..|attempts| - 1]), n, attempts[|attempts| - 1])
  }

  /** Nothing was acknowledged after attempt `i`. */
  predicate LastAcknowledgedBy(attempts: seq<Attempt>, i: int) {
    forall j :: 0 <= j < |attempts| && i < j ==> !attempts[j].acknowledged
  }

  /** `seen` is what was there first, or the payload of the last acknowledged attempt or a later one. */
  ghost predicate Explained(first: Option<Record>, attempts: seq<Attempt>, seen: Option<Record>) {
    || (seen == first && LastAcknowledgedBy(attempts, -1))
    || exists i :: 0 <= i < |attempts| && LastAcknowledgedBy(attempts, i) && seen.Some? &&
                   seen.value.payload == attempts[i].payload
  }

  lemma ExplainedStep(first: Option<Record>, attempts: seq<Attempt>, last: Attempt, seen: Option<Record>,
                      seen': Option<Record>)
    requires Explained(first, attempts, seen)
    requires (seen' == seen && !last.acknowledged) || (seen'.Some? && seen'.value.payload == last.payload)
    ensures Explained(first, attempts + [last], seen')
  {
    var all := attempts + [last];
    if seen'.Some? && seen'.value.payload == last.payload {
      assert all[|attempts|] == last && LastAcknowledgedBy(all, |attempts|);
    } else if !(seen == first && LastAcknowledgedBy(attempts, -1)) {
      var i :| 0 <= i < |attempts| && LastAcknowledgedBy(attempts, i) && seen.Some? &&
        seen.value.payload == attempts[i].payload;
      assert all[i] == attempts[i] && LastAcknowledgedBy(all, i);
    }
  }

  lemma NothingAttempted(first: Option<Record>)
    ensures Explained(first, [], first)
  {
  }

  /**
   Crash safety: after any run, from any storage, a restore believes the record it
   believed at the start if nothing was acknowledged since, or otherwise the exact
   payload of one attempt that is the last acknowledged one or a later one.
   */
  lemma {:induction false} RestoreSeesLastAcknowledgedOrLater(storage: seq<byte>, n: nat, attempts: seq<Attempt>)
    requires Layout(storage, n)
    requires forall i :: 0 <= i < |attempts| ==> attempts[i].Possible(n)
    ensures Explained(Newest(storage, n), attempts, Newest(AfterAll(storage, n, attempts), n))
  {
    hide Newest, After, Explained;
    if attempts == [] {
      NothingAttempted(Newest(storage, n));
    } else {
      var k := |attempts| - 1;
      var before := AfterAll(storage, n, attempts[..k]);
      RestoreSeesLastAcknowledgedOrLater(storage, n, attempts[..k]);
      AttemptKeepsOrReplaces(before, n, attempts[k]);
      assert attempts == attempts[..k] + [attempts[k]];
      ExplainedStep(Newest(storage, n), attempts[..k], attempts[k], Newest(before, n),
                    Newest(AfterAll(storage, n, attempts), n));
    }
  }

  /** `seen` is nothing, what was there first, or the whole payload of some attempt. */
  ghost predicate Traceable(first: Option<Record>, attempts: seq<Attempt>, seen: Option<Record>) {
    || seen == None || seen == first
    || exists i :: 0 <= i < |attempts| && seen.value.payload == attempts[i].payload
  }

  /** After any run neither bank offers a mixture: this is what a restore finds where the newest bank cannot be read. */
  lemma {:induction false} EveryBankTraceable(storage: seq<byte>, n: nat, attempts: seq<Attempt>, b: nat)
    requires Layout(storage, n) && b < 2
    requires forall i :: 0 <= i < |attempts| ==> attempts[i].Possible(n)
    ensures Traceable(Offered(Bank(storage, n, b)), attempts, Offered(Bank(AfterAll(storage, n, attempts), n, b)))
  {
    hide Offered, After, Bank, Target, Successor;
    if attempts != [] {
      var k := |attempts| - 1;
      var before := AfterAll(storage, n, attempts[..k]);
      EveryBankTraceable(storage, n, attempts[..k], b);
      TargetBankAfter(before, n, attempts[k]);
      OtherBankKept(before, n, attempts[k]);
      TraceableStep(Offered(Bank(storage, n, b)), attempts, Offered(Bank(before, n, b)),
                    Offered(Bank(After(before, n, attempts[k]), n, b)));
    }
  }

  lemma TraceableStep(first: Option<Record>, attempts: seq<Attempt>, seen: Option<Record>, seen': Option<Record>)
    requires attempts != [] && Traceable(first, attempts[..|attempts| - 1], seen)
    requires seen' == seen || seen' == None || seen'.value.payload == attempts[|attempts| - 1].payload
    ensures Traceable(first, attempts, seen')
  {
    var k := |attempts| - 1;
    if seen' == seen && seen != None && seen != first {
      var i :| 0 <= i < k && seen.value.payload == attempts[..k][i].payload;
      assert seen'.value.payload == attempts[i].payload;
    }
  }
}
