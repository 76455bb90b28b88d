/**
 Octets, machine-word limits and big-endian fields, as the wire and storage
 codecs of the stack use them.
 */
module Octets {

  type byte = b: int | 0 <= b < 256

  const U32_LIMIT: nat := 0x1_0000_0000
  const U64_LIMIT: nat := 0x1_0000_0000_0000_0000
  const U64_MAX: nat := U64_LIMIT - 1

  type u32 = x: int | 0 <= x < U32_LIMIT
  type u64 = x: int | 0 <= x < U64_LIMIT

  datatype Option<+T> = None | Some(value: T)

  function Pow256(n: nat): (p: nat)
    ensures p > 0
  {
    if n == 0 then 1 else 256 * Pow256(n - 1)
  }

  lemma WordSizes()
    ensures Pow256(2) == 0x1_0000
    ensures Pow256(4) == U32_LIMIT
    ensures Pow256(8) == U64_LIMIT
  {
    assert Pow256(1) == 256;
    assert Pow256(3) == 256 * Pow256(2);
    assert Pow256(5) == 256 * Pow256(4);
    assert Pow256(6) == 256 * Pow256(5);
    assert Pow256(7) == 256 * Pow256(6);
  }

  /** The low `n` octets of `v`, most significant first. */
  function ToBE(n: nat, v: nat): (s: seq<byte>)
    ensures |s| == n
    decreases n, v
  {
    if n == 0 then [] else ToBE(n - 1, v / 256) + [v % 256]
  }

  function FromBE(s: seq<byte>): (v: nat)
    ensures v < Pow256(|s|)
  {
    if s == [] then 0 else FromBE(s[..|s| - 1]) * 256 + s[|s| - 1]
  }

  lemma {:induction false} FromToBE(n: nat, v: nat)
    requires v < Pow256(n)
    ensures FromBE(ToBE(n, v)) == v
  {
    if n != 0 {
      FromToBE(n - 1, v / 256);
      assert ToBE(n, v)[..n - 1] == ToBE(n - 1, v / 256);
    }
  }

  lemma {:induction false} ToFromBE(s: seq<byte>)
    ensures ToBE(|s|, FromBE(s)) == s
  {
    if s != [] {
      ToFromBE(s[..|s| - 1]);
      assert s == s[..|s| - 1] + [s[|s| - 1]];
    }
  }

  /** Equal-length fields holding the same number hold the same octets. */
  lemma FromBEInjective(a: seq<byte>, b: seq<byte>)
    requires |a| == |b|
    requires FromBE(a) == FromBE(b)
    ensures a == b
  {
    ToFromBE(a);
    ToFromBE(b);
  }

  lemma {:induction false} ToBEAt(n: nat, v: nat, j: nat)
    requires j < n
    ensures ToBE(n, v)[j] == v / Pow256(n - 1 - j) % 256
  {
    if j < n - 1 {
      ToBEAt(n - 1, v / 256, j);
      DivDiv(v, Pow256(n - 2 - j));
    }
  }

  lemma DivDiv(v: nat, p: nat)
    requires p > 0
    ensures v / 256 / p == v / (256 * p)
  {
    var q := v / 256 / p;
    assert v / 256 == q * p + v / 256 % p;
    var r := 256 * (v / 256 % p) + v % 256;
    assert v == q * (256 * p) + r;
    assert 0 <= r < 256 * p;
    Quotient(v, 256 * p, q, r);
  }

  lemma Quotient(v: nat, d: nat, q: nat, r: nat)
    requires d > 0 && v == q * d + r && r < d
    ensures v / d == q
  {
    var q' := v / d;
    assert v == q' * d + v % d;
    assert (q - q') * d == v % d - r;
    if q' < q {
      MulAtLeast(q - q', d);
    } else if q' > q {
      MulAtLeast(q' - q, d);
    }
  }

  lemma ModSuccessor(a: nat, m: nat)
    requires m > 0
    ensures (a + 1) % m == if a % m == m - 1 then 0 else a % m + 1
  {
    var q, r := a / m, a % m;
    assert a == q * m + r;
    if r == m - 1 {
      assert (q + 1) * m == q * m + m;
      Remainder(a + 1, m, q + 1, 0);
    } else {
      Remainder(a + 1, m, q, r + 1);
    }
  }

  lemma SameResidue(a: nat, k: nat, m: nat)
    requires m > 0 && a < m
    ensures (a + k) % m == a <==> k % m == 0
  {
    var q, r := k / m, k % m;
    assert k == q * m + r;
    if a + r < m {
      Remainder(a + k, m, q, a + r);
    } else {
      assert (q + 1) * m == q * m + m;
      Remainder(a + k, m, q + 1, a + r - m);
    }
  }

  lemma Remainder(v: nat, d: nat, q: nat, r: nat)
    requires d > 0 && v == q * d + r && r < d
    ensures v % d == r
  {
    Quotient(v, d, q, r);
    assert v == (v / d) * d + v % d;
  }

  lemma Distribute(n: nat, m: nat)
    requires n > 0
    ensures n * m == (n - 1) * m + m
  {
  }

  lemma MulAtLeast(k: nat, d: nat)
    requires k > 0
    ensures k * d >= d
  {
  }

  function Pow2(n: nat): (p: nat)
    ensures p > 0
  {
    if n == 0 then 1 else 2 * Pow2(n - 1)
  }

  /** Bitwise exclusive or of two unsigned words. */
  function Xor(a: nat, b: nat): nat {
    if a == 0 && b == 0 then 0
    else 2 * Xor(a / 2, b / 2) + (if a % 2 == b % 2 then 0 else 1)
  }

  lemma {:induction false} XorBound(a: nat, b: nat, n: nat)
    requires a < Pow2(n) && b < Pow2(n)
    ensures Xor(a, b) < Pow2(n)
  {
    if n != 0 && (a != 0 || b != 0) {
      XorBound(a / 2, b / 2, n - 1);
    }
  }

  lemma WordWidths()
    ensures Pow2(32) == U32_LIMIT && Pow2(64) == U64_LIMIT
  {
    assert Pow2(8) == 256;
    assert Pow2(16) == 0x1_0000 by { assert Pow2(12) == 0x1000; }
    assert Pow2(20) == 0x10_0000;
    assert Pow2(24) == 0x100_0000;
    assert Pow2(28) == 0x1000_0000;
    assert Pow2(36) == 0x10_0000_0000 by { assert Pow2(32) == U32_LIMIT; }
    assert Pow2(40) == 0x100_0000_0000;
    assert Pow2(44) == 0x1000_0000_0000;
    assert Pow2(48) == 0x1_0000_0000_0000;
    assert Pow2(52) == 0x10_0000_0000_0000;
    assert Pow2(56) == 0x100_0000_0000_0000;
    assert Pow2(60) == 0x1000_0000_0000_0000;
  }

  /** Exclusive or of two 64-bit words. */
  function Xor64(a: u64, b: u64): u64 {
    WordWidths();
    XorBound(a, b, 64);
    Xor(a, b)
  }

  /** `s` with the octets from `offset` on overwritten by `b`. */
  function Splice(s: seq<byte>, offset: nat, b: seq<byte>): (r: seq<byte>)
    requires offset + |b| <= |s|
    ensures |r| == |s|
  {
    s[..offset] + b + s[offset + |b|..]
  }

  lemma SpliceNothing(s: seq<byte>)
    ensures Splice(s, 0, []) == s
  {
  }

  lemma SpliceNext(s: seq<byte>, a: seq<byte>, b: seq<byte>)
    requires |a| + |b| <= |s|
    ensures Splice(Splice(s, 0, a), |a|, b) == Splice(s, 0, a + b)
  {
  }

  function Fill(n: nat, b: byte): (s: seq<byte>)
    ensures |s| == n && forall i :: 0 <= i < n ==> s[i] == b
  {
    seq(n, _ => b)
  }

  /** The shift-and-mask loops behind write_u16, write_u32 and write_u64. */
  method WriteBE(destination: array<byte>, offset: nat, n: nat, value: nat)
    requires offset + n <= destination.Length
    modifies destination
    ensures destination[..] == Splice(old(destination[..]), offset, ToBE(n, value))
  {
    for index := 0 to n
      invariant destination[..offset] == old(destination[..offset])
      invariant destination[offset + n..] == old(destination[offset + n..])
      invariant destination[offset..offset + index] == ToBE(n, value)[..index]
    {
      ToBEAt(n, value, index);
      destination[offset + index] := value / Pow256(n - 1 - index) % 256;
    }
    ghost var was := old(destination[..]);
    assert was[..offset] == old(destination[..offset]);
    assert was[offset + n..] == old(destination[offset + n..]);
    assert destination[..] == destination[..offset] + destination[offset..offset + n] + destination[offset + n..];
  }

  /** The shift-and-or loops behind read_u16, read_u32, read_u64 and decode_entry_id. */
  method ReadBE(source: seq<byte>, offset: nat, n: nat) returns (value: nat)
    requires offset + n <= |source|
    ensures value == FromBE(source[offset..offset + n])
  {
    value := 0;
    for index := 0 to n
      invariant value == FromBE(source[offset..offset + index])
    {
      ghost var next := source[offset..offset + index + 1];
      assert next[..|next| - 1] == source[offset..offset + index];
      value := value * 256 + source[offset + index];
    }
  }

  /** std::copy of a whole span into a buffer at an offset. */
  method CopyInto(destination: array<byte>, offset: nat, source: seq<byte>)
    requires offset + |source| <= destination.Length
    modifies destination
    ensures destination[..] == Splice(old(destination[..]), offset, source)
  {
    for index := 0 to |source|
      invariant destination[..offset] == old(destination[..offset])
      invariant destination[offset + |source|..] == old(destination[offset + |source|..])
      invariant destination[offset..offset + index] == source[..index]
    {
      destination[offset + index] := source[index];
    }
    ghost var was := old(destination[..]);
    assert was[..offset] == old(destination[..offset]);
    assert was[offset + |source|..] == old(destination[offset + |source|..]);
    assert destination[..] ==
      destination[..offset] + destination[offset..offset + |source|] + destination[offset + |source|..];
  }

  /** A record under construction: fields laid down one after the other over zeros. */
  ghost predicate Laid(a: array<byte>, prefix: seq<byte>)
    reads a
  {
    |prefix| <= a.Length && a[..] == prefix + Fill(a.Length - |prefix|, 0)
  }

  method LayBytes(a: array<byte>, ghost prefix: seq<byte>, offset: nat, b: seq<byte>)
    requires Laid(a, prefix) && offset == |prefix| && offset + |b| <= a.Length
    modifies a
    ensures Laid(a, prefix + b)
  {
    CopyInto(a, offset, b);
    assert a[..] == prefix + b + Fill(a.Length - offset - |b|, 0);
  }

  method LayBE(a: array<byte>, ghost prefix: seq<byte>, offset: nat, n: nat, value: nat)
    requires Laid(a, prefix) && offset == |prefix| && offset + n <= a.Length
    modifies a
    ensures Laid(a, prefix + ToBE(n, value))
  {
    WriteBE(a, offset, n, value);
    assert a[..] == prefix + ToBE(n, value) + Fill(a.Length - offset - n, 0);
  }

  /** Reserved octets stay zero. */
  lemma LayZeros(a: array<byte>, prefix: seq<byte>, m: nat)
    requires Laid(a, prefix) && |prefix| + m <= a.Length
    ensures Laid(a, prefix + Fill(m, 0))
  {
    assert Fill(a.Length - |prefix|, 0) == Fill(m, 0) + Fill(a.Length - |prefix| - m, 0);
    assert prefix + (Fill(m, 0) + Fill(a.Length - |prefix| - m, 0)) ==
           prefix + Fill(m, 0) + Fill(a.Length - |prefix| - m, 0);
  }

  /** Two texts of one length that differ at one place. */
  predicate OneOctetApart(a: seq<byte>, b: seq<byte>) {
    |a| == |b| && exists i :: 0 <= i < |a| && a[i] != b[i] && a[..i] == b[..i] && a[i + 1..] == b[i + 1..]
  }

  /** Texts that agree up to `m`, and in the number that `m` to `n` make, agree up to `n`. */
  lemma AgreeOn(h: seq<byte>, k: seq<byte>, m: nat, n: nat)
    requires m <= n <= |h| == |k| && h[..m] == k[..m] && FromBE(h[m..n]) == FromBE(k[m..n])
    ensures h[..n] == k[..n]
  {
    hide FromBE;
    FromBEInjective(h[m..n], k[m..n]);
    assert h[..n] == h[..m] + h[m..n];
    assert k[..n] == k[..m] + k[m..n];
  }

  lemma AgreeOnZeros(h: seq<byte>, k: seq<byte>, m: nat, n: nat)
    requires m <= n <= |h| == |k| && h[..m] == k[..m] && forall i :: m <= i < n ==> h[i] == 0 && k[i] == 0
    ensures h[..n] == k[..n]
  {
    assert h[..n] == h[..m] + h[m..n];
    assert k[..n] == k[..m] + k[m..n];
  }
}
