/** The 64-bit FNV-1a hash used for definition and command fingerprints. */
module Fnv {
  import opened Octets

  const FNV_OFFSET: u64 := 14695981039346656037
  const FNV_PRIME: u64 := 1099511628211

  function Hash(h: u64, bytes: seq<byte>): u64 {
    if bytes == [] then h
    else (Xor64(Hash(h, bytes[..|bytes| - 1]), bytes[|bytes| - 1]) * FNV_PRIME) % U64_LIMIT
  }

  method HashBytes(h: u64, bytes: seq<byte>) returns (r: u64)
    ensures r == Hash(h, bytes)
  {
    r := h;
    for i := 0 to |bytes|
      invariant r == Hash(h, bytes[..i])
    {
      assert bytes[..i + 1][..i] == bytes[..i];
      r := (Xor64(r, bytes[i]) * FNV_PRIME) % U64_LIMIT;
    }
    assert bytes[..|bytes|] == bytes;
  }

  // ----- What the hash tells apart

  /** FNV_PRIME * INVERSE is one more than CARRY times 2^64, so no information is lost in a multiplication. */
  const INVERSE: nat := 14886173955864302971
  const CARRY: nat := 887285111055

  lemma MultipleOfLimit(d: nat, t: nat)
    requires d < U64_LIMIT && d * FNV_PRIME == t * U64_LIMIT
    ensures d == 0
  {
    assert FNV_PRIME * INVERSE == CARRY * U64_LIMIT + 1;
    var k := t * INVERSE - d * CARRY;
    calc {
      d;
      d * (FNV_PRIME * INVERSE) - d * (CARRY * U64_LIMIT);
      { assert d * (FNV_PRIME * INVERSE) == d * FNV_PRIME * INVERSE; }
      t * U64_LIMIT * INVERSE - d * (CARRY * U64_LIMIT);
      { assert t * U64_LIMIT * INVERSE == t * INVERSE * U64_LIMIT && d * (CARRY * U64_LIMIT) == d * CARRY * U64_LIMIT; }
      k * U64_LIMIT;
    }
  }

  lemma ProductTellsApart(a: u64, b: u64)
    requires a * FNV_PRIME % U64_LIMIT == b * FNV_PRIME % U64_LIMIT
    ensures a == b
  {
    var x, y := a * FNV_PRIME, b * FNV_PRIME;
    assert x == x / U64_LIMIT * U64_LIMIT + x % U64_LIMIT && y == y / U64_LIMIT * U64_LIMIT + y % U64_LIMIT;
    if a >= b {
      assert (a - b) * FNV_PRIME == (x / U64_LIMIT - y / U64_LIMIT) * U64_LIMIT;
      MultipleOfLimit(a - b, x / U64_LIMIT - y / U64_LIMIT);
    } else {
      assert (b - a) * FNV_PRIME == (y / U64_LIMIT - x / U64_LIMIT) * U64_LIMIT;
      MultipleOfLimit(b - a, y / U64_LIMIT - x / U64_LIMIT);
    }
  }

  lemma {:induction false} XorCancels(a: nat, b: nat)
    ensures Xor(Xor(a, b), b) == a && Xor(a, Xor(a, b)) == b
  {
    hide Xor;
    if a == 0 && b == 0 {
      NothingXored();
    } else {
      XorCancels(a / 2, b / 2);
      var x := Xor(a, b);
      XorHalves(a, b);
      assert x / 2 == Xor(a / 2, b / 2) && (x % 2 == 0 <==> a % 2 == b % 2);
      XorHalves(x, b);
      XorHalves(a, x);
    }
  }

  /** One octet more: different states, or different octets, stay different. */
  lemma StepTellsApart(g: u64, h: u64, x: byte, y: byte)
    requires Xor64(g, x) * FNV_PRIME % U64_LIMIT == Xor64(h, y) * FNV_PRIME % U64_LIMIT
    ensures g == h <==> x == y
  {
    hide Xor;
    ProductTellsApart(Xor64(g, x), Xor64(h, y));
    XorCancels(g, x);
    XorCancels(h, y);
  }

  lemma {:induction false} HashAppend(h: u64, a: seq<byte>, b: seq<byte>)
    ensures Hash(h, a + b) == Hash(Hash(h, a), b)
  {
    if b == [] {
      assert a + b == a;
    } else {
      hide Xor64;
      HashAppend(h, a, b[..|b| - 1]);
      assert (a + b)[..|a + b| - 1] == a + b[..|b| - 1];
    }
  }

  lemma {:induction false} SameTailTellsApart(g: u64, h: u64, bytes: seq<byte>)
    requires Hash(g, bytes) == Hash(h, bytes)
    ensures g == h
  {
    hide Xor64;
    if bytes != [] {
      var k := |bytes| - 1;
      StepTellsApart(Hash(g, bytes[..k]), Hash(h, bytes[..k]), bytes[k], bytes[k]);
      SameTailTellsApart(g, h, bytes[..k]);
    }
  }

  /** Such texts never have the same hash. */
  lemma OneOctetTellsApart(h: u64, a: seq<byte>, b: seq<byte>)
    requires OneOctetApart(a, b)
    ensures Hash(h, a) != Hash(h, b)
  {
    hide Hash, Xor64;
    var i :| 0 <= i < |a| && a[i] != b[i] && a[..i] == b[..i] && a[i + 1..] == b[i + 1..];
    assert a == a[..i + 1] + a[i + 1..] && b == b[..i + 1] + a[i + 1..];
    HashAppend(h, a[..i + 1], a[i + 1..]);
    HashAppend(h, b[..i + 1], a[i + 1..]);
    if Hash(h, b) == Hash(h, a) {
      SameTailTellsApart(Hash(h, a[..i + 1]), Hash(h, b[..i + 1]), a[i + 1..]);
      LastOctet(h, a, i);
      LastOctet(h, b, i);
      StepTellsApart(Hash(h, a[..i]), Hash(h, b[..i]), a[i], b[i]);
    }
  }

  lemma LastOctet(h: u64, a: seq<byte>, i: nat)
    requires i < |a|
    ensures Hash(h, a[..i + 1]) == Xor64(Hash(h, a[..i]), a[i]) * FNV_PRIME % U64_LIMIT
  {
    assert a[..i + 1][..i] == a[..i];
  }

  // ----- What it does not tell apart

  lemma {:induction false} XorSplit(n: nat, q: nat, r: nat, b: nat)
    requires r < Pow2(n) && b < Pow2(n)
    ensures Xor(q * Pow2(n) + r, b) == q * Pow2(n) + Xor(r, b)
  {
    var a := q * Pow2(n) + r;
    if n == 0 {
      assert Xor(0, 0) == 0 && Xor(a / 2, 0) == a / 2 by { XorZero(a / 2); }
      XorZero(a);
    } else {
      var p := q * Pow2(n - 1);
      assert a == 2 * p + r;
      assert a / 2 == p + r / 2 && a % 2 == r % 2;
      XorSplit(n - 1, q, r / 2, b / 2);
    }
  }

  lemma {:induction false} XorZero(a: nat)
    ensures Xor(a, 0) == a
  {
    if a != 0 {
      XorZero(a / 2);
    }
  }

  lemma XorHalves(a: nat, b: nat)
    ensures Xor(a, b) == 2 * Xor(a / 2, b / 2) + if a % 2 == b % 2 then 0 else 1
  {
    assert Xor(0, 0) == 0;
  }

  /** Bit by bit, the lowest first. */
  lemma XorBit(a: nat, b: nat, x: nat)
    requires Xor(a / 2, b / 2) == x / 2 && (x % 2 == 0 <==> a % 2 == b % 2)
    ensures Xor(a, b) == x
  {
    hide Xor;
    XorHalves(a, b);
    assert x == 2 * (x / 2) + x % 2;
  }

  /** The low four bits of `x` say where those of `a` and `b` differ. */
  predicate LowBits(a: nat, b: nat, x: nat) {
    && (x % 2 == 0 <==> a % 2 == b % 2)
    && (x / 2 % 2 == 0 <==> a / 2 % 2 == b / 2 % 2)
    && (x / 4 % 2 == 0 <==> a / 4 % 2 == b / 4 % 2)
    && (x / 8 % 2 == 0 <==> a / 8 % 2 == b / 8 % 2)
  }

  predicate HighBits(a: nat, b: nat, x: nat) {
    && (x / 16 % 2 == 0 <==> a / 16 % 2 == b / 16 % 2)
    && (x / 32 % 2 == 0 <==> a / 32 % 2 == b / 32 % 2)
    && (x / 64 % 2 == 0 <==> a / 64 % 2 == b / 64 % 2)
    && (x / 128 % 2 == 0 <==> a / 128 % 2 == b / 128 % 2)
  }

  lemma Halves(a: nat)
    ensures a / 2 / 2 == a / 4 && a / 4 / 2 == a / 8 && a / 8 / 2 == a / 16
  {
  }

  lemma Sixteenths(a: byte)
    ensures a / 16 / 2 == a / 32 && a / 16 / 4 == a / 64 && a / 16 / 8 == a / 128 && a / 16 / 16 == 0
  {
  }

  lemma XorLow(a: nat, b: nat, x: nat)
    requires LowBits(a, b, x) && Xor(a / 16, b / 16) == x / 16
    ensures Xor(a, b) == x
  {
    hide Xor;
    Halves(a);
    Halves(b);
    Halves(x);
    XorBit(a / 8, b / 8, x / 8);
    XorBit(a / 4, b / 4, x / 4);
    XorBit(a / 2, b / 2, x / 2);
    XorBit(a, b, x);
  }

  lemma XorOctet(a: byte, b: byte, x: byte)
    requires LowBits(a, b, x) && HighBits(a, b, x)
    ensures Xor(a, b) == x
  {
    hide Xor;
    NothingXored();
    Sixteenths(a);
    Sixteenths(b);
    Sixteenths(x);
    XorLow(a / 16, b / 16, x / 16);
    XorLow(a, b, x);
  }

  lemma NothingXored()
    ensures Xor(0, 0) == 0
  {
  }

  /** One octet further: the exclusive or of the low octet, the product and its carry worked out beforehand. */
  lemma Hashed(text: seq<byte>, i: nat, h: u64, low: byte, carry: nat, h': u64)
    requires i < |text| && Hash(FNV_OFFSET, text[..i]) == h && Xor(h % 256, text[i]) == low
    requires (h / 256 * 256 + low) * FNV_PRIME == carry * U64_LIMIT + h'
    ensures Hash(FNV_OFFSET, text[..i + 1]) == h'
  {
    hide Xor, Hash;
    assert Pow2(8) == 256;
    XorSplit(8, h / 256, h % 256, text[i]);
    LastOctet(FNV_OFFSET, text, i);
    Remainder((h / 256 * 256 + low) * FNV_PRIME, U64_LIMIT, carry, h');
  }

  /** Two texts of one length with the same hash. */
  predicate Collide(a: seq<byte>, b: seq<byte>) {
    |a| == |b| && a != b && Hash(FNV_OFFSET, a) == Hash(FNV_OFFSET, b)
  }

  const FIRST_TEXT: seq<byte> := [55, 109, 111, 104, 116, 99, 79, 70, 86, 122]  // '7mohtcOFVz'
  const SECOND_TEXT: seq<byte> := [99, 49, 69, 53, 49, 115, 83, 69, 121, 120]  // 'c1E51sSEyx'
  const COMMON_HASH: u64 := 1750456160711431074

  lemma FirstTextHalfway()
    ensures Hash(FNV_OFFSET, FIRST_TEXT[..5]) == 13866281977647530134
  {
    hide Hash, Xor64, Xor;
    NothingHashed(FNV_OFFSET, FIRST_TEXT);
    XorOctet(37, 55, 18);
    Hashed(FIRST_TEXT, 0, 14695981039346656037, 18, 875948729822, 12638132224974231446);
    XorOctet(150, 109, 251);
    Hashed(FIRST_TEXT, 1, 12638132224974231446, 251, 753291382192, 572620191284150145);
    XorOctet(129, 111, 238);
    Hashed(FIRST_TEXT, 2, 572620191284150145, 238, 34130823106, 3895785304836776298);
    XorOctet(106, 104, 2);
    Hashed(FIRST_TEXT, 3, 3895785304836776298, 2, 232206899307, 15697928596512478822);
    XorOctet(102, 116, 18);
    Hashed(FIRST_TEXT, 4, 15697928596512478822, 18, 935669458074, 13866281977647530134);
  }

  lemma FirstTextHashes()
    ensures Hash(FNV_OFFSET, FIRST_TEXT) == COMMON_HASH
  {
    hide Hash, Xor64, Xor;
    FirstTextHalfway();
    XorOctet(150, 99, 245);
    Hashed(FIRST_TEXT, 5, 13866281977647530134, 245, 826494811960, 1260827028797562959);
    XorOctet(79, 79, 0);
    Hashed(FIRST_TEXT, 6, 1260827028797562959, 0, 75151147204, 7784607862602326016);
    XorOctet(0, 70, 70);
    Hashed(FIRST_TEXT, 7, 7784607862602326016, 70, 463998786549, 12847167518936798962);
    XorOctet(242, 86, 164);
    Hashed(FIRST_TEXT, 8, 12847167518936798962, 164, 765750856639, 2187208122500937900);
    XorOctet(172, 122, 214);
    Hashed(FIRST_TEXT, 9, 2187208122500937900, 214, 130367763243, 1750456160711431074);
    assert FIRST_TEXT[..10] == FIRST_TEXT;
  }

  lemma SecondTextHalfway()
    ensures Hash(FNV_OFFSET, SECOND_TEXT[..5]) == 1732743233326871878
  {
    hide Hash, Xor64, Xor;
    NothingHashed(FNV_OFFSET, SECOND_TEXT);
    XorOctet(37, 99, 70);
    Hashed(SECOND_TEXT, 0, 14695981039346656037, 70, 875948729822, 12638189399578898418);
    XorOctet(242, 49, 195);
    Hashed(SECOND_TEXT, 1, 12638189399578898418, 195, 753294790064, 622199369613600857);
    XorOctet(89, 69, 28);
    Hashed(SECOND_TEXT, 2, 622199369613600857, 28, 37085972419, 17763874892692776852);
    XorOctet(148, 53, 161);
    Hashed(SECOND_TEXT, 3, 17763874892692776852, 161, 1058809453232, 6091344522220115603);
    XorOctet(147, 49, 162);
    Hashed(SECOND_TEXT, 4, 6091344522220115603, 162, 363072426595, 1732743233326871878);
  }

  lemma SecondTextHashes()
    ensures Hash(FNV_OFFSET, SECOND_TEXT) == COMMON_HASH
  {
    hide Hash, Xor64, Xor;
    SecondTextHalfway();
    XorOctet(70, 115, 53);
    Hashed(SECOND_TEXT, 5, 1732743233326871878, 53, 103279544950, 4989808898452531471);
    XorOctet(15, 83, 92);
    Hashed(SECOND_TEXT, 6, 4989808898452531471, 92, 297415787007, 239808830595647316);
    XorOctet(84, 69, 17);
    Hashed(SECOND_TEXT, 7, 239808830595647316, 17, 14293720167, 5726027283246301667);
    XorOctet(227, 121, 154);
    Hashed(SECOND_TEXT, 8, 5726027283246301667, 154, 341297822327, 2187208122500937902);
    XorOctet(174, 120, 214);
    Hashed(SECOND_TEXT, 9, 2187208122500937902, 214, 130367763243, 1750456160711431074);
    assert SECOND_TEXT[..10] == SECOND_TEXT;
  }

  lemma NothingHashed(h: u64, text: seq<byte>)
    ensures Hash(h, text[..0]) == h
  {
  }

  /** Collisions exist among texts as short as ten octets. */
  lemma TextsCollide()
    ensures Collide(FIRST_TEXT, SECOND_TEXT)
  {
    hide Hash;
    FirstTextHashes();
    SecondTextHashes();
    assert FIRST_TEXT[0] != SECOND_TEXT[0];
  }

  /** Texts of at most one octet never collide. */
  lemma ShortTextsDoNotCollide(a: seq<byte>, b: seq<byte>)
    requires |a| == |b| <= 1
    ensures !Collide(a, b)
  {
    hide Hash;
    if |a| == 1 && a != b {
      assert a[0] != b[0] && |a[..0]| == 0 && |b[..0]| == 0 && |a[1..]| == 0 && |b[1..]| == 0;
      OneOctetTellsApart(FNV_OFFSET, a, b);
    }
  }
}
