/**
 CRC-32 as the checkpoint store computes it: a running register folded over the
 octets, so that a payload may be checked in chunks.
 */
module Crc {
  import opened Octets

  type Register = bv32

  const INITIAL_STATE: Register := 0xFFFF_FFFF
  const POLYNOMIAL: Register := 0xEDB8_8320

  function ShiftBit(state: Register): Register {
    if state & 1 == 1 then (state >> 1) ^ POLYNOMIAL else state >> 1
  }

  function ShiftBits(state: Register, n: nat): Register
    decreases n, state
  {
    if n == 0 then state else ShiftBit(ShiftBits(state, n - 1))
  }

  function Placed(bit: nat, weight: Register): Register {
    if bit % 2 == 1 then weight else 0
  }

  /** An octet as the low bits of a register. */
  function Word(b: byte): Register {
    Placed(b, 1) | Placed(b / 2, 2) | Placed(b / 4, 4) | Placed(b / 8, 8) |
    Placed(b / 16, 16) | Placed(b / 32, 32) | Placed(b / 64, 64) | Placed(b / 128, 128)
  }

  function Mixed(state: Register, word: Register): Register {
    state ^ word
  }

  function UpdateByte(state: Register, b: byte): Register {
    ShiftBits(Mixed(state, Word(b)), 8)
  }

  function Update(state: Register, bytes: seq<byte>): Register {
    if bytes == [] then state
    else UpdateByte(Update(state, bytes[..|bytes| - 1]), bytes[|bytes| - 1])
  }

  function Number(state: Register): u32 {
    state as int
  }

  function Finalize(state: Register): u32 {
    Number(Mixed(state, 0xFFFF_FFFF))
  }

  function Crc32(bytes: seq<byte>): u32 {
    Finalize(Update(INITIAL_STATE, bytes))
  }

  /** Folding chunk by chunk is folding the whole. */
  lemma {:induction false} UpdateAppend(state: Register, a: seq<byte>, b: seq<byte>)
    ensures Update(state, a + b) == Update(Update(state, a), b)
  {
    hide UpdateByte;
    if b == [] {
      assert a + b == a;
    } else {
      UpdateAppend(state, a, b[..|b| - 1]);
      assert (a + b)[..|a + b| - 1] == a + b[..|b| - 1];
    }
  }

  lemma UpdateNothing(state: Register)
    ensures Update(state, []) == state
  {
  }

  method UpdateChunk(state: Register, bytes: seq<byte>) returns (result: Register)
    ensures result == Update(state, bytes)
  {
    hide ShiftBit, Word, Mixed;
    result := state;
    for i := 0 to |bytes|
      invariant result == Update(state, bytes[..i])
    {
      ghost var before := result;
      result := Mixed(result, Word(bytes[i]));
      for bit := 0 to 8
        invariant result == ShiftBits(Mixed(before, Word(bytes[i])), bit)
      {
        result := ShiftBit(result);
      }
      assert bytes[..i + 1][..i] == bytes[..i];
    }
    assert bytes[..|bytes|] == bytes;
  }

  // ----- What the checksum tells apart

  /** The polynomial has the top bit, so an odd register and an even one part for good. */
  lemma ShiftBitTellsApart(g: Register, h: Register)
    requires ShiftBit(g) == ShiftBit(h)
    ensures g == h
  {
  }

  lemma {:induction false} ShiftBitsTellApart(g: Register, h: Register, n: nat)
    requires ShiftBits(g, n) == ShiftBits(h, n)
    ensures g == h
  {
    hide ShiftBit;
    if n != 0 {
      ShiftBitTellsApart(ShiftBits(g, n - 1), ShiftBits(h, n - 1));
      ShiftBitsTellApart(g, h, n - 1);
    }
  }

  lemma MixedTellsApart(p: Register, q: Register, r: Register)
    requires Mixed(p, r) == Mixed(q, r) || Mixed(r, p) == Mixed(r, q)
    ensures p == q
  {
  }

  /** An octet's word has its bits. */
  lemma WordBits(a0: nat, a1: nat, a2: nat, a3: nat, a4: nat, a5: nat, a6: nat, a7: nat)
    ensures var w := Placed(a0, 1) | Placed(a1, 2) | Placed(a2, 4) | Placed(a3, 8) |
                     Placed(a4, 16) | Placed(a5, 32) | Placed(a6, 64) | Placed(a7, 128);
      && (w & 1 == 1 <==> a0 % 2 == 1) && (w & 2 == 2 <==> a1 % 2 == 1)
      && (w & 4 == 4 <==> a2 % 2 == 1) && (w & 8 == 8 <==> a3 % 2 == 1)
      && (w & 16 == 16 <==> a4 % 2 == 1) && (w & 32 == 32 <==> a5 % 2 == 1)
      && (w & 64 == 64 <==> a6 % 2 == 1) && (w & 128 == 128 <==> a7 % 2 == 1)
  {
  }

  lemma WordTellsApart(x: byte, y: byte)
    requires Word(x) == Word(y)
    ensures x == y
  {
    hide Placed;
    WordBits(x, x / 2, x / 4, x / 8, x / 16, x / 32, x / 64, x / 128);
    WordBits(y, y / 2, y / 4, y / 8, y / 16, y / 32, y / 64, y / 128);
    SameOctet(x, y);
  }

  lemma SameOctet(x: byte, y: byte)
    requires x % 2 == y % 2 && x / 2 % 2 == y / 2 % 2 && x / 4 % 2 == y / 4 % 2 && x / 8 % 2 == y / 8 % 2
    requires x / 16 % 2 == y / 16 % 2 && x / 32 % 2 == y / 32 % 2 && x / 64 % 2 == y / 64 % 2
    requires x / 128 % 2 == y / 128 % 2
    ensures x == y
  {
    SameUpper(x, y);
    SameHalf(x, y, 8);
    SameHalf(x, y, 4);
    SameHalf(x, y, 2);
    SameHalf(x, y, 1);
  }

  lemma SameUpper(x: byte, y: byte)
    requires x / 16 % 2 == y / 16 % 2 && x / 32 % 2 == y / 32 % 2 && x / 64 % 2 == y / 64 % 2
    requires x / 128 % 2 == y / 128 % 2
    ensures x / 16 == y / 16
  {
    SameHalf(x, y, 64);
    SameHalf(x, y, 32);
    SameHalf(x, y, 16);
  }

  lemma SameHalf(x: byte, y: byte, weight: nat)
    requires weight in {1, 2, 4, 8, 16, 32, 64}
    requires x / (2 * weight) == y / (2 * weight) && x / weight % 2 == y / weight % 2
    ensures x / weight == y / weight
  {
    Half(x, weight);
    Half(y, weight);
  }

  lemma Half(x: byte, weight: nat)
    requires weight in {1, 2, 4, 8, 16, 32, 64}
    ensures x / weight == 2 * (x / (2 * weight)) + x / weight % 2
  {
  }

  lemma {:induction false} SameTailTellsApart(g: Register, h: Register, bytes: seq<byte>)
    requires Update(g, bytes) == Update(h, bytes)
    ensures g == h
  {
    hide Word, ShiftBits, Mixed;
    if bytes != [] {
      var k := |bytes| - 1;
      var g', h', w := Update(g, bytes[..k]), Update(h, bytes[..k]), Word(bytes[k]);
      ShiftBitsTellApart(Mixed(g', w), Mixed(h', w), 8);
      MixedTellsApart(g', h', w);
      SameTailTellsApart(g, h, bytes[..k]);
    }
  }

  lemma LastOctet(state: Register, a: seq<byte>, i: nat)
    requires i < |a|
    ensures Update(state, a[..i + 1]) == UpdateByte(Update(state, a[..i]), a[i])
  {
    hide UpdateByte;
    assert a[..i + 1][..i] == a[..i];
  }

  lemma OctetTellsApart(state: Register, x: byte, y: byte)
    requires UpdateByte(state, x) == UpdateByte(state, y)
    ensures x == y
  {
    hide Word, ShiftBits, Mixed;
    ShiftBitsTellApart(Mixed(state, Word(x)), Mixed(state, Word(y)), 8);
    MixedTellsApart(Word(x), Word(y), state);
    WordTellsApart(x, y);
  }

  lemma NumberTellsApart(g: Register, h: Register)
    requires Number(g) == Number(h)
    ensures g == h
  {
    assert (g as int) as bv32 == g;
    assert (h as int) as bv32 == h;
  }

  lemma FinalTellsApart(g: Register, h: Register)
    requires Finalize(g) == Finalize(h)
    ensures g == h
  {
    hide Number, Mixed;
    NumberTellsApart(Mixed(g, 0xFFFF_FFFF), Mixed(h, 0xFFFF_FFFF));
    MixedTellsApart(g, h, 0xFFFF_FFFF);
  }

  /** Texts that differ in one octet never have the same checksum. */
  lemma OneOctetTellsApart(a: seq<byte>, b: seq<byte>)
    requires OneOctetApart(a, b)
    ensures Crc32(a) != Crc32(b)
  {
    hide Update, UpdateByte, Finalize;
    var state := INITIAL_STATE;
    var i :| 0 <= i < |a| && a[i] != b[i] && a[..i] == b[..i] && a[i + 1..] == b[i + 1..];
    assert a == a[..i + 1] + a[i + 1..] && b == b[..i + 1] + a[i + 1..];
    UpdateAppend(state, a[..i + 1], a[i + 1..]);
    UpdateAppend(state, b[..i + 1], a[i + 1..]);
    if Crc32(a) == Crc32(b) {
      FinalTellsApart(Update(state, a), Update(state, b));
      SameTailTellsApart(Update(state, a[..i + 1]), Update(state, b[..i + 1]), a[i + 1..]);
      LastOctet(state, a, i);
      LastOctet(state, b, i);
      OctetTellsApart(Update(state, a[..i]), a[i], b[i]);
    }
  }

  // ----- The check value

  const CHECK_TEXT: seq<byte> := [0x31, 0x32, 0x33, 0x34, 0x35, 0x36, 0x37, 0x38, 0x39]  // '123456789'

  lemma EightShifts(w: Register)
    ensures ShiftBits(w, 8) == ShiftBit(ShiftBit(ShiftBit(ShiftBit(ShiftBit(ShiftBit(ShiftBit(ShiftBit(w))))))))
  {
    hide ShiftBit;
    FourShifts(w, 0);
    FourShifts(w, 4);
    assert ShiftBits(w, 0) == w;
  }

  lemma FourShifts(w: Register, n: nat)
    ensures ShiftBits(w, n + 4) == ShiftBit(ShiftBit(ShiftBit(ShiftBit(ShiftBits(w, n)))))
  {
    hide ShiftBit;
    assert ShiftBits(w, n + 2) == ShiftBit(ShiftBits(w, n + 1));
  }

  /** One digit further. */
  lemma Further(i: nat, r: Register, mixed: Register, r': Register)
    requires i < |CHECK_TEXT| && Update(INITIAL_STATE, CHECK_TEXT[..i]) == r && mixed == Mixed(r, Word(CHECK_TEXT[i]))
    requires ShiftBit(ShiftBit(ShiftBit(ShiftBit(ShiftBit(ShiftBit(ShiftBit(ShiftBit(mixed)))))))) == r'
    ensures Update(INITIAL_STATE, CHECK_TEXT[..i + 1]) == r'
  {
    hide Update, Word, ShiftBit, ShiftBits, Mixed;
    LastOctet(INITIAL_STATE, CHECK_TEXT, i);
    EightShifts(mixed);
  }

  lemma FirstDigits()
    ensures Update(INITIAL_STATE, CHECK_TEXT[..3]) == 0x77B7_9C2D
  {
    hide Update, ShiftBits;
    assert CHECK_TEXT[..0] == [];
    UpdateNothing(INITIAL_STATE);
    Further(0, 0xFFFF_FFFF, 0xFFFF_FFCE, 0x7C23_1048);
    Further(1, 0x7C23_1048, 0x7C23_107A, 0xB0AC_BB32);
    Further(2, 0xB0AC_BB32, 0xB0AC_BB01, 0x77B7_9C2D);
  }

  lemma MiddleDigits()
    requires Update(INITIAL_STATE, CHECK_TEXT[..3]) == 0x77B7_9C2D
    ensures Update(INITIAL_STATE, CHECK_TEXT[..6]) == 0xF68D_2C9E
  {
    hide Update, ShiftBits;
    Further(3, 0x77B7_9C2D, 0x77B7_9C19, 0x641C_1F5C);
    Further(4, 0x641C_1F5C, 0x641C_1F69, 0x340A_C5E3);
    Further(5, 0x340A_C5E3, 0x340A_C5D5, 0xF68D_2C9E);
  }

  lemma LastDigits()
    requires Update(INITIAL_STATE, CHECK_TEXT[..6]) == 0xF68D_2C9E
    ensures Update(INITIAL_STATE, CHECK_TEXT[..9]) == 0x340B_C6D9
  {
    hide Update, ShiftBits;
    Further(6, 0xF68D_2C9E, 0xF68D_2CA9, 0xAFFC_9660);
    Further(7, 0xAFFC_9660, 0xAFFC_9658, 0x651F_2550);
    Further(8, 0x651F_2550, 0x651F_2569, 0x340B_C6D9);
  }

  /** The checksum that every CRC-32 of this polynomial gives the nine digits. */
  lemma CheckValue()
    ensures Crc32(CHECK_TEXT) == 0xCBF4_3926
  {
    hide Update;
    FirstDigits();
    MiddleDigits();
    LastDigits();
    assert CHECK_TEXT[..9] == CHECK_TEXT;
  }
}
