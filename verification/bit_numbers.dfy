/** The numbers that bit vectors stand for. */
module BitNumbers {

  function Bit(x: bv32, mask: bv32): (n: nat)
    ensures n < 2
  {
    if x & mask != 0 then 1 else 0
  }

  /** The number in the low eight bits. */
  function Octet(x: bv32): (n: nat)
    ensures n < 0x100
  {
    Bit(x, 1) + 2 * Bit(x, 2) + 4 * Bit(x, 4) + 8 * Bit(x, 8)
    + 16 * Bit(x, 16) + 32 * Bit(x, 32) + 64 * Bit(x, 64) + 128 * Bit(x, 128)
  }

  function Number(c: bv32): nat {
    Octet(c) + 0x100 * Octet(c >> 8) + 0x1_0000 * Octet(c >> 16) + 0x100_0000 * Octet(c >> 24)
  }

  lemma Sixteen(x: bv32)
    requires x <= 16
    ensures x & 32 == 0 && x & 64 == 0 && x & 128 == 0 && (x & 16 == 0 || x & 15 == 0)
  {
  }

  lemma LowBits(x: bv32)
    requires x & 15 == 0
    ensures x & 1 == 0 && x & 2 == 0 && x & 4 == 0 && x & 8 == 0
  {
  }

  lemma OctetAtMost(x: bv32)
    requires x <= 16
    ensures Octet(x) <= 16
  {
    Sixteen(x);
    if x & 15 == 0 {
      LowBits(x);
    }
  }

  lemma HighOctets(c: bv32)
    requires c <= 0x10_FFFF
    ensures c >> 16 <= 16 && c >> 24 == 0
  {
  }

  lemma InRange(c: bv32)
    requires c <= 0x10_FFFF
    ensures Number(c) <= 0x10_FFFF
  {
    hide Octet;
    HighOctets(c);
    OctetAtMost(c >> 16);
    Zero();
  }

  lemma Zero()
    ensures Octet(0) == 0
  {
  }

  lemma AllOnes()
    ensures Number(0xFFFF_FFFF) == 0xFFFF_FFFF
  {
  }

  // ---------- No two bit vectors stand for the same number ----------

  lemma OneBit(a: nat, r: nat, a': nat, r': nat)
    requires a < 2 && a' < 2 && a + 2 * r == a' + 2 * r'
    ensures a == a' && r == r'
  {
  }

  lemma SameBits(x: bv32, y: bv32)
    requires Octet(x) == Octet(y)
    ensures Bit(x, 1) == Bit(y, 1) && Bit(x, 2) == Bit(y, 2) && Bit(x, 4) == Bit(y, 4) && Bit(x, 8) == Bit(y, 8)
    ensures Bit(x, 16) == Bit(y, 16) && Bit(x, 32) == Bit(y, 32) && Bit(x, 64) == Bit(y, 64) && Bit(x, 128) == Bit(y, 128)
  {
    hide Bit;
    OneBit(Bit(x, 1), From2(x), Bit(y, 1), From2(y));
    OneBit(Bit(x, 2), From4(x), Bit(y, 2), From4(y));
    OneBit(Bit(x, 4), From8(x), Bit(y, 4), From8(y));
    OneBit(Bit(x, 8), From16(x), Bit(y, 8), From16(y));
    OneBit(Bit(x, 16), From32(x), Bit(y, 16), From32(y));
    OneBit(Bit(x, 32), From64(x), Bit(y, 32), From64(y));
    OneBit(Bit(x, 64), Bit(x, 128), Bit(y, 64), Bit(y, 128));
  }

  function From64(x: bv32): nat { Bit(x, 64) + 2 * Bit(x, 128) }
  function From32(x: bv32): nat { Bit(x, 32) + 2 * From64(x) }
  function From16(x: bv32): nat { Bit(x, 16) + 2 * From32(x) }
  function From8(x: bv32): nat { Bit(x, 8) + 2 * From16(x) }
  function From4(x: bv32): nat { Bit(x, 4) + 2 * From8(x) }
  function From2(x: bv32): nat { Bit(x, 2) + 2 * From4(x) }

  function Low(x: bv32): bv32 {
    x & 0xFF
  }

  lemma SameOctet(x: bv32, y: bv32)
    requires Octet(x) == Octet(y)
    ensures Low(x) == Low(y)
  {
    SameBits(x, y);
    hide Octet;
  }

  lemma FromOctets(c: bv32, d: bv32)
    requires Low(c) == Low(d) && Low(c >> 8) == Low(d >> 8) && Low(c >> 16) == Low(d >> 16) && Low(c >> 24) == Low(d >> 24)
    ensures c == d
  {
  }

  lemma OneOctet(a: nat, r: nat, a': nat, r': nat)
    requires a < 0x100 && a' < 0x100 && a + 0x100 * r == a' + 0x100 * r'
    ensures a == a' && r == r'
  {
  }

  lemma OctetsOf(c: bv32, d: bv32)
    requires Number(c) == Number(d)
    ensures Octet(c) == Octet(d) && Octet(c >> 8) == Octet(d >> 8)
    ensures Octet(c >> 16) == Octet(d >> 16) && Octet(c >> 24) == Octet(d >> 24)
  {
    hide Octet;
    var c3, d3 := Octet(c >> 24), Octet(d >> 24);
    var c2, d2 := Octet(c >> 16) + 0x100 * c3, Octet(d >> 16) + 0x100 * d3;
    OneOctet(Octet(c), Octet(c >> 8) + 0x100 * c2, Octet(d), Octet(d >> 8) + 0x100 * d2);
    OneOctet(Octet(c >> 8), c2, Octet(d >> 8), d2);
    OneOctet(Octet(c >> 16), c3, Octet(d >> 16), d3);
  }

  lemma SameNumber(c: bv32, d: bv32)
    requires Number(c) == Number(d)
    ensures c == d
  {
    hide *;
    OctetsOf(c, d);
    SameOctet(c, d);
    SameOctet(c >> 8, d >> 8);
    SameOctet(c >> 16, d >> 16);
    SameOctet(c >> 24, d >> 24);
    FromOctets(c, d);
  }
}
