/** Numbers as a fixed count of bytes, the lowest first. */
module LittleEndian {
  import opened Division

  type Byte = x: int | 0 <= x < 0x100

  type Bytes = seq<Byte>

  /** The n lowest bytes of v. */
  function Fixed(v: nat, n: nat): (b: Bytes)
    ensures |b| == n
  {
    if n == 0 then [] else [v % 0x100] + Fixed(v / 0x100, n - 1)
  }

  function UnFixed(b: Bytes): nat {
    if b == [] then 0 else b[0] + 0x100 * UnFixed(b[1..])
  }

  /** What n bytes can hold. */
  function ByteLimit(n: nat): (p: nat)
    ensures p > 0
  {
    if n == 0 then 1 else 0x100 * ByteLimit(n - 1)
  }

  lemma ByteLimits()
    ensures ByteLimit(4) == 0x1_0000_0000 && ByteLimit(8) == 0x1_0000_0000_0000_0000
  {
    assert ByteLimit(2) == 0x1_0000;
    assert ByteLimit(6) == 0x1_0000_0000_0000;
  }

  lemma {:induction false} UnFixedInverse(v: nat, n: nat)
    requires v < ByteLimit(n)
    ensures UnFixed(Fixed(v, n)) == v
  {
    if n > 0 {
      UnFixedInverse(v / 0x100, n - 1);
      assert Fixed(v, n)[1..] == Fixed(v / 0x100, n - 1);
    }
  }

  lemma {:induction false} FixedInverse(b: Bytes)
    ensures UnFixed(b) < ByteLimit(|b|) && Fixed(UnFixed(b), |b|) == b
  {
    if b != [] {
      FixedInverse(b[1..]);
      assert UnFixed(b) % 0x100 == b[0] && UnFixed(b) / 0x100 == UnFixed(b[1..]);
    }
  }

  /** Byte i is digit i to the base 256. */
  lemma {:induction false} FixedDigits(v: nat, n: nat, i: nat)
    requires i < n
    ensures ByteLimit(i) > 0 && Fixed(v, n)[i] == v / ByteLimit(i) % 0x100
  {
    if i > 0 {
      FixedDigits(v / 0x100, n - 1, i - 1);
      DivideAgain(v, 0x100, ByteLimit(i - 1));
    }
  }
}
