/** nanopb's wire format: varints, zig-zag and fixed-size numbers, tags, and skipping a
    field, as functions on byte sequences. */
module NanopbWire {
  import opened Wrappers
  import opened LittleEndian

  /** What reading from a stream yields: a value and the bytes that are left. */
  datatype Read<T> = Fail | Got(value: T, rest: Bytes)

  const U32: nat := 0x1_0000_0000
  const U64: nat := 0x1_0000_0000_0000_0000
  const I64: int := 0x8000_0000_0000_0000

  /** rest is what b ends with, and something was read. */
  predicate Shorter(rest: Bytes, b: Bytes) {
    |rest| < |b| && rest == b[|b| - |rest|..]
  }

  lemma Regroup(a: Bytes, b: Bytes, c: Bytes)
    ensures a + b + c == a + (b + c)
  {
  }

  // ---------- Varints ----------

  /** pb_encode_varint: seven bits a byte, the lowest first. */
  function Varint(v: nat): (b: Bytes)
    ensures |b| >= 1
  {
    if v < 0x80 then [v] else [v % 0x80 + 0x80] + Varint(v / 0x80)
  }

  /** pb_decode_varint, k bytes in: the bits from there on, without the cut to 64. */
  function VarintFrom(b: Bytes, k: nat): (r: Read<nat>)
    ensures r.Got? ==> Shorter(r.rest, b)
    decreases |b|
  {
    if k >= 10 || b == [] then Fail  // bitpos 7 * k has passed 64
    else if b[0] < 0x80 then Got(b[0], b[1..])
    else
      match VarintFrom(b[1..], k + 1)
      case Fail => Fail
      case Got(v, rest) => Got(b[0] - 0x80 + 0x80 * v, rest)
  }

  function ReadVarint(b: Bytes): (r: Read<nat>)
    ensures r.Got? ==> r.value < U64 && Shorter(r.rest, b)
  {
    match VarintFrom(b, 0)
    case Fail => Fail
    case Got(v, rest) => Got(v % U64, rest)
  }

  /** What n bytes of a varint can hold. */
  function Limit(n: nat): nat {
    if n == 0 then 1 else 0x80 * Limit(n - 1)
  }

  lemma Limits()
    ensures Limit(1) == 0x80 && Limit(2) == 0x4000 && Limit(3) == 0x20_0000 && Limit(4) == 0x1000_0000
    ensures U32 <= Limit(5) && U64 <= Limit(10)
  {
    assert Limit(5) == 0x8_0000_0000;
    assert Limit(7) == 0x2_0000_0000_0000;
    assert Limit(9) == 0x8000_0000_0000_0000;
  }

  lemma {:induction false} VarintLength(v: nat, n: nat)
    requires n > 0 && v < Limit(n)
    ensures |Varint(v)| <= n
    decreases n
  {
    if v >= 0x80 {
      assert n > 1;
      VarintLength(v / 0x80, n - 1);
    }
  }

  lemma {:induction false} VarintFromInverse(v: nat, k: nat, rest: Bytes)
    requires k + |Varint(v)| <= 10
    ensures VarintFrom(Varint(v) + rest, k) == Got(v, rest)
    decreases v
  {
    var b := Varint(v) + rest;
    if v >= 0x80 {
      var w := v / 0x80;
      VarintFromInverse(w, k + 1, rest);
      assert b[1..] == Varint(w) + rest && b[0] == v % 0x80 + 0x80;
      assert VarintFrom(b, k) == Got(v % 0x80 + 0x80 * w, rest);
    } else {
      assert b[1..] == rest;
    }
  }

  /** Every 64-bit number is read back, from the one to ten bytes written and no more. */
  lemma VarintRoundTrip(v: nat, rest: Bytes)
    requires v < U64
    ensures 1 <= |Varint(v)| <= 10
    ensures ReadVarint(Varint(v) + rest) == Got(v, rest)
  {
    hide *;
    Limits();
    VarintLength(v, 10);
    VarintFromInverse(v, 0, rest);
    NoCut(Varint(v) + rest, v, rest);
  }

  lemma NoCut(b: Bytes, v: nat, rest: Bytes)
    requires VarintFrom(b, 0) == Got(v, rest) && v < U64
    ensures ReadVarint(b) == Got(v, rest)
  {
    hide VarintFrom;
  }

  // ---------- Zig-zag ----------

  /** The argument of pb_encode_varint in pb_encode_svarint. */
  function ZigZag(v: int): (u: nat)
    requires -I64 <= v < I64
    ensures u < U64
    ensures u == if v < 0 then -2 * v - 1 else 2 * v
  {
    var shifted := (v % U64) * 2 % U64;  // (uint64_t)value << 1
    if v < 0 then U64 - 1 - shifted else shifted
  }

  /** The result of pb_decode_svarint. */
  function UnZigZag(u: nat): (v: int)
    requires u < U64
    ensures -I64 <= v < I64
    ensures v == if u % 2 == 1 then -(u / 2) - 1 else u / 2
  {
    var half := u / 2;
    var bits := if u % 2 == 1 then U64 - 1 - half else half;
    if bits < I64 then bits else bits - U64
  }

  lemma ZigZagInverse(v: int, u: nat)
    requires -I64 <= v < I64 && u < U64
    ensures UnZigZag(ZigZag(v)) == v && ZigZag(UnZigZag(u)) == u
  {
  }

  // ---------- 32-bit varints ----------

  /** x << n */
  function Shl(x: nat, n: nat): nat {
    if n == 0 then x else 2 * Shl(x, n - 1)
  }

  /** The bitwise or of two numbers. */
  function Or(a: nat, b: nat): (r: nat)
    decreases a + b
  {
    if a == 0 then b else if b == 0 then a
    else 2 * Or(a / 2, b / 2) + if a % 2 == 1 || b % 2 == 1 then 1 else 0
  }

  lemma {:induction false} OrBelow(a: nat, b: nat, n: nat)
    requires a < Shl(1, n) && b < Shl(1, n)
    ensures Or(a, b) < Shl(1, n)
  {
    if n > 0 {
      OrBelow(a / 2, b / 2, n - 1);
    }
  }

  /** Bits that the first number does not reach are added. */
  lemma {:induction false} OrAdds(a: nat, x: nat, n: nat)
    requires a < Shl(1, n)
    ensures Or(a, Shl(x, n)) == a + Shl(x, n)
  {
    if n > 0 {
      OrAdds(a / 2, x, n - 1);
    }
  }

  lemma Shl32()
    ensures Shl(1, 7) == 0x80 && Shl(1, 14) == 0x4000 && Shl(1, 21) == 0x20_0000 && Shl(1, 28) == 0x1000_0000
    ensures Shl(1, 32) == U32
  {
    assert Shl(1, 4) == 16;
    assert Shl(1, 10) == 0x400;
    assert Shl(1, 17) == 0x2_0000;
    assert Shl(1, 24) == 0x100_0000;
  }

  /** The 32-bit result with the bits of x put in at bitpos. */
  function OrShifted(result: nat, x: nat, bitpos: nat): (r: nat)
    requires result < U32
    ensures r < U32
  {
    Shl32();
    OrBelow(result, Shl(x, bitpos) % U32, 32);
    Or(result, Shl(x, bitpos) % U32)
  }

  /** The loop of pb_decode_varint32_eof, bitpos being a uint_fast8_t of eight bits. */
  function Varint32From(b: Bytes, bitpos: nat, result: nat): (r: Read<nat>)
    requires bitpos < 256 && result < U32
    ensures r.Got? ==> r.value < U32 && Shorter(r.rest, b)
    decreases |b|
  {
    if b == [] then Fail
    else
      var signExtension := if bitpos < 63 then 0xFF else 0x01;
      if bitpos >= 32 && b[0] % 0x80 != 0 && (result < 0x8000_0000 || b[0] != signExtension) then Fail
      else
        var result' := if bitpos >= 32 then result else OrShifted(result, b[0] % 0x80, bitpos);
        var bitpos' := (bitpos + 7) % 256;
        if b[0] >= 0x80 then Varint32From(b[1..], bitpos', result')
        else if bitpos' == 35 && b[0] / 16 % 8 != 0 then Fail
        else Got(result', b[1..])
  }

  /** pb_decode_varint32 */
  function ReadVarint32(b: Bytes): (r: Read<nat>)
    ensures r.Got? ==> r.value < U32 && Shorter(r.rest, b)
  {
    if b == [] then Fail
    else if b[0] < 0x80 then Got(b[0], b[1..])
    else Varint32From(b[1..], 7, b[0] % 0x80)
  }

  lemma {:induction false} ShlAdds(a: nat, b: nat, n: nat)
    ensures Shl(a + b, n) == Shl(a, n) + Shl(b, n)
  {
    if n > 0 {
      ShlAdds(a, b, n - 1);
    }
  }

  lemma {:induction false} ShlDouble(x: nat, n: nat)
    ensures Shl(2 * x, n) == Shl(x, n + 1)
  {
    if n > 0 {
      ShlDouble(x, n - 1);
    }
  }

  lemma ShlSeven(x: nat, n: nat)
    ensures Shl(0x80 * x, n) == Shl(x, n + 7)
  {
    ShlDouble(64 * x, n);
    ShlDouble(32 * x, n + 1);
    ShlDouble(16 * x, n + 2);
    ShlDouble(8 * x, n + 3);
    ShlDouble(4 * x, n + 4);
    ShlDouble(2 * x, n + 5);
    ShlDouble(x, n + 6);
  }

  lemma VarintHead(v: nat, rest: Bytes)
    ensures var b := Varint(v) + rest;
            if v < 0x80 then b[0] == v && b[1..] == rest
            else b[0] == v % 0x80 + 0x80 && b[1..] == Varint(v / 0x80) + rest
  {
    assert Varint(v) == if v < 0x80 then [v] else [v % 0x80 + 0x80] + Varint(v / 0x80);
    hide Varint;
    var b := Varint(v) + rest;
    if v < 0x80 {
      assert b[1..] == rest;
    } else {
      assert b[1..] == Varint(v / 0x80) + rest;
    }
  }

  /** The low bits of a number shifted to bitpos are added to the result. */
  lemma OrLow(r: nat, x: nat, n: nat)
    requires n <= 4 && r < Shl(1, 7 * n) && r < U32 && Shl(x, 7 * n) < U32
    ensures OrShifted(r, x, 7 * n) == r + Shl(x, 7 * n)
  {
    OrAdds(r, x, 7 * n);
  }

  /** One byte that is not the last. */
  lemma Varint32Step(v: nat, n: nat, r: nat, rest: Bytes)
    requires 1 <= n <= 4 && v >= 0x80 && r < U32
    ensures Varint32From(Varint(v) + rest, 7 * n, r)
         == Varint32From(Varint(v / 0x80) + rest, 7 * (n + 1), OrShifted(r, v % 0x80, 7 * n))
  {
    hide Varint, OrShifted;
    VarintHead(v, rest);
  }

  lemma ShlBounds(v: nat, n: nat)
    requires 1 <= n <= 4
    ensures n == 4 ==> Shl(v, 28) == 0x1000_0000 * v
    ensures v > 0 ==> Shl(v, 7 * n) >= Shl(1, 7 * n)
  {
    Shl32();
    if v > 0 {
      ShlAdds(1, v - 1, 7 * n);
    }
    ShlSeven(v, 0);
    ShlSeven(0x80 * v, 0);
    ShlSeven(v, 7);
    ShlSeven(v, 14);
    ShlSeven(0x80 * v, 14);
    ShlSeven(0x80 * v, 7);
    ShlSeven(0x4000 * v, 7);
    ShlSeven(0x4000 * v, 0);
    ShlSeven(0x20_0000 * v, 0);
    ShlSeven(v, 21);
    ShlSeven(0x80 * v, 21 - 7);
  }

  /** The lowest group and those above it. */
  lemma ShlSplit(v: nat, n: nat)
    ensures Shl(v, n) == Shl(v % 0x80, n) + Shl(v / 0x80, n + 7)
  {
    hide Shl;
    ShlAdds(v % 0x80, 0x80 * (v / 0x80), n);
    ShlSeven(v / 0x80, n);
  }

  /** The last byte. */
  lemma Varint32Last(v: nat, n: nat, r: nat, rest: Bytes)
    requires 1 <= n <= 4 && v < 0x80 && r < Shl(1, 7 * n) && r + Shl(v, 7 * n) < U32
    ensures Varint32From(Varint(v) + rest, 7 * n, r) == Got(r + Shl(v, 7 * n), rest)
  {
    hide Varint, Shl, OrShifted;
    OrLow(r, v, n);
    ShlBounds(v, n);
    VarintHead(v, rest);
  }

  /** From 2^28 on there is no room for more than one byte. */
  lemma MoreToCome(v: nat, n: nat)
    requires 1 <= n <= 4 && v >= 0x80 && Shl(v, 7 * n) < U32
    ensures n < 4
  {
    hide Shl;
    ShlBounds(v, n);
  }

  lemma {:induction false} Varint32FromInverse(v: nat, n: nat, r: nat, rest: Bytes)
    requires 1 <= n <= 4 && r < Shl(1, 7 * n) && r + Shl(v, 7 * n) < U32
    ensures Varint32From(Varint(v) + rest, 7 * n, r) == Got(r + Shl(v, 7 * n), rest)
    decreases 4 - n
  {
    hide Varint, Varint32From, Shl, OrShifted;
    if v < 0x80 {
      Varint32Last(v, n, r, rest);
    } else {
      var low, w := v % 0x80, v / 0x80;
      MoreToCome(v, n);
      ShlSplit(v, 7 * n);
      OrLow(r, low, n);
      Varint32Step(v, n, r, rest);
      LowBelow(r, low, n);
      Varint32FromInverse(w, n + 1, r + Shl(low, 7 * n), rest);
    }
  }

  lemma LowBelow(r: nat, low: nat, n: nat)
    requires 1 <= n <= 3 && r < Shl(1, 7 * n) && low < 0x80
    ensures r + Shl(low, 7 * n) < Shl(1, 7 * (n + 1))
  {
    ShlSeven(1, 7 * n);
    ShlAdds(low + 1, 0x7f - low, 7 * n);
    ShlAdds(low, 1, 7 * n);
  }

  /** Every 32-bit number is read back. */
  lemma Varint32RoundTrip(v: nat, rest: Bytes)
    requires v < U32
    ensures ReadVarint32(Varint(v) + rest) == Got(v, rest)
  {
    hide Varint, Varint32From;
    VarintHead(v, rest);
    if v >= 0x80 {
      var w := v / 0x80;
      ShlSeven(w, 0);
      Shl32();
      Varint32FromInverse(w, 1, v % 0x80, rest);
    }
  }

  /** The bytes of the sign extension change nothing. */
  lemma Varint32SignBytes(result: nat, rest: Bytes)
    requires 0x8000_0000 <= result < U32
    ensures Varint32From(Varint(0x1fff_ffff) + rest, 35, result) == Got(result, rest)
  {
    hide *;
    LastSignByte(result, rest);
    SignByte(1, 56, result, rest);
    SignByte(0xff, 49, result, rest);
    SignByte(0x7fff, 42, result, rest);
    SignByte(0x3f_ffff, 35, result, rest);
  }

  lemma LastSignByte(result: nat, rest: Bytes)
    requires 0x8000_0000 <= result < U32
    ensures Varint32From(Varint(1) + rest, 63, result) == Got(result, rest)
  {
    hide Varint, OrShifted;
    VarintHead(1, rest);
  }

  /** A byte of ones in front of the sign extension v. */
  lemma SignByte(v: nat, bitpos: nat, result: nat, rest: Bytes)
    requires 0x8000_0000 <= result < U32 && 35 <= bitpos <= 56 && v > 0
    requires Varint32From(Varint(v) + rest, bitpos + 7, result) == Got(result, rest)
    ensures Varint32From(Varint(0x80 * v + 0x7f) + rest, bitpos, result) == Got(result, rest)
  {
    hide Varint, OrShifted;
    VarintHead(0x80 * v + 0x7f, rest);
  }

  /** The fifth byte of a sign-extended number carries its four highest bits of 32. */
  lemma Varint32FifthByte(h: nat, r: nat, rest: Bytes)
    requires 8 <= h < 16 && r < 0x1000_0000
    ensures Varint32From(Varint(0xf_ffff_fff0 + h) + rest, 28, r) == Got(r + 0x1000_0000 * h, rest)
  {
    hide Varint, Varint32From, Shl, Or;
    var v := 0xf_ffff_fff0 + h;
    assert v / 0x80 == 0x1fff_ffff && v % 0x80 == 0x70 + h;
    Varint32Step(v, 4, r, rest);
    ShlBounds(0x70 + h, 4);
    ShlBounds(h, 4);
    assert Shl(0x70 + h, 28) % U32 == Shl(h, 28);
    Shl32();
    OrAdds(r, h, 28);
    Varint32SignBytes(r + 0x1000_0000 * h, rest);
  }

  // A number cut into groups of seven bits.

  lemma TwoSevens(u: nat)
    ensures u / 0x80 / 0x80 == u / 0x4000 && u % 0x4000 == u % 0x80 + 0x80 * (u / 0x80 % 0x80)
  {
  }

  lemma ThreeSevens(u: nat)
    ensures u / 0x4000 / 0x80 == u / 0x20_0000 && u % 0x20_0000 == u % 0x4000 + 0x4000 * (u / 0x4000 % 0x80)
  {
  }

  lemma FourSevens(u: nat)
    ensures u / 0x20_0000 / 0x80 == u / 0x1000_0000
    ensures u % 0x1000_0000 == u % 0x20_0000 + 0x20_0000 * (u / 0x20_0000 % 0x80)
  {
  }

  lemma HighestBits(n: int)
    requires -0x8000_0000 <= n < 0
    ensures var h := (U64 + n) / 0x1000_0000 - 0xf_ffff_fff0;
            8 <= h < 16 && (U64 + n) % 0x1000_0000 + 0x1000_0000 * h == U32 + n
  {
  }

  lemma FirstByte(v: nat, rest: Bytes)
    requires v >= 0x80
    ensures ReadVarint32(Varint(v) + rest) == Varint32From(Varint(v / 0x80) + rest, 7, v % 0x80)
  {
    hide Varint, Varint32From;
    VarintHead(v, rest);
  }

  /** One more group, where the or is an addition. */
  lemma MoreBits(v: nat, n: nat, r: nat, rest: Bytes)
    requires 1 <= n <= 3 && v >= 0x80 && r < Shl(1, 7 * n)
    ensures r + Shl(v % 0x80, 7 * n) < U32
    ensures Varint32From(Varint(v) + rest, 7 * n, r)
         == Varint32From(Varint(v / 0x80) + rest, 7 * (n + 1), r + Shl(v % 0x80, 7 * n))
  {
    hide Varint, Varint32From, OrShifted, Shl;
    Shl32();
    ShlSmall(v % 0x80);
    OrLow(r, v % 0x80, n);
    Varint32Step(v, n, r, rest);
  }

  /** The ten bytes of a negative number of 32 bits yield its low 32 bits. */
  lemma Varint32SignExtended(n: int, rest: Bytes)
    requires -0x8000_0000 <= n < 0
    ensures ReadVarint32(Varint(U64 + n) + rest) == Got(U32 + n, rest)
  {
    hide Varint, Varint32From, ReadVarint32, Shl;
    var u := U64 + n;
    TwoSevens(u);
    ThreeSevens(u);
    FourSevens(u);
    HighestBits(n);
    Shl32();
    ShlSmall(u / 0x80 % 0x80);
    ShlSmall(u / 0x4000 % 0x80);
    ShlSmall(u / 0x20_0000 % 0x80);
    FirstByte(u, rest);
    MoreBits(u / 0x80, 1, u % 0x80, rest);
    MoreBits(u / 0x4000, 2, u % 0x4000, rest);
    MoreBits(u / 0x20_0000, 3, u % 0x20_0000, rest);
    Varint32FifthByte(u / 0x1000_0000 - 0xf_ffff_fff0, u % 0x1000_0000, rest);
  }

  lemma ShlSmall(x: nat)
    ensures Shl(x, 7) == 0x80 * x && Shl(x, 14) == 0x4000 * x && Shl(x, 21) == 0x20_0000 * x
  {
    ShlSeven(x, 0);
    ShlSeven(x, 7);
    ShlSeven(0x80 * x, 0);
    ShlSeven(x, 14);
    ShlSeven(0x80 * x, 7);
    ShlSeven(0x4000 * x, 0);
  }

  // ---------- Fixed-size numbers ----------

  function ReadFixed(b: Bytes, n: nat): (r: Read<nat>)
    requires n > 0
    ensures r.Got? ==> Shorter(r.rest, b)
  {
    if |b| < n then Fail else Got(UnFixed(b[..n]), b[n..])
  }

  lemma FixedRoundTrip(v: nat, n: nat, rest: Bytes)
    requires n > 0 && v < ByteLimit(n)
    ensures ReadFixed(Fixed(v, n) + rest, n) == Got(v, rest)
  {
    UnFixedInverse(v, n);
    var b := Fixed(v, n) + rest;
    assert b[..n] == Fixed(v, n) && b[n..] == rest;
  }

  // ---------- Tags ----------

  const WT_VARINT: nat := 0
  const WT_64BIT: nat := 1
  const WT_STRING: nat := 2
  const WT_32BIT: nat := 5

  /** pb_encode_tag */
  function Tag(wireType: nat, number: nat): (b: Bytes)
    ensures |b| > 0
  {
    Varint(number * 8 + wireType)
  }

  datatype TagRead = NoTag | End(rest: Bytes) | IsTag(wireType: nat, number: nat, rest: Bytes)

  /** pb_decode_tag; a zero byte, like the end of the stream, ends a message. */
  function ReadTag(b: Bytes): (r: TagRead)
    ensures r.IsTag? ==> r.wireType < 8 && Shorter(r.rest, b)
    ensures r.End? && b != [] ==> Shorter(r.rest, b)
  {
    if b == [] then End(b)
    else
      match ReadVarint32(b)
      case Fail => NoTag
      case Got(v, rest) => if v == 0 then End(rest) else IsTag(v % 8, v / 8, rest)
  }

  const MAX_TAG: nat := 0x1fff_ffff

  lemma TagRoundTrip(wireType: nat, number: nat, rest: Bytes)
    requires wireType < 8 && 1 <= number <= MAX_TAG
    ensures ReadTag(Tag(wireType, number) + rest) == IsTag(wireType, number, rest)
  {
    hide Varint, ReadVarint32;
    Varint32RoundTrip(number * 8 + wireType, rest);
  }

  // ---------- Lengths and skipping ----------

  datatype Split = NoSplit | Split(part: Bytes, rest: Bytes)

  /** pb_make_string_substream: the bytes that a length announces, and those after. */
  function Substream(b: Bytes): (r: Split)
    ensures r.Split? ==> |r.part| + |r.rest| < |b| && r.rest == b[|b| - |r.rest|..]
  {
    match ReadVarint32(b)
    case Fail => NoSplit
    case Got(n, rest) => if |rest| < n then NoSplit else Split(rest[..n], rest[n..])
  }

  /** pb_encode_string, which casts the size to 64 bits. */
  function Delimited(b: Bytes): Bytes {
    Varint(|b| % U64) + b
  }

  lemma SubstreamRoundTrip(part: Bytes, rest: Bytes)
    requires |part| < U32
    ensures Substream(Delimited(part) + rest) == Split(part, rest)
  {
    hide Varint, ReadVarint32;
    assert Delimited(part) + rest == Varint(|part|) + (part + rest);
    Varint32RoundTrip(|part|, part + rest);
    assert (part + rest)[..|part|] == part && (part + rest)[|part|..] == rest;
  }

  function SkipVarint(b: Bytes): (r: Option<Bytes>)
    ensures r.Some? ==> Shorter(r.value, b)
  {
    if b == [] then None else if b[0] >= 0x80 then SkipVarint(b[1..]) else Some(b[1..])
  }

  /** pb_skip_field */
  function Skip(wireType: nat, b: Bytes): (r: Option<Bytes>)
    ensures r.Some? ==> |r.value| < |b| && r.value == b[|b| - |r.value|..]
  {
    if wireType == WT_VARINT then SkipVarint(b)
    else if wireType == WT_64BIT then (if |b| < 8 then None else Some(b[8..]))
    else if wireType == WT_STRING then (match Substream(b) case NoSplit => None case Split(_, rest) => Some(rest))
    else if wireType == WT_32BIT then (if |b| < 4 then None else Some(b[4..]))
    else None
  }

  /** Reading does not look past what it reads. */
  lemma {:induction false} Varint32Local(b: Bytes, rest: Bytes, bitpos: nat, result: nat)
    requires bitpos < 256 && result < U32 && Varint32From(b, bitpos, result).Got?
    ensures var r := Varint32From(b, bitpos, result);
            Varint32From(b + rest, bitpos, result) == Got(r.value, r.rest + rest)
    decreases |b|
  {
    hide OrShifted;
    assert (b + rest)[1..] == b[1..] + rest;
    if b[0] >= 0x80 {
      var result' := if bitpos >= 32 then result else OrShifted(result, b[0] % 0x80, bitpos);
      Varint32Local(b[1..], rest, (bitpos + 7) % 256, result');
    }
  }

  lemma {:induction false} SkipVarintLocal(b: Bytes, rest: Bytes)
    requires SkipVarint(b).Some?
    ensures SkipVarint(b + rest) == Some(SkipVarint(b).value + rest)
  {
    assert (b + rest)[1..] == b[1..] + rest;
    if b[0] >= 0x80 {
      SkipVarintLocal(b[1..], rest);
    }
  }

  lemma ReadVarint32Local(b: Bytes, rest: Bytes)
    requires ReadVarint32(b).Got?
    ensures var r := ReadVarint32(b); ReadVarint32(b + rest) == Got(r.value, r.rest + rest)
  {
    hide Varint32From;
    assert (b + rest)[1..] == b[1..] + rest;
    if b[0] >= 0x80 {
      Varint32Local(b[1..], rest, 7, b[0] % 0x80);
    }
  }

  /** A field that is skipped whole is skipped just so in front of other bytes. */
  lemma SkipLocal(wireType: nat, b: Bytes, rest: Bytes)
    requires Skip(wireType, b) == Some([])
    ensures Skip(wireType, b + rest) == Some(rest)
  {
    hide ReadVarint32, SkipVarint;
    assert [] + rest == rest;
    if wireType == WT_VARINT {
      SkipVarintLocal(b, rest);
    } else if wireType == WT_STRING {
      ReadVarint32Local(b, rest);
      var first := ReadVarint32(b);
      assert (first.rest + rest)[first.value..] == rest;
    } else if wireType == WT_64BIT {
      assert (b + rest)[8..] == rest;
    } else {
      assert (b + rest)[4..] == rest;
    }
  }
}
