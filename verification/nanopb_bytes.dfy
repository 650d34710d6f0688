/** The bytes of the wire format themselves, without the functions that encode and decode
    share: digits, wire types, ranges, and what has no encoding. */
module NanopbBytes {
  import opened Wrappers
  import opened Division
  import opened LittleEndian
  import opened NanopbWire
  import opened NanopbMessage
  import opened NanopbReading
  import opened NanopbFields

  // ---------- Digits ----------

  lemma DivideBelow(v: nat, p: nat)
    requires p > 0
    ensures v / 0x80 < p <==> v < 0x80 * p
  {
  }

  lemma LimitPositive(n: nat)
    ensures Limit(n) > 0
  {
  }

  /** As few bytes as hold the number. */
  lemma {:induction false} VarintShortest(v: nat)
    ensures v < Limit(|Varint(v)|) && (|Varint(v)| > 1 ==> Limit(|Varint(v)| - 1) <= v)
  {
    if v >= 0x80 {
      VarintShortest(v / 0x80);
      LimitPositive(|Varint(v / 0x80)|);
      LimitPositive(|Varint(v / 0x80)| - 1);
      DivideBelow(v, Limit(|Varint(v / 0x80)|));
      DivideBelow(v, Limit(|Varint(v / 0x80)| - 1));
    } else {
      assert Limit(1) == 0x80;
    }
  }

  /** Byte i is digit i to the base 128, with the top bit set on all but the last. */
  lemma {:induction false} VarintDigits(v: nat, i: nat)
    requires i < |Varint(v)|
    ensures Limit(i) > 0
    ensures Varint(v)[i] == v / Limit(i) % 0x80 + if i + 1 < |Varint(v)| then 0x80 else 0
  {
    LimitPositive(i);
    if i > 0 {
      VarintDigits(v / 0x80, i - 1);
      DivideAgain(v, 0x80, Limit(i - 1));
    }
  }

  // ---------- Numbers ----------

  /** The unsigned number that each numeric type writes: a negative int32 or int64 as ten
      bytes, a negative sint folded between the others. */
  lemma NumberBytesAre(t: LType, n: int)
    requires Packable(t) && WellFormedType(t) && FitsNumber(t, n)
    ensures t.Bool? || t.UVarintT? ==> n >= 0 && NumberBytes(t, n) == Some(Varint(n))
    ensures t.VarintT? && n >= 0 ==> NumberBytes(t, n) == Some(Varint(n))
    ensures t.VarintT? && n < 0 ==>
              NumberBytes(t, n) == Some(Varint(n + 0x1_0000_0000_0000_0000)) && |NumberBytes(t, n).value| == 10
    ensures t.SVarintT? ==> NumberBytes(t, n) == Some(Varint(if n < 0 then -2 * n - 1 else 2 * n))
    ensures t.Fixed32T? ==> n >= 0 && NumberBytes(t, n) == Some(Fixed(n, 4))
    ensures t.Fixed64T? ==> n >= 0 && NumberBytes(t, n) == Some(Fixed(n, 8))
  {
    hide Varint, Fixed;
    InTwosComplement(if -I64 <= n < I64 then n else 0);
    if t.VarintT? && n < 0 {
      var v := n + 0x1_0000_0000_0000_0000;
      VarintShortest(v);
      TenBytes(v, |Varint(v)|);
      VarintLength(v, 10);
    }
  }

  lemma TenBytes(v: nat, k: nat)
    requires I64 <= v < Limit(k)
    ensures k >= 10
  {
    assert Limit(9) == 0x8000_0000_0000_0000;
    if k < 9 {
      LimitGrows(k, 9);
    }
  }

  lemma {:induction false} LimitGrows(a: nat, b: nat)
    requires a <= b
    ensures Limit(a) <= Limit(b)
    decreases b
  {
    if a < b {
      LimitGrows(a, b - 1);
      LimitPositive(b - 1);
    }
  }

  /** Which varints each integer type accepts, and as what: unsigned ones in range, sints in
      range, int32 by its low 32 bits, int64 in two's complement, and the small signed ones
      if their low 32 bits are in range. */
  lemma NumberRead(t: LType, v: nat, rest: Bytes)
    requires (t.UVarintT? || t.SVarintT? || t.VarintT?) && WellFormedType(t) && v < 0x1_0000_0000_0000_0000
    ensures t.UVarintT? ==>
      ReadNumber(t, Varint(v) + rest) ==
      if t.size == 8 || (t.size == 4 && v < 0x1_0000_0000) || (t.size == 2 && v < 0x1_0000) || v < 0x100 then Got(v, rest)
      else Fail
    ensures t.SVarintT? ==>
      var n := if v % 2 == 0 then v / 2 else -(v / 2) - 1;
      ReadNumber(t, Varint(v) + rest) ==
      if || t.size == 8 || (t.size == 4 && -0x8000_0000 <= n < 0x8000_0000)
         || (t.size == 2 && -0x8000 <= n < 0x8000) || -0x80 <= n < 0x80 then Got(n, rest)
      else Fail
    ensures t.VarintT? && t.size == 8 ==>
      ReadNumber(t, Varint(v) + rest) == Got(if v < 0x8000_0000_0000_0000 then v else v - 0x1_0000_0000_0000_0000, rest)
    ensures t.VarintT? && t.size < 8 ==>
      var low := v % 0x1_0000_0000;
      var n := if low < 0x8000_0000 then low else low - 0x1_0000_0000;
      ReadNumber(t, Varint(v) + rest) ==
      if t.size == 4 || (t.size == 2 && -0x8000 <= n < 0x8000) || -0x80 <= n < 0x80 then Got(n, rest)
      else Fail
  {
    if t.UVarintT? {
      UnsignedRead(t.size, v, rest);
    } else if t.SVarintT? {
      ZigZagRead(t.size, v, rest);
    } else if t.size == 8 {
      Int64Read(v, rest);
    } else {
      SmallIntRead(t.size, v, rest);
    }
  }

  lemma UnsignedRead(size: nat, v: nat, rest: Bytes)
    requires IntSize(size) && v < U64
    ensures ReadNumber(UVarintT(size), Varint(v) + rest) == if v < 2 * Half(size) then Got(v, rest) else Fail
  {
    hide Varint, ReadVarint;
    VarintRoundTrip(v, rest);
  }

  lemma ZigZagRead(size: nat, v: nat, rest: Bytes)
    requires IntSize(size) && v < U64
    ensures var n := if v % 2 == 0 then v / 2 else -(v / 2) - 1;
            ReadNumber(SVarintT(size), Varint(v) + rest) == if -Half(size) <= n < Half(size) then Got(n, rest) else Fail
  {
    hide Varint, ReadVarint, ToSigned, Half;
    VarintRoundTrip(v, rest);
    SignedInRange(UnZigZag(v), size);
  }

  lemma Int64Read(v: nat, rest: Bytes)
    requires v < U64
    ensures ReadNumber(VarintT(8), Varint(v) + rest) == Got(if v < I64 then v else v - U64, rest)
  {
    hide Varint, ReadVarint;
    VarintRoundTrip(v, rest);
    SignedInRange(if v < I64 then v else v - U64, 8);
  }

  lemma SmallIntRead(size: nat, v: nat, rest: Bytes)
    requires IntSize(size) && size < 8 && v < U64
    ensures var low := v % U32;
            var n := if low < 0x8000_0000 then low else low - U32;
            ReadNumber(VarintT(size), Varint(v) + rest) == if -Half(size) <= n < Half(size) then Got(n, rest) else Fail
  {
    var low := v % U32;
    var n := if low < 0x8000_0000 then low else low - U32;
    assert ToSigned(v, 4) == n;
    hide Varint, ReadVarint, ToSigned, Half;
    VarintRoundTrip(v, rest);
    SignedInRange(n, size);
  }

  lemma SignedInRange(n: int, size: nat)
    requires IntSize(size) && -I64 <= n < I64
    ensures ToSigned(n % U64, size) == n <==> -Half(size) <= n < Half(size)
  {
    SignedWithin(n % U64, size);
    hide ToSigned;
    if -Half(size) <= n < Half(size) {
      SignedBack(size, n);
    }
  }

  lemma SignedWithin(u: nat, size: nat)
    requires IntSize(size)
    ensures -Half(size) <= ToSigned(u, size) < Half(size)
  {
  }

  /** Any nonzero 32-bit number is true. */
  lemma BoolRead(v: nat, rest: Bytes)
    requires v < 0x1_0000_0000
    ensures ReadNumber(Bool, Varint(v) + rest) == Got(if v == 0 then 0 else 1, rest)
  {
    hide Varint, ReadVarint32;
    Varint32RoundTrip(v, rest);
  }

  // ---------- Bytes and strings ----------

  /** A string ends at its first zero byte. */
  lemma {:induction false} CStringIs(x: Bytes)
    ensures CString(x) <= x && NoZero(CString(x)) && (|CString(x)| < |x| ==> x[|CString(x)|] == 0)
  {
    if x != [] && x[0] != 0 {
      CStringIs(x[1..]);
    }
  }

  /** Which sizes the fields of bytes accept: bytes up to their capacity, strings with a
      byte to spare, inline bytes of exactly their size, or none, which are zeros. */
  lemma BlobRead(t: LType, x: Bytes, rest: Bytes)
    requires |x| < 0x1_0000_0000
    ensures t.BytesT? ==> ReadBlob(t, Varint(|x|) + x + rest) == if |x| <= t.capacity then Got(x, rest) else Fail
    ensures t.StringT? ==> ReadBlob(t, Varint(|x|) + x + rest) == if |x| < t.dataSize then Got(CString(x), rest) else Fail
    ensures t.FixedBytesT? ==>
      ReadBlob(t, Varint(|x|) + x + rest) ==
      if |x| == t.dataSize then Got(x, rest) else if x == [] then Got(seq(t.dataSize, i => 0), rest) else Fail
  {
    hide Varint, ReadVarint32, CString;
    Varint32RoundTrip(|x|, x + rest);
    Regroup(Varint(|x|), x, rest);
    assert (x + rest)[..|x|] == x && (x + rest)[|x|..] == rest;
    assert x == [] ==> x == seq(0, i => 0);
  }

  // ---------- Numbers that do not fit 32 bits ----------

  lemma GroupByte(b: Bytes, bitpos: nat, result: nat)
    requires b != [] && result < U32 && 35 <= bitpos <= 56
    ensures Varint32From(b, bitpos, result) ==
            if b[0] % 0x80 != 0 && (result < 0x8000_0000 || b[0] != 0xFF) then Fail
            else if b[0] >= 0x80 then Varint32From(b[1..], bitpos + 7, result)
            else Got(result, b[1..])
  {
    hide OrShifted;
  }

  /** A group of seven bits beyond the 32 passes if they are all clear, or all set with a
      negative result; the last byte of a varint has some bit set. */
  lemma GroupPasses(u: nat, bitpos: nat, result: nat, rest: Bytes)
    requires u > 0 && result < U32 && 35 <= bitpos <= 56
    ensures Varint32From(Varint(u) + rest, bitpos, result) ==
            if u >= 0x80 && (u % 0x80 == 0 || (u % 0x80 == 0x7f && result >= 0x8000_0000))
            then Varint32From(Varint(u / 0x80) + rest, bitpos + 7, result) else Fail
  {
    hide Varint, Varint32From;
    VarintHead(u, rest);
    GroupByte(Varint(u) + rest, bitpos, result);
  }

  lemma LastPasses(result: nat, rest: Bytes)
    requires result < U32
    ensures Varint32From(Varint(1) + rest, 63, result) == if result >= 0x8000_0000 then Got(result, rest) else Fail
  {
    hide Varint, OrShifted;
    VarintHead(1, rest);
  }

  predicate Uniform(g: nat) {
    g == 0 || g == 0x7f
  }

  lemma TailPasses(u: nat, result: nat, rest: Bytes)
    requires 0 < u < 0x2000_0000 && result < U32
    ensures Varint32From(Varint(u) + rest, 35, result) ==
            if && u >= 0x1000_0000 && result >= 0x8000_0000
               && Uniform(u % 0x80) && Uniform(u / 0x80 % 0x80) && Uniform(u / 0x4000 % 0x80) && Uniform(u / 0x20_0000 % 0x80)
            then Got(result, rest) else Fail
  {
    hide Varint, Varint32From;
    GroupPasses(u, 35, result, rest);
    if u >= 0x80 {
      GroupPasses(u / 0x80, 42, result, rest);
      if u >= 0x4000 {
        TwoSevens(u);
        GroupPasses(u / 0x4000, 49, result, rest);
        if u >= 0x20_0000 {
          ThreeSevens(u);
          GroupPasses(u / 0x20_0000, 56, result, rest);
          FourSevens(u);
          if u >= 0x1000_0000 {
            assert u / 0x1000_0000 == 1;
            LastPasses(result, rest);
          }
        }
      }
    }
  }

  lemma FifthByteLast(u: nat, r: nat, rest: Bytes)
    requires 0x10 <= u < 0x80 && r < 0x1000_0000
    ensures Varint32From(Varint(u) + rest, 28, r) == Fail
  {
    hide Varint, OrShifted;
    VarintHead(u, rest);
  }

  lemma SixteenTimes(g: nat)
    ensures 0x1000_0000 * g % U32 == 0x1000_0000 * (g % 0x10) <= 0xF000_0000
  {
    assert g == 0x10 * (g / 0x10) + g % 0x10;
  }

  lemma FifthGroup(g: nat, r: nat)
    requires g < 0x80 && r < 0x1000_0000
    ensures r + 0x1000_0000 * (g % 0x10) < U32 && OrShifted(r, g, 28) == r + 0x1000_0000 * (g % 0x10)
  {
    hide Or, Shl;
    ShlBounds(g, 4);
    ShlBounds(g % 0x10, 4);
    Shl32();
    SixteenTimes(g);
    OrAdds(r, g % 0x10, 28);
  }

  /** Of the fifth byte only the four lowest bits reach the result. */
  lemma FifthByteMore(u: nat, r: nat, rest: Bytes)
    requires u >= 0x80 && r < 0x1000_0000
    ensures r + 0x1000_0000 * (u % 0x10) < U32
    ensures Varint32From(Varint(u) + rest, 28, r) == Varint32From(Varint(u / 0x80) + rest, 35, r + 0x1000_0000 * (u % 0x10))
  {
    hide Varint, Varint32From, OrShifted;
    assert u % 0x80 % 0x10 == u % 0x10;
    Varint32Step(u, 4, r, rest);
    FifthGroup(u % 0x80, r);
  }

  lemma LowGroups(v: nat)
    ensures v % 0x1000_0000 + 0x1000_0000 * (v / 0x1000_0000 % 0x10) == v % U32
  {
  }

  lemma HighGroups(v: nat)
    requires U32 <= v < U64
    ensures 0x10 <= v / 0x1000_0000
    ensures v / 0x1000_0000 / 0x80 == v / 0x8_0000_0000 < 0x2000_0000
    ensures v / 0x8_0000_0000 >= 0x1000_0000 <==> v >= 0x8000_0000_0000_0000
    ensures v / 0x1000_0000 < 0x80 ==> v < 0x8000_0000_0000_0000
  {
  }

  lemma HigherGroups(v: nat)
    ensures v / 0x8_0000_0000 / 0x80 == v / 0x400_0000_0000
    ensures v / 0x8_0000_0000 / 0x4000 == v / 0x2_0000_0000_0000
    ensures v / 0x8_0000_0000 / 0x20_0000 == v / 0x100_0000_0000_0000
  {
    DivideAgain(v, 0x8_0000_0000, 0x80);
    DivideAgain(v, 0x8_0000_0000, 0x4000);
    DivideAgain(v, 0x8_0000_0000, 0x20_0000);
  }

  lemma FirstFour(v: nat, rest: Bytes)
    requires U32 <= v < U64
    ensures ReadVarint32(Varint(v) + rest) == Varint32From(Varint(v / 0x1000_0000) + rest, 28, v % 0x1000_0000)
  {
    hide Varint, Varint32From, ReadVarint32, Shl;
    TwoSevens(v);
    ThreeSevens(v);
    FourSevens(v);
    Shl32();
    ShlSmall(v / 0x80 % 0x80);
    ShlSmall(v / 0x4000 % 0x80);
    ShlSmall(v / 0x20_0000 % 0x80);
    FirstByte(v, rest);
    MoreBits(v / 0x80, 1, v % 0x80, rest);
    MoreBits(v / 0x4000, 2, v % 0x4000, rest);
    MoreBits(v / 0x20_0000, 3, v % 0x20_0000, rest);
  }

  /** The 32-bit decoder accepts more than numbers of 32 bits and negative ones that are
      sign-extended to 64: it never looks at bits 32 to 34, and each group of seven bits
      above them may be all clear instead of all set. These are all that it accepts. */
  lemma Varint32Accepts(v: nat, rest: Bytes)
    requires v < 0x1_0000_0000_0000_0000
    ensures ReadVarint32(Varint(v) + rest) ==
            if || v < 0x1_0000_0000
               || (&& v >= 0x8000_0000_0000_0000 && v % 0x1_0000_0000 >= 0x8000_0000
                   && Uniform(v / 0x8_0000_0000 % 0x80) && Uniform(v / 0x400_0000_0000 % 0x80)
                   && Uniform(v / 0x2_0000_0000_0000 % 0x80) && Uniform(v / 0x100_0000_0000_0000 % 0x80))
            then Got(v % 0x1_0000_0000, rest) else Fail
  {
    hide Varint, Varint32From, ReadVarint32, Uniform;
    if v < 0x1_0000_0000 {
      Varint32RoundTrip(v, rest);
    } else {
      Beyond32(v, rest);
    }
  }

  lemma Beyond32(v: nat, rest: Bytes)
    requires 0x1_0000_0000 <= v < 0x1_0000_0000_0000_0000
    ensures ReadVarint32(Varint(v) + rest) ==
            if && v >= 0x8000_0000_0000_0000 && v % 0x1_0000_0000 >= 0x8000_0000
               && Uniform(v / 0x8_0000_0000 % 0x80) && Uniform(v / 0x400_0000_0000 % 0x80)
               && Uniform(v / 0x2_0000_0000_0000 % 0x80) && Uniform(v / 0x100_0000_0000_0000 % 0x80)
            then Got(v % 0x1_0000_0000, rest) else Fail
  {
    hide Varint, Varint32From, ReadVarint32, Uniform;
    FirstFour(v, rest);
    HighGroups(v);
    LowGroups(v);
    HigherGroups(v);
    var u := v / 0x1000_0000;
    if u < 0x80 {
      FifthByteLast(u, v % 0x1000_0000, rest);
    } else {
      FifthByteMore(u, v % 0x1000_0000, rest);
      TailPasses(v / 0x8_0000_0000, v % U32, rest);
    }
  }

  // ---------- Wire types ----------

  /** A field that is not an array starts with eight times its number and the code of its
      type: 0 for varints, 1 for eight bytes, 2 for what has a length, 5 for four bytes. */
  lemma RecordBytes(s: Schema, m: seq<Slot>, i: nat)
    requires i < |s.fields| == |m| && |m[i]| == 1 && !IsArray(s.fields[i].rule)
    requires s.fields[i].rule.Singular? ==> !IsDefault(s, m, i)
    ensures var f, v := s.fields[i], ValueBytes(s.fields[i].ltype, m[i][0]);
            var t := f.ltype;
            FieldBytes(s, m, i) ==
            if v == None then None
            else if t.Fixed64T? then Some(Varint(8 * f.tag + 1) + v.value)
            else if t.Fixed32T? then Some(Varint(8 * f.tag + 5) + v.value)
            else if t.Bool? || t.VarintT? || t.UVarintT? || t.SVarintT? then Some(Varint(8 * f.tag) + v.value)
            else Some(Varint(8 * f.tag + 2) + v.value)
  {
    hide Varint, ValueBytes;
  }

  /** An array of numbers is one record with a length, whatever the type of its entries. */
  lemma PackedArrayBytes(s: Schema, m: seq<Slot>, i: nat)
    requires i < |s.fields| == |m| && IsArray(s.fields[i].rule) && Packable(s.fields[i].ltype) && m[i] != []
    ensures FieldBytes(s, m, i).Some? ==>
              var entries := PackedBytes(s.fields[i].ltype, m[i]);
              && entries.Some?
              && FieldBytes(s, m, i).value ==
                 Varint(8 * s.fields[i].tag + 2) + (Varint(|entries.value| % 0x1_0000_0000_0000_0000) + entries.value)
  {
    hide Varint, PackedBytes;
  }

  /** Skipping, by the number of bytes: up to the first byte below 128; eight; a length and
      as many; four; and the other codes are errors. */
  lemma SkipTakes(wireType: nat, b: Bytes)
    ensures wireType == 1 ==> Skip(wireType, b) == if |b| < 8 then None else Some(b[8..])
    ensures wireType == 5 ==> Skip(wireType, b) == if |b| < 4 then None else Some(b[4..])
    ensures wireType == 3 || wireType == 4 || wireType >= 6 ==> Skip(wireType, b) == None
    ensures wireType == 0 && Skip(wireType, b).Some? ==>
              var k := |b| - |Skip(wireType, b).value| - 1;
              && 0 <= k < |b| && b[k] < 0x80 && forall j :: 0 <= j < k ==> b[j] >= 0x80
    ensures wireType == 0 && Skip(wireType, b) == None ==> forall j :: 0 <= j < |b| ==> b[j] >= 0x80
  {
    VarintTakes(b);
    hide Substream, SkipVarint;
  }

  lemma {:induction false} VarintTakes(b: Bytes)
    ensures SkipVarint(b).Some? ==>
              var k := |b| - |SkipVarint(b).value| - 1;
              && 0 <= k < |b| && b[k] < 0x80 && forall j :: 0 <= j < k ==> b[j] >= 0x80
    ensures SkipVarint(b) == None ==> forall j :: 0 <= j < |b| ==> b[j] >= 0x80
  {
    if b != [] && b[0] >= 0x80 {
      VarintTakes(b[1..]);
      assert forall j :: 1 <= j < |b| ==> b[j] == b[1..][j - 1];
    }
  }

  // ---------- What cannot be encoded ----------

  /** Bytes over their capacity, strings over their buffer and inline bytes of another size
      have no encoding; a string may fill its buffer. */
  lemma BlobWritten(t: LType, x: Bytes)
    requires |x| < 0x1_0000_0000_0000_0000
    ensures t.BytesT? ==> ValueBytes(t, Blob(x)) == if |x| <= t.capacity then Some(Varint(|x|) + x) else None
    ensures t.StringT? ==> ValueBytes(t, Blob(x)) == if |x| <= t.dataSize then Some(Varint(|x|) + x) else None
    ensures t.FixedBytesT? ==> ValueBytes(t, Blob(x)) == if |x| == t.dataSize then Some(Varint(|x|) + x) else None
  {
    hide Varint;
    LowHalf(|x|);
  }

  /** An array with more entries than it can hold, or with a fixed count and another number
      of them, has no encoding; nor has a message with such a field. */
  lemma TooManyEntries(s: Schema, m: seq<Slot>, i: nat)
    requires i < |s.fields| == |m| && IsArray(s.fields[i].rule)
    requires if s.fields[i].rule.Repeated? then |m[i]| > s.fields[i].rule.max else |m[i]| != s.fields[i].rule.count
    ensures FieldBytes(s, m, i) == None && MessageBytes(s, m) == None
  {
    assert s.fields[i].rule.Repeated? ==> m[i] != [];
    hide PackedBytes, TaggedItems, Tag, Delimited;
    FieldFails(s, m, i, 0);
  }

  lemma {:induction false} FieldFails(s: Schema, m: seq<Slot>, i: nat, k: nat)
    requires k <= i < |s.fields| == |m| && FieldBytes(s, m, i) == None
    ensures FieldsFrom(s, m, k) == None
    decreases i - k
  {
    hide FieldBytes;
    if k < i {
      FieldFails(s, m, i, k + 1);
    }
  }

  // ---------- Messages ----------

  /** Decoding starts from the initial values of required and singular fields, at every
      depth, and from nothing else. */
  lemma InitialMessage(s: Schema, i: nat)
    requires i < |s.fields|
    ensures var f := s.fields[i];
            Defaults(s)[i] ==
            if !f.rule.Required? && !f.rule.Singular? then []
            else if f.ltype.Sub? then [Msg(Defaults(f.ltype.schema))]
            else [f.init]
  {
  }

  function Joined(parts: seq<Bytes>): Bytes {
    if parts == [] then [] else parts[0] + Joined(parts[1..])
  }

  lemma {:induction false} PartsFrom(s: Schema, m: seq<Slot>, parts: seq<Bytes>, i: nat)
    requires i <= |parts| == |s.fields| == |m| && forall k :: 0 <= k < |m| ==> FieldBytes(s, m, k) == Some(parts[k])
    ensures FieldsFrom(s, m, i) == Some(Joined(parts[i..]))
    decreases |m| - i
  {
    hide FieldBytes;
    if i < |m| {
      PartsFrom(s, m, parts, i + 1);
      assert parts[i..][0] == parts[i] && parts[i..][1..] == parts[i + 1..];
    }
  }

  /** A message is the bytes of its fields in the order of the schema. */
  lemma FieldsInOrder(s: Schema, m: seq<Slot>, parts: seq<Bytes>)
    requires |parts| == |s.fields| == |m| && forall k :: 0 <= k < |m| ==> FieldBytes(s, m, k) == Some(parts[k])
    ensures MessageBytes(s, m) == Some(Joined(parts))
  {
    hide FieldBytes;
    PartsFrom(s, m, parts, 0);
    assert parts[0..] == parts;
  }
}
