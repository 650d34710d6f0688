/** nanopb's decoder: an input stream over a buffer, and the functions of pb_decode.c on
    it. */
module NanopbDecode {
  import opened Wrappers
  import opened LittleEndian
  import opened NanopbWire
  import opened NanopbMessage
  import opened NanopbReading
  import Iter = NanopbIter

  /** acc and the value that is still to come, k bytes further up. */
  ghost function Continued(acc: nat, k: nat, r: Read<nat>): Read<nat> {
    match r
    case Fail => Fail
    case Got(w, rest) => Got(acc + Shl(w, 7 * k), rest)
  }

  lemma Shl64()
    ensures Shl(1, 63) == 0x8000_0000_0000_0000 && Shl(1, 64) == U64
  {
    Shl32();
    assert Shl(1, 35) == 0x8_0000_0000;
    assert Shl(1, 42) == 0x400_0000_0000;
    assert Shl(1, 49) == 0x2_0000_0000_0000;
    assert Shl(1, 56) == 0x100_0000_0000_0000;
  }

  lemma {:induction false} ShlMonotone(n: nat, k: nat)
    requires n <= k
    ensures Shl(1, n) <= Shl(1, k)
    decreases k
  {
    if n < k {
      ShlMonotone(n, k - 1);
    }
  }

  lemma {:induction false} ShlScales(x: nat, n: nat)
    ensures x > 0 ==> Shl(x, n) >= Shl(1, n)
    ensures Shl(x % 2, n) + Shl(x / 2, n + 1) == Shl(x, n)
    ensures Shl(0, n) == 0
  {
    ShlAdds(x % 2, 2 * (x / 2), n);
    ShlDouble(x / 2, n);
    if x > 0 {
      ShlAdds(1, x - 1, n);
    }
    if n > 0 {
      ShlScales(0, n - 1);
    }
  }

  lemma {:induction false} ShlTimes64(x: nat)
    ensures Shl(x, 64) == x * U64
  {
    Shl64();
    if x > 0 {
      ShlTimes64(x - 1);
      ShlAdds(1, x - 1, 64);
    } else {
      ShlScales(0, 64);
    }
  }

  /** One turn of the loop of pb_decode_varint: seven more bits, cut to 64. */
  lemma VarintBits(acc: nat, low: nat, k: nat)
    requires k <= 9 && acc < Shl(1, 7 * k) && low < 0x80
    ensures Or(acc, Shl(low, 7 * k) % U64) == (acc + Shl(low, 7 * k)) % U64
    ensures acc + Shl(low, 7 * k) < Shl(1, 7 * (k + 1))
  {
    hide Or, Shl;
    var n := 7 * k;
    ShlSeven(1, n);
    ShlAdds(low, 1, n);
    ShlAdds(low + 1, 0x7f - low, n);
    Shl64();
    if k <= 8 {
      ShlMonotone(7 * (k + 1), 63);
      OrAdds(acc, low, n);
    } else {
      ShlScales(low, 63);
      ShlTimes64(low / 2);
      var bit := Shl(low % 2, 63);
      assert bit == 0 || bit == 0x8000_0000_0000_0000;
      CutTop(acc, bit, low / 2);
      OrAdds(acc, low % 2, 63);
    }
  }

  lemma CutTop(acc: nat, bit: nat, high: nat)
    requires acc < 0x8000_0000_0000_0000 && bit <= 0x8000_0000_0000_0000
    ensures (bit + high * U64) % U64 == bit && (acc + (bit + high * U64)) % U64 == acc + bit
  {
  }

  lemma VarintMore(acc: nat, k: nat, b: Bytes)
    requires b != [] && k < 10
    ensures b[0] >= 0x80 ==>
      Continued(acc, k, VarintFrom(b, k)) == Continued(acc + Shl(b[0] % 0x80, 7 * k), k + 1, VarintFrom(b[1..], k + 1))
    ensures b[0] < 0x80 ==> Continued(acc, k, VarintFrom(b, k)) == Got(acc + Shl(b[0] % 0x80, 7 * k), b[1..])
  {
    hide Shl;
    var r := VarintFrom(b[1..], k + 1);
    if r.Got? {
      ShlAdds(b[0] % 0x80, 0x80 * r.value, 7 * k);
      ShlSeven(r.value, 7 * k);
    }
  }

  lemma BelowBits(acc: nat, k: nat)
    requires k <= 9 && acc < Shl(1, 7 * k)
    ensures acc % U64 == acc
  {
    hide Shl;
    Shl64();
    ShlMonotone(7 * k, 64);
  }

  lemma VarintTurn(acc: nat, k: nat, b: Bytes)
    requires b != [] && k <= 9 && acc < Shl(1, 7 * k)
    ensures var low := b[0] % 0x80;
            var acc' := acc + Shl(low, 7 * k);
            && acc' < Shl(1, 7 * (k + 1))
            && Or(acc % U64, Shl(low, 7 * k) % U64) == acc' % U64
            && Continued(acc, k, VarintFrom(b, k)) ==
                 if b[0] >= 0x80 then Continued(acc', k + 1, VarintFrom(b[1..], k + 1)) else Got(acc', b[1..])
  {
    hide *;
    BelowBits(acc, k);
    VarintBits(acc, b[0] % 0x80, k);
    VarintMore(acc, k, b);
  }

  lemma VarintStops(acc: nat, b: Bytes, k: nat)
    requires k >= 10 || b == []
    ensures Continued(acc, k, VarintFrom(b, k)) == Fail
  {
  }

  class IStream {
    const buf: Bytes
    var state: nat  // where the next byte is
    var bytesLeft: nat

    ghost predicate Valid()
      reads this
    {
      state + bytesLeft <= |buf|
    }

    /** Where the bytes of this stream end. */
    ghost function Limit(): nat
      reads this
    {
      state + bytesLeft
    }

    ghost function Rest(): Bytes
      requires Valid()
      reads this
    {
      buf[state..state + bytesLeft]
    }

    /** pb_istream_from_buffer, or a copy of a stream. */
    constructor (buf: Bytes, state: nat, bytesLeft: nat)
      requires state + bytesLeft <= |buf|
      ensures Valid() && this.buf == buf && this.state == state && this.bytesLeft == bytesLeft
      ensures Rest() == buf[state..state + bytesLeft]
    {
      this.buf, this.state, this.bytesLeft := buf, state, bytesLeft;
    }

    /** pb_read with buf_read. */
    method ReadBytes(count: nat) returns (ok: bool, b: Bytes)
      requires Valid()
      modifies this
      ensures Valid() && Limit() == old(Limit()) && (ok <==> count <= |old(Rest())|)
      ensures ok ==> b == old(Rest())[..count] && Rest() == old(Rest())[count..]
      ensures ok ==> state == old(state) + count && bytesLeft == old(bytesLeft) - count
    {
      if count == 0 {
        return true, [];
      }
      if bytesLeft < count {
        return false, [];
      }
      b := buf[state..state + count];
      state := state + count;
      bytesLeft := bytesLeft - count;
      return true, b;
    }

    /** pb_readbyte */
    method ReadByte() returns (ok: bool, byte: Byte)
      requires Valid()
      modifies this
      ensures Valid() && Limit() == old(Limit()) && (ok <==> old(Rest()) != [])
      ensures !ok ==> Rest() == old(Rest())
      ensures ok ==> byte == old(Rest())[0] && Rest() == old(Rest())[1..] && bytesLeft == old(bytesLeft) - 1
    {
      if bytesLeft == 0 {
        return false, 0;
      }
      byte := buf[state];
      state := state + 1;
      bytesLeft := bytesLeft - 1;
      return true, byte;
    }

    /** pb_decode_varint32_eof */
    method DecodeVarint32Eof() returns (ok: bool, value: nat, eof: bool)
      requires Valid()
      modifies this
      ensures Valid() && Limit() == old(Limit()) && (ok <==> ReadVarint32(old(Rest())).Got?)
      ensures ok ==> Got(value, Rest()) == ReadVarint32(old(Rest()))
      ensures eof <==> old(Rest()) == []
      ensures eof ==> Rest() == []
    {
      var byte;
      hide OrShifted;
      ok, byte := ReadByte();
      value, eof := 0, !ok;
      if !ok {
        return;
      }
      if byte < 0x80 {
        value := byte;
        return;
      }
      var bitpos: nat := 7;
      var result: nat := byte % 0x80;
      while byte >= 0x80
        invariant Valid() && Limit() == old(Limit()) && bitpos < 256 && result < U32
        invariant byte >= 0x80 ==> ReadVarint32(old(Rest())) == Varint32From(Rest(), bitpos, result)
        invariant byte < 0x80 ==> ReadVarint32(old(Rest())) == if bitpos == 35 && byte / 16 % 8 != 0 then Fail else Got(result, Rest())
        decreases byte >= 0x80, bytesLeft
      {
        ok, byte := ReadByte();
        if !ok {
          return;
        }
        if bitpos >= 32 {
          var signExtension := if bitpos < 63 then 0xFF else 0x01;
          if byte % 0x80 != 0 && (result < 0x8000_0000 || byte != signExtension) {
            return false, 0, eof;
          }
        } else {
          result := OrShifted(result, byte % 0x80, bitpos);
        }
        bitpos := (bitpos + 7) % 256;
      }
      if bitpos == 35 && byte / 16 % 8 != 0 {
        return false, 0, eof;
      }
      value := result;
    }

    /** pb_decode_varint */
    method DecodeVarint() returns (ok: bool, value: nat)
      requires Valid()
      modifies this
      ensures Valid() && Limit() == old(Limit()) && (ok <==> ReadVarint(old(Rest())).Got?)
      ensures ok ==> Got(value, Rest()) == ReadVarint(old(Rest()))
    {
      hide Or, Shl, VarintFrom, Continued;
      var bitpos: nat := 0;
      var result: nat := 0;
      var byte: Byte := 0x80;
      ghost var acc: nat, k: nat := 0, 0;
      ContinuedStarts(Rest());
      while byte >= 0x80
        invariant Valid() && Limit() == old(Limit()) && bitpos == 7 * k && k <= 10 && acc < Shl(1, 7 * k) && result == acc % U64
        invariant VarintFrom(old(Rest()), 0) == if byte >= 0x80 then Continued(acc, k, VarintFrom(Rest(), k)) else Got(acc, Rest())
        decreases byte >= 0x80, bytesLeft
      {
        ghost var b := Rest();
        if k == 10 || b == [] {
          VarintStops(acc, b, k);
        }
        if bitpos >= 64 {
          return false, 0;
        }
        ok, byte := ReadByte();
        if !ok {
          return false, 0;
        }
        VarintTurn(acc, k, b);
        result := Or(result, Shl(byte % 0x80, bitpos) % U64);
        bitpos := bitpos + 7;
        acc := acc + Shl(byte % 0x80, 7 * k);
        k := k + 1;
      }
      return true, result;
    }

    static lemma ContinuedStarts(b: Bytes)
      ensures Continued(0, 0, VarintFrom(b, 0)) == VarintFrom(b, 0) && Shl(1, 0) == 1
    {
    }

    /** pb_skip_varint */
    method SkipVarintBytes() returns (ok: bool)
      requires Valid()
      modifies this
      ensures Valid() && Limit() == old(Limit()) && (ok <==> SkipVarint(old(Rest())).Some?)
      ensures ok ==> Some(Rest()) == SkipVarint(old(Rest()))
    {
      var b := [0x80];
      while b[0] >= 0x80
        invariant Valid() && Limit() == old(Limit()) && |b| == 1
        invariant SkipVarint(old(Rest())) == if b[0] >= 0x80 then SkipVarint(Rest()) else Some(Rest())
        decreases b[0] >= 0x80, bytesLeft
      {
        ok, b := ReadBytes(1);
        if !ok {
          return;
        }
      }
      return true;
    }

    /** pb_decode_varint32 */
    method DecodeVarint32() returns (ok: bool, value: nat)
      requires Valid()
      modifies this
      ensures Valid() && Limit() == old(Limit()) && (ok <==> ReadVarint32(old(Rest())).Got?)
      ensures ok ==> Got(value, Rest()) == ReadVarint32(old(Rest()))
    {
      var eof;
      ok, value, eof := DecodeVarint32Eof();
    }

    /** pb_skip_field, and pb_skip_string in it. */
    method SkipField(wireType: nat) returns (ok: bool)
      requires Valid()
      modifies this
      ensures Valid() && Limit() == old(Limit()) && (ok <==> Skip(wireType, old(Rest())).Some?)
      ensures ok ==> Some(Rest()) == Skip(wireType, old(Rest()))
    {
      hide ReadVarint32, SkipVarint;
      var b;
      if wireType == WT_VARINT {
        ok := SkipVarintBytes();
      } else if wireType == WT_64BIT {
        ok, b := ReadBytes(8);
      } else if wireType == WT_STRING {
        var n;
        ok, n := DecodeVarint32();
        if ok {
          ok, b := ReadBytes(n);
        }
      } else if wireType == WT_32BIT {
        ok, b := ReadBytes(4);
      } else {
        ok := false;
      }
    }

    /** pb_decode_tag */
    method DecodeTag() returns (ok: bool, wireType: nat, number: nat, eof: bool)
      requires Valid()
      modifies this
      ensures Valid() && Limit() == old(Limit()) && (ok <==> ReadTag(old(Rest())).IsTag?)
      ensures ok ==> IsTag(wireType, number, Rest()) == ReadTag(old(Rest()))
      ensures !ok ==> (eof <==> ReadTag(old(Rest())).End?)
      ensures !ok && eof ==> End(Rest()) == ReadTag(old(Rest()))
    {
      hide ReadVarint32;
      var temp;
      wireType, number := 0, 0;
      ok, temp, eof := DecodeVarint32Eof();
      if !ok {
        return;
      }
      if temp == 0 {
        return false, 0, 0, true;
      }
      number := temp / 8;
      wireType := temp % 8;
    }

    /** pb_make_string_substream; until the substream is closed this stream keeps its place
        in front of it. */
    method MakeSubstream() returns (ok: bool, sub: IStream)
      requires Valid()
      modifies this
      ensures Valid() && (ok <==> Substream(old(Rest())).Split?)
      ensures !ok ==> Limit() == old(Limit())
      ensures ok ==>
        && fresh(sub) && sub.Valid() && sub.buf == buf
        && var split := Substream(old(Rest()));
           sub.Rest() == split.part
           && sub.state + sub.bytesLeft + bytesLeft <= |buf|
           && buf[sub.state + sub.bytesLeft..sub.state + sub.bytesLeft + bytesLeft] == split.rest
           && bytesLeft == |split.rest| && sub.Limit() + bytesLeft == old(Limit())
    {
      hide ReadVarint32;
      var size;
      ok, size := DecodeVarint32();
      if !ok || bytesLeft < size {
        sub := this;
        ok := false;
        return;
      }
      sub := new IStream(buf, state, size);
      bytesLeft := bytesLeft - size;
    }

    /** pb_close_string_substream: what is left of the substream is skipped. */
    method CloseSubstream(sub: IStream) returns (ok: bool)
      requires sub != this && sub.Valid() && sub.buf == buf && sub.state + sub.bytesLeft + bytesLeft <= |buf|
      modifies this, sub
      ensures ok && Valid() && bytesLeft == old(bytesLeft) && Limit() == old(sub.Limit() + bytesLeft)
      ensures Rest() == old(buf[sub.state + sub.bytesLeft..sub.state + sub.bytesLeft + bytesLeft])
    {
      ghost var end := sub.state + sub.bytesLeft;
      if sub.bytesLeft > 0 {
        var b;
        ok, b := sub.ReadBytes(sub.bytesLeft);
        assert |sub.Rest()| == 0;
      }
      state := sub.state;
      return true;
    }
  }

  // ---------- Values ----------

  /** The decoders of the numeric types. */
  method DecodeNumber(stream: IStream, t: LType) returns (ok: bool, n: int)
    requires stream.Valid() && Packable(t)
    modifies stream
    ensures stream.Valid() && stream.Limit() == old(stream.Limit()) && (ok <==> ReadNumber(t, old(stream.Rest())).Got?)
    ensures ok ==> Got(n, stream.Rest()) == ReadNumber(t, old(stream.Rest()))
  {
    hide ReadVarint, ReadVarint32, UnFixed;
    n := 0;
    var v;
    match t
    case Bool =>
      ok, v := stream.DecodeVarint32();
      n := if v != 0 then 1 else 0;
    case VarintT(size) =>
      ok, v := stream.DecodeVarint();
      if !ok || !IntSize(size) {
        return false, 0;
      }
      var svalue := if size == 8 then ToSigned(v, 8) else ToSigned(v, 4);
      n := ToSigned(svalue % U64, size);
      ok := n == svalue;
    case UVarintT(size) =>
      ok, v := stream.DecodeVarint();
      n := v;
      ok := ok && IntSize(size) && v < 2 * Half(size);
    case SVarintT(size) =>
      ok, v := stream.DecodeVarint();
      if !ok || !IntSize(size) {
        return false, 0;
      }
      n := UnZigZag(v);
      ok := ToSigned(n % U64, size) == n;
    case Fixed32T => ok, n := DecodeFixed(stream, 4);
    case Fixed64T => ok, n := DecodeFixed(stream, 8);
  }

  /** pb_decode_fixed32 and pb_decode_fixed64. */
  method DecodeFixed(stream: IStream, count: nat) returns (ok: bool, n: nat)
    requires stream.Valid() && count > 0
    modifies stream
    ensures stream.Valid() && stream.Limit() == old(stream.Limit()) && (ok <==> ReadFixed(old(stream.Rest()), count).Got?)
    ensures ok ==> Got(n, stream.Rest()) == ReadFixed(old(stream.Rest()), count)
  {
    var b;
    n := 0;
    ok, b := stream.ReadBytes(count);
    if ok {
      n := UnFixed(b);
    }
  }

  /** pb_dec_bytes, pb_dec_string and pb_dec_fixed_length_bytes. */
  method DecodeBlob(stream: IStream, t: LType) returns (ok: bool, x: Bytes)
    requires stream.Valid() && (t.BytesT? || t.StringT? || t.FixedBytesT?)
    modifies stream
    ensures stream.Valid() && stream.Limit() == old(stream.Limit()) && (ok <==> ReadBlob(t, old(stream.Rest())).Got?)
    ensures ok ==> Got(x, stream.Rest()) == ReadBlob(t, old(stream.Rest()))
  {
    hide ReadVarint32, CString;
    var size;
    x := [];
    ok, size := stream.DecodeVarint32();
    if !ok {
      return;
    }
    match t
    case BytesT(capacity) =>
      if size > capacity {
        return false, [];
      }
      ok, x := stream.ReadBytes(size);
    case StringT(dataSize) =>
      if size + 1 > dataSize {
        return false, [];
      }
      ok, x := stream.ReadBytes(size);
      x := CString(x);
    case FixedBytesT(dataSize) =>
      if size == 0 {
        return true, seq(dataSize, i => 0);
      }
      if size != dataSize {
        return false, [];
      }
      ok, x := stream.ReadBytes(size);
  }

  // ---------- Messages ----------

  /** The tags that a schema's descriptors may carry, at every depth. */
  ghost predicate GoodTags(s: Schema) {
    && (forall i :: 0 <= i < |s.fields| ==> s.fields[i].tag != 0)
    && (forall i, j :: 0 <= i < j < |s.fields| ==> s.fields[i].tag != s.fields[j].tag)
    && (forall i :: 0 <= i < |s.fields| ==> GoodType(s.fields[i].ltype))
  }

  ghost predicate GoodType(t: LType) {
    t.Sub? ==> GoodTags(t.schema)
  }

  /** pb_message_set_to_defaults */
  method SetToDefaults(s: Schema) returns (m: seq<Slot>)
    ensures m == Defaults(s)
    decreases s
  {
    m := [];
    for i := 0 to |s.fields|
      invariant |m| == i && forall k :: 0 <= k < i ==> m[k] == DefaultSlot(s.fields[k])
    {
      var slot := SetToDefault(s.fields[i]);
      m := m + [slot];
    }
  }

  /** pb_field_set_to_default */
  method SetToDefault(f: Field) returns (slot: Slot)
    ensures slot == DefaultSlot(f)
    decreases f
  {
    match f.rule
    case Required =>
      if f.ltype.Sub? {
        var m := SetToDefaults(f.ltype.schema);
        return [Msg(m)];
      }
      return [f.init];
    case Singular =>
      if f.ltype.Sub? {
        var m := SetToDefaults(f.ltype.schema);
        return [Msg(m)];
      }
      return [f.init];
    case _ => return [];
  }

  /** One of PB_DECODERS, by the ltype; m is the submessage that is there. */
  method DecodeValue(stream: IStream, t: LType, m: seq<Slot>) returns (ok: bool, v: Value)
    requires stream.Valid() && GoodType(t) && (t.Sub? ==> |m| == |t.schema.fields|)
    modifies stream
    ensures stream.Valid() && stream.Limit() == old(stream.Limit()) && (ok <==> ReadValue(t, m, old(stream.Rest())).Got?)
    ensures ok ==> Got(v, stream.Rest()) == ReadValue(t, m, old(stream.Rest()))
    decreases stream.bytesLeft, 0
  {
    hide ReadNumber, ReadBlob, ReadMessage, Substream;
    v := Num(0);
    match t
    case Sub(s) =>
      var part := stream;
      ok, part := stream.MakeSubstream();
      if !ok {
        return;
      }
      var slots;
      ok, slots := DecodeNoinit(part, s, m);
      var closed := stream.CloseSubstream(part);
      v := Msg(slots);
    case BytesT(_) => var x; ok, x := DecodeBlob(stream, t); v := Blob(x);
    case StringT(_) => var x; ok, x := DecodeBlob(stream, t); v := Blob(x);
    case FixedBytesT(_) => var x; ok, x := DecodeBlob(stream, t); v := Blob(x);
    case _ => var n; ok, n := DecodeNumber(stream, t); v := Num(n);
  }

  /** The packed case of decode_static_field: entries until the substream ends. */
  method DecodePacked(stream: IStream, t: LType, max: nat, items0: seq<Value>) returns (ok: bool, items: seq<Value>)
    requires stream.Valid() && Packable(t)
    modifies stream
    ensures stream.Valid() && stream.Limit() == old(stream.Limit())
    ensures ok <==> ReadPacked(t, max, items0, old(stream.Rest())).Some?
    ensures ok ==> Some(items) == ReadPacked(t, max, items0, old(stream.Rest()))
  {
    hide ReadNumber;
    items := items0;
    while stream.bytesLeft > 0 && |items| < max
      invariant stream.Valid() && stream.Limit() == old(stream.Limit())
      invariant ReadPacked(t, max, items0, old(stream.Rest())) == ReadPacked(t, max, items, stream.Rest())
      decreases stream.bytesLeft
    {
      ghost var b := stream.Rest();
      var n;
      ok, n := DecodeNumber(stream, t);
      if !ok {
        return;
      }
      items := items + [Num(n)];
    }
    ok := stream.bytesLeft == 0;
  }

  /** The array cases of decode_static_field. */
  method DecodeArray(stream: IStream, t: LType, max: nat, items0: seq<Value>, wireType: nat)
    returns (ok: bool, items: seq<Value>)
    requires stream.Valid() && GoodType(t)
    modifies stream
    ensures stream.Valid() && stream.Limit() == old(stream.Limit())
    ensures ok <==> ReadArray(t, max, items0, wireType, old(stream.Rest())).Got?
    ensures ok ==> Got(items, stream.Rest()) == ReadArray(t, max, items0, wireType, old(stream.Rest()))
    decreases stream.bytesLeft, 1
  {
    hide ReadArray, ReadPacked, ReadValue, Substream, Packable;
    items := items0;
    if wireType == WT_STRING && Packable(t) {
      ArrayPiece(t, max, items0, stream.Rest());
      var part := stream;
      ok, part := stream.MakeSubstream();
      if !ok {
        return;
      }
      ok, items := DecodePacked(part, t, max, items0);
      var closed := stream.CloseSubstream(part);
    } else {
      ArrayEntry(t, max, items0, wireType, stream.Rest());
      if |items| >= max {
        return false, items;
      }
      var m: seq<Slot> := [];
      if t.Sub? {
        m := SetToDefaults(t.schema);
      }
      var v;
      ok, v := DecodeValue(stream, t, m);
      items := items + [v];
    }
  }

  /** The two cases of the array decoder. */
  lemma ArrayPiece(t: LType, max: nat, items: seq<Value>, b: Bytes)
    requires Packable(t)
    ensures ReadArray(t, max, items, WT_STRING, b) ==
            if Substream(b).NoSplit? || ReadPacked(t, max, items, Substream(b).part).None? then Fail
            else Got(ReadPacked(t, max, items, Substream(b).part).value, Substream(b).rest)
  {
    hide ReadPacked, Substream;
  }

  lemma ArrayEntry(t: LType, max: nat, items: seq<Value>, wireType: nat, b: Bytes)
    requires wireType != WT_STRING || !Packable(t)
    ensures ReadArray(t, max, items, wireType, b) ==
            if |items| >= max || ReadValue(t, Base(t, []), b).Fail? then Fail
            else Got(items + [ReadValue(t, Base(t, []), b).value], ReadValue(t, Base(t, []), b).rest)
  {
    hide ReadValue, Base;
  }

  /** decode_static_field on field i. */
  method DecodeField(stream: IStream, s: Schema, slots0: seq<Slot>, i: nat, wireType: nat)
    returns (ok: bool, slots: seq<Slot>)
    requires stream.Valid() && GoodTags(s) && i < |s.fields| == |slots0|
    modifies stream
    ensures stream.Valid() && stream.Limit() == old(stream.Limit())
    ensures ok <==> ReadField(s, slots0, i, wireType, old(stream.Rest())).Step?
    ensures ok ==> Step(slots, stream.Rest()) == ReadField(s, slots0, i, wireType, old(stream.Rest()))
    decreases stream.bytesLeft, 2
  {
    hide ReadArray, ReadValue;
    slots := slots0;
    var f := s.fields[i];
    assert GoodType(f.ltype);
    match f.rule
    case Repeated(max) =>
      var items;
      ok, items := DecodeArray(stream, f.ltype, max, slots[i], wireType);
      slots := slots[i := items];
    case FixedCount(count) =>
      var items;
      ok, items := DecodeArray(stream, f.ltype, count, slots[i], wireType);
      slots := slots[i := items];
    case Oneof(_) =>
      var m := Base(f.ltype, slots[i]);
      slots := ClearArms(s, slots, f.rule);
      var v;
      ok, v := DecodeValue(stream, f.ltype, m);
      slots := slots[i := [v]];
    case _ =>
      var v;
      ok, v := DecodeValue(stream, f.ltype, Base(f.ltype, slots[i]));
      slots := slots[i := [v]];
  }

  // ---------- The loop over the fields ----------

  lemma DescMatches(s: Schema, i: nat, tag: nat)
    requires i < |s.fields|
    ensures Iter.Matches(Descs(s), i, tag) <==> s.fields[i].tag == tag
    ensures Descs(s)[i].htype == Iter.Required <==> s.fields[i].rule.Required?
  {
  }

  lemma DescTags(s: Schema)
    requires GoodTags(s)
    ensures Iter.TagsNonzero(Descs(s))
  {
  }

  /** What the iterator finds is the field with that tag. */
  lemma FoundIs(s: Schema, tag: nat, i: nat)
    requires GoodTags(s) && i < |s.fields| && Iter.Matches(Descs(s), i, tag)
    ensures FindFrom(s, tag, 0) == Some(i)
  {
    DescMatches(s, i, tag);
  }

  lemma NotFound(s: Schema, tag: nat)
    requires GoodTags(s) && (tag == 0 || !exists i: nat :: i < |Descs(s)| && Iter.Matches(Descs(s), i, tag))
    ensures FindFrom(s, tag, 0) == None
  {
    var r := FindFrom(s, tag, 0);
    if r.Some? {
      DescMatches(s, r.value, tag);
    }
  }

  lemma {:induction false} RequiredGrows(d: seq<Iter.FieldDesc>, i: nat, n: nat)
    requires i <= n <= |d|
    ensures Iter.RequiredBefore(d, i) <= Iter.RequiredBefore(d, n)
    decreases n
  {
    if i < n {
      RequiredGrows(d, i, n - 1);
    }
  }

  /** A required field's index is below the number of required fields. */
  lemma RequiredBelow(s: Schema, i: nat)
    requires i < |s.fields| && s.fields[i].rule.Required?
    ensures RequiredIndex(s, i) < RequiredIndex(s, |s.fields|)
  {
    RequiredGrows(Descs(s), i + 1, |s.fields|);
  }

  /** The bitmap holds the fields that the state says were seen. */
  ghost predicate Records(s: Schema, seen: Iter.FieldsSeen, st: State)
    reads seen, seen.words
  {
    && seen.Valid()
    && (forall r: nat :: seen.Has(r) <==> r in st.seen)
    && (forall r :: r in st.seen ==> r < RequiredIndex(s, |s.fields|))
  }

  /** The counter of the fixed-count array is the number of entries it got. */
  ghost predicate Counts(s: Schema, st: State, fixedSize: nat)
    requires |st.slots| == |s.fields|
  {
    st.fixed.Some? ==>
      && st.fixed.value < |s.fields| && s.fields[st.fixed.value].rule.FixedCount?
      && |st.slots[st.fixed.value]| == fixedSize
  }

  /** What pb_decode_noinit does before a field is decoded: note a required field, turn
      to another fixed-count array. */
  method TurnTo(s: Schema, iter: Iter.FieldIter, seen: Iter.FieldsSeen,
          slots0: seq<Slot>, fixed0: Option<nat>, size0: nat, ghost st: State)
    returns (ok: bool, slots: seq<Slot>, fixed: Option<nat>, size: nat, ghost st': State)
    requires iter.Valid() && iter.start == Descs(s) && iter.pos < |s.fields|
    requires |slots0| == |s.fields| && st.slots == slots0 && st.fixed == fixed0
    requires Records(s, seen, st) && Counts(s, st, size0)
    modifies seen.words
    ensures seen.Valid() && (ok <==> Turn(s, st, iter.pos).Some?)
    ensures ok ==> Turn(s, st, iter.pos) == Some(st') && st'.slots == slots && st'.fixed == fixed && |slots| == |slots0|
    ensures ok ==> Records(s, seen, st') && Counts(s, st', size)
    ensures ok && s.fields[iter.pos].rule.FixedCount? ==> fixed == Some(iter.pos)
  {
    slots, fixed, size, st' := slots0, fixed0, size0, st;
    var i := iter.pos;
    var f := s.fields[i];
    DescMatches(s, i, f.tag);
    if f.rule.FixedCount? {
      if fixed != Some(i) {
        if fixed.Some? && size != s.fields[fixed.value].rule.count {
          return false, slots, fixed, size, st';
        }
        fixed, size := Some(i), 0;
        slots := slots[i := []];
        st' := st.(slots := slots, fixed := fixed);
      }
    }
    if f.rule.Required? && iter.requiredFieldIndex < Iter.MAX_REQUIRED {
      RequiredBelow(s, i);
      seen.Mark(iter.requiredFieldIndex);
      st' := st.(seen := st.seen + {iter.requiredFieldIndex});
    }
    ok := true;
  }

  /** The checks at the end of pb_decode_noinit. */
  method CheckComplete(s: Schema, iter: Iter.FieldIter, seen: Iter.FieldsSeen,
          fixed: Option<nat>, size: nat, ghost st: State)
    returns (ok: bool)
    requires iter.Valid() && iter.start == Descs(s) && |st.slots| == |s.fields| && st.fixed == fixed
    requires Records(s, seen, st) && Counts(s, st, size)
    modifies iter
    ensures ok <==> Complete(s, st)
  {
    if fixed.Some? && size != s.fields[fixed.value].rule.count {
      assert !FixedDone(s, st);
      return false;
    }
    assert FixedDone(s, st);
    hide FixedDone, Descs, Counts, Records;
    var count := Iter.CountRequired(iter);
    assert count == RequiredIndex(s, |s.fields|);
    SeenBelow(s, seen, st);
    ok := seen.Check(count);
    AllSeen(s, seen, st, count);
  }

  lemma SeenBelow(s: Schema, seen: Iter.FieldsSeen, st: State)
    requires Records(s, seen, st)
    ensures seen.Valid() && forall r: nat :: seen.Has(r) ==> r < RequiredIndex(s, |s.fields|)
  {
  }

  lemma AllSeen(s: Schema, seen: Iter.FieldsSeen, st: State, count: nat)
    requires Records(s, seen, st)
    ensures (forall i: nat :: i < count && i < Iter.MAX_REQUIRED ==> seen.Has(i))
       <==> (forall r: nat :: r < count && r < Iter.MAX_REQUIRED ==> r in st.seen)
  {
    assert forall r: nat :: seen.Has(r) <==> r in st.seen;
  }

  /** The loop of pb_decode_noinit, one field at a time. */
  lemma ReadFieldsUnfolds(s: Schema, st: State, b: Bytes, i: nat, st': State)
    requires |st.slots| == |s.fields| && b != [] && ReadTag(b).IsTag?
    requires i < |s.fields| && FindFrom(s, ReadTag(b).number, 0) == Some(i) && Turn(s, st, i) == Some(st')
    ensures ReadFields(s, st, b) ==
              match ReadField(s, st'.slots, i, ReadTag(b).wireType, ReadTag(b).rest)
              case NoStep => NoLoop
              case Step(slots, rest) => ReadFields(s, st'.(slots := slots), rest)
  {
    hide ReadTag, FindFrom, Turn, ReadField;
  }

  lemma ReadFieldsFails(s: Schema, st: State, b: Bytes, i: nat)
    requires |st.slots| == |s.fields| && b != [] && ReadTag(b).IsTag?
    requires i < |s.fields| && FindFrom(s, ReadTag(b).number, 0) == Some(i) && Turn(s, st, i) == None
    ensures ReadFields(s, st, b) == NoLoop
  {
    hide ReadTag, FindFrom, Turn, ReadField;
  }

  lemma ReadFieldsSkips(s: Schema, st: State, b: Bytes)
    requires |st.slots| == |s.fields| && b != [] && ReadTag(b).IsTag? && FindFrom(s, ReadTag(b).number, 0) == None
    ensures var r := ReadTag(b);
            var rest := if s.fields == [] && r.number == 0 then SkipTerminator(r.rest) else Skip(r.wireType, r.rest);
            ReadFields(s, st, b) == if rest.Some? then ReadFields(s, st, rest.value) else NoLoop
  {
    hide ReadTag, FindFrom, Skip, SkipTerminator;
  }

  lemma ReadFieldsEnds(s: Schema, st: State, b: Bytes)
    requires |st.slots| == |s.fields|
    ensures b == [] ==> ReadFields(s, st, b) == Loop(st, b)
    ensures b != [] && ReadTag(b).End? ==> ReadFields(s, st, b) == Loop(st, ReadTag(b).rest)
    ensures b != [] && ReadTag(b).NoTag? ==> ReadFields(s, st, b) == NoLoop
  {
    hide ReadTag;
  }

  /** Decoding a field does not touch the fixed-count arrays of other fields. */
  lemma ReadFieldKeeps(s: Schema, slots: seq<Slot>, i: nat, wireType: nat, b: Bytes, k: nat)
    requires i < |s.fields| == |slots| && k < |slots| && k != i && s.fields[k].rule.FixedCount?
    ensures var r := ReadField(s, slots, i, wireType, b); r.Step? ==> r.slots[k] == slots[k]
  {
    hide ReadArray, ReadValue;
  }

  lemma RecordsAfter(s: Schema, seen: Iter.FieldsSeen, st: State, slots: seq<Slot>)
    requires Records(s, seen, st)
    ensures Records(s, seen, st.(slots := slots))
  {
  }

  lemma CountsAfter(s: Schema, st: State, i: nat, wireType: nat, b: Bytes, size: nat)
    requires i < |s.fields| == |st.slots| && Counts(s, st, size) && ReadField(s, st.slots, i, wireType, b).Step?
    requires s.fields[i].rule.FixedCount? ==> st.fixed == Some(i)
    ensures var slots := ReadField(s, st.slots, i, wireType, b).slots;
            |slots| == |st.slots| && Counts(s, st.(slots := slots), if st.fixed == Some(i) then |slots[i]| else size)
  {
    hide ReadField;
    if st.fixed.Some? && st.fixed.value != i {
      ReadFieldKeeps(s, st.slots, i, wireType, b, st.fixed.value);
    }
  }

  datatype Outcome = Continue | EndOfMessage | Failed

  /** What holds between the turns of the loop. */
  ghost predicate Midway(s: Schema, iter: Iter.FieldIter, seen: Iter.FieldsSeen,
          slots: seq<Slot>, fixed: Option<nat>, size: nat, st: State)
    reads iter, seen, seen.words
  {
    && iter.Valid() && iter.start == Descs(s)
    && |slots| == |s.fields| && st.slots == slots && st.fixed == fixed
    && Records(s, seen, st) && Counts(s, st, size)
  }

  /** One turn of the loop of pb_decode_noinit on a field that was found. */
  method DecodeFound(stream: IStream, s: Schema, iter: Iter.FieldIter, seen: Iter.FieldsSeen, wireType: nat,
          slots0: seq<Slot>, fixed0: Option<nat>, size0: nat, ghost st: State, ghost b: Bytes)
    returns (outcome: Outcome, slots: seq<Slot>, fixed: Option<nat>, size: nat, ghost st': State)
    requires stream.Valid() && GoodTags(s) && Midway(s, iter, seen, slots0, fixed0, size0, st) && iter.pos < |s.fields|
    requires b != [] && ReadTag(b).IsTag? && ReadTag(b).wireType == wireType && ReadTag(b).rest == stream.Rest()
    requires FindFrom(s, ReadTag(b).number, 0) == Some(iter.pos)
    modifies stream, seen.words
    ensures stream.Valid() && stream.Limit() == old(stream.Limit()) && !outcome.EndOfMessage?
    ensures outcome.Failed? ==> ReadFields(s, st, b) == NoLoop
    ensures outcome.Continue? ==> stream.bytesLeft <= old(stream.bytesLeft)
    ensures outcome.Continue? ==> Midway(s, iter, seen, slots, fixed, size, st')
    ensures outcome.Continue? ==> ReadFields(s, st, b) == ReadFields(s, st', stream.Rest())
    decreases stream.bytesLeft, 3
  {
    hide ReadFields, ReadTag, ReadField, Turn, FindFrom, GoodTags, Descs, RequiredIndex, Records, Counts;
    var ok;
    ok, slots, fixed, size, st' := TurnTo(s, iter, seen, slots0, fixed0, size0, st);
    if !ok {
      ReadFieldsFails(s, st, b, iter.pos);
      return Failed, slots, fixed, size, st';
    }
    ReadFieldsUnfolds(s, st, b, iter.pos, st');
    ghost var left := stream.Rest();
    ok, slots := DecodeField(stream, s, slots, iter.pos, wireType);
    if !ok {
      return Failed, slots, fixed, size, st';
    }
    CountsAfter(s, st', iter.pos, wireType, left, size);
    RecordsAfter(s, seen, st', slots);
    st' := st'.(slots := slots);
    if fixed == Some(iter.pos) {
      size := |slots[iter.pos]|;
    }
    outcome := Continue;
  }

  /** One turn of the loop of pb_decode_noinit. */
  method DecodeOne(stream: IStream, s: Schema, iter: Iter.FieldIter, seen: Iter.FieldsSeen,
          slots0: seq<Slot>, fixed0: Option<nat>, size0: nat, ghost st: State)
    returns (outcome: Outcome, slots: seq<Slot>, fixed: Option<nat>, size: nat, ghost st': State)
    requires stream.Valid() && stream.bytesLeft > 0 && GoodTags(s) && Midway(s, iter, seen, slots0, fixed0, size0, st)
    modifies stream, iter, seen.words
    ensures stream.Valid() && stream.Limit() == old(stream.Limit())
    ensures !outcome.Failed? ==> Midway(s, iter, seen, slots, fixed, size, st')
    ensures outcome.Failed? ==> ReadFields(s, st, old(stream.Rest())) == NoLoop
    ensures outcome.EndOfMessage? ==> ReadFields(s, st, old(stream.Rest())) == Loop(st', stream.Rest())
    ensures outcome.Continue? ==> stream.bytesLeft < old(stream.bytesLeft)
    ensures outcome.Continue? ==> ReadFields(s, st, old(stream.Rest())) == ReadFields(s, st', stream.Rest())
    decreases stream.bytesLeft, 4
  {
    hide ReadFields, ReadTag, ReadField, Turn, FindFrom, Skip, GoodTags, Descs, RequiredIndex, SkipTerminator, Records, Counts;
    outcome, slots, fixed, size, st' := Failed, slots0, fixed0, size0, st;
    ghost var b := stream.Rest();
    ReadFieldsEnds(s, st, b);
    var ok, wireType, tag, eof := stream.DecodeTag();
    if !ok {
      return if eof then EndOfMessage else Failed, slots, fixed, size, st';
    }
    var found := iter.Find(tag);
    if found && |s.fields| > 0 {
      FoundIs(s, tag, iter.pos);
      outcome, slots, fixed, size, st' := DecodeFound(stream, s, iter, seen, wireType, slots, fixed, size, st, b);
      return;
    }
    NotFound(s, tag);
    ReadFieldsSkips(s, st, b);
    if found {
      ok := SkipAsBool(stream);
    } else {
      ok := stream.SkipField(wireType);
    }
    outcome := if ok then Continue else Failed;
  }

  /** pb_decode_noinit */
  method DecodeNoinit(stream: IStream, s: Schema, m: seq<Slot>) returns (ok: bool, slots: seq<Slot>)
    requires stream.Valid() && GoodTags(s) && |m| == |s.fields|
    modifies stream
    ensures stream.Valid() && stream.Limit() == old(stream.Limit())
    ensures ok <==> ReadMessage(s, m, old(stream.Rest())).Some?
    ensures ok ==> Some(slots) == ReadMessage(s, m, old(stream.Rest()))
    decreases stream.bytesLeft, 5
  {
    hide ReadFields, GoodTags, Complete, Descs, RequiredIndex;
    DescTags(s);
    var iter := new Iter.FieldIter(Descs(s), 0);
    var seen := new Iter.FieldsSeen();
    var fixed: Option<nat>, size: nat := None, 0;
    slots := m;
    ghost var st := State(m, None, {});
    var outcome := Continue;
    while stream.bytesLeft > 0
      invariant stream.Valid() && stream.Limit() == old(stream.Limit())
      invariant fresh(iter) && fresh(seen) && fresh(seen.words) && Midway(s, iter, seen, slots, fixed, size, st)
      invariant ReadFields(s, State(m, None, {}), old(stream.Rest())) == ReadFields(s, st, stream.Rest())
      decreases stream.bytesLeft
    {
      outcome, slots, fixed, size, st := DecodeOne(stream, s, iter, seen, slots, fixed, size, st);
      if outcome.Failed? {
        return false, slots;
      }
      if outcome.EndOfMessage? {
        break;
      }
    }
    ReadFieldsEnds(s, st, []);
    ok := CheckComplete(s, iter, seen, fixed, size, st);
  }

  /** The bool decoder on the terminator of an empty message's descriptors. */
  method SkipAsBool(stream: IStream) returns (ok: bool)
    requires stream.Valid()
    modifies stream
    ensures stream.Valid() && stream.Limit() == old(stream.Limit())
    ensures ok <==> SkipTerminator(old(stream.Rest())).Some?
    ensures ok ==> Some(stream.Rest()) == SkipTerminator(old(stream.Rest()))
  {
    hide ReadVarint32;
    var n;
    ok, n := DecodeNumber(stream, Bool);
  }

  /** pb_decode */
  method DecodeMessage(stream: IStream, s: Schema) returns (ok: bool, slots: seq<Slot>)
    requires stream.Valid() && GoodTags(s)
    modifies stream
    ensures stream.Valid()
    ensures ok <==> Decode(s, old(stream.Rest())).Some?
    ensures ok ==> Some(slots) == Decode(s, old(stream.Rest()))
  {
    var m := SetToDefaults(s);
    ok, slots := DecodeNoinit(stream, s, m);
  }
}
