/** nanopb's encoder: an output stream that writes to a buffer or only counts, and the
    functions of pb_encode.c on it. */
module NanopbEncode {
  import opened Wrappers
  import opened LittleEndian
  import opened NanopbWire
  import opened NanopbMessage

  /** What an output stream holds: whether it only counts, its room, and the buffer with
      the place of the next byte. */
  datatype Out = Out(sizing: bool, max: nat, written: nat, state: nat, buffer: Bytes)

  ghost predicate Sound(o: Out) {
    o.sizing || (o.written <= o.max && o.state + o.max - o.written <= |o.buffer|)
  }

  /** The stream once b is written. */
  ghost function Wrote(o: Out, b: Bytes): Out
    requires Sound(o)
  {
    if o.sizing then o.(written := o.written + |b|)
    else if o.written + |b| <= o.max then
      o.(written := o.written + |b|, state := o.state + |b|, buffer := o.buffer[..o.state] + b + o.buffer[o.state + |b|..])
    else o
  }

  ghost predicate Takes(o: Out, b: Bytes) {
    o.sizing || o.written + |b| <= o.max
  }

  /** The outcome of writing b, if there is such a b: it succeeds exactly if there is
      room, and then the bytes, and no others, are in the buffer. */
  ghost predicate Puts(o: Out, o': Out, ok: bool, b: Option<Bytes>) {
    && Sound(o)
    && (ok <==> b.Some? && Takes(o, b.value))
    && (ok ==> o' == Wrote(o, b.value) && Sound(o'))
  }

  /** Writing one thing and then, if that went well, another. */
  lemma PutsThen(o: Out, o1: Out, o2: Out, ok1: bool, ok: bool, a: Option<Bytes>, b: Option<Bytes>)
    requires Puts(o, o1, ok1, a)
    requires if ok1 then Puts(o1, o2, ok, b) else !ok
    ensures Puts(o, o2, ok, Then(a, b))
  {
    if ok1 && b.Some? {
      var x, y := a.value, b.value;
      if !o.sizing && o.written + |x + y| <= o.max {
        assert o1.buffer[..o1.state] == o.buffer[..o.state] + x;
        assert o1.buffer[o1.state + |y|..] == o.buffer[o.state + |x + y|..];
        assert o.buffer[..o.state] + x + y + o.buffer[o.state + |x + y|..] == o.buffer[..o.state] + (x + y) + o.buffer[o.state + |x + y|..];
      }
    }
  }

  lemma PutsNothing(o: Out)
    requires Sound(o)
    ensures Puts(o, o, true, Some([]))
  {
    if !o.sizing {
      assert o.buffer[..o.state] + [] + o.buffer[o.state..] == o.buffer;
    }
  }

  /** All bytes of a varint, the last of which still has its top bit set. */
  ghost predicate LastMarked(value: nat, out: Bytes) {
    out != [] && out[|out| - 1] >= 0x80 && Varint(value) == out[..|out| - 1] + [out[|out| - 1] - 0x80]
  }

  lemma Marked(value: nat, out: Bytes, last: nat)
    requires last < 0x80 && Varint(value) == out + [last]
    ensures LastMarked(value, out + [last + 0x80])
  {
    hide Varint;
    assert (out + [last + 0x80])[..|out|] == out;
  }

  lemma Unmarked(value: nat, out: Bytes)
    requires LastMarked(value, out)
    ensures out != [] && out[|out| - 1] >= 0x80 && out[|out| - 1 := out[|out| - 1] - 0x80] == Varint(value)
  {
    hide Varint;
  }

  lemma NoneYet(value: nat)
    requires value < U64
    ensures |Varint(value)| <= 10 && [] + Varint(value) == Varint(value)
  {
    hide Varint;
    VarintRoundTrip(value, []);
  }

  lemma VarintUnfolds(v: nat)
    ensures v < 0x80 ==> Varint(v) == [v]
    ensures v >= 0x80 ==> Varint(v) == [v % 0x80 + 0x80] + Varint(v / 0x80)
  {
  }

  /** One turn of the loop of pb_encode_varint. */
  lemma VarintStep(value: nat, out: Bytes, v: nat)
    requires Varint(value) == out + Varint(v)
    ensures |out| < |Varint(value)|
    ensures v < 0x80 ==> LastMarked(value, out + [v + 0x80])
    ensures v >= 0x80 ==> Varint(value) == out + [v % 0x80 + 0x80] + Varint(v / 0x80)
  {
    hide *;
    VarintUnfolds(v);
    if v < 0x80 {
      Marked(value, out, v);
    } else {
      Regroup(out, [v % 0x80 + 0x80], Varint(v / 0x80));
    }
  }

  lemma FixedUnfolds(done: Bytes, v: nat, n: nat)
    requires n > 0
    ensures done + Fixed(v, n) == done + [v % 0x100] + Fixed(v / 0x100, n - 1)
  {
  }

  lemma FixedEnds(done: Bytes, v: nat)
    ensures done + Fixed(v, 0) == done
  {
  }

  lemma OneMoreByte(was: Bytes, dest: nat, b: Bytes, i: nat)
    requires i < |b| && dest + |b| <= |was|
    ensures (was[..dest] + b[..i] + was[dest + i..])[dest + i := b[i]] == was[..dest] + b[..i + 1] + was[dest + i + 1..]
  {
  }

  class OStream {
    const sizing: bool  // no callback
    const maxSize: nat
    const buf: array<Byte>
    var bytesWritten: nat
    var state: nat  // where in buf the next byte goes

    ghost function Now(): Out
      reads this, buf
    {
      Out(sizing, maxSize, bytesWritten, state, buf[..])
    }

    /** pb_ostream_from_buffer, and PB_OSTREAM_SIZING. */
    constructor (buf: array<Byte>, sizing: bool, start: nat, maxSize: nat)
      requires sizing || start + maxSize <= buf.Length
      ensures this.buf == buf && this.sizing == sizing && this.maxSize == maxSize
      ensures bytesWritten == 0 && state == start
    {
      this.buf, this.sizing, this.maxSize := buf, sizing, maxSize;
      bytesWritten, state := 0, start;
    }

    /** buf_write */
    method BufWrite(b: Bytes)
      requires state + |b| <= buf.Length
      modifies this`state, buf
      ensures state == old(state) + |b|
      ensures buf[..] == old(buf[..])[..old(state)] + b + old(buf[..])[state..]
    {
      var dest := state;
      ghost var was := buf[..];
      state := dest + |b|;
      for i := 0 to |b|
        invariant buf[..] == was[..dest] + b[..i] + was[dest + i..]
        modifies buf
      {
        buf[dest + i] := b[i];
        OneMoreByte(was, dest, b, i);
      }
    }

    /** pb_write with buf_write; a null source, which only sizing streams are given, has a
        length only. */
    method Write(b: Bytes) returns (ok: bool)
      requires Sound(Now())
      modifies this, buf
      ensures Puts(old(Now()), Now(), ok, Some(b))
    {
      if |b| > 0 && !sizing {
        if bytesWritten + |b| > maxSize {
          return false;
        }
        BufWrite(b);
      }
      bytesWritten := bytesWritten + |b|;
      return true;
    }

    /** pb_write of a null source, on a sizing stream. */
    method Count(n: nat, ghost b: Bytes) returns (ok: bool)
      requires sizing && n == |b|
      modifies this
      ensures Puts(old(Now()), Now(), ok, Some(b))
    {
      bytesWritten := bytesWritten + n;
      return true;
    }

    /** pb_encode_varint */
    method EncodeVarint(value: nat) returns (ok: bool)
      requires Sound(Now()) && value < U64
      modifies this, buf
      ensures Puts(old(Now()), Now(), ok, Some(Varint(value)))
    {
      if value <= 0x7F {
        ok := Write([value]);
        return;
      }
      var buffer, i := FillVarint(value);
      ok := Write(buffer[..i]);
    }

    /** The loop of pb_encode_varint: the bytes of a number that takes more than one. */
    static method FillVarint(value: nat) returns (buffer: array<Byte>, i: nat)
      requires 0x7F < value < U64
      ensures fresh(buffer) && i <= buffer.Length == 10 && buffer[..i] == Varint(value)
    {
      buffer := new Byte[10](_ => 0);
      i := 0;
      var v: nat := value;
      ghost var out: Bytes := [];
      hide Varint, LastMarked;
      NoneYet(value);
      while v > 0
        invariant i == |out| <= 10 && buffer[..i] == out
        invariant v > 0 ==> Varint(value) == out + Varint(v)
        invariant v == 0 ==> LastMarked(value, out)
        decreases v
      {
        VarintStep(value, out, v);
        var byte := v % 0x80 + 0x80;
        buffer[i] := byte;
        assert buffer[..i] == out;
        out := out + [byte];
        v := v / 0x80;
        i := i + 1;
      }
      Unmarked(value, out);
      assert buffer[i - 1] == out[i - 1];
      buffer[i - 1] := buffer[i - 1] - 0x80;
      assert buffer[..i] == out[i - 1 := out[i - 1] - 0x80];
    }

    /** pb_encode_svarint */
    method EncodeSvarint(value: int) returns (ok: bool)
      requires Sound(Now()) && -I64 <= value < I64
      modifies this, buf
      ensures Puts(old(Now()), Now(), ok, Some(Varint(ZigZag(value))))
    {
      ok := EncodeVarint(ZigZag(value));
    }

    /** pb_encode_fixed32 and pb_encode_fixed64: n bytes. */
    method EncodeFixed(value: nat, n: nat) returns (ok: bool)
      requires Sound(Now())
      modifies this, buf
      ensures Puts(old(Now()), Now(), ok, Some(Fixed(value, n)))
    {
      var bytes := new Byte[n](_ => 0);
      var v := value;
      ghost var done: Bytes := [];
      hide Fixed, Wrote, Sound;
      assert [] + Fixed(value, n) == Fixed(value, n);
      for i := 0 to n
        invariant bytes[..i] == done && Fixed(value, n) == done + Fixed(v, n - i) && Now() == old(Now())
      {
        FixedUnfolds(done, v, n - i);
        bytes[i] := v % 0x100;
        done := done + [v % 0x100];
        v := v / 0x100;
      }
      FixedEnds(done, v);
      assert bytes[..n] == bytes[..];
      ok := Write(bytes[..]);
    }

    /** pb_encode_tag */
    method EncodeTag(wireType: nat, number: nat) returns (ok: bool)
      requires Sound(Now()) && wireType < 8 && number < U32
      modifies this, buf
      ensures Puts(old(Now()), Now(), ok, Some(Tag(wireType, number)))
    {
      ok := EncodeVarint(number * 8 + wireType);
    }

    /** pb_encode_string */
    method EncodeString(b: Bytes) returns (ok: bool)
      requires Sound(Now())
      modifies this, buf
      ensures Puts(old(Now()), Now(), ok, Some(Delimited(b)))
    {
      ghost var o := Now();
      hide Varint, Wrote, Sound;
      ok := EncodeVarint(|b| % U64);
      ghost var ok1, o1 := ok, Now();
      if ok {
        ok := Write(b);
      }
      PutsThen(o, o1, Now(), ok1, ok, Some(Varint(|b| % U64)), Some(b));
    }

    /** The encoders of the numeric types. */
    method EncodeNumber(t: LType, n: int) returns (ok: bool)
      requires Sound(Now()) && Packable(t) && ShapedNumber(t, n)
      modifies this, buf
      ensures Puts(old(Now()), Now(), ok, NumberBytes(t, n))
    {
      match t
      case Bool => ok := EncodeVarint(if n != 0 then 1 else 0);
      case VarintT(size) => if IntSize(size) { ok := EncodeVarint(n % U64); } else { ok := false; }
      case UVarintT(size) => if IntSize(size) { ok := EncodeVarint(n % U64); } else { ok := false; }
      case SVarintT(size) => if IntSize(size) { ok := EncodeSvarint(n); } else { ok := false; }
      case Fixed32T => ok := EncodeFixed(n % U32, 4);
      case Fixed64T => ok := EncodeFixed(n % U64, 8);
    }
  }

  // ---------- The types of C ----------

  predicate ShapedNumber(t: LType, n: int) {
    t.SVarintT? ==> -I64 <= n < I64
  }

  /** A value of the C type of the field, whether it fits the schema or not. */
  ghost predicate ShapedValue(t: LType, v: Value)
    decreases t, 0
  {
    match t
    case BytesT(_) => v.Blob?
    case StringT(dataSize) => v.Blob? && |v.b| <= dataSize
    case FixedBytesT(dataSize) => v.Blob? && |v.b| == dataSize
    case Sub(s) => v.Msg? && Shaped(s, v.slots)
    case _ => v.Num? && ShapedNumber(t, v.n)
  }

  ghost predicate ShapedSlot(f: Field, slot: Slot)
    decreases f, 0
  {
    && f.tag < U32
    && (f.rule.Repeated? || FitsCount(f.rule, |slot|))
    && forall k :: 0 <= k < |slot| ==> ShapedValue(f.ltype, slot[k])
  }

  /** A struct of the C type of the message. */
  ghost predicate Shaped(s: Schema, m: seq<Slot>)
    decreases s, 0
  {
    |m| == |s.fields| && forall i :: 0 <= i < |m| ==> ShapedSlot(s.fields[i], m[i])
  }

  // ---------- Fields and messages ----------

  /** pb_check_proto3_default_value */
  method CheckDefault(s: Schema, m: seq<Slot>, i: nat) returns (d: bool)
    requires Shaped(s, m) && i < |m|
    ensures d == IsDefault(s, m, i)
    decreases s
  {
    var f := s.fields[i];
    assert ShapedSlot(f, m[i]);
    match f.rule
    case Required => return false;
    case Repeated(_) => return m[i] == [];
    case FixedCount(_) => return false;
    case Oneof(_) => return forall j :: 0 <= j < |m| && s.fields[j].rule == f.rule ==> m[j] == [];
    case Optional => return m[i] == [];
    case Singular =>
      var v := m[i][0];
      assert ShapedValue(f.ltype, v);
      match f.ltype {
        case BytesT(_) => return v.b == [];
        case StringT(_) => return v.b == [];
        case FixedBytesT(dataSize) => return dataSize == 0;
        case Sub(sub) =>
          assert Shaped(sub, v.slots);
          for k := 0 to |v.slots|
            invariant forall j :: 0 <= j < k ==> IsDefault(sub, v.slots, j)
          {
            var x := CheckDefault(sub, v.slots, k);
            if !x {
              return false;
            }
          }
          assert IsZero(f.ltype, v);
          return true;
        case _ => return v.n == 0;
      }
  }

  /** pb_encode_tag_for_field */
  method EncodeTagForField(stream: OStream, f: Field) returns (ok: bool)
    requires Sound(stream.Now()) && f.tag < U32
    modifies stream, stream.buf
    ensures Puts(old(stream.Now()), stream.Now(), ok, Some(TagFor(f)))
  {
    ok := stream.EncodeTag(WireType(f.ltype), f.tag);
  }

  /** One of PB_ENCODERS, by the ltype. */
  method EncodeValue(stream: OStream, t: LType, v: Value) returns (ok: bool)
    requires Sound(stream.Now()) && ShapedValue(t, v)
    modifies stream, stream.buf
    ensures Puts(old(stream.Now()), stream.Now(), ok, ValueBytes(t, v))
    decreases t, 0
  {
    hide Wrote, Sound, NumberBytes, Delimited, MessageBytes;
    match t
    case BytesT(capacity) =>
      if |v.b| > capacity {
        return false;
      }
      ok := stream.EncodeString(v.b);
    case StringT(_) => ok := stream.EncodeString(v.b);
    case FixedBytesT(_) => ok := stream.EncodeString(v.b);
    case Sub(s) => ok := EncodeSubmessage(stream, s, v.slots);
    case _ => ok := stream.EncodeNumber(t, v.n);
  }

  /** What a substream of the right size wrote is what its stream wrote. */
  lemma SubstreamWrote(o: Out, sub': Out, ok: bool, b: Bytes)
    requires Sound(o) && !o.sizing && o.written + |b| <= o.max
    requires Puts(Out(false, |b|, 0, o.state, o.buffer), sub', ok, Some(b))
    ensures ok && sub'.written == |b|
    ensures Puts(o, Out(false, o.max, o.written + |b|, sub'.state, sub'.buffer), true, Some(b))
  {
  }

  /** pb_encode_submessage: once to find the size, once to write. */
  method EncodeSubmessage(stream: OStream, s: Schema, m: seq<Slot>) returns (ok: bool)
    requires Sound(stream.Now()) && Shaped(s, m)
    modifies stream, stream.buf
    ensures Puts(old(stream.Now()), stream.Now(), ok, match MessageBytes(s, m) case None => None case Some(b) => Some(Delimited(b)))
    decreases s, 3
  {
    ghost var o := stream.Now();
    hide Varint, MessageBytes, Wrote;
    var substream := new OStream(stream.buf, true, 0, 0);
    ok := EncodeMessage(substream, s, m);
    if !ok {
      return;
    }
    ghost var b := MessageBytes(s, m).value;
    var size := substream.bytesWritten;
    assert size == |b| && stream.Now() == o;
    ok := stream.EncodeVarint(size % U64);
    if !ok {
      PutsThen(o, stream.Now(), stream.Now(), false, false, Some(Varint(size % U64)), Some(b));
      return;
    }
    ghost var o1 := stream.Now();
    if stream.sizing {
      ok := stream.Count(size, b);
      PutsThen(o, o1, stream.Now(), true, ok, Some(Varint(size % U64)), Some(b));
      return;
    }
    if stream.bytesWritten + size > stream.maxSize {
      PutsThen(o, o1, stream.Now(), true, false, Some(Varint(size % U64)), Some(b));
      return false;
    }
    substream := new OStream(stream.buf, false, stream.state, size);
    var status := EncodeMessage(substream, s, m);
    SubstreamWrote(o1, substream.Now(), status, b);
    stream.bytesWritten := stream.bytesWritten + substream.bytesWritten;
    stream.state := substream.state;
    assert status && substream.bytesWritten == size;
    if substream.bytesWritten != size {
      return false;
    }
    PutsThen(o, o1, stream.Now(), true, true, Some(Varint(size % U64)), Some(b));
    return status;
  }

  /** All entries, one after the other, on a sizing or a writing stream. */
  method EncodeItems(stream: OStream, t: LType, items: seq<Value>) returns (ok: bool)
    requires Sound(stream.Now()) && Packable(t) && forall k :: 0 <= k < |items| ==> ShapedValue(t, items[k])
    modifies stream, stream.buf
    ensures Puts(old(stream.Now()), stream.Now(), ok, PackedBytes(t, items))
  {
    ghost var o := stream.Now();
    hide Wrote, Takes, Sound, Puts, NumberBytes;
    StartsPacked(o, t);
    for i := 0 to |items|
      invariant Sound(stream.Now()) && Puts(o, stream.Now(), true, PackedBytes(t, items[..i]))
    {
      ghost var o1 := stream.Now();
      assert ShapedValue(t, items[i]);
      ok := stream.EncodeNumber(t, items[i].n);
      PackedGrows(o, o1, stream.Now(), ok, t, items, i);
      if !ok {
        PackedFails(o, stream.Now(), t, items, i + 1);
        return false;
      }
      StillSound(o1, stream.Now(), NumberBytes(t, items[i].n));
    }
    assert items[..|items|] == items;
    return true;
  }

  lemma StillSound(o: Out, o': Out, b: Option<Bytes>)
    requires Puts(o, o', true, b)
    ensures Sound(o')
  {
  }

  lemma StartsPacked(o: Out, t: LType)
    requires Sound(o)
    ensures Puts(o, o, true, PackedBytes(t, []))
  {
    PutsNothing(o);
  }

  lemma PackedGrows(o: Out, o1: Out, o2: Out, ok: bool, t: LType, items: seq<Value>, i: nat)
    requires i < |items| && Packable(t) && items[i].Num?
    requires Puts(o, o1, true, PackedBytes(t, items[..i])) && Puts(o1, o2, ok, NumberBytes(t, items[i].n))
    ensures Puts(o, o2, ok, PackedBytes(t, items[..i + 1]))
  {
    hide Puts, NumberBytes;
    assert items[..i + 1][..i] == items[..i];
    assert ValueBytes(t, items[i]) == NumberBytes(t, items[i].n);
    PutsThen(o, o1, o2, true, ok, PackedBytes(t, items[..i]), NumberBytes(t, items[i].n));
  }

  /** Once an entry fails, so does the array. */
  lemma {:induction false} PackedFails(o: Out, o': Out, t: LType, items: seq<Value>, i: nat)
    requires i <= |items| && Puts(o, o', false, PackedBytes(t, items[..i]))
    ensures Puts(o, o', false, PackedBytes(t, items))
    decreases |items| - i
  {
    if i < |items| {
      assert items[..i + 1][..i] == items[..i];
      PutsThen(o, o', o', false, false, PackedBytes(t, items[..i]), ValueBytes(t, items[i]));
      PackedFails(o, o', t, items, i + 1);
    } else {
      assert items[..i] == items;
    }
  }

  /** The size that is computed without a pass over the entries. */
  lemma {:induction false} FixedPackedSize(t: LType, items: seq<Value>)
    requires (t.Fixed32T? || t.Fixed64T?) && forall k :: 0 <= k < |items| ==> items[k].Num?
    ensures PackedBytes(t, items).Some?
    ensures |PackedBytes(t, items).value| == (if t.Fixed32T? then 4 else 8) * |items|
  {
    if items != [] {
      FixedPackedSize(t, items[..|items| - 1]);
    }
  }

  /** The size of the packed entries, or that there is none. */
  method PackedSize(stream: OStream, t: LType, items: seq<Value>) returns (ok: bool, size: nat)
    requires Packable(t) && forall k :: 0 <= k < |items| ==> ShapedValue(t, items[k])
    ensures ok <==> PackedBytes(t, items).Some?
    ensures ok ==> size == |PackedBytes(t, items).value|
  {
    if t.Fixed32T? || t.Fixed64T? {
      forall k | 0 <= k < |items| ensures items[k].Num? {
        assert ShapedValue(t, items[k]);
      }
      FixedPackedSize(t, items);
      return true, (if t.Fixed32T? then 4 else 8) * |items|;
    }
    var none := new Byte[0];
    var sizestream := new OStream(none, true, 0, 0);
    ok := EncodeItems(sizestream, t, items);
    size := sizestream.bytesWritten;
  }

  /** The packed case of encode_array. */
  method EncodePacked(stream: OStream, f: Field, items: seq<Value>) returns (ok: bool)
    requires Sound(stream.Now()) && f.tag < U32 && Packable(f.ltype)
    requires forall k :: 0 <= k < |items| ==> ShapedValue(f.ltype, items[k])
    modifies stream, stream.buf
    ensures Puts(old(stream.Now()), stream.Now(), ok,
                 match PackedBytes(f.ltype, items) case None => None case Some(b) => Some(Tag(WT_STRING, f.tag) + Delimited(b)))
  {
    ghost var o := stream.Now();
    hide Wrote, Takes, Tag, PackedBytes, Varint;
    ok := stream.EncodeTag(WT_STRING, f.tag);
    ghost var ok1, o1, packed := ok, stream.Now(), PackedBytes(f.ltype, items);
    if !ok {
      if packed.Some? {
        TagThenData(o, o1, o1, o1, false, false, false, f, packed);
      }
      return false;
    }
    var sized, size := PackedSize(stream, f.ltype, items);
    if !sized {
      return false;
    }
    ok := stream.EncodeVarint(size % U64);
    ghost var o2 := stream.Now();
    if !ok {
      TagThenData(o, o1, o2, o2, true, false, false, f, packed);
      return false;
    }
    if stream.sizing {
      ok := stream.Count(size, packed.value);
    } else {
      ok := EncodeItems(stream, f.ltype, items);
    }
    TagThenData(o, o1, o2, stream.Now(), true, true, ok, f, packed);
  }

  /** Tag, size and entries. */
  lemma TagThenData(o: Out, o1: Out, o2: Out, o3: Out, ok1: bool, ok2: bool, ok: bool, f: Field, packed: Option<Bytes>)
    requires packed.Some? && Puts(o, o1, ok1, Some(Tag(WT_STRING, f.tag)))
    requires if ok1 then Puts(o1, o2, ok2, Some(Varint(|packed.value| % U64))) else !ok2
    requires if ok2 then Puts(o2, o3, ok, packed) else !ok
    ensures Puts(o, o3, ok, Some(Tag(WT_STRING, f.tag) + Delimited(packed.value)))
  {
    hide Puts, Tag, Varint;
    var size := Some(Varint(|packed.value| % U64));
    if ok1 {
      PutsThen(o1, o2, o3, ok2, ok, size, packed);
    }
    PutsThen(o, o1, o3, ok1, ok, Some(Tag(WT_STRING, f.tag)), Then(size, packed));
  }

  /** A tag and a value. */
  method EncodeTagged(stream: OStream, f: Field, v: Value) returns (ok: bool)
    requires Sound(stream.Now()) && f.tag < U32 && ShapedValue(f.ltype, v)
    modifies stream, stream.buf
    ensures Puts(old(stream.Now()), stream.Now(), ok, Tagged(f, v))
    decreases f, 0
  {
    ghost var o := stream.Now();
    hide Wrote, Takes, Tag, ValueBytes, ShapedValue;
    ok := EncodeTagForField(stream, f);
    ghost var ok1, o1 := ok, stream.Now();
    if ok {
      ok := EncodeValue(stream, f.ltype, v);
    }
    PutsThen(o, o1, stream.Now(), ok1, ok, Some(TagFor(f)), ValueBytes(f.ltype, v));
  }

  lemma ItemsGrow(o: Out, o1: Out, o2: Out, ok: bool, f: Field, items: seq<Value>, i: nat)
    requires i < |items|
    requires Puts(o, o1, true, TaggedItems(f, items[..i])) && Puts(o1, o2, ok, Tagged(f, items[i]))
    ensures Puts(o, o2, ok, TaggedItems(f, items[..i + 1]))
  {
    hide Puts, Tagged;
    assert items[..i + 1][..i] == items[..i];
    PutsThen(o, o1, o2, true, ok, TaggedItems(f, items[..i]), Tagged(f, items[i]));
  }

  lemma {:induction false} ItemsFail(o: Out, o': Out, f: Field, items: seq<Value>, i: nat)
    requires i <= |items| && Puts(o, o', false, TaggedItems(f, items[..i]))
    ensures Puts(o, o', false, TaggedItems(f, items))
    decreases |items| - i
  {
    hide Puts, Tagged;
    if i < |items| {
      assert items[..i + 1][..i] == items[..i];
      PutsThen(o, o', o', false, false, TaggedItems(f, items[..i]), Tagged(f, items[i]));
      ItemsFail(o, o', f, items, i + 1);
    } else {
      assert items[..i] == items;
    }
  }

  /** The case of encode_array for entries that are not packed. */
  method EncodeUnpacked(stream: OStream, f: Field, items: seq<Value>) returns (ok: bool)
    requires Sound(stream.Now()) && f.tag < U32 && forall k :: 0 <= k < |items| ==> ShapedValue(f.ltype, items[k])
    modifies stream, stream.buf
    ensures Puts(old(stream.Now()), stream.Now(), ok, TaggedItems(f, items))
    decreases f, 1
  {
    ghost var o := stream.Now();
    PutsNothing(o);
    hide Wrote, Takes, Sound, Puts, Tagged, ShapedValue;
    for i := 0 to |items|
      invariant Sound(stream.Now()) && Puts(o, stream.Now(), true, TaggedItems(f, items[..i]))
    {
      ghost var o1 := stream.Now();
      ok := EncodeTagged(stream, f, items[i]);
      ItemsGrow(o, o1, stream.Now(), ok, f, items, i);
      if !ok {
        ItemsFail(o, stream.Now(), f, items, i + 1);
        return false;
      }
      StillSound(o1, stream.Now(), Tagged(f, items[i]));
    }
    assert items[..|items|] == items;
    return true;
  }

  /** encode_array */
  method EncodeArray(stream: OStream, f: Field, max: nat, items: seq<Value>) returns (ok: bool)
    requires Sound(stream.Now()) && f.tag < U32 && forall k :: 0 <= k < |items| ==> ShapedValue(f.ltype, items[k])
    modifies stream, stream.buf
    ensures Puts(old(stream.Now()), stream.Now(), ok, ArrayBytes(f, max, items))
    decreases f, 2
  {
    if |items| == 0 {
      PutsNothing(stream.Now());
      return true;
    }
    if |items| > max {
      return false;
    }
    hide Wrote, Takes, Sound, Puts, PackedBytes, TaggedItems, ShapedValue, Tag, Delimited;
    if Packable(f.ltype) {
      ok := EncodePacked(stream, f, items);
    } else {
      ok := EncodeUnpacked(stream, f, items);
    }
  }

  /** encode_basic_field on field i. */
  method EncodeField(stream: OStream, s: Schema, m: seq<Slot>, i: nat) returns (ok: bool)
    requires Sound(stream.Now()) && Shaped(s, m) && i < |m|
    modifies stream, stream.buf
    ensures Puts(old(stream.Now()), stream.Now(), ok, FieldBytes(s, m, i))
    decreases s, 0
  {
    var f, slot := s.fields[i], m[i];
    assert ShapedSlot(f, slot);
    PutsNothing(stream.Now());
    hide Wrote, Takes, Sound, Puts, Tagged, ArrayBytes, ShapedValue, IsDefault;
    match f.rule
    case Required => ok := EncodeTagged(stream, f, slot[0]);
    case Singular =>
      var absent := CheckDefault(s, m, i);
      if absent {
        return true;
      }
      ok := EncodeTagged(stream, f, slot[0]);
    case Repeated(max) => ok := EncodeArray(stream, f, max, slot);
    case FixedCount(count) => ok := EncodeArray(stream, f, count, slot);
    case _ =>
      if |slot| == 0 {
        return true;
      }
      ok := EncodeTagged(stream, f, slot[0]);
  }

  lemma ThenAssociates(p: Option<Bytes>, x: Option<Bytes>, y: Option<Bytes>)
    ensures Then(Then(p, x), y) == Then(p, Then(x, y))
  {
    if p.Some? && x.Some? && y.Some? {
      assert p.value + x.value + y.value == p.value + (x.value + y.value);
    }
  }

  /** Field i after the fields before it, whose bytes are p. */
  lemma FieldsGrow(o: Out, o1: Out, o2: Out, ok: bool, s: Schema, m: seq<Slot>, i: nat, p: Bytes)
    requires i < |s.fields| == |m| && Then(Some(p), FieldsFrom(s, m, i)) == MessageBytes(s, m)
    requires Puts(o, o1, true, Some(p)) && Puts(o1, o2, ok, FieldBytes(s, m, i))
    ensures ok ==> FieldBytes(s, m, i).Some?
    ensures ok ==> Puts(o, o2, true, Some(p + FieldBytes(s, m, i).value)) && Sound(o2)
    ensures ok ==> Then(Some(p + FieldBytes(s, m, i).value), FieldsFrom(s, m, i + 1)) == MessageBytes(s, m)
    ensures !ok ==> Puts(o, o2, false, MessageBytes(s, m))
  {
    var x, y := FieldBytes(s, m, i), FieldsFrom(s, m, i + 1);
    assert FieldsFrom(s, m, i) == Then(x, y);
    assert ok ==> x.Some? && Sound(o2);
    hide Puts, FieldBytes, FieldsFrom, MessageBytes, Sound;
    PutsThen(o, o1, o2, true, ok, Some(p), x);
    ThenAssociates(Some(p), x, y);
    if !ok {
      PutsThen(o, o2, o2, false, false, Then(Some(p), x), y);
    }
  }

  lemma FieldsStart(s: Schema, m: seq<Slot>)
    requires |m| == |s.fields|
    ensures Then(Some([]), FieldsFrom(s, m, 0)) == MessageBytes(s, m)
  {
    if FieldsFrom(s, m, 0).Some? {
      assert [] + FieldsFrom(s, m, 0).value == FieldsFrom(s, m, 0).value;
    }
  }

  /** pb_encode: the fields in the order of their descriptors. */
  method EncodeMessage(stream: OStream, s: Schema, m: seq<Slot>) returns (ok: bool)
    requires Sound(stream.Now()) && Shaped(s, m)
    modifies stream, stream.buf
    ensures Puts(old(stream.Now()), stream.Now(), ok, MessageBytes(s, m))
    decreases s, 2
  {
    ghost var o, p: Bytes := stream.Now(), [];
    PutsNothing(o);
    FieldsStart(s, m);
    assert |m| == |s.fields|;
    hide Wrote, Takes, Sound, Puts, FieldBytes, MessageBytes, Shaped;
    for i := 0 to |s.fields|
      invariant Sound(stream.Now()) && Puts(o, stream.Now(), true, Some(p))
      invariant Then(Some(p), FieldsFrom(s, m, i)) == MessageBytes(s, m)
    {
      ghost var o1 := stream.Now();
      ok := EncodeField(stream, s, m, i);
      FieldsGrow(o, o1, stream.Now(), ok, s, m, i, p);
      if !ok {
        return false;
      }
      p := p + FieldBytes(s, m, i).value;
    }
    assert p + [] == p;
    return true;
  }

  /** pb_get_encoded_size */
  method GetEncodedSize(s: Schema, m: seq<Slot>) returns (ok: bool, size: nat)
    requires Shaped(s, m)
    ensures ok <==> MessageBytes(s, m).Some?
    ensures ok ==> size == |MessageBytes(s, m).value|
  {
    var none := new Byte[0];
    var stream := new OStream(none, true, 0, 0);
    ok := EncodeMessage(stream, s, m);
    size := stream.bytesWritten;
  }

  /** If the size of a message can be computed, it can be encoded into any buffer with
      that much room, and takes exactly that much of it. */
  method EncodeIntoBuffer(s: Schema, m: seq<Slot>, buf: array<Byte>) returns (ok: bool, size: nat)
    requires Shaped(s, m)
    modifies buf
    ensures ok <==> MessageBytes(s, m).Some? && |MessageBytes(s, m).value| <= buf.Length
    ensures ok ==> size == |MessageBytes(s, m).value| && buf[..] == MessageBytes(s, m).value + old(buf[size..])
  {
    ok, size := GetEncodedSize(s, m);
    if !ok || size > buf.Length {
      return false, size;
    }
    var stream := new OStream(buf, false, 0, buf.Length);
    var done := EncodeMessage(stream, s, m);
    assert done && stream.bytesWritten == size;
    assert buf[..] == stream.Now().buffer;
  }
}
