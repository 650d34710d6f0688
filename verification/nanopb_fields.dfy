/** How the decoder takes the bytes of numbers, strings, unknown fields, single values and
    array entries: the steps that the round trip of messages is made of. */
module NanopbFields {
  import opened Wrappers
  import opened LittleEndian
  import opened NanopbWire
  import opened NanopbMessage
  import opened NanopbReading
  import Iter = NanopbIter

  // ---------- Numbers, strings and bytes ----------

  lemma VarintNumber(size: nat, n: int, rest: Bytes)
    requires IntSize(size) && -Half(size) <= n < Half(size)
    ensures ReadNumber(VarintT(size), Varint(n % U64) + rest) == Got(n, rest)
  {
    hide Varint, ReadVarint;
    VarintRoundTrip(n % U64, rest);
    SignedBack(size, n);
  }

  /** The low 8, 16, 32 or 64 bits of a number in two's complement. */
  lemma LowBits(n: int)
    ensures -0x80 <= n < 0x80 ==> (n % U64) % 0x100 == if n < 0 then n + 0x100 else n
    ensures -0x8000 <= n < 0x8000 ==> (n % U64) % 0x1_0000 == if n < 0 then n + 0x1_0000 else n
  {
  }

  lemma InTwosComplement(n: int)
    requires -I64 <= n < I64
    ensures n % U64 == if n < 0 then n + U64 else n
  {
  }

  lemma LowHalf(u: nat)
    requires u < U64
    ensures u % U64 == u
    ensures u < U32 ==> u % U32 == u
    ensures u >= U64 - U32 ==> u % U32 == u - (U64 - U32)
  {
  }

  lemma LowBits32(n: int)
    requires -0x8000_0000 <= n < 0x8000_0000
    ensures (n % U64) % U32 == if n < 0 then n + U32 else n
    ensures (n % U64) % U64 == if n < 0 then n + U64 else n
  {
    InTwosComplement(n);
    LowHalf(n % U64);
  }

  lemma SignedBack(size: nat, n: int)
    requires IntSize(size) && -Half(size) <= n < Half(size)
    ensures ToSigned(n % U64, size) == n
    ensures ToSigned(n % U64, 8) == n
    ensures size <= 4 ==> ToSigned(n % U64, 4) == n
  {
    LowBits(n);
    if size <= 4 {
      LowBits32(n);
    }
  }

  lemma NumberRoundTrip(t: LType, n: int, rest: Bytes)
    requires FitsNumber(t, n) && WellFormedType(t)
    ensures NumberBytes(t, n).Some? && |NumberBytes(t, n).value| > 0
    ensures ReadNumber(t, NumberBytes(t, n).value + rest) == Got(n, rest)
  {
    hide ReadNumber, NumberBytes, Half, IntSize;
    match t
    case Bool => BoolRoundTrip(n, rest);
    case VarintT(size) => VarintBytes(size, n); VarintNumber(size, n, rest);
    case UVarintT(size) => UnsignedRoundTrip(size, n, rest);
    case SVarintT(size) => ZigZagRoundTrip(size, n, rest);
    case Fixed32T => Fixed32RoundTrip(n, rest);
    case Fixed64T => Fixed64RoundTrip(n, rest);
  }

  lemma BoolRoundTrip(n: int, rest: Bytes)
    requires FitsNumber(Bool, n)
    ensures NumberBytes(Bool, n).Some? && |NumberBytes(Bool, n).value| > 0
    ensures ReadNumber(Bool, NumberBytes(Bool, n).value + rest) == Got(n, rest)
  {
    hide Varint, ReadVarint32;
    Varint32RoundTrip(n, rest);
  }

  lemma VarintBytes(size: nat, n: int)
    requires FitsNumber(VarintT(size), n) && WellFormedType(VarintT(size))
    ensures IntSize(size) && -Half(size) <= n < Half(size)
    ensures NumberBytes(VarintT(size), n) == Some(Varint(n % U64))
  {
    hide Varint;
  }

  lemma UnsignedRoundTrip(size: nat, n: int, rest: Bytes)
    requires FitsNumber(UVarintT(size), n) && WellFormedType(UVarintT(size))
    ensures NumberBytes(UVarintT(size), n).Some? && |NumberBytes(UVarintT(size), n).value| > 0
    ensures ReadNumber(UVarintT(size), NumberBytes(UVarintT(size), n).value + rest) == Got(n, rest)
  {
    hide Varint, ReadVarint;
    VarintRoundTrip(n, rest);
  }

  lemma ZigZagRoundTrip(size: nat, n: int, rest: Bytes)
    requires FitsNumber(SVarintT(size), n) && WellFormedType(SVarintT(size))
    ensures NumberBytes(SVarintT(size), n).Some? && |NumberBytes(SVarintT(size), n).value| > 0
    ensures ReadNumber(SVarintT(size), NumberBytes(SVarintT(size), n).value + rest) == Got(n, rest)
  {
    hide Varint, ReadVarint, ToSigned;
    VarintRoundTrip(ZigZag(n), rest);
    ZigZagInverse(n, 0);
    SignedBack(size, n);
  }

  lemma Fixed32RoundTrip(n: int, rest: Bytes)
    requires FitsNumber(Fixed32T, n)
    ensures NumberBytes(Fixed32T, n).Some? && |NumberBytes(Fixed32T, n).value| > 0
    ensures ReadNumber(Fixed32T, NumberBytes(Fixed32T, n).value + rest) == Got(n, rest)
  {
    hide ReadFixed, Fixed, ByteLimit;
    ByteLimits();
    FixedRoundTrip(n, 4, rest);
  }

  lemma Fixed64RoundTrip(n: int, rest: Bytes)
    requires FitsNumber(Fixed64T, n)
    ensures NumberBytes(Fixed64T, n).Some? && |NumberBytes(Fixed64T, n).value| > 0
    ensures ReadNumber(Fixed64T, NumberBytes(Fixed64T, n).value + rest) == Got(n, rest)
  {
    hide ReadFixed, Fixed, ByteLimit;
    ByteLimits();
    FixedRoundTrip(n, 8, rest);
  }

  lemma {:induction false} CStringWhole(b: Bytes)
    requires NoZero(b)
    ensures CString(b) == b
  {
    if b != [] {
      CStringWhole(b[1..]);
    }
  }

  lemma BlobRoundTrip(t: LType, x: Bytes, rest: Bytes)
    requires (t.BytesT? || t.StringT? || t.FixedBytesT?) && FitsValue(t, Blob(x)) && |x| < U32
    ensures ValueBytes(t, Blob(x)) == Some(Delimited(x))
    ensures ReadBlob(t, Delimited(x) + rest) == Got(x, rest)
  {
    BlobBytes(t, x);
    SizeFirst(x, rest);
    Varint32RoundTrip(|x|, x + rest);
    hide Delimited, Varint, ReadVarint32;
    ReadAfterSize(t, x, rest, Delimited(x) + rest);
  }

  lemma BlobBytes(t: LType, x: Bytes)
    requires (t.BytesT? || t.StringT? || t.FixedBytesT?) && FitsValue(t, Blob(x)) && |x| < U32
    ensures ValueBytes(t, Blob(x)) == Some(Delimited(x))
  {
    hide Delimited;
  }

  lemma SizeFirst(x: Bytes, rest: Bytes)
    requires |x| < U32
    ensures Delimited(x) + rest == Varint(|x|) + (x + rest)
  {
    hide *;
    SmallSize(x);
    Regroup(Varint(|x|), x, rest);
  }

  lemma SmallSize(x: Bytes)
    requires |x| < U32
    ensures Delimited(x) == Varint(|x|) + x
  {
    hide Varint;
    LowHalf(|x|);
  }

  /** Once the length has been read. */
  lemma ReadAfterSize(t: LType, x: Bytes, rest: Bytes, b: Bytes)
    requires (t.BytesT? || t.StringT? || t.FixedBytesT?) && FitsValue(t, Blob(x))
    requires ReadVarint32(b) == Got(|x|, x + rest)
    ensures ReadBlob(t, b) == Got(x, rest)
  {
    hide ReadVarint32, CString;
    assert (x + rest)[..|x|] == x && (x + rest)[|x|..] == rest;
    if t.StringT? {
      CStringWhole(x);
    }
    assert t.FixedBytesT? && |x| == 0 ==> x == seq(0, i => 0);
  }

  // ---------- Default values ----------

  /** A message whose fields all have their default value is the initial one. */
  lemma {:induction false} DefaultsOnly(s: Schema, m: seq<Slot>)
    requires WellFormed(s) && Fits(s, m) && forall i :: 0 <= i < |m| ==> IsDefault(s, m, i)
    ensures m == Defaults(s)
    decreases s
  {
    forall i | 0 <= i < |m| ensures m[i] == DefaultSlot(s.fields[i]) {
      DefaultOnly(s, m, i);
    }
  }

  lemma {:induction false} DefaultOnly(s: Schema, m: seq<Slot>, i: nat)
    requires WellFormed(s) && Fits(s, m) && i < |m| && IsDefault(s, m, i)
    ensures m[i] == DefaultSlot(s.fields[i])
    decreases s, 0
  {
    var f := s.fields[i];
    assert WellFormedField(f) && FitsSlot(f, m[i]);
    if f.rule.Singular? {
      var v := m[i][0];
      assert m[i] == [v];
      assert WellFormedType(f.ltype) && FitsValue(f.ltype, v);
      if f.ltype.Sub? {
        DefaultsOnly(f.ltype.schema, v.slots);
      } else if f.ltype.FixedBytesT? {
        assert v.b == seq(0, i => 0);
      }
    }
  }

  // ---------- Every fitting message has bytes ----------

  lemma {:induction false} ValueHasBytes(t: LType, v: Value)
    requires WellFormedType(t) && FitsValue(t, v)
    ensures ValueBytes(t, v).Some? && |ValueBytes(t, v).value| > 0
    decreases t, 0
  {
    if t.Sub? {
      MessageHasBytes(t.schema, v.slots);
    } else if v.Num? {
      NumberRoundTrip(t, v.n, []);
    }
  }

  lemma {:induction false} PackedHasBytes(t: LType, items: seq<Value>)
    requires WellFormedType(t) && forall k :: 0 <= k < |items| ==> FitsValue(t, items[k])
    ensures PackedBytes(t, items).Some?
    decreases t, 1, |items|
  {
    if items != [] {
      PackedHasBytes(t, items[..|items| - 1]);
      ValueHasBytes(t, items[|items| - 1]);
    }
  }

  lemma {:induction false} ItemsHaveBytes(f: Field, items: seq<Value>)
    requires WellFormedType(f.ltype) && forall k :: 0 <= k < |items| ==> FitsValue(f.ltype, items[k])
    ensures TaggedItems(f, items).Some?
    decreases f, 1, |items|
  {
    if items != [] {
      ItemsHaveBytes(f, items[..|items| - 1]);
      ValueHasBytes(f.ltype, items[|items| - 1]);
    }
  }

  lemma {:induction false} FieldHasBytes(s: Schema, m: seq<Slot>, i: nat)
    requires WellFormed(s) && Fits(s, m) && i < |m|
    ensures FieldBytes(s, m, i).Some?
    decreases s, 0
  {
    var f := s.fields[i];
    assert WellFormedField(f) && FitsSlot(f, m[i]);
    if f.rule.Repeated? || f.rule.FixedCount? {
      PackedHasBytes(f.ltype, m[i]);
      ItemsHaveBytes(f, m[i]);
    } else if m[i] != [] {
      ValueHasBytes(f.ltype, m[i][0]);
    }
  }

  lemma {:induction false} FieldsHaveBytes(s: Schema, m: seq<Slot>, i: nat)
    requires WellFormed(s) && Fits(s, m) && i <= |m|
    ensures FieldsFrom(s, m, i).Some?
    decreases s, 1, |m| - i
  {
    if i < |m| {
      FieldHasBytes(s, m, i);
      FieldsHaveBytes(s, m, i + 1);
    }
  }

  lemma {:induction false} MessageHasBytes(s: Schema, m: seq<Slot>)
    requires WellFormed(s) && Fits(s, m)
    ensures MessageBytes(s, m).Some?
    decreases s, 2
  {
    FieldsHaveBytes(s, m, 0);
  }

  // ---------- Unknown fields ----------

  /** A field that the schema does not have, with its data. */
  datatype Unknown = Unknown(wireType: nat, number: nat, data: Bytes)

  ghost predicate IsUnknown(s: Schema, u: Unknown) {
    && u.wireType < 8 && 1 <= u.number <= MAX_TAG
    && FindFrom(s, u.number, 0) == None
    && Skip(u.wireType, u.data) == Some([])
  }

  ghost function UnknownBytes(us: seq<Unknown>): Bytes {
    if us == [] then [] else Tag(us[0].wireType, us[0].number) + us[0].data + UnknownBytes(us[1..])
  }

  lemma UnknownCons(us: seq<Unknown>, rest: Bytes)
    requires us != []
    ensures UnknownBytes(us) + rest
         == Tag(us[0].wireType, us[0].number) + (us[0].data + (UnknownBytes(us[1..]) + rest))
  {
    hide Tag;
  }

  lemma {:induction false} SkipsUnknown(s: Schema, st: State, us: seq<Unknown>, rest: Bytes)
    requires |st.slots| == |s.fields| && forall i :: 0 <= i < |us| ==> IsUnknown(s, us[i])
    ensures ReadFields(s, st, UnknownBytes(us) + rest) == ReadFields(s, st, rest)
    decreases |us|
  {
    if us == [] {
      assert UnknownBytes(us) + rest == rest;
    } else {
      hide ReadFields, IsUnknown, Tag, UnknownBytes;
      UnknownCons(us, rest);
      SkipOne(s, st, us[0], UnknownBytes(us[1..]) + rest);
      SkipsUnknown(s, st, us[1..], rest);
    }
  }

  lemma SkipOne(s: Schema, st: State, u: Unknown, tail: Bytes)
    requires |st.slots| == |s.fields| && IsUnknown(s, u)
    ensures ReadFields(s, st, Tag(u.wireType, u.number) + (u.data + tail)) == ReadFields(s, st, tail)
  {
    hide Tag, Skip, FindFrom, ReadTag;
    TagRoundTrip(u.wireType, u.number, u.data + tail);
    SkipLocal(u.wireType, u.data, tail);
  }

  // ---------- One field ----------

  lemma FindsField(s: Schema, i: nat, k: nat)
    requires WellFormed(s) && k <= i < |s.fields|
    ensures FindFrom(s, s.fields[i].tag, k) == Some(i)
    decreases i - k
  {
    if k < i {
      FindsField(s, i, k + 1);
    }
  }

  /** Decoding has gone through the fields before i: their slots are as in m, the others
      as they started. */
  ghost predicate Midway(s: Schema, m: seq<Slot>, st: State, i: nat)
    requires |m| == |s.fields| && i <= |m|
  {
    && |st.slots| == |m|
    && (forall k :: 0 <= k < i ==> st.slots[k] == m[k])
    && (forall k :: i <= k < |m| ==> st.slots[k] == DefaultSlot(s.fields[k]))
    && (st.fixed.Some? ==> st.fixed.value < i)
    && FixedDone(s, st)
    && forall r: nat :: r < RequiredIndex(s, i) && r < Iter.MAX_REQUIRED ==> r in st.seen
  }

  /** The state after field i. */
  ghost function After(s: Schema, m: seq<Slot>, st: State, i: nat): State
    requires i < |s.fields| == |m| == |st.slots|
  {
    var r := RequiredIndex(s, i);
    State(st.slots[i := m[i]],
          if s.fields[i].rule.FixedCount? && m[i] != [] then Some(i) else st.fixed,
          if s.fields[i].rule.Required? && r < Iter.MAX_REQUIRED then st.seen + {r} else st.seen)
  }

  lemma AfterSeen(s: Schema, m: seq<Slot>, st: State, i: nat, r: nat)
    requires i < |s.fields| == |m| && Midway(s, m, st, i)
    requires r < RequiredIndex(s, i + 1) && r < Iter.MAX_REQUIRED
    ensures r in After(s, m, st, i).seen
  {
    assert RequiredIndex(s, i + 1) == RequiredIndex(s, i) + if s.fields[i].rule.Required? then 1 else 0;
  }

  lemma AfterIsMidway(s: Schema, m: seq<Slot>, st: State, i: nat)
    requires i < |s.fields| == |m| && Fits(s, m) && Midway(s, m, st, i)
    ensures Midway(s, m, After(s, m, st, i), i + 1)
  {
    assert s.fields[i].rule.FixedCount? ==> FitsSlot(s.fields[i], m[i]) && FitsCount(s.fields[i].rule, |m[i]|);
    hide Fits, FitsSlot, DefaultSlot, RequiredIndex;
    forall r: nat | r < RequiredIndex(s, i + 1) && r < Iter.MAX_REQUIRED ensures r in After(s, m, st, i).seen {
      AfterSeen(s, m, st, i, r);
    }
  }

  /** The loop on a field that is there: its tag is found and its data decoded. */
  lemma ReadFieldsStep(s: Schema, st: State, i: nat, wireType: nat, data: Bytes)
    requires WellFormed(s) && i < |s.fields| == |st.slots| && wireType < 8
    ensures ReadFields(s, st, Tag(wireType, s.fields[i].tag) + data)
         == match Turn(s, st, i)
            case None => NoLoop
            case Some(st') =>
              match ReadField(s, st'.slots, i, wireType, data)
              case NoStep => NoLoop
              case Step(slots, rest) => ReadFields(s, st'.(slots := slots), rest)
  {
    hide Tag, ReadTag, ReadField, Turn, FindFrom;
    assert WellFormedField(s.fields[i]);
    FindsField(s, i, 0);
    TagRoundTrip(wireType, s.fields[i].tag, data);
  }

  lemma BaseStarts(f: Field)
    ensures Base(f.ltype, DefaultSlot(f)) == Base(f.ltype, [])
  {
  }

  /** The other arms of a oneof are clear when one is decoded. */
  lemma ArmsAreClear(s: Schema, m: seq<Slot>, st: State, i: nat)
    requires i < |s.fields| == |m| && Fits(s, m) && Midway(s, m, st, i) && s.fields[i].rule.Oneof? && m[i] != []
    ensures ClearArms(s, st.slots, s.fields[i].rule) == st.slots
  {
    forall k | 0 <= k < |m| && s.fields[k].rule == s.fields[i].rule ensures st.slots[k] == [] {
      assert OneArm(s, m, i, k);
    }
  }

  /** decode_static_field on a field that is not an array. */
  lemma SingleField(s: Schema, slots: seq<Slot>, i: nat, v: Value, data: Bytes, rest: Bytes)
    requires i < |s.fields| == |slots| && !s.fields[i].rule.Repeated? && !s.fields[i].rule.FixedCount?
    requires slots[i] == DefaultSlot(s.fields[i])
    requires s.fields[i].rule.Oneof? ==> ClearArms(s, slots, s.fields[i].rule) == slots
    requires ReadValue(s.fields[i].ltype, Base(s.fields[i].ltype, []), data + rest) == Got(v, rest)
    ensures ReadField(s, slots, i, WireType(s.fields[i].ltype), data + rest) == Step(slots[i := [v]], rest)
  {
    hide ReadValue, Base, DefaultSlot, ClearArms;
    BaseStarts(s.fields[i]);
  }

  /** A single value. */
  lemma SingleRoundTrip(s: Schema, m: seq<Slot>, st: State, i: nat, data: Bytes, rest: Bytes)
    requires WellFormed(s) && i < |s.fields| == |m| && Fits(s, m) && Midway(s, m, st, i)
    requires !s.fields[i].rule.Repeated? && !s.fields[i].rule.FixedCount? && |m[i]| == 1
    requires ReadValue(s.fields[i].ltype, Base(s.fields[i].ltype, []), data + rest) == Got(m[i][0], rest)
    ensures ReadFields(s, st, TagFor(s.fields[i]) + data + rest) == ReadFields(s, After(s, m, st, i), rest)
  {
    var f := s.fields[i];
    assert |st.slots| == |m| && st.slots[i] == DefaultSlot(f) && m[i] == [m[i][0]];
    hide ReadFields, ReadField, ReadValue, Tag, Fits, Base, DefaultSlot, Midway, WellFormed, ClearArms, RequiredIndex;
    assert TagFor(f) + data + rest == Tag(WireType(f.ltype), f.tag) + (data + rest);
    ReadFieldsStep(s, st, i, WireType(f.ltype), data + rest);
    if f.rule.Oneof? {
      ArmsAreClear(s, m, st, i);
    }
    SingleField(s, st.slots, i, m[i][0], data, rest);
  }

  // ---------- Arrays ----------

  /** The number of entries an array field can hold. */
  function Room(r: Rule): nat {
    if r.Repeated? then r.max else if r.FixedCount? then r.count else 0
  }

  predicate IsArray(r: Rule) {
    r.Repeated? || r.FixedCount?
  }

  /** The state with the first entries of array i in place. */
  ghost function Filled(s: Schema, st: State, i: nat, items: seq<Value>): State
    requires i < |s.fields| == |st.slots|
  {
    if items == [] then st
    else State(st.slots[i := items], if s.fields[i].rule.FixedCount? then Some(i) else st.fixed, st.seen)
  }

  /** Reading entry k of array i after the entries before it. */
  lemma TurnFilled(s: Schema, m: seq<Slot>, st: State, i: nat, items: seq<Value>)
    requires i < |s.fields| == |m| && Midway(s, m, st, i) && IsArray(s.fields[i].rule)
    ensures var r := Turn(s, Filled(s, st, i, items), i);
            && r.Some? && r.value.slots == st.slots[i := items] && r.value.seen == st.seen
            && r.value.fixed == if s.fields[i].rule.FixedCount? then Some(i) else st.fixed
  {
    assert st.slots[i := st.slots[i]] == st.slots;
  }

  /** decode_static_field on one entry of an array. */
  lemma ItemField(s: Schema, slots: seq<Slot>, i: nat, v: Value, data: Bytes, rest: Bytes)
    requires i < |s.fields| == |slots| && IsArray(s.fields[i].rule)
    requires |slots[i]| < Room(s.fields[i].rule) && !Packable(s.fields[i].ltype)
    requires ReadValue(s.fields[i].ltype, Base(s.fields[i].ltype, []), data + rest) == Got(v, rest)
    ensures ReadField(s, slots, i, WireType(s.fields[i].ltype), data + rest) == Step(slots[i := slots[i] + [v]], rest)
  {
    hide ReadValue, Base;
  }

  lemma {:induction false} ItemStep(s: Schema, m: seq<Slot>, st: State, i: nat, items: seq<Value>, v: Value, data: Bytes, rest: Bytes)
    requires WellFormed(s) && i < |s.fields| == |m| && Midway(s, m, st, i) && IsArray(s.fields[i].rule)
    requires |items| < Room(s.fields[i].rule) && !Packable(s.fields[i].ltype)
    requires ReadValue(s.fields[i].ltype, Base(s.fields[i].ltype, []), data + rest) == Got(v, rest)
    ensures ReadFields(s, Filled(s, st, i, items), TagFor(s.fields[i]) + data + rest)
         == ReadFields(s, Filled(s, st, i, items + [v]), rest)
  {
    assert |st.slots| == |m|;
    hide ReadFields, ReadValue, ReadField, Tag, Base, Midway, Turn, WellFormed;
    var f := s.fields[i];
    Regroup(TagFor(f), data, rest);
    ReadFieldsStep(s, Filled(s, st, i, items), i, WireType(f.ltype), data + rest);
    TurnFilled(s, m, st, i, items);
    ItemField(s, st.slots[i := items], i, v, data, rest);
    assert st.slots[i := items][i := items + [v]] == st.slots[i := items + [v]];
  }

  /** A packed array in one piece. */
  lemma PackedField(s: Schema, slots: seq<Slot>, i: nat, items: seq<Value>, part: Bytes, rest: Bytes)
    requires i < |s.fields| == |slots| && IsArray(s.fields[i].rule) && slots[i] == []
    requires Packable(s.fields[i].ltype) && |part| < U32
    requires ReadPacked(s.fields[i].ltype, Room(s.fields[i].rule), [], part) == Some(items)
    ensures ReadField(s, slots, i, WT_STRING, Delimited(part) + rest) == Step(slots[i := items], rest)
  {
    hide ReadPacked, Delimited, Substream;
    SubstreamRoundTrip(part, rest);
  }

  lemma PackedStep(s: Schema, m: seq<Slot>, st: State, i: nat, part: Bytes, rest: Bytes)
    requires WellFormed(s) && i < |s.fields| == |m| && Midway(s, m, st, i) && IsArray(s.fields[i].rule)
    requires Packable(s.fields[i].ltype) && |part| < U32 && m[i] != []
    requires ReadPacked(s.fields[i].ltype, Room(s.fields[i].rule), [], part) == Some(m[i])
    ensures ReadFields(s, st, Tag(WT_STRING, s.fields[i].tag) + Delimited(part) + rest)
         == ReadFields(s, Filled(s, st, i, m[i]), rest)
  {
    assert |st.slots| == |m| && st.slots[i] == [];
    hide ReadFields, ReadPacked, ReadField, Tag, Midway, Turn, Delimited, WellFormed;
    var f := s.fields[i];
    assert Tag(WT_STRING, f.tag) + Delimited(part) + rest == Tag(WT_STRING, f.tag) + (Delimited(part) + rest);
    ReadFieldsStep(s, st, i, WT_STRING, Delimited(part) + rest);
    TurnFilled(s, m, st, i, []);
    PackedField(s, st.slots[i := []], i, m[i], part, rest);
    assert st.slots[i := []][i := m[i]] == st.slots[i := m[i]];
  }

  lemma PackedSnoc(t: LType, items: seq<Value>, e: Bytes, tail: Bytes)
    requires items != [] && PackedBytes(t, items[..|items| - 1]).Some? && ValueBytes(t, items[|items| - 1]) == Some(e)
    ensures PackedBytes(t, items).Some?
    ensures PackedBytes(t, items).value + tail == PackedBytes(t, items[..|items| - 1]).value + (e + tail)
  {
  }

  lemma PackedOne(t: LType, max: nat, items: seq<Value>, v: Value, e: Bytes, tail: Bytes)
    requires Packable(t) && |items| < max && e != [] && v.Num? && ReadNumber(t, e + tail) == Got(v.n, tail)
    ensures ReadPacked(t, max, items, e + tail) == ReadPacked(t, max, items + [v], tail)
  {
    hide ReadNumber;
  }

  /** Packed entries are read one after the other. */
  lemma {:induction false} PackedRoundTrip(t: LType, max: nat, items: seq<Value>, tail: Bytes)
    requires Packable(t) && WellFormedType(t) && |items| <= max
    requires forall k :: 0 <= k < |items| ==> FitsValue(t, items[k])
    ensures PackedBytes(t, items).Some?
    ensures ReadPacked(t, max, [], PackedBytes(t, items).value + tail) == ReadPacked(t, max, items, tail)
    decreases |items|
  {
    hide *;
    if items == [] {
      NoPacked(t, tail);
    } else {
      var k := |items| - 1;
      var v := items[k];
      NumberFacts(t, v);
      NumberRoundTrip(t, v.n, tail);
      var e := NumberBytes(t, v.n).value;
      PackedRoundTrip(t, max, items[..k], e + tail);
      PackedSnoc(t, items, e, tail);
      PackedOne(t, max, items[..k], v, e, tail);
      assert items[..k] + [v] == items;
    }
  }

  lemma NoPacked(t: LType, tail: Bytes)
    ensures PackedBytes(t, []) == Some([]) && [] + tail == tail
  {
  }

  lemma NumberFacts(t: LType, v: Value)
    requires Packable(t) && FitsValue(t, v)
    ensures v.Num? && FitsNumber(t, v.n) && ValueBytes(t, v) == NumberBytes(t, v.n)
  {
  }
}
