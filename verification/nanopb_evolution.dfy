/** Encoder and decoder with different schemas: what is encoded is skipped exactly by a
    decoder that does not know it, and a decoder whose schema lacks fields, at any depth,
    reads the others. */
module NanopbEvolution {
  import opened Wrappers
  import opened LittleEndian
  import opened NanopbWire
  import opened NanopbMessage
  import opened NanopbReading
  import opened NanopbFields
  import opened NanopbRoundTrip

  // ---------- Skipping what was encoded ----------

  lemma {:induction false} VarintSkips(v: nat)
    ensures SkipVarint(Varint(v)) == Some([])
    decreases v
  {
    if v >= 0x80 {
      VarintSkips(v / 0x80);
      assert Varint(v)[1..] == Varint(v / 0x80);
    }
  }

  lemma DelimitedSkips(b: Bytes)
    requires |b| < U32
    ensures Skip(WT_STRING, Delimited(b)) == Some([])
  {
    hide Delimited, Substream;
    SubstreamRoundTrip(b, []);
    assert Delimited(b) + [] == Delimited(b);
  }

  lemma FixedSkips(v: nat)
    ensures Skip(WT_32BIT, Fixed(v, 4)) == Some([]) && Skip(WT_64BIT, Fixed(v, 8)) == Some([])
  {
    hide Fixed;
  }

  lemma NumberSkips(t: LType, n: int)
    requires Packable(t) && WellFormedType(t) && FitsNumber(t, n)
    ensures NumberBytes(t, n).Some? && Skip(WireType(t), NumberBytes(t, n).value) == Some([])
  {
    NumberRoundTrip(t, n, []);
    hide Varint, SkipVarint, Fixed, ReadNumber;
    match t
    case Bool => VarintSkips(if n != 0 then 1 else 0);
    case VarintT(_) => VarintSkips(n % U64);
    case UVarintT(_) => VarintSkips(n % U64);
    case SVarintT(_) => VarintSkips(ZigZag(n));
    case Fixed32T => FixedSkips(n % U32);
    case Fixed64T => FixedSkips(n % U64);
  }

  /** The decoder that skips by the wire type consumes exactly the bytes of the value. */
  lemma ValueSkips(t: LType, v: Value)
    requires WellFormedType(t) && FitsValue(t, v) && LengthsFit(t, v, NO_PADS)
    ensures Skip(WireType(t), PaddedValue(t, v, NO_PADS)) == Some([])
  {
    hide Delimited, Skip, NumberBytes, PaddedMessage;
    match t
    case Sub(s) => DelimitedSkips(PaddedMessage(s, v.slots, NO_PADS));
    case BytesT(_) => DelimitedSkips(v.b);
    case StringT(_) => DelimitedSkips(v.b);
    case FixedBytesT(_) => DelimitedSkips(v.b);
    case _ => NumberSkips(t, v.n);
  }

  /** The schema has no field with this tag. */
  predicate Lacks(s: Schema, tag: nat) {
    FindFrom(s, tag, 0) == None
  }

  lemma OneUnknown(wireType: nat, tag: nat, data: Bytes)
    ensures UnknownBytes([Unknown(wireType, tag, data)]) == Tag(wireType, tag) + data
  {
    hide Tag;
    assert UnknownBytes([]) == [];
    assert [Unknown(wireType, tag, data)][1..] == [];
  }

  lemma PlainRecordIs(f: Field, v: Value)
    ensures PaddedRecord(f, v, NO_PADS) == TagFor(f) + PaddedValue(f.ltype, v, NO_PADS)
  {
    hide Tag, PaddedValue;
    assert UnknownBytes([]) == [];
  }

  lemma RecordSkipped(s': Schema, st: State, f: Field, v: Value, rest: Bytes)
    requires |st.slots| == |s'.fields| && Lacks(s', f.tag) && WellFormedField(f)
    requires FitsValue(f.ltype, v) && LengthsFit(f.ltype, v, NO_PADS)
    ensures ReadFields(s', st, PaddedRecord(f, v, NO_PADS) + rest) == ReadFields(s', st, rest)
  {
    hide ReadFields, Skip, PaddedValue, Tag, FindFrom, FitsValue, LengthsFit;
    ValueSkips(f.ltype, v);
    var data := PaddedValue(f.ltype, v, NO_PADS);
    OneUnknown(WireType(f.ltype), f.tag, data);
    PlainRecordIs(f, v);
    hide PaddedRecord;
    SkipsUnknown(s', st, [Unknown(WireType(f.ltype), f.tag, data)], rest);
  }

  lemma {:induction false} ItemsSkipped(s': Schema, st: State, f: Field, items: seq<Value>, i: nat, rest: Bytes)
    requires |st.slots| == |s'.fields| && Lacks(s', f.tag) && WellFormedField(f)
    requires forall k :: 0 <= k < |items| ==> FitsValue(f.ltype, items[k]) && LengthsFit(f.ltype, items[k], NO_PADS)
    ensures ReadFields(s', st, PaddedItems(f, items, NO_PADS, i) + rest) == ReadFields(s', st, rest)
    decreases |items|
  {
    hide ReadFields, PaddedRecord, Lacks, WellFormedField, FitsValue, LengthsFit;
    if items == [] {
      assert [] + rest == rest;
    } else {
      var k := |items| - 1;
      var last := PaddedRecord(f, items[k], NO_PADS);
      NoPadAt(i, k);
      Regroup(PaddedItems(f, items[..k], NO_PADS, i), last, rest);
      ItemsSkipped(s', st, f, items[..k], i, last + rest);
      RecordSkipped(s', st, f, items[k], rest);
    }
  }

  lemma PackedSkipped(s': Schema, st: State, f: Field, items: seq<Value>, rest: Bytes)
    requires |st.slots| == |s'.fields| && Lacks(s', f.tag) && WellFormedField(f)
    requires |BytesOf(PackedBytes(f.ltype, items))| < U32
    ensures ReadFields(s', st, PackedRecord(f, items, NO_PADS) + rest) == ReadFields(s', st, rest)
  {
    hide ReadFields, Skip, Tag, FindFrom, Delimited, PackedBytes;
    var data := Delimited(BytesOf(PackedBytes(f.ltype, items)));
    DelimitedSkips(BytesOf(PackedBytes(f.ltype, items)));
    OneUnknown(WT_STRING, f.tag, data);
    assert UnknownBytes([]) == [];
    assert PackedRecord(f, items, NO_PADS) == Tag(WT_STRING, f.tag) + data;
    hide PackedRecord, UnknownBytes;
    SkipsUnknown(s', st, [Unknown(WT_STRING, f.tag, data)], rest);
  }

  /** A whole field is skipped, however many records it has. */
  lemma FieldSkipped(s': Schema, st: State, s: Schema, m: seq<Slot>, i: nat, rest: Bytes)
    requires |st.slots| == |s'.fields| && WellFormed(s) && Fits(s, m) && PartsFit(s, m, NO_PADS) && i < |s.fields|
    requires Lacks(s', s.fields[i].tag)
    ensures ReadFields(s', st, PaddedField(s, m, NO_PADS, i) + rest) == ReadFields(s', st, rest)
  {
    var f := s.fields[i];
    FieldFacts(s, m, NO_PADS, i);
    assert WellFormedField(f);
    NoPads(f.ltype, m[i], i);
    OmittedIfEmpty(s, m, i);
    hide ReadFields, PaddedRecord, PackedRecord, PaddedItems, Lacks, WellFormed, Fits, WellFormedField, FitsValue,
         LengthsFit, Omitted;
    if Omitted(s, m, i) {
      assert [] + rest == rest;
    } else if !IsArray(f.rule) {
      RecordSkipped(s', st, f, m[i][0], rest);
    } else if Packable(f.ltype) {
      PackedSkipped(s', st, f, m[i], rest);
    } else {
      ItemsSkipped(s', st, f, m[i], i, rest);
    }
  }

  lemma NoPads(t: LType, items: seq<Value>, i: nat)
    ensures forall k: nat :: PadAt(NO_PADS, i, k) == NO_PADS
  {
  }

  lemma {:induction false} FieldsSkipped(s': Schema, st: State, s: Schema, m: seq<Slot>, i: nat, rest: Bytes)
    requires |st.slots| == |s'.fields| && WellFormed(s) && Fits(s, m) && PartsFit(s, m, NO_PADS) && i <= |s.fields|
    requires forall j :: 0 <= j < |s.fields| ==> Lacks(s', s.fields[j].tag)
    ensures ReadFields(s', st, PaddedFrom(s, m, NO_PADS, i) + rest) == ReadFields(s', st, rest)
    decreases |s.fields| - i
  {
    hide ReadFields, PaddedField, Lacks, WellFormed, PartsFit;
    if i == |m| {
      assert UnknownBytes([]) == [];
      assert [] + rest == rest;
    } else {
      var first, more := PaddedField(s, m, NO_PADS, i), PaddedFrom(s, m, NO_PADS, i + 1);
      hide PaddedFrom;
      FromSplits(s, m, i);
      Regroup(first, more, rest);
      FieldSkipped(s', st, s, m, i, more + rest);
      FieldsSkipped(s', st, s, m, i + 1, rest);
    }
  }

  lemma FromSplits(s: Schema, m: seq<Slot>, i: nat)
    requires i < |s.fields| == |m|
    ensures PaddedFrom(s, m, NO_PADS, i) == PaddedField(s, m, NO_PADS, i) + PaddedFrom(s, m, NO_PADS, i + 1)
  {
  }

  /** What is encoded is well formed to a decoder that knows none of it: it goes on behind
      it in the state it was in. */
  lemma EncodedIsSkipped(s': Schema, st: State, s: Schema, m: seq<Slot>, rest: Bytes)
    requires |st.slots| == |s'.fields| && WellFormed(s) && Fits(s, m) && PartsFit(s, m, NO_PADS)
    requires forall i, j :: 0 <= i < |s.fields| && 0 <= j < |s'.fields| ==> s.fields[i].tag != s'.fields[j].tag
    ensures MessageBytes(s, m).Some?
    ensures ReadFields(s', st, MessageBytes(s, m).value + rest) == ReadFields(s', st, rest)
  {
    hide ReadFields, MessageBytes, WellFormed, Fits, PartsFit;
    PlainMessage(s, m);
    FieldsSkipped(s', st, s, m, 0, rest);
  }

  // ---------- A decoder that lacks fields ----------

  /** The fields that a schema keeps, by position, and what it keeps of their submessages. */
  datatype Keep = Keep(at: seq<nat>, subs: seq<Keep>)

  ghost predicate KeepInside(t: LType, k: Keep)
    decreases t, 0
  {
    t.Sub? ==> KeepOk(t.schema, k)
  }

  ghost predicate KeepOk(s: Schema, k: Keep)
    decreases s, 0
  {
    && |k.at| == |k.subs|
    && (forall j :: 0 <= j < |k.at| ==> k.at[j] < |s.fields| && KeepInside(s.fields[k.at[j]].ltype, k.subs[j]))
    && (forall i, j :: 0 <= i < j < |k.at| ==> k.at[i] < k.at[j])
  }

  ghost function KeptType(t: LType, k: Keep): LType
    requires KeepInside(t, k)
    decreases t, 1
  {
    if t.Sub? then Sub(Kept(t.schema, k)) else t
  }

  ghost function KeptField(f: Field, k: Keep): Field
    requires KeepInside(f.ltype, k)
    decreases f, 1
  {
    f.(ltype := KeptType(f.ltype, k))
  }

  /** The schema without the other fields, at every depth. */
  ghost function Kept(s: Schema, k: Keep): (s': Schema)
    requires KeepOk(s, k)
    ensures |s'.fields| == |k.at|
    ensures forall j :: 0 <= j < |k.at| ==> s'.fields[j] == KeptField(s.fields[k.at[j]], k.subs[j])
    decreases s, 1
  {
    Schema(seq(|k.at|, j requires 0 <= j < |k.at| => KeptField(s.fields[k.at[j]], k.subs[j])))
  }

  ghost function KeptValue(t: LType, v: Value, k: Keep): Value
    requires KeepInside(t, k)
    decreases t, 1
  {
    if t.Sub? && v.Msg? && |v.slots| == |t.schema.fields| then Msg(KeptSlots(t.schema, v.slots, k)) else v
  }

  ghost function KeptItems(t: LType, items: seq<Value>, k: Keep): (kept: seq<Value>)
    requires KeepInside(t, k)
    ensures |kept| == |items|
    ensures forall n :: 0 <= n < |items| ==> kept[n] == KeptValue(t, items[n], k)
    decreases t, 2, |items|
  {
    if items == [] then [] else KeptItems(t, items[..|items| - 1], k) + [KeptValue(t, items[|items| - 1], k)]
  }

  /** The message without the other fields, at every depth. */
  ghost function KeptSlots(s: Schema, m: seq<Slot>, k: Keep): (kept: seq<Slot>)
    requires |m| == |s.fields| && KeepOk(s, k)
    ensures |kept| == |k.at|
    ensures forall j :: 0 <= j < |k.at| ==> kept[j] == KeptItems(s.fields[k.at[j]].ltype, m[k.at[j]], k.subs[j])
    decreases s, 1
  {
    seq(|k.at|, j requires 0 <= j < |k.at| => KeptItems(s.fields[k.at[j]].ltype, m[k.at[j]], k.subs[j]))
  }

  lemma {:induction false} KeptWellFormed(s: Schema, k: Keep)
    requires WellFormed(s) && KeepOk(s, k)
    ensures WellFormed(Kept(s, k))
    decreases s, 1
  {
    hide WellFormedField, KeptField, KeepInside;
    forall j | 0 <= j < |k.at| ensures WellFormedField(Kept(s, k).fields[j]) {
      KeptFieldWellFormed(s.fields[k.at[j]], k.subs[j]);
    }
    SameTags(s, k);
  }

  lemma SameTags(s: Schema, k: Keep)
    requires KeepOk(s, k)
    ensures forall j :: 0 <= j < |k.at| ==> Kept(s, k).fields[j].tag == s.fields[k.at[j]].tag
  {
  }

  lemma {:induction false} KeptFieldWellFormed(f: Field, k: Keep)
    requires WellFormedField(f) && KeepInside(f.ltype, k)
    ensures WellFormedField(KeptField(f, k))
    decreases f, 0
  {
    hide Kept, Zero;
    if f.ltype.Sub? {
      KeptWellFormed(f.ltype.schema, k);
    }
  }

  lemma {:induction false} KeptFitsValue(t: LType, v: Value, k: Keep)
    requires FitsValue(t, v) && KeepInside(t, k)
    ensures FitsValue(KeptType(t, k), KeptValue(t, v, k))
    decreases t, 0
  {
    if t.Sub? {
      KeptFits(t.schema, v.slots, k);
    }
  }

  lemma {:induction false} KeptFitsSlot(f: Field, slot: Slot, k: Keep)
    requires FitsSlot(f, slot) && KeepInside(f.ltype, k)
    ensures FitsSlot(KeptField(f, k), KeptItems(f.ltype, slot, k))
    decreases f, 0
  {
    hide FitsValue, KeepInside, KeptValue, KeptType;
    forall n | 0 <= n < |slot| ensures FitsValue(KeptType(f.ltype, k), KeptItems(f.ltype, slot, k)[n]) {
      KeptFitsValue(f.ltype, slot[n], k);
    }
  }

  lemma {:induction false} KeptFits(s: Schema, m: seq<Slot>, k: Keep)
    requires Fits(s, m) && KeepOk(s, k)
    ensures Fits(Kept(s, k), KeptSlots(s, m, k))
    decreases s, 1
  {
    var s', m' := Kept(s, k), KeptSlots(s, m, k);
    hide FitsSlot;
    forall j | 0 <= j < |m'| ensures FitsSlot(s'.fields[j], m'[j]) {
      KeptFitsSlot(s.fields[k.at[j]], m[k.at[j]], k.subs[j]);
    }
    forall i: nat, j: nat | i < |m'| && j < |m'| ensures OneArm(s', m', i, j) {
      assert OneArm(s, m, k.at[i], k.at[j]);
    }
  }

  /** The initial message of the schema that keeps them is what is kept of the initial message. */
  lemma {:induction false} KeptDefaults(s: Schema, k: Keep)
    requires KeepOk(s, k)
    ensures KeptSlots(s, Defaults(s), k) == Defaults(Kept(s, k))
    decreases s, 1
  {
    hide Defaults;
    DefaultsAre(s);
    DefaultsAre(Kept(s, k));
    hide DefaultSlot, KeptField, KeepInside;
    forall j | 0 <= j < |k.at| ensures KeptSlots(s, Defaults(s), k)[j] == Defaults(Kept(s, k))[j] {
      KeptDefault(s.fields[k.at[j]], k.subs[j]);
    }
  }

  lemma DefaultsAre(s: Schema)
    ensures forall i :: 0 <= i < |s.fields| ==> Defaults(s)[i] == DefaultSlot(s.fields[i])
  {
  }

  lemma {:induction false} KeptDefault(f: Field, k: Keep)
    requires KeepInside(f.ltype, k)
    ensures KeptItems(f.ltype, DefaultSlot(f), k) == DefaultSlot(KeptField(f, k))
    decreases f, 0
  {
    hide Defaults, Kept, KeptSlots;
    if f.ltype.Sub? {
      KeptDefaults(f.ltype.schema, k);
    }
  }

  lemma {:induction false} ValueEvolves(t: LType, v: Value, k: Keep, rest: Bytes)
    requires WellFormedType(t) && FitsValue(t, v) && LengthsFit(t, v, NO_PADS) && KeepInside(t, k)
    ensures ReadValue(KeptType(t, k), Base(KeptType(t, k), []), PaddedValue(t, v, NO_PADS) + rest)
         == Got(KeptValue(t, v, k), rest)
    decreases t, 0
  {
    if t.Sub? {
      hide Varint, ReadVarint32, PaddedMessage, ReadMessage, Substream, Delimited;
      KeptDecodes(t.schema, v.slots, k);
      SubstreamRoundTrip(PaddedMessage(t.schema, v.slots, NO_PADS), rest);
    } else {
      hide *;
      PlainType(t, v, k);
      ValueRoundTrip(t, v, NO_PADS, rest);
    }
  }

  lemma PlainType(t: LType, v: Value, k: Keep)
    requires KeepInside(t, k) && !t.Sub?
    ensures KeptType(t, k) == t && KeptValue(t, v, k) == v && PadsInside(t, NO_PADS)
  {
  }

  lemma KeptFacts(s: Schema, m: seq<Slot>, k: Keep, j: nat)
    requires WellFormed(s) && Fits(s, m) && KeepOk(s, k) && j < |k.at|
    ensures var i, s', m' := k.at[j], Kept(s, k), KeptSlots(s, m, k);
            && i < |s.fields| == |m| && |s'.fields| == |m'| == |k.at| && KeepInside(s.fields[i].ltype, k.subs[j])
            && s'.fields[j] == KeptField(s.fields[i], k.subs[j]) && m'[j] == KeptItems(s.fields[i].ltype, m[i], k.subs[j])
            && TagFor(s'.fields[j]) == TagFor(s.fields[i])
  {
    hide Tag;
  }

  /** The next field is one that is kept. */
  ghost predicate AtKept(s: Schema, m: seq<Slot>, k: Keep, st: State, j: nat) {
    && WellFormed(s) && Fits(s, m) && PartsFit(s, m, NO_PADS) && KeepOk(s, k) && j < |k.at|
    && Midway(Kept(s, k), KeptSlots(s, m, k), st, j)
  }

  lemma OmittedEvolves(s: Schema, m: seq<Slot>, k: Keep, st: State, j: nat)
    requires AtKept(s, m, k, st, j) && Omitted(s, m, k.at[j])
    ensures After(Kept(s, k), KeptSlots(s, m, k), st, j) == st
  {
    var i, s', m' := k.at[j], Kept(s, k), KeptSlots(s, m, k);
    var f := s.fields[i];
    KeptFacts(s, m, k, j);
    assert WellFormedField(f) && FitsSlot(f, m[i]);
    hide RequiredIndex;
    if f.rule.Singular? {
      DefaultOnly(s, m, i);
      KeptDefault(f, k.subs[j]);
    }
    assert st.slots[j := st.slots[j]] == st.slots;
  }

  lemma SingleEvolves(s: Schema, m: seq<Slot>, k: Keep, st: State, j: nat, rest: Bytes)
    requires AtKept(s, m, k, st, j) && !IsArray(s.fields[k.at[j]].rule) && |m[k.at[j]]| == 1
    requires var f, v, q := s.fields[k.at[j]], m[k.at[j]][0], k.subs[j];
             ReadValue(KeptType(f.ltype, q), Base(KeptType(f.ltype, q), []), PaddedValue(f.ltype, v, NO_PADS) + rest)
               == Got(KeptValue(f.ltype, v, q), rest)
    ensures |st.slots| == |Kept(s, k).fields|
    ensures ReadFields(Kept(s, k), st, PaddedRecord(s.fields[k.at[j]], m[k.at[j]][0], NO_PADS) + rest)
         == ReadFields(Kept(s, k), After(Kept(s, k), KeptSlots(s, m, k), st, j), rest)
  {
    var s', m' := Kept(s, k), KeptSlots(s, m, k);
    KeptFacts(s, m, k, j);
    KeptWellFormed(s, k);
    KeptFits(s, m, k);
    assert |st.slots| == |m'|;
    var f, v := s.fields[k.at[j]], m[k.at[j]][0];
    hide ReadFields, ReadValue, Tag, Base, Midway, WellFormed, PaddedValue, Fits, After, Kept, KeptSlots, KeptType,
         KeptValue, KeepOk;
    PlainRecordIs(f, v);
    SingleRoundTrip(s', m', st, j, PaddedValue(f.ltype, v, NO_PADS), rest);
  }

  lemma PackedEvolves(s: Schema, m: seq<Slot>, k: Keep, st: State, j: nat, rest: Bytes)
    requires AtKept(s, m, k, st, j) && IsArray(s.fields[k.at[j]].rule) && Packable(s.fields[k.at[j]].ltype)
    requires m[k.at[j]] != [] && |BytesOf(PackedBytes(s.fields[k.at[j]].ltype, m[k.at[j]]))| < U32
    ensures |st.slots| == |Kept(s, k).fields|
    ensures ReadFields(Kept(s, k), st, PackedRecord(s.fields[k.at[j]], m[k.at[j]], NO_PADS) + rest)
         == ReadFields(Kept(s, k), After(Kept(s, k), KeptSlots(s, m, k), st, j), rest)
  {
    var i, s', m' := k.at[j], Kept(s, k), KeptSlots(s, m, k);
    var f := s.fields[i];
    KeptFacts(s, m, k, j);
    KeptWellFormed(s, k);
    FieldFacts(s, m, NO_PADS, i);
    PackedIsKept(f, m[i], k.subs[j]);
    hide *;
    OnePackedRecord(s', m', st, j, NO_PADS, rest);
    FilledIsAfter(s', m', st, j);
  }

  lemma PackedIsKept(f: Field, items: seq<Value>, k: Keep)
    requires KeepInside(f.ltype, k) && Packable(f.ltype)
    ensures KeptField(f, k) == f && KeptItems(f.ltype, items, k) == items && AreUnknown(Schema([]), [])
  {
  }

  /** The entries of an array that is not packed, read by what is kept of it. */
  ghost predicate KeptRead(s: Schema, k: Keep, st: State, j: nat, items: seq<Value>, rest: Bytes)
    requires KeepOk(s, k) && j < |k.at| == |st.slots|
  {
    var f := s.fields[k.at[j]];
    ReadFields(Kept(s, k), st, PaddedItems(f, items, NO_PADS, k.at[j]) + rest)
      == ReadFields(Kept(s, k), Filled(Kept(s, k), st, j, KeptItems(f.ltype, items, k.subs[j])), rest)
  }

  lemma NoKept(s: Schema, k: Keep, st: State, j: nat, rest: Bytes)
    requires KeepOk(s, k) && j < |k.at| == |st.slots|
    ensures KeptRead(s, k, st, j, [], rest)
  {
    assert [] + rest == rest;
  }

  lemma KeptSnoc(f: Field, items: seq<Value>, k: Keep)
    requires KeepInside(f.ltype, k) && items != []
    ensures var n := |items| - 1;
            KeptItems(f.ltype, items, k) == KeptItems(f.ltype, items[..n], k) + [KeptValue(f.ltype, items[n], k)]
  {
  }

  lemma OneMoreKept(s: Schema, m: seq<Slot>, k: Keep, st: State, j: nat, items: seq<Value>, rest: Bytes)
    requires AtKept(s, m, k, st, j) && IsArray(s.fields[k.at[j]].rule) && |st.slots| == |k.at|
    requires 0 < |items| <= Room(s.fields[k.at[j]].rule) && !Packable(s.fields[k.at[j]].ltype)
    requires var f, n, q := s.fields[k.at[j]], |items| - 1, k.subs[j];
             var e := PaddedValue(f.ltype, items[n], NO_PADS);
             && ReadValue(KeptType(f.ltype, q), Base(KeptType(f.ltype, q), []), e + rest)
                  == Got(KeptValue(f.ltype, items[n], q), rest)
             && KeptRead(s, k, st, j, items[..n], TagFor(f) + e + rest)
    ensures KeptRead(s, k, st, j, items, rest)
  {
    var s', m', q := Kept(s, k), KeptSlots(s, m, k), k.subs[j];
    var f, n := s.fields[k.at[j]], |items| - 1;
    var e := PaddedValue(f.ltype, items[n], NO_PADS);
    KeptFacts(s, m, k, j);
    KeptWellFormed(s, k);
    KeptSnoc(f, items, q);
    hide ReadFields, ReadValue, Tag, Base, Midway, WellFormed, PaddedValue, Fits, Kept, KeptSlots, KeptValue, KeepOk, Filled;
    ItemStep(s', m', st, j, KeptItems(f.ltype, items[..n], q), KeptValue(f.ltype, items[n], q), e, rest);
    PlainRecordIs(f, items[n]);
    NoPadAt(k.at[j], n);
    Regroup(PaddedItems(f, items[..n], NO_PADS, k.at[j]), TagFor(f) + e, rest);
  }

  lemma ItemFacts(s: Schema, m: seq<Slot>, k: Keep, st: State, j: nat)
    requires AtKept(s, m, k, st, j)
    ensures k.at[j] < |s.fields| && |st.slots| == |k.at| && j < |k.subs| && KeepOk(s, k)
    ensures WellFormedType(s.fields[k.at[j]].ltype) && KeepInside(s.fields[k.at[j]].ltype, k.subs[j])
  {
    KeptFacts(s, m, k, j);
    FieldFacts(s, m, NO_PADS, k.at[j]);
  }

  lemma {:induction false} ItemsEvolve(s: Schema, m: seq<Slot>, k: Keep, st: State, j: nat, items: seq<Value>, rest: Bytes)
    requires AtKept(s, m, k, st, j) && IsArray(s.fields[k.at[j]].rule) && !Packable(s.fields[k.at[j]].ltype)
    requires |items| <= Room(s.fields[k.at[j]].rule)
    requires forall n :: 0 <= n < |items| ==>
               FitsValue(s.fields[k.at[j]].ltype, items[n]) && LengthsFit(s.fields[k.at[j]].ltype, items[n], NO_PADS)
    ensures |st.slots| == |k.at| && KeptRead(s, k, st, j, items, rest)
    decreases s, 0, |items|
  {
    hide *;
    ItemFacts(s, m, k, st, j);
    if items == [] {
      NoKept(s, k, st, j, rest);
    } else {
      var f, n := s.fields[k.at[j]], |items| - 1;
      ItemsEvolve(s, m, k, st, j, items[..n], TagFor(f) + PaddedValue(f.ltype, items[n], NO_PADS) + rest);
      ValueEvolves(f.ltype, items[n], k.subs[j], rest);
      OneMoreKept(s, m, k, st, j, items, rest);
    }
  }

  lemma {:induction false} FieldEvolves(s: Schema, m: seq<Slot>, k: Keep, st: State, j: nat, rest: Bytes)
    requires AtKept(s, m, k, st, j)
    ensures |st.slots| == |Kept(s, k).fields|
    ensures ReadFields(Kept(s, k), st, PaddedField(s, m, NO_PADS, k.at[j]) + rest)
         == ReadFields(Kept(s, k), After(Kept(s, k), KeptSlots(s, m, k), st, j), rest)
    decreases s, 1
  {
    var i := k.at[j];
    var f := s.fields[i];
    KeptFacts(s, m, k, j);
    FieldFacts(s, m, NO_PADS, i);
    OmittedIfEmpty(s, m, i);
    NoPads(f.ltype, m[i], i);
    assert |st.slots| == |k.at|;
    hide ReadFields, PaddedRecord, PackedRecord, PaddedItems, WellFormed, Fits, AtKept, KeepOk, Kept, KeptSlots, KeepInside;
    hide After, Filled, FitsValue, LengthsFit, Omitted, PackedBytes, KeptType, KeptValue;
    if Omitted(s, m, i) {
      OmittedEvolves(s, m, k, st, j);
      assert [] + rest == rest;
    } else if !IsArray(f.rule) {
      ValueEvolves(f.ltype, m[i][0], k.subs[j], rest);
      SingleEvolves(s, m, k, st, j, rest);
    } else if Packable(f.ltype) {
      PackedEvolves(s, m, k, st, j, rest);
    } else {
      ItemsEvolve(s, m, k, st, j, m[i], rest);
      FilledIsAfter(Kept(s, k), KeptSlots(s, m, k), st, j);
    }
  }

  /** The first j kept fields are those below i. */
  ghost predicate SoFar(k: Keep, i: nat, j: nat) {
    j <= |k.at| && (forall n :: 0 <= n < j ==> k.at[n] < i) && (forall n :: j <= n < |k.at| ==> i <= k.at[n])
  }

  lemma DroppedIsLacking(s: Schema, k: Keep, i: nat, j: nat)
    requires WellFormed(s) && KeepOk(s, k) && SoFar(k, i, j) && i < |s.fields| && !(j < |k.at| && k.at[j] == i)
    ensures Lacks(Kept(s, k), s.fields[i].tag) && SoFar(k, i + 1, j)
  {
    forall n | 0 <= n < |k.at| ensures k.at[n] != i && Kept(s, k).fields[n].tag != s.fields[i].tag {
      assert s.fields[k.at[n]].tag == Kept(s, k).fields[n].tag;
    }
  }

  lemma {:induction false} RestEvolves(s: Schema, m: seq<Slot>, k: Keep, st: State, i: nat, j: nat)
    requires WellFormed(s) && Fits(s, m) && PartsFit(s, m, NO_PADS) && KeepOk(s, k) && i <= |s.fields| && SoFar(k, i, j)
    requires Midway(Kept(s, k), KeptSlots(s, m, k), st, j)
    ensures |st.slots| == |k.at|
    ensures ReadsAll(Kept(s, k), KeptSlots(s, m, k), st, PaddedFrom(s, m, NO_PADS, i))
    decreases s, 2, |s.fields| - i
  {
    hide *;
    RestFacts(s, m, k, st, i, j);
    var s', m' := Kept(s, k), KeptSlots(s, m, k);
    if i == |s.fields| {
      NothingLeft(s, m, k, st, j);
    } else {
      FromSplits(s, m, i);
      var rest := PaddedFrom(s, m, NO_PADS, i + 1);
      var b := PaddedFrom(s, m, NO_PADS, i);
      if j < |k.at| && k.at[j] == i {
        FieldIsKept(s, m, k, st, i, j);
        FieldEvolves(s, m, k, st, j, rest);
        AfterIsMidway(s', m', st, j);
        RestEvolves(s, m, k, After(s', m', st, j), i + 1, j + 1);
        ReadsAllFrom(s', m', st, b, After(s', m', st, j), rest);
      } else {
        DroppedIsLacking(s, k, i, j);
        FieldSkipped(s', st, s, m, i, rest);
        RestEvolves(s, m, k, st, i + 1, j);
        ReadsAllFrom(s', m', st, b, st, rest);
      }
    }
  }

  lemma RestFacts(s: Schema, m: seq<Slot>, k: Keep, st: State, i: nat, j: nat)
    requires WellFormed(s) && Fits(s, m) && KeepOk(s, k) && i <= |s.fields| && SoFar(k, i, j)
    requires Midway(Kept(s, k), KeptSlots(s, m, k), st, j)
    ensures |st.slots| == |k.at| && |m| == |s.fields| && j <= |k.at| && (i == |s.fields| ==> j == |k.at|)
    ensures WellFormed(Kept(s, k)) && Fits(Kept(s, k), KeptSlots(s, m, k))
  {
    hide Midway, Fits, WellFormed;
    KeptWellFormed(s, k);
    KeptFits(s, m, k);
    SameLengths(s, m, k, st, j);
    assert j < |k.at| ==> k.at[j] < |s.fields|;
  }

  lemma SameLengths(s: Schema, m: seq<Slot>, k: Keep, st: State, j: nat)
    requires Fits(s, m) && KeepOk(s, k) && j <= |k.at| && Midway(Kept(s, k), KeptSlots(s, m, k), st, j)
    ensures |st.slots| == |k.at| && |m| == |s.fields|
  {
  }

  lemma NothingLeft(s: Schema, m: seq<Slot>, k: Keep, st: State, j: nat)
    requires |m| == |s.fields| && KeepOk(s, k) && j == |k.at| && Midway(Kept(s, k), KeptSlots(s, m, k), st, j)
    ensures |st.slots| == |k.at| && ReadsAll(Kept(s, k), KeptSlots(s, m, k), st, PaddedFrom(s, m, NO_PADS, |m|))
  {
    hide ReadsAll, Midway, Kept, KeptSlots;
    PaddedEnd(Kept(s, k), KeptSlots(s, m, k), [], st);
  }

  lemma FieldIsKept(s: Schema, m: seq<Slot>, k: Keep, st: State, i: nat, j: nat)
    requires WellFormed(s) && Fits(s, m) && PartsFit(s, m, NO_PADS) && KeepOk(s, k) && SoFar(k, i, j)
    requires Midway(Kept(s, k), KeptSlots(s, m, k), st, j) && j < |k.at| && k.at[j] == i
    ensures AtKept(s, m, k, st, j) && SoFar(k, i + 1, j + 1)
  {
  }

  lemma {:induction false} KeptDecodes(s: Schema, m: seq<Slot>, k: Keep)
    requires WellFormed(s) && Fits(s, m) && PartsFit(s, m, NO_PADS) && KeepOk(s, k)
    ensures Decode(Kept(s, k), PaddedMessage(s, m, NO_PADS)) == Some(KeptSlots(s, m, k))
    decreases s, 3
  {
    var s', m' := Kept(s, k), KeptSlots(s, m, k);
    StartsMidway(s', m');
    RestEvolves(s, m, k, State(Defaults(s'), None, {}), 0, 0);
  }

  /** A decoder whose schema lacks fields, at any depth, reads exactly the others. */
  lemma DecodedWithout(s: Schema, m: seq<Slot>, k: Keep)
    requires WellFormed(s) && Fits(s, m) && PartsFit(s, m, NO_PADS) && KeepOk(s, k)
    ensures MessageBytes(s, m).Some?
    ensures Decode(Kept(s, k), MessageBytes(s, m).value) == Some(KeptSlots(s, m, k))
  {
    hide *;
    PlainMessage(s, m);
    KeptDecodes(s, m, k);
  }
}
