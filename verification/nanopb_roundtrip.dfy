/** Decoding what was encoded gives the message back, also with fields that the schema
    does not know in every gap between the encoded ones, at every depth. */
module NanopbRoundTrip {
  import opened Wrappers
  import opened LittleEndian
  import opened NanopbWire
  import opened NanopbMessage
  import opened NanopbReading
  import opened NanopbFields

  // ---------- Encodings with unknown fields ----------

  /** The unknown fields of an encoding: those in front of this record, those inside it,
      if it is a submessage, by field and entry, and those at the end of it. */
  datatype Pads = Pads(lead: seq<Unknown>, inside: seq<seq<Pads>>, tail: seq<Unknown>)

  const NO_PADS := Pads([], [], [])

  /** The pads of entry k of field i. */
  function PadAt(p: Pads, i: nat, k: nat): Pads {
    if i < |p.inside| && k < |p.inside[i]| then p.inside[i][k] else NO_PADS
  }

  function BytesOf(b: Option<Bytes>): Bytes {
    if b.Some? then b.value else []
  }

  ghost function PaddedValue(t: LType, v: Value, p: Pads): Bytes
    decreases t, 0
  {
    if t.Sub? && v.Msg? && |v.slots| == |t.schema.fields| then Delimited(PaddedMessage(t.schema, v.slots, p))
    else BytesOf(ValueBytes(t, v))
  }

  /** A tag and a value, behind its unknown fields. */
  ghost function PaddedRecord(f: Field, v: Value, p: Pads): Bytes
    decreases f, 0
  {
    UnknownBytes(p.lead) + (TagFor(f) + PaddedValue(f.ltype, v, p))
  }

  ghost function PaddedItems(f: Field, items: seq<Value>, p: Pads, i: nat): Bytes
    decreases f, 1, |items|
  {
    if items == [] then []
    else
      var k := |items| - 1;
      PaddedItems(f, items[..k], p, i) + PaddedRecord(f, items[k], PadAt(p, i, k))
  }

  ghost function PackedRecord(f: Field, items: seq<Value>, p: Pads): Bytes {
    UnknownBytes(p.lead) + (Tag(WT_STRING, f.tag) + Delimited(BytesOf(PackedBytes(f.ltype, items))))
  }

  /** The field is not encoded. */
  predicate Omitted(s: Schema, m: seq<Slot>, i: nat)
    requires i < |s.fields| == |m|
  {
    m[i] == [] || (s.fields[i].rule.Singular? && IsDefault(s, m, i))
  }

  ghost function PaddedField(s: Schema, m: seq<Slot>, p: Pads, i: nat): Bytes
    requires i < |s.fields| == |m|
    decreases s, 0
  {
    var f := s.fields[i];
    if Omitted(s, m, i) then []
    else if !IsArray(f.rule) then PaddedRecord(f, m[i][0], PadAt(p, i, 0))
    else if Packable(f.ltype) then PackedRecord(f, m[i], PadAt(p, i, 0))
    else PaddedItems(f, m[i], p, i)
  }

  ghost function PaddedFrom(s: Schema, m: seq<Slot>, p: Pads, i: nat): Bytes
    requires i <= |s.fields| == |m|
    decreases s, 1, |s.fields| - i
  {
    if i == |m| then UnknownBytes(p.tail) else PaddedField(s, m, p, i) + PaddedFrom(s, m, p, i + 1)
  }

  ghost function PaddedMessage(s: Schema, m: seq<Slot>, p: Pads): Bytes
    requires |s.fields| == |m|
    decreases s, 2
  {
    PaddedFrom(s, m, p, 0)
  }

  ghost predicate AreUnknown(s: Schema, us: seq<Unknown>) {
    forall k :: 0 <= k < |us| ==> IsUnknown(s, us[k])
  }

  /** All the pads are well formed and unknown to the schema of the message they are in. */
  ghost predicate ArePads(s: Schema, p: Pads)
    decreases s, 0
  {
    && AreUnknown(s, p.tail)
    && forall i: nat, k: nat :: i < |s.fields| ==>
         && AreUnknown(s, PadAt(p, i, k).lead)
         && PadsInside(s.fields[i].ltype, PadAt(p, i, k))
  }

  ghost predicate PadsInside(t: LType, p: Pads)
    decreases t, 0
  {
    t.Sub? ==> ArePads(t.schema, p)
  }

  /** The decoder reads lengths as 32 bits: every part that has a length stays below 4 GiB. */
  ghost predicate LengthsFit(t: LType, v: Value, p: Pads)
    decreases t, 0
  {
    match t
    case Sub(s) =>
      v.Msg? && |v.slots| == |s.fields| ==> |PaddedMessage(s, v.slots, p)| < U32 && PartsFit(s, v.slots, p)
    case BytesT(_) => v.Blob? ==> |v.b| < U32
    case StringT(_) => v.Blob? ==> |v.b| < U32
    case FixedBytesT(_) => v.Blob? ==> |v.b| < U32
    case _ => true
  }

  ghost predicate SlotFits(f: Field, slot: Slot, p: Pads, i: nat)
    decreases f, 0
  {
    if IsArray(f.rule) && Packable(f.ltype) then |BytesOf(PackedBytes(f.ltype, slot))| < U32
    else forall k: nat :: k < |slot| ==> LengthsFit(f.ltype, slot[k], PadAt(p, i, k))
  }

  ghost predicate PartsFit(s: Schema, m: seq<Slot>, p: Pads)
    requires |m| == |s.fields|
    decreases s, 1
  {
    forall i: nat :: i < |m| ==> Omitted(s, m, i) || SlotFits(s.fields[i], m[i], p, i)
  }

  // ---------- Values and array entries ----------

  lemma DelimitedLonger(b: Bytes)
    ensures |b| < |Delimited(b)|
  {
  }

  lemma {:induction false} ValueRoundTrip(t: LType, v: Value, p: Pads, rest: Bytes)
    requires WellFormedType(t) && FitsValue(t, v) && PadsInside(t, p) && LengthsFit(t, v, p)
    ensures ReadValue(t, Base(t, []), PaddedValue(t, v, p) + rest) == Got(v, rest)
    decreases t, 0
  {
    match t
    case Sub(s) =>
      hide Varint, ReadVarint32, PaddedMessage, ReadMessage, Substream, Delimited;
      DecodePadded(s, v.slots, p);
      SubstreamRoundTrip(PaddedMessage(s, v.slots, p), rest);
    case BytesT(_) => BlobRoundTrip(t, v.b, rest);
    case StringT(_) => BlobRoundTrip(t, v.b, rest);
    case FixedBytesT(_) => BlobRoundTrip(t, v.b, rest);
    case _ => NumberRoundTrip(t, v.n, rest);
  }

  /** The bytes of these entries fill array i with them. */
  ghost predicate ItemsRead(s: Schema, st: State, i: nat, items: seq<Value>, p: Pads, rest: Bytes)
    requires i < |s.fields| == |st.slots|
  {
    ReadFields(s, st, PaddedItems(s.fields[i], items, p, i) + rest) == ReadFields(s, Filled(s, st, i, items), rest)
  }

  lemma NoItems(s: Schema, st: State, i: nat, p: Pads, rest: Bytes)
    requires i < |s.fields| == |st.slots|
    ensures ItemsRead(s, st, i, [], p, rest)
  {
    assert [] + rest == rest;
  }

  lemma ItemsSnoc(f: Field, items: seq<Value>, p: Pads, i: nat, rest: Bytes)
    requires items != []
    ensures var k := |items| - 1;
            var q := PadAt(p, i, k);
            PaddedItems(f, items, p, i) + rest == PaddedItems(f, items[..k], p, i)
              + (UnknownBytes(q.lead) + (TagFor(f) + PaddedValue(f.ltype, items[k], q) + rest))
  {
    hide UnknownBytes, PaddedValue, Tag;
  }

  lemma OneMoreItem(s: Schema, m: seq<Slot>, st: State, i: nat, items: seq<Value>, p: Pads, rest: Bytes)
    requires WellFormed(s) && i < |s.fields| == |m| && Midway(s, m, st, i) && IsArray(s.fields[i].rule)
    requires 0 < |items| <= Room(s.fields[i].rule) && !Packable(s.fields[i].ltype) && |st.slots| == |m|
    requires var f, k := s.fields[i], |items| - 1;
             var q := PadAt(p, i, k);
             var record := TagFor(f) + PaddedValue(f.ltype, items[k], q) + rest;
             && AreUnknown(s, q.lead)
             && ReadValue(f.ltype, Base(f.ltype, []), PaddedValue(f.ltype, items[k], q) + rest) == Got(items[k], rest)
             && ItemsRead(s, st, i, items[..k], p, UnknownBytes(q.lead) + record)
    ensures ItemsRead(s, st, i, items, p, rest)
  {
    hide ReadFields, ReadValue, Tag, Base, Midway, ValueBytes, WellFormed, PaddedItems, PaddedValue, UnknownBytes, Filled;
    var f, k := s.fields[i], |items| - 1;
    var q := PadAt(p, i, k);
    var e := PaddedValue(f.ltype, items[k], q);
    FilledSlots(s, st, i, items[..k]);
    ItemsSnoc(f, items, p, i, rest);
    SkipsUnknown(s, Filled(s, st, i, items[..k]), q.lead, TagFor(f) + e + rest);
    ItemStep(s, m, st, i, items[..k], items[k], e, rest);
    assert items[..k] + [items[k]] == items;
  }

  lemma FilledSlots(s: Schema, st: State, i: nat, items: seq<Value>)
    requires i < |s.fields| == |st.slots|
    ensures |Filled(s, st, i, items).slots| == |st.slots|
  {
  }

  lemma ArrayFacts(s: Schema, m: seq<Slot>, st: State, i: nat)
    requires WellFormed(s) && i < |s.fields| == |m| && Midway(s, m, st, i)
    ensures |st.slots| == |m| && WellFormedType(s.fields[i].ltype)
  {
    assert WellFormedField(s.fields[i]);
  }

  lemma PadFacts(s: Schema, p: Pads, i: nat, k: nat)
    requires ArePads(s, p) && i < |s.fields|
    ensures AreUnknown(s, PadAt(p, i, k).lead) && PadsInside(s.fields[i].ltype, PadAt(p, i, k))
  {
  }

  /** The entries of an array that is not packed. */
  lemma {:induction false} ItemsRoundTrip(s: Schema, m: seq<Slot>, st: State, i: nat, items: seq<Value>, p: Pads, rest: Bytes)
    requires WellFormed(s) && i < |s.fields| == |m| && Midway(s, m, st, i) && IsArray(s.fields[i].rule)
    requires |items| <= Room(s.fields[i].rule) && !Packable(s.fields[i].ltype) && ArePads(s, p)
    requires forall k: nat :: k < |items| ==>
               FitsValue(s.fields[i].ltype, items[k]) && LengthsFit(s.fields[i].ltype, items[k], PadAt(p, i, k))
    ensures |st.slots| == |s.fields| && ItemsRead(s, st, i, items, p, rest)
    decreases s, 0, |items|
  {
    hide *;
    ArrayFacts(s, m, st, i);
    if items == [] {
      NoItems(s, st, i, p, rest);
    } else {
      var f, k := s.fields[i], |items| - 1;
      var q := PadAt(p, i, k);
      PadFacts(s, p, i, k);
      ItemsRoundTrip(s, m, st, i, items[..k], p, UnknownBytes(q.lead) + (TagFor(f) + PaddedValue(f.ltype, items[k], q) + rest));
      ValueRoundTrip(f.ltype, items[k], q, rest);
      OneMoreItem(s, m, st, i, items, p, rest);
    }
  }

  // ---------- Fields ----------

  lemma OneRecord(s: Schema, m: seq<Slot>, st: State, i: nat, p: Pads, rest: Bytes)
    requires WellFormed(s) && i < |s.fields| == |m| && Fits(s, m) && Midway(s, m, st, i)
    requires !IsArray(s.fields[i].rule) && |m[i]| == 1 && AreUnknown(s, PadAt(p, i, 0).lead)
    requires var f, q := s.fields[i], PadAt(p, i, 0);
             ReadValue(f.ltype, Base(f.ltype, []), PaddedValue(f.ltype, m[i][0], q) + rest) == Got(m[i][0], rest)
    ensures ReadFields(s, st, PaddedRecord(s.fields[i], m[i][0], PadAt(p, i, 0)) + rest) == ReadFields(s, After(s, m, st, i), rest)
  {
    assert |st.slots| == |m|;
    hide ReadFields, ReadValue, Tag, Base, Midway, WellFormed, PaddedValue, UnknownBytes, Fits, After;
    var f, q := s.fields[i], PadAt(p, i, 0);
    var e := PaddedValue(f.ltype, m[i][0], q);
    assert PaddedRecord(f, m[i][0], q) + rest == UnknownBytes(q.lead) + (TagFor(f) + e + rest);
    SkipsUnknown(s, st, q.lead, TagFor(f) + e + rest);
    SingleRoundTrip(s, m, st, i, e, rest);
  }

  lemma OnePackedRecord(s: Schema, m: seq<Slot>, st: State, i: nat, q: Pads, rest: Bytes)
    requires WellFormed(s) && i < |s.fields| == |m| && Midway(s, m, st, i) && IsArray(s.fields[i].rule)
    requires Packable(s.fields[i].ltype) && m[i] != [] && |m[i]| <= Room(s.fields[i].rule) && AreUnknown(s, q.lead)
    requires forall k :: 0 <= k < |m[i]| ==> FitsValue(s.fields[i].ltype, m[i][k])
    requires |BytesOf(PackedBytes(s.fields[i].ltype, m[i]))| < U32
    ensures |st.slots| == |m|
    ensures ReadFields(s, st, PackedRecord(s.fields[i], m[i], q) + rest) == ReadFields(s, Filled(s, st, i, m[i]), rest)
  {
    hide *;
    ArrayFacts(s, m, st, i);
    var f := s.fields[i];
    var part := BytesOf(PackedBytes(f.ltype, m[i]));
    PackedEntries(f.ltype, Room(f.rule), m[i]);
    PackedParts(f, m[i], q, rest);
    var record := Tag(WT_STRING, f.tag) + Delimited(part) + rest;
    LeadSkipped(s, st, q.lead, record);
    PackedStep(s, m, st, i, part, rest);
  }

  /** A packed array is read back from its bytes. */
  lemma PackedEntries(t: LType, max: nat, items: seq<Value>)
    requires Packable(t) && WellFormedType(t) && |items| <= max
    requires forall k :: 0 <= k < |items| ==> FitsValue(t, items[k])
    ensures ReadPacked(t, max, [], BytesOf(PackedBytes(t, items))) == Some(items)
  {
    PackedRoundTrip(t, max, items, []);
    hide PackedBytes, WellFormedType, FitsValue;
    var part := BytesOf(PackedBytes(t, items));
    assert part + [] == part;
  }

  lemma PackedParts(f: Field, items: seq<Value>, q: Pads, rest: Bytes)
    ensures PackedRecord(f, items, q) + rest ==
            UnknownBytes(q.lead) + (Tag(WT_STRING, f.tag) + Delimited(BytesOf(PackedBytes(f.ltype, items))) + rest)
  {
    hide UnknownBytes, Tag, Delimited, BytesOf;
  }

  lemma LeadSkipped(s: Schema, st: State, us: seq<Unknown>, rest: Bytes)
    requires |st.slots| == |s.fields| && AreUnknown(s, us)
    ensures ReadFields(s, st, UnknownBytes(us) + rest) == ReadFields(s, st, rest)
  {
    hide ReadFields, UnknownBytes;
    SkipsUnknown(s, st, us, rest);
  }

  /** A field that is not encoded holds what it is initialised to. */
  lemma OmittedField(s: Schema, m: seq<Slot>, st: State, i: nat)
    requires WellFormed(s) && Fits(s, m) && i < |s.fields| && Midway(s, m, st, i) && Omitted(s, m, i)
    ensures After(s, m, st, i) == st
  {
    var f := s.fields[i];
    assert WellFormedField(f) && FitsSlot(f, m[i]);
    hide RequiredIndex;
    if f.rule.Singular? {
      DefaultOnly(s, m, i);
    }
    assert st.slots[i := st.slots[i]] == st.slots;
  }

  lemma FilledIsAfter(s: Schema, m: seq<Slot>, st: State, i: nat)
    requires i < |s.fields| == |m| == |st.slots| && IsArray(s.fields[i].rule) && m[i] != []
    ensures Filled(s, st, i, m[i]) == After(s, m, st, i)
  {
  }

  lemma FieldFacts(s: Schema, m: seq<Slot>, p: Pads, i: nat)
    requires WellFormed(s) && Fits(s, m) && i < |s.fields| && PartsFit(s, m, p)
    ensures var f := s.fields[i];
            && WellFormedType(f.ltype) && FitsCount(f.rule, |m[i]|) && (Omitted(s, m, i) || SlotFits(f, m[i], p, i))
            && forall k :: 0 <= k < |m[i]| ==> FitsValue(f.ltype, m[i][k])
  {
    assert WellFormedField(s.fields[i]) && FitsSlot(s.fields[i], m[i]);
  }

  /** The bytes of one field take the decoder over that field. */
  lemma {:induction false} FieldRoundTrip(s: Schema, m: seq<Slot>, p: Pads, st: State, i: nat, rest: Bytes)
    requires WellFormed(s) && Fits(s, m) && i < |s.fields| && Midway(s, m, st, i) && ArePads(s, p) && PartsFit(s, m, p)
    ensures ReadFields(s, st, PaddedField(s, m, p, i) + rest) == ReadFields(s, After(s, m, st, i), rest)
    decreases s, 1
  {
    var f := s.fields[i];
    FieldFacts(s, m, p, i);
    ArrayFacts(s, m, st, i);
    PadFacts(s, p, i, 0);
    hide ReadFields, ReadValue, Base, PaddedRecord, PackedRecord, PaddedItems, Midway, WellFormed, Fits, ArePads, PartsFit;
    hide After, Filled, WellFormedType, LengthsFit, FitsValue, PackedBytes, Omitted;
    if Omitted(s, m, i) {
      OmittedField(s, m, st, i);
      assert [] + rest == rest;
    } else if !IsArray(f.rule) {
      OmittedIfEmpty(s, m, i);
      ValueRoundTrip(f.ltype, m[i][0], PadAt(p, i, 0), rest);
      OneRecord(s, m, st, i, p, rest);
    } else {
      OmittedIfEmpty(s, m, i);
      FilledIsAfter(s, m, st, i);
      if Packable(f.ltype) {
        OnePackedRecord(s, m, st, i, PadAt(p, i, 0), rest);
      } else {
        ItemsRoundTrip(s, m, st, i, m[i], p, rest);
      }
    }
  }

  lemma OmittedIfEmpty(s: Schema, m: seq<Slot>, i: nat)
    requires i < |s.fields| == |m|
    ensures m[i] == [] ==> Omitted(s, m, i)
  {
  }

  // ---------- Messages ----------

  /** From this state the loop ends with the message complete. */
  ghost predicate ReadsAll(s: Schema, m: seq<Slot>, st: State, b: Bytes)
    requires |st.slots| == |s.fields|
  {
    var r := ReadFields(s, st, b);
    r.Loop? && r.st.slots == m && Complete(s, r.st)
  }

  lemma MidwayEnds(s: Schema, m: seq<Slot>, st: State)
    requires |m| == |s.fields| && Midway(s, m, st, |m|)
    ensures st.slots == m && Complete(s, st)
  {
  }

  lemma NothingToRead(s: Schema, st: State)
    requires |st.slots| == |s.fields|
    ensures ReadFields(s, st, []) == Loop(st, [])
  {
  }

  lemma PaddedEnd(s: Schema, m: seq<Slot>, us: seq<Unknown>, st: State)
    requires |m| == |s.fields| && Midway(s, m, st, |m|) && AreUnknown(s, us)
    ensures |st.slots| == |m| && ReadsAll(s, m, st, UnknownBytes(us))
  {
    hide ReadFields, UnknownBytes, IsUnknown, Midway, Complete;
    MidwayEnds(s, m, st);
    NothingToRead(s, st);
    assert UnknownBytes(us) + [] == UnknownBytes(us);
    SkipsUnknown(s, st, us, []);
  }

  lemma ReadsAllFrom(s: Schema, m: seq<Slot>, st: State, b: Bytes, st': State, b': Bytes)
    requires |st.slots| == |s.fields| == |st'.slots| && ReadFields(s, st, b) == ReadFields(s, st', b')
    ensures ReadsAll(s, m, st', b') ==> ReadsAll(s, m, st, b)
  {
  }

  lemma {:induction false} PaddedRoundTrip(s: Schema, m: seq<Slot>, p: Pads, st: State, i: nat)
    requires WellFormed(s) && Fits(s, m) && ArePads(s, p) && PartsFit(s, m, p) && i <= |m| && Midway(s, m, st, i)
    ensures |st.slots| == |s.fields| && ReadsAll(s, m, st, PaddedFrom(s, m, p, i))
    decreases s, 2, |m| - i
  {
    assert |m| == |s.fields| == |st.slots|;
    if i == |m| {
      assert AreUnknown(s, p.tail);
      hide UnknownBytes, ReadsAll, Midway;
      PaddedEnd(s, m, p.tail, st);
    } else {
      hide PaddedField, Fits, WellFormed, Midway, ReadsAll, ReadFields, ArePads, PartsFit;
      var st' := After(s, m, st, i);
      FieldRoundTrip(s, m, p, st, i, PaddedFrom(s, m, p, i + 1));
      AfterIsMidway(s, m, st, i);
      PaddedRoundTrip(s, m, p, st', i + 1);
      ReadsAllFrom(s, m, st, PaddedFrom(s, m, p, i), st', PaddedFrom(s, m, p, i + 1));
    }
  }

  lemma StartsMidway(s: Schema, m: seq<Slot>)
    requires |m| == |s.fields|
    ensures Midway(s, m, State(Defaults(s), None, {}), 0)
  {
  }

  /** pb_decode reads back what pb_encode wrote, with unknown fields anywhere in between. */
  lemma {:induction false} DecodePadded(s: Schema, m: seq<Slot>, p: Pads)
    requires WellFormed(s) && Fits(s, m) && ArePads(s, p) && PartsFit(s, m, p)
    ensures Decode(s, PaddedMessage(s, m, p)) == Some(m)
    decreases s, 3
  {
    StartsMidway(s, m);
    PaddedRoundTrip(s, m, p, State(Defaults(s), None, {}), 0);
  }

  // ---------- Short encodings ----------

  lemma {:induction false} ShortValue(t: LType, v: Value, p: Pads)
    requires WellFormedType(t) && FitsValue(t, v) && |PaddedValue(t, v, p)| < U32
    ensures LengthsFit(t, v, p)
    decreases t, 0
  {
    hide Varint;
    if t.Sub? {
      DelimitedLonger(PaddedMessage(t.schema, v.slots, p));
      ShortMessage(t.schema, v.slots, p);
    } else if v.Blob? {
      DelimitedLonger(v.b);
    }
  }

  lemma {:induction false} ShortItems(f: Field, items: seq<Value>, p: Pads, i: nat)
    requires WellFormedType(f.ltype) && |PaddedItems(f, items, p, i)| < U32
    requires forall k :: 0 <= k < |items| ==> FitsValue(f.ltype, items[k])
    ensures forall k: nat :: k < |items| ==> LengthsFit(f.ltype, items[k], PadAt(p, i, k))
    decreases f, 1, |items|
  {
    if items != [] {
      hide LengthsFit, FitsValue, WellFormedType, PaddedValue, UnknownBytes, Tag;
      var k := |items| - 1;
      ShortItems(f, items[..k], p, i);
      ShortValue(f.ltype, items[k], PadAt(p, i, k));
    }
  }

  lemma {:induction false} FieldWithin(s: Schema, m: seq<Slot>, p: Pads, i: nat, j: nat)
    requires i <= j < |s.fields| == |m|
    ensures |PaddedField(s, m, p, j)| <= |PaddedFrom(s, m, p, i)|
    decreases j - i
  {
    hide PaddedField;
    if i < j {
      FieldWithin(s, m, p, i + 1, j);
    }
  }

  /** Below 4 GiB as a whole, every part of a message is. */
  lemma {:induction false} ShortMessage(s: Schema, m: seq<Slot>, p: Pads)
    requires WellFormed(s) && Fits(s, m) && |PaddedMessage(s, m, p)| < U32
    ensures PartsFit(s, m, p)
    decreases s, 2
  {
    forall i: nat | i < |m| && !Omitted(s, m, i) ensures SlotFits(s.fields[i], m[i], p, i) {
      var f := s.fields[i];
      assert WellFormedField(f) && FitsSlot(f, m[i]);
      FieldWithin(s, m, p, 0, i);
      OmittedIfEmpty(s, m, i);
      hide Tag, UnknownBytes, PaddedFrom, PaddedValue, LengthsFit, PackedBytes, Varint, Omitted;
      if IsArray(f.rule) && !Packable(f.ltype) {
        ShortItems(f, m[i], p, i);
      } else if !IsArray(f.rule) {
        ShortValue(f.ltype, m[i][0], PadAt(p, i, 0));
      }
    }
  }

  // ---------- Encodings without unknown fields ----------

  lemma NoPadAt(i: nat, k: nat)
    ensures PadAt(NO_PADS, i, k) == NO_PADS
  {
  }

  lemma {:induction false} NoPadsArePads(s: Schema)
    ensures ArePads(s, NO_PADS)
    decreases s
  {
    forall i: nat, k: nat | i < |s.fields|
      ensures AreUnknown(s, PadAt(NO_PADS, i, k).lead) && PadsInside(s.fields[i].ltype, PadAt(NO_PADS, i, k))
    {
      if s.fields[i].ltype.Sub? {
        NoPadsArePads(s.fields[i].ltype.schema);
      }
    }
  }

  lemma {:induction false} PlainValue(t: LType, v: Value)
    requires WellFormedType(t) && FitsValue(t, v)
    ensures ValueBytes(t, v) == Some(PaddedValue(t, v, NO_PADS))
    decreases t, 0
  {
    ValueHasBytes(t, v);
    if t.Sub? {
      PlainMessage(t.schema, v.slots);
    }
  }

  lemma {:induction false} PlainItems(f: Field, items: seq<Value>, i: nat)
    requires WellFormedType(f.ltype) && forall k :: 0 <= k < |items| ==> FitsValue(f.ltype, items[k])
    ensures TaggedItems(f, items) == Some(PaddedItems(f, items, NO_PADS, i))
    decreases f, 1, |items|
  {
    if items != [] {
      var k := |items| - 1;
      PlainItems(f, items[..k], i);
      PlainRecord(f, items[k]);
      NoPadAt(i, k);
    }
  }

  lemma {:induction false} PlainRecord(f: Field, v: Value)
    requires WellFormedType(f.ltype) && FitsValue(f.ltype, v)
    ensures Tagged(f, v) == Some(PaddedRecord(f, v, NO_PADS))
    decreases f, 0
  {
    PlainValue(f.ltype, v);
    hide PaddedValue, ValueBytes, Tag;
    var b := TagFor(f) + PaddedValue(f.ltype, v, NO_PADS);
    assert UnknownBytes([]) + b == b;
  }

  lemma PlainPacked(f: Field, items: seq<Value>)
    requires PackedBytes(f.ltype, items).Some?
    ensures PackedRecord(f, items, NO_PADS) == Tag(WT_STRING, f.tag) + Delimited(PackedBytes(f.ltype, items).value)
  {
    hide PackedBytes, Tag, Delimited;
    var b := Tag(WT_STRING, f.tag) + Delimited(PackedBytes(f.ltype, items).value);
    assert UnknownBytes([]) + b == b;
  }

  lemma {:induction false} PlainField(s: Schema, m: seq<Slot>, i: nat)
    requires WellFormed(s) && Fits(s, m) && i < |s.fields|
    ensures FieldBytes(s, m, i) == Some(PaddedField(s, m, NO_PADS, i))
    decreases s, 0
  {
    var f := s.fields[i];
    assert WellFormedField(f) && FitsSlot(f, m[i]) && WellFormedType(f.ltype);
    NoPadAt(i, 0);
    hide Tagged, PaddedRecord, PackedRecord, TaggedItems, PaddedItems, PackedBytes, Delimited, Tag;
    if IsArray(f.rule) {
      PackedHasBytes(f.ltype, m[i]);
      if Packable(f.ltype) {
        PlainPacked(f, m[i]);
      } else {
        PlainItems(f, m[i], i);
      }
    } else if m[i] != [] {
      PlainRecord(f, m[i][0]);
    }
  }

  lemma {:induction false} PlainFrom(s: Schema, m: seq<Slot>, i: nat)
    requires WellFormed(s) && Fits(s, m) && i <= |s.fields|
    ensures FieldsFrom(s, m, i) == Some(PaddedFrom(s, m, NO_PADS, i))
    decreases s, 1, |s.fields| - i
  {
    if i < |m| {
      PlainField(s, m, i);
      PlainFrom(s, m, i + 1);
    }
  }

  /** Without unknown fields the bytes are those that pb_encode writes. */
  lemma {:induction false} PlainMessage(s: Schema, m: seq<Slot>)
    requires WellFormed(s) && Fits(s, m)
    ensures MessageBytes(s, m) == Some(PaddedMessage(s, m, NO_PADS))
    decreases s, 2
  {
    PlainFrom(s, m, 0);
  }

  lemma MessageRoundTrip(s: Schema, m: seq<Slot>)
    requires WellFormed(s) && Fits(s, m) && PartsFit(s, m, NO_PADS)
    ensures MessageBytes(s, m).Some? && Decode(s, MessageBytes(s, m).value) == Some(m)
  {
    PlainMessage(s, m);
    NoPadsArePads(s);
    DecodePadded(s, m, NO_PADS);
  }

  // ---------- Where a message is not given back ----------

  /** A string that fills its buffer without a terminator is encoded, but does not fit
      when it is decoded. */
  lemma StringNeedsTerminator(dataSize: nat, x: Bytes, rest: Bytes)
    requires NoZero(x) && |x| <= dataSize && dataSize < U32
    ensures ValueBytes(StringT(dataSize), Blob(x)) == Some(Delimited(x))
    ensures ReadBlob(StringT(dataSize), Delimited(x) + rest) == Got(x, rest) <==> |x| < dataSize
  {
    hide Varint, ReadVarint32;
    if |x| < dataSize {
      BlobRoundTrip(StringT(dataSize), x, rest);
    } else {
      assert Delimited(x) + rest == Varint(|x|) + (x + rest);
      Varint32RoundTrip(|x|, x + rest);
    }
  }

  /** A proto3 number is given back exactly if it is not zero or zero is what the field
      is initialised to. */
  lemma SingularNeedsZero(tag: nat, t: LType, init: Value, n: int)
    requires 1 <= tag <= MAX_TAG && Packable(t) && WellFormedType(t) && FitsNumber(t, n)
    ensures var s := Schema([Field(tag, Singular, t, init)]);
            var b := MessageBytes(s, [[Num(n)]]);
            b.Some? && (Decode(s, b.value) == Some([[Num(n)]]) <==> n != 0 || init == Num(0))
  {
    hide *;
    var f := Field(tag, Singular, t, init);
    var s, m := Schema([f]), [[Num(n)]];
    var st := State(Defaults(s), None, {});
    SingularStart(s, f);
    SingularDone(s, f, m);
    NumberRoundTrip(t, n, []);
    var e := NumberBytes(t, n).value;
    assert e + [] == e;
    SingularBytes(s, f, n, e);
    if n != 0 {
      SingularStep(s, f, st, n, e);
      assert st.slots[0 := [Num(n)]] == m;
      NothingToRead(s, State(m, None, {}));
      DecodeIs(s, TagFor(f) + e, m);
    } else {
      NothingToRead(s, st);
      DecodeIs(s, [], [[init]]);
    }
  }

  lemma SingularStart(s: Schema, f: Field)
    requires s == Schema([f]) && f.rule.Singular? && Packable(f.ltype)
    ensures Defaults(s) == [[f.init]]
  {
  }

  lemma SingularDone(s: Schema, f: Field, m: seq<Slot>)
    requires s == Schema([f]) && f.rule.Singular? && |m| == 1
    ensures Complete(s, State(m, None, {})) && Complete(s, State([[f.init]], None, {}))
  {
    assert RequiredIndex(s, 1) == RequiredIndex(s, 0) == 0;
  }

  lemma DecodeIs(s: Schema, b: Bytes, m: seq<Slot>)
    requires |m| == |s.fields| && Complete(s, State(m, None, {}))
    requires ReadFields(s, State(Defaults(s), None, {}), b) == Loop(State(m, None, {}), [])
    ensures Decode(s, b) == Some(m)
  {
    hide ReadFields, Complete, Defaults;
  }

  lemma SingularBytes(s: Schema, f: Field, n: int, e: Bytes)
    requires s == Schema([f]) && f.rule.Singular? && Packable(f.ltype) && NumberBytes(f.ltype, n) == Some(e)
    ensures MessageBytes(s, [[Num(n)]]) == Some(if n == 0 then [] else TagFor(f) + e)
  {
    hide Tag, NumberBytes;
    var m := [[Num(n)]];
    assert FieldsFrom(s, m, 1) == Some([]);
    assert IsDefault(s, m, 0) <==> n == 0;
    assert ValueBytes(f.ltype, Num(n)) == Some(e);
    assert Tagged(f, Num(n)) == Some(TagFor(f) + e);
    var b := if n == 0 then [] else TagFor(f) + e;
    assert FieldBytes(s, m, 0) == Some(b);
    assert b + [] == b;
    assert FieldsFrom(s, m, 0) == Then(FieldBytes(s, m, 0), FieldsFrom(s, m, 1));
  }

  lemma SingularStep(s: Schema, f: Field, st: State, n: int, e: Bytes)
    requires s == Schema([f]) && f.rule.Singular? && Packable(f.ltype) && |st.slots| == 1 && 1 <= f.tag <= MAX_TAG
    requires ReadNumber(f.ltype, e) == Got(n, [])
    ensures ReadFields(s, st, TagFor(f) + e) == ReadFields(s, st.(slots := st.slots[0 := [Num(n)]]), [])
  {
    hide Tag, ReadTag, ReadNumber;
    TagRoundTrip(WireType(f.ltype), f.tag, e);
    assert FindFrom(s, f.tag, 0) == Some(0);
    assert Turn(s, st, 0) == Some(st);
    assert ReadValue(f.ltype, [], e) == Got(Num(n), []);
    assert ReadField(s, st.slots, 0, WireType(f.ltype), e) == Step(st.slots[0 := [Num(n)]], []);
  }
}
