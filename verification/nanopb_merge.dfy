/** Decoding onto a message that is there: pb_decode_noinit merges, and a message encoded
    behind another one is merged with it. */
module NanopbMerge {
  import opened Wrappers
  import opened LittleEndian
  import opened NanopbWire
  import opened NanopbMessage
  import opened NanopbReading
  import opened NanopbFields
  import opened NanopbRoundTrip
  import Iter = NanopbIter

  // ---------- Merging messages ----------

  /** What a field holds once it has been received on top of what it held: arrays grow,
      submessages are merged, and anything else is replaced, fixed-count arrays too. */
  ghost function MergedSlot(f: Field, was: Slot, now: Slot): Slot
    decreases f, 1
  {
    if f.rule.Repeated? then was + now
    else if f.rule.FixedCount? || now == [] then now
    else [MergedValue(f.ltype, was, now[0])]
  }

  predicate HoldsMessage(t: LType, slot: Slot) {
    t.Sub? && slot != [] && slot[0].Msg? && |slot[0].slots| == |t.schema.fields|
  }

  /** A single value on top of what the field holds. */
  ghost function MergedValue(t: LType, was: Slot, v: Value): Value
    decreases t, 1
  {
    if HoldsMessage(t, was) && HoldsMessage(t, [v]) then Msg(Merged(t.schema, was[0].slots, v.slots)) else v
  }

  /** Another arm of the union that field k is in is set by the fields below i. */
  ghost predicate Overridden(s: Schema, m: seq<Slot>, i: nat, k: nat)
    requires i <= |s.fields| == |m| && k < |m|
  {
    s.fields[k].rule.Oneof? && exists j :: 0 <= j < i && s.fields[j].rule == s.fields[k].rule && m[j] != []
  }

  /** Field k when the fields below i of m have been merged into q. */
  ghost function Partly(s: Schema, q: seq<Slot>, m: seq<Slot>, i: nat, k: nat): Slot
    requires i <= |s.fields| == |m| == |q| && k < |m|
    decreases s, 0
  {
    if k < i && !Omitted(s, m, k) then MergedSlot(s.fields[k], q[k], m[k])
    else if Overridden(s, m, i, k) then []
    else q[k]
  }

  ghost function Merged(s: Schema, q: seq<Slot>, m: seq<Slot>): (r: seq<Slot>)
    requires |s.fields| == |m| == |q|
    ensures |r| == |m|
    ensures forall k :: 0 <= k < |m| ==> r[k] == Partly(s, q, m, |m|, k)
    decreases s, 1
  {
    seq(|m|, k requires 0 <= k < |m| => Partly(s, q, m, |m|, k))
  }

  /** The arrays have room for the entries of both. */
  ghost predicate SlotMergeable(f: Field, was: Slot, now: Slot)
    decreases f, 1
  {
    if f.rule.Repeated? then |was| + |now| <= f.rule.max
    else f.rule.FixedCount? || now == [] || ValueMergeable(f.ltype, was, now[0])
  }

  ghost predicate ValueMergeable(t: LType, was: Slot, v: Value)
    decreases t, 1
  {
    HoldsMessage(t, was) && HoldsMessage(t, [v]) ==> Mergeable(t.schema, was[0].slots, v.slots)
  }

  ghost predicate Mergeable(s: Schema, q: seq<Slot>, m: seq<Slot>)
    requires |s.fields| == |m| == |q|
    decreases s, 1
  {
    forall i :: 0 <= i < |m| && !Omitted(s, m, i) ==> SlotMergeable(s.fields[i], q[i], m[i])
  }

  // ---------- Values ----------

  lemma {:induction false} ValueMerges(t: LType, was: Slot, v: Value, p: Pads, rest: Bytes)
    requires WellFormedType(t) && FitsValue(t, v) && PadsInside(t, p) && LengthsFit(t, v, p)
    ensures ReadValue(t, Base(t, was), PaddedValue(t, v, p) + rest)
         == if ValueMergeable(t, was, v) then Got(MergedValue(t, was, v), rest) else Fail
    decreases t, 0
  {
    if HoldsMessage(t, was) {
      hide Varint, ReadVarint32, PaddedMessage, ReadMessage, Substream, Delimited, Mergeable, Merged;
      MergeDecodes(t.schema, was[0].slots, v.slots, p);
      SubstreamRoundTrip(PaddedMessage(t.schema, v.slots, p), rest);
    } else {
      hide *;
      NoBase(t, was, v);
      ValueRoundTrip(t, v, p, rest);
    }
  }

  lemma NoBase(t: LType, was: Slot, v: Value)
    requires !HoldsMessage(t, was)
    ensures Base(t, was) == Base(t, []) && ValueMergeable(t, was, v) && MergedValue(t, was, v) == v
  {
  }

  // ---------- Single fields ----------

  /** The state once field i has been received, if it can be; st.slots[i] is what it holds. */
  ghost function Received(s: Schema, m: seq<Slot>, st: State, i: nat): State
    requires i < |s.fields| == |m| == |st.slots|
  {
    var f, r := s.fields[i], RequiredIndex(s, i);
    if Omitted(s, m, i) then st
    else
      State((if f.rule.Oneof? then ClearArms(s, st.slots, f.rule) else st.slots)[i := MergedSlot(f, st.slots[i], m[i])],
            if f.rule.FixedCount? then Some(i) else st.fixed,
            if f.rule.Required? && r < Iter.MAX_REQUIRED then st.seen + {r} else st.seen)
  }

  /** The same fixed-count array has been filled just before. */
  predicate Refills(s: Schema, m: seq<Slot>, st: State, i: nat)
    requires i < |s.fields| == |m|
  {
    s.fields[i].rule.FixedCount? && m[i] != [] && st.fixed == Some(i)
  }

  ghost predicate Receivable(s: Schema, m: seq<Slot>, st: State, i: nat)
    requires i < |s.fields| == |m| == |st.slots|
  {
    Omitted(s, m, i) || (SlotMergeable(s.fields[i], st.slots[i], m[i]) && !Refills(s, m, st, i))
  }

  /** The loop goes on from st', or fails. */
  ghost predicate GoesOn(s: Schema, st: State, b: Bytes, ok: bool, st': State, rest: Bytes)
    requires |st.slots| == |s.fields| == |st'.slots|
  {
    ReadFields(s, st, b) == if ok then ReadFields(s, st', rest) else NoLoop
  }

  lemma ReceivedSlots(s: Schema, m: seq<Slot>, st: State, i: nat)
    requires i < |s.fields| == |m| == |st.slots|
    ensures |Received(s, m, st, i).slots| == |m|
  {
  }

  lemma SingleReads(s: Schema, st: State, i: nat, data: Bytes)
    requires WellFormed(s) && i < |s.fields| == |st.slots| && !IsArray(s.fields[i].rule)
    ensures ReadFields(s, st, TagFor(s.fields[i]) + data)
         == match ReadValue(s.fields[i].ltype, Base(s.fields[i].ltype, st.slots[i]), data)
            case Fail => NoLoop
            case Got(v, rest) =>
              var f, r := s.fields[i], RequiredIndex(s, i);
              ReadFields(s, State((if f.rule.Oneof? then ClearArms(s, st.slots, f.rule) else st.slots)[i := [v]], st.fixed,
                                  if f.rule.Required? && r < Iter.MAX_REQUIRED then st.seen + {r} else st.seen), rest)
  {
    hide Tag, ReadTag, ReadFields, ReadValue, Base, ClearArms, RequiredIndex, WellFormed;
    ReadFieldsStep(s, st, i, WireType(s.fields[i].ltype), data);
  }

  lemma SingleReceived(s: Schema, m: seq<Slot>, st: State, i: nat)
    requires i < |s.fields| == |m| == |st.slots| && !IsArray(s.fields[i].rule) && |m[i]| == 1 && !Omitted(s, m, i)
    ensures var f, r, v := s.fields[i], RequiredIndex(s, i), MergedValue(s.fields[i].ltype, st.slots[i], m[i][0]);
            Received(s, m, st, i) ==
            State((if f.rule.Oneof? then ClearArms(s, st.slots, f.rule) else st.slots)[i := [v]], st.fixed,
                  if f.rule.Required? && r < Iter.MAX_REQUIRED then st.seen + {r} else st.seen)
    ensures Receivable(s, m, st, i) <==> ValueMergeable(s.fields[i].ltype, st.slots[i], m[i][0])
  {
    hide Base, Merged, Mergeable, ClearArms, RequiredIndex, Omitted;
    assert m[i] == [m[i][0]];
  }

  lemma SingleMerges(s: Schema, m: seq<Slot>, p: Pads, st: State, i: nat, rest: Bytes)
    requires WellFormed(s) && i < |s.fields| == |m| == |st.slots|
    requires !IsArray(s.fields[i].rule) && |m[i]| == 1 && !Omitted(s, m, i) && AreUnknown(s, PadAt(p, i, 0).lead)
    requires var t := s.fields[i].ltype;
             ReadValue(t, Base(t, st.slots[i]), PaddedValue(t, m[i][0], PadAt(p, i, 0)) + rest)
               == if ValueMergeable(t, st.slots[i], m[i][0]) then Got(MergedValue(t, st.slots[i], m[i][0]), rest) else Fail
    ensures |Received(s, m, st, i).slots| == |m|
    ensures GoesOn(s, st, PaddedRecord(s.fields[i], m[i][0], PadAt(p, i, 0)) + rest, Receivable(s, m, st, i),
                   Received(s, m, st, i), rest)
  {
    hide ReadFields, ReadValue, Tag, Base, WellFormed, PaddedValue, UnknownBytes, Received, Receivable, MergedValue,
         ValueMergeable, ClearArms, RequiredIndex, Omitted;
    var f, q := s.fields[i], PadAt(p, i, 0);
    var e := PaddedValue(f.ltype, m[i][0], q);
    ReceivedSlots(s, m, st, i);
    assert PaddedRecord(f, m[i][0], q) + rest == UnknownBytes(q.lead) + (TagFor(f) + (e + rest));
    SkipsUnknown(s, st, q.lead, TagFor(f) + (e + rest));
    SingleReads(s, st, i, e + rest);
    SingleReceived(s, m, st, i);
  }

  // ---------- Arrays ----------

  /** The entries that the next ones of array i follow. */
  ghost function Start(s: Schema, st: State, i: nat): Slot
    requires i < |s.fields| == |st.slots|
  {
    if s.fields[i].rule.Repeated? || st.fixed == Some(i) then st.slots[i] else []
  }

  ghost function FilledOn(s: Schema, st: State, i: nat, items: seq<Value>): State
    requires i < |s.fields| == |st.slots|
  {
    if items == [] then st
    else State(st.slots[i := Start(s, st, i) + items], if s.fields[i].rule.FixedCount? then Some(i) else st.fixed, st.seen)
  }

  ghost predicate HasRoom(s: Schema, st: State, i: nat, items: seq<Value>)
    requires i < |s.fields| == |st.slots|
  {
    items == [] || |Start(s, st, i)| + |items| <= Room(s.fields[i].rule)
  }

  lemma TurnOn(s: Schema, st: State, i: nat, items: seq<Value>)
    requires i < |s.fields| == |st.slots| && FixedDone(s, st) && IsArray(s.fields[i].rule)
    ensures var r := Turn(s, FilledOn(s, st, i, items), i);
            && r.Some? && r.value.slots == st.slots[i := Start(s, st, i) + items] && r.value.seen == st.seen
            && r.value.fixed == if s.fields[i].rule.FixedCount? then Some(i) else st.fixed
  {
    assert st.slots[i := st.slots[i]] == st.slots;
    assert Start(s, st, i) + [] == Start(s, st, i);
  }

  lemma FilledOnSlots(s: Schema, st: State, i: nat, items: seq<Value>)
    requires i < |s.fields| == |st.slots|
    ensures |FilledOn(s, st, i, items).slots| == |st.slots|
  {
  }

  /** One entry of an array, by the loop. */
  lemma ItemReads(s: Schema, st: State, i: nat, items: seq<Value>, v: Value, e: Bytes, rest: Bytes)
    requires WellFormed(s) && i < |s.fields| == |st.slots| && FixedDone(s, st) && IsArray(s.fields[i].rule)
    requires !Packable(s.fields[i].ltype)
    requires ReadValue(s.fields[i].ltype, Base(s.fields[i].ltype, []), e + rest) == Got(v, rest)
    ensures |FilledOn(s, st, i, items).slots| == |st.slots|
    ensures GoesOn(s, FilledOn(s, st, i, items), TagFor(s.fields[i]) + (e + rest), HasRoom(s, st, i, items + [v]),
                   FilledOn(s, st, i, items + [v]), rest)
  {
    FilledOnSlots(s, st, i, items);
    FilledOnSlots(s, st, i, items + [v]);
    hide Tag, ReadTag, ReadFields, ReadValue, ReadField, Base, WellFormed, Turn, FixedDone, Start, FilledOn, HasRoom;
    ReadFieldsStep(s, FilledOn(s, st, i, items), i, WireType(s.fields[i].ltype), e + rest);
    TurnOn(s, st, i, items);
    ItemFieldOn(s, st.slots[i := Start(s, st, i) + items], i, v, e, rest);
    ItemLands(s, st, i, items, v);
  }

  lemma ItemLands(s: Schema, st: State, i: nat, items: seq<Value>, v: Value)
    requires i < |s.fields| == |st.slots|
    ensures var slots := st.slots[i := Start(s, st, i) + items];
            && (HasRoom(s, st, i, items + [v]) <==> |slots[i]| < Room(s.fields[i].rule))
            && FilledOn(s, st, i, items + [v]) ==
               State(slots[i := slots[i] + [v]], if s.fields[i].rule.FixedCount? then Some(i) else st.fixed, st.seen)
  {
    hide Start;
    var slots := st.slots[i := Start(s, st, i) + items];
    assert Start(s, st, i) + (items + [v]) == slots[i] + [v];
  }

  lemma ItemFieldOn(s: Schema, slots: seq<Slot>, i: nat, v: Value, data: Bytes, rest: Bytes)
    requires i < |s.fields| == |slots| && IsArray(s.fields[i].rule) && !Packable(s.fields[i].ltype)
    requires ReadValue(s.fields[i].ltype, Base(s.fields[i].ltype, []), data + rest) == Got(v, rest)
    ensures ReadField(s, slots, i, WireType(s.fields[i].ltype), data + rest)
         == if |slots[i]| < Room(s.fields[i].rule) then Step(slots[i := slots[i] + [v]], rest) else NoStep
  {
    hide ReadValue, Base;
  }

  lemma {:induction false} ItemsMerge(s: Schema, st: State, i: nat, items: seq<Value>, p: Pads, rest: Bytes)
    requires WellFormed(s) && i < |s.fields| == |st.slots| && FixedDone(s, st) && IsArray(s.fields[i].rule)
    requires !Packable(s.fields[i].ltype) && ArePads(s, p) && WellFormedType(s.fields[i].ltype)
    requires forall k: nat :: k < |items| ==>
               FitsValue(s.fields[i].ltype, items[k]) && LengthsFit(s.fields[i].ltype, items[k], PadAt(p, i, k))
    ensures |FilledOn(s, st, i, items).slots| == |st.slots|
    ensures GoesOn(s, st, PaddedItems(s.fields[i], items, p, i) + rest, HasRoom(s, st, i, items),
                   FilledOn(s, st, i, items), rest)
    decreases |items|
  {
    hide *;
    FilledOnSlots(s, st, i, items);
    if items == [] {
      NoItemsMerge(s, st, i, p, rest);
    } else {
      var f, k := s.fields[i], |items| - 1;
      var q := PadAt(p, i, k);
      var e := PaddedValue(f.ltype, items[k], q);
      PadFacts(s, p, i, k);
      FilledOnSlots(s, st, i, items[..k]);
      ItemsMerge(s, st, i, items[..k], p, UnknownBytes(q.lead) + (TagFor(f) + e + rest));
      ValueRoundTrip(f.ltype, items[k], q, rest);
      Regroup(TagFor(f), e, rest);
      LeadSkipped(s, FilledOn(s, st, i, items[..k]), q.lead, TagFor(f) + (e + rest));
      ItemReads(s, st, i, items[..k], items[k], e, rest);
      assert items[..k] + [items[k]] == items;
      ItemsSnoc(f, items, p, i, rest);
      RoomShrinks(s, st, i, items);
      GoesOnThen(s, st, PaddedItems(f, items, p, i) + rest, HasRoom(s, st, i, items[..k]), FilledOn(s, st, i, items[..k]),
                 UnknownBytes(q.lead) + (TagFor(f) + (e + rest)), TagFor(f) + (e + rest), HasRoom(s, st, i, items),
                 FilledOn(s, st, i, items), rest);
    }
  }

  lemma NoItemsMerge(s: Schema, st: State, i: nat, p: Pads, rest: Bytes)
    requires i < |s.fields| == |st.slots|
    ensures GoesOn(s, st, PaddedItems(s.fields[i], [], p, i) + rest, HasRoom(s, st, i, []), FilledOn(s, st, i, []), rest)
  {
    assert [] + rest == rest;
  }

  lemma RoomShrinks(s: Schema, st: State, i: nat, items: seq<Value>)
    requires i < |s.fields| == |st.slots| && items != []
    ensures HasRoom(s, st, i, items) ==> HasRoom(s, st, i, items[..|items| - 1])
  {
  }

  lemma GoesOnThen(s: Schema, st: State, b: Bytes, ok: bool, st1: State, b1: Bytes, b1': Bytes, ok': bool, st2: State,
                   rest: Bytes)
    requires |st.slots| == |st1.slots| == |st2.slots| == |s.fields| && (ok' ==> ok)
    requires GoesOn(s, st, b, ok, st1, b1) && ReadFields(s, st1, b1) == ReadFields(s, st1, b1')
    requires GoesOn(s, st1, b1', ok', st2, rest)
    ensures GoesOn(s, st, b, ok', st2, rest)
  {
  }

  /** Packed entries behind those that are there. */
  lemma {:induction false} PackedOnto(t: LType, max: nat, was: seq<Value>, items: seq<Value>, tail: Bytes)
    requires Packable(t) && WellFormedType(t) && forall k :: 0 <= k < |items| ==> FitsValue(t, items[k])
    ensures PackedBytes(t, items).Some?
    ensures ReadPacked(t, max, was, PackedBytes(t, items).value + tail)
         == if items == [] || |was| + |items| <= max then ReadPacked(t, max, was + items, tail) else None
    decreases |items|
  {
    hide *;
    if items == [] {
      NoPacked(t, tail);
      assert was + [] == was;
    } else {
      var k := |items| - 1;
      var v := items[k];
      NumberFacts(t, v);
      NumberRoundTrip(t, v.n, tail);
      var e := NumberBytes(t, v.n).value;
      PackedOnto(t, max, was, items[..k], e + tail);
      PackedSnoc(t, items, e, tail);
      OnePackedOnto(t, max, was + items[..k], v, e, tail);
      assert was + items[..k] + [v] == was + items;
    }
  }

  lemma OnePackedOnto(t: LType, max: nat, items: seq<Value>, v: Value, e: Bytes, tail: Bytes)
    requires Packable(t) && e != [] && v.Num? && ReadNumber(t, e + tail) == Got(v.n, tail)
    ensures ReadPacked(t, max, items, e + tail) == if |items| < max then ReadPacked(t, max, items + [v], tail) else None
  {
    hide ReadNumber;
  }

  lemma PackedEnds(t: LType, max: nat, items: seq<Value>)
    requires !t.Sub?
    ensures ReadPacked(t, max, items, []) == Some(items)
  {
  }

  lemma PackedFieldOn(s: Schema, slots: seq<Slot>, i: nat, items: seq<Value>, part: Bytes, rest: Bytes)
    requires i < |s.fields| == |slots| && IsArray(s.fields[i].rule) && Packable(s.fields[i].ltype) && |part| < U32
    requires ReadPacked(s.fields[i].ltype, Room(s.fields[i].rule), slots[i], part)
          == if |slots[i]| + |items| <= Room(s.fields[i].rule) then Some(slots[i] + items) else None
    ensures ReadField(s, slots, i, WT_STRING, Delimited(part) + rest)
         == if |slots[i]| + |items| <= Room(s.fields[i].rule) then Step(slots[i := slots[i] + items], rest) else NoStep
  {
    hide ReadPacked, Delimited, Substream;
    SubstreamRoundTrip(part, rest);
  }

  lemma PackedReads(s: Schema, st: State, i: nat, items: seq<Value>, part: Bytes, rest: Bytes)
    requires WellFormed(s) && i < |s.fields| == |st.slots| && FixedDone(s, st) && IsArray(s.fields[i].rule)
    requires Packable(s.fields[i].ltype) && |part| < U32 && items != []
    requires var was := Start(s, st, i);
             ReadPacked(s.fields[i].ltype, Room(s.fields[i].rule), was, part)
               == if |was| + |items| <= Room(s.fields[i].rule) then Some(was + items) else None
    ensures |FilledOn(s, st, i, items).slots| == |st.slots|
    ensures GoesOn(s, st, Tag(WT_STRING, s.fields[i].tag) + (Delimited(part) + rest), HasRoom(s, st, i, items),
                   FilledOn(s, st, i, items), rest)
  {
    FilledOnSlots(s, st, i, items);
    TurnOn(s, st, i, []);
    assert FilledOn(s, st, i, []) == st;
    hide Tag, ReadTag, ReadFields, ReadPacked, ReadField, WellFormed, Turn, FixedDone, Delimited;
    ReadFieldsStep(s, st, i, WT_STRING, Delimited(part) + rest);
    var was := Start(s, st, i);
    assert was + [] == was;
    var slots := st.slots[i := was];
    assert slots[i := was + items] == st.slots[i := was + items];
    PackedFieldOn(s, slots, i, items, part, rest);
  }

  lemma PackedMerges(s: Schema, st: State, i: nat, items: seq<Value>, q: Pads, rest: Bytes)
    requires WellFormed(s) && i < |s.fields| == |st.slots| && FixedDone(s, st) && IsArray(s.fields[i].rule)
    requires Packable(s.fields[i].ltype) && WellFormedType(s.fields[i].ltype) && items != [] && AreUnknown(s, q.lead)
    requires forall k :: 0 <= k < |items| ==> FitsValue(s.fields[i].ltype, items[k])
    requires |BytesOf(PackedBytes(s.fields[i].ltype, items))| < U32
    ensures |FilledOn(s, st, i, items).slots| == |st.slots|
    ensures GoesOn(s, st, PackedRecord(s.fields[i], items, q) + rest, HasRoom(s, st, i, items), FilledOn(s, st, i, items), rest)
  {
    hide *;
    FilledOnSlots(s, st, i, items);
    var f, was := s.fields[i], Start(s, st, i);
    var part := BytesOf(PackedBytes(f.ltype, items));
    PackedPart(f.ltype, Room(f.rule), was, items);
    PackedReads(s, st, i, items, part, rest);
    PackedParts(f, items, q, rest);
    Regroup(Tag(WT_STRING, f.tag), Delimited(part), rest);
    LeadSkipped(s, st, q.lead, Tag(WT_STRING, f.tag) + (Delimited(part) + rest));
    GoesOnBehind(s, st, PackedRecord(f, items, q) + rest, Tag(WT_STRING, f.tag) + (Delimited(part) + rest),
                 HasRoom(s, st, i, items), FilledOn(s, st, i, items), rest);
  }

  lemma PackedPart(t: LType, max: nat, was: seq<Value>, items: seq<Value>)
    requires Packable(t) && WellFormedType(t) && items != [] && forall k :: 0 <= k < |items| ==> FitsValue(t, items[k])
    ensures ReadPacked(t, max, was, BytesOf(PackedBytes(t, items))) == if |was| + |items| <= max then Some(was + items) else None
  {
    PackedOnto(t, max, was, items, []);
    PackedEnds(t, max, was + items);
    hide PackedBytes, ReadPacked;
    var part := BytesOf(PackedBytes(t, items));
    assert part + [] == part;
  }

  lemma GoesOnBehind(s: Schema, st: State, b: Bytes, b': Bytes, ok: bool, st': State, rest: Bytes)
    requires |st.slots| == |st'.slots| == |s.fields| && ReadFields(s, st, b) == ReadFields(s, st, b')
    requires GoesOn(s, st, b', ok, st', rest)
    ensures GoesOn(s, st, b, ok, st', rest)
  {
  }

  // ---------- Fields ----------

  lemma FilledIsReceived(s: Schema, m: seq<Slot>, st: State, i: nat)
    requires Fits(s, m) && i < |s.fields| == |st.slots| && FixedDone(s, st)
    requires IsArray(s.fields[i].rule) && !Omitted(s, m, i)
    ensures Receivable(s, m, st, i) <==> HasRoom(s, st, i, m[i])
    ensures Receivable(s, m, st, i) ==> Received(s, m, st, i) == FilledOn(s, st, i, m[i])
  {
    assert FitsSlot(s.fields[i], m[i]);
    hide FitsSlot, ClearArms, RequiredIndex;
    if s.fields[i].rule.FixedCount? && st.fixed != Some(i) {
      assert [] + m[i] == m[i];
    }
  }

  lemma OmittedReceived(s: Schema, m: seq<Slot>, st: State, i: nat)
    requires i < |s.fields| == |m| == |st.slots| && Omitted(s, m, i)
    ensures Receivable(s, m, st, i) && Received(s, m, st, i) == st
  {
    hide Omitted;
  }

  lemma GoesOnTo(s: Schema, st: State, b: Bytes, ok: bool, st1: State, st2: State, rest: Bytes)
    requires |st.slots| == |st1.slots| == |st2.slots| == |s.fields|
    requires GoesOn(s, st, b, ok, st1, rest) && (ok ==> st1 == st2)
    ensures GoesOn(s, st, b, ok, st2, rest)
  {
  }

  /** The bytes of one field, received in any state. */
  lemma {:induction false} FieldMerges(s: Schema, m: seq<Slot>, p: Pads, st: State, i: nat, rest: Bytes)
    requires WellFormed(s) && Fits(s, m) && i < |s.fields| == |st.slots| && FixedDone(s, st)
    requires ArePads(s, p) && PartsFit(s, m, p)
    ensures |Received(s, m, st, i).slots| == |s.fields|
    ensures GoesOn(s, st, PaddedField(s, m, p, i) + rest, Receivable(s, m, st, i), Received(s, m, st, i), rest)
    decreases s, 1
  {
    var f := s.fields[i];
    FieldFacts(s, m, p, i);
    PadFacts(s, p, i, 0);
    OmittedIfEmpty(s, m, i);
    ReceivedSlots(s, m, st, i);
    hide ReadFields, ReadValue, Base, PaddedRecord, PackedRecord, PaddedItems, WellFormed, Fits, ArePads, PartsFit, HasRoom,
         Received, Receivable, FilledOn, WellFormedType, LengthsFit, FitsValue, PackedBytes, Omitted, FixedDone, GoesOn;
    if Omitted(s, m, i) {
      OmittedReceived(s, m, st, i);
      NoBytes(s, st, rest);
    } else if !IsArray(f.rule) {
      ValueMerges(f.ltype, st.slots[i], m[i][0], PadAt(p, i, 0), rest);
      SingleMerges(s, m, p, st, i, rest);
    } else {
      FilledIsReceived(s, m, st, i);
      FilledOnSlots(s, st, i, m[i]);
      if Packable(f.ltype) {
        PackedMerges(s, st, i, m[i], PadAt(p, i, 0), rest);
      } else {
        ItemsMerge(s, st, i, m[i], p, rest);
      }
      GoesOnTo(s, st, PaddedField(s, m, p, i) + rest, HasRoom(s, st, i, m[i]), FilledOn(s, st, i, m[i]),
               Received(s, m, st, i), rest);
    }
  }

  lemma NoBytes(s: Schema, st: State, rest: Bytes)
    requires |st.slots| == |s.fields|
    ensures GoesOn(s, st, [] + rest, true, st, rest)
  {
    assert [] + rest == rest;
  }

  // ---------- Messages ----------

  /** The state once the fields from i on have been received. */
  ghost function ReceivedFrom(s: Schema, m: seq<Slot>, st: State, i: nat): (r: Option<State>)
    requires i <= |s.fields| == |m| == |st.slots|
    ensures r.Some? ==> |r.value.slots| == |m|
    decreases |m| - i
  {
    if i == |m| then Some(st)
    else if Receivable(s, m, st, i) then ReceivedSlots(s, m, st, i); ReceivedFrom(s, m, Received(s, m, st, i), i + 1)
    else None
  }

  ghost predicate Reaches(s: Schema, st: State, b: Bytes, r: Option<State>, rest: Bytes)
    requires |st.slots| == |s.fields| && (r.Some? ==> |r.value.slots| == |s.fields|)
  {
    ReadFields(s, st, b) == if r.Some? then ReadFields(s, r.value, rest) else NoLoop
  }

  lemma ReceivedIsDone(s: Schema, m: seq<Slot>, st: State, i: nat)
    requires Fits(s, m) && i < |s.fields| == |st.slots| && FixedDone(s, st) && Receivable(s, m, st, i)
    ensures |Received(s, m, st, i).slots| == |m| && FixedDone(s, Received(s, m, st, i))
  {
    assert FitsSlot(s.fields[i], m[i]);
    hide FitsSlot, RequiredIndex, Omitted;
    var st' := Received(s, m, st, i);
    if st'.fixed.Some? && st'.fixed.value < |s.fields| && s.fields[st'.fixed.value].rule.FixedCount? {
      var k := st'.fixed.value;
      assert k != i ==> st'.slots[k] == st.slots[k];
    }
  }

  lemma {:induction false} RestMerges(s: Schema, m: seq<Slot>, p: Pads, st: State, i: nat, rest: Bytes)
    requires WellFormed(s) && Fits(s, m) && i <= |s.fields| == |st.slots| && FixedDone(s, st)
    requires ArePads(s, p) && PartsFit(s, m, p)
    ensures |m| == |s.fields|
    ensures Reaches(s, st, PaddedFrom(s, m, p, i) + rest, ReceivedFrom(s, m, st, i), rest)
    decreases s, 2, |s.fields| - i
  {
    hide *;
    SameSizes(s, m);
    if i == |m| {
      TailReaches(s, m, p, st, rest);
    } else {
      var first, more := PaddedField(s, m, p, i), PaddedFrom(s, m, p, i + 1);
      PaddedSplits(s, m, p, i);
      Regroup(first, more, rest);
      FieldMerges(s, m, p, st, i, more + rest);
      ReceivedSplits(s, m, st, i);
      if Receivable(s, m, st, i) {
        ReceivedIsDone(s, m, st, i);
        RestMerges(s, m, p, Received(s, m, st, i), i + 1, rest);
      }
      ReachesThen(s, m, st, i, PaddedFrom(s, m, p, i) + rest, more + rest, rest);
    }
  }

  lemma SameSizes(s: Schema, m: seq<Slot>)
    requires Fits(s, m)
    ensures |m| == |s.fields|
  {
  }

  lemma TailReaches(s: Schema, m: seq<Slot>, p: Pads, st: State, rest: Bytes)
    requires |m| == |s.fields| == |st.slots| && ArePads(s, p)
    ensures Reaches(s, st, PaddedFrom(s, m, p, |m|) + rest, ReceivedFrom(s, m, st, |m|), rest)
  {
    assert AreUnknown(s, p.tail);
    hide ReadFields, UnknownBytes, AreUnknown;
    LeadSkipped(s, st, p.tail, rest);
  }

  lemma PaddedSplits(s: Schema, m: seq<Slot>, p: Pads, i: nat)
    requires i < |s.fields| == |m|
    ensures PaddedFrom(s, m, p, i) == PaddedField(s, m, p, i) + PaddedFrom(s, m, p, i + 1)
  {
    hide PaddedField;
  }

  lemma ReceivedSplits(s: Schema, m: seq<Slot>, st: State, i: nat)
    requires i < |s.fields| == |m| == |st.slots|
    ensures |Received(s, m, st, i).slots| == |m|
    ensures ReceivedFrom(s, m, st, i) ==
            if Receivable(s, m, st, i) then ReceivedFrom(s, m, Received(s, m, st, i), i + 1) else None
  {
    hide Receivable, Received;
    ReceivedSlots(s, m, st, i);
  }

  lemma ReachesThen(s: Schema, m: seq<Slot>, st: State, i: nat, b: Bytes, b': Bytes, rest: Bytes)
    requires i < |s.fields| == |m| == |st.slots| == |Received(s, m, st, i).slots|
    requires GoesOn(s, st, b, Receivable(s, m, st, i), Received(s, m, st, i), b')
    requires ReceivedFrom(s, m, st, i) ==
             if Receivable(s, m, st, i) then ReceivedFrom(s, m, Received(s, m, st, i), i + 1) else None
    requires Receivable(s, m, st, i) ==>
               Reaches(s, Received(s, m, st, i), b', ReceivedFrom(s, m, Received(s, m, st, i), i + 1), rest)
    ensures Reaches(s, st, b, ReceivedFrom(s, m, st, i), rest)
  {
    hide ReadFields, Receivable, Received, ReceivedFrom;
  }

  // ---------- What the loop has received ----------

  predicate HasFixed(s: Schema, k: nat)
    requires k < |s.fields|
  {
    s.fields[k].rule.FixedCount? && s.fields[k].rule.count > 0
  }

  /** The fixed-count array filled last by the fields below i, or before them. */
  function LastFixed(s: Schema, i: nat, first: Option<nat>): Option<nat>
    requires i <= |s.fields|
  {
    if i == 0 then first else if HasFixed(s, i - 1) then Some(i - 1) else LastFixed(s, i - 1, first)
  }

  lemma {:induction false} LastFixedIs(s: Schema, i: nat, first: Option<nat>)
    requires i <= |s.fields|
    ensures var r := LastFixed(s, i, first);
            if (forall j :: 0 <= j < i ==> !HasFixed(s, j)) then r == first
            else r.Some? && r.value < i && HasFixed(s, r.value) && forall j :: r.value < j < i ==> !HasFixed(s, j)
  {
    if i > 0 {
      LastFixedIs(s, i - 1, first);
    }
  }

  /** The fields below i of m have been merged into q. */
  ghost predicate Merging(s: Schema, q: seq<Slot>, m: seq<Slot>, st: State, i: nat, first: Option<nat>) {
    && i <= |s.fields| == |m| == |q| == |st.slots|
    && (forall k :: 0 <= k < |m| ==> st.slots[k] == Partly(s, q, m, i, k))
    && st.fixed == LastFixed(s, i, first)
    && FixedDone(s, st)
    && forall r: nat :: r < RequiredIndex(s, i) && r < Iter.MAX_REQUIRED ==> r in st.seen
  }

  /** The fixed-count array was the last that was filled. */
  predicate Clash(s: Schema, k: nat, first: Option<nat>)
    requires k < |s.fields|
  {
    HasFixed(s, k) && LastFixed(s, k, first) == Some(k)
  }

  lemma NotOverridden(s: Schema, m: seq<Slot>, i: nat)
    requires Fits(s, m) && i < |s.fields| && !Omitted(s, m, i)
    ensures !Overridden(s, m, i, i)
  {
    hide FitsSlot;
    if s.fields[i].rule.Oneof? {
      forall j | 0 <= j < i && s.fields[j].rule == s.fields[i].rule ensures m[j] == [] {
        assert OneArm(s, m, i, j);
      }
    }
  }

  lemma ReceivableIs(s: Schema, q: seq<Slot>, m: seq<Slot>, st: State, i: nat, first: Option<nat>)
    requires Fits(s, m) && Merging(s, q, m, st, i, first) && i < |m|
    ensures Receivable(s, m, st, i) <==>
            Omitted(s, m, i) || (SlotMergeable(s.fields[i], q[i], m[i]) && !Clash(s, i, first))
    ensures !Omitted(s, m, i) ==> st.slots[i] == q[i]
  {
    assert FitsSlot(s.fields[i], m[i]);
    if !Omitted(s, m, i) {
      NotOverridden(s, m, i);
      assert st.slots[i] == q[i];
    }
    hide SlotMergeable, Omitted, Overridden, RequiredIndex, FitsSlot, FixedDone, LastFixed;
    assert s.fields[i].rule.FixedCount? ==> |m[i]| == s.fields[i].rule.count by {
      CountFits(s, m, i);
    }
  }

  lemma CountFits(s: Schema, m: seq<Slot>, i: nat)
    requires Fits(s, m) && i < |s.fields|
    ensures s.fields[i].rule.FixedCount? ==> |m[i]| == s.fields[i].rule.count
    ensures s.fields[i].rule.Required? ==> |m[i]| == 1
  {
    assert FitsSlot(s.fields[i], m[i]);
  }

  /** One more field leaves field k as it should. */
  lemma PartlyStep(s: Schema, q: seq<Slot>, m: seq<Slot>, st: State, i: nat, first: Option<nat>, k: nat)
    requires Fits(s, m) && Merging(s, q, m, st, i, first) && i < |m| && k < |m|
    ensures |Received(s, m, st, i).slots| == |m| && Received(s, m, st, i).slots[k] == Partly(s, q, m, i + 1, k)
  {
    if Omitted(s, m, i) {
      OmittedStep(s, q, m, i, k);
    } else if k == i {
      NotOverridden(s, m, i);
    } else if s.fields[i].rule.Oneof? && s.fields[k].rule == s.fields[i].rule {
      assert OneArm(s, m, i, k);
      assert Overridden(s, m, i + 1, k);
    } else {
      assert Overridden(s, m, i + 1, k) <==> Overridden(s, m, i, k);
    }
  }

  lemma OmittedStep(s: Schema, q: seq<Slot>, m: seq<Slot>, i: nat, k: nat)
    requires i < |s.fields| == |m| == |q| && Omitted(s, m, i) && k < |m|
    ensures Partly(s, q, m, i + 1, k) == Partly(s, q, m, i, k)
  {
    assert Overridden(s, m, i + 1, k) <==> Overridden(s, m, i, k);
  }

  lemma MergingStep(s: Schema, q: seq<Slot>, m: seq<Slot>, st: State, i: nat, first: Option<nat>)
    requires Fits(s, m) && Merging(s, q, m, st, i, first) && i < |m| && Receivable(s, m, st, i)
    ensures Merging(s, q, m, Received(s, m, st, i), i + 1, first)
  {
    ReceivedIsDone(s, m, st, i);
    CountFits(s, m, i);
    forall k | 0 <= k < |m| ensures Received(s, m, st, i).slots[k] == Partly(s, q, m, i + 1, k) {
      PartlyStep(s, q, m, st, i, first, k);
    }
    ReceivedMarks(s, m, st, i);
    hide Partly, FixedDone, ClearArms, RequiredIndex, Fits;
  }

  lemma ReceivedMarks(s: Schema, m: seq<Slot>, st: State, i: nat)
    requires i < |s.fields| == |m| == |st.slots|
    requires s.fields[i].rule.FixedCount? ==> |m[i]| == s.fields[i].rule.count
    requires s.fields[i].rule.Required? ==> |m[i]| == 1
    requires forall r: nat :: r < RequiredIndex(s, i) && r < Iter.MAX_REQUIRED ==> r in st.seen
    ensures var st' := Received(s, m, st, i);
            && st'.fixed == (if HasFixed(s, i) then Some(i) else st.fixed)
            && forall r: nat :: r < RequiredIndex(s, i + 1) && r < Iter.MAX_REQUIRED ==> r in st'.seen
  {
    assert RequiredIndex(s, i + 1) == RequiredIndex(s, i) + if s.fields[i].rule.Required? then 1 else 0;
    hide RequiredIndex, ClearArms, MergedSlot;
  }

  /** All the fields from i on can be received. */
  ghost predicate AllMergeable(s: Schema, q: seq<Slot>, m: seq<Slot>, i: nat, first: Option<nat>)
    requires |s.fields| == |m| == |q|
  {
    forall k :: i <= k < |m| && !Omitted(s, m, k) ==> SlotMergeable(s.fields[k], q[k], m[k]) && !Clash(s, k, first)
  }

  lemma {:induction false} ReceivedAll(s: Schema, q: seq<Slot>, m: seq<Slot>, st: State, i: nat, first: Option<nat>)
    requires Fits(s, m) && Merging(s, q, m, st, i, first)
    ensures var r := ReceivedFrom(s, m, st, i);
            && (r.Some? <==> AllMergeable(s, q, m, i, first))
            && (r.Some? ==> Merging(s, q, m, r.value, |m|, first))
    decreases |m| - i
  {
    MergingSizes(s, q, m, st, i, first);
    hide *;
    if i == |m| {
      NoneLeft(s, q, m, st, first);
    } else {
      ReceivableIs(s, q, m, st, i, first);
      ReceivedSplits(s, m, st, i);
      OneLess(s, q, m, i, first);
      if Receivable(s, m, st, i) {
        MergingStep(s, q, m, st, i, first);
        ReceivedAll(s, q, m, Received(s, m, st, i), i + 1, first);
      }
    }
  }

  lemma MergingSizes(s: Schema, q: seq<Slot>, m: seq<Slot>, st: State, i: nat, first: Option<nat>)
    requires Merging(s, q, m, st, i, first)
    ensures i <= |s.fields| == |m| == |q| == |st.slots|
  {
  }

  lemma NoneLeft(s: Schema, q: seq<Slot>, m: seq<Slot>, st: State, first: Option<nat>)
    requires |s.fields| == |m| == |q| == |st.slots|
    ensures AllMergeable(s, q, m, |m|, first) && ReceivedFrom(s, m, st, |m|) == Some(st)
  {
  }

  lemma OneLess(s: Schema, q: seq<Slot>, m: seq<Slot>, i: nat, first: Option<nat>)
    requires i < |s.fields| == |m| == |q|
    ensures AllMergeable(s, q, m, i, first) <==>
            && (Omitted(s, m, i) || (SlotMergeable(s.fields[i], q[i], m[i]) && !Clash(s, i, first)))
            && AllMergeable(s, q, m, i + 1, first)
  {
    hide Omitted, SlotMergeable, Clash;
  }

  // ---------- The main results ----------

  lemma MergingEnds(s: Schema, q: seq<Slot>, m: seq<Slot>, st: State, first: Option<nat>)
    requires Merging(s, q, m, st, |s.fields|, first)
    ensures |q| == |m| == |s.fields| == |st.slots| && st.slots == Merged(s, q, m) && Complete(s, st)
  {
    hide Partly, FixedDone;
  }

  lemma MergingStarts(s: Schema, q: seq<Slot>, m: seq<Slot>, st: State)
    requires |q| == |m| == |s.fields| && st.slots == q && FixedDone(s, st)
    ensures Merging(s, q, m, st, 0, st.fixed)
  {
  }

  lemma MergeableFrom(s: Schema, q: seq<Slot>, m: seq<Slot>)
    requires |q| == |m| == |s.fields|
    ensures AllMergeable(s, q, m, 0, None) <==> Mergeable(s, q, m)
  {
    forall k | 0 <= k < |m| ensures !Clash(s, k, None) {
      LastFixedIs(s, k, None);
    }
    hide Clash, SlotMergeable, Omitted;
  }

  /** pb_decode_noinit merges: what is encoded is received on top of the message that is
      there, field by field; it fails exactly if an array has no room for both. */
  lemma {:induction false} MergeDecodes(s: Schema, q: seq<Slot>, m: seq<Slot>, p: Pads)
    requires |q| == |s.fields|
    requires WellFormed(s) && Fits(s, m) && ArePads(s, p) && PartsFit(s, m, p)
    ensures ReadMessage(s, q, PaddedMessage(s, m, p)) == if Mergeable(s, q, m) then Some(Merged(s, q, m)) else None
    decreases s, 3
  {
    hide *;
    SameSizes(s, m);
    var st := State(q, None, {});
    NoFixed(s, st);
    MergingStarts(s, q, m, st);
    RestMerges(s, m, p, st, 0, []);
    ReceivedAll(s, q, m, st, 0, None);
    MergeableFrom(s, q, m);
    var r := ReceivedFrom(s, m, st, 0);
    if r.Some? {
      MergingEnds(s, q, m, r.value, None);
      NothingToRead(s, r.value);
    }
    ReachesEnd(s, q, m, p, r);
  }

  lemma NoFixed(s: Schema, st: State)
    requires |st.slots| == |s.fields| && st.fixed == None
    ensures FixedDone(s, st)
  {
  }

  lemma ReachesEnd(s: Schema, q: seq<Slot>, m: seq<Slot>, p: Pads, r: Option<State>)
    requires |q| == |s.fields| == |m| && (r.Some? ==> |r.value.slots| == |s.fields| && Complete(s, r.value))
    requires r.Some? ==> ReadFields(s, r.value, []) == Loop(r.value, [])
    requires Reaches(s, State(q, None, {}), PaddedFrom(s, m, p, 0) + [], r, [])
    ensures ReadMessage(s, q, PaddedMessage(s, m, p)) == if r.Some? then Some(r.value.slots) else None
  {
    hide ReadFields, Complete, PaddedFrom;
    assert PaddedFrom(s, m, p, 0) + [] == PaddedFrom(s, m, p, 0);
  }

  lemma NoinitMerges(s: Schema, q: seq<Slot>, m: seq<Slot>)
    requires |q| == |s.fields| && WellFormed(s) && Fits(s, m) && PartsFit(s, m, NO_PADS)
    ensures MessageBytes(s, m).Some?
    ensures ReadMessage(s, q, MessageBytes(s, m).value) == if Mergeable(s, q, m) then Some(Merged(s, q, m)) else None
  {
    hide *;
    PlainMessage(s, m);
    NoPadsArePads(s);
    MergeDecodes(s, q, m, NO_PADS);
  }

  /** A message received on top of the initial one is itself. */
  lemma MergedOnDefaults(s: Schema, m: seq<Slot>)
    requires WellFormed(s) && Fits(s, m) && PartsFit(s, m, NO_PADS)
    ensures Mergeable(s, Defaults(s), m) && Merged(s, Defaults(s), m) == m
  {
    MergeDecodes(s, Defaults(s), m, NO_PADS) by {
      hide *;
      NoPadsArePads(s);
    }
    DecodePadded(s, m, NO_PADS) by {
      hide *;
      NoPadsArePads(s);
    }
    hide ReadMessage, PaddedMessage, Mergeable, Merged, Fits, PartsFit;
  }

  /** The state behind an encoded message, whatever follows it. */
  lemma AfterMessage(s: Schema, m: seq<Slot>, rest: Bytes) returns (st: State)
    requires WellFormed(s) && Fits(s, m) && PartsFit(s, m, NO_PADS)
    ensures |st.slots| == |s.fields| == |m| && st.slots == m && Complete(s, st) && FixedDone(s, st)
    ensures st.fixed == LastFixed(s, |m|, None) && MessageBytes(s, m).Some?
    ensures ReadFields(s, State(Defaults(s), None, {}), MessageBytes(s, m).value + rest) == ReadFields(s, st, rest)
  {
    hide *;
    SameSizes(s, m);
    PlainMessage(s, m);
    NoPadsArePads(s);
    MergedOnDefaults(s, m);
    var q := Defaults(s);
    var st0 := State(q, None, {});
    NoFixed(s, st0);
    MergingStarts(s, q, m, st0);
    RestMerges(s, m, NO_PADS, st0, 0, rest);
    ReceivedAll(s, q, m, st0, 0, None);
    MergeableFrom(s, q, m);
    st := ReceivedFrom(s, m, st0, 0).value;
    MergingEnds(s, q, m, st, None);
    MergingFacts(s, q, m, st, None);
    ReachesIs(s, st0, PaddedFrom(s, m, NO_PADS, 0) + rest, ReceivedFrom(s, m, st0, 0), rest);
    FromStart(s, m);
  }

  lemma FromStart(s: Schema, m: seq<Slot>)
    requires |m| == |s.fields|
    ensures PaddedMessage(s, m, NO_PADS) == PaddedFrom(s, m, NO_PADS, 0)
  {
  }

  lemma ReachesIs(s: Schema, st: State, b: Bytes, r: Option<State>, rest: Bytes)
    requires |st.slots| == |s.fields| && (r.Some? ==> |r.value.slots| == |s.fields|) && Reaches(s, st, b, r, rest)
    ensures ReadFields(s, st, b) == if r.Some? then ReadFields(s, r.value, rest) else NoLoop
  {
  }

  lemma MergingFacts(s: Schema, q: seq<Slot>, m: seq<Slot>, st: State, first: Option<nat>)
    requires Merging(s, q, m, st, |s.fields|, first)
    ensures st.fixed == LastFixed(s, |m|, first) && |st.slots| == |s.fields| && FixedDone(s, st)
  {
  }

  /** A zero byte behind a message ends it: what follows is not looked at. */
  lemma ZeroEnds(s: Schema, m: seq<Slot>, junk: Bytes)
    requires WellFormed(s) && Fits(s, m) && PartsFit(s, m, NO_PADS)
    ensures MessageBytes(s, m).Some? && Decode(s, MessageBytes(s, m).value + [0] + junk) == Some(m)
  {
    hide *;
    var st := AfterMessage(s, m, [0] + junk);
    var b := MessageBytes(s, m).value;
    Regroup(b, [0], junk);
    ZeroByte(s, st, junk);
    DecodesTo(s, b + [0] + junk, st, junk);
  }

  lemma ZeroByte(s: Schema, st: State, junk: Bytes)
    requires |st.slots| == |s.fields|
    ensures ReadFields(s, st, [0] + junk) == Loop(st, junk)
  {
    assert ([0] + junk)[1..] == junk;
    assert ReadTag([0] + junk) == End(junk);
  }

  lemma DecodesTo(s: Schema, b: Bytes, st: State, rest: Bytes)
    requires |st.slots| == |s.fields| && Complete(s, st)
    requires ReadFields(s, State(Defaults(s), None, {}), b) == Loop(st, rest)
    ensures Decode(s, b) == Some(st.slots)
  {
    hide ReadFields, Complete;
  }

  lemma DecodesToNone(s: Schema, b: Bytes)
    requires ReadFields(s, State(Defaults(s), None, {}), b) == NoLoop
    ensures Decode(s, b) == None
  {
    hide ReadFields, Complete;
  }

  /** The schema has a single array of a fixed, positive number of entries. */
  ghost predicate OneFixed(s: Schema) {
    exists k :: OnlyFixed(s, k)
  }

  predicate OnlyFixed(s: Schema, k: nat) {
    k < |s.fields| && HasFixed(s, k) && forall j :: 0 <= j < |s.fields| && j != k ==> !HasFixed(s, j)
  }

  lemma ClashMeansOnly(s: Schema, k: nat)
    requires k < |s.fields|
    ensures Clash(s, k, LastFixed(s, |s.fields|, None)) <==> OnlyFixed(s, k)
  {
    var first := LastFixed(s, |s.fields|, None);
    LastFixedIs(s, |s.fields|, None);
    LastFixedIs(s, k, first);
    hide HasFixed, LastFixed;
  }

  lemma ClashesMean(s: Schema, q: seq<Slot>, m: seq<Slot>)
    requires Fits(s, m) && |q| == |s.fields|
    ensures |m| == |s.fields|
    ensures AllMergeable(s, q, m, 0, LastFixed(s, |s.fields|, None)) <==> Mergeable(s, q, m) && !OneFixed(s)
  {
    var first := LastFixed(s, |s.fields|, None);
    forall k | 0 <= k < |m| ensures Clash(s, k, first) <==> OnlyFixed(s, k) {
      ClashMeansOnly(s, k);
    }
    forall k | 0 <= k < |m| && HasFixed(s, k) ensures !Omitted(s, m, k) {
      CountFits(s, m, k);
    }
    hide LastFixed, SlotMergeable, Omitted, Fits;
    assert forall k :: 0 <= k < |m| ==> (Clash(s, k, first) ==> HasFixed(s, k));
    hide Clash, HasFixed;
  }

  /** Two messages one behind the other are decoded as the second merged into the first,
      except by a schema with one fixed-count array: the second finds it full and fails. */
  lemma ConcatenationMerges(s: Schema, m1: seq<Slot>, m2: seq<Slot>)
    requires WellFormed(s) && Fits(s, m1) && PartsFit(s, m1, NO_PADS) && Fits(s, m2) && PartsFit(s, m2, NO_PADS)
    ensures |m1| == |m2| == |s.fields| && MessageBytes(s, m1).Some? && MessageBytes(s, m2).Some?
    ensures Decode(s, MessageBytes(s, m1).value + MessageBytes(s, m2).value)
         == if Mergeable(s, m1, m2) && !OneFixed(s) then Some(Merged(s, m1, m2)) else None
  {
    hide *;
    PlainMessage(s, m2);
    NoPadsArePads(s);
    SameSizes(s, m1);
    SameSizes(s, m2);
    FromStart(s, m2);
    var b1, b2 := MessageBytes(s, m1), MessageBytes(s, m2);
    var st := AfterMessage(s, m1, b2.value);
    MergingStarts(s, m1, m2, st);
    RestMerges(s, m2, NO_PADS, st, 0, []);
    assert b2.value + [] == b2.value;
    ReceivedAll(s, m1, m2, st, 0, st.fixed);
    ClashesMean(s, m1, m2);
    var r := ReceivedFrom(s, m2, st, 0);
    ReachesIs(s, st, b2.value, r, []);
    if r.Some? {
      MergingEnds(s, m1, m2, r.value, st.fixed);
      NothingToRead(s, r.value);
      DecodesTo(s, b1.value + b2.value, r.value, []);
    } else {
      DecodesToNone(s, b1.value + b2.value);
    }
  }
}
