/** Whatever the bytes, a message that is decoded is in bounds: what its fields hold fits
    them, and so it can be encoded again. */
module NanopbBounds {
  import opened Wrappers
  import opened LittleEndian
  import opened NanopbWire
  import opened NanopbMessage
  import opened NanopbReading
  import RoundTrip = NanopbRoundTrip

  // ---------- In bounds ----------

  /** As FitsCount, but that a fixed-count array may never have been met. */
  predicate HoldsCount(r: Rule, n: nat) {
    if r.FixedCount? then n == 0 || n == r.count else FitsCount(r, n)
  }

  ghost predicate HoldsValue(t: LType, v: Value)
    decreases t, 0
  {
    if t.Sub? then v.Msg? && Holds(t.schema, v.slots) else FitsValue(t, v)
  }

  ghost predicate HoldsItems(t: LType, items: seq<Value>)
    decreases t, 1
  {
    forall k :: 0 <= k < |items| ==> HoldsValue(t, items[k])
  }

  ghost predicate OneArmEach(s: Schema, m: seq<Slot>)
    requires |m| == |s.fields|
  {
    forall i: nat, j: nat :: i < |m| && j < |m| ==> OneArm(s, m, i, j)
  }

  /** Every slot holds what its field can: counts within bounds, blobs within capacity,
      numbers in range, at most one arm of a oneof, at every depth. */
  ghost predicate Holds(s: Schema, m: seq<Slot>)
    decreases s, 0
  {
    && |m| == |s.fields|
    && (forall i :: 0 <= i < |m| ==> HoldsCount(s.fields[i].rule, |m[i]|) && HoldsItems(s.fields[i].ltype, m[i]))
    && OneArmEach(s, m)
  }

  /** The values that the descriptors point to fit their fields. */
  ghost predicate InitsFit(s: Schema)
    decreases s, 0
  {
    forall i :: 0 <= i < |s.fields| ==>
      && InitFits(s.fields[i].ltype)
      && (!s.fields[i].ltype.Sub? && (s.fields[i].rule.Required? || s.fields[i].rule.Singular?) ==>
            FitsValue(s.fields[i].ltype, s.fields[i].init))
  }

  ghost predicate InitFits(t: LType)
    decreases t, 0
  {
    t.Sub? ==> InitsFit(t.schema)
  }

  lemma {:induction false} DefaultsHold(s: Schema)
    requires InitsFit(s)
    ensures Holds(s, Defaults(s))
    decreases s
  {
    var m := Defaults(s);
    forall i | 0 <= i < |m| ensures HoldsCount(s.fields[i].rule, |m[i]|) && HoldsItems(s.fields[i].ltype, m[i]) {
      var f := s.fields[i];
      assert InitFits(f.ltype);
      if f.ltype.Sub? {
        DefaultsHold(f.ltype.schema);
      }
      assert m[i] == DefaultSlot(f);
    }
  }

  // ---------- Values ----------

  lemma SignedInRange(u: nat, size: nat)
    requires IntSize(size)
    ensures -Half(size) <= ToSigned(u, size) < Half(size)
  {
  }

  lemma NumberHolds(t: LType, b: Bytes)
    ensures ReadNumber(t, b).Got? ==> FitsNumber(t, ReadNumber(t, b).value)
  {
    hide ReadVarint, ReadVarint32, ReadFixed, ToSigned;
    match t
    case VarintT(size) =>
      if IntSize(size) && ReadVarint(b).Got? {
        var v := ReadVarint(b).value;
        SignedInRange((if size == 8 then ToSigned(v, 8) else ToSigned(v, 4)) % U64, size);
      }
    case SVarintT(size) =>
      if IntSize(size) && ReadVarint(b).Got? {
        SignedInRange(UnZigZag(ReadVarint(b).value) % U64, size);
      }
    case Fixed32T =>
      if ReadFixed(b, 4).Got? { FixedInRange(b, 4); }
    case Fixed64T =>
      if ReadFixed(b, 8).Got? { FixedInRange(b, 8); }
    case _ =>
  }

  lemma FixedInRange(b: Bytes, n: nat)
    requires n > 0 && ReadFixed(b, n).Got?
    ensures ReadFixed(b, n).value < ByteLimit(n)
    ensures ByteLimit(4) == U32 && ByteLimit(8) == U64
  {
    FixedInverse(b[..n]);
    ByteLimits();
  }

  lemma {:induction false} CStringFits(b: Bytes)
    ensures NoZero(CString(b)) && |CString(b)| <= |b|
  {
    if b != [] && b[0] != 0 {
      CStringFits(b[1..]);
    }
  }

  lemma BlobHolds(t: LType, b: Bytes)
    ensures ReadBlob(t, b).Got? ==> FitsValue(t, Blob(ReadBlob(t, b).value))
  {
    hide ReadVarint32, CString;
    if ReadVarint32(b).Got? && t.StringT? {
      var n, rest := ReadVarint32(b).value, ReadVarint32(b).rest;
      if n <= |rest| {
        CStringFits(rest[..n]);
      }
    }
  }

  /** The submessage that decoding goes on from. */
  lemma BaseHolds(t: LType, slot: Slot)
    requires InitFits(t) && HoldsItems(t, slot)
    ensures t.Sub? ==> Holds(t.schema, Base(t, slot))
  {
    if t.Sub? {
      DefaultsHold(t.schema);
      assert slot != [] ==> HoldsValue(t, slot[0]);
    }
  }

  // ---------- The loop ----------

  /** Between fields: the array that is being filled may not be full yet. */
  ghost predicate SoFar(s: Schema, st: State) {
    && |st.slots| == |s.fields|
    && (forall i :: 0 <= i < |st.slots| ==>
          && HoldsItems(s.fields[i].ltype, st.slots[i])
          && CountSoFar(s.fields[i].rule, |st.slots[i]|, st.fixed == Some(i)))
    && OneArmEach(s, st.slots)
  }

  predicate CountSoFar(r: Rule, n: nat, filling: bool) {
    if filling && r.FixedCount? then n <= r.count else HoldsCount(r, n)
  }

  lemma HoldsSoFar(s: Schema, m: seq<Slot>)
    requires Holds(s, m)
    ensures SoFar(s, State(m, None, {}))
  {
    hide HoldsItems, HoldsCount, OneArmEach;
  }

  lemma SoFarHolds(s: Schema, st: State)
    requires SoFar(s, st) && FixedDone(s, st)
    ensures Holds(s, st.slots)
  {
    hide HoldsItems, OneArmEach;
  }

  lemma TurnHolds(s: Schema, st: State, i: nat)
    requires SoFar(s, st) && i < |s.fields| && Turn(s, st, i).Some?
    ensures var st' := Turn(s, st, i).value;
            SoFar(s, st') && (s.fields[i].rule.FixedCount? ==> st'.fixed == Some(i))
  {
    hide HoldsItems, OneArmEach, RequiredIndex;
    if s.fields[i].rule.FixedCount? && st.fixed != Some(i) {
      EmptyHolds(s.fields[i].ltype);
      OtherArms(s, st.slots, i, []);
    }
  }

  lemma EmptyHolds(t: LType)
    ensures HoldsItems(t, [])
  {
  }

  /** A field that is no arm of a oneof may hold anything. */
  lemma OtherArms(s: Schema, slots: seq<Slot>, i: nat, slot: Slot)
    requires i < |s.fields| == |slots| && OneArmEach(s, slots) && !s.fields[i].rule.Oneof?
    ensures OneArmEach(s, slots[i := slot])
  {
    var m := slots[i := slot];
    forall j: nat, k: nat | j < |slots| && k < |slots| ensures OneArm(s, m, j, k) {
      assert OneArm(s, slots, j, k);
    }
  }

  lemma ClearedArms(s: Schema, slots: seq<Slot>, i: nat, slot: Slot)
    requires i < |s.fields| == |slots| && OneArmEach(s, slots) && s.fields[i].rule.Oneof?
    ensures OneArmEach(s, ClearArms(s, slots, s.fields[i].rule)[i := slot])
  {
    var m := ClearArms(s, slots, s.fields[i].rule)[i := slot];
    forall j: nat, k: nat | j < |slots| && k < |slots| ensures OneArm(s, m, j, k) {
      assert OneArm(s, slots, j, k);
    }
  }

  /** One slot is given something that fits it. */
  lemma OneSlot(s: Schema, st: State, i: nat, slot: Slot)
    requires SoFar(s, st) && i < |s.fields| && !s.fields[i].rule.Oneof?
    requires HoldsItems(s.fields[i].ltype, slot) && CountSoFar(s.fields[i].rule, |slot|, st.fixed == Some(i))
    ensures SoFar(s, st.(slots := st.slots[i := slot]))
  {
    hide HoldsItems, CountSoFar, OneArmEach;
    OtherArms(s, st.slots, i, slot);
  }

  lemma OneArmSlot(s: Schema, st: State, i: nat, v: Value)
    requires SoFar(s, st) && i < |s.fields| && s.fields[i].rule.Oneof? && HoldsValue(s.fields[i].ltype, v)
    ensures SoFar(s, st.(slots := ClearArms(s, st.slots, s.fields[i].rule)[i := [v]]))
  {
    ClearedArms(s, st.slots, i, [v]);
    hide HoldsValue, OneArmEach;
    var m := ClearArms(s, st.slots, s.fields[i].rule)[i := [v]];
    forall k | 0 <= k < |m|
      ensures HoldsItems(s.fields[k].ltype, m[k]) && CountSoFar(s.fields[k].rule, |m[k]|, st.fixed == Some(k))
    {
      assert HoldsItems(s.fields[k].ltype, st.slots[k]);
    }
  }

  // ---------- The decoder, from the inside out ----------

  lemma {:induction false} ValueHolds(t: LType, m: seq<Slot>, b: Bytes)
    requires InitFits(t) && (t.Sub? ==> Holds(t.schema, m)) && ReadValue(t, m, b).Got?
    ensures HoldsValue(t, ReadValue(t, m, b).value)
    decreases |b|, 0
  {
    hide ReadMessage, ReadBlob, ReadNumber, Holds;
    match t
    case Sub(s) => MessageHolds(s, m, Substream(b).part);
    case BytesT(_) => BlobHolds(t, b);
    case StringT(_) => BlobHolds(t, b);
    case FixedBytesT(_) => BlobHolds(t, b);
    case _ => NumberHolds(t, b);
  }

  lemma ItemAdded(t: LType, items: seq<Value>, v: Value)
    requires HoldsItems(t, items) && HoldsValue(t, v)
    ensures HoldsItems(t, items + [v])
  {
    hide HoldsValue;
  }

  lemma {:induction false} PackedHolds(t: LType, max: nat, items: seq<Value>, b: Bytes)
    requires !t.Sub? && HoldsItems(t, items) && |items| <= max && ReadPacked(t, max, items, b).Some?
    ensures HoldsItems(t, ReadPacked(t, max, items, b).value) && |ReadPacked(t, max, items, b).value| <= max
    decreases |b|, 1
  {
    hide ReadValue, HoldsItems, HoldsValue;
    if b != [] {
      var r := ReadValue(t, [], b);
      ValueHolds(t, [], b);
      ItemAdded(t, items, r.value);
      PackedHolds(t, max, items + [r.value], r.rest);
    }
  }

  lemma {:induction false} ArrayHolds(t: LType, max: nat, items: seq<Value>, wireType: nat, b: Bytes)
    requires InitFits(t) && HoldsItems(t, items) && |items| <= max && ReadArray(t, max, items, wireType, b).Got?
    ensures var all := ReadArray(t, max, items, wireType, b).value; HoldsItems(t, all) && |all| <= max
    decreases |b|, 2
  {
    hide ReadValue, ReadPacked, HoldsItems, HoldsValue, InitFits, Base, Holds;
    if wireType == WT_STRING && Packable(t) {
      PackedHolds(t, max, items, Substream(b).part);
    } else {
      EmptyHolds(t);
      BaseHolds(t, []);
      ValueHolds(t, Base(t, []), b);
      ItemAdded(t, items, ReadValue(t, Base(t, []), b).value);
    }
  }

  lemma FieldFacts(s: Schema, st: State, i: nat)
    requires InitsFit(s) && SoFar(s, st) && i < |s.fields|
    ensures InitFits(s.fields[i].ltype) && HoldsItems(s.fields[i].ltype, st.slots[i])
    ensures CountSoFar(s.fields[i].rule, |st.slots[i]|, st.fixed == Some(i))
  {
  }

  lemma OneItem(t: LType, v: Value)
    requires HoldsValue(t, v)
    ensures HoldsItems(t, [v])
  {
  }

  lemma {:induction false} FieldHolds(s: Schema, st: State, i: nat, wireType: nat, b: Bytes)
    requires InitsFit(s) && SoFar(s, st) && i < |s.fields| && (s.fields[i].rule.FixedCount? ==> st.fixed == Some(i))
    requires ReadField(s, st.slots, i, wireType, b).Step?
    ensures SoFar(s, st.(slots := ReadField(s, st.slots, i, wireType, b).slots))
    decreases |b|, 3
  {
    var f := s.fields[i];
    FieldFacts(s, st, i);
    hide InitsFit, InitFits, SoFar, HoldsItems, HoldsValue, ReadArray, ReadValue, Base, Holds;
    match f.rule
    case Repeated(max) =>
      ArrayHolds(f.ltype, max, st.slots[i], wireType, b);
      OneSlot(s, st, i, ReadArray(f.ltype, max, st.slots[i], wireType, b).value);
    case FixedCount(count) =>
      ArrayHolds(f.ltype, count, st.slots[i], wireType, b);
      OneSlot(s, st, i, ReadArray(f.ltype, count, st.slots[i], wireType, b).value);
    case _ =>
      BaseHolds(f.ltype, st.slots[i]);
      ValueHolds(f.ltype, Base(f.ltype, st.slots[i]), b);
      var v := ReadValue(f.ltype, Base(f.ltype, st.slots[i]), b).value;
      OneItem(f.ltype, v);
      if f.rule.Oneof? {
        OneArmSlot(s, st, i, v);
      } else {
        OneSlot(s, st, i, [v]);
      }
  }

  lemma {:induction false} FieldsHold(s: Schema, st: State, b: Bytes)
    requires InitsFit(s) && SoFar(s, st) && ReadFields(s, st, b).Loop?
    ensures SoFar(s, ReadFields(s, st, b).st)
    decreases |b|, 4
  {
    hide InitsFit, SoFar, ReadTag, FindFrom, Skip, SkipTerminator, Turn, ReadField;
    SlotsLength(s, st);
    if b != [] {
      match ReadTag(b)
      case NoTag =>
      case End(_) =>
      case IsTag(wireType, tag, rest) =>
        match FindFrom(s, tag, 0)
        case None =>
          var skipped := if s.fields == [] && tag == 0 then SkipTerminator(rest) else Skip(wireType, rest);
          FieldsHold(s, st, skipped.value);
        case Some(i) =>
          TurnHolds(s, st, i);
          var st' := Turn(s, st, i).value;
          FieldHolds(s, st', i, wireType, rest);
          var step := ReadField(s, st'.slots, i, wireType, rest);
          FieldsHold(s, st'.(slots := step.slots), step.rest);
    }
  }

  lemma SlotsLength(s: Schema, st: State)
    requires SoFar(s, st)
    ensures |st.slots| == |s.fields|
  {
  }

  /** pb_decode_noinit keeps a message in bounds. */
  lemma {:induction false} MessageHolds(s: Schema, m: seq<Slot>, b: Bytes)
    requires InitsFit(s) && Holds(s, m) && ReadMessage(s, m, b).Some?
    ensures Holds(s, ReadMessage(s, m, b).value)
    decreases |b|, 5
  {
    hide InitsFit, SoFar, ReadFields, Holds;
    HoldsSoFar(s, m);
    FieldsHold(s, State(m, None, {}), b);
    SoFarHolds(s, ReadFields(s, State(m, None, {}), b).st);
  }

  /** Whatever the bytes, what is decoded from them is in bounds. */
  lemma DecodedHolds(s: Schema, b: Bytes)
    requires InitsFit(s) && Decode(s, b).Some?
    ensures Holds(s, Decode(s, b).value)
  {
    hide *;
    DefaultsHold(s);
    DecodeIs(s, b);
    MessageHolds(s, Defaults(s), b);
  }

  lemma DecodeIs(s: Schema, b: Bytes)
    ensures Decode(s, b) == ReadMessage(s, Defaults(s), b)
  {
  }

  // ---------- Encoding it again ----------

  /** Every fixed-count array is there, at every depth. */
  ghost predicate Full(s: Schema, m: seq<Slot>)
    requires |m| == |s.fields|
    decreases s
  {
    forall i :: 0 <= i < |m| ==>
      && (s.fields[i].rule.FixedCount? ==> |m[i]| == s.fields[i].rule.count)
      && forall k :: 0 <= k < |m[i]| ==> FullValue(s.fields[i].ltype, m[i][k])
  }

  ghost predicate FullValue(t: LType, v: Value)
    decreases t
  {
    t.Sub? && v.Msg? && |v.slots| == |t.schema.fields| ==> Full(t.schema, v.slots)
  }

  lemma {:induction false} HoldsAndFullFits(s: Schema, m: seq<Slot>)
    requires Holds(s, m) && Full(s, m)
    ensures Fits(s, m)
    decreases s
  {
    forall i | 0 <= i < |m| ensures FitsSlot(s.fields[i], m[i]) {
      var f := s.fields[i];
      assert HoldsItems(f.ltype, m[i]);
      forall k | 0 <= k < |m[i]| ensures FitsValue(f.ltype, m[i][k]) {
        assert HoldsValue(f.ltype, m[i][k]) && FullValue(f.ltype, m[i][k]);
        if f.ltype.Sub? {
          HoldsAndFullFits(f.ltype.schema, m[i][k].slots);
        }
      }
    }
  }

  /** A message that was decoded has an encoding, from which it is decoded again: however
      the bytes it came from were arranged. */
  lemma DecodedReadsBack(s: Schema, b: Bytes)
    requires WellFormed(s) && InitsFit(s) && Decode(s, b).Some? && |Decode(s, b).value| == |s.fields|
    requires Full(s, Decode(s, b).value) && RoundTrip.PartsFit(s, Decode(s, b).value, RoundTrip.NO_PADS)
    ensures MessageBytes(s, Decode(s, b).value).Some?
    ensures Decode(s, MessageBytes(s, Decode(s, b).value).value) == Decode(s, b)
  {
    hide *;
    DecodedHolds(s, b);
    HoldsAndFullFits(s, Decode(s, b).value);
    RoundTrip.MessageRoundTrip(s, Decode(s, b).value);
  }
}
