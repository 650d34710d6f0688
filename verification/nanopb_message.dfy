/** nanopb's schemas and messages, and the bytes that pb_encode makes of a message. A
    struct is a sequence of slots, one a field, and a slot holds the values of the
    field that count: one for a required field, none or one for an optional one, the
    first `count` entries of an array. What an absent field's memory holds is left out. */
module NanopbMessage {
  import opened Wrappers
  import opened LittleEndian
  import opened NanopbWire

  /** The ltypes, with the data_size that matters to them. */
  datatype LType =
    | Bool | VarintT(size: nat) | UVarintT(size: nat) | SVarintT(size: nat) | Fixed32T | Fixed64T
    | BytesT(capacity: nat) | StringT(dataSize: nat) | Sub(schema: Schema) | FixedBytesT(dataSize: nat)

  /** The htypes. Singular is an optional field without has_, as proto3 has them;
      FixedCount is an array without a count. */
  datatype Rule =
    | Required | Optional | Singular | Repeated(max: nat) | FixedCount(count: nat) | Oneof(group: nat)

  /** init is what the field is initialised to, unless it is a submessage: the value that
      its descriptor points to, or zero. */
  datatype Field = Field(tag: nat, rule: Rule, ltype: LType, init: Value)

  datatype Schema = Schema(fields: seq<Field>)

  /** A number, the bytes of a string or bytes field, or a submessage. */
  datatype Value = Num(n: int) | Blob(b: Bytes) | Msg(slots: seq<Slot>)

  type Slot = seq<Value>

  // ---------- Well-formed schemas and fitting messages ----------

  predicate IntSize(size: nat) {
    size == 1 || size == 2 || size == 4 || size == 8
  }

  /** Half the range of an integer of that many bytes. */
  function Half(size: nat): int {
    if size == 1 then 0x80 else if size == 2 then 0x8000 else if size == 4 then 0x8000_0000 else I64
  }

  predicate Packable(t: LType) {
    t.Bool? || t.VarintT? || t.UVarintT? || t.SVarintT? || t.Fixed32T? || t.Fixed64T?
  }

  ghost predicate WellFormedType(t: LType) {
    match t
    case VarintT(size) => IntSize(size)
    case UVarintT(size) => IntSize(size)
    case SVarintT(size) => IntSize(size)
    case Sub(s) => WellFormed(s)
    case _ => true
  }

  ghost predicate WellFormedField(f: Field) {
    && 1 <= f.tag <= MAX_TAG
    && WellFormedType(f.ltype)
    && (f.rule.Singular? && !f.ltype.Sub? ==> f.init == Zero(f.ltype))
  }

  /** Distinct tags from 1 to 2^29 - 1, integers of 1, 2, 4 or 8 bytes, and proto3
      fields that start as zero, at every depth. */
  ghost predicate WellFormed(s: Schema) {
    && (forall i :: 0 <= i < |s.fields| ==> WellFormedField(s.fields[i]))
    && (forall i, j :: 0 <= i < j < |s.fields| ==> s.fields[i].tag != s.fields[j].tag)
  }

  predicate FitsNumber(t: LType, n: int) {
    match t
    case Bool => n == 0 || n == 1
    case VarintT(size) => -Half(size) <= n < Half(size)
    case UVarintT(size) => 0 <= n < 2 * Half(size)
    case SVarintT(size) => -Half(size) <= n < Half(size)
    case Fixed32T => 0 <= n < U32
    case Fixed64T => 0 <= n < U64
    case _ => false
  }

  predicate NoZero(b: Bytes) {
    forall i :: 0 <= i < |b| ==> b[i] != 0
  }

  /** A value that the field can hold; strings are given up to their terminator, which
      lies inside data_size. */
  ghost predicate FitsValue(t: LType, v: Value)
    decreases t, 0
  {
    match t
    case BytesT(capacity) => v.Blob? && |v.b| <= capacity
    case StringT(dataSize) => v.Blob? && |v.b| < dataSize && NoZero(v.b)
    case FixedBytesT(dataSize) => v.Blob? && |v.b| == dataSize
    case Sub(s) => v.Msg? && Fits(s, v.slots)
    case _ => v.Num? && FitsNumber(t, v.n)
  }

  predicate FitsCount(r: Rule, n: nat) {
    match r
    case Required => n == 1
    case Singular => n == 1
    case Optional => n <= 1
    case Oneof(_) => n <= 1
    case Repeated(max) => n <= max
    case FixedCount(count) => n == count
  }

  ghost predicate FitsSlot(f: Field, slot: Slot)
    decreases f, 0
  {
    FitsCount(f.rule, |slot|) && forall k :: 0 <= k < |slot| ==> FitsValue(f.ltype, slot[k])
  }

  /** At most one arm of a oneof is set. */
  ghost predicate OneArm(s: Schema, m: seq<Slot>, i: nat, j: nat)
    requires i < |s.fields| == |m| && j < |s.fields|
  {
    s.fields[i].rule.Oneof? && s.fields[j].rule == s.fields[i].rule && i != j ==> m[i] == [] || m[j] == []
  }

  ghost predicate Fits(s: Schema, m: seq<Slot>)
    decreases s, 0
  {
    && |m| == |s.fields|
    && (forall i :: 0 <= i < |m| ==> FitsSlot(s.fields[i], m[i]))
    && (forall i: nat, j: nat :: i < |m| && j < |m| ==> OneArm(s, m, i, j))
  }

  // ---------- Defaults ----------

  /** memset to zero. */
  function Zero(t: LType): Value {
    match t
    case BytesT(_) => Blob([])
    case StringT(_) => Blob([])
    case FixedBytesT(dataSize) => Blob(seq(dataSize, i => 0))
    case Sub(_) => Msg([])
    case _ => Num(0)
  }

  /** pb_field_set_to_default */
  function DefaultSlot(f: Field): (slot: Slot)
    ensures FitsCount(f.rule, |slot|) || f.rule.FixedCount?
    decreases f, 0
  {
    match f.rule
    case Required => [if f.ltype.Sub? then Msg(Defaults(f.ltype.schema)) else f.init]
    case Singular => [if f.ltype.Sub? then Msg(Defaults(f.ltype.schema)) else f.init]
    case _ => []
  }

  /** pb_message_set_to_defaults */
  function Defaults(s: Schema): (m: seq<Slot>)
    ensures |m| == |s.fields|
    decreases s, 1
  {
    DefaultsFrom(s, 0)
  }

  function DefaultsFrom(s: Schema, i: nat): (m: seq<Slot>)
    requires i <= |s.fields|
    ensures |m| == |s.fields| - i
    ensures forall k :: 0 <= k < |m| ==> m[k] == DefaultSlot(s.fields[i + k])
    decreases s, 0, |s.fields| - i
  {
    if i == |s.fields| then [] else [DefaultSlot(s.fields[i])] + DefaultsFrom(s, i + 1)
  }

  // ---------- Encoding ----------

  function WireType(t: LType): (w: nat)
    ensures w < 8
  {
    match t
    case Fixed32T => WT_32BIT
    case Fixed64T => WT_64BIT
    case BytesT(_) => WT_STRING
    case StringT(_) => WT_STRING
    case Sub(_) => WT_STRING
    case FixedBytesT(_) => WT_STRING
    case _ => WT_VARINT
  }

  /** The encoders of the numeric types. */
  function NumberBytes(t: LType, n: int): Option<Bytes> {
    match t
    case Bool => Some(Varint(if n != 0 then 1 else 0))
    case VarintT(size) => if IntSize(size) then Some(Varint(n % U64)) else None
    case UVarintT(size) => if IntSize(size) then Some(Varint(n % U64)) else None
    case SVarintT(size) => if IntSize(size) && -I64 <= n < I64 then Some(Varint(ZigZag(n))) else None
    case Fixed32T => Some(Fixed(n % U32, 4))
    case Fixed64T => Some(Fixed(n % U64, 8))
    case _ => None
  }

  /** The encoders of PB_ENCODERS. A value of another shape than the type's does not
      arise and is given no encoding. */
  function ValueBytes(t: LType, v: Value): Option<Bytes>
    decreases t, 0
  {
    match t
    case BytesT(capacity) => if v.Blob? && |v.b| <= capacity then Some(Delimited(v.b)) else None
    case StringT(dataSize) => if v.Blob? && |v.b| <= dataSize then Some(Delimited(v.b)) else None
    case FixedBytesT(dataSize) => if v.Blob? && |v.b| == dataSize then Some(Delimited(v.b)) else None
    case Sub(s) =>
      if v.Msg? && |v.slots| == |s.fields| then
        match MessageBytes(s, v.slots)
        case None => None
        case Some(b) => Some(Delimited(b))
      else None
    case _ => if v.Num? then NumberBytes(t, v.n) else None
  }

  /** One after the other, if both are there. */
  function Then(a: Option<Bytes>, b: Option<Bytes>): Option<Bytes> {
    if a.Some? && b.Some? then Some(a.value + b.value) else None
  }

  function TagFor(f: Field): Bytes {
    Tag(WireType(f.ltype), f.tag)
  }

  /** A tag and a value. */
  function Tagged(f: Field, v: Value): Option<Bytes>
    decreases f, 0
  {
    Then(Some(TagFor(f)), ValueBytes(f.ltype, v))
  }

  /** The entries of a packed array. */
  function PackedBytes(t: LType, items: seq<Value>): Option<Bytes>
    decreases t, 1, |items|
  {
    if items == [] then Some([])
    else Then(PackedBytes(t, items[..|items| - 1]), ValueBytes(t, items[|items| - 1]))
  }

  /** The entries of an array that is not packed. */
  function TaggedItems(f: Field, items: seq<Value>): Option<Bytes>
    decreases f, 1, |items|
  {
    if items == [] then Some([])
    else Then(TaggedItems(f, items[..|items| - 1]), Tagged(f, items[|items| - 1]))
  }

  /** encode_array */
  function ArrayBytes(f: Field, max: nat, items: seq<Value>): Option<Bytes>
    decreases f, 2
  {
    if items == [] then Some([])
    else if |items| > max then None
    else if Packable(f.ltype) then
      match PackedBytes(f.ltype, items)
      case None => None
      case Some(b) => Some(Tag(WT_STRING, f.tag) + Delimited(b))
    else TaggedItems(f, items)
  }

  /** pb_check_proto3_default_value on field i. */
  predicate IsDefault(s: Schema, m: seq<Slot>, i: nat)
    requires i < |s.fields| == |m|
    decreases s, 0
  {
    var f := s.fields[i];
    match f.rule
    case Required => false
    case Repeated(_) => m[i] == []
    case FixedCount(_) => false
    case Oneof(_) => forall j :: 0 <= j < |m| && s.fields[j].rule == f.rule ==> m[j] == []
    case Optional => m[i] == []
    case Singular => m[i] != [] && IsZero(f.ltype, m[i][0])
  }

  predicate IsZero(t: LType, v: Value)
    decreases t
  {
    match t
    case BytesT(_) => v == Blob([])
    case StringT(_) => v == Blob([])
    case FixedBytesT(dataSize) => dataSize == 0
    case Sub(s) => v.Msg? && |v.slots| == |s.fields| && forall i :: 0 <= i < |v.slots| ==> IsDefault(s, v.slots, i)
    case _ => v == Num(0)
  }

  /** encode_basic_field on field i. */
  function FieldBytes(s: Schema, m: seq<Slot>, i: nat): Option<Bytes>
    requires i < |s.fields| == |m|
    decreases s, 0
  {
    var f, slot := s.fields[i], m[i];
    match f.rule
    case Required => if slot == [] then None else Tagged(f, slot[0])
    case Singular => if slot == [] then None else if IsDefault(s, m, i) then Some([]) else Tagged(f, slot[0])
    case Optional => if slot == [] then Some([]) else Tagged(f, slot[0])
    case Oneof(_) => if slot == [] then Some([]) else Tagged(f, slot[0])
    case Repeated(max) => ArrayBytes(f, max, slot)
    case FixedCount(count) => if |slot| != count then None else ArrayBytes(f, count, slot)
  }

  function FieldsFrom(s: Schema, m: seq<Slot>, i: nat): Option<Bytes>
    requires i <= |s.fields| == |m|
    decreases s, 1, |s.fields| - i
  {
    if i == |s.fields| then Some([]) else Then(FieldBytes(s, m, i), FieldsFrom(s, m, i + 1))
  }

  /** pb_encode */
  function MessageBytes(s: Schema, m: seq<Slot>): Option<Bytes>
    requires |m| == |s.fields|
    decreases s, 2
  {
    FieldsFrom(s, m, 0)
  }
}
