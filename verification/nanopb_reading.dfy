/** What nanopb's decoder makes of bytes: pb_decode and the functions below it, as
    functions from bytes to messages. */
module NanopbReading {
  import opened Wrappers
  import opened LittleEndian
  import opened NanopbWire
  import opened NanopbMessage
  import Iter = NanopbIter

  // ---------- Values ----------

  function Centred(u: nat, half: int): int {
    if u < half then u else u - 2 * half
  }

  /** An unsigned number as a signed one of 8 * size bits. */
  function ToSigned(u: nat, size: nat): int
    requires IntSize(size)
  {
    if size == 1 then Centred(u % 0x100, 0x80)
    else if size == 2 then Centred(u % 0x1_0000, 0x8000)
    else if size == 4 then Centred(u % U32, 0x8000_0000)
    else Centred(u % U64, I64)
  }

  /** The decoders of the numeric types. */
  function ReadNumber(t: LType, b: Bytes): (r: Read<int>)
    ensures r.Got? ==> Shorter(r.rest, b)
  {
    match t
    case Bool =>
      (match ReadVarint32(b)
       case Fail => Fail
       case Got(v, rest) => Got(if v != 0 then 1 else 0, rest))
    case VarintT(size) =>
      (match ReadVarint(b)
       case Fail => Fail
       case Got(v, rest) =>
         if !IntSize(size) then Fail
         else
           var svalue := if size == 8 then ToSigned(v, 8) else ToSigned(v, 4);
           var clamped := ToSigned(svalue % U64, size);
           if clamped != svalue then Fail else Got(clamped, rest))
    case UVarintT(size) =>
      (match ReadVarint(b)
       case Fail => Fail
       case Got(v, rest) => if !IntSize(size) || v >= 2 * Half(size) then Fail else Got(v, rest))
    case SVarintT(size) =>
      (match ReadVarint(b)
       case Fail => Fail
       case Got(v, rest) =>
         if !IntSize(size) || ToSigned(UnZigZag(v) % U64, size) != UnZigZag(v) then Fail
         else Got(UnZigZag(v), rest))
    case Fixed32T =>
      (match ReadFixed(b, 4)
       case Fail => Fail
       case Got(v, rest) => Got(v, rest))
    case Fixed64T =>
      (match ReadFixed(b, 8)
       case Fail => Fail
       case Got(v, rest) => Got(v, rest))
    case _ => Fail
  }

  /** The text up to its terminator. */
  function CString(b: Bytes): Bytes {
    if b == [] || b[0] == 0 then [] else [b[0]] + CString(b[1..])
  }

  /** The decoders of bytes, strings and inline bytes. */
  function ReadBlob(t: LType, b: Bytes): (r: Read<Bytes>)
    ensures r.Got? ==> Shorter(r.rest, b)
  {
    match ReadVarint32(b)
    case Fail => Fail
    case Got(n, rest) =>
      match t
      case BytesT(capacity) => if n > capacity || n > |rest| then Fail else Got(rest[..n], rest[n..])
      case StringT(dataSize) => if n + 1 > dataSize || n > |rest| then Fail else Got(CString(rest[..n]), rest[n..])
      case FixedBytesT(dataSize) =>
        if n == 0 then Got(seq(dataSize, i => 0), rest)
        else if n != dataSize || n > |rest| then Fail
        else Got(rest[..n], rest[n..])
      case _ => Fail
  }

  // ---------- Messages ----------

  /** What pb_decode_noinit keeps besides the struct: the fixed-count array it is filling,
      if any, and the required fields it has seen, by their index among them. */
  datatype State = State(slots: seq<Slot>, fixed: Option<nat>, seen: set<nat>)

  /** What the iterator sees of a field; where its data lies is left out. */
  function Desc(f: Field): Iter.FieldDesc {
    Iter.FieldDesc(f.tag,
                   match f.rule
                   case Required => Iter.Required
                   case Optional => Iter.Optional
                   case Singular => Iter.Optional
                   case Repeated(_) => Iter.Repeated
                   case FixedCount(_) => Iter.Repeated
                   case Oneof(_) => Iter.Oneof,
                   Iter.Static, false, 0, 0, 0, 0)
  }

  function Descs(s: Schema): (d: seq<Iter.FieldDesc>)
    ensures |d| == |s.fields|
  {
    seq(|s.fields|, i requires 0 <= i < |s.fields| => Desc(s.fields[i]))
  }

  /** The index of field i among the required ones. */
  function RequiredIndex(s: Schema, i: nat): nat
    requires i <= |s.fields|
  {
    Iter.RequiredBefore(Descs(s), i)
  }

  function FindFrom(s: Schema, tag: nat, i: nat): (r: Option<nat>)
    requires i <= |s.fields|
    ensures r.Some? ==> r.value < |s.fields| && s.fields[r.value].tag == tag
    ensures r == None ==> forall k :: i <= k < |s.fields| ==> s.fields[k].tag != tag
    decreases |s.fields| - i
  {
    if i == |s.fields| then None else if s.fields[i].tag == tag then Some(i) else FindFrom(s, tag, i + 1)
  }

  /** The array that was being filled is complete. */
  predicate FixedDone(s: Schema, st: State)
    requires |st.slots| == |s.fields|
  {
    st.fixed.Some? && st.fixed.value < |s.fields| && s.fields[st.fixed.value].rule.FixedCount? ==>
      |st.slots[st.fixed.value]| == s.fields[st.fixed.value].rule.count
  }

  /** Before field i is decoded: turning to another fixed-count array, which starts from
      its first entry, and noting a required field. */
  function Turn(s: Schema, st: State, i: nat): (r: Option<State>)
    requires |st.slots| == |s.fields| && i < |s.fields|
    ensures r.Some? ==> |r.value.slots| == |s.fields|
  {
    match s.fields[i].rule
    case FixedCount(_) =>
      if st.fixed == Some(i) then Some(st)
      else if !FixedDone(s, st) then None
      else Some(st.(slots := st.slots[i := []], fixed := Some(i)))
    case Required =>
      var r := RequiredIndex(s, i);
      Some(if r < Iter.MAX_REQUIRED then st.(seen := st.seen + {r}) else st)
    case _ => Some(st)
  }

  /** The submessage that decoding goes on from: the one there, or the initial one. */
  function Base(t: LType, slot: Slot): (m: seq<Slot>)
    ensures t.Sub? ==> |m| == |t.schema.fields|
  {
    if !t.Sub? then []
    else if slot != [] && slot[0].Msg? && |slot[0].slots| == |t.schema.fields| then slot[0].slots
    else Defaults(t.schema)
  }

  /** The arms of a union share their memory. */
  function ClearArms(s: Schema, slots: seq<Slot>, r: Rule): (c: seq<Slot>)
    requires |slots| == |s.fields|
    ensures |c| == |slots|
  {
    seq(|slots|, k requires 0 <= k < |slots| => if s.fields[k].rule == r then [] else slots[k])
  }

  /** The decoders of PB_DECODERS; m is the submessage to go on from. */
  function ReadValue(t: LType, m: seq<Slot>, b: Bytes): (r: Read<Value>)
    requires t.Sub? ==> |m| == |t.schema.fields|
    ensures r.Got? ==> Shorter(r.rest, b)
    decreases |b|, 0
  {
    match t
    case Sub(s) =>
      (match Substream(b)
       case NoSplit => Fail
       case Split(part, rest) =>
         match ReadMessage(s, m, part)
         case None => Fail
         case Some(slots) => Got(Msg(slots), rest))
    case BytesT(_) => (match ReadBlob(t, b) case Fail => Fail case Got(x, rest) => Got(Blob(x), rest))
    case StringT(_) => (match ReadBlob(t, b) case Fail => Fail case Got(x, rest) => Got(Blob(x), rest))
    case FixedBytesT(_) => (match ReadBlob(t, b) case Fail => Fail case Got(x, rest) => Got(Blob(x), rest))
    case _ => (match ReadNumber(t, b) case Fail => Fail case Got(x, rest) => Got(Num(x), rest))
  }

  /** A packed array: entries until the bytes end, unless there are too many. */
  function ReadPacked(t: LType, max: nat, items: seq<Value>, b: Bytes): (r: Option<seq<Value>>)
    requires !t.Sub?
    decreases |b|, 1
  {
    if b == [] then Some(items)
    else if |items| >= max then None
    else
      match ReadValue(t, [], b)
      case Fail => None
      case Got(v, rest) => ReadPacked(t, max, items + [v], rest)
  }

  /** The array cases of decode_static_field. */
  function ReadArray(t: LType, max: nat, items: seq<Value>, wireType: nat, b: Bytes): (r: Read<seq<Value>>)
    ensures r.Got? ==> Shorter(r.rest, b)
    decreases |b|, 2
  {
    if wireType == WT_STRING && Packable(t) then
      match Substream(b)
      case NoSplit => Fail
      case Split(part, rest) =>
        (match ReadPacked(t, max, items, part)
         case None => Fail
         case Some(all) => Got(all, rest))
    else if |items| >= max then Fail
    else
      match ReadValue(t, Base(t, []), b)
      case Fail => Fail
      case Got(v, rest) => Got(items + [v], rest)
  }

  datatype Step = NoStep | Step(slots: seq<Slot>, rest: Bytes)

  /** decode_static_field on field i. */
  function ReadField(s: Schema, slots: seq<Slot>, i: nat, wireType: nat, b: Bytes): (r: Step)
    requires i < |s.fields| == |slots|
    ensures r.Step? ==> |r.slots| == |slots| && Shorter(r.rest, b)
    decreases |b|, 3
  {
    var f, slot := s.fields[i], slots[i];
    match f.rule
    case Repeated(max) =>
      (match ReadArray(f.ltype, max, slot, wireType, b)
       case Fail => NoStep
       case Got(items, rest) => Step(slots[i := items], rest))
    case FixedCount(count) =>
      (match ReadArray(f.ltype, count, slot, wireType, b)
       case Fail => NoStep
       case Got(items, rest) => Step(slots[i := items], rest))
    case Oneof(_) =>
      (match ReadValue(f.ltype, Base(f.ltype, slot), b)
       case Fail => NoStep
       case Got(v, rest) => Step(ClearArms(s, slots, f.rule)[i := [v]], rest))
    case _ =>
      (match ReadValue(f.ltype, Base(f.ltype, slot), b)
       case Fail => NoStep
       case Got(v, rest) => Step(slots[i := [v]], rest))
  }

  /** In a message without fields, field number 0 finds the terminator of the descriptors,
      which is decoded like a bool. */
  function SkipTerminator(b: Bytes): (r: Option<Bytes>)
    ensures r.Some? ==> Shorter(r.value, b)
  {
    match ReadVarint32(b)
    case Fail => None
    case Got(_, rest) => Some(rest)
  }

  datatype Loop = NoLoop | Loop(st: State, rest: Bytes)

  /** The loop of pb_decode_noinit. */
  function ReadFields(s: Schema, st: State, b: Bytes): (r: Loop)
    requires |st.slots| == |s.fields|
    ensures r.Loop? ==> |r.st.slots| == |s.fields| && |r.rest| <= |b|
    decreases |b|, 4
  {
    if b == [] then Loop(st, b)
    else
      match ReadTag(b)
      case NoTag => NoLoop
      case End(rest) => Loop(st, rest)
      case IsTag(wireType, tag, rest) =>
        match FindFrom(s, tag, 0)
        case None =>
          (match (if s.fields == [] && tag == 0 then SkipTerminator(rest) else Skip(wireType, rest))
           case None => NoLoop
           case Some(rest') => ReadFields(s, st, rest'))
        case Some(i) =>
          match Turn(s, st, i)
          case None => NoLoop
          case Some(st') =>
            match ReadField(s, st'.slots, i, wireType, rest)
            case NoStep => NoLoop
            case Step(slots, rest') => ReadFields(s, st'.(slots := slots), rest')
  }

  /** The checks at the end of pb_decode_noinit. */
  predicate Complete(s: Schema, st: State)
    requires |st.slots| == |s.fields|
  {
    FixedDone(s, st) && forall r: nat :: r < RequiredIndex(s, |s.fields|) && r < Iter.MAX_REQUIRED ==> r in st.seen
  }

  /** pb_decode_noinit on the whole of b. */
  function ReadMessage(s: Schema, m: seq<Slot>, b: Bytes): (r: Option<seq<Slot>>)
    requires |m| == |s.fields|
    ensures r.Some? ==> |r.value| == |m|
    decreases |b|, 5
  {
    match ReadFields(s, State(m, None, {}), b)
    case NoLoop => None
    case Loop(st, _) => if Complete(s, st) then Some(st.slots) else None
  }

  /** pb_decode */
  function Decode(s: Schema, b: Bytes): Option<seq<Slot>> {
    ReadMessage(s, Defaults(s), b)
  }
}
