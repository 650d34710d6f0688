/** A message with a field of every kind, and its bytes. */
module NanopbSample {
  import opened Wrappers
  import opened LittleEndian
  import opened NanopbWire
  import opened NanopbMessage
  import opened NanopbFields
  import opened NanopbBytes

  /** A field of every kind. */
  function SampleSchema(): Schema {
    Schema([
      Field(1, Required, VarintT(4), Num(0)),
      Field(2, Optional, StringT(16), Blob([])),
      Field(3, Optional, Sub(Schema([Field(1, Required, VarintT(4), Num(0))])), Msg([])),
      Field(4, Repeated(8), VarintT(4), Num(0)),
      Field(5, Repeated(4), StringT(4), Blob([])),
      Field(6, Required, Fixed32T, Num(0)),
      Field(7, Required, Fixed64T, Num(0)),
      Field(8, Required, VarintT(4), Num(0)),
      Field(9, Required, SVarintT(4), Num(0)),
      Field(10, Singular, VarintT(4), Num(0)),
      Field(11, Singular, Bool, Num(0)),
      Field(12, Optional, UVarintT(8), Num(0)),
      Field(13, Oneof(1), UVarintT(8), Num(0)),
      Field(14, Oneof(1), BytesT(4), Blob([])),
      Field(16, FixedCount(2), Fixed32T, Num(0)),
      Field(17, Repeated(4), Bool, Num(0))])
  }

  function Sample(): seq<Slot> {
    [
      [Num(150)],
      [Blob([0x74, 0x65, 0x73, 0x74, 0x69, 0x6E, 0x67])],
      [Msg([[Num(150)]])],
      [Num(3), Num(270), Num(86942)],
      [Blob([0x61]), Blob([0x62])],
      [Num(5)],
      [Num(0x0102030405060708)],
      [Num(-2)],
      [Num(-2)],
      [Num(0)],
      [Num(1)],
      [],
      [],
      [Blob([])],
      [Num(1), Num(2)],
      []]
  }

  /** Its bytes, field by field. */
  function SampleParts(): seq<Bytes> {
    [
      [0x08, 0x96, 0x01],
      [0x12, 0x07, 0x74, 0x65, 0x73, 0x74, 0x69, 0x6E, 0x67],
      [0x1A, 0x03, 0x08, 0x96, 0x01],
      [0x22, 0x06, 0x03, 0x8E, 0x02, 0x9E, 0xA7, 0x05],
      [0x2A, 0x01, 0x61, 0x2A, 0x01, 0x62],
      [0x35, 0x05, 0x00, 0x00, 0x00],
      [0x39, 0x08, 0x07, 0x06, 0x05, 0x04, 0x03, 0x02, 0x01],
      [0x40, 0xFE, 0xFF, 0xFF, 0xFF, 0xFF, 0xFF, 0xFF, 0xFF, 0xFF, 0x01],
      [0x48, 0x03],
      [],
      [0x58, 0x01],
      [],
      [],
      [0x72, 0x00],
      [0x82, 0x01, 0x08, 0x01, 0x00, 0x00, 0x00, 0x02, 0x00, 0x00, 0x00],
      []]
  }

  lemma SampleTags()
    ensures Tag(0, 1) == [0x08]
    ensures Tag(2, 2) == [0x12]
    ensures Tag(2, 3) == [0x1A]
    ensures Tag(2, 4) == [0x22]
    ensures Tag(2, 5) == [0x2A]
    ensures Tag(5, 6) == [0x35]
    ensures Tag(1, 7) == [0x39]
    ensures Tag(0, 8) == [0x40]
    ensures Tag(0, 9) == [0x48]
    ensures Tag(0, 11) == [0x58]
    ensures Tag(2, 14) == [0x72]
    ensures Tag(2, 16) == [0x82, 0x01]
  {
    assert Varint(1) == [1];
  }

  lemma SampleVarints()
    ensures Varint(0) == [0x00]
    ensures Varint(1) == [0x01]
    ensures Varint(2) == [0x02]
    ensures Varint(3) == [0x03]
    ensures Varint(6) == [0x06]
    ensures Varint(7) == [0x07]
    ensures Varint(8) == [0x08]
    ensures Varint(150) == [0x96, 0x01]
    ensures Varint(270) == [0x8E, 0x02]
    ensures Varint(86942) == [0x9E, 0xA7, 0x05]
  {
    assert Varint(1) == [0x01];
    assert Varint(0x96) == [0x96, 0x01];
    assert Varint(2) == [0x02];
    assert Varint(0x10e) == [0x8E, 0x02];
    assert Varint(5) == [0x05];
    assert Varint(0x2a7) == [0xA7, 0x05];
    assert Varint(0x1539e) == [0x9E, 0xA7, 0x05];
  }

  lemma Longer(v: nat, b: Bytes)
    requires v >= 0x80 && Varint(v / 0x80) == b
    ensures Varint(v) == [v % 0x80 + 0x80] + b
  {
  }

  lemma FiveOnes()
    ensures Varint(0x1fffffff) == [0xFF, 0xFF, 0xFF, 0xFF, 0x01]
  {
    assert Varint(1) == [0x01];
    hide Varint;
    Longer(0xff, [0x01]);
    Longer(0x7fff, [0xFF, 0x01]);
    Longer(0x3fffff, [0xFF, 0xFF, 0x01]);
    Longer(0x1fffffff, [0xFF, 0xFF, 0xFF, 0x01]);
  }

  lemma MinusTwo()
    ensures Varint(0xfffffffffffffffe) == [0xFE, 0xFF, 0xFF, 0xFF, 0xFF, 0xFF, 0xFF, 0xFF, 0xFF, 0x01]
  {
    hide Varint;
    FiveOnes();
    Longer(0xfffffffff, [0xFF, 0xFF, 0xFF, 0xFF, 0x01]);
    Longer(0x7ffffffffff, [0xFF, 0xFF, 0xFF, 0xFF, 0xFF, 0x01]);
    Longer(0x3ffffffffffff, [0xFF, 0xFF, 0xFF, 0xFF, 0xFF, 0xFF, 0x01]);
    Longer(0x1ffffffffffffff, [0xFF, 0xFF, 0xFF, 0xFF, 0xFF, 0xFF, 0xFF, 0x01]);
    Longer(0xfffffffffffffffe, [0xFF, 0xFF, 0xFF, 0xFF, 0xFF, 0xFF, 0xFF, 0xFF, 0x01]);
  }

  lemma SampleFixed()
    ensures Fixed(5, 4) == [0x05, 0x00, 0x00, 0x00]
    ensures Fixed(1, 4) == [0x01, 0x00, 0x00, 0x00]
    ensures Fixed(2, 4) == [0x02, 0x00, 0x00, 0x00]
    ensures Fixed(0x102030405060708, 8) == [0x08, 0x07, 0x06, 0x05, 0x04, 0x03, 0x02, 0x01]
  {
    hide Fixed;
    NoneFixed();
    OneMoreFixed(0, 0, []);
    OneMoreFixed(0, 1, [0x00]);
    OneMoreFixed(0, 2, [0x00, 0x00]);
    OneMoreFixed(5, 3, [0x00, 0x00, 0x00]);
    OneMoreFixed(0, 0, []);
    OneMoreFixed(0, 1, [0x00]);
    OneMoreFixed(0, 2, [0x00, 0x00]);
    OneMoreFixed(1, 3, [0x00, 0x00, 0x00]);
    OneMoreFixed(0, 0, []);
    OneMoreFixed(0, 1, [0x00]);
    OneMoreFixed(0, 2, [0x00, 0x00]);
    OneMoreFixed(2, 3, [0x00, 0x00, 0x00]);
    LongFixed();
  }

  lemma OneMoreFixed(v: nat, n: nat, b: Bytes)
    requires Fixed(v / 0x100, n) == b
    ensures Fixed(v, n + 1) == [v % 0x100] + b
  {
  }

  lemma NoneFixed()
    ensures Fixed(0, 0) == []
  {
  }

  lemma LongFixed()
    ensures Fixed(0x102030405060708, 8) == [0x08, 0x07, 0x06, 0x05, 0x04, 0x03, 0x02, 0x01]
  {
    hide Fixed;
    NoneFixed();
    OneMoreFixed(1, 0, []);
    OneMoreFixed(0x102, 1, [0x01]);
    OneMoreFixed(0x10203, 2, [0x02, 0x01]);
    OneMoreFixed(0x1020304, 3, [0x03, 0x02, 0x01]);
    OneMoreFixed(0x102030405, 4, [0x04, 0x03, 0x02, 0x01]);
    OneMoreFixed(0x10203040506, 5, [0x05, 0x04, 0x03, 0x02, 0x01]);
    OneMoreFixed(0x1020304050607, 6, [0x06, 0x05, 0x04, 0x03, 0x02, 0x01]);
    OneMoreFixed(0x102030405060708, 7, [0x07, 0x06, 0x05, 0x04, 0x03, 0x02, 0x01]);
  }

  lemma TaggedIs(f: Field, v: Value, tag: Bytes, value: Bytes, all: Bytes)
    requires TagFor(f) == tag && ValueBytes(f.ltype, v) == Some(value) && tag + value == all
    ensures Tagged(f, v) == Some(all)
  {
    hide Tag, ValueBytes;
  }

  lemma RecordIs(s: Schema, m: seq<Slot>, i: nat, f: Field, v: Value, tag: Bytes, value: Bytes, all: Bytes)
    requires i < |s.fields| == |m| && s.fields[i] == f && m[i] == [v] && !IsArray(f.rule)
    requires f.rule.Singular? ==> !IsZero(f.ltype, v)
    requires TagFor(f) == tag && ValueBytes(f.ltype, v) == Some(value) && tag + value == all
    ensures FieldBytes(s, m, i) == Some(all)
  {
    hide Tag, ValueBytes, IsZero;
    TaggedIs(f, v, tag, value, all);
  }

  lemma PackedIs(t: LType, items: seq<Value>, v: Value, first: Bytes, last: Bytes, all: Bytes)
    requires PackedBytes(t, items) == Some(first) && ValueBytes(t, v) == Some(last) && first + last == all
    ensures PackedBytes(t, items + [v]) == Some(all)
  {
    hide ValueBytes;
    assert (items + [v])[..|items|] == items;
  }

  lemma DelimitedIs(x: Bytes, length: Bytes, all: Bytes)
    requires |x| < U64 && Varint(|x|) == length && length + x == all
    ensures Delimited(x) == all
  {
    hide Varint;
    LowHalf(|x|);
  }

  lemma ArrayIs(s: Schema, m: seq<Slot>, i: nat, f: Field, tag: Bytes, length: Bytes, items: Bytes, all: Bytes)
    requires i < |s.fields| == |m| && s.fields[i] == f && IsArray(f.rule) && Packable(f.ltype)
    requires m[i] != [] && |m[i]| <= Room(f.rule) && (f.rule.FixedCount? ==> |m[i]| == f.rule.count)
    requires Tag(2, f.tag) == tag && PackedBytes(f.ltype, m[i]) == Some(items) && Varint(|items|) == length
    requires tag + (length + items) == all && |items| < U64
    ensures FieldBytes(s, m, i) == Some(all)
  {
    hide Tag, Varint, PackedBytes, Delimited;
    DelimitedIs(items, length, length + items);
  }

  lemma FieldThen(s: Schema, m: seq<Slot>, i: nat, b: Bytes, rest: Bytes, all: Bytes)
    requires i < |s.fields| == |m| && FieldBytes(s, m, i) == Some(b) && FieldsFrom(s, m, i + 1) == Some(rest)
    requires b + rest == all
    ensures FieldsFrom(s, m, i) == Some(all)
  {
    hide FieldBytes;
  }

  lemma Sample0()
    ensures FieldBytes(SampleSchema(), Sample(), 0) == Some([0x08, 0x96, 0x01])
  {
    SampleTags();
    SampleVarints();
    hide Varint, Tag;
    var f, v := SampleSchema().fields[0], Num(150);
    assert ValueBytes(f.ltype, v) == Some([0x96, 0x01]);
    RecordIs(SampleSchema(), Sample(), 0, f, v, [0x08], [0x96, 0x01], [0x08, 0x96, 0x01]);
  }

  lemma BlobIs(t: LType, x: Bytes, length: Bytes, all: Bytes)
    requires (t.BytesT? && |x| <= t.capacity) || (t.StringT? && |x| <= t.dataSize)
    requires |x| < U64 && Varint(|x|) == length && length + x == all
    ensures ValueBytes(t, Blob(x)) == Some(all)
  {
    hide Varint, Delimited;
    DelimitedIs(x, length, all);
  }

  lemma Sample1()
    ensures FieldBytes(SampleSchema(), Sample(), 1) == Some([0x12, 0x07, 0x74, 0x65, 0x73, 0x74, 0x69, 0x6E, 0x67])
  {
    SampleTags();
    SampleVarints();
    hide Varint, Tag;
    BlobIs(StringT(16), [0x74, 0x65, 0x73, 0x74, 0x69, 0x6E, 0x67], [7],
        [0x07, 0x74, 0x65, 0x73, 0x74, 0x69, 0x6E, 0x67]);
    var f, v := SampleSchema().fields[1], Blob([0x74, 0x65, 0x73, 0x74, 0x69, 0x6E, 0x67]);
    assert ValueBytes(f.ltype, v) == Some([0x07, 0x74, 0x65, 0x73, 0x74, 0x69, 0x6E, 0x67]);
    RecordIs(SampleSchema(), Sample(), 1, f, v, [0x12], [0x07, 0x74, 0x65, 0x73, 0x74, 0x69, 0x6E, 0x67],
        [0x12, 0x07, 0x74, 0x65, 0x73, 0x74, 0x69, 0x6E, 0x67]);
  }

  lemma InnerSample()
    ensures var s := Schema([Field(1, Required, VarintT(4), Num(0))]);
            ValueBytes(Sub(s), Msg([[Num(150)]])) == Some([0x03, 0x08, 0x96, 0x01])
  {
    SampleTags();
    SampleVarints();
    hide Varint, Tag;
    var f := Field(1, Required, VarintT(4), Num(0));
    var s, m := Schema([f]), [[Num(150)]];
    assert ValueBytes(f.ltype, Num(150)) == Some([0x96, 0x01]);
    RecordIs(s, m, 0, f, Num(150), [0x08], [0x96, 0x01], [0x08, 0x96, 0x01]);
    assert FieldsFrom(s, m, 1) == Some([]);
    FieldThen(s, m, 0, [0x08, 0x96, 0x01], [], [0x08, 0x96, 0x01]);
    hide FieldsFrom;
    var b: Bytes := [0x08, 0x96, 0x01];
    assert MessageBytes(s, m) == Some(b);
    assert [0x03] + b == [0x03, 0x08, 0x96, 0x01];
  }

  lemma Sample2()
    ensures FieldBytes(SampleSchema(), Sample(), 2) == Some([0x1A, 0x03, 0x08, 0x96, 0x01])
  {
    SampleTags();
    InnerSample();
    hide Tag, ValueBytes;
    var f, v := SampleSchema().fields[2], Msg([[Num(150)]]);
    assert ValueBytes(f.ltype, v) == Some([0x03, 0x08, 0x96, 0x01]);
    RecordIs(SampleSchema(), Sample(), 2, f, v, [0x1A], [0x03, 0x08, 0x96, 0x01], [0x1A, 0x03, 0x08, 0x96, 0x01]);
  }

  lemma Entries3()
    ensures PackedBytes(VarintT(4), [Num(3), Num(270), Num(86942)]) == Some([0x03, 0x8E, 0x02, 0x9E, 0xA7, 0x05])
  {
    SampleVarints();
    hide Varint, Fixed;
    var t := VarintT(4);
    assert PackedBytes(t, []) == Some([]);
    assert ValueBytes(t, Num(3)) == Some([0x03]);
    PackedIs(t, [], Num(3), [], [0x03], [0x03]);
    assert [] + [Num(3)] == [Num(3)];
    assert ValueBytes(t, Num(270)) == Some([0x8E, 0x02]);
    PackedIs(t, [Num(3)], Num(270), [0x03], [0x8E, 0x02], [0x03, 0x8E, 0x02]);
    assert [Num(3)] + [Num(270)] == [Num(3), Num(270)];
    assert ValueBytes(t, Num(86942)) == Some([0x9E, 0xA7, 0x05]);
    PackedIs(t, [Num(3), Num(270)], Num(86942), [0x03, 0x8E, 0x02], [0x9E, 0xA7, 0x05],
        [0x03, 0x8E, 0x02, 0x9E, 0xA7, 0x05]);
    assert [Num(3), Num(270)] + [Num(86942)] == [Num(3), Num(270), Num(86942)];
  }

  lemma Sample3()
    ensures FieldBytes(SampleSchema(), Sample(), 3) == Some([0x22, 0x06, 0x03, 0x8E, 0x02, 0x9E, 0xA7, 0x05])
  {
    SampleTags();
    SampleVarints();
    Entries3();
    hide Varint, Tag, PackedBytes;
    ArrayIs(SampleSchema(), Sample(), 3, SampleSchema().fields[3], [0x22], [6],
        [0x03, 0x8E, 0x02, 0x9E, 0xA7, 0x05], [0x22, 0x06, 0x03, 0x8E, 0x02, 0x9E, 0xA7, 0x05]);
  }

  lemma Sample4()
    ensures FieldBytes(SampleSchema(), Sample(), 4) == Some([0x2A, 0x01, 0x61, 0x2A, 0x01, 0x62])
  {
    SampleTags();
    SampleVarints();
    hide Varint, Tag;
    var f := SampleSchema().fields[4];
    var x, y := Blob([0x61]), Blob([0x62]);
    BlobIs(f.ltype, [0x61], [1], [0x01, 0x61]);
    BlobIs(f.ltype, [0x62], [1], [0x01, 0x62]);
    TaggedIs(f, x, [0x2A], [0x01, 0x61], [0x2A, 0x01, 0x61]);
    TaggedIs(f, y, [0x2A], [0x01, 0x62], [0x2A, 0x01, 0x62]);
    assert TaggedItems(f, []) == Some([]);
    ItemsAre(f, [], x, [], [0x2A, 0x01, 0x61], [0x2A, 0x01, 0x61]);
    assert [] + [x] == [x] && [x] + [y] == [x, y];
    ItemsAre(f, [x], y, [0x2A, 0x01, 0x61], [0x2A, 0x01, 0x62], [0x2A, 0x01, 0x61, 0x2A, 0x01, 0x62]);
    hide TaggedItems;
    assert Sample()[4] == [x, y];
  }

  lemma ItemsAre(f: Field, items: seq<Value>, v: Value, first: Bytes, last: Bytes, all: Bytes)
    requires TaggedItems(f, items) == Some(first) && Tagged(f, v) == Some(last) && first + last == all
    ensures TaggedItems(f, items + [v]) == Some(all)
  {
    hide Tagged;
    assert (items + [v])[..|items|] == items;
  }

  lemma Sample5()
    ensures FieldBytes(SampleSchema(), Sample(), 5) == Some([0x35, 0x05, 0x00, 0x00, 0x00])
  {
    SampleTags();
    SampleFixed();
    hide Fixed, Tag;
    var f, v := SampleSchema().fields[5], Num(5);
    assert ValueBytes(f.ltype, v) == Some([0x05, 0x00, 0x00, 0x00]);
    RecordIs(SampleSchema(), Sample(), 5, f, v, [0x35], [0x05, 0x00, 0x00, 0x00], [0x35, 0x05, 0x00, 0x00, 0x00]);
  }

  lemma Sample6()
    ensures FieldBytes(SampleSchema(), Sample(), 6) == Some([0x39, 0x08, 0x07, 0x06, 0x05, 0x04, 0x03, 0x02, 0x01])
  {
    SampleTags();
    SampleFixed();
    hide Fixed, Tag;
    var f, v := SampleSchema().fields[6], Num(0x0102030405060708);
    assert ValueBytes(f.ltype, v) == Some([0x08, 0x07, 0x06, 0x05, 0x04, 0x03, 0x02, 0x01]);
    RecordIs(SampleSchema(), Sample(), 6, f, v, [0x39], [0x08, 0x07, 0x06, 0x05, 0x04, 0x03, 0x02, 0x01],
        [0x39, 0x08, 0x07, 0x06, 0x05, 0x04, 0x03, 0x02, 0x01]);
  }

  lemma Sample7()
    ensures FieldBytes(SampleSchema(), Sample(), 7) == Some([0x40, 0xFE, 0xFF, 0xFF, 0xFF, 0xFF, 0xFF, 0xFF, 0xFF, 0xFF, 0x01])
  {
    SampleTags();
    MinusTwo();
    hide Varint, Tag;
    var f, v := SampleSchema().fields[7], Num(-2);
    assert ValueBytes(f.ltype, v) == Some([0xFE, 0xFF, 0xFF, 0xFF, 0xFF, 0xFF, 0xFF, 0xFF, 0xFF, 0x01]);
    RecordIs(SampleSchema(), Sample(), 7, f, v, [0x40],
        [0xFE, 0xFF, 0xFF, 0xFF, 0xFF, 0xFF, 0xFF, 0xFF, 0xFF, 0x01],
            [0x40, 0xFE, 0xFF, 0xFF, 0xFF, 0xFF, 0xFF, 0xFF, 0xFF, 0xFF, 0x01]);
  }

  lemma Sample8()
    ensures FieldBytes(SampleSchema(), Sample(), 8) == Some([0x48, 0x03])
  {
    SampleTags();
    SampleVarints();
    hide Varint, Tag;
    var f, v := SampleSchema().fields[8], Num(-2);
    assert ValueBytes(f.ltype, v) == Some([0x03]);
    RecordIs(SampleSchema(), Sample(), 8, f, v, [0x48], [0x03], [0x48, 0x03]);
  }

  /** Zero, absent and empty fields, and the arm that is not set, have no bytes. */
  lemma SampleAbsent(i: nat)
    requires i == 9 || i == 11 || i == 12 || i == 15
    ensures FieldBytes(SampleSchema(), Sample(), i) == Some([])
  {
  }

  lemma Sample10()
    ensures FieldBytes(SampleSchema(), Sample(), 10) == Some([0x58, 0x01])
  {
    SampleTags();
    SampleVarints();
    hide Varint, Tag;
    var f, v := SampleSchema().fields[10], Num(1);
    assert ValueBytes(f.ltype, v) == Some([0x01]);
    RecordIs(SampleSchema(), Sample(), 10, f, v, [0x58], [0x01], [0x58, 0x01]);
  }

  lemma Sample13()
    ensures FieldBytes(SampleSchema(), Sample(), 13) == Some([0x72, 0x00])
  {
    SampleTags();
    SampleVarints();
    hide Varint, Tag;
    BlobIs(BytesT(4), [], [0], [0]);
    var f, v := SampleSchema().fields[13], Blob([]);
    assert ValueBytes(f.ltype, v) == Some([0x00]);
    RecordIs(SampleSchema(), Sample(), 13, f, v, [0x72], [0x00], [0x72, 0x00]);
  }

  lemma Entries14()
    ensures PackedBytes(Fixed32T, [Num(1), Num(2)]) == Some([0x01, 0x00, 0x00, 0x00, 0x02, 0x00, 0x00, 0x00])
  {
    SampleFixed();
    hide Varint, Fixed;
    var t := Fixed32T;
    assert PackedBytes(t, []) == Some([]);
    assert ValueBytes(t, Num(1)) == Some([0x01, 0x00, 0x00, 0x00]);
    PackedIs(t, [], Num(1), [], [0x01, 0x00, 0x00, 0x00], [0x01, 0x00, 0x00, 0x00]);
    assert [] + [Num(1)] == [Num(1)];
    assert ValueBytes(t, Num(2)) == Some([0x02, 0x00, 0x00, 0x00]);
    PackedIs(t, [Num(1)], Num(2), [0x01, 0x00, 0x00, 0x00], [0x02, 0x00, 0x00, 0x00],
        [0x01, 0x00, 0x00, 0x00, 0x02, 0x00, 0x00, 0x00]);
    assert [Num(1)] + [Num(2)] == [Num(1), Num(2)];
  }

  lemma Sample14()
    ensures FieldBytes(SampleSchema(), Sample(), 14) == Some([0x82, 0x01, 0x08, 0x01, 0x00, 0x00, 0x00, 0x02, 0x00, 0x00, 0x00])
  {
    SampleTags();
    SampleVarints();
    Entries14();
    hide Varint, Tag, PackedBytes;
    ArrayIs(SampleSchema(), Sample(), 14, SampleSchema().fields[14], [0x82, 0x01], [8],
        [0x01, 0x00, 0x00, 0x00, 0x02, 0x00, 0x00, 0x00],
            [0x82, 0x01, 0x08, 0x01, 0x00, 0x00, 0x00, 0x02, 0x00, 0x00, 0x00]);
  }

  lemma SampleField(i: nat)
    requires i < 16
    ensures |SampleSchema().fields| == |Sample()| == |SampleParts()| == 16
    ensures FieldBytes(SampleSchema(), Sample(), i) == Some(SampleParts()[i])
  {
    hide FieldBytes;
    match i
    case 0 => Sample0();
    case 1 => Sample1();
    case 2 => Sample2();
    case 3 => Sample3();
    case 4 => Sample4();
    case 5 => Sample5();
    case 6 => Sample6();
    case 7 => Sample7();
    case 8 => Sample8();
    case 9 => SampleAbsent(9);
    case 10 => Sample10();
    case 11 => SampleAbsent(11);
    case 12 => SampleAbsent(12);
    case 13 => Sample13();
    case 14 => Sample14();
    case 15 => SampleAbsent(15);
  }

  /** A message with a field of every kind, byte by byte: the order of the fields, their
      numbers, wire types and lengths, packed and tagged arrays, ten bytes for a negative
      int32, and nothing for what is absent or zero. */
  lemma SampleBytes()
    ensures |Sample()| == |SampleSchema().fields|
    ensures MessageBytes(SampleSchema(), Sample()) == Some(Joined(SampleParts()))
  {
    SampleField(0);
    hide *;
    forall i | 0 <= i < |Sample()| ensures FieldBytes(SampleSchema(), Sample(), i) == Some(SampleParts()[i]) {
      SampleField(i);
    }
    FieldsInOrder(SampleSchema(), Sample(), SampleParts());
  }
}
