/** nanopb's cyclic iterator over the field descriptors of a message, and the bitmap of
    required fields that the decoder keeps with its help. */
module NanopbIter {

  datatype HType = Required | Optional | Repeated | Oneof

  datatype AType = Static | Pointer | Callback

  /** pb_field_t. An extension is the one ltype that the iterator looks at. */
  datatype FieldDesc = FieldDesc(tag: nat, htype: HType, atype: AType, isExtension: bool,
                                 dataOffset: int, sizeOffset: int, dataSize: nat, arraySize: nat)

  const PB_SIZE_MAX: int := 0xffff_ffff  // pb_size_t with PB_FIELD_32BIT
  const SIZEOF_PTR: nat := 8

  /** PB_LAST_FIELD. */
  const LAST_FIELD := FieldDesc(0, Required, Static, false, 0, 0, 0, 0)

  /** Descriptor i of the array that ends with PB_LAST_FIELD. */
  function At(fields: seq<FieldDesc>, i: nat): FieldDesc {
    if i < |fields| then fields[i] else LAST_FIELD
  }

  predicate TagsNonzero(fields: seq<FieldDesc>) {
    forall i :: 0 <= i < |fields| ==> fields[i].tag != 0
  }

  /** The room that a field takes in the struct. */
  function Room(f: FieldDesc): nat {
    if f.atype == Static && f.htype == Repeated then f.dataSize * f.arraySize
    else if f.atype == Pointer then SIZEOF_PTR
    else f.dataSize
  }

  /** Field i shares its place with the one before, both being arms of a union. */
  predicate InUnion(fields: seq<FieldDesc>, i: nat)
    requires 0 < i < |fields|
  {
    fields[i - 1].htype == Oneof && fields[i].htype == Oneof && fields[i].dataOffset == PB_SIZE_MAX
  }

  /** Where the data of field i lies in the struct. */
  function DataAt(fields: seq<FieldDesc>, i: nat): int
    requires i < |fields| || i == 0
  {
    if i == 0 then At(fields, 0).dataOffset
    else if InUnion(fields, i) then DataAt(fields, i - 1)
    else DataAt(fields, i - 1) + Room(fields[i - 1]) + fields[i].dataOffset
  }

  /** Where its size, or has_ or which_ field, lies. */
  function SizeAt(fields: seq<FieldDesc>, i: nat): int
    requires i < |fields| || i == 0
  {
    if i > 0 && InUnion(fields, i) then SizeAt(fields, i - 1) else DataAt(fields, i) + At(fields, i).sizeOffset
  }

  /** How many of the first i fields are required. */
  function RequiredBefore(fields: seq<FieldDesc>, i: nat): (n: nat)
    requires i <= |fields|
    ensures n <= i
  {
    if i == 0 then 0 else RequiredBefore(fields, i - 1) + if fields[i - 1].htype == Required then 1 else 0
  }

  /** A member of the struct: where it is, how large, and where its count, has_ or which_
      member is. */
  datatype Member = Member(offset: nat, size: nat, count: int)

  /** The descriptors are those that the macros of pb.h make of the members: distances from
      the end of the member before, which only the arms of a union do not have. */
  ghost predicate Describes(fields: seq<FieldDesc>, members: seq<Member>) {
    && |fields| == |members|
    && (forall i :: 0 <= i < |fields| ==>
          && fields[i].sizeOffset == members[i].count - members[i].offset
          && members[i].size == (if fields[i].atype == Pointer then 8
                                 else if fields[i].atype == Static && fields[i].htype == Repeated
                                 then fields[i].dataSize * fields[i].arraySize
                                 else fields[i].dataSize))
    && (fields != [] ==> fields[0].dataOffset == members[0].offset)
    && forall i :: 0 < i < |fields| ==> Placed(fields, members, i)
  }

  predicate Placed(fields: seq<FieldDesc>, members: seq<Member>, i: nat)
    requires 0 < i < |fields| == |members|
  {
    if fields[i].dataOffset == 0xffff_ffff then
      && fields[i - 1].htype == Oneof && fields[i].htype == Oneof
      && members[i].offset == members[i - 1].offset && members[i].count == members[i - 1].count
    else
      fields[i].dataOffset == members[i].offset - members[i - 1].offset - members[i - 1].size
  }

  /** The iterator points at the members that the descriptors were made from. */
  lemma {:induction false} PointsAtMembers(fields: seq<FieldDesc>, members: seq<Member>, i: nat)
    requires Describes(fields, members) && i < |fields|
    ensures DataAt(fields, i) == members[i].offset && SizeAt(fields, i) == members[i].count
  {
    if i > 0 {
      PointsAtMembers(fields, members, i - 1);
      assert Placed(fields, members, i);
    }
  }

  predicate Matches(fields: seq<FieldDesc>, i: nat, tag: nat)
    requires i < |fields|
  {
    fields[i].tag == tag && !fields[i].isExtension
  }

  class FieldIter {
    const start: seq<FieldDesc>
    const dest: int  // the address of the struct
    var pos: nat
    var requiredFieldIndex: nat
    var pData: int
    var pSize: int

    /** Everything in the iterator follows from its position. */
    predicate Valid()
      reads this
    {
      && TagsNonzero(start)
      && (pos < |start| || (start == [] && pos == 0))
      && requiredFieldIndex == RequiredBefore(start, pos)
      && pData == dest + DataAt(start, pos)
      && pSize == dest + SizeAt(start, pos)
    }

    /** pb_field_iter_begin. */
    constructor (fields: seq<FieldDesc>, dest: int)
      requires TagsNonzero(fields)
      ensures Valid() && start == fields && this.dest == dest && pos == 0
    {
      start := fields;
      this.dest := dest;
      pos := 0;
      requiredFieldIndex := 0;
      pData := dest + At(fields, 0).dataOffset;
      pSize := dest + At(fields, 0).dataOffset + At(fields, 0).sizeOffset;
    }

    method Begin() returns (any: bool)
      requires TagsNonzero(start)
      modifies this
      ensures Valid() && pos == 0 && (any <==> start != [])
    {
      pos := 0;
      requiredFieldIndex := 0;
      pData := dest + At(start, pos).dataOffset;
      pSize := pData + At(start, pos).sizeOffset;
      return At(start, pos).tag != 0;
    }

    /** pb_field_iter_next. */
    method Next() returns (more: bool)
      requires Valid()
      modifies this
      ensures Valid()
      ensures more <==> old(pos) + 1 < |start|
      ensures pos == if more then old(pos) + 1 else 0
    {
      var prev := At(start, pos);
      if prev.tag == 0 {
        return false;
      }
      pos := pos + 1;
      if At(start, pos).tag == 0 {
        var _ := Begin();
        return false;
      }
      var prevSize := prev.dataSize;
      if prev.htype == Oneof && At(start, pos).htype == Oneof && At(start, pos).dataOffset == PB_SIZE_MAX {
        return true;
      } else if prev.atype == Static && prev.htype == Repeated {
        prevSize := prevSize * prev.arraySize;
      } else if prev.atype == Pointer {
        prevSize := SIZEOF_PTR;
      }
      if prev.htype == Required {
        requiredFieldIndex := requiredFieldIndex + 1;
      }
      pData := pData + prevSize + At(start, pos).dataOffset;
      pSize := pData + At(start, pos).sizeOffset;
      return true;
    }

    /** pb_field_iter_find: once around from where the iterator stands. */
    method Find(tag: nat) returns (found: bool)
      requires Valid()
      modifies this
      ensures Valid()
      ensures tag != 0 ==> (found <==> exists i: nat :: i < |start| && Matches(start, i, tag))
      ensures tag != 0 && found ==> pos < |start| && Matches(start, pos, tag)
      ensures tag == 0 ==> (found <==> start == [])
      ensures !found ==> pos == old(pos)
    {
      var from := pos;
      if At(start, pos).tag == tag && !At(start, pos).isExtension {
        assert tag != 0 ==> pos < |start| && Matches(start, pos, tag);
        return true;
      }
      var _ := Next();
      while pos != from
        invariant Valid() && (start == [] ==> pos == from)
        invariant pos != from ==> forall i: nat | i < |start| ::
          Matches(start, i, tag) ==> if pos > from then i < from || pos <= i else pos <= i < from
        invariant pos == from ==> forall i: nat | i < |start| :: !Matches(start, i, tag)
        decreases if pos > from then |start| - pos + from + 1 else from - pos
      {
        if At(start, pos).tag == tag && !At(start, pos).isExtension {
          assert tag != 0 ==> pos < |start| && Matches(start, pos, tag);
          return true;
        }
        var _ := Next();
      }
      return false;
    }
  }

  /** The first loop of the final check: seeking to the end of the fields, which tells
      how many are required. */
  method CountRequired(iter: FieldIter) returns (count: nat)
    requires iter.Valid()
    modifies iter
    ensures iter.Valid() && count == RequiredBefore(iter.start, |iter.start|)
  {
    count := iter.requiredFieldIndex;
    var lastType := At(iter.start, iter.pos).htype;
    var more := iter.Next();
    while more
      invariant iter.Valid()
      invariant more ==> 0 < iter.pos < |iter.start|
      invariant !more ==> iter.pos == 0 && count == RequiredBefore(iter.start, if iter.start == [] then 0 else |iter.start| - 1)
      invariant !more && iter.start != [] ==> lastType == iter.start[|iter.start| - 1].htype
      decreases more, |iter.start| - iter.pos
    {
      count := iter.requiredFieldIndex;
      lastType := At(iter.start, iter.pos).htype;
      more := iter.Next();
    }
    if lastType == Required && At(iter.start, iter.pos).tag != 0 {
      count := count + 1;
    }
  }

  // ---------- The bitmap of required fields ----------

  /** Bit k of a word. */
  predicate Bit(w: nat, k: nat)
    decreases k
  {
    if k == 0 then w % 2 == 1 else Bit(w / 2, k - 1)
  }

  /** The word with bit k set. */
  function WithBit(w: nat, k: nat): nat
    decreases k
  {
    if k == 0 then w - w % 2 + 1 else 2 * WithBit(w / 2, k - 1) + w % 2
  }

  lemma {:induction false} WithBitSets(w: nat, k: nat, i: nat)
    ensures Bit(WithBit(w, k), i) <==> Bit(w, i) || i == k
    decreases k
  {
    if k > 0 && i > 0 {
      WithBitSets(w / 2, k - 1, i - 1);
    }
  }

  lemma {:induction false} WithBitFits(w: nat, k: nat, n: nat)
    requires w <= Ones(n) && k < n
    ensures WithBit(w, k) <= Ones(n)
    decreases k
  {
    if k > 0 {
      WithBitFits(w / 2, k - 1, n - 1);
    }
  }

  /** w >> k */
  function ShiftRight(w: nat, k: nat): nat
    decreases k
  {
    if k == 0 then w else ShiftRight(w / 2, k - 1)
  }

  /** The number whose n lowest bits are set. */
  function Ones(n: nat): nat {
    if n == 0 then 0 else 2 * Ones(n - 1) + 1
  }

  const ALLBITS: nat := 0xffff_ffff

  lemma AllBitsAreOnes()
    ensures ALLBITS == Ones(32)
  {
    assert Ones(8) == 0xff;
    assert Ones(16) == 0xffff;
    assert Ones(24) == 0xff_ffff;
    assert Ones(32) == 0xffff_ffff;
  }

  lemma {:induction false} ShiftedOnes(n: nat, k: nat)
    requires k <= n
    ensures ShiftRight(Ones(n), k) == Ones(n - k)
    decreases k
  {
    if k > 0 {
      assert Ones(n) / 2 == Ones(n - 1);
      ShiftedOnes(n - 1, k - 1);
    }
  }

  /** Of the m lowest bits, those below r are set. */
  ghost predicate SetBelow(w: nat, r: nat, m: nat) {
    forall k: nat :: k < m ==> (Bit(w, k) <==> k < r)
  }

  lemma HalfSetBelow(w: nat, r: nat, m: nat)
    requires m > 0
    ensures SetBelow(w, r, m) <==> (Bit(w, 0) <==> 0 < r) && SetBelow(w / 2, if r == 0 then 0 else r - 1, m - 1)
  {
    var r' := if r == 0 then 0 else r - 1;
    if SetBelow(w, r, m) {
      forall k: nat | k < m - 1 ensures Bit(w / 2, k) <==> k < r' {
        assert Bit(w, k + 1) <==> k + 1 < r;
      }
    }
    if (Bit(w, 0) <==> 0 < r) && SetBelow(w / 2, r', m - 1) {
      forall k: nat | k < m ensures Bit(w, k) <==> k < r {
        if k > 0 {
          assert Bit(w / 2, k - 1) <==> k - 1 < r';
        }
      }
    }
  }

  /** A word below 2^m is Ones(r) exactly if its bits below r, and no others, are set. */
  lemma {:induction false} OnesByBits(w: nat, r: nat, m: nat)
    requires r <= m && w <= Ones(m)
    ensures w == Ones(r) <==> SetBelow(w, r, m)
    decreases m
  {
    if m > 0 {
      var r' := if r == 0 then 0 else r - 1;
      OnesByBits(w / 2, r', m - 1);
      HalfSetBelow(w, r, m);
    }
  }

  const MAX_REQUIRED: nat := 64  // PB_MAX_REQUIRED_FIELDS

  /** fields_seen of pb_decode_noinit. */
  class FieldsSeen {
    const words: array<nat>

    constructor ()
      ensures Valid() && fresh(words) && forall i: nat :: !Has(i)
    {
      words := new nat[2](_ => 0);
      new;
      forall i: nat ensures !Has(i) {
        NoBits(i % 32);
      }
    }

    ghost predicate Valid()
      reads this, words
    {
      words.Length == 2 && words[0] <= Ones(32) && words[1] <= Ones(32)
    }

    /** Required field i was seen. */
    ghost predicate Has(i: nat)
      requires words.Length == 2
      reads this, words
    {
      i < MAX_REQUIRED && Bit(words[i / 32], i % 32)
    }

    method Mark(index: nat)
      requires Valid() && index < MAX_REQUIRED
      modifies words
      ensures Valid() && forall i: nat :: Has(i) <==> old(Has(i)) || i == index
    {
      hide Bit, WithBit, Ones;
      ghost var w := words[index / 32];
      WithBitFits(w, index % 32, 32);
      words[index / 32] := WithBit(words[index / 32], index % 32);
      forall i: nat ensures Has(i) <==> old(Has(i)) || i == index {
        WithBitSets(w, index % 32, i % 32);
      }
    }

    /** The final check: every one of the first `count` required fields, as far as the
        bitmap goes, was seen. */
    method Check(count: nat) returns (ok: bool)
      requires Valid() && forall i: nat :: Has(i) ==> i < count
      ensures ok <==> forall i: nat :: i < count && i < MAX_REQUIRED ==> Has(i)
    {
      var n := if count > MAX_REQUIRED then MAX_REQUIRED else count;
      AllBitsAreOnes();
      for i := 0 to n / 32
        invariant forall k: nat :: k < 32 * i ==> Has(k)
      {
        WordFull(i, 32);
        if words[i] != ALLBITS {
          return false;
        }
      }
      if n % 32 != 0 {
        ShiftedOnes(32, 32 - n % 32);
        WordFull(n / 32, n % 32);
        if words[n / 32] != ShiftRight(ALLBITS, 32 - n % 32) {
          return false;
        }
      }
      return true;
    }

    /** A word whose fields from r on were not seen. */
    lemma WordFull(i: nat, r: nat)
      requires Valid() && i < 2 && r <= 32
      requires forall j: nat :: 32 * i <= j < 32 * i + 32 && Has(j) ==> j < 32 * i + r
      ensures words[i] == Ones(r) <==> forall j: nat :: 32 * i <= j < 32 * i + r ==> Has(j)
    {
      hide Bit, Ones;
      var w := words[i];
      OnesByBits(w, r, 32);
      forall k: nat | k < 32 ensures Has(32 * i + k) <==> Bit(w, k) {
        WordOf(i, k);
      }
      forall j: nat | 32 * i <= j < 32 * i + 32 ensures Has(j) <==> Bit(w, j - 32 * i) {
        WordOf(i, j - 32 * i);
      }
    }

    static lemma WordOf(i: nat, k: nat)
      requires k < 32
      ensures (32 * i + k) / 32 == i && (32 * i + k) % 32 == k
    {
    }
  }

  lemma {:induction false} NoBits(k: nat)
    ensures !Bit(0, k)
  {
    if k > 0 {
      NoBits(k - 1);
    }
  }
}
