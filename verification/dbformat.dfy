/** LevelDB internal keys: a user key followed by eight bytes that pack a
    sequence number and a value type. The byte form, its parser and the order
    that sorted runs of entries follow. */
module DbFormat {
  import opened Wrappers
  import opened LittleEndian

  const MAX_SEQUENCE_NUMBER: nat := 0xFF_FFFF_FFFF_FFFF

  type SequenceNumber = s: nat | s <= MAX_SEQUENCE_NUMBER

  datatype ValueType = TypeDeletion | TypeValue {
    function Code(): nat {
      if TypeDeletion? then 0 else 1
    }
  }

  const VALUE_TYPE_FOR_SEEK := TypeValue

  datatype ParsedInternalKey =
    ParsedInternalKey(userKey: Bytes, sequence: SequenceNumber, kind: ValueType)

  /** A user-supplied comparator: negative, zero or positive, a total order. */
  type Comparator = (Bytes, Bytes) -> int

  ghost predicate OrderLaws(cmp: Comparator, a: Bytes, b: Bytes, c: Bytes) {
    && (cmp(a, b) == 0 <==> a == b)
    && (cmp(a, b) < 0 <==> cmp(b, a) > 0)
    && (cmp(a, b) < 0 && cmp(b, c) < 0 ==> cmp(a, c) < 0)
  }

  ghost predicate TotalOrder(cmp: Comparator) {
    forall a, b, c :: OrderLaws(cmp, a, b, c)
  }

  /** The laws of the order for three keys, in every direction a proof may need. */
  lemma Laws(cmp: Comparator, a: Bytes, b: Bytes, c: Bytes)
    requires TotalOrder(cmp)
    ensures cmp(a, b) == 0 <==> a == b
    ensures cmp(a, b) < 0 <==> cmp(b, a) > 0
    ensures cmp(a, b) <= 0 && cmp(b, c) <= 0 ==> cmp(a, c) <= 0
    ensures cmp(a, b) <= 0 && cmp(b, c) < 0 ==> cmp(a, c) < 0
    ensures cmp(a, b) < 0 && cmp(b, c) <= 0 ==> cmp(a, c) < 0
  {
    assert OrderLaws(cmp, a, b, c) && OrderLaws(cmp, b, a, c) && OrderLaws(cmp, b, c, a);
  }

  // ---------- Internal keys as bytes ----------

  function PackSequenceAndType(seqno: SequenceNumber, t: ValueType): nat {
    seqno * 256 + t.Code()
  }

  function AppendInternalKey(result: Bytes, key: ParsedInternalKey): Bytes {
    result + key.userKey + Fixed(PackSequenceAndType(key.sequence, key.kind), 8)
  }

  function ExtractUserKey(k: Bytes): Bytes
    requires |k| >= 8
  {
    k[..|k| - 8]
  }

  function Tag(k: Bytes): nat
    requires |k| >= 8
  {
    UnFixed(k[|k| - 8..])
  }

  lemma TagFits(k: Bytes)
    requires |k| >= 8
    ensures Tag(k) / 256 <= MAX_SEQUENCE_NUMBER
  {
    FixedInverse(k[|k| - 8..]);
    ByteLimits();
  }

  function ParseInternalKey(k: Bytes): Option<ParsedInternalKey> {
    if |k| < 8 then None
    else
      TagFits(k);
      var c := Tag(k) % 256;
      if c > TypeValue.Code() then None
      else Some(ParsedInternalKey(ExtractUserKey(k), Tag(k) / 256,
                                  if c == 0 then TypeDeletion else TypeValue))
  }

  function InternalCompare(cmp: Comparator, a: Bytes, b: Bytes): int
    requires |a| >= 8 && |b| >= 8
  {
    var r := cmp(ExtractUserKey(a), ExtractUserKey(b));
    if r != 0 then r
    else if Tag(a) > Tag(b) then -1
    else if Tag(a) < Tag(b) then 1
    else 0
  }

  /** An encoded key splits back into its user key and its packed tag. */
  lemma EncodedParts(p: ParsedInternalKey)
    ensures var k := AppendInternalKey([], p);
            |k| >= 8 && ExtractUserKey(k) == p.userKey && Tag(k) == PackSequenceAndType(p.sequence, p.kind)
  {
    var k := AppendInternalKey([], p);
    assert k[..|k| - 8] == p.userKey;
    assert k[|k| - 8..] == Fixed(PackSequenceAndType(p.sequence, p.kind), 8);
    ByteLimits();
    UnFixedInverse(PackSequenceAndType(p.sequence, p.kind), 8);
  }

  /** The eight bytes behind the user key: the type, 0 or 1, and the seven bytes of the
      sequence number, the lowest first. */
  lemma KeyBytes(p: ParsedInternalKey, i: nat)
    requires i < 7
    ensures var k, n := AppendInternalKey([], p), |p.userKey|;
            && |k| == n + 8 && k[..n] == p.userKey
            && k[n] == (if p.kind.TypeDeletion? then 0 else 1)
            && ByteLimit(i) > 0 && k[n + 1 + i] == p.sequence / ByteLimit(i) % 0x100
  {
    var tag := PackSequenceAndType(p.sequence, p.kind);
    assert Fixed(tag, 8) == [tag % 0x100] + Fixed(tag / 0x100, 7);
    assert tag / 0x100 == p.sequence;
    FixedDigits(p.sequence, 7, i);
  }

  /** Parsing inverts encoding. */
  lemma ParseOfAppend(p: ParsedInternalKey)
    ensures ParseInternalKey(AppendInternalKey([], p)) == Some(p)
  {
    EncodedParts(p);
  }

  /** A byte string parses to p exactly when it is the encoding of p, and it is
      rejected exactly when it is too short or its low tag byte is no value type. */
  lemma ParseExact(k: Bytes, p: ParsedInternalKey)
    ensures ParseInternalKey(k) == Some(p) <==> k == AppendInternalKey([], p)
    ensures ParseInternalKey(k).None? <==> |k| < 8 || Tag(k) % 256 > 1
  {
    ParseOfAppend(p);
    if ParseInternalKey(k) == Some(p) {
      assert PackSequenceAndType(p.sequence, p.kind) == Tag(k);
      FixedInverse(k[|k| - 8..]);
      assert k == k[..|k| - 8] + k[|k| - 8..];
    }
  }

  // ---------- The order of internal keys ----------

  /** Increasing user key, then decreasing sequence number, then decreasing type. */
  ghost predicate Before(cmp: Comparator, a: ParsedInternalKey, b: ParsedInternalKey) {
    || cmp(a.userKey, b.userKey) < 0
    || (a.userKey == b.userKey
        && (a.sequence > b.sequence || (a.sequence == b.sequence && a.kind.TypeValue? && b.kind.TypeDeletion?)))
  }

  /** The byte-level comparison decides exactly that order. */
  lemma CompareDecidesBefore(cmp: Comparator, a: ParsedInternalKey, b: ParsedInternalKey)
    requires TotalOrder(cmp)
    ensures var ka, kb := AppendInternalKey([], a), AppendInternalKey([], b);
            && |ka| >= 8 && |kb| >= 8
            && (InternalCompare(cmp, ka, kb) < 0 <==> Before(cmp, a, b))
            && (InternalCompare(cmp, ka, kb) == 0 <==> a == b)
            && (InternalCompare(cmp, ka, kb) > 0 <==> Before(cmp, b, a))
  {
    EncodedParts(a);
    EncodedParts(b);
    Laws(cmp, a.userKey, b.userKey, a.userKey);
    Laws(cmp, b.userKey, a.userKey, b.userKey);
  }
}
