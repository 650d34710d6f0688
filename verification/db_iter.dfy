/** LevelDB's DBIter: turns a sorted run of (user key, sequence, type) entries
    into the key/value map visible at a snapshot, in both directions. */
module DbIter {
  import opened Wrappers
  import opened LittleEndian
  import opened DbFormat

  datatype Entry = Entry(key: ParsedInternalKey, value: Bytes) {
    function UserKey(): Bytes { key.userKey }
  }

  type Run = seq<Entry>

  // ---------- The run and the map it shows at a snapshot ----------

  ghost predicate InOrder(cmp: Comparator, run: Run, i: int, j: int)
    requires 0 <= i < j < |run|
  {
    Before(cmp, run[i].key, run[j].key)
  }

  ghost predicate Sorted(cmp: Comparator, run: Run) {
    forall i, j :: 0 <= i < j < |run| ==> InOrder(cmp, run, i, j)
  }

  /** What the order of the run says about two of its entries. */
  lemma KeysAscend(cmp: Comparator, run: Run, i: int, j: int)
    requires TotalOrder(cmp) && Sorted(cmp, run)
    requires 0 <= i <= j < |run|
    ensures cmp(run[i].UserKey(), run[j].UserKey()) <= 0
    ensures cmp(run[i].UserKey(), run[j].UserKey()) == 0 <==> run[i].UserKey() == run[j].UserKey()
    ensures i < j ==> Before(cmp, run[i].key, run[j].key)
  {
    Laws(cmp, run[i].UserKey(), run[j].UserKey(), run[i].UserKey());
    assert i < j ==> InOrder(cmp, run, i, j);
  }

  ghost predicate Visible(run: Run, s: SequenceNumber, i: int)
    requires 0 <= i < |run|
  {
    run[i].key.sequence <= s
  }

  /** Entry i is the newest one visible at s for its user key. */
  ghost predicate Newest(run: Run, s: SequenceNumber, i: int)
    requires 0 <= i < |run|
  {
    && Visible(run, s, i)
    && forall j | 0 <= j < |run| && run[j].UserKey() == run[i].UserKey() ::
         Visible(run, s, j) ==> run[j].key.sequence <= run[i].key.sequence
  }

  /** The newest visible entry of a key, when it is a value rather than a
      deletion. Equal sequence numbers are settled by the type, as in the order. */
  ghost predicate Shown(run: Run, s: SequenceNumber, i: int)
    requires 0 <= i < |run|
  {
    Newest(run, s, i) && run[i].key.kind.TypeValue?
  }

  ghost predicate IsSnapshot(run: Run, s: SequenceNumber, m: map<Bytes, Bytes>) {
    && (forall i :: 0 <= i < |run| && Shown(run, s, i) ==> run[i].UserKey() in m && m[run[i].UserKey()] == run[i].value)
    && (forall k :: k in m ==> exists i :: 0 <= i < |run| && Shown(run, s, i) && run[i].UserKey() == k)
  }

  /** The map visible at s. */
  ghost function Snapshot(cmp: Comparator, run: Run, s: SequenceNumber): map<Bytes, Bytes>
    requires TotalOrder(cmp) && Sorted(cmp, run)
  {
    ShownUnique(cmp, run, s);
    map i | 0 <= i < |run| && Shown(run, s, i) :: run[i].UserKey() := run[i].value
  }

  lemma ShownUnique(cmp: Comparator, run: Run, s: SequenceNumber)
    requires TotalOrder(cmp) && Sorted(cmp, run)
    ensures forall i, j | 0 <= i < |run| && 0 <= j < |run| && Shown(run, s, i) && Shown(run, s, j) ::
              run[i].UserKey() == run[j].UserKey() ==> i == j
  {
    forall i, j | 0 <= i < j < |run| && Shown(run, s, i) && Shown(run, s, j)
      ensures run[i].UserKey() != run[j].UserKey()
    {
      KeysAscend(cmp, run, i, j);
    }
  }

  lemma SnapshotShown(cmp: Comparator, run: Run, s: SequenceNumber)
    requires TotalOrder(cmp) && Sorted(cmp, run)
    ensures IsSnapshot(run, s, Snapshot(cmp, run, s))
  {
    ShownUnique(cmp, run, s);
    hide Shown, Sorted, TotalOrder;
  }

  lemma ShownAgree(cmp: Comparator, run: Run, s: SequenceNumber, m: map<Bytes, Bytes>, m': map<Bytes, Bytes>)
    requires TotalOrder(cmp) && Sorted(cmp, run) && IsSnapshot(run, s, m) && IsSnapshot(run, s, m')
    ensures m == m'
  {
    hide Shown, Sorted, TotalOrder;
    assert forall k :: k in m <==> k in m';
  }

  /** A map is the snapshot exactly when it holds what is shown and nothing else. */
  lemma SnapshotCorrect(cmp: Comparator, run: Run, s: SequenceNumber, m: map<Bytes, Bytes>)
    requires TotalOrder(cmp) && Sorted(cmp, run)
    ensures m == Snapshot(cmp, run, s) <==> IsSnapshot(run, s, m)
  {
    hide *;
    SnapshotShown(cmp, run, s);
    if IsSnapshot(run, s, m) {
      ShownAgree(cmp, run, s, m, Snapshot(cmp, run, s));
    }
  }

  /** Positions at which the iterator may rest: the first visible entry of a key
      in run order, if it is a value. */
  ghost predicate Live(run: Run, s: SequenceNumber, i: int) {
    && 0 <= i < |run|
    && Visible(run, s, i)
    && run[i].key.kind.TypeValue?
    && forall j :: 0 <= j < i && run[j].UserKey() == run[i].UserKey() ==> !Visible(run, s, j)
  }

  lemma LiveIsShown(cmp: Comparator, run: Run, s: SequenceNumber, i: int)
    requires TotalOrder(cmp) && Sorted(cmp, run) && 0 <= i < |run|
    ensures Live(run, s, i) <==> Shown(run, s, i)
  {
    forall j | 0 <= j < |run| && j != i && run[j].UserKey() == run[i].UserKey()
      ensures j < i ==> Before(cmp, run[j].key, run[i].key)
      ensures i < j ==> Before(cmp, run[i].key, run[j].key)
    {
      if j < i { KeysAscend(cmp, run, j, i); } else { KeysAscend(cmp, run, i, j); }
    }
    Laws(cmp, run[i].UserKey(), run[i].UserKey(), run[i].UserKey());
  }

  /** The snapshot map holds the entry at a live position. */
  lemma LiveInSnapshot(cmp: Comparator, run: Run, s: SequenceNumber, i: int)
    requires TotalOrder(cmp) && Sorted(cmp, run) && Live(run, s, i)
    ensures run[i].UserKey() in Snapshot(cmp, run, s) && Snapshot(cmp, run, s)[run[i].UserKey()] == run[i].value
  {
    SnapshotCorrect(cmp, run, s, Snapshot(cmp, run, s));
    LiveIsShown(cmp, run, s, i);
  }

  /** Every key of the snapshot map has its live position. */
  lemma SnapshotKeyLives(cmp: Comparator, run: Run, s: SequenceNumber, k: Bytes) returns (i: int)
    requires TotalOrder(cmp) && Sorted(cmp, run) && k in Snapshot(cmp, run, s)
    ensures Live(run, s, i) && run[i].UserKey() == k
  {
    SnapshotCorrect(cmp, run, s, Snapshot(cmp, run, s));
    i :| 0 <= i < |run| && Shown(run, s, i) && run[i].UserKey() == k;
    LiveIsShown(cmp, run, s, i);
  }

  lemma LiveKeysAscend(cmp: Comparator, run: Run, s: SequenceNumber, i: int, j: int)
    requires TotalOrder(cmp) && Sorted(cmp, run) && Live(run, s, i) && Live(run, s, j)
    ensures i < j <==> cmp(run[i].UserKey(), run[j].UserKey()) < 0
    ensures i <= j <==> cmp(run[i].UserKey(), run[j].UserKey()) <= 0
  {
    Laws(cmp, run[i].UserKey(), run[j].UserKey(), run[i].UserKey());
    if i < j { KeysAscend(cmp, run, i, j); } else { KeysAscend(cmp, run, j, i); }
  }

  /** k is the least key of m at or above the target. */
  ghost predicate FirstFrom(cmp: Comparator, m: map<Bytes, Bytes>, target: Bytes, k: Bytes) {
    k in m && cmp(k, target) >= 0 && forall k' :: k' in m && cmp(k', target) >= 0 ==> cmp(k, k') <= 0
  }

  ghost predicate NoneFrom(cmp: Comparator, m: map<Bytes, Bytes>, target: Bytes) {
    forall k :: k in m ==> cmp(k, target) < 0
  }

  /** next is the least key of m above k. */
  ghost predicate Successor(cmp: Comparator, m: map<Bytes, Bytes>, k: Bytes, next: Bytes) {
    next in m && cmp(k, next) < 0 && forall k' :: k' in m && cmp(k, k') < 0 ==> cmp(next, k') <= 0
  }

  ghost predicate NoSuccessor(cmp: Comparator, m: map<Bytes, Bytes>, k: Bytes) {
    forall k' :: k' in m ==> cmp(k, k') >= 0
  }

  /** prev is the greatest key of m below k. */
  ghost predicate Predecessor(cmp: Comparator, m: map<Bytes, Bytes>, k: Bytes, prev: Bytes) {
    prev in m && cmp(prev, k) < 0 && forall k' :: k' in m && cmp(k', k) < 0 ==> cmp(k', prev) <= 0
  }

  ghost predicate NoPredecessor(cmp: Comparator, m: map<Bytes, Bytes>, k: Bytes) {
    forall k' :: k' in m ==> cmp(k', k) >= 0
  }

  ghost predicate Minimum(cmp: Comparator, m: map<Bytes, Bytes>, k: Bytes) {
    k in m && forall k' :: k' in m ==> cmp(k, k') <= 0
  }

  ghost predicate Maximum(cmp: Comparator, m: map<Bytes, Bytes>, k: Bytes) {
    k in m && forall k' :: k' in m ==> cmp(k', k) <= 0
  }

  // ---------- From positions to keys ----------

  /** at is the first live position from `from` on; none means the end of the run. */
  ghost predicate FirstLive(run: Run, s: SequenceNumber, from: int, at: int) {
    && 0 <= from <= |run|
    && (forall i :: from <= i < at ==> !Live(run, s, i))
    && (at == |run| || (from <= at && Live(run, s, at)))
  }

  /** at is the last live position up to `top`; none means -1. */
  ghost predicate LastLive(run: Run, s: SequenceNumber, top: int, at: int) {
    && top < |run|
    && (forall i :: at < i <= top ==> !Live(run, s, i))
    && (at == -1 || (at <= top && Live(run, s, at)))
  }

  lemma FirstLiveIsMinimum(cmp: Comparator, run: Run, s: SequenceNumber, at: int)
    requires TotalOrder(cmp) && Sorted(cmp, run) && FirstLive(run, s, 0, at)
    ensures at < |run| ==> Minimum(cmp, Snapshot(cmp, run, s), run[at].UserKey())
    ensures at == |run| ==> Snapshot(cmp, run, s) == map[]
  {
    var m := Snapshot(cmp, run, s);
    if at < |run| { LiveInSnapshot(cmp, run, s, at); }
    forall k | k in m ensures at < |run| && cmp(run[at].UserKey(), k) <= 0 {
      var i := SnapshotKeyLives(cmp, run, s, k);
      LiveKeysAscend(cmp, run, s, at, i);
    }
  }

  lemma LastLiveIsMaximum(cmp: Comparator, run: Run, s: SequenceNumber, at: int)
    requires TotalOrder(cmp) && Sorted(cmp, run) && LastLive(run, s, |run| - 1, at)
    ensures at >= 0 ==> Maximum(cmp, Snapshot(cmp, run, s), run[at].UserKey())
    ensures at == -1 ==> Snapshot(cmp, run, s) == map[]
  {
    var m := Snapshot(cmp, run, s);
    if at >= 0 { LiveInSnapshot(cmp, run, s, at); }
    forall k | k in m ensures at >= 0 && cmp(k, run[at].UserKey()) <= 0 {
      var i := SnapshotKeyLives(cmp, run, s, k);
      LiveKeysAscend(cmp, run, s, i, at);
    }
  }

  /** When `from` separates the live keys below the target from the others, the
      first live position from there carries the first key from the target. */
  lemma FirstLiveIsFirstFrom(cmp: Comparator, run: Run, s: SequenceNumber, target: Bytes, from: int, at: int)
    requires TotalOrder(cmp) && Sorted(cmp, run) && FirstLive(run, s, from, at)
    requires forall i | Live(run, s, i) :: from <= i <==> cmp(run[i].UserKey(), target) >= 0
    ensures at < |run| ==> FirstFrom(cmp, Snapshot(cmp, run, s), target, run[at].UserKey())
    ensures at == |run| ==> NoneFrom(cmp, Snapshot(cmp, run, s), target)
  {
    var m := Snapshot(cmp, run, s);
    if at < |run| { LiveInSnapshot(cmp, run, s, at); }
    forall k | k in m && cmp(k, target) >= 0 ensures at < |run| && cmp(run[at].UserKey(), k) <= 0 {
      var i := SnapshotKeyLives(cmp, run, s, k);
      LiveKeysAscend(cmp, run, s, at, i);
    }
  }

  lemma FirstLiveIsSuccessor(cmp: Comparator, run: Run, s: SequenceNumber, c: int, at: int)
    requires TotalOrder(cmp) && Sorted(cmp, run) && Live(run, s, c) && FirstLive(run, s, c + 1, at)
    ensures at < |run| ==> Successor(cmp, Snapshot(cmp, run, s), run[c].UserKey(), run[at].UserKey())
    ensures at == |run| ==> NoSuccessor(cmp, Snapshot(cmp, run, s), run[c].UserKey())
  {
    var m := Snapshot(cmp, run, s);
    if at < |run| {
      LiveInSnapshot(cmp, run, s, at);
      LiveKeysAscend(cmp, run, s, c, at);
    }
    forall k | k in m && cmp(run[c].UserKey(), k) < 0 ensures at < |run| && cmp(run[at].UserKey(), k) <= 0 {
      var i := SnapshotKeyLives(cmp, run, s, k);
      LiveKeysAscend(cmp, run, s, c, i);
      LiveKeysAscend(cmp, run, s, at, i);
    }
  }

  lemma LastLiveIsPredecessor(cmp: Comparator, run: Run, s: SequenceNumber, c: int, at: int)
    requires TotalOrder(cmp) && Sorted(cmp, run) && Live(run, s, c) && LastLive(run, s, c - 1, at)
    ensures at >= 0 ==> Predecessor(cmp, Snapshot(cmp, run, s), run[c].UserKey(), run[at].UserKey())
    ensures at == -1 ==> NoPredecessor(cmp, Snapshot(cmp, run, s), run[c].UserKey())
  {
    var m := Snapshot(cmp, run, s);
    if at >= 0 {
      LiveInSnapshot(cmp, run, s, at);
      LiveKeysAscend(cmp, run, s, at, c);
    }
    forall k | k in m && cmp(k, run[c].UserKey()) < 0 ensures at >= 0 && cmp(k, run[at].UserKey()) <= 0 {
      var i := SnapshotKeyLives(cmp, run, s, k);
      LiveKeysAscend(cmp, run, s, i, c);
      LiveKeysAscend(cmp, run, s, i, at);
    }
  }

  // ---------- The internal iterator ----------

  /** A cursor over the run; -1 and |run| are the two invalid positions. */
  lemma EncodedLength(key: ParsedInternalKey)
    ensures |AppendInternalKey([], key)| >= 8
  {
  }

  class InternalIterator {
    const run: Run
    var pos: int

    constructor (run: Run)
      ensures this.run == run && InRange() && !Valid()
    {
      this.run := run;
      pos := -1;
    }

    ghost predicate InRange()
      reads this
    {
      -1 <= pos <= |run|
    }

    predicate Valid()
      reads this
    {
      0 <= pos < |run|
    }

    method SeekToFirst()
      modifies this
      ensures pos == 0
    {
      pos := 0;
    }

    method SeekToLast()
      modifies this
      ensures pos == |run| - 1
    {
      pos := |run| - 1;
    }

    /** Moves to the first entry whose encoded key is at or after the target. */
    method Seek(cmp: Comparator, target: Bytes)
      requires |target| >= 8
      modifies this
      ensures 0 <= pos <= |run|
      ensures forall i :: 0 <= i < |run| ==> |AppendInternalKey([], run[i].key)| >= 8
      ensures forall i :: 0 <= i < pos ==> InternalCompare(cmp, AppendInternalKey([], run[i].key), target) < 0
      ensures pos < |run| ==> InternalCompare(cmp, AppendInternalKey([], run[pos].key), target) >= 0
    {
      pos := 0;
      forall i | 0 <= i < |run| ensures |AppendInternalKey([], run[i].key)| >= 8 {
        EncodedLength(run[i].key);
      }
      hide AppendInternalKey, InternalCompare;
      while pos < |run| && InternalCompare(cmp, AppendInternalKey([], run[pos].key), target) < 0
        invariant 0 <= pos <= |run|
        invariant forall i :: 0 <= i < pos ==> InternalCompare(cmp, AppendInternalKey([], run[i].key), target) < 0
      {
        pos := pos + 1;
      }
    }

    method Next()
      requires Valid()
      modifies this
      ensures pos == old(pos) + 1
    {
      pos := pos + 1;
    }

    method Prev()
      requires Valid()
      modifies this
      ensures pos == old(pos) - 1
    {
      pos := pos - 1;
    }
  }

  datatype Direction = Forward | Reverse

  // ---------- The forward scan ----------

  /** Entry i is hidden by what the forward scan has to skip. */
  ghost predicate Skipped(cmp: Comparator, run: Run, skipping: bool, skip: Bytes, i: int)
    requires 0 <= i < |run|
  {
    skipping && cmp(run[i].UserKey(), skip) <= 0
  }

  /** Invariant of the scan for the first live entry at or after `from`, with the
      internal position at p: nothing live was passed; before `from` only the
      entry being left is visible; what is still skipped is not live; and what is
      not skipped has no visible entry of its key behind p. */
  ghost predicate ScanState(cmp: Comparator, run: Run, s: SequenceNumber, from: int,
                            p: int, skipping: bool, skip: Bytes) {
    && 0 <= p <= |run| && 0 <= from <= |run|
    && (forall i :: from <= i < p ==> !Live(run, s, i))
    && (forall i | p <= i < from :: Visible(run, s, i) ==>
          i == from - 1 && run[i].key.kind.TypeValue? && Skipped(cmp, run, skipping, skip, i))
    && (forall i | p <= i < |run| && from <= i :: Skipped(cmp, run, skipping, skip, i) ==> !Live(run, s, i))
    && (forall i, j | 0 <= j < p <= i < |run| && run[j].UserKey() == run[i].UserKey() ::
          Skipped(cmp, run, skipping, skip, i) || !Visible(run, s, j))
  }

  /** An invisible entry, or a visible one that is skipped, can be passed. */
  lemma ScanPastHidden(cmp: Comparator, run: Run, s: SequenceNumber, from: int, p: int, skipping: bool, skip: Bytes)
    requires TotalOrder(cmp) && Sorted(cmp, run)
    requires ScanState(cmp, run, s, from, p, skipping, skip) && p < |run|
    requires !Visible(run, s, p) || Skipped(cmp, run, skipping, skip, p)
    ensures ScanState(cmp, run, s, from, p + 1, skipping, skip)
  {
    forall i | p < i < |run| ensures cmp(run[p].UserKey(), run[i].UserKey()) == 0 <==> run[p].UserKey() == run[i].UserKey() {
      KeysAscend(cmp, run, p, i);
    }
  }

  /** Passing a visible deletion hides the rest of its key. */
  lemma ScanPastDeletion(cmp: Comparator, run: Run, s: SequenceNumber, from: int, p: int, skipping: bool, skip: Bytes)
    requires TotalOrder(cmp) && Sorted(cmp, run)
    requires ScanState(cmp, run, s, from, p, skipping, skip) && p < |run|
    requires Visible(run, s, p) && run[p].key.kind.TypeDeletion?
    ensures ScanState(cmp, run, s, from, p + 1, true, run[p].UserKey())
  {
    forall i | p < i < |run|
      ensures cmp(run[p].UserKey(), run[i].UserKey()) <= 0
      ensures cmp(run[i].UserKey(), run[p].UserKey()) <= 0 ==> run[i].UserKey() == run[p].UserKey()
    {
      KeysAscend(cmp, run, p, i);
      Laws(cmp, run[i].UserKey(), run[p].UserKey(), run[i].UserKey());
    }
    forall j, i | 0 <= j < p <= i < |run| && run[j].UserKey() == run[i].UserKey()
      ensures run[p].UserKey() == run[i].UserKey()
    {
      KeysAscend(cmp, run, j, p);
      KeysAscend(cmp, run, p, i);
      Laws(cmp, run[i].UserKey(), run[p].UserKey(), run[i].UserKey());
    }
    Laws(cmp, run[p].UserKey(), run[p].UserKey(), run[p].UserKey());
  }

  /** A visible value that is not skipped is the answer. */
  lemma ScanFound(cmp: Comparator, run: Run, s: SequenceNumber, from: int, p: int, skipping: bool, skip: Bytes)
    requires ScanState(cmp, run, s, from, p, skipping, skip) && p < |run|
    requires Visible(run, s, p) && run[p].key.kind.TypeValue? && !Skipped(cmp, run, skipping, skip, p)
    ensures Live(run, s, p) && from <= p
  {
  }

  /** After the internal seek to (target, s), the scan may start: everything
      before is below the target or invisible, everything from there is not below. */
  lemma SeekSplits(cmp: Comparator, run: Run, s: SequenceNumber, target: Bytes, p: int)
    requires TotalOrder(cmp) && Sorted(cmp, run) && 0 <= p <= |run|
    requires var lookup := AppendInternalKey([], ParsedInternalKey(target, s, VALUE_TYPE_FOR_SEEK));
             && |lookup| >= 8
             && (forall i :: 0 <= i < |run| ==> |AppendInternalKey([], run[i].key)| >= 8)
             && (forall i :: 0 <= i < p ==> InternalCompare(cmp, AppendInternalKey([], run[i].key), lookup) < 0)
             && (p < |run| ==> InternalCompare(cmp, AppendInternalKey([], run[p].key), lookup) >= 0)
    ensures forall i :: 0 <= i < p ==> cmp(run[i].UserKey(), target) < 0 || !Visible(run, s, i)
    ensures forall i :: p <= i < |run| ==> cmp(run[i].UserKey(), target) >= 0
    ensures forall skip :: ScanState(cmp, run, s, p, p, false, skip)
  {
    var lookup := ParsedInternalKey(target, s, VALUE_TYPE_FOR_SEEK);
    forall i | 0 <= i < p ensures cmp(run[i].UserKey(), target) < 0 || !Visible(run, s, i) {
      CompareDecidesBefore(cmp, run[i].key, lookup);
    }
    forall i | p <= i < |run| ensures cmp(run[i].UserKey(), target) >= 0 {
      CompareDecidesBefore(cmp, run[p].key, lookup);
      KeysAscend(cmp, run, p, i);
      Laws(cmp, target, run[p].UserKey(), run[i].UserKey());
      Laws(cmp, target, run[i].UserKey(), target);
    }
    forall j, i | 0 <= j < p <= i < |run| && run[j].UserKey() == run[i].UserKey() ensures !Visible(run, s, j) {
      assert cmp(run[i].UserKey(), target) >= 0;
    }
  }

  /** Leaving live entry c forwards: the scan may start at c itself, or anywhere
      before it from where only invisible entries lead up to it. */
  lemma ScanAfter(cmp: Comparator, run: Run, s: SequenceNumber, c: int, p: int, skip: Bytes)
    requires TotalOrder(cmp) && Sorted(cmp, run)
    requires Live(run, s, c) && 0 <= p <= c && skip == run[c].UserKey()
    requires forall i :: p <= i < c ==> !Visible(run, s, i)
    ensures ScanState(cmp, run, s, c + 1, p, true, skip)
  {
    forall j | 0 <= j <= c ensures cmp(run[j].UserKey(), skip) <= 0 {
      KeysAscend(cmp, run, j, c);
    }
    forall i | c < i < |run| && cmp(run[i].UserKey(), skip) <= 0 ensures !Live(run, s, i) {
      KeysAscend(cmp, run, c, i);
      Laws(cmp, run[i].UserKey(), skip, run[i].UserKey());
    }
  }

  // ---------- The backward scan ----------

  /** Invariant of the scan for the last live entry at or before `top`, with the
      internal position at p. If the last visible entry met is a value, it is v:
      a candidate with nothing visible between p and it. */
  ghost predicate BackState(run: Run, s: SequenceNumber, top: int, p: int, kind: ValueType, v: int) {
    && -1 <= p <= top < |run|
    && (kind.TypeDeletion? ==> forall i :: p < i <= top ==> !Live(run, s, i))
    && (kind.TypeValue? ==>
          && p < v <= top && Visible(run, s, v) && run[v].key.kind.TypeValue?
          && (forall i :: p < i < v ==> !Visible(run, s, i))
          && (forall i :: v < i <= top ==> !Live(run, s, i)))
  }

  /** A visible entry of the candidate's key, or any visible entry when there is
      no candidate, decides the new candidate. */
  lemma BackPastVisible(cmp: Comparator, run: Run, s: SequenceNumber, top: int, p: int, kind: ValueType, v: int)
    requires TotalOrder(cmp) && Sorted(cmp, run)
    requires BackState(run, s, top, p, kind, v) && 0 <= p && Visible(run, s, p)
    requires kind.TypeValue? ==> cmp(run[p].UserKey(), run[v].UserKey()) >= 0
    ensures BackState(run, s, top, p - 1, run[p].key.kind, p)
  {
    if kind.TypeValue? {
      KeysAscend(cmp, run, p, v);
    }
  }

  /** A candidate is live once a visible smaller key, or the start, is reached. */
  lemma BackFound(cmp: Comparator, run: Run, s: SequenceNumber, top: int, p: int, v: int)
    requires TotalOrder(cmp) && Sorted(cmp, run)
    requires BackState(run, s, top, p, TypeValue, v)
    requires 0 <= p ==> cmp(run[p].UserKey(), run[v].UserKey()) < 0
    ensures Live(run, s, v)
  {
    forall j | 0 <= j <= p ensures run[j].UserKey() != run[v].UserKey() {
      KeysAscend(cmp, run, j, p);
      Laws(cmp, run[j].UserKey(), run[p].UserKey(), run[v].UserKey());
      Laws(cmp, run[j].UserKey(), run[v].UserKey(), run[v].UserKey());
    }
  }

  // ---------- DBIter ----------

  class DBIter {
    const cmp: Comparator
    const iter: InternalIterator
    const sequence: SequenceNumber
    var savedKey: Bytes
    var savedValue: Bytes
    var direction: Direction
    var valid: bool
    ghost var cur: int  // run position of the current entry, while valid

    constructor (cmp: Comparator, iter: InternalIterator, s: SequenceNumber)
      requires TotalOrder(cmp) && Sorted(cmp, iter.run) && iter.InRange()
      ensures this.cmp == cmp && this.iter == iter && sequence == s
      ensures Consistent() && !valid
    {
      this.cmp, this.iter, sequence := cmp, iter, s;
      direction, valid, savedKey, savedValue := Forward, false, [], [];
    }

    /** The class invariant. Moving backwards, the internal position lies before
        the current entry with nothing visible in between. */
    ghost predicate Consistent()
      reads this, iter
    {
      && TotalOrder(cmp) && Sorted(cmp, iter.run) && iter.InRange()
      && (valid ==> Live(iter.run, sequence, cur))
      && (valid && direction.Forward? ==> iter.pos == cur)
      && (valid && direction.Reverse? ==>
            && -1 <= iter.pos < cur
            && savedKey == iter.run[cur].UserKey()
            && savedValue == iter.run[cur].value
            && forall j :: iter.pos < j < cur ==> !Visible(iter.run, sequence, j))
    }

    ghost function View(): map<Bytes, Bytes>
      requires TotalOrder(cmp) && Sorted(cmp, iter.run)
      reads this, iter
    {
      Snapshot(cmp, iter.run, sequence)
    }

    function Key(): (k: Bytes)
      requires Consistent() && valid
      reads this, iter
      ensures k == iter.run[cur].UserKey()
      ensures k in View()
    {
      LiveInSnapshot(cmp, iter.run, sequence, cur);
      if direction.Forward? then iter.run[iter.pos].UserKey() else savedKey
    }

    function Value(): (v: Bytes)
      requires Consistent() && valid
      reads this, iter
      ensures v == View()[Key()]
    {
      LiveInSnapshot(cmp, iter.run, sequence, cur);
      if direction.Forward? then iter.run[iter.pos].value else savedValue
    }

    /** Looks for the first live entry at or after `from`, starting at the
        internal position. While skipping, entries up to savedKey are hidden. */
    method FindNextUserEntry(skipping: bool, ghost from: int)
      requires TotalOrder(cmp) && Sorted(cmp, iter.run)
      requires iter.Valid() && direction.Forward?
      requires ScanState(cmp, iter.run, sequence, from, iter.pos, skipping, savedKey)
      modifies this, iter
      ensures direction.Forward? && Consistent()
      ensures FirstLive(iter.run, sequence, from, if valid then cur else |iter.run|)
    {
      var skipping := skipping;
      while true
        invariant iter.Valid() && direction.Forward?
        invariant ScanState(cmp, iter.run, sequence, from, iter.pos, skipping, savedKey)
        decreases |iter.run| - iter.pos
      {
        var e := iter.run[iter.pos];
        if e.key.sequence <= sequence {
          match e.key.kind {
            case TypeDeletion =>
              ScanPastDeletion(cmp, iter.run, sequence, from, iter.pos, skipping, savedKey);
              savedKey := e.UserKey();
              skipping := true;
            case TypeValue =>
              if skipping && cmp(e.UserKey(), savedKey) <= 0 {
                ScanPastHidden(cmp, iter.run, sequence, from, iter.pos, skipping, savedKey);
              } else {
                ScanFound(cmp, iter.run, sequence, from, iter.pos, skipping, savedKey);
                valid := true;
                savedKey := [];
                cur := iter.pos;
                return;
              }
          }
        } else {
          ScanPastHidden(cmp, iter.run, sequence, from, iter.pos, skipping, savedKey);
        }
        iter.Next();
        if !iter.Valid() {
          break;
        }
      }
      savedKey := [];
      valid := false;
    }

    /** Looks for the last live entry at or before the internal position. */
    method FindPrevUserEntry()
      requires TotalOrder(cmp) && Sorted(cmp, iter.run)
      requires -1 <= iter.pos < |iter.run| && direction.Reverse?
      modifies this, iter
      ensures Consistent()
      ensures valid ==> direction.Reverse?
      ensures LastLive(iter.run, sequence, old(iter.pos), if valid then cur else -1)
    {
      var valueType := TypeDeletion;
      ghost var top := iter.pos;
      ghost var v := 0;
      while iter.Valid()
        invariant BackState(iter.run, sequence, top, iter.pos, valueType, v)
        invariant valueType.TypeValue? ==> savedKey == iter.run[v].UserKey() && savedValue == iter.run[v].value
        invariant direction.Reverse?
        decreases iter.pos
      {
        var e := iter.run[iter.pos];
        if e.key.sequence <= sequence {
          if valueType != TypeDeletion && cmp(e.UserKey(), savedKey) < 0 {
            // A value of a later key is settled.
            break;
          }
          BackPastVisible(cmp, iter.run, sequence, top, iter.pos, valueType, v);
          valueType := e.key.kind;
          v := iter.pos;
          if valueType == TypeDeletion {
            savedKey := [];
            savedValue := [];
          } else {
            savedKey := e.UserKey();
            savedValue := e.value;
          }
        }
        iter.Prev();
      }
      if valueType == TypeDeletion {
        valid := false;
        savedKey := [];
        savedValue := [];
        direction := Forward;
      } else {
        BackFound(cmp, iter.run, sequence, top, iter.pos, v);
        valid := true;
        cur := v;
      }
    }

    method SeekToFirst()
      requires Consistent()
      modifies this, iter
      ensures Consistent()
      ensures valid ==> Minimum(cmp, View(), Key())
      ensures !valid ==> View() == map[]
    {
      direction := Forward;
      savedValue := [];
      iter.SeekToFirst();
      if iter.Valid() {
        FindNextUserEntry(false, 0);
      } else {
        valid := false;
      }
      FirstLiveIsMinimum(cmp, iter.run, sequence, if valid then cur else |iter.run|);
    }

    method SeekToLast()
      requires Consistent()
      modifies this, iter
      ensures Consistent()
      ensures valid ==> Maximum(cmp, View(), Key())
      ensures !valid ==> View() == map[]
    {
      direction := Reverse;
      savedValue := [];
      iter.SeekToLast();
      FindPrevUserEntry();
      LastLiveIsMaximum(cmp, iter.run, sequence, if valid then cur else -1);
    }

    /** Lands on the least visible key at or above the target. */
    method Seek(target: Bytes)
      requires Consistent()
      modifies this, iter
      ensures Consistent()
      ensures valid ==> FirstFrom(cmp, View(), target, Key())
      ensures !valid ==> NoneFrom(cmp, View(), target)
    {
      direction := Forward;
      savedValue := [];
      var lookup := ParsedInternalKey(target, sequence, VALUE_TYPE_FOR_SEEK);
      savedKey := AppendInternalKey([], lookup);
      EncodedParts(lookup);
      iter.Seek(cmp, savedKey);
      ghost var p := iter.pos;
      SeekSplits(cmp, iter.run, sequence, target, p);
      if iter.Valid() {
        FindNextUserEntry(false, p);
      } else {
        valid := false;
      }
      FirstLiveIsFirstFrom(cmp, iter.run, sequence, target, p, if valid then cur else |iter.run|);
    }

    method Next()
      requires Consistent() && valid
      modifies this, iter
      ensures Consistent()
      ensures valid ==> Successor(cmp, View(), old(Key()), Key())
      ensures !valid ==> NoSuccessor(cmp, View(), old(Key()))
    {
      ghost var c := cur;
      if direction == Reverse {
        direction := Forward;
        if !iter.Valid() {
          iter.SeekToFirst();
        } else {
          iter.Next();
        }
        // The source leaves here if the internal iterator ran off the end; it
        // cannot, because the current entry lies ahead.
        assert iter.Valid();
      } else {
        savedKey := iter.run[iter.pos].UserKey();
      }
      ScanAfter(cmp, iter.run, sequence, c, iter.pos, savedKey);
      FindNextUserEntry(true, c + 1);
      FirstLiveIsSuccessor(cmp, iter.run, sequence, c, if valid then cur else |iter.run|);
    }

    method Prev()
      requires Consistent() && valid
      modifies this, iter
      ensures Consistent()
      ensures valid ==> Predecessor(cmp, View(), old(Key()), Key())
      ensures !valid ==> NoPredecessor(cmp, View(), old(Key()))
    {
      ghost var c := cur;
      if direction == Forward {
        savedKey := iter.run[iter.pos].UserKey();
        while true
          invariant 0 <= iter.pos <= c && direction.Forward? && savedKey == iter.run[c].UserKey()
          invariant forall i :: iter.pos <= i < c ==> !Live(iter.run, sequence, i)
          decreases iter.pos
        {
          iter.Prev();
          if !iter.Valid() {
            valid := false;
            savedKey := [];
            savedValue := [];
            LastLiveIsPredecessor(cmp, iter.run, sequence, c, -1);
            return;
          }
          if cmp(iter.run[iter.pos].UserKey(), savedKey) < 0 {
            break;
          }
          KeysAscend(cmp, iter.run, iter.pos, c);
        }
        direction := Reverse;
      }
      FindPrevUserEntry();
      LastLiveIsPredecessor(cmp, iter.run, sequence, c, if valid then cur else -1);
    }
  }

  // ---------- Whole scans ----------

  ghost predicate Ascending(cmp: Comparator, keys: seq<Bytes>) {
    forall i, j :: 0 <= i < j < |keys| ==> cmp(keys[i], keys[j]) < 0
  }

  ghost function Listed(keys: seq<Bytes>): set<Bytes> {
    set k | k in keys
  }

  /** keys and values list, in key order, what m holds below the bound (or above
      it, going backwards); without a bound, all of m. */
  ghost predicate Lists(cmp: Comparator, m: map<Bytes, Bytes>, keys: seq<Bytes>, values: seq<Bytes>,
                        forward: bool, bound: Option<Bytes>) {
    && Ascending(cmp, keys) && |values| == |keys|
    && (forall i :: 0 <= i < |keys| ==> keys[i] in m && m[keys[i]] == values[i])
    && (forall k :: k in keys <==>
          k in m && (bound.None? || (if forward then cmp(k, bound.value) < 0 else cmp(bound.value, k) < 0)))
  }

  lemma NewlyListed(m: map<Bytes, Bytes>, keys: seq<Bytes>, keys': seq<Bytes>, k: Bytes)
    requires k in m && k !in keys && forall x :: x in keys' <==> x == k || x in keys
    ensures m.Keys - Listed(keys') < m.Keys - Listed(keys)
  {
    assert k in m.Keys - Listed(keys) && k !in m.Keys - Listed(keys');
  }

  /** Which keys are listed once k is. */
  lemma ListedForward(cmp: Comparator, m: map<Bytes, Bytes>, keys: seq<Bytes>, values: seq<Bytes>,
                      k: Bytes, next: Option<Bytes>, k': Bytes)
    requires TotalOrder(cmp) && k in m && Lists(cmp, m, keys, values, true, Some(k))
    requires if next.Some? then Successor(cmp, m, k, next.value) else NoSuccessor(cmp, m, k)
    ensures k' in keys + [k] <==> k' in m && (next.None? || cmp(k', next.value) < 0)
  {
    hide TotalOrder;
    Laws(cmp, k', k, k');
    Laws(cmp, k, k', k);
    if next.Some? {
      Laws(cmp, k', k, next.value);
      Laws(cmp, k', next.value, k');
      Laws(cmp, next.value, k', next.value);
    }
  }

  lemma ListForward(cmp: Comparator, m: map<Bytes, Bytes>, keys: seq<Bytes>, values: seq<Bytes>,
                    k: Bytes, next: Option<Bytes>)
    requires TotalOrder(cmp) && k in m && Lists(cmp, m, keys, values, true, Some(k))
    requires if next.Some? then Successor(cmp, m, k, next.value) else NoSuccessor(cmp, m, k)
    ensures Lists(cmp, m, keys + [k], values + [m[k]], true, next)
    ensures m.Keys - Listed(keys + [k]) < m.Keys - Listed(keys)
  {
    Laws(cmp, k, k, k);
    forall i | 0 <= i < |keys| ensures cmp(keys[i], k) < 0 {
      assert keys[i] in keys;
    }
    hide TotalOrder, Successor, NoSuccessor;
    forall k' ensures k' in keys + [k] <==> k' in m && (next.None? || cmp(k', next.value) < 0) {
      ListedForward(cmp, m, keys, values, k, next, k');
    }
    NewlyListed(m, keys, keys + [k], k);
  }

  lemma ListedBackward(cmp: Comparator, m: map<Bytes, Bytes>, keys: seq<Bytes>, values: seq<Bytes>,
                       k: Bytes, prev: Option<Bytes>, k': Bytes)
    requires TotalOrder(cmp) && k in m && Lists(cmp, m, keys, values, false, Some(k))
    requires if prev.Some? then Predecessor(cmp, m, k, prev.value) else NoPredecessor(cmp, m, k)
    ensures k' in [k] + keys <==> k' in m && (prev.None? || cmp(prev.value, k') < 0)
  {
    hide TotalOrder;
    Laws(cmp, k', k, k');
    Laws(cmp, k, k', k);
    if prev.Some? {
      Laws(cmp, prev.value, k, k');
      Laws(cmp, k', prev.value, k');
      Laws(cmp, prev.value, k', prev.value);
    }
  }

  lemma ListBackward(cmp: Comparator, m: map<Bytes, Bytes>, keys: seq<Bytes>, values: seq<Bytes>,
                     k: Bytes, prev: Option<Bytes>)
    requires TotalOrder(cmp) && k in m && Lists(cmp, m, keys, values, false, Some(k))
    requires if prev.Some? then Predecessor(cmp, m, k, prev.value) else NoPredecessor(cmp, m, k)
    ensures Lists(cmp, m, [k] + keys, [m[k]] + values, false, prev)
    ensures m.Keys - Listed([k] + keys) < m.Keys - Listed(keys)
  {
    Laws(cmp, k, k, k);
    forall i | 0 <= i < |keys| ensures cmp(k, keys[i]) < 0 {
      assert keys[i] in keys;
    }
    hide TotalOrder, Predecessor, NoPredecessor;
    forall k' ensures k' in [k] + keys <==> k' in m && (prev.None? || cmp(prev.value, k') < 0) {
      ListedBackward(cmp, m, keys, values, k, prev, k');
    }
    NewlyListed(m, keys, [k] + keys, k);
  }

  /** A step forward and a step back cancel, in either order. */
  lemma StepsCancel(cmp: Comparator, m: map<Bytes, Bytes>, k: Bytes, next: Bytes, back: Bytes)
    requires TotalOrder(cmp) && k in m
    ensures Successor(cmp, m, k, next) && Predecessor(cmp, m, next, back) ==> back == k
    ensures Predecessor(cmp, m, k, next) && Successor(cmp, m, next, back) ==> back == k
    ensures Successor(cmp, m, k, next) ==> !NoPredecessor(cmp, m, next)
    ensures Predecessor(cmp, m, k, next) ==> !NoSuccessor(cmp, m, next)
  {
    Laws(cmp, k, back, k);
    Laws(cmp, back, k, back);
    Laws(cmp, next, back, next);
    Laws(cmp, back, next, back);
    Laws(cmp, next, k, next);
    Laws(cmp, k, next, k);
  }

  ghost function Position(it: DBIter): Option<Bytes>
    requires it.Consistent()
    reads it, it.iter
  {
    if it.valid then Some(it.Key()) else None
  }

  /** The idiomatic scan: everything the snapshot shows, once, in key order. */
  method ScanForward(it: DBIter) returns (keys: seq<Bytes>, values: seq<Bytes>)
    requires it.Consistent()
    modifies it, it.iter
    ensures it.Consistent() && !it.valid
    ensures Lists(it.cmp, it.View(), keys, values, true, None)
  {
    keys, values := [], [];
    it.SeekToFirst();
    ghost var m := it.View();
    ListStart(it.cmp, m, Position(it));
    while it.valid
      invariant it.Consistent() && it.View() == m
      invariant Lists(it.cmp, m, keys, values, true, Position(it))
      decreases m.Keys - Listed(keys)
    {
      var k, v := it.Key(), it.Value();
      it.Next();
      ListForward(it.cmp, m, keys, values, k, Position(it));
      keys, values := keys + [k], values + [v];
    }
  }

  /** The same scan from the far end, in reverse key order. */
  method ScanBackward(it: DBIter) returns (keys: seq<Bytes>, values: seq<Bytes>)
    requires it.Consistent()
    modifies it, it.iter
    ensures it.Consistent() && !it.valid
    ensures Lists(it.cmp, it.View(), keys, values, false, None)
  {
    keys, values := [], [];
    it.SeekToLast();
    ghost var m := it.View();
    ListStart(it.cmp, m, Position(it));
    while it.valid
      invariant it.Consistent() && it.View() == m
      invariant Lists(it.cmp, m, keys, values, false, Position(it))
      decreases m.Keys - Listed(keys)
    {
      var k, v := it.Key(), it.Value();
      it.Prev();
      ListBackward(it.cmp, m, keys, values, k, Position(it));
      keys, values := [k] + keys, [v] + values;
    }
  }

  lemma ListStart(cmp: Comparator, m: map<Bytes, Bytes>, k: Option<Bytes>)
    requires TotalOrder(cmp)
    ensures (if k.Some? then Minimum(cmp, m, k.value) else m == map[]) ==> Lists(cmp, m, [], [], true, k)
    ensures (if k.Some? then Maximum(cmp, m, k.value) else m == map[]) ==> Lists(cmp, m, [], [], false, k)
  {
    if k.Some? {
      forall k' ensures cmp(k.value, k') < 0 <==> cmp(k', k.value) > 0
        ensures cmp(k', k.value) < 0 <==> cmp(k.value, k') > 0
      {
        Laws(cmp, k.value, k', k.value);
        Laws(cmp, k', k.value, k');
      }
    }
  }
}
