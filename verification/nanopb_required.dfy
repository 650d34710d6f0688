/** The required-field check: with at most 64 required fields it passes exactly if the
    tag of each of them was on the wire, in whatever order. */
module NanopbRequired {
  import opened Wrappers
  import opened LittleEndian
  import opened NanopbWire
  import opened NanopbMessage
  import opened NanopbReading
  import Iter = NanopbIter

  /** The fields whose tags the loop comes by, repetitions included. */
  ghost function Tags(s: Schema, st: State, b: Bytes): (tags: seq<nat>)
    requires |st.slots| == |s.fields|
    ensures forall k :: 0 <= k < |tags| ==> tags[k] < |s.fields|
    decreases |b|
  {
    if b == [] || !ReadTag(b).IsTag? then []
    else
      var r := ReadTag(b);
      match FindFrom(s, r.number, 0)
      case None =>
        (match (if s.fields == [] && r.number == 0 then SkipTerminator(r.rest) else Skip(r.wireType, r.rest))
         case None => []
         case Some(rest) => Tags(s, st, rest))
      case Some(i) =>
        match Turn(s, st, i)
        case None => []
        case Some(st') =>
          match ReadField(s, st'.slots, i, r.wireType, r.rest)
          case NoStep => []
          case Step(slots, rest) => [i] + Tags(s, st'.(slots := slots), rest)
  }

  /** The required fields among them, by their index, as far as the bitmap goes. */
  ghost predicate Noted(s: Schema, tags: seq<nat>, r: nat)
    requires forall k :: 0 <= k < |tags| ==> tags[k] < |s.fields|
  {
    r < Iter.MAX_REQUIRED
    && exists k :: 0 <= k < |tags| && s.fields[tags[k]].rule.Required? && RequiredIndex(s, tags[k]) == r
  }

  lemma NotedCons(s: Schema, i: nat, tags: seq<nat>, r: nat)
    requires i < |s.fields| && forall k :: 0 <= k < |tags| ==> tags[k] < |s.fields|
    ensures Noted(s, [i] + tags, r) <==>
              Noted(s, tags, r) || (r < Iter.MAX_REQUIRED && s.fields[i].rule.Required? && RequiredIndex(s, i) == r)
  {
    hide RequiredIndex;
    var all := [i] + tags;
    assert all[0] == i && forall k :: 0 <= k < |tags| ==> all[k + 1] == tags[k];
  }

  lemma TurnNotes(s: Schema, st: State, i: nat, r: nat)
    requires |st.slots| == |s.fields| && i < |s.fields| && Turn(s, st, i).Some?
    ensures r in Turn(s, st, i).value.seen <==>
              r in st.seen || (r < Iter.MAX_REQUIRED && s.fields[i].rule.Required? && RequiredIndex(s, i) == r)
  {
  }

  /** What the loop has seen is what was on the wire. */
  lemma {:induction false} SeenAreNoted(s: Schema, st: State, b: Bytes, r: nat)
    requires |st.slots| == |s.fields| && ReadFields(s, st, b).Loop?
    ensures r in ReadFields(s, st, b).st.seen <==> r in st.seen || Noted(s, Tags(s, st, b), r)
    decreases |b|
  {
    hide ReadField, Turn, Skip, SkipTerminator, FindFrom, ReadTag, Noted, RequiredIndex;
    NothingNoted(s, r);
    if b != [] && ReadTag(b).IsTag? {
      var t := ReadTag(b);
      var found := FindFrom(s, t.number, 0);
      if found == None {
        var rest := if s.fields == [] && t.number == 0 then SkipTerminator(t.rest) else Skip(t.wireType, t.rest);
        SeenAreNoted(s, st, rest.value, r);
      } else {
        var i := found.value;
        var st' := Turn(s, st, i).value;
        var step := ReadField(s, st'.slots, i, t.wireType, t.rest);
        TurnNotes(s, st, i, r);
        SeenAreNoted(s, st'.(slots := step.slots), step.rest, r);
        NotedCons(s, i, Tags(s, st'.(slots := step.slots), step.rest), r);
      }
    }
  }

  lemma NothingNoted(s: Schema, r: nat)
    ensures !Noted(s, [], r)
  {
  }

  /** The required field with a given index. */
  lemma {:induction false} FieldAt(s: Schema, n: nat, r: nat) returns (i: nat)
    requires n <= |s.fields| && r < RequiredIndex(s, n)
    ensures i < n && s.fields[i].rule.Required? && RequiredIndex(s, i) == r
  {
    assert RequiredIndex(s, n) == RequiredIndex(s, n - 1) + if s.fields[n - 1].rule.Required? then 1 else 0;
    if s.fields[n - 1].rule.Required? && RequiredIndex(s, n - 1) == r {
      i := n - 1;
    } else {
      i := FieldAt(s, n - 1, r);
    }
  }

  lemma {:induction false} IndexGrows(s: Schema, i: nat, n: nat)
    requires i < n <= |s.fields| && s.fields[i].rule.Required?
    ensures RequiredIndex(s, i) < RequiredIndex(s, n)
    decreases n
  {
    assert RequiredIndex(s, n) == RequiredIndex(s, n - 1) + if s.fields[n - 1].rule.Required? then 1 else 0;
    if i < n - 1 {
      IndexGrows(s, i, n - 1);
    }
  }

  lemma IndexIsUnique(s: Schema, i: nat, j: nat)
    requires i < |s.fields| && j < |s.fields| && s.fields[i].rule.Required? && s.fields[j].rule.Required?
    ensures RequiredIndex(s, i) == RequiredIndex(s, j) ==> i == j
  {
    if i < j {
      IndexGrows(s, i, j);
    } else if j < i {
      IndexGrows(s, j, i);
    }
  }

  /** Every required field's tag was on the wire. */
  ghost predicate AllOccurred(s: Schema, tags: seq<nat>) {
    forall i: nat :: i < |s.fields| && s.fields[i].rule.Required? ==> i in tags
  }

  lemma NotedIsOccurred(s: Schema, tags: seq<nat>, i: nat)
    requires (forall k :: 0 <= k < |tags| ==> tags[k] < |s.fields|) && i < |s.fields| && s.fields[i].rule.Required?
    requires RequiredIndex(s, i) < Iter.MAX_REQUIRED
    ensures Noted(s, tags, RequiredIndex(s, i)) <==> i in tags
  {
    hide RequiredIndex;
    if Noted(s, tags, RequiredIndex(s, i)) {
      var k :| 0 <= k < |tags| && s.fields[tags[k]].rule.Required? && RequiredIndex(s, tags[k]) == RequiredIndex(s, i);
      IndexIsUnique(s, tags[k], i);
    }
  }

  /** For at most 64 required fields, a message that decodes so far is accepted exactly
      if every required field occurred and the last fixed-count array is full. */
  lemma RequiredCheck(s: Schema, m: seq<Slot>, b: Bytes)
    requires |m| == |s.fields| && RequiredIndex(s, |s.fields|) <= Iter.MAX_REQUIRED
    requires ReadFields(s, State(m, None, {}), b).Loop?
    ensures var st := ReadFields(s, State(m, None, {}), b).st;
            ReadMessage(s, m, b).Some? <==> FixedDone(s, st) && AllOccurred(s, Tags(s, State(m, None, {}), b))
  {
    var st0 := State(m, None, {});
    var st, tags, n := ReadFields(s, st0, b).st, Tags(s, st0, b), RequiredIndex(s, |s.fields|);
    assert ReadMessage(s, m, b).Some? <==> Complete(s, st);
    hide ReadFields, Tags, RequiredIndex, Noted, FixedDone, ReadMessage;
    forall r: nat ensures r in st.seen <==> Noted(s, tags, r) {
      SeenAreNoted(s, st0, b, r);
    }
    if Complete(s, st) {
      forall i: nat | i < |s.fields| && s.fields[i].rule.Required? ensures i in tags {
        IndexGrows(s, i, |s.fields|);
        NotedIsOccurred(s, tags, i);
      }
    }
    if AllOccurred(s, tags) {
      forall r: nat | r < n ensures r in st.seen {
        var i := FieldAt(s, |s.fields|, r);
        NotedIsOccurred(s, tags, i);
      }
    }
  }
}
