/** uv__idna_toascii on what it is given, the bytes of a text. */
module HostName {
  import B = BitNumbers
  import U = Utf8
  import I = Idna
  import P = Punycode
  import opened Wrappers

  /** Code points as numbers. */
  function Points(cps: seq<bv32>): (points: seq<nat>)
    ensures |points| == |cps| && forall i :: 0 <= i < |cps| ==> points[i] == B.Number(cps[i])
  {
    seq(|cps|, i requires 0 <= i < |cps| => B.Number(cps[i]))
  }

  lemma SamePoints(a: seq<bv32>, b: seq<bv32>)
    requires Points(a) == Points(b)
    ensures a == b
  {
    hide B.Number;
    assert |a| == |Points(a)| == |Points(b)| == |b|;
    forall i | 0 <= i < |a| ensures a[i] == b[i] {
      assert Points(a)[i] == Points(b)[i];
      B.SameNumber(a[i], b[i]);
    }
  }

  /** What the decoder yields is what the encoder of labels counts on. */
  lemma {:induction false} DecodedPoints(s: seq<U.Byte>)
    ensures forall i :: 0 <= i < |U.Decode(s)| ==> U.Decode(s)[i] == U.MALFORMED || U.Scalar(U.Decode(s)[i])
    decreases |s|
  {
    hide U.Scalar, U.Decode1, U.Encode1;
    if s != [] && U.Decode1(s).Point? {
      DecodedPoints(s[U.Decode1(s).used..]);
      if U.Decode1(s).c != U.MALFORMED {
        U.CanonicalExactly(s);
      }
    }
  }

  lemma ScalarInRange(c: bv32)
    requires U.Scalar(c)
    ensures B.Number(c) <= I.MAX_CODE_POINT
  {
    B.InRange(c);
  }

  lemma PointsAreDecoded(s: seq<U.Byte>)
    ensures I.Decoded(Points(U.Decode(s)))
    ensures I.INVALID in Points(U.Decode(s)) <==> U.MALFORMED in U.Decode(s)
  {
    hide U.Decode, U.Scalar;
    DecodedPoints(s);
    var cps := U.Decode(s);
    forall i | 0 <= i < |cps|
      ensures Points(cps)[i] <= I.MAX_CODE_POINT || Points(cps)[i] == I.INVALID
      ensures cps[i] == U.MALFORMED <==> Points(cps)[i] == I.INVALID
    {
      B.AllOnes();
      if cps[i] != U.MALFORMED {
        ScalarInRange(cps[i]);
      }
    }
  }

  // ---------- Full stops ----------

  /** '.', the ideographic, the fullwidth and the halfwidth full stop. */
  predicate Stop(c: bv32) {
    c == 0x2E || c == 0x3002 || c == 0xFF0E || c == 0xFF61
  }

  lemma StopNumbers()
    ensures B.Number(0x2E) == 0x2E && B.Number(0x3002) == 0x3002
    ensures B.Number(0xFF0E) == 0xFF0E && B.Number(0xFF61) == 0xFF61
  {
  }

  lemma StopExactly(c: bv32)
    ensures I.IsSeparator(B.Number(c)) <==> Stop(c)
  {
    hide B.Number;
    StopNumbers();
    if B.Number(c) == 0x2E { B.SameNumber(c, 0x2E); }
    if B.Number(c) == 0x3002 { B.SameNumber(c, 0x3002); }
    if B.Number(c) == 0xFF0E { B.SameNumber(c, 0xFF0E); }
    if B.Number(c) == 0xFF61 { B.SameNumber(c, 0xFF61); }
  }

  function FirstStop(cps: seq<bv32>): (k: nat)
    ensures k <= |cps|
    ensures forall i :: 0 <= i < k ==> !Stop(cps[i])
    ensures k < |cps| ==> Stop(cps[k])
  {
    if cps == [] || Stop(cps[0]) then 0 else 1 + FirstStop(cps[1..])
  }

  /** The parts of a name between its full stops. */
  function Parts(cps: seq<bv32>): (parts: seq<seq<bv32>>)
    ensures parts != []
  {
    var k := FirstStop(cps);
    if k == |cps| then [cps] else [cps[..k]] + Parts(cps[k + 1..])
  }

  lemma FirstStops(cps: seq<bv32>)
    ensures I.FirstSeparator(Points(cps)) == FirstStop(cps)
  {
    hide I.IsSeparator, Stop, B.Number;
    var k := FirstStop(cps);
    forall i | 0 <= i < |cps| ensures I.IsSeparator(Points(cps)[i]) <==> Stop(cps[i]) {
      StopExactly(cps[i]);
    }
    I.FirstSeparatorIs(Points(cps), k);
  }

  /** The labels are the parts, as numbers. */
  lemma {:induction false} LabelsOfParts(cps: seq<bv32>)
    ensures |I.Labels(Points(cps))| == |Parts(cps)|
    ensures forall i :: 0 <= i < |Parts(cps)| ==> I.Labels(Points(cps))[i] == Points(Parts(cps)[i])
    decreases |cps|
  {
    hide *;
    var k := FirstStop(cps);
    FirstLabel(cps);
    FirstPart(cps);
    if k < |cps| {
      LabelsOfParts(cps[k + 1..]);
    }
  }

  lemma {:induction false} FirstPart(cps: seq<bv32>)
    ensures var k := FirstStop(cps);
            Parts(cps) == if k == |cps| then [cps] else [cps[..k]] + Parts(cps[k + 1..])
  {
    hide Stop, FirstStop;
  }

  lemma {:induction false} FirstLabel(cps: seq<bv32>)
    ensures var k := FirstStop(cps);
            I.Labels(Points(cps)) == if k == |cps| then [Points(cps)] else [Points(cps[..k])] + I.Labels(Points(cps[k + 1..]))
  {
    hide *;
    FirstStops(cps);
    var points, k := Points(cps), FirstStop(cps);
    I.LabelsStep(points, 0, k);
    assert points[0..] == points && points[0..k] == points[..k];
    PointsOfParts(cps, k);
  }

  lemma PointsOfParts(cps: seq<bv32>, k: nat)
    requires k <= |cps|
    ensures Points(cps)[..k] == Points(cps[..k]) && (k < |cps| ==> Points(cps)[k + 1..] == Points(cps[k + 1..]))
  {
    hide B.Number;
  }

  // ---------- The loop over the bytes ----------

  /** The code points of buf[..e] that the loop acts on. If the text ends in the middle of
      one, the code reads it from the bytes behind, and takes it for a full stop, or drops
      it if it is none. */
  ghost function Seen(buf: seq<U.Byte>, e: nat): seq<bv32>
    requires e <= |buf|
  {
    var cps := U.Decode(buf[..e]);
    var rest := buf[U.Start(buf[..e], |cps|)..];
    if U.Ends(buf[..e]) || rest == [] || U.Decode1(rest).Past? || !Stop(U.Decode1(rest).c) then cps
    else cps + [U.Decode1(rest).c]
  }

  /** Enough bytes behind the text for a code point that it ends in the middle of. */
  predicate Readable(buf: seq<U.Byte>, e: nat) {
    e <= |buf| && (U.Ends(buf[..e]) || e + 3 <= |buf|)
  }

  /** What is read at the start of code point i, or behind the last one. */
  lemma Advance(buf: seq<U.Byte>, e: nat, i: nat)
    requires Readable(buf, e) && i <= |U.Decode(buf[..e])| && U.Start(buf[..e], i) < e
    ensures var text := buf[..e];
            var cps, k := U.Decode(text), U.Start(text, i);
            var p := U.Decode1(buf[k..]);
            && p.Point?
            && if i < |cps| then
                 p.c == cps[i] && U.Start(text, i + 1) == k + p.used && |Seen(buf, e)| > i && Seen(buf, e)[i] == p.c
               else
                 k + p.used > e && Seen(buf, e) == if Stop(p.c) then cps + [p.c] else cps
  {
    hide U.Decode, U.Decode1, U.Ends, U.Start, Stop;
    var text := buf[..e];
    var k := U.Start(text, i);
    U.PointAt(text, i);
    assert buf[k..][..e - k] == text[k..];
    U.Decode1Longer(buf[k..], e - k);
  }

  /** At the end of the text. */
  lemma AtEnd(buf: seq<U.Byte>, e: nat, i: nat)
    requires e <= |buf| && i <= |U.Decode(buf[..e])| && U.Start(buf[..e], i) == e
    ensures i == |U.Decode(buf[..e])| && Seen(buf, e) == U.Decode(buf[..e])
  {
    hide U.Decode, U.Decode1, U.Ends, U.Start, Stop;
    U.PointAt(buf[..e], i);
  }

  lemma LabelBytes(buf: seq<U.Byte>, e: nat, a: nat, i: nat)
    requires e <= |buf| && a <= i <= |U.Decode(buf[..e])|
    ensures var s, st := U.Start(buf[..e], a), U.Start(buf[..e], i);
            s <= st <= e && Points(U.Decode(buf[s..st])) == Points(Seen(buf, e))[a..i]
  {
    hide U.Decode, U.Decode1, U.Ends, U.Start, Stop, B.Number;
    var text := buf[..e];
    U.DecodePart(text, a, i);
    assert text[U.Start(text, a)..U.Start(text, i)] == buf[U.Start(text, a)..U.Start(text, i)];
    assert U.Decode(text)[a..i] == Seen(buf, e)[a..i];
    assert Points(Seen(buf, e)[a..i]) == Points(Seen(buf, e))[a..i];
  }

  lemma LastLabelBytes(buf: seq<U.Byte>, e: nat, a: nat)
    requires e <= |buf| && a <= |U.Decode(buf[..e])| && Seen(buf, e) == U.Decode(buf[..e])
    ensures var s := U.Start(buf[..e], a);
            Points(U.Decode(buf[s..e])) == Points(Seen(buf, e))[a..]
  {
    hide U.Decode, U.Decode1, U.Ends, U.Start, Stop, B.Number, Seen;
    var text := buf[..e];
    U.DecodeRest(text, a);
    assert text[U.Start(text, a)..] == buf[U.Start(text, a)..e];
    assert Points(Seen(buf, e)[a..]) == Points(Seen(buf, e))[a..];
  }

  /** From the label that starts at a on, the rest of the name is still to be done. */
  ghost predicate Done(points: seq<nat>, a: nat, text: string) {
    && a <= |points|
    && I.FirstError(I.Labels(points)) == I.FirstError(I.Labels(points[a..]))
    && I.Join(I.Labels(points)) == text + I.Join(I.Labels(points[a..]))
  }

  lemma NothingDone(points: seq<nat>)
    ensures Done(points, 0, "")
  {
    hide I.FirstError, I.Labels, I.Join;
    assert points[0..] == points;
  }

  lemma LabelDone(points: seq<nat>, a: nat, at: nat, text: string)
    requires Done(points, a, text) && a <= at < |points| && I.IsSeparator(points[at])
    requires forall k :: a <= k < at ==> !I.IsSeparator(points[k])
    ensures var e := I.LabelError(points[a..at]);
            if e != 0 then I.FirstError(I.Labels(points)) == e
            else Done(points, at + 1, text + I.LabelText(points[a..at]) + ['.'])
  {
    hide *;
    DoneParts(points, a, text);
    I.HostStep(points, a, at);
    var x, rest := I.LabelText(points[a..at]), I.Join(I.Labels(points[at + 1..]));
    Regroup(text, x, rest);
    if I.LabelError(points[a..at]) == 0 {
      DoneFrom(points, at + 1, text + x + ['.']);
    }
  }

  lemma Regroup(a: string, b: string, c: string)
    ensures a + (b + "." + c) == a + b + ['.'] + c
  {
  }

  lemma DoneParts(points: seq<nat>, a: nat, text: string)
    requires Done(points, a, text)
    ensures a <= |points| && I.FirstError(I.Labels(points)) == I.FirstError(I.Labels(points[a..]))
    ensures I.Join(I.Labels(points)) == text + I.Join(I.Labels(points[a..]))
  {
  }

  lemma DoneFrom(points: seq<nat>, a: nat, text: string)
    requires a <= |points| && I.FirstError(I.Labels(points)) == I.FirstError(I.Labels(points[a..]))
    requires I.Join(I.Labels(points)) == text + I.Join(I.Labels(points[a..]))
    ensures Done(points, a, text)
  {
  }

  lemma AllDone(points: seq<nat>, a: nat, text: string)
    requires Done(points, a, text) && forall k :: a <= k < |points| ==> !I.IsSeparator(points[k])
    ensures I.FirstError(I.Labels(points)) == I.LabelError(points[a..])
    ensures I.Join(I.Labels(points)) == text + I.LabelText(points[a..])
    ensures a == |points| ==> I.LabelText(points[a..]) == "" && I.LabelError(points[a..]) == 0
  {
    hide *;
    DoneParts(points, a, text);
    I.HostEnd(points, a);
  }

  /** The label in buf[s..se], as numbers. */
  function Word(buf: seq<U.Byte>, s: nat, se: nat): seq<nat>
    requires s <= se <= |buf|
  {
    Points(U.Decode(buf[s..se]))
  }

  /** The code point that is read at si. */
  function PointAt(buf: seq<U.Byte>, si: nat): (p: U.Point)
    requires si < |buf|
    ensures p.Point? ==> 1 <= p.used
  {
    U.Decode1(buf[si..])
  }

  /** uv__idna_toascii_label on the bytes of a label. */
  method PutLabel(buf: seq<U.Byte>, s: nat, se: nat, out: I.Output) returns (rc: int)
    requires out.Valid() && s <= se <= |buf| && |Word(buf, s, se)| < P.LIMIT
    modifies out`d, out`text, out.buf
    ensures out.Valid()
    ensures forall i :: 0 <= i < out.buf.Length && !(out.start <= i < out.de) ==> out.buf[i] == old(out.buf[i])
    ensures I.LabelError(Word(buf, s, se)) == if rc < 0 then rc else 0
    ensures rc >= 0 ==> out.text == old(out.text) + I.LabelText(Word(buf, s, se))
  {
    hide U.Decode, I.LabelText, I.LabelError, I.Decoded;
    var word := U.ForEachCodepoint(buf[s..se]);
    PointsAreDecoded(buf[s..se]);
    rc := I.ToAsciiLabel(Points(word), out);
    I.LabelErrorIs(Points(word), rc);
  }

  /** In the loop: a label starts at byte s, which is code point a, and byte si, which is
      code point i, is next; there is no full stop from a up to i. */
  ghost predicate Places(buf: seq<U.Byte>, e: nat, s: nat, si: nat, a: nat, i: nat)
    requires e <= |buf|
  {
    var text := buf[..e];
    var cps, points := U.Decode(text), Points(Seen(buf, e));
    && a <= i <= |points|
    && (if a <= |cps| then s == U.Start(text, a) <= e else s > e)
    && (if si < e then i <= |cps| && si == U.Start(text, i) else i == |points|)
    && (i > |cps| ==> a == i)
    && forall k :: a <= k < i ==> !I.IsSeparator(points[k])
  }

  /** The code point after i, but for one behind the end that is dropped. */
  ghost function After(buf: seq<U.Byte>, e: nat, i: nat, c: bv32): nat
    requires e <= |buf|
  {
    if i < |U.Decode(buf[..e])| || Stop(c) then i + 1 else i
  }

  lemma FirstPlace(buf: seq<U.Byte>, e: nat)
    requires e <= |buf|
    ensures Places(buf, e, 0, 0, 0, 0)
  {
    U.NothingDecoded(buf[..e]);
    SeenLength(buf, e);
    hide U.Decode, U.Start, I.IsSeparator, Seen;
  }

  /** The place of the code point that is read, among those the loop acts on. */
  lemma SeenStep(buf: seq<U.Byte>, e: nat, i: nat)
    requires Readable(buf, e) && i <= |U.Decode(buf[..e])| && U.Start(buf[..e], i) < e
    ensures var p := U.Decode1(buf[U.Start(buf[..e], i)..]);
            var cps, points := U.Decode(buf[..e]), Points(Seen(buf, e));
            && p.Point?
            && (i < |cps| || Stop(p.c) ==> i < |points| && (I.IsSeparator(points[i]) <==> Stop(p.c)))
            && (i == |cps| ==> |points| == (if Stop(p.c) then i + 1 else i) && U.Start(buf[..e], i) + p.used > e)
            && (i < |cps| ==> U.Start(buf[..e], i + 1) == U.Start(buf[..e], i) + p.used)
  {
    Advance(buf, e, i);
    StopExactly(U.Decode1(buf[U.Start(buf[..e], i)..]).c);
    hide U.Decode, U.Decode1, U.Ends, U.Start, Stop, Seen, Readable, I.IsSeparator, B.Number;
  }

  lemma NextPlace(buf: seq<U.Byte>, e: nat, s: nat, si: nat, a: nat, i: nat)
    requires e <= |buf| && Readable(buf, e) && Places(buf, e, s, si, a, i) && si < e
    ensures var p := PointAt(buf, si);
            && p.Point?
            && var i' := After(buf, e, i, p.c);
            if Stop(p.c) then Places(buf, e, si + p.used, si + p.used, i', i') else Places(buf, e, s, si + p.used, a, i')
  {
    hide U.Decode, U.Decode1, U.Ends, U.Start, Stop, Seen, Readable, I.IsSeparator, Points;
    SeenStep(buf, e, i);
    SeenLength(buf, e);
    var p := PointAt(buf, si);
    if After(buf, e, i, p.c) <= |U.Decode(buf[..e])| && si + p.used == e {
      AtEnd(buf, e, After(buf, e, i, p.c));
    }
  }

  /** What is between the places when a full stop is read. */
  lemma LabelPlace(buf: seq<U.Byte>, e: nat, s: nat, si: nat, a: nat, i: nat)
    requires e <= |buf| && Readable(buf, e) && Places(buf, e, s, si, a, i) && si < e && PointAt(buf, si).Point? && Stop(PointAt(buf, si).c)
    ensures var points := Points(Seen(buf, e));
            && s <= si && a <= i < |points| && I.IsSeparator(points[i]) && After(buf, e, i, PointAt(buf, si).c) == i + 1
            && (forall k :: a <= k < i ==> !I.IsSeparator(points[k]))
            && Points(U.Decode(buf[s..si])) == points[a..i] && i <= |U.Decode(buf[..e])|
  {
    hide U.Decode, U.Decode1, U.Ends, U.Start, Stop, Seen, Readable, I.IsSeparator, Points;
    SeenStep(buf, e, i);
    LabelBytes(buf, e, a, i);
  }

  /** What is left when the loop ends. */
  lemma LastPlace(buf: seq<U.Byte>, e: nat, s: nat, si: nat, a: nat, i: nat)
    requires e <= |buf| && Places(buf, e, s, si, a, i) && si >= e
    ensures var points := Points(Seen(buf, e));
            && a <= |points| && (forall k :: a <= k < |points| ==> !I.IsSeparator(points[k]))
            && if s < e then Points(U.Decode(buf[s..e])) == points[a..] && a <= |U.Decode(buf[..e])| == |points| else a == |points|
  {
    hide U.Decode, U.Decode1, U.Ends, U.Start, Stop, Seen, I.IsSeparator, Points;
    SeenLength(buf, e);
    if a <= |U.Decode(buf[..e])| {
      if s == e {
        AtEnd(buf, e, a);
      } else {
        LastLabelBytes(buf, e, a);
      }
    }
  }

  lemma SeenLength(buf: seq<U.Byte>, e: nat)
    requires e <= |buf|
    ensures var cps, points := U.Decode(buf[..e]), Points(Seen(buf, e));
            && |cps| <= |points| <= |cps| + 1 && (e == 0 ==> cps == [] && points == [])
            && (|points| == |cps| ==> Seen(buf, e) == cps)
  {
    hide U.Decode1, U.Start, Stop;
  }

  lemma SameLength(a: seq<bv32>, points: seq<nat>)
    requires Points(a) == points
    ensures |a| == |points|
  {
  }

  /** The loop's invariant: where it is, and what is written. */
  ghost predicate Doing(buf: seq<U.Byte>, e: nat, s: nat, si: nat, a: nat, i: nat, text: string)
    requires e <= |buf|
  {
    Places(buf, e, s, si, a, i) && Done(Points(Seen(buf, e)), a, text)
  }

  lemma FirstTurn(buf: seq<U.Byte>, e: nat)
    requires e <= |buf|
    ensures Doing(buf, e, 0, 0, 0, 0, "")
  {
    hide *;
    FirstPlace(buf, e);
    NothingDone(Points(Seen(buf, e)));
    DoingFrom(buf, e, 0, 0, 0, 0, "");
  }

  lemma DoingFrom(buf: seq<U.Byte>, e: nat, s: nat, si: nat, a: nat, i: nat, text: string)
    requires e <= |buf|
    ensures Doing(buf, e, s, si, a, i, text) <==> Places(buf, e, s, si, a, i) && Done(Points(Seen(buf, e)), a, text)
  {
  }

  /** A code point that is no full stop. */
  lemma OtherTurn(buf: seq<U.Byte>, e: nat, s: nat, si: nat, a: nat, i: nat, text: string)
    requires e <= |buf| && Readable(buf, e) && Doing(buf, e, s, si, a, i, text) && si < e
    ensures var p := PointAt(buf, si);
            p.Point? && (!Stop(p.c) ==> Doing(buf, e, s, si + p.used, a, After(buf, e, i, p.c), text))
  {
    hide *;
    DoingFrom(buf, e, s, si, a, i, text);
    NextPlace(buf, e, s, si, a, i);
    var p := PointAt(buf, si);
    DoingFrom(buf, e, s, si + p.used, a, After(buf, e, i, p.c), text);
  }

  /** A full stop, once the label in front of it is written. */
  lemma LabelTurn(buf: seq<U.Byte>, e: nat, s: nat, si: nat, a: nat, i: nat, text: string)
    requires e <= |buf| && Readable(buf, e) && Doing(buf, e, s, si, a, i, text) && si < e
    requires PointAt(buf, si).Point? && Stop(PointAt(buf, si).c)
    ensures s <= si && |Word(buf, s, si)| <= |U.Decode(buf[..e])|
    ensures var word, labels, p := Word(buf, s, si), I.Labels(Points(Seen(buf, e))), PointAt(buf, si);
            var next := After(buf, e, i, p.c);
            if I.LabelError(word) != 0 then I.FirstError(labels) == I.LabelError(word)
            else Doing(buf, e, si + p.used, si + p.used, next, next, text + I.LabelText(word) + ['.'])
  {
    hide *;
    var points, p := Points(Seen(buf, e)), PointAt(buf, si);
    var next := After(buf, e, i, p.c);
    DoingFrom(buf, e, s, si, a, i, text);
    NextPlace(buf, e, s, si, a, i);
    LabelPlace(buf, e, s, si, a, i);
    LabelDone(points, a, i, text);
    WordIs(buf, s, si);
    SameLength(U.Decode(buf[s..si]), points[a..i]);
    DoingFrom(buf, e, si + p.used, si + p.used, next, next, text + I.LabelText(Word(buf, s, si)) + ['.']);
  }

  lemma WordIs(buf: seq<U.Byte>, s: nat, se: nat)
    requires s <= se <= |buf|
    ensures Word(buf, s, se) == Points(U.Decode(buf[s..se]))
  {
  }

  /** The end, once the last label is written; behind a full stop there is none. */
  lemma LastTurn(buf: seq<U.Byte>, e: nat, s: nat, si: nat, a: nat, i: nat, text: string)
    requires e <= |buf| && Doing(buf, e, s, si, a, i, text) && si >= e
    ensures var labels := I.Labels(Points(Seen(buf, e)));
            if s < e then
              && |Word(buf, s, e)| <= |U.Decode(buf[..e])|
              && I.FirstError(labels) == I.LabelError(Word(buf, s, e)) && I.Join(labels) == text + I.LabelText(Word(buf, s, e))
            else
              I.FirstError(labels) == 0 && I.Join(labels) == text
  {
    hide *;
    var points := Points(Seen(buf, e));
    DoingFrom(buf, e, s, si, a, i, text);
    LastPlace(buf, e, s, si, a, i);
    AllDone(points, a, text);
    if s < e {
      WordIs(buf, s, e);
      SameLength(U.Decode(buf[s..e]), points[a..]);
    } else {
      assert text + "" == text;
    }
  }

  /** uv__utf8_decode1 and the comparisons with the full stops. */
  method Read(buf: seq<U.Byte>, si: nat) returns (stop: bool, si': nat)
    requires si < |buf| && PointAt(buf, si).Point?
    ensures stop == Stop(PointAt(buf, si).c) && si' == si + PointAt(buf, si).used
  {
    var point := U.Decode1(buf[si..]);
    stop := Stop(point.c);
    si' := si + point.used;
  }

  /** uv__idna_toascii: the labels, split at any of the four full stops, encoded and
      joined with '.', and a terminating NUL; or the error of the first label that
      has one. Each label is decoded again from its own bytes. */
  method ToAscii(buf: seq<U.Byte>, e: nat, out: I.Output) returns (rc: int)
    requires out.Valid() && out.text == "" && Readable(buf, e) && |U.Decode(buf[..e])| < P.LIMIT
    modifies out`d, out`text, out.buf
    ensures out.Valid()
    ensures forall i :: 0 <= i < out.buf.Length && !(out.start <= i < out.de) ==> out.buf[i] == old(out.buf[i])
    ensures var labels := I.Labels(Points(Seen(buf, e)));
            if I.FirstError(labels) != 0 then rc == I.FirstError(labels)
            else rc == out.d - out.start && out.text == I.Join(labels) + [0 as char]
  {
    assert e <= |buf|;
    hide *;
    var s: nat, si: nat := 0, 0;
    ghost var a: nat, i: nat := 0, 0;  // the same places, in code points
    FirstTurn(buf, e);
    while si < e
      invariant out.Valid() && Doing(buf, e, s, si, a, i, out.text)
      invariant forall k :: 0 <= k < out.buf.Length && !(out.start <= k < out.de) ==> out.buf[k] == old(out.buf[k])
    {
      var st := si;
      OtherTurn(buf, e, s, si, a, i, out.text);
      ghost var next := After(buf, e, i, PointAt(buf, si).c);
      var stop;
      stop, si := Read(buf, si);
      if !stop {
        i := next;
        continue;
      }
      LabelTurn(buf, e, s, st, a, i, out.text);
      rc := PutLabel(buf, s, st, out);
      if rc < 0 {
        return;
      }
      out.Put('.');
      s, a, i := si, next, next;
    }
    LastTurn(buf, e, s, si, a, i, out.text);
    if s < e {
      rc := PutLabel(buf, s, e, out);
      if rc < 0 {
        return;
      }
    }
    out.Put(0 as char);
    rc := out.d - out.start;
  }

  // ---------- Reading a host name back ----------

  /** The text stands for this label, by RFC 3492. */
  predicate StandsFor(text: string, word: seq<nat>) {
    if P.Remaining(word, P.INITIAL_N) == 0 then P.CodePoints(text) == word
    else |text| >= 4 && text[..4] == "xn--" && P.Decode(text[4..]) == Some(word)
  }

  /** The text of a host name, split at its dots, is one text for each label of the
      original, that stands for it. */
  lemma HostNameReadsBack(buf: seq<U.Byte>, e: nat, cps: seq<bv32>)
    requires e <= |buf| && U.Scalars(cps) && buf[..e] == U.Encode(cps)
    ensures Readable(buf, e) && Seen(buf, e) == cps
    ensures var labels := I.Labels(Points(Seen(buf, e)));
            var texts := I.SplitAtDots(I.Join(labels));
            |texts| == |labels| && forall i :: 0 <= i < |labels| ==> StandsFor(texts[i], labels[i])
  {
    U.DecodeInverse(cps);
    hide U.Scalar, U.Encode, U.Decode, U.Ends, I.Labels, I.Join, I.SplitAtDots, I.LabelText, P.Remaining, P.Decode, P.CodePoints;
    assert Seen(buf, e) == cps;
    var labels := I.Labels(Points(cps));
    I.LabelsHaveNoDot(Points(cps));
    I.HostReadsBack(labels);
    forall i | 0 <= i < |labels| ensures StandsFor(I.LabelText(labels[i]), labels[i]) {
      I.LabelReadsBack(labels[i]);
      PrefixLength(labels[i]);
    }
  }

  lemma PrefixLength(word: seq<nat>)
    ensures P.Remaining(word, P.INITIAL_N) > 0 ==> |I.LabelText(word)| >= 4
  {
  }

  /** Parts that are the same, or one of which spells the encoding of the other. */
  ghost predicate SamePart(a: seq<bv32>, b: seq<bv32>) {
    a == b || I.Spells(Points(a), Points(b)) || I.Spells(Points(b), Points(a))
  }

  lemma SamePartText(a: seq<bv32>, b: seq<bv32>)
    ensures I.LabelText(Points(a)) == I.LabelText(Points(b)) <==> SamePart(a, b)
  {
    hide I.LabelText, I.Spells, Points;
    I.SameText(Points(a), Points(b));
    if Points(a) == Points(b) {
      SamePoints(a, b);
    }
  }

  lemma {:induction false} JoinedTexts(x: seq<seq<nat>>, y: seq<seq<nat>>)
    requires |x| == |y| && forall i :: 0 <= i < |x| ==> I.LabelText(x[i]) == I.LabelText(y[i])
    ensures I.Join(x) == I.Join(y)
  {
    hide I.LabelText;
    if |x| > 1 {
      JoinedTexts(x[1..], y[1..]);
    }
  }

  /** Two names have the same ASCII text exactly if they have the same parts between their
      full stops, but for parts that spell the encoding of one another. */
  lemma SameHostName(a: seq<bv32>, b: seq<bv32>)
    ensures I.Join(I.Labels(Points(a))) == I.Join(I.Labels(Points(b))) <==>
            |Parts(a)| == |Parts(b)| && forall i :: 0 <= i < |Parts(a)| ==> SamePart(Parts(a)[i], Parts(b)[i])
  {
    hide I.Labels, I.Join, I.SplitAtDots, I.LabelText, Parts, SamePart, Points;
    var x, y := I.Labels(Points(a)), I.Labels(Points(b));
    LabelsOfParts(a);
    LabelsOfParts(b);
    forall i | 0 <= i < |x| && i < |y| ensures I.LabelText(x[i]) == I.LabelText(y[i]) <==> SamePart(Parts(a)[i], Parts(b)[i]) {
      SamePartText(Parts(a)[i], Parts(b)[i]);
    }
    I.LabelsHaveNoDot(Points(a));
    I.LabelsHaveNoDot(Points(b));
    I.HostReadsBack(x);
    I.HostReadsBack(y);
    if |x| == |y| && forall i :: 0 <= i < |x| ==> I.LabelText(x[i]) == I.LabelText(y[i]) {
      JoinedTexts(x, y);
    } else if I.Join(x) == I.Join(y) {
      SameEntries(x, y);
    }
  }

  lemma SameEntries(x: seq<seq<nat>>, y: seq<seq<nat>>)
    requires seq(|x|, i requires 0 <= i < |x| => I.LabelText(x[i])) == seq(|y|, i requires 0 <= i < |y| => I.LabelText(y[i]))
    ensures |x| == |y| && forall i :: 0 <= i < |x| ==> I.LabelText(x[i]) == I.LabelText(y[i])
  {
    hide I.LabelText;
    var p, q := seq(|x|, i requires 0 <= i < |x| => I.LabelText(x[i])), seq(|y|, i requires 0 <= i < |y| => I.LabelText(y[i]));
    assert |p| == |q|;
    forall i | 0 <= i < |x| ensures I.LabelText(x[i]) == I.LabelText(y[i]) {
      assert p[i] == q[i];
    }
  }

  /** A text that ends in the middle of a full stop, the rest of which is behind it, gets a
      dot at its end; otherwise the incomplete code point is dropped. */
  lemma ReadsBehind(last: U.Byte)
    requires last & 0xC0 == 0x80
    ensures var buf := [0x61, 0xE3, 0x80, last, 0, 0];
            Readable(buf, 3) && Seen(buf, 3) == if last == 0x82 then [0x61, 0x3002] else [0x61]
  {
    var buf: seq<U.Byte> := [0x61, 0xE3, 0x80, last, 0, 0];
    CutText(buf);
    ThreeRead(last);
    assert buf[1..] == [0xE3, 0x80, last] + [0, 0];
    U.DecodeThree(0xE3, 0x80, last, [0, 0]);
    hide U.Decode, U.Decode1, U.Ends, U.Start, U.Checked;
  }

  lemma CutText(buf: seq<U.Byte>)
    requires |buf| == 6 && buf[0] == 0x61 && buf[1] == 0xE3
    ensures U.Decode(buf[..3]) == [0x61] && U.Start(buf[..3], 1) == 1 && !U.Ends(buf[..3])
  {
    assert buf[..3][1..] == buf[1..3];
    assert U.Decode1(buf[1..3]).Past?;
    assert U.Decode(buf[1..3]) == [] && !U.Ends(buf[1..3]);
  }

  /** U+3000 to U+303F, of which only U+3002 is a full stop. */
  lemma ThreeRead(last: bv32)
    requires last < 0x100 && last & 0xC0 == 0x80
    ensures var c := U.Checked(0, 0x80 | (0xE3 & 15), 0x80, last, 0x800);
            (Stop(c) <==> last == 0x82) && (last == 0x82 ==> c == 0x3002)
  {
  }
}
