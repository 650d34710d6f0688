/** libuv's UTF-8 decoder, uv__utf8_decode1, on bits, and the encoding of RFC 3629 that
    it undoes. */
module Utf8 {

  type Byte = x: bv32 | x < 0x100

  const MALFORMED: bv32 := 0xFFFF_FFFF  // -1

  /** A code point and how many bytes it took; Past when the code reads behind the end of
      the text, so that what it makes of those bytes is not determined by the text. */
  datatype Point = Point(c: bv32, used: nat) | Past

  function Join(a: bv32, x: bv32, y: bv32, z: bv32): bv32 {
    (a << 18) | (x << 12) | (y << 6) | z
  }

  /** The top two bits of three bytes, which are 10 if each byte's are. */
  function Marks(b: bv32, c: bv32, d: bv32): bv32 {
    (b ^ c ^ d) & 0xC0
  }

  /** The end of uv__utf8_decode1_slow: the checks on the bytes that follow the first. */
  function Checked(a: bv32, b: bv32, c: bv32, d: bv32, least: bv32): bv32 {
    var r := Join(a, b & 63, c & 63, d & 63);
    if Marks(b, c, d) != 0x80 then MALFORMED
    else if r < least then MALFORMED
    else if r > 0x10FFFF then MALFORMED
    else if 0xD800 <= r <= 0xDFFF then MALFORMED
    else r
  }

  /** uv__utf8_decode1 on what is left of a text. Its switch is on a difference that is
      never positive while there is something left, so that the default case is taken and
      falls through from there. (The loop's last call, at the end of the text, is the one
      where it is 1; nothing looks at its result.) */
  function Decode1(s: seq<Byte>): (p: Point)
    requires s != []
    ensures p.Point? ==> 1 <= p.used <= |s|
  {
    var a := s[0];
    if a < 128 then Point(a, 1)
    else if a > 0xF7 then Point(MALFORMED, 1)
    else if a > 0xEF then
      if |s| < 4 then Past else Point(Checked(a & 7, s[1], s[2], s[3], 0x10000), 4)
    else if a > 0xDF then
      if |s| < 3 then Past else Point(Checked(0, 0x80 | (a & 15), s[1], s[2], 0x800), 3)
    else if a > 0xBF then
      if |s| < 2 then Past else Point(Checked(0, 0x80, 0x80 | (a & 31), s[1], 0x80), 2)
    else Point(MALFORMED, 1)
  }

  predicate Scalar(c: bv32) {
    c <= 0x10FFFF && !(0xD800 <= c <= 0xDFFF)
  }

  /** The n-th group of six bits of a code point, counted from below. */
  function Six(c: bv32, n: nat): (x: bv32)
    requires n <= 3
    ensures x < 64
  {
    if n == 0 then c & 63 else if n == 1 then (c >> 6) & 63 else if n == 2 then (c >> 12) & 63 else (c >> 18) & 63
  }

  /** Section 3 of RFC 3629. */
  function Encode1(c: bv32): (s: seq<Byte>)
    requires Scalar(c)
    ensures 1 <= |s| <= 4
  {
    if c < 0x80 then [c]
    else if c < 0x800 then [0xC0 | (c >> 6), 0x80 | (c & 63)]
    else if c < 0x10000 then [0xE0 | (c >> 12), 0x80 | ((c >> 6) & 63), 0x80 | (c & 63)]
    else Four(Six(c, 3), Six(c, 2), Six(c, 1), Six(c, 0))
  }

  function Four(w: bv32, x: bv32, y: bv32, z: bv32): (s: seq<Byte>)
    requires w < 64 && x < 64 && y < 64 && z < 64
    ensures |s| == 4
  {
    [0xF0 | w, 0x80 | x, 0x80 | y, 0x80 | z]
  }

  lemma TwoBytes(c: bv32)
    requires 0x80 <= c < 0x800
    ensures 0xBF < 0xC0 | (c >> 6) <= 0xDF
    ensures Checked(0, 0x80, 0x80 | ((0xC0 | (c >> 6)) & 31), 0x80 | (c & 63), 0x80) == c
  {
  }

  lemma ThreeBytes(c: bv32)
    requires 0x800 <= c < 0x10000 && Scalar(c)
    ensures 0xDF < 0xE0 | (c >> 12) <= 0xEF
    ensures Checked(0, 0x80 | ((0xE0 | (c >> 12)) & 15), 0x80 | ((c >> 6) & 63), 0x80 | (c & 63), 0x800) == c
  {
  }

  lemma Continuation(x: bv32)
    requires x < 64
    ensures (0x80 | x) & 63 == x
  {
  }

  lemma ThreeContinuations(x: bv32, y: bv32, z: bv32)
    requires x < 64 && y < 64 && z < 64
    ensures Marks(0x80 | x, 0x80 | y, 0x80 | z) == 0x80
  {
  }

  lemma GroupsOfSix(c: bv32)
    requires c <= 0x10FFFF
    ensures (c >> 18) & 63 <= 7
    ensures (((c >> 18) & 63) << 18) | (((c >> 12) & 63) << 12) | (((c >> 6) & 63) << 6) | (c & 63) == c
  {
  }

  lemma Pieces(c: bv32)
    requires c <= 0x10FFFF
    ensures Six(c, 3) <= 7
    ensures Join(Six(c, 3), Six(c, 2), Six(c, 1), Six(c, 0)) == c
  {
    GroupsOfSix(c);
  }

  lemma Lead(x: bv32)
    requires x <= 7
    ensures (0xF0 | x) & 7 == x && 0xEF < 0xF0 | x <= 0xF7
  {
  }

  /** The checks pass on continuation bytes that hold x, y and z. */
  lemma CheckedIs(a: bv32, b: bv32, c: bv32, d: bv32, x: bv32, y: bv32, z: bv32, least: bv32, r: bv32)
    requires b & 63 == x && c & 63 == y && d & 63 == z
    requires Join(a, x, y, z) == r && Marks(b, c, d) == 0x80 && least <= r && Scalar(r)
    ensures Checked(a, b, c, d, least) == r
  {
    hide Join, Marks;
  }

  /** Four bytes made of the pieces of a code point. */
  lemma FourBytes(c: bv32, w: bv32, x: bv32, y: bv32, z: bv32)
    requires 0x10000 <= c && Scalar(c) && w <= 7 && x < 64 && y < 64 && z < 64
    requires Join(w, x, y, z) == c
    ensures 0xEF < 0xF0 | w <= 0xF7
    ensures Checked((0xF0 | w) & 7, 0x80 | x, 0x80 | y, 0x80 | z, 0x10000) == c
  {
    hide Checked, Scalar, Join, Marks;
    Lead(w);
    Continuation(x);
    Continuation(y);
    Continuation(z);
    ThreeContinuations(x, y, z);
    CheckedIs(w, 0x80 | x, 0x80 | y, 0x80 | z, x, y, z, 0x10000, c);
  }

  lemma FourInverse(c: bv32, w: bv32, x: bv32, y: bv32, z: bv32, rest: seq<Byte>)
    requires 0x10000 <= c && Scalar(c) && w <= 7 && x < 64 && y < 64 && z < 64
    requires Join(w, x, y, z) == c
    ensures Decode1(Four(w, x, y, z) + rest) == Point(c, 4)
  {
    hide Checked, Scalar;
    FourBytes(c, w, x, y, z);
    DecodeFour(0xF0 | w, 0x80 | x, 0x80 | y, 0x80 | z, rest);
  }

  // Which bytes the decoder looks at, by the first of them.

  lemma DecodeTwo(a: Byte, b: Byte, rest: seq<Byte>)
    requires 0xBF < a <= 0xDF
    ensures Decode1([a, b] + rest) == Point(Checked(0, 0x80, 0x80 | (a & 31), b, 0x80), 2)
  {
    hide Checked;
  }

  lemma DecodeThree(a: Byte, b: Byte, c: Byte, rest: seq<Byte>)
    requires 0xDF < a <= 0xEF
    ensures Decode1([a, b, c] + rest) == Point(Checked(0, 0x80 | (a & 15), b, c, 0x800), 3)
  {
    hide Checked;
  }

  lemma DecodeFour(a: Byte, b: Byte, c: Byte, d: Byte, rest: seq<Byte>)
    requires 0xEF < a <= 0xF7
    ensures Decode1([a, b, c, d] + rest) == Point(Checked(a & 7, b, c, d, 0x10000), 4)
  {
    hide Checked;
  }

  lemma TwoInverse(c: bv32, rest: seq<Byte>)
    requires 0x80 <= c < 0x800
    ensures Decode1([0xC0 | (c >> 6), 0x80 | (c & 63)] + rest) == Point(c, 2)
  {
    hide Checked, Decode1;
    TwoBytes(c);
    DecodeTwo(0xC0 | (c >> 6), 0x80 | (c & 63), rest);
  }

  lemma ThreeInverse(c: bv32, rest: seq<Byte>)
    requires 0x800 <= c < 0x10000 && Scalar(c)
    ensures Decode1([0xE0 | (c >> 12), 0x80 | ((c >> 6) & 63), 0x80 | (c & 63)] + rest) == Point(c, 3)
  {
    hide Checked, Decode1, Scalar;
    ThreeBytes(c);
    DecodeThree(0xE0 | (c >> 12), 0x80 | ((c >> 6) & 63), 0x80 | (c & 63), rest);
  }

  lemma FourSixes(c: bv32, rest: seq<Byte>)
    requires 0x10000 <= c && Scalar(c)
    ensures Decode1(Four(Six(c, 3), Six(c, 2), Six(c, 1), Six(c, 0)) + rest) == Point(c, 4)
  {
    assert c <= 0x10FFFF;
    hide Scalar, Decode1, Join, Six, Four;
    Pieces(c);
    FourInverse(c, Six(c, 3), Six(c, 2), Six(c, 1), Six(c, 0), rest);
  }

  /** Every Unicode scalar value is read back from its encoding, and no more is read. */
  lemma Decode1Inverse(c: bv32, rest: seq<Byte>)
    requires Scalar(c)
    ensures Decode1(Encode1(c) + rest) == Point(c, |Encode1(c)|)
  {
    hide Checked, Six, Four, Scalar;
    if c >= 0x10000 {
      hide Decode1;
      FourSixes(c, rest);
    } else if c >= 0x800 {
      hide Decode1;
      ThreeInverse(c, rest);
    } else if c >= 0x80 {
      hide Decode1;
      TwoInverse(c, rest);
    }
  }

  // ---------- What else is accepted ----------

  /** The top bits of a continuation byte are 10. */
  predicate Continues(b: bv32) {
    b & 0xC0 == 0x80
  }

  /** The continuation byte that carries the low bits of x. */
  function Carrying(x: bv32): Byte {
    0x80 | (x & 63)
  }

  lemma ContinuesExactly(b: Byte)
    ensures Continues(b) <==> Carrying(b) == b
  {
  }

  lemma CheckedFacts(a: bv32, b: bv32, c: bv32, d: bv32, least: bv32)
    ensures var r := Checked(a, b, c, d, least);
            r != MALFORMED ==> r == Join(a, b & 63, c & 63, d & 63) && least <= r && Scalar(r) && Marks(b, c, d) == 0x80
  {
    hide Join, Marks;
  }

  lemma TwoGroups(a: Byte, y: bv32)
    requires 0xBF < a <= 0xDF && y < 64
    ensures var c := Join(0, 0x80 & 63, (0x80 | (a & 31)) & 63, y);
            c < 0x800 && 0xC0 | (c >> 6) == a && c & 63 == y
  {
  }

  lemma TwoMarks(a: bv32, b: bv32)
    requires Marks(0x80, 0x80 | (a & 31), b) == 0x80
    ensures Continues(b)
  {
  }

  lemma ThreeGroups(a: Byte, x: bv32, y: bv32)
    requires 0xDF < a <= 0xEF && x < 64 && y < 64
    ensures var c := Join(0, (0x80 | (a & 15)) & 63, x, y);
            c < 0x10000 && 0xE0 | (c >> 12) == a && (c >> 6) & 63 == x && c & 63 == y
  {
  }

  lemma FourGroups(a: Byte, x: bv32, y: bv32, z: bv32)
    requires 0xEF < a <= 0xF7 && x < 64 && y < 64 && z < 64
    ensures var c := Join(a & 7, x, y, z);
            0xF0 | Six(c, 3) == a && Six(c, 2) == x && Six(c, 1) == y && Six(c, 0) == z
  {
  }

  lemma EncodeTwo(c: bv32)
    requires 0x80 <= c < 0x800
    ensures Scalar(c) && Encode1(c) == [0xC0 | (c >> 6), 0x80 | (c & 63)]
  {
  }

  lemma EncodeThree(c: bv32)
    requires 0x800 <= c < 0x10000 && Scalar(c)
    ensures Encode1(c) == [0xE0 | (c >> 12), 0x80 | ((c >> 6) & 63), 0x80 | (c & 63)]
  {
  }

  lemma EncodeFour(c: bv32)
    requires 0x10000 <= c && Scalar(c)
    ensures Encode1(c) == [0xF0 | Six(c, 3), 0x80 | Six(c, 2), 0x80 | Six(c, 1), 0x80 | Six(c, 0)]
  {
    hide Scalar, Six;
  }

  // The code point that was read has an encoding with the same first byte and with the
  // low bits of the others.

  lemma TwoBack(a: Byte, b: Byte, c: bv32)
    requires 0xBF < a <= 0xDF && 0x80 <= c && c == Join(0, 0x80 & 63, (0x80 | (a & 31)) & 63, b & 63)
    ensures Scalar(c) && Encode1(c) == [a, Carrying(b)]
  {
    hide Scalar, Encode1, Join;
    TwoGroups(a, b & 63);
    EncodeTwo(c);
  }

  lemma ThreeBack(a: Byte, b: Byte, d: Byte, c: bv32)
    requires 0xDF < a <= 0xEF && 0x800 <= c && Scalar(c) && c == Join(0, (0x80 | (a & 15)) & 63, b & 63, d & 63)
    ensures Encode1(c) == [a, Carrying(b), Carrying(d)]
  {
    hide Scalar, Encode1, Join;
    ThreeGroups(a, b & 63, d & 63);
    EncodeThree(c);
  }

  lemma FourBack(a: Byte, b: Byte, d: Byte, e: Byte, c: bv32)
    requires 0xEF < a <= 0xF7 && 0x10000 <= c && Scalar(c) && c == Join(a & 7, b & 63, d & 63, e & 63)
    ensures Encode1(c) == [a, Carrying(b), Carrying(d), Carrying(e)]
  {
    hide Scalar, Encode1, Join, Six;
    FourGroups(a, b & 63, d & 63, e & 63);
    EncodeFour(c);
  }

  lemma TwoCanonical(a: Byte, b: Byte)
    requires 0xBF < a <= 0xDF
    ensures var c := Checked(0, 0x80, 0x80 | (a & 31), b, 0x80);
            c != MALFORMED ==> Scalar(c) && Encode1(c) == [a, b] && Continues(b)
  {
    hide *;
    var c := Checked(0, 0x80, 0x80 | (a & 31), b, 0x80);
    CheckedFacts(0, 0x80, 0x80 | (a & 31), b, 0x80);
    ContinuesExactly(b);
    if c != MALFORMED {
      TwoMarks(a, b);
      TwoBack(a, b, c);
    }
  }

  lemma ThreeCanonical(a: Byte, b: Byte, d: Byte)
    requires 0xDF < a <= 0xEF
    ensures var c := Checked(0, 0x80 | (a & 15), b, d, 0x800);
            c != MALFORMED ==> Scalar(c) && (Encode1(c) == [a, b, d] <==> Continues(b) && Continues(d))
  {
    hide *;
    var c := Checked(0, 0x80 | (a & 15), b, d, 0x800);
    CheckedFacts(0, 0x80 | (a & 15), b, d, 0x800);
    ContinuesExactly(b);
    ContinuesExactly(d);
    if c != MALFORMED {
      ThreeBack(a, b, d, c);
    }
  }

  lemma FourCanonical(a: Byte, b: Byte, d: Byte, e: Byte)
    requires 0xEF < a <= 0xF7
    ensures var c := Checked(a & 7, b, d, e, 0x10000);
            c != MALFORMED ==> Scalar(c) && (Encode1(c) == [a, b, d, e] <==> Continues(b) && Continues(d) && Continues(e))
  {
    hide *;
    var c := Checked(a & 7, b, d, e, 0x10000);
    CheckedFacts(a & 7, b, d, e, 0x10000);
    ContinuesExactly(b);
    ContinuesExactly(d);
    ContinuesExactly(e);
    if c != MALFORMED {
      FourBack(a, b, d, e, c);
    }
  }

  /** A code point that is not reported as malformed is a Unicode scalar value, and it was
      read from its encoding exactly if every byte behind the first is a continuation byte:
      the check is on their exclusive or. */
  lemma CanonicalExactly(s: seq<Byte>)
    requires s != [] && Decode1(s).Point? && Decode1(s).c != MALFORMED
    ensures var p := Decode1(s);
            Scalar(p.c) && (s[..p.used] == Encode1(p.c) <==> forall i :: 1 <= i < p.used ==> Continues(s[i]))
  {
    hide Scalar, Encode1, Checked, Continues;
    var a := s[0];
    if a < 128 {
      EncodeOne(a);
    } else if a > 0xEF {
      FourCanonical(a, s[1], s[2], s[3]);
      assert s[..4] == [a, s[1], s[2], s[3]];
    } else if a > 0xDF {
      ThreeCanonical(a, s[1], s[2]);
      assert s[..3] == [a, s[1], s[2]];
    } else {
      TwoCanonical(a, s[1]);
      assert s[..2] == [a, s[1]];
    }
  }

  lemma EncodeOne(c: bv32)
    requires c < 128
    ensures Scalar(c) && Encode1(c) == [c]
  {
  }

  /** Two bytes that are no continuation bytes can cancel out: the ideographic full stop,
      a label separator, is read from what is not UTF-8. */
  lemma AcceptsWhatIsNotUtf8()
    ensures Decode1([0xE3, 0xC0, 0xC2]) == Point(0x3002, 3)
    ensures [0xE3, 0xC0, 0xC2] != Encode1(0x3002)
  {
    assert Checked(0, 0x80 | (0xE3 & 15), 0xC0, 0xC2, 0x800) == 0x3002;
  }

  function Encode(cps: seq<bv32>): seq<Byte>
    requires forall i :: 0 <= i < |cps| ==> Scalar(cps[i])
  {
    if cps == [] then [] else Encode1(cps[0]) + Encode(cps[1..])
  }

  /** The code points that foreach_codepoint goes through: it ends where the text ends,
      and drops a code point that would take it behind the end. */
  function Decode(s: seq<Byte>): seq<bv32> {
    if s == [] then []
    else
      var p := Decode1(s);
      if p.Past? then [] else [p.c] + Decode(s[p.used..])
  }

  /** No code point is dropped at the end. */
  predicate Ends(s: seq<Byte>)
    decreases |s|
  {
    s == [] || (var p := Decode1(s); p.Point? && Ends(s[p.used..]))
  }

  predicate Scalars(cps: seq<bv32>) {
    forall i :: 0 <= i < |cps| ==> Scalar(cps[i])
  }

  /** The first code point of an encoded text, and the text after it. */
  lemma FirstPoint(cps: seq<bv32>)
    requires Scalars(cps) && cps != []
    ensures var s := Encode(cps);
            && s != [] && Decode1(s) == Point(cps[0], |Encode1(cps[0])|)
            && s[|Encode1(cps[0])|..] == Encode(cps[1..])
  {
    hide Encode1, Decode1, Scalar;
    Decode1Inverse(cps[0], Encode(cps[1..]));
  }

  lemma {:induction false} DecodeInverse(cps: seq<bv32>)
    requires Scalars(cps)
    ensures Decode(Encode(cps)) == cps && Ends(Encode(cps))
  {
    if cps != [] {
      hide Encode1, Decode1, Scalar;
      FirstPoint(cps);
      DecodeInverse(cps[1..]);
    }
  }

  /** Examples of section 7 of RFC 3629, with a code point of each length. */
  lemma Examples()
    ensures var cps: seq<bv32> := [0x41, 0x2262, 0x391, 0x2E];
            Scalars(cps) && Encode(cps) == [0x41, 0xE2, 0x89, 0xA2, 0xCE, 0x91, 0x2E]
    ensures var cps: seq<bv32> := [0xFEFF, 0x233B4];
            Scalars(cps) && Encode(cps) == [0xEF, 0xBB, 0xBF, 0xF0, 0xA3, 0x8E, 0xB4]
  {
    hide Encode1, Encode;
    FourPoints();
    TwoPoints();
  }

  lemma FourPoints()
    ensures var cps: seq<bv32> := [0x41, 0x2262, 0x391, 0x2E];
            Scalars(cps) && Encode(cps) == [0x41, 0xE2, 0x89, 0xA2, 0xCE, 0x91, 0x2E]
  {
    EncodedPoints();
    assert Encode([]) == [];
    hide Encode1, Encode;
    var cps: seq<bv32> := [0x41, 0x2262, 0x391, 0x2E];
    EncodeFrom(cps, 3);
    EncodeFrom(cps, 2);
    EncodeFrom(cps, 1);
    EncodeFrom(cps, 0);
    assert cps[4..] == [] && cps[0..] == cps;
  }

  lemma TwoPoints()
    ensures var cps: seq<bv32> := [0xFEFF, 0x233B4];
            Scalars(cps) && Encode(cps) == [0xEF, 0xBB, 0xBF, 0xF0, 0xA3, 0x8E, 0xB4]
  {
    EncodedPoints();
    assert Encode([]) == [];
    hide Encode1, Encode;
    var cps: seq<bv32> := [0xFEFF, 0x233B4];
    EncodeFrom(cps, 1);
    EncodeFrom(cps, 0);
    assert cps[2..] == [] && cps[0..] == cps;
  }

  lemma EncodedPoints()
    ensures Encode1(0x41) == [0x41] && Encode1(0x2E) == [0x2E] && Encode1(0x391) == [0xCE, 0x91]
    ensures Encode1(0x2262) == [0xE2, 0x89, 0xA2] && Encode1(0xFEFF) == [0xEF, 0xBB, 0xBF]
    ensures Encode1(0x233B4) == [0xF0, 0xA3, 0x8E, 0xB4]
  {
  }

  lemma EncodeFrom(cps: seq<bv32>, i: nat)
    requires Scalars(cps) && i < |cps|
    ensures Encode(cps[i..]) == Encode1(cps[i]) + Encode(cps[i + 1..])
  {
    hide Encode1, Scalar;
    assert cps[i..][1..] == cps[i + 1..];
  }

  /** foreach_codepoint with the code points gathered. */
  method ForEachCodepoint(s: seq<Byte>) returns (seen: seq<bv32>)
    ensures seen == Decode(s)
  {
    seen := [];
    var p := 0;
    hide Decode1;
    while p < |s|
      invariant p <= |s| && seen + Decode(s[p..]) == Decode(s)
      decreases |s| - p
    {
      var point := Decode1(s[p..]);
      if point.Past? {
        return;
      }
      seen := seen + [point.c];
      assert s[p..][point.used..] == s[p + point.used..];
      p := p + point.used;
    }
  }

  // ---------- Parts of a text ----------

  /** Where code point i starts; for the number of code points, where the last one ends. */
  function Start(s: seq<Byte>, i: nat): (k: nat)
    requires i <= |Decode(s)|
    ensures k <= |s|
    decreases |s|
  {
    if i == 0 then 0
    else
      var n := Decode1(s).used;
      n + Start(s[n..], i - 1)
  }

  lemma Decode1Local(s: seq<Byte>, n: nat)
    requires s != [] && Decode1(s).Point? && Decode1(s).used <= n <= |s|
    ensures Decode1(s[..n]) == Decode1(s)
  {
    hide Checked;
  }

  lemma Decode1Longer(s: seq<Byte>, n: nat)
    requires 0 < n <= |s|
    ensures Decode1(s[..n]).Point? ==> Decode1(s) == Decode1(s[..n])
    ensures Decode1(s[..n]).Past? && Decode1(s).Point? ==> Decode1(s).used > n
    ensures |s| >= 4 ==> Decode1(s).Point?
  {
    hide Checked;
  }

  lemma {:induction false} DecodeUpTo(s: seq<Byte>, j: nat)
    requires j <= |Decode(s)|
    ensures Ends(s[..Start(s, j)]) && Decode(s[..Start(s, j)]) == Decode(s)[..j]
    decreases |s|
  {
    hide Decode1;
    if j > 0 {
      var n, k := Decode1(s).used, Start(s, j);
      var part := s[..k];
      DecodeUpTo(s[n..], j - 1);
      Decode1Local(s, k);
      assert part[n..] == s[n..][..k - n];
    }
  }

  lemma StartBehind(s: seq<Byte>, i: nat)
    requires 0 < i <= |Decode(s)|
    ensures s != [] && Decode1(s).Point?
    ensures var n := Decode1(s).used;
            && 1 <= n <= |s| && Decode(s)[1..] == Decode(s[n..]) && |Decode(s)| == |Decode(s[n..])| + 1
            && Start(s, i) == n + Start(s[n..], i - 1) && (Ends(s) <==> Ends(s[n..]))
  {
    hide Decode1;
  }

  lemma NothingDecoded(s: seq<Byte>)
    ensures Start(s, 0) == 0
    ensures Decode(s) == [] ==> (s == [] || Decode1(s).Past?) && (Ends(s) <==> s == [])
    ensures Decode(s) != [] ==> s != [] && Decode1(s).Point? && Decode(s)[0] == Decode1(s).c
  {
    hide Decode1;
  }

  /** What is found at the start of code point i, and behind the last one. */
  lemma {:induction false} PointAt(s: seq<Byte>, i: nat)
    requires i <= |Decode(s)|
    ensures var k := Start(s, i);
            if i < |Decode(s)| then
              && k < |s| && Decode1(s[k..]).Point? && Decode1(s[k..]).c == Decode(s)[i]
              && Start(s, i + 1) == k + Decode1(s[k..]).used
            else
              && (Ends(s) <==> k == |s|) && (k < |s| ==> Decode1(s[k..]).Past?)
    decreases |s|
  {
    hide *;
    NothingDecoded(s);
    if i == 0 {
      assert s[0..] == s;
      if Decode(s) != [] {
        StartBehind(s, 1);
        NothingDecoded(s[Decode1(s).used..]);
      }
    } else {
      StartBehind(s, i);
      if i < |Decode(s)| {
        StartBehind(s, i + 1);
      }
      var n := Decode1(s).used;
      PointAt(s[n..], i - 1);
      SuffixOfSuffix(s, n, Start(s[n..], i - 1));
      assert i < |Decode(s)| ==> Decode(s)[1..][i - 1] == Decode(s)[i];
    }
  }

  lemma SuffixOfSuffix(s: seq<Byte>, n: nat, k: nat)
    requires n + k <= |s|
    ensures s[n..][k..] == s[n + k..]
  {
  }

  lemma PartOfSuffix(s: seq<Byte>, n: nat, i: nat, j: nat)
    requires n <= |s| && i <= j <= |s| - n
    ensures s[n..][i..j] == s[n + i..n + j]
  {
  }

  lemma PartOfTail(cps: seq<bv32>, i: nat, j: nat)
    requires 0 < i <= j <= |cps|
    ensures cps[1..][i - 1..j - 1] == cps[i..j]
  {
  }

  /** A part of the text between the starts of two code points decodes to those between:
      it does not matter that every label is decoded again, from its own bytes. */
  lemma {:induction false} DecodePart(s: seq<Byte>, i: nat, j: nat)
    requires i <= j <= |Decode(s)|
    ensures Start(s, i) <= Start(s, j) <= |s|
    ensures Ends(s[Start(s, i)..Start(s, j)]) && Decode(s[Start(s, i)..Start(s, j)]) == Decode(s)[i..j]
    decreases |s|
  {
    hide *;
    if i == 0 {
      PartFromStart(s, j);
    } else {
      StartBehind(s, i);
      StartBehind(s, j);
      var n := Decode1(s).used;
      DecodePart(s[n..], i - 1, j - 1);
      PartOfSuffix(s, n, Start(s[n..], i - 1), Start(s[n..], j - 1));
      PartOfTail(Decode(s), i, j);
    }
  }

  lemma PartFromStart(s: seq<Byte>, j: nat)
    requires j <= |Decode(s)|
    ensures Start(s, 0) == 0 && Ends(s[0..Start(s, j)]) && Decode(s[0..Start(s, j)]) == Decode(s)[0..j]
  {
    DecodeUpTo(s, j);
    hide Decode, Ends;
    assert s[0..Start(s, j)] == s[..Start(s, j)];
  }

  /** The rest of a text from the start of a code point on. */
  lemma {:induction false} DecodeRest(s: seq<Byte>, i: nat)
    requires i <= |Decode(s)|
    ensures Decode(s[Start(s, i)..]) == Decode(s)[i..]
    decreases |s|
  {
    hide *;
    NothingDecoded(s);
    if i == 0 {
      assert s[0..] == s && Decode(s)[0..] == Decode(s);
    } else {
      StartBehind(s, i);
      var n := Decode1(s).used;
      DecodeRest(s[n..], i - 1);
      SuffixOfSuffix(s, n, Start(s[n..], i - 1));
      assert Decode(s)[1..][i - 1..] == Decode(s)[i..];
    }
  }
}
