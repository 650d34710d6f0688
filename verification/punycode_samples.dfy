/** Sample strings of section 7.1 of RFC 3492, as the encoder gives them, and a host name. */
module PunycodeSamples {
  import opened Punycode
  import I = Idna

  // ---------- One delta ----------

  lemma VarintIs(q: nat, k: nat, bias: nat)
    ensures var t := Threshold(k, bias);
            Varint(q, k, bias) ==
              if q < t then [EncodeDigit(q)]
              else [EncodeDigit(t + (q - t) % (36 - t))] + Varint((q - t) / (36 - t), k + 36, bias)
  {
    var t := Threshold(k, bias);
    if q >= t {
      QuotientIsDivision(q - t, 36 - t);
    }
  }

  lemma AdaptFrom(delta: nat, numPoints: nat, first: bool)
    requires numPoints > 0
    ensures var d := if first then delta / 700 else delta / 2;
            var q := d / numPoints;
            q >= 0 && Adapt(delta, numPoints, first) == Skew(d + q, 0)
  {
    hide Skew, Quotient;
    QuotientIsDivision(if first then delta / 700 else delta / 2, numPoints);
  }

  lemma SkewFrom(delta: nat, k: nat)
    ensures Skew(delta, k) == if delta > 455 then Skew(delta / 35, k + 36) else k + (36 * delta) / (delta + 38)
  {
    if delta <= 455 {
      QuotientIsDivision(36 * delta, delta + 38);
    }
  }

  // ---------- One round ----------

  /** How many code points are below m. */
  function Below(cps: seq<nat>, m: nat): nat {
    if cps == [] then 0 else (if cps[0] < m then 1 else 0) + Below(cps[1..], m)
  }

  function At(cps: seq<nat>, m: nat, i: nat): nat {
    if i < |cps| && cps[i] < m then 1 else 0
  }

  lemma {:induction false} BelowShort(cps: seq<nat>, m: nat)
    requires |cps| <= 7
    ensures Below(cps, m) ==
            At(cps, m, 0) + At(cps, m, 1) + At(cps, m, 2) + At(cps, m, 3) + At(cps, m, 4) + At(cps, m, 5) + At(cps, m, 6)
  {
    if cps != [] {
      BelowShort(cps[1..], m);
    }
  }

  lemma {:induction false} PassOthers(cps: seq<nat>, m: nat, j: nat, q: nat, delta: nat, h: nat)
    requires j <= q <= |cps| && forall i :: j <= i < q ==> cps[i] != m
    ensures DeltasFrom(cps, m, j, delta, h) == DeltasFrom(cps, m, q, delta + Below(cps[j..q], m), h)
    decreases q - j
  {
    if j < q {
      assert cps[j..q][1..] == cps[j + 1..q];
      PassOthers(cps, m, j + 1, q, if cps[j] < m then delta + 1 else delta, h);
    }
  }

  lemma LeastIs(cps: seq<nat>, n: nat, m: nat)
    requires n <= m && m in cps && forall c :: c in cps && c >= n ==> m <= c
    ensures Remaining(cps, n) > 0 && LeastFrom(cps, n) == m
  {
    NoneRemaining(cps, n);
    assert !(m < n);
  }

  /** The round for a code point that is there once, at position p. */
  lemma Round(cps: seq<nat>, n: nat, m: nat, p: nat, delta: nat, h: nat)
    requires n <= m && p < |cps| && cps[p] == m && (forall i :: 0 <= i < |cps| && i != p ==> cps[i] != m)
    requires forall i :: 0 <= i < |cps| && cps[i] >= n ==> m <= cps[i]
    ensures DeltaRounds(cps, n, delta, h) ==
            [delta + (m - n) * (h + 1) + Below(cps[..p], m)] + DeltaRounds(cps, m + 1, Below(cps[p + 1..], m) + 1, h + 1)
  {
    assert m in cps && forall c :: c in cps && c >= n ==> m <= c;
    LeastIs(cps, n, m);
    TimesIsProduct(m - n, h + 1);
    hide Times, LeastFrom;
    var d := delta + (m - n) * (h + 1);
    assert cps[0..p] == cps[..p] && cps[p + 1..|cps|] == cps[p + 1..];
    PassOthers(cps, m, 0, p, d, h);
    PassOthers(cps, m, p + 1, |cps|, 0, h + 1);
    assert DeltaRounds(cps, n, delta, h) == DeltasFrom(cps, m, 0, d, h);
  }

  lemma TextCons(d: nat, rest: seq<nat>, h: nat, bias: nat, first: bool)
    ensures Text([d] + rest, h, bias, first) == Varint(d, 36, bias) + Text(rest, h + 1, Adapt(d, h + 1, first), false)
  {
    assert ([d] + rest)[1..] == rest;
  }

  lemma NoText(h: nat, bias: nat, first: bool)
    ensures Text([], h, bias, first) == ""
  {
  }

  lemma NothingLeft(cps: seq<nat>, n: nat, delta: nat, h: nat)
    requires forall i :: 0 <= i < |cps| ==> cps[i] < n
    ensures DeltaRounds(cps, n, delta, h) == []
  {
    NoneRemaining(cps, n);
  }


  // ---------- Sample (R), in Japanese ----------

  function Speed(): seq<nat> {
    [0x305D, 0x306E, 0x30B9, 0x30D4, 0x30FC, 0x30C9, 0x3067]
  }

  lemma SpeedDelta1()
    ensures Varint(12253, 36, 72) == "d9j"
    ensures Adapt(12253, 1, true) == 17
  {
    hide Varint, Skew, Adapt;
    VarintIs(12253, 36, 72);
    VarintIs(350, 72, 72);
    VarintIs(9, 108, 72);
    AdaptFrom(12253, 1, true);
    SkewFrom(34, 0);
  }

  lemma SpeedDelta2()
    ensures Varint(20, 36, 17) == "ua"
    ensures Adapt(20, 2, false) == 10
  {
    hide Varint, Skew, Adapt;
    VarintIs(20, 36, 17);
    VarintIs(0, 72, 17);
    AdaptFrom(20, 2, false);
    SkewFrom(15, 0);
  }

  lemma SpeedDelta3()
    ensures Varint(20, 36, 10) == "u"
    ensures Adapt(20, 3, false) == 9
  {
    hide Varint, Skew, Adapt;
    VarintIs(20, 36, 10);
    AdaptFrom(20, 3, false);
    SkewFrom(13, 0);
  }

  lemma SpeedDelta4()
    ensures Varint(300, 36, 9) == "41a"
    ensures Adapt(300, 4, false) == 29
  {
    hide Varint, Skew, Adapt;
    VarintIs(300, 36, 9);
    VarintIs(27, 72, 9);
    VarintIs(0, 108, 9);
    AdaptFrom(300, 4, false);
    SkewFrom(187, 0);
  }

  lemma SpeedDelta5()
    ensures Varint(80, 36, 29) == "wc"
    ensures Adapt(80, 5, false) == 20
  {
    hide Varint, Skew, Adapt;
    VarintIs(80, 36, 29);
    VarintIs(2, 72, 29);
    AdaptFrom(80, 5, false);
    SkewFrom(48, 0);
  }

  lemma SpeedDelta6()
    ensures Varint(65, 36, 20) == "zc"
    ensures Adapt(65, 6, false) == 17
  {
    hide Varint, Skew, Adapt;
    VarintIs(65, 36, 20);
    VarintIs(2, 72, 20);
    AdaptFrom(65, 6, false);
    SkewFrom(37, 0);
  }

  lemma SpeedDelta7()
    ensures Varint(280, 36, 17) == "zp"
    ensures Adapt(280, 7, false) == 29
  {
    hide Varint, Skew, Adapt;
    VarintIs(280, 36, 17);
    VarintIs(15, 72, 17);
    AdaptFrom(280, 7, false);
    SkewFrom(160, 0);
  }

  lemma SpeedRound1()
    ensures DeltaRounds(Speed(), 128, 0, 0) == [12253] + DeltaRounds(Speed(), 12382, 1, 1)
  {
    hide DeltaRounds;
    Round(Speed(), 128, 12381, 0, 0, 0);
    assert Speed()[..0] == [] && Speed()[1..] == [0x306E, 0x30B9, 0x30D4, 0x30FC, 0x30C9, 0x3067];
    BelowShort(Speed()[..0], 12381);
    BelowShort(Speed()[1..], 12381);
  }

  lemma SpeedRound2()
    ensures DeltaRounds(Speed(), 12382, 1, 1) == [20] + DeltaRounds(Speed(), 12392, 1, 2)
  {
    hide DeltaRounds;
    Round(Speed(), 12382, 12391, 6, 1, 1);
    assert Speed()[..6] == [0x305D, 0x306E, 0x30B9, 0x30D4, 0x30FC, 0x30C9] && Speed()[7..] == [];
    BelowShort(Speed()[..6], 12391);
    BelowShort(Speed()[7..], 12391);
  }

  lemma SpeedRound3()
    ensures DeltaRounds(Speed(), 12392, 1, 2) == [20] + DeltaRounds(Speed(), 12399, 2, 3)
  {
    hide DeltaRounds;
    Round(Speed(), 12392, 12398, 1, 1, 2);
    assert Speed()[..1] == [0x305D] && Speed()[2..] == [0x30B9, 0x30D4, 0x30FC, 0x30C9, 0x3067];
    BelowShort(Speed()[..1], 12398);
    BelowShort(Speed()[2..], 12398);
  }

  lemma SpeedRound4()
    ensures DeltaRounds(Speed(), 12399, 2, 3) == [300] + DeltaRounds(Speed(), 12474, 2, 4)
  {
    hide DeltaRounds;
    Round(Speed(), 12399, 12473, 2, 2, 3);
    assert Speed()[..2] == [0x305D, 0x306E] && Speed()[3..] == [0x30D4, 0x30FC, 0x30C9, 0x3067];
    BelowShort(Speed()[..2], 12473);
    BelowShort(Speed()[3..], 12473);
  }

  lemma SpeedRound5()
    ensures DeltaRounds(Speed(), 12474, 2, 4) == [80] + DeltaRounds(Speed(), 12490, 2, 5)
  {
    hide DeltaRounds;
    Round(Speed(), 12474, 12489, 5, 2, 4);
    assert Speed()[..5] == [0x305D, 0x306E, 0x30B9, 0x30D4, 0x30FC] && Speed()[6..] == [0x3067];
    BelowShort(Speed()[..5], 12489);
    BelowShort(Speed()[6..], 12489);
  }

  lemma SpeedRound6()
    ensures DeltaRounds(Speed(), 12490, 2, 5) == [65] + DeltaRounds(Speed(), 12501, 3, 6)
  {
    hide DeltaRounds;
    Round(Speed(), 12490, 12500, 3, 2, 5);
    assert Speed()[..3] == [0x305D, 0x306E, 0x30B9] && Speed()[4..] == [0x30FC, 0x30C9, 0x3067];
    BelowShort(Speed()[..3], 12500);
    BelowShort(Speed()[4..], 12500);
  }

  lemma SpeedRound7()
    ensures DeltaRounds(Speed(), 12501, 3, 6) == [280] + DeltaRounds(Speed(), 12541, 3, 7)
  {
    hide DeltaRounds;
    Round(Speed(), 12501, 12540, 4, 3, 6);
    assert Speed()[..4] == [0x305D, 0x306E, 0x30B9, 0x30D4] && Speed()[5..] == [0x30C9, 0x3067];
    BelowShort(Speed()[..4], 12540);
    BelowShort(Speed()[5..], 12540);
  }

  lemma SpeedBasic()
    ensures Basic(Speed()) == ""
  {
  }

  lemma SpeedText()
    ensures Text([12253, 20, 20, 300, 80, 65, 280], 0, 72, true) == "d9juau41awczczp"
  {
    hide Text, Varint, Adapt;
    SpeedDelta1();
    SpeedDelta2();
    SpeedDelta3();
    SpeedDelta4();
    SpeedDelta5();
    SpeedDelta6();
    SpeedDelta7();
    TextCons(12253, [20, 20, 300, 80, 65, 280], 0, 72, true);
    assert [12253] + [20, 20, 300, 80, 65, 280] == [12253, 20, 20, 300, 80, 65, 280];
    TextCons(20, [20, 300, 80, 65, 280], 1, 17, false);
    assert [20] + [20, 300, 80, 65, 280] == [20, 20, 300, 80, 65, 280];
    TextCons(20, [300, 80, 65, 280], 2, 10, false);
    assert [20] + [300, 80, 65, 280] == [20, 300, 80, 65, 280];
    TextCons(300, [80, 65, 280], 3, 9, false);
    assert [300] + [80, 65, 280] == [300, 80, 65, 280];
    TextCons(80, [65, 280], 4, 29, false);
    assert [80] + [65, 280] == [80, 65, 280];
    TextCons(65, [280], 5, 20, false);
    assert [65] + [280] == [65, 280];
    TextCons(280, [], 6, 17, false);
    assert [280] + [] == [280];
    NoText(7, 29, false);
  }

  lemma SpeedDeltas()
    ensures Deltas(Speed()) == [12253, 20, 20, 300, 80, 65, 280]
  {
    hide DeltaRounds, Text;
    SpeedBasic();
    SpeedRound1();
    SpeedRound2();
    SpeedRound3();
    SpeedRound4();
    SpeedRound5();
    SpeedRound6();
    SpeedRound7();
    NothingLeft(Speed(), 12541, 3, 7);
  }

  /** Sample (R), in Japanese. */
  lemma SpeedEncoded()
    ensures Encode(Speed()) == "d9juau41awczczp"
  {
    hide DeltaRounds, Text, Deltas, Basic;
    SpeedBasic();
    SpeedDeltas();
    SpeedText();
  }

  lemma {:induction false} AsciiText(cps: seq<nat>, text: string)
    requires |text| == |cps| && forall i :: 0 <= i < |cps| ==> cps[i] < 0x80 && text[i] == cps[i] as char
    ensures Basic(cps) == text && Remaining(cps, INITIAL_N) == 0
  {
    if cps != [] {
      AsciiText(cps[1..], text[1..]);
    }
  }

  lemma AsciiLabels()
    ensures I.LabelText([0x77, 0x77, 0x77]) == "www" && I.LabelText([0x6A, 0x70]) == "jp"
  {
    AsciiText([0x77, 0x77, 0x77], "www");
    AsciiText([0x6A, 0x70], "jp");
  }

  lemma SpeedLabel()
    ensures I.LabelText(Speed()) == "xn--d9juau41awczczp"
  {
    hide Encode;
    SpeedEncoded();
  }

  /** A host name with that label, between an ideographic and a fullwidth full stop. */
  lemma SpeedHost()
    ensures I.Join(I.Labels([0x77, 0x77, 0x77] + [0x3002] + (Speed() + [0xFF0E] + [0x6A, 0x70])))
         == "www." + ("xn--d9juau41awczczp." + "jp")
  {
    SpeedIsOneLabel();
    hide *;
    AsciiLabels();
    SpeedLabel();
    I.FullStops([0x77, 0x77, 0x77], 0x3002, Speed() + [0xFF0E] + [0x6A, 0x70]);
    I.FullStops(Speed(), 0xFF0E, [0x6A, 0x70]);
    I.FullStops([0x6A, 0x70], 0x2E, []);
    Concats();
  }

  lemma SpeedIsOneLabel()
    ensures forall i :: 0 <= i < |Speed()| ==>
              Speed()[i] != 0x2E && Speed()[i] != 0x3002 && Speed()[i] != 0xFF0E && Speed()[i] != 0xFF61
  {
  }

  lemma Concats()
    ensures "www" + "." == "www." && "xn--d9juau41awczczp" + "." == "xn--d9juau41awczczp."
  {
  }

  // ---------- Sample (L), in Japanese ----------

  function Teacher(): seq<nat> {
    [0x33, 0x5E74, 0x42, 0x7D44, 0x91D1, 0x516B, 0x5148, 0x751F]
  }

  lemma TeacherDelta1()
    ensures Varint(62042, 36, 72) == "ww4c"
    ensures Adapt(62042, 3, true) == 27
  {
    hide Varint, Skew, Adapt;
    VarintIs(62042, 36, 72);
    VarintIs(1772, 72, 72);
    VarintIs(50, 108, 72);
    VarintIs(2, 144, 72);
    AdaptFrom(62042, 3, true);
    SkewFrom(117, 0);
  }

  lemma TeacherDelta2()
    ensures Varint(139, 36, 27) == "5e"
    ensures Adapt(139, 4, false) == 24
  {
    hide Varint, Skew, Adapt;
    VarintIs(139, 36, 27);
    VarintIs(4, 72, 27);
    AdaptFrom(139, 4, false);
    SkewFrom(86, 0);
  }

  lemma TeacherDelta3()
    ensures Varint(16683, 36, 24) == "180e"
    ensures Adapt(16683, 5, false) == 67
  {
    hide Varint, Skew, Adapt;
    VarintIs(16683, 36, 24);
    VarintIs(694, 72, 24);
    VarintIs(66, 108, 24);
    VarintIs(4, 144, 24);
    AdaptFrom(16683, 5, false);
    SkewFrom(10009, 0);
    SkewFrom(285, 36);
  }

  lemma TeacherDelta4()
    ensures Varint(34821, 36, 67) == "575a"
    ensures Adapt(34821, 6, false) == 82
  {
    hide Varint, Skew, Adapt;
    VarintIs(34821, 36, 67);
    VarintIs(994, 72, 67);
    VarintIs(31, 108, 67);
    VarintIs(0, 144, 67);
    AdaptFrom(34821, 6, false);
    SkewFrom(20311, 0);
    SkewFrom(580, 36);
    SkewFrom(16, 72);
  }

  lemma TeacherDelta5()
    ensures Varint(14592, 36, 82) == "65l"
    ensures Adapt(14592, 7, false) == 67
  {
    hide Varint, Skew, Adapt;
    VarintIs(14592, 36, 82);
    VarintIs(416, 72, 82);
    VarintIs(11, 108, 82);
    AdaptFrom(14592, 7, false);
    SkewFrom(8338, 0);
    SkewFrom(238, 36);
  }

  lemma TeacherDelta6()
    ensures Varint(42088, 36, 67) == "sy2b"
    ensures Adapt(42088, 8, false) == 84
  {
    hide Varint, Skew, Adapt;
    VarintIs(42088, 36, 67);
    VarintIs(1202, 72, 67);
    VarintIs(38, 108, 67);
    VarintIs(1, 144, 67);
    AdaptFrom(42088, 8, false);
    SkewFrom(23674, 0);
    SkewFrom(676, 36);
    SkewFrom(19, 72);
  }

  lemma TeacherRound1()
    ensures DeltaRounds(Teacher(), 128, 0, 2) == [62042] + DeltaRounds(Teacher(), 20809, 1, 3)
  {
    hide DeltaRounds;
    Round(Teacher(), 128, 20808, 6, 0, 2);
    assert Teacher()[..6] == [0x33, 0x5E74, 0x42, 0x7D44, 0x91D1, 0x516B] && Teacher()[7..] == [0x751F];
    BelowShort(Teacher()[..6], 20808);
    BelowShort(Teacher()[7..], 20808);
  }

  lemma TeacherRound2()
    ensures DeltaRounds(Teacher(), 20809, 1, 3) == [139] + DeltaRounds(Teacher(), 20844, 2, 4)
  {
    hide DeltaRounds;
    Round(Teacher(), 20809, 20843, 5, 1, 3);
    assert Teacher()[..5] == [0x33, 0x5E74, 0x42, 0x7D44, 0x91D1] && Teacher()[6..] == [0x5148, 0x751F];
    BelowShort(Teacher()[..5], 20843);
    BelowShort(Teacher()[6..], 20843);
  }

  lemma TeacherRound3()
    ensures DeltaRounds(Teacher(), 20844, 2, 4) == [16683] + DeltaRounds(Teacher(), 24181, 4, 5)
  {
    hide DeltaRounds;
    Round(Teacher(), 20844, 24180, 1, 2, 4);
    assert Teacher()[..1] == [0x33] && Teacher()[2..] == [0x42, 0x7D44, 0x91D1, 0x516B, 0x5148, 0x751F];
    BelowShort(Teacher()[..1], 24180);
    BelowShort(Teacher()[2..], 24180);
  }

  lemma TeacherRound4()
    ensures DeltaRounds(Teacher(), 24181, 4, 5) == [34821] + DeltaRounds(Teacher(), 29984, 1, 6)
  {
    hide DeltaRounds;
    Round(Teacher(), 24181, 29983, 7, 4, 5);
    assert Teacher()[..7] == [0x33, 0x5E74, 0x42, 0x7D44, 0x91D1, 0x516B, 0x5148] && Teacher()[8..] == [];
    BelowShort(Teacher()[..7], 29983);
    BelowShort(Teacher()[8..], 29983);
  }

  lemma TeacherRound5()
    ensures DeltaRounds(Teacher(), 29984, 1, 6) == [14592] + DeltaRounds(Teacher(), 32069, 4, 7)
  {
    hide DeltaRounds;
    Round(Teacher(), 29984, 32068, 3, 1, 6);
    assert Teacher()[..3] == [0x33, 0x5E74, 0x42] && Teacher()[4..] == [0x91D1, 0x516B, 0x5148, 0x751F];
    BelowShort(Teacher()[..3], 32068);
    BelowShort(Teacher()[4..], 32068);
  }

  lemma TeacherRound6()
    ensures DeltaRounds(Teacher(), 32069, 4, 7) == [42088] + DeltaRounds(Teacher(), 37330, 4, 8)
  {
    hide DeltaRounds;
    Round(Teacher(), 32069, 37329, 4, 4, 7);
    assert Teacher()[..4] == [0x33, 0x5E74, 0x42, 0x7D44] && Teacher()[5..] == [0x516B, 0x5148, 0x751F];
    BelowShort(Teacher()[..4], 37329);
    BelowShort(Teacher()[5..], 37329);
  }

  lemma TeacherBasic()
    ensures Basic(Teacher()) == "3B"
  {
  }

  lemma TeacherText()
    ensures Text([62042, 139, 16683, 34821, 14592, 42088], 2, 72, true) == "ww4c5e180e575a65lsy2b"
  {
    hide Text, Varint, Adapt;
    TeacherDelta1();
    TeacherDelta2();
    TeacherDelta3();
    TeacherDelta4();
    TeacherDelta5();
    TeacherDelta6();
    TextCons(62042, [139, 16683, 34821, 14592, 42088], 2, 72, true);
    assert [62042] + [139, 16683, 34821, 14592, 42088] == [62042, 139, 16683, 34821, 14592, 42088];
    TextCons(139, [16683, 34821, 14592, 42088], 3, 27, false);
    assert [139] + [16683, 34821, 14592, 42088] == [139, 16683, 34821, 14592, 42088];
    TextCons(16683, [34821, 14592, 42088], 4, 24, false);
    assert [16683] + [34821, 14592, 42088] == [16683, 34821, 14592, 42088];
    TextCons(34821, [14592, 42088], 5, 67, false);
    assert [34821] + [14592, 42088] == [34821, 14592, 42088];
    TextCons(14592, [42088], 6, 82, false);
    assert [14592] + [42088] == [14592, 42088];
    TextCons(42088, [], 7, 67, false);
    assert [42088] + [] == [42088];
    NoText(8, 84, false);
  }

  lemma TeacherDeltas()
    ensures Deltas(Teacher()) == [62042, 139, 16683, 34821, 14592, 42088]
  {
    hide DeltaRounds, Text;
    TeacherBasic();
    TeacherRound1();
    TeacherRound2();
    TeacherRound3();
    TeacherRound4();
    TeacherRound5();
    TeacherRound6();
    NothingLeft(Teacher(), 37330, 4, 8);
  }

  /** Sample (L), in Japanese. */
  lemma TeacherEncoded()
    ensures Encode(Teacher()) == "3B-ww4c5e180e575a65lsy2b"
  {
    hide DeltaRounds, Text, Deltas, Basic;
    TeacherBasic();
    TeacherDeltas();
    TeacherText();
    assert "3B" + [DELIMITER] + "ww4c5e180e575a65lsy2b" == "3B-ww4c5e180e575a65lsy2b";
  }
}
