/** The decoder of RFC 3492 inverts the encoder, for every sequence of code
    points. */
module PunycodeRoundTrip {
  import opened Wrappers
  import opened Division
  import opened Punycode

  /** The code points handled when the round for n has reached position j: those
      below n, and those equal to n before j. In the original order they are what
      the decoder has rebuilt by then. */
  function Handled(cps: seq<nat>, n: nat, j: nat): seq<nat> {
    if cps == [] then []
    else (if cps[0] < n || (cps[0] == n && j > 0) then [cps[0]] else [])
         + Handled(cps[1..], n, if j > 0 then j - 1 else 0)
  }

  /** How many of them stand before position j. */
  function Place(cps: seq<nat>, n: nat, j: nat): nat
    requires j <= |cps|
  {
    if j == 0 then 0 else (if cps[0] <= n then 1 else 0) + Place(cps[1..], n, j - 1)
  }

  lemma {:induction false} PlaceBound(cps: seq<nat>, n: nat, j: nat)
    requires j <= |cps|
    ensures Place(cps, n, j) <= |Handled(cps, n, j)|
  {
    if j > 0 {
      PlaceBound(cps[1..], n, j - 1);
    }
  }

  /** Moving one position on, past a code point that is not the round's. */
  lemma {:induction false} PassOther(cps: seq<nat>, n: nat, j: nat)
    requires j < |cps| && cps[j] != n
    ensures Handled(cps, n, j + 1) == Handled(cps, n, j)
  {
    if j > 0 {
      PassOther(cps[1..], n, j - 1);
    }
  }

  lemma {:induction false} PlaceNext(cps: seq<nat>, n: nat, j: nat)
    requires j < |cps|
    ensures Place(cps, n, j + 1) == Place(cps, n, j) + if cps[j] <= n then 1 else 0
  {
    if j > 0 {
      PlaceNext(cps[1..], n, j - 1);
    }
  }

  lemma HandledBehind(cps: seq<nat>, n: nat, j: nat)
    requires 0 < j <= |cps|
    ensures Handled(cps, n, j) == (if cps[0] <= n then [cps[0]] else []) + Handled(cps[1..], n, j - 1)
    ensures Place(cps, n, j) == (if cps[0] <= n then 1 else 0) + Place(cps[1..], n, j - 1)
  {
  }

  lemma FirstInsertion(cps: seq<nat>, n: nat)
    requires cps != [] && cps[0] == n
    ensures Place(cps, n, 0) == 0 && Handled(cps, n, 1) == [n] + Handled(cps, n, 0)
  {
  }

  predicate Inserted(out: seq<nat>, at: nat, n: nat, out': seq<nat>) {
    at <= |out| && out' == out[..at] + [n] + out[at..]
  }

  lemma InsertFront(out: seq<nat>, n: nat)
    ensures Inserted(out, 0, n, [n] + out)
  {
  }

  lemma InsertBehind(head: seq<nat>, out: seq<nat>, at: nat, n: nat, out': seq<nat>)
    requires Inserted(out, at, n, out')
    ensures Inserted(head + out, |head| + at, n, head + out')
  {
    assert (head + out)[..|head| + at] == head + out[..at];
    assert (head + out)[|head| + at..] == out[at..];
  }

  /** Past a code point of the round: it is inserted at the counted place. */
  lemma {:induction false} PassInsertion(cps: seq<nat>, n: nat, j: nat)
    requires j < |cps| && cps[j] == n
    ensures Inserted(Handled(cps, n, j), Place(cps, n, j), n, Handled(cps, n, j + 1))
  {
    hide *;
    if j == 0 {
      FirstInsertion(cps, n);
      InsertFront(Handled(cps, n, 0), n);
    } else {
      PassInsertion(cps[1..], n, j - 1);
      var head := if cps[0] <= n then [cps[0]] else [];
      HandledBehind(cps, n, j);
      HandledBehind(cps, n, j + 1);
      InsertBehind(head, Handled(cps[1..], n, j - 1), Place(cps[1..], n, j - 1), n, Handled(cps[1..], n, j));
    }
  }

  /** At the end of a round everything up to n is handled. */
  lemma {:induction false} EndOfRound(cps: seq<nat>, n: nat)
    ensures Handled(cps, n, |cps|) == Handled(cps, n + 1, 0)
    ensures Place(cps, n, |cps|) == |Handled(cps, n, |cps|)|
  {
    if cps != [] {
      EndOfRound(cps[1..], n);
    }
  }

  /** Nothing changes up to the next code point present. */
  lemma {:induction false} SkipAbsent(cps: seq<nat>, n: nat, m: nat)
    requires n <= m && forall c :: c in cps && c >= n ==> m <= c
    ensures Handled(cps, n, 0) == Handled(cps, m, 0)
  {
    if cps != [] {
      assert cps[0] in cps && forall c :: c in cps[1..] ==> c in cps;
      SkipAbsent(cps[1..], n, m);
    }
  }

  lemma {:induction false} AllHandled(cps: seq<nat>, n: nat)
    requires forall c :: c in cps ==> c < n
    ensures Handled(cps, n, 0) == cps
  {
    if cps != [] {
      assert cps[0] in cps && forall c :: c in cps[1..] ==> c in cps;
      AllHandled(cps[1..], n);
      assert cps == [cps[0]] + cps[1..];
    }
  }

  /** The encoder's delta is the distance the decoder still has to cover: from its
      state (dn, di) to the pair of code point and place the encoder has reached. */
  ghost predicate InStep(n: nat, place: nat, delta: nat, h: nat, first: bool, dn: nat, di: nat) {
    && INITIAL_N <= dn <= n && di <= h
    && di + delta == Times(n - dn, h + 1) + place
    && (first <==> di == 0)
  }

  lemma AfterInsertion(n: nat, place: nat, h: nat)
    requires INITIAL_N <= n && place <= h
    ensures InStep(n, place + 1, 0, h + 1, false, n, place + 1)
  {
  }

  lemma NextCodePointInStep(n: nat, delta: nat, h: nat, first: bool, dn: nat, di: nat)
    requires InStep(n, h, delta, h, first, dn, di)
    ensures InStep(n + 1, 0, delta + 1, h, first, dn, di)
  {
    TimesSplits(1, n - dn, h + 1);
  }

  lemma NextRoundInStep(n: nat, m: nat, delta: nat, h: nat, first: bool, dn: nat, di: nat)
    requires InStep(n, 0, delta, h, first, dn, di) && n <= m
    ensures InStep(m, 0, delta + Times(m - n, h + 1), h, first, dn, di)
  {
    TimesSplits(m - n, n - dn, h + 1);
  }

  /** One insertion: decoding the encoder's delta puts the decoder at its code
      point and place. */
  lemma Lands(n: nat, place: nat, delta: nat, h: nat, first: bool, dn: nat, di: nat)
    requires InStep(n, place, delta, h, first, dn, di) && place <= h
    ensures Quotient(di + delta, h + 1) == n - dn && Remainder(di + delta, h + 1) == place
  {
    TimesIsProduct(n - dn, h + 1);
    DivModUnique(di + delta, h + 1, n - dn, place);
    QuotientIsDivision(di + delta, h + 1);
  }

  /** What a list of deltas builds, read as the decoder reads it. */
  function InsertAll(deltas: seq<nat>, st: Decoder): seq<nat> {
    if deltas == [] then st.output else InsertAll(deltas[1..], Insert(st, st.i + deltas[0]))
  }

  lemma InsertOne(n: nat, place: nat, delta: nat, st: Decoder)
    requires InStep(n, place, delta, |st.output|, st.i == 0, st.n, st.i) && place <= |st.output|
    ensures var st' := Insert(st, st.i + delta);
            && st'.n == n && st'.i == place + 1
            && st'.output == st.output[..place] + [n] + st.output[place..]
  {
    Lands(n, place, delta, |st.output|, st.i == 0, st.n, st.i);
  }

  /** From any point of the encoder's run, the deltas it still emits turn what the
      decoder has so far into the whole input. */
  lemma {:induction false} DeltasRebuild(cps: seq<nat>, n: nat, j: nat, delta: nat, st: Decoder)
    requires j <= |cps| && st.output == Handled(cps, n, j)
    requires InStep(n, Place(cps, n, j), delta, |st.output|, st.i == 0, st.n, st.i)
    ensures InsertAll(DeltasFrom(cps, n, j, delta, |st.output|), st) == cps
    decreases Remaining(cps, n + 1), 1, |cps| - j
  {
    hide Insert, Handled, Place;
    PlaceBound(cps, n, j);
    if j == |cps| {
      EndOfRound(cps, n);
      NextCodePointInStep(n, delta, |st.output|, st.i == 0, st.n, st.i);
      RoundsRebuild(cps, n + 1, delta + 1, st);
    } else if cps[j] != n {
      PassOther(cps, n, j);
      PlaceNext(cps, n, j);
      DeltasRebuild(cps, n, j + 1, if cps[j] < n then delta + 1 else delta, st);
    } else {
      InsertionRebuilds(cps, n, j, delta, st);
    }
  }

  lemma {:induction false} InsertionRebuilds(cps: seq<nat>, n: nat, j: nat, delta: nat, st: Decoder)
    requires j < |cps| && cps[j] == n && st.output == Handled(cps, n, j)
    requires InStep(n, Place(cps, n, j), delta, |st.output|, st.i == 0, st.n, st.i)
    ensures InsertAll(DeltasFrom(cps, n, j, delta, |st.output|), st) == cps
    decreases Remaining(cps, n + 1), 1, |cps| - j, 0
  {
    hide Times, Quotient, Remainder, Skew, Handled, Place;
    var at, h := Place(cps, n, j), |st.output|;
    PassInsertion(cps, n, j);
    PlaceNext(cps, n, j);
    AfterInsertion(n, at, h);
    InsertOne(n, at, delta, st);
    var st' := Insert(st, st.i + delta);
    DeltasRebuild(cps, n, j + 1, 0, st');
    assert DeltasFrom(cps, n, j, delta, h)[1..] == DeltasFrom(cps, n, j + 1, 0, h + 1);
  }

  lemma {:induction false} RoundsRebuild(cps: seq<nat>, n: nat, delta: nat, st: Decoder)
    requires st.output == Handled(cps, n, 0)
    requires InStep(n, 0, delta, |st.output|, st.i == 0, st.n, st.i)
    ensures InsertAll(DeltaRounds(cps, n, delta, |st.output|), st) == cps
    decreases Remaining(cps, n), 0, 0
  {
    hide InStep, Insert, Handled, Times;
    if Remaining(cps, n) == 0 {
      NoneRemaining(cps, n);
      AllHandled(cps, n);
    } else {
      var m := LeastFrom(cps, n);
      RemainingShrinks(cps, n, m + 1);
      SkipAbsent(cps, n, m);
      NextRoundInStep(n, m, delta, |st.output|, st.i == 0, st.n, st.i);
      DeltasRebuild(cps, m, 0, delta + Times(m - n, |st.output| + 1), st);
    }
  }

  /** Decoding the text of a list of deltas makes the same insertions: the bias
      adapts alike on both sides. */
  lemma {:induction false} TextDecodes(deltas: seq<nat>, st: Decoder)
    requires st.n >= INITIAL_N
    ensures DecodeInsertions(Text(deltas, |st.output|, st.bias, st.i == 0), st) == Some(InsertAll(deltas, st))
  {
    hide Insert, DecodeInsertions, Text;
    if deltas == [] {
      NoText(st);
    } else {
      InsertMovesOn(st, st.i + deltas[0]);
      ReadDelta(deltas, st);
      TextDecodes(deltas[1..], Insert(st, st.i + deltas[0]));
    }
  }

  lemma NoText(st: Decoder)
    ensures DecodeInsertions(Text([], |st.output|, st.bias, st.i == 0), st) == Some(st.output)
  {
  }

  lemma InsertMovesOn(st: Decoder, i': nat)
    requires i' >= st.i
    ensures var st' := Insert(st, i');
            st'.n >= st.n && st'.i > 0 && |st'.output| == |st.output| + 1
            && st'.bias == Adapt(i' - st.i, |st.output| + 1, st.i == 0)
  {
  }

  lemma ReadDelta(deltas: seq<nat>, st: Decoder)
    requires st.n >= INITIAL_N && deltas != []
    ensures var st' := Insert(st, st.i + deltas[0]);
            DecodeInsertions(Text(deltas, |st.output|, st.bias, st.i == 0), st)
            == DecodeInsertions(Text(deltas[1..], |st'.output|, st'.bias, st'.i == 0), st')
  {
    hide Insert, Varint, DecodeVarint, Times, Adapt;
    var st' := Insert(st, st.i + deltas[0]);
    InsertMovesOn(st, st.i + deltas[0]);
    var rest := Text(deltas[1..], |st'.output|, st'.bias, false);
    VarintRoundTrip(deltas[0], 36, st.bias, st.i, 1, rest);
    VarintNotEmpty(deltas[0], 36, st.bias);
    TimesIsProduct(deltas[0], 1);
    assert Text(deltas, |st.output|, st.bias, st.i == 0) == Varint(deltas[0], 36, st.bias) + rest;
  }

  // ---------- Whole labels ----------

  lemma {:induction false} BasicIsBasic(cps: seq<nat>)
    ensures forall i :: 0 <= i < |Basic(cps)| ==> Basic(cps)[i] as nat < INITIAL_N
  {
    if cps != [] {
      BasicIsBasic(cps[1..]);
    }
  }

  lemma {:induction false} BasicHandled(cps: seq<nat>)
    ensures CodePoints(Basic(cps)) == Handled(cps, INITIAL_N, 0)
  {
    if cps != [] {
      BasicHandled(cps[1..]);
      assert CodePoints(Basic(cps))
          == (if cps[0] < INITIAL_N then [cps[0]] else []) + CodePoints(Basic(cps[1..]));
    }
  }

  lemma {:induction false} TextIsDigits(deltas: seq<nat>, h: nat, bias: nat, first: bool)
    ensures Digits(Text(deltas, h, bias, first))
  {
    if deltas != [] {
      VarintIsDigits(deltas[0], 36, bias);
      TextIsDigits(deltas[1..], h + 1, Adapt(deltas[0], h + 1, first), false);
    }
  }

  lemma {:induction false} LastDelimiterFound(s: string, t: string)
    requires DELIMITER !in t
    ensures LastDelimiter(s + [DELIMITER] + t) == |s|
    ensures LastDelimiter(t) == 0
  {
    var u := s + [DELIMITER] + t;
    if t != "" {
      var t' := t[..|t| - 1];
      assert t[|t| - 1] in t && DELIMITER !in t';
      assert u[..|u| - 1] == s + [DELIMITER] + t';
      LastDelimiterFound(s, t');
    }
  }

  lemma EncodeSplits(cps: seq<nat>)
    ensures var basic, text, e := Basic(cps), Insertions(cps), Encode(cps);
            && LastDelimiter(e) == |basic|
            && e[..|basic|] == basic && (forall i :: 0 <= i < |basic| ==> e[i] == basic[i])
            && (if |basic| > 0 then e[|basic| + 1..] else e) == text
  {
    var basic, text := Basic(cps), Insertions(cps);
    TextIsDigits(Deltas(cps), |basic|, INITIAL_BIAS, true);
    LastDelimiterFound(basic, text);
    assert basic != "" ==> Encode(cps) == basic + [DELIMITER] + text;
    assert basic == "" ==> Encode(cps) == text;
  }

  lemma InsertionsDecode(cps: seq<nat>)
    ensures DecodeInsertions(Insertions(cps), Start(CodePoints(Basic(cps)))) == Some(cps)
  {
    BasicHandled(cps);
    var st := Start(CodePoints(Basic(cps)));
    TextDecodes(Deltas(cps), st);
    RoundsRebuild(cps, INITIAL_N, 0, st);
  }

  /** Decoding inverts encoding, with no bound on the deltas. */
  lemma RoundTrip(cps: seq<nat>)
    ensures Decode(Encode(cps)) == Some(cps)
  {
    var e, b := Encode(cps), |Basic(cps)|;
    EncodeSplits(cps);
    InsertionsDecode(cps);
    BasicIsBasic(cps);
    DecodeParts(e, b, Basic(cps), Insertions(cps));
  }

  lemma DecodeParts(e: string, b: nat, basic: string, text: string)
    requires LastDelimiter(e) == b == |basic| && e[..b] == basic && (if b > 0 then e[b + 1..] else e) == text
    requires forall i :: 0 <= i < b ==> e[i] == basic[i] && basic[i] as nat < INITIAL_N
    ensures Decode(e) == DecodeInsertions(text, Start(CodePoints(basic)))
  {
  }

  /** Different labels have different encodings. */
  lemma EncodeInjective(a: seq<nat>, b: seq<nat>)
    requires Encode(a) == Encode(b)
    ensures a == b
  {
    RoundTrip(a);
    RoundTrip(b);
  }
}
