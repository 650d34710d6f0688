/** Punycode as RFC 3492 defines it, over unbounded integers: bias adaptation
    (section 6.1), the decoder (section 6.2), and the encoder (section 6.3) in the
    form of what it still has to emit from a given point on. */
module Punycode {
  import opened Wrappers
  import opened Division

  const INITIAL_N: nat := 128
  const INITIAL_BIAS: nat := 72
  const DELIMITER: char := '-'
  const LIMIT: nat := 0x1_0000_0000

  // ---------- Digits ----------

  function EncodeDigit(v: nat): char
    requires v < 36
  {
    if v < 26 then 'a' + v as char else '0' + (v - 26) as char
  }

  function DecodeDigit(c: char): Option<nat> {
    if 'a' <= c <= 'z' then Some((c - 'a') as nat)
    else if 'A' <= c <= 'Z' then Some((c - 'A') as nat)
    else if '0' <= c <= '9' then Some((c - '0') as nat + 26)
    else None
  }

  lemma DigitRoundTrip(v: nat)
    requires v < 36
    ensures DecodeDigit(EncodeDigit(v)) == Some(v) && EncodeDigit(v) != DELIMITER
  {
  }

  // ---------- Division ----------

  /** Division by counting, like multiplication by adding below, keeps the recursive
      definitions linear for the verifier. */
  function Quotient(x: nat, y: nat): (q: nat)
    requires y > 0
    ensures q <= x
  {
    if x < y then 0 else 1 + Quotient(x - y, y)
  }

  function Remainder(x: nat, y: nat): (r: nat)
    requires y > 0
    ensures r < y
  {
    if x < y then x else Remainder(x - y, y)
  }

  lemma {:induction false} QuotientIsDivision(x: nat, y: nat)
    requires y > 0
    ensures Quotient(x, y) == x / y && Remainder(x, y) == x % y
    ensures x == y * Quotient(x, y) + Remainder(x, y)
  {
    if x < y {
      DivModUnique(x, y, 0, x);
    } else {
      QuotientIsDivision(x - y, y);
      assert x == y * (Quotient(x - y, y) + 1) + Remainder(x - y, y);
      DivModUnique(x, y, Quotient(x, y), Remainder(x, y));
    }
  }

  /** a rounds of b steps each. */
  function Times(a: nat, b: nat): nat {
    if a == 0 then 0 else b + Times(a - 1, b)
  }

  lemma {:induction false} TimesIsProduct(a: nat, b: nat)
    ensures Times(a, b) == a * b
  {
    if a > 0 {
      TimesIsProduct(a - 1, b);
    }
  }

  lemma {:induction false} TimesSplits(a: nat, c: nat, b: nat)
    ensures Times(a + c, b) == Times(a, b) + Times(c, b)
  {
    if a > 0 {
      TimesSplits(a - 1, c, b);
    }
  }

  // ---------- Generalized variable-length integers ----------

  /** The threshold t at digit position k. */
  function Threshold(k: nat, bias: nat): (t: nat)
    ensures 1 <= t <= 26
  {
    if k <= bias then 1 else if k >= bias + 26 then 26 else k - bias
  }

  function Varint(q: nat, k: nat, bias: nat): string
    decreases q
  {
    var t := Threshold(k, bias);
    if q < t then [EncodeDigit(q)]
    else [EncodeDigit(t + Remainder(q - t, 36 - t))] + Varint(Quotient(q - t, 36 - t), k + 36, bias)
  }

  datatype Parsed = Parsed(i: nat, rest: string)

  /** The inner loop of the decoder: accumulate digits with weight w into i. */
  function DecodeVarint(input: string, i: nat, w: nat, k: nat, bias: nat): (r: Option<Parsed>)
    ensures r.Some? ==> |r.value.rest| < |input| && r.value.i >= i
  {
    if input == [] then None
    else
      var digit := DecodeDigit(input[0]);
      if digit.None? then None
      else
        var t := Threshold(k, bias);
        var i' := i + Times(digit.value, w);
        if digit.value < t then Some(Parsed(i', input[1..]))
        else DecodeVarint(input[1..], i', Times(36 - t, w), k + 36, bias)
  }

  lemma MulLaws(a: int, b: int, c: int)
    ensures (a + b) * c == a * c + b * c && (a * b) * c == a * (b * c) && a * b == b * a
  {
  }

  lemma Distribute(q: nat, t: nat, y: nat, q': nat, digit: nat, w: nat)
    requires digit >= t && q - t == y * q' + (digit - t)
    ensures Times(digit, w) + Times(q', Times(y, w)) == Times(q, w)
  {
    TimesIsProduct(digit, w);
    TimesIsProduct(y, w);
    TimesIsProduct(q', Times(y, w));
    TimesIsProduct(q, w);
    DistributeProduct(q, t, y, q', digit, w);
  }

  lemma DistributeProduct(q: nat, t: nat, y: nat, q': nat, digit: nat, w: nat)
    requires digit >= t && q - t == y * q' + (digit - t)
    ensures digit * w + q' * (y * w) == q * w
  {
    MulLaws(digit, y * q', w);
    MulLaws(q', y, w);
  }

  /** The first digit of a number at or above the threshold, and what is left. */
  lemma VarintStep(q: nat, k: nat, bias: nat) returns (digit: nat, q': nat)
    requires q >= Threshold(k, bias)
    ensures var t := Threshold(k, bias);
            && t <= digit < 36 && q' < q
            && q - t == (36 - t) * q' + (digit - t)
            && Varint(q, k, bias) == [EncodeDigit(digit)] + Varint(q', k + 36, bias)
            && DecodeDigit(EncodeDigit(digit)) == Some(digit)
  {
    var t := Threshold(k, bias);
    digit, q' := t + Remainder(q - t, 36 - t), Quotient(q - t, 36 - t);
    QuotientIsDivision(q - t, 36 - t);
    DigitRoundTrip(digit);
  }

  lemma ReadDigit(s: string, i: nat, w: nat, k: nat, bias: nat, digit: nat)
    requires s != [] && DecodeDigit(s[0]) == Some(digit) && digit >= Threshold(k, bias)
    ensures DecodeVarint(s, i, w, k, bias)
            == DecodeVarint(s[1..], i + Times(digit, w), Times(36 - Threshold(k, bias), w), k + 36, bias)
  {
  }

  /** Decoding what was encoded adds exactly the encoded number, at any weight, and
      consumes exactly its digits. */
  lemma {:induction false} VarintRoundTrip(q: nat, k: nat, bias: nat, i: nat, w: nat, rest: string)
    ensures DecodeVarint(Varint(q, k, bias) + rest, i, w, k, bias) == Some(Parsed(i + Times(q, w), rest))
    decreases q
  {
    hide Times, Varint, DecodeVarint;
    var t := Threshold(k, bias);
    if q < t {
      LastDigit(q, k, bias, i, w, rest);
    } else {
      var digit, q' := VarintStep(q, k, bias);
      var s, s' := Varint(q, k, bias) + rest, Varint(q', k + 36, bias) + rest;
      assert s[0] == EncodeDigit(digit) && s[1..] == s';
      ReadDigit(s, i, w, k, bias, digit);
      VarintRoundTrip(q', k + 36, bias, i + Times(digit, w), Times(36 - t, w), rest);
      Distribute(q, t, 36 - t, q', digit, w);
    }
  }

  lemma LastDigit(q: nat, k: nat, bias: nat, i: nat, w: nat, rest: string)
    requires q < Threshold(k, bias)
    ensures DecodeVarint(Varint(q, k, bias) + rest, i, w, k, bias) == Some(Parsed(i + Times(q, w), rest))
  {
    hide Times;
    DigitRoundTrip(q);
    assert (Varint(q, k, bias) + rest)[1..] == rest;
  }

  lemma VarintNotEmpty(q: nat, k: nat, bias: nat)
    ensures Varint(q, k, bias) != ""
  {
  }

  predicate Digits(s: string) {
    forall c :: c in s ==> DecodeDigit(c).Some?
  }

  lemma {:induction false} VarintIsDigits(q: nat, k: nat, bias: nat)
    ensures Digits(Varint(q, k, bias))
    decreases q
  {
    if q < Threshold(k, bias) {
      DigitRoundTrip(q);
    } else {
      var _, q' := VarintStep(q, k, bias);
      VarintIsDigits(q', k + 36, bias);
    }
  }

  // ---------- Bias adaptation ----------

  function Skew(delta: nat, k: nat): nat {
    if delta > 455 then Skew(delta / 35, k + 36) else k + Quotient(36 * delta, delta + 38)
  }

  function Adapt(delta: nat, numPoints: nat, first: bool): nat
    requires numPoints > 0
  {
    var d := if first then delta / 700 else delta / 2;
    Skew(d + Quotient(d, numPoints), 0)
  }

  function Pow35(k: nat): (p: nat)
    ensures p > 0
  {
    if k == 0 then 1 else 35 * Pow35(k - 1)
  }

  /** What bias adaptation computes: the delta, damped by 700 for the first and halved
      afterwards, and increased by its share of the code points, is divided by 35 until it
      is at most 455, k times, which leaves x. */
  ghost predicate IsBias(bias: nat, delta: nat, numPoints: nat, first: bool, k: nat, x: nat)
    requires numPoints > 0
  {
    var d := if first then delta / 700 else delta / 2;
    var skewed := d + d / numPoints;
    && x == skewed / Pow35(k) && x <= 455
    && (k > 0 ==> skewed / Pow35(k - 1) > 455)
    && bias == 36 * k + (36 * x) / (x + 38)
  }

  lemma {:induction false} SkewIs(delta: nat, bias: nat) returns (k: nat, x: nat)
    ensures x == delta / Pow35(k) && x <= 455 && (k > 0 ==> delta / Pow35(k - 1) > 455)
    ensures Skew(delta, bias) == bias + 36 * k + (36 * x) / (x + 38)
    decreases delta
  {
    if delta > 455 {
      k, x := SkewIs(delta / 35, bias + 36);
      DivideAgain(delta, 35, Pow35(k));
      if k > 0 {
        DivideAgain(delta, 35, Pow35(k - 1));
      }
      k := k + 1;
    } else {
      k, x := 0, delta;
      QuotientIsDivision(36 * delta, delta + 38);
    }
  }

  lemma AdaptIs(delta: nat, numPoints: nat, first: bool)
    requires numPoints > 0
    ensures exists k: nat, x: nat :: IsBias(Adapt(delta, numPoints, first), delta, numPoints, first, k, x)
  {
    var d := if first then delta / 700 else delta / 2;
    QuotientIsDivision(d, numPoints);
    hide Quotient, Skew, Pow35;
    var k, x := SkewIs(d + d / numPoints, 0);
    assert IsBias(Adapt(delta, numPoints, first), delta, numPoints, first, k, x);
  }

  // ---------- The decoder ----------

  /** The variables of the decoder's main loop. */
  datatype Decoder = Decoder(n: nat, i: nat, bias: nat, output: seq<nat>)

  /** One turn of the loop, once i has become i'. */
  function Insert(st: Decoder, i': nat): Decoder
    requires i' >= st.i
  {
    var len := |st.output| + 1;
    var n', at := st.n + Quotient(i', len), Remainder(i', len);
    Decoder(n', at + 1, Adapt(i' - st.i, len, st.i == 0), st.output[..at] + [n'] + st.output[at..])
  }

  function DecodeInsertions(input: string, st: Decoder): Option<seq<nat>>
    decreases |input|
  {
    if input == [] then Some(st.output)
    else
      var r := DecodeVarint(input, st.i, 1, 36, st.bias);
      if r.None? then None
      else
        var st' := Insert(st, r.value.i);
        if st'.n < INITIAL_N then None else DecodeInsertions(r.value.rest, st')
  }

  /** The position of the last delimiter; 0 also when there is none. */
  function LastDelimiter(input: string): (b: nat)
    ensures b <= |input|
    ensures b > 0 ==> b < |input| && input[b] == DELIMITER
  {
    if input == [] then 0
    else if input[|input| - 1] == DELIMITER then |input| - 1
    else LastDelimiter(input[..|input| - 1])
  }

  function CodePoints(s: string): seq<nat> {
    seq(|s|, i requires 0 <= i < |s| => s[i] as nat)
  }

  function Start(basic: seq<nat>): Decoder {
    Decoder(INITIAL_N, 0, INITIAL_BIAS, basic)
  }

  function Decode(input: string): Option<seq<nat>> {
    var b := LastDelimiter(input);
    if exists i :: 0 <= i < b && input[i] as nat >= INITIAL_N then None
    else DecodeInsertions(if b > 0 then input[b + 1..] else input, Start(CodePoints(input[..b])))
  }

  // ---------- The encoder ----------

  /** How many code points are still to be handled. */
  function Remaining(cps: seq<nat>, n: nat): nat {
    if cps == [] then 0 else (if cps[0] >= n then 1 else 0) + Remaining(cps[1..], n)
  }

  /** The least code point that is at least n. */
  function LeastFrom(cps: seq<nat>, n: nat): (m: nat)
    requires Remaining(cps, n) > 0
    ensures m >= n && m in cps
    ensures forall c :: c in cps && c >= n ==> m <= c
  {
    assert cps == [cps[0]] + cps[1..];
    if Remaining(cps[1..], n) == 0 then
      NoneRemaining(cps[1..], n);
      cps[0]
    else
      var m := LeastFrom(cps[1..], n);
      if n <= cps[0] < m then cps[0] else m
  }

  lemma {:induction false} NoneRemaining(cps: seq<nat>, n: nat)
    ensures Remaining(cps, n) == 0 <==> forall c :: c in cps ==> c < n
  {
    if cps != [] {
      NoneRemaining(cps[1..], n);
      assert cps == [cps[0]] + cps[1..];
      assert forall c :: c in cps[1..] ==> c in cps;
      assert cps[0] in cps;
    }
  }

  lemma {:induction false} RemainingShrinks(cps: seq<nat>, n: nat, m: nat)
    requires n <= m
    ensures Remaining(cps, m) <= Remaining(cps, n)
    ensures (exists c :: c in cps && n <= c < m) ==> Remaining(cps, m) < Remaining(cps, n)
  {
    if cps != [] {
      RemainingShrinks(cps[1..], n, m);
      assert forall c :: c in cps <==> c == cps[0] || c in cps[1..];
    }
  }

  /** The deltas the encoder still has to emit from position j of the round for code
      point n, with h code points handled. */
  function DeltasFrom(cps: seq<nat>, n: nat, j: nat, delta: nat, h: nat): seq<nat>
    requires j <= |cps|
    decreases Remaining(cps, n + 1), 1, |cps| - j
  {
    if j == |cps| then DeltaRounds(cps, n + 1, delta + 1, h)
    else if cps[j] < n then DeltasFrom(cps, n, j + 1, delta + 1, h)
    else if cps[j] > n then DeltasFrom(cps, n, j + 1, delta, h)
    else [delta] + DeltasFrom(cps, n, j + 1, 0, h + 1)
  }

  /** The same from the start of a round. */
  function DeltaRounds(cps: seq<nat>, n: nat, delta: nat, h: nat): seq<nat>
    decreases Remaining(cps, n), 0, 0
  {
    if Remaining(cps, n) == 0 then []
    else
      var m := LeastFrom(cps, n);
      RemainingShrinks(cps, n, m + 1);
      DeltasFrom(cps, m, 0, delta + Times(m - n, h + 1), h)
  }

  /** The text of a list of deltas: the bias adapts after each. */
  function Text(deltas: seq<nat>, h: nat, bias: nat, first: bool): string {
    if deltas == [] then ""
    else Varint(deltas[0], 36, bias) + Text(deltas[1..], h + 1, Adapt(deltas[0], h + 1, first), false)
  }

  function Basic(cps: seq<nat>): string {
    if cps == [] then []
    else (if cps[0] < INITIAL_N then [cps[0] as char] else []) + Basic(cps[1..])
  }

  function Deltas(cps: seq<nat>): seq<nat> {
    DeltaRounds(cps, INITIAL_N, 0, |Basic(cps)|)
  }

  function Insertions(cps: seq<nat>): string {
    Text(Deltas(cps), |Basic(cps)|, INITIAL_BIAS, true)
  }

  /** The whole encoding: the basic code points, the delimiter if there are any,
      and the insertions. */
  function Encode(cps: seq<nat>): string {
    Basic(cps) + (if Basic(cps) != [] then [DELIMITER] else []) + Insertions(cps)
  }
}
