/** libuv's IDNA encoder: uv__idna_toascii_label and uv__idna_toascii over decoded
    code points, in 32-bit unsigned arithmetic and with an output buffer that
    silently stops growing when it is full. */
module Idna {
  import opened Wrappers
  import opened Division
  import opened Punycode
  import opened PunycodeRoundTrip

  const INVALID: nat := 0xFFFF_FFFF  // what uv__utf8_decode1 returns for malformed input
  const MAX_CODE_POINT: nat := 0x10_FFFF
  const UV_EINVAL: int := -22
  const UV_E2BIG: int := -7

  /** An unsigned 32-bit result. */
  function U32(x: int): (r: nat)
    ensures r < LIMIT && (0 <= x < LIMIT ==> r == x)
  {
    x % LIMIT
  }

  /** The complement ~x. */
  function Not32(x: nat): nat
    requires x < LIMIT
  {
    LIMIT - 1 - x
  }

  predicate Decoded(cps: seq<nat>) {
    forall c :: c in cps ==> c <= MAX_CODE_POINT || c == INVALID
  }

  // ---------- The output buffer ----------

  /** The pair (*d, de) together with all that was ever written to it, whether it
      fitted or not. */
  class Output {
    const buf: array<char>
    const start: nat
    const de: nat
    var d: nat
    ghost var text: string

    constructor (buf: array<char>, d: nat, de: nat)
      requires d <= de <= buf.Length
      ensures this.buf == buf && start == d && this.de == de && this.d == d && text == "" && Valid()
    {
      this.buf, start, this.de, this.d, text := buf, d, de, d, "";
    }

    ghost predicate Valid()
      reads this, buf
    {
      && start <= d <= de <= buf.Length
      && d - start == (if |text| <= de - start then |text| else de - start)
      && buf[start..d] == text[..d - start]
    }

    /** A character is stored if there is room, and is otherwise lost silently. */
    method Put(ch: char)
      requires Valid()
      modifies this`d, this`text, buf
      ensures Valid() && text == old(text) + [ch]
      ensures forall k :: 0 <= k < buf.Length && !(start <= k < de) ==> buf[k] == old(buf[k])
    {
      ghost var before := buf[start..d];
      if d < de {
        buf[d] := ch;
        assert buf[start..d] == before;
        assert buf[start..d + 1] == before + [ch];
        d := d + 1;
      }
      text := text + [ch];
    }
  }

  // ---------- Digits and bias ----------

  /** Decimal length, an upper bound on how often a number can be divided by 10. */
  function Length(q: nat): nat {
    if q == 0 then 0 else 1 + Length(q / 10)
  }

  lemma {:induction false} LengthMonotone(a: nat, b: nat)
    requires a <= b
    ensures Length(a) <= Length(b)
  {
    if a > 0 {
      LengthMonotone(a / 10, b / 10);
    }
  }

  lemma {:induction false} LengthBound(q: nat, k: nat, p: nat)
    requires q < p && (p == 1 ==> k == 0) && (p > 1 ==> p % 10 == 0 && k > 0)
    requires k > 0 ==> PowerOfTen(p, k)
    ensures Length(q) <= k
    decreases k
  {
    if k > 0 {
      LengthBound(q / 10, k - 1, p / 10);
    }
  }

  predicate PowerOfTen(p: nat, k: nat) {
    if k == 0 then p == 1 else p > 1 && p % 10 == 0 && PowerOfTen(p / 10, k - 1)
  }

  lemma Length32(q: nat)
    requires q < LIMIT
    ensures Length(q) <= 10
  {
    LengthBound(q, 10, 10_000_000_000);
  }

  lemma {:induction false} QuotientAtMost(x: nat, y: nat)
    requires y >= 10
    ensures 10 * Quotient(x, y) <= x
  {
    if x >= y {
      QuotientAtMost(x - y, y);
    }
  }

  lemma QuotientShortens(x: nat, y: nat, q: nat)
    requires y >= 10 && x < q
    ensures Length(Quotient(x, y)) < Length(q)
  {
    QuotientAtMost(x, y);
    LengthMonotone(Quotient(x, y), q / 10);
  }

  lemma UnfoldVarint(q: nat, k: nat, bias: nat)
    requires q >= Threshold(k, bias)
    ensures var t := Threshold(k, bias);
            Varint(q, k, bias) == [EncodeDigit(t + Remainder(q - t, 36 - t))] + Varint(Quotient(q - t, 36 - t), k + 36, bias)
  {
  }

  method Divide(x: nat, y: nat) returns (quotient: nat, remainder: nat)
    requires y > 0
    ensures quotient == Quotient(x, y) && remainder == Remainder(x, y)
  {
    QuotientIsDivision(x, y);
    quotient, remainder := x / y, x % y;
  }

  lemma ShortVarint(q: nat, k: nat, bias: nat)
    requires q < Threshold(k, bias)
    ensures Varint(q, k, bias) == [EncodeDigit(q)]
  {
  }

  /** The body of the digit loop up to its output: whether to go on, the digit to
      write and the number left. */
  method NextDigit(q: nat, k: nat, bias: nat) returns (more: bool, digit: nat, q': nat)
    requires q < LIMIT && k < LIMIT
    ensures if more
            then digit < 36 && q' < q && Length(q') < Length(q)
                 && Varint(q, k, bias) == [EncodeDigit(digit)] + Varint(q', k + 36, bias)
            else digit == q < 36 && Varint(q, k, bias) == [EncodeDigit(digit)]
  {
    var t: nat := 1;
    if k > bias {
      t := U32(k - bias);
    }
    if t > 26 {
      t := 26;
    }
    assert t == Threshold(k, bias);
    hide Varint, Length, Threshold, Quotient, Remainder;
    if q < t {
      ShortVarint(q, k, bias);
      return false, q, q;
    }
    var x, y := U32(q - t), U32(36 - t);
    QuotientShortens(x, y, q);
    UnfoldVarint(q, k, bias);
    var quotient, remainder := Divide(x, y);
    return true, U32(t + remainder), quotient;
  }

  /** The digit loop: writes delta as a variable-length integer, from position 36 on. */
  method EmitVarint(delta: nat, bias: nat, out: Output)
    requires out.Valid() && delta < LIMIT
    modifies out`d, out`text, out.buf
    ensures out.Valid() && out.text == old(out.text) + Varint(delta, 36, bias)
    ensures forall i :: 0 <= i < out.buf.Length && !(out.start <= i < out.de) ==> out.buf[i] == old(out.buf[i])
  {
    hide Varint, Length;
    var k: nat, q: nat := 36, delta;
    Length32(delta);
    while true
      invariant out.Valid() && q < LIMIT && k + 36 * Length(q) <= 36 + 36 * 10
      invariant out.text + Varint(q, k, bias) == old(out.text) + Varint(delta, 36, bias)
      invariant forall i :: 0 <= i < out.buf.Length && !(out.start <= i < out.de) ==> out.buf[i] == old(out.buf[i])
      decreases q
    {
      var more, digit, q' := NextDigit(q, k, bias);
      out.Put(EncodeDigit(digit));
      if !more {
        break;
      }
      q := q';
      k := U32(k + 36);
    }
  }

  lemma HalfTwice(d: nat)
    ensures (d / 2) / 350 == d / 700
  {
  }

  /** Bias adaptation after an insertion, h being the new number of code points;
      the addition of delta / h needs no overflow check. */
  method AdaptBias(delta0: nat, h: nat, first: bool) returns (bias: nat)
    requires delta0 < LIMIT && 0 < h < LIMIT
    ensures bias == Adapt(delta0, h, first) && bias < 1000
    ensures exists k: nat, x: nat :: IsBias(bias, delta0, h, first, k, x)
  {
    AdaptIs(delta0, h, first);
    hide IsBias;
    var delta: nat := delta0 / 2;
    if first {
      HalfTwice(delta0);
      delta := delta / 350;
    }
    DivMod(delta, h);
    QuotientIsDivision(delta, h);
    hide Quotient, Length;
    assert delta + delta / h < LIMIT;
    delta := U32(delta + delta / h);
    ghost var d := delta;
    Length32(d);
    bias := 0;
    while delta > 35 * 26 / 2
      invariant delta < LIMIT && bias + 36 * Length(delta) <= 360
      invariant Skew(delta, bias) == Skew(d, 0)
    {
      ShorterAfter(delta);
      delta := delta / 35;
      bias := U32(bias + 36);
    }
    SkewBound(delta);
    QuotientIsDivision(36 * delta, delta + 38);
    bias := U32(bias + U32(36 * delta) / U32(delta + 38));
  }

  lemma ShorterAfter(delta: nat)
    requires delta > 0
    ensures Length(delta / 35) < Length(delta)
  {
    LengthMonotone(delta / 35, delta / 10);
  }

  lemma SkewBound(delta: nat)
    requires delta <= 455
    ensures 36 * delta < LIMIT && 0 <= 36 * delta / (delta + 38) <= 36
  {
    DivMod(36 * delta, delta + 38);
    var q := 36 * delta / (delta + 38);
    if q > 36 {
      MulBounds(delta + 38, q - 36);
    }
  }

  // ---------- One label ----------

  /** What a label is encoded to: itself if all ASCII, else "xn--" and Punycode. */
  function LabelText(cps: seq<nat>): string {
    if Remaining(cps, INITIAL_N) == 0 then Basic(cps) else "xn--" + Encode(cps)
  }

  /** Some delta of the encoding does not fit in 32 bits. */
  predicate Overflows(deltas: seq<nat>) {
    exists d :: d in deltas && d >= LIMIT
  }

  /** Reading a label back: its text after the prefix decodes to the label. */
  lemma LabelReadsBack(cps: seq<nat>)
    ensures Remaining(cps, INITIAL_N) > 0 ==>
              LabelText(cps)[..4] == "xn--" && Decode(LabelText(cps)[4..]) == Some(cps)
    ensures Remaining(cps, INITIAL_N) == 0 ==> CodePoints(LabelText(cps)) == cps
  {
    RoundTrip(cps);
    assert ("xn--" + Encode(cps))[4..] == Encode(cps);
    if Remaining(cps, INITIAL_N) == 0 {
      NoneRemaining(cps, INITIAL_N);
      BasicHandled(cps);
      AllHandled(cps, INITIAL_N);
    }
  }

  // ---------- Labels with the same text ----------

  /** The ASCII label a is spelt like the text of b. */
  ghost predicate Spells(a: seq<nat>, b: seq<nat>) {
    Ascii(a) && !Ascii(b) && a == CodePoints("xn--" + Encode(b))
  }

  lemma SameCodePoints(x: string, y: string)
    requires CodePoints(x) == CodePoints(y)
    ensures x == y
  {
    assert |x| == |CodePoints(x)| == |CodePoints(y)| == |y|;
    forall i | 0 <= i < |x| ensures x[i] == y[i] {
      assert CodePoints(x)[i] == CodePoints(y)[i];
    }
  }

  lemma TextKinds(a: seq<nat>)
    ensures Ascii(a) ==> CodePoints(LabelText(a)) == a
    ensures !Ascii(a) ==> LabelText(a) == "xn--" + Encode(a) && |LabelText(a)| >= 4 && Decode(LabelText(a)[4..]) == Some(a)
  {
    hide Encode, Decode, CodePoints;
    AsciiRemaining(a);
    LabelReadsBack(a);
  }

  lemma SpellsExactly(a: seq<nat>, b: seq<nat>)
    requires Ascii(a) && !Ascii(b)
    ensures LabelText(a) == LabelText(b) <==> Spells(a, b)
  {
    hide LabelText, Encode, Decode, CodePoints, Ascii;
    TextKinds(a);
    TextKinds(b);
    if Spells(a, b) {
      SameCodePoints(LabelText(a), LabelText(b));
    }
  }

  /** Labels have the same text exactly if they are the same or one of them is ASCII and
      spelt like the encoding of the other: the text alone does not tell these apart. */
  lemma SameText(a: seq<nat>, b: seq<nat>)
    ensures LabelText(a) == LabelText(b) <==> a == b || Spells(a, b) || Spells(b, a)
  {
    hide LabelText, Encode, Decode, CodePoints, Ascii;
    TextKinds(a);
    TextKinds(b);
    if Ascii(a) && !Ascii(b) {
      SpellsExactly(a, b);
    } else if !Ascii(a) && Ascii(b) {
      SpellsExactly(b, a);
    }
  }

  // ---------- The encoder's steps ----------

  /** A delta too large when a code point of the round lies ahead will be emitted. */
  lemma {:induction false} OverflowAhead(cps: seq<nat>, n: nat, j: nat, delta: nat, h: nat, k: nat)
    requires j <= k < |cps| && cps[k] == n && delta >= LIMIT
    ensures Overflows(DeltasFrom(cps, n, j, delta, h))
    decreases k - j
  {
    if cps[j] == n {
      assert DeltasFrom(cps, n, j, delta, h)[0] == delta;
      assert delta in DeltasFrom(cps, n, j, delta, h);
    } else {
      OverflowAhead(cps, n, j + 1, if cps[j] < n then delta + 1 else delta, h, k);
    }
  }

  lemma {:induction false} BasicAndRemaining(cps: seq<nat>)
    ensures |Basic(cps)| + Remaining(cps, INITIAL_N) == |cps|
  {
    if cps != [] {
      BasicAndRemaining(cps[1..]);
    }
  }

  /** The check that the product added to delta leaves it within 32 bits. */
  lemma ProductFits(x: nat, y: nat, room: nat)
    requires y > 0
    ensures x > room / y <==> Times(x, y) > room
    ensures Times(x, y) == x * y
  {
    TimesIsProduct(x, y);
    DivMod(room, y);
    var d := x - room / y;
    MulLaws(d, room / y, y);
    MulLaws(y, room / y, y);
    assert x * y == d * y + room / y * y;
    MulBounds(y, d);
    MulLaws(y, d, y);
  }

  /** The count of ASCII code points and of the others; an invalid one stops it. */
  method CountLabel(cps: seq<nat>) returns (ok: bool, h: nat, todo: nat)
    requires Decoded(cps) && |cps| < LIMIT
    ensures ok <==> INVALID !in cps
    ensures ok ==> h == |Basic(cps)| && todo == Remaining(cps, INITIAL_N)
  {
    h, todo := 0, 0;
    for i := 0 to |cps|
      invariant h + todo == i
      invariant INVALID !in cps[..i]
      invariant h + |Basic(cps[i..])| == |Basic(cps)|
      invariant todo + Remaining(cps[i..], INITIAL_N) == Remaining(cps, INITIAL_N)
    {
      var c := cps[i];
      assert cps[i..][1..] == cps[i + 1..];
      if c < 128 {
        h := U32(h + 1);
      } else if c == INVALID {
        return false, h, todo;
      } else {
        todo := U32(todo + 1);
      }
      assert cps[..i + 1] == cps[..i] + [c];
    }
    assert cps[..|cps|] == cps;
    return true, h, todo;
  }

  /** Copies the ASCII code points, stopping after the last of the h there are. */
  method CopyBasic(cps: seq<nat>, h: nat, out: Output)
    requires out.Valid() && h == |Basic(cps)| < LIMIT
    modifies out`d, out`text, out.buf
    ensures out.Valid() && out.text == old(out.text) + Basic(cps)
    ensures forall i :: 0 <= i < out.buf.Length && !(out.start <= i < out.de) ==> out.buf[i] == old(out.buf[i])
  {
    var x: nat := 0;
    for i := 0 to |cps|
      invariant out.Valid() && x <= h
      invariant x + |Basic(cps[i..])| == h
      invariant out.text + Basic(cps[i..]) == old(out.text) + Basic(cps)
      invariant forall k :: 0 <= k < out.buf.Length && !(out.start <= k < out.de) ==> out.buf[k] == old(out.buf[k])
    {
      var c := cps[i];
      assert cps[i..][1..] == cps[i + 1..];
      if c > 127 {
        continue;
      }
      out.Put(c as char);
      x := U32(x + 1);
      if x == h {
        break;
      }
    }
  }

  /** The least code point at or above n. */
  method FindLeast(cps: seq<nat>, n: nat) returns (m: nat)
    requires INVALID !in cps && Decoded(cps) && Remaining(cps, n) > 0
    ensures m == LeastFrom(cps, n)
  {
    m := U32(-1);
    for i := 0 to |cps|
      invariant m == U32(-1) || (m in cps[..i] && m >= n)
      invariant forall c :: c in cps[..i] && c >= n ==> m <= c
    {
      var c := cps[i];
      assert cps[..i + 1] == cps[..i] + [c];
      if c >= n {
        if c < m {
          m := c;
        }
      }
    }
    assert cps[..|cps|] == cps;
    assert LeastFrom(cps, n) in cps;
  }

  function CountOf(cps: seq<nat>, n: nat): nat {
    if cps == [] then 0 else (if cps[0] == n then 1 else 0) + CountOf(cps[1..], n)
  }

  lemma {:induction false} RemainingNext(cps: seq<nat>, n: nat)
    ensures Remaining(cps, n) == Remaining(cps, n + 1) + CountOf(cps, n)
  {
    if cps != [] {
      RemainingNext(cps[1..], n);
    }
  }

  /** The variables that a round changes. */
  datatype Vars = Vars(delta: nat, h: nat, bias: nat, first: bool, todo: nat)

  /** What is still emitted from position j of the round for n, and at its end. */
  function Ahead(cps: seq<nat>, n: nat, j: nat, v: Vars): string
    requires j <= |cps|
  {
    Text(DeltasFrom(cps, n, j, v.delta, v.h), v.h, v.bias, v.first)
  }

  function AheadOfRounds(cps: seq<nat>, n: nat, v: Vars): string {
    Text(DeltaRounds(cps, n, v.delta, v.h), v.h, v.bias, v.first)
  }

  lemma PassAhead(cps: seq<nat>, n: nat, j: nat, v: Vars)
    requires j < |cps| && cps[j] != n
    ensures DeltasFrom(cps, n, j + 1, if cps[j] < n then v.delta + 1 else v.delta, v.h) == DeltasFrom(cps, n, j, v.delta, v.h)
    ensures CountOf(cps[j + 1..], n) == CountOf(cps[j..], n)
  {
    assert cps[j..][1..] == cps[j + 1..];
  }

  lemma EmitAhead(cps: seq<nat>, n: nat, j: nat, v: Vars, v': Vars)
    requires j < |cps| && cps[j] == n && v.delta < LIMIT
    requires v' == Vars(0, v.h + 1, Adapt(v.delta, v.h + 1, v.first), false, v'.todo)
    ensures Ahead(cps, n, j, v) == Varint(v.delta, 36, v.bias) + Ahead(cps, n, j + 1, v')
    ensures Overflows(DeltasFrom(cps, n, j, v.delta, v.h)) == Overflows(DeltasFrom(cps, n, j + 1, 0, v.h + 1))
    ensures CountOf(cps[j..], n) == CountOf(cps[j + 1..], n) + 1
  {
    assert cps[j..][1..] == cps[j + 1..];
    var rest := DeltasFrom(cps, n, j + 1, 0, v.h + 1);
    assert DeltasFrom(cps, n, j, v.delta, v.h) == [v.delta] + rest;
    assert ([v.delta] + rest)[1..] == rest;
    assert forall d :: d in [v.delta] + rest <==> d == v.delta || d in rest;
  }

  /** The second scan of a round: counts the smaller code points into delta and
      emits an insertion for each occurrence of n. */
  method ScanRound(cps: seq<nat>, n: nat, v0: Vars, out: Output) returns (ok: bool, v: Vars)
    requires out.Valid() && |cps| < LIMIT && n in cps && v0.delta < LIMIT
    requires v0.h + v0.todo == |cps| && v0.todo == Remaining(cps, n)
    modifies out`d, out`text, out.buf
    ensures out.Valid() && old(out.text) <= out.text
    ensures forall i :: 0 <= i < out.buf.Length && !(out.start <= i < out.de) ==> out.buf[i] == old(out.buf[i])
    ensures !ok ==> Overflows(DeltasFrom(cps, n, 0, v0.delta, v0.h))
    ensures ok ==> v.delta < |cps| && v.h + v.todo == |cps| && v.todo == Remaining(cps, n + 1)
    ensures ok ==> out.text + Ahead(cps, n, |cps|, v) == old(out.text) + Ahead(cps, n, 0, v0)
    ensures ok ==> Overflows(DeltasFrom(cps, n, |cps|, v.delta, v.h)) == Overflows(DeltasFrom(cps, n, 0, v0.delta, v0.h))
  {
    hide DeltasFrom, DeltaRounds, Text, CountOf, Remaining, Adapt, Overflows;
    v := v0;
    ghost var k :| 0 <= k < |cps| && cps[k] == n;
    RemainingNext(cps, n);
    assert cps[0..] == cps;
    for j := 0 to |cps|
      invariant out.Valid() && old(out.text) <= out.text
      invariant forall i :: 0 <= i < out.buf.Length && !(out.start <= i < out.de) ==> out.buf[i] == old(out.buf[i])
      invariant v.delta < LIMIT && v.h + v.todo == |cps|
      invariant v.todo == Remaining(cps, n + 1) + CountOf(cps[j..], n)
      invariant k < j ==> v.delta < j
      invariant out.text + Ahead(cps, n, j, v) == old(out.text) + Ahead(cps, n, 0, v0)
      invariant Overflows(DeltasFrom(cps, n, j, v.delta, v.h)) == Overflows(DeltasFrom(cps, n, 0, v0.delta, v0.h))
    {
      var c := cps[j];
      if c != n {
        PassAhead(cps, n, j, v);
      }
      if c < n {
        if v.delta == LIMIT - 1 {
          OverflowAhead(cps, n, j + 1, LIMIT, v.h, k);
          assert Overflows(DeltasFrom(cps, n, j, v.delta, v.h));
        }
        v := v.(delta := U32(v.delta + 1));
        if v.delta == 0 {
          return false, v;
        }
      }
      if c != n {
        continue;
      }
      ghost var before := v;
      CountHere(cps, n, j);
      EmitVarint(v.delta, v.bias, out);
      var h := U32(v.h + 1);
      var bias := AdaptBias(v.delta, h, v.first);
      v := Vars(0, h, bias, false, if v.todo > 0 then v.todo - 1 else 0);
      EmitAhead(cps, n, j, before, v);
    }
    assert cps[|cps|..] == [];
    CountNone(n);
    return true, v;
  }

  lemma CountHere(cps: seq<nat>, n: nat, j: nat)
    requires j < |cps| && cps[j] == n
    ensures CountOf(cps[j..], n) > 0
  {
  }

  lemma CountNone(n: nat)
    ensures CountOf([], n) == 0
  {
  }

  /** What separates the state at the start of a round from the end of the last. */
  lemma EndRound(cps: seq<nat>, n: nat, v: Vars)
    ensures Ahead(cps, n, |cps|, v) == AheadOfRounds(cps, n + 1, v.(delta := v.delta + 1))
    ensures DeltasFrom(cps, n, |cps|, v.delta, v.h) == DeltaRounds(cps, n + 1, v.delta + 1, v.h)
  {
  }

  lemma StartRound(cps: seq<nat>, n: nat, m: nat, v: Vars)
    requires Remaining(cps, n) > 0 && m == LeastFrom(cps, n)
    ensures var v' := v.(delta := v.delta + Times(m - n, v.h + 1));
            && DeltaRounds(cps, n, v.delta, v.h) == DeltasFrom(cps, m, 0, v'.delta, v'.h)
            && AheadOfRounds(cps, n, v) == Ahead(cps, m, 0, v')
  {
  }

  /** No code point lies between n and the least one at or above it. */
  lemma {:induction false} SameRemaining(cps: seq<nat>, n: nat, m: nat)
    requires n <= m && forall c :: c in cps && c >= n ==> m <= c
    ensures Remaining(cps, n) == Remaining(cps, m)
  {
    if cps != [] {
      assert cps[0] in cps && forall c :: c in cps[1..] ==> c in cps;
      SameRemaining(cps[1..], n, m);
    }
  }

  /** Where the increment of a round does not fit, some delta of that round does not. */
  lemma RoundOverflows(cps: seq<nat>, n: nat, m: nat, v: Vars)
    requires Remaining(cps, n) > 0 && m == LeastFrom(cps, n) && v.delta + Times(m - n, v.h + 1) >= LIMIT
    ensures Overflows(DeltaRounds(cps, n, v.delta, v.h))
  {
    hide DeltaRounds, DeltasFrom, Overflows, Times, Remaining, LeastFrom;
    StartRound(cps, n, m, v);
    var k :| 0 <= k < |cps| && cps[k] == m;
    OverflowAhead(cps, m, 0, v.delta + Times(m - n, v.h + 1), v.h, k);
  }

  /** The outer loop of the encoder. */
  method EmitInsertions(cps: seq<nat>, h0: nat, todo0: nat, out: Output) returns (ok: bool)
    requires out.Valid() && |cps| < LIMIT && Decoded(cps) && INVALID !in cps
    requires h0 == |Basic(cps)| && todo0 == Remaining(cps, INITIAL_N)
    modifies out`d, out`text, out.buf
    ensures out.Valid() && old(out.text) <= out.text
    ensures forall i :: 0 <= i < out.buf.Length && !(out.start <= i < out.de) ==> out.buf[i] == old(out.buf[i])
    ensures ok <==> !Overflows(Deltas(cps))
    ensures ok ==> out.text == old(out.text) + Insertions(cps)
  {
    hide DeltasFrom, DeltaRounds, Text, Remaining, Ahead, AheadOfRounds, Overflows, Times;
    BasicAndRemaining(cps);
    var n: nat, v := 128, Vars(0, h0, 72, true, todo0);
    InsertionsAhead(cps, v);
    while v.todo > 0
      invariant out.Valid() && old(out.text) <= out.text
      invariant forall i :: 0 <= i < out.buf.Length && !(out.start <= i < out.de) ==> out.buf[i] == old(out.buf[i])
      invariant v.delta <= |cps| && v.h + v.todo == |cps| && v.todo == Remaining(cps, n) && n <= MAX_CODE_POINT + 1
      invariant out.text + AheadOfRounds(cps, n, v) == old(out.text) + Insertions(cps)
      invariant Overflows(DeltaRounds(cps, n, v.delta, v.h)) == Overflows(Deltas(cps))
      decreases v.todo
    {
      var m := FindLeast(cps, n);
      StartRound(cps, n, m, v);
      SameRemaining(cps, n, m);
      RemainingNext(cps, m);
      CountPositive(cps, m);
      var x := U32(m - n);
      var y := U32(v.h + 1);
      ProductFits(x, y, Not32(v.delta));
      if x > Not32(v.delta) / y {
        RoundOverflows(cps, n, m, v);
        return false;
      }
      v := v.(delta := U32(v.delta + U32(x * y)));
      n := m;
      var more, v' := ScanRound(cps, n, v, out);
      if !more {
        return false;
      }
      EndRound(cps, n, v');
      v := v'.(delta := U32(v'.delta + 1));
      n := U32(n + 1);
    }
    NoRounds(cps, n, v);
    return true;
  }

  lemma InsertionsAhead(cps: seq<nat>, v: Vars)
    requires v == Vars(0, |Basic(cps)|, INITIAL_BIAS, true, v.todo)
    ensures AheadOfRounds(cps, INITIAL_N, v) == Insertions(cps)
    ensures DeltaRounds(cps, INITIAL_N, v.delta, v.h) == Deltas(cps)
  {
  }

  lemma NoRounds(cps: seq<nat>, n: nat, v: Vars)
    requires Remaining(cps, n) == 0
    ensures AheadOfRounds(cps, n, v) == "" && !Overflows(DeltaRounds(cps, n, v.delta, v.h))
  {
  }

  lemma {:induction false} CountPositive(cps: seq<nat>, n: nat)
    ensures CountOf(cps, n) > 0 <==> n in cps
  {
    if cps != [] {
      assert cps == [cps[0]] + cps[1..];
      CountPositive(cps[1..], n);
    }
  }

  predicate Ascii(cps: seq<nat>) {
    forall c :: c in cps ==> c < INITIAL_N
  }

  lemma {:induction false} AsciiRemaining(cps: seq<nat>)
    ensures Ascii(cps) <==> Remaining(cps, INITIAL_N) == 0
    ensures Ascii(cps) ==> |Basic(cps)| == |cps|
  {
    if cps != [] {
      assert cps == [cps[0]] + cps[1..] && cps[0] in cps;
      assert forall c :: c in cps <==> c == cps[0] || c in cps[1..];
      AsciiRemaining(cps[1..]);
    }
  }

  const INT_LIMIT: nat := 0x8000_0000

  /** An unsigned 32-bit number as an int. */
  function ToInt(h: nat): (i: int)
    ensures 0 <= i + INT_LIMIT < LIMIT && U32(i) == U32(h)
    ensures h < LIMIT ==> i == if h < INT_LIMIT then h else h - LIMIT
  {
    var u := U32(h);
    if u < INT_LIMIT then u else u - LIMIT
  }

  /** uv__idna_toascii_label: UV_EINVAL on malformed input, UV_E2BIG when a delta does
      not fit in 32 bits, and otherwise the text of the label, cut off where the buffer
      ends. An ASCII label's result is its length as an int, which is negative, and so an
      error to the caller, from 2^31 characters on. */
  method ToAsciiLabel(cps: seq<nat>, out: Output) returns (rc: int)
    requires out.Valid() && |cps| < LIMIT && Decoded(cps)
    modifies out`d, out`text, out.buf
    ensures out.Valid() && old(out.text) <= out.text
    ensures forall i :: 0 <= i < out.buf.Length && !(out.start <= i < out.de) ==> out.buf[i] == old(out.buf[i])
    ensures INVALID in cps ==> rc == UV_EINVAL
    ensures INVALID !in cps && !Ascii(cps) ==> rc == if Overflows(Deltas(cps)) then UV_E2BIG else 0
    ensures Ascii(cps) ==> INVALID !in cps && !Overflows(Deltas(cps)) && rc == ToInt(|cps|)
    ensures rc >= 0 || Ascii(cps) ==> out.text == old(out.text) + LabelText(cps)
  {
    hide Remaining, Overflows, Insertions, Deltas, Basic, Head, LabelText;
    HeadAndInsertions(cps);
    AsciiRemaining(cps);
    var ok, h, todo := CountLabel(cps);
    if !ok {
      return UV_EINVAL;
    }
    NoDeltas(cps);
    BasicAndRemaining(cps);
    PutHead(cps, h, todo, out);
    if todo == 0 {
      return ToInt(h);
    }
    ok := EmitInsertions(cps, h, todo, out);
    if !ok {
      return UV_E2BIG;
    }
    return 0;
  }

  /** What comes before the insertions. */
  function Head(cps: seq<nat>): string {
    if Remaining(cps, INITIAL_N) == 0 then Basic(cps)
    else "xn--" + Basic(cps) + if Basic(cps) != [] then [DELIMITER] else []
  }

  lemma HeadAndInsertions(cps: seq<nat>)
    ensures LabelText(cps) == if Remaining(cps, INITIAL_N) == 0 then Head(cps) else Head(cps) + Insertions(cps)
  {
    hide Basic, Insertions, Remaining;
    assert "xn--" + Encode(cps) == "xn--" + Basic(cps) + (if Basic(cps) != [] then [DELIMITER] else []) + Insertions(cps);
  }

  method PutPrefix(out: Output)
    requires out.Valid()
    modifies out`d, out`text, out.buf
    ensures out.Valid() && out.text == old(out.text) + "xn--"
    ensures forall i :: 0 <= i < out.buf.Length && !(out.start <= i < out.de) ==> out.buf[i] == old(out.buf[i])
  {
    out.Put('x');
    out.Put('n');
    out.Put('-');
    out.Put('-');
    assert ['x'] + ['n'] + ['-'] + ['-'] == "xn--";
  }

  method PutHead(cps: seq<nat>, h: nat, todo: nat, out: Output)
    requires out.Valid() && h == |Basic(cps)| < LIMIT && todo == Remaining(cps, INITIAL_N)
    modifies out`d, out`text, out.buf
    ensures out.Valid() && out.text == old(out.text) + Head(cps)
    ensures forall i :: 0 <= i < out.buf.Length && !(out.start <= i < out.de) ==> out.buf[i] == old(out.buf[i])
  {
    hide Basic, Remaining, Head;
    ghost var before := out.text;
    HeadParts(cps, before);
    if todo > 0 {
      PutPrefix(out);
    }
    CopyBasic(cps, h, out);
    if todo > 0 {
      if h > 0 {
        out.Put('-');
      }
    }
  }

  lemma HeadParts(cps: seq<nat>, before: string)
    ensures Remaining(cps, INITIAL_N) == 0 ==> before + Head(cps) == before + Basic(cps)
    ensures Remaining(cps, INITIAL_N) > 0 && Basic(cps) == [] ==> before + Head(cps) == before + "xn--" + Basic(cps)
    ensures Remaining(cps, INITIAL_N) > 0 && Basic(cps) != [] ==> before + Head(cps) == before + "xn--" + Basic(cps) + ['-']
  {
    hide Basic, Remaining;
  }

  lemma NoDeltas(cps: seq<nat>)
    ensures Remaining(cps, INITIAL_N) == 0 ==> !Overflows(Deltas(cps))
  {
  }

  // ---------- Whole host names ----------

  /** '.', the ideographic, the fullwidth and the halfwidth full stop. */
  predicate IsSeparator(c: nat) {
    c == 0x2E || c == 0x3002 || c == 0xFF0E || c == 0xFF61
  }

  function FirstSeparator(cps: seq<nat>): (k: nat)
    ensures k <= |cps|
    ensures forall i :: 0 <= i < k ==> !IsSeparator(cps[i])
    ensures k < |cps| ==> IsSeparator(cps[k])
  {
    if cps == [] || IsSeparator(cps[0]) then 0 else 1 + FirstSeparator(cps[1..])
  }

  function Labels(cps: seq<nat>): seq<seq<nat>> {
    var k := FirstSeparator(cps);
    if k == |cps| then [cps] else [cps[..k]] + Labels(cps[k + 1..])
  }

  /** The error that a label is reported to have; 0 for none. */
  function LabelError(cps: seq<nat>): int {
    if INVALID in cps then UV_EINVAL
    else if Ascii(cps) then (if ToInt(|cps|) < 0 then ToInt(|cps|) else 0)
    else if Overflows(Deltas(cps)) then UV_E2BIG
    else 0
  }

  /** A label passes exactly if it is well formed, no delta overflows, and it is not an
      ASCII label whose length is negative as an int. */
  lemma LabelPasses(cps: seq<nat>)
    requires |cps| < LIMIT
    ensures LabelError(cps) == 0 <==> INVALID !in cps && !Overflows(Deltas(cps)) && !(Ascii(cps) && |cps| >= INT_LIMIT)
  {
    AsciiRemaining(cps);
    NoDeltas(cps);
    assert Ascii(cps) ==> INVALID !in cps;
    hide Overflows, Deltas, Remaining, Basic;
  }

  /** There are such labels, and their error is the wrong one or none of libuv's: 2^32 -
      22 letters are reported as malformed, 2^32 - 7 as too big, and 2^31 as -2^31. */
  lemma LongLabels(n: nat)
    requires INT_LIMIT <= n < LIMIT
    ensures var cps := seq(n, _ => 0x61);
            && Labels(cps) == [cps] && FirstError(Labels(cps)) == n - LIMIT < 0
            && INVALID !in cps && !Overflows(Deltas(cps))
    ensures n - LIMIT == UV_EINVAL <==> n == LIMIT - 22
    ensures n - LIMIT == UV_E2BIG <==> n == LIMIT - 7
  {
    var cps := seq(n, _ => 0x61);
    assert forall c :: c in cps ==> c == 0x61;
    AsciiRemaining(cps);
    NoDeltas(cps);
    hide Overflows, Deltas, Remaining, Basic;
    assert FirstSeparator(cps) == n;
    assert LabelError(cps) == n - LIMIT;
  }

  function FirstError(labels: seq<seq<nat>>): int {
    if labels == [] then 0
    else if LabelError(labels[0]) != 0 then LabelError(labels[0])
    else FirstError(labels[1..])
  }

  function Join(labels: seq<seq<nat>>): string {
    if labels == [] then ""
    else if |labels| == 1 then LabelText(labels[0])
    else LabelText(labels[0]) + "." + Join(labels[1..])
  }

  lemma {:induction false} FirstSeparatorIs(cps: seq<nat>, k: nat)
    requires k <= |cps| && (forall i :: 0 <= i < k ==> !IsSeparator(cps[i])) && (k < |cps| ==> IsSeparator(cps[k]))
    ensures FirstSeparator(cps) == k
  {
    hide IsSeparator;
  }

  lemma {:induction false} LabelsStep(cps: seq<nat>, s: nat, st: nat)
    requires s <= st <= |cps| && forall i :: s <= i < st ==> !IsSeparator(cps[i])
    ensures st == |cps| ==> Labels(cps[s..]) == [cps[s..]]
    ensures st < |cps| && IsSeparator(cps[st]) ==> Labels(cps[s..]) == [cps[s..st]] + Labels(cps[st + 1..])
  {
    var rest, k := cps[s..], st - s;
    if st == |cps| || IsSeparator(cps[st]) {
      FirstSeparatorIs(rest, k);
      hide IsSeparator, FirstSeparator;
      assert rest[..k] == cps[s..st];
      assert st < |cps| ==> rest[k + 1..] == cps[st + 1..];
    }
  }

  lemma JoinStep(word: seq<nat>, labels: seq<seq<nat>>)
    requires labels != []
    ensures Join([word] + labels) == LabelText(word) + "." + Join(labels)
    ensures FirstError([word] + labels) == if LabelError(word) != 0 then LabelError(word) else FirstError(labels)
  {
    assert ([word] + labels)[1..] == labels;
  }

  lemma JoinOne(word: seq<nat>)
    ensures Join([word]) == LabelText(word) && FirstError([word]) == LabelError(word)
  {
  }

  lemma HostStep(cps: seq<nat>, s: nat, st: nat)
    requires s <= st < |cps| && IsSeparator(cps[st]) && forall i :: s <= i < st ==> !IsSeparator(cps[i])
    ensures Join(Labels(cps[s..])) == LabelText(cps[s..st]) + "." + Join(Labels(cps[st + 1..]))
    ensures var e := LabelError(cps[s..st]);
            FirstError(Labels(cps[s..])) == if e != 0 then e else FirstError(Labels(cps[st + 1..]))
    ensures Decoded(cps) ==> Decoded(cps[s..st])
  {
    LabelsStep(cps, s, st);
    NotEmpty(cps[st + 1..]);
    JoinStep(cps[s..st], Labels(cps[st + 1..]));
    assert forall c :: c in cps[s..st] ==> c in cps;
  }

  lemma HostEnd(cps: seq<nat>, s: nat)
    requires s <= |cps| && forall i :: s <= i < |cps| ==> !IsSeparator(cps[i])
    ensures Join(Labels(cps[s..])) == LabelText(cps[s..]) && FirstError(Labels(cps[s..])) == LabelError(cps[s..])
    ensures Decoded(cps) ==> Decoded(cps[s..])
    ensures s == |cps| ==> LabelText(cps[s..]) == "" && LabelError(cps[s..]) == 0
  {
    LabelsStep(cps, s, |cps|);
    JoinOne(cps[s..]);
    EmptyLabel();
    assert forall c :: c in cps[s..] ==> c in cps;
  }

  /** Each of the four full stops ends a label and becomes a dot, and nothing else does. */
  lemma FullStops(word: seq<nat>, c: nat, rest: seq<nat>)
    requires forall i :: 0 <= i < |word| ==>
               word[i] != 0x2E && word[i] != 0x3002 && word[i] != 0xFF0E && word[i] != 0xFF61
    requires c == 0x2E || c == 0x3002 || c == 0xFF0E || c == 0xFF61
    ensures Join(Labels(word)) == LabelText(word)
    ensures Join(Labels(word + [c] + rest)) == LabelText(word) + "." + Join(Labels(rest))
  {
    hide LabelText, Join, Labels, LabelError, FirstError;
    var name := word + [c] + rest;
    HostStep(name, 0, |word|);
    HostEnd(word, 0);
    assert word[0..] == word && name[0..] == name && name[0..|word|] == word && name[|word| + 1..] == rest;
  }

  lemma EmptyLabel()
    ensures LabelText([]) == "" && LabelError([]) == 0
  {
  }

  lemma NotEmpty(cps: seq<nat>)
    ensures Labels(cps) != []
  {
  }

  lemma LabelErrorIs(word: seq<nat>, rc: int)
    requires |word| < LIMIT
    requires INVALID in word ==> rc == UV_EINVAL
    requires INVALID !in word && !Ascii(word) ==> rc == if Overflows(Deltas(word)) then UV_E2BIG else 0
    requires Ascii(word) ==> INVALID !in word && rc == ToInt(|word|)
    ensures if rc < 0 then LabelError(word) == rc else LabelError(word) == 0
  {
  }

  // ---------- Reading a host name back ----------

  function SplitAtDots(text: string): seq<string> {
    if text == "" then [""]
    else
      var rest := SplitAtDots(text[1..]);
      if text[0] == '.' then [""] + rest else [[text[0]] + rest[0]] + rest[1..]
  }

  lemma {:induction false} SplitOne(word: string, rest: string)
    requires '.' !in word
    ensures SplitAtDots(word) == [word]
    ensures SplitAtDots(word + "." + rest) == [word] + SplitAtDots(rest)
  {
    var text := word + "." + rest;
    if word == "" {
      assert text[1..] == rest;
    } else {
      var tail := SplitAtDots(rest);
      assert text[1..] == word[1..] + "." + rest && [word[0]] + word[1..] == word;
      SplitOne(word[1..], rest);
      assert ([word[1..]] + tail)[1..] == tail && [word[1..]][1..] == [];
    }
  }

  lemma {:induction false} BasicKeepsOut(cps: seq<nat>, c: char)
    requires c as nat !in cps
    ensures c !in Basic(cps)
  {
    if cps != [] {
      assert cps[0] in cps && forall x :: x in cps[1..] ==> x in cps;
      BasicKeepsOut(cps[1..], c);
      if cps[0] < INITIAL_N {
        assert (cps[0] as char) as nat == cps[0];
        assert c != cps[0] as char;
      }
    }
  }

  lemma LabelTextHasNoDot(cps: seq<nat>)
    requires 0x2E !in cps
    ensures '.' !in LabelText(cps)
  {
    BasicKeepsOut(cps, '.');
    TextIsDigits(Deltas(cps), |Basic(cps)|, INITIAL_BIAS, true);
    assert DecodeDigit('.').None?;
  }

  /** Splitting the encoded host name at its dots gives the texts of its labels. */
  lemma {:induction false} HostReadsBack(labels: seq<seq<nat>>)
    requires labels != [] && forall l :: l in labels ==> 0x2E !in l
    ensures SplitAtDots(Join(labels)) == seq(|labels|, i requires 0 <= i < |labels| => LabelText(labels[i]))
  {
    LabelTextHasNoDot(labels[0]);
    if |labels| == 1 {
      SplitOne(LabelText(labels[0]), "");
    } else {
      assert forall l :: l in labels[1..] ==> l in labels;
      HostReadsBack(labels[1..]);
      SplitOne(LabelText(labels[0]), Join(labels[1..]));
    }
  }

  lemma {:induction false} LabelsHaveNoDot(cps: seq<nat>)
    ensures Labels(cps) != [] && forall l :: l in Labels(cps) ==> 0x2E !in l
    decreases |cps|
  {
    var k := FirstSeparator(cps);
    assert Labels(cps) == if k == |cps| then [cps] else [cps[..k]] + Labels(cps[k + 1..]);
    hide Labels, FirstSeparator;
    if k < |cps| {
      LabelsHaveNoDot(cps[k + 1..]);
    }
  }
}
