/** Division with remainder. */
module Division {

  lemma {:induction false} MulBounds(y: nat, d: int)
    requires y > 0
    ensures d > 0 ==> y * d >= y && y * d >= d
    ensures d < 0 ==> y * d <= -(y as int)
    decreases if d > 0 then d else -d
  {
    if d > 1 {
      MulBounds(y, d - 1);
      MulNext(y, d - 1);
    } else if d < -1 {
      MulBounds(y, d + 1);
      MulNext(y, d);
    }
  }

  lemma MulNext(y: nat, d: int)
    ensures y * (d + 1) == y * d + y
  {
  }

  lemma DivMod(x: nat, y: nat)
    requires y > 0
    ensures x == y * (x / y) + x % y && 0 <= x % y < y && 0 <= x / y <= x
  {
    MulBounds(y, x / y);
  }

  lemma DivModUnique(x: nat, y: nat, q: nat, r: nat)
    requires y > 0 && r < y && x == y * q + r
    ensures x / y == q && x % y == r
  {
    DivMod(x, y);
    var d := q - x / y;
    assert y * d == y * q - y * (x / y) == x % y - r;
    MulBounds(y, d);
  }

  /** Dividing twice is dividing by the product. */
  lemma DivideAgain(x: nat, a: nat, b: nat)
    requires a > 0 && b > 0
    ensures a * b > 0 && x / a / b == x / (a * b)
  {
    DivMod(x, a);
    DivMod(x / a, b);
    Regrouped(x, a, b, x / a, x % a, x / a / b, x / a % b);
  }

  lemma Regrouped(x: nat, a: nat, b: nat, y: nat, r: nat, q: nat, t: nat)
    requires r < a && t < b && x == a * y + r && y == b * q + t
    ensures a * b > 0 && x / (a * b) == q
  {
    MulBounds(a, b);
    MulSpread(a, b, q, t);
    RemainderFits(a, b, t, r);
    DivModUnique(x, a * b, q, a * t + r);
  }

  lemma MulSpread(a: nat, b: nat, q: nat, t: nat)
    ensures a * (b * q + t) == (a * b) * q + a * t
  {
    assert a * (b * q) == (a * b) * q;
  }

  lemma RemainderFits(a: nat, b: nat, t: nat, r: nat)
    requires r < a && t < b
    ensures 0 <= a * t + r < a * b
  {
    var d := b - t;
    MulBounds(a, d);
    if t > 0 {
      MulBounds(a, t);
    }
    assert a * d == a * b - a * t;
  }
}
