/** Facts about multiplication and division that the index computations share. */
module Arithmetic {

  /** a / d by repeated subtraction, which a proof unfolds one step at a time. */
  function Div(a: nat, d: nat): nat
    requires d > 0
  {
    if a < d then 0 else 1 + Div(a - d, d)
  }

  lemma {:induction false} DivBounds(a: nat, d: nat)
    requires d > 0
    ensures Div(a, d) * d <= a < Div(a, d) * d + d
  {
    if a >= d {
      DivBounds(a - d, d);
      assert (1 + Div(a - d, d)) * d == d + Div(a - d, d) * d;
    }
  }

  /** The bounds determine the quotient. */
  lemma DivUnique(a: nat, d: nat, q: nat)
    requires d > 0 && q * d <= a < q * d + d
    ensures Div(a, d) == q
  {
    var p := Div(a, d);
    DivBounds(a, d);
    assert (p + 1) * d == p * d + d && (q + 1) * d == q * d + d;
    if p < q {
      MulMono(p + 1, q, d);
    } else if q < p {
      MulMono(q + 1, p, d);
    }
  }

  lemma DivShrinks(a: nat, d: nat)
    requires d >= 1
    ensures Div(a, d) <= a
    ensures d >= 2 && a > 0 ==> Div(a, d) < a
  {
    DivBounds(a, d);
    MulMono(1, d, Div(a, d));
    if d >= 2 {
      MulMono(2, d, Div(a, d));
    }
  }

  /** A bound on the quotient and a bound on the dividend are the same thing. */
  lemma DivBelow(a: nat, d: nat, w: nat)
    requires d >= 1
    ensures Div(a, d) < w <==> a < d * w
  {
    var q := Div(a, d);
    DivBounds(a, d);
    assert (q + 1) * d == q * d + d;
    if q < w {
      MulMono(q + 1, w, d);
    } else {
      MulMono(w, q, d);
    }
  }

  /** It is the built-in division. */
  lemma DivIsDivision(a: nat, d: nat)
    requires d > 0
    ensures Div(a, d) == a / d
  {
    assert a == d * (a / d) + a % d;
    assert (a / d) * d == d * (a / d);
    DivUnique(a, d, a / d);
  }

  lemma ModUnique(v: int, d: nat, q: int, x: int)
    requires d > 0 && v == d * q + x && 0 <= x < d
    ensures v % d == x && v / d == q
  {
    var q', x' := v / d, v % d;
    assert v == d * q' + x' && 0 <= x' < d;
    assert d * (q - q') == x' - x;
    if q > q' {
      MulGe(d, q - q');
    } else if q < q' {
      MulGe(d, q' - q);
    }
  }

  lemma MulGe(d: nat, k: int)
    requires k >= 1
    ensures d * k >= d
  {
    assert d * k == d + d * (k - 1);
    assert d * (k - 1) >= 0;
  }

  lemma MulMono(a: nat, b: nat, c: nat)
    requires a <= b
    ensures a * c <= b * c
  {
    assert b * c == a * c + (b - a) * c;
    assert (b - a) * c >= 0;
  }

  /** The remainder, by repeated subtraction. */
  function Mod(a: nat, d: nat): (r: nat)
    requires d > 0
    ensures r < d
  {
    if a < d then a else Mod(a - d, d)
  }

  lemma {:induction false} ModOfDiv(a: nat, d: nat)
    requires d > 0
    ensures a == Div(a, d) * d + Mod(a, d)
  {
    if a >= d {
      ModOfDiv(a - d, d);
      assert (1 + Div(a - d, d)) * d == d + Div(a - d, d) * d;
    }
  }

  /** It is the built-in remainder. */
  lemma ModIsRemainder(a: nat, d: nat)
    requires d > 0
    ensures Mod(a, d) == a % d
  {
    ModOfDiv(a, d);
    assert a == d * Div(a, d) + Mod(a, d);
    ModUnique(a, d, Div(a, d), Mod(a, d));
  }

  function Pow2(n: nat): (r: nat)
    ensures r > 0
  {
    if n == 0 then 1 else 2 * Pow2(n - 1)
  }
}
