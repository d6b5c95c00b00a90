/** The little non-linear arithmetic the cost bounds need. */
module Arith {

  function Pow2(k: nat): (p: nat)
    ensures p >= 1
  {
    if k == 0 then 1 else 2 * Pow2(k - 1)
  }

  lemma Scale(f: nat, a: nat, b: nat)
    requires a <= b
    ensures f * a <= f * b
  {
  }

  lemma LessThanOnce(x: int, d: nat)
    requires d >= 1 && x * d < d
    ensures x <= 0
  {
    if x >= 1 {
      Scale(d, 1, x);
    }
  }

  lemma MultipleFits(q: nat, a: nat, d: nat)
    requires d >= 1 && q * d <= a
    ensures q <= a / d
  {
    var x := q - a / d;
    assert a == a / d * d + a % d;
    assert x * d == q * d - a / d * d;
    LessThanOnce(x, d);
  }

  lemma Distributes(x: nat, y: nat, d: nat)
    ensures (x + y) * d == x * d + y * d
  {
  }

  lemma QuotientFits(a: nat, d: nat)
    requires d >= 1
    ensures a / d * d <= a
  {
  }

  /** The remainder is what is left of a multiple of `d`. */
  lemma Remainder(q: nat, r: nat, n: nat, d: nat)
    requires d >= 1 && n == q * d + r && r < d
    ensures n % d == r
  {
    var p, s := n / d, n % d;
    assert n == p * d + s && s < d;
    if p > q {
      Scale(d, q + 1, p);
    } else if p < q {
      Scale(d, p + 1, q);
    }
  }

  lemma QuotientParts(a: nat, b: nat, d: nat)
    requires d >= 1
    ensures a / d + b / d <= (a + b) / d
  {
    var x, y := a / d, b / d;
    QuotientFits(a, d);
    QuotientFits(b, d);
    Distributes(x, y, d);
    MultipleFits(x + y, a + b, d);
  }
}
