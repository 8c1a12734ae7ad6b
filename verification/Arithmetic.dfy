/** Quotients and remainders, for divisors that are not constants. */
module Arithmetic {

  lemma {:induction false} Apart(q: nat, p: nat, m: nat)
    requires q > p
    ensures q * m >= p * m + m
  {
    assert q * m == p * m + (q - p) * m;
    assert (q - p) * m == (q - p - 1) * m + m;
  }

  /** The quotient and the remainder of a number that is given by both. */
  lemma {:induction false} DivMod(v: nat, q: nat, r: nat, m: nat)
    requires r < m && v == q * m + r
    ensures v / m == q && v % m == r
  {
    var p := v / m;
    assert v == p * m + v % m;
    if q > p { Apart(q, p, m); }
    if p > q { Apart(p, q, m); }
  }
}
