/** Whole multiples, quotients and remainders; the lesser of two numbers. */
module Division {
  function Least(a: int, b: int): int {
    if a < b then a else b
  }

  lemma Apart(d: nat, j: int, k: int)
    requires d > 0
    ensures j < k ==> j * d <= k * d - d
  {
    if j < k {
      Expand(j, k - 1 - j, d);
    }
  }

  lemma Expand(j: int, m: nat, d: nat)
    ensures (j + 1 + m) * d == j * d + d + m * d >= j * d + d
  {
  }

  /** A quotient with a small remainder is the quotient. */
  lemma Divided(a: int, q: int, r: int, d: nat)
    requires 0 <= r < d && a == q * d + r
    ensures a / d == q && a % d == r
  {
    var p := a / d;
    assert a == p * d + a % d;
    Apart(d, p, q);
    Apart(d, q, p);
  }

  lemma Multiple(k: int, d: nat)
    requires d > 0
    ensures k * d % d == 0
  {
    Divided(k * d, k, 0, d);
  }

  lemma Quotient(a: int, d: nat)
    requires d > 0 && a % d == 0
    ensures a == a / d * d
  {
  }
}
