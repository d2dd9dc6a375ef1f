/** Small facts about products and Euclidean quotients, kept apart so that other proofs stay linear. */
module Arith {

  lemma MulMono(x: int, y: int, k: nat)
    requires x <= y
    ensures x * k <= y * k && k * x <= k * y
  {}

  lemma MulNonNeg(x: nat, y: nat)
    ensures x * y >= 0
  {}

  lemma MulPos(x: int, y: int)
    requires x > 0 && y > 0
    ensures x * y > 0
  {}

  lemma MulAssoc(x: int, y: int, z: int)
    ensures (x * y) * z == x * (y * z)
  {}

  lemma MulDist(x: int, y: int, k: int)
    ensures (x + y) * k == x * k + y * k && k * (x + y) == k * x + k * y
    ensures (x - y) * k == x * k - y * k && k * (x - y) == k * x - k * y
  {}

  /** A quotient and remainder are the ones of the division. */
  lemma DivUnique(x: int, q: int, r: nat, d: nat)
    requires r < d && x == q * d + r
    ensures x / d == q && x % d == r
  {
    var q', r' := x / d, x % d;
    assert x == q' * d + r';
    MulDist(q, q', d);
    if q - q' >= 1 { MulMono(1, q - q', d); }
    if q - q' <= -1 { MulMono(q - q', -1, d); }
  }

  lemma MulDiv(q: int, d: nat)
    requires d > 0
    ensures q * d / d == q
  {
    DivUnique(q * d, q, 0, d);
  }

  lemma DivBound(x: nat, d: nat, q: nat)
    requires d > 0 && x <= q * d
    ensures x / d <= q
  {
    if x / d > q { MulMono(q + 1, x / d, d); }
  }

  lemma DivDiv(x: nat, a: nat, b: nat)
    requires a > 0 && b > 0
    ensures a * b > 0 && x / a / b == x / (a * b)
  {
    MulPos(a, b);
    var q, r := x / a, x % a;
    var q', r' := q / b, q % b;
    MulDist(q' * b, r', a);
    MulAssoc(q', b, a);
    MulMono(r' + 1, b, a);
    MulDist(r', 1, a);
    MulNonNeg(r', a);
    DivUnique(x, q', r' * a + r, a * b);
  }

  lemma CancelFactor(x: nat, k: nat, d: nat)
    requires k > 0 && d > 0
    ensures k * d > 0 && (x * k) / (k * d) == x / d
  {
    MulPos(k, d);
    var q, r := x / d, x % d;
    MulDist(q * d, r, k);
    MulAssoc(q, d, k);
    MulMono(r + 1, d, k);
    MulDist(r, 1, k);
    MulNonNeg(r, k);
    DivUnique(x * k, q, r * k, k * d);
  }

  /** A multiple of the divisor splits off a quotient. */
  lemma SplitQuotient(q: int, w: int, p: nat)
    requires p > 0
    ensures (q * p + w) / p == q + w / p && (q * p + w) % p == w % p
  {
    MulDist(q, w / p, p);
    DivUnique(q * p + w, q + w / p, w % p, p);
  }

  lemma CancelEqual(x: int, y: int, k: nat)
    requires k > 0 && x * k == y * k
    ensures x == y
  {
    MulDist(x, y, k);
    if x - y >= 1 { MulMono(1, x - y, k); }
    if x - y <= -1 { MulMono(x - y, -1, k); }
  }
}
