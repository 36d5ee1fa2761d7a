/** Facts about division that the solver does not find on its own. */
module Arithmetic {

  lemma {:induction false} SmallMultiple(d: int, k: int)
    requires -d < d * k < d
    ensures k == 0
  {
    assert k >= 1 ==> d * k >= d * 1;
    assert k <= -1 ==> d * k <= d * -1;
  }

  lemma {:induction false} DivUnique(x: int, d: int, q: int, r: int)
    requires 0 <= r < d && x == d * q + r
    ensures x / d == q && x % d == r
  {
    var e, m := x / d, x % d;
    assert d * (e - q) == r - m;
    SmallMultiple(d, e - q);
  }

  lemma {:induction false} Euclid(x: nat, d: nat)
    requires d >= 1
    ensures x == d * (x / d) + x % d && 0 <= x % d < d && x / d >= 0
  {
  }

  lemma {:induction false} MulAssoc(a: int, b: int, c: int)
    ensures a * (b * c) == (a * b) * c
  {
  }

  /** Splitting the lowest byte off a remainder. */
  lemma {:induction false} ModSplit256(n: nat, p: nat)
    requires p >= 1
    ensures n % (256 * p) == n % 256 + 256 * ((n / 256) % p)
  {
    var a := n / 256;
    Euclid(a, p);
    var q, r := a / p, a % p;
    MulAssoc(256, p, q);
    DivUnique(n, 256 * p, q, 256 * r + n % 256);
  }

  lemma {:induction false} DivDiv(n: nat, a: nat, b: nat)
    requires a >= 1 && b >= 1
    ensures a * b >= 1 && n / a / b == n / (a * b)
  {
    Euclid(n, a);
    Euclid(n / a, b);
    var q, r := n / a / b, n / a % b;
    MulAssoc(a, b, q);
    assert n == (a * b) * q + (a * r + n % a);
    assert a * r <= a * (b - 1);
    DivUnique(n, a * b, q, a * r + n % a);
  }

  lemma {:induction false} ModOfShift(v: int, p: nat)
    requires 0 <= 2 * v + p && 2 * v < p
    ensures (if v < 0 then v + p else v) % p == v % p
  {
    var u := if v < 0 then v + p else v;
    DivUnique(u, p, 0, u);
    DivUnique(v, p, if v < 0 then -1 else 0, u);
  }
}
