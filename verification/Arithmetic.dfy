/** Division and remainder of naturals, built up from products. */
module Arithmetic {

  lemma {:induction false} DivideTwice(n: nat, p: nat)
    requires p > 0
    ensures n / p / 2 == n / (2 * p)
  {
    var q, r := n / p, n % p;
    assert n == q * p + r;
    var a, b := q / 2, q % 2;
    assert n == a * (2 * p) + (b * p + r) by { assert q == 2 * a + b; }
    assert 0 <= b * p + r < 2 * p by { assert b == 0 || b == 1; }
    DivisionUnique(n, 2 * p, a, b * p + r);
  }

  lemma {:induction false} DivisionUnique(n: nat, d: nat, q: nat, r: nat)
    requires n == q * d + r && r < d
    ensures n / d == q && n % d == r
  {
    assert n == (n / d) * d + n % d;
    assert (n / d - q) * d == r - n % d;
    SmallMultipleIsZero(n / d - q, d);
  }

  lemma {:induction false} SmallMultipleIsZero(k: int, d: int)
    requires -d < k * d < d
    ensures k == 0
  {
    MultipleGrows(k, d);
  }

  lemma {:induction false} MultipleGrows(k: int, d: int)
    requires d > 0
    ensures k >= 1 ==> k * d >= d
    ensures k <= -1 ==> k * d <= -d
  {
    assert k >= 1 ==> (k - 1) * d >= 0;
    assert k <= -1 ==> (-k - 1) * d >= 0;
  }

  lemma {:induction false} DivisionShift(n: nat, p: nat)
    requires p > 0
    ensures n / p + 1 == (n + p) / p
  {
    assert n == (n / p) * p + n % p;
    assert n + p == (n / p + 1) * p + n % p;
    DivisionUnique(n + p, p, n / p + 1, n % p);
  }

  lemma {:induction false} QuotientZero(n: nat, d: nat)
    requires d > 0
    ensures n / d == 0 <==> n < d
  {
    assert n == (n / d) * d + n % d;
    if n < d { DivisionUnique(n, d, 0, n); }
  }

  lemma {:induction false} CeilingBound(n: nat, p: nat, index: nat)
    requires p > 0
    ensures index * p >= n <==> index >= (n + p - 1) / p
  {
    var m := n + p - 1;
    var q := m / p;
    assert m == q * p + m % p;
    MultipleGrows(index - q, p);
    assert (index - q) * p == index * p - q * p;
    MultipleGrows(index + 1 - q, p);
    assert (index + 1 - q) * p == index * p + p - q * p;
  }

  lemma {:induction false} CancelFactor(a: nat, b: nat, p: nat)
    requires p > 0
    ensures a * p == b * p <==> a == b
  {
    MultipleGrows(a - b, p);
    assert (a - b) * p == a * p - b * p;
  }

  lemma {:induction false} QuotientBelow(j: nat, p: nat, q: nat)
    requires p > 0 && j < q * p
    ensures j / p < q
  {
    assert j == (j / p) * p + j % p;
    assert (q - j / p) * p == q * p - (j / p) * p;
    MultipleGrows(q - j / p, p);
  }

  lemma {:induction false} NextMultiple(n: nat, d: nat)
    requires d > 0 && n % d == 0
    ensures (n + d) % d == 0
  {
    assert n == (n / d) * d;
    assert n + d == (n / d + 1) * d;
    DivisionUnique(n + d, d, n / d + 1, 0);
  }

  /** Less than a whole step past a multiple there is no other multiple. */
  lemma {:induction false} NoMultipleBetween(n: nat, d: nat, m: nat)
    requires d > 0 && n % d == 0 && n <= m < n + d && m % d == 0
    ensures m == n
  {
    assert n == (n / d) * d;
    assert m == (n / d) * d + (m - n);
    DivisionUnique(m, d, n / d, m - n);
  }
}
