/** Bytes and unsigned 64-bit integers as bounded naturals; wrap-around is written out where the code relies on it. */
module Words {

  const TWO_TO_THE_64 := 0x1_0000_0000_0000_0000

  type Byte = n: nat | n < 0x100

  type Uint64 = n: nat | n < TWO_TO_THE_64

  /** Adding one wraps around after 64 bits. */
  function Successor(n: Uint64): Uint64 { if n + 1 == TWO_TO_THE_64 then 0 else n + 1 }

  lemma QuotientIsUnique(n: nat, m: nat, q: nat, r: nat)
    requires m >= 1 && r < m && n == q * m + r
    ensures n % m == r
  {
    var p, s := n / m, n % m;
    assert n == p * m + s;
    QuotientAtLeast(m, p, s, q, r);
    QuotientAtLeast(m, q, r, p, s);
  }

  lemma QuotientAtLeast(m: nat, p: nat, s: nat, q: nat, r: nat)
    requires s < m && p * m + s == q * m + r
    ensures p >= q
  {
    if p < q {
      assert (p + 1) * m == p * m + m;
      TimesMonotone(p + 1, q, m);
    }
  }

  lemma {:induction false} TimesMonotone(a: nat, b: nat, m: nat)
    requires a <= b
    ensures a * m <= b * m
    decreases b
  {
    if a < b {
      TimesMonotone(a, b - 1, m);
      assert b * m == (b - 1) * m + m;
    }
  }

  /** Dividing twice is dividing by the product. */
  lemma QuotientOfQuotient(n: nat, a: nat, b: nat)
    requires a >= 1 && b >= 1
    ensures a * b >= 1 && n / a / b == n / (a * b)
  {
    var q := n / a;
    TwiceDivided(n, a, q, n % a, b, q / b, q % b);
    QuotientIs(n, a * b, q / b, a * (q % b) + n % a);
  }

  lemma TwiceDivided(n: nat, a: nat, q: nat, r: nat, b: nat, p: nat, s: nat)
    requires n == a * q + r && r < a && q == b * p + s && s < b
    ensures n == p * (a * b) + (a * s + r) && a * s + r < a * b
  {
    assert a * (b * p + s) == a * (b * p) + a * s;
    assert a * (b * p) == p * (a * b);
    TimesMonotone(s, b - 1, a);
    assert (b - 1) * a == a * b - a;
  }

  lemma QuotientIs(n: nat, m: nat, q: nat, r: nat)
    requires m >= 1 && r < m && n == q * m + r
    ensures n / m == q
  {
    var p, s := n / m, n % m;
    assert n == p * m + s;
    QuotientAtLeast(m, p, s, q, r);
    QuotientAtLeast(m, q, r, p, s);
  }

  /** Multiplying by `a` and then by its inverse `b` modulo `m` changes nothing. */
  lemma InverseModulo(x: nat, a: nat, b: nat, k: nat, m: nat)
    requires x < m && a * b == 1 + k * m
    ensures ((x * a) % m * b) % m == x
  {
    var q, r := (x * a) / m, (x * a) % m;
    var t := x * k - q * b;
    assert r == x * a - q * m;
    Expand(x, a, q, m, b, k);
    QuotientIsUnique(r * b, m, t, x);
  }

  lemma Expand(x: int, a: int, q: int, m: int, b: int, k: int)
    requires a * b == 1 + k * m
    ensures (x * a - q * m) * b == x + (x * k - q * b) * m
  {
    assert (x * a - q * m) * b == x * a * b - q * m * b;
    assert x * a * b == x * (a * b) == x * (1 + k * m) == x + x * (k * m);
    assert x * (k * m) == (x * k) * m;
    assert q * m * b == (q * b) * m;
    assert (x * k - q * b) * m == (x * k) * m - (q * b) * m;
  }
}
