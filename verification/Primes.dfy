/** The moduli called prime here are the primes. */
module Primes {
  import opened Congruence

  ghost predicate Irreducible(m: int) {
    m > 1 && forall d {:trigger m % d} :: 1 < d < m ==> m % d != 0
  }

  /** Euclid's lemma for a factor below m, from the remainder of m by it. */
  lemma {:induction false} Euclid(a: int, b: int, m: int)
    requires Irreducible(m) && 0 < a < m && Cong(a * b, 0, m)
    ensures Cong(b, 0, m)
    decreases a
  {
    if a > 1 {
      var q, r := m / a, m % a;
      var k := CongElim(a * b, 0, m);
      Remainder(a, b, q, r, k, m);
      CongIntro(r * b, 0, b - q * k, m);
      Euclid(r, b, m);
    }
  }

  lemma Remainder(a: int, b: int, q: int, r: int, k: int, m: int)
    requires a * b == k * m && m == q * a + r
    ensures r * b == (b - q * k) * m
  {
    assert r * b == m * b - (q * a) * b == m * b - q * (a * b) == m * b - q * (k * m);
    assert (b - q * k) * m == b * m - (q * k) * m;
  }

  /** Above 1 and divided by nothing between 1 and itself. */
  lemma PrimeIffIrreducible(m: int)
    ensures PrimeModulus(m) <==> m > 1 && forall d :: 1 < d < m ==> m % d != 0
  {
    if Irreducible(m) {
      forall a: int, b: int {:trigger (a * b) % m} | (a * b) % m == 0
        ensures a % m == 0 || b % m == 0
      {
        FactorVanishes(a, b, m);
      }
    }
    if PrimeModulus(m) {
      forall d | 1 < d < m
        ensures m % d != 0
      {
        NotDivisor(d, m);
      }
    }
  }

  lemma FactorVanishes(a: int, b: int, m: int)
    requires Irreducible(m) && (a * b) % m == 0
    ensures a % m == 0 || b % m == 0
  {
    DivModUnique(0, 0, 0, m);
    if a % m != 0 {
      CongRes(a, m);
      CongMul(a % m, a, b, b, m);
      Euclid(a % m, b, m);
    }
  }

  lemma NotDivisor(d: int, m: int)
    requires PrimeModulus(m) && 1 < d < m
    ensures m % d != 0
  {
    if m % d == 0 {
      var q := m / d;
      assert m == q * d && 0 < q < m;
      DivModUnique(m, 1, 0, m);
      DivModUnique(q, 0, q, m);
      DivModUnique(d, 0, d, m);
      assert false;
    }
  }
}
