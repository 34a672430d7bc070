/** Integer congruences.  Both moduli of the curve arithmetic, the field prime
    and the group order, are instances of the abstract modulus `m` here. */
module Congruence {

  predicate Cong(a: int, b: int, m: int)
    requires m > 0
  {
    a % m == b % m
  }

  /** A product vanishes only when a factor does: what primality of `m` is used for. */
  ghost predicate PrimeModulus(m: int) {
    && m > 1
    && forall a: int, b: int {:trigger (a * b) % m} ::
         (a * b) % m == 0 ==> a % m == 0 || b % m == 0
  }

  lemma MulAtLeast(k: int, m: int)
    requires m > 0
    ensures k >= 1 ==> k * m >= m
    ensures k <= -1 ==> k * m <= -m
  {
  }

  lemma SmallMultiple(k: int, m: int)
    requires m > 0 && -m < k * m < m
    ensures k == 0
  {
    MulAtLeast(k, m);
  }

  /** A representation `q * m + r` with `r` in range determines quotient and remainder. */
  lemma DivModUnique(a: int, q: int, r: int, m: int)
    requires m > 0 && a == q * m + r && 0 <= r < m
    ensures a / m == q && a % m == r
  {
    var k := a / m - q;
    assert k * m == (a / m) * m - q * m;
    SmallMultiple(k, m);
  }

  lemma CongIntro(a: int, b: int, k: int, m: int)
    requires m > 0 && a == b + k * m
    ensures Cong(a, b, m)
  {
    var q, r := b / m, b % m;
    assert (q + k) * m == q * m + k * m;
    DivModUnique(a, q + k, r, m);
  }

  lemma CongElim(a: int, b: int, m: int) returns (k: int)
    requires m > 0 && Cong(a, b, m)
    ensures a == b + k * m
  {
    k := a / m - b / m;
    assert k * m == (a / m) * m - (b / m) * m;
  }

  lemma CongAdd(a: int, a': int, b: int, b': int, m: int)
    requires m > 0 && Cong(a, a', m) && Cong(b, b', m)
    ensures Cong(a + b, a' + b', m)
  {
    var j := CongElim(a, a', m);
    var k := CongElim(b, b', m);
    assert (j + k) * m == j * m + k * m;
    CongIntro(a + b, a' + b', j + k, m);
  }

  lemma CongSub(a: int, a': int, b: int, b': int, m: int)
    requires m > 0 && Cong(a, a', m) && Cong(b, b', m)
    ensures Cong(a - b, a' - b', m)
  {
    var j := CongElim(a, a', m);
    var k := CongElim(b, b', m);
    assert (j - k) * m == j * m - k * m;
    CongIntro(a - b, a' - b', j - k, m);
  }

  lemma CongMul(a: int, a': int, b: int, b': int, m: int)
    requires m > 0 && Cong(a, a', m) && Cong(b, b', m)
    ensures Cong(a * b, a' * b', m)
  {
    var j := CongElim(a, a', m);
    var k := CongElim(b, b', m);
    var t := a' * k + j * b' + j * k * m;
    assert a * b == a' * b' + t * m by {
      assert a * b == (a' + j * m) * (b' + k * m);
    }
    CongIntro(a * b, a' * b', t, m);
  }

  lemma CongRes(a: int, m: int)
    requires m > 0
    ensures Cong(a % m, a, m)
  {
    CongIntro(a % m, a, -(a / m), m);
  }

  /** In `[0, m)` congruence is equality. */
  lemma CongRange(a: int, b: int, m: int)
    requires m > 0 && 0 <= a < m && 0 <= b < m && Cong(a, b, m)
    ensures a == b
  {
    DivModUnique(a, 0, a, m);
    DivModUnique(b, 0, b, m);
  }

  lemma CongDiff(a: int, b: int, m: int)
    requires m > 0
    ensures Cong(a - b, 0, m) <==> Cong(a, b, m)
  {
    if Cong(a - b, 0, m) {
      var k := CongElim(a - b, 0, m);
      CongIntro(a, b, k, m);
    }
    if Cong(a, b, m) {
      var k := CongElim(a, b, m);
      CongIntro(a - b, 0, k, m);
    }
  }

  /** Cancelling a nonzero factor: where primality enters. */
  lemma CongCancel(c: int, a: int, b: int, m: int)
    requires PrimeModulus(m)
    requires !Cong(c, 0, m) && Cong(c * a, c * b, m)
    ensures Cong(a, b, m)
  {
    CongDiff(c * a, c * b, m);
    assert c * a - c * b == c * (a - b);
    DivModUnique(0, 0, 0, m);
    assert (c * (a - b)) % m == 0;
    CongDiff(a, b, m);
  }

  lemma CongNonzeroMul(a: int, b: int, m: int)
    requires PrimeModulus(m)
    requires !Cong(a, 0, m) && !Cong(b, 0, m)
    ensures !Cong(a * b, 0, m)
  {
    DivModUnique(0, 0, 0, m);
    var r := (a * b) % m;
  }

  lemma CongZeroFactor(a: int, b: int, m: int)
    requires PrimeModulus(m) && Cong(a * b, 0, m)
    ensures Cong(a, 0, m) || Cong(b, 0, m)
  {
    DivModUnique(0, 0, 0, m);
  }

  lemma CongZeroMul(a: int, b: int, m: int)
    requires m > 0 && (Cong(a, 0, m) || Cong(b, 0, m))
    ensures Cong(a * b, 0, m)
  {
    if Cong(a, 0, m) {
      CongMul(a, 0, b, b, m);
    } else {
      CongMul(a, a, b, 0, m);
    }
  }
}
