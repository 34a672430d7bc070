/** Fermat's little theorem for a prime modulus, from the multiples of `a` permuting the residues. */
module Fermat {
  import opened Congruence
  import opened Powers

  ghost function Product(s: set<int>): int {
    if exists x :: x in s then var x :| x in s; x * Product(s - {x}) else 1
  }

  lemma {:induction false} ProductRemove(s: set<int>, x: int)
    requires x in s
    ensures Product(s) == x * Product(s - {x})
    decreases |s|
  {
    var y :| y in s && Product(s) == y * Product(s - {y});
    if x != y {
      ProductRemove(s - {y}, x);
      ProductRemove(s - {x}, y);
      assert s - {x} - {y} == s - {y} - {x};
      var r := Product(s - {x} - {y});
      assert y * (x * r) == x * (y * r);
    }
  }

  function Factorial(n: nat): nat {
    if n == 0 then 1 else n * Factorial(n - 1)
  }

  /** The residues of a, 2a, ..., na. */
  ghost function Multiples(a: int, n: nat, p: int): set<int>
    requires p > 0
  {
    if n == 0 then {} else Multiples(a, n - 1, p) + {(a * n) % p}
  }

  lemma {:induction false} InMultiples(a: int, n: nat, p: int, r: int) returns (i: nat)
    requires p > 0 && r in Multiples(a, n, p)
    ensures 1 <= i <= n && r == (a * i) % p
  {
    if r == (a * n) % p {
      i := n;
    } else {
      i := InMultiples(a, n - 1, p, r);
    }
  }

  lemma NewMultiple(a: int, n: nat, p: int)
    requires PrimeModulus(p) && !Cong(a, 0, p) && 0 < n < p
    ensures (a * n) % p !in Multiples(a, n - 1, p)
  {
    if (a * n) % p in Multiples(a, n - 1, p) {
      var i := InMultiples(a, n - 1, p, (a * n) % p);
      CongCancel(a, n, i, p);
      CongRange(n, i, p);
    }
  }

  lemma {:induction false} MultiplesProduct(a: int, n: nat, p: int)
    requires PrimeModulus(p) && !Cong(a, 0, p) && n < p
    ensures |Multiples(a, n, p)| == n
    ensures Cong(Product(Multiples(a, n, p)), Pow(a, n) * Factorial(n), p)
  {
    if n > 0 {
      var r, s := (a * n) % p, Multiples(a, n - 1, p);
      MultiplesProduct(a, n - 1, p);
      NewMultiple(a, n, p);
      ProductRemove(s + {r}, r);
      assert s + {r} - {r} == s;
      CongRes(a * n, p);
      CongMul(r, a * n, Product(s), Pow(a, n - 1) * Factorial(n - 1), p);
      Regroup(a, n, Pow(a, n - 1), Factorial(n - 1));
    }
  }

  /** The nonzero residues, as the multiples of 1. */
  lemma {:induction false} Residues(n: nat, p: int, r: int)
    requires 0 <= n < p
    ensures r in Multiples(1, n, p) <==> 1 <= r <= n
  {
    if n > 0 {
      Residues(n - 1, p, r);
      DivModUnique(n, 0, n, p);
    }
  }

  lemma MultiplesAreResidues(a: int, p: int)
    requires PrimeModulus(p) && !Cong(a, 0, p) && !Cong(1, 0, p)
    ensures Multiples(a, p - 1, p) == Multiples(1, p - 1, p)
  {
    var s, t := Multiples(a, p - 1, p), Multiples(1, p - 1, p);
    forall r | r in s
      ensures r in t
    {
      var i := InMultiples(a, p - 1, p, r);
      DivModUnique(i, 0, i, p);
      DivModUnique(0, 0, 0, p);
      CongNonzeroMul(a, i, p);
      Residues(p - 1, p, r);
    }
    MultiplesProduct(a, p - 1, p);
    MultiplesProduct(1, p - 1, p);
    assert |t - s| == |t| - |s|;
    assert t == s + (t - s);
  }

  lemma {:induction false} FactorialNonzero(n: nat, p: int)
    requires PrimeModulus(p) && n < p
    ensures !Cong(Factorial(n), 0, p)
  {
    DivModUnique(0, 0, 0, p);
    if n == 0 {
      DivModUnique(1, 0, 1, p);
    } else {
      FactorialNonzero(n - 1, p);
      DivModUnique(n, 0, n, p);
      CongNonzeroMul(n, Factorial(n - 1), p);
    }
  }

  lemma {:induction false} PowOfOne(n: nat)
    ensures Pow(1, n) == 1
  {
    if n > 0 {
      PowOfOne(n - 1);
    }
  }

  lemma FermatLittle(a: int, p: int)
    requires PrimeModulus(p) && !Cong(a, 0, p)
    ensures Cong(Pow(a, p - 1), 1, p)
  {
    DivModUnique(0, 0, 0, p);
    DivModUnique(1, 0, 1, p);
    MultiplesAreResidues(a, p);
    MultiplesProduct(a, p - 1, p);
    MultiplesProduct(1, p - 1, p);
    PowOfOne(p - 1);
    var f := Factorial(p - 1);
    FactorialNonzero(p - 1, p);
    assert f * Pow(a, p - 1) == Pow(a, p - 1) * f;
    CongCancel(f, Pow(a, p - 1), 1, p);
  }
}
