/** Integer powers and powers of two. */
module Powers {
  import opened Congruence
  import opened Bytes

  // the base is in the decreases clause so that a literal exponent is not unrolled
  function Pow(b: int, e: nat): int
    decreases e, b
  {
    if e == 0 then 1 else b * Pow(b, e - 1)
  }

  lemma {:induction false} PowAdd(b: int, m: nat, n: nat)
    ensures Pow(b, m + n) == Pow(b, m) * Pow(b, n)
  {
    if m > 0 {
      PowAdd(b, m - 1, n);
      assert Pow(b, m + n) == b * Pow(b, (m - 1) + n);
      assert b * (Pow(b, m - 1) * Pow(b, n)) == (b * Pow(b, m - 1)) * Pow(b, n);
    }
  }

  lemma {:induction false} PowCong(a: int, b: int, e: nat, m: int)
    requires m > 0 && Cong(a, b, m)
    ensures Cong(Pow(a, e), Pow(b, e), m)
  {
    if e > 0 {
      PowCong(a, b, e - 1, m);
      CongMul(a, b, Pow(a, e - 1), Pow(b, e - 1), m);
    }
  }

  lemma Regroup(a: int, b: int, x: int, y: int)
    ensures (a * b) * (x * y) == (a * x) * (b * y)
  {
  }

  lemma {:induction false} PowOfProduct(a: int, b: int, e: nat)
    ensures Pow(a * b, e) == Pow(a, e) * Pow(b, e)
  {
    if e > 0 {
      PowOfProduct(a, b, e - 1);
      Regroup(a, b, Pow(a, e - 1), Pow(b, e - 1));
    }
  }

  lemma {:induction false} PowOfPow(b: int, m: nat, n: nat)
    ensures Pow(Pow(b, m), n) == Pow(b, m * n)
  {
    if n > 0 {
      PowOfPow(b, m, n - 1);
      assert m * n == m + m * (n - 1);
      PowAdd(b, m, m * (n - 1));
    }
  }

  lemma {:induction false} Pow2Add(m: nat, n: nat)
    ensures Pow2(m + n) == Pow2(m) * Pow2(n)
  {
    if m > 0 {
      Pow2Add(m - 1, n);
      assert Pow2(m + n) == 2 * Pow2((m - 1) + n);
    }
  }

  lemma Pow2Join(m: nat, n: nat, x: nat, y: nat)
    requires Pow2(m) == x && Pow2(n) == y
    ensures Pow2(m + n) == x * y
  {
    Pow2Add(m, n);
  }

  lemma Pow2At255()
    ensures Pow2(255) == 0x8000_0000_0000_0000_0000_0000_0000_0000_0000_0000_0000_0000_0000_0000_0000_0000
  {
    Pow2Join(5, 5, 0x20, 0x20);
    Pow2Join(10, 5, 0x400, 0x20);
    Pow2Join(15, 15, 0x8000, 0x8000);
    Pow2Join(30, 30, 0x4000_0000, 0x4000_0000);
    Pow2Join(60, 60, 0x1000_0000_0000_0000, 0x1000_0000_0000_0000);
    Pow2Join(120, 120, 0x100_0000_0000_0000_0000_0000_0000_0000, 0x100_0000_0000_0000_0000_0000_0000_0000);
    Pow2Join(240, 15, 0x1_0000_0000_0000_0000_0000_0000_0000_0000_0000_0000_0000_0000_0000_0000_0000, 0x8000);
  }
}
