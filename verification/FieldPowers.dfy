/** Inversion and square-root exponentiation by addition chains (edwards25519.go:505-619). */
module FieldPowers {
  import opened Congruence
  import opened Bytes
  import opened Powers
  import opened Fermat
  import opened FieldElement

  /** `f` represents z^e. */
  ghost predicate IsPow(f: Fe, z: int, e: nat) {
    Bounded(f, 3) && Cong(Val(f), Pow(z, e), P)
  }

  /** Multiplying powers adds exponents. */
  method MulPow(f: Fe, g: Fe, ghost z: int, ghost d: nat, ghost e: nat) returns (h: Fe)
    requires IsPow(f, z, d) && IsPow(g, z, e)
    ensures Bounded(h, 1) && IsPow(h, z, d + e)
  {
    h := FeMul(f, g);
    Widen(h, 1, 3);
    CongMul(Val(f), Pow(z, d), Val(g), Pow(z, e), P);
    PowAdd(z, d, e);
  }

  method SquarePow(f: Fe, ghost z: int, ghost e: nat) returns (h: Fe)
    requires IsPow(f, z, e)
    ensures IsPow(h, z, 2 * e)
  {
    h := FeSquare(f);
    Widen(h, 1, 3);
    CongMul(Val(f), Pow(z, e), Val(f), Pow(z, e), P);
    PowAdd(z, e, e);
  }

  lemma DoubledShift(e: nat, i: nat)
    ensures 2 * (e * Pow2(i)) == e * Pow2(i + 1)
  {
  }

  /** A squaring followed by the loop `for i = 1; i < n; i++` of squarings in place. */
  method SquareTimes(f: Fe, n: nat, ghost z: int, ghost e: nat) returns (h: Fe)
    requires n > 0 && IsPow(f, z, e)
    ensures IsPow(h, z, e * Pow2(n))
  {
    ghost var k := 2 * e;
    h := SquarePow(f, z, e);
    assert Pow2(1) == 2;
    for i := 1 to n
      invariant k == e * Pow2(i) && IsPow(h, z, k)
    {
      h := SquarePow(h, z, k);
      k := 2 * k;
      assert k == e * Pow2(i + 1) by { DoubledShift(e, i); }
    }
  }

  /** 2^n - 1: n ones in binary. */
  function Ones(n: nat): nat {
    Pow2(n) - 1
  }

  lemma OnesJoin(m: nat, n: nat)
    ensures Ones(m) * Pow2(n) + Ones(n) == Ones(m + n)
  {
    Pow2Add(m, n);
  }

  /** Ones(m) shifted up by n and filled with Ones(n). */
  method FillOnes(f: Fe, g: Fe, ghost m: nat, ghost n: nat, ghost z: int) returns (h: Fe)
    requires IsPow(f, z, Ones(m) * Pow2(n)) && IsPow(g, z, Ones(n))
    ensures IsPow(h, z, Ones(m + n))
  {
    h := MulPow(f, g, z, Ones(m) * Pow2(n), Ones(n));
    OnesJoin(m, n);
  }

  /** The common middle of both chains: five ones, doubled up to 250 ones. */
  method OnesLadder(t: Fe, ghost v: int) returns (t1: Fe)
    requires IsPow(t, v, Ones(5))
    ensures IsPow(t1, v, Ones(250))
  {
    var t2, t3;
    t2 := SquareTimes(t, 5, v, Ones(5));
    t1 := FillOnes(t2, t, 5, 5, v);
    t2 := SquareTimes(t1, 10, v, Ones(10));
    t2 := FillOnes(t2, t1, 10, 10, v);
    t3 := SquareTimes(t2, 20, v, Ones(20));
    t2 := FillOnes(t3, t2, 20, 20, v);
    t2 := SquareTimes(t2, 10, v, Ones(40));
    t1 := FillOnes(t2, t1, 40, 10, v);
    t2 := SquareTimes(t1, 50, v, Ones(50));
    t2 := FillOnes(t2, t1, 50, 50, v);
    t3 := SquareTimes(t2, 100, v, Ones(100));
    t2 := FillOnes(t3, t2, 100, 100, v);
    t2 := SquareTimes(t2, 50, v, Ones(200));
    t1 := FillOnes(t2, t1, 200, 50, v);
  }

  lemma ChainExponents()
    ensures Ones(5) == 31 && Pow2(1) == 2 && Pow2(2) == 4 && Pow2(5) == 32
    ensures Ones(250) * 32 + 11 == P - 2
    ensures Ones(250) * 4 + 1 == (P - 5) / 8
  {
    assert Pow2(5) == 32;
    PValue();
    Pow2At255();
    Pow2Add(250, 5);
  }

  /** By Fermat's little theorem the power P-2 is an inverse. */
  lemma PowerInverts(z: int, w: int, p: int)
    requires PrimeModulus(p) && !Cong(z, 0, p) && Cong(w, Pow(z, p - 2), p)
    ensures Cong(z * w, 1, p)
  {
    FermatLittle(z, p);
    CongMul(z, z, w, Pow(z, p - 2), p);
  }

  /** out = z^(P-2): ones at bits 254 to 5, then 3, 1 and 0. */
  method FeInvert(z: Fe) returns (out: Fe)
    requires Bounded(z, 3)
    ensures Bounded(out, 1)
    ensures Cong(Val(out), Pow(Val(z), P - 2), P)
    ensures PrimeModulus(P) && !Cong(Val(z), 0, P) ==> Cong(Val(z) * Val(out), 1, P)
  {
    ghost var v := Val(z);
    assert IsPow(z, v, 1);
    ChainExponents();
    var t0, t1, t2;
    t0 := SquarePow(z, v, 1);
    t1 := SquareTimes(t0, 2, v, 2);
    t1 := MulPow(z, t1, v, 1, 8);
    t0 := MulPow(t0, t1, v, 2, 9);
    t2 := SquarePow(t0, v, 11);
    t1 := MulPow(t1, t2, v, 9, 22);
    t1 := OnesLadder(t1, v);
    t1 := SquareTimes(t1, 5, v, Ones(250));
    out := MulPow(t1, t0, v, Ones(250) * 32, 11);
    if PrimeModulus(P) && !Cong(v, 0, P) {
      PowerInverts(v, Val(out), P);
    }
  }

  /** out = z^(2^252 - 3) = z^((P-5)/8). */
  method FePow22523(z: Fe) returns (out: Fe)
    requires Bounded(z, 3)
    ensures Bounded(out, 1)
    ensures Cong(Val(out), Pow(Val(z), (P - 5) / 8), P)
  {
    ghost var v := Val(z);
    assert IsPow(z, v, 1);
    ChainExponents();
    var t0, t1;
    t0 := SquareTimes(z, 1, v, 1);
    t1 := SquareTimes(t0, 2, v, 2);
    t1 := MulPow(z, t1, v, 1, 8);
    t0 := MulPow(t0, t1, v, 2, 9);
    t0 := SquareTimes(t0, 1, v, 11);
    t0 := MulPow(t1, t0, v, 9, 22);
    t0 := OnesLadder(t0, v);
    t0 := SquareTimes(t0, 2, v, Ones(250));
    out := MulPow(t0, z, v, Ones(250) * 4, 1);
  }
}
