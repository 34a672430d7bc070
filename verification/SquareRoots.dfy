/** Square roots of ratios modulo a prime p = 8e + 5 (RFC 8032, section 5.1.3). */
module SquareRoots {
  import opened Congruence
  import opened Powers
  import opened Fermat

  /** v w^2 = u */
  predicate IsRoot(w: int, u: int, v: int, p: int)
    requires p > 0
  {
    Cong(v * (w * w), u, p)
  }

  function Cube(v: int): int {
    (v * v) * v
  }

  /** u v^7 */
  function Seventh(u: int, v: int): int {
    ((Cube(v) * Cube(v)) * v) * u
  }

  /** u v^3 (u v^7)^e */
  function Candidate(u: int, v: int, e: nat): int {
    (Pow(Seventh(u, v), e) * Cube(v)) * u
  }

  lemma CollectCandidate(h: int, c: int, u: int, v: int)
    ensures v * (((h * c) * u) * ((h * c) * u)) == u * ((((c * c) * v) * u) * (h * h))
  {
  }

  lemma CandidateSquared(u: int, v: int, e: nat)
    ensures v * (Candidate(u, v, e) * Candidate(u, v, e)) == u * Pow(Seventh(u, v), 2 * e + 1)
  {
    var t := Seventh(u, v);
    PowAdd(t, e, e);
    CollectCandidate(Pow(t, e), Cube(v), u, v);
    assert Pow(t, 2 * e + 1) == t * Pow(t, 2 * e);
  }

  lemma EighthIsSquare(c: int, v: int, w: int)
    ensures ((c * c) * v) * (v * (w * w)) == ((c * v) * w) * ((c * v) * w)
  {
  }

  lemma RootOfUnity(r: int, p: int)
    requires PrimeModulus(p) && Cong(r * r, 1, p)
    ensures Cong(r, 1, p) || Cong(r, -1, p)
  {
    assert (r - 1) * (r + 1) == r * r - 1;
    CongSub(r * r, 1, 1, 1, p);
    CongZeroFactor(r - 1, r + 1, p);
    CongDiff(r, 1, p);
    CongDiff(r, -1, p);
  }

  /** The half-order power of a square is its root's full power, 0 or a sign. */
  lemma PowerOfSquare(t: int, k: int, e: nat, p: int)
    requires PrimeModulus(p) && p == 8 * e + 5 && Cong(t, k * k, p)
    ensures var r := Pow(t, 2 * e + 1); Cong(t, 0, p) || Cong(r, 1, p) || Cong(r, -1, p)
  {
    var r := Pow(t, 2 * e + 1);
    if Cong(k, 0, p) {
      CongZeroMul(k, k, p);
    } else {
      PowCong(t, k * k, 2 * e + 1, p);
      PowOfProduct(k, k, 2 * e + 1);
      var h := Pow(k, 2 * e + 1);
      PowAdd(k, 2 * e + 1, 2 * e + 1);
      CongMul(r, h * h, r, h * h, p);
      PowAdd(k, 4 * e + 2, 4 * e + 2);
      FermatLittle(k, p);
      RootOfUnity(r, p);
    }
  }

  lemma ScaledBySign(u: int, r: int, p: int)
    requires p > 0 && (Cong(r, 1, p) || Cong(r, -1, p))
    ensures Cong(u * r, u, p) || Cong(u * r, -u, p)
  {
    if Cong(r, 1, p) {
      CongMul(u, u, r, 1, p);
    } else {
      CongMul(u, u, r, -1, p);
    }
  }

  /** If u/v has a square root at all, the candidate's square is u/v up to sign. */
  lemma CandidateWorks(u: int, v: int, w: int, e: nat, p: int)
    requires PrimeModulus(p) && p == 8 * e + 5 && IsRoot(w, u, v, p)
    ensures var x := Candidate(u, v, e); IsRoot(x, u, v, p) || IsRoot(x, -u, v, p)
  {
    var c := Cube(v);
    var t, k := Seventh(u, v), (c * v) * w;
    CandidateSquared(u, v, e);
    CongMul((c * c) * v, (c * c) * v, u, v * (w * w), p);
    EighthIsSquare(c, v, w);
    PowerOfSquare(t, k, e, p);
    var r := Pow(t, 2 * e + 1);
    if Cong(t, 0, p) {
      VanishingCandidate(u, v, w, e, p);
    } else {
      ScaledBySign(u, r, p);
    }
  }

  lemma VanishingCandidate(u: int, v: int, w: int, e: nat, p: int)
    requires PrimeModulus(p) && IsRoot(w, u, v, p) && Cong(Seventh(u, v), 0, p)
    ensures IsRoot(Candidate(u, v, e), u, v, p)
  {
    var x := Candidate(u, v, e);
    assert Cong(u, 0, p) by {
      CongZeroFactor((Cube(v) * Cube(v)) * v, u, p);
      if !Cong(u, 0, p) {
        CongZeroFactor(Cube(v) * Cube(v), v, p);
        if !Cong(v, 0, p) {
          CongNonzeroMul(v, v, p);
          CongNonzeroMul(v * v, v, p);
          CongNonzeroMul(Cube(v), Cube(v), p);
        }
        CongZeroMul(v, w * w, p);
      }
    }
    CandidateSquared(u, v, e);
    CongZeroMul(u, Pow(Seventh(u, v), 2 * e + 1), p);
  }

  lemma RootTimes(v: int, x: int, i: int)
    ensures v * ((x * i) * (x * i)) == (v * (x * x)) * (i * i)
  {
  }

  /** A square root of -1 turns a root of -u/v into a root of u/v. */
  lemma OtherRoot(x: int, x': int, i: int, u: int, v: int, p: int)
    requires p > 0 && IsRoot(x, -u, v, p) && Cong(i * i, -1, p) && Cong(x', x * i, p)
    ensures IsRoot(x', u, v, p)
  {
    CongMul(x', x * i, x', x * i, p);
    CongMul(v, v, x' * x', (x * i) * (x * i), p);
    RootTimes(v, x, i);
    CongMul(v * (x * x), -u, i * i, -1, p);
  }

  /** Two roots of the same ratio differ by sign at most. */
  lemma RootsOpposite(a: int, b: int, u: int, v: int, p: int)
    requires PrimeModulus(p) && !Cong(v, 0, p) && IsRoot(a, u, v, p) && IsRoot(b, u, v, p)
    ensures Cong(a, b, p) || Cong(a, -b, p)
  {
    CongCancel(v, a * a, b * b, p);
    CongDiff(a * a, b * b, p);
    assert (a - b) * (a + b) == a * a - b * b;
    CongZeroFactor(a - b, a + b, p);
    CongDiff(a, b, p);
    CongDiff(a, -b, p);
  }

  /** Negation flips the parity of a nonzero residue of an odd modulus. */
  lemma NegatedParity(x: int, p: int)
    requires p > 0 && p % 2 == 1 && 0 < x < p
    ensures (-x) % p == p - x && ((-x) % p) % 2 != x % 2
  {
    DivModUnique(-x, -1, p - x, p);
  }

  lemma OnePlusRoot(i: int, r: int, p: int)
    requires p > 0 && Cong(i * i, -1, p) && Cong(r * r, 2, p)
    ensures Cong((1 + i) * (1 + i), i * (r * r), p)
  {
    assert (1 + i) * (1 + i) == (i * i + 1) + i * 2;
    CongAdd(i * i, -1, 1, 1, p);
    CongMul(i, i, r * r, 2, p);
    CongAdd(i * i + 1, 0, i * 2, i * (r * r), p);
  }

  /** The square of a nonzero number to the power 4e + 2 is 1. */
  lemma FullPower(z: int, e: nat, p: int)
    requires PrimeModulus(p) && p == 8 * e + 5 && !Cong(z, 0, p)
    ensures Cong(Pow(z * z, 4 * e + 2), 1, p)
  {
    PowOfProduct(z, z, 4 * e + 2);
    PowAdd(z, 4 * e + 2, 4 * e + 2);
    FermatLittle(z, p);
  }

  lemma {:induction false} PowOfMinusOne(n: nat)
    ensures Pow(-1, n) == if n % 2 == 0 then 1 else -1
  {
    if n > 0 {
      PowOfMinusOne(n - 1);
    }
  }

  lemma SmallNonzero(n: int, p: int)
    requires 0 < n < p
    ensures !Cong(n, 0, p)
  {
    DivModUnique(n, 0, n, p);
    DivModUnique(0, 0, 0, p);
  }

  /** 2 is not a square: from (1 + i)^2 = i r^2, with i^2 = -1, the power 4e + 2 would make 1 equal to -1. */
  lemma TwoIsNoSquare(i: int, r: int, e: nat, p: int)
    requires PrimeModulus(p) && p == 8 * e + 5 && Cong(i * i, -1, p)
    ensures !Cong(r * r, 2, p)
  {
    if Cong(r * r, 2, p) {
      var n := 4 * e + 2;
      SmallNonzero(2, p);
      if Cong(r, 0, p) {
        CongZeroMul(r, r, p);
      }
      OnePlusRoot(i, r, p);
      assert !Cong(1 + i, 0, p) by {
        if Cong(1 + i, 0, p) {
          CongSub(1 + i, 0, 1, 1, p);
          CongMul(i, -1, i, -1, p);
          CongSub(1, -1, -1, -1, p);
        }
      }
      FullPower(1 + i, e, p);
      FullPower(r, e, p);
      PowCong((1 + i) * (1 + i), i * (r * r), n, p);
      PowOfProduct(i, r * r, n);
      HalfPowerOfRoot(i, e, p);
      CongMul(Pow(i, n), -1, Pow(r * r, n), 1, p);
      CongSub(1, -1, -1, -1, p);
    }
  }

  lemma HalfPowerOfRoot(i: int, e: nat, p: int)
    requires p > 0 && Cong(i * i, -1, p)
    ensures Cong(Pow(i, 4 * e + 2), -1, p)
  {
    PowAdd(i, 2 * e + 1, 2 * e + 1);
    PowOfProduct(i, i, 2 * e + 1);
    PowCong(i * i, -1, 2 * e + 1, p);
    PowOfMinusOne(2 * e + 1);
  }
}
