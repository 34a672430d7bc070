/** Curve points to and from 32 bytes: y in 255 bits, the parity of x in the last. */
module PointCodec {
  import opened MachineInt
  import opened Congruence
  import opened Bytes
  import opened TwosComplement
  import opened Powers
  import opened Fermat
  import opened SquareRoots
  import opened FieldElement
  import opened FieldCodec
  import opened FieldPowers
  import opened Edwards
  import opened CurveGroup
  import opened PointFormulas
  import opened Coordinates

  /** The bytes denote the point.  Neither y >= P nor a parity bit beside x = 0 is refused. */
  predicate Encodes(s: Bytes32, q: CurvePoint) {
    && q.y == (LeVal(s) % X255) % P
    && (q.x == 0 || q.x % 2 == LeVal(s) / X255)
  }

  /** The encoding of a point. */
  predicate IsEncoding(s: Bytes32, q: CurvePoint) {
    LeVal(s) == q.y + X255 * (q.x % 2)
  }

  /** The bytes of a point. */
  function Encoding(q: CurvePoint): (s: Bytes32)
    ensures IsEncoding(s, q)
  {
    var n := q.y + X255 * (q.x % 2);
    assert n < Pow2(8 * 32) by {
      PValue();
      Pow2At255();
    }
    LeBytesValue(n, 32);
    LeBytes(n, 32)
  }

  lemma EncodingEncodes(s: Bytes32, q: CurvePoint)
    requires IsEncoding(s, q)
    ensures Encodes(s, q)
  {
    PValue();
    DivModUnique(LeVal(s), q.x % 2, q.y, X255);
    DivModUnique(q.y, 0, q.y, P);
  }

  /** When the bytes that were read are the ones that would be written: y was reduced, and no parity bit was set
      beside x = 0. */
  lemma CanonicalIff(s: Bytes32, q: CurvePoint)
    requires Encodes(s, q)
    ensures IsEncoding(s, q) <==> LeVal(s) % X255 < P && !(q.x == 0 && LeVal(s) >= X255)
  {
    var y, top := LeVal(s) % X255, LeVal(s) / X255;
    assert top <= 1 by { SignBit(s); }
    if y < P {
      assert q.y == y by { DivModUnique(y, 0, y, P); }
      TopAndRest(LeVal(s), top, y, q.x % 2);
    } else if IsEncoding(s, q) {
      EncodingReads(s, q);
    }
  }

  lemma TopAndRest(v: int, top: int, y: int, sign: int)
    requires top == v / X255 && y == v % X255 && 0 <= top <= 1 && 0 <= sign <= 1
    ensures v == y + X255 * sign <==> top == sign
    ensures v >= X255 <==> top == 1
  {
    assert v == X255 * top + y;
  }

  lemma EncodingReads(s: Bytes32, q: CurvePoint)
    requires IsEncoding(s, q)
    ensures LeVal(s) % X255 == q.y
  {
    PValue();
    DivModUnique(LeVal(s), q.x % 2, q.y, X255);
  }

  /** The neutral element is also read from bytes with a parity bit and from bytes with y + p. */
  lemma NeutralReadTwice(s: Bytes32)
    requires LeVal(s) == 1 + X255 || LeVal(s) == 1 + P
    ensures Encodes(s, NEUTRAL) && !IsEncoding(s, NEUTRAL)
  {
    PValue();
    if LeVal(s) == 1 + X255 {
      DivModUnique(LeVal(s), 1, 1, X255);
      DivModUnique(1, 0, 1, P);
    } else {
      DivModUnique(LeVal(s), 0, LeVal(s), X255);
      DivModUnique(LeVal(s), 1, 1, P);
    }
  }

  lemma EncodingUnique(s: Bytes32, t: Bytes32, q: CurvePoint)
    requires IsEncoding(s, q) && IsEncoding(t, q)
    ensures s == t
  {
    LeValInjective(s, t);
  }

  lemma EquationTerms(x: int, y: int, d: int)
    ensures (d * (y * y) + 1) * (x * x) - (y * y - 1) == 1 + d * ((x * x) * (y * y)) - (y * y - x * x)
  {
  }

  /** The curve equation solved for x^2. */
  lemma OnCurveIsRoot(q: Point, d: int, p: int)
    requires p > 0
    ensures OnCurve(q, d, p) <==> IsRoot(q.x, q.y * q.y - 1, d * (q.y * q.y) + 1, p)
  {
    var l, r := q.y * q.y - q.x * q.x, 1 + d * ((q.x * q.x) * (q.y * q.y));
    var v, u := d * (q.y * q.y) + 1, q.y * q.y - 1;
    EquationTerms(q.x, q.y, d);
    CongDiff(v * (q.x * q.x), u, p);
    CongDiff(r, l, p);
  }

  /** d y^2 + 1 is never 0, since -1 is a square and d is not. */
  lemma DenominatorNonzero(y: int, i: int, d: int, p: int)
    requires PrimeModulus(p) && NonSquare(d, p) && Cong(i * i, -1, p)
    ensures !Cong(d * (y * y) + 1, 0, p)
  {
    if Cong(d * (y * y) + 1, 0, p) {
      CongSub(d * (y * y) + 1, 0, 1, 1, p);
      SquareRatio(i, y, d, p);
      CongZeroMul(y, y, p);
      CongZeroMul(d, y * y, p);
      DivModUnique(0, 0, 0, p);
      DivModUnique(-1, -1, p - 1, p);
    }
  }

  lemma PIsOdd()
    ensures P % 2 == 1 && P == 8 * ((P - 5) / 8) + 5
  {
    PValue();
  }

  /** No two points have the same encoding. */
  lemma DecodingUnique(s: Bytes32, a: CurvePoint, b: CurvePoint)
    requires PrimeModulus(P) && Encodes(s, a) && Encodes(s, b)
    ensures a == b
  {
    assert Parameters(D, P);
    var y := a.y;
    DNonSquare();
    SqrtM1Squared();
    DenominatorNonzero(y, Val(SQRT_M1), D, P);
    OnCurveIsRoot(a, D, P);
    OnCurveIsRoot(b, D, P);
    RootsOpposite(a.x, b.x, y * y - 1, D * (y * y) + 1, P);
    SameParity(a.x, b.x, P);
  }

  lemma SameParity(a: int, b: int, p: int)
    requires p % 2 == 1 && 0 <= a < p && 0 <= b < p
    requires Cong(a, b, p) || Cong(a, -b, p)
    requires a == 0 || b == 0 || a % 2 == b % 2
    ensures a == b
  {
    DivModUnique(a, 0, a, p);
    DivModUnique(b, 0, b, p);
    DivModUnique(0, 0, 0, p);
    if b > 0 {
      NegatedParity(b, p);
    }
  }

  // d times its square is 3/(4d + 1), the square of the abscissa that a point at height 2 would have
  const RATIO_ROOT := 0x104_36d1_6c27_a58b_1280_24ee_43fd_9b41_c537_3075_759a_5d90_c13f_a4c0_5f2c_c118

  lemma RatioAtTwo()
    ensures Cong((D_VALUE * (2 * 2) + 1) * (D_VALUE * (RATIO_ROOT * RATIO_ROOT)), 2 * 2 - 1, P)
    ensures !Cong(RATIO_ROOT, 0, P)
  {
    PValue();
  }

  /** No point of the curve has the ordinate 2. */
  lemma NoPointAtTwo(q: CurvePoint)
    requires PrimeModulus(P)
    ensures q.y != 2
  {
    if q.y == 2 {
      DIsTheRatio();
      DNonSquare();
      SqrtM1Squared();
      RatioAtTwo();
      var v := D * (2 * 2) + 1;
      PointIsRoot(q, 2 * 2 - 1, v);
      DenominatorNonzero(2, Val(SQRT_M1), D, P);
      CongCancel(v, q.x * q.x, D * (RATIO_ROOT * RATIO_ROOT), P);
      SquareRatio(q.x, RATIO_ROOT, D, P);
    }
  }

  /** There are bytes that denote no point. */
  lemma TwoDenotesNothing(s: Bytes32)
    requires PrimeModulus(P) && LeVal(s) == 2
    ensures forall q: CurvePoint :: !Encodes(s, q)
  {
    PValue();
    DivModUnique(2, 0, 2, X255);
    DivModUnique(2, 0, 2, P);
    forall q: CurvePoint
      ensures !Encodes(s, q)
    {
      NoPointAtTwo(q);
    }
  }

  lemma Affine(x: int, xz: int, z: int, recip: int, c: int, p: int)
    requires PrimeModulus(p) && !Cong(z, 0, p) && Cong(recip, Pow(z, p - 2), p)
    requires Cong(xz, c * z, p) && Cong(x, xz * recip, p)
    ensures Cong(x, c, p)
  {
    FermatLittle(z, p);
    CongMul(z, z, recip, Pow(z, p - 2), p);
    CongMul(xz, c * z, recip, recip, p);
    assert (c * z) * recip == c * (z * recip);
    CongMul(c, c, z * recip, 1, p);
  }

  /** The affine coordinates of a projective point. */
  method ToAffine(X: Fe, Y: Fe, Z: Fe, ghost q: CurvePoint) returns (x: Fe, y: Fe)
    requires PrimeModulus(P) && IsProj(Val(X), Val(Y), Val(Z), q)
    requires Bounded(X, 2) && Bounded(Y, 1) && Bounded(Z, 1)
    ensures Bounded(x, 1) && Bounded(y, 1)
    ensures Val(x) % P == q.x && Val(y) % P == q.y
  {
    Widen(X, 2, 3);
    Widen(Y, 1, 3);
    Widen(Z, 1, 3);
    var recip := FeInvert(Z);
    Widen(recip, 1, 3);
    x := FeMul(X, recip);
    y := FeMul(Y, recip);
    AffineResidues(Val(X), Val(Y), Val(Z), Val(recip), Val(x), Val(y), q);
  }

  lemma AffineResidues(X: int, Y: int, Z: int, recip: int, x: int, y: int, q: CurvePoint)
    requires PrimeModulus(P) && IsProj(X, Y, Z, q) && Cong(recip, Pow(Z, P - 2), P)
    requires Cong(x, X * recip, P) && Cong(y, Y * recip, P)
    ensures x % P == q.x && y % P == q.y
  {
    forall d, p | Parameters(d, p)
      ensures Cong(x, q.x, p) && Cong(y, q.y, p)
    {
      Affine(x, X, Z, recip, q.x, p);
      Affine(y, Y, Z, recip, q.y, p);
    }
    assert Parameters(D, P);
    DivModUnique(q.x, 0, q.x, P);
    DivModUnique(q.y, 0, q.y, P);
  }

  lemma TopBit(s: Bytes32, y: int, sign: byte)
    requires LeVal(s) == y < X255 && sign <= 1
    ensures 0 <= Xor(s[31], sign as int * 0x80) < 0x100
    ensures LeVal(s[31 := Xor(s[31], sign as int * 0x80)]) == y + X255 * sign
  {
    LeVal32(s);
    Pow2Values();
    XorDisjoint(s[31], sign, 7);
    LeValTop(s, Xor(s[31], sign as int * 0x80));
  }

  /** ToBytes of the extended and of the projective form. */
  method EncodePoint(X: Fe, Y: Fe, Z: Fe, ghost q: CurvePoint) returns (s: Bytes32)
    requires PrimeModulus(P) && IsProj(Val(X), Val(Y), Val(Z), q)
    requires Bounded(X, 2) && Bounded(Y, 1) && Bounded(Z, 1)
    ensures s == Encoding(q)
  {
    var x, y := ToAffine(X, Y, Z, q);
    Widen(x, 1, 3);
    Widen(y, 1, 3);
    s, y := FeToBytes(y);
    var negative;
    negative, x := FeIsNegative(x);
    PValue();
    TopBit(s, q.y, negative);
    s := s[31 := Xor(s[31], negative as int * 0x80)];
    EncodingUnique(s, Encoding(q), q);
  }

  lemma CandidateSteps(u: int, v: int, v2: int, v3: int, v6: int, v7: int, uv7: int, r: int, t: int, x: int, e: nat,
      p: int)
    requires p > 0 && Cong(v2, v * v, p) && Cong(v3, v2 * v, p) && Cong(v6, v3 * v3, p) && Cong(v7, v6 * v, p)
    requires Cong(uv7, v7 * u, p) && Cong(r, Pow(uv7, e), p) && Cong(t, r * v3, p) && Cong(x, t * u, p)
    ensures Cong(x, Candidate(u, v, e), p)
  {
    CongMul(v2, v * v, v, v, p);
    CongMul(v3, Cube(v), v3, Cube(v), p);
    CongMul(v6, Cube(v) * Cube(v), v, v, p);
    CongMul(v7, (Cube(v) * Cube(v)) * v, u, u, p);
    PowCong(uv7, Seventh(u, v), e, p);
    CongMul(r, Pow(Seventh(u, v), e), v3, Cube(v), p);
    CongMul(t, Pow(Seventh(u, v), e) * Cube(v), u, u, p);
  }

  /** What the two comparisons of v x^2 with u and -u decide. */
  lemma RootTest(x: int, u: int, v: int, xx: int, vxx: int, p: int)
    requires p > 0 && Cong(xx, x * x, p) && Cong(vxx, xx * v, p)
    ensures Cong(vxx - u, 0, p) <==> IsRoot(x, u, v, p)
    ensures Cong(vxx + u, 0, p) <==> IsRoot(x, -u, v, p)
  {
    CongMul(v, v, xx, x * x, p);
    CongDiff(vxx, u, p);
    CongDiff(vxx, -u, p);
  }

  lemma NoRoot(x: int, u: int, v: int, w: int, e: nat, p: int)
    requires PrimeModulus(p) && p == 8 * e + 5 && Cong(x, Candidate(u, v, e), p)
    requires !IsRoot(x, u, v, p) && !IsRoot(x, -u, v, p)
    ensures !IsRoot(w, u, v, p)
  {
    if IsRoot(w, u, v, p) {
      CandidateWorks(u, v, w, e, p);
      var c := Candidate(u, v, e);
      if IsRoot(c, u, v, p) {
        RootCong(c, x, u, v, p);
      } else {
        RootCong(c, x, -u, v, p);
      }
    }
  }

  lemma RootCong(x: int, x': int, u: int, v: int, p: int)
    requires p > 0 && Cong(x, x', p) && IsRoot(x, u, v, p)
    ensures IsRoot(x', u, v, p)
  {
    CongMul(x, x', x, x', p);
    CongMul(v, v, x * x, x' * x', p);
  }

  lemma ReducedBounded(h: Limbs)
    requires Reduced(h)
    ensures Bounded(h, 2)
  {
    BoundedLimbs(h, 2);
  }

  /** The candidate (uv^3)(uv^7)^((P-5)/8) for a square root of u/v. */
  method RootCandidate(u: Fe, v: Fe) returns (x: Fe)
    requires Bounded(u, 2) && Bounded(v, 2)
    ensures Bounded(x, 1)
    ensures Cong(Val(x), Candidate(Val(u), Val(v), (P - 5) / 8), P)
  {
    Widen(u, 2, 3);
    Widen(v, 2, 3);
    var v2 := FeSquare(v);
    Widen(v2, 1, 3);
    var v3 := FeMul(v2, v);
    Widen(v3, 1, 3);
    var v6 := FeSquare(v3);
    Widen(v6, 1, 3);
    var v7 := FeMul(v6, v);
    Widen(v7, 1, 3);
    var uv7 := FeMul(v7, u);
    Widen(uv7, 1, 3);

    var r := FePow22523(uv7);
    Widen(r, 1, 3);
    var t := FeMul(r, v3);
    Widen(t, 1, 3);
    x := FeMul(t, u);
    CandidateSteps(Val(u), Val(v), Val(v2), Val(v3), Val(v6), Val(v7), Val(uv7), Val(r), Val(t), Val(x), (P - 5) / 8,
        P);
  }

  /** A root of u/v, if there is one.  The candidate is canonical when it took the factor sqrt(-1). */
  method FindRoot(u: Fe, v: Fe) returns (ok: bool, x: Fe)
    requires PrimeModulus(P) && Bounded(u, 2) && Bounded(v, 2)
    ensures Bounded(x, 2)
    ensures ok ==> IsRoot(Val(x), Val(u), Val(v), P)
    ensures !ok ==> forall w :: !IsRoot(w, Val(u), Val(v), P)
  {
    PIsOdd();
    Widen(u, 2, 3);
    Widen(v, 2, 3);
    x := RootCandidate(u, v);
    ghost var c := Candidate(Val(u), Val(v), (P - 5) / 8);
    Widen(x, 1, 3);
    var xx := FeSquare(x);
    Widen(xx, 1, 3);
    var vxx := FeMul(xx, v);
    RootTest(Val(x), Val(u), Val(v), Val(xx), Val(vxx), P);
    var check := FeSub(vxx, u, 1, 2, 3);
    var nonzero;
    nonzero, check := FeIsNonZero(check);
    ok := true;
    if nonzero == 1 {
      check := FeAdd(vxx, u, 1, 2, 3);
      nonzero, check := FeIsNonZero(check);
      if nonzero == 1 {
        forall w
          ensures !IsRoot(w, Val(u), Val(v), P)
        {
          NoRoot(Val(x), Val(u), Val(v), w, (P - 5) / 8, P);
        }
        Widen(x, 1, 2);
        return false, x;
      }
      SqrtM1Squared();
      Widen(SQRT_M1, 1, 3);
      ghost var x0 := Val(x);
      x := FeMul(x, SQRT_M1);
      OtherRoot(x0, Val(x), Val(SQRT_M1), Val(u), Val(v), P);
      Widen(x, 1, 3);
      ghost var x1 := Val(x);
      var tmp;
      tmp, x := FeToBytes(x);
      CongRes(x1, P);
      RootCong(x1, Val(x), Val(u), Val(v), P);
      ReducedBounded(x);
    } else {
      Widen(x, 1, 2);
    }
  }

  lemma SignBit(s: Bytes32)
    ensures LeVal(s) / X255 == s[31] / 0x80
  {
    LeVal32(s);
    var low := LeVal(s) - X255 * (s[31] / 0x80);
    assert 0 <= low < X255;
    DivModUnique(LeVal(s), s[31] / 0x80, low, X255);
  }

  /** u = y^2 - 1 and v = d y^2 + 1, for y in reduced form. */
  lemma RatioTerms(y: int, yr: int, d: int, dy: int, one: int, yy: int, dyy: int, u: int, v: int, p: int)
    requires p > 0 && Cong(y, yr, p) && Cong(dy, d, p) && one == 1
    requires Cong(yy, y * y, p) && Cong(dyy, yy * dy, p) && u == yy - one && v == dyy + one
    ensures Cong(u, yr * yr - 1, p) && Cong(v, d * (yr * yr) + 1, p)
  {
    CongMul(y, yr, y, yr, p);
    CongSub(yy, yr * yr, 1, 1, p);
    CongMul(yy, yr * yr, dy, d, p);
    CongAdd(dyy, (yr * yr) * d, 1, 1, p);
  }

  lemma RatioCong(x: int, u: int, u': int, v: int, v': int, p: int)
    requires p > 0 && Cong(u, u', p) && Cong(v, v', p)
    ensures IsRoot(x, u, v, p) <==> IsRoot(x, u', v', p)
  {
    CongMul(v, v', x * x, x * x, p);
  }

  /** The points of the curve at height `y` are the roots of u/v. */
  lemma PointIsRoot(q: CurvePoint, u: int, v: int)
    requires Cong(u, q.y * q.y - 1, P) && Cong(v, D * (q.y * q.y) + 1, P)
    ensures IsRoot(q.x, u, v, P)
  {
    assert Parameters(D, P);
    OnCurveIsRoot(q, D, P);
    RatioCong(q.x, u, q.y * q.y - 1, v, D * (q.y * q.y) + 1, P);
  }

  lemma RootIsPoint(x: int, y: int, u: int, v: int)
    requires Cong(u, y * y - 1, P) && Cong(v, D * (y * y) + 1, P) && IsRoot(x, u, v, P)
    requires 0 <= x < P && 0 <= y < P
    ensures IsCurvePoint(Point(x, y))
  {
    OnCurveIsRoot(Point(x, y), D, P);
    RatioCong(x, u, y * y - 1, v, D * (y * y) + 1, P);
  }

  /** Keeping or negating a canonical root gives it the wanted parity, unless it is 0. */
  lemma SignedRoot(x: int, x': int, u: int, v: int, sign: int, p: int)
    requires p > 0 && p % 2 == 1 && 0 <= x < p && IsRoot(x, u, v, p) && 0 <= sign <= 1
    requires x' == if x % 2 == sign then x else -x
    ensures IsRoot(x' % p, u, v, p)
    ensures x' % p == 0 || (x' % p) % 2 == sign
  {
    assert x' * x' == x * x;
    CongRes(x', p);
    RootCong(x', x' % p, u, v, p);
    DivModUnique(x, 0, x, p);
    if x > 0 {
      NegatedParity(x, p);
    }
  }

  lemma DecodedIsExt(x: int, y: int, t: int, q: CurvePoint)
    requires Cong(t, x * y, P) && x % P == q.x && y % P == q.y
    ensures IsExt(x, y, 1, t, q)
  {
    forall d, p | Parameters(d, p)
      ensures ExtRep(x, y, 1, t, q, p)
    {
      CongRes(x, p);
      CongRes(y, p);
      CongMul(x, q.x, y, q.y, p);
      DivModUnique(1, 0, 1, p);
      DivModUnique(0, 0, 0, p);
    }
  }

  /** Numerator and denominator of x^2 at height y. */
  method Ratio(Y: Fe, Z: Fe, ghost y: int) returns (u: Fe, v: Fe)
    requires PrimeModulus(P) && Bounded(Y, 1) && Bounded(Z, 1) && Cong(Val(Y), y, P) && Val(Z) == 1
    ensures Bounded(u, 2) && Bounded(v, 2)
    ensures Cong(Val(u), y * y - 1, P) && Cong(Val(v), D * (y * y) + 1, P)
  {
    Widen(Y, 1, 3);
    var yy := FeSquare(Y);
    ConstantsCorrect();
    Widen(yy, 1, 3);
    Widen(D_LIMBS, 1, 3);
    var dyy := FeMul(yy, D_LIMBS);
    u := FeSub(yy, Z, 1, 1, 2);
    v := FeAdd(dyy, Z, 1, 1, 2);
    RatioTerms(Val(Y), y, D, Val(D_LIMBS), Val(Z), Val(yy), Val(dyy), Val(u), Val(v), P);
  }

  /** Of a root and its negative, the one with the parity in the top bit of `s`. */
  method ChooseSign(s: Bytes32, x: Fe, ghost u: int, ghost v: int) returns (X: Fe)
    requires Bounded(x, 2) && IsRoot(Val(x), u, v, P)
    ensures Bounded(X, 2) && IsRoot(Val(X) % P, u, v, P)
    ensures Val(X) % P == 0 || (Val(X) % P) % 2 == LeVal(s) / X255
  {
    Widen(x, 2, 3);
    var negative;
    negative, X := FeIsNegative(x);
    CongRes(Val(x), P);
    RootCong(Val(x), Val(X), u, v, P);
    ReducedBounded(X);
    ghost var x1 := Val(X);
    assert x1 % P == x1 by { DivModUnique(x1, 0, x1, P); }
    SignBit(s);
    if negative != s[31] / 0x80 {
      X := FeNeg(X, 2);
    }
    PIsOdd();
    SignedRoot(x1, Val(X), u, v, s[31] / 0x80, P);
  }

  /** FromBytes: succeeds exactly when some point of the curve is denoted, and finds it. */
  method DecodePoint(s: Bytes32) returns (ok: bool, X: Fe, Y: Fe, Z: Fe, T: Fe, ghost q: CurvePoint)
    requires PrimeModulus(P)
    ensures !ok ==> forall r: CurvePoint :: !Encodes(s, r)
    ensures ok ==> Encodes(s, q) && IsExt(Val(X), Val(Y), Val(Z), Val(T), q)
    ensures ok ==> Bounded(X, 2) && Bounded(Y, 1) && Bounded(Z, 1) && Bounded(T, 1) && Val(Z) == 1
  {
    ghost var y := (LeVal(s) % X255) % P;
    q := NEUTRAL;
    T := FeZero();
    Y := FeFromBytes(s);
    assert Cong(Val(Y), y, P) by { CongRes(LeVal(s) % X255, P); }
    Z := FeOne();
    var u, v := Ratio(Y, Z, y);

    ok, X := FindRoot(u, v);
    if !ok {
      forall r: CurvePoint
        ensures !Encodes(s, r)
      {
        if Encodes(s, r) {
          PointIsRoot(r, Val(u), Val(v));
        }
      }
      return;
    }
    X := ChooseSign(s, X, Val(u), Val(v));
    RootIsPoint(Val(X) % P, y, Val(u), Val(v));
    q := Point(Val(X) % P, y);
    Widen(X, 2, 3);
    Widen(Y, 1, 3);
    T := FeMul(X, Y);
    DecodedIsExt(Val(X), Val(Y), Val(T), q);
  }
}
