/** The Ed25519 curve is an abelian group, P being prime. */
module CurveGroup {
  import opened Congruence
  import opened FieldElement
  import opened Fermat
  import opened Powers
  import opened SquareRoots
  import opened Edwards
  import opened Associativity
  import opened AbelianGroup

  /** d = -121665/121666 in [0, P), with the inverse by Fermat's little theorem. */
  const D: int := (-121665 * Pow(121666, P - 2)) % P

  const D_LIMBS: Fe := Limbs(-10913610, 13857413, -15372611, 6949391, 114729,
                             -8787816, -6275908, -3247719, -18696448, -12055116)

  const D2_LIMBS: Fe := Limbs(-21827239, -5839606, -30745221, 13898782, 229458,
                              15978800, -12551817, -6495438, 29715968, 9444199)

  const SQRT_M1: Fe := Limbs(-32595792, -7943725, 9377950, 3500415, 12389472,
                             -272473, -25146209, -2005654, 326686, 11406482)

  const D_VALUE := 0x5203_6cee_2b6f_fe73_8cc7_4079_7779_e898_0070_0a4d_4141_d8ab_75eb_4dca_1359_78a3

  /** A square root of 2/d. */
  const TWICE_D_ROOT := 0x71a1_b7c3_ecc2_9f63_2f98_b94b_a8f4_3d96_b249_95bc_afe8_bac9_3ccd_dd5b_d9e7_0aaf

  lemma DIsTheRatio()
    requires PrimeModulus(P)
    ensures Cong(121666 * D, -121665, P) && D == D_VALUE
  {
    var i := Pow(121666, P - 2);
    assert !Cong(121666, 0, P) && 0 <= D_VALUE < P && Cong(121666 * D_VALUE, -121665, P) by {
      PValue();
    }
    FermatLittle(121666, P);
    CongMul(-121665, -121665, 121666 * i, 1, P);
    CongRes(-121665 * i, P);
    CongMul(121666, 121666, D, -121665 * i, P);
    CongCancel(121666, D, D_VALUE, P);
    CongRange(D, D_VALUE, P);
  }

  lemma SqrtM1Squared()
    ensures Cong(Val(SQRT_M1) * Val(SQRT_M1), -1, P) && Bounded(SQRT_M1, 1)
  {
    ValSum(SQRT_M1);
    BoundedLimbs(SQRT_M1, 1);
    PValue();
  }

  lemma DLimbsValue()
    ensures Cong(Val(D_LIMBS), D_VALUE, P) && Bounded(D_LIMBS, 1)
  {
    PValue();
    ValSum(D_LIMBS);
    BoundedLimbs(D_LIMBS, 1);
  }

  lemma D2LimbsValue()
    ensures Cong(Val(D2_LIMBS), 2 * D_VALUE, P) && Bounded(D2_LIMBS, 1)
  {
    PValue();
    ValSum(D2_LIMBS);
    BoundedLimbs(D2_LIMBS, 1);
  }

  /** The constants of const.go are what their comments say. */
  lemma ConstantsCorrect()
    requires PrimeModulus(P)
    ensures Cong(Val(D_LIMBS), D, P) && Cong(Val(D2_LIMBS), 2 * D, P)
    ensures Cong(Val(SQRT_M1) * Val(SQRT_M1), -1, P)
    ensures Bounded(D_LIMBS, 1) && Bounded(D2_LIMBS, 1) && Bounded(SQRT_M1, 1)
  {
    DIsTheRatio();
    SqrtM1Squared();
    DLimbsValue();
    D2LimbsValue();
  }

  /** The curve's two parameters.  The predicates below hold of them by way of a quantifier, so
      that they unfold only where `Parameters(D, P)` is mentioned. */
  ghost predicate Parameters(d: int, p: int) {
    p > 1 && p == P && d == D
  }

  /** An affine point of the curve, its coordinates reduced. */
  ghost predicate IsCurvePoint(q: Point) {
    && 0 <= q.x < P && 0 <= q.y < P
    && forall d, p {:trigger Parameters(d, p)} :: Parameters(d, p) ==> OnCurve(q, d, p)
  }

  ghost predicate EdSum(a: Point, b: Point, c: Point) {
    forall d, p {:trigger Parameters(d, p)} :: Parameters(d, p) ==> IsSum(a, b, c, d, p)
  }

  ghost predicate EdReflection(a: Point, b: Point) {
    forall d, p {:trigger Parameters(d, p)} :: Parameters(d, p) ==> b == Reflected(a, p)
  }

  type CurvePoint = q: Point | IsCurvePoint(q) ghost witness Point(0, 1)

  const NEUTRAL: CurvePoint := Point(0, 1)

  lemma TwiceDRoot()
    ensures Cong(D_VALUE * (TWICE_D_ROOT * TWICE_D_ROOT), 2, P) && P == 8 * ((P - 5) / 8) + 5
  {
    PValue();
  }

  /** d times a square is 2, which is no square. */
  lemma DNonSquare()
    requires PrimeModulus(P)
    ensures NonSquare(D, P)
  {
    DIsTheRatio();
    TwiceDRoot();
    SqrtM1Squared();
    forall r: int
      ensures !Cong(r * r, D, P)
    {
      if Cong(r * r, D, P) {
        CongMul(r * r, D, TWICE_D_ROOT * TWICE_D_ROOT, TWICE_D_ROOT * TWICE_D_ROOT, P);
        Regroup(r, r, TWICE_D_ROOT, TWICE_D_ROOT);
        TwoIsNoSquare(Val(SQRT_M1), r * TWICE_D_ROOT, (P - 5) / 8, P);
      }
    }
  }

  lemma TwoNonzero()
    ensures !Cong(2, 0, P)
  {
    PValue();
  }

  /** Completeness, closure and existence: any two points of the curve have exactly one sum on it. */
  lemma SumOnThisCurve(a: CurvePoint, b: CurvePoint) returns (c: CurvePoint)
    requires PrimeModulus(P)
    ensures EdSum(a, b, c)
  {
    assert Parameters(D, P);
    DNonSquare();
    SqrtM1Squared();
    TwoNonzero();
    Complete(a, b, D, P, Val(SQRT_M1));
    var q := SumExists(a, b, D, P);
    SumOnCurve(a, b, q, D, P);
    c := q;
  }

  ghost function EdAdd(a: CurvePoint, b: CurvePoint): CurvePoint {
    if exists c: CurvePoint :: EdSum(a, b, c)
    then (var c: CurvePoint :| EdSum(a, b, c); c)
    else NEUTRAL
  }

  ghost function EdNeg(a: CurvePoint): (b: CurvePoint)
    ensures EdReflection(a, b)
  {
    assert Parameters(D, P);
    ReflectedOnCurve(a, D, P);
    Reflected(a, P)
  }

  ghost function EdwardsGroup(): Group<CurvePoint> {
    Group(NEUTRAL, (a: CurvePoint, b: CurvePoint) => EdAdd(a, b), (a: CurvePoint) => EdNeg(a))
  }

  /** What the point formulas and the scalar multiplications rely on. */
  ghost predicate CurveLaw(g: Group<CurvePoint>) {
    && PrimeModulus(P) && Abelian(g) && g.zero == NEUTRAL
    && (forall a: CurvePoint, b: CurvePoint {:trigger At(a, b, b)} :: EdSum(a, b, g.add(a, b)))
    && (forall a: CurvePoint {:trigger At(a, a, a)} :: EdReflection(a, g.neg(a)))
  }

  lemma EdAddIsSum(a: CurvePoint, b: CurvePoint)
    requires PrimeModulus(P)
    ensures EdSum(a, b, EdAdd(a, b))
  {
    var c := SumOnThisCurve(a, b);
  }

  lemma SumIsEdAdd(a: CurvePoint, b: CurvePoint, c: CurvePoint)
    requires PrimeModulus(P) && EdSum(a, b, c)
    ensures c == EdAdd(a, b)
  {
    assert Parameters(D, P);
    EdAddIsSum(a, b);
    SumUnique(a, b, c, EdAdd(a, b), D, P);
    CongRange(c.x, EdAdd(a, b).x, P);
    CongRange(c.y, EdAdd(a, b).y, P);
  }

  lemma EdAddCommutes(a: CurvePoint, b: CurvePoint)
    requires PrimeModulus(P)
    ensures EdAdd(a, b) == EdAdd(b, a)
  {
    assert Parameters(D, P);
    EdAddIsSum(b, a);
    SumSymmetric(b, a, EdAdd(b, a), D, P);
    SumIsEdAdd(a, b, EdAdd(b, a));
  }

  lemma EdAddZero(a: CurvePoint)
    requires PrimeModulus(P)
    ensures EdAdd(a, NEUTRAL) == a
  {
    assert EdSum(a, NEUTRAL, a) by { SumWithNeutral(a, D, P); }
    SumIsEdAdd(a, NEUTRAL, a);
  }

  lemma EdAddNeg(a: CurvePoint, b: CurvePoint)
    requires PrimeModulus(P) && EdReflection(a, b)
    ensures EdAdd(a, b) == NEUTRAL
  {
    EdAddIsSum(a, b);
    forall d, p | Parameters(d, p)
      ensures IsSum(a, b, NEUTRAL, d, p)
    {
      SumWithReflected(a, d, p);
    }
    SumIsEdAdd(a, b, NEUTRAL);
  }

  lemma EdAddAssociates(a: CurvePoint, b: CurvePoint, c: CurvePoint)
    requires PrimeModulus(P)
    ensures EdAdd(EdAdd(a, b), c) == EdAdd(a, EdAdd(b, c))
  {
    assert Parameters(D, P);
    EdAddIsSum(a, b);
    EdAddIsSum(b, c);
    EdAddIsSum(EdAdd(a, b), c);
    EdAddIsSum(a, EdAdd(b, c));
    var s, s' := EdAdd(EdAdd(a, b), c), EdAdd(a, EdAdd(b, c));
    TwoNonzero();
    SqrtM1Squared();
    Associates(a, b, c, EdAdd(a, b), EdAdd(b, c), s, s', D, Val(SQRT_M1), P);
    CongRange(s.x, s'.x, P);
    CongRange(s.y, s'.y, P);
  }

  /** From P prime alone: the curve with the addition law is an abelian group. */
  lemma EdwardsIsGroup()
    requires PrimeModulus(P)
    ensures CurveLaw(EdwardsGroup())
  {
    var g := EdwardsGroup();
    forall a: CurvePoint
      ensures g.add(a, g.zero) == a && g.add(a, g.neg(a)) == g.zero
    {
      EdAddZero(a);
      EdAddNeg(a, EdNeg(a));
    }
    forall a: CurvePoint, b: CurvePoint
      ensures g.add(a, b) == g.add(b, a) && EdSum(a, b, g.add(a, b))
    {
      EdAddCommutes(a, b);
      EdAddIsSum(a, b);
    }
    forall a: CurvePoint, b: CurvePoint, c: CurvePoint
      ensures g.add(g.add(a, b), c) == g.add(a, g.add(b, c))
    {
      EdAddAssociates(a, b, c);
    }
  }
}
