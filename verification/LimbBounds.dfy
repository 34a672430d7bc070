/** Doubling leaves the limb bounds that the comment before FeMul states (edwards25519.go:351, 656-668). */
module LimbBounds {
  import opened Congruence
  import opened FieldElement
  import opened Edwards
  import opened CurveGroup
  import opened Coordinates

  // the base point of section 5.1 of RFC 8032, and 46 times its coordinates
  const BASE_X := 0x2169_36d3_cd6e_53fe_c0a4_e231_fdd6_dc5c_692c_c760_9525_a7b2_c956_2d60_8f25_d51a
  const BASE_Y := 0x6666_6666_6666_6666_6666_6666_6666_6666_6666_6666_6666_6666_6666_6666_6666_6658

  const X46: Fe := Limbs(13388688, -16132498, 4457904, 14050849, -6803635,
                         10197147, 5406158, 16307124, 15637809, 237416)

  const Y46: Fe := Limbs(-26843505, -6710886, 13421773, -13421773, 26843546,
                         6710886, -13421773, 13421773, -26843546, -6710886)

  const Z46: Fe := Limbs(46, 0, 0, 0, 0, 0, 0, 0, 0, 0)

  const SUM46: Fe := Limbs(-13454817, -22843384, 17879677, 629076, 20039911,
                           16908033, -8015615, 29728897, -11205737, -6473470)

  /** The limbs that FeAdd leaves. */
  function Plus(f: Limbs, g: Limbs): Limbs {
    Limbs(f.0 + g.0, f.1 + g.1, f.2 + g.2, f.3 + g.3, f.4 + g.4, f.5 + g.5, f.6 + g.6, f.7 + g.7, f.8 + g.8, f.9 + g.9)
  }

  lemma BaseEquation()
    ensures Cong(BASE_Y * BASE_Y - BASE_X * BASE_X, 1 + D_VALUE * ((BASE_X * BASE_X) * (BASE_Y * BASE_Y)), P)
    ensures 0 <= BASE_X < P && 0 <= BASE_Y < P
  {
    PValue();
  }

  lemma BaseIsPoint() returns (q: CurvePoint)
    requires PrimeModulus(P)
    ensures q.x == BASE_X && q.y == BASE_Y
  {
    DIsTheRatio();
    BaseEquation();
    q := Point(BASE_X, BASE_Y);
  }

  lemma ValueX()
    ensures Val(X46) == 0xe7_da0e_e9d3_17c6_9da0_a4fb_9c9b_989a_e60b_d35a_ccc4_2220_2d7c_2759_b8cc_4b90
    ensures Cong(Val(X46), BASE_X * 46, P)
  {
    ValSum(X46);
    PValue();
    CongIntro(Val(X46), BASE_X * 46, -12, P);
  }

  lemma ValueY()
    ensures Val(Y46) == -0x1999_9999_9999_9999_9999_9999_9999_9999_9999_9999_9999_9999_9999_9999_9999_9971
    ensures Cong(Val(Y46), BASE_Y * 46, P)
  {
    ValSum(Y46);
    PValue();
    CongIntro(Val(Y46), BASE_Y * 46, -37, P);
  }

  lemma WithinOneUnit()
    ensures Bounded(X46, 1) && Bounded(Y46, 1) && Bounded(Z46, 1)
  {
    BoundedLimbs(X46, 1);
    BoundedLimbs(Y46, 1);
    BoundedLimbs(Z46, 1);
  }

  lemma ValueZ()
    ensures Val(Z46) == 46 && !Cong(46, 0, P)
  {
    PValue();
    ValSum(Z46);
  }

  /** Limb 2 of a square depends on three columns. */
  lemma LimbTwo(h: Limbs, f: Limbs, c0: int, c1: int, c2: int)
    requires IsProduct(h, f, f) && ThreeColumns(f, c0, c1, c2)
    ensures h.2 == Low26(c2 + Up25(c1 + Up26(c0)))
  {
    assert LimbForLimb(0);
  }

  predicate ThreeColumns(f: Limbs, c0: int, c1: int, c2: int) {
    var c := ProductLimbs(f, f);
    c.0 == c0 && c.1 == c1 && c.2 == c2
  }

  lemma ColumnsX()
    ensures ThreeColumns(X46, 22504628608406922, 5836590514247610, 10043495208508370)
  {
  }

  lemma ColumnsY()
    ensures ThreeColumns(Y46, -35218153101830043, 20896702826660540, -10898711355934639)
  {
  }

  lemma ColumnsSum()
    ensures ThreeColumns(SUM46, 9986924647760291, 13437554562158916, 31142351356940459)
  {
  }

  lemma SumOfLimbs()
    ensures Plus(X46, Y46) == SUM46
  {
  }

  /** The limb of (x + y)^2 - (y^2 + x^2) that Double hands to FeMul. */
  lemma LimbBeyondComment(xx: Limbs, yy: Limbs, t0: Limbs)
    requires IsProduct(xx, X46, X46) && IsProduct(yy, Y46, Y46) && IsProduct(t0, Plus(X46, Y46), Plus(X46, Y46))
    ensures 10 * (t0.2 - (yy.2 + xx.2)) > 11 * 0x400_0000
  {
    assert xx.2 == -23918484 by {
      ColumnsX();
      LimbTwo(xx, X46, 22504628608406922, 5836590514247610, 10043495208508370);
    }
    assert yy.2 == -29527900 by {
      ColumnsY();
      LimbTwo(yy, Y46, -35218153101830043, 20896702826660540, -10898711355934639);
    }
    assert t0.2 == 33063405 by {
      ColumnsSum();
      SumOfLimbs();
      LimbTwo(t0, SUM46, 9986924647760291, 13437554562158916, 31142351356940459);
    }
  }

  /** Doubling the base point, given as (46 x : 46 y : 46) within one unit, takes (x + y)^2 - (y^2 + x^2) to a limb
      above 1.1 * 2^26, and hands it to FeMul. */
  lemma DoubleBeyondComment(xx: Limbs, yy: Limbs, t0: Limbs) returns (q: CurvePoint)
    requires PrimeModulus(P)
    requires IsProduct(xx, X46, X46) && IsProduct(yy, Y46, Y46) && IsProduct(t0, Plus(X46, Y46), Plus(X46, Y46))
    ensures Bounded(X46, 1) && Bounded(Y46, 1) && Bounded(Z46, 1)
    ensures IsProj(Val(X46), Val(Y46), Val(Z46), q)
    ensures 10 * (t0.2 - (yy.2 + xx.2)) > 11 * 0x400_0000
  {
    q := BaseIsPoint();
    ValueX();
    ValueY();
    ValueZ();
    WithinOneUnit();
    LimbBeyondComment(xx, yy, t0);
  }
}
