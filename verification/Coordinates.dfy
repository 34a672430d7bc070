/** The formulas of PointFormulas at the parameters of Ed25519. */
module Coordinates {
  import opened Congruence
  import opened FieldElement
  import opened CurveGroup
  import opened PointFormulas

  // folded, like the predicates of CurveGroup

  ghost predicate IsProj(x: int, y: int, z: int, q: CurvePoint) {
    forall d, p {:trigger Parameters(d, p)} :: Parameters(d, p) ==> ProjRep(x, y, z, q, p)
  }

  ghost predicate IsExt(x: int, y: int, z: int, t: int, q: CurvePoint) {
    forall d, p {:trigger Parameters(d, p)} :: Parameters(d, p) ==> ExtRep(x, y, z, t, q, p)
  }

  ghost predicate IsComp(x: int, y: int, z: int, t: int, q: CurvePoint) {
    forall d, p {:trigger Parameters(d, p)} :: Parameters(d, p) ==> CompRep(x, y, z, t, q, p)
  }

  ghost predicate IsCached(plus: int, minus: int, z: int, t2d: int, q: CurvePoint) {
    forall d, p {:trigger Parameters(d, p)} :: Parameters(d, p) ==> CachedRep(plus, minus, z, t2d, q, d, p)
  }

  lemma DoubleIsComp(x: int, y: int, z: int, xx: int, yy: int, zz2: int, ss: int,
                     x3: int, y3: int, z3: int, t3: int, a: CurvePoint, c: CurvePoint)
    requires PrimeModulus(P) && EdSum(a, a, c) && IsProj(x, y, z, a)
    requires Cong(xx, x * x, P) && Cong(yy, y * y, P) && Cong(zz2, 2 * (z * z), P) && Cong(ss, (x + y) * (x + y), P)
    requires x3 == ss - y3 && y3 == yy + xx && z3 == yy - xx && t3 == zz2 - z3
    ensures IsComp(x3, y3, z3, t3, c)
  {
    forall d, p | Parameters(d, p)
      ensures CompRep(x3, y3, z3, t3, c, p)
    {
      DoubleRep(x, y, z, xx, yy, zz2, ss, a, c, d, p);
    }
  }

  lemma AddIsComp(x1: int, y1: int, z1: int, t1: int, plus: int, minus: int, z2: int, t2d: int,
                  xx: int, yy: int, zz: int, tt: int, x3: int, y3: int, z3: int, t3: int,
                  a: CurvePoint, b: CurvePoint, c: CurvePoint)
    requires PrimeModulus(P) && EdSum(a, b, c)
    requires IsExt(x1, y1, z1, t1, a) && IsCached(plus, minus, z2, t2d, b)
    requires Cong(zz, (y1 + x1) * plus, P) && Cong(yy, (y1 - x1) * minus, P)
    requires Cong(tt, t2d * t1, P) && Cong(xx, z1 * z2, P)
    requires x3 == zz - yy && y3 == zz + yy && z3 == xx + xx + tt && t3 == xx + xx - tt
    ensures IsComp(x3, y3, z3, t3, c)
  {
    TwoNonzero();
    forall d, p | Parameters(d, p)
      ensures CompRep(x3, y3, z3, t3, c, p)
    {
      AddRep(x1, y1, z1, t1, plus, minus, z2, t2d, xx, yy, zz, tt, a, b, c, d, p);
    }
  }

  /** Subtraction multiplies Y+X by the other's Y-X and swaps the two denominators. */
  lemma SubIsComp(x1: int, y1: int, z1: int, t1: int, plus: int, minus: int, z2: int, t2d: int,
                  xx: int, yy: int, zz: int, tt: int, x3: int, y3: int, z3: int, t3: int,
                  a: CurvePoint, b: CurvePoint, n: CurvePoint, c: CurvePoint)
    requires PrimeModulus(P) && EdReflection(b, n) && EdSum(a, n, c)
    requires IsExt(x1, y1, z1, t1, a) && IsCached(plus, minus, z2, t2d, b)
    requires Cong(zz, (y1 + x1) * minus, P) && Cong(yy, (y1 - x1) * plus, P)
    requires Cong(tt, t2d * t1, P) && Cong(xx, z1 * z2, P)
    requires x3 == zz - yy && y3 == zz + yy && z3 == xx + xx - tt && t3 == xx + xx + tt
    ensures IsComp(x3, y3, z3, t3, c)
  {
    CachedNegated(plus, minus, z2, t2d, -t2d, b, n);
    CongNeg(tt, t2d * t1, P);
    assert (-t2d) * t1 == -(t2d * t1);
    AddIsComp(x1, y1, z1, t1, minus, plus, z2, -t2d, xx, yy, zz, -tt, x3, y3, z3, t3, a, n, c);
  }

  lemma CongNeg(a: int, b: int, m: int)
    requires m > 0 && Cong(a, b, m)
    ensures Cong(-a, -b, m)
  {
    CongSub(0, 0, a, b, m);
  }

  lemma CachedNegated(plus: int, minus: int, z: int, t2d: int, n2d: int, q: CurvePoint, r: CurvePoint)
    requires IsCached(plus, minus, z, t2d, q) && EdReflection(q, r) && n2d == -t2d
    ensures IsCached(minus, plus, z, n2d, r)
  {
    forall d, p | Parameters(d, p)
      ensures CachedRep(minus, plus, z, n2d, r, d, p)
    {
      CachedReflected(plus, minus, z, t2d, q, d, p);
    }
  }

  lemma CompIsExt(x: int, y: int, z: int, t: int, x3: int, y3: int, z3: int, t3: int, q: CurvePoint)
    requires PrimeModulus(P) && IsComp(x, y, z, t, q)
    requires Cong(x3, x * t, P) && Cong(y3, y * z, P) && Cong(z3, z * t, P) && Cong(t3, x * y, P)
    ensures IsExt(x3, y3, z3, t3, q) && IsProj(x3, y3, z3, q)
  {
    forall d, p | Parameters(d, p)
      ensures ExtRep(x3, y3, z3, t3, q, p)
    {
      CompletedToExtended(x, y, z, t, x3, y3, z3, t3, q, p);
    }
  }

  lemma ExtIsCached(x: int, y: int, z: int, t: int, k: int, plus: int, minus: int, t2d: int, q: CurvePoint)
    requires IsExt(x, y, z, t, q) && Cong(k, 2 * D, P) && Cong(t2d, t * k, P)
    requires plus == y + x && minus == y - x
    ensures IsCached(plus, minus, z, t2d, q)
  {
    forall d, p | Parameters(d, p)
      ensures CachedRep(plus, minus, z, t2d, q, d, p)
    {
      ExtendedToCached(x, y, z, t, k, t2d, q, d, p);
    }
  }

  lemma ExtIsProj(x: int, y: int, z: int, t: int, q: CurvePoint)
    requires IsExt(x, y, z, t, q)
    ensures IsProj(x, y, z, q)
  {
  }

  lemma ExtNegated(x: int, y: int, z: int, t: int, q: CurvePoint, r: CurvePoint)
    requires IsExt(x, y, z, t, q) && EdReflection(q, r)
    ensures IsExt(-x, y, z, -t, r)
  {
    forall d, p | Parameters(d, p)
      ensures ExtRep(-x, y, z, -t, r, p)
    {
      ExtendedReflected(x, y, z, t, q, p);
    }
  }

  lemma NeutralIsExt()
    ensures IsExt(0, 1, 1, 0, NEUTRAL) && IsProj(0, 1, 1, NEUTRAL) && IsCached(1, 1, 1, 0, NEUTRAL)
  {
    forall d, p | Parameters(d, p)
      ensures ExtRep(0, 1, 1, 0, NEUTRAL, p) && CachedRep(1, 1, 1, 0, NEUTRAL, d, p)
    {
      DivModUnique(1, 0, 1, p);
      DivModUnique(0, 0, 0, p);
    }
  }
}
