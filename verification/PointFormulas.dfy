/** The algebra of the point formulas: integers congruent to coordinates, for an abstract prime `p`. */
module PointFormulas {
  import opened Congruence
  import opened Powers
  import opened Edwards

  /** (X:Y:Z) stands for x = X/Z, y = Y/Z. */
  ghost predicate ProjRep(x: int, y: int, z: int, q: Point, p: int)
    requires p > 0
  {
    !Cong(z, 0, p) && Cong(x, q.x * z, p) && Cong(y, q.y * z, p)
  }

  /** (X:Y:Z:T) with also xy = T/Z. */
  ghost predicate ExtRep(x: int, y: int, z: int, t: int, q: Point, p: int)
    requires p > 0
  {
    ProjRep(x, y, z, q, p) && Cong(t, (q.x * q.y) * z, p)
  }

  /** ((X:Z),(Y:T)) stands for x = X/Z, y = Y/T. */
  ghost predicate CompRep(x: int, y: int, z: int, t: int, q: Point, p: int)
    requires p > 0
  {
    !Cong(z, 0, p) && !Cong(t, 0, p) && Cong(x, q.x * z, p) && Cong(y, q.y * t, p)
  }

  /** (Y+X, Y-X, Z, 2dT) */
  ghost predicate CachedRep(plus: int, minus: int, z: int, t2d: int, q: Point, d: int, p: int)
    requires p > 0
  {
    && !Cong(z, 0, p) && Cong(plus, (q.y + q.x) * z, p) && Cong(minus, (q.y - q.x) * z, p)
    && Cong(t2d, (2 * (d * (q.x * q.y))) * z, p)
  }

  lemma MulByTwice(c: int, n: int, s: int, w: int, p: int)
    requires p > 0 && Cong(c * s, n, p)
    ensures Cong(2 * (n * w), c * (2 * (s * w)), p)
  {
    CongMul(c * s, n, 2 * w, 2 * w, p);
    assert n * (2 * w) == 2 * (n * w) && (c * s) * (2 * w) == c * (2 * (s * w));
  }

  /** Numerators and denominators of a sum, scaled by 2w, are its completed coordinates. */
  lemma SumCompleted(x: int, y: int, z: int, t: int, w: int, a: Point, b: Point, c: Point, d: int, p: int)
    requires PrimeModulus(p) && !Cong(2, 0, p) && !Cong(w, 0, p) && IsSum(a, b, c, d, p)
    requires Cong(x, 2 * ((a.x * b.y + a.y * b.x) * w), p) && Cong(y, 2 * ((a.y * b.y + a.x * b.x) * w), p)
    requires Cong(z, 2 * ((1 + Cross(a, b, d)) * w), p) && Cong(t, 2 * ((1 - Cross(a, b, d)) * w), p)
    ensures CompRep(x, y, z, t, c, p)
  {
    var e := Cross(a, b, d);
    MulByTwice(c.x, a.x * b.y + a.y * b.x, 1 + e, w, p);
    CongMul(c.x, c.x, z, 2 * ((1 + e) * w), p);
    MulByTwice(c.y, a.y * b.y + a.x * b.x, 1 - e, w, p);
    CongMul(c.y, c.y, t, 2 * ((1 - e) * w), p);
    CongNonzeroMul(1 + e, w, p);
    CongNonzeroMul(2, (1 + e) * w, p);
    CongNonzeroMul(1 - e, w, p);
    CongNonzeroMul(2, (1 - e) * w, p);
  }

  lemma AdditionProducts(x1: int, y1: int, x2: int, y2: int, d: int, z1: int, z2: int)
    ensures ((y1 + x1) * z1) * ((y2 + x2) * z2) - ((y1 - x1) * z1) * ((y2 - x2) * z2)
         == 2 * ((x1 * y2 + y1 * x2) * (z1 * z2))
    ensures ((y1 + x1) * z1) * ((y2 + x2) * z2) + ((y1 - x1) * z1) * ((y2 - x2) * z2)
         == 2 * ((y1 * y2 + x1 * x2) * (z1 * z2))
  {
    Regroup(y1 + x1, z1, y2 + x2, z2);
    Regroup(y1 - x1, z1, y2 - x2, z2);
    var w := z1 * z2;
    assert (y1 + x1) * (y2 + x2) == (y1 * y2 + x1 * x2) + (x1 * y2 + y1 * x2);
    assert (y1 - x1) * (y2 - x2) == (y1 * y2 + x1 * x2) - (x1 * y2 + y1 * x2);
    SumTimes(y1 * y2 + x1 * x2, x1 * y2 + y1 * x2, w);
  }

  lemma SumTimes(m: int, n: int, w: int)
    ensures (m + n) * w - (m - n) * w == 2 * (n * w) && (m + n) * w + (m - n) * w == 2 * (m * w)
  {
  }

  lemma SumAndDifference(x: int, y: int, z: int, q: Point, p: int)
    requires p > 0 && Cong(x, q.x * z, p) && Cong(y, q.y * z, p)
    ensures Cong(y + x, (q.y + q.x) * z, p) && Cong(y - x, (q.y - q.x) * z, p)
  {
    CongAdd(y, q.y * z, x, q.x * z, p);
    CongSub(y, q.y * z, x, q.x * z, p);
    assert (q.y + q.x) * z == q.y * z + q.x * z && (q.y - q.x) * z == q.y * z - q.x * z;
  }

  lemma CrossProduct(a: Point, b: Point, d: int, z1: int, z2: int)
    ensures ((2 * (d * (b.x * b.y))) * z2) * ((a.x * a.y) * z1) == 2 * (Cross(a, b, d) * (z1 * z2))
  {
    Regroup(2 * (d * (b.x * b.y)), z2, a.x * a.y, z1);
    assert (2 * (d * (b.x * b.y))) * (a.x * a.y) == 2 * Cross(a, b, d) by {
      Regroup(b.x, b.y, a.x, a.y);
    }
    assert z2 * z1 == z1 * z2;
  }

  /** geAdd: the four products, congruent to what its multiplications are given, make the sum. */
  lemma AddRep(x1: int, y1: int, z1: int, t1: int, plus: int, minus: int, z2: int, t2d: int,
               xx: int, yy: int, zz: int, tt: int, a: Point, b: Point, c: Point, d: int, p: int)
    requires PrimeModulus(p) && !Cong(2, 0, p) && IsSum(a, b, c, d, p)
    requires ExtRep(x1, y1, z1, t1, a, p) && CachedRep(plus, minus, z2, t2d, b, d, p)
    requires Cong(zz, (y1 + x1) * plus, p) && Cong(yy, (y1 - x1) * minus, p)
    requires Cong(tt, t2d * t1, p) && Cong(xx, z1 * z2, p)
    ensures CompRep(zz - yy, zz + yy, 2 * xx + tt, 2 * xx - tt, c, p)
  {
    var w := z1 * z2;
    var e := Cross(a, b, d);
    SumAndDifference(x1, y1, z1, a, p);
    CongMul(y1 + x1, (a.y + a.x) * z1, plus, (b.y + b.x) * z2, p);
    CongMul(y1 - x1, (a.y - a.x) * z1, minus, (b.y - b.x) * z2, p);
    var zz', yy' := ((a.y + a.x) * z1) * ((b.y + b.x) * z2), ((a.y - a.x) * z1) * ((b.y - b.x) * z2);
    CongSub(zz, zz', yy, yy', p);
    CongAdd(zz, zz', yy, yy', p);
    AdditionProducts(a.x, a.y, b.x, b.y, d, z1, z2);
    CongMul(t2d, (2 * (d * (b.x * b.y))) * z2, t1, (a.x * a.y) * z1, p);
    CrossProduct(a, b, d, z1, z2);
    CongMul(2, 2, xx, w, p);
    CongAdd(2 * xx, 2 * w, tt, 2 * (e * w), p);
    CongSub(2 * xx, 2 * w, tt, 2 * (e * w), p);
    assert 2 * w + 2 * (e * w) == 2 * ((1 + e) * w) && 2 * w - 2 * (e * w) == 2 * ((1 - e) * w);
    CongNonzeroMul(z1, z2, p);
    SumCompleted(zz - yy, zz + yy, 2 * xx + tt, 2 * xx - tt, w, a, b, c, d, p);
  }

  /** Swapping Y+X with Y-X and negating 2dT caches the reflected point. */
  lemma CachedReflected(plus: int, minus: int, z: int, t2d: int, q: Point, d: int, p: int)
    requires p > 0 && CachedRep(plus, minus, z, t2d, q, d, p)
    ensures CachedRep(minus, plus, z, -t2d, Reflected(q, p), d, p)
  {
    var r := (-q.x) % p;
    CongRes(-q.x, p);
    CongAdd(q.y, q.y, r, -q.x, p);
    CongMul(q.y + r, q.y - q.x, z, z, p);
    CongSub(q.y, q.y, r, -q.x, p);
    CongMul(q.y - r, q.y + q.x, z, z, p);
    CongMul(r, -q.x, q.y, q.y, p);
    CongMul(2 * d, 2 * d, r * q.y, (-q.x) * q.y, p);
    var m, n := 2 * (d * (r * q.y)), 2 * (d * (q.x * q.y));
    NegatedTerm(d, q.x, q.y, r);
    CongMul(m, -n, z, z, p);
    CongSub(0, 0, t2d, n * z, p);
    assert (-n) * z == -(n * z);
  }

  lemma NegatedTerm(d: int, x: int, y: int, r: int)
    ensures (2 * d) * (r * y) == 2 * (d * (r * y)) && (2 * d) * ((-x) * y) == -(2 * (d * (x * y)))
  {
  }

  lemma Rotate(a: int, b: int, c: int)
    ensures (a * b) * c == a * (b * c) && (a * b) * c == a * (c * b)
  {
  }

  lemma CompletedToExtended(x: int, y: int, z: int, t: int, x3: int, y3: int, z3: int, t3: int, q: Point, p: int)
    requires PrimeModulus(p) && CompRep(x, y, z, t, q, p)
    requires Cong(x3, x * t, p) && Cong(y3, y * z, p) && Cong(z3, z * t, p) && Cong(t3, x * y, p)
    ensures ExtRep(x3, y3, z3, t3, q, p)
  {
    CongMul(x, q.x * z, t, t, p);
    CongMul(y, q.y * t, z, z, p);
    CongMul(x, q.x * z, y, q.y * t, p);
    Regroup(q.x, z, q.y, t);
    Rotate(q.x, z, t);
    Rotate(q.y, t, z);
    CongMul(q.x, q.x, z3, z * t, p);
    CongMul(q.y, q.y, z3, z * t, p);
    CongMul(q.x * q.y, q.x * q.y, z3, z * t, p);
    CongNonzeroMul(z, t, p);
  }

  lemma ExtendedToCached(x: int, y: int, z: int, t: int, k: int, t2d: int, q: Point, d: int, p: int)
    requires p > 0 && ExtRep(x, y, z, t, q, p) && Cong(k, 2 * d, p) && Cong(t2d, t * k, p)
    ensures CachedRep(y + x, y - x, z, t2d, q, d, p)
  {
    SumAndDifference(x, y, z, q, p);
    CongMul(t, (q.x * q.y) * z, k, 2 * d, p);
    assert ((q.x * q.y) * z) * (2 * d) == (2 * (d * (q.x * q.y))) * z;
  }

  lemma DoubledTerms(x: int, y: int, z: int)
    ensures ((y + x) * z) * ((y + x) * z) - ((y * z) * (y * z) + (x * z) * (x * z)) == (x * y + y * x) * (z * z)
    ensures (y * z) * (y * z) + (x * z) * (x * z) == (y * y + x * x) * (z * z)
    ensures (y * z) * (y * z) - (x * z) * (x * z) == (y * y - x * x) * (z * z)
  {
    Regroup(y, z, y, z);
    Regroup(x, z, x, z);
    Regroup(y + x, z, y + x, z);
    assert (y + x) * (y + x) == (y * y + x * x) + (x * y + y * x);
    var w := z * z;
    assert ((y * y + x * x) + (x * y + y * x)) * w == (y * y + x * x) * w + (x * y + y * x) * w;
    assert (y * y + x * x) * w == (y * y) * w + (x * x) * w && (y * y - x * x) * w == (y * y) * w - (x * x) * w;
  }

  /** Double: three squares and a doubled one, with the curve equation, make a + a. */
  lemma DoubleRep(x: int, y: int, z: int, xx: int, yy: int, zz2: int, ss: int, a: Point, c: Point, d: int, p: int)
    requires PrimeModulus(p) && OnCurve(a, d, p) && IsSum(a, a, c, d, p) && ProjRep(x, y, z, a, p)
    requires Cong(xx, x * x, p) && Cong(yy, y * y, p) && Cong(zz2, 2 * (z * z), p) && Cong(ss, (x + y) * (x + y), p)
    ensures CompRep(ss - (yy + xx), yy + xx, yy - xx, zz2 - (yy - xx), c, p)
  {
    var w := z * z;
    var e := Cross(a, a, d);
    var ax, ay := a.x * z, a.y * z;
    SumAndDifference(x, y, z, a, p);
    CongMul(x, ax, x, ax, p);
    CongMul(y, ay, y, ay, p);
    CongMul(y + x, (a.y + a.x) * z, y + x, (a.y + a.x) * z, p);
    DoubledTerms(a.x, a.y, z);
    CongAdd(yy, ay * ay, xx, ax * ax, p);
    CongSub(yy, ay * ay, xx, ax * ax, p);
    CongSub(ss, ((a.y + a.x) * z) * ((a.y + a.x) * z), yy + xx, ay * ay + ax * ax, p);
    CongMul(a.y * a.y - a.x * a.x, 1 + e, w, w, p);
    assert Cong(yy - xx, (1 + e) * w, p);
    CongSub(zz2, 2 * w, yy - xx, (1 + e) * w, p);
    assert 2 * w - (1 + e) * w == (1 - e) * w;
    ScaledQuotient(c.x, 1 + e, a.x * a.y + a.y * a.x, w, ss - (yy + xx), yy - xx, p);
    ScaledQuotient(c.y, 1 - e, a.y * a.y + a.x * a.x, w, yy + xx, zz2 - (yy - xx), p);
    CongNonzeroMul(z, z, p);
    CongNonzeroMul(1 + e, w, p);
    CongNonzeroMul(1 - e, w, p);
  }

  lemma ScaledQuotient(c: int, s: int, n: int, w: int, u: int, v: int, p: int)
    requires p > 0 && Cong(c * s, n, p) && Cong(u, n * w, p) && Cong(v, s * w, p)
    ensures Cong(u, c * v, p)
  {
    CongMul(c * s, n, w, w, p);
    CongMul(c, c, v, s * w, p);
    assert c * (s * w) == (c * s) * w;
  }

  /** Negating X and T reflects the point. */
  lemma ExtendedReflected(x: int, y: int, z: int, t: int, q: Point, p: int)
    requires p > 0 && ExtRep(x, y, z, t, q, p)
    ensures ExtRep(-x, y, z, -t, Reflected(q, p), p)
  {
    var r := (-q.x) % p;
    CongRes(-q.x, p);
    CongSub(0, 0, x, q.x * z, p);
    CongMul(r, -q.x, z, z, p);
    assert (-q.x) * z == -(q.x * z);
    CongSub(0, 0, t, (q.x * q.y) * z, p);
    CongMul(r, -q.x, q.y, q.y, p);
    CongMul(r * q.y, (-q.x) * q.y, z, z, p);
    assert ((-q.x) * q.y) * z == -((q.x * q.y) * z);
  }
}
