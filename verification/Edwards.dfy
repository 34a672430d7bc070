/** The twisted Edwards curve -x^2 + y^2 = 1 + d x^2 y^2 modulo a prime `p`, in affine coordinates. */
module Edwards {
  import opened Congruence
  import opened Powers
  import opened Fermat

  datatype Point = Point(x: int, y: int)

  /** d x1 x2 y1 y2, the term in both denominators of the addition law. */
  function Cross(a: Point, b: Point, d: int): int {
    d * ((a.x * b.x) * (a.y * b.y))
  }

  predicate OnCurve(a: Point, d: int, p: int)
    requires p > 0
  {
    Cong(a.y * a.y - a.x * a.x, 1 + d * ((a.x * a.x) * (a.y * a.y)), p)
  }

  /** `c` is the sum of `a` and `b` by the addition law of section 5.1.4 of RFC 8032, denominators multiplied out. */
  ghost predicate IsSum(a: Point, b: Point, c: Point, d: int, p: int)
    requires p > 0
  {
    && !Cong(1 + Cross(a, b, d), 0, p) && !Cong(1 - Cross(a, b, d), 0, p)
    && Cong(c.x * (1 + Cross(a, b, d)), a.x * b.y + a.y * b.x, p)
    && Cong(c.y * (1 - Cross(a, b, d)), a.y * b.y + a.x * b.x, p)
  }

  ghost predicate NonSquare(d: int, p: int)
    requires p > 0
  {
    forall w: int {:trigger w * w} :: !Cong(w * w, d, p)
  }

  lemma InverseExists(z: int, p: int) returns (w: int)
    requires PrimeModulus(p) && !Cong(z, 0, p)
    ensures Cong(z * w, 1, p)
  {
    w := Pow(z, p - 2);
    FermatLittle(z, p);
  }

  /** A square that is d times a nonzero square would make d a square. */
  lemma SquareRatio(s: int, t: int, d: int, p: int)
    requires PrimeModulus(p) && NonSquare(d, p)
    requires Cong(s * s, d * (t * t), p)
    ensures Cong(t, 0, p)
  {
    if !Cong(t, 0, p) {
      var w := InverseExists(t, p);
      var r := s * w;
      CongMul(t * w, 1, t * w, 1, p);
      CongMul(d, d, (t * w) * (t * w), 1, p);
      CongMul(s * s, d * (t * t), w * w, w * w, p);
      Regroup(s, s, w, w);
      RatioSquares(d, t, w);
      assert Cong(r * r, d, p);
    }
  }

  lemma RatioSquares(d: int, t: int, w: int)
    ensures (d * (t * t)) * (w * w) == d * ((t * w) * (t * w))
  {
  }

  lemma CrossSquared(x1: int, y1: int, x2: int, y2: int, d: int)
    ensures (d * ((x1 * x2) * (y1 * y2))) * (d * ((x1 * x2) * (y1 * y2)))
         == (d * ((x1 * x1) * (y1 * y1))) * (d * ((x2 * x2) * (y2 * y2)))
  {
  }

  lemma BinomialSquare(x: int, y: int, e: int, i: int)
    ensures (i * x + e * y) * (i * x + e * y) == (i * i) * (x * x) + (e * e) * (y * y) + 2 * i * e * (x * y)
  {
  }

  lemma CrossMonomial(x1: int, y1: int, x2: int, y2: int, d: int, i: int)
    ensures (d * ((x1 * x1) * (y1 * y1))) * (2 * i * (x2 * y2)) == 2 * i * (d * ((x1 * x2) * (y1 * y2))) * (x1 * y1)
  {
  }

  lemma ScaleSum(d: int, q: int, a: int, c: int)
    ensures d * (q * (a + c)) == (d * q) * a + (d * q) * c
  {
  }

  lemma ScaledSquare(x1: int, y1: int, x2: int, y2: int, d: int, i: int)
    ensures d * (((x1 * y1) * (y2 + i * x2)) * ((x1 * y1) * (y2 + i * x2)))
         == (d * ((x1 * x1) * (y1 * y1))) * (y2 * y2 + (i * i) * (x2 * x2))
          + 2 * i * (d * ((x1 * x2) * (y1 * y2))) * (x1 * y1)
  {
    var m, n := x1 * y1, y2 + i * x2;
    Regroup(m, n, m, n);
    Regroup(x1, y1, x1, y1);
    assert n * n == (y2 * y2 + (i * i) * (x2 * x2)) + 2 * i * (x2 * y2) by {
      BinomialSquare(x2, y2, 1, i);
    }
    ScaleSum(d, (x1 * x1) * (y1 * y1), y2 * y2 + (i * i) * (x2 * x2), 2 * i * (x2 * y2));
    CrossMonomial(x1, y1, x2, y2, d, i);
  }

  /** If the cross term of two curve points squared to 1, d would be a ratio of squares. */
  lemma CrossIsRatio(a: Point, b: Point, d: int, p: int, i: int)
    requires p > 0 && OnCurve(a, d, p) && OnCurve(b, d, p)
    requires Cong(i * i, -1, p) && Cong(Cross(a, b, d) * Cross(a, b, d), 1, p)
    ensures var s, t := i * a.x + Cross(a, b, d) * a.y, (a.x * a.y) * (b.y + i * b.x);
            Cong(s * s, d * (t * t), p)
  {
    var e := Cross(a, b, d);
    var d1, d2 := d * ((a.x * a.x) * (a.y * a.y)), d * ((b.x * b.x) * (b.y * b.y));
    var c := 2 * i * e * (a.x * a.y);
    CrossSquared(a.x, a.y, b.x, b.y, d);
    BinomialSquare(a.x, a.y, e, i);
    ScaledSquare(a.x, a.y, b.x, b.y, d, i);
    CongMul(i * i, -1, a.x * a.x, a.x * a.x, p);
    CongMul(e * e, 1, a.y * a.y, a.y * a.y, p);
    var l1, l2 := (i * i) * (a.x * a.x), (e * e) * (a.y * a.y);
    CongAdd(l1, -1 * (a.x * a.x), l2, 1 * (a.y * a.y), p);
    assert Cong(l1 + l2, 1 + d1, p);
    CongMul(i * i, -1, b.x * b.x, b.x * b.x, p);
    CongAdd(b.y * b.y, b.y * b.y, (i * i) * (b.x * b.x), -1 * (b.x * b.x), p);
    var r := b.y * b.y + (i * i) * (b.x * b.x);
    assert Cong(r, 1 + d2, p);
    CongMul(d1, d1, r, 1 + d2, p);
    assert d1 * (1 + d2) == d1 + e * e;
    CongAdd(d1, d1, e * e, 1, p);
    assert Cong(d1 * r, 1 + d1, p);
    CongAdd(l1 + l2, d1 * r, c, c, p);
  }

  /** The shape both roots of -1 give: were x1 y1 invertible, y2 = -i x2. */
  lemma RootFactor(a: Point, b: Point, d: int, p: int, i: int)
    requires PrimeModulus(p) && NonSquare(d, p) && OnCurve(a, d, p) && OnCurve(b, d, p)
    requires Cong(i * i, -1, p) && Cong(Cross(a, b, d) * Cross(a, b, d), 1, p)
    ensures Cong(a.x * a.y, 0, p) || Cong(b.y + i * b.x, 0, p)
  {
    CrossIsRatio(a, b, d, p, i);
    SquareRatio(i * a.x + Cross(a, b, d) * a.y, (a.x * a.y) * (b.y + i * b.x), d, p);
    CongZeroFactor(a.x * a.y, b.y + i * b.x, p);
  }

  lemma CrossFactors(a: Point, b: Point, d: int)
    ensures Cross(a, b, d) == (d * (b.x * b.y)) * (a.x * a.y)
    ensures Cross(a, b, d) == (d * (a.x * (a.y * b.x))) * b.y
  {
  }

  lemma BothRoots(y: int, v: int, w: int, p: int)
    requires PrimeModulus(p) && !Cong(2, 0, p)
    requires v + w == 2 * y && Cong(v, 0, p) && Cong(w, 0, p)
    ensures Cong(y, 0, p)
  {
    CongAdd(v, 0, w, 0, p);
    CongZeroFactor(2, y, p);
  }

  lemma OppositeRoots(x: int, y: int, i: int)
    ensures (y + i * x) + (y + (-i) * x) == 2 * y
    ensures (-i) * (-i) == i * i
  {
  }

  lemma CrossVanishes(a: Point, b: Point, d: int, p: int, i: int)
    requires PrimeModulus(p) && NonSquare(d, p) && OnCurve(a, d, p) && OnCurve(b, d, p)
    requires Cong(i * i, -1, p) && !Cong(2, 0, p)
    requires Cong(Cross(a, b, d) * Cross(a, b, d), 1, p)
    ensures Cong(Cross(a, b, d), 0, p)
  {
    OppositeRoots(b.x, b.y, i);
    RootFactor(a, b, d, p, i);
    RootFactor(a, b, d, p, -i);
    CrossFactors(a, b, d);
    if Cong(a.x * a.y, 0, p) {
      CongZeroMul(d * (b.x * b.y), a.x * a.y, p);
    } else {
      BothRoots(b.y, b.y + i * b.x, b.y + (-i) * b.x, p);
      CongZeroMul(d * (a.x * (a.y * b.x)), b.y, p);
    }
  }

  lemma CrossNotUnit(a: Point, b: Point, d: int, p: int, i: int)
    requires PrimeModulus(p) && NonSquare(d, p) && OnCurve(a, d, p) && OnCurve(b, d, p)
    requires Cong(i * i, -1, p) && !Cong(2, 0, p)
    ensures !Cong(Cross(a, b, d) * Cross(a, b, d), 1, p)
  {
    var e := Cross(a, b, d);
    DivModUnique(0, 0, 0, p);
    DivModUnique(1, 0, 1, p);
    if Cong(e * e, 1, p) {
      CrossVanishes(a, b, d, p, i);
      CongZeroMul(e, e, p);
    }
  }

  lemma Conjugates(e: int)
    ensures (1 + e) * (1 - e) == 1 - e * e
  {
  }

  /** The addition law is complete: its denominators never vanish on the curve. */
  lemma Complete(a: Point, b: Point, d: int, p: int, i: int)
    requires PrimeModulus(p) && NonSquare(d, p) && OnCurve(a, d, p) && OnCurve(b, d, p)
    requires Cong(i * i, -1, p) && !Cong(2, 0, p)
    ensures !Cong(1 + Cross(a, b, d), 0, p) && !Cong(1 - Cross(a, b, d), 0, p)
  {
    var e := Cross(a, b, d);
    CrossNotUnit(a, b, d, p, i);
    Conjugates(e);
    CongDiff(1, e * e, p);
    if Cong(1 + e, 0, p) || Cong(1 - e, 0, p) {
      CongZeroMul(1 + e, 1 - e, p);
    }
  }

  // Closure.  With S = y^2 - x^2, T = y^2 + x^2, m = x y and D = d m^2 for each operand, the
  // curve equation of the sum, cleared of denominators, depends on S1, S2, D1, D2 only.

  lemma NumeratorDifference(x1: int, y1: int, x2: int, y2: int)
    ensures (y1 * y2 + x1 * x2) * (y1 * y2 + x1 * x2) - (x1 * y2 + y1 * x2) * (x1 * y2 + y1 * x2)
         == (y1 * y1 - x1 * x1) * (y2 * y2 - x2 * x2)
  {
  }

  lemma NumeratorSum(x1: int, y1: int, x2: int, y2: int)
    ensures (y1 * y2 + x1 * x2) * (y1 * y2 + x1 * x2) + (x1 * y2 + y1 * x2) * (x1 * y2 + y1 * x2)
         == (y1 * y1 + x1 * x1) * (y2 * y2 + x2 * x2) + 4 * ((x1 * y1) * (x2 * y2))
  {
  }

  lemma NumeratorsMultiplied(x1: int, y1: int, x2: int, y2: int)
    ensures (x1 * y2 + y1 * x2) * (y1 * y2 + x1 * x2)
         == (x1 * y1) * (y2 * y2 + x2 * x2) + (x2 * y2) * (y1 * y1 + x1 * x1)
  {
  }

  lemma SumOfSquares(x: int, y: int)
    ensures (y * y + x * x) * (y * y + x * x) == (y * y - x * x) * (y * y - x * x) + 4 * ((x * y) * (x * y))
  {
  }

  lemma ExpandSquare(u: int, v: int)
    ensures (u + v) * (u + v) == u * u + v * v + 2 * (u * v)
  {
  }

  lemma ScaleThree(d: int, m: int, n: int, r: int, s: int, t: int, w: int)
    ensures d * (m * r + n * s + 2 * (w * t)) == (d * m) * r + (d * n) * s + 2 * (d * w) * t
  {
  }

  /** d (m1 T2 + m2 T1)^2 */
  lemma NumeratorProduct(d: int, m1: int, m2: int, t1: int, t2: int)
    ensures d * ((m1 * t2 + m2 * t1) * (m1 * t2 + m2 * t1))
         == (d * (m1 * m1)) * (t2 * t2) + (d * (m2 * m2)) * (t1 * t1) + 2 * (d * (m1 * m2)) * (t1 * t2)
  {
    ExpandSquare(m1 * t2, m2 * t1);
    Regroup(m1, t2, m1, t2);
    Regroup(m2, t1, m2, t1);
    Regroup(m1, t2, m2, t1);
    ScaleThree(d, m1 * m1, m2 * m2, t2 * t2, t1 * t1, t2 * t1, m1 * m2);
  }

  /** The cleared equation in terms of f = n2^2 - n1^2, g = n2^2 + n1^2 and h = d (n1 n2)^2. */
  lemma ClearedEquation(a: int, b: int, d: int, e: int)
    ensures a * ((1 + e) * (1 + e)) - b * ((1 - e) * (1 - e)) - ((1 + e) * (1 + e)) * ((1 - e) * (1 - e)) - d * (a * b)
         == (1 + e * e) * (a - b) + 2 * e * (a + b) - (1 - e * e) * (1 - e * e) - d * (a * b)
  {
  }

  /** On the curve S = 1 + D, and then the equation holds identically. */
  lemma EquationHolds(d1: int, d2: int)
    ensures (1 + d1 * d2) * ((1 + d1) * (1 + d2)) - (1 - d1 * d2) * (1 - d1 * d2)
          - d1 * ((1 + d2) * (1 + d2)) - d2 * ((1 + d1) * (1 + d1)) == 0
  {
  }

  function Residual(s1: int, s2: int, d1: int, d2: int): int {
    (1 + d1 * d2) * (s1 * s2) - (1 - d1 * d2) * (1 - d1 * d2) - d1 * (s2 * s2) - d2 * (s1 * s1)
  }

  lemma ResidualVanishes(s1: int, s2: int, d1: int, d2: int, p: int)
    requires p > 0 && Cong(s1, 1 + d1, p) && Cong(s2, 1 + d2, p)
    ensures Cong(Residual(s1, s2, d1, d2), 0, p)
  {
    var k := 1 + d1 * d2;
    var c := (1 - d1 * d2) * (1 - d1 * d2);
    CongMul(s1, 1 + d1, s2, 1 + d2, p);
    CongMul(k, k, s1 * s2, (1 + d1) * (1 + d2), p);
    CongMul(s2, 1 + d2, s2, 1 + d2, p);
    CongMul(d1, d1, s2 * s2, (1 + d2) * (1 + d2), p);
    CongMul(s1, 1 + d1, s1, 1 + d1, p);
    CongMul(d2, d2, s1 * s1, (1 + d1) * (1 + d1), p);
    CongSub(k * (s1 * s2), k * ((1 + d1) * (1 + d2)), c, c, p);
    CongSub(k * (s1 * s2) - c, k * ((1 + d1) * (1 + d2)) - c, d1 * (s2 * s2), d1 * ((1 + d2) * (1 + d2)), p);
    CongSub(k * (s1 * s2) - c - d1 * (s2 * s2), k * ((1 + d1) * (1 + d2)) - c - d1 * ((1 + d2) * (1 + d2)),
            d2 * (s1 * s1), d2 * ((1 + d1) * (1 + d1)), p);
    EquationHolds(d1, d2);
  }

  /** Assembles the identities: all but S and D cancel. */
  lemma ClearedIsResidual(a: int, b: int, d: int, e: int, q: int, s1: int, s2: int, t1: int, t2: int, d1: int, d2: int)
    requires a - b == s1 * s2 && a + b == t1 * t2 + 4 * q
    requires d * (a * b) == d1 * (t2 * t2) + d2 * (t1 * t1) + 2 * e * (t1 * t2)
    requires d1 * (t2 * t2) == d1 * (s2 * s2) + 4 * (e * q)
    requires d2 * (t1 * t1) == d2 * (s1 * s1) + 4 * (e * q)
    requires e * e == d1 * d2
    ensures a * ((1 + e) * (1 + e)) - b * ((1 - e) * (1 - e)) - ((1 + e) * (1 + e)) * ((1 - e) * (1 - e)) - d * (a * b)
         == Residual(s1, s2, d1, d2)
  {
    ClearedEquation(a, b, d, e);
    assert 2 * e * (a + b) == 2 * e * (t1 * t2) + 8 * (e * q);
  }

  /** d m1^2 times (2 m2)^2 is 4 e q, e and q being the products of all four coordinates with and without d. */
  lemma FourthPowers(d: int, m1: int, m2: int)
    ensures (d * (m1 * m1)) * (4 * (m2 * m2)) == 4 * ((d * (m1 * m2)) * (m1 * m2))
    ensures (d * (m2 * m2)) * (4 * (m1 * m1)) == 4 * ((d * (m1 * m2)) * (m1 * m2))
    ensures (d * (m1 * m2)) * (d * (m1 * m2)) == (d * (m1 * m1)) * (d * (m2 * m2))
  {
  }

  /** The curve equation of a sum, cleared of denominators, for any two points: numerators n1, n2. */
  function Cleared(n1: int, n2: int, e: int, d: int): int {
    (n2 * n2) * ((1 + e) * (1 + e)) - (n1 * n1) * ((1 - e) * (1 - e))
    - ((1 + e) * (1 + e)) * ((1 - e) * (1 - e)) - d * ((n2 * n2) * (n1 * n1))
  }

  lemma ClearedVanishes(a: Point, b: Point, d: int, p: int)
    requires p > 0 && OnCurve(a, d, p) && OnCurve(b, d, p)
    ensures Cong(Cleared(a.x * b.y + a.y * b.x, a.y * b.y + a.x * b.x, Cross(a, b, d), d), 0, p)
  {
    var n1, n2 := a.x * b.y + a.y * b.x, a.y * b.y + a.x * b.x;
    var m1, m2 := a.x * a.y, b.x * b.y;
    var s1, s2 := a.y * a.y - a.x * a.x, b.y * b.y - b.x * b.x;
    var t1, t2 := a.y * a.y + a.x * a.x, b.y * b.y + b.x * b.x;
    var d1, d2, e := d * (m1 * m1), d * (m2 * m2), d * (m1 * m2);
    NumeratorDifference(a.x, a.y, b.x, b.y);
    NumeratorSum(a.x, a.y, b.x, b.y);
    NumeratorsMultiplied(a.x, a.y, b.x, b.y);
    NumeratorProduct(d, m1, m2, t1, t2);
    Regroup(n1, n2, n1, n2);
    SumOfSquares(a.x, a.y);
    SumOfSquares(b.x, b.y);
    FourthPowers(d, m1, m2);
    Regroup(a.x, a.y, b.x, b.y);
    Regroup(a.x, a.y, a.x, a.y);
    Regroup(b.x, b.y, b.x, b.y);
    assert d1 * (t2 * t2) == d1 * (s2 * s2) + d1 * (4 * (m2 * m2));
    assert d2 * (t1 * t1) == d2 * (s1 * s1) + d2 * (4 * (m1 * m1));
    ClearedIsResidual(n2 * n2, n1 * n1, d, e, m1 * m2, s1, s2, t1, t2, d1, d2);
    ResidualVanishes(s1, s2, d1, d2, p);
  }

  lemma FactorDenominators(xx: int, yy: int, u: int, v: int, d: int)
    ensures (yy * v) * u - (xx * u) * v - u * v - d * ((yy * v) * (xx * u)) == (u * v) * (yy - xx - 1 - d * (xx * yy))
  {
  }

  /** Replacing both numerators by congruent products. */
  lemma ReplaceNumerators(a: int, a': int, b: int, b': int, u: int, v: int, d: int, p: int)
    requires p > 0 && Cong(a, a', p) && Cong(b, b', p)
    ensures Cong(a * u - b * v - u * v - d * (a * b), a' * u - b' * v - u * v - d * (a' * b'), p)
  {
    CongMul(a, a', u, u, p);
    CongMul(b, b', v, v, p);
    CongMul(a, a', b, b', p);
    CongMul(d, d, a * b, a' * b', p);
    CongSub(a * u, a' * u, b * v, b' * v, p);
    CongSub(a * u - b * v, a' * u - b' * v, u * v, u * v, p);
    CongSub(a * u - b * v - u * v, a' * u - b' * v - u * v, d * (a * b), d * (a' * b'), p);
  }

  /** The sum of two curve points is on the curve. */
  lemma SumOnCurve(a: Point, b: Point, c: Point, d: int, p: int)
    requires PrimeModulus(p) && OnCurve(a, d, p) && OnCurve(b, d, p) && IsSum(a, b, c, d, p)
    ensures OnCurve(c, d, p)
  {
    var e := Cross(a, b, d);
    var n1, n2 := a.x * b.y + a.y * b.x, a.y * b.y + a.x * b.x;
    var u, v := (1 + e) * (1 + e), (1 - e) * (1 - e);
    var xx, yy := c.x * c.x, c.y * c.y;
    CongMul(c.x * (1 + e), n1, c.x * (1 + e), n1, p);
    Regroup(c.x, 1 + e, c.x, 1 + e);
    CongMul(c.y * (1 - e), n2, c.y * (1 - e), n2, p);
    Regroup(c.y, 1 - e, c.y, 1 - e);
    ReplaceNumerators(yy * v, n2 * n2, xx * u, n1 * n1, u, v, d, p);
    FactorDenominators(xx, yy, u, v, d);
    ClearedVanishes(a, b, d, p);
    CongNonzeroMul(1 + e, 1 + e, p);
    CongNonzeroMul(1 - e, 1 - e, p);
    CongNonzeroMul(u, v, p);
    CongZeroFactor(u * v, yy - xx - 1 - d * (xx * yy), p);
    CongDiff(yy - xx, 1 + d * (xx * yy), p);
  }

  /** Existence: the sum with coordinates in [0, p). */
  lemma SumExists(a: Point, b: Point, d: int, p: int) returns (c: Point)
    requires PrimeModulus(p)
    requires !Cong(1 + Cross(a, b, d), 0, p) && !Cong(1 - Cross(a, b, d), 0, p)
    ensures IsSum(a, b, c, d, p) && 0 <= c.x < p && 0 <= c.y < p
  {
    var e := Cross(a, b, d);
    var x := Quotient(a.x * b.y + a.y * b.x, 1 + e, p);
    var y := Quotient(a.y * b.y + a.x * b.x, 1 - e, p);
    c := Point(x, y);
  }

  lemma Quotient(n: int, z: int, p: int) returns (x: int)
    requires PrimeModulus(p) && !Cong(z, 0, p)
    ensures 0 <= x < p && Cong(x * z, n, p)
  {
    var w := InverseExists(z, p);
    x := (n * w) % p;
    CongRes(n * w, p);
    CongMul(x, n * w, z, z, p);
    CongMul(n, n, z * w, 1, p);
    assert (n * w) * z == n * (z * w);
  }

  /** Uniqueness up to congruence. */
  lemma SumUnique(a: Point, b: Point, c: Point, c': Point, d: int, p: int)
    requires PrimeModulus(p) && IsSum(a, b, c, d, p) && IsSum(a, b, c', d, p)
    ensures Cong(c.x, c'.x, p) && Cong(c.y, c'.y, p)
  {
    var e := Cross(a, b, d);
    QuotientUnique(c.x, c'.x, 1 + e, a.x * b.y + a.y * b.x, p);
    QuotientUnique(c.y, c'.y, 1 - e, a.y * b.y + a.x * b.x, p);
  }

  lemma QuotientUnique(x: int, x': int, z: int, n: int, p: int)
    requires PrimeModulus(p) && !Cong(z, 0, p) && Cong(x * z, n, p) && Cong(x' * z, n, p)
    ensures Cong(x, x', p)
  {
    assert x * z == z * x && x' * z == z * x';
    CongCancel(z, x, x', p);
  }

  /** The reflection (-x, y), which negates a point. */
  function Reflected(a: Point, p: int): Point
    requires p > 0
  {
    Point((-a.x) % p, a.y)
  }

  /** The curve equation depends on the square of x only up to congruence. */
  lemma SubstituteSquare(r: int, x: int, y: int, d: int, p: int)
    requires p > 0 && Cong(r, x, p) && Cong(y - x, 1 + d * (x * y), p)
    ensures Cong(y - r, 1 + d * (r * y), p)
  {
    CongSub(y, y, r, x, p);
    CongMul(r, x, y, y, p);
    CongMul(d, d, r * y, x * y, p);
    CongAdd(1, 1, d * (r * y), d * (x * y), p);
  }

  lemma SquareOfNegated(x: int)
    ensures (-x) * (-x) == x * x
  {
  }

  lemma ReflectedOnCurve(a: Point, d: int, p: int)
    requires p > 0 && OnCurve(a, d, p)
    ensures OnCurve(Reflected(a, p), d, p)
  {
    var r := (-a.x) % p;
    CongRes(-a.x, p);
    CongMul(r, -a.x, r, -a.x, p);
    SquareOfNegated(a.x);
    SubstituteSquare(r * r, a.x * a.x, a.y * a.y, d, p);
  }

  // The group laws that are identities of the addition formulas.

  lemma SumSymmetric(a: Point, b: Point, c: Point, d: int, p: int)
    requires p > 0 && IsSum(a, b, c, d, p)
    ensures IsSum(b, a, c, d, p)
  {
    assert Cross(a, b, d) == Cross(b, a, d);
    assert a.x * b.y + a.y * b.x == b.x * a.y + b.y * a.x && a.y * b.y + a.x * b.x == b.y * a.y + b.x * a.x;
  }

  lemma SumWithNeutral(a: Point, d: int, p: int)
    requires p > 1
    ensures IsSum(a, Point(0, 1), a, d, p)
  {
    DivModUnique(1, 0, 1, p);
    DivModUnique(0, 0, 0, p);
    assert Cross(a, Point(0, 1), d) == 0;
  }

  lemma ReflectedTerms(x: int, y: int, r: int, d: int, p: int)
    requires p > 0 && Cong(r, -x, p)
    ensures Cong(x * y + y * r, 0, p) && Cong(y * y + x * r, y * y - x * x, p)
    ensures Cong(1 - d * ((x * r) * (y * y)), 1 + d * ((x * x) * (y * y)), p)
  {
    CongMul(y, y, r, -x, p);
    CongAdd(x * y, x * y, y * r, y * (-x), p);
    CongMul(x, x, r, -x, p);
    NegatedProducts(x, y, d);
    CongAdd(y * y, y * y, x * r, -(x * x), p);
    CongMul(x * r, -(x * x), y * y, y * y, p);
    CongMul(d, d, (x * r) * (y * y), (-(x * x)) * (y * y), p);
    CongSub(1, 1, d * ((x * r) * (y * y)), d * ((-(x * x)) * (y * y)), p);
  }

  lemma NegatedProducts(x: int, y: int, d: int)
    ensures x * y + y * (-x) == 0 && x * (-x) == -(x * x)
    ensures d * ((-(x * x)) * (y * y)) == -(d * ((x * x) * (y * y)))
  {
  }

  lemma SumWithReflected(a: Point, d: int, p: int)
    requires p > 0 && OnCurve(a, d, p)
    requires !Cong(1 + Cross(a, Reflected(a, p), d), 0, p) && !Cong(1 - Cross(a, Reflected(a, p), d), 0, p)
    ensures IsSum(a, Reflected(a, p), Point(0, 1), d, p)
  {
    CongRes(-a.x, p);
    ReflectedTerms(a.x, a.y, (-a.x) % p, d, p);
  }
}
