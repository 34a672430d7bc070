/** The addition law of a complete Edwards curve is associative.

    For the abscissa both ways to add three points are cleared of denominators, which leaves N D' = N' D to show.
    N D' - N' D is a multiple of y2 F + x2 G, where F and G depend on the middle point only through x2 y2 and
    y2^2 + x2^2, and what remains of F and G on the curve cancels.  Adding (i, 0), a point of order four, exchanges
    abscissas and ordinates, so that associativity of the ordinate follows from that of the abscissa. */
module Associativity {
  import opened Congruence
  import opened Powers
  import opened Edwards

  // Names of the proof.  Of the outer points: a = x1 y3 + y1 x3, b = y1 y3 + x1 x3, c = y1 x3 - x1 y3,
  // e = x1 x3 - y1 y3, m = x1 y1, n = x3 y3 and q = d m n.  Of the middle point: k = x2 y2 and t = y2^2 + x2^2.

  lemma OuterSums(x1: int, y1: int, x3: int, y3: int)
    ensures (x1 * y3 + y1 * x3) * (y1 * y3 + x1 * x3)
         == (x1 * y1) * (y3 * y3 + x3 * x3) + (x3 * y3) * (y1 * y1 + x1 * x1)
  {
  }

  lemma OuterDifferences(x1: int, y1: int, x3: int, y3: int)
    ensures (y1 * x3 - x1 * y3) * (x1 * x3 - y1 * y3)
         == (x1 * y1) * (y3 * y3 + x3 * x3) - (x3 * y3) * (y1 * y1 + x1 * x1)
  {
  }

  lemma OuterMixed(x1: int, y1: int, x3: int, y3: int)
    ensures (x1 * y3 + y1 * x3) * (x1 * x3 - y1 * y3)
         == -((x1 * y1) * (y3 * y3 - x3 * x3)) - (x3 * y3) * (y1 * y1 - x1 * x1)
    ensures (y1 * y3 + x1 * x3) * (y1 * x3 - x1 * y3)
         == (x3 * y3) * (y1 * y1 - x1 * x1) - (x1 * y1) * (y3 * y3 - x3 * x3)
  {
  }

  lemma OuterSquares(x1: int, y1: int, x3: int, y3: int)
    ensures (x1 * y3 + y1 * x3) * (x1 * y3 + y1 * x3) - (y1 * x3 - x1 * y3) * (y1 * x3 - x1 * y3)
         == 4 * ((x1 * y1) * (x3 * y3))
    ensures (y1 * y3 + x1 * x3) * (y1 * y3 + x1 * x3) - (x1 * x3 - y1 * y3) * (x1 * x3 - y1 * y3)
         == 4 * ((x1 * y1) * (x3 * y3))
  {
  }

  lemma MovedFactors(a: int, b: int, c: int, e: int, f: int, g: int)
    ensures c * ((a * b) * f - (c * e) * g) == (a * f) * (b * c) - (c * c) * (e * g)
  {
  }

  lemma HalvesCancel(a: int, f: int, g: int, q: int)
    ensures (a * f) * (g * (1 - q)) + (a * g) * (f * (1 + q)) == 2 * (a * (f * g))
  {
  }

  lemma SquareFirst(a: int, e: int, g: int)
    ensures (a * g) * (a * e) == (a * a) * (e * g)
  {
  }

  lemma Assembled(af: int, v: int, w: int, ag: int, u: int, w': int, aa: int, cc: int, eg: int, l: int, r: int)
    requires l == af * v - cc * eg && af * w + ag * w' == r && ag * u == aa * eg
    ensures l - r == af * (v - w) - ag * (u + w') + (aa - cc) * eg
  {
  }

  // From here on f = m + n and g = n - m.
  lemma Leftover(a: int, b: int, c: int, e: int, f: int, g: int, q: int)
    ensures c * ((a * b) * f - (c * e) * g) - 2 * (a * (f * g))
         == (a * f) * (b * c - g * (1 - q)) - (a * g) * (a * e + f * (1 + q)) + (a * a - c * c) * (e * g)
  {
    MovedFactors(a, b, c, e, f, g);
    HalvesCancel(a, f, g, q);
    SquareFirst(a, e, g);
    Assembled(a * f, b * c, g * (1 - q), a * g, a * e, f * (1 + q), a * a, c * c, e * g,
              c * ((a * b) * f - (c * e) * g), 2 * (a * (f * g)));
  }

  lemma Combination(x: int, r: int, x': int, r': int, x'': int, r'': int, p: int)
    requires p > 0 && Cong(r, 0, p) && Cong(r', 0, p) && Cong(r'', 0, p)
    ensures Cong(x * r + x' * r' + x'' * r'', 0, p)
  {
    CongZeroMul(x, r, p);
    CongZeroMul(x', r', p);
    CongZeroMul(x'', r'', p);
    CongAdd(x * r, 0, x' * r', 0, p);
    CongAdd(x * r + x' * r', 0, x'' * r'', 0, p);
  }

  lemma Collected(a: int, c: int, e: int, f: int, q: int, h: int, k: int, t: int, xx: int, w: int, fg: int)
    ensures 2 * (a * (c * e - h * fg)) + c * (2 * (f * (1 - q * (h * k) + q * t)) + h * w)
         == (2 * c) * (a * e + f * (1 + q)) + (2 * (c * (f * q))) * (t - 1 - h * k - 2 * xx)
          + 4 * ((c * (f * q)) * xx) + h * (c * w - 2 * (a * fg))
  {
  }

  /** Twice the coefficient of y2, on the curve: h = d x2 y2. */
  lemma Coefficient(a: int, b: int, c: int, e: int, f: int, g: int, q: int, h: int, k: int, t: int, xx: int, p: int)
    requires p > 0 && Cong(a * e + f * (1 + q), 0, p) && Cong(b * c - g * (1 - q), 0, p)
    requires Cong(t - 1 - h * k - 2 * xx, 0, p)
    ensures Cong(2 * (a * (c * e - h * (f * g)))
                 + c * (2 * (f * (1 - q * (h * k) + q * t)) + h * ((a * b) * f - (c * e) * g)),
                 4 * ((c * (f * q)) * xx) + h * ((a * a - c * c) * (e * g)), p)
  {
    var w := (a * b) * f - (c * e) * g;
    var r, r', r'' := a * e + f * (1 + q), b * c - g * (1 - q), t - 1 - h * k - 2 * xx;
    Collected(a, c, e, f, q, h, k, t, xx, w, f * g);
    Leftover(a, b, c, e, f, g, q);
    Redistributed(h, a * f, r', a * g, r, (a * a - c * c) * (e * g), 2 * c);
    Combination(2 * c - h * (a * g), r, h * (a * f), r', 2 * (c * (f * q)), r'', p);
    CongAdd((2 * c - h * (a * g)) * r + (h * (a * f)) * r' + (2 * (c * (f * q))) * r'', 0,
            4 * ((c * (f * q)) * xx) + h * ((a * a - c * c) * (e * g)),
            4 * ((c * (f * q)) * xx) + h * ((a * a - c * c) * (e * g)), p);
  }

  lemma Redistributed(h: int, x: int, r': int, y: int, r: int, z: int, u: int)
    ensures u * r + h * (x * r' - y * r + z) == (u - h * y) * r + (h * x) * r' + h * z
  {
  }

  lemma Mirrored(a: int, b: int, c: int, e: int, f: int, g: int, q: int, h: int, k: int, t: int, yy: int)
    ensures b * c + (-g) * (1 + -q) == b * c - g * (1 - q) && a * e - (-f) * (1 - -q) == a * e + f * (1 + q)
    ensures -t - 1 - h * k - 2 * -yy == -(t + 1 + h * k - 2 * yy)
    ensures 2 * (b * (e * c - h * ((-g) * (-f))))
            + e * (2 * ((-g) * (1 - (-q) * (h * k) + (-q) * (-t))) + h * ((b * a) * (-g) - (e * c) * (-f)))
         == 2 * (b * (c * e - h * (f * g)))
            + e * (2 * ((-g) * (1 + q * (h * k) + q * t)) + h * ((c * e) * f - (a * b) * g))
    ensures 4 * ((e * ((-g) * (-q))) * (-yy)) + h * ((b * b - e * e) * (c * (-f)))
         == -4 * ((e * (g * q)) * yy) - h * ((b * b - e * e) * (c * f))
  {
    assert (b * a) * (-g) - (e * c) * (-f) == (c * e) * f - (a * b) * g;
    assert (-q) * (h * k) == -(q * (h * k)) && (-q) * (-t) == q * t && (-g) * (-f) == f * g && e * c == c * e;
    assert (e * ((-g) * (-q))) * (-yy) == -((e * (g * q)) * yy);
    assert h * ((b * b - e * e) * (c * (-f))) == -(h * ((b * b - e * e) * (c * f)));
  }

  /** Twice the coefficient of x2, by the symmetry that exchanges a with b and c with e. */
  lemma OtherCoefficient(a: int, b: int, c: int, e: int, f: int, g: int, q: int, h: int, k: int, t: int, yy: int,
                         p: int)
    requires p > 0 && Cong(a * e + f * (1 + q), 0, p) && Cong(b * c - g * (1 - q), 0, p)
    requires Cong(t + 1 + h * k - 2 * yy, 0, p)
    ensures Cong(2 * (b * (c * e - h * (f * g)))
                 + e * (2 * ((-g) * (1 + q * (h * k) + q * t)) + h * ((c * e) * f - (a * b) * g)),
                 -4 * ((e * (g * q)) * yy) - h * ((b * b - e * e) * (c * f)), p)
  {
    CongSub(0, 0, t + 1 + h * k - 2 * yy, 0, p);
    Mirrored(a, b, c, e, f, g, q, h, k, t, yy);
    Coefficient(b, a, e, c, -g, -f, -q, h, k, -t, -yy, p);
  }

  lemma CrossTerms(s: int, u: int, v: int, h: int, m: int, n: int, l: int, r: int, w: int)
    requires r - l == h * w
    ensures (s + (h * m) * u) * r - (s + (h * n) * v) * l == h * (s * w + u * (m * r) - v * (n * l))
  {
    assert s * r - s * l == s * (h * w);
    assert ((h * m) * u) * r == h * (u * (m * r)) && ((h * n) * v) * l == h * (v * (n * l));
  }

  lemma ByMiddle(x: int, y: int, a: int, b: int, c: int, e: int, w: int, r: int, l: int)
    ensures (y * a + x * b) * w + (y * c + x * e) * r - (x * e - y * c) * l
         == y * (a * w + c * (r + l)) + x * (b * w + e * (r - l))
  {
  }

  /** N D' - N' D, where D' - D = h w. */
  lemma Difference(x: int, y: int, a: int, b: int, c: int, e: int, h: int, m: int, n: int, l: int, r: int, w: int)
    requires r - l == h * w
    ensures ((y * a + x * b) + (h * m) * (y * c + x * e)) * r - ((y * a + x * b) + (h * n) * (x * e - y * c)) * l
         == h * (y * (a * w + c * (m * r + n * l)) + x * (b * w + e * (m * r - n * l)))
  {
    CrossTerms(y * a + x * b, y * c + x * e, x * e - y * c, h, m, n, l, r, w);
    ByMiddle(x, y, a, b, c, e, w, m * r, n * l);
  }

  // The denominators l = 1 - (h m)^2 + q t + h n t1 and r = 1 - (h n)^2 + q t + h m t3.
  lemma DenominatorsDiffer(h: int, m: int, n: int, q: int, t: int, tm: int, tn: int)
    ensures (1 - (h * n) * (h * n) + q * t + h * tm) - (1 - (h * m) * (h * m) + q * t + h * tn)
         == h * ((tm - tn) - h * ((m + n) * (n - m)))
  {
    assert (m + n) * (n - m) == n * n - m * m;
    assert h * (h * (n * n - m * m)) == (h * n) * (h * n) - (h * m) * (h * m);
  }

  lemma DenominatorsScaled(h: int, m: int, n: int, q: int, k: int, t: int, tm: int, tn: int)
    requires h * (m * n) == q * k
    ensures var l, r := 1 - (h * m) * (h * m) + q * t + h * tn, 1 - (h * n) * (h * n) + q * t + h * tm;
      && 2 * (m * r + n * l)
         == 2 * ((m + n) * (1 - q * (h * k) + q * t)) + h * ((tm + tn) * (m + n) - (tm - tn) * (n - m))
      && 2 * (m * r - n * l)
         == 2 * ((-(n - m)) * (1 + q * (h * k) + q * t)) + h * ((tm - tn) * (m + n) - (tm + tn) * (n - m))
  {
    var z := q * (h * k);
    assert m * ((h * n) * (h * n)) == z * n && n * ((h * m) * (h * m)) == z * m by {
      CommonFactor(h, m, n, q, k);
    }
    ScaledTerms(m, n, z, q * t, h, tm, tn, (h * n) * (h * n), (h * m) * (h * m));
  }

  lemma CommonFactor(h: int, m: int, n: int, q: int, k: int)
    requires h * (m * n) == q * k
    ensures m * ((h * n) * (h * n)) == (q * (h * k)) * n && n * ((h * m) * (h * m)) == (q * (h * k)) * m
  {
    assert m * ((h * n) * (h * n)) == (h * (m * n)) * (h * n);
    assert n * ((h * m) * (h * m)) == (h * (m * n)) * (h * m);
    assert (q * k) * (h * n) == (q * (h * k)) * n && (q * k) * (h * m) == (q * (h * k)) * m;
  }

  lemma ScaledTerms(m: int, n: int, z: int, qt: int, h: int, tm: int, tn: int, nn: int, mm: int)
    requires m * nn == z * n && n * mm == z * m
    ensures 2 * (m * (1 - nn + qt + h * tm) + n * (1 - mm + qt + h * tn))
         == 2 * ((m + n) * (1 - z + qt)) + h * ((tm + tn) * (m + n) - (tm - tn) * (n - m))
    ensures 2 * (m * (1 - nn + qt + h * tm) - n * (1 - mm + qt + h * tn))
         == 2 * ((-(n - m)) * (1 + z + qt)) + h * ((tm - tn) * (m + n) - (tm + tn) * (n - m))
  {
  }

  /** What is left of the two coefficients cancels. */
  lemma CoefficientsCancel(x: int, y: int, k: int, q: int, h: int, mn: int, cf: int, eg: int)
    requires k == x * y && h * mn == q * k
    ensures y * (4 * ((cf * q) * (x * x)) + h * ((4 * mn) * eg))
          + x * (-4 * ((eg * q) * (y * y)) - h * ((4 * mn) * cf)) == 0
  {
    assert h * ((4 * mn) * eg) == 4 * ((q * k) * eg) && h * ((4 * mn) * cf) == 4 * ((q * k) * cf);
    assert y * ((cf * q) * (x * x)) == x * ((q * k) * cf);
    assert x * ((eg * q) * (y * y)) == y * ((q * k) * eg);
  }

  lemma CurveEquation(a: Point, d: int, p: int)
    requires p > 0 && OnCurve(a, d, p)
    ensures Cong(a.y * a.y - a.x * a.x - 1 - d * ((a.x * a.y) * (a.x * a.y)), 0, p)
  {
    Regroup(a.x, a.y, a.x, a.y);
    CongDiff(a.y * a.y - a.x * a.x, 1 + d * ((a.x * a.x) * (a.y * a.y)), p);
  }

  lemma OuterTerms(m: int, n: int, s: int, s': int, d: int)
    ensures (-(m * s') - n * s) + (m + n) * (1 + d * (m * n))
         == (-m) * (s' - 1 - d * (n * n)) + (-n) * (s - 1 - d * (m * m))
    ensures (n * s - m * s') - (n - m) * (1 - d * (m * n))
         == (-m) * (s' - 1 - d * (n * n)) + n * (s - 1 - d * (m * m))
  {
  }

  /** What the curve equations of the outer points say of the products. */
  lemma OuterRelations(a: Point, c: Point, d: int, p: int)
    requires p > 0 && OnCurve(a, d, p) && OnCurve(c, d, p)
    ensures var m, n := a.x * a.y, c.x * c.y;
      && Cong((a.x * c.y + a.y * c.x) * (a.x * c.x - a.y * c.y) + (m + n) * (1 + d * (m * n)), 0, p)
      && Cong((a.y * c.y + a.x * c.x) * (a.y * c.x - a.x * c.y) - (n - m) * (1 - d * (m * n)), 0, p)
  {
    var m, n := a.x * a.y, c.x * c.y;
    CurveEquation(a, d, p);
    CurveEquation(c, d, p);
    OuterMixed(a.x, a.y, c.x, c.y);
    OuterTerms(m, n, a.y * a.y - a.x * a.x, c.y * c.y - c.x * c.x, d);
    var r, r' := a.y * a.y - a.x * a.x - 1 - d * (m * m), c.y * c.y - c.x * c.x - 1 - d * (n * n);
    Combination(-m, r', -n, r, 0, 0, p);
    Combination(-m, r', n, r, 0, 0, p);
  }

  lemma SignedSum(a: int, b: int, i: int, x: int, y: int)
    ensures (a * (1 - i)) * y + (b * (1 + i)) * x == a * y + b * x + i * (b * x - a * y)
  {
  }

  lemma ByMiddlePoint(x1: int, y1: int, x2: int, y2: int, x3: int, y3: int)
    ensures (x1 * y2 + y1 * x2) * y3 + (y1 * y2 + x1 * x2) * x3
         == y2 * (x1 * y3 + y1 * x3) + x2 * (y1 * y3 + x1 * x3)
    ensures (y1 * y2 + x1 * x2) * x3 - (x1 * y2 + y1 * x2) * y3
         == y2 * (y1 * x3 - x1 * y3) + x2 * (x1 * x3 - y1 * y3)
  {
  }

  /** The abscissa's numerator when the sum of points 1 and 2 is added to point 3, cleared of denominators. */
  function Numerator(a: Point, b: Point, c: Point, d: int): int {
    ((a.x * b.y + a.y * b.x) * (1 - Cross(a, b, d))) * c.y + ((a.y * b.y + a.x * b.x) * (1 + Cross(a, b, d))) * c.x
  }

  function Denominator(a: Point, b: Point, c: Point, d: int): int {
    (1 + Cross(a, b, d)) * (1 - Cross(a, b, d))
    + d * (((a.x * b.y + a.y * b.x) * (a.y * b.y + a.x * b.x)) * (c.x * c.y))
  }

  lemma NumeratorByMiddle(a: Point, b: Point, c: Point, d: int)
    ensures var h, m := d * (b.x * b.y), a.x * a.y;
      Numerator(a, b, c, d) == (b.y * (a.x * c.y + a.y * c.x) + b.x * (a.y * c.y + a.x * c.x))
                               + (h * m) * (b.y * (a.y * c.x - a.x * c.y) + b.x * (a.x * c.x - a.y * c.y))
  {
    CrossOfProducts(a, b, d);
    SignedSum(a.x * b.y + a.y * b.x, a.y * b.y + a.x * b.x, Cross(a, b, d), c.x, c.y);
    ByMiddlePoint(a.x, a.y, b.x, b.y, c.x, c.y);
  }

  lemma CrossOfProducts(a: Point, b: Point, d: int)
    ensures Cross(a, b, d) == (d * (b.x * b.y)) * (a.x * a.y)
  {
  }

  lemma DenominatorTerms(i: int, d: int, k: int, m: int, n: int, t: int, t': int)
    ensures (1 + i) * (1 - i) + d * ((m * t + k * t') * n) == 1 - i * i + (d * (m * n)) * t + (d * k) * (n * t')
  {
  }

  lemma DenominatorByMiddle(a: Point, b: Point, c: Point, d: int)
    ensures var h, m, n := d * (b.x * b.y), a.x * a.y, c.x * c.y;
      Denominator(a, b, c, d) == 1 - (h * m) * (h * m) + (d * (m * n)) * (b.y * b.y + b.x * b.x)
                                 + h * (n * (a.y * a.y + a.x * a.x))
  {
    CrossOfProducts(a, b, d);
    OuterSums(a.x, a.y, b.x, b.y);
    DenominatorTerms(Cross(a, b, d), d, b.x * b.y, a.x * a.y, c.x * c.y, b.y * b.y + b.x * b.x, a.y * a.y + a.x * a.x);
  }

  lemma MirroredNumerator(a: Point, b: Point, c: Point, d: int)
    ensures var h, n := d * (b.x * b.y), c.x * c.y;
      Numerator(c, b, a, d) == (b.y * (a.x * c.y + a.y * c.x) + b.x * (a.y * c.y + a.x * c.x))
                               + (h * n) * (b.x * (a.x * c.x - a.y * c.y) - b.y * (a.y * c.x - a.x * c.y))
  {
    NumeratorByMiddle(c, b, a, d);
    assert c.x * a.y + c.y * a.x == a.x * c.y + a.y * c.x;
    assert c.y * a.y + c.x * a.x == a.y * c.y + a.x * c.x && c.x * a.x - c.y * a.y == a.x * c.x - a.y * c.y;
    assert b.y * (c.y * a.x - c.x * a.y) == -(b.y * (a.y * c.x - a.x * c.y));
  }

  /** N D' = N' D on the curve. */
  lemma Balanced(a: Point, b: Point, c: Point, d: int, p: int)
    requires PrimeModulus(p) && !Cong(2, 0, p)
    requires OnCurve(a, d, p) && OnCurve(b, d, p) && OnCurve(c, d, p)
    ensures Cong(Numerator(a, b, c, d) * Denominator(c, b, a, d), Numerator(c, b, a, d) * Denominator(a, b, c, d), p)
  {
    var k, m, n := b.x * b.y, a.x * a.y, c.x * c.y;
    var h, q, t := d * k, d * (m * n), b.y * b.y + b.x * b.x;
    NumeratorByMiddle(a, b, c, d);
    MirroredNumerator(a, b, c, d);
    DenominatorByMiddle(a, b, c, d);
    DenominatorByMiddle(c, b, a, d);
    assert n * m == m * n;
    BalancedTerms(a, b, c, d, h, m, n, q, t, Denominator(a, b, c, d), Denominator(c, b, a, d), p);
    CongDiff(Numerator(a, b, c, d) * Denominator(c, b, a, d), Numerator(c, b, a, d) * Denominator(a, b, c, d), p);
  }

  lemma MiddleRelations(b: Point, d: int, h: int, p: int)
    requires p > 0 && OnCurve(b, d, p) && h == d * (b.x * b.y)
    ensures var k, t := b.x * b.y, b.y * b.y + b.x * b.x;
      Cong(t - 1 - h * k - 2 * (b.x * b.x), 0, p) && Cong(t + 1 + h * k - 2 * (b.y * b.y), 0, p)
  {
    var k, t, s := b.x * b.y, b.y * b.y + b.x * b.x, b.y * b.y - b.x * b.x;
    CurveEquation(b, d, p);
    assert h * k == d * (k * k);
    assert t - 1 - h * k - 2 * (b.x * b.x) == s - 1 - d * (k * k);
    assert t + 1 + h * k - 2 * (b.y * b.y) == 0 - (s - 1 - d * (k * k));
    CongSub(0, 0, s - 1 - d * (k * k), 0, p);
  }

  lemma Doubled(x: int, y: int, a: int, b: int, c: int, e: int, w: int, u: int, v: int)
    ensures y * (2 * (a * w) + c * (2 * u)) + x * (2 * (b * w) + e * (2 * v))
         == 2 * (y * (a * w + c * u) + x * (b * w + e * v))
  {
  }

  lemma Targets(c: int, e: int, f: int, g: int, q: int, h: int, mn: int, xx: int, yy: int)
    ensures (c * (f * q)) * xx == ((c * f) * q) * xx && (e * (g * q)) * yy == ((e * g) * q) * yy
  {
  }

  /** y F + x G = 0 on the curve, where 2 u and 2 v are the denominators' scaled sum and difference. */
  lemma CoefficientsVanish(x: int, y: int, a: int, b: int, c: int, e: int, f: int, g: int, q: int, h: int, k: int,
                           t: int, mn: int, u: int, v: int, p: int)
    requires PrimeModulus(p) && !Cong(2, 0, p) && k == x * y && h * mn == q * k
    requires Cong(a * e + f * (1 + q), 0, p) && Cong(b * c - g * (1 - q), 0, p)
    requires Cong(t - 1 - h * k - 2 * (x * x), 0, p) && Cong(t + 1 + h * k - 2 * (y * y), 0, p)
    requires a * a - c * c == 4 * mn && b * b - e * e == 4 * mn
    requires 2 * u == 2 * (f * (1 - q * (h * k) + q * t)) + h * ((a * b) * f - (c * e) * g)
    requires 2 * v == 2 * ((-g) * (1 + q * (h * k) + q * t)) + h * ((c * e) * f - (a * b) * g)
    ensures var w := c * e - h * (f * g);
      Cong(y * (a * w + c * u) + x * (b * w + e * v), 0, p)
  {
    var w := c * e - h * (f * g);
    Coefficient(a, b, c, e, f, g, q, h, k, t, x * x, p);
    OtherCoefficient(a, b, c, e, f, g, q, h, k, t, y * y, p);
    var r, r' := 4 * ((c * (f * q)) * (x * x)) + h * ((4 * mn) * (e * g)),
                 -4 * ((e * (g * q)) * (y * y)) - h * ((4 * mn) * (c * f));
    assert Cong(2 * (a * w) + c * (2 * u), r, p) && Cong(2 * (b * w) + e * (2 * v), r', p);
    CongMul(y, y, 2 * (a * w) + c * (2 * u), r, p);
    CongMul(x, x, 2 * (b * w) + e * (2 * v), r', p);
    CongAdd(y * (2 * (a * w) + c * (2 * u)), y * r, x * (2 * (b * w) + e * (2 * v)), x * r', p);
    assert y * r + x * r' == 0 by {
      Targets(c, e, f, g, q, h, mn, x * x, y * y);
      CoefficientsCancel(x, y, k, q, h, mn, c * f, e * g);
    }
    Doubled(x, y, a, b, c, e, w, u, v);
    CongZeroFactor(2, y * (a * w + c * u) + x * (b * w + e * v), p);
  }

  lemma Swapped(d: int, k: int, mn: int)
    ensures (d * k) * mn == (d * mn) * k
  {
  }

  lemma BalancedTerms(a: Point, b: Point, c: Point, d: int, h: int, m: int, n: int, q: int, t: int,
                      l: int, r: int, p: int)
    requires PrimeModulus(p) && !Cong(2, 0, p)
    requires OnCurve(a, d, p) && OnCurve(b, d, p) && OnCurve(c, d, p)
    requires m == a.x * a.y && n == c.x * c.y && h == d * (b.x * b.y) && q == d * (m * n)
    requires t == b.y * b.y + b.x * b.x
    requires l == 1 - (h * m) * (h * m) + q * t + h * (n * (a.y * a.y + a.x * a.x))
    requires r == 1 - (h * n) * (h * n) + q * t + h * (m * (c.y * c.y + c.x * c.x))
    ensures var alpha, beta := a.x * c.y + a.y * c.x, a.y * c.y + a.x * c.x;
      var gamma, delta := a.y * c.x - a.x * c.y, a.x * c.x - a.y * c.y;
      var s := b.y * alpha + b.x * beta;
      Cong((s + (h * m) * (b.y * gamma + b.x * delta)) * r - (s + (h * n) * (b.x * delta - b.y * gamma)) * l, 0, p)
  {
    var alpha, beta := a.x * c.y + a.y * c.x, a.y * c.y + a.x * c.x;
    var gamma, delta := a.y * c.x - a.x * c.y, a.x * c.x - a.y * c.y;
    var f, g, k := m + n, n - m, b.x * b.y;
    var w := gamma * delta - h * (f * g);
    OuterSums(a.x, a.y, c.x, c.y);
    OuterDifferences(a.x, a.y, c.x, c.y);
    var tm, tn := m * (c.y * c.y + c.x * c.x), n * (a.y * a.y + a.x * a.x);
    DenominatorsDiffer(h, m, n, q, t, tm, tn);
    Difference(b.x, b.y, alpha, beta, gamma, delta, h, m, n, l, r, w);
    assert h * (m * n) == q * k by { Swapped(d, k, m * n); }
    DenominatorsScaled(h, m, n, q, k, t, tm, tn);
    OuterRelations(a, c, d, p);
    MiddleRelations(b, d, h, p);
    OuterSquares(a.x, a.y, c.x, c.y);
    CoefficientsVanish(b.x, b.y, alpha, beta, gamma, delta, f, g, q, h, k, t, m * n, m * r + n * l, m * r - n * l, p);
    CongZeroMul(h, b.y * (alpha * w + gamma * (m * r + n * l)) + b.x * (beta * w + delta * (m * r - n * l)), p);
  }

  lemma ClearedTerms(ux: int, uy: int, i: int, x: int, y: int, d: int)
    ensures ((1 + i) * (1 - i)) * (ux * y + uy * x) == ((ux * (1 + i)) * (1 - i)) * y + ((uy * (1 - i)) * (1 + i)) * x
    ensures ((1 + i) * (1 - i)) * (1 + d * ((ux * x) * (uy * y)))
         == (1 + i) * (1 - i) + d * (((ux * (1 + i)) * (uy * (1 - i))) * (x * y))
  {
    var z := (1 + i) * (1 - i);
    assert z * (ux * y) == ((ux * (1 + i)) * (1 - i)) * y && z * (uy * x) == ((uy * (1 - i)) * (1 + i)) * x;
    ScaledCross(ux, uy, 1 + i, 1 - i, x, y, d);
  }

  lemma ScaledCross(ux: int, uy: int, z: int, z': int, x: int, y: int, d: int)
    ensures (z * z') * (1 + d * ((ux * x) * (uy * y))) == z * z' + d * (((ux * z) * (uy * z')) * (x * y))
  {
    assert (z * z') * (d * ((ux * x) * (uy * y))) == d * (((ux * z) * (uy * z')) * (x * y));
  }

  lemma ReplaceNumerator(x: int, x': int, y: int, y': int, w: int, w': int, cx: int, cy: int, p: int)
    requires p > 0 && Cong(x, x', p) && Cong(y, y', p)
    ensures Cong((x * w) * cy + (y * w') * cx, (x' * w) * cy + (y' * w') * cx, p)
  {
    CongMul(x, x', w, w, p);
    CongMul(x * w, x' * w, cy, cy, p);
    CongMul(y, y', w', w', p);
    CongMul(y * w', y' * w', cx, cx, p);
    CongAdd((x * w) * cy, (x' * w) * cy, (y * w') * cx, (y' * w') * cx, p);
  }

  lemma ReplaceDenominator(x: int, x': int, y: int, y': int, z: int, d: int, n: int, p: int)
    requires p > 0 && Cong(x, x', p) && Cong(y, y', p)
    ensures Cong(z + d * ((x * y) * n), z + d * ((x' * y') * n), p)
  {
    CongMul(x, x', y, y', p);
    CongMul(x * y, x' * y', n, n, p);
    CongMul(d, d, (x * y) * n, (x' * y') * n, p);
    CongAdd(z, z, d * ((x * y) * n), d * ((x' * y') * n), p);
  }

  lemma ScaledQuotient(s: int, e: int, n: int, z: int, l: int, n': int, p: int)
    requires p > 0 && Cong(s * e, n, p) && Cong(z * e, l, p) && Cong(z * n, n', p)
    ensures Cong(s * l, n', p)
  {
    CongMul(z, z, s * e, n, p);
    assert z * (s * e) == s * (z * e);
    CongMul(s, s, z * e, l, p);
  }

  /** The abscissa of a + b + c, cleared of denominators. */
  lemma Cleared(a: Point, b: Point, c: Point, u: Point, s: Point, d: int, p: int)
    requires PrimeModulus(p) && IsSum(a, b, u, d, p) && IsSum(u, c, s, d, p)
    ensures Cong(s.x * Denominator(a, b, c, d), Numerator(a, b, c, d), p)
    ensures !Cong(Denominator(a, b, c, d), 0, p)
  {
    var i, e := Cross(a, b, d), 1 + Cross(u, c, d);
    var ax, ay := a.x * b.y + a.y * b.x, a.y * b.y + a.x * b.x;
    ClearedTerms(u.x, u.y, i, c.x, c.y, d);
    ReplaceDenominator(u.x * (1 + i), ax, u.y * (1 - i), ay, (1 + i) * (1 - i), d, c.x * c.y, p);
    ReplaceNumerator(u.x * (1 + i), ax, u.y * (1 - i), ay, 1 - i, 1 + i, c.x, c.y, p);
    ScaledQuotient(s.x, e, u.x * c.y + u.y * c.x, (1 + i) * (1 - i),
                   Denominator(a, b, c, d), Numerator(a, b, c, d), p);
    CongNonzeroMul(1 + i, 1 - i, p);
    CongNonzeroMul((1 + i) * (1 - i), e, p);
  }

  lemma SameQuotient(x: int, n: int, l: int, x': int, n': int, l': int, p: int)
    requires PrimeModulus(p) && !Cong(l, 0, p) && !Cong(l', 0, p)
    requires Cong(x * l, n, p) && Cong(x' * l', n', p) && Cong(n * l', n' * l, p)
    ensures Cong(x, x', p)
  {
    CongMul(x * l, n, l', l', p);
    CongMul(x' * l', n', l, l, p);
    assert (x * l) * l' == (l * l') * x && (x' * l') * l == (l * l') * x';
    CongNonzeroMul(l, l', p);
    CongCancel(l * l', x, x', p);
  }

  /** (a + b) + c and a + (b + c) have the same abscissa. */
  lemma SameAbscissa(a: Point, b: Point, c: Point, u: Point, v: Point, s: Point, s': Point, d: int, p: int)
    requires PrimeModulus(p) && !Cong(2, 0, p)
    requires OnCurve(a, d, p) && OnCurve(b, d, p) && OnCurve(c, d, p)
    requires IsSum(a, b, u, d, p) && IsSum(u, c, s, d, p) && IsSum(b, c, v, d, p) && IsSum(a, v, s', d, p)
    ensures Cong(s.x, s'.x, p)
  {
    Cleared(a, b, c, u, s, d, p);
    SumSymmetric(b, c, v, d, p);
    SumSymmetric(a, v, s', d, p);
    Cleared(c, b, a, v, s', d, p);
    Balanced(a, b, c, d, p);
    SameQuotient(s.x, Numerator(a, b, c, d), Denominator(a, b, c, d),
                 s'.x, Numerator(c, b, a, d), Denominator(c, b, a, d), p);
  }

  /** The sum of a and (i, 0), where i is a root of -1. */
  function Turned(a: Point, i: int): Point {
    Point(i * a.y, i * a.x)
  }

  lemma TurnedTerms(x1: int, y1: int, x2: int, y2: int, i: int)
    ensures (x1 * (i * y2)) * (y1 * (i * x2)) == (i * i) * ((x1 * x2) * (y1 * y2))
    ensures x1 * (i * x2) + y1 * (i * y2) == i * (y1 * y2 + x1 * x2)
    ensures y1 * (i * x2) + x1 * (i * y2) == i * (x1 * y2 + y1 * x2)
  {
  }

  lemma TurnedCross(a: Point, b: Point, d: int, i: int, p: int)
    requires p > 0 && Cong(i * i, -1, p)
    ensures Cong(Cross(a, Turned(b, i), d), -Cross(a, b, d), p)
  {
    var z := (a.x * b.x) * (a.y * b.y);
    TurnedTerms(a.x, a.y, b.x, b.y, i);
    CongMul(i * i, -1, z, z, p);
    CongMul(d, d, (i * i) * z, -z, p);
    assert d * (-z) == -(d * z);
  }

  lemma TurnedSum(a: Point, b: Point, c: Point, d: int, i: int, p: int)
    requires p > 0 && Cong(i * i, -1, p) && IsSum(a, b, c, d, p)
    ensures IsSum(a, Turned(b, i), Turned(c, i), d, p)
  {
    var e, e' := Cross(a, b, d), Cross(a, Turned(b, i), d);
    TurnedCross(a, b, d, i, p);
    CongAdd(1, 1, e', -e, p);
    CongSub(1, 1, e', -e, p);
    TurnedTerms(a.x, a.y, b.x, b.y, i);
    TurnedCoordinate(c.y, 1 - e, 1 + e', a.y * b.y + a.x * b.x, i, p);
    TurnedCoordinate(c.x, 1 + e, 1 - e', a.x * b.y + a.y * b.x, i, p);
  }

  lemma TurnedCoordinate(x: int, z: int, z': int, n: int, i: int, p: int)
    requires p > 0 && Cong(x * z, n, p) && Cong(z', z, p)
    ensures Cong((i * x) * z', i * n, p)
  {
    CongMul(i * x, i * x, z', z, p);
    CongMul(i, i, x * z, n, p);
    assert (i * x) * z == i * (x * z);
  }

  lemma TurnedOnCurve(a: Point, d: int, i: int, p: int)
    requires p > 0 && Cong(i * i, -1, p) && OnCurve(a, d, p)
    ensures OnCurve(Turned(a, i), d, p)
  {
    var xx, yy := a.x * a.x, a.y * a.y;
    Regroup(i, a.x, i, a.x);
    Regroup(i, a.y, i, a.y);
    CongMul(i * i, -1, xx, xx, p);
    CongMul(i * i, -1, yy, yy, p);
    CongSub((i * i) * xx, -xx, (i * i) * yy, -yy, p);
    CongMul((i * i) * yy, -yy, (i * i) * xx, -xx, p);
    assert (-yy) * (-xx) == xx * yy;
    CongMul(d, d, ((i * i) * yy) * ((i * i) * xx), xx * yy, p);
    CongAdd(1, 1, d * (((i * i) * yy) * ((i * i) * xx)), d * (xx * yy), p);
  }

  /** The sums (a + b) + c and a + (b + c) are congruent. */
  lemma Associates(a: Point, b: Point, c: Point, u: Point, v: Point, s: Point, s': Point, d: int, i: int, p: int)
    requires PrimeModulus(p) && !Cong(2, 0, p) && Cong(i * i, -1, p)
    requires OnCurve(a, d, p) && OnCurve(b, d, p) && OnCurve(c, d, p)
    requires IsSum(a, b, u, d, p) && IsSum(u, c, s, d, p) && IsSum(b, c, v, d, p) && IsSum(a, v, s', d, p)
    ensures Cong(s.x, s'.x, p) && Cong(s.y, s'.y, p)
  {
    SameAbscissa(a, b, c, u, v, s, s', d, p);
    TurnedOnCurve(c, d, i, p);
    TurnedSum(u, c, s, d, i, p);
    TurnedSum(b, c, v, d, i, p);
    TurnedSum(a, v, s', d, i, p);
    SameAbscissa(a, b, Turned(c, i), u, Turned(v, i), Turned(s, i), Turned(s', i), d, p);
    if Cong(i, 0, p) {
      CongZeroMul(i, i, p);
      DivModUnique(0, 0, 0, p);
      DivModUnique(-1, -1, p - 1, p);
    }
    CongCancel(i, s.y, s'.y, p);
  }
}
