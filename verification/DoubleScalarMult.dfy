/** a A + b B by one run of doublings over two sparse recodings (edwards25519.go:899-948). */
module DoubleScalarMult {
  import opened MachineInt
  import opened Bytes
  import opened AbelianGroup
  import opened CurveGroup
  import opened GroupElement
  import opened Recoding

  /** m a + n b */
  function Combo<T>(g: Group<T>, m: int, n: int, a: T, b: T): T {
    g.add(Mul(g, m, a), Mul(g, n, b))
  }

  lemma ComboZero<T(!new)>(g: Group<T>, a: T, b: T)
    requires Abelian(g)
    ensures Combo(g, 0, 0, a, b) == g.zero
  {
    MulOne(g, a);
    MulOne(g, b);
    Unit(g, g.zero);
  }

  lemma ComboAdd<T(!new)>(g: Group<T>, m: int, n: int, m': int, n': int, a: T, b: T)
    requires Abelian(g)
    ensures g.add(Combo(g, m, n, a, b), Combo(g, m', n', a, b)) == Combo(g, m + m', n + n', a, b)
  {
    MulAdd(g, m, m', a);
    MulAdd(g, n, n', b);
    Interchange(g, Mul(g, m, a), Mul(g, n, b), Mul(g, m', a), Mul(g, n', b));
  }

  /** One round: double, add x a, add y b. */
  function Round<T>(g: Group<T>, q: T, x: int, y: int, a: T, b: T): T {
    g.add(g.add(g.add(q, q), Mul(g, x, a)), Mul(g, y, b))
  }

  lemma RoundOfCombo<T(!new)>(g: Group<T>, m: int, n: int, x: int, y: int, a: T, b: T)
    requires Abelian(g)
    ensures Round(g, Combo(g, m, n, a, b), x, y, a, b) == Combo(g, x + 2 * m, y + 2 * n, a, b)
  {
    var p, q := 2 * m, 2 * n;
    ComboAdd(g, m, n, m, n, a, b);
    assert g.add(Combo(g, m, n, a, b), Combo(g, m, n, a, b)) == Combo(g, p, q, a, b);
    ComboAdd(g, p, q, x, y, a, b);
    Assoc(g, Combo(g, p, q, a, b), Mul(g, x, a), Mul(g, y, b));
  }

  /** The odd multiple in place k of a table. */
  function Odd<T>(g: Group<T>, k: int, a: T): T {
    Mul(g, 2 * k + 1, a)
  }

  lemma NextOdd<T(!new)>(g: Group<T>, k: int, a: T)
    requires Abelian(g)
    ensures g.add(Mul(g, 2, a), Odd(g, k, a)) == Odd(g, k + 1, a)
    ensures Odd(g, 0, a) == a && g.add(a, a) == Mul(g, 2, a)
  {
    MulAdd(g, 2, 2 * k + 1, a);
    MulOne(g, a);
  }

  /** A digit is the odd multiple its half selects, up to sign. */
  lemma DigitIsOdd<T(!new)>(g: Group<T>, d: int, a: T)
    requires Abelian(g) && d % 2 == 1
    ensures d > 0 ==> Odd(g, d / 2, a) == Mul(g, d, a)
    ensures d < 0 ==> g.neg(Odd(g, (-d) / 2, a)) == Mul(g, d, a)
  {
    MulNeg(g, d, a);
    if d < 0 {
      NegNeg(g, Mul(g, d, a));
    }
  }

  ghost predicate CachedOdds(table: seq<CachedGroupElement>, n: nat, g: Group<CurvePoint>, a: CurvePoint)
    requires n <= |table|
    reads table
  {
    forall k :: 0 <= k < n ==> table[k].Rep(Odd(g, k, a))
  }

  /** bi[j] = (2j + 1) B */
  ghost predicate BaseOdds(bi: seq<PreComputedGroupElement>, g: Group<CurvePoint>, b: CurvePoint)
    reads bi
  {
    |bi| == 8 && forall k :: 0 <= k < 8 ==> bi[k].Rep(Odd(g, k, b))
  }

  ghost predicate Distinct(s: seq<CachedGroupElement>) {
    forall i, j :: 0 <= i < j < |s| ==> s[i] != s[j]
  }

  method NextEntry(A2: ExtendedGroupElement, Ai: seq<CachedGroupElement>, i: nat, t: CompletedGroupElement,
                   u: ExtendedGroupElement, ghost g: Group<CurvePoint>, ghost a: CurvePoint)
    requires CurveLaw(g) && i + 1 < |Ai| && Distinct(Ai) && u != A2
    requires CachedOdds(Ai, i + 1, g, a) && A2.Rep(Mul(g, 2, a))
    modifies t, u, Ai[i + 1]
    ensures CachedOdds(Ai, i + 2, g, a)
  {
    GeAdd(t, A2, Ai[i], g, Mul(g, 2, a), Odd(g, i, a));
    NextOdd(g, i, a);
    t.ToExtended(u, Odd(g, i + 1, a));
    u.ToCached(Ai[i + 1], Odd(g, i + 1, a));
    assert forall k :: 0 <= k <= i ==> Ai[k] != Ai[i + 1];
  }

  method NewTable() returns (Ai: seq<CachedGroupElement>)
    ensures |Ai| == 8 && fresh(Ai) && Distinct(Ai)
  {
    Ai := [];
    for i := 0 to 8
      invariant |Ai| == i && fresh(Ai) && Distinct(Ai)
    {
      var c := new CachedGroupElement();
      Ai := Ai + [c];
    }
  }

  /** A, 3A, 5A, ..., 15A */
  method FillTable(A: ExtendedGroupElement, Ai: seq<CachedGroupElement>, ghost g: Group<CurvePoint>,
      ghost a: CurvePoint)
    requires CurveLaw(g) && A.Rep(a) && |Ai| == 8 && Distinct(Ai)
    modifies Ai
    ensures CachedOdds(Ai, 8, g, a)
  {
    var t := new CompletedGroupElement();
    var u := new ExtendedGroupElement();
    var A2 := new ExtendedGroupElement();
    NextOdd(g, 0, a);
    A.ToCached(Ai[0], a);
    A.Double(t, g, a);
    t.ToExtended(A2, Mul(g, 2, a));
    for i := 0 to 7
      invariant fresh(A2) && fresh(t) && fresh(u)
      invariant CachedOdds(Ai, i + 1, g, a)
      invariant A2.Rep(Mul(g, 2, a))
    {
      NextEntry(A2, Ai, i, t, u, g, a);
    }
  }

  /** t := t + d A, for a sparse digit d. */
  method AddDigit(t: CompletedGroupElement, u: ExtendedGroupElement, Ai: seq<CachedGroupElement>, d: int8,
                  ghost g: Group<CurvePoint>, ghost q: CurvePoint, ghost a: CurvePoint)
    requires CurveLaw(g) && |Ai| == 8 && CachedOdds(Ai, 8, g, a) && IsSlideDigit(d) && t.Rep(q)
    modifies t, u
    ensures t.Rep(g.add(q, Mul(g, d, a)))
  {
    if d > 0 {
      DigitIsOdd(g, d, a);
      t.ToExtended(u, q);
      GeAdd(t, u, Ai[d / 2], g, q, Odd(g, d / 2, a));
    } else if d < 0 {
      DigitIsOdd(g, d, a);
      t.ToExtended(u, q);
      GeSub(t, u, Ai[(-d) / 2], g, q, Odd(g, (-d) / 2, a));
    } else {
      MulOne(g, a);
      Unit(g, q);
    }
  }

  /** t := t + d B, from the fixed table. */
  method AddBaseDigit(t: CompletedGroupElement, u: ExtendedGroupElement, bi: seq<PreComputedGroupElement>, d: int8,
                      ghost g: Group<CurvePoint>, ghost q: CurvePoint, ghost b: CurvePoint)
    requires CurveLaw(g) && BaseOdds(bi, g, b) && IsSlideDigit(d) && t.Rep(q)
    modifies t, u
    ensures t.Rep(g.add(q, Mul(g, d, b)))
  {
    if d > 0 {
      DigitIsOdd(g, d, b);
      t.ToExtended(u, q);
      GeMixedAdd(t, u, bi[d / 2], g, q, Odd(g, d / 2, b));
    } else if d < 0 {
      DigitIsOdd(g, d, b);
      t.ToExtended(u, q);
      GeMixedSub(t, u, bi[(-d) / 2], g, q, Odd(g, (-d) / 2, b));
    } else {
      MulOne(g, b);
      Unit(g, q);
    }
  }

  /** r := r + r + x A + y B */
  method DoubleAndAdd(r: ProjectiveGroupElement, t: CompletedGroupElement, u: ExtendedGroupElement,
                      Ai: seq<CachedGroupElement>, bi: seq<PreComputedGroupElement>, x: int8, y: int8,
                      ghost g: Group<CurvePoint>, ghost q: CurvePoint, ghost a: CurvePoint, ghost b: CurvePoint)
    requires CurveLaw(g) && |Ai| == 8 && CachedOdds(Ai, 8, g, a) && BaseOdds(bi, g, b)
    requires IsSlideDigit(x) && IsSlideDigit(y) && r.Rep(q)
    modifies r, t, u
    ensures r.Rep(Round(g, q, x, y, a, b))
  {
    r.Double(t, g, q);
    AddDigit(t, u, Ai, x, g, g.add(q, q), a);
    AddBaseDigit(t, u, bi, y, g, g.add(g.add(q, q), Mul(g, x, a)), b);
    t.ToProjective(r, Round(g, q, x, y, a, b));
  }

  lemma TailStep(s: seq<int>, i: nat)
    requires i < |s|
    ensures Tail(s, i, 1) == s[i] + 2 * Tail(s, i + 1, 1)
  {
    Pow2Values();
  }

  /** The first nonzero digit of either recoding, or -1. */
  method FirstDigit(aSlide: array<int8>, bSlide: array<int8>) returns (i: int)
    requires aSlide.Length == bSlide.Length == 256
    ensures -1 <= i <= 255
    ensures Tail(Ints(aSlide[..]), i + 1, 1) == Tail(Ints(bSlide[..]), i + 1, 1) == 0
  {
    ghost var x, y := Ints(aSlide[..]), Ints(bSlide[..]);
    i := 255;
    while i >= 0
      invariant -1 <= i <= 255
      invariant Tail(x, i + 1, 1) == Tail(y, i + 1, 1) == 0
    {
      if aSlide[i] != 0 || bSlide[i] != 0 {
        break;
      }
      TailStep(x, i);
      TailStep(y, i);
      i := i - 1;
    }
  }

  /** The main loop: after digit i, r is the combination of the digits from i up. */
  method SumDigits(r: ProjectiveGroupElement, aSlide: array<int8>, bSlide: array<int8>,
                   Ai: seq<CachedGroupElement>, bi: seq<PreComputedGroupElement>,
                   ghost g: Group<CurvePoint>, ghost a: CurvePoint, ghost b: CurvePoint)
    requires CurveLaw(g) && |Ai| == 8 && CachedOdds(Ai, 8, g, a) && BaseOdds(bi, g, b)
    requires Windowed(aSlide, 256) && Windowed(bSlide, 256)
    modifies r
    ensures r.Rep(Combo(g, Value(aSlide[..]), Value(bSlide[..]), a, b))
  {
    var t := new CompletedGroupElement();
    var u := new ExtendedGroupElement();
    r.Zero();
    ComboZero(g, a, b);
    var i := FirstDigit(aSlide, bSlide);
    ghost var x, y := Ints(aSlide[..]), Ints(bSlide[..]);
    ghost var q := NEUTRAL;
    while i >= 0
      invariant -1 <= i <= 255
      invariant q == Combo(g, Tail(x, i + 1, 1), Tail(y, i + 1, 1), a, b) && r.Rep(q)
      invariant CachedOdds(Ai, 8, g, a) && BaseOdds(bi, g, b)
    {
      DoubleAndAdd(r, t, u, Ai, bi, aSlide[i], bSlide[i], g, q, a, b);
      RoundOfDigits(g, x, y, i, a, b);
      q := Round(g, q, aSlide[i], bSlide[i], a, b);
      i := i - 1;
    }
  }

  lemma RoundOfDigits<T(!new)>(g: Group<T>, x: seq<int>, y: seq<int>, i: nat, a: T, b: T)
    requires Abelian(g) && i < |x| == |y|
    ensures Round(g, Combo(g, Tail(x, i + 1, 1), Tail(y, i + 1, 1), a, b), x[i], y[i], a, b)
         == Combo(g, Tail(x, i, 1), Tail(y, i, 1), a, b)
  {
    RoundOfCombo(g, Tail(x, i + 1, 1), Tail(y, i + 1, 1), x[i], y[i], a, b);
    TailStep(x, i);
    TailStep(y, i);
  }

  /** r := a A + b B, for the point the table `bi` was built from; a scalar whose recoding loses its
      carry counts as itself less 2^256. */
  method GeDoubleScalarMultVartime(r: ProjectiveGroupElement, a: Bytes32, A: ExtendedGroupElement, b: Bytes32,
                                   bi: seq<PreComputedGroupElement>,
                                   ghost g: Group<CurvePoint>, ghost q: CurvePoint, ghost base: CurvePoint)
    requires CurveLaw(g) && A.Rep(q) && BaseOdds(bi, g, base)
    modifies r
    ensures r.Rep(Combo(g, SlideValue(LeVal(a)), SlideValue(LeVal(b)), q, base))
    ensures a[31] <= 127 && b[31] <= 127 ==> r.Rep(g.add(Mul(g, LeVal(a), q), Mul(g, LeVal(b), base)))
  {
    var aSlide := new int8[256];
    var bSlide := new int8[256];
    Slide(aSlide, a);
    Slide(bSlide, b);
    ghost var x, y := aSlide[..], bSlide[..];
    assert Value(x) == SlideValue(LeVal(a)) && Value(y) == SlideValue(LeVal(b));
    assert a[31] <= 127 && b[31] <= 127 ==> Value(x) == LeVal(a) && Value(y) == LeVal(b);
    var Ai := NewTable();
    FillTable(A, Ai, g, q);
    assert aSlide[..] == x && bSlide[..] == y;
    SumDigits(r, aSlide, bSlide, Ai, bi, g, q, base);
  }
}
