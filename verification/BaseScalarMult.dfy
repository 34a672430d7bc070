/** Multiples of the base point from a table of its radix-256 multiples (edwards25519.go:61-73 and 950-1034). */
module BaseScalarMult {
  import opened MachineInt
  import opened Bytes
  import opened Powers
  import opened TwosComplement
  import opened FieldElement
  import opened AbelianGroup
  import opened CurveGroup
  import opened Coordinates
  import opened GroupElement
  import opened Recoding

  method FeCMove(f: Fe, g: Fe, b: int32) returns (r: Fe)
    requires b == 0 || b == 1
    ensures r == if b == 1 then g else f
  {
    r := Limbs(Select(f.0, g.0, b), Select(f.1, g.1, b), Select(f.2, g.2, b), Select(f.3, g.3, b), Select(f.4, g.4, b),
               Select(f.5, g.5, b), Select(f.6, g.6, b), Select(f.7, g.7, b), Select(f.8, g.8, b), Select(f.9, g.9, b));
  }

  method PreComputedGroupElementCMove(t: PreComputedGroupElement, u: PreComputedGroupElement, b: int32,
                                      ghost p: CurvePoint, ghost q: CurvePoint)
    requires b == 0 || b == 1
    requires t.Rep(p) && u.Rep(q) && t != u
    modifies t
    ensures t.Rep(if b == 1 then q else p)
  {
    t.yPlusX := FeCMove(t.yPlusX, u.yPlusX, b);
    t.yMinusX := FeCMove(t.yMinusX, u.yMinusX, b);
    t.xy2d := FeCMove(t.xy2d, u.xy2d, b);
  }

  ghost predicate BaseRow(row: seq<PreComputedGroupElement>, w: int, g: Group<CurvePoint>, b: CurvePoint)
    reads row
  {
    |row| == 8 && forall j :: 0 <= j < 8 ==> row[j].Rep(Mul(g, (j + 1) * w, b))
  }

  /** base[pos][j] = (j + 1) 256^pos B */
  ghost predicate BaseTable(base: seq<seq<PreComputedGroupElement>>, g: Group<CurvePoint>, b: CurvePoint)
    reads set pos, j | 0 <= pos < |base| && 0 <= j < |base[pos]| :: base[pos][j]
  {
    |base| == 32 && forall pos {:trigger Pick(pos)} :: Pick(pos) && 0 <= pos < 32 ==>
        BaseRow(base[pos], Pow2(8 * pos), g, b)
  }

  /** Names the row of the table to be looked at. */
  predicate Pick(pos: int) {
    true
  }

  ghost predicate Unused(t: PreComputedGroupElement, base: seq<seq<PreComputedGroupElement>>) {
    forall row :: row in base ==> t !in row
  }

  /** What the first i steps of the selection loop leave. */
  function Chosen<T>(g: Group<T>, m: int, i: int, w: int, b: T): T {
    if 1 <= m <= i then Mul(g, m * w, b) else g.zero
  }

  /** The loop over one row of the table: every entry is touched, the one with index m - 1 kept. */
  method SelectFromRow(t: PreComputedGroupElement, row: seq<PreComputedGroupElement>, m: int32,
                       ghost w: int, ghost g: Group<CurvePoint>, ghost b: CurvePoint)
    requires CurveLaw(g) && BaseRow(row, w, g, b) && 0 <= m && t !in row
    modifies t
    ensures t.Rep(Chosen(g, m, 8, w, b))
  {
    t.Zero();
    for i := 0 to 8
      invariant t.Rep(Chosen(g, m, i, w, b))
      invariant BaseRow(row, w, g, b)
    {
      PreComputedGroupElementCMove(t, row[i], Equal(m, i + 1), Chosen(g, m, i, w, b), Mul(g, (i + 1) * w, b));
    }
  }

  /** minus := -t */
  method Negated(t: PreComputedGroupElement, ghost g: Group<CurvePoint>, ghost q: CurvePoint)
    returns (minus: PreComputedGroupElement)
    requires CurveLaw(g) && t.Rep(q)
    ensures fresh(minus) && minus.Rep(g.neg(q))
  {
    assert Opened(0);
    var xy2d := FeNeg(t.xy2d, 1);
    LawNeg(g, q);
    ghost var n := g.neg(q);
    CachedNegated(Val(t.yPlusX), Val(t.yMinusX), 1, Val(t.xy2d), Val(xy2d), q, n);
    minus := new PreComputedGroupElement();
    minus.yPlusX, minus.yMinusX, minus.xy2d := t.yMinusX, t.yPlusX, xy2d;
  }

  lemma SignedMultiple<T(!new)>(g: Group<T>, n: int, w: int, a: T)
    requires Abelian(g)
    ensures g.neg(Mul(g, n * w, a)) == Mul(g, (-n) * w, a)
    ensures Mul(g, 0 * w, a) == g.zero
    ensures g.neg(g.zero) == g.zero
  {
    MulNeg(g, n * w, a);
    assert -(n * w) == (-n) * w;
    MulOne(g, a);
    NegUnique(g, g.zero, g.zero) by { Unit(g, g.zero); }
  }

  /** t := b 256^pos B, without branching on b. */
  method SelectPoint(t: PreComputedGroupElement, base: seq<seq<PreComputedGroupElement>>, pos: nat, b: int32,
                     ghost g: Group<CurvePoint>, ghost q: CurvePoint)
    requires CurveLaw(g) && BaseTable(base, g, q) && pos < 32 && -8 <= b <= 8 && Unused(t, base)
    modifies t
    ensures t.Rep(Mul(g, b * Pow2(8 * pos), q))
  {
    assert Pick(pos);
    ghost var w := Pow2(8 * pos);
    var bNegative := Negative(b);
    var bAbs := Magnitude(b);
    SelectFromRow(t, base[pos], bAbs, w, g, q);
    SignedMultiple(g, bAbs, w, q);
    assert Chosen(g, bAbs, 8, w, q) == Mul(g, bAbs * w, q);
    var minusT := Negated(t, g, Mul(g, bAbs * w, q));
    PreComputedGroupElementCMove(t, minusT, bNegative, Mul(g, bAbs * w, q), Mul(g, (-bAbs) * w, q));
  }

  /** The sum of s[2k + parity] 256^k for k below n. */
  function Every2(s: seq<int>, parity: nat, n: nat): int
    requires parity < 2 && 2 * n <= |s|
  {
    if n == 0 then 0 else Every2(s, parity, n - 1) + s[2 * (n - 1) + parity] * Pow2(8 * (n - 1))
  }

  /** The multiples that a pass over the digits of one parity goes through. */
  ghost predicate Steps(ks: seq<int>, e: seq<int8>, parity: nat)
    requires |e| == 64 && parity < 2
  {
    |ks| == 33 && forall pos {:trigger Pick(pos)} ::
      Pick(pos) && 0 <= pos < 32 ==> ks[pos + 1] == ks[pos] + e[2 * pos + parity] * Pow2(8 * pos)
  }

  function Sums(e: seq<int8>, parity: nat, m: int): (ks: seq<int>)
    requires |e| == 64 && parity < 2
    ensures Steps(ks, e, parity) && ks[0] == m && ks[32] == m + Every2(Ints(e), parity, 32)
  {
    seq(33, i requires 0 <= i < 33 => m + Every2(Ints(e), parity, i))
  }

  lemma {:induction false} DigitsInterleaved(s: seq<int>, n: nat)
    requires 2 * n <= |s|
    ensures Tail(s, 0, 4) == Every2(s, 0, n) + 16 * Every2(s, 1, n) + Pow2(8 * n) * Tail(s, 2 * n, 4)
  {
    if n == 0 {
      assert Pow2(8 * 0) == 1;
    } else {
      var m := n - 1;
      DigitsInterleaved(s, m);
      Pow2Values();
      assert Tail(s, 2 * m, 4) == s[2 * m] + 16 * Tail(s, 2 * m + 1, 4);
      assert Tail(s, 2 * m + 1, 4) == s[2 * m + 1] + 16 * Tail(s, 2 * m + 2, 4);
      Pow2Add(8, 8 * m);
      TwoDigits(Pow2(8 * m), s[2 * m], s[2 * m + 1], Tail(s, 2 * n, 4));
    }
  }

  lemma TwoDigits(w: int, x: int, y: int, t: int)
    ensures w * (x + 16 * (y + 16 * t)) == x * w + 16 * (y * w) + (0x100 * w) * t
  {
  }

  lemma MulSum<T(!new)>(g: Group<T>, m: int, x: int, n: int, a: T)
    requires Abelian(g) && n == m + x
    ensures g.add(Mul(g, m, a), Mul(g, x, a)) == Mul(g, n, a)
  {
    MulAdd(g, m, x, a);
  }

  /** h := h + d 256^pos B, where h = m B becomes n B */
  method AddEntry(h: ExtendedGroupElement, t: PreComputedGroupElement, r: CompletedGroupElement,
                  base: seq<seq<PreComputedGroupElement>>, pos: nat, d: int8,
                  ghost g: Group<CurvePoint>, ghost m: int, ghost n: int, ghost q: CurvePoint)
    requires CurveLaw(g) && BaseTable(base, g, q) && pos < 32 && -8 <= d <= 8 && Unused(t, base)
    requires h.Rep(Mul(g, m, q)) && n == m + d * Pow2(8 * pos)
    modifies h, t, r
    ensures h.Rep(Mul(g, n, q))
  {
    ghost var x := d * Pow2(8 * pos);
    SelectPoint(t, base, pos, d, g, q);
    MulSum(g, m, x, n, q);
    GeMixedAdd(r, h, t, g, Mul(g, m, q), Mul(g, x, q));
    r.ToExtended(h, Mul(g, n, q));
  }

  /** One pass over the digits of one parity. */
  method AddPass(h: ExtendedGroupElement, e: seq<int8>, parity: nat, base: seq<seq<PreComputedGroupElement>>,
                 ghost g: Group<CurvePoint>, ghost ks: seq<int>, ghost q: CurvePoint)
    requires CurveLaw(g) && BaseTable(base, g, q) && parity < 2
    requires |e| == 64 && forall i :: 0 <= i < 64 ==> -8 <= e[i] <= 8
    requires Steps(ks, e, parity) && h.Rep(Mul(g, ks[0], q))
    modifies h
    ensures h.Rep(Mul(g, ks[32], q))
  {
    var t := new PreComputedGroupElement();
    var r := new CompletedGroupElement();
    for pos := 0 to 32
      invariant h.Rep(Mul(g, ks[pos], q))
      invariant BaseTable(base, g, q)
    {
      assert Pick(pos);
      AddEntry(h, t, r, base, pos, e[2 * pos + parity], g, ks[pos], ks[pos + 1], q);
    }
  }

  /** r := r + r, by way of s */
  method DoubleInto(r: CompletedGroupElement, s: ProjectiveGroupElement,
                    ghost g: Group<CurvePoint>, ghost m: int, ghost n: int, ghost q: CurvePoint)
    requires CurveLaw(g) && r.Rep(Mul(g, m, q)) && n == 2 * m
    modifies r, s
    ensures r.Rep(Mul(g, n, q))
  {
    r.ToProjective(s, Mul(g, m, q));
    MulSum(g, m, m, n, q);
    s.Double(r, g, Mul(g, m, q));
  }

  /** Four doublings: h := 16 h. */
  method TimesSixteen(h: ExtendedGroupElement, ghost g: Group<CurvePoint>, ghost m: int, ghost n: int,
      ghost q: CurvePoint)
    requires CurveLaw(g) && h.Rep(Mul(g, m, q)) && n == 16 * m
    modifies h
    ensures h.Rep(Mul(g, n, q))
  {
    ghost var m2, m4, m8 := 2 * m, 4 * m, 8 * m;
    var r := new CompletedGroupElement();
    var s := new ProjectiveGroupElement();
    MulSum(g, m, m, m2, q);
    h.Double(r, g, Mul(g, m, q));
    DoubleInto(r, s, g, m2, m4, q);
    DoubleInto(r, s, g, m4, m8, q);
    DoubleInto(r, s, g, m8, n, q);
    r.ToExtended(h, Mul(g, n, q));
  }

  lemma DigitPasses(e: seq<int8>, odd: int, even: int)
    requires |e| == 64 && odd == Every2(Ints(e), 1, 32) && even == 16 * odd + Every2(Ints(e), 0, 32)
    ensures even == ValueBy(e, 4)
  {
    DigitsInterleaved(Ints(e), 32);
  }

  /** The odd pass, four doublings and the even pass. */
  method SumPasses(h: ExtendedGroupElement, e: seq<int8>, base: seq<seq<PreComputedGroupElement>>,
                   ghost g: Group<CurvePoint>, ghost q: CurvePoint)
    requires CurveLaw(g) && BaseTable(base, g, q)
    requires |e| == 64 && forall i :: 0 <= i < 64 ==> -8 <= e[i] <= 8
    modifies h
    ensures h.Rep(Mul(g, ValueBy(e, 4), q))
  {
    h.Zero();
    MulOne(g, q);
    ghost var odds := Sums(e, 1, 0);
    AddPass(h, e, 1, base, g, odds, q);
    ghost var high := 16 * odds[32];
    TimesSixteen(h, g, odds[32], high, q);
    ghost var evens := Sums(e, 0, high);
    AddPass(h, e, 0, base, g, evens, q);
    DigitPasses(e, odds[32], evens[32]);
  }

  /** h := a B, for the point the table was built from. */
  method GeScalarMultBase(h: ExtendedGroupElement, a: Bytes32, base: seq<seq<PreComputedGroupElement>>,
                          ghost g: Group<CurvePoint>, ghost q: CurvePoint)
    requires CurveLaw(g) && BaseTable(base, g, q) && a[31] <= 127
    modifies h
    ensures h.Rep(Mul(g, LeVal(a), q))
  {
    var e := new int8[64];
    Radix16(e, a);
    SumPasses(h, e[..], base, g, q);
  }
}
