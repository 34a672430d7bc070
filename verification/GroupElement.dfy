/** The four representations of a curve point and the formulas between them
    (edwards25519.go:633-863).  `Rep(q)` says which affine point an object stands for
    and how large its limbs are. */
module GroupElement {
  import opened Bytes
  import opened Congruence
  import opened FieldElement
  import opened AbelianGroup
  import opened CurveGroup
  import opened Coordinates
  import opened PointCodec

  /** Rep is stated through a quantifier, so that it unfolds only where `Opened(0)` is mentioned. */
  ghost predicate Opened(k: int) {
    k == 0
  }

  lemma LawSum(g: Group<CurvePoint>, a: CurvePoint, b: CurvePoint)
    requires CurveLaw(g)
    ensures EdSum(a, b, g.add(a, b))
  {
    assert At(a, b, b);
  }

  lemma LawNeg(g: Group<CurvePoint>, a: CurvePoint)
    requires CurveLaw(g)
    ensures EdReflection(a, g.neg(a))
  {
    assert At(a, a, a);
  }

  class ProjectiveGroupElement {
    var X: Fe
    var Y: Fe
    var Z: Fe

    constructor ()
    {
      X := Limbs(0, 0, 0, 0, 0, 0, 0, 0, 0, 0);
      Y := X;
      Z := X;
    }

    ghost predicate Rep(q: CurvePoint)
      reads this
    {
      forall k {:trigger Opened(k)} :: Opened(k) ==>
        && Bounded(X, 2) && Bounded(Y, 1) && Bounded(Z, 1)
        && IsProj(Val(X), Val(Y), Val(Z), q)
    }

    method Zero()
      modifies this
      ensures Rep(NEUTRAL)
    {
      var zero := FeZero();
      var one := FeOne();
      NeutralIsExt();
      X, Y, Z := zero, one, one;
    }

    method Double(r: CompletedGroupElement, ghost g: Group<CurvePoint>, ghost a: CurvePoint)
      requires CurveLaw(g) && Rep(a)
      modifies r
      ensures r.Rep(g.add(a, a))
    {
      assert Opened(0);
      Widen(X, 2, 3);
      Widen(Y, 1, 3);
      Widen(Z, 1, 3);
      var xx := FeSquare(X);
      var yy := FeSquare(Y);
      var zz2 := FeSquare2(Z);
      var s := FeAdd(X, Y, 2, 1, 3);
      var t0 := FeSquare(s);
      var y := FeAdd(yy, xx, 1, 1, 2);
      var z := FeSub(yy, xx, 1, 1, 2);
      var x := FeSub(t0, y, 1, 2, 3);
      var t := FeSub(zz2, z, 1, 2, 3);
      Widen(y, 2, 3);
      Widen(z, 2, 3);
      LawSum(g, a, a);
      DoubleIsComp(Val(X), Val(Y), Val(Z), Val(xx), Val(yy), Val(zz2), Val(t0),
                   Val(x), Val(y), Val(z), Val(t), a, g.add(a, a));
      r.X, r.Y, r.Z, r.T := x, y, z, t;
    }

    method ToBytes(ghost q: CurvePoint) returns (s: Bytes32)
      requires PrimeModulus(P) && Rep(q)
      ensures s == Encoding(q) && Encodes(s, q)
    {
      assert Opened(0);
      s := EncodePoint(X, Y, Z, q);
      EncodingEncodes(s, q);
    }
  }

  class ExtendedGroupElement {
    var X: Fe
    var Y: Fe
    var Z: Fe
    var T: Fe

    constructor ()
    {
      X := Limbs(0, 0, 0, 0, 0, 0, 0, 0, 0, 0);
      Y := X;
      Z := X;
      T := X;
    }

    /** X may have been through FeIsNegative, which leaves limbs of full width. */
    ghost predicate Rep(q: CurvePoint)
      reads this
    {
      forall k {:trigger Opened(k)} :: Opened(k) ==>
        && Bounded(X, 2) && Bounded(Y, 1) && Bounded(Z, 1) && Bounded(T, 1)
        && IsExt(Val(X), Val(Y), Val(Z), Val(T), q)
    }

    method Zero()
      modifies this
      ensures Rep(NEUTRAL)
    {
      var zero := FeZero();
      var one := FeOne();
      NeutralIsExt();
      X, Y, Z, T := zero, one, one, zero;
    }

    method ToProjective(r: ProjectiveGroupElement, ghost a: CurvePoint)
      requires Rep(a)
      modifies r
      ensures r.Rep(a)
    {
      assert Opened(0);
      ExtIsProj(Val(X), Val(Y), Val(Z), Val(T), a);
      r.X, r.Y, r.Z := X, Y, Z;
    }

    method Double(r: CompletedGroupElement, ghost g: Group<CurvePoint>, ghost a: CurvePoint)
      requires CurveLaw(g) && Rep(a)
      modifies r
      ensures r.Rep(g.add(a, a))
    {
      assert Opened(0);
      var q := new ProjectiveGroupElement();
      ToProjective(q, a);
      q.Double(r, g, a);
    }

    method ToCached(r: CachedGroupElement, ghost a: CurvePoint)
      requires PrimeModulus(P) && Rep(a)
      modifies r
      ensures r.Rep(a)
    {
      assert Opened(0);
      ConstantsCorrect();
      var plus := FeAdd(Y, X, 1, 2, 3);
      var minus := FeSub(Y, X, 1, 2, 3);
      Widen(T, 1, 3);
      Widen(D2_LIMBS, 1, 3);
      var t2d := FeMul(T, D2_LIMBS);
      ExtIsCached(Val(X), Val(Y), Val(Z), Val(T), Val(D2_LIMBS), Val(plus), Val(minus), Val(t2d), a);
      r.yPlusX, r.yMinusX, r.Z, r.T2d := plus, minus, Z, t2d;
    }

    /** this := a + b, where `this` may be either operand. */
    method Add(a: ExtendedGroupElement, b: ExtendedGroupElement,
               ghost g: Group<CurvePoint>, ghost q: CurvePoint, ghost r: CurvePoint)
      requires CurveLaw(g) && a.Rep(q) && b.Rep(r)
      modifies this
      ensures Rep(g.add(q, r))
    {
      var cb := new CachedGroupElement();
      var c := new CompletedGroupElement();
      b.ToCached(cb, r);
      GeAdd(c, a, cb, g, q, r);
      c.ToExtended(this, g.add(q, r));
    }

    /** this := a - b, where `this` may be either operand. */
    method Sub(a: ExtendedGroupElement, b: ExtendedGroupElement,
               ghost g: Group<CurvePoint>, ghost q: CurvePoint, ghost r: CurvePoint)
      requires CurveLaw(g) && a.Rep(q) && b.Rep(r)
      modifies this
      ensures Rep(g.add(q, g.neg(r)))
    {
      var cb := new CachedGroupElement();
      var c := new CompletedGroupElement();
      b.ToCached(cb, r);
      GeSub(c, a, cb, g, q, r);
      c.ToExtended(this, g.add(q, g.neg(r)));
    }

    method ToBytes(ghost q: CurvePoint) returns (s: Bytes32)
      requires PrimeModulus(P) && Rep(q)
      ensures s == Encoding(q) && Encodes(s, q)
    {
      assert Opened(0);
      ExtIsProj(Val(X), Val(Y), Val(Z), Val(T), q);
      s := EncodePoint(X, Y, Z, q);
      EncodingEncodes(s, q);
    }

    /** Succeeds exactly when the bytes denote a point, which is then the one represented. */
    method FromBytes(s: Bytes32) returns (ok: bool)
      requires PrimeModulus(P)
      modifies this
      ensures forall q: CurvePoint :: Encodes(s, q) ==> ok && Rep(q)
      ensures ok ==> Val(Z) == 1 && exists q: CurvePoint :: Encodes(s, q) && Rep(q)
    {
      ghost var q;
      ok, X, Y, Z, T, q := DecodePoint(s);
      if ok {
        forall r: CurvePoint | Encodes(s, r)
          ensures r == q
        {
          DecodingUnique(s, q, r);
        }
      }
    }
  }

  class CompletedGroupElement {
    var X: Fe
    var Y: Fe
    var Z: Fe
    var T: Fe

    constructor ()
    {
      X := Limbs(0, 0, 0, 0, 0, 0, 0, 0, 0, 0);
      Y := X;
      Z := X;
      T := X;
    }

    ghost predicate Rep(q: CurvePoint)
      reads this
    {
      forall k {:trigger Opened(k)} :: Opened(k) ==>
        && Bounded(X, 3) && Bounded(Y, 3) && Bounded(Z, 3) && Bounded(T, 3)
        && IsComp(Val(X), Val(Y), Val(Z), Val(T), q)
    }

    method ToProjective(r: ProjectiveGroupElement, ghost a: CurvePoint)
      requires PrimeModulus(P) && Rep(a)
      modifies r
      ensures r.Rep(a)
    {
      assert Opened(0);
      var x := FeMul(X, T);
      var y := FeMul(Y, Z);
      var z := FeMul(Z, T);
      Widen(x, 1, 2);
      CompIsExt(Val(X), Val(Y), Val(Z), Val(T), Val(x), Val(y), Val(z), Val(X) * Val(Y), a);
      r.X, r.Y, r.Z := x, y, z;
    }

    method ToExtended(r: ExtendedGroupElement, ghost a: CurvePoint)
      requires PrimeModulus(P) && Rep(a)
      modifies r
      ensures r.Rep(a)
    {
      assert Opened(0);
      var x := FeMul(X, T);
      var y := FeMul(Y, Z);
      var z := FeMul(Z, T);
      var t := FeMul(X, Y);
      Widen(x, 1, 2);
      CompIsExt(Val(X), Val(Y), Val(Z), Val(T), Val(x), Val(y), Val(z), Val(t), a);
      r.X, r.Y, r.Z, r.T := x, y, z, t;
    }
  }

  class CachedGroupElement {
    var yPlusX: Fe
    var yMinusX: Fe
    var Z: Fe
    var T2d: Fe

    constructor ()
    {
      yPlusX := Limbs(0, 0, 0, 0, 0, 0, 0, 0, 0, 0);
      yMinusX := yPlusX;
      Z := yPlusX;
      T2d := yPlusX;
    }

    ghost predicate Rep(q: CurvePoint)
      reads this
    {
      forall k {:trigger Opened(k)} :: Opened(k) ==>
        && Bounded(yPlusX, 3) && Bounded(yMinusX, 3) && Bounded(Z, 1) && Bounded(T2d, 1)
        && IsCached(Val(yPlusX), Val(yMinusX), Val(Z), Val(T2d), q)
    }
  }

  /** A cached point with Z = 1, as the tables hold them. */
  class PreComputedGroupElement {
    var yPlusX: Fe
    var yMinusX: Fe
    var xy2d: Fe

    constructor ()
    {
      yPlusX := Limbs(0, 0, 0, 0, 0, 0, 0, 0, 0, 0);
      yMinusX := yPlusX;
      xy2d := yPlusX;
    }

    ghost predicate Rep(q: CurvePoint)
      reads this
    {
      forall k {:trigger Opened(k)} :: Opened(k) ==>
        && Bounded(yPlusX, 1) && Bounded(yMinusX, 1) && Bounded(xy2d, 1)
        && IsCached(Val(yPlusX), Val(yMinusX), 1, Val(xy2d), q)
    }

    method Zero()
      modifies this
      ensures Rep(NEUTRAL)
    {
      var zero := FeZero();
      var one := FeOne();
      NeutralIsExt();
      yPlusX, yMinusX, xy2d := one, one, zero;
    }
  }

  /** The part common to the four formulas below: the products (Y+X) u, (Y-X) v and k T, then sums
      and differences.  `t0` is twice the product of the denominators. */
  method Combine(X: Fe, Y: Fe, T: Fe, u: Fe, v: Fe, k: Fe, t0: Fe)
    returns (x: Fe, y: Fe, plus: Fe, minus: Fe, ghost zz: int, ghost yy: int, ghost tt: int)
    requires Bounded(X, 2) && Bounded(Y, 1) && Bounded(T, 1) && Bounded(t0, 2)
    requires Bounded(u, 3) && Bounded(v, 3) && Bounded(k, 1)
    ensures Bounded(x, 3) && Bounded(y, 3) && Bounded(plus, 3) && Bounded(minus, 3)
    ensures Cong(zz, (Val(Y) + Val(X)) * Val(u), P) && Cong(yy, (Val(Y) - Val(X)) * Val(v), P)
    ensures Cong(tt, Val(k) * Val(T), P)
    ensures Val(x) == zz - yy && Val(y) == zz + yy && Val(plus) == Val(t0) + tt && Val(minus) == Val(t0) - tt
  {
    Widen(T, 1, 3);
    Widen(k, 1, 3);
    var s := FeAdd(Y, X, 1, 2, 3);
    var m := FeSub(Y, X, 1, 2, 3);
    var z := FeMul(s, u);
    var w := FeMul(m, v);
    var t := FeMul(k, T);
    x := FeSub(z, w, 1, 1, 3);
    y := FeAdd(z, w, 1, 1, 3);
    plus := FeAdd(t0, t, 2, 1, 3);
    minus := FeSub(t0, t, 2, 1, 3);
    zz, yy, tt := Val(z), Val(w), Val(t);
  }

  method GeAdd(r: CompletedGroupElement, p: ExtendedGroupElement, q: CachedGroupElement,
               ghost g: Group<CurvePoint>, ghost a: CurvePoint, ghost b: CurvePoint)
    requires CurveLaw(g) && p.Rep(a) && q.Rep(b)
    modifies r
    ensures r.Rep(g.add(a, b))
  {
    assert Opened(0);
    Widen(q.Z, 1, 3);
    Widen(p.Z, 1, 3);
    var xx := FeMul(p.Z, q.Z);
    var t0 := FeAdd(xx, xx, 1, 1, 2);
    var x, y, z, t, zz, yy, tt := Combine(p.X, p.Y, p.T, q.yPlusX, q.yMinusX, q.T2d, t0);
    LawSum(g, a, b);
    AddIsComp(Val(p.X), Val(p.Y), Val(p.Z), Val(p.T), Val(q.yPlusX), Val(q.yMinusX), Val(q.Z), Val(q.T2d),
              Val(xx), yy, zz, tt, Val(x), Val(y), Val(z), Val(t), a, b, g.add(a, b));
    r.X, r.Y, r.Z, r.T := x, y, z, t;
  }

  method GeSub(r: CompletedGroupElement, p: ExtendedGroupElement, q: CachedGroupElement,
               ghost g: Group<CurvePoint>, ghost a: CurvePoint, ghost b: CurvePoint)
    requires CurveLaw(g) && p.Rep(a) && q.Rep(b)
    modifies r
    ensures r.Rep(g.add(a, g.neg(b)))
  {
    assert Opened(0);
    Widen(q.Z, 1, 3);
    Widen(p.Z, 1, 3);
    var xx := FeMul(p.Z, q.Z);
    var t0 := FeAdd(xx, xx, 1, 1, 2);
    var x, y, t, z, zz, yy, tt := Combine(p.X, p.Y, p.T, q.yMinusX, q.yPlusX, q.T2d, t0);
    LawNeg(g, b);
    LawSum(g, a, g.neg(b));
    SubIsComp(Val(p.X), Val(p.Y), Val(p.Z), Val(p.T), Val(q.yPlusX), Val(q.yMinusX), Val(q.Z), Val(q.T2d),
              Val(xx), yy, zz, tt, Val(x), Val(y), Val(z), Val(t), a, b, g.neg(b), g.add(a, g.neg(b)));
    r.X, r.Y, r.Z, r.T := x, y, z, t;
  }

  method GeMixedAdd(r: CompletedGroupElement, p: ExtendedGroupElement, q: PreComputedGroupElement,
               ghost g: Group<CurvePoint>, ghost a: CurvePoint, ghost b: CurvePoint)
    requires CurveLaw(g) && p.Rep(a) && q.Rep(b)
    modifies r
    ensures r.Rep(g.add(a, b))
  {
    assert Opened(0);
    Widen(q.yPlusX, 1, 3);
    Widen(q.yMinusX, 1, 3);
    var t0 := FeAdd(p.Z, p.Z, 1, 1, 2);
    var x, y, z, t, zz, yy, tt := Combine(p.X, p.Y, p.T, q.yPlusX, q.yMinusX, q.xy2d, t0);
    LawSum(g, a, b);
    AddIsComp(Val(p.X), Val(p.Y), Val(p.Z), Val(p.T), Val(q.yPlusX), Val(q.yMinusX), 1, Val(q.xy2d),
              Val(p.Z), yy, zz, tt, Val(x), Val(y), Val(z), Val(t), a, b, g.add(a, b));
    r.X, r.Y, r.Z, r.T := x, y, z, t;
  }

  method GeMixedSub(r: CompletedGroupElement, p: ExtendedGroupElement, q: PreComputedGroupElement,
               ghost g: Group<CurvePoint>, ghost a: CurvePoint, ghost b: CurvePoint)
    requires CurveLaw(g) && p.Rep(a) && q.Rep(b)
    modifies r
    ensures r.Rep(g.add(a, g.neg(b)))
  {
    assert Opened(0);
    Widen(q.yPlusX, 1, 3);
    Widen(q.yMinusX, 1, 3);
    var t0 := FeAdd(p.Z, p.Z, 1, 1, 2);
    var x, y, t, z, zz, yy, tt := Combine(p.X, p.Y, p.T, q.yMinusX, q.yPlusX, q.xy2d, t0);
    LawNeg(g, b);
    LawSum(g, a, g.neg(b));
    SubIsComp(Val(p.X), Val(p.Y), Val(p.Z), Val(p.T), Val(q.yPlusX), Val(q.yMinusX), 1, Val(q.xy2d),
              Val(p.Z), yy, zz, tt, Val(x), Val(y), Val(z), Val(t), a, b, g.neg(b), g.add(a, g.neg(b)));
    r.X, r.Y, r.Z, r.T := x, y, z, t;
  }

  /** A copy of a point, negated. */
  method NegatedCopy(a: ExtendedGroupElement, ghost g: Group<CurvePoint>, ghost q: CurvePoint)
      returns (n: ExtendedGroupElement)
    requires CurveLaw(g) && a.Rep(q)
    ensures fresh(n) && n.Rep(g.neg(q))
  {
    assert Opened(0);
    n := new ExtendedGroupElement();
    var x := FeNeg(a.X, 2);
    var t := FeNeg(a.T, 1);
    LawNeg(g, q);
    ExtNegated(Val(a.X), Val(a.Y), Val(a.Z), Val(a.T), q, g.neg(q));
    n.X, n.Y, n.Z, n.T := x, a.Y, a.Z, t;
  }
}
