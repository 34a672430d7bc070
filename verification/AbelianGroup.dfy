/** Abelian groups as values, and integer multiples in them. */
module AbelianGroup {
  datatype Group<!T> = Group(zero: T, add: (T, T) -> T, neg: T -> T)

  /** Names the elements at which a law below is to be used. */
  predicate At<T>(a: T, b: T, c: T) {
    true
  }

  ghost predicate Abelian<T(!new)>(g: Group<T>) {
    && (forall a, b, c {:trigger At(a, b, c)} :: g.add(g.add(a, b), c) == g.add(a, g.add(b, c)))
    && (forall a, b {:trigger At(a, b, b)} :: g.add(a, b) == g.add(b, a))
    && (forall a {:trigger At(a, a, a)} :: g.add(a, g.zero) == a)
    && (forall a {:trigger At(a, a, a)} :: g.add(a, g.neg(a)) == g.zero)
  }

  lemma Assoc<T(!new)>(g: Group<T>, a: T, b: T, c: T)
    requires Abelian(g)
    ensures g.add(g.add(a, b), c) == g.add(a, g.add(b, c))
  {
    assert At(a, b, c);
  }

  lemma Comm<T(!new)>(g: Group<T>, a: T, b: T)
    requires Abelian(g)
    ensures g.add(a, b) == g.add(b, a)
  {
    assert At(a, b, b);
  }

  lemma Unit<T(!new)>(g: Group<T>, a: T)
    requires Abelian(g)
    ensures g.add(a, g.zero) == a && g.add(g.zero, a) == a
  {
    assert At(a, a, a);
    Comm(g, a, g.zero);
  }

  lemma Inverse<T(!new)>(g: Group<T>, a: T)
    requires Abelian(g)
    ensures g.add(a, g.neg(a)) == g.zero && g.add(g.neg(a), a) == g.zero
  {
    assert At(a, a, a);
    Comm(g, a, g.neg(a));
  }

  /** (a + b) + (c + d) == (a + c) + (b + d) */
  lemma Interchange<T(!new)>(g: Group<T>, a: T, b: T, c: T, d: T)
    requires Abelian(g)
    ensures g.add(g.add(a, b), g.add(c, d)) == g.add(g.add(a, c), g.add(b, d))
  {
    Assoc(g, a, b, g.add(c, d));
    Assoc(g, b, c, d);
    Comm(g, b, c);
    Assoc(g, c, b, d);
    Assoc(g, a, c, g.add(b, d));
  }

  lemma Cancel<T(!new)>(g: Group<T>, a: T, b: T, c: T)
    requires Abelian(g) && g.add(a, c) == g.add(b, c)
    ensures a == b
  {
    Assoc(g, a, c, g.neg(c));
    Assoc(g, b, c, g.neg(c));
    Inverse(g, c);
    Unit(g, a);
    Unit(g, b);
  }

  lemma CancelNeg<T(!new)>(g: Group<T>, a: T, c: T)
    requires Abelian(g)
    ensures g.add(g.add(a, c), g.neg(c)) == a && g.add(g.add(a, g.neg(c)), c) == a
  {
    Assoc(g, a, c, g.neg(c));
    Assoc(g, a, g.neg(c), c);
    Inverse(g, c);
    Unit(g, a);
  }

  lemma NegUnique<T(!new)>(g: Group<T>, a: T, b: T)
    requires Abelian(g) && g.add(a, b) == g.zero
    ensures b == g.neg(a)
  {
    Inverse(g, a);
    Comm(g, a, b);
    Cancel(g, b, g.neg(a), a);
  }

  lemma NegAdd<T(!new)>(g: Group<T>, a: T, b: T)
    requires Abelian(g)
    ensures g.neg(g.add(a, b)) == g.add(g.neg(a), g.neg(b))
  {
    Interchange(g, a, b, g.neg(a), g.neg(b));
    Inverse(g, a);
    Inverse(g, b);
    Unit(g, g.zero);
    NegUnique(g, g.add(a, b), g.add(g.neg(a), g.neg(b)));
  }

  lemma NegNeg<T(!new)>(g: Group<T>, a: T)
    requires Abelian(g)
    ensures g.neg(g.neg(a)) == a
  {
    Inverse(g, a);
    NegUnique(g, g.neg(a), a);
  }

  /** a added to itself n times. */
  function Times<T>(g: Group<T>, n: nat, a: T): T {
    if n == 0 then g.zero else g.add(Times(g, n - 1, a), a)
  }

  /** The multiple n a, for any integer n. */
  function Mul<T>(g: Group<T>, n: int, a: T): T {
    if n >= 0 then Times(g, n, a) else g.neg(Times(g, -n, a))
  }

  lemma MulStep<T(!new)>(g: Group<T>, n: int, a: T)
    requires Abelian(g)
    ensures Mul(g, n + 1, a) == g.add(Mul(g, n, a), a)
  {
    if n < 0 {
      NegAdd(g, Times(g, -n - 1, a), a);
      CancelNeg(g, g.neg(Times(g, -n - 1, a)), a);
      if n == -1 {
        Inverse(g, g.zero);
        Unit(g, g.neg(g.zero));
      }
    }
  }

  lemma {:induction false} MulAdd<T(!new)>(g: Group<T>, m: int, n: int, a: T)
    requires Abelian(g)
    ensures Mul(g, m + n, a) == g.add(Mul(g, m, a), Mul(g, n, a))
    decreases if n < 0 then -n else n
  {
    if n == 0 {
      Unit(g, Mul(g, m, a));
    } else if n > 0 {
      MulAdd(g, m, n - 1, a);
      MulStep(g, m + n - 1, a);
      MulStep(g, n - 1, a);
      Assoc(g, Mul(g, m, a), Mul(g, n - 1, a), a);
    } else {
      MulAdd(g, m, n + 1, a);
      MulStep(g, m + n, a);
      MulStep(g, n, a);
      Assoc(g, Mul(g, m, a), Mul(g, n, a), a);
      Cancel(g, Mul(g, m + n, a), g.add(Mul(g, m, a), Mul(g, n, a)), a);
    }
  }

  lemma MulOne<T(!new)>(g: Group<T>, a: T)
    requires Abelian(g)
    ensures Mul(g, 0, a) == g.zero && Mul(g, 1, a) == a && Mul(g, 2, a) == g.add(a, a)
  {
    MulStep(g, 0, a);
    MulStep(g, 1, a);
    Unit(g, a);
  }

  lemma MulNeg<T(!new)>(g: Group<T>, n: int, a: T)
    requires Abelian(g)
    ensures Mul(g, -n, a) == g.neg(Mul(g, n, a))
  {
    MulAdd(g, n, -n, a);
    NegUnique(g, Mul(g, n, a), Mul(g, -n, a));
  }

  lemma {:induction false} MulMul<T(!new)>(g: Group<T>, m: int, n: int, a: T)
    requires Abelian(g)
    ensures Mul(g, m * n, a) == Mul(g, m, Mul(g, n, a))
    decreases if m < 0 then -m else m
  {
    if m == 0 {
      MulOne(g, a);
      MulOne(g, Mul(g, n, a));
    } else if m > 0 {
      MulMul(g, m - 1, n, a);
      assert m * n == (m - 1) * n + n;
      MulAdd(g, (m - 1) * n, n, a);
      MulStep(g, m - 1, Mul(g, n, a));
    } else {
      MulMul(g, m + 1, n, a);
      assert (m + 1) * n == m * n + n;
      MulAdd(g, m * n, n, a);
      MulStep(g, m, Mul(g, n, a));
      Cancel(g, Mul(g, m * n, a), Mul(g, m, Mul(g, n, a)), Mul(g, n, a));
    }
  }

  lemma {:induction false} MulDistributes<T(!new)>(g: Group<T>, n: int, a: T, b: T)
    requires Abelian(g)
    ensures Mul(g, n, g.add(a, b)) == g.add(Mul(g, n, a), Mul(g, n, b))
    decreases n < 0, n
  {
    if n == 0 {
      Unit(g, g.zero);
    } else if n > 0 {
      MulDistributes(g, n - 1, a, b);
      MulStep(g, n - 1, g.add(a, b));
      MulStep(g, n - 1, a);
      MulStep(g, n - 1, b);
      Interchange(g, Mul(g, n - 1, a), Mul(g, n - 1, b), a, b);
    } else {
      MulDistributes(g, -n, a, b);
      MulNeg(g, -n, g.add(a, b));
      MulNeg(g, -n, a);
      MulNeg(g, -n, b);
      NegAdd(g, Mul(g, -n, a), Mul(g, -n, b));
    }
  }
}
