/** The field GF(2^255 - 19) in ten signed limbs (edwards25519.go, first half). */
module FieldElement {
  import opened MachineInt
  import opened Congruence
  import opened Bytes
  import opened Powers

  // The definitions of P, Val and Bounded are written so that code above the limbs is verified
  // without unfolding them; PValue, ValSum and BoundedLimbs unfold them where limbs are handled.

  const P: int := Modulus(255)

  /** 2^n - 19, for the n that make it positive. */
  function Modulus(n: nat): (p: int)
    ensures p > 1
  {
    if Pow2(n) > 20 then Pow2(n) - 19 else 2
  }

  const X255 := 0x8000_0000_0000_0000_0000_0000_0000_0000_0000_0000_0000_0000_0000_0000_0000_0000

  lemma PValue()
    ensures P == X255 - 19
  {
    Pow2At255();
  }

  // 2^ceil(25.5 i), the weight of limb i
  const W1 := 0x400_0000
  const W2 := 0x8_0000_0000_0000
  const W3 := 0x2000_0000_0000_0000_0000
  const W4 := 0x40_0000_0000_0000_0000_0000_0000
  const W5 := 0x1_0000_0000_0000_0000_0000_0000_0000_0000
  const W6 := 0x200_0000_0000_0000_0000_0000_0000_0000_0000_0000
  const W7 := 0x8_0000_0000_0000_0000_0000_0000_0000_0000_0000_0000_0000
  const W8 := 0x1000_0000_0000_0000_0000_0000_0000_0000_0000_0000_0000_0000_0000
  const W9 := 0x40_0000_0000_0000_0000_0000_0000_0000_0000_0000_0000_0000_0000_0000_0000

  /** Ten limbs, indexed only by constants in the source.  Like a Go array
      they are a value, copied on assignment. */
  datatype Limbs = Limbs(0: int, 1: int, 2: int, 3: int, 4: int, 5: int, 6: int, 7: int, 8: int, 9: int)

  function Limb(f: Limbs, i: nat): int
    requires i < 10
  {
    if i == 0 then f.0 else if i == 1 then f.1 else if i == 2 then f.2 else if i == 3 then f.3
    else if i == 4 then f.4 else if i == 5 then f.5 else if i == 6 then f.6 else if i == 7 then f.7
    else if i == 8 then f.8 else f.9
  }

  predicate Fits(f: Limbs, m: int) {
    forall i :: 0 <= i < 10 ==> -m <= Limb(f, i) < m
  }

  /** [10]int32 */
  type Fe = f: Limbs | Fits(f, 0x8000_0000) witness Limbs(0, 0, 0, 0, 0, 0, 0, 0, 0, 0)

  /** Ten int64 columns. */
  type Columns = h: Limbs | Fits(h, 0x8000_0000_0000_0000) witness Limbs(0, 0, 0, 0, 0, 0, 0, 0, 0, 0)

  function Weight(i: nat): int
    requires i < 10
  {
    if i == 0 then 1 else if i == 1 then W1 else if i == 2 then W2 else if i == 3 then W3
    else if i == 4 then W4 else if i == 5 then W5 else if i == 6 then W6 else if i == 7 then W7
    else if i == 8 then W8 else W9
  }

  /** The sum of weighted limbs from limb `i` up. */
  function ValFrom(f: Limbs, i: nat): int
    requires i <= 10
    decreases 10 - i, f
  {
    if i == 10 then 0 else Weight(i) * Limb(f, i) + ValFrom(f, i + 1)
  }

  /** The integer that ten limbs stand for. */
  function Val(f: Limbs): int {
    ValFrom(f, 0)
  }

  /** Ten limbs weighed out. */
  function Weighed(f: Limbs): int {
    f.0 + W1 * f.1 + W2 * f.2 + W3 * f.3 + W4 * f.4 + W5 * f.5 + W6 * f.6 + W7 * f.7 + W8 * f.8 + W9 * f.9
  }

  lemma ValSum(f: Limbs)
    ensures Val(f) == Weighed(f)
  {
    assert ValFrom(f, 9) == W9 * f.9;
    assert ValFrom(f, 8) == W8 * f.8 + ValFrom(f, 9);
    assert ValFrom(f, 7) == W7 * f.7 + ValFrom(f, 8);
    assert ValFrom(f, 6) == W6 * f.6 + ValFrom(f, 7);
    assert ValFrom(f, 5) == W5 * f.5 + ValFrom(f, 6);
    assert ValFrom(f, 4) == W4 * f.4 + ValFrom(f, 5);
    assert ValFrom(f, 3) == W3 * f.3 + ValFrom(f, 4);
    assert ValFrom(f, 2) == W2 * f.2 + ValFrom(f, 3);
    assert ValFrom(f, 1) == W1 * f.1 + ValFrom(f, 2);
  }

  predicate Within(x: int, bound: int) {
    -bound <= x <= bound
  }

  // 1.1 * 2^25 and 1.1 * 2^24
  const EVEN_UNIT := 36909875
  const ODD_UNIT := 18454937

  predicate LimbFits(x: int, i: nat, n: nat) {
    if i % 2 == 0 then Within(x, n * EVEN_UNIT) else Within(x, n * ODD_UNIT)
  }

  /** How many limbs from `i` up exceed `n` units. */
  function ExcessFrom(f: Limbs, n: nat, i: nat): nat
    requires i <= 10
    decreases 10 - i, f
  {
    if i == 10 then 0 else (if LimbFits(Limb(f, i), i, n) then 0 else 1) + ExcessFrom(f, n, i + 1)
  }

  /** Limbs within `n` units: 1 after a carry, at most 3 on entry to a multiplication. */
  predicate Bounded(f: Limbs, n: nat) {
    ExcessFrom(f, n, 0) == 0
  }

  lemma {:induction false} LimbsFit(f: Limbs, n: nat, i: nat)
    requires i <= 10
    ensures ExcessFrom(f, n, i) == 0 <==> forall j :: i <= j < 10 ==> LimbFits(Limb(f, j), j, n)
    decreases 10 - i
  {
    if i < 10 {
      LimbsFit(f, n, i + 1);
    }
  }

  lemma BoundedLimbs(f: Limbs, n: nat)
    ensures Bounded(f, n) <==>
      && Within(f.0, n * EVEN_UNIT) && Within(f.1, n * ODD_UNIT) && Within(f.2, n * EVEN_UNIT)
      && Within(f.3, n * ODD_UNIT) && Within(f.4, n * EVEN_UNIT) && Within(f.5, n * ODD_UNIT)
      && Within(f.6, n * EVEN_UNIT) && Within(f.7, n * ODD_UNIT) && Within(f.8, n * EVEN_UNIT)
      && Within(f.9, n * ODD_UNIT)
  {
    LimbsFit(f, n, 0);
    if Bounded(f, n) {
      assert Limb(f, 0) == f.0 && Limb(f, 1) == f.1 && Limb(f, 2) == f.2 && Limb(f, 3) == f.3 && Limb(f, 4) == f.4;
      assert Limb(f, 5) == f.5 && Limb(f, 6) == f.6 && Limb(f, 7) == f.7 && Limb(f, 8) == f.8 && Limb(f, 9) == f.9;
    }
  }

  lemma Widen(f: Limbs, m: nat, n: nat)
    requires m <= n && Bounded(f, m)
    ensures Bounded(f, n)
  {
    BoundedLimbs(f, m);
    BoundedLimbs(f, n);
  }

  /** Largest magnitude FeCombine takes: twice ten products of limbs of 3 units, one scaled by 19. */
  const COMBINE_MAX := 0x4100_0000_0000_0000

  predicate Combinable(h: Limbs) {
    && Within(h.0, COMBINE_MAX) && Within(h.1, COMBINE_MAX) && Within(h.2, COMBINE_MAX)
    && Within(h.3, COMBINE_MAX) && Within(h.4, COMBINE_MAX) && Within(h.5, COMBINE_MAX)
    && Within(h.6, COMBINE_MAX) && Within(h.7, COMBINE_MAX) && Within(h.8, COMBINE_MAX)
    && Within(h.9, COMBINE_MAX)
  }

  /** What rounding carries out of a limb of 26 or 25 bits, and what it leaves. */
  function Up26(a: int): int { (a + 0x200_0000) / 0x400_0000 }

  function Low26(a: int): int { a - Up26(a) * 0x400_0000 }

  function Up25(a: int): int { (a + 0x100_0000) / 0x200_0000 }

  function Low25(a: int): int { a - Up25(a) * 0x200_0000 }

  /** Moves the rounded part of a 26-bit limb into the next limb. */
  method RoundCarry26(a: int64, b: int64) returns (lo: int64, hi: int64)
    requires a <= 0x7fff_ffff_0000_0000 && Within(b, 0x4800_0000_0000_0000)
    ensures lo == Low26(a) && hi == b + Up26(a)
    ensures -0x200_0000 <= lo < 0x200_0000
    ensures lo + 0x400_0000 * hi == a + 0x400_0000 * b
  {
    var c: int64 := (a + 0x200_0000) / 0x400_0000;
    hi := b + c;
    lo := a - c * 0x400_0000;
  }

  /** Moves the rounded part of a 25-bit limb into the next limb. */
  method RoundCarry25(a: int64, b: int64) returns (lo: int64, hi: int64)
    requires a <= 0x7fff_ffff_0000_0000 && Within(b, 0x4800_0000_0000_0000)
    ensures lo == Low25(a) && hi == b + Up25(a)
    ensures -0x100_0000 <= lo < 0x100_0000
    ensures lo + 0x200_0000 * hi == a + 0x200_0000 * b
  {
    var c: int64 := (a + 0x100_0000) / 0x200_0000;
    hi := b + c;
    lo := a - c * 0x200_0000;
  }

  datatype Five = Five(0: int, 1: int, 2: int, 3: int, 4: int)

  /** A run of four carries through limbs of 26, 25, 26 and 25 bits. */
  function Ripple(a: Five): Five {
    var x1 := a.1 + Up26(a.0);
    var x2 := a.2 + Up25(x1);
    var x3 := a.3 + Up26(x2);
    Five(Low26(a.0), Low25(x1), Low26(x2), Low25(x3), a.4 + Up25(x3))
  }

  /** The limbs after FeCombine's first eight carries: two runs, which share limb 4. */
  function FirstCarries(g: Limbs): Limbs {
    var hi := Ripple(Five(g.4, g.5, g.6, g.7, g.8));
    var lo := Ripple(Five(g.0, g.1, g.2, g.3, hi.0));
    Limbs(lo.0, lo.1, lo.2, lo.3, lo.4, hi.1, hi.2, hi.3, hi.4, g.9)
  }

  /** The limbs after the last four, the one out of the top included. */
  function LastCarries(f: Limbs): Limbs {
    var x5, x9 := f.5 + Up26(f.4), f.9 + Up26(f.8);
    var x0 := f.0 + Up25(x9) * 19;
    Limbs(Low26(x0), f.1 + Up26(x0), f.2, f.3, Low26(f.4), x5, f.6, f.7, Low26(f.8), Low25(x9))
  }

  /** Limbs that differ by carries, `c` of them out of the top, denote the same residue. */
  lemma WrappedCarry(h: Limbs, g: Limbs, c: int)
    requires Weighed(h) == Weighed(g) - c * (X255 - 19)
    ensures Cong(Val(h), Val(g), P)
  {
    ValSum(g);
    ValSum(h);
    PValue();
    CongIntro(Val(h), Val(g), -c, P);
  }

  /** After the first eight carries all limbs but 4, 8 and 9 are small. */
  predicate Settled(f: Limbs) {
    && Within(f.0, 0x200_0000) && Within(f.1, 0x100_0000) && Within(f.2, 0x200_0000) && Within(f.3, 0x100_0000)
    && Within(f.4, 0x41_0000_0000) && Within(f.5, 0x100_0000) && Within(f.6, 0x200_0000) && Within(f.7, 0x100_0000)
    && Within(f.8, 0x4200_0000_0000_0000) && Within(f.9, COMBINE_MAX)
  }

  predicate FiveCombinable(a: Five) {
    && Within(a.0, COMBINE_MAX) && Within(a.1, COMBINE_MAX) && Within(a.2, COMBINE_MAX)
    && Within(a.3, COMBINE_MAX) && Within(a.4, COMBINE_MAX)
  }

  method CarryRun(a: Five) returns (b: Five)
    requires FiveCombinable(a)
    ensures b == Ripple(a)
    ensures Within(b.0, 0x200_0000) && Within(b.1, 0x100_0000) && Within(b.2, 0x200_0000) && Within(b.3, 0x100_0000)
    ensures Within(b.4 - a.4, 0x40_0000_0000)
  {
    var b0, b1, b2, b3, b4: int64;
    b0, b1 := RoundCarry26(a.0, a.1);
    b1, b2 := RoundCarry25(b1, a.2);
    b2, b3 := RoundCarry26(b2, a.3);
    b3, b4 := RoundCarry25(b3, a.4);
    b := Five(b0, b1, b2, b3, b4);
  }

  // the program interleaves the two runs, which share only limb 4, carried from before it is carried into
  method CarryFirst(g: Columns) returns (f: Columns)
    requires Combinable(g)
    ensures f == FirstCarries(g) && Settled(f)
  {
    var hi := CarryRun(Five(g.4, g.5, g.6, g.7, g.8));
    var lo := CarryRun(Five(g.0, g.1, g.2, g.3, hi.0));
    f := Limbs(lo.0, lo.1, lo.2, lo.3, lo.4, hi.1, hi.2, hi.3, hi.4, g.9);
  }

  method CarryLast(f: Columns) returns (h: Fe)
    requires Settled(f)
    ensures h == LastCarries(f) && Bounded(h, 1)
  {
    var h0, h1, h4, h5, h8, h9, c9: int64;

    h4, h5 := RoundCarry26(f.4, f.5);
    h8, h9 := RoundCarry26(f.8, f.9);

    // the carry out of the top limb re-enters at the bottom, since 2^255 is 19 mod P
    h9, c9 := RoundCarry25(h9, 0);
    h0 := f.0 + c9 * 19;

    h0, h1 := RoundCarry26(h0, f.1);

    h := Limbs(h0, h1, f.2, f.3, h4, h5, f.6, f.7, h8, h9);
    BoundedLimbs(h, 1);
  }

  /** The carries keep the value, but for multiples of P that leave at the top. */
  lemma CarriesWeighed(g: Limbs) returns (c: int)
    ensures Weighed(LastCarries(FirstCarries(g))) == Weighed(g) - c * (X255 - 19)
  {
    c := LastCarriesWeighed(FirstCarries(g));
    FirstCarriesWeighed(g);
  }

  lemma FirstCarriesWeighed(g: Limbs)
    ensures Weighed(FirstCarries(g)) == Weighed(g)
  {
  }

  lemma LastCarriesWeighed(f: Limbs) returns (c: int)
    ensures Weighed(LastCarries(f)) == Weighed(f) - c * (X255 - 19)
  {
    c := Up25(f.9 + Up26(f.8));
  }

  /** The result is determined limb for limb by the columns. */
  method FeCombine(g: Columns) returns (h: Fe)
    requires Combinable(g)
    ensures Bounded(h, 1)
    ensures Cong(Val(h), Val(g), P)
    ensures h == LastCarries(FirstCarries(g))
  {
    var f := CarryFirst(g);
    h := CarryLast(f);
    ghost var c := CarriesWeighed(g);
    WrappedCarry(h, g, c);
  }

  method FeZero() returns (h: Fe)
    ensures h == Limbs(0, 0, 0, 0, 0, 0, 0, 0, 0, 0)
    ensures Bounded(h, 1) && Val(h) == 0
  {
    h := Limbs(0, 0, 0, 0, 0, 0, 0, 0, 0, 0);
    BoundedLimbs(h, 1);
    ValSum(h);
  }

  method FeOne() returns (h: Fe)
    ensures Bounded(h, 1) && Val(h) == 1
  {
    h := FeZero();
    h := h.(0 := 1);
    BoundedLimbs(h, 1);
    ValSum(h);
    assert Val(h) == Weighed(h) == 1;
  }

  method FeAdd(a: Fe, b: Fe, ghost m: nat, ghost n: nat, ghost k: nat) returns (h: Fe)
    requires Bounded(a, m) && Bounded(b, n) && m + n <= k <= 58
    ensures Bounded(h, k)
    ensures Val(h) == Val(a) + Val(b)
  {
    BoundedLimbs(a, m);
    BoundedLimbs(b, n);
    h := Limbs(a.0 + b.0, a.1 + b.1, a.2 + b.2, a.3 + b.3, a.4 + b.4,
               a.5 + b.5, a.6 + b.6, a.7 + b.7, a.8 + b.8, a.9 + b.9);
    assert Bounded(h, k) by { BoundedLimbs(h, k); }
    assert Val(h) == Val(a) + Val(b) by { ValSum(a); ValSum(b); ValSum(h); }
  }

  method FeSub(a: Fe, b: Fe, ghost m: nat, ghost n: nat, ghost k: nat) returns (h: Fe)
    requires Bounded(a, m) && Bounded(b, n) && m + n <= k <= 58
    ensures Bounded(h, k)
    ensures Val(h) == Val(a) - Val(b)
  {
    BoundedLimbs(a, m);
    BoundedLimbs(b, n);
    h := Limbs(a.0 - b.0, a.1 - b.1, a.2 - b.2, a.3 - b.3, a.4 - b.4,
               a.5 - b.5, a.6 - b.6, a.7 - b.7, a.8 - b.8, a.9 - b.9);
    assert Bounded(h, k) by { BoundedLimbs(h, k); }
    assert Val(h) == Val(a) - Val(b) by { ValSum(a); ValSum(b); ValSum(h); }
  }

  method FeNeg(f: Fe, ghost n: nat) returns (h: Fe)
    requires Bounded(f, n) && n <= 58
    ensures Bounded(h, n)
    ensures Val(h) == -Val(f)
  {
    BoundedLimbs(f, n);
    h := Limbs(-f.0, -f.1, -f.2, -f.3, -f.4, -f.5, -f.6, -f.7, -f.8, -f.9);
    assert Bounded(h, n) by { BoundedLimbs(h, n); }
    assert Val(h) == -Val(f) by { ValSum(f); ValSum(h); }
  }

  /** The ten column sums of FeMul. */
  function ProductLimbs(f: Limbs, g: Limbs): Limbs {
    var f1_2, f3_2, f5_2, f7_2, f9_2 := 2 * f.1, 2 * f.3, 2 * f.5, 2 * f.7, 2 * f.9;
    var g1_19, g2_19, g3_19, g4_19, g5_19, g6_19, g7_19, g8_19, g9_19 :=
      19 * g.1, 19 * g.2, 19 * g.3, 19 * g.4, 19 * g.5, 19 * g.6, 19 * g.7, 19 * g.8, 19 * g.9;
    Limbs(
      f.0*g.0 + f1_2*g9_19 + f.2*g8_19 + f3_2*g7_19 + f.4*g6_19 + f5_2*g5_19 + f.6*g4_19 + f7_2*g3_19 + f.8*g2_19
          + f9_2*g1_19,
      f.0*g.1 + f.1*g.0 + f.2*g9_19 + f.3*g8_19 + f.4*g7_19 + f.5*g6_19 + f.6*g5_19 + f.7*g4_19 + f.8*g3_19 + f.9*g2_19,
      f.0*g.2 + f1_2*g.1 + f.2*g.0 + f3_2*g9_19 + f.4*g8_19 + f5_2*g7_19 + f.6*g6_19 + f7_2*g5_19 + f.8*g4_19
          + f9_2*g3_19,
      f.0*g.3 + f.1*g.2 + f.2*g.1 + f.3*g.0 + f.4*g9_19 + f.5*g8_19 + f.6*g7_19 + f.7*g6_19 + f.8*g5_19 + f.9*g4_19,
      f.0*g.4 + f1_2*g.3 + f.2*g.2 + f3_2*g.1 + f.4*g.0 + f5_2*g9_19 + f.6*g8_19 + f7_2*g7_19 + f.8*g6_19 + f9_2*g5_19,
      f.0*g.5 + f.1*g.4 + f.2*g.3 + f.3*g.2 + f.4*g.1 + f.5*g.0 + f.6*g9_19 + f.7*g8_19 + f.8*g7_19 + f.9*g6_19,
      f.0*g.6 + f1_2*g.5 + f.2*g.4 + f3_2*g.3 + f.4*g.2 + f5_2*g.1 + f.6*g.0 + f7_2*g9_19 + f.8*g8_19 + f9_2*g7_19,
      f.0*g.7 + f.1*g.6 + f.2*g.5 + f.3*g.4 + f.4*g.3 + f.5*g.2 + f.6*g.1 + f.7*g.0 + f.8*g9_19 + f.9*g8_19,
      f.0*g.8 + f1_2*g.7 + f.2*g.6 + f3_2*g.5 + f.4*g.4 + f5_2*g.3 + f.6*g.2 + f7_2*g.1 + f.8*g.0 + f9_2*g9_19,
      f.0*g.9 + f.1*g.8 + f.2*g.7 + f.3*g.6 + f.4*g.5 + f.5*g.4 + f.6*g.3 + f.7*g.2 + f.8*g.1 + f.9*g.0)
  }

  lemma ProductIdentity(f0: int, f1: int, f2: int, f3: int, f4: int, f5: int, f6: int, f7: int, f8: int, f9: int,
                        g0: int, g1: int, g2: int, g3: int, g4: int, g5: int, g6: int, g7: int, g8: int, g9: int)
    returns (q: int)
    ensures (f0 + W1*f1 + W2*f2 + W3*f3 + W4*f4 + W5*f5 + W6*f6 + W7*f7 + W8*f8 + W9*f9)
          * (g0 + W1*g1 + W2*g2 + W3*g3 + W4*g4 + W5*g5 + W6*g6 + W7*g7 + W8*g8 + W9*g9)
         == (f0*g0 + (2*f1)*(19*g9) + f2*(19*g8) + (2*f3)*(19*g7) + f4*(19*g6) + (2*f5)*(19*g5) + f6*(19*g4)
             + (2*f7)*(19*g3) + f8*(19*g2) + (2*f9)*(19*g1))
          + W1*(f0*g1 + f1*g0 + f2*(19*g9) + f3*(19*g8) + f4*(19*g7) + f5*(19*g6) + f6*(19*g5) + f7*(19*g4)
              + f8*(19*g3) + f9*(19*g2))
          + W2*(f0*g2 + (2*f1)*g1 + f2*g0 + (2*f3)*(19*g9) + f4*(19*g8) + (2*f5)*(19*g7) + f6*(19*g6)
              + (2*f7)*(19*g5) + f8*(19*g4) + (2*f9)*(19*g3))
          + W3*(f0*g3 + f1*g2 + f2*g1 + f3*g0 + f4*(19*g9) + f5*(19*g8) + f6*(19*g7) + f7*(19*g6) + f8*(19*g5)
              + f9*(19*g4))
          + W4*(f0*g4 + (2*f1)*g3 + f2*g2 + (2*f3)*g1 + f4*g0 + (2*f5)*(19*g9) + f6*(19*g8) + (2*f7)*(19*g7)
              + f8*(19*g6) + (2*f9)*(19*g5))
          + W5*(f0*g5 + f1*g4 + f2*g3 + f3*g2 + f4*g1 + f5*g0 + f6*(19*g9) + f7*(19*g8) + f8*(19*g7) + f9*(19*g6))
          + W6*(f0*g6 + (2*f1)*g5 + f2*g4 + (2*f3)*g3 + f4*g2 + (2*f5)*g1 + f6*g0 + (2*f7)*(19*g9) + f8*(19*g8)
              + (2*f9)*(19*g7))
          + W7*(f0*g7 + f1*g6 + f2*g5 + f3*g4 + f4*g3 + f5*g2 + f6*g1 + f7*g0 + f8*(19*g9) + f9*(19*g8))
          + W8*(f0*g8 + (2*f1)*g7 + f2*g6 + (2*f3)*g5 + f4*g4 + (2*f5)*g3 + f6*g2 + (2*f7)*g1 + f8*g0 + (2*f9)*(19*g9))
          + W9*(f0*g9 + f1*g8 + f2*g7 + f3*g6 + f4*g5 + f5*g4 + f6*g3 + f7*g2 + f8*g1 + f9*g0)
          + q * (X255 - 19)
  {
    q := (2*f1*g9 + f2*g8 + 2*f3*g7 + f4*g6 + 2*f5*g5 + f6*g4 + 2*f7*g3 + f8*g2 + 2*f9*g1)
       + W1*(f2*g9 + f3*g8 + f4*g7 + f5*g6 + f6*g5 + f7*g4 + f8*g3 + f9*g2)
       + W2*(2*f3*g9 + f4*g8 + 2*f5*g7 + f6*g6 + 2*f7*g5 + f8*g4 + 2*f9*g3)
       + W3*(f4*g9 + f5*g8 + f6*g7 + f7*g6 + f8*g5 + f9*g4)
       + W4*(2*f5*g9 + f6*g8 + 2*f7*g7 + f8*g6 + 2*f9*g5)
       + W5*(f6*g9 + f7*g8 + f8*g7 + f9*g6)
       + W6*(2*f7*g9 + f8*g8 + 2*f9*g7)
       + W7*(f8*g9 + f9*g8)
       + W8*(2*f9*g9);
  }

  /** The columns are the product but for a multiple of P: what is dropped when 2^255 becomes 19. */
  lemma ProductValue(f: Limbs, g: Limbs) returns (q: int)
    ensures Weighed(f) * Weighed(g) == Weighed(ProductLimbs(f, g)) + q * (X255 - 19)
  {
    q := ProductIdentity(f.0, f.1, f.2, f.3, f.4, f.5, f.6, f.7, f.8, f.9,
                         g.0, g.1, g.2, g.3, g.4, g.5, g.6, g.7, g.8, g.9);
  }

  lemma WeighedCong(f: Limbs, g: Limbs, h: Limbs, q: int)
    requires Weighed(f) * Weighed(g) == Weighed(h) + q * (X255 - 19)
    ensures Cong(Val(h), Val(f) * Val(g), P)
  {
    ValSum(f);
    ValSum(g);
    ValSum(h);
    PValue();
    CongIntro(Val(h), Val(f) * Val(g), -q, P);
  }

  lemma ProductCong(f: Limbs, g: Limbs)
    ensures Cong(Val(ProductLimbs(f, g)), Val(f) * Val(g), P)
  {
    var q := ProductValue(f, g);
    WeighedCong(f, g, ProductLimbs(f, g), q);
  }

  lemma ProductWithin(x: int, y: int, a: int, b: int)
    requires Within(x, a) && Within(y, b)
    ensures Within(x * y, a * b)
  {
  }

  const LIMB_MAX := 3 * EVEN_UNIT

  lemma TenProducts(x0: int, x1: int, x2: int, x3: int, x4: int, x5: int, x6: int, x7: int, x8: int, x9: int,
                    y0: int, y1: int, y2: int, y3: int, y4: int, y5: int, y6: int, y7: int, y8: int, y9: int)
    requires Within(x0, LIMB_MAX) && Within(x1, LIMB_MAX) && Within(x2, LIMB_MAX) && Within(x3, LIMB_MAX)
    requires Within(x4, LIMB_MAX) && Within(x5, LIMB_MAX) && Within(x6, LIMB_MAX) && Within(x7, LIMB_MAX)
    requires Within(x8, LIMB_MAX) && Within(x9, LIMB_MAX)
    requires Within(y0, 19 * LIMB_MAX) && Within(y1, 19 * LIMB_MAX) && Within(y2, 19 * LIMB_MAX)
    requires Within(y3, 19 * LIMB_MAX) && Within(y4, 19 * LIMB_MAX) && Within(y5, 19 * LIMB_MAX)
    requires Within(y6, 19 * LIMB_MAX) && Within(y7, 19 * LIMB_MAX) && Within(y8, 19 * LIMB_MAX)
    requires Within(y9, 19 * LIMB_MAX)
    ensures Within(x0*y0 + x1*y1 + x2*y2 + x3*y3 + x4*y4 + x5*y5 + x6*y6 + x7*y7 + x8*y8 + x9*y9, COMBINE_MAX / 2)
  {
    ProductWithin(x0, y0, LIMB_MAX, 19 * LIMB_MAX);
    ProductWithin(x1, y1, LIMB_MAX, 19 * LIMB_MAX);
    ProductWithin(x2, y2, LIMB_MAX, 19 * LIMB_MAX);
    ProductWithin(x3, y3, LIMB_MAX, 19 * LIMB_MAX);
    ProductWithin(x4, y4, LIMB_MAX, 19 * LIMB_MAX);
    ProductWithin(x5, y5, LIMB_MAX, 19 * LIMB_MAX);
    ProductWithin(x6, y6, LIMB_MAX, 19 * LIMB_MAX);
    ProductWithin(x7, y7, LIMB_MAX, 19 * LIMB_MAX);
    ProductWithin(x8, y8, LIMB_MAX, 19 * LIMB_MAX);
    ProductWithin(x9, y9, LIMB_MAX, 19 * LIMB_MAX);
  }

  predicate HalfCombinable(h: Limbs) {
    && Within(h.0, COMBINE_MAX / 2) && Within(h.1, COMBINE_MAX / 2) && Within(h.2, COMBINE_MAX / 2)
    && Within(h.3, COMBINE_MAX / 2) && Within(h.4, COMBINE_MAX / 2) && Within(h.5, COMBINE_MAX / 2)
    && Within(h.6, COMBINE_MAX / 2) && Within(h.7, COMBINE_MAX / 2) && Within(h.8, COMBINE_MAX / 2)
    && Within(h.9, COMBINE_MAX / 2)
  }

  lemma ProductLimbsWithin(f: Limbs, g: Limbs)
    requires Bounded(f, 3) && Bounded(g, 3)
    ensures HalfCombinable(ProductLimbs(f, g))
  {
    BoundedLimbs(f, 3);
    BoundedLimbs(g, 3);
    var f1_2, f3_2, f5_2, f7_2, f9_2 := 2 * f.1, 2 * f.3, 2 * f.5, 2 * f.7, 2 * f.9;
    var g1_19, g2_19, g3_19, g4_19, g5_19, g6_19, g7_19, g8_19, g9_19 :=
      19 * g.1, 19 * g.2, 19 * g.3, 19 * g.4, 19 * g.5, 19 * g.6, 19 * g.7, 19 * g.8, 19 * g.9;
    TenProducts(f.0, f1_2, f.2, f3_2, f.4, f5_2, f.6, f7_2, f.8, f9_2,
                g.0, g9_19, g8_19, g7_19, g6_19, g5_19, g4_19, g3_19, g2_19, g1_19);
    TenProducts(f.0, f.1, f.2, f.3, f.4, f.5, f.6, f.7, f.8, f.9,
                g.1, g.0, g9_19, g8_19, g7_19, g6_19, g5_19, g4_19, g3_19, g2_19);
    TenProducts(f.0, f1_2, f.2, f3_2, f.4, f5_2, f.6, f7_2, f.8, f9_2,
                g.2, g.1, g.0, g9_19, g8_19, g7_19, g6_19, g5_19, g4_19, g3_19);
    TenProducts(f.0, f.1, f.2, f.3, f.4, f.5, f.6, f.7, f.8, f.9,
                g.3, g.2, g.1, g.0, g9_19, g8_19, g7_19, g6_19, g5_19, g4_19);
    TenProducts(f.0, f1_2, f.2, f3_2, f.4, f5_2, f.6, f7_2, f.8, f9_2,
                g.4, g.3, g.2, g.1, g.0, g9_19, g8_19, g7_19, g6_19, g5_19);
    TenProducts(f.0, f.1, f.2, f.3, f.4, f.5, f.6, f.7, f.8, f.9,
                g.5, g.4, g.3, g.2, g.1, g.0, g9_19, g8_19, g7_19, g6_19);
    TenProducts(f.0, f1_2, f.2, f3_2, f.4, f5_2, f.6, f7_2, f.8, f9_2,
                g.6, g.5, g.4, g.3, g.2, g.1, g.0, g9_19, g8_19, g7_19);
    TenProducts(f.0, f.1, f.2, f.3, f.4, f.5, f.6, f.7, f.8, f.9,
                g.7, g.6, g.5, g.4, g.3, g.2, g.1, g.0, g9_19, g8_19);
    TenProducts(f.0, f1_2, f.2, f3_2, f.4, f5_2, f.6, f7_2, f.8, f9_2,
                g.8, g.7, g.6, g.5, g.4, g.3, g.2, g.1, g.0, g9_19);
    TenProducts(f.0, f.1, f.2, f.3, f.4, f.5, f.6, f.7, f.8, f.9,
                g.9, g.8, g.7, g.6, g.5, g.4, g.3, g.2, g.1, g.0);
  }

  lemma SymmetricColumns(f0: int, f1: int, f2: int, f3: int, f4: int, f5: int, f6: int, f7: int, f8: int, f9: int)
    ensures f0*f0 + (2*f1)*(38*f9) + (2*f2)*(19*f8) + (2*f3)*(38*f7) + (2*f4)*(19*f6) + f5*(38*f5)
         == f0*f0 + (2*f1)*(19*f9) + f2*(19*f8) + (2*f3)*(19*f7) + f4*(19*f6) + (2*f5)*(19*f5) + f6*(19*f4)
             + (2*f7)*(19*f3) + f8*(19*f2) + (2*f9)*(19*f1)
    ensures (2*f0)*f1 + f2*(38*f9) + (2*f3)*(19*f8) + f4*(38*f7) + (2*f5)*(19*f6)
         == f0*f1 + f1*f0 + f2*(19*f9) + f3*(19*f8) + f4*(19*f7) + f5*(19*f6) + f6*(19*f5) + f7*(19*f4) + f8*(19*f3)
             + f9*(19*f2)
    ensures (2*f0)*f2 + (2*f1)*f1 + (2*f3)*(38*f9) + (2*f4)*(19*f8) + (2*f5)*(38*f7) + f6*(19*f6)
         == f0*f2 + (2*f1)*f1 + f2*f0 + (2*f3)*(19*f9) + f4*(19*f8) + (2*f5)*(19*f7) + f6*(19*f6) + (2*f7)*(19*f5)
             + f8*(19*f4) + (2*f9)*(19*f3)
    ensures (2*f0)*f3 + (2*f1)*f2 + f4*(38*f9) + (2*f5)*(19*f8) + f6*(38*f7)
         == f0*f3 + f1*f2 + f2*f1 + f3*f0 + f4*(19*f9) + f5*(19*f8) + f6*(19*f7) + f7*(19*f6) + f8*(19*f5) + f9*(19*f4)
    ensures (2*f0)*f4 + (2*f1)*(2*f3) + f2*f2 + (2*f5)*(38*f9) + (2*f6)*(19*f8) + f7*(38*f7)
         == f0*f4 + (2*f1)*f3 + f2*f2 + (2*f3)*f1 + f4*f0 + (2*f5)*(19*f9) + f6*(19*f8) + (2*f7)*(19*f7)
             + f8*(19*f6) + (2*f9)*(19*f5)
    ensures (2*f0)*f5 + (2*f1)*f4 + (2*f2)*f3 + f6*(38*f9) + (2*f7)*(19*f8)
         == f0*f5 + f1*f4 + f2*f3 + f3*f2 + f4*f1 + f5*f0 + f6*(19*f9) + f7*(19*f8) + f8*(19*f7) + f9*(19*f6)
    ensures (2*f0)*f6 + (2*f1)*(2*f5) + (2*f2)*f4 + (2*f3)*f3 + (2*f7)*(38*f9) + f8*(19*f8)
         == f0*f6 + (2*f1)*f5 + f2*f4 + (2*f3)*f3 + f4*f2 + (2*f5)*f1 + f6*f0 + (2*f7)*(19*f9) + f8*(19*f8)
             + (2*f9)*(19*f7)
    ensures (2*f0)*f7 + (2*f1)*f6 + (2*f2)*f5 + (2*f3)*f4 + f8*(38*f9)
         == f0*f7 + f1*f6 + f2*f5 + f3*f4 + f4*f3 + f5*f2 + f6*f1 + f7*f0 + f8*(19*f9) + f9*(19*f8)
    ensures (2*f0)*f8 + (2*f1)*(2*f7) + (2*f2)*f6 + (2*f3)*(2*f5) + f4*f4 + f9*(38*f9)
         == f0*f8 + (2*f1)*f7 + f2*f6 + (2*f3)*f5 + f4*f4 + (2*f5)*f3 + f6*f2 + (2*f7)*f1 + f8*f0 + (2*f9)*(19*f9)
    ensures (2*f0)*f9 + (2*f1)*f8 + (2*f2)*f7 + (2*f3)*f6 + (2*f4)*f5
         == f0*f9 + f1*f8 + f2*f7 + f3*f6 + f4*f5 + f5*f4 + f6*f3 + f7*f2 + f8*f1 + f9*f0
  {
  }

  /** The column sums of a product. */
  method FeMulLimbs(f: Fe, g: Fe) returns (h: Columns)
    requires Bounded(f, 3) && Bounded(g, 3)
    ensures h == ProductLimbs(f, g) && HalfCombinable(h)
  {
    BoundedLimbs(f, 3);
    BoundedLimbs(g, 3);
    var f1_2: int32, f3_2: int32, f5_2: int32, f7_2: int32, f9_2: int32 :=
      2 * f.1, 2 * f.3, 2 * f.5, 2 * f.7, 2 * f.9;
    var g1_19: int32, g2_19: int32, g3_19: int32 := 19 * g.1, 19 * g.2, 19 * g.3;
    var g4_19: int32, g5_19: int32, g6_19: int32 := 19 * g.4, 19 * g.5, 19 * g.6;
    var g7_19: int32, g8_19: int32, g9_19: int32 := 19 * g.7, 19 * g.8, 19 * g.9;

    ProductLimbsWithin(f, g);
    h := Limbs(
      f.0*g.0 + f1_2*g9_19 + f.2*g8_19 + f3_2*g7_19 + f.4*g6_19 + f5_2*g5_19 + f.6*g4_19 + f7_2*g3_19 + f.8*g2_19
          + f9_2*g1_19,
      f.0*g.1 + f.1*g.0 + f.2*g9_19 + f.3*g8_19 + f.4*g7_19 + f.5*g6_19 + f.6*g5_19 + f.7*g4_19 + f.8*g3_19 + f.9*g2_19,
      f.0*g.2 + f1_2*g.1 + f.2*g.0 + f3_2*g9_19 + f.4*g8_19 + f5_2*g7_19 + f.6*g6_19 + f7_2*g5_19 + f.8*g4_19
          + f9_2*g3_19,
      f.0*g.3 + f.1*g.2 + f.2*g.1 + f.3*g.0 + f.4*g9_19 + f.5*g8_19 + f.6*g7_19 + f.7*g6_19 + f.8*g5_19 + f.9*g4_19,
      f.0*g.4 + f1_2*g.3 + f.2*g.2 + f3_2*g.1 + f.4*g.0 + f5_2*g9_19 + f.6*g8_19 + f7_2*g7_19 + f.8*g6_19 + f9_2*g5_19,
      f.0*g.5 + f.1*g.4 + f.2*g.3 + f.3*g.2 + f.4*g.1 + f.5*g.0 + f.6*g9_19 + f.7*g8_19 + f.8*g7_19 + f.9*g6_19,
      f.0*g.6 + f1_2*g.5 + f.2*g.4 + f3_2*g.3 + f.4*g.2 + f5_2*g.1 + f.6*g.0 + f7_2*g9_19 + f.8*g8_19 + f9_2*g7_19,
      f.0*g.7 + f.1*g.6 + f.2*g.5 + f.3*g.4 + f.4*g.3 + f.5*g.2 + f.6*g.1 + f.7*g.0 + f.8*g9_19 + f.9*g8_19,
      f.0*g.8 + f1_2*g.7 + f.2*g.6 + f3_2*g.5 + f.4*g.4 + f5_2*g.3 + f.6*g.2 + f7_2*g.1 + f.8*g.0 + f9_2*g9_19,
      f.0*g.9 + f.1*g.8 + f.2*g.7 + f.3*g.6 + f.4*g.5 + f.5*g.4 + f.6*g.3 + f.7*g.2 + f.8*g.1 + f.9*g.0);
  }

  predicate LimbForLimb(k: int) {
    k == 0
  }

  /** The limbs that carrying the columns of the product leaves.  Stated through a quantifier, so that it
      unfolds only where `LimbForLimb(0)` is mentioned. */
  ghost predicate IsProduct(h: Limbs, f: Limbs, g: Limbs) {
    forall k {:trigger LimbForLimb(k)} :: LimbForLimb(k) ==> h == LastCarries(FirstCarries(ProductLimbs(f, g)))
  }

  /** A product is determined limb for limb; so FeSquare(f) is FeMul(f, f). */
  lemma ProductDetermined(h: Limbs, h': Limbs, f: Limbs, g: Limbs)
    requires IsProduct(h, f, g) && IsProduct(h', f, g)
    ensures h == h'
  {
    assert LimbForLimb(0);
  }

  method FeMul(f: Fe, g: Fe) returns (h: Fe)
    requires Bounded(f, 3) && Bounded(g, 3)
    ensures Bounded(h, 1)
    ensures Cong(Val(h), Val(f) * Val(g), P)
    ensures IsProduct(h, f, g)
  {
    var columns := FeMulLimbs(f, g);
    h := FeCombine(columns);
    ProductCong(f, g);
  }

  /** The column sums of a square: limb for limb those of `f` times `f`, from half the products. */
  method FeSquareLimbs(f: Fe) returns (h: Columns)
    requires Bounded(f, 3)
    ensures h == ProductLimbs(f, f) && HalfCombinable(h)
  {
    BoundedLimbs(f, 3);
    var f0_2: int32, f1_2: int32, f2_2: int32, f3_2: int32 := 2 * f.0, 2 * f.1, 2 * f.2, 2 * f.3;
    var f4_2: int32, f5_2: int32, f6_2: int32, f7_2: int32 := 2 * f.4, 2 * f.5, 2 * f.6, 2 * f.7;
    var f5_38: int64, f6_19: int64, f7_38: int64 := 38 * f.5, 19 * f.6, 38 * f.7;
    var f8_19: int64, f9_38: int64 := 19 * f.8, 38 * f.9;

    ProductLimbsWithin(f, f);
    SymmetricColumns(f.0, f.1, f.2, f.3, f.4, f.5, f.6, f.7, f.8, f.9);
    h := Limbs(
      f.0*f.0 + f1_2*f9_38 + f2_2*f8_19 + f3_2*f7_38 + f4_2*f6_19 + f.5*f5_38,
      f0_2*f.1 + f.2*f9_38 + f3_2*f8_19 + f.4*f7_38 + f5_2*f6_19,
      f0_2*f.2 + f1_2*f.1 + f3_2*f9_38 + f4_2*f8_19 + f5_2*f7_38 + f.6*f6_19,
      f0_2*f.3 + f1_2*f.2 + f.4*f9_38 + f5_2*f8_19 + f.6*f7_38,
      f0_2*f.4 + f1_2*f3_2 + f.2*f.2 + f5_2*f9_38 + f6_2*f8_19 + f.7*f7_38,
      f0_2*f.5 + f1_2*f.4 + f2_2*f.3 + f.6*f9_38 + f7_2*f8_19,
      f0_2*f.6 + f1_2*f5_2 + f2_2*f.4 + f3_2*f.3 + f7_2*f9_38 + f.8*f8_19,
      f0_2*f.7 + f1_2*f.6 + f2_2*f.5 + f3_2*f.4 + f.8*f9_38,
      f0_2*f.8 + f1_2*f7_2 + f2_2*f.6 + f3_2*f5_2 + f.4*f.4 + f.9*f9_38,
      f0_2*f.9 + f1_2*f.8 + f2_2*f.7 + f3_2*f.6 + f4_2*f.5);
  }

  /** The same limbs as FeMul(f, f). */
  method FeSquare(f: Fe) returns (h: Fe)
    requires Bounded(f, 3)
    ensures Bounded(h, 1)
    ensures Cong(Val(h), Val(f) * Val(f), P)
    ensures IsProduct(h, f, f)
  {
    var columns := FeSquareLimbs(f);
    h := FeCombine(columns);
    ProductCong(f, f);
  }

  method FeSquare2(f: Fe) returns (h: Fe)
    requires Bounded(f, 3)
    ensures Bounded(h, 1)
    ensures Cong(Val(h), 2 * (Val(f) * Val(f)), P)
  {
    var s := FeSquareLimbs(f);
    var columns: Columns := Limbs(s.0 + s.0, s.1 + s.1, s.2 + s.2, s.3 + s.3, s.4 + s.4,
                                       s.5 + s.5, s.6 + s.6, s.7 + s.7, s.8 + s.8, s.9 + s.9);
    h := FeCombine(columns);
    ProductCong(f, f);
    DoubledValue(s, columns, Val(f) * Val(f));
  }

  lemma DoubledValue(s: Limbs, t: Limbs, v: int)
    requires t == Limbs(s.0 + s.0, s.1 + s.1, s.2 + s.2, s.3 + s.3, s.4 + s.4,
                        s.5 + s.5, s.6 + s.6, s.7 + s.7, s.8 + s.8, s.9 + s.9)
    requires P > 0 && Cong(Val(s), v, P)
    ensures Cong(Val(t), 2 * v, P)
  {
    ValSum(s);
    ValSum(t);
    CongMul(2, 2, Val(s), v, P);
  }
}
