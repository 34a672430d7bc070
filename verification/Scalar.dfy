/** Reduction modulo the group order in 21-bit limbs (edwards25519.go:1036-1793). */
module Scalar {
  import opened MachineInt
  import opened Congruence
  import opened FieldElement

  /** 2^252 + 27742317777372353535851937790883648493 */
  const L: int := 0x1000_0000_0000_0000_0000_0000_0000_0000_14de_f9de_a2f7_9cd6_5812_631a_5cf5_d3ed

  const X21 := 0x20_0000

  function Weight(k: nat): (w: nat)
    ensures w > 0
  {
    if k == 0 then 1 else X21 * Weight(k - 1)
  }

  /** The integer in limbs of radix 2^21, least significant first. */
  function Radix21(s: seq<int>): int {
    if s == [] then 0 else s[0] + X21 * Radix21(s[1..])
  }

  lemma {:induction false} Radix21Update(s: seq<int>, k: nat, x: int)
    requires k < |s|
    ensures Radix21(s[k := x]) == Radix21(s) + (x - s[k]) * Weight(k)
  {
    if k == 0 {
      assert s[0 := x][1..] == s[1..];
    } else {
      Radix21Update(s[1..], k - 1, x);
      assert s[k := x][1..] == s[1..][k - 1 := x];
      var d, w := x - s[k], Weight(k - 1);
      assert X21 * (d * w) == d * (X21 * w);
    }
  }

  lemma CarryCancels(a: int, b: int, c: int, w: int)
    ensures (a - c * X21 - a) * w + (b + c - b) * (X21 * w) == 0
  {
  }

  /** Moving `c` from limb i up to limb i + 1 keeps the value. */
  lemma Radix21Carry(s: seq<int>, i: nat, c: int)
    requires i + 1 < |s|
    ensures Radix21(s[i := s[i] - c * X21][i + 1 := s[i + 1] + c]) == Radix21(s)
  {
    Radix21Update(s, i, s[i] - c * X21);
    Radix21Update(s[i := s[i] - c * X21], i + 1, s[i + 1] + c);
    assert Weight(i + 1) == X21 * Weight(i);
    CarryCancels(s[i], s[i + 1], c, Weight(i));
  }

  /** Rounded carry out of limb i: leaves it in [-2^20, 2^20). */
  method RoundCarry(s: array<int64>, i: nat)
    requires i + 1 < s.Length
    requires Within(s[i], 0x4000_0000_0000_0000) && Within(s[i + 1], 0x4000_0000_0000_0000)
    modifies s
    ensures -0x10_0000 <= s[i] < 0x10_0000
    ensures s[i] + X21 * s[i + 1] == old(s[i] + X21 * s[i + 1])
    ensures forall k :: 0 <= k < s.Length && k != i && k != i + 1 ==> s[k] == old(s[k])
    ensures Radix21(s[..]) == old(Radix21(s[..]))
  {
    var carry: int64 := (s[i] + 0x10_0000) / X21;
    Radix21Carry(s[..], i, carry);
    s[i + 1] := s[i + 1] + carry;
    s[i] := s[i] - carry * X21;
    assert s[..] == old(s[..][i := s[i] - carry * X21][i + 1 := s[i + 1] + carry]);
  }

  /** Floor carry out of limb i: leaves it in [0, 2^21). */
  method FloorCarry(s: array<int64>, i: nat)
    requires i + 1 < s.Length
    requires Within(s[i], 0x4000_0000_0000_0000) && Within(s[i + 1], 0x4000_0000_0000_0000)
    modifies s
    ensures 0 <= s[i] < X21
    ensures s[i] + X21 * s[i + 1] == old(s[i] + X21 * s[i + 1])
    ensures forall k :: 0 <= k < s.Length && k != i && k != i + 1 ==> s[k] == old(s[k])
    ensures Radix21(s[..]) == old(Radix21(s[..]))
  {
    var carry: int64 := s[i] / X21;
    Radix21Carry(s[..], i, carry);
    s[i + 1] := s[i + 1] + carry;
    s[i] := s[i] - carry * X21;
    assert s[..] == old(s[..][i := s[i] - carry * X21][i + 1 := s[i + 1] + carry]);
  }

  method AddTo(s: array<int64>, k: nat, d: int64)
    requires k < s.Length && Within(s[k], 0x4000_0000_0000_0000) && Within(d, 0x2000_0000_0000_0000)
    modifies s
    ensures s[k] == old(s[k]) + d
    ensures forall j :: 0 <= j < s.Length && j != k ==> s[j] == old(s[j])
    ensures Radix21(s[..]) == old(Radix21(s[..])) + d * Weight(k)
  {
    Radix21Update(s[..], k, s[k] + d);
    s[k] := s[k] + d;
    assert s[..] == old(s[..][k := s[k] + d]);
  }

  /** The six products of a fold and the cleared limb together subtract a multiple of L,
      since 2^252 is -(L - 2^252), whose signed digits in radix 2^21 are the six constants. */
  lemma FoldDrops(x: int, w: int)
    ensures x * 666643 * w + x * 470296 * (X21 * w) + x * 654183 * (X21 * (X21 * w))
          - x * 997805 * (X21 * (X21 * (X21 * w))) + x * 136657 * (X21 * (X21 * (X21 * (X21 * w))))
          - x * 683901 * (X21 * (X21 * (X21 * (X21 * (X21 * w)))))
          - x * (0x1000_0000_0000_0000_0000_0000_0000_0000_0000_0000_0000_0000_0000_0000_0000_0000 * w)
         == (-x * w) * L
  {
  }

  lemma WeightUp(k: nat)
    ensures Weight(k + 5) == X21 * (X21 * (X21 * (X21 * (X21 * Weight(k)))))
    ensures Weight(k + 12)
        == 0x1000_0000_0000_0000_0000_0000_0000_0000_0000_0000_0000_0000_0000_0000_0000_0000 * Weight(k)
  {
    assert Weight(k + 2) == X21 * Weight(k + 1);
    assert Weight(k + 4) == X21 * Weight(k + 3);
    assert Weight(k + 6) == X21 * Weight(k + 5);
    assert Weight(k + 8) == X21 * Weight(k + 7);
    assert Weight(k + 10) == X21 * Weight(k + 9);
    assert Weight(k + 12) == X21 * Weight(k + 11);
  }

  lemma FoldKeepsResidue(v: int, v': int, x: int, k: nat)
    requires v' == v + (x * 666643) * Weight(k) + (x * 470296) * Weight(k + 1) + (x * 654183) * Weight(k + 2)
                     + (-(x * 997805)) * Weight(k + 3) + (x * 136657) * Weight(k + 4)
                     + (-(x * 683901)) * Weight(k + 5) + (-x) * Weight(k + 12)
    ensures Cong(v', v, L)
    ensures k == 0 ==> v' == v - x * L
  {
    var w := Weight(k);
    assert Weight(k + 1) == X21 * w && Weight(k + 2) == X21 * (X21 * w);
    assert Weight(k + 3) == X21 * (X21 * (X21 * w));
    assert Weight(k + 4) == X21 * (X21 * (X21 * (X21 * w)));
    WeightUp(k);
    FoldDrops(x, w);
    CongIntro(v', v, -x * w, L);
  }

  predicate AllWithin(s: seq<int>, lo: nat, hi: nat, bound: int) {
    hi <= |s| && forall k :: lo <= k < hi ==> Within(s[k], bound)
  }

  /** Adds the six products of `x` into limbs j to j + 5; `m` bounds its magnitude. */
  method AddProducts(s: array<int64>, j: nat, x: int64, ghost m: int)
    requires j + 6 <= s.Length && Within(x, m) && 0 <= m <= 0x100_0000_0000
    requires AllWithin(s[..], j, j + 6, 0x1000_0000_0000_0000)
    modifies s
    ensures forall k :: j <= k < j + 6 ==> Within(s[k] as int - old(s[k]), 0x10_0000 * m)
    ensures forall k :: 0 <= k < s.Length && !(j <= k < j + 6) ==> s[k] == old(s[k])
    ensures Radix21(s[..]) == old(Radix21(s[..])) + (x * 666643) * Weight(j) + (x * 470296) * Weight(j + 1)
              + (x * 654183) * Weight(j + 2) + (-(x * 997805)) * Weight(j + 3) + (x * 136657) * Weight(j + 4)
              + (-(x * 683901)) * Weight(j + 5)
  {
    assert forall k :: 0 <= k < s.Length ==> s[..][k] == s[k];
    AddTo(s, j, x * 666643);
    AddTo(s, j + 1, x * 470296);
    AddTo(s, j + 2, x * 654183);
    AddTo(s, j + 3, -(x * 997805));
    AddTo(s, j + 4, x * 136657);
    AddTo(s, j + 5, -(x * 683901));
  }

  /** Replaces limb i >= 12 by its six-limb residue. */
  method Fold(s: array<int64>, i: nat, ghost m: int)
    requires 12 <= i < s.Length
    requires Within(s[i], m) && 0 <= m <= 0x100_0000_0000
    requires AllWithin(s[..], i - 12, i - 6, 0x1000_0000_0000_0000)
    modifies s
    ensures s[i] == 0
    ensures forall k :: i - 12 <= k < i - 6 ==> Within(s[k] as int - old(s[k]), 0x10_0000 * m)
    ensures forall k :: 0 <= k < s.Length && k != i && !(i - 12 <= k < i - 6) ==> s[k] == old(s[k])
    ensures Cong(Radix21(s[..]), old(Radix21(s[..])), L)
    ensures i == 12 ==> Radix21(s[..]) == old(Radix21(s[..])) - old(s[12]) * L
  {
    var x := s[i];
    AddProducts(s, i - 12, x, m);
    AddTo(s, i, -x);
    FoldKeepsResidue(old(Radix21(s[..])), Radix21(s[..]), x, i - 12);
  }

  const B30 := 0x4000_0000
  const B34 := 0x4_0000_0000
  const B39 := 0x80_0000_0000
  const B53 := 0x20_0000_0000_0000
  const B54 := 0x40_0000_0000_0000
  const B60 := 0x1000_0000_0000_0000
  const B58 := 0x400_0000_0000_0000

  method FoldHigh(s: array<int64>)
    requires s.Length == 24 && AllWithin(s[..], 0, 24, B30)
    modifies s
    ensures AllWithin(s[..], 0, 6, B30) && AllWithin(s[..], 6, 17, B53) && Within(s[17], B30)
    ensures AllWithin(s[..], 18, 24, 0)
    ensures Cong(Radix21(s[..]), old(Radix21(s[..])), L)
  {
    Fold(s, 23, B30);
    Fold(s, 22, B30);
    Fold(s, 21, B30);
    Fold(s, 20, B30);
    Fold(s, 19, B30);
    Fold(s, 18, B30);
  }

  /** Rounded carries out of limbs i, i + 2 and i + 4, all of magnitude at most `m`;
      `q` bounds what each of the limbs between receives. */
  method CarryThree(s: array<int64>, i: nat, ghost m: int, ghost q: int)
    requires i + 6 <= s.Length
    requires 0 <= m <= B60 && m + 0x10_0000 <= q * X21
    requires forall k :: i <= k < i + 6 ==> Within(s[k], if (k - i) % 2 == 0 then m else B60)
    modifies s
    ensures forall k :: i <= k < i + 6 && (k - i) % 2 == 0 ==> Within(s[k], 0x10_0000)
    ensures forall k :: i <= k < i + 6 && (k - i) % 2 == 1 ==> Within(s[k] as int - old(s[k]), q)
    ensures forall k :: 0 <= k < s.Length && !(i <= k < i + 6) ==> s[k] == old(s[k])
    ensures Radix21(s[..]) == old(Radix21(s[..]))
  {
    RoundCarry(s, i);
    RoundCarry(s, i + 2);
    RoundCarry(s, i + 4);
  }

  method CarryFive(s: array<int64>, i: nat, ghost m: int, ghost q: int)
    requires i + 10 <= s.Length
    requires 0 <= m <= B60 && m + 0x10_0000 <= q * X21
    requires forall k :: i <= k < i + 10 ==> Within(s[k], if (k - i) % 2 == 0 then m else B60)
    modifies s
    ensures forall k :: i <= k < i + 10 && (k - i) % 2 == 0 ==> Within(s[k], 0x10_0000)
    ensures forall k :: i <= k < i + 10 && (k - i) % 2 == 1 ==> Within(s[k] as int - old(s[k]), q)
    ensures forall k :: 0 <= k < s.Length && !(i <= k < i + 10) ==> s[k] == old(s[k])
    ensures Radix21(s[..]) == old(Radix21(s[..]))
  {
    CarryThree(s, i, m, q);
    RoundCarry(s, i + 6);
    RoundCarry(s, i + 8);
  }

  method CarrySix(s: array<int64>, i: nat, ghost m: int, ghost q: int)
    requires i + 12 <= s.Length
    requires 0 <= m <= B60 && m + 0x10_0000 <= q * X21
    requires forall k :: i <= k < i + 12 ==> Within(s[k], if (k - i) % 2 == 0 then m else B60)
    modifies s
    ensures forall k :: i <= k < i + 12 && (k - i) % 2 == 0 ==> Within(s[k], 0x10_0000)
    ensures forall k :: i <= k < i + 12 && (k - i) % 2 == 1 ==> Within(s[k] as int - old(s[k]), q)
    ensures forall k :: 0 <= k < s.Length && !(i <= k < i + 12) ==> s[k] == old(s[k])
    ensures Radix21(s[..]) == old(Radix21(s[..]))
  {
    CarryThree(s, i, m, q);
    CarryThree(s, i + 6, m, q);
  }

  method FoldMiddle(s: array<int64>)
    requires s.Length == 24
    requires AllWithin(s[..], 0, 18, B34) && AllWithin(s[..], 18, 24, 0)
    modifies s
    ensures AllWithin(s[..], 0, 12, B58) && AllWithin(s[..], 12, 24, 0)
    ensures Cong(Radix21(s[..]), old(Radix21(s[..])), L)
  {
    Fold(s, 17, B34);
    Fold(s, 16, B34);
    Fold(s, 15, B34);
    Fold(s, 14, B34);
    Fold(s, 13, B34);
    Fold(s, 12, B34);
  }

  lemma {:induction false} Radix21Split(s: seq<int>, k: nat)
    requires k <= |s|
    ensures Radix21(s) == Radix21(s[..k]) + Weight(k) * Radix21(s[k..])
  {
    if k > 0 {
      Radix21Split(s[1..], k - 1);
      assert s[..k][1..] == s[1..][..k - 1] && s[1..][k - 1..] == s[k..];
      var w, r := Weight(k - 1), Radix21(s[k..]);
      assert X21 * (w * r) == (X21 * w) * r;
    } else {
      assert s[0..] == s && s[..0] == [];
    }
  }

  lemma {:induction false} Radix21Zero(s: seq<int>)
    requires AllWithin(s, 0, |s|, 0)
    ensures Radix21(s) == 0
  {
    if s != [] {
      Radix21Zero(s[1..]);
    }
  }

  /** Limbs of magnitude at most `b` make a value of magnitude less than 2 b 2^(21 (n - 1)). */
  lemma {:induction false} Radix21Magnitude(s: seq<int>, b: int)
    requires s != [] && b >= 0 && AllWithin(s, 0, |s|, b)
    ensures Within(Radix21(s), 2 * (b * Weight(|s| - 1)) - b)
  {
    if |s| > 1 {
      Radix21Magnitude(s[1..], b);
      var w := Weight(|s| - 2);
      assert b * (X21 * w) == X21 * (b * w);
    } else {
      assert s[1..] == [];
    }
  }

  predicate Digits(s: seq<int>, n: nat) {
    n <= |s| && forall k :: 0 <= k < n ==> 0 <= s[k] < X21
  }

  lemma {:induction false} DigitsRange(s: seq<int>)
    requires Digits(s, |s|)
    ensures 0 <= Radix21(s) < Weight(|s|)
  {
    if s != [] {
      DigitsRange(s[1..]);
    }
  }

  lemma WeightValues()
    ensures Weight(4) == 0x10_0000_0000_0000_0000_0000 && Weight(5) == 0x200_0000_0000_0000_0000_0000_0000
        && Weight(6) == 0x4000_0000_0000_0000_0000_0000_0000_0000
    ensures Weight(11) == 0x80_0000_0000_0000_0000_0000_0000_0000_0000_0000_0000_0000_0000_0000_0000
    ensures Weight(12) == 0x1000_0000_0000_0000_0000_0000_0000_0000_0000_0000_0000_0000_0000_0000_0000_0000
  {
    WeightUp(0);
    assert Weight(4) == X21 * Weight(3) && Weight(2) == X21 * Weight(1);
    WeightUp(6);
    assert Weight(12) == X21 * Weight(11);
  }

  /** The rounded carries leave the value well inside (-2^252, 2^252): only limb 11 reaches up to 2^251. */
  lemma BeforeFloor(s: seq<int>)
    requires |s| == 24 && AllWithin(s, 0, 6, B60) && AllWithin(s, 6, 11, B39) && Within(s[11], 0x10_0000)
    requires AllWithin(s, 12, 24, 0)
    ensures Within(Radix21(s), Weight(12) - 1)
  {
    Radix21Split(s, 6);
    Radix21Split(s[6..], 5);
    var low, mid, top := s[..6], s[6..][..5], s[6..][5..];
    Radix21Magnitude(low, B60);
    Radix21Magnitude(mid, B39);
    assert top[1..] == s[12..];
    Radix21Zero(top[1..]);
    WeightValues();
  }

  method FloorLow(s: array<int64>)
    requires s.Length == 24 && AllWithin(s[..], 0, 7, B60)
    modifies s
    ensures Digits(s[..], 6) && Within(s[6], 2 * B60)
    ensures forall k :: 7 <= k < 24 ==> s[k] == old(s[k])
    ensures Radix21(s[..]) == old(Radix21(s[..]))
  {
    FloorCarry(s, 0);
    FloorCarry(s, 1);
    FloorCarry(s, 2);
    FloorCarry(s, 3);
    FloorCarry(s, 4);
    FloorCarry(s, 5);
  }

  /** Floor carries out of limbs 0 to 10. */
  method FloorPass(s: array<int64>)
    requires s.Length == 24 && AllWithin(s[..], 0, 12, B60)
    modifies s
    ensures Digits(s[..], 11) && Within(s[11], 2 * B60)
    ensures forall k :: 12 <= k < 24 ==> s[k] == old(s[k])
    ensures Radix21(s[..]) == old(Radix21(s[..]))
  {
    FloorLow(s);
    FloorCarry(s, 6);
    FloorCarry(s, 7);
    FloorCarry(s, 8);
    FloorCarry(s, 9);
    FloorCarry(s, 10);
  }

  /** Over a run of digits, the first `n` limbs are the remainder mod Weight(n). */
  lemma TopOfDigits(s: seq<int>, n: nat)
    requires n < |s| && Digits(s, n) && AllWithin(s, n + 1, |s|, 0)
    ensures 0 <= Radix21(s) - Weight(n) * s[n] < Weight(n)
  {
    Radix21Split(s, n);
    DigitsRange(s[..n]);
    Radix21Zero(s[n + 1..]);
    assert Radix21(s[n..]) == s[n] by {
      assert s[n..][1..] == s[n + 1..];
    }
  }

  /** Folds what rounded carries left in limb 12 and carries with floors: the new limb 12 is a borrow. */
  method FinishCarry(s: array<int64>)
    requires s.Length == 24
    requires AllWithin(s[..], 0, 13, B39) && Within(s[11], 0x10_0000) && AllWithin(s[..], 13, 24, 0)
    modifies s
    ensures Digits(s[..], 12) && AllWithin(s[..], 13, 24, 0)
    ensures Within(Radix21(s[..]), Weight(12) - 1)
    ensures s[12] == if Radix21(s[..]) < 0 then -1 else 0
    ensures Cong(Radix21(s[..]), old(Radix21(s[..])), L)
  {
    Fold(s, 12, B39);
    BeforeFloor(s[..]);
    FloorPass(s);
    FloorCarry(s, 11);
    TopOfDigits(s[..], 12);
    WeightValues();
  }

  /** Folds that borrow, which adds L to a negative value, and carries once more. */
  method FinishBorrow(s: array<int64>)
    requires s.Length == 24
    requires Digits(s[..], 12) && AllWithin(s[..], 13, 24, 0)
    requires Within(Radix21(s[..]), Weight(12) - 1)
    requires s[12] == if Radix21(s[..]) < 0 then -1 else 0
    modifies s
    ensures Digits(s[..], 11) && 0 <= s[11] <= X21 && AllWithin(s[..], 12, 24, 0)
    ensures 0 <= Radix21(s[..]) < L
    ensures Cong(Radix21(s[..]), old(Radix21(s[..])), L)
  {
    WeightValues();
    Fold(s, 12, 1);
    FloorPass(s);
    TopOfDigits(s[..], 11);
  }

  /** Folds and carries limbs 23 to 18 away. */
  method ReduceHigh(s: array<int64>)
    requires s.Length == 24 && AllWithin(s[..], 0, 24, B30)
    modifies s
    ensures AllWithin(s[..], 0, 18, B34) && AllWithin(s[..], 18, 24, 0)
    ensures Cong(Radix21(s[..]), old(Radix21(s[..])), L)
  {
    FoldHigh(s);
    CarrySix(s, 6, B53, 0x1_0000_0001);
    CarryFive(s, 7, B54, 0x2_0000_0001);
  }

  /** Folds and carries limbs 17 to 12 away. */
  method ReduceLow(s: array<int64>)
    requires s.Length == 24 && AllWithin(s[..], 0, 18, B34) && AllWithin(s[..], 18, 24, 0)
    modifies s
    ensures AllWithin(s[..], 0, 13, B39) && Within(s[11], 0x10_0000) && AllWithin(s[..], 13, 24, 0)
    ensures Cong(Radix21(s[..]), old(Radix21(s[..])), L)
  {
    FoldMiddle(s);
    CarrySix(s, 0, B58, 0x20_0000_0001);
    CarrySix(s, 1, 2 * B58, 0x40_0000_0001);
  }

  /** The common tail of ScReduce and ScMulAdd: 24 limbs of about 30 bits down to [0, L). */
  method Reduce(s: array<int64>)
    requires s.Length == 24 && AllWithin(s[..], 0, 24, B30)
    modifies s
    ensures Digits(s[..], 11) && 0 <= s[11] <= X21 && AllWithin(s[..], 12, 24, 0)
    ensures Radix21(s[..]) == old(Radix21(s[..])) % L
  {
    ReduceHigh(s);
    ReduceLow(s);
    FinishCarry(s);
    FinishBorrow(s);
    DivModUnique(Radix21(s[..]), 0, Radix21(s[..]), L);
  }
}
