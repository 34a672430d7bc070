/** Scalars, challenges and the verification equation of Ed25519 signatures, single and collective. */
module Schnorr {
  import opened MachineInt
  import opened Congruence
  import opened Bytes
  import opened Scalar
  import opened AbelianGroup
  import opened SecretScalar
  import opened Masks

  // scalars

  /** The order of the base point: 2^252 + 27742317777372353535851937790883648493. */
  lemma GroupOrder()
    ensures L == Pow2(252) + 27742317777372353535851937790883648493
  {
    PowersOfTwo();
    assert Pow2(252) == 2 * Pow2(251);
  }

  lemma ReducedScalar(s: Bytes32)
    requires LeVal(s) < L
    ensures s[31] < 0x20
  {
    TopByte(s);
  }

  /** The challenge H(R, K, M) as a scalar. */
  function Challenge(hash: Hash, R: seq<byte>, K: seq<byte>, message: seq<byte>): (h: nat)
    ensures h < L && Cong(h, LeVal(hash(R + K + message)), L)
  {
    CongRes(LeVal(hash(R + K + message)), L);
    LeVal(hash(R + K + message)) % L
  }

  /** A signer's answer to the challenge h, for the key x and the secret k. */
  function Answer(h: nat, x: nat, k: nat): nat {
    (h * x + k) % L
  }

  /** s b - h a, the commit that the equation expects for the scalar s, key a and challenge h. */
  function Expected<T>(g: Group<T>, h: int, a: T, s: int, b: T): T {
    g.add(Mul(g, h, g.neg(a)), Mul(g, s, b))
  }

  /** L b = 0 */
  ghost predicate OrderDivides<T>(g: Group<T>, n: int, b: T) {
    n > 0 && Mul(g, n, b) == g.zero
  }

  lemma MulReduced<T(!new)>(g: Group<T>, n: int, m: int, b: T)
    requires Abelian(g) && OrderDivides(g, m, b)
    ensures Mul(g, n % m, b) == Mul(g, n, b)
  {
    var k := n / m;
    MulAdd(g, k * m, n % m, b);
    MulMul(g, k, m, b);
    MulZero(g, k);
    Unit(g, Mul(g, n % m, b));
  }

  lemma {:induction false} MulZero<T(!new)>(g: Group<T>, k: int)
    requires Abelian(g)
    ensures Mul(g, k, g.zero) == g.zero
  {
    MulOne(g, g.zero);
    MulMul(g, k, 0, g.zero);
    assert k * 0 == 0;
  }

  lemma MulOfNeg<T(!new)>(g: Group<T>, h: int, a: T)
    requires Abelian(g)
    ensures Mul(g, h, g.neg(a)) == g.neg(Mul(g, h, a))
  {
    MulOne(g, a);
    MulNeg(g, 1, a);
    MulMul(g, h, -1, a);
    assert h * -1 == -h;
    MulNeg(g, h, a);
  }

  /** An honest part: key x b, commit k b and scalar h x + k mod L satisfy the equation. */
  lemma HonestPart<T(!new)>(g: Group<T>, h: nat, x: nat, k: nat, b: T)
    requires Abelian(g) && OrderDivides(g, L, b)
    ensures Expected(g, h, Mul(g, x, b), Answer(h, x, k), b) == Mul(g, k, b)
  {
    var t, r := Mul(g, h * x, b), Mul(g, k, b);
    MulReduced(g, h * x + k, L, b);
    MulAdd(g, h * x, k, b);
    MulMul(g, h, x, b);
    MulOfNeg(g, h, Mul(g, x, b));
    Assoc(g, g.neg(t), t, r);
    Inverse(g, t);
    Unit(g, r);
  }

  /** The sum of the scalars of the enabled signers. */
  function PartSum(s: seq<int>, mask: seq<byte>, n: nat): int
    requires n <= |s|
  {
    if n == 0 then 0 else PartSum(s, mask, n - 1) + (if Disables(mask, n - 1) then 0 else s[n - 1])
  }

  /** If every enabled part satisfies the equation under one challenge, so does the aggregate. */
  lemma {:induction false} PartsAddUp<T(!new)>(g: Group<T>, h: int, a: seq<T>, r: seq<T>, s: seq<int>, b: T,
                                               mask: seq<byte>, n: nat)
    requires Abelian(g) && |a| == |r| == |s| && n <= |a|
    requires forall i :: 0 <= i < n && !Disables(mask, i) ==> r[i] == Expected(g, h, a[i], s[i], b)
    ensures SumEnabled(g, r, mask, n) == Expected(g, h, SumEnabled(g, a, mask, n), PartSum(s, mask, n), b)
  {
    if n == 0 {
      ExpectedZero(g, h, b);
    } else {
      PartsAddUp(g, h, a, r, s, b, mask, n - 1);
      if !Disables(mask, n - 1) {
        var q, t := SumEnabled(g, a, mask, n - 1), PartSum(s, mask, n - 1);
        var q', t' := a[n - 1], s[n - 1];
        ExpectedAdds(g, h, q, q', t, t', b);
        assert PartSum(s, mask, n) == t + t' && SumEnabled(g, a, mask, n) == g.add(q, q');
        assert SumEnabled(g, r, mask, n) == g.add(SumEnabled(g, r, mask, n - 1), r[n - 1]);
      }
    }
  }

  lemma ExpectedZero<T(!new)>(g: Group<T>, h: int, b: T)
    requires Abelian(g)
    ensures Expected(g, h, g.zero, 0, b) == g.zero
  {
    Unit(g, g.zero);
    NegUnique(g, g.zero, g.zero);
    MulZero(g, h);
    MulOne(g, b);
  }

  lemma ExpectedAdds<T(!new)>(g: Group<T>, h: int, a: T, a': T, s: int, s': int, b: T)
    requires Abelian(g)
    ensures g.add(Expected(g, h, a, s, b), Expected(g, h, a', s', b)) == Expected(g, h, g.add(a, a'), s + s', b)
  {
    Interchange(g, Mul(g, h, g.neg(a)), Mul(g, s, b), Mul(g, h, g.neg(a')), Mul(g, s', b));
    NegAdd(g, a, a');
    MulDistributes(g, h, g.neg(a), g.neg(a'));
    MulAdd(g, s, s', b);
  }

  /** The aggregate scalar may be reduced. */
  lemma ExpectedReduced<T(!new)>(g: Group<T>, h: int, a: T, s: int, m: int, b: T)
    requires Abelian(g) && OrderDivides(g, m, b)
    ensures Expected(g, h, a, s % m, b) == Expected(g, h, a, s, b)
  {
    MulReduced(g, s, m, b);
  }
}
