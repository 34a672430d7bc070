/** Collective Ed25519 signing: the cosigners' keys, mask and cached aggregate, and the signing steps
    (Reputation/cosi). */
module Cosi {
  import opened MachineInt
  import opened Bytes
  import opened TwosComplement
  import opened Congruence
  import opened Scalar
  import opened ScalarOps
  import opened FieldElement
  import opened AbelianGroup
  import opened CurveGroup
  import opened PointCodec
  import opened GroupElement
  import opened DoubleScalarMult
  import opened Outcomes
  import opened Masks
  import opened Clamping
  import opened SecretScalar
  import opened Schnorr

  /** A policy sees the cosigners' number and mask. */
  datatype Policy = FullPolicy | ThresholdPolicy(t: int) | CustomPolicy(check: (nat, seq<byte>) -> bool)

  predicate Accepts(policy: Policy, n: nat, mask: seq<byte>) {
    match policy
    case FullPolicy => EnabledCount(mask, n) == n
    case ThresholdPolicy(t) => EnabledCount(mask, n) >= t
    case CustomPolicy(check) => check(n, mask)
  }

  /** What the policies mean. */
  lemma AcceptsIff(n: nat, mask: seq<byte>, t: int)
    ensures Accepts(FullPolicy, n, mask) <==> forall i :: 0 <= i < n ==> !Disables(mask, i)
    ensures Accepts(ThresholdPolicy(t), n, mask) <==> |set i | 0 <= i < n && !Disables(mask, i)| >= t
  {
    EnabledCardinality(mask, n);
  }

  class Cosigners {
    const keys: seq<ExtendedGroupElement>
    const aggr: ExtendedGroupElement
    var mask: seq<byte>
    var policy: Policy

    // the package's hash function and table of multiples of the base point
    const hash: Hash
    const bi: seq<PreComputedGroupElement>

    // the group, the base point and the points that the keys stand for
    ghost const g: Group<CurvePoint>
    ghost const base: CurvePoint
    ghost const points: seq<CurvePoint>

    ghost predicate Fixed()
      reads keys, bi
    {
      && CurveLaw(g) && BaseOdds(bi, g, base) && aggr !in keys
      && |points| == |keys| && forall i :: 0 <= i < |keys| ==> keys[i].Rep(points[i])
    }

    /** The aggregate is the sum of exactly the enabled keys, and padding bits are set. */
    ghost predicate Valid()
      reads this, keys, aggr, bi
    {
      Fixed() && IsMaskFor(mask, |keys|, mask) && aggr.Rep(Aggregate())
    }

    /** The sum of the enabled keys. */
    ghost function Aggregate(): CurvePoint
      requires |points| == |keys|
      reads this
    {
      SumEnabled(g, points, mask, |keys|)
    }

    /** Starts with everyone disabled. */
    constructor (keys: seq<ExtendedGroupElement>, hash: Hash, bi: seq<PreComputedGroupElement>,
                 ghost g: Group<CurvePoint>, ghost base: CurvePoint, ghost points: seq<CurvePoint>)
      requires CurveLaw(g) && BaseOdds(bi, g, base)
      requires |points| == |keys| && forall i :: 0 <= i < |keys| ==> keys[i].Rep(points[i])
      ensures Valid() && fresh(aggr)
      ensures this.keys == keys && this.points == points && this.g == g && this.base == base
      ensures this.hash == hash && this.bi == bi && policy == FullPolicy
      ensures forall k :: 0 <= k < |mask| ==> mask[k] == 0xff
      ensures Aggregate() == g.zero
    {
      this.keys, this.hash, this.bi := keys, hash, bi;
      this.g, this.base, this.points := g, base, points;
      mask := seq(MaskLength(|keys|), i => 0xff);
      policy := FullPolicy;
      aggr := new ExtendedGroupElement();
      new;
      aggr.Zero();
      AllDisabled(mask);
      SumNone(g, points, mask, |keys|);
    }

    method CountEnabled() returns (count: nat)
      requires |mask| == MaskLength(|keys|)
      ensures count == EnabledCount(mask, |keys|)
      ensures count == |set i | 0 <= i < |keys| && !Disables(mask, i)|
    {
      EnabledCardinality(mask, |keys|);
      count := 0;
      for i := 0 to |keys|
        invariant count == EnabledCount(mask, i)
      {
        if And(mask[i / 8], Pow2(i % 8)) == 0 {
          count := count + 1;
        }
        AndPow2(mask[i / 8], i % 8);
      }
    }

    /** Whether the signer is disabled; of a padding bit, whether it is set. */
    method MaskBit(signer: nat) returns (value: bool)
      requires signer < 8 * |mask|
      ensures value == Disables(mask, signer)
    {
      AndPow2(mask[signer / 8], signer % 8);
      value := And(mask[signer / 8], Pow2(signer % 8)) != 0;
    }

    /** mask[byt] |= bit, and the key leaves the aggregate. */
    method Disable(signer: nat)
      requires Valid() && signer < |keys| && !Disables(mask, signer)
      modifies this`mask, aggr
      ensures Valid() && mask == WithBit(old(mask), signer, true)
    {
      ghost var sum, before := Aggregate(), mask;
      mask := WithBit(mask, signer, true);
      aggr.Sub(aggr, keys[signer], g, sum, points[signer]);
      SumWithout(g, points, before, mask, signer, |keys|);
    }

    /** mask[byt] &^= bit, and the key joins the aggregate. */
    method Enable(signer: nat)
      requires Valid() && signer < |keys| && Disables(mask, signer)
      modifies this`mask, aggr
      ensures Valid() && mask == WithBit(old(mask), signer, false)
    {
      ghost var sum, before := Aggregate(), mask;
      mask := WithBit(mask, signer, false);
      aggr.Add(aggr, keys[signer], g, sum, points[signer]);
      SumFlip(g, points, mask, before, signer, |keys|);
    }

    /** Setting a padding bit, which is set already, changes nothing; clearing one has no key to add. */
    method SetMaskBit(signer: nat, value: bool)
      requires Valid() && signer < if value then 8 * |mask| else |keys|
      modifies this`mask, aggr
      ensures Valid() && |mask| == |old(mask)|
      ensures forall k :: 0 <= k < 8 * |mask| ==> (Marked(mask, k)
          <==> if k == signer then value else Marked(old(mask), k))
    {
      var disabled := MaskBit(signer);
      if value && !disabled {
        Disable(signer);
      } else if !value && disabled {
        Enable(signer);
      }
    }

    /** Afterwards mask and aggregate depend on the new mask alone. */
    method SetMask(m: seq<byte>)
      requires Valid()
      modifies this`mask, aggr
      ensures Valid() && IsMaskFor(mask, |keys|, m)
    {
      for i := 0 to |keys|
        invariant Valid()
        invariant forall k :: 0 <= k < i ==> (Marked(mask, k) <==> Disables(m, k))
      {
        var disable := false;
        if i / 8 < |m| {
          AndPow2(m[i / 8], i % 8);
          disable := And(m[i / 8], Pow2(i % 8)) != 0;
        }
        SetMaskBit(i, disable);
      }
    }

    method SetPolicy(p: Option<Policy>)
      modifies this`policy
      ensures policy == if p.Some? then p.value else FullPolicy
    {
      policy := if p.Some? then p.value else FullPolicy;
    }

    method AggregatePublicKey() returns (key: Bytes32)
      requires Valid()
      ensures key == Encoding(Aggregate())
    {
      key := aggr.ToBytes(Aggregate());
    }

    /** The challenge that verification derives from an aggregate commit. */
    ghost function ChallengeFor(aggR: seq<byte>, message: seq<byte>): nat
      requires |points| == |keys|
      reads this
    {
      Challenge(hash, aggR, Encoding(Aggregate()), message)
    }

    /** The equation, for the key `sigA` that was signed with and the challenge of all enabled keys. */
    method VerifyEquation(message: seq<byte>, aggR: seq<byte>, sigR: seq<byte>, sigS: seq<byte>,
                          sigA: ExtendedGroupElement, ghost q: CurvePoint) returns (ok: bool)
      requires Valid() && sigA.Rep(q)
      ensures ok <==> && |sigR| == 32 && |sigS| == 32 && sigS[31] < 0x20
                      && sigR == Encoding(Expected(g, ChallengeFor(aggR, message), q, LeVal(sigS), base))
    {
      if |sigR| != 32 || |sigS| != 32 {
        return false;
      }
      HighBits(sigS[31]);
      if And(sigS[31], 224) != 0 {
        return false;
      }
      var aggK := aggr.ToBytes(Aggregate());
      var hReduced := ScReduce(hash(aggR + aggK + message));
      ReducedScalar(hReduced);
      var minusA := NegatedCopy(sigA, g, q);
      var projR := new ProjectiveGroupElement();
      GeDoubleScalarMultVartime(projR, hReduced, minusA, sigS, bi, g, g.neg(q), base);
      var checkR := projR.ToBytes(Expected(g, ChallengeFor(aggR, message), q, LeVal(sigS), base));
      ok := sigR == checkR;
    }

    /** What a collective signature of the right length asserts. */
    ghost predicate SignatureHolds(message: seq<byte>, sig: seq<byte>)
      requires |points| == |keys| && |sig| == 64 + MaskLength(|keys|)
      reads this
    {
      && sig[63] < 0x20
      && sig[..32] == Encoding(Expected(g, ChallengeFor(sig[..32], message), Aggregate(), LeVal(sig[32..64]), base))
    }

    /** True only if the policy accepts the signature's own mask, which becomes the object's. */
    method Verify(message: seq<byte>, sig: seq<byte>) returns (ok: bool)
      requires Valid()
      modifies this`mask, aggr
      ensures Valid()
      ensures |sig| != 64 + MaskLength(|keys|) ==> !ok && mask == old(mask)
      ensures |sig| == 64 + MaskLength(|keys|) ==>
        && IsMaskFor(mask, |keys|, sig[64..])
        && (ok <==> Accepts(policy, |keys|, mask) && SignatureHolds(message, sig))
    {
      if |sig| != 64 + MaskLength(|keys|) {
        return false;
      }
      SetMask(sig[64..]);
      var accepted := Check();
      if !accepted {
        return false;
      }
      ok := VerifyEquation(message, sig[..32], sig[..32], sig[32..64], aggr, Aggregate());
    }

    /** All cosigners for the full policy, at least t for a threshold of t. */
    method Check() returns (ok: bool)
      requires Valid()
      ensures ok == Accepts(policy, |keys|, mask)
      ensures policy.FullPolicy? ==> ok == forall i :: 0 <= i < |keys| ==> !Disables(mask, i)
      ensures policy.ThresholdPolicy? ==> ok == (|set i | 0 <= i < |keys| && !Disables(mask, i)| >= policy.t)
      ensures policy.CustomPolicy? ==> ok == policy.check(|keys|, mask)
    {
      match policy
      case FullPolicy =>
        var count := CountEnabled();
        ok := count == |keys|;
      case ThresholdPolicy(t) =>
        var count := CountEnabled();
        ok := count >= t;
      case CustomPolicy(check) =>
        ok := check(|keys|, mask);
    }

    method VerifyPart(message: seq<byte>, aggR: seq<byte>, signer: nat, indR: seq<byte>, indS: seq<byte>)
      returns (ok: bool)
      requires Valid() && signer < |keys|
      ensures ok <==> && |indR| == 32 && |indS| == 32 && indS[31] < 0x20
                      && indR == Encoding(Expected(g, ChallengeFor(aggR, message), points[signer], LeVal(indS), base))
    {
      ok := VerifyEquation(message, aggR, indR, indS, keys[signer], points[signer]);
    }

    /** Adds one commit to the aggregate. */
    method AddCommit(aggR: ExtendedGroupElement, commit: seq<byte>, ghost sum: CurvePoint)
        returns (ok: bool, ghost q: CurvePoint)
      requires CurveLaw(g) && aggR.Rep(sum)
      modifies aggR
      ensures ok ==> IsCommit(commit, q) && aggR.Rep(g.add(sum, q))
      ensures !ok ==> forall r: CurvePoint :: !IsCommit(commit, r)
    {
      q := NEUTRAL;
      if |commit| != 32 {
        return false, q;
      }
      var indivR := new ExtendedGroupElement();
      ok := indivR.FromBytes(commit);
      if ok {
        q :| Encodes(commit, q) && indivR.Rep(q);
        aggR.Add(aggR, indivR, g, sum, q);
      }
    }

    /** The sum of the enabled commits, if all of them decode. */
    method AggregateCommit(commits: seq<seq<byte>>) returns (r: Option<Bytes32>)
      requires Valid() && HasEntries(|commits|, mask, |keys|)
      ensures r.None? ==> forall R :: !AreCommits(commits, R, mask, |keys|)
      ensures forall R :: AreCommits(commits, R, mask, |keys|) ==> r == Some(Encoding(SumEnabled(g, R, mask, |keys|)))
      ensures r.Some? ==> exists R :: AreCommits(commits, R, mask, |keys|)
    {
      var aggR := new ExtendedGroupElement();
      aggR.Zero();
      ghost var found: seq<CurvePoint> := [];
      for i := 0 to |keys|
        invariant AreCommits(commits, found, mask, i)
        invariant aggR.Rep(SumEnabled(g, found, mask, i))
      {
        ghost var sum, q := SumEnabled(g, found, mask, i), NEUTRAL;
        var disabled := MaskBit(i);
        if !disabled {
          var ok;
          ok, q := AddCommit(aggR, commits[i], sum);
          if !ok {
            NotCommits(commits, mask, i, |keys|);
            return None;
          }
        }
        MoreCommits(commits, found, mask, i, q);
        SumMore(g, found, q, mask, i);
        found := found + [q];
      }
      var bytes := aggR.ToBytes(SumEnabled(g, found, mask, |keys|));
      r := Some(bytes);
      forall R | AreCommits(commits, R, mask, |keys|)
        ensures SumEnabled(g, R, mask, |keys|) == SumEnabled(g, found, mask, |keys|)
      {
        CommitsUnique(g, commits, R, found, mask, |keys|);
      }
    }

    /** R, the sum of the enabled parts, and the mask. */
    method AggregateSignature(aggregateR: seq<byte>, sigParts: seq<seq<byte>>) returns (r: Outcome<Option<seq<byte>>>)
      requires |mask| == MaskLength(|keys|) && HasEntries(|sigParts|, mask, |keys|)
      ensures r.Panicked? <==> |aggregateR| != 32
      ensures r.Returned? ==> (r.value.Some? <==> PartsSized(sigParts, mask, |keys|))
      ensures r.Returned? && r.value.Some? ==>
        var sig := r.value.value;
        && |sig| == 64 + |mask| && sig[..32] == aggregateR && sig[64..] == mask
        && LeVal(sig[32..64]) == PartSum(Scalars(sigParts, |keys|), mask, |keys|) % L
    {
      if |aggregateR| != 32 {
        return Panicked;
      }
      var aggS: Bytes32 := seq(32, i => 0);
      LeValZero(aggS);
      for i := 0 to |keys|
        invariant PartsSized(sigParts, mask, i)
        invariant LeVal(aggS) == PartSum(Scalars(sigParts, |keys|), mask, i) % L
      {
        var disabled := MaskBit(i);
        if disabled {
          SkipPart(sigParts, mask, i, |keys|);
        } else {
          if |sigParts[i]| != 32 {
            return Returned(None);
          }
          aggS := AddPart(aggS, sigParts, mask, i, |keys|);
        }
      }
      r := Returned(Some(aggregateR + aggS + mask));
    }
  }

  /** The scalars that the first n signature parts denote. */
  function Scalars(parts: seq<seq<byte>>, n: nat): (s: seq<int>)
    ensures |s| == n && forall i :: 0 <= i < n && i < |parts| ==> s[i] == LeVal(parts[i])
  {
    seq(n, i => if 0 <= i < |parts| then LeVal(parts[i]) as int else 0)
  }

  lemma OneValue(s: seq<byte>)
    requires |s| == 32 && s[0] == 1 && forall i :: 1 <= i < 32 ==> s[i] == 0
    ensures LeVal(s) == 1
  {
    LeValZero(s[1..]);
  }

  predicate IsCommit(commit: seq<byte>, q: CurvePoint) {
    |commit| == 32 && Encodes(commit, q)
  }

  /** The points that the enabled ones of the first n commits denote. */
  predicate AreCommits(commits: seq<seq<byte>>, R: seq<CurvePoint>, mask: seq<byte>, n: nat) {
    |R| == n && forall i :: 0 <= i < n && !Disables(mask, i) ==> i < |commits| && IsCommit(commits[i], R[i])
  }

  /** A list of that length has an entry for every enabled one of the first n signers. */
  predicate HasEntries(length: nat, mask: seq<byte>, n: nat) {
    forall i :: 0 <= i < n && !Disables(mask, i) ==> i < length
  }

  lemma NotCommits(commits: seq<seq<byte>>, mask: seq<byte>, i: nat, n: nat)
    requires i < n && i < |commits| && !Disables(mask, i)
    requires forall q: CurvePoint :: !IsCommit(commits[i], q)
    ensures forall R :: !AreCommits(commits, R, mask, n)
  {
    forall R
      ensures !AreCommits(commits, R, mask, n)
    {
      if |R| == n && IsCommit(commits[i], R[i]) {
        assert false;
      }
    }
  }

  lemma MoreCommits(commits: seq<seq<byte>>, R: seq<CurvePoint>, mask: seq<byte>, i: nat, q: CurvePoint)
    requires AreCommits(commits, R, mask, i)
    requires Disables(mask, i) || (i < |commits| && IsCommit(commits[i], q))
    ensures AreCommits(commits, R + [q], mask, i + 1)
  {
  }

  lemma SumMore<T>(g: Group<T>, a: seq<T>, q: T, mask: seq<byte>, i: nat)
    requires |a| == i
    ensures SumEnabled(g, a + [q], mask, i + 1)
         == if Disables(mask, i) then SumEnabled(g, a, mask, i) else g.add(SumEnabled(g, a, mask, i), q)
  {
    SumAgree(g, a, a + [q], mask, i);
  }

  lemma CommitsUnique(g: Group<CurvePoint>, commits: seq<seq<byte>>, R: seq<CurvePoint>, R': seq<CurvePoint>,
                      mask: seq<byte>, n: nat)
    requires PrimeModulus(P) && AreCommits(commits, R, mask, n) && AreCommits(commits, R', mask, n)
    ensures SumEnabled(g, R, mask, n) == SumEnabled(g, R', mask, n)
  {
    forall k | 0 <= k < n && !Disables(mask, k)
      ensures R[k] == R'[k]
    {
      assert IsCommit(commits[k], R[k]) && IsCommit(commits[k], R'[k]);
      DecodingUnique(commits[k], R[k], R'[k]);
    }
    SumAgree(g, R, R', mask, n);
  }

  predicate PartsSized(parts: seq<seq<byte>>, mask: seq<byte>, n: nat) {
    forall i :: 0 <= i < n && !Disables(mask, i) ==> i < |parts| && |parts[i]| == 32
  }

  lemma SkipPart(parts: seq<seq<byte>>, mask: seq<byte>, i: nat, n: nat)
    requires i < n && PartsSized(parts, mask, i) && Disables(mask, i)
    ensures PartsSized(parts, mask, i + 1)
    ensures PartSum(Scalars(parts, n), mask, i + 1) == PartSum(Scalars(parts, n), mask, i)
  {
  }

  lemma MoreParts(parts: seq<seq<byte>>, mask: seq<byte>, i: nat, n: nat, before: int, after: int, m: int)
    requires i < n && i < |parts| && PartsSized(parts, mask, i) && m > 0
    requires before == PartSum(Scalars(parts, n), mask, i) % m
    requires !Disables(mask, i) && |parts[i]| == 32 && after == (before + LeVal(parts[i])) % m
    ensures PartsSized(parts, mask, i + 1)
    ensures after == PartSum(Scalars(parts, n), mask, i + 1) % m
  {
    var a, b: int := PartSum(Scalars(parts, n), mask, i), LeVal(parts[i]);
    CongRes(a, m);
    CongAdd(a % m, a, b, b, m);
  }

  /** aggS + part mod L, by way of ScMulAdd with the scalar 1. */
  method AddPart(aggS: Bytes32, parts: seq<seq<byte>>, ghost mask: seq<byte>, i: nat, ghost n: nat) returns (s: Bytes32)
    requires i < n && i < |parts| && PartsSized(parts, mask, i) && !Disables(mask, i) && |parts[i]| == 32
    requires LeVal(aggS) == PartSum(Scalars(parts, n), mask, i) % L
    ensures PartsSized(parts, mask, i + 1)
    ensures LeVal(s) == PartSum(Scalars(parts, n), mask, i + 1) % L
  {
    var scOne: Bytes32 := [1] + seq(31, i => 0);
    OneValue(scOne);
    s := ScMulAdd(aggS, scOne, parts[i]);
    assert LeVal(aggS) * 1 == LeVal(aggS);
    MoreParts(parts, mask, i, n, LeVal(aggS), LeVal(s), L);
  }

  lemma {:induction false} SumAgree<T>(g: Group<T>, a: seq<T>, b: seq<T>, mask: seq<byte>, n: nat)
    requires n <= |a| && n <= |b| && forall i :: 0 <= i < n && !Disables(mask, i) ==> a[i] == b[i]
    ensures SumEnabled(g, a, mask, n) == SumEnabled(g, b, mask, n)
  {
    if n > 0 {
      SumAgree(g, a, b, mask, n - 1);
    }
  }

  lemma AllDisabled(mask: seq<byte>)
    requires forall i :: 0 <= i < |mask| ==> mask[i] == 0xff
    ensures forall i :: 0 <= i < 8 * |mask| ==> Marked(mask, i)
  {
    forall i | 0 <= i < 8 * |mask|
      ensures Marked(mask, i)
    {
      AllOnes(8, i % 8);
      Pow2Values();
    }
  }

  lemma {:induction false} AllOnes(n: nat, i: nat)
    requires i < n
    ensures Bit(Pow2(n) - 1, i)
  {
    if i > 0 {
      assert (Pow2(n) - 1) / 2 == Pow2(n - 1) - 1;
      AllOnes(n - 1, i - 1);
    }
  }

  lemma {:induction false} SumNone<T>(g: Group<T>, a: seq<T>, mask: seq<byte>, n: nat)
    requires n <= |a| && n <= 8 * |mask| && forall i :: 0 <= i < 8 * |mask| ==> Marked(mask, i)
    ensures SumEnabled(g, a, mask, n) == g.zero
  {
    if n > 0 {
      SumNone(g, a, mask, n - 1);
    }
  }
}
