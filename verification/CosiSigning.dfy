/** The steps of a collective signing run (Reputation/cosi). */
module CosiSigning {
  import opened MachineInt
  import opened Congruence
  import opened Bytes
  import opened FieldElement
  import opened Scalar
  import opened ScalarOps
  import opened AbelianGroup
  import opened CurveGroup
  import opened PointCodec
  import opened GroupElement
  import opened DoubleScalarMult
  import opened BaseScalarMult
  import opened Outcomes
  import opened Masks
  import opened SecretScalar
  import opened Schnorr
  import opened Cosi

  /** copy(buffer[:], key), for keys of any length. */
  function Copied(buffer: Bytes32, key: seq<byte>): Bytes32 {
    if |key| >= 32 then key[..32] else key + buffer[|key|..]
  }

  /** The buffer when the first n keys were copied into it. */
  function KeyBuffer(publicKeys: seq<seq<byte>>, n: nat): Bytes32
    requires n <= |publicKeys|
  {
    if n == 0 then seq(32, i => 0) else Copied(KeyBuffer(publicKeys, n - 1), publicKeys[n - 1])
  }

  /** What is decoded is the key, if it has its 32 bytes; one that is too short is completed with bytes of the
      keys before it, so that an empty key is the key before it once more. */
  lemma KeysReadFromBuffer(publicKeys: seq<seq<byte>>, i: nat)
    requires i < |publicKeys|
    ensures |publicKeys[i]| == 32 ==> KeyBuffer(publicKeys, i + 1) == publicKeys[i]
    ensures |publicKeys[i]| < 32 ==>
      KeyBuffer(publicKeys, i + 1) == publicKeys[i] + KeyBuffer(publicKeys, i)[|publicKeys[i]|..]
    ensures |publicKeys[i]| > 32 ==> KeyBuffer(publicKeys, i + 1) == publicKeys[i][..32]
    ensures KeyBuffer(publicKeys, 0) == seq(32, k => 0)
    ensures i > 0 && |publicKeys[i - 1]| == 32 && publicKeys[i] == [] ==>
      KeyBuffer(publicKeys, i + 1) == publicKeys[i - 1]
  {
    var buffer := KeyBuffer(publicKeys, i);
    if |publicKeys[i]| == 32 {
      assert publicKeys[i][..32] == publicKeys[i];
    }
    if i > 0 && |publicKeys[i - 1]| == 32 && publicKeys[i] == [] {
      assert publicKeys[i - 1][..32] == publicKeys[i - 1];
      assert [] + buffer[0..] == buffer;
    }
  }

  ghost predicate AreKeys(publicKeys: seq<seq<byte>>, A: seq<CurvePoint>) {
    |A| == |publicKeys| && forall i :: 0 <= i < |A| ==> Encodes(KeyBuffer(publicKeys, i + 1), A[i])
  }

  lemma NoKeys(publicKeys: seq<seq<byte>>, i: nat, buffer: Bytes32)
    requires i < |publicKeys| && buffer == KeyBuffer(publicKeys, i + 1) && forall q: CurvePoint :: !Encodes(buffer, q)
    ensures forall A :: !AreKeys(publicKeys, A)
  {
    forall A
      ensures !AreKeys(publicKeys, A)
    {
      if |A| == |publicKeys| {
        assert !Encodes(KeyBuffer(publicKeys, i + 1), A[i]);
      }
    }
  }

  /** A key list that does not decode: 2 is the ordinate of no point. */
  lemma UndecodableKeys(publicKeys: seq<seq<byte>>, i: nat)
    requires PrimeModulus(P) && i < |publicKeys| && |publicKeys[i]| == 32 && LeVal(publicKeys[i]) == 2
    ensures forall A :: !AreKeys(publicKeys, A)
  {
    KeysReadFromBuffer(publicKeys, i);
    TwoDenotesNothing(publicKeys[i]);
    NoKeys(publicKeys, i, publicKeys[i]);
  }

  /** The loop that decodes the keys. */
  method DecodeKeys(publicKeys: seq<seq<byte>>)
    returns (ok: bool, keys: seq<ExtendedGroupElement>, ghost points: seq<CurvePoint>)
    requires PrimeModulus(P)
    ensures ok ==> |keys| == |points| && fresh(keys) && AreKeys(publicKeys, points)
    ensures ok ==> forall k :: 0 <= k < |keys| ==> keys[k].Rep(points[k])
    ensures !ok ==> forall A :: !AreKeys(publicKeys, A)
  {
    keys, points := [], [];
    var publicKeyBytes: Bytes32 := seq(32, i => 0);
    for i := 0 to |publicKeys|
      invariant |keys| == |points| == i && fresh(keys) && publicKeyBytes == KeyBuffer(publicKeys, i)
      invariant forall k :: 0 <= k < i ==> keys[k].Rep(points[k]) && Encodes(KeyBuffer(publicKeys, k + 1), points[k])
    {
      publicKeyBytes := Copied(publicKeyBytes, publicKeys[i]);
      var key := new ExtendedGroupElement();
      var decoded := key.FromBytes(publicKeyBytes);
      if !decoded {
        NoKeys(publicKeys, i, publicKeyBytes);
        return false, keys, points;
      }
      ghost var q: CurvePoint :| Encodes(publicKeyBytes, q) && key.Rep(q);
      keys, points := keys + [key], points + [q];
    }
    ok := true;
  }

  /** Null when some public key does not decode. */
  method NewCosigners(publicKeys: seq<seq<byte>>, mask: seq<byte>, hash: Hash, bi: seq<PreComputedGroupElement>,
                      ghost g: Group<CurvePoint>, ghost base: CurvePoint) returns (cos: Cosigners?)
    requires CurveLaw(g) && BaseOdds(bi, g, base)
    ensures cos != null ==> fresh(cos) && fresh(cos.aggr) && cos.Valid()
    ensures cos != null ==> cos.hash == hash && cos.bi == bi && cos.g == g && cos.base == base
    ensures cos != null ==> cos.policy == FullPolicy && IsMaskFor(cos.mask, |publicKeys|, mask)
    ensures cos != null ==> |cos.keys| == |publicKeys| && AreKeys(publicKeys, cos.points)
    ensures cos == null ==> forall A :: !AreKeys(publicKeys, A)
  {
    var ok, keys, points := DecodeKeys(publicKeys);
    if !ok {
      return null;
    }
    cos := new Cosigners(keys, hash, bi, g, base, points);
    cos.SetMask(mask);
  }

  lemma KeysUnique(publicKeys: seq<seq<byte>>, A: seq<CurvePoint>, B: seq<CurvePoint>)
    requires PrimeModulus(P) && AreKeys(publicKeys, A) && AreKeys(publicKeys, B)
    ensures A == B
  {
    forall i | 0 <= i < |A|
      ensures A[i] == B[i]
    {
      DecodingUnique(KeyBuffer(publicKeys, i + 1), A[i], B[i]);
    }
  }

  /** The commit and scalar in `sig` satisfy the equation for the sum of the keys that `mask` enables. */
  ghost predicate EquationHolds(message: seq<byte>, sig: seq<byte>, mask: seq<byte>, hash: Hash,
                                g: Group<CurvePoint>, base: CurvePoint, A: seq<CurvePoint>)
    requires |sig| >= 64
  {
    var q := SumEnabled(g, A, mask, |A|);
    && sig[63] < 0x20
    && sig[..32] == Encoding(Expected(g, Challenge(hash, sig[..32], Encoding(q), message), q, LeVal(sig[32..64]), base))
  }

  /** What an accepted signature says: its mask meets the policy and its equation holds. */
  ghost predicate CollectivelySigned(policy: Policy, message: seq<byte>, sig: seq<byte>, hash: Hash,
                                     g: Group<CurvePoint>, base: CurvePoint, A: seq<CurvePoint>)
  {
    && |sig| == 64 + MaskLength(|A|)
    && exists mask :: && IsMaskFor(mask, |A|, sig[64..]) && Accepts(policy, |A|, mask)
                      && EquationHolds(message, sig, mask, hash, g, base, A)
  }

  /** With a threshold: the length, enough enabled signers, a scalar below 2^253, and R = s B - h A for the sum A of the
      keys that the signature's own mask enables. */
  lemma SignedMeans(t: int, message: seq<byte>, sig: seq<byte>, hash: Hash, g: Group<CurvePoint>, base: CurvePoint,
                    A: seq<CurvePoint>)
    ensures CollectivelySigned(ThresholdPolicy(t), message, sig, hash, g, base, A) <==>
      && |sig| == 64 + (|A| + 7) / 8
      && |set i | 0 <= i < |A| && !Disables(sig[64..], i)| >= t
      && LeVal(sig[32..64]) < Pow2(253)
      && var q := SumEnabled(g, A, sig[64..], |A|);
         sig[..32] == Encoding(g.add(Mul(g, Challenge(hash, sig[..32], Encoding(q), message), g.neg(q)),
                                     Mul(g, LeVal(sig[32..64]), base)))
  {
    if |sig| == 64 + MaskLength(|A|) {
      TopClear(sig[32..64]);
      var kept := MaskExists(|A|, sig[64..]);
      assert IsMaskFor(kept, |A|, sig[64..]);
      forall mask | IsMaskFor(mask, |A|, sig[64..])
        ensures Accepts(ThresholdPolicy(t), |A|, mask) <==> |set i | 0 <= i < |A| && !Disables(sig[64..], i)| >= t
        ensures SumEnabled(g, A, mask, |A|) == SumEnabled(g, A, sig[64..], |A|)
      {
        KeptEnables(mask, |A|, sig[64..]);
        AcceptsIff(|A|, mask, t);
        SumSame(g, A, mask, sig[64..], |A|);
      }
    }
  }

  lemma KeptEnables(mask: seq<byte>, n: nat, m: seq<byte>)
    requires IsMaskFor(mask, n, m)
    ensures forall i :: 0 <= i < n ==> (Disables(mask, i) <==> Disables(m, i))
    ensures (set i | 0 <= i < n && !Disables(mask, i)) == (set i | 0 <= i < n && !Disables(m, i))
  {
  }

  /** The package's Verify; it panics on a key list that does not decode. */
  method Verify(publicKeys: seq<seq<byte>>, policy: Option<Policy>, message: seq<byte>, sig: seq<byte>,
                hash: Hash, bi: seq<PreComputedGroupElement>, ghost g: Group<CurvePoint>, ghost base: CurvePoint)
    returns (r: Outcome<bool>)
    requires CurveLaw(g) && BaseOdds(bi, g, base)
    ensures |sig| < 64 ==> r == Returned(false)
    ensures r.Panicked? <==> |sig| >= 64 && forall A :: !AreKeys(publicKeys, A)
    ensures forall A :: AreKeys(publicKeys, A) ==>
      r == Returned(CollectivelySigned(
          if policy.Some? then policy.value else FullPolicy, message, sig, hash, g, base, A))
  {
    if |sig| < 64 {
      return Returned(false);
    }
    var cos := NewCosigners(publicKeys, sig[64..], hash, bi, g, base);
    if cos == null {
      return Panicked;
    }
    cos.SetPolicy(policy);
    var ok := cos.Verify(message, sig);
    r := Returned(ok);
    forall A | AreKeys(publicKeys, A)
      ensures ok == CollectivelySigned(cos.policy, message, sig, hash, g, base, A)
    {
      KeysUnique(publicKeys, A, cos.points);
      if |sig| == 64 + MaskLength(|A|) {
        forall mask | IsMaskFor(mask, |A|, sig[64..])
          ensures mask == cos.mask
        {
          MaskDetermined(mask, cos.mask, |A|, sig[64..]);
        }
      }
    }
  }

  /** The one-time secret behind a commit. */
  class Secret {
    var reduced: Bytes32
    var valid: bool

    constructor (reduced: Bytes32)
      ensures this.reduced == reduced && valid
    {
      this.reduced, valid := reduced, true;
    }
  }

  /** The commit is the secret's multiple of the base point. */
  method Commit(rand: Bytes64, base: seq<seq<PreComputedGroupElement>>, ghost g: Group<CurvePoint>, ghost b: CurvePoint)
    returns (commit: Bytes32, secret: Secret)
    requires CurveLaw(g) && BaseTable(base, g, b)
    ensures fresh(secret) && secret.valid && LeVal(secret.reduced) == LeVal(rand) % L
    ensures commit == Encoding(Mul(g, LeVal(secret.reduced), b))
  {
    var reduced := ScReduce(rand);
    secret := new Secret(reduced);
    ReducedScalar(reduced);
    var R := new ExtendedGroupElement();
    GeScalarMultBase(R, reduced, base, g, b);
    commit := R.ToBytes(Mul(g, LeVal(reduced), b));
  }

  /** The part h x + k mod L, after which the secret is spent. */
  method Cosign(privateKey: seq<byte>, secret: Secret, message: seq<byte>, aggregateK: seq<byte>, aggregateR: seq<byte>,
                hash: Hash) returns (r: Outcome<Bytes32>)
    modifies secret
    ensures r.Panicked? <==> |privateKey| != 64 || |aggregateR| != 32 || !old(secret.valid)
    ensures r.Panicked? ==> secret.valid == old(secret.valid) && secret.reduced == old(secret.reduced)
    ensures r.Returned? ==>
      && !secret.valid && LeVal(secret.reduced) == 0
      && LeVal(r.value) == Answer(Challenge(hash, aggregateR, aggregateK, message), LeVal(Expanded(hash, privateKey)),
                                  LeVal(old(secret.reduced)))
  {
    if |privateKey| != 64 || |aggregateR| != 32 || !secret.valid {
      return Panicked;
    }
    var expandedSecretKey := Expanded(hash, privateKey);
    var hramDigestReduced := ScReduce(hash(aggregateR + aggregateK + message));
    var s := ScMulAdd(hramDigestReduced, expandedSecretKey, secret.reduced);
    secret.reduced := seq(32, i => 0);
    LeValZero(secret.reduced);
    secret.valid := false;
    r := Returned(s);
  }
}
