/** What the steps of collective signing add up to (cosi.go:150-211). */
module CosiTheorems {
  import opened MachineInt
  import opened Congruence
  import opened Bytes
  import opened FieldElement
  import opened Scalar
  import opened AbelianGroup
  import opened CurveGroup
  import opened PointCodec
  import opened GroupElement
  import opened BaseScalarMult
  import opened Masks
  import opened SecretScalar
  import opened Schnorr
  import opened Cosi
  import opened CosiSigning

  /** What VerifyPart checks, for the challenge h. */
  ghost predicate PartHolds(g: Group<CurvePoint>, b: CurvePoint, h: nat, a: CurvePoint, commit: seq<byte>,
                            part: seq<byte>)
  {
    |commit| == 32 && |part| == 32 && part[31] < 0x20 && commit == Encoding(Expected(g, h, a, LeVal(part), b))
  }

  ghost predicate PartsHold(g: Group<CurvePoint>, b: CurvePoint, h: nat, A: seq<CurvePoint>,
                            commits: seq<seq<byte>>, parts: seq<seq<byte>>, mask: seq<byte>)
    requires |A| == |commits| == |parts|
  {
    forall i :: 0 <= i < |A| && !Disables(mask, i) ==> PartHolds(g, b, h, A[i], commits[i], parts[i])
  }

  /** The form of an aggregate signature. */
  ghost predicate IsAggregate(sig: seq<byte>, aggR: seq<byte>, parts: seq<seq<byte>>, mask: seq<byte>) {
    && |sig| == 64 + |mask| && sig[..32] == aggR && sig[64..] == mask
    && LeVal(sig[32..64]) == PartSum(Scalars(parts, |parts|), mask, |parts|) % L
  }

  lemma PartDeterminesCommit(g: Group<CurvePoint>, b: CurvePoint, h: nat, a: CurvePoint,
                             commit: seq<byte>, part: seq<byte>, r: CurvePoint)
    requires PrimeModulus(P) && PartHolds(g, b, h, a, commit, part) && IsCommit(commit, r)
    ensures r == Expected(g, h, a, LeVal(part), b)
  {
    var e := Expected(g, h, a, LeVal(part), b);
    EncodingEncodes(commit, e);
    DecodingUnique(commit, r, e);
  }

  lemma CommitsAddUp(g: Group<CurvePoint>, b: CurvePoint, h: nat, A: seq<CurvePoint>, R: seq<CurvePoint>,
                     commits: seq<seq<byte>>, parts: seq<seq<byte>>, mask: seq<byte>)
    requires CurveLaw(g) && |A| == |commits| == |parts|
    requires AreCommits(commits, R, mask, |A|) && PartsHold(g, b, h, A, commits, parts, mask)
    ensures SumEnabled(g, R, mask, |A|)
         == Expected(g, h, SumEnabled(g, A, mask, |A|), PartSum(Scalars(parts, |A|), mask, |A|), b)
  {
    var s := Scalars(parts, |A|);
    forall i | 0 <= i < |A| && !Disables(mask, i)
      ensures R[i] == Expected(g, h, A[i], s[i], b)
    {
      PartDeterminesCommit(g, b, h, A[i], commits[i], parts[i], R[i]);
    }
    PartsAddUp(g, h, A, R, s, b, mask, |A|);
  }

  lemma ReducedCommits(g: Group<CurvePoint>, b: CurvePoint, h: nat, A: seq<CurvePoint>, R: seq<CurvePoint>,
                       commits: seq<seq<byte>>, parts: seq<seq<byte>>, mask: seq<byte>)
    requires CurveLaw(g) && OrderDivides(g, L, b) && |A| == |commits| == |parts|
    requires AreCommits(commits, R, mask, |A|) && PartsHold(g, b, h, A, commits, parts, mask)
    ensures SumEnabled(g, R, mask, |A|)
         == Expected(g, h, SumEnabled(g, A, mask, |A|), PartSum(Scalars(parts, |A|), mask, |A|) % L, b)
  {
    CommitsAddUp(g, b, h, A, R, commits, parts, mask);
    ExpectedReduced(g, h, SumEnabled(g, A, mask, |A|), PartSum(Scalars(parts, |A|), mask, |A|), L, b);
  }

  lemma SmallScalar(s: seq<byte>, n: int)
    requires |s| == 32 && LeVal(s) == n % L
    ensures s[31] < 0x20
  {
    ReducedScalar(s);
  }

  /** If every enabled part passes VerifyPart against the aggregate commit, the aggregate signature passes Verify. */
  lemma ValidPartsAggregate(message: seq<byte>, hash: Hash, g: Group<CurvePoint>, b: CurvePoint,
                            A: seq<CurvePoint>, R: seq<CurvePoint>, commits: seq<seq<byte>>, parts: seq<seq<byte>>,
                            mask: seq<byte>, aggR: seq<byte>, sig: seq<byte>)
    requires CurveLaw(g) && OrderDivides(g, L, b)
    requires |A| == |commits| == |parts| && AreCommits(commits, R, mask, |A|)
    requires aggR == Encoding(SumEnabled(g, R, mask, |A|))
    requires PartsHold(g, b, Challenge(hash, aggR, Encoding(SumEnabled(g, A, mask, |A|)), message), A, commits, parts,
        mask)
    requires IsAggregate(sig, aggR, parts, mask)
    ensures EquationHolds(message, sig, mask, hash, g, b, A)
  {
    var q := SumEnabled(g, A, mask, |A|);
    var h := Challenge(hash, aggR, Encoding(q), message);
    ReducedCommits(g, b, h, A, R, commits, parts, mask);
    SmallScalar(sig[32..64], PartSum(Scalars(parts, |A|), mask, |A|));
  }

  /** An honestly computed part passes VerifyPart. */
  lemma HonestPartHolds(g: Group<CurvePoint>, b: CurvePoint, h: nat, x: nat, k: nat, commit: seq<byte>, part: Bytes32)
    requires CurveLaw(g) && OrderDivides(g, L, b)
    requires commit == Encoding(Mul(g, k, b)) && LeVal(part) == Answer(h, x, k)
    ensures PartHolds(g, b, h, Mul(g, x, b), commit, part)
  {
    HonestPart(g, h, x, k, b);
    ReducedScalar(part);
  }

  /** The signers' round state: enabled ones hold an unspent secret behind their commit. */
  ghost predicate Committed(g: Group<CurvePoint>, b: CurvePoint, ks: seq<nat>, commits: seq<seq<byte>>,
                            mask: seq<byte>, n: nat)
  {
    && |ks| == |commits| == n
    && forall i :: 0 <= i < n && !Disables(mask, i) ==> commits[i] == Encoding(Mul(g, ks[i], b))
  }

  ghost predicate Unspent(secrets: seq<Secret>, ks: seq<nat>, i: nat)
    reads secrets
  {
    && |secrets| == |ks| && (forall j, k :: 0 <= j < k < |secrets| ==> secrets[j] != secrets[k])
    && forall k :: i <= k < |secrets| ==> secrets[k].valid && LeVal(secrets[k].reduced) == ks[k]
  }

  ghost function Multiples(g: Group<CurvePoint>, b: CurvePoint, ks: seq<nat>): (R: seq<CurvePoint>)
    ensures |R| == |ks| && forall i :: 0 <= i < |ks| ==> R[i] == Mul(g, ks[i], b)
  {
    seq(|ks|, i requires 0 <= i < |ks| => Mul(g, ks[i], b))
  }

  lemma CommitsOfMultiples(g: Group<CurvePoint>, b: CurvePoint, ks: seq<nat>, commits: seq<seq<byte>>,
      mask: seq<byte>, n: nat)
    requires Committed(g, b, ks, commits, mask, n)
    ensures AreCommits(commits, Multiples(g, b, ks), mask, n)
  {
    var R := Multiples(g, b, ks);
    forall i | 0 <= i < n && !Disables(mask, i)
      ensures IsCommit(commits[i], R[i])
    {
      EncodingEncodes(commits[i], R[i]);
    }
  }

  /** Round one: every signer draws a secret, and the enabled ones send their commits. */
  method CommitRound(cos: Cosigners, rands: seq<Bytes64>, base: seq<seq<PreComputedGroupElement>>)
    returns (commits: seq<seq<byte>>, secrets: seq<Secret>, ghost ks: seq<nat>)
    requires CurveLaw(cos.g) && BaseTable(base, cos.g, cos.base)
    requires |cos.mask| == MaskLength(|cos.keys|) && |rands| == |cos.keys|
    ensures Committed(cos.g, cos.base, ks, commits, cos.mask, |cos.keys|)
    ensures fresh(secrets) && Unspent(secrets, ks, 0)
  {
    commits, secrets, ks := [], [], [];
    for i := 0 to |cos.keys|
      invariant Committed(cos.g, cos.base, ks, commits, cos.mask, i)
      invariant |secrets| == i && fresh(secrets) && Unspent(secrets, ks, 0)
    {
      var commit, secret := Commit(rands[i], base, cos.g, cos.base);
      var disabled := cos.MaskBit(i);
      OneMoreUnspent(secrets, ks, secret);
      OneMoreCommitted(cos.g, cos.base, ks, commits, cos.mask, LeVal(secret.reduced), if disabled then [] else commit);
      commits := commits + [if disabled then [] else commit];
      secrets := secrets + [secret];
      ks := ks + [LeVal(secret.reduced)];
    }
  }

  lemma OneMoreUnspent(secrets: seq<Secret>, ks: seq<nat>, secret: Secret)
    requires Unspent(secrets, ks, 0) && secret.valid && secret !in secrets
    ensures Unspent(secrets + [secret], ks + [LeVal(secret.reduced)], 0)
  {
  }

  lemma OneMoreCommitted(g: Group<CurvePoint>, b: CurvePoint, ks: seq<nat>, commits: seq<seq<byte>>, mask: seq<byte>,
                         k: nat, commit: seq<byte>)
    requires Committed(g, b, ks, commits, mask, |ks|)
    requires !Disables(mask, |ks|) ==> commit == Encoding(Mul(g, k, b))
    ensures Committed(g, b, ks + [k], commits + [commit], mask, |ks| + 1)
  {
  }

  ghost predicate Answered(g: Group<CurvePoint>, b: CurvePoint, h: nat, A: seq<CurvePoint>,
                           commits: seq<seq<byte>>, parts: seq<seq<byte>>, mask: seq<byte>, n: nat)
    requires |A| == |commits|
  {
    |parts| == n <= |A| && forall i :: 0 <= i < n && !Disables(mask, i) ==>
        PartHolds(g, b, h, A[i], commits[i], parts[i])
  }

  /** One signer's answer. */
  method AnswerOne(privateKey: Bytes64, secret: Secret, message: seq<byte>, aggR: Bytes32, aggK: Bytes32, hash: Hash,
                ghost g: Group<CurvePoint>, ghost b: CurvePoint, ghost a: CurvePoint, ghost commit: seq<byte>)
    returns (part: Bytes32)
    requires CurveLaw(g) && OrderDivides(g, L, b) && secret.valid
    requires a == Mul(g, LeVal(Expanded(hash, privateKey)), b) && commit == Encoding(Mul(g, LeVal(secret.reduced), b))
    modifies secret
    ensures PartHolds(g, b, Challenge(hash, aggR, aggK, message), a, commit, part)
  {
    ghost var k := LeVal(secret.reduced);
    var answer := Cosign(privateKey, secret, message, aggK, aggR, hash);
    part := answer.value;
    HonestPartHolds(g, b, Challenge(hash, aggR, aggK, message), LeVal(Expanded(hash, privateKey)), k, commit, part);
  }

  /** Round two: every enabled signer answers the leader's aggregates. */
  method CosignRound(privateKeys: seq<Bytes64>, secrets: seq<Secret>, disabled: seq<bool>, message: seq<byte>,
                     aggR: Bytes32, aggK: Bytes32, hash: Hash, ghost g: Group<CurvePoint>, ghost b: CurvePoint,
                     ghost A: seq<CurvePoint>, ghost commits: seq<seq<byte>>, ghost ks: seq<nat>, ghost mask: seq<byte>)
    returns (parts: seq<seq<byte>>)
    requires CurveLaw(g) && OrderDivides(g, L, b) && HoldKeys(hash, g, b, A, privateKeys, mask)
    requires |disabled| == |A| && forall i :: 0 <= i < |A| ==> disabled[i] == Disables(mask, i)
    requires Committed(g, b, ks, commits, mask, |A|) && Unspent(secrets, ks, 0)
    modifies secrets
    ensures Answered(g, b, Challenge(hash, aggR, aggK, message), A, commits, parts, mask, |A|)
  {
    ghost var h := Challenge(hash, aggR, aggK, message);
    parts := [];
    for i := 0 to |privateKeys|
      invariant Unspent(secrets, ks, i)
      invariant Answered(g, b, h, A, commits, parts, mask, i)
    {
      var part: seq<byte> := [];
      if !disabled[i] {
        part := AnswerOne(privateKeys[i], secrets[i], message, aggR, aggK, hash, g, b, A[i], commits[i]);
      }
      parts := parts + [part];
    }
  }

  /** The enabled signers' private keys belong to their public keys.  Nothing is said of the others,
      whose keys may be anyone's or no one's. */
  ghost predicate HoldKeys(hash: Hash, g: Group<CurvePoint>, b: CurvePoint, A: seq<CurvePoint>,
                           privateKeys: seq<Bytes64>, mask: seq<byte>)
  {
    && |privateKeys| == |A|
    && forall i :: 0 <= i < |A| && !Disables(mask, i) ==> A[i] == Mul(g, LeVal(Expanded(hash, privateKeys[i])), b)
  }

  /** Keys that the key generator made belong together, whatever the mask. */
  lemma GeneratedKeysHold(hash: Hash, g: Group<CurvePoint>, b: CurvePoint, A: seq<CurvePoint>,
                          privateKeys: seq<Bytes64>, publicKeys: seq<seq<byte>>, mask: seq<byte>)
    requires CurveLaw(g) && AreKeys(publicKeys, A) && |privateKeys| == |publicKeys|
    requires forall i :: 0 <= i < |publicKeys| ==>
      publicKeys[i] == Encoding(Mul(g, LeVal(Expanded(hash, privateKeys[i])), b))
    ensures HoldKeys(hash, g, b, A, privateKeys, mask)
  {
    forall i | 0 <= i < |A|
      ensures A[i] == Mul(g, LeVal(Expanded(hash, privateKeys[i])), b)
    {
      var q := Mul(g, LeVal(Expanded(hash, privateKeys[i])), b);
      KeysReadFromBuffer(publicKeys, i);
      EncodingEncodes(publicKeys[i], q);
      DecodingUnique(publicKeys[i], A[i], q);
    }
  }

  /** Whom the mask disables. */
  method DisabledSigners(cos: Cosigners) returns (disabled: seq<bool>)
    requires |cos.mask| == MaskLength(|cos.keys|)
    ensures |disabled| == |cos.keys| && forall i :: 0 <= i < |disabled| ==> disabled[i] == Disables(cos.mask, i)
  {
    disabled := [];
    for i := 0 to |cos.keys|
      invariant |disabled| == i && forall k :: 0 <= k < i ==> disabled[k] == Disables(cos.mask, k)
    {
      var d := cos.MaskBit(i);
      disabled := disabled + [d];
    }
  }

  /** A signing run in which the enabled signers are honest makes a signature whose equation holds. */
  method SigningRun(cos: Cosigners, privateKeys: seq<Bytes64>, rands: seq<Bytes64>, message: seq<byte>,
                    base: seq<seq<PreComputedGroupElement>>) returns (sig: seq<byte>)
    requires cos.Valid() && OrderDivides(cos.g, L, cos.base) && BaseTable(base, cos.g, cos.base)
    requires HoldKeys(cos.hash, cos.g, cos.base, cos.points, privateKeys, cos.mask) && |rands| == |cos.keys|
    ensures |sig| == 64 + |cos.mask| && sig[64..] == cos.mask
    ensures EquationHolds(message, sig, cos.mask, cos.hash, cos.g, cos.base, cos.points)
  {
    var commits, secrets, ks := CommitRound(cos, rands, base);
    CommitsOfMultiples(cos.g, cos.base, ks, commits, cos.mask, |cos.keys|);
    var aggregate := cos.AggregateCommit(commits);
    var aggR := aggregate.value;
    var aggK := cos.AggregatePublicKey();
    var disabled := DisabledSigners(cos);
    var parts := CosignRound(privateKeys, secrets, disabled, message, aggR, aggK, cos.hash,
                             cos.g, cos.base, cos.points, commits, ks, cos.mask);
    var signed := cos.AggregateSignature(aggR, parts);
    sig := signed.value.value;
    ValidPartsAggregate(message, cos.hash, cos.g, cos.base, cos.points, Multiples(cos.g, cos.base, ks),
                        commits, parts, cos.mask, aggR, sig);
  }

  /** An honest run by any subset of signers is accepted exactly when the policy accepts that subset. */
  method HonestRun(cos: Cosigners, privateKeys: seq<Bytes64>, rands: seq<Bytes64>, message: seq<byte>,
                   base: seq<seq<PreComputedGroupElement>>) returns (sig: seq<byte>, accepted: bool)
    requires cos.Valid() && OrderDivides(cos.g, L, cos.base) && BaseTable(base, cos.g, cos.base)
    requires HoldKeys(cos.hash, cos.g, cos.base, cos.points, privateKeys, cos.mask) && |rands| == |cos.keys|
    modifies cos`mask, cos.aggr
    ensures cos.Valid() && cos.mask == old(cos.mask)
    ensures accepted <==> Accepts(cos.policy, |cos.keys|, cos.mask)
  {
    ghost var mask := cos.mask;
    sig := SigningRun(cos, privateKeys, rands, message, base);
    accepted := cos.Verify(message, sig);
    MaskDetermined(mask, cos.mask, |cos.keys|, mask);
  }
}
