/** Ordinary Ed25519 keys and signatures (ed25519/ed25519.go). */
module Ed25519 {
  import opened MachineInt
  import opened Congruence
  import opened Bytes
  import opened TwosComplement
  import opened Scalar
  import opened ScalarOps
  import opened AbelianGroup
  import opened CurveGroup
  import opened PointCodec
  import opened GroupElement
  import opened DoubleScalarMult
  import opened BaseScalarMult
  import opened Outcomes
  import opened Clamping
  import opened SecretScalar
  import opened Schnorr

  /** The bytes of a secret scalar's multiple of the base point. */
  method PublicKeyOf(h: Bytes32, base: seq<seq<PreComputedGroupElement>>, ghost g: Group<CurvePoint>,
                     ghost b: CurvePoint)
    returns (publicKey: Bytes32)
    requires CurveLaw(g) && BaseTable(base, g, b) && h[31] <= 127
    ensures publicKey == Encoding(Mul(g, LeVal(h), b))
  {
    var A := new ExtendedGroupElement();
    GeScalarMultBase(A, h, base, g, b);
    publicKey := A.ToBytes(Mul(g, LeVal(h), b));
  }

  /** The public key of a seed is its clamped hash's multiple of the base point: the first half of the hash with its
      three lowest bits cleared and its two highest bits set to 01. */
  method GenerateKey(seed: Bytes32, hash: Hash, base: seq<seq<PreComputedGroupElement>>,
                     ghost g: Group<CurvePoint>, ghost b: CurvePoint) returns (publicKey: Bytes32, privateKey: Bytes64)
    requires CurveLaw(g) && BaseTable(base, g, b)
    ensures privateKey == seed + publicKey
    ensures publicKey == Encoding(Mul(g, LeVal(Expanded(hash, privateKey)), b))
    ensures publicKey == Encoding(Mul(g, X254 + 8 * (LeVal(hash(seed)[..32]) / 8 % X251), b))
  {
    var digest := hash(seed);
    var hBytes := Clamped(digest[..32], 0x7f);
    publicKey := PublicKeyOf(hBytes, base, g, b);
    privateKey := seed + publicKey;
    assert privateKey[..32] == seed;
    assert LeVal(hBytes) == LeVal(Expanded(hash, privateKey));
  }

  /** The one-time secret of a signature, derived from the second half of the hashed seed and the message. */
  function Nonce(hash: Hash, privateKey: Bytes64, message: seq<byte>): (k: nat)
    ensures k < L && Cong(k, LeVal(hash(hash(privateKey[..32])[32..] + message)), L)
  {
    CongRes(LeVal(hash(hash(privateKey[..32])[32..] + message)), L);
    LeVal(hash(hash(privateKey[..32])[32..] + message)) % L
  }

  /** The signature R S of a message. */
  ghost predicate IsSignature(sig: seq<byte>, privateKey: Bytes64, message: seq<byte>, hash: Hash,
                              g: Group<CurvePoint>, b: CurvePoint)
  {
    && |sig| == 64 && sig[..32] == Encoding(Mul(g, Nonce(hash, privateKey, message), b))
    && LeVal(sig[32..]) == Answer(Challenge(hash, sig[..32], privateKey[32..], message),
                                  LeVal(Expanded(hash, privateKey)), Nonce(hash, privateKey, message))
  }

  /** The one-time secret and its multiple of the base point. */
  method OneTime(privateKey: Bytes64, message: seq<byte>, hash: Hash, base: seq<seq<PreComputedGroupElement>>,
                 ghost g: Group<CurvePoint>, ghost b: CurvePoint) returns (nonce: Bytes32, encodedR: Bytes32)
    requires CurveLaw(g) && BaseTable(base, g, b)
    ensures LeVal(nonce) == Nonce(hash, privateKey, message)
    ensures encodedR == Encoding(Mul(g, Nonce(hash, privateKey, message), b))
  {
    nonce := ScReduce(hash(hash(privateKey[..32])[32..] + message));
    ReducedScalar(nonce);
    var R := new ExtendedGroupElement();
    GeScalarMultBase(R, nonce, base, g, b);
    encodedR := R.ToBytes(Mul(g, LeVal(nonce), b));
  }

  /** Panics on a key of the wrong length. */
  method Sign(privateKey: seq<byte>, message: seq<byte>, hash: Hash, base: seq<seq<PreComputedGroupElement>>,
              ghost g: Group<CurvePoint>, ghost b: CurvePoint) returns (r: Outcome<seq<byte>>)
    requires CurveLaw(g) && BaseTable(base, g, b)
    ensures r.Panicked? <==> |privateKey| != 64
    ensures r.Returned? ==> IsSignature(r.value, privateKey, message, hash, g, b)
  {
    if |privateKey| != 64 {
      return Panicked;
    }
    var expandedSecretKey := Expanded(hash, privateKey);
    var nonce, encodedR := OneTime(privateKey, message, hash, base, g, b);
    var s := Respond(hash, encodedR, privateKey[32..], message, expandedSecretKey, nonce);
    var sig: seq<byte> := encodedR;
    sig := sig + s;
    assert sig[..32] == encodedR && sig[32..] == s;
    r := Returned(sig);
  }

  /** The answer to the challenge of a commit, key and message. */
  method Respond(hash: Hash, R: Bytes32, K: Bytes32, message: seq<byte>, x: Bytes32, k: Bytes32) returns (s: Bytes32)
    ensures LeVal(s) == Answer(Challenge(hash, R, K, message), LeVal(x), LeVal(k))
  {
    var h := ScReduce(hash(R + K + message));
    s := ScMulAdd(h, x, k);
  }

  /** What Verify accepts. */
  ghost predicate Accepted(publicKey: Bytes32, message: seq<byte>, sig: seq<byte>, hash: Hash,
                           g: Group<CurvePoint>, b: CurvePoint, q: CurvePoint)
  {
    && |sig| == 64 && sig[63] < 0x20
    && sig[..32] == Encoding(Expected(g, Challenge(hash, sig[..32], publicKey, message), q, LeVal(sig[32..]), b))
  }

  /** The length, a scalar below 2^253, and R = s B - h A. */
  lemma AcceptedMeans(publicKey: Bytes32, message: seq<byte>, sig: seq<byte>, hash: Hash,
                      g: Group<CurvePoint>, b: CurvePoint, q: CurvePoint)
    ensures Accepted(publicKey, message, sig, hash, g, b, q) <==>
      && |sig| == 64 && LeVal(sig[32..]) < Pow2(253)
      && sig[..32] == Encoding(g.add(Mul(g, Challenge(hash, sig[..32], publicKey, message), g.neg(q)),
                                     Mul(g, LeVal(sig[32..]), b)))
  {
    if |sig| == 64 {
      TopClear(sig[32..]);
    }
  }

  /** Panics on a key of the wrong length, and rejects keys that denote no point. */
  method Verify(publicKey: seq<byte>, message: seq<byte>, sig: seq<byte>, hash: Hash, bi: seq<PreComputedGroupElement>,
                ghost g: Group<CurvePoint>, ghost b: CurvePoint) returns (r: Outcome<bool>)
    requires CurveLaw(g) && BaseOdds(bi, g, b)
    ensures r.Panicked? <==> |publicKey| != 32
    ensures r.Returned? ==> forall q: CurvePoint :: Encodes(publicKey, q) ==>
      r.value == Accepted(publicKey, message, sig, hash, g, b, q)
    ensures r == Returned(true) ==> exists q: CurvePoint :: Encodes(publicKey, q)
  {
    if |publicKey| != 32 {
      return Panicked;
    }
    if |sig| != 64 {
      return Returned(false);
    }
    HighBits(sig[63]);
    if And(sig[63], 224) != 0 {
      return Returned(false);
    }
    var A := new ExtendedGroupElement();
    var decoded := A.FromBytes(publicKey);
    if !decoded {
      return Returned(false);
    }
    ghost var q: CurvePoint :| Encodes(publicKey, q) && A.Rep(q);
    var ok := CheckEquation(publicKey, message, sig, hash, bi, A, g, b, q);
    r := Returned(ok);
    forall q': CurvePoint | Encodes(publicKey, q')
      ensures q' == q
    {
      DecodingUnique(publicKey, q, q');
    }
  }

  /** The equation, for a key that decoded. */
  method CheckEquation(publicKey: Bytes32, message: seq<byte>, sig: seq<byte>, hash: Hash,
                       bi: seq<PreComputedGroupElement>,
                       A: ExtendedGroupElement, ghost g: Group<CurvePoint>, ghost b: CurvePoint, ghost q: CurvePoint)
    returns (ok: bool)
    requires CurveLaw(g) && BaseOdds(bi, g, b) && A.Rep(q) && |sig| == 64 && sig[63] < 0x20
    ensures ok == Accepted(publicKey, message, sig, hash, g, b, q)
  {
    var minusA := NegatedCopy(A, g, q);
    var hReduced := ScReduce(hash(sig[..32] + publicKey + message));
    ReducedScalar(hReduced);
    var R := new ProjectiveGroupElement();
    GeDoubleScalarMultVartime(R, hReduced, minusA, sig[32..], bi, g, g.neg(q), b);
    var checkR := R.ToBytes(Expected(g, LeVal(hReduced), q, LeVal(sig[32..]), b));
    ok := sig[..32] == checkR;
  }

  /** A generated key's signatures are accepted, on every message. */
  lemma SignaturesAccepted(privateKey: Bytes64, message: seq<byte>, sig: seq<byte>, hash: Hash,
                           g: Group<CurvePoint>, b: CurvePoint)
    requires CurveLaw(g) && OrderDivides(g, L, b) && IsSignature(sig, privateKey, message, hash, g, b)
    requires privateKey[32..] == Encoding(Mul(g, LeVal(Expanded(hash, privateKey)), b))
    ensures Accepted(privateKey[32..], message, sig, hash, g, b, Mul(g, LeVal(Expanded(hash, privateKey)), b))
    ensures Encodes(privateKey[32..], Mul(g, LeVal(Expanded(hash, privateKey)), b))
  {
    var h := Challenge(hash, sig[..32], privateKey[32..], message);
    HonestPart(g, h, LeVal(Expanded(hash, privateKey)), Nonce(hash, privateKey, message), b);
    EncodingEncodes(privateKey[32..], Mul(g, LeVal(Expanded(hash, privateKey)), b));
    var s: Bytes32 := sig[32..];
    ReducedScalar(s);
  }
}
