# Verification of RC2's cryptographic and protocol cores

RC2 is a sharded blockchain written in Go.  This project models the parts of it that are hardest to get
right and proves what they promise:

- **Curve25519** (`ed25519/edwards25519`): field arithmetic in ten signed limbs, its codecs and addition
  chains, reduction modulo the group order, the Edwards point formulas, point compression, two scalar
  recodings and two scalar multiplications.
- **Ed25519 and CoSi** (`ed25519`, `Reputation/cosi`): single and collective signatures over that curve,
  from the bytes of the keys to the answer of `Verify`.
- **Base58**, **sharding**, first-phase **reputation gossip** and the **cross-shard decision**.  For gossip,
  `GossipRuns` and `GossipBlocks` prove properties of all runs of a system of nodes, and `GossipNodes` that the
  nodes' own methods (`Gossip`) take the steps of these runs.

The whole project is one Dafny 4.11 program: `dafny verify dfyconfig.toml`.

## How the layers meet

1. *Limbs to integers.*  `FieldElement`, `FieldCodec` and `FieldPowers` say which integer mod p = 2^255-19
   ten limbs stand for, and that no 32- or 64-bit value overflows.  `Scalar`, `ScalarCodec` and `ScalarOps`
   do the same mod l = 2^252 + 27742317777372353535851937790883648493.
2. *Coordinates to points.*  `Edwards` proves the affine addition law complete and closed, `Associativity`
   that it is associative, and `CurveGroup` concludes that the curve is an abelian group.  `PointFormulas` and
   `GroupElement` prove that the four coordinate systems compute in it, `SquareRoots` and `PointCodec` that
   points are encoded and decoded.
3. *Loops to multiples.*  `Recoding`, `DoubleScalarMult` and `BaseScalarMult` prove both scalar
   multiplications over that group.
4. *Signatures.*  `Clamping`, `SecretScalar`, `Schnorr`, `Ed25519`, `Masks`, `Cosi`, `CosiSigning` and
   `CosiTheorems` stand on the above: their classes hold the verified point objects, not abstract ones.

A method is proved against a specification function, and what the function computes is then said without it:
`SecretScalar.Expanded` and `Masks.MaskIsNumber` in binary digits, `Cosi.AcceptsIff` by counting a set,
`Ed25519.AcceptedMeans` and `CosiSigning.SignedMeans` in numbers and points, `Base58.InAlphabet` in characters,
`Sorting.CompareIsLower` by the first difference, `Gossip.Received` and `CrossShard.FinalState` by which messages
and reports there were.  `GossipWitness`, `ShardDraws.SomeDrawsFinish` and `CrossShard.HonestRuns` show that the
runs the theorems speak of exist.

Classes model the structures that the program updates in place.  `[10]int32` is a datatype `Limbs`: as in
Go it is a value, and the field functions, which write through a pointer, return it.  `Bounded(f, n)` counts
limb bounds in units of 1.1*2^25 and 1.1*2^24; `Rep(q)` of a point object says which affine point it
represents and how large its limbs are.  A method whose loop body or run of carries is long is divided into
named methods for the steps.

Some predicates are stated through a quantifier with a trigger of its own (`Parameters`, `Opened`, `At`,
`Pick`, `LimbForLimb`).  They mean what their body says at the curve's parameters; the trigger keeps the verifier
from unfolding them where they are only passed on.

## Hypotheses

They appear as preconditions, never as axioms:

- `PrimeModulus(P)`: p is prime (`Primes.PrimeIffIrreducible`: in the usual sense).  That d is not a square and that the curve is a group are proved from it.
- `CurveLaw(g)`: p is prime and `g` is an abelian group on the curve points whose sum is the affine Edwards
  sum.  `CurveGroup.EdwardsIsGroup` proves it of the curve's own addition from the primality of p.
- `OrderDivides(g, L, b)`: l times the base point is the neutral element.
- `BaseTable` and `BaseOdds`: `base[pos][j]` represents (j+1)*256^pos*B and `bi[j]` represents (2j+1)*B,
  within limb bounds.  d, d2 and SqrtM1 are checked against their definition.
- SHA-512, the hash of gossip messages and the making of blocks are arbitrary functions.

## Where code and comments differ

- The comment before `FeMul` (edwards25519.go:351) bounds its inputs by 1.1*2^26 / 1.1*2^25.  `Double` and
  `geAdd` hand it sums of three limbs, within 1.65*2^26 / 1.65*2^25, the bound given before `FeSquare2`; the model
  proves multiplication for that bound.  `LimbBounds.DoubleBeyondComment` doubles a point beyond the comment's.
- `slide` promises the sum a without a precondition.  A carry can run off the end when a[31] > 127, and the
  sum is then a - 2^256.  `Recoding.Recodable` is the exact condition for the sum to be a, 2^255 + 2^251 does
  not meet it (`CarryRunsOff`, `LosingScalar`), and `GeDoubleScalarMultVartime` is proved for all scalars in
  these terms.
- `FromBytes` accepts y coordinates that are not reduced and a sign bit beside x = 0; RFC 8032, section
  5.1.3, rejects both.  `PointCodec.Encodes` describes what the code accepts; `CanonicalIff` says when writing
  gives back what was read, and `NeutralReadTwice` names inputs for which it does not.
- CoSi's package-level `Verify` dereferences nil when a public key does not decode; `CosiSigning.Verify`
  panics exactly in that case, for signatures of at least 64 bytes.  A key of ordinate 2 is one
  (`CosiSigning.UndecodableKeys`).
- `NewCosigners` copies all keys through one buffer, so that a key that is too short is completed with bytes of
  the key before it, not rejected (`CosiSigning.KeysReadFromBuffer`).
- `UpdateGossipFir` compares the round with `>` although the arrays have exactly that many rounds, so that a
  message of round NumNewRep indexes past the end (`Gossip.GuardMissesLimit`).  An unknown sender or owner, an
  empty message and a count past the data are not guarded against either.
- `HandleGossipFirSend` reads the round in the first message of its reply, and fails if there is none: when the
  sender mentioned all that the receiver knows (`Gossip.EquallyInformed`).
- `SortRep` guards its scan from the right with `j > 0`, not `j > l`; `Sorting.ScanDown` shows that it stays
  in range.
- `CrossShardDec` leaves the decision on a transaction without inputs open, although no input said no;
  `CrossShard.YesMeansAllIffInputs` shows that this is the only exception.

## Model

| member | source | states |
|---|---|---|
| FieldElement.FeZero | ed25519/edwards25519/edwards25519.go:18-20 | The limbs are all 0. |
| FieldElement.FeOne | ed25519/edwards25519/edwards25519.go:22-25 | The value is 1, within one unit. |
| FieldElement.FeAdd | ed25519/edwards25519/edwards25519.go:27-38 | The value is exactly the sum of the values; no limb overflows 32 bits and limb bounds add up. |
| FieldElement.FeSub | ed25519/edwards25519/edwards25519.go:40-51 | The value is exactly the difference of the values; limb bounds add up. |
| FieldElement.FeNeg | ed25519/edwards25519/edwards25519.go:245-256 | The value is negated and the limb bound kept. |
| FieldElement.FeCombine | ed25519/edwards25519/edwards25519.go:258-372 | Ten columns as large as any multiplication makes them are carried, without overflow, to limbs of one unit that denote the same residue mod 2^255-19 and that the columns alone determine. |
| FieldElement.ProductCong | ed25519/edwards25519/edwards25519.go:374-425 | The ten column sums of a product denote the product mod 2^255-19. |
| FieldElement.FeMulLimbs | ed25519/edwards25519/edwards25519.go:374-425 | For limbs up to 1.65*2^26 / 1.65*2^25 every scaled limb fits 32 bits, every column fits 64, and the columns are the schoolbook ones. |
| FieldElement.FeMul | ed25519/edwards25519/edwards25519.go:374-425 | For inputs up to the 1.65 bound the result denotes f*g mod p and is back within one unit. |
| FieldElement.FeSquareLimbs | ed25519/edwards25519/edwards25519.go:427-471 | The halved computation gives limb for limb the columns that a multiplication of f by itself hands to the carries. |
| FieldElement.FeSquare | ed25519/edwards25519/edwards25519.go:473-477 | The result denotes f*f mod p, within one unit, and is the product of f by itself limb for limb. |
| FieldElement.ProductDetermined | ed25519/edwards25519/edwards25519.go:374-477 | FeMul and FeSquare are functions of the columns of a product: FeSquare(f) and FeMul(f, f) are the same limbs. |
| FieldElement.FeSquare2 | ed25519/edwards25519/edwards25519.go:479-503 | The result denotes 2*f*f mod p: the doubled columns still fit 64 bits. |
| FieldCodec.FeFromBytes | ed25519/edwards25519/edwards25519.go:92-128 | The value is congruent to the low 255 bits of the little-endian source, within one unit. |
| FieldCodec.EstimateIsQuotient | ed25519/edwards25519/edwards25519.go:130-146 | The rounded estimate from the top limb is the exact quotient floor(h/p), for all h within three units. |
| FieldCodec.Quotient | ed25519/edwards25519/edwards25519.go:135-146 | Rippling a carry through the limbs gives floor(h/p). |
| FieldCodec.Canonicalize | ed25519/edwards25519/edwards25519.go:135-178 | The argument is left in the unique limbs, each in its own 26 or 25 bits, of its residue in [0, p). |
| FieldCodec.PackLow | ed25519/edwards25519/edwards25519.go:186-201 | Sixteen bytes, shared ones included, hold exactly the low five limbs. |
| FieldCodec.PackHigh | ed25519/edwards25519/edwards25519.go:202-217 | Sixteen bytes hold exactly the high five limbs. |
| FieldCodec.FeToBytes | ed25519/edwards25519/edwards25519.go:130-217 | The bytes are the representative in [0, p) little-endian, for all inputs within three units; the argument is left denoting the same element. |
| FieldCodec.FeIsNegative | ed25519/edwards25519/edwards25519.go:219-223 | The parity of the canonical residue. |
| FieldCodec.FeIsNonZero | ed25519/edwards25519/edwards25519.go:225-243 | 0 exactly when the element is 0 mod p: folding the or of all bytes onto bit 0 loses nothing. |
| FieldCodec.Reencode | ed25519/edwards25519/edwards25519.go:92-217 | Encoding after decoding reduces the low 255 bits mod p, and is the identity on canonical input. |
| FieldPowers.SquareTimes | ed25519/edwards25519/edwards25519.go:505-619 | A squaring and its loop of n-1 squarings raise to the power 2^n. |
| FieldPowers.FeInvert | ed25519/edwards25519/edwards25519.go:505-558 | The addition chain computes z^(p-2) mod p for every z, which for p prime is the inverse of every z that is not 0. |
| FieldPowers.FePow22523 | ed25519/edwards25519/edwards25519.go:560-619 | The addition chain computes z^((p-5)/8) mod p for every z. |
| Fermat.FermatLittle | ed25519/edwards25519/edwards25519.go:505-558 | For p prime and a not 0 mod p, a^(p-1) is 1 mod p: why the power p-2 inverts. |
| Scalar.FoldHigh | ed25519/edwards25519/edwards25519.go:1503-1600 | Folding a limb above 2^252 down with the six constants keeps the residue mod l. |
| Scalar.BeforeFloor | ed25519/edwards25519/edwards25519.go:1636-1727 | The rounded carries leave a value so small that the floor carries can only produce -1 or 0 at the top. |
| Scalar.Reduce | ed25519/edwards25519/edwards25519.go:1503-1759 | Twenty-four limbs are reduced to twelve 21-bit digits of the residue in [0, l), with no 64-bit overflow in any carry or fold. |
| ScalarCodec.LoadWide | ed25519/edwards25519/edwards25519.go:1478-1501 | The loads cut 64 bytes into 24 limbs of the same value. |
| ScalarCodec.Store | ed25519/edwards25519/edwards25519.go:1761-1792 | The stores write twelve 21-bit limbs as the 32 bytes of the same value. |
| ScalarOps.ColumnsValue | ed25519/edwards25519/edwards25519.go:1085-1108 | The column sums of ScMulAdd stand for a*b+c. |
| ScalarOps.ScReduce | ed25519/edwards25519/edwards25519.go:1477-1792 | The result is exactly s mod l, in [0, l), for every 64-byte s. |
| ScalarOps.ScMulAdd | ed25519/edwards25519/edwards25519.go:1046-1475 | The result is exactly (a*b+c) mod l, in [0, l), for all 32-byte a, b, c. |
| CurveGroup.DIsTheRatio | ed25519/edwards25519/const.go:10-13 | d, defined as -121665/121666 mod p, is the number that the limbs of const.go are compared with. |
| CurveGroup.ConstantsCorrect | ed25519/edwards25519/const.go:10-23 | d, d2 and SqrtM1 are d, 2d and a square root of -1 mod p. |
| Edwards.Complete | ed25519/edwards25519/edwards25519.go:621-622 | The addition law has no zero denominator on the curve, for p prime, d not a square and -1 a square. |
| SquareRoots.TwoIsNoSquare | ed25519/edwards25519/edwards25519.go:621-622 | 2 is not a square modulo a prime 8e+5: (1+i)^2 = 2i would make 1 equal to -1. |
| CurveGroup.DNonSquare | ed25519/edwards25519/const.go:10-13 | From p prime alone: d is not a square mod p, since it is 2 over a square. |
| Edwards.SumOnCurve | ed25519/edwards25519/edwards25519.go:621-622 | The sum of two curve points is on the curve. |
| Edwards.SumUnique | ed25519/edwards25519/edwards25519.go:621-622 | The sum is unique mod p. |
| Associativity.Balanced | ed25519/edwards25519/edwards25519.go:621-628 | Cleared of denominators, both ways to add three points have the same abscissa. |
| Associativity.Associates | ed25519/edwards25519/edwards25519.go:621-628 | The addition law is associative: the ordinate follows from the abscissa by adding a point of order four. |
| CurveGroup.EdwardsIsGroup | ed25519/edwards25519/edwards25519.go:621-628 | From p prime alone, the curve with the affine addition law is an abelian group; every theorem below that names a group holds for it. |
| PointFormulas.AddRep | ed25519/edwards25519/edwards25519.go:803-817 | Extended plus cached coordinates give the affine sum in completed coordinates with nonzero denominators. |
| PointFormulas.DoubleRep | ed25519/edwards25519/edwards25519.go:656-668 | Three squares and a doubled one give the sum of a curve point with itself. |
| PointFormulas.CachedReflected | ed25519/edwards25519/edwards25519.go:819-833 | Exchanging Y+X with Y-X and negating 2dT caches the negative point. |
| Coordinates.SubIsComp | ed25519/edwards25519/edwards25519.go:819-833 | The subtraction formula computes a + (-b). |
| GroupElement.ProjectiveGroupElement.Zero | ed25519/edwards25519/edwards25519.go:650-654 | Represents the neutral element, within bounds. |
| GroupElement.ProjectiveGroupElement.Double | ed25519/edwards25519/edwards25519.go:656-668 | Represents a + a with denominators that are not 0, limbs within bounds. |
| LimbBounds.DoubleBeyondComment | ed25519/edwards25519/edwards25519.go:656-668 | For coordinates of the base point within one unit, doubling takes a limb that it multiplies above the bound of 1.1*2^26 stated for multiplication. |
| GroupElement.ProjectiveGroupElement.ToBytes | ed25519/edwards25519/edwards25519.go:670-678 | The bytes are the one encoding of the point, and decode to it. |
| GroupElement.ExtendedGroupElement.Zero | ed25519/edwards25519/edwards25519.go:680-685 | Represents the neutral element, within bounds. |
| GroupElement.ExtendedGroupElement.Double | ed25519/edwards25519/edwards25519.go:687-691 | Represents a + a. |
| GroupElement.ExtendedGroupElement.Add | ed25519/edwards25519/edwards25519.go:693-702 | Represents a + b, also where the target is an operand. |
| GroupElement.ExtendedGroupElement.Sub | ed25519/edwards25519/edwards25519.go:704-713 | Represents a - b, also where the target is an operand. |
| GroupElement.ExtendedGroupElement.ToCached | ed25519/edwards25519/edwards25519.go:715-720 | Caches the same point, within the wider bounds of a cached one. |
| GroupElement.ExtendedGroupElement.ToProjective | ed25519/edwards25519/edwards25519.go:722-726 | The same point. |
| GroupElement.ExtendedGroupElement.ToBytes | ed25519/edwards25519/edwards25519.go:728-736 | The bytes are the one encoding of the point, and decode to it. |
| GroupElement.ExtendedGroupElement.FromBytes | ed25519/edwards25519/edwards25519.go:738-782 | Returns true exactly when some curve point is denoted, which is then the one represented, with Z = 1 and XY = ZT. |
| GroupElement.CompletedGroupElement.ToProjective | ed25519/edwards25519/edwards25519.go:784-788 | The same point, back within one unit. |
| GroupElement.CompletedGroupElement.ToExtended | ed25519/edwards25519/edwards25519.go:790-795 | The same point with XY = ZT, back within bounds. |
| GroupElement.PreComputedGroupElement.Zero | ed25519/edwards25519/edwards25519.go:797-801 | Represents the neutral element. |
| GroupElement.GeAdd | ed25519/edwards25519/edwards25519.go:803-817 | Represents a + b; every multiplication inside gets limbs within its bound. |
| GroupElement.GeSub | ed25519/edwards25519/edwards25519.go:819-833 | Represents a - b. |
| GroupElement.GeMixedAdd | ed25519/edwards25519/edwards25519.go:835-848 | Represents a + b for a table entry b. |
| GroupElement.GeMixedSub | ed25519/edwards25519/edwards25519.go:850-863 | Represents a - b for a table entry b. |
| GroupElement.NegatedCopy | Reputation/cosi/verify.go:107-109 | Negating X and T of a copy of a point represents the negative point. |
| SquareRoots.CandidateWorks | ed25519/edwards25519/edwards25519.go:746-765 | If u/v has any square root mod p, v times the square of the candidate is u or -u. |
| SquareRoots.OtherRoot | ed25519/edwards25519/edwards25519.go:766-769 | In the case -u, the factor sqrt(-1) makes the candidate a root. |
| PointCodec.FindRoot | ed25519/edwards25519/edwards25519.go:746-775 | A root of u/v is found if there is one, and false is returned only if there is none. |
| PointCodec.ChooseSign | ed25519/edwards25519/edwards25519.go:777-779 | The root kept has the parity of bit 255, unless it is 0. |
| PointCodec.DecodePoint | ed25519/edwards25519/edwards25519.go:738-782 | Decoding fails exactly when no curve point is denoted; otherwise coordinates of the denoted point. |
| PointCodec.NoPointAtTwo | ed25519/edwards25519/edwards25519.go:738-782 | No point has the ordinate 2. |
| PointCodec.TwoDenotesNothing | ed25519/edwards25519/edwards25519.go:738-782 | So there are bytes that denote no point, on which decoding fails. |
| PointCodec.EncodePoint | ed25519/edwards25519/edwards25519.go:728-736 | Inversion, two products and the xor of the sign bit give the encoding of the affine point. |
| PointCodec.DecodingUnique | ed25519/edwards25519/edwards25519.go:738-782 | No two curve points are denoted by the same bytes. |
| PointCodec.EncodingEncodes | ed25519/edwards25519/edwards25519.go:728-782 | The encoding of a point denotes it: decoding inverts encoding. |
| PointCodec.CanonicalIff | ed25519/edwards25519/edwards25519.go:728-782 | Encoding inverts decoding exactly for bytes whose y is reduced and whose top bit is not set beside x = 0. |
| PointCodec.NeutralReadTwice | ed25519/edwards25519/edwards25519.go:738-782 | Two byte strings that denote the neutral element and are not its encoding, one for each exception. |
| Recoding.PropagateCarry | ed25519/edwards25519/edwards25519.go:878-886 | The carry loop adds 2^k, and runs off index 255 only through a row of ones. |
| Recoding.AbsorbBits | ed25519/edwards25519/edwards25519.go:872-891 | A set bit and the five above it become one odd digit in [-15, 15] followed by four zeros, at the same value. |
| Recoding.Slide | ed25519/edwards25519/edwards25519.go:865-893 | Digits are 0 or odd in [-15, 15], nonzero ones at least five apart; they sum to a if a has such digits at all, which it does if a[31] <= 127, and to a - 2^256 if not. |
| Recoding.SparseRecodable | ed25519/edwards25519/edwards25519.go:865-893 | Whatever such digits sum to passes the test by which the sum of slide is told. |
| Recoding.HalfRangeRecodable | ed25519/edwards25519/edwards25519.go:865-893 | Numbers up to 2^255 pass it. |
| Recoding.CarryRunsOff | ed25519/edwards25519/edwards25519.go:878-886 | 2^255 + 2^251 does not: its carry runs off the end, and the digits sum to it less 2^256. |
| Recoding.LosingScalar | ed25519/edwards25519/edwards25519.go:865-893 | The 32 bytes of that number, as an argument of slide. |
| Recoding.RecodingUnique | ed25519/edwards25519/edwards25519.go:865-893 | No number has two such strings of digits. |
| Recoding.Radix16 | ed25519/edwards25519/edwards25519.go:1005-1022 | Digits sum to a in radix 16, all in [-8, 8) but the top one, which is in [0, 8] if a[31] <= 127. |
| DoubleScalarMult.FillTable | ed25519/edwards25519/edwards25519.go:909-917 | The table holds A, 3A, ..., 15A. |
| DoubleScalarMult.FirstDigit | ed25519/edwards25519/edwards25519.go:921-925 | The digits skipped at the top are zero in both recodings. |
| DoubleScalarMult.RoundOfDigits | ed25519/edwards25519/edwards25519.go:927-947 | Doubling and adding one digit of each scalar turns the combination for the digits above i into the one for the digits from i. |
| DoubleScalarMult.SumDigits | ed25519/edwards25519/edwards25519.go:919-947 | The main loop represents the combination of the two recoded values. |
| DoubleScalarMult.GeDoubleScalarMultVartime | ed25519/edwards25519/edwards25519.go:899-948 | For all a, b represents the combination of A and B by what slide makes of a and b, which is a*A + b*B for a, b below 2^255. |
| TwosComplement.Select | ed25519/edwards25519/edwards25519.go:61-73 | The masked exclusive or is f for b = 0 and g for b = 1. |
| TwosComplement.Equal | ed25519/edwards25519/edwards25519.go:952-956 | 1 exactly for equal non-negative arguments, by the wrap-around of 0 - 1. |
| TwosComplement.Negative | ed25519/edwards25519/edwards25519.go:959-961 | 1 exactly for negative b. |
| TwosComplement.Magnitude | ed25519/edwards25519/edwards25519.go:971-972 | The masked subtraction gives |b|. |
| BaseScalarMult.FeCMove | ed25519/edwards25519/edwards25519.go:61-73 | All ten limbs are replaced if b is 1 and kept if b is 0. |
| BaseScalarMult.PreComputedGroupElementCMove | ed25519/edwards25519/edwards25519.go:963-967 | The target represents the other point if b is 1, and what it did if b is 0. |
| BaseScalarMult.SelectPoint | ed25519/edwards25519/edwards25519.go:969-984 | For b in [-8, 8] the branch-free selection is b*256^pos*B. |
| BaseScalarMult.DigitsInterleaved | ed25519/edwards25519/edwards25519.go:1015-1034 | Sixteen times the odd digits plus the even digits, each in radix 256, is the value in radix 16. |
| BaseScalarMult.AddPass | ed25519/edwards25519/edwards25519.go:1015-1019 | One pass adds the digits of one parity times their powers of 256. |
| BaseScalarMult.GeScalarMultBase | ed25519/edwards25519/edwards25519.go:990-1034 | Represents a*B for every a with a[31] <= 127. |
| Clamping.ClampHigh | ed25519/ed25519.go:79-81 | The masks 63 and 127 before setting bit 6 give the same byte, so key generation and signing use the same scalar. |
| SecretScalar.Expanded | ed25519/ed25519.go:105-112 | The secret scalar is 2^254 + 8*(floor(v/8) mod 2^251), for v the first half of the hashed seed as a number. |
| Schnorr.GroupOrder | ed25519/edwards25519/edwards25519.go:1036-1045 | The modulus l is 2^252 + 27742317777372353535851937790883648493. |
| Primes.PrimeIffIrreducible | ed25519/edwards25519/edwards25519.go:505-558 | The moduli called prime are those above 1 that no number between 1 and them divides. |
| Schnorr.HonestPart | Reputation/cosi/sign.go:117-121 | s = h*x + k mod l satisfies s*B - h*(x*B) = k*B, if l*B = 0. |
| Schnorr.PartsAddUp | Reputation/cosi/cosi.go:201-211 | If every enabled part satisfies its equation under one challenge, the sums satisfy the aggregate equation. |
| Ed25519.GenerateKey | ed25519/ed25519.go:66-94 | The public key encodes 2^254 + 8*(floor(v/8) mod 2^251) times B, for v the first half of the hashed seed as a number; the private key is seed and public key. |
| Ed25519.Sign | ed25519/ed25519.go:99-145 | Panics exactly if the key has not 64 bytes; R encodes k*B and S answers the challenge of R, the public key and the message. |
| Ed25519.Verify | ed25519/ed25519.go:149-184 | Panics exactly if the key has not 32 bytes.  For a key that denotes a point, true exactly if the length and top bits are right and R encodes S*B - h*A; false for other keys. |
| Ed25519.AcceptedMeans | ed25519/ed25519.go:149-184 | What Verify accepts of a key: 64 bytes, a scalar S below 2^253, and R the encoding of S*B - h*A. |
| Ed25519.SignaturesAccepted | ed25519/ed25519.go:99-184 | Verify accepts what Sign makes with a generated key, on every message and for every hash function. |
| Masks.MaskDetermined | Reputation/cosi/cosi.go:349-380 | The mask kept after SetMask depends on the argument alone. |
| Masks.SumFlip | Reputation/cosi/cosi.go:392-409 | Enabling one more cosigner adds exactly its key to the aggregate. |
| Masks.WithBit | Reputation/cosi/cosi.go:392-409 | Exactly one bit of the mask changes. |
| Masks.EnabledCount | Reputation/cosi/cosi.go:333-341 | The count is at most n, and n exactly if no one is disabled. |
| Masks.EnabledCardinality | Reputation/cosi/cosi.go:333-341 | The count is the number of cosigners whose bit is not set. |
| Masks.MaskIsNumber | Reputation/cosi/cosi.go:410-414 | Cosigner i is disabled exactly if the mask, as a little-endian number, has the binary digit of weight 2^i. |
| Cosi.Cosigners.constructor | Reputation/cosi/cosi.go:314-324 | Starts with every byte of the mask 0xff, everyone disabled and a zero aggregate, which satisfies the invariant. |
| Cosi.Cosigners.CountEnabled | Reputation/cosi/cosi.go:333-341 | Counts exactly the cosigners that the mask does not disable. |
| Cosi.Cosigners.MaskBit | Reputation/cosi/cosi.go:410-414 | Reads one bit, a padding bit too. |
| Cosi.Cosigners.Disable | Reputation/cosi/cosi.go:396-399 | The bit is set and the aggregate loses exactly that key. |
| Cosi.Cosigners.Enable | Reputation/cosi/cosi.go:401-404 | The bit is cleared and the aggregate gains exactly that key. |
| Cosi.Cosigners.SetMaskBit | Reputation/cosi/cosi.go:392-406 | Changes that bit alone, also where it sets a padding bit again, and keeps the aggregate the sum of exactly the enabled keys. |
| Cosi.Cosigners.SetMask | Reputation/cosi/cosi.go:358-377 | Keeps the invariant and leaves the mask that the argument determines, padding bits set. |
| Cosi.AcceptsIff | Reputation/cosi/verify.go:33-43 | The full policy accepts exactly if no cosigner is disabled, the threshold policy exactly if t or more are not. |
| Cosi.Cosigners.Check | Reputation/cosi/verify.go:33-43 | Decides just that, in the number of cosigners whose bit is clear. |
| Cosi.Cosigners.VerifyEquation | Reputation/cosi/verify.go:91-124 | True exactly if the lengths and top bits are right and sigR encodes S*B - h*q, with h from the aggregate commit, aggregate key and message. |
| Cosi.Cosigners.Verify | Reputation/cosi/verify.go:73-89 | Wrong lengths change nothing; otherwise the mask becomes the signature's and the answer is yes exactly if the policy accepts that mask and the equation holds for it. |
| Cosi.Cosigners.VerifyPart | Reputation/cosi/sign.go:221-225 | The equation for one signer's key under the challenge of all. |
| Cosi.Cosigners.AggregatePublicKey | Reputation/cosi/sign.go:135-139 | Encodes the sum of the enabled keys. |
| Cosi.Cosigners.AggregateCommit | Reputation/cosi/sign.go:147-172 | Encodes the sum of the commits of enabled keys, whatever else is listed, and is nil exactly if one of them has the wrong length or is no point. |
| Cosi.Cosigners.AggregateSignature | Reputation/cosi/sign.go:184-210 | R, the sum mod l of the parts of enabled keys, and the mask; nil or a panic on wrong lengths. |
| CosiSigning.NewCosigners | Reputation/cosi/cosi.go:301-324 | For keys of any length: nil exactly if one denotes no point, as read from the buffer; otherwise the invariant with the mask that the argument determines. |
| CosiSigning.KeysReadFromBuffer | Reputation/cosi/cosi.go:302-308 | The buffer holds a key of 32 bytes, the first 32 of a longer one, and a shorter one completed by bytes of the keys before it. |
| CosiSigning.UndecodableKeys | Reputation/cosi/cosi.go:305-311 | A list with a key of ordinate 2 does not decode. |
| CosiSigning.Verify | Reputation/cosi/verify.go:160-169 | Panics exactly if the signature has its 64 bytes and the key list does not decode; otherwise returns exactly whether the signature's mask meets the policy and its equation holds. |
| CosiSigning.SignedMeans | Reputation/cosi/verify.go:73-124 | What it accepts with a threshold t: a mask of the right length whose clear bits number t or more, a scalar s below 2^253, and R the encoding of s*B - h*q for the sum q of the keys with clear bits. |
| CosiSigning.Commit | Reputation/cosi/sign.go:44-71 | The commit encodes the reduced secret times B, and the secret is unspent. |
| CosiSigning.Cosign | Reputation/cosi/sign.go:82-132 | Returns h*x + k mod l and spends the secret; panics, changing nothing, on wrong lengths or a spent secret. |
| CosiTheorems.ValidPartsAggregate | Reputation/cosi/cosi.go:201-211 | If VerifyPart accepts every enabled part against the aggregate commit, the aggregate signature passes the equation of Verify. |
| CosiTheorems.HonestPartHolds | Reputation/cosi/sign.go:82-225 | VerifyPart accepts an honest part. |
| CosiTheorems.SigningRun | Reputation/cosi/cosi.go:150-182 | Commit, AggregateCommit, Cosign and AggregateSignature by any subset of signers who hold their keys make a signature whose equation holds; whose the other keys are does not matter. |
| CosiTheorems.HonestRun | Reputation/cosi/cosi.go:150-182 | Verify accepts an honest run exactly when the policy accepts its mask. |
| CosiTheorems.GeneratedKeysHold | Reputation/cosi/cosi.go:301-324 | Keys that GenerateKey made, read by NewCosigners, are held by their signers as the honest run asks, under any mask. |
| Positional.ConvertBack | base58/base58.go:17-74 | Changing the base of digits and back, leading zeros kept, is the identity. |
| Positional.ConvertKeeps | base58/base58.go:17-74 | Changing the base keeps the number and the count of leading zeros. |
| Base58.LettersAscend | base58/alphabet.go:9-14 | The alphabet is in ascending order, ... |
| Base58.InAlphabet | base58/alphabet.go:9-32 | ... and has exactly the digits, capitals and small letters other than 0, I, O and l. |
| Base58.DecodeEncode | base58/base58.go:17-74 | Decoding undoes encoding for every byte string. |
| Base58.EncodeDecode | base58/base58.go:17-74 | Encoding undoes decoding for every string over the alphabet. |
| Base58.Reverse | base58/base58.go:68-72 | The in-place exchange reverses the buffer. |
| Base58.Accumulate | base58/base58.go:17-29 | The loop from the right finds the string's value, or a character outside the alphabet. |
| Base58.Encode | base58/base58.go:49-74 | The places of the characters in the alphabet are base-58 digits of the number that the bytes are in base 256, behind as many zeros as there are leading zero bytes. |
| Base58.Decode | base58/base58.go:17-46 | The bytes of the number whose base-58 digits are the places of the characters, behind one zero for each leading 1; nothing if a character is not in the alphabet. |
| Sorting.CompareIsLower | shard/shard_func.go:31-39 | The string comparison is -1 exactly if the strings agree up to a place where the first ends or is smaller. |
| Sorting.BeforeIsOrder | shard/shard_func.go:31-39 | The comparison is a total order ... |
| Sorting.BeforeMeans | shard/shard_func.go:31-39 | ... in which the greater reputation stands first, and among equal ones the greater address. |
| Sorting.ScanDown | shard/shard_func.go:54-56 | The scan guarded by 0 and not by l stops within the range all the same. |
| Sorting.Partition | shard/shard_func.go:43-64 | Left of i nothing is worse than the pivot, right of j nothing better, and both parts are smaller. |
| Sorting.SortRep | shard/shard_func.go:42-71 | The range is sorted in descending order, rearranged and nothing outside it touched. |
| Sorting.SortedMeans | shard/shard_func.go:42-71 | That is, the array holds what it did, unchanged outside the range, and reputations descend in it. |
| Sharding.TotalAdds | shard/shard_struct.go:73-80 | A member's total is the sum of its reputations in 64 bits: the total of two lists is the wrapped sum of their totals. |
| Sharding.FillColumn | shard/shard_func.go:105-118 | Redrawing on collisions gives the next members in rank one place in each shard. |
| ShardDraws.AnyDraw | shard/shard_func.go:105-118 | Whatever the reputation, some random number mixes with it into any given number, of which the low 32 bits modulo the number of shards are drawn; the number must have the sign of the reputation, since random numbers are not negative. |
| ShardDraws.SomeDrawsFinish | shard/shard_func.go:105-118 | For every ranking and every number of shards below 2^32 there are random numbers that fill all places. |
| Sharding.AssignmentPartitions | shard/shard_func.go:105-118 | A finished assignment gives no member two places. |
| Sharding.PlacedAreBest | shard/shard_func.go:105-118 | Members without a place, if there are more members than places, are ranked below all others; if there are as many, everyone has one. |
| Sharding.LeadBounded | shard/shard_func.go:105-118 | Stratum by stratum one shard's lead in reputation is at most what the ranking has dropped. |
| Sharding.LeaderSort | shard/shard_func.go:139-161 | Rearranges one shard only, whatever the keys. |
| Sharding.SetMembers | shard/shard_func.go:126-134 | Every member's shard, place and role agree with the assignment; the leader is place 0. |
| Sharding.Sharding | shard/shard_func.go:86-135 | Finishes exactly if the draws, taken in the order of the ranking, fill all places.  Then: one member for each place and none placed twice, those left over untouched and of the least reputation, shard, place and role that agree with the places, and shard reputations that differ by at most the spread of the members' reputations. |
| Sharding.PlacesDiffer | shard/shard_func.go:86-135 | Two places never hold the same member. |
| Sharding.LeftOverLeast | shard/shard_func.go:86-135 | A member without a place has at most the total of each member with one. |
| Sharding.LeadsWithinSpread | shard/shard_func.go:86-135 | If no two members' totals differ by more than d, no two shards' sums of totals do. |
| Gossip.DbRef.MakeRepMsg | rccache/cache_rep.go:11-28 | Fills the own slot with the own message. |
| Gossip.DbRef.GenerateGossipFir | rccache/cache_rep.go:40-64 | Sends all that is known, with its count, after making the own message if missing, or nothing exactly when every slot is filled. |
| Gossip.Received | rccache/cache_rep.go:121-132 | After messages are taken in, a slot is full exactly if it was or a message of its owner was among them; its owner is marked exactly if he was or one of them has another hash than the message in the slot, which never changes once there. |
| Gossip.FirstFills | rccache/cache_rep.go:121-132 | An empty slot is filled by the first message of its owner. |
| Gossip.KnownExactly | rccache/cache_rep.go:40-64 | What is sent is exactly the messages of full slots whose owners are not to be skipped. |
| Gossip.VotedOnce | rccache/cache_rep.go:104 | A vote adds one to the counter of that sender in that round and to no other. |
| Gossip.DbRef.UpdateGossipFir | rccache/cache_rep.go:103-141 | Counts a vote for the sender and, in the round of the message, slot by slot: fills empty slots of owners, keeps what full ones hold, and marks exactly the owners of messages with another hash; replies with what the sender did not mention; panics exactly on a sender or owner out of range, an empty message, a count past the data and round NumNewRep. |
| Gossip.GuardMissesLimit | rccache/cache_rep.go:110-113 | Of messages with known ids, exactly those of round NumNewRep pass the guard and are out of range. |
| Gossip.DbRef.HandleGossipFirSend | testforclient/network/newRepProtocol.go:95-115 | Takes the message in, and then replies exactly if the node knows a message whose owner was not mentioned, and panics if not; before that it panics where UpdateGossipFir does. |
| Gossip.EquallyInformed | testforclient/network/newRepProtocol.go:106-110 | So it panics on what a node sends that knows as much as this one. |
| Gossip.DbRef.GetRepBlock | rccache/cache_rep.go:181-189 | Stores the hash of the round's messages, chained to the hash of the round before. |
| Gossip.DbRef.StartRound | testforclient/network/newRepProtocol.go:30-37 | The reset clears the flags of one round. |
| GossipRuns.StepKeeps | rccache/cache_rep.go:11-141 | Every step of any node keeps the invariant of the whole system. |
| GossipRuns.RunsAreFaithful | rccache/cache_rep.go:11-141 | In every run of honest nodes, with loss, repetition, delay and reordering, a filled slot holds the one message its owner made that round and no one is marked Byzantine. |
| GossipRuns.StepStable | rccache/cache_rep.go:103-141 | What a slot of a begun round holds never changes again. |
| GossipRuns.RunStable | rccache/cache_rep.go:103-141 | Nor over any number of steps. |
| GossipRuns.FinishedAgree | rccache/cache_rep.go:40-64 | Two nodes that finish a round hold the same messages, however much later one of them does. |
| GossipWitness.TwoNodesFinish | rccache/cache_rep.go:11-189 | There is a run in which two nodes exchange their messages, are told that the round is complete and make its block. |
| GossipBlocks.StepKeepsBlocks | rccache/cache_rep.go:40-189 | Every step keeps this: a node told that a round is complete still holds it complete, and a block made after that, on blocks made so, stores the hash chained over the messages really made. |
| GossipBlocks.SameChain | testforclient/network/newRepProtocol.go:30-95 | In every run, nodes that were told in rounds 0 to r that all slots are filled and made their blocks in order, each at its own time, have stored the same block hashes. |
| GossipNodes.Perform | rccache/cache_rep.go:11-189 | Every step of the system is what the method of the node that takes it does to that node, and to no other. |
| GossipNodes.Execute | testforclient/network/newRepProtocol.go:30-132 | The nodes, taking the steps of any feasible run, come to hold what the run leads to. |
| GossipNodes.SameHashes | rccache/cache_rep.go:181-189 | After such a run the nodes themselves have stored equal hashes. |
| CrossShard.CrossShardDec.NewDecision | rccache/txDatabase.go:9-42 | The state for a transaction that no report preceded. |
| CrossShard.CrossShardDec.UpdateDecision | rccache/txDatabase.go:44-83 | The state when the transaction follows reports. |
| CrossShard.CrossShardDec.NewDecisionFromOther | rccache/txDatabase.go:86-101 | The state after a first report. |
| CrossShard.CrossShardDec.Report | rccache/txDatabase.go:104-123 | The state after a further report. |
| CrossShard.RunReaches | rccache/txDatabase.go:9-123 | Every order of consistent reports and the arrival reaches the one outcome. |
| CrossShard.FinalState | rccache/txDatabase.go:9-123 | In it an input's check is 1, 2 or 3 as it said yes, no or nothing, another shard's -1 or 0 as it has an output or not, and the sum counts the inputs that have not said yes. |
| CrossShard.WorthAdds | rccache/txDatabase.go:19-53 | The value is the running sum of the outputs in 32 bits. |
| CrossShard.RelatedExactly | rccache/txDatabase.go:31-65 | The related shards are exactly those with an input or an output, ascending and each once. |
| CrossShard.HonestRuns | rccache/txDatabase.go:9-123 | There are such runs: the arrival alone, and with any input's report after any of them. |
| CrossShard.OrderDoesNotMatter | rccache/txDatabase.go:9-123 | Two orders of the same events end in the same checks, sum, result, related shards and value. |
| CrossShard.Decision | rccache/txDatabase.go:9-123 | With at least one input the result is 1 exactly if all inputs said yes and -1 exactly if one said no. |
| CrossShard.YesMeansAllIffInputs | rccache/txDatabase.go:9-123 | After the arrival, "the result is 1 exactly if all inputs said yes" holds if and only if there is an input. |

## Left out

- Sharding.Sharding: for at least ShardCnt*ShardSize members, since the program indexes out of range with
  fewer; leader keys are parameters.
- Cosi.Cosigners.SetMaskBit: clearing a padding bit is left out, since the program has no key to add there.
- Aliasing of limb arrays: field functions return a value where the program writes through a pointer that
  may equal an argument.  Point objects are references, and `Add` and `Sub` are proved for overlapping ones.
- The contents of the tables `base` and `bi`, the primality of p and the order of B: hypotheses.
- The loop of `FromBytes` that reverses bytes into a variable that is never read (edwards25519.go:772-774).
- The error return of a random source.
- Custom CoSi policies are functions of the number of cosigners and the mask; other context is not modelled.
- The CoSi message loops in `testforclient/network`: responses are counted there without identifying senders.
- Constant-time behaviour, unforgeability and any statement about attackers.
- `LeaderSort` compares quotients of floating-point numbers that can be 0/0: the keys and their comparison are
  arbitrary, and only the rearranging is claimed.
- Random draws are an input sequence; if it ends before every place is filled, which `ShardDraws.AssignEnd`
  tells from draws and ranking alone, `Sharding` reports that it did not finish, where the program would draw on.
- Integer sums of reputations wrap at 64 bits in the model as in the program; the balance theorem is about the
  wrapped member totals and exact sums of them.
- The second gossip phase, and how votes enter a message and the weights of a block: messages carry an arbitrary
  body.  The second phase does not enter the hash of a block.
- Runs deliver messages to `UpdateGossipFir`; a node whose handler fails on an empty reply takes no more steps,
  which is a run as well.
- Goroutines, timers, sockets, gob encoding and BoltDB.  A gossip node handles one event at a time, as its lock
  enforces; events of different nodes interleave freely.
- A node makes the block of a round once, as `NewRepProcess` does.  A round that ends by time-out is in the
  model, but no agreement on its block is claimed.
- A gossip message that reaches a node before that node's own round reset: the reset would drop the node's own
  message and let it make a second one, so delivery is assumed to follow the reset.
- `CrossShardDec.Total` depends on the order of events and is not part of the confluence theorem.
- `TxDecSet`, transaction pools and the caches around them.
