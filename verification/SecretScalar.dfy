/** The secret scalar of an Ed25519 key (ed25519.go:73-81, 105-112). */
module SecretScalar {
  import opened MachineInt
  import opened Congruence
  import opened Bytes
  import opened Powers
  import opened Clamping

  type Bytes64 = s: seq<byte> | |s| == 64 witness seq(64, i => 0)

  /** SHA-512, about which nothing is assumed. */
  type Hash = seq<byte> -> Bytes64

  // 2^248, the weight of the last byte, 2^251 and 2^254
  const TOP := 0x100_0000_0000_0000_0000_0000_0000_0000_0000_0000_0000_0000_0000_0000_0000_0000
  const X251 := 0x800_0000_0000_0000_0000_0000_0000_0000_0000_0000_0000_0000_0000_0000_0000_0000
  const X254 := 0x4000_0000_0000_0000_0000_0000_0000_0000_0000_0000_0000_0000_0000_0000_0000_0000

  lemma BelowTop(s: Bytes32)
    ensures 0 <= LeVal(s) - TOP * (s[31] as int) < TOP
  {
    LeVal32(s);
  }

  lemma PowersOfTwo()
    ensures X251 == Pow2(251) && X254 == Pow2(254)
  {
    Pow2At255();
    assert Pow2(255) == 2 * Pow2(254) && Pow2(254) == 2 * Pow2(253) && Pow2(253) == 2 * Pow2(252);
    assert Pow2(252) == 2 * Pow2(251);
  }

  /** The three highest bits are clear exactly in numbers below 2^253. */
  lemma TopClear(s: Bytes32)
    ensures s[31] < 0x20 <==> LeVal(s) < Pow2(253)
  {
    BelowTop(s);
    Pow2At255();
    assert Pow2(255) == 2 * Pow2(254) && Pow2(254) == 2 * Pow2(253);
  }

  /** Clearing three bits at the bottom and the top bit, and setting the one below it. */
  lemma ClampedBits(v: nat, b: byte)
    requires 0 <= v - TOP * (b as int) < TOP
    ensures v - v % 8 + TOP * (b % 0x40 + 0x40 - b) == X254 + 8 * (v / 8 % X251)
  {
    var low, k, r := v - TOP * (b as int), b / 0x40, b % 0x40;
    var eighth := TOP / 8;
    assert TOP == 8 * eighth;
    assert v / 8 == k * X251 + (r * eighth + low / 8);
    DivModUnique(v / 8, k, r * eighth + low / 8, X251);
    assert v - v % 8 == 8 * (v / 8);
  }

  lemma LowEighths(x: byte, m: nat)
    ensures (x + 0x100 * m) % 8 == x % 8
  {
  }

  lemma FirstByteCleared(d: Bytes32, x: byte)
    requires x == d[0] - d[0] % 8
    ensures LeVal(d[0 := x]) == LeVal(d) - LeVal(d) % 8
  {
    assert d[0 := x][1..] == d[1..];
    LowEighths(d[0], LeVal(d[1..]));
  }

  lemma ClampedValue(d: Bytes32, x: byte, y: byte)
    requires x == d[0] - d[0] % 8 && y == d[31] % 0x40 + 0x40
    ensures LeVal(d[0 := x][31 := y]) == X254 + 8 * (LeVal(d) / 8 % X251)
  {
    FirstByteCleared(d, x);
    LeValTop(d[0 := x], y);
    BelowTop(d);
    ClampedBits(LeVal(d), d[31]);
  }

  /** The key generator's mask and the signer's differ, but not what they leave. */
  function Clamped(d: Bytes32, mask: int): (s: Bytes32)
    requires mask == 0x3f || mask == 0x7f
    ensures 0x40 <= s[31] < 0x80
    ensures LeVal(s) == X254 + 8 * (LeVal(d) / 8 % X251)
  {
    var x, y := ClampLow(d[0]), ClampHigh(d[31], mask);
    ClampedValue(d, x, y);
    d[0 := x][31 := y]
  }

  /** The secret scalar of a private key: the first half of the hashed seed, which begins the key, as a number whose
      three lowest bits are cleared and whose two highest bits are set to 01. */
  function Expanded(hash: Hash, privateKey: seq<byte>): (s: Bytes32)
    requires |privateKey| == 64
    ensures 0x40 <= s[31] < 0x80
    ensures LeVal(s) == X254 + 8 * (LeVal(hash(privateKey[..32])[..32]) / 8 % X251)
  {
    Clamped(hash(privateKey[..32])[..32], 0x3f)
  }
}
