/** Little-endian byte strings and the bit operations of the codecs. */
module Bytes {
  import opened MachineInt
  import opened Congruence

  type Bytes32 = s: seq<byte> | |s| == 32 witness seq(32, i => 0)

  /** s[0] + 256 s[1] + 256^2 s[2] + ... */
  function LeVal(s: seq<byte>): nat {
    if s == [] then 0 else s[0] + 0x100 * LeVal(s[1..])
  }

  lemma LeValWord(s: seq<byte>)
    requires |s| >= 4
    ensures LeVal(s) == s[0] + 0x100 * s[1] + 0x1_0000 * s[2] + 0x100_0000 * s[3] + 0x1_0000_0000 * LeVal(s[4..])
  {
    assert s[1..][1..] == s[2..] && s[2..][1..] == s[3..] && s[3..][1..] == s[4..];
  }

  lemma LeValTriple(s: seq<byte>)
    requires |s| >= 3
    ensures LeVal(s) == s[0] as int + 0x100 * (s[1] as int) + 0x1_0000 * (s[2] as int) + 0x100_0000 * LeVal(s[3..])
  {
    assert s[1..][1..] == s[2..] && s[2..][1..] == s[3..];
    assert LeVal(s[1..]) == s[1] as int + 0x100 * LeVal(s[2..]);
    assert LeVal(s[2..]) == s[2] as int + 0x100 * LeVal(s[3..]);
  }

  /** Sixteen bytes written as four words. */
  lemma LeValFourWords(a: seq<byte>, b: seq<byte>, c: seq<byte>, d: seq<byte>)
    requires |a| == |b| == |c| == |d| == 4
    ensures |a + (b + (c + d))| == 16
    ensures LeVal(a + (b + (c + d))) == Word(a, 0) + X32 * (Word(b, 0) + X32 * (Word(c, 0) + X32 * Word(d, 0)))
  {
    LeValWord(d);
    LeValWord(c + d);
    LeValWord(b + (c + d));
    LeValWord(a + (b + (c + d)));
    assert (a + (b + (c + d)))[4..] == b + (c + d) && (b + (c + d))[4..] == c + d && (c + d)[4..] == d;
  }

  const X32 := 0x1_0000_0000
  const X128 := 0x1_0000_0000_0000_0000_0000_0000_0000_0000
  const X192 := 0x1_0000_0000_0000_0000_0000_0000_0000_0000_0000_0000_0000_0000

  function Word(s: seq<byte>, i: nat): nat
    requires i + 4 <= |s|
  {
    s[i] as int + 0x100 * (s[i + 1] as int) + 0x1_0000 * (s[i + 2] as int) + 0x100_0000 * (s[i + 3] as int)
  }

  lemma LeValQuad(s: seq<byte>)
    requires |s| >= 16
    ensures LeVal(s) == Word(s, 0) + X32 * (Word(s, 4) + X32 * (Word(s, 8)
        + X32 * (Word(s, 12) + X32 * LeVal(s[16..]))))
  {
    LeValWord(s);
    LeValWord(s[4..]);
    LeValWord(s[8..]);
    LeValWord(s[12..]);
    assert s[4..][4..] == s[8..] && s[8..][4..] == s[12..] && s[12..][4..] == s[16..];
  }

  lemma LeValHalves(a: seq<byte>, b: seq<byte>)
    requires |a| == 16
    ensures LeVal(a + b) == LeVal(a) + X128 * LeVal(b)
  {
    LeValQuad(a + b);
    LeValQuad(a);
    assert (a + b)[16..] == b && a[16..] == [];
  }

  /** A 32-byte value as eight words. */
  lemma LeVal32(s: seq<byte>)
    requires |s| == 32
    ensures LeVal(s) == Word(s, 0) + X32 * (Word(s, 4) + X32 * (Word(s, 8) + X32 * (Word(s, 12) + X32 *
                       (Word(s, 16) + X32 * (Word(s, 20) + X32 * (Word(s, 24) + X32 * Word(s, 28)))))))
  {
    LeValQuad(s);
    LeValQuad(s[16..]);
    assert s[16..][16..] == [];
  }

  /** Bitwise or, bit by bit. */
  function BitOr(a: nat, b: nat): nat {
    if a == 0 then b
    else if b == 0 then a
    else (if a % 2 == 1 || b % 2 == 1 then 1 else 0) + 2 * BitOr(a / 2, b / 2)
  }

  function Pow2(n: nat): (r: nat)
    ensures r > 0
  {
    if n == 0 then 1 else 2 * Pow2(n - 1)
  }

  /** Bit fields that do not meet are joined by addition. */
  lemma {:induction false} BitOrDisjoint(a: nat, c: nat, k: nat)
    requires a < Pow2(k)
    ensures BitOr(a, c * Pow2(k)) == a + c * Pow2(k)
  {
    if k > 0 && a != 0 && c != 0 {
      var h := c * Pow2(k - 1);
      assert c * Pow2(k) == 2 * h;
      BitOrDisjoint(a / 2, c, k - 1);
    }
  }

  lemma Pow2Values()
    ensures Pow2(1) == 2 && Pow2(2) == 4 && Pow2(3) == 8 && Pow2(4) == 0x10 && Pow2(5) == 0x20
    ensures Pow2(6) == 0x40 && Pow2(7) == 0x80 && Pow2(8) == 0x100 && Pow2(16) == 0x1_0000 && Pow2(24) == 0x100_0000
  {
  }

  lemma MulMonotone(a: nat, x: int, y: int)
    requires x <= y
    ensures a * x <= a * y
  {
  }

  lemma DivDiv(x: nat, a: nat, b: nat)
    requires a > 0 && b > 0
    ensures a * b > 0 && x / (a * b) == (x / a) / b
  {
    var y, e := x / a, x % a;
    var q, f := y / b, y % b;
    assert a * y == (a * b) * q + a * f by {
      assert y == b * q + f;
    }
    MulMonotone(a, f + 1, b);
    assert a * (f + 1) == a * f + a;
    DivModUnique(x, q, e + a * f, a * b);
  }

  function Load3(s: seq<byte>, i: nat): (r: int64)
    requires i + 3 <= |s|
    ensures r == s[i] as int + 0x100 * (s[i + 1] as int) + 0x1_0000 * (s[i + 2] as int)
  {
    Pow2Values();
    BitOrDisjoint(s[i], s[i + 1], 8);
    BitOrDisjoint(s[i] as int + s[i + 1] as int * 0x100, s[i + 2], 16);
    BitOr(BitOr(s[i], s[i + 1] as int * 0x100), s[i + 2] as int * 0x1_0000)
  }

  function Load4(s: seq<byte>, i: nat): (r: int64)
    requires i + 4 <= |s|
    ensures r == Word(s, i)
  {
    Pow2Values();
    BitOrDisjoint(Load3(s, i), s[i + 3], 24);
    BitOr(Load3(s, i), s[i + 3] as int * 0x100_0000)
  }

  /** Go's conversion to byte: the low eight bits. */
  function Byte(x: int): byte {
    x % 0x100
  }

  lemma ByteSmall(x: int)
    requires 0 <= x < 0x100
    ensures Byte(x) == x
  {
  }

  lemma DivDivByte(x: nat, b: nat)
    requires b > 0
    ensures x / (0x100 * b) == (x / b) / 0x100
  {
    DivDiv(x, b, 0x100);
  }

  /** A field cut at bit log2(b) into a low part, one byte, and the rest. */
  lemma CutOne(x: nat, b: nat)
    requires b > 0
    ensures x == x % b + b * Byte(x / b) + (0x100 * b) * (x / (0x100 * b))
  {
    DivDivByte(x, b);
    var y := x / b;
    assert b * y == b * (Byte(y) as int + 0x100 * (y / 0x100));
  }

  lemma CutTwo(x: nat, b: nat)
    requires b > 0
    ensures x == x % b + b * Byte(x / b) + (0x100 * b) * Byte(x / (0x100 * b))
                 + (0x1_0000 * b) * (x / (0x1_0000 * b))
  {
    CutOne(x, b);
    var y := x / (0x100 * b);
    DivDivByte(x, 0x100 * b);
    assert (0x100 * b) * y == (0x100 * b) * (Byte(y) as int + 0x100 * (y / 0x100));
  }

  lemma SplitProduct(x: nat, w: nat, v: nat)
    requires w * v == 0x100 && v > 0
    ensures x * w == (x / v) * 0x100 + w * (x % v)
    ensures w * (x % v) <= 0x100 - w
  {
    var q, r := x / v, x % v;
    assert x * w == (v * q + r) * w == (w * v) * q + w * r;
    assert w * r <= w * (v - 1) == w * v - w;
  }

  lemma ByteSum(t: nat, m: int, q: int, r: int)
    requires m == q * 0x100 + r && 0 <= r && t + r < 0x100
    ensures Byte(t + m) == t + r
  {
  }

  lemma LowBits(t: nat, x: nat, w: nat, v: nat)
    requires w * v == 0x100 && v > 0 && t < w
    ensures Byte(t + x * w) == t + w * (x % v)
  {
    SplitProduct(x, w, v);
    ByteSum(t, x * w, x / v, w * (x % v));
  }

  /** A byte holding the top `k` bits of one field and the low `8 - k` of the next. */
  lemma SharedByte(t: nat, x: nat, k: nat, w: nat, v: nat)
    requires w == Pow2(k) && w * v == 0x100 && v > 0 && t < w
    ensures Byte(BitOr(t, x * w)) == t + w * (x % v)
  {
    BitOrDisjoint(t, x, k);
    LowBits(t, x, w, v);
  }

  predicate Bit(x: nat, i: nat) {
    if i == 0 then x % 2 == 1 else Bit(x / 2, i - 1)
  }

  /** The bits of an or are the ors of the bits. */
  lemma {:induction false} BitOrBits(a: nat, b: nat, i: nat)
    ensures Bit(BitOr(a, b), i) <==> Bit(a, i) || Bit(b, i)
  {
    if a == 0 || b == 0 {
      NoBit(i);
    } else if i > 0 {
      BitOrBits(a / 2, b / 2, i - 1);
    }
  }

  lemma NoBit(i: nat)
    ensures !Bit(0, i)
  {
  }

  /** A nonzero value below 2^n has one of its n low bits set. */
  lemma {:induction false} SomeBit(x: nat, n: nat) returns (i: nat)
    requires 0 < x < Pow2(n)
    ensures i < n && Bit(x, i)
  {
    if x % 2 == 1 {
      i := 0;
    } else {
      i := SomeBit(x / 2, n - 1);
      i := i + 1;
    }
  }

  /** FeIsNonZero's folding: or-ing a byte with its own shifts leaves its or-of-bits in bit 0. */
  function Fold(x: nat): nat {
    var y := BitOr(x, x / 0x10);
    var z := BitOr(y, y / 4);
    BitOr(z, z / 2)
  }

  lemma FoldHigh(x: nat)
    ensures Bit(Fold(x), 0) <==> var y := BitOr(x, x / 0x10); Bit(y, 0) || Bit(y, 1) || Bit(y, 2) || Bit(y, 3)
  {
    var y := BitOr(x, x / 0x10);
    var z := BitOr(y, y / 4);
    BitOrBits(z, z / 2, 0);
    BitOrBits(y, y / 4, 0);
    BitOrBits(y, y / 4, 1);
    assert Bit(z / 2, 0) == Bit(z, 1);
    assert Bit(y / 4, 0) == Bit(y / 2, 1) == Bit(y, 2);
    assert Bit(y / 4, 1) == Bit(y / 2, 2) == Bit(y, 3);
  }

  lemma BitOfNibble(x: nat, i: nat)
    ensures Bit(x / 0x10, i) == Bit(x, i + 4)
  {
    assert Bit(x, i + 4) == Bit(x / 2, i + 3) == Bit(x / 2 / 2, i + 2);
    assert x / 2 / 2 == x / 4 && x / 4 / 2 / 2 == x / 0x10;
    assert Bit(x / 4, i + 2) == Bit(x / 4 / 2, i + 1);
  }

  lemma FoldSees(x: nat, i: nat)
    requires i < 8 && Bit(x, i)
    ensures Bit(Fold(x), 0)
  {
    FoldHigh(x);
    if i < 4 {
      BitOrBits(x, x / 0x10, i);
    } else {
      BitOrBits(x, x / 0x10, i - 4);
      BitOfNibble(x, i - 4);
    }
  }

  lemma FoldTestsZero(x: byte)
    ensures Fold(x) % 2 == (if x == 0 then 0 else 1)
  {
    if x != 0 {
      Pow2Values();
      var i := SomeBit(x, 8);
      FoldSees(x, i);
    }
  }

  lemma LeValParity(s: seq<byte>)
    requires s != []
    ensures LeVal(s) % 2 == s[0] % 2
  {
  }

  lemma {:induction false} LeValInjective(s: seq<byte>, t: seq<byte>)
    requires |s| == |t| && LeVal(s) == LeVal(t)
    ensures s == t
  {
    if s != [] {
      assert s[0] == LeVal(s) % 0x100 && t[0] == LeVal(t) % 0x100;
      LeValInjective(s[1..], t[1..]);
      assert s == [s[0]] + s[1..] && t == [t[0]] + t[1..];
    }
  }

  lemma {:induction false} LeValZero(s: seq<byte>)
    ensures LeVal(s) == 0 <==> forall i :: 0 <= i < |s| ==> s[i] == 0
  {
    if s != [] {
      LeValZero(s[1..]);
      assert s == [s[0]] + s[1..];
    }
  }

  lemma {:induction false} BitOrBound(a: nat, b: nat, n: nat)
    requires a < Pow2(n) && b < Pow2(n)
    ensures BitOr(a, b) < Pow2(n)
    ensures BitOr(a, b) == 0 <==> a == 0 && b == 0
  {
    if a != 0 && b != 0 {
      BitOrBound(a / 2, b / 2, n - 1);
    }
  }

  lemma BitOrByte(a: byte, b: byte)
    ensures 0 <= BitOr(a, b) < 0x100
    ensures BitOr(a, b) == 0 <==> a == 0 && b == 0
  {
    Pow2Values();
    BitOrBound(a, b, 8);
  }

  /** Setting or clearing bit 255, the top bit of byte 31. */
  lemma LeValTop(s: Bytes32, b: byte)
    ensures LeVal(s[31 := b]) == LeVal(s) + 0x100_0000 * (X32 * (X192 * (b as int - s[31] as int)))
  {
    LeVal32(s);
    LeVal32(s[31 := b]);
  }

  /** The k bytes of n, lowest first. */
  function LeBytes(n: nat, k: nat): (s: seq<byte>)
    ensures |s| == k
  {
    if k == 0 then [] else [n % 0x100] + LeBytes(n / 0x100, k - 1)
  }

  lemma {:induction false} LeBytesValue(n: nat, k: nat)
    requires n < Pow2(8 * k)
    ensures LeVal(LeBytes(n, k)) == n
  {
    if k > 0 {
      Pow2Values();
      assert Pow2(8 * k) == 0x100 * Pow2(8 * (k - 1)) by { EightMore(8 * (k - 1)); }
      LeBytesValue(n / 0x100, k - 1);
      assert LeBytes(n, k)[1..] == LeBytes(n / 0x100, k - 1);
    }
  }

  lemma EightMore(n: nat)
    ensures Pow2(n + 8) == 0x100 * Pow2(n)
  {
    assert Pow2(n + 8) == 2 * Pow2(n + 7);
    assert Pow2(n + 7) == 2 * Pow2(n + 6);
    assert Pow2(n + 6) == 2 * Pow2(n + 5);
    assert Pow2(n + 5) == 2 * Pow2(n + 4);
    assert Pow2(n + 4) == 2 * Pow2(n + 3);
    assert Pow2(n + 3) == 2 * Pow2(n + 2);
    assert Pow2(n + 2) == 2 * Pow2(n + 1);
  }

  lemma TopByte(s: Bytes32)
    ensures LeVal(s) >=
      0x100_0000_0000_0000_0000_0000_0000_0000_0000_0000_0000_0000_0000_0000_0000_0000 * (s[31] as int)
  {
    LeVal32(s);
  }
}
