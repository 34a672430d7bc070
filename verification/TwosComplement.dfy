/** Bitwise operators of Go's signed integers, and the branch-free selections built from them
    (edwards25519.go:61-73 and 950-984). */
module TwosComplement {
  import opened MachineInt
  import opened Congruence
  import opened Bytes
  import opened Powers

  /** Bits needed: how far a number is from 0 or -1. */
  function Size(x: int): nat {
    if x >= 0 then x else -x - 1
  }

  /** x & y */
  function And(x: int, y: int): int
    decreases Size(x) + Size(y)
  {
    if Size(x) == Size(y) == 0 then (if x == y then x else 0)
    else (if x % 2 == 1 && y % 2 == 1 then 1 else 0) + 2 * And(x / 2, y / 2)
  }

  /** x ^ y */
  function Xor(x: int, y: int): int
    decreases Size(x) + Size(y)
  {
    if Size(x) == Size(y) == 0 then (if x == y then 0 else -1)
    else (if x % 2 == y % 2 then 0 else 1) + 2 * Xor(x / 2, y / 2)
  }

  /** 0 and -1 are the empty and the full mask. */
  lemma {:induction false} AndMask(x: int)
    ensures And(0, x) == 0 && And(-1, x) == x
    decreases Size(x)
  {
    if Size(x) > 0 {
      AndMask(x / 2);
    }
  }

  lemma AndStep(x: nat, y: nat)
    ensures And(x, y) == (if x % 2 == 1 && y % 2 == 1 then 1 else 0) + 2 * And(x / 2, y / 2)
  {
  }

  /** A mask of high bits. */
  lemma AndEven(x: nat, m: nat)
    ensures And(x, 2 * m) == 2 * And(x / 2, m)
  {
    AndStep(x, 2 * m);
    assert (2 * m) % 2 == 0 && (2 * m) / 2 == m;
  }

  lemma AndOdd(x: nat, w: nat)
    requires w > 0
    ensures And(x, 2 * w - 1) == x % 2 + 2 * And(x / 2, w - 1)
  {
    AndStep(x, 2 * w - 1);
    assert (2 * w - 1) / 2 == w - 1 && (2 * w - 1) % 2 == 1;
  }

  lemma ModStep(x: nat, w: nat)
    requires w > 0
    ensures x % (2 * w) == x % 2 + 2 * ((x / 2) % w)
  {
    var h := x / 2;
    assert h == w * (h / w) + h % w;
    DivModUnique(x, h / w, x % 2 + 2 * (h % w), 2 * w);
  }

  /** A mask of low bits. */
  lemma {:induction false} AndLow(x: nat, k: nat)
    ensures And(x, Pow2(k) - 1) == x % Pow2(k)
    decreases k
  {
    if k == 0 {
      assert And(x, 0) == 0 by { AndZero(x); }
    } else {
      var w := Pow2(k - 1);
      AndOdd(x, w);
      AndLow(x / 2, k - 1);
      ModStep(x, w);
    }
  }

  lemma {:induction false} AndZero(x: nat)
    ensures And(x, 0) == 0
  {
    if x > 0 {
      AndZero(x / 2);
    }
  }

  lemma {:induction false} XorSelf(x: int)
    ensures Xor(x, x) == 0 && Xor(x, 0) == x
    decreases Size(x)
  {
    if Size(x) > 0 {
      XorSelf(x / 2);
    }
  }

  /** Exclusive or undoes itself. */
  lemma {:induction false} XorCancel(x: int, y: int)
    ensures Xor(x, Xor(x, y)) == y
    decreases Size(x) + Size(y)
  {
    if Size(x) + Size(y) > 0 {
      var w, z := Xor(x, y), Xor(x / 2, y / 2);
      XorCancel(x / 2, y / 2);
      XorStep(x, y);
      HalfAndParity(if x % 2 == y % 2 then 0 else 1, z);
      XorStep(x, w);
    }
  }

  lemma {:induction false} XorCommutes(x: int, y: int)
    ensures Xor(x, y) == Xor(y, x)
    decreases Size(x) + Size(y)
  {
    if Size(x) + Size(y) > 0 {
      XorCommutes(x / 2, y / 2);
      XorStep(x, y);
      XorStep(y, x);
    }
  }

  lemma {:induction false} XorSign(x: int, y: int)
    ensures Xor(x, y) >= 0 <==> (x >= 0 <==> y >= 0)
    decreases Size(x) + Size(y)
  {
    if Size(x) + Size(y) > 0 {
      XorSign(x / 2, y / 2);
      XorStep(x, y);
    }
  }

  lemma HalfAndParity(r: int, z: int)
    requires 0 <= r < 2
    ensures (r + 2 * z) / 2 == z && (r + 2 * z) % 2 == r
  {
  }

  lemma XorStep(x: int, y: int)
    ensures Xor(x, y) == (if x % 2 == y % 2 then 0 else 1) + 2 * Xor(x / 2, y / 2)
  {
  }

  lemma {:induction false} XorZero(x: int, y: int)
    ensures Xor(x, y) == 0 <==> x == y
  {
    XorSelf(x);
    XorCancel(x, y);
  }

  lemma {:induction false} XorRange(x: int, y: int, k: nat)
    requires Size(x) < Pow2(k) && Size(y) < Pow2(k)
    ensures Size(Xor(x, y)) < Pow2(k)
    ensures x >= 0 && y >= 0 ==> Xor(x, y) >= 0
    decreases k
  {
    if k > 0 {
      XorRange(x / 2, y / 2, k - 1);
      XorStep(x, y);
    }
  }

  lemma TwiceOver(c: int, p: int)
    ensures c * (2 * p) == 2 * (c * p)
  {
  }

  lemma XorEven(x: nat, h: nat)
    ensures Xor(x, 2 * h) == x % 2 + 2 * Xor(x / 2, h)
  {
    XorStep(x, 2 * h);
    assert (2 * h) / 2 == h && (2 * h) % 2 == 0;
  }

  /** Bits that do not meet are joined by addition. */
  lemma {:induction false} XorDisjoint(a: nat, c: nat, k: nat)
    requires a < Pow2(k)
    ensures Xor(a, c * Pow2(k)) == a + c * Pow2(k)
  {
    if k == 0 {
      XorZeroLeft(c);
    } else {
      var p := Pow2(k - 1);
      var h := c * p;
      assert c * Pow2(k) == 2 * h by { TwiceOver(c, p); }
      XorDisjoint(a / 2, c, k - 1);
      XorEven(a, h);
    }
  }

  lemma {:induction false} XorZeroLeft(y: int)
    ensures Xor(0, y) == y
    decreases Size(y)
  {
    if Size(y) > 0 {
      XorZeroLeft(y / 2);
    }
  }

  lemma Int32Range()
    ensures Pow2(31) == 0x8000_0000
  {
    Pow2Values();
    Pow2Join(16, 8, 0x1_0000, 0x100);
    Pow2Join(24, 7, 0x100_0000, 0x80);
  }

  /** f ^ (-b & (f ^ g)): g if b is 1, f if b is 0. */
  function Select(f: int, g: int, b: int32): (r: int)
    requires b == 0 || b == 1
    ensures r == if b == 1 then g else f
  {
    AndMask(Xor(f, g));
    XorCancel(f, g);
    XorSelf(f);
    Xor(f, And(-b, Xor(f, g)))
  }

  /** x - 1 in 32 bits has its top bit set only for x = 0. */
  lemma BorrowsAtZero(x: int)
    requires 0 <= x < 0x8000_0000
    ensures ((x - 1) % 0x1_0000_0000) / 0x8000_0000 == if x == 0 then 1 else 0
  {
  }

  /** 1 if b and c are equal, by the wrap-around of 0 - 1 in 32 bits. */
  function Equal(b: int32, c: int32): (r: int32)
    requires b >= 0 && c >= 0
    ensures r == if b == c then 1 else 0
  {
    Int32Range();
    XorRange(b, c, 31);
    XorZero(b, c);
    var x := Xor(b, c);
    BorrowsAtZero(x);
    ((x - 1) % 0x1_0000_0000) / 0x8000_0000
  }

  /** The sign bit. */
  function Negative(b: int32): (r: int32)
    ensures r == if b < 0 then 1 else 0
  {
    AndMask(1);
    And(b / 0x8000_0000, 1)
  }

  /** |b|, by adding twice b to b if it is negative. */
  function Magnitude(b: int32): (r: int32)
    requires -0x8000_0000 < b
    ensures r == if b < 0 then -b else b
  {
    AndMask(b);
    b - And(-Negative(b), b) * 2
  }
}
