/** Participation bitmasks: a set bit disables a cosigner (cosi.go:333-406). */
module Masks {
  import opened MachineInt
  import opened Congruence
  import opened Bytes
  import opened TwosComplement
  import opened AbelianGroup

  /** x &^ y */
  function AndNot(x: nat, y: nat): nat {
    if x == 0 then 0
    else (if x % 2 == 1 && y % 2 == 0 then 1 else 0) + 2 * AndNot(x / 2, y / 2)
  }

  lemma {:induction false} AndNotBits(x: nat, y: nat, i: nat)
    ensures Bit(AndNot(x, y), i) <==> Bit(x, i) && !Bit(y, i)
  {
    if x == 0 {
      NoBit(i);
    } else if i > 0 {
      AndNotBits(x / 2, y / 2, i - 1);
    }
  }

  lemma {:induction false} AndNotRange(x: nat, y: nat)
    ensures AndNot(x, y) <= x
  {
    if x != 0 {
      AndNotRange(x / 2, y / 2);
    }
  }

  lemma {:induction false} BitOfPow2(i: nat, j: nat)
    ensures Bit(Pow2(j), i) <==> i == j
  {
    if j == 0 {
      if i > 0 {
        NoBit(i - 1);
      }
    } else if i > 0 {
      BitOfPow2(i - 1, j - 1);
    }
  }

  /** x & 1<<j tests bit j. */
  lemma {:induction false} AndPow2(x: nat, j: nat)
    ensures And(x, Pow2(j)) != 0 <==> Bit(x, j)
  {
    if j == 0 {
      AndZero(x / 2);
    } else if x == 0 {
      AndMask(Pow2(j));
      NoBit(j);
    } else {
      AndPow2(x / 2, j - 1);
    }
  }

  lemma {:induction false} SameBits(x: nat, y: nat, n: nat)
    requires x < Pow2(n) && y < Pow2(n)
    requires forall i :: 0 <= i < n ==> Bit(x, i) == Bit(y, i)
    ensures x == y
  {
    if n > 0 {
      forall i | 0 <= i < n - 1
        ensures Bit(x / 2, i) == Bit(y / 2, i)
      {
        assert Bit(x, i + 1) == Bit(y, i + 1);
      }
      SameBits(x / 2, y / 2, n - 1);
      assert Bit(x, 0) == Bit(y, 0);
    }
  }

  /** The bit of cosigner `i` in a mask long enough to have one. */
  predicate Marked(mask: seq<byte>, i: nat)
    requires i / 8 < |mask|
  {
    Bit(mask[i / 8], i % 8)
  }

  /** Whether a mask of any length disables cosigner `i`; missing bytes enable. */
  predicate Disables(mask: seq<byte>, i: nat) {
    i / 8 < |mask| && Marked(mask, i)
  }

  lemma {:induction false} BitSplit(x: nat, y: nat, k: nat, i: nat)
    requires x < Pow2(k)
    ensures Bit(x + Pow2(k) * y, i) <==> if i < k then Bit(x, i) else Bit(y, i - k)
  {
    if k > 0 {
      assert Pow2(k) * y == 2 * (Pow2(k - 1) * y);
      HalvesOfSum(x, Pow2(k - 1) * y);
      if i > 0 {
        BitSplit(x / 2, y, k - 1, i - 1);
      }
    }
  }

  lemma HalvesOfSum(x: nat, z: nat)
    ensures (x + 2 * z) % 2 == x % 2 && (x + 2 * z) / 2 == x / 2 + z
  {
  }

  lemma {:induction false} BitQuotient(x: nat, i: nat)
    ensures Bit(x, i) <==> x / Pow2(i) % 2 == 1
  {
    if i > 0 {
      BitQuotient(x / 2, i - 1);
      HalvedQuotient(x, Pow2(i - 1));
    }
  }

  lemma HalvedQuotient(x: nat, w: nat)
    requires w > 0
    ensures x / 2 / w == x / (2 * w)
  {
    var q, r := x / 2 / w, x / 2 % w;
    assert x == 2 * (q * w + r) + x % 2;
    assert 2 * (q * w) == q * (2 * w);
    DivModUnique(x, q, 2 * r + x % 2, 2 * w);
  }

  /** A mask is a number in little-endian order, cosigner i's bit the one of weight 2^i. */
  lemma {:induction false} MaskIsNumber(mask: seq<byte>, i: nat)
    ensures Disables(mask, i) <==> LeVal(mask) / Pow2(i) % 2 == 1
  {
    BitQuotient(LeVal(mask), i);
    BitOfMask(mask, i);
  }

  lemma {:induction false} BitOfMask(mask: seq<byte>, i: nat)
    ensures Disables(mask, i) <==> Bit(LeVal(mask), i)
  {
    if mask == [] {
      NoBit(i);
    } else {
      Pow2Values();
      BitSplit(mask[0], LeVal(mask[1..]), 8, i);
      if i >= 8 {
        BitOfMask(mask[1..], i - 8);
        assert i / 8 < |mask| ==> mask[1..][(i - 8) / 8] == mask[i / 8];
      }
    }
  }

  /** The least number of bytes with a bit for each of n cosigners. */
  function MaskLength(n: nat): (r: nat)
    ensures n <= 8 * r < n + 8
  {
    (n + 7) / 8
  }

  /** The mask to keep for `n` cosigners when told `m`: padding stays set. */
  predicate IsMaskFor(mask: seq<byte>, n: nat, m: seq<byte>) {
    && |mask| == MaskLength(n)
    && forall i :: 0 <= i < 8 * |mask| ==> (Marked(mask, i) <==> i >= n || Disables(m, i))
  }

  /** m with the bits from n to k set as well. */
  function Padded(m: seq<byte>, n: nat, k: nat): (r: seq<byte>)
    requires n <= k <= 8 * |m|
    ensures |r| == |m| && forall i :: 0 <= i < 8 * |m| ==> (Marked(r, i) <==> n <= i < k || Marked(m, i))
  {
    if k == n then m else WithBit(Padded(m, n, k - 1), k - 1, true)
  }

  /** Every mask of the right length is told of some mask to keep. */
  lemma MaskExists(n: nat, m: seq<byte>) returns (mask: seq<byte>)
    requires |m| == MaskLength(n)
    ensures IsMaskFor(mask, n, m)
  {
    mask := Padded(m, n, 8 * |m|);
  }

  /** Only what was told decides the mask. */
  lemma MaskDetermined(a: seq<byte>, b: seq<byte>, n: nat, m: seq<byte>)
    requires IsMaskFor(a, n, m) && IsMaskFor(b, n, m)
    ensures a == b
  {
    forall k | 0 <= k < |a|
      ensures a[k] == b[k]
    {
      forall j | 0 <= j < 8
        ensures Bit(a[k], j) == Bit(b[k], j)
      {
        var i := 8 * k + j;
        assert Marked(a, i) == Marked(b, i);
      }
      Pow2Values();
      SameBits(a[k], b[k], 8);
    }
  }

  /** mask[i>>3] |= 1<<(i&7), or &^= */
  function WithBit(mask: seq<byte>, i: nat, value: bool): (r: seq<byte>)
    requires i / 8 < |mask|
    ensures |r| == |mask|
    ensures forall k :: 0 <= k < 8 * |mask| ==> (Marked(r, k) <==> if k == i then value else Marked(mask, k))
  {
    var x, bit := mask[i / 8], Pow2(i % 8);
    WithBitByte(x, i % 8);
    var r := mask[i / 8 := if value then BitOr(x, bit) else AndNot(x, bit)];
    assert forall k :: 0 <= k < 8 * |mask| ==> (Marked(r, k) <==> if k == i then value else Marked(mask, k)) by {
      forall k | 0 <= k < 8 * |mask|
        ensures Marked(r, k) <==> if k == i then value else Marked(mask, k)
      {
        BitOrBits(x, bit, k % 8);
        AndNotBits(x, bit, k % 8);
        BitOfPow2(k % 8, i % 8);
        assert k == i <==> k / 8 == i / 8 && k % 8 == i % 8;
      }
    }
    r
  }

  lemma WithBitByte(x: byte, j: nat)
    requires j < 8
    ensures 0 <= BitOr(x, Pow2(j)) < 0x100 && 0 <= AndNot(x, Pow2(j)) < 0x100
  {
    Pow2Values();
    assert Pow2(0) == 1;
    BitOrBound(x, Pow2(j), 8);
    AndNotRange(x, Pow2(j));
  }

  /** The number of cosigners below `n` that the mask leaves enabled. */
  function EnabledCount(mask: seq<byte>, n: nat): (c: nat)
    ensures c <= n
    ensures c == n <==> forall i :: 0 <= i < n ==> !Disables(mask, i)
  {
    if n == 0 then 0 else EnabledCount(mask, n - 1) + (if Disables(mask, n - 1) then 0 else 1)
  }

  lemma OneMore(s: set<int>, t: set<int>, x: int, more: bool)
    requires x !in s && s <= t <= s + {x} && (x in t <==> more)
    ensures |t| == |s| + (if more then 1 else 0)
  {
    if more {
      assert t == s + {x};
    } else {
      assert t == s;
    }
  }

  function Clear(d: seq<bool>, n: nat): set<int>
    requires n <= |d|
  {
    set i | 0 <= i < n && !d[i]
  }

  lemma {:induction false} CountsClear(mask: seq<byte>, d: seq<bool>, n: nat)
    requires n <= |d| && forall i :: 0 <= i < |d| ==> d[i] == Disables(mask, i)
    ensures EnabledCount(mask, n) == |Clear(d, n)|
  {
    if n > 0 {
      CountsClear(mask, d, n - 1);
      OneMore(Clear(d, n - 1), Clear(d, n), n - 1, !d[n - 1]);
    }
  }

  lemma EnabledCardinality(mask: seq<byte>, n: nat)
    ensures EnabledCount(mask, n) == |set i | 0 <= i < n && !Disables(mask, i)|
  {
    var d := seq(n, i requires 0 <= i < n => Disables(mask, i));
    CountsClear(mask, d, n);
    assert Clear(d, n) == set i | 0 <= i < n && !Disables(mask, i);
  }

  /** The sum of the elements below `n` that the mask leaves enabled. */
  function SumEnabled<T>(g: Group<T>, a: seq<T>, mask: seq<byte>, n: nat): T
    requires n <= |a|
  {
    if n == 0 then g.zero
    else if Disables(mask, n - 1) then SumEnabled(g, a, mask, n - 1)
    else g.add(SumEnabled(g, a, mask, n - 1), a[n - 1])
  }

  lemma {:induction false} SumSame<T>(g: Group<T>, a: seq<T>, mask: seq<byte>, mask': seq<byte>, n: nat)
    requires n <= |a| && forall k :: 0 <= k < n ==> (Disables(mask, k) <==> Disables(mask', k))
    ensures SumEnabled(g, a, mask, n) == SumEnabled(g, a, mask', n)
  {
    if n > 0 {
      SumSame(g, a, mask, mask', n - 1);
    }
  }

  /** Enabling one more cosigner adds its element. */
  lemma {:induction false} SumFlip<T(!new)>(g: Group<T>, a: seq<T>, mask: seq<byte>, mask': seq<byte>, i: nat, n: nat)
    requires Abelian(g) && i < n <= |a| && !Disables(mask, i) && Disables(mask', i)
    requires forall k :: 0 <= k < n && k != i ==> (Disables(mask, k) <==> Disables(mask', k))
    ensures SumEnabled(g, a, mask, n) == g.add(SumEnabled(g, a, mask', n), a[i])
  {
    if i == n - 1 {
      SumSame(g, a, mask, mask', n - 1);
    } else {
      SumFlip(g, a, mask, mask', i, n - 1);
      if !Disables(mask, n - 1) {
        var s := SumEnabled(g, a, mask', n - 1);
        Assoc(g, s, a[i], a[n - 1]);
        Assoc(g, s, a[n - 1], a[i]);
        Comm(g, a[i], a[n - 1]);
      }
    }
  }

  /** Disabling a cosigner takes its element away. */
  lemma SumWithout<T(!new)>(g: Group<T>, a: seq<T>, mask: seq<byte>, mask': seq<byte>, i: nat, n: nat)
    requires Abelian(g) && i < n <= |a| && !Disables(mask, i) && Disables(mask', i)
    requires forall k :: 0 <= k < n && k != i ==> (Disables(mask, k) <==> Disables(mask', k))
    ensures SumEnabled(g, a, mask', n) == g.add(SumEnabled(g, a, mask, n), g.neg(a[i]))
  {
    SumFlip(g, a, mask, mask', i, n);
    CancelNeg(g, SumEnabled(g, a, mask', n), a[i]);
  }
}
