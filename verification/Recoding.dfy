/** Signed-digit recodings of scalars (edwards25519.go:865-893 and 952-975). */
module Recoding {
  import opened MachineInt
  import opened Congruence
  import opened Bytes
  import opened Powers

  /** The sum of s[j] 2^(w (j-i)) for j from i up. */
  function Tail(s: seq<int>, i: nat, w: nat): int
    requires i <= |s|
    decreases |s| - i
  {
    if i == |s| then 0 else s[i] + Pow2(w) * Tail(s, i + 1, w)
  }

  lemma {:induction false} TailUpdate(s: seq<int>, i: nat, k: nat, v: int, w: nat)
    requires i <= k < |s|
    ensures Tail(s[k := v], i, w) == Tail(s, i, w) + Pow2(w * (k - i)) * (v - s[k])
    decreases k - i
  {
    if i == k {
      TailSame(s, s[k := v], i + 1, w);
      assert Pow2(w * 0) == 1;
    } else {
      TailUpdate(s, i + 1, k, v, w);
      assert w * (k - i) == w + w * (k - i - 1);
      Shifted(w, w * (k - i - 1), w * (k - i), Tail(s, i + 1, w), v - s[k]);
    }
  }

  lemma Shifted(w: nat, n: nat, m: nat, t: int, x: int)
    requires m == w + n
    ensures Pow2(w) * (t + Pow2(n) * x) == Pow2(w) * t + Pow2(m) * x
  {
    Pow2Add(w, n);
    Distribute(Pow2(w), Pow2(n), t, x);
  }

  lemma Distribute(p: int, q: int, t: int, x: int)
    ensures p * (t + q * x) == p * t + (p * q) * x
  {
  }

  lemma {:induction false} TailSame(s: seq<int>, t: seq<int>, i: nat, w: nat)
    requires i <= |s| == |t| && s[i..] == t[i..]
    ensures Tail(s, i, w) == Tail(t, i, w)
    decreases |s| - i
  {
    if i < |s| {
      assert s[i] == s[i..][0] == t[i..][0] == t[i];
      assert s[i + 1..] == s[i..][1..] == t[i + 1..];
      TailSame(s, t, i + 1, w);
    }
  }

  function Ints(s: seq<int8>): (t: seq<int>)
    ensures |t| == |s| && forall i :: 0 <= i < |s| ==> t[i] == s[i]
  {
    seq(|s|, i requires 0 <= i < |s| => s[i] as int)
  }

  /** The integer that signed digits stand for, `w` bits apart. */
  function ValueBy(s: seq<int8>, w: nat): int {
    Tail(Ints(s), 0, w)
  }

  lemma ValueByUpdate(s: seq<int8>, k: nat, v: int8, w: nat)
    requires k < |s|
    ensures ValueBy(s[k := v], w) == ValueBy(s, w) + Pow2(w * k) * (v - s[k])
  {
    assert Ints(s[k := v]) == Ints(s)[k := v as int];
    TailUpdate(Ints(s), 0, k, v, w);
  }

  /** Signed binary digits. */
  function Value(s: seq<int8>): int {
    ValueBy(s, 1)
  }

  lemma ValueUpdate(s: seq<int8>, k: nat, v: int8)
    requires k < |s|
    ensures Value(s[k := v]) == Value(s) + Pow2(k) * (v - s[k])
  {
    ValueByUpdate(s, k, v, 1);
    assert 1 * k == k;
  }

  predicate IsBit(x: int8) {
    x == 0 || x == 1
  }

  /** The carry loop: adds 1 at position `at` of the binary digits from there on. */
  method PropagateCarry(r: array<int8>, at: nat) returns (off: bool)
    requires r.Length == 256 && at <= 256
    requires forall k :: at <= k < 256 ==> IsBit(r[k])
    modifies r
    ensures forall k :: 0 <= k < at ==> r[k] == old(r[k])
    ensures forall k :: at <= k < 256 ==> IsBit(r[k])
    ensures Value(r[..]) == Value(old(r[..])) + Pow2(at) - (if off then Pow2(256) else 0)
    ensures off ==> forall k :: at <= k < 256 ==> old(r[k]) == 1 && r[k] == 0
    ensures at < 256 && old(r[at]) == 1 ==> r[at] == 0
  {
    var k := at;
    while k < 256
      invariant at <= k <= 256
      invariant forall j :: 0 <= j < at || k <= j < 256 ==> r[j] == old(r[j])
      invariant forall j :: at <= j < k ==> old(r[j]) == 1 && r[j] == 0
      invariant Value(r[..]) + Pow2(k) == Value(old(r[..])) + Pow2(at)
    {
      ghost var before := r[..];
      if r[k] == 0 {
        r[k] := 1;
        assert r[..] == before[k := 1];
        ValueUpdate(before, k, 1);
        return false;
      }
      r[k] := 0;
      assert r[..] == before[k := 0];
      ValueUpdate(before, k, 0);
      k := k + 1;
    }
    off := true;
  }

  predicate IsSlideDigit(x: int8) {
    x == 0 || (x % 2 == 1 && -15 <= x <= 15)
  }

  /** Nonzero digits are at least five positions apart. */
  predicate Spaced(r: array<int8>, n: nat)
    requires n <= r.Length
    reads r
  {
    forall j, k :: 0 <= j < n && j < k < j + 5 && k < r.Length && r[j] != 0 ==> r[k] == 0
  }

  /** Below `i` the digits are final, from `i` on they are plain bits. */
  predicate Windowed(r: array<int8>, i: nat)
    reads r
  {
    && r.Length == 256 && i <= 256
    && (forall k :: 0 <= k < i ==> IsSlideDigit(r[k]))
    && (forall k :: i <= k < 256 ==> IsBit(r[k]))
    && Spaced(r, i)
  }

  /** The size of the digit under construction once positions up to `b` are absorbed. */
  predicate Absorbed(x: int8, b: nat) {
    && x % 2 == 1 && -15 <= x <= 15
    && (b <= 1 ==> x == 1) && (b == 2 ==> 1 <= x <= 3) && (b == 3 ==> 1 <= x <= 7) && (b == 4 ==> 1 <= x)
  }

  lemma TwoUpdates(s: seq<int8>, i: nat, x: int8, k: nat, y: int8)
    requires i < |s| && k < |s| && i != k
    ensures Value(s[i := x][k := y]) == Value(s) + Pow2(i) * (x - s[i]) + Pow2(k) * (y - s[k])
  {
    ValueUpdate(s, i, x);
    ValueUpdate(s[i := x], k, y);
  }

  lemma ShiftedDigit(i: nat, b: nat)
    ensures Pow2(i) * Pow2(b) == Pow2(i + b) && Pow2(i) * (-(Pow2(b) as int)) == -(Pow2(i + b) as int)
  {
    Pow2Add(i, b);
  }

  predicate InWindow(r: array<int8>, i: nat, b: nat)
    reads r
  {
    && r.Length == 256 && i < 256 && 1 <= b && i + b <= 256
    && Absorbed(r[i], b)
    && (forall k :: i < k < 256 ==> IsBit(r[k]))
    && (forall k :: i < k < i + b && k < i + 5 ==> r[k] == 0)
  }

  predicate ZeroBetween(r: array<int8>, i: int, n: nat)
    requires -1 <= i && n <= r.Length
    reads r
  {
    forall k :: i < k < n ==> r[k] == 0
  }

  lemma SmallShifts(b: nat)
    requires 1 <= b <= 6
    ensures Pow2(b) == if b == 1 then 2 else if b == 2 then 4 else if b == 3 then 8
                       else if b == 4 then 16 else if b == 5 then 32 else 64
  {
    Pow2Values();
  }

  /** r[i] += r[i+b] << b; r[i+b] = 0 */
  method Merge(r: array<int8>, i: nat, b: nat)
    requires InWindow(r, i, b) && b <= 3 && i + b < 256 && r[i + b] == 1
    modifies r
    ensures InWindow(r, i, b + 1)
    ensures forall k :: 0 <= k < 256 && k != i && k != i + b ==> r[k] == old(r[k])
    ensures r[i + b] == 0
    ensures Value(r[..]) == Value(old(r[..]))
  {
    ghost var before := r[..];
    SmallShifts(b);
    r[i] := r[i] + r[i + b] * Pow2(b);
    r[i + b] := 0;
    assert r[..] == before[i := r[i]][i + b := 0];
    TwoUpdates(before, i, r[i], i + b, 0);
    ShiftedDigit(i, b);
  }

  /** r[i] -= r[i+4] << 4 */
  method TakeSixteen(r: array<int8>, i: nat)
    requires r.Length == 256 && i + 4 < 256 && r[i + 4] == 1 && 1 <= r[i] <= 15
    modifies r
    ensures r[i] == old(r[i]) - 16
    ensures forall k :: 0 <= k < 256 && k != i ==> r[k] == old(r[k])
    ensures Value(r[..]) + Pow2(i + 4) == Value(old(r[..]))
  {
    ghost var before := r[..];
    SmallShifts(4);
    r[i] := r[i] - r[i + 4] * Pow2(4);
    assert r[..] == before[i := r[i]];
    ValueUpdate(before, i, r[i]);
    ShiftedDigit(i, 4);
  }

  /** The digit goes negative, and a carry goes into position i+4. */
  method Borrow(r: array<int8>, i: nat) returns (off: bool)
    requires InWindow(r, i, 4) && i + 4 < 256 && r[i + 4] == 1
    modifies r
    ensures InWindow(r, i, 5)
    ensures forall k :: 0 <= k < i ==> r[k] == old(r[k])
    ensures Value(r[..]) == Value(old(r[..])) - (if off then Pow2(256) else 0)
    ensures off ==> i < 252 && ZeroBetween(r, i, 256)
  {
    TakeSixteen(r, i);
    off := PropagateCarry(r, i + 4);
  }

  /** One step of the window: bits at distance 1 to 3 are added, one at distance 4
      becomes a borrow, and one further up ends the window. */
  method AbsorbBit(r: array<int8>, i: nat, b: nat) returns (stop: bool, off: bool)
    requires InWindow(r, i, b) && b <= 6 && i + b < 256
    modifies r
    ensures forall k :: 0 <= k < i ==> r[k] == old(r[k])
    ensures stop == (old(r[i + b]) != 0 && b >= 5)
    ensures stop || old(r[i + b]) == 0 ==> r[..] == old(r[..]) && !off
    ensures !stop ==> InWindow(r, i, b + 1)
    ensures Value(r[..]) == Value(old(r[..])) - (if off then Pow2(256) else 0)
    ensures off ==> i < 252 && ZeroBetween(r, i, 256)
  {
    off, stop := false, false;
    if r[i + b] != 0 {
      SmallShifts(b);
      if r[i] + r[i + b] * Pow2(b) <= 15 {
        Merge(r, i, b);
      } else if r[i] - r[i + b] * Pow2(b) >= -15 {
        off := Borrow(r, i);
      } else {
        stop := true;
      }
    }
  }

  /** Absorbs the bits above a set bit `i` into one signed digit. */
  method AbsorbBits(r: array<int8>, i: nat) returns (off: bool)
    requires r.Length == 256 && i < 256 && r[i] == 1
    requires forall k :: i < k < 256 ==> IsBit(r[k])
    modifies r
    ensures IsSlideDigit(r[i])
    ensures forall k :: 0 <= k < i ==> r[k] == old(r[k])
    ensures forall k :: i < k < 256 ==> IsBit(r[k])
    ensures forall k :: i < k < 256 && k < i + 5 ==> r[k] == 0
    ensures Value(r[..]) == Value(old(r[..])) - (if off then Pow2(256) else 0)
    ensures off ==> i < 252 && ZeroBetween(r, i, 256)
  {
    off := false;
    var b := 1;
    while b <= 6 && i + b < 256
      invariant 1 <= b <= 7 && InWindow(r, i, b)
      invariant forall k :: 0 <= k < i ==> r[k] == old(r[k])
      invariant Value(r[..]) == Value(old(r[..])) - (if off then Pow2(256) else 0)
      invariant off ==> i < 252 && ZeroBetween(r, i, 256)
    {
      var stop, lost := AbsorbBit(r, i, b);
      if stop {
        break;
      }
      off := off || lost;
      b := b + 1;
    }
  }

  function BitAt(a: Bytes32, i: nat): (b: int8)
    requires i < 256
    ensures IsBit(b)
  {
    if Bit(a[i / 8], i % 8) then 1 else 0
  }

  lemma ByteBits(x: nat, t: int)
    requires x < 0x100
    ensures x + 0x100 * t == x % 2 + 2 * ((x / 2) % 2 + 2 * ((x / 4) % 2 + 2 * ((x / 8) % 2 + 2 * ((x / 0x10) % 2
                           + 2 * ((x / 0x20) % 2 + 2 * ((x / 0x40) % 2 + 2 * ((x / 0x80) % 2 + 2 * t)))))))
  {
    Halve(x, 1);
    Halve(x, 2);
    Halve(x, 4);
    Halve(x, 8);
    Halve(x, 0x10);
    Halve(x, 0x20);
    Halve(x, 0x40);
  }

  lemma Halve(x: nat, k: nat)
    requires k > 0
    ensures x / k == (x / k) % 2 + 2 * (x / (2 * k))
  {
    DivDiv(x, k, 2);
  }

  lemma EightDigits(s: seq<int>, i: nat)
    requires i + 8 <= |s|
    ensures Tail(s, i, 1) == s[i] + 2 * (s[i + 1] + 2 * (s[i + 2] + 2 * (s[i + 3] + 2 * (s[i + 4]
                           + 2 * (s[i + 5] + 2 * (s[i + 6] + 2 * (s[i + 7] + 2 * Tail(s, i + 8, 1))))))))
  {
    Pow2Values();
    assert Tail(s, i + 4, 1) == s[i + 4] + 2 * (s[i + 5] + 2 * (s[i + 6] + 2 * (s[i + 7] + 2 * Tail(s, i + 8, 1)))) by {
      assert Tail(s, i + 7, 1) == s[i + 7] + 2 * Tail(s, i + 8, 1);
      assert Tail(s, i + 6, 1) == s[i + 6] + 2 * Tail(s, i + 7, 1);
      assert Tail(s, i + 5, 1) == s[i + 5] + 2 * Tail(s, i + 6, 1);
    }
    assert Tail(s, i + 3, 1) == s[i + 3] + 2 * Tail(s, i + 4, 1);
    assert Tail(s, i + 2, 1) == s[i + 2] + 2 * Tail(s, i + 3, 1);
    assert Tail(s, i + 1, 1) == s[i + 1] + 2 * Tail(s, i + 2, 1);
  }

  lemma DigitsOfByte(a: Bytes32, j: nat)
    requires j < 32
    ensures var x: int := a[j]; var i := 8 * j;
      && BitAt(a, i) == x % 2 && BitAt(a, i + 1) == (x / 2) % 2 && BitAt(a, i + 2) == (x / 4) % 2
      && BitAt(a, i + 3) == (x / 8) % 2 && BitAt(a, i + 4) == (x / 0x10) % 2 && BitAt(a, i + 5) == (x / 0x20) % 2
      && BitAt(a, i + 6) == (x / 0x40) % 2 && BitAt(a, i + 7) == (x / 0x80) % 2
  {
    Pow2Values();
    BitOfByte(a, j, 0, 1);
    BitOfByte(a, j, 1, 2);
    BitOfByte(a, j, 2, 4);
    BitOfByte(a, j, 3, 8);
    BitOfByte(a, j, 4, 0x10);
    BitOfByte(a, j, 5, 0x20);
    BitOfByte(a, j, 6, 0x40);
    BitOfByte(a, j, 7, 0x80);
  }

  lemma BitOfByte(a: Bytes32, j: nat, k: nat, w: nat)
    requires j < 32 && k < 8 && w == Pow2(k)
    ensures BitAt(a, 8 * j + k) == (a[j] as int / w) % 2
  {
    BitShift(a[j], k);
  }

  /** Bit k of x is the last bit of x shifted right by k. */
  lemma {:induction false} BitShift(x: nat, k: nat)
    ensures Bit(x, k) <==> (x / Pow2(k)) % 2 == 1
  {
    if k > 0 {
      BitShift(x / 2, k - 1);
      DivDiv(x, 2, Pow2(k - 1));
    }
  }

  /** The bits of the bytes have the bytes' value. */
  lemma {:induction false} BitsValue(a: Bytes32, s: seq<int>, j: nat)
    requires |s| == 256 && j <= 32
    requires forall i :: 0 <= i < 256 ==> s[i] == BitAt(a, i)
    ensures Tail(s, 8 * j, 1) == LeVal(a[j..])
    decreases 32 - j
  {
    if j < 32 {
      BitsValue(a, s, j + 1);
      EightDigits(s, 8 * j);
      DigitsOfByte(a, j);
      ByteBits(a[j], LeVal(a[j + 1..]));
      assert a[j..][1..] == a[j + 1..];
    }
  }

  /** One digit more is final. */
  method Window(r: array<int8>, i: nat) returns (off: bool)
    requires r.Length == 256 && i < 256 && Windowed(r, i) && r[i] == 1
    modifies r
    ensures Windowed(r, i + 1)
    ensures Value(r[..]) == Value(old(r[..])) - (if off then Pow2(256) else 0)
    ensures off ==> i < 252 && ZeroBetween(r, i, 256)
  {
    off := AbsorbBits(r, i);
  }

  method Bits(r: array<int8>, a: Bytes32)
    requires r.Length == 256
    modifies r
    ensures forall k :: 0 <= k < 256 ==> IsBit(r[k])
    ensures Value(r[..]) == LeVal(a)
  {
    for i := 0 to 256
      invariant forall k :: 0 <= k < i ==> r[k] == BitAt(a, k)
    {
      r[i] := BitAt(a, i);
    }
    BitsValue(a, Ints(r[..]), 0);
    assert a[0..] == a;
  }

  /** The digits that slide leaves: 0 or odd and small, nonzero ones at least five apart. */
  predicate Sparse(s: seq<int8>) {
    && |s| == 256 && (forall k :: 0 <= k < 256 ==> IsSlideDigit(s[k]))
    && forall j, k :: 0 <= j < k < 256 && k < j + 5 && s[j] != 0 ==> s[k] == 0
  }

  /** The digit that an odd number ends in: its residue modulo 32 in [-15, 15]. */
  function LastDigit(v: int): (d: int)
    requires v % 2 == 1
    ensures d % 2 == 1 && -15 <= d <= 15 && (v - d) % 32 == 0
  {
    var r, q := v % 32, v / 32;
    assert v == 32 * q + r;
    assert r % 2 == 1 by { DivModUnique(v, 16 * q + r / 2, r % 2, 2); }
    var d := if r < 16 then r else r - 32;
    assert (v - d) % 32 == 0 by { DivModUnique(v - d, if r < 16 then q else q + 1, 0, 32); }
    d
  }

  /** Whether v has such digits in n places. */
  predicate Recodable(v: int, n: nat)
    decreases n, v
  {
    if n == 0 then v == 0
    else if v % 2 == 0 then Recodable(v / 2, n - 1)
    else if n < 5 then -15 <= v <= 15
    else Recodable((v - LastDigit(v)) / 2, n - 1)
  }

  /** The sum of slide's digits: `v`, or `v` less the carry that ran off the end. */
  function SlideValue(v: int): int {
    if Recodable(v, 256) then v else v - Pow2(256)
  }

  /** Zeros above a digit make what they stand for a multiple of a power of two. */
  lemma {:induction false} ZerosShift(s: seq<int>, i: nat, n: nat) returns (m: int)
    requires i <= |s| && forall k :: i <= k < |s| && k < i + n ==> s[k] == 0
    ensures Tail(s, i, 1) == Pow2(n) * m && (i + n >= |s| ==> m == 0)
    decreases n
  {
    Pow2Values();
    if i == |s| {
      m := 0;
    } else if n == 0 {
      m := Tail(s, i, 1);
      assert Pow2(0) == 1;
    } else {
      m := ZerosShift(s, i + 1, n - 1);
      Doubled(Pow2(n - 1), m);
    }
  }

  lemma Doubled(w: int, m: int)
    ensures 2 * (w * m) == (2 * w) * m
  {
  }

  /** The last digit is determined modulo 32. */
  lemma DigitUnique(v: int, d: int, k: int)
    requires d % 2 == 1 && -15 <= d <= 15 && v == d + 32 * k
    ensures v % 2 == 1 && LastDigit(v) == d && (v - d) / 2 == 16 * k
  {
    var h := (d - 1) / 2;
    assert d == 2 * h + 1;
    assert v % 2 == 1 by { DivModUnique(v, 16 * k + h, 1, 2); }
    assert (v - d) / 2 == 16 * k by { DivModUnique(v - d, 16 * k, 0, 2); }
    if d >= 0 {
      DivModUnique(v, k, d, 32);
    } else {
      DivModUnique(v, k - 1, d + 32, 32);
    }
  }

  /** An odd digit of a sparse string is determined by the number it ends. */
  lemma OddDigit(s: seq<int8>, i: nat, c: int)
    requires Sparse(s) && i < 252 && s[i] != 0
    ensures var v := Tail(Ints(s), i, 1) + 32 * c;
      v % 2 == 1 && LastDigit(v) == s[i] && (v - s[i]) / 2 == Tail(Ints(s), i + 1, 1) + 16 * c
  {
    var x := Ints(s);
    var m := ZerosShift(x, i + 1, 4);
    Pow2Values();
    assert Tail(x, i, 1) == s[i] + 2 * Tail(x, i + 1, 1);
    DigitUnique(Tail(x, i, 1) + 32 * c, s[i], m + c);
  }

  /** One of the top four digits, if not zero, is the only one left. */
  lemma TopDigit(s: seq<int8>, i: nat)
    requires Sparse(s) && 252 <= i < 256 && s[i] != 0
    ensures Tail(Ints(s), i, 1) == s[i]
  {
    var m := ZerosShift(Ints(s), i + 1, 4);
    Pow2Values();
  }

  /** What sparse digits stand for is recodable. */
  lemma {:induction false} SparseRecodable(s: seq<int8>, i: nat)
    requires Sparse(s) && i <= 256
    ensures Recodable(Tail(Ints(s), i, 1), 256 - i)
    decreases 256 - i
  {
    if i < 256 {
      SparseRecodable(s, i + 1);
      TailParity(s, i);
      if s[i] != 0 && i < 252 {
        OddDigit(s, i, 0);
      } else if s[i] != 0 {
        TopDigit(s, i);
      }
    }
  }

  lemma TailParity(s: seq<int8>, i: nat)
    requires |s| == 256 && i < 256
    ensures s[i] == 0 ==> Tail(Ints(s), i, 1) % 2 == 0 && Tail(Ints(s), i, 1) / 2 == Tail(Ints(s), i + 1, 1)
  {
    Pow2Values();
    assert Tail(Ints(s), i, 1) == s[i] + 2 * Tail(Ints(s), i + 1, 1);
  }

  /** A carry off the end means that the number was not recodable. */
  lemma {:induction false} CarriedNotRecodable(s: seq<int8>, i: nat)
    requires Sparse(s) && i <= 252 && forall k :: 252 <= k < 256 ==> s[k] == 0
    ensures !Recodable(Tail(Ints(s), i, 1) + Pow2(256 - i), 256 - i)
    decreases 252 - i
  {
    Pow2Values();
    if i == 252 {
      var m := ZerosShift(Ints(s), i, 4);
      SixteenNotRecodable();
    } else {
      CarriedNotRecodable(s, i + 1);
      var c := Pow2(251 - i);
      assert Pow2(256 - i) == 32 * c && Pow2(255 - i) == 16 * c by {
        Pow2Add(251 - i, 5);
        Pow2Add(251 - i, 4);
      }
      if s[i] != 0 {
        OddDigit(s, i, c);
      } else {
        TailParity(s, i);
        EvenSum(Tail(Ints(s), i, 1), c);
      }
    }
  }

  lemma EvenSum(t: int, c: int)
    requires t % 2 == 0
    ensures (t + 32 * c) % 2 == 0 && (t + 32 * c) / 2 == t / 2 + 16 * c
  {
    var h := t / 2;
    DivModUnique(t + 32 * c, h + 16 * c, 0, 2);
  }

  lemma SixteenNotRecodable()
    ensures !Recodable(16, 4)
  {
    assert !Recodable(1, 0);
    assert !Recodable(2, 1);
    assert !Recodable(4, 2);
    assert !Recodable(8, 3);
  }

  /** Every number up to half the range is recodable, in particular every scalar with a[31] <= 127. */
  lemma {:induction false} HalfRangeRecodable(v: int, n: nat)
    requires n > 0 && 0 <= v <= Pow2(n - 1)
    ensures Recodable(v, n)
    decreases n
  {
    if n == 1 {
      assert Pow2(0) == 1;
      assert Recodable(0, 0);
    } else if v % 2 == 0 {
      HalfRangeRecodable(v / 2, n - 1);
    } else if n < 5 {
      Pow2Values();
    } else {
      HalfOfOdd(v, n);
      HalfRangeRecodable((v - LastDigit(v)) / 2, n - 1);
    }
  }

  lemma HalfOfOdd(v: int, n: nat)
    requires n >= 5 && v % 2 == 1 && 0 <= v <= Pow2(n - 1)
    ensures 0 <= (v - LastDigit(v)) / 2 <= Pow2(n - 2)
  {
    Pow2Values();
    if n > 5 {
      Pow2Add(n - 6, 5);
      Pow2Add(n - 6, 4);
      RoundedWithin(v, Pow2(n - 6));
    }
  }

  lemma RoundedWithin(v: int, c: int)
    requires v % 2 == 1 && 0 <= v <= 32 * c
    ensures 0 <= (v - LastDigit(v)) / 2 <= 16 * c
  {
    var k := (v - LastDigit(v)) / 32;
    assert v - LastDigit(v) == 32 * k;
    assert 0 <= k <= c;
    DivModUnique(32 * k, 16 * k, 0, 2);
  }

  lemma {:induction false} ShiftRecodable(v: int, k: nat, n: nat)
    ensures Recodable(Pow2(k) * v, n + k) == Recodable(v, n)
  {
    if k == 0 {
      assert Pow2(0) * v == v;
    } else {
      Doubled(Pow2(k - 1), v);
      ShiftRecodable(v, k - 1, n);
    }
  }

  /** 17 * 2^(n-5) loses its carry in n places; in 256 places this is 2^255 + 2^251. */
  lemma CarryRunsOff(n: nat)
    requires n >= 5
    ensures var v := Pow2(n - 5) * 17;
      && v == Pow2(n - 1) + Pow2(n - 5) < Pow2(n) && !Recodable(v, n)
      && (n == 256 ==> SlideValue(v) == v - Pow2(n))
  {
    var p := Pow2(n - 5);
    assert Pow2(n - 1) == p * 16 && Pow2(n) == p * 32 by {
      Pow2Values();
      Pow2Add(n - 5, 4);
      Pow2Add(n - 5, 5);
    }
    ShiftRecodable(17, n - 5, 5);
    SixteenNotRecodable();
    assert LastDigit(17) == -15;
  }

  /** The 32 bytes of 2^255 + 2^251, of which slide's digits sum to 2^256 less. */
  function LosingScalar(): (a: Bytes32)
    ensures LeVal(a) == Pow2(255) + Pow2(251)
    ensures SlideValue(LeVal(a)) == LeVal(a) - Pow2(256)
  {
    var v := Pow2(251) * 17;
    CarryRunsOff(256);
    LeBytesValue(v, 32);
    LeBytes(v, 32)
  }

  /** No number has two recodings. */
  lemma RecodingUnique(s: seq<int8>, t: seq<int8>)
    requires Sparse(s) && Sparse(t) && Value(s) == Value(t)
    ensures s == t
  {
    SameTails(s, t, 256);
  }

  lemma {:induction false} SameTails(s: seq<int8>, t: seq<int8>, i: nat)
    requires Sparse(s) && Sparse(t) && Value(s) == Value(t) && i <= 256
    ensures s[..i] == t[..i] && Tail(Ints(s), i, 1) == Tail(Ints(t), i, 1)
  {
    if i > 0 {
      var j := i - 1;
      SameTails(s, t, j);
      Pow2Values();
      SameDigit(s, t, j);
      assert s[..i] == s[..j] + [s[j]] && t[..i] == t[..j] + [t[j]];
    }
  }

  lemma SameDigit(s: seq<int8>, t: seq<int8>, i: nat)
    requires Sparse(s) && Sparse(t) && i < 256 && Tail(Ints(s), i, 1) == Tail(Ints(t), i, 1)
    ensures s[i] == t[i]
  {
    Pow2Values();
    if s[i] != 0 && t[i] != 0 {
      if i < 252 {
        OddDigit(s, i, 0);
        OddDigit(t, i, 0);
      } else {
        TopDigit(s, i);
        TopDigit(t, i);
      }
    }
  }

  /** The loop over the windows. */
  method Windows(r: array<int8>, a: Bytes32) returns (ghost off: bool)
    requires r.Length == 256
    modifies r
    ensures Windowed(r, 256)
    ensures Value(r[..]) == LeVal(a) - (if off then Pow2(256) else 0)
    ensures off ==> ZeroBetween(r, 251, 256)
  {
    Bits(r, a);
    off := false;
    for i := 0 to 256
      invariant Windowed(r, i)
      invariant Value(r[..]) == LeVal(a) - (if off then Pow2(256) else 0)
      invariant off ==> ZeroBetween(r, i - 1, 256) && ZeroBetween(r, 251, 256)
    {
      if r[i] != 0 {
        off := Window(r, i);
      }
    }
  }

  /** The one sparse recoding of a, or of a - 2^256 when a carry runs off the end, which it does
      exactly when a has none. */
  method Slide(r: array<int8>, a: Bytes32)
    requires r.Length == 256
    modifies r
    ensures Windowed(r, 256) && Sparse(r[..])
    ensures Value(r[..]) == SlideValue(LeVal(a))
    ensures a[31] <= 127 ==> Value(r[..]) == LeVal(a)
  {
    ghost var off := Windows(r, a);
    SlideOutcome(r[..], LeVal(a), off);
    if a[31] <= 127 {
      ScalarRecodable(a);
    }
  }

  /** Which of the two sums it is. */
  lemma SlideOutcome(s: seq<int8>, v: int, off: bool)
    requires Sparse(s) && Value(s) == v - (if off then Pow2(256) else 0)
    requires off ==> forall k :: 252 <= k < 256 ==> s[k] == 0
    ensures Value(s) == SlideValue(v)
  {
    if off {
      CarriedNotRecodable(s, 0);
    } else {
      SparseRecodable(s, 0);
    }
  }

  lemma ScalarRecodable(a: Bytes32)
    requires a[31] <= 127
    ensures Recodable(LeVal(a), 256)
  {
    LeVal32(a);
    Pow2At255();
    HalfRangeRecodable(LeVal(a), 256);
  }

  predicate IsNibbles(e: array<int8>, a: Bytes32, n: nat)
    requires e.Length == 64 && n <= 32
    reads e
  {
    forall i :: 0 <= i < n ==> e[2 * i] == a[i] % 16 && e[2 * i + 1] == a[i] / 16
  }

  lemma {:induction false} NibblesValue(a: Bytes32, s: seq<int>, j: nat)
    requires |s| == 64 && j <= 32
    requires forall i :: 0 <= i < 32 ==> s[2 * i] == a[i] % 16 && s[2 * i + 1] == a[i] / 16
    ensures Tail(s, 2 * j, 4) == LeVal(a[j..])
    decreases 32 - j
  {
    if j < 32 {
      NibblesValue(a, s, j + 1);
      Pow2Values();
      assert Tail(s, 2 * j, 4) == s[2 * j] + 16 * Tail(s, 2 * j + 1, 4);
      assert Tail(s, 2 * j + 1, 4) == s[2 * j + 1] + 16 * Tail(s, 2 * j + 2, 4);
      assert a[j..][1..] == a[j + 1..];
    }
  }

  method Nibbles(e: array<int8>, a: Bytes32)
    requires e.Length == 64
    modifies e
    ensures forall k :: 0 <= k < 64 ==> 0 <= e[k] <= 15
    ensures ValueBy(e[..], 4) == LeVal(a)
    ensures e[63] == a[31] / 16
  {
    for i := 0 to 32
      invariant IsNibbles(e, a, i)
    {
      e[2 * i] := a[i] % 16;
      e[2 * i + 1] := a[i] / 16;
    }
    NibblesValue(a, Ints(e[..]), 0);
    assert a[0..] == a;
    forall k | 0 <= k < 64
      ensures 0 <= e[k] <= 15
    {
      var i := k / 2;
      assert e[2 * i] == a[i] % 16 && e[2 * i + 1] == a[i] / 16;
    }
    assert e[63] == e[2 * 31 + 1];
  }

  /** Radix-16 digits in [-8, 8] with the value of `a`, as long as a[31] <= 127. */
  method Radix16(e: array<int8>, a: Bytes32)
    requires e.Length == 64
    modifies e
    ensures ValueBy(e[..], 4) == LeVal(a)
    ensures forall i :: 0 <= i < 63 ==> -8 <= e[i] < 8
    ensures 0 <= e[63] <= 16 && (a[31] <= 127 ==> e[63] <= 8)
  {
    Nibbles(e, a);
    var carry: int8 := 0;
    for i := 0 to 63
      invariant 0 <= carry <= 1
      invariant forall k :: 0 <= k < i ==> -8 <= e[k] < 8
      invariant forall k :: i <= k < 64 ==> 0 <= e[k] <= 15
      invariant e[63] == a[31] / 16
      invariant ValueBy(e[..], 4) + Pow2(4 * i) * carry == LeVal(a)
    {
      carry := MoveCarry(e, i, carry);
    }
    ghost var before := e[..];
    e[63] := e[63] + carry;
    assert e[..] == before[63 := e[63]];
    ValueByUpdate(before, 63, e[63], 4);
  }

  /** One step of the carry loop. */
  method MoveCarry(e: array<int8>, i: nat, carry: int8) returns (next: int8)
    requires e.Length == 64 && i < 63 && 0 <= carry <= 1 && 0 <= e[i] <= 15
    modifies e
    ensures 0 <= next <= 1 && -8 <= e[i] < 8
    ensures forall k :: 0 <= k < 64 && k != i ==> e[k] == old(e[k])
    ensures ValueBy(e[..], 4) + Pow2(4 * (i + 1)) * next == ValueBy(old(e[..]), 4) + Pow2(4 * i) * carry
  {
    ghost var before := e[..];
    e[i] := e[i] + carry;
    next := (e[i] + 8) / 16;
    e[i] := e[i] - next * 16;
    assert e[..] == before[i := e[i]];
    ValueByUpdate(before, i, e[i], 4);
    CarryWeight(Pow2(4 * i), carry, next);
    Pow2Values();
    Pow2Add(4, 4 * i);
  }

  lemma CarryWeight(p: int, carry: int, next: int)
    ensures p * (carry - next * 16) + (16 * p) * next == p * carry
  {
  }
}
