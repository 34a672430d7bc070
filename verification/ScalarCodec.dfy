/** Scalars between bytes and 21-bit limbs: the first and last lines of ScReduce and ScMulAdd. */
module ScalarCodec {
  import opened MachineInt
  import opened Congruence
  import opened Bytes
  import opened Scalar

  /** The bits of `s` from byte `o` on, shifted right by log2(w) more. */
  function BitsFrom(s: seq<byte>, o: nat, w: nat): nat
    requires o <= |s| && w > 0
  {
    LeVal(s[o..]) / w
  }

  /** `2097151 & (load3(s[o:]) >> log2(w))` */
  function Limb3(s: seq<byte>, o: nat, w: nat): (r: nat)
    requires o + 3 <= |s| && w > 0
    ensures r < X21
  {
    (Load3(s, o) / w) % X21
  }

  function Limb4(s: seq<byte>, o: nat, w: nat): (r: nat)
    requires o + 4 <= |s| && w > 0
    ensures r < X21
  {
    (Load4(s, o) / w) % X21
  }

  /** Reducing mod 2^21 w v first does not change bits below that. */
  lemma LowSlice(x: nat, w: nat, v: nat)
    requires w > 0 && v > 0
    ensures w * (X21 * v) > 0
    ensures ((x % (w * (X21 * v))) / w) % X21 == (x / w) % X21
  {
    var m := w * (X21 * v);
    var q, r := x / m, x % m;
    assert x == (q * (X21 * v)) * w + r by {
      assert q * m == (q * (X21 * v)) * w;
    }
    AddMultiple(r, q * (X21 * v), w);
    assert q * (X21 * v) == (q * v) * X21;
    CongIntro(x / w, r / w, q * v, X21);
  }

  lemma AddMultiple(r: nat, k: int, w: nat)
    requires w > 0
    ensures (k * w + r) / w == k + r / w
  {
    assert (k + r / w) * w == k * w + (r / w) * w;
    DivModUnique(k * w + r, k + r / w, r % w, w);
  }

  lemma Limb3IsSlice(s: seq<byte>, o: nat, w: nat, v: nat)
    requires o + 3 <= |s| && w * (X21 * v) == 0x100_0000 && w > 0 && v > 0
    ensures Limb3(s, o, w) == BitsFrom(s, o, w) % X21
  {
    var t := s[o..];
    LeValTriple(t);
    DivModUnique(LeVal(t), LeVal(t[3..]), Load3(s, o), 0x100_0000);
    LowSlice(LeVal(t), w, v);
  }

  lemma Limb4IsSlice(s: seq<byte>, o: nat, w: nat, v: nat)
    requires o + 4 <= |s| && w * (X21 * v) == 0x1_0000_0000 && w > 0 && v > 0
    ensures Limb4(s, o, w) == BitsFrom(s, o, w) % X21
  {
    var t := s[o..];
    LeValWord(t);
    DivModUnique(LeVal(t), LeVal(t[4..]), Load4(s, o), 0x1_0000_0000);
    LowSlice(LeVal(t), w, v);
  }

  /** Two bytes on and log2(w) - log2(w') + 16 = 21 bits on: the next limb. */
  lemma NextLimb2(s: seq<byte>, o: nat, w: nat, w': nat)
    requires o + 2 <= |s| && w > 0 && w' > 0 && 0x1_0000 * w' == w * X21
    ensures BitsFrom(s, o + 2, w') == BitsFrom(s, o, w) / X21
  {
    var t := s[o..];
    assert t[1..][1..] == t[2..] == s[o + 2..];
    assert LeVal(t) == (t[0] as int + 0x100 * (t[1] as int)) + 0x1_0000 * LeVal(t[2..]);
    DivModUnique(LeVal(t), LeVal(t[2..]), t[0] as int + 0x100 * (t[1] as int), 0x1_0000);
    DivDiv(LeVal(t), 0x1_0000, w');
    DivDiv(LeVal(t), w, X21);
  }

  lemma NextLimb3(s: seq<byte>, o: nat, w: nat, w': nat)
    requires o + 3 <= |s| && w > 0 && w' > 0 && 0x100_0000 * w' == w * X21
    ensures BitsFrom(s, o + 3, w') == BitsFrom(s, o, w) / X21
  {
    var t := s[o..];
    LeValTriple(t);
    assert t[3..] == s[o + 3..];
    DivModUnique(LeVal(t), LeVal(t[3..]), Load3(s, o), 0x100_0000);
    DivDiv(LeVal(t), 0x100_0000, w');
    DivDiv(LeVal(t), w, X21);
  }

  /** Four limbs cover 84 bits. */
  lemma FourLimbs(s: seq<byte>, o: nat)
    requires o + 11 <= |s|
    ensures BitsFrom(s, o, 1) == Limb3(s, o, 1) + X21 * (Limb4(s, o + 2, 0x20) + X21 *
                                (Limb3(s, o + 5, 4) + X21 * BitsFrom(s, o + 7, 0x80)))
    ensures BitsFrom(s, o + 7, 0x80) == Limb4(s, o + 7, 0x80) + X21 * BitsFrom(s, o + 10, 0x10)
  {
    Limb3IsSlice(s, o, 1, 8);
    NextLimb2(s, o, 1, 0x20);
    Limb4IsSlice(s, o + 2, 0x20, 0x40);
    NextLimb3(s, o + 2, 0x20, 4);
    Limb3IsSlice(s, o + 5, 4, 2);
    NextLimb2(s, o + 5, 4, 0x80);
    Limb4IsSlice(s, o + 7, 0x80, 0x10);
    NextLimb3(s, o + 7, 0x80, 0x10);
  }

  /** The next three, and one more after them, complete 21 bytes. */
  lemma LaterLimbs(s: seq<byte>, o: nat)
    requires o + 21 <= |s|
    ensures BitsFrom(s, o + 10, 0x10) == Limb4(s, o + 10, 0x10) + X21 * (Limb3(s, o + 13, 2) + X21 *
                                        (Limb4(s, o + 15, 0x40) + X21 * BitsFrom(s, o + 18, 8)))
    ensures BitsFrom(s, o + 18, 8) == Limb3(s, o + 18, 8) + X21 * BitsFrom(s, o + 21, 1)
  {
    Limb4IsSlice(s, o + 10, 0x10, 0x80);
    NextLimb3(s, o + 10, 0x10, 2);
    Limb3IsSlice(s, o + 13, 2, 4);
    NextLimb2(s, o + 13, 2, 0x40);
    Limb4IsSlice(s, o + 15, 0x40, 0x20);
    NextLimb3(s, o + 15, 0x40, 8);
    Limb3IsSlice(s, o + 18, 8, 1);
    NextLimb3(s, o + 18, 8, 1);
  }

  lemma LastWord(s: seq<byte>, o: nat, w: nat)
    requires o + 4 == |s| && w > 0
    ensures BitsFrom(s, o, w) == Load4(s, o) / w
  {
    LeValWord(s[o..]);
    assert s[o..][4..] == [];
  }

  lemma Radix21Four(s: seq<int>)
    requires |s| >= 4
    ensures Radix21(s) == s[0] + X21 * (s[1] + X21 * (s[2] + X21 * (s[3] + X21 * Radix21(s[4..]))))
  {
    assert s[1..][1..] == s[2..] && s[2..][1..] == s[3..] && s[3..][1..] == s[4..];
    assert Radix21(s[2..]) == s[2] + X21 * Radix21(s[3..]);
    assert Radix21(s[3..]) == s[3] + X21 * Radix21(s[4..]);
  }

  /** Limbs i to i + 6 hold the 147 bits from byte `o` on. */
  predicate SevenLimbs(s: seq<int>, i: nat, b: seq<byte>, o: nat)
    requires i + 7 <= |s| && o + 19 <= |b|
  {
    && s[i] == Limb3(b, o, 1) && s[i + 1] == Limb4(b, o + 2, 0x20) && s[i + 2] == Limb3(b, o + 5, 4)
    && s[i + 3] == Limb4(b, o + 7, 0x80) && s[i + 4] == Limb4(b, o + 10, 0x10) && s[i + 5] == Limb3(b, o + 13, 2)
    && s[i + 6] == Limb4(b, o + 15, 0x40)
  }

  lemma SevenLimbsValue(s: seq<int>, i: nat, b: seq<byte>, o: nat)
    requires i + 8 <= |s| && o + 21 <= |b| && SevenLimbs(s, i, b, o)
    requires s[i + 7] + X21 * Radix21(s[i + 8..]) == BitsFrom(b, o + 18, 8)
    ensures Radix21(s[i..]) == BitsFrom(b, o, 1)
  {
    Radix21Four(s[i..]);
    Radix21Four(s[i + 4..]);
    assert s[i..][4..] == s[i + 4..] && s[i + 4..][4..] == s[i + 8..];
    FourLimbs(b, o);
    LaterLimbs(b, o);
  }

  method LoadSeven(s: array<int64>, i: nat, b: seq<byte>, o: nat)
    requires i + 7 <= s.Length && o + 19 <= |b|
    modifies s
    ensures SevenLimbs(s[..], i, b, o) && AllWithin(s[..], i, i + 7, X21)
    ensures forall k :: 0 <= k < s.Length && !(i <= k < i + 7) ==> s[k] == old(s[k])
  {
    s[i] := Limb3(b, o, 1);
    s[i + 1] := Limb4(b, o + 2, 0x20);
    s[i + 2] := Limb3(b, o + 5, 4);
    s[i + 3] := Limb4(b, o + 7, 0x80);
    s[i + 4] := Limb4(b, o + 10, 0x10);
    s[i + 5] := Limb3(b, o + 13, 2);
    s[i + 6] := Limb4(b, o + 15, 0x40);
  }

  /** Eight limbs from 21 bytes, below limbs already loaded. */
  method LoadEight(s: array<int64>, i: nat, b: seq<byte>, o: nat)
    requires i + 8 <= s.Length && o + 21 <= |b|
    requires AllWithin(s[..], i + 8, s.Length, B30)
    requires Radix21(s[i + 8..]) == BitsFrom(b, o + 21, 1)
    modifies s
    ensures AllWithin(s[..], i, s.Length, B30)
    ensures Radix21(s[i..]) == BitsFrom(b, o, 1)
  {
    LoadSeven(s, i, b, o);
    s[i + 7] := Limb3(b, o + 18, 8);
    LaterLimbs(b, o);
    assert s[i + 8..] == old(s[i + 8..]) && s[..][i + 8..] == s[i + 8..] && s[..][i..] == s[i..];
    SevenLimbsValue(s[..], i, b, o);
  }

  method LoadTopEight(s: array<int64>, b: seq<byte>)
    requires s.Length == 24 && |b| == 64
    modifies s
    ensures AllWithin(s[..], 16, 24, B30)
    ensures Radix21(s[16..]) == BitsFrom(b, 42, 1)
  {
    LoadSeven(s, 16, b, 42);
    s[23] := Load4(b, 60) / 8;
    LastWord(b, 60, 8);
    assert s[..][24..] == [] && s[..][16..] == s[16..];
    SevenLimbsValue(s[..], 16, b, 42);
  }

  /** The 24 limbs of a 64-byte string. */
  method LoadWide(b: seq<byte>) returns (s: array<int64>)
    requires |b| == 64
    ensures fresh(s) && s.Length == 24
    ensures AllWithin(s[..], 0, 24, B30)
    ensures Radix21(s[..]) == LeVal(b)
  {
    s := new int64[24];
    LoadTopEight(s, b);
    LoadEight(s, 8, b, 21);
    LoadEight(s, 0, b, 0);
    assert s[0..] == s[..] && b[0..] == b;
  }

  const X42 := 0x400_0000_0000
  const X63 := 0x8000_0000_0000_0000
  const X84 := 0x10_0000_0000_0000_0000_0000
  const X105 := 0x200_0000_0000_0000_0000_0000_0000
  const X126 := 0x4000_0000_0000_0000_0000_0000_0000_0000

  lemma TileLow(a: seq<byte>, b: seq<byte>, c: seq<byte>, d: seq<byte>,
                s0: int, s1: int, s2: int, s3: int, s4: int, s5: int,
                t0: int, t1: int, t2: int, t3: int, t4: int, t5: int,
                u1: int, u2: int, u3: int, u4: int, u5: int, u6: int)
    requires |a| == |b| == |c| == |d| == 4
    requires s0 == a[0] as int + 0x100 * a[1] as int + 0x1_0000 * t0
    requires a[2] == t0 + 0x20 * u1
    requires s1 == u1 + 8 * a[3] as int + 0x800 * b[0] as int + 0x8_0000 * t1
    requires b[1] == t1 + 4 * u2
    requires s2 == u2 + 0x40 * b[2] as int + 0x4000 * t2
    requires b[3] == t2 + 0x80 * u3
    requires s3 == u3 + 2 * c[0] as int + 0x200 * c[1] as int + 0x2_0000 * t3
    requires c[2] == t3 + 0x10 * u4
    requires s4 == u4 + 0x10 * c[3] as int + 0x1000 * d[0] as int + 0x10_0000 * t4
    requires d[1] == t4 + 2 * u5
    requires s5 == u5 + 0x80 * d[2] as int + 0x8000 * t5
    requires d[3] == t5 + 0x40 * u6
    ensures Word(a, 0) + X32 * (Word(b, 0) + X32 * (Word(c, 0) + X32 * Word(d, 0)))
         == s0 + X21 * s1 + X42 * s2 + X63 * s3 + X84 * s4 + X105 * s5 + X126 * u6
  {
  }

  /** Bytes 0 to 15: limbs 0 to 5 and the two low bits of limb 6. */
  function StoreLow(s0: nat, s1: nat, s2: nat, s3: nat, s4: nat, s5: nat, s6: nat): (s: seq<byte>)
    requires s0 < X21 && s1 < X21 && s2 < X21 && s3 < X21 && s4 < X21 && s5 < X21 && s6 < X21
    ensures |s| == 16
    ensures LeVal(s) == s0 + X21 * s1 + X42 * s2 + X63 * s3 + X84 * s4 + X105 * s5 + X126 * (s6 % 4)
  {
    var a := [Byte(s0), Byte(s0 / 0x100), Byte(BitOr(s0 / 0x1_0000, s1 * 0x20)), Byte(s1 / 8)];
    var b := [Byte(s1 / 0x800), Byte(BitOr(s1 / 0x8_0000, s2 * 4)), Byte(s2 / 0x40),
        Byte(BitOr(s2 / 0x4000, s3 * 0x80))];
    var c := [Byte(s3 / 2), Byte(s3 / 0x200), Byte(BitOr(s3 / 0x2_0000, s4 * 0x10)), Byte(s4 / 0x10)];
    var d := [Byte(s4 / 0x1000), Byte(BitOr(s4 / 0x10_0000, s5 * 2)), Byte(s5 / 0x80),
        Byte(BitOr(s5 / 0x8000, s6 * 0x40))];
    assert LeVal(a + (b + (c + d))) == s0 + X21 * s1 + X42 * s2 + X63 * s3 + X84 * s4 + X105 * s5 + X126 * (s6 % 4) by {
      LeValFourWords(a, b, c, d);
      Pow2Values();
      var t0, t1, t2, t3, t4, t5 := s0 / 0x1_0000, s1 / 0x8_0000, s2 / 0x4000, s3 / 0x2_0000, s4 / 0x10_0000,
          s5 / 0x8000;
      var u1, u2, u3, u4, u5, u6 := s1 % 8, s2 % 0x40, s3 % 2, s4 % 0x10, s5 % 0x80, s6 % 4;
      assert s0 == a[0] as int + 0x100 * a[1] as int + 0x1_0000 * t0 by { CutOne(s0, 0x100); }
      assert a[2] == t0 + 0x20 * u1 by { SharedByte(t0, s1, 5, 0x20, 8); }
      assert s1 == u1 + 8 * a[3] as int + 0x800 * b[0] as int + 0x8_0000 * t1 by { CutTwo(s1, 8); }
      assert b[1] == t1 + 4 * u2 by { SharedByte(t1, s2, 2, 4, 0x40); }
      assert s2 == u2 + 0x40 * b[2] as int + 0x4000 * t2 by { CutOne(s2, 0x40); }
      assert b[3] == t2 + 0x80 * u3 by { SharedByte(t2, s3, 7, 0x80, 2); }
      assert s3 == u3 + 2 * c[0] as int + 0x200 * c[1] as int + 0x2_0000 * t3 by { CutTwo(s3, 2); }
      assert c[2] == t3 + 0x10 * u4 by { SharedByte(t3, s4, 4, 0x10, 0x10); }
      assert s4 == u4 + 0x10 * c[3] as int + 0x1000 * d[0] as int + 0x10_0000 * t4 by { CutTwo(s4, 0x10); }
      assert d[1] == t4 + 2 * u5 by { SharedByte(t4, s5, 1, 2, 0x80); }
      assert s5 == u5 + 0x80 * d[2] as int + 0x8000 * t5 by { CutOne(s5, 0x80); }
      assert d[3] == t5 + 0x40 * u6 by { SharedByte(t5, s6, 6, 0x40, 4); }
      TileLow(a, b, c, d, s0, s1, s2, s3, s4, s5, t0, t1, t2, t3, t4, t5, u1, u2, u3, u4, u5, u6);
    }
    a + (b + (c + d))
  }

  lemma TileHigh(a: seq<byte>, b: seq<byte>, c: seq<byte>, d: seq<byte>,
                 s6: int, s7: int, s8: int, s9: int, s10: int, s11: int,
                 t6: int, t8: int, t9: int, t10: int,
                 u6: int, u7: int, u9: int, u10: int, u11: int)
    requires |a| == |b| == |c| == |d| == 4
    requires s6 == u6 + 4 * a[0] as int + 0x400 * a[1] as int + 0x4_0000 * t6
    requires a[2] == t6 + 8 * u7
    requires s7 == u7 + 0x20 * a[3] as int + 0x2000 * b[0] as int
    requires s8 == b[1] as int + 0x100 * b[2] as int + 0x1_0000 * t8
    requires b[3] == t8 + 0x20 * u9
    requires s9 == u9 + 8 * c[0] as int + 0x800 * c[1] as int + 0x8_0000 * t9
    requires c[2] == t9 + 4 * u10
    requires s10 == u10 + 0x40 * c[3] as int + 0x4000 * t10
    requires d[0] == t10 + 0x80 * u11
    requires s11 == u11 + 2 * d[1] as int + 0x200 * d[2] as int + 0x2_0000 * d[3] as int
    ensures u6 + 4 * (Word(a, 0) + X32 * (Word(b, 0) + X32 * (Word(c, 0) + X32 * Word(d, 0))))
         == s6 + X21 * s7 + X42 * s8 + X63 * s9 + X84 * s10 + X105 * s11
  {
  }

  /** Bytes 16 to 31: the rest of limb 6 and limbs 7 to 11. */
  function StoreHigh(s6: nat, s7: nat, s8: nat, s9: nat, s10: nat, s11: nat): (s: seq<byte>)
    requires s6 < X21 && s7 < X21 && s8 < X21 && s9 < X21 && s10 < X21 && s11 <= X21
    ensures |s| == 16
    ensures (s6 % 4) + 4 * LeVal(s) == s6 + X21 * s7 + X42 * s8 + X63 * s9 + X84 * s10 + X105 * s11
  {
    var a := [Byte(s6 / 4), Byte(s6 / 0x400), Byte(BitOr(s6 / 0x4_0000, s7 * 8)), Byte(s7 / 0x20)];
    var b := [Byte(s7 / 0x2000), Byte(s8), Byte(s8 / 0x100), Byte(BitOr(s8 / 0x1_0000, s9 * 0x20))];
    var c := [Byte(s9 / 8), Byte(s9 / 0x800), Byte(BitOr(s9 / 0x8_0000, s10 * 4)), Byte(s10 / 0x40)];
    var d := [Byte(BitOr(s10 / 0x4000, s11 * 0x80)), Byte(s11 / 2), Byte(s11 / 0x200), Byte(s11 / 0x2_0000)];
    assert (s6 % 4) + 4 * LeVal(a + (b + (c + d))) == s6 + X21 * s7 + X42 * s8 + X63 * s9 + X84 * s10 + X105 * s11 by {
      LeValFourWords(a, b, c, d);
      Pow2Values();
      var t6, t8, t9, t10 := s6 / 0x4_0000, s8 / 0x1_0000, s9 / 0x8_0000, s10 / 0x4000;
      var u6, u7, u9, u10, u11 := s6 % 4, s7 % 0x20, s9 % 8, s10 % 0x40, s11 % 2;
      assert s6 == u6 + 4 * a[0] as int + 0x400 * a[1] as int + 0x4_0000 * t6 by { CutTwo(s6, 4); }
      assert a[2] == t6 + 8 * u7 by { SharedByte(t6, s7, 3, 8, 0x20); }
      assert s7 == u7 + 0x20 * a[3] as int + 0x2000 * b[0] as int by {
        CutOne(s7, 0x20);
        ByteSmall(s7 / 0x2000);
      }
      assert s8 == b[1] as int + 0x100 * b[2] as int + 0x1_0000 * t8 by { CutOne(s8, 0x100); }
      assert b[3] == t8 + 0x20 * u9 by { SharedByte(t8, s9, 5, 0x20, 8); }
      assert s9 == u9 + 8 * c[0] as int + 0x800 * c[1] as int + 0x8_0000 * t9 by { CutTwo(s9, 8); }
      assert c[2] == t9 + 4 * u10 by { SharedByte(t9, s10, 2, 4, 0x40); }
      assert s10 == u10 + 0x40 * c[3] as int + 0x4000 * t10 by { CutOne(s10, 0x40); }
      assert d[0] == t10 + 0x80 * u11 by { SharedByte(t10, s11, 7, 0x80, 2); }
      assert s11 == u11 + 2 * d[1] as int + 0x200 * d[2] as int + 0x2_0000 * d[3] as int by {
        CutTwo(s11, 2);
        ByteSmall(s11 / 0x2_0000);
      }
      TileHigh(a, b, c, d, s6, s7, s8, s9, s10, s11, t6, t8, t9, t10, u6, u7, u9, u10, u11);
    }
    a + (b + (c + d))
  }

  /** A fully reduced value as 32 bytes. */
  method Store(s: array<int64>) returns (out: Bytes32)
    requires s.Length == 24 && Digits(s[..], 11) && 0 <= s[11] <= X21 && AllWithin(s[..], 12, 24, 0)
    ensures LeVal(out) == Radix21(s[..])
  {
    assert forall k :: 0 <= k < 11 ==> 0 <= s[..][k] < X21;
    var low := StoreLow(s[0], s[1], s[2], s[3], s[4], s[5], s[6]);
    var high := StoreHigh(s[6], s[7], s[8], s[9], s[10], s[11]);
    LeValHalves(low, high);
    TwelveLimbs(s[..]);
    out := low + high;
  }

  lemma TwelveLimbs(s: seq<int>)
    requires |s| == 24 && AllWithin(s, 12, 24, 0)
    ensures Radix21(s) == s[0] + X21 * s[1] + X42 * s[2] + X63 * s[3] + X84 * s[4] + X105 * s[5]
              + X126 * (s[6] + X21 * s[7] + X42 * s[8] + X63 * s[9] + X84 * s[10] + X105 * s[11])
  {
    Radix21Four(s);
    Radix21Four(s[4..]);
    Radix21Four(s[8..]);
    assert s[4..][4..] == s[8..] && s[8..][4..] == s[12..];
    Radix21Zero(s[12..]);
  }
}
