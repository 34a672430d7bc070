/** Field elements to and from 32 bytes (edwards25519.go:75-217). */
module FieldCodec {
  import opened MachineInt
  import opened Congruence
  import opened Bytes
  import opened FieldElement

  /** The ten loads of FeFromBytes, the last one with its top bit. */
  function Loads(s: Bytes32): Limbs {
    Limbs(Load4(s, 0), Load3(s, 4) * 0x40, Load3(s, 7) * 0x20, Load3(s, 10) * 8, Load3(s, 13) * 4,
          Load4(s, 16), Load3(s, 20) * 0x80, Load3(s, 23) * 0x20, Load3(s, 26) * 0x10, Load3(s, 29) * 4)
  }

  lemma LoadsTile(s: Bytes32)
    ensures Val(Loads(s)) == LeVal(s)
  {
    ValSum(Loads(s));
    LeVal32(s);
  }

  /** Masking the top load clears bit 255. */
  lemma MaskedLoads(s: Bytes32, h: Limbs)
    requires h == Loads(s).(9 := (Load3(s, 29) % 0x80_0000) * 4)
    ensures Val(h) == LeVal(s) % X255
    ensures Combinable(h)
  {
    LoadsTile(s);
    ValSum(Loads(s));
    ValSum(h);
    var top := Load3(s, 29) / 0x80_0000;
    assert LeVal(s) == top * X255 + Val(h);
    DivModUnique(LeVal(s), top, Val(h), X255);
  }

  method FeFromBytes(src: Bytes32) returns (dst: Fe)
    ensures Bounded(dst, 1)
    ensures Cong(Val(dst), LeVal(src) % X255, P)
  {
    var h: Columns := Limbs(
      Load4(src, 0),
      Load3(src, 4) * 0x40,
      Load3(src, 7) * 0x20,
      Load3(src, 10) * 8,
      Load3(src, 13) * 4,
      Load4(src, 16),
      Load3(src, 20) * 0x80,
      Load3(src, 23) * 0x20,
      Load3(src, 26) * 0x10,
      (Load3(src, 29) % 0x80_0000) * 4);
    MaskedLoads(src, h);
    dst := FeCombine(h);
  }

  /** Arithmetic right shift by 26 of a value that fits 32 bits. */
  function Shr26(x: int32): (q: int32)
    ensures 0 <= x - 0x400_0000 * q < 0x400_0000 && Within(q, 0x20)
  {
    x / 0x400_0000
  }

  function Shr25(x: int32): (q: int32)
    ensures 0 <= x - 0x200_0000 * q < 0x200_0000 && Within(q, 0x40)
  {
    x / 0x200_0000
  }

  /** The rounded estimate `q` of 2^-255 (v + 19 * 2^-25 * top + 1/2) is the exact quotient of `v` by P:
      `top` is the top limb of `v`, `low` the rest, and `q0` the estimate's first step. */
  lemma EstimateIsQuotient(v: int, top: int, low: int, q0: int, q: int, rho: int)
    requires v == low + W9 * top && Within(low, 2 * W9) && Within(top, 3 * ODD_UNIT)
    requires 0 <= 19 * top + 0x100_0000 - 0x200_0000 * q0 < 0x200_0000
    requires v + q0 == X255 * q + rho && 0 <= rho < X255
    ensures 0 <= v - (X255 - 19) * q < X255 - 19 && Within(q, 2)
  {
  }

  /** floor(v / P), found by rippling a carry through the limbs. */
  method Quotient(h: Fe) returns (q: int32)
    requires Bounded(h, 3)
    ensures 0 <= Val(h) - (X255 - 19) * q < X255 - 19 && Within(q, 2)
  {
    BoundedLimbs(h, 3);
    ValSum(h);
    q := Shr25(19 * h.9 + 0x100_0000);
    ghost var q0 := q;
    q := Shr26(h.0 + q);
    q := Shr25(h.1 + q);
    q := Shr26(h.2 + q);
    q := Shr25(h.3 + q);
    q := Shr26(h.4 + q);
    q := Shr25(h.5 + q);
    q := Shr26(h.6 + q);
    q := Shr25(h.7 + q);
    q := Shr26(h.8 + q);
    q := Shr25(h.9 + q);
    EstimateIsQuotient(Val(h), h.9, Val(h) - W9 * h.9, q0, q, Val(h) + q0 - X255 * q);
  }

  predicate Limb26(x: int) { 0 <= x < 0x400_0000 }

  predicate Limb25(x: int) { 0 <= x < 0x200_0000 }

  /** Every limb in its own 26 or 25 bits. */
  predicate Reduced(h: Limbs) {
    && Limb26(h.0) && Limb25(h.1) && Limb26(h.2) && Limb25(h.3) && Limb26(h.4)
    && Limb25(h.5) && Limb26(h.6) && Limb25(h.7) && Limb26(h.8) && Limb25(h.9)
  }

  lemma ReducedRange(h: Limbs)
    requires Reduced(h)
    ensures 0 <= Val(h) < X255
  {
    ValSum(h);
  }

  lemma TopCarry(v: int, r: int, carry: int, q: int)
    requires 0 <= v - (X255 - 19) * q < X255 - 19 && 0 <= r < X255
    requires r + X255 * carry == v + 19 * q
    ensures r == v - (X255 - 19) * q
  {
  }

  /** Adding 19 q and dropping the carry out of the top takes q P off. */
  lemma TopCarryIsQuotient(f: Limbs, h: Limbs, carry: int, q: int)
    requires 0 <= Val(f) - (X255 - 19) * q < X255 - 19 && Reduced(h)
    requires Weighed(h) + X255 * carry == Weighed(f) + 19 * q
    ensures Val(h) == Val(f) % P
  {
    var v, r := Val(f), Val(h);
    assert v == Weighed(f) by { ValSum(f); }
    assert r == Weighed(h) && 0 <= r < X255 by { ValSum(h); ReducedRange(h); }
    TopCarry(v, r, carry, q);
    PValue();
    DivModUnique(v, q, r, P);
  }

  /** Moves the part of a limb above 26 bits into the next limb. */
  method Carry26(a: int32, b: int32) returns (lo: int32, hi: int32)
    requires Within(b, 0x7000_0000)
    ensures Limb26(lo)
    ensures lo + 0x400_0000 * hi == a + 0x400_0000 * b
  {
    var carry := Shr26(a);
    hi := b + carry;
    lo := a - carry * 0x400_0000;
  }

  /** Moves the part of a limb above 25 bits into the next limb. */
  method Carry25(a: int32, b: int32) returns (lo: int32, hi: int32)
    requires Within(b, 0x7000_0000)
    ensures Limb25(lo)
    ensures lo + 0x200_0000 * hi == a + 0x200_0000 * b
  {
    var carry := Shr25(a);
    hi := b + carry;
    lo := a - carry * 0x200_0000;
  }

  /** Rewrites `h` to the limbs of its residue in [0, P): what FeToBytes does to its argument. */
  method Canonicalize(f: Fe) returns (h: Fe)
    requires Bounded(f, 3)
    ensures Reduced(h)
    ensures Val(h) == Val(f) % P
  {
    var q := Quotient(f);
    BoundedLimbs(f, 3);

    var h0, h1, h2, h3, h4, h5, h6, h7, h8, h9, carry: int32;
    h0, h1 := Carry26(f.0 + 19 * q, f.1);
    h1, h2 := Carry25(h1, f.2);
    h2, h3 := Carry26(h2, f.3);
    h3, h4 := Carry25(h3, f.4);
    h4, h5 := Carry26(h4, f.5);
    h5, h6 := Carry25(h5, f.6);
    h6, h7 := Carry26(h6, f.7);
    h7, h8 := Carry25(h7, f.8);
    h8, h9 := Carry26(h8, f.9);
    h9, carry := Carry25(h9, 0);
    h := Limbs(h0, h1, h2, h3, h4, h5, h6, h7, h8, h9);

    // what is left of h is in [0, 2^255), so the carry lost at the top is q
    TopCarryIsQuotient(f, h, carry, q);
  }

  /** Four words of bytes cut out of the limbs h0 to h4; t is the top of a limb and u
      the bottom of the next, where the two share a byte. */
  lemma TileLow(a: seq<byte>, b: seq<byte>, c: seq<byte>, d: seq<byte>, h0: int, h1: int, h2: int, h3: int, h4: int,
                t0: int, u1: int, t1: int, u2: int, t2: int, u3: int, t3: int, u4: int)
    requires |a| == |b| == |c| == |d| == 4
    requires h0 == a[0] as int + 0x100 * a[1] as int + 0x1_0000 * a[2] as int + 0x100_0000 * t0
    requires a[3] == t0 + 4 * u1
    requires h1 == u1 + 0x40 * b[0] as int + 0x4000 * b[1] as int + 0x40_0000 * t1
    requires b[2] == t1 + 8 * u2
    requires h2 == u2 + 0x20 * b[3] as int + 0x2000 * c[0] as int + 0x20_0000 * t2
    requires c[1] == t2 + 0x20 * u3
    requires h3 == u3 + 8 * c[2] as int + 0x800 * c[3] as int + 0x8_0000 * t3
    requires d[0] == t3 + 0x40 * u4
    requires h4 == u4 + 4 * d[1] as int + 0x400 * d[2] as int + 0x4_0000 * d[3] as int
    ensures Word(a, 0) + X32 * (Word(b, 0) + X32 * (Word(c, 0) + X32 * Word(d, 0)))
         == h0 + W1 * h1 + W2 * h2 + W3 * h3 + W4 * h4
  {
  }

  /** Bytes 0 to 15: limbs 0 to 4, exactly 128 bits. */
  function PackLow(h0: nat, h1: nat, h2: nat, h3: nat, h4: nat): (s: seq<byte>)
    requires Limb26(h0) && Limb25(h1) && Limb26(h2) && Limb25(h3) && Limb26(h4)
    ensures |s| == 16 && LeVal(s) == h0 + W1 * h1 + W2 * h2 + W3 * h3 + W4 * h4
  {
    var a := [Byte(h0), Byte(h0 / 0x100), Byte(h0 / 0x1_0000), Byte(BitOr(h0 / 0x100_0000, h1 * 4))];
    var b := [Byte(h1 / 0x40), Byte(h1 / 0x4000), Byte(BitOr(h1 / 0x40_0000, h2 * 8)), Byte(h2 / 0x20)];
    var c := [Byte(h2 / 0x2000), Byte(BitOr(h2 / 0x20_0000, h3 * 0x20)), Byte(h3 / 8), Byte(h3 / 0x800)];
    var d := [Byte(BitOr(h3 / 0x8_0000, h4 * 0x40)), Byte(h4 / 4), Byte(h4 / 0x400), Byte(h4 / 0x4_0000)];
    assert LeVal(a + (b + (c + d))) == h0 + W1 * h1 + W2 * h2 + W3 * h3 + W4 * h4 by {
      LeValFourWords(a, b, c, d);
      Pow2Values();
      var t0, t1, t2, t3 := h0 / 0x100_0000, h1 / 0x40_0000, h2 / 0x20_0000, h3 / 0x8_0000;
      var u1, u2, u3, u4 := h1 % 0x40, h2 % 0x20, h3 % 8, h4 % 4;
      assert h0 == a[0] as int + 0x100 * a[1] as int + 0x1_0000 * a[2] as int
          + 0x100_0000 * t0 by { CutTwo(h0, 0x100); }
      assert a[3] == t0 + 4 * u1 by { SharedByte(t0, h1, 2, 4, 0x40); }
      assert h1 == u1 + 0x40 * b[0] as int + 0x4000 * b[1] as int + 0x40_0000 * t1 by { CutTwo(h1, 0x40); }
      assert b[2] == t1 + 8 * u2 by { SharedByte(t1, h2, 3, 8, 0x20); }
      assert h2 == u2 + 0x20 * b[3] as int + 0x2000 * c[0] as int + 0x20_0000 * t2 by { CutTwo(h2, 0x20); }
      assert c[1] == t2 + 0x20 * u3 by { SharedByte(t2, h3, 5, 0x20, 8); }
      assert h3 == u3 + 8 * c[2] as int + 0x800 * c[3] as int + 0x8_0000 * t3 by { CutTwo(h3, 8); }
      assert d[0] == t3 + 0x40 * u4 by { SharedByte(t3, h4, 6, 0x40, 4); }
      assert h4 == u4 + 4 * d[1] as int + 0x400 * d[2] as int + 0x4_0000 * d[3] as int by {
        CutTwo(h4, 4);
        ByteSmall(h4 / 0x4_0000);
      }
      TileLow(a, b, c, d, h0, h1, h2, h3, h4, t0, u1, t1, u2, t2, u3, t3, u4);
    }
    a + (b + (c + d))
  }

  // the weights of limbs 6 to 9 relative to limb 5
  const X25 := 0x200_0000
  const X51 := 0x8_0000_0000_0000
  const X76 := 0x1000_0000_0000_0000_0000
  const X102 := 0x40_0000_0000_0000_0000_0000_0000

  lemma TileHigh(a: seq<byte>, b: seq<byte>, c: seq<byte>, d: seq<byte>, h5: int, h6: int, h7: int, h8: int, h9: int,
                 t5: int, u6: int, t6: int, u7: int, t7: int, u8: int, t8: int, u9: int)
    requires |a| == |b| == |c| == |d| == 4
    requires h5 == a[0] as int + 0x100 * a[1] as int + 0x1_0000 * a[2] as int + 0x100_0000 * t5
    requires a[3] == t5 + 2 * u6
    requires h6 == u6 + 0x80 * b[0] as int + 0x8000 * b[1] as int + 0x80_0000 * t6
    requires b[2] == t6 + 8 * u7
    requires h7 == u7 + 0x20 * b[3] as int + 0x2000 * c[0] as int + 0x20_0000 * t7
    requires c[1] == t7 + 0x10 * u8
    requires h8 == u8 + 0x10 * c[2] as int + 0x1000 * c[3] as int + 0x10_0000 * t8
    requires d[0] == t8 + 0x40 * u9
    requires h9 == u9 + 4 * d[1] as int + 0x400 * d[2] as int + 0x4_0000 * d[3] as int
    ensures Word(a, 0) + X32 * (Word(b, 0) + X32 * (Word(c, 0) + X32 * Word(d, 0)))
         == h5 + X25 * h6 + X51 * h7 + X76 * h8 + X102 * h9
  {
  }

  /** Bytes 16 to 31: limbs 5 to 9, 127 bits. */
  function PackHigh(h5: nat, h6: nat, h7: nat, h8: nat, h9: nat): (s: seq<byte>)
    requires Limb25(h5) && Limb26(h6) && Limb25(h7) && Limb26(h8) && Limb25(h9)
    ensures |s| == 16 && LeVal(s) == h5 + X25 * h6 + X51 * h7 + X76 * h8 + X102 * h9
  {
    var a := [Byte(h5), Byte(h5 / 0x100), Byte(h5 / 0x1_0000), Byte(BitOr(h5 / 0x100_0000, h6 * 2))];
    var b := [Byte(h6 / 0x80), Byte(h6 / 0x8000), Byte(BitOr(h6 / 0x80_0000, h7 * 8)), Byte(h7 / 0x20)];
    var c := [Byte(h7 / 0x2000), Byte(BitOr(h7 / 0x20_0000, h8 * 0x10)), Byte(h8 / 0x10), Byte(h8 / 0x1000)];
    var d := [Byte(BitOr(h8 / 0x10_0000, h9 * 0x40)), Byte(h9 / 4), Byte(h9 / 0x400), Byte(h9 / 0x4_0000)];
    assert LeVal(a + (b + (c + d))) == h5 + X25 * h6 + X51 * h7 + X76 * h8 + X102 * h9 by {
      LeValFourWords(a, b, c, d);
      Pow2Values();
      var t5, t6, t7, t8 := h5 / 0x100_0000, h6 / 0x80_0000, h7 / 0x20_0000, h8 / 0x10_0000;
      var u6, u7, u8, u9 := h6 % 0x80, h7 % 0x20, h8 % 0x10, h9 % 4;
      assert h5 == a[0] as int + 0x100 * a[1] as int + 0x1_0000 * a[2] as int
          + 0x100_0000 * t5 by { CutTwo(h5, 0x100); }
      assert a[3] == t5 + 2 * u6 by { SharedByte(t5, h6, 1, 2, 0x80); }
      assert h6 == u6 + 0x80 * b[0] as int + 0x8000 * b[1] as int + 0x80_0000 * t6 by { CutTwo(h6, 0x80); }
      assert b[2] == t6 + 8 * u7 by { SharedByte(t6, h7, 3, 8, 0x20); }
      assert h7 == u7 + 0x20 * b[3] as int + 0x2000 * c[0] as int + 0x20_0000 * t7 by { CutTwo(h7, 0x20); }
      assert c[1] == t7 + 0x10 * u8 by { SharedByte(t7, h8, 4, 0x10, 0x10); }
      assert h8 == u8 + 0x10 * c[2] as int + 0x1000 * c[3] as int + 0x10_0000 * t8 by { CutTwo(h8, 0x10); }
      assert d[0] == t8 + 0x40 * u9 by { SharedByte(t8, h9, 6, 0x40, 4); }
      assert h9 == u9 + 4 * d[1] as int + 0x400 * d[2] as int + 0x4_0000 * d[3] as int by {
        CutTwo(h9, 4);
        ByteSmall(h9 / 0x4_0000);
      }
      TileHigh(a, b, c, d, h5, h6, h7, h8, h9, t5, u6, t6, u7, t7, u8, t8, u9);
    }
    a + (b + (c + d))
  }

  /** Writes the residue of `f` in [0, P) little-endian; its argument is left in canonical form. */
  method FeToBytes(f: Fe) returns (s: Bytes32, h: Fe)
    requires Bounded(f, 3)
    ensures LeVal(s) == Val(f) % P
    ensures Reduced(h) && Val(h) == Val(f) % P
  {
    h := Canonicalize(f);
    var low, high := PackLow(h.0, h.1, h.2, h.3, h.4), PackHigh(h.5, h.6, h.7, h.8, h.9);
    LeValHalves(low, high);
    ValSum(h);
    s := low + high;
  }

  /** The parity of the canonical residue, RFC 8032's sign of a coordinate. */
  method FeIsNegative(f: Fe) returns (r: byte, h: Fe)
    requires Bounded(f, 3)
    ensures r == (Val(f) % P) % 2
    ensures Reduced(h) && Val(h) == Val(f) % P
  {
    var s;
    s, h := FeToBytes(f);
    LeValParity(s);
    r := s[0] % 2;
  }

  method FeIsNonZero(f: Fe) returns (r: int32, h: Fe)
    requires Bounded(f, 3)
    ensures r == if Cong(Val(f), 0, P) then 0 else 1
    ensures Reduced(h) && Val(h) == Val(f) % P
  {
    var s;
    s, h := FeToBytes(f);
    var x: byte := 0;
    for i := 0 to |s|
      invariant x == 0 <==> forall j :: 0 <= j < i ==> s[j] == 0
    {
      BitOrByte(x, s[i]);
      x := BitOr(x, s[i]);
    }
    LeValZero(s);
    FoldTestsZero(x);
    r := Fold(x) % 2;
  }

  lemma CanonicalResidue(x: int)
    requires 0 <= x < P
    ensures (x % X255) % P == x
  {
    PValue();
    DivModUnique(x, 0, x, X255);
    DivModUnique(x, 0, x, P);
  }

  /** Decoding 32 bytes and encoding the result reduces the low 255 bits mod P. */
  method Reencode(s: Bytes32) returns (t: Bytes32)
    ensures LeVal(t) == (LeVal(s) % X255) % P
    ensures LeVal(s) < P ==> t == s
  {
    var f := FeFromBytes(s);
    Widen(f, 1, 3);
    var h;
    t, h := FeToBytes(f);
    if LeVal(s) < P {
      CanonicalResidue(LeVal(s));
      LeValInjective(s, t);
    }
  }
}
