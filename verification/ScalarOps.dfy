/** ScReduce and ScMulAdd (edwards25519.go:1036-1793). */
module ScalarOps {
  import opened MachineInt
  import opened Bytes
  import opened FieldElement
  import opened Scalar
  import opened ScalarCodec

  /** Twelve limbs, indexed only by constants in the source. */
  datatype Limbs12 = Limbs12(0: int, 1: int, 2: int, 3: int, 4: int, 5: int, 6: int, 7: int, 8: int, 9: int, 10: int,
      11: int)

  function Value12(a: Limbs12): int {
    a.0 + X21 * a.1 + X42 * a.2 + X63 * a.3 + X84 * a.4 + X105 * a.5
    + X126 * (a.6 + X21 * a.7 + X42 * a.8 + X63 * a.9 + X84 * a.10 + X105 * a.11)
  }

  predicate Small(a: Limbs12) {
    && 0 <= a.0 < X21 && 0 <= a.1 < X21 && 0 <= a.2 < X21 && 0 <= a.3 < X21 && 0 <= a.4 < X21 && 0 <= a.5 < X21
    && 0 <= a.6 < X21 && 0 <= a.7 < X21 && 0 <= a.8 < X21 && 0 <= a.9 < X21 && 0 <= a.10 < X21
    && 0 <= a.11 < 0x200_0000
  }

  lemma LoadedValue(b: Bytes32)
    ensures LeVal(b) == Limb3(b, 0, 1) + X21 * Limb4(b, 2, 0x20) + X42 * Limb3(b, 5, 4) + X63 * Limb4(b, 7, 0x80)
              + X84 * Limb4(b, 10, 0x10) + X105 * Limb3(b, 13, 2)
              + X126 * (Limb4(b, 15, 0x40) + X21 * Limb3(b, 18, 8) + X42 * Limb3(b, 21, 1) + X63 * Limb4(b, 23, 0x20)
                        + X84 * Limb3(b, 26, 4) + X105 * (Load4(b, 28) / 0x80))
  {
    FourLimbs(b, 0);
    LaterLimbs(b, 0);
    FourLimbs(b, 21);
    LastWord(b, 28, 0x80);
    assert b[0..] == b;
  }

  /** The twelve limbs of a 32-byte string; the top one keeps all its bits. */
  function Load12(b: Bytes32): (a: Limbs12)
    ensures Small(a) && Value12(a) == LeVal(b)
  {
    LoadedValue(b);
    Limbs12(Limb3(b, 0, 1), Limb4(b, 2, 0x20), Limb3(b, 5, 4), Limb4(b, 7, 0x80),
            Limb4(b, 10, 0x10), Limb3(b, 13, 2), Limb4(b, 15, 0x40), Limb3(b, 18, 8),
            Limb3(b, 21, 1), Limb4(b, 23, 0x20), Limb3(b, 26, 4), Load4(b, 28) / 0x80)
  }

  /** Columns s0 to s11 of a * b + c. */
  function LowColumns(a: Limbs12, b: Limbs12, c: Limbs12): Limbs12 {
    Limbs12(
      c.0 + a.0*b.0,
      c.1 + a.0*b.1 + a.1*b.0,
      c.2 + a.0*b.2 + a.1*b.1 + a.2*b.0,
      c.3 + a.0*b.3 + a.1*b.2 + a.2*b.1 + a.3*b.0,
      c.4 + a.0*b.4 + a.1*b.3 + a.2*b.2 + a.3*b.1 + a.4*b.0,
      c.5 + a.0*b.5 + a.1*b.4 + a.2*b.3 + a.3*b.2 + a.4*b.1 + a.5*b.0,
      c.6 + a.0*b.6 + a.1*b.5 + a.2*b.4 + a.3*b.3 + a.4*b.2 + a.5*b.1 + a.6*b.0,
      c.7 + a.0*b.7 + a.1*b.6 + a.2*b.5 + a.3*b.4 + a.4*b.3 + a.5*b.2 + a.6*b.1 + a.7*b.0,
      c.8 + a.0*b.8 + a.1*b.7 + a.2*b.6 + a.3*b.5 + a.4*b.4 + a.5*b.3 + a.6*b.2 + a.7*b.1 + a.8*b.0,
      c.9 + a.0*b.9 + a.1*b.8 + a.2*b.7 + a.3*b.6 + a.4*b.5 + a.5*b.4 + a.6*b.3 + a.7*b.2 + a.8*b.1 + a.9*b.0,
      c.10 + a.0*b.10 + a.1*b.9 + a.2*b.8 + a.3*b.7 + a.4*b.6 + a.5*b.5 + a.6*b.4 + a.7*b.3 + a.8*b.2 + a.9*b.1
          + a.10*b.0,
      c.11 + a.0*b.11 + a.1*b.10 + a.2*b.9 + a.3*b.8 + a.4*b.7 + a.5*b.6 + a.6*b.5 + a.7*b.4 + a.8*b.3 + a.9*b.2
          + a.10*b.1 + a.11*b.0)
  }

  /** Columns s12 to s22, and an empty s23. */
  function HighColumns(a: Limbs12, b: Limbs12): Limbs12 {
    Limbs12(
      a.1*b.11 + a.2*b.10 + a.3*b.9 + a.4*b.8 + a.5*b.7 + a.6*b.6 + a.7*b.5 + a.8*b.4 + a.9*b.3 + a.10*b.2 + a.11*b.1,
      a.2*b.11 + a.3*b.10 + a.4*b.9 + a.5*b.8 + a.6*b.7 + a.7*b.6 + a.8*b.5 + a.9*b.4 + a.10*b.3 + a.11*b.2,
      a.3*b.11 + a.4*b.10 + a.5*b.9 + a.6*b.8 + a.7*b.7 + a.8*b.6 + a.9*b.5 + a.10*b.4 + a.11*b.3,
      a.4*b.11 + a.5*b.10 + a.6*b.9 + a.7*b.8 + a.8*b.7 + a.9*b.6 + a.10*b.5 + a.11*b.4,
      a.5*b.11 + a.6*b.10 + a.7*b.9 + a.8*b.8 + a.9*b.7 + a.10*b.6 + a.11*b.5,
      a.6*b.11 + a.7*b.10 + a.8*b.9 + a.9*b.8 + a.10*b.7 + a.11*b.6,
      a.7*b.11 + a.8*b.10 + a.9*b.9 + a.10*b.8 + a.11*b.7,
      a.8*b.11 + a.9*b.10 + a.10*b.9 + a.11*b.8,
      a.9*b.11 + a.10*b.10 + a.11*b.9,
      a.10*b.11 + a.11*b.10,
      a.11*b.11,
      0)
  }

  // The columns are assembled from four products of six limbs each.

  datatype Limbs6 = Limbs6(0: int, 1: int, 2: int, 3: int, 4: int, 5: int)

  datatype Cols11 = Cols11(0: int, 1: int, 2: int, 3: int, 4: int, 5: int, 6: int, 7: int, 8: int, 9: int, 10: int)

  function Value6(x: Limbs6): int {
    x.0 + X21 * x.1 + X42 * x.2 + X63 * x.3 + X84 * x.4 + X105 * x.5
  }

  function Value11(x: Cols11): int {
    x.0 + X21 * x.1 + X42 * x.2 + X63 * x.3 + X84 * x.4 + X105 * x.5
    + X126 * (x.6 + X21 * x.7 + X42 * x.8 + X63 * x.9 + X84 * x.10)
  }

  function LowHalf(a: Limbs12): Limbs6 {
    Limbs6(a.0, a.1, a.2, a.3, a.4, a.5)
  }

  function HighHalf(a: Limbs12): Limbs6 {
    Limbs6(a.6, a.7, a.8, a.9, a.10, a.11)
  }

  function Block(x: Limbs6, y: Limbs6): Cols11 {
    Cols11(
      x.0*y.0,
      x.0*y.1 + x.1*y.0,
      x.0*y.2 + x.1*y.1 + x.2*y.0,
      x.0*y.3 + x.1*y.2 + x.2*y.1 + x.3*y.0,
      x.0*y.4 + x.1*y.3 + x.2*y.2 + x.3*y.1 + x.4*y.0,
      x.0*y.5 + x.1*y.4 + x.2*y.3 + x.3*y.2 + x.4*y.1 + x.5*y.0,
      x.1*y.5 + x.2*y.4 + x.3*y.3 + x.4*y.2 + x.5*y.1,
      x.2*y.5 + x.3*y.4 + x.4*y.3 + x.5*y.2,
      x.3*y.5 + x.4*y.4 + x.5*y.3,
      x.4*y.5 + x.5*y.4,
      x.5*y.5)
  }

  lemma Row(x: int, y: Limbs6)
    ensures x * Value6(y) == x*y.0 + X21 * (x*y.1) + X42 * (x*y.2) + X63 * (x*y.3) + X84 * (x*y.4) + X105 * (x*y.5)
  {
  }

  lemma BlockValue(x: Limbs6, y: Limbs6)
    ensures Value11(Block(x, y)) == Value6(x) * Value6(y)
  {
    Row(Value6(y), x);
    Row(x.0, y);
    Row(x.1, y);
    Row(x.2, y);
    Row(x.3, y);
    Row(x.4, y);
    Row(x.5, y);
  }

  function LowAssembled(ll: Cols11, lh: Cols11, hl: Cols11, c: Limbs12): Limbs12 {
    Limbs12(c.0 + ll.0, c.1 + ll.1, c.2 + ll.2, c.3 + ll.3, c.4 + ll.4, c.5 + ll.5, c.6 + ll.6 + lh.0 + hl.0,
        c.7 + ll.7 + lh.1 + hl.1, c.8 + ll.8 + lh.2 + hl.2, c.9 + ll.9 + lh.3 + hl.3, c.10 + ll.10 + lh.4 + hl.4,
        c.11 + lh.5 + hl.5)
  }

  function HighAssembled(lh: Cols11, hl: Cols11, hh: Cols11): Limbs12 {
    Limbs12(lh.6 + hl.6 + hh.0, lh.7 + hl.7 + hh.1, lh.8 + hl.8 + hh.2, lh.9 + hl.9 + hh.3, lh.10 + hl.10 + hh.4,
        hh.5, hh.6, hh.7, hh.8, hh.9, hh.10, 0)
  }

  lemma LowBlocks(a: Limbs12, b: Limbs12, c: Limbs12)
    ensures LowColumns(a, b, c) == LowAssembled(Block(LowHalf(a), LowHalf(b)), Block(LowHalf(a), HighHalf(b)),
                                                Block(HighHalf(a), LowHalf(b)), c)
  {
  }

  lemma HighBlocks(a: Limbs12, b: Limbs12)
    ensures HighColumns(a, b) == HighAssembled(Block(LowHalf(a), HighHalf(b)), Block(HighHalf(a), LowHalf(b)),
                                               Block(HighHalf(a), HighHalf(b)))
  {
  }

  lemma AssembledValue(ll: Cols11, lh: Cols11, hl: Cols11, hh: Cols11, c: Limbs12)
    ensures Value12(LowAssembled(ll, lh, hl, c)) + X252 * Value12(HighAssembled(lh, hl, hh))
         == Value11(ll) + X126 * (Value11(lh) + Value11(hl)) + X252 * Value11(hh) + Value12(c)
  {
  }

  lemma SplitProduct(a0: int, a1: int, b0: int, b1: int)
    ensures (a0 + X126 * a1) * (b0 + X126 * b1) == a0 * b0 + X126 * (a0 * b1 + a1 * b0) + X252 * (a1 * b1)
  {
  }

  lemma ProductAssembled(a: Limbs12, b: Limbs12, c: Limbs12, ll: Cols11, lh: Cols11, hl: Cols11, hh: Cols11)
    requires Value11(ll) == Value6(LowHalf(a)) * Value6(LowHalf(b))
    requires Value11(lh) == Value6(LowHalf(a)) * Value6(HighHalf(b))
    requires Value11(hl) == Value6(HighHalf(a)) * Value6(LowHalf(b))
    requires Value11(hh) == Value6(HighHalf(a)) * Value6(HighHalf(b))
    ensures Value12(LowAssembled(ll, lh, hl, c)) + X252 * Value12(HighAssembled(lh, hl, hh))
         == Value12(a) * Value12(b) + Value12(c)
  {
    AssembledValue(ll, lh, hl, hh, c);
    SplitProduct(Value6(LowHalf(a)), Value6(HighHalf(a)), Value6(LowHalf(b)), Value6(HighHalf(b)));
    assert Value12(a) == Value6(LowHalf(a)) + X126 * Value6(HighHalf(a));
    assert Value12(b) == Value6(LowHalf(b)) + X126 * Value6(HighHalf(b));
  }

  lemma ColumnsValue(a: Limbs12, b: Limbs12, c: Limbs12)
    ensures Value12(LowColumns(a, b, c)) + X252 * Value12(HighColumns(a, b)) == Value12(a) * Value12(b) + Value12(c)
  {
    LowBlocks(a, b, c);
    HighBlocks(a, b);
    var a0, a1, b0, b1 := LowHalf(a), HighHalf(a), LowHalf(b), HighHalf(b);
    BlockValue(a0, b0);
    BlockValue(a0, b1);
    BlockValue(a1, b0);
    BlockValue(a1, b1);
    ProductAssembled(a, b, c, Block(a0, b0), Block(a0, b1), Block(a1, b0), Block(a1, b1));
  }

  const X252 := 0x1000_0000_0000_0000_0000_0000_0000_0000_0000_0000_0000_0000_0000_0000_0000_0000

  // the magnitude of a column: twelve products below 2^46, or the single product of the two top limbs
  const COLUMN_MAX := 0x4_0000_0000_0000

  predicate Columns(s: Limbs12) {
    && Within(s.0, COLUMN_MAX) && Within(s.1, COLUMN_MAX) && Within(s.2, COLUMN_MAX) && Within(s.3, COLUMN_MAX)
    && Within(s.4, COLUMN_MAX) && Within(s.5, COLUMN_MAX) && Within(s.6, COLUMN_MAX) && Within(s.7, COLUMN_MAX)
    && Within(s.8, COLUMN_MAX) && Within(s.9, COLUMN_MAX) && Within(s.10, COLUMN_MAX) && Within(s.11, COLUMN_MAX)
  }

  lemma RowBound(x: int, b: Limbs12, m: int)
    requires 0 <= x <= m && Small(b)
    ensures Within(x*b.0, m * X21) && Within(x*b.1, m * X21) && Within(x*b.2, m * X21) && Within(x*b.3, m * X21)
    ensures Within(x*b.4, m * X21) && Within(x*b.5, m * X21) && Within(x*b.6, m * X21) && Within(x*b.7, m * X21)
    ensures Within(x*b.8, m * X21) && Within(x*b.9, m * X21) && Within(x*b.10, m * X21)
    ensures Within(x*b.11, m * 0x200_0000)
  {
    ProductWithin(x, b.0, m, X21);
    ProductWithin(x, b.1, m, X21);
    ProductWithin(x, b.2, m, X21);
    ProductWithin(x, b.3, m, X21);
    ProductWithin(x, b.4, m, X21);
    ProductWithin(x, b.5, m, X21);
    ProductWithin(x, b.6, m, X21);
    ProductWithin(x, b.7, m, X21);
    ProductWithin(x, b.8, m, X21);
    ProductWithin(x, b.9, m, X21);
    ProductWithin(x, b.10, m, X21);
    ProductWithin(x, b.11, m, 0x200_0000);
  }

  lemma ColumnBounds(a: Limbs12, b: Limbs12, c: Limbs12)
    requires Small(a) && Small(b) && Small(c)
    ensures Columns(LowColumns(a, b, c)) && Columns(HighColumns(a, b))
  {
    RowBound(a.0, b, X21);
    RowBound(a.1, b, X21);
    RowBound(a.2, b, X21);
    RowBound(a.3, b, X21);
    RowBound(a.4, b, X21);
    RowBound(a.5, b, X21);
    RowBound(a.6, b, X21);
    RowBound(a.7, b, X21);
    RowBound(a.8, b, X21);
    RowBound(a.9, b, X21);
    RowBound(a.10, b, X21);
    RowBound(a.11, b, 0x200_0000);
  }

  /** Limbs i to i + 11 are those of `h`. */
  predicate Holds(s: seq<int>, i: nat, h: Limbs12)
    requires i + 12 <= |s|
  {
    && s[i] == h.0 && s[i + 1] == h.1 && s[i + 2] == h.2 && s[i + 3] == h.3 && s[i + 4] == h.4 && s[i + 5] == h.5
    && s[i + 6] == h.6 && s[i + 7] == h.7 && s[i + 8] == h.8 && s[i + 9] == h.9 && s[i + 10] == h.10
    && s[i + 11] == h.11
  }

  lemma HeldValue(s: seq<int>, i: nat, h: Limbs12)
    requires i + 12 <= |s| && Holds(s, i, h)
    ensures Radix21(s[i..]) == Value12(h) + X252 * Radix21(s[i + 12..])
  {
    Radix21Four(s[i..]);
    Radix21Four(s[i + 4..]);
    Radix21Four(s[i + 8..]);
    assert s[i..][4..] == s[i + 4..] && s[i + 4..][4..] == s[i + 8..] && s[i + 8..][4..] == s[i + 12..];
  }

  method PutTwelve(s: array<int64>, i: nat, h: Limbs12)
    requires i + 12 <= s.Length && Columns(h)
    modifies s
    ensures Holds(s[..], i, h) && AllWithin(s[..], i, i + 12, COLUMN_MAX)
    ensures forall k :: 0 <= k < s.Length && !(i <= k < i + 12) ==> s[k] == old(s[k])
  {
    s[i], s[i + 1], s[i + 2], s[i + 3] := h.0, h.1, h.2, h.3;
    s[i + 4], s[i + 5], s[i + 6], s[i + 7] := h.4, h.5, h.6, h.7;
    s[i + 8], s[i + 9], s[i + 10], s[i + 11] := h.8, h.9, h.10, h.11;
  }

  method PutColumns(low: Limbs12, high: Limbs12) returns (s: array<int64>)
    requires Columns(low) && Columns(high)
    ensures fresh(s) && s.Length == 24 && AllWithin(s[..], 0, 24, COLUMN_MAX) && s[23] == high.11
    ensures Radix21(s[..]) == Value12(low) + X252 * Value12(high)
  {
    s := new int64[24];
    PutTwelve(s, 0, low);
    PutTwelve(s, 12, high);
    HeldValue(s[..], 0, low);
    HeldValue(s[..], 12, high);
    assert s[..][0..] == s[..] && s[..][24..] == [];
  }

  /** The columns of x * y + z, and an empty limb 23. */
  method Columnate(x: Bytes32, y: Bytes32, z: Bytes32) returns (s: array<int64>)
    ensures fresh(s) && s.Length == 24 && AllWithin(s[..], 0, 23, COLUMN_MAX) && s[23] == 0
    ensures Radix21(s[..]) == LeVal(x) * LeVal(y) + LeVal(z)
  {
    var a, b, c := Load12(x), Load12(y), Load12(z);
    ColumnBounds(a, b, c);
    ColumnsValue(a, b, c);
    s := PutColumns(LowColumns(a, b, c), HighColumns(a, b));
  }

  method CarryEvenColumns(s: array<int64>)
    requires s.Length == 24 && AllWithin(s[..], 0, 23, COLUMN_MAX) && s[23] == 0
    modifies s
    ensures forall k :: 0 <= k < 23 ==> Within(s[k], if k % 2 == 0 then 0x10_0000 else COLUMN_MAX + 0x2000_0001)
    ensures Within(s[23], 0x2000_0001)
    ensures Radix21(s[..]) == old(Radix21(s[..]))
  {
    CarrySix(s, 0, COLUMN_MAX, 0x2000_0001);
    CarrySix(s, 12, COLUMN_MAX, 0x2000_0001);
  }

  method CarryOddColumns(s: array<int64>)
    requires s.Length == 24
    requires forall k :: 0 <= k < 23 ==> Within(s[k], if k % 2 == 0 then 0x10_0000 else COLUMN_MAX + 0x2000_0001)
    requires Within(s[23], 0x2000_0001)
    modifies s
    ensures AllWithin(s[..], 0, 24, B30)
    ensures Radix21(s[..]) == old(Radix21(s[..]))
  {
    CarrySix(s, 1, COLUMN_MAX + 0x2000_0001, 0x2000_0200);
    CarryFive(s, 13, COLUMN_MAX + 0x2000_0001, 0x2000_0200);
  }

  /** out = s mod L, in [0, L), for every 64-byte s. */
  method ScReduce(s: seq<byte>) returns (out: Bytes32)
    requires |s| == 64
    ensures LeVal(out) == LeVal(s) % L
  {
    var limbs := LoadWide(s);
    Reduce(limbs);
    out := Store(limbs);
  }

  /** s = a * b + c mod L, in [0, L), for all 32-byte a, b and c. */
  method ScMulAdd(a: Bytes32, b: Bytes32, c: Bytes32) returns (s: Bytes32)
    ensures LeVal(s) == (LeVal(a) * LeVal(b) + LeVal(c)) % L
  {
    var limbs := Columnate(a, b, c);
    CarryEvenColumns(limbs);
    CarryOddColumns(limbs);
    Reduce(limbs);
    s := Store(limbs);
  }
}
