/** The bit masks of the signature code: `s &= 224`, and `&= 248`, `&= 63` and `|= 64` for secret scalars. */
module Clamping {
  import opened MachineInt
  import opened Bytes
  import opened TwosComplement

  lemma ThreeHalvings(x: nat)
    ensures x / 2 / 2 / 2 == x / 8
  {
  }

  lemma AndEighth(x: nat, m: nat)
    ensures And(x, 2 * (2 * (2 * m))) == 8 * And(x / 8, m)
  {
    var a, b, c: nat := x / 2, x / 2 / 2, x / 2 / 2 / 2;
    ThreeHalvings(x);
    AndEven(x, 2 * (2 * m));
    AndEven(a, 2 * m);
    AndEven(b, m);
    assert And(x, 2 * (2 * (2 * m))) == 2 * (2 * (2 * And(c, m)));
  }

  /** s & 224 == 0 tests the top three bits. */
  lemma HighBits(x: byte)
    ensures And(x, 0xe0) == 0 <==> x < 0x20
  {
    AndEighth(x, 0x1c);
    AndEven(x / 8, 0x0e);
    AndEven(x / 8 / 2, 7);
    Pow2Values();
    AndLow(x / 8 / 2 / 2, 3);
  }

  lemma EightTimes(x: byte)
    ensures 8 * ((x / 8) % 0x20) == x - x % 8
  {
  }

  lemma HighFive(x: byte)
    ensures And(x, 0xf8) == x - x % 8 && 0 <= x - x % 8 < 0x100
  {
    AndEighth(x, 0x1f);
    Pow2Values();
    AndLow(x / 8, 5);
    EightTimes(x);
  }

  /** x &= 248 */
  function ClampLow(x: byte): (r: byte)
    ensures r == x - x % 8
  {
    HighFive(x);
    And(x, 0xf8)
  }

  /** y &= 63 or 127, then y |= 64: signing and key generation differ in the mask but not in the result. */
  function ClampHigh(y: byte, mask: int): (r: byte)
    requires mask == 0x3f || mask == 0x7f
    ensures r == y % 0x40 + 0x40
  {
    Pow2Values();
    AndLow(y, 6);
    AndLow(y, 7);
    BitOrTop(y);
    BitOr(And(y, mask), 0x40)
  }

  lemma ModTwice(y: byte)
    ensures y % 0x80 == y % 0x40 || y % 0x80 == y % 0x40 + 0x40
  {
  }

  lemma BitOrTop(y: byte)
    ensures BitOr(y % 0x40, 0x40) == BitOr(y % 0x80, 0x40) == y % 0x40 + 0x40
  {
    Pow2Values();
    var z: nat := y % 0x40;
    ModTwice(y);
    BitOrDisjoint(z, 1, 6);
    BitOrAgain(z, 6);
  }

  lemma {:induction false} BitOrAgain(z: nat, k: nat)
    requires z < Pow2(k)
    ensures BitOr(z + Pow2(k), Pow2(k)) == z + Pow2(k)
  {
    if k > 0 {
      BitOrAgain(z / 2, k - 1);
    }
  }
}
