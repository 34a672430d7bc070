/** Base58 (base58/base58.go). */
module Base58 {
  import opened MachineInt
  import opened Powers
  import opened Positional

  /** The alphabet: the digits but 0, the capitals but I and O, the small letters but l. */
  function Letter(i: nat): char
    requires i < 58
  {
    if i < 9 then '1' + i as char
    else if i < 17 then 'A' + (i - 9) as char
    else if i < 22 then 'J' + (i - 17) as char
    else if i < 33 then 'P' + (i - 22) as char
    else if i < 44 then 'a' + (i - 33) as char
    else 'm' + (i - 44) as char
  }

  /** The table b58: the place of a character in the alphabet, or 255. */
  function Index(c: char): (i: nat)
    ensures i < 58 || i == 255
  {
    if '1' <= c <= '9' then c as int - '1' as int
    else if 'A' <= c <= 'H' then c as int - 'A' as int + 9
    else if 'J' <= c <= 'N' then c as int - 'J' as int + 17
    else if 'P' <= c <= 'Z' then c as int - 'P' as int + 22
    else if 'a' <= c <= 'k' then c as int - 'a' as int + 33
    else if 'm' <= c <= 'z' then c as int - 'm' as int + 44
    else 255
  }

  /** The alphabet ascends, ... */
  lemma LettersAscend(i: nat, j: nat)
    requires i < j < 58
    ensures Letter(i) < Letter(j)
  {
  }

  /** ... and a character is in it exactly if it is a digit, a capital or a small letter other than 0, I, O and l. */
  lemma InAlphabet(c: char)
    ensures (exists i: nat :: i < 58 && Letter(i) == c)
      <==> ('0' < c <= '9' || 'A' <= c <= 'Z' || 'a' <= c <= 'z') && c != 'I' && c != 'O' && c != 'l'
    ensures Index(c) < 58 <==> exists i: nat :: i < 58 && Letter(i) == c
  {
    if Index(c) < 58 {
      LetterOfIndex(c);
    }
    forall i: nat | i < 58 && Letter(i) == c
      ensures Index(c) == i
    {
      IndexOfLetter(i);
    }
  }

  lemma IndexOfLetter(i: nat)
    requires i < 58
    ensures Index(Letter(i)) == i
  {
  }

  lemma LetterOfIndex(c: char)
    requires Index(c) < 58
    ensures Letter(Index(c)) == c
  {
  }

  function Letters(s: seq<nat>): (t: string)
    requires Below(s, 58)
    ensures |t| == |s| && forall i :: 0 <= i < |s| ==> t[i] == Letter(s[i])
  {
    seq(|s|, i requires 0 <= i < |s| => Letter(s[i]))
  }

  function Indices(t: string): (s: seq<nat>)
    ensures |s| == |t| && forall i :: 0 <= i < |t| ==> s[i] == Index(t[i])
  {
    seq(|t|, i requires 0 <= i < |t| => Index(t[i]))
  }

  function Nats(b: seq<byte>): (s: seq<nat>)
    ensures |s| == |b| && (forall i :: 0 <= i < |b| ==> s[i] == b[i]) && Below(s, 0x100)
  {
    seq(|b|, i requires 0 <= i < |b| => b[i] as nat)
  }

  function Narrow(s: seq<nat>): (b: seq<byte>)
    requires Below(s, 0x100)
    ensures |b| == |s| && forall i :: 0 <= i < |s| ==> b[i] == s[i]
  {
    seq(|s|, i requires 0 <= i < |s| => s[i])
  }

  predicate OverAlphabet(t: string) {
    Below(Indices(t), 58)
  }

  function Encoded(b: seq<byte>): string {
    Letters(Convert(Nats(b), 0x100, 58))
  }

  function Decoded(t: string): seq<byte> {
    if OverAlphabet(t) then Narrow(Convert(Indices(t), 58, 0x100)) else []
  }

  lemma EncodedDigits(b: seq<byte>)
    ensures Indices(Encoded(b)) == Convert(Nats(b), 0x100, 58) && OverAlphabet(Encoded(b))
    ensures Num(Indices(Encoded(b)), 58) == Num(Nats(b), 0x100) && Leading(Indices(Encoded(b))) == Leading(Nats(b))
  {
    var c := Convert(Nats(b), 0x100, 58);
    forall i | 0 <= i < |c|
      ensures Indices(Letters(c))[i] == c[i]
    {
      IndexOfLetter(c[i]);
    }
    assert Indices(Letters(c)) == c;
    ConvertKeeps(Nats(b), 0x100, 58);
  }

  lemma DecodedDigits(t: string)
    requires OverAlphabet(t)
    ensures Nats(Decoded(t)) == Convert(Indices(t), 58, 0x100)
    ensures Num(Nats(Decoded(t)), 0x100) == Num(Indices(t), 58) && Leading(Nats(Decoded(t))) == Leading(Indices(t))
  {
    var c := Convert(Indices(t), 58, 0x100);
    assert Nats(Narrow(c)) == c;
    ConvertKeeps(Indices(t), 58, 0x100);
  }

  /** Decoding undoes encoding, for every byte string. */
  lemma DecodeEncode(b: seq<byte>)
    ensures OverAlphabet(Encoded(b)) && Decoded(Encoded(b)) == b
  {
    EncodedDigits(b);
    ConvertBack(Nats(b), 0x100, 58);
    assert Narrow(Nats(b)) == b;
  }

  /** Encoding undoes decoding, for every string over the alphabet. */
  lemma EncodeDecode(t: string)
    requires OverAlphabet(t)
    ensures Encoded(Decoded(t)) == t
  {
    var c := Convert(Indices(t), 58, 0x100);
    assert Nats(Narrow(c)) == c;
    ConvertBack(Indices(t), 58, 0x100);
    forall i | 0 <= i < |t|
      ensures Letters(Indices(t))[i] == t[i]
    {
      LetterOfIndex(t[i]);
    }
    assert Letters(Indices(t)) == t;
  }

  function Reversed<T>(s: seq<T>): (r: seq<T>)
    ensures |r| == |s| && forall i :: 0 <= i < |s| ==> r[i] == s[|s| - 1 - i]
  {
    seq(|s|, i requires 0 <= i < |s| => s[|s| - 1 - i])
  }

  method Reverse(a: array<char>)
    modifies a
    ensures a[..] == Reversed(old(a[..]))
  {
    var alen := a.Length;
    for i := 0 to alen / 2
      invariant forall k :: 0 <= k < i || alen - i <= k < alen ==> a[k] == old(a[alen - 1 - k])
      invariant forall k :: i <= k < alen - i ==> a[k] == old(a[k])
    {
      a[i], a[alen - 1 - i] := a[alen - 1 - i], a[i];
    }
  }

  lemma ReversedSnoc<T>(s: seq<T>, x: T)
    ensures Reversed(s + [x]) == [x] + Reversed(s)
  {
  }

  /** x's digits, least significant first, as the loop appends them. */
  method LowDigitsFirst(n: nat) returns (answer: string)
    ensures Reversed(answer) == Letters(Digits(n, 58))
  {
    var x := n;
    answer := "";
    while x > 0
      invariant Letters(Digits(x, 58)) + Reversed(answer) == Letters(Digits(n, 58))
    {
      var mod := x % 58;
      LastTaken(x, 58);
      ReversedSnoc(answer, Letter(mod));
      assert Letters(Digits(x, 58)) == Letters(Digits(x / 58, 58)) + [Letter(mod)];
      x := x / 58;
      answer := answer + [Letter(mod)];
    }
  }

  /** The digits and then a 1 for each leading zero byte: the encoding from its end. */
  method EncodeFromEnd(b: seq<byte>) returns (answer: string)
    ensures Reversed(answer) == Encoded(b)
  {
    var s := Nats(b);
    answer := LowDigitsFirst(Num(s, 0x100));
    ghost var digits := answer;
    var i := 0;
    while i < |b| && b[i] == 0
      invariant i <= |b| && forall k :: 0 <= k < i ==> s[k] == 0
      invariant answer == digits + seq(i, k => '1')
    {
      answer := answer + ['1'];
      i := i + 1;
    }
    LeadingUnique(s, i);
    assert Reversed(answer) == seq(i, k => '1') + Reversed(digits);
    assert Letters(Zeros(i)) == seq(i, k => '1');
  }

  /** Every character's place in the alphabet is a digit of the bytes' number in base 58, after one 1 for each leading
      zero byte. */
  method Encode(b: seq<byte>) returns (r: string)
    ensures r == Encoded(b)
    ensures OverAlphabet(r) && Num(Indices(r), 58) == Num(Nats(b), 0x100) && Leading(Indices(r)) == Leading(Nats(b))
  {
    var answer := EncodeFromEnd(b);
    var a := new char[|answer|](k requires 0 <= k < |answer| => answer[k]);
    assert a[..] == answer;
    Reverse(a);
    r := a[..];
    EncodedDigits(b);
  }

  lemma PlaceValue(s: seq<nat>, i: nat, j: int)
    requires i < |s| && j == Pow(58, |s| - (i + 1))
    ensures Num(s[i..], 58) == Num(s[i + 1..], 58) + j * s[i]
    ensures Pow(58, |s| - i) == j * 58
  {
    NumFirst(s[i..], 58);
    assert s[i..][1..] == s[i + 1..];
  }

  /** The value of the string's tail, accumulated with a growing power of 58. */
  method Accumulate(b: string) returns (ok: bool, answer: int)
    ensures ok == OverAlphabet(b)
    ensures ok ==> answer == Num(Indices(b), 58)
  {
    ghost var s := Indices(b);
    answer := 0;
    var j: int := 1;
    var i := |b|;
    while i > 0
      invariant 0 <= i <= |b|
      invariant forall k :: i <= k < |s| ==> s[k] < 58
      invariant answer == Num(s[i..], 58) && j == Pow(58, |b| - i)
    {
      i := i - 1;
      var tmp := Index(b[i]);
      if tmp == 255 {
        assert s[i] == 255;
        return false, 0;
      }
      PlaceValue(s, i, j);
      answer := answer + j * tmp;
      j := j * 58;
    }
    ok := true;
    assert s[0..] == s;
  }

  /** Nothing for a foreign character; else the bytes of the number, after one zero for each leading 1. */
  method Decode(b: string) returns (r: seq<byte>)
    ensures r == Decoded(b)
    ensures !OverAlphabet(b) ==> r == []
    ensures OverAlphabet(b) ==> Num(Nats(r), 0x100) == Num(Indices(b), 58) && Leading(Nats(r)) == Leading(Indices(b))
  {
    var ok, answer := Accumulate(b);
    if !ok {
      return [];
    }
    r := Assembled(b, answer);
    DecodedDigits(b);
  }

  /** One zero for each leading 1, and the bytes of the number. */
  method Assembled(b: string, answer: nat) returns (r: seq<byte>)
    requires OverAlphabet(b) && answer == Num(Indices(b), 58)
    ensures r == Decoded(b)
  {
    var tmpval := Narrow(Digits(answer, 0x100));
    var numZeros := 0;
    while numZeros < |b| && b[numZeros] == '1'
      invariant numZeros <= |b| && forall k :: 0 <= k < numZeros ==> Indices(b)[k] == 0
    {
      numZeros := numZeros + 1;
    }
    assert numZeros < |b| ==> Indices(b)[numZeros] != 0;
    LeadingUnique(Indices(b), numZeros);
    r := seq(numZeros, i => 0) + tmpval;
  }
}
