/** Big-endian positional notation in any base, with leading zeros kept apart. */
module Positional {
  import opened Congruence
  import opened Powers

  /** The number that digits stand for, most significant first. */
  function Num(s: seq<nat>, r: nat): nat {
    if s == [] then 0 else Num(s[..|s| - 1], r) * r + s[|s| - 1]
  }

  lemma TwiceAtMost(q: nat, r: nat)
    requires r >= 2
    ensures 2 * q <= q * r
  {
  }

  lemma LastTaken(n: nat, r: nat)
    requires n > 0 && r > 1
    ensures 0 <= n / r < n && 0 <= n % r < r && n == n / r * r + n % r
  {
    var q := n / r;
    assert n == q * r + n % r;
    TwiceAtMost(q, r);
  }

  /** The digits of n without leading zeros. */
  function Digits(n: nat, r: nat): (s: seq<nat>)
    requires r > 1
    ensures forall i :: 0 <= i < |s| ==> s[i] < r
    ensures s != [] ==> s[0] != 0
    ensures s == [] <==> n == 0
  {
    if n == 0 then [] else
      LastTaken(n, r);
      Digits(n / r, r) + [n % r]
  }

  predicate Below(s: seq<nat>, r: nat) {
    forall i :: 0 <= i < |s| ==> s[i] < r
  }

  lemma {:induction false} NumOfDigits(n: nat, r: nat)
    requires r > 1
    ensures Num(Digits(n, r), r) == n
  {
    if n > 0 {
      LastTaken(n, r);
      NumOfDigits(n / r, r);
      assert Digits(n, r)[..|Digits(n, r)| - 1] == Digits(n / r, r);
    }
  }

  lemma LastDigit(q: nat, d: nat, r: nat)
    requires d < r
    ensures (q * r + d) / r == q && (q * r + d) % r == d
  {
    DivModUnique(q * r + d, q, d, r);
  }

  lemma {:induction false} DigitsOfNum(s: seq<nat>, r: nat)
    requires r > 1 && Below(s, r) && (s != [] ==> s[0] != 0)
    ensures Digits(Num(s, r), r) == s
  {
    if s != [] {
      var t, d := s[..|s| - 1], s[|s| - 1];
      DigitsOfNum(t, r);
      LastDigit(Num(t, r), d, r);
      assert Num(s, r) != 0 by {
        if t != [] {
          assert Num(t, r) != 0;
        }
      }
    }
  }

  function Zeros(k: nat): (s: seq<nat>)
    ensures |s| == k && forall i :: 0 <= i < k ==> s[i] == 0
  {
    seq(k, i => 0)
  }

  lemma {:induction false} NumAfterZeros(k: nat, t: seq<nat>, r: nat)
    ensures Num(Zeros(k) + t, r) == Num(t, r)
    decreases k + |t|
  {
    var s := Zeros(k) + t;
    if t != [] {
      NumAfterZeros(k, t[..|t| - 1], r);
      assert s[..|s| - 1] == Zeros(k) + t[..|t| - 1];
    } else if k > 0 {
      NumAfterZeros(k - 1, [], r);
      assert s[..|s| - 1] == Zeros(k - 1) + [];
    }
  }

  /** The most significant digit apart. */
  lemma {:induction false} NumFirst(s: seq<nat>, r: nat)
    requires s != []
    ensures Num(s, r) == s[0] * Pow(r, |s| - 1) + Num(s[1..], r)
  {
    if |s| > 1 {
      var t, u := s[..|s| - 1], s[1..];
      NumFirst(t, r);
      assert t[1..] == u[..|u| - 1];
      Shift(s[0], Pow(r, |s| - 2), r, Num(t[1..], r));
    }
  }

  lemma Shift(a: int, p: int, r: int, b: int)
    ensures (a * p + b) * r == a * (r * p) + b * r
  {
  }

  function Leading(s: seq<nat>): (k: nat)
    ensures k <= |s| && (forall i :: 0 <= i < k ==> s[i] == 0) && (k < |s| ==> s[k] != 0)
  {
    if s == [] || s[0] != 0 then 0 else 1 + Leading(s[1..])
  }

  lemma {:induction false} LeadingUnique(s: seq<nat>, k: nat)
    requires k <= |s| && (forall i :: 0 <= i < k ==> s[i] == 0) && (k < |s| ==> s[k] != 0)
    ensures Leading(s) == k
  {
    if k > 0 {
      LeadingUnique(s[1..], k - 1);
    }
  }

  /** Leading zeros are kept one for one; the rest changes base as a number. */
  function Convert(s: seq<nat>, a: nat, b: nat): (t: seq<nat>)
    requires b > 1
    ensures Below(t, b)
  {
    Zeros(Leading(s)) + Digits(Num(s, a), b)
  }

  /** Changing base keeps the number and the leading zeros, and with them both it is determined. */
  lemma ConvertKeeps(s: seq<nat>, a: nat, b: nat)
    requires b > 1
    ensures Num(Convert(s, a, b), b) == Num(s, a) && Leading(Convert(s, a, b)) == Leading(s)
  {
    var k, d := Leading(s), Digits(Num(s, a), b);
    LeadingUnique(Zeros(k) + d, k);
    NumAfterZeros(k, d, b);
    NumOfDigits(Num(s, a), b);
  }

  /** Changing base and back gives the digits back, leading zeros included. */
  lemma ConvertBack(s: seq<nat>, a: nat, b: nat)
    requires a > 1 && b > 1 && Below(s, a)
    ensures Convert(Convert(s, a, b), b, a) == s
  {
    var k := Leading(s);
    var rest := s[k..];
    assert s == Zeros(k) + rest;
    NumAfterZeros(k, rest, a);
    var n := Num(s, a);
    var d := Digits(n, b);
    LeadingUnique(Zeros(k) + d, k);
    NumAfterZeros(k, d, b);
    NumOfDigits(n, b);
    DigitsOfNum(rest, a);
  }
}
