/** The reputation order and the in-place quicksort (shard/shard_func.go:30-71). */
module Sorting {
  import opened MachineInt

  datatype SortType = SortType(id: nat, rep: int64, address: string)

  /** strings.Compare */
  function CompareStrings(a: string, b: string): int {
    if a == [] || b == [] then (if a == b then 0 else if a == [] then -1 else 1)
    else if a[0] != b[0] then (if a[0] < b[0] then -1 else 1)
    else CompareStrings(a[1..], b[1..])
  }

  lemma {:induction false} StringsAntisymmetric(a: string, b: string)
    ensures CompareStrings(a, b) == -CompareStrings(b, a)
  {
    if a != [] && b != [] && a[0] == b[0] {
      StringsAntisymmetric(a[1..], b[1..]);
    }
  }

  function CompareRep(a: SortType, b: SortType): int {
    if a.rep > b.rep then 1 else if b.rep > a.rep then -1 else CompareStrings(a.address, b.address)
  }

  lemma RepAntisymmetric(a: SortType, b: SortType)
    ensures CompareRep(a, b) == -CompareRep(b, a)
  {
    StringsAntisymmetric(a.address, b.address);
  }

  /** a may stand before b in the descending order. */
  predicate Before(a: SortType, b: SortType) {
    CompareRep(b, a) <= 0
  }

  lemma {:induction false} StringsTransitive(a: string, b: string, c: string)
    requires CompareStrings(a, b) <= 0 && CompareStrings(b, c) <= 0
    ensures CompareStrings(a, c) <= 0
  {
    if a != [] && b != [] && c != [] && a[0] == b[0] == c[0] {
      StringsTransitive(a[1..], b[1..], c[1..]);
    }
  }

  lemma BeforeTransitive(a: SortType, b: SortType, c: SortType)
    requires Before(a, b) && Before(b, c)
    ensures Before(a, c)
  {
    if a.rep == b.rep == c.rep {
      StringsTransitive(c.address, b.address, a.address);
    }
  }

  lemma {:induction false} StringsDiffer(a: string, b: string)
    ensures CompareStrings(a, b) == 0 <==> a == b
  {
    if a != [] && b != [] && a[0] == b[0] {
      StringsDiffer(a[1..], b[1..]);
      assert a == [a[0]] + a[1..] && b == [b[0]] + b[1..];
    }
  }

  /** a and b agree below k, where b goes on and a ends or is smaller. */
  ghost predicate LowerAt(a: string, b: string, k: nat) {
    k <= |a| && k < |b| && (forall i :: 0 <= i < k ==> a[i] == b[i]) && (k < |a| ==> a[k] < b[k])
  }

  /** The bytewise order. */
  ghost predicate Lower(a: string, b: string) {
    exists k: nat :: LowerAt(a, b, k)
  }

  lemma {:induction false} CompareIsLower(a: string, b: string)
    ensures CompareStrings(a, b) == -1 <==> Lower(a, b)
  {
    if a != [] && b != [] && a[0] == b[0] {
      CompareIsLower(a[1..], b[1..]);
      if Lower(a, b) {
        var k: nat :| LowerAt(a, b, k);
        LowerBehind(a, b, k - 1);
      }
      if Lower(a[1..], b[1..]) {
        var k: nat :| LowerAt(a[1..], b[1..], k);
        LowerBehind(a, b, k);
      }
    } else if b != [] && (a == [] || a[0] < b[0]) {
      assert LowerAt(a, b, 0);
    }
  }

  lemma LowerBehind(a: string, b: string, k: nat)
    requires a != [] && b != [] && a[0] == b[0]
    ensures LowerAt(a, b, k + 1) <==> LowerAt(a[1..], b[1..], k)
  {
    var c, d := a[1..], b[1..];
    if LowerAt(c, d, k) {
      forall i | 0 <= i < k + 1
        ensures a[i] == b[i]
      {
        assert i > 0 ==> c[i - 1] == d[i - 1];
      }
    }
  }

  /** The order descends: by reputation, and by address among equal reputations. */
  lemma BeforeMeans(a: SortType, b: SortType)
    ensures Before(a, b)
       <==> a.rep > b.rep || (a.rep == b.rep && (a.address == b.address || Lower(b.address, a.address)))
  {
    StringsDiffer(b.address, a.address);
    CompareIsLower(b.address, a.address);
    CompareRange(b.address, a.address);
  }

  lemma {:induction false} CompareRange(a: string, b: string)
    ensures -1 <= CompareStrings(a, b) <= 1
  {
    if a != [] && b != [] && a[0] == b[0] {
      CompareRange(a[1..], b[1..]);
    }
  }

  /** A total order on reputation, then address. */
  lemma BeforeIsOrder(a: SortType, b: SortType, c: SortType)
    ensures Before(a, b) || Before(b, a)
    ensures Before(a, b) && Before(b, a) <==> a.rep == b.rep && a.address == b.address
    ensures Before(a, b) && Before(b, c) ==> Before(a, c)
  {
    RepAntisymmetric(a, b);
    StringsDiffer(a.address, b.address);
    StringsDiffer(b.address, a.address);
    if Before(a, b) && Before(b, c) {
      BeforeTransitive(a, b, c);
    }
  }

  /** Descending between l and r, both included. */
  predicate Descending(s: seq<SortType>, l: int, r: int)
    requires 0 <= l && r < |s|
  {
    forall i, j :: l <= i <= j <= r ==> Before(s[i], s[j])
  }

  /** t rearranges s between l and r only. */
  ghost predicate Rearranged<T>(s: seq<T>, t: seq<T>, l: int, r: int)
    requires 0 <= l && l <= r + 1 <= |s|
  {
    && |s| == |t| && s[..l] == t[..l] && s[r + 1..] == t[r + 1..]
    && multiset(s[l..r + 1]) == multiset(t[l..r + 1])
  }

  lemma RearrangedAll<T(!new)>(s: seq<T>, t: seq<T>, l: int, r: int, p: T -> bool)
    requires 0 <= l && l <= r + 1 <= |s| && Rearranged(s, t, l, r)
    requires forall k :: l <= k <= r ==> p(s[k])
    ensures forall k :: l <= k <= r ==> p(t[k])
  {
    forall k | l <= k <= r
      ensures p(t[k])
    {
      assert t[k] == t[l..r + 1][k - l];
      assert t[k] in multiset(t[l..r + 1]);
      assert t[k] in s[l..r + 1];
    }
  }

  /** A part of a sequence and the parts around it. */
  lemma Pieces<T>(s: seq<T>, l: int, r: int, l': int, r': int)
    requires 0 <= l' <= l <= r + 1 <= r' + 1 <= |s|
    ensures s[..l'] == s[..l][..l'] && s[r' + 1..] == s[r + 1..][r' - r..]
    ensures s[l'..r' + 1] == s[..l][l'..] + s[l..r + 1] + s[r + 1..][..r' - r]
  {
  }

  /** A rearrangement of a part is one of the whole. */
  lemma RearrangedMore<T>(s: seq<T>, t: seq<T>, l: int, r: int, l': int, r': int)
    requires 0 <= l' <= l <= r + 1 <= r' + 1 <= |s| && Rearranged(s, t, l, r)
    ensures Rearranged(s, t, l', r')
  {
    Pieces(s, l, r, l', r');
    Pieces(t, l, r, l', r');
  }

  lemma RearrangedTwice<T>(s: seq<T>, t: seq<T>, u: seq<T>, l: int, r: int)
    requires 0 <= l && l <= r + 1 <= |s| && Rearranged(s, t, l, r) && Rearranged(t, u, l, r)
    ensures Rearranged(s, u, l, r)
  {
  }

  lemma SwappedIsRearranged<T>(s: seq<T>, l: int, r: int, i: int, j: int)
    requires 0 <= l <= i <= j <= r < |s|
    ensures Rearranged(s, s[i := s[j]][j := s[i]], l, r)
  {
    var t := s[i := s[j]][j := s[i]];
    var u, v := s[l..r + 1], t[l..r + 1];
    assert v == u[i - l := u[j - l]][j - l := u[i - l]];
    assert multiset(v) == multiset(u);
  }

  method Swap(a: array<SortType>, l: int, r: int, i: int, j: int)
    requires 0 <= l <= i <= j <= r < a.Length
    modifies a
    ensures a[..] == old(a[..])[i := old(a[j])][j := old(a[i])]
    ensures Rearranged(old(a[..]), a[..], l, r)
  {
    ghost var s := a[..];
    a[i], a[j] := a[j], a[i];
    assert a[..] == s[i := s[j]][j := s[i]];
    SwappedIsRearranged(s, l, r, i, j);
  }

  /** Partition state: what lies left of i is no worse than x, what lies right of j no better,
      and while the two have not met there are elements that stop either scan. */
  ghost predicate Parted(s: seq<SortType>, l: int, r: int, i: int, j: int, x: SortType)
    requires 0 <= l <= r < |s|
  {
    && l <= i <= r + 1 && l - 1 <= j <= r
    && (forall k :: l <= k < i ==> Before(s[k], x))
    && (forall k :: j < k <= r ==> Before(x, s[k]))
    && (i <= j ==> exists p :: i <= p <= r && Before(x, s[p]))
    && (i <= j ==> exists q :: l <= q <= j && Before(s[q], x))
  }

  /** The scan from the left, which an element at p stops. */
  method ScanUp(a: array<SortType>, i0: int, r: int, x: SortType, ghost p: int) returns (i: int)
    requires 0 <= i0 <= p <= r < a.Length && Before(x, a[p])
    ensures i0 <= i <= p && Before(x, a[i])
    ensures forall k :: i0 <= k < i ==> Before(a[k], x)
  {
    i := i0;
    while i < r && CompareRep(a[i], x) > 0
      invariant i0 <= i <= p
      invariant forall k :: i0 <= k < i ==> Before(a[k], x)
    {
      RepAntisymmetric(a[i], x);
      i := i + 1;
    }
  }

  /** The scan from the right is guarded by 0, not by l, yet an element at q stops it. */
  method ScanDown(a: array<SortType>, j0: int, x: SortType, ghost q: int) returns (j: int)
    requires 0 <= q <= j0 < a.Length && Before(a[q], x)
    ensures q <= j <= j0 && Before(a[j], x)
    ensures forall k :: j < k <= j0 ==> Before(x, a[k])
  {
    j := j0;
    while j > 0 && CompareRep(x, a[j]) > 0
      invariant q <= j <= j0
      invariant forall k :: j < k <= j0 ==> Before(x, a[k])
    {
      RepAntisymmetric(x, a[j]);
      j := j - 1;
    }
  }

  method Scan(a: array<SortType>, l: int, r: int, i0: int, j0: int, x: SortType) returns (i: int, j: int)
    requires 0 <= l <= r < a.Length && i0 <= j0 && Parted(a[..], l, r, i0, j0, x)
    ensures i0 <= i && j <= j0 && Parted(a[..], l, r, i, j, x)
    ensures i <= r && Before(x, a[i]) && l <= j && Before(a[j], x)
  {
    ghost var p :| i0 <= p <= r && Before(x, a[..][p]);
    ghost var q :| l <= q <= j0 && Before(a[..][q], x);
    i := ScanUp(a, i0, r, x, p);
    j := ScanDown(a, j0, x, q);
    assert a[..][i] == a[i] && a[..][j] == a[j];
  }

  /** One exchange and step of the partition loop. */
  lemma PartedStep(s: seq<SortType>, t: seq<SortType>, l: int, r: int, i: int, j: int, x: SortType)
    requires 0 <= l <= r < |s| && Parted(s, l, r, i, j, x) && l <= i <= j <= r
    requires Before(x, s[i]) && Before(s[j], x) && t == s[i := s[j]][j := s[i]]
    ensures Parted(t, l, r, i + 1, j - 1, x)
  {
    assert Before(t[i], x) && Before(x, t[j]);
  }

  method Partition(a: array<SortType>, l: int, r: int, x: SortType) returns (i: int, j: int)
    requires 0 <= l < r < a.Length && x == a[(l + r) / 2]
    modifies a
    ensures Rearranged(old(a[..]), a[..], l, r)
    ensures Parted(a[..], l, r, i, j, x) && l < i && j < r && j < i
  {
    i, j := l, r;
    ghost var m := (l + r) / 2;
    assert Before(x, a[..][m]) && Before(a[..][m], x) by { RepAntisymmetric(x, x); }
    while i <= j
      invariant Parted(a[..], l, r, i, j, x)
      invariant Rearranged(old(a[..]), a[..], l, r)
      invariant i <= j && !(l < i && j < r) ==> i == l && j == r
      invariant i > j ==> l < i && j < r
      decreases j - i
    {
      i, j := Scan(a, l, r, i, j, x);
      if i <= j {
        ghost var s := a[..];
        Swap(a, l, r, i, j);
        PartedStep(s, a[..], l, r, i, j, x);
        RearrangedTwice(old(a[..]), s, a[..], l, r);
        i, j := i + 1, j - 1;
      }
    }
  }

  /** What the two recursive calls leave in order is in order as a whole. */
  lemma Conquer(s: seq<SortType>, t: seq<SortType>, u: seq<SortType>, l: int, r: int, i: int, j: int, x: SortType)
    requires 0 <= l <= r < |s| && Parted(s, l, r, i, j, x) && l < i && j < r && j < i
    requires Rearranged(s, t, i, r) && Rearranged(t, u, l, j)
    requires Descending(t, i, r) && Descending(u, l, j)
    ensures Descending(u, l, r)
  {
    RearrangedAll(s, t, i, r, (e: SortType) => Before(x, e));
    RearrangedAll(t, u, l, j, (e: SortType) => Before(e, x));
    forall k | l <= k < i
      ensures Before(u[k], x)
    {
      if j < k {
        assert t[k] == t[..i][k] == s[..i][k] == s[k];
        assert u[k] == u[j + 1..][k - j - 1] == t[j + 1..][k - j - 1] == t[k];
      }
    }
    forall k | j < k <= r
      ensures Before(x, u[k])
    {
      assert u[k] == u[j + 1..][k - j - 1] == t[j + 1..][k - j - 1] == t[k];
      if k < i {
        assert t[k] == t[..i][k] == s[..i][k] == s[k];
      }
    }
    forall k, m | l <= k <= m <= r
      ensures Before(u[k], u[m])
    {
      if k >= i {
        assert u[k] == u[j + 1..][k - j - 1] == t[j + 1..][k - j - 1] == t[k];
        assert u[m] == u[j + 1..][m - j - 1] == t[j + 1..][m - j - 1] == t[m];
      } else if m > j {
        BeforeTransitive(u[k], x, u[m]);
      }
    }
  }

  /** Sorts a[l..r] into descending order. */
  method SortRep(a: array<SortType>, l: int, r: int)
    requires 0 <= l <= r < a.Length
    modifies a
    ensures Rearranged(old(a[..]), a[..], l, r)
    ensures Descending(a[..], l, r)
    decreases r - l
  {
    var x := a[(l + r) / 2];
    if l >= r {
      assert Before(a[..][l], a[..][l]) by { RepAntisymmetric(x, x); }
      return;
    }
    ghost var s0 := a[..];
    var i, j := Partition(a, l, r, x);
    ghost var s := a[..];
    if i < r {
      SortRep(a, i, r);
    }
    ghost var t := a[..];
    if l < j {
      SortRep(a, l, j);
    }
    ghost var u := a[..];
    ShortDescending(t, i, r);
    ShortDescending(u, l, j);
    Conquer(s, t, u, l, r, i, j, x);
    RearrangedMore(s, t, i, r, l, r);
    RearrangedMore(t, u, l, j, l, r);
    RearrangedTwice(s0, s, t, l, r);
    RearrangedTwice(s0, t, u, l, r);
  }

  lemma ShortDescending(s: seq<SortType>, l: int, r: int)
    requires 0 <= l && r < |s|
    ensures l >= r ==> Descending(s, l, r)
  {
    if l == r {
      RepAntisymmetric(s[l], s[l]);
    }
  }

  /** What the two predicates of SortRep come to. */
  lemma SortedMeans(s: seq<SortType>, t: seq<SortType>, l: int, r: int)
    requires 0 <= l <= r < |s| && Rearranged(s, t, l, r) && Descending(t, l, r)
    ensures multiset(s) == multiset(t) && |s| == |t|
    ensures forall k :: 0 <= k < |s| && !(l <= k <= r) ==> s[k] == t[k]
    ensures forall i, j :: l <= i <= j <= r ==> t[i].rep >= t[j].rep
  {
    assert s == s[..l] + s[l..r + 1] + s[r + 1..] && t == t[..l] + t[l..r + 1] + t[r + 1..];
    forall k | 0 <= k < |s| && !(l <= k <= r)
      ensures s[k] == t[k]
    {
      assert if k < l then s[k] == s[..l][k] && t[k] == t[..l][k]
             else s[k] == s[r + 1..][k - r - 1] && t[k] == t[r + 1..][k - r - 1];
    }
    forall i, j | l <= i <= j <= r
      ensures t[i].rep >= t[j].rep
    {
      BeforeMeans(t[i], t[j]);
    }
  }
}
