/** Stratified random assignment of members to shards (shard/shard_func.go:86-161). */
module Sharding {
  import opened MachineInt
  import opened Congruence
  import opened Outcomes
  import opened ShardDraws
  import opened Sorting

  /** The fields of a member that sharding reads or sets. */
  datatype Member = Member(privateAddress: string, totalRep: seq<int64>, shard: int, inShardId: int, role: byte,
      preShard: int)

  /** Two's complement wrap-around of a 64-bit sum. */
  function Wrap64(x: int): (r: int64)
    ensures Cong(r, x, 0x1_0000_0000_0000_0000)
  {
    WrapCong(x);
    (x + 0x8000_0000_0000_0000) % 0x1_0000_0000_0000_0000 - 0x8000_0000_0000_0000
  }

  lemma WrapCong(x: int)
    ensures Cong((x + 0x8000_0000_0000_0000) % 0x1_0000_0000_0000_0000 - 0x8000_0000_0000_0000, x,
                 0x1_0000_0000_0000_0000)
  {
    CongRes(x + 0x8000_0000_0000_0000, 0x1_0000_0000_0000_0000);
    CongSub((x + 0x8000_0000_0000_0000) % 0x1_0000_0000_0000_0000, x + 0x8000_0000_0000_0000,
            0x8000_0000_0000_0000, 0x8000_0000_0000_0000, 0x1_0000_0000_0000_0000);
  }

  /** A number of 64 bits is determined by its residue. */
  lemma WrapDetermined(x: int64, y: int64)
    requires Cong(x, y, 0x1_0000_0000_0000_0000)
    ensures x == y
  {
    var k := CongElim(x, y, 0x1_0000_0000_0000_0000);
    assert k == 0;
  }

  function TotalRep(reps: seq<int64>): int64 {
    if reps == [] then 0 else Wrap64(TotalRep(reps[..|reps| - 1]) + reps[|reps| - 1])
  }

  lemma TotalOfOne(x: int64)
    ensures TotalRep([x]) == x
  {
    WrapDetermined(Wrap64(x), x);
    assert TotalRep([x][..0]) == 0;
  }

  lemma LastAdded(s: seq<int64>, x: int64)
    ensures Cong(TotalRep(s + [x]), TotalRep(s) + x, 0x1_0000_0000_0000_0000)
  {
    assert (s + [x])[..|s + [x]| - 1] == s;
  }

  lemma CongSums(a: int, b: int, x: int, ab: int, bx: int, abx: int, m: int)
    requires m > 0 && Cong(ab, a + b, m) && Cong(bx, b + x, m) && Cong(abx, ab + x, m)
    ensures Cong(abx, a + bx, m)
  {
    CongAdd(ab, a + b, x, x, m);
    CongAdd(a, a, bx, b + x, m);
  }

  lemma {:induction false} TotalsCong(s: seq<int64>, t: seq<int64>, m: int)
    requires m == 0x1_0000_0000_0000_0000
    ensures Cong(TotalRep(s + t), TotalRep(s) + TotalRep(t), m)
  {
    if t == [] {
      assert s + t == s;
    } else {
      var u, x := t[..|t| - 1], t[|t| - 1];
      TotalsCong(s, u, m);
      assert t == u + [x] && s + t == (s + u) + [x];
      LastAdded(u, x);
      LastAdded(s + u, x);
      CongSums(TotalRep(s), TotalRep(u), x, TotalRep(s + u), TotalRep(t), TotalRep(s + t), m);
    }
  }

  /** The total of two lists is the sum of their totals. */
  lemma TotalAdds(s: seq<int64>, t: seq<int64>)
    ensures TotalRep(s + t) == Wrap64(TotalRep(s) + TotalRep(t))
  {
    TotalsCong(s, t, 0x1_0000_0000_0000_0000);
    WrapDetermined(TotalRep(s + t), Wrap64(TotalRep(s) + TotalRep(t)));
  }

  method CalTotalRep(ms: Member) returns (sum: int64)
    ensures sum == TotalRep(ms.totalRep)
  {
    sum := 0;
    for i := 0 to |ms.totalRep|
      invariant sum == TotalRep(ms.totalRep[..i])
    {
      assert ms.totalRep[..i + 1][..i] == ms.totalRep[..i];
      sum := Wrap64(sum + ms.totalRep[i]);
    }
    assert ms.totalRep[..|ms.totalRep|] == ms.totalRep;
  }

  // counting

  predicate Distinct<T(==)>(s: seq<T>) {
    forall i, j :: 0 <= i < j < |s| ==> s[i] != s[j]
  }

  lemma {:induction false} CountDistinct<T>(s: seq<T>, v: T)
    requires Distinct(s)
    ensures multiset(s)[v] == if v in s then 1 else 0
  {
    if s != [] {
      var t, x := s[..|s| - 1], s[|s| - 1];
      assert s == t + [x];
      CountDistinct(t, v);
      assert x !in t;
    }
  }

  function Below(n: nat): (r: set<nat>)
    ensures |r| == n && forall i :: i in r <==> 0 <= i < n
  {
    if n == 0 then {} else Below(n - 1) + {n - 1}
  }

  function Elements(s: seq<nat>): set<nat> {
    set x | x in s
  }

  lemma {:induction false} ElementsCount(s: seq<nat>)
    requires Distinct(s)
    ensures |Elements(s)| == |s|
  {
    if s != [] {
      var t, x := s[..|s| - 1], s[|s| - 1];
      assert s == t + [x];
      ElementsCount(t);
      assert Elements(s) == Elements(t) + {x};
    }
  }

  lemma SubsetCount(a: set<nat>, b: set<nat>)
    requires a <= b
    ensures |a| <= |b|
  {
    assert b == a + (b - a);
  }

  /** Distinct numbers below n, n of them, are all the numbers below n. */
  lemma Pigeonhole(s: seq<nat>, n: nat, v: nat)
    requires |s| == n && Distinct(s) && (forall i :: 0 <= i < n ==> s[i] < n) && v < n
    ensures v in s
  {
    ElementsCount(s);
    if v !in s {
      SubsetCount(Elements(s), Below(n) - {v});
    }
  }

  // from sorting

  /** The records before sorting: one a member, in order. */
  predicate IsSortData(d: seq<SortType>, a: seq<Member>) {
    |d| == |a| && forall i :: 0 <= i < |d| ==> d[i] == SortType(i, TotalRep(a[i].totalRep), a[i].privateAddress)
  }

  function Ids(d: seq<SortType>): (s: seq<nat>)
    ensures |s| == |d| && forall i :: 0 <= i < |d| ==> s[i] == d[i].id
  {
    seq(|d|, i requires 0 <= i < |d| => d[i].id)
  }

  /** Sorting loses no member and repeats none. */
  lemma SortedIds(d: seq<SortType>, t: seq<SortType>, a: seq<Member>)
    requires IsSortData(d, a) && multiset(d) == multiset(t)
    ensures |t| == |a| && Distinct(Ids(t))
    ensures forall k :: 0 <= k < |t| ==> t[k].id < |a| && t[k] == d[t[k].id]
  {
    assert |multiset(d)| == |d| && |multiset(t)| == |t|;
    forall k | 0 <= k < |t|
      ensures t[k].id < |a| && t[k] == d[t[k].id]
    {
      assert t[k] in multiset(t);
      assert t[k] in d;
    }
    forall i, j | 0 <= i < j < |t|
      ensures Ids(t)[i] != Ids(t)[j]
    {
      if t[i].id == t[j].id {
        CountDistinct(d, t[i]);
        TwiceCounted(t, i, j);
      }
    }
  }

  lemma TwiceCounted<T>(t: seq<T>, i: int, j: int)
    requires 0 <= i < j < |t| && t[i] == t[j]
    ensures multiset(t)[t[i]] >= 2
  {
    var u, v := t[..j], t[j..];
    assert t == u + v;
    assert t[i] == u[i] && t[i] in multiset(u);
    assert t[j] == v[0] && t[j] in multiset(v);
  }

  // drawing

  /** Column i of the shards holds the ranks col, all from one stratum. */
  predicate ColumnFilled(rows: seq<seq<int>>, i: nat, ids: seq<nat>, base: nat, col: seq<nat>) {
    && |col| == |rows| && Distinct(col)
    && forall x :: 0 <= x < |rows| ==>
         base <= col[x] < base + |rows| && col[x] < |ids| && i < |rows[x]| && rows[x][i] == ids[col[x]]
  }

  /** What the draws so far took: the x-th shard has rank col[x] if it is checked. */
  predicate Drawn(rows: seq<seq<int>>, before: seq<seq<int>>, i: nat, ids: seq<nat>, base: nat,
                  check: seq<int>, taken: seq<nat>, col: seq<nat>)
  {
    && |rows| == |before| == |check| == |col| && Distinct(taken)
    && base + |taken| <= |ids|
    && (forall t :: 0 <= t < |taken| ==> taken[t] < |rows| && col[taken[t]] == base + t)
    && (forall x :: 0 <= x < |rows| ==> i < |before[x]|)
    && (forall x :: 0 <= x < |rows| ==> (check[x] == 0 <==> x !in taken))
    && (forall x :: 0 <= x < |rows| && x !in taken ==> rows[x] == before[x])
    && (forall x :: 0 <= x < |rows| && x in taken ==>
         base <= col[x] < base + |taken| && rows[x] == before[x][i := ids[col[x]]])
  }

  lemma DrawOne(rows: seq<seq<int>>, before: seq<seq<int>>, i: nat, ids: seq<nat>, base: nat,
                check: seq<int>, taken: seq<nat>, col: seq<nat>, x: nat)
    requires Drawn(rows, before, i, ids, base, check, taken, col)
    requires x < |rows| && check[x] == 0 && base + |taken| < |ids|
    ensures Drawn(rows[x := rows[x][i := ids[base + |taken|]]], before, i, ids, base,
                  check[x := 1], taken + [x], col[x := base + |taken|])
  {
  }

  lemma AllDrawn(rows: seq<seq<int>>, before: seq<seq<int>>, i: nat, ids: seq<nat>, base: nat,
                 check: seq<int>, taken: seq<nat>, col: seq<nat>)
    requires Drawn(rows, before, i, ids, base, check, taken, col) && |taken| == |rows|
    ensures ColumnFilled(rows, i, ids, base, col)
    ensures forall x :: 0 <= x < |rows| ==> rows[x] == before[x][i := ids[col[x]]]
  {
    forall x | 0 <= x < |rows|
      ensures x in taken
    {
      Pigeonhole(taken, |rows|, x);
    }
    forall x, y | 0 <= x < y < |rows|
      ensures col[x] != col[y]
    {
      assert x in taken && y in taken;
      var t :| 0 <= t < |taken| && taken[t] == x;
      var u :| 0 <= u < |taken| && taken[u] == y;
    }
  }

  /** The reputations in order of rank. */
  function Reps(d: seq<SortType>): (s: seq<int64>)
    ensures |s| == |d| && forall i :: 0 <= i < |d| ==> s[i] == d[i].rep
  {
    seq(|d|, i requires 0 <= i < |d| => d[i].rep)
  }

  /** Records agree with their members. */
  predicate Current(d: seq<SortType>, a: seq<Member>) {
    forall k :: 0 <= k < |d| ==> d[k].id < |a| && d[k].rep == TotalRep(a[d[k].id].totalRep)
  }

  /** One draw, for the member next in rank. */
  method DrawShard(a: seq<Member>, sortData: seq<SortType>, base: nat, j: nat, draws: seq<int64>, ghost start: nat,
                   pos: nat, shards: nat, ghost taken: seq<nat>) returns (x: nat, ghost next: seq<nat>)
    requires start <= pos < |draws| && j == |taken| < shards && base + shards <= |sortData| && Current(sortData, a)
    requires Progress(draws, start, pos, Reps(sortData), base, shards, taken)
    ensures x < shards && next == if x in taken then taken else taken + [x]
    ensures Progress(draws, start, pos + 1, Reps(sortData), base, shards, next)
  {
    var rep := CalTotalRep(a[sortData[base + j].id]);
    x := Draw(draws[pos], rep, shards);
    next := if x in taken then taken else taken + [x];
    OneDraw(draws, start, pos, Reps(sortData), base, shards, taken, x);
  }

  /** Gives the member the place in the drawn shard, unless it was taken before. */
  method Place(b: array<seq<int>>, i: nat, id: nat, check: array<int>, x: nat, ghost before: seq<seq<int>>,
               ghost ids: seq<nat>, ghost base: nat, ghost taken: seq<nat>, ghost col: seq<nat>)
    returns (free: bool, ghost col': seq<nat>)
    requires Drawn(b[..], before, i, ids, base, check[..], taken, col) && x < b.Length
    requires base + |taken| < |ids| && id == ids[base + |taken|]
    modifies b, check
    ensures free == (x !in taken)
    ensures Drawn(b[..], before, i, ids, base, check[..], if x in taken then taken else taken + [x], col')
  {
    assert check[..][x] == 0 <==> x !in taken;
    free := check[x] == 0;
    col' := col;
    if free {
      DrawOne(b[..], before, i, ids, base, check[..], taken, col, x);
      ghost var rows, marks := b[..], check[..];
      check[x] := 1;
      b[x] := b[x][i := id];
      assert b[..] == rows[x := rows[x][i := ids[base + |taken|]]] && check[..] == marks[x := 1];
      col' := col[x := base + |taken|];
    }
  }

  /** One turn of the loop. */
  method TakeTurn(b: array<seq<int>>, i: nat, a: seq<Member>, sortData: seq<SortType>, base: nat, j: nat,
                  draws: seq<int64>, ghost start: nat, pos: nat, check: array<int>, ghost before: seq<seq<int>>,
                  ghost taken: seq<nat>, ghost col: seq<nat>)
    returns (pos': nat, j': nat, ghost next: seq<nat>, ghost col': seq<nat>)
    requires j == |taken| < b.Length && start <= pos < |draws| && base + b.Length <= |sortData| && Current(sortData, a)
    requires Drawn(b[..], before, i, Ids(sortData), base, check[..], taken, col)
    requires Progress(draws, start, pos, Reps(sortData), base, b.Length, taken)
    modifies b, check
    ensures pos' == pos + 1 && j' == |next| <= b.Length
    ensures Drawn(b[..], before, i, Ids(sortData), base, check[..], next, col')
    ensures Progress(draws, start, pos', Reps(sortData), base, b.Length, next)
  {
    var x, free;
    x, next := DrawShard(a, sortData, base, j, draws, start, pos, b.Length, taken);
    pos' := pos + 1;
    assert Progress(draws, start, pos', Reps(sortData), base, b.Length, next);
    assert Ids(sortData)[base + |taken|] == sortData[base + j].id;
    free, col' := Place(b, i, sortData[base + j].id, check, x, before, Ids(sortData), base, taken, col);
    j' := if free then j + 1 else j;
  }

  /** Gives the next `b.Length` members, in order of rank, one place in each shard, redrawing on a collision. */
  method FillColumn(b: array<seq<int>>, i: nat, a: seq<Member>, sortData: seq<SortType>, base: nat,
                    draws: seq<int64>, start: nat) returns (ok: bool, pos: nat, ghost col: seq<nat>)
    requires b.Length > 0 && base + b.Length <= |sortData| && start <= |draws|
    requires (forall x :: 0 <= x < b.Length ==> i < |b[x]|) && Current(sortData, a)
    modifies b
    ensures EndOf(draws, start, Reps(sortData), base, b.Length) == if ok then Some(pos) else None
    ensures start <= pos <= |draws| && forall x :: 0 <= x < b.Length ==> |b[x]| == |old(b[x])|
    ensures ok ==> ColumnFilled(b[..], i, Ids(sortData), base, col)
    ensures ok ==> forall x :: 0 <= x < b.Length ==> b[x] == old(b[x])[i := sortData[col[x]].id]
  {
    var check := new int[b.Length](x => 0);
    ghost var taken: seq<nat> := [];
    col := seq(b.Length, x => 0);
    pos := start;
    var j := 0;
    while j < b.Length
      invariant j == |taken| <= b.Length && start <= pos <= |draws|
      invariant Drawn(b[..], old(b[..]), i, Ids(sortData), base, check[..], taken, col)
      invariant Progress(draws, start, pos, Reps(sortData), base, b.Length, taken)
      decreases |draws| - pos
    {
      if pos == |draws| {
        ProgressEnds(draws, start, pos, Reps(sortData), base, b.Length, taken);
        return false, pos, col;
      }
      pos, j, taken, col := TakeTurn(b, i, a, sortData, base, j, draws, start, pos, check, old(b[..]), taken, col);
    }
    AllDrawn(b[..], old(b[..]), i, Ids(sortData), base, check[..], taken, col);
    ProgressEnds(draws, start, pos, Reps(sortData), base, b.Length, taken);
    ok := true;
  }

  /** The first `n` places of every shard are filled, each from its own stratum of the ranking. */
  predicate Stratified(rows: seq<seq<int>>, ids: seq<nat>, ranks: seq<seq<nat>>, n: nat) {
    |ranks| == n && forall i :: 0 <= i < n ==> ColumnFilled(rows, i, ids, i * |rows|, ranks[i])
  }

  /** The loop over shards, for place i. */
  method AssignColumn(b: array<seq<int>>, i: nat, now: nat, shardSize: nat, a: seq<Member>,
                      sortData: seq<SortType>, draws: seq<int64>, start: nat, ghost ranks: seq<seq<nat>>,
                      ghost end: Option<nat>)
    returns (ok: bool, pos: nat, ghost ranks': seq<seq<nat>>)
    requires b.Length > 0 && i < shardSize && shardSize * b.Length <= |sortData| && start <= |draws|
    requires now == i * b.Length
    requires (forall x :: 0 <= x < b.Length ==> |b[x]| == shardSize) && Current(sortData, a)
    requires Stratified(b[..], Ids(sortData), ranks, i)
    requires AssignEnd(draws, start, Reps(sortData), b.Length, i, shardSize) == end
    modifies b
    ensures pos <= |draws| && forall x :: 0 <= x < b.Length ==> |b[x]| == shardSize
    ensures !ok ==> end == None
    ensures ok ==> Stratified(b[..], Ids(sortData), ranks', i + 1)
    ensures ok ==> AssignEnd(draws, pos, Reps(sortData), b.Length, i + 1, shardSize) == end
  {
    RoomForColumn(i, shardSize, b.Length);
    ghost var before, col := b[..], [];
    ok, pos, col := FillColumn(b, i, a, sortData, now, draws, start);
    ranks' := ranks + [col];
    if ok {
      KeepColumns(before, b[..], i, Ids(sortData), ranks, col);
    }
  }

  /** The double loop over places and shards. */
  method Assign(b: array<seq<int>>, shardSize: nat, a: seq<Member>, sortData: seq<SortType>, draws: seq<int64>)
    returns (ok: bool, ghost ranks: seq<seq<nat>>)
    requires b.Length > 0 && |sortData| >= shardSize * b.Length
    requires forall x :: 0 <= x < b.Length ==> |b[x]| == shardSize
    requires Current(sortData, a)
    modifies b
    ensures ok == AssignEnd(draws, 0, Reps(sortData), b.Length, 0, shardSize).Some?
    ensures forall x :: 0 <= x < b.Length ==> |b[x]| == shardSize
    ensures ok ==> Stratified(b[..], Ids(sortData), ranks, shardSize)
  {
    ranks := [];
    ghost var end := AssignEnd(draws, 0, Reps(sortData), b.Length, 0, shardSize);
    var pos: nat, now: nat := 0, 0;
    for i := 0 to shardSize
      invariant pos <= |draws| && now == i * b.Length
      invariant forall x :: 0 <= x < b.Length ==> |b[x]| == shardSize
      invariant Stratified(b[..], Ids(sortData), ranks, i)
      invariant AssignEnd(draws, pos, Reps(sortData), b.Length, i, shardSize) == end
    {
      RoomForColumn(i, shardSize, b.Length);
      ok, pos, ranks := AssignColumn(b, i, now, shardSize, a, sortData, draws, pos, ranks, end);
      if !ok {
        return false, ranks;
      }
      now := now + b.Length;
    }
    ok := true;
  }

  lemma KeepColumns(before: seq<seq<int>>, rows: seq<seq<int>>, i: nat, ids: seq<nat>, ranks: seq<seq<nat>>,
      col: seq<nat>)
    requires Stratified(before, ids, ranks, i) && |rows| == |before|
    requires ColumnFilled(rows, i, ids, i * |rows|, col)
    requires forall x :: 0 <= x < |rows| ==> i < |before[x]| && rows[x] == before[x][i := ids[col[x]]]
    ensures Stratified(rows, ids, ranks + [col], i + 1)
  {
    forall k | 0 <= k < i + 1
      ensures ColumnFilled(rows, k, ids, k * |rows|, (ranks + [col])[k])
    {
      if k < i {
        assert ColumnFilled(before, k, ids, k * |rows|, ranks[k]);
      }
    }
  }

  // what an assignment achieves

  predicate Held(rows: seq<seq<int>>, v: int) {
    exists x :: 0 <= x < |rows| && v in rows[x]
  }

  /** Rows share no number, repeat none, and hold only numbers below n. */
  predicate Partitioned(rows: seq<seq<int>>, n: nat) {
    && (forall x :: 0 <= x < |rows| ==> Distinct(rows[x]))
    && (forall x, i :: 0 <= x < |rows| && 0 <= i < |rows[x]| ==> 0 <= rows[x][i] < n)
    && forall x, y, v :: 0 <= x < |rows| && 0 <= y < |rows| && v in rows[x] && v in rows[y] ==> x == y
  }

  /** Nobody without a place has a greater reputation than anyone with one. */
  predicate BestHeld(a: seq<Member>, rows: seq<seq<int>>) {
    forall v, w :: 0 <= v < |a| && 0 <= w < |a| && !Held(rows, v) && Held(rows, w) ==>
      TotalRep(a[v].totalRep) <= TotalRep(a[w].totalRep)
  }

  predicate AllHeld(rows: seq<seq<int>>, n: nat) {
    forall v :: 0 <= v < n ==> Held(rows, v)
  }

  lemma StrataApart(i: nat, j: nat, c: nat, k: nat)
    requires i * c <= k < i * c + c && j * c <= k < j * c + c
    ensures i == j
  {
    if i < j {
      RoomForColumn(i, j, c);
    } else if j < i {
      RoomForColumn(j, i, c);
    }
  }

  lemma CellsDiffer(rows: seq<seq<int>>, ids: seq<nat>, ranks: seq<seq<nat>>, n: nat, x: nat, i: nat, y: nat, j: nat)
    requires Stratified(rows, ids, ranks, n) && Distinct(ids) && x < |rows| && y < |rows| && i < n && j < n
    requires i < |rows[x]| && j < |rows[y]| && rows[x][i] == rows[y][j]
    ensures x == y && i == j
  {
    assert ColumnFilled(rows, i, ids, i * |rows|, ranks[i]) && ColumnFilled(rows, j, ids, j * |rows|, ranks[j]);
    assert ids[ranks[i][x]] == ids[ranks[j][y]];
    StrataApart(i, j, |rows|, ranks[i][x]);
  }

  lemma RankInColumn(col: seq<nat>, base: nat, k: nat) returns (x: nat)
    requires Distinct(col) && (forall y :: 0 <= y < |col| ==> base <= col[y] < base + |col|)
    requires base <= k < base + |col|
    ensures x < |col| && col[x] == k
  {
    var places := seq(|col|, y requires 0 <= y < |col| => col[y] - base);
    Pigeonhole(places, |col|, k - base);
    x :| 0 <= x < |col| && places[x] == k - base;
  }

  lemma RankPlaced(rows: seq<seq<int>>, ids: seq<nat>, ranks: seq<seq<nat>>, n: nat, k: nat)
    requires Stratified(rows, ids, ranks, n) && |ids| >= n * |rows| && |rows| > 0 && k < n * |rows|
    ensures Held(rows, ids[k])
  {
    var c := |rows|;
    var i := k / c;
    QuotientRange(k, n, c);
    assert ColumnFilled(rows, i, ids, i * c, ranks[i]);
    var x := RankInColumn(ranks[i], i * c, k);
    assert rows[x][i] == ids[k];
  }

  lemma RankOf(ids: seq<nat>, v: nat) returns (k: nat)
    requires Distinct(ids) && (forall k :: 0 <= k < |ids| ==> ids[k] < |ids|) && v < |ids|
    ensures k < |ids| && ids[k] == v
  {
    Pigeonhole(ids, |ids|, v);
    k :| 0 <= k < |ids| && ids[k] == v;
  }

  /** Whoever has no place is ranked below all places. */
  lemma PlacedAreBest(a: seq<Member>, rows: seq<seq<int>>, ids: seq<nat>, ranks: seq<seq<nat>>, n: nat)
    requires Stratified(rows, ids, ranks, n) && RanksDescend(a, ids) && |ids| == |a| >= n * |rows| && |rows| > 0
    requires Distinct(ids) && forall x :: 0 <= x < |rows| ==> |rows[x]| == n
    ensures BestHeld(a, rows) && (|a| == n * |rows| ==> AllHeld(rows, |a|))
  {
    forall v, w | 0 <= v < |a| && 0 <= w < |a| && !Held(rows, v) && Held(rows, w)
      ensures TotalRep(a[v].totalRep) <= TotalRep(a[w].totalRep)
    {
      var k := RankOf(ids, v);
      if k < n * |rows| {
        RankPlaced(rows, ids, ranks, n, k);
      }
      var x :| 0 <= x < |rows| && w in rows[x];
      var i :| 0 <= i < n && rows[x][i] == w;
      assert ColumnFilled(rows, i, ids, i * |rows|, ranks[i]);
      RoomForColumn(i, n, |rows|);
    }
    if |a| == n * |rows| {
      forall v | 0 <= v < |a|
        ensures Held(rows, v)
      {
        var k := RankOf(ids, v);
        RankPlaced(rows, ids, ranks, n, k);
      }
    }
  }

  lemma QuotientRange(k: nat, n: nat, c: nat)
    requires c > 0 && k < n * c
    ensures 0 <= k / c < n && k / c * c <= k < k / c * c + c
  {
    var i := k / c;
    assert k == i * c + k % c;
    if i >= n {
      RoomForColumn(n, i + 1, c);
    }
  }

  /** Distinct ranks in disjoint strata: nobody is placed twice. */
  lemma AssignmentPartitions(rows: seq<seq<int>>, ids: seq<nat>, ranks: seq<seq<nat>>, n: nat)
    requires Stratified(rows, ids, ranks, n) && |ids| >= n * |rows| && |rows| > 0
    requires Distinct(ids) && forall k :: 0 <= k < |ids| ==> ids[k] < |ids|
    requires forall x :: 0 <= x < |rows| ==> |rows[x]| == n
    ensures Partitioned(rows, |ids|)
  {
    forall x, i, j | 0 <= x < |rows| && 0 <= i < j < |rows[x]|
      ensures rows[x][i] != rows[x][j]
    {
      if rows[x][i] == rows[x][j] {
        CellsDiffer(rows, ids, ranks, n, x, i, x, j);
      }
    }
    forall x, i | 0 <= x < |rows| && 0 <= i < |rows[x]|
      ensures 0 <= rows[x][i] < |ids|
    {
      assert ColumnFilled(rows, i, ids, i * |rows|, ranks[i]);
    }
    forall x, y, v | 0 <= x < |rows| && 0 <= y < |rows| && v in rows[x] && v in rows[y]
      ensures x == y
    {
      var i :| 0 <= i < n && rows[x][i] == v;
      var j :| 0 <= j < n && rows[y][j] == v;
      CellsDiffer(rows, ids, ranks, n, x, i, y, j);
    }
  }

  /** Rearranging within the rows keeps the partition. */
  lemma PartitionPermuted(rows: seq<seq<int>>, rows': seq<seq<int>>, n: nat)
    requires Partitioned(rows, n) && |rows| == |rows'|
    requires forall x :: 0 <= x < |rows| ==> multiset(rows[x]) == multiset(rows'[x])
    ensures Partitioned(rows', n) && forall v :: Held(rows, v) <==> Held(rows', v)
  {
    forall x | 0 <= x < |rows|
      ensures Distinct(rows'[x])
    {
      DistinctPermuted(rows[x], rows'[x]);
    }
    forall x, v | 0 <= x < |rows|
      ensures v in rows[x] <==> v in rows'[x]
    {
      assert v in rows[x] <==> v in multiset(rows[x]);
      assert v in rows'[x] <==> v in multiset(rows'[x]);
    }
    forall x, i | 0 <= x < |rows'| && 0 <= i < |rows'[x]|
      ensures 0 <= rows'[x][i] < n
    {
      assert rows'[x][i] in rows[x];
    }
    forall v
      ensures Held(rows, v) <==> Held(rows', v)
    {
      if Held(rows, v) {
        var x :| 0 <= x < |rows| && v in rows[x];
        assert v in rows'[x];
      }
      if Held(rows', v) {
        var x :| 0 <= x < |rows'| && v in rows'[x];
        assert v in rows[x];
      }
    }
  }

  lemma DistinctPermuted<T>(s: seq<T>, t: seq<T>)
    requires Distinct(s) && multiset(s) == multiset(t)
    ensures Distinct(t)
  {
    forall i, j | 0 <= i < j < |t|
      ensures t[i] != t[j]
    {
      if t[i] == t[j] {
        TwiceCounted(t, i, j);
        CountDistinct(s, t[i]);
      }
    }
  }

  // balance

  /** The total reputation of a row of members. */
  function RowRep(a: seq<Member>, row: seq<int>): int
    requires forall i :: 0 <= i < |row| ==> 0 <= row[i] < |a|
  {
    if row == [] then 0 else RowRep(a, row[..|row| - 1]) + TotalRep(a[row[|row| - 1]].totalRep)
  }

  /** The reputations at ranks that descend. */
  predicate RanksDescend(a: seq<Member>, ids: seq<nat>) {
    && (forall k :: 0 <= k < |ids| ==> ids[k] < |a|)
    && forall k, m :: 0 <= k <= m < |ids| ==> TotalRep(a[ids[m]].totalRep) <= TotalRep(a[ids[k]].totalRep)
  }

  /** Stratum by stratum, one shard's lead over another is at most what the ranking has dropped. */
  lemma {:induction false} LeadBounded(a: seq<Member>, rows: seq<seq<int>>, ids: seq<nat>, ranks: seq<seq<nat>>,
                                       n: nat, x: nat, y: nat, m: nat)
    requires Stratified(rows, ids, ranks, n) && RanksDescend(a, ids) && x < |rows| && y < |rows| && 0 < m <= n
    requires n <= |rows[x]| && n <= |rows[y]| && |ids| >= n * |rows|
    requires forall z, i :: 0 <= z < |rows| && 0 <= i < |rows[z]| ==> 0 <= rows[z][i] < |a|
    ensures 0 < m * |rows| <= |ids|
    ensures RowRep(a, rows[x][..m]) - RowRep(a, rows[y][..m])
         <= TotalRep(a[ids[0]].totalRep) - TotalRep(a[ids[m * |rows| - 1]].totalRep)
    decreases m
  {
    var i := m - 1;
    InStratum(a, rows, ids, ranks, n, x, i);
    InStratum(a, rows, ids, ranks, n, y, i);
    assert rows[x][..m][..i] == rows[x][..i] && rows[y][..m][..i] == rows[y][..i];
    if i > 0 {
      LeadBounded(a, rows, ids, ranks, n, x, y, i);
      assert TotalRep(a[ids[i * |rows|]].totalRep) <= TotalRep(a[ids[i * |rows| - 1]].totalRep);
    }
  }

  /** A member's reputation lies between those at the ends of its stratum. */
  lemma InStratum(a: seq<Member>, rows: seq<seq<int>>, ids: seq<nat>, ranks: seq<seq<nat>>, n: nat, x: nat, i: nat)
    requires Stratified(rows, ids, ranks, n) && RanksDescend(a, ids) && x < |rows| && i < n
    requires |ids| >= n * |rows| && i < |rows[x]| && 0 <= rows[x][i] < |a|
    ensures 0 <= i * |rows| < (i + 1) * |rows| <= |ids|
    ensures TotalRep(a[ids[(i + 1) * |rows| - 1]].totalRep) <= TotalRep(a[rows[x][i]].totalRep)
         <= TotalRep(a[ids[i * |rows|]].totalRep)
  {
    RoomForColumn(i, n, |rows|);
    assert ColumnFilled(rows, i, ids, i * |rows|, ranks[i]);
    var p := ranks[i][x];
    assert rows[x][i] == ids[p] && i * |rows| <= p <= (i + 1) * |rows| - 1;
  }

  lemma {:induction false} RowRepRemove(a: seq<Member>, row: seq<int>, k: nat)
    requires k < |row| && forall i :: 0 <= i < |row| ==> 0 <= row[i] < |a|
    ensures RowRep(a, row) == RowRep(a, row[..k] + row[k + 1..]) + TotalRep(a[row[k]].totalRep)
  {
    var rest := row[..k] + row[k + 1..];
    if k == |row| - 1 {
      assert rest == row[..k];
    } else {
      var n := |row| - 1;
      RowRepRemove(a, row[..n], k);
      assert rest[..n - 1] == row[..n][..k] + row[..n][k + 1..];
    }
  }

  lemma RemoveOne<T>(s: seq<T>, n: nat, t: seq<T>, k: nat)
    requires n == |s| - 1 && k < |t| && s[n] == t[k] && multiset(s) == multiset(t)
    ensures multiset(s[..n]) == multiset(t[..k] + t[k + 1..])
  {
    assert s == s[..n] + [s[n]];
    assert t == t[..k] + ([t[k]] + t[k + 1..]);
    assert multiset(s[..n]) == multiset(s) - multiset{s[n]};
    assert multiset(t[..k] + t[k + 1..]) == multiset(t) - multiset{t[k]};
  }

  /** The total does not depend on the order within the row. */
  lemma {:induction false} RowRepPermuted(a: seq<Member>, s: seq<int>, t: seq<int>)
    requires multiset(s) == multiset(t)
    requires forall i :: 0 <= i < |s| ==> 0 <= s[i] < |a|
    requires forall i :: 0 <= i < |t| ==> 0 <= t[i] < |a|
    ensures RowRep(a, s) == RowRep(a, t)
    decreases |s|
  {
    assert |multiset(s)| == |s| && |multiset(t)| == |t|;
    if s != [] {
      var n := |s| - 1;
      assert s == s[..n] + [s[n]];
      assert s[n] in multiset(t);
      var k :| 0 <= k < |t| && t[k] == s[n];
      RowRepRemove(a, t, k);
      RemoveOne(s, n, t, k);
      RowRepPermuted(a, s[..n], t[..k] + t[k + 1..]);
    }
  }

  /** Only the reputations matter, not the fields that sharding sets. */
  lemma {:induction false} RowRepSame(a: seq<Member>, a': seq<Member>, row: seq<int>)
    requires |a| == |a'| && forall i :: 0 <= i < |a| ==> a[i].totalRep == a'[i].totalRep
    requires forall i :: 0 <= i < |row| ==> 0 <= row[i] < |a|
    ensures RowRep(a, row) == RowRep(a', row)
  {
    if row != [] {
      RowRepSame(a, a', row[..|row| - 1]);
    }
  }

  // leaders and roles

  function Exchanged(row: seq<int>, i: nat, j: nat): (r: seq<int>)
    requires i < j < |row|
    ensures |r| == |row| && multiset(r) == multiset(row)
  {
    var r := row[i := row[j]][j := row[i]];
    SwappedIsRearranged(row, 0, |row| - 1, i, j);
    assert row[0..|row|] == row && r[0..|row|] == r;
    r
  }

  /** Orders one shard by keys whose comparison is arbitrary, so that only the rearranging is claimed. */
  method LeaderSort(b: array<seq<int>>, xx: nat, keys: array<real>, greater: (real, real) -> bool)
    requires xx < b.Length && keys.Length == |b[xx]|
    modifies b, keys
    ensures multiset(b[xx]) == multiset(old(b[xx])) && |b[xx]| == |old(b[xx])|
    ensures forall x :: 0 <= x < b.Length && x != xx ==> b[x] == old(b[x])
  {
    for i := 0 to keys.Length
      invariant multiset(b[xx]) == multiset(old(b[xx])) && |b[xx]| == keys.Length
      invariant forall x :: 0 <= x < b.Length && x != xx ==> b[x] == old(b[x])
    {
      for j := i + 1 to keys.Length
        invariant multiset(b[xx]) == multiset(old(b[xx])) && |b[xx]| == keys.Length
        invariant forall x :: 0 <= x < b.Length && x != xx ==> b[x] == old(b[x])
      {
        if greater(keys[i], keys[j]) {
          keys[i], keys[j] := keys[j], keys[i];
          b[xx] := Exchanged(b[xx], i, j);
        }
      }
    }
  }

  /** A member after sharding: its place, and the leader's role for place 0. */
  function Placed(m: Member, shard: nat, place: nat): (r: Member)
    ensures r.shard == shard && r.inShardId == place && (if place == 0 then r.role == 0 else r.role == 1)
    ensures r.privateAddress == m.privateAddress && r.totalRep == m.totalRep && r.preShard == m.preShard
  {
    m.(shard := shard, inShardId := place, role := if place == 0 then 0 else 1)
  }

  method SetShard(a: array<Member>, row: seq<int>, shard: nat)
    requires Distinct(row) && forall i :: 0 <= i < |row| ==> 0 <= row[i] < a.Length
    modifies a
    ensures forall i :: 0 <= i < |row| ==> a[row[i]] == Placed(old(a[row[i]]), shard, i)
    ensures forall v :: 0 <= v < a.Length && v !in row ==> a[v] == old(a[v])
  {
    for j := 0 to |row|
      invariant forall i :: 0 <= i < j ==> a[row[i]] == Placed(old(a[row[i]]), shard, i)
      invariant forall i :: j <= i < |row| ==> a[row[i]] == old(a[row[i]])
      invariant forall v :: 0 <= v < a.Length && v !in row ==> a[v] == old(a[v])
    {
      a[row[j]] := a[row[j]].(inShardId := j, shard := shard);
      if j == 0 {
        a[row[j]] := a[row[j]].(role := 0);
      } else {
        a[row[j]] := a[row[j]].(role := 1);
      }
    }
  }

  method SetMembers(a: array<Member>, rows: seq<seq<int>>)
    requires Partitioned(rows, a.Length)
    modifies a
    ensures forall x, i :: 0 <= x < |rows| && 0 <= i < |rows[x]| ==> a[rows[x][i]] == Placed(old(a[rows[x][i]]), x, i)
    ensures forall v :: 0 <= v < a.Length && !Held(rows, v) ==> a[v] == old(a[v])
  {
    for x := 0 to |rows|
      invariant forall v :: 0 <= v < a.Length && !Held(rows, v) ==> a[v] == old(a[v])
      invariant forall y, i :: 0 <= y < x && 0 <= i < |rows[y]| ==> a[rows[y][i]] == Placed(old(a[rows[y][i]]), y, i)
      invariant forall y, i :: x <= y < |rows| && 0 <= i < |rows[y]| ==> a[rows[y][i]] == old(a[rows[y][i]])
    {
      forall y, i | 0 <= y < |rows| && y != x && 0 <= i < |rows[y]|
        ensures rows[y][i] !in rows[x]
      {
        assert rows[y][i] in rows[y];
      }
      SetShard(a, rows[x], x);
    }
  }

  // the whole

  predicate SpreadAtMost(a: seq<Member>, d: int) {
    forall u, v :: 0 <= u < |a| && 0 <= v < |a| ==> TotalRep(a[u].totalRep) - TotalRep(a[v].totalRep) <= d
  }

  /** No shard leads another by more than the members' reputations differ. */
  ghost predicate Balanced(a: seq<Member>, rows: seq<seq<int>>)
    requires forall x, i :: 0 <= x < |rows| && 0 <= i < |rows[x]| ==> 0 <= rows[x][i] < |a|
  {
    forall d, x, y :: SpreadAtMost(a, d) && 0 <= x < |rows| && 0 <= y < |rows| ==>
        RowRep(a, rows[x]) - RowRep(a, rows[y]) <= d
  }

  lemma StratifiedBalanced(a: seq<Member>, rows: seq<seq<int>>, ids: seq<nat>, ranks: seq<seq<nat>>, n: nat)
    requires Stratified(rows, ids, ranks, n) && RanksDescend(a, ids) && n > 0 && |rows| > 0
    requires |ids| >= n * |rows| && (forall x :: 0 <= x < |rows| ==> |rows[x]| == n)
    requires forall x, i :: 0 <= x < |rows| && 0 <= i < |rows[x]| ==> 0 <= rows[x][i] < |a|
    ensures Balanced(a, rows)
  {
    forall d, x, y | SpreadAtMost(a, d) && 0 <= x < |rows| && 0 <= y < |rows|
      ensures RowRep(a, rows[x]) - RowRep(a, rows[y]) <= d
    {
      LeadBounded(a, rows, ids, ranks, n, x, y, n);
      assert rows[x][..n] == rows[x] && rows[y][..n] == rows[y];
    }
  }

  lemma BalancedPermuted(a: seq<Member>, a': seq<Member>, rows: seq<seq<int>>, rows': seq<seq<int>>)
    requires |a| == |a'| && (forall i :: 0 <= i < |a| ==> a[i].totalRep == a'[i].totalRep) && |rows| == |rows'|
    requires forall x :: 0 <= x < |rows| ==> multiset(rows[x]) == multiset(rows'[x])
    requires forall x, i :: 0 <= x < |rows| && 0 <= i < |rows[x]| ==> 0 <= rows[x][i] < |a|
    requires forall x, i :: 0 <= x < |rows'| && 0 <= i < |rows'[x]| ==> 0 <= rows'[x][i] < |a|
    requires Balanced(a, rows)
    ensures Balanced(a', rows')
  {
    forall x | 0 <= x < |rows|
      ensures RowRep(a', rows'[x]) == RowRep(a, rows[x])
    {
      RowRepPermuted(a, rows[x], rows'[x]);
      RowRepSame(a, a', rows'[x]);
    }
    forall d, x, y | SpreadAtMost(a', d) && 0 <= x < |rows'| && 0 <= y < |rows'|
      ensures RowRep(a', rows'[x]) - RowRep(a', rows'[y]) <= d
    {
      assert SpreadAtMost(a, d);
    }
  }

  /** The members ranked by reputation; their present shard is remembered. */
  method Rank(a: array<Member>) returns (sortData: array<SortType>)
    requires a.Length > 0
    modifies a
    ensures fresh(sortData) && sortData.Length == a.Length
    ensures forall i :: 0 <= i < a.Length ==> a[i] == old(a[i]).(preShard := old(a[i]).shard)
    ensures Distinct(Ids(sortData[..])) && RanksDescend(a[..], Ids(sortData[..]))
    ensures Current(sortData[..], a[..])
  {
    sortData := new SortType[a.Length](i => SortType(0, 0, ""));
    for i := 0 to a.Length
      invariant forall k :: 0 <= k < i ==> a[k] == old(a[k]).(preShard := old(a[k]).shard)
      invariant forall k :: i <= k < a.Length ==> a[k] == old(a[k])
      invariant forall k :: 0 <= k < i ==> sortData[k] == SortType(k, TotalRep(a[k].totalRep), a[k].privateAddress)
    {
      a[i] := a[i].(preShard := a[i].shard);
      var rep := CalTotalRep(a[i]);
      sortData[i] := SortType(i, rep, a[i].privateAddress);
    }
    ghost var d := sortData[..];
    SortRep(sortData, 0, a.Length - 1);
    RankingDescends(d, sortData[..], a[..]);
    RankingCurrent(d, sortData[..], a[..]);
  }

  lemma RankingCurrent(d: seq<SortType>, t: seq<SortType>, a: seq<Member>)
    requires IsSortData(d, a) && a != [] && Rearranged(d, t, 0, |d| - 1)
    ensures Current(t, a)
  {
    assert d[0..|d|] == d && t[0..|t|] == t;
    forall k | 0 <= k < |t|
      ensures t[k].id < |a| && t[k].rep == TotalRep(a[t[k].id].totalRep)
    {
      assert t[k] in multiset(t);
      var i :| 0 <= i < |d| && d[i] == t[k];
    }
  }

  lemma RankingDescends(d: seq<SortType>, t: seq<SortType>, a: seq<Member>)
    requires IsSortData(d, a) && a != [] && Rearranged(d, t, 0, |d| - 1) && Descending(t, 0, |t| - 1)
    ensures Distinct(Ids(t)) && RanksDescend(a, Ids(t))
  {
    assert d[0..|d|] == d && t[0..|t|] == t;
    SortedIds(d, t, a);
    forall k, m | 0 <= k <= m < |t|
      ensures t[m].rep <= t[k].rep
    {
      assert Before(t[k], t[m]);
    }
  }

  method LeaderSorts(b: array<seq<int>>, shardSize: nat, keys: seq<seq<real>>, greater: (real, real) -> bool)
    requires |keys| == b.Length && forall x :: 0 <= x < b.Length ==> |b[x]| == |keys[x]| == shardSize
    modifies b
    ensures forall x :: 0 <= x < b.Length ==> multiset(b[x]) == multiset(old(b[x])) && |b[x]| == shardSize
  {
    for i := 0 to b.Length
      invariant forall x :: 0 <= x < b.Length ==> multiset(b[x]) == multiset(old(b[x])) && |b[x]| == shardSize
    {
      var tmp := new real[shardSize](k requires 0 <= k < shardSize => keys[i][k]);
      LeaderSort(b, i, tmp, greater);
    }
  }

  method ClearRows(b: array<seq<int>>, shardSize: nat)
    requires forall x :: 0 <= x < b.Length ==> |b[x]| == shardSize
    modifies b
    ensures forall x :: 0 <= x < b.Length ==> |b[x]| == shardSize
  {
    for j := 0 to b.Length
      invariant forall x :: 0 <= x < b.Length ==> |b[x]| == shardSize
    {
      b[j] := seq(shardSize, i => -1);
    }
  }

  /** The reputations of the members in an order. */
  function RepsBy(a: seq<Member>, order: seq<nat>): (s: seq<int64>)
    requires forall k :: 0 <= k < |order| ==> order[k] < |a|
    ensures |s| == |order| && forall k :: 0 <= k < |order| ==> s[k] == TotalRep(a[order[k]].totalRep)
  {
    seq(|order|, k requires 0 <= k < |order| => TotalRep(a[order[k]].totalRep))
  }

  /** All members, each once, in descending order of reputation. */
  predicate IsRanking(a: seq<Member>, order: seq<nat>) {
    && |order| == |a| && (forall k :: 0 <= k < |order| ==> order[k] < |a|)
    && (forall k, m :: 0 <= k < m < |order| ==> order[k] != order[m])
    && forall k, m :: 0 <= k <= m < |order| ==> TotalRep(a[order[m]].totalRep) <= TotalRep(a[order[k]].totalRep)
  }

  lemma RankingOf(a: seq<Member>, before: seq<Member>, d: seq<SortType>)
    requires |d| == |a| == |before| && Current(d, a) && Distinct(Ids(d)) && RanksDescend(a, Ids(d))
    requires forall v :: 0 <= v < |a| ==> a[v].totalRep == before[v].totalRep
    ensures IsRanking(before, Ids(d)) && Reps(d) == RepsBy(before, Ids(d))
  {
    var ids := Ids(d);
    forall k, m | 0 <= k <= m < |ids|
      ensures TotalRep(before[ids[m]].totalRep) <= TotalRep(before[ids[k]].totalRep)
    {
      assert TotalRep(a[ids[m]].totalRep) <= TotalRep(a[ids[k]].totalRep);
    }
  }

  /** Ranks the members and draws their places. */
  method Arrange(a: array<Member>, b: array<seq<int>>, shardSize: nat, draws: seq<int64>)
    returns (finished: bool, ghost order: seq<nat>)
    requires shardSize > 0 && b.Length > 0 && a.Length >= shardSize * b.Length && a.Length > 0
    requires forall x :: 0 <= x < b.Length ==> |b[x]| == shardSize
    modifies a, b
    ensures forall x :: 0 <= x < b.Length ==> |b[x]| == shardSize
    ensures forall i :: 0 <= i < a.Length ==> a[i] == old(a[i]).(preShard := old(a[i]).shard)
    ensures IsRanking(old(a[..]), order)
    ensures finished == AssignEnd(draws, 0, RepsBy(old(a[..]), order), b.Length, 0, shardSize).Some?
    ensures finished ==> Partitioned(b[..], a.Length) && Balanced(a[..], b[..]) && BestHeld(a[..], b[..])
    ensures finished && a.Length == shardSize * b.Length ==> AllHeld(b[..], a.Length)
  {
    var sortData := Rank(a);
    ClearRows(b, shardSize);
    ghost var ids, ranks := Ids(sortData[..]), [];
    order := ids;
    RankingOf(a[..], old(a[..]), sortData[..]);
    assert forall k :: 0 <= k < |ids| ==> ids[k] == sortData[k].id;
    finished, ranks := Assign(b, shardSize, a[..], sortData[..], draws);
    if finished {
      AssignmentPartitions(b[..], ids, ranks, shardSize);
      StratifiedBalanced(a[..], b[..], ids, ranks, shardSize);
      PlacedAreBest(a[..], b[..], ids, ranks, shardSize);
    }
  }

  /** Every place gets one member and no member two, those without a place have the least reputations, every
      member has a place if there are as many places, and the shards' reputations are balanced. */
  method Sharding(a: array<Member>, b: array<seq<int>>, shardSize: nat, draws: seq<int64>,
                  keys: seq<seq<real>>, greater: (real, real) -> bool) returns (finished: bool, ghost order: seq<nat>)
    requires shardSize > 0 && b.Length > 0 && a.Length >= shardSize * b.Length && a.Length > 0
    requires |keys| == b.Length && forall x :: 0 <= x < b.Length ==> |b[x]| == |keys[x]| == shardSize
    modifies a, b
    ensures forall x :: 0 <= x < b.Length ==> |b[x]| == shardSize
    ensures IsRanking(old(a[..]), order)
    ensures finished <==> AssignEnd(draws, 0, RepsBy(old(a[..]), order), b.Length, 0, shardSize).Some?
    ensures finished ==> Partitioned(b[..], a.Length) && Balanced(a[..], b[..]) && BestHeld(a[..], b[..])
    ensures finished && a.Length == shardSize * b.Length ==> AllHeld(b[..], a.Length)
    ensures finished ==> forall v :: 0 <= v < a.Length && !Held(b[..], v) ==>
      var m := old(a[..])[v];
      a[v] == m.(preShard := m.shard)
    ensures finished ==> forall x, i :: 0 <= x < b.Length && 0 <= i < shardSize ==>
      var m := old(a[..])[b[x][i]];
      a[b[x][i]] == Placed(m.(preShard := m.shard), x, i)
  {
    finished, order := Arrange(a, b, shardSize, draws);
    if finished {
      ghost var ranked := a[..];
      LeadersAndRoles(a, b, shardSize, keys, greater);
      forall x, i | 0 <= x < b.Length && 0 <= i < shardSize
        ensures a[b[x][i]] == Placed(ranked[b[x][i]], x, i)
      {
      }
    }
  }

  /** Leaders are chosen within the shards, which changes neither membership nor totals. */
  method LeadersAndRoles(a: array<Member>, b: array<seq<int>>, shardSize: nat,
                         keys: seq<seq<real>>, greater: (real, real) -> bool)
    requires |keys| == b.Length && forall x :: 0 <= x < b.Length ==> |b[x]| == |keys[x]| == shardSize
    requires Partitioned(b[..], a.Length) && Balanced(a[..], b[..]) && BestHeld(a[..], b[..])
    modifies a, b
    ensures forall x :: 0 <= x < b.Length ==> |b[x]| == shardSize
    ensures Partitioned(b[..], a.Length) && Balanced(a[..], b[..]) && BestHeld(a[..], b[..])
    ensures forall v :: Held(b[..], v) <==> Held(old(b[..]), v)
    ensures forall x, i :: 0 <= x < b.Length && 0 <= i < shardSize ==> a[b[x][i]] == Placed(old(a[..])[b[x][i]], x, i)
    ensures forall v :: 0 <= v < a.Length && !Held(b[..], v) ==> a[v] == old(a[v])
  {
    ghost var before, rows := a[..], b[..];
    LeaderSorts(b, shardSize, keys, greater);
    PartitionPermuted(rows, b[..], a.Length);
    SetMembers(a, b[..]);
    KeepReputations(before, a[..], b[..]);
    BalancedPermuted(before, a[..], rows, b[..]);
  }

  lemma KeepReputations(before: seq<Member>, after: seq<Member>, rows: seq<seq<int>>)
    requires |before| == |after| && Partitioned(rows, |before|)
    requires forall x, i :: 0 <= x < |rows| && 0 <= i < |rows[x]| ==>
        after[rows[x][i]] == Placed(before[rows[x][i]], x, i)
    requires forall v :: 0 <= v < |before| && !Held(rows, v) ==> after[v] == before[v]
    ensures forall v :: 0 <= v < |before| ==> before[v].totalRep == after[v].totalRep
  {
    forall v | 0 <= v < |before|
      ensures before[v].totalRep == after[v].totalRep
    {
      if Held(rows, v) {
        var x :| 0 <= x < |rows| && v in rows[x];
        var i :| 0 <= i < |rows[x]| && rows[x][i] == v;
      }
    }
  }

  // what Sharding promises, in full

  /** Places hold members, and no member has two. */
  lemma PlacesDiffer(rows: seq<seq<int>>, n: nat, x: nat, i: nat, y: nat, j: nat)
    requires Partitioned(rows, n) && x < |rows| && y < |rows| && i < |rows[x]| && j < |rows[y]|
    ensures 0 <= rows[x][i] < n
    ensures rows[x][i] == rows[y][j] ==> x == y && i == j
  {
    assert rows[x][i] in rows[x] && rows[y][j] in rows[y];
    assert x == y && i < j ==> rows[x][i] != rows[x][j];
    assert x == y && j < i ==> rows[x][j] != rows[x][i];
  }

  /** If someone has no place, not all have one, and everyone who has one is worth as much. */
  lemma LeftOverLeast(a: seq<Member>, rows: seq<seq<int>>, x: nat, i: nat, v: nat)
    requires Partitioned(rows, |a|) && BestHeld(a, rows) && x < |rows| && i < |rows[x]| && v < |a|
    requires forall z :: 0 <= z < |rows| ==> v !in rows[z]
    ensures !AllHeld(rows, |a|)
    ensures 0 <= rows[x][i] < |a| && TotalRep(a[v].totalRep) <= TotalRep(a[rows[x][i]].totalRep)
  {
    assert rows[x][i] in rows[x];
    assert Held(rows, rows[x][i]) && !Held(rows, v);
  }

  /** No shard leads another by more than two members differ at most. */
  lemma LeadsWithinSpread(a: seq<Member>, rows: seq<seq<int>>, x: nat, y: nat, d: int)
    requires forall z, i :: 0 <= z < |rows| && 0 <= i < |rows[z]| ==> 0 <= rows[z][i] < |a|
    requires Balanced(a, rows) && x < |rows| && y < |rows|
    requires forall u, w :: 0 <= u < |a| && 0 <= w < |a| ==> TotalRep(a[u].totalRep) - TotalRep(a[w].totalRep) <= d
    ensures RowRep(a, rows[x]) - RowRep(a, rows[y]) <= d
  {
    assert SpreadAtMost(a, d);
  }

  lemma {:induction false} RowRepAdds(a: seq<Member>, s: seq<int>, t: seq<int>)
    requires forall i :: 0 <= i < |s + t| ==> 0 <= (s + t)[i] < |a|
    requires forall i :: 0 <= i < |s| ==> 0 <= s[i] < |a|
    requires forall i :: 0 <= i < |t| ==> 0 <= t[i] < |a|
    ensures RowRep(a, s + t) == RowRep(a, s) + RowRep(a, t)
    ensures forall v :: 0 <= v < |a| ==> RowRep(a, [v]) == TotalRep(a[v].totalRep)
  {
    forall v | 0 <= v < |a|
      ensures RowRep(a, [v]) == TotalRep(a[v].totalRep)
    {
      assert RowRep(a, [v][..0]) == 0;
    }
    if t == [] {
      assert s + t == s;
    } else {
      var u := t[..|t| - 1];
      assert (s + t)[..|s + t| - 1] == s + u;
      RowRepAdds(a, s, u);
    }
  }
}
