/** Drawing shards for ranked members, with redraws on a collision (shard/shard_func.go:105-118). */
module ShardDraws {
  import opened MachineInt
  import opened Congruence
  import opened Bytes
  import opened Powers
  import opened TwosComplement
  import opened Outcomes

  /** The shard drawn for a member: a random number mixed with the member's reputation. */
  function Draw(random: int64, rep: int64, shards: nat): (x: nat)
    requires shards > 0
    ensures x < shards
  {
    (Xor(random, rep) % 0x1_0000_0000) % shards
  }

  lemma XorOf64(x: int64, y: int64)
    ensures -0x8000_0000_0000_0000 <= Xor(x, y) < 0x8000_0000_0000_0000
  {
    Int32Range();
    Pow2Join(31, 31, 0x8000_0000, 0x8000_0000);
    assert Pow2(63) == 2 * Pow2(62);
    XorRange(x, y, 63);
  }

  /** Any number can come out of the mixing, for any reputation, and its low 32 bits decide.  Random numbers are not
      negative, so that the sign that comes out is that of the reputation. */
  lemma AnyDraw(k: int64, rep: int64, shards: nat) returns (random: int64)
    requires shards > 0
    ensures random == Xor(k, rep) && Draw(random, rep, shards) == k % 0x1_0000_0000 % shards
    ensures random >= 0 <==> (k >= 0 <==> rep >= 0)
  {
    XorOf64(k, rep);
    random := Xor(k, rep);
    XorCommutes(random, rep);
    XorCommutes(k, rep);
    XorCancel(rep, k);
    XorSign(k, rep);
  }

  /** Where in the draws a column is full, if they reach so far.  `taken` are the shards that have their member; the
      next is drawn for the member whose reputation is reps[base + |taken|]. */
  function ColumnEnd(draws: seq<int64>, pos: nat, reps: seq<int64>, base: nat, shards: nat, taken: seq<nat>)
    : Option<nat>
    requires shards > 0 && pos <= |draws| && |taken| <= shards && base + shards <= |reps|
    decreases |draws| - pos
  {
    if |taken| == shards then Some(pos)
    else if pos == |draws| then None
    else
      var x := Draw(draws[pos], reps[base + |taken|], shards);
      ColumnEnd(draws, pos + 1, reps, base, shards, if x in taken then taken else taken + [x])
  }

  /** ... beginning with none. */
  function EndOf(draws: seq<int64>, pos: nat, reps: seq<int64>, base: nat, shards: nat): Option<nat>
    requires shards > 0 && pos <= |draws| && base + shards <= |reps|
  {
    ColumnEnd(draws, pos, reps, base, shards, [])
  }

  /** The shards that have their member after the draws from `start` to `pos`. */
  function TakenAfter(draws: seq<int64>, start: nat, pos: nat, reps: seq<int64>, base: nat, shards: nat): (t: seq<nat>)
    requires shards > 0 && start <= pos <= |draws| && base + shards <= |reps|
    ensures |t| <= shards
    decreases pos
  {
    if pos == start then []
    else
      var t := TakenAfter(draws, start, pos - 1, reps, base, shards);
      if |t| == shards then t
      else
        var x := Draw(draws[pos - 1], reps[base + |t|], shards);
        if x in t then t else t + [x]
  }

  /** So far t is taken, and no draw was made in vain. */
  predicate Progress(draws: seq<int64>, start: nat, pos: nat, reps: seq<int64>, base: nat, shards: nat, t: seq<nat>)
    requires shards > 0 && start <= pos <= |draws| && base + shards <= |reps|
  {
    && t == TakenAfter(draws, start, pos, reps, base, shards)
    && (pos > start ==> |TakenAfter(draws, start, pos - 1, reps, base, shards)| < shards)
  }

  lemma OneDraw(draws: seq<int64>, start: nat, pos: nat, reps: seq<int64>, base: nat, shards: nat, t: seq<nat>, x: nat)
    requires shards > 0 && start <= pos < |draws| && base + shards <= |reps|
    requires Progress(draws, start, pos, reps, base, shards, t) && |t| < shards
    requires x == Draw(draws[pos], reps[base + |t|], shards)
    ensures Progress(draws, start, pos + 1, reps, base, shards, if x in t then t else t + [x])
  {
  }

  lemma ProgressEnds(draws: seq<int64>, start: nat, pos: nat, reps: seq<int64>, base: nat, shards: nat, t: seq<nat>)
    requires shards > 0 && start <= pos <= |draws| && base + shards <= |reps|
    requires Progress(draws, start, pos, reps, base, shards, t)
    ensures |t| == shards ==> EndOf(draws, start, reps, base, shards) == Some(pos)
    ensures |t| < shards && pos == |draws| ==> EndOf(draws, start, reps, base, shards) == None
  {
    EndFromTaken(draws, start, pos, reps, base, shards);
  }

  /** While the column is not full, what is to come does not depend on how far the draws are. */
  lemma {:induction false} EndFromTaken(draws: seq<int64>, start: nat, pos: nat, reps: seq<int64>, base: nat,
                                        shards: nat)
    requires shards > 0 && start <= pos <= |draws| && base + shards <= |reps|
    requires pos > start ==> |TakenAfter(draws, start, pos - 1, reps, base, shards)| < shards
    ensures EndOf(draws, start, reps, base, shards)
         == ColumnEnd(draws, pos, reps, base, shards, TakenAfter(draws, start, pos, reps, base, shards))
    decreases pos
  {
    if pos > start {
      var t := TakenAfter(draws, start, pos - 1, reps, base, shards);
      TakenGrows(draws, start, pos - 1, reps, base, shards);
      EndFromTaken(draws, start, pos - 1, reps, base, shards);
      DrawnInto(draws, pos - 1, reps, base, shards, t, Draw(draws[pos - 1], reps[base + |t|], shards));
    }
  }

  lemma DrawnInto(draws: seq<int64>, pos: nat, reps: seq<int64>, base: nat, shards: nat, t: seq<nat>, x: nat)
    requires shards > 0 && pos < |draws| && |t| < shards && base + shards <= |reps|
    requires x == Draw(draws[pos], reps[base + |t|], shards)
    ensures ColumnEnd(draws, pos, reps, base, shards, t)
         == ColumnEnd(draws, pos + 1, reps, base, shards, if x in t then t else t + [x])
  {
  }

  lemma TakenGrows(draws: seq<int64>, start: nat, pos: nat, reps: seq<int64>, base: nat, shards: nat)
    requires shards > 0 && start <= pos <= |draws| && base + shards <= |reps|
    requires |TakenAfter(draws, start, pos, reps, base, shards)| < shards
    ensures pos > start ==> |TakenAfter(draws, start, pos - 1, reps, base, shards)| < shards
  {
  }

  /** Where in the draws the columns from i to n are full. */
  function AssignEnd(draws: seq<int64>, pos: nat, reps: seq<int64>, shards: nat, i: nat, n: nat): (end: Option<nat>)
    requires shards > 0 && pos <= |draws| && i <= n && n * shards <= |reps|
    ensures end.Some? ==> end.value <= |draws|
    decreases n - i
  {
    if i == n then Some(pos)
    else
      RoomForColumn(i, n, shards);
      ColumnEndWithin(draws, pos, reps, i * shards, shards, []);
      match EndOf(draws, pos, reps, i * shards, shards)
      case None => None
      case Some(p) => AssignEnd(draws, p, reps, shards, i + 1, n)
  }

  lemma {:induction false} ColumnEndWithin(draws: seq<int64>, pos: nat, reps: seq<int64>, base: nat, shards: nat,
                                           taken: seq<nat>)
    requires shards > 0 && pos <= |draws| && |taken| <= shards && base + shards <= |reps|
    ensures var end := ColumnEnd(draws, pos, reps, base, shards, taken); end.Some? ==> pos <= end.value <= |draws|
    decreases |draws| - pos
  {
    if |taken| < shards && pos < |draws| {
      var x := Draw(draws[pos], reps[base + |taken|], shards);
      ColumnEndWithin(draws, pos + 1, reps, base, shards, if x in taken then taken else taken + [x]);
    }
  }

  lemma RoomForColumn(i: nat, n: nat, c: nat)
    requires i < n
    ensures i * c + c <= n * c
    ensures i * c + c == (i + 1) * c
  {
  }

  lemma DrawNext(rep: int64, shards: nat, k: nat) returns (random: int64)
    requires k < shards < 0x1_0000_0000
    ensures random >= 0 && Draw(random, rep, shards) == k
  {
    random := AnyDraw(if rep >= 0 then k else k - 0x8000_0000_0000_0000, rep, shards);
    DivModUnique(k, 0, k, 0x1_0000_0000);
    DivModUnique(k - 0x8000_0000_0000_0000, -0x8000_0000, k, 0x1_0000_0000);
    DivModUnique(k, 0, k, shards);
  }

  lemma TakenNext(draws: seq<int64>, pos: nat, reps: seq<int64>, base: nat, shards: nat, taken: seq<nat>)
    requires shards > 0 && pos < |draws| && |taken| < shards && base + shards <= |reps|
    requires |taken| !in taken && Draw(draws[pos], reps[base + |taken|], shards) == |taken|
    ensures ColumnEnd(draws, pos, reps, base, shards, taken)
         == ColumnEnd(draws, pos + 1, reps, base, shards, taken + [|taken|])
  {
  }

  /** Draws that suffice for a column: those of the shards from |taken| on, in order. */
  lemma {:induction false} ColumnDraws(pre: seq<int64>, reps: seq<int64>, base: nat, shards: nat, taken: seq<nat>)
    returns (more: seq<int64>)
    requires 0 < shards < 0x1_0000_0000 && |taken| <= shards && base + shards <= |reps|
    requires forall k :: 0 <= k < |taken| ==> taken[k] == k
    ensures forall rest :: ColumnEnd(pre + more + rest, |pre|, reps, base, shards, taken) == Some(|pre| + |more|)
    ensures forall k :: 0 <= k < |more| ==> more[k] >= 0
    decreases shards - |taken|
  {
    if |taken| == shards {
      more := [];
    } else {
      var r := DrawNext(reps[base + |taken|], shards, |taken|);
      var tail := ColumnDraws(pre + [r], reps, base, shards, taken + [|taken|]);
      more := [r] + tail;
      forall rest
        ensures ColumnEnd(pre + more + rest, |pre|, reps, base, shards, taken) == Some(|pre| + |more|)
      {
        var draws := pre + [r] + tail + rest;
        assert pre + more + rest == draws && draws[|pre|] == r;
        TakenNext(draws, |pre|, reps, base, shards, taken);
      }
    }
  }

  /** For every ranking some draws, none negative, fill all places: one for each. */
  lemma {:induction false} SomeDrawsFinish(pre: seq<int64>, reps: seq<int64>, shards: nat, i: nat, n: nat)
    returns (more: seq<int64>)
    requires 0 < shards < 0x1_0000_0000 && i <= n && n * shards <= |reps|
    ensures AssignEnd(pre + more, |pre|, reps, shards, i, n).Some?
    ensures forall k :: 0 <= k < |more| ==> more[k] >= 0
    decreases n - i
  {
    if i == n {
      more := [];
    } else {
      RoomForColumn(i, n, shards);
      var column := ColumnDraws(pre, reps, i * shards, shards, []);
      var tail := SomeDrawsFinish(pre + column, reps, shards, i + 1, n);
      more := column + tail;
      assert pre + more == pre + column + tail;
    }
  }
}
