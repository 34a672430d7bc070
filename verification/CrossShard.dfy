/** The decision on a cross-shard transaction (rccache/txDatabase.go:9-123). */
module CrossShard {
  datatype Out = Out(shard: nat, value: nat)

  datatype Transaction = Transaction(ins: seq<nat>, outs: seq<Out>)

  predicate WellFormed(tx: Transaction, shards: nat) {
    && (forall i :: 0 <= i < |tx.ins| ==> tx.ins[i] < shards)
    && forall i :: 0 <= i < |tx.outs| ==> tx.outs[i].shard < shards
  }

  predicate IsInput(tx: Transaction, i: nat) {
    i in tx.ins
  }

  predicate IsOutput(tx: Transaction, i: nat) {
    exists k :: 0 <= k < |tx.outs| && tx.outs[k].shard == i
  }

  /** The outputs' values, in 32 bits. */
  function Worth(outs: seq<Out>, start: nat): nat {
    if outs == [] then start else (Worth(outs[..|outs| - 1], start) + outs[|outs| - 1].value) % 0x1_0000_0000
  }

  /** The value is a running sum in 32 bits. */
  lemma {:induction false} WorthAdds(a: seq<Out>, b: seq<Out>, o: Out, start: nat)
    ensures Worth([o], start) == (start + o.value) % 0x1_0000_0000
    ensures Worth(a + b, start) == Worth(b, Worth(a, start))
  {
    assert Worth([], start) == start && [o][..0] == [];
    if b == [] {
      assert a + b == a;
    } else {
      var n := |b| - 1;
      WorthAdds(a, b[..n], o, start);
      assert (a + b)[..|a| + n] == a + b[..n];
    }
  }

  /** The shards below n that the transaction touches. */
  function Related(tx: Transaction, n: nat): seq<nat> {
    if n == 0 then []
    else Related(tx, n - 1) + (if IsInput(tx, n - 1) || IsOutput(tx, n - 1) then [n - 1] else [])
  }

  /** The shards with an input or an output, each once and in order. */
  lemma {:induction false} RelatedExactly(tx: Transaction, n: nat)
    ensures var r := Related(tx, n);
      && (forall i: nat :: i in r <==>
          i < n && (i in tx.ins || exists k :: 0 <= k < |tx.outs| && tx.outs[k].shard == i))
      && forall j, k :: 0 <= j < k < |r| ==> r[j] < r[k]
  {
    if n > 0 {
      RelatedExactly(tx, n - 1);
      var r := Related(tx, n - 1);
      assert forall j :: 0 <= j < |r| ==> r[j] in r;
    }
  }

  /** How many of the inputs below n are open or negative. */
  function PendingInputs(tx: Transaction, check: seq<int>, n: nat): nat
    requires n <= |check|
  {
    if n == 0 then 0 else PendingInputs(tx, check, n - 1) + (if IsInput(tx, n - 1) && check[n - 1] > 1 then 1 else 0)
  }

  lemma {:induction false} PendingCounts(tx: Transaction, check: seq<int>, n: nat)
    requires n <= |check|
    ensures PendingInputs(tx, check, n) == |set i | 0 <= i < n && i in tx.ins && check[i] > 1|
  {
    if n > 0 {
      PendingCounts(tx, check, n - 1);
      var s := set i | 0 <= i < n - 1 && i in tx.ins && check[i] > 1;
      var t := set i | 0 <= i < n && i in tx.ins && check[i] > 1;
      if n - 1 in tx.ins && check[n - 1] > 1 {
        assert t == s + {n - 1};
      } else {
        assert t == s;
      }
    }
  }

  function Yeses(check: seq<int>, n: nat): (k: nat)
    requires n <= |check|
    ensures k <= n
  {
    if n == 0 then 0 else Yeses(check, n - 1) + (if check[n - 1] == 1 then 1 else 0)
  }

  /** The fields of a decision other than Decision, Total and Visible. */
  datatype State = State(hasData: bool, inCheck: seq<int>, inCheckSum: int, res: int, shardRelated: seq<nat>,
      value: nat)

  /** The checks once the transaction is known: 1 and 2 for a yes and a no, 3 for an input not heard from,
      -1 for an output only. */
  function KnownCheck(tx: Transaction, check: seq<int>): (r: seq<int>)
    ensures |r| == |check|
  {
    seq(|check|, i requires 0 <= i < |check| =>
      if IsInput(tx, i) then (if check[i] == 0 then 3 else check[i])
      else if IsOutput(tx, i) then -1
      else check[i])
  }

  function New(tx: Transaction, shards: nat, value: nat): State {
    var check := KnownCheck(tx, seq(shards, i => 0));
    State(true, check, PendingInputs(tx, check, shards), 0, Related(tx, shards), Worth(tx.outs, value))
  }

  function Update(s: State, tx: Transaction): State {
    var check := KnownCheck(tx, s.inCheck);
    var n := |check|;
    var sum := PendingInputs(tx, check, n);
    State(true, check, sum,
          if sum == 0 then 1 else if exists i :: 0 <= i < n && IsInput(tx, i) && check[i] == 2 then -1 else s.res,
          Related(tx, n), Worth(tx.outs, s.value))
  }

  function NewFromOther(shards: nat, index: nat, res: bool, value: nat, related: seq<nat>): State
    requires index < shards
  {
    var none := seq(shards, i => 0);
    if res then State(false, none[index := 1], shards - 1, 0, related, value)
    else State(false, none[index := 2], shards, -1, related, value)
  }

  function UpdateFromOther(s: State, index: nat, res: bool): State
    requires index < |s.inCheck|
  {
    var open := s.inCheck[index] == 3 || (s.inCheck[index] == 0 && !s.hasData);
    if res then
      if !open then s
      else s.(inCheck := s.inCheck[index := 1], inCheckSum := s.inCheckSum - 1,
              res := if s.inCheckSum - 1 == 0 then 1 else s.res)
    else
      s.(inCheck := if open then s.inCheck[index := 2] else s.inCheck, res := -1)
  }

  class CrossShardDec {
    var hasData: bool
    var inCheck: seq<int>
    var inCheckSum: int
    var total: int
    var res: int
    var shardRelated: seq<nat>
    var value: nat
    const shards: nat

    function Abstract(): State
      reads this
    {
      State(hasData, inCheck, inCheckSum, res, shardRelated, value)
    }

    constructor (shards: nat)
      ensures this.shards == shards && total == 0 && Abstract() == State(false, [], 0, 0, [], 0)
    {
      this.shards := shards;
      hasData, inCheck, inCheckSum, total, res, shardRelated, value := false, [], 0, 0, 0, [], 0;
    }

    /** A transaction that no report preceded. */
    method NewDecision(tx: Transaction)
      requires WellFormed(tx, shards)
      modifies this
      ensures Abstract() == New(tx, shards, old(value)) && total == inCheckSum
    {
      hasData, res := true, 0;
      var tmp;
      inCheck, tmp, value := MarkNew(tx, shards, value);
      shardRelated, inCheckSum := Summarize(tx, inCheck, tmp);
      total := inCheckSum;
    }

    /** A transaction after reports. */
    method UpdateDecision(tx: Transaction)
      requires |inCheck| == shards && WellFormed(tx, shards)
      modifies this
      ensures Abstract() == Update(old(Abstract()), tx) && total == inCheckSum
    {
      hasData := true;
      var tmp;
      ghost var before := inCheck;
      tmp, inCheck, value := MarkUpdate(tx, inCheck, value);
      inCheck, shardRelated, inCheckSum, res := Settle(tx, before, inCheck, tmp, res);
      total := inCheckSum;
      if inCheckSum == 0 {
        res := 1;
      }
    }

    method NewDecisionFromOther(index: nat, r: bool)
      requires index < shards
      modifies this
      ensures Abstract() == NewFromOther(shards, index, r, old(value), old(shardRelated)) && total == shards - 1
    {
      hasData, res := false, 0;
      inCheck := seq(shards, i => 0);
      total := shards - 1;
      if r {
        inCheck := inCheck[index := 1];
        inCheckSum := shards - 1;
      } else {
        res := -1;
        inCheck := inCheck[index := 2];
        inCheckSum := shards;
      }
    }

    method Report(index: nat, r: bool)
      requires |inCheck| == shards && index < shards
      modifies this
      ensures Abstract() == UpdateFromOther(old(Abstract()), index, r)
      ensures old(inCheck[index] == 3 || (inCheck[index] == 0 && !hasData)) ==> total == old(total) - 1
      ensures old(inCheck[index] != 3 && (inCheck[index] != 0 || hasData)) ==> total == old(total)
    {
      if r {
        if inCheck[index] == 3 || (inCheck[index] == 0 && !hasData) {
          inCheck := inCheck[index := 1];
          inCheckSum := inCheckSum - 1;
          if inCheckSum == 0 {
            res := 1;
          }
          total := total - 1;
        }
      } else {
        if inCheck[index] == 3 || (inCheck[index] == 0 && !hasData) {
          inCheck := inCheck[index := 2];
          total := total - 1;
        }
        res := -1;
      }
    }
  }

  /** The loops over outputs and inputs for a new decision. */
  method MarkNew(tx: Transaction, shards: nat, v: nat) returns (inCheck: seq<int>, tmp: seq<bool>, value: nat)
    requires WellFormed(tx, shards)
    ensures inCheck == KnownCheck(tx, seq(shards, i => 0)) && value == Worth(tx.outs, v)
    ensures |tmp| == shards && forall x :: 0 <= x < shards ==> tmp[x] == (IsOutput(tx, x) || IsInput(tx, x))
  {
    inCheck, tmp, value := seq(shards, i => 0), seq(shards, i => false), v;
    for i := 0 to |tx.outs|
      invariant |inCheck| == |tmp| == shards && value == Worth(tx.outs[..i], v)
      invariant forall x :: 0 <= x < shards ==> tmp[x] == IsOutput(tx.(outs := tx.outs[..i]), x)
      invariant forall x :: 0 <= x < shards ==> inCheck[x] == if tmp[x] then -1 else 0
    {
      OutputMore(tx, i, shards);
      assert tx.outs[..i + 1][..i] == tx.outs[..i];
      var xx := tx.outs[i].shard;
      tmp := tmp[xx := true];
      value := (value + tx.outs[i].value) % 0x1_0000_0000;
      inCheck := inCheck[xx := -1];
    }
    assert tx.outs[..|tx.outs|] == tx.outs;
    for i := 0 to |tx.ins|
      invariant |inCheck| == |tmp| == shards
      invariant forall x :: 0 <= x < shards ==> tmp[x] == (IsOutput(tx, x) || x in tx.ins[..i])
      invariant forall x :: 0 <= x < shards ==>
          inCheck[x] == if x in tx.ins[..i] then 3 else if IsOutput(tx, x) then -1 else 0
    {
      var xx := tx.ins[i];
      tmp := tmp[xx := true];
      inCheck := inCheck[xx := 3];
    }
  }

  /** The loop over the shards for a new decision. */
  method Summarize(tx: Transaction, inCheck: seq<int>, tmp: seq<bool>) returns (related: seq<nat>, sum: nat)
    requires |tmp| == |inCheck| && inCheck == KnownCheck(tx, seq(|inCheck|, i => 0))
    requires forall x :: 0 <= x < |tmp| ==> tmp[x] == (IsOutput(tx, x) || IsInput(tx, x))
    ensures related == Related(tx, |inCheck|) && sum == PendingInputs(tx, inCheck, |inCheck|)
  {
    related, sum := [], 0;
    for i := 0 to |inCheck|
      invariant related == Related(tx, i) && sum == PendingInputs(tx, inCheck, i)
    {
      if tmp[i] {
        related := related + [i];
      }
      if inCheck[i] == 3 {
        sum := sum + 1;
      }
    }
  }

  /** The loops over outputs and inputs of a late transaction: tmp is 1 for an output, 2 for an input. */
  method MarkUpdate(tx: Transaction, check: seq<int>, v: nat) returns (tmp: seq<int>, inCheck: seq<int>, value: nat)
    requires WellFormed(tx, |check|)
    ensures |tmp| == |inCheck| == |check| && value == Worth(tx.outs, v)
    ensures forall x :: 0 <= x < |check| ==> tmp[x] == if IsInput(tx, x) then 2 else if IsOutput(tx, x) then 1 else 0
    ensures forall x :: 0 <= x < |check| ==> inCheck[x] == if IsInput(tx, x) && check[x] == 0 then 3 else check[x]
  {
    var shards := |check|;
    tmp, inCheck, value := seq(shards, i => 0), check, v;
    for i := 0 to |tx.outs|
      invariant |tmp| == shards && value == Worth(tx.outs[..i], v)
      invariant forall x :: 0 <= x < shards ==> tmp[x] == if IsOutput(tx.(outs := tx.outs[..i]), x) then 1 else 0
    {
      OutputMore(tx, i, shards);
      assert tx.outs[..i + 1][..i] == tx.outs[..i];
      tmp := tmp[tx.outs[i].shard := 1];
      value := (value + tx.outs[i].value) % 0x1_0000_0000;
    }
    assert tx.outs[..|tx.outs|] == tx.outs;
    for i := 0 to |tx.ins|
      invariant |inCheck| == |tmp| == shards
      invariant forall x :: 0 <= x < shards ==>
          tmp[x] == if x in tx.ins[..i] then 2 else if IsOutput(tx, x) then 1 else 0
      invariant forall x :: 0 <= x < shards ==> inCheck[x] == if x in tx.ins[..i] && check[x] == 0 then 3 else check[x]
    {
      var xx := tx.ins[i];
      tmp := tmp[xx := 2];
      if inCheck[xx] == 0 {
        inCheck := inCheck[xx := 3];
      }
    }
  }

  /** The loop over the shards of a late transaction. */
  method Settle(tx: Transaction, ghost check: seq<int>, marked: seq<int>, tmp: seq<int>, r: int)
    returns (inCheck: seq<int>, related: seq<nat>, sum: nat, res: int)
    requires |tmp| == |marked| == |check|
    requires forall x :: 0 <= x < |check| ==> tmp[x] == if IsInput(tx, x) then 2 else if IsOutput(tx, x) then 1 else 0
    requires forall x :: 0 <= x < |check| ==> marked[x] == if IsInput(tx, x) && check[x] == 0 then 3 else check[x]
    ensures inCheck == KnownCheck(tx, check) && related == Related(tx, |check|)
    ensures sum == PendingInputs(tx, inCheck, |check|)
    ensures res == if exists i :: 0 <= i < |check| && IsInput(tx, i) && inCheck[i] == 2 then -1 else r
  {
    inCheck, related, sum, res := marked, [], 0, r;
    for i := 0 to |tmp|
      invariant |inCheck| == |check| && related == Related(tx, i) && sum == PendingInputs(tx, KnownCheck(tx, check), i)
      invariant forall x :: 0 <= x < |check| ==> inCheck[x] == if x < i then KnownCheck(tx, check)[x] else marked[x]
      invariant res == if exists k :: 0 <= k < i && IsInput(tx, k) && inCheck[k] == 2 then -1 else r
    {
      if tmp[i] != 0 {
        related := related + [i];
        if tmp[i] == 1 {
          inCheck := inCheck[i := -1];
        } else if inCheck[i] > 1 {
          if inCheck[i] == 2 {
            res := -1;
          }
          sum := sum + 1;
        }
      }
    }
  }

  lemma OutputMore(tx: Transaction, i: nat, shards: nat)
    requires i < |tx.outs|
    ensures forall x :: 0 <= x < shards ==>
      (IsOutput(tx.(outs := tx.outs[..i + 1]), x) <==> IsOutput(tx.(outs := tx.outs[..i]), x) || x == tx.outs[i].shard)
  {
    var a, b := tx.(outs := tx.outs[..i]), tx.(outs := tx.outs[..i + 1]);
    forall x | 0 <= x < shards
      ensures IsOutput(b, x) <==> IsOutput(a, x) || x == tx.outs[i].shard
    {
      if x == tx.outs[i].shard {
        assert b.outs[i].shard == x;
      }
      if IsOutput(a, x) {
        var k :| 0 <= k < |a.outs| && a.outs[k].shard == x;
        assert b.outs[k].shard == x;
      }
    }
  }

  // any order of events

  datatype Event = Arrive | Said(shard: nat, yes: bool)

  /** The first event creates the decision, later ones update it. */
  function Run(tx: Transaction, shards: nat, events: seq<Event>): (s: State)
    requires events != [] && forall k :: 0 <= k < |events| && events[k].Said? ==> events[k].shard < shards
    ensures |s.inCheck| == shards
  {
    var n := |events| - 1;
    match events[n]
    case Arrive =>
      if n == 0 then New(tx, shards, 0) else Update(Run(tx, shards, events[..n]), tx)
    case Said(i, yes) =>
      if n == 0 then NewFromOther(shards, i, yes, 0, []) else UpdateFromOther(Run(tx, shards, events[..n]), i, yes)
  }

  /** Only inputs report, each always the same. */
  predicate Honest(tx: Transaction, says: seq<bool>, events: seq<Event>) {
    forall k :: 0 <= k < |events| && events[k].Said? ==>
      IsInput(tx, events[k].shard) && events[k].shard < |says| && events[k].yes == says[events[k].shard]
  }

  /** What each shard has said: 0 nothing, 1 yes, 2 no. */
  function Heard(says: seq<bool>, events: seq<Event>): (h: seq<int>)
    ensures |h| == |says|
  {
    seq(|says|, i requires 0 <= i < |says| => if Said(i, says[i]) in events then (if says[i] then 1 else 2) else 0)
  }

  predicate SaidNo(heard: seq<int>) {
    exists i :: 0 <= i < |heard| && heard[i] == 2
  }

  /** The one outcome of all orders. */
  function Outcome(tx: Transaction, heard: seq<int>): State {
    var check := KnownCheck(tx, heard);
    var sum := PendingInputs(tx, check, |check|);
    State(true, check, sum, if SaidNo(heard) then -1 else if sum == 0 then 1 else 0, Related(tx, |check|),
        Worth(tx.outs, 0))
  }

  /** A decision that knows reports only. */
  predicate Awaiting(s: State, heard: seq<int>) {
    && !s.hasData && s.inCheck == heard && s.inCheckSum == |heard| - Yeses(heard, |heard|)
    && s.value == 0
    && (if SaidNo(heard) then s.res == -1
        else s.res == 0 || (s.res == 1 && Yeses(heard, |heard|) == |heard|))
  }

  lemma {:induction false} YesesUpdate(check: seq<int>, i: nat, v: int, n: nat)
    requires i < n <= |check|
    ensures Yeses(check[i := v], n) == Yeses(check, n) + (if v == 1 then 1 else 0) - (if check[i] == 1 then 1 else 0)
  {
    if i < n - 1 {
      YesesUpdate(check, i, v, n - 1);
    } else {
      YesesSame(check, check[i := v], n - 1);
    }
  }

  lemma {:induction false} YesesSame(a: seq<int>, b: seq<int>, n: nat)
    requires n <= |a| == |b| && forall k :: 0 <= k < n ==> a[k] == b[k]
    ensures Yeses(a, n) == Yeses(b, n)
  {
    if n > 0 {
      YesesSame(a, b, n - 1);
    }
  }

  lemma {:induction false} AllYes(check: seq<int>, n: nat)
    requires n <= |check|
    ensures Yeses(check, n) == n <==> forall k :: 0 <= k < n ==> check[k] == 1
  {
    if n > 0 {
      AllYes(check, n - 1);
    }
  }

  lemma {:induction false} NoneYes(check: seq<int>, n: nat)
    requires n <= |check| && forall k :: 0 <= k < n ==> check[k] == 0
    ensures Yeses(check, n) == 0
  {
    if n > 0 {
      NoneYes(check, n - 1);
    }
  }

  lemma {:induction false} PendingUpdate(tx: Transaction, check: seq<int>, i: nat, v: int, n: nat)
    requires i < n <= |check| && IsInput(tx, i)
    ensures PendingInputs(tx, check[i := v], n)
         == PendingInputs(tx, check, n) + (if v > 1 then 1 else 0) - (if check[i] > 1 then 1 else 0)
  {
    if i < n - 1 {
      PendingUpdate(tx, check, i, v, n - 1);
    } else {
      PendingSame(tx, check, check[i := v], n - 1);
    }
  }

  lemma {:induction false} PendingSame(tx: Transaction, a: seq<int>, b: seq<int>, n: nat)
    requires n <= |a| == |b| && forall k :: 0 <= k < n ==> a[k] == b[k]
    ensures PendingInputs(tx, a, n) == PendingInputs(tx, b, n)
  {
    if n > 0 {
      PendingSame(tx, a, b, n - 1);
    }
  }

  lemma {:induction false} PendingZero(tx: Transaction, check: seq<int>, n: nat)
    requires n <= |check|
    ensures PendingInputs(tx, check, n) == 0 <==> forall k :: 0 <= k < n && IsInput(tx, k) ==> check[k] <= 1
  {
    if n > 0 {
      PendingZero(tx, check, n - 1);
    }
  }

  predicate Answers(heard: seq<int>) {
    forall i :: 0 <= i < |heard| ==> 0 <= heard[i] <= 2
  }

  /** Arrival after reports. */
  lemma ArriveLate(s: State, tx: Transaction, heard: seq<int>)
    requires Awaiting(s, heard) && Answers(heard)
    requires forall i :: 0 <= i < |heard| && heard[i] != 0 ==> IsInput(tx, i)
    ensures Update(s, tx) == Outcome(tx, heard)
  {
    var check := KnownCheck(tx, heard);
    PendingZero(tx, check, |check|);
    AllYes(heard, |heard|);
    if SaidNo(heard) {
      var i :| 0 <= i < |heard| && heard[i] == 2;
      assert IsInput(tx, i) && check[i] == 2;
    }
  }

  /** A report before the transaction. */
  lemma ReportEarly(s: State, heard: seq<int>, i: nat, yes: bool)
    requires Awaiting(s, heard) && Answers(heard) && i < |heard|
    requires heard[i] == 0 || heard[i] == if yes then 1 else 2
    ensures Awaiting(UpdateFromOther(s, i, yes), heard[i := if yes then 1 else 2])
  {
    var after := heard[i := if yes then 1 else 2];
    YesesUpdate(heard, i, if yes then 1 else 2, |heard|);
    AllYes(heard, |heard|);
    if !yes {
      assert after[i] == 2;
    }
    if heard[i] != 0 {
      assert after == heard;
    } else if SaidNo(heard) {
      var k :| 0 <= k < |heard| && heard[k] == 2;
      assert after[k] == 2;
      AllYes(after, |after|);
    }
  }

  /** A report after the transaction. */
  lemma ReportLate(tx: Transaction, heard: seq<int>, i: nat, yes: bool)
    requires Answers(heard) && i < |heard| && IsInput(tx, i)
    requires forall k :: 0 <= k < |heard| && heard[k] != 0 ==> IsInput(tx, k)
    requires heard[i] == 0 || heard[i] == if yes then 1 else 2
    ensures UpdateFromOther(Outcome(tx, heard), i, yes) == Outcome(tx, heard[i := if yes then 1 else 2])
  {
    var v := if yes then 1 else 2;
    var after, check := heard[i := v], KnownCheck(tx, heard);
    assert KnownCheck(tx, after) == check[i := v];
    PendingUpdate(tx, check, i, v, |check|);
    PendingZero(tx, check[i := v], |check|);
    if !yes {
      assert after[i] == 2;
    }
    if heard[i] != 0 {
      assert after == heard;
    } else if SaidNo(heard) {
      var k :| 0 <= k < |heard| && heard[k] == 2;
      assert after[k] == 2 && IsInput(tx, k) && KnownCheck(tx, after)[k] == 2;
    }
  }

  predicate OneArrival(events: seq<Event>) {
    Arrivals(events) == 1
  }

  function Arrivals(events: seq<Event>): nat {
    if events == [] then 0 else Arrivals(events[..|events| - 1]) + (if events[|events| - 1].Arrive? then 1 else 0)
  }

  lemma HeardMore(says: seq<bool>, events: seq<Event>, e: Event)
    ensures Heard(says, events + [e])
         == if e.Said? && e.shard < |says| && e.yes == says[e.shard]
            then Heard(says, events)[e.shard := if e.yes then 1 else 2] else Heard(says, events)
  {
  }

  lemma HeardFacts(tx: Transaction, says: seq<bool>, events: seq<Event>)
    requires Honest(tx, says, events)
    ensures Answers(Heard(says, events))
    ensures forall i :: 0 <= i < |says| && Heard(says, events)[i] != 0 ==> IsInput(tx, i)
  {
  }

  /** Until the transaction arrives the decision awaits it; from then on it is the one outcome. */
  lemma {:induction false} RunReaches(tx: Transaction, says: seq<bool>, events: seq<Event>)
    requires WellFormed(tx, |says|) && tx.ins != [] && Honest(tx, says, events) && events != []
    ensures Arrivals(events) == 0 ==> Awaiting(Run(tx, |says|, events), Heard(says, events))
    ensures Arrivals(events) == 1 ==> Run(tx, |says|, events) == Outcome(tx, Heard(says, events))
  {
    var n := |events| - 1;
    var before, e := events[..n], events[n];
    assert events == before + [e];
    HeardMore(says, before, e);
    HeardFacts(tx, says, before);
    if n == 0 {
      RunBegins(tx, says, e);
      assert events == [e] && before == [];
    } else {
      RunReaches(tx, says, before);
      var heard := Heard(says, before);
      if e.Arrive? {
        if Arrivals(before) == 0 {
          ArriveLate(Run(tx, |says|, before), tx, heard);
        }
      } else if Arrivals(before) == 0 {
        ReportEarly(Run(tx, |says|, before), heard, e.shard, e.yes);
      } else if Arrivals(before) == 1 {
        ReportLate(tx, heard, e.shard, e.yes);
      }
    }
  }

  lemma RunBegins(tx: Transaction, says: seq<bool>, e: Event)
    requires WellFormed(tx, |says|) && tx.ins != [] && Honest(tx, says, [e])
    ensures e.Arrive? ==> Run(tx, |says|, [e]) == Outcome(tx, Heard(says, [e]))
    ensures e.Said? ==> Awaiting(Run(tx, |says|, [e]), Heard(says, [e]))
  {
    HeardMore(says, [], e);
    var none := seq(|says|, i => 0);
    assert Heard(says, []) == none && [] + [e] == [e];
    if e.Arrive? {
      var check := KnownCheck(tx, none);
      PendingZero(tx, check, |check|);
      assert IsInput(tx, tx.ins[0]) && check[tx.ins[0]] == 3;
    } else {
      NoneYes(none, |none|);
      YesesUpdate(none, e.shard, if e.yes then 1 else 2, |none|);
      if !e.yes {
        assert none[e.shard := 2][e.shard] == 2;
      }
    }
  }

  /** Confluence: every order of the same reports and the arrival ends in the same state. */
  lemma OrderDoesNotMatter(tx: Transaction, says: seq<bool>, a: seq<Event>, b: seq<Event>)
    requires WellFormed(tx, |says|) && tx.ins != [] && Honest(tx, says, a) && Honest(tx, says, b)
    requires OneArrival(a) && OneArrival(b) && forall e: Event :: e in a <==> e in b
    ensures Run(tx, |says|, a) == Run(tx, |says|, b)
  {
    RunReaches(tx, says, a);
    RunReaches(tx, says, b);
    assert Heard(says, a) == Heard(says, b);
  }

  /** The state that a run with one arrival ends in. */
  lemma FinalState(tx: Transaction, says: seq<bool>, events: seq<Event>)
    requires WellFormed(tx, |says|) && tx.ins != [] && Honest(tx, says, events) && OneArrival(events)
    ensures var s := Run(tx, |says|, events);
      && s.hasData && s.shardRelated == Related(tx, |says|) && s.value == Worth(tx.outs, 0)
      && (forall i :: 0 <= i < |says| && i in tx.ins ==>
          s.inCheck[i] == if Said(i, true) in events then 1 else if Said(i, false) in events then 2 else 3)
      && (forall i :: 0 <= i < |says| && i !in tx.ins ==>
          s.inCheck[i] == if exists k :: 0 <= k < |tx.outs| && tx.outs[k].shard == i then -1 else 0)
      && s.inCheckSum == |set i | 0 <= i < |says| && i in tx.ins && Said(i, true) !in events|
  {
    RunReaches(tx, says, events);
    var heard := Heard(says, events);
    HeardFacts(tx, says, events);
    var check := KnownCheck(tx, heard);
    forall i | 0 <= i < |says| && i in tx.ins
      ensures check[i] == if Said(i, true) in events then 1 else if Said(i, false) in events then 2 else 3
    {
      assert IsInput(tx, i);
    }
    PendingCounts(tx, check, |says|);
    assert (set i | 0 <= i < |says| && i in tx.ins && check[i] > 1)
        == set i | 0 <= i < |says| && i in tx.ins && Said(i, true) !in events;
  }

  /** One arrival, and no other. */
  lemma {:induction false} ArrivalsCount(events: seq<Event>)
    ensures Arrivals(events) == |set k | 0 <= k < |events| && events[k].Arrive?|
  {
    if events != [] {
      var n := |events| - 1;
      ArrivalsCount(events[..n]);
      var s, t := set k | 0 <= k < n && events[..n][k].Arrive?, set k | 0 <= k < |events| && events[k].Arrive?;
      if events[n].Arrive? {
        assert t == s + {n};
      } else {
        assert t == s;
      }
    }
  }

  /** The arrival alone is an honest run, and any input may report what it says at the end of one. */
  lemma HonestRuns(tx: Transaction, says: seq<bool>, events: seq<Event>, i: nat)
    ensures Honest(tx, says, [Arrive]) && OneArrival([Arrive])
    ensures Honest(tx, says, events) && i in tx.ins && i < |says| ==>
      var more := events + [Said(i, says[i])]; Honest(tx, says, more) && (OneArrival(more) <==> OneArrival(events))
  {
    assert [Arrive][..0] == [];
    if Honest(tx, says, events) && i in tx.ins && i < |says| {
      assert (events + [Said(i, says[i])])[..|events|] == events;
    }
  }

  /** The decision is yes once every input has said yes, no once some input has said no, and open otherwise. */
  lemma Decision(tx: Transaction, says: seq<bool>, events: seq<Event>)
    requires WellFormed(tx, |says|) && tx.ins != [] && Honest(tx, says, events) && OneArrival(events)
    ensures var res := Run(tx, |says|, events).res;
      && (res == 1 <==> forall i :: 0 <= i < |says| && IsInput(tx, i) ==> says[i] && Said(i, true) in events)
      && (res == -1 <==> exists i :: 0 <= i < |says| && IsInput(tx, i) && !says[i] && Said(i, false) in events)
      && (res == 1 || res == -1 || res == 0)
  {
    RunReaches(tx, says, events);
    var heard := Heard(says, events);
    HeardFacts(tx, says, events);
    PendingZero(tx, KnownCheck(tx, heard), |heard|);
    assert IsInput(tx, tx.ins[0]);
    if SaidNo(heard) {
      var i :| 0 <= i < |heard| && heard[i] == 2;
      assert IsInput(tx, i) && !says[i] && Said(i, false) in events;
    }
    forall i | 0 <= i < |says| && IsInput(tx, i)
      ensures KnownCheck(tx, heard)[i] <= 1 <==> says[i] && Said(i, true) in events
    {
    }
  }

  lemma {:induction false} OnlyArrivals(events: seq<Event>)
    requires forall k :: 0 <= k < |events| ==> events[k].Arrive?
    ensures Arrivals(events) == |events|
  {
    if events != [] {
      OnlyArrivals(events[..|events| - 1]);
    }
  }

  /** The answer is yes exactly when all inputs said yes -- if and only if there is an input.  Without one
      nobody is left to say yes, all have said it, and yet the decision stays open. */
  lemma YesMeansAllIffInputs(tx: Transaction, says: seq<bool>, events: seq<Event>)
    requires WellFormed(tx, |says|) && Honest(tx, says, events) && OneArrival(events)
    ensures (Run(tx, |says|, events).res == 1
             <==> forall i :: 0 <= i < |says| && IsInput(tx, i) ==> says[i] && Said(i, true) in events)
            <==> tx.ins != []
  {
    if tx.ins != [] {
      Decision(tx, says, events);
    } else {
      forall k | 0 <= k < |events|
        ensures events[k].Arrive?
      {
      }
      OnlyArrivals(events);
      assert Run(tx, |says|, events).res == 0;
    }
  }
}
