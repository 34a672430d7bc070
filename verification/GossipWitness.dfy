/** A run in which two nodes finish a round and make its block, so that what is proved of such runs says something. */
module GossipWitness {
  import opened MachineInt
  import opened Gossip
  import opened GossipRuns

  const NONE := RepMsg(0, 0, [])

  function Filled(a: bool, b: bool, m: RepMsg, n: RepMsg): Slots {
    Slots([a, b], [m, n], [false, false])
  }

  /** Two nodes with one round: what they hold, and the history. */
  function Two(s: Slots, t: Slots, sent: set<seq<RepMsg>>, made: map<(nat, nat), RepMsg>): System {
    System([[s], [t]], [[[]], [[]]], {(0, 0), (1, 0)}, sent, made, {}, map[])
  }

  function Nothing(): System {
    Two(Filled(false, false, NONE, NONE), Filled(false, false, NONE, NONE), {}, map[]).(started := {})
  }

  /** A first step and the rest of a run. */
  lemma Cons(h: Hashes, s: System, e: Event, t: System, run: seq<Event>)
    requires Shaped(s, 2, 1) && Enabled(s, e, 2, 1) && t == Next(h, s, e, 2, 1)
    requires Shaped(t, 2, 1) && Feasible(h, t, run, 2, 1)
    ensures Feasible(h, s, [e] + run, 2, 1) && After(h, s, [e] + run, 2, 1) == After(h, t, run, 2, 1)
  {
    assert ([e] + run)[1..] == run;
  }

  lemma Replaced(sys: System, s: Slots, t: Slots, n: nat, u: Slots)
    requires sys.slots == [[s], [t]] && n < 2
    ensures WithSlots(sys, n, 0, u).slots == if n == 0 then [[u], [t]] else [[s], [u]]
  {
    assert [s][0 := u] == [u] && [t][0 := u] == [u];
  }

  lemma BeginFirst(h: Hashes)
    ensures var s := Nothing();
      Initial(s, 2, 1) && Enabled(s, Start(0, 0), 2, 1) && Next(h, s, Start(0, 0), 2, 1) == s.(started := {(0, 0)})
  {
    var z := Filled(false, false, NONE, NONE);
    assert Nobody(2) == [false, false];
    Replaced(Nothing(), z, z, 0, z);
  }

  lemma BeginSecond(h: Hashes)
    ensures var t := Nothing().(started := {(0, 0)});
      && Shaped(t, 2, 1) && Enabled(t, Start(1, 0), 2, 1)
      && Next(h, t, Start(1, 0), 2, 1) == Nothing().(started := {(0, 0), (1, 0)})
  {
    var z := Filled(false, false, NONE, NONE);
    assert Nobody(2) == [false, false];
    Replaced(Nothing().(started := {(0, 0)}), z, z, 1, z);
    assert {(0, 0)} + {(1, 0)} == {(0, 0), (1, 0)};
  }

  /** Node 0 makes its message and sends it. */
  lemma FirstTick(h: Hashes, m: RepMsg)
    requires m.id == 0 && m.round == 0
    ensures var s := Nothing().(started := {(0, 0), (1, 0)});
      var t := Two(Filled(true, false, m, NONE), Filled(false, false, NONE, NONE), {[m]}, map[(0, 0) := m]);
      Shaped(s, 2, 1) && Enabled(s, Tick(0, 0, m.body), 2, 1) && Next(h, s, Tick(0, 0, m.body), 2, 1) == t
  {
    var z, u := Filled(false, false, NONE, NONE), Filled(true, false, m, NONE);
    var s := Nothing().(started := {(0, 0), (1, 0)});
    assert WithOwn(z, 0, 0, m.body) == u;
    Replaced(s, z, z, 0, u);
    assert !Complete(u) by { assert !u.sig[1]; }
    assert Nobody(2) == [false, false];
    assert Known(u, Nobody(2), 1) == [m] && Known(u, Nobody(2), 2) == [m];
  }

  lemma SendersOfOne(m: RepMsg)
    requires m.id < 2
    ensures Senders([m], 2) == [m.id == 0, m.id == 1]
  {
    assert [m][0].id == m.id;
  }

  /** Node 1 makes its own message, takes node 0's in and replies with its own. */
  lemma FirstDelivery(h: Hashes, m: RepMsg, n: RepMsg)
    requires m.id == 0 && m.round == 0 && n.id == 1 && n.round == 0
    ensures var s := Two(Filled(true, false, m, NONE), Filled(false, false, NONE, NONE), {[m]}, map[(0, 0) := m]);
      var t := Two(Filled(true, false, m, NONE), Filled(true, true, m, n), {[m], [n]}, map[(0, 0) := m, (1, 0) := n]);
      && Shaped(s, 2, 1) && Enabled(s, Deliver(1, [m], n.body), 2, 1)
      && Next(h, s, Deliver(1, [m], n.body), 2, 1) == t
  {
    var a, z, u := Filled(true, false, m, NONE), Filled(false, false, NONE, NONE), Filled(false, true, NONE, n);
    var s := Two(a, z, {[m]}, map[(0, 0) := m]);
    assert WithOwn(z, 1, 0, n.body) == u;
    Replaced(s, a, z, 1, u);
    var p := Prepare(s, 1, 0, n.body);
    assert p == Two(a, u, {[m]}, map[(0, 0) := m, (1, 0) := n]);
    OneMessage(h.msg, u, m);
    assert ReceiveAll(h.msg, u, [m]) == Filled(true, true, m, n);
    Replaced(p, a, u, 1, Filled(true, true, m, n));
    SendersOfOne(m);
    assert Known(u, [true, false], 1) == [];
    assert Known(u, [true, false], 2) == [] + [n] == [n];
    assert {[m]} + {[n]} == {[m], [n]};
  }

  lemma OneMessage(hash: MsgHash, s: Slots, m: RepMsg)
    requires Sized(s, |s.sig|) && m.id < |s.sig|
    ensures IdsBelow([m], |s.sig|) && ReceiveAll(hash, s, [m]) == Receive(hash, s, m)
  {
    assert [m][..0] == [];
  }

  /** Node 0 takes the reply in. */
  lemma SecondDelivery(h: Hashes, m: RepMsg, n: RepMsg)
    requires m.id == 0 && m.round == 0 && n.id == 1 && n.round == 0
    ensures
      var s := Two(Filled(true, false, m, NONE), Filled(true, true, m, n), {[m], [n]}, map[(0, 0) := m, (1, 0) := n]);
      && Shaped(s, 2, 1) && Enabled(s, Deliver(0, [n], m.body), 2, 1)
      && Next(h, s, Deliver(0, [n], m.body), 2, 1) == Finished(m, n)
  {
    var a, b := Filled(true, false, m, NONE), Filled(true, true, m, n);
    var s := Two(a, b, {[m], [n]}, map[(0, 0) := m, (1, 0) := n]);
    assert Prepare(s, 0, 0, m.body) == s;
    OneMessage(h.msg, a, n);
    assert ReceiveAll(h.msg, a, [n]) == b;
    Replaced(s, a, b, 0, b);
    SendersOfOne(n);
    assert Known(a, [false, true], 1) == [] + [m] == [m];
    assert Known(a, [false, true], 2) == [m] + [] == [m];
    assert {[m], [n]} + {[m]} == {[m], [n]};
  }

  /** Both nodes hold both messages. */
  function Finished(m: RepMsg, n: RepMsg): System {
    Two(Filled(true, true, m, n), Filled(true, true, m, n), {[m], [n]}, map[(0, 0) := m, (1, 0) := n])
  }

  lemma Told(h: Hashes, m: RepMsg, n: RepMsg, told: set<(nat, nat)>, i: nat, body: seq<byte>)
    requires i < 2
    ensures var s := Finished(m, n).(told := told);
      && Shaped(s, 2, 1) && Enabled(s, Tick(i, 0, body), 2, 1)
      && Next(h, s, Tick(i, 0, body), 2, 1) == s.(told := told + {(i, 0)})
  {
    var s := Finished(m, n).(told := told);
    assert Complete(At(s, i, 0));
    assert Prepare(s, i, 0, body) == s;
  }

  lemma FirstBlock(h: Hashes, s: System, i: nat)
    requires i < 2 && Shaped(s, 2, 1) && (i, 0) in s.started && (i, 0) in s.told && (i, 0) !in s.blocks
    ensures Enabled(s, Block(i, 0), 2, 1)
    ensures var t := Next(h, s, Block(i, 0), 2, 1);
      && Shaped(t, 2, 1) && t.blocks == s.blocks[(i, 0) := true] && t.started == s.started && t.told == s.told
  {
  }

  /** Both nodes begin; node 0 sends its message x, node 1 takes it in and replies with its own, y, which node 0 takes
      in; both are told that nothing is left, and make their blocks. */
  lemma TwoNodesFinish(h: Hashes, x: seq<byte>, y: seq<byte>) returns (run: seq<Event>)
    ensures Initial(Nothing(), 2, 1) && Feasible(h, Nothing(), run, 2, 1)
    ensures var t := After(h, Nothing(), run, 2, 1);
      (0, 0) in t.blocks && t.blocks[(0, 0)] && (1, 0) in t.blocks && t.blocks[(1, 0)]
  {
    var m, n := RepMsg(0, 0, x), RepMsg(1, 0, y);
    var f := Finished(m, n);
    var g := f.(told := {(0, 0)});
    var k := f.(told := {(0, 0)} + {(1, 0)});
    var b := Next(h, k, Block(0, 0), 2, 1);
    FirstBlock(h, k, 0);
    FirstBlock(h, b, 1);
    run := [];
    run := Before(h, b, Block(1, 0), Next(h, b, Block(1, 0), 2, 1), run);
    run := Before(h, k, Block(0, 0), b, run);
    Told(h, m, n, {(0, 0)}, 1, y);
    run := Before(h, g, Tick(1, 0, y), k, run);
    Told(h, m, n, {}, 0, x);
    assert f.(told := {}) == f && {} + {(0, 0)} == {(0, 0)};
    run := Before(h, f, Tick(0, 0, x), g, run);
    run := ToFinished(h, m, n, run);
  }

  lemma Before(h: Hashes, s: System, e: Event, t: System, rest: seq<Event>) returns (run: seq<Event>)
    requires Shaped(s, 2, 1) && Enabled(s, e, 2, 1) && t == Next(h, s, e, 2, 1)
    requires Shaped(t, 2, 1) && Feasible(h, t, rest, 2, 1)
    ensures Feasible(h, s, run, 2, 1) && After(h, s, run, 2, 1) == After(h, t, rest, 2, 1)
  {
    Cons(h, s, e, t, rest);
    run := [e] + rest;
  }

  lemma ToFinished(h: Hashes, m: RepMsg, n: RepMsg, rest: seq<Event>) returns (run: seq<Event>)
    requires m.id == 0 && m.round == 0 && n.id == 1 && n.round == 0
    requires Shaped(Finished(m, n), 2, 1) && Feasible(h, Finished(m, n), rest, 2, 1)
    ensures Initial(Nothing(), 2, 1) && Feasible(h, Nothing(), run, 2, 1)
    ensures After(h, Nothing(), run, 2, 1) == After(h, Finished(m, n), rest, 2, 1)
  {
    var s1, s2 := Nothing().(started := {(0, 0)}), Nothing().(started := {(0, 0), (1, 0)});
    var s3 := Two(Filled(true, false, m, NONE), Filled(false, false, NONE, NONE), {[m]}, map[(0, 0) := m]);
    var s4 := Two(Filled(true, false, m, NONE), Filled(true, true, m, n), {[m], [n]}, map[(0, 0) := m, (1, 0) := n]);
    SecondDelivery(h, m, n);
    run := Before(h, s4, Deliver(0, [n], m.body), Finished(m, n), rest);
    FirstDelivery(h, m, n);
    run := Before(h, s3, Deliver(1, [m], n.body), s4, run);
    FirstTick(h, m);
    run := Before(h, s2, Tick(0, 0, m.body), s3, run);
    BeginSecond(h);
    run := Before(h, s1, Start(1, 0), s2, run);
    BeginFirst(h);
    run := Before(h, Nothing(), Start(0, 0), s1, run);
  }
}
