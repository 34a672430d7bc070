/** The nodes themselves take the steps of the runs (rccache/cache_rep.go, testforclient/network/newRepProtocol.go). */
module GossipNodes {
  import opened MachineInt
  import opened Outcomes
  import opened Gossip
  import opened GossipRuns
  import opened GossipBlocks

  /** Node n holds what the system says that it holds. */
  ghost predicate Holds(d: DbRef, sys: System, n: nat, size: nat)
    requires n < |sys.slots| && n < |sys.repHash|
    reads d
  {
    && d.Valid() && d.id == n && d.size == size && d.repRound < |d.repVote| && size <= d.members
    && d.slots == sys.slots[n] && d.repHash == sys.repHash[n]
  }

  ghost predicate Refines(nodes: seq<DbRef>, sys: System, size: nat, rounds: nat)
    reads nodes
  {
    && Shaped(sys, size, rounds) && |nodes| == size
    && forall n :: 0 <= n < size ==> Holds(nodes[n], sys, n, size)
  }

  /** All but one node are as they were. */
  predicate SameElsewhere(sys: System, t: System, n: nat) {
    && |t.slots| == |sys.slots| && |t.repHash| == |sys.repHash|
    && (forall m :: 0 <= m < |sys.slots| && m != n ==> t.slots[m] == sys.slots[m])
    && forall m :: 0 <= m < |sys.repHash| && m != n ==> t.repHash[m] == sys.repHash[m]
  }

  /** The reset of a round. */
  method BeginRound(nodes: seq<DbRef>, n: nat, r: nat,
                    ghost h: Hashes, ghost sys: System, ghost size: nat, ghost rounds: nat)
    requires Refines(nodes, sys, size, rounds) && Enabled(sys, Start(n, r), size, rounds)
    modifies nodes[n]
    ensures Refines(nodes, Next(h, sys, Start(n, r), size, rounds), size, rounds)
  {
    ghost var t := Next(h, sys, Start(n, r), size, rounds);
    assert SameElsewhere(sys, t, n) && Shaped(t, size, rounds);
    nodes[n].StartRound(r);
    assert Holds(nodes[n], t, n, size);
  }

  lemma PreparedSlots(sys: System, n: nat, r: nat, body: seq<byte>, size: nat, rounds: nat)
    requires Shaped(sys, size, rounds) && n < size && r < rounds
    ensures var t := Prepare(sys, n, r, body);
      && t.slots == sys.slots[n := sys.slots[n][r := WithOwn(At(sys, n, r), n, r, body)]]
      && Shaped(t, size, rounds) && t == sys.(slots := t.slots, made := t.made)
  {
    var s := At(sys, n, r);
    assert Sized(s, size);
    if s.sig[n] {
      assert sys.slots[n][r := s] == sys.slots[n];
      assert sys.slots[n := sys.slots[n]] == sys.slots;
    }
  }

  /** The timer of a round: what is known is sent, and the node is told if there is nothing left to gossip. */
  method SendKnown(nodes: seq<DbRef>, n: nat, r: nat, body: seq<byte>,
                   ghost h: Hashes, ghost sys: System, ghost size: nat, ghost rounds: nat)
    returns (msg: Option<GossipFirMsg>)
    requires Refines(nodes, sys, size, rounds) && Enabled(sys, Tick(n, r, body), size, rounds)
    modifies nodes[n]
    ensures var t := Next(h, sys, Tick(n, r, body), size, rounds);
      && Refines(nodes, t, size, rounds)
      && (if msg.None? then (n, r) in t.told else msg.value == Gossiped(n, msg.value.data) && msg.value.data in t.sent)
  {
    ghost var t := Next(h, sys, Tick(n, r, body), size, rounds);
    PreparedSlots(sys, n, r, body, size, rounds);
    assert SameElsewhere(sys, t, n) && Shaped(t, size, rounds);
    msg := nodes[n].GenerateGossipFir(r, body);
    assert Holds(nodes[n], t, n, size);
  }

  lemma DeliveryIsTaken(h: Hashes, sys: System, n: nat, msg: GossipFirMsg, body: seq<byte>, size: nat, rounds: nat)
    requires Shaped(sys, size, rounds) && Enabled(sys, Deliver(n, msg.data, body), size, rounds)
    requires msg.cnt == |msg.data|
    ensures var t := Next(h, sys, Deliver(n, msg.data, body), size, rounds);
      && SameElsewhere(sys, t, n) && Shaped(t, size, rounds) && t.repHash == sys.repHash && Counted(msg) == msg.data
      && t.slots[n] == Taken(h.msg, sys.slots[n], n, size, msg, body)
      && var r := msg.data[0].round;
      Known(WithOwn(At(sys, n, r), n, r, body), Senders(msg.data, size), size) in t.sent
  {
    var r := msg.data[0].round;
    PreparedSlots(sys, n, r, body, size, rounds);
    var u := Prepare(sys, n, r, body);
    assert At(u, n, r) == WithOwn(At(sys, n, r), n, r, body);
    assert InRange(msg.data, size) == msg.data;
  }

  /** A message, or a reply, arrives. */
  method TakeDelivery(nodes: seq<DbRef>, n: nat, msg: GossipFirMsg, body: seq<byte>,
                      h: Hashes, ghost sys: System, ghost size: nat, ghost rounds: nat)
    returns (reply: Outcome<GossipFirMsg>)
    requires Refines(nodes, sys, size, rounds) && Enabled(sys, Deliver(n, msg.data, body), size, rounds)
    requires msg.id < size && msg.cnt == |msg.data|
    modifies nodes[n]
    ensures var t := Next(h, sys, Deliver(n, msg.data, body), size, rounds);
      && Refines(nodes, t, size, rounds)
      && reply.Returned? && reply.value == Gossiped(n, reply.value.data) && reply.value.data in t.sent
  {
    ghost var t := Next(h, sys, Deliver(n, msg.data, body), size, rounds);
    DeliveryIsTaken(h, sys, n, msg, body, size, rounds);
    reply := nodes[n].UpdateGossipFir(msg, h.msg, body);
    assert Holds(nodes[n], t, n, size);
  }

  /** The block of a round. */
  method MakeBlock(nodes: seq<DbRef>, n: nat, r: nat,
                   h: Hashes, ghost sys: System, ghost size: nat, ghost rounds: nat) returns (hash: Digest)
    requires Refines(nodes, sys, size, rounds) && Enabled(sys, Block(n, r), size, rounds)
    modifies nodes[n]
    ensures Refines(nodes, Next(h, sys, Block(n, r), size, rounds), size, rounds)
  {
    ghost var t := Next(h, sys, Block(n, r), size, rounds);
    assert SameElsewhere(sys, t, n) && Shaped(t, size, rounds);
    hash := nodes[n].GetRepBlock(r, h.block);
    assert Holds(nodes[n], t, n, size);
  }

  /** Any step of the system, taken by the node that it is about; `sender` sent what is delivered. */
  method Perform(nodes: seq<DbRef>, e: Event, sender: nat,
                 h: Hashes, ghost sys: System, ghost size: nat, ghost rounds: nat)
    requires Refines(nodes, sys, size, rounds) && Enabled(sys, e, size, rounds) && sender < size
    modifies nodes
    ensures Refines(nodes, Next(h, sys, e, size, rounds), size, rounds)
  {
    match e
    case Start(n, r) =>
      BeginRound(nodes, n, r, h, sys, size, rounds);
    case Tick(n, r, body) =>
      var msg := SendKnown(nodes, n, r, body, h, sys, size, rounds);
    case Deliver(n, data, body) =>
      var reply := TakeDelivery(nodes, n, Gossiped(sender, data), body, h, sys, size, rounds);
    case Block(n, r) =>
      var hash := MakeBlock(nodes, n, r, h, sys, size, rounds);
  }

  /** Every feasible run is a run of the nodes. */
  method Execute(nodes: seq<DbRef>, run: seq<Event>, senders: seq<nat>,
                 h: Hashes, ghost sys: System, ghost size: nat, ghost rounds: nat)
    requires Refines(nodes, sys, size, rounds) && Feasible(h, sys, run, size, rounds)
    requires |senders| == |run| && forall i :: 0 <= i < |senders| ==> senders[i] < size
    modifies nodes
    ensures Refines(nodes, After(h, sys, run, size, rounds), size, rounds)
  {
    ghost var now := sys;
    for i := 0 to |run|
      invariant Refines(nodes, now, size, rounds) && Feasible(h, now, run[i..], size, rounds)
      invariant After(h, now, run[i..], size, rounds) == After(h, sys, run, size, rounds)
    {
      assert run[i..][0] == run[i] && run[i..][1..] == run[i + 1..];
      Perform(nodes, run[i], senders[i], h, now, size, rounds);
      now := Next(h, now, run[i], size, rounds);
    }
  }

  /** What the nodes themselves have stored after a run: nodes that were told in each of the rounds 0 to r before
      they made its block, in order, hold the same hashes. */
  lemma SameHashes(nodes: seq<DbRef>, h: Hashes, initial: System, run: seq<Event>, size: nat, rounds: nat,
                   m: nat, n: nat, r: nat, q: nat)
    requires Initial(initial, size, rounds) && Feasible(h, initial, run, size, rounds) && q <= r
    requires Refines(nodes, After(h, initial, run, size, rounds), size, rounds)
    requires var t := After(h, initial, run, size, rounds);
      (m, r) in t.blocks && t.blocks[(m, r)] && (n, r) in t.blocks && t.blocks[(n, r)]
    ensures m < |nodes| && n < |nodes| && q < |nodes[m].repHash| && q < |nodes[n].repHash|
    ensures nodes[m].repHash[q] == nodes[n].repHash[q]
  {
    SameChain(h, initial, run, size, rounds, m, n, r, q);
    assert Holds(nodes[m], After(h, initial, run, size, rounds), m, size);
    assert Holds(nodes[n], After(h, initial, run, size, rounds), n, size);
  }
}
