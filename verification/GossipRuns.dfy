/** Runs of honest nodes over a network that may lose, repeat, delay and reorder
    (rccache/cache_rep.go, testforclient/network/newRepProtocol.go:30-60). */
module GossipRuns {
  import opened MachineInt
  import opened Gossip

  /** slots[n][r] and repHash[n][r] are what node n holds for round r; `sent` holds every message ever sent.
      The rest is history: who began a round, which message it made there, who was told in a round that
      nothing is left to gossip, and who made its block of a round -- with true if it was told so before
      and made the blocks of all earlier rounds before in the same way. */
  datatype System = System(
    slots: seq<seq<Slots>>,
    repHash: seq<seq<Digest>>,
    started: set<(nat, nat)>,
    sent: set<seq<RepMsg>>,
    made: map<(nat, nat), RepMsg>,
    told: set<(nat, nat)>,
    blocks: map<(nat, nat), bool>)

  /** `body` is what a node would put in a message it has to make now. */
  datatype Event =
    | Start(node: nat, round: nat)
    | Tick(node: nat, round: nat, body: seq<byte>)
    | Deliver(node: nat, data: seq<RepMsg>, body: seq<byte>)
    | Block(node: nat, round: nat)

  datatype Hashes = Hashes(msg: MsgHash, block: BlockHash)

  predicate Shaped(sys: System, size: nat, rounds: nat) {
    && |sys.slots| == |sys.repHash| == size
    && (forall n :: 0 <= n < size ==> |sys.slots[n]| == |sys.repHash[n]| == rounds)
    && forall n, r :: 0 <= n < size && 0 <= r < rounds ==> Sized(sys.slots[n][r], size)
  }

  function At(sys: System, n: nat, r: nat): Slots
    requires n < |sys.slots| && r < |sys.slots[n]|
  {
    sys.slots[n][r]
  }

  function WithSlots(sys: System, n: nat, r: nat, s: Slots): (t: System)
    requires n < |sys.slots| && r < |sys.slots[n]|
    ensures |t.slots| == |sys.slots| && t == sys.(slots := t.slots)
    ensures forall m :: 0 <= m < |sys.slots| ==> |t.slots[m]| == |sys.slots[m]|
    ensures forall m, q :: 0 <= m < |sys.slots| && 0 <= q < |sys.slots[m]| ==>
      At(t, m, q) == if m == n && q == r then s else At(sys, m, q)
  {
    sys.(slots := sys.slots[n := sys.slots[n][r := s]])
  }

  /** Messages go only to nodes that began the round; empty ones are not delivered.  A node makes one block
      a round, at any time after the round began. */
  predicate Enabled(sys: System, e: Event, size: nat, rounds: nat) {
    match e
    case Start(n, r) => n < size && r < rounds && (n, r) !in sys.started
    case Tick(n, r, _) => n < size && r < rounds && (n, r) in sys.started
    case Deliver(n, data, _) =>
      && n < size && data != [] && data in sys.sent && data[0].round < rounds && IdsBelow(data, size)
      && (n, data[0].round) in sys.started
    case Block(n, r) => n < size && r < rounds && (n, r) in sys.started && (n, r) !in sys.blocks
  }

  /** The node makes its own message if it has none. */
  function Prepare(sys: System, n: nat, r: nat, body: seq<byte>): (t: System)
    requires n < |sys.slots| && r < |sys.slots[n]| && n < |At(sys, n, r).sig|
        && Sized(At(sys, n, r), |At(sys, n, r).sig|)
  {
    var s := At(sys, n, r);
    if s.sig[n] then sys
    else WithSlots(sys, n, r, WithOwn(s, n, r, body)).(made := sys.made[(n, r) := RepMsg(n, r, body)])
  }

  function Next(h: Hashes, sys: System, e: Event, size: nat, rounds: nat): (t: System)
    requires Shaped(sys, size, rounds) && Enabled(sys, e, size, rounds)
  {
    match e
    case Start(n, r) =>
      var s := At(sys, n, r).(sig := Nobody(size), byz := Nobody(size));
      WithSlots(sys, n, r, s).(started := sys.started + {(n, r)})
    case Tick(n, r, body) =>
      var t := Prepare(sys, n, r, body);
      if Complete(At(t, n, r)) then t.(told := t.told + {(n, r)})
      else t.(sent := t.sent + {Known(At(t, n, r), Nobody(size), size)})
    case Deliver(n, data, body) =>
      var r := data[0].round;
      var t := Prepare(sys, n, r, body);
      var s := At(t, n, r);
      WithSlots(t, n, r, ReceiveAll(h.msg, s, data)).(sent := t.sent + {Known(s, Senders(data, size), size)})
    case Block(n, r) =>
      sys.(repHash := sys.repHash[n := sys.repHash[n][r := BlockDigest(h.block, At(sys, n, r), sys.repHash[n], r)]],
           blocks := sys.blocks[(n, r) := (n, r) in sys.told && InOrder(sys, n, r)])
  }

  /** The blocks of the rounds before were made in order, each after the node was told. */
  predicate InOrder(sys: System, n: nat, r: nat) {
    r == 0 || ((n, r - 1) in sys.blocks && sys.blocks[(n, r - 1)])
  }

  /** All of the data are messages their senders made in round r. */
  predicate Genuine(made: map<(nat, nat), RepMsg>, data: seq<RepMsg>, r: nat) {
    forall k :: 0 <= k < |data| ==> data[k].round == r && (data[k].id, r) in made && made[(data[k].id, r)] == data[k]
  }

  /** Filled slots hold what their owner made, and nobody is marked. */
  predicate Faithful(made: map<(nat, nat), RepMsg>, s: Slots, r: nat)
    requires Sized(s, |s.sig|)
  {
    && (forall j :: 0 <= j < |s.sig| && s.sig[j] ==> (j, r) in made && s.msg[j] == made[(j, r)])
    && forall j :: 0 <= j < |s.byz| ==> !s.byz[j]
  }

  ghost predicate Inv(sys: System, size: nat, rounds: nat) {
    && Shaped(sys, size, rounds)
    && (forall n, r :: 0 <= n < size && 0 <= r < rounds && (n, r) in sys.started ==>
        Faithful(sys.made, At(sys, n, r), r))
    && (forall n, r :: (n, r) in sys.made ==>
          && n < size && r < rounds && (n, r) in sys.started
          && sys.made[(n, r)].id == n && sys.made[(n, r)].round == r && At(sys, n, r).sig[n])
    && (forall data :: data in sys.sent ==> exists r :: Genuine(sys.made, data, r))
  }

  predicate Extends(a: map<(nat, nat), RepMsg>, b: map<(nat, nat), RepMsg>) {
    forall k :: k in a ==> k in b && b[k] == a[k]
  }

  /** Genuine messages never clash with faithful slots. */
  lemma {:induction false} ReceiveFaithful(hash: MsgHash, made: map<(nat, nat), RepMsg>, s: Slots, data: seq<RepMsg>,
      r: nat)
    requires Sized(s, |s.sig|) && IdsBelow(data, |s.sig|) && Faithful(made, s, r) && Genuine(made, data, r)
    ensures Faithful(made, ReceiveAll(hash, s, data), r)
  {
    if data != [] {
      var rest, m := data[..|data| - 1], data[|data| - 1];
      assert forall k :: 0 <= k < |rest| ==> rest[k] == data[k];
      ReceiveFaithful(hash, made, s, rest, r);
    }
  }

  /** What a faithful node sends is genuine. */
  lemma {:induction false} KnownGenuine(made: map<(nat, nat), RepMsg>, s: Slots, skip: seq<bool>, n: nat, r: nat)
    requires Sized(s, |s.sig|) && |skip| == |s.sig| && n <= |s.sig| && Faithful(made, s, r)
    requires forall j :: 0 <= j < |s.sig| && (j, r) in made ==> made[(j, r)].id == j && made[(j, r)].round == r
    ensures Genuine(made, Known(s, skip, n), r)
  {
    if n > 0 {
      KnownGenuine(made, s, skip, n - 1, r);
    }
  }

  lemma GenuineMore(a: map<(nat, nat), RepMsg>, b: map<(nat, nat), RepMsg>, data: seq<RepMsg>, r: nat)
    requires Extends(a, b) && Genuine(a, data, r)
    ensures Genuine(b, data, r)
  {
  }

  lemma FaithfulMore(a: map<(nat, nat), RepMsg>, b: map<(nat, nat), RepMsg>, s: Slots, r: nat)
    requires Extends(a, b) && Sized(s, |s.sig|) && Faithful(a, s, r)
    ensures Faithful(b, s, r)
  {
  }

  /** One node's slots for one round may be replaced by others that are faithful. */
  lemma SlotsKeep(sys: System, t: System, n: nat, r: nat, s: Slots, size: nat, rounds: nat)
    requires Inv(sys, size, rounds) && n < size && r < rounds && (n, r) in sys.started
    requires Extends(sys.made, t.made) && (forall k :: k in t.made ==> k in sys.made || k == (n, r))
    requires (n, r) in t.made ==>
      t.made[(n, r)].id == n && t.made[(n, r)].round == r && s.sig != [] && |s.sig| == size && s.sig[n]
    requires Sized(s, size) && Faithful(t.made, s, r)
    requires t == WithSlots(sys, n, r, s).(made := t.made)
    ensures Inv(t, size, rounds)
  {
    forall m, q | 0 <= m < size && 0 <= q < rounds && (m, q) in t.started
      ensures Faithful(t.made, At(t, m, q), q)
    {
      if m != n || q != r {
        assert At(t, m, q) == At(sys, m, q);
        FaithfulMore(sys.made, t.made, At(sys, m, q), q);
      }
    }
    forall data | data in t.sent
      ensures exists q :: Genuine(t.made, data, q)
    {
      var q :| Genuine(sys.made, data, q);
      GenuineMore(sys.made, t.made, data, q);
    }
  }

  lemma PrepareKeeps(sys: System, n: nat, r: nat, body: seq<byte>, size: nat, rounds: nat)
    requires Inv(sys, size, rounds) && n < size && r < rounds && (n, r) in sys.started
    ensures var t := Prepare(sys, n, r, body);
      && Inv(t, size, rounds) && Extends(sys.made, t.made) && At(t, n, r).sig[n]
      && t.started == sys.started && t.sent == sys.sent
      && At(t, n, r) == WithOwn(At(sys, n, r), n, r, body)
      && forall m, q :: 0 <= m < size && 0 <= q < rounds && (m != n || q != r) ==> At(t, m, q) == At(sys, m, q)
  {
    var t, s := Prepare(sys, n, r, body), At(sys, n, r);
    if !s.sig[n] {
      assert (n, r) !in sys.made;
      FaithfulMore(sys.made, t.made, s, r);
      SlotsKeep(sys, t, n, r, WithOwn(s, n, r, body), size, rounds);
    }
  }

  lemma SendKeeps(sys: System, data: seq<RepMsg>, r: nat, size: nat, rounds: nat)
    requires Inv(sys, size, rounds) && Genuine(sys.made, data, r)
    ensures Inv(sys.(sent := sys.sent + {data}), size, rounds)
  {
    var t := sys.(sent := sys.sent + {data});
    forall n, q | 0 <= n < size && 0 <= q < rounds && (n, q) in t.started
      ensures Faithful(t.made, At(t, n, q), q)
    {
      assert At(t, n, q) == At(sys, n, q);
    }
    forall n, q | (n, q) in t.made
      ensures n < size && q < rounds && At(t, n, q).sig[n]
    {
      assert At(t, n, q) == At(sys, n, q);
    }
  }

  /** Every step keeps the invariant. */
  lemma StepKeeps(h: Hashes, sys: System, e: Event, size: nat, rounds: nat)
    requires Inv(sys, size, rounds) && Enabled(sys, e, size, rounds)
    ensures Inv(Next(h, sys, e, size, rounds), size, rounds)
  {
    match e
    case Start(n, r) =>
      StartKeeps(h, sys, n, r, size, rounds);
    case Tick(n, r, body) =>
      PrepareKeeps(sys, n, r, body, size, rounds);
      var t := Prepare(sys, n, r, body);
      if Complete(At(t, n, r)) {
        SameSlotsKeep(t, Next(h, sys, e, size, rounds), size, rounds);
      } else {
        KnownGenuine(t.made, At(t, n, r), Nobody(size), size, r);
        SendKeeps(t, Known(At(t, n, r), Nobody(size), size), r, size, rounds);
      }
    case Deliver(n, data, body) =>
      DeliverKeeps(h, sys, n, data, body, size, rounds);
    case Block(n, r) =>
      SameSlotsKeep(sys, Next(h, sys, e, size, rounds), size, rounds);
  }

  /** The invariant is about slots and history. */
  lemma SameSlotsKeep(sys: System, t: System, size: nat, rounds: nat)
    requires Inv(sys, size, rounds) && Shaped(t, size, rounds)
    requires t.slots == sys.slots && t.started == sys.started && t.sent == sys.sent && t.made == sys.made
    ensures Inv(t, size, rounds)
  {
    forall n, r | 0 <= n < size && 0 <= r < rounds
      ensures At(t, n, r) == At(sys, n, r)
    {
    }
  }

  lemma StartKeeps(h: Hashes, sys: System, n: nat, r: nat, size: nat, rounds: nat)
    requires Inv(sys, size, rounds) && Enabled(sys, Start(n, r), size, rounds)
    ensures Inv(Next(h, sys, Start(n, r), size, rounds), size, rounds)
  {
    var t := Next(h, sys, Start(n, r), size, rounds);
    assert Faithful(t.made, At(t, n, r), r);
  }

  lemma DeliverKeeps(h: Hashes, sys: System, n: nat, data: seq<RepMsg>, body: seq<byte>, size: nat, rounds: nat)
    requires Inv(sys, size, rounds) && Enabled(sys, Deliver(n, data, body), size, rounds)
    ensures Inv(Next(h, sys, Deliver(n, data, body), size, rounds), size, rounds)
  {
    var r := data[0].round;
    PrepareKeeps(sys, n, r, body, size, rounds);
    var t := Prepare(sys, n, r, body);
    var s := At(t, n, r);
    var q :| Genuine(t.made, data, q);
    assert data[0].round == q;
    ReceiveFaithful(h.msg, t.made, s, data, r);
    KeptByAll(h.msg, s, data, n);
    var u := WithSlots(t, n, r, ReceiveAll(h.msg, s, data));
    SlotsKeep(t, u, n, r, ReceiveAll(h.msg, s, data), size, rounds);
    KnownGenuine(t.made, s, Senders(data, size), size, r);
    SendKeeps(u, Known(s, Senders(data, size), size), r, size, rounds);
  }

  /** Any events in any order, each enabled when it happens. */
  predicate Feasible(h: Hashes, sys: System, run: seq<Event>, size: nat, rounds: nat)
    requires Shaped(sys, size, rounds)
    decreases |run|
  {
    run == [] || (Enabled(sys, run[0], size, rounds)
                  && Shaped(Next(h, sys, run[0], size, rounds), size, rounds)
                  && Feasible(h, Next(h, sys, run[0], size, rounds), run[1..], size, rounds))
  }

  function After(h: Hashes, sys: System, run: seq<Event>, size: nat, rounds: nat): System
    requires Shaped(sys, size, rounds) && Feasible(h, sys, run, size, rounds)
    decreases |run|
  {
    if run == [] then sys else After(h, Next(h, sys, run[0], size, rounds), run[1..], size, rounds)
  }

  lemma {:induction false} RunKeeps(h: Hashes, sys: System, run: seq<Event>, size: nat, rounds: nat)
    requires Inv(sys, size, rounds) && Feasible(h, sys, run, size, rounds)
    ensures Inv(After(h, sys, run, size, rounds), size, rounds)
    decreases |run|
  {
    if run != [] {
      StepKeeps(h, sys, run[0], size, rounds);
      RunKeeps(h, Next(h, sys, run[0], size, rounds), run[1..], size, rounds);
    }
  }

  /** Before anything happened; the slots may hold anything. */
  predicate Initial(sys: System, size: nat, rounds: nat) {
    && Shaped(sys, size, rounds) && sys.started == {} && sys.sent == {} && sys.made == map[]
    && sys.told == {} && sys.blocks == map[]
  }

  /** In every run of honest nodes, every filled slot holds the one message its owner made
      that round, and no one is ever marked as Byzantine. */
  lemma RunsAreFaithful(h: Hashes, sys: System, run: seq<Event>, size: nat, rounds: nat, n: nat, r: nat)
    requires Initial(sys, size, rounds) && Feasible(h, sys, run, size, rounds) && n < size && r < rounds
    requires (n, r) in After(h, sys, run, size, rounds).started
    ensures var t := After(h, sys, run, size, rounds);
      && Shaped(t, size, rounds)
      && (forall j :: 0 <= j < size && At(t, n, r).sig[j] ==>
            && (j, r) in t.made && At(t, n, r).msg[j] == t.made[(j, r)]
            && t.made[(j, r)].id == j && t.made[(j, r)].round == r)
      && forall j :: 0 <= j < size ==> !At(t, n, r).byz[j]
  {
    RunKeeps(h, sys, run, size, rounds);
  }

  /** What a node makes, and what a slot of a begun round holds, never changes again. */
  lemma StepStable(h: Hashes, sys: System, e: Event, size: nat, rounds: nat, n: nat, r: nat, j: nat)
    requires Inv(sys, size, rounds) && Enabled(sys, e, size, rounds)
    requires n < size && r < rounds && j < size && (n, r) in sys.started && At(sys, n, r).sig[j]
    ensures var t := Next(h, sys, e, size, rounds);
      && Extends(sys.made, t.made) && Shaped(t, size, rounds)
      && At(t, n, r).sig[j] && At(t, n, r).msg[j] == At(sys, n, r).msg[j]
  {
    StepKeeps(h, sys, e, size, rounds);
    match e
    case Start(_, _) =>
    case Tick(m, q, body) =>
      PrepareKeeps(sys, m, q, body, size, rounds);
    case Deliver(m, data, body) =>
      DeliverStable(h, sys, m, data, body, size, rounds, n, r, j);
    case Block(_, _) =>
  }

  lemma DeliverStable(h: Hashes, sys: System, m: nat, data: seq<RepMsg>, body: seq<byte>, size: nat, rounds: nat,
                      n: nat, r: nat, j: nat)
    requires Inv(sys, size, rounds) && Enabled(sys, Deliver(m, data, body), size, rounds)
    requires n < size && r < rounds && j < size && At(sys, n, r).sig[j]
    ensures var t := Next(h, sys, Deliver(m, data, body), size, rounds);
      && Extends(sys.made, t.made) && |t.slots| == size && |t.slots[n]| == rounds && Sized(At(t, n, r), size)
      && At(t, n, r).sig[j] && At(t, n, r).msg[j] == At(sys, n, r).msg[j]
  {
    var q := data[0].round;
    PrepareKeeps(sys, m, q, body, size, rounds);
    var t := Prepare(sys, m, q, body);
    if m == n && q == r {
      KeptByAll(h.msg, At(t, n, r), data, j);
    }
  }

  lemma {:induction false} RunStable(h: Hashes, sys: System, run: seq<Event>, size: nat, rounds: nat, n: nat, r: nat,
      j: nat)
    requires Inv(sys, size, rounds) && Feasible(h, sys, run, size, rounds)
    requires n < size && r < rounds && j < size && (n, r) in sys.started && At(sys, n, r).sig[j]
    ensures var t := After(h, sys, run, size, rounds);
      && Shaped(t, size, rounds) && (n, r) in t.started
      && At(t, n, r).sig[j] && At(t, n, r).msg[j] == At(sys, n, r).msg[j]
    decreases |run|
  {
    if run != [] {
      StepKeeps(h, sys, run[0], size, rounds);
      StepStable(h, sys, run[0], size, rounds, n, r, j);
      RunStable(h, Next(h, sys, run[0], size, rounds), run[1..], size, rounds, n, r, j);
    }
  }

  /** The messages of a round, as far as they were made. */
  function Vector(made: map<(nat, nat), RepMsg>, size: nat, r: nat): (v: seq<RepMsg>)
    ensures |v| == size
  {
    seq(size, j => if (j, r) in made then made[(j, r)] else RepMsg(0, 0, []))
  }

  predicate AllMade(made: map<(nat, nat), RepMsg>, size: nat, r: nat) {
    forall j :: 0 <= j < size ==> (j, r) in made
  }

  /** A node that finished a round holds exactly the messages made in it. */
  lemma CompleteIsVector(sys: System, size: nat, rounds: nat, n: nat, r: nat)
    requires Inv(sys, size, rounds) && n < size && r < rounds && (n, r) in sys.started && Complete(At(sys, n, r))
    ensures AllMade(sys.made, size, r) && At(sys, n, r).msg == Vector(sys.made, size, r)
  {
    var s := At(sys, n, r);
    forall j | 0 <= j < size
      ensures (j, r) in sys.made && s.msg[j] == Vector(sys.made, size, r)[j]
    {
      assert s.sig[j];
    }
  }

  /** Two nodes that finish a round hold the same messages, whenever either of them does. */
  lemma FinishedAgree(h: Hashes, initial: System, before: seq<Event>, between: seq<Event>, size: nat, rounds: nat,
                      m: nat, n: nat, r: nat)
    requires Initial(initial, size, rounds) && Feasible(h, initial, before, size, rounds)
    requires m < size && n < size && r < rounds
    requires var sys := After(h, initial, before, size, rounds);
      && Shaped(sys, size, rounds) && (m, r) in sys.started && Complete(At(sys, m, r))
      && Feasible(h, sys, between, size, rounds)
      && var later := After(h, sys, between, size, rounds);
      Shaped(later, size, rounds) && (n, r) in later.started && Complete(At(later, n, r))
    ensures var sys := After(h, initial, before, size, rounds);
      At(sys, m, r).msg == At(After(h, sys, between, size, rounds), n, r).msg
  {
    RunKeeps(h, initial, before, size, rounds);
    var sys := After(h, initial, before, size, rounds);
    RunKeeps(h, sys, between, size, rounds);
    var later := After(h, sys, between, size, rounds);
    forall j | 0 <= j < size
      ensures At(later, m, r).sig[j] && At(later, m, r).msg[j] == At(sys, m, r).msg[j] && (m, r) in later.started
    {
      assert At(sys, m, r).sig[j];
      RunStable(h, sys, between, size, rounds, m, r, j);
    }
    assert size > 0;
    CompleteIsVector(later, size, rounds, m, r);
    CompleteIsVector(later, size, rounds, n, r);
    assert At(sys, m, r).msg == At(later, m, r).msg;
  }
}
