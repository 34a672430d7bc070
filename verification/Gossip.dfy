/** First-phase reputation gossip of one node (rccache/cache_rep.go:11-141, 181-189). */
module Gossip {
  import opened MachineInt
  import opened Outcomes

  /** A signed reputation message; `body` is all but the sender and the round. */
  datatype RepMsg = RepMsg(id: nat, round: nat, body: seq<byte>)

  /** What goes over the network: the sender, how many messages it says there are, and the messages. */
  datatype GossipFirMsg = GossipFirMsg(id: nat, cnt: nat, data: seq<RepMsg>)

  /** Data as GossipFirMsg.Add collects it. */
  function Gossiped(id: nat, data: seq<RepMsg>): GossipFirMsg {
    GossipFirMsg(id, |data|, data)
  }

  type Digest = seq<byte>

  /** SHA-256 of a message or of a block, about which nothing is assumed. */
  type MsgHash = RepMsg -> Digest
  type BlockHash = (seq<RepMsg>, Digest) -> Digest

  /** What a node holds for one round: RepFirSig, RepFirMsg and RepByz. */
  datatype Slots = Slots(sig: seq<bool>, msg: seq<RepMsg>, byz: seq<bool>)

  predicate Sized(s: Slots, size: nat) {
    |s.sig| == |s.msg| == |s.byz| == size
  }

  function Put(s: Slots, m: RepMsg): (t: Slots)
    requires m.id < |s.sig| && Sized(s, |s.sig|)
    ensures Sized(t, |s.sig|)
  {
    s.(sig := s.sig[m.id := true], msg := s.msg[m.id := m])
  }

  /** One received message fills an empty slot; a full slot with another hash marks its owner. */
  function Receive(hash: MsgHash, s: Slots, m: RepMsg): (t: Slots)
    requires m.id < |s.sig| && Sized(s, |s.sig|)
    ensures Sized(t, |s.sig|)
  {
    if !s.sig[m.id] then Put(s, m)
    else if hash(s.msg[m.id]) != hash(m) then s.(byz := s.byz[m.id := true])
    else s
  }

  predicate IdsBelow(data: seq<RepMsg>, size: nat) {
    forall i :: 0 <= i < |data| ==> data[i].id < size
  }

  function ReceiveAll(hash: MsgHash, s: Slots, data: seq<RepMsg>): (t: Slots)
    requires Sized(s, |s.sig|) && IdsBelow(data, |s.sig|)
    ensures Sized(t, |s.sig|)
  {
    if data == [] then s else Receive(hash, ReceiveAll(hash, s, data[..|data| - 1]), data[|data| - 1])
  }

  lemma OneReceived(hash: MsgHash, s: Slots, m: RepMsg, i: nat)
    requires m.id < |s.sig| && Sized(s, |s.sig|) && i < |s.sig|
    ensures var t := Receive(hash, s, m);
      && (t.sig[i] <==> s.sig[i] || m.id == i)
      && (t.byz[i] <==> s.byz[i] || (m.id == i && hash(m) != hash(t.msg[i])))
      && t.msg[i] == if !s.sig[i] && m.id == i then m else s.msg[i]
  {
  }

  predicate Has(data: seq<RepMsg>, i: nat) {
    exists k :: 0 <= k < |data| && data[k].id == i
  }

  predicate Contradicts(hash: MsgHash, data: seq<RepMsg>, i: nat, m: RepMsg) {
    exists k :: 0 <= k < |data| && data[k].id == i && hash(data[k]) != hash(m)
  }

  lemma HasMore(hash: MsgHash, data: seq<RepMsg>, i: nat, m: RepMsg)
    requires data != []
    ensures var n := |data| - 1;
      && (Has(data, i) <==> Has(data[..n], i) || data[n].id == i)
      && (Contradicts(hash, data, i, m)
          <==> Contradicts(hash, data[..n], i, m) || (data[n].id == i && hash(data[n]) != hash(m)))
  {
    var n := |data| - 1;
    assert forall k :: 0 <= k < n ==> data[..n][k] == data[k];
  }

  /** What taking in data does to a slot: it is full if it was or if the data have a message of its owner, and its owner
      is marked if it was or if the data have a message of the owner whose hash is another than that of the message
      in the slot. */
  lemma {:induction false} Received(hash: MsgHash, s: Slots, data: seq<RepMsg>, i: nat)
    requires Sized(s, |s.sig|) && IdsBelow(data, |s.sig|) && i < |s.sig|
    ensures var t := ReceiveAll(hash, s, data);
      && (t.sig[i] <==> s.sig[i] || exists k :: 0 <= k < |data| && data[k].id == i)
      && (t.byz[i] <==> s.byz[i] || exists k :: 0 <= k < |data| && data[k].id == i && hash(data[k]) != hash(t.msg[i]))
      && (s.sig[i] || !t.sig[i] ==> t.msg[i] == s.msg[i])
  {
    var t := ReceiveAll(hash, s, data);
    assert Has(data, i) <==> exists k :: 0 <= k < |data| && data[k].id == i;
    assert Contradicts(hash, data, i, t.msg[i])
      <==> exists k :: 0 <= k < |data| && data[k].id == i && hash(data[k]) != hash(t.msg[i]);
    if data != [] {
      var n := |data| - 1;
      var u := ReceiveAll(hash, s, data[..n]);
      Received(hash, s, data[..n], i);
      OneReceived(hash, u, data[n], i);
      HasMore(hash, data, i, t.msg[i]);
    }
  }

  /** An empty slot is filled by the first message of its owner. */
  lemma {:induction false} FirstFills(hash: MsgHash, s: Slots, data: seq<RepMsg>, i: nat, k: nat)
    requires Sized(s, |s.sig|) && IdsBelow(data, |s.sig|) && i < |s.sig| && !s.sig[i]
    requires k < |data| && data[k].id == i && forall m :: 0 <= m < k ==> data[m].id != i
    ensures ReceiveAll(hash, s, data).msg[i] == data[k]
  {
    var n := |data| - 1;
    var u := ReceiveAll(hash, s, data[..n]);
    Received(hash, s, data[..n], i);
    OneReceived(hash, u, data[n], i);
    if k < n {
      assert data[..n][k] == data[k];
      FirstFills(hash, s, data[..n], i, k);
    } else {
      assert !u.sig[i];
    }
  }

  /** The messages in the first n slots, but for the senders marked in `skip`. */
  function Known(s: Slots, skip: seq<bool>, n: nat): seq<RepMsg>
    requires Sized(s, |s.sig|) && |skip| == |s.sig| && n <= |s.sig|
  {
    if n == 0 then []
    else Known(s, skip, n - 1) + (if s.sig[n - 1] && !skip[n - 1] then [s.msg[n - 1]] else [])
  }

  /** Known collects exactly the messages of full slots whose owners are not skipped ... */
  lemma {:induction false} KnownExactly(s: Slots, skip: seq<bool>, n: nat, m: RepMsg)
    requires Sized(s, |s.sig|) && |skip| == |s.sig| && n <= |s.sig|
    ensures m in Known(s, skip, n) <==> exists j :: 0 <= j < n && s.sig[j] && !skip[j] && s.msg[j] == m
  {
    if n > 0 {
      KnownExactly(s, skip, n - 1, m);
    }
  }

  /** ... in the order of the slots, each once. */
  lemma {:induction false} KnownAscends(s: Slots, skip: seq<bool>, n: nat, a: nat, b: nat)
    requires Sized(s, |s.sig|) && |skip| == |s.sig| && n <= |s.sig|
    requires forall j :: 0 <= j < n && s.sig[j] ==> s.msg[j].id == j
    requires a < b < |Known(s, skip, n)|
    ensures Known(s, skip, n)[a].id < Known(s, skip, n)[b].id < n
  {
    var u := Known(s, skip, n - 1);
    if b < |u| {
      KnownAscends(s, skip, n - 1, a, b);
    } else {
      KnownExactly(s, skip, n - 1, u[a]);
    }
  }

  function Nobody(size: nat): seq<bool> {
    seq(size, i => false)
  }

  /** The senders that occur in the data. */
  function Senders(data: seq<RepMsg>, size: nat): seq<bool> {
    seq(size, i => exists k :: 0 <= k < |data| && data[k].id == i)
  }

  /** Before round 0. */
  function NoDigest(): (d: Digest)
    ensures |d| == 32 && forall i :: 0 <= i < 32 ==> d[i] == 0
  {
    seq(32, i => 0)
  }

  /** The hash of a round's block: its messages, chained to the hash stored for the round before. */
  function BlockDigest(blockHash: BlockHash, s: Slots, repHash: seq<Digest>, round: nat): Digest
    requires round <= |repHash|
  {
    blockHash(s.msg, if round > 0 then repHash[round - 1] else NoDigest())
  }

  predicate Complete(s: Slots) {
    forall i :: 0 <= i < |s.sig| ==> s.sig[i]
  }

  /** The node's own message is made when it is first needed. */
  function WithOwn(s: Slots, id: nat, round: nat, body: seq<byte>): (t: Slots)
    requires id < |s.sig| && Sized(s, |s.sig|)
    ensures Sized(t, |s.sig|) && t.sig[id]
  {
    if s.sig[id] then s else Put(s, RepMsg(id, round, body))
  }

  /** Making the own message fills the own slot, if it is empty, and no other. */
  lemma OwnMade(s: Slots, id: nat, round: nat, body: seq<byte>, i: nat)
    requires id < |s.sig| && Sized(s, |s.sig|) && i < |s.sig|
    ensures var t := WithOwn(s, id, round, body);
      && (t.sig[i] <==> s.sig[i] || i == id) && t.byz[i] == s.byz[i]
      && t.msg[i] == if i == id && !s.sig[id] then RepMsg(id, round, body) else s.msg[i]
  {
  }

  /** The slots after a message was taken in: the own message is made first, and of the data in range each fills an
      empty slot of the round or marks an owner. */
  function Taken(hash: MsgHash, slots: seq<Slots>, id: nat, size: nat, msg: GossipFirMsg, body: seq<byte>): seq<Slots>
    requires id < size && forall r :: 0 <= r < |slots| ==> Sized(slots[r], size)
  {
    if msg.data == [] || msg.data[0].round >= |slots| then slots
    else
      var r := msg.data[0].round;
      assert Sized(slots[r], size);
      slots[r := ReceiveAll(hash, WithOwn(slots[r], id, r, body), InRange(Counted(msg), size))]
  }

  /** One vote more, in 64 bits. */
  function Voted(votes: seq<seq<nat>>, round: nat, sender: nat): seq<seq<nat>>
    requires round < |votes| && sender < |votes[round]|
  {
    votes[round := votes[round][sender := (votes[round][sender] + 1) % 0x1_0000_0000_0000_0000]]
  }

  /** What Taken does to the round of a message that can be taken in whole: only that round changes, slots fill by
      messages of their owners, and owners who contradict what their slot holds are marked. */
  lemma TakenEffect(hash: MsgHash, slots: seq<Slots>, id: nat, size: nat, msg: GossipFirMsg, body: seq<byte>)
    requires id < size && forall r :: 0 <= r < |slots| ==> Sized(slots[r], size)
    requires !OutOfRange(msg, |slots|, size) && msg.data[0].round < |slots|
    ensures var r, data := msg.data[0].round, msg.data[..msg.cnt];
      var s, t := slots[r], Taken(hash, slots, id, size, msg, body)[r];
      && (forall i :: 0 <= i < size ==>
            (t.sig[i] <==> s.sig[i] || i == id || exists k :: 0 <= k < |data| && data[k].id == i))
      && (forall i :: 0 <= i < size ==>
            (t.byz[i] <==>
             s.byz[i] || exists k :: 0 <= k < |data| && data[k].id == i && hash(data[k]) != hash(t.msg[i])))
      && (forall i :: 0 <= i < size && s.sig[i] ==> t.msg[i] == s.msg[i])
      && (!s.sig[id] ==> t.msg[id] == RepMsg(id, r, body))
  {
    var r, data := msg.data[0].round, msg.data[..msg.cnt];
    assert Sized(slots[r], size);
    var s := WithOwn(slots[r], id, r, body);
    forall i | 0 <= i < size
      ensures var t := ReceiveAll(hash, s, data);
        && (t.sig[i] <==> s.sig[i] || exists k :: 0 <= k < |data| && data[k].id == i)
        && (t.byz[i] <==> s.byz[i] || exists k :: 0 <= k < |data| && data[k].id == i && hash(data[k]) != hash(t.msg[i]))
        && (s.sig[i] || !t.sig[i] ==> t.msg[i] == s.msg[i])
    {
      Received(hash, s, data, i);
    }
  }

  /** One counter goes up. */
  lemma VotedOnce(votes: seq<seq<nat>>, round: nat, sender: nat, r: nat, i: nat)
    requires round < |votes| && sender < |votes[round]| && r < |votes| && i < |votes[r]|
    ensures var after := Voted(votes, round, sender);
      && |after| == |votes| && |after[r]| == |votes[r]|
      && after[r][i] == if r == round && i == sender then (votes[r][i] + 1) % 0x1_0000_0000_0000_0000 else votes[r][i]
  {
  }

  class DbRef {
    const id: nat
    /** The number of members of the shard. */
    const size: nat
    /** The number of members of all shards. */
    const members: nat
    var slots: seq<Slots>
    var repHash: seq<Digest>
    var repRound: nat
    var repVote: seq<seq<nat>>

    predicate Valid()
      reads this
    {
      && id < size && |repHash| == |slots| == |repVote|
      && (forall r :: 0 <= r < |slots| ==> Sized(slots[r], size))
      && forall r :: 0 <= r < |repVote| ==> |repVote[r]| == members
    }

    constructor (id: nat, size: nat, members: nat, rounds: nat)
      requires id < size
      ensures Valid() && this.id == id && this.size == size && this.members == members
      ensures |slots| == rounds && repRound == 0
    {
      this.id, this.size, this.members := id, size, members;
      repRound, repVote := 0, seq(rounds, r => seq(members, i => 0));
      slots := seq(rounds, r => Slots(Nobody(size), seq(size, i => RepMsg(0, 0, [])), Nobody(size)));
      repHash := seq(rounds, r => []);
    }

    /** The reset at the start of a round. */
    method StartRound(round: nat)
      requires Valid() && round < |slots|
      modifies this`slots
      ensures Valid() && slots == old(slots)[round := old(slots)[round].(sig := Nobody(size), byz := Nobody(size))]
    {
      var sig, byz := slots[round].sig, slots[round].byz;
      for i := 0 to size
        invariant |sig| == |byz| == size && forall k :: 0 <= k < i ==> !sig[k] && !byz[k]
      {
        byz := byz[i := false];
        sig := sig[i := false];
      }
      assert sig == Nobody(size) && byz == Nobody(size);
      slots := slots[round := slots[round].(sig := sig, byz := byz)];
    }

    method MakeRepMsg(round: nat, body: seq<byte>) returns (m: RepMsg)
      requires Valid() && round < |slots|
      modifies this`slots
      ensures Valid() && m == RepMsg(id, round, body) && slots == old(slots)[round := Put(old(slots)[round], m)]
    {
      m := RepMsg(id, round, body);
      slots := slots[round := Put(slots[round], m)];
    }

    /** Everything known, or nothing once every slot is filled. */
    method GenerateGossipFir(round: nat, body: seq<byte>) returns (msg: Option<GossipFirMsg>)
      requires Valid() && round < |slots|
      modifies this`slots
      ensures Valid() && slots == old(slots)[round := WithOwn(old(slots)[round], id, round, body)]
      ensures msg == if Complete(slots[round]) then None
                     else Some(Gossiped(id, Known(slots[round], Nobody(size), size)))
      ensures msg == None <==> forall i :: 0 <= i < size ==> slots[round].sig[i]
      ensures msg.Some? ==> msg.value.id == id && msg.value.cnt == |msg.value.data|
      ensures msg.Some? ==> forall m :: m in msg.value.data <==>
        exists j :: 0 <= j < size && slots[round].sig[j] && slots[round].msg[j] == m
    {
      if !slots[round].sig[id] {
        var m := MakeRepMsg(round, body);
      } else {
        assert slots == slots[round := slots[round]];
      }
      var cnt := 0;
      var data := [];
      for i := 0 to size
        invariant data == Known(slots[round], Nobody(size), i)
        invariant cnt == 0 <==> forall k :: 0 <= k < i ==> slots[round].sig[k]
        invariant Valid() && slots == old(slots)[round := WithOwn(old(slots)[round], id, round, body)]
        modifies {}
      {
        if slots[round].sig[i] {
          data := data + [slots[round].msg[i]];
        } else {
          cnt := cnt + 1;
        }
      }
      msg := if cnt > 0 then Some(Gossiped(id, data)) else None;
      forall m
        ensures m in data <==> exists j :: 0 <= j < size && slots[round].sig[j] && slots[round].msg[j] == m
      {
        KnownExactly(slots[round], Nobody(size), size, m);
      }
    }

    /** The vote for the sender of a message, if its indices are in range. */
    method CountVote(sender: nat) returns (ok: bool)
      requires Valid()
      modifies this`repVote
      ensures Valid() && ok == CanVote(sender)
      ensures repVote == if ok then Voted(old(repVote), repRound, sender) else old(repVote)
    {
      ok := repRound < |repVote| && sender < members;
      if ok {
        repVote := Voted(repVote, repRound, sender);
      }
    }

    predicate CanVote(sender: nat)
      reads this
    {
      repRound < |repVote| && sender < members
    }

    /** The part of UpdateGossipFir for a round that exists. */
    method TakeInRound(msg: GossipFirMsg, hash: MsgHash, body: seq<byte>) returns (reply: Outcome<GossipFirMsg>)
      requires Valid() && msg.data != [] && msg.data[0].round < |slots|
      modifies this`slots
      ensures Valid() && slots == Taken(hash, old(slots), id, size, msg, body)
      ensures reply.Panicked? <==> msg.cnt > |msg.data| || !IdsBelow(Counted(msg), size)
      ensures reply.Returned? ==>
        var s := WithOwn(old(slots)[msg.data[0].round], id, msg.data[0].round, body);
        reply.value == Gossiped(id, Known(s, Senders(Counted(msg), size), size))
    {
      var round := msg.data[0].round;
      if !slots[round].sig[id] {
        var m := MakeRepMsg(round, body);
      }
      ghost var s := slots[round];
      assert s == WithOwn(old(slots)[round], id, round, body);
      var ok, current, unmentioned := TakeIn(hash, slots[round], msg, size);
      slots := slots[round := current];
      if !ok {
        return Panicked;
      }
      var known := ReplyWith(hash, s, current, msg.data[..msg.cnt], unmentioned);
      reply := Returned(Gossiped(id, known));
    }

    /** Counts a vote for the sender, takes in what is new and replies with what the sender did not mention.
        The program stops with an index out of range on an unknown sender, which leaves everything as it was, and
        after the vote on an empty message, in round |slots|, which its guard lets through, and at the first owner
        out of range or past the end of the data. */
    method UpdateGossipFir(msg: GossipFirMsg, hash: MsgHash, body: seq<byte>) returns (reply: Outcome<GossipFirMsg>)
      requires Valid()
      modifies this`slots, this`repVote
      ensures Valid()
      ensures reply.Panicked? <==> !old(CanVote(msg.id)) || OutOfRange(msg, |slots|, size)
      ensures repVote == if old(CanVote(msg.id)) then Voted(old(repVote), repRound, msg.id) else old(repVote)
      ensures slots == if old(CanVote(msg.id)) then Taken(hash, old(slots), id, size, msg, body) else old(slots)
      ensures old(CanVote(msg.id)) && msg.data != [] && msg.data[0].round > |slots| ==>
        reply == Returned(Gossiped(id, []))
      ensures reply.Returned? && msg.data[0].round < |slots| ==>
        var s := WithOwn(old(slots)[msg.data[0].round], id, msg.data[0].round, body);
        reply.value == Gossiped(id, Known(s, Senders(Counted(msg), size), size))
      ensures reply.Returned? && msg.data[0].round < |slots| ==>
        var r, data := msg.data[0].round, msg.data[..msg.cnt];
        var s, t := old(slots)[r], slots[r];
        && slots == old(slots)[r := t]
        && (forall i :: 0 <= i < size ==>
              (t.sig[i] <==> s.sig[i] || i == id || exists k :: 0 <= k < |data| && data[k].id == i))
        && (forall i :: 0 <= i < size ==>
              (t.byz[i] <==>
               s.byz[i] || exists k :: 0 <= k < |data| && data[k].id == i && hash(data[k]) != hash(t.msg[i])))
        && (forall i :: 0 <= i < size && s.sig[i] ==> t.msg[i] == s.msg[i])
    {
      var voted := CountVote(msg.id);
      if !voted {
        return Panicked;
      }
      if msg.data == [] {
        return Panicked;
      }
      var round := msg.data[0].round;
      if round > |slots| {
        return Returned(Gossiped(id, []));
      }
      if round == |slots| {
        return Panicked;
      }
      if !OutOfRange(msg, |slots|, size) {
        TakenEffect(hash, slots, id, size, msg, body);
      }
      reply := TakeInRound(msg, hash, body);
    }

    /** The handler of a gossip message looks up the round in the first message of its data and of the reply, and so
        fails when the sender mentioned all that this node knows. */
    method HandleGossipFirSend(msg: GossipFirMsg, hash: MsgHash, body: seq<byte>)
      returns (reply: Outcome<GossipFirMsg>)
      requires Valid()
      modifies this`slots, this`repVote
      ensures Valid()
      ensures msg.data == [] || !old(CanVote(msg.id)) ==> slots == old(slots) && repVote == old(repVote)
      ensures msg.data != [] && old(CanVote(msg.id)) ==>
        && slots == Taken(hash, old(slots), id, size, msg, body)
        && repVote == Voted(old(repVote), repRound, msg.id)
      ensures reply.Returned? <==>
        && old(CanVote(msg.id)) && !OutOfRange(msg, |slots|, size) && msg.data[0].round < |slots|
        && Unmentioned(WithOwn(old(slots)[msg.data[0].round], id, msg.data[0].round, body), Counted(msg), size)
      ensures reply.Returned? ==>
        var s := WithOwn(old(slots)[msg.data[0].round], id, msg.data[0].round, body);
        reply.value == Gossiped(id, Known(s, Senders(Counted(msg), size), size))
    {
      if msg.data == [] {
        return Panicked;
      }
      reply := UpdateGossipFir(msg, hash, body);
      if reply.Returned? {
        if msg.data[0].round < |slots| {
          ghost var s := WithOwn(old(slots)[msg.data[0].round], id, msg.data[0].round, body);
          KnownEmpty(s, Senders(Counted(msg), size), size);
        }
        if reply.value.data == [] {
          return Panicked;
        }
      }
    }

    /** The block of a round, chained to the block of the round before. */
    method GetRepBlock(round: nat, blockHash: BlockHash) returns (h: Digest)
      requires Valid() && round < |slots|
      modifies this`repHash
      ensures Valid() && repHash == old(repHash)[round := h]
      ensures h == BlockDigest(blockHash, slots[round], old(repHash), round)
      ensures h == blockHash(slots[round].msg, if round > 0 then old(repHash)[round - 1] else seq(32, i => 0))
    {
      var tmp := NoDigest();
      if round > 0 {
        tmp := repHash[round - 1];
      }
      assert NoDigest() == seq(32, i => 0);
      h := blockHash(slots[round].msg, tmp);
      repHash := repHash[round := h];
    }
  }

  /** The data that the loop over `cnt` messages reaches. */
  function Counted(msg: GossipFirMsg): seq<RepMsg> {
    if msg.cnt <= |msg.data| then msg.data[..msg.cnt] else msg.data
  }

  /** The messages, of known senders, on which the program indexes out of range. */
  predicate OutOfRange(msg: GossipFirMsg, rounds: nat, size: nat) {
    || msg.data == [] || msg.data[0].round == rounds
    || (msg.data[0].round < rounds && (msg.cnt > |msg.data| || !IdsBelow(Counted(msg), size)))
  }

  /** The guard `round > limit` and what it should have been: of messages with known owners, those of the one
      round that equals the limit get past it and out of range. */
  lemma GuardMissesLimit(msg: GossipFirMsg, rounds: nat, size: nat)
    requires msg.data != [] && msg.cnt == |msg.data| && IdsBelow(msg.data, size)
    ensures !(msg.data[0].round > rounds) && OutOfRange(msg, rounds, size) <==> msg.data[0].round == rounds
    ensures var late := Gossiped(0, [RepMsg(0, rounds, [])]);
      OutOfRange(late, rounds, size) && (size > 0 ==> IdsBelow(late.data, size))
  {
    assert msg.data[..|msg.data|] == msg.data;
  }

  /** Some slot is full whose owner is not in the data. */
  predicate Unmentioned(s: Slots, data: seq<RepMsg>, size: nat)
    requires |s.sig| == size
  {
    exists j :: 0 <= j < size && s.sig[j] && !Senders(data, size)[j]
  }

  /** The handler replies to a message without the receiver's own, and whenever something was not mentioned. */
  lemma NotMentioned(s: Slots, data: seq<RepMsg>, size: nat, j: nat)
    requires |s.sig| == size && j < size && s.sig[j] && forall k :: 0 <= k < |data| ==> data[k].id != j
    ensures Unmentioned(s, data, size)
  {
    assert !Senders(data, size)[j];
  }

  lemma {:induction false} KnownMentions(s: Slots, size: nat, n: nat, j: nat) returns (k: nat)
    requires Sized(s, size) && n <= size && j < n && s.sig[j] && s.msg[j].id == j
    ensures k < |Known(s, Nobody(size), n)| && Known(s, Nobody(size), n)[k].id == j
  {
    if j == n - 1 {
      k := |Known(s, Nobody(size), n - 1)|;
    } else {
      k := KnownMentions(s, size, n - 1, j);
    }
  }

  /** So the handler fails on what a node sends that knows as much as this one, which is what two nodes come to
      when the reply of one has reached the other. */
  lemma EquallyInformed(s: Slots, size: nat)
    requires Sized(s, size) && forall j :: 0 <= j < size && s.sig[j] ==> s.msg[j].id == j
    ensures !Unmentioned(s, Known(s, Nobody(size), size), size)
  {
    forall j | 0 <= j < size && s.sig[j]
      ensures Senders(Known(s, Nobody(size), size), size)[j]
    {
      var k := KnownMentions(s, size, size, j);
    }
  }

  lemma {:induction false} KnownEmpty(s: Slots, skip: seq<bool>, n: nat)
    requires Sized(s, |s.sig|) && |skip| == |s.sig| && n <= |s.sig|
    ensures Known(s, skip, n) == [] <==> forall j :: 0 <= j < n ==> !(s.sig[j] && !skip[j])
  {
    if n > 0 {
      KnownEmpty(s, skip, n - 1);
    }
  }

  /** The messages before the first sender that is out of range. */
  function InRange(data: seq<RepMsg>, size: nat): (p: seq<RepMsg>)
    ensures IdsBelow(p, size) && p <= data
    ensures p == data <==> IdsBelow(data, size)
  {
    if data == [] then []
    else
      var p := InRange(data[..|data| - 1], size);
      if |p| == |data| - 1 && data[|data| - 1].id < size then data else p
  }

  lemma {:induction false} InRangeStops(data: seq<RepMsg>, i: nat, size: nat)
    requires i < |data| && IdsBelow(data[..i], size) && data[i].id >= size
    ensures InRange(data, size) == data[..i]
  {
    var n := |data| - 1;
    if i < n {
      assert data[..n][..i] == data[..i];
      InRangeStops(data[..n], i, size);
    }
  }

  /** One message. */
  method TakeOne(hash: MsgHash, s: Slots, m: RepMsg) returns (t: Slots)
    requires m.id < |s.sig| && Sized(s, |s.sig|)
    ensures t == Receive(hash, s, m)
  {
    t := s;
    if t.sig[m.id] {
      if hash(t.msg[m.id]) != hash(m) {
        t := t.(byz := t.byz[m.id := true]);
      }
    } else {
      t := t.(sig := t.sig[m.id := true], msg := t.msg[m.id := m]);
    }
  }

  /** The loop over the received messages, up to an owner that is out of range or past the end. */
  method TakeIn(hash: MsgHash, s: Slots, msg: GossipFirMsg, size: nat)
    returns (ok: bool, current: Slots, tmpArr: seq<bool>)
    requires Sized(s, size)
    ensures ok == (msg.cnt <= |msg.data| && IdsBelow(Counted(msg), size))
    ensures current == ReceiveAll(hash, s, InRange(Counted(msg), size)) && |tmpArr| == size
    ensures ok ==> forall k :: 0 <= k < size ==> (tmpArr[k] <==> s.sig[k] && !Senders(Counted(msg), size)[k])
  {
    var data := msg.data;
    tmpArr := s.sig;
    current := s;
    for i := 0 to msg.cnt
      invariant i <= |data| && Sized(current, size) && |tmpArr| == size && IdsBelow(data[..i], size)
      invariant current == ReceiveAll(hash, s, data[..i])
      invariant forall k :: 0 <= k < size ==> (tmpArr[k] <==> s.sig[k] && !Senders(data[..i], size)[k])
    {
      if i == |data| {
        assert data[..i] == data;
        return false, current, tmpArr;
      }
      assert data[..i + 1][..i] == data[..i];
      var sender := data[i].id;
      if sender >= size {
        assert Counted(msg)[..i] == data[..i];
        InRangeStops(Counted(msg), i, size);
        return false, current, tmpArr;
      }
      tmpArr := tmpArr[sender := false];
      SendersMore(data, i, size);
      current := TakeOne(hash, current, data[i]);
    }
    ok := true;
  }

  /** The loop that collects the reply. */
  method ReplyWith(ghost hash: MsgHash, ghost s: Slots, current: Slots, ghost data: seq<RepMsg>, tmpArr: seq<bool>)
    returns (reply: seq<RepMsg>)
    requires Sized(s, |s.sig|) && IdsBelow(data, |s.sig|) && current == ReceiveAll(hash, s, data) && |tmpArr| == |s.sig|
    requires forall k :: 0 <= k < |tmpArr| ==> (tmpArr[k] <==> s.sig[k] && !Senders(data, |tmpArr|)[k])
    ensures reply == Known(s, Senders(data, |tmpArr|), |tmpArr|)
  {
    reply := [];
    for i := 0 to |tmpArr|
      invariant reply == Known(s, Senders(data, |tmpArr|), i)
    {
      if tmpArr[i] {
        KeptByAll(hash, s, data, i);
        reply := reply + [current.msg[i]];
      }
    }
  }

  lemma SendersMore(data: seq<RepMsg>, i: nat, size: nat)
    requires i < |data| && data[i].id < size
    ensures Senders(data[..i + 1], size) == Senders(data[..i], size)[data[i].id := true]
  {
    var a, b := data[..i], data[..i + 1];
    assert b == a + [data[i]];
    forall k | 0 <= k < size
      ensures Senders(b, size)[k] == Senders(a, size)[data[i].id := true][k]
    {
      if k == data[i].id {
        assert b[i].id == k;
      } else if Senders(a, size)[k] {
        var j :| 0 <= j < |a| && a[j].id == k;
        assert b[j].id == k;
      }
    }
  }

  /** A filled slot keeps its message. */
  lemma {:induction false} KeptByAll(hash: MsgHash, s: Slots, data: seq<RepMsg>, i: nat)
    requires Sized(s, |s.sig|) && IdsBelow(data, |s.sig|) && i < |s.sig| && s.sig[i]
    ensures ReceiveAll(hash, s, data).sig[i] && ReceiveAll(hash, s, data).msg[i] == s.msg[i]
  {
    if data != [] {
      KeptByAll(hash, s, data[..|data| - 1], i);
    }
  }
}
