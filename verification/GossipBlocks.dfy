/** The chains of reputation blocks that gossiping nodes build (rccache/cache_rep.go:181-189,
    testforclient/network/newRepProtocol.go:39-95). */
module GossipBlocks {
  import opened Gossip
  import opened GossipRuns

  /** The chain over the messages made in rounds 0 to r. */
  function TrueChain(block: BlockHash, made: map<(nat, nat), RepMsg>, size: nat, r: nat): Digest {
    block(Vector(made, size, r), if r > 0 then TrueChain(block, made, size, r - 1) else NoDigest())
  }

  predicate MadeUpTo(made: map<(nat, nat), RepMsg>, size: nat, r: nat) {
    forall q :: 0 <= q <= r ==> AllMade(made, size, q)
  }

  lemma {:induction false} TrueChainFixed(block: BlockHash, a: map<(nat, nat), RepMsg>, b: map<(nat, nat), RepMsg>,
                                          size: nat, r: nat)
    requires Extends(a, b) && MadeUpTo(a, size, r)
    ensures MadeUpTo(b, size, r) && TrueChain(block, b, size, r) == TrueChain(block, a, size, r)
  {
    assert AllMade(a, size, r);
    assert Vector(a, size, r) == Vector(b, size, r);
    forall q | 0 <= q <= r
      ensures AllMade(b, size, q)
    {
      assert AllMade(a, size, q);
    }
    if r > 0 {
      TrueChainFixed(block, a, b, size, r - 1);
    }
  }

  /** Whoever was told that a round is complete still holds it complete. */
  ghost predicate ToldInv(sys: System, size: nat, rounds: nat)
    requires Shaped(sys, size, rounds)
  {
    forall n, r :: (n, r) in sys.told ==>
      n < size && r < rounds && (n, r) in sys.started && Complete(At(sys, n, r))
  }

  /** A block made in order carries the hash of the chain over what was really made. */
  predicate OneBlock(block: BlockHash, sys: System, size: nat, rounds: nat, n: nat, r: nat)
    requires Shaped(sys, size, rounds) && (n, r) in sys.blocks
  {
    && n < size && r < rounds
    && (sys.blocks[(n, r)] ==>
          && InOrder(sys, n, r) && MadeUpTo(sys.made, size, r)
          && sys.repHash[n][r] == TrueChain(block, sys.made, size, r))
  }

  ghost predicate BlocksInv(block: BlockHash, sys: System, size: nat, rounds: nat) {
    && Inv(sys, size, rounds) && ToldInv(sys, size, rounds)
    && forall n, r :: (n, r) in sys.blocks ==> OneBlock(block, sys, size, rounds, n, r)
  }

  lemma StaysComplete(h: Hashes, sys: System, e: Event, size: nat, rounds: nat, n: nat, r: nat)
    requires Inv(sys, size, rounds) && Enabled(sys, e, size, rounds)
    requires n < size && r < rounds && (n, r) in sys.started && Complete(At(sys, n, r))
    ensures var t := Next(h, sys, e, size, rounds);
      Shaped(t, size, rounds) && (n, r) in t.started && Complete(At(t, n, r))
  {
    StepKeeps(h, sys, e, size, rounds);
    forall j | 0 <= j < size
      ensures At(Next(h, sys, e, size, rounds), n, r).sig[j]
    {
      assert At(sys, n, r).sig[j];
      StepStable(h, sys, e, size, rounds, n, r, j);
    }
  }

  lemma NewlyTold(h: Hashes, sys: System, e: Event, size: nat, rounds: nat, n: nat, r: nat)
    requires Shaped(sys, size, rounds) && Enabled(sys, e, size, rounds) && (n, r) !in sys.told
    requires (n, r) in Next(h, sys, e, size, rounds).told
    ensures var t := Next(h, sys, e, size, rounds);
      && n < size && r < rounds && (n, r) in t.started
      && |t.slots| == size && |t.slots[n]| == rounds && Complete(At(t, n, r))
  {
    assert e.Tick? && e.node == n && e.round == r;
  }

  lemma StepKeepsTold(h: Hashes, sys: System, e: Event, size: nat, rounds: nat)
    requires BlocksInv(h.block, sys, size, rounds) && Enabled(sys, e, size, rounds)
    ensures var t := Next(h, sys, e, size, rounds); Shaped(t, size, rounds) && ToldInv(t, size, rounds)
  {
    StepKeeps(h, sys, e, size, rounds);
    var t := Next(h, sys, e, size, rounds);
    forall n, r | (n, r) in t.told
      ensures n < size && r < rounds && (n, r) in t.started && Complete(At(t, n, r))
    {
      if (n, r) in sys.told {
        StaysComplete(h, sys, e, size, rounds, n, r);
      } else {
        NewlyTold(h, sys, e, size, rounds, n, r);
      }
    }
  }

  /** What was made stays made. */
  lemma StepExtends(h: Hashes, sys: System, e: Event, size: nat, rounds: nat)
    requires Inv(sys, size, rounds) && Enabled(sys, e, size, rounds)
    ensures Extends(sys.made, Next(h, sys, e, size, rounds).made)
  {
    match e
    case Start(_, _) =>
    case Tick(n, r, body) =>
      PrepareKeeps(sys, n, r, body, size, rounds);
    case Deliver(n, data, body) =>
      PrepareKeeps(sys, n, data[0].round, body, size, rounds);
    case Block(_, _) =>
  }

  /** The block that a node makes after it was told, on top of blocks made in the same way. */
  lemma NewBlock(h: Hashes, sys: System, n: nat, r: nat, size: nat, rounds: nat)
    requires BlocksInv(h.block, sys, size, rounds) && Enabled(sys, Block(n, r), size, rounds)
    ensures var t := Next(h, sys, Block(n, r), size, rounds);
      Shaped(t, size, rounds) && OneBlock(h.block, t, size, rounds, n, r)
  {
    if (n, r) in sys.told && InOrder(sys, n, r) {
      CompleteIsVector(sys, size, rounds, n, r);
      if r > 0 {
        assert OneBlock(h.block, sys, size, rounds, n, r - 1);
      }
    }
  }

  lemma StepKeepsBlocks(h: Hashes, sys: System, e: Event, size: nat, rounds: nat)
    requires BlocksInv(h.block, sys, size, rounds) && Enabled(sys, e, size, rounds)
    ensures BlocksInv(h.block, Next(h, sys, e, size, rounds), size, rounds)
  {
    StepKeeps(h, sys, e, size, rounds);
    StepKeepsTold(h, sys, e, size, rounds);
    StepExtends(h, sys, e, size, rounds);
    var t := Next(h, sys, e, size, rounds);
    forall n, r | (n, r) in t.blocks
      ensures OneBlock(h.block, t, size, rounds, n, r)
    {
      if e == Block(n, r) {
        NewBlock(h, sys, n, r, size, rounds);
      } else {
        OldBlock(h, sys, e, size, rounds, n, r);
      }
    }
  }

  predicate SameBlock(sys: System, t: System, n: nat, r: nat) {
    && (n, r) in sys.blocks && (n, r) in t.blocks && t.blocks[(n, r)] == sys.blocks[(n, r)]
    && n < |sys.repHash| == |t.repHash| && r < |sys.repHash[n]| == |t.repHash[n]|
    && t.repHash[n][r] == sys.repHash[n][r]
  }

  /** A block is made once, and nothing else touches its hash. */
  lemma KeptBlock(h: Hashes, sys: System, e: Event, size: nat, rounds: nat, n: nat, r: nat)
    requires Shaped(sys, size, rounds) && Enabled(sys, e, size, rounds) && n < size && r < rounds
    requires (n, r) in sys.blocks
    ensures SameBlock(sys, Next(h, sys, e, size, rounds), n, r)
  {
    match e
    case Start(_, _) =>
    case Tick(_, _, _) =>
    case Deliver(_, _, _) =>
    case Block(_, _) =>
  }

  lemma OnlyBlockAdds(h: Hashes, sys: System, e: Event, size: nat, rounds: nat, n: nat, r: nat)
    requires Shaped(sys, size, rounds) && Enabled(sys, e, size, rounds)
    requires e != Block(n, r) && (n, r) in Next(h, sys, e, size, rounds).blocks
    ensures (n, r) in sys.blocks
  {
  }

  lemma BlockCarried(block: BlockHash, sys: System, t: System, size: nat, rounds: nat, n: nat, r: nat)
    requires Shaped(sys, size, rounds) && Shaped(t, size, rounds) && Extends(sys.made, t.made)
    requires SameBlock(sys, t, n, r) && OneBlock(block, sys, size, rounds, n, r)
    requires r > 0 && (n, r - 1) in sys.blocks ==> SameBlock(sys, t, n, r - 1)
    ensures OneBlock(block, t, size, rounds, n, r)
  {
    if sys.blocks[(n, r)] {
      TrueChainFixed(block, sys.made, t.made, size, r);
    }
  }

  lemma OldBlock(h: Hashes, sys: System, e: Event, size: nat, rounds: nat, n: nat, r: nat)
    requires BlocksInv(h.block, sys, size, rounds) && Enabled(sys, e, size, rounds) && e != Block(n, r)
    requires var t := Next(h, sys, e, size, rounds);
      Shaped(t, size, rounds) && Extends(sys.made, t.made) && (n, r) in t.blocks
    ensures OneBlock(h.block, Next(h, sys, e, size, rounds), size, rounds, n, r)
  {
    OnlyBlockAdds(h, sys, e, size, rounds, n, r);
    assert OneBlock(h.block, sys, size, rounds, n, r);
    KeptBlock(h, sys, e, size, rounds, n, r);
    if r > 0 && (n, r - 1) in sys.blocks {
      KeptBlock(h, sys, e, size, rounds, n, r - 1);
    }
    BlockCarried(h.block, sys, Next(h, sys, e, size, rounds), size, rounds, n, r);
  }

  lemma {:induction false} RunKeepsBlocks(h: Hashes, sys: System, run: seq<Event>, size: nat, rounds: nat)
    requires BlocksInv(h.block, sys, size, rounds) && Feasible(h, sys, run, size, rounds)
    ensures BlocksInv(h.block, After(h, sys, run, size, rounds), size, rounds)
    decreases |run|
  {
    if run != [] {
      StepKeepsBlocks(h, sys, run[0], size, rounds);
      RunKeepsBlocks(h, Next(h, sys, run[0], size, rounds), run[1..], size, rounds);
    }
  }

  lemma {:induction false} EarlierBlocks(block: BlockHash, sys: System, size: nat, rounds: nat, n: nat, r: nat, q: nat)
    requires BlocksInv(block, sys, size, rounds) && q <= r && (n, r) in sys.blocks && sys.blocks[(n, r)]
    ensures (n, q) in sys.blocks && sys.blocks[(n, q)] && n < size && q < rounds
    ensures sys.repHash[n][q] == TrueChain(block, sys.made, size, q)
  {
    assert OneBlock(block, sys, size, rounds, n, r);
    if q < r {
      EarlierBlocks(block, sys, size, rounds, n, r - 1, q);
    }
  }

  /** In every run, two nodes that were told in each of the rounds 0 to r that all slots are filled, and then
      made the blocks of these rounds in order, each at its own time, store the same hashes for them. */
  lemma SameChain(h: Hashes, initial: System, run: seq<Event>, size: nat, rounds: nat, m: nat, n: nat, r: nat, q: nat)
    requires Initial(initial, size, rounds) && Feasible(h, initial, run, size, rounds) && q <= r
    requires var t := After(h, initial, run, size, rounds);
      (m, r) in t.blocks && t.blocks[(m, r)] && (n, r) in t.blocks && t.blocks[(n, r)]
    ensures var t := After(h, initial, run, size, rounds);
      Shaped(t, size, rounds) && m < size && n < size && q < rounds && t.repHash[m][q] == t.repHash[n][q]
  {
    RunKeepsBlocks(h, initial, run, size, rounds);
    var t := After(h, initial, run, size, rounds);
    EarlierBlocks(h.block, t, size, rounds, m, r, q);
    EarlierBlocks(h.block, t, size, rounds, n, r, q);
  }
}
