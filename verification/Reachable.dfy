/** The properties of the block tree restated for runs: what holds in every state that deliveries to a
    new tree can lead to, whatever the blocks, their order, and the order in which orphans are visited. */
module Reachable {
  import opened Basics
  import opened Types
  import opened Balances
  import opened Forests
  import opened Trees
  import opened TreeInvariant
  import opened Deliveries
  import opened Orphans
  import opened Solvency
  import opened FinalizedReads
  import opened Acceptance

  /** Finality is exactly six deep. */
  lemma SixDeepInEveryState(env: Env, states: seq<Store>, ds: seq<Delivery>, accs: seq<seq<BlockNode>>, i: nat)
    returns (m: nat)
    requires Run(env, states, ds, accs) && i < |states|
    ensures var t := states[i].tree;
            && t.finalizedBlockId in t.forest.blockDepth
            && (exists id :: id in t.forest.blockDepth && t.forest.blockDepth[id] == m)
            && (forall id | id in t.forest.blockDepth :: t.forest.blockDepth[id] <= m)
            && t.forest.blockDepth[t.finalizedBlockId] == if m > 6 then m - 6 else 0
  {
    RunKeepsInv(env, states, ds, accs, i);
    m := SixDeepFinality(env, states[i].tree);
  }

  /** One delivery finalizes at most one block per block it accepts, and accepts at least one whenever
      it finalizes any. */
  lemma FinalityStepInEveryRun(env: Env, states: seq<Store>, ds: seq<Delivery>, accs: seq<seq<BlockNode>>, i: nat)
    requires Run(env, states, ds, accs) && i < |ds|
    ensures var t, t' := states[i].tree, states[i + 1].tree;
            && Rooted(t.forest) && t.finalizedBlockId in t.forest.allBlocks
            && Rooted(t'.forest) && t'.finalizedBlockId in t'.forest.allBlocks
            && Evolves(t, t', |accs[i]|)
  {
    RunStepAdds(env, states, ds, accs, i);
    AddBlockEvolves(env, states[i], ds[i], accs[i], states[i + 1]);
  }

  /** The finalized balances and ids are the replay of the finalized path, and money is conserved. */
  lemma LedgerInEveryState(env: Env, states: seq<Store>, ds: seq<Delivery>, accs: seq<seq<BlockNode>>, i: nat)
    requires Run(env, states, ds, accs) && i < |states|
    ensures var t := states[i].tree;
            && Rooted(t.forest) && t.finalizedBlockId in t.forest.allBlocks
            && t.finalizedBalanceMap == Replay(Path(t.forest, t.finalizedBlockId))
            && (forall id :: id in t.finalizedTxIds <==> OccursIn(env, Path(t.forest, t.finalizedBlockId)[1..], id))
            && Total(t.finalizedBalanceMap) == 299792458 + 10 * t.forest.blockDepth[t.finalizedBlockId]
  {
    RunKeepsInv(env, states, ds, accs, i);
    LedgerConserved(env, states[i].tree);
    forall id {
      IdsOccur(env, Path(states[i].tree.forest, states[i].tree.finalizedBlockId), id);
    }
  }

  /** The working block is one to six levels below the finalized one once a block was accepted, and the
      pending transactions are those of the path segment between them, last block first. */
  lemma PendingInEveryState(env: Env, states: seq<Store>, ds: seq<Delivery>, accs: seq<seq<BlockNode>>, i: nat)
    requires Run(env, states, ds, accs) && i < |states|
    requires states[i].tree.forest.allBlocks.Keys != {ROOT_ID}
    ensures var t := states[i].tree;
            && Sound(t) && StrictlyAbove(t.forest, t.finalizedBlockId, t.workingBlockId)
            && 1 <= t.forest.blockDepth[t.workingBlockId] - t.forest.blockDepth[t.finalizedBlockId] <= 6
            && PendingTxs(t)
               == TxsBackwards(Path(t.forest, t.workingBlockId)[t.forest.blockDepth[t.finalizedBlockId] + 1..])
  {
    RunKeepsInv(env, states, ds, accs, i);
    WorkingDistance(env, states[i].tree);
  }

  /** The shape of the tree: the genesis block is reached in exactly depth steps, `childrenMap` is the
      duplicate-free inverse of the parent relation, no Merkle root repeats on a path below depth 1. */
  lemma ShapeInEveryState(env: Env, states: seq<Store>, ds: seq<Delivery>, accs: seq<seq<BlockNode>>, i: nat,
                          id: BlockId, n: nat)
    requires Run(env, states, ds, accs) && i < |states| && id in states[i].tree.forest.allBlocks
    ensures var t := states[i].tree;
            && Rooted(t.forest)
            && (Up(t.forest, id, n) == ROOT_ID <==> n >= t.forest.blockDepth[id])
            && (forall p :: id in ChildrenOf(t.childrenMap, p) <==> id != ROOT_ID && p == Parent(t.forest, id))
            && (forall p | p in t.childrenMap :: Distinct(t.childrenMap[p]))
            && (forall j, k | 2 <= j < k <= t.forest.blockDepth[id] ::
                  Path(t.forest, id)[j].header.merkleRoot != Path(t.forest, id)[k].header.merkleRoot)
  {
    RunKeepsInv(env, states, ds, accs, i);
    TreeWellFormed(env, states[i].tree, id, n);
  }

  /** The balance check on a block below any stored block that passes the reward walk: what each user is
      taken to have, in terms of the replay of that block's own path. */
  lemma CheckedInEveryState(env: Env, states: seq<Store>, ds: seq<Delivery>, accs: seq<seq<BlockNode>>, i: nat,
                            p: BlockId, u: UserId)
    requires Run(env, states, ds, accs) && i < |states| && p in states[i].tree.forest.allBlocks
    ensures var t := states[i].tree;
            && Sound(t)
            && (Extends(t, p) ==>
                  var own := Path(t.forest, p)[t.forest.blockDepth[t.finalizedBlockId] + 1..];
                  Get(CheckedBalances(t, p), u)
                  == Get(Replay(Path(t.forest, p)), u) + Net(PendingTxs(t), u) - Net(TxsBackwards(own), u)
                     - (if own != [] && own[0].header.rewardReceiver == u then 10 else 0))
  {
    RunKeepsInv(env, states, ds, accs, i);
    if Extends(states[i].tree, p) {
      CheckedOwn(env, states[i].tree, p, u);
    }
  }

  /** On the working block the check is exact, and what passes it is payable in the true replay. */
  lemma CheckExactInEveryState(env: Env, states: seq<Store>, ds: seq<Delivery>, accs: seq<seq<BlockNode>>, i: nat,
                               b: BlockNode)
    requires Run(env, states, ds, accs) && i < |states| && b.header.parent == states[i].tree.workingBlockId
    ensures var t := states[i].tree;
            && Sound(t)
            && (BalanceOk(t, b) <==> Scan(SpendableAt(t, b.header.parent), b.transactions))
            && (BalanceOk(t, b) ==> Scan(Replay(Path(t.forest, b.header.parent)), b.transactions))
  {
    var t := states[i].tree;
    RunKeepsInv(env, states, ds, accs, i);
    WorkingExtends(env, t);
    BalanceCheckExact(env, t, b);
    if BalanceOk(t, b) {
      AcceptedIsPayable(env, t, b);
    }
  }

  /** Below any stored block that passes the reward walk, the check guarantees solvency in the replay if
      and only if that block's branch covers the working branch. */
  lemma CheckSoundInEveryState(env: Env, states: seq<Store>, ds: seq<Delivery>, accs: seq<seq<BlockNode>>, i: nat,
                               p: BlockId)
    requires Run(env, states, ds, accs) && i < |states| && p in states[i].tree.forest.allBlocks
    ensures var t := states[i].tree;
            && Sound(t)
            && (Extends(t, p) ==>
                  ((forall txs :: Scan(CheckedBalances(t, p), txs) ==> Scan(Replay(Path(t.forest, p)), txs))
                   <==> BranchCovers(t, p)))
  {
    RunKeepsInv(env, states, ds, accs, i);
    if Extends(states[i].tree, p) {
      CheckSoundExactly(env, states[i].tree, p);
    }
  }

  /** What one delivery accepts, in any run: a line of blocks going down from the delivered one, each a
      buffered child of the one before; nothing else enters the tree or leaves the buffer. */
  lemma EffectInEveryRun(env: Env, states: seq<Store>, ds: seq<Delivery>, accs: seq<seq<BlockNode>>, i: nat)
    requires Run(env, states, ds, accs) && i < |ds|
    ensures Effect(states[i], accs[i], states[i + 1])
    ensures accs[i] != [] ==> accs[i][0] == ds[i].block
  {
    RunOrphansKeyed(env, states, ds, accs, i);
    RunStepAdds(env, states, ds, accs, i);
    AddBlockEffect(env, states[i], ds[i], accs[i], states[i + 1]);
  }

  /** The buffer after each delivery of any run, exactly. */
  lemma BufferInEveryRun(env: Env, states: seq<Store>, ds: seq<Delivery>, accs: seq<seq<BlockNode>>, i: nat)
    requires Run(env, states, ds, accs) && i < |ds|
    ensures var s, b, s' := states[i], ds[i].block, states[i + 1];
            s'.orphans
            == if b.header.blockId !in s.tree.forest.allBlocks && b.header.parent !in s.tree.forest.allBlocks
                  && b.header.blockId !in s.orphans && Authentic(env, b)
                  && seq(ds[i].leadingZeroLen, _ => '0') <= b.header.blockId
               then s.orphans[b.header.blockId := b]
               else s.orphans - (set j | 0 <= j < |accs[i]| && HasOrphanChild(s.orphans, accs[i][j].header.blockId)
                                       :: accs[i][j].header.blockId)
  {
    IntegrityExactly(env, ds[i].block, ds[i].leadingZeroLen);
    RunStepAdds(env, states, ds, accs, i);
    BufferExactly(env, states[i], ds[i], accs[i], states[i + 1]);
  }

  /** In any run, the only buffered child of an accepted block is attached if and only if it passes the
      checks against the tree with that block. */
  lemma OnlyChildInEveryRun(env: Env, states: seq<Store>, ds: seq<Delivery>, accs: seq<seq<BlockNode>>, i: nat,
                            k: BlockId)
    requires Run(env, states, ds, accs) && i < |ds| && accs[i] != []
    requires OnlyChild(states[i].orphans, ds[i].block.header.blockId, k) && k !in states[i].tree.forest.allBlocks
    ensures var t, b := states[i].tree, ds[i].block;
            && Rooted(t.forest) && Attachable(t.forest, b)
            && Sound(Link(env, t, b)) && states[i].orphans[k].header.parent in Link(env, t, b).forest.allBlocks
            && (k in states[i + 1].tree.forest.allBlocks
                <==> Authentic(env, states[i].orphans[k])
                     && seq(ds[i].leadingZeroLen, _ => '0') <= states[i].orphans[k].header.blockId
                     && Accepts(Link(env, t, b), states[i].orphans[k]))
  {
    IntegrityExactly(env, states[i].orphans[k], ds[i].leadingZeroLen);
    RunOrphansKeyed(env, states, ds, accs, i);
    RunStepAdds(env, states, ds, accs, i);
    OnlyChildExactly(env, states[i], ds[i], accs[i], states[i + 1], k);
  }

  /** In any run, of two siblings that wait for the same parent one is lost for good when it arrives. */
  lemma SiblingsLoseOne(env: Env, states: seq<Store>, ds: seq<Delivery>, accs: seq<seq<BlockNode>>, i: nat, j: nat,
                        k1: BlockId, k2: BlockId)
    requires Run(env, states, ds, accs) && i < |ds| && i < j < |states| && accs[i] != [] && k1 != k2
    requires k1 in states[i].orphans && k1 !in states[i].tree.forest.allBlocks
    requires k2 in states[i].orphans && k2 !in states[i].tree.forest.allBlocks
    requires states[i].orphans[k1].header.parent == ds[i].block.header.blockId == states[i].orphans[k2].header.parent
    ensures Stranded(states[j], k1) || Stranded(states[j], k2)
  {
    RunOrphansKeyed(env, states, ds, accs, i);
    RunStepAdds(env, states, ds, accs, i);
    SiblingStranded(env, states[i], ds[i], accs[i], states[i + 1], k1, k2);
    if Stranded(states[i + 1], k1) {
      StrandedForever(env, states, ds, accs, i + 1, j, k1);
    } else {
      StrandedForever(env, states, ds, accs, i + 1, j, k2);
    }
  }

  /** Reads of the finalized blocks compose along any run: what a later state answers from an already
      finalized block is what the earlier state answered, then what is new since. */
  lemma ReadsComposeInEveryRun(env: Env, states: seq<Store>, ds: seq<Delivery>, accs: seq<seq<BlockNode>>, i: nat,
                               j: nat, since: BlockId)
    requires Run(env, states, ds, accs) && i <= j < |states| && since in states[i].tree.forest.allBlocks
    ensures var t, t' := states[i].tree, states[j].tree;
            && Rooted(t.forest) && t.finalizedBlockId in t.forest.allBlocks
            && Rooted(t'.forest) && t'.finalizedBlockId in t'.forest.allBlocks
            && (OnPath(t.forest, since, t.finalizedBlockId) ==>
                  && FinalizedSince(t, since).Success? && FinalizedSince(t', since).Success?
                  && FinalizedSince(t', t.finalizedBlockId).Success?
                  && Path(t.forest, since) + FinalizedSince(t, since).value == Path(t.forest, t.finalizedBlockId)
                  && FinalizedSince(t', since).value
                     == FinalizedSince(t, since).value + FinalizedSince(t', t.finalizedBlockId).value)
  {
    FinalityNeverRevoked(env, states, ds, accs, i, j);
    if OnPath(states[i].tree.forest, since, states[i].tree.finalizedBlockId) {
      ReadsCompose(states[i].tree, states[j].tree, since);
      ReadAfter(states[i].tree, since);
    }
  }
}
