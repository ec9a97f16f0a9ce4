/** What enters the node in every interleaving of its threads: transactions, blocks from outside, and the
    blocks its miner assembles and solves. */
module Arrivals {
  import opened Types
  import opened Merkle
  import opened Forests
  import opened Trees
  import opened Deliveries
  import opened TxPools
  import opened Acceptance
  import opened Nodes

  lemma StepAt(env: Env, cfg: Config, nodes: seq<Node>, events: seq<Event>, i: nat)
    requires NodeRun(env, cfg, nodes, events) && i < |events|
    ensures NodeInv(env, cfg, nodes[i]) && Readable(env, nodes[i])
    ensures NodeStep(env, cfg, nodes[i], events[i], nodes[i + 1])
  {
    NodeRunKeeps(env, cfg, nodes, events, i);
    InvReadable(env, cfg, nodes[i]);
    assert NodeStepAt(env, cfg, nodes, events, i);
  }

  // ----- transactions -----

  /** In every run: a transaction that arrives is in the pool afterwards if and only if it was, or is not removed
      and signed, and there was room; it goes to the end, and nothing else changes. */
  lemma TxArrivesExactly(env: Env, cfg: Config, nodes: seq<Node>, events: seq<Event>, i: nat, tx: Transaction)
    requires NodeRun(env, cfg, nodes, events) && i < |events| && events[i] == TxArrives(tx)
    ensures var id, p, q := env.sha256(env.txJson(tx)), nodes[i].pool, nodes[i + 1].pool;
            && nodes[i + 1] == nodes[i].(pool := q)
            && (id in q.txIds <==> id in p.txIds || (id !in p.removed && |p.txIds| < 10000 && env.verifySig(tx)))
            && q.txIds == (if id in p.txIds || id !in q.txIds then p.txIds else p.txIds + [id])
            && q.removed == p.removed && q.lastFinalized == p.lastFinalized
  {
    StepAt(env, cfg, nodes, events, i);
    AddExactly(env, nodes[i].pool, tx);
  }

  // ----- blocks -----

  lemma FirstStored(env: Env, t: Tree, acc: seq<BlockNode>, t': Tree)
    requires Inv(env, t) && LinkRun(env, t, acc, t') && acc != []
    ensures acc[0].header.blockId in t'.forest.allBlocks
  {
    var t1 := FirstLink(env, t, acc, t');
    LinkRunEvolves(env, t1, acc[1..], t');
    assert acc[0].header.blockId in t1.forest.allBlocks;
  }

  /** A block that is added is in the tree afterwards if and only if it was, or passes the checks. */
  lemma StoredExactly(env: Env, s: Store, d: Delivery, acc: seq<BlockNode>, s': Store)
    requires Inv(env, s.tree) && AddReturns(env, s, d) && AddBlock(env, s, d, acc, s')
    ensures var id, p := d.block.header.blockId, d.block.header.parent;
            id in s'.tree.forest.allBlocks
            <==> id in s.tree.forest.allBlocks
                 || (id !in s.orphans && p in s.tree.forest.allBlocks && Authentic(env, d.block)
                     && seq(d.leadingZeroLen, _ => '0') <= id && Accepts(s.tree, d.block))
  {
    AcceptedWhenPassed(env, s, d, acc, s');
    IntegrityExactly(env, d.block, d.leadingZeroLen);
    AddBlockEvolves(env, s, d, acc, s');
    if acc == [] {
      NoLinks(env, s.tree, acc, s'.tree);
    } else {
      FirstStored(env, s.tree, acc, s'.tree);
    }
  }

  /** Adding a block at the acceptance difficulty. */
  lemma BlockStepExactly(env: Env, cfg: Config, n: Node, b: BlockNode, pc: MinerPc, stuck: MinerPc, n': Node)
    requires Inv(env, n.store.tree) && BlockStep(env, cfg, n, b, pc, stuck, n') && !n'.hung
    ensures var id, t := b.header.blockId, n.store.tree;
            id in n'.store.tree.forest.allBlocks
            <==> id in t.forest.allBlocks
                 || (id !in n.store.orphans && b.header.parent in t.forest.allBlocks && Authentic(env, b)
                     && seq(cfg.leadingZeroLenAcc, _ => '0') <= id && Accepts(t, b))
  {
    var d := Delivery(b, cfg.leadingZeroLenAcc);
    var acc, s' :| AddBlock(env, n.store, d, acc, s')
                   && n' == n.(store := s', pc := if acc == [] then pc else Disturb(pc));
    StoredExactly(env, n.store, d, acc, s');
  }

  /** In every run: a block that arrives from outside, if adding it returns, is in the tree afterwards if and
      only if it was, or passes the checks at the acceptance difficulty. */
  lemma BlockArrivesExactly(env: Env, cfg: Config, nodes: seq<Node>, events: seq<Event>, i: nat, b: BlockNode)
    requires NodeRun(env, cfg, nodes, events) && i < |events| && events[i] == BlockArrives(b) && !nodes[i + 1].hung
    ensures var id, s, t' := b.header.blockId, nodes[i].store, nodes[i + 1].store.tree;
            && Sound(s.tree)
            && (id in t'.forest.allBlocks
                <==> id in s.tree.forest.allBlocks
                     || (id !in s.orphans && b.header.parent in s.tree.forest.allBlocks && Authentic(env, b)
                         && seq(cfg.leadingZeroLenAcc, _ => '0') <= id && Accepts(s.tree, b)))
  {
    StepAt(env, cfg, nodes, events, i);
    BlockStepExactly(env, cfg, nodes[i], b, nodes[i].pc, nodes[i].pc, nodes[i + 1]);
  }

  /** In every run: when the miner does not give up, the block it adds is the assembled one with a nonce whose
      hash meets the mining difficulty and becomes its id; and if adding it returns, it is in the tree afterwards
      if and only if it was, or passes the checks at the acceptance difficulty. */
  lemma MinerAdds(env: Env, cfg: Config, nodes: seq<Node>, events: seq<Event>, i: nat) returns (b: BlockNode)
    requires NodeRun(env, cfg, nodes, events) && i < |events| && events[i] == MinerMoves
    requires nodes[i].pc.PuzzleReady? && nodes[i + 1] != nodes[i].(pc := Waiting)
    ensures var pre, h, s, t' := nodes[i].pc.pre, b.header, nodes[i].store, nodes[i + 1].store.tree;
            && h == BlockNodeHeader(pre.header.parent, pre.header.merkleRoot, pre.header.timestamp, h.blockId, h.nonce,
                                    pre.header.rewardReceiver)
            && b.transactions == pre.transactions && b.merkleTree == pre.merkleTree
            && Authentic(env, b.(transactions := [])) && seq(cfg.leadingZeroLen, _ => '0') <= h.blockId
            && Sound(s.tree)
            && (!nodes[i + 1].hung ==>
                  (h.blockId in t'.forest.allBlocks
                   <==> h.blockId in s.tree.forest.allBlocks
                        || (h.blockId !in s.orphans && h.parent in s.tree.forest.allBlocks && Authentic(env, b)
                            && seq(cfg.leadingZeroLenAcc, _ => '0') <= h.blockId && Accepts(s.tree, b))))
  {
    StepAt(env, cfg, nodes, events, i);
    var nonce;
    b, nonce := SolvedStep(env, cfg, nodes[i], nodes[i + 1]);
    if !nodes[i + 1].hung {
      BlockStepExactly(env, cfg, nodes[i], b, Waiting, Stuck, nodes[i + 1]);
    }
  }

  lemma SolvedStep(env: Env, cfg: Config, n: Node, n': Node) returns (b: BlockNode, nonce: string)
    requires Readable(env, n) && MinerStep(env, cfg, n, n') && n.pc.PuzzleReady? && n' != n.(pc := Waiting)
    ensures b == Mined(env, n.pc.pre, nonce) && BlockStep(env, cfg, n, b, Waiting, Stuck, n')
    ensures seq(cfg.leadingZeroLen, _ => '0') <= b.header.blockId
    ensures b.header.blockId
         == env.sha256(nonce + env.puzzleJson(Puzzle(b.header.parent, b.header.merkleRoot, b.header.rewardReceiver)))
  {
    nonce :| Solves(env, PuzzleString(env, n.pc.pre), nonce, cfg.leadingZeroLen)
             && BlockStep(env, cfg, n, Mined(env, n.pc.pre, nonce), Waiting, Stuck, n');
    b := Mined(env, n.pc.pre, nonce);
    ZerosExactly(b.header.blockId, cfg.leadingZeroLen);
  }

  // ----- the assembled block -----

  /** In every run: what the miner reads from the chain, one read at a time: the working block, and then the
      transactions of the unfinalized part of its path, last block first. */
  lemma MinerReads(env: Env, cfg: Config, nodes: seq<Node>, events: seq<Event>, i: nat)
    requires NodeRun(env, cfg, nodes, events) && i < |events| && events[i] == MinerMoves
    ensures var t, pc, pc' := nodes[i].store.tree, nodes[i].pc, nodes[i + 1].pc;
            && Sound(t) && t.forest.blockDepth[t.finalizedBlockId] + 1 <= |Path(t.forest, t.workingBlockId)|
            && (pc.Consumed? ==> pc'.WorkingRead? && pc'.parent == t.workingBlockId)
            && (pc.WorkingRead? ==>
                  && pc'.PendingRead? && pc'.parent == pc.parent
                  && pc'.excluding == TxsBackwards(Path(t.forest, t.workingBlockId)
                                                   [t.forest.blockDepth[t.finalizedBlockId] + 1..]))
            && (pc.PendingRead? ==> pc'.PuzzleReady? || pc' == Waiting)
  {
    StepAt(env, cfg, nodes, events, i);
    AncestorAt(nodes[i].store.tree.forest, nodes[i].store.tree.finalizedBlockId, nodes[i].store.tree.workingBlockId);
    MinerReadsStep(env, cfg, nodes[i], nodes[i + 1]);
  }

  lemma MinerReadsStep(env: Env, cfg: Config, n: Node, n': Node)
    requires Readable(env, n) && MinerStep(env, cfg, n, n')
    ensures n.pc.Consumed? ==> n'.pc.WorkingRead? && n'.pc.parent == n.store.tree.workingBlockId
    ensures n.pc.WorkingRead? ==>
              n'.pc.PendingRead? && n'.pc.parent == n.pc.parent && n'.pc.excluding == PendingTxs(n.store.tree)
    ensures n.pc.PendingRead? ==> n'.pc.PuzzleReady? || n'.pc == Waiting
  {
  }

  /** In every run: what the miner assembles. The transactions are those of the pool that are not pending, in the
      order of the list from its start on, as many as the configuration allows. */
  lemma AssembledExactly(env: Env, cfg: Config, nodes: seq<Node>, events: seq<Event>, i: nat)
    requires NodeRun(env, cfg, nodes, events) && i < |events|
    requires nodes[i].pc.PendingRead? && nodes[i + 1].pc.PuzzleReady?
    ensures var p, excluding, pre := nodes[i].pool, nodes[i].pc.excluding, nodes[i + 1].pc.pre;
            var txs, max := pre.transactions, cfg.maxTxInOneBlock;
            && pre.header == BlockNodeHeader(nodes[i].pc.parent, MerkleRoot(env, txs), 1, "", "", cfg.rewardReceiver)
            && (forall id | id in p.txIds :: id in p.txMap)
            && (forall tx | tx in txs :: tx !in excluding && env.sha256(env.txJson(tx)) in p.txIds)
            && InListOrder(env, p, txs) && NothingSkipped(env, p, excluding, txs)
            && (max > 0 ==> |txs| <= max)
            && (max == 0 || |txs| < max ==>
                  forall a | 0 <= a < |p.txIds| && p.txMap[p.txIds[a]] !in excluding :: p.txMap[p.txIds[a]] in txs)
  {
    StepAt(env, cfg, nodes, events, i);
    AssembledStep(env, cfg, nodes[i], events[i], nodes[i + 1]);
    FilterInOrder(env, nodes[i].pool, cfg.maxTxInOneBlock, nodes[i].pc.excluding);
    FilterSelects(env, nodes[i].pool, cfg.maxTxInOneBlock, nodes[i].pc.excluding);
  }

  lemma AssembledStep(env: Env, cfg: Config, n: Node, e: Event, n': Node)
    requires Readable(env, n) && NodeStep(env, cfg, n, e, n') && n.pc.PendingRead? && n'.pc.PuzzleReady?
    ensures n'.pc.pre.transactions == Filter(n.pool, cfg.maxTxInOneBlock, n.pc.excluding)
    ensures n'.pc.pre.header
         == BlockNodeHeader(n.pc.parent, MerkleRoot(env, n'.pc.pre.transactions), 1, "", "", cfg.rewardReceiver)
  {
    match e
    case TxArrives(tx) =>
    case BlockArrives(b) => BlockStepPc(env, cfg, n, b, n.pc, n.pc, n');
    case MinerMoves => AssembledMiner(env, cfg, n, n');
  }

  lemma AssembledMiner(env: Env, cfg: Config, n: Node, n': Node)
    requires Readable(env, n) && MinerStep(env, cfg, n, n') && n.pc.PendingRead? && n'.pc.PuzzleReady?
    ensures IsPreBlock(env, n'.pc.pre, n.pc.parent, Filter(n.pool, cfg.maxTxInOneBlock, n.pc.excluding),
                       cfg.rewardReceiver)
  {
  }

  // ----- everything stored -----

  /** Authentic, and with the zeros of the acceptance difficulty. */
  ghost predicate AllWithZeros(env: Env, cfg: Config, fo: Forest) {
    forall id | id in fo.allBlocks && id != ROOT_ID ::
      Authentic(env, fo.allBlocks[id]) && seq(cfg.leadingZeroLenAcc, _ => '0') <= fo.allBlocks[id].header.blockId
  }

  lemma BlockStepZeros(env: Env, cfg: Config, n: Node, b: BlockNode, pc: MinerPc, stuck: MinerPc, n': Node)
    requires Inv(env, n.store.tree) && BlockStep(env, cfg, n, b, pc, stuck, n')
    requires AllWithZeros(env, cfg, n.store.tree.forest)
    ensures AllWithZeros(env, cfg, n'.store.tree.forest)
  {
    var d := Delivery(b, cfg.leadingZeroLenAcc);
    if AddReturns(env, n.store, d) {
      var acc, s' :| AddBlock(env, n.store, d, acc, s')
                     && n' == n.(store := s', pc := if acc == [] then pc else Disturb(pc));
      AddBlockEvolves(env, n.store, d, acc, s');
      LinkRunStores(env, n.store.tree, acc, s'.tree);
      DeliveredIntegral(env, n.store, d, acc, s');
      ZerosStay(env, cfg, n.store.tree.forest, acc, s'.tree.forest);
    }
  }

  lemma ZerosStay(env: Env, cfg: Config, fo: Forest, acc: seq<BlockNode>, fo': Forest)
    requires AllWithZeros(env, cfg, fo) && Stores(fo, acc, fo') && AllIntegral(env, acc, cfg.leadingZeroLenAcc)
    ensures AllWithZeros(env, cfg, fo')
  {
    forall id | id in fo'.allBlocks && id != ROOT_ID
      ensures Authentic(env, fo'.allBlocks[id])
      ensures seq(cfg.leadingZeroLenAcc, _ => '0') <= fo'.allBlocks[id].header.blockId
    {
      if fo'.allBlocks[id] in acc {
        IntegrityExactly(env, fo'.allBlocks[id], cfg.leadingZeroLenAcc);
      }
    }
  }

  lemma NodeStepZeros(env: Env, cfg: Config, n: Node, e: Event, n': Node)
    requires NodeInv(env, cfg, n) && Readable(env, n) && NodeStep(env, cfg, n, e, n')
    requires AllWithZeros(env, cfg, n.store.tree.forest)
    ensures AllWithZeros(env, cfg, n'.store.tree.forest)
  {
    match e
    case TxArrives(tx) =>
    case BlockArrives(b) => BlockStepZeros(env, cfg, n, b, n.pc, n.pc, n');
    case MinerMoves => MinerStepZeros(env, cfg, n, n');
  }

  lemma MinerStepZeros(env: Env, cfg: Config, n: Node, n': Node)
    requires Readable(env, n) && MinerStep(env, cfg, n, n') && AllWithZeros(env, cfg, n.store.tree.forest)
    ensures AllWithZeros(env, cfg, n'.store.tree.forest)
  {
    if n.pc.PuzzleReady? && n' != n.(pc := Waiting) {
      var b, nonce := SolvedStep(env, cfg, n, n');
      BlockStepZeros(env, cfg, n, b, Waiting, Stuck, n');
    } else {
      MinerKeepsStore(env, cfg, n, n');
    }
  }

  lemma MinerKeepsStore(env: Env, cfg: Config, n: Node, n': Node)
    requires Readable(env, n) && MinerStep(env, cfg, n, n') && (n.pc.PuzzleReady? ==> n' == n.(pc := Waiting))
    ensures n'.store == n.store
  {
  }

  /** In every state of every run of the node every stored block but the genesis block is authentic and has the
      zeros of the acceptance difficulty. */
  lemma {:induction false} StoredWithZeros(env: Env, cfg: Config, nodes: seq<Node>, events: seq<Event>, i: nat)
    requires NodeRun(env, cfg, nodes, events) && i < |nodes|
    ensures AllWithZeros(env, cfg, nodes[i].store.tree.forest)
  {
    if i > 0 {
      StoredWithZeros(env, cfg, nodes, events, i - 1);
      StepAt(env, cfg, nodes, events, i - 1);
      NodeStepZeros(env, cfg, nodes[i - 1], events[i - 1], nodes[i]);
    }
  }
}
