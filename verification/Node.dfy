/** The node around chain, pool and miner (bin_nakamoto/src/nakamoto.rs): block assembly, and the
    block-receiver, transaction-receiver and miner threads as interleaved atomic steps, one step per
    critical section. */
module Nodes {
  import opened Basics
  import opened Types
  import opened Merkle
  import opened Ancestry
  import opened Forests
  import opened Trees
  import opened Deliveries
  import opened FinalizedReads
  import opened TxPools
  import B = Balances
  import I = TreeInvariant
  import M = Miners
  import BlockTrees

  datatype Config = Config(
    nonceLen: nat,
    leadingZeroLen: nat,
    leadingZeroLenAcc: nat,
    maxTxInOneBlock: nat,
    rewardReceiver: UserId)

  // ----- assembling and validating a block -----

  /** The block to be mined: everything but id and nonce. */
  ghost predicate IsPreBlock(env: Env, pre: BlockNode, parent: BlockId, txs: seq<Transaction>, receiver: UserId) {
    && pre.header == BlockNodeHeader(parent, MerkleRoot(env, txs), 1, "", "", receiver)
    && pre.transactions == txs
    && (txs == [] ==> pre.merkleTree == [])
    && (txs != [] ==> IsMerkleTree(env, Leaves(env, txs), pre.merkleTree))
  }

  function PuzzleString(env: Env, pre: BlockNode): string {
    env.puzzleJson(PuzzleOf(pre.header))
  }

  method CreatePuzzle(chain: BlockTrees.BlockTree, pool: TxPool, txCount: nat, receiver: UserId)
    returns (puzzle: string, pre: BlockNode)
    requires chain.Valid() && pool.Valid() && pool.env == chain.env
    ensures IsPreBlock(chain.env, pre, chain.workingBlockId,
                       Filter(pool.AsPool(), txCount, PendingTxs(chain.AsTree())), receiver)
    ensures pre.header
         == BlockNodeHeader(chain.workingBlockId, MerkleRoot(chain.env, pre.transactions), 1, "", "", receiver)
    ensures pre.transactions == Filter(pool.AsPool(), txCount, PendingTxs(chain.AsTree()))
    ensures puzzle == chain.env.puzzleJson(Puzzle(chain.workingBlockId, pre.header.merkleRoot, receiver))
  {
    var parent := chain.workingBlockId;
    var excluding := chain.GetPendingFinalizationTxs();
    var filtered := pool.FilterTx(txCount, excluding);
    var root, tree := CreateMerkleTree(chain.env, filtered);
    puzzle := chain.env.puzzleJson(Puzzle(parent, root, receiver));
    pre := BlockNode(BlockNodeHeader(parent, root, 1, "", "", receiver), tree, filtered);
  }

  /** The check of a block on its own, with the recomputed id. */
  function ValidateBlock(env: Env, b: BlockNode, leadingZeroLen: nat): (bool, BlockId) {
    (BlockIntegrity(env, b, leadingZeroLen) && MerkleRoot(env, b.transactions) == b.header.merkleRoot,
     env.sha256(b.header.nonce + env.puzzleJson(PuzzleOf(b.header))))
  }

  /** When a block validates on its own, and which id is returned, in terms of the hash and signature functions
      and the recomputed root. */
  lemma ValidExactly(env: Env, b: BlockNode, leadingZeroLen: nat)
    ensures var h := b.header;
            var id := env.sha256(h.nonce + env.puzzleJson(Puzzle(h.parent, h.merkleRoot, h.rewardReceiver)));
            && ValidateBlock(env, b, leadingZeroLen).1 == id
            && (ValidateBlock(env, b, leadingZeroLen).0
                <==> && h.blockId == id && seq(leadingZeroLen, _ => '0') <= h.blockId
                     && (forall tx | tx in b.transactions :: env.verifySig(tx))
                     && h.merkleRoot == MerkleRoot(env, b.transactions))
  {
    IntegrityExactly(env, b, leadingZeroLen);
  }

  /** A nonce that solves the puzzle at the mining difficulty. */
  predicate Solves(env: Env, puzzle: string, nonce: string, leadingZeroLen: nat) {
    StartsWithZeros(env.sha256(nonce + puzzle), leadingZeroLen)
  }

  function Mined(env: Env, pre: BlockNode, nonce: string): BlockNode {
    pre.(header := pre.header.(blockId := env.sha256(nonce + PuzzleString(env, pre)), nonce := nonce))
  }

  // ----- the threads -----

  /** Where the miner thread is, with what it has read. `quiet` records whether no block entered the
      tree between the read of the finalized blocks and the read of the pending transactions, `gapless` whether
      at the latter read every block on the parent's path was consumed by the pool or pending. */
  datatype MinerPc =
    | Waiting
    | SinceRead(since: BlockId)
    | BlocksRead(blocks: seq<BlockNode>, quiet: bool)
    | Consumed(quiet: bool)
    | WorkingRead(parent: BlockId, quiet: bool)
    | PendingRead(parent: BlockId, excluding: seq<Transaction>, quiet: bool, gapless: bool)
    | PuzzleReady(pre: BlockNode, quiet: bool, gapless: bool)
    | Panicked
    | Stuck

  /** `consumed` records the finalized blocks handed to the pool, in order; `hung` says that a thread is
      in an `add_block` that does not return, and so holds the lock of the chain for ever. */
  datatype Node = Node(store: Store, pool: Pool, pc: MinerPc, consumed: seq<BlockNode>, hung: bool)

  function NewNode(): Node {
    Node(Store(NewTree(), map[]), NewPool(), Waiting, [], false)
  }

  datatype Event = TxArrives(tx: Transaction) | BlockArrives(block: BlockNode) | MinerMoves

  ghost predicate Readable(env: Env, n: Node) {
    Inv(env, n.store.tree) && forall id | id in n.pool.txIds :: id in n.pool.txMap
  }

  function Disturb(pc: MinerPc): MinerPc {
    match pc
    case BlocksRead(blocks, _) => BlocksRead(blocks, false)
    case Consumed(_) => Consumed(false)
    case WorkingRead(parent, _) => WorkingRead(parent, false)
    case _ => pc
  }

  /** A block is added by either thread, which goes on at `pc`; or it never returns, and stays at `stuck`. */
  ghost predicate BlockStep(env: Env, cfg: Config, n: Node, b: BlockNode, pc: MinerPc, stuck: MinerPc, n': Node)
    requires Inv(env, n.store.tree)
  {
    var d := Delivery(b, cfg.leadingZeroLenAcc);
    && !n.hung
    && if !AddReturns(env, n.store, d) then n' == n.(hung := true, pc := stuck)
       else exists acc, s' :: AddBlock(env, n.store, d, acc, s')
                           && n' == n.(store := s', pc := if acc == [] then pc else Disturb(pc))
  }

  /** Block `j` on the path of the parent is neither among the first `consumed` blocks nor an unfinalized
      block of the working path, so neither removed ids nor pending transactions account for it. */
  ghost predicate InGap(t: Tree, consumed: nat, parent: BlockId, j: nat)
    requires Sound(t)
  {
    && parent in t.forest.allBlocks
    && GapAt(Path(t.forest, parent), Path(t.forest, t.workingBlockId), t.forest.blockDepth[t.finalizedBlockId],
       consumed, j)
  }

  ghost predicate GapAt(path: seq<BlockNode>, working: seq<BlockNode>, finalDepth: nat, consumed: nat, j: nat) {
    consumed < j < |path| && !(finalDepth < j < |working| && working[j] == path[j])
  }

  ghost predicate Gapless(t: Tree, consumed: nat, parent: BlockId)
    requires Sound(t)
  {
    forall j: nat :: !InGap(t, consumed, parent, j)
  }

  /** One critical section of the miner loop; those of the chain wait while its lock is held for ever. */
  ghost predicate MinerStep(env: Env, cfg: Config, n: Node, n': Node)
    requires Readable(env, n)
  {
    match n.pc
    case Waiting => n' == n.(pc := SinceRead(n.pool.lastFinalized))
    case SinceRead(since) =>
      !n.hung
      && n' == n.(pc := if FinalizedSince(n.store.tree, since).Success?
                        then BlocksRead(FinalizedSince(n.store.tree, since).value, true) else Panicked)
    case BlocksRead(blocks, quiet) =>
      n' == n.(pc := Consumed(quiet), pool := RemoveBlocks(env, n.pool, blocks), consumed := n.consumed + blocks)
    case Consumed(quiet) => !n.hung && n' == n.(pc := WorkingRead(n.store.tree.workingBlockId, quiet))
    case WorkingRead(parent, quiet) =>
      !n.hung
      && n' == n.(pc := PendingRead(parent, PendingTxs(n.store.tree), quiet,
                                    Gapless(n.store.tree, |n.consumed|, parent)))
    case PendingRead(parent, excluding, quiet, gapless) =>
      var txs := Filter(n.pool, cfg.maxTxInOneBlock, excluding);
      if txs == [] then n' == n.(pc := Waiting)
      else exists pre :: IsPreBlock(env, pre, parent, txs, cfg.rewardReceiver)
                         && n' == n.(pc := PuzzleReady(pre, quiet, gapless))
    case PuzzleReady(pre, _, _) =>
      || n' == n.(pc := Waiting)
      || exists nonce :: Solves(env, PuzzleString(env, pre), nonce, cfg.leadingZeroLen)
                      && BlockStep(env, cfg, n, Mined(env, pre, nonce), Waiting, Stuck, n')
    case Panicked => false
    case Stuck => false
  }

  ghost predicate NodeStep(env: Env, cfg: Config, n: Node, e: Event, n': Node) {
    Readable(env, n) ==>
      match e
      case TxArrives(tx) => n' == n.(pool := Add(env, n.pool, tx))
      case BlockArrives(b) => BlockStep(env, cfg, n, b, n.pc, n.pc, n')
      case MinerMoves => MinerStep(env, cfg, n, n')
  }

  // ----- the invariant over all interleavings -----

  /** The pool has consumed exactly the finalized path up to its last finalized block. */
  ghost predicate InStep(env: Env, t: Tree, pool: Pool, consumed: seq<BlockNode>)
    requires Sound(t)
  {
    && pool.lastFinalized in t.forest.allBlocks
    && OnPath(t.forest, pool.lastFinalized, t.finalizedBlockId)
    && Path(t.forest, pool.lastFinalized) == [GenesisBlock()] + consumed
    && pool.removed == B.TxIdsOf(env, [GenesisBlock()] + consumed)
  }

  /** Every transaction of the non-genesis blocks of the path is removed from the pool or excluded. */
  ghost predicate Covered(env: Env, path: seq<BlockNode>, removed: set<TxId>, excluding: seq<Transaction>) {
    forall i, tx | 1 <= i < |path| && tx in path[i].transactions :: GenHash(env, tx) in removed || tx in excluding
  }

  /** An assembled block: distinct signed transactions, none of them in a block the pool has consumed. */
  ghost predicate Assembled(env: Env, cfg: Config, removed: set<TxId>, pre: BlockNode) {
    && IsPreBlock(env, pre, pre.header.parent, pre.transactions, cfg.rewardReceiver)
    && Distinct(pre.transactions)
    && (forall tx | tx in pre.transactions :: env.verifySig(tx) && GenHash(env, tx) !in removed)
  }

  ghost predicate PcOk(env: Env, cfg: Config, t: Tree, pool: Pool, consumed: seq<BlockNode>, pc: MinerPc)
    requires Sound(t)
  {
    match pc
    case Waiting => true
    case SinceRead(since) => since == pool.lastFinalized
    case BlocksRead(blocks, quiet) =>
      && [GenesisBlock()] + consumed + blocks <= Path(t.forest, t.finalizedBlockId)
      && (quiet ==> [GenesisBlock()] + consumed + blocks == Path(t.forest, t.finalizedBlockId))
    case Consumed(quiet) => quiet ==> pool.lastFinalized == t.finalizedBlockId
    case WorkingRead(parent, quiet) =>
      && parent in t.forest.allBlocks && [GenesisBlock()] + consumed <= Path(t.forest, parent)
      && (quiet ==> pool.lastFinalized == t.finalizedBlockId && parent == t.workingBlockId)
    case PendingRead(parent, excluding, quiet, gapless) =>
      && parent in t.forest.allBlocks && [GenesisBlock()] + consumed <= Path(t.forest, parent)
      && (quiet ==> gapless) && (gapless ==> Covered(env, Path(t.forest, parent), pool.removed, excluding))
    case PuzzleReady(pre, quiet, gapless) =>
      && Assembled(env, cfg, pool.removed, pre)
      && pre.header.parent in t.forest.allBlocks
      && (quiet ==> gapless) && (gapless ==> FreshOn(Path(t.forest, pre.header.parent), pre.transactions))
    case Panicked => false
    case Stuck => true
  }

  ghost predicate NodeInv(env: Env, cfg: Config, n: Node) {
    && Inv(env, n.store.tree) && PoolOk(env, n.pool)
    && InStep(env, n.store.tree, n.pool, n.consumed)
    && PcOk(env, cfg, n.store.tree, n.pool, n.consumed, n.pc)
  }

  // ----- a block enters the tree -----

  lemma TreeMovesInStep(env: Env, t: Tree, t': Tree, pool: Pool, consumed: seq<BlockNode>)
    requires Sound(t) && Sound(t') && InStep(env, t, pool, consumed)
    requires Grows(t.forest, t'.forest) && Path(t.forest, t.finalizedBlockId) <= Path(t'.forest, t'.finalizedBlockId)
    ensures InStep(env, t', pool, consumed)
  {
    PathStable(t.forest, t'.forest, pool.lastFinalized);
  }

  lemma TreeMovesPc(env: Env, cfg: Config, t: Tree, t': Tree, pool: Pool, consumed: seq<BlockNode>, pc: MinerPc)
    requires Sound(t) && Sound(t') && PcOk(env, cfg, t, pool, consumed, pc)
    requires Grows(t.forest, t'.forest) && Path(t.forest, t.finalizedBlockId) <= Path(t'.forest, t'.finalizedBlockId)
    ensures PcOk(env, cfg, t', pool, consumed, Disturb(pc))
  {
    match pc
    case WorkingRead(parent, _) => PathStable(t.forest, t'.forest, parent);
    case PendingRead(parent, _, _, _) => PathStable(t.forest, t'.forest, parent);
    case PuzzleReady(pre, _, _) => PathStable(t.forest, t'.forest, pre.header.parent);
    case _ =>
  }

  lemma BlockStepKeeps(env: Env, cfg: Config, n: Node, b: BlockNode, pc: MinerPc, stuck: MinerPc, n': Node)
    requires NodeInv(env, cfg, n) && BlockStep(env, cfg, n, b, pc, stuck, n')
    requires pc == n.pc || pc == Waiting
    requires stuck == n.pc || stuck == Stuck
    ensures NodeInv(env, cfg, n')
  {
    var d := Delivery(b, cfg.leadingZeroLenAcc);
    if AddReturns(env, n.store, d) {
      var acc, s' :| AddBlock(env, n.store, d, acc, s')
                     && n' == n.(store := s', pc := if acc == [] then pc else Disturb(pc));
      AddBlockEvolves(env, n.store, d, acc, s');
      TreeMoves(env, cfg, n.store.tree, s'.tree, n.pool, n.consumed, pc);
      if acc == [] {
        assert s'.tree == n.store.tree;
      }
    }
  }

  lemma TreeMoves(env: Env, cfg: Config, t: Tree, t': Tree, pool: Pool, consumed: seq<BlockNode>, pc: MinerPc)
    requires Sound(t) && Sound(t') && InStep(env, t, pool, consumed) && PcOk(env, cfg, t, pool, consumed, pc)
    requires Grows(t.forest, t'.forest) && Path(t.forest, t.finalizedBlockId) <= Path(t'.forest, t'.finalizedBlockId)
    ensures InStep(env, t', pool, consumed) && PcOk(env, cfg, t', pool, consumed, Disturb(pc))
  {
    TreeMovesInStep(env, t, t', pool, consumed);
    TreeMovesPc(env, cfg, t, t', pool, consumed, pc);
  }

  // ----- the miner's steps -----

  lemma {:induction false} RemoveBlocksExact(env: Env, p: Pool, path: seq<BlockNode>, blocks: seq<BlockNode>)
    requires path != [] && PoolOk(env, p) && p.removed == B.TxIdsOf(env, path)
    ensures PoolOk(env, RemoveBlocks(env, p, blocks))
    ensures RemoveBlocks(env, p, blocks).removed == B.TxIdsOf(env, path + blocks)
    ensures RemoveBlocks(env, p, blocks).lastFinalized
         == if blocks == [] then p.lastFinalized else blocks[|blocks| - 1].header.blockId
  {
    if blocks == [] {
      assert path + blocks == path;
    } else {
      var init, b := blocks[..|blocks| - 1], blocks[|blocks| - 1];
      RemoveBlocksExact(env, p, path, init);
      RemoveTxsKeeps(env, RemoveBlocks(env, p, init), b.transactions);
      B.TxIdsExtend(env, path + init, b);
      LastOf(path, blocks);
    }
  }

  lemma LastOf(path: seq<BlockNode>, blocks: seq<BlockNode>)
    requires blocks != []
    ensures path + blocks == path + blocks[..|blocks| - 1] + [blocks[|blocks| - 1]]
  {
  }

  lemma ReadStep(env: Env, cfg: Config, n: Node, since: BlockId)
    requires Sound(n.store.tree) && InStep(env, n.store.tree, n.pool, n.consumed) && since == n.pool.lastFinalized
    ensures FinalizedSince(n.store.tree, since).Success?
    ensures PcOk(env, cfg, n.store.tree, n.pool, n.consumed,
                 BlocksRead(FinalizedSince(n.store.tree, since).value, true))
  {
    ReadAfter(n.store.tree, since);
  }

  /** A longer part of the finalized path is the path of its last block. */
  lemma ReachesLast(fo: Forest, f: BlockId, before: seq<BlockNode>, blocks: seq<BlockNode>)
    requires Rooted(fo) && f in fo.allBlocks && blocks != [] && before + blocks <= Path(fo, f)
    ensures var g := blocks[|blocks| - 1].header.blockId;
            g in fo.allBlocks && Path(fo, g) == before + blocks && OnPath(fo, g, f)
  {
    var path, i := Path(fo, f), |before + blocks| - 1;
    PathPrefix(fo, f, i);
    assert path[i] == blocks[|blocks| - 1];
    assert path[..i + 1] == before + blocks;
  }

  lemma ConsumeStep(env: Env, cfg: Config, t: Tree, pool: Pool, consumed: seq<BlockNode>, blocks: seq<BlockNode>,
                    quiet: bool)
    requires Sound(t) && PoolOk(env, pool) && InStep(env, t, pool, consumed)
    requires PcOk(env, cfg, t, pool, consumed, BlocksRead(blocks, quiet))
    ensures PoolOk(env, RemoveBlocks(env, pool, blocks))
    ensures InStep(env, t, RemoveBlocks(env, pool, blocks), consumed + blocks)
    ensures PcOk(env, cfg, t, RemoveBlocks(env, pool, blocks), consumed + blocks, Consumed(quiet))
  {
    var before, after := [GenesisBlock()] + consumed, RemoveBlocks(env, pool, blocks);
    RemoveBlocksExact(env, pool, before, blocks);
    ConsumeReaches(t.forest, t.finalizedBlockId, pool.lastFinalized, before, blocks, after.lastFinalized);
    ConsumedMore(consumed, blocks);
    if quiet {
      PathDetermines(t.forest, after.lastFinalized, t.finalizedBlockId);
    }
  }

  lemma ConsumedMore(consumed: seq<BlockNode>, blocks: seq<BlockNode>)
    ensures [GenesisBlock()] + consumed + blocks == [GenesisBlock()] + (consumed + blocks)
  {
  }

  lemma ConsumeReaches(fo: Forest, f: BlockId, l: BlockId, before: seq<BlockNode>, blocks: seq<BlockNode>,
                       last: BlockId)
    requires Rooted(fo) && f in fo.allBlocks && l in fo.allBlocks && OnPath(fo, l, f)
    requires Path(fo, l) == before && before + blocks <= Path(fo, f)
    requires last == if blocks == [] then l else blocks[|blocks| - 1].header.blockId
    ensures last in fo.allBlocks && OnPath(fo, last, f) && Path(fo, last) == before + blocks
  {
    if blocks != [] {
      ReachesLast(fo, f, before, blocks);
    } else {
      assert before + blocks == before;
    }
  }

  lemma {:induction false} TxsBackwardsContain(seg: seq<BlockNode>, i: nat, tx: Transaction)
    requires i < |seg| && tx in seg[i].transactions
    ensures tx in TxsBackwards(seg)
  {
    if i < |seg| - 1 {
      TxsBackwardsContain(seg[..|seg| - 1], i, tx);
    }
  }

  /** Without a gap every transaction of a non-genesis block on the parent's path is removed or pending. */
  lemma GaplessCovers(env: Env, t: Tree, pool: Pool, consumed: seq<BlockNode>, parent: BlockId)
    requires Sound(t) && parent in t.forest.allBlocks && [GenesisBlock()] + consumed <= Path(t.forest, parent)
    requires pool.removed == B.TxIdsOf(env, [GenesisBlock()] + consumed)
    requires Gapless(t, |consumed|, parent)
    ensures Covered(env, Path(t.forest, parent), pool.removed, PendingTxs(t))
  {
    var path, done := Path(t.forest, parent), [GenesisBlock()] + consumed;
    forall i, tx | 1 <= i < |path| && tx in path[i].transactions
      ensures GenHash(env, tx) in pool.removed || tx in PendingTxs(t)
    {
      if i < |done| {
        assert done[i] == path[i];
      } else {
        assert !InGap(t, |consumed|, parent, i);
        UnfinalizedIsPending(t, i, tx);
      }
    }
  }

  lemma UnfinalizedIsPending(t: Tree, j: nat, tx: Transaction)
    requires Sound(t) && t.forest.blockDepth[t.finalizedBlockId] < j <= t.forest.blockDepth[t.workingBlockId]
    requires tx in Path(t.forest, t.workingBlockId)[j].transactions
    ensures tx in PendingTxs(t)
  {
    var df, seg := t.forest.blockDepth[t.finalizedBlockId], Unfinalized(t, t.workingBlockId);
    assert seg[j - df - 1] == Path(t.forest, t.workingBlockId)[j];
    TxsBackwardsContain(seg, j - df - 1, tx);
  }

  /** Exactly when there is no gap: the parent is the last block the pool has consumed, or the pool has
      consumed all that is finalized and the parent is on the working path. */
  lemma GaplessExactly(env: Env, t: Tree, pool: Pool, consumed: seq<BlockNode>, parent: BlockId)
    requires Sound(t) && InStep(env, t, pool, consumed)
    requires parent in t.forest.allBlocks && [GenesisBlock()] + consumed <= Path(t.forest, parent)
    ensures Gapless(t, |consumed|, parent) <==> CaughtUp(t, pool, parent)
  {
    var path := Path(t.forest, parent);
    if CaughtUp(t, pool, parent) {
      assert parent != pool.lastFinalized ==> |Path(t.forest, t.finalizedBlockId)| == 1 + |consumed|;
    } else if Gapless(t, |consumed|, parent) {
      NoGapCaughtUp(env, t, pool, consumed, parent);
    }
  }

  ghost predicate CaughtUp(t: Tree, pool: Pool, parent: BlockId)
    requires Sound(t)
  {
    || parent == pool.lastFinalized
    || (pool.lastFinalized == t.finalizedBlockId && parent in t.forest.allBlocks
        && OnPath(t.forest, parent, t.workingBlockId))
  }

  lemma NoGapCaughtUp(env: Env, t: Tree, pool: Pool, consumed: seq<BlockNode>, parent: BlockId)
    requires Sound(t) && InStep(env, t, pool, consumed) && Gapless(t, |consumed|, parent)
    requires parent in t.forest.allBlocks && [GenesisBlock()] + consumed <= Path(t.forest, parent)
    ensures CaughtUp(t, pool, parent)
  {
    if t.forest.blockDepth[parent] == |consumed| {
      assert Path(t.forest, parent) == [GenesisBlock()] + consumed;
      PathDetermines(t.forest, parent, pool.lastFinalized);
    } else {
      NoGapEnds(t, |consumed|, parent);
      SamePath(t.forest, pool.lastFinalized, t.finalizedBlockId);
      AncestorAt(t.forest, parent, t.workingBlockId);
    }
  }

  /** Without a gap the first block beyond the consumed ones is not finalized, and the last is on the
      working path. */
  lemma NoGapEnds(t: Tree, consumed: nat, parent: BlockId)
    requires Sound(t) && parent in t.forest.allBlocks && Gapless(t, consumed, parent)
    requires consumed < t.forest.blockDepth[parent]
    ensures t.forest.blockDepth[t.finalizedBlockId] <= consumed
    ensures t.forest.blockDepth[parent] <= t.forest.blockDepth[t.workingBlockId]
    ensures Path(t.forest, t.workingBlockId)[t.forest.blockDepth[parent]] == t.forest.allBlocks[parent]
  {
    assert !InGap(t, consumed, parent, 1 + consumed) && !InGap(t, consumed, parent, t.forest.blockDepth[parent]);
  }

  lemma PendingStep(env: Env, cfg: Config, t: Tree, pool: Pool, consumed: seq<BlockNode>, parent: BlockId, quiet: bool)
    requires Sound(t) && InStep(env, t, pool, consumed)
    requires PcOk(env, cfg, t, pool, consumed, WorkingRead(parent, quiet))
    ensures PcOk(env, cfg, t, pool, consumed,
                 PendingRead(parent, PendingTxs(t), quiet, Gapless(t, |consumed|, parent)))
  {
    if quiet {
      GaplessExactly(env, t, pool, consumed, parent);
    }
    if Gapless(t, |consumed|, parent) {
      GaplessCovers(env, t, pool, consumed, parent);
    }
  }

  lemma AssembleStep(env: Env, cfg: Config, t: Tree, pool: Pool, consumed: seq<BlockNode>, parent: BlockId,
                     excluding: seq<Transaction>, quiet: bool, gapless: bool, pre: BlockNode)
    requires Sound(t) && PoolOk(env, pool)
    requires PcOk(env, cfg, t, pool, consumed, PendingRead(parent, excluding, quiet, gapless))
    requires IsPreBlock(env, pre, parent, Filter(pool, cfg.maxTxInOneBlock, excluding), cfg.rewardReceiver)
    ensures PcOk(env, cfg, t, pool, consumed, PuzzleReady(pre, quiet, gapless))
  {
    FilterSelects(env, pool, cfg.maxTxInOneBlock, excluding);
    if gapless {
      var path := Path(t.forest, parent);
      forall i, tx | 1 <= i < |path| && tx in path[i].transactions ensures tx !in pre.transactions {
        assert GenHash(env, tx) in pool.removed || tx in excluding;
      }
    }
  }

  lemma WorkingStep(env: Env, t: Tree, pool: Pool, consumed: seq<BlockNode>)
    requires Sound(t) && InStep(env, t, pool, consumed)
    ensures [GenesisBlock()] + consumed <= Path(t.forest, t.workingBlockId)
  {
    assert Path(t.forest, pool.lastFinalized) <= Path(t.forest, t.finalizedBlockId) <= Path(t.forest, t.workingBlockId);
  }

  lemma MinerStepKeeps(env: Env, cfg: Config, n: Node, n': Node)
    requires NodeInv(env, cfg, n) && Readable(env, n) && MinerStep(env, cfg, n, n')
    ensures NodeInv(env, cfg, n')
  {
    var t := n.store.tree;
    match n.pc
    case Waiting =>
    case SinceRead(since) => ReadStep(env, cfg, n, since);
    case BlocksRead(blocks, quiet) => ConsumeStep(env, cfg, t, n.pool, n.consumed, blocks, quiet);
    case Consumed(quiet) => WorkingStep(env, t, n.pool, n.consumed);
    case WorkingRead(parent, quiet) => PendingStep(env, cfg, t, n.pool, n.consumed, parent, quiet);
    case PendingRead(parent, excluding, quiet, gapless) =>
      if n'.pc != Waiting {
        AssembleStep(env, cfg, t, n.pool, n.consumed, parent, excluding, quiet, gapless, n'.pc.pre);
      }
    case PuzzleReady(pre, _, _) =>
      if n' != n.(pc := Waiting) {
        var nonce :| Solves(env, PuzzleString(env, pre), nonce, cfg.leadingZeroLen)
                     && BlockStep(env, cfg, n, Mined(env, pre, nonce), Waiting, Stuck, n');
        BlockStepKeeps(env, cfg, n, Mined(env, pre, nonce), Waiting, Stuck, n');
      }
  }

  lemma NodeStepKeeps(env: Env, cfg: Config, n: Node, e: Event, n': Node)
    requires NodeInv(env, cfg, n) && NodeStep(env, cfg, n, e, n')
    ensures NodeInv(env, cfg, n')
  {
    match e
    case TxArrives(tx) => AddKeeps(env, n.pool, tx);
    case BlockArrives(b) => BlockStepKeeps(env, cfg, n, b, n.pc, n.pc, n');
    case MinerMoves => MinerStepKeeps(env, cfg, n, n');
  }

  // ----- what holds in every run of the node -----

  ghost predicate NodeRun(env: Env, cfg: Config, nodes: seq<Node>, events: seq<Event>) {
    && |nodes| == |events| + 1 && nodes[0] == NewNode()
    && forall i: nat {:trigger NodeStepAt(env, cfg, nodes, events, i)} | i < |events| ::
         NodeStepAt(env, cfg, nodes, events, i)
  }

  ghost predicate NodeStepAt(env: Env, cfg: Config, nodes: seq<Node>, events: seq<Event>, i: nat)
    requires |nodes| == |events| + 1 && i < |events|
  {
    NodeStep(env, cfg, nodes[i], events[i], nodes[i + 1])
  }

  lemma NewNodeInv(env: Env, cfg: Config)
    ensures NodeInv(env, cfg, NewNode())
  {
    I.NewTreeInv(env);
    assert Path(NewTree().forest, ROOT_ID) == [GenesisBlock()];
    assert [GenesisBlock()] + [] == [GenesisBlock()];
    assert B.TxIdsOf(env, [GenesisBlock()]) == {};
  }

  lemma {:induction false} NodeRunKeeps(env: Env, cfg: Config, nodes: seq<Node>, events: seq<Event>, i: nat)
    requires NodeRun(env, cfg, nodes, events) && i < |nodes|
    ensures NodeInv(env, cfg, nodes[i])
  {
    if i == 0 {
      NewNodeInv(env, cfg);
    } else {
      NodeRunKeeps(env, cfg, nodes, events, i - 1);
      assert NodeStepAt(env, cfg, nodes, events, i - 1);
      NodeStepKeeps(env, cfg, nodes[i - 1], events[i - 1], nodes[i]);
    }
  }

  /** Pool and chain stay in step under every interleaving: the pool's last finalized block is on the
      chain's finalized path, the blocks it was handed are exactly the path up to there, each once and
      in order, its removed ids are exactly those of their transactions, and reading never panics. */
  lemma PoolFollowsChain(env: Env, cfg: Config, nodes: seq<Node>, events: seq<Event>, i: nat)
    requires NodeRun(env, cfg, nodes, events) && i < |nodes|
    ensures var n := nodes[i]; var t := n.store.tree;
            && Sound(t) && n.pool.lastFinalized in t.forest.allBlocks
            && OnPath(t.forest, n.pool.lastFinalized, t.finalizedBlockId)
            && n.consumed == Path(t.forest, n.pool.lastFinalized)[1..]
            && (forall id :: id in n.pool.removed <==> B.OccursIn(env, n.consumed, id))
            && n.pc != Panicked
  {
    NodeRunKeeps(env, cfg, nodes, events, i);
    var c := nodes[i].consumed;
    assert ([GenesisBlock()] + c)[1..] == c;
    forall id {
      B.IdsOccur(env, [GenesisBlock()] + c, id);
    }
  }

  /** In every run, an assembled block repeats no transaction and contains none of a block the pool has
      consumed; and if the read of the pending transactions left no gap, as in a period in which no block
      entered the tree, none of any non-genesis ancestor of the new block. */
  lemma NoDuplicateSpending(env: Env, cfg: Config, nodes: seq<Node>, events: seq<Event>, i: nat)
    requires NodeRun(env, cfg, nodes, events) && i < |nodes| && nodes[i].pc.PuzzleReady?
    ensures var n := nodes[i]; var t, pre := n.store.tree, n.pc.pre;
            && Sound(t) && pre.header.parent in t.forest.allBlocks
            && Distinct(pre.transactions)
            && FreshOn([GenesisBlock()] + n.consumed, pre.transactions)
            && (n.pc.gapless ==> FreshOn(Path(t.forest, pre.header.parent), pre.transactions))
            && (n.pc.quiet ==> n.pc.gapless)
  {
    NodeRunKeeps(env, cfg, nodes, events, i);
    ReadyIsFresh(env, cfg, nodes[i]);
  }

  lemma ReadyIsFresh(env: Env, cfg: Config, n: Node)
    requires Sound(n.store.tree) && n.pc.PuzzleReady?
    requires InStep(env, n.store.tree, n.pool, n.consumed)
    requires PcOk(env, cfg, n.store.tree, n.pool, n.consumed, n.pc)
    ensures FreshOn([GenesisBlock()] + n.consumed, n.pc.pre.transactions)
  {
    RemovedAreFresh(env, [GenesisBlock()] + n.consumed, n.pc.pre.transactions);
  }

  lemma RemovedAreFresh(env: Env, path: seq<BlockNode>, txs: seq<Transaction>)
    requires forall tx | tx in txs :: GenHash(env, tx) !in B.TxIdsOf(env, path)
    ensures FreshOn(path, txs)
  {
  }

  /** Whatever the miner solves is well formed: as long as the acceptance difficulty does not exceed
      the mining difficulty, the mined block passes the integrity check and the full validation. */
  lemma MinedBlockIsValid(env: Env, cfg: Config, nodes: seq<Node>, events: seq<Event>, i: nat, nonce: string)
    requires NodeRun(env, cfg, nodes, events) && i < |nodes| && nodes[i].pc.PuzzleReady?
    requires cfg.leadingZeroLenAcc <= cfg.leadingZeroLen
    requires Solves(env, PuzzleString(env, nodes[i].pc.pre), nonce, cfg.leadingZeroLen)
    ensures var b := Mined(env, nodes[i].pc.pre, nonce);
            BlockIntegrity(env, b, cfg.leadingZeroLenAcc)
            && ValidateBlock(env, b, cfg.leadingZeroLenAcc) == (true, b.header.blockId)
  {
    NodeRunKeeps(env, cfg, nodes, events, i);
    SolvedIsValid(env, cfg, nodes[i].pool.removed, nodes[i].pc.pre, nonce);
  }

  /** The same for what the miner hands back: if a call of `solve_puzzle` on the block's puzzle, at the
      mining difficulty, returns a solution, the mined block carries its hash as id and is valid. */
  lemma SolutionIsValid(env: Env, cfg: Config, nodes: seq<Node>, events: seq<Event>, i: nat,
                        calls: seq<M.Call>, states: seq<M.State>, k: nat)
    requires NodeRun(env, cfg, nodes, events) && i < |nodes| && nodes[i].pc.PuzzleReady?
    requires cfg.leadingZeroLenAcc <= cfg.leadingZeroLen
    requires M.SolveRun(env, calls, states) && k < |states| && states[k].result.Some? && states[k].result.value.Some?
    requires calls[k].puzzle == PuzzleString(env, nodes[i].pc.pre) && calls[k].leadingZeroLen == cfg.leadingZeroLen
    ensures var solution := states[k].result.value.value;
            var b := Mined(env, nodes[i].pc.pre, solution.nonce);
            && b.header.blockId == solution.hash
            && BlockIntegrity(env, b, cfg.leadingZeroLenAcc)
            && ValidateBlock(env, b, cfg.leadingZeroLenAcc) == (true, solution.hash)
  {
    M.ReturnedResult(env, calls, states, k);
    MinedBlockIsValid(env, cfg, nodes, events, i, states[k].result.value.value.nonce);
  }

  lemma SolvedIsValid(env: Env, cfg: Config, removed: set<TxId>, pre: BlockNode, nonce: string)
    requires Assembled(env, cfg, removed, pre) && cfg.leadingZeroLenAcc <= cfg.leadingZeroLen
    requires Solves(env, PuzzleString(env, pre), nonce, cfg.leadingZeroLen)
    ensures var b := Mined(env, pre, nonce);
            BlockIntegrity(env, b, cfg.leadingZeroLenAcc)
            && ValidateBlock(env, b, cfg.leadingZeroLenAcc) == (true, b.header.blockId)
  {
    assert PuzzleOf(Mined(env, pre, nonce).header) == PuzzleOf(pre.header);
  }

  /** `tx` is a transaction of a block of the path at depth `k` or more. */
  ghost predicate OccursFrom(path: seq<BlockNode>, k: nat, tx: Transaction) {
    exists i :: k <= i < |path| && tx in path[i].transactions
  }

  /** In every run, whether blocks entered the tree between the reads or not: of what the miner can choose
      from when it has read the pending transactions, exactly those repeat one of an ancestor of the new
      block which are listed, are not pending, and occur in a block of the gap. */
  lemma DuplicatesExactly(env: Env, cfg: Config, nodes: seq<Node>, events: seq<Event>, i: nat, tx: Transaction)
    requires NodeRun(env, cfg, nodes, events) && i < |events|
    requires nodes[i].pc.WorkingRead? && nodes[i + 1].pc.PendingRead?
    ensures var t, p, parent := nodes[i].store.tree, nodes[i + 1].pool, nodes[i].pc.parent;
            && Sound(t) && parent in t.forest.allBlocks && nodes[i + 1].pc.parent == parent
            && (forall id | id in p.txIds :: id in p.txMap)
            && (tx in Available(p, nodes[i + 1].pc.excluding) && OccursFrom(Path(t.forest, parent), 1, tx)
                <==> tx in Lookup(p, p.txIds) && tx !in PendingTxs(t)
                     && OccursInGap(t, |nodes[i].consumed|, parent, tx))
  {
    NodeRunKeeps(env, cfg, nodes, events, i);
    InvReadable(env, cfg, nodes[i]);
    assert NodeStepAt(env, cfg, nodes, events, i);
    PendingReadStep(env, cfg, nodes[i], events[i], nodes[i + 1]);
    GapExactly(env, cfg, nodes[i], tx);
  }

  /** And exactly when that read leaves no gap. */
  lemma NoGapExactly(env: Env, cfg: Config, nodes: seq<Node>, events: seq<Event>, i: nat)
    requires NodeRun(env, cfg, nodes, events) && i < |events|
    requires nodes[i].pc.WorkingRead? && nodes[i + 1].pc.PendingRead?
    ensures Sound(nodes[i].store.tree)
    ensures nodes[i + 1].pc.gapless <==> CaughtUp(nodes[i].store.tree, nodes[i].pool, nodes[i].pc.parent)
  {
    NodeRunKeeps(env, cfg, nodes, events, i);
    InvReadable(env, cfg, nodes[i]);
    assert NodeStepAt(env, cfg, nodes, events, i);
    PendingReadStep(env, cfg, nodes[i], events[i], nodes[i + 1]);
    GaplessExactly(env, nodes[i].store.tree, nodes[i].pool, nodes[i].consumed, nodes[i].pc.parent);
  }

  ghost predicate OccursInGap(t: Tree, consumed: nat, parent: BlockId, tx: Transaction)
    requires Sound(t)
  {
    exists j: nat :: InGap(t, consumed, parent, j) && tx in Path(t.forest, parent)[j].transactions
  }

  lemma PendingReadStep(env: Env, cfg: Config, n: Node, e: Event, n': Node)
    requires Readable(env, n) && NodeStep(env, cfg, n, e, n') && n.pc.WorkingRead? && n'.pc.PendingRead?
    ensures n'.pool == n.pool && n'.pc.parent == n.pc.parent && n'.pc.excluding == PendingTxs(n.store.tree)
    ensures n'.pc.gapless == Gapless(n.store.tree, |n.consumed|, n.pc.parent)
  {
    match e
    case TxArrives(tx) =>
    case BlockArrives(b) => BlockStepPc(env, cfg, n, b, n.pc, n.pc, n');
    case MinerMoves => PendingReadMiner(env, cfg, n, n');
  }

  lemma BlockStepPc(env: Env, cfg: Config, n: Node, b: BlockNode, pc: MinerPc, stuck: MinerPc, n': Node)
    requires Inv(env, n.store.tree) && BlockStep(env, cfg, n, b, pc, stuck, n')
    ensures n'.pc == stuck || n'.pc == pc || n'.pc == Disturb(pc)
  {
  }

  lemma PendingReadMiner(env: Env, cfg: Config, n: Node, n': Node)
    requires Readable(env, n) && MinerStep(env, cfg, n, n') && n.pc.WorkingRead? && n'.pc.PendingRead?
    ensures n'.pool == n.pool && n'.pc.parent == n.pc.parent && n'.pc.excluding == PendingTxs(n.store.tree)
    ensures n'.pc.gapless == Gapless(n.store.tree, |n.consumed|, n.pc.parent)
  {
  }

  lemma GapExactly(env: Env, cfg: Config, n: Node, tx: Transaction)
    requires NodeInv(env, cfg, n) && n.pc.WorkingRead?
    ensures var t, p, parent := n.store.tree, n.pool, n.pc.parent;
            && parent in t.forest.allBlocks
            && (tx in Available(p, PendingTxs(t)) && OccursFrom(Path(t.forest, parent), 1, tx)
                <==> tx in Lookup(p, p.txIds) && tx !in PendingTxs(t) && OccursInGap(t, |n.consumed|, parent, tx))
  {
    var t, parent := n.store.tree, n.pc.parent;
    var done := [GenesisBlock()] + n.consumed;
    ReadState(env, cfg, n);
    BeyondConsumed(env, n.pool, done, Path(t.forest, parent), PendingTxs(t), tx);
    if tx !in PendingTxs(t) {
      GapOrPending(t, |n.consumed|, parent, tx);
    }
  }

  lemma GapOrPending(t: Tree, consumed: nat, parent: BlockId, tx: Transaction)
    requires Sound(t) && parent in t.forest.allBlocks && tx !in PendingTxs(t)
    ensures OccursFrom(Path(t.forest, parent), 1 + consumed, tx) <==> OccursInGap(t, consumed, parent, tx)
  {
    var path, working := Path(t.forest, parent), Path(t.forest, t.workingBlockId);
    var df := t.forest.blockDepth[t.finalizedBlockId];
    forall j: nat | df < j < |working| ensures tx !in working[j].transactions {
      if tx in working[j].transactions {
        UnfinalizedIsPending(t, j, tx);
      }
    }
    GapSplit(path, working, df, consumed, tx);
    assert forall j: nat :: InGap(t, consumed, parent, j) <==> GapAt(path, working, df, consumed, j);
  }

  lemma GapSplit(path: seq<BlockNode>, working: seq<BlockNode>, finalDepth: nat, consumed: nat, tx: Transaction)
    requires forall j: nat | finalDepth < j < |working| :: tx !in working[j].transactions
    ensures OccursFrom(path, 1 + consumed, tx)
       <==> exists j: nat :: GapAt(path, working, finalDepth, consumed, j) && tx in path[j].transactions
  {
    if OccursFrom(path, 1 + consumed, tx) {
      var j :| 1 + consumed <= j < |path| && tx in path[j].transactions;
      assert GapAt(path, working, finalDepth, consumed, j);
    }
  }

  lemma ReadState(env: Env, cfg: Config, n: Node)
    requires n.pc.WorkingRead? && Sound(n.store.tree) && InStep(env, n.store.tree, n.pool, n.consumed)
    requires PcOk(env, cfg, n.store.tree, n.pool, n.consumed, n.pc)
    ensures n.pc.parent in n.store.tree.forest.allBlocks
    ensures [GenesisBlock()] + n.consumed <= Path(n.store.tree.forest, n.pc.parent)
    ensures n.pool.removed == B.TxIdsOf(env, [GenesisBlock()] + n.consumed)
  {
  }

  /** The transactions of consumed blocks never come back, however long the miner takes: what it can choose
      from repeats one of an ancestor only if that occurs beyond the consumed blocks. */
  lemma ConsumedNeverRecurs(env: Env, cfg: Config, nodes: seq<Node>, events: seq<Event>, i: nat, tx: Transaction)
    requires NodeRun(env, cfg, nodes, events) && i < |nodes| && nodes[i].pc.PendingRead?
    ensures var n := nodes[i]; var t, parent, excluding := n.store.tree, n.pc.parent, n.pc.excluding;
            && Sound(t) && parent in t.forest.allBlocks
            && (forall id | id in n.pool.txIds :: id in n.pool.txMap)
            && (tx in Available(n.pool, excluding) && OccursFrom(Path(t.forest, parent), 1, tx)
                <==> tx in Lookup(n.pool, n.pool.txIds) && tx !in excluding
                     && OccursFrom(Path(t.forest, parent), 1 + |n.consumed|, tx))
  {
    NodeRunKeeps(env, cfg, nodes, events, i);
    var n := nodes[i];
    ChoiceState(env, cfg, n);
    BeyondConsumed(env, n.pool, [GenesisBlock()] + n.consumed, Path(n.store.tree.forest, n.pc.parent),
                   n.pc.excluding, tx);
  }

  lemma ChoiceState(env: Env, cfg: Config, n: Node)
    requires n.pc.PendingRead? && Sound(n.store.tree) && InStep(env, n.store.tree, n.pool, n.consumed)
    requires PcOk(env, cfg, n.store.tree, n.pool, n.consumed, n.pc)
    ensures n.pc.parent in n.store.tree.forest.allBlocks
    ensures [GenesisBlock()] + n.consumed <= Path(n.store.tree.forest, n.pc.parent)
    ensures n.pool.removed == B.TxIdsOf(env, [GenesisBlock()] + n.consumed)
  {
  }

  lemma BeyondConsumed(env: Env, pool: Pool, done: seq<BlockNode>, path: seq<BlockNode>, excluding: seq<Transaction>,
                       tx: Transaction)
    requires PoolOk(env, pool) && done != [] && done <= path && pool.removed == B.TxIdsOf(env, done)
    ensures tx in Available(pool, excluding) && OccursFrom(path, 1, tx)
       <==> tx in Lookup(pool, pool.txIds) && tx !in excluding && OccursFrom(path, |done|, tx)
  {
    if tx in Available(pool, excluding) {
      FilterSelects(env, pool, 0, excluding);
      RemovedAreFresh(env, done, [tx]);
      forall i | 1 <= i < |done| ensures tx !in path[i].transactions {
        assert done[i] == path[i] && tx in [tx];
      }
    }
    if OccursFrom(path, |done|, tx) {
      var i :| |done| <= i < |path| && tx in path[i].transactions;
      assert 1 <= i;
    }
  }

  // ----- a node that hangs -----

  lemma InvReadable(env: Env, cfg: Config, n: Node)
    requires NodeInv(env, cfg, n)
    ensures Readable(env, n)
  {
  }

  lemma HungStepKeeps(env: Env, cfg: Config, n: Node, e: Event, n': Node)
    requires Readable(env, n) && NodeStep(env, cfg, n, e, n') && n.hung
    ensures n'.hung && n'.store == n.store
  {
    if e.MinerMoves? {
      HungMinerKeeps(env, cfg, n, n');
    }
  }

  lemma HungMinerKeeps(env: Env, cfg: Config, n: Node, n': Node)
    requires Readable(env, n) && MinerStep(env, cfg, n, n') && n.hung
    ensures n'.hung && n'.store == n.store
  {
  }

  /** Once an `add_block` does not return, the chain never changes again. */
  lemma {:induction false} HungForever(env: Env, cfg: Config, nodes: seq<Node>, events: seq<Event>, i: nat, j: nat)
    requires NodeRun(env, cfg, nodes, events) && i <= j < |nodes| && nodes[i].hung
    ensures nodes[j].hung && nodes[j].store == nodes[i].store
    decreases j
  {
    if i < j {
      HungForever(env, cfg, nodes, events, i, j - 1);
      HungNext(env, cfg, nodes, events, j - 1);
    }
  }

  lemma HungNext(env: Env, cfg: Config, nodes: seq<Node>, events: seq<Event>, i: nat)
    requires NodeRun(env, cfg, nodes, events) && i < |events| && nodes[i].hung
    ensures nodes[i + 1].hung && nodes[i + 1].store == nodes[i].store
  {
    NodeRunKeeps(env, cfg, nodes, events, i);
    InvReadable(env, cfg, nodes[i]);
    assert NodeStepAt(env, cfg, nodes, events, i);
    HungStepKeeps(env, cfg, nodes[i], events[i], nodes[i + 1]);
  }
}
