/** The block tree itself (lib_chain/src/block.rs, `BlockTree`): its fields are updated in place, and
    every method is proved against the functions and relations of the modules before it. */
module BlockTrees {
  import opened Types
  import opened Balances
  import opened Forests
  import opened Trees
  import opened TreeInvariant
  import D = Deliveries
  import O = Orphans
  import opened FinalizedReads

  class BlockTree {
    const env: Env
    var allBlocks: map<BlockId, BlockNode>
    var childrenMap: map<BlockId, seq<BlockId>>
    var blockDepth: map<BlockId, nat>
    var workingBlockId: BlockId
    var orphans: map<BlockId, BlockNode>
    var finalizedBlockId: BlockId
    var finalizedBalanceMap: BalanceMap
    var finalizedTxIds: set<TxId>

    ghost function AsForest(): Forest
      reads this
    {
      Forest(allBlocks, blockDepth)
    }

    ghost function AsTree(): Tree
      reads this
    {
      Tree(AsForest(), childrenMap, workingBlockId, finalizedBlockId, finalizedBalanceMap, finalizedTxIds)
    }

    ghost function AsStore(): D.Store
      reads this
    {
      D.Store(AsTree(), orphans)
    }

    ghost predicate Valid()
      reads this
    {
      Inv(env, AsTree()) && O.OrphansKeyed(orphans)
    }

    constructor (env: Env)
      ensures Valid() && this.env == env
      ensures AsStore() == D.Store(NewTree(), map[])
      ensures allBlocks.Keys == {"0"} && blockDepth == map["0" := 0] && childrenMap == map[] && orphans == map[]
      ensures allBlocks["0"].header == BlockNodeHeader("0", "0", 0, "0", "0", "GENESIS")
      ensures allBlocks["0"].merkleTree == []
      ensures allBlocks["0"].transactions == [Transaction("GENESIS", ALICE, 299792458, "", "GENESIS")]
      ensures workingBlockId == finalizedBlockId == "0" && finalizedTxIds == {}
      ensures finalizedBalanceMap == map[ALICE := 299792458]
    {
      var genesis := GenesisBlock();
      this.env := env;
      allBlocks := map[ROOT_ID := genesis];
      childrenMap := map[];
      blockDepth := map[ROOT_ID := 0];
      workingBlockId := ROOT_ID;
      orphans := map[];
      finalizedBlockId := ROOT_ID;
      finalizedBalanceMap := map[];
      finalizedTxIds := {};
      new;
      var i := 0;
      while i < |genesis.transactions|
        invariant 0 <= i <= |genesis.transactions| == 1
        invariant finalizedBalanceMap == if i == 0 then map[] else GenesisBalances()
        invariant AsStore() == D.Store(NewTree().(finalizedBalanceMap := finalizedBalanceMap), map[])
      {
        var tx := genesis.transactions[i];
        finalizedBalanceMap := finalizedBalanceMap[tx.receiver := tx.amount];
        i := i + 1;
      }
      NewTreeInv(env);
    }

    // ----- checks -----

    method VerifyBlockAncestry(merkleRoot: string, parentBlock: BlockNode) returns (ok: bool)
      requires Rooted(AsForest())
      requires parentBlock.header.blockId in allBlocks && allBlocks[parentBlock.header.blockId] == parentBlock
      ensures ok <==> AncestryOk(AsForest(), merkleRoot, parentBlock.header.blockId)
    {
      ghost var fo, p := AsForest(), parentBlock.header.blockId;
      var block := parentBlock;
      while block.header.parent != ROOT_ID
        invariant block.header.blockId in allBlocks && allBlocks[block.header.blockId] == block
        invariant OnPath(fo, block.header.blockId, p)
        invariant forall i | 2 <= i <= blockDepth[p] && i > blockDepth[block.header.blockId] ::
                    Path(fo, p)[i].header.merkleRoot != merkleRoot
        decreases blockDepth[block.header.blockId]
      {
        ghost var id := block.header.blockId;
        ParentOnPath(fo, id, p);
        if merkleRoot == block.header.merkleRoot {
          return false;
        }
        block := allBlocks[block.header.parent];
      }
      assert block.header.blockId == ROOT_ID || Parent(fo, block.header.blockId) == ROOT_ID;
      return true;
    }

    method GetPendingFinalizationTxs() returns (pendingTxs: seq<Transaction>)
      requires Sound(AsTree())
      ensures pendingTxs == PendingTxs(AsTree())
    {
      ghost var t := AsTree();
      ghost var goal := PendingTxs(t);
      var block := allBlocks[workingBlockId];
      pendingTxs := [];
      while block.header.blockId != finalizedBlockId
        invariant block.header.blockId in allBlocks && allBlocks[block.header.blockId] == block
        invariant OnPath(t.forest, finalizedBlockId, block.header.blockId)
        invariant pendingTxs + TxsBackwards(Unfinalized(t, block.header.blockId)) == goal
        decreases blockDepth[block.header.blockId]
      {
        PendingStep(t, block.header.blockId);
        pendingTxs := pendingTxs + block.transactions;
        block := allBlocks[block.header.parent];
      }
      assert Unfinalized(t, finalizedBlockId) == [];
    }

    method VerifyTransactionsBalance(block: BlockNode, parentBlock: BlockNode) returns (ok: bool)
      requires Sound(AsTree())
      requires parentBlock.header.blockId in allBlocks && allBlocks[parentBlock.header.blockId] == parentBlock
      requires block.header.parent == parentBlock.header.blockId && Extends(AsTree(), parentBlock.header.blockId)
      ensures ok <==> BalanceOk(AsTree(), block)
    {
      var balanceMap := ApplyPending();
      balanceMap := AddRewards(balanceMap, parentBlock);
      ok := ScanBlock(balanceMap, block);
    }

    /** The third loop: every sender in turn. */
    method ScanBlock(balances: BalanceMap, block: BlockNode) returns (ok: bool)
      ensures ok <==> Scan(balances, block.transactions)
    {
      var balanceMap, i := balances, 0;
      while i < |block.transactions|
        invariant 0 <= i <= |block.transactions|
        invariant Scan(balances, block.transactions) <==> Scan(balanceMap, block.transactions[i..])
      {
        var tx := block.transactions[i];
        assert block.transactions[i..][0] == tx && block.transactions[i..][1..] == block.transactions[i + 1..];
        if Get(balanceMap, tx.sender) < tx.amount {
          return false;
        }
        balanceMap := ApplyOne(balanceMap, tx);
        i := i + 1;
      }
      return true;
    }

    /** The first loop of the balance check: the pending transactions. */
    method ApplyPending() returns (balanceMap: BalanceMap)
      requires Sound(AsTree())
      ensures balanceMap == ApplyTxs(finalizedBalanceMap, PendingTxs(AsTree()))
    {
      var pending := GetPendingFinalizationTxs();
      balanceMap := ApplyEach(finalizedBalanceMap, pending);
    }

    /** One transaction: the sender pays first, then the receiver is paid. */
    static method ApplyOne(balances: BalanceMap, tx: Transaction) returns (balanceMap: BalanceMap)
      ensures balanceMap == ApplyTx(balances, tx)
    {
      balanceMap := balances[tx.sender := Get(balances, tx.sender) - tx.amount];
      balanceMap := balanceMap[tx.receiver := Get(balanceMap, tx.receiver) + tx.amount];
    }

    static method ApplyEach(balances: BalanceMap, txs: seq<Transaction>) returns (balanceMap: BalanceMap)
      ensures balanceMap == ApplyTxs(balances, txs)
    {
      balanceMap := balances;
      var i := 0;
      while i < |txs|
        invariant 0 <= i <= |txs|
        invariant balanceMap == ApplyTxs(balances, txs[..i])
      {
        var tx := txs[i];
        ApplyTxsStep(balances, txs, i);
        balanceMap := ApplyOne(balanceMap, tx);
        i := i + 1;
      }
      TakeAll(txs);
    }

    /** The second loop: the rewards of the blocks from the parent up to below the finalized block. */
    method AddRewards(balances: BalanceMap, parentBlock: BlockNode) returns (balanceMap: BalanceMap)
      requires Sound(AsTree())
      requires parentBlock.header.blockId in allBlocks && allBlocks[parentBlock.header.blockId] == parentBlock
      requires Extends(AsTree(), parentBlock.header.blockId)
      ensures balanceMap == RewardWalk(balances, Unfinalized(AsTree(), parentBlock.header.blockId))
    {
      ghost var t := AsTree();
      ghost var goal := RewardWalk(balances, Unfinalized(t, parentBlock.header.blockId));
      var block := parentBlock;
      balanceMap := balances;
      while block.header.parent != finalizedBlockId
        invariant block.header.blockId in allBlocks && allBlocks[block.header.blockId] == block
        invariant Extends(t, block.header.blockId)
        invariant RewardWalk(balanceMap, Unfinalized(t, block.header.blockId)) == goal
        decreases blockDepth[block.header.blockId]
      {
        RewardStep(t, block.header.blockId, balanceMap);
        balanceMap := Credit(balanceMap, block.header.rewardReceiver, MINING_REWARD);
        block := allBlocks[block.header.parent];
      }
      RewardStop(t, block.header.blockId);
    }

    // ----- linking -----

    /** The walk of six steps: did it meet a child of the finalized block, and if not, where did it end? */
    method WalkUp(block: BlockNode) returns (met: bool, b: BlockNode)
      requires Rooted(AsForest())
      requires block.header.blockId in allBlocks && allBlocks[block.header.blockId] == block
      ensures met <==> MeetsWithin(AsForest(), finalizedBlockId, block.header.blockId, CONFIRMATIONS)
      ensures !met ==> b.header.blockId in allBlocks && allBlocks[b.header.blockId] == b
                       && b.header.blockId == Up(AsForest(), block.header.blockId, CONFIRMATIONS)
    {
      ghost var fo, id := AsForest(), block.header.blockId;
      b := block;
      for k := 0 to CONFIRMATIONS
        invariant b.header.blockId == Up(fo, id, k) && allBlocks[b.header.blockId] == b
        invariant forall m: nat | m < k :: Parent(fo, Up(fo, id, m)) != finalizedBlockId
      {
        UpNext(fo, id, k);
        if b.header.parent == finalizedBlockId {
          return true, b;
        }
        b := allBlocks[b.header.parent];
      }
      met := false;
    }

    method ApplyTransactions(txs: seq<Transaction>) returns (newBalances: BalanceMap, newTxIds: set<TxId>)
      ensures newBalances == ApplyTxs(finalizedBalanceMap, txs)
      ensures newTxIds == IdsOf(env, txs)
    {
      newBalances, newTxIds := finalizedBalanceMap, {};
      var i := 0;
      while i < |txs|
        invariant 0 <= i <= |txs|
        invariant newBalances == ApplyTxs(finalizedBalanceMap, txs[..i])
        invariant newTxIds == IdsOf(env, txs[..i])
      {
        var tx := txs[i];
        ApplyTxsStep(finalizedBalanceMap, txs, i);
        IdsStep(env, txs, i);
        newBalances := ApplyOne(newBalances, tx);
        newTxIds := newTxIds + {GenHash(env, tx)};
        i := i + 1;
      }
      TakeAll(txs);
    }

    method ApplyFinalized(b: BlockNode)
      modifies this`finalizedBlockId, this`finalizedBalanceMap, this`finalizedTxIds
      ensures AsTree() == Advance(env, old(AsTree()), b)
    {
      var newBalances, newTxIds := ApplyTransactions(b.transactions);
      newBalances := Credit(newBalances, b.header.rewardReceiver, MINING_REWARD);
      finalizedTxIds := finalizedTxIds + newTxIds;
      finalizedBalanceMap := newBalances;
      finalizedBlockId := b.header.blockId;
    }

    method FinalizeBlock(block: BlockNode)
      requires Rooted(AsForest())
      requires block.header.blockId in allBlocks && allBlocks[block.header.blockId] == block
      requires finalizedBlockId in childrenMap
      modifies this`finalizedBlockId, this`finalizedBalanceMap, this`finalizedTxIds
      ensures AsTree() == Finalize(env, old(AsTree()), block.header.blockId)
    {
      var children := childrenMap[finalizedBlockId];
      var met, b := WalkUp(block);
      if !met && b.header.blockId in children {
        ApplyFinalized(b);
      }
    }

    method UpdateBlocktree(block: BlockNode)
      requires Rooted(AsForest()) && finalizedBlockId in allBlocks && ChildrenOk(AsForest(), childrenMap)
      requires Linkable(AsTree(), block)
      modifies this
      ensures AsTree() == Link(env, old(AsTree()), block) && orphans == old(orphans)
    {
      ghost var t := AsTree();
      InsertReady(t, block);
      Insert(block);
      FinalizeBlock(block);
    }

    /** The first part of `update_blocktree`: everything but finalization. */
    method Insert(block: BlockNode)
      requires block.header.parent in blockDepth
      modifies this`allBlocks, this`blockDepth, this`childrenMap, this`workingBlockId
      ensures AsTree() == Grow(old(AsTree()), block)
    {
      allBlocks := allBlocks[block.header.blockId := block];
      var parentDepth := blockDepth[block.header.parent];
      blockDepth := blockDepth[block.header.blockId := parentDepth + 1];
      var siblings := (if block.header.parent in childrenMap then childrenMap[block.header.parent] else [])
                      + [block.header.blockId];
      childrenMap := childrenMap[block.header.parent := siblings];
      workingBlockId := MaxId(siblings);
    }

    // ----- adding blocks -----

    method AddBlock(block: BlockNode, leadingZeroLen: nat)
      requires Valid() && D.AddReturns(env, AsStore(), D.Delivery(block, leadingZeroLen))
      modifies this
      ensures Valid()
      ensures exists acc :: D.AddBlock(env, old(AsStore()), D.Delivery(block, leadingZeroLen), acc, AsStore())
    {
      ghost var d := D.Delivery(block, leadingZeroLen);
      if block.header.blockId in allBlocks || block.header.blockId in orphans {
        assert D.AddBlock(env, AsStore(), d, [], AsStore());
        return;
      }
      AddOrphanBlock(block, leadingZeroLen);
      ghost var acc :| D.AddOrphanBlock(env, old(AsStore()), block, leadingZeroLen, acc, AsStore());
      assert D.AddBlock(env, old(AsStore()), d, acc, AsStore());
    }

    /** The checks and the attachment that `add_block` and `add_orphan_block` share. The recursion ends
        because the orphans that are not in the tree become fewer. */
    method AddOrphanBlock(block: BlockNode, leadingZeroLen: nat)
      requires Valid() && D.ChecksReturn(env, AsTree(), block, leadingZeroLen)
      requires block.header.blockId in orphans ==> orphans[block.header.blockId] == block
      modifies this
      ensures Valid()
      ensures exists acc :: D.AddOrphanBlock(env, old(AsStore()), block, leadingZeroLen, acc, AsStore())
      decreases orphans.Keys + {block.header.blockId} - allBlocks.Keys, 0, 1
    {
      var verdict := Check(block, leadingZeroLen);
      if verdict == Accepted {
        ghost var acc := LinkAndAttach(block, leadingZeroLen);
      } else {
        KeepOut(block, leadingZeroLen, verdict);
      }
    }

    /** A block that is not linked: dropped, or buffered if its parent is missing. */
    method KeepOut(block: BlockNode, leadingZeroLen: nat, verdict: Verdict)
      requires Valid() && D.ChecksReturn(env, AsTree(), block, leadingZeroLen)
      requires block.header.blockId in orphans ==> orphans[block.header.blockId] == block
      requires verdict == VerdictOf(env, AsTree(), block, leadingZeroLen) != Accepted
      modifies this`orphans
      ensures Valid()
      ensures D.AddOrphanBlock(env, old(AsStore()), block, leadingZeroLen, [], AsStore())
    {
      if verdict == ParentMissing {
        orphans := orphans[block.header.blockId := block];
      }
    }

    /** A block that passed the checks is linked, and one buffered child of it, if any, is added in turn. */
    method LinkAndAttach(block: BlockNode, leadingZeroLen: nat) returns (ghost acc: seq<BlockNode>)
      requires Valid() && D.ChecksReturn(env, AsTree(), block, leadingZeroLen)
      requires VerdictOf(env, AsTree(), block, leadingZeroLen) == Accepted
      modifies this
      ensures Valid()
      ensures D.AddOrphanBlock(env, old(AsStore()), block, leadingZeroLen, acc, AsStore())
      decreases orphans.Keys + {block.header.blockId} - allBlocks.Keys, 0, 0
    {
      ghost var s := AsStore();
      AcceptedLinks(env, s.tree, block, leadingZeroLen);
      UpdateBlocktree(block);
      ghost var rest := AttachOrphan(block.header.blockId, leadingZeroLen);
      AddFromAttach(env, s, block, leadingZeroLen, rest, AsStore());
      acc := [block] + rest;
    }

    method AttachOrphan(p: BlockId, leadingZeroLen: nat) returns (ghost acc: seq<BlockNode>)
      requires Valid() && p in allBlocks && Extends(AsTree(), p)
      modifies this
      ensures Valid()
      ensures D.AttachOne(env, old(AsStore()), p, leadingZeroLen, acc, AsStore())
      decreases orphans.Keys - allBlocks.Keys, 2
    {
      var found, orphan := FindOrphanChild(p);
      if found {
        acc := AttachChild(p, orphan, leadingZeroLen);
      } else {
        acc := [];
      }
    }

    method AttachChild(p: BlockId, orphan: BlockNode, leadingZeroLen: nat) returns (ghost acc: seq<BlockNode>)
      requires Valid() && p in allBlocks && Extends(AsTree(), p)
      requires orphan.header.parent == p && orphan.header.blockId in orphans && orphans[orphan.header.blockId] == orphan
      modifies this
      ensures Valid()
      ensures D.AttachOne(env, old(AsStore()), p, leadingZeroLen, acc, AsStore())
      decreases orphans.Keys - allBlocks.Keys, 1
    {
      ghost var s := AsStore();
      assert orphans.Keys + {orphan.header.blockId} - allBlocks.Keys == orphans.Keys - allBlocks.Keys;
      AddOrphanBlock(orphan, leadingZeroLen);
      acc :| D.AddOrphanBlock(env, s, orphan, leadingZeroLen, acc, AsStore());
      ghost var s2 := AsStore();
      RemoveOrphan(p);
      AttachedChild(env, s, p, orphan, leadingZeroLen, acc, s2);
    }

    method RemoveOrphan(id: BlockId)
      requires Valid()
      modifies this`orphans
      ensures Valid() && AsStore() == old(AsStore()).(orphans := old(orphans) - {id})
    {
      orphans := orphans - {id};
    }

    /** The checks in the order of the source, without effect. */
    method Check(block: BlockNode, leadingZeroLen: nat) returns (v: Verdict)
      requires Valid() && D.ChecksReturn(env, AsTree(), block, leadingZeroLen)
      ensures v == VerdictOf(env, AsTree(), block, leadingZeroLen)
    {
      if block.header.blockId in allBlocks || !BlockIntegrity(env, block, leadingZeroLen) {
        return Rejected;
      }
      if block.header.parent !in allBlocks {
        return ParentMissing;
      }
      var parentBlock := allBlocks[block.header.parent];
      assert parentBlock.header.blockId == block.header.parent;
      var distinct := VerifyBlockAncestry(block.header.merkleRoot, parentBlock);
      if !distinct {
        return Rejected;
      }
      var payable := VerifyTransactionsBalance(block, parentBlock);
      return if payable then Accepted else Rejected;
    }

    /** The loop over the buffer, in no particular order, up to the first child of `p`. */
    method FindOrphanChild(p: BlockId) returns (found: bool, orphan: BlockNode)
      requires O.OrphansKeyed(orphans)
      ensures found <==> D.HasOrphanChild(orphans, p)
      ensures found ==> orphan.header.blockId in orphans && orphans[orphan.header.blockId] == orphan
      ensures found ==> orphan.header.parent == p
    {
      var rest := orphans;
      while rest != map[]
        invariant forall k | k in rest :: k in orphans && orphans[k] == rest[k]
        invariant forall k | k in orphans && k !in rest :: orphans[k].header.parent != p
        decreases |rest|
      {
        var k :| k in rest;
        if rest[k].header.parent == p {
          return true, rest[k];
        }
        rest := rest - {k};
      }
      return false, GenesisBlock();
    }

    // ----- reading the finalized blocks -----

    method GetFinalizedBlocksSince(since: BlockId) returns (r: Result<seq<BlockNode>>)
      requires Rooted(AsForest()) && finalizedBlockId in allBlocks
      ensures r == FinalizedSince(AsTree(), since)
    {
      ghost var fo, f := AsForest(), finalizedBlockId;
      if since in blockDepth && blockDepth[since] > blockDepth[finalizedBlockId] {
        return Panic;
      }
      var block := allBlocks[finalizedBlockId];
      if block.header.blockId == since {
        SinceItself(AsTree());
        return Success([]);
      }
      var fBlocks := [block];
      while block.header.parent != since && block.header.parent != ROOT_ID
        invariant block.header.blockId in allBlocks && allBlocks[block.header.blockId] == block
        invariant OnPath(fo, block.header.blockId, f)
        invariant block.header.blockId == ROOT_ID ==> f == ROOT_ID
        invariant fBlocks == Path(fo, f)[blockDepth[block.header.blockId]..]
        invariant since in allBlocks && OnPath(fo, since, f) ==> blockDepth[since] < blockDepth[block.header.blockId]
        decreases blockDepth[block.header.blockId]
      {
        SinceStep(fo, since, block.header.blockId, f);
        block := allBlocks[block.header.parent];
        fBlocks := [block] + fBlocks;
      }
      SinceReached(AsTree(), since, block.header.blockId);
      return Success(fBlocks);
    }
  }

  // ----- the steps of the loops -----

  lemma ApplyTxsStep(m: BalanceMap, txs: seq<Transaction>, i: nat)
    requires i < |txs|
    ensures ApplyTxs(m, txs[..i + 1]) == ApplyTx(ApplyTxs(m, txs[..i]), txs[i])
  {
    assert txs[..i + 1][..i] == txs[..i];
  }

  lemma TakeAll(txs: seq<Transaction>)
    ensures txs[..|txs|] == txs
  {
  }

  lemma IdsStep(env: Env, txs: seq<Transaction>, i: nat)
    requires i < |txs|
    ensures IdsOf(env, txs[..i + 1]) == IdsOf(env, txs[..i]) + {GenHash(env, txs[i])}
  {
    assert txs[..i + 1] == txs[..i] + [txs[i]];
  }

  // ----- the steps of the walks -----

  datatype Verdict = Accepted | Rejected | ParentMissing

  ghost function VerdictOf(env: Env, t: Tree, b: BlockNode, leadingZeroLen: nat): Verdict
    requires Sound(t)
  {
    if b.header.blockId in t.forest.allBlocks || !BlockIntegrity(env, b, leadingZeroLen) then Rejected
    else if b.header.parent !in t.forest.allBlocks then ParentMissing
    else if Accepts(t, b) then Accepted
    else Rejected
  }

  lemma ParentOnPath(fo: Forest, id: BlockId, p: BlockId)
    requires Rooted(fo) && id in fo.allBlocks && p in fo.allBlocks && OnPath(fo, id, p)
    requires Parent(fo, id) != ROOT_ID
    ensures Parent(fo, id) in fo.allBlocks && fo.blockDepth[id] == fo.blockDepth[Parent(fo, id)] + 1
    ensures OnPath(fo, Parent(fo, id), p)
    ensures fo.blockDepth[id] >= 2
    ensures Path(fo, p)[fo.blockDepth[id]] == fo.allBlocks[id]
    ensures Path(fo, p)[fo.blockDepth[Parent(fo, id)]] == fo.allBlocks[Parent(fo, id)]
  {
    assert id != ROOT_ID;
    assert Path(fo, id) == Path(fo, Parent(fo, id)) + [fo.allBlocks[id]];
    AncestorAt(fo, id, p);
    AncestorAt(fo, Parent(fo, id), p);
    assert Parent(fo, Parent(fo, id)) in fo.allBlocks;
  }

  lemma UnfinalizedParent(t: Tree, id: BlockId)
    requires Rooted(t.forest) && t.finalizedBlockId in t.forest.allBlocks && id in t.forest.allBlocks
    requires StrictlyAbove(t.forest, t.finalizedBlockId, id)
    ensures id != ROOT_ID && Parent(t.forest, id) in t.forest.allBlocks
    ensures t.forest.blockDepth[Parent(t.forest, id)] < t.forest.blockDepth[id]
    ensures OnPath(t.forest, t.finalizedBlockId, Parent(t.forest, id))
    ensures Unfinalized(t, id) == Unfinalized(t, Parent(t.forest, id)) + [t.forest.allBlocks[id]]
  {
    AncestorAt(t.forest, t.finalizedBlockId, id);
    assert Path(t.forest, id) == Path(t.forest, Parent(t.forest, id)) + [t.forest.allBlocks[id]];
  }

  lemma PendingStep(t: Tree, id: BlockId)
    requires Rooted(t.forest) && t.finalizedBlockId in t.forest.allBlocks && id in t.forest.allBlocks
    requires StrictlyAbove(t.forest, t.finalizedBlockId, id)
    ensures Parent(t.forest, id) in t.forest.allBlocks
    ensures t.forest.blockDepth[Parent(t.forest, id)] < t.forest.blockDepth[id]
    ensures OnPath(t.forest, t.finalizedBlockId, Parent(t.forest, id))
    ensures TxsBackwards(Unfinalized(t, id))
         == t.forest.allBlocks[id].transactions + TxsBackwards(Unfinalized(t, Parent(t.forest, id)))
  {
    UnfinalizedParent(t, id);
    var seg := Unfinalized(t, id);
    assert seg[..|seg| - 1] == Unfinalized(t, Parent(t.forest, id));
  }

  lemma RewardStep(t: Tree, id: BlockId, m: BalanceMap)
    requires Rooted(t.forest) && t.finalizedBlockId in t.forest.allBlocks && id in t.forest.allBlocks
    requires Extends(t, id) && Parent(t.forest, id) != t.finalizedBlockId
    ensures id != ROOT_ID && Parent(t.forest, id) in t.forest.allBlocks && Extends(t, Parent(t.forest, id))
    ensures t.forest.blockDepth[Parent(t.forest, id)] < t.forest.blockDepth[id]
    ensures RewardWalk(m, Unfinalized(t, id))
         == RewardWalk(Reward(m, t.forest.allBlocks[id].header.rewardReceiver), Unfinalized(t, Parent(t.forest, id)))
  {
    assert id != ROOT_ID;
    RootAboveAll(t.forest, id);
    UnfinalizedParent(t, id);
    var p := Parent(t.forest, id);
    AncestorAt(t.forest, t.finalizedBlockId, p);
    if Path(t.forest, p) == Path(t.forest, t.finalizedBlockId) {
      PathDetermines(t.forest, p, t.finalizedBlockId);
    }
    var seg := Unfinalized(t, id);
    assert seg[..|seg| - 1] == Unfinalized(t, p);
  }

  lemma RewardStop(t: Tree, id: BlockId)
    requires Rooted(t.forest) && t.finalizedBlockId in t.forest.allBlocks && id in t.forest.allBlocks
    requires Extends(t, id) && Parent(t.forest, id) == t.finalizedBlockId
    ensures |Unfinalized(t, id)| <= 1
  {
  }

  lemma {:induction false} UpNext(fo: Forest, id: BlockId, k: nat)
    requires Rooted(fo) && id in fo.allBlocks
    ensures Up(fo, id, k + 1) == Parent(fo, Up(fo, id, k))
    decreases k
  {
    if k > 0 {
      UpNext(fo, if id == ROOT_ID then ROOT_ID else Parent(fo, id), k - 1);
    }
  }

  /** The unwrap of the finalized block's children succeeds once the new block is listed. */
  lemma FinalizedHasChild(t: Tree, b: BlockNode)
    requires Rooted(t.forest) && t.finalizedBlockId in t.forest.allBlocks && Linkable(t, b)
    requires ChildrenOk(t.forest, t.childrenMap)
    ensures t.finalizedBlockId == b.header.parent || t.finalizedBlockId in t.childrenMap
  {
    if t.finalizedBlockId != b.header.parent {
      LinkableBelow(t, b);
      AncestorAt(t.forest, t.finalizedBlockId, b.header.parent);
      ChildTowards(t.forest, t.finalizedBlockId, b.header.parent);
    }
  }

  lemma InsertReady(t: Tree, b: BlockNode)
    requires Rooted(t.forest) && t.finalizedBlockId in t.forest.allBlocks && Linkable(t, b)
    requires ChildrenOk(t.forest, t.childrenMap)
    ensures Rooted(Grow(t, b).forest) && Grow(t, b).finalizedBlockId in Grow(t, b).childrenMap
    ensures b.header.blockId in Grow(t, b).forest.allBlocks && Grow(t, b).forest.allBlocks[b.header.blockId] == b
  {
    FinalizedHasChild(t, b);
    ExtendRooted(t.forest, b);
  }

  lemma AcceptedLinks(env: Env, t: Tree, b: BlockNode, leadingZeroLen: nat)
    requires Inv(env, t) && D.ChecksReturn(env, t, b, leadingZeroLen)
    requires VerdictOf(env, t, b, leadingZeroLen) == Accepted
    ensures Linkable(t, b) && Inv(env, Link(env, t, b))
    ensures Link(env, t, b).forest == Extend(t.forest, b)
    ensures Extends(Link(env, t, b), b.header.blockId)
  {
    LinkKeepsInv(env, t, b);
    LinkWorkingOk(env, t, b);
  }

  lemma AddFromAttach(env: Env, s: D.Store, b: BlockNode, leadingZeroLen: nat, acc: seq<BlockNode>, s': D.Store)
    requires Inv(env, s.tree) && D.ChecksReturn(env, s.tree, b, leadingZeroLen)
    requires VerdictOf(env, s.tree, b, leadingZeroLen) == Accepted
    requires Inv(env, Link(env, s.tree, b)) && b.header.blockId in Link(env, s.tree, b).forest.allBlocks
    requires Extends(Link(env, s.tree, b), b.header.blockId)
    requires D.AttachOne(env, D.Store(Link(env, s.tree, b), s.orphans), b.header.blockId, leadingZeroLen, acc, s')
    ensures D.AddOrphanBlock(env, s, b, leadingZeroLen, [b] + acc, s')
  {
    assert ([b] + acc)[1..] == acc;
  }

  lemma AttachedChild(env: Env, s: D.Store, p: BlockId, o: BlockNode, leadingZeroLen: nat, acc: seq<BlockNode>,
                      s2: D.Store)
    requires Inv(env, s.tree) && p in s.tree.forest.allBlocks && Extends(s.tree, p)
    requires o.header.parent == p && o.header.blockId in s.orphans && s.orphans[o.header.blockId] == o
    requires D.AddOrphanBlock(env, s, o, leadingZeroLen, acc, s2)
    ensures D.AttachOne(env, s, p, leadingZeroLen, acc, s2.(orphans := s2.orphans - {p}))
  {
    var k := o.header.blockId;
    assert D.AddOrphanBlock(env, s, s.orphans[k], leadingZeroLen, acc, s2);
    assert D.HasOrphanChild(s.orphans, p);
  }

  lemma SinceItself(t: Tree)
    requires Rooted(t.forest) && t.finalizedBlockId in t.forest.allBlocks
    ensures FinalizedSince(t, t.finalizedBlockId) == Success([])
  {
    assert Path(t.forest, t.finalizedBlockId)[t.forest.blockDepth[t.finalizedBlockId] + 1..] == [];
  }

  // ----- the walk from the finalized block to `since` -----

  lemma SinceStep(fo: Forest, since: BlockId, id: BlockId, f: BlockId)
    requires Rooted(fo) && id in fo.allBlocks && f in fo.allBlocks && OnPath(fo, id, f)
    requires Parent(fo, id) != since && Parent(fo, id) != ROOT_ID
    requires since in fo.allBlocks && OnPath(fo, since, f) ==> fo.blockDepth[since] < fo.blockDepth[id]
    ensures Parent(fo, id) in fo.allBlocks && OnPath(fo, Parent(fo, id), f)
    ensures fo.blockDepth[id] == fo.blockDepth[Parent(fo, id)] + 1
    ensures since in fo.allBlocks && OnPath(fo, since, f) ==> fo.blockDepth[since] < fo.blockDepth[Parent(fo, id)]
    ensures Path(fo, f)[fo.blockDepth[Parent(fo, id)]..]
            == [fo.allBlocks[Parent(fo, id)]] + Path(fo, f)[fo.blockDepth[id]..]
  {
    ParentOnPath(fo, id, f);
    if since in fo.allBlocks && OnPath(fo, since, f) {
      AncestorAt(fo, since, f);
      assert fo.allBlocks[since].header.blockId == since;
    }
    assert fo.allBlocks[Parent(fo, id)].header.blockId == Parent(fo, id);
  }

  lemma SinceReached(t: Tree, since: BlockId, id: BlockId)
    requires Rooted(t.forest) && t.finalizedBlockId in t.forest.allBlocks && id in t.forest.allBlocks
    requires OnPath(t.forest, id, t.finalizedBlockId) && since != t.finalizedBlockId
    requires since in t.forest.allBlocks ==> t.forest.blockDepth[since] <= t.forest.blockDepth[t.finalizedBlockId]
    requires since in t.forest.allBlocks && OnPath(t.forest, since, t.finalizedBlockId) ==>
               t.forest.blockDepth[since] < t.forest.blockDepth[id]
    requires Parent(t.forest, id) == since || Parent(t.forest, id) == ROOT_ID
    requires id == ROOT_ID ==> t.finalizedBlockId == ROOT_ID
    ensures FinalizedSince(t, since) == Success(Path(t.forest, t.finalizedBlockId)[t.forest.blockDepth[id]..])
  {
    var fo, f := t.forest, t.finalizedBlockId;
    AncestorAt(fo, id, f);
    RootAboveAll(fo, f);
    if id != ROOT_ID {
      assert Path(fo, id) == Path(fo, Parent(fo, id)) + [fo.allBlocks[id]];
      assert Path(fo, Parent(fo, id)) <= Path(fo, f);
    }
  }
}
