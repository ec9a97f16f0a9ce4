/** What the incremental balance check means in terms of replay from the genesis block, when exactly it
    is sound, and the absence of overdrafts in the runs in which it is. */
module Solvency {
  import opened Types
  import opened Balances
  import opened Forests
  import opened Trees
  import opened TreeInvariant
  import opened Deliveries

  // ----- the checked balances -----

  /** The reward the walk leaves out: that of the finalized block's child on the way to `p`. */
  ghost function Withheld(t: Tree, p: BlockId, u: UserId): int
    requires Rooted(t.forest) && t.finalizedBlockId in t.forest.allBlocks && p in t.forest.allBlocks
  {
    var seg := Unfinalized(t, p);
    if seg != [] && seg[0].header.rewardReceiver == u then MINING_REWARD else 0
  }

  lemma {:induction false} RewardWalkNet(m: BalanceMap, seg: seq<BlockNode>, u: UserId)
    ensures Get(RewardWalk(m, seg), u)
         == Get(m, u) + Rewards(seg, u)
            - (if seg != [] && seg[0].header.rewardReceiver == u then MINING_REWARD else 0)
    decreases |seg|
  {
    if |seg| == 1 {
      assert seg[..0] == [];
    } else if |seg| > 1 {
      RewardWalkNet(Reward(m, seg[|seg| - 1].header.rewardReceiver), seg[..|seg| - 1], u);
    }
  }

  lemma {:induction false} TxsBackwardsNet(seg: seq<BlockNode>, u: UserId)
    ensures Net(TxsBackwards(seg), u) == NetBlocks(seg, u)
  {
    if seg != [] {
      TxsBackwardsNet(seg[..|seg| - 1], u);
      NetAppend(seg[|seg| - 1].transactions, TxsBackwards(seg[..|seg| - 1]), u);
    }
  }

  lemma UnfinalizedSplits(t: Tree, p: BlockId)
    requires Rooted(t.forest) && t.finalizedBlockId in t.forest.allBlocks && p in t.forest.allBlocks
    requires Extends(t, p)
    ensures Path(t.forest, p) == Path(t.forest, t.finalizedBlockId) + Unfinalized(t, p)
  {
    FinalizedAbove(t, p);
    SplitAt(Path(t.forest, t.finalizedBlockId), Path(t.forest, p));
  }

  lemma FinalizedAbove(t: Tree, p: BlockId)
    requires Rooted(t.forest) && t.finalizedBlockId in t.forest.allBlocks && p in t.forest.allBlocks
    requires Extends(t, p)
    ensures OnPath(t.forest, t.finalizedBlockId, p)
  {
    RootAboveAll(t.forest, p);
  }

  lemma SplitAt(prefix: seq<BlockNode>, path: seq<BlockNode>)
    requires prefix <= path
    ensures path == prefix + path[|prefix|..]
  {
  }

  /** The balance a block on parent `p` is checked against, for every user and every `p` that passes
      the walk: the replay up to `p`, less the withheld reward, with the transactions of the working
      branch counted in place of those of `p`'s own branch. */
  lemma CheckedBalance(env: Env, t: Tree, p: BlockId, u: UserId)
    requires Rooted(t.forest) && Sound(t) && LedgerOk(env, t)
    requires p in t.forest.allBlocks && Extends(t, p)
    ensures Get(CheckedBalances(t, p), u)
         == Get(Replay(Path(t.forest, p)), u) - Withheld(t, p, u)
            + Net(PendingTxs(t), u) - NetBlocks(Unfinalized(t, p), u)
  {
    var seg := Unfinalized(t, p);
    UnfinalizedSplits(t, p);
    RewardWalkNet(ApplyTxs(t.finalizedBalanceMap, PendingTxs(t)), seg, u);
    ApplyTxsNet(t.finalizedBalanceMap, PendingTxs(t), u);
    ReplayNet(Path(t.forest, t.finalizedBlockId), seg, u);
  }

  /** The same without the auxiliary functions: `own` is the unfinalized part of the path to `p`. */
  lemma CheckedOwn(env: Env, t: Tree, p: BlockId, u: UserId)
    requires Rooted(t.forest) && Sound(t) && LedgerOk(env, t)
    requires p in t.forest.allBlocks && Extends(t, p)
    ensures t.forest.blockDepth[t.finalizedBlockId] + 1 <= |Path(t.forest, p)|
    ensures var own := Path(t.forest, p)[t.forest.blockDepth[t.finalizedBlockId] + 1..];
            Get(CheckedBalances(t, p), u)
            == Get(Replay(Path(t.forest, p)), u) + Net(PendingTxs(t), u) - Net(TxsBackwards(own), u)
               - (if own != [] && own[0].header.rewardReceiver == u then 10 else 0)
  {
    CheckedBalance(env, t, p, u);
    FinalizedAbove(t, p);
    TxsBackwardsNet(Unfinalized(t, p), u);
  }

  /** The replay up to `p` without the withheld reward. */
  ghost function SpendableAt(t: Tree, p: BlockId): BalanceMap
    requires Rooted(t.forest) && t.finalizedBlockId in t.forest.allBlocks && p in t.forest.allBlocks
  {
    var m, seg := Replay(Path(t.forest, p)), Unfinalized(t, p);
    if seg == [] then m else Credit(m, seg[0].header.rewardReceiver, -MINING_REWARD)
  }

  lemma CheckedIsSpendable(env: Env, t: Tree, u: UserId)
    requires Rooted(t.forest) && Sound(t) && LedgerOk(env, t) && Extends(t, t.workingBlockId)
    ensures Get(CheckedBalances(t, t.workingBlockId), u) == Get(SpendableAt(t, t.workingBlockId), u)
  {
    CheckedBalance(env, t, t.workingBlockId, u);
    TxsBackwardsNet(Unfinalized(t, t.workingBlockId), u);
  }

  /** On the working block the check is exact: it passes if and only if every sender can pay, in
      transaction order, out of the replay up to the parent less the withheld reward. */
  lemma BalanceCheckExact(env: Env, t: Tree, b: BlockNode)
    requires Inv(env, t) && b.header.parent == t.workingBlockId && Extends(t, b.header.parent)
    ensures BalanceOk(t, b) <==> Scan(SpendableAt(t, b.header.parent), b.transactions)
  {
    var p := t.workingBlockId;
    forall u ensures Get(CheckedBalances(t, p), u) == Get(SpendableAt(t, p), u) { CheckedIsSpendable(env, t, u); }
    if Scan(CheckedBalances(t, p), b.transactions) {
      ScanMonotone(CheckedBalances(t, p), SpendableAt(t, p), b.transactions);
    }
    if Scan(SpendableAt(t, p), b.transactions) {
      ScanMonotone(SpendableAt(t, p), CheckedBalances(t, p), b.transactions);
    }
  }

  /** So a block accepted on the working block is payable in the true replay. */
  lemma AcceptedIsPayable(env: Env, t: Tree, b: BlockNode)
    requires Inv(env, t) && b.header.parent == t.workingBlockId && Extends(t, b.header.parent) && BalanceOk(t, b)
    ensures Scan(Replay(Path(t.forest, b.header.parent)), b.transactions)
  {
    BalanceCheckExact(env, t, b);
    ScanMonotone(SpendableAt(t, b.header.parent), Replay(Path(t.forest, b.header.parent)), b.transactions);
  }

  // ----- when the check is sound -----

  /** No user gets more from the pending transactions of the working branch than from those of `p`'s own
      unfinalized branch, the withheld reward allowed for. */
  ghost predicate BranchCovers(t: Tree, p: BlockId)
    requires Sound(t) && p in t.forest.allBlocks
  {
    forall u {:trigger Net(PendingTxs(t), u)} ::
      Net(PendingTxs(t), u) <= NetBlocks(Unfinalized(t, p), u) + Withheld(t, p, u)
  }

  lemma CoveredIsSound(env: Env, t: Tree, p: BlockId, txs: seq<Transaction>)
    requires Rooted(t.forest) && Sound(t) && LedgerOk(env, t) && p in t.forest.allBlocks && Extends(t, p)
    requires BranchCovers(t, p) && Scan(CheckedBalances(t, p), txs)
    ensures Scan(Replay(Path(t.forest, p)), txs)
  {
    var checked, replay := CheckedBalances(t, p), Replay(Path(t.forest, p));
    forall u ensures Get(checked, u) <= Get(replay, u) {
      CheckedBalance(env, t, p, u);
      assert Net(PendingTxs(t), u) <= NetBlocks(Unfinalized(t, p), u) + Withheld(t, p, u);
    }
    ScanMonotone(checked, replay, txs);
  }

  /** A user who is not covered can spend what is not there: the whole balance the check grants. */
  lemma UncoveredIsUnsound(env: Env, t: Tree, p: BlockId, u: UserId)
    requires Rooted(t.forest) && Sound(t) && LedgerOk(env, t) && p in t.forest.allBlocks && Extends(t, p)
    requires Net(PendingTxs(t), u) > NetBlocks(Unfinalized(t, p), u) + Withheld(t, p, u)
    ensures var txs := [Transaction(u, u, Get(CheckedBalances(t, p), u), "", "")];
            Scan(CheckedBalances(t, p), txs) && !Scan(Replay(Path(t.forest, p)), txs)
  {
    CheckedBalance(env, t, p, u);
    var txs := [Transaction(u, u, Get(CheckedBalances(t, p), u), "", "")];
    assert txs[1..] == [];
  }

  /** The rule that every sender can pay in the replay of the block's own path, exactly: below `p` the
      check enforces it if and only if the branch of `p` covers the working branch. */
  lemma CheckSoundExactly(env: Env, t: Tree, p: BlockId)
    requires Rooted(t.forest) && Sound(t) && LedgerOk(env, t) && p in t.forest.allBlocks && Extends(t, p)
    ensures (forall txs :: Scan(CheckedBalances(t, p), txs) ==> Scan(Replay(Path(t.forest, p)), txs))
            <==> BranchCovers(t, p)
  {
    if BranchCovers(t, p) {
      forall txs | Scan(CheckedBalances(t, p), txs) ensures Scan(Replay(Path(t.forest, p)), txs) {
        CoveredIsSound(env, t, p, txs);
      }
    } else {
      var u :| Net(PendingTxs(t), u) > NetBlocks(Unfinalized(t, p), u) + Withheld(t, p, u);
      UncoveredIsUnsound(env, t, p, u);
    }
  }

  /** The working block covers itself. */
  lemma WorkingCovers(t: Tree)
    requires Sound(t)
    ensures BranchCovers(t, t.workingBlockId)
  {
    forall u
      ensures Net(PendingTxs(t), u) <= NetBlocks(Unfinalized(t, t.workingBlockId), u) + Withheld(t, t.workingBlockId, u)
    {
      TxsBackwardsNet(Unfinalized(t, t.workingBlockId), u);
    }
  }

  // ----- no overdraft -----

  ghost predicate SolventAt(fo: Forest, id: BlockId)
    requires Rooted(fo) && id in fo.allBlocks
  {
    NonNegative(Replay(Path(fo, id)))
  }

  /** No balance is negative after any stored block. */
  ghost predicate Solvent(fo: Forest)
    requires Rooted(fo)
  {
    forall id {:trigger SolventAt(fo, id)} | id in fo.allBlocks :: SolventAt(fo, id)
  }

  lemma LinkSolvent(env: Env, t: Tree, b: BlockNode)
    requires Inv(env, t) && Attachable(t.forest, b) && Extends(t, b.header.parent) && BalanceOk(t, b)
    requires BranchCovers(t, b.header.parent) && AmountsNonNegative(b.transactions)
    requires Solvent(t.forest)
    ensures Rooted(Extend(t.forest, b)) && Solvent(Extend(t.forest, b))
    ensures forall k | 0 <= k <= |b.transactions| ::
              NonNegative(ApplyTxs(Replay(Path(t.forest, b.header.parent)), b.transactions[..k]))
  {
    var m := Replay(Path(t.forest, b.header.parent));
    CoveredIsSound(env, t, b.header.parent, b.transactions);
    assert SolventAt(t.forest, b.header.parent);
    PayableStaysNonNegative(m, b.transactions);
    ExtendSolvent(t.forest, b);
  }

  lemma PayableStaysNonNegative(m: BalanceMap, txs: seq<Transaction>)
    requires NonNegative(m) && AmountsNonNegative(txs) && Scan(m, txs)
    ensures forall k | 0 <= k <= |txs| :: NonNegative(ApplyTxs(m, txs[..k]))
    ensures NonNegative(ApplyTxs(m, txs))
  {
    forall k | 0 <= k <= |txs| ensures NonNegative(ApplyTxs(m, txs[..k])) {
      ScanKeepsNonNegative(m, txs, k);
    }
    assert txs[..|txs|] == txs;
  }

  lemma ReplayAppend(path: seq<BlockNode>, b: BlockNode)
    requires path != []
    requires NonNegative(ApplyTxs(Replay(path), b.transactions))
    ensures NonNegative(Replay(path + [b]))
  {
    assert (path + [b])[..|path + [b]| - 1] == path;
    RewardNonNegative(ApplyTxs(Replay(path), b.transactions), b.header.rewardReceiver);
  }

  lemma RewardNonNegative(m: BalanceMap, receiver: UserId)
    requires NonNegative(m)
    ensures NonNegative(Reward(m, receiver))
  {
    forall u ensures Get(Reward(m, receiver), u) >= 0 {
      assert Get(m, u) >= 0;
    }
  }

  lemma ExtendSolvent(fo: Forest, b: BlockNode)
    requires Rooted(fo) && Attachable(fo, b) && Solvent(fo)
    requires NonNegative(ApplyTxs(Replay(Path(fo, b.header.parent)), b.transactions))
    ensures Rooted(Extend(fo, b)) && Solvent(Extend(fo, b))
  {
    var fo' := Extend(fo, b);
    ExtendNewPath(fo, b);
    ReplayAppend(Path(fo, b.header.parent), b);
    forall id | id in fo'.allBlocks ensures SolventAt(fo', id) {
      if id == b.header.blockId {
        assert Path(fo', id) == Path(fo, b.header.parent) + [b];
      } else {
        OldPathSolvent(fo, b, id);
      }
    }
  }

  lemma OldPathSolvent(fo: Forest, b: BlockNode, id: BlockId)
    requires Rooted(fo) && Attachable(fo, b) && Solvent(fo) && id in fo.allBlocks
    ensures Rooted(Extend(fo, b)) && SolventAt(Extend(fo, b), id)
  {
    assert SolventAt(fo, id);
    ExtendPath(fo, b, id);
  }

  /** Every accepted block is checked soundly, its branch covering what was then the working branch, and
      moves only non-negative amounts. A block below the working block is one such. */
  ghost predicate SoundlyChecked(env: Env, t: Tree, acc: seq<BlockNode>, t': Tree)
    requires Inv(env, t) && LinkRun(env, t, acc, t')
    decreases |acc|
  {
    acc == []
    || ((acc[0].header.parent == t.workingBlockId || BranchCovers(t, acc[0].header.parent))
        && AmountsNonNegative(acc[0].transactions)
        && (LinkKeepsInv(env, t, acc[0]); SoundlyChecked(env, Link(env, t, acc[0]), acc[1..], t')))
  }

  lemma {:induction false} LinkRunSolvent(env: Env, t: Tree, acc: seq<BlockNode>, t': Tree)
    requires Inv(env, t) && LinkRun(env, t, acc, t') && SoundlyChecked(env, t, acc, t')
    requires Solvent(t.forest)
    ensures Rooted(t'.forest) && Solvent(t'.forest)
    decreases |acc|
  {
    if acc != [] {
      LinkKeepsInv(env, t, acc[0]);
      WorkingCovers(t);
      LinkSolvent(env, t, acc[0]);
      LinkFrame(env, t, acc[0]);
      LinkRunSolvent(env, Link(env, t, acc[0]), acc[1..], t');
    }
  }

  ghost predicate AllSoundlyChecked(env: Env, states: seq<Store>, accs: seq<seq<BlockNode>>)
    requires |states| == |accs| + 1
  {
    forall i {:trigger accs[i]} | 0 <= i < |accs| ::
      Inv(env, states[i].tree) && LinkRun(env, states[i].tree, accs[i], states[i + 1].tree)
      ==> SoundlyChecked(env, states[i].tree, accs[i], states[i + 1].tree)
  }

  lemma NewTreeSolvent()
    ensures Rooted(NewTree().forest) && Solvent(NewTree().forest)
  {
    var fo := NewTree().forest;
    assert Rooted(fo);
    assert Path(fo, ROOT_ID) == [GenesisBlock()];
  }

  lemma CheckedStep(env: Env, states: seq<Store>, ds: seq<Delivery>, accs: seq<seq<BlockNode>>, i: nat)
    requires Run(env, states, ds, accs) && AllSoundlyChecked(env, states, accs) && i < |ds|
    requires Rooted(states[i].tree.forest) && Solvent(states[i].tree.forest)
    ensures Rooted(states[i + 1].tree.forest) && Solvent(states[i + 1].tree.forest)
  {
    RunStepLinks(env, states, ds, accs, i);
    assert SoundlyChecked(env, states[i].tree, accs[i], states[i + 1].tree);
    LinkRunSolvent(env, states[i].tree, accs[i], states[i + 1].tree);
  }

  lemma RunStartSolvent(env: Env, states: seq<Store>, ds: seq<Delivery>, accs: seq<seq<BlockNode>>)
    requires Run(env, states, ds, accs)
    ensures Rooted(states[0].tree.forest) && Solvent(states[0].tree.forest)
  {
    NewTreeSolvent();
  }

  lemma {:induction false} RunSolvent(env: Env, states: seq<Store>, ds: seq<Delivery>, accs: seq<seq<BlockNode>>,
                                      i: nat)
    requires Run(env, states, ds, accs) && AllSoundlyChecked(env, states, accs) && i < |states|
    ensures Rooted(states[i].tree.forest) && Solvent(states[i].tree.forest)
  {
    if i == 0 {
      RunStartSolvent(env, states, ds, accs);
    } else {
      RunSolvent(env, states, ds, accs, i - 1);
      CheckedStep(env, states, ds, accs, i - 1);
    }
  }

  /** In a run whose accepted blocks were checked soundly, in particular in one where each extends the
      then working block, and move non-negative amounts, no balance is negative after any block of any
      reachable tree, nor in the finalized balances. */
  lemma NoOverdraft(env: Env, states: seq<Store>, ds: seq<Delivery>, accs: seq<seq<BlockNode>>, i: nat)
    requires Run(env, states, ds, accs) && AllSoundlyChecked(env, states, accs) && i < |states|
    ensures Rooted(states[i].tree.forest) && Solvent(states[i].tree.forest)
    ensures NonNegative(states[i].tree.finalizedBalanceMap)
  {
    RunSolvent(env, states, ds, accs, i);
    RunKeepsInv(env, states, ds, accs, i);
    var t := states[i].tree;
    assert SolventAt(t.forest, t.finalizedBlockId);
  }
}
