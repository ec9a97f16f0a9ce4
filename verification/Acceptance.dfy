/** Which blocks a delivery accepts, and what every stored block therefore satisfies, in terms of hashes,
    signatures and the blocks on the path. */
module Acceptance {
  import opened Types
  import opened Balances
  import opened Forests
  import opened Trees
  import opened TreeInvariant
  import opened Deliveries
  import opened Orphans

  // ----- the delivered block -----

  /** The checks against the tree, exactly: no block on the parent's path has the same header root from depth 2
      on, and each sender in turn can pay out of the checked balances. */
  lemma AcceptsExactly(t: Tree, b: BlockNode)
    requires Sound(t) && b.header.parent in t.forest.allBlocks
    ensures var p, txs := b.header.parent, b.transactions;
            var path := Path(t.forest, p);
            Accepts(t, b)
            <==> && (forall j | 2 <= j < |path| :: path[j].header.merkleRoot != b.header.merkleRoot)
                 && (forall k: nat | k < |txs| ::
                       Get(CheckedBalances(t, p), txs[k].sender) + Net(txs[..k], txs[k].sender) >= txs[k].amount)
  {
    var p, txs := b.header.parent, b.transactions;
    ScanExact(CheckedBalances(t, p), txs);
    AncestryExactly(t.forest, b.header.merkleRoot, p, Path(t.forest, p));
  }

  lemma AncestryExactly(fo: Forest, root: string, p: BlockId, path: seq<BlockNode>)
    requires Rooted(fo) && p in fo.allBlocks && path == Path(fo, p)
    ensures AncestryOk(fo, root, p) <==> forall j | 2 <= j < |path| :: path[j].header.merkleRoot != root
  {
  }

  /** In every run, a delivered block is accepted if and only if it is new and its parent is stored, its id is
      the hash of its nonce and puzzle and has the zeros asked for, its transactions are signed, and it passes
      the checks against the tree. */
  lemma AcceptedExactly(env: Env, states: seq<Store>, ds: seq<Delivery>, accs: seq<seq<BlockNode>>, i: nat)
    requires Run(env, states, ds, accs) && i < |ds|
    ensures var t, orphans, b := states[i].tree, states[i].orphans, ds[i].block;
            var h, txs := b.header, b.transactions;
            && Sound(t)
            && (accs[i] != []
                <==> && h.blockId !in t.forest.allBlocks && h.blockId !in orphans && h.parent in t.forest.allBlocks
                     && h.blockId
                        == env.sha256(h.nonce + env.puzzleJson(Puzzle(h.parent, h.merkleRoot, h.rewardReceiver)))
                     && seq(ds[i].leadingZeroLen, _ => '0') <= h.blockId
                     && (forall tx | tx in txs :: env.verifySig(tx))
                     && (forall j | 2 <= j < |Path(t.forest, h.parent)| ::
                           Path(t.forest, h.parent)[j].header.merkleRoot != h.merkleRoot)
                     && (forall k: nat | k < |txs| ::
                           Get(CheckedBalances(t, h.parent), txs[k].sender) + Net(txs[..k], txs[k].sender)
                           >= txs[k].amount))
  {
    RunStepAdds(env, states, ds, accs, i);
    IntegrityExactly(env, ds[i].block, ds[i].leadingZeroLen);
    if ds[i].block.header.parent in states[i].tree.forest.allBlocks {
      AcceptsExactly(states[i].tree, ds[i].block);
    }
    AcceptedWhenPassed(env, states[i], ds[i], accs[i], states[i + 1]);
  }

  lemma AcceptedWhenPassed(env: Env, s: Store, d: Delivery, acc: seq<BlockNode>, s': Store)
    requires Inv(env, s.tree) && AddReturns(env, s, d) && AddBlock(env, s, d, acc, s')
    ensures acc != [] <==> && d.block.header.blockId !in s.tree.forest.allBlocks
                           && d.block.header.blockId !in s.orphans
                           && d.block.header.parent in s.tree.forest.allBlocks
                           && BlockIntegrity(env, d.block, d.leadingZeroLen) && Accepts(s.tree, d.block)
  {
  }

  // ----- every accepted block -----

  ghost predicate AllIntegral(env: Env, acc: seq<BlockNode>, n: nat) {
    forall b | b in acc :: BlockIntegrity(env, b, n)
  }

  lemma {:induction false} AddedIntegral(env: Env, s: Store, b: BlockNode, n: nat, acc: seq<BlockNode>, s': Store)
    requires Inv(env, s.tree) && ChecksReturn(env, s.tree, b, n) && AddOrphanBlock(env, s, b, n, acc, s')
    ensures AllIntegral(env, acc, n)
    decreases |acc|
  {
    if acc != [] {
      AcceptedOpens(env, s, b, n, acc, s');
      var s1 := Store(Link(env, s.tree, b), s.orphans);
      RestIntegral(env, s1, b.header.blockId, n, acc, s');
    }
  }

  lemma {:induction false} RestIntegral(env: Env, s: Store, p: BlockId, n: nat, acc: seq<BlockNode>, s': Store)
    requires Inv(env, s.tree) && p in s.tree.forest.allBlocks && Extends(s.tree, p)
    requires acc != [] && BlockIntegrity(env, acc[0], n) && AttachOne(env, s, p, n, acc[1..], s')
    ensures AllIntegral(env, acc, n)
    decreases |acc|, 0
  {
    if HasOrphanChild(s.orphans, p) {
      var k, s2 := AttachOpens(env, s, p, n, acc[1..], s');
      AddedIntegral(env, s, s.orphans[k], n, acc[1..], s2);
    }
    IntegralPrepend(env, acc, n);
  }

  lemma IntegralPrepend(env: Env, acc: seq<BlockNode>, n: nat)
    requires acc != [] && BlockIntegrity(env, acc[0], n) && AllIntegral(env, acc[1..], n)
    ensures AllIntegral(env, acc, n)
  {
    assert acc == [acc[0]] + acc[1..];
  }

  lemma DeliveredIntegral(env: Env, s: Store, d: Delivery, acc: seq<BlockNode>, s': Store)
    requires Inv(env, s.tree) && AddReturns(env, s, d) && AddBlock(env, s, d, acc, s')
    ensures AllIntegral(env, acc, d.leadingZeroLen)
  {
    if d.block.header.blockId !in s.tree.forest.allBlocks && d.block.header.blockId !in s.orphans {
      AddedIntegral(env, s, d.block, d.leadingZeroLen, acc, s');
    }
  }

  /** In every run the ids of all blocks a delivery accepts, attached orphans included, begin with the zeros
      that this delivery demands. */
  lemma ZerosInEveryRun(env: Env, states: seq<Store>, ds: seq<Delivery>, accs: seq<seq<BlockNode>>, i: nat, j: nat)
    requires Run(env, states, ds, accs) && i < |ds| && j < |accs[i]|
    ensures seq(ds[i].leadingZeroLen, _ => '0') <= accs[i][j].header.blockId
  {
    RunStepAdds(env, states, ds, accs, i);
    DeliveredIntegral(env, states[i], ds[i], accs[i], states[i + 1]);
    assert accs[i][j] in accs[i];
    IntegrityExactly(env, accs[i][j], ds[i].leadingZeroLen);
  }

  // ----- every stored block -----

  /** The id is the hash of nonce and puzzle, and every transaction is signed. */
  ghost predicate Authentic(env: Env, b: BlockNode) {
    var h := b.header;
    && h.blockId == env.sha256(h.nonce + env.puzzleJson(Puzzle(h.parent, h.merkleRoot, h.rewardReceiver)))
    && forall tx | tx in b.transactions :: env.verifySig(tx)
  }

  ghost predicate AllAuthentic(env: Env, fo: Forest) {
    forall id | id in fo.allBlocks && id != ROOT_ID :: Authentic(env, fo.allBlocks[id])
  }

  /** Every block of a later tree was there before, or is one of those accepted since. */
  ghost predicate Stores(fo: Forest, acc: seq<BlockNode>, fo': Forest) {
    forall id | id in fo'.allBlocks :: (id in fo.allBlocks && fo'.allBlocks[id] == fo.allBlocks[id])
                                       || fo'.allBlocks[id] in acc
  }

  ghost predicate ListsGrow(cm: map<BlockId, seq<BlockId>>, cm': map<BlockId, seq<BlockId>>) {
    forall p | p in cm :: p in cm' && cm[p] <= cm'[p]
  }

  /** The first link of a run of links. */
  lemma FirstLink(env: Env, t: Tree, acc: seq<BlockNode>, t': Tree) returns (t1: Tree)
    requires Inv(env, t) && LinkRun(env, t, acc, t') && acc != []
    ensures acc[0].header.parent in t.forest.blockDepth && acc[0].header.parent in t.forest.allBlocks
    ensures Inv(env, t1) && LinkRun(env, t1, acc[1..], t')
    ensures t1.forest == Extend(t.forest, acc[0]) && ListsGrow(t.childrenMap, t1.childrenMap)
  {
    LinkKeepsInv(env, t, acc[0]);
    LinkFrame(env, t, acc[0]);
    t1 := Link(env, t, acc[0]);
    ListGrows(t.childrenMap, acc[0].header.parent, acc[0].header.blockId);
  }

  lemma ListGrows(cm: map<BlockId, seq<BlockId>>, p: BlockId, id: BlockId)
    ensures ListsGrow(cm, cm[p := ChildrenOf(cm, p) + [id]])
  {
  }

  lemma {:induction false} LinkRunStores(env: Env, t: Tree, acc: seq<BlockNode>, t': Tree)
    requires Inv(env, t) && LinkRun(env, t, acc, t')
    ensures Stores(t.forest, acc, t'.forest)
    decreases |acc|
  {
    if acc != [] {
      var t1 := FirstLink(env, t, acc, t');
      LinkRunStores(env, t1, acc[1..], t');
      StoresOneMore(t.forest, acc, t'.forest);
    }
  }

  lemma StoresOneMore(fo: Forest, acc: seq<BlockNode>, fo': Forest)
    requires acc != [] && acc[0].header.parent in fo.blockDepth
    requires Stores(Extend(fo, acc[0]), acc[1..], fo')
    ensures Stores(fo, acc, fo')
  {
    assert acc == [acc[0]] + acc[1..];
  }

  /** In every state of every run, every stored block but the genesis block is authentic. */
  lemma {:induction false} StoredAuthentic(env: Env, states: seq<Store>, ds: seq<Delivery>, accs: seq<seq<BlockNode>>,
                                           i: nat)
    requires Run(env, states, ds, accs) && i < |states|
    ensures AllAuthentic(env, states[i].tree.forest)
  {
    if i > 0 {
      StoredAuthentic(env, states, ds, accs, i - 1);
      StepStores(env, states, ds, accs, i - 1);
      AuthenticStays(env, states[i - 1].tree.forest, accs[i - 1], states[i].tree.forest, ds[i - 1].leadingZeroLen);
    }
  }

  lemma StepStores(env: Env, states: seq<Store>, ds: seq<Delivery>, accs: seq<seq<BlockNode>>, i: nat)
    requires Run(env, states, ds, accs) && i < |ds|
    ensures Stores(states[i].tree.forest, accs[i], states[i + 1].tree.forest)
    ensures AllIntegral(env, accs[i], ds[i].leadingZeroLen)
  {
    RunStepAdds(env, states, ds, accs, i);
    RunStepLinks(env, states, ds, accs, i);
    LinkRunStores(env, states[i].tree, accs[i], states[i + 1].tree);
    DeliveredIntegral(env, states[i], ds[i], accs[i], states[i + 1]);
  }

  lemma AuthenticStays(env: Env, fo: Forest, acc: seq<BlockNode>, fo': Forest, n: nat)
    requires AllAuthentic(env, fo) && Stores(fo, acc, fo') && AllIntegral(env, acc, n)
    ensures AllAuthentic(env, fo')
  {
    forall id | id in fo'.allBlocks && id != ROOT_ID ensures Authentic(env, fo'.allBlocks[id]) {
      if fo'.allBlocks[id] in acc {
        IntegrityExactly(env, fo'.allBlocks[id], n);
      }
    }
  }

  // ----- the working block and the lists of children -----

  /** One link, from a tree that satisfies the invariant. */
  ghost predicate OneLink(env: Env, t: Tree, b: BlockNode, t': Tree) {
    Inv(env, t) && Attachable(t.forest, b) && t' == Link(env, t, b)
  }

  lemma OnlyLink(env: Env, t: Tree, acc: seq<BlockNode>, t': Tree)
    requires Inv(env, t) && LinkRun(env, t, acc, t') && |acc| == 1
    ensures OneLink(env, t, acc[0], t')
  {
  }

  /** The last link of a run of links. */
  lemma {:induction false} LastLink(env: Env, t: Tree, acc: seq<BlockNode>, last: BlockNode, t': Tree)
    returns (t1: Tree)
    requires Inv(env, t) && LinkRun(env, t, acc, t') && EndsWith(acc, last)
    ensures OneLink(env, t1, last, t')
    decreases |acc|
  {
    EndOfTail(acc, last);
    if |acc| == 1 {
      OnlyLink(env, t, acc, t');
      t1 := t;
    } else {
      var t2 := FirstLink(env, t, acc, t');
      t1 := LastLink(env, t2, acc[1..], last, t');
    }
  }

  ghost predicate EndsWith(acc: seq<BlockNode>, last: BlockNode) {
    acc != [] && acc[|acc| - 1] == last
  }

  lemma EndOfTail(acc: seq<BlockNode>, last: BlockNode)
    requires EndsWith(acc, last)
    ensures if |acc| == 1 then acc[0] == last else EndsWith(acc[1..], last)
  {
  }

  lemma OneLinkWorking(env: Env, t: Tree, b: BlockNode, t': Tree)
    requires OneLink(env, t, b, t')
    ensures LargestChildOf(t'.forest, b.header.parent, t'.workingBlockId)
  {
    LinkFrame(env, t, b);
    LinkWorking(env, t, b);
  }

  /** In every run the working block is, after a delivery that accepts blocks, the child of the last accepted
      block's parent with the largest id, and unchanged after any other. */
  lemma WorkingInEveryRun(env: Env, states: seq<Store>, ds: seq<Delivery>, accs: seq<seq<BlockNode>>, i: nat)
    requires Run(env, states, ds, accs) && i < |ds|
    ensures accs[i] == [] ==> states[i + 1].tree == states[i].tree
    ensures accs[i] != [] ==>
              LargestChildOf(states[i + 1].tree.forest, accs[i][|accs[i]| - 1].header.parent,
                             states[i + 1].tree.workingBlockId)
  {
    RunStepLinks(env, states, ds, accs, i);
    if accs[i] == [] {
      NoLinks(env, states[i].tree, accs[i], states[i + 1].tree);
    } else {
      var t1 := LastLink(env, states[i].tree, accs[i], accs[i][|accs[i]| - 1], states[i + 1].tree);
      OneLinkWorking(env, t1, accs[i][|accs[i]| - 1], states[i + 1].tree);
    }
  }

  lemma NoLinks(env: Env, t: Tree, acc: seq<BlockNode>, t': Tree)
    requires Inv(env, t) && LinkRun(env, t, acc, t') && acc == []
    ensures t' == t
  {
  }

  lemma {:induction false} LinkRunLists(env: Env, t: Tree, acc: seq<BlockNode>, t': Tree)
    requires Inv(env, t) && LinkRun(env, t, acc, t')
    ensures ListsGrow(t.childrenMap, t'.childrenMap)
    decreases |acc|
  {
    if acc != [] {
      var t1 := FirstLink(env, t, acc, t');
      LinkRunLists(env, t1, acc[1..], t');
    }
  }

  /** In every run the lists of children only grow, at their ends. */
  lemma ListsInEveryRun(env: Env, states: seq<Store>, ds: seq<Delivery>, accs: seq<seq<BlockNode>>, i: nat)
    requires Run(env, states, ds, accs) && i < |ds|
    ensures ListsGrow(states[i].tree.childrenMap, states[i + 1].tree.childrenMap)
  {
    RunStepLinks(env, states, ds, accs, i);
    LinkRunLists(env, states[i].tree, accs[i], states[i + 1].tree);
  }
}
