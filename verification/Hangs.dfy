/** Runs that end in a call of `add_block` that does not return, and the straight chains that lead there. */
module Hangs {
  import opened Types
  import opened Balances
  import opened Forests
  import opened Trees
  import opened TreeInvariant
  import opened Deliveries
  import opened DeliveryOrder
  import opened FinalizedReads
  import W = Witnesses

  // ----- straight chains -----

  /** A chain on the genesis block that in-order delivery accepts as a whole: integral blocks, no two with
      the same header root, of which only the first may have transactions, and can pay them. */
  ghost predicate Straight(env: Env, chain: seq<BlockNode>, n: nat) {
    && IsChain(chain)
    && (chain != [] ==> chain[0].header.parent == ROOT_ID)
    && (chain != [] ==> Scan(GenesisBalances(), chain[0].transactions))
    && (forall i | 1 <= i < |chain| :: chain[i].transactions == [])
    && (forall i | 0 <= i < |chain| :: Id(chain[i]) != ROOT_ID && BlockIntegrity(env, chain[i], n))
    && DistinctRoots(chain)
  }

  ghost predicate DistinctRoots(chain: seq<BlockNode>) {
    forall i, j {:trigger chain[i].header.merkleRoot, chain[j].header.merkleRoot} | 0 <= i < j < |chain| ::
      chain[i].header.merkleRoot != chain[j].header.merkleRoot
  }

  function Name(i: nat): (s: string)
    ensures |s| == i + 2
  {
    seq(i + 2, _ => 'a')
  }

  function ExampleBlock(txs: seq<Transaction>, i: nat): BlockNode {
    BlockNode(BlockNodeHeader(if i == 0 then ROOT_ID else Name(i - 1), Name(i), 1, Name(i), Name(i), ""), [],
              if i == 0 then txs else [])
  }

  ghost function ExampleEnv(): Env {
    Env(s => s, _ => "", _ => "", _ => true, (_, _) => "")
  }

  lemma ExampleIntegrity(txs: seq<Transaction>, i: nat)
    ensures BlockIntegrity(ExampleEnv(), ExampleBlock(txs, i), 0)
  {
    assert Name(i) + "" == Name(i);
  }

  ghost predicate ExampleChain(txs: seq<Transaction>, chain: seq<BlockNode>) {
    forall i | 0 <= i < |chain| :: chain[i] == ExampleBlock(txs, i)
  }

  lemma ExampleIds(txs: seq<Transaction>, chain: seq<BlockNode>)
    requires ExampleChain(txs, chain)
    ensures IsChain(chain)
  {
    forall i, j | 0 <= i < j < |chain| ensures Id(chain[i]) != Id(chain[j]) {
      assert |Name(i)| != |Name(j)|;
    }
  }

  lemma ExampleRoots(txs: seq<Transaction>, chain: seq<BlockNode>)
    requires ExampleChain(txs, chain)
    ensures DistinctRoots(chain)
  {
    forall i, j | 0 <= i < j < |chain| ensures chain[i].header.merkleRoot != chain[j].header.merkleRoot {
      assert |Name(i)| != |Name(j)|;
    }
  }

  lemma ExampleBlocks(txs: seq<Transaction>, chain: seq<BlockNode>, i: nat)
    requires ExampleChain(txs, chain) && i < |chain|
    ensures Id(chain[i]) != ROOT_ID && BlockIntegrity(ExampleEnv(), chain[i], 0)
    ensures chain[i].transactions == if i == 0 then txs else []
  {
    ExampleIntegrity(txs, i);
    assert |Name(i)| != |ROOT_ID|;
  }

  /** There are straight chains of every length, for some hash function, with any payable transactions in
      the first block. */
  lemma StraightChainsExist(m: nat, txs: seq<Transaction>) returns (env: Env, chain: seq<BlockNode>)
    requires Scan(GenesisBalances(), txs)
    ensures Straight(env, chain, 0) && |chain| == m && (m > 0 ==> chain[0].transactions == txs)
    ensures forall tx :: env.verifySig(tx)
  {
    env, chain := ExampleEnv(), seq(m, i requires 0 <= i < m => ExampleBlock(txs, i));
    ExampleIds(txs, chain);
    ExampleRoots(txs, chain);
    forall i | 0 <= i < m
      ensures Id(chain[i]) != ROOT_ID && BlockIntegrity(env, chain[i], 0)
      ensures chain[i].transactions == if i == 0 then txs else []
    {
      ExampleBlocks(txs, chain, i);
    }
  }

  ghost predicate InRow(chain: seq<BlockNode>, k: nat, id: BlockId)
    requires k <= |chain|
  {
    id == ROOT_ID || exists i :: 0 <= i < k && id == Id(chain[i])
  }

  /** The tree is the first `k` blocks of the chain, in a row. */
  ghost predicate IsRow(t: Tree, chain: seq<BlockNode>, k: nat)
    requires Sound(t) && k <= |chain|
  {
    && (forall id {:trigger InRow(chain, k, id)} :: id in t.forest.allBlocks <==> InRow(chain, k, id))
    && Path(t.forest, t.workingBlockId) == [GenesisBlock()] + chain[..k]
  }

  lemma RowParent(t: Tree, chain: seq<BlockNode>, k: nat)
    requires Sound(t) && k < |chain| && IsRow(t, chain, k) && IsChain(chain) && chain[0].header.parent == ROOT_ID
    ensures t.workingBlockId == chain[k].header.parent
    ensures t.forest.blockDepth[t.workingBlockId] == k
  {
    var path := Path(t.forest, t.workingBlockId);
    assert path[k].header.blockId == t.workingBlockId;
    if k > 0 {
      assert path[k] == chain[k - 1];
      assert chain[k].header.parent == Id(chain[k - 1]);
    }
  }

  /** Block `i` of the chain is the block at depth `i + 1`. */
  lemma RowAt(t: Tree, chain: seq<BlockNode>, k: nat, i: nat)
    requires Sound(t) && i < k <= |chain| && IsRow(t, chain, k)
    ensures Path(t.forest, t.workingBlockId)[i + 1] == chain[i]
    ensures Id(chain[i]) in t.forest.allBlocks && t.forest.allBlocks[Id(chain[i])] == chain[i]
    ensures t.forest.blockDepth[Id(chain[i])] == i + 1
  {
    RowIndex(Path(t.forest, t.workingBlockId), chain, k, i);
    PathPrefix(t.forest, t.workingBlockId, i + 1);
  }

  lemma RowIndex(path: seq<BlockNode>, chain: seq<BlockNode>, k: nat, i: nat)
    requires i < k <= |chain| && path == [GenesisBlock()] + chain[..k]
    ensures |path| == k + 1 && path[i + 1] == chain[i]
  {
  }

  lemma RowFresh(chain: seq<BlockNode>, k: nat)
    requires IsChain(chain) && k < |chain| && Id(chain[k]) != ROOT_ID
    ensures !InRow(chain, k, Id(chain[k]))
  {
  }

  lemma RowAncestry(t: Tree, chain: seq<BlockNode>, k: nat)
    requires Sound(t) && k < |chain| && IsRow(t, chain, k) && t.forest.blockDepth[t.workingBlockId] == k
    requires DistinctRoots(chain)
    ensures AncestryOk(t.forest, chain[k].header.merkleRoot, t.workingBlockId)
  {
    forall i | 2 <= i <= k ensures Path(t.forest, t.workingBlockId)[i].header.merkleRoot != chain[k].header.merkleRoot {
      RowAt(t, chain, k, i - 1);
    }
  }

  lemma RowAccepts(env: Env, s: Store, chain: seq<BlockNode>, n: nat, k: nat)
    requires Inv(env, s.tree) && s.orphans == map[] && k < |chain| && IsRow(s.tree, chain, k) && Straight(env, chain, n)
    ensures W.Acceptable(env, s, Delivery(chain[k], n))
  {
    RowParent(s.tree, chain, k);
    RowFresh(chain, k);
    RowAncestry(s.tree, chain, k);
    WorkingExtends(env, s.tree);
    RowPayable(env, s.tree, chain, n, k);
    RowAcceptable(env, s, chain[k], n);
  }

  lemma RowPayable(env: Env, t: Tree, chain: seq<BlockNode>, n: nat, k: nat)
    requires Inv(env, t) && k < |chain| && IsRow(t, chain, k) && Straight(env, chain, n)
    requires chain[k].header.parent == t.workingBlockId
    ensures BalanceOk(t, chain[k])
  {
    if k == 0 {
      EmptyRow(t, chain);
      RootChecked(env, t);
    }
  }

  /** A row of no blocks is the genesis block alone. */
  lemma EmptyRow(t: Tree, chain: seq<BlockNode>)
    requires Sound(t) && IsRow(t, chain, 0)
    ensures t.finalizedBlockId == t.workingBlockId == ROOT_ID
  {
    assert InRow(chain, 0, t.finalizedBlockId) && InRow(chain, 0, t.workingBlockId);
  }

  lemma RootChecked(env: Env, t: Tree)
    requires Rooted(t.forest) && Sound(t) && LedgerOk(env, t) && t.finalizedBlockId == t.workingBlockId == ROOT_ID
    ensures CheckedBalances(t, ROOT_ID) == GenesisBalances()
  {
    assert Unfinalized(t, ROOT_ID) == [];
  }

  lemma RowAcceptable(env: Env, s: Store, b: BlockNode, n: nat)
    requires Inv(env, s.tree) && s.orphans == map[] && b.header.parent == s.tree.workingBlockId
    requires Id(b) !in s.tree.forest.allBlocks && BlockIntegrity(env, b, n) && BalanceOk(s.tree, b)
    requires Extends(s.tree, s.tree.workingBlockId)
    requires AncestryOk(s.tree.forest, b.header.merkleRoot, s.tree.workingBlockId)
    ensures W.Acceptable(env, s, Delivery(b, n))
  {
  }

  /** No block of the row is a child of its last block. */
  lemma RowChild(t: Tree, chain: seq<BlockNode>, k: nat, w: BlockId)
    requires Sound(t) && k <= |chain| && IsRow(t, chain, k) && w in t.forest.allBlocks && w != ROOT_ID
    ensures Parent(t.forest, w) != t.workingBlockId
  {
    assert InRow(chain, k, w);
    var i :| 0 <= i < k && w == Id(chain[i]);
    RowAt(t, chain, k, i);
  }

  /** So the new block is the only child of its parent, and the working block. */
  lemma RowWorking(env: Env, t: Tree, chain: seq<BlockNode>, k: nat, b: BlockNode)
    requires Sound(t) && k <= |chain| && IsRow(t, chain, k) && ChildrenOk(t.forest, t.childrenMap)
    requires Attachable(t.forest, b) && b.header.parent == t.workingBlockId
    ensures Link(env, t, b).workingBlockId == Id(b)
  {
    LinkWorking(env, t, b);
    var w := Link(env, t, b).workingBlockId;
    if w != Id(b) {
      RowChild(t, chain, k, w);
    }
  }

  lemma RowGrows(chain: seq<BlockNode>, k: nat, id: BlockId)
    requires k < |chain|
    ensures InRow(chain, k + 1, id) <==> InRow(chain, k, id) || id == Id(chain[k])
    ensures [GenesisBlock()] + chain[..k + 1] == [GenesisBlock()] + chain[..k] + [chain[k]]
  {
  }

  lemma RowLinks(env: Env, t: Tree, chain: seq<BlockNode>, k: nat)
    requires Inv(env, t) && k < |chain| && IsRow(t, chain, k) && Linkable(t, chain[k])
    requires chain[k].header.parent == t.workingBlockId
    ensures Sound(Link(env, t, chain[k])) && IsRow(Link(env, t, chain[k]), chain, k + 1)
  {
    LinkKeepsInv(env, t, chain[k]);
    RowWorking(env, t, chain, k, chain[k]);
    RowExtends(t, Link(env, t, chain[k]), chain, k);
  }

  lemma RowExtends(t: Tree, t': Tree, chain: seq<BlockNode>, k: nat)
    requires Sound(t) && Sound(t') && k < |chain| && IsRow(t, chain, k) && Attachable(t.forest, chain[k])
    requires chain[k].header.parent == t.workingBlockId && t'.workingBlockId == Id(chain[k])
    requires t'.forest == Extend(t.forest, chain[k])
    ensures IsRow(t', chain, k + 1)
  {
    ExtendNewPath(t.forest, chain[k]);
    forall id ensures id in t'.forest.allBlocks <==> InRow(chain, k + 1, id) {
      RowGrows(chain, k, id);
    }
    RowGrows(chain, k, ROOT_ID);
  }

  function DeliveriesOf(chain: seq<BlockNode>, n: nat): seq<Delivery> {
    seq(|chain|, i requires 0 <= i < |chain| => Delivery(chain[i], n))
  }

  function Singles(chain: seq<BlockNode>): seq<seq<BlockNode>> {
    seq(|chain|, i requires 0 <= i < |chain| => [chain[i]])
  }

  ghost predicate RowStore(s: Store, chain: seq<BlockNode>, k: nat) {
    k <= |chain| && Sound(s.tree) && IsRow(s.tree, chain, k) && s.orphans == map[]
  }

  /** A run that delivers the first `k` blocks in order. */
  ghost predicate RowRun(env: Env, chain: seq<BlockNode>, n: nat, k: nat, states: seq<Store>) {
    && k <= |chain|
    && Run(env, states, DeliveriesOf(chain[..k], n), Singles(chain[..k]))
    && RowStore(states[k], chain, k)
  }

  /** The run that delivers the chain in order. */
  lemma StraightRun(env: Env, chain: seq<BlockNode>, n: nat) returns (states: seq<Store>)
    requires Straight(env, chain, n)
    ensures Run(env, states, DeliveriesOf(chain, n), Singles(chain))
    ensures RowStore(states[|chain|], chain, |chain|)
  {
    states := StraightRunTo(env, chain, n, |chain|);
    assert chain[..|chain|] == chain;
  }

  lemma StraightRunTo(env: Env, chain: seq<BlockNode>, n: nat, k: nat) returns (states: seq<Store>)
    requires Straight(env, chain, n) && k <= |chain|
    ensures RowRun(env, chain, n, k, states)
  {
    states := [W.NewStore()];
    RowStart(env, chain, n);
    for i := 0 to k
      invariant RowRun(env, chain, n, i, states)
    {
      states := RunOneMore(env, states, chain, n, i);
    }
  }

  lemma RunOneMore(env: Env, before: seq<Store>, chain: seq<BlockNode>, n: nat, k: nat) returns (states: seq<Store>)
    requires Straight(env, chain, n) && k < |chain| && RowRun(env, chain, n, k, before)
    ensures RowRun(env, chain, n, k + 1, states)
  {
    RowRunInv(env, before, chain, n, k);
    var s' := StraightStep(env, before[k], chain, n, k);
    states := before + [s'];
    RowStep(env, before, chain, n, k, s');
  }

  lemma RowRunInv(env: Env, states: seq<Store>, chain: seq<BlockNode>, n: nat, k: nat)
    requires RowRun(env, chain, n, k, states)
    ensures Inv(env, states[k].tree) && RowStore(states[k], chain, k)
  {
    RunKeepsInv(env, states, DeliveriesOf(chain[..k], n), Singles(chain[..k]), k);
  }

  lemma RowStep(env: Env, before: seq<Store>, chain: seq<BlockNode>, n: nat, k: nat, s': Store)
    requires k < |chain| && RowRun(env, chain, n, k, before) && RowStore(s', chain, k + 1)
    requires Step(env, before[k], Delivery(chain[k], n), [chain[k]], s')
    ensures RowRun(env, chain, n, k + 1, before + [s'])
  {
    var ds, accs := DeliveriesOf(chain[..k], n), Singles(chain[..k]);
    W.RunExtend(env, before, ds, accs, Delivery(chain[k], n), [chain[k]], s');
    OneMore(chain, n, k);
  }

  lemma RowStart(env: Env, chain: seq<BlockNode>, n: nat)
    ensures Inv(env, NewTree()) && IsRow(NewTree(), chain, 0)
    ensures Run(env, [W.NewStore()], DeliveriesOf(chain[..0], n), Singles(chain[..0]))
  {
    W.EmptyRun(env);
    W.NewTreeChecked();
    assert [GenesisBlock()] + chain[..0] == [GenesisBlock()];
  }

  lemma OneMore(chain: seq<BlockNode>, n: nat, k: nat)
    requires k < |chain|
    ensures DeliveriesOf(chain[..k + 1], n) == DeliveriesOf(chain[..k], n) + [Delivery(chain[k], n)]
    ensures Singles(chain[..k + 1]) == Singles(chain[..k]) + [[chain[k]]]
  {
  }

  /** The next block of the chain is accepted on the row of those before it. */
  lemma StraightFits(env: Env, s: Store, chain: seq<BlockNode>, n: nat, k: nat)
    requires Inv(env, s.tree) && Straight(env, chain, n) && k < |chain| && RowStore(s, chain, k)
    ensures W.Acceptable(env, s, Delivery(chain[k], n)) && chain[k].header.parent == s.tree.workingBlockId
  {
    RowParent(s.tree, chain, k);
    RowAccepts(env, s, chain, n, k);
  }

  lemma RowNext(env: Env, s: Store, chain: seq<BlockNode>, n: nat, k: nat) returns (s': Store)
    requires Inv(env, s.tree) && k < |chain| && RowStore(s, chain, k)
    requires W.Acceptable(env, s, Delivery(chain[k], n)) && chain[k].header.parent == s.tree.workingBlockId
    ensures AddReturns(env, s, Delivery(chain[k], n))
    ensures AddBlock(env, s, Delivery(chain[k], n), [chain[k]], s')
    ensures Step(env, s, Delivery(chain[k], n), [chain[k]], s')
    ensures RowStore(s', chain, k + 1)
  {
    RowLinks(env, s.tree, chain, k);
    W.AcceptOne(env, s, Delivery(chain[k], n));
    s' := Store(Link(env, s.tree, chain[k]), s.orphans);
  }

  lemma StraightStep(env: Env, s: Store, chain: seq<BlockNode>, n: nat, k: nat) returns (s': Store)
    requires Inv(env, s.tree) && Straight(env, chain, n) && k < |chain| && RowStore(s, chain, k)
    ensures AddReturns(env, s, Delivery(chain[k], n))
    ensures AddBlock(env, s, Delivery(chain[k], n), [chain[k]], s')
    ensures Step(env, s, Delivery(chain[k], n), [chain[k]], s')
    ensures RowStore(s', chain, k + 1)
  {
    StraightFits(env, s, chain, n, k);
    s' := RowNext(env, s, chain, n, k);
  }

  lemma RowDepths(t: Tree, chain: seq<BlockNode>, k: nat)
    requires Sound(t) && k <= |chain| && IsRow(t, chain, k)
    ensures IsMaxDepth(t.forest, k)
  {
    assert InRow(chain, k, ROOT_ID);
    forall id | id in t.forest.blockDepth ensures t.forest.blockDepth[id] <= k {
      assert InRow(chain, k, id);
      if id != ROOT_ID {
        var i :| 0 <= i < k && id == Id(chain[i]);
        RowAt(t, chain, k, i);
      }
    }
    assert t.forest.blockDepth[t.workingBlockId] == k;
  }

  /** Such a row has finalized exactly the block six above its last. */
  lemma RowFinalized(env: Env, t: Tree, chain: seq<BlockNode>, k: nat)
    requires Inv(env, t) && k <= |chain| && IsRow(t, chain, k) && k > CONFIRMATIONS
    ensures t.finalizedBlockId == Id(chain[k - CONFIRMATIONS - 1])
  {
    RowDepths(t, chain, k);
    var m := SixDeepFinality(env, t);
    FinalizedAt(t, chain, k);
  }

  lemma FinalizedAt(t: Tree, chain: seq<BlockNode>, k: nat)
    requires Sound(t) && k <= |chain| && IsRow(t, chain, k) && k > CONFIRMATIONS
    requires t.forest.blockDepth[t.finalizedBlockId] == k - CONFIRMATIONS
    ensures t.finalizedBlockId == Id(chain[k - CONFIRMATIONS - 1])
  {
    AncestorAt(t.forest, t.finalizedBlockId, t.workingBlockId);
    RowAt(t, chain, k, k - CONFIRMATIONS - 1);
  }

  lemma RowNotFinalized(env: Env, t: Tree, chain: seq<BlockNode>, k: nat)
    requires Inv(env, t) && k <= |chain| && IsRow(t, chain, k) && k <= CONFIRMATIONS
    ensures t.finalizedBlockId == ROOT_ID
  {
    RowDepths(t, chain, k);
    var m := SixDeepFinality(env, t);
    DepthZero(t.forest, t.finalizedBlockId);
  }

  lemma DepthZero(fo: Forest, id: BlockId)
    requires Rooted(fo) && id in fo.allBlocks && fo.blockDepth[id] == 0
    ensures id == ROOT_ID
  {
    forall x | x in fo.allBlocks && x != ROOT_ID ensures fo.blockDepth[x] > 0 {
      assert Parent(fo, x) in fo.allBlocks;
    }
  }

  // ----- the hang -----

  /** Once a block was finalized, no block on the genesis block can be added any more: a new one that
      passes the integrity check is followed towards the root for ever. */
  lemma LateBlockHangs(env: Env, s: Store, d: Delivery)
    requires Inv(env, s.tree) && s.tree.finalizedBlockId != ROOT_ID && d.block.header.parent == ROOT_ID
    requires d.block.header.blockId !in s.tree.forest.allBlocks && d.block.header.blockId !in s.orphans
    requires BlockIntegrity(env, d.block, d.leadingZeroLen)
    ensures !AddReturns(env, s, d)
    ensures forall k: nat :: Parent(s.tree.forest, Up(s.tree.forest, ROOT_ID, k)) != s.tree.finalizedBlockId
  {
    RootNotBelow(s.tree.forest, s.tree.finalizedBlockId);
    forall k: nat ensures Parent(s.tree.forest, Up(s.tree.forest, ROOT_ID, k)) != s.tree.finalizedBlockId {
      UpOnPath(s.tree.forest, ROOT_ID, k);
    }
  }

  lemma RootNotBelow(fo: Forest, f: BlockId)
    requires Rooted(fo) && f in fo.allBlocks && f != ROOT_ID
    ensures !StrictlyAbove(fo, f, ROOT_ID)
  {
    assert Parent(fo, f) in fo.allBlocks;
    assert |Path(fo, f)| > |Path(fo, ROOT_ID)|;
  }

  /** Seven blocks in a row lead to such a state: the eighth delivery, of a late block on the genesis
      block, does not return. */
  lemma SevenThenLate(env: Env, chain: seq<BlockNode>, late: BlockNode, n: nat) returns (states: seq<Store>)
    requires Straight(env, chain, n) && |chain| == CONFIRMATIONS + 1
    requires late.header.parent == ROOT_ID && Id(late) != ROOT_ID
    requires forall i | 0 <= i < |chain| :: Id(late) != Id(chain[i])
    requires BlockIntegrity(env, late, n)
    ensures Run(env, states, DeliveriesOf(chain, n), Singles(chain))
    ensures Inv(env, states[|chain|].tree) && states[|chain|].tree.finalizedBlockId == Id(chain[0])
    ensures !AddReturns(env, states[|chain|], Delivery(late, n))
  {
    states := StraightRun(env, chain, n);
    RunKeepsInv(env, states, DeliveriesOf(chain, n), Singles(chain), |chain|);
    RowFinalized(env, states[|chain|].tree, chain, |chain|);
    assert !InRow(chain, |chain|, Id(late));
    LateBlockHangs(env, states[|chain|], Delivery(late, n));
  }

  // ----- a fork block is read like the genesis block -----

  /** In a row of six, a block on the genesis block can be linked, and the seventh block of the row after it,
      which then finalizes the first. */
  lemma ForkInRow(env: Env, t: Tree, chain: seq<BlockNode>, c: BlockNode, n: nat) returns (t2: Tree)
    requires Inv(env, t) && t.finalizedBlockId == ROOT_ID && Straight(env, chain, n) && |chain| == CONFIRMATIONS + 1
    requires IsRow(t, chain, CONFIRMATIONS)
    requires c.header.parent == ROOT_ID && !InRow(chain, |chain|, Id(c)) && BlockIntegrity(env, c, n)
    requires c.transactions == []
    ensures var t1 := Grow(t, c);
            && Step(env, Store(t, map[]), Delivery(c, n), [c], Store(t1, map[]))
            && Step(env, Store(t1, map[]), Delivery(chain[CONFIRMATIONS], n), [chain[CONFIRMATIONS]], Store(t2, map[]))
    ensures Sound(t2) && ForkRead(t2, chain[0], Id(c))
  {
    var b, t1 := chain[CONFIRMATIONS], Grow(t, c);
    ForkFits(t, chain, c);
    W.ShallowStep(env, t, c, n);
    RowParent(t, chain, CONFIRMATIONS);
    RowFresh(chain, CONFIRMATIONS);
    RowAncestry(t, chain, CONFIRMATIONS);
    RowAt(t, chain, CONFIRMATIONS, 0);
    SeventhAccepted(env, t, t1, c, b, n);
    t2 := Link(env, t1, b);
    SeventhFinalizes(env, t, t1, c, b, chain[0]);
  }

  lemma ForkFits(t: Tree, chain: seq<BlockNode>, c: BlockNode)
    requires Sound(t) && |chain| == CONFIRMATIONS + 1 && IsRow(t, chain, CONFIRMATIONS)
    requires c.header.parent == ROOT_ID && !InRow(chain, |chain|, Id(c))
    ensures Attachable(t.forest, c) && t.forest.blockDepth[c.header.parent] == 0
    ensures forall i | 0 <= i < |chain| :: Id(c) != Id(chain[i])
  {
    if InRow(chain, CONFIRMATIONS, Id(c)) {
      RowGrows(chain, CONFIRMATIONS, Id(c));
    }
  }

  /** The seventh block passes the checks against the tree with the fork. */
  lemma SeventhAccepted(env: Env, t: Tree, t1: Tree, c: BlockNode, b: BlockNode, n: nat)
    requires Inv(env, t1) && Sound(t) && Attachable(t.forest, c) && t1 == Grow(t, c) && t1.finalizedBlockId == ROOT_ID
    requires b.header.parent == t.workingBlockId && Id(b) !in t.forest.allBlocks && Id(b) != Id(c)
    requires AncestryOk(t.forest, b.header.merkleRoot, t.workingBlockId)
    requires BlockIntegrity(env, b, n) && b.transactions == []
    ensures W.Acceptable(env, Store(t1, map[]), Delivery(b, n))
    ensures Step(env, Store(t1, map[]), Delivery(b, n), [b], Store(Link(env, t1, b), map[]))
  {
    ExtendPath(t.forest, c, t.workingBlockId);
    W.AcceptOne(env, Store(t1, map[]), Delivery(b, n));
  }

  /** What reading from `c` answers: the block after the genesis block, although `c` is stored, not deeper
      than the finalized block, and not on its path. */
  ghost predicate ForkRead(t: Tree, first: BlockNode, c: BlockId)
    requires Sound(t)
  {
    && c in t.forest.allBlocks && !OnPath(t.forest, c, t.finalizedBlockId)
    && t.forest.blockDepth[c] <= t.forest.blockDepth[t.finalizedBlockId]
    && FinalizedSince(t, c) == Success([first])
  }

  lemma SeventhFinalizes(env: Env, t: Tree, t1: Tree, c: BlockNode, b: BlockNode, first: BlockNode)
    requires Inv(env, t1) && Sound(t) && Attachable(t.forest, c) && c.header.parent == ROOT_ID
    requires t1 == Grow(t, c) && t1.finalizedBlockId == ROOT_ID
    requires b.header.parent == t.workingBlockId && t.forest.blockDepth[t.workingBlockId] == CONFIRMATIONS
    requires Linkable(t1, b) && Path(t.forest, t.workingBlockId)[1] == first && Id(first) != Id(c)
    ensures Sound(Link(env, t1, b)) && ForkRead(Link(env, t1, b), first, Id(c))
  {
    var t2 := Link(env, t1, b);
    ExtendPath(t.forest, c, t.workingBlockId);
    LinkKeepsInv(env, t1, b);
    LinkClosed(env, t1, b);
    LinkFrame(env, t1, b);
    ForkPaths(t1.forest, b, Id(c), first);
    ReadFork(t2, first, Id(c));
  }

  lemma ForkPaths(fo: Forest, b: BlockNode, c: BlockId, first: BlockNode)
    requires Rooted(fo) && Attachable(fo, b) && fo.blockDepth[b.header.parent] >= 1
    requires Path(fo, b.header.parent)[1] == first && c in fo.allBlocks && c != ROOT_ID && Parent(fo, c) == ROOT_ID
    ensures Rooted(Extend(fo, b)) && Id(first) in Extend(fo, b).allBlocks
    ensures Path(Extend(fo, b), Id(first)) == [GenesisBlock(), first]
    ensures Path(Extend(fo, b), c) == [GenesisBlock(), fo.allBlocks[c]]
  {
    PathPrefix(fo, b.header.parent, 1);
    ExtendPath(fo, b, Id(first));
    ExtendPath(fo, b, c);
    assert Path(fo, ROOT_ID) == [GenesisBlock()];
    assert Path(fo, c) == Path(fo, ROOT_ID) + [fo.allBlocks[c]];
  }

  lemma ReadFork(t: Tree, first: BlockNode, c: BlockId)
    requires Sound(t) && t.finalizedBlockId == Id(first) != c && c in t.forest.allBlocks
    requires Path(t.forest, Id(first)) == [GenesisBlock(), first]
    requires Path(t.forest, c) == [GenesisBlock(), t.forest.allBlocks[c]]
    ensures ForkRead(t, first, c)
  {
    assert t.forest.allBlocks[c].header.blockId == c;
    assert Path(t.forest, Id(first))[1..] == [first];
  }

  /** A run that leads there: six blocks in a row, a fork block, the seventh block. */
  lemma ForkReadLikeGenesis(env: Env, chain: seq<BlockNode>, c: BlockNode, n: nat)
    returns (states: seq<Store>, ds: seq<Delivery>, accs: seq<seq<BlockNode>>)
    requires Straight(env, chain, n) && |chain| == CONFIRMATIONS + 1
    requires c.header.parent == ROOT_ID && !InRow(chain, |chain|, Id(c)) && BlockIntegrity(env, c, n)
    requires c.transactions == []
    ensures Run(env, states, ds, accs)
    ensures Sound(states[|ds|].tree) && ForkRead(states[|ds|].tree, chain[0], Id(c))
  {
    states := StraightRunTo(env, chain, n, CONFIRMATIONS);
    ds, accs := DeliveriesOf(chain[..CONFIRMATIONS], n), Singles(chain[..CONFIRMATIONS]);
    RunKeepsInv(env, states, ds, accs, |ds|);
    var t := states[|ds|].tree;
    RowNotFinalized(env, t, chain, CONFIRMATIONS);
    var t2 := ForkInRow(env, t, chain, c, n);
    var b, s1, s2 := chain[CONFIRMATIONS], Store(Grow(t, c), map[]), Store(t2, map[]);
    W.RunExtend(env, states, ds, accs, Delivery(c, n), [c], s1);
    states, ds, accs := states + [s1], ds + [Delivery(c, n)], accs + [[c]];
    W.RunExtend(env, states, ds, accs, Delivery(b, n), [b], s2);
    states, ds, accs := states + [s2], ds + [Delivery(b, n)], accs + [[b]];
  }
}
