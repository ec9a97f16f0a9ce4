/** Runs on which the code falls short of its documentation. Each starts with a new tree, and each of its
    blocks passes the integrity check, with whatever comments, signatures and nonces that takes. */
module Witnesses {
  import opened Basics
  import opened Types
  import opened Balances
  import opened Ancestry
  import opened Forests
  import opened Trees
  import opened TreeInvariant
  import opened Deliveries
  import opened Orphans
  import BT = BlockTrees

  // ----- building runs -----

  function NewStore(): Store {
    Store(NewTree(), map[])
  }

  lemma EmptyRun(env: Env)
    ensures Run(env, [NewStore()], [], []) && Inv(env, NewTree())
  {
    NewTreeInv(env);
  }

  lemma RunExtend(env: Env, states: seq<Store>, ds: seq<Delivery>, accs: seq<seq<BlockNode>>, d: Delivery,
                  acc: seq<BlockNode>, s': Store)
    requires Run(env, states, ds, accs) && Step(env, states[|ds|], d, acc, s')
    ensures Run(env, states + [s'], ds + [d], accs + [acc])
  {
    forall i: nat {:trigger StepAt(env, states + [s'], ds + [d], accs + [acc], i)} | i < |ds + [d]|
      ensures StepAt(env, states + [s'], ds + [d], accs + [acc], i)
    {
      if i < |ds| {
        assert StepAt(env, states, ds, accs, i);
      }
    }
  }

  /** The block passes every check, the tests for known blocks included. */
  ghost predicate Acceptable(env: Env, s: Store, d: Delivery)
    requires Inv(env, s.tree)
  {
    && Attachable(s.tree.forest, d.block) && d.block.header.blockId !in s.orphans
    && BlockIntegrity(env, d.block, d.leadingZeroLen)
    && Extends(s.tree, d.block.header.parent) && Accepts(s.tree, d.block)
  }

  /** Linking as the first step of a run or the next one, when no orphan waits for the block. */
  lemma AcceptOne(env: Env, s: Store, d: Delivery)
    requires Inv(env, s.tree) && Acceptable(env, s, d) && !HasOrphanChild(s.orphans, d.block.header.blockId)
    ensures AddReturns(env, s, d)
    ensures AddBlock(env, s, d, [d.block], Store(Link(env, s.tree, d.block), s.orphans))
    ensures Step(env, s, d, [d.block], Store(Link(env, s.tree, d.block), s.orphans))
    ensures Inv(env, Link(env, s.tree, d.block))
  {
    LinkKeepsInv(env, s.tree, d.block);
    LinkWorkingOk(env, s.tree, d.block);
    NothingAttached(env, Store(Link(env, s.tree, d.block), s.orphans), d.block.header.blockId, d.leadingZeroLen);
    BT.AddFromAttach(env, s, d.block, d.leadingZeroLen, [], Store(Link(env, s.tree, d.block), s.orphans));
    assert [d.block] + [] == [d.block];
  }

  lemma NothingAttached(env: Env, s: Store, p: BlockId, n: nat)
    requires Inv(env, s.tree) && p in s.tree.forest.allBlocks && Extends(s.tree, p) && !HasOrphanChild(s.orphans, p)
    ensures AttachOne(env, s, p, n, [], s)
  {
  }

  /** A block whose parent is missing is buffered, and that is all that can happen to it. */
  lemma BufferOne(env: Env, s: Store, d: Delivery)
    requires Inv(env, s.tree) && BlockIntegrity(env, d.block, d.leadingZeroLen)
    requires d.block.header.blockId !in s.tree.forest.allBlocks && d.block.header.blockId !in s.orphans
    requires d.block.header.parent !in s.tree.forest.allBlocks
    ensures Step(env, s, d, [], s.(orphans := s.orphans[d.block.header.blockId := d.block]))
    ensures forall acc, s' | Step(env, s, d, acc, s') ::
              s' == s.(orphans := s.orphans[d.block.header.blockId := d.block])
  {
  }

  // ----- deliveries have results -----

  /** Whatever is delivered, the relation describes some result, unless the call does not return. */
  lemma AddBlockTotal(env: Env, s: Store, d: Delivery) returns (acc: seq<BlockNode>, s': Store)
    requires Inv(env, s.tree) && OrphansKeyed(s.orphans) && AddReturns(env, s, d)
    ensures AddBlock(env, s, d, acc, s')
  {
    if d.block.header.blockId in s.tree.forest.allBlocks || d.block.header.blockId in s.orphans {
      acc, s' := [], s;
    } else {
      acc, s' := AddOrphanTotal(env, s, d.block, d.leadingZeroLen);
    }
  }

  lemma {:induction false} AddOrphanTotal(env: Env, s: Store, b: BlockNode, n: nat)
    returns (acc: seq<BlockNode>, s': Store)
    requires Inv(env, s.tree) && OrphansKeyed(s.orphans) && ChecksReturn(env, s.tree, b, n)
    requires b.header.blockId in s.orphans ==> s.orphans[b.header.blockId] == b
    ensures AddOrphanBlock(env, s, b, n, acc, s')
    decreases s.orphans.Keys + {b.header.blockId} - s.tree.forest.allBlocks.Keys, 0
  {
    match BT.VerdictOf(env, s.tree, b, n)
    case Rejected => acc, s' := [], s;
    case ParentMissing => acc, s' := [], s.(orphans := s.orphans[b.header.blockId := b]);
    case Accepted =>
      BT.AcceptedLinks(env, s.tree, b, n);
      var s1 := Store(Link(env, s.tree, b), s.orphans);
      var rest;
      rest, s' := AttachTotal(env, s1, b.header.blockId, n);
      BT.AddFromAttach(env, s, b, n, rest, s');
      acc := [b] + rest;
  }

  lemma {:induction false} AttachTotal(env: Env, s: Store, p: BlockId, n: nat) returns (acc: seq<BlockNode>, s': Store)
    requires Inv(env, s.tree) && OrphansKeyed(s.orphans) && p in s.tree.forest.allBlocks && Extends(s.tree, p)
    ensures AttachOne(env, s, p, n, acc, s')
    decreases s.orphans.Keys - s.tree.forest.allBlocks.Keys, 1
  {
    if HasOrphanChild(s.orphans, p) {
      var k :| k in s.orphans && s.orphans[k].header.parent == p;
      assert s.orphans.Keys + {k} - s.tree.forest.allBlocks.Keys == s.orphans.Keys - s.tree.forest.allBlocks.Keys;
      var s2;
      acc, s2 := AddOrphanTotal(env, s, s.orphans[k], n);
      BT.AttachedChild(env, s, p, s.orphans[k], n, acc, s2);
      s' := s2.(orphans := s2.orphans - {p});
    } else {
      acc, s' := [], s;
      NothingAttached(env, s, p, n);
    }
  }

  // ----- shallow trees -----

  /** Below the genesis block and its children only the balance matters. */
  lemma ShallowLink(env: Env, s: Store, d: Delivery)
    requires Inv(env, s.tree) && s.tree.finalizedBlockId == ROOT_ID && Attachable(s.tree.forest, d.block)
    requires s.tree.forest.blockDepth[d.block.header.parent] <= 1
    requires d.block.header.blockId !in s.orphans && BlockIntegrity(env, d.block, d.leadingZeroLen)
    requires BalanceOk(s.tree, d.block)
    ensures Acceptable(env, s, d)
    ensures Link(env, s.tree, d.block) == Grow(s.tree, d.block)
  {
    LinkClosed(env, s.tree, d.block);
  }

  lemma NewTreeChecked()
    ensures Sound(NewTree()) && Path(NewTree().forest, ROOT_ID) == [GenesisBlock()]
    ensures CheckedBalances(NewTree(), ROOT_ID) == GenesisBalances()
  {
    var t := NewTree();
    assert Rooted(t.forest);
    assert Unfinalized(t, ROOT_ID) == [];
  }

  /** Such a block as the next step of a run, no block being buffered. */
  lemma ShallowStep(env: Env, t: Tree, b: BlockNode, n: nat)
    requires Inv(env, t) && t.finalizedBlockId == ROOT_ID && Attachable(t.forest, b)
    requires t.forest.blockDepth[b.header.parent] <= 1
    requires BlockIntegrity(env, b, n) && BalanceOk(t, b)
    ensures Step(env, Store(t, map[]), Delivery(b, n), [b], Store(Grow(t, b), map[]))
    ensures Inv(env, Grow(t, b)) && b.header.blockId in Grow(t, b).forest.allBlocks
    ensures Path(Grow(t, b).forest, b.header.blockId) == Path(t.forest, b.header.parent) + [b]
  {
    var s, d := Store(t, map[]), Delivery(b, n);
    ShallowLink(env, s, d);
    AcceptOne(env, s, d);
    ExtendNewPath(t.forest, b);
  }

  lemma RunOfOne(env: Env, s1: Store, d1: Delivery, b1: BlockNode)
    requires Step(env, NewStore(), d1, [b1], s1)
    ensures Run(env, [NewStore(), s1], [d1], [[b1]])
  {
    EmptyRun(env);
    RunExtend(env, [NewStore()], [], [], d1, [b1], s1);
    assert [NewStore()] + [s1] == [NewStore(), s1] && [] + [d1] == [d1] && [] + [[b1]] == [[b1]];
  }

  lemma RunOfTwo(env: Env, s1: Store, s2: Store, d1: Delivery, d2: Delivery, b1: BlockNode, b2: BlockNode)
    requires Step(env, NewStore(), d1, [b1], s1) && Step(env, s1, d2, [b2], s2)
    ensures Run(env, [NewStore(), s1, s2], [d1, d2], [[b1], [b2]])
  {
    RunOfOne(env, s1, d1, b1);
    RunExtend(env, [NewStore(), s1], [d1], [[b1]], d2, [b2], s2);
    assert [NewStore(), s1] + [s2] == [NewStore(), s1, s2];
    assert [d1] + [d2] == [d1, d2] && [[b1]] + [[b2]] == [[b1], [b2]];
  }

  /** One affordable block on the genesis block. */
  lemma FirstStep(env: Env, a: BlockNode, n: nat)
    requires a.header.parent == ROOT_ID && a.header.blockId != ROOT_ID && BlockIntegrity(env, a, n)
    requires Scan(GenesisBalances(), a.transactions)
    ensures Step(env, NewStore(), Delivery(a, n), [a], Store(Grow(NewTree(), a), map[]))
    ensures AfterFirst(env, a)
  {
    EmptyRun(env);
    NewTreeChecked();
    ShallowStep(env, NewTree(), a, n);
    ExtendPath(NewTree().forest, a, ROOT_ID);
  }

  /** The tree with that one block. */
  ghost predicate AfterFirst(env: Env, a: BlockNode) {
    && a.header.parent == ROOT_ID != a.header.blockId
    && var t := Grow(NewTree(), a);
       && Inv(env, t) && a.header.blockId in t.forest.allBlocks
       && t.workingBlockId == a.header.blockId && t.finalizedBlockId == ROOT_ID
       && t.finalizedBalanceMap == GenesisBalances()
       && Path(t.forest, ROOT_ID) == [GenesisBlock()]
       && Path(t.forest, a.header.blockId) == [GenesisBlock(), a]
  }

  lemma SecondFits(env: Env, a: BlockNode, b: BlockNode)
    requires AfterFirst(env, a)
    requires b.header.parent == ROOT_ID || b.header.parent == a.header.blockId
    requires b.header.blockId != ROOT_ID && b.header.blockId != a.header.blockId
    ensures Inv(env, Grow(NewTree(), a)) && Grow(NewTree(), a).finalizedBlockId == ROOT_ID
    ensures Attachable(Grow(NewTree(), a).forest, b) && Grow(NewTree(), a).forest.blockDepth[b.header.parent] <= 1
  {
  }

  /** And a second one, on the genesis block or on the first block. */
  lemma SecondStep(env: Env, a: BlockNode, b: BlockNode, n: nat)
    requires AfterFirst(env, a) && BlockIntegrity(env, b, n)
    requires b.header.parent == ROOT_ID || b.header.parent == a.header.blockId
    requires b.header.blockId != ROOT_ID && b.header.blockId != a.header.blockId
    requires BalanceOk(Grow(NewTree(), a), b)
    ensures var t, t' := Grow(NewTree(), a), Grow(Grow(NewTree(), a), b);
            && Step(env, Store(t, map[]), Delivery(b, n), [b], Store(t', map[]))
            && Inv(env, t') && b.header.blockId in t'.forest.allBlocks
            && Path(t'.forest, b.header.blockId) == Path(t.forest, b.header.parent) + [b]
  {
    SecondFits(env, a, b);
    ShallowStep(env, Grow(NewTree(), a), b, n);
  }

  // ----- payments -----

  /** One transaction, of this amount. */
  predicate Pays(txs: seq<Transaction>, sender: UserId, receiver: UserId, amount: int) {
    |txs| == 1 && txs[0].sender == sender && txs[0].receiver == receiver && txs[0].amount == amount
  }

  lemma PaysNet(m: BalanceMap, txs: seq<Transaction>, sender: UserId, receiver: UserId, amount: int, u: UserId)
    requires Pays(txs, sender, receiver, amount)
    ensures Get(ApplyTxs(m, txs), u)
            == Get(m, u) + (if u == receiver then amount else 0) - (if u == sender then amount else 0)
    ensures Scan(m, txs) <==> Get(m, sender) >= amount
  {
    ApplyTxsNet(m, txs, u);
    assert txs[..0] == [] && txs[1..] == [];
  }

  /** The balances a second block is checked against. */
  lemma SecondChecked(env: Env, a: BlockNode, p: BlockId, u: UserId)
    requires AfterFirst(env, a) && (p == ROOT_ID || p == a.header.blockId)
    ensures Get(CheckedBalances(Grow(NewTree(), a), p), u) == Get(ApplyTxs(GenesisBalances(), a.transactions), u)
  {
    var t := Grow(NewTree(), a);
    assert Unfinalized(t, ROOT_ID) == [];
    assert Unfinalized(t, a.header.blockId) == [a];
    assert TxsBackwards([a]) == a.transactions by { assert [a][..0] == []; }
  }

  lemma ReplayOne(path: seq<BlockNode>, b: BlockNode, u: UserId)
    requires path != [] && b.header.rewardReceiver != u
    ensures Get(Replay(path + [b]), u) == Get(ApplyTxs(Replay(path), b.transactions), u)
  {
    assert (path + [b])[..|path + [b]| - 1] == path;
  }

  /** A fork defeats the balance check: after a block that pays Bob, a sibling in which Bob spends that
      money is accepted, although on its own path Bob has nothing, and his balance there is negative. */
  lemma ForkOverdraft(env: Env, a: BlockNode, b: BlockNode, n: nat, bob: UserId, carol: UserId)
    returns (states: seq<Store>)
    requires BlockIntegrity(env, a, n) && BlockIntegrity(env, b, n)
    requires a.header.parent == ROOT_ID == b.header.parent
    requires a.header.blockId != ROOT_ID && b.header.blockId != ROOT_ID && a.header.blockId != b.header.blockId
    requires bob != ALICE && carol != bob && b.header.rewardReceiver != bob
    requires Pays(a.transactions, ALICE, bob, 100) && Pays(b.transactions, bob, carol, 100)
    ensures Run(env, states, [Delivery(a, n), Delivery(b, n)], [[a], [b]])
    ensures var fo := states[2].tree.forest;
            && Rooted(fo) && b.header.blockId in fo.allBlocks
            && Get(Replay(Path(fo, b.header.blockId)), bob) == -100
  {
    var t := Grow(NewTree(), a);
    PaysNet(GenesisBalances(), a.transactions, ALICE, bob, 100, bob);
    FirstStep(env, a, n);
    SecondChecked(env, a, ROOT_ID, bob);
    PaysNet(CheckedBalances(t, ROOT_ID), b.transactions, bob, carol, 100, bob);
    SecondStep(env, a, b, n);
    RunOfTwo(env, Store(t, map[]), Store(Grow(t, b), map[]), Delivery(a, n), Delivery(b, n), a, b);
    states := [NewStore(), Store(t, map[]), Store(Grow(t, b), map[])];
    ReplayOne([GenesisBlock()], b, bob);
    PaysNet(GenesisBalances(), b.transactions, bob, carol, 100, bob);
  }

  /** A payment is repeated: a block on the first one with the same signed transaction is accepted,
      whatever the two Merkle roots are. */
  lemma RepeatedPayment(env: Env, a: BlockNode, b: BlockNode, n: nat, bob: UserId) returns (states: seq<Store>)
    requires BlockIntegrity(env, a, n) && BlockIntegrity(env, b, n)
    requires a.header.parent == ROOT_ID && b.header.parent == a.header.blockId
    requires a.header.blockId != ROOT_ID && b.header.blockId != ROOT_ID && a.header.blockId != b.header.blockId
    requires bob != ALICE && Pays(a.transactions, ALICE, bob, 100) && b.transactions == a.transactions
    ensures Run(env, states, [Delivery(a, n), Delivery(b, n)], [[a], [b]])
    ensures var fo := states[2].tree.forest;
            && Rooted(fo) && b.header.blockId in fo.allBlocks
            && Path(fo, b.header.blockId) == [GenesisBlock(), a, b]
            && !FreshOn([GenesisBlock(), a], b.transactions)
  {
    var t, id := Grow(NewTree(), a), a.header.blockId;
    PaysNet(GenesisBalances(), a.transactions, ALICE, bob, 100, ALICE);
    FirstStep(env, a, n);
    SecondChecked(env, a, id, ALICE);
    PaysNet(CheckedBalances(t, id), b.transactions, ALICE, bob, 100, ALICE);
    SecondStep(env, a, b, n);
    RunOfTwo(env, Store(t, map[]), Store(Grow(t, b), map[]), Delivery(a, n), Delivery(b, n), a, b);
    states := [NewStore(), Store(t, map[]), Store(Grow(t, b), map[])];
    NotFresh(a, b.transactions);
    ThreeInARow(a, b);
  }

  lemma ThreeInARow(a: BlockNode, b: BlockNode)
    ensures [GenesisBlock(), a] + [b] == [GenesisBlock(), a, b]
  {
  }

  lemma NotFresh(a: BlockNode, txs: seq<Transaction>)
    requires a.transactions == txs != []
    ensures !FreshOn([GenesisBlock(), a], txs)
  {
    assert txs[0] in [GenesisBlock(), a][1].transactions && txs[0] in txs;
  }

  /** A negative amount passes the check, and takes money from its receiver; so `AmountsNonNegative` is
      needed for `NoOverdraft`. */
  lemma NegativeAmount(env: Env, a: BlockNode, n: nat, mallory: UserId, bob: UserId) returns (states: seq<Store>)
    requires BlockIntegrity(env, a, n) && a.header.parent == ROOT_ID && a.header.blockId != ROOT_ID
    requires bob != ALICE && mallory != bob && a.header.rewardReceiver != bob
    requires Pays(a.transactions, mallory, bob, -100)
    ensures Run(env, states, [Delivery(a, n)], [[a]])
    ensures var fo := states[1].tree.forest;
            && Rooted(fo) && a.header.blockId in fo.allBlocks
            && Get(Replay(Path(fo, a.header.blockId)), bob) == -100
  {
    PaysNet(GenesisBalances(), a.transactions, mallory, bob, -100, bob);
    FirstStep(env, a, n);
    RunOfOne(env, Store(Grow(NewTree(), a), map[]), Delivery(a, n), a);
    states := [NewStore(), Store(Grow(NewTree(), a), map[])];
    ReplayOne([GenesisBlock()], a, bob);
    assert [GenesisBlock()] + [a] == [GenesisBlock(), a];
  }

  // ----- the order of delivery with forks -----

  /** A block on the genesis block and two children of it, all without transactions. */
  ghost predicate Fork(env: Env, p: BlockNode, c1: BlockNode, c2: BlockNode, n: nat) {
    && p.header.parent == ROOT_ID
    && c1.header.parent == p.header.blockId == c2.header.parent
    && Distinct([ROOT_ID, p.header.blockId, c1.header.blockId, c2.header.blockId])
    && BlockIntegrity(env, p, n) && BlockIntegrity(env, c1, n) && BlockIntegrity(env, c2, n)
    && p.transactions == c1.transactions == c2.transactions == []
  }

  lemma ForkIds(env: Env, p: BlockNode, c1: BlockNode, c2: BlockNode, n: nat)
    requires Fork(env, p, c1, c2, n)
    ensures ROOT_ID != p.header.blockId && ROOT_ID != c1.header.blockId && ROOT_ID != c2.header.blockId
    ensures p.header.blockId != c1.header.blockId && p.header.blockId != c2.header.blockId
    ensures c1.header.blockId != c2.header.blockId
  {
    FourIds(p.header.blockId, c1.header.blockId, c2.header.blockId);
  }

  lemma ShallowGrown(t: Tree, b: BlockNode)
    requires Rooted(t.forest) && Attachable(t.forest, b)
    ensures Grow(t, b).finalizedBlockId == t.finalizedBlockId
    ensures Grow(t, b).forest.blockDepth
            == t.forest.blockDepth[b.header.blockId := t.forest.blockDepth[b.header.parent] + 1]
    ensures Grow(t, b).forest.allBlocks.Keys == t.forest.allBlocks.Keys + {b.header.blockId}
  {
  }

  /** A run goes on with a block without transactions in a shallow tree, of which nothing but the ids and
      the depths is known. */
  lemma EmptyBlockRun(env: Env, states: seq<Store>, ds: seq<Delivery>, accs: seq<seq<BlockNode>>, b: BlockNode,
                      n: nat)
    returns (s': Store)
    requires Run(env, states, ds, accs) && ShallowStore(states[|ds|])
    requires var fo := states[|ds|].tree.forest;
             Attachable(fo, b) && b.header.parent in fo.blockDepth && fo.blockDepth[b.header.parent] <= 1
    requires BlockIntegrity(env, b, n) && b.transactions == []
    ensures Run(env, states + [s'], ds + [Delivery(b, n)], accs + [[b]])
    ensures ShallowStore(s')
    ensures var fo, fo' := states[|ds|].tree.forest, s'.tree.forest;
            && fo'.allBlocks.Keys == fo.allBlocks.Keys + {b.header.blockId}
            && fo'.blockDepth == fo.blockDepth[b.header.blockId := fo.blockDepth[b.header.parent] + 1]
            && s'.tree.workingBlockId in fo'.blockDepth
            && fo'.blockDepth[s'.tree.workingBlockId] == fo.blockDepth[b.header.parent] + 1
  {
    var t := states[|ds|].tree;
    RunKeepsInv(env, states, ds, accs, |ds|);
    ShallowStep(env, t, b, n);
    GrownWorking(env, t, b);
    ShallowGrown(t, b);
    s' := Store(Grow(t, b), map[]);
    RunExtend(env, states, ds, accs, Delivery(b, n), [b], s');
  }

  lemma GrownWorking(env: Env, t: Tree, b: BlockNode)
    requires Inv(env, t) && Attachable(t.forest, b) && Inv(env, Grow(t, b))
    ensures var fo', w := Grow(t, b).forest, Grow(t, b).workingBlockId;
            w in fo'.blockDepth && fo'.blockDepth[w] == t.forest.blockDepth[b.header.parent] + 1
  {
    var fo' := Grow(t, b).forest;
    LargestChild(fo', Grow(t, b).childrenMap, b.header.parent);
    assert Parent(fo', Grow(t, b).workingBlockId) == b.header.parent;
  }

  ghost predicate ShallowStore(s: Store) {
    s.orphans == map[] && s.tree.finalizedBlockId == ROOT_ID
  }

  /** Delivered parent first, all three blocks are stored. */
  lemma ParentFirst(env: Env, p: BlockNode, c1: BlockNode, c2: BlockNode, n: nat) returns (states: seq<Store>)
    requires Fork(env, p, c1, c2, n)
    ensures Run(env, states, [Delivery(p, n), Delivery(c1, n), Delivery(c2, n)], [[p], [c1], [c2]])
    ensures p.header.blockId in states[3].tree.forest.allBlocks
    ensures c1.header.blockId in states[3].tree.forest.allBlocks && c2.header.blockId in states[3].tree.forest.allBlocks
  {
    ForkIds(env, p, c1, c2, n);
    EmptyRun(env);
    states := [NewStore()];
    var s1 := EmptyBlockRun(env, states, [], [], p, n);
    var ds, accs := [] + [Delivery(p, n)], [] + [[p]];
    states := states + [s1];
    var s2 := EmptyBlockRun(env, states, ds, accs, c1, n);
    states, ds, accs := states + [s2], ds + [Delivery(c1, n)], accs + [[c1]];
    var s3 := EmptyBlockRun(env, states, ds, accs, c2, n);
    states := states + [s3];
    Triple(Delivery(p, n), Delivery(c1, n), Delivery(c2, n));
    Triple([p], [c1], [c2]);
  }

  lemma Triple<T>(x: T, y: T, z: T)
    ensures [] + [x] + [y] + [z] == [x, y, z]
  {
  }

  /** The working block need not be the end of the longest chain: after a chain of two blocks, a sibling of
      the first makes it a block of depth one. */
  lemma WorkingNotDeepest(env: Env, a: BlockNode, b: BlockNode, c: BlockNode, n: nat)
    returns (states: seq<Store>)
    requires a.header.parent == ROOT_ID == c.header.parent && b.header.parent == a.header.blockId
    requires Distinct([ROOT_ID, a.header.blockId, b.header.blockId, c.header.blockId])
    requires BlockIntegrity(env, a, n) && BlockIntegrity(env, b, n) && BlockIntegrity(env, c, n)
    requires a.transactions == b.transactions == c.transactions == []
    ensures Run(env, states, [Delivery(a, n), Delivery(b, n), Delivery(c, n)], [[a], [b], [c]])
    ensures var t := states[3].tree;
            && t.workingBlockId in t.forest.blockDepth && t.forest.blockDepth[t.workingBlockId] == 1
            && b.header.blockId in t.forest.blockDepth && t.forest.blockDepth[b.header.blockId] == 2
  {
    FourIds(a.header.blockId, b.header.blockId, c.header.blockId);
    EmptyRun(env);
    states := [NewStore()];
    var s1 := EmptyBlockRun(env, states, [], [], a, n);
    var ds, accs := [] + [Delivery(a, n)], [] + [[a]];
    states := states + [s1];
    var s2 := EmptyBlockRun(env, states, ds, accs, b, n);
    states, ds, accs := states + [s2], ds + [Delivery(b, n)], accs + [[b]];
    var s3 := EmptyBlockRun(env, states, ds, accs, c, n);
    states := states + [s3];
    Triple(Delivery(a, n), Delivery(b, n), Delivery(c, n));
    Triple([a], [b], [c]);
  }

  lemma FourIds(x: BlockId, y: BlockId, z: BlockId)
    requires Distinct([ROOT_ID, x, y, z])
    ensures ROOT_ID != x && ROOT_ID != y && ROOT_ID != z && x != y && x != z && y != z
  {
    var ids := [ROOT_ID, x, y, z];
    assert ids[0] != ids[1] && ids[0] != ids[2] && ids[0] != ids[3];
    assert ids[1] != ids[2] && ids[1] != ids[3] && ids[2] != ids[3];
  }

  lemma BothBuffered(env: Env, p: BlockNode, c1: BlockNode, c2: BlockNode, n: nat, states: seq<Store>,
                     accs: seq<seq<BlockNode>>)
    requires Fork(env, p, c1, c2, n)
    requires Run(env, states, [Delivery(c1, n), Delivery(c2, n), Delivery(p, n)], accs)
    ensures states[2] == Store(NewTree(), map[c1.header.blockId := c1, c2.header.blockId := c2])
  {
    var ds := [Delivery(c1, n), Delivery(c2, n), Delivery(p, n)];
    ForkIds(env, p, c1, c2, n);
    EmptyRun(env);
    assert StepAt(env, states, ds, accs, 0) && StepAt(env, states, ds, accs, 1);
    BufferOne(env, states[0], ds[0]);
    BufferOne(env, states[1], ds[1]);
  }

  /** Delivered children first, in every run one of them is stranded when the parent arrives. */
  lemma ChildrenFirst(env: Env, p: BlockNode, c1: BlockNode, c2: BlockNode, n: nat, states: seq<Store>,
                      accs: seq<seq<BlockNode>>)
    requires Fork(env, p, c1, c2, n)
    requires Run(env, states, [Delivery(c1, n), Delivery(c2, n), Delivery(p, n)], accs)
    ensures Stranded(states[3], c1.header.blockId) || Stranded(states[3], c2.header.blockId)
  {
    var ds := [Delivery(c1, n), Delivery(c2, n), Delivery(p, n)];
    ForkIds(env, p, c1, c2, n);
    BothBuffered(env, p, c1, c2, n, states, accs);
    RunStepAdds(env, states, ds, accs, 2);
    ParentArrives(env, states[2], p, c1, c2, n, accs[2], states[3]);
  }

  lemma ParentArrives(env: Env, s: Store, p: BlockNode, c1: BlockNode, c2: BlockNode, n: nat, acc: seq<BlockNode>,
                      s': Store)
    requires Fork(env, p, c1, c2, n) && s == Store(NewTree(), map[c1.header.blockId := c1, c2.header.blockId := c2])
    requires Inv(env, s.tree) && AddReturns(env, s, Delivery(p, n)) && AddBlock(env, s, Delivery(p, n), acc, s')
    ensures Stranded(s', c1.header.blockId) || Stranded(s', c2.header.blockId)
  {
    ForkBuffer(env, s.orphans, p, c1, c2, n);
    ParentLinks(env, s, p, n, acc, s');
    SiblingStranded(env, s, Delivery(p, n), acc, s', c1.header.blockId, c2.header.blockId);
  }

  lemma ForkBuffer(env: Env, orphans: map<BlockId, BlockNode>, p: BlockNode, c1: BlockNode, c2: BlockNode, n: nat)
    requires Fork(env, p, c1, c2, n) && orphans == map[c1.header.blockId := c1, c2.header.blockId := c2]
    ensures OrphansKeyed(orphans) && p.header.blockId !in orphans && p.header.blockId != ROOT_ID
    ensures c1.header.blockId in orphans && c2.header.blockId in orphans && c1.header.blockId != c2.header.blockId
    ensures orphans[c1.header.blockId] == c1 && orphans[c2.header.blockId] == c2
    ensures c1.header.blockId !in NewTree().forest.allBlocks && c2.header.blockId !in NewTree().forest.allBlocks
  {
    ForkIds(env, p, c1, c2, n);
  }

  lemma ParentLinks(env: Env, s: Store, p: BlockNode, n: nat, acc: seq<BlockNode>, s': Store)
    requires s.tree == NewTree() && Inv(env, s.tree) && p.header.parent == ROOT_ID != p.header.blockId
    requires p.header.blockId !in s.orphans && BlockIntegrity(env, p, n) && p.transactions == []
    requires AddReturns(env, s, Delivery(p, n)) && AddBlock(env, s, Delivery(p, n), acc, s')
    ensures acc != []
  {
    ShallowLink(env, s, Delivery(p, n));
    ChildVerdict(env, s, p, n, acc, s');
  }

  /** And there are such runs. */
  lemma ChildrenFirstRuns(env: Env, p: BlockNode, c1: BlockNode, c2: BlockNode, n: nat)
    returns (states: seq<Store>, accs: seq<seq<BlockNode>>)
    requires Fork(env, p, c1, c2, n)
    ensures Run(env, states, [Delivery(c1, n), Delivery(c2, n), Delivery(p, n)], accs)
  {
    ForkIds(env, p, c1, c2, n);
    EmptyRun(env);
    var s1 := NewStore().(orphans := NewStore().orphans[c1.header.blockId := c1]);
    var s2 := s1.(orphans := s1.orphans[c2.header.blockId := c2]);
    BufferOne(env, NewStore(), Delivery(c1, n));
    BufferOne(env, s1, Delivery(c2, n));
    var acc, s3 := ParentStep(env, s2, p, n);
    var ds := [];
    states, accs := [NewStore()], [];
    RunExtend(env, states, ds, accs, Delivery(c1, n), [], s1);
    states, ds, accs := states + [s1], ds + [Delivery(c1, n)], accs + [[]];
    RunExtend(env, states, ds, accs, Delivery(c2, n), [], s2);
    states, ds, accs := states + [s2], ds + [Delivery(c2, n)], accs + [[]];
    RunExtend(env, states, ds, accs, Delivery(p, n), acc, s3);
    states, accs := states + [s3], accs + [acc];
    Triple(Delivery(c1, n), Delivery(c2, n), Delivery(p, n));
  }

  lemma ParentStep(env: Env, s: Store, p: BlockNode, n: nat) returns (acc: seq<BlockNode>, s': Store)
    requires s.tree == NewTree() && OrphansKeyed(s.orphans)
    requires p.header.parent == ROOT_ID != p.header.blockId && p.header.blockId !in s.orphans
    requires BlockIntegrity(env, p, n) && p.transactions == []
    ensures Step(env, s, Delivery(p, n), acc, s')
  {
    EmptyRun(env);
    ShallowLink(env, s, Delivery(p, n));
    acc, s' := AddBlockTotal(env, s, Delivery(p, n));
  }
}
