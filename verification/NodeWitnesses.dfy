/** Runs of the node: its own block hangs it, and an assembled block repeats a transaction. */
module NodeWitnesses {
  import opened Types
  import opened Merkle
  import opened Ancestry
  import opened Forests
  import opened Trees
  import opened Deliveries
  import opened DeliveryOrder
  import opened TxPools
  import opened Hangs
  import W = Witnesses
  import N = Nodes

  // ----- building runs of the node -----

  /** A run that ends in the node `n`. */
  ghost predicate Ends(env: Env, cfg: N.Config, nodes: seq<N.Node>, events: seq<N.Event>, n: N.Node) {
    N.NodeRun(env, cfg, nodes, events) && nodes[|events|] == n
  }

  lemma GoesOn(env: Env, cfg: N.Config, nodes: seq<N.Node>, events: seq<N.Event>, n: N.Node, e: N.Event, n': N.Node)
    requires Ends(env, cfg, nodes, events, n) && N.NodeStep(env, cfg, n, e, n')
    ensures Ends(env, cfg, nodes + [n'], events + [e], n')
  {
    forall i: nat {:trigger N.NodeStepAt(env, cfg, nodes + [n'], events + [e], i)} | i < |events + [e]|
      ensures N.NodeStepAt(env, cfg, nodes + [n'], events + [e], i)
    {
      if i < |events| {
        assert N.NodeStepAt(env, cfg, nodes, events, i);
      }
    }
  }

  lemma EndsInv(env: Env, cfg: N.Config, nodes: seq<N.Node>, events: seq<N.Event>, n: N.Node)
    requires Ends(env, cfg, nodes, events, n)
    ensures Inv(env, n.store.tree)
  {
    N.NodeRunKeeps(env, cfg, nodes, events, |events|);
  }

  /** The pool with one transaction. */
  function OnePool(env: Env, tx: Transaction): Pool {
    Pool([GenHash(env, tx)], map[GenHash(env, tx) := tx], {}, ROOT_ID)
  }

  lemma OnePoolFilter(env: Env, tx: Transaction, maxCount: nat)
    ensures forall id | id in OnePool(env, tx).txIds :: id in OnePool(env, tx).txMap
    ensures Filter(OnePool(env, tx), maxCount, []) == [tx]
  {
    var p := OnePool(env, tx);
    assert Lookup(p, p.txIds) == [tx];
    assert [tx][..0] == [];
    assert NotIn([tx], []) == [tx];
  }

  /** The node with that pool, which has not consumed any block, and its miner at `pc`. */
  function Early(env: Env, tx: Transaction, s: Store, pc: N.MinerPc): N.Node {
    N.Node(s, OnePool(env, tx), pc, [], false)
  }

  /** The transaction arrives at a new node. */
  lemma TxRun(env: Env, cfg: N.Config, tx: Transaction) returns (nodes: seq<N.Node>, events: seq<N.Event>)
    requires env.verifySig(tx)
    ensures Ends(env, cfg, nodes, events, Early(env, tx, W.NewStore(), N.Waiting))
  {
    W.EmptyRun(env);
    assert [] + [GenHash(env, tx)] == [GenHash(env, tx)];
    var n' := Early(env, tx, W.NewStore(), N.Waiting);
    nodes, events := [N.NewNode()], [];
    GoesOn(env, cfg, nodes, events, N.NewNode(), N.TxArrives(tx), n');
    nodes, events := nodes + [n'], events + [N.TxArrives(tx)];
  }

  lemma ReadSteps(env: Env, cfg: N.Config, tx: Transaction, s: Store)
    requires Inv(env, s.tree) && s.tree.finalizedBlockId == ROOT_ID
    ensures N.NodeStep(env, cfg, Early(env, tx, s, N.Waiting), N.MinerMoves, Early(env, tx, s, N.SinceRead(ROOT_ID)))
    ensures N.NodeStep(env, cfg, Early(env, tx, s, N.SinceRead(ROOT_ID)), N.MinerMoves,
                       Early(env, tx, s, N.BlocksRead([], true)))
    ensures N.NodeStep(env, cfg, Early(env, tx, s, N.BlocksRead([], true)), N.MinerMoves,
                       Early(env, tx, s, N.Consumed(true)))
    ensures N.NodeStep(env, cfg, Early(env, tx, s, N.Consumed(true)), N.MinerMoves,
                       Early(env, tx, s, N.WorkingRead(s.tree.workingBlockId, true)))
  {
    assert Path(s.tree.forest, ROOT_ID)[1..] == [];
  }

  /** While the genesis block is the finalized one, the miner reads the working block. */
  lemma ReadRun(env: Env, cfg: N.Config, tx: Transaction, nodes: seq<N.Node>, events: seq<N.Event>, s: Store)
    returns (nodes': seq<N.Node>, events': seq<N.Event>)
    requires Ends(env, cfg, nodes, events, Early(env, tx, s, N.Waiting)) && s.tree.finalizedBlockId == ROOT_ID
    ensures Ends(env, cfg, nodes', events', Early(env, tx, s, N.WorkingRead(s.tree.workingBlockId, true)))
  {
    EndsInv(env, cfg, nodes, events, Early(env, tx, s, N.Waiting));
    ReadSteps(env, cfg, tx, s);
    var n0, n1, n2 := Early(env, tx, s, N.Waiting), Early(env, tx, s, N.SinceRead(ROOT_ID)),
                      Early(env, tx, s, N.BlocksRead([], true));
    var n3, n4 := Early(env, tx, s, N.Consumed(true)), Early(env, tx, s, N.WorkingRead(s.tree.workingBlockId, true));
    GoesOn(env, cfg, nodes, events, n0, N.MinerMoves, n1);
    nodes', events' := nodes + [n1], events + [N.MinerMoves];
    GoesOn(env, cfg, nodes', events', n1, N.MinerMoves, n2);
    nodes', events' := nodes' + [n2], events' + [N.MinerMoves];
    GoesOn(env, cfg, nodes', events', n2, N.MinerMoves, n3);
    nodes', events' := nodes' + [n3], events' + [N.MinerMoves];
    GoesOn(env, cfg, nodes', events', n3, N.MinerMoves, n4);
    nodes', events' := nodes' + [n4], events' + [N.MinerMoves];
  }

  /** The block with that transaction on a given parent. */
  function OnePre(env: Env, cfg: N.Config, tx: Transaction, parent: BlockId): BlockNode {
    BlockNode(BlockNodeHeader(parent, GenHash(env, tx), 1, "", "", cfg.rewardReceiver), [[GenHash(env, tx)]], [tx])
  }

  lemma OnePreAssembled(env: Env, cfg: N.Config, tx: Transaction, parent: BlockId)
    ensures N.IsPreBlock(env, OnePre(env, cfg, tx, parent), parent, [tx], cfg.rewardReceiver)
  {
    var leaves := Leaves(env, [tx]);
    assert leaves == [GenHash(env, tx)];
    assert IsLevel(env, leaves, 0, leaves);
  }

  lemma AssembleSteps(env: Env, cfg: N.Config, tx: Transaction, s: Store, parent: BlockId, quiet: bool, gapless: bool)
    requires Inv(env, s.tree) && PendingTxs(s.tree) == [] && gapless == N.Gapless(s.tree, 0, parent)
    ensures N.NodeStep(env, cfg, Early(env, tx, s, N.WorkingRead(parent, quiet)), N.MinerMoves,
                       Early(env, tx, s, N.PendingRead(parent, [], quiet, gapless)))
    ensures N.NodeStep(env, cfg, Early(env, tx, s, N.PendingRead(parent, [], quiet, gapless)), N.MinerMoves,
                       Early(env, tx, s, N.PuzzleReady(OnePre(env, cfg, tx, parent), quiet, gapless)))
  {
    OnePreAssembled(env, cfg, tx, parent);
    OnePoolFilter(env, tx, cfg.maxTxInOneBlock);
  }

  /** With nothing pending, the miner assembles the block with that transaction. */
  lemma AssembleRun(env: Env, cfg: N.Config, tx: Transaction, nodes: seq<N.Node>, events: seq<N.Event>, s: Store,
                    parent: BlockId, quiet: bool)
    returns (nodes': seq<N.Node>, events': seq<N.Event>, gapless: bool)
    requires Ends(env, cfg, nodes, events, Early(env, tx, s, N.WorkingRead(parent, quiet)))
    requires Sound(s.tree) && PendingTxs(s.tree) == []
    ensures Ends(env, cfg, nodes', events',
                 Early(env, tx, s, N.PuzzleReady(OnePre(env, cfg, tx, parent), quiet, gapless)))
  {
    EndsInv(env, cfg, nodes, events, Early(env, tx, s, N.WorkingRead(parent, quiet)));
    gapless := N.Gapless(s.tree, 0, parent);
    AssembleSteps(env, cfg, tx, s, parent, quiet, gapless);
    var n0, n1 := Early(env, tx, s, N.WorkingRead(parent, quiet)),
                  Early(env, tx, s, N.PendingRead(parent, [], quiet, gapless));
    var n2 := Early(env, tx, s, N.PuzzleReady(OnePre(env, cfg, tx, parent), quiet, gapless));
    GoesOn(env, cfg, nodes, events, n0, N.MinerMoves, n1);
    nodes', events' := nodes + [n1], events + [N.MinerMoves];
    GoesOn(env, cfg, nodes', events', n1, N.MinerMoves, n2);
    nodes', events' := nodes' + [n2], events' + [N.MinerMoves];
  }

  // ----- blocks arrive -----

  lemma ArrivalStep(env: Env, cfg: N.Config, n: N.Node, b: BlockNode, s': Store)
    requires Inv(env, n.store.tree) && !n.hung && (forall id | id in n.pool.txIds :: id in n.pool.txMap)
    requires AddReturns(env, n.store, Delivery(b, cfg.leadingZeroLenAcc))
    requires AddBlock(env, n.store, Delivery(b, cfg.leadingZeroLenAcc), [b], s')
    ensures N.NodeStep(env, cfg, n, N.BlockArrives(b), n.(store := s', pc := N.Disturb(n.pc)))
  {
    var acc := [b];
    assert n.(store := s', pc := N.Disturb(n.pc)) == n.(store := s', pc := if acc == [] then n.pc else N.Disturb(n.pc));
  }

  /** A run that ends with the first `k` blocks of a straight chain in the tree. */
  ghost predicate Arrived(env: Env, cfg: N.Config, tx: Transaction, pc: N.MinerPc, chain: seq<BlockNode>, k: nat,
                          nodes: seq<N.Node>, events: seq<N.Event>, s: Store)
  {
    Ends(env, cfg, nodes, events, Early(env, tx, s, pc)) && RowStore(s, chain, k)
  }

  /** The next block of the chain arrives. */
  lemma OneArrives(env: Env, cfg: N.Config, tx: Transaction, pc: N.MinerPc, chain: seq<BlockNode>, k: nat,
                   nodes: seq<N.Node>, events: seq<N.Event>, s: Store)
    returns (nodes': seq<N.Node>, events': seq<N.Event>, s': Store)
    requires Straight(env, chain, cfg.leadingZeroLenAcc) && k < |chain|
    requires Arrived(env, cfg, tx, pc, chain, k, nodes, events, s)
    ensures Arrived(env, cfg, tx, N.Disturb(pc), chain, k + 1, nodes', events', s')
  {
    var n, b := Early(env, tx, s, pc), chain[k];
    EndsInv(env, cfg, nodes, events, n);
    s' := StraightStep(env, s, chain, cfg.leadingZeroLenAcc, k);
    ArrivalStep(env, cfg, n, b, s');
    var n' := Early(env, tx, s', N.Disturb(pc));
    assert n' == n.(store := s', pc := N.Disturb(n.pc));
    GoesOn(env, cfg, nodes, events, n, N.BlockArrives(b), n');
    nodes', events' := nodes + [n'], events + [N.BlockArrives(b)];
  }

  /** The first `k` blocks of a straight chain arrive at a new tree, while the miner waits or solves. */
  lemma RowArrives(env: Env, cfg: N.Config, tx: Transaction, pc: N.MinerPc, chain: seq<BlockNode>, k: nat,
                   nodes: seq<N.Node>, events: seq<N.Event>)
    returns (nodes': seq<N.Node>, events': seq<N.Event>, s': Store)
    requires Ends(env, cfg, nodes, events, Early(env, tx, W.NewStore(), pc)) && N.Disturb(pc) == pc
    requires Straight(env, chain, cfg.leadingZeroLenAcc) && k <= |chain|
    ensures Arrived(env, cfg, tx, pc, chain, k, nodes', events', s')
  {
    RowStart(env, chain, cfg.leadingZeroLenAcc);
    nodes', events', s' := nodes, events, W.NewStore();
    for i := 0 to k
      invariant Arrived(env, cfg, tx, pc, chain, i, nodes', events', s')
    {
      nodes', events', s' := OneArrives(env, cfg, tx, pc, chain, i, nodes', events', s');
    }
  }

  // ----- the node's own block hangs it -----

  lemma StuckStep(env: Env, cfg: N.Config, n: N.Node, pre: BlockNode, nonce: string)
    requires Inv(env, n.store.tree) && !n.hung && n.pc.PuzzleReady? && n.pc.pre == pre
    requires forall id | id in n.pool.txIds :: id in n.pool.txMap
    requires N.Solves(env, N.PuzzleString(env, pre), nonce, cfg.leadingZeroLen)
    requires !AddReturns(env, n.store, Delivery(N.Mined(env, pre, nonce), cfg.leadingZeroLenAcc))
    ensures N.NodeStep(env, cfg, n, N.MinerMoves, n.(hung := true, pc := N.Stuck))
  {
    assert N.BlockStep(env, cfg, n, N.Mined(env, pre, nonce), N.Waiting, N.Stuck, n.(hung := true, pc := N.Stuck));
  }

  /** The miner works on a block on the genesis block while seven blocks arrive. */
  lemma LateRun(env: Env, cfg: N.Config, tx: Transaction, chain: seq<BlockNode>)
    returns (nodes: seq<N.Node>, events: seq<N.Event>, s: Store, gapless: bool)
    requires env.verifySig(tx) && Straight(env, chain, cfg.leadingZeroLenAcc)
    ensures Ends(env, cfg, nodes, events,
                 Early(env, tx, s, N.PuzzleReady(OnePre(env, cfg, tx, ROOT_ID), true, gapless)))
    ensures RowStore(s, chain, |chain|)
  {
    W.EmptyRun(env);
    W.NewTreeChecked();
    assert PendingTxs(NewTree()) == [] by { assert Unfinalized(NewTree(), ROOT_ID) == []; }
    nodes, events := TxRun(env, cfg, tx);
    nodes, events := ReadRun(env, cfg, tx, nodes, events, W.NewStore());
    nodes, events, gapless := AssembleRun(env, cfg, tx, nodes, events, W.NewStore(), ROOT_ID, true);
    nodes, events, s := RowArrives(env, cfg, tx, N.PuzzleReady(OnePre(env, cfg, tx, ROOT_ID), true, gapless),
                                   chain, |chain|, nodes, events);
  }

  /** The node's own miner hangs the node: it works on a block on the genesis block while seven blocks
      arrive; its solution is valid, and adding it does not return. */
  lemma OwnBlockHangs(env: Env, cfg: N.Config, tx: Transaction, chain: seq<BlockNode>, nonce: string)
    returns (nodes: seq<N.Node>, events: seq<N.Event>)
    requires env.verifySig(tx) && Straight(env, chain, cfg.leadingZeroLenAcc) && |chain| == CONFIRMATIONS + 1
    requires cfg.leadingZeroLenAcc <= cfg.leadingZeroLen
    requires N.Solves(env, N.PuzzleString(env, OnePre(env, cfg, tx, ROOT_ID)), nonce, cfg.leadingZeroLen)
    requires !InRow(chain, |chain|, Id(N.Mined(env, OnePre(env, cfg, tx, ROOT_ID), nonce)))
    ensures N.NodeRun(env, cfg, nodes, events)
    ensures nodes[|events|].hung && nodes[|events|].pc == N.Stuck
  {
    var s, gapless;
    nodes, events, s, gapless := LateRun(env, cfg, tx, chain);
    var pre := OnePre(env, cfg, tx, ROOT_ID);
    var n := Early(env, tx, s, N.PuzzleReady(pre, true, gapless));
    EndsInv(env, cfg, nodes, events, n);
    RowFinalized(env, s.tree, chain, |chain|);
    N.MinedBlockIsValid(env, cfg, nodes, events, |events|, nonce);
    LateBlockHangs(env, s, Delivery(N.Mined(env, pre, nonce), cfg.leadingZeroLenAcc));
    StuckStep(env, cfg, n, pre, nonce);
    GoesOn(env, cfg, nodes, events, n, N.MinerMoves, n.(hung := true, pc := N.Stuck));
    nodes, events := nodes + [n.(hung := true, pc := N.Stuck)], events + [N.MinerMoves];
  }

  // ----- a gap between the reads -----

  lemma {:induction false} NoTxsBackwards(seg: seq<BlockNode>)
    requires forall b | b in seg :: b.transactions == []
    ensures TxsBackwards(seg) == []
  {
    if seg != [] {
      assert seg[|seg| - 1] in seg;
      NoTxsBackwards(seg[..|seg| - 1]);
    }
  }

  /** Once the first block of the row is finalized, nothing is pending any more. */
  lemma RowNothingPending(t: Tree, chain: seq<BlockNode>)
    requires Sound(t) && IsRow(t, chain, |chain|) && |chain| > 0 && t.finalizedBlockId == Id(chain[0])
    requires forall i | 1 <= i < |chain| :: chain[i].transactions == []
    ensures PendingTxs(t) == []
  {
    RowAt(t, chain, |chain|, 0);
    var seg := Unfinalized(t, t.workingBlockId);
    assert seg == ([GenesisBlock()] + chain[..|chain|])[2..];
    forall b | b in seg ensures b.transactions == [] {
      var i :| 0 <= i < |seg| && seg[i] == b;
      assert b == chain[i + 1];
    }
    NoTxsBackwards(seg);
  }

  /** Six blocks arrive, the first with the transaction; the miner reads its parent, the sixth; the seventh
      arrives and finalizes the first. */
  lemma GapRun(env: Env, cfg: N.Config, tx: Transaction, chain: seq<BlockNode>)
    returns (nodes: seq<N.Node>, events: seq<N.Event>, s: Store)
    requires env.verifySig(tx) && Straight(env, chain, cfg.leadingZeroLenAcc) && |chain| == CONFIRMATIONS + 1
    ensures Ends(env, cfg, nodes, events, Early(env, tx, s, N.WorkingRead(Id(chain[CONFIRMATIONS - 1]), false)))
    ensures RowStore(s, chain, |chain|)
  {
    var nodes1, events1 := TxRun(env, cfg, tx);
    var nodes2, events2, s2 := RowArrives(env, cfg, tx, N.Waiting, chain, CONFIRMATIONS, nodes1, events1);
    nodes, events, s := ReadThenSeventh(env, cfg, tx, nodes2, events2, s2, chain);
  }

  lemma ReadThenSeventh(env: Env, cfg: N.Config, tx: Transaction, nodes: seq<N.Node>, events: seq<N.Event>, s: Store,
                        chain: seq<BlockNode>)
    returns (nodes': seq<N.Node>, events': seq<N.Event>, s': Store)
    requires Straight(env, chain, cfg.leadingZeroLenAcc) && |chain| == CONFIRMATIONS + 1
    requires Arrived(env, cfg, tx, N.Waiting, chain, CONFIRMATIONS, nodes, events, s)
    ensures Arrived(env, cfg, tx, N.WorkingRead(Id(chain[CONFIRMATIONS - 1]), false), chain, |chain|,
                    nodes', events', s')
  {
    var pc := N.WorkingRead(Id(chain[CONFIRMATIONS - 1]), true);
    var nodes1, events1 := ReadSixth(env, cfg, tx, nodes, events, s, chain);
    nodes', events', s' := OneArrives(env, cfg, tx, pc, chain, CONFIRMATIONS, nodes1, events1, s);
  }

  lemma ReadSixth(env: Env, cfg: N.Config, tx: Transaction, nodes: seq<N.Node>, events: seq<N.Event>, s: Store,
                  chain: seq<BlockNode>)
    returns (nodes': seq<N.Node>, events': seq<N.Event>)
    requires Ends(env, cfg, nodes, events, Early(env, tx, s, N.Waiting))
    requires |chain| == CONFIRMATIONS + 1 && RowStore(s, chain, CONFIRMATIONS)
    ensures Ends(env, cfg, nodes', events', Early(env, tx, s, N.WorkingRead(Id(chain[CONFIRMATIONS - 1]), true)))
  {
    EndsInv(env, cfg, nodes, events, Early(env, tx, s, N.Waiting));
    RowNotFinalized(env, s.tree, chain, CONFIRMATIONS);
    RowEnd(s.tree, chain, CONFIRMATIONS);
    nodes', events' := ReadRun(env, cfg, tx, nodes, events, s);
  }

  lemma RowEnd(t: Tree, chain: seq<BlockNode>, k: nat)
    requires Sound(t) && 0 < k <= |chain| && IsRow(t, chain, k)
    ensures t.workingBlockId == Id(chain[k - 1])
  {
    RowAt(t, chain, k, k - 1);
    assert Path(t.forest, t.workingBlockId)[k].header.blockId == t.workingBlockId;
  }

  /** A transaction is repeated: between the miner's reads of the parent and of the pending transactions a
      seventh block finalizes the first, whose transaction is then neither removed nor pending, and which
      is an ancestor of the block assembled with that transaction. */
  lemma GapRepeats(env: Env, cfg: N.Config, tx: Transaction, chain: seq<BlockNode>)
    returns (nodes: seq<N.Node>, events: seq<N.Event>)
    requires env.verifySig(tx) && Straight(env, chain, cfg.leadingZeroLenAcc) && |chain| == CONFIRMATIONS + 1
    requires chain[0].transactions == [tx]
    ensures N.NodeRun(env, cfg, nodes, events) && nodes[|events|].pc.PuzzleReady?
    ensures var t, pre := nodes[|events|].store.tree, nodes[|events|].pc.pre;
            && Rooted(t.forest) && pre.header.parent in t.forest.allBlocks
            && !FreshOn(Path(t.forest, pre.header.parent), pre.transactions)
  {
    var s, gapless;
    nodes, events, s := GapRun(env, cfg, tx, chain);
    var parent := Id(chain[CONFIRMATIONS - 1]);
    EndsInv(env, cfg, nodes, events, Early(env, tx, s, N.WorkingRead(parent, false)));
    RowFinalized(env, s.tree, chain, |chain|);
    RowNothingPending(s.tree, chain);
    nodes, events, gapless := AssembleRun(env, cfg, tx, nodes, events, s, parent, false);
    RowRepeats(s.tree, chain, tx);
  }

  lemma RowRepeats(t: Tree, chain: seq<BlockNode>, tx: Transaction)
    requires Sound(t) && IsRow(t, chain, |chain|) && |chain| == CONFIRMATIONS + 1 && chain[0].transactions == [tx]
    ensures Id(chain[CONFIRMATIONS - 1]) in t.forest.allBlocks
    ensures !FreshOn(Path(t.forest, Id(chain[CONFIRMATIONS - 1])), [tx])
  {
    RowAt(t, chain, |chain|, CONFIRMATIONS - 1);
    RowAt(t, chain, |chain|, 0);
    PathPrefix(t.forest, t.workingBlockId, CONFIRMATIONS);
    var path := Path(t.forest, Id(chain[CONFIRMATIONS - 1]));
    assert path[1] == chain[0];
    assert tx in path[1].transactions && tx in [tx];
  }
}
