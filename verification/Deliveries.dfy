/** `add_block` as a relation between states (the order in which buffered orphans are visited is
    left open), runs of deliveries, and what every run keeps. */
module Deliveries {
  import opened Types
  import opened Forests
  import opened Trees
  import opened TreeInvariant

  datatype Store = Store(tree: Tree, orphans: map<BlockId, BlockNode>)

  datatype Delivery = Delivery(block: BlockNode, leadingZeroLen: nat)

  /** The checks on `b` end: a block that gets as far as the balance check extends the finalized block. */
  ghost predicate ChecksReturn(env: Env, t: Tree, b: BlockNode, leadingZeroLen: nat)
    requires Sound(t)
  {
    b.header.blockId !in t.forest.allBlocks && BlockIntegrity(env, b, leadingZeroLen)
    && b.header.parent in t.forest.allBlocks && AncestryOk(t.forest, b.header.merkleRoot, b.header.parent)
    ==> Extends(t, b.header.parent)
  }

  ghost predicate AddReturns(env: Env, s: Store, d: Delivery)
    requires Sound(s.tree)
  {
    d.block.header.blockId !in s.orphans ==> ChecksReturn(env, s.tree, d.block, d.leadingZeroLen)
  }

  ghost predicate HasOrphanChild(orphans: map<BlockId, BlockNode>, p: BlockId) {
    exists k :: k in orphans && orphans[k].header.parent == p
  }

  /** Adding `b` to `s` may end in `s'`, having accepted the blocks `acc`, in that order. */
  ghost predicate AddOrphanBlock(env: Env, s: Store, b: BlockNode, leadingZeroLen: nat, acc: seq<BlockNode>, s': Store)
    requires Inv(env, s.tree) && ChecksReturn(env, s.tree, b, leadingZeroLen)
    decreases |acc|, 0
  {
    if b.header.blockId in s.tree.forest.allBlocks || !BlockIntegrity(env, b, leadingZeroLen) then
      acc == [] && s' == s
    else if b.header.parent !in s.tree.forest.allBlocks then
      acc == [] && s' == s.(orphans := s.orphans[b.header.blockId := b])
    else if !Accepts(s.tree, b) then
      acc == [] && s' == s
    else
      LinkKeepsInv(env, s.tree, b);
      LinkWorkingOk(env, s.tree, b);
      acc != [] && acc[0] == b
      && AttachOne(env, Store(Link(env, s.tree, b), s.orphans), b.header.blockId, leadingZeroLen, acc[1..], s')
  }

  /** One buffered child of the block `p`, if there is any, is added in turn; then `p` leaves the buffer. */
  ghost predicate AttachOne(env: Env, s: Store, p: BlockId, leadingZeroLen: nat, acc: seq<BlockNode>, s': Store)
    requires Inv(env, s.tree) && p in s.tree.forest.allBlocks && Extends(s.tree, p)
    decreases |acc|, 1
  {
    if HasOrphanChild(s.orphans, p) then
      exists k, s2 :: k in s.orphans && s.orphans[k].header.parent == p
                   && AddOrphanBlock(env, s, s.orphans[k], leadingZeroLen, acc, s2)
                   && s' == s2.(orphans := s2.orphans - {p})
    else
      acc == [] && s' == s
  }

  ghost predicate AddBlock(env: Env, s: Store, d: Delivery, acc: seq<BlockNode>, s': Store)
    requires Inv(env, s.tree) && AddReturns(env, s, d)
  {
    if d.block.header.blockId in s.tree.forest.allBlocks || d.block.header.blockId in s.orphans then
      acc == [] && s' == s
    else
      AddOrphanBlock(env, s, d.block, d.leadingZeroLen, acc, s')
  }

  /** `AddReturns` is exactly the absence of a hang: for a block that reaches the balance check, the
      reward walk from its parent meets a child of the finalized block at some step iff the parent
      is a strict descendant of the finalized block or that is still the genesis block. */
  lemma AddReturnsExactly(env: Env, s: Store, d: Delivery)
    requires Sound(s.tree)
    requires d.block.header.parent in s.tree.forest.allBlocks
    ensures AddReturns(env, s, d) <==>
              (d.block.header.blockId !in s.orphans && d.block.header.blockId !in s.tree.forest.allBlocks
               && BlockIntegrity(env, d.block, d.leadingZeroLen)
               && AncestryOk(s.tree.forest, d.block.header.merkleRoot, d.block.header.parent)
               ==> exists n: nat ::
                     Parent(s.tree.forest, Up(s.tree.forest, d.block.header.parent, n)) == s.tree.finalizedBlockId)
  {
    ParentWalkEnds(s.tree.forest, s.tree.finalizedBlockId, d.block.header.parent);
  }

  // ----- a delivery is a sequence of links -----

  /** Linking the blocks one after another, each passing the checks against the tree it finds. */
  ghost predicate LinkRun(env: Env, t: Tree, acc: seq<BlockNode>, t': Tree)
    requires Inv(env, t)
    decreases |acc|
  {
    if acc == [] then t' == t
    else
      && Attachable(t.forest, acc[0]) && Extends(t, acc[0].header.parent) && Accepts(t, acc[0])
      && (LinkKeepsInv(env, t, acc[0]); LinkRun(env, Link(env, t, acc[0]), acc[1..], t'))
  }

  lemma {:induction false} AddOrphanIsLinkRun(env: Env, s: Store, b: BlockNode, leadingZeroLen: nat,
                                              acc: seq<BlockNode>, s': Store)
    requires Inv(env, s.tree) && ChecksReturn(env, s.tree, b, leadingZeroLen)
    requires AddOrphanBlock(env, s, b, leadingZeroLen, acc, s')
    ensures LinkRun(env, s.tree, acc, s'.tree)
    decreases |acc|
  {
    if acc != [] {
      LinkKeepsInv(env, s.tree, b);
      LinkWorkingOk(env, s.tree, b);
      var s1, p := Store(Link(env, s.tree, b), s.orphans), b.header.blockId;
      if HasOrphanChild(s1.orphans, p) {
        var k, s2 :| k in s1.orphans && s1.orphans[k].header.parent == p
                     && AddOrphanBlock(env, s1, s1.orphans[k], leadingZeroLen, acc[1..], s2)
                     && s' == s2.(orphans := s2.orphans - {p});
        AddOrphanIsLinkRun(env, s1, s1.orphans[k], leadingZeroLen, acc[1..], s2);
      }
    }
  }

  // ----- what links keep -----

  /** Blocks stay, and the finalized block only moves down, at most one block per accepted block. */
  ghost predicate Evolves(t: Tree, t': Tree, accepted: nat)
    requires Rooted(t.forest) && t.finalizedBlockId in t.forest.allBlocks
    requires Rooted(t'.forest) && t'.finalizedBlockId in t'.forest.allBlocks
  {
    && Grows(t.forest, t'.forest)
    && Path(t.forest, t.finalizedBlockId) <= Path(t'.forest, t'.finalizedBlockId)
    && |Path(t'.forest, t'.finalizedBlockId)| <= |Path(t.forest, t.finalizedBlockId)| + accepted
  }

  lemma LinkEvolves(env: Env, t: Tree, b: BlockNode)
    requires Rooted(t.forest) && SixDeep(t.forest, t.finalizedBlockId) && ChildrenOk(t.forest, t.childrenMap)
    requires Linkable(t, b)
    ensures Rooted(Link(env, t, b).forest) && Link(env, t, b).finalizedBlockId in Link(env, t, b).forest.allBlocks
    ensures Evolves(t, Link(env, t, b), 1)
  {
    LinkFrame(env, t, b);
    LinkFinalPath(env, t, b);
    FinalityFrame(t.forest, b, t.finalizedBlockId, Link(env, t, b).finalizedBlockId);
  }

  lemma FinalityFrame(fo: Forest, b: BlockNode, f: BlockId, f': BlockId)
    requires Rooted(fo) && Attachable(fo, b) && f in fo.allBlocks && f' in fo.allBlocks
    requires f' == f || Path(fo, f') == Path(fo, f) + [fo.allBlocks[f']]
    ensures Rooted(Extend(fo, b)) && Grows(fo, Extend(fo, b))
    ensures Path(fo, f) <= Path(Extend(fo, b), f')
    ensures |Path(Extend(fo, b), f')| <= |Path(fo, f)| + 1
  {
    ExtendPath(fo, b, f');
  }

  lemma {:induction false} LinkRunEvolves(env: Env, t: Tree, acc: seq<BlockNode>, t': Tree)
    requires Inv(env, t) && LinkRun(env, t, acc, t')
    ensures Inv(env, t') && Evolves(t, t', |acc|)
    decreases |acc|
  {
    if acc != [] {
      LinkKeepsInv(env, t, acc[0]);
      LinkEvolves(env, t, acc[0]);
      LinkRunEvolves(env, Link(env, t, acc[0]), acc[1..], t');
      EvolvesOn(t, Link(env, t, acc[0]), t', |acc| - 1);
    }
  }

  lemma EvolvesOn(t: Tree, t1: Tree, t2: Tree, accepted: nat)
    requires Rooted(t.forest) && t.finalizedBlockId in t.forest.allBlocks
    requires Rooted(t1.forest) && t1.finalizedBlockId in t1.forest.allBlocks
    requires Rooted(t2.forest) && t2.finalizedBlockId in t2.forest.allBlocks
    requires Evolves(t, t1, 1) && Evolves(t1, t2, accepted)
    ensures Evolves(t, t2, 1 + accepted)
  {
  }

  lemma AddBlockEvolves(env: Env, s: Store, d: Delivery, acc: seq<BlockNode>, s': Store)
    requires Inv(env, s.tree) && AddReturns(env, s, d) && AddBlock(env, s, d, acc, s')
    ensures LinkRun(env, s.tree, acc, s'.tree)
    ensures Inv(env, s'.tree) && Evolves(s.tree, s'.tree, |acc|)
  {
    if d.block.header.blockId !in s.tree.forest.allBlocks && d.block.header.blockId !in s.orphans {
      AddOrphanIsLinkRun(env, s, d.block, d.leadingZeroLen, acc, s');
    }
    LinkRunEvolves(env, s.tree, acc, s'.tree);
  }

  // ----- runs -----

  /** The relation is only defined on trees that satisfy the invariant; a step from any other tree is
      left unconstrained here, and `RunKeepsInv` shows there is none. */
  ghost predicate Step(env: Env, s: Store, d: Delivery, acc: seq<BlockNode>, s': Store) {
    Inv(env, s.tree) ==> AddReturns(env, s, d) && AddBlock(env, s, d, acc, s')
  }

  /** A new block tree receives the deliveries one after another; `accs[i]` is what delivery `i` added. */
  ghost predicate Run(env: Env, states: seq<Store>, ds: seq<Delivery>, accs: seq<seq<BlockNode>>) {
    && |states| == |ds| + 1 && |accs| == |ds|
    && states[0] == Store(NewTree(), map[])
    && forall i: nat {:trigger StepAt(env, states, ds, accs, i)} | i < |ds| :: StepAt(env, states, ds, accs, i)
  }

  ghost predicate StepAt(env: Env, states: seq<Store>, ds: seq<Delivery>, accs: seq<seq<BlockNode>>, i: nat)
    requires |states| == |ds| + 1 && |accs| == |ds| && i < |ds|
  {
    Step(env, states[i], ds[i], accs[i], states[i + 1])
  }

  /** Every state of every run satisfies the invariant. */
  lemma {:induction false} RunKeepsInv(env: Env, states: seq<Store>, ds: seq<Delivery>, accs: seq<seq<BlockNode>>,
                                       i: nat)
    requires Run(env, states, ds, accs) && i < |states|
    ensures Inv(env, states[i].tree)
  {
    if i == 0 {
      NewTreeInv(env);
    } else {
      RunKeepsInv(env, states, ds, accs, i - 1);
      assert StepAt(env, states, ds, accs, i - 1);
      AddBlockEvolves(env, states[i - 1], ds[i - 1], accs[i - 1], states[i]);
    }
  }

  /** Every block of `t` is in `t'`, unchanged, and what `t` has finalized `t'` has finalized too. */
  ghost predicate Supersedes(t': Tree, t: Tree) {
    && Rooted(t.forest) && t.finalizedBlockId in t.forest.allBlocks
    && Rooted(t'.forest) && t'.finalizedBlockId in t'.forest.allBlocks
    && Grows(t.forest, t'.forest)
    && OnPath(t'.forest, t.finalizedBlockId, t'.finalizedBlockId)
  }

  lemma SupersedesTransitive(t1: Tree, t2: Tree, t3: Tree)
    requires Supersedes(t2, t1) && Supersedes(t3, t2)
    ensures Supersedes(t3, t1)
  {
    PathStable(t2.forest, t3.forest, t1.finalizedBlockId);
    PathStable(t2.forest, t3.forest, t2.finalizedBlockId);
  }

  lemma EvolvesSupersedes(t: Tree, t': Tree, accepted: nat)
    requires Rooted(t.forest) && t.finalizedBlockId in t.forest.allBlocks
    requires Rooted(t'.forest) && t'.finalizedBlockId in t'.forest.allBlocks
    requires Evolves(t, t', accepted)
    ensures Supersedes(t', t)
  {
    PathStable(t.forest, t'.forest, t.finalizedBlockId);
  }

  lemma RunSupersedesItself(env: Env, states: seq<Store>, ds: seq<Delivery>, accs: seq<seq<BlockNode>>, i: nat)
    requires Run(env, states, ds, accs) && i < |states|
    ensures Supersedes(states[i].tree, states[i].tree)
  {
    RunKeepsInv(env, states, ds, accs, i);
  }

  lemma RunStepSupersedes(env: Env, states: seq<Store>, ds: seq<Delivery>, accs: seq<seq<BlockNode>>, i: nat)
    requires Run(env, states, ds, accs) && i < |ds|
    ensures Supersedes(states[i + 1].tree, states[i].tree)
  {
    RunKeepsInv(env, states, ds, accs, i);
    assert StepAt(env, states, ds, accs, i);
    AddBlockEvolves(env, states[i], ds[i], accs[i], states[i + 1]);
    EvolvesSupersedes(states[i].tree, states[i + 1].tree, |accs[i]|);
  }

  lemma RunStepLinks(env: Env, states: seq<Store>, ds: seq<Delivery>, accs: seq<seq<BlockNode>>, i: nat)
    requires Run(env, states, ds, accs) && i < |ds|
    ensures Inv(env, states[i].tree) && LinkRun(env, states[i].tree, accs[i], states[i + 1].tree)
  {
    RunKeepsInv(env, states, ds, accs, i);
    assert StepAt(env, states, ds, accs, i);
    AddBlockEvolves(env, states[i], ds[i], accs[i], states[i + 1]);
  }

  /** Along any run the finalized block of an earlier state is the finalized block of a later one or
      an ancestor of it, and no stored block is ever lost or changed. */
  lemma {:induction false} FinalityNeverRevoked(env: Env, states: seq<Store>, ds: seq<Delivery>,
                                                accs: seq<seq<BlockNode>>, i: nat, j: nat)
    requires Run(env, states, ds, accs) && i <= j < |states|
    ensures Supersedes(states[j].tree, states[i].tree)
    decreases j
  {
    if i == j {
      RunSupersedesItself(env, states, ds, accs, i);
    } else {
      FinalityNeverRevoked(env, states, ds, accs, i, j - 1);
      RunStepSupersedes(env, states, ds, accs, j - 1);
      SupersedesTransitive(states[i].tree, states[j - 1].tree, states[j].tree);
    }
  }
}
