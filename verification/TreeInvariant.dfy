/** Linking an accepted block keeps the invariant of the tree and moves finality exactly as the
    six-deep rule says. */
module TreeInvariant {
  import opened Basics
  import opened Types
  import opened Balances
  import opened Forests
  import opened Trees

  /** What the checks of an accepted block establish. */
  ghost predicate Linkable(t: Tree, b: BlockNode)
    requires Rooted(t.forest) && t.finalizedBlockId in t.forest.allBlocks
  {
    && Attachable(t.forest, b)
    && Extends(t, b.header.parent)
    && AncestryOk(t.forest, b.header.merkleRoot, b.header.parent)
  }

  lemma NewTreeInv(env: Env)
    ensures Inv(env, NewTree())
  {
    var t := NewTree();
    assert Rooted(t.forest);
    assert Path(t.forest, ROOT_ID) == [GenesisBlock()];
    assert TxIdsOf(env, [GenesisBlock()]) == {};
  }

  // ----- the parts of the invariant one by one -----

  lemma GrowListed(fo: Forest, cm: map<BlockId, seq<BlockId>>, b: BlockNode)
    requires Rooted(fo) && Attachable(fo, b) && ListedAreChildren(fo, cm)
    ensures ListedAreChildren(Extend(fo, b),
                              cm[b.header.parent := ChildrenOf(cm, b.header.parent) + [b.header.blockId]])
  {
    var fo', p, id := Extend(fo, b), b.header.parent, b.header.blockId;
    var before := ChildrenOf(cm, p);
    var cm' := cm[p := before + [id]];
    assert id !in before;
    forall q | q in cm' ensures q in fo'.allBlocks && cm'[q] != [] && Distinct(cm'[q]) {
      if q != p { assert cm'[q] == cm[q]; }
    }
    forall q, c | q in cm' && c in cm'[q]
      ensures c in fo'.allBlocks && c != ROOT_ID && Parent(fo', c) == q
    {
      if c != id {
        assert c in ChildrenOf(cm, q);
        assert Parent(fo, c) == q;
      }
    }
  }

  lemma GrowChildren(fo: Forest, cm: map<BlockId, seq<BlockId>>, b: BlockNode)
    requires Rooted(fo) && Attachable(fo, b) && ChildrenOk(fo, cm)
    ensures ChildrenOk(Extend(fo, b), cm[b.header.parent := ChildrenOf(cm, b.header.parent) + [b.header.blockId]])
  {
    var fo', p, id := Extend(fo, b), b.header.parent, b.header.blockId;
    var cm' := cm[p := ChildrenOf(cm, p) + [id]];
    GrowListed(fo, cm, b);
    forall x {:trigger Parent(fo', x)} | x in fo'.allBlocks && x != ROOT_ID
      ensures x in ChildrenOf(cm', Parent(fo', x))
    {
      if x != id { assert Parent(fo, x) == Parent(fo', x); }
    }
  }

  lemma ExtendMerkleRoots(fo: Forest, b: BlockNode)
    requires Rooted(fo) && Attachable(fo, b) && MerkleRootsDistinct(fo)
    requires AncestryOk(fo, b.header.merkleRoot, b.header.parent)
    ensures Rooted(Extend(fo, b)) && MerkleRootsDistinct(Extend(fo, b))
  {
    var fo' := Extend(fo, b);
    ExtendNewPath(fo, b);
    forall id, i | id in fo'.allBlocks && 2 <= i < fo'.blockDepth[id]
      ensures Path(fo', id)[i].header.merkleRoot != fo'.allBlocks[id].header.merkleRoot
    {
      if id != b.header.blockId {
        ExtendPath(fo, b, id);
      }
    }
  }

  /** The finalized block is at or above the parent of a linkable block. */
  lemma LinkableBelow(t: Tree, b: BlockNode)
    requires Rooted(t.forest) && t.finalizedBlockId in t.forest.allBlocks && Linkable(t, b)
    ensures Path(t.forest, t.finalizedBlockId) <= Path(t.forest, b.header.parent)
  {
    RootAboveAll(t.forest, b.header.parent);
  }

  lemma NewPath(t: Tree, b: BlockNode)
    requires Rooted(t.forest) && t.finalizedBlockId in t.forest.allBlocks && Linkable(t, b)
    ensures Rooted(Extend(t.forest, b))
    ensures StrictlyAbove(Extend(t.forest, b), t.finalizedBlockId, b.header.blockId)
    ensures Path(Extend(t.forest, b), b.header.blockId) == Path(t.forest, b.header.parent) + [b]
  {
    LinkableBelow(t, b);
    ExtendNewPath(t.forest, b);
    ExtendPath(t.forest, b, t.finalizedBlockId);
    BelowPrefix(Extend(t.forest, b), t.finalizedBlockId, b.header.blockId, Path(t.forest, b.header.parent), b);
  }

  /** Six steps up from a strict descendant of the finalized block: a child of the finalized block is
      met on the way exactly if the descendant is at most six levels below. */
  lemma WalkMeetsFinalized(fo: Forest, f: BlockId, id: BlockId, n: nat)
    requires Rooted(fo) && f in fo.allBlocks && id in fo.allBlocks && StrictlyAbove(fo, f, id)
    ensures MeetsWithin(fo, f, id, n) <==> fo.blockDepth[id] <= fo.blockDepth[f] + n
  {
    AncestorAt(fo, f, id);
    if fo.blockDepth[id] <= fo.blockDepth[f] + n {
      var k := fo.blockDepth[id] - fo.blockDepth[f] - 1;
      StepAbove(fo, f, id, k);
      assert k < n;
    } else {
      forall k: nat | k < n ensures Parent(fo, Up(fo, id, k)) != f {
        StepNotAbove(fo, f, id, k);
      }
    }
  }

  lemma StepNotAbove(fo: Forest, f: BlockId, id: BlockId, k: nat)
    requires Rooted(fo) && f in fo.allBlocks && id in fo.allBlocks
    requires fo.blockDepth[id] > fo.blockDepth[f] + 1 + k
    ensures Parent(fo, Up(fo, id, k)) != f
  {
    UpOnPath(fo, id, k);
    PathPrefix(fo, id, fo.blockDepth[id] - k);
  }

  /** The ancestor whose parent is `f`. */
  lemma StepAbove(fo: Forest, f: BlockId, id: BlockId, k: nat)
    requires Rooted(fo) && f in fo.allBlocks && id in fo.allBlocks && StrictlyAbove(fo, f, id)
    requires fo.blockDepth[id] == fo.blockDepth[f] + 1 + k
    ensures Up(fo, id, k) != ROOT_ID && Parent(fo, Up(fo, id, k)) == f
    ensures fo.allBlocks[Up(fo, id, k)] == Path(fo, id)[fo.blockDepth[f] + 1]
  {
    UpOnPath(fo, id, k);
    ChildTowards(fo, f, id);
  }

  /** Finalization in closed form, for a block at most seven levels below the finalized one: seven
      levels advance it by one block, fewer leave it. */
  lemma FinalizeClosed(env: Env, t: Tree, id: BlockId)
    requires Rooted(t.forest) && ChildrenAreListed(t.forest, t.childrenMap)
    requires t.finalizedBlockId in t.forest.allBlocks && id in t.forest.allBlocks
    requires StrictlyAbove(t.forest, t.finalizedBlockId, id)
    ensures t.forest.blockDepth[id] <= t.forest.blockDepth[t.finalizedBlockId] + CONFIRMATIONS ==>
              Finalize(env, t, id) == t
    ensures t.forest.blockDepth[id] == t.forest.blockDepth[t.finalizedBlockId] + CONFIRMATIONS + 1 ==>
              Finalize(env, t, id) == Advance(env, t, Path(t.forest, id)[t.forest.blockDepth[t.finalizedBlockId] + 1])
  {
    var df, d := t.forest.blockDepth[t.finalizedBlockId], t.forest.blockDepth[id];
    if d <= df + CONFIRMATIONS {
      FinalizeStays(env, t, id);
    } else if d == df + CONFIRMATIONS + 1 {
      FinalizeMoves(env, t, id);
    }
  }

  lemma FinalizeStays(env: Env, t: Tree, id: BlockId)
    requires Rooted(t.forest) && t.finalizedBlockId in t.forest.allBlocks && id in t.forest.allBlocks
    requires StrictlyAbove(t.forest, t.finalizedBlockId, id)
    requires t.forest.blockDepth[id] <= t.forest.blockDepth[t.finalizedBlockId] + CONFIRMATIONS
    ensures Finalize(env, t, id) == t
  {
    WalkMeetsFinalized(t.forest, t.finalizedBlockId, id, CONFIRMATIONS);
  }

  lemma FinalizeMoves(env: Env, t: Tree, id: BlockId)
    requires Rooted(t.forest) && ChildrenAreListed(t.forest, t.childrenMap)
    requires t.finalizedBlockId in t.forest.allBlocks && id in t.forest.allBlocks
    requires StrictlyAbove(t.forest, t.finalizedBlockId, id)
    requires t.forest.blockDepth[id] == t.forest.blockDepth[t.finalizedBlockId] + CONFIRMATIONS + 1
    ensures Finalize(env, t, id)
         == Advance(env, t, Path(t.forest, id)[t.forest.blockDepth[t.finalizedBlockId] + 1])
  {
    WalkMeetsFinalized(t.forest, t.finalizedBlockId, id, CONFIRMATIONS);
    StepAbove(t.forest, t.finalizedBlockId, id, CONFIRMATIONS);
  }

  // ----- the effect of one link -----

  lemma LinkFrame(env: Env, t: Tree, b: BlockNode)
    requires Rooted(t.forest) && Attachable(t.forest, b)
    ensures Link(env, t, b).forest == Extend(t.forest, b)
    ensures Link(env, t, b).childrenMap
         == t.childrenMap[b.header.parent := ChildrenOf(t.childrenMap, b.header.parent) + [b.header.blockId]]
    ensures Link(env, t, b).workingBlockId == MaxId(Link(env, t, b).childrenMap[b.header.parent])
  {
  }

  /** What linking `b` does, without reference to the walk: the finalized block moves to its child on
      the path of `b` exactly when `b` is seven levels below it. */
  lemma LinkClosed(env: Env, t: Tree, b: BlockNode)
    requires Rooted(t.forest) && t.finalizedBlockId in t.forest.allBlocks && Linkable(t, b)
    requires ChildrenOk(t.forest, t.childrenMap)
    requires t.forest.blockDepth[b.header.parent] <= t.forest.blockDepth[t.finalizedBlockId] + CONFIRMATIONS
    ensures Link(env, t, b)
         == if t.forest.blockDepth[b.header.parent] < t.forest.blockDepth[t.finalizedBlockId] + CONFIRMATIONS
            then Grow(t, b)
            else Advance(env, Grow(t, b), Path(t.forest, b.header.parent)[t.forest.blockDepth[t.finalizedBlockId] + 1])
  {
    var t1, df := Grow(t, b), t.forest.blockDepth[t.finalizedBlockId];
    NewPath(t, b);
    GrowChildren(t.forest, t.childrenMap, b);
    assert t1.forest.blockDepth[t.finalizedBlockId] == df;
    assert t1.forest.blockDepth[b.header.blockId] == t.forest.blockDepth[b.header.parent] + 1;
    FinalizeClosed(env, t1, b.header.blockId);
    assert Path(t1.forest, b.header.blockId)[df + 1] == (Path(t.forest, b.header.parent) + [b])[df + 1];
  }

  /** The finalized block after a link: the same or its child, at or above the new block's parent. */
  lemma LinkFinalPath(env: Env, t: Tree, b: BlockNode)
    requires Rooted(t.forest) && SixDeep(t.forest, t.finalizedBlockId) && Linkable(t, b)
    requires ChildrenOk(t.forest, t.childrenMap)
    ensures var f, f', p := t.finalizedBlockId, Link(env, t, b).finalizedBlockId, b.header.parent;
            && f' in t.forest.allBlocks
            && Path(t.forest, f') <= Path(t.forest, p)
            && (if t.forest.blockDepth[p] < t.forest.blockDepth[f] + CONFIRMATIONS then f' == f
                else t.forest.blockDepth[p] == t.forest.blockDepth[f] + CONFIRMATIONS
                     && Path(t.forest, f') == Path(t.forest, f) + [t.forest.allBlocks[f']])
  {
    LinkClosed(env, t, b);
    LinkableBelow(t, b);
    if t.forest.blockDepth[b.header.parent] == t.forest.blockDepth[t.finalizedBlockId] + CONFIRMATIONS {
      ChildTowards(t.forest, t.finalizedBlockId, b.header.parent);
    }
  }

  lemma LinkSixDeep(env: Env, t: Tree, b: BlockNode)
    requires Rooted(t.forest) && SixDeep(t.forest, t.finalizedBlockId) && Linkable(t, b)
    requires ChildrenOk(t.forest, t.childrenMap)
    ensures Rooted(Extend(t.forest, b)) && SixDeep(Extend(t.forest, b), Link(env, t, b).finalizedBlockId)
  {
    LinkFinalPath(env, t, b);
    ExtendRooted(t.forest, b);
    ExtendSixDeep(t.forest, b, t.finalizedBlockId, Link(env, t, b).finalizedBlockId);
  }

  lemma ExtendSixDeep(fo: Forest, b: BlockNode, f: BlockId, f': BlockId)
    requires Rooted(fo) && SixDeep(fo, f) && Attachable(fo, b) && f' in fo.allBlocks && Rooted(Extend(fo, b))
    requires if fo.blockDepth[b.header.parent] < fo.blockDepth[f] + CONFIRMATIONS then f' == f
             else fo.blockDepth[b.header.parent] == fo.blockDepth[f] + CONFIRMATIONS
                  && fo.blockDepth[f'] == fo.blockDepth[f] + 1
    ensures SixDeep(Extend(fo, b), f')
  {
    var fo' := Extend(fo, b);
    assert forall id | id in fo.allBlocks :: fo'.blockDepth[id] == fo.blockDepth[id];
    if f' != f {
      assert fo'.blockDepth[b.header.blockId] == fo'.blockDepth[f'] + CONFIRMATIONS;
    } else if f != ROOT_ID {
      var x :| x in fo.allBlocks && fo.blockDepth[x] == fo.blockDepth[f] + CONFIRMATIONS;
      assert fo'.blockDepth[x] == fo'.blockDepth[f] + CONFIRMATIONS;
    }
  }

  lemma LinkLedger(env: Env, t: Tree, b: BlockNode)
    requires Rooted(t.forest) && SixDeep(t.forest, t.finalizedBlockId) && Linkable(t, b)
    requires ChildrenOk(t.forest, t.childrenMap)
    requires LedgerOk(env, t)
    ensures Rooted(Link(env, t, b).forest) && Link(env, t, b).finalizedBlockId in Link(env, t, b).forest.allBlocks
    ensures LedgerOk(env, Link(env, t, b))
  {
    var t', f, pp := Link(env, t, b), t.finalizedBlockId, Path(t.forest, b.header.parent);
    LinkableBelow(t, b);
    var df := t.forest.blockDepth[f];
    LinkFrame(env, t, b);
    LinkClosed(env, t, b);
    LinkFinalPath(env, t, b);
    ExtendPath(t.forest, b, t'.finalizedBlockId);
    if t.forest.blockDepth[b.header.parent] == df + CONFIRMATIONS {
      var pf, g := Path(t.forest, f), pp[df + 1];
      ChildTowards(t.forest, f, b.header.parent);
      assert (pf + [g])[..|pf + [g]| - 1] == pf;
      TxIdsExtend(env, pf, g);
    }
  }

  /** `w` is a child of `p`, and no other child has a larger id: where another first differs from it, `w` has
      the larger character, and no other extends it. */
  ghost predicate LargestChildOf(fo: Forest, p: BlockId, w: BlockId) {
    && w in fo.allBlocks && w != ROOT_ID && Parent(fo, w) == p
    && (forall c {:trigger Parent(fo, c)} | c in fo.allBlocks && c != ROOT_ID && Parent(fo, c) == p :: NotBelow(w, c))
  }

  lemma LargestChild(fo: Forest, cm: map<BlockId, seq<BlockId>>, p: BlockId)
    requires Rooted(fo) && ChildrenOk(fo, cm) && p in cm
    ensures LargestChildOf(fo, p, MaxId(cm[p]))
  {
    var w := MaxId(cm[p]);
    forall c {:trigger Parent(fo, c)} | c in fo.allBlocks && c != ROOT_ID && Parent(fo, c) == p
      ensures NotBelow(w, c)
    {
      assert c in ChildrenOf(cm, p);
      LargerWhereDifferent(c, w);
    }
  }

  /** The working block after a link is the child of the new block's parent with the largest id. */
  lemma LinkWorking(env: Env, t: Tree, b: BlockNode)
    requires Rooted(t.forest) && Attachable(t.forest, b) && ChildrenOk(t.forest, t.childrenMap)
    ensures Rooted(Extend(t.forest, b))
    ensures LargestChildOf(Extend(t.forest, b), b.header.parent, Link(env, t, b).workingBlockId)
  {
    var cm := Link(env, t, b).childrenMap;
    LinkFrame(env, t, b);
    GrowChildren(t.forest, t.childrenMap, b);
    ExtendRooted(t.forest, b);
    LargestChild(Extend(t.forest, b), cm, b.header.parent);
  }

  /** After a link the working block is a deepest block of the tree if and only if no other block is deeper
      than the new one. */
  lemma WorkingDeepestExactly(env: Env, t: Tree, b: BlockNode, m: nat)
    requires Rooted(t.forest) && ChildrenOk(t.forest, t.childrenMap) && Attachable(t.forest, b)
    requires IsMaxDepth(t.forest, m)
    ensures Link(env, t, b).workingBlockId in Link(env, t, b).forest.blockDepth
    ensures var t' := Link(env, t, b);
            IsMaxDepth(t'.forest, t'.forest.blockDepth[t'.workingBlockId])
            <==> t.forest.blockDepth[b.header.parent] + 1 >= m
  {
    WorkingDepth(env, t, b);
    DeepestAfter(t.forest, b, m);
  }

  lemma WorkingDepth(env: Env, t: Tree, b: BlockNode)
    requires Rooted(t.forest) && ChildrenOk(t.forest, t.childrenMap) && Attachable(t.forest, b)
    ensures var t' := Link(env, t, b);
            && t'.forest == Extend(t.forest, b) && t'.workingBlockId in t'.forest.blockDepth
            && t'.forest.blockDepth[t'.workingBlockId] == t.forest.blockDepth[b.header.parent] + 1
  {
    LinkWorking(env, t, b);
    LinkFrame(env, t, b);
  }

  lemma DeepestAfter(fo: Forest, b: BlockNode, m: nat)
    requires Rooted(fo) && Attachable(fo, b) && IsMaxDepth(fo, m)
    ensures IsMaxDepth(Extend(fo, b), fo.blockDepth[b.header.parent] + 1) <==> fo.blockDepth[b.header.parent] + 1 >= m
  {
    var fo' := Extend(fo, b);
    var deepest :| deepest in fo.blockDepth && fo.blockDepth[deepest] == m;
    assert fo'.blockDepth[deepest] == m && deepest in fo'.blockDepth;
    assert fo'.blockDepth[b.header.blockId] == fo.blockDepth[b.header.parent] + 1;
  }

  lemma LinkWorkingOk(env: Env, t: Tree, b: BlockNode)
    requires Rooted(t.forest) && SixDeep(t.forest, t.finalizedBlockId) && Linkable(t, b)
    requires ChildrenOk(t.forest, t.childrenMap)
    ensures var t' := Link(env, t, b);
            && t'.forest == Extend(t.forest, b) && Rooted(t'.forest)
            && t'.finalizedBlockId in t'.forest.allBlocks && t'.workingBlockId in t'.forest.allBlocks
            && StrictlyAbove(t'.forest, t'.finalizedBlockId, t'.workingBlockId)
            && StrictlyAbove(t'.forest, t'.finalizedBlockId, b.header.blockId)
  {
    var fo', f', w := Extend(t.forest, b), Link(env, t, b).finalizedBlockId, Link(env, t, b).workingBlockId;
    LinkWorking(env, t, b);
    LinkFinalPath(env, t, b);
    ExtendPath(t.forest, b, f');
    ExtendPath(t.forest, b, b.header.parent);
    ExtendNewPath(t.forest, b);
    assert Path(fo', w) == Path(fo', Parent(fo', w)) + [fo'.allBlocks[w]];
    BelowPrefix(fo', f', w, Path(t.forest, b.header.parent), fo'.allBlocks[w]);
    BelowPrefix(fo', f', b.header.blockId, Path(t.forest, b.header.parent), b);
  }

  /** Linking a block that passed the checks keeps the invariant. */
  lemma LinkKeepsInv(env: Env, t: Tree, b: BlockNode)
    requires Inv(env, t) && Linkable(t, b)
    ensures Inv(env, Link(env, t, b))
  {
    LinkSixDeep(env, t, b);
    LinkLedger(env, t, b);
    LinkWorkingOk(env, t, b);
    ExtendMerkleRoots(t.forest, b);
    GrowChildren(t.forest, t.childrenMap, b);
    LinkFrame(env, t, b);
  }

  // ----- what the invariant says -----

  ghost predicate IsMaxDepth(fo: Forest, m: nat) {
    && (exists id :: id in fo.blockDepth && fo.blockDepth[id] == m)
    && (forall id | id in fo.blockDepth :: fo.blockDepth[id] <= m)
  }

  lemma MaxDepthUpTo(fo: Forest, bound: nat) returns (m: nat)
    requires Rooted(fo)
    requires forall id | id in fo.blockDepth :: fo.blockDepth[id] <= bound
    ensures IsMaxDepth(fo, m)
  {
    m := bound;
    while !exists id :: id in fo.blockDepth && fo.blockDepth[id] == m
      invariant forall id | id in fo.blockDepth :: fo.blockDepth[id] <= m
      decreases m
    {
      assert fo.blockDepth[ROOT_ID] < m;
      m := m - 1;
    }
  }

  /** The finalized block is exactly six levels above the deepest block of the tree, forks included,
      or the genesis block while the tree is at most six levels deep. */
  lemma SixDeepFinality(env: Env, t: Tree) returns (m: nat)
    requires Inv(env, t)
    ensures IsMaxDepth(t.forest, m)
    ensures t.forest.blockDepth[t.finalizedBlockId] == if m > CONFIRMATIONS then m - CONFIRMATIONS else 0
  {
    m := MaxDepthUpTo(t.forest, t.forest.blockDepth[t.finalizedBlockId] + CONFIRMATIONS);
    if t.finalizedBlockId != ROOT_ID {
      assert t.forest.blockDepth[t.finalizedBlockId] > 0 by {
        assert Parent(t.forest, t.finalizedBlockId) in t.forest.allBlocks;
      }
    }
  }

  /** The finalized balances are the replay of the finalized path, and hold the genesis amount plus
      ten for each finalized block. */
  lemma LedgerConserved(env: Env, t: Tree)
    requires Inv(env, t)
    ensures t.finalizedBalanceMap == Replay(Path(t.forest, t.finalizedBlockId))
    ensures t.finalizedTxIds == TxIdsOf(env, Path(t.forest, t.finalizedBlockId))
    ensures Total(t.finalizedBalanceMap)
         == 299792458 + 10 * t.forest.blockDepth[t.finalizedBlockId]
  {
    ReplayConserves(Path(t.forest, t.finalizedBlockId));
  }

  /** After the first acceptance the working block is one to six levels below the finalized block, so
      the pending walk takes at most six steps. */
  lemma WorkingDistance(env: Env, t: Tree)
    requires Inv(env, t) && t.forest.allBlocks.Keys != {ROOT_ID}
    ensures StrictlyAbove(t.forest, t.finalizedBlockId, t.workingBlockId)
    ensures 1 <= t.forest.blockDepth[t.workingBlockId] - t.forest.blockDepth[t.finalizedBlockId] <= 6
    ensures |Unfinalized(t, t.workingBlockId)|
         == t.forest.blockDepth[t.workingBlockId] - t.forest.blockDepth[t.finalizedBlockId]
  {
    AncestorAt(t.forest, t.finalizedBlockId, t.workingBlockId);
  }

  /** Whenever the six steps complete, the block they end at is a child of the finalized block, so the
      children test that follows never fails. */
  lemma ChildrenTestSucceeds(env: Env, t: Tree, b: BlockNode)
    requires Inv(env, t) && Linkable(t, b)
    ensures Rooted(Extend(t.forest, b))
    ensures !MeetsWithin(Extend(t.forest, b), t.finalizedBlockId, b.header.blockId, CONFIRMATIONS) ==>
              Up(Extend(t.forest, b), b.header.blockId, CONFIRMATIONS)
                in ChildrenOf(Grow(t, b).childrenMap, t.finalizedBlockId)
  {
    var fo', f, id := Extend(t.forest, b), t.finalizedBlockId, b.header.blockId;
    NewPath(t, b);
    GrowChildren(t.forest, t.childrenMap, b);
    WalkMeetsFinalized(fo', f, id, CONFIRMATIONS);
    if fo'.blockDepth[id] > fo'.blockDepth[f] + CONFIRMATIONS {
      StepAbove(fo', f, id, CONFIRMATIONS);
    }
  }

  /** The shape of every tree: walking up from a block reaches the genesis block in exactly as many
      steps as its depth, `childrenMap` lists a block under its parent and nowhere else, once, and no
      two blocks of depth 2 or more on one path share a Merkle root. */
  lemma TreeWellFormed(env: Env, t: Tree, id: BlockId, n: nat)
    requires Inv(env, t) && id in t.forest.allBlocks
    ensures Up(t.forest, id, n) == ROOT_ID <==> n >= t.forest.blockDepth[id]
    ensures forall p :: id in ChildrenOf(t.childrenMap, p) <==> id != ROOT_ID && p == Parent(t.forest, id)
    ensures forall p | p in t.childrenMap :: Distinct(t.childrenMap[p])
    ensures forall i, j | 2 <= i < j <= t.forest.blockDepth[id] ::
              Path(t.forest, id)[i].header.merkleRoot != Path(t.forest, id)[j].header.merkleRoot
  {
    UpToRoot(t.forest, id, n);
    ListedUnderParent(t.forest, t.childrenMap, id);
    forall i, j | 2 <= i < j <= t.forest.blockDepth[id]
      ensures Path(t.forest, id)[i].header.merkleRoot != Path(t.forest, id)[j].header.merkleRoot
    {
      RootsDiffer(t.forest, id, i, j);
    }
  }

  lemma UpToRoot(fo: Forest, id: BlockId, n: nat)
    requires Rooted(fo) && id in fo.allBlocks
    ensures Up(fo, id, n) == ROOT_ID <==> n >= fo.blockDepth[id]
  {
    UpOnPath(fo, id, n);
    if n < fo.blockDepth[id] {
      PathPrefix(fo, id, fo.blockDepth[id] - n);
    }
  }

  lemma ListedUnderParent(fo: Forest, cm: map<BlockId, seq<BlockId>>, id: BlockId)
    requires Rooted(fo) && ChildrenOk(fo, cm) && id in fo.allBlocks
    ensures forall p :: id in ChildrenOf(cm, p) <==> id != ROOT_ID && p == Parent(fo, id)
    ensures forall p | p in cm :: Distinct(cm[p])
  {
  }

  lemma RootsDiffer(fo: Forest, id: BlockId, i: nat, j: nat)
    requires Rooted(fo) && MerkleRootsDistinct(fo) && id in fo.allBlocks && 2 <= i < j <= fo.blockDepth[id]
    ensures Path(fo, id)[i].header.merkleRoot != Path(fo, id)[j].header.merkleRoot
  {
    PathPrefix(fo, id, j);
    var a := Path(fo, id)[j].header.blockId;
    assert Path(fo, a)[i] == Path(fo, id)[i];
  }

  /** A block on the working block always passes the walk of the balance check. */
  lemma WorkingExtends(env: Env, t: Tree)
    requires Inv(env, t)
    ensures Extends(t, t.workingBlockId)
  {
  }
}
