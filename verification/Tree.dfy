/** What the block tree computes, as functions and relations on values: the validity checks, linking
    a block, six-deep finalization, and `add_block` with its attachment of one chain of orphans. */
module Trees {
  import opened Basics
  import opened Types
  import opened Balances
  import opened Forests

  datatype Tree = Tree(
    forest: Forest,
    childrenMap: map<BlockId, seq<BlockId>>,
    workingBlockId: BlockId,
    finalizedBlockId: BlockId,
    finalizedBalanceMap: BalanceMap,
    finalizedTxIds: set<TxId>)

  const CONFIRMATIONS := 6

  function NewTree(): Tree {
    Tree(Forest(map[ROOT_ID := GenesisBlock()], map[ROOT_ID := 0]), map[], ROOT_ID, ROOT_ID, GenesisBalances(), {})
  }

  // ----- what the operations rely on -----

  /** The finalized and the working block are stored, the latter at or below the former. */
  ghost predicate Sound(t: Tree) {
    && Rooted(t.forest)
    && t.finalizedBlockId in t.forest.allBlocks
    && t.workingBlockId in t.forest.allBlocks
    && OnPath(t.forest, t.finalizedBlockId, t.workingBlockId)
  }

  /** The condition under which the reward walk from `p` ends (see `AddReturnsExactly`). */
  ghost predicate Extends(t: Tree, p: BlockId)
    requires Rooted(t.forest) && t.finalizedBlockId in t.forest.allBlocks && p in t.forest.allBlocks
  {
    t.finalizedBlockId == ROOT_ID || StrictlyAbove(t.forest, t.finalizedBlockId, p)
  }

  // ----- the checks -----

  /** No ancestor-or-self of `p` at depth 2 or more has this Merkle root. */
  ghost predicate AncestryOk(fo: Forest, merkleRoot: string, p: BlockId)
    requires Rooted(fo) && p in fo.allBlocks
  {
    forall i | 2 <= i <= fo.blockDepth[p] :: Path(fo, p)[i].header.merkleRoot != merkleRoot
  }

  /** The part of the path to `id` that is not finalized. */
  ghost function Unfinalized(t: Tree, id: BlockId): seq<BlockNode>
    requires Rooted(t.forest) && t.finalizedBlockId in t.forest.allBlocks && id in t.forest.allBlocks
  {
    if OnPath(t.forest, t.finalizedBlockId, id)
    then Path(t.forest, id)[t.forest.blockDepth[t.finalizedBlockId] + 1..]
    else []
  }

  /** The transactions of a path segment, last block first. */
  ghost function TxsBackwards(seg: seq<BlockNode>): seq<Transaction> {
    if seg == [] then [] else seg[|seg| - 1].transactions + TxsBackwards(seg[..|seg| - 1])
  }

  /** Blocks from the last to the first; within a block the transactions keep their order. */
  lemma {:induction false} TxsBackwardsOrder(b: BlockNode, rest: seq<BlockNode>)
    ensures TxsBackwards([]) == [] && TxsBackwards([b] + rest) == TxsBackwards(rest) + b.transactions
  {
    var seg := [b] + rest;
    if rest == [] {
      assert seg[..0] == [] && b.transactions + [] == b.transactions;
    } else {
      assert seg[..|seg| - 1] == [b] + rest[..|rest| - 1];
      TxsBackwardsOrder(b, rest[..|rest| - 1]);
    }
  }

  ghost function PendingTxs(t: Tree): seq<Transaction>
    requires Sound(t)
  {
    TxsBackwards(Unfinalized(t, t.workingBlockId))
  }

  /** One reward per block of the segment, last block first, the first block left out. */
  ghost function RewardWalk(m: BalanceMap, seg: seq<BlockNode>): BalanceMap
    decreases |seg|
  {
    if |seg| <= 1 then m
    else RewardWalk(Reward(m, seg[|seg| - 1].header.rewardReceiver), seg[..|seg| - 1])
  }

  /** The balances against which a block on parent `p` is checked. */
  ghost function CheckedBalances(t: Tree, p: BlockId): BalanceMap
    requires Sound(t) && p in t.forest.allBlocks
  {
    RewardWalk(ApplyTxs(t.finalizedBalanceMap, PendingTxs(t)), Unfinalized(t, p))
  }

  ghost predicate BalanceOk(t: Tree, b: BlockNode)
    requires Sound(t) && b.header.parent in t.forest.allBlocks
  {
    Scan(CheckedBalances(t, b.header.parent), b.transactions)
  }

  /** The checks against the tree, for a block whose parent is stored. */
  ghost predicate Accepts(t: Tree, b: BlockNode)
    requires Sound(t) && b.header.parent in t.forest.allBlocks
  {
    AncestryOk(t.forest, b.header.merkleRoot, b.header.parent) && BalanceOk(t, b)
  }

  // ----- linking a block -----

  function ChildrenOf(cm: map<BlockId, seq<BlockId>>, p: BlockId): seq<BlockId> {
    if p in cm then cm[p] else []
  }

  function Grow(t: Tree, b: BlockNode): Tree
    requires b.header.parent in t.forest.blockDepth
  {
    var siblings := ChildrenOf(t.childrenMap, b.header.parent) + [b.header.blockId];
    t.(forest := Extend(t.forest, b),
       childrenMap := t.childrenMap[b.header.parent := siblings],
       workingBlockId := MaxId(siblings))
  }

  ghost function Advance(env: Env, t: Tree, g: BlockNode): Tree {
    t.(finalizedBalanceMap := ApplyBlock(t.finalizedBalanceMap, g),
       finalizedTxIds := t.finalizedTxIds + IdsOf(env, g.transactions),
       finalizedBlockId := g.header.blockId)
  }

  /** Six steps towards the root without meeting a child of the finalized block; the block reached
      becomes finalized if it is one. */
  ghost function Finalize(env: Env, t: Tree, id: BlockId): Tree
    requires Rooted(t.forest) && id in t.forest.allBlocks
  {
    var g := Up(t.forest, id, CONFIRMATIONS);
    if MeetsWithin(t.forest, t.finalizedBlockId, id, CONFIRMATIONS)
       || g !in ChildrenOf(t.childrenMap, t.finalizedBlockId)
    then t
    else Advance(env, t, t.forest.allBlocks[g])
  }

  /** One of the first `n` blocks of the walk from `id` has parent `f`. */
  ghost predicate MeetsWithin(fo: Forest, f: BlockId, id: BlockId, n: nat)
    requires Rooted(fo) && id in fo.allBlocks
  {
    exists k: nat | k < n :: Parent(fo, Up(fo, id, k)) == f
  }

  ghost function Link(env: Env, t: Tree, b: BlockNode): Tree
    requires Rooted(t.forest) && Attachable(t.forest, b)
  {
    ExtendRooted(t.forest, b);
    Finalize(env, Grow(t, b), b.header.blockId)
  }

  // ----- the invariant of every reachable tree -----

  ghost predicate ListedAreChildren(fo: Forest, cm: map<BlockId, seq<BlockId>>) {
    && (forall p | p in cm :: p in fo.allBlocks && cm[p] != [] && Distinct(cm[p]))
    && (forall p, c {:trigger c in cm[p]} | p in cm && c in cm[p] ::
          c in fo.allBlocks && c != ROOT_ID && Parent(fo, c) == p)
  }

  ghost predicate ChildrenAreListed(fo: Forest, cm: map<BlockId, seq<BlockId>>) {
    forall id {:trigger Parent(fo, id)} | id in fo.allBlocks && id != ROOT_ID :: id in ChildrenOf(cm, Parent(fo, id))
  }

  /** `childrenMap` is the duplicate-free inverse of the parent relation. */
  ghost predicate ChildrenOk(fo: Forest, cm: map<BlockId, seq<BlockId>>) {
    ListedAreChildren(fo, cm) && ChildrenAreListed(fo, cm)
  }

  /** No block repeats the Merkle root of a strict ancestor of depth 2 or more. */
  ghost predicate MerkleRootsDistinct(fo: Forest)
    requires Rooted(fo)
  {
    forall id, i | id in fo.allBlocks && 2 <= i < fo.blockDepth[id] ::
      Path(fo, id)[i].header.merkleRoot != fo.allBlocks[id].header.merkleRoot
  }

  /** No block is more than six levels below `f`, and some block is exactly six unless `f` is the root. */
  ghost predicate SixDeep(fo: Forest, f: BlockId)
    requires Rooted(fo)
  {
    && f in fo.allBlocks
    && (forall id | id in fo.allBlocks :: fo.blockDepth[id] <= fo.blockDepth[f] + CONFIRMATIONS)
    && (f != ROOT_ID ==> exists id :: id in fo.allBlocks && fo.blockDepth[id] == fo.blockDepth[f] + CONFIRMATIONS)
  }

  /** The finalized maps are the replay of the finalized path. */
  ghost predicate LedgerOk(env: Env, t: Tree)
    requires Rooted(t.forest) && t.finalizedBlockId in t.forest.allBlocks
  {
    && t.finalizedBalanceMap == Replay(Path(t.forest, t.finalizedBlockId))
    && t.finalizedTxIds == TxIdsOf(env, Path(t.forest, t.finalizedBlockId))
  }

  /** The working block is strictly below the finalized one once any block was accepted. */
  ghost predicate WorkingOk(t: Tree)
    requires Rooted(t.forest) && t.finalizedBlockId in t.forest.allBlocks
  {
    && t.workingBlockId in t.forest.allBlocks
    && OnPath(t.forest, t.finalizedBlockId, t.workingBlockId)
    && (t.workingBlockId == t.finalizedBlockId ==> t.forest.allBlocks.Keys == {ROOT_ID})
  }

  ghost predicate Inv(env: Env, t: Tree) {
    && Rooted(t.forest)
    && SixDeep(t.forest, t.finalizedBlockId)
    && WorkingOk(t)
    && ChildrenOk(t.forest, t.childrenMap)
    && MerkleRootsDistinct(t.forest)
    && LedgerOk(env, t)
  }
}
