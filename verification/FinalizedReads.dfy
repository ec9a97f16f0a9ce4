/** Reading the finalized blocks after a given one, and how successive reads fit together. */
module FinalizedReads {
  import opened Types
  import opened Forests
  import opened Trees
  import opened Deliveries

  datatype Result<+T> = Success(value: T) | Panic

  /** What `get_finalized_blocks_since` answers, for any argument: it panics on a stored block deeper
      than the finalized one, and treats any other block off the finalized path like the genesis block. */
  ghost function FinalizedSince(t: Tree, since: BlockId): Result<seq<BlockNode>>
    requires Rooted(t.forest) && t.finalizedBlockId in t.forest.allBlocks
  {
    var fo, f := t.forest, t.finalizedBlockId;
    if since in fo.allBlocks && fo.blockDepth[since] > fo.blockDepth[f] then Panic
    else if since in fo.allBlocks && OnPath(fo, since, f) then Success(Path(fo, f)[fo.blockDepth[since] + 1..])
    else if f == ROOT_ID then Success(Path(fo, f))
    else Success(Path(fo, f)[1..])
  }

  /** Reading from a block on the finalized path yields exactly the path after it, oldest first. */
  lemma ReadAfter(t: Tree, since: BlockId)
    requires Rooted(t.forest) && t.finalizedBlockId in t.forest.allBlocks
    requires since in t.forest.allBlocks && OnPath(t.forest, since, t.finalizedBlockId)
    ensures FinalizedSince(t, since).Success?
    ensures Path(t.forest, since) + FinalizedSince(t, since).value == Path(t.forest, t.finalizedBlockId)
    ensures |FinalizedSince(t, since).value| == t.forest.blockDepth[t.finalizedBlockId] - t.forest.blockDepth[since]
  {
    PrefixRest(Path(t.forest, since), Path(t.forest, t.finalizedBlockId));
  }

  lemma PrefixRest(prefix: seq<BlockNode>, path: seq<BlockNode>)
    requires prefix <= path
    ensures |prefix| <= |path| && prefix + path[|prefix|..] == path
  {
  }

  /** The panic promised for a block that is not on the finalized path, exactly: the answer is the promised
      one for the blocks on the path, and for stored blocks deeper than the finalized one, and no others. */
  lemma PanicExactly(t: Tree, since: BlockId)
    requires Rooted(t.forest) && t.finalizedBlockId in t.forest.allBlocks
    ensures var onPath := since in t.forest.allBlocks && OnPath(t.forest, since, t.finalizedBlockId);
            (FinalizedSince(t, since).Panic? <==> !onPath)
            <==> since in t.forest.allBlocks
                 && (onPath || t.forest.blockDepth[since] > t.forest.blockDepth[t.finalizedBlockId])
  {
    if since in t.forest.allBlocks {
      AncestorAt(t.forest, since, t.finalizedBlockId);
    }
  }

  /** And what is answered instead: all finalized blocks but the genesis block, or that block if nothing else is
      finalized. */
  lemma ReadElsewhere(t: Tree, since: BlockId)
    requires Rooted(t.forest) && t.finalizedBlockId in t.forest.allBlocks
    requires since !in t.forest.allBlocks
          || (!OnPath(t.forest, since, t.finalizedBlockId)
              && t.forest.blockDepth[since] <= t.forest.blockDepth[t.finalizedBlockId])
    ensures FinalizedSince(t, since)
         == if t.finalizedBlockId == ROOT_ID then Success([GenesisBlock()])
            else FinalizedSince(t, ROOT_ID)
    ensures t.finalizedBlockId != ROOT_ID ==>
              FinalizedSince(t, since).Success?
              && [GenesisBlock()] + FinalizedSince(t, since).value == Path(t.forest, t.finalizedBlockId)
  {
    RootAboveAll(t.forest, t.finalizedBlockId);
    assert Path(t.forest, ROOT_ID) == [GenesisBlock()];
    ReadAfter(t, ROOT_ID);
  }

  /** Reads compose: what a later tree answers from `since` is what the earlier one answered, followed
      by what the later one answers from the block that was finalized then. */
  lemma ReadsCompose(t: Tree, t': Tree, since: BlockId)
    requires Supersedes(t', t)
    requires since in t.forest.allBlocks && OnPath(t.forest, since, t.finalizedBlockId)
    ensures FinalizedSince(t, since).Success? && FinalizedSince(t', since).Success?
    ensures FinalizedSince(t', t.finalizedBlockId).Success?
    ensures FinalizedSince(t', since).value
            == FinalizedSince(t, since).value + FinalizedSince(t', t.finalizedBlockId).value
  {
    PathStable(t.forest, t'.forest, since);
    PathStable(t.forest, t'.forest, t.finalizedBlockId);
    ReadAfter(t, since);
    ReadAfter(t', t.finalizedBlockId);
    ReadAfter(t', since);
    var a, b := FinalizedSince(t', since).value, FinalizedSince(t, since).value;
    var c := FinalizedSince(t', t.finalizedBlockId).value;
    SameSuffix(Path(t.forest, since), a, b, c);
  }

  lemma SameSuffix(p: seq<BlockNode>, a: seq<BlockNode>, b: seq<BlockNode>, c: seq<BlockNode>)
    requires p + a == (p + b) + c
    ensures a == b + c
  {
    assert a == (p + a)[|p|..] && b + c == ((p + b) + c)[|p|..];
  }
}
