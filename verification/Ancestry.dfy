/** What the ancestry check, which compares Merkle roots only, says about repeated transactions. */
module Ancestry {
  import opened Types
  import opened Merkle
  import opened Forests
  import opened Trees

  /** The header carries the root of the block's own transactions. */
  ghost predicate TrueRoot(env: Env, b: BlockNode) {
    b.header.merkleRoot == MerkleRoot(env, b.transactions)
  }

  /** None of the transactions occurs in a non-genesis block of the path. */
  ghost predicate FreshOn(path: seq<BlockNode>, txs: seq<Transaction>) {
    forall i, tx | 1 <= i < |path| && tx in path[i].transactions :: tx !in txs
  }

  /** A header root longer than any on the path. Nothing compares a header root with the transactions when
      a block is added, so a block may carry it with any of them. */
  function UnusedRoot(path: seq<BlockNode>): (r: string)
    ensures forall i | 0 <= i < |path| :: |path[i].header.merkleRoot| < |r|
  {
    if path == [] then "0"
    else
      var r, last := UnusedRoot(path[..|path| - 1]), path[|path| - 1].header.merkleRoot;
      assert forall i | 0 <= i < |path| - 1 :: path[i] == path[..|path| - 1][i];
      if |last| < |r| then r else last + "0"
  }

  /** The rule that no transaction is repeated from an ancestor, exactly: below `p` the check enforces it
      if and only if there is nothing to repeat, no ancestor but the genesis block having transactions. */
  lemma NoRepetitionExactly(fo: Forest, p: BlockId)
    requires Rooted(fo) && p in fo.allBlocks
    ensures (forall root, txs :: AncestryOk(fo, root, p) ==> FreshOn(Path(fo, p), txs))
       <==> (forall i | 1 <= i <= fo.blockDepth[p] :: Path(fo, p)[i].transactions == [])
  {
    var path := Path(fo, p);
    if i :| 1 <= i <= fo.blockDepth[p] && path[i].transactions != [] {
      var root, tx := UnusedRoot(path), path[i].transactions[0];
      assert AncestryOk(fo, root, p);
      assert tx in path[i].transactions && tx in [tx];
      assert !FreshOn(path, [tx]);
    }
  }

  /** What the check does give: a rejection points at an ancestor of depth 2 or more with the same root; if that block
      has as many transactions, those of the two lists are serialised alike throughout, or hashing them has
      produced a collision. */
  lemma RejectionMeansRepetition(env: Env, fo: Forest, b: BlockNode, p: BlockId) returns (i: nat, x: string, y: string)
    requires Rooted(fo) && p in fo.allBlocks && !AncestryOk(fo, b.header.merkleRoot, p)
    requires forall s :: |env.sha256(s)| == DIGEST_LEN
    ensures 2 <= i <= fo.blockDepth[p] && Path(fo, p)[i].header.merkleRoot == b.header.merkleRoot
    ensures var a := Path(fo, p)[i];
            TrueRoot(env, a) && TrueRoot(env, b) && |a.transactions| == |b.transactions| ==>
              (forall k | 0 <= k < |a.transactions| ::
                 env.txJson(a.transactions[k]) == env.txJson(b.transactions[k]))
              || Collision(env, x, y)
  {
    i :| 2 <= i <= fo.blockDepth[p] && Path(fo, p)[i].header.merkleRoot == b.header.merkleRoot;
    x, y := "", "";
    var a := Path(fo, p)[i];
    if TrueRoot(env, a) && TrueRoot(env, b) && |a.transactions| == |b.transactions| {
      x, y := MerkleRootBinding(env, a.transactions, b.transactions);
    }
  }
}
