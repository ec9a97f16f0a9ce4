/** What one delivery can and cannot do for buffered orphans. */
module Orphans {
  import opened Types
  import opened Forests
  import opened Trees
  import opened TreeInvariant
  import opened Deliveries

  /** Buffered blocks are keyed by their own ids. */
  ghost predicate OrphansKeyed(orphans: map<BlockId, BlockNode>) {
    forall k | k in orphans :: orphans[k].header.blockId == k
  }

  ghost predicate AcceptedIn(acc: seq<BlockNode>, id: BlockId) {
    exists i :: 0 <= i < |acc| && acc[i].header.blockId == id
  }

  /** The accepted blocks are new to the tree; each but the first is a buffered child of the one before. */
  ghost predicate Cascade(s: Store, acc: seq<BlockNode>) {
    && (forall i | 0 <= i < |acc| :: acc[i].header.blockId !in s.tree.forest.allBlocks)
    && (forall i {:trigger acc[i].header.parent} | 0 < i < |acc| :: acc[i].header.parent == acc[i - 1].header.blockId)
    && (forall i | 0 < i < |acc| ::
          acc[i].header.blockId in s.orphans && s.orphans[acc[i].header.blockId] == acc[i])
  }

  /** Only accepted blocks entered the tree, and only accepted orphans may have left the buffer. */
  ghost predicate Outcome(s: Store, acc: seq<BlockNode>, s': Store) {
    && (forall id :: id in s'.tree.forest.allBlocks <==> id in s.tree.forest.allBlocks || AcceptedIn(acc, id))
    && (forall k | k in s.orphans && !AcceptedIn(acc, k) :: k in s'.orphans && s'.orphans[k] == s.orphans[k])
  }

  ghost predicate Effect(s: Store, acc: seq<BlockNode>, s': Store) {
    Cascade(s, acc) && Outcome(s, acc, s')
  }

  lemma AcceptedPrepend(acc: seq<BlockNode>, id: BlockId)
    requires acc != []
    ensures AcceptedIn(acc, id) <==> id == acc[0].header.blockId || AcceptedIn(acc[1..], id)
  {
    if AcceptedIn(acc[1..], id) {
      var i :| 0 <= i < |acc[1..]| && acc[1..][i].header.blockId == id;
      assert acc[i + 1].header.blockId == id;
    }
    if AcceptedIn(acc, id) {
      var i :| 0 <= i < |acc| && acc[i].header.blockId == id;
      assert i == 0 || acc[1..][i - 1].header.blockId == id;
    }
  }

  lemma CascadePrepend(s: Store, t1: Tree, acc: seq<BlockNode>)
    requires acc != [] && Rooted(s.tree.forest) && Attachable(s.tree.forest, acc[0])
    requires t1.forest == Extend(s.tree.forest, acc[0])
    requires Cascade(Store(t1, s.orphans), acc[1..])
    requires |acc| > 1 ==> acc[1].header.parent == acc[0].header.blockId
    requires |acc| > 1 ==> acc[1].header.blockId in s.orphans && s.orphans[acc[1].header.blockId] == acc[1]
    ensures Cascade(s, acc)
  {
    var rest := acc[1..];
    forall i | 0 <= i < |acc| ensures acc[i].header.blockId !in s.tree.forest.allBlocks {
      if i > 0 { assert acc[i] == rest[i - 1]; }
    }
    forall i {:trigger acc[i].header.parent} | 0 < i < |acc|
      ensures acc[i].header.parent == acc[i - 1].header.blockId
      ensures acc[i].header.blockId in s.orphans && s.orphans[acc[i].header.blockId] == acc[i]
    {
      if i > 1 { assert rest[i - 1].header.parent == rest[i - 2].header.blockId; }
    }
  }

  lemma OutcomePrepend(s: Store, t1: Tree, acc: seq<BlockNode>, s2: Store, s': Store)
    requires acc != [] && Rooted(s.tree.forest) && Attachable(s.tree.forest, acc[0])
    requires t1.forest == Extend(s.tree.forest, acc[0])
    requires Outcome(Store(t1, s.orphans), acc[1..], s2)
    requires s2 == s' || s' == s2.(orphans := s2.orphans - {acc[0].header.blockId})
    ensures Outcome(s, acc, s')
  {
    forall id ensures AcceptedIn(acc, id) <==> id == acc[0].header.blockId || AcceptedIn(acc[1..], id) {
      AcceptedPrepend(acc, id);
    }
  }

  lemma EffectNothing(s: Store, s': Store)
    requires s'.tree == s.tree
    requires forall k | k in s.orphans :: k in s'.orphans && s'.orphans[k] == s.orphans[k]
    ensures Effect(s, [], s')
  {
  }

  /** A block that is not accepted leaves the tree, and at most enters the buffer. */
  lemma RejectedEffect(env: Env, s: Store, b: BlockNode, leadingZeroLen: nat, s': Store)
    requires Inv(env, s.tree) && ChecksReturn(env, s.tree, b, leadingZeroLen)
    requires AddOrphanBlock(env, s, b, leadingZeroLen, [], s')
    requires OrphansKeyed(s.orphans) && (b.header.blockId in s.orphans ==> s.orphans[b.header.blockId] == b)
    ensures Effect(s, [], s') && OrphansKeyed(s'.orphans)
  {
    EffectNothing(s, s');
  }

  /** An accepted block is linked, and the rest happens in `AttachOne`. */
  lemma AcceptedOpens(env: Env, s: Store, b: BlockNode, leadingZeroLen: nat, acc: seq<BlockNode>, s': Store)
    requires Inv(env, s.tree) && ChecksReturn(env, s.tree, b, leadingZeroLen)
    requires AddOrphanBlock(env, s, b, leadingZeroLen, acc, s') && acc != []
    ensures acc[0] == b && Attachable(s.tree.forest, b)
    ensures Link(env, s.tree, b).forest == Extend(s.tree.forest, b)
    ensures Inv(env, Link(env, s.tree, b)) && Extends(Link(env, s.tree, b), b.header.blockId)
    ensures AttachOne(env, Store(Link(env, s.tree, b), s.orphans), b.header.blockId, leadingZeroLen, acc[1..], s')
  {
    LinkKeepsInv(env, s.tree, b);
    LinkWorkingOk(env, s.tree, b);
    LinkFrame(env, s.tree, b);
  }

  lemma {:induction false} AddOrphanEffect(env: Env, s: Store, b: BlockNode, leadingZeroLen: nat, acc: seq<BlockNode>,
                                           s': Store)
    requires Inv(env, s.tree) && ChecksReturn(env, s.tree, b, leadingZeroLen)
    requires AddOrphanBlock(env, s, b, leadingZeroLen, acc, s')
    requires OrphansKeyed(s.orphans) && (b.header.blockId in s.orphans ==> s.orphans[b.header.blockId] == b)
    ensures Effect(s, acc, s') && OrphansKeyed(s'.orphans)
    ensures acc != [] ==> acc[0] == b
    decreases |acc|, 1
  {
    if acc == [] {
      RejectedEffect(env, s, b, leadingZeroLen, s');
    } else {
      AcceptedOpens(env, s, b, leadingZeroLen, acc, s');
      AttachEffect(env, s, Link(env, s.tree, b), leadingZeroLen, acc, s');
    }
  }

  lemma {:induction false} AttachEffect(env: Env, s: Store, t1: Tree, leadingZeroLen: nat, acc: seq<BlockNode>,
                                        s': Store)
    requires acc != [] && Rooted(s.tree.forest) && Attachable(s.tree.forest, acc[0])
    requires t1.forest == Extend(s.tree.forest, acc[0])
    requires Inv(env, t1) && Extends(t1, acc[0].header.blockId) && OrphansKeyed(s.orphans)
    requires AttachOne(env, Store(t1, s.orphans), acc[0].header.blockId, leadingZeroLen, acc[1..], s')
    ensures Effect(s, acc, s') && OrphansKeyed(s'.orphans)
    decreases |acc|, 0
  {
    var s1, p := Store(t1, s.orphans), acc[0].header.blockId;
    if HasOrphanChild(s1.orphans, p) {
      var k, s2 := AttachOpens(env, s1, p, leadingZeroLen, acc[1..], s');
      AddOrphanEffect(env, s1, s1.orphans[k], leadingZeroLen, acc[1..], s2);
      CascadePrepend(s, t1, acc);
      OutcomePrepend(s, t1, acc, s2, s');
    } else {
      EffectNothing(s1, s1);
      CascadePrepend(s, t1, acc);
      OutcomePrepend(s, t1, acc, s1, s1);
    }
  }

  lemma AttachOpens(env: Env, s: Store, p: BlockId, leadingZeroLen: nat, acc: seq<BlockNode>, s': Store)
    returns (k: BlockId, s2: Store)
    requires Inv(env, s.tree) && p in s.tree.forest.allBlocks && Extends(s.tree, p)
    requires AttachOne(env, s, p, leadingZeroLen, acc, s') && HasOrphanChild(s.orphans, p)
    ensures k in s.orphans && s.orphans[k].header.parent == p
    ensures ChecksReturn(env, s.tree, s.orphans[k], leadingZeroLen)
    ensures AddOrphanBlock(env, s, s.orphans[k], leadingZeroLen, acc, s2)
    ensures s' == s2.(orphans := s2.orphans - {p})
  {
    k, s2 :| k in s.orphans && s.orphans[k].header.parent == p
             && AddOrphanBlock(env, s, s.orphans[k], leadingZeroLen, acc, s2)
             && s' == s2.(orphans := s2.orphans - {p});
  }

  lemma AddBlockEffect(env: Env, s: Store, d: Delivery, acc: seq<BlockNode>, s': Store)
    requires Inv(env, s.tree) && AddReturns(env, s, d) && AddBlock(env, s, d, acc, s')
    requires OrphansKeyed(s.orphans)
    ensures Effect(s, acc, s') && OrphansKeyed(s'.orphans)
    ensures acc != [] ==> acc[0] == d.block && d.block.header.blockId !in s.orphans
  {
    if d.block.header.blockId in s.tree.forest.allBlocks || d.block.header.blockId in s.orphans {
      EffectNothing(s, s');
    } else {
      AddOrphanEffect(env, s, d.block, d.leadingZeroLen, acc, s');
    }
  }

  // ----- what is left in the buffer -----

  /** The accepted blocks below which a buffered child was found. */
  ghost function Parents(orphans: map<BlockId, BlockNode>, acc: seq<BlockNode>): set<BlockId> {
    set i | 0 <= i < |acc| && HasOrphanChild(orphans, acc[i].header.blockId) :: acc[i].header.blockId
  }

  lemma ParentsPrepend(orphans: map<BlockId, BlockNode>, acc: seq<BlockNode>)
    requires acc != []
    ensures Parents(orphans, acc)
         == (if HasOrphanChild(orphans, acc[0].header.blockId) then {acc[0].header.blockId} else {})
            + Parents(orphans, acc[1..])
  {
    var rest := acc[1..];
    forall x ensures x in Parents(orphans, rest) ==> x in Parents(orphans, acc) {
      if x in Parents(orphans, rest) {
        var i :| 0 <= i < |rest| && HasOrphanChild(orphans, rest[i].header.blockId) && rest[i].header.blockId == x;
        assert acc[i + 1].header.blockId == x;
      }
    }
    forall x ensures x in Parents(orphans, acc) ==> x == acc[0].header.blockId || x in Parents(orphans, rest) {
      if x in Parents(orphans, acc) {
        var i :| 0 <= i < |acc| && HasOrphanChild(orphans, acc[i].header.blockId) && acc[i].header.blockId == x;
        assert i > 0 ==> rest[i - 1].header.blockId == x;
      }
    }
  }

  lemma RejectedBuffer(env: Env, s: Store, b: BlockNode, leadingZeroLen: nat, s': Store)
    requires Inv(env, s.tree) && ChecksReturn(env, s.tree, b, leadingZeroLen)
    requires AddOrphanBlock(env, s, b, leadingZeroLen, [], s')
    requires b.header.parent in s.tree.forest.allBlocks
    ensures s'.orphans == s.orphans
  {
  }

  lemma RemoveBoth(orphans: map<BlockId, BlockNode>, p: BlockId, ids: set<BlockId>)
    ensures orphans - ids - {p} == orphans - ({p} + ids)
    ensures orphans - {} == orphans
  {
  }

  lemma {:induction false} AddOrphanBuffer(env: Env, s: Store, b: BlockNode, leadingZeroLen: nat, acc: seq<BlockNode>,
                                           s': Store)
    requires Inv(env, s.tree) && ChecksReturn(env, s.tree, b, leadingZeroLen)
    requires AddOrphanBlock(env, s, b, leadingZeroLen, acc, s')
    requires b.header.parent in s.tree.forest.allBlocks
    ensures s'.orphans == s.orphans - Parents(s.orphans, acc)
    decreases |acc|, 1
  {
    if acc == [] {
      RejectedBuffer(env, s, b, leadingZeroLen, s');
      RemoveBoth(s.orphans, b.header.blockId, {});
    } else {
      AcceptedOpens(env, s, b, leadingZeroLen, acc, s');
      ParentsPrepend(s.orphans, acc);
      AttachBuffer(env, Store(Link(env, s.tree, b), s.orphans), b.header.blockId, leadingZeroLen, acc[1..], s');
    }
  }

  lemma {:induction false} AttachBuffer(env: Env, s: Store, p: BlockId, leadingZeroLen: nat, acc: seq<BlockNode>,
                                        s': Store)
    requires Inv(env, s.tree) && p in s.tree.forest.allBlocks && Extends(s.tree, p)
    requires AttachOne(env, s, p, leadingZeroLen, acc, s')
    ensures s'.orphans == s.orphans - ((if HasOrphanChild(s.orphans, p) then {p} else {}) + Parents(s.orphans, acc))
    decreases |acc|, 2
  {
    if HasOrphanChild(s.orphans, p) {
      var k, s2 := AttachOpens(env, s, p, leadingZeroLen, acc, s');
      AddOrphanBuffer(env, s, s.orphans[k], leadingZeroLen, acc, s2);
      RemoveBoth(s.orphans, p, Parents(s.orphans, acc));
    } else {
      RemoveBoth(s.orphans, p, {});
    }
  }

  /** The buffer after a delivery, exactly. A block whose parent is missing is buffered; if blocks are
      accepted, the ids of those below which a child was found leave the buffer. So an attached orphan
      stays in it, unless it had a buffered child in turn. */
  lemma BufferExactly(env: Env, s: Store, d: Delivery, acc: seq<BlockNode>, s': Store)
    requires Inv(env, s.tree) && AddReturns(env, s, d) && AddBlock(env, s, d, acc, s')
    ensures var b := d.block;
            s'.orphans
            == if b.header.blockId !in s.tree.forest.allBlocks && b.header.parent !in s.tree.forest.allBlocks
                  && b.header.blockId !in s.orphans && BlockIntegrity(env, b, d.leadingZeroLen)
               then s.orphans[b.header.blockId := b]
               else s.orphans - Parents(s.orphans, acc)
  {
    var b := d.block;
    if b.header.blockId !in s.tree.forest.allBlocks && b.header.blockId !in s.orphans {
      if b.header.parent in s.tree.forest.allBlocks {
        AddOrphanBuffer(env, s, b, d.leadingZeroLen, acc, s');
      }
    }
  }

  // ----- when a buffered child is attached -----

  ghost predicate OnlyChild(orphans: map<BlockId, BlockNode>, p: BlockId, k: BlockId) {
    && k in orphans && orphans[k].header.parent == p
    && forall k' | k' in orphans && orphans[k'].header.parent == p :: k' == k
  }

  /** The only buffered child of an accepted block is accepted along with it if and only if it passes the
      checks against the tree with that block. */
  lemma OnlyChildExactly(env: Env, s: Store, d: Delivery, acc: seq<BlockNode>, s': Store, k: BlockId)
    requires Inv(env, s.tree) && AddReturns(env, s, d) && AddBlock(env, s, d, acc, s') && acc != []
    requires OrphansKeyed(s.orphans) && OnlyChild(s.orphans, d.block.header.blockId, k) && k !in s.tree.forest.allBlocks
    ensures Attachable(s.tree.forest, d.block) && Inv(env, Link(env, s.tree, d.block))
    ensures d.block.header.blockId in Link(env, s.tree, d.block).forest.allBlocks
    ensures k in s'.tree.forest.allBlocks
       <==> BlockIntegrity(env, s.orphans[k], d.leadingZeroLen) && Accepts(Link(env, s.tree, d.block), s.orphans[k])
  {
    var b, n := d.block, d.leadingZeroLen;
    AddBlockEffect(env, s, d, acc, s');
    AcceptedOpens(env, s, b, n, acc, s');
    var s1 := Store(Link(env, s.tree, b), s.orphans);
    var k', s2 := AttachOpens(env, s1, b.header.blockId, n, acc[1..], s');
    ChildVerdict(env, s1, s.orphans[k], n, acc[1..], s2);
    AcceptedPrepend(acc, k);
    AcceptedFirst(acc[1..], s.orphans[k]);
  }

  lemma ChildVerdict(env: Env, s: Store, b: BlockNode, leadingZeroLen: nat, acc: seq<BlockNode>, s': Store)
    requires Inv(env, s.tree) && ChecksReturn(env, s.tree, b, leadingZeroLen)
    requires AddOrphanBlock(env, s, b, leadingZeroLen, acc, s')
    requires b.header.blockId !in s.tree.forest.allBlocks && b.header.parent in s.tree.forest.allBlocks
    ensures if BlockIntegrity(env, b, leadingZeroLen) && Accepts(s.tree, b) then acc != [] && acc[0] == b else acc == []
  {
  }

  lemma AcceptedFirst(acc: seq<BlockNode>, b: BlockNode)
    requires acc == [] || acc[0] == b
    ensures AcceptedIn(acc, b.header.blockId) <==> acc != []
  {
    if acc != [] {
      assert acc[0].header.blockId == b.header.blockId;
    }
  }

  // ----- orphans that are lost -----

  /** `k` waits in the buffer although its parent is in the tree. */
  ghost predicate Stranded(s: Store, k: BlockId) {
    && k in s.orphans && k !in s.tree.forest.allBlocks
    && s.orphans[k].header.parent in s.tree.forest.allBlocks
  }

  /** Such an orphan is lost: no later delivery, not even of the same block, ever accepts it. */
  lemma StrandedStays(env: Env, s: Store, d: Delivery, acc: seq<BlockNode>, s': Store, k: BlockId)
    requires Inv(env, s.tree) && AddReturns(env, s, d) && AddBlock(env, s, d, acc, s')
    requires OrphansKeyed(s.orphans) && Stranded(s, k)
    ensures Stranded(s', k) && OrphansKeyed(s'.orphans)
  {
    AddBlockEffect(env, s, d, acc, s');
    AddBlockEvolves(env, s, d, acc, s');
    NotAccepted(s, acc, k);
  }

  lemma NotAccepted(s: Store, acc: seq<BlockNode>, k: BlockId)
    requires Cascade(s, acc) && Stranded(s, k)
    requires acc != [] ==> acc[0].header.blockId !in s.orphans
    ensures !AcceptedIn(acc, k)
  {
    forall i | 0 <= i < |acc| ensures acc[i].header.blockId != k {
      if i > 0 { assert acc[i].header.parent == acc[i - 1].header.blockId; }
    }
  }

  /** Only one of several buffered children of an accepted block is attached; any two of them cannot
      both enter the tree, and one that does not is stranded. */
  lemma SiblingStranded(env: Env, s: Store, d: Delivery, acc: seq<BlockNode>, s': Store, k1: BlockId, k2: BlockId)
    requires Inv(env, s.tree) && AddReturns(env, s, d) && AddBlock(env, s, d, acc, s') && acc != []
    requires OrphansKeyed(s.orphans) && k1 in s.orphans && k2 in s.orphans && k1 != k2
    requires k1 !in s.tree.forest.allBlocks && k2 !in s.tree.forest.allBlocks
    requires s.orphans[k1].header.parent == d.block.header.blockId == s.orphans[k2].header.parent
    ensures Stranded(s', k1) || Stranded(s', k2)
  {
    AddBlockEffect(env, s, d, acc, s');
    assert acc[0].header.blockId == d.block.header.blockId;
    AtMostOneChild(s, acc, d.block.header.blockId, k1, k2);
    assert AcceptedIn(acc, d.block.header.blockId);
  }

  lemma AtMostOneChild(s: Store, acc: seq<BlockNode>, p: BlockId, k1: BlockId, k2: BlockId)
    requires Cascade(s, acc) && acc != [] && acc[0].header.blockId == p && p !in s.orphans
    requires k1 in s.orphans && k2 in s.orphans && k1 != k2
    requires s.orphans[k1].header.parent == p == s.orphans[k2].header.parent
    ensures !AcceptedIn(acc, k1) || !AcceptedIn(acc, k2)
  {
    forall i {:trigger acc[i].header.parent} | 0 < i < |acc| && acc[i].header.parent == p ensures i == 1 {
      ChildIsNext(s, acc, i, p);
    }
    assert forall i | 0 <= i < |acc| && acc[i].header.blockId == k1 :: i > 0 && acc[i].header.parent == p;
    assert forall i | 0 <= i < |acc| && acc[i].header.blockId == k2 :: i > 0 && acc[i].header.parent == p;
  }

  /** A cascade never returns to a block: only block 1 has block 0 as its parent. */
  lemma ChildIsNext(s: Store, acc: seq<BlockNode>, i: nat, p: BlockId)
    requires Cascade(s, acc) && 0 < i < |acc| && acc[0].header.blockId == p && p !in s.orphans
    requires acc[i].header.parent == p
    ensures i == 1
  {
    assert acc[i].header.parent == acc[i - 1].header.blockId;
    assert forall j | 0 < j < |acc| :: acc[j].header.blockId != p;
  }

  lemma {:induction false} RunOrphansKeyed(env: Env, states: seq<Store>, ds: seq<Delivery>, accs: seq<seq<BlockNode>>,
                                           i: nat)
    requires Run(env, states, ds, accs) && i < |states|
    ensures OrphansKeyed(states[i].orphans)
  {
    if i > 0 {
      RunOrphansKeyed(env, states, ds, accs, i - 1);
      RunStepAdds(env, states, ds, accs, i - 1);
      AddBlockEffect(env, states[i - 1], ds[i - 1], accs[i - 1], states[i]);
    }
  }

  lemma RunStepAdds(env: Env, states: seq<Store>, ds: seq<Delivery>, accs: seq<seq<BlockNode>>, i: nat)
    requires Run(env, states, ds, accs) && i < |ds|
    ensures Inv(env, states[i].tree) && AddReturns(env, states[i], ds[i])
    ensures AddBlock(env, states[i], ds[i], accs[i], states[i + 1])
  {
    RunKeepsInv(env, states, ds, accs, i);
    assert StepAt(env, states, ds, accs, i);
  }

  /** In any run: once stranded, stranded for good. */
  lemma {:induction false} StrandedForever(env: Env, states: seq<Store>, ds: seq<Delivery>, accs: seq<seq<BlockNode>>,
                                           i: nat, j: nat, k: BlockId)
    requires Run(env, states, ds, accs) && i <= j < |states| && Stranded(states[i], k)
    ensures Stranded(states[j], k)
    decreases j
  {
    if i < j {
      StrandedForever(env, states, ds, accs, i, j - 1, k);
      RunOrphansKeyed(env, states, ds, accs, j - 1);
      RunStepAdds(env, states, ds, accs, j - 1);
      StrandedStays(env, states[j - 1], ds[j - 1], accs[j - 1], states[j], k);
    }
  }
}
