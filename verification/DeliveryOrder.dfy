/** The order in which the blocks of a chain are delivered does not matter. */
module DeliveryOrder {
  import opened Types
  import opened Forests
  import opened Trees
  import opened TreeInvariant
  import opened Deliveries

  function Id(b: BlockNode): BlockId {
    b.header.blockId
  }

  /** Each block is the parent of the next; no id occurs twice. */
  ghost predicate IsChain(chain: seq<BlockNode>) {
    && (forall i, j | 0 <= i < j < |chain| :: Id(chain[i]) != Id(chain[j]))
    && (forall i {:trigger chain[i].header.parent} | 0 < i < |chain| :: chain[i].header.parent == Id(chain[i - 1]))
  }

  /** The blocks from `k` on are new to the tree, and the first of them can be checked and linked. */
  ghost predicate Fits(t: Tree, chain: seq<BlockNode>, k: nat)
    requires Rooted(t.forest) && t.finalizedBlockId in t.forest.allBlocks
  {
    && k <= |chain|
    && (forall i | k <= i < |chain| :: Id(chain[i]) !in t.forest.allBlocks)
    && (k < |chain| ==> chain[k].header.parent in t.forest.allBlocks && Extends(t, chain[k].header.parent))
  }

  lemma LinkFits(env: Env, t: Tree, chain: seq<BlockNode>, k: nat)
    requires Inv(env, t) && IsChain(chain) && Fits(t, chain, k) && k < |chain| && Accepts(t, chain[k])
    ensures Inv(env, Link(env, t, chain[k])) && Fits(Link(env, t, chain[k]), chain, k + 1)
  {
    LinkKeepsInv(env, t, chain[k]);
    LinkWorkingOk(env, t, chain[k]);
    LinkFrame(env, t, chain[k]);
    if k + 1 < |chain| {
      assert chain[k + 1].header.parent == Id(chain[k]);
    }
  }

  ghost predicate Linked(env: Env, t: Tree, b: BlockNode, leadingZeroLen: nat)
    requires Sound(t) && b.header.parent in t.forest.allBlocks
  {
    BlockIntegrity(env, b, leadingZeroLen) && Accepts(t, b)
  }

  /** In-order delivery from block `k` on: link until the first block that fails a check. */
  ghost function InOrder(env: Env, t: Tree, chain: seq<BlockNode>, leadingZeroLen: nat, k: nat): Tree
    requires Inv(env, t) && IsChain(chain) && Fits(t, chain, k)
    decreases |chain| - k
  {
    if k == |chain| || !Linked(env, t, chain[k], leadingZeroLen) then t
    else
      LinkFits(env, t, chain, k);
      InOrder(env, Link(env, t, chain[k]), chain, leadingZeroLen, k + 1)
  }

  // ----- the state after some of the blocks were delivered -----

  /** An orphan whose parent is block `i` of the chain is block `i + 1`, and was delivered. */
  ghost predicate ChildEntry(orphans: map<BlockId, BlockNode>, chain: seq<BlockNode>, delivered: set<nat>,
                             key: BlockId, i: nat)
  {
    key in orphans && i < |chain| && orphans[key].header.parent == Id(chain[i])
    ==> i + 1 < |chain| && key == Id(chain[i + 1]) && orphans[key] == chain[i + 1] && i + 1 in delivered
  }

  /** The buffer holds nothing of the chain that was not delivered. */
  ghost predicate BufferSound(orphans: map<BlockId, BlockNode>, chain: seq<BlockNode>, delivered: set<nat>) {
    && (forall i | 0 <= i < |chain| && Id(chain[i]) in orphans :: i in delivered)
    && (forall key, i: nat {:trigger ChildEntry(orphans, chain, delivered, key, i)} ::
         ChildEntry(orphans, chain, delivered, key, i))
  }

  /** Everything delivered beyond `k` that passes the integrity check waits in the buffer. */
  ghost predicate BufferComplete(env: Env, orphans: map<BlockId, BlockNode>, chain: seq<BlockNode>,
                                 leadingZeroLen: nat, delivered: set<nat>, k: nat)
  {
    forall i {:trigger i in delivered}
      | i in delivered && k < i < |chain| && BlockIntegrity(env, chain[i], leadingZeroLen) ::
      Id(chain[i]) in orphans && orphans[Id(chain[i])] == chain[i]
  }

  ghost predicate LinkedUpTo(t: Tree, chain: seq<BlockNode>, k: nat) {
    forall i | 0 <= i < k && i < |chain| :: Id(chain[i]) in t.forest.allBlocks
  }

  /** The first `k` blocks of the chain are linked, exactly as in-order delivery links them. */
  ghost predicate Progress(env: Env, t0: Tree, s: Store, chain: seq<BlockNode>, leadingZeroLen: nat,
                           delivered: set<nat>, k: nat)
    requires Inv(env, t0) && IsChain(chain) && Fits(t0, chain, 0)
  {
    && Inv(env, s.tree) && Fits(s.tree, chain, k)
    && InOrder(env, s.tree, chain, leadingZeroLen, k) == InOrder(env, t0, chain, leadingZeroLen, 0)
    && (forall i {:trigger i in delivered} | 0 <= i < k :: i in delivered)
    && LinkedUpTo(s.tree, chain, k)
    && BufferSound(s.orphans, chain, delivered)
    && BufferComplete(env, s.orphans, chain, leadingZeroLen, delivered, k)
  }

  /** Block `k` is missing, or was delivered and fails a check. */
  ghost predicate Settled(env: Env, t: Tree, chain: seq<BlockNode>, leadingZeroLen: nat, delivered: set<nat>, k: nat)
    requires Sound(t) && Fits(t, chain, k)
  {
    k == |chain| || k !in delivered || !Linked(env, t, chain[k], leadingZeroLen)
  }

  lemma RemoveKeepsBuffer(env: Env, orphans: map<BlockId, BlockNode>, chain: seq<BlockNode>, leadingZeroLen: nat,
                          delivered: set<nat>, k: nat, p: nat)
    requires IsChain(chain) && p < k && p < |chain|
    requires BufferSound(orphans, chain, delivered)
    requires BufferComplete(env, orphans, chain, leadingZeroLen, delivered, k)
    ensures BufferSound(orphans - {Id(chain[p])}, chain, delivered)
    ensures BufferComplete(env, orphans - {Id(chain[p])}, chain, leadingZeroLen, delivered, k)
  {
    var less := orphans - {Id(chain[p])};
    forall key, i: nat ensures ChildEntry(less, chain, delivered, key, i) {
      assert ChildEntry(orphans, chain, delivered, key, i);
    }
  }

  lemma ProgressLinks(env: Env, t0: Tree, s: Store, chain: seq<BlockNode>, leadingZeroLen: nat, delivered: set<nat>,
                      k: nat)
    requires Inv(env, t0) && IsChain(chain) && Fits(t0, chain, 0)
    requires Progress(env, t0, s, chain, leadingZeroLen, delivered, k) && k < |chain| && k in delivered
    requires Linked(env, s.tree, chain[k], leadingZeroLen)
    ensures Progress(env, t0, Store(Link(env, s.tree, chain[k]), s.orphans), chain, leadingZeroLen, delivered, k + 1)
  {
    LinkFits(env, s.tree, chain, k);
    LinkedOneMore(env, s.tree, chain, k);
  }

  lemma LinkedOneMore(env: Env, t: Tree, chain: seq<BlockNode>, k: nat)
    requires Rooted(t.forest) && k < |chain| && Attachable(t.forest, chain[k]) && LinkedUpTo(t, chain, k)
    ensures LinkedUpTo(Link(env, t, chain[k]), chain, k + 1)
  {
    LinkFrame(env, t, chain[k]);
  }

  /** With no buffered child of block `k`, block `k + 1` is missing or unfit. */
  lemma NoChildSettles(env: Env, s: Store, orphans: map<BlockId, BlockNode>, chain: seq<BlockNode>,
                       leadingZeroLen: nat, delivered: set<nat>, k: nat)
    requires IsChain(chain) && k < |chain| && Sound(s.tree) && Fits(s.tree, chain, k + 1)
    requires BufferComplete(env, orphans, chain, leadingZeroLen, delivered, k)
    requires !HasOrphanChild(orphans, Id(chain[k]))
    ensures Settled(env, s.tree, chain, leadingZeroLen, delivered, k + 1)
  {
    if k + 1 < |chain| {
      assert chain[k + 1].header.parent == Id(chain[k]);
    }
  }

  lemma ProgressRemoves(env: Env, t0: Tree, s: Store, chain: seq<BlockNode>, leadingZeroLen: nat, delivered: set<nat>,
                        k: nat, p: nat)
    requires Inv(env, t0) && IsChain(chain) && Fits(t0, chain, 0) && p < k && p < |chain|
    requires Progress(env, t0, s, chain, leadingZeroLen, delivered, k)
    requires Settled(env, s.tree, chain, leadingZeroLen, delivered, k)
    ensures Progress(env, t0, Store(s.tree, s.orphans - {Id(chain[p])}), chain, leadingZeroLen, delivered, k)
    ensures Settled(env, s.tree, chain, leadingZeroLen, delivered, k)
  {
    RemoveKeepsBuffer(env, s.orphans, chain, leadingZeroLen, delivered, k, p);
  }

  lemma AddOpened(env: Env, s: Store, b: BlockNode, leadingZeroLen: nat, acc: seq<BlockNode>, s': Store)
    requires Inv(env, s.tree) && ChecksReturn(env, s.tree, b, leadingZeroLen) && Attachable(s.tree.forest, b)
    requires AddOrphanBlock(env, s, b, leadingZeroLen, acc, s')
    ensures !Linked(env, s.tree, b, leadingZeroLen) ==> s' == s
    ensures Linked(env, s.tree, b, leadingZeroLen) ==>
              && acc != []
              && Inv(env, Link(env, s.tree, b)) && Id(b) in Link(env, s.tree, b).forest.allBlocks
              && Extends(Link(env, s.tree, b), Id(b))
              && AttachOne(env, Store(Link(env, s.tree, b), s.orphans), Id(b), leadingZeroLen, acc[1..], s')
  {
    if Linked(env, s.tree, b, leadingZeroLen) {
      LinkKeepsInv(env, s.tree, b);
      LinkWorkingOk(env, s.tree, b);
    }
  }

  /** Adding block `k` links it and then every buffered successor up to the next gap or failure. */
  lemma {:induction false} AddNext(env: Env, t0: Tree, s: Store, chain: seq<BlockNode>, leadingZeroLen: nat,
                                   delivered: set<nat>, k: nat, acc: seq<BlockNode>, s': Store)
    returns (k': nat)
    requires Inv(env, t0) && IsChain(chain) && Fits(t0, chain, 0)
    requires Progress(env, t0, s, chain, leadingZeroLen, delivered, k) && k < |chain| && k in delivered
    requires AddOrphanBlock(env, s, chain[k], leadingZeroLen, acc, s')
    ensures k <= k' && Progress(env, t0, s', chain, leadingZeroLen, delivered, k')
    ensures Settled(env, s'.tree, chain, leadingZeroLen, delivered, k')
    decreases |acc|, 1
  {
    AddOpened(env, s, chain[k], leadingZeroLen, acc, s');
    if Linked(env, s.tree, chain[k], leadingZeroLen) {
      ProgressLinks(env, t0, s, chain, leadingZeroLen, delivered, k);
      k' := AttachNext(env, t0, Store(Link(env, s.tree, chain[k]), s.orphans), chain, leadingZeroLen, delivered, k,
                       acc[1..], s');
    } else {
      k' := k;
    }
  }

  lemma {:induction false} AttachNext(env: Env, t0: Tree, s: Store, chain: seq<BlockNode>, leadingZeroLen: nat,
                                      delivered: set<nat>, k: nat, acc: seq<BlockNode>, s': Store)
    returns (k': nat)
    requires Inv(env, t0) && IsChain(chain) && Fits(t0, chain, 0) && k < |chain|
    requires Progress(env, t0, s, chain, leadingZeroLen, delivered, k + 1)
    requires BufferComplete(env, s.orphans, chain, leadingZeroLen, delivered, k)
    requires Id(chain[k]) in s.tree.forest.allBlocks && Extends(s.tree, Id(chain[k]))
    requires AttachOne(env, s, Id(chain[k]), leadingZeroLen, acc, s')
    ensures k < k' && Progress(env, t0, s', chain, leadingZeroLen, delivered, k')
    ensures Settled(env, s'.tree, chain, leadingZeroLen, delivered, k')
    decreases |acc|, 2
  {
    if HasOrphanChild(s.orphans, Id(chain[k])) {
      var key, s2 :| key in s.orphans && s.orphans[key].header.parent == Id(chain[k])
                     && AddOrphanBlock(env, s, s.orphans[key], leadingZeroLen, acc, s2)
                     && s' == s2.(orphans := s2.orphans - {Id(chain[k])});
      assert ChildEntry(s.orphans, chain, delivered, key, k);
      k' := AddNext(env, t0, s, chain, leadingZeroLen, delivered, k + 1, acc, s2);
      ProgressRemoves(env, t0, s2, chain, leadingZeroLen, delivered, k', k);
    } else {
      k' := k + 1;
      NoChildSettles(env, s, s.orphans, chain, leadingZeroLen, delivered, k);
    }
  }

  /** A first delivery always returns, and gets as far as the checks. */
  lemma DeliverOne(env: Env, t0: Tree, s: Store, chain: seq<BlockNode>, leadingZeroLen: nat, delivered: set<nat>,
                   k: nat, j: nat)
    requires Inv(env, t0) && IsChain(chain) && Fits(t0, chain, 0)
    requires Progress(env, t0, s, chain, leadingZeroLen, delivered, k)
    requires j < |chain| && j !in delivered
    ensures AddReturns(env, s, Delivery(chain[j], leadingZeroLen))
    ensures forall acc, s' | AddBlock(env, s, Delivery(chain[j], leadingZeroLen), acc, s') ::
              AddOrphanBlock(env, s, chain[j], leadingZeroLen, acc, s')
    ensures k <= j && (j > k ==> chain[j].header.parent !in s.tree.forest.allBlocks)
  {
    assert k <= j;
    if j > k {
      assert chain[j].header.parent == Id(chain[j - 1]);
    }
  }

  /** A repeated delivery returns and changes nothing: the block is in the tree or in the buffer, or it
      fails the same check again. */
  lemma DeliverAgain(env: Env, t0: Tree, s: Store, chain: seq<BlockNode>, leadingZeroLen: nat, delivered: set<nat>,
                     k: nat, j: nat)
    requires Inv(env, t0) && IsChain(chain) && Fits(t0, chain, 0)
    requires Progress(env, t0, s, chain, leadingZeroLen, delivered, k)
    requires Settled(env, s.tree, chain, leadingZeroLen, delivered, k)
    requires j < |chain| && j in delivered
    ensures AddReturns(env, s, Delivery(chain[j], leadingZeroLen))
    ensures Refused(env, s, chain[j], leadingZeroLen)
  {
  }

  /** The block is known, or its first failing check is not that of its parent. */
  ghost predicate Refused(env: Env, s: Store, b: BlockNode, leadingZeroLen: nat)
    requires Sound(s.tree)
  {
    || Id(b) in s.tree.forest.allBlocks || Id(b) in s.orphans || !BlockIntegrity(env, b, leadingZeroLen)
    || (b.header.parent in s.tree.forest.allBlocks && !Accepts(s.tree, b))
  }

  lemma RefusedNothing(env: Env, s: Store, b: BlockNode, leadingZeroLen: nat, acc: seq<BlockNode>, s': Store)
    requires Inv(env, s.tree) && AddReturns(env, s, Delivery(b, leadingZeroLen)) && Refused(env, s, b, leadingZeroLen)
    requires AddBlock(env, s, Delivery(b, leadingZeroLen), acc, s')
    ensures s' == s
  {
  }

  lemma DeliverKeepsStep(env: Env, t0: Tree, s: Store, chain: seq<BlockNode>, leadingZeroLen: nat,
                         delivered: set<nat>, k: nat, j: nat, acc: seq<BlockNode>, s': Store)
    returns (k': nat)
    requires Inv(env, t0) && IsChain(chain) && Fits(t0, chain, 0)
    requires Progress(env, t0, s, chain, leadingZeroLen, delivered, k)
    requires Settled(env, s.tree, chain, leadingZeroLen, delivered, k)
    requires j < |chain| && j !in delivered
    requires AddReturns(env, s, Delivery(chain[j], leadingZeroLen))
    requires AddBlock(env, s, Delivery(chain[j], leadingZeroLen), acc, s')
    ensures Progress(env, t0, s', chain, leadingZeroLen, delivered + {j}, k')
    ensures Settled(env, s'.tree, chain, leadingZeroLen, delivered + {j}, k')
  {
    DeliverOne(env, t0, s, chain, leadingZeroLen, delivered, k, j);
    if j == k {
      ProgressMarks(env, t0, s, chain, leadingZeroLen, delivered, k, j);
      k' := AddNext(env, t0, s, chain, leadingZeroLen, delivered + {j}, k, acc, s');
    } else {
      k' := k;
      DeliverEarly(env, t0, s, chain, leadingZeroLen, delivered, k, j, acc, s');
    }
  }

  lemma DeliverEarly(env: Env, t0: Tree, s: Store, chain: seq<BlockNode>, leadingZeroLen: nat, delivered: set<nat>,
                     k: nat, j: nat, acc: seq<BlockNode>, s': Store)
    requires Inv(env, t0) && IsChain(chain) && Fits(t0, chain, 0)
    requires Progress(env, t0, s, chain, leadingZeroLen, delivered, k)
    requires Settled(env, s.tree, chain, leadingZeroLen, delivered, k)
    requires k < j < |chain| && chain[j].header.parent !in s.tree.forest.allBlocks
    requires AddOrphanBlock(env, s, chain[j], leadingZeroLen, acc, s')
    ensures Progress(env, t0, s', chain, leadingZeroLen, delivered + {j}, k)
    ensures Settled(env, s'.tree, chain, leadingZeroLen, delivered + {j}, k)
  {
    var b := chain[j];
    assert Id(b) !in s.tree.forest.allBlocks;
    EarlyDelivery(env, s, b, leadingZeroLen, acc, s');
    SettledMore(env, s.tree, chain, leadingZeroLen, delivered, k, j);
    if BlockIntegrity(env, chain[j], leadingZeroLen) {
      ProgressBuffers(env, t0, s, chain, leadingZeroLen, delivered, k, j);
    } else {
      ProgressMarks(env, t0, s, chain, leadingZeroLen, delivered, k, j);
    }
  }

  lemma SettledMore(env: Env, t: Tree, chain: seq<BlockNode>, leadingZeroLen: nat, delivered: set<nat>, k: nat, j: nat)
    requires Sound(t) && Fits(t, chain, k) && Settled(env, t, chain, leadingZeroLen, delivered, k) && j != k
    ensures Settled(env, t, chain, leadingZeroLen, delivered + {j}, k)
  {
  }

  lemma EarlyDelivery(env: Env, s: Store, b: BlockNode, leadingZeroLen: nat, acc: seq<BlockNode>, s': Store)
    requires Inv(env, s.tree) && ChecksReturn(env, s.tree, b, leadingZeroLen)
    requires Id(b) !in s.tree.forest.allBlocks && b.header.parent !in s.tree.forest.allBlocks
    requires AddOrphanBlock(env, s, b, leadingZeroLen, acc, s')
    ensures s' == if BlockIntegrity(env, b, leadingZeroLen) then Store(s.tree, s.orphans[Id(b) := b]) else s
  {
  }

  /** Delivering the next block, or one that is dropped. */
  lemma ProgressMarks(env: Env, t0: Tree, s: Store, chain: seq<BlockNode>, leadingZeroLen: nat, delivered: set<nat>,
                      k: nat, j: nat)
    requires Inv(env, t0) && IsChain(chain) && Fits(t0, chain, 0)
    requires Progress(env, t0, s, chain, leadingZeroLen, delivered, k)
    requires k <= j < |chain|
    requires j == k || !BlockIntegrity(env, chain[j], leadingZeroLen)
    ensures Progress(env, t0, s, chain, leadingZeroLen, delivered + {j}, k)
  {
    DeliveredMore(s.orphans, chain, delivered, j);
    MarkKeepsComplete(env, s.orphans, chain, leadingZeroLen, delivered, k, j);
  }

  lemma MarkKeepsComplete(env: Env, orphans: map<BlockId, BlockNode>, chain: seq<BlockNode>, leadingZeroLen: nat,
                          delivered: set<nat>, k: nat, j: nat)
    requires BufferComplete(env, orphans, chain, leadingZeroLen, delivered, k)
    requires j < |chain| && (j == k || !BlockIntegrity(env, chain[j], leadingZeroLen))
    ensures BufferComplete(env, orphans, chain, leadingZeroLen, delivered + {j}, k)
  {
  }

  /** Delivering a block whose parent is not linked yet. */
  lemma ProgressBuffers(env: Env, t0: Tree, s: Store, chain: seq<BlockNode>, leadingZeroLen: nat, delivered: set<nat>,
                        k: nat, j: nat)
    requires Inv(env, t0) && IsChain(chain) && Fits(t0, chain, 0)
    requires Progress(env, t0, s, chain, leadingZeroLen, delivered, k)
    requires k < j < |chain|
    ensures Progress(env, t0, Store(s.tree, s.orphans[Id(chain[j]) := chain[j]]), chain, leadingZeroLen,
                     delivered + {j}, k)
  {
    BufferOne(env, s.orphans, chain, leadingZeroLen, delivered, k, j);
  }

  lemma DeliveredMore(orphans: map<BlockId, BlockNode>, chain: seq<BlockNode>, delivered: set<nat>, j: nat)
    requires BufferSound(orphans, chain, delivered)
    ensures BufferSound(orphans, chain, delivered + {j})
  {
    forall key, i: nat ensures ChildEntry(orphans, chain, delivered + {j}, key, i) {
      assert ChildEntry(orphans, chain, delivered, key, i);
    }
  }

  lemma BufferOne(env: Env, orphans: map<BlockId, BlockNode>, chain: seq<BlockNode>, leadingZeroLen: nat,
                  delivered: set<nat>, k: nat, j: nat)
    requires IsChain(chain) && 0 < j < |chain|
    requires BufferSound(orphans, chain, delivered)
    requires BufferComplete(env, orphans, chain, leadingZeroLen, delivered, k)
    ensures BufferSound(orphans[Id(chain[j]) := chain[j]], chain, delivered + {j})
    ensures BufferComplete(env, orphans[Id(chain[j]) := chain[j]], chain, leadingZeroLen, delivered + {j}, k)
  {
    var more := orphans[Id(chain[j]) := chain[j]];
    forall key, i: nat ensures ChildEntry(more, chain, delivered + {j}, key, i) {
      BufferChild(orphans, chain, delivered, j, key, i);
    }
    BufferMore(env, orphans, chain, leadingZeroLen, delivered, k, j);
  }

  lemma BufferChild(orphans: map<BlockId, BlockNode>, chain: seq<BlockNode>, delivered: set<nat>, j: nat,
                    key: BlockId, i: nat)
    requires IsChain(chain) && 0 < j < |chain| && BufferSound(orphans, chain, delivered)
    ensures ChildEntry(orphans[Id(chain[j]) := chain[j]], chain, delivered + {j}, key, i)
  {
    assert chain[j].header.parent == Id(chain[j - 1]);
    assert ChildEntry(orphans, chain, delivered, key, i);
  }

  lemma BufferMore(env: Env, orphans: map<BlockId, BlockNode>, chain: seq<BlockNode>, leadingZeroLen: nat,
                   delivered: set<nat>, k: nat, j: nat)
    requires IsChain(chain) && j < |chain|
    requires BufferComplete(env, orphans, chain, leadingZeroLen, delivered, k)
    ensures BufferComplete(env, orphans[Id(chain[j]) := chain[j]], chain, leadingZeroLen, delivered + {j}, k)
  {
  }

  // ----- the theorem -----

  /** No orphan of the starting state has to do with the chain. */
  ghost predicate Unrelated(orphans: map<BlockId, BlockNode>, chain: seq<BlockNode>) {
    forall key, i | key in orphans && 0 <= i < |chain| ::
      key != Id(chain[i]) && orphans[key].header.parent != Id(chain[i])
  }

  /** `order` names every index below `n`, at least once, and nothing else. */
  ghost predicate Covers(order: seq<nat>, n: nat) {
    && (forall i | 0 <= i < |order| :: order[i] < n)
    && (forall x: nat | x < n :: x in order)
  }

  ghost function Delivered(order: seq<nat>, i: nat): set<nat>
    requires i <= |order|
  {
    set x | x in order[..i]
  }

  /** One delivery with some result. A delivery that would not return is left unconstrained; the
      theorem shows there is none. */
  ghost predicate Delivers(env: Env, s: Store, d: Delivery, s': Store) {
    Inv(env, s.tree) && AddReturns(env, s, d) ==> exists acc :: AddBlock(env, s, d, acc, s')
  }

  /** The deliveries of `chain` in the given order, starting from `states[0]`. */
  ghost predicate ChainRun(env: Env, chain: seq<BlockNode>, leadingZeroLen: nat, order: seq<nat>, states: seq<Store>)
    requires Covers(order, |chain|)
  {
    && |states| == |order| + 1
    && forall i: nat {:trigger DeliveryAt(env, chain, leadingZeroLen, order, states, i)} | i < |order| ::
         DeliveryAt(env, chain, leadingZeroLen, order, states, i)
  }

  ghost predicate DeliveryAt(env: Env, chain: seq<BlockNode>, leadingZeroLen: nat, order: seq<nat>,
                             states: seq<Store>, i: nat)
    requires Covers(order, |chain|) && |states| == |order| + 1 && i < |order|
  {
    Delivers(env, states[i], Delivery(chain[order[i]], leadingZeroLen), states[i + 1])
  }

  /** After `i` deliveries some first part of the chain is linked, and nothing more can be. */
  ghost predicate Tracks(env: Env, t0: Tree, s: Store, chain: seq<BlockNode>, leadingZeroLen: nat, delivered: set<nat>)
    requires Inv(env, t0) && IsChain(chain) && Fits(t0, chain, 0)
  {
    exists k :: Progress(env, t0, s, chain, leadingZeroLen, delivered, k)
                && Settled(env, s.tree, chain, leadingZeroLen, delivered, k)
  }

  lemma FirstTracks(env: Env, t0: Tree, s: Store, chain: seq<BlockNode>, leadingZeroLen: nat, delivered: set<nat>,
                    j: nat, s': Store)
    requires Inv(env, t0) && IsChain(chain) && Fits(t0, chain, 0)
    requires Tracks(env, t0, s, chain, leadingZeroLen, delivered)
    requires j < |chain| && j !in delivered
    requires Delivers(env, s, Delivery(chain[j], leadingZeroLen), s')
    ensures Inv(env, s.tree) && AddReturns(env, s, Delivery(chain[j], leadingZeroLen))
    ensures Tracks(env, t0, s', chain, leadingZeroLen, delivered + {j})
  {
    var k :| Progress(env, t0, s, chain, leadingZeroLen, delivered, k)
             && Settled(env, s.tree, chain, leadingZeroLen, delivered, k);
    DeliverOne(env, t0, s, chain, leadingZeroLen, delivered, k, j);
    var acc :| AddBlock(env, s, Delivery(chain[j], leadingZeroLen), acc, s');
    k := DeliverKeepsStep(env, t0, s, chain, leadingZeroLen, delivered, k, j, acc, s');
  }

  lemma AgainTracks(env: Env, t0: Tree, s: Store, chain: seq<BlockNode>, leadingZeroLen: nat, delivered: set<nat>,
                    j: nat)
    requires Inv(env, t0) && IsChain(chain) && Fits(t0, chain, 0)
    requires Tracks(env, t0, s, chain, leadingZeroLen, delivered)
    requires j < |chain| && j in delivered
    ensures Inv(env, s.tree) && AddReturns(env, s, Delivery(chain[j], leadingZeroLen))
    ensures Refused(env, s, chain[j], leadingZeroLen)
  {
    var k :| Progress(env, t0, s, chain, leadingZeroLen, delivered, k)
             && Settled(env, s.tree, chain, leadingZeroLen, delivered, k);
    DeliverAgain(env, t0, s, chain, leadingZeroLen, delivered, k, j);
  }

  lemma RefusedDelivers(env: Env, s: Store, b: BlockNode, leadingZeroLen: nat, s': Store)
    requires Inv(env, s.tree) && AddReturns(env, s, Delivery(b, leadingZeroLen)) && Refused(env, s, b, leadingZeroLen)
    requires Delivers(env, s, Delivery(b, leadingZeroLen), s')
    ensures s' == s
  {
    var acc :| AddBlock(env, s, Delivery(b, leadingZeroLen), acc, s');
    RefusedNothing(env, s, b, leadingZeroLen, acc, s');
  }

  lemma StillDelivered(delivered: set<nat>, j: nat)
    requires j in delivered
    ensures delivered + {j} == delivered
  {
  }

  lemma DeliverTracks(env: Env, t0: Tree, s: Store, chain: seq<BlockNode>, leadingZeroLen: nat, delivered: set<nat>,
                      j: nat, s': Store)
    requires Inv(env, t0) && IsChain(chain) && Fits(t0, chain, 0)
    requires Tracks(env, t0, s, chain, leadingZeroLen, delivered)
    requires j < |chain|
    requires Delivers(env, s, Delivery(chain[j], leadingZeroLen), s')
    ensures Inv(env, s.tree) && AddReturns(env, s, Delivery(chain[j], leadingZeroLen))
    ensures Tracks(env, t0, s', chain, leadingZeroLen, delivered + {j})
  {
    if j in delivered {
      AgainTracks(env, t0, s, chain, leadingZeroLen, delivered, j);
      RefusedDelivers(env, s, chain[j], leadingZeroLen, s');
      StillDelivered(delivered, j);
    } else {
      FirstTracks(env, t0, s, chain, leadingZeroLen, delivered, j, s');
    }
  }

  lemma {:induction false} ChainRunTracks(env: Env, chain: seq<BlockNode>, leadingZeroLen: nat, order: seq<nat>,
                                          states: seq<Store>, i: nat)
    requires IsChain(chain) && Covers(order, |chain|) && ChainRun(env, chain, leadingZeroLen, order, states)
    requires Inv(env, states[0].tree) && Fits(states[0].tree, chain, 0) && Unrelated(states[0].orphans, chain)
    requires i <= |order|
    ensures Tracks(env, states[0].tree, states[i], chain, leadingZeroLen, Delivered(order, i))
  {
    StartTracks(env, chain, leadingZeroLen, order, states[0]);
    for j := 0 to i
      invariant Tracks(env, states[0].tree, states[j], chain, leadingZeroLen, Delivered(order, j))
    {
      ChainRunStep(env, chain, leadingZeroLen, order, states, j);
    }
  }

  lemma StartTracks(env: Env, chain: seq<BlockNode>, leadingZeroLen: nat, order: seq<nat>, s: Store)
    requires IsChain(chain) && Inv(env, s.tree) && Fits(s.tree, chain, 0) && Unrelated(s.orphans, chain)
    ensures Tracks(env, s.tree, s, chain, leadingZeroLen, Delivered(order, 0))
  {
    NothingDelivered(order);
    StartProgress(env, chain, leadingZeroLen, s);
    assert Settled(env, s.tree, chain, leadingZeroLen, {}, 0);
  }

  lemma NothingDelivered(order: seq<nat>)
    ensures Delivered(order, 0) == {}
  {
  }

  lemma StartProgress(env: Env, chain: seq<BlockNode>, leadingZeroLen: nat, s: Store)
    requires IsChain(chain) && Inv(env, s.tree) && Fits(s.tree, chain, 0) && Unrelated(s.orphans, chain)
    ensures Progress(env, s.tree, s, chain, leadingZeroLen, {}, 0)
  {
    assert BufferSound(s.orphans, chain, {});
  }

  lemma ChainRunStep(env: Env, chain: seq<BlockNode>, leadingZeroLen: nat, order: seq<nat>, states: seq<Store>, i: nat)
    requires IsChain(chain) && Covers(order, |chain|) && ChainRun(env, chain, leadingZeroLen, order, states)
    requires Inv(env, states[0].tree) && Fits(states[0].tree, chain, 0)
    requires i < |order| && Tracks(env, states[0].tree, states[i], chain, leadingZeroLen, Delivered(order, i))
    ensures Tracks(env, states[0].tree, states[i + 1], chain, leadingZeroLen, Delivered(order, i + 1))
    ensures Inv(env, states[i].tree) && AddReturns(env, states[i], Delivery(chain[order[i]], leadingZeroLen))
  {
    DeliveredStep(order, i);
    ChainRunDelivers(env, chain, leadingZeroLen, order, states, i);
    DeliverTracks(env, states[0].tree, states[i], chain, leadingZeroLen, Delivered(order, i), order[i], states[i + 1]);
  }

  lemma ChainRunDelivers(env: Env, chain: seq<BlockNode>, leadingZeroLen: nat, order: seq<nat>, states: seq<Store>,
                         i: nat)
    requires Covers(order, |chain|) && ChainRun(env, chain, leadingZeroLen, order, states) && i < |order|
    ensures Delivers(env, states[i], Delivery(chain[order[i]], leadingZeroLen), states[i + 1])
  {
    assert DeliveryAt(env, chain, leadingZeroLen, order, states, i);
  }

  lemma DeliveredStep(order: seq<nat>, i: nat)
    requires i < |order|
    ensures Delivered(order, i + 1) == Delivered(order, i) + {order[i]}
  {
    assert order[..i + 1] == order[..i] + [order[i]];
  }

  ghost predicate AllOf(delivered: set<nat>, n: nat) {
    forall x: nat {:trigger x in delivered} | x < n :: x in delivered
  }

  lemma AllInTheEnd(order: seq<nat>, n: nat)
    requires Covers(order, n)
    ensures AllOf(Delivered(order, |order|), n)
  {
    assert order[..|order|] == order;
  }

  /** The main result: delivering the blocks of a chain in any order, each at least once and as often as
      one likes, onto any well-formed tree whose orphans are unrelated to it, never hangs and ends in the
      tree of in-order delivery. Blocks of the chain may be invalid. Only the orphan buffer may differ. */
  lemma OrderIrrelevant(env: Env, chain: seq<BlockNode>, leadingZeroLen: nat, order: seq<nat>, states: seq<Store>)
    requires IsChain(chain) && Covers(order, |chain|) && ChainRun(env, chain, leadingZeroLen, order, states)
    requires Inv(env, states[0].tree) && Fits(states[0].tree, chain, 0) && Unrelated(states[0].orphans, chain)
    ensures states[|order|].tree == InOrder(env, states[0].tree, chain, leadingZeroLen, 0)
    ensures forall i | 0 <= i < |order| ::
              Inv(env, states[i].tree) && AddReturns(env, states[i], Delivery(chain[order[i]], leadingZeroLen))
  {
    ChainRunTracks(env, chain, leadingZeroLen, order, states, |order|);
    AllInTheEnd(order, |chain|);
    AllDelivered(env, states[0].tree, states[|order|], chain, leadingZeroLen, Delivered(order, |order|));
    forall i | 0 <= i < |order|
      ensures Inv(env, states[i].tree) && AddReturns(env, states[i], Delivery(chain[order[i]], leadingZeroLen))
    {
      ChainRunReturns(env, chain, leadingZeroLen, order, states, i);
    }
  }

  lemma AllDelivered(env: Env, t0: Tree, s: Store, chain: seq<BlockNode>, leadingZeroLen: nat, delivered: set<nat>)
    requires Inv(env, t0) && IsChain(chain) && Fits(t0, chain, 0)
    requires Tracks(env, t0, s, chain, leadingZeroLen, delivered)
    requires AllOf(delivered, |chain|)
    ensures s.tree == InOrder(env, t0, chain, leadingZeroLen, 0)
  {
  }

  lemma ChainRunReturns(env: Env, chain: seq<BlockNode>, leadingZeroLen: nat, order: seq<nat>, states: seq<Store>,
                        i: nat)
    requires IsChain(chain) && Covers(order, |chain|) && ChainRun(env, chain, leadingZeroLen, order, states)
    requires Inv(env, states[0].tree) && Fits(states[0].tree, chain, 0) && Unrelated(states[0].orphans, chain)
    requires i < |order|
    ensures Inv(env, states[i].tree) && AddReturns(env, states[i], Delivery(chain[order[i]], leadingZeroLen))
  {
    ChainRunTracks(env, chain, leadingZeroLen, order, states, i);
    ChainRunStep(env, chain, leadingZeroLen, order, states, i);
  }

  /** In particular for a chain that starts at the genesis block and a new tree: any order of delivery,
      with or without repetitions, ends in the tree of in-order delivery. */
  lemma OrderIrrelevantFromGenesis(env: Env, chain: seq<BlockNode>, leadingZeroLen: nat, order: seq<nat>,
                                   states: seq<Store>)
    requires IsChain(chain) && Covers(order, |chain|) && ChainRun(env, chain, leadingZeroLen, order, states)
    requires states[0] == Store(NewTree(), map[])
    requires forall i | 0 <= i < |chain| :: Id(chain[i]) != ROOT_ID
    requires chain != [] ==> chain[0].header.parent == ROOT_ID
    ensures Inv(env, NewTree()) && Fits(NewTree(), chain, 0)
    ensures states[|order|].tree == InOrder(env, NewTree(), chain, leadingZeroLen, 0)
  {
    NewTreeInv(env);
    OrderIrrelevant(env, chain, leadingZeroLen, order, states);
  }

  /** So two deliveries of the same chain, from the same tree, agree. */
  lemma AnyTwoOrdersAgree(env: Env, chain: seq<BlockNode>, leadingZeroLen: nat,
                          order1: seq<nat>, states1: seq<Store>, order2: seq<nat>, states2: seq<Store>)
    requires IsChain(chain) && Covers(order1, |chain|) && Covers(order2, |chain|)
    requires ChainRun(env, chain, leadingZeroLen, order1, states1)
    requires ChainRun(env, chain, leadingZeroLen, order2, states2)
    requires states1[0].tree == states2[0].tree
    requires Unrelated(states1[0].orphans, chain) && Unrelated(states2[0].orphans, chain)
    requires Inv(env, states1[0].tree) && Fits(states1[0].tree, chain, 0)
    ensures states1[|order1|].tree == states2[|order2|].tree
  {
    OrderIrrelevant(env, chain, leadingZeroLen, order1, states1);
    OrderIrrelevant(env, chain, leadingZeroLen, order2, states2);
  }
}
