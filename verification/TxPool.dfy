/** The transaction pool (lib_tx_pool/src/pool.rs): its operations on values, what they keep over all
    operation sequences, and the class that performs them in place. */
module TxPools {
  import opened Basics
  import opened Types
  import B = Balances

  const MAX_TX_POOL := 10000

  datatype Pool = Pool(
    txIds: seq<TxId>,
    txMap: map<TxId, Transaction>,
    removed: set<TxId>,
    lastFinalized: BlockId)

  function NewPool(): Pool {
    Pool([], map[], {}, ROOT_ID)
  }

  /** `retain`: the list without one id. */
  function Without(ids: seq<TxId>, id: TxId): (r: seq<TxId>)
    ensures forall x :: x in r <==> x in ids && x != id
    ensures |r| <= |ids|
  {
    if ids == [] then []
    else
      var init, last := ids[..|ids| - 1], ids[|ids| - 1];
      assert ids == init + [last];
      if last == id then Without(init, id) else Without(init, id) + [last]
  }

  predicate Admits(env: Env, p: Pool, tx: Transaction) {
    && GenHash(env, tx) !in p.txMap
    && GenHash(env, tx) !in p.removed
    && |p.txIds| < MAX_TX_POOL
    && env.verifySig(tx)
  }

  function Add(env: Env, p: Pool, tx: Transaction): Pool {
    if Admits(env, p, tx)
    then p.(txIds := p.txIds + [GenHash(env, tx)], txMap := p.txMap[GenHash(env, tx) := tx])
    else p
  }

  /** The id leaves the list and the map; it is remembered as removed only if it was in the map. */
  function Delete(p: Pool, id: TxId): Pool {
    if id in p.txMap
    then p.(txIds := Without(p.txIds, id), txMap := p.txMap - {id}, removed := p.removed + {id})
    else p
  }

  function RemoveId(p: Pool, id: TxId): Pool {
    p.(txIds := Without(p.txIds, id), removed := p.removed + {id})
  }

  function RemoveTxs(env: Env, p: Pool, txs: seq<Transaction>): Pool {
    if txs == [] then p
    else RemoveId(RemoveTxs(env, p, txs[..|txs| - 1]), GenHash(env, txs[|txs| - 1]))
  }

  function RemoveBlocks(env: Env, p: Pool, blocks: seq<BlockNode>): Pool {
    if blocks == [] then p
    else
      var b := blocks[|blocks| - 1];
      RemoveTxs(env, RemoveBlocks(env, p, blocks[..|blocks| - 1]), b.transactions).(lastFinalized := b.header.blockId)
  }

  // ----- the representation -----

  /** The list is duplicate-free, bounded, and as a set the keys of the map without the removed ids;
      the map is keyed by hash and holds only signed transactions. */
  ghost predicate PoolOk(env: Env, p: Pool) {
    && Distinct(p.txIds)
    && |p.txIds| <= MAX_TX_POOL
    && (forall id :: id in p.txIds <==> id in p.txMap && id !in p.removed)
    && (forall id | id in p.txMap :: GenHash(env, p.txMap[id]) == id && env.verifySig(p.txMap[id]))
  }

  datatype Op = AddOp(tx: Transaction) | DeleteOp(id: TxId) | RemoveOp(blocks: seq<BlockNode>)

  function Apply(env: Env, p: Pool, op: Op): Pool {
    match op
    case AddOp(tx) => Add(env, p, tx)
    case DeleteOp(id) => Delete(p, id)
    case RemoveOp(blocks) => RemoveBlocks(env, p, blocks)
  }

  function ApplyAll(env: Env, p: Pool, ops: seq<Op>): Pool {
    if ops == [] then p else Apply(env, ApplyAll(env, p, ops[..|ops| - 1]), ops[|ops| - 1])
  }

  lemma {:induction false} WithoutDistinct(ids: seq<TxId>, id: TxId)
    requires Distinct(ids)
    ensures Distinct(Without(ids, id))
  {
    if ids != [] {
      var init, last := ids[..|ids| - 1], ids[|ids| - 1];
      assert last !in init;
      WithoutDistinct(init, id);
    }
  }

  lemma AddKeeps(env: Env, p: Pool, tx: Transaction)
    requires PoolOk(env, p)
    ensures PoolOk(env, Add(env, p, tx))
    ensures Admits(env, p, tx) <==> GenHash(env, tx) !in p.txIds && GenHash(env, tx) in Add(env, p, tx).txIds
    ensures p.txIds <= Add(env, p, tx).txIds
    ensures Add(env, p, tx).removed == p.removed && Add(env, p, tx).lastFinalized == p.lastFinalized
  {
    assert GenHash(env, tx) in p.txIds ==> GenHash(env, tx) in p.txMap;
  }

  lemma DeleteKeeps(env: Env, p: Pool, id: TxId)
    requires PoolOk(env, p)
    ensures PoolOk(env, Delete(p, id)) && p.removed <= Delete(p, id).removed
  {
    WithoutDistinct(p.txIds, id);
  }

  lemma RemoveIdKeeps(env: Env, p: Pool, id: TxId)
    requires PoolOk(env, p)
    ensures PoolOk(env, RemoveId(p, id))
  {
    WithoutDistinct(p.txIds, id);
  }

  lemma {:induction false} RemoveTxsKeeps(env: Env, p: Pool, txs: seq<Transaction>)
    requires PoolOk(env, p)
    ensures PoolOk(env, RemoveTxs(env, p, txs))
    ensures RemoveTxs(env, p, txs).removed == p.removed + (set tx | tx in txs :: GenHash(env, tx))
    ensures RemoveTxs(env, p, txs).lastFinalized == p.lastFinalized
    ensures RemoveTxs(env, p, txs).txMap == p.txMap
  {
    if txs != [] {
      var init, tx := txs[..|txs| - 1], txs[|txs| - 1];
      assert txs == init + [tx];
      RemoveTxsKeeps(env, p, init);
      RemoveIdKeeps(env, RemoveTxs(env, p, init), GenHash(env, tx));
    }
  }

  lemma {:induction false} RemoveBlocksKeeps(env: Env, p: Pool, blocks: seq<BlockNode>)
    requires PoolOk(env, p)
    ensures PoolOk(env, RemoveBlocks(env, p, blocks)) && p.removed <= RemoveBlocks(env, p, blocks).removed
  {
    if blocks != [] {
      var init, b := blocks[..|blocks| - 1], blocks[|blocks| - 1];
      RemoveBlocksKeeps(env, p, init);
      RemoveTxsKeeps(env, RemoveBlocks(env, p, init), b.transactions);
    }
  }

  /** Over every sequence of operations the representation is kept, and a removed id neither comes
      back into the pool nor is ever forgotten. */
  lemma {:induction false} AnyOperations(env: Env, p: Pool, ops: seq<Op>)
    requires PoolOk(env, p)
    ensures PoolOk(env, ApplyAll(env, p, ops))
    ensures p.removed <= ApplyAll(env, p, ops).removed
    ensures forall id | id in p.removed :: id !in ApplyAll(env, p, ops).txIds
  {
    if ops != [] {
      var q := ApplyAll(env, p, ops[..|ops| - 1]);
      AnyOperations(env, p, ops[..|ops| - 1]);
      match ops[|ops| - 1]
      case AddOp(tx) => AddKeeps(env, q, tx);
      case DeleteOp(id) => DeleteKeeps(env, q, id);
      case RemoveOp(blocks) => RemoveBlocksKeeps(env, q, blocks);
    }
  }

  /** When a transaction is in the pool after an attempt to add it. */
  lemma AddExactly(env: Env, p: Pool, tx: Transaction)
    requires PoolOk(env, p)
    ensures var id, q := env.sha256(env.txJson(tx)), Add(env, p, tx);
            && (id in q.txIds <==> id in p.txIds || (id !in p.removed && |p.txIds| < 10000 && env.verifySig(tx)))
            && q.txIds == (if id in p.txIds || id !in q.txIds then p.txIds else p.txIds + [id])
            && q.removed == p.removed && q.lastFinalized == p.lastFinalized
  {
  }

  /** What the pool is after finalized blocks were removed from it: exactly their transaction ids count as
      removed in addition, the list loses exactly these and keeps its order, and the last of the blocks is
      recorded. The map is left as it was. */
  lemma {:induction false} RemoveExactly(env: Env, p: Pool, blocks: seq<BlockNode>)
    requires PoolOk(env, p)
    ensures var q := RemoveBlocks(env, p, blocks);
            && (forall id :: id in q.removed <==> id in p.removed || B.OccursIn(env, blocks, id))
            && (forall id :: id in q.txIds <==> id in p.txIds && !B.OccursIn(env, blocks, id))
            && SameOrder(q.txIds, p.txIds) && q.txMap == p.txMap
            && q.lastFinalized == if blocks == [] then p.lastFinalized else blocks[|blocks| - 1].header.blockId
  {
    OwnOrder(p.txIds);
    if blocks != [] {
      var init, b := blocks[..|blocks| - 1], blocks[|blocks| - 1];
      var q := RemoveBlocks(env, p, init);
      RemoveExactly(env, p, init);
      RemoveBlocksKeeps(env, p, init);
      RemoveTxsExactly(env, q, b.transactions);
      OrderTransitive(RemoveBlocks(env, p, blocks).txIds, q.txIds, p.txIds);
      forall id ensures B.OccursIn(env, blocks, id) <==> B.OccursIn(env, init, id) || B.HasId(env, b, id) {
        OccursAppend(env, init, b, id);
        assert blocks == init + [b];
      }
    }
  }

  lemma OccursAppend(env: Env, init: seq<BlockNode>, b: BlockNode, id: TxId)
    ensures B.OccursIn(env, init + [b], id) <==> B.OccursIn(env, init, id) || B.HasId(env, b, id)
  {
    if B.HasId(env, b, id) {
      assert b in init + [b];
    }
    if B.OccursIn(env, init, id) {
      var c :| c in init && B.HasId(env, c, id);
      assert c in init + [b];
    }
  }

  lemma {:induction false} RemoveTxsExactly(env: Env, p: Pool, txs: seq<Transaction>)
    requires PoolOk(env, p)
    ensures var q := RemoveTxs(env, p, txs);
            && PoolOk(env, q)
            && (forall id :: id in q.removed <==> id in p.removed || exists tx :: tx in txs && id == GenHash(env, tx))
            && (forall id :: id in q.txIds <==> id in p.txIds && !(exists tx :: tx in txs && id == GenHash(env, tx)))
            && SameOrder(q.txIds, p.txIds) && q.txMap == p.txMap && q.lastFinalized == p.lastFinalized
  {
    OwnOrder(p.txIds);
    RemoveTxsKeeps(env, p, txs);
    if txs != [] {
      var init, tx := txs[..|txs| - 1], txs[|txs| - 1];
      assert txs == init + [tx];
      var q := RemoveTxs(env, p, init);
      RemoveTxsExactly(env, p, init);
      WithoutOrder(q.txIds, GenHash(env, tx));
      OrderTransitive(RemoveTxs(env, p, txs).txIds, q.txIds, p.txIds);
    }
  }

  /** The documentation asks for more than `del_tx` does: an id that is not in the pool is not
      remembered as removed, so the transaction can still enter later. */
  lemma DeleteExactly(env: Env, p: Pool, id: TxId)
    requires PoolOk(env, p)
    ensures id in Delete(p, id).removed <==> id in p.txMap || id in p.removed
    ensures forall x | x != id :: x in Delete(p, id).removed <==> x in p.removed
    ensures forall x :: x in Delete(p, id).txIds <==> x in p.txIds && x != id
    ensures SameOrder(Delete(p, id).txIds, p.txIds)
    ensures Delete(p, id).txMap == p.txMap - {id} && Delete(p, id).lastFinalized == p.lastFinalized
  {
    if id !in p.txMap {
      assert id !in p.txIds;
      WithoutAbsent(p.txIds, id);
    }
    WithoutOrder(p.txIds, id);
  }

  lemma {:induction false} WithoutOrder(ids: seq<TxId>, id: TxId)
    requires Distinct(ids)
    ensures SameOrder(Without(ids, id), ids)
  {
    if ids != [] {
      var init, last := ids[..|ids| - 1], ids[|ids| - 1];
      WithoutOrder(init, id);
      var r := Without(ids, id);
      forall i, j, a, b
        | 0 <= i < j < |r| && 0 <= a < |ids| && 0 <= b < |ids| && ids[a] == r[i] && ids[b] == r[j]
        ensures a < b
      {
        assert r[i] in Without(init, id);
        if r[j] != last {
          assert r[i] == Without(init, id)[i] && r[j] == Without(init, id)[j];
          assert init[a] == r[i] && init[b] == r[j];
        }
      }
    }
  }

  lemma {:induction false} WithoutAbsent(ids: seq<TxId>, id: TxId)
    requires id !in ids
    ensures Without(ids, id) == ids
  {
    if ids != [] {
      WithoutAbsent(ids[..|ids| - 1], id);
    }
  }

  // ----- selection -----

  function Lookup(p: Pool, ids: seq<TxId>): (r: seq<Transaction>)
    requires forall id | id in ids :: id in p.txMap
    ensures |r| == |ids|
  {
    seq(|ids|, i requires 0 <= i < |ids| => assert ids[i] in ids; p.txMap[ids[i]])
  }

  function NotIn(txs: seq<Transaction>, excluded: seq<Transaction>): (r: seq<Transaction>)
    ensures forall tx :: tx in r <==> tx in txs && tx !in excluded
  {
    if txs == [] then []
    else
      var init, last := txs[..|txs| - 1], txs[|txs| - 1];
      assert txs == init + [last];
      if last in excluded then NotIn(init, excluded) else NotIn(init, excluded) + [last]
  }

  function Available(p: Pool, excluded: seq<Transaction>): seq<Transaction>
    requires forall id | id in p.txIds :: id in p.txMap
  {
    NotIn(Lookup(p, p.txIds), excluded)
  }

  /** The first `maxCount` transactions in pool order that are not excluded; all of them for `maxCount == 0`. */
  function Filter(p: Pool, maxCount: nat, excluded: seq<Transaction>): seq<Transaction>
    requires forall id | id in p.txIds :: id in p.txMap
  {
    var all := Available(p, excluded);
    if maxCount == 0 || |all| <= maxCount then all else all[..maxCount]
  }

  lemma {:induction false} NotInDistinct(txs: seq<Transaction>, excluded: seq<Transaction>)
    requires Distinct(txs)
    ensures Distinct(NotIn(txs, excluded))
  {
    if txs != [] {
      var init, last := txs[..|txs| - 1], txs[|txs| - 1];
      assert last !in init;
      NotInDistinct(init, excluded);
    }
  }

  /** What a selection contains: signed transactions of the pool, pairwise distinct, none of them
      excluded and none with a removed id. */
  lemma FilterSelects(env: Env, p: Pool, maxCount: nat, excluded: seq<Transaction>)
    requires PoolOk(env, p)
    ensures var r := Filter(p, maxCount, excluded);
            && Distinct(r)
            && (forall tx | tx in r :: tx !in excluded && GenHash(env, tx) !in p.removed && env.verifySig(tx))
            && (forall tx | tx in r :: GenHash(env, tx) in p.txIds && p.txMap[GenHash(env, tx)] == tx)
            && r <= Available(p, excluded)
            && |r| == (if maxCount == 0 || |Available(p, excluded)| < maxCount then |Available(p, excluded)|
                       else maxCount)
  {
    var l := Lookup(p, p.txIds);
    LookupDistinct(env, p);
    NotInDistinct(l, excluded);
    forall tx | tx in l ensures GenHash(env, tx) in p.txIds && p.txMap[GenHash(env, tx)] == tx {
      var i :| 0 <= i < |l| && l[i] == tx;
      assert p.txIds[i] in p.txIds;
    }
    var r := Filter(p, maxCount, excluded);
    assert forall tx | tx in r :: tx in Available(p, excluded);
  }

  lemma {:induction false} NotInOrder(txs: seq<Transaction>, excluded: seq<Transaction>)
    requires Distinct(txs)
    ensures SameOrder(NotIn(txs, excluded), txs)
  {
    if txs != [] {
      var init, last := txs[..|txs| - 1], txs[|txs| - 1];
      NotInOrder(init, excluded);
      var r := NotIn(txs, excluded);
      forall i, j, a, b
        | 0 <= i < j < |r| && 0 <= a < |txs| && 0 <= b < |txs| && txs[a] == r[i] && txs[b] == r[j]
        ensures a < b
      {
        assert r[i] in NotIn(init, excluded);
        if r[j] != last {
          assert r[i] == NotIn(init, excluded)[i] && r[j] == NotIn(init, excluded)[j];
          assert init[a] == r[i] && init[b] == r[j];
        }
      }
    }
  }

  /** The transactions of the list, in its order. */
  lemma LookupDistinct(env: Env, p: Pool)
    requires PoolOk(env, p)
    ensures Distinct(Lookup(p, p.txIds))
    ensures forall a | 0 <= a < |p.txIds| :: Lookup(p, p.txIds)[a] == p.txMap[p.txIds[a]]
  {
    var l := Lookup(p, p.txIds);
    forall i, j | 0 <= i < j < |l| ensures l[i] != l[j] {
      assert p.txIds[i] in p.txIds && p.txIds[j] in p.txIds;
      assert GenHash(env, l[i]) == p.txIds[i] && GenHash(env, l[j]) == p.txIds[j];
    }
  }

  /** A selected transaction stands in the list of the pool before those selected after it. */
  ghost predicate InListOrder(env: Env, p: Pool, r: seq<Transaction>) {
    forall i, j, a, b | 0 <= i < j < |r| && 0 <= a < |p.txIds| && 0 <= b < |p.txIds|
                        && p.txIds[a] == GenHash(env, r[i]) && p.txIds[b] == GenHash(env, r[j]) :: a < b
  }

  /** Whatever is not excluded and stands in the list at or before a selected transaction is selected. */
  ghost predicate NothingSkipped(env: Env, p: Pool, excluded: seq<Transaction>, r: seq<Transaction>)
    requires forall id | id in p.txIds :: id in p.txMap
  {
    forall a, b, j | 0 <= a <= b < |p.txIds| && 0 <= j < |r| && p.txIds[b] == GenHash(env, r[j])
                     && p.txMap[p.txIds[a]] !in excluded :: p.txMap[p.txIds[a]] in r
  }

  /** Which transactions are selected, and in what order, in terms of the list of the pool alone. */
  lemma FilterInOrder(env: Env, p: Pool, maxCount: nat, excluded: seq<Transaction>)
    requires PoolOk(env, p)
    ensures var r := Filter(p, maxCount, excluded);
            && InListOrder(env, p, r) && NothingSkipped(env, p, excluded, r)
            && (maxCount == 0 || |r| < maxCount ==>
                  forall a | 0 <= a < |p.txIds| && p.txMap[p.txIds[a]] !in excluded :: p.txMap[p.txIds[a]] in r)
            && (maxCount > 0 ==> |r| <= maxCount)
  {
    var l, all, r := Lookup(p, p.txIds), Available(p, excluded), Filter(p, maxCount, excluded);
    LookupDistinct(env, p);
    NotInOrder(l, excluded);
    FilterSelects(env, p, maxCount, excluded);
    OrderOfList(env, p, r, all, excluded);
    forall a | 0 <= a < |p.txIds| && p.txMap[p.txIds[a]] !in excluded && (maxCount == 0 || |r| < maxCount)
      ensures p.txMap[p.txIds[a]] in r
    {
      assert l[a] in all && r == all;
    }
  }

  /** The order of `Lookup` is that of the list. */
  lemma OrderOfList(env: Env, p: Pool, r: seq<Transaction>, all: seq<Transaction>, excluded: seq<Transaction>)
    requires (forall id | id in p.txIds :: id in p.txMap) && r <= all
    requires forall a | 0 <= a < |p.txIds| :: Lookup(p, p.txIds)[a] == p.txMap[p.txIds[a]]
    requires SameOrder(all, Lookup(p, p.txIds))
    requires forall tx | tx in Lookup(p, p.txIds) && tx !in excluded :: tx in all
    requires forall tx | tx in r :: GenHash(env, tx) in p.txIds && p.txMap[GenHash(env, tx)] == tx
    ensures InListOrder(env, p, r) && NothingSkipped(env, p, excluded, r)
  {
    var l := Lookup(p, p.txIds);
    forall i, j, a, b | 0 <= i < j < |r| && 0 <= a < |p.txIds| && 0 <= b < |p.txIds|
                        && p.txIds[a] == GenHash(env, r[i]) && p.txIds[b] == GenHash(env, r[j])
      ensures a < b
    {
      assert l[a] == r[i] == all[i] && l[b] == r[j] == all[j];
    }
    forall a, b, j | 0 <= a <= b < |p.txIds| && 0 <= j < |r| && p.txIds[b] == GenHash(env, r[j])
                     && p.txMap[p.txIds[a]] !in excluded
      ensures p.txMap[p.txIds[a]] in r
    {
      assert l[a] in all && l[b] == r[j] == all[j];
      SelectedBefore(l, all, |r|, a, b, j);
      assert p.txMap[p.txIds[a]] in all[..|r|];
    }
  }

  lemma SelectedBefore(l: seq<Transaction>, all: seq<Transaction>, n: nat, a: nat, b: nat, j: nat)
    requires SameOrder(all, l) && j < n <= |all| && a <= b < |l|
    requires l[a] in all && l[b] == all[j]
    ensures l[a] in all[..n]
  {
    var q :| 0 <= q < |all| && all[q] == l[a];
    assert q < n;
    assert all[..n][q] == l[a];
  }

  lemma {:induction false} NotInAppend(s: seq<Transaction>, t: seq<Transaction>, excluded: seq<Transaction>)
    ensures NotIn(s + t, excluded) == NotIn(s, excluded) + NotIn(t, excluded)
  {
    if t == [] {
      assert s + t == s;
    } else {
      assert (s + t)[..|s + t| - 1] == s + t[..|t| - 1];
      NotInAppend(s, t[..|t| - 1], excluded);
    }
  }

  lemma NotInStep(txs: seq<Transaction>, i: nat, excluded: seq<Transaction>)
    requires i < |txs|
    ensures NotIn(txs[..i + 1], excluded) == NotIn(txs[..i], excluded) + (if txs[i] in excluded then [] else [txs[i]])
  {
    assert txs[..i + 1][..i] == txs[..i];
  }

  lemma EnoughFiltered(p: Pool, maxCount: nat, excluded: seq<Transaction>, i: nat)
    requires forall id | id in p.txIds :: id in p.txMap
    requires i <= |p.txIds| && |NotIn(Lookup(p, p.txIds)[..i], excluded)| == maxCount > 0
    ensures Filter(p, maxCount, excluded) == NotIn(Lookup(p, p.txIds)[..i], excluded)
  {
    var l := Lookup(p, p.txIds);
    var first, rest := NotIn(l[..i], excluded), NotIn(l[i..], excluded);
    assert l == l[..i] + l[i..];
    NotInAppend(l[..i], l[i..], excluded);
    assert (first + rest)[..maxCount] == first;
  }

  lemma AllFiltered(p: Pool, maxCount: nat, excluded: seq<Transaction>, i: nat)
    requires forall id | id in p.txIds :: id in p.txMap
    requires i == |p.txIds| && (maxCount > 0 ==> |NotIn(Lookup(p, p.txIds)[..i], excluded)| < maxCount)
    ensures Filter(p, maxCount, excluded) == NotIn(Lookup(p, p.txIds)[..i], excluded)
  {
    assert Lookup(p, p.txIds)[..i] == Lookup(p, p.txIds);
  }

  // ----- the pool in place -----

  class TxPool {
    const env: Env
    var poolTxIds: seq<TxId>
    var poolTxMap: map<TxId, Transaction>
    var removedTxIds: set<TxId>
    var lastFinalizedBlockId: BlockId

    ghost function AsPool(): Pool
      reads this
    {
      Pool(poolTxIds, poolTxMap, removedTxIds, lastFinalizedBlockId)
    }

    ghost predicate Valid()
      reads this
    {
      PoolOk(env, AsPool())
    }

    constructor (env: Env)
      ensures Valid() && this.env == env && AsPool() == NewPool()
    {
      this.env := env;
      poolTxIds := [];
      poolTxMap := map[];
      removedTxIds := {};
      lastFinalizedBlockId := ROOT_ID;
    }

    method AddTx(tx: Transaction) returns (added: bool)
      requires Valid()
      modifies this
      ensures Valid()
      ensures added <==> && env.sha256(env.txJson(tx)) !in old(poolTxMap)
                         && env.sha256(env.txJson(tx)) !in old(removedTxIds)
                         && |old(poolTxIds)| < 10000 && env.verifySig(tx)
      ensures AsPool() == Add(env, old(AsPool()), tx)
      ensures poolTxIds == old(poolTxIds) + (if added then [env.sha256(env.txJson(tx))] else [])
      ensures poolTxMap == if added then old(poolTxMap)[env.sha256(env.txJson(tx)) := tx] else old(poolTxMap)
    {
      AddKeeps(env, AsPool(), tx);
      var txId := GenHash(env, tx);
      if txId !in poolTxMap && txId !in removedTxIds && |poolTxIds| < MAX_TX_POOL && env.verifySig(tx) {
        poolTxMap := poolTxMap[txId := tx];
        poolTxIds := poolTxIds + [txId];
        return true;
      }
      return false;
    }

    /** The `retain` call: keeps every id but one. */
    method Retain(id: TxId)
      modifies this`poolTxIds
      ensures poolTxIds == Without(old(poolTxIds), id)
    {
      var kept, i := [], 0;
      while i < |poolTxIds|
        invariant 0 <= i <= |poolTxIds|
        invariant kept == Without(poolTxIds[..i], id)
      {
        assert poolTxIds[..i + 1][..i] == poolTxIds[..i];
        if poolTxIds[i] != id {
          kept := kept + [poolTxIds[i]];
        }
        i := i + 1;
      }
      assert poolTxIds[..|poolTxIds|] == poolTxIds;
      poolTxIds := kept;
    }

    method DelTx(txId: TxId)
      requires Valid()
      modifies this
      ensures Valid()
      ensures AsPool() == Delete(old(AsPool()), txId)
    {
      DeleteKeeps(env, AsPool(), txId);
      if txId in poolTxMap {
        poolTxMap := poolTxMap - {txId};
        Retain(txId);
        if txId !in removedTxIds {
          removedTxIds := removedTxIds + {txId};
        }
      }
      assert AsPool() == Delete(old(AsPool()), txId);
    }

    method FilterTx(maxCount: nat, excludingTxs: seq<Transaction>) returns (filtered: seq<Transaction>)
      requires Valid()
      ensures filtered == Filter(AsPool(), maxCount, excludingTxs)
      ensures InListOrder(env, AsPool(), filtered) && NothingSkipped(env, AsPool(), excludingTxs, filtered)
    {
      filtered := Select(maxCount, excludingTxs);
      FilterInOrder(env, AsPool(), maxCount, excludingTxs);
    }

    /** The loop, which relies on no more than that every listed id has a transaction. */
    method Select(maxCount: nat, excludingTxs: seq<Transaction>) returns (filtered: seq<Transaction>)
      requires forall id | id in poolTxIds :: id in poolTxMap
      ensures filtered == Filter(AsPool(), maxCount, excludingTxs)
    {
      ghost var l := Lookup(AsPool(), poolTxIds);
      filtered := [];
      var i := 0;
      while i < |poolTxIds|
        invariant 0 <= i <= |poolTxIds|
        invariant filtered == NotIn(l[..i], excludingTxs)
        invariant maxCount > 0 ==> |filtered| < maxCount
      {
        assert poolTxIds[i] in poolTxIds;
        var tx := poolTxMap[poolTxIds[i]];
        NotInStep(l, i, excludingTxs);
        if tx !in excludingTxs {
          filtered := filtered + [tx];
          if |filtered| == maxCount {
            EnoughFiltered(AsPool(), maxCount, excludingTxs, i + 1);
            return;
          }
        }
        i := i + 1;
      }
      AllFiltered(AsPool(), maxCount, excludingTxs, i);
    }

    method RemoveTxsFromFinalizedBlocks(finalizedBlocks: seq<BlockNode>)
      requires Valid()
      modifies this
      ensures Valid()
      ensures AsPool() == RemoveBlocks(env, old(AsPool()), finalizedBlocks)
    {
      RemoveBlocksKeeps(env, AsPool(), finalizedBlocks);
      var i := 0;
      while i < |finalizedBlocks|
        invariant 0 <= i <= |finalizedBlocks|
        invariant AsPool() == RemoveBlocks(env, old(AsPool()), finalizedBlocks[..i])
      {
        var block := finalizedBlocks[i];
        RemoveTransactions(block.transactions);
        lastFinalizedBlockId := block.header.blockId;
        assert finalizedBlocks[..i + 1][..i] == finalizedBlocks[..i];
        i := i + 1;
      }
      assert finalizedBlocks[..|finalizedBlocks|] == finalizedBlocks;
    }

    method RemoveTransactions(txs: seq<Transaction>)
      modifies this
      ensures AsPool() == RemoveTxs(env, old(AsPool()), txs)
    {
      var j := 0;
      while j < |txs|
        invariant 0 <= j <= |txs|
        invariant AsPool() == RemoveTxs(env, old(AsPool()), txs[..j])
      {
        var txId := GenHash(env, txs[j]);
        Retain(txId);
        removedTxIds := removedTxIds + {txId};
        assert txs[..j + 1][..j] == txs[..j];
        j := j + 1;
      }
      assert txs[..|txs|] == txs;
    }
  }
}
