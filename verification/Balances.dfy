/** Account arithmetic: applying transactions and blocks to a balance map, replay from the
    genesis block, the affordability scan, and the laws they satisfy. */
module Balances {
  import opened Types

  type BalanceMap = map<UserId, int>

  /** A missing entry counts as 0. */
  function Get(m: BalanceMap, u: UserId): int {
    if u in m then m[u] else 0
  }

  function Credit(m: BalanceMap, u: UserId, amount: int): BalanceMap {
    m[u := Get(m, u) + amount]
  }

  function ApplyTx(m: BalanceMap, tx: Transaction): BalanceMap {
    Credit(Credit(m, tx.sender, -tx.amount), tx.receiver, tx.amount)
  }

  function ApplyTxs(m: BalanceMap, txs: seq<Transaction>): BalanceMap {
    if txs == [] then m
    else ApplyTx(ApplyTxs(m, txs[..|txs| - 1]), txs[|txs| - 1])
  }

  function Reward(m: BalanceMap, u: UserId): BalanceMap {
    Credit(m, u, MINING_REWARD)
  }

  function ApplyBlock(m: BalanceMap, b: BlockNode): BalanceMap {
    Reward(ApplyTxs(m, b.transactions), b.header.rewardReceiver)
  }

  function GenesisBalances(): BalanceMap {
    map[ALICE := GENESIS_AMOUNT]
  }

  /** The balances after every block of a path that starts at the genesis block. */
  function Replay(path: seq<BlockNode>): BalanceMap {
    if |path| <= 1 then GenesisBalances()
    else ApplyBlock(Replay(path[..|path| - 1]), path[|path| - 1])
  }

  /** Every sender, in order, can pay out of what the map holds when its turn comes. */
  predicate Scan(m: BalanceMap, txs: seq<Transaction>)
    decreases |txs|
  {
    txs == [] || (Get(m, txs[0].sender) >= txs[0].amount && Scan(ApplyTx(m, txs[0]), txs[1..]))
  }

  ghost function IdsOf(env: Env, txs: seq<Transaction>): set<TxId> {
    set tx | tx in txs :: GenHash(env, tx)
  }

  ghost predicate HasId(env: Env, b: BlockNode, id: TxId) {
    exists tx :: tx in b.transactions && id == env.sha256(env.txJson(tx))
  }

  /** One of the blocks has a transaction with this id. */
  ghost predicate OccursIn(env: Env, blocks: seq<BlockNode>, id: TxId) {
    exists b :: b in blocks && HasId(env, b, id)
  }

  /** The ids of the transactions of the non-genesis blocks of a path. */
  ghost function TxIdsOf(env: Env, path: seq<BlockNode>): set<TxId> {
    set i, tx | 1 <= i < |path| && tx in path[i].transactions :: GenHash(env, tx)
  }

  lemma TxIdsExtend(env: Env, path: seq<BlockNode>, b: BlockNode)
    requires path != []
    ensures TxIdsOf(env, path + [b]) == TxIdsOf(env, path) + IdsOf(env, b.transactions)
  {
    var longer := path + [b];
    forall i, tx | 1 <= i < |path| && tx in path[i].transactions ensures GenHash(env, tx) in TxIdsOf(env, longer) {
      assert tx in longer[i].transactions;
    }
    forall tx | tx in b.transactions ensures GenHash(env, tx) in TxIdsOf(env, longer) {
      assert tx in longer[|path|].transactions;
    }
    forall i, tx | 1 <= i < |longer| && tx in longer[i].transactions
      ensures GenHash(env, tx) in TxIdsOf(env, path) + IdsOf(env, b.transactions)
    {
      if i < |path| { assert tx in path[i].transactions; }
    }
  }

  lemma IdsOccur(env: Env, path: seq<BlockNode>, id: TxId)
    requires path != []
    ensures id in TxIdsOf(env, path) <==> OccursIn(env, path[1..], id)
  {
    if id in TxIdsOf(env, path) {
      var j, tx :| 1 <= j < |path| && tx in path[j].transactions && id == GenHash(env, tx);
      assert path[1..][j - 1] == path[j] && HasId(env, path[j], id);
    }
    if OccursIn(env, path[1..], id) {
      var b :| b in path[1..] && HasId(env, b, id);
      var j :| 1 <= j < |path| && path[j] == b;
      var tx :| tx in path[j].transactions && id == GenHash(env, tx);
    }
  }

  // ----- what one user gains -----

  function NetTx(tx: Transaction, u: UserId): int {
    (if u == tx.receiver then tx.amount else 0) - (if u == tx.sender then tx.amount else 0)
  }

  function Net(txs: seq<Transaction>, u: UserId): int {
    if txs == [] then 0 else Net(txs[..|txs| - 1], u) + NetTx(txs[|txs| - 1], u)
  }

  function NetBlocks(path: seq<BlockNode>, u: UserId): int {
    if path == [] then 0
    else NetBlocks(path[..|path| - 1], u) + Net(path[|path| - 1].transactions, u)
  }

  function Rewards(path: seq<BlockNode>, u: UserId): int {
    if path == [] then 0
    else Rewards(path[..|path| - 1], u)
         + (if path[|path| - 1].header.rewardReceiver == u then MINING_REWARD else 0)
  }

  lemma ApplyTxNet(m: BalanceMap, tx: Transaction, u: UserId)
    ensures Get(ApplyTx(m, tx), u) == Get(m, u) + NetTx(tx, u)
  {
  }

  lemma {:induction false} ApplyTxsNet(m: BalanceMap, txs: seq<Transaction>, u: UserId)
    ensures Get(ApplyTxs(m, txs), u) == Get(m, u) + Net(txs, u)
  {
    if txs != [] {
      ApplyTxsNet(m, txs[..|txs| - 1], u);
    }
  }

  lemma {:induction false} NetAppend(s: seq<Transaction>, t: seq<Transaction>, u: UserId)
    ensures Net(s + t, u) == Net(s, u) + Net(t, u)
  {
    if t == [] {
      assert s + t == s;
    } else {
      assert (s + t)[..|s + t| - 1] == s + t[..|t| - 1];
      NetAppend(s, t[..|t| - 1], u);
    }
  }

  lemma {:induction false} ReplayNet(base: seq<BlockNode>, seg: seq<BlockNode>, u: UserId)
    requires base != []
    ensures Get(Replay(base + seg), u) == Get(Replay(base), u) + NetBlocks(seg, u) + Rewards(seg, u)
  {
    if seg == [] {
      assert base + seg == base;
    } else {
      var init, b := seg[..|seg| - 1], seg[|seg| - 1];
      assert (base + seg)[..|base + seg| - 1] == base + init;
      ReplayNet(base, init, u);
      ApplyTxsNet(Replay(base + init), b.transactions, u);
    }
  }

  /** What the ledger is made of, user by user. The genesis block gives Alice 299792458; a block applies its
      transactions and pays 10 to its reward receiver; a transaction moves its amount from its sender to its
      receiver. */
  lemma ReplayStep(path: seq<BlockNode>, b: BlockNode, u: UserId)
    requires path != []
    ensures Replay([GenesisBlock()]) == map[ALICE := 299792458]
    ensures Get(Replay(path + [b]), u)
         == Get(Replay(path), u) + Net(b.transactions, u) + (if b.header.rewardReceiver == u then 10 else 0)
  {
    assert (path + [b])[..|path|] == path;
    ApplyTxsNet(Replay(path), b.transactions, u);
  }

  lemma NetStep(txs: seq<Transaction>, tx: Transaction, u: UserId)
    ensures Net([], u) == 0
    ensures tx.sender != tx.receiver ==>
              Net(txs + [tx], u) == Net(txs, u) + (if u == tx.receiver then tx.amount
                                                   else if u == tx.sender then -tx.amount else 0)
    ensures tx.sender == tx.receiver ==> Net(txs + [tx], u) == Net(txs, u)
  {
    assert (txs + [tx])[..|txs|] == txs;
  }

  // ----- the scan only looks at balances -----

  lemma {:induction false} ScanMonotone(lo: BalanceMap, hi: BalanceMap, txs: seq<Transaction>)
    requires forall u :: Get(lo, u) <= Get(hi, u)
    requires Scan(lo, txs)
    ensures Scan(hi, txs)
    decreases |txs|
  {
    if txs != [] {
      forall u ensures Get(ApplyTx(lo, txs[0]), u) <= Get(ApplyTx(hi, txs[0]), u) {
        ApplyTxNet(lo, txs[0], u);
        ApplyTxNet(hi, txs[0], u);
      }
      ScanMonotone(ApplyTx(lo, txs[0]), ApplyTx(hi, txs[0]), txs[1..]);
    }
  }

  /** Transaction k's sender can pay its amount once the transactions before it are applied. */
  ghost predicate CanPayAt(m: BalanceMap, txs: seq<Transaction>, k: nat)
    requires k < |txs|
  {
    Get(ApplyTxs(m, txs[..k]), txs[k].sender) >= txs[k].amount
  }

  lemma {:induction false} CanPayShift(m: BalanceMap, txs: seq<Transaction>, k: nat)
    requires k + 1 < |txs|
    ensures CanPayAt(m, txs, k + 1) <==> CanPayAt(ApplyTx(m, txs[0]), txs[1..], k)
  {
    assert txs[..k + 1] == [txs[0]] + txs[1..][..k];
    ApplyTxsFront(m, txs[0], txs[1..][..k]);
  }

  /** The scan passes exactly if each sender can pay from what the transactions before it have left. */
  lemma ScanExact(m: BalanceMap, txs: seq<Transaction>)
    ensures Scan(m, txs)
       <==> forall k: nat | k < |txs| :: Get(m, txs[k].sender) + Net(txs[..k], txs[k].sender) >= txs[k].amount
  {
    ScanEach(m, txs);
    forall k: nat | k < |txs|
      ensures CanPayAt(m, txs, k) <==> Get(m, txs[k].sender) + Net(txs[..k], txs[k].sender) >= txs[k].amount
    {
      ApplyTxsNet(m, txs[..k], txs[k].sender);
    }
  }

  lemma {:induction false} ScanEach(m: BalanceMap, txs: seq<Transaction>)
    ensures Scan(m, txs) <==> forall k: nat | k < |txs| :: CanPayAt(m, txs, k)
    decreases |txs|
  {
    if txs != [] {
      var m1, rest := ApplyTx(m, txs[0]), txs[1..];
      ScanEach(m1, rest);
      assert CanPayAt(m, txs, 0) <==> Get(m, txs[0].sender) >= txs[0].amount by {
        assert txs[..0] == [];
      }
      if Scan(m, txs) {
        forall k: nat | k < |txs| ensures CanPayAt(m, txs, k) {
          if k > 0 { CanPayShift(m, txs, k - 1); }
        }
      } else if CanPayAt(m, txs, 0) {
        var k: nat :| k < |rest| && !CanPayAt(m1, rest, k);
        CanPayShift(m, txs, k);
        assert !CanPayAt(m, txs, k + 1);
      }
    }
  }

  ghost predicate NonNegative(m: BalanceMap) {
    forall u :: Get(m, u) >= 0
  }

  ghost predicate AmountsNonNegative(txs: seq<Transaction>) {
    forall tx | tx in txs :: tx.amount >= 0
  }

  lemma {:induction false} ApplyTxsFront(m: BalanceMap, tx: Transaction, rest: seq<Transaction>)
    ensures ApplyTxs(m, [tx] + rest) == ApplyTxs(ApplyTx(m, tx), rest)
  {
    var all := [tx] + rest;
    if rest == [] {
      assert all[..0] == [];
    } else {
      assert all[..|all| - 1] == [tx] + rest[..|rest| - 1];
      ApplyTxsFront(m, tx, rest[..|rest| - 1]);
    }
  }

  /** A passed scan over non-negative amounts overdraws nobody, at no point of the list. */
  lemma {:induction false} ScanKeepsNonNegative(m: BalanceMap, txs: seq<Transaction>, k: nat)
    requires NonNegative(m) && AmountsNonNegative(txs) && Scan(m, txs) && k <= |txs|
    ensures NonNegative(ApplyTxs(m, txs[..k]))
    decreases |txs|
  {
    if k > 0 {
      assert txs[0] in txs;
      var m1 := ApplyTx(m, txs[0]);
      forall u ensures Get(m1, u) >= 0 {
        ApplyTxNet(m, txs[0], u);
      }
      ScanKeepsNonNegative(m1, txs[1..], k - 1);
      assert txs[..k] == [txs[0]] + txs[1..][..k - 1];
      ApplyTxsFront(m, txs[0], txs[1..][..k - 1]);
    }
  }

  // ----- conservation -----

  ghost function Total(m: BalanceMap): int {
    if m == map[] then 0
    else var u :| u in m; m[u] + Total(m - {u})
  }

  lemma {:induction false} TotalRemove(m: BalanceMap, v: UserId)
    requires v in m
    ensures Total(m) == m[v] + Total(m - {v})
    decreases |m|
  {
    var u :| u in m && Total(m) == m[u] + Total(m - {u});
    if u != v {
      TotalRemove(m - {u}, v);
      TotalRemove(m - {v}, u);
      assert m - {u} - {v} == m - {v} - {u};
    }
  }

  lemma TotalCredit(m: BalanceMap, u: UserId, amount: int)
    ensures Total(Credit(m, u, amount)) == Total(m) + amount
  {
    var m' := Credit(m, u, amount);
    TotalRemove(m', u);
    assert m' - {u} == m - {u};
    if u in m {
      TotalRemove(m, u);
    } else {
      assert m - {u} == m;
    }
  }

  lemma {:induction false} TotalApplyTxs(m: BalanceMap, txs: seq<Transaction>)
    ensures Total(ApplyTxs(m, txs)) == Total(m)
  {
    if txs != [] {
      var m0, tx := ApplyTxs(m, txs[..|txs| - 1]), txs[|txs| - 1];
      TotalApplyTxs(m, txs[..|txs| - 1]);
      TotalCredit(m0, tx.sender, -tx.amount);
      TotalCredit(Credit(m0, tx.sender, -tx.amount), tx.receiver, tx.amount);
    }
  }

  /** Transactions move money and each block mints one reward, so a replayed path holds exactly the
      genesis amount plus ten per non-genesis block. */
  lemma {:induction false} ReplayConserves(path: seq<BlockNode>)
    requires path != []
    ensures Total(Replay(path)) == 299792458 + 10 * (|path| - 1)
  {
    if |path| == 1 {
      var g := GenesisBalances();
      TotalRemove(g, ALICE);
      assert g - {ALICE} == map[];
    } else {
      var before, b := Replay(path[..|path| - 1]), path[|path| - 1];
      ReplayConserves(path[..|path| - 1]);
      TotalApplyTxs(before, b.transactions);
      TotalCredit(ApplyTxs(before, b.transactions), b.header.rewardReceiver, MINING_REWARD);
    }
  }
}
