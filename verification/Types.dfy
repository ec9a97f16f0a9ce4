/** The values the node's components exchange, and the library calls they rely on.

    Hashing, JSON serialisation, signature checking and nonce generation are not modelled:
    they are the function-valued fields of `Env`, about which nothing is assumed unless a
    lemma says so. The message string of a transaction is replaced by the amount it parses to
    and the remaining comment. */
module Types {
  type UserId = string
  type BlockId = string
  type TxId = string

  datatype Transaction = Transaction(sender: UserId, receiver: UserId, amount: int, comment: string, sig: string)

  datatype Puzzle = Puzzle(parent: BlockId, merkleRoot: string, rewardReceiver: UserId)

  datatype BlockNodeHeader = BlockNodeHeader(
    parent: BlockId,
    merkleRoot: string,
    timestamp: nat,
    blockId: BlockId,
    nonce: string,
    rewardReceiver: UserId)

  datatype BlockNode = BlockNode(header: BlockNodeHeader, merkleTree: seq<seq<string>>, transactions: seq<Transaction>)

  datatype Env = Env(
    sha256: string -> string,
    txJson: Transaction -> string,
    puzzleJson: Puzzle -> string,
    verifySig: Transaction -> bool,
    nonceFor: (nat, nat) -> string)

  const ROOT_ID: BlockId := "0"
  const ALICE: UserId := "MDgCMQCqrJ1yIJ7cDQIdTuS+4CkKn/tQPN7bZFbbGCBhvjQxs71f6Vu+sD9eh8JGpfiZSckCAwEAAQ=="
  const GENESIS_AMOUNT := 299792458
  const MINING_REWARD := 10

  function GenesisBlock(): BlockNode {
    BlockNode(
      BlockNodeHeader(ROOT_ID, "0", 0, ROOT_ID, "0", "GENESIS"),
      [],
      [Transaction("GENESIS", ALICE, GENESIS_AMOUNT, "", "GENESIS")])
  }

  function GenHash(env: Env, tx: Transaction): TxId {
    env.sha256(env.txJson(tx))
  }

  function PuzzleOf(h: BlockNodeHeader): Puzzle {
    Puzzle(h.parent, h.merkleRoot, h.rewardReceiver)
  }

  predicate StartsWithZeros(s: string, n: nat) {
    n <= |s| && forall i | 0 <= i < n :: s[i] == '0'
  }

  /** The block carries the hash of its nonce and puzzle, that hash meets the difficulty, and every
      transaction is signed. The Merkle root is not recomputed here. */
  predicate BlockIntegrity(env: Env, b: BlockNode, leadingZeroLen: nat) {
    && b.header.blockId == env.sha256(b.header.nonce + env.puzzleJson(PuzzleOf(b.header)))
    && StartsWithZeros(b.header.blockId, leadingZeroLen)
    && forall tx | tx in b.transactions :: env.verifySig(tx)
  }

  /** What the integrity check demands, in terms of the hash and signature functions alone. */
  lemma IntegrityExactly(env: Env, b: BlockNode, leadingZeroLen: nat)
    ensures BlockIntegrity(env, b, leadingZeroLen)
       <==> && b.header.blockId
               == env.sha256(b.header.nonce
                             + env.puzzleJson(Puzzle(b.header.parent, b.header.merkleRoot, b.header.rewardReceiver)))
            && seq(leadingZeroLen, _ => '0') <= b.header.blockId
            && (forall tx | tx in b.transactions :: env.verifySig(tx))
  {
    ZerosExactly(b.header.blockId, leadingZeroLen);
  }

  lemma ZerosExactly(s: string, n: nat)
    ensures StartsWithZeros(s, n) <==> seq(n, _ => '0') <= s
  {
    if StartsWithZeros(s, n) {
      assert s[..n] == seq(n, _ => '0');
    }
    if seq(n, _ => '0') <= s {
      assert forall i | 0 <= i < n :: s[i] == seq(n, _ => '0')[i];
    }
  }

  /** Two different strings with the same hash. */
  ghost predicate Collision(env: Env, x: string, y: string) {
    x != y && env.sha256(x) == env.sha256(y)
  }

  /** A block id binds the nonce and the puzzle: two integral blocks with the same id and equally long nonces
      agree in both, or hashing them has produced a collision, which the lemma hands back. */
  lemma BlockIdBinding(env: Env, b: BlockNode, c: BlockNode, n: nat, m: nat) returns (x: string, y: string)
    requires BlockIntegrity(env, b, n) && BlockIntegrity(env, c, m)
    requires b.header.blockId == c.header.blockId && |b.header.nonce| == |c.header.nonce|
    ensures (&& b.header.nonce == c.header.nonce
             && env.puzzleJson(Puzzle(b.header.parent, b.header.merkleRoot, b.header.rewardReceiver))
                == env.puzzleJson(Puzzle(c.header.parent, c.header.merkleRoot, c.header.rewardReceiver)))
            || Collision(env, x, y)
  {
    var p, q := env.puzzleJson(PuzzleOf(b.header)), env.puzzleJson(PuzzleOf(c.header));
    x, y := b.header.nonce + p, c.header.nonce + q;
    if x == y {
      assert x[..|b.header.nonce|] == b.header.nonce && x[|b.header.nonce|..] == p;
      assert y[..|c.header.nonce|] == c.header.nonce && y[|c.header.nonce|..] == q;
    }
  }

  // ----- the order on block ids that picks the working block -----

  predicate IdLeq(a: BlockId, b: BlockId) {
    a == [] || (b != [] && (a[0] < b[0] || (a[0] == b[0] && IdLeq(a[1..], b[1..]))))
  }

  lemma {:induction false} IdLeqTotalOrder(a: BlockId, b: BlockId, c: BlockId)
    ensures IdLeq(a, a)
    ensures IdLeq(a, b) || IdLeq(b, a)
    ensures IdLeq(a, b) && IdLeq(b, a) ==> a == b
    ensures IdLeq(a, b) && IdLeq(b, c) ==> IdLeq(a, c)
    decreases |a| + |b| + |c|
  {
    if a != [] {
      IdLeqTotalOrder(a[1..], if b == [] then [] else b[1..], if c == [] then [] else c[1..]);
      if b != [] && a[0] == b[0] && a[1..] == b[1..] {
        assert a == [a[0]] + a[1..] == b;
      }
    }
  }

  /** The order is the lexicographic one: the first character in which two ids differ decides, and a prefix
      comes first. */
  lemma {:induction false} IdLeqExactly(a: BlockId, b: BlockId)
    ensures IdLeq(a, b) <==> a <= b || exists i :: DiffersAt(a, b, i) && a[i] < b[i]
  {
    if a != [] && b != [] && a[0] == b[0] {
      IdLeqExactly(a[1..], b[1..]);
      PrefixTail(a, b);
      if i :| DiffersAt(a[1..], b[1..], i) && a[1..][i] < b[1..][i] {
        DiffersTail(a, b, i);
      }
      if i :| DiffersAt(a, b, i) && a[i] < b[i] {
        DiffersTail(a, b, i - 1);
      }
    } else if a != [] && b != [] {
      assert DiffersAt(a, b, 0);
    }
  }

  /** The ids agree up to position `i`, and differ there. */
  ghost predicate DiffersAt(a: BlockId, b: BlockId, i: int) {
    0 <= i < |a| && i < |b| && a[..i] == b[..i] && a[i] != b[i]
  }

  lemma PrefixTail(a: BlockId, b: BlockId)
    requires a != [] && b != [] && a[0] == b[0]
    ensures a <= b <==> a[1..] <= b[1..]
  {
    assert a == [a[0]] + a[1..] && b == [b[0]] + b[1..];
  }

  lemma DiffersTail(a: BlockId, b: BlockId, i: int)
    requires a != [] && b != [] && a[0] == b[0] && i >= 0
    ensures DiffersAt(a, b, i + 1) <==> DiffersAt(a[1..], b[1..], i)
  {
    if i < |a| - 1 && i < |b| - 1 {
      assert a[..i + 1] == [a[0]] + a[1..][..i] && b[..i + 1] == [b[0]] + b[1..][..i];
      assert a[1..][..i] == a[..i + 1][1..] && b[1..][..i] == b[..i + 1][1..];
    }
  }

  /** Where the two ids first differ, `w` has the larger character; and `c` does not extend `w`. */
  ghost predicate NotBelow(w: BlockId, c: BlockId) {
    !(w < c) && forall i | 0 <= i < |c| && i < |w| && c[..i] == w[..i] && c[i] != w[i] :: c[i] < w[i]
  }

  lemma LargerWhereDifferent(c: BlockId, w: BlockId)
    requires IdLeq(c, w)
    ensures NotBelow(w, c)
  {
    if w < c {
      IdLeqExactly(w, c);
      IdLeqTotalOrder(c, w, c);
    }
    forall i | 0 <= i < |c| && i < |w| && c[..i] == w[..i] && c[i] != w[i] ensures c[i] < w[i] {
      assert DiffersAt(w, c, i);
      if w[i] < c[i] {
        IdLeqExactly(w, c);
        IdLeqTotalOrder(c, w, c);
      }
    }
  }

  lemma BelowMax(ids: seq<BlockId>, m: BlockId, last: BlockId)
    requires forall x | x in ids :: IdLeq(x, m)
    ensures IdLeq(m, last) ==> forall x | x in ids :: IdLeq(x, last)
    ensures IdLeq(m, last) || IdLeq(last, m)
  {
    IdLeqTotalOrder(m, last, last);
    forall x | x in ids && IdLeq(m, last) ensures IdLeq(x, last) {
      IdLeqTotalOrder(x, m, last);
    }
  }

  /** The largest id of a list of children. */
  function MaxId(ids: seq<BlockId>): (m: BlockId)
    requires ids != []
    ensures m in ids
    ensures forall x | x in ids :: IdLeq(x, m)
  {
    var last := ids[|ids| - 1];
    IdLeqTotalOrder(last, last, last);
    if |ids| == 1 then last
    else
      var init := ids[..|ids| - 1];
      assert ids == init + [last];
      var m := MaxId(init);
      BelowMax(init, m, last);
      if IdLeq(m, last) then last else m
  }
}
