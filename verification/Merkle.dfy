/** Merkle trees over transaction lists (lib_chain/src/block.rs, `MerkleTree`). */
module Merkle {
  import opened Basics
  import opened Types

  function PairHash(env: Env, a: string, b: string): string {
    env.sha256(a + b)
  }

  function Leaves(env: Env, txs: seq<Transaction>): (hs: seq<string>)
    ensures |hs| == |txs|
  {
    seq(|txs|, i requires 0 <= i < |txs| => GenHash(env, txs[i]))
  }

  /** One level up: neighbours are hashed together, an odd last hash with itself. */
  function NextLevel(env: Env, level: seq<string>): (up: seq<string>)
    ensures |up| == (|level| + 1) / 2
  {
    if level == [] then []
    else if |level| == 1 then [PairHash(env, level[0], level[0])]
    else [PairHash(env, level[0], level[1])] + NextLevel(env, level[2..])
  }

  function RootOf(env: Env, level: seq<string>): string
    requires level != []
    decreases |level|
  {
    if |level| == 1 then level[0] else RootOf(env, NextLevel(env, level))
  }

  function MerkleRoot(env: Env, txs: seq<Transaction>): string {
    if txs == [] then "" else RootOf(env, Leaves(env, txs))
  }

  // ----- an independent definition, from the root down -----

  function Pow2(h: nat): (p: nat)
    ensures p > 0
  {
    if h == 0 then 1 else 2 * Pow2(h - 1)
  }

  /** The number of hashes on level `h` above `n` leaves. */
  function Width(n: nat, h: nat): nat {
    (n + Pow2(h) - 1) / Pow2(h)
  }

  lemma DivUnique(a: nat, d: nat, q: nat, r: nat)
    requires d > 0 && a == d * q + r && r < d
    ensures a / d == q
  {
    var q' := a / d;
    assert d * (q' - q) == r - a % d;
    MulAtLeast(d, q' - q);
  }

  lemma HalfQuotient(a: nat, p: nat, w: nat, r: nat)
    requires p > 0 && a == p * w + r && r < p
    ensures (a + p) / (2 * p) == (w + 1) / 2
  {
    var k := w / 2;
    if w % 2 == 1 {
      OddMultiple(p, k);
      DivUnique(a + p, 2 * p, k + 1, r);
    } else {
      DivUnique(a + p, 2 * p, k, r + p);
    }
  }

  lemma OddMultiple(p: nat, k: nat)
    ensures p * (2 * k + 1) + p == (2 * p) * (k + 1)
  {
  }

  lemma WidthHalves(n: nat, h: nat)
    ensures Width(n, h + 1) == (Width(n, h) + 1) / 2
  {
    var p := Pow2(h);
    HalfQuotient(n + p - 1, p, (n + p - 1) / p, (n + p - 1) % p);
  }

  /** Hash `j` of level `h`: a leaf, or the hash of its two children below, the right child being
      the left one again when the level below ends there. */
  ghost function HashAt(env: Env, leaves: seq<string>, h: nat, j: nat): string
    requires j < Width(|leaves|, h)
    decreases h
  {
    if h == 0 then leaves[j]
    else
      WidthHalves(|leaves|, h - 1);
      var right := if 2 * j + 1 < Width(|leaves|, h - 1) then 2 * j + 1 else 2 * j;
      PairHash(env, HashAt(env, leaves, h - 1, 2 * j), HashAt(env, leaves, h - 1, right))
  }

  lemma {:induction false} NextLevelAt(env: Env, level: seq<string>, j: nat)
    requires j < (|level| + 1) / 2
    ensures NextLevel(env, level)[j]
         == env.sha256(level[2 * j] + level[if 2 * j + 1 < |level| then 2 * j + 1 else 2 * j])
  {
    if |level| > 1 && j > 0 {
      NextLevelAt(env, level[2..], j - 1);
    }
  }

  /** `hashes` is the complete tree over `leaves`: every hash is the one the top-down definition
      gives, level h has ceil(n / 2^h) hashes, and only the last level has a single one. */
  ghost predicate IsMerkleTree(env: Env, leaves: seq<string>, hashes: seq<seq<string>>) {
    && hashes != []
    && (forall h | 0 <= h < |hashes| :: IsLevel(env, leaves, h, hashes[h]))
    && |hashes[|hashes| - 1]| == 1
    && (forall h | 0 <= h < |hashes| - 1 :: |hashes[h]| > 1)
  }

  ghost predicate IsLevel(env: Env, leaves: seq<string>, h: nat, level: seq<string>) {
    && |level| == Width(|leaves|, h)
    && forall j | 0 <= j < |level| :: level[j] == HashAt(env, leaves, h, j)
  }

  /** The hashes of `up`, in order: neighbours of the level below, left before right, an odd last one with
      itself. */
  ghost predicate Pairs(env: Env, level: seq<string>, up: seq<string>) {
    && |up| == (|level| + 1) / 2
    && forall j | 0 <= j < |up| ::
         up[j] == env.sha256(level[2 * j] + level[if 2 * j + 1 < |level| then 2 * j + 1 else 2 * j])
  }

  lemma NextLevelPairs(env: Env, level: seq<string>)
    ensures Pairs(env, level, NextLevel(env, level))
  {
    forall j | 0 <= j < (|level| + 1) / 2
      ensures NextLevel(env, level)[j]
           == env.sha256(level[2 * j] + level[if 2 * j + 1 < |level| then 2 * j + 1 else 2 * j])
    {
      NextLevelAt(env, level, j);
    }
  }

  /** Builds the tree level by level until one hash remains. */
  method CreateMerkleTree(env: Env, txs: seq<Transaction>) returns (rootHash: string, hashes: seq<seq<string>>)
    ensures rootHash == MerkleRoot(env, txs)
    ensures txs == [] ==> rootHash == "" && hashes == []
    ensures txs != [] ==> IsMerkleTree(env, Leaves(env, txs), hashes) && hashes[|hashes| - 1] == [rootHash]
    ensures txs != [] ==> |hashes[0]| == |txs|
    ensures txs != [] ==> forall i | 0 <= i < |txs| :: hashes[0][i] == env.sha256(env.txJson(txs[i]))
    ensures forall h | 0 <= h < |hashes| - 1 :: Pairs(env, hashes[h], hashes[h + 1])
  {
    if txs == [] {
      return "", [];
    }
    var leaves := Leaves(env, txs);
    hashes := [leaves];
    assert IsLevel(env, leaves, 0, leaves);
    while |hashes[|hashes| - 1]| > 1
      invariant Built(env, leaves, hashes) && |hashes[|hashes| - 1]| >= 1
      invariant RootOf(env, hashes[|hashes| - 1]) == RootOf(env, leaves)
      decreases |hashes[|hashes| - 1]|
    {
      var newLevel := HashLevel(env, hashes[|hashes| - 1]);
      AddLevel(env, leaves, hashes, newLevel);
      hashes := hashes + [newLevel];
    }
    rootHash := hashes[|hashes| - 1][0];
  }

  /** The levels built so far. */
  ghost predicate Built(env: Env, leaves: seq<string>, hashes: seq<seq<string>>) {
    && hashes != [] && hashes[0] == leaves
    && (forall h | 0 <= h < |hashes| :: IsLevel(env, leaves, h, hashes[h]))
    && (forall h | 0 <= h < |hashes| - 1 :: |hashes[h]| > 1)
    && (forall h | 0 <= h < |hashes| - 1 :: Pairs(env, hashes[h], hashes[h + 1]))
  }

  lemma AddLevel(env: Env, leaves: seq<string>, hashes: seq<seq<string>>, newLevel: seq<string>)
    requires Built(env, leaves, hashes) && |hashes[|hashes| - 1]| > 1
    requires newLevel == NextLevel(env, hashes[|hashes| - 1])
    ensures Built(env, leaves, hashes + [newLevel])
  {
    LevelAbove(env, leaves, hashes[|hashes| - 1], |hashes| - 1);
    NextLevelPairs(env, hashes[|hashes| - 1]);
  }

  lemma OnePair(env: Env, level: seq<string>, i: nat, done: seq<string>)
    requires i + 2 <= |level| && done + NextLevel(env, level[i..]) == NextLevel(env, level)
    ensures done + [PairHash(env, level[i], level[i + 1])] + NextLevel(env, level[i + 2..]) == NextLevel(env, level)
  {
    assert level[i..][2..] == level[i + 2..];
    PairFirst(done, PairHash(env, level[i], level[i + 1]), NextLevel(env, level[i + 2..]));
  }

  lemma PairFirst(done: seq<string>, h: string, rest: seq<string>)
    ensures done + ([h] + rest) == done + [h] + rest
  {
  }

  lemma OddEnd(env: Env, level: seq<string>, i: nat, done: seq<string>)
    requires i + 1 == |level| && done + NextLevel(env, level[i..]) == NextLevel(env, level)
    ensures done + [PairHash(env, level[i], level[i])] == NextLevel(env, level)
  {
    assert level[i..] == [level[i]];
  }

  method HashLevel(env: Env, lastLevel: seq<string>) returns (newLevel: seq<string>)
    ensures newLevel == NextLevel(env, lastLevel)
    ensures Pairs(env, lastLevel, newLevel)
  {
    newLevel := [];
    var i := 0;
    while i + 2 <= |lastLevel|
      invariant 0 <= i <= |lastLevel| && i % 2 == 0
      invariant newLevel + NextLevel(env, lastLevel[i..]) == NextLevel(env, lastLevel)
    {
      OnePair(env, lastLevel, i, newLevel);
      newLevel := newLevel + [PairHash(env, lastLevel[i], lastLevel[i + 1])];
      i := i + 2;
    }
    if |lastLevel| % 2 == 1 {
      var lastHash := lastLevel[|lastLevel| - 1];
      OddEnd(env, lastLevel, i, newLevel);
      newLevel := newLevel + [PairHash(env, lastHash, lastHash)];
    } else {
      assert lastLevel[i..] == [];
    }
    NextLevelPairs(env, lastLevel);
  }

  lemma LevelAbove(env: Env, leaves: seq<string>, level: seq<string>, h: nat)
    requires IsLevel(env, leaves, h, level)
    ensures IsLevel(env, leaves, h + 1, NextLevel(env, level))
  {
    WidthHalves(|leaves|, h);
    forall j | 0 <= j < |NextLevel(env, level)|
      ensures NextLevel(env, level)[j] == HashAt(env, leaves, h + 1, j)
    {
      NextLevelAt(env, level, j);
    }
  }

  // ----- binding -----

  const DIGEST_LEN := 64

  ghost predicate Digests(level: seq<string>) {
    forall i | 0 <= i < |level| :: |level[i]| == DIGEST_LEN
  }

  lemma {:induction false} NextLevelDigests(env: Env, level: seq<string>)
    requires forall x :: |env.sha256(x)| == DIGEST_LEN
    ensures Digests(NextLevel(env, level))
  {
    if |level| > 1 {
      NextLevelDigests(env, level[2..]);
    }
  }

  lemma {:induction false} NextLevelBinding(env: Env, a: seq<string>, b: seq<string>) returns (x: string, y: string)
    requires |a| == |b| && Digests(a) && Digests(b)
    requires NextLevel(env, a) == NextLevel(env, b)
    ensures a == b || Collision(env, x, y)
  {
    x, y := "", "";
    if a == b {
      return;
    }
    var i :| 0 <= i < |a| && a[i] != b[i];
    var j := i / 2;
    NextLevelAt(env, a, j);
    NextLevelAt(env, b, j);
    var r := if 2 * j + 1 < |a| then 2 * j + 1 else 2 * j;
    x, y := a[2 * j] + a[r], b[2 * j] + b[r];
    assert x[..DIGEST_LEN] == a[2 * j] && x[DIGEST_LEN..] == a[r];
    assert y[..DIGEST_LEN] == b[2 * j] && y[DIGEST_LEN..] == b[r];
  }

  /** Two equally long lists with the same root are the same list, or hashing them has produced a
      collision of the hash function, which the lemma hands back. */
  lemma {:induction false} RootBinding(env: Env, a: seq<string>, b: seq<string>) returns (x: string, y: string)
    requires |a| == |b| > 0 && Digests(a) && Digests(b)
    requires forall s :: |env.sha256(s)| == DIGEST_LEN
    requires RootOf(env, a) == RootOf(env, b)
    ensures a == b || Collision(env, x, y)
    decreases |a|
  {
    x, y := "", "";
    if |a| > 1 {
      NextLevelDigests(env, a);
      NextLevelDigests(env, b);
      x, y := RootBinding(env, NextLevel(env, a), NextLevel(env, b));
      if NextLevel(env, a) == NextLevel(env, b) {
        x, y := NextLevelBinding(env, a, b);
      }
    }
  }

  /** The root of two transactions. */
  lemma RootOfTwo(env: Env, s: Transaction, t: Transaction)
    ensures MerkleRoot(env, [s, t]) == env.sha256(env.sha256(env.txJson(s)) + env.sha256(env.txJson(t)))
  {
    var leaves := Leaves(env, [s, t]);
    assert leaves == [GenHash(env, s), GenHash(env, t)];
    assert NextLevel(env, leaves) == [PairHash(env, leaves[0], leaves[1])] by {
      assert leaves[2..] == [];
    }
    assert RootOf(env, leaves) == RootOf(env, NextLevel(env, leaves));
  }

  /** The same for transaction lists: equal roots mean that the transactions are serialised alike, position by
      position. */
  lemma MerkleRootBinding(env: Env, s: seq<Transaction>, t: seq<Transaction>) returns (x: string, y: string)
    requires |s| == |t|
    requires forall m :: |env.sha256(m)| == DIGEST_LEN
    requires MerkleRoot(env, s) == MerkleRoot(env, t)
    ensures (forall i | 0 <= i < |s| :: env.txJson(s[i]) == env.txJson(t[i])) || Collision(env, x, y)
  {
    x, y := "", "";
    if s != [] {
      x, y := RootBinding(env, Leaves(env, s), Leaves(env, t));
      if Leaves(env, s) == Leaves(env, t) {
        x, y := LeavesBinding(env, s, t);
      }
    }
  }

  lemma LeavesBinding(env: Env, s: seq<Transaction>, t: seq<Transaction>) returns (x: string, y: string)
    requires |s| == |t| && Leaves(env, s) == Leaves(env, t)
    ensures (forall i | 0 <= i < |s| :: env.txJson(s[i]) == env.txJson(t[i])) || Collision(env, x, y)
  {
    x, y := "", "";
    if i :| 0 <= i < |s| && env.txJson(s[i]) != env.txJson(t[i]) {
      x, y := env.txJson(s[i]), env.txJson(t[i]);
      assert Leaves(env, s)[i] == Leaves(env, t)[i];
    }
  }

  lemma {:induction false} OddTailRepeats(env: Env, level: seq<string>)
    requires |level| % 2 == 1
    ensures NextLevel(env, level + [level[|level| - 1]]) == NextLevel(env, level)
  {
    var longer := level + [level[|level| - 1]];
    if |level| == 1 {
      assert longer[2..] == [];
    } else {
      assert longer[2..] == level[2..] + [level[2..][|level| - 3]];
      OddTailRepeats(env, level[2..]);
    }
  }

  /** Equal length is needed for binding: for an odd number n >= 3 of transactions, repeating the last
      one leaves the root unchanged; for n == 1 it does so only through a collision-like coincidence. */
  lemma RepeatedLastTransaction(env: Env, txs: seq<Transaction>)
    requires |txs| % 2 == 1
    ensures |txs| >= 3 ==> MerkleRoot(env, txs + [txs[|txs| - 1]]) == MerkleRoot(env, txs)
    ensures |txs| == 1 ==> MerkleRoot(env, txs + txs) == env.sha256(MerkleRoot(env, txs) + MerkleRoot(env, txs))
  {
    var longer := txs + [txs[|txs| - 1]];
    assert Leaves(env, longer) == Leaves(env, txs) + [Leaves(env, txs)[|txs| - 1]];
    OddTailRepeats(env, Leaves(env, txs));
    if |txs| == 1 {
      assert longer == txs + txs;
      var l := Leaves(env, txs);
      assert Leaves(env, longer) == l + [l[0]];
      assert RootOf(env, l + [l[0]]) == RootOf(env, NextLevel(env, l));
    }
  }
}
