# A Nakamoto node, modelled and proved in Dafny

This project models the logic of one Nakamoto node, as written in Rust in this repository: the block
tree, the Merkle tree, the transaction pool, the parallel puzzle miner, the gossip layer, and the
threads that tie them together. `dafny verify dfyconfig.toml` checks all of it.

## How the model is laid out

| file | content |
|---|---|
| `Basics.dfy` | duplicate-free sequences, order kept by a selection, an arithmetic fact |
| `Types.dfy` | blocks, transactions, the library functions (`Env`), the order on block ids |
| `Merkle.dfy`, `Ancestry.dfy` | the level-by-level Merkle construction, and what comparing Merkle roots can and cannot detect |
| `Balances.dfy` | account arithmetic, replay from the genesis block, the affordability scan |
| `Forest.dfy` | stored blocks, the path from the genesis block to a block, the walk towards the root |
| `Tree.dfy`, `TreeInvariant.dfy` | what the block tree computes, as functions on values; the invariant of every reachable tree |
| `Deliveries.dfy`, `DeliveryOrder.dfy`, `Orphans.dfy` | `add_block` as a relation (the iteration order over orphans is open), runs of deliveries, order of delivery, lost orphans |
| `Solvency.dfy`, `FinalizedReads.dfy` | the balance check against true replay; reading finalized blocks |
| `Acceptance.dfy` | which blocks a delivery accepts, and what every stored block therefore satisfies, in terms of hashes and signatures |
| `Reachable.dfy` | the properties of the block tree, restated for every state of every run |
| `Witnesses.dfy`, `Hangs.dfy`, `NodeWitnesses.dfy` | runs from a new tree, and of a new node, on which the code falls short of its documentation |
| `BlockTree.dfy` | the class `BlockTree`, its fields updated in place, every method proved against the modules above |
| `TxPool.dfy` | the pool's operations, their laws, and the class that performs them in place |
| `Node.dfy` | block assembly and validation; block receiver, transaction receiver and miner thread interleaved |
| `Arrivals.dfy` | what enters the node in every interleaving: transactions, blocks, and the blocks its miner assembles and solves |
| `Miner.dfy` | `solve_puzzle` with its workers, lock, token and joins, in every interleaving and over any number of calls |
| `Gossip.dfy` | one network node in place, and the network of such nodes with the messages in flight |

SHA-256, JSON serialisation, signature checking and the seeded nonce generator are function-valued
fields of `Env`. Nothing is assumed about them. Where collision freedom matters, a lemma returns the
two colliding inputs instead of assuming there are none; only the length of a digest is a hypothesis.
Operations of the source that update fields are class methods; what they compute is a function or
relation on values, and the properties are lemmas about these. Threads are state machines with one
step per critical section.

## Main results

* **Reachable trees.** Over all runs of `add_block`, including forks, invalid blocks and orphans: the
  finalized block is exactly max(0, deepest - 6) deep; balances and transaction ids of the finalized
  part are the replay of its path, summing to 299792458 + 10 per finalized block; the tree is well
  formed; finality is never revoked.
* **Acceptance.** A delivered block is accepted if and only if it is new, hangs below a stored block, is
  authentic (hash, zeros, signatures), repeats no header root of its path from depth 2 on, and can be paid
  from the checked balances; so every stored block is authentic, in every state of every run.
* **Delivery order.** Delivering the blocks of a chain, valid or not, in any order and with any repetitions
  never hangs and ends in the tree of in-order delivery.
* **Conditions 6 and 7 of `add_block`.** Both are given exactly: when the ancestry check keeps repeated
  transactions out, and when the balance check implies solvency. Runs that meet the latter condition, in
  particular runs without forks, never overdraw anybody.
* **Threads.** Pool and chain stay in step under every interleaving; it is given exactly when an assembled
  block can repeat a transaction of an ancestor; what the miner returns makes a valid block.
* **Miner, gossip, pool, Merkle tree.** Seeds are partitioned, the thread count is right over all calls and
  the returned solution in every interleaving; a flood delivers at most once, and the network left to itself
  comes to a stop in every order of steps, each message then having reached every reachable node; the pool's
  representation survives all operation sequences and selections follow the order of its list; Merkle roots
  bind lists of equal length.

## Where the code does not do what it says

The model follows the code. The member named in brackets states each point.

* `add_block` does not return when a block gets as far as the balance check and its parent is not a strict
  descendant of the finalized block, unless that is still the genesis block: the genesis block is its own
  parent, so the loop at block.rs:472 goes round for ever (`AddReturnsExactly`). After seven blocks in a row
  this happens to every further valid block on the genesis block (`LateBlockHangs`, `SevenThenLate`), and it
  can happen to a block of the node's own miner (`OwnBlockHangs`); the node's chain is then frozen
  (`HungForever`).
* Condition 7 of the documentation of `add_block` (block.rs:253-256): the check counts the pending
  transactions of the working branch, whatever the parent, and withholds one reward
  (`CheckedInEveryState`). Passing it implies solvency if and only if no user gets more from the working
  branch than from the parent's own (`CheckSoundInEveryState`); on the working block that is so
  (`WorkingCovers`), on a fork it need not be (`ForkOverdraft`). The equivalence is about the balance check
  alone: what it uses for the converse is an unsigned payment to oneself, possibly of a negative amount.
  Negative amounts are accepted (`NegativeAmount`).
* Condition 6 (block.rs:252) speaks of duplicated transactions; the check compares header roots, which
  nothing ties to the transactions, and only from depth 2 on. It enforces the condition only below a path
  without any transaction (`NoRepetitionExactly`), and a payment can be repeated in the next block
  (`RepeatedPayment`).
* Condition 5 (block.rs:249-251): an only child in the buffer is attached if and only if it is valid
  (`OnlyChildInEveryRun`), but of several children one is attached at most. Its siblings are lost for good:
  being in the buffer, they are refused as known when delivered again (`SiblingsLoseOne`). So with forks the
  order of delivery does matter (`ParentFirst`, `ChildrenFirst`). The attached orphan itself stays in the
  buffer, because the id of its parent is removed instead (`BufferInEveryRun`).
* `working_block_id` is documented as the end of the longest chain (block.rs:193), but is the child with the
  largest id of the last accepted block's parent (`LinkWorking`). After a link it is at the end of a longest
  chain if and only if no stored block is deeper than the new one (`WorkingDeepestExactly`); a late sibling
  makes it one that is not (`WorkingNotDeepest`).
* `del_tx` does not remember an id that is not in the pool, although pool.rs:73 asks for it (`DeleteExactly`).
* `filter_tx` with `max_count` 0 returns everything (`FilterSelects`).
* `verify_block_integrity` does not recompute the Merkle root; `validate_block` does, and nothing calls it
  when a block arrives. The model keeps the two apart (`MinedBlockIsValid` proves both).
* `get_finalized_blocks_since` is documented to panic off the finalized path (block.rs:323-324). It panics
  only for a stored block deeper than the finalized one, so it keeps that promise if and only if the block is
  stored, and on the path or deeper (`PanicExactly`); a stored fork block is otherwise read like the genesis
  block (`ForkReadLikeGenesis`).
* The miner reads the working block, the pending transactions and the pool in separate critical sections
  (nakamoto.rs:60-67), so a block it assembles can repeat a transaction of an ancestor (`GapRepeats`). It
  cannot when no ancestor falls into a gap between these reads (`NoDuplicateSpending`); when there is no gap
  (`NoGapExactly`), and what can be repeated when there is one (`DuplicatesExactly`), is given exactly.

## Model

| member | source | states |
|---|---|---|
| Types.MaxId | bitcoin-rust/lib_chain/src/block.rs:574-579 | the largest child is one of the children and no child is larger in the order that IdLeqExactly describes |
| Types.IdLeqTotalOrder | bitcoin-rust/lib_chain/src/block.rs:576-579 | the string order that picks the working block is reflexive, total, antisymmetric and transitive |
| Types.IdLeqExactly | bitcoin-rust/lib_chain/src/block.rs:576-579 | the order is the lexicographic one: an id is at most another if and only if it is a prefix of it, or has the smaller character where they first differ |
| Types.IntegrityExactly | bitcoin-rust/lib_chain/src/block.rs:406-431 | the integrity check passes if and only if the id is the hash of nonce and serialised puzzle, begins with the zeros demanded, and every transaction is signed |
| Types.BlockIdBinding | bitcoin-rust/lib_chain/src/block.rs:406-431 | two blocks that pass it with the same id and equally long nonces have the same nonce and the same serialised puzzle (parent, root and receiver), or a collision is returned |
| Merkle.CreateMerkleTree | bitcoin-rust/lib_chain/src/block.rs:40-85 | the level loop ends; the first level is the hash of each serialised transaction, in order; each hash above is that of its left and right child below, left first, an odd last one with itself; the levels agree with an independent top-down definition, and only the last has a single hash, the root; no transactions give the empty root and no levels |
| Merkle.HashLevel | bitcoin-rust/lib_chain/src/block.rs:51-74 | the pairs loop plus the odd-tail case gives the hash of each pair, left before right, and of an odd last hash with itself |
| Merkle.RootOfTwo | bitcoin-rust/lib_chain/src/block.rs:57-63 | the root of two transactions is the hash of their hashes, first before second |
| Merkle.MerkleRootBinding | bitcoin-rust/lib_chain/src/block.rs:40-85 | two equally long transaction lists with the same root are serialised alike, position by position, or the lemma returns two different inputs with the same hash |
| Merkle.RepeatedLastTransaction | bitcoin-rust/lib_chain/src/block.rs:65-81 | for odd n of at least 3, repeating the last transaction leaves the root unchanged, so binding needs equal lengths; for n = 1 the root becomes the pair hash of the old root with itself |
| Ancestry.NoRepetitionExactly | bitcoin-rust/lib_chain/src/block.rs:433-450 | condition 6 of add_block, exactly: below a parent the check keeps repeated transactions out if and only if no non-genesis block on the parent's path has any transaction |
| Ancestry.RejectionMeansRepetition | bitcoin-rust/lib_chain/src/block.rs:433-450 | what the check does give: a rejection exhibits an ancestor of depth 2 or more with the same root; with honest roots and equally many transactions the two lists are serialised alike, or a collision is returned |
| Balances.ScanExact | bitcoin-rust/lib_chain/src/block.rs:484-500 | the scan passes if and only if for every transaction the sender's balance plus what the transactions before it moved to him is at least its amount |
| Balances.ReplayStep | bitcoin-rust/lib_chain/src/block.rs:530-557 | the ledger step by step: the genesis block gives Alice 299792458; each later block changes every user's balance by what its transactions move, plus 10 for its reward receiver |
| Balances.NetStep | bitcoin-rust/lib_chain/src/block.rs:484-500 | a transaction moves its amount from its sender to its receiver, and one to oneself moves nothing |
| Balances.ScanKeepsNonNegative | bitcoin-rust/lib_chain/src/block.rs:484-500 | a passed scan over non-negative amounts makes no balance negative, at no point of the list |
| Balances.ReplayConserves | bitcoin-rust/lib_chain/src/block.rs:530-557 | the balances after replaying a path sum to 299792458 plus 10 for each non-genesis block |
| Forests.ParentWalkEnds | bitcoin-rust/lib_chain/src/block.rs:472-481 | the walk that looks for a child of the finalized block ends if and only if the finalized block is the genesis block or a strict ancestor of the start |
| TreeInvariant.FinalizeClosed | bitcoin-rust/lib_chain/src/block.rs:509-558 | finalization in closed form: at most six levels below the finalized block nothing happens, at seven levels its child on the path is finalized and applied |
| TreeInvariant.LinkClosed | bitcoin-rust/lib_chain/src/block.rs:560-584 | linking a block inserts it and advances finality by exactly one block if its parent is six levels below the finalized block, and otherwise not at all |
| TreeInvariant.LinkWorking | bitcoin-rust/lib_chain/src/block.rs:574-581 | the working block is a child of the new block's parent; where a sibling's id first differs from its id, it has the larger character, and no sibling's id extends its id |
| TreeInvariant.WorkingDeepestExactly | bitcoin-rust/lib_chain/src/block.rs:574-581 | the documented working block, exactly: after a link it is at the end of a longest chain if and only if no stored block is deeper than the new one |
| TreeInvariant.LinkKeepsInv | bitcoin-rust/lib_chain/src/block.rs:560-584 | linking a block that passed the checks keeps the whole invariant |
| TreeInvariant.ChildrenTestSucceeds | bitcoin-rust/lib_chain/src/block.rs:526-530 | whenever the six steps complete, the block reached is a child of the finalized block |
| Deliveries.AddReturnsExactly | bitcoin-rust/lib_chain/src/block.rs:472-481 | add_block does not hang if and only if a block that gets as far as the balance check has a parent from which the walk meets a child of the finalized block |
| Deliveries.AddOrphanIsLinkRun | bitcoin-rust/lib_chain/src/block.rs:587-638 | whatever orphans are attached and in whatever iteration order, adding a block is a sequence of links, each passing the checks against the tree it finds |
| Deliveries.RunKeepsInv | bitcoin-rust/lib_chain/src/block.rs:260-314 | every state of every run of deliveries satisfies the invariant |
| Deliveries.FinalityNeverRevoked | bitcoin-rust/lib_chain/src/block.rs:509-558 | along any run the finalized block of an earlier state is the later one or an ancestor of it, and no stored block is lost or changed |
| DeliveryOrder.AddNext | bitcoin-rust/lib_chain/src/block.rs:587-638 | adding the next block of a chain links it and every buffered successor up to the next gap or failing block, as in-order delivery does |
| DeliveryOrder.DeliverAgain | bitcoin-rust/lib_chain/src/block.rs:264-276 | delivering a block of the chain again returns and changes nothing: it is known, or it fails the same check again |
| DeliveryOrder.OrderIrrelevant | bitcoin-rust/lib_chain/src/block.rs:304-313 | delivering the blocks of a chain in any order, each at least once, onto any reachable tree with unrelated orphans, never hangs and ends in the tree of in-order delivery, invalid blocks included |
| DeliveryOrder.OrderIrrelevantFromGenesis | bitcoin-rust/lib_chain/src/lib.rs:160-188 | the same for a chain that starts at the genesis block and a new tree |
| DeliveryOrder.AnyTwoOrdersAgree | bitcoin-rust/lib_chain/src/block.rs:587-638 | two orders of delivery end with equal blocks, children, depths, working block, finalized block, balances and ids |
| Orphans.StrandedForever | bitcoin-rust/lib_chain/src/block.rs:264-271 | in any run, an orphan whose parent is already in the tree is accepted by no later delivery, not even of itself |
| FinalizedReads.PanicExactly | bitcoin-rust/lib_chain/src/block.rs:322-351 | the answer is the promised one (a panic exactly off the finalized path) if and only if the block is stored, and is on the finalized path or deeper than the finalized block |
| FinalizedReads.ReadElsewhere | bitcoin-rust/lib_chain/src/block.rs:325-351 | from a block off the finalized path, unless it is stored deeper, all finalized blocks but the genesis block are returned, or that block if nothing else is finalized |
| Trees.TxsBackwardsOrder | bitcoin-rust/lib_chain/src/block.rs:372-382 | pending transactions come block by block, from the last block to the first, in their own order within a block |
| Acceptance.AcceptedExactly | bitcoin-rust/lib_chain/src/block.rs:260-314 | in every run a delivered block is accepted if and only if it is new, its parent is stored, its id is the hash of nonce and puzzle and has the zeros demanded, its transactions are signed, its root does not occur on the parent's path from depth 2 on, and each sender in turn can pay from the checked balances |
| Acceptance.ZerosInEveryRun | bitcoin-rust/lib_chain/src/block.rs:406-431 | in every run the id of every accepted block, attached orphans included, begins with the zeros the delivery demands |
| Acceptance.StoredAuthentic | bitcoin-rust/lib_chain/src/block.rs:406-431 | in every state of every run, every stored block but the genesis block has the hash of its nonce and puzzle as id, and only signed transactions |
| Acceptance.WorkingInEveryRun | bitcoin-rust/lib_chain/src/block.rs:574-581 | in every run the working block after a delivery is the child of the last accepted block's parent with the largest id, and unchanged if nothing was accepted |
| Acceptance.ListsInEveryRun | bitcoin-rust/lib_chain/src/block.rs:560-567 | in every run the lists of children only grow, at their ends |
| Solvency.NoOverdraft | bitcoin-rust/lib_chain/src/block.rs:253-256 | in every run whose accepted blocks move non-negative amounts and each extend the then working block, or one whose branch covers it, no balance is negative after any stored block, nor in the finalized balances |
| Solvency.WorkingCovers | bitcoin-rust/lib_chain/src/block.rs:457-470 | the working block covers itself, so a block on it is always checked soundly |
| Reachable.SixDeepInEveryState | bitcoin-rust/lib_chain/src/block.rs:509-558 | in every state of every run the depth of the finalized block is exactly max(0, maximum depth - 6), forks included |
| Reachable.FinalityStepInEveryRun | bitcoin-rust/lib_chain/src/block.rs:509-558 | each delivery keeps all blocks and moves finality down its own path, by at most one block per block it accepts |
| Reachable.LedgerInEveryState | bitcoin-rust/lib_chain/src/block.rs:226-233 | in every state of every run: balances and ids of the finalized part are the replay of its path, summing to 299792458 + 10 x depth |
| Reachable.PendingInEveryState | bitcoin-rust/lib_chain/src/block.rs:372-382 | in every state after the first acceptance the working block is 1 to 6 levels below the finalized one, and the pending transactions are exactly those of the segment between them |
| Reachable.ShapeInEveryState | bitcoin-rust/lib_chain/src/block.rs:560-572 | in every state of every run: the genesis block is reached in exactly depth steps, children_map inverts the parent relation without duplicates, no Merkle root repeats on a path from depth 2 on |
| Reachable.CheckedInEveryState | bitcoin-rust/lib_chain/src/block.rs:452-481 | in every state of every run, for every parent and user: the checked balance is the replay up to the parent, less the reward of the finalized block's child on that path, with the working branch's pending transactions in place of the parent's own |
| Reachable.CheckSoundInEveryState | bitcoin-rust/lib_chain/src/block.rs:253-256 | the balance check behind condition 7, exactly: in every state, below every parent that ends the reward walk, what passes the scan is solvent in the replay of the parent's path if and only if no user gets more from the working branch than from the parent's branch and the withheld reward |
| Reachable.CheckExactInEveryState | bitcoin-rust/lib_chain/src/block.rs:452-507 | in every state of every run the check of a block on the working block is exact up to one withheld reward, and what passes is payable in the true replay |
| Reachable.EffectInEveryRun | bitcoin-rust/lib_chain/src/block.rs:304-313 | in every run a delivery accepts the delivered block and then a line of buffered descendants, and nothing else enters the tree |
| Reachable.BufferInEveryRun | bitcoin-rust/lib_chain/src/block.rs:304-312 | in every run the buffer after a delivery, exactly: the block itself if its parent is missing; otherwise the ids of accepted blocks with a buffered child are removed, so that an attached orphan stays |
| Reachable.OnlyChildInEveryRun | bitcoin-rust/lib_chain/src/block.rs:304-309 | in every run the only buffered child of an accepted block is attached if and only if it passes the checks against the tree with that block |
| Reachable.SiblingsLoseOne | bitcoin-rust/lib_chain/src/block.rs:304-312 | in every run, of two buffered siblings waiting for the same parent one is lost for good when it arrives |
| Reachable.ReadsComposeInEveryRun | bitcoin-rust/lib_chain/src/block.rs:325-351 | in every run, from any block on the finalized path: a read is exactly the path after it, oldest first, and reads of successive states concatenate |
| Witnesses.AddBlockTotal | bitcoin-rust/lib_chain/src/block.rs:260-314 | every delivery to a tree with the invariant has a result, unless it does not return |
| Witnesses.RepeatedPayment | bitcoin-rust/lib_chain/src/block.rs:433-450 | a run in which a signed payment is accepted twice, in a block and in its child, whatever their Merkle roots |
| Witnesses.ForkOverdraft | bitcoin-rust/lib_chain/src/block.rs:457-470 | a run in which a sibling block that spends the money of the other branch is accepted, and its own path has a balance of -100 |
| Witnesses.NegativeAmount | bitcoin-rust/lib_chain/src/block.rs:484-500 | a run in which a block with a negative amount is accepted and its receiver's balance becomes -100 |
| Witnesses.ParentFirst | bitcoin-rust/lib_chain/src/block.rs:260-314 | a run that delivers a block and then two children of it, and stores all three |
| Witnesses.ChildrenFirst | bitcoin-rust/lib_chain/src/block.rs:304-312 | in every run that delivers the same three blocks with the children first, a child is stranded |
| Witnesses.WorkingNotDeepest | bitcoin-rust/lib_chain/src/block.rs:574-581 | a run after which the working block is at depth 1 and another block at depth 2 |
| Hangs.RowFinalized | bitcoin-rust/lib_chain/src/block.rs:509-558 | k > 6 blocks in a row have finalized exactly the block six above the last |
| Hangs.LateBlockHangs | bitcoin-rust/lib_chain/src/block.rs:472-481 | once a block was finalized, adding a new integral block on the genesis block does not return |
| Hangs.SevenThenLate | bitcoin-rust/lib_chain/src/block.rs:472-481 | a run of seven blocks in a row after which such a late block hangs |
| Hangs.ForkReadLikeGenesis | bitcoin-rust/lib_chain/src/block.rs:322-351 | a run with a stored fork block, no deeper than the finalized block and not on its path, for which the answer is the whole finalized path instead of a panic |
| NodeWitnesses.OwnBlockHangs | bitcoin-rust/bin_nakamoto/src/nakamoto.rs:281-311 | a run of the node in which its miner solves a puzzle on a parent that has dropped off the finalized branch, and adding the mined block does not return |
| BlockTrees.BlockTree.constructor | bitcoin-rust/lib_chain/src/block.rs:209-235 | the new tree holds the genesis block alone, finalized and working, with Alice's balance |
| BlockTrees.BlockTree.VerifyBlockAncestry | bitcoin-rust/lib_chain/src/block.rs:433-450 | true if and only if no ancestor-or-self of the parent at depth 2 or more has the given Merkle root |
| BlockTrees.BlockTree.GetPendingFinalizationTxs | bitcoin-rust/lib_chain/src/block.rs:372-382 | the walk ends and returns the transactions of exactly the blocks from the working block up to below the finalized one, in that order |
| BlockTrees.BlockTree.AddRewards | bitcoin-rust/lib_chain/src/block.rs:472-481 | the reward walk ends and adds one reward per unfinalized block down to the parent, the topmost left out |
| BlockTrees.BlockTree.VerifyTransactionsBalance | bitcoin-rust/lib_chain/src/block.rs:452-507 | true if and only if the block is affordable against the checked balances |
| BlockTrees.BlockTree.FinalizeBlock | bitcoin-rust/lib_chain/src/block.rs:509-558 | the whole new state of one finalization attempt; no unwrap fails |
| BlockTrees.BlockTree.UpdateBlocktree | bitcoin-rust/lib_chain/src/block.rs:560-584 | the whole new state after a block is linked; no unwrap fails |
| BlockTrees.BlockTree.Check | bitcoin-rust/lib_chain/src/block.rs:264-300 | the checks in the order of the source: rejected, parent missing, or accepted |
| BlockTrees.BlockTree.FindOrphanChild | bitcoin-rust/lib_chain/src/block.rs:304-305 | the loop over the buffer, in any order, finds a child if there is one |
| BlockTrees.BlockTree.AddOrphanBlock | bitcoin-rust/lib_chain/src/block.rs:587-638 | the recursion ends, since the orphans that are not in the tree become fewer; the new state is one the relation allows; the invariant is kept |
| BlockTrees.BlockTree.AddBlock | bitcoin-rust/lib_chain/src/block.rs:260-314 | a call that does not hang ends in a state the relation allows and keeps the invariant |
| BlockTrees.BlockTree.GetFinalizedBlocksSince | bitcoin-rust/lib_chain/src/block.rs:325-351 | the loop ends and returns what FinalizedSince describes, for every argument, the panic included |
| BlockTrees.FinalizedHasChild | bitcoin-rust/lib_chain/src/block.rs:510 | the finalized block has children whenever a linkable block is inserted, so the unwrap succeeds |
| TxPools.TxPool.constructor | bitcoin-rust/lib_tx_pool/src/pool.rs:34-41 | the new pool is empty and stands at the genesis block |
| TxPools.TxPool.AddTx | bitcoin-rust/lib_tx_pool/src/pool.rs:49-69 | true if and only if the transaction is new, not removed, signed and there is room; the whole new state |
| TxPools.TxPool.DelTx | bitcoin-rust/lib_tx_pool/src/pool.rs:74-87 | the whole new state of a deletion |
| TxPools.TxPool.FilterTx | bitcoin-rust/lib_tx_pool/src/pool.rs:93-107 | the loop with its early exit returns transactions in the order of the list, skipping none that is not excluded, up to max_count, and all of them for 0 |
| TxPools.TxPool.RemoveTxsFromFinalizedBlocks | bitcoin-rust/lib_tx_pool/src/pool.rs:110-121 | the whole new state, last finalized block included |
| TxPools.AnyOperations | bitcoin-rust/lib_tx_pool/src/pool.rs:49-121 | over every sequence of operations: the list is duplicate-free, at most 10000 long, and as a set the keys of the map without the removed ids; a removed id never comes back |
| TxPools.AddExactly | bitcoin-rust/lib_tx_pool/src/pool.rs:49-69 | after an attempt to add a transaction it is in the pool if and only if it was, or is not removed, signed, and there were fewer than 10000; it goes to the end of the list |
| TxPools.DeleteExactly | bitcoin-rust/lib_tx_pool/src/pool.rs:71-87 | an id counts as removed afterwards if and only if it was in the pool map or removed before; list and map lose exactly this id, and the list keeps its order |
| TxPools.RemoveExactly | bitcoin-rust/lib_tx_pool/src/pool.rs:110-121 | after finalized blocks were removed, exactly the ids of their transactions count as removed in addition, the list loses exactly these and keeps its order, the map is unchanged and the last block is recorded |
| TxPools.FilterInOrder | bitcoin-rust/lib_tx_pool/src/pool.rs:93-107 | in terms of the list of the pool alone: a selected transaction stands before those selected after it; whatever is not excluded and stands before a selected one is selected; everything is, unless max_count is reached |
| TxPools.FilterSelects | bitcoin-rust/lib_tx_pool/src/pool.rs:93-107 | a selection is pairwise distinct, signed, free of excluded and removed transactions, a first part of the available ones, and of the exact length |
| Nodes.CreatePuzzle | bitcoin-rust/bin_nakamoto/src/nakamoto.rs:51-103 | the assembled block hangs below the working block, holds the pool's selection without the pending transactions, carries the root and tree of exactly these, timestamp 1 and no id and nonce, and the puzzle is the serialisation of parent, root and receiver |
| Nodes.NodeRunKeeps | bitcoin-rust/bin_nakamoto/src/nakamoto.rs:165-320 | every state of every interleaving of the threads satisfies the node's invariant |
| Nodes.PoolFollowsChain | bitcoin-rust/bin_nakamoto/src/nakamoto.rs:250-263 | in every interleaving: the pool's last finalized block is on the finalized path; it was handed exactly the path up to there, each block once and in order; its removed ids are exactly those of these blocks; reading never panics |
| Nodes.NoDuplicateSpending | bitcoin-rust/bin_nakamoto/src/nakamoto.rs:250-270 | in every interleaving an assembled block repeats no transaction and none of a consumed block; if the read of the pending transactions left no gap, and so in every period in which no block enters the tree between the reads, none of any non-genesis ancestor |
| Nodes.NoGapExactly | bitcoin-rust/bin_nakamoto/src/nakamoto.rs:60-67 | in every interleaving that read leaves no gap if and only if the parent read before is the last block the pool consumed, or the pool has consumed all that is finalized and that parent is on the working path |
| Nodes.DuplicatesExactly | bitcoin-rust/bin_nakamoto/src/nakamoto.rs:60-67 | in every interleaving, when the pending transactions were read: the miner can choose a transaction of an ancestor if and only if the pool lists it, it is not pending, and an ancestor holds it that is neither consumed nor an unfinalized block of the working path |
| NodeWitnesses.GapRepeats | bitcoin-rust/bin_nakamoto/src/nakamoto.rs:60-67 | a run of the node in which a seventh block arrives between the two reads and finalizes the first, and the assembled block repeats a transaction of an ancestor |
| Arrivals.TxArrivesExactly | bitcoin-rust/bin_nakamoto/src/nakamoto.rs:165-173 | in every interleaving a transaction that arrives is in the pool afterwards if and only if it was, or is not removed, signed, and there was room; nothing else changes |
| Arrivals.BlockArrivesExactly | bitcoin-rust/bin_nakamoto/src/nakamoto.rs:180-202 | in every interleaving a block that arrives, if adding it returns, is stored afterwards if and only if it was, or passes the checks at the acceptance difficulty |
| Arrivals.MinerReads | bitcoin-rust/bin_nakamoto/src/nakamoto.rs:51-68 | in every interleaving the miner reads as parent the working block of that moment, and then as pending the transactions of the unfinalized part of the working path of that later moment |
| Arrivals.AssembledExactly | bitcoin-rust/bin_nakamoto/src/nakamoto.rs:69-103 | in every interleaving the assembled block holds the transactions of the pool that were not pending, in the order of the list from its start on, up to the configured maximum, with the root of exactly these |
| Arrivals.MinerAdds | bitcoin-rust/bin_nakamoto/src/nakamoto.rs:281-311 | in every interleaving what the miner adds is the assembled block with a nonce whose hash is its id and meets the mining difficulty; if adding it returns it is stored if and only if it was, or passes the checks |
| Arrivals.StoredWithZeros | bitcoin-rust/bin_nakamoto/src/nakamoto.rs:191-194 | in every state of every interleaving all stored blocks but the genesis block are authentic and have the zeros of the acceptance difficulty |
| Nodes.ValidExactly | bitcoin-rust/lib_chain/src/block.rs:712-740 | validate_block says yes if and only if the id is the hash of nonce and puzzle, has the zeros, every transaction is signed and the root is that of the transactions; it returns the recomputed id |
| Nodes.MinedBlockIsValid | bitcoin-rust/bin_nakamoto/src/nakamoto.rs:281-311 | in every interleaving a solved block passes verify_block_integrity and validate_block whenever the acceptance difficulty is at most the mining difficulty |
| Nodes.SolutionIsValid | bitcoin-rust/bin_nakamoto/src/nakamoto.rs:281-311 | what a call of solve_puzzle on the block's puzzle returns, in any interleaving of its workers, makes a block whose id is the solution's hash and which both validity functions accept |
| Nodes.HungForever | bitcoin-rust/bin_nakamoto/src/nakamoto.rs:191-194 | once an add_block does not return, the chain of the node never changes again |
| Miners.SolveRunKeeps | bitcoin-rust/lib_miner/src/miner.rs:82-155 | every state of every interleaving, over any number of calls, satisfies the invariant |
| Miners.CountsAndSolutions | bitcoin-rust/lib_miner/src/miner.rs:98-138 | over all calls thread_count is the number of live workers, those that outlive an earlier call included, plus one that is counted and about to start; at most one worker of a call has a solution; is_running holds exactly until the call returns |
| Miners.WorkersOutliveCall | bitcoin-rust/lib_miner/src/miner.rs:146-151 | a run in which a call returns while a worker of it still runs, and the next call starts with a count of one |
| Miners.SeedsTried | bitcoin-rust/lib_miner/src/miner.rs:97-140 | in every state the k-th seed worker j has tried is thread_0_seed + j + k x thread_count, and the nonce of each seed but the last of an ended worker, hashed with the puzzle, misses the difficulty |
| Miners.IterationExactly | bitcoin-rust/lib_miner/src/miner.rs:97-140 | in every run a worker that hashes its next seed stops if and only if the token is set or a solution was found, and otherwise ends with a solution if and only if its nonce solves the puzzle |
| Miners.ReturnedResult | bitcoin-rust/lib_miner/src/miner.rs:146-155 | the call returns a solution if and only if a worker found one; its nonce is that of the last seed a worker tried, its hash that of nonce and puzzle, with the zeros demanded; none is returned only if every worker saw the cancellation |
| Miners.NoSeedTwice | bitcoin-rust/lib_miner/src/miner.rs:102-140 | within a call no seed is tried twice, by one worker or by two |
| Miners.EverySeedHasAWorker | bitcoin-rust/lib_miner/src/miner.rs:102-140 | every seed from thread_0_seed on belongs to exactly one worker, at exactly one position |
| Gossip.P2PNode.Send | bitcoin-rust/lib_network/src/p2pnetwork.rs:143-149 | one copy to every neighbour, in order, each counted |
| Gossip.P2PNode.Broadcast | bitcoin-rust/lib_network/src/p2pnetwork.rs:210-232 | the message is acknowledged and sent to every neighbour, each copy counted, whether seen before or not |
| Gossip.P2PNode.Receive | bitcoin-rust/lib_network/src/p2pnetwork.rs:125-174 | a message seen before changes nothing; a new one is acknowledged and counted and, unless of unknown kind, handed to the consumer and forwarded to every neighbour, each copy counted |
| Gossip.ReceiveMatches | bitcoin-rust/lib_network/src/p2pnetwork.rs:125-174 | the in-place receive is the network's three steps in a row: take, hand over, forward |
| Gossip.BroadcastMatches | bitcoin-rust/lib_network/src/p2pnetwork.rs:210-232 | the in-place broadcast is the network's two steps in a row |
| Gossip.EchoOwed | bitcoin-rust/lib_network/src/p2pnetwork.rs:141-171 | in every run, a message that a consumer gets will be forwarded, and a transaction or block request broadcast once more, and no other |
| Gossip.GossipRunKeeps | bitcoin-rust/lib_network/src/p2pnetwork.rs:125-296 | every state of every run of the network satisfies the invariant: what a node has acknowledged has reached each neighbour, is on its way there, or is still to be handled |
| Gossip.AtMostOnce | bitcoin-rust/lib_network/src/p2pnetwork.rs:125-135 | in every run no node hands a message to its consumer twice |
| Gossip.FloodReachesAll | bitcoin-rust/lib_network/src/p2pnetwork.rs:125-171 | once nothing is in flight or half handled, every node reachable from where a message entered has acknowledged it, and consumed it unless it entered there too |
| Gossip.FloodEnds | bitcoin-rust/lib_network/src/p2pnetwork.rs:125-296 | without new messages the network takes at most Measure more steps, re-broadcasts included, in whatever order |
| Gossip.NoStepExactly | bitcoin-rust/lib_network/src/p2pnetwork.rs:125-296 | under the invariant a network has no step left if and only if nothing is in flight, half handled or waiting to be re-broadcast |
| Gossip.FloodCompletes | bitcoin-rust/lib_network/src/p2pnetwork.rs:125-296 | after any run, a network left to itself takes at most StepsLeft more steps in whatever order, and when it has none left every message has reached every node that links lead to from where it entered |
| Gossip.FloodCanComplete | bitcoin-rust/lib_network/src/p2pnetwork.rs:125-296 | from every state with the invariant the network can be left to itself until it has no step left |
| Gossip.InternalDecreases | bitcoin-rust/bin_nakamoto/src/nakamoto.rs:165-219 | each step, also the re-broadcast of a consumed transaction, decreases the measure over unacknowledged pairs, copies in flight and work left to do |

## Left out

- bin_client, the wallet, the stdin/stdout loops, saved files and seccomp policies: input and output around the node.
- netchannel.rs: TCP framing, reconnection and message parsing; in-flight messages are a lossless bag, and all links are up.
- SHA-256, RSA signatures, Base64, JSON and the random number generator: function-valued fields of `Env`.
- The `ack` set holds the messages themselves; the code stores their debug rendering, taken to be injective.
- The message string of a transaction is replaced by its amount and a comment; panics on malformed messages, keys and signatures are not modelled.
- The width of u16, u64 and i64 and overflow: depths, amounts, seeds and counters are mathematical integers.
- Status maps and notifications: read-only output.
- Starting from a saved chain and pool: runs start with a new tree and a new pool.
- Liveness: that a puzzle is solved, that a node is scheduled, or that the tip grows.
- Miner and network threads are atomic steps on values, since Dafny has no threads. A step covers one critical section; the message counters of the network are kept by the class `P2PNode` only, and a worker's hash, which touches nothing shared, is part of its turn under the found lock.
- The sender threads of a broadcast are the in-flight bag, so no order of sending is modelled; the class `P2PNode` sends in list order.
- The node model does not show the cancellation token, which decides only when the miner gives up; `Miners.SetToken` lets anyone change it at any time.
- The miner thread's first, unused selection (nakamoto.rs:233-248) is left out: it changes nothing and only delays the loop.
- BlockTrees.BlockTree.AddBlock: requires that the call returns (`AddReturns`), the exact condition of which is `Deliveries.AddReturnsExactly`; a hanging call has no result to describe. The node model does describe it: the chain's lock is held for ever (`Nodes.HungForever`).
- DeliveryOrder.OrderIrrelevant: all blocks are delivered at the same difficulty, and the orphan buffer may end differently; for forks the property is false (`Witnesses.ParentFirst`, `Witnesses.ChildrenFirst`).
- Ancestry.NoRepetitionExactly: quantifies over header roots as `add_block` accepts them, which need not be the root of the block's transactions.
- Reachable.CheckSoundInEveryState: the equivalence is exact for the balance check alone. The payment that shows the converse is unsigned, from a user to itself, and may have a negative amount, so nothing is said about blocks that pass the signature check too; `Witnesses.ForkOverdraft` is a run with blocks that do.
- Gossip.FloodReachesAll: a message of unknown kind is acknowledged but not forwarded, so it is not flooded.
- `add_block` and `add_orphan_block` repeat the same checks; the model has them once, in `Check`, and the two methods differ as in the source, in the test for known orphans.
