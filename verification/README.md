# A verified model of a Primecoin node

The node described here descends from Bitcoin 0.8 and replaces its proof of work by chains of probable primes. This
project models its hard core in Dafny and proves what the parts promise, over every input, every run and every
reachable state.

* **Ledger and chain selection** (`Primitives`, `Coins`, `Ledger`, `Supply`, `Validation`, `CoinsView`, `BlockTree`,
  `Connect`, `Reorg`, `Chain`, `ActiveChain`, `Runs`). Unspent outputs are a map of pruned transactions. Connecting a
  block records undo data that are lossy on purpose; disconnecting is proved to be its exact inverse. A stack of caches
  refines one flat map.
  `ChainState` is the block tree with its `pprev` and `pnext` pointers, the candidates and the tip; over every run the
  ledger of the tip is the replay of its path from genesis, the money supply is bounded by the mint values, and blocks
  fail only because the rules refuse them or an ancestor. Every run from an empty node on blocks that can all be judged
  ends with a tip that no sound block outweighs (`Runs.FromEmpty`); the hypothesis is needed, as stated below.
  `ActiveChain` states what this means for a reader of the chain, without mention of any check: every spend names an
  output that an earlier transaction made and that no other spends, with a script check that passes, coinbase maturity
  and the fee; and which blocks are accepted, in full.
* **Check queue** (`CheckQueue`). A transition system with any number of workers and one master, in which one critical
  section is one step, and a class whose methods are those steps. In every run `Wait` returns the conjunction of the
  checks, and in every run in which threads that can go on some time do, it returns.
* **Merkle trees** (`Bits`, `Merkle`, `PartialMerkle`). The combine function is a parameter; injectivity is assumed only
  where a statement says so.
* **Peer manager** (`PeerTables`, `PeerManager`, `PeerStore`). Five redundant indexes updated in place; random draws and
  the iteration order of sets are arbitrary choices; the bucket hashes are parameters.
* **Prime proof of work** (`Arithmetic`, `Target`, `Primes`, `Residues`, `PrimeChain`, `Sieve`). Exact integer
  arithmetic throughout. The quadratic character of 2 is proved, and with it that real chains of primes pass, and that
  after a prime both tests decide primality along chains of the first kind.
* **Memory pool** (`Mempool`, `Outputs`, `Node`). The pool with its index of spent outputs, and what a reorganization
  means for it: `Node.Reorganize` is `SetBestChain` with the pool update at its end, and afterwards every input of the
  pool is unspent in the new ledger or made in the pool, apart from the exception stated below.
* **Encodings and multisig** (`VarInt`, `Amount`, `ScriptCodec`, `CoinsCodec`, `Multisig`).

How to read it: an operation with loops or state is a method or a class method whose contract ties it to a specification
function; the lemmas about that function say what it is for. `hide` statements only narrow what the verifier looks at.
Objects that the node updates in place are classes. A `CCoins` is a value, because the node keeps it by value in a map.

Where the code differs from its documentation, or from what one would expect of it, the code is modelled and the
difference is stated as a theorem:

* A partial Merkle tree may need more flag bits than the documented 2 N - 1 for N hashes (`PartialMerkle.BitCount`,
  `PartialMerkle.BitBoundFails`).
* `Flush` of a cache that was never asked for its best block makes the cache below forget its own
  (`CoinsView.View.Flush`, `CoinsView.FlushForgets`). `SetBestChain` always asks first.
* Retargeting does not always give slower blocks an easier target: the denominator may turn negative, and the 8-bit
  length wraps at 255. `Target.GetNextOrder` has the exact condition, `Target.NegativeDenominatorLowersTarget` and
  `Target.LengthOverflows` the failing inputs.
* Below the minimum length a harder target may be worth less work (`Target.WorkNotMonotoneBelowMinimum`); which targets
  all harder ones outweigh is exact in `Target.WorkOrder`.
* `SelectTried` finds the least recently successful of the entries it inspects but returns the slot that entry was drawn
  from, which is right only if its draw was 0 (`PeerManager.Manager.SelectTried`, `PeerManager.SlotMayBeWrong`).
* Along chains of the second kind a composite number may pass after a prime (`PrimeChain.SecondKindMayErr`).
* Two of the documented examples of variable-length integers contradict the documented formula (`VarInt.Examples`).
* The sieve never advances past the prime 2 when its fixed factor is odd (`Sieve.CandidateSieve.Weave`,
  `Sieve.OddFactorStops`).
* A block that cannot be judged, for example because reading it fails, is never marked. While it holds up the first
  candidate, lighter sound blocks are not tried. `Chain.ChainState.ResolvedIsMaximal` says that nothing else keeps the
  tip from the heaviest sound chain, `Runs.StuckRun` is a run of three blocks in which this does.
* The pool update after a reorganization does not look at the coinbases of disconnected blocks, so a transaction that
  spends from one stays (`Runs.Strand`). `Node.InStep` says that these are the only inputs left without a source, and
  `Node.MatureIsSafe` that coinbase maturity rules them out in reorganizations of fewer blocks than that.

Facts about the outside world are hypotheses of the statements that need them: a combine function without collisions, a
curve on which a valid key is recovered from one coordinate and a parity bit (`ScriptCodec.Recovers`), transaction hashes
that identify transactions and order them by dependency (`Mempool.World`), and that a chain of probable primes ends
somewhere (`PrimeChain.ProbableCunninghamChainTest`).

## Model

| member | source | states |
|---|---|---|
| Coins.Cleanup | src/main.h:904-909 | the trailing spent outputs go and nothing else: the result is the longest prefix that ends in an unspent output |
| Coins.Spend | src/main.h:1041-1055 | succeeds exactly for an available output; gives the trimmed coins and the undo record, metadata only with the last output; on failure the coins are as before |
| Coins.SpendRemovesOne | src/main.h:1041-1055 | spending one output makes exactly that output unavailable and keeps the canonical shape |
| Coins.PrunedIsEmpty | src/main.h:904-909 | canonical coins are pruned exactly when they have no outputs |
| Coins.RestoreInvertsSpend | src/main.cpp:1457-1481 | restoring with the recorded undo data is clean and gives back the coins before the spend, metadata included, although the record is lossy |
| Ledger.SpendInputsRemoves | src/main.cpp:1280-1291 | spending the inputs of a transaction removes exactly those outputs from the ledger and keeps it well formed |
| Ledger.RestoreInputsInverts | src/main.cpp:1457-1481 | restoring inputs backwards from the undo records is clean and gives the same unspent outputs as before the spends |
| Ledger.ApplyTxKeeps | src/main.cpp:1280-1294 | applying a transaction keeps the ledger well formed and adds at most its own entry |
| Ledger.UndoTxInverts | src/main.cpp:1429-1482 | undoing one applied transaction is clean and gives back the same live ledger |
| Ledger.ApplyTxsKeeps | src/main.cpp:1588-1633 | a whole block of applicable transactions keeps the ledger well formed |
| Ledger.UndoTxsInverts | src/main.cpp:1409-1494 | undoing the transactions of a connected block in reverse order is clean at every step, outputs created and spent within the block included |
| Ledger.DisconnectInvertsConnect | src/main.cpp:1409-1494 | for every well-formed ledger and block that connects, disconnecting with the recorded undo data is clean and restores exactly the same unspent outputs and metadata (absent and pruned count as the same) |
| Ledger.ApplyTxsByLive | src/main.cpp:1588-1633 | what a block does depends only on the live part of the ledger, so caches that differ in pruned entries stay equivalent |
| Ledger.ConnectsByLive | src/main.cpp:1560-1603 | whether a block connects, and its undo data, depend only on the live part of the ledger |
| Supply.TotalOfLive | src/txdb.cpp:142-148 | the sum of unspent outputs depends only on the live entries |
| Supply.SpendInputsTotal | src/main.cpp:1253-1263 | spending inputs lowers the sum of unspent outputs by exactly the input value |
| Supply.ApplyTxTotal | src/main.cpp:1280-1294 | a transaction changes the sum of unspent outputs by its output value less its input value |
| Supply.ConnectRaisesTotal | src/main.cpp:1588-1638 | connecting a block changes the sum of unspent outputs by the block totals that go into the money supply |
| Validation.CheckTransaction | src/main.cpp:547-593 | accepts exactly the transactions with inputs and outputs, values in range at every prefix, distinct inputs, and the coinbase or non-null-input rule |
| Validation.BlockOkConnects | src/main.cpp:1560-1633 | a block that passes the checks satisfies everything the undo theorem needs |
| Validation.NetValue | src/main.cpp:1614-1618 | outputs less inputs of a block are the coinbase outputs less the fees |
| Validation.SupplyBoundedByMint | src/main.cpp:1648-1649 | an accepted block raises the sum of unspent outputs by at most the mint value of its target; SubsidyMeans says which that is |
| Validation.BlockOkByLive | src/main.cpp:1560-1651 | whether a block is acceptable depends only on the unspent outputs it is put on top of |
| Validation.MinFeeMeans | src/main.cpp:595-612 | the fee is a cent for every started thousand bytes, up to all the money there is |
| Validation.TxMeans | src/main.cpp:547-593 | the form of an accepted transaction, written out: at least one input and output, a megabyte, outputs of a cent at least and all the money at most, no input twice, a coinbase script of 2 to 100 bytes, and no null input otherwise |
| Validation.SpendMeans | src/main.cpp:1329-1404 | a spend is accepted if and only if every output it names is in the ledger with a legal value, is 3000 blocks old if from a coinbase and passes the script check, and the fee is paid |
| Validation.SubsidyMeans | src/main.cpp:1072-1077 | the subsidy is the mint value of the target: a multiple of a cent within a cent of 999 coins over the square of the target, and nothing below length 6 |
| Validation.AcceptedByRise | src/main.cpp:1648-1649 | a block that passes the other checks is accepted if and only if it raises the money supply by no more than the mint value less a cent for every full thousand bytes of its coinbase |
| Validation.CoinBaseOnly | src/main.cpp:1648-1649 | a block with nothing but a coinbase is accepted if and only if that pays no more than this |
| Validation.RiseIsInverseSquare | src/main.cpp:1648-1649 | the rise of the money supply by an accepted block times the square of its target is at most 999 coins times 2^48 |
| CoinsView.MergeBatch | src/txdb.cpp:13-18 | writing a batch entry by entry, in any order, gives the merged map; the database drops pruned entries |
| CoinsView.MergedIsLive | src/txdb.cpp:57-67 | dropping pruned entries in the database does not change the live ledger |
| CoinsView.View.Cache | src/main.cpp:185-185 | an empty cache shows the ledger and best block of its base |
| CoinsView.View.GetCoins | src/main.cpp:187-209 | returns the entry of the one flat map the stack stands for; filling the caches on the way changes neither that map nor the best block |
| CoinsView.View.HaveCoins | src/main.cpp:222-224 | true exactly when the flat map has the entry; the map does not change |
| CoinsView.View.SetCoins | src/main.cpp:217-220 | updates that one entry of the flat map, up to pruned entries in the database, and nothing below |
| CoinsView.View.GetBestBlock | src/main.cpp:226-230 | returns the best block of the stack and remembers it; ledger and coins are unchanged |
| CoinsView.View.SetBestBlock | src/main.cpp:232-235 | sets the best block of this level only |
| CoinsView.View.BatchWrite | src/main.cpp:237-242 | takes the batch over into the flat map; the database ignores a null best block, a cache does not |
| CoinsView.View.Flush | src/main.cpp:244-249 | the ledger seen from the view stays the same and the base now shows it; the best block is kept if and only if the view knew it, or the base is the database, or the base had none of its own or the one below it |
| CoinsView.FlushForgets | src/main.cpp:244-249 | the failing case occurs: on a three-level stack the flush of a view that was never asked changes the best block |
| Connect.HaveInputs | src/main.cpp:1296-1315 | true exactly for a coinbase or when every input is unspent; the ledger does not change |
| Connect.UpdateCoins | src/main.cpp:1280-1294 | no spend assertion fires; the ledger becomes the one with the transaction applied, and the undo data are those of its inputs |
| Connect.CheckInputs | src/main.cpp:1329-1404 | accepts exactly when inputs exist, are mature, values and fees are in range and paid, and every script verifies; the ledger does not change |
| Connect.ConnectTx | src/main.cpp:1588-1633 | one round of the block loop: accepted exactly when the inputs are fine, and then ledger, value and undo data are those of the transaction |
| Connect.ConnectTxs | src/main.cpp:1588-1633 | the loop accepts exactly the blocks whose every transaction is fine in turn, with exact totals and undo data |
| Connect.CheckBlock | src/main.cpp:2058-2082 | accepts exactly: a coinbase first and only there, every transaction well formed, no transaction twice |
| Connect.AllDistinct | src/main.cpp:2075-2082 | the duplicate check by counting finds every duplicate |
| Connect.CheckNoOverwrite | src/main.cpp:1560-1566 | true exactly when no transaction of the block has unspent outputs in the ledger already |
| Connect.ConnectBlock | src/main.cpp:1528-1694 | the verdict is exactly that of the rules on the ledger; when accepted, ledger, best block, undo data and money supply are those of the block on top of its parent |
| Connect.RestoreOne | src/main.cpp:1457-1481 | restores one output as the specification does and is clean exactly when none of the complaints applies |
| Connect.RemoveOutputs | src/main.cpp:1433-1450 | clears the outputs of a transaction; clean exactly when they were intact |
| Connect.UndoAll | src/main.cpp:1429-1483 | the reverse loop computes the specified ledger and is clean exactly when every step is |
| Connect.DisconnectBlock | src/main.cpp:1409-1494 | with fitting undo data it succeeds if it is clean or only asked for a report, and is clean exactly when every step is; then the ledger is the undone one and the parent is the best block |
| Reorg.DisconnectTip | src/main.cpp:1735-1751 | disconnecting the block a view is at never fails and leaves the view at the parent with exactly the ledger of the parent |
| Reorg.ConnectTip | src/main.cpp:1755-1773 | the verdict is the ruling on the block in its own place in the tree, whatever was connected before; an accepted block leaves the view at that block with its ledger, valid undo data and a money supply equal to all unspent outputs |
| Reorg.ConnectedTracks | src/main.cpp:1638-1648 | on values: the ledger after a block is the one determined by its ancestry alone, and the supply bound by the mint sum carries over |
| Reorg.MintSumBound | src/main.cpp:1638-1648 | what a path may mint is at most the sum of 999 coins over the squares of its targets, and at most 27.75 coins for each block |
| BlockTree.BlockIndex.constructor | src/main.cpp:1883-1895 | height is one more than that of the parent and chain work strictly more |
| BlockTree.ParentRooted | src/main.cpp:1883-1895 | heights drop by one and chain work strictly drops along pprev |
| Chain.FindFork | src/main.cpp:1702-1715 | finds the last block two chains share; none of its null assertions can fire |
| Chain.FindBranches | src/main.cpp:1702-1726 | the lists lead from the tip down to the fork and from the fork up to the target, and share no block |
| Chain.DisconnectAll | src/main.cpp:1733-1751 | a whole branch disconnects without failure and the view then holds the ledger of the fork |
| Chain.ConnectAll | src/main.cpp:1753-1773 | accepted if and only if the rules accept every block of the branch, and otherwise the first refused block and its ruling are returned; the base view is untouched |
| Chain.UnlinkAll | src/main.cpp:1802-1805 | after unlinking, pnext follows exactly the path to the fork |
| Chain.LinkAll | src/main.cpp:1807-1810 | after linking, pnext follows exactly the path to the target |
| Chain.TryMove | src/main.cpp:1696-1773 | the move happens on a private view and ends as the rules decide; if it fails the shared view still shows the old tip and ledger |
| Chain.Commit | src/main.cpp:1775-1797 | flushing publishes the private view: the shared one then shows the target and its ledger |
| Chain.ChainState.constructor | src/main.cpp:2698-2701 | an empty node satisfies every invariant, and nothing is unresolved |
| Chain.ChainState.InvalidBlockFound | src/main.cpp:1168-1177 | a block that the rules refuse for good is failed and no longer a candidate; the call back into ConnectBestBlock is never reached |
| Chain.ChainState.SetBestChain | src/main.cpp:1696-1873 | accepted if and only if the rules accept every block between the tip and the target; then the tip is the target. Otherwise the tip is as before and the first refused block decides the verdict; if it is invalid, it alone fails and stops being a candidate. Every invariant is kept |
| Chain.ChainState.MaxCandidate | src/main.cpp:1184-1189 | returns the candidate with most work, and of several the one with the least hash |
| Chain.ChainState.WalkBack | src/main.cpp:1194-1223 | finds a failed ancestor if there is one, and otherwise the blocks to attach in order |
| Chain.ChainState.MarkFailed | src/main.cpp:1198-1207 | exactly the blocks between the candidate and a failed ancestor fail; the candidate set strictly shrinks |
| Chain.ChainState.Attach | src/main.cpp:1212-1222 | attaches the given blocks one at a time; if one is refused, the block that stops it is the first on the chain that the rules do not accept, and no other block fails |
| Chain.ChainState.ConnectBestBlock | src/main.cpp:1179-1229 | terminates because each retry removes a candidate; best work never drops and the tip moves along the chain of the first block with no failed ancestor only. On success no block that has not failed, and so none whose whole ancestry the rules accept, has more work than the tip; otherwise that first block is heavier than the old tip and held up by a block that had not failed before and that the rules refuse, marked if refused for good. If all but a new block was resolved before the call, everything is after it |
| Chain.ChainState.ResolvedIsMaximal | src/main.cpp:1179-1229 | when everything is resolved, no sound block has more work than the tip, unless the first block with no failed ancestor stands on one that could not be judged |
| Chain.ChainState.JudgedIsMaximal | src/main.cpp:1179-1229 | when everything is resolved and every block can be judged, no sound block has more work than the tip |
| Chain.ChainState.FailedIsDoomed | src/main.cpp:43-43 | blocks fail only for a reason: every failed block has an ancestor, or is itself, refused for good on the ledger of its own parent |
| Chain.ChainState.AcceptBlock | src/main.cpp:1876-1911 | an unknown block with a known parent always enters the index, and no other does; all invariants are kept; on success the tip has maximal work among all blocks with an accepted ancestry, and otherwise the first block with no failed ancestor is heavier than the old tip and held up by a block that had not failed before and that the rules refuse |
| Chain.ChainState.AcceptBlocks | src/main.cpp:1876-1911 | over every run of block additions the index holds exactly the blocks whose parent was known on arrival, all invariants are kept and the work of the best chain never drops; from a resolved state it ends with a tip that no sound block outweighs, unless the first block with no failed ancestor stands on one that could not be judged, so always if every block can be judged |
| Chain.ChainState.ValidMeans | src/main.cpp:1802-1838 | in every reachable state pnext links exactly the path from genesis to the tip, the ledger is the replay of that path, and the money supply of the tip is the sum of all unspent outputs and at most the sum over the path of 999 coins over the squares of the targets, so at most 27.75 coins for each block |
| Runs.FromEmpty | src/main.cpp:1876-1911 | every sequence of incoming blocks, given to an empty node, ends with a tip that no sound block outweighs, if every block can be judged; if not, only a block that could not be judged keeps it from that |
| Runs.StuckRun | src/main.cpp:1179-1229 | the hypothesis is needed: a genesis block, a heavier block that cannot be judged and a lighter sound one leave the tip at the genesis block |
| ActiveChain.BlockMeans | src/main.cpp:1528-1651 | a block is accepted on top of a ledger if and only if its transactions are well made and well spent and it raises the money supply by no more than its target allows, all written out without the checks |
| ActiveChain.RulingMeans | src/main.cpp:1528-1651 | the same for the ruling on a block in its place in the tree: malformed is invalid whatever else, and accepted if and only if nothing speaks against it on the ledger of its own parent |
| ActiveChain.TransactionLaw | src/main.cpp:2024-2086 | in every reachable state every transaction on the active chain is well formed, is a coinbase if and only if it is the first of its block, and takes the hash of none with an unspent output |
| ActiveChain.SpendLaw | src/main.cpp:1329-1404 | in every reachable state every spend on the active chain names an output of the replayed ledger at that place, passes the script check, respects 3000 blocks of coinbase maturity and pays the fee |
| ActiveChain.NoDoubleSpend | src/main.cpp:1588-1633 | no output is spent twice on the active chain, unless a transaction of its hash is made again in between |
| ActiveChain.OriginLaw | src/main.cpp:1280-1294 | every output spent on the active chain was made by a transaction in front of the spend, and what the script check saw is the output as made there |
| Target.DifficultyRoundTrip | src/prime.cpp:197-208 | setting the fractional difficulty read from any target gives that target back |
| Target.DifficultyMeans | src/prime.cpp:192-195 | the fractional difficulty is 2^56 divided by what is missing from the fraction to 2^24, rounded down |
| Target.GetNextBounds | src/prime.cpp:244-276 | retargeting fails only for a zero denominator; the fraction stays at most 2^24 - 2^16, and the length moves by at most one and not below the minimum if and only if it does not step up from 255 |
| Target.GetNextExact | src/prime.cpp:244-276 | the next target in full: which quotient steps up, which steps down and to exactly the fraction 2^24 - 2^16 of the length below, and in between the fraction is bracketed on both sides by the quotient of old difficulty times (interval + 1) spacings and (interval - 1) spacings plus twice the actual one |
| Target.GetNextOrder | src/prime.cpp:244-276 | for every target of legal length and any two spacings: slower blocks do not raise the target if and only if the slower one overflows the length, or the faster one does not and the denominators are not of opposite sign or the slower difficulty is the minimum |
| Target.LengthOverflows | src/prime.cpp:176-179 | the overflow occurs: a target of length 255 that steps up becomes 0 |
| Target.NegativeDenominatorLowersTarget | src/prime.cpp:244-276 | denominators of opposite sign do turn the order around: concrete spacings |
| Target.OnTargetIsFixedPoint | src/prime.cpp:244-276 | an on-target block leaves the target alone if and only if the target is off the two length thresholds |
| Target.MintIsInverseSquare | src/prime.cpp:224-241 | the mint succeeds, is a multiple of a cent, and lies below 999 coins over the square of the target by less than CENT + 1; the over-limit branch is unreachable |
| Target.MintNonIncreasing | src/prime.cpp:224-241 | harder targets never mint more |
| Target.GetBlockWork | src/main.cpp:2177-2197 | the loop computes the specified work |
| Target.WorkMeans | src/main.cpp:2177-2197 | the work is 2^8 32^k times 32 f / (31 + f), rounded down, for k primes above 6 and the fractional difficulty f |
| Target.WorkBounds | src/main.cpp:2177-2197 | work for a length lies between 256 times 32^k and 256 times 32^(k+1) |
| Target.WorkMonotone | src/main.cpp:2177-2197 | from the minimum length on, work is at least 256 and grows with the target across length boundaries |
| Target.WorkOrder | src/main.cpp:2177-2197 | all harder targets are worth at least as much if and only if the length is at least the minimum or the fraction is too small to be worth more than 256 |
| Target.WorkNotMonotoneBelowMinimum | src/main.cpp:2192-2195 | the order does break below the minimum length: a concrete pair |
| Target.WorkFits | src/main.cpp:2177-2197 | up to length 54 the work is below 2^256 |
| CheckQueue.BatchFits | src/checkqueue.h:104-104 | a batch is never empty and never larger than the queue; SectionTakesShare says how large it is |
| CheckQueue.SectionTakesShare | src/checkqueue.h:99-111 | a thread that takes a batch takes at most the batch size, at most its share among the threads with one more for each idle one, and as much of these as there is |
| CheckQueue.InitInv | src/checkqueue.h:125-126 | the initial state satisfies the invariant |
| CheckQueue.AddKeepsInv | src/checkqueue.h:139-150 | adding checks keeps the invariant |
| CheckQueue.SectionKeepsCounts | src/checkqueue.h:70-114 | every critical section of every thread keeps: todo is queued plus in-flight checks, total less idle is the threads holding a batch, and no check is lost or run twice |
| CheckQueue.SectionKeepsMaster | src/checkqueue.h:85-98 | the master never sleeps on a non-empty queue, nor without a pending notification once nothing is left to do |
| CheckQueue.NextKeepsInv | src/checkqueue.h:64-150 | every step of the system keeps the invariant |
| CheckQueue.RunInv | src/checkqueue.h:64-150 | in every interleaving of the master and any number of workers the invariant holds in every state |
| CheckQueue.RunTakesShares | src/checkqueue.h:99-111 | the same at every step of every run, with the numbers of threads that are really in Loop and asleep |
| CheckQueue.MasterLeaves | src/checkqueue.h:85-94 | the master leaves exactly when every added check is done |
| CheckQueue.WaitIsConjunction | src/checkqueue.h:134-136 | in every run Wait returns exactly the conjunction of all checks added since the last Wait, and leaves the queue as CCheckQueueControl asserts it |
| CheckQueue.UnusedBetweenWaits | src/checkqueue.h:167-174 | with nothing added the three assertions of CCheckQueueControl hold |
| CheckQueue.MasterIsWokenUp | src/checkqueue.h:74-98 | a sleeping master that was not notified has a worker holding a batch |
| CheckQueue.SectionProgress | src/checkqueue.h:70-121 | every critical section that hands back or takes work makes progress in a bounded measure |
| CheckQueue.SectionReduces | src/checkqueue.h:70-121 | a critical section never adds work; handing back a batch reduces it, and so does a master that finds something to do |
| CheckQueue.Advances | src/checkqueue.h:70-121 | in a run without end, a master in Loop that waits for a thread that acts some time returns, or gets nearer to that |
| CheckQueue.WaitEnds | src/checkqueue.h:134-136 | in every run in which threads that hold a batch or were notified go on some time, every Wait ends and returns the conjunction of all checks added |
| CheckQueue.EndlessWorkers | src/checkqueue.h:139-150 | in every run, while there is something in the queue, no worker waits for a notification or some worker can go on |
| CheckQueue.WorkersProceed | src/checkqueue.h:139-150 | in every fair run, while there is something in the queue and a worker in Loop, a worker takes a batch some time, whether or not the master waits |
| CheckQueue.RunBatch | src/checkqueue.h:115-118 | the loop over a batch stops at the first failure and returns the conjunction |
| CheckQueue.Queue.Add | src/checkqueue.h:139-150 | appends the checks, counts them and notifies one worker for one check and all for more |
| CheckQueue.Queue.Take | src/checkqueue.h:104-111 | takes a batch from the back of the queue, last check first |
| CheckQueue.Queue.HandBack | src/checkqueue.h:73-83 | the clean-up of a round is that of the transition system; the last check notifies the master |
| CheckQueue.Queue.Round | src/checkqueue.h:70-114 | one critical section of the class is one step of the transition system, and the batch it takes is a fair share |
| Merkle.BuildMerkleTree | src/main.h:1386-1403 | builds all levels one after the other and returns the root, 0 for no transactions |
| Merkle.RootOfHalves | src/main.h:1386-1403 | the root of a full tree combines the roots of its halves, left before right |
| Merkle.OddOneCountsTwice | src/main.h:1386-1403 | of an odd number of hashes the last one counts twice |
| Merkle.GetMerkleBranch | src/main.h:1411-1425 | collects the siblings on the way up |
| Merkle.CheckMerkleBranch | src/main.h:1427-1440 | hashes up along the branch; an unknown position gives 0 |
| Merkle.BranchLeadsToRoot | src/main.h:1411-1440 | for every transaction the branch leads to the root of the tree |
| Merkle.ProveTransaction | src/main.h:1386-1440 | for every transaction, building the tree, taking its branch and checking it gives the same root |
| Merkle.BranchProvesMembership | src/main.h:1427-1440 | without collisions only the transaction at that position, with that branch, climbs to the root |
| Bits.Pack | src/main.h:1238-1240 | bit p of the bytes is flag p, and padding is zero |
| Bits.Unpack | src/main.h:1233-1235 | flag p is bit p of the bytes |
| PartialMerkle.CalcHashIsLevel | src/main.cpp:2325-2340 | the recursive hash of a node is the one that BuildMerkleTree puts there |
| PartialMerkle.CalcHashIsRoot | src/main.cpp:2325-2340 | at the computed height it is the Merkle root |
| PartialMerkle.TreeHeight | src/main.cpp:2395-2398 | the loop finds the first level with at most one node |
| PartialMerkle.FewHashes | src/main.h:1179-1183 | at most one hash per transaction, and at least one bit per hash |
| PartialMerkle.HashesPerMatch | src/main.h:1179-1183 | at most one hash per match and level, plus one |
| PartialMerkle.BitCount | src/main.h:1184-1191 | the number of flag bits is 2 N - 1 plus the single-child nodes above a match, so the documented bound of 2 N - 1 holds if and only if there are none |
| PartialMerkle.BitBoundFails | src/main.h:1184-1191 | three transactions with the last matched need four bits for two hashes: the documented bound is false |
| PartialMerkle.PartialMerkleTree.constructor | src/main.cpp:2390-2402 | the object holds the partial tree of the whole block |
| PartialMerkle.PartialMerkleTree.TraverseAndBuild | src/main.cpp:2342-2358 | appends exactly the specified bits and hashes of a node |
| PartialMerkle.PartialMerkleTree.TraverseAndExtract | src/main.cpp:2360-2388 | computes the specified extraction, the error flag included |
| PartialMerkle.PartialMerkleTree.ExtractMatches | src/main.cpp:2406-2437 | returns 0 unless every check passes, and then the extracted root and matches |
| PartialMerkle.PartialMerkleTree.Write | src/main.h:1237-1242 | the byte form of the flag bits |
| PartialMerkle.PartialMerkleTree.Read | src/main.h:1230-1236 | reads counts, hashes and bits back, padded to whole bytes |
| PartialMerkle.ExtractReadsBuild | src/main.cpp:2342-2388 | extraction at any place reads back what was built there: hash, matches and the exact number of bits and hashes |
| PartialMerkle.HonestTreeIsAccepted | src/main.cpp:2406-2437 | an honest partial tree, padded to bytes, passes all checks and yields the Merkle root and exactly the matched transactions in order |
| PartialMerkle.AcceptedIsTight | src/main.cpp:2406-2437 | what is accepted is for at most 16666 transactions, has no more hashes than transactions or bits, and is not accepted with anything added but padding bits |
| PartialMerkle.SendMatches | src/main.cpp:2342-2437 | from block to receiver: building, packing, unpacking and extracting gives the BuildMerkleTree root and exactly the matched transactions in order |
| PartialMerkle.ExtractIsSound | src/main.cpp:2360-2388 | for arbitrary bits and hashes: if a node hash comes out right and there are no collisions, what was matched below it is there, at increasing positions |
| PartialMerkle.MatchesAreInBlock | src/main.cpp:2406-2437 | if extraction with the true transaction count yields the root of a block, every match is a transaction of the block, at strictly increasing positions |
| PeerManager.Manager.constructor | src/network_peer_manager.cpp:10-20 | an empty manager satisfies every invariant |
| PeerManager.Manager.SwapRandom | src/network_peer_manager.cpp:415-433 | exchanges two entries of the random order and keeps it inverse to the positions |
| PeerManager.Manager.Create | src/network_peer_manager.cpp:403-413 | adds a peer under a fresh id to all indexes |
| PeerManager.Manager.Delete | src/network_peer_manager.cpp:471-478 | removes a peer from the random order, the address index and the table |
| PeerManager.Manager.Release | src/network_peer_manager.cpp:468-482 | takes a peer out of one new bucket and forgets it with the last reference; all invariants are kept |
| PeerManager.Manager.ShrinkNew | src/network_peer_manager.cpp:459-511 | removes a terrible entry if there is one, else the least recently seen of four drawn ones; everything else is kept |
| PeerManager.TerribleMeans | src/network_peer_manager.cpp:345-365 | who may be thrown out, in seconds and counts: nobody tried within the last minute; else whoever was seen more than ten minutes ahead or not for thirty days, was tried three times and never reached, or was tried ten times and not reached for seven days |
| PeerManager.ReachedIsSafe | src/network_peer_manager.cpp:345-365 | a peer that was reached is safe for thirty days if it is not tried since |
| PeerManager.Manager.SelectTried | src/network_peer_manager.cpp:435-457 | the bucket is shuffled by the draws, and the slot is the place of the first least recently successful inspected entry plus its draw; so the slot holds that entry if and only if its draw was 0 |
| PeerManager.SlotMayBeWrong | src/network_peer_manager.cpp:445-453 | the wrong slot does come back: a bucket of two whose second entry is older and drawn first |
| PeerManager.ShuffledEntries | src/network_peer_manager.cpp:445-450 | the shuffle keeps the entries of the bucket, each once |
| PeerManager.Manager.MakeTried | src/network_peer_manager.cpp:513-569 | moves the peer to the tried table; exactly when the bucket was full one tried peer goes back; there is always room for it |
| PeerManager.Manager.Exchange | src/network_peer_manager.cpp:540-569 | the evicted peer goes to the new bucket of its source if there is room and else to the origin bucket, which has room |
| PeerManager.Manager.Add | src/network_peer_manager.cpp:58-116 | new exactly when routable and unknown; at most one peer is forgotten and never a tried one; a known peer joins the one bucket of its address and the source exactly when the message is news, the dice of range 2^references show 0 and it is not there yet, and no other bucket changes |
| PeerManager.RefreshMeans | src/network_peer_manager.cpp:72-82 | a message about a known peer adds services and moves its time forward exactly when it is an hour behind a peer seen today, or a day behind |
| PeerManager.Manager.Good | src/network_peer_manager.cpp:126-170 | a known service ends up tried with fresh times; an unknown one changes nothing; the no-bucket branch is unreachable |
| PeerManager.Manager.FindBucket | src/network_peer_manager.cpp:148-164 | the wrap-around search finds a bucket if and only if there is one |
| PeerManager.Manager.Attempt | src/network_peer_manager.cpp:180-196 | counts the attempt of a known service and changes nothing else |
| PeerManager.Manager.Connected | src/network_peer_manager.cpp:287-303 | refreshes the time of a known service after twenty minutes and changes nothing else |
| PeerManager.Manager.GetAddr | src/network_peer_manager.cpp:262-277 | returns 23 percent of the peers, at most 2500, all different; only the random order changes |
| PeerManager.SampleSizeMeans | src/network_peer_manager.cpp:262-266 | a sample is 23 percent rounded down and at most 2500 |
| PeerManager.Run | src/network_peer_manager.cpp:58-303 | every sequence of operations keeps all indexes in agreement and the tables within their bounds |
| PeerTables.TablesAreBounded | src/network_peer_manager.h:17-38 | the counters add up to the number of peers, and only a limited number of addresses is kept |
| PeerTables.ReleaseKeeps | src/network_peer_manager.cpp:468-482 | taking a reference away keeps reference counts equal to bucket counts |
| PeerTables.ExchangeKeeps | src/network_peer_manager.cpp:540-569 | swapping a new and a tried peer keeps all indexes |
| PeerTables.ReplaceKeepsTried | src/network_peer_manager.cpp:565-568 | the slot of the evicted peer serves the promoted one; every tried id is in exactly one slot |
| PeerStore.Write | src/network_peer_manager.h:254-292 | the archive lists all new and all tried peers once and the bucket members by number; the early loop exits lose nothing |
| PeerStore.TriedRoom | src/network_peer_manager.h:316-335 | when loading, the tried bucket of every saved peer has room |
| PeerStore.BelowLimit | src/network_peer_manager.h:336-351 | when loading, the limit of four buckets is never hit |
| PeerStore.Read | src/network_peer_manager.h:293-353 | loading what a valid manager wrote gives a valid manager with the same peers, tried flags, reference counts and new-bucket memberships, renumbered |
| PeerStore.RoundTrip | src/network_peer_manager.h:246-353 | writing a valid manager and reading it back loses nothing but ids, the random order, the order within tried buckets and memory-only fields |
| VarInt.WriteVarInt | src/serialize.h:273-288 | writes exactly the encoding |
| VarInt.ReadVarInt | src/serialize.h:290-304 | reads one number, or fails when the stream ends |
| VarInt.ReadWord | src/serialize.h:290-304 | an unsigned type of any width reads the number modulo its range from the same bytes, so a number that fits is read exactly and a larger one wraps |
| VarInt.GetSizeOfVarInt | src/serialize.h:260-271 | the number of bytes written |
| VarInt.DecodeEncode | src/serialize.h:273-304 | reading back what was written, whatever follows |
| VarInt.EncodeDecode | src/serialize.h:246-251 | no redundancy: whatever can be read is what would have been written |
| VarInt.PrefixFree | src/serialize.h:246-251 | no encoding is the beginning of another |
| VarInt.EncodeIsDigitSum | src/serialize.h:238-244 | the documented formula: what is written stands for the number in base 128 with one added to all digits but the last |
| VarInt.CodeIsEncode | src/serialize.h:246-251 | every byte sequence of that form is what is written for the number it stands for |
| VarInt.EncodedSizes | src/serialize.h:246-251 | one byte up to 127, two up to 16511, three up to 2113663 |
| VarInt.Examples | src/serialize.h:253-258 | the documented examples, and the two of them that are wrong |
| VarInt.FitsBuffer | src/serialize.h:276-276 | a number of m bits takes at most (m + 6) / 7 bytes, so the buffer suffices |
| Amount.CompressAmount | src/main.cpp:3864-3881 | the loop computes the compressed amount; the digit assertion holds |
| Amount.DecompressAmount | src/main.cpp:3883-3907 | the loop computes the decompressed amount |
| Amount.DecompressCompress | src/main.cpp:3855-3907 | decompression inverts compression on all amounts |
| Amount.CompressDecompress | src/main.cpp:3855-3907 | every number is the compressed form of exactly one amount |
| Amount.CompressedFits | src/main.cpp:3864-3881 | no amount of money overflows 64 bits |
| Amount.CompressMeans | src/main.cpp:3855-3863 | the documented form of an amount with fewer than nine trailing zeros |
| Amount.CompressWhole | src/main.cpp:3855-3863 | and of one with nine or more |
| ScriptCodec.DecompressCompress | src/script.cpp:1801-1885 | a special script is recovered from its compressed form, given that a valid key is recovered from its x coordinate and parity |
| ScriptCodec.UnserializeSerialize | src/script.h:638-662 | every script is read back exactly, whatever follows it |
| ScriptCodec.GetSerializeSize | src/script.h:629-635 | the number of bytes written |
| ScriptCodec.SerializedSizes | src/script.h:592-601 | the sizes that the class comment promises |
| ScriptCodec.CompressMeans | src/script.cpp:1762-1830 | the four special scripts and their one-byte kinds, byte by byte |
| ScriptCodec.GetPutOut | src/main.h:680-703 | an output is read back exactly |
| CoinsCodec.CalcMaskSize | src/main.h:932-952 | finds the last nonzero mask byte and counts the nonzero ones |
| CoinsCodec.MaskToBit | src/main.h:990-996 | bit p of mask byte b tells whether output 2 + 8 b + p is unspent |
| CoinsCodec.ReadMaskBack | src/main.h:1018-1028 | the reader stops exactly after the last mask byte and has the availability of every output |
| CoinsCodec.CodeReadBack | src/main.h:1012-1017 | the header code is read back: coinbase flag, first two outputs and the mask count |
| CoinsCodec.SomethingUnspent | src/main.h:983-983 | the assertion that there is something to write holds for unpruned coins |
| CoinsCodec.ParseBytes | src/main.h:978-1038 | every storable CCoins is read back exactly, whatever follows it |
| CoinsCodec.Serialize | src/main.h:978-1004 | the loops write exactly the specified bytes |
| CoinsCodec.Unserialize | src/main.h:1007-1038 | the loops read exactly what the parser specifies, or fail when the stream ends |
| CoinsCodec.GetSerializeSize | src/main.h:954-975 | the number of bytes written |
| CoinsCodec.StoreAndLoad | src/main.h:954-1038 | the announced size is the number of bytes written, and unserializing them gives the coins back |
| CoinsCodec.FirstExample | src/main.h:847-859 | the first documented example, byte by byte |
| CoinsCodec.SecondExample | src/main.h:862-879 | the second documented example, byte by byte, with a mask of two bytes |
| Multisig.GreedyIsMatching | src/script.cpp:894-916 | the greedy loop succeeds if and only if there is an order-preserving assignment of keys to signatures with every pair passing |
| Multisig.MatchLoop | src/script.cpp:894-916 | the loop never reads outside the items it was given and computes exactly that |
| Multisig.CheckMultisig | src/script.cpp:856-928 | fails exactly on malformed counts or stack, or for the verify form on a mismatch; pops exactly keys plus signatures plus 3 items and pushes the outcome |
| Multisig.LayoutMeans | src/script.cpp:856-928 | on a stack as scripts leave it: well formed if and only if at most 20 keys, 201 operations and no more signatures than keys; takes off exactly these items; and succeeds if and only if the signatures match keys in the order of the script |
| Mempool.NoDoubleSpend | src/main.cpp:828-840 | no two pool transactions spend the same output |
| Mempool.NotIndexedIsUnspent | src/main.cpp:688-711 | an output is in the index exactly when a pool transaction spends it |
| Mempool.TxMemPool.Find | src/main.cpp:257-272 | looks a transaction up in the ledger and, behind it, in the pool |
| Mempool.TxMemPool.AddUnchecked | src/main.cpp:828-840 | adds the transaction and keeps the index exactly inverse to the inputs of the pool |
| Mempool.TxMemPool.Accept | src/main.cpp:653-817 | accepted exactly when it passes the other checks, neither ledger nor pool has it, all inputs are unspent outputs of the ledger or of the pool, and no pool transaction spends one of them; a pool whose inputs all have a source stays so |
| Mempool.TxMemPool.Erase | src/main.cpp:854-861 | takes one transaction and its index entries out |
| Mempool.TxMemPool.Remove | src/main.cpp:842-864 | recursive removal terminates and cuts the transaction and what spends from removed ones, leaving nothing that does |
| Mempool.CutIsDescendants | src/main.cpp:842-864 | what is cut is the transaction and exactly its descendants |
| Mempool.TxMemPool.RemoveConflicts | src/main.cpp:866-879 | exactly the other pool transactions that spend an input of the transaction, and their descendants, leave; afterwards only the transaction itself may spend its inputs |
| Mempool.SweptIsDisplaced | src/main.cpp:866-879 | what leaves is exactly the rivals of the transaction and their descendants |
| Mempool.TxMemPool.Update | src/main.cpp:1812-1824 | after the update no pool transaction spends an output spent by a connected transaction, and every step adds and removes exactly what it should |
| Mempool.StepKeeps | src/main.cpp:1812-1824 | nothing leaves but connected transactions, conflicts with them, refused resurrected ones and what spends from removed ones; nothing enters but resurrected ones that pass |
| Mempool.LeftForAReason | src/main.cpp:1812-1824 | over the whole update, whatever left the pool did so in one step for such a reason |
| Mempool.UpdateBacks | src/main.cpp:1812-1824 | if the inputs of the pool were in the new ledger, in the pool, spent by connected blocks or from disconnected transactions, then after the update they are in the new ledger or in the pool, except those from a disconnected transaction that is not queued to come back |
| Outputs.StaysOnChain | src/main.cpp:1588-1632 | along a chain the rules accept, an output of the ledger stays until a block spends it |
| Outputs.ComesFromChain | src/main.cpp:1588-1632 | an output of the ledger was there before or was made by a block since |
| Outputs.ChainDeposits | src/main.cpp:1588-1632 | an output that a block makes is in every later ledger until a block spends it |
| Outputs.EntryOnChain | src/main.cpp:1588-1632 | a later entry for a transaction of a block is from the height of that block or above, and is marked as a coinbase exactly if the transaction is one |
| Node.ToResurrect | src/main.cpp:1733-1751 | vResurrect is the transactions of the disconnected blocks, coinbases excepted, in the order of the chain |
| Node.ToDelete | src/main.cpp:1753-1773 | vDelete is the transactions of the connected blocks in order |
| Node.OutputMoves | src/main.cpp:1696-1773 | an output in the ledger of the old tip is in that of the target, or the new branch spends it, or it is from a transaction of the old branch |
| Node.Reorganize | src/main.cpp:1696-1873 | moves exactly when the rules accept the new branch, and if not leaves the pool alone; otherwise the pool goes through exactly the steps for the two branches. Afterwards no pool transaction spends what a newly connected block spends, and if every pool input was unspent in the old ledger or made in the pool, every one is in the new ledger or the pool, except those from coinbases of disconnected blocks; with none of those before there is none after |
| Node.FollowedInStep | src/main.cpp:1812-1824 | the same for any history of the pool that follows the two branches |
| Node.MatureIsSafe | src/main.cpp:1351-1355 | while the pool spends only mature coinbases, no reorganization of fewer than COINBASE_MATURITY blocks disconnects one that it spends from |
| Runs.Strand | src/main.cpp:1812-1824 | a pool transaction that spends a disconnected coinbase stays although its input is nowhere |
| Primes.GeneratePrimeTable | src/prime.cpp:15-31 | exactly the primes below the limit, in order |
| Primes.MarkMultiples | src/prime.cpp:24-25 | marks the multiples from the square on, so that all numbers with a factor up to this one are marked |
| Primes.SkipComposite | src/prime.cpp:22-23 | skipping a composite factor loses nothing |
| Primes.InverseExists | src/prime.cpp:617-625 | modulo a prime every number it does not divide has an inverse |
| Primes.SolvedBy | src/prime.cpp:633-633 | the solved multiplier is the only residue class for which the prime divides the number |
| Sieve.CandidateSieve.constructor | src/prime.h:116-127 | an empty sieve marks nothing |
| Sieve.CandidateSieve.Weave | src/prime.cpp:606-650 | after any number of weaves a multiplier is marked in a bitmap if and only if a woven prime divides one of the numbers of its chain; the sieve advances unless it is complete or has an odd factor and the prime 2, for which 2 has no inverse |
| Sieve.OddFactorStops | src/prime.cpp:622-625 | with factor 1 the sieve stops at the prime 2 although 3 is below its size |
| Sieve.CandidateSieve.WeaveNumber | src/prime.cpp:637-646 | one number of the sequence is marked in exactly the bitmaps it belongs to |
| Sieve.RuledMeans | src/prime.cpp:628-646 | for the Cunningham bitmaps this means that a woven prime divides f m 2^k - 1, or + 1 for the second kind, for some k below the length |
| Sieve.NumberIsTerm | src/prime.cpp:628-646 | the numbers of the sieve are those the chain tests look at, around the origin f m |
| Sieve.MarkedIsComposite | src/prime.cpp:628-646 | a marked multiplier has a composite number in its chain, once the numbers exceed the woven primes |
| Sieve.FactorNeverHits | src/prime.cpp:611-616 | a prime that divides the fixed factor divides no number of any chain |
| Sieve.TwoHasInverse | src/prime.cpp:622-625 | modulo a prime 2 has an inverse exactly when the prime is not 2 |
| Sieve.CandidateSieve.GetNextCandidateMultiplier | src/prime.h:147-176 | finds the next multiplier that is not ruled out for some kind of chain, bi-twin preferred, and skips only ruled out ones |
| PrimeChain.FermatDecides | src/prime.cpp:91-106 | on odd numbers above 1 the error branch is unreachable, and the fraction of a failing number is (n - r) 2^24 / n rounded down for the remainder r of 2^(n-1) |
| PrimeChain.FastImpliesFermat | src/prime.cpp:115-144 | a pass implies a Fermat pass, both failing gives the same fraction, which is that of the Fermat remainder, and neither error branch is reachable on chain numbers |
| Residues.CharacterOfTwo | src/prime.cpp:115-144 | the quadratic character of 2: modulo an odd prime p, 2^((p-1)/2) is 1 if p is 1 or 7 modulo 8, and -1 otherwise |
| Residues.SafePrime | src/prime.cpp:108-114 | for an odd prime p, 2p + 1 is prime if 2^(2p) is 1 modulo it |
| PrimeChain.PrimePassesFast | src/prime.cpp:115-144 | every prime of the right residue modulo 4 passes the fast test |
| PrimeChain.PrimePassesFermat | src/prime.cpp:91-106 | every odd prime passes the Fermat test |
| PrimeChain.FirstKindDecides | src/prime.cpp:108-144 | after an odd prime, both tests on the next number of a chain of the first kind decide primality exactly |
| PrimeChain.SecondKindMayErr | src/prime.cpp:108-144 | of the second kind they do not: 561 passes after the prime 281 |
| PrimeChain.TermShape | src/prime.cpp:314-328 | all numbers around an even origin are odd, and later ones have the residues modulo 4 that the fast test expects |
| PrimeChain.TermClosed | src/prime.cpp:314-328 | the numbers of the two chains around o are o 2^i - 1 and o 2^i + 1 |
| PrimeChain.OddOrigin | src/prime.cpp:304-312 | around an odd origin both tests give up at the first number |
| PrimeChain.FastLengths | src/prime.cpp:304-355 | for all three kinds of chain around any origin the fast length never exceeds the Fermat length, and they are equal if and only if the number the fast test stopped at fails the Fermat test |
| PrimeChain.PrimesAreCounted | src/prime.cpp:304-355 | if the first m numbers of any of the three kinds of chain are prime, both tests give a length of at least m primes |
| PrimeChain.FirstKindIsExact | src/prime.cpp:304-331 | if the first number is prime, the length of a chain of the first kind counts primes: the tests stop at the first number that is not prime |
| PrimeChain.BiTwinIsPrefix | src/prime.cpp:347-352 | the bi-twin length is the longest passing prefix of o-1, o+1, 2o-1, 2o+1, ... with the fraction of the first failure |
| PrimeChain.ProbableCunninghamChainTest | src/prime.cpp:304-331 | the length is the first failing index with the fraction recorded there |
| PrimeChain.ProbablePrimeChainTest | src/prime.cpp:337-355 | all three lengths, and whether one meets the target |
| PrimeChain.CheckChain | src/prime.cpp:375-399 | accepted if and only if a fast length meets the target and both numbers the fast test stopped at fail the Fermat test |

## Left out

- Networking, message dispatch, node threads, wallet, user interface, command line and logging.
- Files and databases: block files, undo files, LevelDB and Berkeley DB are treated as memory that never fails; disk-full and abort paths are not modelled.
- Cryptography: SHA-256, ECDSA and script evaluation other than OP_CHECKMULTISIG; script verification is a parameter.
- Floating point: `GetChance`, `Select_` and probability estimates.
- Coins.Spend: CCoins are values, so aliasing of references returned by `GetCoins` is not modelled.
- Connect.ConnectBlock: size, time, signature-operation and Merkle root checks are one function of the block in the rules, so a check against the clock gives the same answer every time; the two hard-coded exceptions to the duplicate rule and the check-only mode are not modelled, and block totals are unbounded integers rather than 64-bit ones.
- Connect.CheckBlock: covers the coinbase, transaction and duplicate checks; size, time, signature-operation and Merkle root checks are left to the caller.
- Connect.CheckInputs: script checks run in place instead of being queued; the queue is modelled on its own in CheckQueue.
- Connect.DisconnectBlock: negative transaction versions are not modelled.
- Chain.ChainState.SetBestChain: ends before the memory pool update; Node.Reorganize is the call together with that update. Wallet and notification steps are left out.
- Node.Reorganize: one call of SetBestChain; that ConnectBestBlock makes several in a row, each with its own pool update, is not modelled.
- Chain.ChainState.InvalidBlockFound: the record of the most work on an invalid chain is not modelled.
- Chain.ChainState.AcceptBlock: header checks against time, checkpoints and proof of work are left out.
- Target.GetBlockWork: chain work is an unbounded integer; up to length 54 a block's work fits 256 bits.
- CheckQueue.Queue.Round: running the checks of a batch happens outside the critical section and is RunBatch; that the scheduler is fair is a hypothesis of CheckQueue.WaitEnds.
- PartialMerkle.PartialMerkleTree.constructor: requires at least one transaction, as the original reads the first one.
- PartialMerkle.PartialMerkleTree.Write: models how the flag bits become bytes; the wire format of the count and the hashes is left out.
- PeerManager.Manager.ShrinkNew: sets are walked in arbitrary order.
- PeerStore.Read: models archives that Write made, with the same number of buckets; other archives and the byte format are left out.
- VarInt.ReadVarInt: numbers are unbounded; VarInt.ReadWord says what an unsigned type of a given width sees, and signed types are not modelled.
- Amount.DecompressAmount: numbers are unbounded; compressed amounts of money stay within 64 bits.
- ScriptCodec.GetSerializeSize: sizes are unbounded integers.
- CoinsCodec.Serialize: negative versions and heights are excluded, as the format cannot hold them.
- Multisig.CheckMultisig: removal of signatures from the script code and encoding checks are part of the check parameter.
- Mempool.TxMemPool.Accept: the checks other than for presence in the ledger and the pool (standard form, fees, rate limit, scripts) are one parameter; replacement is disabled in the original and left out.
- PrimeChain.ProbableCunninghamChainTest: lengths are unbounded; 256 or more primes in a chain would wrap in the original.
- PrimeChain.CheckChain: the limits on header hash and origin, and the choice of the reported chain type, are left out.
- BIP 37 filters, bloom filter sizing, `limitedmap`, orphan handling, checkpoints and alerts.
