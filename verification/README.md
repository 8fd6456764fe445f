# Verified models of the node's core

This project models the parts of the node that carry its hardest invariants and
proves what they keep.  `dafny verify dfyconfig.toml` checks everything.

Code that changes objects in place is modelled by classes and methods (the
coins cache, the check queue, the address manager, the 256-bit integers, the
block index, the active chain, the partial Merkle tree).  Each method is proved
against a function on plain values, and the theorems about whole runs, round
trips and bounds are lemmas about those functions.

| files | what they model |
|---|---|
| `Coins`, `Ledger`, `BlockRules` | records of unspent outputs, the map of them, and what connecting and disconnecting a block does to the map |
| `BlockMeaning`, `BlockErrors` | what an accepted block leaves unspent, exactly which blocks are accepted, and what each error says |
| `UndoProofs`, `UndoExact`, `Supply`, `ChainRuns` | disconnecting undoes connecting, and is clean only then; the money supply; runs with reorganisations |
| `CoinsCache`, `CacheRuns`, `ChainState` | the layered cache with its DIRTY and FRESH flags, and the ledger code running on it |
| `CheckQueue`, `CheckQueueProtocol` | the critical sections of the script-check queue, and every interleaving of them |
| `AddrBook`, `AddrMan`, `AddrStore`, `AddrLoad` | the address manager: tables, operations, saving and loading, files of other programs |
| `AddrMeaning` | what its operations mean, seen by network address |
| `PartialMerkle`, `PartialMerkleRoundTrip`, `PartialMerkleTree`, `PartialMerkleSize`, `PartialMerkleRefusal` | partial Merkle trees: prover, verifier, packing, size, refusals |
| `MerkleTree` | the Merkle tree of a block, and lists that share a root |
| `Limbs`, `LimbShifts`, `ArithUint256`, `Compact`, `ProofOfWork` | limb arithmetic, compact targets, retargeting, work |
| `BlockIndex`, `ActiveChain` | skip list, active chain and locators |
| `BlockLinking`, `BlockPruning`, `BlockArrival` | blocks that arrive before their parents, with and without deleted data |
| `BlockCheck`, `BlockRuns`, `BlockGuards` | the self-check of the block index over runs, and exactly which steps can make it fail |
| `BlockSearch`, `BlockStore` | choice of the best chain, and the block index that all this happens in |
| `Amounts`, `VarInt`, `ScriptCodec`, `CoinRecord`, `CoinStream`, `UndoRecord`, `Radix`, `Base58` | stored records and base-58 strings |
| `VarIntForms`, `StoredForms` | the documented forms of numbers, amounts, scripts and records |
| `Basics`, `Wrappers`, `Nonlinear`, `Sums` | helpers |

## Results that differ from what one might expect

- `a *= a` on a 256-bit integer gives zero, because the left side is cleared
  before the right side is read (`MulAssign` states both cases).
- A stored record comes back unchanged exactly when version and height are not
  negative: a variable-length integer keeps only seven bits of a negative
  number (`StoredRecordComesBack`, `StoredUndoComesBack`).  The code knows it:
  disconnecting does not compare negative versions (`src/main.cpp:1650-1654`).
- A retarget is exact if and only if the product of target and timespan fits
  256 bits, or what is left of it still reaches the limit (`NextTargetExact`).
  On the main network it always fits (`MainLimitFits`).  On the regression-test
  network it need not: word 0x20400000 after exactly two weeks gives the target
  zero (`RegtestTargetCanBeZero`).  From the word that such a chain starts with,
  0x207fffff, exactly two weeks make the next target 600000 times harder instead
  of leaving it as it is (`RegtestStartIsInexact`).
- The verifier of a partial Merkle tree rejects an honest proof exactly when
  two siblings on its way have equal hashes (`RoundTrip`); for distinct ids and
  a collision-free hash that never happens.
- The bound of 2 * n - 1 flag bits for n hashes in the comment at
  `src/merkleblock.h:47-48` does not hold: three transactions with the last one
  matched take two hashes and four bits (`ThreeTransactionsNeedFourFlags`).
  It holds exactly when no node with one child is descended into
  (`FlagCount`), and is exceeded by at most one for each level
  (`OneChildPerLevel`).
- The size promised for a serialised partial Merkle tree, 10 + ceil(32.25 * n)
  bytes for n hashes (`src/merkleblock.h:34`), holds up to 1000 hashes, and in
  general exactly when there are at most 2016 flags or few nodes with one child
  (`SizePromise`).  A block of 1028 transactions that all match takes one byte
  more (`AllOf1028BreakThePromise`).
- Different lists of transactions can share a Merkle root: repeating the last two
  of six does (`RepeatedEndHasSameRoot`).  Among lists with as many levels the check
  for mutation always finds it (`MutationIsFound`).
- Adding an address answers that it is new also when every slot it could have is
  taken and nothing is kept of it (`AddNew`).
- A cache that never read or set its best block makes the cache below forget its
  own when it is flushed (`UnaskedFlushForgets`).  The best block stays if and
  only if the upper cache knows one or there is nothing to forget
  (`FlushedBest`).  Connecting and disconnecting always set one.
- The self-check of the block index (`src/main.cpp:3531-3664`) can be made to fail
  by two steps of the code, and by no other one that is modelled (`SafeIsExact`,
  an equivalence for every step):
  - Deleting the data of a block that is not linked.  When its missing ancestors
    arrive later, the block is not linked with them, and the assert at line 3603
    fails.  This happens unless an ancestor failed before it was received: such a
    block is never taken, so the missing ancestors never all arrive.
  - Receiving a block.  It gets no link when its parent is not linked and carries
    a failure mark (line 2573), which is harmless exactly when the same exception
    applies.  And a candidate that had lost its data, with the same work as the
    tip, gets a later sequence id than the tip, so that it is a candidate worse
    than the tip, which the check excludes (line 3630).

## Model

| member | source | states |
|---|---|---|
| Coins.TrimIsLongestCleanPrefix | src/coins.h:112-117 | dropping spent outputs at the end leaves the longest prefix that does not end in one |
| Coins.Cleanup | src/coins.h:112-117 | the loop computes that prefix |
| Coins.ClearUnspendable | src/coins.h:119-125 | provably unspendable outputs are removed, then the end is cleaned up; which ones these are says `BlockMeaning.UpdateCoinsLooks` |
| Coins.ClearUnspendableIdempotent | src/coins.h:119-125 | doing it twice changes nothing, so undo can compare records |
| Coins.Spend | src/coins.cpp:35-42 | succeeds exactly on an available output, and nulls and cleans up |
| Coins.RestoreUndoesSpend | src/main.cpp:1615-1618 | padding and writing the output back gives the array before the spend |
| Coins.UnspendableOnlyBurns | src/coins.h:88-94 | unspendable outputs can only lower the value of a record |
| Ledger.ApplyUndoesSpend | src/main.cpp:1596-1620 | on every sound view, applying the undo entry of a spend is clean and restores the view, metadata included |
| Ledger.UndoAllUndoesSpendAll | src/main.cpp:1662-1678 | the same for all inputs of a transaction, undone backwards |
| BlockRules.BlockOkIffNoError | src/main.cpp:2708-2735 | the first error of a block is none exactly when the rules on size, coinbase, transactions and signature operations hold |
| BlockRules.ScanInputsFacts | src/main.cpp:1407-1453 | accepted inputs sum up to their value, and spent coinbases are mature; both directions are in `BlockMeaning.CheckTxInputsExact` |
| BlockRules.OutputTotalIsValue | src/primitives/transaction.cpp:90-100 | accepted outputs are in range, as is each partial sum and the total |
| BlockMeaning.UpdateCoinsLooks | src/main.cpp:1358-1383 | after a transaction exactly its outputs that do not start with OP_RETURN are unspent under its id, as they are and with its metadata; those it spends are gone, all others stay |
| BlockMeaning.ConnectBlockLooks | src/main.cpp:1790-1960 | after an accepted block an output is unspent if and only if it was before or a transaction of the block made it, and none of them spends it; the fees are what the transactions leave |
| BlockMeaning.SameLooksSameView | src/coins.h:73-86 | views that agree on every output and its metadata are the same |
| BlockMeaning.TransactionExact | src/main.cpp:798-853 | a transaction has no error by itself if and only if it meets the listed rules |
| BlockMeaning.CheckTxInputsExact | src/main.cpp:1407-1453 | inputs are accepted if and only if all are there, coinbases are 100 blocks deep, and values, partial sums and fee are amounts; the fee is what is left |
| BlockMeaning.SubsidyExact | src/main.cpp:1195-1206 | fifty coins over two to the number of halvings, nothing from the 64th on |
| BlockMeaning.ConnectBlockExact | src/main.cpp:1790-1960 | a block is accepted if and only if it meets the rules by itself, overwrites nothing, all may spend what they name at their place, and the coinbase pays at most fees and subsidy |
| BlockErrors.ErrorMeans | src/main.cpp:1790-1960 | whatever error a block is refused with, it breaks the rule of that error |
| UndoProofs.RepeatedTransactionRefused | src/main.cpp:1834-1841 | an accepted block cannot hold a transaction twice, given collision-free ids |
| UndoProofs.AcceptedTxidsDistinct | src/main.cpp:1834-1841 | so all ids of an accepted block differ; this is derived, not required |
| UndoProofs.ConnectKeepsViewOk | src/main.cpp:1790-1960 | accepted blocks lead from sound views to sound views |
| UndoProofs.DisconnectUndoesConnect | src/main.cpp:1622-1688 | for every sound view and accepted block, disconnecting with the recorded undo data is clean and gives the same view |
| UndoExact.SpendUndoesApply | src/main.cpp:1596-1620 | where an undo entry applies cleanly, spending the output gives the view and the entry back |
| UndoExact.ConnectTxsRecords | src/main.cpp:1358-1383 | connecting records undo data of the kind that the next result needs |
| UndoExact.ReconnectBlock | src/main.cpp:1622-1688 | a disconnect is clean only where connecting leads back to the same view and undo data |
| Supply.NoAmountOverflows | src/main.cpp:1407-1453 | no unchecked sum of inputs or fees leaves 64 bits, for every transaction reached, accepted or not |
| Supply.FeesBounded | src/main.cpp:1866-1889 | fees never exceed the value unspent before the block |
| Supply.BlockAddsAtMostSubsidy | src/main.cpp:1909-1918 | an accepted block raises the unspent total by at most its subsidy |
| Supply.SubsidySumBounded | src/main.cpp:1195-1206 | at every height what was paid plus what can still be paid stays below two first eras |
| Supply.SubsidySumWithinTwoEras | src/main.cpp:1195-1206 | for every halving interval, no chain pays more than two full first eras |
| Supply.SubsidiesWithinMaxMoney | src/amount.h:28 | with the main network's interval that is the largest valid amount |
| ChainRuns.EveryRunIsSound | src/main.cpp:2129-2210 | over every run of connects and disconnects: no disconnect is unclean, the view is the one of the active blocks, and the supply stays within the subsidies |
| ChainRuns.HistoryDoesNotMatter | src/main.cpp:2305-2385 | two histories that end with the same blocks end with the same view |
| CoinsCache.PushOne | src/coins.cpp:148-186 | pushing one entry down, in any order, keeps what the child meant, and no entry hits the assert on FRESH |
| CoinsCache.EffectiveIsStored | src/coins.h:285-296 | entries over a base mean a map of clean, unspent records |
| CoinsCache.MallocUsageIs | src/memusage.h:37-48 | memory is counted in blocks of sixteen bytes with sixteen more |
| CoinsCache.CoinsViewDB.BatchWrite | src/txdb.cpp:60-78 | modified entries are written or erased, and the best block when there is one |
| CoinsCache.CoinsViewCache.FetchCoins | src/coins.cpp:72-88 | finds what the cache means; the meaning of this and of the layers below is unchanged, and the flags stay right |
| CoinsCache.CoinsViewCache.HaveCoins | src/coins.cpp:129-136 | asks for any output, which is the same as asking for an unspent one |
| CoinsCache.CoinsViewCache.GetBestBlock | src/coins.cpp:138-142 | answers the best block meant, and remembers it |
| CoinsCache.CoinsViewCache.ModifyCoins | src/coins.cpp:99-118 | opens a record as DIRTY, FRESH exactly as the base allows |
| CoinsCache.CoinsViewCache.EndModify | src/coins.cpp:254-266 | closing a record puts it into the meaning, drops a pruned FRESH entry, and keeps the usage count exact |
| CoinsCache.CoinsViewCache.BatchWrite | src/coins.cpp:148-186 | a child's entries take effect on the meaning, and the assert at line 159 holds |
| CoinsCache.CoinsViewCache.Flush | src/coins.cpp:188-193 | the base afterwards means what this cache meant, which is unchanged |
| CacheRuns.Step | src/coins.cpp:62-193 | one operation on a stack of caches answers and acts as on plain maps |
| CacheRuns.Run | src/coins.cpp:62-193 | every run on a stack of caches, from any database, answers as plain maps and a stack of best blocks do |
| CacheRuns.AnsweredIsBest | src/coins.cpp:138-142 | a question is answered with the best block of the stack and changes none at any layer |
| CacheRuns.FlushedBest | src/coins.cpp:148-193 | writing down keeps the best block if and only if the top knows one or the layer below has nothing to forget |
| CacheRuns.UnaskedFlushForgets | src/coins.cpp:184 | it does get lost when a layer is written down that never asked |
| ChainState.GetValueOut | src/primitives/transaction.cpp:90-100 | the loop computes the specified total or error |
| ChainState.CheckTransaction | src/main.cpp:798-853 | the first error of a transaction, in the order of the checks |
| ChainState.CheckBlock | src/main.cpp:2708-2735 | the first error of a block, in the order of the checks |
| ChainState.HasInputs | src/coins.cpp:218-230 | all inputs are unspent in the view |
| ChainState.GetValueIn | src/coins.cpp:206-216 | their value |
| ChainState.InputsError | src/main.cpp:1407-1453 | the first error of the inputs |
| ChainState.UpdateCoins | src/main.cpp:1358-1383 | on the cache, spends and adds as specified on the map and records the undo data |
| ChainState.OverwritesSome | src/main.cpp:1834-1841 | the BIP 30 test |
| ChainState.ConnectBlock | src/main.cpp:1790-1960 | on the cache, accepts exactly as specified on the map; on success new view, undo data and best block |
| ChainState.ApplyTxInUndo | src/main.cpp:1596-1620 | on the cache, clean exactly when specified, the output is back in any case, and no other record changes |
| ChainState.DisconnectBlock | src/main.cpp:1622-1688 | on the cache, clean exactly when specified, and then the specified view |
| ChainState.ConnectTip | src/main.cpp:2179-2210 | a rejected block leaves the tip's view as it was |
| ChainState.DisconnectTip | src/main.cpp:2129-2167 | an unclean disconnect leaves the tip's view as it was |
| CheckQueue.BatchSize | src/checkqueue.h:104-110 | a batch is never empty, never larger than the queue, and within the configured size |
| CheckQueue.BatchIsAShare | src/checkqueue.h:106-110 | as many checks as leave a share for every thread and one more, at least one and at most the limit |
| CheckQueue.TakesTheEnd | src/checkqueue.h:111-120 | a batch comes off the end of the queue, last check first |
| CheckQueue.Queue.Add | src/checkqueue.h:146-158 | checks are queued and counted |
| CheckQueue.Queue.Locked | src/checkqueue.h:77-119 | one stretch under the mutex is the specified step, and the master is notified exactly when the last check is done by another |
| CheckQueue.Queue.LockedAfterWait | src/checkqueue.h:91-119 | the stretch after waking up |
| CheckQueueProtocol.IdleMeans | src/checkqueue.h:164-168 | the idle test says exactly that nothing is queued, no thread has a batch, and no check failed in this round |
| CheckQueueProtocol.IdleBetweenRounds | src/checkqueue.h:185-189 | in every run the queue is idle whenever nothing was added since the master last returned, so the assert of the next control holds |
| CheckQueue.Execute | src/checkqueue.h:121-125 | a batch passes exactly when all of its checks do |
| CheckQueueProtocol.StepKeepsInv | src/checkqueue.h:69-127 | every enabled step of any thread keeps the invariant |
| CheckQueueProtocol.EveryRunIsRight | src/checkqueue.h:69-158 | for any number of workers and interleaving: counters exact, each check carried out once, the master never asleep with nothing left, and each verdict true exactly when all checks of its round pass |
| CheckQueueProtocol.SomeThreadCanGoOn | src/checkqueue.h:81-103 | while the master waits some thread can always go on: no wake-up is lost |
| CheckQueueProtocol.ProgressUsesEffort | src/checkqueue.h:69-127 | every step uses up a measure |
| CheckQueueProtocol.WaitIsBounded | src/checkqueue.h:140-143 | so the master returns after a bounded number of steps |
| AddrBook.SwapRandomKeeps | src/addrman.cpp:99-117 | swapping two places of the random order keeps all tables consistent |
| AddrBook.DeleteKeeps | src/addrman.cpp:119-131 | so does deleting an untried entry without references; exactly that entry goes |
| AddrBook.ClearNewKeeps | src/addrman.cpp:133-146 | clearing a slot never trips an assert and empties the slot |
| AddrBook.EvictKeeps | src/addrman.cpp:168-188 | moving an old entry out of the tried table keeps consistency |
| AddrBook.MakeTriedKeeps | src/addrman.cpp:148-194 | no assert of the move to the tried table fails, and the entry is tried afterwards |
| AddrBook.GoodKeeps | src/addrman.cpp:196-243 | marking an address good keeps all tables consistent and leaves its entry tried |
| AddrMeaning.GoodMeans | src/addrman.cpp:196-243 | exactly this service notes the success; an untried entry leaves the new table for its tried slot, and who was there goes home |
| AddrBook.AddKeeps | src/addrman.cpp:245-311 | no assert fails and the tables stay consistent, whatever hashes, clock and dice say; what is added is in the next rows |
| AddrMeaning.AddNew | src/addrman.cpp:284-310 | an unknown address gets its entry, time, source and one reference in its home slot when that is empty or gives way, and otherwise nothing changes |
| AddrMeaning.AddKnown | src/addrman.cpp:254-310 | a known one gets time and services, and one more slot under exactly the conditions of the code |
| AddrMeaning.AddUnroutable | src/addrman.cpp:247-248 | an address that cannot be routed changes nothing |
| AddrMeaning.TerribleIsStale | src/addrman.cpp:32-50 | which entries are not worth keeping, as one condition |
| AddrBook.AttemptKeeps | src/addrman.cpp:313-330 | recording an attempt or a connection keeps them consistent |
| AddrMeaning.AttemptMeans | src/addrman.cpp:313-329 | exactly this service notes the attempt |
| AddrMeaning.ConnectedMeans | src/addrman.cpp:470-488 | exactly this service moves its time, after twenty minutes |
| AddrBook.GetAddrKeeps | src/addrman.cpp:449-468 | a random selection is a list of distinct fine entries of the limited size, and only reorders |
| AddrMeaning.GetAddrMeans | src/addrman.cpp:449-468 | as many different fine entries as there are, up to 23 percent of all and 2500 |
| AddrBook.EveryRunIsConsistent | src/addrman.cpp:372-446 | every run from an empty manager keeps the structural part of the self-check, and no assert fails |
| AddrBook.RandomListsBothClasses | src/addrman.cpp:372-380 | the random order lists exactly the entries of both classes |
| AddrMeaning.SelfCheckFindsNothing | src/addrman.cpp:372-446 | in a consistent manager the self-check finds nothing of what concerns ids, slots, references and counters |
| AddrMan.CAddrMan.SearchBuckets | src/addrman.cpp:221-232 | the search from a random bucket finds the entry exactly when some bucket holds it |
| AddrMan.CAddrMan.MakeTriedEntry | src/addrman.cpp:148-194 | on the arrays, the specified move |
| AddrMan.CAddrMan.MarkAsGood | src/addrman.cpp:196-243 | on the arrays, the specified operation, without tripping an assert |
| AddrMan.CAddrMan.AddAddress | src/addrman.cpp:245-311 | the same for adding |
| AddrMan.CAddrMan.MarkAttempt | src/addrman.cpp:313-330 | the same for an attempt |
| AddrMan.CAddrMan.MarkConnected | src/addrman.cpp:470-488 | the same for a connection |
| AddrMan.CAddrMan.GetAddresses | src/addrman.cpp:449-468 | the same for the random selection |
| AddrMan.CAddrMan.Serialize | src/addrman.h:278-324 | what is written is the specified file, and neither assert on the counters fails |
| AddrMan.CAddrMan.Unserialize | src/addrman.h:326-423 | loading any file into a new manager is the specified load, and pruning trips no assert; without repeated addresses the manager is consistent afterwards |
| AddrStore.LoadUndoesSave | src/addrman.h:278-423 | saving and loading any consistent manager gives the same entries, slots, counts and counters up to a renaming of ids; only last tries and the random order are gone, and nothing is lost or pruned |
| AddrStore.MovedInv | src/addrman.h:422 | the renamed manager passes the structural self-check |
| AddrStore.LoadNeverFails | src/addrman.h:407-417 | whatever the file holds, negative counts included, pruning after loading trips no assert |
| AddrLoad.LoadGivesConsistent | src/addrman.h:350-423 | a file without repeated addresses loads and prunes into a manager that passes the structural self-check, whatever its buckets list |
| AddrLoad.OtherBucketCountLoads | src/addrman.h:386-405 | so does a manager saved by a program with another number of buckets |
| AddrLoad.OtherBucketCountTable | src/addrman.h:349-365 | every taken slot is then the home of an entry by its own source, and holds the first of the file with that home |
| PartialMerkle.WidthShrinks | src/merkleblock.h:66-68 | levels get narrower, so the search for the height ends |
| PartialMerkle.NodesDiffer | src/merkleblock.cpp:63-78 | different nodes of a level have different hashes |
| PartialMerkle.Soundness | src/merkleblock.cpp:98-181 | whatever the bits and hashes are, an accepted proof with the true root yields a subsequence of the real list |
| PartialMerkleRoundTrip.BuildSize | src/merkleblock.h:40-52 | the number of hashes is at most the number of transactions and at most 1 + matches * height |
| PartialMerkleRoundTrip.FlagCount | src/merkleblock.h:47-48 | the flags are twice the hashes less one, and one more for each node with one child that is descended into |
| PartialMerkleRoundTrip.OneChildPerLevel | src/merkleblock.h:47-48 | there is at most one such node on each level |
| PartialMerkleRoundTrip.ThreeTransactionsNeedFourFlags | src/merkleblock.h:47-48 | an input that exceeds the bound in the comment |
| PartialMerkleSize.SizePromise | src/merkleblock.h:32-50 | for every block and choice of transactions, the promised size holds if and only if there are at most 2016 flags or few enough nodes with one child |
| PartialMerkleSize.AllMatchedOneChild | src/merkleblock.cpp:80-97 | with all transactions matched, there is one such node for each level below the root with an odd number of nodes |
| PartialMerkleSize.AllOf1028BreakThePromise | src/merkleblock.h:34 | 1028 matched transactions take one byte more than promised |
| PartialMerkleRefusal.OnlyPaddingIsFree | src/merkleblock.cpp:168-180 | an accepted tree with more flags or hashes is accepted if and only if these are padding in the last byte |
| PartialMerkleRefusal.BoundsAreRefused | src/merkleblock.cpp:152-163 | numbers that cannot be right are refused before anything is read |
| MerkleTree.BuildMerkleTree | src/primitives/block.cpp:18-79 | the loops give the root and tell whether some level ends twice |
| MerkleTree.SameRoot | src/primitives/block.cpp:60-78 | partial trees prove against the root of the block |
| MerkleTree.MutationIsFound | src/primitives/block.cpp:45-54 | of two different lists with as many levels and one root, one is found to be mutated |
| MerkleTree.RepeatedEndHasSameRoot | src/primitives/block.cpp:20-44 | repeating the last two of six transactions gives the same root, and is found |
| PartialMerkleRoundTrip.ExtractBuilt | src/merkleblock.cpp:80-132 | the verifier follows the prover node by node and uses up exactly what was built for each |
| PartialMerkleRoundTrip.Pack | src/merkleblock.h:91-97 | bits are packed into bytes, padded with zeros |
| PartialMerkleRoundTrip.MaskIsShift | src/merkleblock.h:96 | the least significant bit comes first |
| PartialMerkleRoundTrip.RoundTrip | src/merkleblock.cpp:134-181 | through the bytes, exactly the matched ids in order and the true root, unless two sibling hashes clash |
| PartialMerkleRoundTrip.DistinctRoundTrip | src/merkleblock.cpp:134-181 | for distinct ids it always succeeds, within both bounds on the hashes |
| PartialMerkleTree.CPartialMerkleTree.TraverseAndBuild | src/merkleblock.cpp:80-96 | the traversal appends the specified bits and hashes |
| PartialMerkleTree.CPartialMerkleTree.TraverseAndExtract | src/merkleblock.cpp:98-132 | the traversal reads and flags errors as specified |
| PartialMerkleTree.CPartialMerkleTree.Matches | src/merkleblock.cpp:150-181 | root or zero, and the matched ids |
| PartialMerkleTree.Relay | src/test/pmt_tests.cpp:34-109 | building, packing, unpacking and extracting in a row gives root and matches |
| LimbShifts.ShlValue | src/arith_uint256.cpp:22-36 | limbs shifted left denote the product with a power of two, modulo 2^256 |
| LimbShifts.ShrValue | src/arith_uint256.cpp:39-53 | limbs shifted right denote the quotient |
| ArithUint256.BaseUint.AddAssign | src/arith_uint256.h:135-145 | sum modulo 2^256, also with itself |
| ArithUint256.BaseUint.Negate | src/arith_uint256.h:77-84 | two's complement |
| ArithUint256.BaseUint.SubAssign | src/arith_uint256.h:147-151 | difference modulo 2^256 |
| ArithUint256.BaseUint.Increment | src/arith_uint256.h:173-180 | plus one modulo 2^256, by the carrying loop |
| ArithUint256.BaseUint.Decrement | src/arith_uint256.h:190-197 | minus one modulo 2^256 |
| ArithUint256.BaseUint.ShiftLeft | src/arith_uint256.cpp:22-36 | times a power of two modulo 2^256, for every shift |
| ArithUint256.BaseUint.ShiftRight | src/arith_uint256.cpp:39-53 | floor division by a power of two, for every shift |
| ArithUint256.BaseUint.MulAssign32 | src/arith_uint256.cpp:56-65 | product modulo 2^256; no 64-bit sum overflows |
| ArithUint256.BaseUint.MulAssign | src/arith_uint256.cpp:68-81 | product modulo 2^256 with another number, zero with itself; no 64-bit sum overflows |
| ArithUint256.BaseUint.DivAssign | src/arith_uint256.cpp:84-107 | floor quotient by shift and subtract; fails exactly for a zero divisor |
| ArithUint256.BaseUint.CompareTo | src/arith_uint256.cpp:110-119 | the order of the numbers |
| ArithUint256.BaseUint.EqualTo64 | src/arith_uint256.cpp:122-133 | equality with a 64-bit number |
| ArithUint256.BaseUint.Bits | src/arith_uint256.cpp:172-184 | the bit length |
| ArithUint256.BaseUint.GetLow64 | src/arith_uint256.h:245-249 | the number modulo 2^64 |
| Compact.SetCompact | src/arith_uint256.cpp:204-222 | the denoted number modulo 2^256 with both flags |
| Compact.OverflowIsExact | src/arith_uint256.cpp:217-220 | the overflow flag is set exactly when the denoted number is at least 2^256 |
| Compact.GetCompact | src/arith_uint256.cpp:224-245 | the word with the shortest size that leaves the sign bit free; both asserts hold |
| Compact.DecodeEncode | src/arith_uint256.cpp:204-245 | decoding an encoded number gives at most the number, less by under one part in 2^15, and encodes to the same word |
| Compact.DecodedExamples | src/test/arith_uint256_tests.cpp:423-527 | words of every small size, with their signs |
| Compact.MantissaBounds | src/arith_uint256.cpp:236-241 | mantissas keep sixteen bits and leave the sign bit free |
| ProofOfWork.CalculateNextWorkRequired | src/pow.cpp:53-82 | on the objects, the specified word; what it means is in the next rows |
| ProofOfWork.TimespanLimits | src/pow.cpp:55-61 | the timespan is the measured one within a quarter and four times of what is wanted, and never falls when it rises |
| ProofOfWork.FasterIsNotEasier | src/pow.cpp:53-73 | for any times, blocks that came faster never get a greater target, while the product fits |
| ProofOfWork.TargetMoves | src/pow.cpp:53-73 | for any times the target stays within a factor of four; it stays as it is on time, and falls to a quarter after a quarter of the time or less |
| ProofOfWork.WordForTimes | src/pow.cpp:53-82 | the word for any times is in range and rounded down by less than one part in 2^15 |
| ProofOfWork.RetargetBounds | src/pow.cpp:53-82 | when the product fits: at most four times the old target and the limit, at least a quarter before rounding, and the word is a valid one |
| ProofOfWork.ExactWhenProductFits | src/pow.cpp:69-70 | multiplying and dividing is exact if and only if the product fits 256 bits |
| ProofOfWork.NextTargetExact | src/pow.cpp:69-73 | with the limit: exact if and only if the product fits or its remainder still reaches the limit |
| ProofOfWork.RegtestTargetCanBeZero | src/chainparams.cpp:204 | with this limit a valid word gives the target zero |
| ProofOfWork.RegtestStartIsInexact | src/chainparams.cpp:211 | from the first word of the regression-test network, a timespan of exactly two weeks gives less than a 600000th of the right target |
| ProofOfWork.MainLimitFits | src/chainparams.cpp:38-39 | with this limit and timespan the product always fits |
| ProofOfWork.GetBlockProof | src/pow.cpp:103-117 | floor of 2^256 / (target + 1), without a number above 2^256 and without dividing by zero |
| ProofOfWork.TargetHasSuccessor | src/pow.cpp:113-116 | the target plus one never wraps |
| ProofOfWork.WorkIsPositive | src/pow.cpp:103-117 | every usable target stands for some work |
| ProofOfWork.WorkMeets | src/pow.cpp:103-117 | work times target plus one is the largest such product up to 2^256 |
| ProofOfWork.LowerTargetMoreWork | src/pow.cpp:103-117 | a lower target stands for no less work |
| ProofOfWork.CheckProofOfWork | src/pow.cpp:84-101 | accepts exactly hashes at or below a positive target within the limit that does not overflow |
| BlockIndex.InvertsLowestOne | src/chain.cpp:62 | the bit trick takes the lowest one bit away |
| BlockIndex.SkipsDown | src/chain.cpp:65-73 | skip heights are lower than the height |
| BlockIndex.SkipHeightIs | src/chain.cpp:65-73 | even heights skip by their lowest one bit, odd ones over the two lowest of the even height below |
| BlockIndex.GetAncestor | src/chain.cpp:75-98 | the entry reached by following parents, without overshooting |
| BlockIndex.SkipIsAncestor | src/chain.cpp:105-109 | skip pointers lead to ancestors in every tree grown by the constructor |
| ActiveChain.CChain.SetTip | src/chain.cpp:13-23 | the vector holds all ancestors of the tip by height, despite the early stop |
| ActiveChain.CChain.FindFork | src/chain.cpp:53-59 | the highest entry shared with the chain |
| ActiveChain.SharedUpToFork | src/chain.cpp:53-59 | exactly the heights up to the fork are shared |
| ActiveChain.CChain.GetLocator | src/chain.cpp:25-51 | the hashes of the ancestors at the listed heights |
| ActiveChain.LocatorGoesDown | src/chain.cpp:25-51 | heights go strictly down and end at zero |
| ActiveChain.LocatorHeightAt | src/chain.cpp:25-51 | the first eleven heights go down one by one, the others by powers of two |
| ActiveChain.LocatorIsShort | src/chain.cpp:25-51 | at most 12 + log2(height) entries |
| ActiveChain.FindForkInGlobalIndex | src/main.cpp:503-516 | the first listed block that is known and in the chain, or the first block |
| ActiveChain.LocatorNamesAncestors | src/chain.cpp:25-51 | a node that knows its own chain, but not the branch of the peer, finds under each listed hash nothing or the ancestor of that height |
| ActiveChain.LocatorFindsFork | src/main.cpp:503-516 | whatever the node knows of the branch, the block found is a shared ancestor at or below the true fork, and at most twice as far down |
| ActiveChain.LocatorWithoutFork | src/main.cpp:503-516 | without a common block it is the first block of the chain |
| BlockLinking.LinkFrontKeeps | src/main.cpp:2553-2571 | in a store that deleted nothing, one round of the queue keeps the invariant of linked, queued and waiting entries |
| BlockLinking.LinkingMeans | src/main.cpp:2536-2580 | counts are the transactions of the block and all ancestors exactly when all were received, ids grow from parent to child, and exactly the blocks with an unlinked parent wait |
| BlockLinking.ForgottenOtherwise | src/main.cpp:2572-2575 | without a link, a block under an unlinked parent would be forgotten |
| BlockArrival.ReceivedInOrder | src/main.cpp:2536-2580 | a store that deleted nothing stays exactly linked unless the block is forgotten, linked entries stay as they are, and exactly the newly linked ones that compete with the tip become candidates |
| BlockArrival.LinkedByLevel | src/main.cpp:2549-2571 | whatever one block links, with or without deleted data, gets its sequence ids level by level |
| BlockPruning.LinkFrontCounted | src/main.cpp:2553-2571 | also with deleted data, one round of the queue keeps counts and links right |
| BlockPruning.HeaderKeeps | src/main.cpp:2501-2533 | so does a new header, and nothing is lost |
| BlockPruning.ReceivedKeeps | src/main.cpp:2536-2580 | a block that arrives, perhaps again, keeps counts and candidates right; when it did not fail, nothing is lost exactly when its parent is linked, did not fail, or can never be linked |
| BlockPruning.PruneKeeps | src/main.cpp:2995-3017 | deleting the data of a block keeps counts right, and nothing is lost exactly when the block is linked or can never be linked |
| BlockPruning.TakenOutKeeps | src/main.cpp:2266-2289 | removing a chain that failed or misses data loses nothing: what could be used comes back with the missing block |
| BlockPruning.CompetesMeans | src/main.cpp:94-113 | what is as good as the tip: more work, or as much and earlier |
| BlockCheck.LinkedIsAllProcessed | src/main.cpp:3603 | a count is set exactly when the block and all its ancestors were received at some time |
| BlockCheck.ReceivedSettles | src/main.cpp:2556-2562 | after a block has arrived every candidate is linked, no worse than the tip, and waits for nothing; a candidate that had lost its data must have more work than the tip |
| BlockCheck.TipIsCandidate | src/main.cpp:3621-3627 | a better tip whose blocks are all there down to the active chain waits for nothing, so it is a candidate |
| BlockCheck.NewTipKeeps | src/main.cpp:2296-2307 | when it becomes the tip, what could beat it stays in sight, and exactly the candidates that are no worse are left |
| BlockCheck.MarksMean | src/main.cpp:3614-3617 | an entry has a marked ancestor exactly when it has one that failed itself |
| BlockRuns.EventKeeps | src/main.cpp:2242-2580 | every safe step keeps the invariant |
| BlockRuns.InvPasses | src/main.cpp:3531-3664 | the invariant makes every modelled assert of the check hold, for each entry |
| BlockRuns.EveryRunPassesCheck | src/main.cpp:3531-3664 | over every run of safe steps (headers, blocks in any order, failing blocks, deleted data, removed chains, a tip that moves) the invariant holds and the check passes |
| BlockRuns.RunsFromNothingPassCheck | src/main.cpp:3531-3664 | in particular from an empty store on, where the first block becomes the tip |
| BlockRuns.FirstBlockBecomesTip | src/main.cpp:2312-2365 | such runs get a tip |
| BlockRuns.GrowingRunsAreOrdered | src/main.cpp:2536-2580 | over every run of headers and blocks in any order from an empty store, counts, ids and waiting links say exactly which blocks have all their ancestors |
| BlockGuards.LostIsFound | src/main.cpp:3603 | whenever a received block is unlinked without a link to it, some run of arriving ancestors makes the check fail |
| BlockGuards.FallsBehind | src/main.cpp:3630 | a candidate without more work than the tip that is received again makes the check fail at once |
| BlockGuards.SafeIsExact | src/main.cpp:3531-3664 | for every step the code can take: the check passes however the run goes on, if and only if the step is safe |
| BlockStore.CBlockStore.AddToBlockIndex | src/main.cpp:2501-2533 | a new header gets its parent, height, skip pointer and work; no entry has more work than the best header, before and after; the tables gain just this entry |
| BlockStore.MostWorkWith | src/main.cpp:2527-2528 | one more entry takes the place of the best one if and only if it has more work |
| BlockStore.CBlockStore.ReceivedBlockTransactions | src/main.cpp:2536-2580 | on the objects, tables and candidates become the specified ones, also for a block that was deleted before; when the block did not fail, nothing is lost exactly when its parent is linked, did not fail, or can never be linked |
| BlockStore.CBlockStore.LinkQueue | src/main.cpp:2549-2571 | the loop empties the queue as specified |
| BlockStore.CBlockStore.PruneEntry | src/main.cpp:2995-3017 | on the objects, the specified deletion |
| BlockStore.CBlockStore.PruneBlockIndexCandidates | src/main.cpp:2296-2307 | removing from the least candidate on leaves exactly those no worse than the tip, and its assert holds |
| BlockStore.CBlockStore.Greatest | src/main.cpp:94-113 | the last candidate in the order by work, arrival and address |
| BlockStore.CBlockStore.FirstBad | src/main.cpp:2259-2270 | the walk down to the active chain finds a failed or missing block exactly when the candidate cannot be used, everything above it is there, and its assert holds |
| BlockStore.CBlockStore.FindMostWorkChain | src/main.cpp:2242-2294 | with or without missing data, ends with the greatest usable candidate, or none when there is none; whatever it removes or marks cannot be used, the store stays in order, and nothing is lost |
| BlockStore.CBlockStore.RemoveChain | src/main.cpp:2272-2287 | exactly the entries above a bad one leave the candidates, with it; they are marked when it failed, or else linked to their parents |
| BlockStore.CBlockStore.RemoveBad | src/main.cpp:2266-2289 | what leaves or is marked could not be used; a candidate whose chain failed is noted, and none that was noted has more work than the best invalid entry |
| BlockSearch.MoreBad | src/main.cpp:2274-2286 | marking children of failed blocks does not change what can be used |
| BlockSearch.BestHasMostWork | src/main.cpp:94-113 | the best candidate has the most work of those that can be used, of the same work it came first |
| Amounts.CompressAmount | src/compressor.cpp:142-159 | the compressed form, modulo 2^64 |
| Amounts.DecompressAmount | src/compressor.cpp:161-185 | the amount, modulo 2^64 |
| Amounts.DecompressCompress | src/compressor.cpp:142-185 | every amount is found again |
| Amounts.CompressDecompress | src/compressor.cpp:142-185 | every word is the compressed form of exactly one amount |
| Amounts.AmountFits | src/compressor.cpp:142-185 | below 2^64 / 10, and so for all money, nothing wraps |
| StoredForms.CompressedForm | src/compressor.cpp:133-159 | the compressed form of every amount, by its decimal zeros and digits |
| StoredForms.CompressedExamples | src/test/compress_tests.cpp:42-47 | the listed amounts |
| VarInt.WriteVarInt | src/serialize.h:344-358 | the specified bytes |
| VarInt.GetSizeOfVarInt | src/serialize.h:331-341 | their number |
| VarInt.ReadVarInt | src/serialize.h:361-372 | reads to the first byte without continuation bit |
| VarInt.ReadWritten | src/serialize.h:344-372 | reading gives the number back; of a negative one only seven bits are left |
| VarIntForms.WrittenMeans | src/serialize.h:306-316 | the bytes of a number stand for it by the documented sum |
| VarIntForms.EveryFormIsWritten | src/serialize.h:316-321 | every string of bytes that ends a number is the form of exactly that one |
| VarIntForms.SizeOfWritten | src/serialize.h:316-317 | the documented numbers of one, two and three bytes |
| ScriptCodec.DecompressCompress | src/compressor.cpp:48-128 | a compressed script has its size and decompresses to itself |
| StoredForms.SpecialForms | src/compressor.cpp:48-98 | the bytes of each special form |
| StoredForms.ScriptSizes | src/compressor.h:17-27 | the documented sizes of special and other scripts |
| ScriptCodec.ReadWriteScript | src/compressor.h:67-93 | every script is read back |
| ScriptCodec.ReadWriteOut | src/compressor.h:110-121 | every output with an amount in range is read back |
| CoinRecord.CalcMaskSize | src/coins.cpp:17-33 | bytes up to the last non-zero one, and how many are not zero |
| CoinRecord.UnspentIsWritable | src/coins.h:183 | the assert before writing holds for every record that is not fully spent |
| CoinRecord.ReadMaskBack | src/coins.h:217-227 | the mask loop stops exactly at the last non-zero byte |
| CoinRecord.UnserializeSerialize | src/coins.h:178-238 | what a record looks like after it was stored |
| CoinRecord.StoredRecordComesBack | src/coins.h:178-238 | it is the record cleaned up exactly when version and height are not negative |
| StoredForms.FirstExample | src/coins.h:38-50 | the first documented record, for every address |
| StoredForms.SecondExample | src/coins.h:53-72 | the second one, a coinbase with a mask |
| CoinStream.Serialize | src/coins.h:178-204 | the loops write the specified bytes |
| CoinStream.GetSerializeSize | src/coins.h:154-175 | the size worked out is the size written |
| CoinStream.Unserialize | src/coins.h:207-238 | the loops read as specified, and fail at the end of the stream |
| UndoRecord.StoredUndoComesBack | src/undo.h:36-53 | undo data comes back exactly when its version is not negative and is zero without a height |
| StoredForms.UndoExamples | src/undo.h:36-42 | undo data with and without a height |
| Radix.DigitsAreStripped | src/base58.cpp:54-63 | the shortest digits of a number are any digits of it without leading zeros |
| Base58.BytesFitDigits | src/base58.cpp:76 | n * 138 / 100 + 1 digits always suffice |
| Base58.DigitsFitBytes | src/base58.cpp:33 | n * 733 / 1000 + 1 bytes always suffice |
| Base58.MultiplyAdd | src/base58.cpp:41-46 | the inner loop multiplies and adds in place |
| Base58.Fill | src/base58.cpp:78-88 | the buffer ends up holding the number, and the carry is always zero |
| Base58.EncodeBase58 | src/base58.cpp:67-100 | the digits of the bytes, with one zero digit for each leading zero byte |
| Base58.DecodeBase58 | src/base58.cpp:21-65 | the bytes of the digits |
| Base58.DecodeEncode | src/base58.cpp:21-100 | decoding undoes encoding, leading zeros included |
| Base58.EncodeDecode | src/base58.cpp:21-100 | encoding undoes decoding |

## Left out

- ApplyTxInUndo: when the undo data does not fit, only the restored output and the other records are stated, not the metadata of the damaged record.
- DisconnectBlock: after an unclean disconnect the view is unspecified; `DisconnectTip` shows that it never reaches the tip.
- UpdateCoins: an opened record is handed back as a value when it is closed, instead of being changed through a pointer.
- DynamicUsage: the capacity of a vector is taken to be its size.
- CheckBlock: the checks of the header and of the Merkle root before line 2708 are not part of it; the root itself is in `MerkleTree`.
- MutationIsFound: lists with different numbers of levels are not compared; that takes an id that is also the hash of two others.
- ConnectBlock: the limit on signature operations with those of spent scripts, genesis, the two historical exceptions to BIP 30 and writing undo files are not modelled; script checks are one Boolean per block, asked for after the loop.
- EveryRunIsRight: a worker never quits; in the code `fquit` is never set.  Wake-ups without notification are allowed.
- EveryRunIsConsistent: marking good takes a positive time, as every caller gives.
- SelfCheckFindsNothing: the tests on negative times (results -6 and -8) and on a null key (-16) are not stated; times are those that callers give.
- ReconnectBlock: versions and undo data are of the kind that connecting leaves (`ConnectTxsRecords`).
- Serialize: version 1 of the format; keys, version bytes and the stream itself are not modelled, and an address is a number.
- Unserialize: only into a new manager, because clearing does not empty the two maps.  Files of other versions are not modelled; another bucket count is.
- Soundness: hashes are numbers and the pair hash is any injective function.
- GetCompact: conversion to floating point and to hexadecimal is not modelled.
- CalculateNextWorkRequired: the target timespan is positive and four of them fit 64 bits, as the source divides by it and multiplies it without a check; debug output is not modelled.
- RemoveBad: entries are noted as invalid only by the search; `invalidblockfound` and `invalidchainfound` outside of it are not modelled.
- AddToBlockIndex: chain work is a number without width, and marks of validity levels other than failure are not modelled.
- ReceivedBlockTransactions: a block that arrives again has as many transactions as before, being the same block; file positions and 32-bit counters are not modelled, and transaction counts do not wrap.  Candidates are a set that is asked for its greatest element; the tree that orders them by an id that may change is not modelled.
- InvPasses: the asserts on the hash of the first block, undo data, validity levels and work are not stated; heights and skip pointers are those of `Tree`, in which every entry of the runs is.
- EveryRunPassesCheck: marks are not taken back and the tip does not get worse, so `invalidateblock`, `reconsiderblock` and a tip that is left behind by a better chain that failed are not modelled.  Before the first block is the tip, no other header is taken.
- PruneEntry: one entry of a file that is deleted; which files are deleted is not modelled.
- GetLocator: the doubling step is a number without width.
- DecodeBase58: digits instead of characters, because the character table in the source repeats letters; blanks around the string are not modelled.
- ReadWriteScript: curve arithmetic is a parameter with the one law that valid keys are found again from their compressed form.
- ReadVarInt: overlong input is read as an unbounded number.
- Choosing a target height by `getnextworkrequired`, the loops of `activatebestchainstep` and the selection of a random address by `select_` are not modelled.
- Sockets, files, LevelDB, RPC, the memory pool, script evaluation and signatures are not modelled.
