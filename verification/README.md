# Horizen node: verified models

Dafny models of the hard parts of the Horizen (zend) node, and proofs about them. To verify:
`dafny verify dfyconfig.toml`.

What is modelled, in the order of the table below:

- **Coins and sidechains** (`Coins`, `Sidechain`, `Ledger*`, `ScHistory`, `UtxoSet`, `BwtValue`, `CeasingRun`): a state
  machine over plain maps that connects and disconnects blocks with transactions, sidechain creations, forward
  transfers and certificates. Its theorems speak of every run of connections and disconnections: the state is that of
  the active chain, funds are conserved, and records and unspent outputs tell exactly what happened on it.
- **Caches** (`CacheLayer`, `CoinsViews`, `ViewUpdates`, `BlockProcessing`): the linked caches over a database, with
  their dirty, fresh and erased flags, as classes whose methods refine the plain ledger, up to a whole node.
- **Peer addresses** (`AddrTables`, `AddrMan`, `AddrEffects`, `AddrPeers`, `AddrLoaded`): the tables of new and tried
  addresses, the consistency that `Check_` describes kept by every operation, and the peers file.
- **Script check queue** (`CheckQueue`, `CheckProgress`): threads as a state machine; safety and progress of every run.
- **Merkle trees** (`MerkleTree`, `MerkleRoot`, `MerkleMutation`, `MerkleBlock`, `MerkleSize`), **256-bit numbers**
  (`Powers`, `Limbs`, `LimbOps`, `LimbShifts`, `LimbDivide`, `Compact`) and **base 58** (`Digits`, `Base58`).
- **The block index** (`ChainIndex`, `SkipCost`, `ActiveChain`, `Locators`): skip pointers, the active chain, forks and
  locators.
- **Messages from peers** (`Framing`, `NetNode`) and the **storage of coins** (`Bytes`, `VarInt`, `Amounts`, `Scripts`,
  `Masks`, `CoinsCode`, `CoinsStore`, `StoredExamples`).
- **Block assembly** (`Mempool`, `Waiting`, `Ranking`, `Collecting`, `BlockOrder`, `BlockValue`, `BlockAssembly`).

Conventions. A failed assert, an exception and a `false` result are all `Err` or `ok == false`. Clocks, random draws,
hash functions, signature and proof checks are parameters; where a property needs it, hashes of distinct things are
required to be distinct. Clock values are not negative. Heights, identifiers and amounts are unbounded integers unless
a row speaks of a width; the 32- and 64-bit arithmetic of limbs, amounts, framing and variable-length integers is
written out. Hash maps are iterated in an arbitrary order, ordered maps and sets in ascending order.

## Model

| member | source | states |
|---|---|---|
| Coins.CleanupLoop | src/coins.cpp:68-74 | the popping loop leaves the longest prefix that does not end in a spent output |
| Coins.TrimUnique | src/coins.cpp:68-74 | there is exactly one prefix that ends in an unspent output (or is empty) and after which everything is spent |
| Coins.UndoSpend | src/main.cpp:1917-1943 | undoing a spend restores outputs and metadata, also when the spend dropped trailing slots, if and only if outputs were left or the coins are not recorded at height zero; otherwise it is refused |
| Coins.UndoSpendAtHeightZero | src/main.cpp:1917-1943 | the failing input: a single output recorded at height zero is not brought back |
| Coins.VoidBackwardTransfers | src/coins.cpp:1386-1400 | the voiding loop spends exactly the backward transfers, drops the slots that become empty, and leaves one undo record per transfer, the last with the metadata when nothing remains |
| Coins.RestoreVoidedOuts | src/coins.cpp:1479-1499 | the restoring loop, highest record first, is the fold over the records, failing at the first refused one |
| Coins.RestoreUndoesVoid | src/coins.cpp:1479-1499 | restoring after voiding gives back every output and the metadata, also when voiding left nothing, if and only if outputs remained or the certificate is not recorded at height zero |
| Sidechain.EpochBounds | src/sc/sidechain.cpp:18-32 | a height lies between the start of its epoch and the start of the next one |
| Sidechain.CeasedFromCeasingHeight | src/coins.cpp:1520-1544 | a sidechain is reported ceased exactly from its ceasing height on, alive before it |
| Sidechain.AnnouncedHeightIsAlive | src/sc/sidechain.cpp:40-45 | the ceasing height that is announced is the last one at which the sidechain is alive: it is ceased exactly above it |
| LedgerSteps.CertFindsCeasingRecord | src/coins.cpp:1161-1205 | a certificate that is applicable always finds its sidechain scheduled to cease, so the failure to find the previous ceasing height cannot occur |
| LedgerSteps.CeasingVoidable | src/coins.cpp:1328-1409 | under the invariant none of the asserts that voiding makes about ceasing sidechains can fire |
| LedgerUndo.RestoreUndoesSpend | src/main.cpp:1945-2008 | spending all inputs of a transaction and restoring them last to first gives back the coin map |
| LedgerUndo.CancelUndoesSchedule | src/coins.cpp:1093-1326 | cancelling the events of a transaction restores the events before it, up to maturing entries it shares with transactions that are already undone |
| LedgerUndo.DisconnectTxUndoes | src/main.cpp:2395-2452 | undoing a transaction restores coins and sidechains exactly, and the events up to the shared maturing entries |
| LedgerUndo.RevertUndoesHandle | src/coins.cpp:1411-1518 | reverting the events of a height after handling them restores balances, immature amounts, the event record and every voided certificate |
| LedgerRun.ConnectBlockKeeps | src/main.cpp:2570-2929 | a block whose transactions and certificates are accepted has its events handled without a failed assert, and keeps the invariant of the ledger |
| LedgerRun.DisconnectUndoesConnect | src/main.cpp:2286-2467 | disconnecting a block with the undo data of connecting it restores the whole state: coins, sidechains and events |
| LedgerTheorems.ReorganisationsLeaveNoTrace | src/main.cpp:3076-3230 | after every run of connected and disconnected blocks the state is that of connecting the active chain from scratch, satisfies the invariant, and no disconnection failed |
| LedgerTheorems.FundsConserved | src/coins.cpp:697-755 | over every run the balance and immature amounts of a sidechain are what the active chain paid in less what its certificates paid out, and no balance is negative |
| LedgerTheorems.CeasingSetIsExact | src/coins.cpp:1520-1544 | over every run a sidechain is ceased at the tip exactly when its ceasing height is reached, and is in the ceasing set of that height, and of no other, exactly until then |
| LedgerTheorems.CeasedStaysCeased | src/coins.cpp:841-907 | no block changes the last epoch of a ceased sidechain, and it is ceased after the block too |
| LedgerTheorems.CeasedReceivesNothing | src/coins.cpp:964-1009 | no transaction of an accepted block creates or pays into a sidechain that is ceased at its height, no certificate pays out of it, and its funds stay as they are |
| LedgerTheorems.CeasedForever | src/coins.cpp:841-907 | a sidechain ceased at some height of the active chain is ceased at every later height, with the same last epoch, and its funds never change again |
| LedgerTheorems.BwtMatureOneBlockBeforeCeasing | src/main.cpp:1983-2020 | the backward transfers of an accepted certificate mature exactly one block before the height at which its sidechain would cease |
| ScHistory.RecordTellsHistory | src/coins.cpp:697-907 | over every run: a sidechain exists exactly when the active chain creates it, with the parameters, height and hashes of that creation; its certificates on the chain are one per epoch from zero, each connected within the safeguard after its epoch and with its checks passed, the last one on record; what a block sent to it is pending for the maturity period and then in its balance, less the withdrawals |
| ScHistory.BlockPending | src/coins.cpp:697-755 | one block: what it sends to a sidechain is pending at the height one maturity period later, and nothing is pending at its own height any more |
| BwtValue.WithdrawnIsVoidable | src/primitives/certificate.cpp:248-255 | a certificate takes from the balance exactly the value of the coins that voiding it would remove, and of the backward transfers it burns |
| BwtValue.ChangeStays | src/primitives/certificate.cpp:248-263 | only the outputs from the first backward transfer on are withdrawn; change is not |
| UtxoSet.InputsShow | src/main.cpp:1944-1981 | inputs can be spent exactly when they are distinct and unspent; just they are gone afterwards |
| UtxoSet.BlockShown | src/main.cpp:2570-2800 | the unspent outputs after a block are exactly those that were there or that it makes, less those it spends and the backward transfers that a ceasing sidechain voids; it spends each once, and only what was there or is made by it and is old enough |
| UtxoSet.CoinsTellHistory | src/main.cpp:2086-2106 | over every run an output is unspent exactly when a block of the active chain made it and none since has spent or voided it; whatever a block spends was made on the chain, lived until then, and had waited a hundred blocks if a coinbase made it, or until its maturity if it is a backward transfer |
| CeasingRun.SpendableWhileAlive | src/coins.cpp:120-133 | while a certificate is its sidechain's last, a backward transfer of it may be spent from the living sidechain if and only if the height is one below the ceasing height |
| CeasingRun.SpentThenVoided | src/main.cpp:2086-2106 | a chain of 113 blocks, each valid, whose block 112 spends one backward transfer of a living sidechain and whose block 113 voids the other |
| CacheLayer.WriteRefines | src/coins.cpp:582-641 | writing a child's flagged entries into its base makes the base show, at every key, what the child showed, and keeps the base's own entries in order |
| CacheLayer.WriteLayerRefines | src/coins.cpp:494-641 | the same for coins, sidechains and events together |
| CacheLayer.MayWriteIffNew | src/coins.cpp:582-641 | the asserts of the batch write hold exactly when no fresh entry of the child is shown by the base |
| CacheLayer.MayAlwaysWriteCoins | src/coins.cpp:494-545 | under the invariant of a cache the assert on fresh coins cannot fire |
| CoinsViews.WriteEntries | src/coins.cpp:582-641 | the loop over sidechain or event entries, in any order, writes each by its flag, or stops exactly when an assert fires |
| CoinsViews.WriteCoinsEntries | src/coins.cpp:494-545 | the loop over coin entries, in any order, writes each dirty one, and its assert does not fire |
| CoinsViews.CoinsViewDb.BatchWrite | src/txdb.cpp:195-260 | the database shows afterwards what the cache on top of it showed |
| CoinsViews.CoinsViewCache.FetchCoins | src/coins.cpp:239-255 | reading coins fills the cache and changes no view |
| CoinsViews.CoinsViewCache.GetSidechain | src/coins.cpp:257-273 | the result is what the view shows; the view does not change |
| CoinsViews.CoinsViewCache.GetSidechainEvents | src/coins.cpp:299-315 | the result is what the view shows; the view does not change |
| CoinsViews.CoinsViewCache.ModifySidechain | src/coins.cpp:275-289 | gives the cached entry, a copy of what is below, or a fresh default entry, and changes the view in the last case only |
| CoinsViews.CoinsViewCache.ModifySidechainEvents | src/coins.cpp:317-332 | gives the cached record, a copy of what is below, or a fresh empty record, and changes the view in the last case only |
| CoinsViews.CoinsViewCache.ModifyCoins | src/coins.cpp:438-457 | hands out the coins the view shows, marked dirty, and changes no view |
| CoinsViews.CoinsViewCache.ReleaseModifier | src/coins.cpp:1735-1747 | after the modifier goes the view shows the cleaned up coins, or none when they are spent |
| CoinsViews.CoinsViewCache.BatchWrite | src/coins.cpp:494-641 | takes over a child's entries, or stops exactly when an assert fires; the view becomes the child's |
| CoinsViews.CoinsViewCache.Flush | src/coins.cpp:1546-1555 | succeeds exactly when the base is a database, or has no modifier out and shows none of the fresh entries; then the base shows what this cache showed, and this cache is empty |
| ViewUpdates.CreateSidechain | src/coins.cpp:705-731 | fails exactly when the view has the sidechain; otherwise the view gains it with the creation amount immature |
| ViewUpdates.UpdateScInfo | src/coins.cpp:697-755 | on the view it does what the plain ledger does for creations and forward transfers, and fails when the ledger does |
| ViewUpdates.RecreatedCannotFlush | src/coins.cpp:582-590 | the input that trips the assert: a sidechain the base shows, erased and created again in one cache |
| ViewUpdates.RevertTxOutputs | src/coins.cpp:757-819 | on the view it does what the plain ledger does, and fails when the ledger does |
| ViewUpdates.UpdateScInfoCert | src/coins.cpp:1013-1049 | on the view it does what the plain ledger does for a certificate, undo data included |
| ViewUpdates.RevertCertOutputs | src/coins.cpp:1051-1075 | on the view it does what the plain ledger does |
| ViewUpdates.ScheduleCertEvent | src/coins.cpp:1161-1205 | moves the sidechain's ceasing record by one epoch, as in the plain ledger |
| ViewUpdates.CancelCertEvent | src/coins.cpp:1284-1326 | moves the ceasing record back, as in the plain ledger |
| BlockProcessing.SpendAll | src/main.cpp:1945-1966 | spends the inputs one by one through modifiers and records the undo data of the plain ledger |
| BlockProcessing.CheckInputsMature | src/main.cpp:2086-2106 | on the cache, succeeds exactly when the outputs spent are mature in the view, and changes no view |
| BlockProcessing.RestoreAll | src/main.cpp:2440-2451 | restores the inputs last to first as the plain ledger does, whatever empty records the cache holds |
| BlockProcessing.HandleSidechainEvents | src/coins.cpp:1328-1409 | matures amounts, voids certificates and erases the record of the height as the plain ledger does |
| BlockProcessing.RevertSidechainEvents | src/coins.cpp:1411-1518 | undoes them as the plain ledger does |
| BlockProcessing.ConnectBlock | src/main.cpp:2570-2929 | over a cache, accepts the same blocks as the plain ledger and leaves the same state and undo data |
| BlockProcessing.DisconnectBlock | src/main.cpp:2286-2467 | over a cache, leaves the state of the plain ledger |
| BlockProcessing.ConnectTip | src/main.cpp:3176-3250 | a block applied to a cache of its own and flushed: the flush trips no assert, and a refused block leaves the tip as it was |
| BlockProcessing.DisconnectTip | src/main.cpp:3076-3164 | the same for disconnecting |
| BlockProcessing.RunNode | src/main.cpp:3076-3250 | a node that starts empty and takes any valid run of steps through its caches never fails and shows the state of connecting its active chain from scratch |
| AddrTables.ClearedKeeps | src/addrman.cpp:133-146 | clearing a slot keeps the invariant; only an occupant whose last reference this was can go |
| AddrTables.MadeTriedKeeps | src/addrman.cpp:148-194 | moving an entry to the tried table keeps the invariant, with or without an eviction, and none of the asserts fires |
| AddrTables.AddedKeeps | src/addrman.cpp:245-311 | adding keeps the invariant, whatever the clock and the random draw say |
| AddrMan.AddrManager.Find | src/addrman.cpp:74-85 | an address is found exactly when the index has it, with its entry |
| AddrMan.AddrManager.Create | src/addrman.cpp:87-97 | the new entry gets the next id and the last random position, and is in no table |
| AddrMan.AddrManager.SwapRandom | src/addrman.cpp:99-117 | swaps two entries of the random order together with the positions the entries hold |
| AddrMan.AddrManager.Delete | src/addrman.cpp:119-131 | removes an unreferenced entry from every index |
| AddrMan.AddrManager.ClearNew | src/addrman.cpp:133-146 | the occupant loses a reference, and is deleted exactly when it was the last |
| AddrMan.AddrManager.MakeTried | src/addrman.cpp:148-194 | the loop over all buckets and the eviction give the tables that the specification describes: the entry in its tried slot and in no new one, the evicted entry back in its new slot |
| AddrMan.AddrManager.Good | src/addrman.cpp:196-243 | keeps the invariant, and the result is the same from whatever bucket the search starts |
| AddrMan.AddrManager.Add | src/addrman.cpp:245-311 | keeps the invariant, and tables and result are those of the specification of which the lemmas speak |
| AddrMan.AddrManager.Attempt | src/addrman.cpp:313-330 | records the attempt for a known service and keeps the invariant |
| AddrMan.AddrManager.Connected | src/addrman.cpp:495-513 | refreshes the time of a known service at most every twenty minutes and keeps the invariant |
| AddrMan.AddrManager.GetAddr | src/addrman.cpp:474-493 | a sample of known addresses without repetition and without terrible ones, all of them when there are fewer than the sample size |
| AddrEffects.GoodMoves | src/addrman.cpp:196-243 | a good address ends in its tried slot, the entry that was there moves to its own new slot, and nothing else changes in either table |
| AddrEffects.GoodNotes | src/addrman.cpp:196-243 | a success is noted for the known service only: it is then tried, with that time and no failed attempt; every other entry stays as it is, but the one whose last new slot an evicted entry takes over |
| AddrEffects.AddForgetsOnlyTerrible | src/addrman.cpp:245-311 | adding forgets no known address, except a terrible one that has no other slot |
| AddrEffects.SlotsAre | src/addrman.cpp:11-30 | the buckets and positions of an address in the two tables, of 1024 and 256 buckets with 64 positions |
| AddrEffects.AddLearns | src/addrman.cpp:281-311 | a routable address that is not known is learned if and only if its new slot is free, or its occupant is terrible or has another slot; it is filed there with its source and its time less the penalty, and no other slot changes; otherwise nothing changes |
| AddrEffects.AddRefreshes | src/addrman.cpp:254-311 | a known address: services joined, time by the announced one, the interval and the penalty, and the slot for this source gained exactly when time, table, count and draw allow it and the slot is free or its occupant terrible |
| AddrEffects.TerribleMeans | src/addrman.cpp:32-50 | terrible is not tried within the last minute, and from the future, unseen for thirty days, never reached in three attempts, or not reached for a week in ten |
| AddrEffects.HealthyStays | src/addrman.cpp:32-50 | adding never forgets an address seen within thirty days and reached within a week, nor one tried within the last minute |
| AddrPeers.WithinLimits | src/addrman.h:332-372 | no consistent manager exceeds the limits that reading checks |
| AddrPeers.FileHeader | src/addrman.h:282-295 | version, key size, and the number of buckets with bit 30 flipped |
| AddrPeers.Serialize | src/addrman.h:282-329 | the loops write the entries, numbered in the order of writing, and the positions of every new bucket |
| AddrPeers.Unserialize | src/addrman.h:332-435 | the loops accept exactly the files within the limits and build the manager that the round trip speaks of, dropping entries that find no slot |
| AddrPeers.RoundTrip | src/addrman.h:282-435 | writing a consistent manager and reading it back gives a consistent manager with the same entries at the same slots of both tables, under new ids; nothing is lost |
| AddrLoaded.LoadedConsistent | src/addrman.h:332-435 | reading an accepted file gives a consistent manager if and only if, of the entries read, those that got a slot share their address with no other and have possible times |
| AddrLoaded.TwiceTheSame | src/addrman.h:332-435 | the failing input: an accepted file with one entry twice gives an inconsistent manager |
| CheckQueue.InspectKeeps | src/checkqueue.h:90-122 | what a thread does under the lock keeps the invariant, and the master returns exactly when nothing is queued or unfinished |
| CheckQueue.AlwaysConsistent | src/checkqueue.h:69-127 | in every state of every run: unfinished work is what is queued or in a batch, threads inside are asleep or busy, and a sleeping master is notified or has work in flight to wake it |
| CheckQueue.WaitIsCorrect | src/checkqueue.h:140-143 | in every run waiting returns only when nothing is queued or in flight, returns true exactly when every check added since the last wait was executed and passed, and leaves the queue idle |
| CheckProgress.StepsBounded | src/checkqueue.h:69-127 | until the master returns, the threads take no more steps than a bound fixed by the state they start from, in every schedule, not counting wake-ups without notice |
| CheckProgress.NeverStuck | src/checkqueue.h:69-127 | while the master waits, some thread can take such a step, so the wait can only end with its return |
| CheckProgress.WaitCanReturn | src/checkqueue.h:140-143 | from every state of the invariant in which the master waits, a schedule without spurious wake-ups makes it return |
| MerkleBlock.Pack | src/merkleblock.h:99-103 | the bytes hold the bits in order, least significant first, and zeroes after them |
| MerkleBlock.Unpack | src/merkleblock.h:92-98 | every bit of every byte, in that order |
| MerkleBlock.PartialMerkleTree.TraverseAndBuild | src/merkleblock.cpp:102-118 | appends the flag bits and hashes of the node's part of the tree |
| MerkleBlock.PartialMerkleTree.constructor | src/merkleblock.cpp:156-168 | the bits and hashes of the whole tree |
| MerkleBlock.PartialMerkleTree.TraverseAndExtract | src/merkleblock.cpp:120-154 | reads a node, flagging what is malformed |
| MerkleBlock.PartialMerkleTree.ExtractMatches | src/merkleblock.cpp:172-203 | the root and the matches, or nothing when any of the checks fails |
| MerkleBlock.RoundTrip | src/merkleblock.cpp:156-203 | building, packing and extracting gives the Merkle root of the block, as computed level by level, and exactly the matched transactions, in order |
| MerkleBlock.Soundness | src/merkleblock.cpp:172-203 | any tree for as many transactions that leads to the Merkle root of the block reports only transactions of the block, at increasing positions, when hashing is injective |
| MerkleBlock.TopOfTree | src/merkleblock.cpp:158-163 | the height is the first at which one node is left, and the hash of that node is the Merkle root of the block |
| MerkleBlock.AcceptedIsTight | src/merkleblock.cpp:172-203 | a tree is accepted only for a possible number of transactions, with every hash used and no bit too many but padding |
| MerkleRoot.AddLevel | src/primitives/block.cpp:80-96 | one level: neighbours paired, an odd last node with itself; flagged exactly when the last two of an even level are the same |
| MerkleRoot.BuildMerkleTree | src/primitives/block.cpp:74-102 | all levels one after the other, the root, and the mutation flag of every level together |
| MerkleRoot.GetMerkleBranch | src/primitives/block.cpp:127-141 | the sibling on every level |
| MerkleRoot.CheckMerkleBranch | src/primitives/block.cpp:143-166 | the hash that a branch leads to |
| MerkleRoot.BranchLeadsToRoot | src/primitives/block.cpp:127-166 | the branch of every transaction leads to the root |
| MerkleMutation.RootDetermines | src/primitives/block.cpp:27-61 | transaction lists without the flag and with the same root are the same list, of whatever lengths, when hashing is injective and no transaction hash is a hash of a pair |
| MerkleMutation.FlagIsComplete | src/primitives/block.cpp:27-61 | a list shares its root with a shorter one if and only if the last two nodes of an even level of more than two are the same; the flag is set exactly for those and for twins below the root |
| MerkleMutation.TwinsFlagged | src/primitives/block.cpp:83-86 | the input that is flagged although no shorter list has its root: one transaction given twice |
| MerkleMutation.DistinctNotFlagged | src/primitives/block.cpp:83-86 | distinct transactions never set the flag |
| MerkleBlock.HashBounds | src/merkleblock.h:36-40 | the hashes number at most the transactions, and at most one more than matches times tree height |
| MerkleBlock.BitBound | src/merkleblock.h:47 | the bits number at most twice the hashes less one if and only if no node on the way to a match has a single child |
| MerkleBlock.BitBoundFails | src/merkleblock.h:47 | the failing input: three transactions, the last one matched, need four bits for two hashes |
| MerkleSize.SinglesClosed | src/merkleblock.h:66-68 | only the last node of a level can have a single child: the single children on the way to matches are the levels above an odd width whose last node is on the way |
| MerkleSize.SizeBound | src/merkleblock.h:34 | the flag bits are twice the hashes less one plus those levels, and the announced bound 10 + ceil(32.25 N) on the size holds if and only if counts and flag bytes fit what a quarter byte per hash leaves |
| MerkleSize.FewOddLevels | src/merkleblock.h:34 | with at most one such level the bound holds for every tree of up to 65535 hashes |
| MerkleSize.SizeBoundFails | src/merkleblock.h:34 | the failing input: 1012 transactions, all matched, take 32648 bytes where 32647 are announced |
| Limbs.Add | src/arith_uint256.h:135-145 | the sum modulo 2^256, with no intermediate above 64 bits |
| Limbs.Increment | src/arith_uint256.h:173-180 | one more, modulo 2^256 |
| Limbs.Decrement | src/arith_uint256.h:190-197 | one less, modulo 2^256 |
| Limbs.Negate | src/arith_uint256.h:77-84 | the two's complement |
| Limbs.Subtract | src/arith_uint256.h:147-151 | the difference modulo 2^256 |
| Limbs.Compare | src/arith_uint256.cpp:110-119 | the order of the values |
| LimbOps.MultiplySmall | src/arith_uint256.cpp:56-65 | the product with a 32-bit number modulo 2^256 |
| LimbOps.Multiply | src/arith_uint256.cpp:68-81 | the product modulo 2^256, if and only if the operand is another object; zero when it is the number itself |
| LimbShifts.ShiftLeft | src/arith_uint256.cpp:22-36 | the value times 2^shift modulo 2^256, for every shift |
| LimbShifts.ShiftRight | src/arith_uint256.cpp:39-53 | the value divided by 2^shift, for every shift |
| LimbDivide.Bits | src/arith_uint256.cpp:172-184 | the number of binary digits of the value |
| LimbDivide.Divide | src/arith_uint256.cpp:84-107 | quotient, with the remainder left in the working copy; dividing by zero is an error that leaves zero behind |
| Compact.SetCompact | src/arith_uint256.cpp:204-222 | the value, sign and overflow of a compact number, the overflow flag meaning that the number does not fit |
| Compact.OverflowMeans | src/arith_uint256.cpp:217-220 | the overflow flag is set if and only if mantissa times power of 256 does not fit 256 bits; without it the number is read as a whole |
| Compact.GetCompact | src/arith_uint256.cpp:224-245 | the compact number of a value; neither assert fires |
| Compact.CompactRoundTrip | src/arith_uint256.cpp:204-245 | writing any value and reading it back gives the value truncated to the exponent written, never flagged negative or overflowing |
| Compact.CompactStable | src/arith_uint256.cpp:204-245 | a further round trip changes nothing |
| Digits.MultiplyAdd | src/base58.cpp:84-90 | the inner loop turns the buffer into its number times the factor plus the digit, and gives what does not fit |
| Base58.Encode | src/base58.cpp:70-103 | leading zero bytes as ones, then the base-58 digits of the number; the assert that no carry is left holds |
| Base58.Decode | src/base58.cpp:24-68 | the bytes of the one word between spaces, or failure on any other character |
| Base58.AlphabetMeans | src/base58.cpp:21-22 | the digits are the letters and figures but 0, O, I and l, in the order of their codes |
| Base58.EncodeBufferSuffices | src/base58.cpp:70-90 | the buffer of 138 digits per hundred bytes, and one, always has room |
| Base58.DecodeBufferSuffices | src/base58.cpp:34-50 | the buffer of 733 bytes per thousand characters, and one, always has room |
| Base58.DecodeInvertsEncode | src/base58.cpp:24-103 | decoding an encoding gives back every byte string, leading zeroes included |
| Base58.EncodeInvertsDecode | src/base58.cpp:24-103 | encoding what a string decodes to gives back the string without surrounding spaces |
| Base58.CheckRoundTrip | src/base58.cpp:115-139 | with any checksum of four bytes, decoding an encoding gives back every byte string |
| Base58.CheckedStringsAreEncodings | src/base58.cpp:115-139 | every accepted string is, without surrounding spaces, the encoding of what it decodes to |
| ChainIndex.InvertLowestOneClears | src/chain.cpp:65 | clears exactly the lowest bit that is set |
| ChainIndex.SkipsBack | src/chain.cpp:68-77 | every skip leads to a lower height |
| ChainIndex.BlockIndex.GetAncestor | src/chain.cpp:79-101 | the entry that the plain walk along parents reaches, null out of range, whichever skip pointers are set; and the exact number of turns when they all are |
| ChainIndex.BlockIndex.BuildSkip | src/chain.cpp:108-112 | the skip pointer leads to the ancestor at the skip height, and all skip pointers of the line stay right |
| ChainIndex.BlockTree.AddToBlockIndex | src/main.cpp:3671-3694 | keeps every entry filed under its hash, with all its ancestors and right skip pointers; a new entry extends its parent's line by itself |
| SkipCost.BlockTurns | src/chain.cpp:87-99 | from a multiple of 2^m to any height in the block of 2^m below it the walk takes at most m(m + 2) turns |
| SkipCost.FewTurns | src/chain.cpp:72-77 | from a height below 2^n the walk takes at most (n + 1)(n + 2) turns, to any height |
| SkipCost.ManyTurns | src/chain.cpp:72-77 | from height 2^n - 8 to height two the walk takes exactly n*n/4 + 2n - 7 turns, 110 of them for n = 18 |
| SkipCost.NotLogarithmic | src/chain.cpp:46 | the failing family: no multiple of the length of the height, plus any constant, bounds the turns |
| SkipCost.FindAncestor | src/chain.cpp:79-101 | for every entry of the index the ancestor is found within that bound |
| ActiveChain.Chain.Contains | src/chain.h:446-448 | one look at the entry's height decides membership |
| ActiveChain.Chain.Next | src/chain.h:451-456 | the child in the chain, if and only if the entry is in the chain and not the tip |
| ActiveChain.Chain.SetTip | src/chain.cpp:16-26 | the vector becomes exactly the line of the new tip, though writing stops at the first entry in place |
| ActiveChain.Chain.FindFork | src/chain.cpp:56-62 | the entry whose line is exactly what the chain and the given line share; null when they share nothing |
| Locators.LocatorShape | src/chain.cpp:28-54 | the heights listed: eleven single steps, then doubling ones, the root last and only last |
| Locators.LocatorDecreases | src/chain.cpp:28-54 | the heights strictly decrease |
| Locators.LocatorLength | src/chain.cpp:28-54 | the exact length, logarithmic in the height |
| Locators.GetLocator | src/chain.cpp:28-54 | lists the hashes of the line at those heights, on or off the chain |
| Locators.FindForkInGlobalIndex | src/main.cpp:570-583 | the first listed block that is on the chain, or the chain's root |
| Locators.LocatorFindsFork | src/main.cpp:570-583 | a peer's locator leads to a common block no further below the fork than the fork is below the peer's tip, and to the fork itself within eleven blocks |
| Framing.HeaderLayout | src/protocol.h:43-60 | start bytes, command, length and checksum at their offsets, the numbers least significant byte first |
| Framing.NothingLost | src/net.cpp:696-732 | the frames and the left-over of a stream concatenate back to it, and every frame has the announced, acceptable length |
| Framing.SentIsReceived | src/net.cpp:696-732 | legal frames come out as they went in |
| Framing.ParseContinues | src/net.cpp:696-732 | the frames of a longer stream are those of the shorter one and those of its left-over with the new bytes |
| Framing.RefusalStays | src/net.cpp:717-720 | a refused stream stays refused, with the same frames before the refusal |
| NetNode.NetMessage.TakeHeader | src/net.cpp:734-763 | takes in at least one byte, completes the header at 24 bytes, and refuses exactly the headers above the limit |
| NetNode.NetMessage.TakeData | src/net.cpp:765-779 | takes in as much as the message needs; the buffer never runs more than 256 KiB ahead nor past the announced length |
| NetNode.Node.Absorb | src/net.cpp:698-729 | one turn takes in at least one byte or refuses the stream, and changes the queue as the meaning of the bytes says |
| NetNode.Node.ReceiveMsgBytes | src/net.cpp:696-732 | after each chunk, success, complete messages and partial message are those of the whole stream, wherever it was cut |
| NetNode.IsValid | src/protocol.cpp:45-73 | the header is valid exactly when it has the network's start bytes, a command of printable characters padded with zeros, and an acceptable size |
| NetNode.Node.Scan | src/main.cpp:6485-6574 | one run takes messages up to the first that is complete and either acceptable or foreign, skips all before it, and hands on at most one |
| NetNode.Node.ProcessMessages | src/main.cpp:6464-6581 | takes those messages off the queue, oldest first, reports foreign start bytes, and leaves the meaning of the stream as it is |
| NetNode.Happen | src/net.cpp:1749-1763 | one chunk or one run of the handler keeps: the queue means what the bytes mean, and the messages handed on are the acceptable ones of those taken |
| NetNode.Connection | src/net.cpp:696-732 | over a whole connection the messages delivered or queued, the partial message and the acceptance depend only on the bytes, not on chunks nor on when the handler ran; acceptable messages are handed on once, in order; the connection closes at the first foreign message met |
| VarInt.EncodeThenValue | src/serialize.h:321-346 | every number is the value of its encoding |
| VarInt.ValueThenEncode | src/serialize.h:321-346 | every number has exactly one encoding |
| VarInt.RoundTrip | src/serialize.h:360-389 | what was written is what is read, and what follows is left alone |
| VarInt.GetSizeOfVarInt | src/serialize.h:347-358 | the length of the encoding |
| VarInt.BufferSuffices | src/serialize.h:363 | one byte for every seven bits of the type, rounded up, is room enough for every number of the type |
| VarInt.WriteVarInt | src/serialize.h:360-375 | filling the fixed buffer backwards never runs over it, and what is written out is the encoding |
| VarInt.ReadVarInt | src/serialize.h:377-389 | reads modulo the type's range, failing at the end of the data |
| Amounts.DecompressCompress | src/compressor.cpp:142-185 | every amount comes back from its compact form |
| Amounts.CompressDecompress | src/compressor.cpp:142-185 | every number is the compact form of exactly one amount |
| Amounts.CompressBound | src/compressor.cpp:142-160 | the compact form is at most ten times the amount, so it fits 64 bits for every amount in the money range |
| Amounts.CompressAmount | src/compressor.cpp:142-160 | in 64-bit arithmetic, the compact form modulo 2^64, and exactly in the money range |
| Amounts.DecompressAmount | src/compressor.cpp:162-185 | in 64-bit arithmetic, the amount modulo 2^64 |
| Scripts.SpecialRoundTrip | src/compressor.cpp:49-132 | every script with a special form is restored from it, uncompressed keys included |
| Scripts.ScriptRoundTrip | src/compressor.h:56-91 | a script is restored from the stream if and only if it is not longer than the script limit |
| Masks.CalcMaskSize | src/coins.cpp:164-180 | the position of the last mask byte in use, and the number of mask bytes that are not zero |
| Masks.ReadMaskBack | src/coins.h:235-245 | a mask that ends in a non-zero byte is read back from the number of its non-zero bytes alone |
| Masks.MaskBits | src/coins.h:200-207 | bit by bit the mask is the availability of the outputs from the third on |
| CoinsStore.GetSerializeSize | src/coins.h:159-186 | exactly the length of what is written |
| CoinsStore.Serialize | src/coins.h:189-220 | version, header code, mask, unspent outputs, height and certificate fields, as specified |
| CoinsStore.Unserialize | src/coins.h:224-262 | reads what the specification reads, failing exactly at the end of the data |
| CoinsStore.StoreRoundTrip | src/coins.h:189-262 | coins that are not pruned are read back with their outputs cleaned up, coinbase flag, height and certificate fields, and the stream after them untouched |
| CoinsStore.StoreAndLoad | src/coins.h:189-262 | the two methods one after the other: all bytes are used and the restored coins come back |
| CoinsStore.StoredExactly | src/coins.h:189-262 | reading gives exactly what was written if and only if the outputs are cleaned up, height and version are not negative, and the certificate fields are stored or have their defaults |
| CoinsStore.StoredAgain | src/coins.h:189-262 | a second round trip changes nothing; availability and being a certificate's coins never change |
| CoinsStore.CertVersionChanges | src/coins.cpp:113-118 | the failing input: the version -5 of a certificate comes back as 123, which still tells a certificate |
| StoredExamples.CodeIsSum | src/serialize.h:324-331 | every number is the documented sum over the digits of its encoding |
| StoredExamples.SmallSizes | src/serialize.h:332-333 | one, two and three bytes reach exactly to 127, 16511 and 2113663 |
| StoredExamples.ListedCodes | src/serialize.h:339-344 | the listed encodings, byte by byte |
| StoredExamples.MislistedCodes | src/serialize.h:342-343 | the encodings listed for 16511 and 65535 are those of 32895 and 65407; theirs are others |
| StoredExamples.ListedAmounts | src/test/compress_tests.cpp:42-47 | the compact forms of the listed amounts |
| StoredExamples.SpecialForms | src/compressor.cpp:49-86 | the five special forms of scripts, byte by byte |
| StoredExamples.FirstExample | src/coins.h:52-64 | the first documented example of stored coins, byte by byte |
| StoredExamples.SecondExample | src/coins.h:67-85 | the second documented example, with its mask, byte by byte |
| StoredExamples.CertFields | src/coins.h:189-220 | the two certificate fields after the height, in four bytes each |
| Waiting.Best | src/miner.cpp:80-104 | no item has a higher fee rate than the one taken off when ordered by fee, or a higher priority otherwise; equals rank by the other number |
| Waiting.Release | src/miner.cpp:651-682 | each orphan of a chosen entry is told once, though it may be registered several times, and is queued exactly when it waits for nothing more |
| BlockOrder.BlockReplays | src/primitives/certificate.cpp:191-195 | the block, which lists certificates after transactions, finds all its inputs in that order too, with the coins and fees of the order of choice |
| BlockOrder.BlockInOrder | src/primitives/certificate.cpp:191-195 | in the block, too, every entry comes once and after everything it waits for |
| BlockOrder.InputsAtHand | src/miner.cpp:585-590 | in a pool without conflicts an entry whose parents were chosen finds all its inputs |
| BlockOrder.ForwardsAtHand | src/miner.cpp:116-155 | the sidechain of every forward transfer in the block is known at the tip, or created by its own transaction or an earlier one of the block |
| BlockValue.EntriesConserve | src/primitives/transaction.h:851 | entries one after the other: the value unspent in the end, and the fees, are the value unspent before and what came from the shielded pool and by backward transfers, less what went to the shielded pool and to sidechains |
| Ranking.TurnDone | src/miner.cpp:537-576 | one turn keeps the record of the selection: the entry considered ranked first among those that were free, and the order changed exactly as the limits say |
| BlockAssembly.LimitsFrom | src/miner.cpp:466-481 | each option as given, unless it is out of bounds: sizes then take the nearest bound |
| BlockAssembly.Assembler.GetTxInputsDependencies | src/miner.cpp:157-206 | fails exactly at the first input that spends an unconfirmed certificate in a way not allowed; up to there the orphan depends on exactly the pool entries that the inputs spend, and is registered with each |
| BlockAssembly.Assembler.VerifyForwardTransfersDependencies | src/miner.cpp:116-155 | fails exactly at the first sidechain that neither the chain nor the pool knows; up to there it also depends on the creators of the sidechains it pays into, itself excepted |
| BlockAssembly.Assembler.AddTxToPriorities | src/miner.cpp:208-267 | an entry without dependencies is queued, an orphan is priced |
| BlockAssembly.Assembler.CollectAll | src/miner.cpp:269-343 | every eligible entry is queued or an orphan, registered with exactly its parents |
| BlockAssembly.Assembler.Decide | src/miner.cpp:550-615 | an entry is taken if and only if it is within the limits, passes the checks, and is not free while ordered by fee past the minimum size; the order turns to fee exactly when the priority space would be filled or the priority is too low |
| BlockAssembly.Assembler.Consider | src/miner.cpp:537-682 | one turn considers one more entry and keeps the whole invariant of the selection |
| BlockAssembly.Assembler.Select | src/miner.cpp:537-682 | the loop ends; then every eligible entry is chosen, waits for an entry that was not chosen, finds no room any more, or failed a check at a moment when everything it waits for was chosen |
| BlockAssembly.NoneMissesInputs | src/miner.cpp:585-590 | in a pool without conflicts completeness holds with too many signature operations and failed input checks as the only checks to fail |
| BlockAssembly.Coinbase | src/miner.cpp:688-706 | the outputs sum to the reward and the fees, the community funds each positive |
| BlockAssembly.CreateNewBlock | src/miner.cpp:438-710 | the block lists each entry once, after everything it waits for, with its inputs and sidechains at hand, below the size, signature and complexity limits; an eligible entry is left out only when something it waits for is, when it finds no room any more, or when it failed a check after everything it waits for was chosen, and in a pool without conflicts never for missing inputs; in every turn the best of the free entries was considered, by priority or by fee; the coinbase pays the reward and exactly the fees of the block's entries, so that with it no value is created but the reward; and all listed fees sum to zero |

## Findings

Properties that the code or its documentation suggests and that fail, each with the failing input and the exact
condition:

- Undoing a spend or a voided certificate is refused when it emptied coins recorded at height zero, because the undo
  record then looks like one without metadata (`Coins.UndoSpend`, `Coins.UndoSpendAtHeightZero`,
  `Coins.RestoreUndoesVoid`).
- A sidechain or event record that the base shows, erased and created again in one cache, is fresh, and flushing trips
  an assert; flushing works exactly when no fresh entry is shown by the base (`CacheLayer.MayWriteIffNew`,
  `ViewUpdates.RecreatedCannotFlush`). Connecting and disconnecting single blocks never gets there
  (`BlockProcessing.RunNode`).
- The refusal at src/main.cpp:2103 says that a backward transfer waits for the next certificate; it may be spent without
  one at exactly one height, the last before the sidechain ceases, and the next block voids what is left
  (`CeasingRun.SpendableWhileAlive`; the chain of `CeasingRun.SpentThenVoided`).
- The height announced as the one at which a sidechain is considered ceased (src/rpc/blockchain.cpp:1108) is the last at
  which it is alive (`Sidechain.AnnouncedHeightIsAlive`).
- An accepted peers file may give an inconsistent address manager, for example when it lists an address twice
  (`AddrLoaded.LoadedConsistent`, `AddrLoaded.TwiceTheSame`).
- The comment at src/merkleblock.h:47 bounds the flag bits by 2N-1; three transactions with the last one matched need
  four bits for two hashes (`MerkleBlock.BitBound`, `MerkleBlock.BitBoundFails`). The guarantee on the size at
  src/merkleblock.h:34 fails with it (`MerkleSize.SizeBound`, `MerkleSize.SizeBoundFails`).
- The mutation flag of the Merkle tree (src/primitives/block.cpp:27-61) is never missing, and is set besides for lists
  with twins below the root, such as one transaction given twice, which share their root with no shorter list
  (`MerkleMutation.FlagIsComplete`, `MerkleMutation.TwinsFlagged`).
- Two of the encodings listed at src/serialize.h:339-344, those of 16511 and 65535, belong to other numbers
  (`StoredExamples.MislistedCodes`).
- The format listed at src/coins.h:37-38 ends with the origin sidechain and a counter of change outputs; what is written
  is the position of the first backward transfer and the maturity height (`StoredExamples.CertFields`).
- `x *= x` on one object gives zero, since the product is accumulated in the operand (`LimbOps.Multiply`).
- A negative version, such as that of certificates, is stored in seven bits and read back as another number
  (`CoinsStore.StoredExactly`, `CoinsStore.CertVersionChanges`); being a certificate's coins survives, as the comment at
  src/coins.cpp:113-118 says.
- The comment at src/chain.cpp:46 calls the walk along skip pointers logarithmic; from height 2^n - 8 to height two it
  takes n*n/4 + 2n - 7 turns, more than any multiple of n (`SkipCost.ManyTurns`, `SkipCost.NotLogarithmic`). A bound
  quadratic in n holds for every walk (`SkipCost.FewTurns`).

## Left out

- Nullifiers, commitment trees, join-split checks, amounts of inputs against outputs and script validation: parameters
  or absent.
- BlockProcessing.DisconnectBlock: an unclean disconnection ends with `Err`, as for a caller that passes no clean flag;
  the start-up check of the database passes one and carries on.
- The contents of block and undo files; the undo data travel as values. The undo record of a coinbase is empty.
- Coins with unspendable outputs in the middle of the vector are cleaned when made, as in the source; cleaning coins a
  second time is not modelled.
- `CSidechain::operator==` ignores the balance and is not modelled.
- CoinsViews.CoinsViewDb.BatchWrite: maps stand for the database; batches and their failure are not modelled.
- AddrEffects.AddLearns: the hashes that choose buckets and positions are parameters.
- `CAddrMan::Select_` and `GetChance`: random choice by weight.
- The tables of the address manager are maps of the occupied slots, and the peers file is a record of its fields, not
  bytes; negative counts in it are not modelled.
- AddrPeers.Unserialize: reads into a new manager, since `Clear()` leaves the indexes of a used one in place.
- `fQuit` of the check queue is never set in the source and is absent.
- Merkle trees of more than 2^32 transactions, and the size limit on the number of transactions of a block message.
- `getdouble`, hexadecimal conversion and the remaining operators of the 256-bit numbers.
- CBase58Data and the address formats on top of base 58.
- ChainIndex.BlockTree.AddToBlockIndex: chain work, delay, validity flags and fork tips of an entry; a header that is
  its own parent, which no hash function gives, is excluded.
- ActiveChain.Chain.SetTip: `CHistoricalChain` is not modelled.
- NetNode.Node.ProcessMessages: the checksum is a parameter, and what is done with a message that is handed on is
  absent, as is a disconnection decided meanwhile, which wipes the queue; so is the receive-buffer limit that pauses
  reading.
- CoinsStore.StoreRoundTrip: outputs are required to be in the money range with scripts within the limit, which
  validation and `ClearUnspendable` grant; longer scripts are covered by `Scripts.ScriptRoundTrip`.
- StoredExamples.FirstExample: the key hash of the example is any 20 bytes, as in `StoredExamples.SecondExample`.
- Scripts.SpecialRoundTrip: the curve is a parameter that gives, for an abscissa and a parity, at most one ordinate.
- BlockAssembly.Assembler.AddTxToPriorities: the computation of priorities and fee rates, which are given numbers.
- BlockAssembly.CreateNewBlock: an inconsistent pool, where the source drops the orphan of a refused entry while other
  entries still point to it; the deprecated collection; the signature operations of the coinbase itself, for which a
  hundred are reserved; header fields and the final validity check. Unspendable outputs count as unspent in the view.
- Waiting.Best: the heap is the set of its items; how `std::make_heap` arranges them is not modelled.
- RPC, wallet, sockets and the zero-knowledge code.
