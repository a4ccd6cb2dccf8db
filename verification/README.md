# Ignition coin node: verified models

Dafny models of the parts of a proof-of-stake and masternode coin node that keep explicit state by hand or compute
with exact numbers, and proofs of what those parts promise. `dafny verify dfyconfig.toml` checks everything.

What is modelled, file by file:

- **Chain state** (`Transactions`, `TxIndexing`, `TxDatabase`, `ConnectInputs`, `SpendHistory`, `TxIds`, `MoneySupply`,
  `ChainLinks`, `ChainMoves`, `ChainState`, `ChainExamples`). The specification is that the spent-output index is the replay of the best chain. The
  code maintains it with an overlay of queued changes, undo in reverse order, a write batch and postponed reconnects,
  beside in-memory links, a height cache and a money counter. Every move succeeds exactly when the blocks
  replay and pass the outside checks, and all of these then describe one chain, exactly when every postponed block can
  be reached: when one cannot, the code still records the new tip (src/main.cpp:2632-2634). While the outside checks
  never change their mind that does not happen, and the node stays on the chain with the most trust.
- **Address manager** (`AddrTables`, `AddrSampling`, `AddrManager`, `AddrCheck`, `AddrStorage`). Six redundant indexes, updated in
  place with random choices. One invariant, stronger than what `Check_` tests, is kept by every operation, and saving
  and loading loses nothing.
- **Arithmetic and encodings** (`Numerals`, `Bits`, `Bignum`, `BignumWords`, `CompactTarget`, `Retarget`, `Base58`,
  `Merkle`). Conversions are proved against the numbers they denote; where a round trip is not exact, the theorem says
  exactly when it is.
- **Block assembly** (`BlockAssembly`, `BlockSelection`, `BlockAccepted`, `Mining`). The scheduler over the memory pool,
  its test index as a function of the selection, and the theorem that the assembled block connects under the node's own
  rules and becomes its best block.
- **Stake modifier** (`StakeModifier`). The rounds of constrained selection, and that chains determine their modifiers.
- **Orphan blocks** (`OrphanBlocks`). The holding area, pruning and the release queue.
- **Locked pages** (`LockedPages`). Stacking page locks over locks that do not stack.
- **Mixing pool** (`Denominations`, `DarksendPool`, `PoolOutpoints`). The masternode's session state machine.
- **Transaction locks** (`MasternodeRanks`, `InstantX`, `InstantXExamples`). Votes, quorums and conflicts.

How the models stand to the code:

- An object whose methods update fields is a class with those fields; its `Valid` predicate is required and ensured by
  every method, so it holds after every run. Loops of the code are loops here. A long function is split into methods
  at its comment headings.
- Hashes are injective: a block-index entry is a value holding its block and its ancestry, so that equal values and
  equal pointers are the same thing; a transaction id stands for the hash. Where a theorem needs injectivity of a
  function that is a parameter (the Merkle pair hash) it says so.
- Random choices, set and map iteration order, ties in a heap or a sort, and the outcome of checks outside the model
  (signatures, proofs of work and stake, script and size checks, masternode payees, coin age) are left open: an
  arbitrary choice or a parameter. The clock is a parameter, and so are the draws that decide whether a known address
  gains a bucket.
- Integers are unbounded except where the code depends on their width: 32-bit compact targets and times, 64-bit and
  256-bit conversions, page addresses.
- The assumptions of the chain theorems are that transactions with one id are one transaction and that no coinbase
  repeats an earlier id, for which the height in the coinbase is there (src/main.cpp:3090-3094). That no id at all
  occurs twice in a chain that connects (`DistinctIds`) is proved from these.
- The outcome of the checks outside the model is a parameter of each chain operation, a predicate on blocks; it may
  differ from one call to the next, as masternode payments and the clock do.
- Constants are those of the main network.

Observations on the code that the proofs brought out and that the contracts state:

- A block whose transaction id is already indexed cannot be undone exactly; undoing is exact if and only if all ids are
  fresh (`RoundTripIffFresh`). The comment at src/main.cpp:1771-1775 considers only spent duplicates.
- The money supply is not bounded by the subsidies alone. More than one coinstake, or one behind the second transaction,
  is refused in stake blocks only (src/main.cpp:2824-2835), a coinstake may pay out more than it takes in
  (src/main.cpp:1976), and only stake blocks have their reward checked (src/main.cpp:2204-2215); so a work block with a
  coinstake behind another transaction mints what it likes (`StrayCoinStakeMints`). The exact condition is
  `MintsAtMostSubsidyIff`; without such coinstakes the bound holds.
- After a postponed block has failed, the best chain in memory is not the one on disk (`MemoryLeavesDisk`). A postponed
  block needs a parent that has more trust than the best chain and was refused before, so that an outside check must
  have changed its mind.
- `Check_` reads the address map by subscript (src/addrman.cpp:456), which enters 0 for a missing address: that the
  entry with id 0 is missing from the map goes unnoticed, and the check itself repairs it.
- Mixing entries are kept apart by comparing whole inputs (src/core.h:96-101): one output can be in two entries when
  script or sequence number differ, and is then in the final transaction twice (`OneOutputTwice`,
  `FinalSpendsOnceIff`).
- `SelectTried` records a position after its swap (src/addrman.cpp:135-142). The entry there is the oldest one sampled
  if and only if that was drawn from the place of its own round (`EvictedIsOldestIff`); otherwise a younger one may be
  evicted (`YoungerOneLeaves`).
- Decoding an encoded byte string drops its leading zero bytes, in the checked variant as well.
- The Merkle root does not determine the number of leaves, nor the height. Which lists share a root is characterised
  exactly (`SameRootIff`, `SameRootAnyHeight`); repeating the last leaf of an odd list is one case.
- A block that enters the block index and is then refused by the chain leaves its orphan children waiting for a parent
  that is known; `OrphanPool.ParentsUnknown` singles out these blocks, and `ChildOfRefused` is a run.
- A lock gets its height, and so can be complete, only with its request, accepted or rejected. Votes that complete the
  lock of a rejected request find no request among the accepted ones and record an empty one (src/instantx.cpp:366): the
  conflict check sees no inputs, and two complete locks on one input can both stay (`TwoCompleteLocks`). `SettledIff`
  says exactly when a lock found complete does what src/instantx.cpp:404-410 describes. An accepted request that finds
  its lock complete leaves it without its inputs until another vote comes (`RequestAfterVotes`).
- The inputs that a rejected request has locked are not released with its lock (src/instantx.cpp:447-463).
- While the best chain on disk is behind the one in memory, the next block on top of the latter is connected to an index
  that lacks its parent, and the disk is then the replay of no chain (`NextBlockGoesAstray`).
- `Check_` does not notice stale keys of the address map either (`PassesIffAddrOk`).
- The comment at src/kernel.cpp:79-82 says that dividing by 2^32 always favours a stake block. It does so exactly while
  its selection hash is below 2^32 times that of every eligible work block (`PickIsStakeIff`).
- The comments on expiry times in src/darksend.h:147 and 219 say 120 seconds; the constant is 30.

## Model

| member | source | states |
|---|---|---|
| `TxDatabase.TxDb.TxnCommit` | src/txdb-leveldb.cpp:143-154 | The committed index becomes what reads saw inside the database transaction, all at once, together with the best-chain marker |
| `TxDatabase.TxDb.TxnAbort` | src/txdb-leveldb.h:168-173 | The committed index and best-chain marker stay as they were; the batch is gone |
| `TxDatabase.TxDb.ReadTxIndex` | src/txdb-leveldb.cpp:156-231 | A read sees the last write of its key in the open batch, and the store only if there is none |
| `TxDatabase.TxDb.UpdateTxIndex` | src/txdb-leveldb.cpp:233-236 | Later reads see exactly this entry changed |
| `TxDatabase.TxDb.EraseTxIndex` | src/txdb-leveldb.cpp:246-251 | Later reads see exactly this entry gone |
| `TxDatabase.TxDb.WriteHashBestChain` | src/txdb-leveldb.cpp:293-296 | The best-chain marker joins the batch |
| `ConnectInputs.FetchInputs` | src/main.cpp:1781-1850 | Succeeds iff every previous output is found in the database overlaid with the queued changes, and what it hands back is what that overlay holds |
| `ConnectInputs.IsConfirmedInNPrevBlocks` | src/main.cpp:1732-1743 | Whether the block is among the given number of blocks ending in `from` |
| `ConnectInputs.CheckInputs` | src/main.cpp:1887-1917 | Succeeds iff every input is mature, not younger than its spender and in range, and so is their sum; the sum is the one reported |
| `ConnectInputs.SpendInputs` | src/main.cpp:1921-1974 | Succeeds iff no input is spent already and none is repeated; then the overlay has exactly the inputs marked, through fetched copies and write-backs |
| `ConnectInputs.ConnectInputs` | src/main.cpp:1879-1993 | Succeeds iff the transaction may take its inputs from the index, and then the overlaid index is the old one with exactly these outputs marked spent here |
| `ConnectInputs.DisconnectInputs` | src/main.cpp:1745-1778 | Succeeds iff all spent entries are present; then exactly the inputs are unmarked and the transaction is erased |
| `TxIndexing.DisconnectUndoesConnectTx` | src/main.cpp:1745-1778 | Disconnecting a transaction with a fresh id right after connecting it restores the index |
| `TxIndexing.DisconnectUndoesConnect` | src/main.cpp:1995-2000 | Disconnecting a block, last transaction first, restores the index, also when its transactions spend each other |
| `TxIndexing.RoundTripIffFresh` | src/main.cpp:1771-1775 | Connect then disconnect restores the index if and only if no id of the block was in it before |
| `ChainExamples.RepeatedIdConnects` | src/main.cpp:3090-3094 | A block that repeats the id of an earlier coinbase connects and cannot be undone exactly; the height in the coinbase is what keeps it out |
| `TxIndexing.DisconnectTip` | src/main.cpp:2470-2487 | On a replayed chain disconnecting the tip cannot fail and leaves the replay of the shorter chain |
| `SpendHistory.ReplayMarksExact` | src/main.cpp:1963-1971 | The spent marks of a replayed chain are exactly the spends of its transactions, each pointing at the spender |
| `SpendHistory.SpentIffSpentOnce` | src/main.cpp:1941-1971 | An output of the index is marked iff exactly one transaction of the chain spends it, with one input; the mark points at it |
| `SpendHistory.SpendsAreKnown` | src/main.cpp:1781-1850 | The chain spends nothing but outputs of its own transactions |
| `SpendHistory.SpendsInOrder` | src/main.cpp:1781-1850 | Every spend of a replayed chain takes an output of a transaction of that chain with no later time stamp, and one of a coinbase or coinstake only 30 blocks after it |
| `SpendHistory.ChainTxsChecked` | src/main.cpp:733-782 | Every transaction of a replayed chain has passed the context-free checks |
| `SpendHistory.ChainTxFigures` | src/main.cpp:733-782 | In a replayed chain every amount and every total of outputs is between 0 and MAX_MONEY, the null outpoint is the only input of the coinbase and of nothing else, empty outputs are in coinbases and coinstakes only, and no transaction is later than its block |
| `TxIds.IdsAreDistinct` | src/main.cpp:1928-1932 | With ids that are hashes, distinct coinbases make all ids of a chain that connects distinct: a repeated transaction would spend a spent output |
| `MoneySupply.SupplyIsUnspentTotal` | src/main.cpp:2365-2366 | The money-supply counter of the tip is the sum of all unspent outputs in the index |
| `MoneySupply.NewMoney` | src/main.cpp:2152-2194 | New money is the coinbase plus the rewards of all coinstakes, wherever they are, less the fees |
| `MoneySupply.RewardIsChecked` | src/main.cpp:2824-2835 | In a stake block the reward that is checked is that of all its coinstakes |
| `MoneySupply.MintsAtMostSubsidyIff` | src/main.cpp:2196-2215 | A block raises the supply by at most its subsidy iff it is a stake block, or coinbase and coinstake rewards together stay within subsidy and fees (the code compares the coinbase alone) |
| `MoneySupply.BlockMintsAtMostSubsidy` | src/main.cpp:2196-2215 | Without a coinstake behind the second transaction a block raises the supply by at most its subsidy |
| `MoneySupply.SupplyAtMostMinted` | src/main.cpp:1434-1515 | On every chain the supply is at most the subsidies up to the height, in closed form and whatever the mix of block types, plus what coinstakes in work blocks have minted |
| `MoneySupply.MaxMintedStep` | src/main.cpp:1434-1525 | Each height adds exactly the larger of its two subsidies to the closed form; from height 3 on they are equal |
| `MoneySupply.SupplyBelowMaxMoney` | src/main.cpp:1434-1515 | Below height 13,140,000 the unspent outputs sum to at most 4,974,458 coins plus what coinstakes in work blocks have minted; without those, to less than MAX_MONEY (src/main.h:70) |
| `ChainExamples.StrayCoinStakeMints` | src/main.cpp:2824-2835 | A chain of 31 blocks that connects and whose last block, a work block with a coinstake, mints MAX_MONEY at a height with a subsidy of one coin |
| `ChainLinks.FindFork` | src/main.cpp:2451-2463 | Terminates, succeeds iff the two blocks have the same genesis, and ends at their last common ancestor |
| `ChainLinks.CollectBack` | src/main.cpp:2465-2474 | The blocks above the fork, tip first |
| `ChainLinks.LinksToAncestors` | src/main.h:1129-1132 | The links of a chain exist exactly at its proper ancestors and lead one block towards the tip |
| `ChainLinks.UniqueAtHeight` | src/main.cpp:1351-1366 | A chain has one block per height |
| `ChainState.GetValueIn` | src/main.cpp:1865-1877 | The sum over the fetched inputs is the input sum over the index |
| `ChainState.ConnectTransaction` | src/main.cpp:2152-2193 | Succeeds iff the transaction connects to the overlaid index, and the new overlay is the connected index |
| `ChainState.ConnectTransactions` | src/main.cpp:2142-2194 | The overlay loop over a block computes the index, fees, inputs, outputs and stake reward of connecting its transactions in order, or fails iff that does |
| `ChainState.WriteQueued` | src/main.cpp:2374-2379 | Writing the queue back, in any order, makes the database equal to the overlay |
| `ChainState.DisconnectBlock` | src/main.cpp:1995-2016 | The database ends as undoing the transactions in reverse order says, and fails iff that does |
| `ChainState.Chain.constructor` | src/main.cpp:2580-2586 | A node that has just accepted the genesis block is consistent |
| `ChainState.Chain.ConnectBlock` | src/main.cpp:2125-2379 | Succeeds iff the outside checks pass and the block connects to the index seen; then index and money counter are those of the connected block, else nothing changes |
| `ChainState.Chain.SetBestChainInner` | src/main.cpp:2549-2571 | Succeeds iff the outside verdict is good and the block connects to what is on disk; when that is the chain of its parent, index, links and counters on disk then describe the extended chain |
| `ChainState.Chain.Reorganize` | src/main.cpp:2447-2545 | Succeeds iff the new chain replays and its blocks that the old one lacks pass the outside checks; then index, links and counters describe it, else database and links are unchanged |
| `ChainState.Chain.DisconnectBranch` | src/main.cpp:2476-2495 | Going back to the fork cannot fail and leaves the replay of the chain up to it |
| `ChainState.Chain.ConnectBranch` | src/main.cpp:2497-2515 | Succeeds iff the branch replays and passes, and then the view is the replay of the chain up to the new block |
| `ChainState.Chain.UnlinkBranch` | src/main.cpp:2522-2525 | The links become those of the chain up to the fork |
| `ChainState.Chain.LinkBranch` | src/main.cpp:2527-2530 | The links become those of the chain up to the new block |
| `ChainState.Chain.Postpone` | src/main.cpp:2602-2606 | Picks the first block of the new branch that has more trust than the old tip, no block before it having more; the rest is the path from it, tip first |
| `ChainState.Chain.ConnectPostponed` | src/main.cpp:2620-2635 | The chain on disk stays consistent and ends at the last postponed block that can be reached |
| `ChainState.Chain.SetBestChain` | src/main.cpp:2573-2650 | Succeeds iff the intermediate block can be reached, and after a failure all is as before; after a success the disk ends at the last block that can be reached, and memory agrees with it iff that is the new block. When the disk is behind, a child of the best block in memory is connected to the index without its parent |
| `ChainState.Chain.AttachToBest` | src/main.cpp:2588-2592 | The case of a child of the best block in memory, with the disk at that block and with the disk behind it |
| `ChainState.LacksParent` | src/main.cpp:2588-2592 | The index of a chain with a later block on top, blocks between them missing, is not the replay of that block |
| `ChainState.Chain.AddToBlockIndex` | src/main.cpp:2736-2795 | A new block becomes best iff it has more trust and its intermediate block can be reached; while the outside checks always say the same, memory and disk agree and the best chain has the most trust of all received chains that pass. When the disk is behind, a child of the best block in memory that connects to the shorter index leaves a disk that is the replay of no chain |
| `ChainState.ComparedByBlocks` | src/main.cpp:2736-2795 | The rule for a new block against the best one, in the trusts of the blocks behind their last common ancestor; for siblings, in their own trusts |
| `ChainState.SettledStep` | src/main.cpp:2602-2606 | While the outside checks always say the same, a move never leaves a postponed block behind |
| `ChainState.Chain.TipSupply` | src/main.cpp:2365-2366 | For the best block: its money counter is the sum of the unspent outputs on disk, and an output is marked iff exactly one transaction of its chain spends it |
| `ChainMoves.FarthestIsEnd` | src/main.cpp:2620-2635 | A move gets to its goal iff the goal can be reached |
| `ChainMoves.FarthestBetween` | src/main.cpp:2602-2635 | Reorganising to the intermediate block and connecting the postponed ones gets as far as the way goes |
| `ChainMoves.BranchesCompared` | src/main.cpp:2736-2795 | One block has more trust than another iff the trusts of the blocks between their fork and it have the larger sum; the intermediate block is then the first of them at which the sum is larger |
| `ChainMoves.TrustAlongPath` | src/main.cpp:2757-2758 | The trust of a block is that of any ancestor and the sum over the blocks between them |
| `ChainMoves.SiblingsCompared` | src/main.cpp:2736-2795 | Of two children of one parent the one whose own trust is larger has more trust, and it can be reached from the other iff it replays and passes |
| `ChainExamples.PostponedBlockFails` | src/main.cpp:2620-2635 | Two branches such that the intermediate block can be reached and the postponed one cannot |
| `ChainExamples.MemoryLeavesDisk` | src/main.cpp:2632-2650 | A run from genesis after which the tip in memory is not the one on disk: an outside check changes its mind, and the postponed block takes too much |
| `ChainExamples.NextBlockGoesAstray` | src/main.cpp:2588-2592 | The run goes on: the next block connects to the index without its parent, and the disk is no longer the replay of any chain |
| `ChainState.Chain.FindBlockByHeight` | src/main.cpp:1350-1366 | From whatever cached start, terminates at the unique block of the best chain at the height |
| `ChainState.Chain.MainChainIsAncestry` | src/main.h:1129-1132 | A block is in the main chain iff it is an ancestor of the tip or the tip; its link then leads to the next block |
| `AddrManager.FindTerrible` | src/addrman.cpp:154-160 | Finds a terrible entry of the bucket iff there is one |
| `AddrManager.OldestOfFour` | src/addrman.cpp:174-188 | Of the entries at the sampled places of the bucket the one seen least recently |
| `AddrManager.AddrMan.Find` | src/addrman.cpp:80-91 | The id of an address iff it is known |
| `AddrManager.AddrMan.Create` | src/addrman.cpp:93-103 | One new entry, known under a fresh id and last in the random order |
| `AddrManager.AddrMan.SwapRandom` | src/addrman.cpp:105-123 | Two places of the random order change hands, and positions still match |
| `AddrManager.AddrMan.Forget` | src/addrman.cpp:161-168 | An entry without references leaves all three indexes |
| `AddrManager.AddrMan.Unreference` | src/addrman.cpp:189-198 | A bucket gives up an entry; with its last reference the entry itself goes |
| `AddrManager.AddrMan.ShrinkNew` | src/addrman.cpp:149-201 | Exactly one entry leaves the bucket: a terrible one, or the oldest of four samples when there is none; no assert fires |
| `AddrManager.AddrMan.SelectTried` | src/addrman.cpp:125-147 | Bucket and position are those the draws determine; the entry at the position is the least recently successful one sampled iff that was drawn from the place of its own round |
| `AddrSampling.EvictedIsOldestIff` | src/addrman.cpp:131-146 | For every bucket and all draws: the entry at the returned position is the oldest sampled one iff its round drew it from the round's own place |
| `AddrSampling.YoungerOneLeaves` | src/addrman.cpp:135-142 | In every bucket whose second entry is the oldest of the first four there are draws that evict the first one instead |
| `AddrManager.AddrMan.EraseFromAllNew` | src/addrman.cpp:207-215 | The entry leaves every new bucket and has no references left |
| `AddrManager.AddrMan.MakeTried` | src/addrman.cpp:203-259 | The invariant is kept; the entry becomes tried in its bucket, evicting one entry back to a new bucket iff its bucket is full; no assert fires; which one leaves is determined by the draws, and it is the oldest one sampled iff that was drawn from its own place |
| `AddrManager.AddrMan.Evict` | src/addrman.cpp:233-257 | The displaced entry goes to its own new bucket or, when that is full, to the place the promoted entry has left, which always exists; which one leaves is determined by the draws, and it is the oldest one sampled iff that was drawn from its own place |
| `AddrManager.AddrMan.Good_` | src/addrman.cpp:261-308 | The invariant is kept; the address is marked good, leaves every new bucket and becomes tried in its own; another tried entry goes back to a new bucket iff that one was full; unknown addresses change nothing |
| `AddrManager.AddrMan.FindBucket` | src/addrman.cpp:286-298 | From any starting point a bucket holding the entry is found |
| `AddrManager.AddrMan.MakeRoom` | src/addrman.cpp:361-365 | Another entry leaves the bucket iff it is full: a terrible one, or the oldest of four samples |
| `AddrManager.AddrMan.Attempt_` | src/addrman.cpp:370-387 | The invariant is kept; the entry of exactly this service gets its attempt counted |
| `AddrManager.AddrMan.Connected_` | src/addrman.cpp:509-527 | The invariant is kept; the time of exactly this service moves on, when it is stale |
| `AddrManager.AddrMan.Place` | src/addrman.cpp:358-366 | The entry gets the bucket its source hashes to; another entry leaves that bucket iff the entry was not there and it was full; all other buckets and entries are as before |
| `AddrManager.AddrMan.Add_` | src/addrman.cpp:310-368 | The invariant is kept; an unknown routable address gets an entry and a bucket, a known one is refreshed and may gain a bucket; nothing is dropped while there is room, and at most one entry leaves otherwise |
| `AddrManager.HarderEachTime` | src/addrman.cpp:344-349 | The draw is out of 2, 4 and 8 for one, two and three references |
| `AddrManager.RefreshedMeans` | src/addrman.cpp:321-331 | A known address takes over all services, and a later time only when it is more than an hour, or a day for one not seen today, ahead |
| `AddrManager.TerribleIff` | src/addrman.cpp:40-58 | When an entry that was not tried in the last minute is terrible |
| `AddrManager.TriedJustNowStays` | src/addrman.cpp:42-43 | An entry tried in the last minute is not terrible |
| `AddrManager.AddrMan.AddUnknown` | src/addrman.cpp:351-366 | An unknown address gets an entry with its penalised time in exactly one new bucket; another entry leaves iff that bucket was full |
| `AddrManager.AddrMan.HearAgain` | src/addrman.cpp:319-349 | A known address is refreshed; it gains one bucket iff the information is newer, it is not tried, has fewer than four references and the draw out of 2^references is 0 |
| `AddrManager.AddrMan.GetAddr_` | src/addrman.cpp:493-507 | The given share of the addresses, at most 2500, all known and pairwise different; only places in the random order change |
| `AddrCheck.CheckEntries` | src/addrman.cpp:441-463 | Returns 0 iff every entry passes, a missing address reading as 0; the address map is then filled in |
| `AddrCheck.CheckTried` | src/addrman.cpp:465-473 | The tried buckets list exactly the tried ids |
| `AddrCheck.CheckNew` | src/addrman.cpp:475-484 | The new buckets list exactly the references of the new ids |
| `AddrCheck.Check_` | src/addrman.cpp:434-490 | Returns 0 iff all its conditions hold of the tables, a missing address reading as 0 |
| `AddrCheck.PassesIffFound` | src/addrman.cpp:456-456 | When it returns 0, every entry was found under its address iff entry 0 was; after it, every one is |
| `AddrCheck.PassesIffAddrOk` | src/addrman.cpp:434-490 | When the check passes, the address map is the inverse of the entries iff entry 0, if any, is in it and it has as many keys as there are entries: stale keys go unnoticed |
| `AddrCheck.LostAddressPasses` | src/addrman.cpp:456-456 | From every consistent state with an entry 0, losing the address of that entry goes unnoticed |
| `AddrCheck.ConsistentPasses` | src/addrman.cpp:434-490 | The invariant kept by every operation, which also bounds buckets by 64 and fixes the tried bucket of each entry, implies everything the check looks at |
| `AddrStorage.Save` | src/addrman.h:289-327 | The file lists each new and each tried entry once, numbers the new ones, and names them per bucket |
| `AddrStorage.SaveNew` | src/addrman.h:291-305 | The new entries, each once, with the numbers the buckets will use |
| `AddrStorage.SaveTried` | src/addrman.h:306-316 | The tried entries, each once |
| `AddrStorage.SaveBucket` | src/addrman.h:317-327 | A bucket is written as the numbers of exactly its entries |
| `AddrStorage.LoadNew` | src/addrman.h:337-350 | The first entries get ids 0, 1, ... and matching address and random-order entries |
| `AddrStorage.LoadTried` | src/addrman.h:351-370 | Of a file written from consistent tables no tried entry is lost for lack of room |
| `AddrStorage.LoadBuckets` | src/addrman.h:371-385 | The buckets hold exactly the named ids and the reference counts are recounted |
| `AddrStorage.Load` | src/addrman.h:328-385 | Loading what was saved loses nothing (nLost is 0), keeps every persisted field and every bucket as a set, and satisfies the invariant again |
| `AddrStorage.SaveThenLoad` | src/addrman.h:289-385 | A second manager with the same key, refilled from the saved file, loses nothing and holds the same entries in the same buckets, under new ids |
| `AddrStorage.Rebuilt` | src/addrman.h:270-280 | The four indexes that the file leaves out are determined by what it holds |
| `Bignum.MpiRoundTrip` | src/bignum.h:294-319 | Reading back the length-prefixed sign-and-magnitude bytes of a number gives the number |
| `Bignum.PaddedTop` | src/bignum.h:294-319 | The bytes denote the magnitude, keep the sign bit free and waste none |
| `Bignum.GetVch` | src/bignum.h:309-319 | The fewest little-endian bytes that denote the number, with the sign in the top bit of the last one; none for zero |
| `Bignum.SetVch` | src/bignum.h:294-306 | The number that little-endian bytes with a sign bit denote, needless bytes included |
| `Bignum.ThroughVch` | src/bignum.h:294-319 | Writing a number and reading it back gives the number |
| `Bignum.VchRoundTripIff` | src/bignum.h:294-319 | Reading bytes and writing the number gives the bytes back iff they are the fewest |
| `BignumWords.SetInt64` | src/bignum.h:165-208 | Every 64-bit integer, the smallest included, becomes the big number of the same value |
| `BignumWords.SetUint256` | src/bignum.h:250-276 | Every 256-bit integer becomes the big number of the same value |
| `BignumWords.GetUint256` | src/bignum.h:278-291 | The magnitude modulo 2^256, hence the magnitude itself when it fits |
| `BignumWords.RoundTrip256` | src/bignum.h:250-291 | Setting and getting a 256-bit integer gives it back |
| `BignumWords.SignedBodyMeans` | src/bignum.h:184-207 | The emitted bytes denote the value, with the sign in a free top bit or in an extra byte |
| `CompactTarget.SetCompact` | src/bignum.h:321-331 | The number that a 32-bit compact value denotes |
| `CompactTarget.GetCompact` | src/bignum.h:333-344 | The length byte and the three leading bytes of the number |
| `CompactTarget.DecodedIsTruncated` | src/bignum.h:321-344 | Decoding the compact form clears all but the three leading bytes |
| `CompactTarget.LossBound` | src/bignum.h:321-344 | The decoded value is at most n and, for n > 0, short of it by less than n/2^15 |
| `CompactTarget.CompactMonotone` | src/bignum.h:321-344 | Larger targets never decode to smaller ones |
| `CompactTarget.CompactIdempotent` | src/bignum.h:321-344 | Compacting a decoded compact value gives the same compact value |
| `CompactTarget.ClampedStaysBelow` | src/main.cpp:1654-1657 | A target clamped to the limit still decodes to at most the limit |
| `Retarget.GetPrevBlockIndex` | src/main.cpp:1522-1538 | The n-th earlier block of the type, or none |
| `Retarget.BehindCounts` | src/main.cpp:1522-1538 | It is of the type with exactly n of the type after it, and there is none iff there are too few |
| `Retarget.LongWindow` | src/main.cpp:1611-1620 | Walking 5 and then 15 same-type blocks ends exactly 20 behind |
| `Retarget.NewTargetBounds` | src/main.cpp:1622-1657 | The new target lies between min(limit, floor(old*4363/4800)) and min(limit, floor(old*5760/4800)) |
| `Retarget.NewTargetMonotone` | src/main.cpp:1622-1657 | It is monotone in both measured timespans |
| `Retarget.OnScheduleUnchanged` | src/main.cpp:1622-1657 | It is the old target when both windows are on schedule |
| `Retarget.GetNextTargetRequired` | src/main.cpp:1540-1670 | The compact form of the target required by the lemmas below |
| `Retarget.WindowsDecide` | src/main.cpp:1611-1657 | With enough blocks of the type past the fork, the target required in closed form from the times of the last one, the fifth and the twentieth before it |
| `Retarget.OnScheduleRequired` | src/main.cpp:1611-1657 | With both of these windows on schedule the old target is required again |
| `Retarget.LongOnSchedule` | src/main.cpp:1611-1657 | With the long window on schedule the result depends on the fifth block before the last, in closed form |
| `Retarget.ShortOnSchedule` | src/main.cpp:1611-1657 | With the short window on schedule the result depends on the twentieth block before the last, in closed form |
| `Retarget.LegacyRequired` | src/main.cpp:1556-1595 | Before the fork the target required in closed form from the last two blocks of the type; 120 seconds apart leave it unchanged |
| `Retarget.TooFewBlocks` | src/main.cpp:1544-1620 | With too few blocks of the type the limit is required, or the first work target after the fork |
| `Retarget.RequiredWithinLimit` | src/main.cpp:1540-1670 | What is required never exceeds the limit of the block type |
| `Base58.EncodeBase58` | src/base58.cpp:106-138 | The whole conversion in place computes the encoding |
| `Base58.MulAdd` | src/base58.cpp:119-123 | One pass over the digit buffer multiplies it by a number and adds another, up to a final carry |
| `Base58.Pour` | src/base58.cpp:114-126 | The buffer of n*138/100+1 digits ends up denoting the bytes; the assert on the carry holds |
| `Base58.DigitsSuffice` | src/base58.cpp:114-114 | A buffer of n*138/100+1 base-58 digits holds every number of n bytes |
| `Base58.NoCarry` | src/base58.cpp:117-124 | Nothing is ever left to carry out of a buffer that is large enough |
| `Base58.DecodeBase58` | src/base58.cpp:22-70 | The decoding of text with spaces around it, or none for any other character |
| `Base58.DecodeDigits` | src/base58.cpp:37-53 | Accumulating digits gives the number of the longest digit prefix, refused unless only spaces follow |
| `Base58.EncodedDecodes` | src/base58.cpp:22-138 | Decoding an encoding gives the bytes without leading zero bytes |
| `Base58.RoundTripIffNoLeadingZero` | src/base58.cpp:22-138 | So the round trip is exact iff there are no bytes or the first one is not zero |
| `Base58.EncodedDenotes` | src/base58.cpp:106-138 | The encoding consists of digits and denotes the same number |
| `Base58.DecodedEncodes` | src/base58.cpp:22-138 | Encoding a decoded digit string that does not start with the zero digit gives the string |
| `Base58.EncodeBase58Check` | src/base58.cpp:148-154 | The encoding of the bytes followed by their checksum |
| `Base58.DecodeBase58Check` | src/base58.cpp:156-172 | Decodes, and accepts iff the last four bytes are the checksum of the rest |
| `Base58.CheckRoundTripIff` | src/base58.cpp:148-172 | The checked round trip is exact iff the first byte, payload or checksum, is not zero |
| `Merkle.MerkleBlock.BuildMerkleTree` | src/main.h:843-860 | The flat vector is the concatenation of all rows and the result is the root, 0 for no transactions |
| `Merkle.MerkleBlock.BuildRow` | src/main.h:851-857 | One pass appends the parents of the last row |
| `Merkle.MerkleBlock.GetMerkleBranch` | src/main.h:862-876 | From a fresh or a cached tree, the siblings of the position row by row, also for a position past the end |
| `Merkle.CheckMerkleBranch` | src/main.h:878-891 | Hashes the branch onto the digest on the sides that the bits of the index give; 0 for index -1 |
| `Merkle.ProveInclusion` | src/main.h:843-891 | Building, branching and checking any transaction of any block meet at the root |
| `Merkle.BranchReachesRoot` | src/main.h:862-891 | Completeness: the branch of a leaf leads from it to the root, odd rows included |
| `Merkle.OnlyTheLeafReachesRoot` | src/main.h:862-891 | With an injective hash, a branch of the tree height reaches the root at an index iff it is that leaf with that branch |
| `Merkle.SameRootIff` | src/main.h:843-860 | With an injective hash, lists of one tree height have the same root iff they fill the bottom row of the full tree in the same way, the last entry of each odd row standing in for the missing one |
| `Merkle.SameRootAnyHeight` | src/main.h:843-860 | For lists of any two heights the roots agree iff the lower list fills its row as the row of that height in the higher tree does |
| `Merkle.SameRowSameRoot` | src/main.h:843-860 | The direction that needs no injectivity |
| `Merkle.PairAndItsDigest` | src/main.h:843-860 | The list of a pair and the list of the digest of that pair have the same root and different heights |
| `Merkle.RootDeterminesLeaves` | src/main.h:843-860 | Lists of equal length with equal roots are equal |
| `Merkle.RepeatedLastLeafKeepsRoot` | src/main.h:853-855 | The length matters: repeating the last leaf of any odd list of more than one leaf keeps the root |
| `Merkle.FlatTreeTop` | src/main.h:859-859 | The last entry of the flat vector is the root |
| `BlockAssembly.Measure` | src/miner.cpp:199-258 | The parents still in the pool, the listings under them, and the priority and fee rate a transaction is queued with |
| `BlockAssembly.CollectOne` | src/miner.cpp:195-259 | One pool transaction is passed over, queued, or put aside under exactly its unconfirmed parents |
| `BlockAssembly.Collect` | src/miner.cpp:193-259 | Every candidate is queued iff it has no parent in the pool, else put aside once; nobody is forgotten |
| `BlockAssembly.PopHeap` | src/miner.cpp:44-67 | The transaction taken is below no other under the current order |
| `BlockAssembly.Release` | src/miner.cpp:344-360 | Selecting a transaction queues exactly those whose last missing parent it was, once each, however many of its outputs they spend |
| `BlockAssembly.VisitOrphan` | src/miner.cpp:348-359 | An orphan leaves waiting on the first visit that empties its set and on no other |
| `BlockAssembly.AllReleased` | src/miner.cpp:344-360 | What is released is exactly what became ready |
| `BlockSelection.FetchInputs` | src/miner.cpp:311-315 | Succeeds iff every input is reachable through the test index; hands back what it holds |
| `BlockSelection.GetValueIn` | src/miner.cpp:317-317 | The inputs of a fetched transaction sum to the total its fee was computed from |
| `BlockSelection.CheckInputs` | src/miner.cpp:326-327 | Succeeds iff maturity, time stamps and running totals are fine |
| `BlockSelection.SpendInputs` | src/miner.cpp:326-329 | Succeeds iff every input is free of the chain and of the selection and none repeats; then the test index mirrors the selection with this transaction |
| `BlockSelection.ConnectToDraft` | src/miner.cpp:309-336 | A transaction joins the block iff it connects on top of it and stays below the signature budget; sums and test index follow |
| `BlockSelection.Consider` | src/miner.cpp:281-336 | A popped transaction joins iff it is within the limits and connects; the order switches to fees exactly when the priority space is used up |
| `BlockSelection.NextTransaction` | src/miner.cpp:271-361 | The popped transaction is one of highest rank; it is taken iff it is within the limits, connects on top of those taken before and stays below the signature budget, and the order turns to fees exactly when the priority space is used up; the queue again holds exactly the ready transactions not yet considered |
| `BlockSelection.SelectTransactions` | src/miner.cpp:254-361 | Terminates; the selection is what considering each ready candidate once, in the order of the queue, gives, and no candidate whose pool parents were all selected is passed over |
| `BlockSelection.CreateNewBlock` | src/miner.cpp:193-373 | Behind the coinbase stands exactly that selection: distinct candidates, parents first, sharing no input; the fees are the sum of theirs; size and signature budgets are never reached |
| `BlockSelection.PickOrder` | src/miner.cpp:261-276 | Among the ready transactions not popped before, the next one is worth most by value, age and size until the order turns to fees, and pays most per byte from then on; the other measure decides a draw |
| `BlockSelection.OrderTurnsOnce` | src/miner.cpp:256-307 | The order is by fees from the start when there is no priority space, and never turns back |
| `BlockSelection.EachWasTaken` | src/miner.cpp:271-307 | Each selected transaction was, when popped on top of those before it, within the size, not later than the clock nor, in a stake block, than the coinbase; in fee order one that pays less than the minimum fee went into the minimum size |
| `BlockSelection.LeftOut` | src/miner.cpp:271-361 | Each ready candidate that is not in the block was popped and, on top of a prefix of the block that has its parents, was over a limit or did not connect |
| `BlockSelection.NothingMoreConnects` | src/miner.cpp:271-361 | When the limits cannot bind, no ready candidate that was left out connects on top of the finished block |
| `BlockSelection.OneTransaction` | src/miner.cpp:193-373 | The block made from a pool of one transaction that spends mature, unspent, signed outputs, fits and pays the minimum fee is the coinbase and that transaction, and its fee is reported |
| `BlockSelection.NoDoubleSpend` | src/miner.cpp:326-329 | No selected transaction shares an input with another or repeats one |
| `BlockAccepted.NextConnects` | src/main.cpp:2152-2193 | Each selected transaction connects on top of those before it in the block |
| `BlockAccepted.SelectionConnects` | src/main.cpp:2142-2194 | All selected transactions connect in order against the database, with the fees the assembly reported |
| `BlockAccepted.AssembledBlockAccepted` | src/main.cpp:2125-2215 | A work block made of a selection, its coinbase within subsidy and fees, passes the modelled checks of connecting it |
| `Mining.MineBlock` | src/miner.cpp:118-395 | Assembling a work block on the best chain and adding it: the block holds the full selection, and becomes the best block unless it was known or fails a check that needs no context or is outside the model |
| `StakeModifier.GetLastStakeModifier` | src/kernel.cpp:26-37 | Modifier and time of the nearest block marked as generating, or failure iff there is none |
| `StakeModifier.LastGeneratedMeans` | src/kernel.cpp:26-37 | It is marked, and none after it is |
| `StakeModifier.GetStakeModifierSelectionInterval` | src/kernel.cpp:46-52 | The sum of all 64 sections |
| `StakeModifier.SectionMeans` | src/kernel.cpp:39-43 | A section is the whole part of 30240 / (189 - 2n) seconds, the last three times as long as the first |
| `StakeModifier.IntervalMeans` | src/kernel.cpp:138-154 | The stops of the rounds are one section apart, and the last is the last multiple of 480 seconds not after the block's time |
| `StakeModifier.CollectWindow` | src/kernel.cpp:141-146 | The blocks from the tip back to the first one before the window |
| `StakeModifier.WindowMeans` | src/kernel.cpp:141-146 | These are the last blocks of the chain, none older than the start, and the one before them is older |
| `StakeModifier.Sort` | src/kernel.cpp:148-149 | The sorted permutation of the candidates |
| `StakeModifier.SortedUnique` | src/kernel.cpp:149-149 | There is only one |
| `StakeModifier.SelectBlockFromCandidates` | src/kernel.cpp:58-97 | Selects iff a candidate is left: the first of least selection hash among the unselected ones not later than the stop, or the earliest unselected if none is |
| `StakeModifier.PickUnique` | src/kernel.cpp:58-97 | Each round has at most one right pick |
| `StakeModifier.PickIsStakeIff` | src/kernel.cpp:76-84 | A round picks a stake block iff some eligible one has a selection hash below 2^32 times that of each eligible work block (an earlier one wins a draw); the comment there says always |
| `StakeModifier.SelectRounds` | src/kernel.cpp:151-167 | Every round succeeds and picks a new block; bit r of the result is the entropy bit of pick r and higher bits are 0 |
| `StakeModifier.OneIsLeft` | src/kernel.cpp:155-161 | A candidate is left in each of min(64, candidates) rounds |
| `StakeModifier.ComputeNextStakeModifier` | src/kernel.cpp:112-196 | Succeeds iff a generating ancestor exists; repeats its modifier within the interval, else generates the one defined by window, rounds and entropy bits |
| `StakeModifier.NextModifierUnique` | src/kernel.cpp:112-196 | The next modifier depends on the chain alone, not on what else a node has indexed |
| `StakeModifier.AddToBlockIndex` | src/main.cpp:2767-2772 | Appending a block never fails here and stores what the computation on its ancestors finds |
| `StakeModifier.GenesisGenerated` | src/kernel.cpp:32-35 | The walk back always ends at a generating block |
| `StakeModifier.StoredModifier` | src/main.cpp:2767-2772 | Every stored modifier is that of the nearest self-or-ancestor marked as generating |
| `StakeModifier.ModifiersDetermined` | src/kernel.cpp:112-196 | Two nodes holding the same blocks hold the same modifiers and marks |
| `Bits.OrBitAbove` | src/kernel.cpp:163-163 | Or-ing in a bit above the others sets it and keeps them |
| `OrphanBlocks.OrphanPool.GetOrphanRoot` | src/main.cpp:1382-1396 | Terminates at the first held block of the chain of orphans |
| `OrphanBlocks.OrphanPool.WantedByOrphan` | src/main.cpp:1398-1404 | The parent of that block, which is not held |
| `OrphanBlocks.OrphanPool.PickChildless` | src/main.cpp:1412-1423 | The walk from a random orphan terminates at one that no other depends on |
| `OrphanBlocks.OrphanPool.PruneOrphanBlocks` | src/main.cpp:1407-1430 | Removes one orphan without dependents iff there are more than the limit; both indexes and the stakes follow |
| `OrphanBlocks.OrphanPool.AcceptBlock` | src/main.cpp:2977-3110 | Only called with a known parent; accepted iff new and the checks pass; a block refused after indexing stays in the index |
| `OrphanBlocks.OrphanPool.TryChildren` | src/main.cpp:3258-3273 | Each child is accepted or not by its checks, and forgotten: in the queue iff they pass, in the index iff they do not reject it |
| `OrphanBlocks.OrphanPool.ReleaseChildren` | src/main.cpp:3255-3275 | After one queue entry both indexes agree again, without its children |
| `OrphanBlocks.OrphanPool.ReleaseOrphans` | src/main.cpp:3252-3275 | Terminates; exactly the orphans with a queued parent were tried, each once and after its parent; queue, index and refused blocks are those the outcomes of their checks give, and no child of an accepted one is left behind |
| `OrphanBlocks.OrphanPool.ProcessBlock` | src/main.cpp:3170-3275 | Succeeds iff the block is new, its stake is not used again and the checks pass; a failure changes nothing but that a refused block stays indexed; an orphan is held and an unheld ancestor asked for; an accepted block releases exactly the orphans reached from it through accepted parents; the invariant, with at most limit + 1 orphans, is kept |
| `OrphanBlocks.ReleasedIffReached` | src/main.cpp:3252-3275 | The queue holds exactly the blocks reached from the first one through parents that pass; exactly the children of these were tried, and each is in the index iff it was not rejected |
| `OrphanBlocks.OrphanPool.HoldOrphan` | src/main.cpp:3223-3243 | The orphan and its stake enter; the block asked for is not held, and known only if the chain refused it |
| `OrphanBlocks.FromParentStep` | src/main.cpp:3255-3275 | Each queued block has its parent earlier in the queue |
| `OrphanBlocks.ChildOfRefused` | src/main.cpp:3170-3275 | A run that leaves an orphan held although its parent is known, and neither of them is looked at again when it comes once more |
| `LockedPages.LockedPageManager.LockRange` | src/allocators.h:44-64 | The histogram counts the new range too, and exactly the pages with a count are locked |
| `LockedPages.LockedPageManager.UnlockRange` | src/allocators.h:67-87 | Unlocking an outstanding range takes it out of every count; the assert never fires; pages are unlocked with their last range |
| `LockedPages.LockedPageManager.GetLockedPageCount` | src/allocators.h:90-94 | The number of locked pages; 0 iff nothing is outstanding |
| `LockedPages.TouchesPages` | src/allocators.h:47-51 | The loop visits exactly the pages that hold a byte of the range |
| `LockedPages.LockedIffHeld` | src/allocators.h:16-21 | A page is locked iff some outstanding range has a byte in it; none is once all are released |
| `LockedPages.HistogramDetermined` | src/allocators.h:16-21 | The histogram depends on the outstanding ranges alone, not on the order of locking and unlocking |
| `Denominations.GetDenominations` | src/darksend.cpp:1978-2015 | The bit mask of the denominations in use, 0 if any output has another value |
| `Denominations.MaskMeans` | src/darksend.cpp:1978-2015 | A mask other than 0 tells exactly which denominations occur; it is 0 iff there are no outputs or an odd one |
| `Denominations.SameMask` | src/darksend.cpp:1867-1867 | Nonzero masks agree iff the same denominations occur in both lists |
| `DarksendPool.Pool.SetNull` | src/darksend.cpp:382-409 | The session is gone and the pool idle |
| `DarksendPool.Pool.UpdateState` | src/darksend.h:402-417 | Never enters the error or success state on a masternode; the time moves iff the state does |
| `DarksendPool.Pool.IsCompatibleWithSession` | src/darksend.cpp:1873-1927 | A user joins iff the pool is free or takes entries of this denomination and has room; the first one opens the queue |
| `DarksendPool.Pool.CheckForCompleteQueue` | src/darksend.cpp:897-916 | A full queue, and nothing else, starts accepting entries |
| `DarksendPool.Pool.IsCompatibleWithEntries` | src/darksend.cpp:1854-1871 | True iff the outputs have a nonzero mask equal to that of every entry |
| `DarksendPool.Pool.AddEntry` | src/darksend.cpp:1016-1064 | Accepted iff amount, collateral and room are fine and no input is null or equal to one of an entry; a refusal costs a user; the invariant is kept |
| `DarksendPool.Pool.SubmitEntry` | src/darksend.cpp:183-276 | Accepted iff the session is full, the entry passes, its denominations are those of the others, there is room, and no input equals, in outpoint, script and sequence number, one of an entry; the third entry makes the final transaction |
| `DarksendPool.Pool.BuildFinalTransaction` | src/darksend.cpp:544-559 | Outputs and (prevout, nSequence) inputs of the final transaction are permutations of the entries' combined ones |
| `DarksendPool.Pool.Check` | src/darksend.cpp:524-583 | Three entries build the final transaction, complete signatures send it, and nothing else moves the state |
| `DarksendPool.Pool.CheckFinalTransaction` | src/darksend.cpp:585-660 | Success resets the pool, refusal reopens it empty, an unsigned relay leaves it waiting |
| `DarksendPool.Pool.SignaturesComplete` | src/darksend.cpp:1105-1113 | True iff every input of every entry is signed |
| `DarksendPool.AddSig` | src/darksend.h:129-143 | Succeeds iff the first input of this place is unsigned, and signs that one |
| `DarksendPool.Pool.AddScriptSig` | src/darksend.cpp:1066-1102 | Accepted iff valid, on no input yet and taken by some entry; then the first such entry is signed, no input moves and no two become equal |
| `DarksendPool.Pool.ReceiveSignatures` | src/darksend.cpp:305-327 | The entries are those after each signature in turn; if one was accepted and all inputs are signed the transaction goes out, is refused or waits |
| `DarksendPool.Pool.RemoveExpiredQueues` | src/darksend.cpp:838-846 | Exactly the expired announcements go |
| `DarksendPool.StaysIff` | src/darksend.h:217-220 | Of the announcements those at most 30 seconds old stay, each as often as it was there |
| `DarksendPool.Pool.RemoveExpiredEntries` | src/darksend.cpp:850-868 | Exactly the expired entries go; losing the last one ends the session |
| `DarksendPool.EntryStaysIff` | src/darksend.h:145-148 | Of the entries those at most 30 seconds old stay |
| `DarksendPool.Pool.CheckTimeout` | src/darksend.cpp:815-892 | A session of 30 seconds, or 15 in signing, is over; before that only expired entries leave, and in the other states nothing changes |
| `DarksendPool.PlacesShuffled` | src/darksend.cpp:556-558 | Shuffling inputs permutes what they spend |
| `DarksendPool.SameTotal` | src/darksend.cpp:547-558 | Permuted outputs pay out the same total |
| `DarksendPool.FinalPays` | src/darksend.cpp:544-559 | The final transaction pays out what the entries pay out together |
| `DarksendPool.SignedEntry` | src/darksend.cpp:1083-1098 | Signing with a new signature keeps entries disjoint and what the inputs spend |
| `PoolOutpoints.ApartAfterEntry` | src/darksend.cpp:1041-1054 | After an accepted entry all entries spend different outputs iff they did before and none of its inputs is an input of theirs under another script or sequence number |
| `PoolOutpoints.ApartAfterSig` | src/darksend.cpp:1066-1102 | Signatures do not change whether entries spend different outputs |
| `PoolOutpoints.FinalSpendsOnceIff` | src/darksend.cpp:544-559 | The final transaction spends no output twice iff the entries spend different outputs and none repeats one by itself |
| `PoolOutpoints.OneOutputTwice` | src/darksend.cpp:1041-1054 | A session in which two accepted entries spend one output, with different sequence numbers |
| `MasternodeRanks.MasternodeMan.Find` | src/masternodeman.cpp:338-348 | The masternode with this outpoint, iff there is one |
| `MasternodeRanks.MasternodeMan.Add` | src/masternodeman.cpp:194-208 | Appended iff its outpoint is new, so that outpoints stay distinct |
| `MasternodeRanks.MasternodeMan.GetMasternodeRank` | src/masternodeman.cpp:459-494 | The position in an order of the participating masternodes by descending score: greater than the number with a higher score, at most the number with no lower one; -1 iff the height is unknown or the masternode takes no part |
| `MasternodeRanks.MasternodeMan.GetMasternodeByRank` | src/masternodeman.cpp:613-643 | The masternode at that position: its rank is the one asked for; none iff there are fewer |
| `MasternodeRanks.RankedForMeans` | src/masternodeman.cpp:459-494 | Whichever way equal scores are ordered, a rank lies between the counts of higher and of not lower scores in the list |
| `MasternodeRanks.OrderUnique` | src/masternodeman.cpp:483-483 | When all scores differ there is only one order, so ranks are determined by the list |
| `InstantX.CountSignatures` | src/instantx.cpp:562-578 | The number of votes for the height of the lock; -1 while that is not known |
| `InstantX.InstantXState.CheckForConflictingLocks` | src/instantx.cpp:402-423 | Finds a conflict iff some input is locked by another transaction; then the locks of both expire now |
| `InstantX.InstantXState.CreateNewLock` | src/instantx.cpp:218-253 | Needs every input 9 deep; the height comes from the first input, and an existing lock keeps its votes |
| `InstantX.InstantXState.ProcessConsensusVote` | src/instantx.cpp:301-399 | A vote is added iff its masternode ranks in the top 15 and signed it; other locks keep their votes and heights; the state after it is given |
| `InstantX.InstantXState.CompleteLock` | src/instantx.cpp:363-392 | Found complete, a lock whose request was accepted takes its free inputs or expires with its rival; one whose request was rejected does nothing but record an empty request; there is always a request |
| `InstantX.SettledIff` | src/instantx.cpp:363-419 | A lock found complete holds its inputs or cancels out with its rival iff its request was accepted, or was rejected and it holds them all already |
| `InstantX.HeldIffNoConflict` | src/instantx.cpp:103-107 | A rejected request ends up holding all inputs iff each was free or its own |
| `InstantXExamples.TwoCompleteLocks` | src/instantx.cpp:93-110 | A run ending in two complete locks on one input that both stay: the second request was rejected and its votes came afterwards |
| `InstantXExamples.RequestAfterVotes` | src/instantx.cpp:73-91 | A run in which an accepted request finds its lock complete and the lock holds nothing |
| `InstantX.InstantXState.ReceiveVote` | src/instantx.cpp:127-141 | A second vote with the same id changes nothing, whatever function of masternode and transaction the id is; every lock keeps one vote per masternode |
| `InstantX.InstantXState.ReceiveRequest` | src/instantx.cpp:40-126 | Accepted and rejected requests are kept apart; only a rejected one locks inputs, and only free ones, and only it makes a complete lock in conflict expire |
| `InstantX.InstantXState.CleanTransactionLocksList` | src/instantx.cpp:440-469 | Exactly the expired locks go, and with those of accepted requests the requests and their inputs, whoever holds these |
| `InstantX.InstantXState.RemoveLock` | src/instantx.cpp:447-463 | With the lock of an accepted request go its inputs, requests and vote ids; inputs taken by a rejected request stay locked; votes of other locks stay known |
| `InstantX.CompleteLockHasQuorum` | src/instantx.cpp:301-363 | A complete lock has at least 10 distinct voters, all in the top 15 of its height |
| `InstantX.VotersAreRanked` | src/instantx.cpp:316-330 | When the order is that of the masternode list, each counted voter is listed and enabled, and fewer than 15 masternodes score higher |
| `InstantX.InQuorumIff` | src/instantx.cpp:298-323 | A masternode is of the top 15 iff it is one of the first 15 in the order |
| `InstantX.EnoughBelow` | src/instantx.cpp:298-323 | A listed, enabled masternode such that at most 15, itself included, do not score below it is of the top 15 |
| `InstantX.CompleteLocksOverlap` | src/instantx.cpp:301-363 | Any two complete locks of one height share at least 5 voters |
| `InstantX.TopSize` | src/main.h:35-36 | At most 15 masternodes are in the top 15 |

## Left out

- Networking, message parsing, peers, relay, misbehaviour scores and user-interface signals.
- The disk formats of blocks and of LevelDB, and failing reads or commits: reads of stored blocks succeed and a commit is atomic.
- OpenSSL, secp256k1, NeoScrypt, AES and SHA; signatures and proofs are outcomes left open.
- Script evaluation, wallet code, sporks and serialization.
- The masternode payee checks inside ConnectBlock and the coin-age computation; the stake-reward bound alone is modelled.
- The just-check mode of ConnectBlock, the address index, and the memory pool's part in reorganisations.
- The test network's subsidies and limits.
- Loading an address file written with another number of new buckets (src/addrman.h:345-349): such files are rebuilt from scratch buckets.
- AddrStorage.Load: files that Save did not write, in which a tried bucket may overflow or an index be out of range, are not covered.
- Select_ and GetChance of the address manager: floating-point chances only.
- The second algorithm in DecodeBase58 (src/base58.cpp:71-103), which is never reached.
- Base58.DecodeBase58: strings with an embedded zero character are excluded, since the code sees a C string that ends there.
- Merkle.MerkleBlock.GetMerkleBranch: negative positions are excluded, since they would index outside the tree.
- BlockAssembly.Collect: a candidate with a missing input is excluded, as the code's own comment and assertion do (src/miner.cpp:210-216).
- BlockSelection.CreateNewBlock: the coinbase value, the header fields and the computation of the size limits from options are not modelled; the memory pool is taken to hold nothing that is already in the chain.
- BlockAssembly.PopHeap: the order among entries that compare equal, which the heap decides, is left open; priorities are exact reals, not doubles.
- BlockAccepted.AssembledBlockAccepted: is about proof-of-work blocks; a proof-of-stake block gets its coinstake elsewhere.
- Kernel hashes and coin-stake target checks in src/kernel.cpp, after the modifier.
- OrphanBlocks.OrphanPool.AcceptBlock: the outcome of the checks is a parameter; chain effects of acceptance are those of ChainState.
- ChainState.Chain.AddToBlockIndex: while the disk is behind the best chain in memory, only children of the best block in memory are covered; a reorganisation from that state is not.
- LockedPages.LockedPageManager.LockRange: a system lock that fails is not modelled (its result is ignored by the code), and counts do not overflow.
- DarksendPool.Pool.AddScriptSig: does not model the script check of a signature; the final transaction may end up with another signature than the entries when a second one for the same input passes that check, so only what inputs spend is tracked.
- DarksendPool.Pool.SubmitEntry: value, fee and script checks of the entry are one outcome; fee charging and client-side states are not modelled.
- InstantX.InstantXState.ReceiveVote: the rate limit on votes for unknown transactions, which only affects relaying, is not modelled.
- InstantX.InstantXState.ReceiveRequest: block disconnection after a conflict is not modelled, as the code calls it on values it never sets.
- InstantX.CompleteLocksOverlap: holds for a ranking that stays fixed at the height, as masternodes that join or leave may change it.
- src/mruset.h, src/limitedmap.h, src/coincontrol.h, src/keystore.cpp, src/checkpoints.cpp: small containers and lookups.
