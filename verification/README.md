# DIVI node verification

A Dafny model of the parts of the DIVI proof-of-stake node that keep state over many calls, and
proofs of what they guarantee for every input, every run and every random draw. Hashes, scripts,
signatures, the curve, clocks, the network and the database engine are parameters: functions or
sequences of values about which nothing, or only what is written down, is assumed.

## The parts

- **Coins** (`Coins`, `CoinsCache`, `CacheStack`): the stack of write-back caches with DIRTY and
  FRESH flags over the coin database agrees with one flat map.
- **Blocks** (`UtxoUpdate`, `MoneySupply`, `BlockConnection`, `Solvency`, `Reorganisation`, `Redo`):
  applying and taking back transactions and blocks on that stack, the exact condition under which
  taking back restores the view, why every accepted block meets it, the conservation of value, and a
  money supply that never exceeds the rewards, on every chain.
- **Storage of coins** (`VarInt`, `CoinsCodec`): the compressed record and its round trip.
- **Check queue** (`CheckQueue`): the master and worker protocol as a state machine whose steps are
  the sections between lock operations; safety and progress of every interleaving.
- **Address manager** (`AddrManSpec`, `AddrManOps`, `AddrManEffects`, `AddrMan`, `AddrManCheck`,
  `AddrManCodec`, `AddrManReload`, `AddrManDisk`): five indexes kept consistent by every run, what each
  operation does to the entries, an object with its
  bucket arrays that computes the same states in place, its debugging check, saving and loading up
  to renumbering, and what loading into a manager in use does.
- **Block assembly** (`BlockAssembly`, `AssemblyOrder`): the loop is a greedy run over the entries of
  the pool, which without ties has one result; **coin selection** (`CoinSelection`).
- **Wire framing** (`WireFraming`): partial writes at one end, arbitrary chunks at the other.
- **Numbers** (`Basics`, `Arithmetic`, `Limbs`, `ArithUint`, `ArithShift`, `ArithDivide`, `ArithCompact`,
  `Positional`, `Base58`): limb arithmetic of any width, compact targets, base58.
- **Block tree** (`BlockTree`, `MedianTime`, `Bip9`, `Bip9Timeline`): skip list, active chain,
  locators, median time, the cached activation states of BIP 9 and their closed form.
- **Superblocks** (`Superblocks`, `SubsidyShares`, `Lottery`): treasury and lottery schedule, payouts,
  shares and winners.

Code that updates things in place is a class or a method with loops, proved equal to a function;
what the code promises is then proved of that function.

## Where the code falls short of what one would expect

Each of these has a counterexample or an exact condition in the model.

- Reversal does not restore the coinstake flag of an emptied record (`StakeFlagIsLost`,
  `ForgetIsIdentity`, `BlockRoundTrip`). It also takes height zero for missing metadata, which does
  no harm because no record has height zero (`GenesisSpendIsUnclean`, `ConnectKeepsHeights`).
- Therefore a reorganisation that takes back a coinstake together with the block that emptied it
  fails. It can be one block deeper than the maturity (`DeepReorganisationFails`,
  `ReorganisationIff`, `ShallowReorganisationIsClean`).
- Clearing an address manager leaves two of its maps as they are. Loading into a manager that was in
  use is right only in the case that `ReloadIsValidIff` names (`ReloadWitness`).
- The first treasury, charity and lottery payouts also pay for blocks that had no share
  (`FirstTreasuryPayout`, `FirstPayoutBeforeHalving`, `FirstLotteryPayout`).
- A valid lottery payment may leave out a winner who is owed the same output as another
  (`UnpaidWinner`, `EveryWinnerIsPaidIff`).
- With cycles that are not coprime some early heights are both kinds of superblock, and then the
  treasury is paid (`BothOnRegtest`, `BothIff`).
- A number multiplied by itself in place becomes zero (`MulAssign`, `SquareIsLost`).
- A coin record with a negative version does not survive storage (`StoredRoundTrip`,
  `NegativeVersionIsLost`).

The code is followed where comments disagree with it. The table in serialize.h:491-496 gives other
bytes than the code for 16511 and 65535 (`KnownVarInts`). The bits named in coins.h:33-39 leave out
the coinstake flag, which moves the two bits for the first outputs up by one (`HeaderBits`).

## Model

| member | source | states |
|---|---|---|
| `Coins.DropNullsUnique` | divi/src/coins.cpp:47-52 | Dropping the null outputs at the end is the only way to shorten the vector to one that ends in an unspent output |
| `Coins.FromTxTidy` | divi/src/coins.cpp:29-61 | The record made from a transaction has canonical null outputs and ends in an unspent one |
| `Coins.SpentCoinsTidy` | divi/src/coins.cpp:119-135 | Spending an output keeps a record tidy |
| `Coins.ClearUnspendableIdempotent` | divi/src/coins.cpp:54-61 | Clearing what can never be spent changes nothing the second time |
| `Coins.Spend` | divi/src/coins.cpp:119-135 | Fails exactly if the output is not available; otherwise gives the record without it and the undo record, with metadata only when the record is emptied |
| `CoinsCache.WriteEntryRefines` | divi/src/coins.cpp:260-295 | Moving one entry of a child cache into its parent leaves what the child sees unchanged and keeps the flags of both truthful; an entry unknown to the parent is FRESH |
| `CoinsCache.WriteToDbRefines` | divi/src/txdb.cpp:47-53 | Writing one entry to the database leaves what the cache above it sees unchanged |
| `CoinsCache.ReleasedRefines` | divi/src/coins.cpp:364-372 | Ending a modification changes the visible map at that key and nowhere else, whether the entry is dropped or kept |
| `CoinsCache.WriteEntryLevelOk` | divi/src/coins.cpp:260-295 | FRESH still means that the level below has nothing unspent after an entry is merged |
| `CoinsCache.CoinsViewDB.BatchWrite` | divi/src/txdb.cpp:82-101 | Exactly the dirty entries reach the database: unspent ones replace what is stored, spent ones erase it, and everything else stays |
| `CoinsCache.CoinsViewCache.FetchCoins` | divi/src/coins.cpp:181-197 | Fetching into the cache does not change what is visible, at this level or below |
| `CoinsCache.CoinsViewCache.GetCoins` | divi/src/coins.cpp:199-207 | Gives the record of the visible map, and a spent record only if there is none |
| `CoinsCache.CoinsViewCache.HaveCoins` | divi/src/coins.cpp:238-246 | True exactly if the visible map has the transaction |
| `CoinsCache.CoinsViewCache.ModifyCoins` | divi/src/coins.cpp:209-226 | Hands out the visible record, marked DIRTY, without changing what is visible |
| `CoinsCache.CoinsViewCache.Release` | divi/src/coins.cpp:358-372 | Puts the cleaned-up record into the visible map, or removes it if it is spent |
| `CoinsCache.CoinsViewCache.BatchWrite` | divi/src/coins.cpp:260-295 | Takes in a child cache: afterwards the visible map is what the child saw; the assertion on FRESH never fires |
| `CoinsCache.CoinsViewCache.Flush` | divi/src/coins.cpp:297-302 | Empties the cache, moves its contents down and leaves the visible map as it was |
| `CacheStack.Step` | divi/src/coins.cpp:181-302 | One operation on a stack of caches does to the pair of maps what it does to one flat map |
| `CacheStack.Run` | divi/src/coins.cpp:181-302 | Any sequence of reads, modifications, flushes and nested caches gives the answers and the final contents of one flat map |
| `UtxoUpdate.RestoreSpent` | divi/src/UtxoCheckingAndUpdating.cpp:59-88 | Restoring a spent output gives the record back, but for the coinstake flag of an emptied record; it fails exactly if the emptied record has height zero |
| `UtxoUpdate.RestoreAllInverts` | divi/src/UtxoCheckingAndUpdating.cpp:59-110 | Restoring all inputs in reverse order undoes spending them, also with several inputs from one source |
| `UtxoUpdate.ReverseTxInverts` | divi/src/UtxoCheckingAndUpdating.cpp:90-110 | Reversing a transaction reports clean exactly in the cases named and then gives the view before it, but for lost coinstake flags |
| `UtxoUpdate.DisconnectInverts` | divi/src/ActiveChainManager.cpp:90-108 | The same for a whole block, from a view in which some flags are already lost |
| `UtxoUpdate.ReversibleIff` | divi/src/ActiveChainManager.cpp:90-108 | A block can be taken back cleanly if and only if no emptied record has height zero and none is a coinstake made in the block itself |
| `UtxoUpdate.BlockRoundTrip` | divi/src/ActiveChainManager.cpp:66-122 | Connecting a block and disconnecting it with its undo data reports clean exactly if no record was emptied badly, and restores every output, height, version and coinbase flag |
| `UtxoUpdate.ForgetIsIdentity` | divi/src/UtxoCheckingAndUpdating.cpp:65-74 | Nothing is lost exactly if no emptied record was a coinstake |
| `UtxoUpdate.StakeFlagIsLost` | divi/src/UtxoCheckingAndUpdating.cpp:65-74 | A coinstake whose payment was spent keeps its empty first output; when that is spent too, reversing the block reports clean and does not give the flag back |
| `UtxoUpdate.GenesisSpendIsUnclean` | divi/src/UtxoCheckingAndUpdating.cpp:65-74 | A record of height zero, which no view holds, could not be restored: height zero doubles as no metadata |
| `UtxoUpdate.ConnectKeepsHeights` | divi/src/main.cpp:1060-1065 | Connecting a block above genesis keeps all heights between one and its own, so no record has height zero |
| `UtxoUpdate.CheckedInputsCanBeSpent` | divi/src/UtxoCheckingAndUpdating.cpp:15-29 | Inputs that are all available and different can be spent one after the other |
| `UtxoUpdate.BlockUndoFits` | divi/src/BlockTransactionChecker.cpp:61-85 | The undo data of a block has one record per input of every transaction |
| `MoneySupply.ApplyTxValue` | divi/src/TransactionInputChecker.cpp:41-59 | A transaction changes the total unspent value by what it mints less the value of its unspendable outputs |
| `MoneySupply.ValueIsConserved` | divi/src/BlockTransactionChecker.cpp:56-87 | Over a block the unspent value changes by the change of the money supply less the unspendable outputs, and the minted amount is what coinbase and coinstake create |
| `BlockConnection.UpdateCoinsWithTransaction` | divi/src/UtxoCheckingAndUpdating.cpp:15-29 | On the cache stack: spends the inputs, records the undo data, adds the outputs |
| `BlockConnection.RemoveTxOutputsFromCache` | divi/src/UtxoCheckingAndUpdating.cpp:31-57 | Removes the outputs and says whether they were as the transaction made them |
| `BlockConnection.RestoreInputs` | divi/src/UtxoCheckingAndUpdating.cpp:59-110 | Restores the inputs from last to first and says whether the undo data fitted |
| `BlockConnection.UpdateCoinsReversingTransaction` | divi/src/UtxoCheckingAndUpdating.cpp:90-110 | The four outcomes, and the view when the outcome is clean |
| `BlockConnection.CheckTxReversalStatus` | divi/src/ActiveChainManager.cpp:45-64 | Going on and staying clean, for each outcome |
| `BlockConnection.DisconnectBlock` | divi/src/ActiveChainManager.cpp:66-122 | Aborts exactly if the undo data does not fit; otherwise the clean flag and the view are those of the block taken back |
| `BlockConnection.HaveAllInputs` | divi/src/coins.cpp:328-340 | True exactly if every input is available |
| `BlockConnection.CheckInputs` | divi/src/UtxoCheckingAndUpdating.cpp:128-196 | Accepts exactly the acceptable transactions (`AcceptableIff` says which these are), and reports fee and input value |
| `BlockConnection.CheckAndApply` | divi/src/BlockTransactionChecker.cpp:61-85 | One round of the block loop, whatever the remaining checks say: acceptance, supply records, view and undo record |
| `BlockConnection.Check` | divi/src/BlockTransactionChecker.cpp:56-87 | Accepts a block exactly if every transaction is acceptable where it stands and passes the remaining checks; then view, undo data and supply records are those of the specification |
| `BlockConnection.ConnectAndDisconnect` | divi/src/BlockTransactionChecker.cpp:56-87 | Both loops one after the other: the exact condition for a clean reversal, which every accepted block above genesis meets, and the view it restores |
| `BlockConnection.AcceptedBlockIsReversible` | divi/src/UtxoCheckingAndUpdating.cpp:166-181 | With a maturity of at least one, an accepted block empties no record of height zero and no coinstake of its own |
| `BlockConnection.ChainViewOk` | divi/src/main.cpp:1044-1065 | Every chain of accepted blocks leaves a tidy view with heights from one to its own |
| `BlockConnection.TipCanBeDisconnected` | divi/src/ActiveChainManager.cpp:66-122 | The last block of every such chain can be taken back cleanly, and only coinstake flags of emptied records are lost |
| `Solvency.AcceptableIff` | divi/src/UtxoCheckingAndUpdating.cpp:141-201 | What is accepted: a coinbase, or inputs that are all there, mature and in range, with a total in range that, but for a coinstake, covers the outputs |
| `Solvency.AcceptedCreatesNothing` | divi/src/UtxoCheckingAndUpdating.cpp:186-201 | An accepted transaction that is neither coinbase nor coinstake creates nothing; its fee is not negative and in range |
| `Solvency.NoInflation` | divi/src/BlockTransactionChecker.cpp:56-87 | An accepted block changes the unspent value by what its coinbase and coinstake create, less fees and less what no one can spend, neither of which is negative |
| `Solvency.ChainIsSolvent` | divi/src/BlockTransactionChecker.cpp:56-87 | On every chain of accepted blocks the recorded money supply is the value of all unspent and unspendable outputs, and at most what coinbases and coinstakes created |
| `Redo.ReverseThenApply` | divi/src/UtxoCheckingAndUpdating.cpp:90-110 | For any view and undo data: a transaction that is taken back cleanly can be applied again and gives the view there was |
| `Redo.DisconnectThenConnect` | divi/src/ActiveChainManager.cpp:66-122 | The same for a block: whatever reports clean is undone by connecting the block again |
| `Redo.ConnectKeepsPlain` | divi/src/UtxoCheckingAndUpdating.cpp:15-29 | Views that are connected hold no output that no one can spend |
| `Reorganisation.ReorganisationIff` | divi/src/main.cpp:1442-1450 | Taking back the last blocks of a chain is clean if and only if no coinstake made in them is emptied by a later one of them; then the view before them comes back, but for lost flags |
| `Reorganisation.RewardStays` | divi/src/UtxoCheckingAndUpdating.cpp:171-178 | The record of a coinbase or coinstake stays whole, with its flags and height, in the view of every chain as long as it is immature |
| `Reorganisation.RewardIsNotSpent` | divi/src/UtxoCheckingAndUpdating.cpp:166-178 | No transaction of a later block of any chain spends a coinbase or coinstake before its maturity |
| `Reorganisation.ShallowReorganisationIsClean` | divi/src/main.cpp:1442-1450 | A reorganisation no deeper than the maturity is always clean |
| `Reorganisation.DeepReorganisationFails` | divi/src/ActiveChainManager.cpp:90-115 | With maturity one, three accepted blocks of which the last two cannot be taken back |
| `CheckQueue.StepKeepsInv` | divi/src/checkqueue.h:69-127 | Every atomic step keeps the counters exact: work to do is the queue plus all batches in progress |
| `CheckQueue.RunKeepsInv` | divi/src/checkqueue.h:69-169 | The invariant holds after every interleaving of one master and any number of workers |
| `CheckQueue.EnabledIsSteppable` | divi/src/checkqueue.h:105-117 | No step of any run fails: batch sizes are computed from positive counters |
| `CheckQueue.BatchIsFair` | divi/src/checkqueue.h:105-111 | A batch is larger than one check only within a fair share of the queue, and smaller than allowed only if the share is |
| `CheckQueue.WaitIsCorrect` | divi/src/checkqueue.h:91-143 | When the wait returns, nothing is queued or in progress, its result is the conjunction of all checks added since the last wait, and the queue is idle |
| `CheckQueue.IdleWhenNothingAdded` | divi/src/checkqueue.h:164-190 | With nothing added since the last wait the queue is idle |
| `CheckQueue.IdleIff` | divi/src/checkqueue.h:164-168 | The queue is idle exactly if nothing is queued or in progress and no check has failed since the last wait |
| `CheckQueue.BlockedMasterIsOwedABatch` | divi/src/checkqueue.h:91-104 | Whenever the master blocks, some worker holds an unfinished batch |
| `CheckQueue.NeverStuck` | divi/src/checkqueue.h:69-127 | While the master waits, some step that is not a spurious wake-up is possible |
| `CheckQueue.StepsMakeProgress` | divi/src/checkqueue.h:69-127 | Every such step decreases a well-founded measure |
| `CheckQueue.MeasureIsNatural` | divi/src/checkqueue.h:69-127 | The parts of the measure are never negative |
| `CheckQueue.SpuriousSetsNothingBack` | divi/src/checkqueue.h:91-104 | A wake-up without notification does not raise the measure, unless it makes the master leave |
| `CheckQueue.WaitEnds` | divi/src/checkqueue.h:69-143 | In every run of a waiting master the steps that are not spurious wake-ups are at most a number computed from the state it starts in, and another one is possible until it returns |
| `AddrManSpec.CreatedOk` | divi/src/addrman.cpp:89-99 | A new entry is consistent with all five indexes and waits for its first reference |
| `AddrManSpec.SwappedOk` | divi/src/addrman.cpp:101-119 | Swapping two places of the random vector keeps everything consistent |
| `AddrManSpec.DeletedOk` | divi/src/addrman.cpp:121-133 | Deleting an unreferenced entry keeps everything else consistent |
| `AddrManSpec.UnreferencedOk` | divi/src/addrman.cpp:135-148 | Taking out one reference keeps counts and tables exact |
| `AddrManSpec.EvictedOk` | divi/src/addrman.cpp:175-178 | An entry taken out of the tried table is consistent but for its missing reference |
| `AddrManSpec.PromotedOk` | divi/src/addrman.cpp:191-195 | An entry put into its tried slot is consistent |
| `AddrManOps.DereferencedOk` | divi/src/addrman.cpp:152-162 | Taking an entry out of every bucket leaves it with no reference |
| `AddrManOps.DemotedOk` | divi/src/addrman.cpp:168-190 | The entry that held the tried slot is back in the new table with one reference |
| `AddrManOps.MadeTriedOk` | divi/src/addrman.cpp:150-196 | Moving an entry to the tried table keeps the manager valid |
| `AddrManOps.AfterGoodOk` | divi/src/addrman.cpp:198-245 | A known address that is good ends up tried, and the manager stays valid |
| `AddrManOps.NewEntryHasABucket` | divi/src/addrman.cpp:224-239 | A new entry is in some bucket, so the exit for none found is never taken |
| `AddrManOps.AfterAddOk` | divi/src/addrman.cpp:247-313 | Adding an address keeps the manager valid |
| `AddrManEffects.PlacedIs` | divi/src/addrman.cpp:291-312 | A contested slot goes to the newcomer exactly if its holder is terrible, or has other slots and the newcomer none; the loser keeps its other slots or is forgotten, and no one else changes |
| `AddrManEffects.AnswerIsNew` | divi/src/addrman.cpp:247-313 | True exactly for an address that is routable and was not known |
| `AddrManEffects.NewAddressIsAdded` | divi/src/addrman.cpp:284-312 | A new address gets its slot, with what is recorded of it, exactly if the slot is free or yielded; otherwise nothing remains of it |
| `AddrManEffects.KnownAddressIsRenewed` | divi/src/addrman.cpp:256-312 | A known address is never forgotten; services and time are renewed, and it gets one more slot exactly under the conditions named |
| `AddrManEffects.RefreshedIs` | divi/src/addrman.cpp:258-265 | The recorded time moves exactly if it is more than an hour behind, or a day for addresses not seen today, and never back |
| `AddrManEffects.HealthyEntryStays` | divi/src/addrman.cpp:291-312 | An entry that is not terrible outlives every announcement of any address |
| `AddrManEffects.GoodMovesToTried` | divi/src/addrman.cpp:150-245 | A known address moves to its tried slot and is recorded as reached; who had the slot goes back to the new table, and takes one reference from the holder there |
| `AddrManEffects.GoodAgain` | divi/src/addrman.cpp:213-222 | An address that is tried already is recorded as reached and stays where it is |
| `AddrManEffects.TerribleIff` | divi/src/addrman.cpp:34-53 | When an entry is terrible |
| `AddrManEffects.ThreeAttemptsInVain` | divi/src/addrman.cpp:315-332 | An address that never worked is terrible a minute after the third attempt, and not before the third |
| `AddrManEffects.GoodIsNotTerrible` | divi/src/addrman.cpp:198-222 | After a success an address is not terrible while it was seen lately, nor within a minute |
| `AddrManEffects.ConnectedKeepsTime` | divi/src/addrman.cpp:472-490 | The recorded time is never more than twenty minutes behind, and moves only when it is |
| `AddrManOps.GetAddrLimitIs` | divi/src/addrman.cpp:453-455 | The limit of a sample is 23 percent, rounded down, and at most 2500 |
| `AddrManOps.EveryPositionIsDrawn` | divi/src/addrman.cpp:462 | Every place from the current one on can be drawn |
| `AddrManOps.SampledOk` | divi/src/addrman.cpp:451-470 | Sampling addresses only reorders the random vector; it collects addresses of different entries, none of them terrible, up to its limit, and falls short of it only if there are no more |
| `AddrManOps.AfterOpOk` | divi/src/addrman.cpp:89-313 | Every operation keeps the manager valid |
| `AddrManOps.AfterRun` | divi/src/addrman.cpp:89-313 | After any run from an empty manager, for all hashes, draws and positive times, the manager is valid |
| `AddrManOps.ValidPassesCheck` | divi/src/addrman.cpp:374-448 | A valid manager passes the debugging check of the source |
| `AddrManOps.ValidIffChecked` | divi/src/addrman.cpp:375-449 | A manager with a key is valid exactly if the debugging check passes, ids and buckets are in bounds, and no address is listed astray |
| `AddrManCheck.CheckInfos` | divi/src/addrman.cpp:382-406 | The pass over the entries: zero exactly if all pass, and then the ids of either kind; a missing address is inserted with zero |
| `AddrManCheck.CheckTriedTable` | divi/src/addrman.cpp:413-425 | Nothing is left to cross off exactly if every tried entry is in exactly one slot, and the right one |
| `AddrManCheck.CheckNewTable` | divi/src/addrman.cpp:427-438 | Nothing is left to cross off exactly if every new entry is in as many right slots as its reference count |
| `AddrManCheck.Check_` | divi/src/addrman.cpp:374-448 | The debugging check returns zero exactly for the states the specification lets pass, and changes nothing in a consistent manager |
| `AddrMan.AddrMan.constructor` | divi/src/addrman.h:428-451 | A new manager is empty |
| `AddrMan.AddrMan.Clear` | divi/src/addrman.h:428-446 | Empties vector, tables and counters in place and keeps the two maps |
| `AddrMan.AddrMan.Create` | divi/src/addrman.cpp:89-99 | In place: computes the state of the specification |
| `AddrMan.AddrMan.SwapRandom` | divi/src/addrman.cpp:101-119 | In place, with its assertions: computes the state of the specification |
| `AddrMan.AddrMan.Delete` | divi/src/addrman.cpp:121-133 | In place, with its assertions: computes the state of the specification |
| `AddrMan.AddrMan.ClearNew` | divi/src/addrman.cpp:135-148 | In place: clears the slot and deletes the entry if that was its last reference |
| `AddrMan.AddrMan.RemoveFromNew` | divi/src/addrman.cpp:152-159 | The bucket loop finds every slot of the entry |
| `AddrMan.AddrMan.MakeTried` | divi/src/addrman.cpp:150-196 | In place, with its assertions: computes the state of the specification |
| `AddrMan.AddrMan.MoveBack` | divi/src/addrman.cpp:169-190 | In place, with its assertions: the evicted entry goes back to the new table |
| `AddrMan.AddrMan.Good_` | divi/src/addrman.cpp:198-245 | Computes the state of the specification and keeps the manager valid |
| `AddrMan.AddrMan.FindBucket` | divi/src/addrman.cpp:224-234 | The random starting point does not matter: a bucket that holds the entry is found if there is one |
| `AddrMan.AddrMan.Add_` | divi/src/addrman.cpp:247-313 | Computes the state and the answer of the specification and keeps the manager valid |
| `AddrMan.AddrMan.Place` | divi/src/addrman.cpp:291-311 | Puts one more reference into the bucket, or drops the entry if it has none |
| `AddrMan.AddrMan.Attempt_` | divi/src/addrman.cpp:315-332 | Computes the state of the specification |
| `AddrMan.AddrMan.Connected_` | divi/src/addrman.cpp:472-490 | Computes the state of the specification |
| `AddrMan.AddrMan.GetAddr_` | divi/src/addrman.cpp:451-470 | Computes the sample of the specification: addresses of different entries, none terrible, as many as the limit allows |
| `AddrManCodec.IndexIsPlace` | divi/src/addrman.h:289-299 | The number under which a new entry is saved is its place among the new entries |
| `AddrManCodec.MarkToggles` | divi/src/addrman.h:285-290 | The mark on the number of buckets is bit 30, and taking it off undoes it |
| `AddrManCodec.ListsOfValid` | divi/src/addrman.h:289-308 | The two lists that are saved are exactly the new and the tried entries, as many as the counters say |
| `AddrManCodec.ReadsNew` | divi/src/addrman.h:346-363 | Loading rebuilds the new entries in order |
| `AddrManCodec.ReadsTried` | divi/src/addrman.h:366-385 | Loading rebuilds the tried entries and their slots, none lost |
| `AddrManCodec.LoadsBucket` | divi/src/addrman.h:388-403 | Loading the list of a bucket refills its slots, position by position |
| `AddrManCodec.ReadsBuckets` | divi/src/addrman.h:388-403 | All buckets are refilled and every reference counted |
| `AddrManCodec.PrunesNothing` | divi/src/addrman.h:405-415 | With every entry tried or referenced, pruning deletes nothing |
| `AddrManCodec.LoadsWhatWasSaved` | divi/src/addrman.h:275-421 | Loading what was saved gives the renumbered manager |
| `AddrManCodec.RenumberedRenames` | divi/src/addrman.h:275-421 | The renumbered manager is isomorphic: same entries, new or tried as before, same slots, same counts; only ids, vector order and last tries differ |
| `AddrManCodec.RenamedIsValid` | divi/src/addrman.h:275-421 | Renumbering keeps a manager valid |
| `AddrManCodec.SaveLoadRoundTrip` | divi/src/addrman.h:275-421 | Saving and loading a valid manager gives a valid manager isomorphic to it |
| `AddrManReload.ClearedIsValidIff` | divi/src/addrman.h:428-446 | A cleared manager is consistent if and only if it had no entries |
| `AddrManReload.CarriedLoad` | divi/src/addrman.h:325-421 | After any load, old entries outside the range of tried ids keep their tried flag, and their reference count is too high by what it was |
| `AddrManReload.InPlaceNeedsTakenIds` | divi/src/addrman.h:325-421 | Whatever the stream: if an id in use is not taken by a tried entry, the loaded manager is neither valid nor passes the check |
| `AddrManReload.ReloadIsOver` | divi/src/addrman.h:325-421 | If all ids in use are above the new entries, loading gives what it gives a new manager on top of the old maps |
| `AddrManReload.ReloadIsValidIff` | divi/src/addrman.h:325-421 | Loading a saved manager into one that was in use passes the check if and only if every id in use is taken by a tried entry, and is valid if and only if besides no other address was known |
| `AddrManReload.ReloadWitness` | divi/src/addrman.h:325-421 | A valid manager with one new entry, saved and loaded into itself, fails the check |
| `AddrManDisk.WriteNew` | divi/src/addrman.h:289-299 | Writes the new entries and numbers them, with its assertion |
| `AddrManDisk.WriteTried` | divi/src/addrman.h:300-308 | Writes the tried entries, with its assertion |
| `AddrManDisk.WriteBucket` | divi/src/addrman.h:309-322 | Writes the size of a bucket and the numbers of its entries |
| `AddrManDisk.Serialize` | divi/src/addrman.h:275-323 | Writes exactly the stream of the specification |
| `AddrManDisk.ReadNewEntries` | divi/src/addrman.h:346-363 | Fills the new entries in place, or fails where the stream ends |
| `AddrManDisk.ReadTriedEntries` | divi/src/addrman.h:366-385 | Fills the tried entries in place and counts those lost to collisions |
| `AddrManDisk.ReadBucketLists` | divi/src/addrman.h:388-403 | Fills the buckets in place |
| `AddrManDisk.Prune` | divi/src/addrman.h:405-415 | Deletes new entries without references |
| `AddrManDisk.Unserialize` | divi/src/addrman.h:325-421 | Clears the manager and loads a stream into it: the state of the specification, or failure exactly where it fails, and then vector and tables still name entries that are there |
| `AddrManDisk.SaveAndLoad` | divi/src/addrman.h:275-421 | Two objects: the second, filled from the first, is valid and isomorphic to it under the exact condition on what it held before, which a new one meets; the first is unchanged |
| `BlockAssembly.PopHeap` | divi/src/BlockMemoryPoolTransactionCollector.cpp:296-302 | The entry taken off is one that no other beats; the others stay |
| `BlockAssembly.RecordOrphanTransaction` | divi/src/BlockMemoryPoolTransactionCollector.cpp:107-117 | Every orphan can be found from each parent it waits for |
| `BlockAssembly.AddDependingTransactionsToPriorityQueue` | divi/src/BlockMemoryPoolTransactionCollector.cpp:142-159 | Takes one parent off all orphans and queues exactly those that waited for nothing else, each once |
| `BlockAssembly.ScanInputs` | divi/src/BlockMemoryPoolTransactionCollector.cpp:200-234 | Finds the parents that a transaction waits for, or that an input is nowhere to be found; otherwise the total of its inputs and the sum of value times age over those that the view has |
| `BlockAssembly.PrioritizeMempoolTransactions` | divi/src/BlockMemoryPoolTransactionCollector.cpp:187-241 | Every transaction of the pool is skipped, queued, or waits for exactly its parents that the view lacks; every entry has the priority and fee rate that the inputs of its transaction give |
| `BlockAssembly.RankIsByFee` | divi/src/BlockMemoryPoolTransactionCollector.cpp:119-140 | The fee rate of an entry with all inputs in the view is that of the fee the input check counts |
| `BlockAssembly.AgeGrows` | divi/src/BlockMemoryPoolTransactionCollector.cpp:225-232 | With every block the inputs of the view add their value to the age |
| `BlockAssembly.FreshInputsHaveNoAge` | divi/src/BlockMemoryPoolTransactionCollector.cpp:225-232 | Inputs of the same height add nothing |
| `BlockAssembly.CheckAgainstView` | divi/src/BlockMemoryPoolTransactionCollector.cpp:319-333 | The checks against the view: inputs, operation limit, input rules, scripts |
| `BlockAssembly.PackedNext` | divi/src/BlockMemoryPoolTransactionCollector.cpp:335-343 | A transaction that passes the checks can be applied next, and inputs, scripts and both totals stay as they must be |
| `BlockAssembly.ProgressAccepts` | divi/src/BlockMemoryPoolTransactionCollector.cpp:335-344 | Accepting a transaction keeps every transaction in exactly one place: waiting, queued, chosen or refused |
| `BlockAssembly.ProgressRefuses` | divi/src/BlockMemoryPoolTransactionCollector.cpp:295-333 | Refusing one does too |
| `BlockAssembly.PrioritizeTransactions` | divi/src/BlockMemoryPoolTransactionCollector.cpp:273-348 | The loop ends; the chosen transactions apply in order, pass the input and script checks where they stand, stay below both limits and do not repeat. Every round takes an entry that no ready one beats under the ordering in force and chooses it exactly if it passes all checks; nothing ready is left, and whatever else is left out waits for a parent that is not chosen |
| `BlockAssembly.ParentsComeFirst` | divi/src/BlockMemoryPoolTransactionCollector.cpp:273-348 | An input of a chosen transaction comes from the view or from a transaction chosen before it |
| `BlockAssembly.AddTransactionsToBlockIfPossible` | divi/src/BlockMemoryPoolTransactionCollector.cpp:350-372 | From the pool to the block: the block is the choice of such a run over the entries the pool gives, and every transaction of the pool is chosen, not final, lacks an input, waits for an omitted parent, or came up in a round after part of the block and failed a check there |
| `BlockAssembly.QueueIsOpen` | divi/src/BlockMemoryPoolTransactionCollector.cpp:295-302 | The queue holds exactly the entries that are ready and have not come up |
| `BlockAssembly.Tests` | divi/src/BlockMemoryPoolTransactionCollector.cpp:304-333 | The early tests and the checks against the view together are the condition for being chosen, and decide when the ordering by fee begins |
| `BlockAssembly.RejectedInARound` | divi/src/BlockMemoryPoolTransactionCollector.cpp:304-333 | A rejected transaction of the pool has a round of its own in which a check fails on the part of the block chosen before |
| `AssemblyOrder.SettledOnce` | divi/src/BlockMemoryPoolTransactionCollector.cpp:295-302 | No transaction comes up twice |
| `AssemblyOrder.BestComesFirst` | divi/src/BlockMemoryPoolTransactionCollector.cpp:295-302 | What comes up later was not ready yet or does not beat what came up before it |
| `AssemblyOrder.FeesComeInOrder` | divi/src/BlockMemoryPoolTransactionCollector.cpp:65-85 | Once the ordering by fee begins it stays; a later entry that was ready before has no higher fee rate, and no higher priority at the same rate |
| `AssemblyOrder.PrioritiesComeInOrder` | divi/src/BlockMemoryPoolTransactionCollector.cpp:65-85 | Up to a round by priority all rounds go by priority; a later entry that was ready before has no higher priority, and no higher fee rate at the same priority |
| `AssemblyOrder.PriorityPartIsBounded` | divi/src/BlockMemoryPoolTransactionCollector.cpp:243-258 | While entries go by priority, the chosen ones stay below the size set aside and all have the priority to go in free |
| `AssemblyOrder.FeeOrderHasAReason` | divi/src/BlockMemoryPoolTransactionCollector.cpp:243-258 | Entries go by fee only if there is no such part, it is full, or an entry lacked the priority |
| `AssemblyOrder.FreeOnlyUpToMinimum` | divi/src/BlockMemoryPoolTransactionCollector.cpp:161-178 | Below the minimum fee rate a transaction goes in by fee only up to the minimum block size |
| `AssemblyOrder.PayingIsLeftOutOnlyIfUnfit` | divi/src/BlockMemoryPoolTransactionCollector.cpp:304-333 | A transaction that pays the minimum, or comes up by priority, is left out only if it does not fit |
| `AssemblyOrder.OnlyFinalComeUp` | divi/src/BlockMemoryPoolTransactionCollector.cpp:196-198 | Neither coinbases nor coinstakes nor transactions that are not final come up |
| `AssemblyOrder.TheBlockIsDetermined` | divi/src/BlockMemoryPoolTransactionCollector.cpp:273-348 | Without ties there is one run and one block |
| `CoinSelection.TryCoin` | divi/src/StochasticSubsetSelectionAlgorithm.cpp:58-74 | The running total is the sum of the included coins and the best total is the sum of the recorded mask; a coin stays exactly if the total stays below the target |
| `CoinSelection.ApproximateSubset` | divi/src/StochasticSubsetSelectionAlgorithm.cpp:30-78 | For every sequence of random bits the mask sums to the best total, which lies between the target and the sum of all coins, and overshoots the target by less than the value of some coin |
| `CoinSelection.SortedIs` | divi/src/StochasticSubsetSelectionAlgorithm.cpp:133-134 | Sorting rearranges |
| `CoinSelection.SortedDescends` | divi/src/StochasticSubsetSelectionAlgorithm.cpp:133-134 | Sorting puts larger values first |
| `CoinSelection.Filter` | divi/src/StochasticSubsetSelectionAlgorithm.cpp:17-28 | Keeps the spendable and sufficiently confirmed outputs in order |
| `CoinSelection.Shuffle` | divi/src/StochasticSubsetSelectionAlgorithm.cpp:98 | For every sequence of draws the shuffled coins are the same coins |
| `CoinSelection.ShuffleKeepsEligible` | divi/src/StochasticSubsetSelectionAlgorithm.cpp:98-99 | The order of the coins changes neither which are eligible nor their sum |
| `CoinSelection.Split` | divi/src/StochasticSubsetSelectionAlgorithm.cpp:92-113 | Exactly the coins below the target plus a cent, their total, and the smallest of the others |
| `CoinSelection.SelectCoinsMinConf` | divi/src/StochasticSubsetSelectionAlgorithm.cpp:80-164 | False exactly if the eligible coins do not reach the target; otherwise distinct eligible coins whose sum is reported and reaches it, with no change or at least a cent of it unless all coins together do not leave a cent, and never more than the smallest large coin |
| `CoinSelection.SelectCoins` | divi/src/StochasticSubsetSelectionAlgorithm.cpp:174-191 | Empty exactly if every allowed attempt fails; otherwise the choice covers the target with coins that are eligible for the first attempt that suffices |
| `WireFraming.RunConcat` | divi/src/Node.cpp:345-370 | Parsing one chunk after another is parsing them in one piece |
| `WireFraming.RunWithin` | divi/src/Node.cpp:47-91 | Taking in several bytes at once is taking them one by one |
| `WireFraming.ReadsFrames` | divi/src/Node.cpp:99-144 | A stream of whole frames parses to exactly the messages it was made from |
| `WireFraming.LowByteFirst` | divi/src/protocol.h:41-47 | The size goes over the wire with its lowest byte first |
| `WireFraming.ReceivedIsPrefix` | divi/src/Node.cpp:345-370 | Whatever prefix of the stream has arrived, the completed messages are the first ones sent, and parsing has not failed |
| `WireFraming.NetMessage.ReadHeader` | divi/src/Node.cpp:47-75 | Takes what the header still needs; fails exactly if it announces more than the maximum size |
| `WireFraming.NetMessage.ReadData` | divi/src/Node.cpp:77-91 | Takes what the message still needs; the buffer never outgrows the message |
| `WireFraming.Deserialize` | divi/src/Node.cpp:116-144 | One message: success, missing data or failure, as the byte automaton says |
| `WireFraming.QueuedMessageConnection.ConvertDataBufferToNetworkMessage` | divi/src/Node.cpp:345-370 | Feeding a chunk runs the byte automaton over it, and fails exactly where it fails |
| `WireFraming.QueuedMessageConnection.SendData` | divi/src/Node.cpp:232-270 | The size counter is exact and the assertions hold; messages leave the queue as long as the answers of the channel cover them, the first answer that does not says how much of the next one is out, and what was sent is all before the queue plus that part |
| `WireFraming.QueuedMessageConnection.SendOne` | divi/src/Node.cpp:238-262 | One message: it is out exactly if the answer covers what was left of it, otherwise as many bytes as the channel answers; an error other than a busy channel drops the peer |
| `WireFraming.QueuedMessageConnection.EndMessage` | divi/src/Node.cpp:464-492 | Queues the closed message and keeps the counters exact; sends at once exactly if nothing was queued before |
| `WireFraming.PushedCarries` | divi/src/Node.cpp:93-114 | Begin, append and end make a frame with the start string, a command that reads back as its name, the size and checksum of the payload, and the payload |
| `WireFraming.QueuedMessageConnection.PushMessage` | divi/src/Node.h:140-151 | What is queued carries exactly the name of the command and the payload |
| `WireFraming.CommandIsValid` | divi/src/protocol.cpp:77-87 | True exactly if the command is a printable word and then zeros only, in bytes as well |
| `WireFraming.IsValid` | divi/src/protocol.cpp:70-97 | True exactly if start string, command and size are as they must be |
| `WireFraming.PushedIsValid` | divi/src/protocol.cpp:70-97 | The header of a message pushed with a printable name is accepted exactly if the payload is not too long |
| `WireFraming.ClosedIsFramed` | divi/src/Node.cpp:99-114 | The header of a closed message tells its size and carries its checksum; the rest is untouched |
| `WireFraming.SentIsPrefix` | divi/src/Node.cpp:232-270 | What the channel has taken is a prefix of all that was queued, and all of it once the queue is empty |
| `WireFraming.DeliveredInOrder` | divi/src/Node.cpp:232-370 | Both ends: the receiver has completed the first messages that were queued, in order; all of them once everything has arrived |
| `WireFraming.ReceiveChunks` | divi/src/Node.cpp:345-370 | A receiver fed with the stream cut into any chunks |
| `ArithUint.AddAssign` | divi/src/arith_uint256.h:138-147 | Exact modulo the width, also when both operands are the same number |
| `ArithUint.Increment` | divi/src/arith_uint256.h:175-182 | One more, modulo the width |
| `ArithUint.Negated` | divi/src/arith_uint256.h:80-87 | The additive inverse |
| `ArithUint.SubAssign` | divi/src/arith_uint256.h:149-153 | Exact modulo the width |
| `ArithUint.MulAssign32` | divi/src/arith_uint256.cpp:91-101 | Exact modulo the width; no 64-bit overflow |
| `ArithUint.AddRow` | divi/src/arith_uint256.cpp:108-115 | One row of the product, and what runs over the end |
| `ArithUint.MulAssign` | divi/src/arith_uint256.cpp:103-117 | Between two objects exact modulo the width with no 64-bit overflow; an object multiplied by itself in place becomes zero, which is right if and only if its square is a multiple of the width |
| `ArithUint.SquareIsLost` | divi/src/arith_uint256.cpp:103-117 | The number one, whose square would be one |
| `ArithShift.ShiftLeftAssign` | divi/src/arith_uint256.cpp:57-72 | Multiplication by a power of two modulo the width, for every amount |
| `ArithShift.ShiftRightAssign` | divi/src/arith_uint256.cpp:74-89 | Division by a power of two, for every amount |
| `ArithDivide.CompareTo` | divi/src/arith_uint256.cpp:145-155 | The order of the numbers |
| `ArithDivide.Equal` | divi/src/arith_uint256.h:222 | Comparing the limbs compares the values |
| `ArithDivide.Bits` | divi/src/arith_uint256.cpp:195-208 | The position of the highest bit |
| `ArithDivide.DivAssign` | divi/src/arith_uint256.cpp:119-143 | Fails exactly for zero; otherwise the floor quotient and the true remainder |
| `ArithCompact.OverflowIsExact` | divi/src/arith_uint256.cpp:257-260 | The overflow flag is set exactly if the number reaches 2^256 |
| `ArithCompact.KnownCompacts` | divi/src/test/arith_uint256_tests.cpp:412-540 | The values and signs that the tests expect |
| `ArithCompact.SetCompact` | divi/src/arith_uint256.cpp:244-262 | The number modulo 2^256, and both flags |
| `ArithCompact.GetCompact` | divi/src/arith_uint256.cpp:264-285 | The compact form, with its assertions |
| `ArithCompact.CompactLosesLittle` | divi/src/arith_uint256.cpp:244-285 | Decoding an encoded number never gives more, and less by under one part in 2^15; zero only for zero |
| `Positional.EncodingFits` | divi/src/base58data.cpp:79 | 256^n is at most 58 to the size of the encoding buffer, for every n |
| `Positional.DecodingFits` | divi/src/base58data.cpp:21 | 58^m is at most 256 to the size of the decoding buffer, for every m |
| `Base58.MulAdd` | divi/src/base58data.cpp:28-34 | The carry loop multiplies the buffer and adds a digit; what does not fit is left over |
| `Base58.Convert` | divi/src/base58data.cpp:81-92 | The buffer holds the value of all digits read; the carry is always zero |
| `Base58.EncodeBase58` | divi/src/base58data.cpp:70-103 | The string of the specification: a one per leading zero byte and the digits of the number |
| `Base58.DecodeBase58` | divi/src/base58data.cpp:9-53 | Accepts exactly one word of the alphabet with spaces around it, and gives the bytes of the specification |
| `Base58.DecodeEncoded` | divi/src/base58data.cpp:9-103 | Decoding an encoding gives the bytes back, for every byte string |
| `Base58.EncodeDecoded` | divi/src/base58data.cpp:9-103 | Encoding what was decoded gives the word back without the spaces around it |
| `Base58.AlphabetIs` | divi/src/base58data.cpp:7 | The alphabet, digit by digit |
| `Base58.KnownEncodings` | divi/src/test/data/base58_encode_decode.json:3-4 | Two of the encodings that the tests expect |
| `BlockTree.GetSkipHeight` | divi/src/chain.cpp:88-101 | Strictly below the height |
| `BlockTree.SkipOfEven` | divi/src/chain.cpp:88-101 | An even height skips back by the largest power of two that divides it |
| `BlockTree.BlockIndex.GetAncestor` | divi/src/chain.cpp:103-124 | Null exactly outside the heights of the branch; otherwise the block reached by following the parents |
| `BlockTree.BlockIndex.BuildSkip` | divi/src/chain.cpp:131-135 | Keeps all skip pointers right when a block is entered |
| `BlockTree.LastCommonAncestor` | divi/src/chain.cpp:137-153 | Null exactly for different roots; otherwise an ancestor of both of which every common ancestor is an ancestor |
| `BlockTree.Chain.SetTip` | divi/src/chain.cpp:14-25 | The early stop leaves every slot with the ancestor of the new tip |
| `BlockTree.Chain.FindFork` | divi/src/chain.cpp:56-63 | The highest block of the branch that is in the chain; null exactly if there is none |
| `BlockTree.Chain.GetLocator` | divi/src/chain.cpp:27-54 | The blocks at the heights of the schedule, through the chain or the skip list |
| `BlockTree.LocatorDescends` | divi/src/chain.cpp:27-54 | The heights go strictly down from the block to the first block |
| `BlockTree.LocatorDistances` | divi/src/chain.cpp:27-54 | The last twelve blocks, and then blocks at distances that double |
| `BlockTree.LocatorIsShort` | divi/src/chain.cpp:27-54 | Their number grows with the logarithm of the height |
| `MedianTime.GetMedianTimePast` | divi/src/chain.h:309-321 | The median of the last eleven block times |
| `MedianTime.MedianReaches` | divi/src/chain.h:309-321 | The median reaches a value exactly if the upper half of the window does |
| `MedianTime.SixOfEleven` | divi/src/chain.h:309-321 | From the eleventh block on the median reaches a value exactly if six of the last eleven blocks do |
| `MedianTime.MedianNeverDecreases` | divi/src/chain.h:309-321 | If every block is later than the median of its parent, the median never decreases along a branch |
| `Bip9.DefinedBeforeStart` | divi/src/CachedBIP9ActivationStateTracker.cpp:138-144 | The shortcut of the walk: before the start time the state is DEFINED |
| `Bip9.FinalStatesLast` | divi/src/CachedBIP9ActivationStateTracker.cpp:77-83 | ACTIVE and FAILED last for all later periods of the branch |
| `Bip9.LockedInOnce` | divi/src/CachedBIP9ActivationStateTracker.cpp:63-79 | LOCKED_IN lasts one period and is entered from STARTED with enough signals and before the timeout |
| `Bip9.ActiveWasLockedIn` | divi/src/CachedBIP9ActivationStateTracker.cpp:43-84 | ACTIVE needs an earlier period at the threshold |
| `Bip9.CountIsOfHeights` | divi/src/CachedBIP9ActivationStateTracker.cpp:20-31 | The walk counts the signals of exactly the last heights |
| `Bip9.EnoughSignals` | divi/src/CachedBIP9ActivationStateTracker.cpp:20-31 | Whether the threshold is reached |
| `Bip9.ComputeStateTransition` | divi/src/CachedBIP9ActivationStateTracker.cpp:43-84 | One step of the state machine, which `StateIsByTimes` describes as a whole |
| `Bip9.SignalIff` | divi/src/CachedBIP9ActivationStateTracker.cpp:14-19 | A version signals exactly if its top bits are 001 and the bit is among its binary digits |
| `Bip9Timeline.StateIsByTimes` | divi/src/CachedBIP9ActivationStateTracker.cpp:43-84 | The state without recursion: active after a period that qualified by times and signals, locked in at the first such period, otherwise failed, started or defined by time alone |
| `Bip9Timeline.UndecidedBeforeTimeout` | divi/src/CachedBIP9ActivationStateTracker.cpp:50-74 | A deployment that is defined, started or locked in is before its timeout |
| `Bip9Timeline.LockedInIff` | divi/src/CachedBIP9ActivationStateTracker.cpp:63-74 | Locked in exactly after a started period with enough signalling heights, before the timeout |
| `Bip9.CachedTracker.StartingBlocks` | divi/src/CachedBIP9ActivationStateTracker.cpp:120-149 | Walks back over the periods to a cached one and keeps every cached state right |
| `Bip9.CachedTracker.Update` | divi/src/CachedBIP9ActivationStateTracker.cpp:86-118 | Keeps every cached state equal to the recursion and misses no change up to the block |
| `Bip9.CachedTracker.LastCachedState` | divi/src/CachedBIP9ActivationStateTracker.cpp:151-170 | The state of some earlier period, and of the own period once that is up to date |
| `Bip9.CachedTracker.UpdateRunQuery` | divi/src/CachedBIP9ActivationStateTracker.cpp:86-170 | After an update, and any calls and new blocks after it, the query gives the state of the recursion |
| `Bip9.CachedTracker.ValidGrows` | divi/src/CachedBIP9ActivationStateTracker.cpp:86-170 | A block that enters the tree leaves the cache right |
| `VarInt.ReadsVarInt` | divi/src/serialize.h:512-542 | Reading a variable-length integer gives what was written, whatever follows |
| `VarInt.EncodingIsUnique` | divi/src/serialize.h:486-542 | Bytes read as a number and a rest if and only if they are what is written for the number, and the rest |
| `VarInt.VarIntSizes` | divi/src/serialize.h:485-488 | How many bytes a number takes |
| `VarInt.KnownVarInts` | divi/src/serialize.h:491-496 | The bytes of some numbers, among them two for which the comment gives others |
| `VarInt.ReadsSigned` | divi/src/serialize.h:512-542 | A negative number comes back as its low seven bits |
| `VarInt.WriteVarInt` | divi/src/serialize.h:512-527 | The bytes of the specification |
| `VarInt.ParseVarInt` | divi/src/serialize.h:529-542 | The number of the specification, or failure where the input ends |
| `VarInt.DecompressCompressed` | divi/src/compressor.cpp:137-180 | Amount compression is undone exactly, for every amount |
| `VarInt.CompressDecompressed` | divi/src/compressor.cpp:137-180 | Every number is the compressed form of the amount it stands for |
| `VarInt.KnownAmounts` | divi/src/test/compress_tests.cpp:40-47 | The pairs that the tests expect |
| `VarInt.AmountFits` | divi/src/compressor.cpp:137-180 | Up to a ninth of what 64 bits hold nothing is cut off and the amount comes back |
| `VarInt.CompressedAtMost` | divi/src/compressor.cpp:137-154 | A compressed amount is at most nine times the amount |
| `VarInt.CompressAmount` | divi/src/compressor.cpp:137-154 | For every 64-bit amount the number of the specification, wrapped around; exact up to a ninth of the range |
| `VarInt.DecompressAmount` | divi/src/compressor.cpp:156-180 | For every 64-bit number the amount of the specification, wrapped around |
| `CoinsCodec.DecompressCompress` | divi/src/compressor.cpp:43-126 | Every special script is rebuilt from its tag and what varies |
| `CoinsCodec.SpecialTags` | divi/src/compressor.cpp:43-72 | Which script gets which tag, byte by byte |
| `CoinsCodec.KnownOutput` | divi/src/coins.h:49-52 | The bytes of an output for a key hash, as in the example of the comment |
| `CoinsCodec.ReadsScript` | divi/src/compressor.h:69-96 | Scripts are read back, whether they have a special form or not |
| `CoinsCodec.ReadsMask` | divi/src/coins.h:207-218 | The mask loop stops right after the last byte that is not zero, whatever zero bytes come before |
| `CoinsCodec.HeaderBits` | divi/src/coins.h:172-207 | The flags in the code and the byte count do not collide |
| `CoinsCodec.SomethingShows` | divi/src/coins.h:171 | Whatever is unspent shows in the first two flags or in the mask |
| `CoinsCodec.UnserializeSerialized` | divi/src/coins.h:164-228 | A stored record is read back exactly, except that a version or height below zero comes back as its low seven bits |
| `CoinsCodec.StoredRoundTrip` | divi/src/coins.h:164-228 | The record comes back as it was if and only if version and height are not below zero |
| `CoinsCodec.NegativeVersionIsLost` | divi/src/coins.h:164-228 | A record of version -1 comes back with version 127 |
| `CoinsCodec.CalcMaskSize` | divi/src/coins.cpp:100-117 | The size of the mask and the number of its bytes that are not zero |
| `CoinsCodec.Serialize` | divi/src/coins.h:164-192 | The bytes of the specification, with its assertion |
| `CoinsCodec.Unserialize` | divi/src/coins.h:194-228 | The record of the specification, or failure where the input ends |
| `Superblocks.DefaultIsSteady` | divi/src/LegacyBlockSubsidies.cpp:12-25 | The default block value changes at halvings only and leaves room for the lottery |
| `Superblocks.SharesAreSteady` | divi/src/LegacyBlockSubsidies.cpp:46-95 | Past the start heights the shares are the same on a whole halving interval |
| `Superblocks.NeverBoth` | divi/src/SuperblockHeightValidator.cpp:14-36 | With coprime cycles and a lottery cycle above one, no height is both kinds of superblock |
| `Superblocks.BothIff` | divi/src/SuperblockHeightValidator.cpp:14-36 | For a lottery cycle above one, a height is both kinds if and only if it is below the transition, past both starts and a multiple of both cycles |
| `Superblocks.BothOnRegtest` | divi/src/chainparams.cpp:490-493 | With the cycles of the regression test network height 150 is both |
| `Superblocks.PriorTreasury` | divi/src/SuperblockHeightValidator.cpp:25-52 | One payment cycle before a treasury superblock is the previous one, and none lies between, also across the transition |
| `Superblocks.WeightedIsSum` | divi/src/BlockSubsidyProvider.cpp:27-34 | The weighted sum of two shares is the sum of the shares of the blocks since the prior height, if the cycle is no longer than a halving interval |
| `Superblocks.WeightedIs` | divi/src/BlockSubsidyProvider.cpp:27-34 | For cycles of any length: the sum of the shares, and by how much it is missed |
| `Superblocks.WeightedIsSumIff` | divi/src/BlockSubsidyProvider.cpp:27-34 | For shares that never rise, exact if and only if the share before the last halving is still that of the prior height |
| `Superblocks.FirstPayout` | divi/src/BlockSubsidyProvider.cpp:27-34 | If the prior height has no share: the sum and the exact excess |
| `Superblocks.TreasuryPayoutIsSum` | divi/src/BlockSubsidyProvider.cpp:17-35 | A payout of treasury or charity is the sum of its shares since the previous treasury superblock |
| `Superblocks.LongCycleIsSumIff` | divi/src/BlockSubsidyProvider.cpp:17-35 | With cycles of any length it is so exactly while the share has not fallen, if it never rises |
| `Superblocks.FirstTreasuryPayout` | divi/src/BlockSubsidyProvider.cpp:17-35 | The first payout of treasury and charity and its exact excess over the shares |
| `Superblocks.FirstPayoutBeforeHalving` | divi/src/BlockSubsidyProvider.cpp:17-35 | Before the first halving, as on the main network, it pays one share for every height from zero, those without a share included |
| `Superblocks.TreasuryTelescopes` | divi/src/BlockSubsidyProvider.cpp:17-61 | From one treasury superblock to another the payouts of either fund add up to the shares of all blocks between: none twice, none left out |
| `Superblocks.LotteryHeightsAreMultiples` | divi/src/SuperblockHeightValidator.cpp:14-24 | Lottery superblocks stay on the multiples of the cycle |
| `Superblocks.LotteryPayoutIsSum` | divi/src/BlockSubsidyProvider.cpp:38-53 | A lottery payout after the first is the sum of the lottery shares since the previous one, for cycles and halvings of any length |
| `Superblocks.FirstLotteryPayout` | divi/src/BlockSubsidyProvider.cpp:38-53 | The first lottery payout counts every height since the last halving, and exceeds the shares by those before the first regular height |
| `Superblocks.LotteryTelescopes` | divi/src/BlockSubsidyProvider.cpp:38-61 | From one lottery superblock to another the payouts are one share for every block between |
| `Superblocks.BlockRewards.UpdateTreasuryReward` | divi/src/BlockSubsidyProvider.cpp:17-35 | In place: the weighted sum at a treasury superblock, nothing elsewhere |
| `Superblocks.BlockRewards.UpdateLotteryReward` | divi/src/BlockSubsidyProvider.cpp:38-53 | In place: the weighted sum at a lottery superblock, nothing elsewhere |
| `Superblocks.GetBlockSubsidity` | divi/src/BlockSubsidyProvider.cpp:55-61 | The rewards of the specification, whose shares `SharesArePercentages` and `SuperblockPaysWhatIsDue` tie to the block values |
| `SubsidyShares.SubsidyFalls` | divi/src/LegacyBlockSubsidies.cpp:12-25 | The block value is 1250 coins up to the second halving and then falls by a hundred at each, down to 250 |
| `SubsidyShares.SharesArePercentages` | divi/src/LegacyBlockSubsidies.cpp:46-77 | Every receiver gets its own percentage, rounded down, of what the lottery part leaves of the block value |
| `SubsidyShares.MinerGetsAll` | divi/src/LegacyBlockSubsidies.cpp:50-52 | Up to the last block with proof of work the miner gets everything |
| `SubsidyShares.SharesWithinValue` | divi/src/LegacyBlockSubsidies.cpp:46-99 | No share is negative, all together are at most the block value, and rounding loses less than five units if the percentages make a hundred |
| `SubsidyShares.DefaultShares` | divi/src/LegacyBlockSubsidies.cpp:99 | The shares of the main network at 1250 coins |
| `SubsidyShares.SuperblockPaysWhatIsDue` | divi/src/BlockSubsidyProvider.cpp:17-61 | A treasury superblock pays each fund its percentage of the values of all blocks since the previous one, but for rounding in each block |
| `SubsidyShares.OthersArePaidEveryBlock` | divi/src/BlockSubsidyProvider.cpp:55-61 | Staker, masternode and proposals get the shares of each block alone |
| `Lottery.SortIsStable` | divi/src/LotteryWinnersCalculator.cpp:98-109 | Tickets with the same score keep their order, and none is lost or added |
| `Lottery.SortSorts` | divi/src/LotteryWinnersCalculator.cpp:98-109 | Scores go down |
| `Lottery.StreamingTop` | divi/src/LotteryWinnersCalculator.cpp:111-142 | Keeping eleven at every step keeps the stable top eleven |
| `Lottery.UpdatedOk` | divi/src/LotteryWinnersCalculator.cpp:160-178 | The list stays sorted, at most eleven long and free of repetitions |
| `Lottery.OneLeaves` | divi/src/LotteryWinnersCalculator.cpp:111-178 | A new ticket joins; of twelve one leaves, after the fork the worst of those with a script that occurs before, if there are any, otherwise the worst of all |
| `Lottery.PayeesNeverFall` | divi/src/LotteryWinnersCalculator.cpp:122-139 | After the fork the number of distinct payees never falls |
| `Lottery.FullHouseStays` | divi/src/LotteryWinnersCalculator.cpp:122-139 | Eleven winners with eleven payees stay so |
| `Lottery.CycleKeepsWinners` | divi/src/LotteryWinnersCalculator.cpp:180-201 | At every block of a cycle with distinct tickets the list is sorted, short and free of repetitions |
| `Lottery.WinnersHaveEntered` | divi/src/LotteryWinnersCalculator.cpp:160-201 | A ticket wins only if its coinstake was large enough and, after the fork, its script had not won lately |
| `Lottery.WinnersAreTop` | divi/src/LotteryWinnersCalculator.cpp:98-201 | Before the fork the list is the stable top eleven of all tickets that entered since the reset |
| `Lottery.PayeesOverCycle` | divi/src/LotteryWinnersCalculator.cpp:111-201 | After the fork, over any part of a cycle, the number of distinct payees does not fall |
| `Lottery.ComputeRankedScores` | divi/src/LotteryWinnersCalculator.cpp:144-158 | Score, place and duplicate mark of every ticket |
| `Lottery.TopElevenNeedUpdating` | divi/src/LotteryWinnersCalculator.cpp:111-142 | The list cut to eleven; if it need not be updated, the new ticket was last and is the one cut off |
| `Lottery.UpdateCoinstakes` | divi/src/LotteryWinnersCalculator.cpp:160-178 | The winners of the specification, unchanged by a vetoed script after the fork |
| `Lottery.CalculateUpdatedLotteryWinners` | divi/src/LotteryWinnersCalculator.cpp:180-201 | Reset at a lottery superblock, the previous winners, or the updated ones |
| `Lottery.FillLotteryPayment` | divi/src/BlockIncentivesPopulator.cpp:125-142 | Appends half the reward for the first winner and a twentieth for each other |
| `Lottery.PrizesShareTheReward` | divi/src/BlockIncentivesPopulator.cpp:131-132 | The first prize is half of the reward and each other a twentieth, rounded down; eleven winners get all but ten units |
| `Lottery.IsValidLotteryPayment` | divi/src/BlockIncentivesPopulator.cpp:43-68 | True exactly if the output owed to each winner occurs |
| `Lottery.EveryWinnerIsPaidIff` | divi/src/BlockIncentivesPopulator.cpp:43-68 | Every payment that is accepted pays every winner, counted with repetition, if and only if no two winners are owed the same output |
| `Lottery.UnpaidWinner` | divi/src/BlockIncentivesPopulator.cpp:43-68 | Three winners, two with the same script, accepted with two outputs |
| `Lottery.FillAndCheck` | divi/src/BlockIncentivesPopulator.cpp:43-142 | The payment that is filled in is valid and pays no more than the reward |

## Left out

- Script execution, signatures, hashing and curve arithmetic are parameters; expanding a compressed public key is assumed to undo compressing a valid one.
- Input scripts and sequence numbers are not part of a transaction here; nothing that is modelled looks at them.
- The best-block hash of the caches and the batching of database writes: only the coin map is modelled.
- Index databases (addresses, spent outputs, transaction locations) beside the coin database.
- Address selection by weight (`Select_`) and the chance of an address, which are floating point, and the retry statistics printed by the manager.
- AddrManCheck.Check_: which of several errors is reported; the entries are visited in any order, not by id.
- BlockConnection.CheckInputs: the value part; what the script checks say is the `verdict` of `CheckAndApply`, `Check` and `ConnectAndDisconnect`, together with signature operations and the vault rule.
- The contents of an address record on disk, byte by byte: the stream of the address manager is a sequence of values.
- AddrManDisk.Unserialize: after a failed load nothing is stated about `mapAddr` and the counters. Every entry of the manager must be tried or have a reference, as all entries of a valid one do; otherwise an assertion of the source could fail.
- Integer widths of the address manager and the check queue counters, which stay far below their limits.
- The arrangement of the heap inside `std::make_heap` and of `std::sort` among equal values; only what they promise is used.
- The formulas behind priority and fee rate: arbitrary functions of the age and the total of the inputs, giving any real and any integer, compared as the source compares them.
- BlockAssembly.PrioritizeMempoolTransactions: orphans are known by transaction id instead of by shared pointer, and the pool is a sequence in the order of its map.
- The limits on block size taken from settings, and wrap-around of sizes and operation counts, which are natural numbers here.
- Locks and condition variables as such: a step of the check queue is what happens between taking and releasing the lock, and waking up is allowed at any time.
- Dropping and fuzzing of messages for debugging, bandwidth statistics and the closing of sockets.
- WireFraming.QueuedMessageConnection.ConvertDataBufferToNetworkMessage: received messages are never removed from the queue, and what a failed parse leaves in it is not stated.
- Bitwise and, or, exclusive or, decrement and conversion to floating point of limb arrays, and their hexadecimal form.
- Base58 with checksum, addresses and keys built on it; strings are taken without embedded zero characters.
- WireFraming.QueuedMessageConnection.PushMessage: serializing the arguments of a message; the payload is given as bytes.
- Base58.DecodeBase58: the characters are translated before the buffer is filled instead of one by one, which cannot be seen from outside.
- The flags, trust and file positions of a block index entry.
- Sporks: the block value and the percentages they may set are arbitrary functions that change at halvings only.
- Bip9.CachedTracker.Update: for a deployment that is not viable nothing is claimed about the cache, since the query does not look at it.
- Which coinstakes are large enough for the lottery and which scripts won lately: given with each block.
- The treasury payment, which is filled and checked like the lottery payment but without a loop.
- VarInt.ParseVarInt: numbers are not cut to the width of the type that is read; what is written from such a type fits it.
- CoinsCodec.Unserialize: the same holds of the version, the height, the header code and script sizes in a stream that no record was written to.
- GetSerializeSize of a coin record, which uses another factor than the serializer.
- Masternodes, wallet storage, RPC, the graphical client and the wiring of modules.
