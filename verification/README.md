# Verified model of the Akiverse backend

A Dafny model of the protocols and algorithms of the Akiverse backend, with proofs of what they promise.
The project has no dependencies; `dafny verify dfyconfig.toml` checks all of it.

Most of these protocols read rows and then commit a guarded update. The model keeps the two halves apart: a
transaction is one atomic step, a `where` guard that fails leaves everything as it was, and between a read and
its commit anything else may happen. Clocks, randomness, crashes, the network and other requests are arbitrary
inputs. SQL is taken at its word: transactions are atomic, and unique keys, foreign keys and the checks for
non-negative balances hold.

## What is modelled

**Chain confirmer** (`BlockTree`, `BlockCaching`, `Confirming`, `Finality`, `BatchProgress`). Recorded blocks form a growing tree of
PENDING, CONFIRMED and INVALIDATED rows. The two passes are methods over a lazily filled `BlockCache`, with the
depth search, its shortcuts and the batches of 1000 of the source; the number of blocks to confirm is a
parameter `k`. A watcher may add PENDING blocks between any two passes. The only assumption on the data is that a
recorded parent is one block lower (`Linked`); the assumption on the chain is the one written at
`src/constants.ts:11-27`, no fork as deep as `k` (`NoDeepFork`), and it is needed only for the results that name it.

**Transfers and ownership** (`Transfers`, `Utils`, `Ownership`, `TransferChecking`). Endpoints of a path of transfers, the
depositor, grouping into runs, last-writer-wins updates of an item, and the loop of `checkTransfers` that puts them
together.

**Play sessions** (`PlayProtocol`, `PlaySafety`, `PlayEffects`, `PlayReads`, `FinishEffects`, `PlayTransactions`). Sessions, plays, machines and balances as one
state machine over the read and commit halves of every request and the timeout sweeps. Requests may wait for
any time and commit more than once. `updatedAt` is a strictly increasing version. The transaction of `finishPlay` is
also modelled the way the code builds it, as a list of guarded updates.

**Daily rent** (`RentSettlement`, `RentSteps`, `FeeCollector`, with `Sums`). The ledger as a predicate on rows and balances, and
the run as a class whose methods are its transactions; before each of them the world may move Teras and the
process may crash.

**Extract lottery** (`Randoms`, `ExtractDraw`, `ExtractUseCase`). Weighted drawing on a cloned box, sorting, counting, choosing ids,
the promise made beforehand, and the energy used.

**Ranking scores** (`Doubles`, `Hundredths`, `ScorePacking`, `CountSending`, `CountRanking`). Binary doubles for rates, rounded
to nearest at every quotient and product, BigInt shifts and masks on naturals, the packed layouts, the calls that read a
stored count and write a new one as a state machine, and the score rebuilt from play sessions.

**Quests** (`QuestBook`, `QuestChecker`, `QuestUseCase`). The recursive quest check as a class, between whose transactions other
requests complete, open and delete; starting and finishing chains as a state machine over read and commit halves.

**Prize pool, slots** (`PrizePool`, `ArcadeSlots`).

`Arithmetic`, `Collections` and `Common` hold shared facts and types.

## Findings

Where the code does not meet a property, the model keeps the code and proves exactly when it does.

- The grouping key of transfers reads `row.blockHash`, which the query does not select
  (`src/apps/confirmer/confirmer.ts:249-269`). Rows are grouped as intended exactly when no two neighbours differ in
  their block alone (`GroupedAsIntendedIff`); the same move recorded on two forks falls into one group, which
  is no path, and the confirmer stops with an error (`ForkedTransferMerged`).
- "Blockchain got owned" is raised only for two blocks that become confirmable in one batch. A second chain of `k` blocks
  that shows up after its rival was confirmed is confirmed too (`SecondConfirmationIff`; a run in `ConfirmedTwice`).
- A session whose `maxPlayCount` is 0 still lets one play start, because 0 is falsy in the check
  (`src/use_cases/play_game_usecase.ts:316`); every other limit is kept (`LimitKeptIffPositive`).
- Paying rent is not guarded against rows paid before (`src/use_cases/collect_fee_usecase.ts:335-345`). One run at a time pays
  once; a second payer that read its totals before the first one committed pays again (`SecondPayerPaysAgainIff`; a
  ledger in `PaidTwice`). Collecting has no such gap (`StaleCollectTotalsHold`).
- For season bases 11 and 12 an extract with a code below 12 can give out fewer items than promised
  (`PromiseKeptIff`, `PromiseBroken`).
- Packing a spark rate multiplies the rounded quotient `h / 100` by a hundred again (`src/helpers/ranking.ts:106`). For some `h`
  the product falls below `h`: 11 sparks in 14 plays are 78.57, are packed and shown as 78.56, and tie with 78.56
  (`SparkRateLost`). `Lost` says for which `h`, and everywhere else the rate survives (`SparkRateSurvivesIff`,
  `HundredthsOrder`).
- A count is read from Redis and written back by a second call (`src/use_cases/ranking_usecase.ts:250-259`). What other calls
  for the user wrote in between is overwritten: the stored count is the sum of everything sent less that
  (`StoredIsSumLessLost`, `StoredIsSumIff`), for calls that each add something exactly the sum if no write falls
  between the read and the write of another call (`StoredIsSumIffNoOverlap`; a run in `IncrementLost`).
- Only finishPlaySession sends a session's win, and only if it finds the session READY
  (`src/use_cases/play_game_usecase.ts:268-288`). A win in the last allowed play (`WonInLastPlay`), or one before a sweep, is
  never sent, while the restore script counts it (`scripts/ranking_restore.ts:201-219`); two overlapping calls
  (`BothCallsPass`) send it twice. `CountsAgreeIff` and `RestoreAgreesInOrder` say when both agree; inputs in
  `LastPlayNotSent` and `SentTwice`.
- Finishing a quest chain does not ask again whether the chain is finished (`src/use_cases/quest_usecase.ts:242-255`): its rewards are
  handed out once for every request that commits, as long as each read it before the first commit (`RewardsAreFinishes`,
  `RewardedOnceIff`, `ReadsPrecedeFirstFinish`; a run in `RewardedTwice`).
- A chain that ended more than a month ago is deleted at each of its quests in progress (`src/helpers/quests.ts:57-65`). The second
  deletion fails, and with it the whole check (`CompleteQuests`, `FailsIffTwoInProgress`; an input in
  `EndedChainStops`).

## Model

| member | source | states |
|---|---|---|
| `BlockCaching.BlockStore.FindPending` | src/apps/confirmer/confirmer.ts:30-34 | returns up to 1000 PENDING rows, each once, in the order asked for, cut off only at the far end |
| `BlockCaching.BlockCache.LoadBlocks` | src/helpers/blockchain.ts:165-177 | whatever was cached before, every cached height afterwards holds exactly the rows of that height, and the heights of the range that have rows are cached |
| `BlockCaching.BlockCache.GetParent` | src/helpers/blockchain.ts:179-188 | a block returned is the row with the parent's hash, and the parent is found whenever it is recorded one block lower |
| `BlockCaching.BlockCache.GetGeneration` | src/helpers/blockchain.ts:190-199 | the rows of the height, all of them, each once, whether cached or loaded; what is loaded are the heights from 50 below to 49 above |
| `BlockCaching.BlockCache.GetChildren` | src/helpers/blockchain.ts:201-205 | exactly the rows one block higher that name the block as parent |
| `Confirming.ShouldConfirm` | src/apps/confirmer/confirmer.ts:41-63 | the bounded recursive search with its shortcut on CONFIRMED or chosen children ends and answers whether a path of the needed depth, or a shorter one that meets a CONFIRMED block, hangs below the block |
| `Confirming.Confirmable` | src/utils.ts:47-57 | the serial filter keeps exactly the blocks of the generation that the search accepts |
| `Confirming.ShortcutsAreSound` | src/apps/confirmer/confirmer.ts:45-62 | if every CONFIRMED block has a chain of k descendants, the search with shortcuts and the plain definition, a chain of descendants of that length, agree for every depth up to k |
| `Confirming.ConfirmBlocks` | src/apps/confirmer/confirmer.ts:28-85 | takes the 1000 highest PENDING blocks; throws exactly when two of them have one height and are both supported, then changing nothing; otherwise confirms exactly the supported ones and changes no other row |
| `Confirming.ShouldInvalidate` | src/apps/confirmer/confirmer.ts:96-110 | true exactly if the parent is chosen, or the recorded parent is INVALIDATED, or another block of the height is CONFIRMED |
| `Confirming.InvalidateBlocks` | src/apps/confirmer/confirmer.ts:87-127 | takes the 1000 lowest PENDING blocks and invalidates exactly those that hang, through blocks of the batch, below one that loses by itself |
| `Confirming.CheckBlocks` | src/apps/confirmer/confirmer.ts:129-133 | a poll is one confirming step followed by one invalidating step, or throws and changes nothing |
| `Finality.NextKeepsInv` | src/apps/confirmer/confirmer.ts:28-133 | whatever the chain does, new blocks, confirming and invalidating keep: a CONFIRMED block has k descendants in a chain, an INVALIDATED one descends from a block that lost its height |
| `Finality.RunKeepsInv` | src/apps/confirmer/confirmer.ts:28-133 | the same for every table of every run |
| `Finality.ReorgFinality` | src/apps/confirmer/confirmer.ts:28-133 | in every run in which no fork is k deep, at every moment: at most one CONFIRMED block per height, no CONFIRMED block with an INVALIDATED ancestor, no "Blockchain got owned", and a settled state never changes again |
| `Finality.SecondConfirmationIff` | src/apps/confirmer/confirmer.ts:66-75 | without any assumption on forks: one confirming pass keeps one CONFIRMED block per height exactly when no block of its batch with a chain of k has a rival CONFIRMED earlier |
| `Finality.ConfirmedTwice` | src/apps/confirmer/confirmer.ts:28-85 | a run from PENDING blocks, a fork recorded after the first poll, that ends with two CONFIRMED blocks of one height |
| `Finality.PollReachesFixpoint` | src/apps/confirmer/confirmer.ts:66-133 | after one poll with at most 1000 pending blocks, CONFIRMED are exactly the blocks with a chain of k, INVALIDATED exactly those below a block that lost its height |
| `Finality.StillPendingExactly` | src/apps/confirmer/confirmer.ts:66-133 | after such a poll the PENDING blocks are exactly those with no chain of k, no CONFIRMED rival and no INVALIDATED ancestor, and every recorded parent of a CONFIRMED block is CONFIRMED |
| `BlockTree.ChainThroughChild` | src/apps/confirmer/confirmer.ts:41-63 | a chain of d descendants is a child with a chain of d - 1, and one of none is the recorded block |
| `BatchProgress.BatchIsCut` | src/apps/confirmer/confirmer.ts:30-34 | a batch holds all PENDING blocks if there are at most 1000, and exactly 1000 otherwise |
| `BatchProgress.ReachedIff` | src/apps/confirmer/confirmer.ts:30-34 | with one PENDING block per height, a pass reaches a block exactly if fewer than 1000 PENDING blocks come before it |
| `BatchProgress.ConfirmedIff` | src/apps/confirmer/confirmer.ts:28-85 | then, for any number of PENDING blocks, the pass confirms exactly those that have a chain of k and fewer than 1000 PENDING blocks above them |
| `BatchProgress.ChainMovesOn` | src/apps/confirmer/confirmer.ts:28-85 | so a PENDING chain of more than k blocks, with fewer than 1000 - k PENDING ones above its tip, gets its block k below the tip confirmed, however many blocks are PENDING below |
| `BatchProgress.LoserInvalidatedIff` | src/apps/confirmer/confirmer.ts:87-127 | a block that loses by itself is invalidated if fewer than 1000 PENDING blocks are as low, and otherwise, with one block per height, stays PENDING |
| `Utils.CompareArrays` | src/utils.ts:4-17 | the loop computes the element-by-element comparison |
| `Utils.CompareIsLexicographic` | src/utils.ts:4-17 | its sign is dictionary order on number lists, zero only for equal lists |
| `Utils.CompareTransitive` | src/utils.ts:4-17 | the comparison is transitive, hence with the above a total order |
| `Utils.GroupBy` | src/utils.ts:27-45 | the loop with its current group computes the grouping into runs |
| `Utils.GroupsAreRuns` | src/utils.ts:27-45 | groups put together give the items in order, no group is empty, keys agree within a group and differ between neighbouring groups |
| `Utils.SameGroupsIffSameNeighbours` | src/utils.ts:27-45 | two keys group a list alike exactly when they agree on which neighbours belong together |
| `Transfers.CountMoves` | src/apps/confirmer/confirmer.ts:159-167 | the map of counts holds, for exactly the addresses that occur, how often the token enters minus how often it leaves |
| `Transfers.GetEndpoint` | src/apps/confirmer/confirmer.ts:154-189 | throws exactly for an address count outside -1..1 or several endpoints, null exactly if there is none, else the only endpoint |
| `Transfers.AsManyBeginningsAsEnds` | src/apps/confirmer/confirmer.ts:142-189 | in any list whose counts are in range there are as many last as first addresses, since all counts add up to zero |
| `Transfers.GetLastAndFirst` | src/apps/confirmer/confirmer.ts:142-150 | on arbitrary input last and first address throw together and are null together; on the steps of a walk in any order they are its end and its beginning, or null for a loop |
| `Transfers.WalkEnds` | src/apps/confirmer/confirmer.ts:140-189 | for any ordering of the steps of a walk the counts are in range and the endpoints are the ends of the walk |
| `Transfers.GetDepositor` | src/apps/confirmer/confirmer.ts:237-245 | succeeds exactly when one transfer goes to the locker, and returns its sender |
| `Transfers.DepositorAt` | src/apps/confirmer/confirmer.ts:237-245 | on any walk the call succeeds exactly when the walk comes to the locker once, and returns the address before that stop |
| `Transfers.GroupedAsIntendedIff` | src/apps/confirmer/confirmer.ts:249-269 | the key without the block hash groups rows like the intended key exactly when no two neighbouring rows with equal remaining key differ in their block |
| `Transfers.ForkedTransferMerged` | src/apps/confirmer/confirmer.ts:249-272 | one move recorded on two forks becomes one group that is no path, although each row alone is |
| `TransferChecking.TransferChecker.CheckOneGroup` | src/apps/confirmer/confirmer.ts:270-336 | throws exactly for a group that is no path, a deposit without a single step to the locker, or a contradiction with the item, then changing nothing; otherwise items and settled rows change as the group's outcome says |
| `TransferChecking.TransferChecker.CheckTransfers` | src/apps/confirmer/confirmer.ts:247-338 | the loop over the groups is the composition of the groups' effects, in order; when one throws, exactly the effects of the groups before it stay |
| `TransferChecking.EveryTokenUpdated` | src/apps/confirmer/confirmer.ts:270-311 | when nothing throws, every known token has had exactly its own updates applied, in the order of the groups |
| `TransferChecking.RowsSettled` | src/apps/confirmer/confirmer.ts:308-336 | when nothing throws, a PENDING row of one group takes the state of its block, CONFIRMED or INVALIDATED, unless its group is confirmed and moves a token nobody knows: then it stays PENDING |
| `TransferChecking.GroupMovesItem` | src/apps/confirmer/confirmer.ts:275-311 | an update reaches the item of its group's token and no other; for an unknown token nothing changes |
| `TransferChecking.InvalidatedGroup` | src/apps/confirmer/confirmer.ts:284-336 | a group of an INVALIDATED block throws exactly if it is no path or has several ends; else its rows become INVALIDATED and no item changes, also for unknown tokens |
| `TransferChecking.DeadForksMoveNothing` | src/apps/confirmer/confirmer.ts:270-338 | a whole check leaves the items as the check of the groups of CONFIRMED blocks alone does, and goes through exactly if that one does and the other groups are paths |
| `TransferChecking.OutcomeOfWalk` | src/apps/confirmer/confirmer.ts:271-298 | for a confirmed walk: nothing for a loop; the end as owner outside the locker; for an end that equals the locker, be it up to case only, the address before the locker if the walk comes to the locker exactly once, and an error otherwise |
| `TransferChecking.NothingThrowsIff` | src/apps/confirmer/confirmer.ts:247-338 | the check goes through exactly if every group has an outcome and every known token takes all its updates |
| `TransferChecking.ItemFollowsNewest` | src/apps/confirmer/confirmer.ts:247-338 | if every group has an outcome and no token has contradictory confirmed updates of one moment, nothing throws and every item ends as the newest update from a CONFIRMED block says |
| `Ownership.ItemStore.UpdateItemOwner` | src/helpers/blockchain.ts:73-129 | false exactly for an unknown token, throws exactly for a contradiction at the same moment, and changes the item only to newer information |
| `Ownership.AppliedIs` | src/helpers/blockchain.ts:87-128 | field by field: a newer update sets the user of the owner's wallet, or none, owner, physical wallet, state, block and index; an older one nothing; one of the same moment throws exactly if its owner, up to case, or its state differs |
| `Ownership.NothingThrowsNewestWins` | src/helpers/blockchain.ts:87-128 | consistent updates in any order, with repeats, never throw and leave the newest of them, or the item if none is newer |
| `Ownership.NewestIsUnique` | src/helpers/blockchain.ts:87-128 | which state that is does not depend on the order |
| `Ownership.UpdatesCommute` | src/helpers/blockchain.ts:73-129 | two lists with the same updates end in the same item |
| `Ownership.PositionNeverDecreases` | src/helpers/blockchain.ts:87-111 | for arbitrary, also contradictory updates the stored block and transaction index never go back |
| `PlaySafety.StepKeepsInv` | src/use_cases/play_game_usecase.ts:183-698 | every read half, commit half, abandonment and sweep keeps the invariant that ties sessions, plays, requests in flight, machines and notifications together |
| `PlaySafety.RunKeepsInv` | src/use_cases/play_game_usecase.ts:183-698 | the same for every interleaving of any length |
| `PlaySafety.SessionsStayWithinLimits` | src/use_cases/play_game_usecase.ts:302-332 | in every run a READY session has no open play and fewer plays than allowed, a PLAYING session has exactly one open play, which is its current play, and no session exceeds its limit |
| `PlaySafety.LimitKeptIffPositive` | src/use_cases/play_game_usecase.ts:315-320 | maxPlayCount itself bounds the plays in every run exactly when it is not zero |
| `PlaySafety.ResultsNeverChange` | src/use_cases/play_game_usecase.ts:379-388 | a result once recorded stays whatever happens afterwards, although inProgress writes null |
| `PlaySafety.TerasMatchRewards` | src/use_cases/play_game_usecase.ts:565-587 | in every run the balances are the opening balances plus outside movements plus exactly the rewards recorded on plays |
| `PlaySafety.EnergyFollowsWins` | src/use_cases/play_game_usecase.ts:496-519 | in every run energy stays within the tank, fever is set exactly when the tank is full, one mega spark happens exactly from committed win number ceil(maxEnergy / 4000) on, and one warning exactly from the win before it on, if there is one |
| `PlaySafety.UpcomingIsTheLastWarning` | src/helpers/mega_spark.ts:4-19 | a winning commit warns exactly when the next win on the machine as it leaves it is the mega spark |
| `PlayEffects.EndingIsAccepted` | src/use_cases/play_manager_usecase.ts:30-84 | abandoning and both timeout sweeps never meet a refusal by the constraints |
| `PlayEffects.CreateRefusedIff` | src/use_cases/play_game_usecase.ts:219-254 | a session is refused exactly while another one of its player or on its machine is active |
| `PlayEffects.FinishRefusedIff` | src/use_cases/play_game_usecase.ts:421-441 | with its guards met, finishing a play is refused exactly if it takes a fever spark where none is left, or makes a session READY again that was finished and replaced meanwhile |
| `PlayEffects.RefusedOnlyThere` | src/use_cases/play_game_usecase.ts:183-700 | in every run every step is its transaction without any constraint, but for those refusals, a session beside an active one, and a debt |
| `PlayEffects.LastPlayEndsSession` | src/use_cases/play_game_usecase.ts:268-274 | once the last allowed play has finished a session, a call of finishPlaySession returns at its read |
| `PlayEffects.WonInLastPlay` | src/use_cases/play_game_usecase.ts:257-290 | a run in which a session is won in its only play and no call of finishPlaySession gets past its read |
| `PlayEffects.BothCallsPass` | src/use_cases/play_game_usecase.ts:261-285 | two overlapping calls of finishPlaySession for a READY session both pass and both commit |
| `PlayEffects.AbandonFreesPlayer` | src/use_cases/play_game_usecase.ts:183-213 | abandonment always goes through, ends exactly the player's active sessions and disconnects exactly his open plays |
| `PlayEffects.CreatedIffMachineFree` | src/use_cases/play_game_usecase.ts:173-256 | after it a session is created exactly when nobody else has an active session on the machine |
| `PlayReads.CreatedOnlyWithRows` | src/use_cases/play_game_usecase.ts:219-254 | only READY, under a new id, and with player, owner and machine on record |
| `PlayReads.StartPassesIff` | src/use_cases/play_game_usecase.ts:302-320 | a start gets past its read exactly on a READY session whose plays have all ended and whose limit is none, zero or not reached |
| `PlayReads.StartPassesIffReady` | src/use_cases/play_game_usecase.ts:302-320 | in every reachable state the check for READY decides alone: the checks for unended plays and for the number of plays never turn a READY session away |
| `PlayEffects.StartsIffReady` | src/use_cases/play_game_usecase.ts:322-341 | however old the read, a start commits exactly when the session is READY, and its play is then the only open one |
| `PlayReads.ProgressWritesScore` | src/use_cases/play_game_usecase.ts:379-388 | in every reachable state a report changes nothing but the score, if it has one, and only if the play was not written since its read; it never meets a play with a result |
| `PlayReads.FinishLoadsIff` | src/use_cases/play_game_usecase.ts:399-402 | a finish gets past its first read exactly on an unended play of a PLAYING session and goes on with session and machine as they are then |
| `PlayReads.FinishChecksAndCounts` | src/use_cases/play_game_usecase.ts:461-468 | its second read lets only a play without a result through, its third counts all plays of the session |
| `PlayReads.FinishSessionIs` | src/use_cases/play_game_usecase.ts:261-285 | finishing a session asks for READY at its read and for nothing at its commit |
| `PlayEffects.SweepEndsTimedOut` | src/use_cases/play_manager_usecase.ts:30-57 | a sweep ends exactly the open plays untouched since the target and leaves no session PLAYING on a disconnected play |
| `PlayReads.SweptPlaysEndSessions` | src/use_cases/play_manager_usecase.ts:30-57 | the sessions it finishes are exactly the PLAYING ones with a disconnected play |
| `PlayReads.SweptSessionsWereReady` | src/use_cases/play_manager_usecase.ts:62-86 | the other sweep finishes exactly the overdue READY sessions |
| `PlayEffects.FinishedOnce` | src/use_cases/play_game_usecase.ts:679-681 | after a finish has committed, no other finish of that play has an effect, after any further events |
| `FinishEffects.FinishTakesEffectIff` | src/use_cases/play_game_usecase.ts:421-441 | a finish takes effect exactly if its play has no result, a session that goes on was not finished and replaced meanwhile, and, for a win, both balances are there and the machine has the energy that was read, with a fever spark left if it was full |
| `FinishEffects.FinishPays` | src/use_cases/play_game_usecase.ts:521-587 | then a win raises the player's balance by the emitted player's reward, or by 500 if 4000 more fill the tank, and the owner's by the owner's, both if they are one; all other balances stay, and a loss moves nothing |
| `FinishEffects.FinishRecordsPlay` | src/use_cases/play_game_usecase.ts:678-698 | the play records its score, the result by the target score, these two amounts and the mega spark; no other play changes |
| `FinishEffects.FinishSparksMachine` | src/use_cases/play_game_usecase.ts:592-640 | a win fills the tank it saw and sets 30 fever sparks, or adds 4000, or on a full tank takes one fever spark, and the last one seen takes the machine out of its center |
| `FinishEffects.FinishSettlesSession` | src/use_cases/play_game_usecase.ts:466-478 | the session is READY again exactly if fewer plays were counted than allowed; a mega spark, and a win after which the next one is, are announced |
| `PlayTransactions.CreateFinishPlayTransactUpdates` | src/use_cases/play_game_usecase.ts:453-700 | fails exactly on a full tank without fever; the list it builds, carried out all or nothing on any state, is the protocol's finishing step, which takes the machine out of its center with the last fever spark it saw |
| `PlayTransactions.PlayTables.Transaction` | src/use_cases/play_game_usecase.ts:428 | one query after the other with rollback equals applying all of them or none |
| `PlayTransactions.PlayTables.FinishPlay` | src/use_cases/play_game_usecase.ts:421-441 | the commit half as built from queries is the protocol's step and keeps the invariant |
| `RentSettlement.LedgerAfterCollecting` | src/use_cases/collect_fee_usecase.ts:180-205 | taking the rent of unprocessed rows of one owner, covered by the balance, keeps every user's balance equal to outside movements minus rent taken plus rent given, and non-negative |
| `RentSettlement.LedgerAfterPayingIff` | src/use_cases/collect_fee_usecase.ts:326-352 | marking all collected rows of an owner and crediting an amount keeps the ledger exactly when the amount is the rent of the rows not paid before |
| `RentSettlement.TerasConserved` | src/use_cases/collect_fee_usecase.ts:155-366 | over all users, balances plus rent collected and not yet paid equal what outside movements alone would give |
| `RentSettlement.StaleCollectTotalsHold` | src/use_cases/collect_fee_usecase.ts:157-204 | for totals read at any earlier moment, if the updated count still matches, rows and total are still the same |
| `RentSettlement.SecondPayerPaysAgainIff` | src/use_cases/collect_fee_usecase.ts:311-352 | a second payer with totals from before the first commit passes the count check, and keeps the ledger exactly when the total is zero |
| `RentSettlement.PaidTwice` | src/use_cases/collect_fee_usecase.ts:311-352 | a ledger with one collected rent of 120 for which two payers credit 240 |
| `RentSteps.TotalsBy` | src/use_cases/collect_fee_usecase.ts:157-165 | one total per owner that has rows, with the right sum and count |
| `RentSteps.CollectsTransitive` | src/use_cases/collect_fee_usecase.ts:168-306 | steps that collect, or evict only after a refusal and then uninstall exactly the evicted machines, add up to the same over any number of steps |
| `RentSteps.NoFreeRides` | src/use_cases/collect_fee_usecase.ts:33-40 | after removals, insertion and settlement, a machine still placed since before the date is renewed, in a center that takes machines, and has paid unless owner and center belong together or one has no owner |
| `FeeCollector.Settlement.Disturb` | src/use_cases/collect_fee_usecase.ts:211-228 | between transactions balances move as the world decides, within the non-negative check, and the ledger keeps track |
| `FeeCollector.Settlement.InsertCollectData` | src/use_cases/collect_fee_usecase.ts:118-153 | does nothing if the date has rows; else the date has a row for exactly the machines that were installed before it, are renewed and stand in an open center with another known owner, 120 owed by the machine's owner to the center's, UNPROCESSED and UNPAID |
| `FeeCollector.Settlement.BulkCollect` | src/use_cases/collect_fee_usecase.ts:180-223 | refused exactly when the balance is too small, thrown exactly when the count differs, both without effect; else debits the total and marks exactly the owner's unprocessed rows |
| `FeeCollector.Settlement.CollectRow` | src/use_cases/collect_fee_usecase.ts:237-271 | the same for one row |
| `FeeCollector.Settlement.EvictRow` | src/use_cases/collect_fee_usecase.ts:272-299 | marks an unprocessed row UNINSTALLED and takes its machine out of the game center |
| `FeeCollector.Settlement.Pay` | src/use_cases/collect_fee_usecase.ts:326-352 | in a run whose collection is complete the count check never fails, and exactly the unpaid collected rent of the owner is credited |
| `FeeCollector.Settlement.CollectFrom` | src/use_cases/collect_fee_usecase.ts:168-306 | all at once or row by row, despite spending in between: rows of others stay, rows are collected, or given up only after a debit of this owner was refused, and none stays unprocessed unless the process crashed |
| `FeeCollector.Settlement.CollectFees` | src/use_cases/collect_fee_usecase.ts:155-308 | never throws; if it comes to its end no row of the date is UNPROCESSED, and the machines uninstalled are exactly those of the evicted rows |
| `FeeCollector.Settlement.PayFees` | src/use_cases/collect_fee_usecase.ts:310-365 | never throws; if it comes to its end no collected row of the date is unpaid |
| `FeeCollector.Settlement.RemoveArcadeMachinesWithAutomaticRenewDisabled` | src/use_cases/collect_fee_usecase.ts:41-75 | afterwards no machine installed before the date stays placed without renewal; a machine that changed was one of those and kept owner, terms and date; balances and rows are untouched |
| `FeeCollector.Settlement.RemoveArcadeMachinesInPlacementNotAllowedGameCenters` | src/use_cases/collect_fee_usecase.ts:78-115 | afterwards no machine installed before the date stays in a center that takes no machines; a machine that changed was one of those and kept owner, terms and date |
| `FeeCollector.Settlement.Execute` | src/use_cases/collect_fee_usecase.ts:26-39 | from any state earlier runs and crashes left: the ledger stays exact, rows only move forward and only those of the date, a finished run leaves every row of the date evicted or collected and paid; the first run of a date records exactly the rents owed, by whom and to whom, and finished leaves no machine that rides free; a machine goes only if it was not renewed, stood in a closed center, or its rent was not paid |
| `Randoms.RandomIntPieces` | src/utils.ts:131-135 | for exact numbers getRandomInt stays within its bounds and each value is hit on one piece of the unit interval, all of equal length |
| `Randoms.DoublesStayWithin` | src/utils.ts:131-135 | in binary doubles the rounded product never leads beyond the maximum, and changes the value only where it is rounded up to a whole number |
| `Randoms.ChoiceMultiple` | src/utils.ts:83-97 | throws exactly if n exceeds the list; else for every random stream chooses exactly n items, in order, no place twice |
| `Randoms.SelectionIsDistinct` | src/utils.ts:83-97 | chosen ids are distinct if the ids are |
| `ExtractDraw.WheelIsWeighted` | src/use_cases/extract_usecase.ts:592-604 | of the numbers from 1 to the stock exactly as many fall on an item as it has pieces |
| `ExtractDraw.Spin` | src/use_cases/extract_usecase.ts:595-622 | the loop with its running number, skipping empty items, finds the item the number falls on, and always finds one |
| `ExtractDraw.DrawsConserve` | src/use_cases/extract_usecase.ts:584-623 | item by item, drawn plus left is the stock, nothing below zero, and every draw takes one |
| `ExtractDraw.DrawsOf` | src/use_cases/extract_usecase.ts:584-623 | for every stream and every number of draws up to the stock there are draws, each the item the wheel stops on over what is left |
| `ExtractDraw.DrawsAreDetermined` | src/use_cases/extract_usecase.ts:584-623 | and only those: the stream alone decides what is drawn |
| `ExtractDraw.SortedIsStable` | src/use_cases/extract_usecase.ts:555-565 | sorting gives descending priorities, the same items, and equal priorities in their old order |
| `ExtractDraw.Extract` | src/use_cases/extract_usecase.ts:574-626 | the loop on the cloned box gives, stably sorted, one item for each of min(code, stock) draws, of the kind of the piece drawn and with the priority of that kind, without touching the box |
| `ExtractDraw.ExtractHasPriorities` | src/use_cases/extract_usecase.ts:605-618 | every item of an extract carries the priority of its own kind |
| `ExtractDraw.PartsKeyIsInjective` | src/use_cases/extract_usecase.ts:676 | the joined key tells category and sub-category pairs apart |
| `ExtractDraw.CountParts` | src/use_cases/extract_usecase.ts:673-690 | one entry per kind that occurs with its number; the numbers add up to the number of items |
| `ExtractUseCase.CountBounds` | src/models/extract_table.ts:38-276 | counts lie from 1 to 12, never fall with the code, and for bases up to 10 do not exceed it |
| `ExtractUseCase.HighRows` | src/models/extract_table.ts:196-275 | the rows of bases 10 to 12 entry by entry; `LowRows`, `MiddleRows` and `UpperRows` are the others |
| `ExtractUseCase.PromiseIs` | src/use_cases/extract_usecase.ts:81-118 | too little energy promises no item and is no error; otherwise the promise is the table's count for the largest code that can be paid |
| `ExtractUseCase.PlannedIff` | src/use_cases/extract_usecase.ts:311-345 | an extract is planned exactly if the code with its bonus is in the table and the box holds what the code alone is to bring; the bonus counts exactly if the box holds what it is to bring |
| `ExtractUseCase.DefaultCodeIsLargest` | src/use_cases/extract_usecase.ts:148-166 | fails exactly below one portion of energy; else the code is worth whole portions, as many as fit |
| `ExtractUseCase.PromiseKeptIff` | src/use_cases/extract_usecase.ts:311-350 | for a code and a base, every successful extract, over all bonuses and stocks, keeps the promise exactly if the promised number is at most the code, that is for bases 4 to 10 and for codes from 12 on |
| `ExtractUseCase.PromiseBroken` | src/models/extract_table.ts:220-275 | for bases 11 and 12 there are extracts from a full box that give out fewer |
| `ExtractUseCase.SelectItems` | src/use_cases/extract_usecase.ts:285-350 | exactly when it succeeds; gives out as many drawn items as planned, none of a kind with a lower priority than that of a drawn item kept back; for bases up to 10 and codes from 12 on at least as many as promised |
| `ExtractUseCase.EnergySuffices` | src/use_cases/extract_usecase.ts:448-459 | for sparks and extracts on stale reads in any interleaving, extracted energy never exceeds energy, is taken in whole portions, and neither falls |
| `ExtractUseCase.CommitTakesWhatItRead` | src/use_cases/extract_usecase.ts:448-459 | an extract leaves less than a portion of the energy it read, or changes nothing if another one committed since |
| `ScorePacking.MaskIsMod` | src/helpers/ranking.ts:55-56 | masking with k ones is the remainder modulo 2^k |
| `ScorePacking.OrIsPlus` | src/helpers/ranking.ts:58-59 | or-ing into free low bits is addition |
| `ScorePacking.CountRoundTrip` | src/helpers/ranking.ts:43-73 | a packed count decodes to the count for every date up to the end, and fits 53 bits exactly below 2^30 |
| `ScorePacking.CountOrder` | src/helpers/ranking.ts:43-61 | packed counts order exactly like count, then stored seconds left |
| `ScorePacking.SecondsAreWhole` | src/helpers/datetime.ts:76-88 | the seconds stored are the whole seconds left, up to 2^23 of them |
| `ScorePacking.RateRoundTrip` | src/helpers/ranking.ts:84-125 | a packed rate decodes to whole hundredths: those of the exact product with a hundred, or one more exactly where the double product is that whole number; it fits 53 bits exactly below 2^14 hundredths |
| `ScorePacking.RateOrder` | src/helpers/ranking.ts:84-113 | packed rates order exactly like hundredths as packed, then count, then stored seconds left |
| `Hundredths.FixedOfHundredth` | src/helpers/ranking.ts:105-106 | in binary doubles, floor(h / 100 * 100) is h - 1 exactly for the lost hundredths, and h for all others below 2^45 |
| `Hundredths.HundredthsIncrease` | src/helpers/ranking.ts:121-125 | different hundredths are different doubles in the same order |
| `ScorePacking.HundredthsOrder` | src/helpers/ranking.ts:84-113 | a higher rate of whole hundredths ranks higher, except that two neighbours of which only the higher one is lost tie and are ranked by count and seconds |
| `ScorePacking.SparkRateSurvivesIff` | src/use_cases/ranking_usecase.ts:303-318 | the rate sendRate computes comes back from the score exactly if its hundredths are not lost, and one hundredth lower otherwise; it fits 53 bits when there are no more sparks than plays |
| `ScorePacking.SparkRateLost` | src/use_cases/ranking_usecase.ts:309 | 11 sparks in 14 plays are 7857 hundredths and come back as 7856 |
| `CountSending.CountSender.ReadScore` | src/use_cases/ranking_usecase.ts:250 | remembers the user's score of that moment and changes no score |
| `CountSending.CountSender.WriteScore` | src/use_cases/ranking_usecase.ts:251-259 | fails exactly after the end, for a fractional amount, or when the total would turn negative, without effect; else the user's score decodes to the count stored when it was read plus the amount, whatever was written since |
| `CountSending.RunKeepsInv` | src/use_cases/ranking_usecase.ts:243-260 | in every interleaving of reads and writes each score packs the count its last writer had read plus what that added, and the time of the last write |
| `CountSending.StoredIsSumLessLost` | src/use_cases/ranking_usecase.ts:250-259 | in every run, whatever is sent, the stored count is the sum of everything sent less what was written between the read and the write of the last write, and so on back from what that had read |
| `CountSending.StoredIsSumIff` | src/use_cases/ranking_usecase.ts:250-259 | for amounts that are not negative the stored count never exceeds the sum, and is the sum exactly if on that way back only zeros were overwritten |
| `CountSending.StoredIsSumIffNoOverlap` | src/use_cases/ranking_usecase.ts:250-259 | for positive amounts, exactly if no write for the user falls between the read and the write of another one |
| `CountSending.IncrementLost` | src/use_cases/ranking_usecase.ts:250-259 | a run of two overlapping calls that sends 2 and stores 1 |
| `CountSending.OneByOneStores` | src/use_cases/ranking_usecase.ts:243-260 | calls one after the other store the sum of everything sent and the last date |
| `CountRanking.Ranking.UpdateForSpark` | scripts/ranking_restore.ts:177-240 | every player with a win in the period gets number of wins and latest end packed, all other scores stay |
| `CountRanking.CountsAgreeIff` | scripts/ranking_restore.ts:201-219 | the counts sent for a user and rebuilt for him agree exactly if the sends make up for the sessions that sent nothing; where each session was finished by one call, exactly if none of his winning sessions of the period ended otherwise |
| `CountRanking.LastPlayNotSent` | scripts/ranking_restore.ts:201-219 | a session ended by its last play is counted once and was never sent |
| `CountRanking.SentTwice` | scripts/ranking_restore.ts:201-219 | a session finished by two overlapping calls is counted once and was sent twice |
| `CountRanking.RestoreAgreesIff` | scripts/ranking_restore.ts:225-238 | for equal counts, rebuilt and incremental score agree exactly when last event and latest session left the same number of seconds |
| `CountRanking.RestoreAgreesInOrder` | scripts/ranking_restore.ts:177-240 | for sessions in the order they end, each finished by one call, the wins sent one after the other leave exactly the number the script writes for a user if and only if none of his winning sessions of the period ended otherwise |
| `PrizePool.FloorsIff` | src/helpers/decimal.ts:8-25 | on non-negative values the helper succeeds exactly from one unit of the cut digits on, or with no digits to cut, and then rounds down |
| `PrizePool.NegativesIff` | src/helpers/decimal.ts:8-25 | below zero it rounds towards zero, and the sign counts as a digit |
| `PrizePool.TableIsWellFormed` | src/use_cases/paid_tournament_usecase.ts:468-643 | every number of entries has a setting; in each the ranges follow each other from rank 1 without gap or overlap, ratios fall, and over all ranks they add up to 1 |
| `PrizePool.LargeTournaments` | src/use_cases/paid_tournament_usecase.ts:579-634 | what each of the 20 ranks gets above 200 entries, rank by rank; `SmallTournaments` and `MiddleTournaments` are the others |
| `PrizePool.PoolIs` | src/helpers/paid_tournament.ts:40-55 | the pool is 80, 70, 60 or 50 percent of what was paid in, a ticket being 100 Teras, plus the added prize |
| `PrizePool.ExactlyOneRatio` | src/use_cases/paid_tournament_usecase.ts:229-234 | a rank has a ratio exactly if it is a prize rank, and never two |
| `PrizePool.RatiosSumToOne` | src/use_cases/paid_tournament_usecase.ts:468-634 | summed rank by rank with the lookup, the ratios are 1 |
| `PrizePool.CalcPrize` | src/use_cases/paid_tournament_usecase.ts:218-277 | fails exactly outside the prize ranks, the rounding helper never; a prize is the share rounded down to tens, nothing below ten |
| `PrizePool.PrizesFall` | src/use_cases/paid_tournament_usecase.ts:316-347 | a worse rank never wins more |
| `PrizePool.PoolIsPaidOut` | src/use_cases/paid_tournament_usecase.ts:316-347 | prizes are whole tens; what is paid stays within the pool exactly when the pool is not negative, and with all prize ranks taken is more than pool - 10 * ranks |
| `PrizePool.RecordResult` | src/use_cases/paid_tournament_usecase.ts:305-347 | for every number of entries, fee and added prize, rows for the first 20 of the list in order, with prizes as above; the prizes stay within the pool exactly when it is not negative |
| `ArcadeSlots.FindSlot` | src/use_cases/arcade_machine_usecase.ts:187-197 | the least positive position not in use, at most one more than the rows |
| `ArcadeSlots.FoundSlotIsLeastFree` | src/use_cases/arcade_machine_usecase.ts:187-197 | on the positions of a center's machines that is the least free position the install step of the protocol uses |
| `ArcadeSlots.CentersNeverOverflow` | src/use_cases/arcade_machine_usecase.ts:167-209 | for installs on stale reads and removals in any interleaving, positions stay distinct and within capacity, and no center holds more machines than it has room for |
| `ArcadeSlots.InstallsIfRoom` | src/use_cases/arcade_machine_usecase.ts:167-209 | an install that reads the present goes through exactly if the machine stands nowhere and the center holds fewer than 4, 16 or 64; it takes the least free position and moves nothing else |
| `QuestBook.CompleteOk` | src/helpers/quests.ts:76-114 | completing keeps: opened quests follow completed ones, and a reward is handed out once, exactly for completed quests that have one |
| `QuestBook.OpenOk` | src/helpers/quests.ts:163-192 | so does opening a quest whose preceding ones are completed |
| `QuestBook.DeleteOk` | src/helpers/quests.ts:55-65 | so does deleting a chain with its quests |
| `QuestBook.StartIs` | src/use_cases/quest_usecase.ts:372-420 | starting adds the chain, not completed, with its expiry and exactly its first quests, and changes no other row |
| `QuestBook.CompleteIs` | src/helpers/quests.ts:76-114 | completing records the moment and one reward if there is one, and does nothing to a quest gone or completed |
| `QuestChecker.PeriodIs` | src/helpers/quests.ts:48-55 | both ends of a period belong to it, and a chain is good up to the moment it expires |
| `QuestChecker.QuestProgressChecker.EndedLongAgoIff` | src/helpers/quests.ts:48-66 | a chain is deleted only when its end and the month after it have both gone by |
| `QuestChecker.QuestProgressChecker.GoalIsEnough` | src/helpers/quests.ts:66-80 | in a chain not ended a quest is completed exactly if its progress is not below its goal, in an ended one never |
| `QuestBook.CountMeansAllDone` | src/use_cases/quest_usecase.ts:147-153 | comparing the number of completed quests with the master's is asking whether all of them are completed |
| `QuestChecker.QuestProgressChecker.CheckOne` | src/helpers/quests.ts:26-115 | one quest in progress counts as completed exactly if at that moment its chain has not ended and its goal is reached, is completed then, and no other but by other requests; fails exactly if its chain ended long ago and is gone; of the chains exactly that one and those deleted by other requests disappear |
| `QuestChecker.QuestProgressChecker.CompleteQuests` | src/helpers/quests.ts:22-115 | for any order of the quests, any clock and any other requests: fails exactly if it comes to a quest whose chain ended more than a month ago and was deleted before, by an earlier quest of the pass or by another request; else completed are, beside what other requests complete, exactly the quests whose goal was reached in a chain not ended when the pass came to them, unless their chain is gone, and the chains that disappeared are exactly those deleted |
| `QuestChecker.QuestProgressChecker.FailsIffTwoInProgress` | src/helpers/quests.ts:50-65 | without other deletions, and while no chain comes of age, that is exactly if some chain that ended more than a month ago has two quests in progress |
| `QuestChecker.EndedChainStops` | src/helpers/quests.ts:50-65 | a chain with two first quests, looked at long after its end, stops the pass |
| `QuestChecker.QuestProgressChecker.OpenChain` | src/helpers/quests.ts:148-193 | opens only and all of what is unlocked, asks for a new check only after a wallet quest was opened, and fails only if another request opens quests or deletes chains |
| `QuestChecker.QuestProgressChecker.OpenQuests` | src/helpers/quests.ts:117-194 | the same for all chains neither completed nor expired |
| `QuestChecker.QuestProgressChecker.CheckAndUpdate` | src/helpers/quests.ts:22-199 | the recursion ends, since each new round leaves fewer wallet quests unopened, and keeps the invariant with completed quests untouched, whatever other requests complete, open and delete meanwhile; it fails if the first pass of its last round does, and otherwise only if other requests open or delete; when it comes to its end, in every round the quests reached when the pass came to them are completed, and if there were any, everything unlocked after it is open |
| `QuestUseCase.QuestDesk.ReadStart` | src/use_cases/quest_usecase.ts:288-367 | succeeds exactly within the period, with a balance for the price, and, if the master names a chain that comes first, when that one is completed |
| `QuestUseCase.StartedInTime` | src/use_cases/quest_usecase.ts:288-367 | from the first to the last moment of the period, and only after a completed chain of the master named before it |
| `QuestUseCase.QuestDesk.CommitStart` | src/use_cases/quest_usecase.ts:372-420 | refused exactly if the price cannot be taken or the user has a chain of the master by then; else the chain is there with exactly its first quests |
| `QuestUseCase.QuestDesk.ReadFinish` | src/use_cases/quest_usecase.ts:87-155 | succeeds exactly when the user's chain of the master is neither completed nor expired, the master in its period and all its quests completed |
| `QuestUseCase.FinishedInTime` | src/use_cases/quest_usecase.ts:87-155 | within the period and up to the chain's expiry, only if not completed yet and with an end recorded for every quest of the master |
| `QuestUseCase.QuestDesk.CommitFinish` | src/use_cases/quest_usecase.ts:242-255 | completes whatever chain of the master is there and hands out its rewards once more; fails exactly if there is none; if it is the chain that was read, its quests are all completed |
| `QuestUseCase.RunKeepsInv` | src/use_cases/quest_usecase.ts:87-420 | for every interleaving of reads, commits, completions, openings and deletions: one chain per master, finished chains stay completed, and a pending request read before any finish was committed on the chain it would finish |
| `QuestUseCase.RewardsAreFinishes` | src/use_cases/quest_usecase.ts:242-255 | in every run the rewards of a chain were handed out as often as finishes were committed on it |
| `QuestUseCase.RewardedOnceIff` | src/use_cases/quest_usecase.ts:124-255 | at most once exactly if no finish of the chain committed between the read and the commit of another one |
| `QuestUseCase.ReadsPrecedeFirstFinish` | src/use_cases/quest_usecase.ts:140-142 | of all finishes committed on a chain each had read before any of them committed |
| `QuestUseCase.PredecessorWasFinished` | src/use_cases/quest_usecase.ts:354-367 | in every run a chain is only there if the chain its master names was finished before |
| `QuestUseCase.FinishesWhatItRead` | src/use_cases/quest_usecase.ts:124-153 | in every run a pending request finds the chain it read, if that is still there, and all quests of it are still completed |
| `QuestUseCase.RewardedTwice` | src/use_cases/quest_usecase.ts:124-255 | a run in which two overlapping requests hand out the rewards of one chain twice |

## Left out

- Network clients, resolvers, REST handlers, logging, notifications to devices, campaign and image tables: plumbing or constant data.
- The watcher is modelled only as "new PENDING blocks may appear"; `Confirmer.start` and `stop`, which poll and wait, are not modelled.
- checkCurrencyTransfers and the deposit and withdrawal states are not modelled; rows are taken as the query returns them.
- Ownership: which wallet belongs to a user is a fixed map during a list of updates.
- Play: the checks before a session is created (playable machine, daily limit, difficulty), score signatures, tokens and boosters are not modelled; the reward before boosters and mega sparks is an arbitrary input of the request; amounts of Teras are counted in their smallest unit.
- Play: the protocol is modelled on values, one state with one function per transaction; only the transaction of finishPlay is also modelled with its list of queries. FINISHED as a final session state and a non-negative fever count at start are not claimed, since finishing a session commits without a guard and starting a play does not look at fever.
- Rent: amounts are integers; collection dates and notifications are not modelled; machines and centers change during a run only through the run itself; one executor runs at a time, except in the two lemmas about stale totals.
- Extract: the transaction that hands out parts and junk is modelled only for the machine's energy; fees are a flag that says whether the balance suffices; the season base does not change between promise and extract; priorities are an arbitrary function of the kind of item.
- `Randoms.RandomIntPieces`: random numbers are exact reals here and in the lottery; in doubles the pieces differ in length by what rounding moves over their ends (`Randoms.DoublesStayWithin`).
- `ScorePacking.CountRoundTrip`: beyond 53 bits the conversion to a floating-point number would round; the model keeps the exact integer and states when it fits.
- `CountSending.CountSender.WriteScore`: adding an amount to the stored count is exact, not rounded to 53 bits; which rankings and tournaments a session counts for is not modelled.
- `Hundredths.FixedOfHundredth`: stated below 2^45 hundredths; a rate of at most 65535 sparks stays below 2^30.
- Prize pool: Decimal arithmetic is exact, without its limit of 20 significant digits; ticket, dollar and rupiah amounts and users excluded from claims are not modelled.
- Arcade slots: fees, ownership and state checks around an install are not modelled; a machine's owner installing it twice at once moves it, as in the source.
- Quests: progress functions and the contents of rewards are not modelled; the price of a chain is two flags, whether the balance suffices when it is read and when it is taken; a month after the end of a chain is an arbitrary function of its end; while the check runs, other requests of the user complete and open quests and delete chains, but neither start nor finish chains.
- src/utils.ts shuffle, src/helpers/fee.ts, crafting, dismantling, withdrawal, login bonuses, purchases: easier or independent parts.
