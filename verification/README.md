# Chain follower, indexer and monitors: a verified model

The system follows a Substrate-style chain through one node, keeps a database index of it, and raises
alerts. This project models the parts whose correctness spans several functions, and proves what they
promise to each other:

- the **follower** loads a header cache, imports announced blocks, moves its best block along the route
  through the block tree, broadcasts what was enacted and retracted, and prunes the cache;
- the **indexing loop** turns each message into a range of blocks, processes up to a number of them at
  once, and stores a checkpoint;
- the **tables** are written by many blocks in flight and by the processors of two chains;
- the **decoders** read partial values out of chain storage, and events out of storage segments;
- the **monitors** watch for stalls, deep reorgs and slow slots.

The central results compose. A consumer that replays the broadcasts always holds the path to the
follower's best block (`Messages.ReplayHoldsBestPath`, `Follower.Session.ListenForBlocks`). Follower and
indexer together follow every announced block, and every height up to the checkpoint has the rows of the
block on the best path, until an import fails, the process ends, or a message is missed, which is a reorg
of a single block at or below the checkpoint (`Lockstep.AgreesUnlessMissed`, `EndToEnd.FollowAndIndex`).
When messages are also dropped or cut short by crashes, the exact condition for staying on the best path is
`Restarts.AgreesThroughoutIff`. In every run on a changing chain, with crashes between any two statements,
every height up to the checkpoint has its rows exactly once if no message reaches below the checkpoint
(`Runs.ExactlyOnce`), and that condition is exact (`Runs.InOrderIffNotBelow`). When tables that many
interleavings write come out the same, and right, is stated exactly: nominators
(`Convergence.ConvergesIffDecidedAlike`, `Readings.ConvergesIffNoDecisionHangs`), their counts
(`Recounts.CountsAlwaysRightIff`, `Recounts.CountsStayRightIff`), withdrawals (`Readings.WithdrawalsRightIff`)
and transfers (`Xdm.OrderIrrelevantIffConflictFree`, `Runs.TransfersConverge`).

## How it is modelled

- `Chain`, `Messages`: the block tree is a map from hash to header with one genesis block and numbers that
  rise by one; hashes do not collide. Paths, routes and messages are defined on the tree alone, without
  cache or walk; the walk, the cache and the session are proved against them.
- `Node`: the node's answers while one block is handled are values. Any call may fail.
- `Routes`: the walk belongs to a library, `sp_blockchain::tree_route`, which is not part of this
  repository. It is written as README.md:52 describes it, over the callback at
  shared/src/subspace.rs:712-718: raise the higher end to the lower one's number, then raise both until
  they meet.
- `HeaderCache`, `Follower.Session`, `Database.Db`, `IndexerLoop.Indexer`, `Scale.Input`,
  `StallAndReorg.Watch`, `Slots.Monitor` are classes with the fields the source updates. The endless loops
  run over finite streams of arbitrary length.
- `Follower`, `Loading`: what a session comes to is a function of the items it sees (`Follower.CourseOf`),
  and when loading succeeds a predicate on them (`Loading.Loads`); the methods are proved to do exactly that.
- `Processor`: one step is one database statement of one block in flight. Results are taken in ascending
  order, as `buffered` gives them. A crash, or an error, which ends the process the same way, may fall
  between any two steps, and a restart begins at the stored checkpoint. Every attempt at a height has its own
  block and statements, so the chain may change at any time.
- `IndexerLoop`: the loop of the staking processor, which executes the statements on its database. What it
  does not decide is its input: which block in flight is polled, what is fetched when a block is begun, and
  after which step the process crashes.
- `Tables`, `Schedules`: SQL statements are atomic functions on tables. A schedule is any order of
  statements in which each attempt at a height starts at its first statement and goes on in order; attempts
  may be abandoned anywhere, overlap with any other height's, and differ from each other.
- `Staking`: the statements of a block as a function of its events and of what an attempt has read for them;
  `StakingIndexer` executes them loop by loop as the source does, and `StakingIndexer.IndexStakingForBlock`
  ties the two together. `Readings` says which readings an attempt at a block may have: each tolerated read
  gives the chain's value or fails. `Recounts` follows the counts through all readings.
- `StakingRows`, `NominatorRows`, `OperatorRows`, `XdmRows` say column by column, in the block's events and in
  literal figures, what an indexed block or a stored transfer event leaves in each table, without naming the
  functions that build the rows; `BlockParts` cuts a block's statements at one event for this. `Layouts` does
  the same for the decoders, byte by byte, and `SlotAlerts` for the slot monitor, on the chain of slots alone.
- `Runs`, `EndToEnd`: a ledger maps hashes to blocks; an attempt is a reading of the ledger's block.
- `Scale`, `RpcTypes`, `Withdrawals`, `StakingSummaries`: for each layout an encoding, a parser that reads
  at offsets, and the cursor decoder. The encoding rules are those of the SCALE Codec section, with Length
  and Compact Encoding, of the Polkadot Protocol Specification; the canonical check of compact lengths is
  the codec library's.
- `StallAndReorg`, `Slots`: the alerts are functions of the history alone (how many timeouts since the last
  message, which slot was last accepted), and the loops that keep running state are proved to send exactly
  those. How a full slot window makes room is a parameter, because that library is not part of this
  repository.

## What the code does otherwise than described

- indexer/src/processor.rs:51-59 starts a one-block message at the checkpoint's successor. A reorg whose
  message holds one block at or below the checkpoint is therefore skipped at line 77 and the index keeps
  the retracted block: `Lockstep.SingleBlockReorgIsMissed` is such a run, and `Lockstep.AgreesUnlessMissed`
  shows that these are exactly the messages that go wrong.
- A crash while a range below the checkpoint is redone is not recovered, because the checkpoint still counts
  those blocks as done: `Runs.RedoCrashLosesRows`, with a concrete run in `Runs.DepositIsLost`.
- indexer/src/staking.rs:242-253 takes a failed read for a deposit that is still there, and lines 74-95 skip
  a registration that cannot be read. A nominator's status then depends on which attempt failed to read, as
  in `Readings.FailedReadKeepsNominator`; `Readings.ConvergesIffNoDecisionHangs` says exactly when it cannot.
- Nor is an operator's nominator count always right: an attempt can be abandoned between a registration's
  upserts and its recount, and a later attempt that cannot read the registration completes the block, as in
  `Recounts.AbandonedRegistrationMiscounts`; `Recounts.CountsAlwaysRightIff` says exactly when it cannot.
- indexer/src/staking.rs:205-213 writes zeros for a withdrawal entry it fails to read, and a completed block
  is not processed again: `Readings.FailedReadLosesWithdrawal`, `Readings.WithdrawalsRightIff`.
- The slot monitor reports timeouts from before the first slot in the first stalls and the first recovery
  after it, as alerter/src/slots.rs:66-70 does not reset them: `Slots.EarlySilenceLengthens`.
- README.md:54 describes the reorg data as holding the enacted blocks; shared/src/subspace.rs:507 takes the
  new best block out of them first. `Messages.MessageShape` states what is sent.
- README.md:60 speaks of retracted blocks exceeding the threshold; the code alerts when they reach it.
- README.md:55 speaks of pruning headers older than 100 blocks; the code removes only the unbroken run of
  cached numbers that ends there, so older headers below a gap stay, as after a reconnect more than 100
  blocks later: `HeaderCache.PrunesAllIffUnbroken`, `HeaderCache.PruneAboveGap`,
  `Loading.LateLoadKeepsOldHeaders`.
- A recovery alert can come with no stall alert before it, when the timeouts fell before the first block:
  `StallAndReorg.RecoveryWithoutStall`.

## Model

| member | source | states |
|---|---|---|
| `Chain.RouteJoinsPaths` | shared/src/subspace.rs:481-490 | The route's common block, enacted and retracted blocks rebuild both genesis paths, and new number minus old number is enacted minus retracted count |
| `Chain.CommonBlockIsHighest` | shared/src/subspace.rs:517-521 | A block is an ancestor of both ends if and only if it is an ancestor of the route's common block |
| `Chain.EnactedAndRetractedAreDisjoint` | shared/src/subspace.rs:484-485 | No block is both enacted and retracted, and the common block is neither |
| `HeaderCache.HeadersMetadataCache.AddHeader` | shared/src/subspace.rs:661-688 | Caches exactly this header; the hash map and the number index keep agreeing |
| `HeaderCache.HeadersMetadataCache.RemoveHeaderUntil` | shared/src/subspace.rs:690-699 | Ends, also at 0, and removes exactly the headers numbered in the longest unbroken run of cached numbers that ends at the given number |
| `HeaderCache.HeadersMetadataCache.GetHeader` | shared/src/subspace.rs:701-718 | Gives the cached header or names the missing hash |
| `HeaderCache.PrunesAllIffUnbroken` | shared/src/subspace.rs:690-699 | Pruning removes every header up to its number if and only if no number is missing between a cached one and that number |
| `HeaderCache.GapKeepsHeader` | shared/src/subspace.rs:690-699 | A header below a missing number outlasts pruning, and the number stays missing |
| `HeaderCache.PruneAboveGap` | shared/src/subspace.rs:690-699 | A cache with blocks 1 and 3 that still holds block 1 after pruning up to 3 |
| `Routes.WalkTreeRoute` | shared/src/subspace.rs:636 | The walk gives the route of the fully known tree exactly when all of that route's blocks are cached, and otherwise names an uncached block of the route |
| `Routes.RecursiveTreeRoute` | shared/src/subspace.rs:630-651 | Whatever the cache held, the retry ends; it gives the full tree's route exactly when the node serves every uncached block of it; it adds true headers of that route only |
| `Messages.ReplayMovesPath` | shared/src/subspace.rs:484-525 | Dropping the retracted blocks from the old best path and appending the message's blocks gives the new best path |
| `Messages.MessageShape` | shared/src/subspace.rs:501-525 | Blocks are chained from the common block to the new best block, retracted from the common to the old best one, and the reorg data repeats the blocks without the last |
| `Messages.MessageUnlessOnPath` | shared/src/subspace.rs:481-499 | There is a message for every move of the best block except one to a block that already is on its path |
| `Messages.ReplayHoldsBestPath` | shared/src/subspace.rs:478-531 | After any sequence of best-block moves a consumer that replays the messages holds exactly the genesis path to the best block |
| `Follower.Session.MoveBestBlock` | shared/src/subspace.rs:501-530 | Sends the message of the move, makes the last enacted block the best one, raises the line to 100 below its number and prunes exactly up to there, so that all of the new path less than 100 below it and above the old line is cached |
| `Follower.Session.ImportBlock` | shared/src/subspace.rs:455-530 | One round: it succeeds if and only if the node names the canonical block at that height and, for a canonical block, serves all uncached blocks of the route; the best block moves, with one message that replays from the old path to the new one, exactly to a canonical block that is not on the best path; the line is then raised to 100 below it; an error sends nothing and is never a cache miss |
| `Follower.Session.ListenForBlocks` | shared/src/subspace.rs:449-531 | For every stream of announced blocks, node answers and failures: the messages, the best block and the end are those of importing the items in turn up to the first that fails; the messages replay from the starting path to the path of the best block, of which all that is above the starting line and less than 100 below every block sent stays cached |
| `Follower.LineIsHighest` | shared/src/subspace.rs:528-529 | What the messages have raised the line to: the highest of where it was, 0, and 100 below each best block |
| `Follower.BestStaysCached` | shared/src/subspace.rs:455-529 | The best block is cached throughout a session if it is at its start, and at any rate once it has moved |
| `Follower.RetainedRouteNeedsNoFetch` | shared/src/subspace.rs:528-529 | A route that stays above the highest pruned number and whose fork is cached needs no fetch |
| `Loading.FirstCanonical` | shared/src/subspace.rs:575-582 | Takes items up to the first canonical block, and fails if and only if there is none before the subscription ends, breaks or a call fails |
| `Loading.LoadHeaderMetadataCache` | shared/src/subspace.rs:570-628 | Succeeds if and only if there is a first canonical block and it and all canonical headers from 100 below it can be read; it then caches exactly these besides what it had, and else nothing; if the node's chain is the path to that block, that path is cached |
| `Loading.LateLoadKeepsOldHeaders` | shared/src/subspace.rs:591-620 | A load that starts beyond the number after all that was cached leaves all of that in the cache for good, whatever is pruned later |
| `Loading.RunConnection` | shared/src/subspace.rs:415-446 | One connection is loaded and listened to exactly as its items have it, ends with an error that reconnects, and keeps its best path cached above the line its messages have raised from the one after loading |
| `Loading.LogReplays` | shared/src/subspace.rs:415-446 | What a connection sent replays from the path of the block it loaded to the path of its last best block, which is cached after a stable load or a move |
| `Loading.ListenForAllBlocks` | shared/src/subspace.rs:411-447 | Any number of connections sharing one cache are all run in turn, each from the headers the one before left; the branch that returns an error it does not reconnect after is never taken |
| `Processor.ChooseRange` | indexer/src/processor.rs:53-79 | The range of blocks to process: from the least of the message's numbers and the checkpoint's successor, to the greatest; for a one-block message from the checkpoint's successor |
| `Processor.CheckpointIsSound` | indexer/src/processor.rs:40-104 | In every run, on a chain that changes between any two attempts, with lag, failed checkpoint reads, reorg ranges that move the checkpoint back and crashes between any two statements, every block up to the checkpoint was executed in full by some attempt |
| `Processor.StaysSettled` | indexer/src/processor.rs:82-103 | While no message reaches below the checkpoint, the latest attempt at every height up to it is the one last finished, in full |
| `Processor.UntouchedBelow` | indexer/src/processor.rs:77-103 | What lies at or below the checkpoint, settled or not, is not executed again by any run that never reaches below it, and the checkpoint only rises |
| `Processor.HandledMessage` | indexer/src/processor.rs:51-103 | Whatever the interleaving, a handled message leaves exactly its range processed by attempts begun while it was handled, all else as it was, and the checkpoint at the range's top |
| `Processor.HandledMessageSettles` | indexer/src/processor.rs:77-103 | A handled message leaves nothing up to the new checkpoint half-done, even one that reached below the old checkpoint |
| `Processor.CanHandle` | indexer/src/processor.rs:81-103 | No deadlock: every non-empty message can be handled to the end, with any attempts, whatever the checkpoint |
| `Processor.CheckpointEveryHundred` | indexer/src/processor.rs:95-99 | While a range is worked on, the stored checkpoint is the greatest multiple of 100 among the range's results taken so far, or what it was before when there is none |
| `Processor.CrashRepeatsFewerThanHundred` | indexer/src/processor.rs:95-103 | A crash leaves that checkpoint; in a range that began right after the checkpoint, a restart repeats at most 99 of the results taken |
| `Processor.FlightsAreBounded` | indexer/src/processor.rs:82-93 | In every run the blocks in flight are among the next `parallel` ones whose results are to be taken |
| `Processor.WindowFills` | indexer/src/processor.rs:82-93 | That bound is reached: as long as the range has blocks left, `parallel` of them can be in flight |
| `IndexerLoop.Indexer.HandleMessage` | indexer/src/processor.rs:46-103 | Every step of the loop body is the one due (a result ready, the statement or the begin of the height whose turn it is, or a crash), until the whole range is processed and the checkpoint at its top, or a crash was due, which leaves the checkpoint of the last hundredth block taken; the tables stay those that the executed statements leave |
| `IndexerLoop.TakenIsDetermined` | indexer/src/processor.rs:46-103 | The polls, the fetches and the crash point determine how a message is taken: whether to the end, by which steps and to which state |
| `IndexerLoop.EveryPromptRunIsDue` | indexer/src/processor.rs:81-99 | Whatever interleaving of the next `parallel` blocks' statements: on some course the loop takes exactly these steps, as long as results are taken when they are ready |
| `IndexerLoop.Indexer.RunProcessor` | indexer/src/processor.rs:40-105 | The receive loop takes every item of the stream in turn, each from the state the one before left, unless the channel closes, an empty message panics or the process ends |
| `IndexerLoop.Indexer.RunWithRestarts` | indexer/src/processor.rs:31-105 | Restarted any number of times on one database and a changing chain, every life takes its stream from what the one before left, and all blocks up to the checkpoint have been processed in full |
| `Lockstep.DroppedMessage` | indexer/src/processor.rs:41-45 | A dropped message keeps the index in agreement with the new best block if and only if the two paths part above the checkpoint |
| `Lockstep.AgreesIffRedoneFromCommon` | indexer/src/processor.rs:51-103 | Whatever was dropped before it, a handled message leads to agreement with the new best block if and only if its range starts no higher than right after the common block |
| `Lockstep.AgreesUnlessMissed` | indexer/src/processor.rs:51-103 | From an index that agrees with the best path, a handled message leads to one that agrees with the new best path if and only if it is not a one-block reorg at or below the checkpoint |
| `Lockstep.IndexFollowsBestPath` | indexer/src/processor.rs:51-103 | Over any sequence of extensions and reorgs, also to shorter chains, the index agrees with the best path after every message as long as none is missed, and nothing up to the checkpoint is half-done |
| `EndToEnd.TablesFollowBestPath` | indexer/src/processor.rs:51-103 | Over the same sequences every height up to the checkpoint has the rows of the block on the best path, as the attempt that finished there read them, and exactly its rows if and only if that attempt read the withdrawals right |
| `Restarts.AgreesIffKeepsUp` | indexer/src/processor.rs:40-105 | A message that is handled, dropped, or cut short by a crash at any step: the exact condition under which the index agrees with the new best block afterwards |
| `Restarts.AgreesThroughoutIff` | indexer/src/processor.rs:40-105 | Over any sequence of moves whose messages are handled, dropped or cut short with restarts after them, the index agrees with the best path throughout if and only if each of them meets that condition |
| `Lockstep.SingleBlockReorgIsMissed` | indexer/src/processor.rs:51-79 | A concrete two-block fork whose one-block reorg is skipped, which leaves a retracted block in the index |
| `EndToEnd.HandleMove` | indexer/src/processor.rs:46-103 | A move's message is handled to the end or up to where the process ends; the index then agrees with the new best path if and only if the message was not missed |
| `EndToEnd.Step` | shared/src/subspace.rs:455-530 | One announced block imported by the follower and its message, if any, indexed: it ends if and only if the import fails or the process ends, and is out of step if and only if the message is missed |
| `EndToEnd.FollowAndIndex` | indexer/src/processor.rs:40-105 | Follower class and loop class together: all announced blocks are followed and indexed in turn and the database has the rows of the path to the session's best block, as they were read, unless an import fails, the process ends or a one-block reorg is missed |
| `Schedules.DepositsOfHeight` | indexer/src/storage.rs:793-837 | In every interleaving, crashes included, the deposit rows of a height are exactly those its latest attempt has inserted so far, in order |
| `Schedules.WithdrawalsOfHeight` | indexer/src/storage.rs:801-857 | The same for withdrawal rows, once past the two deletes |
| `Schedules.DepositsRightIffNoneOutstanding` | indexer/src/staking.rs:67-70 | A height's deposit rows are those of its latest attempt if and only if none of its inserts is outstanding |
| `Schedules.CompleteBlockHasItsRows` | indexer/src/staking.rs:67-70 | A completed height has exactly the deposit and withdrawal rows of its latest attempt, whatever earlier attempts ran |
| `Convergence.RowIsNewest` | indexer/src/storage.rs:547-562 | In every interleaving a nominator row carries the greatest height that upserted it and, if that height's latest attempt sets one, the last status it set |
| `Convergence.NominatorsConverge` | indexer/src/storage.rs:547-562 | Two interleavings whose completed attempts decide the same leave the same nominators table, if no abandoned attempt's write has outlived them |
| `Convergence.NominatorsAsIfOneByOne` | indexer/src/processor.rs:82-93 | That table is the one of processing the completed attempts one by one in ascending order if and only if no abandoned attempt's write has outlived them |
| `Convergence.ConvergesIffDecidedAlike` | indexer/src/storage.rs:547-562 | Over given possible attempts, all complete interleavings of the same heights leave the same table if and only if the attempts at one height decide alike |
| `Counts.CountRightOrOwed` | indexer/src/storage.rs:564-579 | From tables with a right count, in every interleaving an operator's nominator count is the number of its active nominators, or some height still owes its recount |
| `Counts.UpsertCounts` | indexer/src/storage.rs:540-579 | A row that becomes active adds exactly one to its operator's number of active nominators, an active one that becomes withdrawn takes exactly one away, and any other upsert changes nothing |
| `Tables.CountIsLength` | indexer/src/storage.rs:564-575 | That number is the length of every duplicate-free listing of the operator's active addresses |
| `Counts.CountsRightWhenComplete` | indexer/src/storage.rs:540-579 | Once every started height is complete, counts that were right at the start are right again, also when nominators were written before their operator row, if the latest attempts recount what abandoned ones unsettled |
| `Recounts.CountsAlwaysRightIff` | indexer/src/staking.rs:72-256 | On a fixed chain all counts come out right in every complete interleaving, whatever reads fail in whichever attempt, if and only if no block registers an operator that it does not otherwise touch |
| `Recounts.KeepsCountRightIff` | indexer/src/storage.rs:540-579 | From any tables with a right count, given possible attempts leave it right in every complete interleaving if and only if, whenever one at a height may unsettle it, all at that height recount it |
| `Recounts.CountsStayRightIff` | indexer/src/staking.rs:72-256 | On a chain that may change among given blocks and from any tables, an operator's count stays right if and only if of two blocks of one height, when one bears on it, the other is sure to recount it |
| `Recounts.AbandonedRegistrationMiscounts` | indexer/src/staking.rs:72-121 | A block with one registration, completed after an abandoned attempt, whose operator has a wrong count |
| `Readings.ReadingKeepsDeposits` | indexer/src/staking.rs:144-181 | Every attempt at a block writes the same deposit rows, whatever it could read |
| `Readings.WithdrawalsRightIff` | indexer/src/staking.rs:183-226 | An attempt writes a block's withdrawal rows with the chain's figures if and only if it read every entry to these figures |
| `Readings.WithdrawalsAlwaysRightIff` | indexer/src/staking.rs:183-226 | Every attempt does, whatever it can read, if and only if each entry is absent or all zeros |
| `Readings.FailedReadLosesWithdrawal` | indexer/src/staking.rs:205-213 | A completed block with one withdrawal of 5 shares whose row has none after a failed read |
| `Readings.ProgramDecides` | indexer/src/staking.rs:72-256 | The status a block's statements leave for a nominator is that of its last unlock of staked funds, else its last full unlock, else its last nomination, else its registration as owner |
| `Readings.ConvergesIffNoDecisionHangs` | indexer/src/staking.rs:72-256 | On a fixed chain, whatever reads fail in whichever attempt, complete interleavings of the same blocks leave the same nominators table if and only if no block's decision hangs on a read that may fail |
| `Readings.FailedReadKeepsNominator` | indexer/src/staking.rs:240-256 | A block with one unlock: active after a failed read, withdrawn after a successful one |
| `Staking.ProgramIsBlockProgram` | indexer/src/staking.rs:67-261 | Every block's statements delete first and only there, write for their own height, and recount after everything that unsettles a count |
| `Staking.ProgramInserts` | indexer/src/staking.rs:156-226 | A block inserts one deposit per nomination and one withdrawal per withdrawal event, in event order |
| `Staking.WrittenFeesAreFirst` | indexer/src/staking.rs:146-181 | The fees written for a pair, row by row, are its fees in their order, each once, and then zeros |
| `Staking.FeesAreConserved` | indexer/src/staking.rs:146-181 | Per operator and nominator, fees written plus fees left over equal fees deposited |
| `StakingIndexer.CollectStorageFees` | indexer/src/staking.rs:144-154 | The queues hold each pair's fees in event order |
| `StakingIndexer.TakeFee` | indexer/src/staking.rs:162-171 | The nomination gets its pair's next unused fee, or 0 |
| `StakingIndexer.RunNominations` | indexer/src/staking.rs:144-181 | The nomination loop executes exactly the statements with the i-th fee for the i-th nomination |
| `StakingIndexer.IndexEpochSharePrices` | indexer/src/staking.rs:266-350 | Executes a price upsert and a stats update for each operator whose price and data can be read, and nothing for the others |
| `StakingIndexer.IndexStakingForBlock` | indexer/src/staking.rs:57-264 | Indexing a block executes exactly its program on the tables |
| `StakingRows.DepositColumns` | indexer/src/staking.rs:156-181 | An indexed block leaves one deposit row per nomination, at its place among them, with the event's operator, nominator and amount and the block's height and time |
| `StakingRows.DepositFee` | indexer/src/staking.rs:144-181 | The k-th nomination of a pair gets the amount of the pair's k-th fee event, wherever that is in the block, and 0 when there are not so many |
| `StakingRows.WithdrawalColumns` | indexer/src/staking.rs:183-226 | An indexed block leaves one withdrawal row per withdrawal, at its place among them, with the event's operator and nominator, the block's height and time, and the entry's shares, amount and refund each in its own column, or three zeros when none was read |
| `StakingRows.OtherHeightsStay` | indexer/src/staking.rs:67-70 | The rows of all other heights are left as they were |
| `NominatorRows.NominatorAfterBlock` | indexer/src/staking.rs:72-256 | Unless a newer block wrote the row, an indexed block leaves its own height and the status of the last event to write it in the order of the loops: active for a registration's owner and a nomination, withdrawn for an unlock, and for a staked unlock withdrawn only if the deposit was read to be gone |
| `NominatorRows.NewerRowAfterBlock` | indexer/src/storage.rs:547-562 | A nominator row of a greater height is left alone by the whole block |
| `NominatorRows.UnnamedAfterBlock` | indexer/src/staking.rs:72-256 | A nominator that no event writes keeps its row, or has none as before |
| `OperatorRows.StatusAfterBlock` | indexer/src/staking.rs:121-142 | An operator's row shows the status of the last event to bear on it in the order of the loops: deregistered, slashed, deactivated, or registered again |
| `OperatorRows.RegistrationAfterBlock` | indexer/src/staking.rs:72-119 | When that is a registration, the row has the status, stake, shares and fee deposit of the operator as it was read |
| `OperatorRows.IdentityAfterBlock` | indexer/src/staking.rs:96-119 | A new operator's domain, owner, signing key, minimum stake and tax are those of its first registration that could be read |
| `OperatorRows.EpochAfterBlock` | indexer/src/staking.rs:258-350 | After an operator's last readable epoch entry, its share-price row for that domain and epoch has the entry's price, stake and shares and the block's height and time, and its own row the status, stake, shares and fee deposit that were read |
| `OperatorRows.UntouchedAfterBlock` | indexer/src/staking.rs:72-142 | An operator that no event bears on keeps its status and stats |
| `Database.Db.UpsertNominator` | indexer/src/storage.rs:540-579 | The guarded upsert and then the recount: a newer row is kept, and the operator's stored count is the length of every duplicate-free listing of its active addresses |
| `Tables.FirstInsertFixesIdentity` | indexer/src/storage.rs:673-755 | The columns an operator's first insert sets are never changed by any later statements |
| `Database.Db.UpsertOperator` | indexer/src/storage.rs:673-705 | Inserts with a count of 0, or overwrites only the stats columns |
| `Database.Db.StoreEvents` | indexer/src/storage.rs:272-465 | A block's events, stored in order, are the merge of their columns into their rows |
| `Runs.ExactlyOnce` | indexer/src/staking.rs:67-70 | As long as no message reaches below the checkpoint, after any run on a changing chain with crashes anywhere, every height up to the checkpoint has the deposit rows of the block it was last processed with and its withdrawal rows as the finishing attempt read them, each once; they are exactly the block's rows if and only if that attempt read the entries right |
| `Runs.InOrderIffNotBelow` | indexer/src/processor.rs:51-103 | A message can be received without a crash being able to leave a block up to the checkpoint half-processed if and only if it does not reach below the checkpoint |
| `Runs.RedoCrashLosesRows` | indexer/src/processor.rs:77-103 | A message that reaches below the checkpoint and a crash after the deletes empty its lowest height for good, with the checkpoint where it was: no later run that does not reach below brings the rows back, and they are right if and only if the block has none |
| `Runs.DepositIsLost` | indexer/src/processor.rs:77-103 | A concrete run: a block with one nomination is indexed, a message for blocks 1 and 2 reaches below, and after a crash the deposit is gone for good |
| `Runs.ConvergedAtRest` | indexer/src/processor.rs:82-93 | At rest the nominators are as if the latest attempts were processed one by one if and only if no abandoned write has outlived them; a count is right if the blocks of one height bear on it alike |
| `Runs.AtRestBelowCheckpoint` | indexer/src/processor.rs:95-103 | A run that never reaches below the checkpoint is at rest as soon as no started height is above it |
| `Runs.RunIsAsIfOneByOne` | indexer/src/processor.rs:40-105 | A run at rest on a fixed chain has the nominators of processing the chain's started blocks one by one in ascending order with all reads succeeding, if no decision hangs on a read, and right counts, if no recount does |
| `Runs.RunsConverge` | indexer/src/processor.rs:40-105 | Two runs at rest on a fixed chain with the same heights started have the same nominators, if no decision hangs on a read, and right counts, if no recount does |
| `Runs.TransfersConverge` | indexer/src/xdm.rs:76-92 | For a conflict-free log both chains' processors converge: any interleavings and repetitions leave the same transfers table |
| `Xdm.KeysAreInjective` | indexer/src/types.rs:75-82 | Distinct transfers never share a row key |
| `Xdm.PhasesMeetInOneRow` | indexer/src/storage.rs:316-465 | Once the three phases of a transfer are stored, in any order and by both chains' processors, its one row has every column, each from its own phase |
| `XdmRows.SuccessfulTransferRow` | indexer/src/storage.rs:316-465 | Column by column: the row of a transfer that ended well has sender, receiver and amount as initiated, number, hash and time of the block that stored each phase in that phase's columns, and counts as successful |
| `XdmRows.FailedTransferRow` | indexer/src/storage.rs:316-465 | The row of a transfer that failed has what was initiated, number, hash and time of the block that stored the failure as acknowledged, no executed columns, and counts as unsuccessful |
| `XdmRows.EveryEventIsShown` | indexer/src/storage.rs:316-465 | Every one of consistent events is shown in its transfer's row in its own columns, whatever else was stored and in whatever order |
| `XdmRows.StoringShows` | indexer/src/storage.rs:316-465 | Storing one event on any table: its row shows it, keeps all other columns, and no other row changes |
| `XdmRows.KeysIdentifyTransfers` | indexer/src/storage.rs:272-314 | An initiated transfer is stored under the two chains it names, a failed or successful one under storing and named chain, an incoming one under named and storing chain, each with channel and nonce |
| `XdmRows.ChainTextNames` | indexer/src/types.rs:75-82 | The consensus chain is stored by its name, a domain by its number in decimal without leading zeros, in parentheses |
| `Xdm.SameEventsSameTable` | indexer/src/storage.rs:272-465 | Two orders of the same conflict-free events, with any repetitions, give the same table |
| `Xdm.ReplayChangesNothing` | indexer/src/storage.rs:316-465 | Storing any of a conflict-free log's events again changes nothing |
| `Xdm.OrderIrrelevantIffConflictFree` | indexer/src/storage.rs:316-465 | The order does not matter if and only if the events are conflict-free |
| `Xdm.CompatibleIffConsistent` | indexer/src/storage.rs:316-465 | Two events of one transfer are compatible exactly when they give one version of each phase, equal initiated and executed amounts, and not both failure and success |
| `XdmIndexer.KindsCoverAll` | indexer/src/xdm.rs:108-142 | Sorting by kind yields every transfer event of the block exactly once |
| `XdmIndexer.ExtractedAtItsPlace` | indexer/src/xdm.rs:108-142 | Every transfer event of a readable block is extracted at its place among its kind, with its own chain, message and amount, or the transfer that storage holds for it |
| `XdmIndexer.KindsInTurn` | indexer/src/xdm.rs:108-142 | Failed transfers come first, then successful, incoming and initiated ones |
| `XdmIndexer.ExtractXdmEventsForBlock` | indexer/src/xdm.rs:94-143 | Succeeds exactly for a known chain whose initiated transfers can be read; the result is the block's transfer events by kind |
| `XdmIndexer.IndexEventsForBlock` | indexer/src/xdm.rs:76-92 | On success the extracted events have been stored kind after kind, and when they fit what was stored before that is the table of storing them in block order; an error stores nothing |
| `XdmIndexer.CheckpointKeysDiffer` | indexer/src/xdm.rs:17-19 | No two processors share a checkpoint key |
| `XdmIndexer.CheckpointKeysNameChains` | indexer/src/xdm.rs:17-19 | A checkpoint key is the literal prefix and the chain's name |
| `Segments.EventsFromSegments` | shared/src/subspace.rs:260-283 | Exactly the block's events, in order, whenever the segments hold them; in general the first count of the stored ones |
| `Segments.EntriesHold` | shared/src/subspace.rs:265-279 | Segments hold a block's events when its i-th event is entry i mod size of segment i / size and the full segments hold no more |
| `Segments.SegmentsRoundTrip` | shared/src/subspace.rs:260-283 | Also when the count is a multiple of the size, the last segment is absent, or old entries follow |
| `Segments.WrittenIsReadBack` | shared/src/subspace.rs:265-282 | Events written over any older segments are read back exactly |
| `Scale.CompactRoundTrip` | indexer/src/rpc_types.rs:108 | Decoding a compact length and anything after it gives the length and leaves what follows |
| `Scale.CompactIsCanonical` | indexer/src/rpc_types.rs:108 | Only the shortest encoding of a 32-bit length is accepted |
| `Scale.Input.DecodeCompact` | indexer/src/rpc_types.rs:108 | The cursor decoder is the compact parser |
| `Layouts.ReadsLittleEndian` | indexer/src/rpc_types.rs:101-103 | Fixed-width integers are read least significant byte first |
| `Layouts.CompactTwo` | indexer/src/rpc_types.rs:108 | In figures, a two-byte length: a quarter of the little-endian word, for the lengths above 63 only |
| `Layouts.CompactFour` | indexer/src/rpc_types.rs:108 | A four-byte length, for those above 16383 only |
| `Layouts.CompactFive` | indexer/src/rpc_types.rs:108 | A five-byte length, for those above 1073741823 only, and no longer form |
| `Layouts.StatusLayout` | indexer/src/rpc_types.rs:42-71 | Which first byte is which status, and how many bytes of it are skipped |
| `Layouts.OperatorLayout` | indexer/src/rpc_types.rs:140-189 | Each kept field of an operator is the number in that field's own bytes of the storage layout |
| `Layouts.ConvertedLayout` | indexer/src/rpc_types.rs:104-123 | With no withdrawal in shares, amount and refund are the numbers in the last queue entry's own bytes, or zeros of an empty queue |
| `Layouts.InSharesLayout` | indexer/src/rpc_types.rs:125-138 | With one, shares and refund are the numbers in its own bytes, whatever is in the queue |
| `Layouts.SummaryLayout` | indexer/src/types.rs:137-155 | An operator's stake is the number in the amount bytes of its last entry; the epoch and the total are skipped |
| `RpcTypes.StatusRoundTrip` | indexer/src/rpc_types.rs:42-71 | Decoding a status and anything after it gives its compact form and leaves what follows |
| `RpcTypes.StatusAcceptsEncodings` | indexer/src/rpc_types.rs:42-71 | Whatever is accepted begins with a status encoding |
| `RpcTypes.StatusPrefixRejected` | indexer/src/rpc_types.rs:42-71 | No strict prefix of a status encoding is accepted |
| `RpcTypes.DecodeStatus` | indexer/src/rpc_types.rs:42-71 | The cursor decoder is the status parser, with its unknown-variant error |
| `RpcTypes.OperatorRoundTrip` | indexer/src/rpc_types.rs:140-189 | Decoding an operator and anything after it gives the kept fields and leaves what follows |
| `RpcTypes.OperatorAcceptsEncodings` | indexer/src/rpc_types.rs:163-189 | Whatever is accepted begins with an operator encoding |
| `RpcTypes.OperatorPrefixRejected` | indexer/src/rpc_types.rs:163-189 | No strict prefix of an operator encoding is accepted |
| `RpcTypes.DecodeOperator` | indexer/src/rpc_types.rs:163-189 | The cursor decoder is the operator parser |
| `Withdrawals.WithdrawalRoundTrip` | indexer/src/rpc_types.rs:73-138 | Decoding withdrawals and anything after them gives the shares if present, else the last queue entry or zeros, and leaves what follows |
| `Withdrawals.WithdrawalAcceptsEncodings` | indexer/src/rpc_types.rs:99-138 | Whatever is accepted begins with an encoding, up to the option byte, of which any non-zero value counts as present |
| `Withdrawals.WithdrawalPrefixRejected` | indexer/src/rpc_types.rs:99-138 | No strict prefix of a withdrawals encoding is accepted |
| `Withdrawals.DecodeWithdrawal` | indexer/src/rpc_types.rs:99-138 | The overwriting loop over the queue is the parser that takes the last entry of the whole queue |
| `StakingSummaries.SummaryRoundTrip` | indexer/src/types.rs:137-155 | Decoding gives the listed stakes and consumes exactly the decoded part |
| `StakingSummaries.InsertedHoldsEntries` | indexer/src/types.rs:152 | With distinct operators the decoded map holds exactly the listed stakes |
| `StakingSummaries.ValidSummaryDecodes` | indexer/src/types.rs:137-155 | A summary as the chain holds it, with ascending operators, decodes to the map of exactly its stakes |
| `StakingSummaries.SummaryPrefixRejected` | indexer/src/types.rs:146-154 | No strict prefix of the decoded part is accepted |
| `StakingSummaries.DecodeSummary` | indexer/src/types.rs:146-154 | The cursor decoder is the summary parser |
| `Silence.TimesIsProduct` | alerter/src/stall_and_reorg.rs:113-115 | Adding timeouts with saturation gives the timeout times their number, or the longest duration |
| `StallAndReorg.Watch.Run` | alerter/src/stall_and_reorg.rs:43-133 | The alerts sent are exactly those the history calls for, in order |
| `StallAndReorg.TimeoutAlert` | alerter/src/stall_and_reorg.rs:111-131 | A timeout after the first message reports that last message's last block and the threshold times the timeouts since it, capped at the longest duration in figures |
| `StallAndReorg.MessageAlerts` | alerter/src/stall_and_reorg.rs:43-110 | A message sends a recovery if timeouts came before it, and an alert with exactly its reorg data if it retracts at least as many blocks as the threshold |
| `StallAndReorg.OneRecoveryPerResumption` | alerter/src/stall_and_reorg.rs:47-76 | One recovery per run of timeouts that a message ended |
| `StallAndReorg.SilenceThenMessage` | alerter/src/stall_and_reorg.rs:58-71 | A silence of k timeouts ended by a message sends its stall alerts and one recovery that lasts k timeouts |
| `StallAndReorg.RecoveryWithoutStall` | alerter/src/stall_and_reorg.rs:120-130 | A silence ended by a message is reported as a recovery alone, with no stall alert before it, if and only if nothing had arrived before the silence |
| `StallAndReorg.ReorgAlertIffDeep` | alerter/src/stall_and_reorg.rs:78-110 | A reorg alert is sent exactly when blocks were abandoned and old best number minus common number reaches the threshold |
| `StallAndReorg.ReorgAlertsAreDeepMoves` | alerter/src/stall_and_reorg.rs:43-133 | Over a whole session with timeouts anywhere, the reorg alerts are exactly those of the follower's deep best-block moves, in order |
| `Slots.Monitor.Run` | alerter/src/slots.rs:60-171 | The window and the alerts are exactly those the history calls for |
| `SlotAlerts.WindowOfChain` | alerter/src/slots.rs:60-69 | The window holds at most 600 slots of the timekeeper chain, each with the time from its predecessor's instant, or the start, to its own; which ones is said for each rule a full window could follow |
| `SlotAlerts.TimeoutsStep` | alerter/src/slots.rs:83-86 | A timeout counts one more, an extension of the chain starts again from none, and any other slot changes nothing |
| `SlotAlerts.TimeoutAlerts` | alerter/src/slots.rs:151-168 | Before the chain begins a timeout sends nothing; then it reports the newest slot and 30 seconds for each timeout |
| `SlotAlerts.ExtensionAlerts` | alerter/src/slots.rs:83-150 | An extension sends, in this order: a recovery if timeouts came before it, the slot with its predecessor and its time if that is more than the threshold, and the average if the 600 durations average more than the threshold |
| `SlotAlerts.OtherSlotsAreSilent` | alerter/src/slots.rs:66-74 | A slot that does not extend the chain sends nothing |
| `SlotAlerts.WindowSpan` | alerter/src/slots.rs:120-128 | When the oldest slot makes room, the 600 durations that are averaged add up to the time from the 601st newest slot, or the start, to the newest |
| `Slots.AcceptedAreConsecutive` | alerter/src/slots.rs:66-74 | Every accepted slot but the first is one more than the window's newest |
| `Slots.AcceptedCountUp` | alerter/src/slots.rs:66-74 | The i-th accepted slot is the first plus i, unless a full window drops new slots |
| `Slots.DurationsTelescope` | alerter/src/slots.rs:65-69 | Slot durations add up to the time from the start to the last accepted slot |
| `Slots.OneRecoveryPerResumption` | alerter/src/slots.rs:83-99 | One recovery per batch of timeouts that an extension ended |
| `Slots.SilenceThenExtension` | alerter/src/slots.rs:83-168 | A silence ended by an extension sends its stall alerts and one recovery, which count the timeouts from the last extension on |
| `Slots.EarlySilenceLengthens` | alerter/src/slots.rs:66-74 | Timeouts before the first slot send nothing and are not reset by it: they lengthen the first stalls and the first recovery after it |

## Left out

- ReadBytes: says nothing about the cursor after an error, as the codec promises nothing; the same holds of ReadUint, DecodeCompact, DecodeStatus, DecodeOperator, DecodeWithdrawal and DecodeSummary.
- EventsFromSegments: a segment size of 0, for which the source divides by zero, is excluded; `ExtractXdmEventsForBlock` and `IndexEventsForBlock` exclude it too.
- LoadHeaderMetadataCache: the path is said to be cached only when the node's chain is stable while loading; otherwise nothing ties the headers to one path. Fetching up to 30 headers at once is sequential here.
- RunConnection: after a session that an import ended, the cache is only known to hold what it held before that import, as the failed import may have fetched a part of its route.
- ListenForAllBlocks: failing to open a subscription, which ends the source's loop, is not modelled; the messages between the sessions of a reconnect do not connect, because the code resets the best block without a broadcast.
- RunProcessor: block numbers are unbounded, so the overflow of the checkpoint's successor at the greatest 32-bit number is not modelled; nor is a parallelism of 0, with which the source's loop never ends. The same holds of HandleMessage, RunWithRestarts, HandleMove, Step and FollowAndIndex.
- FollowAndIndex: each message is handled before the next block is announced, the checkpoint can be read, and the node's canonical chain leads to the new best block while its message is handled; Step, HandleMove and AgreesUnlessMissed have the same setting. A message that was dropped in between is the subject of `Lockstep.AgreesIffRedoneFromCommon`.
- ExactlyOnce: for messages that reach below the checkpoint it fails, as `Runs.InOrderIffNotBelow` says.
- RedoCrashLosesRows: block 0 is excluded from its messages, and from those of InOrderIffNotBelow, as the follower never enacts the genesis block.
- CountsRightWhenComplete: its condition on one interleaving is sufficient, not necessary, as an unpaid count may happen to be the right number; the exact conditions are those of `Recounts`. ConvergedAtRest has the one for a changing chain, which is exact from any tables but not from empty ones.
- AgreesThroughoutIff: the checkpoint can be read, and a message is handled, or cut short, against a chain that leads to its new best block.
- TransfersConverge: assumes that every attempt at a height stores the same events; on a changing chain the events of retracted blocks stay in the table, and nothing is claimed about them.
- Watch.Run: stops at a closed or lagged channel, which ends the source's loop with an error.
- Monitor.Run: likewise; a sum of slot durations beyond the longest duration, which panics, is not modelled.
- StatusAfterBlock, RegistrationAfterBlock and EpochAfterBlock speak of one block indexed at a time: operator status and stake columns, and share prices, get no claim of order independence, as their updates have no height guard.
- Amounts, heights and identifiers are unbounded numbers in the tables; widths matter and are modelled in the decoders.
- The contents of the slot window after it fills depend on the unseen library; each of the three rules it could follow is covered.
- `updated_at` columns, block timestamps beyond being carried along, decimal share prices, addresses in text form and hexadecimal rendering are presentation.
- Events that fail to decode end a staking block with an error, which is the crash of the machine; in transfer extraction they are skipped, and are not part of the block's events here.
- State roots, extrinsics, digests and hashing itself: a header keeps its hash, parent and number.
- RPC transport, subscriptions, Slack, metrics, the HTTP API, command lines, configuration, balance alerts and the peer-to-peer listener.
- Database isolation levels, pooling, migrations and the read queries with their limits.
