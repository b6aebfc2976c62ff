# A model of the vault indexer

The indexer follows ERC-4626 vaults on a chain. Delivered logs wait in a queue until they are four blocks deep, go
into an `events` table, and are turned one transaction at a time into `positions`: rows that say what an owner held
in a vault from one block height to another. A finality watch checks stored blocks against the chain, and when one
is orphaned a cleanup undoes the rows derived from it.

This project models that state machine end to end and proves what it is for: that the positions table answers
"what did this owner hold at height h" for every owner and every height. Where the program as written misses that,
the exact condition under which it does not is proved instead, with a concrete run beside it.

## How the files fit together

| files | what they hold |
|---|---|
| Chain, Addresses | decoded logs, (block, log index) order, which accounts are looked up and which stand for nobody |
| Rounding, Decimal | amounts as 64-bit floats and as decimal text |
| Positions | the table, the lookups, the row computations (functions and the imperative originals), executing them |
| Replay | the specification: one plain balance per holder |
| Ledger, Effects, TimeTravel | the row-chain invariant, what one event means, the time-travel theorem |
| Processing, Recording, Acceptance | whole transactions with withdraw requests and rates and their unique keys, what they record, which runs go through |
| Rows, Tally | what an event does to any table with unique ids, and a count of its past that a table keeps |
| Conservation, Isolation, Drift | sums of shares, independence of vaults, rounding error over whole runs |
| SelfTransfer, Persistence, Rollback, Reindex, Healing, Convergence, Counterexamples | where the code falls short, and exactly when |
| SqlBuilder, Statements | parameterised statements, their meaning, and what they do to position rows |
| Queue, Ingestion, Backfill | the heap, the interleaved ingestion protocol, crash recovery |
| Transforming, Finality, Reorg | batches and transactions, watermarks, handling a reorganisation |
| Pipeline | all stages together |

Protocols are state machines with actions; `Allowed` says that every action of a run was enabled, `Execute` gives the
state after it. The classes are the program's own loops, each proved to be a run of its protocol. A table is the
sequence of its rows in insertion order; a row is identified by its vault and index id, which the schema keeps unique.

## Assumptions

- Logs are well formed (`Effects.WellFormed`): a deposit's sender and a transfer's receiver can be looked up, that is,
  they are not the zero address and are hexadecimal addresses. `GetMostRecentPosition` finds no position for any other
  address, so a deposit by one opens a new row each time (`Counterexamples.UntrackedDepositsPileUp`).
- Reads of the database succeed. `GetMostRecentPosition` answers a failed query with "no position".
- The node delivers live logs at most D blocks late and the head moves at most H blocks between a pop and the head
  read. Both are parameters; that D + H < 4 is needed and enough is part of what is proved.
- An error stops the ingestion loop before it writes another log (`Timing.prompt`). The code does not guarantee it:
  the error goes to another goroutine while the loop continues. This assumption too is proved to be needed.
- All processors have stopped when a reorganisation is cleaned up.
- Events of one block carry one block hash.

## Where the code and its description differ

The model follows the code.

- The positions route says a changed balance closes one row and creates another
  (`app/v1/vault/[vaultAddress]/positions/route.ts:28`). A transfer computes both rows for both parties, but the
  statement builders use only element 0 of a list, so at most one insert and one update are executed
  (`go-indexer/dbutil/sql-builder.go:36-46`, `100-110`). The ledger theorems are about complete lists
  (`Mode.Complete`); Persistence says exactly when the executed lists (`Mode.FirstOnly`) do the same.
- Cleanup at height L deletes rows with start > L but reopens rows with end > L, so a row closed by an event at L + 1,
  whose end is L, stays closed (`go-indexer/transformers/position-transformer.go:433-434`). Rollback proves the exact
  inverse with `end >= L`, and when the two agree.
- The same cleanup deletes events with block_number >= L (`go-indexer/indexer/transformer.go:331`) while rows derived
  from block L stay, so that block is processed again after the restart. A withdraw request or rate update of it then
  violates a unique key and blocks the transformer for good; a deposit or transfer counts twice.
- The two boundary errors interact with what comes next: a row left closed can be made up for by a later event of its
  holder, a repeated block never is. Convergence.ReorgAsWritten gives the condition for both together.
- Withdraw ids are decoded as floats as well, so two ids above 2^53 can collide in the unique key of
  `withdraw_requests` (`supabase/migrations/20250527235330_create_tables.sql:60`).
- A transfer from an account to itself replaces one row twice. The theorems exclude it; SelfTransfer says what it does.
- A deposit is credited to the event's `sender` (`go-indexer/event-transform-handler/deposit.go:65`), whereas the
  Deposit event of EIP-4626 (section "Events") mints to `owner`. The model keys deposits by sender.
- `handleError` speaks of the same error occurring again but counts any second failure, and allows no retries.
- The finality loop fetches the finalized or safe head but never compares the event's block with it, so nothing here
  says that a watermark stays at or below that head.
- `getLastIndexedBlock` compares the configured address as it is given with stored lower-case addresses. This finds the
  last block only because the configuration is lower-cased when it is loaded (`go-indexer/config/config.go:92-95`).

## Model

| member | source | states |
|---|---|---|
| `Rounding.RoundIsIdentity` | go-indexer/event-transform-handler/deposit.go:42-50 | an amount up to 2^53 survives the trip through a 64-bit float and `%.0f` |
| `Rounding.RoundError` | go-indexer/event-transform-handler/transfer.go:42-50 | one decoded amount is off by at most n / 2^53 |
| `Rounding.RoundIsNearest` | go-indexer/event-transform-handler/transfer.go:42-50 | no integer with 53 significant bits is closer to n than what is decoded (roundTiesToEven, section 4.3.1 of IEEE 754-2019) |
| `Rounding.TiesGoToEven` | go-indexer/event-transform-handler/transfer.go:42-50 | an exact tie goes to the even significand (section 4.3.1 of IEEE 754-2019) |
| `Rounding.RoundIsRepresentable` | go-indexer/event-transform-handler/transfer.go:42-50 | what is decoded has at most 53 significant bits |
| `Rounding.RoundIsMonotone` | go-indexer/event-transform-handler/withdraw.go:46-60 | a larger on-chain amount never decodes to a smaller one |
| `Rounding.WhereRoundingStarts` | go-indexer/event-transform-handler/transfer.go:42-50 | 9007199254740993 is the first amount that changes, to 9007199254740992 |
| `Decimal.PrintThenRead` | go-indexer/transformers/position-transformer.go:365-392 | printing a number gives canonical text that parses back to it |
| `Decimal.ReadThenPrint` | go-indexer/transformers/position-transformer.go:365-392 | parsing canonical text of any length and printing gives the same text |
| `Decimal.TextArithmeticRefinesNaturals` | go-indexer/transformers/position-transformer.go:365-392 | on canonical text the computation is a + b or max(0, a - b), canonical again, and reads "0" exactly when nothing is left |
| `Decimal.LongerIsGreater` | go-indexer/transformers/position-transformer.go:382-390 | longer canonical text is a greater number |
| `Decimal.FirstDifferenceDecides` | go-indexer/transformers/position-transformer.go:382-390 | between texts of one length the first different digit decides, as characters are ordered |
| `Decimal.OnlySignedDigits` | go-indexer/transformers/position-transformer.go:370-380 | exactly an optional sign followed by digits is accepted as an amount |
| `Decimal.TextArithmeticMeans` | go-indexer/transformers/position-transformer.go:365-392 | on any text: a malformed stored amount is one error, a malformed new amount another, and otherwise the integers are added, or subtracted and clamped at zero |
| `Addresses.TrackedExactly` | go-indexer/transformers/position-transformer.go:122-126 | an account is looked up exactly when it is forty hexadecimal digits, with 0x or not, and not 0x and forty zeros |
| `Addresses.MintsAndBurnsAreIgnored` | go-indexer/transformers/position-transformer.go:48-58 | on any table, a transfer log from or to 0x and forty zeros changes nothing |
| `Addresses.OtherTransfersAreReal` | go-indexer/transformers/position-transformer.go:48-58 | a transfer log between hexadecimal accounts with a digit that is not zero is a transfer, and both can be looked up |
| `Positions.EndHeight` | go-indexer/transformers/position-transformer.go:328 | the unsigned subtraction and signed conversion give block - 1, -1 at block 0 |
| `Positions.UpdatePosition` | go-indexer/transformers/position-transformer.go:312-363 | returns the change the specification asks for and advances the caller's id counter exactly when a replacement row is asked for |
| `Positions.ComputeDeposit` | go-indexer/transformers/position-transformer.go:258-300 | the change list of a deposit, built with a counter passed by reference: a first row, or the sender's row replaced by a larger one; what executing it means is Effects.StepMeaning |
| `Positions.ComputeWithdraw` | go-indexer/transformers/position-transformer.go:227-256 | the change list of a withdrawal: the owner's row closed with the receiver noted, and a smaller row opened unless nothing is left; nothing for an owner without a position |
| `Positions.ComputeTransfer` | go-indexer/transformers/position-transformer.go:159-226 | the change list of a transfer: receiver's half first, sender's half numbered after it, position-not-found for a sender without a row |
| `Effects.CombineIsSequential` | go-indexer/transformers/position-transformer.go:166-224 | the two halves of a transfer executed as one list equal the halves executed one after the other, as long as the second inserts no row the first updates |
| `Effects.UpdateTouchesOneRow` | supabase/migrations/20250527235330_create_tables.sql:41-42 | index ids are unique per vault, so an update by id changes one row |
| `Effects.ReplacementSupersedes` | go-indexer/transformers/position-transformer.go:312-363 | executing one change closes the open row at block - 1 and, unless nothing is left, opens its replacement with the next id |
| `Effects.ReceiverHalf` | go-indexer/transformers/position-transformer.go:166-198 | the receiver's half of a transfer never fails and is exactly a credit |
| `Effects.TransferHalves` | go-indexer/transformers/position-transformer.go:159-226 | a transfer that is not rejected is a credit of the receiver followed by a debit of the sender, with exactly the stated numbers of inserts and updates |
| `Effects.StepMeaning` | go-indexer/event-transform-handler/controller.go:37-55 | the position changes of one event are refused exactly when a withdraw id overflows or a sender has no live row, and otherwise are exactly the credits and debits it stands for; the whole transaction is Processing.ProcessMeaning |
| `Processing.RequestTakenMeans` | supabase/migrations/20250527235330_create_tables.sql:60 | a withdraw request is refused exactly when an earlier one of the vault has the same decoded id |
| `Processing.RateTakenMeans` | supabase/migrations/20250612232423_add-rates.sql:7 | a rate update is refused exactly when the vault already has one in the same block |
| `Processing.ProcessMeaning` | go-indexer/indexer/transformer.go:191-223 | the transaction of one event fails exactly when its position changes are refused or its request id or block rate is taken, and otherwise does its credits and debits and adds its request or rate row |
| `Recording.RequestIsRecorded` | go-indexer/transformers/withdraw-request-transformer.go:34-46 | a withdraw request adds one row with its own owner, receiver, block, decoded id and canonical decoded amount, and no rate |
| `Recording.RateIsRecorded` | go-indexer/transformers/rate_update_transformer.go:37-57 | a rate update adds one row for its vault and block with the canonical decoded rate, no request, and leaves the positions alone |
| `Recording.NothingElseIsRecorded` | go-indexer/event-transform-handler/controller.go:37-55 | every other event leaves requests and rates alone |
| `Recording.WithdrawClosesPosition` | go-indexer/transformers/position-transformer.go:227-256 | the holder's open row is closed just below the block with the receiver noted, terminated exactly when nothing is left; one open row shows the rest, and no other row changes |
| `Recording.WithdrawIdLimit` | go-indexer/event-transform-handler/withdraw.go:73-76 | a withdraw id is refused exactly when its decoded value exceeds 9223372036854775807 |
| `Recording.DuplicatesExactly` | supabase/migrations/20250527235330_create_tables.sql:60 | a duplicate is reported exactly when the same vault has a stored request with the decoded id, or a stored rate of the block |
| `Processing.ProcessingSplits` | go-indexer/indexer/transformer.go:174-229 | a run of transactions goes through exactly when the positions alone do and no key repeats, and its requests and rates are those of its events |
| `Processing.ProcessedTimeTravel` | app/v1/vault/[vaultAddress]/positions/route.ts:28 | the table that the transactions build is a time-travel index |
| `Ledger.MaxIdIsCount` | go-indexer/transformers/position-transformer.go:394-428 | the greatest index id of a vault is its number of rows, so the next id is never taken |
| `Ledger.MostRecentIsLast` | go-indexer/transformers/position-transformer.go:122-157 | the row with the greatest id is the holder's last row |
| `Ledger.LookupFindsOpenRow` | go-indexer/transformers/position-transformer.go:122-157 | picking the greatest id and testing is_terminated finds the holder's open row, which is unique, and finds nothing when there is none |
| `Ledger.SupersedeKeepsValid` | go-indexer/transformers/position-transformer.go:312-363 | replacing an open row keeps ids 1..n, start order, and the gap-free chain; no height below the block and no other holder is affected |
| `Ledger.OpeningKeepsValid` | go-indexer/transformers/position-transformer.go:258-300 | the same for a holder's first or next row after a terminated one |
| `Ledger.CreditKeepsValid` | go-indexer/transformers/position-transformer.go:258-300 | a credit keeps the invariant, keeps the past, and adds the amount to one holder only |
| `Ledger.DebitKeepsValid` | go-indexer/transformers/position-transformer.go:227-256 | a debit keeps the invariant, keeps the past, and takes the amount from one holder only, stopping at zero |
| `TimeTravel.EffectKeepsValid` | go-indexer/transformers/position-transformer.go:159-363 | every event keeps the row-chain invariant and every answer below its block |
| `TimeTravel.EffectMovesBalance` | go-indexer/transformers/position-transformer.go:159-363 | every event moves every holder's balance as a plain balance map would |
| `TimeTravel.ReachableIsValid` | go-indexer/transformers/position-transformer.go:122-363 | on every run the table is numbered, ordered and chained, and its open rows show the replayed balances |
| `TimeTravel.ReadsPast` | app/v1/vault/[vaultAddress]/positions/route.ts:28 | amounts and starts are immutable: a change at block B leaves every height below B as it was |
| `TimeTravel.TimeTravelIndex` | app/v1/vault/[vaultAddress]/positions/route.ts:28 | for every run, holder and height at most one row covers the height, and its amount (none means 0) is the balance replayed up to that height, several events in one block included |
| `Replay.ReplayMeans` | app/v1/vault/[vaultAddress]/positions/route.ts:28 | whose balance in the specification each event changes, and by how much, in terms of the event's own fields |
| `Replay.UpToIsPrefix` | go-indexer/indexer/transformer.go:110-118 | in block order, the events up to a height are a prefix |
| `Acceptance.EffectOpens` | go-indexer/transformers/position-transformer.go:166-224 | after an event a holder has an open row exactly when the plain account says he has a position |
| `Acceptance.PositionsSucceedIffAccepted` | go-indexer/transformers/position-transformer.go:200-204 | the position changes of a run go through if and only if, event by event, a transfer's sender has a position and a withdraw id fits 64 bits |
| `Acceptance.RunSucceedsIffAcceptable` | go-indexer/indexer/transformer.go:191-223 | a run of transactions goes through if and only if, besides, no withdraw id of a vault and no vault's rate in one block repeats; all decided from the events alone |
| `Acceptance.BackedRunsAreIndexed` | app/v1/vault/[vaultAddress]/positions/route.ts:28 | when every transfer moves a positive amount its sender owns by the index, ids fit and no key repeats, the run goes through and the table is a time-travel index |
| `Counterexamples.UntrackedDepositsPileUp` | go-indexer/transformers/position-transformer.go:122-126 | a deposit by an account that is never looked up always opens a further row, and from the second one on the table has no answer for it |
| `Counterexamples.RoundedIdsCollide` | go-indexer/event-transform-handler/withdraw.go:51-54 | withdraw ids 2^53 and 2^53 + 1 decode alike, and the second request can never be processed |
| `Counterexamples.OneRatePerBlock` | supabase/migrations/20250612232423_add-rates.sql:7 | the second rate update of a vault in a block can never be processed |
| `Counterexamples.RoundingRejectsASolventRun` | go-indexer/event-transform-handler/transfer.go:42-50 | a solvent chain that is refused because of rounding: 2^53 + 1 deposited, 2^53 sent, 1 sent |
| `Counterexamples.EmptyTransferIsRejected` | go-indexer/transformers/position-transformer.go:202-204 | a transfer of 0 from an account without a position is an error |
| `SelfTransfer.SelfTransferOperations` | go-indexer/transformers/position-transformer.go:159-226 | a self-transfer asks for two replacements of the same row |
| `SelfTransfer.SelfTransferRows` | go-indexer/transformers/position-transformer.go:159-226 | it closes that row twice and appends one row per non-zero outcome |
| `SelfTransfer.SelfTransferExact` | go-indexer/transformers/position-transformer.go:159-226 | a self-transfer of any amount leaves the balance readable if and only if the account is empty and nothing is sent |
| `Counterexamples.SelfTransferLosesTheBalance` | go-indexer/transformers/position-transformer.go:159-226 | deposit 5, send 2 to oneself: the 5 shares can no longer be read |
| `Conservation.EffectShares` | go-indexer/transformers/position-transformer.go:159-300 | one event changes a vault's open shares by exactly what it issues: +shares, -min(shares, balance), only the overdraft of a transfer, 0 for mint and burn logs |
| `Conservation.SharesAreConserved` | go-indexer/transformers/position-transformer.go:48-58 | on every run a vault's open shares are deposits minus effective withdrawals plus overdrafts |
| `Conservation.OverdrawnIffUncovered` | go-indexer/transformers/position-transformer.go:382-390 | nothing appears from nowhere if and only if every transfer is covered by its sender's balance |
| `Isolation.HandleIsLocal` | go-indexer/transformers/position-transformer.go:127-133 | what an event asks for depends on its own vault's rows only |
| `Isolation.HandleTouchesItsVault` | go-indexer/transformers/position-transformer.go:355-360 | an event inserts and updates rows of its own vault only |
| `Isolation.StepIsLocal` | go-indexer/transformers/position-transformer.go:398-404 | one event acts on its own vault as if that were alone and leaves the others as they are |
| `Isolation.VaultsAreIsolated` | go-indexer/transformers/position-transformer.go:394-428 | restricting the final table of an interleaved run to a vault equals processing that vault's events alone, ids included, under complete and under first-element execution |
| `Isolation.ProcessedVaultsAreIsolated` | go-indexer/indexer/transformer.go:174-229 | the same for whole transactions, with the vault's own requests and rates |
| `Drift.ExactMeans` | go-indexer/transformers/position-transformer.go:382-390 | what one event adds to the exact balance and to the volume, in terms of the event's own fields |
| `Drift.DriftIsBounded` | go-indexer/transformers/position-transformer.go:382-390 | over every run of a solvent account, (indexed - true balance) * 2^53 is at most the account's volume; the clamp at zero never adds error |
| `Drift.SmallAmountsAreExact` | go-indexer/event-transform-handler/deposit.go:42-50 | with amounts up to 2^53 a solvent account is indexed exactly |
| `Drift.SmallSolventRunsAreIndexed` | app/v1/vault/[vaultAddress]/positions/route.ts:28 | on a solvent chain with amounts up to 2^53, positive transfers and distinct keys every run goes through, and every height shows the exact on-chain balance |
| `Drift.TableDriftIsBounded` | app/v1/vault/[vaultAddress]/positions/route.ts:28 | at every height the row a reader finds is within that bound of the chain |
| `Rollback.EffectIsUndone` | go-indexer/transformers/position-transformer.go:430-436 | an event above the height leaves no trace after the cleanup with `end >= height` |
| `Rollback.RollbackIsInverse` | go-indexer/transformers/position-transformer.go:430-436 | with `end >= height` the cleanup gives exactly the table after the last event up to the height: ids, amounts, flags and receivers |
| `Rollback.BoundariesDiffer` | go-indexer/transformers/position-transformer.go:433-434 | the statements as written (`end > height`) give another table if and only if a row that starts by the height ends exactly at it |
| `Rollback.RollbackAsWritten` | go-indexer/transformers/position-transformer.go:430-436 | as written, the cleanup restores that table if and only if no surviving row was closed by the very next block |
| `Rollback.ReorgConverges` | go-indexer/indexer/transformer.go:295-346 | exact cleanup of an orphaned suffix, then processing the canonical one, equals indexing the canonical chain from scratch |
| `Rollback.RollbackAllIsInverse` | go-indexer/indexer/transformer.go:295-346 | with `end >= height` all derived rows are given back: positions, and the requests and rates of blocks up to the height |
| `Rollback.ReorgAllConverges` | go-indexer/indexer/transformer.go:295-346 | the same convergence for all derived rows |
| `Counterexamples.RollbackLeavesRowClosed` | go-indexer/transformers/position-transformer.go:434 | deposits at blocks 1 and 2, cleanup at 1: as written the row of block 1 stays closed |
| `Rows.StepExtends` | go-indexer/transformers/position-transformer.go:312-363 | on any table with unique ids, in order or not, an event executed in full or in part keeps all rows and leaves terminated and superseded rows exactly as they are |
| `Tally.TallyStep` | go-indexer/transformers/position-transformer.go:159-300 | on any such table, an event executed in full adds to a holder's rows plus terminated rows minus rows with a receiver exactly one per deposit or transfer |
| `Tally.TallyCountsMoves` | go-indexer/transformers/position-transformer.go:159-300 | so the number of deposits and transfers a holder has seen can be read off the final table |
| `Reindex.ExtraEventsShow` | go-indexer/indexer/transformer.go:174-229 | extra events always show: processed in between anywhere and whatever follows, they leave no trace if and only if none of them is a deposit, a transfer between accounts, a withdraw request or a rate update |
| `Reindex.DeletedEvents` | go-indexer/indexer/transformer.go:331 | deleting events from the last consistent block on loses exactly that block's events of the common chain |
| `Reindex.RemainingRepeats` | go-indexer/indexer/transformer.go:331 | as long as only common events had been processed, a restart processes what was processed of the last consistent block once more, and everything else once |
| `Reindex.ReorgBeforeOrphans` | go-indexer/indexer/transformer.go:295-346 | then the derived rows end up as without the fork if and only if that part of the block derives nothing |
| `Reindex.StuckOrCountedTwice` | supabase/migrations/20250527235330_create_tables.sql:60 | then the restart gets stuck if and only if that part holds a withdraw request or rate update, or the repetition leaves a transfer's sender without a position; otherwise the part counts twice |
| `Healing.HealingStep` | go-indexer/transformers/position-transformer.go:122-157 | a row left closed by the orphaned next block is made up for by the first later event of its holder: a withdrawal, or any event if no receiver was noted; if it was terminated, only by the same withdrawal in the same block |
| `Healing.HarmingStep` | go-indexer/transformers/position-transformer.go:122-157 | any other first event of the holder fails or sets the tables apart for good |
| `Healing.HealsExactly` | go-indexer/transformers/position-transformer.go:430-436 | a run over a table with such stale rows ends like the run without them if and only if every stale row is made up for |
| `Convergence.CleanupIsStale` | go-indexer/transformers/position-transformer.go:433-434 | the cleanup as written gives the exact one with the rows that end at the height stale |
| `Convergence.RepeatShows` | go-indexer/indexer/transformer.go:331 | a repeated deposit or transfer of the last block is never made up for, stale rows or not |
| `Convergence.KeyedBlockIsStuck` | go-indexer/transformers/withdraw-request-transformer.go:51 | whenever a withdraw request or rate update of the last consistent block had been processed, the restart gets stuck on it: the cleanup keeps the row and the key is taken |
| `Convergence.ReorgAsWritten` | go-indexer/indexer/transformer.go:295-346 | a reorganisation as written, with any number of events processed: the derived rows end up as on a chain that never forked if and only if what had been processed of the last consistent block derives nothing and every row closed by the next block is made up for |
| `Counterexamples.LastConsistentBlockGetsStuck` | go-indexer/indexer/transformer.go:331 | a withdraw request in the last consistent block can never be processed again after a reorganisation |
| `Counterexamples.LastConsistentBlockCountsTwice` | go-indexer/indexer/transformer.go:331 | a deposit of 5 in the last consistent block shows as 10 after a reorganisation |
| `Reorg.Indexer.HandleReorg` | go-indexer/indexer/reorg-handler.go:13-58 | always ends stopped; clears the queue once halted; changes the store in one transaction to the cleanup at a last consistent block, or not at all when there is none |
| `Reorg.ReorgOutcome` | go-indexer/indexer/reorg-handler.go:43-50 | exactly the events below the last consistent block survive, at least one canonical event is always deleted, and the derived rows are those of the processed events up to that block if and only if no row was closed by the next one |
| `SqlBuilder.BuildUpdate` | go-indexer/dbutil/sql-builder.go:94-167 | the field loop returns the specified statement, arguments or error; its meaning is SqlBuilder.UpdateMeans |
| `SqlBuilder.BuildInsert` | go-indexer/dbutil/sql-builder.go:30-92 | the field loop of INSERT returns the specified statement, arguments or error; its meaning is SqlBuilder.InsertMeans |
| `SqlBuilder.BuildDelete` | go-indexer/dbutil/sql-builder.go:169-230 | the field loop of DELETE returns the specified statement, arguments or error; its meaning is SqlBuilder.DeleteMeans |
| `SqlBuilder.ClausesAreAligned` | go-indexer/dbutil/sql-builder.go:118-158 | each clause `column = $k` names a used field of its side and $k is that field's value; no used field is left out |
| `SqlBuilder.PlaceholdersUsedOnce` | go-indexer/dbutil/sql-builder.go:118-158 | SET and WHERE together use $1..$n, each exactly once |
| `SqlBuilder.UpdateMeans` | go-indexer/dbutil/sql-builder.go:94-167 | a built update names the given table, its WHERE selects exactly the rows matching all non-nil keys, and its SET overwrites exactly the non-nil non-key columns |
| `SqlBuilder.InsertMeans` | go-indexer/dbutil/sql-builder.go:30-92 | a built insert names the given table, and its row is the column defaults with exactly the non-nil fields written over them |
| `SqlBuilder.DeleteMeans` | go-indexer/dbutil/sql-builder.go:169-230 | a built deletion names the given table and selects exactly the rows matching all non-nil keys |
| `SqlBuilder.UsedMembers` | go-indexer/dbutil/sql-builder.go:124-140 | the fields that take part are those with a tag that is neither empty nor a dash and with a value that is not nil |
| `SqlBuilder.BuildingFails` | go-indexer/dbutil/sql-builder.go:36-46 | which error is returned, or that a statement is built, told from the struct's fields |
| `SqlBuilder.UpdateExecuted` | go-indexer/dbutil/sql-builder.go:94-167 | on a database, a built update overwrites exactly the target rows of the given table and leaves every other table as it was |
| `SqlBuilder.InsertExecuted` | go-indexer/dbutil/sql-builder.go:30-92 | on a database, a built insert adds one row to the given table and leaves every other table as it was |
| `SqlBuilder.DeleteExecuted` | go-indexer/dbutil/sql-builder.go:169-230 | on a database, a built deletion takes exactly the target rows from the given table and leaves every other table as it was |
| `SqlBuilder.OnlyFirstElement` | go-indexer/dbutil/sql-builder.go:100-110 | of a slice only element 0 takes part, and an empty slice is an error |
| `Statements.UpdateStatement` | go-indexer/indexer/transformer.go:373-386 | the statement built for a list of position updates does to every row what the first update says |
| `Statements.InsertStatement` | go-indexer/indexer/transformer.go:358-371 | the statement built for a list of position inserts adds the first row of the list |
| `Statements.StatementsPersistFirstOnly` | go-indexer/indexer/transformer.go:198-212 | on a database, executing the statements of one event equals executing its first insert and first update on the positions table, and leaves every other table as it was |
| `Statements.RowsFollowTheSchema` | supabase/migrations/20250527235330_create_tables.sql:26-37 | which column of the schema holds which part of a position row |
| `Persistence.SingleRowEvents` | go-indexer/transformers/position-transformer.go:227-300 | deposits, withdrawals and mint and burn logs lose nothing to first-element execution, on any table |
| `Persistence.FirstHalfOnly` | go-indexer/event-transform-handler/transfer.go:75-86 | a transfer to a receiver with a position executes the receiver's half and nothing else |
| `Persistence.ReplacementLost` | go-indexer/event-transform-handler/transfer.go:75-86 | a partial transfer to a new receiver closes the sender's row and loses its replacement |
| `Persistence.TransferPersistence` | go-indexer/transformers/position-transformer_test.go:226-295 | what is executed equals what was computed if and only if the receiver has no live row and the sender is drained |
| `Persistence.PersistedTransferReads` | go-indexer/event-transform-handler/transfer.go:75-86 | after a positive transfer as executed, all balances read right if and only if that holds or the sender had nothing |
| `Persistence.FirstOnlyTally` | go-indexer/event-transform-handler/transfer.go:75-86 | executed in part, an event never adds more to a holder's tally than its deposits and transfers |
| `Persistence.PersistedExactly` | go-indexer/event-transform-handler/transfer.go:75-86 | over a whole run, the table as executed is the complete one if and only if every transfer drained into a receiver without a position, told from the events: after the first that does not, the two never agree again |
| `Persistence.PersistedTimeTravel` | go-indexer/event-transform-handler/transfer.go:75-86 | on such runs the table as executed is a time-travel index |
| `Counterexamples.PartialTransferLosesTheRest` | go-indexer/event-transform-handler/transfer.go:75-86 | deposit 5, send 2 to a new receiver: as executed the remaining 3 are gone |
| `Transforming.BatchIsNextSlice` | go-indexer/indexer/transformer.go:110-118 | the poll query returns the events right after the processed ones |
| `Transforming.CommitAdvances` | go-indexer/indexer/transformer.go:174-229 | one committed transaction extends the processed prefix and the fold by one event |
| `Transforming.StepKeepsPrefix` | go-indexer/indexer/transformer.go:94-171 | every action, failures and restarts included, keeps the processed events a prefix that grows by at most one |
| `Transforming.ExactlyOnce` | go-indexer/indexer/transformer.go:94-171 | after every run of appends, polls, commits, rollbacks, unreported commits and restarts, the derived rows are the fold of exactly the processed prefix |
| `Transforming.AllProcessed` | go-indexer/indexer/transformer.go:94-171 | once nothing is unprocessed, the derived rows are those of all stored events |
| `Transforming.ScheduleDoesNotMatter` | go-indexer/indexer/transformer.go:94-171 | two finished runs over the same events end with the same derived rows |
| `Transforming.RejectedEventBlocks` | go-indexer/indexer/transformer.go:191-196 | an event that cannot be processed is never skipped: nothing from it on is ever marked processed |
| `Transforming.BatchSize` | go-indexer/indexer/transformer.go:117 | a poll returns all unprocessed events, or exactly a hundred if there are more |
| `Transforming.RoundProcesses` | go-indexer/indexer/transformer.go:94-171 | nothing waits for ever: when all stored events can be processed, one poll and its commits process the next hundred, or all that are left |
| `Transforming.FailuresForget` | go-indexer/indexer/transformer.go:191-218 | a failed transaction and a restart change nothing that is stored and drop the batch in hand |
| `Transforming.Transformer.QueryUnprocessed` | go-indexer/indexer/transformer.go:110-118 | scanning an ordered table answers the query: unprocessed, ordered, at most 100, and nothing smaller left out |
| `Transforming.Transformer.ProcessBatch` | go-indexer/indexer/transformer.go:174-229 | a batch is a run of the protocol: each event commits unless its own error or the database rolls it back or the commit reports an error, and the first such event abandons the rest |
| `Transforming.Transformer.HandleError` | go-indexer/indexer/transformer.go:256-292 | the first failure is remembered; the second in a row, whatever it is, stops the transformer, since no retries are allowed |
| `Transforming.Transformer.Cycle` | go-indexer/indexer/transformer.go:100-168 | one poll round is such a batch of the query's answer; success clears the remembered failure, and an empty round is neither success nor failure |
| `Queue.UpStep` | go-indexer/event-ingestion-queue/queue.go:50-68 | one sift-up swap moves the only misplaced element to its parent |
| `Queue.DownStep` | go-indexer/event-ingestion-queue/queue.go:50-68 | one sift-down swap moves the only misplaced element to a smallest child |
| `Queue.RootIsMinimal` | go-indexer/event-ingestion-queue/queue.go:28-33 | the first element of a heap is a minimum in (block, log index) order |
| `Queue.EventQueue.Up` | go-indexer/event-ingestion-queue/queue.go:70-74 | sift-up restores the heap and keeps the contents |
| `Queue.EventQueue.Down` | go-indexer/event-ingestion-queue/queue.go:76-84 | sift-down restores the heap of the first n elements, keeps the contents and the tail |
| `Queue.EventQueue.Insert` | go-indexer/event-ingestion-queue/queue.go:70-74 | adds exactly the event, duplicates included, and keeps the heap |
| `Queue.EventQueue.Next` | go-indexer/event-ingestion-queue/queue.go:76-84 | returns nothing exactly on an empty queue, otherwise removes exactly one copy of a minimum |
| `Queue.EventQueue.Clear` | go-indexer/event-ingestion-queue/queue.go:98-103 | empties the queue |
| `Queue.TakenInOrder` | go-indexer/event-ingestion-queue/queue.go:76-84 | what a sequence of Next takes comes in (block, log index) order, duplicates included, before everything left, and nothing is lost; Backfill.DrainQueue establishes it |
| `Ingestion.WriteKeepsPrefix` | go-indexer/indexer/extractor.go:47-67 | the idempotent write extends an ordered prefix by the next live log and never stores a log twice |
| `Ingestion.StepKeepsInv` | go-indexer/indexer/event-processor.go:85-132 | every step of the interleaved protocol keeps the invariant |
| `Ingestion.InOrderIngestion` | go-indexer/indexer/event-processor.go:85-132 | if logs come at most D blocks late, the head moves at most H blocks between pop and read, D + H is below the confirmation depth and errors stop the loop at once, the events table is always a strictly increasing prefix of the live logs with no gap |
| `Ingestion.LateLogsAreOvertaken` | go-indexer/indexer/event-processor.go:110-122 | with D + H at the confirmation depth, a concrete run stores the second log of a block before the first |
| `Ingestion.DroppedLogIsSkipped` | go-indexer/indexer/event-processor.go:98-107 | if the loop goes on after an error was sent, a concrete run stores a log without the dropped one before it |
| `Ingestion.ConfirmationsAreTight` | go-indexer/indexer/indexer.go:69 | all runs ingest in order without gaps if and only if D + H is below the confirmation depth and errors stop the loop at once |
| `Ingestion.EventProcessor.Cycle` | go-indexer/indexer/event-processor.go:85-132 | one pass of the loop takes a minimum and writes it, puts it back for want of 4 confirmations, or loses it to an error |
| `Ingestion.FourConfirmations` | go-indexer/indexer/event-processor.go:110-124 | a popped log is stored from four blocks on, and goes back before |
| `Ingestion.ErrorsLoseTheLog` | go-indexer/indexer/event-processor.go:98-107 | a log is lost when the head cannot be read, or when it is four blocks deep and cannot be written |
| `Ingestion.RestartForgets` | go-indexer/indexer/indexer.go:147-182 | a restart keeps the stored events only; the queue is what the backfill puts there |
| `Ingestion.CycleFollowsProtocol` | go-indexer/indexer/event-processor.go:85-132 | that pass is an allowed run of the protocol: a pop, a head read and a finish or failure |
| `Backfill.FetchedMembers` | go-indexer/indexer/load-historical-events.go:76-101 | the backfill asks for exactly the logs of each configured pair from its first block to the head |
| `Backfill.PairIsComplete` | go-indexer/indexer/load-historical-events.go:107-134 | starting at the last indexed block itself loses nothing, not even inside a half-written block |
| `Backfill.BackfillIsComplete` | go-indexer/indexer/load-historical-events.go:21-105 | with the stored rows an in-order prefix for each pair, stored and fetched logs together are all configured logs up to the head, and nothing off the chain is asked for |
| `Backfill.MissedExactlyWhenMovedPast` | go-indexer/indexer/load-historical-events.go:107-134 | a log up to the head is never asked for again if and only if every pair it belongs to has a stored log in a later block, or none and a later start block |
| `Backfill.BackfillEnablesRestart` | go-indexer/indexer/load-historical-events.go:21-105 | at any point of an ingestion run the backfill queues what the protocol asks of a restart |
| `Backfill.CaseDoesNotMatter` | go-indexer/indexer/load-historical-events.go:71-79 | the node is asked for the same logs however the letters of a configured address are written |
| `Backfill.EventNames` | go-indexer/event-transform-handler/controller.go:43-54 | the names under which the vault events are configured |
| `Backfill.ListedIsFetched` | go-indexer/indexer/load-historical-events.go:71-101 | for a vault configured in lower case, as the loaded configuration is, a log of a configured event from the start block to the head is fetched while nothing of its pair is stored |
| `Backfill.ListedIsConfigured` | go-indexer/config/config.go:92-95 | such a log counts among those whose completeness is proved |
| `Backfill.LoadHistoricalEvents` | go-indexer/indexer/load-historical-events.go:21-105 | the nested loops add exactly those logs to the queue |
| `Backfill.DrainQueue` | go-indexer/indexer/event-processor.go:85-132 | at one head and without errors, the loop takes logs in order and stores each once as long as they are four blocks deep, and leaves exactly the rest in the queue |
| `Backfill.Restore` | go-indexer/indexer/load-historical-events.go:21-105 | a crash and restart keep what was stored and store exactly once every configured log, from its start block to the block read at the start, that is four blocks below the later head; for logs of vaults configured in lower case this is told without any conversion |
| `Finality.GetNearestIngestedEvent` | go-indexer/indexer/reorg-handler.go:90-108 | finds a stored event in the greatest block up to the given one, or that there is none |
| `Finality.FindLastConsistentBlock` | go-indexer/indexer/reorg-handler.go:61-87 | terminates with the greatest stored block below the detected one that is accepted, all in between rejected, and fails exactly when there is none to be found |
| `Finality.NextIsLowest` | go-indexer/indexer/finality-processor.go:199-216 | the next event to validate is in the lowest stored block above the watermark |
| `Finality.StepKeepsValidated` | go-indexer/indexer/finality-processor.go:107-165 | each check keeps every stored block up to a watermark validated, raises the watermark on an update, and reports only the lowest unvalidated block |
| `Finality.WatermarksAreValidated` | go-indexer/indexer/finality-processor.go:218-232 | on every run, watermarks never go down and every stored block up to one has passed a check of its tag |
| `Finality.CheckMeans` | go-indexer/indexer/finality-processor.go:114-165 | a check is of an event in the lowest stored block above the watermark: accepted, the watermark is that block and exactly that block has passed; rejected, it is reported under the tag; without an answer or an event nothing changes; the other tag is never touched |
| `Finality.WatermarkCatchesUp` | go-indexer/indexer/finality-processor.go:107-149 | with a node that accepts everything, as many checks as there are stored blocks above the watermark bring it to the highest stored block |
| `Finality.ReportLeadsToWatermark` | go-indexer/indexer/finality-processor.go:149-164 | a report names the lowest unvalidated stored block, and if the validated blocks are still accepted, the search for the last consistent block ends on the watermark |
| `Finality.FinalityProcessor.ValidateTag` | go-indexer/indexer/finality-processor.go:95-166 | one tag's turn is one step of the protocol, and the loop goes on exactly when no check failed |
| `Finality.FinalityProcessor.Round` | go-indexer/indexer/finality-processor.go:95-166 | finalized, then safe; safe is left out exactly when the finalized check stops the loop |
| `Pipeline.NothingMissingBelow` | go-indexer/indexer/event-processor.go:85-132 | below the last processed block no live log is missing from the processed ones |
| `Pipeline.ReaderSeesTheChain` | app/v1/vault/[vaultAddress]/positions/route.ts:28 | after any ingestion run and any transformer run over what it stored, every holder and height reads the balance replayed over the processed logs, which below the last processed block are all the chain emitted; as executed, when every transfer drains into a new receiver |

## Left out

- Uuids, timestamps and transaction hashes: a row is identified by its vault and index id.
- Decoding of base64, JSON and ABI data, the missing-field errors of the three `extract` functions, and the lower-casing of addresses in the handlers: the model starts from decoded amounts and normalised addresses.
- The block timestamp of a rate row and the header request for it: a request that fails is a failing transaction. In a withdraw request row, the letter case of the addresses.
- Overflow of index ids beyond 64 bits, and of block numbers near 2^64 when confirmations are added.
- Failed database queries inside `GetMostRecentPosition` and `getMaxPositionIndexId`.
- The text of SQL statements, `json.Marshal` and `driver.Valuer` errors: a statement is its list of clauses and arguments.
- A row-scan error in the poll loop, which skips the row and goes on; a round either reads its batch or fails.
- The halt handshake, goroutines, timers, backoff, wait groups and the queue's mutex: actions of the protocols are atomic, and each queue method is one step.
- The reorg channel and the restart after it: a report is recorded in the state, and what a later restart fetches is in Backfill and what it processes in Reindex.
- The rows of `block_finality` after a reorganisation: they are not touched by the cleanup, and the finality theorems are about runs without one.
- The window between reading the head at start-up and the subscriptions becoming active: completeness is claimed up to the head that was read.
- A fetch of historical logs that fails: it stops the indexer, and the restart starts over.
- The container/heap package is not part of the repository: its sift-up and sift-down are modelled as documented, on the queue's own Less, Swap, Push and Pop.
- The Next.js API, middleware and documentation pages: only the meaning of a position row quoted above is used.
- Effects.StepMeaning: assumes well-formed logs; of the addresses that are never looked up only deposits are treated, in Counterexamples.UntrackedDepositsPileUp.
- TimeTravel.TimeTravelIndex: is about complete operation lists and excludes self-transfers; Persistence and SelfTransfer say exactly what happens otherwise.
- Persistence.PersistedExactly: says when the executed table is the complete one, not which of its heights still read right when it is not.
- Backfill.DrainQueue: leaves out the error exits of the loop, which Ingestion.EventProcessor.Cycle and the ingestion protocol have.
- Rollback.ReorgConverges: is about the cleanup with `end >= height`; Rollback.RollbackAsWritten and Convergence.ReorgAsWritten are about the statements as written.
- Reindex.StuckOrCountedTwice: is about reorganisations before any orphaned event was processed; afterwards Convergence.KeyedBlockIsStuck gives one direction, and whether a transfer of the canonical chain is refused because its sender's row was left terminated is told only as part of Convergence.ReorgAsWritten.
- Finality.WatermarksAreValidated: does not relate a watermark to the finalized or safe head, because the code does not either.
