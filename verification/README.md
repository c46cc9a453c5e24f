# Verification of the replenishment pipeline

A Dafny model of the protocol and loop code of a retail replenishment pipeline: how data is pulled from an ERP, loaded
and published as a snapshot, exported again page by page, read by an ETL job and served as marts, and how purchase
orders are sent back through a channel. Run `dafny verify dfyconfig.toml`.

## What is modelled

- **Loads and the snapshot pointer.** `LoadLifecycle` is a state machine of the tables `loads` and `snapshot_pointer`, the
  open transactions and every worker that runs a load. Its steps are single statements, so workers, reaper passes,
  crashes, lost replies and a commit that reports an error after the server applied it interleave freely, and no step relies on
  the advisory lock. `LoaderRun` is `Loader.Run` as code that takes these steps; between any two of them, other workers
  may take any number of theirs. `LoadReport` has the counters and the quality gate.
- **Batch loading.** `Validation` is the rule engine with its memory of primary keys, `BatchLoad` the accumulate-and-flush
  loop that exists sixteen times, `Pipeline` the order of the sixteen loops. Their common reference is the sequential load: one
  row after the other in source order. `WriteConditions` and `LoadSuccess` state exactly when that load succeeds, and what a
  load means for those after it.
- **The load lock.** `LoadLock` interleaves ticks, retries and triggers over one re-entrant session lock and the connection
  pool, with crashes and dropped sessions; `LoadScheduler` is the scheduler's methods as code that takes these steps.
- **Sending orders.** `SendLifecycle` is a state machine of purchase orders, send attempts and `sendOne` transactions, with
  batch runs, admin retries and cancellations; `ChannelRouter` is the router as code over it. `Retry` is the retry and backoff
  loop of the sender, the source reader and the extractor.
- **Pages.** `Keyset` is the mock ERP's page query and `fetchAll`, with a table that changes between requests.
  `ExportPages` is the export API, whose queries sort by columns and filter by text. `PagedReader` is the lazy reader of that
  API and the loop that consumes it.
- **Marts.** `MartCursor` has the composite keys in the cursor, `MartReader` the page reads pinned to an ETL run, `MartScan`
  whole scans. `VersionCache` is the TTL cache, `CacheHistory` all its users at once.
- **Calendar.** `Calendar` and `Text` have dates, numerals and byte order; `Partitions` the monthly partitions; `FactWindow` which
  facts of a load find one; `Seeder` the day-by-day seeder.

State machines are used where calls interleave; classes where an object's methods change its fields, each proved
against a function or a state machine. A class method may be interrupted where the source gives up control: the
`Interfere` methods of `LoaderRun`, `ChannelRouter` and `LoadScheduler` promise only that some run went on, and nothing is
concluded from their bodies. What may fail is a parameter: contracts tie every error to its fault or to what others did, and
promise success when nothing fails and, where it matters, nobody else touches the same rows (`calm`).

Library calls are parameters: regular expressions, time and number parsing, `%v`, base64 and JSON (encoders with
decoders), the collation of the database (any strict order that puts the empty text first), the clock (readings), random draws and
remote answers (functions of the attempt or request number). Queries have the meaning of the SQL in the repository.

## Where the code does not do what its documentation says

- **A load that meets a receipt line or stock movement again fails, and so does every retry.** Both tables take plain INSERTs with
  keys of the source, and the window of facts (365 days, fixed when the process starts, internal/app/app.go:93-101) overlaps
  from load to load. `LoadSuccess.SecondLoadSucceeds` states exactly when a load after a successful one succeeds,
  `LoadSuccess.NeverAgain` that a line once written, by a committed load or by whole batches of a failed one, makes every later
  load fail that accepts it again, and `LoadSuccess.RefusedForKeys` that the duplicate key is then the reason.
- **A load can be refused for a sku.** `products.sku` is unique, but the upsert resolves conflicts on the id only. Two products with
  one sku stop the load (`WriteConditions.TwoProductsOneSku`), and so do two that exchange their skus from one load to the next
  (`WriteConditions.SwappedSkus`). `WriteConditions.WritableIff` and `LoadSuccess.LoadSucceeds` have the exact conditions.
- **Receipt lines and stock movements can lose rows while being exported.** `select_receipt_line.sql` sorts by date and numeric
  id but filters on `event_date::text || '|' || id::text`. Within one day, id 10 sorts before id 9 as text, so a page that ends at
  9 is followed by one without 10. `ExportPages.ReceiptLinesScan` states exactly when every page size works,
  `ExportPages.ScanIsExact` when one page size does, and `ExportPages.LostReceiptLine` is an input that loses a row.
- **So can the exports keyed by several text columns**: product barcodes, store assortment, location and supplier stock
  snapshots and the fan-outs of order rules and supply specs (`select_product_barcodes.sql`, `select_store_assortment.sql`,
  `select_location_stock_snapshot.sql`, `select_supplier_stock_snapshot.sql`, `select_order_rule_fanout.sql`,
  `select_supply_spec_fanout.sql`). They sort by the columns but filter on the columns joined with `|`. In the byte order that
  the database is set up with (`--locale=C`, docker-compose.yml:27), `P10|y` sorts before `P1|x`, so a page that ends in product P1 is followed by one
  without P10. `ExportPages.JoinedKeysScan` states exactly when every page size works: no row comes twice and no leading id,
  behind equal ones, continues in a later row with a character below the bar. `ExportPages.ClashLosesRow` gives the family of
  inputs that lose a row and `ExportPages.LostBarcode` one of them. (A date column never continues another, as both have ten
  characters. The key of the supply spec fan-out leaves out `valid_from`, so there a row can also come twice.)
- **A 304, 404 or 501 for a later page ends a stream as if it were complete.** `PagedReader.EndMeansComplete` states exactly when
  the end is reported, `PagedReader.EndComesWithAllRows` that it means all rows against a server that never answers a cursor so,
  and `PagedReader.TruncatedExport` that one 404 makes the first k pages of any table look like all of it.
- **A `|` in a leading key field of a mart breaks its scan.** The cursor joins fields with `|` and splits at the first one;
  `MartCursor.KeyRoundTrip` states exactly which keys survive, `MartScan.ScanIsExact` exactly when a scan is right, and
  `MartScan.EndlessScan` gives a family of rows for which the first page repeats for ever. A row whose key is at or before
  `("", "", 0001-01-01)` is never delivered.
- **An empty text key ends a scan of the mock ERP** when it fills a page of one row: `Keyset.FetchAll` has the exact condition.
- **The day of the bootstrap can have stock facts twice.** `seed_master` dates the initial location stock today, and `seed_days` writes
  that day again when it gets there; the table numbers its rows itself. `Seeder.StockTwice` states exactly when, and
  `Seeder.SeedUpToToday` is a family of calls that do it.
- **The first pause is not capped**: `Retry.AllPausesAreCapped` holds if and only if the initial backoff does not exceed the cap.
- **The staleness of the version cache is counted from the time of storing**, not of reading. If every request stores within d,
  a version returned at time t was current no earlier than t - ttl - d (`CacheHistory.StalenessFromReading`), and that bound is
  reached for every d (`CacheHistory.SlowReader`). What is stored is already out of date if and only if the last commit since its
  reading is that of another version (`CacheHistory.StaleIffOvertaken`).

## Model

| member | source | states |
|---|---|---|
| `LoadReport.Totals` | internal/features/data_export/loader/loader.go:126-130 | whatever the order of the map, the totals are the sums over all sixteen entities |
| `LoadReport.GateInWholeNumbers` | internal/features/data_export/loader/loader.go:131-139 | a load passes the 1% gate if and only if 100 * failed <= total |
| `LoadLifecycle.InvStep` | internal/features/data_export/repository/loads.go:18-76 | every statement of every worker, the reaper, crashes and the server keep the invariant of tables, transactions and workers |
| `LoadLifecycle.PointerFollowsCommits` | internal/features/data_export/repository/snapshot.go:37-55 | in every run the values taken by the pointer are the committed loads, each once, in commit order; current is the last and previous the one before; nothing else is ever pointed at |
| `LoadLifecycle.MovesAreCommits` | internal/features/data_export/loader/loader.go:141-165 | the pointer moves to a load in exactly the step in which that load commits |
| `LoadLifecycle.TerminalForever` | internal/features/data_export/repository/loads.go:38-76 | a load leaves running at most once and its row never changes afterwards, also when a late failure mark or the reaper reaches it |
| `LoadLifecycle.CommittedLoadsPassedTheGate` | internal/features/data_export/loader/loader.go:125-155 | every committed load of every run records the sums of its own counters and satisfies 100 * failed <= total |
| `LoadLifecycle.ReportsAreTrue` | internal/features/data_export/loader/loader.go:93-170 | a reported success is a committed load; after any reported error but that of the commit the load is not committed, then or later; behind an error of the commit it is committed, then or later, only with the counters that were sent |
| `LoadLifecycle.FailureIsItsOwn` | internal/features/data_export/sqls/queries/loads_mark_failed.sql:3-8 | over runs: a load becomes failed only in a step of its own call, from running, with the reason that this call returns, and no other row changes in that step |
| `LoadLifecycle.AbortIsTheReaper` | internal/features/data_export/sqls/queries/loads_mark_aborted.sql:4-9 | over runs: a load becomes aborted only in a pass of the reaper whose cutoff lies behind its start, and the pass aborts every running load that started before the cutoff and touches no other row |
| `LoadLifecycle.NewLoadsRun` | internal/features/data_export/repository/loads.go:18-36 | over runs: the row of a new load is running, started at the time of that step, without a reason or an end |
| `LoadLifecycle.ReasonsAreTrue` | internal/features/data_export/repository/loads.go:56-76 | in every state of a run: a failed row has the reason its call returned, exactly the aborted rows say stale, and exactly the running and committed ones say nothing |
| `LoaderRun.Publish` | internal/features/data_export/loader/loader.go:141-165 | flip and commit mark in one transaction with other workers in between: the reason is that of the first fault, or of an earlier statement that found the transaction gone or the row no longer running; without outside changes to this load exactly the first fault decides, and no fault means success |
| `LoaderRun.Run` | internal/features/data_export/loader/loader.go:90-172 | whenever the load is or can become committed, behind a success or an error of the commit, its tables are the sequential load of all sixteen entities and its statistics their counters; each reason has its cause; when nobody else touches the load, all sources answer and no flush fails, the result is exactly the expected one, success included; unless its mark was lost, the row of a failed load is failed with the reason returned, or was aborted as stale before, or is committed behind an error of the commit; when nobody else touches the load it is exactly the failed row |
| `Validation.State.MarkPk` | internal/features/data_export/validation/engine.go:62-75 | true exactly for a key that is new for the entity, which then remembers it; other entities are untouched |
| `Validation.RunCheck` | internal/features/data_export/validation/builtin.go:63-208 | one rule's verdict, stated on the field itself: the line passes unless the field breaks the check, an unknown check always fails, and what the memory of keys gains |
| `Validation.CheckLine` | internal/features/data_export/validation/engine.go:137-165 | the violations of all rules in rule order, an unknown check being critical, and the memory after all of them; `ViolationsAreReports` says what they are |
| `Validation.ViolationsAreReports` | internal/features/data_export/validation/builtin.go:63-208 | the violations of a line are one report for each rule that the line breaks, with that rule's severity, each rule seeing the memory that the rules before it left |
| `Validation.OneMoreLine` | internal/features/data_export/loader/loader.go:315-330 | a line is rejected if and only if it breaks a critical rule or one whose check is unknown; the counts and the memory grow by just that line |
| `Validation.EveryLineIsCounted` | internal/features/data_export/loader/loader.go:315-330 | accepted and rejected lines together are the lines read, with multiplicity |
| `Validation.AcceptedKeysDistinct` | internal/features/data_export/validation/builtin.go:134-155 | with a critical duplicate_pk rule on a string field present in every line, accepted lines have distinct keys whatever the other rules do |
| `Validation.FirstOfEachKeyAccepted` | internal/features/data_export/validation/builtin.go:134-155 | with that rule alone exactly the first line of every key is accepted |
| `BatchLoad.WriteAllConcat` | internal/features/data_export/loader/loader.go:294-312 | writing two batches one after the other is writing their concatenation |
| `BatchLoad.Loader.Flush` | internal/features/data_export/loader/loader.go:292-313 | a flush succeeds exactly when its fault does no harm and the batch can be written, and then writes all of it and empties it; otherwise it writes nothing, or all of it behind a commit error; a storage error comes from a fault only |
| `BatchLoad.Loader.LoadLines` | internal/features/data_export/loader/loader.go:315-349 | for any stream and batch size: on success the table is the sequential load of the accepted lines; on an error a prefix of whole batches is; without faults and with an unbroken stream it succeeds exactly when the sequential load does; a storage error has a fault; counters, rejects and keys are those of the scan |
| `BatchLoad.Loader.LoadEntity` | internal/features/data_export/loader/loader_phase13.go:19-82 | the same for a source that may be unavailable, which only the supplier stock tolerates |
| `Pipeline.ForeignKeysPointBack` | internal/features/data_export/sqls/migrations/0001_master_and_service.up.sql:90-234 | every table that a foreign key names is an upserted one and is loaded before the table with the key |
| `Pipeline.CallsInOrder` | internal/features/data_export/loader/loader.go:194-281 | the sixteen entities in the order of the sixteen calls |
| `Pipeline.NoForeignKeyRefusal` | internal/features/data_export/loader/loader.go:194-206 | rows whose references are in the tables, or come no later in the same table, are never refused for a foreign key, in any batch |
| `Pipeline.RunPipeline` | internal/features/data_export/loader/loader.go:207-281 | success is the sequential load of all entities; a failure leaves the earlier entities complete and whole batches of the failing one; every error has its cause, and without faults and with all sources up the pipeline succeeds exactly when the sequential load does; a reference-closed source never fails on a foreign key |
| `Pipeline.ReportIsConserved` | internal/features/data_export/loader/loader.go:315-348 | per entity: lines read = rows written + rows rejected, and lines read = lines of the source |
| `WriteConditions.WritableIff` | internal/features/data_export/repository/master.go:53-82 | rows are all written, one INSERT after the other, if and only if their values fit and their months have partitions, plain inserts bring new keys, no sku is held by another id when its turn comes, and no reference dangles then |
| `WriteConditions.DistinctSkusAreFree` | internal/features/data_export/sqls/migrations/0001_master_and_service.up.sql:133-136 | distinct skus, none of them held by another id in the table, are enough for the sku condition |
| `WriteConditions.TwoProductsOneSku` | internal/features/data_export/sqls/migrations/0001_master_and_service.up.sql:133-136 | of two products with one sku the second is refused, whatever the tables hold |
| `WriteConditions.SwappedSkus` | internal/features/data_export/repository/master.go:60-72 | two products that exchange their skus are refused in either order |
| `WriteConditions.RepeatedKey` | internal/features/data_export/repository/facts.go:57-84 | a second row with the same key: refused as a duplicate for receipt lines and stock movements, kept beside the first for lifecycle events and the change log, and for each of the other twelve entities accepted in place of the first |
| `LoadSuccess.LoadSucceeds` | internal/features/data_export/loader/loader.go:207-281 | the load of the first n entities succeeds if and only if each satisfies these conditions against the tables before the load, a reference being met by a row that was there, was loaded before, or comes no later in its own table; then exactly the keys of the accepted rows are new |
| `LoadSuccess.ClosedLoadSucceeds` | internal/features/data_export/loader/loader.go:194-281 | a source whose references are met by its own accepted rows is loaded if and only if each entity satisfies its own conditions: values, months, new keys for plain inserts, skus |
| `LoadSuccess.SecondLoadSucceeds` | internal/features/data_export/repository/facts.go:57-84 | the load after a successful one succeeds if and only if everything else is in order and no receipt line or stock movement of it was there before the first, came with the first, or comes twice |
| `LoadSuccess.NeverAgain` | internal/features/data_export/sqls/queries/insert_stock_movement.sql:5-8 | over any sequence of loads, failed ones included: a receipt line or movement that is in the tables makes every later load fail that accepts it again |
| `LoadSuccess.RefusedForKeys` | internal/features/data_export/repository/facts.go:65-81 | when everything else up to the table is in order, a known or repeated key of a receipt line or stock movement ends the load with a duplicate key |
| `LoadLock.InvStep` | internal/features/data_export/scheduler/scheduler.go:127-150 | every step, crashes and dropped sessions included, keeps: a call under the lock holds it on its own connection unless its session was dropped, and the lock's count is that call plus the leaks |
| `LoadLock.AtMostOneLoads` | internal/features/data_export/scheduler/scheduler.go:127-266 | two ticks, retries or triggers are between lock and unlock at once only if the session of one of them was dropped while it was at work; without dropped sessions never, even when unlocks fail, a failed query took the lock or processes crash |
| `LoadLock.OrphansWereAtWork` | internal/features/data_export/scheduler/scheduler.go:127-150 | such a call lost its session in a step of the run in which it was at work and held the lock |
| `LoadLock.LockIsReturned` | internal/features/data_export/scheduler/scheduler.go:147-157 | without leaks the lock is free exactly when no call is at work under it, but for those whose session was dropped |
| `LoadLock.TriggerAnswers` | internal/features/data_export/scheduler/scheduler.go:205-245 | the step in which TryTrigger answers: yes in exactly the one that gives its goroutine the lock; any other answer leaves lock and connection as found |
| `LoadLock.AnswersAreTrue` | internal/features/data_export/scheduler/scheduler.go:205-245 | over whole runs: a trigger was told yes if and only if its goroutine got the lock in some step, and one that was told no is never at work again |
| `LoadLock.DroppedSession` | internal/features/data_export/scheduler/scheduler.go:127-150 | a run with a dropped session in which two calls load at once, so the hypothesis is needed |
| `LoadScheduler.Server.Tick` | internal/features/data_export/scheduler/scheduler.go:127-180 | while all others go on: a load runs under the lock or not at all, only on ready partitions, and a skipped tick found the lock taken by another session; alone, pool and lock end as they began unless the unlock fails, and a free lock means a load; once the lock was got, done if and only if neither partitions nor load failed, and otherwise which of the two |
| `LoadScheduler.Server.TryTrigger` | internal/features/data_export/scheduler/scheduler.go:205-246 | yes if and only if the goroutine has the lock and its connection; no only if the lock was found taken; any other answer than yes gives the connection back |
| `LoadScheduler.Server.Work` | internal/features/data_export/scheduler/scheduler.go:228-243 | what follows the lock loads under it or not at all and gives back what it was handed; its answer is done, failed partitions or failed load exactly as these went |
| `SendLifecycle.InvStep` | internal/features/channels/router_svc/channel_router.go:176-275 | every statement of every call, outside status change, commit and rollback keep the invariant of orders, attempts and transactions |
| `SendLifecycle.AtMostOneSuccess` | internal/features/channels/repository/queries.go:174-186 | in every run an order has as many committed successes as steps from ready_to_send to sent, and at most one |
| `SendLifecycle.SuccessIsForever` | internal/features/channels/repository/queries.go:191-209 | a committed success keeps its id and external reference and stays the only one of its order |
| `SendLifecycle.CommittedIsFinal` | internal/features/channels/repository/queries.go:154-170 | no committed attempt is pending |
| `SendLifecycle.ReportsAreTrue` | internal/features/channels/router_svc/channel_router.go:176-275 | a reported success is committed; any other report rules a success of that call out unless its commit failed |
| `SendLifecycle.SuccessIsTheMove` | internal/features/channels/repository/queries.go:174-209 | a call of a run has a committed success for an order if and only if the order went from ready_to_send to sent in the step that commits the transaction of this very call |
| `SendLifecycle.SentMeansAnswered` | internal/features/channels/router_svc/channel_router.go:224-242 | over runs: an order moves to sent only for a call that the channel answered with the status success |
| `SendLifecycle.AttemptsRecordAnswers` | internal/features/channels/router_svc/channel_router.go:224-238 | over runs: a committed attempt has the reference and the retry count of the answer that its call got; its status is that of the answer, or failed where the answer has none or says pending |
| `ChannelRouter.ChannelDb.SelectReadyToSendPOs` | internal/features/channels/repository/queries.go:18-44 | distinct orders that are ready to send and not locked by another transaction, at most the limit, and all of them if fewer |
| `ChannelRouter.Router.SendOne` | internal/features/channels/router_svc/channel_router.go:176-275 | how one call ends in terms of the channel's answer: at most one send; success only for an answer with the status success; skipped only for skipped; no status, pending and failed end as failed and leave the order as it was; each failure has its fault or a transaction that the server ended; without faults and outside changes a ready order that the channel accepts is sent |
| `ChannelRouter.Router.SendAll` | internal/features/channels/router_svc/channel_router.go:88-135 | the tallies are those of the outcomes and add up to the orders selected, at most the effective limit; each order is moved to sent by its own call's commit or not at all; the orders this run moved number at least sent and at most sent plus the calls whose commit reported an error; when nothing fails all are sent |
| `ChannelRouter.WonAreMoved` | internal/features/channels/router_svc/channel_router.go:112-125 | the calls with a committed success are exactly those whose order moved from ready_to_send to sent in the step that committed their transaction, and as many orders moved |
| `ChannelRouter.WonIsBetween` | internal/features/channels/router_svc/channel_router.go:112-125 | the calls that moved their order are those reported sent and possibly some whose commit reported an error |
| `ChannelRouter.Router.SendByID` | internal/features/channels/router_svc/channel_router.go:145-171 | once a success is there every retry returns its id and reference and sends nothing; every error case, failing queries included; a ready order is sent when nothing fails |
| `Retry.Send` | internal/features/channels/sender/erp_api_sender.go:82-219 | against any answers: another attempt begins if and only if the retries are not used up and the answer is a failed request, a network error, 429 or a code of 500 and more; success exactly when the last answer has a code from 200 to 299; never pending, retry count = attempts - 1, pauses and last code |
| `Retry.DoRequest` | internal/features/data_export/loader/http_source_reader.go:131-200 | the same loop with its own answers: it goes on exactly after a network error, 429 or a code of 500 and more; rows exactly for a readable answer below 400, and which error otherwise |
| `Retry.Do` | internal/features/etl_validation/extractor/client.go:80-131 | the same loop with 501 among the answers that end it |
| `Retry.NextPause` | internal/features/channels/sender/erp_api_sender.go:123-127 | doubling and capping step by step gives min(initial * 2^k, cap) |
| `Retry.AllPausesAreCapped` | internal/features/data_export/loader/http_source_reader.go:142-154 | the closed form holds for every pause if and only if the initial pause does not exceed the cap |
| `Retry.TotalPause` | internal/features/channels/sender/erp_api_sender.go:113-128 | the total pause in closed form, for all three loops |
| `Retry.SenderDefaults` | internal/features/channels/sender/erp_api_sender.go:113-128 | with the sender's defaults three retries pause 1.4 seconds, and every pause after the eighth is the cap |
| `Retry.OnlyNotImplementedDiffers` | internal/features/etl_validation/extractor/client.go:116-126 | against the same answers the extractor stops no later than the reader, and earlier exactly at a 501 |
| `Retry.CodeIsTheLastReceived` | internal/features/channels/sender/erp_api_sender.go:193-197 | the status code on an attempt row is the last one received, however much older than the failure |
| `Retry.OnlySlashes` | internal/features/channels/sender/erp_api_sender.go:104-111 | the endpoints refused as empty are those made of slashes |
| `Keyset.ClampLimit` | mock-erp/app/pagination.py:33-38 | a page has between 1 and 50000 rows |
| `Keyset.OnePage` | mock-erp/app/routes/entities.py:45-91 | a page keeps the rows collected in key order, takes them from the table of its moment, and its cursor is the last of them |
| `Keyset.CoverOnePage` | mock-erp/app/routes/entities.py:94-143 | every key present at each request so far is collected or beyond the cursor, and without a cursor nothing is |
| `Keyset.FetchAll` | internal/features/data_export/loader/http_source_reader.go:98-128 | while the table changes: strictly increasing keys, rows that were there, every key present throughout; on a fixed table exactly the table in n / limit + 1 requests, with the exact condition for empty keys; ends although pages are unbounded |
| `Keyset.UntouchedRowIsReturned` | internal/features/data_export/loader/http_source_reader.go:98-128 | a row unchanged throughout the scan is returned unchanged |
| `Keyset.SortedHasNoDuplicates` | internal/features/data_export/loader/http_source_reader.go:98-128 | and no row twice |
| `ExportPages.ScanIsExact` | internal/features/data_export/handler/receipt_line.go:70-84 | for one page size a client collects exactly the table if and only if text order and table order agree at its page boundaries |
| `ExportPages.EveryPageSize` | internal/features/data_export/handler/products.go:65-69 | every page size works if and only if the table is in text order, and so without repeated keys, and has no empty key |
| `ExportPages.PagesOfAnExactScan` | internal/features/data_export/handler/streaming.go:40-50 | an exact scan takes n / limit + 1 pages |
| `ExportPages.ReceiptLinesScan` | internal/features/data_export/sqls/queries/select_receipt_line.sql:6-13 | receipt lines can be paged with every page size if and only if the ids of each day are in the same order as text |
| `ExportPages.EqualWidthsAgree` | internal/features/data_export/sqls/queries/select_stock_movement.sql:3-10 | ids of equal width per day are |
| `ExportPages.LostReceiptLine` | internal/features/data_export/sqls/queries/select_receipt_line.sql:6-13 | ids 9 and 10 on one day with pages of one row: the second is lost |
| `ExportPages.JoinedKeysScan` | internal/features/data_export/sqls/queries/select_product_barcodes.sql:4-9 | rows keyed by several columns can be paged with every page size, in byte order, if and only if none comes twice and no leading column, behind equal ones, continues in a later row with a character below the bar |
| `ExportPages.ClashLosesRow` | internal/features/data_export/sqls/queries/select_supply_spec_fanout.sql:6-21 | any two rows that clash or have the same key: with pages of one row the second is lost |
| `ExportPages.LostBarcode` | internal/features/data_export/sqls/queries/select_product_barcodes.sql:4-9 | products P1 and P10 with pages of one row: the barcode of P10 is lost |
| `PagedReader.ReadLine` | internal/features/etl_validation/extractor/entities.go:287-302 | the next line that is not empty, its error, or the end |
| `PagedReader.Reader.OpenNextPage` | internal/features/etl_validation/extractor/entities.go:207-235 | the request sent and all fields after it, for every answer and at the cap |
| `PagedReader.Reader.Next` | internal/features/etl_validation/extractor/entities.go:238-258 | takes the next row off what is still to come, or reports how it ends; only the first request was conditional; after a failure the reader is at its end |
| `PagedReader.Open` | internal/features/etl_validation/extractor/entities.go:96-118 | the first page is fetched at once, with the known ETag, and its own ETag is kept |
| `PagedReader.ReadAll` | internal/features/etl_validation/service/staging.go:152-177 | all rows of a stream that ends, or its error |
| `PagedReader.DrainIsAPrefix` | internal/features/etl_validation/extractor/entities.go:238-258 | the rows before the first other result are a prefix of the pages (answers with code 200) laid end to end, and all of them if that result is the end |
| `PagedReader.EndMeansComplete` | internal/features/etl_validation/extractor/entities.go:207-258 | the end is reported if and only if every page can be read and, exclusively, either every cursor is answered with a page and the last one has none, or some cursor is answered with 304, 404 or 501 |
| `PagedReader.EndComesWithAllRows` | internal/features/etl_validation/extractor/entities.go:159-180 | against a server that answers no cursor so, the end comes if and only if every page is there and readable and the last one has no cursor, and then with all rows |
| `PagedReader.StreamOfTheExport` | internal/features/data_export/handler/products.go:32-86 | against the export API: the whole scan if it takes at most 100000 pages and an error otherwise; an empty stream for a client that has the snapshot |
| `PagedReader.SortedExportCompletes` | internal/features/etl_validation/extractor/entities.go:31-31 | a table in text order is streamed to its end if and only if n / limit + 1 <= 100000 |
| `PagedReader.TruncatedExport` | internal/features/etl_validation/extractor/entities.go:159-180 | the export API with one request answered 404: the stream ends after the pages before it without an error, for every table, page size and request |
| `MartCursor.KeyRoundTrip` | internal/features/data_marts/repository/marts.go:16-63 | a key comes back from its text if and only if its leading texts have no bar and its year has four digits; the last text of the two-text form is free |
| `MartReader.PgReader.GetVersion` | internal/features/data_marts/service/reader_pg.go:55-73 | the live cached version, or else the database's, which is then cached for the TTL |
| `MartReader.PgReader.Read` | internal/features/data_marts/service/reader_pg.go:86-140 | every error case; otherwise the page of the run that the cursor names, or of the current one, which it reports and puts into the next cursor |
| `MartReader.ScanIsPinned` | internal/features/data_marts/service/reader_pg.go:99-120 | however many runs commit meanwhile, every page of a scan reports the first page's run and has rows of that run only |
| `MartScan.SteadyScan` | internal/features/data_marts/repository/marts.go:67-125 | while the run's rows stay in place a scan is the walk over them, whatever else is committed |
| `MartScan.ScanIsExact` | internal/features/data_marts/repository/marts.go:67-125 | a scan yields each row once and in key order if and only if the keys at its page ends cut rightly after the trip through the cursor; then in n / limit + 1 requests |
| `MartScan.FinishedScan` | internal/features/data_marts/repository/marts.go:121-125 | with keys that survive the cursor a finished scan is the run's rows, and it finishes after n / limit + 1 requests |
| `MartScan.EndlessScan` | internal/features/data_marts/repository/marts.go:36-45 | a bar in the first of two texts can make the first page come again for ever |
| `VersionCache.Cache.Get` | internal/features/data_marts/service/cache.go:36-53 | a hit exactly for an entry that has not expired; a miss removes only an expired entry |
| `CacheHistory.InvStep` | internal/features/data_marts/service/cache.go:36-70 | every step of every request keeps: each entry and each version in hand was queried while current and stored ttl before its expiry |
| `CacheHistory.BoundedStaleness` | internal/features/data_marts/service/reader_pg.go:55-73 | a version returned at time t was the current one when some request read it, and that request stored it no earlier than t - ttl |
| `CacheHistory.StalenessFromReading` | internal/features/data_marts/service/reader_pg.go:55-73 | if every request stores within d of its reading, a version returned at time t was current at some time no earlier than t - ttl - d |
| `CacheHistory.StaleIffOvertaken` | internal/features/data_marts/service/reader_pg.go:55-73 | a version is still current when it is stored or returned if and only if the last commit since its reading is not that of another version |
| `CacheHistory.LiveEntriesStay` | internal/features/data_marts/service/cache.go:43-51 | over whole runs an entry that has not expired stays unless its key is invalidated or stored anew, then with a later expiry |
| `CacheHistory.SlowReader` | internal/features/data_marts/service/cache.go:56-63 | for every ttl and d a run in which a version is returned ttl + d after the last moment at which it was current, and is cached over a newer one |
| `Calendar.NextDayNumber` | mock-erp/app/seeder.py:562-563 | day numbers count the days one by one |
| `Calendar.DayNumberOrder` | mock-erp/app/seeder.py:531-533 | the order of dates is the order of their numbers |
| `Calendar.DateRoundTrip` | internal/features/data_marts/repository/marts.go:26-31 | a date comes back from its text if and only if its year is in 0..9999, and is unreadable otherwise |
| `Calendar.TextOrderIsDateOrder` | internal/features/data_export/sqls/queries/select_receipt_line.sql:6-13 | dates of four-digit years are in the order of their texts, which all have ten characters |
| `Partitions.NextMonthRanges` | internal/features/data_export/scheduler/partitions.go:26-37 | the month of now and the given number of calendar months after it |
| `Partitions.WindowCoversOnce` | internal/features/data_export/scheduler/partitions.go:26-37 | the ranges cover each day of their months once and no other day |
| `Partitions.WindowIsAdjacent` | internal/features/data_export/scheduler/partitions.go:26-37 | they are adjacent and start with the first day of the current month |
| `Partitions.NamesDistinct` | internal/features/data_export/scheduler/partitions.go:40-42 | child names are equal if and only if parents and months are, for all parents and years |
| `Partitions.NameParts` | internal/features/data_export/scheduler/partitions.go:39-42 | the name is the parent, _y, the year in four digits, m and the month in two |
| `Partitions.ChildrenAreDisjoint` | internal/features/data_export/scheduler/partitions.go:45-53 | two partitions of one table never overlap |
| `Partitions.NeverRefused` | internal/features/data_export/scheduler/partitions.go:45-53 | IF NOT EXISTS never hides a different range, and a new range is never refused |
| `Partitions.EnsureNextPartitions` | internal/features/data_export/scheduler/partitions.go:57-68 | fails only with the database; keeps what is there; afterwards every table has every month of the window and nothing else is new |
| `FactWindow.MonthsAfterTicks` | internal/features/data_export/scheduler/partitions.go:57-68 | after any ticks a table has the months it had before and those from the current month to monthsAhead months later of the ticks that succeeded, and none but those of some tick |
| `FactWindow.WindowIsCovered` | internal/app/app.go:93-101 | every fact of a window has a partition if and only if each month of the window had one before the ticks or was current or ahead at one of them |
| `FactWindow.FactFits` | internal/features/data_export/sqls/migrations/0002_facts_partitioned.up.sql:10-22 | a fact is refused for its partition if and only if its day has none |
| `FactWindow.OldFactsHaveNoPlace` | internal/features/data_export/scheduler/partitions.go:26-37 | in a database that begins without partitions no tick makes room for a fact from before its own month |
| `Seeder.ReceiptIdDistinct` | mock-erp/app/seeder.py:578-578 | a receipt id determines its day, store and number, whatever the store is called |
| `Seeder.FirstReceipt` | mock-erp/app/seeder.py:578-578 | receipt 1 of store S1 on 1 May 2024 is R-20240501-S1-000001 |
| `Seeder.DayReceipts` | mock-erp/app/seeder.py:566-587 | the receipts of one day, store by store and product by product, numbered on from the days before |
| `Seeder.Seeder.SeedMaster` | mock-erp/app/seeder.py:420-470 | the window opens SEED_DAYS before today, the initial stock is dated today, and a second call changes nothing |
| `Seeder.Seeder.SeedDays` | mock-erp/app/seeder.py:494-678 | every error case, without effect; otherwise the next min(count, days left) days with all their receipts, never past today, and the state that one call of the sum would leave |
| `Seeder.ReceiptsNeverRepeat` | mock-erp/app/seeder.py:559-578 | no receipt id repeats although the counter restarts with every call |
| `Seeder.FactsArePast` | mock-erp/app/seeder.py:501-543 | after any calls no fact of seed_days is from a day after the last call that wrote facts, and so none is after today unless the clock was put back; seed_days writes no day twice |
| `Seeder.StockTwice` | mock-erp/app/seeder.py:386-417 | a day has location stock twice if and only if it is the day of the bootstrap and the generated days have reached it, and never more often |
| `Seeder.SeedUpToToday` | mock-erp/app/seeder.py:420-470 | any bootstrap whose window is generated up to and with the same day has stock of that day twice |
| `Seeder.DaysSplit` | mock-erp/app/seeder.py:562-563 | the days of two calls are the days of one |
| `Seeder.WeeksSplit` | mock-erp/app/seeder.py:617-626 | and so are the weekly supplier days |
| `Seeder.WeeksAreWeeks` | mock-erp/app/seeder.py:617-626 | they are every seventh day from the start on, (n + 6) / 7 of them |
| `Seeder.CallsAddUp` | mock-erp/app/seeder.py:532-543 | any number of calls on one day, clamped or refused, come to what one call for their sum does |
| `Seeder.CallsReachTheBound` | mock-erp/app/seeder.py:532-543 | while the clock does not go back, any calls leave exactly the smallest of: all days asked for, and for each call its today plus what was asked after it |

## Left out

- Keyset.FetchAll: a cursor that the server did not issue is not modelled; the mock ERP answers one that is not a number with an SQL error.
- Pipeline.RunPipeline: the sixteen calls in a row are a loop over the same order.
- LoaderRun.Run: the sixteen tables belong to one call of Run; two loads that write them at the same time, which a lost lock allows, are not modelled there (`LoadLifecycle` has them for the loads table and the pointer).
- BatchLoad.Loader.LoadLines: a reject row that cannot be inserted is lost silently; the model logs every reject.
- WriteConditions.WritableIff: which values a column type or CHECK accepts (the event types, ltree paths and the like) is a parameter of the row; partitions and unique and foreign keys are modelled.
- Seeder.StockTwice: initial stock of distribution centres and of inactive products, which seed_days never writes.
- LoadReport.GateInWholeNumbers: the ratio is an exact rational, not a rounded float64.
- Retry.TotalPause: durations do not overflow.
- Seeder.SeedDays: price, time, movement and snapshot columns, and the year of a date being written with four digits.
- ExportPages.JoinedKeysScan: leading columns that contain the bar; for those `ExportPages.EveryPageSize` has the condition on the joined texts.
- ExportPages.EveryPageSize: entities whose cursor is a bare number (the change log, lifecycle events) compare it as a number; for them table order and filter order are the same.
- ChannelRouter.Router.SendAll: the order in which ready orders are selected.
- 32- and 64-bit widths of counters and ids; all are unbounded.
- Isolation of /v1 readers during a load: rows are upserted in place before the flip and the export handlers ignore the load id in the cursor, so no snapshot isolation is claimed; `PagedReader` assumes no flip during a scan.
- `snapshot.Service.Flip`, which flips without the commit guard and has no caller.
- The other columns and the mappers of the single entities, metrics, logging, roles, HTTP routing, configuration.
- Forecast, KPI and order quantity formulas, transformers, dashboards: no protocol content.
- The request and response bodies kept for audit, their truncation, and the extraction of the external reference from a response.
- The scheduler of the channels takes its lock as the load scheduler does; only `LoadLock` is written out.
