# Monte Carlo credit-loss simulation: verified model of the bookkeeping

This project models the core of `run_simulation.py` in Dafny. That script
simulates portfolio credit losses with a one-factor Gaussian model. A
producing process and a storing process work over one bounded queue.

- **Threshold selection** (`Thresholds`). The producer takes the first
  record of the requested horizon year from the rating file. For every
  rating of interest it keeps the default probability (`rate / 100`), the
  default threshold `ppf(probability)` and a default counter of zero. A
  rating missing from the record is the program's `KeyError`, modelled as
  `Err(rating)`. A year with no record leaves the table empty.
- **Scenario loop** (`Simulation`). Per scenario, every obligor's asset
  value X is tested against every rating's threshold, in dictionary order.
  Each count becomes a loss ratio: 0 without defaults, otherwise
  `count / portfolio size`. The counter is reset right after it is read.
  The record `{S_ID, Y, <rating>_L_RATIO...}` joins the current batch.
  - A batch is put on the queue when the incremented `sim_id` reaches
    `BATCH_SIZE * (flushes + 1)`.
  - The non-empty remainder and the sentinel `None` follow at the end.
- **Queue** (`Channel`). This is the sequence of items put on the queue.
- **Storing process** (`Persistence`). `data_consumer` opens a transaction
  unless one is open, bulk-inserts a batch and commits it. A database error
  ends the loop. The handler then rolls the open transaction back. The
  `finally` commit finds no open transaction and does nothing.
  - The database is a `Store` class: committed rows, the open transaction's
    rows, and the log of statements issued.
  - A row is refused when its `S_ID` is already in the table (the primary
    key), or when it lacks a loss-ratio value the INSERT statement binds.
- **SQL text** (`SqlSchema`). These are the module-level column lists and
  `create_sql_command`, with Python's `str.join` written out.
- **One year's run** (`Pipeline`). The producer's stream is handed to the
  consumer, and the whole run is characterised for each way the
  year's rating record can look.

What is proved, in brief:
- threshold selection equals a declarative definition of the table;
- each scenario's record equals a definition straight from the draws, and
  the counters are back at zero afterwards;
- loss ratios are monotone in the threshold;
- the batches concatenate to all records in `S_ID` order, and the size and
  `S_ID` range of each batch are known;
- the storing process commits exactly the batches before the sentinel or
  before the first refused batch, and nothing of the refused batch;
- a clean year stores every record exactly once;
- in the SQL text, every column, and the placeholder bound to it, stand at
  matching positions.

Because the flush test compares the already incremented `sim_id` with
`BATCH_SIZE * (flushes + 1)`, the first batch holds `BATCH_SIZE - 1`
records and every later full batch holds `BATCH_SIZE` (`Simulation.Cap`,
`Simulation.BatchIds`).

## Model

| member | source | states |
|---|---|---|
| SqlSchema.LossColumn | run_simulation.py:49-51 | a rating's column is the rating followed by `_L_RATIO`: the rating as prefix, `_L_RATIO` as the rest |
| SqlSchema.LossColumnInjective | run_simulation.py:49-51 | distinct ratings never share a loss-ratio column, so keying a record's ratios by rating is the same as keying them by column |
| SqlSchema.LossColumns | run_simulation.py:48-51 | one column name per rating, in rating order |
| SqlSchema.Typed | run_simulation.py:52-54 | every CREATE column definition is the column name followed by ` DECIMAL(6)` |
| SqlSchema.Placeholders | run_simulation.py:70 | one named placeholder `:col` per column, in column order |
| SqlSchema.BuildColumnLists | run_simulation.py:41-56 | the three start-up loops yield the base columns followed by the typed loss-ratio columns (CREATE) and by their names (INSERT) |
| SqlSchema.ColumnListsParallel | run_simulation.py:41-56 | both lists have 2 + #ratings entries, and CREATE entry i is INSERT entry i, a space, then its SQL type |
| SqlSchema.JoinPlacesPart | run_simulation.py:60 | in `sep.join(parts)` part i occurs whole at its offset |
| SqlSchema.JoinPlacesSeparator | run_simulation.py:60 | in `sep.join(parts)` every part but the last is followed by the separator |
| SqlSchema.CreateSqlCommand | run_simulation.py:58-79 | a statement exists exactly for mode "create" or "insert" (any other mode leaves `sql` unbound); it is the CREATE TABLE text or the INSERT text respectively |
| SqlSchema.CreateStatementColumn | run_simulation.py:59-66 | CREATE TABLE lists each column definition whole, at its place in the comma-separated list |
| SqlSchema.InsertStatementColumn | run_simulation.py:68-78 | INSERT lists each column name whole, at its place in the column list |
| SqlSchema.InsertStatementPlaceholder | run_simulation.py:68-78 | placeholder i of VALUES is `:` followed by column i's own name and stands whole at position i of the VALUES list |
| Thresholds.FirstOfYear | run_simulation.py:132-138 | the index of the first record of the year (no earlier record has it), or none when no record has the year |
| Thresholds.FirstMissing | run_simulation.py:134-135 | the first rating of interest missing from the record (all earlier ones present), or none when all are present |
| Thresholds.DedupElements | run_simulation.py:134-137 | the dictionary's key order holds each rating of interest exactly once |
| Thresholds.FillTable | run_simulation.py:134-137 | the fill loop yields the declarative table of the record, or the first missing rating as the error |
| Thresholds.SelectThresholds | run_simulation.py:130-138 | the scan yields the first matching record's table, or the empty table when no record matches |
| Thresholds.DedupOrder | run_simulation.py:134-137 | the dictionary's key order lists the ratings by their first mention in the ratings of interest |
| Thresholds.TableForEntries | run_simulation.py:130-138 | the table is built iff every rating is in the record, and the error names a rating that is missing; a built table has exactly the ratings as keys, its iteration order is the ratings' first-mention order (`Dedup`), and each entry has pct = rate/100, ppf = ppf(pct) and a zero counter |
| Thresholds.OnlyFirstMatchCounts | run_simulation.py:132-138 | records after the first one of the year never change the result (`break`) |
| Thresholds.NoMatchGivesEmptyTable | run_simulation.py:130-138 | without a record of the year the table is empty, not an error |
| Thresholds.ThresholdMonotone | run_simulation.py:135-137 | with a ppf increasing on (0, 1), a rating whose rate is higher, both rates strictly between 0 % and 100 %, gets a strictly higher threshold |
| Simulation.CountBelow | run_simulation.py:153-160 | a default count never exceeds the portfolio size |
| Simulation.CountBelowIsCardinality | run_simulation.py:153-160 | the count is the number of obligors whose X is strictly below the threshold |
| Simulation.CountBelowMonotone | run_simulation.py:158-160 | a higher threshold never counts fewer defaults |
| Simulation.TestAgainstAll | run_simulation.py:158-160 | testing one X against every rating in table order adds 1 exactly to the counters of ratings whose threshold exceeds X |
| Simulation.CountDefaults | run_simulation.py:153-160 | the obligor loop adds, per rating, the number of obligors below its threshold |
| Simulation.LossRatio | run_simulation.py:167-170 | a loss ratio lies in [0, 1] |
| Simulation.LossRatioScaled | run_simulation.py:167-170 | ratio × size gives back the count, and the ratio is 0 exactly when the count is 0 |
| Simulation.LossRatioMonotone | run_simulation.py:167-170 | more defaults never give a smaller ratio |
| Simulation.BuildRecord | run_simulation.py:162-173 | the record holds `S_ID`, Y and every rating's ratio, and every counter is zero afterwards |
| Simulation.ScenarioRoundTrip | run_simulation.py:153-173 | counting from a zeroed table and building the record yields the scenario's declarative record and restores the table exactly |
| Simulation.RunScenario | run_simulation.py:151-173 | one scenario yields its declarative record and leaves the table unchanged |
| Simulation.ScenarioRatio | run_simulation.py:153-172 | each rating's ratio in a record is the ratio of the obligors below its threshold |
| Simulation.HigherThresholdNoLowerLoss | run_simulation.py:153-172 | in one scenario, a rating with a threshold at least another's has a loss ratio at least as large |
| Simulation.SumCapsClosed | run_simulation.py:176-181 | for batch size B ≥ 2 the first f > 0 full batches hold B·f − 1 records; for B ≤ 1 they hold f |
| Simulation.FlushExactlyWhenFull | run_simulation.py:176-181 | the flush test passes exactly when the open batch has reached its capacity |
| Simulation.AddRecord | run_simulation.py:174-181 | appending a record and testing for a flush keeps the batching invariant: full batches of the expected sizes, the open batch not full, all records in order |
| Simulation.AppendRecord | run_simulation.py:174-181 | appending the record, incrementing `sim_id` and flushing when the test passes keeps the batching invariant, with the queue holding exactly the flushed batches |
| Simulation.CloseBatches | run_simulation.py:183-184 | flushing the non-empty remainder yields non-empty batches of the expected sizes holding every record in order |
| Simulation.Simulate | run_simulation.py:143-185 | the queue is non-empty batches followed by the sentinel; concatenated, they are the records of all scenarios in `S_ID` order; every batch but the last is full |
| Simulation.BatchIds | run_simulation.py:143-185 | which `S_ID`s each batch holds: 1..B−1 in the first, B·i onwards in batch i > 0, one record per batch when B ≤ 1 |
| Simulation.RecordIds | run_simulation.py:162-176 | the records carry `S_ID` 1..N in order, each once |
| Simulation.SelectedIsZeroed | run_simulation.py:130-138 | a selected table is well formed with every counter at zero |
| Simulation.SimulateLossesMonteCarlo | run_simulation.py:124-185 | a missing rating puts nothing on the queue; otherwise the queue carries all scenario records in batches, then the sentinel |
| Channel.Batches | run_simulation.py:176-185 | the batches of a complete stream, re-wrapped and followed by the sentinel, are the stream |
| Channel.SentinelAfter | run_simulation.py:183-185 | non-empty batches followed by the sentinel form a complete stream of exactly those batches |
| Persistence.Accepted | run_simulation.py:110 | a bulk insert accepts at most all of its rows |
| Persistence.AcceptedRowsFit | run_simulation.py:110 | every accepted row fits next to the rows before it (new `S_ID`, all columns bound) |
| Persistence.AcceptedStops | run_simulation.py:110 | the row after the accepted ones, if any, is refused |
| Persistence.AcceptedKeepsConstraints | run_simulation.py:110 | rows accepted one by one keep `S_ID` unique (primary key) and every column bound |
| Persistence.AcceptedWhole | run_simulation.py:110 | a batch with fresh, distinct `S_ID`s whose rows bind every column is accepted whole |
| Persistence.Store.constructor | run_simulation.py:97 | a new connection to an empty table: nothing committed, pending or logged |
| Persistence.Store.BeginTransaction | run_simulation.py:106-108 | opens a transaction and logs it |
| Persistence.Store.InsertRows | run_simulation.py:110 | the accepted prefix joins the transaction; success iff every row is accepted; the table's constraints keep holding |
| Persistence.Store.CommitTransaction | run_simulation.py:112 | makes the open transaction's rows durable; without an open transaction it does nothing |
| Persistence.Store.RollbackTransaction | run_simulation.py:117-118 | discards the open transaction's rows and leaves the committed rows unchanged |
| Persistence.Payloads | run_simulation.py:101-104 | the batches of a run of items that are all batches, one for one |
| Persistence.ConsumeStep | run_simulation.py:101-113 | taking one more batch extends the payloads, the committed rows and the statement log by exactly that batch |
| Persistence.WriteBatch | run_simulation.py:106-113 | begin unless already in a transaction, bulk insert, commit; on a refused row the commit is skipped, nothing new is committed and the transaction stays open holding exactly the rows inserted before the refused one |
| Persistence.DrainQueue | run_simulation.py:100-113 | the loop stops at the first sentinel or the first refused batch, having committed exactly the batches before it, each in its own transaction; after a refused row the open transaction holds the rows of that batch inserted before it |
| Persistence.DataConsumer | run_simulation.py:95-122 | after the handler and clean-up no transaction is open; at the sentinel all batches before it are committed; after a refused row the batches before it stay committed, nothing of the failed batch remains, and the log ends Begin, InsertMany, Rollback; with no sentinel everything read is committed |
| Pipeline.SentinelIsLast | run_simulation.py:103-104 | in a complete stream the only sentinel is the last item |
| Pipeline.SentinelNotRead | run_simulation.py:101-104 | having read only batches, the consumer has not reached the end of a complete stream |
| Pipeline.PayloadsBeforeSentinel | run_simulation.py:101-104 | what is read before the sentinel is exactly the stream's batches |
| Pipeline.RowsOfFirstBatches | run_simulation.py:101-113 | the rows of the first m batches read are a prefix of all the stream's rows |
| Pipeline.EveryBatchAccepted | run_simulation.py:110 | when all rows have distinct `S_ID`s and bind every column, each batch is accepted whole on top of the earlier ones |
| Pipeline.CleanStreamIsStored | run_simulation.py:95-122 | draining such a stream reaches the sentinel with every row committed, in order |
| Pipeline.RecordsBind | run_simulation.py:162-172 | every scenario record supplies the ratio of every rating of the table |
| Pipeline.RecordsDoNotBind | run_simulation.py:162-172 | with an empty table no record supplies a rating's ratio |
| Pipeline.NoRowStored | run_simulation.py:95-122 | when no row binds the columns, draining stops at the first batch with nothing committed |
| Pipeline.RunYear | run_simulation.py:193-206 | for a year with a complete record the table ends with the records of all scenarios; with a missing rating the consumer starves and the table stays empty; with no record of the year the first batch fails and the table stays empty |

## Left out

- Random draws, `np.random.seed`, `np.sqrt` and the combination `X = Y·√ρ + Z·√(1−ρ)` are not modelled. The draws (Y and every X) are inputs. The asset correlation therefore does not appear.
- `norm.ppf` is a parameter `ppf: real -> real`. Floating-point arithmetic is exact real arithmetic, so infinite or NaN thresholds (rates outside the open interval (0 %, 100 %)) are not modelled.
- `ECONOMIC_SCENARIOS`, `PORTFOLIO_SIZE`, `BATCH_SIZE` and `RATES_OF_INTEREST` are parameters, not constants. The portfolio size is a `nat`.
- Reading the JSON file is left out: the records are given as a sequence. A record without a `Year` key (a `KeyError` at line 133) cannot be expressed.
- Processes and the queue's capacity (`MAX_QUEUE_SIZE`) are left out. The producer's complete stream is handed to the consumer, so blocking, backpressure and interleaving are not modelled. A consumer that never sees the sentinel is reported as `Starved` instead of blocking forever.
- SQLite is reduced to the two refusals the program can meet: a duplicate `S_ID` and a missing named value. Disk, locking and type errors are not modelled, and neither are the column types.
- Persistence.Store.InsertRows: the refusal is computed from the whole row (`Binds`, keyed by rating), not from the SQL text. `SqlSchema.LossColumnInjective` is what makes rating keys and column keys interchangeable.
- `create_database` (lines 81-93) is not part of this model. `Pipeline.RunYear` starts from an empty table; a database file left over from an earlier run, whose rows would clash on `S_ID`, is covered only by `Persistence.DataConsumer`, which allows any committed rows that keep the table's constraints (unique `S_ID`, every column bound).
- `main`'s loop over years and correlations, `os.makedirs`, every `print`, `exit()` and `conn.close()` are left out. They are I/O or repeat `RunYear` with other parameters.
- Pipeline.RunYear: does not state the outcome when no record has the year and the ratings or the scenarios are empty, because those runs are degenerate.
