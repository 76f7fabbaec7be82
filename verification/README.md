# A Dafny model of the work partitioning in the basic driver benchmarks

The basic benchmarks drive a fixed number of inserts and selects against a Scylla/Cassandra
cluster through one of two Go drivers (`benchmarks/basic/scylla-go-driver/source/main.go`
and `benchmarks/basic/gocql/source/main.go`; the two files share the modelled logic line for
line). A pool of goroutines shares one counter. Each goroutine repeatedly claims a batch of
primary keys with `atomic.AddInt64(&nextBatchStart, batchSize)`. For every key it claims it
inserts `(pk, 2*pk, 3*pk)`, or selects the row and checks it, or does both, depending on the
workload. `readConfig` (`benchmarks/basic/scylla-go-driver/source/config.go`) derives the
node list, the workload and the batch size from the flags.

This project models that core:

- `GoMath`: `min`/`max` of main.go, and Go's truncating integer division.
- `Configuration`: the workload parser, the comma split of `-nodes` (with its inverse, the
  join), the batch-size rule, and `readConfig` as a whole, failures included.
- `Partitioner`: one claim as a pure step on the counter, and lemmas about the claims a
  fresh counter hands out: closed form, disjointness, the keys covered, exhaustion, and the
  number of batches. A `Drain` method runs one worker's loop alone.
- `Pool`: any interleaving of workers as a schedule of claim steps on one counter. It proves
  linearisability, that a worker stops for good, a bound on the total number of claims
  (so every worker loop terminates while the int64 counter does not wrap), and what a
  finished pool has handed out.
- `Worker`: the statements issued per key, the data check, and their effect on the table,
  modelled as a map from key to `(v1, v2)`. It characterises a pass without reference to
  order.
- `Benchmark`: `main` with table reset, pre-population and the timed pass, and the
  end-to-end lemmas.

**Coverage starts at `batchSize`, not at 0, and the model follows the code.** A natural
reading of the harness expects every key of `[0, tasks)` to be inserted or selected.
`atomic.AddInt64` returns the counter *after* the addition, and the code uses that value as
the batch start, so the k-th claim (k ≥ 1) starts at `k * batchSize`. The keys
`[0, batchSize)` are never inserted or selected, and a pass covers `[batchSize, tasks)`. With
`tasks = 3, batchSize = 1` only two batches are claimed, not three
(`Partitioner.ThreeTasksUnitBatches`, `Benchmark.ThreeTasksEightWorkers`). With
`tasks = 100` and the default concurrency the batch size is 1, so key 0 is never touched.
The pre-population pass skips the same keys as the timed pass, so a run with setup still
verifies (`Benchmark.RunWithSetup`).

## Model

| member | source | states |
|---|---|---|
| GoMath.Min | benchmarks/basic/scylla-go-driver/source/main.go:165-170 | the result is at most both arguments and is one of them |
| GoMath.Max | benchmarks/basic/gocql/source/main.go:162-167 | the result is at least both arguments and is one of them |
| GoMath.Quot | benchmarks/basic/scylla-go-driver/source/config.go:89-90 | Go's `/`: the remainder `a - q*b` is smaller in magnitude than `b` and has the sign of `a`; for `a >= 0, b > 0` it agrees with Euclidean division |
| Configuration.ParseWorkload | benchmarks/basic/scylla-go-driver/source/config.go:68-77 | exactly `inserts`, `selects` and `mixed` are accepted; an accepted string is the spelling of the workload it yields (both directions); any other string is the invalid-workload error |
| Configuration.Split | benchmarks/basic/scylla-go-driver/source/config.go:64-66 | the node list has at least one entry and no entry contains a comma |
| Configuration.SplitCount | benchmarks/basic/scylla-go-driver/source/config.go:64-66 | the node list has one more entry than the flag has commas |
| Configuration.JoinSplit | benchmarks/basic/scylla-go-driver/source/config.go:64-66 | joining the node list with commas gives back the flag string |
| Configuration.SplitJoin | benchmarks/basic/scylla-go-driver/source/config.go:64-66 | splitting a comma join of comma-free entries gives back the entries |
| Configuration.LargerOf | benchmarks/basic/scylla-go-driver/source/config.go:81-87 | the local `max` closure returns a value at least both arguments that is one of them |
| Configuration.BatchSize | benchmarks/basic/scylla-go-driver/source/config.go:79-91 | the batch size is at least 1 whenever one is produced; for `tasks >= 0, concurrency >= 1` it is `min(256, max(1, tasks/concurrency))`, so at most 256; the rule fails (division by zero) exactly when `concurrency == 0` and `tasks <= -256` |
| Configuration.ReadConfig | benchmarks/basic/scylla-go-driver/source/config.go:62-93 | a configuration is produced exactly when the workload is valid and the division is defined; an invalid workload is reported first; the node list joins back to the flag, the workload's spelling is the flag, the numbers are copied, and the batch size is at least 1 and follows the closed form for sane flags |
| Configuration.DefaultConfig | benchmarks/basic/scylla-go-driver/source/config.go:29-60 | with default flags: six node addresses, mixed workload, 1,000,000 tasks, concurrency 1024, batch size 256 |
| Partitioner.ClaimNext | benchmarks/basic/scylla-go-driver/source/main.go:61-67 | the counter grows by `batchSize`; the claim is exhausted exactly when the new counter reaches `tasks`; otherwise the batch starts at the new counter, `start < end <= tasks`, it holds at most `batchSize` keys, and it is cut short only at `tasks` |
| Partitioner.Replay | benchmarks/basic/scylla-go-driver/source/main.go:41 | `n` claims on a counter that starts at 0 yield `n` results |
| Partitioner.NumBatches | benchmarks/basic/scylla-go-driver/source/main.go:61-65 | the number of non-exhausted claims is the largest `k` with `k * batchSize < tasks` (or 0); for `tasks >= 0` it is `max(0, ceil(tasks / batchSize) - 1)` |
| Partitioner.ReplayClosedForm | benchmarks/basic/scylla-go-driver/source/main.go:41-61 | after `n` claims the counter is `n * batchSize`, and claim `i` (from 0) is made on counter `i * batchSize` |
| Partitioner.KthClaim | benchmarks/basic/gocql/source/main.go:54-60 | the k-th claim (from 1) starts at `k * batchSize`, ends at `min((k+1) * batchSize, tasks)`, and is exhausted exactly when `k * batchSize >= tasks` |
| Partitioner.LateClaimExhausted | benchmarks/basic/scylla-go-driver/source/main.go:61-65 | a claim after `NumBatches` earlier claims is exhausted |
| Partitioner.ReplayPrefix | benchmarks/basic/scylla-go-driver/source/main.go:61 | the first `m` claims of a longer run are the claims of the shorter run |
| Partitioner.CounterNeverDecreases | benchmarks/basic/scylla-go-driver/source/main.go:41-61 | the counter after `m` claims is at most the counter after `n >= m` claims |
| Partitioner.BatchIffEarly | benchmarks/basic/scylla-go-driver/source/main.go:61-65 | claim `i` hands out keys exactly when `i < NumBatches` |
| Partitioner.ExhaustionIsPermanent | benchmarks/basic/gocql/source/main.go:53-58 | once a claim is exhausted every later claim is too |
| Partitioner.ClaimsDisjoint | benchmarks/basic/scylla-go-driver/source/main.go:61-69 | two different claims on one counter never share a key |
| Partitioner.CoveredAfter | benchmarks/basic/gocql/source/main.go:54-62 | after `n` claims the keys handed out are exactly `[batchSize, min((n+1) * batchSize, tasks))` |
| Partitioner.CoveredWhenExhausted | benchmarks/basic/scylla-go-driver/source/main.go:61-69 | once an exhausted claim has been made, the keys handed out are exactly `[batchSize, tasks)`; keys below `batchSize` are never handed out |
| Partitioner.BatchesSpec | benchmarks/basic/gocql/source/main.go:54-62 | a pass hands out `NumBatches` batches, batch `i` starting at `(i+1) * batchSize`, covering exactly `[batchSize, tasks)` |
| Partitioner.BatchCountAfter | benchmarks/basic/scylla-go-driver/source/main.go:60-65 | of the first `n` claims exactly `min(n, NumBatches)` hand out keys |
| Partitioner.ThreeTasksUnitBatches | benchmarks/basic/scylla-go-driver/source/main.go:61-67 | with `tasks = 3, batchSize = 1` the batches are `[1, 2)` and `[2, 3)`, covering keys 1 and 2 only |
| Partitioner.VisitBatch | benchmarks/basic/scylla-go-driver/source/main.go:69 | the inner loop visits `start, start+1, ..., end-1` in order |
| Partitioner.Drain | benchmarks/basic/scylla-go-driver/source/main.go:60-93 | a single worker's loop terminates after `NumBatches + 1` claims, having visited exactly the keys `batchSize, ..., tasks-1` in increasing order |
| Pool.PoolStep | benchmarks/basic/scylla-go-driver/source/main.go:60-65 | a goroutine that has left its loop does nothing; a running one makes exactly one claim on the shared counter, which grows by `batchSize`, logged under its id, and leaves its loop exactly when that claim is exhausted; earlier log entries are kept |
| Pool.RunPool | benchmarks/basic/scylla-go-driver/source/main.go:47-65 | under a schedule of goroutine picks, each pick makes at most one claim, and only picked goroutines claim or leave their loop (its sequential behaviour is `Pool.PoolLinearizes`) |
| Pool.PoolLinearizes | benchmarks/basic/scylla-go-driver/source/main.go:47-65 | under any schedule, the claims in the order made are the claims of one sequential run on a fresh counter, and the shared counter agrees |
| Pool.StoppedWorkers | benchmarks/basic/gocql/source/main.go:53-58 | a worker's exhausted claim stops it and it claims nothing afterwards; there are as many stopped workers as exhausted claims; only scheduled workers stop |
| Pool.PoolClaimBound | benchmarks/basic/scylla-go-driver/source/main.go:47-65 | a pool of `workers` goroutines makes at most `NumBatches + workers` claims under any schedule, so every loop terminates |
| Pool.LateClaimStops | benchmarks/basic/gocql/source/main.go:53-58 | after `NumBatches` claims, any worker that runs another iteration leaves its loop |
| Pool.PoolDisjoint | benchmarks/basic/gocql/source/main.go:46-62 | under any schedule, different claims never share a key |
| Pool.PoolComplete | benchmarks/basic/scylla-go-driver/source/main.go:40-98 | when all workers of a non-empty pool have stopped, the first `NumBatches` claims are exactly the batches, all later ones are exhausted, and the keys handed out are exactly `[batchSize, tasks)` |
| Worker.Statements | benchmarks/basic/scylla-go-driver/source/main.go:70-92 | the insert `(pk, 2*pk, 3*pk)` is issued exactly for inserts and mixed workloads, the select exactly for selects and mixed; nothing else is issued, nothing twice, and the insert comes before the select |
| Worker.Verify | benchmarks/basic/scylla-go-driver/source/main.go:87-90 | a row read back is accepted exactly when `v1 == 2*pk` and `v2 == 3*pk`; otherwise the run ends with a bad-data fault for that key |
| Worker.Execute | benchmarks/basic/gocql/source/main.go:63-81 | an insert writes its row and leaves the other rows alone; a select succeeds exactly when the stored row is the expected one and changes nothing; a fault names the statement's key |
| Worker.ExecuteAll | benchmarks/basic/scylla-go-driver/source/main.go:70-92 | a fault names one of the statements' keys; on success rows of other keys are kept and none is deleted (for one key's statements, characterised fully by `Worker.ProcessKeySpec`) |
| Worker.ProcessKey | benchmarks/basic/scylla-go-driver/source/main.go:70-92 | a fault for one key names that key, and success changes no row of another key (fully characterised by `Worker.ProcessKeySpec`) |
| Worker.ProcessRange | benchmarks/basic/scylla-go-driver/source/main.go:69-93 | a fault names a key of the batch, and success changes no row outside the batch (fully characterised by `Worker.ProcessRangeSpec`) |
| Worker.ProcessClaims | benchmarks/basic/scylla-go-driver/source/main.go:60-94 | a fault names a key some claim handed out, and success changes no row of a key never handed out (fully characterised by `Worker.ProcessClaimsSpec`) |
| Worker.ProcessKeySpec | benchmarks/basic/gocql/source/main.go:62-82 | one key succeeds exactly when it verifies (always, in inserts and mixed runs: the select reads the row its own insert wrote); success leaves the expected row for that key in insert runs and the table unchanged in select runs |
| Worker.ProcessRangeSpec | benchmarks/basic/scylla-go-driver/source/main.go:69-93 | a batch succeeds exactly when each of its keys verifies; a fault names one of its keys that does not; success leaves the expected rows for the batch's keys |
| Worker.ProcessClaimsSpec | benchmarks/basic/gocql/source/main.go:53-83 | a sequence of claims succeeds exactly when every key handed out verifies, whatever order they are taken in; the fault names such a key; success leaves the expected rows for exactly the keys handed out |
| Benchmark.PrepopulationWorkers | benchmarks/basic/scylla-go-driver/source/main.go:130 | the pre-population pool has at least 1024 and at least `concurrency` goroutines, and it is one of the two |
| Benchmark.PassClaims | benchmarks/basic/scylla-go-driver/source/main.go:47-98 | what the goroutines have handed out when `wg.Wait` returns: `NumBatches` batches, batch `i` starting at `(i+1) * batchSize`, covering `[batchSize, tasks)`, and nothing when no goroutine starts (`Benchmark.PassClaimsOfPool` ties it to every schedule) |
| Benchmark.PassClaimsOfPool | benchmarks/basic/gocql/source/main.go:124-152 | a finished pool of at least one goroutine, under any schedule, hands out the keys of the modelled pass: exactly `[batchSize, tasks)` |
| Benchmark.Run | benchmarks/basic/scylla-go-driver/source/main.go:17-98 | a run that stops names a fault for a key of `[batchSize, tasks)`; with `-dont-prepare` it changes no row outside that range; with setup the table ends holding only keys of that range; with no goroutine (`concurrency <= 0`) a `-dont-prepare` run succeeds with the table unchanged and an inserts or mixed run with setup ends with an empty table (with at least one goroutine `Benchmark.RunWithSetup` and `Benchmark.RunWithoutSetup` characterise it fully) |
| Benchmark.PrepopulationMatchesTimedPass | benchmarks/basic/scylla-go-driver/source/main.go:124-162 | with at least one timed goroutine (`concurrency >= 1`), the pre-population pool and the timed pool, both run to completion under any schedules, hand out the same keys |
| Benchmark.RunWithSetup | benchmarks/basic/scylla-go-driver/source/main.go:32-98 | with the table reset every workload verifies; with at least one goroutine (`concurrency >= 1`), or in a pure select run, the table ends holding the expected row for each key of `[batchSize, tasks)` and no other key; the keys it holds always lie in that range |
| Benchmark.RunWithoutSetup | benchmarks/basic/gocql/source/main.go:31-87 | with `-dont-prepare` and at least one goroutine (`concurrency >= 1`), a run succeeds exactly when every key of `[batchSize, tasks)` verifies against the existing table; a fault names such a key whose row is missing or wrong; success leaves the table with the expected row written for every key of that range in inserts and mixed runs, and unchanged in select runs (the rest of the table kept) |
| Benchmark.ThreeTasksEightWorkers | benchmarks/basic/scylla-go-driver/source/config.go:89-91 | `tasks = 3, concurrency = 8` gives batch size 1, and an insert run with setup writes keys 1 and 2 only |

## Left out

- Goroutines, `sync.WaitGroup` and the atomic add are not modelled as threads. The scheduler
  is a parameter of `Pool.RunPool`, and a pick of a stopped worker does nothing.
- Statement execution across workers is modelled one claim after another, in claim order.
  `Worker.ProcessClaimsSpec` shows the outcome depends only on the set of keys handed out.
  Only which bad key is reported first depends on the order.
- Database driver calls (`NewSession`, `CreateSession`, `Prepare`, `Query`, `Execute`,
  `Bind`, `Scan`, `AsInt64`) are foreign code. In the model they never fail. Connection,
  prepare and execution errors are not modelled; only the data check and a missing row are.
- `prepareKeyspaceAndTable` (drop and recreate the keyspace, gocql's `awaitSchemaAgreement`)
  is modelled only as resetting the table to empty.
- The error from `AsInt64`, which the scylla-go-driver benchmark ignores, and NULL columns are
  not modelled: every stored row has both values.
- Timing (`time.Now`, `Sub`), the printed duration, `fmt` output and `debug.SetGCPercent` are
  I/O or runtime tuning.
- The `flag` package's own parsing, including its rejection of values outside int64, is not
  modelled: `Configuration.Flags` holds the values it returns.
- `log.Fatal` and `panic` become a `Failure` result. Partial writes other goroutines make
  before the process exits are not modelled.
- Configuration.BatchSize: Go's int64 division overflows for `tasks = -9223372036854775808,
  concurrency = -1`, giving `MinInt64` and so batch size 1. The model divides unbounded
  integers and gives batch size 9223372036854775808. `Configuration.Flags` does not restrict
  its integers to int64 (the same holds for `GoMath.Quot`).
- Benchmark.Run: with `concurrency <= 0` the timed pass starts no goroutine and touches no
  key, so an inserts or mixed run with setup leaves an empty table, and a `-dont-prepare` run
  succeeds whatever the table holds. The contract of `Benchmark.Run` states this outcome;
  `Benchmark.RunWithoutSetup` and `Benchmark.PrepopulationMatchesTimedPass` are stated only
  for `concurrency >= 1`, because their claims are false without a goroutine.
- Pool.PoolClaimBound: the bound of `NumBatches + workers` claims, and so termination, holds
  for the Go code only while `(NumBatches + workers) * batchSize` fits in int64.
- int64 wrap-around of the counter and of `2*pk` and `3*pk` is not modelled: integers are
  unbounded, which matches the source only while these values stay within int64.
- The gocql benchmark's `config.go` is not part of this model. Its `readConfig` is taken to
  be the scylla-go-driver one.
