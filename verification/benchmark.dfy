/** The driver of both main.go files: reset the table, pre-populate it for a pure select
    run, then run the timed pool. The timer and the printed duration are not modelled; a
    run either finishes with the final table or stops on the first fault. */
module Benchmark {
  import opened Wrappers
  import opened GoMath
  import opened Configuration
  import opened Partitioner
  import opened Pool
  import opened Worker

  /** The pool size of `prepareSelectsBenchmark`: `max(1024, concurrency)` goroutines. */
  function PrepopulationWorkers(concurrency: int): (n: int)
    ensures n >= 1024 && n >= concurrency
    ensures n == 1024 || n == concurrency
  {
    Max(1024, concurrency)
  }

  /** The claims a pool of `workers` goroutines hands out until `wg.Wait` returns: all
      batches when at least one goroutine starts, none otherwise. */
  function PassClaims(workers: int, batchSize: int, tasks: int): (cs: seq<Claim>)
    requires batchSize >= 1
    ensures |cs| == if workers >= 1 then NumBatches(batchSize, tasks) else 0
    ensures forall i :: 0 <= i < |cs| ==> cs[i].Batch? && cs[i].start == (i + 1) * batchSize
    ensures Covered(cs) == if workers >= 1 then Span(batchSize, tasks) else {}
  {
    BatchesSpec(batchSize, tasks);
    if workers >= 1 then Batches(batchSize, tasks) else []
  }

  /** The table the harness expects: the expected row for each key in `[batchSize, tasks)`. */
  function ExpectedTable(batchSize: int, tasks: int): Store
  {
    map k | k in Span(batchSize, tasks) :: Expected(k)
  }

  /** One run of `main` after `readConfig`, starting from the table `store` the cluster
      already holds. Without `-dont-prepare` the keyspace is dropped and recreated, so the
      table starts empty; a pure select run then gets a pre-population pass of inserts. */
  function Run(config: Config, store: Store): (r: Result<Store, Fault>)
    requires config.batchSize >= 1
    ensures r.Failure? ==> config.batchSize <= r.error.pk < config.tasks
    ensures r.Success? && config.dontPrepare ==> ChangedOnly(store, r.value, Span(config.batchSize, config.tasks))
    ensures r.Success? && !config.dontPrepare ==>
      forall k :: k in r.value ==> config.batchSize <= k < config.tasks
    ensures config.concurrency < 1 && config.dontPrepare ==> r == Success(store)
    ensures config.concurrency < 1 && !config.dontPrepare && config.workload != Selects ==> r == Success(map[])
  {
    var initial := if config.dontPrepare then store else map[];
    var prepared :=
      if config.workload == Selects && !config.dontPrepare then
        ProcessClaims(Inserts, initial, PassClaims(PrepopulationWorkers(config.concurrency), config.batchSize, config.tasks))
      else Success(initial);
    match prepared
    case Failure(e) => Failure(e)
    case Success(s) =>
      ProcessClaims(config.workload, s, PassClaims(config.concurrency, config.batchSize, config.tasks))
  }

  /** Whatever the interleaving, a pool of `workers >= 1` goroutines that has finished has
      handed out the keys of `PassClaims`: exactly `[batchSize, tasks)`. */
  lemma PassClaimsOfPool(batchSize: int, tasks: int, workers: nat, schedule: seq<nat>)
    requires batchSize >= 1 && workers >= 1
    requires RunPool(batchSize, tasks, schedule).stopped == Workers(workers)
    ensures Covered(ClaimsOf(RunPool(batchSize, tasks, schedule).log)) == Covered(PassClaims(workers, batchSize, tasks))
    ensures Covered(PassClaims(workers, batchSize, tasks)) == Span(batchSize, tasks)
  {
    PoolComplete(batchSize, tasks, workers, schedule);
    BatchesSpec(batchSize, tasks);
  }

  /** The pre-population pool and the timed pool, each run under any schedule to completion,
      hand out the same keys: the select pass only reads rows the insert pass wrote. */
  lemma PrepopulationMatchesTimedPass(config: Config, prep: seq<nat>, timed: seq<nat>)
    requires config.batchSize >= 1 && config.concurrency >= 1
    requires RunPool(config.batchSize, config.tasks, prep).stopped == Workers(PrepopulationWorkers(config.concurrency))
    requires RunPool(config.batchSize, config.tasks, timed).stopped == Workers(config.concurrency)
    ensures Covered(ClaimsOf(RunPool(config.batchSize, config.tasks, prep).log))
         == Covered(ClaimsOf(RunPool(config.batchSize, config.tasks, timed).log))
  {
    PassClaimsOfPool(config.batchSize, config.tasks, PrepopulationWorkers(config.concurrency), prep);
    PassClaimsOfPool(config.batchSize, config.tasks, config.concurrency, timed);
  }

  lemma InsertPassFills(batchSize: int, tasks: int)
    requires batchSize >= 1
    ensures Populate(Inserts, map[], Span(batchSize, tasks)) == ExpectedTable(batchSize, tasks)
  {
  }

  /** With the table reset, every run verifies; the table ends with the expected row for
      each key of `[batchSize, tasks)` and nothing else (empty when an insert run starts no
      goroutine): the keys below `batchSize` are never written, and never read. */
  lemma RunWithSetup(config: Config, store: Store)
    requires config.batchSize >= 1 && !config.dontPrepare
    ensures Run(config, store).Success?
    ensures config.concurrency >= 1 || config.workload == Selects ==>
      Run(config, store).value == ExpectedTable(config.batchSize, config.tasks)
    ensures forall k :: k in Run(config, store).value ==> config.batchSize <= k < config.tasks
  {
    var bs, tasks := config.batchSize, config.tasks;
    BatchesSpec(bs, tasks);
    var keys := Span(bs, tasks);
    var table := ExpectedTable(bs, tasks);
    InsertPassFills(bs, tasks);
    if config.workload == Selects {
      var prep := PassClaims(PrepopulationWorkers(config.concurrency), bs, tasks);
      ProcessClaimsSpec(Inserts, map[], prep);
      var timed := PassClaims(config.concurrency, bs, tasks);
      ProcessClaimsSpec(Selects, table, timed);
    } else {
      var timed := PassClaims(config.concurrency, bs, tasks);
      ProcessClaimsSpec(config.workload, map[], timed);
      if config.concurrency < 1 {
        PopulateNothing(config.workload, map[]);
      }
    }
  }

  /** With `-dont-prepare` the run uses the table as it finds it: it verifies exactly when
      every key of `[batchSize, tasks)` verifies against it, and a fault names such a key
      that does not (a missing or wrong row under a pure select run). A successful run
      leaves `Populate`'s table: the expected row for every key of the range in an inserts
      or mixed run, the table as found in a select run. */
  lemma RunWithoutSetup(config: Config, store: Store)
    requires config.batchSize >= 1 && config.dontPrepare && config.concurrency >= 1
    ensures Run(config, store).Success? <==>
      forall pk :: config.batchSize <= pk < config.tasks ==> KeyVerifies(config.workload, store, pk)
    ensures Run(config, store).Failure? ==>
      var pk := Run(config, store).error.pk;
      config.batchSize <= pk < config.tasks && !KeyVerifies(config.workload, store, pk)
    ensures Run(config, store).Success? ==>
      Run(config, store).value == Populate(config.workload, store, Span(config.batchSize, config.tasks))
  {
    BatchesSpec(config.batchSize, config.tasks);
    ProcessClaimsSpec(config.workload, store, Batches(config.batchSize, config.tasks));
  }

  /** `RunWithSetup` specialised to an insert run, with the table as a parameter: it adds
      nothing to that lemma and only keeps the concrete case below within the solver's
      budget. */
  lemma InsertRunWithSetup(config: Config, table: Store)
    requires config.batchSize >= 1 && !config.dontPrepare && config.concurrency >= 1
    requires config.workload == Inserts
    requires table == ExpectedTable(config.batchSize, config.tasks)
    ensures Run(config, map[]) == Success(table)
  {
    RunWithSetup(config, map[]);
  }

  /** Three tasks, batch size 1 and eight workers with the table reset: keys 1 and 2 are
      inserted, key 0 never is. */
  lemma ThreeTasksEightWorkers()
    ensures BatchSize(3, 8) == Success(1)
    ensures Run(Config([], Inserts, 3, 8, 1, false), map[]) == Success(map[1 := Row(2, 3), 2 := Row(4, 6)])
  {
    InsertRunWithSetup(Config([], Inserts, 3, 8, 1, false), map[1 := Row(2, 3), 2 := Row(4, 6)]);
  }
}
