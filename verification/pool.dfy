/** A pool of workers sharing one counter (the `go func()` loops of both main.go files).
    The scheduler is a parameter: a schedule lists which worker makes the next claim. A
    worker that has seen an exhausted claim has left its loop, so picking it again changes
    nothing. Running statements for the claimed keys is left to the Worker module. */
module Pool {
  import opened GoMath
  import opened Partitioner

  /** One claim as the pool saw it: who made it and what it got. */
  datatype Event = Event(worker: nat, claim: Claim)

  /** The shared counter, the workers that have left their loop, and every claim so far. */
  datatype PoolState = PoolState(counter: int, stopped: set<nat>, log: seq<Event>)

  /** The worker ids `0 .. count - 1` of a pool of `count` goroutines (the bound is
      repeated through `Within` only to give the quantifier a trigger, as in `Span`). */
  function Workers(count: int): (ws: set<nat>)
    ensures forall w: nat :: w in ws <==> w < count
  {
    set w: nat | w < count && Within(w, 0, count)
  }

  function ClaimsOf(log: seq<Event>): (cs: seq<Claim>)
    ensures |cs| == |log|
    ensures forall i :: 0 <= i < |log| ==> cs[i] == log[i].claim
  {
    seq(|log|, i requires 0 <= i < |log| => log[i].claim)
  }

  /** Worker `w` runs one iteration of its loop, if it is still in it: a stopped worker
      changes nothing; a running one makes exactly one claim, logged under its id, on the
      shared counter, and leaves its loop exactly when that claim is exhausted. */
  function PoolStep(p: PoolState, batchSize: int, tasks: int, w: nat): (r: PoolState)
    ensures w in p.stopped ==> r == p
    ensures w !in p.stopped ==>
      && r.counter == p.counter + batchSize
      && |r.log| == |p.log| + 1
      && r.log[|p.log|].worker == w
      && (w in r.stopped <==> r.log[|p.log|].claim.Exhausted?)
    ensures forall i :: 0 <= i < |p.log| ==> r.log[i] == p.log[i]
    ensures p.stopped <= r.stopped <= p.stopped + {w}
  {
    if w in p.stopped then p
    else
      var s := ClaimNext(p.counter, batchSize, tasks);
      PoolState(s.counter,
                if s.claim.Exhausted? then p.stopped + {w} else p.stopped,
                p.log + [Event(w, s.claim)])
  }

  /** The pool after the scheduler has picked the workers of `schedule` in turn: at most
      one claim per pick, and only picked workers claim or stop. */
  function RunPool(batchSize: int, tasks: int, schedule: seq<nat>): (p: PoolState)
    ensures |p.log| <= |schedule|
    ensures forall i :: 0 <= i < |p.log| ==> p.log[i].worker in schedule
    ensures forall w :: w in p.stopped ==> w in schedule
  {
    if |schedule| == 0 then PoolState(0, {}, [])
    else PoolStep(RunPool(batchSize, tasks, schedule[..|schedule| - 1]), batchSize, tasks, schedule[|schedule| - 1])
  }

  lemma RunPoolSnoc(batchSize: int, tasks: int, schedule: seq<nat>, w: nat)
    ensures RunPool(batchSize, tasks, schedule + [w]) == PoolStep(RunPool(batchSize, tasks, schedule), batchSize, tasks, w)
  {
    assert (schedule + [w])[..|schedule|] == schedule;
  }

  /** Linearisability: whatever the interleaving, the claims in the order they were made
      are the claims of one sequential run on a fresh counter. */
  lemma {:induction false} PoolLinearizes(batchSize: int, tasks: int, schedule: seq<nat>)
    ensures var p := RunPool(batchSize, tasks, schedule);
      && ClaimsOf(p.log) == Replay(batchSize, tasks, |p.log|).claims
      && p.counter == Replay(batchSize, tasks, |p.log|).counter
  {
    if |schedule| > 0 {
      var prior := schedule[..|schedule| - 1];
      PoolLinearizes(batchSize, tasks, prior);
      var q := RunPool(batchSize, tasks, prior);
      var w := schedule[|schedule| - 1];
      if w !in q.stopped {
        var p := RunPool(batchSize, tasks, schedule);
        assert ClaimsOf(p.log) == ClaimsOf(q.log) + [p.log[|q.log|].claim];
      }
    }
  }

  /** A worker leaves its loop on its first exhausted claim and makes no claim after it;
      the number of exhausted claims is the number of stopped workers, and only workers the
      scheduler picked have stopped. */
  lemma {:induction false} StoppedWorkers(batchSize: int, tasks: int, schedule: seq<nat>)
    ensures var p := RunPool(batchSize, tasks, schedule);
      && |p.stopped| == |p.log| - BatchCount(ClaimsOf(p.log))
      && (forall i :: 0 <= i < |p.log| && p.log[i].claim.Exhausted? ==> p.log[i].worker in p.stopped)
      && (forall i, j :: 0 <= i < j < |p.log| && p.log[i].claim.Exhausted? ==> p.log[j].worker != p.log[i].worker)
      && (forall w :: w in p.stopped ==> w in schedule)
  {
    if |schedule| > 0 {
      var prior := schedule[..|schedule| - 1];
      StoppedWorkers(batchSize, tasks, prior);
      var q := RunPool(batchSize, tasks, prior);
      var p := RunPool(batchSize, tasks, schedule);
      var w := schedule[|schedule| - 1];
      if w !in q.stopped {
        assert ClaimsOf(p.log)[..|q.log|] == ClaimsOf(q.log);
        assert p.log[..|q.log|] == q.log;
      }
    }
  }

  lemma {:induction false} WorkersCount(count: nat)
    ensures |Workers(count)| == count
  {
    if count > 0 {
      WorkersCount(count - 1);
      assert Workers(count) == Workers(count - 1) + {count - 1};
    }
  }

  /** Termination: if every worker the scheduler picks belongs to a pool of `workers`, the
      pool makes at most `NumBatches + workers` claims in all, whatever the interleaving.
      This holds for Go's int64 counter only while `(NumBatches + workers) * batchSize`
      stays within int64; past that the counter would wrap and claiming would go on. */
  lemma PoolClaimBound(batchSize: int, tasks: int, workers: nat, schedule: seq<nat>)
    requires batchSize >= 1
    requires forall i :: 0 <= i < |schedule| ==> schedule[i] < workers
    ensures |RunPool(batchSize, tasks, schedule).log| <= NumBatches(batchSize, tasks) + workers
  {
    var p := RunPool(batchSize, tasks, schedule);
    var n := |p.log|;
    StoppedWorkers(batchSize, tasks, schedule);
    PoolLinearizes(batchSize, tasks, schedule);
    BatchCountAfter(batchSize, tasks, n);
    assert BatchCount(ClaimsOf(p.log)) == Min(n, NumBatches(batchSize, tasks));
    forall w | w in p.stopped
      ensures w in Workers(workers)
    {
      assert w in schedule;
    }
    SubsetCount(p.stopped, Workers(workers));
    WorkersCount(workers);
  }

  lemma SubsetCount(a: set<nat>, b: set<nat>)
    requires a <= b
    ensures |a| <= |b|
  {
    assert b == a + (b - a);
  }

  /** Once `NumBatches` claims have been made, the next iteration of any worker ends its loop. */
  lemma LateClaimStops(batchSize: int, tasks: int, schedule: seq<nat>, w: nat)
    requires batchSize >= 1
    requires |RunPool(batchSize, tasks, schedule).log| >= NumBatches(batchSize, tasks)
    ensures w in RunPool(batchSize, tasks, schedule + [w]).stopped
  {
    RunPoolSnoc(batchSize, tasks, schedule, w);
    var p := RunPool(batchSize, tasks, schedule);
    if w !in p.stopped {
      var n := |p.log|;
      PoolLinearizes(batchSize, tasks, schedule);
      ReplayClosedForm(batchSize, tasks, n);
      LateClaimExhausted(batchSize, tasks, n);
    }
  }

  /** Claims of different events never share a key. */
  lemma PoolDisjoint(batchSize: int, tasks: int, schedule: seq<nat>)
    requires batchSize >= 1
    ensures var log := RunPool(batchSize, tasks, schedule).log;
      forall i, j :: 0 <= i < j < |log| ==> Keys(log[i].claim) !! Keys(log[j].claim)
  {
    var log := RunPool(batchSize, tasks, schedule).log;
    PoolLinearizes(batchSize, tasks, schedule);
    ClaimsDisjoint(batchSize, tasks, |log|);
    assert forall i :: 0 <= i < |log| ==> log[i].claim == Replay(batchSize, tasks, |log|).claims[i];
  }

  /** When every worker of a pool of at least one has left its loop (`wg.Wait` returns),
      the first `NumBatches` claims were exactly `Batches`, every later claim was exhausted,
      and the keys handed out are exactly `[batchSize, tasks)`. */
  lemma PoolComplete(batchSize: int, tasks: int, workers: nat, schedule: seq<nat>)
    requires batchSize >= 1 && workers >= 1
    requires RunPool(batchSize, tasks, schedule).stopped == Workers(workers)
    ensures var cs := ClaimsOf(RunPool(batchSize, tasks, schedule).log);
      && NumBatches(batchSize, tasks) < |cs|
      && cs[..NumBatches(batchSize, tasks)] == Batches(batchSize, tasks)
      && (forall i :: NumBatches(batchSize, tasks) <= i < |cs| ==> cs[i].Exhausted?)
      && Covered(cs) == Span(batchSize, tasks)
  {
    var p := RunPool(batchSize, tasks, schedule);
    var cs := ClaimsOf(p.log);
    var r := NumBatches(batchSize, tasks);
    StoppedWorkers(batchSize, tasks, schedule);
    PoolLinearizes(batchSize, tasks, schedule);
    BatchCountAfter(batchSize, tasks, |p.log|);
    assert 0 in p.stopped;
    assert r < |cs|;
    ReplayPrefix(batchSize, tasks, r, |cs|);
    forall i | r <= i < |cs|
      ensures cs[i].Exhausted?
    {
      BatchIffEarly(batchSize, tasks, |cs|, i);
    }
    CoveredWhenExhausted(batchSize, tasks, |cs|);
  }
}
