/** The batch claimer shared by the timed pool and the pre-population pool of both
    main.go files. Every claim is one `atomic.AddInt64(&nextBatchStart, batchSize)`; the
    atomic add orders all claims on a counter, so a run of any number of workers is a
    sequence of `ClaimNext` steps on one counter that starts at 0. */
module Partitioner {
  import opened GoMath

  /** What one claim hands the worker: stop, or the keys `[start, end)`. */
  datatype Claim = Exhausted | Batch(start: int, end: int)

  /** The counter after a claim, and the claim. */
  datatype Step = Step(counter: int, claim: Claim)

  /** The counter after a number of claims, and those claims in the order they were made. */
  datatype Trace = Trace(counter: int, claims: seq<Claim>)

  predicate Within(k: int, lo: int, hi: int)
  {
    lo <= k < hi
  }

  /** The keys `[lo, hi)`. The range is written twice: the plain comparison lets Dafny
      see the set is finite, and `Within` gives the membership quantifier a trigger. */
  function Span(lo: int, hi: int): (s: set<int>)
    ensures forall k :: k in s <==> lo <= k < hi
  {
    set k | lo <= k < hi && Within(k, lo, hi)
  }

  /** The keys a claim hands out. */
  function Keys(c: Claim): set<int>
  {
    if c.Batch? then Span(c.start, c.end) else {}
  }

  /** One claim. `atomic.AddInt64` returns the value AFTER the addition, and that value
      is the start of the batch: the keys below the first increment are never handed out. */
  function ClaimNext(counter: int, batchSize: int, tasks: int): (s: Step)
    ensures s.counter == counter + batchSize
    ensures s.claim.Exhausted? <==> counter + batchSize >= tasks
    ensures s.claim.Batch? ==> s.claim.start == counter + batchSize
    ensures s.claim.Batch? && batchSize >= 1 ==>
              s.claim.start < s.claim.end <= tasks && s.claim.end - s.claim.start <= batchSize
    ensures s.claim.Batch? ==> s.claim.end == tasks || s.claim.end == s.claim.start + batchSize
  {
    var start := counter + batchSize;
    if start >= tasks then Step(start, Exhausted)
    else Step(start, Batch(start, Min(start + batchSize, tasks)))
  }

  /** The first `n` claims on a fresh counter. */
  function Replay(batchSize: int, tasks: int, n: nat): (t: Trace)
    ensures |t.claims| == n
  {
    if n == 0 then Trace(0, [])
    else
      var prior := Replay(batchSize, tasks, n - 1);
      var s := ClaimNext(prior.counter, batchSize, tasks);
      Trace(s.counter, prior.claims + [s.claim])
  }

  /** The union of the keys handed out by a sequence of claims. */
  function Covered(claims: seq<Claim>): set<int>
  {
    if |claims| == 0 then {}
    else Covered(claims[..|claims| - 1]) + Keys(claims[|claims| - 1])
  }

  /** How many of the claims were batches. */
  function BatchCount(claims: seq<Claim>): nat
  {
    if |claims| == 0 then 0
    else BatchCount(claims[..|claims| - 1]) + (if claims[|claims| - 1].Batch? then 1 else 0)
  }

  /** The number of claims that hand out keys: the largest `k` with `k * batchSize < tasks`,
      which is one fewer than the `ceil(tasks / batchSize)` batches a partition of
      `[0, tasks)` would need. */
  function NumBatches(batchSize: int, tasks: int): (r: nat)
    requires batchSize >= 1
    ensures r == 0 || r * batchSize < tasks
    ensures tasks <= (r + 1) * batchSize
    ensures tasks >= 0 ==> r == Max(0, (tasks + batchSize - 1) / batchSize - 1)
  {
    var a := tasks - 1;
    var q := a / batchSize;
    assert a == q * batchSize + a % batchSize;
    assert a + batchSize == (q + 1) * batchSize + a % batchSize;
    DivUnique(a + batchSize, batchSize, q + 1, a % batchSize);
    if tasks <= batchSize then 0 else q
  }

  /** All batches one pass hands out, in claim order. */
  function Batches(batchSize: int, tasks: int): seq<Claim>
    requires batchSize >= 1
  {
    Replay(batchSize, tasks, NumBatches(batchSize, tasks)).claims
  }

  // ---------------------------------------------------------------- the replay in closed form

  /** After `n` claims the counter holds `n * batchSize`, and claim `i` (from 0) was made
      when the counter held `i * batchSize`. */
  lemma {:induction false} ReplayClosedForm(batchSize: int, tasks: int, n: nat)
    ensures Replay(batchSize, tasks, n).counter == n * batchSize
    ensures forall i :: 0 <= i < n ==>
      Replay(batchSize, tasks, n).claims[i] == ClaimNext(i * batchSize, batchSize, tasks).claim
  {
    if n > 0 {
      ReplayClosedForm(batchSize, tasks, n - 1);
      assert (n - 1) * batchSize + batchSize == n * batchSize;
    }
  }

  /** A claim made after `NumBatches` claims or more comes back exhausted. */
  lemma LateClaimExhausted(batchSize: int, tasks: int, n: nat)
    requires batchSize >= 1 && n >= NumBatches(batchSize, tasks)
    ensures ClaimNext(n * batchSize, batchSize, tasks).claim.Exhausted?
  {
    assert n * batchSize + batchSize == (n + 1) * batchSize;
    MulOrder(NumBatches(batchSize, tasks) + 1, n + 1, batchSize);
  }

  /** The k-th claim (from 1) on a fresh counter starts at `k * batchSize`, and it is the
      exhausted one exactly when `k * batchSize >= tasks`. */
  lemma KthClaim(batchSize: int, tasks: int, n: nat, k: nat)
    requires 1 <= k <= n
    ensures var c := Replay(batchSize, tasks, n).claims[k - 1];
      && (c.Exhausted? <==> k * batchSize >= tasks)
      && (c.Batch? ==> c.start == k * batchSize && c.end == Min((k + 1) * batchSize, tasks))
  {
    ReplayClosedForm(batchSize, tasks, n);
    assert (k - 1) * batchSize + batchSize == k * batchSize;
    assert k * batchSize + batchSize == (k + 1) * batchSize;
  }

  /** Earlier claims of a run are the claims of a shorter run. */
  lemma {:induction false} ReplayPrefix(batchSize: int, tasks: int, m: nat, n: nat)
    requires m <= n
    ensures Replay(batchSize, tasks, m).claims == Replay(batchSize, tasks, n).claims[..m]
  {
    ReplayClosedForm(batchSize, tasks, m);
    ReplayClosedForm(batchSize, tasks, n);
  }

  /** The shared counter never decreases. */
  lemma {:induction false} CounterNeverDecreases(batchSize: int, tasks: int, m: nat, n: nat)
    requires batchSize >= 1 && m <= n
    ensures Replay(batchSize, tasks, m).counter <= Replay(batchSize, tasks, n).counter
  {
    ReplayClosedForm(batchSize, tasks, m);
    ReplayClosedForm(batchSize, tasks, n);
    MulOrder(m, n, batchSize);
  }

  /** Claim `i` hands out keys exactly when fewer than `NumBatches` claims preceded it. */
  lemma BatchIffEarly(batchSize: int, tasks: int, n: nat, i: nat)
    requires batchSize >= 1 && i < n
    ensures Replay(batchSize, tasks, n).claims[i].Batch? <==> i < NumBatches(batchSize, tasks)
  {
    var r := NumBatches(batchSize, tasks);
    KthClaim(batchSize, tasks, n, i + 1);
    if i < r {
      MulOrder(i + 1, r, batchSize);
    } else {
      MulOrder(r + 1, i + 1, batchSize);
    }
  }

  /** Once a claim has come back exhausted, every later claim does too. */
  lemma ExhaustionIsPermanent(batchSize: int, tasks: int, n: nat)
    requires batchSize >= 1
    ensures var cs := Replay(batchSize, tasks, n).claims;
      forall i, j :: 0 <= i < j < n && cs[i].Exhausted? ==> cs[j].Exhausted?
  {
    var cs := Replay(batchSize, tasks, n).claims;
    forall i, j | 0 <= i < j < n && cs[i].Exhausted?
      ensures cs[j].Exhausted?
    {
      BatchIffEarly(batchSize, tasks, n, i);
      BatchIffEarly(batchSize, tasks, n, j);
    }
  }

  /** Two different claims never hand out the same key. */
  lemma ClaimsDisjoint(batchSize: int, tasks: int, n: nat)
    requires batchSize >= 1
    ensures var cs := Replay(batchSize, tasks, n).claims;
      forall i, j :: 0 <= i < j < n ==> Keys(cs[i]) !! Keys(cs[j])
  {
    var cs := Replay(batchSize, tasks, n).claims;
    forall i, j | 0 <= i < j < n
      ensures Keys(cs[i]) !! Keys(cs[j])
    {
      KthClaim(batchSize, tasks, n, i + 1);
      KthClaim(batchSize, tasks, n, j + 1);
      if cs[i].Batch? && cs[j].Batch? {
        MulOrder(i + 2, j + 1, batchSize);
        assert cs[i].end <= cs[j].start;
      }
    }
  }

  /** After `n` claims exactly the keys `[batchSize, min((n + 1) * batchSize, tasks))` have
      been handed out. */
  lemma {:induction false} CoveredAfter(batchSize: int, tasks: int, n: nat)
    requires batchSize >= 1
    ensures Covered(Replay(batchSize, tasks, n).claims)
         == Span(batchSize, Min((n + 1) * batchSize, tasks))
  {
    var cs := Replay(batchSize, tasks, n).claims;
    if n == 0 {
      assert Min(batchSize, tasks) <= batchSize;
    } else {
      var prior := Replay(batchSize, tasks, n - 1);
      CoveredAfter(batchSize, tasks, n - 1);
      assert cs[..n - 1] == prior.claims;
      KthClaim(batchSize, tasks, n, n);
      MulOrder(1, n, batchSize);
      MulOrder(n, n + 1, batchSize);
      var lo := Min(n * batchSize, tasks);
      var hi := Min((n + 1) * batchSize, tasks);
      forall k
        ensures k in Covered(cs) <==> batchSize <= k < hi
      {
        assert k in Covered(cs) <==> (batchSize <= k < lo) || k in Keys(cs[n - 1]);
      }
    }
  }

  /** A run that has made one exhausted claim has handed out exactly `[batchSize, tasks)`:
      every key from `batchSize` on, and none below it. */
  lemma CoveredWhenExhausted(batchSize: int, tasks: int, n: nat)
    requires batchSize >= 1 && n > NumBatches(batchSize, tasks)
    ensures Covered(Replay(batchSize, tasks, n).claims) == Span(batchSize, tasks)
  {
    CoveredAfter(batchSize, tasks, n);
    MulOrder(NumBatches(batchSize, tasks) + 1, n + 1, batchSize);
  }

  /** `Batches` holds `NumBatches` non-empty claims, claim `i` starting at
      `(i + 1) * batchSize`, and together they hand out exactly `[batchSize, tasks)`. */
  lemma BatchesSpec(batchSize: int, tasks: int)
    requires batchSize >= 1
    ensures |Batches(batchSize, tasks)| == NumBatches(batchSize, tasks)
    ensures forall i :: 0 <= i < |Batches(batchSize, tasks)| ==>
      Batches(batchSize, tasks)[i].Batch? && Batches(batchSize, tasks)[i].start == (i + 1) * batchSize
    ensures Covered(Batches(batchSize, tasks)) == Span(batchSize, tasks)
  {
    var r := NumBatches(batchSize, tasks);
    forall i | 0 <= i < r
      ensures Batches(batchSize, tasks)[i].Batch? && Batches(batchSize, tasks)[i].start == (i + 1) * batchSize
    {
      BatchIffEarly(batchSize, tasks, r, i);
      KthClaim(batchSize, tasks, r, i + 1);
    }
    CoveredAfter(batchSize, tasks, r);
  }

  /** Of the first `n` claims, `min(n, NumBatches)` hand out keys. */
  lemma {:induction false} BatchCountAfter(batchSize: int, tasks: int, n: nat)
    requires batchSize >= 1
    ensures BatchCount(Replay(batchSize, tasks, n).claims) == Min(n, NumBatches(batchSize, tasks))
  {
    if n > 0 {
      var cs := Replay(batchSize, tasks, n).claims;
      BatchCountAfter(batchSize, tasks, n - 1);
      assert cs[..n - 1] == Replay(batchSize, tasks, n - 1).claims;
      BatchIffEarly(batchSize, tasks, n, n - 1);
    }
  }

  lemma DivUnique(a: int, b: int, q: int, r: int)
    requires b > 0 && 0 <= r < b && a == q * b + r
    ensures a / b == q
  {
    var q' := a / b;
    assert a == q' * b + a % b;
    MulOrder(q, q', b);
    MulOrder(q', q, b);
    MulOrder(q + 1, q', b);
    MulOrder(q' + 1, q, b);
  }

  /** Three tasks in batches of one: only keys 1 and 2 are handed out, in two batches. */
  lemma ThreeTasksUnitBatches()
    ensures NumBatches(1, 3) == 2
    ensures Batches(1, 3) == [Batch(1, 2), Batch(2, 3)]
    ensures Covered(Batches(1, 3)) == {1, 2}
  {
    BatchesSpec(1, 3);
    var b := Batches(1, 3);
    assert Replay(1, 3, 1).claims == [Batch(1, 2)];
    assert b == [Batch(1, 2), Batch(2, 3)];
    assert Covered(b) == {1, 2};
  }

  // ---------------------------------------------------------------- one worker draining a counter

  /** Claim number `claims + 1` on a counter holding `claims * batchSize` comes back
      exhausted exactly when `claims` batches have already been handed out. */
  lemma NextClaimExhausted(batchSize: int, tasks: int, claims: nat)
    requires batchSize >= 1 && claims <= NumBatches(batchSize, tasks)
    ensures ClaimNext(claims * batchSize, batchSize, tasks).claim.Exhausted?
        <==> claims == NumBatches(batchSize, tasks)
  {
    var r := NumBatches(batchSize, tasks);
    assert claims * batchSize + batchSize == (claims + 1) * batchSize;
    MulOrder(claims + 1, r, batchSize);
    MulOrder(r + 1, claims + 1, batchSize);
  }

  /** The inner `for pk := curBatchStart; pk < curBatchEnd; pk++` loop, recording the keys
      it visits. */
  method VisitBatch(visited: seq<int>, start: int, end: int) returns (after: seq<int>)
    requires start <= end
    ensures after == visited + seq(end - start, i => start + i)
  {
    after := visited;
    var pk := start;
    while pk < end
      invariant start <= pk <= end
      invariant after == visited + seq(pk - start, i => start + i)
    {
      after := after + [pk];
      pk := pk + 1;
    }
  }

  /** One worker's loop run alone on a fresh counter: claim until exhausted and visit every
      key of every batch in increasing order. It visits `[batchSize, tasks)` and makes
      `NumBatches + 1` claims. */
  method Drain(batchSize: int, tasks: int) returns (visited: seq<int>, claims: nat)
    requires batchSize >= 1
    ensures claims == NumBatches(batchSize, tasks) + 1
    ensures |visited| == Max(0, tasks - batchSize)
    ensures forall i :: 0 <= i < |visited| ==> visited[i] == batchSize + i
  {
    var counter := 0;
    visited := [];
    claims := 0;
    while true
      invariant claims <= NumBatches(batchSize, tasks)
      invariant counter == claims * batchSize
      invariant forall i :: 0 <= i < |visited| ==> visited[i] == batchSize + i
      invariant batchSize + |visited| == Max(batchSize, Min(counter + batchSize, tasks))
      decreases NumBatches(batchSize, tasks) - claims
    {
      var step := ClaimNext(counter, batchSize, tasks);
      NextClaimExhausted(batchSize, tasks, claims);
      counter := step.counter;
      claims := claims + 1;
      if step.claim.Exhausted? {
        break;
      }
      assert claims * batchSize == counter;
      visited := VisitBatch(visited, step.claim.start, step.claim.end);
    }
  }
}
