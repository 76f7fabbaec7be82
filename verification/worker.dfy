/** What a worker does with the keys it claims: the statements it issues per key, the
    data check on every row it reads back, and their effect on the `benchks.benchtab`
    table, modelled as a map from primary key to the row's two values. */
module Worker {
  import opened Wrappers
  import opened Configuration
  import opened Partitioner

  /** The non-key columns `v1, v2` of a row. */
  datatype Row = Row(v1: int, v2: int)

  /** The table: primary key to row. */
  type Store = map<int, Row>

  /** The two prepared statements: `INSERT ... (pk, v1, v2)` and `SELECT v1, v2 ... WHERE pk = ?`. */
  datatype Statement = Insert(pk: int, v1: int, v2: int) | Select(pk: int)

  /** The ways a worker ends the run. */
  datatype Fault =
    | RowMissing(pk: int)         // the select found no row
    | BadData(pk: int, got: Row)  // the row read back is not the expected one

  /** The row the harness writes for, and expects back from, key `pk`. */
  function Expected(pk: int): Row
  {
    Row(2 * pk, 3 * pk)
  }

  /** The statements issued for one key: the workload gates which of the two are sent, the
      insert binds `(pk, 2*pk, 3*pk)`, and in a mixed run the insert goes first. */
  function Statements(mode: Workload, pk: int): (sts: seq<Statement>)
    ensures Insert(pk, 2 * pk, 3 * pk) in sts <==> mode == Inserts || mode == Mixed
    ensures Select(pk) in sts <==> mode == Selects || mode == Mixed
    ensures forall i :: 0 <= i < |sts| ==> sts[i] == Insert(pk, 2 * pk, 3 * pk) || sts[i] == Select(pk)
    ensures forall i, j :: 0 <= i < |sts| && 0 <= j < |sts| && sts[i].Insert? && sts[j].Select? ==> i < j
    ensures forall i, j :: 0 <= i < j < |sts| ==> sts[i] != sts[j]
  {
    match mode
    case Inserts => [Insert(pk, 2 * pk, 3 * pk)]
    case Selects => [Select(pk)]
    case Mixed => [Insert(pk, 2 * pk, 3 * pk), Select(pk)]
  }

  /** The data check after a select: a row is accepted exactly when it is the expected one. */
  function Verify(pk: int, got: Row): (r: Result<Row, Fault>)
    ensures r.Success? <==> got.v1 == 2 * pk && got.v2 == 3 * pk
    ensures r.Success? <==> got == Expected(pk)
    ensures r.Success? ==> r.value == got
    ensures r.Failure? ==> r.error == BadData(pk, got)
  {
    if got.v1 != 2 * pk || got.v2 != 3 * pk then Failure(BadData(pk, got)) else Success(got)
  }

  /** One statement against the table. */
  function Execute(store: Store, st: Statement): (r: Result<Store, Fault>)
    ensures st.Insert? ==> r.Success? && st.pk in r.value && r.value[st.pk] == Row(st.v1, st.v2)
    ensures st.Insert? ==> forall k :: k in store && k != st.pk ==> k in r.value && r.value[k] == store[k]
    ensures st.Insert? ==> r.value.Keys == store.Keys + {st.pk}
    ensures st.Select? ==> (r.Success? <==> st.pk in store && store[st.pk] == Expected(st.pk))
    ensures st.Select? && r.Success? ==> r.value == store
    ensures r.Failure? ==> r.error.pk == st.pk
  {
    match st
    case Insert(pk, v1, v2) => Success(store[pk := Row(v1, v2)])
    case Select(pk) =>
      if pk !in store then Failure(RowMissing(pk))
      else match Verify(pk, store[pk])
        case Failure(e) => Failure(e)
        case Success(_) => Success(store)
  }

  /** The keys a sequence of statements names. */
  function Touched(sts: seq<Statement>): (keys: set<int>)
    ensures forall i :: 0 <= i < |sts| ==> sts[i].pk in keys
    ensures forall k :: k in keys ==> exists i :: 0 <= i < |sts| && sts[i].pk == k
  {
    set i | 0 <= i < |sts| :: sts[i].pk
  }

  /** Whether `after` keeps every row of `before` whose key is not in `keys`, and gains
      rows only for keys in `keys`. */
  predicate ChangedOnly(before: Store, after: Store, keys: set<int>)
  {
    && (forall k :: k in before && k !in keys ==> k in after && after[k] == before[k])
    && (forall k :: k in after ==> k in before || k in keys)
  }

  /** Statements in order, stopping at the first fault: the fault names one of the
      statements' keys, and rows of other keys are left alone. */
  function ExecuteAll(store: Store, sts: seq<Statement>): (r: Result<Store, Fault>)
    ensures r.Failure? ==> r.error.pk in Touched(sts)
    ensures r.Success? ==> ChangedOnly(store, r.value, Touched(sts))
    ensures r.Success? ==> store.Keys <= r.value.Keys
    decreases |sts|
  {
    if |sts| == 0 then Success(store)
    else
      assert Touched(sts) == {sts[0].pk} + Touched(sts[1..]) by {
        assert forall i :: 0 <= i < |sts[1..]| ==> sts[1..][i] == sts[i + 1];
      }
      match Execute(store, sts[0])
      case Failure(e) => Failure(e)
      case Success(s) => ExecuteAll(s, sts[1..])
  }

  /** The body of the `for pk` loop for one key: a fault is about `pk`, and no other key's
      row changes. */
  function ProcessKey(mode: Workload, store: Store, pk: int): (r: Result<Store, Fault>)
    ensures r.Failure? ==> r.error.pk == pk
    ensures r.Success? ==> ChangedOnly(store, r.value, {pk})
    ensures r.Success? ==> store.Keys <= r.value.Keys
  {
    var sts := Statements(mode, pk);
    assert Touched(sts) <= {pk};
    ExecuteAll(store, sts)
  }

  /** The `for pk := curBatchStart; pk < curBatchEnd; pk++` loop: a fault names a key of
      the batch, and rows outside the batch do not change. */
  function ProcessRange(mode: Workload, store: Store, lo: int, hi: int): (r: Result<Store, Fault>)
    ensures r.Failure? ==> lo <= r.error.pk < hi
    ensures r.Success? ==> ChangedOnly(store, r.value, Span(lo, hi))
    ensures r.Success? ==> store.Keys <= r.value.Keys
    decreases hi - lo
  {
    if lo >= hi then Success(store)
    else match ProcessKey(mode, store, lo)
      case Failure(e) => Failure(e)
      case Success(s) => ProcessRange(mode, s, lo + 1, hi)
  }

  /** Every claim's keys, in claim order: a fault names a key handed out, and rows of keys
      never handed out do not change. */
  function ProcessClaims(mode: Workload, store: Store, claims: seq<Claim>): (r: Result<Store, Fault>)
    ensures r.Failure? ==> r.error.pk in Covered(claims)
    ensures r.Success? ==> ChangedOnly(store, r.value, Covered(claims))
    ensures r.Success? ==> store.Keys <= r.value.Keys
  {
    if |claims| == 0 then Success(store)
    else
      var last := claims[|claims| - 1];
      match ProcessClaims(mode, store, claims[..|claims| - 1])
      case Failure(e) => Failure(e)
      case Success(s) => if last.Batch? then ProcessRange(mode, s, last.start, last.end) else Success(s)
  }

  // ---------------------------------------------------------------- order-free characterisation

  /** Whether key `pk` passes its check in a run that starts from `store`. Only a pure
      select run reads a row it did not write itself. */
  predicate KeyVerifies(mode: Workload, store: Store, pk: int)
  {
    mode == Selects ==> pk in store && store[pk] == Expected(pk)
  }

  /** The table after the keys `keys` have been processed: inserts write the expected row,
      a pure select run changes nothing. */
  function Populate(mode: Workload, store: Store, keys: set<int>): Store
  {
    if mode == Selects then store
    else map k | k in store.Keys + keys :: if k in keys then Expected(k) else store[k]
  }

  lemma PopulateNothing(mode: Workload, store: Store)
    ensures Populate(mode, store, {}) == store
  {
  }

  lemma PopulateTwice(mode: Workload, store: Store, a: set<int>, b: set<int>)
    ensures Populate(mode, Populate(mode, store, a), b) == Populate(mode, store, a + b)
  {
  }

  /** One key: it succeeds exactly when `KeyVerifies`, then leaves `Populate`'s table; a
      mixed run always verifies, because the select reads the row its own insert wrote. */
  lemma ProcessKeySpec(mode: Workload, store: Store, pk: int)
    ensures var r := ProcessKey(mode, store, pk);
      && (r.Success? <==> KeyVerifies(mode, store, pk))
      && (r.Success? ==> r.value == Populate(mode, store, {pk}))
      && (r.Failure? ==> r.error.pk == pk)
  {
    var sts := Statements(mode, pk);
    if mode == Mixed {
      var s := store[pk := Expected(pk)];
      assert sts[1..] == [Select(pk)];
      assert sts[1..][1..] == [];
      assert Execute(store, sts[0]) == Success(s);
      assert Execute(s, Select(pk)) == Success(s);
      assert ExecuteAll(s, [Select(pk)]) == ExecuteAll(s, []);
      assert ProcessKey(mode, store, pk) == Success(s);
      assert Populate(mode, store, {pk}) == s;
    } else {
      assert |sts| == 1 && sts[1..] == [];
      var r := Execute(store, sts[0]);
      assert r.Success? ==> ExecuteAll(r.value, []) == r;
    }
  }

  /** A batch `[lo, hi)` succeeds exactly when every key in it verifies, the first fault
      names a key of the batch that does not, and success leaves `Populate`'s table. */
  lemma {:induction false} ProcessRangeSpec(mode: Workload, store: Store, lo: int, hi: int)
    ensures var r := ProcessRange(mode, store, lo, hi);
      && (r.Success? <==> forall pk :: lo <= pk < hi ==> KeyVerifies(mode, store, pk))
      && (r.Success? ==> r.value == Populate(mode, store, Span(lo, hi)))
      && (r.Failure? ==> lo <= r.error.pk < hi && !KeyVerifies(mode, store, r.error.pk))
    decreases hi - lo
  {
    if lo >= hi {
      PopulateNothing(mode, store);
      assert Span(lo, hi) == {};
    } else {
      ProcessKeySpec(mode, store, lo);
      if KeyVerifies(mode, store, lo) {
        var s := Populate(mode, store, {lo});
        ProcessRangeSpec(mode, s, lo + 1, hi);
        PopulateTwice(mode, store, {lo}, Span(lo + 1, hi));
        assert {lo} + Span(lo + 1, hi) == Span(lo, hi);
        assert forall pk :: KeyVerifies(mode, s, pk) <==> KeyVerifies(mode, store, pk);
      }
    }
  }

  /** A sequence of claims succeeds exactly when every key they hand out verifies, whatever
      order the keys are taken in; the first fault names a handed-out key that does not; and
      success leaves the table with exactly those keys populated. */
  lemma {:induction false} ProcessClaimsSpec(mode: Workload, store: Store, claims: seq<Claim>)
    ensures var r := ProcessClaims(mode, store, claims);
      && (r.Success? <==> forall pk :: pk in Covered(claims) ==> KeyVerifies(mode, store, pk))
      && (r.Success? ==> r.value == Populate(mode, store, Covered(claims)))
      && (r.Failure? ==> r.error.pk in Covered(claims) && !KeyVerifies(mode, store, r.error.pk))
  {
    if |claims| == 0 {
      PopulateNothing(mode, store);
    } else {
      var prior := claims[..|claims| - 1];
      var last := claims[|claims| - 1];
      ProcessClaimsSpec(mode, store, prior);
      var r0 := ProcessClaims(mode, store, prior);
      if r0.Success? {
        var s := r0.value;
        assert forall pk :: KeyVerifies(mode, s, pk) <==> KeyVerifies(mode, store, pk);
        if last.Batch? {
          ProcessRangeSpec(mode, s, last.start, last.end);
          PopulateTwice(mode, store, Covered(prior), Span(last.start, last.end));
        } else {
          assert Covered(claims) == Covered(prior);
        }
      }
    }
  }
}
