/** The benchmark's configuration as `readConfig` derives it from the command-line flags
    (benchmarks/basic/scylla-go-driver/source/config.go). The flag parser itself is not
    modelled: `Flags` holds the values it would hand back. */
module Configuration {
  import opened Wrappers
  import opened GoMath

  /** The statements each worker issues per key. */
  datatype Workload = Inserts | Selects | Mixed

  /** The ways `readConfig` ends the process instead of returning a configuration. */
  datatype ConfigError =
    | InvalidWorkload(name: string)  // `log.Fatal("invalid workload type")`
    | DivideByZero                   // Go's run-time panic in `tasks / concurrency`

  /** Flag values after `flag.Parse`. */
  datatype Flags = Flags(nodes: string, workload: string, tasks: int, concurrency: int, dontPrepare: bool)

  datatype Config = Config(
    nodeAddresses: seq<string>,
    workload: Workload,
    tasks: int,
    concurrency: int,
    batchSize: int,
    dontPrepare: bool)

  /** The default `-nodes` value: six addresses separated by commas. */
  const DefaultNodes: string :=
    "192.168.101.101:9042" + "," + "192.168.101.102:9042" + "," + "192.168.101.103:9042" + ","
    + "192.168.101.104:9042" + "," + "192.168.101.105:9042" + "," + "192.168.101.106:9042"

  const DefaultFlags: Flags := Flags(DefaultNodes, "mixed", 1_000_000, 1024, false)

  /** Largest batch a worker claims in one step. */
  const DefaultBatchSize: int := 256

  const Separator: char := ','

  // ---------------------------------------------------------------- workload names

  /** The flag spelling of each workload. */
  function WorkloadName(w: Workload): string
  {
    match w
    case Inserts => "inserts"
    case Selects => "selects"
    case Mixed => "mixed"
  }

  /** The `switch *workload` of `readConfig`: exactly the three spellings are accepted,
      and an accepted string is the spelling of the workload it yields. */
  function ParseWorkload(s: string): (r: Result<Workload, ConfigError>)
    ensures r.Success? <==> s == "inserts" || s == "selects" || s == "mixed"
    ensures forall w :: r == Success(w) <==> WorkloadName(w) == s
    ensures r.Failure? ==> r.error == InvalidWorkload(s)
  {
    if s == "inserts" then Success(Inserts)
    else if s == "selects" then Success(Selects)
    else if s == "mixed" then Success(Mixed)
    else Failure(InvalidWorkload(s))
  }

  // ---------------------------------------------------------------- node addresses

  function Occurrences(s: string, c: char): nat
  {
    if |s| == 0 then 0 else (if s[0] == c then 1 else 0) + Occurrences(s[1..], c)
  }

  /** Go's `strings.Split(s, ",")`: the pieces between separators, so the empty string
      yields one empty piece. */
  function Split(s: string): (parts: seq<string>)
    ensures |parts| >= 1
    ensures forall i :: 0 <= i < |parts| ==> Separator !in parts[i]
    decreases |s|
  {
    if |s| == 0 then [""]
    else
      var rest := Split(s[1..]);
      if s[0] == Separator then [""] + rest
      else [[s[0]] + rest[0]] + rest[1..]
  }

  /** Go's `strings.Join(parts, ",")`. */
  function Join(parts: seq<string>): string
    requires |parts| >= 1
  {
    if |parts| == 1 then parts[0] else parts[0] + [Separator] + Join(parts[1..])
  }

  /** There is one more piece than there are separators. */
  lemma {:induction false} SplitCount(s: string)
    ensures |Split(s)| == Occurrences(s, Separator) + 1
    decreases |s|
  {
    if |s| > 0 {
      SplitCount(s[1..]);
    }
  }

  lemma JoinPrepend(c: char, parts: seq<string>)
    requires |parts| >= 1
    ensures Join([[c] + parts[0]] + parts[1..]) == [c] + Join(parts)
  {
    var p := [[c] + parts[0]] + parts[1..];
    if |parts| > 1 {
      assert p[1..] == parts[1..];
    }
  }

  /** Joining the pieces gives back the flag string. */
  lemma {:induction false} JoinSplit(s: string)
    ensures Join(Split(s)) == s
    decreases |s|
  {
    if |s| > 0 {
      var rest := Split(s[1..]);
      JoinSplit(s[1..]);
      assert s == [s[0]] + s[1..];
      if s[0] == Separator {
        var parts := [""] + rest;
        assert parts[1..] == rest;
      } else {
        JoinPrepend(s[0], rest);
      }
    }
  }

  lemma {:induction false} SplitWithoutSeparator(p: string)
    requires Separator !in p
    ensures Split(p) == [p]
    decreases |p|
  {
    if |p| > 0 {
      SplitWithoutSeparator(p[1..]);
      assert [p[0]] + p[1..] == p;
    }
  }

  lemma {:induction false} SplitAfterPiece(p: string, t: string)
    requires Separator !in p
    ensures Split(p + [Separator] + t) == [p] + Split(t)
    decreases |p|
  {
    var s := p + [Separator] + t;
    if |p| == 0 {
      assert s[1..] == t;
    } else {
      assert s[1..] == p[1..] + [Separator] + t;
      SplitAfterPiece(p[1..], t);
      assert [p[0]] + p[1..] == p;
    }
  }

  /** Splitting a join of separator-free pieces gives back the pieces. */
  lemma {:induction false} SplitJoin(parts: seq<string>)
    requires |parts| >= 1
    requires forall i :: 0 <= i < |parts| ==> Separator !in parts[i]
    ensures Split(Join(parts)) == parts
    decreases |parts|
  {
    if |parts| == 1 {
      SplitWithoutSeparator(parts[0]);
    } else {
      SplitJoin(parts[1..]);
      SplitAfterPiece(parts[0], Join(parts[1..]));
      assert [parts[0]] + parts[1..] == parts;
    }
  }

  // ---------------------------------------------------------------- batch size

  /** The `max` closure declared inside `readConfig`. */
  function LargerOf(a: int, b: int): (r: int)
    ensures r >= a && r >= b
    ensures r == a || r == b
  {
    if a > b then a else b
  }

  lemma DivAtLeast(a: int, b: int, k: int)
    requires 0 <= a && 0 < b && k * b <= a
    ensures k <= a / b
  {
    var q := a / b;
    assert a == q * b + a % b;
    assert (q + 1) * b == q * b + b;
    MulOrder(q + 1, k, b);
  }

  lemma DivBelow(a: int, b: int, k: int)
    requires 0 <= a && 0 < b && a < k * b
    ensures a / b < k
  {
    var q := a / b;
    assert a == q * b + a % b;
    MulOrder(k, q, b);
  }

  /** The batch-size rule of `readConfig`, with Go's truncating division: 256, lowered to
      `max(1, tasks / concurrency)` when `tasks / 256 < concurrency`. It is at least 1
      whatever the flags; for the flag values the harness is meant for it is
      `min(256, max(1, tasks / concurrency))`; and it fails, dividing by a zero concurrency,
      exactly when `tasks / 256` is negative and the concurrency is zero. */
  function BatchSize(tasks: int, concurrency: int): (r: Result<int, ConfigError>)
    ensures r.Failure? <==> tasks <= -DefaultBatchSize && concurrency == 0
    ensures r.Failure? ==> r.error == DivideByZero
    ensures r.Success? ==> r.value >= 1
    ensures 0 <= tasks && 1 <= concurrency ==>
      && r == Success(Min(DefaultBatchSize, Max(1, tasks / concurrency)))
      && r.value <= DefaultBatchSize
  {
    if Quot(tasks, DefaultBatchSize) < concurrency then
      if concurrency == 0 then Failure(DivideByZero)
      else
        assert 0 <= tasks ==> tasks / concurrency < DefaultBatchSize by {
          if 0 <= tasks {
            assert tasks == (tasks / DefaultBatchSize) * DefaultBatchSize + tasks % DefaultBatchSize;
            DivBelow(tasks, concurrency, DefaultBatchSize);
          }
        }
        Success(LargerOf(1, Quot(tasks, concurrency)))
    else
      assert 0 <= tasks && 1 <= concurrency ==> DefaultBatchSize <= tasks / concurrency by {
        if 0 <= tasks && 1 <= concurrency {
          assert tasks == (tasks / DefaultBatchSize) * DefaultBatchSize + tasks % DefaultBatchSize;
          DivAtLeast(tasks, concurrency, DefaultBatchSize);
        }
      }
      Success(DefaultBatchSize)
  }

  // ---------------------------------------------------------------- readConfig

  /** `readConfig` after `flag.Parse`: the node list is the comma split of `-nodes`, an
      unknown `-workload` is fatal, and the batch size follows `BatchSize`. */
  function ReadConfig(f: Flags): (r: Result<Config, ConfigError>)
    ensures r.Success? <==>
      ParseWorkload(f.workload).Success? && !(f.tasks <= -DefaultBatchSize && f.concurrency == 0)
    ensures ParseWorkload(f.workload).Failure? ==> r == Failure(InvalidWorkload(f.workload))
    ensures r.Success? ==>
      && |r.value.nodeAddresses| >= 1
      && Join(r.value.nodeAddresses) == f.nodes
      && (forall i :: 0 <= i < |r.value.nodeAddresses| ==> Separator !in r.value.nodeAddresses[i])
      && WorkloadName(r.value.workload) == f.workload
      && r.value.tasks == f.tasks
      && r.value.concurrency == f.concurrency
      && r.value.dontPrepare == f.dontPrepare
      && r.value.batchSize >= 1
    ensures r.Success? && 0 <= f.tasks && 1 <= f.concurrency ==>
      r.value.batchSize == Min(DefaultBatchSize, Max(1, f.tasks / f.concurrency))
  {
    JoinSplit(f.nodes);
    var nodes := Split(f.nodes);
    match ParseWorkload(f.workload)
    case Failure(e) => Failure(e)
    case Success(w) =>
      match BatchSize(f.tasks, f.concurrency)
      case Failure(e) => Failure(e)
      case Success(b) =>
        Success(Config(nodes, w, f.tasks, f.concurrency, b, f.dontPrepare))
  }

  /** The addresses the default `-nodes` value lists. */
  const DefaultNodeList: seq<string> := [
    "192.168.101.101:9042", "192.168.101.102:9042", "192.168.101.103:9042",
    "192.168.101.104:9042", "192.168.101.105:9042", "192.168.101.106:9042"]

  /** With every flag at its default the harness runs a mixed workload of a million keys
      over 1024 workers in batches of 256 against the six default nodes. */
  lemma DefaultConfig()
    ensures ReadConfig(DefaultFlags) == Success(Config(DefaultNodeList, Mixed, 1_000_000, 1024, 256, false))
  {
    var l := DefaultNodeList;
    assert Join(l[5..]) == l[5];
    assert Join(l[4..]) == l[4] + [Separator] + l[5];
    assert Join(l[3..]) == l[3] + [Separator] + Join(l[4..]);
    assert Join(l[2..]) == l[2] + [Separator] + Join(l[3..]);
    assert Join(l[1..]) == l[1] + [Separator] + Join(l[2..]);
    assert Join(l) == l[0] + [Separator] + Join(l[1..]);
    assert Join(l) == DefaultNodes;
    SplitJoin(l);
  }
}
