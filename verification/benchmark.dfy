/** The run of a `Benchmarker::Benchmark`: construction with its options,
    task registration, the empty task that may be defined once, the
    iteration controller `invoke_tasks` (every task once per round,
    `iter + 2 * extra` rounds, the empty task's time subtracted from each
    sample), `ignore_skipped_tasks`, and the removal of the best and worst
    samples for the "Removed Min & Max" report.

    Running a task's block and reading the clocks are not modelled: a run
    is an oracle saying, for round `i` and entry `j`, whether the task
    skipped itself (with a reason) or what it measured. */
module Bench {
  import opened Common
  import opened Timing
  import opened Results
  import opened Filtering

  /** The `inverse:` option: `false`, `true`, or a loop count to report
      throughput for. */
  datatype Inverse = InverseOff | InverseOn | InverseCount(n: nat)

  datatype Config = Config(loop: nat, iter: nat, extra: nat, inverse: Inverse, filter: Option<Filter>)

  datatype Benchmark = Benchmark(config: Config, entries: seq<Entry>, emptyTask: Option<Task>)

  function Default(o: Option<nat>, d: nat): nat {
    if o.Some? then o.value else d
  }

  /** `Benchmark.new`: a missing `loop` or `iter` is 1 and a missing
      `extra` is 0; a filter string must parse, and the error it raises
      otherwise is the parse error. */
  function New(loop: Option<nat>, iter: Option<nat>, extra: Option<nat>, inverse: Inverse, filter: Option<string>): (o: Outcome<Benchmark>)
    ensures o.Ok? <==> filter.None? || ParseFilter(filter.value).Ok?
    ensures o.Ok? ==> o.value.entries == [] && o.value.emptyTask.None?
    ensures o.Ok? && filter.Some? ==> o.value.config.filter.Some? && Show(o.value.config.filter.value) == filter.value
    ensures o.Ok? && filter.None? ==> o.value.config.filter.None?
    ensures o.Fail? ==> o == Fail(ParseFilter(filter.value).msg)
  {
    var config := Config(Default(loop, 1), Default(iter, 1), Default(extra, 0), inverse, None);
    match filter
    case None => Ok(Benchmark(config, [], None))
    case Some(s) =>
      match ParseFilter(s)
      case Fail(msg) => Fail(msg)
      case Ok(f) => Ok(Benchmark(config.(filter := Some(f)), [], None))
  }

  /** `define_task`: a new entry with no samples at the end. */
  function DefineTask(b: Benchmark, name: Option<string>, tag: Option<seq<string>>): (b': Benchmark)
    ensures b'.entries == b.entries + [Entry(Task(name, tag), Fresh)]
    ensures b'.config == b.config && b'.emptyTask == b.emptyTask
  {
    b.(entries := b.entries + [Entry(Task(name, tag), Fresh)])
  }

  /** `define_empty_task`: allowed once; the empty task is labelled
      `(Empty)`. */
  function DefineEmptyTask(b: Benchmark): (o: Outcome<Benchmark>)
    ensures o.Ok? <==> b.emptyTask.None?
    ensures o.Ok? ==> o.value.emptyTask == Some(Task(Some("(Empty)"), None))
    ensures o.Ok? ==> o.value.entries == b.entries && o.value.config == b.config
    ensures o.Fail? ==> o.msg == "cannot define empty task more than once."
  {
    if b.emptyTask.Some? then Fail("cannot define empty task more than once.")
    else Ok(b.(emptyTask := Some(Task(Some("(Empty)"), None))))
  }

  /** Whatever happened before, a second definition of the empty task
      fails. */
  lemma EmptyTaskDefinedOnce(b: Benchmark)
    requires DefineEmptyTask(b).Ok?
    ensures DefineEmptyTask(DefineEmptyTask(b).value).Fail?
  {
  }

  // ---------------------------------------------------------------------
  // invoke_tasks

  /** What one invocation of a task did: raised `SkipTask` with a reason,
      or ran and measured. */
  datatype Invocation = Skip(reason: string) | Ran(t: TimeData)

  /** The sample recorded for a measurement: the measurement minus the empty
      task's measurement of the same round, if there is an empty task. */
  function Net(t: TimeData, empty: Option<TimeData>): (r: TimeData)
    ensures empty.None? ==> r == t
    ensures empty.Some? ==> Timing.Add(r, empty.value) == t
  {
    match empty
    case None => t
    case Some(e) => Sub(t, e)
  }

  /** The empty task's measurement in round `i`, when there is one. */
  function EmptyAt(hasEmpty: bool, emptyRun: nat -> TimeData, i: nat): Option<TimeData> {
    if hasEmpty then Some(emptyRun(i)) else None
  }

  /** One task's result after one invocation: a skip records the reason
      and no sample, a run appends its net sample. */
  function Step(r: Result, inv: Invocation, empty: Option<TimeData>): (r': Result)
    ensures inv.Skip? ==> Skipped(r') && r'.reason == Some(inv.reason) && r'.iterations == r.iterations
    ensures inv.Ran? ==> r'.iterations == r.iterations + [Net(inv.t, empty)] && r'.reason == r.reason
  {
    match inv
    case Skip(reason) => SetSkipped(r, reason)
    case Ran(t) => Results.Add(r, Net(t, empty))
  }

  /** Round `i`: every entry invoked once, in registration order. */
  function RunRound(es: seq<Entry>, i: nat, empty: Option<TimeData>, taskRun: (nat, nat) -> Invocation): (es': seq<Entry>)
    ensures |es'| == |es|
    ensures forall j :: 0 <= j < |es| ==>
      es'[j].task == es[j].task && es'[j].result == Step(es[j].result, taskRun(i, j), empty)
  {
    seq(|es|, j requires 0 <= j < |es| => Entry(es[j].task, Step(es[j].result, taskRun(i, j), empty)))
  }

  /** Rounds 1 to `n` in order. */
  function RunRounds(es: seq<Entry>, n: nat, hasEmpty: bool, emptyRun: nat -> TimeData,
                     taskRun: (nat, nat) -> Invocation): (es': seq<Entry>)
    ensures |es'| == |es|
    ensures forall j :: 0 <= j < |es| ==> es'[j].task == es[j].task
    ensures forall j :: 0 <= j < |es| ==>
      |es[j].result.iterations| <= |es'[j].result.iterations| <= |es[j].result.iterations| + n
  {
    if n == 0 then es
    else RunRound(RunRounds(es, n - 1, hasEmpty, emptyRun, taskRun), n, EmptyAt(hasEmpty, emptyRun, n), taskRun)
  }

  /** `Benchmark#invoke_tasks`: runs `iter + 2 * extra` rounds. */
  method InvokeTasks(b: Benchmark, emptyRun: nat -> TimeData, taskRun: (nat, nat) -> Invocation)
    returns (es: seq<Entry>, rounds: nat)
    ensures rounds == b.config.iter + 2 * b.config.extra
    ensures es == RunRounds(b.entries, rounds, b.emptyTask.Some?, emptyRun, taskRun)
  {
    rounds := b.config.iter + 2 * b.config.extra;
    es := b.entries;
    var i := 1;
    while i <= rounds
      invariant 1 <= i <= rounds + 1
      invariant es == RunRounds(b.entries, i - 1, b.emptyTask.Some?, emptyRun, taskRun)
    {
      var empty := if b.emptyTask.Some? then Some(emptyRun(i)) else None;
      assert empty == EmptyAt(b.emptyTask.Some?, emptyRun, i);
      es := InvokeRound(es, i, empty, taskRun);
      i := i + 1;
    }
  }

  /** One round of `invoke_tasks`: each entry invoked once, in order; a
      skip records its reason, a run its net sample. */
  method InvokeRound(prev: seq<Entry>, i: nat, empty: Option<TimeData>, taskRun: (nat, nat) -> Invocation)
    returns (es: seq<Entry>)
    ensures es == RunRound(prev, i, empty, taskRun)
  {
    es := prev;
    var j := 0;
    while j < |es|
      invariant 0 <= j <= |es| == |prev|
      invariant forall k :: 0 <= k < j ==> es[k] == Entry(prev[k].task, Step(prev[k].result, taskRun(i, k), empty))
      invariant forall k :: j <= k < |es| ==> es[k] == prev[k]
      decreases |prev| - j
    {
      var e := es[j];
      var r;
      match taskRun(i, j) {
        case Skip(reason) =>
          r := SetSkipped(e.result, reason);
        case Ran(t) =>
          var sample := if empty.Some? then Sub(t, empty.value) else t;
          r := Results.Add(e.result, sample);
      }
      es := es[j := Entry(e.task, r)];
      j := j + 1;
    }
  }

  /** Rounds never reorder, add or drop entries, nor change their tasks. */
  lemma {:induction false} RoundsKeepTasks(es: seq<Entry>, n: nat, hasEmpty: bool, emptyRun: nat -> TimeData,
                                          taskRun: (nat, nat) -> Invocation)
    ensures var out := RunRounds(es, n, hasEmpty, emptyRun, taskRun);
      forall j :: 0 <= j < |es| ==> out[j].task == es[j].task
  {
    if n > 0 {
      RoundsKeepTasks(es, n - 1, hasEmpty, emptyRun, taskRun);
    }
  }

  /** The samples entry `j` gains in rounds 1 to `n` when it runs in all
      of them: its measurement less the empty task's, round by round. */
  function NetSamples(j: nat, n: nat, hasEmpty: bool, emptyRun: nat -> TimeData,
                      taskRun: (nat, nat) -> Invocation): (ts: seq<TimeData>)
    requires forall i :: 1 <= i <= n ==> taskRun(i, j).Ran?
    ensures |ts| == n
  {
    if n == 0 then []
    else NetSamples(j, n - 1, hasEmpty, emptyRun, taskRun) + [Net(taskRun(n, j).t, EmptyAt(hasEmpty, emptyRun, n))]
  }

  /** Sample `k` of those is round `k + 1`'s measurement less the empty
      task's. */
  lemma {:induction false} NetSampleAt(j: nat, n: nat, hasEmpty: bool, emptyRun: nat -> TimeData,
                                       taskRun: (nat, nat) -> Invocation, k: nat)
    requires forall i :: 1 <= i <= n ==> taskRun(i, j).Ran?
    requires k < n
    ensures NetSamples(j, n, hasEmpty, emptyRun, taskRun)[k] == Net(taskRun(k + 1, j).t, EmptyAt(hasEmpty, emptyRun, k + 1))
  {
    if k < n - 1 {
      NetSampleAt(j, n - 1, hasEmpty, emptyRun, taskRun, k);
    }
  }

  /** An entry that ran in every round gained one sample per round, in
      round order, after the samples it already had. */
  lemma {:induction false} RoundsAppend(es: seq<Entry>, n: nat, hasEmpty: bool, emptyRun: nat -> TimeData,
                                       taskRun: (nat, nat) -> Invocation, j: nat)
    requires j < |es|
    requires forall i :: 1 <= i <= n ==> taskRun(i, j).Ran?
    ensures RunRounds(es, n, hasEmpty, emptyRun, taskRun)[j].result.iterations
      == es[j].result.iterations + NetSamples(j, n, hasEmpty, emptyRun, taskRun)
  {
    if n > 0 {
      var prev := RunRounds(es, n - 1, hasEmpty, emptyRun, taskRun);
      assert prev[j].result.iterations == es[j].result.iterations + NetSamples(j, n - 1, hasEmpty, emptyRun, taskRun) by {
        RoundsAppend(es, n - 1, hasEmpty, emptyRun, taskRun, j);
      }
      assert RunRounds(es, n, hasEmpty, emptyRun, taskRun)[j].result
        == Step(prev[j].result, taskRun(n, j), EmptyAt(hasEmpty, emptyRun, n));
    }
  }

  /** After `n` rounds an entry is skipped exactly when it was before or
      some round's invocation raised `SkipTask`. */
  lemma {:induction false} SkippedIffSomeRoundSkipped(es: seq<Entry>, n: nat, hasEmpty: bool, emptyRun: nat -> TimeData,
                                                     taskRun: (nat, nat) -> Invocation, j: nat)
    requires j < |es|
    ensures Skipped(RunRounds(es, n, hasEmpty, emptyRun, taskRun)[j].result)
      <==> Skipped(es[j].result) || exists i :: 1 <= i <= n && taskRun(i, j).Skip?
  {
    if n > 0 {
      SkippedIffSomeRoundSkipped(es, n - 1, hasEmpty, emptyRun, taskRun, j);
      if taskRun(n, j).Skip? {
        assert 1 <= n <= n && taskRun(n, j).Skip?;
      }
    }
  }

  /** Each round adds at most one sample per entry, and exactly `n` were
      added when no round skipped. */
  lemma {:induction false} SampleCount(es: seq<Entry>, n: nat, hasEmpty: bool, emptyRun: nat -> TimeData,
                                      taskRun: (nat, nat) -> Invocation, j: nat)
    requires j < |es|
    ensures var added := |RunRounds(es, n, hasEmpty, emptyRun, taskRun)[j].result.iterations| - |es[j].result.iterations|;
      && 0 <= added <= n
      && (added == n <==> forall i :: 1 <= i <= n ==> taskRun(i, j).Ran?)
  {
    if n > 0 {
      SampleCount(es, n - 1, hasEmpty, emptyRun, taskRun, j);
      if !taskRun(n, j).Ran? {
        assert !(forall i :: 1 <= i <= n ==> taskRun(i, j).Ran?);
      }
    }
  }

  /** `ignore_skipped_tasks`: the entries never skipped, in order. */
  function IgnoreSkippedTasks(es: seq<Entry>): (r: seq<Entry>)
    ensures forall k :: 0 <= k < |r| ==> r[k] in es && !Skipped(r[k].result)
    ensures forall i :: 0 <= i < |es| && !Skipped(es[i].result) ==> es[i] in r
    ensures IsSubsequence(r, es)
  {
    SelectIsSubsequence(es, (e: Entry) => !Skipped(e.result));
    Select(es, (e: Entry) => !Skipped(e.result))
  }

  predicate AllFresh(es: seq<Entry>) {
    forall j :: 0 <= j < |es| ==> es[j].result == Fresh
  }

  /** Entries registered with no samples, run for `n` rounds with skipped
      ones ignored afterwards: every remaining entry holds exactly `n`
      samples. */
  lemma SurvivorsRanEveryRound(es: seq<Entry>, n: nat, hasEmpty: bool, emptyRun: nat -> TimeData,
                               taskRun: (nat, nat) -> Invocation)
    requires AllFresh(es)
    ensures forall e :: e in IgnoreSkippedTasks(RunRounds(es, n, hasEmpty, emptyRun, taskRun)) ==> |e.result.iterations| == n
  {
    var out := RunRounds(es, n, hasEmpty, emptyRun, taskRun);
    forall e | e in IgnoreSkippedTasks(out)
      ensures |e.result.iterations| == n
    {
      var j :| 0 <= j < |out| && out[j] == e;
      SkippedIffSomeRoundSkipped(es, n, hasEmpty, emptyRun, taskRun, j);
      SampleCount(es, n, hasEmpty, emptyRun, taskRun, j);
    }
  }

  // ---------------------------------------------------------------------
  // report_minmax

  /** One line of the "Removed Min & Max" table: the task label on its
      first line only. */
  datatype MinmaxRow = MinmaxRow(name: Option<string>, minT: real, minIdx: nat, maxT: real, maxIdx: nat)

  function RowsOf(name: Option<string>, removed: seq<MinMax>): (rows: seq<MinmaxRow>)
    ensures |rows| == |removed|
    ensures forall i :: 0 <= i < |removed| ==> rows[i].name == (if i == 0 then name else None)
    ensures forall i :: 0 <= i < |removed| ==>
      && rows[i].minT == removed[i].minT && rows[i].minIdx == removed[i].minIdx
      && rows[i].maxT == removed[i].maxT && rows[i].maxIdx == removed[i].maxIdx
  {
    seq(|removed|, i requires 0 <= i < |removed| =>
      MinmaxRow(if i == 0 then name else None, removed[i].minT, removed[i].minIdx, removed[i].maxT, removed[i].maxIdx))
  }

  /** `Benchmark#_remove_minmax`: `remove_minmax(extra)` on every entry's
      result (by real time), and the table of what was removed.  It raises
      as soon as one entry has too few samples. */
  function RemoveAllMinmax(es: seq<Entry>, extra: nat): (o: Outcome<(seq<Entry>, seq<MinmaxRow>)>)
    ensures TrimDecided(es, extra, o)
    ensures TrimKept(es, extra, o)
    ensures TrimTable(es, extra, o)
    decreases |es|
  {
    if |es| == 0 then Ok(([], []))
    else
      var head := RemoveMinmax(es[0].result, extra, Real);
      var tail := RemoveAllMinmax(es[1..], extra);
      DecidedStep(es, extra, head, tail);
      KeptStep(es, extra, head, tail);
      TableStep(es, extra, head, tail);
      Combine(es[0], head, tail)
  }

  /** The three parts of the promise of `_remove_minmax`: it succeeds exactly when every
      entry has at least `2 * extra` samples, and otherwise fails with the
      error `remove_minmax` raises on an entry that has too few.  On
      success each entry keeps its task and holds what `remove_minmax` by
      real time leaves of its result, `2 * extra` samples fewer; the table
      lists each entry's removal rows in entry order under its label,
      `extra` rows per entry. */
  ghost predicate TrimDecided(es: seq<Entry>, extra: nat, o: Outcome<(seq<Entry>, seq<MinmaxRow>)>) {
    && (o.Ok? <==> forall j :: 0 <= j < |es| ==> 2 * extra <= |es[j].result.iterations|)
    && (o.Fail? ==> exists j :: 0 <= j < |es| && RemoveMinmax(es[j].result, extra, Real) == Fail(o.msg))
  }

  ghost predicate TrimKept(es: seq<Entry>, extra: nat, o: Outcome<(seq<Entry>, seq<MinmaxRow>)>) {
    o.Ok? ==>
      && |o.value.0| == |es|
      && forall j :: 0 <= j < |es| ==>
        && o.value.0[j].task == es[j].task
        && 2 * extra <= |es[j].result.iterations|
        && o.value.0[j].result == RemoveMinmax(es[j].result, extra, Real).value.result
        && |o.value.0[j].result.iterations| == |es[j].result.iterations| - 2 * extra
  }

  ghost predicate TrimTable(es: seq<Entry>, extra: nat, o: Outcome<(seq<Entry>, seq<MinmaxRow>)>) {
    o.Ok? ==>
      && (forall j :: 0 <= j < |es| ==> 2 * extra <= |es[j].result.iterations|)
      && |o.value.1| == extra * |es|
      && o.value.1 == Table(es, extra)
  }

  /** The removal rows of every entry, in entry order, each entry's under
      its label. */
  function Table(es: seq<Entry>, extra: nat): seq<MinmaxRow>
    requires forall j :: 0 <= j < |es| ==> 2 * extra <= |es[j].result.iterations|
    decreases |es|
  {
    if |es| == 0 then []
    else RowsOf(es[0].task.name, RemoveMinmax(es[0].result, extra, Real).value.removed) + Table(es[1..], extra)
  }

  /** The first entry's removal followed by the rest's. */
  function Combine(e: Entry, head: Outcome<Removal>, tail: Outcome<(seq<Entry>, seq<MinmaxRow>)>)
    : Outcome<(seq<Entry>, seq<MinmaxRow>)>
  {
    if head.Fail? then Fail(head.msg)
    else if tail.Fail? then Fail(tail.msg)
    else Ok(([Entry(e.task, head.value.result)] + tail.value.0, RowsOf(e.task.name, head.value.removed) + tail.value.1))
  }

  lemma DecidedStep(es: seq<Entry>, extra: nat, head: Outcome<Removal>, tail: Outcome<(seq<Entry>, seq<MinmaxRow>)>)
    requires |es| > 0
    requires head == RemoveMinmax(es[0].result, extra, Real)
    requires TrimDecided(es[1..], extra, tail)
    ensures TrimDecided(es, extra, Combine(es[0], head, tail))
  {
    var o := Combine(es[0], head, tail);
    if head.Ok? && tail.Fail? {
      var j :| 0 <= j < |es[1..]| && 2 * extra > |es[1..][j].result.iterations|;
      assert es[1..][j] == es[j + 1];
      var k :| 0 <= k < |es[1..]| && RemoveMinmax(es[1..][k].result, extra, Real) == Fail(tail.msg);
      assert es[1..][k] == es[k + 1];
    }
    if o.Ok? {
      assert forall j :: 0 < j < |es| ==> es[j] == es[1..][j - 1];
    }
  }

  lemma KeptStep(es: seq<Entry>, extra: nat, head: Outcome<Removal>, tail: Outcome<(seq<Entry>, seq<MinmaxRow>)>)
    requires |es| > 0
    requires head == RemoveMinmax(es[0].result, extra, Real)
    requires TrimKept(es[1..], extra, tail)
    ensures TrimKept(es, extra, Combine(es[0], head, tail))
  {
    var o := Combine(es[0], head, tail);
    if o.Ok? {
      var rest := tail.value.0;
      assert forall j :: 0 < j < |es| ==> es[j] == es[1..][j - 1] && o.value.0[j] == rest[j - 1];
    }
  }

  lemma TableStep(es: seq<Entry>, extra: nat, head: Outcome<Removal>, tail: Outcome<(seq<Entry>, seq<MinmaxRow>)>)
    requires |es| > 0
    requires head == RemoveMinmax(es[0].result, extra, Real)
    requires TrimTable(es[1..], extra, tail)
    ensures TrimTable(es, extra, Combine(es[0], head, tail))
  {
    var o := Combine(es[0], head, tail);
    if o.Ok? {
      AllLongEnough(es, extra);
      TableUnfold(es, extra);
      TableGrows(extra, |es|, |tail.value.1|);
    }
  }

  lemma AllLongEnough(es: seq<Entry>, extra: nat)
    requires |es| > 0 && 2 * extra <= |es[0].result.iterations|
    requires forall j :: 0 <= j < |es[1..]| ==> 2 * extra <= |es[1..][j].result.iterations|
    ensures forall j :: 0 <= j < |es| ==> 2 * extra <= |es[j].result.iterations|
  {
    assert forall j :: 0 < j < |es| ==> es[j] == es[1..][j - 1];
  }

  lemma TableUnfold(es: seq<Entry>, extra: nat)
    requires |es| > 0 && forall j :: 0 <= j < |es| ==> 2 * extra <= |es[j].result.iterations|
    ensures Table(es, extra) == RowsOf(es[0].task.name, RemoveMinmax(es[0].result, extra, Real).value.removed)
                                + Table(es[1..], extra)
  {
  }

  lemma TableGrows(extra: nat, n: nat, rows: nat)
    requires n > 0 && rows == extra * (n - 1)
    ensures extra + rows == extra * n
  {
  }

  /** After the rounds of a run with `extra` to spare (`n = iter + 2 *
      extra`), removing the extremes cannot fail, and each entry keeps
      `iter` samples. */
  lemma TrimAfterRunSucceeds(es: seq<Entry>, iter: nat, extra: nat, hasEmpty: bool, emptyRun: nat -> TimeData,
                             taskRun: (nat, nat) -> Invocation)
    requires AllFresh(es)
    ensures var kept := IgnoreSkippedTasks(RunRounds(es, iter + 2 * extra, hasEmpty, emptyRun, taskRun));
      var o := RemoveAllMinmax(kept, extra);
      && o.Ok?
      && forall j :: 0 <= j < |o.value.0| ==> |o.value.0[j].result.iterations| == iter
  {
    SurvivorsRanEveryRound(es, iter + 2 * extra, hasEmpty, emptyRun, taskRun);
    SurvivorsTrim(IgnoreSkippedTasks(RunRounds(es, iter + 2 * extra, hasEmpty, emptyRun, taskRun)), iter, extra);
  }

  lemma SurvivorsTrim(kept: seq<Entry>, iter: nat, extra: nat)
    requires forall e :: e in kept ==> |e.result.iterations| == iter + 2 * extra
    ensures var o := RemoveAllMinmax(kept, extra);
      && o.Ok?
      && forall j :: 0 <= j < |o.value.0| ==> |o.value.0[j].result.iterations| == iter
  {
    assert forall j :: 0 <= j < |kept| ==> kept[j] in kept;
    UniformTrim(kept, iter, extra);
  }

  /** Entries that all hold `iter + 2 * extra` samples trim to `iter`
      samples each. */
  lemma UniformTrim(es: seq<Entry>, iter: nat, extra: nat)
    requires forall j :: 0 <= j < |es| ==> |es[j].result.iterations| == iter + 2 * extra
    ensures RemoveAllMinmax(es, extra).Ok?
    ensures forall j :: 0 <= j < |RemoveAllMinmax(es, extra).value.0| ==>
      |RemoveAllMinmax(es, extra).value.0[j].result.iterations| == iter
  {
    var o := RemoveAllMinmax(es, extra);
    assert o.Ok?;
    forall j | 0 <= j < |o.value.0|
      ensures |o.value.0[j].result.iterations| == iter
    {
      assert |es[j].result.iterations| == iter + 2 * extra;
    }
  }
}
