/** `Benchmarker::Runner` of the older Ruby API, arithmetic only: `bench`
    records one measurement, less the cost of an empty loop when the loop
    count exceeds one, and `repeat` runs its block `n + 2 * extra` times,
    gathers the results position by position into columns, deletes from
    each column `extra` times the result with the smallest and the one
    with the largest key (a single result when all that are left tie) and
    averages the rest.
    Clock readings are inputs; printing is not modelled. */
module LegacyRunner {
  import opened Common
  import opened LegacyResult
  import opened LegacyStats

  /** One clock reading of a block: user, system and real seconds. */
  datatype Sample = Sample(user: real, sys: real, realTime: real)

  /** The runner's state: the `loop` option, the results of the current
      round and the empty-loop measurement (`@_dummy_result`). */
  datatype Runner = Runner(loop: int, results: seq<Record>, dummy: Option<Record>)

  /** A fresh runner, and the state `_reset` leaves before each round. */
  function Reset(loop: int): (r: Runner)
    ensures r.loop == loop && r.results == [] && r.dummy.None?
  {
    Runner(loop, [], None)
  }

  function EmptyLoop(s: Sample): Record {
    Record(Some("(Empty loop)"), s.user, s.sys, s.realTime)
  }

  /** `Runner#before`: with a loop count above one and no empty-loop
      measurement yet, the empty loop is measured (that inner `bench`
      pushes its result and `before` pops it again). */
  function Before(rn: Runner, emptyLoop: Sample): (r: Runner)
    ensures r.loop == rn.loop && r.results == rn.results
    ensures rn.dummy.Some? ==> r.dummy == rn.dummy
    ensures rn.dummy.None? ==> r.dummy == if rn.loop > 1 then Some(EmptyLoop(emptyLoop)) else None
  {
    if rn.loop > 1 && rn.dummy.None? then rn.(dummy := Some(EmptyLoop(emptyLoop))) else rn
  }

  /** The recorded result: the sample less the empty loop, if any. */
  function Net(text: string, body: Sample, dummy: Option<Record>): Record {
    match dummy
    case None => Record(Some(text), body.user, body.sys, body.realTime)
    case Some(d) => Record(Some(text), body.user - d.user, body.sys - d.sys, body.realTime - d.realTime)
  }

  /** `Runner#bench`: `emptyLoop` is what the empty loop would measure if
      `before` ran it, `body` what the block measures. */
  function Bench(rn: Runner, text: string, emptyLoop: Sample, body: Sample): (r: Runner)
    ensures r.loop == rn.loop && r.dummy == Before(rn, emptyLoop).dummy
    ensures |r.results| == |rn.results| + 1 && r.results[..|rn.results|] == rn.results
    ensures r.results[|rn.results|] == Net(text, body, r.dummy)
  {
    var rn1 := Before(rn, emptyLoop);
    var rec := Net(text, body, rn1.dummy);
    assert (rn1.results + [rec])[..|rn.results|] == rn.results;
    rn1.(results := rn1.results + [rec])
  }

  /** With a loop count above one the empty loop is subtracted from every
      time; it is measured once, at the first `bench`, and later calls
      reuse it.  With a loop count of one nothing is subtracted. */
  lemma BenchSubtractsEmptyLoop(rn: Runner, text: string, e1: Sample, b1: Sample, text2: string, e2: Sample, b2: Sample)
    requires rn.dummy.None?
    ensures var r1 := Bench(rn, text, e1, b1);
      var r2 := Bench(r1, text2, e2, b2);
      && (rn.loop > 1 ==>
        && r1.results[|rn.results|] == Record(Some(text), b1.user - e1.user, b1.sys - e1.sys, b1.realTime - e1.realTime)
        && r2.results[|rn.results| + 1] == Record(Some(text2), b2.user - e1.user, b2.sys - e1.sys, b2.realTime - e1.realTime))
      && (rn.loop <= 1 ==>
        && r1.results[|rn.results|] == Record(Some(text), b1.user, b1.sys, b1.realTime)
        && r2.results[|rn.results| + 1] == Record(Some(text2), b2.user, b2.sys, b2.realTime))
  {
  }

  /** One call the block makes to `bench`, with its clock readings. */
  datatype Call = Call(text: string, emptyLoop: Sample, body: Sample)

  function RunCalls(rn: Runner, calls: seq<Call>): (r: Runner)
    ensures r.loop == rn.loop
    ensures |r.results| == |rn.results| + |calls|
    ensures r.results[..|rn.results|] == rn.results
    ensures rn.dummy.Some? ==> r.dummy == rn.dummy
    decreases |calls|
  {
    if |calls| == 0 then rn
    else
      var r1 := Bench(rn, calls[0].text, calls[0].emptyLoop, calls[0].body);
      var r := RunCalls(r1, calls[1..]);
      assert r.results[..|rn.results|] == r.results[..|r1.results|][..|rn.results|];
      r
  }

  /** The results of one round of `repeat`: the block's calls from a reset
      runner, one result per call, labelled with its text. */
  function RoundRecords(loop: int, calls: seq<Call>): (rs: seq<Record>)
    ensures |rs| == |calls|
    ensures forall k :: 0 <= k < |calls| ==> rs[k].name == Some(calls[k].text)
  {
    RunCallsLabels(Reset(loop), calls);
    RunCalls(Reset(loop), calls).results
  }

  lemma {:induction false} RunCallsLabels(rn: Runner, calls: seq<Call>)
    ensures var r := RunCalls(rn, calls);
      forall k :: 0 <= k < |calls| ==> r.results[|rn.results| + k].name == Some(calls[k].text)
    decreases |calls|
  {
    if |calls| > 0 {
      var r1 := Bench(rn, calls[0].text, calls[0].emptyLoop, calls[0].body);
      RunCallsLabels(r1, calls[1..]);
      var r := RunCalls(rn, calls);
      forall k | 0 <= k < |calls|
        ensures r.results[|rn.results| + k].name == Some(calls[k].text)
      {
        if k > 0 {
          assert calls[k] == calls[1..][k - 1];
        } else {
          assert r.results[|rn.results|] == r.results[..|r1.results|][|rn.results|];
        }
      }
    }
  }

  /** In every round, each result is its sample less the empty loop the
      round's first `bench` measured (when the loop count exceeds one). */
  lemma RoundRecordsNet(loop: int, calls: seq<Call>)
    requires |calls| > 0
    ensures var rs := RoundRecords(loop, calls);
      var dummy := if loop > 1 then Some(EmptyLoop(calls[0].emptyLoop)) else None;
      && |rs| == |calls|
      && forall k :: 0 <= k < |calls| ==> rs[k] == Net(calls[k].text, calls[k].body, dummy)
  {
    var dummy := if loop > 1 then Some(EmptyLoop(calls[0].emptyLoop)) else None;
    var r1 := Bench(Reset(loop), calls[0].text, calls[0].emptyLoop, calls[0].body);
    assert r1.dummy == dummy;
    RunCallsNet(r1, calls[1..], dummy);
    var rs := RoundRecords(loop, calls);
    forall k | 0 <= k < |calls|
      ensures rs[k] == Net(calls[k].text, calls[k].body, dummy)
    {
      if k > 0 {
        assert calls[k] == calls[1..][k - 1];
      } else {
        assert rs[0] == rs[..1][0];
      }
    }
  }

  lemma {:induction false} RunCallsNet(rn: Runner, calls: seq<Call>, dummy: Option<Record>)
    requires rn.dummy == dummy && (dummy.Some? || rn.loop <= 1)
    ensures var r := RunCalls(rn, calls);
      && r.dummy == dummy
      && forall k :: 0 <= k < |calls| ==> r.results[|rn.results| + k] == Net(calls[k].text, calls[k].body, dummy)
    decreases |calls|
  {
    if |calls| > 0 {
      var r1 := Bench(rn, calls[0].text, calls[0].emptyLoop, calls[0].body);
      RunCallsNet(r1, calls[1..], dummy);
      var r := RunCalls(rn, calls);
      forall k | 0 <= k < |calls|
        ensures r.results[|rn.results| + k] == Net(calls[k].text, calls[k].body, dummy)
      {
        if k > 0 {
          assert calls[k] == calls[1..][k - 1];
        } else {
          assert r.results[|rn.results|] == r.results[..|r1.results|][|rn.results|];
        }
      }
    }
  }

  // ---------------------------------------------------------------------
  // Columns: `(@results_matrix[j] ||= []) << r`

  /** Column `j`: the `j`-th result of every round that has one, in round
      order. */
  function Column(rounds: seq<seq<Record>>, j: nat): (col: seq<Record>)
    ensures |col| <= |rounds|
    decreases |rounds|
  {
    if |rounds| == 0 then []
    else (if j < |rounds[0]| then [rounds[0][j]] else []) + Column(rounds[1..], j)
  }

  /** The number of columns: the most results any round produced. */
  function Width(rounds: seq<seq<Record>>): (w: nat)
    ensures forall i :: 0 <= i < |rounds| ==> |rounds[i]| <= w
    ensures |rounds| > 0 ==> exists i :: 0 <= i < |rounds| && |rounds[i]| == w
    ensures |rounds| == 0 ==> w == 0
    decreases |rounds|
  {
    if |rounds| == 0 then 0
    else
      var w := Width(rounds[1..]);
      assert forall i :: 0 < i < |rounds| ==> rounds[i] == rounds[1..][i - 1];
      if |rounds[0]| >= w then |rounds[0]| else w
  }

  function Columns(rounds: seq<seq<Record>>): (cols: seq<seq<Record>>)
    ensures |cols| == Width(rounds)
    ensures forall j :: 0 <= j < |cols| ==> cols[j] == Column(rounds, j)
  {
    seq(Width(rounds), j requires 0 <= j < Width(rounds) => Column(rounds, j))
  }

  /** When every round produces the same number of results, column `j`
      holds exactly the `j`-th result of each round. */
  lemma {:induction false} UniformColumn(rounds: seq<seq<Record>>, m: nat, j: nat)
    requires j < m && forall i :: 0 <= i < |rounds| ==> |rounds[i]| == m
    ensures Column(rounds, j) == seq(|rounds|, i requires 0 <= i < |rounds| => rounds[i][j])
    decreases |rounds|
  {
    if |rounds| > 0 {
      UniformColumn(rounds[1..], m, j);
    }
  }

  lemma UniformWidth(rounds: seq<seq<Record>>, m: nat)
    requires |rounds| > 0 && forall i :: 0 <= i < |rounds| ==> |rounds[i]| == m
    ensures Width(rounds) == m
  {
  }

  // ---------------------------------------------------------------------
  // Trimming: `extra` rounds of `minmax_by` and `delete`

  /** What trimming a column produced: the kept results in their column
      order, the removed ones, and the key values reported as min and max
      in each trimming round. */
  datatype Trimming = Trimming(kept: seq<Record>, removed: seq<Record>, mins: seq<real>, maxs: seq<real>)

  predicate IsMinAt(s: seq<Record>, p: nat, key: Key) {
    p < |s| && forall i :: 0 <= i < |s| ==> Measure(s[p], key) <= Measure(s[i], key)
  }

  predicate IsMaxAt(s: seq<Record>, q: nat, key: Key) {
    q < |s| && forall i :: 0 <= i < |s| ==> Measure(s[i], key) <= Measure(s[q], key)
  }

  /** Every result of `s` has the same key. */
  predicate SameKeys(s: seq<Record>, key: Key) {
    forall i :: 0 <= i < |s| ==> Measure(s[i], key) == Measure(s[0], key)
  }

  /** No two results of `s` have the same key. */
  predicate DistinctKeys(s: seq<Record>, key: Key) {
    forall i, j :: 0 <= i < j < |s| ==> Measure(s[i], key) != Measure(s[j], key)
  }

  /** A column long enough for `extra` rounds that each remove two
      results: every round finds at least one. */
  predicate Trimmable(n: nat, extra: nat) {
    extra == 0 || n > 2 * (extra - 1)
  }

  function KeptCount(n: nat, extra: nat): nat {
    if n >= 2 * extra then n - 2 * extra else 0
  }

  /** The results removed by rounds with these mins and maxes: a round
      whose min is its max removed one result, any other round two. */
  function Removals(mins: seq<real>, maxs: seq<real>): nat
    requires |mins| == |maxs|
    decreases |mins|
  {
    if |mins| == 0 then 0
    else Removals(mins[..|mins| - 1], maxs[..|maxs| - 1]) + (if mins[|mins| - 1] == maxs[|maxs| - 1] then 1 else 2)
  }

  lemma RemovalsExtend(mins: seq<real>, maxs: seq<real>, lo: real, hi: real)
    requires |mins| == |maxs|
    ensures Removals(mins + [lo], maxs + [hi]) == Removals(mins, maxs) + (if lo == hi then 1 else 2)
  {
    assert (mins + [lo])[..|mins|] == mins;
    assert (maxs + [hi])[..|maxs|] == maxs;
  }

  /** The promise of trimming: the kept results are a subsequence of the
      column, and kept and removed together are the column; each round
      removed two results, or one when its min was its max; the first
      result a round removed has that round's min as key and the last its
      max, and every result still present at a round (the kept ones and
      those later rounds removed) lies within its min and max; mins never
      fall and maxes never rise from round to round.  A column with
      distinct keys loses two results a round while two are left, and one
      whose keys all agree loses one a round. */
  ghost predicate Trimmed(col: seq<Record>, t: Trimming, extra: nat, key: Key) {
    && IsSubsequence(t.kept, col)
    && multiset(t.kept) + multiset(t.removed) == multiset(col)
    && |t.mins| == extra && |t.maxs| == extra
    && |t.removed| == Removals(t.mins, t.maxs)
    && Bracketed(t.kept, t.mins, t.maxs, key)
    && Pinned(t.removed, t.mins, t.maxs, key)
    && Monotone(t.mins, t.maxs)
    && (DistinctKeys(col, key) ==> |t.kept| == KeptCount(|col|, extra))
    && (SameKeys(col, key) ==> |t.kept| + extra == |col|)
  }

  ghost predicate Bracketed(s: seq<Record>, mins: seq<real>, maxs: seq<real>, key: Key) {
    |mins| == |maxs| &&
    forall k, i :: 0 <= k < |mins| && 0 <= i < |s| ==> mins[k] <= Measure(s[i], key) <= maxs[k]
  }

  /** Where round `k`'s removals start in `removed`: after those of the
      rounds before it. */
  function RoundStart(mins: seq<real>, maxs: seq<real>, k: nat): nat
    requires |mins| == |maxs| && k <= |mins|
  {
    Removals(mins[..k], maxs[..k])
  }

  /** Round `k` removed `removed[s .. e]`, whose first result has the
      round's min as key and whose last has its max, and every result
      removed from then on lies within that min and max. */
  ghost predicate RoundPinned(removed: seq<Record>, mins: seq<real>, maxs: seq<real>, k: nat, key: Key)
    requires |mins| == |maxs| && k < |mins|
  {
    var s, e := RoundStart(mins, maxs, k), RoundStart(mins, maxs, k + 1);
    && s < e <= |removed|
    && Measure(removed[s], key) == mins[k]
    && Measure(removed[e - 1], key) == maxs[k]
    && forall i :: s <= i < |removed| ==> mins[k] <= Measure(removed[i], key) <= maxs[k]
  }

  ghost predicate Pinned(removed: seq<Record>, mins: seq<real>, maxs: seq<real>, key: Key) {
    && |mins| == |maxs|
    && forall k :: 0 <= k < |mins| ==> RoundPinned(removed, mins, maxs, k, key)
  }

  /** A round whose removals `gone` start with its min `lo` and end with
      its max `hi`, all within them, and whose min and max lie within
      every earlier round's, keeps every round pinned. */
  lemma PinStep(removed: seq<Record>, mins: seq<real>, maxs: seq<real>, key: Key, gone: seq<Record>, lo: real, hi: real)
    requires Pinned(removed, mins, maxs, key) && |removed| == Removals(mins, maxs)
    requires |gone| == (if lo == hi then 1 else 2)
    requires Measure(gone[0], key) == lo && Measure(gone[|gone| - 1], key) == hi
    requires forall i :: 0 <= i < |gone| ==> lo <= Measure(gone[i], key) <= hi
    requires forall k :: 0 <= k < |mins| ==> mins[k] <= lo && hi <= maxs[k]
    ensures Pinned(removed + gone, mins + [lo], maxs + [hi], key)
  {
    var m := mins + [lo];
    forall k | 0 <= k < |m|
      ensures RoundPinned(removed + gone, m, maxs + [hi], k, key)
    {
      if k < |mins| {
        PinEarlier(removed, mins, maxs, key, gone, lo, hi, k);
      } else {
        PinLatest(removed, mins, maxs, key, gone, lo, hi);
      }
    }
  }

  lemma PinEarlier(removed: seq<Record>, mins: seq<real>, maxs: seq<real>, key: Key, gone: seq<Record>, lo: real, hi: real, k: nat)
    requires |mins| == |maxs| && k < |mins| && |removed| == Removals(mins, maxs)
    requires RoundPinned(removed, mins, maxs, k, key)
    requires forall i :: 0 <= i < |gone| ==> lo <= Measure(gone[i], key) <= hi
    requires mins[k] <= lo && hi <= maxs[k]
    ensures RoundPinned(removed + gone, mins + [lo], maxs + [hi], k, key)
  {
    var r, m, x := removed + gone, mins + [lo], maxs + [hi];
    var s, e := RoundStart(mins, maxs, k), RoundStart(mins, maxs, k + 1);
    assert RoundStart(m, x, k) == s by {
      assert m[..k] == mins[..k] && x[..k] == maxs[..k];
    }
    assert RoundStart(m, x, k + 1) == e by {
      assert m[..k + 1] == mins[..k + 1] && x[..k + 1] == maxs[..k + 1];
    }
    RoundWithin(removed, mins, maxs, k);
    assert r[s] == removed[s] && r[e - 1] == removed[e - 1];
    forall i | s <= i < |r|
      ensures mins[k] <= Measure(r[i], key) <= maxs[k]
    {
      if i >= |removed| {
        assert r[i] == gone[i - |removed|];
      } else {
        assert r[i] == removed[i];
      }
    }
    assert m[k] == mins[k] && x[k] == maxs[k];
  }

  lemma PinLatest(removed: seq<Record>, mins: seq<real>, maxs: seq<real>, key: Key, gone: seq<Record>, lo: real, hi: real)
    requires |mins| == |maxs| && |removed| == Removals(mins, maxs)
    requires |gone| == (if lo == hi then 1 else 2)
    requires Measure(gone[0], key) == lo && Measure(gone[|gone| - 1], key) == hi
    requires forall i :: 0 <= i < |gone| ==> lo <= Measure(gone[i], key) <= hi
    ensures RoundPinned(removed + gone, mins + [lo], maxs + [hi], |mins|, key)
  {
    var r, m, x, k := removed + gone, mins + [lo], maxs + [hi], |mins|;
    assert m[..k] == mins && x[..k] == maxs;
    assert m[..k + 1] == m && x[..k + 1] == x;
    RemovalsExtend(mins, maxs, lo, hi);
    assert r[|removed|] == gone[0];
    assert r[|r| - 1] == gone[|gone| - 1];
    forall i | RoundStart(m, x, k) <= i < |r|
      ensures m[k] <= Measure(r[i], key) <= x[k]
    {
      assert r[i] == gone[i - |removed|];
    }
  }

  /** An earlier round's removals end before the last round's do. */
  lemma RoundWithin(removed: seq<Record>, mins: seq<real>, maxs: seq<real>, k: nat)
    requires |mins| == |maxs| && k < |mins|
    ensures RoundStart(mins, maxs, k + 1) <= Removals(mins, maxs)
    decreases |mins|
  {
    var n := |mins|;
    assert mins[..n] == mins && maxs[..n] == maxs;
    if k + 1 < n {
      var m', x' := mins[..n - 1], maxs[..n - 1];
      assert m'[..k + 1] == mins[..k + 1] && x'[..k + 1] == maxs[..k + 1];
      RoundWithin(removed, m', x', k);
    }
  }

  function KeyName(key: Key): string {
    match key
    case UserKey => "user"
    case SysKey => "sys"
    case TotalKey => "total"
    case RealKey => "real"
  }

  function Remove<T>(s: seq<T>, i: nat): (r: seq<T>)
    requires i < |s|
    ensures |r| == |s| - 1
    ensures forall j :: 0 <= j < |r| ==> r[j] == s[if j < i then j else j + 1]
    ensures multiset(r) + multiset{s[i]} == multiset(s)
  {
    assert s == s[..i] + [s[i]] + s[i + 1..];
    s[..i] + s[i + 1..]
  }

  lemma RemoveEmbeds(idx: seq<nat>, r: seq<Record>, s: seq<Record>, i: nat)
    requires Embeds(idx, r, s) && i < |r|
    ensures Embeds(Remove(idx, i), Remove(r, i), s)
  {
  }

  lemma RemoveBracketed(s: seq<Record>, i: nat, mins: seq<real>, maxs: seq<real>, key: Key)
    requires i < |s| && Bracketed(s, mins, maxs, key)
    ensures Bracketed(Remove(s, i), mins, maxs, key)
  {
    var r := Remove(s, i);
    forall k, j | 0 <= k < |mins| && 0 <= j < |r|
      ensures mins[k] <= Measure(r[j], key) <= maxs[k]
    {
      assert r[j] == s[if j < i then j else j + 1];
    }
  }

  ghost predicate Monotone(mins: seq<real>, maxs: seq<real>) {
    forall k, k' :: 0 <= k < k' < |mins| && k' < |maxs| ==> mins[k] <= mins[k'] && maxs[k'] <= maxs[k]
  }

  /** The state of trimming after `round` rounds: where the survivors sit
      and what the rounds removed. */
  ghost predicate Partial(col: seq<Record>, idx: seq<nat>, t: Trimming, round: nat, key: Key) {
    Placed(col, idx, t, key) && Counted(col, t, round, key) && Pinned(t.removed, t.mins, t.maxs, key)
  }

  /** `idx` places the surviving results in the column; survivors and
      removed results are the column; the brackets hold. */
  ghost predicate Placed(col: seq<Record>, idx: seq<nat>, t: Trimming, key: Key) {
    && Embeds(idx, t.kept, col)
    && multiset(t.kept) + multiset(t.removed) == multiset(col)
    && Bracketed(t.kept, t.mins, t.maxs, key)
    && Monotone(t.mins, t.maxs)
  }

  /** How many results `round` rounds removed. */
  ghost predicate Counted(col: seq<Record>, t: Trimming, round: nat, key: Key) {
    && |t.kept| + |t.removed| == |col|
    && |t.mins| == round && |t.maxs| == round
    && round <= |t.removed| <= 2 * round
    && |t.removed| == Removals(t.mins, t.maxs)
    && (DistinctKeys(col, key) ==> |t.kept| == KeptCount(|col|, round) && Trimmable(|col|, round))
    && (SameKeys(col, key) ==> |t.kept| + round == |col|)
  }

  /** A round that removes `gone` results, one exactly when its min is its
      max, keeps the counts: two only when the keys differ (so the column's
      keys do not all agree), and one only when a single result is left if
      the column's keys are distinct. */
  lemma CountStep(col: seq<Record>, t: Trimming, t': Trimming, round: nat, key: Key, lo: real, hi: real)
    requires Counted(col, t, round, key)
    requires t'.mins == t.mins + [lo] && t'.maxs == t.maxs + [hi]
    requires var gone := if lo == hi then 1 else 2;
      |t.kept| >= gone && |t'.kept| == |t.kept| - gone && |t'.removed| == |t.removed| + gone
    requires lo != hi ==> !SameKeys(col, key)
    requires lo == hi ==> (DistinctKeys(col, key) ==> |t.kept| == 1)
    ensures Counted(col, t', round + 1, key)
  {
    RemovalsExtend(t.mins, t.maxs, lo, hi);
  }

  lemma Extend(mins: seq<real>, maxs: seq<real>, lo: real, hi: real)
    requires Monotone(mins, maxs) && |mins| == |maxs|
    requires forall k :: 0 <= k < |mins| ==> mins[k] <= lo && hi <= maxs[k]
    ensures Monotone(mins + [lo], maxs + [hi])
  {
    var m, x := mins + [lo], maxs + [hi];
    forall k, k' | 0 <= k < k' < |m| && k' < |x|
      ensures m[k] <= m[k'] && x[k'] <= x[k]
    {
      if k' < |mins| {
        assert m[k] == mins[k] && m[k'] == mins[k'] && x[k] == maxs[k] && x[k'] == maxs[k'];
      }
    }
  }

  /** Results kept from a column keep its key shape. */
  lemma KeyShapesKept(idx: seq<nat>, kept: seq<Record>, col: seq<Record>, key: Key)
    requires Embeds(idx, kept, col)
    ensures SameKeys(col, key) ==> SameKeys(kept, key)
    ensures DistinctKeys(col, key) ==> DistinctKeys(kept, key)
  {
  }

  /** Removes positions `p` and `q`, the later one first. */
  function RemovePair<T>(s: seq<T>, p: nat, q: nat): (r: seq<T>)
    requires p < |s| && q < |s| && p != q
    ensures |r| == |s| - 2
  {
    if p > q then Remove(Remove(s, p), q) else Remove(Remove(s, q), p)
  }

  /** `minmax_by`: a result with the least key and one with the greatest.
      The two are the same result, the first, exactly when all keys agree;
      which of several tied results is chosen otherwise is left open. */
  method MinMaxBy(alive: seq<Record>, key: Key) returns (p: nat, q: nat)
    requires |alive| >= 1
    ensures IsMinAt(alive, p, key) && IsMaxAt(alive, q, key)
    ensures p == q <==> SameKeys(alive, key)
    ensures SameKeys(alive, key) ==> p == 0
  {
    var p0 := ArgMin(alive, key);
    var q0 := ArgMax(alive, key);
    if Measure(alive[p0], key) == Measure(alive[q0], key) {
      forall i | 0 <= i < |alive|
        ensures Measure(alive[i], key) == Measure(alive[p0], key)
      {
        assert Measure(alive[p0], key) <= Measure(alive[i], key) <= Measure(alive[q0], key);
      }
      assert Measure(alive[0], key) == Measure(alive[p0], key);
      p, q := 0, 0;
    } else {
      var lo: nat :| IsMinAt(alive, lo, key);
      var hi: nat :| IsMaxAt(alive, hi, key);
      assert IsMinAt(alive, lo, key) && IsMaxAt(alive, hi, key);
      assert Measure(alive[lo], key) == Measure(alive[p0], key) && Measure(alive[hi], key) == Measure(alive[q0], key);
      assert !SameKeys(alive, key) by {
        assert Measure(alive[p0], key) != Measure(alive[q0], key);
      }
      p, q := lo, hi;
    }
  }

  lemma PairEmbeds(idx: seq<nat>, r: seq<Record>, s: seq<Record>, p: nat, q: nat)
    requires Embeds(idx, r, s) && p < |r| && q < |r| && p != q
    ensures Embeds(RemovePair(idx, p, q), RemovePair(r, p, q), s)
  {
    var first := if p > q then p else q;
    var second := if p > q then q else p;
    RemoveEmbeds(idx, r, s, first);
    RemoveEmbeds(Remove(idx, first), Remove(r, first), s, second);
  }

  lemma PairMultiset(s: seq<Record>, p: nat, q: nat)
    requires p < |s| && q < |s| && p != q
    ensures multiset(RemovePair(s, p, q)) + multiset([s[p], s[q]]) == multiset(s)
  {
    var first := if p > q then p else q;
    var second := if p > q then q else p;
    var a1 := Remove(s, first);
    assert a1[second] == s[second];
    assert multiset([s[p], s[q]]) == multiset{s[first]} + multiset{s[second]};
  }

  lemma PairBracketed(s: seq<Record>, p: nat, q: nat, mins: seq<real>, maxs: seq<real>, key: Key)
    requires p < |s| && q < |s| && p != q && Bracketed(s, mins, maxs, key)
    ensures Bracketed(RemovePair(s, p, q), mins, maxs, key)
  {
    var first := if p > q then p else q;
    var second := if p > q then q else p;
    RemoveBracketed(s, first, mins, maxs, key);
    RemoveBracketed(Remove(s, first), second, mins, maxs, key);
  }

  /** A round's min and max bracket the results they were taken from, and
      lie within every earlier round's bracket. */
  lemma BracketExtend(s: seq<Record>, mins: seq<real>, maxs: seq<real>, p: nat, q: nat, key: Key)
    requires Bracketed(s, mins, maxs, key) && IsMinAt(s, p, key) && IsMaxAt(s, q, key)
    ensures Bracketed(s, mins + [Measure(s[p], key)], maxs + [Measure(s[q], key)], key)
    ensures forall k :: 0 <= k < |mins| ==> mins[k] <= Measure(s[p], key) && Measure(s[q], key) <= maxs[k]
  {
  }

  /** Removing a minimum and a different maximum, when the keys do not all
      agree, keeps the trimming promise for one more round. */
  lemma PairStep(col: seq<Record>, idx: seq<nat>, t: Trimming, round: nat, key: Key, p: nat, q: nat)
    requires Partial(col, idx, t, round, key)
    requires IsMinAt(t.kept, p, key) && IsMaxAt(t.kept, q, key)
    requires Measure(t.kept[p], key) < Measure(t.kept[q], key)
    ensures p != q
    ensures var lo, hi := Measure(t.kept[p], key), Measure(t.kept[q], key);
      Partial(col, RemovePair(idx, p, q),
        Trimming(RemovePair(t.kept, p, q), t.removed + [t.kept[p], t.kept[q]], t.mins + [lo], t.maxs + [hi]),
        round + 1, key)
  {
    var alive := t.kept;
    var lo, hi := Measure(alive[p], key), Measure(alive[q], key);
    var t' := Trimming(RemovePair(alive, p, q), t.removed + [alive[p], alive[q]], t.mins + [lo], t.maxs + [hi]);
    PairPlaced(col, idx, t, key, p, q);
    PairShapes(col, idx, alive, key, p, q);
    CountStep(col, t, t', round, key, lo, hi);
    PairPinned(t, key, p, q);
  }

  lemma PairPlaced(col: seq<Record>, idx: seq<nat>, t: Trimming, key: Key, p: nat, q: nat)
    requires Placed(col, idx, t, key)
    requires IsMinAt(t.kept, p, key) && IsMaxAt(t.kept, q, key) && p != q
    ensures var lo, hi := Measure(t.kept[p], key), Measure(t.kept[q], key);
      Placed(col, RemovePair(idx, p, q),
        Trimming(RemovePair(t.kept, p, q), t.removed + [t.kept[p], t.kept[q]], t.mins + [lo], t.maxs + [hi]), key)
  {
    PairKeepsColumn(col, idx, t, p, q);
    PairKeepsBounds(t, key, p, q);
  }

  lemma PairKeepsColumn(col: seq<Record>, idx: seq<nat>, t: Trimming, p: nat, q: nat)
    requires Embeds(idx, t.kept, col) && multiset(t.kept) + multiset(t.removed) == multiset(col)
    requires p < |t.kept| && q < |t.kept| && p != q
    ensures Embeds(RemovePair(idx, p, q), RemovePair(t.kept, p, q), col)
    ensures multiset(RemovePair(t.kept, p, q)) + multiset(t.removed + [t.kept[p], t.kept[q]]) == multiset(col)
  {
    var alive := t.kept;
    PairEmbeds(idx, alive, col, p, q);
    PairMultiset(alive, p, q);
    assert multiset(t.removed + [alive[p], alive[q]]) == multiset(t.removed) + multiset([alive[p], alive[q]]);
  }

  lemma PairKeepsBounds(t: Trimming, key: Key, p: nat, q: nat)
    requires Bracketed(t.kept, t.mins, t.maxs, key) && Monotone(t.mins, t.maxs)
    requires IsMinAt(t.kept, p, key) && IsMaxAt(t.kept, q, key) && p != q
    ensures var lo, hi := Measure(t.kept[p], key), Measure(t.kept[q], key);
      Bracketed(RemovePair(t.kept, p, q), t.mins + [lo], t.maxs + [hi], key) && Monotone(t.mins + [lo], t.maxs + [hi])
  {
    var alive := t.kept;
    var lo, hi := Measure(alive[p], key), Measure(alive[q], key);
    BracketExtend(alive, t.mins, t.maxs, p, q, key);
    Extend(t.mins, t.maxs, lo, hi);
    PairBracketed(alive, p, q, t.mins + [lo], t.maxs + [hi], key);
  }

  lemma PairPinned(t: Trimming, key: Key, p: nat, q: nat)
    requires Pinned(t.removed, t.mins, t.maxs, key) && |t.removed| == Removals(t.mins, t.maxs)
    requires Bracketed(t.kept, t.mins, t.maxs, key)
    requires IsMinAt(t.kept, p, key) && IsMaxAt(t.kept, q, key)
    requires Measure(t.kept[p], key) < Measure(t.kept[q], key)
    ensures var lo, hi := Measure(t.kept[p], key), Measure(t.kept[q], key);
      Pinned(t.removed + [t.kept[p], t.kept[q]], t.mins + [lo], t.maxs + [hi], key)
  {
    var alive := t.kept;
    BracketExtend(alive, t.mins, t.maxs, p, q, key);
    PinStep(t.removed, t.mins, t.maxs, key, [alive[p], alive[q]], Measure(alive[p], key), Measure(alive[q], key));
  }

  /** A column whose keys all agree never reaches a round with two
      different keys; one with distinct keys leaves at least two results
      at such a round. */
  lemma PairShapes(col: seq<Record>, idx: seq<nat>, alive: seq<Record>, key: Key, p: nat, q: nat)
    requires Embeds(idx, alive, col) && p < |alive| && q < |alive|
    requires Measure(alive[p], key) != Measure(alive[q], key)
    ensures !SameKeys(col, key) && |alive| >= 2
  {
    KeyShapesKept(idx, alive, col, key);
  }

  /** A round over results that all share one key: `minmax_by` gives the
      first of them as both min and max, and deleting it twice removes it
      once. */
  lemma FirstStep(col: seq<Record>, idx: seq<nat>, t: Trimming, round: nat, key: Key)
    requires Partial(col, idx, t, round, key) && |t.kept| >= 1 && SameKeys(t.kept, key)
    ensures var v := Measure(t.kept[0], key);
      Partial(col, Remove(idx, 0), Trimming(Remove(t.kept, 0), t.removed + [t.kept[0]], t.mins + [v], t.maxs + [v]), round + 1, key)
  {
    var alive := t.kept;
    var v := Measure(alive[0], key);
    assert IsMinAt(alive, 0, key) && IsMaxAt(alive, 0, key);
    RemoveEmbeds(idx, alive, col, 0);
    BracketExtend(alive, t.mins, t.maxs, 0, 0, key);
    Extend(t.mins, t.maxs, v, v);
    RemoveBracketed(alive, 0, t.mins + [v], t.maxs + [v], key);
    KeyShapesKept(idx, alive, col, key);
    assert DistinctKeys(alive, key) ==> |alive| == 1 by {
      if |alive| >= 2 {
        assert Measure(alive[1], key) == Measure(alive[0], key);
      }
    }
    assert multiset(t.removed + [alive[0]]) == multiset(t.removed) + multiset{alive[0]};
    var t' := Trimming(Remove(alive, 0), t.removed + [alive[0]], t.mins + [v], t.maxs + [v]);
    CountStep(col, t, t', round, key, v, v);
    FirstPinned(t, key);
  }

  lemma FirstPinned(t: Trimming, key: Key)
    requires Pinned(t.removed, t.mins, t.maxs, key) && |t.removed| == Removals(t.mins, t.maxs)
    requires Bracketed(t.kept, t.mins, t.maxs, key) && |t.kept| >= 1
    ensures var v := Measure(t.kept[0], key);
      Pinned(t.removed + [t.kept[0]], t.mins + [v], t.maxs + [v], key)
  {
    var v := Measure(t.kept[0], key);
    PinStep(t.removed, t.mins, t.maxs, key, [t.kept[0]], v, v);
  }

  /** The first trimming round takes the column's least and greatest
      keys: every result of the column lies within them, and the first
      and last results the round removed carry them. */
  lemma FirstRoundExtremes(col: seq<Record>, t: Trimming, extra: nat, key: Key)
    requires Trimmed(col, t, extra, key) && extra >= 1
    ensures forall i :: 0 <= i < |col| ==> t.mins[0] <= Measure(col[i], key) <= t.maxs[0]
    ensures var e := RoundStart(t.mins, t.maxs, 1);
      0 < e <= |t.removed| && t.removed[0] in col && t.removed[e - 1] in col
      && Measure(t.removed[0], key) == t.mins[0] && Measure(t.removed[e - 1], key) == t.maxs[0]
  {
    assert RoundPinned(t.removed, t.mins, t.maxs, 0, key);
    assert t.mins[..0] == [] && t.maxs[..0] == [];
    var e := RoundStart(t.mins, t.maxs, 1);
    assert multiset(col)[t.removed[0]] > 0 && multiset(col)[t.removed[e - 1]] > 0 by {
      assert t.removed[0] in multiset(t.removed) && t.removed[e - 1] in multiset(t.removed);
    }
    forall i | 0 <= i < |col|
      ensures t.mins[0] <= Measure(col[i], key) <= t.maxs[0]
    {
      assert col[i] in multiset(col);
      if col[i] in multiset(t.kept) {
        var j :| 0 <= j < |t.kept| && t.kept[j] == col[i];
      } else {
        assert col[i] in multiset(t.removed);
        var j :| 0 <= j < |t.removed| && t.removed[j] == col[i];
      }
    }
  }

  /** One round over a column of at least two distinct keys removes two
      results: first one with the column's least key, then one with its
      greatest. */
  lemma OneRoundOfDistinct(col: seq<Record>, t: Trimming, key: Key)
    requires Trimmed(col, t, 1, key) && DistinctKeys(col, key) && |col| >= 2
    ensures |t.removed| == 2 && |t.kept| == |col| - 2
    ensures t.removed[0] in col && t.removed[1] in col
    ensures forall i :: 0 <= i < |col| ==> Measure(t.removed[0], key) <= Measure(col[i], key) <= Measure(t.removed[1], key)
    ensures multiset(t.kept) + multiset(t.removed) == multiset(col)
  {
    FirstRoundExtremes(col, t, 1, key);
    assert t.mins[..1] == t.mins && t.maxs[..1] == t.maxs;
    assert |multiset(t.kept)| + |multiset(t.removed)| == |multiset(col)|;
  }

  lemma IncreasingDistinct(col: seq<Record>, key: Key)
    requires forall i :: 0 < i < |col| ==> Measure(col[i - 1], key) < Measure(col[i], key)
    ensures DistinctKeys(col, key)
  {
    forall i, j | 0 <= i < j < |col|
      ensures Measure(col[i], key) < Measure(col[j], key)
    {
      var k := i + 1;
      while k < j
        invariant i < k <= j && Measure(col[i], key) < Measure(col[k], key)
      {
        k := k + 1;
      }
    }
  }

  /** For four results with increasing keys, one round removes exactly
      the first and the last and keeps the middle two. */
  lemma KeepsTheMiddle(a: Record, b: Record, c: Record, d: Record, t: Trimming, key: Key)
    requires Measure(a, key) < Measure(b, key) < Measure(c, key) < Measure(d, key)
    requires Trimmed([a, b, c, d], t, 1, key)
    ensures t.removed == [a, d]
    ensures multiset(t.kept) == multiset{b, c}
  {
    var col := [a, b, c, d];
    IncreasingDistinct(col, key);
    OneRoundOfDistinct(col, t, key);
    assert Measure(t.removed[0], key) <= Measure(col[0], key) && Measure(col[3], key) <= Measure(t.removed[1], key);
    assert t.removed == [t.removed[0], t.removed[1]];
    assert multiset(t.removed) == multiset{a, d};
  }

  /** One trimming round on a column with at least one result left: the
      min and max results are deleted, once if they are the same result. */
  method TrimOnce(ghost col: seq<Record>, ghost idx: seq<nat>, t: Trimming, ghost round: nat, key: Key)
    returns (t': Trimming, ghost idx': seq<nat>)
    requires Partial(col, idx, t, round, key) && |t.kept| >= 1
    ensures Partial(col, idx', t', round + 1, key)
    ensures |t'.mins| == |t.mins| + 1 && t'.mins[..|t.mins|] == t.mins
    ensures |t'.maxs| == |t.maxs| + 1 && t'.maxs[..|t.maxs|] == t.maxs
    ensures t'.removed[..|t.removed|] == t.removed
    ensures |t'.kept| + |t'.removed| == |t.kept| + |t.removed|
    ensures |t.kept| - 2 <= |t'.kept| < |t.kept|
    ensures Measure(t'.removed[|t.removed|], key) == t'.mins[|t.mins|] <= t'.maxs[|t.maxs|]
    ensures Measure(t'.removed[|t'.removed| - 1], key) == t'.maxs[|t.maxs|]
  {
    var p, q := MinMaxBy(t.kept, key);
    if p == q {
      FirstStep(col, idx, t, round, key);
      var v := Measure(t.kept[0], key);
      t' := Trimming(Remove(t.kept, 0), t.removed + [t.kept[0]], t.mins + [v], t.maxs + [v]);
      idx' := Remove(idx, 0);
    } else {
      PairStep(col, idx, t, round, key, p, q);
      t' := Trimming(RemovePair(t.kept, p, q), t.removed + [t.kept[p], t.kept[q]],
                     t.mins + [Measure(t.kept[p], key)], t.maxs + [Measure(t.kept[q], key)]);
      idx' := RemovePair(idx, p, q);
    }
  }

  function ArgMin(s: seq<Record>, key: Key): (p: nat)
    requires |s| > 0
    ensures IsMinAt(s, p, key)
    decreases |s|
  {
    if |s| == 1 then 0
    else
      var p := ArgMin(s[1..], key);
      if Measure(s[0], key) <= Measure(s[1..][p], key) then 0 else p + 1
  }

  function ArgMax(s: seq<Record>, key: Key): (q: nat)
    requires |s| > 0
    ensures IsMaxAt(s, q, key)
    decreases |s|
  {
    if |s| == 1 then 0
    else
      var q := ArgMax(s[1..], key);
      if Measure(s[1..][q], key) <= Measure(s[0], key) then 0 else q + 1
  }

  /** The trimming of one column in `repeat`: `extra` times, a result with
      the least key and one with the greatest are deleted, which removes a
      single result when all keys left agree.  When nothing is left,
      `minmax_by` gives `nil` and reading its key fails.  A column long
      enough for two removals a round always succeeds and one shorter than
      `extra` always fails; in between the outcome depends on ties, and is
      exact for distinct keys and for keys that all agree. */
  method TrimColumn(col: seq<Record>, extra: nat, key: Key) returns (o: Outcome<Trimming>)
    ensures Trimmable(|col|, extra) ==> o.Ok?
    ensures o.Ok? ==> extra <= |col|
    ensures DistinctKeys(col, key) ==> (o.Ok? <==> Trimmable(|col|, extra))
    ensures SameKeys(col, key) ==> (o.Ok? <==> extra <= |col|)
    ensures o.Ok? ==> Trimmed(col, o.value, extra, key)
    ensures o.Fail? ==> o.msg == "undefined method `" + KeyName(key) + "' for nil:NilClass"
  {
    var t := Trimming(col, [], [], []);
    ghost var idx: seq<nat> := seq(|col|, i requires 0 <= i < |col| => i);
    var round := 0;
    while round < extra
      invariant 0 <= round <= extra
      invariant Partial(col, idx, t, round, key)
    {
      if |t.kept| == 0 {
        return Fail("undefined method `" + KeyName(key) + "' for nil:NilClass");
      }
      t, idx := TrimOnce(col, idx, t, round, key);
      round := round + 1;
    }
    PartialDone(col, idx, t, extra, key);
    return Ok(t);
  }

  /** After the last round the partial trimming is the whole promise. */
  lemma PartialDone(col: seq<Record>, idx: seq<nat>, t: Trimming, extra: nat, key: Key)
    requires Partial(col, idx, t, extra, key)
    ensures Trimmed(col, t, extra, key)
  {
    assert IsSubsequence(t.kept, col) by {
      assert Embeds(idx, t.kept, col);
    }
  }

  // ---------------------------------------------------------------------
  // repeat

  /** The mean of a trimmed column: `Result.average` of the kept results,
      or the NaN record it yields for none. */
  datatype ColumnMean = Defined(r: Record) | Undefined

  /** `m` is the mean `repeat` reports for a column trimmed to `t`. */
  predicate MeanOf(t: Trimming, m: ColumnMean) {
    if |t.kept| == 0 then m == Undefined
    else Average(t.kept).Ok? && m == Defined(Average(t.kept).value)
  }

  /** The rounds' results, for rounds `0 .. m - 1`; `block(i)` lists the
      `bench` calls the block makes in round `i`. */
  function Rounds(loop: int, block: nat -> seq<Call>, m: nat): (rounds: seq<seq<Record>>)
    ensures |rounds| == m
    ensures forall i :: 0 <= i < m ==> rounds[i] == RoundRecords(loop, block(i))
  {
    seq(m, i requires 0 <= i < m => RoundRecords(loop, block(i)))
  }

  /** The promise of `repeat` about its columns: it fails when a column is
      shorter than `extra`; on success every column is trimmed and
      averaged. */
  ghost predicate Averaged(cols: seq<seq<Record>>, extra: nat, key: Key, o: Outcome<seq<ColumnMean>>, trims: seq<Trimming>) {
    && AveragedOutcome(cols, extra, key, o)
    && (o.Ok? ==> |trims| == |cols|)
    && (o.Ok? ==> forall j :: 0 <= j < |cols| ==> Trimmed(cols[j], trims[j], extra, key) && MeanOf(trims[j], o.value[j]))
  }

  /** A mean whose label `print_label` cannot cut: the NaN record of an
      empty remainder, or the average of results benched without a label. */
  predicate Unlabelled(m: ColumnMean) {
    m.Undefined? || m.r.name.None?
  }

  /** A column whose trimmed remainder is not empty and carries a label:
      longer than two removals a round, with one label throughout. */
  predicate Reportable(col: seq<Record>, extra: nat) {
    2 * extra < |col| && SameLabel(col) && col[0].name.Some?
  }

  /** When `repeat` fails and when it succeeds, as far as the columns
      decide it.  A column shorter than `extra` fails the trimming; a
      column of distinct keys with no more than `2 * extra` results is
      trimmed to nothing, and printing the `nil` label of its average
      fails.  When trimming and averaging cannot fail, the nil label is
      the only failure; when every column is reportable it succeeds, and
      every mean it reports carries a label. */
  ghost predicate AveragedOutcome(cols: seq<seq<Record>>, extra: nat, key: Key, o: Outcome<seq<ColumnMean>>) {
    && ((exists j :: 0 <= j < |cols| && |cols[j]| < extra) ==> o.Fail?)
    && ((exists j :: 0 <= j < |cols| && DistinctKeys(cols[j], key) && |cols[j]| <= 2 * extra) ==> o.Fail?)
    && ((forall j :: 0 <= j < |cols| ==> Trimmable(|cols[j]|, extra) && SameLabel(cols[j])) && o.Fail? ==> o.msg == NilLabel)
    && ((forall j :: 0 <= j < |cols| ==> Reportable(cols[j], extra)) ==> o.Ok?)
    && (o.Ok? ==> |o.value| == |cols|)
    && (o.Ok? ==> forall j :: 0 <= j < |o.value| ==> !Unlabelled(o.value[j]))
  }

  /** `Runner#repeat(n, :key => key, :extra => extra)`: the block runs
      `n + 2 * extra` times, each round from a reset runner. */
  method Repeat(loop: int, n: nat, extra: nat, key: Key, block: nat -> seq<Call>)
    returns (o: Outcome<seq<ColumnMean>>, invoked: nat, ghost trims: seq<Trimming>)
    ensures invoked == n + 2 * extra
    ensures AveragedOutcome(Columns(Rounds(loop, block, n + 2 * extra)), extra, key, o)
    ensures Averaged(Columns(Rounds(loop, block, n + 2 * extra)), extra, key, o, trims)
  {
    var rounds: seq<seq<Record>> := [];
    invoked := 0;
    while invoked < n + 2 * extra
      invariant invoked <= n + 2 * extra
      invariant rounds == Rounds(loop, block, invoked)
    {
      rounds := rounds + [RoundRecords(loop, block(invoked))];
      invoked := invoked + 1;
    }
    o, trims := AverageColumns(Columns(rounds), extra, key);
  }

  /** The second half of `repeat`: each column in turn is trimmed and
      averaged, and the first failure ends it; then, with the verbose
      region stopped, every mean's label is printed, which fails on the
      first one without a label. */
  method AverageColumns(cols: seq<seq<Record>>, extra: nat, key: Key)
    returns (o: Outcome<seq<ColumnMean>>, ghost trims: seq<Trimming>)
    ensures AveragedOutcome(cols, extra, key, o)
    ensures Averaged(cols, extra, key, o, trims)
  {
    var means: seq<ColumnMean> := [];
    trims := [];
    var j := 0;
    while j < |cols|
      invariant 0 <= j <= |cols|
      invariant |means| == j && |trims| == j
      invariant forall k :: 0 <= k < j ==> extra <= |cols[k]|
      invariant forall k :: 0 <= k < j ==> Trimmed(cols[k], trims[k], extra, key) && MeanOf(trims[k], means[k])
    {
      var t := TrimColumn(cols[j], extra, key);
      if t.Fail? {
        return Fail(t.msg), trims;
      }
      var mean: ColumnMean;
      if |t.value.kept| == 0 {
        mean := Undefined;
      } else {
        var avg := Average(t.value.kept);
        if avg.Fail? {
          if forall k :: 0 <= k < |cols| ==> SameLabel(cols[k]) {
            SameLabelKept(cols[j], t.value.kept);
          }
          return Fail(avg.msg), trims;
        }
        mean := Defined(avg.value);
      }
      means := means + [mean];
      trims := trims + [t.value];
      j := j + 1;
    }
    MeansLabelled(cols, extra, key, trims, means);
    if exists k :: 0 <= k < |means| && Unlabelled(means[k]) {
      return Fail(NilLabel), trims;
    }
    o := Ok(means);
  }

  /** Which averaged columns print: a reportable column's mean carries a
      label, and a column of distinct keys trimmed to nothing has none. */
  lemma MeansLabelled(cols: seq<seq<Record>>, extra: nat, key: Key, trims: seq<Trimming>, means: seq<ColumnMean>)
    requires |trims| == |cols| && |means| == |cols|
    requires forall k :: 0 <= k < |cols| ==> Trimmed(cols[k], trims[k], extra, key) && MeanOf(trims[k], means[k])
    ensures (forall k :: 0 <= k < |cols| ==> Reportable(cols[k], extra)) ==> forall k :: 0 <= k < |means| ==> !Unlabelled(means[k])
    ensures (exists k :: 0 <= k < |cols| && DistinctKeys(cols[k], key) && |cols[k]| <= 2 * extra) ==> exists k :: 0 <= k < |means| && Unlabelled(means[k])
  {
    if forall k :: 0 <= k < |cols| ==> Reportable(cols[k], extra) {
      forall k | 0 <= k < |means|
        ensures !Unlabelled(means[k])
      {
        ReportableMean(cols[k], trims[k], extra, key, means[k]);
      }
    }
    if k :| 0 <= k < |cols| && DistinctKeys(cols[k], key) && |cols[k]| <= 2 * extra {
      assert Unlabelled(means[k]);
    }
  }

  /** `repeat(0, extra: 1)` over two results of one label with different
      times trims the column to nothing, and printing the label of its
      average fails. */
  lemma EmptyRemainderFails(a: Record, b: Record, o: Outcome<seq<ColumnMean>>, trims: seq<Trimming>)
    requires a.name == b.name && a.realTime < b.realTime
    requires Averaged([[a, b]], 1, RealKey, o, trims)
    ensures o == Fail(NilLabel)
  {
    var cols := [[a, b]];
    assert DistinctKeys(cols[0], RealKey) && |cols[0]| <= 2 * 1;
    assert Trimmable(|cols[0]|, 1) && SameLabel(cols[0]);
    assert forall j :: 0 <= j < |cols| ==> cols[j] == [a, b];
  }

  /** A reportable column's mean is defined and carries the column's label. */
  lemma ReportableMean(col: seq<Record>, t: Trimming, extra: nat, key: Key, m: ColumnMean)
    requires Trimmed(col, t, extra, key) && MeanOf(t, m) && Reportable(col, extra)
    ensures m.Defined? && m.r.name == col[0].name
  {
    RemovalsAtMost(t.mins, t.maxs);
    assert |multiset(t.kept)| + |multiset(t.removed)| == |col| by {
      assert |multiset(col)| == |col|;
    }
    var idx :| Embeds(idx, t.kept, col);
    assert t.kept[0] == col[idx[0]];
  }

  /** A round removes at most two results. */
  lemma {:induction false} RemovalsAtMost(mins: seq<real>, maxs: seq<real>)
    requires |mins| == |maxs|
    ensures Removals(mins, maxs) <= 2 * |mins|
    decreases |mins|
  {
    if |mins| > 0 {
      RemovalsAtMost(mins[..|mins| - 1], maxs[..|maxs| - 1]);
    }
  }

  /** All results of a column carry the same label (the usual case: the
      block benches the same labels in the same order every round). */
  predicate SameLabel(col: seq<Record>) {
    forall i :: 0 <= i < |col| ==> col[i].name == col[0].name
  }

  lemma SameLabelKept(col: seq<Record>, kept: seq<Record>)
    requires SameLabel(col) && IsSubsequence(kept, col)
    ensures LabelsAgree(kept)
  {
    var idx :| Embeds(idx, kept, col);
    forall i, j | 0 <= i < j < |kept|
      ensures kept[j].name == kept[i].name
    {
      assert kept[i] == col[idx[i]] && kept[j] == col[idx[j]];
    }
  }

  /** A trimmed column's average real time lies within the last trimming
      round's min and max. */
  lemma TrimmedMeanBracketed(col: seq<Record>, t: Trimming, extra: nat)
    requires extra > 0 && Trimmed(col, t, extra, RealKey)
    requires |t.kept| > 0 && LabelsAgree(t.kept)
    ensures t.mins[extra - 1] <= Average(t.kept).value.realTime <= t.maxs[extra - 1]
  {
    forall i | 0 <= i < |t.kept|
      ensures t.mins[extra - 1] <= t.kept[i].realTime <= t.maxs[extra - 1]
    {
      assert t.mins[extra - 1] <= Measure(t.kept[i], RealKey) <= t.maxs[extra - 1];
    }
    AverageWithinBounds(t.kept, t.mins[extra - 1], t.maxs[extra - 1]);
  }

  /** When the block benches the same number of tasks every round, each
      column has one result per round, enough for every trimming round to
      remove two; with distinct keys `n` results are left. */
  lemma UniformRepeat(loop: int, n: nat, extra: nat, block: nat -> seq<Call>, m: nat, j: nat)
    requires n + 2 * extra > 0 && j < m
    requires forall i :: 0 <= i < n + 2 * extra ==> |block(i)| == m
    ensures var cols := Columns(Rounds(loop, block, n + 2 * extra));
      && |cols| == m && |cols[j]| == n + 2 * extra
      && Trimmable(|cols[j]|, extra) && KeptCount(|cols[j]|, extra) == n
  {
    var rounds := Rounds(loop, block, n + 2 * extra);
    forall i | 0 <= i < |rounds|
      ensures |rounds[i]| == m
    {
      assert |RunCalls(Reset(loop), block(i)).results| == m;
    }
    UniformWidth(rounds, m);
    UniformColumn(rounds, m, j);
  }
}
