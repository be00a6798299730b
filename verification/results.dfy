/** `Benchmarker::Result` of the benchmarker library: the per-task list of
    measurements, one per iteration, with a skip reason, outlier removal
    (`remove_minmax`) and averaging (`calc_average`). */
module Results {
  import opened Common
  import opened Timing

  datatype Result = Result(iterations: seq<TimeData>, reason: Option<string>)

  /** The state `Result.new` creates: no samples, not skipped. */
  const Fresh := Result([], None)

  /** `Result#add`: appends one sample; nothing else changes. */
  function Add(r: Result, t: TimeData): (r': Result)
    ensures |r'.iterations| == |r.iterations| + 1
    ensures r'.iterations[..|r.iterations|] == r.iterations
    ensures r'.iterations[|r.iterations|] == t
    ensures r'.reason == r.reason
  {
    r.(iterations := r.iterations + [t])
  }

  /** `Result#skipped?`: a reason has been recorded. */
  predicate Skipped(r: Result) {
    r.reason.Some?
  }

  /** `Result#skipped=`: records the reason; the samples stay. */
  function SetSkipped(r: Result, reason: string): (r': Result)
    ensures Skipped(r') && r'.reason == Some(reason)
    ensures r'.iterations == r.iterations
  {
    r.(reason := Some(reason))
  }

  // ---------------------------------------------------------------------
  // remove_minmax

  /** A sample paired with its 1-based iteration number. */
  datatype Pair = Pair(t: TimeData, idx: nat)

  /** One removal round: the smallest and the largest remaining key value,
      each with its iteration number. */
  datatype MinMax = MinMax(minT: real, minIdx: nat, maxT: real, maxIdx: nat)

  /** What `remove_minmax` leaves behind and what it returns. */
  datatype Removal = Removal(result: Result, removed: seq<MinMax>)

  function Enumerate(ts: seq<TimeData>): (ps: seq<Pair>)
    ensures |ps| == |ts|
    ensures forall i {:trigger ps[i]} :: 0 <= i < |ts| ==> ps[i] == Pair(ts[i], i + 1)
  {
    seq(|ts|, i requires 0 <= i < |ts| => Pair(ts[i], i + 1))
  }

  function KeyOf(key: Field): Pair -> real {
    (p: Pair) => Get(p.t, key)
  }

  function ByIndex(p: Pair): real {
    p.idx as real
  }

  function Data(ps: seq<Pair>): (ts: seq<TimeData>)
    ensures |ts| == |ps|
    ensures forall i {:trigger ts[i]} :: 0 <= i < |ps| ==> ts[i] == ps[i].t
  {
    seq(|ps|, i requires 0 <= i < |ps| => ps[i].t)
  }

  /** Round k (0-based) shifts the k-th smallest pair and pops the k-th
      largest pair of the sorted list. */
  function Peel(sorted: seq<Pair>, extra: nat, key: Field): (removed: seq<MinMax>)
    requires 2 * extra <= |sorted|
    ensures |removed| == extra
  {
    var n := |sorted|;
    seq(extra, k requires 0 <= k < extra =>
      MinMax(Get(sorted[k].t, key), sorted[k].idx, Get(sorted[n - 1 - k].t, key), sorted[n - 1 - k].idx))
  }

  /** `r` is `ts` with some positions removed, none of them a position named
      in `removed`, and the rest in their original order. */
  ghost predicate SurvivorsOf(r: seq<TimeData>, ts: seq<TimeData>, removed: seq<MinMax>) {
    exists idx :: Embeds(idx, r, ts) &&
      forall m, k :: 0 <= m < |idx| && 0 <= k < |removed| ==>
        idx[m] + 1 != removed[k].minIdx && idx[m] + 1 != removed[k].maxIdx
  }

  /** The pairs of `ts` sorted by `key`. */
  function SortedPairs(ts: seq<TimeData>, key: Field): (sorted: seq<Pair>)
    ensures |sorted| == |ts|
    ensures multiset(sorted) == multiset(Enumerate(ts))
    ensures SortedBy(sorted, KeyOf(key))
  {
    SortBy(Enumerate(ts), KeyOf(key))
  }

  /** The pairs left after `extra` rounds, back in iteration order. */
  function KeptPairs(ts: seq<TimeData>, extra: nat, key: Field): (kept: seq<Pair>)
    requires 2 * extra <= |ts|
    ensures |kept| == |ts| - 2 * extra
    ensures multiset(kept) == multiset(SortedPairs(ts, key)[extra..|ts| - extra])
    ensures SortedBy(kept, ByIndex)
  {
    var sorted := SortedPairs(ts, key);
    SortBy(sorted[extra..|ts| - extra], ByIndex)
  }

  /** `Result#remove_minmax(extra, key)`: sorts the samples by `key`, removes
      the `extra` smallest and `extra` largest, and puts the survivors back in
      iteration order.  When fewer than two pairs are left for a round, Ruby
      calls a method on `nil`, which is the failure here. */
  /** What Ruby raises when `remove_minmax` runs out of samples and sends
      the key accessor to `nil`. */
  function NilKeyError(key: Field): string {
    "undefined method `" + FieldName(key) + "' for nil:NilClass"
  }

  function RemoveMinmax(r: Result, extra: nat, key: Field): (o: Outcome<Removal>)
    ensures o.Fail? <==> 2 * extra > |r.iterations|
    ensures o.Fail? ==> o.msg == NilKeyError(key)
    ensures o.Ok? ==> o.value.result.reason == r.reason
    ensures o.Ok? ==> |o.value.removed| == extra
    ensures o.Ok? ==> |o.value.result.iterations| == |r.iterations| - 2 * extra
  {
    var ts := r.iterations;
    if 2 * extra > |ts| then Fail(NilKeyError(key))
    else
      var removed := Peel(SortedPairs(ts, key), extra, key);
      Ok(Removal(r.(iterations := Data(KeptPairs(ts, extra, key))), removed))
  }

  /** Each removed value is the key value of the iteration recorded with it,
      and the 2 * extra removed iterations are distinct. */
  lemma RemovedAreDistinctIterations(r: Result, extra: nat, key: Field)
    requires 2 * extra <= |r.iterations|
    ensures RemovedIterations(r.iterations, RemoveMinmax(r, extra, key).value.removed, extra, key)
  {
    assert RemoveMinmax(r, extra, key).value.removed == Peel(SortedPairs(r.iterations, key), extra, key);
    PeelFacts(r.iterations, extra, key);
  }

  /** Each removed value is the key value of the iteration recorded with
      it, and the `2 * extra` removed iterations are distinct. */
  ghost predicate RemovedIterations(ts: seq<TimeData>, removed: seq<MinMax>, extra: nat, key: Field)
    requires |removed| == extra
  {
    && (forall k :: 0 <= k < extra ==>
      && 1 <= removed[k].minIdx <= |ts| && Get(ts[removed[k].minIdx - 1], key) == removed[k].minT
      && 1 <= removed[k].maxIdx <= |ts| && Get(ts[removed[k].maxIdx - 1], key) == removed[k].maxT)
    && (forall k, k' :: 0 <= k < extra && 0 <= k' < extra ==>
      && removed[k].minIdx != removed[k'].maxIdx
      && (k != k' ==> removed[k].minIdx != removed[k'].minIdx)
      && (k != k' ==> removed[k].maxIdx != removed[k'].maxIdx))
  }

  lemma PeelFacts(ts: seq<TimeData>, extra: nat, key: Field)
    requires 2 * extra <= |ts|
    ensures RemovedIterations(ts, Peel(SortedPairs(ts, key), extra, key), extra, key)
  {
    PeelValues(ts, extra, key);
    PeelDistinct(ts, extra, key);
  }

  lemma PeelValues(ts: seq<TimeData>, extra: nat, key: Field)
    requires 2 * extra <= |ts|
    ensures var removed := Peel(SortedPairs(ts, key), extra, key);
      forall k :: 0 <= k < extra ==>
        && 1 <= removed[k].minIdx <= |ts| && Get(ts[removed[k].minIdx - 1], key) == removed[k].minT
        && 1 <= removed[k].maxIdx <= |ts| && Get(ts[removed[k].maxIdx - 1], key) == removed[k].maxT
  {
    SortedLabelled(ts, key);
    LabelledPeel(ts, SortedPairs(ts, key), extra, key);
  }

  lemma SortedLabelled(ts: seq<TimeData>, key: Field)
    ensures Labelled(SortedPairs(ts, key), ts)
  {
    SortedFacts(ts, SortedPairs(ts, key));
  }

  lemma LabelledPeel(ts: seq<TimeData>, sorted: seq<Pair>, extra: nat, key: Field)
    requires 2 * extra <= |sorted| && Labelled(sorted, ts)
    ensures var removed := Peel(sorted, extra, key);
      forall k :: 0 <= k < extra ==>
        && 1 <= removed[k].minIdx <= |ts| && Get(ts[removed[k].minIdx - 1], key) == removed[k].minT
        && 1 <= removed[k].maxIdx <= |ts| && Get(ts[removed[k].maxIdx - 1], key) == removed[k].maxT
  {
    var n := |sorted|;
    var removed := Peel(sorted, extra, key);
    forall k | 0 <= k < extra
      ensures 1 <= removed[k].minIdx <= |ts| && Get(ts[removed[k].minIdx - 1], key) == removed[k].minT
      ensures 1 <= removed[k].maxIdx <= |ts| && Get(ts[removed[k].maxIdx - 1], key) == removed[k].maxT
    {
      assert sorted[k] in sorted;
      assert sorted[n - 1 - k] in sorted;
    }
  }

  lemma PeelDistinct(ts: seq<TimeData>, extra: nat, key: Field)
    requires 2 * extra <= |ts|
    ensures var removed := Peel(SortedPairs(ts, key), extra, key);
      forall k, k' :: 0 <= k < extra && 0 <= k' < extra ==>
        && removed[k].minIdx != removed[k'].maxIdx
        && (k != k' ==> removed[k].minIdx != removed[k'].minIdx)
        && (k != k' ==> removed[k].maxIdx != removed[k'].maxIdx)
  {
    var n := |ts|;
    var sorted := SortedPairs(ts, key);
    var removed := Peel(sorted, extra, key);
    SortedFacts(ts, sorted);
    forall k, k' | 0 <= k < extra && 0 <= k' < extra
      ensures removed[k].minIdx != removed[k'].maxIdx
      ensures k != k' ==> removed[k].minIdx != removed[k'].minIdx
      ensures k != k' ==> removed[k].maxIdx != removed[k'].maxIdx
    {
      assert k != n - 1 - k';
    }
  }

  /** The survivors are exactly the iterations not removed, in their
      original relative order. */
  lemma SurvivorsKeepIterationOrder(r: Result, extra: nat, key: Field)
    requires 2 * extra <= |r.iterations|
    ensures var o := RemoveMinmax(r, extra, key).value;
      SurvivorsOf(o.result.iterations, r.iterations, o.removed)
  {
    var ts := r.iterations;
    SurvivorPairsFacts(ts, extra, key);
    var o := RemoveMinmax(r, extra, key).value;
    assert o.result.iterations == Data(KeptPairs(ts, extra, key));
    assert o.removed == Peel(SortedPairs(ts, key), extra, key);
  }

  lemma SurvivorPairsFacts(ts: seq<TimeData>, extra: nat, key: Field)
    requires 2 * extra <= |ts|
    ensures SurvivorsOf(Data(KeptPairs(ts, extra, key)), ts, Peel(SortedPairs(ts, key), extra, key))
  {
    var sorted := SortedPairs(ts, key);
    var kept := KeptPairs(ts, extra, key);
    SortedFacts(ts, sorted);
    KeptInMiddle(ts, extra, sorted, kept);
    KeptFacts(ts, extra, sorted, kept);
    SurvivorFacts(ts, extra, key, sorted, kept);
  }

  /** Every round's min and max bracket every survivor, and later rounds
      remove less extreme values. */
  lemma RoundsBracketSurvivors(r: Result, extra: nat, key: Field)
    requires 2 * extra <= |r.iterations|
    ensures var o := RemoveMinmax(r, extra, key).value;
      && (forall k, i :: 0 <= k < extra && 0 <= i < |o.result.iterations| ==>
        o.removed[k].minT <= Get(o.result.iterations[i], key) <= o.removed[k].maxT)
      && (forall k, k' :: 0 <= k < k' < extra ==>
        && o.removed[k].minT <= o.removed[k'].minT
        && o.removed[k'].maxT <= o.removed[k].maxT
        && o.removed[k'].minT <= o.removed[k'].maxT)
  {
    var ts := r.iterations;
    BracketFacts(ts, extra, key);
    var o := RemoveMinmax(r, extra, key).value;
    assert o.result.iterations == Data(KeptPairs(ts, extra, key));
    assert o.removed == Peel(SortedPairs(ts, key), extra, key);
  }

  lemma BracketFacts(ts: seq<TimeData>, extra: nat, key: Field)
    requires 2 * extra <= |ts|
    ensures var kept := Data(KeptPairs(ts, extra, key));
      var removed := Peel(SortedPairs(ts, key), extra, key);
      && (forall k, i :: 0 <= k < extra && 0 <= i < |kept| ==>
        removed[k].minT <= Get(kept[i], key) <= removed[k].maxT)
      && (forall k, k' :: 0 <= k < k' < extra ==>
        && removed[k].minT <= removed[k'].minT
        && removed[k'].maxT <= removed[k].maxT
        && removed[k'].minT <= removed[k'].maxT)
  {
    var sorted := SortedPairs(ts, key);
    var kept := KeptPairs(ts, extra, key);
    KeptInMiddle(ts, extra, sorted, kept);
    OrderFacts(ts, extra, key, sorted, kept);
  }

  lemma KeptInMiddle(ts: seq<TimeData>, extra: nat, sorted: seq<Pair>, kept: seq<Pair>)
    requires 2 * extra <= |ts| == |sorted|
    requires multiset(kept) == multiset(sorted[extra..|ts| - extra])
    ensures forall m :: 0 <= m < |kept| ==> kept[m] in sorted[extra..|ts| - extra]
  {
    forall m | 0 <= m < |kept| ensures kept[m] in sorted[extra..|ts| - extra] {
      assert kept[m] in multiset(kept);
    }
  }

  /** Each pair names its own iteration. */
  ghost predicate Labelled(ps: seq<Pair>, ts: seq<TimeData>) {
    forall p :: p in ps ==> 1 <= p.idx <= |ts| && ts[p.idx - 1] == p.t
  }

  ghost predicate NoDup(ps: seq<Pair>) {
    forall p :: multiset(ps)[p] <= 1
  }

  lemma EnumerateFacts(ts: seq<TimeData>)
    ensures Labelled(Enumerate(ts), ts)
    ensures NoDup(Enumerate(ts))
  {
    var e := Enumerate(ts);
    forall i, j | 0 <= i < j < |e| ensures e[i] != e[j] {
      assert e[i].idx != e[j].idx;
    }
    DistinctOccursOnce(e);
  }

  /** In a labelled list without duplicates no two positions share an
      iteration number. */
  lemma IndexInjective(ps: seq<Pair>, ts: seq<TimeData>)
    requires Labelled(ps, ts) && NoDup(ps)
    ensures forall a, b :: 0 <= a < |ps| && 0 <= b < |ps| && a != b ==> ps[a].idx != ps[b].idx
  {
    forall a, b | 0 <= a < |ps| && 0 <= b < |ps| && a != b
      ensures ps[a].idx != ps[b].idx
    {
      if ps[a].idx == ps[b].idx {
        assert ps[a] in ps && ps[b] in ps;
        assert ps[a] == ps[b];
        if a < b {
          TwiceAtTwoPositions(ps, a, b);
        } else {
          TwiceAtTwoPositions(ps, b, a);
        }
        assert false;
      }
    }
  }

  /** The sorted pairs still name their iterations, each exactly once. */
  lemma SortedFacts(ts: seq<TimeData>, sorted: seq<Pair>)
    requires multiset(sorted) == multiset(Enumerate(ts))
    ensures Labelled(sorted, ts) && NoDup(sorted)
    ensures forall a, b :: 0 <= a < |sorted| && 0 <= b < |sorted| && a != b ==> sorted[a].idx != sorted[b].idx
  {
    var e := Enumerate(ts);
    EnumerateFacts(ts);
    assert multiset(sorted) == multiset(e);
    forall p | p in sorted ensures 1 <= p.idx <= |ts| && ts[p.idx - 1] == p.t {
      assert p in multiset(sorted);
      assert p in e;
    }
    assert NoDup(sorted);
    IndexInjective(sorted, ts);
  }

  /** A slice of a labelled list without duplicates is one too. */
  lemma SliceFacts(ts: seq<TimeData>, sorted: seq<Pair>, lo: nat, hi: nat)
    requires lo <= hi <= |sorted|
    requires Labelled(sorted, ts) && NoDup(sorted)
    ensures Labelled(sorted[lo..hi], ts) && NoDup(sorted[lo..hi])
  {
    var mid := sorted[lo..hi];
    assert sorted == sorted[..lo] + mid + sorted[hi..];
    assert multiset(sorted) == multiset(sorted[..lo]) + multiset(mid) + multiset(sorted[hi..]);
    forall p ensures multiset(mid)[p] <= 1 {
      assert multiset(mid)[p] <= multiset(sorted)[p];
    }
  }

  /** Rearranging keeps a labelled list without duplicates one. */
  lemma PermutedFacts(ts: seq<TimeData>, a: seq<Pair>, b: seq<Pair>)
    requires multiset(a) == multiset(b)
    requires Labelled(a, ts) && NoDup(a)
    ensures Labelled(b, ts) && NoDup(b)
    ensures forall m :: 0 <= m < |b| ==> b[m] in a
  {
    forall p | p in b ensures p in a {
      assert p in multiset(b);
    }
  }

  /** The survivors are the middle pairs of the sorted list, rearranged by
      strictly increasing iteration number. */
  lemma KeptFacts(ts: seq<TimeData>, extra: nat, sorted: seq<Pair>, kept: seq<Pair>)
    requires 2 * extra <= |ts| == |sorted|
    requires Labelled(sorted, ts) && NoDup(sorted)
    requires multiset(kept) == multiset(sorted[extra..|ts| - extra])
    requires SortedBy(kept, ByIndex)
    ensures forall m :: 0 <= m < |kept| ==> kept[m] in sorted[extra..|ts| - extra]
    ensures forall m, m' :: 0 <= m < m' < |kept| ==> kept[m].idx < kept[m'].idx
  {
    var mid := sorted[extra..|ts| - extra];
    SliceFacts(ts, sorted, extra, |ts| - extra);
    PermutedFacts(ts, mid, kept);
    IndexInjective(kept, ts);
    forall m, m' | 0 <= m < m' < |kept| ensures kept[m].idx < kept[m'].idx {
      assert ByIndex(kept[m]) <= ByIndex(kept[m']);
    }
  }

  lemma SurvivorFacts(ts: seq<TimeData>, extra: nat, key: Field, sorted: seq<Pair>, kept: seq<Pair>)
    requires 2 * extra <= |ts| == |sorted|
    requires Labelled(sorted, ts)
    requires forall a, b :: 0 <= a < |sorted| && 0 <= b < |sorted| && a != b ==> sorted[a].idx != sorted[b].idx
    requires forall m :: 0 <= m < |kept| ==> kept[m] in sorted[extra..|ts| - extra]
    requires forall m, m' :: 0 <= m < m' < |kept| ==> kept[m].idx < kept[m'].idx
    ensures SurvivorsOf(Data(kept), ts, Peel(sorted, extra, key))
  {
    var removed := Peel(sorted, extra, key);
    var idx := seq(|kept|, m requires 0 <= m < |kept| => kept[m].idx - 1);
    forall m | 0 <= m < |kept|
      ensures idx[m] < |ts| && ts[idx[m]] == Data(kept)[m]
      ensures forall k :: 0 <= k < |removed| ==> idx[m] + 1 != removed[k].minIdx && idx[m] + 1 != removed[k].maxIdx
    {
      KeptNotRemoved(ts, extra, key, sorted, kept[m]);
    }
    assert Embeds(idx, Data(kept), ts);
  }

  /** A surviving pair names its own iteration, and none that was
      removed. */
  lemma KeptNotRemoved(ts: seq<TimeData>, extra: nat, key: Field, sorted: seq<Pair>, p: Pair)
    requires 2 * extra <= |ts| == |sorted|
    requires Labelled(sorted, ts)
    requires forall a, b :: 0 <= a < |sorted| && 0 <= b < |sorted| && a != b ==> sorted[a].idx != sorted[b].idx
    requires p in sorted[extra..|ts| - extra]
    ensures 1 <= p.idx <= |ts| && ts[p.idx - 1] == p.t
    ensures forall k :: 0 <= k < extra ==>
      p.idx != Peel(sorted, extra, key)[k].minIdx && p.idx != Peel(sorted, extra, key)[k].maxIdx
  {
    var n := |ts|;
    var mid := sorted[extra..n - extra];
    var q :| 0 <= q < |mid| && mid[q] == p;
    assert p == sorted[extra + q];
    assert p in sorted;
    forall k | 0 <= k < extra
      ensures p.idx != Peel(sorted, extra, key)[k].minIdx && p.idx != Peel(sorted, extra, key)[k].maxIdx
    {
      assert Peel(sorted, extra, key)[k].minIdx == sorted[k].idx;
      assert Peel(sorted, extra, key)[k].maxIdx == sorted[n - 1 - k].idx;
    }
  }

  /** What the sort order says about the removed rounds and the survivors. */
  lemma OrderFacts(ts: seq<TimeData>, extra: nat, key: Field, sorted: seq<Pair>, kept: seq<Pair>)
    requires 2 * extra <= |ts| == |sorted|
    requires SortedBy(sorted, KeyOf(key))
    requires forall m :: 0 <= m < |kept| ==> kept[m] in sorted[extra..|ts| - extra]
    ensures forall k, i :: 0 <= k < extra && 0 <= i < |kept| ==>
      Peel(sorted, extra, key)[k].minT <= Get(Data(kept)[i], key) <= Peel(sorted, extra, key)[k].maxT
    ensures forall k, k' :: 0 <= k < k' < extra ==>
      && Peel(sorted, extra, key)[k].minT <= Peel(sorted, extra, key)[k'].minT
      && Peel(sorted, extra, key)[k'].maxT <= Peel(sorted, extra, key)[k].maxT
      && Peel(sorted, extra, key)[k'].minT <= Peel(sorted, extra, key)[k'].maxT
  {
    var n := |ts|;
    var removed := Peel(sorted, extra, key);
    forall k, i | 0 <= k < extra && 0 <= i < |kept|
      ensures removed[k].minT <= Get(Data(kept)[i], key) <= removed[k].maxT
    {
      var mid := sorted[extra..n - extra];
      assert kept[i] in mid;
      var q :| 0 <= q < |mid| && mid[q] == kept[i];
      var p := extra + q;
      assert kept[i] == sorted[p];
      assert KeyOf(key)(sorted[k]) <= KeyOf(key)(sorted[p]) <= KeyOf(key)(sorted[n - 1 - k]);
    }
    forall k, k' | 0 <= k < k' < extra
      ensures removed[k].minT <= removed[k'].minT && removed[k'].maxT <= removed[k].maxT
      ensures removed[k'].minT <= removed[k'].maxT
    {
      assert KeyOf(key)(sorted[k]) <= KeyOf(key)(sorted[k']);
      assert KeyOf(key)(sorted[n - 1 - k']) <= KeyOf(key)(sorted[n - 1 - k]);
      assert KeyOf(key)(sorted[k']) <= KeyOf(key)(sorted[n - 1 - k']);
    }
  }

  // ---------------------------------------------------------------------
  // calc_average

  /** Field-wise sum, accumulated from the first sample on as the Ruby loop
      does. */
  function Sum(ts: seq<TimeData>): TimeData {
    if |ts| == 0 then Zero else Timing.Add(Sum(ts[..|ts| - 1]), ts[|ts| - 1])
  }

  /** `Result#calc_average`: the field-wise arithmetic mean. */
  function CalcAverage(r: Result): (a: TimeData)
    requires |r.iterations| > 0
    ensures forall f :: Get(a, f) * |r.iterations| as real == Get(Sum(r.iterations), f)
  {
    DivScalesAll(Sum(r.iterations), |r.iterations|);
    Div(Sum(r.iterations), |r.iterations|)
  }

  /** n copies of one measurement sum to n times it. */
  lemma {:induction false} SumOfCopies(t: TimeData, n: nat)
    ensures forall f :: Get(Sum(seq(n, _ => t)), f) == n as real * Get(t, f)
  {
    if n > 0 {
      var s := seq(n, _ => t);
      assert s[..n - 1] == seq(n - 1, _ => t);
      SumOfCopies(t, n - 1);
    }
  }

  /** Averaging any positive number of copies of a measurement gives it back. */
  lemma AverageOfCopies(t: TimeData, n: nat, reason: Option<string>)
    requires n > 0
    ensures CalcAverage(Result(seq(n, _ => t), reason)) == t
  {
    SumOfCopies(t, n);
    var a := CalcAverage(Result(seq(n, _ => t), reason));
    assert Get(a, User) * n as real == n as real * t.user;
    assert Get(a, Sys) * n as real == n as real * t.sys;
    assert Get(a, Total) * n as real == n as real * t.total;
    assert Get(a, Real) * n as real == n as real * t.realTime;
  }

  /** Every sample less the same measurement `d`, as `Task#invoke` takes
      the empty task's time off each run. */
  function Shifted(ts: seq<TimeData>, d: TimeData): (us: seq<TimeData>)
    ensures |us| == |ts| && forall i :: 0 <= i < |ts| ==> us[i] == Sub(ts[i], d)
  {
    seq(|ts|, i requires 0 <= i < |ts| => Sub(ts[i], d))
  }

  /** Taking the same measurement off every sample takes it off the
      average: the mean of the net times is the mean of the gross times
      less the empty task's time. */
  lemma AverageShift(ts: seq<TimeData>, d: TimeData, reason: Option<string>)
    requires |ts| > 0
    ensures CalcAverage(Result(Shifted(ts, d), reason)) == Sub(CalcAverage(Result(ts, reason)), d)
  {
    var n := |ts|;
    var copies := seq(n, _ => d);
    SumShift(ts, d);
    DivSub(Sum(ts), Sum(copies), n);
    AverageOfCopies(d, n, reason);
    assert CalcAverage(Result(copies, reason)) == Div(Sum(copies), n);
  }

  /** The sum of the shifted samples is the sum less `n` copies of `d`. */
  lemma {:induction false} SumShift(ts: seq<TimeData>, d: TimeData)
    ensures Sum(Shifted(ts, d)) == Sub(Sum(ts), Sum(seq(|ts|, _ => d)))
    decreases |ts|
  {
    if |ts| > 0 {
      var m := |ts| - 1;
      var init := ts[..m];
      SumShift(init, d);
      assert Shifted(ts, d)[..m] == Shifted(init, d);
      assert seq(|ts|, _ => d)[..m] == seq(m, _ => d);
    }
  }

  /** The sum of one field over the samples. */
  function FieldSum(ts: seq<TimeData>, f: Field): real {
    if |ts| == 0 then 0.0 else FieldSum(ts[..|ts| - 1], f) + Get(ts[|ts| - 1], f)
  }

  lemma {:induction false} SumIsFieldwise(ts: seq<TimeData>, f: Field)
    ensures Get(Sum(ts), f) == FieldSum(ts, f)
  {
    if |ts| > 0 {
      SumIsFieldwise(ts[..|ts| - 1], f);
    }
  }

  lemma {:induction false} FieldSumBounds(ts: seq<TimeData>, f: Field, lo: real, hi: real)
    requires forall i :: 0 <= i < |ts| ==> lo <= Get(ts[i], f) <= hi
    ensures Scale(|ts|, lo) <= FieldSum(ts, f) <= Scale(|ts|, hi)
  {
    if |ts| > 0 {
      var m := |ts| - 1;
      var init := ts[..m];
      assert forall i :: 0 <= i < |init| ==> init[i] == ts[i];
      FieldSumBounds(init, f, lo, hi);
    }
  }

  lemma SumBounds(ts: seq<TimeData>, f: Field, lo: real, hi: real)
    requires forall i :: 0 <= i < |ts| ==> lo <= Get(ts[i], f) <= hi
    ensures Scale(|ts|, lo) <= Get(Sum(ts), f) <= Scale(|ts|, hi)
  {
    SumIsFieldwise(ts, f);
    FieldSumBounds(ts, f, lo, hi);
  }

  /** `n * x` as a repeated sum, so that bounds on sums stay linear. */
  function Scale(n: nat, x: real): real {
    if n == 0 then 0.0 else Scale(n - 1, x) + x
  }

  lemma {:induction false} ScaleIsProduct(n: nat, x: real)
    ensures Scale(n, x) == n as real * x
  {
    if n > 0 {
      ScaleIsProduct(n - 1, x);
    }
  }

  /** One more sample between `lo` and `hi` widens the bounds of a sum of
      `m` samples by one of each. */
  lemma BoundStep(m: real, prev: real, x: real, lo: real, hi: real)
    requires m * lo <= prev <= m * hi && lo <= x <= hi
    ensures (m + 1.0) * lo <= prev + x <= (m + 1.0) * hi
  {
    assert (m + 1.0) * lo == m * lo + lo;
    assert (m + 1.0) * hi == m * hi + hi;
  }

  /** A quotient of a sum bounded by `n * lo` and `n * hi` lies in
      `[lo, hi]`. */
  lemma QuotientBounds(a: real, n: real, sum: real, lo: real, hi: real)
    requires n > 0.0 && a * n == sum && n * lo <= sum <= n * hi
    ensures lo <= a <= hi
  {
  }

  /** The mean lies between the smallest and the largest sample. */
  lemma AverageWithinBounds(r: Result, f: Field, lo: real, hi: real)
    requires |r.iterations| > 0
    requires forall i :: 0 <= i < |r.iterations| ==> lo <= Get(r.iterations[i], f) <= hi
    ensures lo <= Get(CalcAverage(r), f) <= hi
  {
    MeanWithinBounds(r.iterations, f, lo, hi);
  }

  lemma MeanWithinBounds(ts: seq<TimeData>, f: Field, lo: real, hi: real)
    requires |ts| > 0
    requires forall i :: 0 <= i < |ts| ==> lo <= Get(ts[i], f) <= hi
    ensures lo <= Get(Div(Sum(ts), |ts|), f) <= hi
  {
    SumBounds(ts, f, lo, hi);
    DivWithinBounds(Sum(ts), |ts|, f, lo, hi);
  }

  /** Dividing a field bounded by `n * lo` and `n * hi` by `n` lands in
      `[lo, hi]`. */
  lemma DivWithinBounds(t: TimeData, n: nat, f: Field, lo: real, hi: real)
    requires n > 0
    requires Scale(n, lo) <= Get(t, f) <= Scale(n, hi)
    ensures lo <= Get(Div(t, n), f) <= hi
  {
    DivScales(t, n, f);
    ScaledQuotient(Get(Div(t, n), f), n, Get(t, f), lo, hi);
  }

  /** A quotient of a sum between `n` copies of `lo` and of `hi` lies in
      `[lo, hi]`. */
  lemma ScaledQuotient(a: real, n: nat, sum: real, lo: real, hi: real)
    requires n > 0 && a * n as real == sum && Scale(n, lo) <= sum <= Scale(n, hi)
    ensures lo <= a <= hi
  {
    ScaleIsProduct(n, lo);
    ScaleIsProduct(n, hi);
    QuotientBounds(a, n as real, sum, lo, hi);
  }

  lemma {:induction false} SumConsistent(ts: seq<TimeData>)
    requires forall i :: 0 <= i < |ts| ==> Consistent(ts[i])
    ensures Consistent(Sum(ts))
  {
    if |ts| > 0 {
      SumConsistent(ts[..|ts| - 1]);
    }
  }

  /** Averaging measurements whose total is user plus system time gives a
      measurement with the same property. */
  lemma AverageConsistent(r: Result)
    requires |r.iterations| > 0
    requires forall i :: 0 <= i < |r.iterations| ==> Consistent(r.iterations[i])
    ensures Consistent(CalcAverage(r))
  {
    SumConsistent(r.iterations);
  }
}
