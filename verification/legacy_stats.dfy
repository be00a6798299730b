/** `Benchmarker::Statistics` of the older Ruby API: the ranking (each
    result's share of the best time, with one `*` per full 5%) and the
    comparison matrix (`100 * other / val`, plus a `compensate` offset).
    Only the numbers are modelled, not the table layout. */
module LegacyStats {
  import opened Common
  import opened LegacyResult

  /** The measure a table is built on (`:key`). */
  datatype Key = UserKey | SysKey | TotalKey | RealKey

  function Measure(r: Record, key: Key): real {
    match key
    case UserKey => r.user
    case SysKey => r.sys
    case TotalKey => Total(r)
    case RealKey => r.realTime
  }

  /** Options a caller passes; an absent one falls back to the defaults. */
  datatype Opts = Opts(key: Option<Key>, sort: Option<bool>, compensate: Option<real>)

  datatype Settings = Settings(key: Key, sort: bool, compensate: real)

  /** `Statistics::DEFAULTS`. */
  const Defaults := Settings(RealKey, true, 0.0)

  const NoOpts := Opts(None, None, None)

  /** `Hash#merge`: the given options win over the base settings. */
  function Merge(base: Settings, o: Opts): (s: Settings)
    ensures s.key == (if o.key.Some? then o.key.value else base.key)
    ensures s.sort == (if o.sort.Some? then o.sort.value else base.sort)
    ensures s.compensate == (if o.compensate.Some? then o.compensate.value else base.compensate)
  {
    Settings(
      if o.key.Some? then o.key.value else base.key,
      if o.sort.Some? then o.sort.value else base.sort,
      if o.compensate.Some? then o.compensate.value else base.compensate)
  }

  /** A `Statistics` object keeps `DEFAULTS.merge(opts)` from `new`. */
  datatype Statistics = Statistics(opts: Settings)

  /** `Statistics.new(opts)`: each option given is kept, and each one
      left out takes its default: key `:real`, sorting on, no
      compensation. */
  function New(o: Opts): (st: Statistics)
    ensures st.opts.key == if o.key.Some? then o.key.value else RealKey
    ensures st.opts.sort == if o.sort.Some? then o.sort.value else true
    ensures st.opts.compensate == if o.compensate.Some? then o.compensate.value else 0.0
  {
    Statistics(Merge(Defaults, o))
  }

  /** `String#[]` on a `nil` label. */
  const NilLabel := "undefined method `[]' for nil:NilClass"

  // ---------------------------------------------------------------------
  // ranking

  datatype StarRow = StarRow(name: string, value: real, percent: real, stars: nat)

  /** Each row's value is not zero, its percent is 100 times the first
      row's value over its own, and it has one star per full 5%. */
  predicate RatedRows(rows: seq<StarRow>) {
    forall k :: 0 <= k < |rows| ==>
      && rows[k].value != 0.0
      && rows[k].percent == Share(100.0 * rows[0].value, rows[k].value)
      && rows[k].stars == Stars(rows[k].percent)
  }

  /** The rows' values do not decrease. */
  predicate AscendingRows(rows: seq<StarRow>) {
    forall k, k' :: 0 <= k < k' < |rows| ==> rows[k].value <= rows[k'].value
  }

  /** Every row shows the label and value of some record. */
  predicate RowsFromRecords(rows: seq<StarRow>, rs: seq<Record>, key: Key) {
    forall k :: 0 <= k < |rows| ==>
      exists j :: 0 <= j < |rs| && rs[j].name == Some(rows[k].name) && Measure(rs[j], key) == rows[k].value
  }

  /** What the rows show of the records: each row's label and value. */
  function RowEntries(rows: seq<StarRow>): multiset<(Option<string>, real)> {
    Bag(rows, (row: StarRow) => (Some(row.name), row.value))
  }

  /** Each record's label and value under the key. */
  function RecordEntries(rs: seq<Record>, key: Key): multiset<(Option<string>, real)> {
    Bag(rs, (r: Record) => (r.name, Measure(r, key)))
  }

  /** `(percent / 5.0).to_i`. */
  function Stars(percent: real): int {
    TruncateTowardZero(percent / 5.0)
  }

  /** `base / val`: the ranking's percentage when `base` is 100 times the
      best value. */
  function Share(base: real, val: real): real
    requires val != 0.0
  {
    base / val
  }

  /** A record the ranking can rate against `base`: it has a label, its
      value is not zero, and its star count is not negative. */
  predicate Rankable(r: Record, base: real, key: Key) {
    r.name.Some? && Measure(r, key) != 0.0 && Stars(Share(base, Measure(r, key))) >= 0
  }

  /** Every record of `rs` is one the ranking can rate against `base`. */
  predicate AllRankable(rs: seq<Record>, base: real, key: Key) {
    forall k :: 0 <= k < |rs| ==> Rankable(rs[k], base, key)
  }

  /** `String#*` with a negative count. */
  const NegativeArgument := "negative argument"

  /** The rows for `rs` against `base` (100 times the first value).  A
      missing label, a zero value (`Float#to_i` of an infinite or NaN
      ratio) and a negative star count (`String#*`) are errors, met in
      that order for each row. */
  function StarRows(base: real, rs: seq<Record>, key: Key): (o: Outcome<seq<StarRow>>)
    ensures o.Ok? <==> AllRankable(rs, base, key)
    ensures o.Fail? ==> o.msg == NilLabel || o.msg == NonFiniteName(base) || o.msg == NegativeArgument
    ensures o.Ok? ==> |o.value| == |rs|
    ensures o.Ok? ==> forall k :: 0 <= k < |rs| ==>
      var row := o.value[k];
      && Some(row.name) == rs[k].name && row.value == Measure(rs[k], key)
      && row.percent == Share(base, row.value) && row.stars == Stars(row.percent)
  {
    if |rs| == 0 then Ok([])
    else
      var val := Measure(rs[0], key);
      if rs[0].name.None? then Fail(NilLabel)
      else if val == 0.0 then Fail(NonFiniteName(base))
      else
        var percent := Share(base, val);
        var stars := Stars(percent);
        if stars < 0 then Fail(NegativeArgument)
        else
          match StarRows(base, rs[1..], key)
          case Fail(msg) => Fail(msg)
          case Ok(rows) =>
            Ok([StarRow(rs[0].name.value, val, percent, stars)] + rows)
  }

  /** The least value of the key over `rs`: the one `ranking` rates
      every record against. */
  function Least(rs: seq<Record>, key: Key): (m: real)
    requires |rs| > 0
    ensures forall k :: 0 <= k < |rs| ==> m <= Measure(rs[k], key)
    ensures exists k :: 0 <= k < |rs| && Measure(rs[k], key) == m
    decreases |rs|
  {
    if |rs| == 1 then Measure(rs[0], key)
    else
      var m := Least(rs[1..], key);
      assert forall k :: 1 <= k < |rs| ==> rs[k] == rs[1..][k - 1];
      if Measure(rs[0], key) <= m then Measure(rs[0], key)
      else
        var j :| 0 <= j < |rs[1..]| && Measure(rs[1..][j], key) == m;
        assert Measure(rs[j + 1], key) == m;
        m
  }

  /** `base ||= 100.0 * val`: the base a ranking rates against when
      `best` is the first value in sorted order. */
  function BaseOf(best: real): real {
    100.0 * best
  }

  /** The base of the ranking of `rs`: 100 times the least value. */
  function Base(rs: seq<Record>, key: Key): real
    requires |rs| > 0
  {
    BaseOf(Least(rs, key))
  }

  /** `Statistics#ranking`: sort by the key and rank against the least
      value.  It succeeds exactly when every record is labelled, has a
      non-zero value and a star count that is not negative against
      100 times the least value; otherwise it raises the first such
      error in sorted order.  On success there is one row per record,
      each row is some record's label and value, the values ascend, and
      each row's percent is 100 times the first row's value over its own,
      with one star per full 5%: the first row is the 100%, 20-star one. */
  function Ranking(st: Statistics, rs: seq<Record>, callOpts: Opts): (o: Outcome<seq<StarRow>>)
    ensures |rs| == 0 ==> o == Ok([])
    ensures (exists k :: 0 <= k < |rs| && rs[k].name.None?) ==> o.Fail?
    ensures |rs| > 0 ==> var key := Merge(st.opts, callOpts).key;
      (o.Ok? <==> AllRankable(rs, Base(rs, key), key))
    ensures o.Fail? ==> |rs| > 0 && var key := Merge(st.opts, callOpts).key;
      (o.msg == NilLabel || o.msg == NonFiniteName(Base(rs, key)) || o.msg == NegativeArgument)
    ensures o.Ok? ==> RatedRows(o.value)
    ensures o.Ok? ==> |o.value| == |rs|
    ensures o.Ok? ==> RowEntries(o.value) == RecordEntries(rs, Merge(st.opts, callOpts).key)
    ensures o.Ok? ==> RowsFromRecords(o.value, rs, Merge(st.opts, callOpts).key)
    ensures o.Ok? ==> AscendingRows(o.value)
    ensures o.Ok? && |rs| > 0 ==> o.value[0].percent == 100.0 && o.value[0].stars == 20
  {
    RankBy(rs, Merge(st.opts, callOpts).key)
  }

  /** The ranking under one key: the records sorted by it and rated
      against 100 times the first one's value. */
  function RankBy(rs: seq<Record>, key: Key): (o: Outcome<seq<StarRow>>)
    ensures |rs| == 0 ==> o == Ok([])
    ensures (exists k :: 0 <= k < |rs| && rs[k].name.None?) ==> o.Fail?
    ensures |rs| > 0 ==> (o.Ok? <==> AllRankable(rs, Base(rs, key), key))
    ensures o.Fail? ==> |rs| > 0 && (o.msg == NilLabel || o.msg == NonFiniteName(Base(rs, key)) || o.msg == NegativeArgument)
    ensures o.Ok? ==> RatedRows(o.value)
    ensures o.Ok? ==> |o.value| == |rs|
    ensures o.Ok? ==> RowEntries(o.value) == RecordEntries(rs, key)
    ensures o.Ok? ==> RowsFromRecords(o.value, rs, key)
    ensures o.Ok? ==> AscendingRows(o.value)
    ensures o.Ok? && |rs| > 0 ==> o.value[0].percent == 100.0 && o.value[0].stars == 20
  {
    var f := (r: Record) => Measure(r, key);
    var sorted := SortBy(rs, f);
    if |sorted| == 0 then Ok([])
    else
      var o := StarRows(BaseOf(Measure(sorted[0], key)), sorted, key);
      RankingDecided(rs, sorted, key, o);
      RankingRefusesUnlabelled(rs, sorted, key, o);
      RankingRowsFromRecords(rs, sorted, key, o);
      RankingAscends(sorted, key, o);
      RankingRated(sorted, key, o);
      RankingPermutes(rs, key, f, sorted, o);
      o
  }

  /** The ranking's rows show every record once: their labels and values
      are those of the records, rearranged. */
  lemma RankingPermutes(rs: seq<Record>, key: Key, f: Record -> real, sorted: seq<Record>, o: Outcome<seq<StarRow>>)
    requires sorted == SortBy(rs, f)
    requires |sorted| > 0 && o == StarRows(BaseOf(Measure(sorted[0], key)), sorted, key)
    ensures o.Ok? ==> RowEntries(o.value) == RecordEntries(rs, key)
  {
    if o.Ok? {
      var g := (r: Record) => (r.name, Measure(r, key));
      BagPointwise(o.value, (row: StarRow) => (Some(row.name), row.value), sorted, g);
      SortByBag(rs, f, g);
    }
  }

  /** Ranking the sorted records succeeds or fails as the records
      themselves decide, against 100 times their least value. */
  lemma RankingDecided(rs: seq<Record>, sorted: seq<Record>, key: Key, o: Outcome<seq<StarRow>>)
    requires multiset(sorted) == multiset(rs)
    requires |sorted| > 0 && SortedBy(sorted, (r: Record) => Measure(r, key))
    requires o == StarRows(BaseOf(Measure(sorted[0], key)), sorted, key)
    ensures |rs| > 0
    ensures o.Ok? <==> AllRankable(rs, Base(rs, key), key)
    ensures o.Fail? ==> o.msg == NilLabel || o.msg == NonFiniteName(Base(rs, key)) || o.msg == NegativeArgument
  {
    SortedHeadIsLeast(rs, sorted, key);
    RankedAgainst(rs, sorted, Base(rs, key), key, o);
  }

  /** Rating the sorted records against `base` succeeds exactly when
      every one of the original records can be rated against it. */
  lemma RankedAgainst(rs: seq<Record>, sorted: seq<Record>, base: real, key: Key, o: Outcome<seq<StarRow>>)
    requires multiset(sorted) == multiset(rs)
    requires o == StarRows(base, sorted, key)
    ensures o.Ok? <==> AllRankable(rs, base, key)
    ensures o.Fail? ==> o.msg == NilLabel || o.msg == NonFiniteName(base) || o.msg == NegativeArgument
  {
    RankableEither(rs, sorted, base, key);
  }

  /** The first record after sorting by the key has the least value. */
  lemma SortedHeadIsLeast(rs: seq<Record>, sorted: seq<Record>, key: Key)
    requires multiset(sorted) == multiset(rs)
    requires |sorted| > 0 && SortedBy(sorted, (r: Record) => Measure(r, key))
    ensures |rs| > 0 && Measure(sorted[0], key) == Least(rs, key)
  {
    var f := (r: Record) => Measure(r, key);
    assert sorted[0] in multiset(rs);
    var i :| 0 <= i < |rs| && rs[i] == sorted[0];
    var j :| 0 <= j < |rs| && Measure(rs[j], key) == Least(rs, key);
    assert rs[j] in multiset(sorted);
    var k :| 0 <= k < |sorted| && sorted[k] == rs[j];
    assert k == 0 || f(sorted[0]) <= f(sorted[k]);
  }

  /** Sorting neither adds nor removes a record the ranking refuses. */
  lemma RankableEither(rs: seq<Record>, sorted: seq<Record>, base: real, key: Key)
    requires multiset(sorted) == multiset(rs)
    ensures AllRankable(sorted, base, key) <==> AllRankable(rs, base, key)
  {
    if AllRankable(sorted, base, key) {
      forall k | 0 <= k < |rs| ensures Rankable(rs[k], base, key) {
        assert rs[k] in multiset(sorted);
        var j :| 0 <= j < |sorted| && sorted[j] == rs[k];
      }
    }
    if AllRankable(rs, base, key) {
      forall k | 0 <= k < |sorted| ensures Rankable(sorted[k], base, key) {
        assert sorted[k] in multiset(rs);
        var j :| 0 <= j < |rs| && rs[j] == sorted[k];
      }
    }
  }

  lemma RankingRefusesUnlabelled(rs: seq<Record>, sorted: seq<Record>, key: Key, o: Outcome<seq<StarRow>>)
    requires multiset(sorted) == multiset(rs)
    requires |sorted| > 0 && o == StarRows(BaseOf(Measure(sorted[0], key)), sorted, key)
    ensures (exists k :: 0 <= k < |rs| && rs[k].name.None?) ==> o.Fail?
  {
    if k :| 0 <= k < |rs| && rs[k].name.None? {
      assert rs[k] in multiset(sorted);
      var j :| 0 <= j < |sorted| && sorted[j] == rs[k];
    }
  }

  lemma RankingRowsFromRecords(rs: seq<Record>, sorted: seq<Record>, key: Key, o: Outcome<seq<StarRow>>)
    requires multiset(sorted) == multiset(rs)
    requires |sorted| > 0 && o == StarRows(BaseOf(Measure(sorted[0], key)), sorted, key)
    ensures o.Ok? ==> RowsFromRecords(o.value, rs, key)
  {
    if o.Ok? {
      forall k | 0 <= k < |o.value|
        ensures exists j :: 0 <= j < |rs| && rs[j].name == Some(o.value[k].name) && Measure(rs[j], key) == o.value[k].value
      {
        assert sorted[k] in multiset(rs);
        var j :| 0 <= j < |rs| && rs[j] == sorted[k];
      }
    }
  }

  lemma RankingAscends(sorted: seq<Record>, key: Key, o: Outcome<seq<StarRow>>)
    requires |sorted| > 0 && SortedBy(sorted, (r: Record) => Measure(r, key))
    requires o == StarRows(BaseOf(Measure(sorted[0], key)), sorted, key)
    ensures o.Ok? ==> AscendingRows(o.value)
  {
    var f := (r: Record) => Measure(r, key);
    if o.Ok? {
      forall k, k' | 0 <= k < k' < |o.value|
        ensures o.value[k].value <= o.value[k'].value
      {
        assert f(sorted[k]) <= f(sorted[k']);
      }
    }
  }

  /** Every row is rated against the first row's value, which gets 100%
      and 20 stars. */
  lemma RankingRated(sorted: seq<Record>, key: Key, o: Outcome<seq<StarRow>>)
    requires |sorted| > 0 && o == StarRows(BaseOf(Measure(sorted[0], key)), sorted, key)
    ensures o.Ok? ==> RatedRows(o.value)
    ensures o.Ok? ==> o.value[0].percent == 100.0 && o.value[0].stars == 20
  {
    if o.Ok? {
      assert o.value[0].value == Measure(sorted[0], key) != 0.0;
      TwentyStarsOf(Measure(sorted[0], key));
    }
  }

  lemma TwentyStarsOf(best: real)
    requires best != 0.0
    ensures Share(100.0 * best, best) == 100.0 && Stars(100.0) == 20
  {
  }

  /** A successful ranking lists every record: some row shows its label
      and its value. */
  lemma RankingListsEveryRecord(st: Statistics, rs: seq<Record>, callOpts: Opts, j: nat)
    requires j < |rs| && Ranking(st, rs, callOpts).Ok?
    ensures var o := Ranking(st, rs, callOpts); var key := Merge(st.opts, callOpts).key;
      exists k :: 0 <= k < |o.value| && Some(o.value[k].name) == rs[j].name && o.value[k].value == Measure(rs[j], key)
  {
    var o := Ranking(st, rs, callOpts);
    var key := Merge(st.opts, callOpts).key;
    var g := (r: Record) => (r.name, Measure(r, key));
    var h := (row: StarRow) => (Some(row.name), row.value);
    ImageInBag(rs, g, j);
    assert g(rs[j]) in RowEntries(o.value);
    BagHasImage(o.value, h, g(rs[j]));
  }

  /** For labelled records with positive values the ranking succeeds; the
      best gets exactly 100% and 20 stars, every other row at most 100%
      and at most 20 stars, in ascending order of value. */
  lemma RankingOfPositiveValues(st: Statistics, rs: seq<Record>, callOpts: Opts)
    requires |rs| > 0
    requires forall k :: 0 <= k < |rs| ==> rs[k].name.Some? && Measure(rs[k], Merge(st.opts, callOpts).key) > 0.0
    ensures var o := Ranking(st, rs, callOpts);
      && o.Ok? && |o.value| == |rs|
      && o.value[0].percent == 100.0 && o.value[0].stars == 20
      && (forall k :: 0 <= k < |rs| ==> 0.0 < o.value[k].percent <= 100.0 && o.value[k].stars <= 20)
      && (forall k, k' :: 0 <= k < k' < |rs| ==> o.value[k].value <= o.value[k'].value)
  {
    var key := Merge(st.opts, callOpts).key;
    var f := (r: Record) => Measure(r, key);
    var sorted := SortBy(rs, f);
    SortedPositive(rs, sorted, key);
    RankSorted(sorted, key);
  }

  lemma SortedPositive(rs: seq<Record>, sorted: seq<Record>, key: Key)
    requires multiset(sorted) == multiset(rs)
    requires forall k :: 0 <= k < |rs| ==> rs[k].name.Some? && Measure(rs[k], key) > 0.0
    ensures forall k :: 0 <= k < |sorted| ==> sorted[k].name.Some? && Measure(sorted[k], key) > 0.0
  {
    forall k | 0 <= k < |sorted|
      ensures sorted[k].name.Some? && Measure(sorted[k], key) > 0.0
    {
      assert sorted[k] in multiset(rs);
    }
  }

  lemma RankSorted(sorted: seq<Record>, key: Key)
    requires |sorted| > 0
    requires SortedBy(sorted, (r: Record) => Measure(r, key))
    requires forall k :: 0 <= k < |sorted| ==> sorted[k].name.Some? && Measure(sorted[k], key) > 0.0
    ensures var o := StarRows(BaseOf(Measure(sorted[0], key)), sorted, key);
      && o.Ok? && |o.value| == |sorted|
      && o.value[0].percent == 100.0 && o.value[0].stars == 20
      && (forall k :: 0 <= k < |sorted| ==> 0.0 < o.value[k].percent <= 100.0 && o.value[k].stars <= 20)
      && (forall k, k' :: 0 <= k < k' < |sorted| ==> o.value[k].value <= o.value[k'].value)
  {
    var f := (r: Record) => Measure(r, key);
    var best := Measure(sorted[0], key);
    var base := BaseOf(best);
    forall k | 0 <= k < |sorted|
      ensures 0.0 < Share(base, Measure(sorted[k], key)) <= 100.0
      ensures 0 <= Stars(Share(base, Measure(sorted[k], key))) <= 20
    {
      assert k == 0 || f(sorted[0]) <= f(sorted[k]);
      ShareBounds(best, Measure(sorted[k], key));
    }
    forall k, k' | 0 <= k < k' < |sorted|
      ensures Measure(sorted[k], key) <= Measure(sorted[k'], key)
    {
      assert f(sorted[k]) <= f(sorted[k']);
    }
    TwentyStars(best);
  }

  lemma ShareBounds(best: real, v: real)
    requires 0.0 < best <= v
    ensures 0.0 < Share(100.0 * best, v) <= 100.0
    ensures 0 <= Stars(Share(100.0 * best, v)) <= 20
  {
  }

  lemma TwentyStars(best: real)
    requires best > 0.0
    ensures Share(100.0 * best, best) == 100.0 && Stars(100.0) == 20
  {
  }

  /** The star counts of the ranking this library's tests show: 95.45%
      gets 19 stars and 87.5% gets 17. */
  lemma StarExamples()
    ensures Stars(100.0 * 2.1 / 2.2) == 19
    ensures Stars(100.0 * 2.1 / 2.4) == 17
  {
  }

  // ---------------------------------------------------------------------
  // matrix

  /** The matrix for the given settings: records sorted by the key when
      `sort` is set, then cell `(i, j)` is the ratio of value `j` to value
      `i` (100 times their quotient, or the block's result) plus
      `compensate`.  A zero value `i` makes the default ratio infinite or
      NaN, which `"%6.1f"` prints without complaint. */
  function MatrixWith(s: Settings, rs: seq<Record>, block: Option<(real, real) -> real>): (o: Outcome<seq<seq<Ratio>>>)
    ensures o.Ok? <==> forall k :: 0 <= k < |rs| ==> rs[k].name.Some?
    ensures o.Ok? ==> |o.value| == |rs| && forall i :: 0 <= i < |rs| ==> |o.value[i]| == |rs|
    ensures o.Ok? ==> var rows := Rows(s, rs);
      forall i, j :: 0 <= i < |rs| && 0 <= j < |rs| ==>
        o.value[i][j] == Cell(Measure(rows[i], s.key), Measure(rows[j], s.key), s.compensate, block)
  {
    var rows := Rows(s, rs);
    if exists k :: 0 <= k < |rs| && rs[k].name.None? then
      Fail(NilLabel)
    else
      Ok(seq(|rows|, i requires 0 <= i < |rows| =>
        seq(|rows|, j requires 0 <= j < |rows| =>
          Cell(Measure(rows[i], s.key), Measure(rows[j], s.key), s.compensate, block))))
  }

  /** The records in matrix order. */
  function Rows(s: Settings, rs: seq<Record>): (rows: seq<Record>)
    ensures |rows| == |rs| && multiset(rows) == multiset(rs)
    ensures s.sort ==> SortedBy(rows, (r: Record) => Measure(r, s.key))
    ensures !s.sort ==> rows == rs
  {
    if s.sort then SortBy(rs, (r: Record) => Measure(r, s.key)) else rs
  }

  function Cell(val: real, other: real, compensate: real, block: Option<(real, real) -> real>): Ratio {
    match block
    case Some(f) => Finite(f(val, other) + compensate)
    case None => if val == 0.0 then NonFinite else Finite(100.0 * other / val + compensate)
  }

  /** `Statistics#matrix` as written: its settings merge the call's
      options into `DEFAULTS`, so whatever `Statistics.new` was given is
      ignored. */
  function MatrixAsWritten(st: Statistics, rs: seq<Record>, callOpts: Opts, block: Option<(real, real) -> real>)
    : (o: Outcome<seq<seq<Ratio>>>)
    ensures o == Matrix(New(NoOpts), rs, callOpts, block)
  {
    MatrixWith(Merge(Defaults, callOpts), rs, block)
  }

  /** `Statistics#matrix` as `ranking` reads its settings: the call's
      options merged into the object's own. */
  function Matrix(st: Statistics, rs: seq<Record>, callOpts: Opts, block: Option<(real, real) -> real>)
    : (o: Outcome<seq<seq<Ratio>>>)
    ensures o.Ok? <==> forall k :: 0 <= k < |rs| ==> rs[k].name.Some?
    ensures o.Ok? ==> |o.value| == |rs| && forall i :: 0 <= i < |rs| ==> |o.value[i]| == |rs|
    ensures o.Ok? ==> var s := Merge(st.opts, callOpts); var rows := Rows(s, rs);
      forall i, j :: 0 <= i < |rs| && 0 <= j < |rs| ==>
        o.value[i][j] == Cell(Measure(rows[i], s.key), Measure(rows[j], s.key), s.compensate, block)
  {
    MatrixWith(Merge(st.opts, callOpts), rs, block)
  }

  /** The diagonal of the default matrix is 100 plus the compensation. */
  lemma MatrixDiagonal(st: Statistics, rs: seq<Record>, callOpts: Opts, i: nat)
    requires i < |rs| && forall k :: 0 <= k < |rs| ==> rs[k].name.Some?
    requires Measure(Rows(Merge(st.opts, callOpts), rs)[i], Merge(st.opts, callOpts).key) != 0.0
    ensures Matrix(st, rs, callOpts, None).value[i][i] == Finite(100.0 + Merge(st.opts, callOpts).compensate)
  {
  }

  /** `Statistics.new(:compensate => -100)` should make the diagonal 0
      (the library's own test stores exactly that option); as written the
      diagonal stays 100. */
  lemma CompensateFromConstructor()
    ensures var st := New(Opts(None, None, Some(-100.0)));
      var rs := [Record(Some("A"), 1.0, 0.0, 1.0)];
      && MatrixAsWritten(st, rs, NoOpts, None) == Ok([[Finite(100.0)]])
      && Matrix(st, rs, NoOpts, None) == Ok([[Finite(0.0)]])
  {
    var rs := [Record(Some("A"), 1.0, 0.0, 1.0)];
    var s0 := Merge(Defaults, NoOpts);
    var s1 := Merge(Merge(Defaults, Opts(None, None, Some(-100.0))), NoOpts);
    assert s0 == Settings(RealKey, true, 0.0) && s1 == Settings(RealKey, true, -100.0);
    SortSingle(rs, (r: Record) => Measure(r, RealKey));
    SingleMatrix(s0, rs[0]);
    SingleMatrix(s1, rs[0]);
  }

  lemma SingleMatrix(s: Settings, r: Record)
    requires r.name.Some? && Measure(r, s.key) != 0.0
    requires Rows(s, [r]) == [r]
    ensures MatrixWith(s, [r], None) == Ok([[Finite(100.0 * Measure(r, s.key) / Measure(r, s.key) + s.compensate)]])
  {
    assert [r][0] == r;
    var o := MatrixWith(s, [r], None);
    assert o.Ok?;
    var m := o.value;
    assert m[0][0] == Finite(100.0 * Measure(r, s.key) / Measure(r, s.key) + s.compensate);
    assert m[0] == [m[0][0]];
    assert m == [m[0]];
  }

  lemma SortSingle<T>(s: seq<T>, key: T -> real)
    requires |s| == 1
    ensures SortBy(s, key) == s
  {
    assert multiset(SortBy(s, key)) == multiset(s);
    assert SortBy(s, key)[0] in multiset(s);
  }
}
