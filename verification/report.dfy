/** The arithmetic of `Benchmark#report_stats`: every task's mean real
    time, sorted ascending, then the ranking (percentage of the fastest
    time, throughput, and a bar of one `*` per 5%) and the comparison
    matrix (`100 * r_j / r_i`).  Formatting the tables is not modelled. */
module Report {
  import opened Common
  import opened Timing
  import opened Results
  import opened Filtering
  import opened Bench

  /** A task label with its mean real time. */
  datatype Timed = Timed(name: Option<string>, sec: real)

  function Sec(p: Timed): real {
    p.sec
  }

  /** The pairs `report_stats` ranks: each entry's mean real time, in
      ascending order of that time. */
  function StatsPairs(es: seq<Entry>): (ps: seq<Timed>)
    requires forall j :: 0 <= j < |es| ==> |es[j].result.iterations| > 0
    ensures |ps| == |es|
    ensures SortedBy(ps, Sec)
    ensures multiset(ps) == multiset(seq(|es|, j requires 0 <= j < |es| =>
      Timed(es[j].task.name, CalcAverage(es[j].result).realTime)))
  {
    SortBy(seq(|es|, j requires 0 <= j < |es| => Timed(es[j].task.name, CalcAverage(es[j].result).realTime)), Sec)
  }

  // ---------------------------------------------------------------------
  // _render_ranking

  datatype RankRow = RankRow(name: Option<string>, sec: real, percent: real, perSec: real, bar: nat)

  /** The loop count the throughput column divides by: the `inverse:`
      count when one was given, the `loop:` option otherwise. */
  function LoopFor(inverse: Inverse, loop: nat): nat {
    match inverse
    case InverseCount(n) => n
    case _ => loop
  }

  /** `part` as a percentage of `whole`. */
  function Percent(part: real, whole: real): (p: real)
    requires whole != 0.0
  {
    100.0 * part / whole
  }

  lemma PercentScales(part: real, whole: real)
    requires whole != 0.0
    ensures Percent(part, whole) * whole == 100.0 * part
  {
  }

  lemma PercentOfSelf(x: real)
    requires x != 0.0
    ensures Percent(x, x) == 100.0
  {
  }

  /** A part no larger than a positive whole is a percentage in (0, 100],
      and the larger the whole, the smaller the percentage. */
  lemma PercentBounds(part: real, whole: real)
    requires 0.0 < part <= whole
    ensures 0.0 < Percent(part, whole) <= 100.0
  {
  }

  lemma PercentFalls(part: real, w1: real, w2: real)
    requires 0.0 < part && 0.0 < w1 <= w2
    ensures Percent(part, w2) <= Percent(part, w1)
  {
    var p1, p2 := Percent(part, w1), Percent(part, w2);
    assert p1 * w1 == p2 * w2 by {
      PercentScales(part, w1);
      PercentScales(part, w2);
    }
    assert p2 > 0.0;
    assert p2 * w1 <= p2 * w2 by {
      assert p2 * (w2 - w1) >= 0.0;
    }
    var d := p1 - p2;
    assert d * w1 >= 0.0 by {
      assert d * w1 == p1 * w1 - p2 * w1;
    }
    NonNegativeFactor(d, w1);
  }

  lemma NonNegativeFactor(d: real, w: real)
    requires w > 0.0 && d * w >= 0.0
    ensures d >= 0.0
  {
    assert d == (d * w) / w;
  }

  lemma PercentMirror(a: real, b: real)
    requires a != 0.0 && b != 0.0
    ensures Percent(a, b) * Percent(b, a) == 10000.0
  {
    var x := Percent(a, b);
    var y := Percent(b, a);
    PercentScales(a, b);
    PercentScales(b, a);
    assert x * y * (a * b) == (x * b) * (y * a);
  }

  lemma PercentAtLeastHundred(part: real, whole: real)
    requires 0.0 < whole <= part
    ensures Percent(part, whole) >= 100.0
  {
    PercentScales(part, whole);
  }

  /** The rows for `ps` against the fastest time `base`.  A zero time
      makes the percentage non-finite, which `Float#round` refuses; a bar
      of negative length is refused by `String#*`. */
  function RankRows(base: real, ps: seq<Timed>, loop: nat): (o: Outcome<seq<RankRow>>)
    ensures o.Ok? <==> forall k :: 0 <= k < |ps| ==>
      ps[k].sec != 0.0 && Round(Percent(base, ps[k].sec) / 5.0) >= 0
    ensures o.Ok? ==> |o.value| == |ps|
    ensures o.Ok? ==> forall k :: 0 <= k < |ps| ==>
      var row := o.value[k];
      && row.name == ps[k].name && row.sec == ps[k].sec
      && row.percent == Percent(base, ps[k].sec)
      && row.perSec == loop as real / ps[k].sec
      && row.bar == Round(row.percent / 5.0)
  {
    if |ps| == 0 then Ok([])
    else if ps[0].sec == 0.0 then Fail(NonFiniteName(base))
    else
      var percent := Percent(base, ps[0].sec);
      var bar := Round(percent / 5.0);
      if bar < 0 then Fail("negative argument")
      else
        match RankRows(base, ps[1..], loop)
        case Fail(msg) => Fail(msg)
        case Ok(rows) =>
          Ok([RankRow(ps[0].name, ps[0].sec, percent, loop as real / ps[0].sec, bar)] + rows)
  }

  /** `Benchmark#_render_ranking`: the first pair's time is the base.  It
      fails exactly when a time is zero or a bar would be negative; on
      success each row keeps its task's label and time, its percentage is
      the first time's share of it (so the first row is 100%), and the
      throughput divides the `inverse:` count when one was given, else
      the `loop:` option; its bar has `round(percent / 5)` stars. */
  function Ranking(ps: seq<Timed>, inverse: Inverse, loop: nat): (o: Outcome<seq<RankRow>>)
    ensures |ps| == 0 ==> o == Ok([])
    ensures |ps| > 0 ==> (o.Ok? <==> forall k :: 0 <= k < |ps| ==>
      ps[k].sec != 0.0 && Round(Percent(ps[0].sec, ps[k].sec) / 5.0) >= 0)
    ensures o.Ok? ==> |o.value| == |ps|
    ensures o.Ok? ==> forall k :: 0 <= k < |ps| ==>
      && o.value[k].name == ps[k].name && o.value[k].sec == ps[k].sec
      && o.value[k].percent == Percent(ps[0].sec, ps[k].sec)
      && o.value[k].perSec == (if inverse.InverseCount? then inverse.n else loop) as real / ps[k].sec
      && o.value[k].bar == Round(o.value[k].percent / 5.0)
    ensures o.Ok? && |ps| > 0 ==> o.value[0].percent == 100.0
  {
    if |ps| == 0 then Ok([])
    else
      var o := RankRows(ps[0].sec, ps, LoopFor(inverse, loop));
      if o.Ok? then
        PercentOfSelf(ps[0].sec);
        o
      else o
  }

  /** For positive times in ascending order the ranking succeeds; the
      fastest task gets exactly 100% and a 20-star bar, and every other
      task at most 100% and at most 20 stars, falling as times grow. */
  lemma RankingOfSortedTimes(ps: seq<Timed>, inverse: Inverse, loop: nat)
    requires |ps| > 0
    requires SortedBy(ps, Sec)
    requires forall k :: 0 <= k < |ps| ==> ps[k].sec > 0.0
    ensures var o := Ranking(ps, inverse, loop);
      && o.Ok?
      && o.value[0].percent == 100.0 && o.value[0].bar == 20
      && (forall k :: 0 <= k < |ps| ==> 0.0 < o.value[k].percent <= 100.0 && o.value[k].bar <= 20)
      && (forall k, k' :: 0 <= k < k' < |ps| ==> o.value[k'].percent <= o.value[k].percent)
  {
    var base := ps[0].sec;
    forall k | 0 <= k < |ps|
      ensures 0.0 < Percent(base, ps[k].sec) <= 100.0
    {
      assert k == 0 || Sec(ps[0]) <= Sec(ps[k]);
      PercentBounds(base, ps[k].sec);
    }
    var rows := Ranking(ps, inverse, loop).value;
    forall k, k' | 0 <= k < k' < |ps|
      ensures rows[k'].percent <= rows[k].percent
    {
      assert Sec(ps[k]) <= Sec(ps[k']);
      PercentFalls(base, ps[k].sec, ps[k'].sec);
    }
    PercentOfSelf(base);
  }

  // ---------------------------------------------------------------------
  // _render_matrix

  /** Row `i` of the matrix: every time as a percentage of time `i`. */
  function MatrixRow(ps: seq<Timed>, i: nat): (row: seq<Ratio>)
    requires i < |ps|
    ensures |row| == |ps|
    ensures ps[i].sec == 0.0 ==> forall j :: 0 <= j < |ps| ==> row[j] == NonFinite
    ensures ps[i].sec != 0.0 ==> forall j :: 0 <= j < |ps| ==> row[j].Finite? && row[j].v * ps[i].sec == 100.0 * ps[j].sec
    ensures ps[i].sec != 0.0 ==> row[i] == Finite(100.0)
  {
    var row := seq(|ps|, j requires 0 <= j < |ps| =>
      if ps[i].sec == 0.0 then NonFinite else Finite(Percent(ps[j].sec, ps[i].sec)));
    if ps[i].sec == 0.0 then row
    else
      PercentOfSelf(ps[i].sec);
      ScalesOf(ps, ps[i].sec);
      row
  }

  /** Every time's percentage of `whole`, scaled back by `whole`, is 100
      times that time. */
  lemma ScalesOf(ps: seq<Timed>, whole: real)
    requires whole != 0.0
    ensures forall j :: 0 <= j < |ps| ==> Percent(ps[j].sec, whole) * whole == 100.0 * ps[j].sec
  {
    forall j | 0 <= j < |ps|
      ensures Percent(ps[j].sec, whole) * whole == 100.0 * ps[j].sec
    {
      PercentScales(ps[j].sec, whole);
    }
  }

  /** `Benchmark#_render_matrix`: cell `(i, j)` is time `j` as a percentage
      of time `i`; a zero time `i` makes its whole row non-finite. */
  function Matrix(ps: seq<Timed>): (m: seq<seq<Ratio>>)
    ensures |m| == |ps|
    ensures forall i :: 0 <= i < |ps| ==> |m[i]| == |ps|
    ensures forall i, j :: 0 <= i < |ps| && 0 <= j < |ps| ==>
      m[i][j] == if ps[i].sec == 0.0 then NonFinite else Finite(Percent(ps[j].sec, ps[i].sec))
  {
    seq(|ps|, i requires 0 <= i < |ps| => MatrixRow(ps, i))
  }

  /** The diagonal is 100% and mirrored cells are reciprocal. */
  lemma MatrixDiagonalAndMirror(ps: seq<Timed>, i: nat, j: nat)
    requires i < |ps| && j < |ps|
    requires ps[i].sec != 0.0 && ps[j].sec != 0.0
    ensures Matrix(ps)[i][i] == Finite(100.0)
    ensures Matrix(ps)[i][j].v * Matrix(ps)[j][i].v == 10000.0
  {
    PercentOfSelf(ps[i].sec);
    PercentMirror(ps[j].sec, ps[i].sec);
  }

  /** With positive times in ascending order, a row's cells right of the
      diagonal are at least 100% and those left of it at most 100%. */
  lemma MatrixOfSortedTimes(ps: seq<Timed>, i: nat, j: nat)
    requires i < |ps| && j < |ps|
    requires SortedBy(ps, Sec)
    requires forall k :: 0 <= k < |ps| ==> ps[k].sec > 0.0
    ensures i <= j ==> Matrix(ps)[i][j].v >= 100.0
    ensures j <= i ==> Matrix(ps)[i][j].v <= 100.0
  {
    if i <= j {
      assert i == j || Sec(ps[i]) <= Sec(ps[j]);
      PercentAtLeastHundred(ps[j].sec, ps[i].sec);
    }
    if j <= i {
      assert i == j || Sec(ps[j]) <= Sec(ps[i]);
      PercentBounds(ps[j].sec, ps[i].sec);
    }
  }

  /** The ranking's percentages are the matrix's first column. */
  lemma RankingIsFirstColumn(ps: seq<Timed>, inverse: Inverse, loop: nat, k: nat)
    requires k < |ps|
    requires Ranking(ps, inverse, loop).Ok?
    ensures Matrix(ps)[k][0] == Finite(Ranking(ps, inverse, loop).value[k].percent)
  {
  }
}
