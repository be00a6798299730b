/** `Benchmarker::Result` of the older Ruby API: a label (field `name`, as
    `label` is a Dafny keyword) with user, system and real seconds.  The
    total is not stored; it is always derived as user plus system time. */
module LegacyResult {
  import opened Common
  import Results
  import RubyInspect

  datatype Record = Record(name: Option<string>, user: real, sys: real, realTime: real)

  /** `Result#total`. */
  function Total(r: Record): real {
    r.user + r.sys
  }

  /** The sum of one measure over a list of records. */
  function Sum(rs: seq<Record>, f: Record -> real): real {
    if |rs| == 0 then 0.0 else Sum(rs[..|rs| - 1], f) + f(rs[|rs| - 1])
  }

  function User(r: Record): real { r.user }
  function Sys(r: Record): real { r.sys }
  function Real(r: Record): real { r.realTime }

  /** `label.inspect` in the assertion message: `nil`, or the label as a
      double-quoted Ruby literal that reads back as the label. */
  function Inspect(name: Option<string>): (i: string)
    ensures name.None? ==> i == "nil"
    ensures name.Some? ==> |i| >= 2 && i[0] == '"' && i[|i| - 1] == '"'
    ensures name.Some? ==> RubyInspect.Read(i) == Some(name.value)
  {
    match name
    case None => "nil"
    case Some(s) => RubyInspect.Quoted(s)
  }

  /** The labels of `rs` agree in the sense of `(label ||= r.label) ==
      r.label`: once some record has a label, every later record has that
      same label; records without one may only come first. */
  predicate LabelsAgree(rs: seq<Record>) {
    forall i, j :: 0 <= i < j < |rs| && rs[i].name.Some? ==> rs[j].name == rs[i].name
  }

  /** The label check of `Result.average`, carrying the label seen so far. */
  function CheckLabels(rs: seq<Record>, seen: Option<string>): (o: Outcome<Option<string>>)
    ensures o.Ok? <==> (seen.Some? ==> forall j :: 0 <= j < |rs| ==> rs[j].name == seen) && LabelsAgree(rs)
    ensures o.Ok? && seen.Some? ==> o.value == seen
    ensures o.Ok? && seen.None? ==> forall j :: 0 <= j < |rs| && rs[j].name.Some? ==> o.value == rs[j].name
    ensures o.Ok? && seen.None? && o.value.Some? ==> exists j :: 0 <= j < |rs| && rs[j].name == o.value
    ensures o.Ok? && seen.None? && (forall j :: 0 <= j < |rs| ==> rs[j].name.None?) ==> o.value.None?
  {
    if |rs| == 0 then Ok(seen)
    else
      var name := if seen.None? then rs[0].name else seen;
      if name != rs[0].name then
        Fail("*** assertion: " + Inspect(name) + " == " + Inspect(rs[0].name) + ": failed.")
      else
        var o := CheckLabels(rs[1..], name);
        assert forall j :: 0 < j < |rs| ==> rs[j] == rs[1..][j - 1];
        o
  }

  /** `Result.average`: the label the records share and the mean of each
      time.  The records must not be empty (Ruby would divide by zero and
      produce NaN). */
  function Average(rs: seq<Record>): (o: Outcome<Record>)
    requires |rs| > 0
    ensures o.Ok? <==> LabelsAgree(rs)
    ensures o.Ok? ==> forall j :: 0 <= j < |rs| && rs[j].name.Some? ==> o.value.name == rs[j].name
    ensures o.Ok? && (forall j :: 0 <= j < |rs| ==> rs[j].name.None?) ==> o.value.name.None?
    ensures o.Ok? ==> o.value.user == Mean(rs, User) && o.value.sys == Mean(rs, Sys)
    ensures o.Ok? ==> o.value.realTime == Mean(rs, Real)
  {
    match CheckLabels(rs, None)
    case Fail(msg) => Fail(msg)
    case Ok(name) => Ok(Record(name, Mean(rs, User), Mean(rs, Sys), Mean(rs, Real)))
  }

  /** The arithmetic mean of one measure. */
  function Mean(rs: seq<Record>, f: Record -> real): (m: real)
    requires |rs| > 0
  {
    Sum(rs, f) / |rs| as real
  }

  /** A sum of totals is the sum of user times plus the sum of system
      times. */
  lemma {:induction false} SumOfTotals(rs: seq<Record>)
    ensures Sum(rs, Total) == Sum(rs, User) + Sum(rs, Sys)
  {
    if |rs| > 0 {
      SumOfTotals(rs[..|rs| - 1]);
    }
  }

  /** The total of the average is the mean of the totals. */
  lemma TotalOfAverage(rs: seq<Record>)
    requires |rs| > 0 && LabelsAgree(rs)
    ensures Total(Average(rs).value) == Mean(rs, Total)
  {
    SumOfTotals(rs);
    DivDistributes(Sum(rs, User), Sum(rs, Sys), |rs| as real);
  }

  lemma DivDistributes(x: real, y: real, n: real)
    requires n > 0.0
    ensures (x + y) / n == x / n + y / n
  {
  }

  lemma Cancels(a: real, b: real, n: real)
    requires n > 0.0 && a * n == n * b
    ensures a == b
  {
  }

  /** A sum of `n` values each between `lo` and `hi` lies between `n * lo`
      and `n * hi`. */
  lemma {:induction false} SumBounds(rs: seq<Record>, f: Record -> real, lo: real, hi: real)
    requires forall j :: 0 <= j < |rs| ==> lo <= f(rs[j]) <= hi
    ensures |rs| as real * lo <= Sum(rs, f) <= |rs| as real * hi
  {
    if |rs| > 0 {
      var init := rs[..|rs| - 1];
      assert forall j :: 0 <= j < |init| ==> init[j] == rs[j];
      SumBounds(init, f, lo, hi);
      Results.BoundStep(|init| as real, Sum(init, f), f(rs[|rs| - 1]), lo, hi);
    }
  }

  /** Each averaged time lies between the smallest and the largest of the
      averaged records' times. */
  lemma AverageWithinBounds(rs: seq<Record>, lo: real, hi: real)
    requires |rs| > 0 && LabelsAgree(rs)
    requires forall j :: 0 <= j < |rs| ==> lo <= rs[j].realTime <= hi
    ensures lo <= Average(rs).value.realTime <= hi
  {
    var n := |rs| as real;
    SumBounds(rs, Real, lo, hi);
    Results.QuotientBounds(Mean(rs, Real), n, Sum(rs, Real), lo, hi);
  }

  /** Averaging copies of one record gives that record back. */
  lemma AverageOfCopies(r: Record, n: nat)
    requires n > 0
    ensures Average(seq(n, _ => r)) == Ok(r)
  {
    var rs := seq(n, _ => r);
    SumOfCopies(r, n, User);
    SumOfCopies(r, n, Sys);
    SumOfCopies(r, n, Real);
    assert forall j :: 0 <= j < n ==> rs[j] == r;
    assert rs[0] == r;
    Cancels(Mean(rs, User), r.user, n as real);
    Cancels(Mean(rs, Sys), r.sys, n as real);
    Cancels(Mean(rs, Real), r.realTime, n as real);
  }

  lemma {:induction false} SumOfCopies(r: Record, n: nat, f: Record -> real)
    ensures Sum(seq(n, _ => r), f) == n as real * f(r)
  {
    if n > 0 {
      assert seq(n, _ => r)[..n - 1] == seq(n - 1, _ => r);
      SumOfCopies(r, n - 1, f);
    }
  }

  /** Two labelled records with different labels cannot be averaged, and
      unlabelled records before a labelled one do not count. */
  lemma LabelMismatchRefused(a: Record, b: Record)
    requires a.name.Some? && b.name != a.name
    ensures Average([a, b]) == Fail("*** assertion: " + Inspect(a.name) + " == " + Inspect(b.name) + ": failed.")
    ensures Average([b.(name := None), a]).Ok? && Average([b.(name := None), a]).value.name == a.name
  {
    assert [a, b][1..] == [b];
    assert CheckLabels([b], a.name).Fail?;
    var c := b.(name := None);
    assert [c, a][1..] == [a] && [a][1..] == [];
    assert CheckLabels([c, a], None) == CheckLabels([a], None) == Ok(a.name);
  }

  /** A quote in the first label is backslashed in the message. */
  lemma QuoteInLabelEscaped(a: Record, b: Record)
    requires a.name == Some("a\"b") && b.name == Some("c")
    ensures Average([a, b]) == Fail("*** assertion: " + "\"a\\\"b\"" + " == " + "\"c\"" + ": failed.")
  {
    LabelMismatchRefused(a, b);
    assert Inspect(a.name) == "\"a\\\"b\"" by {
      RubyInspect.QuoteExample();
    }
    assert Inspect(b.name) == "\"c\"" by {
      assert RubyInspect.Escaped("c") == "c";
    }
  }
}
