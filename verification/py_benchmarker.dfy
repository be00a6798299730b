/** The `Benchmarker` class of the Python benchmarker as a state machine:
    `bm(title)` names the next block, `with` brackets it between two clock
    readings (`__enter__` and `__exit__`), `run` does both around a
    function, and `compared_matrix` turns the recorded results into a
    `ComparedMatrix`.  Clock readings and the function's own outcome are
    inputs; the text written to `out` is not modelled. */
module PyBenchmarker {
  import opened Common
  import CM = ComparedMatrix

  /** `os.times()` user and system seconds with `time.time()`. */
  datatype Clock = Clock(user: real, sys: real, wall: real)

  /** One recorded result, the tuple `(title, utime, stime, total, real)`. */
  datatype Row = Row(title: Option<string>, utime: real, stime: real, total: real, realTime: real)

  /** The attributes that matter: `title` (absent or `None` is `None`),
      the clock readings `__enter__` took, and `results`. */
  datatype Bench = Bench(title: Option<string>, start: Option<Clock>, results: seq<Row>)

  /** A fresh `Benchmarker`: no title, no start readings, no results. */
  function New(): (b: Bench)
    ensures !HasTitle(b) && b.start.None? && b.results == []
  {
    Bench(None, None, [])
  }

  /** Python truthiness of the title: neither `None` nor empty. */
  predicate HasTitle(b: Bench) {
    b.title.Some? && b.title.value != ""
  }

  /** `__call__(title)`. */
  function Call(b: Bench, title: Option<string>): (r: Bench)
    ensures r.title == title && r.start == b.start && r.results == b.results
  {
    b.(title := title)
  }

  const NoTitle := "call __call__() before __enter__()."
  const NoStart := "'Benchmarker' object has no attribute 't1'"

  /** `__enter__`: refuses without a title, else takes the start
      readings. */
  function Enter(b: Bench, now: Clock): (o: Outcome<Bench>)
    ensures o.Ok? <==> HasTitle(b)
    ensures o.Fail? ==> o.msg == NoTitle
    ensures o.Ok? ==> o.value == b.(start := Some(now))
  {
    if !HasTitle(b) then Fail(NoTitle) else Ok(b.(start := Some(now)))
  }

  /** `__exit__`: appends the differences between the readings and then
      forgets the title and the start readings.  Without start readings
      the first attribute lookup, `self.t1`, fails. */
  function Exit(b: Bench, now: Clock): (o: Outcome<Bench>)
    ensures o.Ok? <==> b.start.Some?
    ensures o.Fail? ==> o.msg == NoStart
    ensures o.Ok? ==> o.value.title.None? && o.value.start.None?
    ensures o.Ok? ==> |o.value.results| == |b.results| + 1 && o.value.results[..|b.results|] == b.results
    ensures o.Ok? ==> var row := o.value.results[|b.results|];
      && row.title == b.title
      && row.utime + b.start.value.user == now.user
      && row.stime + b.start.value.sys == now.sys
      && row.total == row.utime + row.stime
      && row.realTime + b.start.value.wall == now.wall
  {
    match b.start
    case None => Fail(NoStart)
    case Some(s) =>
      var u := now.user - s.user;
      var st := now.sys - s.sys;
      var row := Row(b.title, u, st, u + st, now.wall - s.wall);
      assert (b.results + [row])[..|b.results|] == b.results;
      Ok(Bench(None, None, b.results + [row]))
  }

  /** `with bm(title): ...`: a block bracketed by `__enter__` and
      `__exit__`; an exception inside the block still reaches `__exit__`. */
  function With(b: Bench, title: Option<string>, t1: Clock, t2: Clock): (o: Outcome<Bench>)
    ensures o.Ok? <==> title.Some? && title.value != ""
    ensures o.Fail? ==> o.msg == NoTitle
    ensures o.Ok? ==> !HasTitle(o.value) && o.value.start.None?
    ensures o.Ok? ==> o.value.results == b.results + [Row(title, t2.user - t1.user, t2.sys - t1.sys,
                                                        (t2.user - t1.user) + (t2.sys - t1.sys), t2.wall - t1.wall)]
  {
    match Enter(Call(b, title), t1)
    case Fail(m) => Fail(m)
    case Ok(b1) => Exit(b1, t2)
  }

  /** `run(func, *args)`: `name` is `func.__name__`, used as the title
      when none is set; `result` is what the function returns or raises.
      The result is recorded even when the function raises, and the
      function's exception is what `run` raises then.  When `__enter__`
      refuses, the `finally` clause's `__exit__` fails as well and its
      exception is the one that surfaces. */
  function Run<V>(b: Bench, name: string, t1: Clock, t2: Clock, result: Outcome<V>): (r: (Bench, Outcome<V>))
    ensures var b0 := if HasTitle(b) then b else Call(b, Some(name));
      && (HasTitle(b0) ==> Exit(b0.(start := Some(t1)), t2).Ok? && r.0 == Exit(b0.(start := Some(t1)), t2).value && r.1 == result)
      && (!HasTitle(b0) && b0.start.None? ==> r.0 == b0 && r.1 == Fail(NoStart))
      && (!HasTitle(b0) && b0.start.Some? ==> Exit(b0, t2).Ok? && r.0 == Exit(b0, t2).value && r.1 == Fail(NoTitle))
  {
    var b0 := if HasTitle(b) then b else Call(b, Some(name));
    match Enter(b0, t1)
    case Fail(_) =>
      (match Exit(b0, t2)
       case Fail(m) => (b0, Fail(m))
       case Ok(b2) => (b2, Fail(NoTitle)))
    case Ok(b1) =>
      var b2 := Exit(b1, t2).value;
      (b2, result)
  }

  /** A named function run without a preset title is recorded under its
      own name, and the title is cleared afterwards. */
  lemma RunRecordsUnderName<V>(b: Bench, name: string, t1: Clock, t2: Clock, result: Outcome<V>)
    requires !HasTitle(b) && name != ""
    ensures var (b', r) := Run(b, name, t1, t2, result);
      && r == result
      && b'.results == b.results + [Row(Some(name), t2.user - t1.user, t2.sys - t1.sys,
                                        (t2.user - t1.user) + (t2.sys - t1.sys), t2.wall - t1.wall)]
      && !HasTitle(b')
  {
    var b0 := Call(b, Some(name));
    var b2 := Exit(b0.(start := Some(t1)), t2).value;
    assert b2.results[..|b.results|] == b.results;
    assert b2.results == b.results + [b2.results[|b.results|]];
  }

  /** A `with` block records one row and leaves no title behind, so the
      next block needs `bm(title)` again. */
  lemma WithNeedsTitleAgain(b: Bench, title: string, t1: Clock, t2: Clock, t3: Clock)
    requires title != ""
    ensures var o := With(b, Some(title), t1, t2);
      && o.Ok? && |o.value.results| == |b.results| + 1
      && o.value.results[|b.results|].title == Some(title)
      && Enter(o.value, t3) == Fail(NoTitle)
  {
  }

  /** Column `index` of a result tuple (1 to 4). */
  function Field(row: Row, index: int): real
    requires 1 <= index <= 4
  {
    if index == 1 then row.utime
    else if index == 2 then row.stime
    else if index == 3 then row.total
    else row.realTime
  }

  /** The matrix `compared_matrix` returns, with the titles and values it
      was built from. */
  datatype Compared = Compared(values: seq<real>, titles: seq<Option<string>>, transpose: bool, matrix: CM.Matrix)

  /** The raise for an out-of-range index names a class the module never
      imports, so Python 2 (the module's dialect) raises `NameError` with
      this message instead. */
  const BadIndex := "global name 'ArgumentError' is not defined"

  /** The rows `compared_matrix` reads, sorted by the chosen column when
      asked (Python's sort is stable), else as recorded. */
  function Arranged(rows: seq<Row>, index: int, sort: bool): (r: seq<Row>)
    requires 1 <= index <= 4
    ensures multiset(r) == multiset(rows)
    ensures sort ==> forall i, j :: 0 <= i < j < |r| ==> Field(r[i], index) <= Field(r[j], index)
    ensures !sort ==> r == rows
  {
    if sort then SortBy(rows, (row: Row) => Field(row, index)) else rows
  }

  /** `compared_matrix(transpose, index, formula, sort)`. */
  function ComparedMatrix(b: Bench, transpose: bool, index: int, formula: Option<(real, real) -> real>, sort: bool)
    : (o: Outcome<Compared>)
    ensures !(1 <= index <= 4) ==> o == Fail(BadIndex)
    ensures 1 <= index <= 4 ==>
      var rows := Arranged(b.results, index, sort);
      && (o.Ok? <==> CM.BuildMatrix(Values(rows, index), CM.Chosen(transpose, formula)).Ok?)
      && (o.Ok? ==> |o.value.values| == |o.value.titles| == |b.results| && o.value.transpose == transpose)
      && (o.Ok? ==> forall k :: 0 <= k < |rows| ==>
            o.value.titles[k] == rows[k].title && o.value.values[k] == Field(rows[k], index))
      && (o.Ok? ==> o.value.matrix == CM.BuildMatrix(o.value.values, CM.Chosen(transpose, formula)).value)
  {
    if !(1 <= index <= 4) then Fail(BadIndex)
    else
      var rows := Arranged(b.results, index, sort);
      var values := Values(rows, index);
      var titles := seq(|rows|, k requires 0 <= k < |rows| => rows[k].title);
      match CM.BuildMatrix(values, CM.Chosen(transpose, formula))
      case Fail(m) => Fail(m)
      case Ok(m) => Ok(Compared(values, titles, transpose, m))
  }

  function Values(rows: seq<Row>, index: int): (vs: seq<real>)
    requires 1 <= index <= 4
    ensures |vs| == |rows| && forall k :: 0 <= k < |rows| ==> vs[k] == Field(rows[k], index)
  {
    seq(|rows|, k requires 0 <= k < |rows| => Field(rows[k], index))
  }

  /** With `sort`, the values a `compared_matrix` is built from come out
      ascending and are the recorded values rearranged, each row (and so
      each title) still carrying its own value. */
  lemma SortedValues(results: seq<Row>, index: int)
    requires 1 <= index <= 4
    ensures var rows := Arranged(results, index, true);
      var vs := Values(rows, index);
      && (forall i, j :: 0 <= i < j < |vs| ==> vs[i] <= vs[j])
      && multiset(vs) == multiset(Values(results, index))
      && forall k :: 0 <= k < |rows| ==> rows[k] in results
  {
    var rows := Arranged(results, index, true);
    assert multiset(Values(rows, index)) == multiset(Values(results, index)) by {
      MapPreservesMultiset(rows, results, index);
    }
    forall k | 0 <= k < |rows|
      ensures rows[k] in results
    {
      assert rows[k] in multiset(rows);
    }
  }

  lemma {:induction false} MapPreservesMultiset(r: seq<Row>, s: seq<Row>, index: int)
    requires 1 <= index <= 4 && multiset(r) == multiset(s)
    ensures multiset(Values(r, index)) == multiset(Values(s, index))
    decreases |r|
  {
    if |r| > 0 {
      var x := r[0];
      assert x in multiset(s) by {
        assert x in multiset(r);
      }
      var i :| 0 <= i < |s| && s[i] == x;
      var s' := s[..i] + s[i + 1..];
      Remainders(r, s, i);
      assert multiset(Values(r[1..], index)) == multiset(Values(s', index)) by {
        MapPreservesMultiset(r[1..], s', index);
      }
      CombineValues(r, s, i, index);
    } else {
      assert |s| == |multiset(s)| == 0;
    }
  }

  lemma CombineValues(r: seq<Row>, s: seq<Row>, i: nat, index: int)
    requires 1 <= index <= 4 && |r| > 0 && i < |s| && s[i] == r[0]
    requires multiset(Values(r[1..], index)) == multiset(Values(s[..i] + s[i + 1..], index))
    ensures multiset(Values(r, index)) == multiset(Values(s, index))
  {
    var v := Field(r[0], index);
    assert multiset(Values(s, index)) == multiset(Values(s[..i] + s[i + 1..], index)) + multiset{v} by {
      ValuesDropOne(s, i, index);
    }
    assert multiset(Values(r, index)) == multiset(Values(r[1..], index)) + multiset{v} by {
      ValuesDropFirst(r, index);
    }
  }

  lemma ValuesDropFirst(r: seq<Row>, index: int)
    requires |r| > 0 && 1 <= index <= 4
    ensures multiset(Values(r, index)) == multiset(Values(r[1..], index)) + multiset{Field(r[0], index)}
  {
    assert Values(r, index) == [Field(r[0], index)] + Values(r[1..], index);
  }

  /** Taking one occurrence of the same element out of two arrangements
      of the same rows leaves arrangements of the same rows. */
  lemma Remainders(r: seq<Row>, s: seq<Row>, i: nat)
    requires multiset(r) == multiset(s) && |r| > 0 && i < |s| && s[i] == r[0]
    ensures multiset(r[1..]) == multiset(s[..i] + s[i + 1..])
  {
    assert multiset(s[..i] + s[i + 1..]) == multiset(s) - multiset{r[0]} by {
      DropOne(s, i);
    }
    assert multiset(r[1..]) == multiset(r) - multiset{r[0]} by {
      assert r == [r[0]] + r[1..];
    }
  }

  lemma DropOne(s: seq<Row>, i: nat)
    requires i < |s|
    ensures multiset(s[..i] + s[i + 1..]) == multiset(s) - multiset{s[i]}
  {
    assert s == s[..i] + [s[i]] + s[i + 1..];
  }

  lemma ValuesDropOne(s: seq<Row>, i: nat, index: int)
    requires i < |s| && 1 <= index <= 4
    ensures multiset(Values(s, index)) == multiset(Values(s[..i] + s[i + 1..], index)) + multiset{Field(s[i], index)}
  {
    var vs := Values(s, index);
    assert vs == vs[..i] + [vs[i]] + vs[i + 1..];
    assert Values(s[..i] + s[i + 1..], index) == vs[..i] + vs[i + 1..];
  }
}
