/** The four-field time measurement of the benchmarker library
    (`Benchmarker::TimeData`): user and system CPU seconds, their sum, and
    elapsed wall-clock seconds.  Ruby's `real` field is called `realTime`
    here because `real` is a Dafny type name. */
module Timing {

  datatype TimeData = TimeData(user: real, sys: real, total: real, realTime: real)

  /** The field a statistic is taken over (Ruby's `key` symbol). */
  datatype Field = User | Sys | Total | Real

  function Get(t: TimeData, f: Field): real {
    match f
    case User => t.user
    case Sys => t.sys
    case Total => t.total
    case Real => t.realTime
  }

  /** The accessor's name in the source, as error messages print it. */
  function FieldName(f: Field): string {
    match f
    case User => "user"
    case Sys => "sys"
    case Total => "total"
    case Real => "real"
  }

  const Zero := TimeData(0.0, 0.0, 0.0, 0.0)

  /** `total` is the sum of user and system time, as every measurement
      creates it. */
  predicate Consistent(t: TimeData) {
    t.total == t.user + t.sys
  }

  function Add(a: TimeData, b: TimeData): (r: TimeData)
    ensures forall f :: Get(r, f) == Get(a, f) + Get(b, f)
  {
    TimeData(a.user + b.user, a.sys + b.sys, a.total + b.total, a.realTime + b.realTime)
  }

  /** `TimeData#-`: field-wise difference.  A field comes out negative
      exactly when the subtrahend's is larger: nothing is clamped. */
  function Sub(a: TimeData, b: TimeData): (r: TimeData)
    ensures Add(r, b) == a
    ensures forall f :: Get(r, f) < 0.0 <==> Get(a, f) < Get(b, f)
    ensures Consistent(a) && Consistent(b) ==> Consistent(r)
  {
    TimeData(a.user - b.user, a.sys - b.sys, a.total - b.total, a.realTime - b.realTime)
  }

  /** Every field divided by a positive count. */
  function Div(t: TimeData, n: nat): (r: TimeData)
    requires n > 0
    ensures Consistent(t) ==> Consistent(r)
  {
    TimeData(t.user / n as real, t.sys / n as real, t.total / n as real, t.realTime / n as real)
  }

  /** Each field of the quotient times the count gives the field back. */
  lemma DivScales(t: TimeData, n: nat, f: Field)
    requires n > 0
    ensures Get(Div(t, n), f) * n as real == Get(t, f)
  {
  }

  lemma DivScalesAll(t: TimeData, n: nat)
    requires n > 0
    ensures forall f :: Get(Div(t, n), f) * n as real == Get(t, f)
  {
    forall f {
      DivScales(t, n, f);
    }
  }

  /** Dividing a difference is the difference of the quotients. */
  lemma DivSub(a: TimeData, b: TimeData, n: nat)
    requires n > 0
    ensures Div(Sub(a, b), n) == Sub(Div(a, n), Div(b, n))
  {
    var m := n as real;
    assert (a.user - b.user) / m == a.user / m - b.user / m;
    assert (a.sys - b.sys) / m == a.sys / m - b.sys / m;
    assert (a.total - b.total) / m == a.total / m - b.total / m;
    assert (a.realTime - b.realTime) / m == a.realTime / m - b.realTime / m;
  }

  /** A reading of the process clocks: `Process.times` user and system
      seconds, and `Time.now` in seconds. */
  datatype Clock = Clock(utime: real, stime: real, now: real)

  /** What `Task#invoke` returns for the readings taken before and after
      running the block: the difference of the readings, with `total`
      derived as user plus system time. */
  function Measure(before: Clock, after: Clock): (r: TimeData)
    ensures Consistent(r)
    ensures Add(r, Stamp(before)) == Stamp(after)
  {
    var user := after.utime - before.utime;
    var sys := after.stime - before.stime;
    TimeData(user, sys, user + sys, after.now - before.now)
  }

  /** A clock reading seen as a (cumulative) measurement. */
  function Stamp(c: Clock): TimeData {
    TimeData(c.utime, c.stime, c.utime + c.stime, c.now)
  }

}
