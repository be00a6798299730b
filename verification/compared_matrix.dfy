/** `ComparedMatrix` of the Python benchmarker: for a list of values, a
    square matrix whose cell `(i, j)` compares value `j` with value `i` as
    a percentage, with `None` on the diagonal.  Python's float division
    raises on a zero divisor, and the formula is evaluated on the diagonal
    too before that cell is overwritten. */
module ComparedMatrix {
  import opened Common

  /** A formula: two values to a percentage, or the exception it raises. */
  type Formula = (real, real) -> Outcome<real>

  const ZeroDivision := "float division by zero"

  /** Python's `a / b` on floats. */
  function Divide(a: real, b: real): (o: Outcome<real>)
    ensures o.Ok? <==> b != 0.0
    ensures o.Ok? ==> o.value * b == a
  {
    if b == 0.0 then Fail(ZeroDivision) else Ok(a / b)
  }

  /** `default_formula`: how much larger `y` is than `x`, in percent of
      `x`; transposed, how much larger `x` is than `y`. */
  function DefaultFormula(transpose: bool): (f: Formula)
    ensures forall x: real, y: real :: f(x, y).Ok? <==> (if transpose then y else x) != 0.0
    ensures forall x: real, y: real :: f(x, y).Ok? ==>
      (f(x, y).value + 100.0) * (if transpose then y else x) == 100.0 * (if transpose then x else y)
  {
    if transpose then (x: real, y: real) => Percent(x, y)
    else (x: real, y: real) => Percent(y, x)
  }

  /** `100.0 * a / b - 100.0`. */
  function Percent(a: real, b: real): (o: Outcome<real>)
    ensures o.Ok? <==> b != 0.0
    ensures o.Ok? ==> (o.value + 100.0) * b == 100.0 * a
  {
    match Divide(100.0 * a, b)
    case Fail(m) => Fail(m)
    case Ok(q) => Ok(q - 100.0)
  }

  /** A formula the caller supplies; the model takes it to be total. */
  function Custom(f: (real, real) -> real): (g: Formula)
    ensures forall x: real, y: real :: g(x, y) == Ok(f(x, y))
  {
    (x: real, y: real) => Ok(f(x, y))
  }

  /** The formula a `ComparedMatrix` uses: the caller's, unless none was
      given. */
  function Chosen(transpose: bool, formula: Option<(real, real) -> real>): (f: Formula)
    ensures formula.Some? ==> forall x: real, y: real :: f(x, y) == Ok(formula.value(x, y))
    ensures formula.None? ==> forall x: real, y: real :: f(x, y).Ok? <==> (if transpose then y else x) != 0.0
  {
    match formula
    case None => DefaultFormula(transpose)
    case Some(f) => Custom(f)
  }

  type Matrix = seq<seq<Option<real>>>

  /** `f(x, y)` for every `y` in `ys`, left to right, stopping at the first
      exception. */
  function Row(x: real, ys: seq<real>, f: Formula): (o: Outcome<seq<real>>)
    ensures o.Ok? <==> forall j :: 0 <= j < |ys| ==> f(x, ys[j]).Ok?
    ensures o.Ok? ==> |o.value| == |ys| && forall j :: 0 <= j < |ys| ==> o.value[j] == f(x, ys[j]).value
    ensures o.Fail? ==> exists j :: 0 <= j < |ys| && f(x, ys[j]) == Fail(o.msg)
    decreases |ys|
  {
    if |ys| == 0 then Ok([])
    else
      match f(x, ys[0])
      case Fail(m) => Fail(m)
      case Ok(v) =>
        var rest := Row(x, ys[1..], f);
        assert forall j :: 0 < j < |ys| ==> ys[j] == ys[1..][j - 1];
        match rest
        case Fail(m) => Fail(m)
        case Ok(vs) => Ok([v] + vs)
  }

  /** One matrix row with its own position set to `None`. */
  function WithHole(row: seq<real>, i: nat): (r: seq<Option<real>>)
    requires i < |row|
    ensures |r| == |row| && r[i] == None
    ensures forall j :: 0 <= j < |row| && j != i ==> r[j] == Some(row[j])
  {
    seq(|row|, j requires 0 <= j < |row| => if j == i then None else Some(row[j]))
  }

  /** `build_matrix(values, formula)`, from row `i` on. */
  function BuildFrom(values: seq<real>, i: nat, f: Formula): (o: Outcome<Matrix>)
    requires i <= |values|
    ensures o.Ok? <==> forall a, b :: i <= a < |values| && 0 <= b < |values| ==> f(values[a], values[b]).Ok?
    ensures o.Ok? ==> |o.value| == |values| - i
    ensures o.Ok? ==> forall a :: 0 <= a < |o.value| ==> |o.value[a]| == |values|
    ensures o.Ok? ==> forall a :: 0 <= a < |o.value| ==> o.value[a][i + a] == None
    ensures o.Ok? ==> forall a, b :: 0 <= a < |o.value| && 0 <= b < |values| && b != i + a ==>
      o.value[a][b] == Some(f(values[i + a], values[b]).value)
    ensures o.Fail? ==> exists a, b :: i <= a < |values| && 0 <= b < |values| && f(values[a], values[b]) == Fail(o.msg)
    decreases |values| - i
  {
    if i == |values| then Ok([])
    else
      match Row(values[i], values, f)
      case Fail(m) => Fail(m)
      case Ok(row) =>
        match BuildFrom(values, i + 1, f)
        case Fail(m) => Fail(m)
        case Ok(rest) => Ok(Join(values, i, f, row, rest))
  }

  /** Row `i`, with its hole, on top of the rows below it. */
  function Join(values: seq<real>, i: nat, f: Formula, row: seq<real>, rest: Matrix): (m: Matrix)
    requires i < |values| && |row| == |values| && |rest| == |values| - i - 1
    requires forall a, b :: i <= a < |values| && 0 <= b < |values| ==> f(values[a], values[b]).Ok?
    requires forall b :: 0 <= b < |values| ==> row[b] == f(values[i], values[b]).value
    requires forall a :: 0 <= a < |rest| ==> |rest[a]| == |values| && rest[a][i + 1 + a] == None
    requires forall a, b :: 0 <= a < |rest| && 0 <= b < |values| && b != i + 1 + a ==>
      rest[a][b] == Some(f(values[i + 1 + a], values[b]).value)
    ensures |m| == |values| - i
    ensures forall a :: 0 <= a < |m| ==> |m[a]| == |values| && m[a][i + a] == None
    ensures forall a, b :: 0 <= a < |m| && 0 <= b < |values| && b != i + a ==>
      m[a][b] == Some(f(values[i + a], values[b]).value)
  {
    var m := [WithHole(row, i)] + rest;
    assert forall a :: 0 < a < |m| ==> m[a] == rest[a - 1];
    m
  }

  /** `ComparedMatrix.build_matrix`: the matrix exists exactly when the
      formula can be evaluated on every ordered pair of values, the
      diagonal included; it is square, `None` on the diagonal, and cell
      `(i, j)` is the formula applied to values `i` and `j`. */
  function BuildMatrix(values: seq<real>, f: Formula): (o: Outcome<Matrix>)
    ensures o.Ok? <==> forall a, b :: 0 <= a < |values| && 0 <= b < |values| ==> f(values[a], values[b]).Ok?
    ensures o.Ok? ==> |o.value| == |values| && forall a :: 0 <= a < |values| ==> |o.value[a]| == |values|
    ensures o.Ok? ==> forall a :: 0 <= a < |values| ==> o.value[a][a] == None
    ensures o.Ok? ==> forall a, b :: 0 <= a < |values| && 0 <= b < |values| && a != b ==>
      o.value[a][b] == Some(f(values[a], values[b]).value)
    ensures o.Fail? ==> exists a, b :: 0 <= a < |values| && 0 <= b < |values| && f(values[a], values[b]) == Fail(o.msg)
  {
    BuildFrom(values, 0, f)
  }

  /** With the default formula the matrix fails exactly when some value is
      zero, whichever way round it is built. */
  lemma DefaultFailsOnZero(values: seq<real>, transpose: bool)
    ensures BuildMatrix(values, DefaultFormula(transpose)).Ok? <==> forall a :: 0 <= a < |values| ==> values[a] != 0.0
    ensures BuildMatrix(values, DefaultFormula(transpose)).Fail? ==>
      BuildMatrix(values, DefaultFormula(transpose)).msg == ZeroDivision
  {
    var f := DefaultFormula(transpose);
    if forall a :: 0 <= a < |values| ==> values[a] != 0.0 {
      forall a, b | 0 <= a < |values| && 0 <= b < |values|
        ensures f(values[a], values[b]).Ok?
      {
        assert Percent(values[a], values[b]).Ok? && Percent(values[b], values[a]).Ok?;
      }
    } else {
      var a :| 0 <= a < |values| && values[a] == 0.0;
      assert Percent(values[a], values[a]).Fail?;
    }
    var o := BuildMatrix(values, f);
    if o.Fail? {
      var a, b :| 0 <= a < |values| && 0 <= b < |values| && f(values[a], values[b]) == Fail(o.msg);
      assert transpose ==> f(values[a], values[b]) == Percent(values[a], values[b]);
      assert !transpose ==> f(values[a], values[b]) == Percent(values[b], values[a]);
    }
  }

  /** The transposed default matrix is the transpose of the plain one. */
  lemma DefaultTranspose(values: seq<real>)
    requires forall a :: 0 <= a < |values| ==> values[a] != 0.0
    ensures var plain := BuildMatrix(values, DefaultFormula(false));
      var flipped := BuildMatrix(values, DefaultFormula(true));
      && plain.Ok? && flipped.Ok?
      && forall a, b :: 0 <= a < |values| && 0 <= b < |values| ==> flipped.value[a][b] == plain.value[b][a]
  {
    DefaultFailsOnZero(values, false);
    DefaultFailsOnZero(values, true);
  }

  /** For positive values, a cell of the default matrix is positive exactly
      when the column's value exceeds the row's, and zero exactly when they
      are equal. */
  lemma DefaultCellSign(values: seq<real>, a: nat, b: nat)
    requires forall k :: 0 <= k < |values| ==> values[k] > 0.0
    requires a < |values| && b < |values| && a != b
    ensures var m := BuildMatrix(values, DefaultFormula(false));
      && m.Ok? && m.value[a][b].Some?
      && (m.value[a][b].value > 0.0 <==> values[b] > values[a])
      && (m.value[a][b].value == 0.0 <==> values[b] == values[a])
  {
    DefaultFailsOnZero(values, false);
    PercentSign(values[b], values[a]);
  }

  lemma PercentSign(y: real, x: real)
    requires x > 0.0
    ensures Percent(y, x).Ok?
    ensures Percent(y, x).value > 0.0 <==> y > x
    ensures Percent(y, x).value == 0.0 <==> y == x
  {
    var q := Divide(100.0 * y, x).value;
    assert q * x == 100.0 * y;
    if y > x {
      assert q * x > 100.0 * x;
    } else if y < x {
      assert q * x < 100.0 * x;
    }
  }
}
