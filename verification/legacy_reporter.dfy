/** `Benchmarker::Reporter` of the older Ruby API as a state machine: text
    goes to the output unless the reporter is quiet (`verbose: false`) and
    inside the verbose region that `Runner#repeat` opens around its rounds.
    The output is kept as the string written so far. */
module LegacyReporter {
  datatype Reporter = Reporter(verbose: bool, inRegion: bool, width: nat, out: string)

  /** `Reporter.new` with the defaults: verbose, width 30, outside any
      region. */
  function New(out: string): (r: Reporter)
    ensures r.verbose && !r.inRegion && r.width == 30 && r.out == out
  {
    Reporter(true, false, 30, out)
  }

  /** `should_skip?`. */
  predicate ShouldSkip(r: Reporter) {
    !r.verbose && r.inRegion
  }

  function StartRegion(r: Reporter): (r': Reporter)
    ensures r'.inRegion && r' == r.(inRegion := true)
  {
    r.(inRegion := true)
  }

  function StopRegion(r: Reporter): (r': Reporter)
    ensures !ShouldSkip(r') && r' == r.(inRegion := false)
  {
    r.(inRegion := false)
  }

  /** `Reporter#<<`. */
  function Write(r: Reporter, s: string): (r': Reporter)
    ensures r'.verbose == r.verbose && r'.inRegion == r.inRegion && r'.width == r.width
    ensures r'.out == if ShouldSkip(r) then r.out else r.out + s
  {
    if ShouldSkip(r) then r else r.(out := r.out + s)
  }

  /** `"%-#{width}s" % label[0, width]`: the label cut to `width`
      characters and padded with spaces to exactly that width. */
  function Cell(text: string, width: nat): (c: string)
    ensures |c| == width
    ensures |text| <= width ==> c[..|text|] == text
    ensures |text| > width ==> c == text[..width]
    ensures forall i :: |text| <= i < width ==> c[i] == ' '
  {
    if |text| >= width then text[..width]
    else text + seq(width - |text|, _ => ' ')
  }

  /** `Reporter#print_label`: unless skipped, appends the label cut or
      padded to the reporter's width. */
  function PrintLabel(r: Reporter, text: string): (r': Reporter)
    ensures r'.verbose == r.verbose && r'.inRegion == r.inRegion && r'.width == r.width
    ensures ShouldSkip(r) ==> r'.out == r.out
    ensures !ShouldSkip(r) ==> |r'.out| == |r.out| + r.width && r'.out[..|r.out|] == r.out
    ensures !ShouldSkip(r) ==> r'.out[|r.out|..] == Cell(text, r.width)
  {
    Write(r, Cell(text, r.width))
  }

  /** The reporter calls a caller can make. */
  datatype Call = Start | Stop | Put(s: string) | Label(text: string)

  function Step(r: Reporter, c: Call): Reporter {
    match c
    case Start => StartRegion(r)
    case Stop => StopRegion(r)
    case Put(s) => Write(r, s)
    case Label(l) => PrintLabel(r, l)
  }

  function Run(r: Reporter, cs: seq<Call>): Reporter
    decreases |cs|
  {
    if |cs| == 0 then r else Run(Step(r, cs[0]), cs[1..])
  }

  /** What one call writes when nothing is suppressed. */
  function Piece(c: Call, width: nat): string {
    match c
    case Put(s) => s
    case Label(l) => Cell(l, width)
    case _ => ""
  }

  /** `should_skip?` is exactly what makes a write vanish: a non-empty
      text leaves the output unchanged if and only if the reporter is
      quiet and inside the region. */
  lemma DroppedIffSkip(r: Reporter, s: string)
    requires s != ""
    ensures Write(r, s).out == r.out <==> !r.verbose && r.inRegion
  {
    if !ShouldSkip(r) {
      assert |Write(r, s).out| == |r.out| + |s|;
    }
  }

  /** What the calls would write if nothing were suppressed. */
  function Text(cs: seq<Call>, width: nat): string
    decreases |cs|
  {
    if |cs| == 0 then "" else Piece(cs[0], width) + Text(cs[1..], width)
  }

  /** A call made while nothing is suppressed writes its piece. */
  lemma StepWrites(r: Reporter, c: Call)
    requires !ShouldSkip(r)
    ensures Step(r, c).out == r.out + Piece(c, r.width)
    ensures Step(r, c).verbose == r.verbose && Step(r, c).width == r.width
    ensures c.Put? || c.Label? ==> Step(r, c).inRegion == r.inRegion
  {
  }

  predicate Writes(cs: seq<Call>) {
    forall k :: 0 <= k < |cs| ==> cs[k].Put? || cs[k].Label?
  }

  /** A verbose reporter writes everything, regions or not. */
  lemma {:induction false} VerboseWritesAll(r: Reporter, cs: seq<Call>)
    requires r.verbose
    ensures Run(r, cs).out == r.out + Text(cs, r.width)
    ensures Run(r, cs).verbose && Run(r, cs).width == r.width
    decreases |cs|
  {
    if |cs| > 0 {
      var r1 := Step(r, cs[0]);
      StepWrites(r, cs[0]);
      VerboseWritesAll(r1, cs[1..]);
      assert r.out + Text(cs, r.width) == r1.out + Text(cs[1..], r.width) by {
        assert Text(cs, r.width) == Piece(cs[0], r.width) + Text(cs[1..], r.width);
      }
    }
  }

  /** A quiet reporter inside a region writes nothing at all. */
  lemma {:induction false} QuietInRegion(r: Reporter, cs: seq<Call>)
    requires ShouldSkip(r) && Writes(cs)
    ensures Run(r, cs) == r
    decreases |cs|
  {
    if |cs| > 0 {
      assert Step(r, cs[0]) == r;
      QuietInRegion(r, cs[1..]);
    }
  }

  /** Outside a region a quiet reporter writes like a verbose one, and a
      region that is started and stopped again leaves only the text
      written outside it. */
  lemma QuietRegionDropsItsText(r: Reporter, before: seq<Call>, inside: seq<Call>, after: seq<Call>)
    requires !r.verbose && !r.inRegion
    requires Writes(before) && Writes(inside) && Writes(after)
    ensures Run(r, before + ([Start] + (inside + ([Stop] + after)))).out
      == r.out + Text(before, r.width) + Text(after, r.width)
  {
    var tail := [Stop] + after;
    var rest := [Start] + (inside + tail);
    RunAppend(r, before, rest);
    OutsideRegionWritesAll(r, before);
    var r1 := Run(r, before);
    assert r1 == r.(out := r.out + Text(before, r.width));
    var r2 := StartRegion(r1);
    assert rest[0] == Start && rest[1..] == inside + tail;
    assert Run(r1, rest) == Run(r2, inside + tail);
    RunAppend(r2, inside, tail);
    QuietInRegion(r2, inside);
    assert tail[0] == Stop && tail[1..] == after;
    assert Run(r2, tail) == Run(r1, after);
    OutsideRegionWritesAll(r1, after);
  }

  lemma {:induction false} OutsideRegionWritesAll(r: Reporter, cs: seq<Call>)
    requires !r.inRegion && Writes(cs)
    ensures Run(r, cs) == r.(out := r.out + Text(cs, r.width))
    decreases |cs|
  {
    if |cs| > 0 {
      var r1 := Step(r, cs[0]);
      StepWrites(r, cs[0]);
      assert r1 == r.(out := r.out + Piece(cs[0], r.width));
      OutsideRegionWritesAll(r1, cs[1..]);
      assert r.out + Text(cs, r.width) == r1.out + Text(cs[1..], r.width) by {
        assert Text(cs, r.width) == Piece(cs[0], r.width) + Text(cs[1..], r.width);
      }
    } else {
      assert r.out + Text(cs, r.width) == r.out;
    }
  }

  lemma {:induction false} RunAppend(r: Reporter, xs: seq<Call>, ys: seq<Call>)
    ensures Run(r, xs + ys) == Run(Run(r, xs), ys)
    decreases |xs|
  {
    if |xs| > 0 {
      assert (xs + ys)[0] == xs[0] && (xs + ys)[1..] == xs[1..] + ys;
      RunAppend(Step(r, xs[0]), xs[1..], ys);
    } else {
      assert xs + ys == ys;
    }
  }

  /** A short label is padded and a long one cut to the width. */
  lemma LabelExamples()
    ensures PrintLabel(Reporter(true, false, 10, ""), "AAA").out == "AAA       "
    ensures PrintLabel(Reporter(true, false, 10, ""), "123456789012345").out == "1234567890"
  {
    assert Cell("AAA", 10) == "AAA" + seq(7, _ => ' ');
    assert seq(7, _ => ' ') == "       ";
  }
}
