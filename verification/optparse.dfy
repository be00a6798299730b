/** `Benchmarker::OptionParser`: the small argv parser of the benchmarker
    library and `parse_options`, which converts the numeric options and
    checks the `-F` filter.

    `parse` consumes leading arguments that start with `-`: `--` ends the
    options, `--key` and `--key=val` are long options, and anything else is
    a cluster of one-letter options, each either a flag, an option that
    needs an argument (the rest of the cluster, else the next argument), or
    an option that may take one (the rest of the cluster, else none).  The
    error callback of the library exits the program, so the first error
    ends the parse here. */
module OptParse {
  import opened Common
  import Filtering

  /** An option's value: Ruby's `true`, a string, or (after
      `parse_options`) an integer. */
  datatype OptValue = Flag | Arg(s: string) | Num(n: nat)

  /** The three option alphabets given to `OptionParser.new`. */
  datatype Spec = Spec(noParam: string, hasParam: string, mayParam: string)

  /** Short options, long options, and the arguments left in `argv`. */
  datatype Parsed = Parsed(options: map<char, OptValue>, keyvals: map<string, OptValue>, rest: seq<string>)

  predicate IsDashed(arg: string) {
    |arg| > 0 && arg[0] == '-'
  }

  predicate IsKeyChar(c: char) {
    IsWordChar(c) || c == '-'
  }

  /** The length of the longest prefix of `s` made of `[-\w]`. */
  function KeyRun(s: string): (n: nat)
    ensures n <= |s|
    ensures forall i :: 0 <= i < n ==> IsKeyChar(s[i])
    ensures n == |s| || !IsKeyChar(s[n])
  {
    if |s| == 0 || !IsKeyChar(s[0]) then 0 else 1 + KeyRun(s[1..])
  }

  /** A long option `--KEY` or `--KEY=VAL`, matched against
      `^--(\w[-\w]*)(?:=(.*))?$`: the key starts with a word character and
      runs over word characters and dashes; what follows it must be
      nothing or `=` and the value. */
  function LongOption(arg: string): (o: Option<(string, OptValue)>)
    requires |arg| >= 2 && arg[..2] == "--"
    ensures o.Some? ==> |o.value.0| > 0 && IsWordChar(o.value.0[0]) && forall i :: 0 <= i < |o.value.0| ==> IsKeyChar(o.value.0[i])
    ensures o.Some? && o.value.1 == Flag ==> arg == "--" + o.value.0
    ensures o.Some? && o.value.1.Arg? ==> arg == "--" + o.value.0 + "=" + o.value.1.s
    ensures o.Some? ==> !o.value.1.Num?
  {
    var body := arg[2..];
    if |body| == 0 || !IsWordChar(body[0]) then None
    else
      var k := KeyRun(body);
      var key := body[..k];
      var tail := body[k..];
      assert arg == "--" + key + tail;
      if |tail| == 0 then Some((key, Flag))
      else if tail[0] == '=' then
        assert tail == "=" + tail[1..];
        Some((key, Arg(tail[1..])))
      else None
  }

  /** The short options of one cluster from position `i` on; `rest` is
      what follows the cluster in `argv`. */
  function Cluster(spec: Spec, arg: string, i: nat, rest: seq<string>, options: map<char, OptValue>)
    : (o: Outcome<(map<char, OptValue>, seq<string>)>)
    ensures o.Ok? ==> o.value.1 == rest || (|rest| > 0 && o.value.1 == rest[1..])
    ensures o.Ok? ==> options.Keys <= o.value.0.Keys
    ensures o.Ok? ==> forall c :: c in o.value.0 && c !in options ==> InSpec(spec, c)
    decreases |arg| - i
  {
    if i >= |arg| then Ok((options, rest))
    else
      var c := arg[i];
      if c in spec.noParam then Cluster(spec, arg, i + 1, rest, options[c := Flag])
      else if c in spec.hasParam then
        if i + 1 < |arg| then Ok((options[c := Arg(arg[i + 1..])], rest))
        else if |rest| > 0 then Ok((options[c := Arg(rest[0])], rest[1..]))
        else Fail("-" + [c] + ": argument required.")
      else if c in spec.mayParam then
        Ok((options[c := if i + 1 < |arg| then Arg(arg[i + 1..]) else Flag], rest))
      else Fail("-" + [c] + ": unknown option.")
  }

  /** A letter of one of the three alphabets. */
  predicate InSpec(spec: Spec, c: char) {
    c in spec.noParam || c in spec.hasParam || c in spec.mayParam
  }

  /** `OptionParser#parse`, continuing from the options found so far: it
      keeps every option and key found before and adds only letters of
      the alphabets. */
  function ParseFrom(spec: Spec, argv: seq<string>, options: map<char, OptValue>, keyvals: map<string, OptValue>)
    : (o: Outcome<Parsed>)
    ensures o.Ok? ==> options.Keys <= o.value.options.Keys && keyvals.Keys <= o.value.keyvals.Keys
    ensures o.Ok? ==> forall c :: c in o.value.options && c !in options ==> InSpec(spec, c)
    decreases |argv|
  {
    if |argv| == 0 || !IsDashed(argv[0]) then Ok(Parsed(options, keyvals, argv))
    else
      var arg := argv[0];
      if arg == "--" then Ok(Parsed(options, keyvals, argv[1..]))
      else if |arg| >= 2 && arg[1] == '-' then
        assert arg[..2] == "--";
        match LongOption(arg)
        case None => Fail(arg + ": invalid option.")
        case Some((key, val)) => ParseFrom(spec, argv[1..], options, keyvals[key := val])
      else
        match Cluster(spec, arg, 1, argv[1..], options)
        case Fail(msg) => Fail(msg)
        case Ok((options', rest)) => ParseFrom(spec, rest, options', keyvals)
  }

  /** `OptionParser#parse` from nothing: every option it reports is a
      letter of the alphabets. */
  function Parse(spec: Spec, argv: seq<string>): (o: Outcome<Parsed>)
    ensures o.Ok? ==> forall c :: c in o.value.options ==> InSpec(spec, c)
  {
    ParseFrom(spec, argv, map[], map[])
  }

  /** The parser stops at the first argument that is not an option, or
      right after a `--`, or at the end. */
  lemma {:induction false} ParseStopsAtFirstNonOption(spec: Spec, argv: seq<string>, options: map<char, OptValue>,
                                                     keyvals: map<string, OptValue>)
    requires ParseFrom(spec, argv, options, keyvals).Ok?
    ensures var rest := ParseFrom(spec, argv, options, keyvals).value.rest;
      |rest| == 0 || !IsDashed(rest[0]) || (|rest| < |argv| && argv[|argv| - |rest| - 1] == "--")
    decreases |argv|
  {
    if |argv| == 0 || !IsDashed(argv[0]) || argv[0] == "--" {
    } else {
      var next: seq<string>;
      if |argv[0]| >= 2 && argv[0][1] == '-' {
        LongStep(spec, argv, options, keyvals);
        var kv := LongOption(argv[0]).value;
        next := argv[1..];
        ParseStopsAtFirstNonOption(spec, next, options, keyvals[kv.0 := kv.1]);
      } else {
        ClusterStep(spec, argv, options, keyvals);
        var step := Cluster(spec, argv[0], 1, argv[1..], options).value;
        next := step.1;
        ParseStopsAtFirstNonOption(spec, next, step.0, keyvals);
      }
      DashDashCarries(argv, next, ParseFrom(spec, argv, options, keyvals).value.rest);
    }
  }

  /** A `--` just before a suffix of `next` is one just before that suffix
      in `argv`, when `next` is what follows the first argument or two. */
  lemma DashDashCarries(argv: seq<string>, next: seq<string>, rest: seq<string>)
    requires |argv| > 0 && (next == argv[1..] || (|argv| > 1 && next == argv[2..]))
    requires |rest| == 0 || !IsDashed(rest[0]) || (|rest| < |next| && next[|next| - |rest| - 1] == "--")
    ensures |rest| == 0 || !IsDashed(rest[0]) || (|rest| < |argv| && argv[|argv| - |rest| - 1] == "--")
  {
  }

  /** What the parser leaves is a suffix of `argv`. */
  lemma {:induction false} ParseLeavesSuffix(spec: Spec, argv: seq<string>, options: map<char, OptValue>,
                                             keyvals: map<string, OptValue>)
    requires ParseFrom(spec, argv, options, keyvals).Ok?
    ensures var rest := ParseFrom(spec, argv, options, keyvals).value.rest;
      |rest| <= |argv| && rest == argv[|argv| - |rest|..]
    decreases |argv|, 1
  {
    if |argv| == 0 || !IsDashed(argv[0]) {
      assert argv[0..] == argv;
    } else if argv[0] == "--" {
      assert argv[1..] == argv[|argv| - |argv[1..]|..];
    } else if |argv[0]| >= 2 && argv[0][1] == '-' {
      LongLeavesSuffix(spec, argv, options, keyvals);
    } else {
      ClusterLeavesSuffix(spec, argv, options, keyvals);
    }
  }

  lemma {:induction false} LongLeavesSuffix(spec: Spec, argv: seq<string>, options: map<char, OptValue>,
                                            keyvals: map<string, OptValue>)
    requires |argv| > 0 && IsDashed(argv[0]) && argv[0] != "--" && |argv[0]| >= 2 && argv[0][1] == '-'
    requires ParseFrom(spec, argv, options, keyvals).Ok?
    ensures var rest := ParseFrom(spec, argv, options, keyvals).value.rest;
      |rest| <= |argv| && rest == argv[|argv| - |rest|..]
    decreases |argv|, 0
  {
    LongStep(spec, argv, options, keyvals);
    var kv := LongOption(argv[0]).value;
    ParseLeavesSuffix(spec, argv[1..], options, keyvals[kv.0 := kv.1]);
    SuffixOfSuffix(argv, argv[1..], ParseFrom(spec, argv, options, keyvals).value.rest);
  }

  lemma {:induction false} ClusterLeavesSuffix(spec: Spec, argv: seq<string>, options: map<char, OptValue>,
                                               keyvals: map<string, OptValue>)
    requires |argv| > 0 && IsDashed(argv[0]) && argv[0] != "--" && !(|argv[0]| >= 2 && argv[0][1] == '-')
    requires ParseFrom(spec, argv, options, keyvals).Ok?
    ensures var rest := ParseFrom(spec, argv, options, keyvals).value.rest;
      |rest| <= |argv| && rest == argv[|argv| - |rest|..]
    decreases |argv|, 0
  {
    ClusterStep(spec, argv, options, keyvals);
    var step := Cluster(spec, argv[0], 1, argv[1..], options).value;
    ParseLeavesSuffix(spec, step.1, step.0, keyvals);
    SuffixOfSuffix(argv, step.1, ParseFrom(spec, argv, options, keyvals).value.rest);
  }

  /** A well-formed `--key[=val]` is stored and parsing goes on after it. */
  lemma LongStep(spec: Spec, argv: seq<string>, options: map<char, OptValue>, keyvals: map<string, OptValue>)
    requires |argv| > 0 && IsDashed(argv[0]) && argv[0] != "--" && |argv[0]| >= 2 && argv[0][1] == '-'
    requires ParseFrom(spec, argv, options, keyvals).Ok?
    ensures LongOption(argv[0]).Some?
    ensures var kv := LongOption(argv[0]).value;
      ParseFrom(spec, argv, options, keyvals) == ParseFrom(spec, argv[1..], options, keyvals[kv.0 := kv.1])
  {
    assert argv[0][..2] == "--";
  }

  /** A cluster of short options is read and parsing goes on after what it
      consumed. */
  lemma ClusterStep(spec: Spec, argv: seq<string>, options: map<char, OptValue>, keyvals: map<string, OptValue>)
    requires |argv| > 0 && IsDashed(argv[0]) && argv[0] != "--" && !(|argv[0]| >= 2 && argv[0][1] == '-')
    requires ParseFrom(spec, argv, options, keyvals).Ok?
    ensures Cluster(spec, argv[0], 1, argv[1..], options).Ok?
    ensures var step := Cluster(spec, argv[0], 1, argv[1..], options).value;
      ParseFrom(spec, argv, options, keyvals) == ParseFrom(spec, step.1, step.0, keyvals)
  {
  }

  /** The arguments left after the first one, or after the first two, and
      any suffix of those, are a suffix of `argv`. */
  lemma SuffixOfSuffix(argv: seq<string>, next: seq<string>, rest: seq<string>)
    requires |argv| > 0 && (next == argv[1..] || (|argv| > 1 && next == argv[2..]))
    requires |rest| <= |next| && rest == next[|next| - |rest|..]
    ensures |rest| <= |argv| && rest == argv[|argv| - |rest|..]
  {
  }

  /** `--` ends the options; the arguments after it are left alone. */
  lemma DoubleDashStops(spec: Spec, more: seq<string>, options: map<char, OptValue>, keyvals: map<string, OptValue>)
    ensures ParseFrom(spec, ["--"] + more, options, keyvals) == Ok(Parsed(options, keyvals, more))
  {
    assert (["--"] + more)[1..] == more;
  }

  /** `--KEY=VAL` stores `VAL` under `KEY` and bare `--KEY` stores `true`. */
  lemma LongOptionStored(spec: Spec, key: string, val: Option<string>, more: seq<string>,
                         options: map<char, OptValue>, keyvals: map<string, OptValue>)
    requires |key| > 0 && IsWordChar(key[0]) && forall i :: 0 <= i < |key| ==> IsKeyChar(key[i])
    ensures var arg := if val.Some? then "--" + key + "=" + val.value else "--" + key;
      ParseFrom(spec, [arg] + more, options, keyvals)
        == ParseFrom(spec, more, options, keyvals[key := if val.Some? then Arg(val.value) else Flag])
  {
    var arg := if val.Some? then "--" + key + "=" + val.value else "--" + key;
    assert arg[..2] == "--" && arg[1] == '-' && arg != "--";
    var body := arg[2..];
    assert body[..|key|] == key;
    KeyRunOfKey(key, body[|key|..]);
    assert body == key + body[|key|..];
    assert ([arg] + more)[1..] == more;
  }

  lemma {:induction false} KeyRunOfKey(key: string, tail: string)
    requires forall i :: 0 <= i < |key| ==> IsKeyChar(key[i])
    requires |tail| == 0 || !IsKeyChar(tail[0])
    ensures KeyRun(key + tail) == |key|
    decreases |key|
  {
    var s := key + tail;
    if |key| == 0 {
      assert s == tail;
    } else {
      assert s[0] == key[0];
      assert s[1..] == key[1..] + tail;
      assert forall i :: 0 <= i < |key[1..]| ==> key[1..][i] == key[i + 1];
      KeyRunOfKey(key[1..], tail);
    }
  }

  /** An option that needs an argument takes the rest of its cluster. */
  lemma HasParamTakesClusterRest(spec: Spec, c: char, v: string, more: seq<string>,
                                 options: map<char, OptValue>, keyvals: map<string, OptValue>)
    requires c != '-' && c !in spec.noParam && c in spec.hasParam && |v| > 0
    ensures ParseFrom(spec, ["-" + [c] + v] + more, options, keyvals)
      == ParseFrom(spec, more, options[c := Arg(v)], keyvals)
  {
    var arg := "-" + [c] + v;
    assert arg[0] == '-' && arg[1] == c && arg[2..] == v && arg != "--";
    assert Cluster(spec, arg, 1, more, options) == Ok((options[c := Arg(v)], more));
    assert ([arg] + more)[0] == arg && ([arg] + more)[1..] == more;
  }

  /** Otherwise it takes the next argument, whatever that is, and fails
      when there is none. */
  lemma HasParamTakesNextArgument(spec: Spec, c: char, x: string, more: seq<string>,
                                  options: map<char, OptValue>, keyvals: map<string, OptValue>)
    requires c != '-' && c !in spec.noParam && c in spec.hasParam
    ensures ParseFrom(spec, ["-" + [c], x] + more, options, keyvals)
      == ParseFrom(spec, more, options[c := Arg(x)], keyvals)
    ensures ParseFrom(spec, ["-" + [c]], options, keyvals) == Fail("-" + [c] + ": argument required.")
  {
    var arg := "-" + [c];
    assert |arg| == 2 && arg[0] == '-' && arg[1] == c && arg != "--";
    var argv := [arg, x] + more;
    assert argv[0] == arg && argv[1..] == [x] + more;
    assert ([x] + more)[0] == x && ([x] + more)[1..] == more;
    assert Cluster(spec, arg, 1, [x] + more, options) == Ok((options[c := Arg(x)], more));
    assert Cluster(spec, arg, 1, [], options) == Fail("-" + [c] + ": argument required.");
    assert [arg][0] == arg && [arg][1..] == [];
  }

  /** An option that may take an argument takes the rest of its cluster,
      or is `true` when the cluster ends with it. */
  lemma MayParamOptional(spec: Spec, c: char, v: string, more: seq<string>,
                         options: map<char, OptValue>, keyvals: map<string, OptValue>)
    requires c != '-' && c !in spec.noParam && c !in spec.hasParam && c in spec.mayParam
    ensures ParseFrom(spec, ["-" + [c] + v] + more, options, keyvals)
      == ParseFrom(spec, more, options[c := if |v| > 0 then Arg(v) else Flag], keyvals)
  {
    var arg := "-" + [c] + v;
    assert arg[0] == '-' && arg[1] == c && arg[2..] == v && arg != "--";
    assert Cluster(spec, arg, 1, more, options) == Ok((options[c := if |v| > 0 then Arg(v) else Flag], more));
    assert ([arg] + more)[0] == arg && ([arg] + more)[1..] == more;
  }

  /** A letter in none of the three alphabets is an error. */
  lemma UnknownOptionFails(spec: Spec, c: char, more: seq<string>,
                           options: map<char, OptValue>, keyvals: map<string, OptValue>)
    requires c != '-' && c !in spec.noParam && c !in spec.hasParam && c !in spec.mayParam
    ensures ParseFrom(spec, ["-" + [c]] + more, options, keyvals) == Fail("-" + [c] + ": unknown option.")
  {
    var arg := "-" + [c];
    assert |arg| == 2 && arg[0] == '-' && arg[1] == c && arg != "--";
    assert ([arg] + more)[0] == arg;
    assert Cluster(spec, arg, 1, ([arg] + more)[1..], options) == Fail("-" + [c] + ": unknown option.");
  }

  /** Flags in a cluster are all set, and parsing goes on after it. */
  lemma FlagsCluster(spec: Spec, c: char, d: char, more: seq<string>,
                     options: map<char, OptValue>, keyvals: map<string, OptValue>)
    requires c != '-' && c in spec.noParam && d in spec.noParam
    ensures ParseFrom(spec, ["-" + [c, d]] + more, options, keyvals)
      == ParseFrom(spec, more, options[c := Flag][d := Flag], keyvals)
  {
    var arg := "-" + [c, d];
    assert |arg| == 3 && arg[0] == '-' && arg[1] == c && arg[2] == d && arg != "--";
    assert Cluster(spec, arg, 3, more, options[c := Flag][d := Flag]) == Ok((options[c := Flag][d := Flag], more));
    assert Cluster(spec, arg, 1, more, options) == Ok((options[c := Flag][d := Flag], more));
    assert ([arg] + more)[0] == arg && ([arg] + more)[1..] == more;
  }

  // ---------------------------------------------------------------------
  // parse_options

  /** The options of the benchmark command line: `-h`, `-v`, `-q` are
      flags, `-w -n -i -x -o -F` need an argument, `-I` may take one. */
  const Standard := Spec("hvq", "wnixoF", "I")

  predicate AllDigits(s: string) {
    forall i :: 0 <= i < |s| ==> IsDigit(s[i])
  }

  /** The decimal value of a digit string (`String#to_i` on one). */
  function DigitsValue(s: string): nat
    requires AllDigits(s)
  {
    if |s| == 0 then 0 else 10 * DigitsValue(s[..|s| - 1]) + (s[|s| - 1] - '0') as nat
  }

  /** The decimal digits of `n`, without leading zeros. */
  function ShowNat(n: nat): (s: string)
    ensures |s| > 0 && AllDigits(s)
  {
    if n < 10 then [(n + '0' as int) as char]
    else ShowNat(n / 10) + [(n % 10 + '0' as int) as char]
  }

  /** Reading a number's decimal digits gives the number back. */
  lemma {:induction false} ShowNatRoundTrip(n: nat)
    ensures DigitsValue(ShowNat(n)) == n
  {
    if n >= 10 {
      ShowNatRoundTrip(n / 10);
      var s := ShowNat(n);
      assert s[..|s| - 1] == ShowNat(n / 10);
    }
  }

  /** An argument `\A\d+\z` accepts. */
  predicate IsNumeral(s: string) {
    |s| > 0 && AllDigits(s)
  }

  /** Every option in `letters` that holds a string holds a numeral. */
  predicate DigitArgs(options: map<char, OptValue>, letters: string) {
    forall c :: c in options && c in letters && options[c].Arg? ==> IsNumeral(options[c].s)
  }

  /** `msg` is the error for the first letter of `letters`, in order,
      whose option holds a string that is not a numeral: every letter
      before it passes. */
  predicate FirstCountError(options: map<char, OptValue>, letters: string, msg: string) {
    exists i :: 0 <= i < |letters| && letters[i] in options && options[letters[i]].Arg? &&
      !IsNumeral(options[letters[i]].s) && msg == IntegerExpected(letters[i], options[letters[i]].s) &&
      DigitArgs(options, letters[..i])
  }

  /** The error for option `c` given the non-numeral `s`; `-I` takes its
      value in the same word, so no space separates them. */
  function IntegerExpected(c: char, s: string): string {
    "-" + [c] + (if c == 'I' then "" else " ") + s + ": integer expected."
  }

  /** The conversion of the options in `letters` whose value is a string:
      it must be all digits (`\A\d+\z`).  It succeeds exactly when every
      such value is a numeral, and otherwise reports the first one, in
      the order of `letters`, that is not. */
  function ToIntegers(options: map<char, OptValue>, letters: string): (o: Outcome<map<char, OptValue>>)
    ensures o.Ok? <==> DigitArgs(options, letters)
    ensures o.Fail? ==>
      exists c :: c in options && c in letters && options[c].Arg? && !IsNumeral(options[c].s) &&
        o.msg == IntegerExpected(c, options[c].s)
    ensures o.Fail? ==> FirstCountError(options, letters, o.msg)
    ensures o.Ok? ==> o.value.Keys == options.Keys
    ensures o.Ok? ==> forall c :: c in options && c !in letters ==> o.value[c] == options[c]
    ensures o.Ok? ==> forall c :: c in options && c in letters && options[c].Arg? ==>
      |options[c].s| > 0 && AllDigits(options[c].s) && o.value[c] == Num(DigitsValue(options[c].s))
    ensures o.Ok? ==> forall c :: c in options && c in letters && !options[c].Arg? ==> o.value[c] == options[c]
    decreases |letters|
  {
    if |letters| == 0 then Ok(options)
    else
      var c := letters[0];
      var converted :=
        if c in options && options[c].Arg? then
          var s := options[c].s;
          if IsNumeral(s) then Ok(options[c := Num(DigitsValue(s))])
          else Fail(IntegerExpected(c, s))
        else Ok(options);
      match converted
      case Fail(msg) =>
        assert DigitArgs(options, letters[..0]);
        Fail(msg)
      case Ok(options') =>
        var r := ToIntegers(options', letters[1..]);
        DigitArgsStep(options, options', letters);
        if r.Ok? then
          assert forall d :: d in letters ==> d == c || d in letters[1..];
          r
        else
          FirstCountErrorStep(options, options', letters, r.msg);
          r
  }

  /** A first error among the letters after the first, once the first is
      converted, is the first error among all the letters. */
  lemma FirstCountErrorStep(options: map<char, OptValue>, options': map<char, OptValue>, letters: string, msg: string)
    requires |letters| > 0
    requires var c := letters[0]; c in options && options[c].Arg? ==> IsNumeral(options[c].s)
    requires var c := letters[0];
      options' == if c in options && options[c].Arg? then options[c := Num(DigitsValue(options[c].s))] else options
    requires FirstCountError(options', letters[1..], msg)
    ensures FirstCountError(options, letters, msg)
  {
    var c := letters[0];
    var i :| 0 <= i < |letters[1..]| && letters[1..][i] in options' && options'[letters[1..][i]].Arg? &&
      !IsNumeral(options'[letters[1..][i]].s) && msg == IntegerExpected(letters[1..][i], options'[letters[1..][i]].s) &&
      DigitArgs(options', letters[1..][..i]);
    var d := letters[i + 1];
    assert d == letters[1..][i];
    assert d in options && options[d] == options'[d];
    forall e | e in options && e in letters[..i + 1] && options[e].Arg?
      ensures IsNumeral(options[e].s)
    {
      if e != c {
        assert e in letters[1..][..i] by {
          assert letters[..i + 1] == [c] + letters[1..][..i];
        }
        assert e in options' && options'[e] == options[e];
      }
    }
  }

  /** Converting the first letter leaves the rest of the check unchanged,
      and no string value appears that was not there before. */
  lemma DigitArgsStep(options: map<char, OptValue>, options': map<char, OptValue>, letters: string)
    requires |letters| > 0
    requires var c := letters[0]; c in options && options[c].Arg? ==> IsNumeral(options[c].s)
    requires var c := letters[0];
      options' == if c in options && options[c].Arg? then options[c := Num(DigitsValue(options[c].s))] else options
    ensures DigitArgs(options, letters) <==> DigitArgs(options', letters[1..])
    ensures forall d :: d in options' && options'[d].Arg? ==> d in options && options[d] == options'[d]
    ensures forall d :: d in letters[1..] ==> d in letters
  {
    var c := letters[0];
    assert forall d :: d in letters ==> d == c || d in letters[1..];
    assert forall d :: d in letters[1..] ==> d in letters by {
      assert letters == [c] + letters[1..];
    }
  }

  function BadFilterOperator(s: string): string {
    "-F " + s + ": invalid filter (expected operator is '=' or '!=')."
  }

  function BadFilterKey(s: string): string {
    "-F " + s + ": expected 'task=...' or 'tag=...'."
  }

  /** A `-F` value the command line accepts: the text of a filter whose
      pattern is non-empty and does not start with `=`. */
  ghost predicate CommandLineFilter(s: string) {
    exists f: Filtering.Filter :: |f.pattern| > 0 && f.pattern[0] != '=' && s == Filtering.Show(f)
  }

  /** The length of the operator `(=|!=)` at the head of `after` when a
      character other than `=` follows it, else 0. */
  function OperatorLength(after: string): nat {
    if |after| >= 2 && after[0] == '=' && after[1] != '=' then 1
    else if |after| >= 3 && after[0] == '!' && after[1] == '=' && after[2] != '=' then 2
    else 0
  }

  /** The check `parse_options` makes of a `-F` value: it must match
      `^(\w+)(=|!=)[^=]`, and the word must be `task` or `tag`.  It accepts
      exactly the texts of filters with a pattern that is non-empty and
      does not start with `=`, each of which `Benchmark.new` accepts too;
      the error says whether the shape or the word is wrong. */
  function CheckFilterOption(s: string): (o: Outcome<()>)
    ensures o.Ok? <==> CommandLineFilter(s)
    ensures o.Fail? ==> o.msg == BadFilterOperator(s) || o.msg == BadFilterKey(s)
    ensures o.Ok? ==> Filtering.ParseFilter(s).Ok? && |Filtering.ParseFilter(s).value.pattern| > 0
  {
    var w := WordRun(s);
    var word := s[..w];
    var opLen := OperatorLength(s[w..]);
    if w == 0 || opLen == 0 then
      RefusedShape(s);
      Fail(BadFilterOperator(s))
    else if word != "task" && word != "tag" then
      RefusedShape(s);
      Fail(BadFilterKey(s))
    else
      AcceptedFilterParses(s, w, opLen);
      AcceptedFilterShape(s, w, opLen);
      Ok(())
  }

  /** The text of a filter splits where the word ends: the key's name,
      then the operator and the pattern. */
  lemma ShowShape(f: Filtering.Filter)
    requires |f.pattern| > 0 && f.pattern[0] != '='
    ensures var s, n := Filtering.Show(f), |Filtering.KeyName(f.key)|;
      && WordRun(s) == n && s[..n] == Filtering.KeyName(f.key)
      && OperatorLength(s[n..]) == (if f.negate then 2 else 1)
  {
    var name := Filtering.KeyName(f.key);
    var op := if f.negate then "!=" else "=";
    var s := Filtering.Show(f);
    assert s == name + (op + f.pattern);
    WordRunOfWord(name, op + f.pattern);
    assert s[|name|..] == op + f.pattern;
  }

  lemma {:induction false} WordRunOfWord(word: string, rest: string)
    requires forall i :: 0 <= i < |word| ==> IsWordChar(word[i])
    requires |rest| > 0 && !IsWordChar(rest[0])
    ensures WordRun(word + rest) == |word|
    decreases |word|
  {
    if |word| == 0 {
      assert word + rest == rest;
    } else {
      assert (word + rest)[1..] == word[1..] + rest;
      WordRunOfWord(word[1..], rest);
    }
  }

  lemma RefusedShape(s: string)
    requires var w := WordRun(s);
      w == 0 || OperatorLength(s[w..]) == 0 || (s[..w] != "task" && s[..w] != "tag")
    ensures !CommandLineFilter(s)
  {
    if CommandLineFilter(s) {
      var f: Filtering.Filter :| |f.pattern| > 0 && f.pattern[0] != '=' && s == Filtering.Show(f);
      ShowShape(f);
    }
  }

  lemma AcceptedFilterShape(s: string, w: nat, opLen: nat)
    requires w <= |s| && (s[..w] == "task" || s[..w] == "tag")
    requires opLen == OperatorLength(s[w..]) && opLen != 0
    ensures CommandLineFilter(s)
  {
    var key := if s[..w] == "task" then Filtering.TaskKey else Filtering.TagKey;
    var op := if opLen == 2 then "!=" else "=";
    var f := Filtering.Filter(key, opLen == 2, s[w + opLen..]);
    assert s[w..] == op + f.pattern;
    assert s == s[..w] + s[w..];
    assert s == Filtering.Show(f);
  }

  lemma AcceptedFilterParses(s: string, w: nat, opLen: nat)
    requires w <= |s| && (s[..w] == "task" || s[..w] == "tag")
    requires opLen == 1 ==> |s[w..]| >= 2 && s[w] == '=' && s[w + 1] != '='
    requires opLen == 2 ==> |s[w..]| >= 3 && s[w] == '!' && s[w + 1] == '=' && s[w + 2] != '='
    requires opLen == 1 || opLen == 2
    ensures Filtering.ParseFilter(s).Ok? && |Filtering.ParseFilter(s).value.pattern| > 0
  {
    var word := s[..w];
    var key := if word == "task" then Filtering.TaskKey else Filtering.TagKey;
    var op := if opLen == 2 then "!=" else "=";
    var pattern := s[w + opLen..];
    var f := Filtering.Filter(key, opLen == 2, pattern);
    assert s[w..] == op + pattern;
    assert s == Filtering.KeyName(key) + op + pattern by {
      assert s == word + s[w..];
    }
    Filtering.ParseShowRoundTrip(f);
  }

  /** The two checks differ on an empty pattern: `Benchmark.new` takes
      `task=`, the command line refuses it. */
  lemma EmptyPatternOnlyInConstructor()
    ensures Filtering.ParseFilter("task=").Ok?
    ensures CheckFilterOption("task=") == Fail(BadFilterOperator("task="))
  {
    Filtering.ParseShowRoundTrip(Filtering.Filter(Filtering.TaskKey, false, ""));
    assert Filtering.Show(Filtering.Filter(Filtering.TaskKey, false, "")) == "task=";
    assert WordRun("task=") == 4 by {
      assert WordRun("=") == 0;
      assert "task="[1..] == "ask=" && "ask="[1..] == "sk=" && "sk="[1..] == "k=" && "k="[1..] == "=";
    }
    assert "task="[..4] == "task" && "task="[4..] == "=";
  }

  /** The length of the longest prefix of word characters. */
  function WordRun(s: string): (n: nat)
    ensures n <= |s|
    ensures forall i :: 0 <= i < n ==> IsWordChar(s[i])
    ensures n == |s| || !IsWordChar(s[n])
  {
    if |s| == 0 || !IsWordChar(s[0]) then 0 else 1 + WordRun(s[1..])
  }

  /** The options `parse_options` turns into integers. */
  predicate IsCountOption(c: char) {
    c == 'w' || c == 'n' || c == 'i' || c == 'x'
  }

  /** The letters `parse_options` converts to integers. */
  const CountLetters := "wnixI"

  /** Options that pass the checks of `parse_options`: numerals for the
      counts, and a `-F` value the command line accepts. */
  ghost predicate ValidOptions(options: map<char, OptValue>) {
    && DigitArgs(options, CountLetters)
    && ('F' in options && options['F'].Arg? ==> CommandLineFilter(options['F'].s))
  }

  /** `msg` is the error the checks report: while a count is not a
      numeral, the first such count in `wnixI` order; only once every
      count is a numeral, a `-F` value of the wrong shape or word. */
  predicate CheckMessage(options: map<char, OptValue>, msg: string) {
    if !DigitArgs(options, CountLetters) then
      FirstCountError(options, CountLetters, msg)
    else
      && 'F' in options && options['F'].Arg?
      && (msg == BadFilterOperator(options['F'].s) || msg == BadFilterKey(options['F'].s))
  }

  /** The checks `parse_options` makes after parsing: `-w -n -i -x` and a
      valued `-I` become integers, then `-F` is checked.  They pass
      exactly for valid options, converting the counts and leaving every
      other value alone. */
  function CheckOptions(options: map<char, OptValue>): (o: Outcome<map<char, OptValue>>)
    ensures o.Ok? <==> ValidOptions(options)
    ensures o.Fail? ==> CheckMessage(options, o.msg)
    ensures o.Ok? ==> o.value.Keys == options.Keys
    ensures o.Ok? ==> forall c :: c in options ==>
      o.value[c] == if c in CountLetters && options[c].Arg? then Num(DigitsValue(options[c].s)) else options[c]
  {
    assert 'F' !in CountLetters;
    match ToIntegers(options, CountLetters)
    case Fail(msg) => Fail(msg)
    case Ok(converted) =>
      if 'F' in converted && converted['F'].Arg? then
        match CheckFilterOption(converted['F'].s)
        case Fail(msg) => Fail(msg)
        case Ok(_) => Ok(converted)
      else Ok(converted)
  }

  /** `OptionParser.parse_options`: parse with the standard alphabets,
      then check the values.  A parse error is reported as it is; a parse
      that succeeds is accepted exactly when its options are valid. */
  function ParseOptions(argv: seq<string>): (o: Outcome<Parsed>)
    ensures Parse(Standard, argv).Fail? ==> o == Fail(Parse(Standard, argv).msg)
    ensures Parse(Standard, argv).Ok? ==> (o.Ok? <==> ValidOptions(Parse(Standard, argv).value.options))
    ensures Parse(Standard, argv).Ok? && o.Fail? ==> CheckMessage(Parse(Standard, argv).value.options, o.msg)
    ensures o.Ok? ==> Parse(Standard, argv).Ok? && o.value.keyvals == Parse(Standard, argv).value.keyvals
    ensures o.Ok? ==> o.value.rest == Parse(Standard, argv).value.rest
    ensures o.Ok? ==> o.value.options.Keys == Parse(Standard, argv).value.options.Keys
    ensures o.Ok? ==> CheckOptions(Parse(Standard, argv).value.options) == Ok(o.value.options)
  {
    match Parse(Standard, argv)
    case Fail(msg) => Fail(msg)
    case Ok(p) =>
      match CheckOptions(p.options)
      case Fail(msg) => Fail(msg)
      case Ok(options) => Ok(p.(options := options))
  }

  /** A `-F` value with the right shape but another word gets the word
      error, and one with no `=` at all the shape error. */
  lemma FilterErrors(word: string, negate: bool, pattern: string, s: string)
    requires |word| > 0 && (forall i :: 0 <= i < |word| ==> IsWordChar(word[i])) && word != "task" && word != "tag"
    requires |pattern| > 0 && pattern[0] != '='
    requires '=' !in s
    ensures var v := word + (if negate then "!=" else "=") + pattern;
      CheckFilterOption(v) == Fail(BadFilterKey(v))
    ensures CheckFilterOption(s) == Fail(BadFilterOperator(s))
  {
    var op := if negate then "!=" else "=";
    var v := word + op + pattern;
    assert v == word + (op + pattern);
    WordRunOfWord(word, op + pattern);
    assert v[|word|..] == op + pattern && v[..|word|] == word;
    var w := WordRun(s);
    assert OperatorLength(s[w..]) == 0 by {
      if |s[w..]| >= 2 {
        assert s[w..][0] == s[w] && s[w..][1] == s[w + 1];
      }
    }
  }

  /** The kind of value the parser stores for letter `c`: `true` for a
      flag, a string for an option that needs one, either for an option
      that may take one. */
  predicate ValueFits(spec: Spec, c: char, v: OptValue) {
    if c in spec.noParam then v == Flag
    else if c in spec.hasParam then v.Arg?
    else c in spec.mayParam && !v.Num?
  }

  predicate AllFit(spec: Spec, options: map<char, OptValue>) {
    forall c :: c in options ==> ValueFits(spec, c, options[c])
  }

  /** Every short option the parser stores has the kind of value its
      alphabet says. */
  lemma {:induction false} ParsedValuesFit(spec: Spec, argv: seq<string>, options: map<char, OptValue>,
                                           keyvals: map<string, OptValue>)
    requires AllFit(spec, options)
    requires ParseFrom(spec, argv, options, keyvals).Ok?
    ensures AllFit(spec, ParseFrom(spec, argv, options, keyvals).value.options)
    decreases |argv|
  {
    if |argv| == 0 || !IsDashed(argv[0]) {
    } else {
      var arg := argv[0];
      if arg == "--" {
      } else if |arg| >= 2 && arg[1] == '-' {
        assert arg[..2] == "--";
        var kv := LongOption(arg).value;
        ParsedValuesFit(spec, argv[1..], options, keyvals[kv.0 := kv.1]);
      } else {
        var step := Cluster(spec, arg, 1, argv[1..], options).value;
        ClusterValuesFit(spec, arg, 1, argv[1..], options);
        ParsedValuesFit(spec, step.1, step.0, keyvals);
      }
    }
  }

  lemma {:induction false} ClusterValuesFit(spec: Spec, arg: string, i: nat, rest: seq<string>, options: map<char, OptValue>)
    requires AllFit(spec, options)
    requires Cluster(spec, arg, i, rest, options).Ok?
    ensures AllFit(spec, Cluster(spec, arg, i, rest, options).value.0)
    decreases |arg| - i
  {
    if i < |arg| {
      var c := arg[i];
      if c in spec.noParam {
        ClusterValuesFit(spec, arg, i + 1, rest, options[c := Flag]);
      }
    }
  }

  /** After `parse_options`, `-w -n -i -x` hold integers, `-I` holds
      `true` or an integer, and a `-F` value is one `Benchmark.new` accepts
      as a filter. */
  lemma ParseOptionsResults(argv: seq<string>)
    requires ParseOptions(argv).Ok?
    ensures var opts := ParseOptions(argv).value.options;
      && (forall c :: c in opts && IsCountOption(c) ==> opts[c].Num?)
      && ('I' in opts ==> opts['I'].Flag? || opts['I'].Num?)
      && ('F' in opts ==> opts['F'].Arg? && Filtering.ParseFilter(opts['F'].s).Ok?)
  {
    var p := Parse(Standard, argv).value;
    ParsedValuesFit(Standard, argv, map[], map[]);
    CheckedKinds(p.options);
  }

  lemma CheckedKinds(options: map<char, OptValue>)
    requires AllFit(Standard, options)
    requires CheckOptions(options).Ok?
    ensures var opts := CheckOptions(options).value;
      && (forall c :: c in opts && IsCountOption(c) ==> opts[c].Num?)
      && ('I' in opts ==> opts['I'].Flag? || opts['I'].Num?)
      && ('F' in opts ==> opts['F'].Arg? && Filtering.ParseFilter(opts['F'].s).Ok?)
  {
    StandardLetters();
    CountsConverted(Standard, options, "wnixI");
  }

  lemma StandardLetters()
    ensures forall c :: IsCountOption(c) ==> c in "wnixI" && c !in Standard.noParam && c in Standard.hasParam
    ensures 'I' in "wnixI" && 'I' !in Standard.noParam && 'I' !in Standard.hasParam
    ensures 'F' !in "wnixI" && 'F' !in Standard.noParam && 'F' in Standard.hasParam
  {
  }

  lemma CountsConverted(spec: Spec, options: map<char, OptValue>, letters: string)
    requires AllFit(spec, options)
    requires ToIntegers(options, letters).Ok?
    requires forall c :: IsCountOption(c) ==> c in letters && c !in spec.noParam && c in spec.hasParam
    requires 'I' in letters && 'I' !in spec.noParam && 'I' !in spec.hasParam
    requires 'F' !in letters && 'F' !in spec.noParam && 'F' in spec.hasParam
    ensures var opts := ToIntegers(options, letters).value;
      && (forall c :: c in opts && IsCountOption(c) ==> opts[c].Num?)
      && ('I' in opts ==> opts['I'].Flag? || opts['I'].Num?)
      && ('F' in opts ==> opts['F'] == options['F'] && opts['F'].Arg?)
  {
    var opts := ToIntegers(options, letters).value;
    forall c | c in opts && IsCountOption(c)
      ensures opts[c].Num?
    {
      ConvertedKind(spec, options, letters, c);
    }
    ConvertedKind(spec, options, letters, 'I');
    ConvertedKind(spec, options, letters, 'F');
  }

  /** The value `ToIntegers` leaves for one letter, by its alphabet. */
  lemma ConvertedKind(spec: Spec, options: map<char, OptValue>, letters: string, c: char)
    requires AllFit(spec, options)
    requires ToIntegers(options, letters).Ok?
    ensures var opts := ToIntegers(options, letters).value;
      c in opts ==>
        && (c in letters && c !in spec.noParam && c in spec.hasParam ==> opts[c].Num?)
        && (c in letters && c !in spec.noParam && c !in spec.hasParam ==> opts[c].Flag? || opts[c].Num?)
        && (c !in letters ==> opts[c] == options[c] && (c !in spec.noParam && c in spec.hasParam ==> opts[c].Arg?))
  {
    if c in options {
      assert ValueFits(spec, c, options[c]);
    }
  }

  /** With several bad values the first count in `wnixI` order is the
      one reported, ahead of a later count and of `-F`. */
  lemma CountsCheckedFirst(a: string, b: string, f: string)
    requires !IsNumeral(a) && !IsNumeral(b)
    ensures CheckOptions(map['n' := Arg(b), 'w' := Arg(a), 'F' := Arg(f)]) == Fail(IntegerExpected('w', a))
  {
    var m := map['n' := Arg(b), 'w' := Arg(a), 'F' := Arg(f)];
    assert CountLetters[0] == 'w' && 'w' in CountLetters;
    assert !DigitArgs(m, CountLetters);
    var o := CheckOptions(m);
    var i :| 0 <= i < |CountLetters| && CountLetters[i] in m && m[CountLetters[i]].Arg? &&
      !IsNumeral(m[CountLetters[i]].s) && o.msg == IntegerExpected(CountLetters[i], m[CountLetters[i]].s) &&
      DigitArgs(m, CountLetters[..i]);
    if i > 0 {
      assert 'w' in CountLetters[..i];
    }
  }

  /** A count that is not a number is reported with its option. */
  lemma NonNumericCountFails()
    ensures ParseOptions(["-n", "x"]) == Fail("-n" + " " + "x" + ": integer expected.")
  {
    var m := map['n' := Arg("x")];
    DashNParses();
    NonNumeralRefused(m);
  }

  lemma DashNParses()
    ensures Parse(Standard, ["-n", "x"]) == Ok(Parsed(map['n' := Arg("x")], map[], []))
  {
    assert "-" + ['n'] == "-n";
    assert ["-n", "x"] == ["-" + ['n'], "x"] + [];
    HasParamTakesNextArgument(Standard, 'n', "x", [], map[], map[]);
  }

  lemma NonNumeralRefused(m: map<char, OptValue>)
    requires m == map['n' := Arg("x")]
    ensures CheckOptions(m) == Fail("-n" + " " + "x" + ": integer expected.")
  {
    assert "wnixI"[0] == 'w' && "wnixI"[1..] == "nixI" && "nixI"[0] == 'n';
    assert ToIntegers(m, "nixI") == Fail("-n" + " " + "x" + ": integer expected.");
    assert ToIntegers(m, "wnixI") == ToIntegers(m, "nixI");
  }

}
