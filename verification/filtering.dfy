/** Task selection of the benchmarker library (`Benchmark#initialize`'s
    check of the `filter:` string and `Benchmark#filter_tasks`).  A filter
    reads `task=PAT`, `task!=PAT`, `tag=PAT` or `tag!=PAT`; it keeps (or,
    with `!=`, drops) the tasks whose label, or any of whose tags, matches
    the glob pattern `PAT`. */
module Filtering {
  import opened Common
  import opened Results

  /** A benchmark task as far as filtering and reporting see it: a label
      (`name`, since `label` is a Dafny keyword)
      and a tag list, either of which may be `nil`.  A single tag string is
      the one-element list. */
  datatype Task = Task(name: Option<string>, tag: Option<seq<string>>)

  /** A registered task with the samples collected for it. */
  datatype Entry = Entry(task: Task, result: Result)

  datatype Key = TaskKey | TagKey

  datatype Filter = Filter(key: Key, negate: bool, pattern: string)

  function KeyName(k: Key): string {
    match k
    case TaskKey => "task"
    case TagKey => "tag"
  }

  /** The text a filter is written as. */
  function Show(f: Filter): string {
    KeyName(f.key) + (if f.negate then "!=" else "=") + f.pattern
  }

  /** The `(task|tag)` prefix of a filter string and what follows it. */
  function SplitKey(s: string): (o: Option<(Key, string)>)
    ensures o.Some? ==> s == KeyName(o.value.0) + o.value.1
    ensures o.None? ==> forall k: Key, rest: string :: s != KeyName(k) + rest
  {
    if |s| >= 4 && s[..4] == "task" then
      assert s == s[..4] + s[4..];
      Some((TaskKey, s[4..]))
    else if |s| >= 3 && s[..3] == "tag" then
      assert s == s[..3] + s[3..];
      Some((TagKey, s[3..]))
    else
      assert forall rest: string :: (KeyName(TaskKey) + rest)[..4] == "task";
      assert forall rest: string :: (KeyName(TagKey) + rest)[..3] == "tag";
      None
  }

  /** A key name is split off whatever follows it. */
  lemma SplitKeyName(k: Key, rest: string)
    ensures SplitKey(KeyName(k) + rest) == Some((k, rest))
  {
    var s := KeyName(k) + rest;
    match k
    case TaskKey =>
      assert s[..4] == "task" && s[4..] == rest;
    case TagKey =>
      assert s[..3] == "tag" && s[3..] == rest;
      assert !(|s| >= 4 && s[..4] == "task") by {
        assert s[2] == 'g';
      }
  }

  /** The validation of `Benchmark.new(filter: s)`: `s` must match
      `^(task|tag)(!?=+)(.*)`, and the operator found must be exactly `=` or
      `!=`; a longer run of `=` is the second error. */
  function ParseFilter(s: string): (o: Outcome<Filter>)
    ensures o.Ok? ==> Show(o.value) == s
    ensures o.Ok? ==> |o.value.pattern| == 0 || o.value.pattern[0] != '='
  {
    match SplitKey(s)
    case None => Fail(s + ": invalid filter.")
    case Some((key, rest)) =>
      var negate := |rest| > 0 && rest[0] == '!';
      var ops := if negate then rest[1..] else rest;
      var eqs := LeadingCount(ops, '=');
      if eqs == 0 then Fail(s + ": invalid filter.")
      else if eqs > 1 then Fail(s + ": expected operator is '=' or '!='.")
      else
        assert rest == (if negate then "!=" else "=") + ops[1..];
        Ok(Filter(key, negate, ops[1..]))
  }

  /** Every filter whose pattern does not start with `=` is read back from
      its text; together with `ParseFilter`'s own contract, the accepted
      strings are exactly the texts of such filters. */
  lemma ParseShowRoundTrip(f: Filter)
    requires |f.pattern| == 0 || f.pattern[0] != '='
    ensures ParseFilter(Show(f)) == Ok(f)
  {
    var s := Show(f);
    var op := if f.negate then "!=" else "=";
    assert s == KeyName(f.key) + (op + f.pattern);
    var rest := op + f.pattern;
    SplitKeyName(f.key, rest);
    var ops := if f.negate then rest[1..] else rest;
    assert ops == "=" + f.pattern;
    assert LeadingCount(ops, '=') == 1 by {
      assert LeadingCount(ops[1..], '=') == 0;
    }
  }

  /** A string not starting with `task` or `tag` is refused as an invalid
      filter. */
  lemma UnknownKeyRefused(s: string)
    requires forall k: Key, rest: string :: s != KeyName(k) + rest
    ensures ParseFilter(s) == Fail(s + ": invalid filter.")
  {
  }

  /** A key followed by neither `=` nor `!=` is refused as an invalid
      filter. */
  lemma MissingOperatorRefused(k: Key, rest: string)
    requires !(|rest| > 0 && rest[0] == '=')
    requires !(|rest| > 1 && rest[0] == '!' && rest[1] == '=')
    ensures var s := KeyName(k) + rest;
      ParseFilter(s) == Fail(s + ": invalid filter.")
  {
    var s := KeyName(k) + rest;
    SplitKeyName(k, rest);
  }

  /** A key followed by an operator of two or more `=` (with or without a
      leading `!`) is refused for its operator. */
  lemma LongOperatorRefused(k: Key, negate: bool, eqs: nat, pattern: string)
    requires eqs >= 2
    requires |pattern| == 0 || pattern[0] != '='
    ensures var s := KeyName(k) + (if negate then "!" else "") + seq(eqs, _ => '=') + pattern;
      ParseFilter(s) == Fail(s + ": expected operator is '=' or '!='.")
  {
    var bang: string := if negate then "!" else "";
    var ops := seq(eqs, _ => '=') + pattern;
    var s := KeyName(k) + bang + seq(eqs, _ => '=') + pattern;
    assert s == KeyName(k) + (bang + ops);
    SplitKeyName(k, bang + ops);
    assert (bang + ops)[0] == '!' <==> negate;
    assert negate ==> (bang + ops)[1..] == ops;
    LeadingRun(eqs, pattern);
  }

  lemma {:induction false} LeadingRun(n: nat, rest: string)
    requires |rest| == 0 || rest[0] != '='
    ensures LeadingCount(seq(n, _ => '=') + rest, '=') == n
  {
    if n > 0 {
      var s := seq(n, _ => '=') + rest;
      assert s[1..] == seq(n - 1, _ => '=') + rest;
      LeadingRun(n - 1, rest);
    }
  }

  /** The values a filter looks at: the label, or the tag list. */
  function Candidates(t: Task, k: Key): Option<seq<string>> {
    match k
    case TaskKey => if t.name.Some? then Some([t.name.value]) else None
    case TagKey => t.tag
  }

  /** Some candidate value matches the pattern under `fnmatch`, which
      stands for `File.fnmatch(pattern, value, File::FNM_EXTGLOB)`; a `nil`
      value matches nothing. */
  predicate Matches(t: Task, f: Filter, fnmatch: (string, string) -> bool) {
    match Candidates(t, f.key)
    case None => false
    case Some(vs) => exists v :: v in vs && fnmatch(f.pattern, v)
  }

  predicate Keep(t: Task, f: Filter, fnmatch: (string, string) -> bool) {
    if f.negate then !Matches(t, f, fnmatch) else Matches(t, f, fnmatch)
  }

  /** `Benchmark#filter_tasks`: with no filter every entry stays; otherwise
      the entries the filter keeps, in registration order. */
  function FilterTasks(es: seq<Entry>, filter: Option<Filter>, fnmatch: (string, string) -> bool): (r: seq<Entry>)
    ensures filter.None? ==> r == es
    ensures filter.Some? ==> forall k :: 0 <= k < |r| ==> r[k] in es && Keep(r[k].task, filter.value, fnmatch)
    ensures filter.Some? ==> forall i :: 0 <= i < |es| && Keep(es[i].task, filter.value, fnmatch) ==> es[i] in r
  {
    match filter
    case None => es
    case Some(f) => Select(es, (e: Entry) => Keep(e.task, f, fnmatch))
  }

  /** Filtering keeps the registration order of the entries it keeps. */
  lemma FilterKeepsOrder(es: seq<Entry>, filter: Option<Filter>, fnmatch: (string, string) -> bool)
    ensures IsSubsequence(FilterTasks(es, filter, fnmatch), es)
  {
    match filter
    case None =>
      assert Embeds(seq(|es|, i requires 0 <= i < |es| => i), es, es);
    case Some(f) =>
      SelectIsSubsequence(es, (e: Entry) => Keep(e.task, f, fnmatch));
  }

  /** `=` and `!=` with the same key and pattern split the entries in two:
      every entry lands in exactly one of the two outputs. */
  lemma FilterPartition(es: seq<Entry>, key: Key, pattern: string, fnmatch: (string, string) -> bool)
    ensures var pos := FilterTasks(es, Some(Filter(key, false, pattern)), fnmatch);
      var neg := FilterTasks(es, Some(Filter(key, true, pattern)), fnmatch);
      && multiset(pos) + multiset(neg) == multiset(es)
      && |pos| + |neg| == |es|
  {
    var p := (e: Entry) => Keep(e.task, Filter(key, false, pattern), fnmatch);
    var q := (e: Entry) => Keep(e.task, Filter(key, true, pattern), fnmatch);
    SelectPartition(es, p, q);
  }

  /** A task whose filtered value is `nil` is dropped by `=` and kept by
      `!=`, whatever the pattern and the matcher. */
  lemma NilNeverMatches(t: Task, f: Filter, fnmatch: (string, string) -> bool)
    requires Candidates(t, f.key).None?
    ensures Keep(t, f, fnmatch) <==> f.negate
  {
  }

  /** A tag list matches as soon as any one of its tags does. */
  lemma AnyTagMatches(t: Task, pattern: string, fnmatch: (string, string) -> bool, i: nat)
    requires t.tag.Some? && i < |t.tag.value| && fnmatch(pattern, t.tag.value[i])
    ensures Keep(t, Filter(TagKey, false, pattern), fnmatch)
    ensures !Keep(t, Filter(TagKey, true, pattern), fnmatch)
  {
    assert t.tag.value[i] in t.tag.value;
  }
}
