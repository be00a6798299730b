# Benchmarker core in Dafny

This project models the measuring and reporting core of Benchmarker, a
micro-benchmark library. It covers three pieces:

- **The current Ruby library**: `Benchmarker::Benchmark`, `Result`,
  `TimeData` and `OptionParser`. The model covers:
  - the `filter:` check made at construction;
  - task and empty-task registration, task filtering and the iteration
    controller `invoke_tasks`;
  - dropping skipped tasks, and removing the best and worst samples;
  - averaging;
  - the numbers behind the ranking and the comparison matrix;
  - the command-line parser and its option checks.
- **The older Ruby API**: `Result`, `Reporter`, `Statistics` and
  `Runner`. The model covers:
  - label-checked averaging and the quiet region of the reporter;
  - the ranking and matrix of `Statistics`;
  - `Runner#bench` with its empty-loop subtraction;
  - `Runner#repeat` with its min/max trimming.
- **The Python benchmarker**: the `with`/`run` title lifecycle, the
  recorded result tuples, `compared_matrix` and `ComparedMatrix`.

Clocks, the tasks' own code and glob matching are inputs of the model. Every
operation is a pure function over immutable datatypes, or a method with
loops over `seq` values. Errors the source raises are modelled as
`Common.Outcome` failures that carry the source's message.

| file | module | what it holds |
|---|---|---|
| common.dfy | Common | `Option`, `Outcome`, stable sort by key, order-keeping selection, subsequences |
| time_data.dfy | Timing | `TimeData`, its subtraction, addition and division |
| results.dfy | Results | `Result`: samples, skip reason, `remove_minmax`, `calc_average` |
| filtering.dfy | Filtering | filter strings and `filter_tasks` |
| benchmark.dfy | Bench | construction, task registration, `invoke_tasks`, skipped tasks, the min/max table |
| report.dfy | Report | `report_stats`: sorted means, ranking rows and matrix |
| optparse.dfy | OptParse | `OptionParser#parse` and `parse_options` |
| legacy_result.dfy | LegacyResult | the older `Result` and `Result.average` |
| ruby_inspect.dfy | RubyInspect | `String#inspect` and a reader of the literal it writes |
| legacy_reporter.dfy | LegacyReporter | the older `Reporter` |
| legacy_stats.dfy | LegacyStats | the older `Statistics` |
| legacy_runner.dfy | LegacyRunner | the older `Runner`: `before`, `bench`, `repeat` |
| compared_matrix.dfy | ComparedMatrix | Python `ComparedMatrix` |
| py_benchmarker.dfy | PyBenchmarker | Python `Benchmarker`: `__call__`, `__enter__`, `__exit__`, `run`, `compared_matrix` |

Where the code and its written description disagree, the model follows the
code:

- `Result#remove_minmax` raises only when `2 * extra` exceeds the number
  of samples. With exactly `2 * extra` samples it removes them all.
- An empty average is NaN in the source, not zero. In the older `repeat`
  that NaN record has a `nil` label. Printing it after the verbose region
  stops fails with "undefined method `[]' for nil:NilClass", so a column
  trimmed to nothing makes `repeat` fail.
- In the older `Runner#repeat`, `minmax_by` returns the same result as
  both min and max when all the keys left are equal. Deleting that result
  twice removes it only once, so such a round removes one result, not two.

## Model

| member | source | states |
|---|---|---|
| Timing.Sub | ruby/lib/benchmarker.rb:413-422 | Adding the subtrahend back yields the minuend. A field of the difference is negative exactly when the minuend's field is below the subtrahend's. `total == user + sys` survives subtraction. |
| Timing.Measure | ruby/lib/benchmarker.rb:389-406 | A task's measurement is consistent (`total` is `user + sys`) and, added to the starting clock reading, gives the ending reading. |
| Timing.Div | ruby/lib/benchmarker.rb:481-482 | Dividing a consistent `TimeData` by a positive count leaves it consistent. |
| Results.Add | ruby/lib/benchmarker.rb:439-443 | `add` appends the sample at the end. Earlier samples and the skip reason are unchanged. |
| Results.SetSkipped | ruby/lib/benchmarker.rb:445-452 | After `skipped=` the result reports skipped with that reason and keeps its samples. |
| Results.SortedPairs | ruby/lib/benchmarker.rb:456-458 | The samples numbered from 1 are rearranged into ascending order of the key, losing and adding nothing. |
| Results.KeptPairs | ruby/lib/benchmarker.rb:467 | The pairs left after peeling are the middle slice of the sorted pairs, put back in iteration order. |
| Results.RemoveMinmax | ruby/lib/benchmarker.rb:454-470 | Fails exactly when the result has fewer than `2 * extra` samples, with Ruby's "undefined method `real' for nil:NilClass" (the key's name). Otherwise it returns `extra` removal rows, leaves `n - 2 * extra` samples and keeps the skip reason. |
| Results.RemovedAreDistinctIterations | ruby/lib/benchmarker.rb:456-466 | Each removal row names iteration numbers in range whose samples carry the reported min and max values. No iteration is removed twice. |
| Results.SurvivorsKeepIterationOrder | ruby/lib/benchmarker.rb:467-468 | The samples left are exactly the ones not named by any removal row, in their original order. |
| Results.RoundsBracketSurvivors | ruby/lib/benchmarker.rb:458-466 | Every round's min is at most and its max at least every surviving sample. Later rounds' mins never fall and their maxes never rise. |
| Results.CalcAverage | ruby/lib/benchmarker.rb:472-483 | Each field of the average, times the number of samples, is that field's sum over the samples. |
| Results.AverageOfCopies | ruby/lib/benchmarker.rb:472-483 | Averaging `n >= 1` copies of one `TimeData` gives it back. |
| Results.AverageWithinBounds | ruby/lib/benchmarker.rb:472-483 | If every sample's field lies in `[lo, hi]`, so does the average's. |
| Results.MeanWithinBounds | ruby/lib/benchmarker.rb:474-482 | The sum of the samples divided by their number lies within any bounds of the samples' field. |
| Results.AverageConsistent | ruby/lib/benchmarker.rb:472-483 | The average of consistent samples (`total == user + sys`) is consistent. |
| Results.AverageShift | ruby/lib/benchmarker.rb:472-483 | Taking one measurement off every sample, as the empty task's time is taken off, takes exactly that measurement off the average. |
| Filtering.SplitKey | ruby/lib/benchmarker.rb:55 | Finds the `task`/`tag` prefix exactly when the string starts with one, and the prefix plus the rest is the string. |
| Filtering.ParseFilter | ruby/lib/benchmarker.rb:53-60 | An accepted filter string is exactly the text of the parsed filter, and its pattern does not start with `=`. |
| Filtering.ParseShowRoundTrip | ruby/lib/benchmarker.rb:53-60 | Writing out a filter and checking it again gives back the same filter. |
| Filtering.UnknownKeyRefused | ruby/lib/benchmarker.rb:55-56 | A string that does not start with `task` or `tag` is refused as an invalid filter. |
| Filtering.MissingOperatorRefused | ruby/lib/benchmarker.rb:55-56 | A key with neither `=` nor `!=` after it is refused as an invalid filter. |
| Filtering.LongOperatorRefused | ruby/lib/benchmarker.rb:58-59 | `==`, `!==` and longer runs of `=` are refused with the operator message. |
| Filtering.FilterTasks | ruby/lib/benchmarker.rb:109-128 | Without a filter every entry stays. With one, an entry is kept exactly when the filter keeps its task. |
| Filtering.FilterKeepsOrder | ruby/lib/benchmarker.rb:116-125 | The kept entries are a subsequence of the registered ones, in registration order. |
| Filtering.FilterPartition | ruby/lib/benchmarker.rb:116-125 | For one key and pattern, `=` and `!=` split the entries between them: together they are the entries, each kept once. |
| Filtering.NilNeverMatches | ruby/lib/benchmarker.rb:117-122 | A task with no label (or no tag) matches nothing, so only a `!=` filter keeps it. |
| Filtering.AnyTagMatches | ruby/lib/benchmarker.rb:117-124 | A task is selected by `tag=` as soon as one of its tags matches, and then dropped by `tag!=`. |
| Bench.New | ruby/lib/benchmarker.rb:43-64 | Construction succeeds exactly when there is no filter or the filter parses, and then the stored filter reads back as the string given. The benchmark starts with no entries and no empty task. A failure carries the filter's own error. |
| Bench.DefineTask | ruby/lib/benchmarker.rb:86-92 | A task is appended with a fresh result. Nothing else changes. |
| Bench.DefineEmptyTask | ruby/lib/benchmarker.rb:77-84 | Succeeds exactly when no empty task exists yet, and then defines the `(Empty)` task. Otherwise it raises the define-once error. |
| Bench.EmptyTaskDefinedOnce | ruby/lib/benchmarker.rb:77-80 | A second definition of the empty task always fails. |
| Bench.Net | ruby/lib/benchmarker.rb:169-170 | A task's recorded time, plus the empty task's time of that round, is its measured time. Without an empty task the measured time is recorded. |
| Bench.Step | ruby/lib/benchmarker.rb:158-174 | A task that raises `SkipTask` records the reason, is skipped and gains no sample. A task that runs gains its net sample at the end and keeps its skip reason. |
| Bench.RunRound | ruby/lib/benchmarker.rb:158-177 | One round invokes every entry once, in registration order: each entry keeps its task, and its result is that of its own invocation in the round. |
| Bench.RunRounds | ruby/lib/benchmarker.rb:135-178 | Rounds `1..n` keep the entries and their tasks, in order, and each entry gains at most `n` samples. |
| Bench.InvokeTasks | ruby/lib/benchmarker.rb:130-180 | Runs exactly `iter + 2 * extra` rounds, each invoking every entry once in registration order. |
| Bench.InvokeRound | ruby/lib/benchmarker.rb:158-177 | The in-place loop over the entries of one round ends with exactly the entries the round-by-round definition `RunRound` gives. |
| Bench.RoundsKeepTasks | ruby/lib/benchmarker.rb:158-177 | Invoking never changes, drops or reorders the entries' tasks. |
| Bench.NetSampleAt | ruby/lib/benchmarker.rb:145-174 | The `k`-th sample a task gains is round `k+1`'s measurement less that round's empty-task time. |
| Bench.RoundsAppend | ruby/lib/benchmarker.rb:158-177 | A task that never skips gains exactly its net samples, appended after the ones it had. |
| Bench.SkippedIffSomeRoundSkipped | ruby/lib/benchmarker.rb:161-167 | After the rounds a task is skipped exactly when it was skipped before or skipped itself in some round. |
| Bench.SampleCount | ruby/lib/benchmarker.rb:161-174 | A task gains at most one sample per round, and one in every round exactly when it never skips. |
| Bench.IgnoreSkippedTasks | ruby/lib/benchmarker.rb:182-186 | Exactly the entries that are not skipped remain, in their original order. |
| Bench.SurvivorsRanEveryRound | ruby/lib/benchmarker.rb:130-186 | After running fresh entries for `n` rounds and dropping skipped ones, every remaining entry holds exactly `n` samples. |
| Bench.RemoveAllMinmax | ruby/lib/benchmarker.rb:205-225 | Succeeds exactly when every entry has at least `2 * extra` samples, and otherwise fails with the error `remove_minmax` raises on an entry that has too few. On success every entry keeps its task and holds what `remove_minmax` by real time leaves of its result. The table is each entry's removal rows, in entry order, `extra` per entry. |
| Bench.RowsOf | ruby/lib/benchmarker.rb:216-223 | A task's removal rows carry the removed min and max times and iteration numbers in order. Only the first names the task. |
| Bench.TrimAfterRunSucceeds | ruby/lib/benchmarker.rb:94-100 | After a run's rounds and the dropping of skipped tasks, removing min and max always succeeds and leaves each task exactly `iter` samples. |
| Report.StatsPairs | ruby/lib/benchmarker.rb:268-275 | The ranked pairs are each task's mean real time, rearranged into ascending order. |
| Report.PercentBounds | ruby/lib/benchmarker.rb:286 | A time at least the base's gets a share in `(0, 100]`. |
| Report.PercentFalls | ruby/lib/benchmarker.rb:286 | The share of the base falls as the time it is taken of grows. |
| Report.PercentMirror | ruby/lib/benchmarker.rb:314 | The two matrix cells comparing the same pair of tasks multiply to 10000 (percent times percent). |
| Report.PercentAtLeastHundred | ruby/lib/benchmarker.rb:314 | A cell comparing a slower task with a faster one is at least 100%. |
| Report.RankRows | ruby/lib/benchmarker.rb:280-291 | Ranking succeeds exactly when no time is zero and no bar length is negative. Each row carries its task, time, share of the base, throughput `loop / sec` and a bar of `round(percent / 5)` stars. |
| Report.Ranking | ruby/lib/benchmarker.rb:280-291 | The first time is the base. With any pairs, ranking succeeds exactly when no time is zero and no bar is negative. Each row keeps its task and time. Its percentage is the base's share of its time, so the first row gets 100%. Its throughput divides the `inverse:` count if there is one, else `loop`. Its bar has `round(percent / 5)` stars. |
| Report.RankingOfSortedTimes | ruby/lib/benchmarker.rb:280-291 | For positive ascending times the ranking succeeds. The fastest task gets exactly 100% and 20 stars; every other task gets at most 100% and 20 stars, falling as times grow. |
| Report.Matrix | ruby/lib/benchmarker.rb:308-316 | The matrix is square. Cell `(i, j)` is `100 * r_j / r_i`, or not finite when `r_i` is zero. |
| Report.MatrixRow | ruby/lib/benchmarker.rb:311-314 | Row `i` has one cell per task. When `r_i` is zero every cell is non-finite. Otherwise cell `j` times `r_i` is `100 * r_j`, and cell `i` is exactly 100%. |
| Report.MatrixDiagonalAndMirror | ruby/lib/benchmarker.rb:311-314 | For non-zero times the diagonal is 100%, and mirrored cells multiply to 10000. |
| Report.MatrixOfSortedTimes | ruby/lib/benchmarker.rb:311-314 | With times ascending and positive, cells right of the diagonal are at least 100% and cells left of it at most 100%. |
| Report.RankingIsFirstColumn | ruby/lib/benchmarker.rb:280-316 | A task's ranking percentage equals its matrix row's cell in the first column. |
| OptParse.KeyRun | ruby/lib/benchmarker.rb:552 | Measures the longest prefix made of word characters and `-`. |
| OptParse.LongOption | ruby/lib/benchmarker.rb:551-555 | An accepted `--key[=val]` has a key that starts with a word character and reads back as the argument given. |
| OptParse.Cluster | ruby/lib/benchmarker.rb:557-577 | A cluster of short options consumes at most the one argument after it. It keeps every option set before and adds only letters of the alphabets. |
| OptParse.ParseFrom | ruby/lib/benchmarker.rb:541-583 | Parsing on from some options found so far keeps all of them, and all long options, and adds only letters of the alphabets. |
| OptParse.Parse | ruby/lib/benchmarker.rb:541-583 | Every short option `parse` reports is a letter of one of the three alphabets. |
| OptParse.ParseLeavesSuffix | ruby/lib/benchmarker.rb:544-549 | What the parser leaves is a suffix of the arguments: it only ever shifts arguments off the front. |
| OptParse.ParseStopsAtFirstNonOption | ruby/lib/benchmarker.rb:544-549 | What the parser leaves is empty, starts with an argument without a leading `-`, or follows a `--`. |
| OptParse.DoubleDashStops | ruby/lib/benchmarker.rb:548-549 | `--` ends parsing and leaves everything after it untouched. |
| OptParse.LongOptionStored | ruby/lib/benchmarker.rb:551-555 | `--key=val` stores `val` under `key`, and `--key` stores `true`. |
| OptParse.HasParamTakesClusterRest | ruby/lib/benchmarker.rb:564-568 | An option that needs an argument takes the rest of its cluster when there is one. |
| OptParse.HasParamTakesNextArgument | ruby/lib/benchmarker.rb:564-568 | Otherwise it takes the next argument, and fails with "argument required" when none is left. |
| OptParse.MayParamOptional | ruby/lib/benchmarker.rb:569-571 | An option that may take an argument takes the rest of its cluster, or is `true` without one. |
| OptParse.UnknownOptionFails | ruby/lib/benchmarker.rb:573-575 | A letter of no option alphabet fails with "unknown option". |
| OptParse.FlagsCluster | ruby/lib/benchmarker.rb:561-563 | Several flags in one cluster are each set to `true`. |
| OptParse.ParsedValuesFit | ruby/lib/benchmarker.rb:541-583 | Every stored short option has the kind of value its alphabet allows: a flag, an argument, or an optional argument. |
| OptParse.ShowNatRoundTrip | ruby/lib/benchmarker.rb:593-595 | Reading back a number's decimal digits with `to_i` gives the number. |
| OptParse.ToIntegers | ruby/lib/benchmarker.rb:589-596 | Converting the counts succeeds exactly when every string value among `-w -n -i -x -I` is all digits. Otherwise it fails with `-c v: integer expected.` for the first one, in `wnixI` order, that is not. On success every such value becomes the number its digits spell, and every other option is kept as it was. |
| OptParse.CheckFilterOption | ruby/lib/benchmarker.rb:597-604 | An `-F` value passes exactly when it is the text of a filter with a non-empty pattern that does not start with `=`. The benchmark accepts every such filter. A failure carries either the operator message or the `task=`/`tag=` message. |
| OptParse.FilterErrors | ruby/lib/benchmarker.rb:599-603 | A well-shaped `-F` value with a word other than `task`/`tag` gets the `task=`/`tag=` message. A value with no `=` gets the operator message. |
| OptParse.AcceptedFilterParses | ruby/lib/benchmarker.rb:599-603 | A `task`/`tag` key, `=` or `!=`, and a first pattern character other than `=` make a valid filter. |
| OptParse.EmptyPatternOnlyInConstructor | ruby/lib/benchmarker.rb:597-604 | `task=` is accepted by the benchmark's constructor but refused by `-F`. |
| OptParse.ParseOptions | ruby/lib/benchmarker.rb:585-606 | A parse error is reported as it is. After a successful parse, `parse_options` succeeds exactly when the counts are numerals and `-F` is valid. Otherwise it reports the first bad count in `wnixI` order, and reports a `-F` message only when every count is a numeral. On success the long options, the leftover arguments and the set of short options are those of the plain parse, and the option values are exactly those the checks convert: counts become their integers and every other value stays as parsed. |
| OptParse.CheckOptions | ruby/lib/benchmarker.rb:589-604 | The checks pass exactly for numeral counts and a valid `-F`. Otherwise they report the first bad count in `wnixI` order, and a `-F` message only when every count is a numeral. On success the counts that hold strings become numbers, and every other value is kept. |
| OptParse.ParseOptionsResults | ruby/lib/benchmarker.rb:585-606 | After `parse_options`, `-w -n -i -x` hold integers, `-I` holds `true` or an integer, and `-F` holds a valid filter. |
| OptParse.CountsConverted | ruby/lib/benchmarker.rb:589-596 | The numeric conversion gives every counted option an integer and leaves `-F` as parsed. |
| OptParse.CountsCheckedFirst | ruby/lib/benchmarker.rb:589-603 | With bad `-w`, `-n` and `-F` values, the `-w` error is the one reported. |
| OptParse.NonNumericCountFails | ruby/lib/benchmarker.rb:593-594 | `-n x` fails with "integer expected". |
| LegacyResult.CheckLabels | ruby/benchmarker.rb:99-103 | The label check passes exactly when, once a label is seen, every later record has it. The label it settles on is the records' common label. |
| LegacyResult.Average | ruby/benchmarker.rb:98-110 | Averaging succeeds exactly when the labels agree. It carries the common label and the means of user, system and real time. |
| LegacyResult.SumOfTotals | ruby/benchmarker.rb:93-95 | Adding up the totals, each user plus system time, gives the summed user time plus the summed system time. |
| LegacyResult.TotalOfAverage | ruby/benchmarker.rb:93-110 | The total of the average is the mean of the totals. |
| LegacyResult.AverageWithinBounds | ruby/benchmarker.rb:98-110 | The average real time lies between any bounds of the records' real times. |
| LegacyResult.AverageOfCopies | ruby/benchmarker.rb:98-110 | Averaging copies of one record gives it back. |
| LegacyResult.Inspect | ruby/benchmarker.rb:103 | A missing label is shown as `nil`. A label is shown as a double-quoted Ruby literal that reads back as the label. |
| RubyInspect.Quoted | ruby/benchmarker.rb:103 | `String#inspect` writes the label between double quotes so that reading the literal back gives the label. |
| RubyInspect.EscapedReadsBack | ruby/benchmarker.rb:103 | The escaped text between the quotes (`\"`, `\\`, `\#` before `{`, `$` or `@`, the named control escapes, `\uXXXX`) reads back as the string. |
| RubyInspect.PlainUnchanged | ruby/benchmarker.rb:103 | A label without quotes, backslashes, `#` or control characters is shown as it is, between quotes. |
| RubyInspect.QuoteExample | ruby/benchmarker.rb:103 | `a"b` is shown as `"a\"b"`. |
| LegacyResult.LabelMismatchRefused | ruby/benchmarker.rb:101-103 | Two different labels raise the assertion message, which shows both labels as `inspect` does. A leading unlabelled record is accepted and the later label wins. |
| LegacyResult.QuoteInLabelEscaped | ruby/benchmarker.rb:101-103 | Labels `a"b` then `c` raise `*** assertion: "a\"b" == "c": failed.`, with the quote backslashed. |
| LegacyReporter.New | ruby/benchmarker.rb:120-134 | A new reporter is verbose, has width 30 and starts outside the quiet region. |
| LegacyReporter.StartRegion | ruby/benchmarker.rb:140-142 | Only the region flag is set. |
| LegacyReporter.StopRegion | ruby/benchmarker.rb:145-152 | Only the region flag is cleared, after which nothing is skipped. |
| LegacyReporter.Write | ruby/benchmarker.rb:150-159 | Text is appended unless the reporter is quiet and inside the region. |
| LegacyReporter.Cell | ruby/benchmarker.rb:178 | A label is cut to the width or padded with spaces to exactly the width. |
| LegacyReporter.PrintLabel | ruby/benchmarker.rb:176-181 | Unless skipped, printing a label appends exactly the label cut to `width` characters, or padded with spaces to that width; skipped, it adds nothing. |
| LegacyReporter.DroppedIffSkip | ruby/benchmarker.rb:150-159 | A non-empty text is dropped exactly when the reporter is quiet and inside the region (`should_skip?`). |
| LegacyReporter.VerboseWritesAll | ruby/benchmarker.rb:150-159 | A verbose reporter writes the text of every call, region or not. |
| LegacyReporter.QuietInRegion | ruby/benchmarker.rb:150-181 | A quiet reporter inside the region writes nothing at all. |
| LegacyReporter.QuietRegionDropsItsText | ruby/benchmarker.rb:140-159 | For a quiet reporter, opening and closing a region drops exactly the text written inside it. |
| LegacyReporter.OutsideRegionWritesAll | ruby/benchmarker.rb:150-159 | Outside a region every write goes through. |
| LegacyReporter.LabelExamples | ruby/benchmarker.rb:176-181 | A short label is padded, and a long one is cut to the width. |
| LegacyStats.Merge | ruby/benchmarker.rb:209-215 | Given options win over the base settings, and absent ones fall back to them. |
| LegacyStats.New | ruby/benchmarker.rb:198-211 | Every option given to `Statistics.new` is kept. Each one left out takes its default: key `:real`, sorting on and compensation 0. |
| LegacyStats.StarRows | ruby/benchmarker.rb:218-226 | Ranking rows succeed exactly when every record has a label, a non-zero value and a non-negative star count. Each row holds the value, its share of the base and `trunc(percent / 5)` stars. |
| LegacyStats.Ranking | ruby/benchmarker.rb:214-228 | No records rank as none. Otherwise ranking succeeds exactly when every record has a label, a non-zero value and a non-negative star count against 100 times the least value. A failure carries the nil-label, non-finite or negative-argument message. On success the rows' labels and values are exactly the records', rearranged: one row per record, every record listed once. The values ascend. Each row's percent is 100 times the first row's value over its own, with `trunc(percent / 5)` stars, so the first row gets 100% and 20 stars. |
| LegacyStats.Least | ruby/benchmarker.rb:220-223 | The value the ranking rates against is no greater than any record's value and is some record's value. |
| LegacyStats.RankBy | ruby/benchmarker.rb:218-226 | Under a fixed key: the same success condition, failure messages and row laws as `Ranking`, with the rows a rearrangement of the records' labels and values. |
| LegacyStats.RankingPermutes | ruby/benchmarker.rb:219 | Sorting keeps every record: the bag of the rows' labels and values equals the records'. |
| LegacyStats.RankingListsEveryRecord | ruby/benchmarker.rb:219-223 | In a successful ranking, every record's label and value appear in some row. |
| LegacyStats.RankingDecided | ruby/benchmarker.rb:218-226 | Rating the sorted records against 100 times the first one's value succeeds exactly when every original record can be rated against 100 times the least value. A failure carries one of the three messages. |
| LegacyStats.SortedHeadIsLeast | ruby/benchmarker.rb:220-223 | The first record after sorting by the key, whose value times 100 is `base`, has the least value. |
| LegacyStats.RankingOfPositiveValues | ruby/benchmarker.rb:214-228 | For labelled positive values the ranking succeeds. The best gets 100% and 20 stars, the others at most that, in ascending order of value. |
| LegacyStats.RankSorted | ruby/benchmarker.rb:218-226 | For labelled positive values in ascending order, with the best as base, every row succeeds: the first gets 100% and 20 stars, and every row at most that. |
| LegacyStats.ShareBounds | ruby/benchmarker.rb:221-224 | A value at least the best gets a share in `(0, 100]` and 0 to 20 stars. |
| LegacyStats.TwentyStars | ruby/benchmarker.rb:221-224 | The best value itself gets exactly 100% and 20 stars. |
| LegacyStats.StarExamples | ruby/benchmarker.rb:224 | The star count truncates: 95.45% gives 19 stars and 87.5% gives 17. |
| LegacyStats.Rows | ruby/benchmarker.rb:234 | The matrix rows are the records, sorted by the key when asked. |
| LegacyStats.MatrixWith | ruby/benchmarker.rb:234-249 | The matrix is built exactly when every record has a label. It is square, and cell `(i, j)` is the block's or the default ratio of rows `i` and `j`, plus `compensate`. |
| LegacyStats.Matrix | ruby/benchmarker.rb:231-249 | With the call's options merged into the object's own, the matrix exists exactly when every record has a label. It is square, and every cell is the block's or the default ratio of its row and column values, plus `compensate`. |
| LegacyStats.MatrixDiagonal | ruby/benchmarker.rb:241-247 | Without a block the diagonal is `100 + compensate`. |
| LegacyStats.MatrixAsWritten | ruby/benchmarker.rb:231-233 | As written, the matrix is the one a default `Statistics` would build: constructor options have no effect. |
| LegacyStats.CompensateFromConstructor | ruby/benchmarker.rb:231-246 | `Statistics.new(compensate: -100.0)` gives 100.0 on the diagonal as written, and 0.0 once the constructor's options are used. |
| LegacyStats.SingleMatrix | ruby/benchmarker.rb:240-247 | One record gives a 1x1 matrix of its own ratio plus `compensate`. |
| LegacyRunner.Before | ruby/benchmarker.rb:276-287 | The empty loop is measured once, and only when the loop count exceeds one. Results are untouched. |
| LegacyRunner.Reset | ruby/benchmarker.rb:319-323 | `_reset` leaves the loop count as it was, no results and no empty-loop measurement. |
| LegacyRunner.Bench | ruby/benchmarker.rb:296-316 | `bench` appends one result: the block's times less the empty loop's, when one was measured. |
| LegacyRunner.BenchSubtractsEmptyLoop | ruby/benchmarker.rb:281-311 | The first `bench` of a round measures the empty loop, and both it and the next `bench` subtract that same measurement. |
| LegacyRunner.RunCalls | ruby/benchmarker.rb:296-316 | A sequence of `bench` calls appends one result per call and keeps earlier results. |
| LegacyRunner.RoundRecordsNet | ruby/benchmarker.rb:319-337 | In every round each result is its sample less the empty loop measured by the round's first `bench`. |
| LegacyRunner.RoundRecords | ruby/benchmarker.rb:296-334 | A round of `repeat` records one result per `bench` call, labelled with that call's label. |
| LegacyRunner.Columns | ruby/benchmarker.rb:335-337 | Column `j` gathers the `j`-th result of every round that has one, and there are as many columns as the widest round. |
| LegacyRunner.Width | ruby/benchmarker.rb:335-337 | The number of columns is the size of the largest round: no round is larger and some round reaches it. |
| LegacyRunner.Rounds | ruby/benchmarker.rb:332-339 | There are exactly as many rounds as the block was called, and round `i` records the block's `i`-th call. |
| LegacyRunner.UniformWidth | ruby/benchmarker.rb:335-337 | When every round has `m` results there are `m` columns. |
| LegacyRunner.MinMaxBy | ruby/benchmarker.rb:351 | Gives positions of a least and a greatest key. They are the same position, the first, exactly when all keys agree. |
| LegacyRunner.TrimOnce | ruby/benchmarker.rb:350-355 | One round deletes a min and a max result, or one result when they coincide. It records a new min no greater than the new max. The first result it removes carries that min and the last carries that max. Earlier rounds' records stay, no result is lost, and the trimming invariant is kept. |
| LegacyRunner.TrimColumn | ruby/benchmarker.rb:345-356 | A column with more than `2 * (extra - 1)` results always trims. One shorter than `extra` always fails with the `nil` error naming the key. With distinct keys that size bound is exact; with all-equal keys `extra` results suffice. On success the survivors are a subsequence of the column, and kept and removed results together are the column. Each round removed two results (one when its min was its max). The first result a round removed has the least key still present and the last the greatest. Every round's min and max bracket everything still present then, narrowing from round to round. |
| LegacyRunner.Repeat | ruby/benchmarker.rb:327-364 | The block runs `n + 2 * extra` times. `repeat` fails when a column is shorter than `extra`, and when a column of distinct keys has at most `2 * extra` results, because the label of its empty average is `nil`. With columns that allow trimming and carry one label, that `nil` label is the only failure. It succeeds when every column is longer than `2 * extra` with one non-nil label. On success every column is trimmed and averaged, and every mean carries a label. |
| LegacyRunner.AverageColumns | ruby/benchmarker.rb:345-364 | Columns are trimmed and averaged in order, and the first failure ends it. Then every mean's label is printed, and one without a label fails with the `nil` message. The outcome laws are those of `Repeat`. On success there is one labelled mean per column, each the average of that column's trimmed results. |
| LegacyRunner.MeansLabelled | ruby/benchmarker.rb:357-364 | A reportable column's mean carries a label, and a column of distinct keys trimmed to nothing yields an unlabelled mean. |
| LegacyRunner.EmptyRemainderFails | ruby/benchmarker.rb:345-364 | `repeat(0, extra: 1)` over two same-label results with different times fails with "undefined method `[]' for nil:NilClass". |
| LegacyRunner.SameLabelKept | ruby/benchmarker.rb:348-357 | The survivors of a single-label column pass `average`'s label check. |
| LegacyRunner.TrimmedMeanBracketed | ruby/benchmarker.rb:350-357 | The mean real time of the survivors lies within the last round's min and max. |
| LegacyRunner.FirstRoundExtremes | ruby/benchmarker.rb:350-355 | The first round's min and max bracket the whole column. The first and last results it removes are column results that carry them. |
| LegacyRunner.OneRoundOfDistinct | ruby/benchmarker.rb:350-355 | With distinct keys and at least two results, one round removes exactly two results: first one with the column's least key, then one with its greatest. |
| LegacyRunner.KeepsTheMiddle | ruby/benchmarker.rb:350-355 | For four results with increasing keys, one round removes exactly the first and the last and keeps the middle two. |
| LegacyRunner.UniformRepeat | ruby/benchmarker.rb:332-337 | When every round benches `m` tasks, there are `m` columns of `n + 2 * extra` results, enough for two removals per round. |
| ComparedMatrix.Divide | python/benchmarker.py:144-146 | Python float division succeeds exactly for a non-zero divisor, and the quotient times the divisor is the dividend. |
| ComparedMatrix.DefaultFormula | python/benchmarker.py:142-146 | The default formula fails exactly when its divisor (`x`, or `y` when transposed) is zero. Otherwise its value plus 100, times the divisor, is 100 times the other value. |
| ComparedMatrix.Percent | python/benchmarker.py:144-146 | The percentage form of the formula fails exactly on a zero divisor. Otherwise the result plus 100, times the divisor, is 100 times the dividend. |
| ComparedMatrix.Custom | python/benchmarker.py:130-135 | A caller's formula always succeeds, with the caller's own value. |
| ComparedMatrix.Chosen | python/benchmarker.py:133-135 | A given formula is used as it is. Without one, the default formula is used, failing exactly on a zero divisor. |
| ComparedMatrix.Row | python/benchmarker.py:151 | A row succeeds exactly when the formula succeeds on every value, and holds the formula's results in order. |
| ComparedMatrix.WithHole | python/benchmarker.py:152 | A row's own position becomes `None` and the other cells are kept. |
| ComparedMatrix.BuildFrom | python/benchmarker.py:150-153 | The rows from `i` on exist exactly when the formula succeeds on every pair they need, each with a `None` at its own position and the formula's value elsewhere. |
| ComparedMatrix.BuildMatrix | python/benchmarker.py:148-154 | The matrix exists exactly when the formula succeeds on every ordered pair, the diagonal included. It is square, `None` on the diagonal, and cell `(i, j)` is `formula(values[i], values[j])`. A failure is one of the formula's. |
| ComparedMatrix.DefaultFailsOnZero | python/benchmarker.py:142-154 | With the default formula, either way round, the matrix fails exactly when some value is zero, with Python's division error. |
| ComparedMatrix.DefaultTranspose | python/benchmarker.py:142-146 | The transposed default matrix is the transpose of the plain one. |
| ComparedMatrix.DefaultCellSign | python/benchmarker.py:142-154 | For positive values a cell is positive exactly when the column's value is larger than the row's, and zero exactly when they are equal. |
| ComparedMatrix.PercentSign | python/benchmarker.py:144-146 | For a positive base the percentage is positive exactly when the value is larger, and zero exactly when it is equal. |
| PyBenchmarker.Call | python/benchmarker.py:73-76 | `bm(title)` sets the title and nothing else. |
| PyBenchmarker.New | python/benchmarker.py:44-53 | A new benchmarker has no title, no start readings and no results. |
| PyBenchmarker.Enter | python/benchmarker.py:78-84 | Entering succeeds exactly when a non-empty title is set, and then records the start clock. Otherwise it raises the "call `__call__()`" error. |
| PyBenchmarker.With | python/benchmarker.py:78-95 | A `with` block succeeds exactly when a non-empty title is set, and otherwise raises the "call `__call__()`" error. It appends one row under the title with the clock differences and total = user + sys, and leaves no title or start behind. |
| PyBenchmarker.Exit | python/benchmarker.py:86-95 | Exiting needs start readings, and without them fails on the first lookup, `self.t1`. It appends one row under the title whose times, added to the start readings, give the end readings, with total = user + sys. It clears the title and the start. |
| PyBenchmarker.Run | python/benchmarker.py:97-104 | `run` uses the function's name when no title is set. It records the row even when the function raises, and returns or re-raises the function's outcome. Without any title and start readings, the `finally` clause's `__exit__` error on `self.t1` is what surfaces. |
| PyBenchmarker.RunRecordsUnderName | python/benchmarker.py:97-104 | A named function run without a title appends exactly one row under its name with the clock differences, and leaves no title behind. |
| PyBenchmarker.WithNeedsTitleAgain | python/benchmarker.py:78-95 | A `with bm(title)` block records one row under the title, after which entering again without a title fails. |
| PyBenchmarker.Arranged | python/benchmarker.py:109-113 | With `sort`, the results are rearranged into ascending order of the chosen column; otherwise they are used as recorded. |
| PyBenchmarker.ComparedMatrix | python/benchmarker.py:106-116 | An index outside 1..4 raises Python 2's `NameError` for the undefined `ArgumentError`. Otherwise the matrix is built from the chosen column of the (optionally sorted) results, titles aligned with values, and exists exactly when the formula succeeds on every pair. |
| PyBenchmarker.Values | python/benchmarker.py:114 | The values are the chosen column of each row, in order. |
| PyBenchmarker.SortedValues | python/benchmarker.py:109-114 | With `sort`, the values come out ascending and are the recorded values rearranged, and every row is a recorded one. |

## Left out

- Clocks (`Process.times`, `Time.now`, `os.times`, `time.time`) and running the tasks' blocks are inputs of the model, not computed.
- Printing and formatting are not modelled: headers, `%9.4f` rounding of recorded and JSON values, the rendered ranking and matrix tables, `report_environment`, `write_outfile`, `print_header`, `print_times`, `flush`, and Python's `print_title`, `print_result`, `__str__` and `print_compared_matrix`.
- `File.fnmatch` with `FNM_EXTGLOB` is a function parameter of `Filtering.FilterTasks`; glob syntax is not modelled.
- Ruby's `^` anchors at every line start. The model treats option and filter strings as single lines.
- `OptionParser#parse` and `parse_options` report errors through `yield`. Their caller exits, so the model ends the parse at the first error; a block that returned and let parsing continue is not modelled.
- Long options are stored as parsed. The `eval` that turns them into global variables, `help_message` and `parse_cmdopts` are not modelled.
- The `width`, `quiet`, `outfile` and `title` options only affect output and are not modelled.
- Bench.InvokeTasks: a task raising anything other than `SkipTask`, or the empty task raising anything (ruby/lib/benchmarker.rb:149, 160-167), aborts `invoke_tasks` in Ruby. Here an invocation only skips or measures, so such an abort is not modelled.
- The `scope` DSL, `Scope`, `skip_when` and nested tag lists are not modelled; a skip is an input of `invoke_tasks`.
- Results.CalcAverage: requires at least one sample. The source divides `0.0` by zero and yields NaN fields, and Dafny's `real` has no NaN.
- Report.StatsPairs: requires every task to have samples, for the same reason. An entry with NaN would make `sort_by` raise.
- Report.RankRows: a zero time fails, where Ruby's float division yields Infinity and rounding it then raises; the message is only the name of the non-finite value.
- LegacyResult.Average: requires at least one record. The NaN record of an empty average appears only as `Undefined` inside `LegacyRunner.AverageColumns`, which then fails on its `nil` label as `print_label` does.
- Common.SortBy is a stable sort. Ruby's `sort_by` does not fix the order of ties, so which of several tied samples `remove_minmax` removes is pinned down in the model only up to that choice.
- LegacyRunner.MinMaxBy: when keys tie but do not all agree, which tied result is taken is left open, and every choice is proved to satisfy the contract.
- LegacyRunner.TrimColumn: the outcome is stated exactly only for columns with distinct keys and for columns whose keys all agree. In general it is bracketed between the two size bounds.
- ComparedMatrix.Custom: a caller's formula is taken to be total. Exceptions it might raise are not modelled, and neither is a falsy non-`None` formula.
- RubyInspect.Quoted: only the C0 and C1 control characters and DEL are escaped as `\uXXXX`. Other code points that Ruby's Unicode tables deem unprintable are written as they are, and labels are taken to be UTF-8.
- Integer and float widths: counts are unbounded naturals and times are exact reals, so no rounding or overflow is modelled.

## Findings

| source | as written | input that shows it | evidently intended | confidence | as-written member | corrected member |
|---|---|---|---|---|---|---|
| ruby/benchmarker.rb:232-233 | `Statistics#matrix` merges the call's options into `DEFAULTS` instead of the instance's `@opts`, so options given to `Statistics.new` (`key`, `sort`, `compensate`) are ignored by `matrix`, unlike `ranking` | `Statistics.new(compensate: -100.0)` with one record of real time 1.0: the cell reads 100.0, not 0.0 | merge into `@opts`, as `ranking` does at line 215 | not executed | LegacyStats.MatrixAsWritten, exhibited by LegacyStats.CompensateFromConstructor | LegacyStats.Matrix, with LegacyStats.MatrixDiagonal |
