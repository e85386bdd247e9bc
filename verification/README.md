# Verified model of the pipeline diagnosis server

The server answers questions about CI pipelines: why a run failed, which tests are flaky,
how two periods compare; it reruns pipelines on request and keeps an audit trail. This
project models the computations behind those answers and proves what they promise, for
every input, every run and every history.

| files | what they model |
|---|---|
| `Regex`, `Redaction`, `Settling`, `RedactionLaws`, `Secrets`, `PlainText` | the five redaction passes, with a small matcher for their patterns; redaction is idempotent, removes every secret described in plain words, and changes exactly the texts that hold one |
| `Telemetry` | the collector: mutable per-tool metrics with a sliding window of latencies, against the whole history |
| `Extraction`, `Diagnosis`, `DiagnosisLaws`, `Placement`, `EvidenceLaws` | evidence lines, scoring, the ranking of failure categories, each rule's exact place in it, and when evidence repeats |
| `Performance`, `PerformanceLaws` | window metrics, the median, the breakdown of failures, flaky commits |
| `Flaky`, `FlakyLaws` | flaky-test aggregation and the ten-entry report |
| `Pagination`, `Transport`, `Archive` | page loops, the retry loop and error mapping, bounded log extraction |
| `Decimal`, `Url`, `Locator`, `LocatorLaws` | run and check-run URLs: parsing, printing, canonical form |
| `Reruns` | the rerun operation, its provider calls and its audit trail over any history |
| `Gates`, `Service` | diagnosis from annotations, diagnosis of a run, normalised runs, comparison of periods |
| `Benchmark` | the benchmark cases, when a case is right first and yet misses the top three, and the report |
| `Text`, `Int64`, `Sorting` | string routines, 64-bit arithmetic, sorting and order statistics |

Code that changes state is a class or a method with a loop (`Telemetry.Collector`,
`Telemetry.ToolMetric`, `Reruns.Service`, every page, retry and aggregation loop), proved
equal to a function of its inputs or of the whole history; the laws are lemmas about
those functions.

## Conventions

- Confidences of diagnoses are whole hundredths. Rates, averages and sampled confidences
  are exact reals. The index `int(float64(n-1)*0.95)` is `95*(n-1)/100`.
- Times are nanoseconds since the zero time. `Sub` saturates, milliseconds truncate toward
  zero, and int64 accumulators wrap where the code adds without a check.
- Strings are sequences of characters; lower-casing and case folding cover ASCII and the
  non-ASCII characters that fold to an ASCII letter, which is all that comparison with an
  ASCII word can see. Workflow names are compared under any folding (`Service.Folding`).
- What cannot be seen from the code is a parameter: the regular-expression engine for
  diagnosis and test names (`find`), the network (`Transport.Network`), the provider
  (`Gates.Provider`, `Service.Remote`), the store (`Reruns.Fate`), and the URL library's
  reading of a host (`hostOf`).
- The diagnosis laws that need it ask of the engine only that a match starts inside the
  text (`Diagnosis.StartsInside`).

## Where the code and its intent differ

- A missing run (404) is reported as an authorization error and never as missing logs: the
  test for the sentinel by identity meets only wrapped errors (`Transport.NeverASentinel`,
  `Archive.MissingRunIsNotMissingLogs`).
- The byte limit on zipped logs is not exact: a file header is written whole. The text
  exceeds the limit exactly when a header starts within it and ends beyond it
  (`Archive.ExceedsIff`, `Archive.LimitIsNotExact`).
- Half of a one-byte limit becomes one mebibyte; the halved limit stays within the
  configured one exactly when that is at least two bytes (`Archive.HalfLimit`).
- "Every rerun emits an auditable event", says the server's own README in its line 232. That holds exactly when no append for an
  accepted request fails (`Reruns.EveryCallAuditedIff`, `Reruns.UnauditedRerun`).
- The canonical URL of an accepted run URL is accepted as the same run exactly when owner
  and repository hold none of `#`, `?`, `%` and no control character
  (`LocatorLaws.ReparseIffVerbatim`, `LocatorLaws.EscapedOwnerNotStable`).
- An accepted run URL need not be usable: the provider is asked about the located repository
  exactly when the owner does not start and the name does not end with a space, and cannot
  read it at all exactly when one of them is blank (`Locator.ReadBackIff`,
  `LocatorLaws.BlankOwnerUnreadable`, `Benchmark.BlankOwnerHasNoResult`).
- The same evidence line can appear twice under two patterns of one rule, as for the log
  `could not resolve host connection refused` (`EvidenceLaws.OutageEvidenceRepeats`). Entries
  are distinct exactly when no two patterns contribute the same line
  (`EvidenceLaws.EvidenceDistinctIff`).
- A benchmark case decided by an environment gate can be right first and yet not among its
  own top three, as for a deployment job rejected before its first step with logs that match
  no rule (`Benchmark.GatedCaseMisses`; exactly when, in `Benchmark.Top1ImpliesTop3Iff`).
- Run durations shown for one run differ from those of the window metrics when the start is
  missing or the zero time (exactly when, in `Service.UnstartedAgreesIff` and
  `Service.ZeroStartAgreesIff`).
- Failures the client does not try again can still be reported as retryable; which ones is
  `Transport.RetryMatchesReport`.

## Model

| member | source | states |
|---|---|---|
| Redaction.RedactSecrets | internal/analysis/redaction.go:13-25 | the loop over the five patterns computes the composition of the five passes |
| Redaction.MaskKeepsGroups | internal/analysis/redaction.go:16-21 | re-matching the matched text alone inside the callback finds the same groups, so the mask keeps key and separator and replaces only the value |
| Redaction.PassCreatesNone | internal/analysis/redaction.go:5-25 | a pass of any pattern creates no occurrence of a token pattern, not even across the borders of the masked text |
| Redaction.PassRemovesAll | internal/analysis/redaction.go:13-25 | after the pass of a whole-match pattern no occurrence of it is left |
| Redaction.PassIdle | internal/analysis/redaction.go:13-25 | a pass over text without an occurrence changes nothing |
| Settling.PassSettles | internal/analysis/redaction.go:13-25 | after the key/value pass every key-and-separator in the text is followed by the mask as its whole value |
| Settling.SettledIsFixed | internal/analysis/redaction.go:13-25 | the key/value pass leaves text with only masked values as it is |
| Settling.PassKeepsSettled | internal/analysis/redaction.go:13-25 | the passes of the other patterns do not unmask a masked value or create a new key |
| RedactionLaws.KeyValueMatchesHeads | internal/analysis/redaction.go:5-11 | the key/value pattern matches exactly where a key word, a separator and a value character stand, however the words overlap |
| RedactionLaws.RedactedIsClean | internal/analysis/redaction.go:5-25 | redacted text contains no occurrence of the four token patterns and every key already has the mask as its value |
| RedactionLaws.CleanIsFixed | internal/analysis/redaction.go:5-25 | redaction leaves such text as it is |
| RedactionLaws.RedactIdempotent | internal/analysis/redaction.go:5-25 | redacting twice equals redacting once, for every string |
| Secrets.ClassicTokenExact | internal/analysis/redaction.go:6 | the first pattern denotes exactly `gh`, one of `p o u s r`, `_`, and twenty or more letters, digits or underscores |
| Secrets.FineGrainedTokenExact | internal/analysis/redaction.go:7 | the second denotes exactly `github_pat_` and twenty or more letters, digits or underscores |
| Secrets.AccessKeyExact | internal/analysis/redaction.go:8 | the third denotes exactly `AKIA` and sixteen digits or capitals |
| Secrets.BearerHeaderExact | internal/analysis/redaction.go:10 | the last denotes exactly `authorization:`, optional white space, `bearer`, white space and a non-empty credential, in any case |
| Secrets.SettledExact | internal/analysis/redaction.go:9 | the law of the key/value pass in plain words: whatever follows a key word and a `:` or `=` and is neither white space nor a quote is exactly `[REDACTED]` up to the next of these |
| Secrets.NothingSecretLeft | internal/analysis/redaction.go:5-25 | no piece of a redacted text is a token, an access key or a bearer header, and every value of a key word is `[REDACTED]` |
| Secrets.UnchangedIffNoSecret | internal/analysis/redaction.go:5-25 | redaction leaves a text as it is exactly when it holds none of these |
| Regex.GreedyIsLongest | internal/analysis/redaction.go:5-11 | for patterns whose neighbouring items are separate, the matcher finds a match whenever a prefix belongs to the language, and the longest one |
| Telemetry.Collector.constructor | internal/telemetry/collector.go:37-42 | a new collector is valid with an empty history |
| Telemetry.Collector.Observe | internal/telemetry/collector.go:44-76 | the history grows by exactly this observation, every metric again equals the recomputation from its tool's whole history, and other tools' metrics are untouched |
| Telemetry.Collector.Snapshot | internal/telemetry/collector.go:78-94 | shows exactly the tools observed, each with the statistics recomputed from its history |
| Telemetry.ToolMetric.AddSample | internal/telemetry/collector.go:64-68 | a confidence adds one sample, its value and the new average; without one nothing changes |
| Telemetry.ToolMetric.Record | internal/telemetry/collector.go:54-71 | one update keeps totals, window, averages and percentile equal to those of the longer history |
| Telemetry.Percentile95 | internal/telemetry/collector.go:129-144 | the result is one of the values and has a rank r with 100r <= 95(n-1) < 100(r+1), 0 for none |
| Telemetry.WindowAppend | internal/telemetry/collector.go:60-63 | appending and trimming keeps exactly the last 2000 of everything appended |
| Telemetry.NextFields | internal/telemetry/collector.go:54-71 | window, totals and statistics of the longer history, computed from those of the shorter one and the new observation |
| Telemetry.Collector.MetricFor | internal/telemetry/collector.go:48-52 | the tool's own metric, or a new one entered under its name and no other |
| Telemetry.AverageIsExact | internal/telemetry/collector.go:54-71 | up to a million calls the wrapped running total loses nothing: the average is the truncated mean of all latencies |
| Telemetry.AverageExactIff | internal/telemetry/collector.go:54-71 | for any number of calls the average is the truncated mean exactly when the total latency fits int64 |
| Telemetry.AverageWithinRange | internal/telemetry/collector.go:54-71 | the average latency lies between any bounds of the observed latencies |
| Telemetry.P95IsRanked | internal/telemetry/collector.go:129-144 | the reported percentile has that rank among the last min(2000, calls) latencies |
| Telemetry.AverageConfidenceInUnit | internal/telemetry/collector.go:64-68 | samples in the unit interval have their average there |
| Telemetry.ConfidenceWithin | internal/telemetry/collector.go:64-68 | the average confidence lies between any bounds of the sampled ones |
| Telemetry.CountersCount | internal/telemetry/collector.go:55-69 | calls, errors and samples are the numbers of observations, of failed ones and of those with a confidence; the last time is that of the last one |
| Int64.MillisecondsExact | internal/telemetry/collector.go:54 | a duration lies within its whole milliseconds |
| Telemetry.CallsAddUp | internal/telemetry/collector.go:44-76 | the calls of all tools together are the number of observations |
| Extraction.ExtractEvidence | internal/analysis/diagnosis.go:192-214 | walking the lines by byte position gives the evidence defined by counting newlines before each match |
| Extraction.EvidenceIsSound | internal/analysis/diagnosis.go:192-214 | each entry is a line that holds a match start, trimmed, numbered one more than the newlines before it |
| Extraction.EvidenceIsOrdered | internal/analysis/diagnosis.go:192-214 | at most `limit` entries with strictly increasing line numbers |
| Extraction.EvidenceIsComplete | internal/analysis/diagnosis.go:192-214 | every match inside the text has its line among the entries unless the limit was filled by earlier lines |
| Extraction.EvidenceNonEmpty | internal/analysis/diagnosis.go:192-214 | a match and a positive limit give at least one entry |
| Extraction.MatchIsOnALine | internal/analysis/diagnosis.go:196-204 | the lines cover every position up to and including the end of the text |
| Extraction.LineHolds | internal/analysis/diagnosis.go:196-210 | the positions between the start and end of a line are exactly those with as many newlines before them as lines precede it |
| Diagnosis.DedupeStrings | internal/analysis/diagnosis.go:274-288 | keeps the first occurrence of every element: same members, no repeats, in order |
| Diagnosis.FailedJobs | internal/analysis/diagnosis.go:175-190 | the names of the jobs whose conclusion folds to `failure` or whose status folds to `failed`, or without any those whose conclusion does not fold to `success`; each once, in the order of first occurrence |
| Diagnosis.ScoreToConfidence | internal/analysis/diagnosis.go:232-247 | the capped confidence, always between 25 and 97 hundredths |
| Diagnosis.MatchRule | internal/analysis/diagnosis.go:113-122 | the score is the number of all matches and the evidence is filled pattern by pattern up to three entries |
| Diagnosis.RankFailureDiagnoses | internal/analysis/diagnosis.go:107-157 | the ranking of the redacted logs: matched rules sorted stably by the three keys, or `unknown` alone; never empty |
| Diagnosis.DiagnoseFailure | internal/analysis/diagnosis.go:159-173 | the diagnosis and the recommendations are those of the first of the ranking, and the impacted jobs are those failed jobs |
| DiagnosisLaws.MatchedHasEvidence | internal/analysis/diagnosis.go:113-125 | a rule has evidence exactly when it scores, and never more than three entries |
| DiagnosisLaws.CandidatesPlausible | internal/analysis/diagnosis.go:111-140 | every candidate has a positive score, one to three entries, and the confidence of its score and evidence |
| DiagnosisLaws.NotBeforeNotLess | internal/analysis/diagnosis.go:146-154 | one more match outweighs any difference in evidence and the cap keeps the order, so the sort keys never contradict confidence |
| DiagnosisLaws.ConfidenceDescends | internal/analysis/diagnosis.go:113-157 | confidence never increases down the ranking although it is only the last sort key |
| DiagnosisLaws.RankingIsComplete | internal/analysis/diagnosis.go:107-157 | the ranking is a sorted rearrangement of the matched rules, ties in rule order; `unknown` appears exactly when none matches |
| DiagnosisLaws.CategoriesIgnoreJobs | internal/analysis/diagnosis.go:146-154 | the order of categories is the same for every job list: the confidence key never decides |
| DiagnosisLaws.DiagnosisIsBest | internal/analysis/diagnosis.go:159-173 | the diagnosed category is the first ranked, no matched rule scores more, and a category and a root cause are always given |
| DiagnosisLaws.DiagnosisReportsJobs | internal/analysis/diagnosis.go:159-190 | every diagnosis reports exactly these jobs |
| DiagnosisLaws.ScoreAdds | internal/analysis/diagnosis.go:113-122 | the score is additive over the patterns, and for one pattern the number of its matches |
| DiagnosisLaws.ConfidenceGrows | internal/analysis/diagnosis.go:232-247 | one match with one entry has 57 hundredths; a match adds 8, an entry 4, impacted jobs 3, up to 97; unknown failures have 40 or 25 |
| DiagnosisLaws.CandidateRecommends | internal/analysis/diagnosis.go:127-130 | a candidate brings its rule's recommendations, the most confident first |
| Placement.RankedRecommend | internal/analysis/diagnosis.go:127-139 | so does every matched rule in the ranking |
| EvidenceLaws.EvidenceDistinctIff | internal/analysis/diagnosis.go:113-122 | no evidence entry of a rule is repeated exactly when, for every two patterns, the lines they contribute (as far as there is room for three entries) are disjoint |
| EvidenceLaws.FewEntriesAreAll | internal/analysis/diagnosis.go:113-122 | with fewer than three entries every line with a match of any pattern has its entry |
| EvidenceLaws.UnknownShows | internal/analysis/diagnosis.go:216-272 | an unknown failure shows the impacted jobs and up to 220 characters of the trimmed logs, as far as there are any, with 40 or else 25 hundredths |
| EvidenceLaws.OutageEvidenceRepeats | internal/analysis/diagnosis.go:119-121 | a one-line log that two patterns of the dependency rule match is diagnosed as `dependency_outage` with the same entry twice, for every job list |
| Placement.RankOfRule | internal/analysis/diagnosis.go:113-156 | every matching rule stands in the ranking at exactly the number of matching rules that score more, or as much with more evidence, or equal it in both and come earlier in the rule list |
| Placement.AmongFirstIff | internal/analysis/diagnosis.go:113-156 | a rule's category is among the first m of the ranking exactly when the rule matches and fewer than m rules come before it in that sense |
| PlainText.PlainTextIsKept | internal/analysis/redaction.go:5-25 | redaction changes no text without `_`, `A`, `:` and `=`, one of which every pattern needs |
| Performance.Accumulate | internal/analysis/performance.go:37-64 | the loop gives durations, wrapped queue total, success count, breakdown, and exactly the outcomes seen per non-blank commit |
| Performance.CountFlaky | internal/analysis/performance.go:66-72 | counts the commits with both a failure and a success, in any order of visiting |
| Performance.CalculateWindowMetrics | internal/analysis/performance.go:32-84 | the loops compute the window metrics defined on the list of runs |
| Performance.TimesBounded | internal/analysis/performance.go:86-106 | duration and queue time are never negative and fit the longest representable duration |
| PerformanceLaws.TimesAreSpans | internal/analysis/performance.go:86-106 | for every run: once started it was queued from creation to start and took from start to last update, otherwise it was not queued and took from creation; in whole milliseconds, nothing backwards, and saturated |
| PerformanceLaws.DurationsAre | internal/analysis/performance.go:43-45 | the durations are those of the runs |
| PerformanceLaws.QueueAverageBetween | internal/analysis/performance.go:74 | the average queue time lies between the shortest and the longest one |
| PerformanceLaws.SuccessRateCounts | internal/analysis/performance.go:46-47 | the success rate is the share of the runs whose conclusion folds to `success` |
| PerformanceLaws.ClassesAre | internal/analysis/performance.go:108-125 | which conclusions fall into which failure class, both directions |
| PerformanceLaws.BreakdownCountsRuns | internal/analysis/performance.go:48-50 | a class holds the number of runs without success that belong to it, and is absent without any |
| PerformanceLaws.FlakyMeans | internal/analysis/performance.go:52-81 | a commit is flaky exactly when it is not blank and has both a failure and a success; the rate is their number per run |
| PerformanceLaws.SnapshotMeans | internal/analysis/performance.go:12-30 | current and baseline metrics are those of their lists, and baseline plus difference is current |
| Performance.MedianNoWrap | internal/analysis/performance.go:60-64 | the addition inside the median never overflows int64 |
| Performance.QueueAverageIsExact | internal/analysis/performance.go:74-83 | up to a million runs the queue total does not wrap and the average is the exact quotient |
| Performance.QueueAverageExactIff | internal/analysis/performance.go:74-83 | for any number of runs the average queue time is that of the exact total precisely when the total fits int64 |
| Performance.BuildPerformanceSnapshot | internal/analysis/performance.go:12-30 | both windows' metrics and the differences current minus baseline |
| PerformanceLaws.OutcomesConserved | internal/analysis/performance.go:43-50 | successes plus the values of the breakdown are the total number of runs |
| PerformanceLaws.BreakdownCounts | internal/analysis/performance.go:43-50 | each class of the breakdown holds the number of failed runs of that class, and classes without one are absent |
| PerformanceLaws.FlakyBound | internal/analysis/performance.go:43-81 | flaky commits are at most the successes and at most the test-or-build failures, hence at most half the runs; both rates are proportions |
| PerformanceLaws.MedianRanks | internal/analysis/performance.go:60-64 | the median is the truncated mean of the elements of the two middle ranks of the durations |
| PerformanceLaws.MedianBetween | internal/analysis/performance.go:60-64 | the median lies between the shortest and the longest duration |
| PerformanceLaws.MetricsIgnoreOrder | internal/analysis/performance.go:32-84 | the whole metrics value is the same for every permutation of the runs |
| PerformanceLaws.DeltaAntisymmetric | internal/analysis/performance.go:12-30 | exchanging the windows negates every difference |
| Flaky.ExtractTestNames | internal/analysis/flaky.go:112-129 | the distinct non-blank captured names of the redacted logs, in order of patterns and matches |
| Flaky.CountNames | internal/analysis/flaky.go:49-64 | one run counts each of its names once and moves each name's last-seen time forward only |
| Flaky.Aggregation | internal/analysis/flaky.go:34-65 | after the loop each entry holds the number of failed runs with fetched logs that name the test and the latest of their times |
| Flaky.Records | internal/analysis/flaky.go:67-89 | one record per named test, in any order of the map, each computed from frequency, recency and failed runs |
| Flaky.AnalyzeFlakyTests | internal/analysis/flaky.go:27-110 | the report lists at most ten distinct tests, sorted; every test left out is at most as frequent as every one kept, and none is left out below ten |
| FlakyLaws.FrequencyBound | internal/analysis/flaky.go:37-65 | a test's frequency is at most the number of failed runs |
| FlakyLaws.LastSeenIsLatest | internal/analysis/flaky.go:61-63 | recency is the update time of some failed run that names the test, and none is later |
| FlakyLaws.FrequencyMeans | internal/analysis/flaky.go:37-60 | a record's frequency is the number of runs that failed by conclusion or status, whose logs were fetched and name the test; failed runs are counted likewise |
| FlakyLaws.RecencyMeans | internal/analysis/flaky.go:74-77 | recency is given exactly when a naming run was updated after the zero time, and is then the latest such update |
| FlakyLaws.ConfidenceMeans | internal/analysis/flaky.go:78-81 | the confidence is 0.3, plus 0.4 times the share of failed runs, plus 0.08 for each naming run, up to 0.98 |
| FlakyLaws.TestNamesMean | internal/analysis/flaky.go:112-129 | logs name a test exactly when some pattern captures it, up to outer spaces, in the redacted text |
| FlakyLaws.RecordInRange | internal/analysis/flaky.go:72-88 | a named test's rate is its share of the failed runs, in (0, 1], and its confidence in (0.3, 0.98] |
| FlakyLaws.FrequencyDecides | internal/analysis/flaky.go:91-96 | equal frequency forces equal confidence, so the second sort key never decides |
| FlakyLaws.CountsIgnoreOrder | internal/analysis/flaky.go:37-65 | frequency and failed runs are the same for every permutation of the runs |
| FlakyLaws.RecordIgnoresOrder | internal/analysis/flaky.go:67-89 | so is a test's whole record |
| FlakyLaws.ReportIgnoresOrder | internal/analysis/flaky.go:27-110 | a list that is a correct report for the runs is one for every permutation of them |
| FlakyLaws.FrequenciesDetermined | internal/analysis/flaky.go:91-99 | any two correct reports have the same length and the same frequencies, whichever ties the sort keeps |
| Pagination.ListRepositoryRuns | internal/githubapi/client.go:71-114 | returns exactly the first min(N, maxRuns, 10*perPage) runs, with 100 in place of a maximum below one or a page size outside 1 to 100, asking only for pages it needs; a failure is that of the first page that is down |
| Pagination.ListRunJobs | internal/githubapi/client.go:52-69 | returns exactly the first min(N, 1000) jobs, or the error of the first page that is down |
| Pagination.CutIsPrefix | internal/githubapi/client.go:80-113 | whenever no further page is wanted, cutting at the limit gives the promised prefix |
| Transport.DoBytes | internal/githubapi/client.go:201-219 | at most three attempts, with 200 and 800 ms of waiting between them; every attempt but the last failed retryably, and the last one's outcome, or the context's error if its wait was cut short, is returned |
| Transport.OutcomeDetermined | internal/githubapi/client.go:201-219 | that description fits only one number of attempts for a given network |
| Transport.RetryMatchesReport | internal/githubapi/client.go:247-281 | whatever the loop tries again is reported as retryable; errors reported as final are exactly the refusals 401, 403 and 404 outside rate limiting; lists the failures reported retryable though not tried again |
| Transport.ExchangeMeans | internal/githubapi/client.go:247-281 | for every exchange: when it succeeds, which error it is otherwise, and when it is tried again |
| Transport.ReportMeans | internal/githubapi/adapter.go:174-200 | which errors are reported under which code, both directions, and that only authorization errors are final |
| Transport.LoopErrorReport | internal/githubapi/adapter.go:174-200 | the error the loop returns, unless the context's, is reported retryable exactly when the last exchange was no refusal |
| Transport.NeverASentinel | internal/githubapi/client.go:247-281 | a failing exchange never yields a bare sentinel; it wraps not-found exactly for an unlimited 404 |
| Archive.UnzipOrText | internal/githubapi/client.go:300-345 | plain text is cut at the limit; zipped files give the outcome of the loop below |
| Archive.CopyFiles | internal/githubapi/client.go:313-344 | the text is the prefix of all headers and contents cut at the limit, except that the header in which the limit is used up is written whole; a read error exactly when some file fails before that; empty only when there is nothing to show |
| Archive.FullOfOne | internal/githubapi/client.go:314-335 | of one file there is its header line and its contents; of a directory or a file that does not open, nothing |
| Archive.FullAppends | internal/githubapi/client.go:314-340 | what there is to extract is put together file by file |
| Archive.LimitMeans | internal/githubapi/client.go:301-303 | without a positive limit it is 1048576 bytes |
| Archive.OverflowBounded | internal/githubapi/client.go:300-345 | the extracted text is shorter than the limit plus the longest header |
| Archive.ExceedsIff | internal/githubapi/client.go:318-339 | the extracted text exceeds the limit exactly when some header starts within the limit and ends beyond it |
| Archive.LimitIsNotExact | internal/githubapi/client.go:326-330 | whatever is extracted from one file that opens under a one-byte limit is longer than that |
| Archive.DownloadRunLogs | internal/githubapi/client.go:143-164 | which results are logs and which are errors: transport errors pass through, an empty body, an empty archive and a failed read are missing logs |
| Archive.MissingRunIsNotMissingLogs | internal/githubapi/client.go:143-164 | whatever the network does, a failed download is never classified as missing logs, and a 404 maps to an authorization error |
| Archive.HalfLimit | internal/service/service.go:243-245 | the halved limit in force is within the configured one exactly when that is at least two bytes; one byte becomes one mebibyte |
| Decimal.ParsePrinted | internal/githubapi/locator.go:41-50 | parsing a printed int64 gives it back |
| Decimal.PrintedIsShortest | internal/githubapi/locator.go:41-50 | no accepted spelling of a number is shorter than the printed one |
| Decimal.ParseAccepts | internal/githubapi/locator.go:41-44 | exactly the digits with an optional sign whose value is within 64 bits are accepted, with that value |
| Decimal.DigitShifts | internal/githubapi/locator.go:41-44 | a further digit multiplies the value by ten and adds its own |
| Locator.CanonicalParses | internal/githubapi/locator.go:22-52 | the canonical URL of any plain, unescaped owner and repository and any int64 id parses to exactly that run |
| Locator.RunUrlRoundTrip | internal/githubapi/adapter.go:67-73 | printing a repository's run URL and parsing it gives owner, repository and id back, for names of letters, digits, `-`, `_`, `.` |
| Locator.RunUrlText | internal/githubapi/adapter.go:67-73 | the printed URL, written out |
| Locator.RepositoryRoundTrip | internal/githubapi/locator.go:54-61 | an owner and a name joined by a slash parse back |
| Locator.ReadBack | internal/githubapi/adapter.go:202-204 | what the adapter reads back from a located repository, for all slash-free names: outer spaces are lost, and a blank owner or name is an error |
| Locator.ReadBackIff | internal/githubapi/adapter.go:202-204 | the provider is asked about the run's own repository exactly when the owner starts and the name ends with no space |
| LocatorLaws.AcceptedNames | internal/githubapi/locator.go:22-52 | an accepted URL yields non-empty names that are no dot segments and hold no slash, an int64 id, and the canonical URL |
| LocatorLaws.RunUrlAcceptedIff | internal/githubapi/locator.go:22-52 | accepted, with this owner, repository and id, exactly on a host that folds to `github.com` with a cleaned path of owner, repository, `actions`, `runs` and a number, whatever follows |
| LocatorLaws.OtherHostsRefused | internal/githubapi/locator.go:32-34 | no URL on another host is a run URL |
| LocatorLaws.CheckRunAcceptedIff | internal/githubapi/locator.go:67-113 | a check-run URL is accepted exactly on the host of the base, with the base's cleaned path followed by the five segments of a check run |
| LocatorLaws.ReparseIffVerbatim | internal/githubapi/locator.go:22-52 | re-parsing the canonical URL of any accepted URL gives the same locator exactly when owner and repository hold no `#`, `?`, `%` or control character |
| LocatorLaws.EscapedOwnerAccepted | internal/githubapi/locator.go:22-52 | any escaped character other than a slash or a dot is accepted as an owner |
| LocatorLaws.EscapedOwnerNotStable | internal/githubapi/locator.go:22-52 | an escaped question mark as owner is accepted, and its canonical URL does not give the same result |
| LocatorLaws.BlankOwnerUnreadable | internal/githubapi/adapter.go:75-79 | an escaped space as owner is accepted, and its repository cannot be read back |
| LocatorLaws.ParseAppend | internal/githubapi/locator.go:67-85 | appending an unescaped path to a base URL appends it to the parsed path and keeps the host |
| LocatorLaws.CleanBelowBase | internal/githubapi/locator.go:86-96 | the cleaned path below any base, root included, is the cleaned base followed by the plain segments |
| LocatorLaws.CheckRunRoundTrip | internal/githubapi/locator.go:67-113 | below any API base with a host, the URL of a check run parses to its id |
| Reruns.Store.Append | internal/service/service.go:341-354 | the store only grows, by the event when the append works |
| Reruns.Service.EmitAudit | internal/service/service.go:341-354 | one append attempt of an event with the configured actor and the given repository, run, reason, scope and outcome |
| Reruns.Service.Rerun | internal/service/service.go:249-303 | the provider calls, append attempts and stored events change as one step of the specification says, and the response is the specified one, append failure or not |
| Reruns.AuditTrail | internal/service/service.go:249-303 | over every history, provider calls and append attempts correspond one to one, in order, to the accepted requests, agreeing in trimmed repository, run, reason, provider and actor; the scope is `failed_jobs_only` exactly for calls restricted to failed jobs and `full_run` exactly for the others; the outcome is success exactly when the provider returned no error and exactly when a result is returned |
| Reruns.StoredTrail | internal/service/service.go:298-300 | the stored trail is the attempts without those whose append failed, in order |
| Reruns.EveryCallAuditedIff | internal/service/service.go:289-300 | as many stored events as provider calls exactly when no append for an accepted request fails |
| Reruns.UnauditedRerun | internal/service/service.go:298-302 | a granted rerun with a failed append leaves a call and no event |
| Reruns.ResultsAreSuccesses | internal/service/service.go:275-302 | over every history the results returned are, in order, what the successful audit attempts describe |
| Reruns.ResultsAnswerRequests | internal/service/service.go:275-302 | over every history the results are, one to one and in order, the answers to the accepted requests the provider did not fail: run, trimmed repository, reason, actor, status `requested`, and the scope named as above |
| Reruns.AcceptedIff | internal/service/service.go:249-273 | a request reaches the provider exactly with mutations allowed, a registered provider named or the default, a reason that is not blank, two names around one slash, and a run id from 1 |
| Reruns.DisabledDoesNothing | internal/service/service.go:265-273 | with mutations disabled no history causes a call, an event or a result |
| Reruns.RefusalCodes | internal/service/service.go:250-297 | a request is refused as invalid exactly when it is malformed, a well-formed one as unauthorized with mutations disabled, and a failed one with the provider's mapped error; only that can be retryable |
| Reruns.CanonicalIsTrimmed | internal/githubapi/adapter.go:40-46 | the canonical repository is the trimmed identifier, and canonicalising again changes nothing |
| Gates.GateAtExact | internal/service/service.go:113 | the branch pattern matches at a place with two groups exactly when the text written with those groups stands there, both non-empty and free of their delimiters |
| Gates.FindGateFirst | internal/service/service.go:147-150 | the search returns the leftmost match, and none exactly when no place matches |
| Gates.GateShowsProtection | internal/service/service.go:544-552 | every message the branch pattern matches counts as protection evidence |
| Gates.ProtectionMeans | internal/service/service.go:544-552 | a message is evidence of a protection rule exactly when it contains one of three phrases in any case |
| Gates.ApprovalMeans | internal/service/service.go:114 | a message is evidence of an approval gate exactly when it contains one of five phrases up to case, or `approval` and later on the same line `required` |
| Gates.ReadAnnotations | internal/service/service.go:134-151 | evidence, branch and environment after the loop over the annotations |
| Gates.ReferencesExact | internal/service/service.go:137-146 | the evidence consists of exactly the non-blank messages, trimmed, with their start lines |
| Gates.ReferencesAppend | internal/service/service.go:137-146 | the evidence of a concatenation is the concatenation: order and repetitions are kept |
| Gates.LastGateIsLast | internal/service/service.go:147-150 | branch and environment are the groups of the last matching annotation, both non-empty |
| Gates.GateIsNamed | internal/service/service.go:134-151 | both stay empty when no annotation matches; otherwise some annotation is the last that matches |
| Gates.DiagnoseJob | internal/service/service.go:117-211 | one pass of the loop gives a diagnosis exactly for a gated job: failed, without steps, with a readable check run one of whose messages shows a gate |
| Gates.DiagnoseMetadataFailure | internal/service/service.go:116-215 | the loop gives the diagnosis of the earliest gated job |
| Gates.EarliestIsDiagnosed | internal/service/service.go:116-215 | a diagnosis exists exactly when some job is gated, and it is that of the earliest |
| Gates.GatedJobs | internal/service/service.go:118-154 | a gated job failed, ran no step, and its diagnosis has evidence |
| Gates.GatedIff | internal/service/service.go:118-182 | exactly which jobs are gated, in terms of job, provider and messages |
| Gates.DiagnosisMeans | internal/service/service.go:152-211 | a protection rule takes precedence over an approval; category, confidences 94 and 92, job, evidence, environment, and exactly the named policies of a known environment |
| Gates.EnvironmentMeans | internal/service/service.go:156-167 | the environment is the named one, else the original and then the current one of the deployment if not blank, else unknown |
| Gates.PolicyNamesAppend | internal/service/service.go:191-196 | policy names keep their order and repetitions |
| Gates.NamedGateIsProtection | internal/service/service.go:156-211 | when an annotation names branch and environment the diagnosis is a protection rule with those; an approval gate always reports the job's own branch and no policies |
| Service.DiagnoseRun | internal/service/service.go:66-111 | the outcome is the annotation diagnosis if there is one, else the diagnosis of the once-redacted logs within the allowed bytes, else the mapped error; the second redaction and the fallback root cause change nothing |
| Service.OutcomeMeans | internal/service/service.go:66-111 | exactly when a run is diagnosed from its logs, with how many bytes, what it is diagnosed from and which jobs it reports, and which error is given otherwise |
| Service.LogBytesWithin | internal/service/service.go:72-77 | the bytes asked for are those wanted exactly when these are positive and within the maximum, and else the maximum |
| Service.GateOutranksLogs | internal/service/service.go:87-91 | with a gated job the outcome does not depend on logs or wanted bytes |
| Service.NormalizeRun | internal/service/service.go:474-528 | with a non-zero start time the duration is the whole milliseconds from start to last update and the queue time those from creation to start, equal to the window metrics; what they are without one and with the zero time (when they agree then is stated in the two rows below); the reason names the first job whose conclusion folds to `failure` |
| Service.UnstartedAgreesIff | internal/service/service.go:484-492 | without a start time the durations agree exactly when less than a millisecond passed |
| Service.ZeroStartAgreesIff | internal/service/service.go:484-492 | with a start at the zero time, for which creation and update times the durations, and for which creation times the queue times, agree |
| Service.ElapsedSplits | internal/analysis/performance.go:86-106 | queue time plus duration is the elapsed time, or one millisecond less |
| Service.FilterByWorkflow | internal/service/service.go:530-542 | keeps the runs of the workflow in order, all of them for a blank name |
| Service.FilterExact | internal/service/service.go:530-542 | a run is kept exactly when its name or title is the trimmed name up to case, under any folding |
| Service.FilterAppend | internal/service/service.go:530-542 | filtering a concatenation is concatenating the filtered parts |
| Service.ComparePerformance | internal/service/service.go:305-339 | the snapshot of the filtered runs of the period and of its baseline, both asked for to the second, or the error of the first failing step |
| Service.ComparisonMeans | internal/service/service.go:305-339 | a comparison is given exactly for a non-empty period both of whose lists were fetched; current and baseline are the metrics of the workflow's runs of the two |
| Service.RequestsAre | internal/service/service.go:319-324 | the instants both requests name, to the second |
| Service.BaselineLength | internal/service/service.go:319-324 | the baseline ends where the period starts, as printed too, and is as long exactly when the length is a representable duration |
| Service.ComparisonsChain | internal/service/service.go:305-339 | comparing consecutive periods of equal length: the earlier current metrics are the later baseline |
| Benchmark.TopCategories | cmd/benchmark/main.go:217-236 | the first three ranked categories, or the diagnosed one for blank logs |
| Benchmark.ContainsCategory | cmd/benchmark/main.go:257-264 | membership |
| Benchmark.EvaluateFixture | cmd/benchmark/main.go:142-178 | a result exactly when the run URL is accepted and its repository can be read back, with the service's category, its top categories and both match flags |
| Benchmark.ResultMeans | cmd/benchmark/main.go:168-177 | the flags compare the expected category with the named one and with the top categories, which are the first three of the ranking |
| Benchmark.ServedJobs | cmd/benchmark/main.go:66-71 | a fixture without jobs is served as one failed job |
| Benchmark.RefusedIff | internal/githubapi/adapter.go:75-79 | the service fails a located case exactly when the repository cannot be read back |
| Benchmark.ReachableIff | cmd/benchmark/main.go:161-166 | a case has a result exactly when its URL is accepted and neither owner nor name is blank |
| Benchmark.BlankOwnerHasNoResult | cmd/benchmark/main.go:161-166 | the run URL with an escaped space as owner is accepted and gives no result |
| Benchmark.CategoryGiven | cmd/benchmark/main.go:53-91 | for a readable repository the service names a category: that of the gate or the first ranked one |
| Benchmark.HeldIff | internal/service/service.go:87-91 | a readable case is decided by a gate exactly when one of its jobs is gated |
| Benchmark.TopIsFirst | cmd/benchmark/main.go:142-178 | a case without a gated job, or with blank logs, is first among its own top categories, although service and benchmark see different job lists and redact a different number of times |
| Benchmark.ConfigAmongThree | cmd/benchmark/main.go:217-236 | `config_error` is among the first three exactly when its rule matches the redacted logs and at most two matching rules come before it |
| Benchmark.Top1ImpliesTop3Iff | cmd/benchmark/main.go:168-177 | matching first implies matching the top three exactly when no job is gated, or the logs are blank, or `config_error` is not expected, or its rule matches with at most two rules before it |
| Benchmark.GatedCaseMisses | cmd/benchmark/main.go:168-177 | one fixture, a deployment job rejected before its first step with logs that match no rule, is decided by its gate, right first and not among its top three |
| Benchmark.SummarizeResults | cmd/benchmark/main.go:188-215 | the report of the counted matches and latencies |
| Benchmark.AverageLatency | cmd/benchmark/main.go:266-275 | the mean, 0 for none |
| Benchmark.Percentile95Latency | cmd/benchmark/main.go:277-292 | one of the values, with a rank r such that 100r <= 95(n-1) < 100(r+1), in milliseconds |
| Benchmark.AccuracyOrdered | cmd/benchmark/main.go:188-215 | accuracies are proportions, and top-three is at least top-one when no case is right first and not among its top three |
| Benchmark.AccuraciesCount | cmd/benchmark/main.go:197-211 | the accuracies are the shares of the cases that match first and among the top three |
| Benchmark.RunCases | cmd/benchmark/main.go:110-140 | a report exactly for a non-empty list of reachable fixtures, over the result of each in order with its latency |
| Benchmark.SuiteOrdered | cmd/benchmark/main.go:188-215 | if every fixture satisfies the exact condition of its case, the suite's top-three accuracy is at least its top-one accuracy |
| Benchmark.LatenciesWithin | cmd/benchmark/main.go:266-292 | average and percentile lie between the shortest and longest latency, and the percentile has that rank |
| Sorting.SortedIndexHasRank | internal/telemetry/collector.go:134-143 | indexing the sorted copy gives the element of that rank |
| Sorting.RankUnique | internal/telemetry/collector.go:134-143 | only one value has a given rank, whatever the order of the values |
| Text.AsciiSpaces | internal/service/service.go:255 | the ASCII characters that trimming removes |
| Text.FoldMeans | internal/analysis/performance.go:46 | which characters are equal up to case |
| Text.LowerMeans | internal/analysis/performance.go:56 | which characters become a given letter in lower case |
| Sorting.PlaceInSort | internal/analysis/diagnosis.go:146-154 | an element of a stable sort stands after exactly the earlier elements it is not smaller than and the later elements smaller than it |
| Sorting.StableSortKeepsTies | internal/analysis/diagnosis.go:146-154 | elements the comparison cannot tell apart keep their order |

## Left out

- HTTP requests, JSON encoding and decoding, zip decoding: the model takes what they yield.
- The general regular-expression engine: `find` gives the matches of the diagnosis and test-name patterns; the redaction patterns and the two gate patterns have hand-written matchers.
- The Unicode tables: a non-ASCII run conclusion keeps its case as a failure class, and the folding of workflow names is a parameter.
- Bytes versus characters: text is a sequence of characters, so a cut inside a multi-byte character, and invalid UTF-8, are not modelled.
- Floating-point rounding: hundredths, exact reals, and the integer form of the percentile index stand for float64 values.
- The order of equally frequent tests after the unstable sort: `Flaky.AnalyzeFlakyTests` uses a stable one; `FlakyLaws.FrequenciesDetermined` states what does not depend on it.
- flakyAggregate pointers: the entries of the aggregation map are values, so aliasing of entries is not captured.
- Locks and threads: each collector operation is atomic, so interleavings are sequences of operations. The metrics' clock and the exported snapshot file are left out.
- Parsing of user information, ports and bracketed hosts in a URL: `hostOf` gives the host of an authority.
- Fetching of logs for the flaky analysis is a function of the run id.
- The look-back days of the flaky analysis and the texts of the patterns for diagnosis and test names, which are handed to the engine as they are.
- RFC 3339 formatting (a period is printed to the second; its text is not modelled), event ids and timestamps, wording of root causes from annotations, messages and remediation texts.
- Audit store files, permissions and signatures: an append works or fails.
- Providers beyond the repository-identifier rules of the GitHub adapter, registry construction, and resolution of a run reference to the latest failed run.
- Configuration reading, tool registration and process start-up; a positive log limit is taken from the configuration.
