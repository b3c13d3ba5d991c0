# Semantic metrics catalogue — a Dafny model

This project models the rule-bearing core of a semantic-metrics assistant:
a catalogue of business metric definitions that scores how far each
definition can be trusted, keeps a change history, and exports definitions
to BI tools. Four parts are modelled, each as pure functions over immutable
values:

- **The weighted trust-scoring engine** (`trust_scoring.dfy`, module
  `TrustScoring`). Five step-function components over day counts and
  counters. Weights 15/20, 35/25, 1, 15/20 and 1 make the weighted sum
  exactly 100 at most. A recent-activity bonus, a consistency bonus, a
  capped staleness decay and one final clamp to [0, 100] follow. The module
  also covers the three-way trend classifier, the recommendation list, the
  score label and the block-character sparkline. Weights and the decay are
  exact `real`s.
- **The SQLite metric store** (`store.dfy`, module `Store`). The `metrics`
  table is a `map` keyed by id. The history, validation-test, usage and
  score-snapshot tables are append-only sequences. Every repository
  operation is a state transition `Db -> Db`.
  - `LIKE` matching is in `sql.dfy`.
  - `WHERE`, `ORDER BY ... DESC` and `LIMIT` over a log are in `seqs.dfy`.
- **The server's in-memory catalogue and helpers** (`server.dfy`, module
  `Server`). The process-wide store is passed in as a map. The module
  covers:
  - the original integer trust score;
  - what `define_metric` and `validate_metric` do to the catalogue;
  - path-based cycle detection over dependencies;
  - the recommendation rules;
  - the similar-name lookup and the similarity measure.
- **The aggregate classifiers of the exporters** (`exporters.dfy`, module
  `Exporters`). They map a calculation to a Looker measure type and to a
  Tableau datatype.

Shared records live in `model.dfy`. ASCII text helpers live in `text.dfy`:
case folding, `str.split`, `str.strip` and substring search.

How the model represents the source's values:

- **Time.** Timestamps are integers in microseconds. A day count is
  `timedelta.days`, which is floor division. The clock reading (`now`) is
  always a parameter.
- **Absent values.** A NULL or empty text column is the empty string.
  Python treats both as false, and so do the scoring, advice and validation
  rules. Three store operations can tell them apart in the source, and the
  model does not (see "Left out"): `create_metric`, which fails when a
  `NOT NULL` column gets NULL; the change comparison of `update_metric`;
  and the owner query of `get_metrics_by_owner`.
- **Shared record.** One `Metric` record serves both stores. The server
  never sets `trust_score`, so it stays 0 there.

Some of the code's behaviour is easy to misread. The model follows the code
in each case:

- **`record_trust_score` leaves the metric row alone.** It only appends a
  snapshot; the metric's `trust_score` column is not updated.
- **An empty update still changes the metric.** It logs nothing, but it
  still refreshes `updated_at`.
- **`test_count` counts every test row.** `add_validation_test` resets it
  to the number of test rows, whatever their status.
- **Search reads two columns only.** It matches on name and description,
  not on the calculation.
- **Evenly spaced history reads as improving.** Take five changes ten days
  apart, the newest today. `calculate_trend` classifies them as improving
  (`TrustScoring.EvenlySpacedHistoryImproves`): four fall in the last 30
  days and one in the month before. The repository's test for that history
  (tests/test_trust_scoring.py:153-160) expects "stable".

## Model

| member | source | states |
|---|---|---|
| Model.DaysBetween | semantic_metrics/trust_scoring.py:45 | A day count is the number of whole days in the interval, rounded down like `timedelta.days`. |
| TrustScoring.CheckFreshness | semantic_metrics/trust_scoring.py:113-126 | Freshness lies in [0, 20]. It is 20 exactly for at most 7 days since the update, and 0 exactly beyond 180 days. |
| TrustScoring.FreshnessNeverRises | semantic_metrics/trust_scoring.py:113-126 | An older metric never scores higher on freshness. |
| TrustScoring.CheckTestCoverage | semantic_metrics/trust_scoring.py:129-140 | Coverage is one of 0/15/20/25. It is 25 exactly from 5 tests and 0 exactly below 1 test. |
| TrustScoring.TestCoverageNeverFalls | semantic_metrics/trust_scoring.py:129-140 | More tests never give less coverage. |
| TrustScoring.CheckUsage | semantic_metrics/trust_scoring.py:143-156 | Usage is one of 0/5/10/15/20. It is 20 exactly from 50 uses and 0 exactly below 1 use. |
| TrustScoring.UsageNeverFalls | semantic_metrics/trust_scoring.py:143-156 | More uses never give fewer usage points. |
| TrustScoring.CheckDocumentation | semantic_metrics/trust_scoring.py:159-179 | Documentation is a multiple of 5 up to 20. It is 20 exactly when all four criteria hold: a description over 20 characters, a data source, tags and dependencies. It is 0 exactly when none holds. |
| TrustScoring.CheckOwnership | semantic_metrics/trust_scoring.py:182-187 | Ownership is 15 exactly when the owner is non-empty and not "Unassigned", and 0 otherwise. |
| TrustScoring.WeightedBreakdown | semantic_metrics/trust_scoring.py:25-30 | The weighted components stay within 15, 35, 20, 15 and 15 points. |
| TrustScoring.BaseScore | semantic_metrics/trust_scoring.py:32-38 | The weighted base lies in [0, 100]. It equals 100 exactly when every component is at its maximum. |
| TrustScoring.RecentActivityBonus | semantic_metrics/trust_scoring.py:44-53 | The bonus is exactly one of 10 (at most 7 days), 5 (8 to 30 days) or 0. |
| TrustScoring.ConsistencyBonus | semantic_metrics/trust_scoring.py:55-68 | The bonus is 5 exactly when there are at least 5 entries and consecutive entries among the 10 newest are at most 30 days apart. Otherwise it is 0. |
| TrustScoring.ConsistencyReadsTenNewest | semantic_metrics/trust_scoring.py:56-59 | Entries beyond the ten newest never change the consistency bonus. |
| TrustScoring.TimeDecay | semantic_metrics/trust_scoring.py:70-78 | Decay is non-zero exactly when the metric was created over 90 days ago and updated over 30 days ago. It then lies in (5, 25]. |
| TrustScoring.DecayGrowsWithStaleness | semantic_metrics/trust_scoring.py:72-74 | Decay grows with staleness and is capped at 25 from 150 days on. |
| TrustScoring.Clamp | semantic_metrics/trust_scoring.py:80-81 | The result lies in [0, 100] and leaves in-range scores unchanged. |
| TrustScoring.ClampMonotone | semantic_metrics/trust_scoring.py:81 | Clamping preserves order. |
| TrustScoring.CalculateTrend | semantic_metrics/trust_scoring.py:190-215 | Fewer than 2 entries give stable. Improving holds exactly when recent changes exceed older ones by more than 2. Degrading holds exactly when they fall short by more than 2. Each extreme needs at least 3 changes on its side. |
| TrustScoring.FreshChangeNeverWorsensTrend | semantic_metrics/trust_scoring.py:200-215 | Recording one more change now never moves the trend towards degrading. |
| TrustScoring.EvenlySpacedHistoryImproves | semantic_metrics/trust_scoring.py:204-211 | Five changes 0, 10, 20, 30 and 40 days ago classify as improving. |
| TrustScoring.TwentyCharacterDescriptionFallsThrough | semantic_metrics/trust_scoring.py:252-261 | As written, a 20-character description earns no documentation point and is not listed as missing. The documentation score can then be below 10 with no gap to report. |
| TrustScoring.MissingDocsAsWritten | semantic_metrics/trust_scoring.py:252-259 | As written, the description is listed as missing only below 20 characters, while credit for it needs more than 20. Data source and tags are listed exactly when absent. |
| TrustScoring.MissingDocsAccountsForCredit | semantic_metrics/trust_scoring.py:159-179 | With the corrected threshold, every listed gap is one documentation criterion without credit: documentation points plus 5 per gap make 15, plus 5 when dependencies are recorded. |
| TrustScoring.LowDocumentationAlwaysNamesAGap | semantic_metrics/trust_scoring.py:252-261 | With the corrected threshold, a documentation score below 10 always names at least one gap. |
| TrustScoring.GetRecommendations | semantic_metrics/trust_scoring.py:218-273 | The production-ready verdict leads exactly at 80 and above. The action-required verdict leads exactly below 50. All other advice is the component advice. Documentation advice uses the corrected description threshold. |
| TrustScoring.AdviceConditions | semantic_metrics/trust_scoring.py:231-265 | Each piece of advice appears in the final list exactly under its own condition, whatever the overall verdict. |
| TrustScoring.AdviceForMetric | semantic_metrics/trust_scoring.py:231-265 | Read against the metric: "first tests" appears exactly when there are no tests. "More tests" needs a negative count. Usage advice appears exactly below 10 uses. Owner advice appears exactly without a real owner. |
| TrustScoring.CalculateTrustScoreEnhanced | semantic_metrics/trust_scoring.py:8-110 | The score lies in [0, 100] and is the clamped sum of base, bonuses and decay. The breakdown is the weighted components of the metric. The multipliers are the recent-activity bonus, the consistency bonus and the negated decay, each within its range. The trend is the history's trend, stable below 2 entries. The recommendations are those for the final score. |
| TrustScoring.FullMetricScoresHundred | semantic_metrics/trust_scoring.py:25-81 | A metric full on every component and updated this week scores exactly 100. |
| TrustScoring.NeglectedMetricScoresLow | semantic_metrics/trust_scoring.py:25-81 | A stale metric with no tests, no uses, no documentation and no owner scores below 30. |
| TrustScoring.MoreTestsNeverLowerScore | semantic_metrics/trust_scoring.py:26-81 | Raising the test count never lowers the trust score. |
| TrustScoring.MoreUsageNeverLowersScore | semantic_metrics/trust_scoring.py:28-81 | Raising the usage count never lowers the trust score. |
| TrustScoring.ScoreLabel | semantic_metrics/trust_scoring.py:309-318 | The label band is the top one exactly from 80, the second exactly in [60, 80), the third exactly in [40, 60), and the lowest exactly below 40. Each band is one of the four label texts, so below 40 the label is "Poor - Needs Significant Work". |
| TrustScoring.ScoreLabelMonotone | semantic_metrics/trust_scoring.py:309-318 | A higher score never gets a worse label band. |
| TrustScoring.BlockIndex | semantic_metrics/trust_scoring.py:292-293 | The block index lies in 0..7. The lowest score maps to 0 and the highest to 7. |
| TrustScoring.BlockIndexMonotone | semantic_metrics/trust_scoring.py:292-293 | A higher score never gets a lower block. |
| TrustScoring.GenerateSparkline | semantic_metrics/trust_scoring.py:276-296 | Fewer than 2 scores give a single dash. Otherwise there is one block character per score. Equal scores give all mid blocks. |
| TrustScoring.SparklineFollowsScores | semantic_metrics/trust_scoring.py:282-294 | The sparkline preserves the order of scores. The minimum is drawn with the bottom block and the maximum with the full block. |
| Store.CreateMetric | semantic_metrics/database.py:112-142 | Creation succeeds exactly for a new id and stores the record under it. Otherwise nothing changes. Other rows are untouched and every row stays under its own key. A NULL in a `NOT NULL` column is not represented (see "Left out"). |
| Store.GetMetric | semantic_metrics/database.py:144-152 | A read finds a metric exactly when one is stored under the id, and returns that row. |
| Store.CreateThenGet | semantic_metrics/database.py:112-152 | A created metric reads back as written. A failed create leaves reads unchanged. Creation succeeds exactly when the read would have found nothing. |
| Store.Apply | semantic_metrics/database.py:190-196 | One SET clause gives its column the new value and leaves every other column alone. |
| Store.ApplyAll | semantic_metrics/database.py:186-205 | Every updated column holds its new value. Every column not mentioned keeps its old one. |
| Store.ChangeLog | semantic_metrics/database.py:170-184 | The log holds exactly one entry per update whose value differs, carrying old value, new value and author. Nothing else is logged, and no field is logged twice. |
| Store.UpdateMetric | semantic_metrics/database.py:162-208 | It fails exactly for an unknown id, and then changes nothing. Otherwise updated fields take their new values and untouched fields keep theirs. `updated_at` becomes the clock. Other metrics and tables are untouched, and the change log is appended. |
| Store.EmptyUpdateOnlyTouchesClock | semantic_metrics/database.py:198-205 | An empty update logs nothing and changes only `updated_at`. |
| Store.UpdateThenHistory | semantic_metrics/database.py:170-184 | After an update that changes something, the newest history row read back is one of its entries, with its author and time. |
| Store.UpdateKeepsChronology | semantic_metrics/database.py:170-184 | An update stamped with the current clock keeps the change log in time order. |
| Store.DeleteMetric | semantic_metrics/database.py:210-224 | Delete reports whether the metric existed. It removes the metric and all of its test, usage and history rows. It keeps snapshots and every other metric's rows. |
| Store.DeleteKeepsOtherMetrics | semantic_metrics/database.py:210-224 | Deleting one metric leaves every other metric's history (same rows, same order), test count and usage count as they were. |
| Store.CreateDeleteRoundTrip | semantic_metrics/database.py:210-224 | Creating then deleting a metric restores the table. |
| Store.AddValidationTest | semantic_metrics/database.py:239-257 | It appends one pending row with the next key and returns that key. It resets the metric's `test_count` to its row count, and touches nothing else. |
| Store.AddTestCountsOneMore | semantic_metrics/database.py:249-254 | Each added test raises the row count, and so `test_count`, by exactly one. |
| Store.RecordUsage | semantic_metrics/database.py:259-275 | It appends one usage row and resets `usage_count` to the row count. It touches nothing else. |
| Store.RecordUsageCountsOneMore | semantic_metrics/database.py:268-273 | Each recorded use raises `usage_count` by exactly one row. |
| Store.GetMetricHistory | semantic_metrics/database.py:277-288 | It returns only this metric's entries. There are `limit` of them, or all when fewer exist or the limit is negative. The i-th row returned is the metric's i-th most recently logged entry. |
| Store.HistoryKeepsNewest | semantic_metrics/database.py:281-286 | On a chronological log, the rows a limit leaves out are never newer than any row returned. |
| Store.HistoryNewestFirst | semantic_metrics/database.py:281-285 | On a chronological log the history reads newest first. |
| Store.RecordTrustScore | semantic_metrics/database.py:330-336 | It appends one snapshot and changes nothing else. |
| Store.GetTrustScoreHistory | semantic_metrics/database.py:338-356 | It returns exactly this metric's snapshots from the cutoff on, each as often as it was recorded, the most recently recorded first. |
| Store.ScoreHistoryNewestFirst | semantic_metrics/database.py:343-347 | Snapshots recorded by a clock that never ran backwards read back in descending time order. |
| Store.RecordThenScoreHistory | semantic_metrics/database.py:330-347 | A snapshot just recorded is the first the history query returns. |
| Store.MatchesIsSubstringSearch | semantic_metrics/database.py:229-233 | For a query without wildcards, `LIKE '%q%'` on name or description is a case-insensitive substring test. |
| Sql.LikeIsContainsIgnoringCase | semantic_metrics/database.py:229-233 | A wildcard-free `%q%` pattern matches exactly the strings containing q, ignoring ASCII case. |
| Store.Select | semantic_metrics/database.py:297-310 | A scan returns each matching row exactly once and nothing else. |
| Store.SortByRank | semantic_metrics/database.py:234 | The result is a permutation of its input, ordered by usage count, then trust score, both descending. |
| Store.SearchMetrics | semantic_metrics/database.py:226-237 | It returns exactly the matching metrics, each once, ranked by usage then trust. |
| Store.GetMetricsByOwner | semantic_metrics/database.py:290-295 | It returns exactly the metrics with that owner, each once. |
| Store.GetMetricsByTag | semantic_metrics/database.py:297-310 | It returns exactly the metrics whose tag list contains the tag, each once. |
| Server.LegacyFreshness | semantic_metrics/server.py:606-620 | Freshness is 20 exactly on the day of the update and never below 5. It is 5 exactly beyond 90 days. |
| Server.LegacyFreshnessNeverRises | semantic_metrics/server.py:606-620 | From the day of the update on, freshness only falls. |
| Server.LegacyUsage | semantic_metrics/server.py:636-648 | Usage is one of 0/5/10/15/20. It is 20 exactly from 20 uses and 0 exactly below 1. |
| Server.LegacyUsageMoreGenerous | semantic_metrics/server.py:636-648 | The server's usage points are never below the weighted engine's for the same count. |
| Server.LegacyDocumentation | semantic_metrics/server.py:651-660 | Documentation is a multiple of 5 up to 20. Any description gives at least 10. The score is 20 exactly with description, data source and tags, and 0 exactly with none of them. |
| Server.LegacyTrustScore | semantic_metrics/server.py:595-603 | The integer score lies in [5, 100]. It is 100 exactly when every component is full. |
| Server.MetricId | semantic_metrics/server.py:59 | The id has the name's length. Each character is the name's character lower-cased, or `_` where the name has a space. No spaces or upper-case letters remain. |
| Server.MetricIdIdempotent | semantic_metrics/server.py:59 | Deriving an id from an id changes nothing. |
| Server.MetricIdIgnoresCase | semantic_metrics/server.py:59 | Names differing only in case share an id. |
| Server.ParseTags | semantic_metrics/server.py:74 | An empty string gives no tags. Otherwise the i-th tag is the i-th comma-separated piece with surrounding whitespace cut off, so one tag per piece, none with a comma. |
| Server.ParseTagsRoundTrip | semantic_metrics/server.py:74 | Tags written without whitespace come back intact: joining the parsed tags with commas gives the input. |
| Server.DefineMetric | semantic_metrics/server.py:56-86 | It rejects a missing name, description or calculation, and a taken id, leaving the store unchanged. Otherwise it adds exactly one metric under the derived id, with zero counts and a defaulted owner. |
| Server.DefineKeepsKeyed | semantic_metrics/server.py:59-89 | Every metric stays filed under its own id, and a catalogue whose ids are all derived from the names keeps that property. |
| Server.DefineTwiceRejectsSecond | semantic_metrics/server.py:62-63 | Defining the same name again is rejected and changes nothing. |
| Server.NewMetricScore | semantic_metrics/server.py:69-86 | A freshly defined metric scores between 30 and 55, so always below 70. |
| Server.CycleWitness | semantic_metrics/server.py:819-834 | A detected cycle has a walk along stored dependencies that revisits a metric. |
| Server.WalkFindsCycle | semantic_metrics/server.py:819-834 | Every such revisiting walk is detected. |
| Server.HasCircularDependency | semantic_metrics/server.py:819-834 | Only a stored metric can report a cycle, and a metric listing itself as a dependency always does. |
| Server.CircularIffRevisitingWalk | semantic_metrics/server.py:819-834 | The detector answers true exactly when some walk from the metric along stored dependencies comes back onto itself. |
| Server.DottedNameIsNeverMissing | semantic_metrics/server.py:814-816 | A dependency with a dot in its name is taken for a table and never reported missing, whether or not it is stored. |
| Server.DependencyIssues | semantic_metrics/server.py:372-374 | A dependency is reported exactly when it is neither a stored metric nor a dotted table name. |
| Server.Issues | semantic_metrics/server.py:371-378 | Issues are the missing dependencies plus a circular-dependency issue exactly when a cycle exists. |
| Server.RecordTest | semantic_metrics/server.py:388-391 | A test description raises the test count by exactly one and refreshes `updated_at`. Without one, nothing changes. |
| Server.ValidateMetricAsWritten | semantic_metrics/server.py:355-395 | As written, the reported old and new scores are always equal. |
| Server.ValidateMetric | semantic_metrics/server.py:339-431 | An unknown metric is reported and nothing changes. Otherwise only this metric's test count (by one, iff a test is described) and update time change. The score before is taken before the test, and the score never falls. A circular-dependency issue, a missing-dependency issue, the no-SELECT warning, the owner warning and the data-source warning each appear exactly when they apply. |
| Server.FirstTestGainIsReported | semantic_metrics/server.py:388-395 | On a first test both versions leave the same catalogue. The written one reports no change, the corrected one a gain of at least 15. |
| Server.Gaps | semantic_metrics/server.py:766-780 | Each of the five gap suggestions is present exactly when its gap exists, and there are at most five of them. |
| Server.GenerateRecommendations | semantic_metrics/server.py:762-784 | The list is never empty and has at most 5 entries. Each suggestion appears exactly under its rule. "Keep updated" only ever appears alone. |
| Server.OnlyKeepUpdatedMeansHealthy | semantic_metrics/server.py:762-784 | When only "keep updated" is suggested, an owned metric scores at least 50. |
| Server.FindSimilarMetrics | semantic_metrics/server.py:787-796 | It returns exactly min(5, number of matches) names, each a stored metric's name containing the query, ignoring case. When at most five metrics match, every matching name is returned. In a catalogue whose ids are derived from the names, no name is returned twice. |
| Server.Jaccard | semantic_metrics/server.py:842-852 | The overlap ratio lies in [0, 1]. |
| Server.CalculateSimilarity | semantic_metrics/server.py:837-859 | Similarity lies in [0, 1]. |
| Server.SimilaritySymmetric | semantic_metrics/server.py:837-859 | Similarity does not depend on argument order. |
| Server.FullyDescribedMetricMatchesItself | semantic_metrics/server.py:837-859 | A metric with description words, tags and a data source has similarity 1 with itself. |
| Exporters.DistinctCountIsACount | semantic_metrics/exporters.py:21-24 | A calculation with `COUNT(DISTINCT` also contains `COUNT(`. |
| Exporters.DetermineLookerType | semantic_metrics/exporters.py:16-30 | SUM wins over everything. AVG/AVERAGE apply exactly without SUM. A distinct count applies exactly without SUM/AVG and is never a plain count. The result is "number" exactly when no aggregate occurs. |
| Exporters.DetermineTableauDatatype | semantic_metrics/exporters.py:100-108 | The type is integer exactly when COUNT occurs, and string exactly when no aggregate occurs. |
| Exporters.ClassifiersAgree | semantic_metrics/exporters.py:6-108 | Looker's "number" coincides with Tableau's "string". Looker counts are Tableau integers. Other Looker aggregates are Tableau numbers. |
| Exporters.ClassifiersIgnoreCase | semantic_metrics/exporters.py:16 | Lower- or upper-casing the calculation changes neither classification. |

## Left out

- MCP tool registration, report and emoji string assembly, the prompt text and `main()`. This is presentation and process wiring.
- SQLite mechanics, which are not modelled: connections, DDL, indexes, JSON (de)serialisation and `_row_to_dict`. The tables are a map and sequences instead. The stray text at the top of `database.py` is ignored.
- The undefined `self.cursor` in `record_trust_score` and `get_trust_score_history`. Both are modelled as evidently intended, on the method's own cursor.
- `get_all_metrics`. It is the metric map itself.
- `get_usage_stats`. It depends on a day-arithmetic cutoff that breaks across month boundaries.
- Store.GetTrustScoreHistory: takes an absolute cutoff time instead of the source's `replace(day=...)` arithmetic on a day count. The model does not claim that the arithmetic is correct.
- Clock reads. Every `datetime.now()` call is one `now` parameter per operation. The source reads the clock separately for each row and column, microseconds apart.
- TrustScoring.CalculateTrustScoreEnhanced: exact reals without the `round(x, 1)` of the returned dictionary.
- Floating-point rounding in the weights, decay, similarity and sparkline normalisation.
- Store.UpdateMetric: takes typed column assignments, so an unknown key cannot be written. It logs an old value only for a column that exists. The source would fail with an SQL error on such a key. Updating the `id` column is not modelled. Values are compared as typed values rather than as the strings written to the log.
- Store.SearchMetrics: the order among rows with equal usage count and trust score is left open, as in SQLite. The same holds for row order in Store.GetMetricsByOwner and Store.GetMetricsByTag.
- Store.HistoryNewestFirst: holds only for a log written in clock order. A clock that runs backwards is not modelled.
- Server.FindSimilarMetrics: which five names are returned depends on the store's iteration order, which is left open. Two metrics under different ids may share a name, and the source then returns it twice. No-duplicates is promised only for a catalogue whose ids are derived from the names, as `define_metric` files them.
- Server.DefineMetric: takes the dependencies as a parameter. `_extract_dependencies` is a regular expression and is not modelled. Neither are the `LINEAGE_GRAPH` update and the `documentation_complete` flag, which no modelled rule reads.
- The lower-casing, upper-casing and whitespace tests are ASCII only. Unicode case mapping is not modelled.
- The server's score emoji, check marks, relative-time formatting, per-component recommendation strings and dependency tree. These are output formatting.
- `convert_to_looker_sql`, `convert_to_tableau_formula` and the LookML, TDS and DAX templates. These are regular-expression rewriting and output formatting.
- `get_score_emoji`, the top-level emoji helper next to `get_score_label`. It is output formatting. Its bands are the label's first two bounds.
- TrustScoring.GetRecommendations: lists the description as missing up to 20 characters, not below 20 as written. This is the corrected threshold of the second finding below.
- TrustScoring.DocumentationAdvice: follows the corrected description threshold, as TrustScoring.GetRecommendations does.
- TrustScoring.CalculateTrustScoreEnhanced: its recommendations follow the corrected description threshold.
- Store.CreateMetric: a NULL name or calculation is the empty string, which the `NOT NULL` constraints accept. In the source, `None` in `name`, `calculation`, `created_at` or `updated_at` raises an integrity error and `create_metric` returns False for a new id too. The model's timestamps are always present, and it claims success for every new id.
- Store.UpdateMetric: a NULL column and an empty string are one value, so a change from NULL to "" is not logged. The source compares `None != ""` and logs one.
- Store.GetMetricsByOwner: an empty owner matches metrics whose owner is empty. In SQLite, `owner = ''` never matches a NULL owner.
- Store.SearchMetrics: orders by an integer trust score. The `trust_score` column has INTEGER affinity but can hold a REAL, and the model does not represent that.

## Findings

| source | as written | input that shows it | evidently intended | confidence | as-written member | corrected member |
|---|---|---|---|---|---|---|
| semantic_metrics/server.py:389-395 | `old_trust` is computed after `test_count` was incremented and `updated_at` refreshed, so the report shows the same score before and after | a stored metric with `test_count` 0 and any non-empty `test_description`: the score rises by 15, but the report shows no change | compute `old_trust` before recording the test | high; not executed | Server.ValidateMetricAsWritten, Server.FirstTestGainIsReported | Server.ValidateMetric |
| semantic_metrics/trust_scoring.py:164, 258 | credit needs a description longer than 20 characters, but "detailed description" is listed as missing only below 20 | a 20-character description with a data source, one tag and no dependencies: documentation weighs 7.5 < 10, yet no documentation advice is given | list the description as missing whenever it earns no credit (length at most 20) | medium; not executed | TrustScoring.MissingDocsAsWritten, TrustScoring.TwentyCharacterDescriptionFallsThrough | TrustScoring.MissingDocs, TrustScoring.LowDocumentationAlwaysNamesAGap, TrustScoring.GetRecommendations |
