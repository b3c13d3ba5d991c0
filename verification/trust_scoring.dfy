/**
 * The weighted trust-scoring engine: five step-function components, their
 * weights, two activity bonuses, a staleness decay, one final clamp to
 * [0, 100], a trend classifier over the change history, the recommendation
 * list, the score label and the ASCII sparkline. Days are whole days as
 * Python's `timedelta.days` reports them; the clock reading is a parameter.
 */
module TrustScoring {
  import opened Model
  import opened Seqs

  // ---------------------------------------------------------------------
  // Components, in raw points

  /** `check_freshness`: 20/15/10/5/0 points by days since the last update. */
  function CheckFreshness(daysOld: int): (r: int)
    ensures 0 <= r <= 20
    ensures r == 20 <==> daysOld <= 7
    ensures r == 0 <==> daysOld > 180
  {
    if daysOld <= 7 then 20
    else if daysOld <= 30 then 15
    else if daysOld <= 90 then 10
    else if daysOld <= 180 then 5
    else 0
  }

  /** Freshness never rises as a metric ages. */
  lemma FreshnessNeverRises(a: int, b: int)
    requires a <= b
    ensures CheckFreshness(b) <= CheckFreshness(a)
  {
  }

  /** `check_test_coverage`: 0/15/20/25 points at 1, 3 and 5 tests. */
  function CheckTestCoverage(testCount: int): (r: int)
    ensures r == 0 || r == 15 || r == 20 || r == 25
    ensures r == 25 <==> testCount >= 5
    ensures r == 0 <==> testCount < 1
  {
    if testCount >= 5 then 25
    else if testCount >= 3 then 20
    else if testCount >= 1 then 15
    else 0
  }

  lemma TestCoverageNeverFalls(a: int, b: int)
    requires a <= b
    ensures CheckTestCoverage(a) <= CheckTestCoverage(b)
  {
  }

  /** `check_usage`: 0/5/10/15/20 points at 1, 10, 20 and 50 uses. */
  function CheckUsage(usageCount: int): (r: int)
    ensures r == 0 || r == 5 || r == 10 || r == 15 || r == 20
    ensures r == 20 <==> usageCount >= 50
    ensures r == 0 <==> usageCount < 1
  {
    if usageCount >= 50 then 20
    else if usageCount >= 20 then 15
    else if usageCount >= 10 then 10
    else if usageCount >= 1 then 5
    else 0
  }

  lemma UsageNeverFalls(a: int, b: int)
    requires a <= b
    ensures CheckUsage(a) <= CheckUsage(b)
  {
  }

  function Bool5(b: bool): int { if b then 5 else 0 }

  /**
   * `check_documentation`: 5 points each for a description longer than 20
   * characters, a data source, at least one tag and at least one dependency.
   */
  function CheckDocumentation(m: Metric): (r: int)
    ensures r == 0 || r == 5 || r == 10 || r == 15 || r == 20
    ensures r == 20 <==> |m.description| > 20 && m.dataSource != "" && |m.tags| > 0 && |m.dependencies| > 0
    ensures r == 0 <==> |m.description| <= 20 && m.dataSource == "" && |m.tags| == 0 && |m.dependencies| == 0
  {
    Bool5(|m.description| > 20) + Bool5(m.dataSource != "") + Bool5(|m.tags| > 0) + Bool5(|m.dependencies| > 0)
  }

  /** `check_ownership`: 15 points for a real owner, 0 for none or "Unassigned". */
  function CheckOwnership(owner: string): (r: int)
    ensures r == 0 || r == 15
    ensures r == 15 <==> owner != "" && owner != "Unassigned"
  {
    if owner != "" && owner != "Unassigned" then 15 else 0
  }

  // ---------------------------------------------------------------------
  // Weighted base score

  /** The weighted components, as the score report's `breakdown` holds them before rounding. */
  datatype Breakdown = Breakdown(freshness: real, tests: real, usage: real, documentation: real, ownership: real)

  /** Weights 15/20, 35/25, 1, 15/20 and 1 put the components on a 15/35/20/15/15 scale. */
  function WeightedBreakdown(m: Metric, daysSinceUpdate: int): (b: Breakdown)
    ensures 0.0 <= b.freshness <= 15.0 && 0.0 <= b.tests <= 35.0 && 0.0 <= b.usage <= 20.0
    ensures 0.0 <= b.documentation <= 15.0 && 0.0 <= b.ownership <= 15.0
  {
    Breakdown(
      CheckFreshness(daysSinceUpdate) as real * (15.0 / 20.0),
      CheckTestCoverage(m.testCount) as real * (35.0 / 25.0),
      CheckUsage(m.usageCount) as real * 1.0,
      CheckDocumentation(m) as real * (15.0 / 20.0),
      CheckOwnership(m.owner) as real * 1.0)
  }

  function Total(b: Breakdown): real {
    b.freshness + b.tests + b.usage + b.documentation + b.ownership
  }

  predicate AllComponentsAtMaximum(m: Metric, daysSinceUpdate: int) {
    daysSinceUpdate <= 7 && m.testCount >= 5 && m.usageCount >= 50
    && CheckDocumentation(m) == 20 && CheckOwnership(m.owner) == 15
  }

  /** The weights add up to exactly 100: the base score lies in [0, 100] and is 100 exactly when every component is full. */
  function BaseScore(m: Metric, daysSinceUpdate: int): (r: real)
    ensures 0.0 <= r <= 100.0
    ensures r == 100.0 <==> AllComponentsAtMaximum(m, daysSinceUpdate)
  {
    Total(WeightedBreakdown(m, daysSinceUpdate))
  }

  // ---------------------------------------------------------------------
  // Adjustments

  /** The recent-activity bonus: 10 within a week, 5 within a month; never both. */
  function RecentActivityBonus(daysSinceUpdate: int): (r: int)
    ensures r == 0 || r == 5 || r == 10
    ensures r == 10 <==> daysSinceUpdate <= 7
    ensures r == 5 <==> 7 < daysSinceUpdate <= 30
  {
    if daysSinceUpdate <= 7 then 10 else if daysSinceUpdate <= 30 then 5 else 0
  }

  /** Consecutive entries of a newest-first history are at most 30 days apart. */
  predicate UpdatedMonthly(window: seq<HistoryEntry>) {
    forall i :: 0 <= i < |window| - 1 ==> DaysBetween(window[i].changedAt, window[i + 1].changedAt) <= 30
  }

  function Newest(history: seq<HistoryEntry>, n: nat): seq<HistoryEntry> {
    if |history| <= n then history else history[..n]
  }

  /** The consistency bonus: 5 when at least 5 changes exist and the 10 newest came at most a month apart. */
  function ConsistencyBonus(history: seq<HistoryEntry>): (r: int)
    ensures r == 0 || r == 5
    ensures r == 5 <==> |history| >= 5 && UpdatedMonthly(Newest(history, 10))
  {
    if |history| >= 5 then
      var window := Newest(history, 10);
      if |window| > 1 && UpdatedMonthly(window) then 5 else 0
    else 0
  }

  /** Only the ten newest history entries can affect the consistency bonus. */
  lemma ConsistencyReadsTenNewest(history: seq<HistoryEntry>, older: seq<HistoryEntry>)
    requires |history| >= 10
    ensures ConsistencyBonus(history + older) == ConsistencyBonus(history)
  {
    assert Newest(history + older, 10) == Newest(history, 10);
  }

  function MinReal(a: real, b: real): real { if a <= b then a else b }

  /** The staleness decay: only when created over 90 days ago and untouched for over 30; 5 points a month, at most 25. */
  function TimeDecay(daysSinceCreation: int, daysSinceUpdate: int): (r: real)
    ensures r != 0.0 <==> daysSinceCreation > 90 && daysSinceUpdate > 30
    ensures 0.0 <= r <= 25.0
    ensures r != 0.0 ==> r > 5.0
  {
    if daysSinceCreation > 90 && daysSinceUpdate > 30 then
      MinReal(25.0, (daysSinceUpdate as real / 30.0) * 5.0)
    else 0.0
  }

  /** The decay grows with staleness and reaches its cap of 25 at 150 days. */
  lemma DecayGrowsWithStaleness(daysSinceCreation: int, a: int, b: int)
    requires daysSinceCreation > 90 && 30 < a <= b
    ensures TimeDecay(daysSinceCreation, a) <= TimeDecay(daysSinceCreation, b)
    ensures b >= 150 ==> TimeDecay(daysSinceCreation, b) == 25.0
  {
  }

  /** `max(0, min(100, x))`. */
  function Clamp(x: real): (r: real)
    ensures 0.0 <= r <= 100.0
    ensures 0.0 <= x <= 100.0 ==> r == x
    ensures x < 0.0 ==> r == 0.0
    ensures x > 100.0 ==> r == 100.0
  {
    if x < 0.0 then 0.0 else if x > 100.0 then 100.0 else x
  }

  lemma ClampMonotone(a: real, b: real)
    requires a <= b
    ensures Clamp(a) <= Clamp(b)
  {
  }

  // ---------------------------------------------------------------------
  // Trend

  datatype Trend = Improving | Stable | Degrading

  /** The arrow the report shows. */
  function Arrow(t: Trend): string {
    match t
    case Improving => "\U{2197}\U{FE0F}"
    case Stable => "\U{2192}"
    case Degrading => "\U{2198}\U{FE0F}"
  }

  function RecentTo(now: Timestamp): HistoryEntry -> bool {
    (e: HistoryEntry) => DaysBetween(now, e.changedAt) <= 30
  }

  function OlderTo(now: Timestamp): HistoryEntry -> bool {
    (e: HistoryEntry) => 30 < DaysBetween(now, e.changedAt) <= 60
  }

  /** Changes made within the last 30 days. */
  function RecentChanges(history: seq<HistoryEntry>, now: Timestamp): nat {
    |Filter(history, RecentTo(now))|
  }

  /** Changes made 31 to 60 days ago. */
  function OlderChanges(history: seq<HistoryEntry>, now: Timestamp): nat {
    |Filter(history, OlderTo(now))|
  }

  /**
   * `calculate_trend`: improving when the last month saw more than two
   * changes more than the month before, degrading when it saw more than two
   * fewer, stable otherwise and whenever there are fewer than two entries.
   */
  function CalculateTrend(history: seq<HistoryEntry>, now: Timestamp): (t: Trend)
    ensures |history| < 2 ==> t == Stable
    ensures t == Improving <==> |history| >= 2 && RecentChanges(history, now) > OlderChanges(history, now) + 2
    ensures t == Degrading <==> |history| >= 2 && RecentChanges(history, now) + 2 < OlderChanges(history, now)
    ensures t == Improving ==> RecentChanges(history, now) >= 3
    ensures t == Degrading ==> OlderChanges(history, now) >= 3
  {
    if |history| < 2 then Stable
    else
      var recent := RecentChanges(history, now);
      var older := OlderChanges(history, now);
      if recent > older + 2 then Improving
      else if recent < older - 2 then Degrading
      else Stable
  }

  function TrendRank(t: Trend): int {
    match t
    case Degrading => 0
    case Stable => 1
    case Improving => 2
  }

  /** Recording a change now never makes the trend worse. */
  lemma {:induction false} FreshChangeNeverWorsensTrend(history: seq<HistoryEntry>, e: HistoryEntry, now: Timestamp)
    requires e.changedAt == now
    ensures TrendRank(CalculateTrend(history, now)) <= TrendRank(CalculateTrend([e] + history, now))
  {
    FilterAppend([e], history, RecentTo(now));
    FilterAppend([e], history, OlderTo(now));
    assert Filter([e], RecentTo(now)) == [e];
    assert Filter([e], OlderTo(now)) == [];
    assert RecentChanges([e] + history, now) == RecentChanges(history, now) + 1;
    assert OlderChanges([e] + history, now) == OlderChanges(history, now);
    if |history| < 2 {
      assert OlderChanges(history, now) <= |history|;
    }
  }

  /** Five changes ten days apart, the newest today, read as improving: four fall in the last 30 days, one in the month before. */
  lemma {:induction false} EvenlySpacedHistoryImproves(history: seq<HistoryEntry>, now: Timestamp)
    requires |history| == 5
    requires forall i :: 0 <= i < 5 ==> history[i].changedAt == now - i * 10 * MicrosPerDay
    ensures CalculateTrend(history, now) == Improving
  {
    forall i | 0 <= i < 5
      ensures DaysBetween(now, history[i].changedAt) == i * 10
    {
      assert now - history[i].changedAt == (i * 10) * MicrosPerDay;
    }
    assert Filter(history, RecentTo(now)) == history[..4] by {
      assert history == history[..4] + [history[4]];
      FilterAppend(history[..4], [history[4]], RecentTo(now));
      FilterAll(history[..4], RecentTo(now));
    }
    assert Filter(history, OlderTo(now)) == [history[4]] by {
      assert history == history[..4] + [history[4]];
      FilterAppend(history[..4], [history[4]], OlderTo(now));
      FilterNone(history[..4], OlderTo(now));
    }
  }

  // ---------------------------------------------------------------------
  // Recommendations

  datatype DocGap = DataSourceMissing | TagsMissing | DetailedDescriptionMissing

  datatype Advice =
    | ProductionReady
    | ActionRequired
    | AddFirstTests
    | AddMoreTests
    | PromoteNewMetric
    | MakeDiscoverable
    | ReviewStaleMetric
    | ConsiderReviewing
    | ImproveDocumentation(missing: seq<DocGap>)
    | AssignOwner

  /** The gaps listed by the documentation advice as the source writes it: a description counts as missing below 20 characters. */
  function MissingDocsAsWritten(m: Metric): (r: seq<DocGap>)
    ensures DetailedDescriptionMissing in r <==> |m.description| < 20
    ensures DataSourceMissing in r <==> m.dataSource == ""
    ensures TagsMissing in r <==> |m.tags| == 0
  {
    (if m.dataSource == "" then [DataSourceMissing] else [])
    + (if |m.tags| == 0 then [TagsMissing] else [])
    + (if |m.description| < 20 then [DetailedDescriptionMissing] else [])
  }

  /**
   * A metric whose documentation score is below 10 but whose advice lists no
   * gap: a description of exactly 20 characters earns no documentation
   * points and is not reported as missing either.
   */
  lemma TwentyCharacterDescriptionFallsThrough()
    ensures var m := Metric("m", "M", "twenty characters!!!", "SUM(x)", "@team", "sales", ["t"], [], 0, 0, 0, 0, 0);
      |m.description| == 20
      && WeightedBreakdown(m, 0).documentation < 10.0
      && MissingDocsAsWritten(m) == []
  {
    var m := Metric("m", "M", "twenty characters!!!", "SUM(x)", "@team", "sales", ["t"], [], 0, 0, 0, 0, 0);
    assert |m.description| == 20;
    assert CheckDocumentation(m) == 10;
  }

  /** The gaps listed by the documentation advice, with the description threshold matching `check_documentation`. */
  function MissingDocs(m: Metric): (r: seq<DocGap>)
    ensures DetailedDescriptionMissing in r <==> |m.description| <= 20
    ensures DataSourceMissing in r <==> m.dataSource == ""
    ensures TagsMissing in r <==> |m.tags| == 0
  {
    (if m.dataSource == "" then [DataSourceMissing] else [])
    + (if |m.tags| == 0 then [TagsMissing] else [])
    + (if |m.description| <= 20 then [DetailedDescriptionMissing] else [])
  }

  /**
   * Each gap the corrected list names is one documentation criterion without
   * credit: the documentation points plus 5 per listed gap make 15, plus 5
   * when dependencies are recorded (a criterion the list never names).
   */
  lemma MissingDocsAccountsForCredit(m: Metric)
    ensures CheckDocumentation(m) + 5 * |MissingDocs(m)| == 15 + (if |m.dependencies| > 0 then 5 else 0)
  {
  }

  /** With the corrected threshold every documentation score below 10 names at least one gap. */
  lemma LowDocumentationAlwaysNamesAGap(m: Metric, daysSinceUpdate: int)
    requires WeightedBreakdown(m, daysSinceUpdate).documentation < 10.0
    ensures MissingDocs(m) != []
  {
    assert CheckDocumentation(m) <= 10;
  }

  /** Advice on tests: only while the weighted test score is below 15. */
  function TestAdvice(m: Metric, b: Breakdown): (r: seq<Advice>)
    ensures forall a :: a in r <==> b.tests < 15.0 && a == (if m.testCount == 0 then AddFirstTests else AddMoreTests)
  {
    if b.tests < 15.0 then (if m.testCount == 0 then [AddFirstTests] else [AddMoreTests]) else []
  }

  /** Advice on adoption: only while the usage score is below 10. */
  function UsageAdvice(m: Metric, b: Breakdown): (r: seq<Advice>)
    ensures forall a :: a in r <==> b.usage < 10.0 && a == (if m.usageCount == 0 then PromoteNewMetric else MakeDiscoverable)
  {
    if b.usage < 10.0 then (if m.usageCount == 0 then [PromoteNewMetric] else [MakeDiscoverable]) else []
  }

  /** Advice on staleness: a review after 90 days, a suggestion after 30. */
  function FreshnessAdvice(daysSinceUpdate: int): (r: seq<Advice>)
    ensures forall a :: a in r <==>
      (daysSinceUpdate > 90 && a == ReviewStaleMetric) || (30 < daysSinceUpdate <= 90 && a == ConsiderReviewing)
  {
    if daysSinceUpdate > 90 then [ReviewStaleMetric] else if daysSinceUpdate > 30 then [ConsiderReviewing] else []
  }

  /** Advice on documentation: only below 10 points, and only when some gap can be named. */
  function DocumentationAdvice(m: Metric, b: Breakdown): (r: seq<Advice>)
    ensures forall a :: a in r <==> b.documentation < 10.0 && MissingDocs(m) != [] && a == ImproveDocumentation(MissingDocs(m))
  {
    if b.documentation < 10.0 && MissingDocs(m) != [] then [ImproveDocumentation(MissingDocs(m))] else []
  }

  function OwnerAdvice(b: Breakdown): (r: seq<Advice>)
    ensures forall a :: a in r <==> b.ownership < 10.0 && a == AssignOwner
  {
    if b.ownership < 10.0 then [AssignOwner] else []
  }

  /** The advice that follows the overall verdict, in the source's order. */
  function ComponentAdvice(m: Metric, b: Breakdown, daysSinceUpdate: int): (r: seq<Advice>)
    ensures forall a :: a in r <==>
      a in TestAdvice(m, b) || a in UsageAdvice(m, b) || a in FreshnessAdvice(daysSinceUpdate)
      || a in DocumentationAdvice(m, b) || a in OwnerAdvice(b)
    ensures ProductionReady !in r && ActionRequired !in r
  {
    TestAdvice(m, b) + UsageAdvice(m, b) + FreshnessAdvice(daysSinceUpdate) + DocumentationAdvice(m, b) + OwnerAdvice(b)
  }

  /** `get_recommendations`: the verdict for high or low scores first, then the component advice. */
  function GetRecommendations(finalScore: real, m: Metric, b: Breakdown, daysSinceUpdate: int): (r: seq<Advice>)
    ensures ProductionReady in r <==> finalScore >= 80.0
    ensures ActionRequired in r <==> finalScore < 50.0
    ensures finalScore >= 80.0 ==> r[0] == ProductionReady
    ensures finalScore < 50.0 ==> r[0] == ActionRequired
    ensures forall a :: a !in [ProductionReady, ActionRequired] ==> (a in r <==> a in ComponentAdvice(m, b, daysSinceUpdate))
  {
    var body := ComponentAdvice(m, b, daysSinceUpdate);
    if finalScore >= 80.0 then [ProductionReady] + body
    else if finalScore < 50.0 then [ActionRequired] + body
    else body
  }

  /**
   * Each piece of component advice appears exactly under its own condition,
   * whatever the overall verdict.
   */
  lemma AdviceConditions(finalScore: real, m: Metric, b: Breakdown, daysSinceUpdate: int)
    ensures var r := GetRecommendations(finalScore, m, b, daysSinceUpdate);
      (AddFirstTests in r <==> b.tests < 15.0 && m.testCount == 0)
      && (AddMoreTests in r <==> b.tests < 15.0 && m.testCount != 0)
      && (PromoteNewMetric in r <==> b.usage < 10.0 && m.usageCount == 0)
      && (MakeDiscoverable in r <==> b.usage < 10.0 && m.usageCount != 0)
      && (ReviewStaleMetric in r <==> daysSinceUpdate > 90)
      && (ConsiderReviewing in r <==> 30 < daysSinceUpdate <= 90)
      && (AssignOwner in r <==> b.ownership < 10.0)
      && (ImproveDocumentation(MissingDocs(m)) in r <==> b.documentation < 10.0 && MissingDocs(m) != [])
  {
    AdviceFromComponents(finalScore, m, b, daysSinceUpdate, AddFirstTests);
    AdviceFromComponents(finalScore, m, b, daysSinceUpdate, AddMoreTests);
    AdviceFromComponents(finalScore, m, b, daysSinceUpdate, PromoteNewMetric);
    AdviceFromComponents(finalScore, m, b, daysSinceUpdate, MakeDiscoverable);
    AdviceFromComponents(finalScore, m, b, daysSinceUpdate, ReviewStaleMetric);
    AdviceFromComponents(finalScore, m, b, daysSinceUpdate, ConsiderReviewing);
    AdviceFromComponents(finalScore, m, b, daysSinceUpdate, AssignOwner);
    AdviceFromComponents(finalScore, m, b, daysSinceUpdate, ImproveDocumentation(MissingDocs(m)));
  }

  /** Any advice other than the verdicts is in the list exactly when one of the component rules gives it. */
  lemma AdviceFromComponents(finalScore: real, m: Metric, b: Breakdown, daysSinceUpdate: int, a: Advice)
    requires a != ProductionReady && a != ActionRequired
    ensures a in GetRecommendations(finalScore, m, b, daysSinceUpdate) <==>
      a in TestAdvice(m, b) || a in UsageAdvice(m, b) || a in FreshnessAdvice(daysSinceUpdate)
      || a in DocumentationAdvice(m, b) || a in OwnerAdvice(b)
  {
    assert a !in [ProductionReady, ActionRequired];
  }

  /**
   * Read against the metric itself: test advice appears only for a metric
   * without tests (the "add more tests" branch needs a negative count), usage
   * advice below 10 uses, and owner advice exactly when there is no real owner.
   */
  lemma AdviceForMetric(finalScore: real, m: Metric, daysSinceUpdate: int)
    ensures var r := GetRecommendations(finalScore, m, WeightedBreakdown(m, daysSinceUpdate), daysSinceUpdate);
      (AddFirstTests in r <==> m.testCount == 0)
      && (AddMoreTests in r <==> m.testCount < 0)
      && (PromoteNewMetric in r <==> m.usageCount == 0)
      && (MakeDiscoverable in r <==> m.usageCount < 10 && m.usageCount != 0)
      && (AssignOwner in r <==> CheckOwnership(m.owner) == 0)
  {
    AdviceConditions(finalScore, m, WeightedBreakdown(m, daysSinceUpdate), daysSinceUpdate);
  }

  // ---------------------------------------------------------------------
  // The enhanced score

  datatype Multipliers = Multipliers(recentActivity: int, consistency: int, timeDecay: real)

  datatype ScoreReport = ScoreReport(
    score: real,
    trend: Trend,
    breakdown: Breakdown,
    multipliers: Multipliers,
    recommendations: seq<Advice>)

  /**
   * `calculate_trust_score_enhanced`, without the rounding to one decimal:
   * weighted base, plus bonuses, minus decay, clamped once to [0, 100].
   */
  function CalculateTrustScoreEnhanced(m: Metric, history: seq<HistoryEntry>, now: Timestamp): (r: ScoreReport)
    ensures 0.0 <= r.score <= 100.0
    ensures r.multipliers.recentActivity == 0 || r.multipliers.recentActivity == 5 || r.multipliers.recentActivity == 10
    ensures r.multipliers.consistency == 0 || r.multipliers.consistency == 5
    ensures -25.0 <= r.multipliers.timeDecay <= 0.0
    ensures r.score == Clamp(Total(r.breakdown) + r.multipliers.recentActivity as real
                             + r.multipliers.consistency as real + r.multipliers.timeDecay)
    ensures |history| < 2 ==> r.trend == Stable
    ensures r.breakdown == WeightedBreakdown(m, DaysBetween(now, m.updatedAt))
    ensures r.multipliers == Multipliers(RecentActivityBonus(DaysBetween(now, m.updatedAt)), ConsistencyBonus(history),
                                         -TimeDecay(DaysBetween(now, m.createdAt), DaysBetween(now, m.updatedAt)))
    ensures r.trend == CalculateTrend(history, now)
    ensures r.recommendations == GetRecommendations(r.score, m, r.breakdown, DaysBetween(now, m.updatedAt))
  {
    var daysSinceUpdate := DaysBetween(now, m.updatedAt);
    var daysSinceCreation := DaysBetween(now, m.createdAt);
    var b := WeightedBreakdown(m, daysSinceUpdate);
    var recent := RecentActivityBonus(daysSinceUpdate);
    var consistency := ConsistencyBonus(history);
    var decay := TimeDecay(daysSinceCreation, daysSinceUpdate);
    var score := Clamp(Total(b) + recent as real + consistency as real - decay);
    var trend := if |history| > 0 then CalculateTrend(history, now) else Stable;
    ScoreReport(score, trend, b, Multipliers(recent, consistency, -decay),
                GetRecommendations(score, m, b, daysSinceUpdate))
  }

  /** A metric full on every component and updated this week scores exactly 100. */
  lemma FullMetricScoresHundred(m: Metric, history: seq<HistoryEntry>, now: Timestamp)
    requires AllComponentsAtMaximum(m, DaysBetween(now, m.updatedAt))
    ensures CalculateTrustScoreEnhanced(m, history, now).score == 100.0
  {
    assert BaseScore(m, DaysBetween(now, m.updatedAt)) == 100.0;
  }

  /**
   * A stale metric (created over 90 days ago, untouched for over 30) with no
   * tests, no uses, no documentation and no owner scores below 30.
   */
  lemma NeglectedMetricScoresLow(m: Metric, history: seq<HistoryEntry>, now: Timestamp)
    requires DaysBetween(now, m.createdAt) > 90 && DaysBetween(now, m.updatedAt) > 30
    requires m.testCount <= 0 && m.usageCount <= 0
    requires CheckDocumentation(m) == 0 && CheckOwnership(m.owner) == 0
    ensures CalculateTrustScoreEnhanced(m, history, now).score < 30.0
  {
  }

  /** Adding validation tests never lowers the trust score. */
  lemma MoreTestsNeverLowerScore(m: Metric, history: seq<HistoryEntry>, now: Timestamp, moreTests: int)
    requires m.testCount <= moreTests
    ensures CalculateTrustScoreEnhanced(m, history, now).score
            <= CalculateTrustScoreEnhanced(m.(testCount := moreTests), history, now).score
  {
    TestCoverageNeverFalls(m.testCount, moreTests);
    var d := DaysBetween(now, m.updatedAt);
    var before := Total(WeightedBreakdown(m, d));
    var after := Total(WeightedBreakdown(m.(testCount := moreTests), d));
    assert before <= after;
    var extra := RecentActivityBonus(d) as real + ConsistencyBonus(history) as real - TimeDecay(DaysBetween(now, m.createdAt), d);
    ClampMonotone(before + extra, after + extra);
  }

  /** Recording more uses never lowers the trust score. */
  lemma MoreUsageNeverLowersScore(m: Metric, history: seq<HistoryEntry>, now: Timestamp, moreUses: int)
    requires m.usageCount <= moreUses
    ensures CalculateTrustScoreEnhanced(m, history, now).score
            <= CalculateTrustScoreEnhanced(m.(usageCount := moreUses), history, now).score
  {
    UsageNeverFalls(m.usageCount, moreUses);
    var d := DaysBetween(now, m.updatedAt);
    var before := Total(WeightedBreakdown(m, d));
    var after := Total(WeightedBreakdown(m.(usageCount := moreUses), d));
    var extra := RecentActivityBonus(d) as real + ConsistencyBonus(history) as real - TimeDecay(DaysBetween(now, m.createdAt), d);
    ClampMonotone(before + extra, after + extra);
  }

  // ---------------------------------------------------------------------
  // Presentation helpers with a rule in them

  /** `get_score_label`: four bands with lower bounds 80, 60 and 40. */
  function ScoreLabel(score: real): (band: string)
    ensures LabelRank(band) == 3 <==> score >= 80.0
    ensures LabelRank(band) == 2 <==> 60.0 <= score < 80.0
    ensures LabelRank(band) == 1 <==> 40.0 <= score < 60.0
    ensures LabelRank(band) == 0 <==> score < 40.0
    ensures LabelRank(band) >= 0
  {
    if score >= 80.0 then "Excellent - Production Ready"
    else if score >= 60.0 then "Good - Minor Improvements Recommended"
    else if score >= 40.0 then "Fair - Several Issues to Address"
    else "Poor - Needs Significant Work"
  }

  /** The rank of one of the four label texts, and -1 for any other text. */
  function LabelRank(band: string): int {
    if band == "Excellent - Production Ready" then 3
    else if band == "Good - Minor Improvements Recommended" then 2
    else if band == "Fair - Several Issues to Address" then 1
    else if band == "Poor - Needs Significant Work" then 0
    else -1
  }

  /** A higher score never earns a worse label. */
  lemma ScoreLabelMonotone(a: real, b: real)
    requires a <= b
    ensures LabelRank(ScoreLabel(a)) <= LabelRank(ScoreLabel(b))
  {
  }

  /** The eight block characters, lowest first. */
  const Blocks: string := "\U{2581}\U{2582}\U{2583}\U{2584}\U{2585}\U{2586}\U{2587}\U{2588}"

  function Lowest(s: seq<real>): (r: real)
    requires |s| > 0
    ensures r in s && forall i :: 0 <= i < |s| ==> r <= s[i]
  {
    if |s| == 1 then s[0]
    else
      var rest := Lowest(s[1..]);
      if s[0] <= rest then s[0] else rest
  }

  function Highest(s: seq<real>): (r: real)
    requires |s| > 0
    ensures r in s && forall i :: 0 <= i < |s| ==> s[i] <= r
  {
    if |s| == 1 then s[0]
    else
      var rest := Highest(s[1..]);
      if s[0] >= rest then s[0] else rest
  }

  /** `min(7, int((x - lo) / (hi - lo) * 8))`: the block a score maps to. */
  function BlockIndex(x: real, lo: real, hi: real): (i: int)
    requires lo < hi && lo <= x <= hi
    ensures 0 <= i <= 7
    ensures x == lo ==> i == 0
    ensures x == hi ==> i == 7
  {
    var normalized := (x - lo) / (hi - lo);
    NormalizedInUnit(x, lo, hi);
    var k := (normalized * 8.0).Floor;
    if k < 7 then k else 7
  }

  lemma NormalizedInUnit(x: real, lo: real, hi: real)
    requires lo < hi && lo <= x <= hi
    ensures 0.0 <= (x - lo) / (hi - lo) <= 1.0
    ensures x == lo ==> (x - lo) / (hi - lo) == 0.0
    ensures x == hi ==> (x - lo) / (hi - lo) == 1.0
  {
    assert (x - lo) / (hi - lo) * (hi - lo) == x - lo;
  }

  /** A higher score never gets a lower block. */
  lemma BlockIndexMonotone(x: real, y: real, lo: real, hi: real)
    requires lo < hi && lo <= x <= y <= hi
    ensures BlockIndex(x, lo, hi) <= BlockIndex(y, lo, hi)
  {
    assert (x - lo) / (hi - lo) <= (y - lo) / (hi - lo) by {
      DivideMonotone(x - lo, y - lo, hi - lo);
    }
  }

  lemma DivideMonotone(a: real, b: real, c: real)
    requires a <= b && c > 0.0
    ensures a / c <= b / c
  {
    assert b / c - a / c == (b - a) / c;
  }

  /**
   * `generate_sparkline`: a dash for fewer than two scores, a flat line of
   * mid blocks when all scores are equal, otherwise one block per score
   * scaled between the lowest and the highest.
   */
  function GenerateSparkline(scores: seq<real>): (r: string)
    ensures |scores| < 2 ==> r == "\U{2500}"
    ensures |scores| >= 2 ==> |r| == |scores|
    ensures |scores| >= 2 ==> forall i :: 0 <= i < |r| ==> r[i] in Blocks
    ensures |scores| >= 2 && (forall i :: 0 <= i < |scores| ==> scores[i] == scores[0]) ==>
      forall i :: 0 <= i < |r| ==> r[i] == Blocks[3]
  {
    if |scores| < 2 then "\U{2500}"
    else
      var lo := Lowest(scores);
      var hi := Highest(scores);
      if hi == lo then seq(|scores|, i => Blocks[3])
      else
        seq(|scores|, i requires 0 <= i < |scores| => Blocks[BlockIndex(scores[i], lo, hi)])
  }

  /**
   * The sparkline keeps the order of the scores: a score no higher than
   * another gets a block no higher, the lowest gets the bottom block and
   * the highest the full block.
   */
  lemma SparklineFollowsScores(scores: seq<real>, i: int, j: int)
    requires |scores| >= 2 && 0 <= i < |scores| && 0 <= j < |scores|
    requires scores[i] <= scores[j]
    requires Lowest(scores) < Highest(scores)
    ensures BlockIndex(scores[i], Lowest(scores), Highest(scores)) <= BlockIndex(scores[j], Lowest(scores), Highest(scores))
    ensures GenerateSparkline(scores)[i] == Blocks[BlockIndex(scores[i], Lowest(scores), Highest(scores))]
    ensures scores[i] == Lowest(scores) ==> GenerateSparkline(scores)[i] == Blocks[0]
    ensures scores[j] == Highest(scores) ==> GenerateSparkline(scores)[j] == Blocks[7]
  {
    BlockIndexMonotone(scores[i], scores[j], Lowest(scores), Highest(scores));
  }
}
