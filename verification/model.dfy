/**
 * The records of the metric catalogue: a metric definition, the rows of the
 * four event tables that refer to it (change history, validation tests,
 * usage, trust-score snapshots), and the clock arithmetic every component
 * shares.
 */
module Model {

  datatype Option<T> = None | Some(value: T)

  /** A point in time, in microseconds since the epoch (`isoformat()` keeps microseconds). */
  type Timestamp = int

  const MicrosPerDay: int := 86_400_000_000

  /** `(later - earlier).days` of a Python timedelta: whole days, rounded down. */
  function DaysBetween(later: Timestamp, earlier: Timestamp): (d: int)
    ensures d * MicrosPerDay <= later - earlier < d * MicrosPerDay + MicrosPerDay
  {
    (later - earlier) / MicrosPerDay
  }

  /** The later the clock reads, the more days have passed since a fixed moment. */
  lemma DaysBetweenMonotone(a: Timestamp, b: Timestamp, earlier: Timestamp)
    requires a <= b
    ensures DaysBetween(a, earlier) <= DaysBetween(b, earlier)
  {
  }

  /**
   * A metric definition: one row of the `metrics` table, or one value of the
   * server's in-memory store. Nullable text columns are the empty string
   * when absent.
   */
  datatype Metric = Metric(
    id: string,
    name: string,
    description: string,
    calculation: string,
    owner: string,
    dataSource: string,
    tags: seq<string>,
    dependencies: seq<string>,
    testCount: int,
    usageCount: int,
    createdAt: Timestamp,
    updatedAt: Timestamp,
    trustScore: int)

  /** Every metric is filed under its own id, as the `metrics` primary key and the server's store both require. */
  predicate Keyed(metrics: map<string, Metric>) {
    forall k :: k in metrics ==> metrics[k].id == k
  }

  /** The columns of the `metrics` table. */
  datatype Field =
    | Id | Name | Description | Calculation | Owner | DataSource | Tags | Dependencies
    | TestCount | UsageCount | CreatedAt | UpdatedAt | TrustScore

  /** A column value, as compared by `update_metric` and written to the history log. */
  datatype Value = Text(text: string) | Int(number: int) | List(items: seq<string>)

  function FieldValue(m: Metric, f: Field): Value {
    match f
    case Id => Text(m.id)
    case Name => Text(m.name)
    case Description => Text(m.description)
    case Calculation => Text(m.calculation)
    case Owner => Text(m.owner)
    case DataSource => Text(m.dataSource)
    case Tags => List(m.tags)
    case Dependencies => List(m.dependencies)
    case TestCount => Int(m.testCount)
    case UsageCount => Int(m.usageCount)
    case CreatedAt => Int(m.createdAt)
    case UpdatedAt => Int(m.updatedAt)
    case TrustScore => Int(m.trustScore)
  }

  /** A row is determined by its columns: two metrics that agree on every field are equal. */
  lemma FieldsDetermineMetric(a: Metric, b: Metric)
    requires forall f :: FieldValue(a, f) == FieldValue(b, f)
    ensures a == b
  {
    assert FieldValue(a, Id) == FieldValue(b, Id);
    assert FieldValue(a, Name) == FieldValue(b, Name);
    assert FieldValue(a, Description) == FieldValue(b, Description);
    assert FieldValue(a, Calculation) == FieldValue(b, Calculation);
    assert FieldValue(a, Owner) == FieldValue(b, Owner);
    assert FieldValue(a, DataSource) == FieldValue(b, DataSource);
    assert FieldValue(a, Tags) == FieldValue(b, Tags);
    assert FieldValue(a, Dependencies) == FieldValue(b, Dependencies);
    assert FieldValue(a, TestCount) == FieldValue(b, TestCount);
    assert FieldValue(a, UsageCount) == FieldValue(b, UsageCount);
    assert FieldValue(a, CreatedAt) == FieldValue(b, CreatedAt);
    assert FieldValue(a, UpdatedAt) == FieldValue(b, UpdatedAt);
    assert FieldValue(a, TrustScore) == FieldValue(b, TrustScore);
  }

  /** One changed field of one metric (`metric_history`); values are kept unserialised. */
  datatype HistoryEntry = HistoryEntry(
    metricId: string,
    field: Field,
    oldValue: Value,
    newValue: Value,
    changedBy: string,
    changedAt: Timestamp)

  datatype TestStatus = Pending | Passed | Failed

  /** One row of `validation_tests`; `testId` is its AUTOINCREMENT key. */
  datatype ValidationTest = ValidationTest(
    testId: nat,
    metricId: string,
    testType: string,
    testQuery: string,
    expectedResult: string,
    status: TestStatus)

  /** One row of `metric_usage`. */
  datatype UsageEvent = UsageEvent(metricId: string, usedBy: string, usedAt: Timestamp, context: string)

  /** One row of `trust_score_history`; the breakdown is the caller's component map. */
  datatype ScoreSnapshot = ScoreSnapshot(
    metricId: string,
    score: real,
    breakdown: map<string, real>,
    recordedAt: Timestamp)
}
