/**
 * The persistent metric repository (`MetricsDatabase`): a keyed `metrics`
 * table plus four append-only event tables. Each operation is a pure state
 * transition from one database value to the next; the clock reading is a
 * parameter.
 */
module Store {
  import opened Model
  import opened Seqs
  import opened Text
  import Sql

  datatype Db = Db(
    metrics: map<string, Metric>,
    history: seq<HistoryEntry>,
    tests: seq<ValidationTest>,
    usage: seq<UsageEvent>,
    snapshots: seq<ScoreSnapshot>,
    lastTestId: nat)

  /** A freshly created database file. */
  const Empty: Db := Db(map[], [], [], [], [], 0)

  /** The change log was written by a clock that never ran backwards. */
  predicate Chronological(db: Db) {
    InClockOrder(db.history)
  }

  predicate InClockOrder(history: seq<HistoryEntry>) {
    Ascending(history, (e: HistoryEntry) => e.changedAt)
  }

  // Row selectors for the foreign-key column of each event table.

  function EntryOf(id: string): HistoryEntry -> bool { (e: HistoryEntry) => e.metricId == id }

  function TestOf(id: string): ValidationTest -> bool { (t: ValidationTest) => t.metricId == id }

  function UsageOf(id: string): UsageEvent -> bool { (u: UsageEvent) => u.metricId == id }

  function TestRows(db: Db, id: string): nat { |Filter(db.tests, TestOf(id))| }

  function UsageRows(db: Db, id: string): nat { |Filter(db.usage, UsageOf(id))| }

  function HistoryRows(db: Db, id: string): nat { |Filter(db.history, EntryOf(id))| }

  /** `create_metric`: an INSERT that fails on a duplicate primary key. */
  function CreateMetric(db: Db, id: string, data: Metric): (r: (Db, bool))
    ensures r.1 <==> id !in db.metrics
    ensures !r.1 ==> r.0 == db
    ensures r.1 ==> r.0.metrics.Keys == db.metrics.Keys + {id}
    ensures r.1 ==> r.0.metrics[id] == data.(id := id)
    ensures forall k :: k in db.metrics ==> k in r.0.metrics && r.0.metrics[k] == db.metrics[k]
    ensures r.0.(metrics := db.metrics) == db
    ensures Keyed(db.metrics) ==> Keyed(r.0.metrics)
  {
    if id in db.metrics then (db, false)
    else (db.(metrics := db.metrics[id := data.(id := id)]), true)
  }

  /** `get_metric`: the row stored under the key, or nothing. */
  function GetMetric(db: Db, id: string): (r: Option<Metric>)
    ensures r.Some? <==> id in db.metrics
    ensures r.Some? ==> r.value == db.metrics[id]
  {
    if id in db.metrics then Some(db.metrics[id]) else None
  }

  /** A metric is readable right after it is created, and a failed create changes nothing. */
  lemma CreateThenGet(db: Db, id: string, data: Metric)
    ensures id !in db.metrics ==> GetMetric(CreateMetric(db, id, data).0, id) == Some(data.(id := id))
    ensures id in db.metrics ==> GetMetric(CreateMetric(db, id, data).0, id) == GetMetric(db, id)
    ensures GetMetric(db, id) == None <==> CreateMetric(db, id, data).1
  {
  }

  /** The columns `update_metric` may assign; the primary key is not among them. */
  datatype Update =
    | SetName(string)
    | SetDescription(string)
    | SetCalculation(string)
    | SetOwner(string)
    | SetDataSource(string)
    | SetTags(seq<string>)
    | SetDependencies(seq<string>)
    | SetTestCount(int)
    | SetUsageCount(int)
    | SetCreatedAt(Timestamp)
    | SetUpdatedAt(Timestamp)
    | SetTrustScore(int)

  function FieldOf(u: Update): Field {
    match u
    case SetName(_) => Name
    case SetDescription(_) => Description
    case SetCalculation(_) => Calculation
    case SetOwner(_) => Owner
    case SetDataSource(_) => DataSource
    case SetTags(_) => Tags
    case SetDependencies(_) => Dependencies
    case SetTestCount(_) => TestCount
    case SetUsageCount(_) => UsageCount
    case SetCreatedAt(_) => CreatedAt
    case SetUpdatedAt(_) => UpdatedAt
    case SetTrustScore(_) => TrustScore
  }

  function NewValue(u: Update): Value {
    match u
    case SetName(s) => Text(s)
    case SetDescription(s) => Text(s)
    case SetCalculation(s) => Text(s)
    case SetOwner(s) => Text(s)
    case SetDataSource(s) => Text(s)
    case SetTags(xs) => List(xs)
    case SetDependencies(xs) => List(xs)
    case SetTestCount(n) => Int(n)
    case SetUsageCount(n) => Int(n)
    case SetCreatedAt(t) => Int(t)
    case SetUpdatedAt(t) => Int(t)
    case SetTrustScore(n) => Int(n)
  }

  /** One `field = ?` clause of the UPDATE statement. */
  function Apply(m: Metric, u: Update): (r: Metric)
    ensures FieldValue(r, FieldOf(u)) == NewValue(u)
    ensures forall f :: f != FieldOf(u) ==> FieldValue(r, f) == FieldValue(m, f)
  {
    match u
    case SetName(s) => m.(name := s)
    case SetDescription(s) => m.(description := s)
    case SetCalculation(s) => m.(calculation := s)
    case SetOwner(s) => m.(owner := s)
    case SetDataSource(s) => m.(dataSource := s)
    case SetTags(xs) => m.(tags := xs)
    case SetDependencies(xs) => m.(dependencies := xs)
    case SetTestCount(n) => m.(testCount := n)
    case SetUsageCount(n) => m.(usageCount := n)
    case SetCreatedAt(t) => m.(createdAt := t)
    case SetUpdatedAt(t) => m.(updatedAt := t)
    case SetTrustScore(n) => m.(trustScore := n)
  }

  /** The keys of a Python dict are distinct. */
  predicate DistinctFields(updates: seq<Update>) {
    forall i, j :: 0 <= i < j < |updates| ==> FieldOf(updates[i]) != FieldOf(updates[j])
  }

  predicate Untouched(updates: seq<Update>, f: Field) {
    forall u :: u in updates ==> FieldOf(u) != f
  }

  /** All the `field = ?` clauses, in order. */
  function ApplyAll(m: Metric, updates: seq<Update>): (r: Metric)
    requires DistinctFields(updates)
    ensures forall u :: u in updates ==> FieldValue(r, FieldOf(u)) == NewValue(u)
    ensures forall f :: Untouched(updates, f) ==> FieldValue(r, f) == FieldValue(m, f)
    decreases |updates|
  {
    if |updates| == 0 then m
    else
      var rest := updates[1..];
      assert Untouched(rest, FieldOf(updates[0])) by {
        forall u | u in rest ensures FieldOf(u) != FieldOf(updates[0]) {
          var j :| 0 <= j < |rest| && rest[j] == u;
          assert updates[j + 1] == u;
        }
      }
      ApplyAll(Apply(m, updates[0]), rest)
  }

  predicate Changed(current: Metric, u: Update) {
    FieldValue(current, FieldOf(u)) != NewValue(u)
  }

  /** The history row `update_metric` writes for a changed field. */
  function ChangeEntry(id: string, current: Metric, u: Update, changedBy: string, now: Timestamp): HistoryEntry {
    HistoryEntry(id, FieldOf(u), FieldValue(current, FieldOf(u)), NewValue(u), changedBy, now)
  }

  /** The history rows of one update: one per field whose value actually differs. */
  function ChangeLog(id: string, current: Metric, updates: seq<Update>, changedBy: string, now: Timestamp): (r: seq<HistoryEntry>)
    requires DistinctFields(updates)
    ensures |r| <= |updates|
    ensures forall e :: e in r ==> exists u :: u in updates && Changed(current, u) && e == ChangeEntry(id, current, u, changedBy, now)
    ensures forall u :: u in updates && Changed(current, u) ==> ChangeEntry(id, current, u, changedBy, now) in r
    ensures forall i, j :: 0 <= i < j < |r| ==> r[i].field != r[j].field
    ensures forall e :: e in r ==> e.metricId == id && e.changedBy == changedBy && e.changedAt == now
    decreases |updates|
  {
    if |updates| == 0 then []
    else
      var rest := ChangeLog(id, current, updates[1..], changedBy, now);
      assert forall e :: e in rest ==> e.field != FieldOf(updates[0]) by {
        forall e | e in rest ensures e.field != FieldOf(updates[0]) {
          var u :| u in updates[1..] && Changed(current, u) && e == ChangeEntry(id, current, u, changedBy, now);
          var j :| 0 <= j < |updates[1..]| && updates[1..][j] == u;
          assert updates[j + 1] == u;
        }
      }
      if Changed(current, updates[0]) then [ChangeEntry(id, current, updates[0], changedBy, now)] + rest
      else rest
  }

  /**
   * `update_metric`: logs one history row per changed field, applies every
   * clause, and always stamps `updated_at` with the clock (SQLite keeps the
   * rightmost of two assignments to the same column).
   */
  function UpdateMetric(db: Db, id: string, updates: seq<Update>, changedBy: string, now: Timestamp): (r: (Db, bool))
    requires DistinctFields(updates)
    ensures r.1 <==> id in db.metrics
    ensures !r.1 ==> r.0 == db
    ensures r.1 ==> r.0.metrics.Keys == db.metrics.Keys
    ensures r.1 ==> forall k :: k in db.metrics && k != id ==> r.0.metrics[k] == db.metrics[k]
    ensures r.1 ==> r.0.metrics[id].updatedAt == now
    ensures r.1 ==> forall u :: u in updates && FieldOf(u) != UpdatedAt ==> FieldValue(r.0.metrics[id], FieldOf(u)) == NewValue(u)
    ensures r.1 ==> forall f :: f != UpdatedAt && Untouched(updates, f) ==> FieldValue(r.0.metrics[id], f) == FieldValue(db.metrics[id], f)
    ensures r.1 ==> r.0.history == db.history + ChangeLog(id, db.metrics[id], updates, changedBy, now)
    ensures r.0.tests == db.tests && r.0.usage == db.usage && r.0.snapshots == db.snapshots && r.0.lastTestId == db.lastTestId
    ensures Keyed(db.metrics) ==> Keyed(r.0.metrics)
  {
    if id !in db.metrics then (db, false)
    else
      var current := db.metrics[id];
      var log := ChangeLog(id, current, updates, changedBy, now);
      var updated := ApplyAll(current, updates).(updatedAt := now);
      assert FieldValue(updated, Id) == FieldValue(current, Id);
      (db.(metrics := db.metrics[id := updated], history := db.history + log), true)
  }

  /** An empty update logs nothing yet still refreshes `updated_at`. */
  lemma EmptyUpdateOnlyTouchesClock(db: Db, id: string, changedBy: string, now: Timestamp)
    requires id in db.metrics
    ensures UpdateMetric(db, id, [], changedBy, now).0.history == db.history
    ensures UpdateMetric(db, id, [], changedBy, now).0.metrics[id] == db.metrics[id].(updatedAt := now)
  {
    var after := UpdateMetric(db, id, [], changedBy, now).0.metrics[id];
    forall f ensures FieldValue(after, f) == FieldValue(db.metrics[id].(updatedAt := now), f) {
    }
    FieldsDetermineMetric(after, db.metrics[id].(updatedAt := now));
  }

  /**
   * After an update that changes at least one field, the newest row of the
   * metric's history is one of that update's entries, carrying its actor.
   */
  lemma UpdateThenHistory(db: Db, id: string, updates: seq<Update>, changedBy: string, now: Timestamp, limit: int)
    requires DistinctFields(updates)
    requires id in db.metrics
    requires exists u :: u in updates && Changed(db.metrics[id], u)
    requires limit != 0
    ensures var h := GetMetricHistory(UpdateMetric(db, id, updates, changedBy, now).0, id, limit);
      |h| > 0 && h[0].changedBy == changedBy && h[0].changedAt == now
      && exists u :: u in updates && Changed(db.metrics[id], u) && h[0] == ChangeEntry(id, db.metrics[id], u, changedBy, now)
  {
    var log := ChangeLog(id, db.metrics[id], updates, changedBy, now);
    var u :| u in updates && Changed(db.metrics[id], u);
    assert ChangeEntry(id, db.metrics[id], u, changedBy, now) in log;
    var after := UpdateMetric(db, id, updates, changedBy, now).0;
    LastLoggedReadsFirst(after, db.history, log, id, limit);
    assert log[|log| - 1] in log;
  }

  /** Rows appended for one metric are the first its history query returns, newest first. */
  lemma LastLoggedReadsFirst(db: Db, earlier: seq<HistoryEntry>, log: seq<HistoryEntry>, id: string, limit: int)
    requires db.history == earlier + log
    requires |log| > 0 && forall e :: e in log ==> e.metricId == id
    requires limit != 0
    ensures |GetMetricHistory(db, id, limit)| > 0 && GetMetricHistory(db, id, limit)[0] == log[|log| - 1]
  {
    FilterAppend(earlier, log, EntryOf(id));
    FilterAll(log, EntryOf(id));
    var own := Filter(db.history, EntryOf(id));
    assert own == Filter(earlier, EntryOf(id)) + log;
    assert own[|own| - 1] == log[|log| - 1];
    assert NewestFirst(own, limit)[0] == log[|log| - 1];
  }

  /** Rows written at the current clock can follow any log written no later. */
  lemma AppendAtClock(history: seq<HistoryEntry>, log: seq<HistoryEntry>, now: Timestamp)
    requires InClockOrder(history)
    requires forall e :: e in history ==> e.changedAt <= now
    requires forall e :: e in log ==> e.changedAt == now
    ensures InClockOrder(history + log)
  {
    var all := history + log;
    forall i, j | 0 <= i < j < |all|
      ensures all[i].changedAt <= all[j].changedAt
    {
      if j >= |history| {
        assert all[j] in log;
        if i < |history| {
          assert all[i] in history;
        } else {
          assert all[i] in log;
        }
      }
    }
  }

  /** An update stamped with the current clock keeps the change log chronological. */
  lemma UpdateKeepsChronology(db: Db, id: string, updates: seq<Update>, changedBy: string, now: Timestamp)
    requires DistinctFields(updates)
    requires Chronological(db)
    requires forall e :: e in db.history ==> e.changedAt <= now
    ensures Chronological(UpdateMetric(db, id, updates, changedBy, now).0)
  {
    if id in db.metrics {
      var log := ChangeLog(id, db.metrics[id], updates, changedBy, now);
      AppendAtClock(db.history, log, now);
      assert UpdateMetric(db, id, updates, changedBy, now).0.history == db.history + log;
    }
  }

  /**
   * `delete_metric`: removes the metric and its validation-test, usage and
   * history rows; trust-score snapshots stay. Reports whether a metric row
   * was deleted.
   */
  function DeleteMetric(db: Db, id: string): (r: (Db, bool))
    ensures r.1 <==> id in db.metrics
    ensures r.0.metrics == db.metrics - {id}
    ensures forall t :: t in r.0.tests <==> t in db.tests && t.metricId != id
    ensures forall u :: u in r.0.usage <==> u in db.usage && u.metricId != id
    ensures forall e :: e in r.0.history <==> e in db.history && e.metricId != id
    ensures r.0.snapshots == db.snapshots && r.0.lastTestId == db.lastTestId
    ensures Keyed(db.metrics) ==> Keyed(r.0.metrics)
  {
    var db' := db.(
      tests := Filter(db.tests, OtherTest(id)),
      usage := Filter(db.usage, OtherUsage(id)),
      history := Filter(db.history, OtherEntry(id)),
      metrics := db.metrics - {id});
    (db', id in db.metrics)
  }

  function OtherTest(id: string): ValidationTest -> bool { (t: ValidationTest) => t.metricId != id }

  function OtherUsage(id: string): UsageEvent -> bool { (u: UsageEvent) => u.metricId != id }

  function OtherEntry(id: string): HistoryEntry -> bool { (e: HistoryEntry) => e.metricId != id }

  /**
   * Deleting one metric leaves every other metric's rows exactly as they
   * were, in the same order: its history reads back the same, and its test
   * and usage counts are unchanged.
   */
  lemma DeleteKeepsOtherMetrics(db: Db, id: string, other: string, limit: int)
    requires other != id
    ensures var after := DeleteMetric(db, id).0;
      GetMetricHistory(after, other, limit) == GetMetricHistory(db, other, limit)
      && TestRows(after, other) == TestRows(db, other)
      && UsageRows(after, other) == UsageRows(db, other)
  {
    FilterOfFilter(db.history, OtherEntry(id), EntryOf(other));
    FilterOfFilter(db.tests, OtherTest(id), TestOf(other));
    FilterOfFilter(db.usage, OtherUsage(id), UsageOf(other));
  }

  /** Create, then delete: the metric is gone again and the table is as before. */
  lemma CreateDeleteRoundTrip(db: Db, id: string, data: Metric)
    requires id !in db.metrics
    ensures var created := CreateMetric(db, id, data).0;
      DeleteMetric(created, id).1
      && DeleteMetric(created, id).0.metrics == db.metrics
      && GetMetric(DeleteMetric(created, id).0, id) == None
  {
    assert CreateMetric(db, id, data).0.metrics - {id} == db.metrics;
  }

  /**
   * `add_validation_test`: appends a pending test row with the next
   * AUTOINCREMENT key, returns that key, and resets `test_count` to the
   * number of test rows for the metric. The row is written even when no
   * such metric exists.
   */
  function AddValidationTest(db: Db, id: string, testType: string, testQuery: string, expectedResult: string): (r: (Db, nat))
    ensures r.1 == db.lastTestId + 1 && r.0.lastTestId == r.1
    ensures r.0.tests == db.tests + [ValidationTest(r.1, id, testType, testQuery, expectedResult, Pending)]
    ensures r.0.metrics.Keys == db.metrics.Keys
    ensures forall k :: k in db.metrics && k != id ==> r.0.metrics[k] == db.metrics[k]
    ensures id in db.metrics ==> r.0.metrics[id] == db.metrics[id].(testCount := TestRows(r.0, id))
    ensures r.0.history == db.history && r.0.usage == db.usage && r.0.snapshots == db.snapshots
    ensures Keyed(db.metrics) ==> Keyed(r.0.metrics)
  {
    var testId := db.lastTestId + 1;
    var tests := db.tests + [ValidationTest(testId, id, testType, testQuery, expectedResult, Pending)];
    var count := |Filter(tests, TestOf(id))|;
    var metrics := if id in db.metrics then db.metrics[id := db.metrics[id].(testCount := count)] else db.metrics;
    (db.(tests := tests, metrics := metrics, lastTestId := testId), testId)
  }

  /** Each added test raises the metric's row count by one, whatever its status. */
  lemma AddTestCountsOneMore(db: Db, id: string, testType: string, testQuery: string, expectedResult: string)
    requires id in db.metrics
    ensures var after := AddValidationTest(db, id, testType, testQuery, expectedResult).0;
      TestRows(after, id) == TestRows(db, id) + 1
      && after.metrics[id].testCount == TestRows(db, id) + 1
      && (db.metrics[id].testCount == TestRows(db, id) ==> after.metrics[id].testCount == db.metrics[id].testCount + 1)
  {
    var after := AddValidationTest(db, id, testType, testQuery, expectedResult).0;
    var row := ValidationTest(db.lastTestId + 1, id, testType, testQuery, expectedResult, Pending);
    FilterAppend(db.tests, [row], TestOf(id));
    assert Filter([row], TestOf(id)) == [row];
  }

  /** `record_usage`: appends a usage row and resets `usage_count` to the metric's row count. */
  function RecordUsage(db: Db, id: string, usedBy: string, context: string, now: Timestamp): (r: Db)
    ensures r.usage == db.usage + [UsageEvent(id, usedBy, now, context)]
    ensures r.metrics.Keys == db.metrics.Keys
    ensures forall k :: k in db.metrics && k != id ==> r.metrics[k] == db.metrics[k]
    ensures id in db.metrics ==> r.metrics[id] == db.metrics[id].(usageCount := UsageRows(r, id))
    ensures r.history == db.history && r.tests == db.tests && r.snapshots == db.snapshots && r.lastTestId == db.lastTestId
    ensures Keyed(db.metrics) ==> Keyed(r.metrics)
  {
    var usage := db.usage + [UsageEvent(id, usedBy, now, context)];
    var count := |Filter(usage, UsageOf(id))|;
    var metrics := if id in db.metrics then db.metrics[id := db.metrics[id].(usageCount := count)] else db.metrics;
    db.(usage := usage, metrics := metrics)
  }

  /** Each recorded use raises the metric's usage row count by one. */
  lemma RecordUsageCountsOneMore(db: Db, id: string, usedBy: string, context: string, now: Timestamp)
    requires id in db.metrics
    ensures var after := RecordUsage(db, id, usedBy, context, now);
      UsageRows(after, id) == UsageRows(db, id) + 1
      && after.metrics[id].usageCount == UsageRows(db, id) + 1
  {
    var row := UsageEvent(id, usedBy, now, context);
    FilterAppend(db.usage, [row], UsageOf(id));
    assert Filter([row], UsageOf(id)) == [row];
  }

  /**
   * `get_metric_history`: the metric's change rows, newest first (the log is
   * read backwards), at most `limit` of them; SQLite reads a negative
   * LIMIT as no limit.
   */
  function GetMetricHistory(db: Db, id: string, limit: int): (r: seq<HistoryEntry>)
    ensures forall e :: e in r ==> e in db.history && e.metricId == id
    ensures |r| == if 0 <= limit < HistoryRows(db, id) then limit else HistoryRows(db, id)
    ensures forall i :: 0 <= i < |r| ==> r[i] == Filter(db.history, EntryOf(id))[HistoryRows(db, id) - 1 - i]
  {
    NewestFirst(Filter(db.history, EntryOf(id)), limit)
  }

  /** When the log is chronological the history reads newest first by timestamp. */
  lemma HistoryNewestFirst(db: Db, id: string, limit: int)
    requires Chronological(db)
    ensures Descending(GetMetricHistory(db, id, limit), (e: HistoryEntry) => e.changedAt)
  {
    var key := (e: HistoryEntry) => e.changedAt;
    FilterAscending(db.history, EntryOf(id), key);
    NewestFirstDescending(Filter(db.history, EntryOf(id)), limit, key);
  }

  /**
   * The rows left out by the limit are the oldest ones: on a chronological
   * log none of them is newer than any row returned.
   */
  lemma HistoryKeepsNewest(db: Db, id: string, limit: int)
    requires Chronological(db)
    ensures var own := Filter(db.history, EntryOf(id));
      var r := GetMetricHistory(db, id, limit);
      forall k, i :: 0 <= k < |own| - |r| && 0 <= i < |r| ==> own[k].changedAt <= r[i].changedAt
  {
    var key := (e: HistoryEntry) => e.changedAt;
    FilterAscending(db.history, EntryOf(id), key);
    NewestFirstKeepsNewest(Filter(db.history, EntryOf(id)), limit, key);
  }

  /** `record_trust_score`: appends a snapshot; the metric row itself is not touched. */
  function RecordTrustScore(db: Db, id: string, score: real, breakdown: map<string, real>, now: Timestamp): (r: Db)
    ensures r.snapshots == db.snapshots + [ScoreSnapshot(id, score, breakdown, now)]
    ensures r.(snapshots := db.snapshots) == db
  {
    db.(snapshots := db.snapshots + [ScoreSnapshot(id, score, breakdown, now)])
  }

  function SnapshotOf(id: string, since: Timestamp): ScoreSnapshot -> bool {
    (s: ScoreSnapshot) => s.metricId == id && s.recordedAt >= since
  }

  /**
   * `get_trust_score_history`: the metric's snapshots recorded at or after
   * `since`, newest first. The source derives `since` from a day count.
   */
  function GetTrustScoreHistory(db: Db, id: string, since: Timestamp): (r: seq<ScoreSnapshot>)
    ensures forall s :: s in r <==> s in db.snapshots && s.metricId == id && s.recordedAt >= since
    ensures |r| == |Filter(db.snapshots, SnapshotOf(id, since))|
    ensures forall i :: 0 <= i < |r| ==> r[i] == Filter(db.snapshots, SnapshotOf(id, since))[|r| - 1 - i]
  {
    Reverse(Filter(db.snapshots, SnapshotOf(id, since)))
  }

  /** Snapshots recorded by a clock that never ran backwards read back newest first. */
  lemma ScoreHistoryNewestFirst(db: Db, id: string, since: Timestamp)
    requires Ascending(db.snapshots, (s: ScoreSnapshot) => s.recordedAt)
    ensures Descending(GetTrustScoreHistory(db, id, since), (s: ScoreSnapshot) => s.recordedAt)
  {
    var key := (s: ScoreSnapshot) => s.recordedAt;
    FilterAscending(db.snapshots, SnapshotOf(id, since), key);
    ReverseDescending(Filter(db.snapshots, SnapshotOf(id, since)), key);
  }

  /** The snapshot just recorded is the first one the trend query reads back. */
  lemma RecordThenScoreHistory(db: Db, id: string, score: real, breakdown: map<string, real>, now: Timestamp, since: Timestamp)
    requires since <= now
    ensures var h := GetTrustScoreHistory(RecordTrustScore(db, id, score, breakdown, now), id, since);
      |h| == |GetTrustScoreHistory(db, id, since)| + 1 && h[0] == ScoreSnapshot(id, score, breakdown, now)
  {
    var row := ScoreSnapshot(id, score, breakdown, now);
    FilterAppend(db.snapshots, [row], SnapshotOf(id, since));
    assert Filter([row], SnapshotOf(id, since)) == [row];
  }

  /** `name LIKE '%q%' OR description LIKE '%q%'`. */
  predicate Matches(m: Metric, query: string) {
    Sql.Like(m.name, "%" + query + "%") || Sql.Like(m.description, "%" + query + "%")
  }

  /** For a query without `%` or `_`, the search is a case-insensitive substring match on name or description. */
  lemma MatchesIsSubstringSearch(m: Metric, query: string)
    requires Sql.NoWildcards(query)
    ensures Matches(m, query) <==> ContainsIgnoringCase(m.name, query) || ContainsIgnoringCase(m.description, query)
  {
    Sql.LikeIsContainsIgnoringCase(m.name, query);
    Sql.LikeIsContainsIgnoringCase(m.description, query);
  }

  function MatchesQuery(query: string): Metric -> bool { (m: Metric) => Matches(m, query) }

  function OwnedBy(owner: string): Metric -> bool { (m: Metric) => m.owner == owner }

  function Tagged(tag: string): Metric -> bool { (m: Metric) => tag in m.tags }

  function MatchingKeys(db: Db, keep: Metric -> bool): set<string> {
    set k | k in db.metrics && keep(db.metrics[k])
  }

  /** A full scan with a WHERE clause; SQLite promises no row order. */
  method Select(db: Db, keep: Metric -> bool) returns (r: seq<Metric>)
    ensures forall m :: m in r ==> m in db.metrics.Values && keep(m)
    ensures forall k :: k in db.metrics && keep(db.metrics[k]) ==> db.metrics[k] in r
    ensures |r| == |MatchingKeys(db, keep)|
  {
    var remaining := db.metrics.Keys;
    r := [];
    while remaining != {}
      invariant remaining <= db.metrics.Keys
      invariant forall m :: m in r ==> m in db.metrics.Values && keep(m)
      invariant forall k :: k in db.metrics.Keys - remaining && keep(db.metrics[k]) ==> db.metrics[k] in r
      invariant |r| == |set k | k in db.metrics.Keys - remaining && keep(db.metrics[k])|
      decreases remaining
    {
      var k :| k in remaining;
      ghost var before := set j | j in db.metrics.Keys - remaining && keep(db.metrics[j]);
      if keep(db.metrics[k]) {
        r := r + [db.metrics[k]];
      }
      remaining := remaining - {k};
      ghost var after := set j | j in db.metrics.Keys - remaining && keep(db.metrics[j]);
      if keep(db.metrics[k]) {
        assert after == before + {k};
      } else {
        assert after == before;
      }
    }
    assert MatchingKeys(db, keep) == set k | k in db.metrics.Keys - remaining && keep(db.metrics[k]);
  }

  /** The order of `ORDER BY usage_count DESC, trust_score DESC`. */
  predicate RankedBefore(a: Metric, b: Metric) {
    a.usageCount > b.usageCount || (a.usageCount == b.usageCount && a.trustScore >= b.trustScore)
  }

  predicate Ranked(s: seq<Metric>) {
    forall i, j :: 0 <= i < j < |s| ==> RankedBefore(s[i], s[j])
  }

  function Insert(m: Metric, s: seq<Metric>): (r: seq<Metric>)
    requires Ranked(s)
    ensures Ranked(r)
    ensures multiset(r) == multiset(s) + multiset{m}
    decreases |s|
  {
    if |s| == 0 then [m]
    else if RankedBefore(m, s[0]) then
      InsertInFront(m, s);
      [m] + s
    else
      var rest := Insert(m, s[1..]);
      InsertBehind(m, s, rest);
      [s[0]] + rest
  }

  lemma InsertInFront(m: Metric, s: seq<Metric>)
    requires Ranked(s) && |s| > 0 && RankedBefore(m, s[0])
    ensures Ranked([m] + s)
  {
    forall i, j | 0 <= i < j < |[m] + s|
      ensures RankedBefore(([m] + s)[i], ([m] + s)[j])
    {
      if i == 0 && j > 1 {
        assert RankedBefore(s[0], s[j - 1]);
      }
    }
  }

  lemma InsertBehind(m: Metric, s: seq<Metric>, rest: seq<Metric>)
    requires Ranked(s) && |s| > 0 && !RankedBefore(m, s[0])
    requires Ranked(rest) && multiset(rest) == multiset(s[1..]) + multiset{m}
    ensures Ranked([s[0]] + rest)
    ensures multiset([s[0]] + rest) == multiset(s) + multiset{m}
  {
    assert s == [s[0]] + s[1..];
    forall j | 0 <= j < |rest|
      ensures RankedBefore(s[0], rest[j])
    {
      assert rest[j] in multiset(rest);
      if rest[j] != m {
        assert rest[j] in multiset(s[1..]);
        var k :| 0 <= k < |s[1..]| && s[1..][k] == rest[j];
        assert s[k + 1] == rest[j];
      }
    }
    var r := [s[0]] + rest;
    forall i, j | 0 <= i < j < |r|
      ensures RankedBefore(r[i], r[j])
    {
      if i == 0 {
        assert r[j] == rest[j - 1];
      } else {
        assert r[i] == rest[i - 1] && r[j] == rest[j - 1];
      }
    }
  }

  function SortByRank(s: seq<Metric>): (r: seq<Metric>)
    ensures Ranked(r)
    ensures multiset(r) == multiset(s)
  {
    if |s| == 0 then []
    else
      assert s == [s[0]] + s[1..];
      Insert(s[0], SortByRank(s[1..]))
  }

  /**
   * `search_metrics`: every metric whose name or description matches the
   * LIKE pattern `%query%`, each once, by usage count and then trust score,
   * both descending.
   */
  method SearchMetrics(db: Db, query: string) returns (r: seq<Metric>)
    ensures forall m :: m in r ==> m in db.metrics.Values && Matches(m, query)
    ensures forall k :: k in db.metrics && Matches(db.metrics[k], query) ==> db.metrics[k] in r
    ensures |r| == |MatchingKeys(db, MatchesQuery(query))|
    ensures Ranked(r)
  {
    var found := Select(db, MatchesQuery(query));
    r := SortByRank(found);
    assert forall m :: m in r <==> m in found by {
      forall m ensures m in r <==> m in found {
        assert m in r <==> m in multiset(r);
      }
    }
    assert |r| == |multiset(r)| == |multiset(found)| == |found|;
  }

  /** `get_metrics_by_owner`: exact match on the owner column. */
  method GetMetricsByOwner(db: Db, owner: string) returns (r: seq<Metric>)
    ensures forall m :: m in r ==> m in db.metrics.Values && m.owner == owner
    ensures forall k :: k in db.metrics && db.metrics[k].owner == owner ==> db.metrics[k] in r
    ensures |r| == |MatchingKeys(db, OwnedBy(owner))|
  {
    r := Select(db, OwnedBy(owner));
  }

  /** `get_metrics_by_tag`: membership of the tag in the metric's tag list. */
  method GetMetricsByTag(db: Db, tag: string) returns (r: seq<Metric>)
    ensures forall m :: m in r ==> m in db.metrics.Values && tag in m.tags
    ensures forall k :: k in db.metrics && tag in db.metrics[k].tags ==> db.metrics[k] in r
    ensures |r| == |MatchingKeys(db, Tagged(tag))|
  {
    r := Select(db, Tagged(tag));
  }
}
