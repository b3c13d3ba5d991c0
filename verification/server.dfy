/**
 * The server's own in-memory catalogue (`METRICS_STORE`, passed in
 * explicitly as a map from metric id to metric) and the helpers around it:
 * the original integer trust score, the state effects of `define_metric` and
 * `validate_metric`, path-based cycle detection over dependencies, the
 * recommendation rules, the similar-name lookup and the similarity measure.
 */
module Server {
  import opened Model
  import opened Text
  import TrustScoring

  type Catalogue = map<string, Metric>

  // ---------------------------------------------------------------------
  // The integer trust score. Test coverage and ownership use the same rules
  // as the weighted engine; freshness, usage and documentation differ.

  /** `_check_freshness`: 20 on the day of the update, then 18, 15, 10, and never below 5. */
  function LegacyFreshness(ageDays: int): (r: int)
    ensures 5 <= r <= 20
    ensures r == 20 <==> ageDays == 0
    ensures r == 5 <==> ageDays > 90
  {
    if ageDays == 0 then 20
    else if ageDays <= 7 then 18
    else if ageDays <= 30 then 15
    else if ageDays <= 90 then 10
    else 5
  }

  /** From the day of the update on, freshness only falls. */
  lemma LegacyFreshnessNeverRises(a: int, b: int)
    requires 0 <= a <= b
    ensures LegacyFreshness(b) <= LegacyFreshness(a)
  {
  }

  /** `_check_usage`: 0/5/10/15/20 points at 1, 5, 10 and 20 uses. */
  function LegacyUsage(usageCount: int): (r: int)
    ensures r == 0 || r == 5 || r == 10 || r == 15 || r == 20
    ensures r == 20 <==> usageCount >= 20
    ensures r == 0 <==> usageCount < 1
  {
    if usageCount >= 20 then 20
    else if usageCount >= 10 then 15
    else if usageCount >= 5 then 10
    else if usageCount >= 1 then 5
    else 0
  }

  /** The server's usage thresholds are lower than the weighted engine's, so it never gives fewer points. */
  lemma LegacyUsageMoreGenerous(usageCount: int)
    ensures TrustScoring.CheckUsage(usageCount) <= LegacyUsage(usageCount)
  {
  }

  /** `_check_documentation`: 10 for any description, 5 for a data source, 5 for tags. */
  function LegacyDocumentation(m: Metric): (r: int)
    ensures r == 0 || r == 5 || r == 10 || r == 15 || r == 20
    ensures m.description != "" ==> r >= 10
    ensures r == 0 <==> m.description == "" && m.dataSource == "" && |m.tags| == 0
    ensures r == 20 <==> m.description != "" && m.dataSource != "" && |m.tags| > 0
  {
    (if m.description != "" then 10 else 0) + (if m.dataSource != "" then 5 else 0) + (if |m.tags| > 0 then 5 else 0)
  }

  /**
   * `_calculate_trust_score`: the plain sum of the five components, always
   * in [5, 100] (freshness never drops below 5), and 100 exactly when every
   * component is full.
   */
  function LegacyTrustScore(m: Metric, now: Timestamp): (r: int)
    ensures 5 <= r <= 100
    ensures r == 100 <==>
      DaysBetween(now, m.updatedAt) == 0 && m.testCount >= 5 && m.usageCount >= 20
      && m.description != "" && m.dataSource != "" && |m.tags| > 0
      && m.owner != "" && m.owner != "Unassigned"
  {
    LegacyFreshness(DaysBetween(now, m.updatedAt))
    + TrustScoring.CheckTestCoverage(m.testCount)
    + LegacyUsage(m.usageCount)
    + LegacyDocumentation(m)
    + TrustScoring.CheckOwnership(m.owner)
  }

  // ---------------------------------------------------------------------
  // Ids and tags

  function IdChar(c: char): char {
    if c == ' ' then '_' else LowerChar(c)
  }

  /** `name.lower().replace(" ", "_")`. */
  function MetricId(name: string): (r: string)
    ensures |r| == |name|
    ensures forall i :: 0 <= i < |r| ==> r[i] != ' ' && !IsUpper(r[i])
    ensures forall i :: 0 <= i < |name| ==> r[i] == if name[i] == ' ' then '_' else Lower(name)[i]
  {
    seq(|name|, i requires 0 <= i < |name| => IdChar(name[i]))
  }

  /** An id is its own id: deriving it twice changes nothing. */
  lemma MetricIdIdempotent(name: string)
    ensures MetricId(MetricId(name)) == MetricId(name)
  {
  }

  /** Names that differ only in letter case get the same id. */
  lemma MetricIdIgnoresCase(name: string)
    ensures MetricId(Upper(name)) == MetricId(name)
    ensures MetricId(Lower(name)) == MetricId(name)
  {
  }

  /** `[t.strip() for t in tags.split(",")] if tags else []`. */
  function ParseTags(tags: string): (r: seq<string>)
    ensures tags == "" ==> r == []
    ensures tags != "" ==> |r| == Occurrences(tags, ',') + 1
    ensures forall i :: 0 <= i < |r| ==> ',' !in r[i]
    ensures forall i :: 0 <= i < |r| ==> |r[i]| == 0 || (!IsSpace(r[i][0]) && !IsSpace(r[i][|r[i]| - 1]))
    ensures tags != "" ==> |r| == |Split(tags, ',')| && forall i :: 0 <= i < |r| ==> r[i] == Strip(Split(tags, ',')[i])
  {
    if tags == "" then []
    else
      var pieces := Split(tags, ',');
      seq(|pieces|, i requires 0 <= i < |pieces| => Strip(pieces[i]))
  }

  /** Tags written without whitespace come back intact: joining them with commas gives the input. */
  lemma ParseTagsRoundTrip(tags: string)
    requires tags != ""
    requires forall c :: c in tags ==> !IsSpace(c)
    ensures Join(ParseTags(tags), ',') == tags
  {
    var pieces := Split(tags, ',');
    forall i | 0 <= i < |pieces|
      ensures ParseTags(tags)[i] == pieces[i]
    {
      StripWithoutSpaces(pieces[i]);
    }
    assert ParseTags(tags) == pieces;
    JoinSplit(tags, ',');
  }

  // ---------------------------------------------------------------------
  // define_metric

  datatype DefineOutcome = MissingRequired | AlreadyExists(id: string) | Created(id: string)

  /**
   * `define_metric`'s effect on the catalogue. The dependencies come from
   * the calculation by a regular expression, which is not modelled; they
   * are a parameter here.
   */
  function DefineMetric(store: Catalogue, name: string, description: string, calculation: string,
                        owner: string, tags: string, dataSource: string,
                        dependencies: seq<string>, now: Timestamp): (r: (Catalogue, DefineOutcome))
    ensures r.1 == MissingRequired <==> name == "" || description == "" || calculation == ""
    ensures r.1.AlreadyExists? <==> name != "" && description != "" && calculation != "" && MetricId(name) in store
    ensures !r.1.Created? ==> r.0 == store
    ensures r.1.Created? ==>
      r.1.id == MetricId(name) && r.1.id !in store
      && r.0.Keys == store.Keys + {r.1.id}
      && (forall k :: k in store ==> r.0[k] == store[k])
    ensures r.1.Created? && r.1.id in r.0 ==>
      var id := r.1.id;
      var m := r.0[id];
      m.id == id && m.name == name && m.description == description && m.calculation == calculation
      && m.owner == (if owner == "" then "Unassigned" else owner)
      && m.tags == ParseTags(tags) && m.dataSource == dataSource && m.dependencies == dependencies
      && m.testCount == 0 && m.usageCount == 0 && m.createdAt == now && m.updatedAt == now
  {
    if name == "" || description == "" || calculation == "" then (store, MissingRequired)
    else
      var id := MetricId(name);
      if id in store then (store, AlreadyExists(id))
      else
        var m := Metric(id, name, description, calculation,
                        if owner == "" then "Unassigned" else owner,
                        dataSource, ParseTags(tags), dependencies, 0, 0, now, now, 0);
        (store[id := m], Created(id))
  }

  /**
   * Defining keeps every metric stored under its own id, and under the id
   * derived from its name when that held before.
   */
  lemma DefineKeepsKeyed(store: Catalogue, name: string, description: string, calculation: string,
                         owner: string, tags: string, dataSource: string, dependencies: seq<string>, now: Timestamp)
    requires Keyed(store)
    ensures Keyed(DefineMetric(store, name, description, calculation, owner, tags, dataSource, dependencies, now).0)
    ensures IdsFromNames(store) ==>
      IdsFromNames(DefineMetric(store, name, description, calculation, owner, tags, dataSource, dependencies, now).0)
  {
  }

  /** Defining the same name twice: the second call finds the first and changes nothing. */
  lemma DefineTwiceRejectsSecond(store: Catalogue, name: string, description: string, calculation: string,
                                 owner: string, tags: string, dataSource: string, dependencies: seq<string>, now: Timestamp,
                                 description2: string, calculation2: string, later: Timestamp)
    requires DefineMetric(store, name, description, calculation, owner, tags, dataSource, dependencies, now).1.Created?
    requires description2 != "" && calculation2 != ""
    ensures var first := DefineMetric(store, name, description, calculation, owner, tags, dataSource, dependencies, now).0;
      DefineMetric(first, name, description2, calculation2, owner, tags, dataSource, dependencies, later) == (first, AlreadyExists(MetricId(name)))
  {
  }

  /**
   * A freshly defined metric scores between 30 and 55: no tests and no uses
   * yet, full freshness, and at most documentation and ownership on top. It
   * is therefore always below the 70 that triggers the low-score advice.
   */
  lemma NewMetricScore(store: Catalogue, name: string, description: string, calculation: string,
                       owner: string, tags: string, dataSource: string, dependencies: seq<string>, now: Timestamp)
    requires DefineMetric(store, name, description, calculation, owner, tags, dataSource, dependencies, now).1.Created?
    ensures var r := DefineMetric(store, name, description, calculation, owner, tags, dataSource, dependencies, now);
      30 <= LegacyTrustScore(r.0[r.1.id], now) <= 55
  {
  }

  // ---------------------------------------------------------------------
  // Cycle detection

  /**
   * `_has_circular_dependency(id, visited)`: true when `id` was already on
   * the path, otherwise whether any stored dependency of a stored `id` leads
   * back onto the path extended by `id`. Each branch gets its own copy of
   * the path, and the path only grows within the finite key set.
   */
  predicate CycleFrom(store: Catalogue, id: string, visited: set<string>)
    decreases store.Keys - visited
  {
    if id in visited then true
    else if id in store then
      assert store.Keys - (visited + {id}) < store.Keys - visited;
      exists dep :: dep in store[id].dependencies && dep in store && CycleFrom(store, dep, visited + {id})
    else false
  }

  /**
   * `_has_circular_dependency(id)`: only a stored metric can report a cycle,
   * and a metric listing itself among its dependencies always does.
   */
  predicate HasCircularDependency(store: Catalogue, id: string)
    ensures HasCircularDependency(store, id) ==> id in store
    ensures id in store && id in store[id].dependencies ==> HasCircularDependency(store, id)
  {
    var none: set<string> := {};
    assert id in store && id in store[id].dependencies ==> CycleFrom(store, id, none + {id});
    CycleFrom(store, id, {})
  }

  /** One step of a walk: from a stored metric to one of its dependencies that is itself stored. */
  predicate Edge(store: Catalogue, from: string, to: string) {
    from in store && to in store[from].dependencies && to in store
  }

  /** `p` follows dependency edges between stored metrics. */
  predicate IsWalk(store: Catalogue, p: seq<string>) {
    forall k :: 0 <= k < |p| - 1 ==> Edge(store, p[k], p[k + 1])
  }

  /** The walk ends on a metric already on the path, or already visited before it started. */
  predicate Revisits(p: seq<string>, visited: set<string>) {
    |p| > 0 && (p[|p| - 1] in visited || p[|p| - 1] in p[..|p| - 1])
  }

  /** A detected cycle comes with a walk that revisits a metric. */
  lemma {:induction false} CycleWitness(store: Catalogue, id: string, visited: set<string>) returns (p: seq<string>)
    requires CycleFrom(store, id, visited)
    ensures |p| > 0 && p[0] == id && IsWalk(store, p) && Revisits(p, visited)
    decreases store.Keys - visited
  {
    if id in visited {
      p := [id];
    } else {
      var dep :| dep in store[id].dependencies && dep in store && CycleFrom(store, dep, visited + {id});
      assert store.Keys - (visited + {id}) < store.Keys - visited;
      var q := CycleWitness(store, dep, visited + {id});
      p := [id] + q;
      assert p[1..] == q;
      forall k | 0 <= k < |p| - 1
        ensures Edge(store, p[k], p[k + 1])
      {
        if k > 0 {
          assert p[k] == q[k - 1] && p[k + 1] == q[k];
        }
      }
      var last := q[|q| - 1];
      assert p[|p| - 1] == last;
      if last !in visited {
        if last == id {
          assert p[..|p| - 1][0] == id;
        } else {
          assert last in q[..|q| - 1];
          assert p[..|p| - 1] == [id] + q[..|q| - 1];
        }
      }
    }
  }

  /** Any walk that revisits a metric is detected. */
  lemma {:induction false} WalkFindsCycle(store: Catalogue, p: seq<string>, visited: set<string>)
    requires |p| > 0 && IsWalk(store, p) && Revisits(p, visited)
    ensures CycleFrom(store, p[0], visited)
    decreases |p|
  {
    var id := p[0];
    if id !in visited {
      assert |p| >= 2;
      var q := p[1..];
      assert IsWalk(store, q) by {
        forall k | 0 <= k < |q| - 1
          ensures Edge(store, q[k], q[k + 1])
        {
          assert q[k] == p[k + 1] && q[k + 1] == p[k + 2];
        }
      }
      var last := p[|p| - 1];
      assert q[|q| - 1] == last;
      assert Revisits(q, visited + {id}) by {
        if last !in visited && last != id {
          assert p[..|p| - 1] == [id] + q[..|q| - 1];
          assert last in q[..|q| - 1];
        }
      }
      WalkFindsCycle(store, q, visited + {id});
      assert Edge(store, p[0], p[1]);
    }
  }

  /**
   * The detector answers true exactly when some walk from `id` along stored
   * dependencies comes back to a metric already on it.
   */
  lemma CircularIffRevisitingWalk(store: Catalogue, id: string)
    ensures HasCircularDependency(store, id) <==>
      exists p :: |p| > 0 && p[0] == id && IsWalk(store, p) && Revisits(p, {})
  {
    if HasCircularDependency(store, id) {
      var p := CycleWitness(store, id, {});
    }
    if exists p :: |p| > 0 && p[0] == id && IsWalk(store, p) && Revisits(p, {}) {
      var p :| |p| > 0 && p[0] == id && IsWalk(store, p) && Revisits(p, {});
      WalkFindsCycle(store, p, {});
    }
  }

  // ---------------------------------------------------------------------
  // validate_metric

  datatype Issue = MissingDependency(dep: string) | CircularDependency

  datatype Warning = NotSql | NoOwner | NoDataSource

  datatype Validation =
    | NotFound
    | Validated(issues: seq<Issue>, warnings: seq<Warning>, testCount: int, oldTrust: int, newTrust: int)

  /** `_is_table_reference`: a dotted name is taken to be a table. */
  predicate IsTableReference(name: string) {
    '.' in name
  }

  /** A dotted dependency is taken for a table and never reported missing, whether or not it is stored. */
  lemma DottedNameIsNeverMissing(store: Catalogue, deps: seq<string>, d: string)
    requires '.' in d
    ensures MissingDependency(d) !in DependencyIssues(store, deps)
  {
  }

  /** A dependency that is neither a stored metric nor a table reference, one issue each, in order. */
  function DependencyIssues(store: Catalogue, deps: seq<string>): (r: seq<Issue>)
    ensures forall d :: MissingDependency(d) in r <==> d in deps && d !in store && !IsTableReference(d)
    ensures CircularDependency !in r
  {
    if |deps| == 0 then []
    else
      (if deps[0] !in store && !IsTableReference(deps[0]) then [MissingDependency(deps[0])] else [])
      + DependencyIssues(store, deps[1..])
  }

  function Issues(store: Catalogue, id: string): (r: seq<Issue>)
    requires id in store
    ensures forall d :: MissingDependency(d) in r <==> d in store[id].dependencies && d !in store && !IsTableReference(d)
    ensures CircularDependency in r <==> HasCircularDependency(store, id)
  {
    DependencyIssues(store, store[id].dependencies) + (if HasCircularDependency(store, id) then [CircularDependency] else [])
  }

  function Warnings(m: Metric): (r: seq<Warning>)
    ensures NotSql in r <==> !Contains(Upper(m.calculation), "SELECT")
    ensures NoOwner in r <==> m.owner == "Unassigned"
    ensures NoDataSource in r <==> m.dataSource == ""
  {
    (if !Contains(Upper(m.calculation), "SELECT") then [NotSql] else [])
    + (if m.owner == "Unassigned" then [NoOwner] else [])
    + (if m.dataSource == "" then [NoDataSource] else [])
  }

  /** A supplied test description records one more test and refreshes the update time. */
  function RecordTest(m: Metric, testDescription: string, now: Timestamp): (r: Metric)
    ensures testDescription == "" ==> r == m
    ensures testDescription != "" ==> r.testCount == m.testCount + 1 && r.updatedAt == now
    ensures r == m.(testCount := r.testCount, updatedAt := r.updatedAt)
  {
    if testDescription != "" then m.(testCount := m.testCount + 1, updatedAt := now) else m
  }

  /**
   * `validate_metric` as the source writes it: the "old" score is computed
   * after the test has already been recorded, so the report always shows
   * the same score before and after.
   */
  function ValidateMetricAsWritten(store: Catalogue, metricName: string, testDescription: string, now: Timestamp): (r: (Catalogue, Validation))
    ensures r.1 == NotFound <==> MetricId(metricName) !in store
    ensures r.1 == NotFound ==> r.0 == store
    ensures r.1.Validated? ==> r.1.oldTrust == r.1.newTrust
  {
    var id := MetricId(metricName);
    if id !in store then (store, NotFound)
    else
      var m := RecordTest(store[id], testDescription, now);
      var oldTrust := LegacyTrustScore(m, now);
      var newTrust := LegacyTrustScore(m, now);
      (store[id := m], Validated(Issues(store, id), Warnings(store[id]), m.testCount, oldTrust, newTrust))
  }

  /**
   * `validate_metric` with the score before the test taken before the test
   * is recorded. The test count rises by exactly one when a test description
   * is given and nothing else in the catalogue changes; the reported score
   * never falls.
   */
  function ValidateMetric(store: Catalogue, metricName: string, testDescription: string, now: Timestamp): (r: (Catalogue, Validation))
    ensures r.1 == NotFound <==> MetricId(metricName) !in store
    ensures r.1 == NotFound || testDescription == "" ==> r.0 == store
    ensures r.1.Validated? ==>
      MetricId(metricName) in store && r.0.Keys == store.Keys
      && (forall k :: k in store && k != MetricId(metricName) ==> r.0[k] == store[k])
    ensures r.1.Validated? && MetricId(metricName) in store && MetricId(metricName) in r.0 ==>
      var id := MetricId(metricName);
      var before := store[id];
      var after := r.0[id];
      after.testCount == before.testCount + (if testDescription != "" then 1 else 0)
      && after == before.(testCount := after.testCount, updatedAt := after.updatedAt)
      && r.1.testCount == after.testCount
      && r.1.oldTrust == LegacyTrustScore(before, now)
      && r.1.newTrust == LegacyTrustScore(after, now)
      && r.1.oldTrust <= r.1.newTrust
      && (CircularDependency in r.1.issues <==> HasCircularDependency(store, id))
      && (forall d :: MissingDependency(d) in r.1.issues <==> d in before.dependencies && d !in store && !IsTableReference(d))
      && (NotSql in r.1.warnings <==> !Contains(Upper(before.calculation), "SELECT"))
      && (NoOwner in r.1.warnings <==> before.owner == "Unassigned")
      && (NoDataSource in r.1.warnings <==> before.dataSource == "")
  {
    var id := MetricId(metricName);
    if id !in store then (store, NotFound)
    else
      var oldTrust := LegacyTrustScore(store[id], now);
      var m := RecordTest(store[id], testDescription, now);
      var newTrust := LegacyTrustScore(m, now);
      TrustScoring.TestCoverageNeverFalls(store[id].testCount, m.testCount);
      (store[id := m], Validated(Issues(store, id), Warnings(store[id]), m.testCount, oldTrust, newTrust))
  }

  /**
   * The two versions leave the same catalogue behind, but on a metric's
   * first test only the corrected one reports the gain: coverage goes from 0
   * to 15 points.
   */
  lemma FirstTestGainIsReported(store: Catalogue, metricName: string, testDescription: string, now: Timestamp)
    requires MetricId(metricName) in store && store[MetricId(metricName)].testCount == 0
    requires testDescription != ""
    ensures ValidateMetricAsWritten(store, metricName, testDescription, now).0 == ValidateMetric(store, metricName, testDescription, now).0
    ensures ValidateMetricAsWritten(store, metricName, testDescription, now).1.oldTrust
         == ValidateMetricAsWritten(store, metricName, testDescription, now).1.newTrust
    ensures ValidateMetric(store, metricName, testDescription, now).1.oldTrust + 15
         <= ValidateMetric(store, metricName, testDescription, now).1.newTrust
  {
  }

  // ---------------------------------------------------------------------
  // Recommendations, lookup, similarity

  datatype Suggestion = AddValidationTests | AssignAnOwner | SpecifyDataSource | AddTags | PromoteAdoption | KeepUpdated

  /** The gaps `_generate_recommendations` looks for, in its order. */
  function Gaps(m: Metric): (r: seq<Suggestion>)
    ensures |r| <= 5
    ensures KeepUpdated !in r
    ensures AddValidationTests in r <==> m.testCount == 0
    ensures AssignAnOwner in r <==> m.owner == "Unassigned"
    ensures SpecifyDataSource in r <==> m.dataSource == ""
    ensures AddTags in r <==> |m.tags| == 0
    ensures PromoteAdoption in r <==> m.usageCount == 0
  {
    (if m.testCount == 0 then [AddValidationTests] else [])
    + (if m.owner == "Unassigned" then [AssignAnOwner] else [])
    + (if m.dataSource == "" then [SpecifyDataSource] else [])
    + (if |m.tags| == 0 then [AddTags] else [])
    + (if m.usageCount == 0 then [PromoteAdoption] else [])
  }

  /** `_generate_recommendations`: one suggestion per gap, or "keep it updated" when there is none. */
  function GenerateRecommendations(m: Metric): (r: seq<Suggestion>)
    ensures 1 <= |r| <= 5
    ensures AddValidationTests in r <==> m.testCount == 0
    ensures AssignAnOwner in r <==> m.owner == "Unassigned"
    ensures SpecifyDataSource in r <==> m.dataSource == ""
    ensures AddTags in r <==> |m.tags| == 0
    ensures PromoteAdoption in r <==> m.usageCount == 0
    ensures KeepUpdated in r ==> r == [KeepUpdated]
  {
    var gaps := Gaps(m);
    if gaps == [] then [KeepUpdated] else gaps
  }

  /**
   * When the only suggestion is to keep the metric updated, a metric with an
   * owner and non-negative counters scores at least 50.
   */
  lemma OnlyKeepUpdatedMeansHealthy(m: Metric, now: Timestamp)
    requires m.owner != "" && m.testCount >= 0 && m.usageCount >= 0
    requires KeepUpdated in GenerateRecommendations(m)
    ensures LegacyTrustScore(m, now) >= 50
  {
    assert AddValidationTests !in GenerateRecommendations(m);
    assert PromoteAdoption !in GenerateRecommendations(m);
  }

  function SimilarIds(store: Catalogue, query: string): set<string> {
    set k | k in store && ContainsIgnoringCase(store[k].name, query)
  }

  /**
   * Every metric is filed under the id `define_metric` derives from its
   * name, as in a catalogue built by `define_metric` alone.
   */
  predicate IdsFromNames(store: Catalogue) {
    forall k :: k in store ==> k == MetricId(store[k].name)
  }

  /**
   * `_find_similar_metrics`: the names that contain the query, ignoring
   * case, one per matching metric, at most five of them and all of them
   * when there are no more than five. Which five is the map's iteration
   * order, which is not modelled.
   */
  method FindSimilarMetrics(store: Catalogue, query: string) returns (r: seq<string>)
    ensures |r| == if |SimilarIds(store, query)| < 5 then |SimilarIds(store, query)| else 5
    ensures forall i :: 0 <= i < |r| ==> ContainsIgnoringCase(r[i], query)
    ensures forall i :: 0 <= i < |r| ==> exists k :: k in SimilarIds(store, query) && store[k].name == r[i]
    ensures |SimilarIds(store, query)| <= 5 ==> forall k :: k in SimilarIds(store, query) ==> store[k].name in r
    ensures IdsFromNames(store) ==> forall i, j :: 0 <= i < j < |r| ==> r[i] != r[j]
  {
    var ids := SimilarIdList(store, query);
    var n := if |ids| <= 5 then |ids| else 5;
    r := seq(n, i requires 0 <= i < n => store[ids[i]].name);
    assert forall i :: 0 <= i < |r| ==> ids[i] in SimilarIds(store, query) && store[ids[i]].name == r[i];
    if |SimilarIds(store, query)| <= 5 {
      forall k | k in SimilarIds(store, query)
        ensures store[k].name in r
      {
        var i :| 0 <= i < |ids| && ids[i] == k;
        assert r[i] == store[k].name;
      }
    }
    if IdsFromNames(store) {
      forall i, j | 0 <= i < j < |r|
        ensures r[i] != r[j]
      {
        assert ids[i] == MetricId(r[i]) && ids[j] == MetricId(r[j]);
      }
    }
  }

  predicate NameMatches(store: Catalogue, query: string, k: string)
    requires k in store
  {
    ContainsIgnoringCase(store[k].name, query)
  }

  /** The ids of the matching metrics, each once, in iteration order. */
  method SimilarIdList(store: Catalogue, query: string) returns (ids: seq<string>)
    ensures forall i :: 0 <= i < |ids| ==> ids[i] in SimilarIds(store, query)
    ensures forall k :: k in SimilarIds(store, query) ==> exists i :: 0 <= i < |ids| && ids[i] == k
    ensures forall i, j :: 0 <= i < j < |ids| ==> ids[i] != ids[j]
    ensures |ids| == |SimilarIds(store, query)|
  {
    var remaining := store.Keys;
    ids := [];
    while remaining != {}
      invariant remaining <= store.Keys
      invariant forall i :: 0 <= i < |ids| ==> ids[i] in store && NameMatches(store, query, ids[i])
      invariant forall i :: 0 <= i < |ids| ==> ids[i] !in remaining
      invariant forall i, j :: 0 <= i < j < |ids| ==> ids[i] != ids[j]
      invariant forall k :: k in store.Keys - remaining && NameMatches(store, query, k) ==> k in ids
      invariant |ids| == |set k | k in store.Keys - remaining && NameMatches(store, query, k)|
      decreases remaining
    {
      var k :| k in remaining;
      ghost var before := set j | j in store.Keys - remaining && NameMatches(store, query, j);
      if NameMatches(store, query, k) {
        ids := ids + [k];
      }
      remaining := remaining - {k};
      ghost var after := set j | j in store.Keys - remaining && NameMatches(store, query, j);
      if NameMatches(store, query, k) {
        assert after == before + {k};
      } else {
        assert after == before;
      }
    }
    assert SimilarIds(store, query) == set k | k in store.Keys - remaining && NameMatches(store, query, k);
  }

  /** The distinct lower-cased words of a text. */
  function WordSet(s: string): set<string> {
    set w | w in Words(Lower(s))
  }

  lemma {:induction false} SubsetCardinality(a: set<string>, b: set<string>)
    requires a <= b
    ensures |a| <= |b|
    decreases |a|
  {
    if a != {} {
      var x :| x in a;
      SubsetCardinality(a - {x}, b - {x});
    }
  }

  lemma RatioInUnit(num: real, den: real)
    requires 0.0 <= num <= den && den > 0.0
    ensures 0.0 <= num / den <= 1.0
  {
    assert num / den * den == num;
  }

  /** The Jaccard index `|a & b| / |a | b|` of two sets that are not both empty. */
  function Jaccard(a: set<string>, b: set<string>): (r: real)
    requires a + b != {}
    ensures 0.0 <= r <= 1.0
  {
    SubsetCardinality(a * b, a + b);
    assert |a + b| > 0;
    RatioInUnit(|a * b| as real, |a + b| as real);
    |a * b| as real / |a + b| as real
  }

  function TagSet(m: Metric): set<string> {
    set t | t in m.tags
  }

  /**
   * `_calculate_similarity`: 0.4 times the Jaccard index of the description
   * words, 0.3 times that of the tags, and 0.3 for a shared, non-empty data
   * source.
   */
  function CalculateSimilarity(m1: Metric, m2: Metric): (r: real)
    ensures 0.0 <= r <= 1.0
  {
    var d1 := WordSet(m1.description);
    var d2 := WordSet(m2.description);
    var description := if d1 != {} && d2 != {} then Jaccard(d1, d2) * 0.4 else 0.0;
    var t1 := TagSet(m1);
    var t2 := TagSet(m2);
    var tags := if t1 != {} || t2 != {} then Jaccard(t1, t2) * 0.3 else 0.0;
    var source := if m1.dataSource == m2.dataSource && m1.dataSource != "" then 0.3 else 0.0;
    description + tags + source
  }

  /** Similarity does not depend on the order of its arguments. */
  lemma SimilaritySymmetric(m1: Metric, m2: Metric)
    ensures CalculateSimilarity(m1, m2) == CalculateSimilarity(m2, m1)
  {
    assert WordSet(m1.description) * WordSet(m2.description) == WordSet(m2.description) * WordSet(m1.description);
    assert WordSet(m1.description) + WordSet(m2.description) == WordSet(m2.description) + WordSet(m1.description);
    assert TagSet(m1) * TagSet(m2) == TagSet(m2) * TagSet(m1);
    assert TagSet(m1) + TagSet(m2) == TagSet(m2) + TagSet(m1);
  }

  /** A metric with description words, tags and a data source is fully similar to itself. */
  lemma FullyDescribedMetricMatchesItself(m: Metric)
    requires WordSet(m.description) != {} && |m.tags| > 0 && m.dataSource != ""
    ensures CalculateSimilarity(m, m) == 1.0
  {
    var d := WordSet(m.description);
    var t := TagSet(m);
    assert m.tags[0] in t;
    assert d * d == d && d + d == d;
    assert t * t == t && t + t == t;
    assert |d| > 0 && |t| > 0;
    assert Jaccard(d, d) == 1.0;
    assert Jaccard(t, t) == 1.0;
  }
}
