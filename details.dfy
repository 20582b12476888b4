/** The -details report: the snapshot's rows grouped by cluster and then by
    namespace, and per cluster the number of namespaces checked, of runners,
    of running runners and of the others. */
module Details {
  import opened Wrappers
  import opened Text
  import opened Runner
  import opened Snapshot

  /** A cluster is named by its name and API endpoint together. */
  type ClusterKey = (string, string)

  function ClusterOf(r: Record): ClusterKey
  {
    (r.cluster, r.api)
  }

  function NamespaceOf(r: Record): string
  {
    r.namespace
  }

  /** The cluster -> namespace -> rows dictionary: the clusters in
      first-seen order and, for each, its rows grouped by namespace. */
  datatype Nested = Nested(clusters: seq<ClusterKey>, byCluster: map<ClusterKey, Grouping<string, Record>>)

  function NestedOf(rows: seq<Record>): Nested
  {
    var g := GroupBy(rows, ClusterOf, Whole);
    Nested(g.order, ByNamespace(g.groups))
  }

  /** Each cluster's rows grouped by namespace. */
  function ByNamespace(groups: map<ClusterKey, seq<Record>>): map<ClusterKey, Grouping<string, Record>>
  {
    map k | k in groups :: GroupBy(groups[k], NamespaceOf, Whole)
  }

  lemma ByNamespaceUpdate(groups: map<ClusterKey, seq<Record>>, k: ClusterKey, rows: seq<Record>)
    ensures ByNamespace(groups[k := rows]) == ByNamespace(groups)[k := GroupBy(rows, NamespaceOf, Whole)]
  {
  }

  /** details[cluster][namespace].append(row), where a missing cluster or
      namespace starts out empty. */
  function AddNested(n: Nested, row: Record): Nested
  {
    var k := ClusterOf(row);
    var inner := if k in n.byCluster then n.byCluster[k] else Grouping([], map[]);
    Nested(if k in n.byCluster then n.clusters else n.clusters + [k],
           n.byCluster[k := Insert(inner, NamespaceOf(row), row)])
  }

  lemma GroupByAppend<K(!new)>(rows: seq<Record>, row: Record, key: Record -> K)
    ensures GroupBy(rows + [row], key, Whole) == Insert(GroupBy(rows, key, Whole), key(row), row)
  {
    assert (rows + [row])[..|rows|] == rows;
  }

  lemma NestedStep(rows: seq<Record>, i: nat)
    requires i < |rows|
    ensures NestedOf(rows[..i + 1]) == AddNested(NestedOf(rows[..i]), rows[i])
  {
    assert rows[..i + 1] == rows[..i] + [rows[i]];
    var g := GroupBy(rows[..i], ClusterOf, Whole);
    var k := ClusterOf(rows[i]);
    GroupByAppend(rows[..i], rows[i], ClusterOf);
    if k in g.groups {
      GroupByAppend(g.groups[k], rows[i], NamespaceOf);
      ByNamespaceUpdate(g.groups, k, g.groups[k] + [rows[i]]);
    } else {
      GroupByAppend([], rows[i], NamespaceOf);
      assert [] + [rows[i]] == [rows[i]];
      ByNamespaceUpdate(g.groups, k, [rows[i]]);
    }
  }

  /** The grouping loop of the report. */
  method GroupDetails(rows: seq<Record>) returns (n: Nested)
    ensures n == NestedOf(rows)
  {
    var clusters: seq<ClusterKey> := [];
    var details: map<ClusterKey, Grouping<string, Record>> := map[];
    for i := 0 to |rows|
      invariant NestedOf(rows[..i]) == Nested(clusters, details)
    {
      NestedStep(rows, i);
      var row := rows[i];
      var key := (row.cluster, row.api);
      var nsMap := if key in details then details[key] else Grouping([], map[]);
      if key !in details {
        clusters := clusters + [key];
      }
      var ns := row.namespace;
      if ns in nsMap.groups {
        nsMap := Grouping(nsMap.order, nsMap.groups[ns := nsMap.groups[ns] + [row]]);
      } else {
        nsMap := Grouping(nsMap.order + [ns], nsMap.groups[ns := [row]]);
      }
      details := details[key := nsMap];
    }
    assert rows[..|rows|] == rows;
    n := Nested(clusters, details);
  }

  /** The four counters printed for a cluster. */
  datatype ClusterStats = ClusterStats(nsChecked: nat, totalRunners: nat, running: nat, notRunning: nat)

  /** The counters of a cluster with the given rows: its distinct
      namespaces, its runners, those whose lower-cased status is "running",
      and all the others. */
  function StatsOf(rows: seq<Record>): ClusterStats
  {
    var c := CountsOf(rows);
    CountsOfBounds(rows);
    ClusterStats(|GroupBy(rows, NamespaceOf, Whole).order|, c.total, c.running, c.total - c.running)
  }

  /** The counting loops for one cluster: over its namespaces, and over
      each namespace's rows. */
  method CountCluster(nsMap: Grouping<string, Record>) returns (s: ClusterStats)
    requires forall ns :: ns in nsMap.order ==> ns in nsMap.groups
    ensures s.nsChecked == |nsMap.order|
    ensures s.totalRunners == SumCounts(nsMap.order, CountsByGroup(nsMap.groups)).total
    ensures s.running == SumCounts(nsMap.order, CountsByGroup(nsMap.groups)).running
    ensures s.notRunning + s.running == s.totalRunners
  {
    var counts := CountsByGroup(nsMap.groups);
    var nsChecked := 0;
    var totalRunners := 0;
    var runningCount := 0;
    var notRunningCount := 0;
    for j := 0 to |nsMap.order|
      invariant nsChecked == j
      invariant totalRunners == SumCounts(nsMap.order[..j], counts).total
      invariant runningCount == SumCounts(nsMap.order[..j], counts).running
      invariant notRunningCount + runningCount == totalRunners
    {
      assert nsMap.order[..j + 1][..j] == nsMap.order[..j];
      var runnerRows := nsMap.groups[nsMap.order[j]];
      ghost var before := SumCounts(nsMap.order[..j], counts);
      for m := 0 to |runnerRows|
        invariant totalRunners == before.total + CountsOf(runnerRows[..m]).total
        invariant runningCount == before.running + CountsOf(runnerRows[..m]).running
        invariant notRunningCount + runningCount == totalRunners
      {
        assert runnerRows[..m + 1][..m] == runnerRows[..m];
        var row := runnerRows[m];
        totalRunners := totalRunners + 1;
        if Lower(row.status) == "running" {
          runningCount := runningCount + 1;
        } else {
          notRunningCount := notRunningCount + 1;
        }
      }
      assert runnerRows[..|runnerRows|] == runnerRows;
      nsChecked := nsChecked + 1;
    }
    assert nsMap.order[..|nsMap.order|] == nsMap.order;
    s := ClusterStats(nsChecked, totalRunners, runningCount, notRunningCount);
  }

  /** What the counters of a cluster with the given rows say: one runner
      per row, running and not running runners adding up to them, and as
      many namespaces checked as there are distinct namespaces among the
      rows, at least one for a cluster with rows and never more than its
      runners. */
  lemma StatsMeaning(rows: seq<Record>)
    ensures var s := StatsOf(rows);
            s.totalRunners == |rows| && s.running + s.notRunning == s.totalRunners &&
            s.nsChecked == |Namespaces(rows)| &&
            s.nsChecked <= s.totalRunners && (rows != [] ==> 1 <= s.nsChecked)
  {
    CountsOfBounds(rows);
    NamespacesChecked(rows);
    NamespaceCount(rows);
    if rows != [] {
      assert rows[0].namespace in Namespaces(rows);
    }
  }

  /** The distinct namespaces of some rows. */
  function Namespaces(rows: seq<Record>): set<string>
  {
    set i | 0 <= i < |rows| :: rows[i].namespace
  }

  lemma NamespacesChecked(rows: seq<Record>)
    ensures |GroupBy(rows, NamespaceOf, Whole).order| == |Namespaces(rows)|
  {
    GroupCount(rows, NamespaceOf, Whole);
    forall x
      ensures x in KeysOf(rows, NamespaceOf) <==> x in Namespaces(rows)
    {
      if x in Namespaces(rows) {
        var i :| 0 <= i < |rows| && rows[i].namespace == x;
        assert NamespaceOf(rows[i]) == x;
      }
    }
    assert KeysOf(rows, NamespaceOf) == Namespaces(rows);
  }

  /** The counting loops compute the counters of a cluster's rows. */
  lemma StatsFromCounters(rows: seq<Record>, s: ClusterStats)
    requires var byNs := GroupBy(rows, NamespaceOf, Whole);
             s.nsChecked == |byNs.order| &&
             s.totalRunners == SumCounts(byNs.order, CountsByGroup(byNs.groups)).total &&
             s.running == SumCounts(byNs.order, CountsByGroup(byNs.groups)).running &&
             s.notRunning + s.running == s.totalRunners
    ensures s == StatsOf(rows)
  {
    GroupCountsSum(rows, NamespaceOf);
  }

  /** The counters of every cluster. */
  function StatsByCluster(rows: seq<Record>): map<ClusterKey, ClusterStats>
  {
    var g := GroupBy(rows, ClusterOf, Whole);
    map k | k in g.groups :: StatsOf(g.groups[k])
  }

  /** The report: the clusters in first-seen order, each cluster's rows by
      namespace, and each cluster's counters. */
  datatype Report = Report(clusters: seq<ClusterKey>, namespaces: map<ClusterKey, Grouping<string, Record>>,
                           stats: map<ClusterKey, ClusterStats>)

  function DetailsOf(rows: seq<Record>): Report
  {
    var n := NestedOf(rows);
    Report(n.clusters, n.byCluster, StatsByCluster(rows))
  }

  /** The whole report: group, then count cluster by cluster. */
  method ReportDetails(rows: seq<Record>) returns (report: Report)
    ensures report == DetailsOf(rows)
  {
    var n := GroupDetails(rows);
    ghost var g := GroupBy(rows, ClusterOf, Whole);
    var stats := CountClusters(n.clusters, n.byCluster, g.groups);
    assert stats == StatsByCluster(rows);
    report := Report(n.clusters, n.byCluster, stats);
  }

  /** The outer counting loop: one counter pass per cluster, in order. */
  method CountClusters(clusters: seq<ClusterKey>, byCluster: map<ClusterKey, Grouping<string, Record>>,
                       ghost groups: map<ClusterKey, seq<Record>>)
    returns (stats: map<ClusterKey, ClusterStats>)
    requires forall k :: k in groups <==> k in clusters
    requires byCluster == ByNamespace(groups)
    ensures stats == map k | k in groups :: StatsOf(groups[k])
  {
    stats := map[];
    for j := 0 to |clusters|
      invariant forall k :: k in stats <==> k in clusters[..j]
      invariant forall k :: k in stats ==> stats[k] == StatsOf(groups[k])
    {
      var key := clusters[j];
      assert clusters[..j + 1] == clusters[..j] + [key];
      var s := CountCluster(byCluster[key]);
      StatsFromCounters(groups[key], s);
      stats := stats[key := s];
    }
    assert clusters[..|clusters|] == clusters;
  }

  /** A cluster has counters exactly when some row names it, and they are
      the counters of exactly its rows. */
  lemma ClusterCounters(rows: seq<Record>, k: ClusterKey)
    ensures k in StatsByCluster(rows) <==> exists i :: 0 <= i < |rows| && ClusterOf(rows[i]) == k
    ensures k in StatsByCluster(rows) ==>
              StatsByCluster(rows)[k] == StatsOf(Matching(rows, ClusterOf, Whole, k)) &&
              Matching(rows, ClusterOf, Whole, k) != []
  {
    GroupByMembers(rows, ClusterOf, Whole);
  }

  /** A cluster's rows have no more distinct namespaces than rows. */
  lemma {:induction false} NamespaceCount(rows: seq<Record>)
    ensures |Namespaces(rows)| <= |rows|
  {
    if rows != [] {
      var prefix := rows[..|rows| - 1];
      NamespaceCount(prefix);
      assert Namespaces(rows) == Namespaces(prefix) + {rows[|rows| - 1].namespace};
    }
  }

  /** Across clusters the runners add up to the snapshot's rows. */
  lemma DetailsTotal(rows: seq<Record>)
    ensures forall k :: k in DetailsOf(rows).clusters ==> k in DetailsOf(rows).stats
    ensures SumOf(DetailsOf(rows).clusters, map k | k in DetailsOf(rows).stats :: DetailsOf(rows).stats[k].totalRunners)
            == |rows|
  {
    var g := GroupBy(rows, ClusterOf, Whole);
    var stats := StatsByCluster(rows);
    var totals := map k | k in stats :: stats[k].totalRunners;
    forall k | k in g.groups
      ensures totals[k] == SizesOf(g.groups)[k]
    {
      CountsOfBounds(g.groups[k]);
    }
    assert totals == SizesOf(g.groups);
    GroupSizesSum(rows, ClusterOf, Whole);
  }

  // ------------------------------------------------- the branch as written

  /** The details branch given the value of main's local rows, which is
      None while that variable is unbound: iterating over it raises. */
  function DetailsBranch(rowsLocal: Option<seq<Record>>): Result<Report, string>
  {
    match rowsLocal
    case None => Err("UnboundLocalError: local variable 'rows' referenced before assignment")
    case Some(rows) => Ok(DetailsOf(rows))
  }

  /** As written, the branch runs before main reads the snapshot back into
      rows, so rows is still unbound whatever the snapshot holds. */
  function DetailsAsWritten(snapshot: seq<Record>): Result<Report, string>
  {
    DetailsBranch(None)
  }

  /** As evidently intended: the branch reports on the snapshot. */
  function DetailsIntended(snapshot: seq<Record>): Result<Report, string>
  {
    DetailsBranch(Some(snapshot))
  }

  /** As written the branch never reports, not even on a snapshot whose
      cluster the intended report lists with its runner. */
  lemma DetailsAsWrittenNeverReports(snapshot: seq<Record>, r: Record)
    requires r in snapshot
    ensures DetailsAsWritten(snapshot).Err?
    ensures DetailsIntended(snapshot).Ok? && ClusterOf(r) in DetailsIntended(snapshot).value.stats
  {
    var i :| 0 <= i < |snapshot| && snapshot[i] == r;
    ClusterCounters(snapshot, ClusterOf(r));
    assert DetailsIntended(snapshot).value.stats == StatsByCluster(snapshot);
  }
}
