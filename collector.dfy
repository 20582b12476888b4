/** The inventory collector: authenticates against each cluster in turn and
    scans every namespace of the clusters that accepted, merging all rows
    into one snapshot. The authentication exchange, the workload query and
    the timestamp arithmetic are outside this model and enter as functions
    of their inputs. */
module Collector {
  import opened Wrappers
  import opened Results
  import opened Runner
  import opened Scanner
  import Catalog

  /** One (cluster, endpoint) entry of the catalog, its namespace set
      enumerated in the order the scans happen to run. */
  datatype Target = Target(cluster: string, api: string, namespaces: seq<string>)

  /** auth(cluster, api): whether the authentication exchange succeeded.
      query(cluster, api, ns): the query's output, None when it failed. */
  type Auth = (string, string) -> bool
  type Query = (string, string, string) -> Option<string>

  function NamespaceScanner(cluster: string, api: string, query: Query,
                            elapsed: string -> Option<int>): string -> Result<seq<Record>, ScanError>
  {
    ns => ScanNamespace(cluster, api, ns, query(cluster, api, ns), elapsed)
  }

  /** The rows one cluster contributes: none when authentication fails,
      otherwise the rows of all its namespaces. */
  function ClusterRecords(t: Target, auth: Auth, query: Query,
                          elapsed: string -> Option<int>): Result<seq<Record>, ScanError>
  {
    if auth(t.cluster, t.api) then ConcatMap(t.namespaces, NamespaceScanner(t.cluster, t.api, query, elapsed))
    else Ok([])
  }

  function ClusterCollector(auth: Auth, query: Query,
                            elapsed: string -> Option<int>): Target -> Result<seq<Record>, ScanError>
  {
    t => ClusterRecords(t, auth, query, elapsed)
  }

  /** The snapshot of a collection pass over the targets, or the error that
      ended it. */
  function Collect(targets: seq<Target>, auth: Auth, query: Query,
                   elapsed: string -> Option<int>): Result<seq<Record>, ScanError>
  {
    ConcatMap(targets, ClusterCollector(auth, query, elapsed))
  }

  /** The collection loop: cluster after cluster, skipping those that fail
      to authenticate, appending each namespace's rows to the snapshot. */
  method CollectSnapshot(targets: seq<Target>, auth: Auth, query: Query,
                         elapsed: string -> Option<int>) returns (r: Result<seq<Record>, ScanError>)
    ensures r == Collect(targets, auth, query, elapsed)
  {
    ghost var collector := ClusterCollector(auth, query, elapsed);
    var snapshot: seq<Record> := [];
    for c := 0 to |targets|
      invariant ConcatMap(targets[..c], collector) == Ok(snapshot)
    {
      ConcatMapStep(targets, c, collector);
      var t := targets[c];
      if !auth(t.cluster, t.api) {
        assert snapshot + [] == snapshot;
        continue;
      }
      ghost var scan := NamespaceScanner(t.cluster, t.api, query, elapsed);
      var clusterRows: seq<Record> := [];
      for k := 0 to |t.namespaces|
        invariant ConcatMap(t.namespaces[..k], scan) == Ok(clusterRows)
      {
        ConcatMapStep(t.namespaces, k, scan);
        var ns := t.namespaces[k];
        var rows := ProcessNamespace(t.cluster, t.api, ns, query(t.cluster, t.api, ns), elapsed);
        assert scan(ns) == rows;
        if rows.Err? {
          r := Err(rows.error);
          ConcatMapFailedPrefix(t.namespaces, k + 1, scan);
          ConcatMapFailedPrefix(targets, c + 1, collector);
          return;
        }
        clusterRows := clusterRows + rows.value;
      }
      assert t.namespaces[..|t.namespaces|] == t.namespaces;
      assert collector(t) == Ok(clusterRows);
      snapshot := snapshot + clusterRows;
    }
    assert targets[..|targets|] == targets;
    r := Ok(snapshot);
  }

  /** Every row of a snapshot was scanned in a namespace of a cluster that
      authenticated, and carries one of the three status names. */
  lemma CollectProvenance(targets: seq<Target>, auth: Auth, query: Query,
                          elapsed: string -> Option<int>, rec: Record)
    requires Collect(targets, auth, query, elapsed).Ok?
    requires rec in Collect(targets, auth, query, elapsed).value
    ensures exists t :: t in targets && auth(t.cluster, t.api) && rec.cluster == t.cluster
                        && rec.api == t.api && rec.namespace in t.namespaces
    ensures rec.status in {"Running", "Failed", "Pending"}
  {
    var collector := ClusterCollector(auth, query, elapsed);
    ConcatMapProvenance(targets, collector, rec);
    var i :| 0 <= i < |targets| && collector(targets[i]).Ok? && rec in collector(targets[i]).value;
    ClusterProvenance(targets[i], auth, query, elapsed, rec);
  }

  /** Conversely, a successful pass keeps every row of every namespace of
      every cluster that authenticated: each such namespace's scan succeeded,
      and its rows are all in the snapshot, each at least as often as the
      scan produced it. */
  lemma CollectComplete(targets: seq<Target>, auth: Auth, query: Query,
                        elapsed: string -> Option<int>, t: Target, ns: string)
    requires Collect(targets, auth, query, elapsed).Ok?
    requires t in targets && auth(t.cluster, t.api) && ns in t.namespaces
    ensures ScanNamespace(t.cluster, t.api, ns, query(t.cluster, t.api, ns), elapsed).Ok?
    ensures multiset(ScanNamespace(t.cluster, t.api, ns, query(t.cluster, t.api, ns), elapsed).value)
         <= multiset(Collect(targets, auth, query, elapsed).value)
  {
    var collector := ClusterCollector(auth, query, elapsed);
    var scan := NamespaceScanner(t.cluster, t.api, query, elapsed);
    var c :| 0 <= c < |targets| && targets[c] == t;
    var k :| 0 <= k < |t.namespaces| && t.namespaces[k] == ns;
    ConcatMapContains(targets, c, collector);
    assert collector(t) == ConcatMap(t.namespaces, scan);
    ConcatMapContains(t.namespaces, k, scan);
  }

  /** rec is a row of the successful scan of namespace ns of cluster t,
      which authenticated. */
  ghost predicate ScannedIn(t: Target, ns: string, auth: Auth, query: Query,
                            elapsed: string -> Option<int>, rec: Record)
  {
    auth(t.cluster, t.api) && ns in t.namespaces
    && ScanNamespace(t.cluster, t.api, ns, query(t.cluster, t.api, ns), elapsed).Ok?
    && rec in ScanNamespace(t.cluster, t.api, ns, query(t.cluster, t.api, ns), elapsed).value
  }

  /** Hence a row is in the snapshot exactly when some namespace of some
      cluster that authenticated scanned it. */
  lemma CollectMembers(targets: seq<Target>, auth: Auth, query: Query,
                       elapsed: string -> Option<int>, rec: Record)
    requires Collect(targets, auth, query, elapsed).Ok?
    ensures rec in Collect(targets, auth, query, elapsed).value <==>
      exists t, ns :: t in targets && ScannedIn(t, ns, auth, query, elapsed, rec)
  {
    if rec in Collect(targets, auth, query, elapsed).value {
      var t, ns := CollectedFrom(targets, auth, query, elapsed, rec);
    }
    if exists t, ns :: t in targets && ScannedIn(t, ns, auth, query, elapsed, rec) {
      var t, ns :| t in targets && ScannedIn(t, ns, auth, query, elapsed, rec);
      CollectedRow(targets, auth, query, elapsed, t, ns, rec);
    }
  }

  /** The namespace a collected row was scanned in. */
  lemma CollectedFrom(targets: seq<Target>, auth: Auth, query: Query,
                      elapsed: string -> Option<int>, rec: Record) returns (t: Target, ns: string)
    requires Collect(targets, auth, query, elapsed).Ok?
    requires rec in Collect(targets, auth, query, elapsed).value
    ensures t in targets && ScannedIn(t, ns, auth, query, elapsed, rec)
  {
    var collector := ClusterCollector(auth, query, elapsed);
    ConcatMapProvenance(targets, collector, rec);
    var c :| 0 <= c < |targets| && collector(targets[c]).Ok? && rec in collector(targets[c]).value;
    t := targets[c];
    var scan := NamespaceScanner(t.cluster, t.api, query, elapsed);
    ConcatMapProvenance(t.namespaces, scan, rec);
    var k :| 0 <= k < |t.namespaces| && scan(t.namespaces[k]).Ok? && rec in scan(t.namespaces[k]).value;
    ns := t.namespaces[k];
  }

  /** A row some authenticated namespace scanned is collected. */
  lemma CollectedRow(targets: seq<Target>, auth: Auth, query: Query,
                     elapsed: string -> Option<int>, t: Target, ns: string, rec: Record)
    requires Collect(targets, auth, query, elapsed).Ok?
    requires t in targets && ScannedIn(t, ns, auth, query, elapsed, rec)
    ensures rec in Collect(targets, auth, query, elapsed).value
  {
    CollectComplete(targets, auth, query, elapsed, t, ns);
    var scanned := ScanNamespace(t.cluster, t.api, ns, query(t.cluster, t.api, ns), elapsed).value;
    assert rec in multiset(scanned);
  }

  /** The targets enumerate a catalog the way the collection pass iterates
      it: one target per (cluster, endpoint) key, each key once, and each
      target's namespaces that key's namespace set, each namespace once. */
  ghost predicate Enumerates(targets: seq<Target>, catalog: Catalog.Catalog)
  {
    (forall i, j :: 0 <= i < j < |targets| ==>
       (targets[i].cluster, targets[i].api) != (targets[j].cluster, targets[j].api))
    && (forall i :: 0 <= i < |targets| ==>
          (targets[i].cluster, targets[i].api) in catalog
          && (forall p, q :: 0 <= p < q < |targets[i].namespaces| ==> targets[i].namespaces[p] != targets[i].namespaces[q])
          && (set ns | ns in targets[i].namespaces) == catalog[(targets[i].cluster, targets[i].api)])
    && (forall key :: key in catalog ==> exists i :: 0 <= i < |targets| && (targets[i].cluster, targets[i].api) == key)
  }

  /** Over a catalog, every collected row comes from one of the catalog's
      namespaces, and every row scanned in a catalog namespace of a cluster
      that authenticated is collected. */
  lemma CollectFromCatalog(targets: seq<Target>, catalog: Catalog.Catalog, auth: Auth, query: Query,
                           elapsed: string -> Option<int>, rec: Record)
    requires Enumerates(targets, catalog)
    requires Collect(targets, auth, query, elapsed).Ok?
    ensures rec in Collect(targets, auth, query, elapsed).value ==>
      (rec.cluster, rec.api) in catalog && rec.namespace in catalog[(rec.cluster, rec.api)]
    ensures forall key, ns ::
      (key in catalog && ns in catalog[key] && auth(key.0, key.1)
       && ScanNamespace(key.0, key.1, ns, query(key.0, key.1, ns), elapsed).Ok?
       && rec in ScanNamespace(key.0, key.1, ns, query(key.0, key.1, ns), elapsed).value)
      ==> rec in Collect(targets, auth, query, elapsed).value
  {
    if rec in Collect(targets, auth, query, elapsed).value {
      var t, ns := CollectedFrom(targets, auth, query, elapsed, rec);
      ScanNamespaceRows(t.cluster, t.api, ns, query(t.cluster, t.api, ns), elapsed, rec);
      var i :| 0 <= i < |targets| && targets[i] == t;
      assert ns in (set n | n in targets[i].namespaces);
    }
    forall key, ns | key in catalog && ns in catalog[key] && auth(key.0, key.1)
      && ScanNamespace(key.0, key.1, ns, query(key.0, key.1, ns), elapsed).Ok?
      && rec in ScanNamespace(key.0, key.1, ns, query(key.0, key.1, ns), elapsed).value
      ensures rec in Collect(targets, auth, query, elapsed).value
    {
      var i :| 0 <= i < |targets| && (targets[i].cluster, targets[i].api) == key;
      var t := targets[i];
      assert ns in (set n | n in t.namespaces);
      CollectedRow(targets, auth, query, elapsed, t, ns, rec);
    }
  }

  /** The same for the rows of one cluster. */
  lemma ClusterProvenance(t: Target, auth: Auth, query: Query,
                          elapsed: string -> Option<int>, rec: Record)
    requires ClusterRecords(t, auth, query, elapsed).Ok?
    requires rec in ClusterRecords(t, auth, query, elapsed).value
    ensures auth(t.cluster, t.api) && rec.cluster == t.cluster && rec.api == t.api
    ensures rec.namespace in t.namespaces
    ensures rec.status in {"Running", "Failed", "Pending"}
  {
    var scan := NamespaceScanner(t.cluster, t.api, query, elapsed);
    ConcatMapProvenance(t.namespaces, scan, rec);
    var k :| 0 <= k < |t.namespaces| && scan(t.namespaces[k]).Ok? && rec in scan(t.namespaces[k]).value;
    var ns := t.namespaces[k];
    ScanNamespaceRows(t.cluster, t.api, ns, query(t.cluster, t.api, ns), elapsed, rec);
  }

  /** A cluster that fails to authenticate contributes nothing: the pass
      goes on as if it were not in the catalog. */
  lemma UnauthenticatedClusterSkipped(before: seq<Target>, t: Target, after: seq<Target>,
                                      auth: Auth, query: Query, elapsed: string -> Option<int>)
    requires !auth(t.cluster, t.api)
    ensures Collect(before + [t] + after, auth, query, elapsed) == Collect(before + after, auth, query, elapsed)
  {
    var collector := ClusterCollector(auth, query, elapsed);
    ConcatMapAppend(before + [t], after, collector);
    ConcatMapAppend(before, [t], collector);
    ConcatMapAppend(before, after, collector);
    assert [t][..0] == [];
    var b := ConcatMap(before, collector);
    assert b.Ok? ==> b.value + [] == b.value;
  }

  /** A namespace whose query fails contributes nothing. */
  lemma FailedQuerySkipped(cluster: string, api: string, before: seq<string>, ns: string, after: seq<string>,
                           query: Query, elapsed: string -> Option<int>)
    requires query(cluster, api, ns) == None
    ensures ConcatMap(before + [ns] + after, NamespaceScanner(cluster, api, query, elapsed))
         == ConcatMap(before + after, NamespaceScanner(cluster, api, query, elapsed))
  {
    var scan := NamespaceScanner(cluster, api, query, elapsed);
    ConcatMapAppend(before + [ns], after, scan);
    ConcatMapAppend(before, [ns], scan);
    ConcatMapAppend(before, after, scan);
    assert [ns][..0] == [];
    var b := ConcatMap(before, scan);
    assert b.Ok? ==> b.value + [] == b.value;
  }

  /** The order in which the namespaces of a cluster are scanned changes
      neither whether the pass succeeds nor which rows it collects. */
  lemma NamespaceOrderIrrelevant(t: Target, t': Target, auth: Auth, query: Query,
                                 elapsed: string -> Option<int>)
    requires t.cluster == t'.cluster && t.api == t'.api
    requires multiset(t.namespaces) == multiset(t'.namespaces)
    ensures SameElements(ClusterRecords(t, auth, query, elapsed), ClusterRecords(t', auth, query, elapsed))
  {
    ConcatMapPermutation(t.namespaces, t'.namespaces, NamespaceScanner(t.cluster, t.api, query, elapsed));
  }

  /** The order in which clusters are visited, and within each the order of
      its namespaces, changes neither whether the pass succeeds nor which
      rows it collects. */
  lemma CollectOrderIrrelevant(targets: seq<Target>, reordered: seq<Target>, renumbered: seq<Target>,
                               auth: Auth, query: Query, elapsed: string -> Option<int>)
    requires multiset(targets) == multiset(reordered)
    requires |reordered| == |renumbered|
    requires forall i :: 0 <= i < |reordered| ==>
               reordered[i].cluster == renumbered[i].cluster && reordered[i].api == renumbered[i].api
               && multiset(reordered[i].namespaces) == multiset(renumbered[i].namespaces)
    ensures SameElements(Collect(targets, auth, query, elapsed), Collect(renumbered, auth, query, elapsed))
  {
    var collector := ClusterCollector(auth, query, elapsed);
    ConcatMapPermutation(targets, reordered, collector);
    forall i | 0 <= i < |reordered|
      ensures SameElements(collector(reordered[i]), collector(renumbered[i]))
    {
      NamespaceOrderIrrelevant(reordered[i], renumbered[i], auth, query, elapsed);
    }
    ConcatMapPointwise(reordered, collector, renumbered, collector);
  }

  /** One authenticated cluster with two namespaces, the second of whose
      queries fails: the snapshot holds exactly the first one's rows. */
  lemma OneNamespaceFails(cluster: string, api: string, a: string, b: string,
                          auth: Auth, query: Query, elapsed: string -> Option<int>, rows: seq<Record>)
    requires auth(cluster, api)
    requires query(cluster, api, b) == None
    requires ScanNamespace(cluster, api, a, query(cluster, api, a), elapsed) == Ok(rows)
    ensures Collect([Target(cluster, api, [a, b])], auth, query, elapsed) == Ok(rows)
  {
    var scan := NamespaceScanner(cluster, api, query, elapsed);
    var collector := ClusterCollector(auth, query, elapsed);
    var t := Target(cluster, api, [a, b]);
    assert ConcatMap([a, b], scan) == Ok(rows) by {
      assert scan(a) == Ok(rows) && scan(b) == Ok([]);
      ConcatMapStep([a, b], 0, scan);
      ConcatMapStep([a, b], 1, scan);
      assert [a, b][..0] == [] && [a, b][..2] == [a, b];
      assert [] + rows + [] == rows;
    }
    assert collector(t) == Ok(rows);
    ConcatMapStep([t], 0, collector);
    assert [t][..0] == [] && [t][..1] == [t];
    assert [] + rows == rows;
  }
}
