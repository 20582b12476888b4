/** The target catalog: the rows of the catalog file grouped into one set
    of namespaces per (cluster, API endpoint) pair. */
module Catalog {
  import opened Wrappers

  type Key = (string, string)

  type Catalog = map<Key, set<string>>

  /** Why reading the catalog raises: a row of fewer than three fields
      cannot be unpacked into cluster, endpoint and namespace. */
  datatype CatalogError = ShortRow(index: nat)

  /** clusters.setdefault(key, set()).add(ns) */
  function AddRow(clusters: Catalog, key: Key, ns: string): Catalog
  {
    clusters[key := (if key in clusters then clusters[key] else {}) + {ns}]
  }

  /** The catalog read from the rows, row by row; the first short row raises. */
  function CatalogOf(rows: seq<seq<string>>): Result<Catalog, CatalogError>
  {
    if rows == [] then Ok(map[])
    else
      match CatalogOf(rows[..|rows| - 1])
      case Err(e) => Err(e)
      case Ok(clusters) =>
        var row := rows[|rows| - 1];
        if |row| < 3 then Err(ShortRow(|rows| - 1))
        else Ok(AddRow(clusters, (row[0], row[1]), row[2]))
  }

  /** read_clusters_and_namespaces, on the rows the CSV reader yields. */
  method ReadClustersAndNamespaces(rows: seq<seq<string>>) returns (r: Result<Catalog, CatalogError>)
    ensures r == CatalogOf(rows)
  {
    var clusters: Catalog := map[];
    for i := 0 to |rows|
      invariant CatalogOf(rows[..i]) == Ok(clusters)
    {
      assert rows[..i + 1][..i] == rows[..i];
      var row := rows[i];
      if |row| < 3 {
        r := Err(ShortRow(i));
        CatalogFailedPrefix(rows, i + 1);
        return;
      }
      var cluster, api, ns := row[0], row[1], row[2];
      var key := (cluster, api);
      ghost var before := clusters;
      if key !in clusters {
        clusters := clusters[key := {}];
      }
      clusters := clusters[key := clusters[key] + {ns}];
      assert clusters == AddRow(before, key, ns);
    }
    assert rows[..|rows|] == rows;
    r := Ok(clusters);
  }

  lemma {:induction false} CatalogFailedPrefix(rows: seq<seq<string>>, i: nat)
    requires i <= |rows| && CatalogOf(rows[..i]).Err?
    ensures CatalogOf(rows) == CatalogOf(rows[..i])
    decreases |rows|
  {
    if i < |rows| {
      var prefix := rows[..|rows| - 1];
      assert prefix[..i] == rows[..i];
      CatalogFailedPrefix(prefix, i);
    } else {
      assert rows[..i] == rows;
    }
  }

  /** Some row names this key and namespace. */
  predicate HasRow(rows: seq<seq<string>>, key: Key, ns: string)
  {
    exists i :: 0 <= i < |rows| && |rows[i]| >= 3 && (rows[i][0], rows[i][1]) == key && rows[i][2] == ns
  }

  /** The catalog can be read exactly when every row has three fields. */
  lemma {:induction false} CatalogOk(rows: seq<seq<string>>)
    ensures CatalogOf(rows).Ok? <==> forall i :: 0 <= i < |rows| ==> |rows[i]| >= 3
  {
    if rows != [] {
      var prefix := rows[..|rows| - 1];
      CatalogOk(prefix);
      assert forall i :: 0 <= i < |prefix| ==> prefix[i] == rows[i];
    }
  }

  /** A namespace is listed under a key exactly when some row names both:
      every row is represented and nothing else is. */
  lemma {:induction false} CatalogMembers(rows: seq<seq<string>>)
    requires CatalogOf(rows).Ok?
    ensures forall key, ns :: key in CatalogOf(rows).value && ns in CatalogOf(rows).value[key] <==> HasRow(rows, key, ns)
  {
    if rows != [] {
      var prefix := rows[..|rows| - 1];
      var row := rows[|rows| - 1];
      CatalogMembers(prefix);
      forall key, ns ensures HasRow(rows, key, ns) <==> HasRow(prefix, key, ns) || (key == (row[0], row[1]) && ns == row[2])
      {
        if HasRow(rows, key, ns) {
          var i :| 0 <= i < |rows| && |rows[i]| >= 3 && (rows[i][0], rows[i][1]) == key && rows[i][2] == ns;
          if i < |prefix| {
            assert prefix[i] == rows[i];
          }
        }
        if HasRow(prefix, key, ns) {
          var i :| 0 <= i < |prefix| && |prefix[i]| >= 3 && (prefix[i][0], prefix[i][1]) == key && prefix[i][2] == ns;
          assert prefix[i] == rows[i];
        }
      }
    }
  }

  /** Every key of the catalog lists at least one namespace. */
  lemma CatalogKeysNonEmpty(rows: seq<seq<string>>, key: Key)
    requires CatalogOf(rows).Ok? && key in CatalogOf(rows).value
    ensures CatalogOf(rows).value[key] != {}
  {
    if rows != [] {
      var prefix := rows[..|rows| - 1];
      if key in CatalogOf(prefix).value {
        CatalogKeysNonEmpty(prefix, key);
      }
    }
  }

  /** Repeating a row already read changes nothing. */
  lemma CatalogDuplicateRow(rows: seq<seq<string>>, row: seq<string>)
    requires row in rows
    ensures CatalogOf(rows + [row]) == CatalogOf(rows)
  {
    var all := rows + [row];
    assert all[..|all| - 1] == rows;
    if CatalogOf(rows).Ok? {
      var clusters := CatalogOf(rows).value;
      CatalogOk(rows);
      CatalogMembers(rows);
      var i :| 0 <= i < |rows| && rows[i] == row;
      var key := (row[0], row[1]);
      assert HasRow(rows, key, row[2]);
      assert key in clusters && row[2] in clusters[key];
      assert clusters[key] + {row[2]} == clusters[key];
      assert AddRow(clusters, key, row[2]) == clusters;
    }
  }

  /** The catalog depends only on which rows occur, not on their order or
      repetition. */
  lemma CatalogSameRows(rows: seq<seq<string>>, rows': seq<seq<string>>)
    requires forall row :: row in rows <==> row in rows'
    ensures CatalogOf(rows).Ok? == CatalogOf(rows').Ok?
    ensures CatalogOf(rows).Ok? ==> CatalogOf(rows).value == CatalogOf(rows').value
  {
    CatalogOk(rows);
    CatalogOk(rows');
    if CatalogOf(rows).Ok? {
      assert forall i :: 0 <= i < |rows'| ==> rows'[i] in rows;
      assert CatalogOf(rows').Ok?;
      var a, b := CatalogOf(rows).value, CatalogOf(rows').value;
      CatalogMembers(rows);
      CatalogMembers(rows');
      forall key, ns ensures HasRow(rows, key, ns) <==> HasRow(rows', key, ns)
      {
        if HasRow(rows, key, ns) {
          var i :| 0 <= i < |rows| && |rows[i]| >= 3 && (rows[i][0], rows[i][1]) == key && rows[i][2] == ns;
          assert rows[i] in rows';
          var j :| 0 <= j < |rows'| && rows'[j] == rows[i];
        }
        if HasRow(rows', key, ns) {
          var i :| 0 <= i < |rows'| && |rows'[i]| >= 3 && (rows'[i][0], rows'[i][1]) == key && rows'[i][2] == ns;
          assert rows'[i] in rows;
          var j :| 0 <= j < |rows| && rows[j] == rows'[i];
        }
      }
      forall key | key in a ensures key in b && a[key] == b[key]
      {
        CatalogKeysNonEmpty(rows, key);
        var ns :| ns in a[key];
        assert HasRow(rows', key, ns);
      }
      forall key | key in b ensures key in a
      {
        CatalogKeysNonEmpty(rows', key);
        var ns :| ns in b[key];
        assert HasRow(rows, key, ns);
      }
      assert a.Keys == b.Keys;
    } else {
      var i :| 0 <= i < |rows| && |rows[i]| < 3;
      assert rows[i] in rows';
    }
  }
}
