/** Views over a snapshot (its rows in file order) shared by the reports:
    grouping into an insertion-ordered dictionary of lists, and the
    per-status counts of a list of rows. */
module Snapshot {
  import opened Text
  import opened Runner

  /** A Python dict of lists filled by d.setdefault(key, []).append(entry):
      the keys in first-seen order and the entries under each key. */
  datatype Grouping<K, V> = Grouping(order: seq<K>, groups: map<K, seq<V>>)

  predicate Distinct<K(==, !new)>(s: seq<K>)
  {
    forall i, j :: 0 <= i < j < |s| ==> s[i] != s[j]
  }

  /** The whole row, for groupings that keep rows as they are. */
  function Whole(r: Record): Record
  {
    r
  }

  /** The grouping of the entries of rows by key, built row by row. */
  function GroupBy<K(==, !new), V>(rows: seq<Record>, key: Record -> K, entry: Record -> V): (g: Grouping<K, V>)
    ensures Distinct(g.order)
    ensures forall k :: k in g.groups <==> k in g.order
  {
    if rows == [] then Grouping([], map[])
    else
      var row := rows[|rows| - 1];
      Insert(GroupBy(rows[..|rows| - 1], key, entry), key(row), entry(row))
  }

  /** Appends v under key k, adding k at the end of the order when new. */
  function Insert<K, V>(g: Grouping<K, V>, k: K, v: V): Grouping<K, V>
  {
    if k in g.groups then Grouping(g.order, g.groups[k := g.groups[k] + [v]])
    else Grouping(g.order + [k], g.groups[k := [v]])
  }

  /** The entries of the rows whose key is k, in snapshot order. */
  function Matching<K(==, !new), V>(rows: seq<Record>, key: Record -> K, entry: Record -> V, k: K): seq<V>
  {
    if rows == [] then []
    else
      var row := rows[|rows| - 1];
      Matching(rows[..|rows| - 1], key, entry, k) + (if key(row) == k then [entry(row)] else [])
  }

  /** Each group holds exactly the entries of the rows with its key, in
      order, and is never empty; the keys are exactly the keys of the rows. */
  lemma GroupByMembers<K(!new), V>(rows: seq<Record>, key: Record -> K, entry: Record -> V)
    ensures forall k :: k in GroupBy(rows, key, entry).groups ==>
              GroupBy(rows, key, entry).groups[k] == Matching(rows, key, entry, k) != []
    ensures forall k :: k !in GroupBy(rows, key, entry).groups ==> Matching(rows, key, entry, k) == []
    ensures forall k :: k in GroupBy(rows, key, entry).groups <==> exists i :: 0 <= i < |rows| && key(rows[i]) == k
  {
    GroupByMatching(rows, key, entry);
    GroupByKeys(rows, key, entry);
  }

  lemma {:induction false} GroupByMatching<K(!new), V>(rows: seq<Record>, key: Record -> K, entry: Record -> V)
    ensures forall k :: k in GroupBy(rows, key, entry).groups ==>
              GroupBy(rows, key, entry).groups[k] == Matching(rows, key, entry, k) != []
    ensures forall k :: k !in GroupBy(rows, key, entry).groups ==> Matching(rows, key, entry, k) == []
  {
    if rows != [] {
      var prefix := rows[..|rows| - 1];
      var row := rows[|rows| - 1];
      var g := GroupBy(prefix, key, entry);
      var g' := GroupBy(rows, key, entry);
      GroupByMatching(prefix, key, entry);
      forall k
        ensures k in g'.groups ==> g'.groups[k] == Matching(rows, key, entry, k) != []
        ensures k !in g'.groups ==> Matching(rows, key, entry, k) == []
      {
        assert Matching(rows, key, entry, k) == Matching(prefix, key, entry, k) + (if key(row) == k then [entry(row)] else []);
        if k !in g.groups {
          assert Matching(prefix, key, entry, k) == [];
        }
      }
    }
  }

  lemma {:induction false} GroupByKeys<K(!new), V>(rows: seq<Record>, key: Record -> K, entry: Record -> V)
    ensures forall k :: k in GroupBy(rows, key, entry).groups <==> exists i :: 0 <= i < |rows| && key(rows[i]) == k
  {
    if rows != [] {
      var prefix := rows[..|rows| - 1];
      var row := rows[|rows| - 1];
      var g := GroupBy(prefix, key, entry);
      var g' := GroupBy(rows, key, entry);
      GroupByKeys(prefix, key, entry);
      forall k
        ensures k in g'.groups <==> exists i :: 0 <= i < |rows| && key(rows[i]) == k
      {
        if i :| 0 <= i < |rows| && key(rows[i]) == k {
          if i < |prefix| {
            assert key(prefix[i]) == k;
          }
        }
        if k in g.groups {
          var i :| 0 <= i < |prefix| && key(prefix[i]) == k;
          assert key(rows[i]) == k;
        }
        if key(row) == k {
          assert key(rows[|rows| - 1]) == k;
        }
      }
    }
  }

  /** The rows kept whole under key k are exactly the rows with that key. */
  lemma {:induction false} MatchingWhole<K(!new)>(rows: seq<Record>, key: Record -> K, k: K)
    ensures forall r :: r in Matching(rows, key, Whole, k) <==> r in rows && key(r) == k
  {
    if rows != [] {
      var prefix := rows[..|rows| - 1];
      MatchingWhole(prefix, key, k);
      assert rows == prefix + [rows[|rows| - 1]];
    }
  }

  lemma {:induction false} DistinctCard<K(!new)>(s: seq<K>)
    requires Distinct(s)
    ensures |set x | x in s| == |s|
  {
    if s != [] {
      var prefix := s[..|s| - 1];
      var last := s[|s| - 1];
      DistinctCard(prefix);
      assert last !in prefix;
      assert (set x | x in s) == (set x | x in prefix) + {last};
    }
  }

  /** The distinct keys of the rows. */
  function KeysOf<K(!new)>(rows: seq<Record>, key: Record -> K): set<K>
  {
    set i | 0 <= i < |rows| :: key(rows[i])
  }

  /** There are as many groups as distinct keys among the rows. */
  lemma GroupCount<K(!new), V>(rows: seq<Record>, key: Record -> K, entry: Record -> V)
    ensures |GroupBy(rows, key, entry).order| == |KeysOf(rows, key)|
  {
    var g := GroupBy(rows, key, entry);
    GroupByMembers(rows, key, entry);
    DistinctCard(g.order);
    assert (set x | x in g.order) == KeysOf(rows, key);
  }

  /** What is kept of each row changes neither the keys, nor their order,
      nor how many entries each key holds. */
  lemma {:induction false} GroupByShape<K(!new), V, W>(rows: seq<Record>, key: Record -> K,
                                                        entry: Record -> V, entry': Record -> W)
    ensures GroupBy(rows, key, entry).order == GroupBy(rows, key, entry').order
    ensures forall k :: k in GroupBy(rows, key, entry).groups <==> k in GroupBy(rows, key, entry').groups
    ensures forall k :: k in GroupBy(rows, key, entry).groups ==>
              |GroupBy(rows, key, entry).groups[k]| == |GroupBy(rows, key, entry').groups[k]|
  {
    if rows != [] {
      GroupByShape(rows[..|rows| - 1], key, entry, entry');
    }
  }

  /** The number of entries under each key (the script's count dict). */
  function SizesOf<K(!new), V>(groups: map<K, seq<V>>): map<K, nat>
  {
    map k | k in groups :: |groups[k]|
  }

  /** The numbers summed over the keys in order. */
  function SumOf<K(!new)>(order: seq<K>, count: map<K, nat>): nat
    requires forall k :: k in order ==> k in count
  {
    if order == [] then 0 else SumOf(order[..|order| - 1], count) + count[order[|order| - 1]]
  }

  lemma {:induction false} SumOfOther<K(!new)>(order: seq<K>, count: map<K, nat>, k: K, n: nat)
    requires forall k' :: k' in order ==> k' in count
    requires k !in order
    ensures SumOf(order, count[k := n]) == SumOf(order, count)
  {
    if order != [] {
      SumOfOther(order[..|order| - 1], count, k, n);
    }
  }

  lemma {:induction false} SumOfAdd<K(!new)>(order: seq<K>, count: map<K, nat>, k: K)
    requires forall k' :: k' in order ==> k' in count
    requires k in order && Distinct(order)
    ensures SumOf(order, count[k := count[k] + 1]) == SumOf(order, count) + 1
  {
    var prefix := order[..|order| - 1];
    if order[|order| - 1] == k {
      assert k !in prefix;
      SumOfOther(prefix, count, k, count[k] + 1);
    } else {
      assert k in prefix;
      SumOfAdd(prefix, count, k);
    }
  }

  /** Inserting an entry adds one to the sum of the group sizes. */
  lemma InsertSizes<K(!new), V>(g: Grouping<K, V>, k: K, v: V)
    requires Distinct(g.order) && forall k' :: k' in g.groups <==> k' in g.order
    ensures SumOf(Insert(g, k, v).order, SizesOf(Insert(g, k, v).groups)) == SumOf(g.order, SizesOf(g.groups)) + 1
  {
    InsertSizesOf(g, k, v);
    if k in g.groups {
      SumOfAdd(g.order, SizesOf(g.groups), k);
    } else {
      SizesOfNewKey(g.order, SizesOf(g.groups), k);
    }
  }

  /** A key added at the end with size one adds one to the sum. */
  lemma SizesOfNewKey<K(!new)>(order: seq<K>, before: map<K, nat>, k: K)
    requires forall k' :: k' in order ==> k' in before
    requires k !in order
    ensures SumOf(order + [k], before[k := 1]) == SumOf(order, before) + 1
  {
    var order' := order + [k];
    assert order'[..|order'| - 1] == order;
    SumOfOther(order, before, k, 1);
  }

  /** Inserting an entry adds one to its group's size. */
  lemma InsertSizesOf<K(!new), V>(g: Grouping<K, V>, k: K, v: V)
    ensures k in g.groups ==> SizesOf(Insert(g, k, v).groups) == SizesOf(g.groups)[k := SizesOf(g.groups)[k] + 1]
    ensures k !in g.groups ==> SizesOf(Insert(g, k, v).groups) == SizesOf(g.groups)[k := 1]
  {
  }

  /** The group sizes add up to the number of rows grouped. */
  lemma {:induction false} GroupSizesSum<K(!new), V>(rows: seq<Record>, key: Record -> K, entry: Record -> V)
    ensures SumOf(GroupBy(rows, key, entry).order, SizesOf(GroupBy(rows, key, entry).groups)) == |rows|
  {
    if rows != [] {
      var prefix := rows[..|rows| - 1];
      var row := rows[|rows| - 1];
      GroupSizesSum(prefix, key, entry);
      InsertSizes(GroupBy(prefix, key, entry), key(row), entry(row));
    }
  }

  // ---------------------------------------------------------------- counts

  /** The running/failed/pending/total counters of a report line. */
  datatype Counts = Counts(running: nat, failed: nat, pending: nat, total: nat)

  function Plus(a: Counts, b: Counts): Counts
  {
    Counts(a.running + b.running, a.failed + b.failed, a.pending + b.pending, a.total + b.total)
  }

  const NoCounts := Counts(0, 0, 0, 0)

  /** What one row adds: one to the total and one to the counter its
      lower-cased status names, if it names one. */
  function Unit(r: Record): Counts
  {
    StatusUnit(Lower(r.status))
  }

  /** The counts of one row whose lower-cased status is st. */
  function StatusUnit(st: string): Counts
  {
    Counts(if st == "running" then 1 else 0, if st == "failed" then 1 else 0,
           if st == "pending" then 1 else 0, 1)
  }

  /** The counters over a list of rows. */
  function CountsOf(rows: seq<Record>): Counts
  {
    if rows == [] then NoCounts else Plus(CountsOf(rows[..|rows| - 1]), Unit(rows[|rows| - 1]))
  }

  predicate KnownStatus(r: Record)
  {
    Lower(r.status) in {"running", "failed", "pending"}
  }

  /** The total counts every row; the three status counters together never
      exceed it, and add up to it when every status is one of the three. */
  lemma {:induction false} CountsOfBounds(rows: seq<Record>)
    ensures CountsOf(rows).total == |rows|
    ensures CountsOf(rows).running + CountsOf(rows).failed + CountsOf(rows).pending <= CountsOf(rows).total
    ensures (forall i :: 0 <= i < |rows| ==> KnownStatus(rows[i])) ==>
              CountsOf(rows).running + CountsOf(rows).failed + CountsOf(rows).pending == CountsOf(rows).total
  {
    if rows != [] {
      var prefix := rows[..|rows| - 1];
      CountsOfBounds(prefix);
      UnitBounds(rows[|rows| - 1]);
      assert forall i :: 0 <= i < |prefix| ==> prefix[i] == rows[i];
    }
  }

  /** One row adds one to the total and at most one to the three counters,
      exactly one when its status is known. */
  lemma UnitBounds(r: Record)
    ensures Unit(r).total == 1
    ensures Unit(r).running + Unit(r).failed + Unit(r).pending <= 1
    ensures KnownStatus(r) ==> Unit(r).running + Unit(r).failed + Unit(r).pending == 1
  {
  }

  /** The counters of every group. */
  function CountsByGroup<K(!new)>(groups: map<K, seq<Record>>): map<K, Counts>
  {
    map k | k in groups :: CountsOf(groups[k])
  }

  /** The counters summed over the keys in order. */
  function SumCounts<K(!new)>(order: seq<K>, counts: map<K, Counts>): Counts
    requires forall k :: k in order ==> k in counts
  {
    if order == [] then NoCounts
    else Plus(SumCounts(order[..|order| - 1], counts), counts[order[|order| - 1]])
  }

  lemma {:induction false} SumCountsOther<K(!new)>(order: seq<K>, counts: map<K, Counts>, k: K, c: Counts)
    requires forall k' :: k' in order ==> k' in counts
    requires k !in order
    ensures SumCounts(order, counts[k := c]) == SumCounts(order, counts)
  {
    if order != [] {
      SumCountsOther(order[..|order| - 1], counts, k, c);
    }
  }

  lemma {:induction false} SumCountsAdd<K(!new)>(order: seq<K>, counts: map<K, Counts>, k: K, d: Counts)
    requires forall k' :: k' in order ==> k' in counts
    requires k in order && Distinct(order)
    ensures SumCounts(order, counts[k := Plus(counts[k], d)]) == Plus(SumCounts(order, counts), d)
  {
    var prefix := order[..|order| - 1];
    var last := order[|order| - 1];
    if last == k {
      assert k !in prefix;
      SumCountsOther(prefix, counts, k, Plus(counts[k], d));
    } else {
      assert k in prefix;
      SumCountsAdd(prefix, counts, k, d);
    }
  }

  lemma PlusNothing(c: Counts)
    ensures Plus(NoCounts, c) == c
  {
  }

  lemma CountsOfOne(row: Record)
    ensures CountsOf([row]) == Unit(row)
  {
    assert [row][..0] == [];
    assert CountsOf([row]) == Plus(NoCounts, Unit(row));
    PlusNothing(Unit(row));
  }

  lemma CountsOfAppend(rows: seq<Record>, row: Record)
    ensures CountsOf(rows + [row]) == Plus(CountsOf(rows), Unit(row))
  {
    assert (rows + [row])[..|rows|] == rows;
  }

  lemma CountsByGroupUpdate<K(!new)>(groups: map<K, seq<Record>>, k: K, rows: seq<Record>)
    ensures CountsByGroup(groups[k := rows]) == CountsByGroup(groups)[k := CountsOf(rows)]
  {
  }

  /** Inserting a row adds its counts to its group's counters. */
  lemma InsertCountsByGroup<K(!new)>(g: Grouping<K, Record>, k: K, row: Record)
    ensures k in g.groups ==>
              CountsByGroup(Insert(g, k, row).groups)
              == CountsByGroup(g.groups)[k := Plus(CountsByGroup(g.groups)[k], Unit(row))]
    ensures k !in g.groups ==>
              CountsByGroup(Insert(g, k, row).groups) == CountsByGroup(g.groups)[k := Unit(row)]
  {
    if k in g.groups {
      CountsOfAppend(g.groups[k], row);
      CountsByGroupUpdate(g.groups, k, g.groups[k] + [row]);
    } else {
      CountsOfOne(row);
      CountsByGroupUpdate(g.groups, k, [row]);
    }
  }

  /** Inserting a row adds its counts to the sum over the groups. */
  lemma InsertCounts<K(!new)>(g: Grouping<K, Record>, k: K, row: Record)
    requires Distinct(g.order) && forall k' :: k' in g.groups <==> k' in g.order
    ensures forall k' :: k' in Insert(g, k, row).order ==> k' in Insert(g, k, row).groups
    ensures SumCounts(Insert(g, k, row).order, CountsByGroup(Insert(g, k, row).groups))
            == Plus(SumCounts(g.order, CountsByGroup(g.groups)), Unit(row))
  {
    if k in g.groups {
      InsertExisting(g.order, g.groups, k, row);
    } else {
      InsertNew(g.order, g.groups, k, row);
    }
  }

  lemma InsertExisting<K(!new)>(order: seq<K>, groups: map<K, seq<Record>>, k: K, row: Record)
    requires Distinct(order) && forall k' :: k' in groups <==> k' in order
    requires k in groups
    ensures SumCounts(order, CountsByGroup(groups[k := groups[k] + [row]]))
            == Plus(SumCounts(order, CountsByGroup(groups)), Unit(row))
  {
    var before := CountsByGroup(groups);
    CountsOfAppend(groups[k], row);
    CountsByGroupUpdate(groups, k, groups[k] + [row]);
    assert CountsByGroup(groups[k := groups[k] + [row]]) == before[k := Plus(before[k], Unit(row))];
    SumCountsAdd(order, before, k, Unit(row));
  }

  lemma InsertNew<K(!new)>(order: seq<K>, groups: map<K, seq<Record>>, k: K, row: Record)
    requires forall k' :: k' in groups <==> k' in order
    requires k !in groups
    ensures SumCounts(order + [k], CountsByGroup(groups[k := [row]]))
            == Plus(SumCounts(order, CountsByGroup(groups)), Unit(row))
  {
    var before := CountsByGroup(groups);
    var after := CountsByGroup(groups[k := [row]]);
    CountsOfOne(row);
    CountsByGroupUpdate(groups, k, [row]);
    assert after == before[k := Unit(row)];
    var grown := order + [k];
    assert grown[..|grown| - 1] == order;
    assert SumCounts(grown, after) == Plus(SumCounts(order, after), Unit(row));
    SumCountsOther(order, before, k, Unit(row));
  }

  /** Summing the counters of the groups counts every row exactly once. */
  lemma {:induction false} GroupCountsSum<K(!new)>(rows: seq<Record>, key: Record -> K)
    ensures SumCounts(GroupBy(rows, key, Whole).order, CountsByGroup(GroupBy(rows, key, Whole).groups)) == CountsOf(rows)
  {
    if rows != [] {
      var prefix := rows[..|rows| - 1];
      var row := rows[|rows| - 1];
      GroupCountsSum(prefix, key);
      InsertCounts(GroupBy(prefix, key, Whole), key(row), row);
    }
  }
}
