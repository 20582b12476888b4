/** The -summary report: per-organisation running/failed/pending/total
    counters, keyed by the lower-cased organisation in first-seen order,
    followed by their grand total. */
module Summary {
  import opened Text
  import opened Runner
  import opened Snapshot

  /** The summary groups organisations regardless of case. */
  function OrgKey(r: Record): string
  {
    Lower(r.org)
  }

  /** The lines of the report: the organisations in order, their counters,
      and the grand total line. */
  datatype Report = Report(orgs: seq<string>, stats: map<string, Counts>, grand: Counts)

  /** What the report holds: the snapshot grouped by organisation, each
      group counted, and the group counters summed in order. */
  function SummaryOf(rows: seq<Record>): Report
  {
    var g := GroupBy(rows, OrgKey, Whole);
    var stats := CountsByGroup(g.groups);
    Report(g.order, stats, SumCounts(g.order, stats))
  }

  /** One row's update of its organisation's counters: the total always,
      and the counter its lower-cased status names, if any. */
  method Tally(c: Counts, status: string) returns (c': Counts)
    ensures c' == Plus(c, StatusUnit(status))
  {
    c' := c.(total := c.total + 1);
    if status == "running" {
      c' := c'.(running := c'.running + 1);
    } else if status == "failed" {
      c' := c'.(failed := c'.failed + 1);
    } else if status == "pending" {
      c' := c'.(pending := c'.pending + 1);
    }
  }

  /** The first summary loop: one pass over the rows filling the
      per-organisation counters, organisations in first-seen order. */
  method CountByOrg(rows: seq<Record>) returns (orgs: seq<string>, summary: map<string, Counts>)
    ensures orgs == GroupBy(rows, OrgKey, Whole).order
    ensures summary == CountsByGroup(GroupBy(rows, OrgKey, Whole).groups)
  {
    orgs := [];
    summary := map[];
    for i := 0 to |rows|
      invariant GroupBy(rows[..i], OrgKey, Whole).order == orgs
      invariant CountsByGroup(GroupBy(rows[..i], OrgKey, Whole).groups) == summary
    {
      ghost var g := GroupBy(rows[..i], OrgKey, Whole);
      var org := Lower(rows[i].org);
      var status := Lower(rows[i].status);
      assert rows[..i + 1][..i] == rows[..i];
      assert GroupBy(rows[..i + 1], OrgKey, Whole) == Insert(g, org, rows[i]);
      InsertCountsByGroup(g, org, rows[i]);
      PlusNothing(Unit(rows[i]));
      // summary.setdefault(org, all counters zero)
      if org !in summary {
        orgs := orgs + [org];
      }
      var start := if org in summary then summary[org] else NoCounts;
      var c := Tally(start, status);
      summary := summary[org := c];
    }
    assert rows[..|rows|] == rows;
  }

  /** The whole report: the counters by organisation, then their grand total. */
  method Summarize(rows: seq<Record>) returns (report: Report)
    ensures report == SummaryOf(rows)
  {
    var orgs, summary := CountByOrg(rows);
    OrgsCounted(rows);
    var grand := GrandTotal(orgs, summary);
    report := Report(orgs, summary, grand);
  }

  /** The second summary loop: the counters added up field by field over
      the organisations in order. */
  method GrandTotal(orgs: seq<string>, summary: map<string, Counts>) returns (grand: Counts)
    requires forall k :: k in orgs ==> k in summary
    ensures grand == SumCounts(orgs, summary)
  {
    grand := NoCounts;
    for j := 0 to |orgs|
      invariant grand == SumCounts(orgs[..j], summary)
    {
      assert orgs[..j + 1][..j] == orgs[..j];
      var stats := summary[orgs[j]];
      grand := Counts(grand.running + stats.running, grand.failed + stats.failed,
                      grand.pending + stats.pending, grand.total + stats.total);
    }
    assert orgs[..|orgs|] == orgs;
  }

  /** Every organisation of the report has counters. */
  lemma OrgsCounted(rows: seq<Record>)
    ensures forall k :: k in GroupBy(rows, OrgKey, Whole).order ==> k in CountsByGroup(GroupBy(rows, OrgKey, Whole).groups)
  {
  }

  /** The grand line counts every row of the snapshot exactly once: its
      total is the number of rows and each field is that field summed over
      the organisations. */
  lemma SummaryGrandTotal(rows: seq<Record>)
    ensures SummaryOf(rows).grand == CountsOf(rows)
    ensures SummaryOf(rows).grand.total == |rows|
    ensures SummaryOf(rows).grand.running + SummaryOf(rows).grand.failed + SummaryOf(rows).grand.pending <= |rows|
  {
    GroupCountsSum(rows, OrgKey);
    CountsOfBounds(rows);
  }

  /** An organisation has a line exactly when some row's organisation
      lower-cases to it; the line counts exactly those rows, at least one,
      and its three status counters never exceed its total. */
  lemma SummaryLine(rows: seq<Record>, org: string)
    ensures org in SummaryOf(rows).stats <==> exists i :: 0 <= i < |rows| && Lower(rows[i].org) == org
    ensures org in SummaryOf(rows).stats ==>
              var c := SummaryOf(rows).stats[org];
              c == CountsOf(Matching(rows, OrgKey, Whole, org)) && 1 <= c.total &&
              c.running + c.failed + c.pending <= c.total
  {
    GroupByMembers(rows, OrgKey, Whole);
    CountsOfBounds(Matching(rows, OrgKey, Whole, org));
  }

  /** When every status is Running, Failed or Pending in any case, as in a
      freshly scanned snapshot, each line's three counters add up to its
      total. */
  lemma SummaryLineExact(rows: seq<Record>, org: string)
    requires forall i :: 0 <= i < |rows| ==> KnownStatus(rows[i])
    requires org in SummaryOf(rows).stats
    ensures SummaryOf(rows).stats[org].running + SummaryOf(rows).stats[org].failed
            + SummaryOf(rows).stats[org].pending == SummaryOf(rows).stats[org].total
  {
    var group := Matching(rows, OrgKey, Whole, org);
    SummaryLine(rows, org);
    MatchingWhole(rows, OrgKey, org);
    forall i | 0 <= i < |group|
      ensures KnownStatus(group[i])
    {
      assert group[i] in group;
      var j :| 0 <= j < |rows| && rows[j] == group[i];
    }
    CountsOfBounds(group);
  }

  /** The statuses the scanner writes are all known to the summary. */
  lemma ScannedStatusKnown(st: Status, r: Record)
    requires r.status == StatusName(st)
    ensures KnownStatus(r)
  {
    match st
    case Running =>
      assert Lower("Running") == "running";
    case Failed =>
      assert Lower("Failed") == "failed";
    case Pending =>
      assert Lower("Pending") == "pending";
  }
}
