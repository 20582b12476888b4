/** The -running, -pending and -failed reports: the rows whose status is
    the requested one, optionally limited to one organisation, listed by
    organisation (in its original case) with a count per organisation and
    a grand total. The delete reports select their rows the same way. */
module Listing {
  import opened Wrappers
  import opened Text
  import opened Runner
  import opened Snapshot

  /** Whether the report lists a row: its lower-cased status is the
      requested one, and either all organisations are wanted, no
      organisation filter was given, or the filter equals its lower-cased
      organisation. */
  predicate Selected(r: Record, status: string, orgFilter: string, allOrgs: bool)
  {
    Lower(r.status) == status && (allOrgs || orgFilter == "" || orgFilter == Lower(r.org))
  }

  /** The selected rows, in snapshot order. */
  function Select(rows: seq<Record>, status: string, orgFilter: string, allOrgs: bool): seq<Record>
  {
    if rows == [] then []
    else
      var row := rows[|rows| - 1];
      Select(rows[..|rows| - 1], status, orgFilter, allOrgs)
      + (if Selected(row, status, orgFilter, allOrgs) then [row] else [])
  }

  /** A row is selected exactly when it is in the snapshot and the
      predicate holds of it. */
  lemma {:induction false} SelectMembers(rows: seq<Record>, status: string, orgFilter: string, allOrgs: bool)
    ensures forall r :: r in Select(rows, status, orgFilter, allOrgs) <==>
              r in rows && Selected(r, status, orgFilter, allOrgs)
  {
    if rows != [] {
      var prefix := rows[..|rows| - 1];
      SelectMembers(prefix, status, orgFilter, allOrgs);
      assert rows == prefix + [rows[|rows| - 1]];
    }
  }

  /** The --org argument as the reports use it: lower-cased, and the empty
      filter when absent. */
  function OrgFilter(arg: Option<string>): (f: string)
    ensures arg.None? ==> f == ""
    ensures arg.Some? ==> f == Lower(arg.value)
    ensures arg.Some? ==> |f| == |arg.value| && Lower(f) == f
  {
    match arg
    case None => ""
    case Some(org) =>
      LowerIdempotent(org);
      Lower(org)
  }

  /** The listing groups organisations by their original case. */
  function RawOrg(r: Record): string
  {
    r.org
  }

  /** What a status report lists for a runner: its name, organisation and
      age. */
  datatype Listed = Listed(name: string, org: string, age: string)

  function ListedEntry(r: Record): Listed
  {
    Listed(r.name, r.org, r.age)
  }

  /** A listing: the organisations in first-seen order, the entries listed
      under each, the count per organisation and the grand total. */
  datatype Listing<V> = Listing(orgs: seq<string>, runners: map<string, seq<V>>,
                                count: map<string, nat>, grandTotal: nat)

  /** What a listing holds: the selected rows grouped by organisation. */
  function ListingOf<V>(rows: seq<Record>, status: string, orgFilter: string, allOrgs: bool,
                        entry: Record -> V): Listing<V>
  {
    var picked := Select(rows, status, orgFilter, allOrgs);
    var g := GroupBy(picked, RawOrg, entry);
    Listing(g.order, g.groups, SizesOf(g.groups), |picked|)
  }

  /** Lists one more entry under org: setdefault(org, []).append(entry),
      count[org] = count.get(org, 0) + 1, and one more in the grand total. */
  function AddEntry<V>(l: Listing<V>, org: string, v: V): Listing<V>
  {
    Listing(if org in l.runners then l.orgs else l.orgs + [org],
            l.runners[org := (if org in l.runners then l.runners[org] else []) + [v]],
            l.count[org := (if org in l.count then l.count[org] else 0) + 1],
            l.grandTotal + 1)
  }

  lemma SelectStep(rows: seq<Record>, i: nat, status: string, orgFilter: string, allOrgs: bool)
    requires i < |rows|
    ensures Select(rows[..i + 1], status, orgFilter, allOrgs)
            == Select(rows[..i], status, orgFilter, allOrgs)
               + if Selected(rows[i], status, orgFilter, allOrgs) then [rows[i]] else []
  {
    assert rows[..i + 1][..i] == rows[..i];
  }

  /** One more row of the snapshot either leaves the listing as it was or
      lists its entry under its organisation. */
  lemma ListingStep<V>(rows: seq<Record>, i: nat, status: string, orgFilter: string, allOrgs: bool,
                       entry: Record -> V)
    requires i < |rows|
    ensures var l := ListingOf(rows[..i], status, orgFilter, allOrgs, entry);
            ListingOf(rows[..i + 1], status, orgFilter, allOrgs, entry)
            == if Selected(rows[i], status, orgFilter, allOrgs) then AddEntry(l, rows[i].org, entry(rows[i])) else l
  {
    SelectStep(rows, i, status, orgFilter, allOrgs);
    var picked := Select(rows[..i], status, orgFilter, allOrgs);
    if Selected(rows[i], status, orgFilter, allOrgs) {
      var grown := picked + [rows[i]];
      assert grown[..|grown| - 1] == picked;
      ListingInsert(GroupBy(picked, RawOrg, entry), |picked|, rows[i].org, entry(rows[i]));
    } else {
      assert picked + [] == picked;
    }
  }

  /** Listing one more entry is inserting it into the grouping. */
  lemma ListingInsert<V>(g: Grouping<string, V>, n: nat, org: string, v: V)
    ensures var g' := Insert(g, org, v);
            Listing(g'.order, g'.groups, SizesOf(g'.groups), n + 1)
            == AddEntry(Listing(g.order, g.groups, SizesOf(g.groups), n), org, v)
  {
    InsertSizesOf(g, org, v);
    assert [] + [v] == [v];
  }

  /** The status report loop. */
  method StatusListing(rows: seq<Record>, status: string, orgFilter: string, allOrgs: bool)
    returns (l: Listing<Listed>)
    ensures l == ListingOf(rows, status, orgFilter, allOrgs, ListedEntry)
  {
    var orgs: seq<string> := [];
    var runners: map<string, seq<Listed>> := map[];
    var count: map<string, nat> := map[];
    var grandTotal := 0;
    for i := 0 to |rows|
      invariant ListingOf(rows[..i], status, orgFilter, allOrgs, ListedEntry)
                == Listing(orgs, runners, count, grandTotal)
    {
      ListingStep(rows, i, status, orgFilter, allOrgs, ListedEntry);
      var row := rows[i];
      var actualStatus := Lower(row.status);
      var org := row.org;
      var orgLower := Lower(org);
      if actualStatus == status && (allOrgs || orgFilter == "" || orgFilter == orgLower) {
        if org !in runners {
          orgs := orgs + [org];
        }
        runners := runners[org := (if org in runners then runners[org] else []) + [Listed(row.name, org, row.age)]];
        count := count[org := (if org in count then count[org] else 0) + 1];
        grandTotal := grandTotal + 1;
      }
    }
    assert rows[..|rows|] == rows;
    l := Listing(orgs, runners, count, grandTotal);
  }

  /** The grand total is the number of selected rows and the sum of the
      per-organisation counts; every listed organisation has a count of at
      least one, which is the number of its entries, and lists exactly the
      selected rows with that organisation, in order. */
  lemma ListingTotals<V>(rows: seq<Record>, status: string, orgFilter: string, allOrgs: bool,
                         entry: Record -> V)
    ensures var l := ListingOf(rows, status, orgFilter, allOrgs, entry);
            var picked := Select(rows, status, orgFilter, allOrgs);
            l.grandTotal == |picked| == SumOf(l.orgs, l.count) &&
            (forall org :: org in l.orgs ==>
               org in l.runners && org in l.count &&
               l.runners[org] == Matching(picked, RawOrg, entry, org) &&
               l.count[org] == |l.runners[org]| >= 1) &&
            (forall org :: org in l.runners <==> exists i :: 0 <= i < |picked| && picked[i].org == org)
  {
    var picked := Select(rows, status, orgFilter, allOrgs);
    GroupSizesSum(picked, RawOrg, entry);
    GroupedEntries(picked, entry);
  }

  /** The grouping by raw organisation, group by group. */
  lemma GroupedEntries<V>(picked: seq<Record>, entry: Record -> V)
    ensures var g := GroupBy(picked, RawOrg, entry);
            (forall org :: org in g.order ==>
               org in g.groups && org in SizesOf(g.groups) &&
               g.groups[org] == Matching(picked, RawOrg, entry, org) &&
               SizesOf(g.groups)[org] == |g.groups[org]| >= 1) &&
            (forall org :: org in g.groups <==> exists i :: 0 <= i < |picked| && picked[i].org == org)
  {
    var g := GroupBy(picked, RawOrg, entry);
    GroupByMembers(picked, RawOrg, entry);
    forall org
      ensures org in g.groups <==> exists i :: 0 <= i < |picked| && picked[i].org == org
    {
      assert forall i :: 0 <= i < |picked| ==> RawOrg(picked[i]) == picked[i].org;
    }
  }

  /** With all organisations requested, the organisation filter changes
      nothing. */
  lemma {:induction false} AllOrgsIgnoresFilter(rows: seq<Record>, status: string, f: string, f': string)
    ensures Select(rows, status, f, true) == Select(rows, status, f', true)
  {
    if rows != [] {
      AllOrgsIgnoresFilter(rows[..|rows| - 1], status, f, f');
    }
  }

  /** The same holds for the whole listing. */
  lemma AllOrgsListing<V>(rows: seq<Record>, status: string, f: string, f': string, entry: Record -> V)
    ensures ListingOf(rows, status, f, true, entry) == ListingOf(rows, status, f', true, entry)
  {
    AllOrgsIgnoresFilter(rows, status, f, f');
  }

  /** A non-empty --org argument selects the rows whose organisation equals
      it regardless of case. */
  lemma OrgFilterIgnoresCase(r: Record, status: string, org: string)
    requires org != ""
    ensures Selected(r, status, OrgFilter(Some(org)), false) <==>
              Lower(r.status) == status && Lower(org) == Lower(r.org)
  {
  }

  /** Selecting from a longer snapshot extends the selection, keeping the
      snapshot order. */
  lemma {:induction false} SelectAppend(rows: seq<Record>, more: seq<Record>, status: string, orgFilter: string, allOrgs: bool)
    ensures Select(rows + more, status, orgFilter, allOrgs)
            == Select(rows, status, orgFilter, allOrgs) + Select(more, status, orgFilter, allOrgs)
    decreases |more|
  {
    if more == [] {
      assert rows + more == rows;
    } else {
      var all := rows + more;
      var n := |more| - 1;
      assert all[..|all| - 1] == rows + more[..n];
      assert all[|all| - 1] == more[n];
      SelectAppend(rows, more[..n], status, orgFilter, allOrgs);
      var a := Select(rows, status, orgFilter, allOrgs);
      var b := Select(more[..n], status, orgFilter, allOrgs);
      var c := if Selected(more[n], status, orgFilter, allOrgs) then [more[n]] else [];
      assert (a + b) + c == a + (b + c);
    }
  }
}
