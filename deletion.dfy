/** The -DeletePending and -DeleteFailed reports: the rows selected as for
    the status reports, listed with their cluster and namespace, one delete
    command per selected row, and the confirmation that decides whether the
    command script runs. */
module Deletion {
  import opened Text
  import opened Runner
  import opened Snapshot
  import opened Listing

  /** What a delete report lists for a runner. */
  datatype Doomed = Doomed(pod: string, org: string, age: string, cluster: string, namespace: string)

  function DoomedEntry(r: Record): Doomed
  {
    Doomed(r.name, r.org, r.age, r.cluster, r.namespace)
  }

  /** The shell command that deletes a runner's pod: fetch the cluster's
      credentials, then delete the pod in its namespace. */
  function DeleteCommand(r: Record): string
  {
    "tkgi get-kubeconfig " + r.cluster + " && kubectl -n " + r.namespace + " delete pod " + r.name
  }

  /** One delete command per row, in row order. */
  function Commands(rows: seq<Record>): (cmds: seq<string>)
    ensures |cmds| == |rows|
    ensures forall i :: 0 <= i < |rows| ==> cmds[i] == DeleteCommand(rows[i])
  {
    if rows == [] then []
    else
      var prefix := rows[..|rows| - 1];
      assert forall i :: 0 <= i < |prefix| ==> prefix[i] == rows[i];
      Commands(prefix) + [DeleteCommand(rows[|rows| - 1])]
  }

  /** A delete report: its listing and the commands of the script. */
  datatype Plan = Plan(listing: Listing<Doomed>, commands: seq<string>)

  function PlanOf(rows: seq<Record>, status: string, orgFilter: string, allOrgs: bool): Plan
  {
    Plan(ListingOf(rows, status, orgFilter, allOrgs, DoomedEntry),
         Commands(Select(rows, status, orgFilter, allOrgs)))
  }

  /** The delete report loop: the listing of the status reports, plus the
      delete command of every selected row. */
  method PlanDeletion(rows: seq<Record>, status: string, orgFilter: string, allOrgs: bool)
    returns (plan: Plan)
    ensures plan == PlanOf(rows, status, orgFilter, allOrgs)
  {
    var orgs: seq<string> := [];
    var runners: map<string, seq<Doomed>> := map[];
    var count: map<string, nat> := map[];
    var grandTotal := 0;
    var deleteCmds: seq<string> := [];
    for i := 0 to |rows|
      invariant PlanOf(rows[..i], status, orgFilter, allOrgs)
                == Plan(Listing(orgs, runners, count, grandTotal), deleteCmds)
    {
      PlanStep(rows, i, status, orgFilter, allOrgs);
      var row := rows[i];
      var actualStatus := Lower(row.status);
      var org := row.org;
      var orgLower := Lower(org);
      if actualStatus == status && (allOrgs || orgFilter == "" || orgFilter == orgLower) {
        var cluster := row.cluster;
        var namespace := row.namespace;
        var podName := row.name;
        var age := row.age;
        if org !in runners {
          orgs := orgs + [org];
        }
        runners := runners[org := (if org in runners then runners[org] else []) + [Doomed(podName, org, age, cluster, namespace)]];
        count := count[org := (if org in count then count[org] else 0) + 1];
        grandTotal := grandTotal + 1;
        deleteCmds := deleteCmds + ["tkgi get-kubeconfig " + cluster + " && kubectl -n " + namespace + " delete pod " + podName];
      }
    }
    assert rows[..|rows|] == rows;
    plan := Plan(Listing(orgs, runners, count, grandTotal), deleteCmds);
  }

  /** One more row either leaves the plan as it was or adds its entry to
      the listing and its command to the script. */
  lemma PlanStep(rows: seq<Record>, i: nat, status: string, orgFilter: string, allOrgs: bool)
    requires i < |rows|
    ensures var p := PlanOf(rows[..i], status, orgFilter, allOrgs);
            PlanOf(rows[..i + 1], status, orgFilter, allOrgs)
            == if Selected(rows[i], status, orgFilter, allOrgs)
               then Plan(AddEntry(p.listing, rows[i].org, DoomedEntry(rows[i])), p.commands + [DeleteCommand(rows[i])])
               else p
  {
    ListingStep(rows, i, status, orgFilter, allOrgs, DoomedEntry);
    SelectStep(rows, i, status, orgFilter, allOrgs);
    var picked := Select(rows[..i], status, orgFilter, allOrgs);
    if Selected(rows[i], status, orgFilter, allOrgs) {
      assert (picked + [rows[i]])[..|picked|] == picked;
    } else {
      assert picked + [] == picked;
    }
  }

  /** The delete report selects the runners the status report for the same
      status and filter lists, under the same organisations with the same
      counts; it holds one command per listed runner, in snapshot order. */
  lemma PlanMatchesReport(rows: seq<Record>, status: string, orgFilter: string, allOrgs: bool)
    ensures var plan := PlanOf(rows, status, orgFilter, allOrgs);
            var report := ListingOf(rows, status, orgFilter, allOrgs, ListedEntry);
            var picked := Select(rows, status, orgFilter, allOrgs);
            plan.listing.orgs == report.orgs && plan.listing.count == report.count &&
            plan.listing.grandTotal == report.grandTotal == |plan.commands| &&
            forall i :: 0 <= i < |picked| ==> plan.commands[i] == DeleteCommand(picked[i])
  {
    var picked := Select(rows, status, orgFilter, allOrgs);
    GroupByShape(picked, RawOrg, DoomedEntry, ListedEntry);
    var a := GroupBy(picked, RawOrg, DoomedEntry);
    var b := GroupBy(picked, RawOrg, ListedEntry);
    assert SizesOf(a.groups) == SizesOf(b.groups);
  }

  /** The words of a delete command. */
  function DeleteWords(r: Record): seq<string>
  {
    ["tkgi", "get-kubeconfig", r.cluster, "&&", "kubectl", "-n", r.namespace, "delete", "pod", r.name]
  }

  lemma JoinFront(w: string, rest: seq<string>, tail: string)
    requires rest != [] && Join(rest, ' ') == tail
    ensures Join([w] + rest, ' ') == w + " " + tail
  {
    assert ([w] + rest)[1..] == rest;
  }

  lemma PodJoin(r: Record)
    ensures Join(["pod", r.name], ' ') == "pod " + r.name
  {
    JoinFront("pod", [r.name], r.name);
  }

  lemma VerbJoin(r: Record)
    ensures Join(["delete", "pod", r.name], ' ') == "delete pod " + r.name
  {
    PodJoin(r);
    JoinFront("delete", ["pod", r.name], "pod " + r.name);
    assert ["delete"] + ["pod", r.name] == ["delete", "pod", r.name];
  }

  lemma NamespaceJoin(r: Record)
    ensures Join([r.namespace, "delete", "pod", r.name], ' ') == r.namespace + " delete pod " + r.name
  {
    VerbJoin(r);
    JoinFront(r.namespace, ["delete", "pod", r.name], "delete pod " + r.name);
    assert [r.namespace] + ["delete", "pod", r.name] == [r.namespace, "delete", "pod", r.name];
  }

  lemma FlagJoin(r: Record)
    ensures Join(["-n", r.namespace, "delete", "pod", r.name], ' ') == "-n " + r.namespace + " delete pod " + r.name
  {
    NamespaceJoin(r);
    JoinFront("-n", [r.namespace, "delete", "pod", r.name], r.namespace + " delete pod " + r.name);
    assert ["-n"] + [r.namespace, "delete", "pod", r.name] == ["-n", r.namespace, "delete", "pod", r.name];
  }

  lemma KubectlJoin(r: Record)
    ensures Join(["kubectl", "-n", r.namespace, "delete", "pod", r.name], ' ')
            == "kubectl -n " + r.namespace + " delete pod " + r.name
  {
    FlagJoin(r);
    JoinFront("kubectl", ["-n", r.namespace, "delete", "pod", r.name], "-n " + r.namespace + " delete pod " + r.name);
    assert ["kubectl"] + ["-n", r.namespace, "delete", "pod", r.name] == ["kubectl", "-n", r.namespace, "delete", "pod", r.name];
  }

  /** The words of a delete command, consed onto the kubectl part. */
  lemma DeleteWordsNested(r: Record)
    ensures DeleteWords(r)
            == ["tkgi"] + (["get-kubeconfig"] + ([r.cluster] + (["&&"] + ["kubectl", "-n", r.namespace, "delete", "pod", r.name])))
  {
  }

  /** The delete command, nested the same way. */
  lemma DeleteCommandNested(r: Record)
    ensures DeleteCommand(r)
            == "tkgi" + " " + ("get-kubeconfig" + " " + (r.cluster + " " + ("&&" + " "
               + ("kubectl -n " + r.namespace + " delete pod " + r.name))))
  {
    var k := "kubectl -n " + r.namespace + " delete pod " + r.name;
    KubectlTail(r.cluster, r.namespace, r.name);
    assert DeleteCommand(r) == "tkgi get-kubeconfig " + r.cluster + " && " + k;
    CommandHead(r.cluster, k);
  }

  lemma KubectlTail(c: string, n: string, m: string)
    ensures "tkgi get-kubeconfig " + c + " && kubectl -n " + n + " delete pod " + m
            == "tkgi get-kubeconfig " + c + " && " + ("kubectl -n " + n + " delete pod " + m)
  {
  }

  lemma CommandHead(c: string, k: string)
    ensures "tkgi get-kubeconfig " + c + " && " + k
            == "tkgi" + " " + ("get-kubeconfig" + " " + (c + " " + ("&&" + " " + k)))
  {
  }

  lemma DeleteCommandJoin(r: Record)
    ensures Join(DeleteWords(r), ' ') == DeleteCommand(r)
  {
    var k := ["kubectl", "-n", r.namespace, "delete", "pod", r.name];
    var ks := "kubectl -n " + r.namespace + " delete pod " + r.name;
    KubectlJoin(r);
    JoinFront("&&", k, ks);
    JoinFront(r.cluster, ["&&"] + k, "&&" + " " + ks);
    JoinFront("get-kubeconfig", [r.cluster] + (["&&"] + k), r.cluster + " " + ("&&" + " " + ks));
    JoinFront("tkgi", ["get-kubeconfig"] + ([r.cluster] + (["&&"] + k)),
              "get-kubeconfig" + " " + (r.cluster + " " + ("&&" + " " + ks)));
    DeleteWordsNested(r);
    DeleteCommandNested(r);
  }

  /** A delete command splits into the words of the two shell commands,
      with the runner's cluster, namespace and pod in their places, as long
      as those are non-empty and free of whitespace. */
  lemma DeleteCommandWords(r: Record)
    requires r.cluster != [] && NoneWhere(r.cluster, IsSpace)
    requires r.namespace != [] && NoneWhere(r.namespace, IsSpace)
    requires r.name != [] && NoneWhere(r.name, IsSpace)
    ensures Words(DeleteCommand(r))
            == ["tkgi", "get-kubeconfig", r.cluster, "&&", "kubectl", "-n", r.namespace, "delete", "pod", r.name]
  {
    var ws := DeleteWords(r);
    forall i | 0 <= i < |ws|
      ensures ws[i] != [] && NoneWhere(ws[i], IsSpace)
    {
    }
    DeleteCommandJoin(r);
    WordsJoin(ws);
  }

  // ------------------------------------------------------- the confirmation

  /** The answer to the prompt confirms exactly when, stripped of
      surrounding whitespace and lower-cased, it is "y". */
  predicate Confirmed(answer: string)
  {
    Lower(Strip(answer)) == "y"
  }

  /** The script file: the commands joined by newlines. */
  function Script(commands: seq<string>): string
  {
    Join(commands, '\n')
  }

  /** The command lines bash runs: those of the script when confirmed,
      none otherwise. */
  function Executed(commands: seq<string>, answer: string): seq<string>
  {
    if Confirmed(answer) then NonEmpty(Split(Script(commands), '\n')) else []
  }

  /** Confirmed, the script runs exactly the planned commands, in order;
      declined, it runs none. */
  lemma ExecutedCommands(commands: seq<string>, answer: string)
    requires forall i :: 0 <= i < |commands| ==> commands[i] != [] && '\n' !in commands[i]
    ensures Executed(commands, answer) == if Confirmed(answer) then commands else []
  {
    var isNewline := c => c == '\n';
    if commands == [] {
      assert SplitWhere("", isNewline) == [""];
    } else {
      forall i | 0 <= i < |commands|
        ensures NoneWhere(commands[i], isNewline)
      {
      }
      SplitWhereJoin(commands, '\n', isNewline);
    }
  }

  /** For the runners of a snapshot without line breaks in their cluster,
      namespace or pod name: confirmed, the delete commands of exactly the
      selected runners run; declined, nothing runs. */
  lemma PlanExecuted(rows: seq<Record>, status: string, orgFilter: string, allOrgs: bool, answer: string)
    requires forall i :: 0 <= i < |rows| ==>
               '\n' !in rows[i].cluster && '\n' !in rows[i].namespace && '\n' !in rows[i].name
    ensures var commands := PlanOf(rows, status, orgFilter, allOrgs).commands;
            Executed(commands, answer) == if Confirmed(answer) then commands else []
  {
    var picked := Select(rows, status, orgFilter, allOrgs);
    var commands := Commands(picked);
    SelectMembers(rows, status, orgFilter, allOrgs);
    forall i | 0 <= i < |commands|
      ensures commands[i] != [] && '\n' !in commands[i]
    {
      assert picked[i] in rows;
      CommandLine(picked[i]);
    }
    ExecutedCommands(commands, answer);
  }

  /** A delete command is one non-empty line when the runner's names are. */
  lemma CommandLine(r: Record)
    requires '\n' !in r.cluster && '\n' !in r.namespace && '\n' !in r.name
    ensures DeleteCommand(r) != [] && '\n' !in DeleteCommand(r)
  {
    assert '\n' !in "tkgi get-kubeconfig " && '\n' !in " && kubectl -n " && '\n' !in " delete pod ";
  }

  /** "y" or "Y" with any surrounding whitespace confirms. */
  lemma ConfirmedAccepts(before: string, c: char, after: string)
    requires AllSpace(before) && AllSpace(after) && (c == 'y' || c == 'Y')
    ensures Confirmed(before + [c] + after)
  {
    StripSpaces(before, [c], after);
  }

  /** Nothing else confirms: a confirming answer strips to a single 'y' or
      'Y'. */
  lemma ConfirmedOnlyY(answer: string)
    requires Confirmed(answer)
    ensures Strip(answer) == "y" || Strip(answer) == "Y"
  {
    var m := Strip(answer);
    assert |m| == 1;
    assert Lower(m)[0] == LowerChar(m[0]);
    assert m[0] == 'y' || m[0] == 'Y';
    assert m == [m[0]];
  }

  /** The answers "yes", "n" and the empty answer do not confirm. */
  lemma DeclinedAnswers()
    ensures !Confirmed("yes") && !Confirmed("n") && !Confirmed("")
  {
    StripSpaces("", "yes", "");
    assert "" + "yes" + "" == "yes";
    StripSpaces("", "n", "");
    assert "" + "n" + "" == "n";
    StripSpaces("", "", "");
    assert "" + "" + "" == "";
  }
}
