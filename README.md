# Ephemeral runner fleet report, modelled in Dafny

`clutseratcc2.py` takes stock of the ephemeral CI runners in a fleet of
Kubernetes clusters. It works in two phases.

1. **Collection.** It reads a catalog file listing cluster, API endpoint and
   namespace. It logs in to each cluster and queries every namespace of that
   cluster in parallel. Each printed line becomes one snapshot row holding
   the runner's name, configuration URL, organisation, runner id, age and a
   status classified from its ready and total replica counts.
2. **Reporting.** It reads the snapshot back and prints one of these reports,
   chosen by a positional option:
   - a summary counted per organisation;
   - a listing of the runners in one status;
   - a per-cluster, per-namespace details report;
   - a deletion plan for pending or failed runners. The plan is written out
     as a shell script and runs only after the operator answers "y".

The model has one module per component:

| module | what it holds |
|---|---|
| `Wrappers` | The optional and error results. |
| `Results` | The fold over per-step results. The first raised error ends a pass, as an exception escaping `future.result()` does. |
| `Text` | The Python string operations the script relies on: `split`, `split()`, `strip`, ASCII `lower`, `replace`, `splitlines`, `"\n".join`, decimal integers. |
| `Runner` | The snapshot row and the status classification, age label and organisation of one runner. |
| `Scanner` | `process_namespace`. |
| `Catalog` | `read_clusters_and_namespaces`. |
| `Collector` | The collection loop over clusters and namespaces. |
| `Snapshot` | The insertion-ordered grouping that every `setdefault(...).append(...)` loop builds, and the status counters. |
| `Summary` | The summary report. |
| `Listing` | The status report. |
| `Deletion` | The delete plan and its confirmation. |
| `Details` | The details report. |
| `Options` | The option choices and the status each option selects. |

Each loop of the script becomes a method with loop invariants. The method is
proved equal to a function that specifies it, and the lemmas beside that
function state what the report means.

Some of the script's behaviour differs from what its usage text or a
casual reading suggests. The model follows the script:

- **Malformed scan lines are fatal.** A query line with more than six columns
  raises `ValueError`. A URL that has a `/` but no fourth segment raises
  `IndexError`. Neither is caught, so either one ends the run instead of
  the line being skipped.
- **Only "y" confirms a deletion.** After stripping and lower-casing, the
  answer must be exactly "y"; "yes" does not confirm.
- **The delete options are named `DeletePending` and `DeleteFailed`**, and
  the status options `running`, `pending` and `failed`. The choices list
  each of them with and without a leading dash. `argparse` reads an argument
  that starts with `-` as an option flag, so a dashed choice reaches the
  script only after `--`. The model starts from the option as parsed.
- **The details report never runs** (see "## Findings").

## Model

| member | source | states |
|---|---|---|
| Runner.Classify | clutseratcc2.py:67-72 | Running exactly when ready equals total and is neither empty nor "0". Failed exactly when ready is "0". Pending in every other case. |
| Runner.ClassifyExamples | clutseratcc2.py:67-72 | 2/2 is Running, 0/2 and 0/0 are Failed, 1/2 and an empty pair are Pending. |
| Runner.Minutes | clutseratcc2.py:63 | `int(secs / 60)` truncates toward zero: the result is the whole minutes, within one minute of the seconds, on the side nearer zero. |
| Runner.AgeLabelRoundTrip | clutseratcc2.py:61-66 | An unparsable timestamp gives "N/A", which reads back as no age. A parsed one gives a label that reads back as exactly its whole minutes. The label is "0m" only for a parsed timestamp less than a minute away. |
| Runner.OrgOfSegment | clutseratcc2.py:60 | A found organisation contains no '/'. The URL is the '/'-join of '/'-free segments, that is, of its own split on '/', and the organisation is the fourth of them. |
| Runner.OrgOfGitHubUrl | clutseratcc2.py:60 | For `scheme://host/org` and `scheme://host/org/...`, the organisation is `org`. |
| Scanner.ProcessNamespace | clutseratcc2.py:50-74 | A failed query yields no rows. Otherwise the result is the scan of the stripped output's lines: a short line is skipped, and a line with too many columns or a bad URL raises. |
| Scanner.ScanLine | clutseratcc2.py:56-73 | A line of fewer than six columns gives no row, and one of more than six raises. A six-column line raises exactly when its URL has a '/' but no fourth segment. Otherwise it gives one row: the cluster, endpoint and namespace queried, name, URL and id from columns 1, 2 and 3, the organisation of the URL, the age label of column 6, and the status name of columns 4 and 5, one of the three. |
| Scanner.ScanLinesOk | clutseratcc2.py:56-60 | A scan succeeds exactly when no line has more than six columns and every six-column line has a URL the organisation can be read from. |
| Scanner.ScanLinesCount | clutseratcc2.py:55-73 | A successful scan yields exactly one row per six-column line. |
| Scanner.ShortLineIgnored | clutseratcc2.py:57-58 | A line of fewer than six columns changes nothing. |
| Scanner.ScanLinesAppend | clutseratcc2.py:55-73 | Rows come out in line order: scanning a + b combines the scans of a and b. |
| Scanner.ParseSixColumns | clutseratcc2.py:56-73 | Six space-joined columns give the row built from those same columns, with its organisation, age and status. |
| Scanner.ScanNamespaceRows | clutseratcc2.py:73 | Every scanned row carries the queried cluster, endpoint and namespace, and one of the three status names. |
| Catalog.ReadClustersAndNamespaces | clutseratcc2.py:23-31 | The loop builds the catalog function's result, including the error on a row shorter than three fields. |
| Catalog.CatalogOk | clutseratcc2.py:28 | Reading succeeds exactly when every row has at least three fields. |
| Catalog.CatalogFailedPrefix | clutseratcc2.py:27-28 | The first short row decides the error; later rows do not matter. |
| Catalog.CatalogMembers | clutseratcc2.py:27-30 | A namespace is filed under a (cluster, endpoint) key exactly when some row names all three. |
| Catalog.CatalogKeysNonEmpty | clutseratcc2.py:30 | Every key has at least one namespace. |
| Catalog.CatalogDuplicateRow | clutseratcc2.py:30 | Repeating a row changes nothing, because namespaces form a set. |
| Catalog.CatalogSameRows | clutseratcc2.py:27-30 | Row order and repetition do not change the catalog. |
| Collector.CollectSnapshot | clutseratcc2.py:97-110 | The loop builds the collection function's result: skip clusters that fail to log in, and concatenate the scans of each cluster's namespaces. |
| Collector.CollectProvenance | clutseratcc2.py:97-110 | Every collected row comes from a logged-in target with the same cluster and endpoint and one of its namespaces, and has one of the three status names. |
| Collector.CollectComplete | clutseratcc2.py:105-110 | Conversely, in a successful pass every namespace of every logged-in target scanned successfully, and all of its rows are in the snapshot, each at least as often as the scan gave it. |
| Collector.CollectMembers | clutseratcc2.py:97-110 | A row is in a successful snapshot exactly when some namespace of some logged-in target scanned it. |
| Collector.CollectFromCatalog | clutseratcc2.py:97-110 | When the targets enumerate a catalog, with each key once and each namespace set once, every collected row comes from a catalog namespace. Every row a logged-in catalog namespace scanned is collected. |
| Collector.UnauthenticatedClusterSkipped | clutseratcc2.py:102-104 | A cluster that fails to log in contributes nothing. |
| Collector.FailedQuerySkipped | clutseratcc2.py:50-53 | A namespace whose query fails contributes nothing. |
| Collector.OneNamespaceFails | clutseratcc2.py:105-110 | When the query of one of two namespaces fails, so that it yields no rows, the snapshot is exactly the other's rows. |
| Collector.NamespaceOrderIrrelevant | clutseratcc2.py:105-108 | The completion order of the parallel namespace scans changes neither success nor the multiset of rows. |
| Collector.CollectOrderIrrelevant | clutseratcc2.py:97-108 | Neither does the order of clusters, nor the order of each cluster's namespaces. |
| Results.ConcatMapFailedPrefix | clutseratcc2.py:107-108 | Once a step has raised, the whole pass ends with that error. |
| Snapshot.GroupByMembers | clutseratcc2.py:204-210 | A group holds exactly the entries of the rows with its key, in snapshot order, and is never empty. The keys are exactly the keys of the rows. |
| Snapshot.GroupSizesSum | clutseratcc2.py:210-212 | The group sizes add up to the number of rows. |
| Snapshot.GroupCountsSum | clutseratcc2.py:189-192 | The per-group counters add up to the counters of the whole snapshot. |
| Snapshot.CountsOfBounds | clutseratcc2.py:185-188 | The total is the number of rows. Running, failed and pending add up to at most the total, and to exactly the total when every status is one of the three. |
| Summary.Tally | clutseratcc2.py:185-188 | Counts one row: total always, plus the one counter its lower-cased status names, if any. |
| Summary.CountByOrg | clutseratcc2.py:180-188 | The loop leaves the organisations in first-seen order, each with the counters of its rows. |
| Summary.Summarize | clutseratcc2.py:180-192 | The loops build the summary function's result: the per-organisation lines and the grand total. |
| Summary.SummaryGrandTotal | clutseratcc2.py:189-194 | The grand total is the count of the whole snapshot, and its total is the number of rows. |
| Summary.SummaryLine | clutseratcc2.py:180-188 | An organisation has a line exactly when some row's lower-cased organisation is it. Its counters are those of exactly those rows, with a total of at least one. |
| Summary.SummaryLineExact | clutseratcc2.py:185-188 | When every status is one of the three, running, failed and pending add up to the total. |
| Summary.ScannedStatusKnown | clutseratcc2.py:67-72 | Every status the scanner writes is one the summary counts. |
| Listing.SelectMembers | clutseratcc2.py:208 | A row is listed exactly when its lower-cased status is the requested one and either all organisations are wanted, there is no filter, or the filter equals its lower-cased organisation. |
| Listing.OrgFilter | clutseratcc2.py:198 | No `--org` gives the empty filter. Otherwise the filter is the argument lower-cased: of the same length, and unchanged by lower-casing again. |
| Listing.OrgFilterIgnoresCase | clutseratcc2.py:198-208 | A non-empty `--org` matches an organisation regardless of the case of either. |
| Listing.StatusListing | clutseratcc2.py:196-212 | The loop builds the listing function's result: per raw organisation, its runners and count, plus the grand total. |
| Listing.ListingTotals | clutseratcc2.py:209-212 | The grand total is the number of selected rows and the sum of the counts. Each organisation's runners are exactly its selected rows, in order, and its count is their number, at least one. An organisation appears exactly when a selected row has it. |
| Listing.AllOrgsIgnoresFilter | clutseratcc2.py:199-208 | With `-AllOrgs`, the organisation filter makes no difference. |
| Listing.AllOrgsListing | clutseratcc2.py:199-208 | Likewise for the whole listing. |
| Listing.SelectAppend | clutseratcc2.py:204-208 | Selection goes row by row: selecting from a + b is selecting from a, then from b. |
| Deletion.Commands | clutseratcc2.py:241 | One delete command per selected runner, in order. |
| Deletion.PlanDeletion | clutseratcc2.py:220-241 | The loop builds the plan function's result: the listing of the doomed runners and their delete commands. |
| Deletion.PlanMatchesReport | clutseratcc2.py:229-241 | The plan lists the same organisations and counts as the status report for the same rows. It holds exactly grand-total commands, command i deleting selected runner i. |
| Deletion.DeleteCommandWords | clutseratcc2.py:241 | For space-free names, a command is the words `tkgi get-kubeconfig <cluster> && kubectl -n <namespace> delete pod <name>`. |
| Deletion.ExecutedCommands | clutseratcc2.py:249-257 | When the answer confirms, the script runs exactly the written commands, in order. Otherwise it runs none. |
| Deletion.PlanExecuted | clutseratcc2.py:241-257 | For the commands of a plan, nothing runs without confirmation, and a confirmed plan runs exactly its commands. |
| Deletion.ConfirmedAccepts | clutseratcc2.py:253-254 | "y" or "Y" with any surrounding whitespace confirms. |
| Deletion.ConfirmedOnlyY | clutseratcc2.py:253-254 | Every confirming answer strips to exactly "y" or "Y". |
| Deletion.DeclinedAnswers | clutseratcc2.py:253-254 | "yes", "n" and the empty answer do not confirm. |
| Details.GroupDetails | clutseratcc2.py:132-134 | The loop builds the two-level grouping: clusters in first-seen order, and each cluster's namespaces in first-seen order. |
| Details.CountCluster | clutseratcc2.py:140-155 | One counter pass: namespaces checked is the number of namespaces. Total and running are the sums over the namespaces. Not-running plus running is the total. |
| Details.ReportDetails | clutseratcc2.py:132-155 | The loops build the details function's result, with one counter set per cluster. |
| Details.StatsMeaning | clutseratcc2.py:140-160 | For one cluster, the total is its number of rows and running plus not-running is the total. Namespaces checked is its number of distinct namespaces: at least one, and at most the total. |
| Details.StatsFromCounters | clutseratcc2.py:140-155 | Counters meeting the counter pass's contract are exactly the cluster's statistics. |
| Details.ClusterCounters | clutseratcc2.py:134-160 | A cluster is reported exactly when some row has it, and its counters are those of exactly its rows. |
| Details.DetailsTotal | clutseratcc2.py:133-150 | The cluster totals add up to the number of rows. |
| Details.DetailsAsWrittenNeverReports | clutseratcc2.py:133-167 | As written, the details branch raises for every snapshot, while the intended branch reports every row's cluster. |
| Options.StatusOption | clutseratcc2.py:196-197 | `running`, `pending` and `failed`, with or without a dash, select the status report for that same status. |
| Options.DeleteOption | clutseratcc2.py:220-221 | `DeletePending` and `DeleteFailed`, with or without a dash, select the delete report for the lower-cased status: "pending" for `DeletePending`, "failed" for `DeleteFailed`. |
| Options.ModeChoices | clutseratcc2.py:88 | Only the fourteen listed choices select a report. |
| Options.DashedStatus | clutseratcc2.py:197 | Removing dashes and lower-casing ignores a leading dash. |
| Options.DeleteStatus | clutseratcc2.py:221 | Removing "-Delete" and then "Delete" leaves the status. |
| Options.ReplaceRemoves | clutseratcc2.py:197 | Replacing "-" by "" removes every dash and keeps everything else in order. |
| Text.WordsJoin | clutseratcc2.py:56 | `split()` of space-joined non-empty words without whitespace gives back those words. |
| Text.JoinSplit | clutseratcc2.py:60 | Joining the '/'-split of a URL gives back the URL. |
| Text.StripSpaces | clutseratcc2.py:253 | `strip()` removes exactly the surrounding whitespace. |

## Left out

- Files are not modelled: reading the catalog and snapshot CSV files, writing the snapshot, `copyfile`, `makedirs`, and writing the script to `/tmp/delete_{status}_runners.sh`. The catalog comes in as a list of field lists, and the reports take the snapshot as a list of rows.
- The CSV round trip of the snapshot is not modelled: the reports read the same rows the collection wrote.
- `prompt_credentials` and the confirmation `input` are parameters: the credentials are not modelled, and the answer is a string.
- `authenticate` (`tkgi get-kubeconfig`) is an oracle: a predicate on cluster and endpoint.
- The `kubectl get` query is an oracle: an optional output text per namespace, where None is a failed query.
- Bash is not modelled; running the script is its non-empty lines.
- The thread pool is not modelled. The order in which its futures complete is captured by lemmas saying the order of namespaces and clusters does not change the rows collected.
- Time and dates are not modelled: `datetime.now`, `strptime` and float division. They are replaced by a parameter giving the integer seconds elapsed for a timestamp text, or None when it does not parse.
- The `OUTPUT_FILE` naming is not modelled.
- Printing is not modelled: table formatting, the usage text (:116-128) and exit codes.
- Argument parsing itself is not modelled. The option is taken as already parsed, and only its choices are modelled.
- Options.ModeOf: maps every listed choice, dashed ones included, to its report. On the command line, `argparse` reads a dashed choice such as `-summary` as an unknown flag and rejects it at :91, unless it follows `--`. The model does not capture that rejection.
- Text.Lower: lower-cases ASCII letters only, where Python's `lower()` covers all of Unicode.
- Text.Lines: splits at '\n', '\r' and the other line boundaries as single separators, so "\r\n" yields an empty line between them. That extra line is short and gives no row.

## Findings

| source | as written | input that shows it | evidently intended | confidence | as-written member | corrected member |
|---|---|---|---|---|---|---|
| clutseratcc2.py:133-167 | The details branch iterates `rows` at :133, but `rows` is first assigned at :167, further down the same function. Python treats it as a local, so the branch raises `UnboundLocalError`. | `details` with any snapshot, e.g. one row | Report the snapshot's rows per cluster and namespace, with the counters. | not executed | Details.DetailsAsWritten (with Details.DetailsAsWrittenNeverReports) | Details.DetailsIntended (with Details.ReportDetails, Details.ClusterCounters, Details.StatsMeaning, Details.DetailsTotal) |
