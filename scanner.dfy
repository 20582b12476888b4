/** The namespace scanner: turns the text a workload query printed into
    snapshot rows, one per well-formed line. */
module Scanner {
  import opened Wrappers
  import opened Text
  import opened Results
  import opened Runner

  /** One line of query output. A line of fewer than six whitespace-separated
      columns gives no row; more than six raise (the six-way unpack fails);
      six give one row. elapsed stands for parsing the creation timestamp and
      subtracting it from the collection instant: seconds, or None when the
      timestamp does not parse. */
  function ParseLine(cluster: string, api: string, ns: string, line: string,
                     elapsed: string -> Option<int>): Result<seq<Record>, ScanError>
  {
    var parts := Words(line);
    if |parts| < 6 then Ok([])
    else if |parts| > 6 then Err(TooManyFields(line))
    else
      match OrgOf(parts[1])
      case Err(e) => Err(e)
      case Ok(org) =>
        Ok([Record(cluster, api, ns, parts[0], parts[1], org, parts[2],
                   AgeLabel(elapsed(parts[5])), StatusName(Classify(parts[3], parts[4])))])
  }

  function LineParser(cluster: string, api: string, ns: string,
                      elapsed: string -> Option<int>): string -> Result<seq<Record>, ScanError>
  {
    line => ParseLine(cluster, api, ns, line, elapsed)
  }

  /** The rows of a sequence of lines, in line order. */
  function ScanLines(cluster: string, api: string, ns: string, lines: seq<string>,
                     elapsed: string -> Option<int>): Result<seq<Record>, ScanError>
  {
    ConcatMap(lines, LineParser(cluster, api, ns, elapsed))
  }

  /** What scanning one namespace yields: no rows when the query failed
      (output is None), otherwise the rows of its stripped output's lines. */
  function ScanNamespace(cluster: string, api: string, ns: string, output: Option<string>,
                         elapsed: string -> Option<int>): Result<seq<Record>, ScanError>
  {
    match output
    case None => Ok([])
    case Some(text) => ScanLines(cluster, api, ns, Lines(Strip(text)), elapsed)
  }

  /** process_namespace, from the query's outcome on: walks the lines,
      skips the short ones and appends one row per six-column line. */
  method ProcessNamespace(cluster: string, api: string, ns: string, output: Option<string>,
                          elapsed: string -> Option<int>) returns (r: Result<seq<Record>, ScanError>)
    ensures r == ScanNamespace(cluster, api, ns, output, elapsed)
  {
    if output.None? {
      return Ok([]);
    }
    var lines := Lines(Strip(output.value));
    var results: seq<Record> := [];
    for i := 0 to |lines|
      invariant ScanLines(cluster, api, ns, lines[..i], elapsed) == Ok(results)
    {
      var rows := ScanLine(cluster, api, ns, lines[i], elapsed);
      if rows.Err? {
        ScanLinesStop(cluster, api, ns, lines, i, elapsed, results);
        return rows;
      }
      ScanLinesExtend(cluster, api, ns, lines, i, elapsed, results, rows.value);
      results := results + rows.value;
    }
    assert lines[..|lines|] == lines;
    r := Ok(results);
  }

  /** The body of process_namespace's loop for one line: skips a short
      line, raises on a long one or on an unusable configuration URL, and
      otherwise builds the row. */
  method ScanLine(cluster: string, api: string, ns: string, line: string,
                  elapsed: string -> Option<int>) returns (r: Result<seq<Record>, ScanError>)
    ensures r == ParseLine(cluster, api, ns, line, elapsed)
    ensures |Words(line)| < 6 ==> r == Ok([])
    ensures |Words(line)| > 6 ==> r == Err(TooManyFields(line))
    ensures |Words(line)| == 6 ==> (r.Ok? <==> OrgOf(Words(line)[1]).Ok?)
    ensures |Words(line)| == 6 && r.Err? ==> r == Err(MissingOrgSegment(Words(line)[1]))
    ensures |Words(line)| == 6 && r.Ok? ==>
      var w := Words(line);
      |r.value| == 1 && r.value[0].cluster == cluster && r.value[0].api == api && r.value[0].namespace == ns
      && r.value[0].name == w[0] && r.value[0].configUrl == w[1] && r.value[0].runnerId == w[2]
      && r.value[0].org == OrgOf(w[1]).value && r.value[0].age == AgeLabel(elapsed(w[5]))
      && r.value[0].status == StatusName(Classify(w[3], w[4]))
      && r.value[0].status in {"Running", "Failed", "Pending"}
  {
    var parts := Words(line);
    if |parts| < 6 {
      return Ok([]);
    }
    if |parts| > 6 {
      return Err(TooManyFields(line));
    }
    var name, configUrl, runnerId, ready, total, creationTs :=
      parts[0], parts[1], parts[2], parts[3], parts[4], parts[5];
    var org := OrgOf(configUrl);
    if org.Err? {
      return Err(org.error);
    }
    var age := AgeLabel(elapsed(creationTs));
    var status := StatusName(Classify(ready, total));
    r := Ok([Record(cluster, api, ns, name, configUrl, org.value, runnerId, age, status)]);
  }

  /** A line that parses extends the rows of the lines before it. */
  lemma ScanLinesExtend(cluster: string, api: string, ns: string, lines: seq<string>, i: nat,
                        elapsed: string -> Option<int>, results: seq<Record>, rows: seq<Record>)
    requires i < |lines|
    requires ScanLines(cluster, api, ns, lines[..i], elapsed) == Ok(results)
    requires ParseLine(cluster, api, ns, lines[i], elapsed) == Ok(rows)
    ensures ScanLines(cluster, api, ns, lines[..i + 1], elapsed) == Ok(results + rows)
  {
    ScanLinesStep(cluster, api, ns, lines, i, elapsed);
  }

  /** A line that fails to parse ends the scan with its error. */
  lemma ScanLinesStop(cluster: string, api: string, ns: string, lines: seq<string>, i: nat,
                      elapsed: string -> Option<int>, results: seq<Record>)
    requires i < |lines|
    requires ScanLines(cluster, api, ns, lines[..i], elapsed) == Ok(results)
    requires ParseLine(cluster, api, ns, lines[i], elapsed).Err?
    ensures ScanLines(cluster, api, ns, lines, elapsed) == ParseLine(cluster, api, ns, lines[i], elapsed)
  {
    ScanLinesStep(cluster, api, ns, lines, i, elapsed);
    ConcatMapFailedPrefix(lines, i + 1, LineParser(cluster, api, ns, elapsed));
  }

  lemma ScanLinesStep(cluster: string, api: string, ns: string, lines: seq<string>, i: nat,
                      elapsed: string -> Option<int>)
    requires i < |lines|
    ensures ScanLines(cluster, api, ns, lines[..i + 1], elapsed)
         == Combine(ScanLines(cluster, api, ns, lines[..i], elapsed), ParseLine(cluster, api, ns, lines[i], elapsed))
  {
    assert lines[..i + 1][..i] == lines[..i];
  }

  /** The number of lines with exactly six columns. */
  function SixColumnLines(lines: seq<string>): nat
  {
    if lines == [] then 0
    else SixColumnLines(lines[..|lines| - 1]) + (if |Words(lines[|lines| - 1])| == 6 then 1 else 0)
  }

  /** A line with fewer than six columns contributes nothing. */
  lemma ShortLineIgnored(cluster: string, api: string, ns: string, lines: seq<string>, line: string,
                         elapsed: string -> Option<int>)
    requires |Words(line)| < 6
    ensures ScanLines(cluster, api, ns, lines + [line], elapsed) == ScanLines(cluster, api, ns, lines, elapsed)
  {
    var all := lines + [line];
    assert all[..|all| - 1] == lines;
    var before := ScanLines(cluster, api, ns, lines, elapsed);
    assert before.Ok? ==> before.value + [] == before.value;
  }

  /** Rows come out in the order of the lines that produced them. */
  lemma ScanLinesAppend(cluster: string, api: string, ns: string, a: seq<string>, b: seq<string>,
                        elapsed: string -> Option<int>)
    ensures ScanLines(cluster, api, ns, a + b, elapsed)
         == Combine(ScanLines(cluster, api, ns, a, elapsed), ScanLines(cluster, api, ns, b, elapsed))
  {
    ConcatMapAppend(a, b, LineParser(cluster, api, ns, elapsed));
  }

  /** Scanning succeeds exactly when no line has more than six columns and
      every six-column line has a usable configuration URL. */
  lemma ScanLinesOk(cluster: string, api: string, ns: string, lines: seq<string>,
                    elapsed: string -> Option<int>)
    ensures ScanLines(cluster, api, ns, lines, elapsed).Ok? <==>
      forall i :: 0 <= i < |lines| ==>
        |Words(lines[i])| <= 6 && (|Words(lines[i])| == 6 ==> OrgOf(Words(lines[i])[1]).Ok?)
  {
    ConcatMapOk(lines, LineParser(cluster, api, ns, elapsed));
  }

  /** A successful scan yields exactly one row per six-column line. */
  lemma {:induction false} ScanLinesCount(cluster: string, api: string, ns: string, lines: seq<string>,
                                          elapsed: string -> Option<int>)
    requires ScanLines(cluster, api, ns, lines, elapsed).Ok?
    ensures |ScanLines(cluster, api, ns, lines, elapsed).value| == SixColumnLines(lines)
  {
    if lines != [] {
      var prefix := lines[..|lines| - 1];
      ScanLinesCount(cluster, api, ns, prefix, elapsed);
    }
  }

  /** A line printed as six space-separated columns becomes the row built
      from those columns, the organisation taken from the URL column. */
  lemma ParseSixColumns(cluster: string, api: string, ns: string,
                        name: string, url: string, id: string, ready: string, total: string, created: string,
                        elapsed: string -> Option<int>)
    requires forall w :: w in [name, url, id, ready, total, created] ==> w != [] && NoneWhere(w, IsSpace)
    requires OrgOf(url).Ok?
    ensures ParseLine(cluster, api, ns, Join([name, url, id, ready, total, created], ' '), elapsed)
         == Ok([Record(cluster, api, ns, name, url, OrgOf(url).value, id,
                       AgeLabel(elapsed(created)), StatusName(Classify(ready, total)))])
  {
    var columns := [name, url, id, ready, total, created];
    assert forall i :: 0 <= i < |columns| ==> columns[i] in columns;
    WordsJoin(columns);
  }

  /** Every row of a namespace's scan belongs to that namespace, carries one
      of the three status names and an age label. */
  lemma ScanNamespaceRows(cluster: string, api: string, ns: string, output: Option<string>,
                          elapsed: string -> Option<int>, rec: Record)
    requires ScanNamespace(cluster, api, ns, output, elapsed).Ok?
    requires rec in ScanNamespace(cluster, api, ns, output, elapsed).value
    ensures rec.cluster == cluster && rec.api == api && rec.namespace == ns
    ensures rec.status in {"Running", "Failed", "Pending"}
  {
    var lines := Lines(Strip(output.value));
    var parse := LineParser(cluster, api, ns, elapsed);
    ConcatMapProvenance(lines, parse, rec);
    var i :| 0 <= i < |lines| && parse(lines[i]).Ok? && rec in parse(lines[i]).value;
    ParseLineRows(cluster, api, ns, lines[i], elapsed, rec);
  }

  lemma ParseLineRows(cluster: string, api: string, ns: string, line: string,
                      elapsed: string -> Option<int>, rec: Record)
    requires ParseLine(cluster, api, ns, line, elapsed).Ok?
    requires rec in ParseLine(cluster, api, ns, line, elapsed).value
    ensures rec.cluster == cluster && rec.api == api && rec.namespace == ns
    ensures rec.status in {"Running", "Failed", "Pending"}
  {
  }
}
