/** One observed CI runner: its status classification, its age label and
    the organisation read from its configuration URL. */
module Runner {
  import opened Wrappers
  import opened Text

  datatype Status = Running | Failed | Pending

  /** The text the scanner writes into the Status column. */
  function StatusName(s: Status): string
  {
    match s
    case Running => "Running"
    case Failed => "Failed"
    case Pending => "Pending"
  }

  /** One row of the snapshot, in the column order of the report file:
      Cluster, API_Endpoint, Namespace, Runner_Name, GitHub_Config_URL,
      Org_Name, Runner_ID, Age, Status. A snapshot read back from the file
      may carry any text in any column, hence strings throughout. */
  datatype Record = Record(
    cluster: string, api: string, namespace: string, name: string,
    configUrl: string, org: string, runnerId: string, age: string, status: string)

  /** Why scanning a namespace raises instead of returning rows. */
  datatype ScanError =
    | TooManyFields(line: string)    // unpacking more than six columns
    | MissingOrgSegment(url: string) // a '/' in the URL but no fourth segment

  /** Classifies a runner from its ready and total replica counts, taken
      as the raw column text. */
  function Classify(ready: string, total: string): (st: Status)
    ensures st == Running <==> ready == total && ready != "" && ready != "0"
    ensures st == Failed <==> ready == "0"
    ensures st == Pending <==> ready != "0" && (ready != total || ready == "")
  {
    if ready == total && ready != "" && total != "" && ready != "0" then Running
    else if ready == "0" then Failed
    else Pending
  }

  /** Worked classifications: all replicas ready is Running, none ready is
      Failed, some ready is Pending, and "0" ready out of "0" is Failed, not
      Running. */
  lemma ClassifyExamples()
    ensures Classify("2", "2") == Running
    ensures Classify("0", "2") == Failed
    ensures Classify("1", "2") == Pending
    ensures Classify("0", "0") == Failed
    ensures Classify("", "") == Pending
  {
  }

  /** int(secs / 60): whole minutes, truncated toward zero. */
  function Minutes(secs: int): (m: int)
    ensures 0 <= secs ==> 0 <= m && 60 * m <= secs < 60 * m + 60
    ensures secs < 0 ==> m <= 0 && 60 * m - 60 < secs <= 60 * m
  {
    if secs >= 0 then secs / 60 else -((-secs) / 60)
  }

  /** The Age column: whole elapsed minutes followed by "m", or "N/A" when
      the creation timestamp did not parse (elapsed is None). */
  function AgeLabel(elapsed: Option<int>): string
  {
    match elapsed
    case None => "N/A"
    case Some(secs) => IntToString(Minutes(secs)) + "m"
  }

  /** Reads an Age column back: the minutes, or None for "N/A" and
      anything else that is not a label AgeLabel writes. */
  function AgeMinutes(age: string): Option<int>
  {
    if |age| >= 1 && age[|age| - 1] == 'm' then ParseInt(age[..|age| - 1]) else None
  }

  /** The age label keeps exactly the elapsed minutes, and an unparsable
      timestamp is never mistaken for an age of zero. */
  lemma AgeLabelRoundTrip(elapsed: Option<int>)
    ensures elapsed.None? ==> AgeLabel(elapsed) == "N/A" && AgeMinutes(AgeLabel(elapsed)) == None
    ensures elapsed.Some? ==> AgeMinutes(AgeLabel(elapsed)) == Some(Minutes(elapsed.value))
    ensures AgeLabel(elapsed) == "0m" <==> elapsed.Some? && -60 < elapsed.value < 60
  {
    if elapsed.Some? {
      var age := AgeLabel(elapsed);
      var m := Minutes(elapsed.value);
      assert age[..|age| - 1] == IntToString(m);
      ParseIntToString(m);
      if age == "0m" {
        assert IntToString(m) == "0";
        if m >= 0 {
          assert NatToString(m)[0] == '0';
        }
      }
    }
  }

  /** The Org_Name column: the fourth '/'-separated segment of the URL, the
      empty string for a URL without '/', and an error where Python's
      url.split('/')[3] raises IndexError. */
  function OrgOf(url: string): Result<string, ScanError>
  {
    if '/' !in url then Ok("")
    else
      var segments := Split(url, '/');
      if |segments| >= 4 then Ok(segments[3]) else Err(MissingOrgSegment(url))
  }

  /** An organisation read from a URL is a whole segment: the URL is the
      '/'-join of '/'-free segments, and the organisation is the fourth. */
  lemma OrgOfSegment(url: string)
    requires '/' in url && OrgOf(url).Ok?
    ensures '/' !in OrgOf(url).value
    ensures exists segments :: |segments| >= 4 && segments[3] == OrgOf(url).value && Join(segments, '/') == url
                               && forall i :: 0 <= i < |segments| ==> '/' !in segments[i]
  {
    var segments := Split(url, '/');
    JoinSplit(url, '/');
    forall i | 0 <= i < |segments|
      ensures '/' !in segments[i]
    {
      assert NoneWhere(segments[i], c => c == '/');
    }
  }

  /** For a URL of the form scheme://host/org or scheme://host/org/..., the
      organisation is org. */
  lemma OrgOfGitHubUrl(scheme: string, host: string, org: string, tail: string)
    requires '/' !in scheme && '/' !in host && '/' !in org
    requires tail == [] || tail[0] == '/'
    ensures OrgOf(scheme + "//" + host + "/" + org + tail) == Ok(org)
  {
    var isSlash := c => c == '/';
    var url := scheme + "//" + host + "/" + org + tail;
    assert NoneWhere(scheme, isSlash) && NoneWhere(host, isSlash) && NoneWhere(org, isSlash);
    assert url == scheme + ['/'] + ([] + ['/'] + (host + ['/'] + (org + tail)));
    SplitWhereField(scheme, '/', [] + ['/'] + (host + ['/'] + (org + tail)), isSlash);
    SplitWhereField([], '/', host + ['/'] + (org + tail), isSlash);
    SplitWhereField(host, '/', org + tail, isSlash);
    if tail == [] {
      assert org + tail == org;
      SplitWhereNone(org, isSlash);
    } else {
      assert org + tail == org + ['/'] + tail[1..];
      SplitWhereField(org, '/', tail[1..], isSlash);
    }
    assert url[|scheme|] == '/';
  }
}
