/** The report option: which report runs, and the status a status or delete
    report looks for, derived from the option's text. */
module Options {
  import opened Wrappers
  import opened Text

  /** What the script does after collecting. */
  datatype Mode =
    | Usage                      // no option: print the usage text and stop
    | DetailsReport
    | SummaryReport
    | StatusReport(status: string)
    | DeleteReport(status: string)

  const SummaryChoices: seq<string> := ["summary", "-summary"]
  const DetailsChoices: seq<string> := ["details", "-details"]
  const StatusChoices: seq<string> := ["running", "-running", "pending", "-pending", "failed", "-failed"]
  const DeleteChoices: seq<string> := ["DeletePending", "-DeletePending", "DeleteFailed", "-DeleteFailed"]

  /** The status a status report looks for: the option without its dashes,
      lower-cased. */
  function StatusOf(option: string): string
  {
    Lower(Replace(option, "-", ""))
  }

  /** The status a delete report looks for: the option without "-Delete"
      and "Delete", lower-cased. */
  function DeleteStatusOf(option: string): string
  {
    Lower(Replace(Replace(option, "-Delete", ""), "Delete", ""))
  }

  /** The mode an option selects; None for an option outside the choices,
      which the argument parser rejects. */
  function ModeOf(option: Option<string>): Option<Mode>
  {
    match option
    case None => Some(Usage)
    case Some(o) =>
      if o in DetailsChoices then Some(DetailsReport)
      else if o in SummaryChoices then Some(SummaryReport)
      else if o in StatusChoices then Some(StatusReport(StatusOf(o)))
      else if o in DeleteChoices then Some(DeleteReport(DeleteStatusOf(o)))
      else None
  }

  /** The characters of s other than c, in order. */
  function Without(s: string, c: char): (r: string)
    ensures c !in r && |r| <= |s|
  {
    if s == [] then [] else (if s[0] == c then [] else [s[0]]) + Without(s[1..], c)
  }

  /** Replacing a one-character pattern by nothing removes every occurrence
      of that character and keeps everything else in order. */
  lemma {:induction false} ReplaceRemoves(s: string, c: char)
    ensures Replace(s, [c], "") == Without(s, c)
  {
    if s != [] {
      ReplaceRemoves(s[1..], c);
      if s[0] == c {
        assert s[..1] == [c];
      } else {
        assert s[..1] != [c];
      }
    }
  }

  /** Without an occurrence of the pattern's first character there is
      nothing to replace. */
  lemma {:induction false} ReplaceAbsent(s: string, pat: string, rep: string)
    requires pat != [] && pat[0] !in s
    ensures Replace(s, pat, rep) == s
    decreases |s|
  {
    if |s| >= |pat| {
      assert s[..|pat|][0] == s[0];
      ReplaceAbsent(s[1..], pat, rep);
      assert [s[0]] + s[1..] == s;
    }
  }

  /** A leading occurrence of the pattern is replaced. */
  lemma ReplaceFront(pat: string, w: string, rep: string)
    requires pat != []
    ensures Replace(pat + w, pat, rep) == rep + Replace(w, pat, rep)
  {
    assert (pat + w)[..|pat|] == pat;
    assert (pat + w)[|pat|..] == w;
  }

  /** The dash before a status option does not change its status. */
  lemma DashedStatus(w: string)
    requires '-' !in w
    ensures StatusOf("-" + w) == StatusOf(w) == Lower(w)
  {
    ReplaceAbsent(w, "-", "");
    ReplaceFront("-", w, "");
    assert "" + w == w;
  }

  /** Neither does "Delete" or "-Delete" in front of a status without a dash
      or a 'D'. */
  lemma DeleteStatus(w: string)
    requires '-' !in w && 'D' !in w
    ensures DeleteStatusOf("-Delete" + w) == DeleteStatusOf("Delete" + w) == Lower(w)
  {
    ReplaceAbsent(w, "-Delete", "");
    ReplaceAbsent(w, "Delete", "");
    ReplaceFront("-Delete", w, "");
    ReplaceAbsent("Delete" + w, "-Delete", "");
    ReplaceFront("Delete", w, "");
    assert "" + w == w;
  }

  lemma ModeOfStatus(o: string)
    requires o in StatusChoices
    ensures ModeOf(Some(o)) == Some(StatusReport(StatusOf(o)))
  {
    // every status choice ends in 'g' or 'd', no details or summary choice does
    assert o[|o| - 1] == 'g' || o[|o| - 1] == 'd';
    assert o !in DetailsChoices && o !in SummaryChoices;
  }

  lemma ModeOfDelete(o: string)
    requires o in DeleteChoices
    ensures ModeOf(Some(o)) == Some(DeleteReport(DeleteStatusOf(o)))
  {
    // every delete choice is longer than any other choice
    assert |o| >= 12;
    assert o !in DetailsChoices && o !in SummaryChoices && o !in StatusChoices;
  }

  /** A status option names its status, with or without the dash. */
  lemma StatusOption(w: string)
    requires w in ["running", "pending", "failed"]
    ensures ModeOf(Some(w)) == ModeOf(Some("-" + w)) == Some(StatusReport(w))
  {
    assert w in StatusChoices && "-" + w in StatusChoices by {
      if w == "running" {
        assert "-" + w == "-running";
      } else if w == "pending" {
        assert "-" + w == "-pending";
      } else {
        assert "-" + w == "-failed";
      }
    }
    assert forall i :: 0 <= i < |w| ==> 'a' <= w[i] <= 'z';
    LowerNoUpper(w);
    ModeOfStatus(w);
    ModeOfStatus("-" + w);
    DashedStatus(w);
  }

  /** A delete option names the status of the runners it deletes,
      lower-cased, with or without the dash: pending or failed. */
  lemma DeleteOption(w: string)
    requires w in ["Pending", "Failed"]
    ensures ModeOf(Some("Delete" + w)) == ModeOf(Some("-Delete" + w))
         == Some(DeleteReport(if w == "Pending" then "pending" else "failed"))
  {
    assert "Delete" + w in DeleteChoices && "-Delete" + w in DeleteChoices && '-' !in w && 'D' !in w by {
      if w == "Pending" {
        assert "Delete" + w == "DeletePending" && "-Delete" + w == "-DeletePending";
      } else {
        assert "Delete" + w == "DeleteFailed" && "-Delete" + w == "-DeleteFailed";
      }
    }
    ModeOfDelete("Delete" + w);
    ModeOfDelete("-Delete" + w);
    DeleteStatus(w);
    LowerStatus(w);
  }

  lemma LowerStatus(w: string)
    requires w in ["Pending", "Failed"]
    ensures Lower(w) == if w == "Pending" then "pending" else "failed"
  {
  }

  /** Only the listed choices select a mode. */
  lemma ModeChoices(o: string)
    requires ModeOf(Some(o)).Some?
    ensures o in DetailsChoices + SummaryChoices + StatusChoices + DeleteChoices
  {
  }
}
