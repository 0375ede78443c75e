/** The structured outputs of the model calls, and the dictionaries the
    publisher actually receives, in which any key may be missing. */
module Models {
  import opened Wrappers

  /** One finding of a reviewer. */
  datatype Issue = Issue(
    category: string,
    file: string,
    line: int,
    issue: string,
    impact: string,
    recommendation: string)

  datatype ReviewOutput = ReviewOutput(issues: seq<Issue>)

  datatype SummaryOutput = SummaryOutput(summary: string, numberOfChanges: int)

  /** An issue as a dictionary: None stands for a missing key. */
  datatype IssueFields = IssueFields(
    category: Option<string>,
    file: Option<string>,
    line: Option<int>,
    issue: Option<string>,
    impact: Option<string>,
    recommendation: Option<string>)

  /** The review dictionary; None is a missing "issues" key. */
  datatype ReviewDict = ReviewDict(issues: Option<seq<IssueFields>>)

  /** The summary dictionary; None is a missing "summary" key. */
  datatype SummaryDict = SummaryDict(summary: Option<string>)

  predicate Complete(f: IssueFields) {
    f.category.Some? && f.file.Some? && f.line.Some? && f.issue.Some?
    && f.impact.Some? && f.recommendation.Some?
  }

  /** The dictionary of a validated issue has every key, with the issue's values. */
  function IssueToFields(i: Issue): (f: IssueFields)
    ensures Complete(f)
    ensures Issue(f.category.value, f.file.value, f.line.value, f.issue.value,
                  f.impact.value, f.recommendation.value) == i
  {
    IssueFields(Some(i.category), Some(i.file), Some(i.line), Some(i.issue),
                Some(i.impact), Some(i.recommendation))
  }

  /** The dictionary of a validated review lists every issue, in order, with all keys. */
  function ReviewToDict(r: ReviewOutput): (d: ReviewDict)
    ensures d.issues.Some? && |d.issues.value| == |r.issues|
    ensures forall k :: 0 <= k < |r.issues| ==>
      Complete(d.issues.value[k]) && d.issues.value[k] == IssueToFields(r.issues[k])
  {
    ReviewDict(Some(seq(|r.issues|, k requires 0 <= k < |r.issues| => IssueToFields(r.issues[k]))))
  }

  function SummaryToDict(s: SummaryOutput): (d: SummaryDict)
    ensures d.summary == Some(s.summary)
  {
    SummaryDict(Some(s.summary))
  }
}
