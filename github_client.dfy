/** post_comments_and_summary: the environment guards, the comment bodies,
    and the ordered posting loop whose failures are isolated per comment.
    GitHub is an oracle that answers, for every call, whether it succeeds. */
module GitHubClient {
  import opened Wrappers
  import opened PyStr
  import opened Models

  /** GITHUB_TOKEN, GITHUB_REPOSITORY and GITHUB_PULL_REQUEST_NUMBER; None when unset. */
  datatype Env = Env(token: Option<string>, repository: Option<string>, prNumber: Option<string>)

  /** What GitHub answers: whether Github(token).get_repo(repo).get_pull(n)
      succeeds, whether the summary comment is accepted, and whether the
      review comment of the issue at each index is accepted (reading the
      head commit's sha included). */
  datatype GitHub = GitHub(
    openPull: (string, string, int) -> bool,
    summaryPostOk: bool,
    inlinePostOk: nat -> bool)

  /** A call that writes to the pull request. */
  datatype Post =
    | IssueComment(body: string)
    | ReviewComment(body: string, path: string, line: int)

  /** One write call and whether GitHub accepted it. */
  datatype Attempt = Attempt(post: Post, succeeded: bool)

  /** What the outer handler catches: a failed lookup of the repository or
      pull request, a KeyError, or a failed summary comment. */
  datatype Caught = AccessError | MissingKey(key: string) | SummaryPostError

  /** How the function returns: without posting after a failed guard, after
      the outer handler caught an exception, or at the end of the loop. */
  datatype PublishOutcome = MissingConfig | InvalidPrNumber | Aborted(cause: Caught) | Finished

  datatype Posting = Posting(attempts: seq<Attempt>, outcome: PublishOutcome)

  /** `not value` is false: the variable is set and not empty. */
  predicate Present(v: Option<string>) {
    v.Some? && v.value != ""
  }

  const SummaryHeading: string := "## Code Review Summary\n\n"
  const CategoryMark: string := "**: "
  const ImpactMark: string := "\n\n**Impact**: "
  const RecommendationMark: string := "\n\n**Recommendation**: "

  function SummaryBody(summary: string): string {
    SummaryHeading + summary
  }

  function InlineBody(category: string, issue: string, impact: string, recommendation: string): string {
    "**" + category + CategoryMark + issue + ImpactMark + impact + RecommendationMark + recommendation
  }

  /** The comment of one issue, or the first key whose lookup raises: the
      body reads category, issue, impact and recommendation outside the
      inner try; a missing file or line raises inside it, and the handler
      reads issue['file'] and issue['line'] again to log, so that KeyError
      escapes as well. */
  function IssuePost(f: IssueFields): (r: Result<Post, string>)
    ensures r.Success? <==> Complete(f)
    ensures r.Failure? ==> Lacks(f, r.error)
    ensures r.Failure? && (r.error == "file" || r.error == "line") ==>
      f.category.Some? && f.issue.Some? && f.impact.Some? && f.recommendation.Some?
    ensures r.Success? ==> r.value.ReviewComment? && r.value.path == f.file.value && r.value.line == f.line.value
  {
    if f.category.None? then Failure("category")
    else if f.issue.None? then Failure("issue")
    else if f.impact.None? then Failure("impact")
    else if f.recommendation.None? then Failure("recommendation")
    else if f.file.None? then Failure("file")
    else if f.line.None? then Failure("line")
    else
      Success(ReviewComment(
        InlineBody(f.category.value, f.issue.value, f.impact.value, f.recommendation.value),
        f.file.value, f.line.value))
  }

  /** The issue has no value under key. */
  predicate Lacks(f: IssueFields, key: string) {
    || (key == "category" && f.category.None?)
    || (key == "file" && f.file.None?)
    || (key == "line" && f.line.None?)
    || (key == "issue" && f.issue.None?)
    || (key == "impact" && f.impact.None?)
    || (key == "recommendation" && f.recommendation.None?)
  }

  /** The loop over issues[i..]. */
  function PostIssues(issues: seq<IssueFields>, gh: GitHub, i: nat): Posting
    requires i <= |issues|
    decreases |issues| - i
  {
    if i == |issues| then Posting([], Finished)
    else
      match IssuePost(issues[i])
      case Failure(key) => Posting([], Aborted(MissingKey(key)))
      case Success(p) =>
        var rest := PostIssues(issues, gh, i + 1);
        Posting([Attempt(p, gh.inlinePostOk(i))] + rest.attempts, rest.outcome)
  }

  /** review.get("issues", []). */
  function IssuesOf(review: ReviewDict): seq<IssueFields> {
    if review.issues.Some? then review.issues.value else []
  }

  /** The whole function as a value: its write calls and how it returns. */
  function Publish(review: ReviewDict, summary: SummaryDict, env: Env, gh: GitHub): Posting {
    if !Present(env.token) || !Present(env.repository) || !Present(env.prNumber) then
      Posting([], MissingConfig)
    else
      match ParseInt(env.prNumber.value)
      case None => Posting([], InvalidPrNumber)
      case Some(n) =>
        if !gh.openPull(env.token.value, env.repository.value, n) then Posting([], Aborted(AccessError))
        else if summary.summary.None? then Posting([], Aborted(MissingKey("summary")))
        else
          var first := Attempt(IssueComment(SummaryBody(summary.summary.value)), gh.summaryPostOk);
          if !gh.summaryPostOk then Posting([first], Aborted(SummaryPostError))
          else
            var rest := PostIssues(IssuesOf(review), gh, 0);
            Posting([first] + rest.attempts, rest.outcome)
  }

  /** The function step by step: early returns, the summary comment, then
      one review comment per issue, a failed one being logged and skipped. */
  method PostCommentsAndSummary(review: ReviewDict, summary: SummaryDict, env: Env, gh: GitHub)
    returns (posting: Posting)
    ensures posting == Publish(review, summary, env, gh)
  {
    var githubToken, repoName, prNumberStr := env.token, env.repository, env.prNumber;
    if !Present(githubToken) || !Present(repoName) || !Present(prNumberStr) {
      return Posting([], MissingConfig);
    }
    var prNumber := ParseInt(prNumberStr.value);
    if prNumber.None? {
      return Posting([], InvalidPrNumber);
    }
    if !gh.openPull(githubToken.value, repoName.value, prNumber.value) {
      return Posting([], Aborted(AccessError));
    }
    if summary.summary.None? {
      return Posting([], Aborted(MissingKey("summary")));
    }
    var summaryComment := SummaryBody(summary.summary.value);
    var attempts := [Attempt(IssueComment(summaryComment), gh.summaryPostOk)];
    if !gh.summaryPostOk {
      return Posting(attempts, Aborted(SummaryPostError));
    }
    var issues := IssuesOf(review);
    for i := 0 to |issues|
      invariant Publish(review, summary, env, gh)
        == Posting(attempts + PostIssues(issues, gh, i).attempts, PostIssues(issues, gh, i).outcome)
    {
      var issue := issues[i];
      if issue.category.None? { return Posting(attempts, Aborted(MissingKey("category"))); }
      if issue.issue.None? { return Posting(attempts, Aborted(MissingKey("issue"))); }
      if issue.impact.None? { return Posting(attempts, Aborted(MissingKey("impact"))); }
      if issue.recommendation.None? { return Posting(attempts, Aborted(MissingKey("recommendation"))); }
      var commentBody := InlineBody(issue.category.value, issue.issue.value, issue.impact.value, issue.recommendation.value);
      if issue.file.None? { return Posting(attempts, Aborted(MissingKey("file"))); }
      if issue.line.None? { return Posting(attempts, Aborted(MissingKey("line"))); }
      var ok := gh.inlinePostOk(i);
      attempts := attempts + [Attempt(ReviewComment(commentBody, issue.file.value, issue.line.value), ok)];
    }
    return Posting(attempts, Finished);
  }

  /** The function gets past every guard and posts the summary successfully. */
  predicate ReachesLoop(summary: SummaryDict, env: Env, gh: GitHub) {
    Present(env.token) && Present(env.repository) && Present(env.prNumber)
    && ParseInt(env.prNumber.value).Some?
    && gh.openPull(env.token.value, env.repository.value, ParseInt(env.prNumber.value).value)
    && summary.summary.Some? && gh.summaryPostOk
  }

  /** The early returns: a missing or empty variable or an unparsable PR
      number posts nothing; a failed repository or pull-request lookup, or
      a summary without its key, posts nothing either; a failed summary
      comment is the only attempt. */
  lemma Guards(review: ReviewDict, summary: SummaryDict, env: Env, gh: GitHub)
    ensures !Present(env.token) || !Present(env.repository) || !Present(env.prNumber)
      ==> Publish(review, summary, env, gh) == Posting([], MissingConfig)
    ensures Present(env.token) && Present(env.repository) && Present(env.prNumber)
      && ParseInt(env.prNumber.value).None?
      ==> Publish(review, summary, env, gh) == Posting([], InvalidPrNumber)
    ensures Present(env.token) && Present(env.repository) && Present(env.prNumber)
      && ParseInt(env.prNumber.value).Some?
      && (!gh.openPull(env.token.value, env.repository.value, ParseInt(env.prNumber.value).value)
          || summary.summary.None?)
      ==> Publish(review, summary, env, gh).attempts == []
    ensures !ReachesLoop(summary, env, gh) ==> |Publish(review, summary, env, gh).attempts| <= 1
  {
  }

  /** The index of the issue at which the loop over issues[i..] stops. */
  function StopIndex(issues: seq<IssueFields>, gh: GitHub, i: nat): nat
    requires i <= |issues|
  {
    i + |PostIssues(issues, gh, i).attempts|
  }

  /** The loop over issues[i..]: one attempt per issue, in order, at that
      issue's post and with GitHub's answer for it, until the first issue
      with a missing key; a rejected post never stops the loop. */
  lemma {:induction false} PostIssuesShape(issues: seq<IssueFields>, gh: GitHub, i: nat)
    requires i <= |issues|
    ensures StopIndex(issues, gh, i) <= |issues|
    ensures forall k :: i <= k < StopIndex(issues, gh, i) ==>
      IssuePost(issues[k]).Success?
      && PostIssues(issues, gh, i).attempts[k - i] == Attempt(IssuePost(issues[k]).value, gh.inlinePostOk(k))
    ensures PostIssues(issues, gh, i).outcome == Finished <==> StopIndex(issues, gh, i) == |issues|
    ensures StopIndex(issues, gh, i) < |issues| ==>
      IssuePost(issues[StopIndex(issues, gh, i)]).Failure?
      && PostIssues(issues, gh, i).outcome == Aborted(MissingKey(IssuePost(issues[StopIndex(issues, gh, i)]).error))
    decreases |issues| - i
  {
    if i < |issues| && IssuePost(issues[i]).Success? {
      PostIssuesShape(issues, gh, i + 1);
      var p := PostIssues(issues, gh, i);
      var rest := PostIssues(issues, gh, i + 1);
      assert p.attempts == [Attempt(IssuePost(issues[i]).value, gh.inlinePostOk(i))] + rest.attempts;
      assert p.outcome == rest.outcome;
      assert StopIndex(issues, gh, i) == StopIndex(issues, gh, i + 1);
      forall k | i <= k < StopIndex(issues, gh, i)
        ensures IssuePost(issues[k]).Success?
          && p.attempts[k - i] == Attempt(IssuePost(issues[k]).value, gh.inlinePostOk(k))
      {
        if k > i {
          assert p.attempts[k - i] == rest.attempts[k - (i + 1)];
        }
      }
    }
  }

  /** The summary comment is attempted at most once, and before any review comment. */
  lemma SummaryComesFirst(review: ReviewDict, summary: SummaryDict, env: Env, gh: GitHub)
    ensures var a := Publish(review, summary, env, gh).attempts;
      && (|a| > 0 ==> summary.summary.Some? && a[0].post == IssueComment(SummaryBody(summary.summary.value)))
      && (forall k :: 1 <= k < |a| ==> a[k].post.ReviewComment?)
  {
    if ReachesLoop(summary, env, gh) {
      var rest := PostIssues(IssuesOf(review), gh, 0);
      PostIssuesShape(IssuesOf(review), gh, 0);
      var a := Publish(review, summary, env, gh).attempts;
      forall k | 1 <= k < |a| ensures a[k].post.ReviewComment? {
        assert a[k] == rest.attempts[k - 1];
        assert IssuePost(IssuesOf(review)[k - 1]).Success?;
      }
    }
  }

  /** Past the guards, the attempts after the summary are the issues' posts
      in list order, stopping only at the first issue with a missing key. */
  lemma PublishAttemptsInOrder(review: ReviewDict, summary: SummaryDict, env: Env, gh: GitHub)
    requires ReachesLoop(summary, env, gh)
    ensures var p := Publish(review, summary, env, gh);
      var issues := IssuesOf(review);
      var n := |p.attempts| - 1;
      && 0 <= n <= |issues|
      && p.attempts[0] == Attempt(IssueComment(SummaryBody(summary.summary.value)), true)
      && (forall k :: 0 <= k < n ==>
            IssuePost(issues[k]).Success?
            && p.attempts[k + 1] == Attempt(IssuePost(issues[k]).value, gh.inlinePostOk(k)))
      && (p.outcome == Finished <==> n == |issues|)
      && (n < |issues| ==>
            IssuePost(issues[n]).Failure? && p.outcome == Aborted(MissingKey(IssuePost(issues[n]).error)))
  {
    var issues := IssuesOf(review);
    PostIssuesShape(issues, gh, 0);
    var p := Publish(review, summary, env, gh);
    var rest := PostIssues(issues, gh, 0);
    var first := Attempt(IssueComment(SummaryBody(summary.summary.value)), true);
    assert p == Posting([first] + rest.attempts, rest.outcome);
    forall k | 0 <= k < |rest.attempts|
      ensures p.attempts[k + 1] == rest.attempts[k]
    {
    }
  }

  /** The posts of a sequence of attempts, ignoring GitHub's answers. */
  function Posts(a: seq<Attempt>): seq<Post> {
    seq(|a|, k requires 0 <= k < |a| => a[k].post)
  }

  lemma {:induction false} PostIssuesIgnoresAnswers(issues: seq<IssueFields>, gh: GitHub, other: nat -> bool, i: nat)
    requires i <= |issues|
    ensures var p, q := PostIssues(issues, gh, i), PostIssues(issues, GitHub(gh.openPull, gh.summaryPostOk, other), i);
      Posts(p.attempts) == Posts(q.attempts) && p.outcome == q.outcome
    decreases |issues| - i
  {
    if i < |issues| && IssuePost(issues[i]).Success? {
      PostIssuesIgnoresAnswers(issues, gh, other, i + 1);
      var gh' := GitHub(gh.openPull, gh.summaryPostOk, other);
      var p, q := PostIssues(issues, gh, i + 1), PostIssues(issues, gh', i + 1);
      var post := IssuePost(issues[i]).value;
      assert Posts([Attempt(post, gh.inlinePostOk(i))] + p.attempts) == [post] + Posts(p.attempts);
      assert Posts([Attempt(post, other(i))] + q.attempts) == [post] + Posts(q.attempts);
    }
  }

  /** Failure isolation: whether GitHub accepts or rejects any review comment
      changes neither which posts are attempted nor how the function returns. */
  lemma InlineFailuresIsolated(review: ReviewDict, summary: SummaryDict, env: Env, gh: GitHub, other: nat -> bool)
    ensures var p, q := Publish(review, summary, env, gh),
                        Publish(review, summary, env, GitHub(gh.openPull, gh.summaryPostOk, other));
      Posts(p.attempts) == Posts(q.attempts) && p.outcome == q.outcome
  {
    if ReachesLoop(summary, env, gh) {
      var issues := IssuesOf(review);
      var gh' := GitHub(gh.openPull, gh.summaryPostOk, other);
      PostIssuesIgnoresAnswers(issues, gh, other, 0);
      var first := Attempt(IssueComment(SummaryBody(summary.summary.value)), true);
      var p, q := PostIssues(issues, gh, 0), PostIssues(issues, gh', 0);
      assert Posts([first] + p.attempts) == [first.post] + Posts(p.attempts);
      assert Posts([first] + q.attempts) == [first.post] + Posts(q.attempts);
    }
  }

  /** A validated review, every issue having all its keys, is posted in full:
      the summary, then one review comment per issue with its exact body at
      its file and line, whatever GitHub answers to each. */
  lemma ValidatedReviewFullyAttempted(review: ReviewOutput, summary: SummaryOutput, env: Env, gh: GitHub)
    requires ReachesLoop(SummaryToDict(summary), env, gh)
    ensures var p := Publish(ReviewToDict(review), SummaryToDict(summary), env, gh);
      && p.outcome == Finished
      && |p.attempts| == 1 + |review.issues|
      && p.attempts[0] == Attempt(IssueComment(SummaryBody(summary.summary)), true)
      && forall k :: 0 <= k < |review.issues| ==>
           var i := review.issues[k];
           p.attempts[k + 1] == Attempt(
             ReviewComment(InlineBody(i.category, i.issue, i.impact, i.recommendation), i.file, i.line),
             gh.inlinePostOk(k))
  {
    var d := ReviewToDict(review);
    PublishAttemptsInOrder(d, SummaryToDict(summary), env, gh);
    var p := Publish(d, SummaryToDict(summary), env, gh);
  }

  /** A review without an "issues" key gets the summary comment and nothing else. */
  lemma NoIssuesKey(summary: SummaryDict, env: Env, gh: GitHub)
    requires ReachesLoop(summary, env, gh)
    ensures Publish(ReviewDict(None), summary, env, gh)
      == Posting([Attempt(IssueComment(SummaryBody(summary.summary.value)), true)], Finished)
  {
  }

  /** Reading a summary comment back: the heading, then the summary text. */
  function DecodeSummaryBody(body: string): Option<string> {
    if |body| >= |SummaryHeading| && body[..|SummaryHeading|] == SummaryHeading
    then Some(body[|SummaryHeading|..]) else None
  }

  lemma SummaryBodyRoundTrip(summary: string)
    ensures DecodeSummaryBody(SummaryBody(summary)) == Some(summary)
  {
    var body := SummaryBody(summary);
    assert body[..|SummaryHeading|] == SummaryHeading;
    assert body[|SummaryHeading|..] == summary;
  }

  /** Reading a review comment back into category, issue, impact and recommendation. */
  function DecodeInlineBody(body: string): Option<(string, string, string, string)> {
    if |body| < 2 || body[..2] != "**" then None
    else
      match Partition(body[2..], CategoryMark)
      case None => None
      case Some((category, afterCategory)) =>
        match Partition(afterCategory, ImpactMark)
        case None => None
        case Some((issue, afterIssue)) =>
          match Partition(afterIssue, RecommendationMark)
          case None => None
          case Some((impact, recommendation)) => Some((category, issue, impact, recommendation))
  }

  /** Where the first '*' of each delimiter sits. */
  lemma MarkStars()
    ensures CategoryMark[0] == '*'
    ensures ImpactMark[2] == '*' && ImpactMark[0] != '*' && ImpactMark[1] != '*'
    ensures RecommendationMark[2] == '*' && RecommendationMark[0] != '*' && RecommendationMark[1] != '*'
  {
  }

  /** The review comment body loses nothing: when category, issue and impact
      hold no '*', the four fields can be read back from it. */
  lemma InlineBodyRoundTrip(category: string, issue: string, impact: string, recommendation: string)
    requires NoStar(category) && NoStar(issue) && NoStar(impact)
    ensures DecodeInlineBody(InlineBody(category, issue, impact, recommendation))
      == Some((category, issue, impact, recommendation))
  {
    var afterIssue := impact + RecommendationMark + recommendation;
    var afterCategory := issue + ImpactMark + afterIssue;
    var tail := category + CategoryMark + afterCategory;
    InlineBodyShape(category, issue, impact, recommendation);
    MarkStars();
    PartitionAfterStarFree(category, CategoryMark, afterCategory, 0);
    PartitionAfterStarFree(issue, ImpactMark, afterIssue, 2);
    PartitionAfterStarFree(impact, RecommendationMark, recommendation, 2);
    DecodeTail(tail);
  }

  lemma InlineBodyShape(category: string, issue: string, impact: string, recommendation: string)
    ensures InlineBody(category, issue, impact, recommendation)
      == "**" + (category + CategoryMark + (issue + ImpactMark + (impact + RecommendationMark + recommendation)))
  {
  }

  lemma DecodeTail(tail: string)
    ensures DecodeInlineBody("**" + tail) == match Partition(tail, CategoryMark)
      case None => None
      case Some((category, afterCategory)) =>
        match Partition(afterCategory, ImpactMark)
        case None => None
        case Some((issue, afterIssue)) =>
          match Partition(afterIssue, RecommendationMark)
          case None => None
          case Some((impact, recommendation)) => Some((category, issue, impact, recommendation))
  {
    var body := "**" + tail;
    assert body[..2] == "**" && body[2..] == tail;
  }
}
