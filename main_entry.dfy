/** main: fetch the diff and its numstat, summarize, route to exactly one
    reviewer, then publish with any exception from publishing swallowed.
    Git, the model services and GitHub are given as their answers. */
module MainEntry {
  import opened Wrappers
  import opened Models
  import opened Diffs
  import opened GitHubClient

  /** An external call: the value it returns, or an exception it raises. */
  datatype Call<T> = Returned(value: T) | Raised

  /** The answers of everything main calls. get_diff and the git commands of
      get_diff_stat are their stdout; review_commplex_changes has no return
      statement, so what it returns is Python's None. */
  datatype Services = Services(
    gitDiff: Call<string>,
    gitNumstat: Call<string>,
    summarize: string -> Call<SummaryOutput>,
    reviewSimple: (string, SummaryOutput) -> Call<ReviewOutput>,
    reviewComplex: (string, SummaryOutput) -> Call<()>,
    env: Env,
    github: GitHub)

  datatype Strategy = Simple | Complex

  /** Above this many inserted lines the agent reviewer runs. */
  const ComplexThreshold: int := 100

  function Route(stat: DiffStat): Strategy {
    if stat.insertions > ComplexThreshold then Complex else Simple
  }

  /** What the run has done, in order. */
  datatype Event =
    | GotDiff(diff: string)
    | GotStat(stat: DiffStat)
    | GotSummary(summary: SummaryOutput)
    | ReviewerInvoked(strategy: Strategy, diff: string, summary: SummaryOutput)
    | Published(posting: Posting)
  {
    /** The position of the event in a run. */
    function Position(): nat {
      match this
      case GotDiff(_) => 0
      case GotStat(_) => 1
      case GotSummary(_) => 2
      case ReviewerInvoked(_, _, _) => 3
      case Published(_) => 4
    }
  }

  /** Where an exception escaped main. ReportStage is line 42, where
      `review.get` fails when the reviewer returned None. */
  datatype Stage = DiffStage | StatStage | SummaryStage | ReviewStage | ReportStage

  datatype RunOutcome = Completed | Crashed(stage: Stage)

  /** main, as the trace of its steps and how it ends. */
  method RunReview(io: Services) returns (events: seq<Event>, outcome: RunOutcome)
    ensures |events| <= 5
    ensures forall i :: 0 <= i < |events| ==> events[i].Position() == i
    ensures outcome == Completed <==> |events| == 5
    ensures outcome == Crashed(DiffStage) <==> |events| == 0
    ensures outcome == Crashed(StatStage) <==> |events| == 1
    ensures outcome == Crashed(SummaryStage) <==> |events| == 2
    ensures outcome == Crashed(SummaryStage) <==>
      io.gitDiff.Returned? && io.gitNumstat.Returned? && GetDiffStat(io.gitNumstat.value).Success?
      && io.summarize(io.gitDiff.value).Raised?
    ensures |events| != 3
    ensures outcome == Crashed(ReviewStage) || outcome == Crashed(ReportStage) ==> |events| == 4
    ensures outcome == Crashed(DiffStage) <==> io.gitDiff.Raised?
    ensures outcome == Crashed(StatStage) <==>
      io.gitDiff.Returned? && (io.gitNumstat.Raised? || GetDiffStat(io.gitNumstat.value).Failure?)
    ensures |events| >= 1 ==> io.gitDiff.Returned? && events[0] == GotDiff(io.gitDiff.value)
    ensures |events| >= 2 ==>
      io.gitNumstat.Returned? && GetDiffStat(io.gitNumstat.value).Success?
      && events[1] == GotStat(GetDiffStat(io.gitNumstat.value).value)
    ensures |events| >= 3 ==>
      io.summarize(io.gitDiff.value).Returned?
      && events[2] == GotSummary(io.summarize(io.gitDiff.value).value)
    ensures |events| >= 4 ==>
      var stat, diff, summary := events[1].stat, events[0].diff, events[2].summary;
      && events[3] == ReviewerInvoked(Route(stat), diff, summary)
      && (outcome == Crashed(ReviewStage) <==>
            if Route(stat) == Simple then io.reviewSimple(diff, summary).Raised?
            else io.reviewComplex(diff, summary).Raised?)
      && (Route(stat) == Complex && io.reviewComplex(diff, summary).Returned? ==> outcome == Crashed(ReportStage))
      && (|events| == 5 ==>
            && Route(stat) == Simple
            && io.reviewSimple(diff, summary).Returned?
            && events[4] == Published(Publish(
                 ReviewToDict(io.reviewSimple(diff, summary).value), SummaryToDict(summary), io.env, io.github)))
      && (Route(stat) == Simple && io.reviewSimple(diff, summary).Returned? ==> outcome == Completed)
  {
    events := [];
    if io.gitDiff.Raised? {
      return events, Crashed(DiffStage);
    }
    var diff := io.gitDiff.value;
    events := events + [GotDiff(diff)];

    if io.gitNumstat.Raised? {
      return events, Crashed(StatStage);
    }
    var parsed := ComputeDiffStat(io.gitNumstat.value);
    if parsed.Failure? {
      return events, Crashed(StatStage);
    }
    var diffStat := parsed.value;
    events := events + [GotStat(diffStat)];

    var summarized := io.summarize(diff);
    if summarized.Raised? {
      return events, Crashed(SummaryStage);
    }
    var summary := summarized.value;
    events := events + [GotSummary(summary)];

    var review: Option<ReviewDict>;
    if diffStat.insertions > ComplexThreshold {
      events := events + [ReviewerInvoked(Complex, diff, summary)];
      var reviewed := io.reviewComplex(diff, summary);
      if reviewed.Raised? {
        return events, Crashed(ReviewStage);
      }
      review := None;
    } else {
      events := events + [ReviewerInvoked(Simple, diff, summary)];
      var reviewed := io.reviewSimple(diff, summary);
      if reviewed.Raised? {
        return events, Crashed(ReviewStage);
      }
      review := Some(ReviewToDict(reviewed.value));
    }

    // review.get('issues', []) on None raises AttributeError.
    if review.None? {
      return events, Crashed(ReportStage);
    }

    // post_comments_and_summary returns normally on every path it has:
    // its own handlers catch what GitHub raises, so nothing reaches the
    // except clause around the call.
    var posting := PostCommentsAndSummary(review.value, SummaryToDict(summary), io.env, io.github);
    events := events + [Published(posting)];
    outcome := Completed;
  }

  /** The routing rule: the agent reviewer runs exactly when more than 100
      lines were inserted, so exactly 100 goes to the single-call reviewer,
      and nothing but the insertion count matters. */
  lemma RoutingRule(stat: DiffStat, other: DiffStat)
    ensures Route(stat) == Complex <==> stat.insertions > 100
    ensures Route(stat) == Simple <==> stat.insertions <= 100
    ensures stat.insertions == 100 ==> Route(stat) == Simple
    ensures other.insertions == stat.insertions ==> Route(other) == Route(stat)
  {
  }
}
