# codereviewer core in Dafny

A model of the deterministic logic of the `codereviewer` pull-request reviewer. It covers three parts, with the services around them taken as inputs:

- **Numstat parser** (`get_diff_stat`). It turns the stdout of `git diff origin/main --numstat` into `{files, insertions, deletions, total}`. It skips blank lines and lines with fewer than three tab-separated fields. It raises on a line with more than three fields and on any count column that `int()` rejects, such as git's `-` for binary files.
- **Entry point** (`main`). It fetches the diff and its statistic, summarizes, and routes to exactly one reviewer: the agent reviewer when more than 100 lines were inserted, the single-call reviewer otherwise. It then publishes inside a `try` that swallows errors.
- **Publisher** (`post_comments_and_summary`). It has the environment guards and the PR-number parse. It builds the summary and inline comment bodies, posts the summary once, then tries one review comment per issue in order. A rejected comment is logged and skipped. A missing key ends the loop at the outer handler.

Files and modules:

- `wrappers.dfy` (`Wrappers`): `Option`, `Result`.
- `pystr.dfy` (`PyStr`): the Python string operations the core calls: `str.splitlines()`, `str.split(sep)` and `int()` in base 10. Two more operations are there for the lemmas, not because the core calls them:
  - `str(n)`, which writes the counts in git's numstat text;
  - `str.find`/`str.partition`, which read comment bodies back.
- `models.dfy` (`Models`): `Issue`, `ReviewOutput`, `SummaryOutput`, and the dictionaries the publisher reads, in which any key may be missing.
- `diffs.dfy` (`Diffs`): `GetDiffStat`, a function of the stdout. `ComputeDiffStat` is the loop, proved equal to it.
- `github_client.dfy` (`GitHubClient`): `Publish`, the publisher as a value. `PostCommentsAndSummary` is the step-by-step method, proved equal to it.
- `main_entry.dfy` (`MainEntry`): `Route` and `RunReview`, which records the run as an event trace.

External calls are parameters:

- `git` is the stdout it prints, or an exception.
- The summarizer and the two reviewers are functions from their arguments to a result or an exception. The agent reviewer has no `return` statement, so its result is always Python's `None`.
- GitHub is an oracle. For each call it answers whether the call succeeds: the repository and pull-request lookup, the summary comment, and the review comment of each issue index.
- The environment is three optional strings.

## Model

| member | source | states |
|---|---|---|
| `PyStr.SplitLines` | src/codereviewer/diffs.py:14 | no line it returns contains a line boundary of `str.splitlines()` |
| `PyStr.SplitLinesCons` | src/codereviewer/diffs.py:14 | a break-free line followed by `\n` is split off as exactly one line |
| `PyStr.Split` | src/codereviewer/diffs.py:17 | `line.split("\t")` returns at least one field and no field holds a tab |
| `PyStr.JoinSplit` | src/codereviewer/diffs.py:17 | joining the fields with tabs gives back the line |
| `PyStr.SplitJoin` | src/codereviewer/diffs.py:17 | splitting a tab-join of tab-free fields gives back the fields |
| `PyStr.ShowNat` | src/codereviewer/diffs.py:10 | the counts git prints in numstat output are non-empty decimal digits whose value is the count, so writing them undoes `int()` |
| `PyStr.ParseInt` | src/codereviewer/diffs.py:22-23 | this definition is the model of `int()` in base 10; `ParseIntNeedsDigit`, `ParseIntSpaces`, `ParseShowNat` and `ParseIntRejects` state its properties |
| `PyStr.ParseIntNeedsDigit` | src/codereviewer/github_client.py:22 | `int()` refuses every text without a decimal digit |
| `PyStr.ParseIntSpaces` | src/codereviewer/github_client.py:22-25 | two examples: `int(" 5\n")` is 5, and `int("5\x1f")` raises |
| `PyStr.ParseIntStripsAsciiSpace` | src/codereviewer/github_client.py:22 | a number surrounded by space, `\t`, `\n`, `\v`, `\f` or `\r` parses to the number |
| `PyStr.ParseIntKeepsSeparators` | src/codereviewer/github_client.py:22-25 | a number followed by any of U+001C to U+001F raises, so the publisher returns without posting |
| `PyStr.ParseShowNat` | src/codereviewer/diffs.py:22-23 | `int(str(n)) == n` and `int("-" + str(n)) == -n` |
| `PyStr.ParseIntRejects` | src/codereviewer/diffs.py:22-23 | `int("-")` and `int("")` raise ValueError |
| `Diffs.ClassifyLine` | src/codereviewer/diffs.py:15-23 | this definition is the model of one iteration of the loop; `SkippedIff`, `FirstErrorWins` and `ClassifyNumstatLine` state its properties |
| `Diffs.ClassifyFields` | src/codereviewer/diffs.py:18-23 | this definition is the model of the unpack and the two `int()` calls; `FirstErrorWins` and `BinaryChangeFails` state its errors |
| `Diffs.GetDiffStat` | src/codereviewer/diffs.py:12-30 | empty stdout gives `files = []` and zero insertions, deletions and total; a result always has `total == insertions + deletions` |
| `Diffs.ComputeDiffStat` | src/codereviewer/diffs.py:12-30 | the loop with its `continue`s and early ValueErrors returns exactly `GetDiffStat(stdout)` |
| `Diffs.ErrorPersists` | src/codereviewer/diffs.py:20-23 | once a line has raised, later lines do not change the outcome |
| `Diffs.SkippedLineInvisible` | src/codereviewer/diffs.py:15-19 | a blank line or a line with fewer than three fields can be inserted anywhere without changing the result |
| `Diffs.SkippedIff` | src/codereviewer/diffs.py:15-19 | a line is skipped if and only if it splits into fewer than three fields |
| `Diffs.ParseLinesSucceedsIff` | src/codereviewer/diffs.py:14-23 | parsing succeeds if and only if no line is bad; it then yields the accepted rows front to back, one per accepted line |
| `Diffs.FirstErrorWins` | src/codereviewer/diffs.py:20-23 | the error raised is that of the first bad line: too many values to unpack, or the first non-integer column |
| `Diffs.ErrorFromSomeLine` | src/codereviewer/diffs.py:20-23 | every error raised is the error of some line of the input |
| `Diffs.StatOfRows` | src/codereviewer/diffs.py:21-29 | `files` holds each accepted row's path in order; `total` is `insertions + deletions`; no rows give all zeros |
| `Diffs.GetDiffStatMeaning` | src/codereviewer/diffs.py:12-30 | the result is an error exactly when some line of stdout is bad; otherwise it is the statistic of the accepted lines |
| `Diffs.NumstatRoundTrip` | src/codereviewer/diffs.py:12-30 | parsing git's numstat output for text files gives their paths in order and the sums of their counts |
| `Diffs.BinaryChangeFails` | src/codereviewer/diffs.py:22-23 | a binary file anywhere in the output makes the parse raise on `"-"` |
| `GitHubClient.SummaryBody` | src/codereviewer/github_client.py:33 | this definition is the model of the summary comment's f-string; `SummaryBodyRoundTrip` states its property |
| `GitHubClient.InlineBody` | src/codereviewer/github_client.py:42 | this definition is the model of the review comment's f-string; `InlineBodyRoundTrip` states its property |
| `GitHubClient.IssuePost` | src/codereviewer/github_client.py:42-51 | an issue yields a review comment if and only if it has all six keys, at its own file and line; otherwise the key named is one the issue lacks, and a missing file or line is reported only when the four body keys are present |
| `GitHubClient.Publish` | src/codereviewer/github_client.py:7-56 | this definition is the model of the whole function as a value; `Guards`, `PublishAttemptsInOrder`, `InlineFailuresIsolated` and `ValidatedReviewFullyAttempted` state its properties |
| `GitHubClient.PostCommentsAndSummary` | src/codereviewer/github_client.py:7-56 | the early returns, the summary post and the per-issue loop compute exactly the trace and outcome `Publish` defines |
| `GitHubClient.Guards` | src/codereviewer/github_client.py:17-34 | a missing or empty token, repository or PR number posts nothing; so do an unparsable PR number, a failed lookup and a missing `summary` key; a failed summary post is the only attempt |
| `GitHubClient.PostIssuesShape` | src/codereviewer/github_client.py:41-51 | the loop tries each issue in order at its own post, with GitHub's answer for it, until the first issue with a missing key, where it aborts with that key |
| `GitHubClient.SummaryComesFirst` | src/codereviewer/github_client.py:33-49 | the summary comment is attempted at most once, as the first call, and every later call is a review comment |
| `GitHubClient.PublishAttemptsInOrder` | src/codereviewer/github_client.py:33-53 | past the guards, the attempts are the summary, then the issues' posts in list order; the run finishes if and only if every issue was attempted |
| `GitHubClient.InlineFailuresIsolated` | src/codereviewer/github_client.py:43-51 | whether GitHub accepts or rejects review comments changes neither which posts are attempted nor how the function returns |
| `GitHubClient.ValidatedReviewFullyAttempted` | src/codereviewer/github_client.py:33-53 | a review with every key gets the summary and then exactly one review comment per issue, with the exact body at the issue's file and line |
| `GitHubClient.NoIssuesKey` | src/codereviewer/github_client.py:38 | a review without an `issues` key gets the summary comment and no review comment |
| `GitHubClient.SummaryBodyRoundTrip` | src/codereviewer/github_client.py:33 | the summary body is the heading followed by the summary text, which can be read back |
| `GitHubClient.InlineBodyRoundTrip` | src/codereviewer/github_client.py:42 | the inline body keeps its four fields in order between the fixed markers; when category, issue and impact hold no `*`, all four can be read back |
| `MainEntry.Route` | src/codereviewer/__main__.py:35-40 | this definition is the model of the routing test; `RoutingRule` states its property |
| `MainEntry.RunReview` | src/codereviewer/__main__.py:28-47 | steps occur in the fixed order diff, stat, summary, one reviewer, publish; each crash stage fixes how many steps were recorded. The run crashes at the diff exactly when `get_diff` raises, and at the stat exactly when git or the parse raises. It crashes at the summary exactly when `summarize_changes` raises after the diff and stat succeeded, with only those two steps recorded, and at the review exactly when the chosen reviewer raises. The reviewer is chosen by `Route` and gets that diff and summary. The run completes whenever the single-call reviewer returns, whatever publishing does; an agent review that returns crashes at `review.get` |
| `MainEntry.RoutingRule` | src/codereviewer/__main__.py:35-40 | the agent reviewer runs if and only if insertions exceed 100; exactly 100 goes to the single-call reviewer; only the insertion count matters |

## Left out

- Models.IssueToFields, Models.ReviewToDict, Models.SummaryToDict: models.py only declares fields. Converting a validated object into the dictionary the publisher reads is the model's own glue. The source passes on what the reviewers and the summarizer return. These members have no model row.

- Subprocesses: `get_diff` and the `git fetch` and `git diff` calls are not modelled. They appear only as the text they print or an exception (src/codereviewer/diffs.py:3-10).
- Logging: the `logging` calls and the environment dump at src/codereviewer/__main__.py:20-26 have no effect on control flow, so they are not modelled.
- asyncio: `await` and the event loop are not modelled. The calls are taken in program order.
- Reviewers, summarizer and prompts: `reviewer.py`, `summarizer.py` and `prompts.py` are not part of this model; they are LLM and agent-service calls and prompt text. Their results are parameters. The model does not capture that both `summarize_changes` and `review_simple_changes` read a `has_critical_issues` attribute the pydantic models do not declare. It also does not capture that `review_simple_changes` returns pydantic `Issue` objects where the publisher reads dictionaries.
- Recovery stage: there is no code that recovers or repairs malformed model output and no reading of the agent's result file. None is modelled. The agent route is modelled as the code has it: it returns `None`, and `review.get` at src/codereviewer/__main__.py:42 then raises (`Crashed(ReportStage)`).
- Configurable routing: the routing threshold is the constant 100 in the code, not configuration. The model follows the code.
- Unicode digits: `PyStr.ParseInt` models `int()` on ASCII digits only. It covers surrounding whitespace (the ASCII whitespace, and above U+007F what `str.isspace()` accepts), a sign, and single underscores between digits. Unicode decimal digits from other scripts are not accepted by the model. Other `int()` failures unrelated to the text, such as the digit-count limit, are not modelled.
- PyGithub: `Github(token)`, `get_repo` and `get_pull` are folded into one answer, `openPull`. Reading `pr.head.sha` is folded into each review comment's answer. Which exception PyGithub raises is not modelled, only that one was raised and caught.
- Value formatting: dictionary values are modelled as strings, and `line` as an integer. Formatting non-string values with `str()` inside the f-strings is not modelled.
- Nothing escapes the publisher: `post_comments_and_summary` catches everything its body can raise after the guards. So the `except` around it in `main` (src/codereviewer/__main__.py:44-47) never fires in the model. `RunReview` states the consequence: the run completes whatever the publisher does.
- Tests: tests/test_reviewers.py and tests/test_quality.py call live models and an LLM judge, so they give no deterministic property to model.
