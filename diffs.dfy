/** The numstat parser of get_diff_stat: the stdout of
    `git diff origin/main --numstat` turned into a change-size statistic. */
module Diffs {
  import opened Wrappers
  import opened PyStr

  /** The dictionary get_diff_stat returns. */
  datatype DiffStat = DiffStat(files: seq<string>, insertions: int, deletions: int, total: int)

  /** One accepted numstat line: insertions, deletions and the path. */
  datatype NumstatRow = NumstatRow(insertions: int, deletions: int, file: string)

  /** The two ValueErrors the parse can raise: unpacking more than three
      fields, and int() of a column that is not an integer literal. */
  datatype NumstatError = TooManyValues(fields: nat) | InvalidLiteral(text: string)

  /** What the loop does with one line. */
  datatype LineKind = Blank | TooFewFields | Entry(row: NumstatRow) | Bad(error: NumstatError)
  {
    predicate Skipped() { Blank? || TooFewFields? }
  }

  function ClassifyLine(line: string): LineKind {
    if line == "" then Blank else ClassifyFields(Split(line, '\t'))
  }

  /** The loop body after the split: the unpack, then int() of each count. */
  function ClassifyFields(parts: seq<string>): LineKind {
    if |parts| < 3 then TooFewFields
    else if |parts| > 3 then Bad(TooManyValues(|parts|))
    else
      var ins := ParseInt(parts[0]);
      if ins.None? then Bad(InvalidLiteral(parts[0]))
      else
        var dels := ParseInt(parts[1]);
        if dels.None? then Bad(InvalidLiteral(parts[1]))
        else Entry(NumstatRow(ins.value, dels.value, parts[2]))
  }

  /** One iteration of the loop, given the accepted rows so far. */
  function Step(acc: Result<seq<NumstatRow>, NumstatError>, kind: LineKind): Result<seq<NumstatRow>, NumstatError> {
    match acc
    case Failure(e) => Failure(e)
    case Success(rows) =>
      match kind
      case Entry(row) => Success(rows + [row])
      case Bad(e) => Failure(e)
      case Blank => Success(rows)
      case TooFewFields => Success(rows)
  }

  /** The loop over classified lines: the rows in order, or the first error. */
  function ParseKinds(kinds: seq<LineKind>): Result<seq<NumstatRow>, NumstatError> {
    if kinds == [] then Success([])
    else Step(ParseKinds(kinds[..|kinds| - 1]), kinds[|kinds| - 1])
  }

  function Classify(lines: seq<string>): seq<LineKind> {
    seq(|lines|, i requires 0 <= i < |lines| => ClassifyLine(lines[i]))
  }

  function ParseLines(lines: seq<string>): Result<seq<NumstatRow>, NumstatError> {
    ParseKinds(Classify(lines))
  }

  function Files(rows: seq<NumstatRow>): seq<string> {
    if rows == [] then [] else Files(rows[..|rows| - 1]) + [rows[|rows| - 1].file]
  }

  function SumInsertions(rows: seq<NumstatRow>): int {
    if rows == [] then 0 else SumInsertions(rows[..|rows| - 1]) + rows[|rows| - 1].insertions
  }

  function SumDeletions(rows: seq<NumstatRow>): int {
    if rows == [] then 0 else SumDeletions(rows[..|rows| - 1]) + rows[|rows| - 1].deletions
  }

  function Stat(rows: seq<NumstatRow>): DiffStat {
    var ins, dels := SumInsertions(rows), SumDeletions(rows);
    DiffStat(Files(rows), ins, dels, ins + dels)
  }

  /** get_diff_stat after its subprocess calls, as a function of git's stdout. */
  function GetDiffStat(stdout: string): (r: Result<DiffStat, NumstatError>)
    ensures stdout == "" ==> r == Success(DiffStat([], 0, 0, 0))
    ensures r.Success? ==> r.value.total == r.value.insertions + r.value.deletions
  {
    match ParseLines(SplitLines(stdout))
    case Failure(e) => Failure(e)
    case Success(rows) => Success(Stat(rows))
  }

  /** The loop of get_diff_stat: skips blank and short lines, appends the
      path, then adds the two counts, stopping at the first ValueError. */
  method ComputeDiffStat(stdout: string) returns (r: Result<DiffStat, NumstatError>)
    ensures r == GetDiffStat(stdout)
  {
    var lines := SplitLines(stdout);
    ghost var kinds := Classify(lines);
    var files: seq<string>, insertions: int, deletions: int := [], 0, 0;
    ghost var rows: seq<NumstatRow> := [];
    for i := 0 to |lines|
      invariant ParseKinds(kinds[..i]) == Success(rows)
      invariant files == Files(rows)
      invariant insertions == SumInsertions(rows)
      invariant deletions == SumDeletions(rows)
    {
      var line := lines[i];
      ParseKindsPrefix(kinds, i);
      assert kinds[i] == ClassifyLine(line);
      if line == "" {
        continue;
      }
      var parts := Split(line, '\t');
      if |parts| < 3 {
        continue;
      }
      if |parts| > 3 {
        assert kinds[i] == Bad(TooManyValues(|parts|));
        FailureIsFinal(kinds, i);
        return Failure(TooManyValues(|parts|));
      }
      var ins, dels, file := parts[0], parts[1], parts[2];
      files := files + [file];
      var insValue := ParseInt(ins);
      if insValue.None? {
        assert kinds[i] == Bad(InvalidLiteral(ins));
        FailureIsFinal(kinds, i);
        return Failure(InvalidLiteral(ins));
      }
      insertions := insertions + insValue.value;
      var delsValue := ParseInt(dels);
      if delsValue.None? {
        assert kinds[i] == Bad(InvalidLiteral(dels));
        FailureIsFinal(kinds, i);
        return Failure(InvalidLiteral(dels));
      }
      deletions := deletions + delsValue.value;
      ghost var row := NumstatRow(insValue.value, delsValue.value, file);
      assert kinds[i] == Entry(row);
      RowsSnoc(rows, row);
      rows := rows + [row];
    }
    assert kinds[..|lines|] == kinds;
    r := Success(DiffStat(files, insertions, deletions, insertions + deletions));
  }

  /** Appending a row appends its path and adds its counts. */
  lemma RowsSnoc(rows: seq<NumstatRow>, row: NumstatRow)
    ensures Files(rows + [row]) == Files(rows) + [row.file]
    ensures SumInsertions(rows + [row]) == SumInsertions(rows) + row.insertions
    ensures SumDeletions(rows + [row]) == SumDeletions(rows) + row.deletions
  {
    assert (rows + [row])[..|rows|] == rows;
  }

  /** The loop over one more line is one more step. */
  lemma ParseKindsPrefix(kinds: seq<LineKind>, i: nat)
    requires i < |kinds|
    ensures ParseKinds(kinds[..i + 1]) == Step(ParseKinds(kinds[..i]), kinds[i])
  {
    assert kinds[..i + 1][..i] == kinds[..i];
  }

  /** A failure within the first i + 1 lines is the result of the whole loop. */
  lemma FailureIsFinal(kinds: seq<LineKind>, i: nat)
    requires i < |kinds| && ParseKinds(kinds[..i + 1]).Failure?
    ensures ParseKinds(kinds) == ParseKinds(kinds[..i + 1])
  {
    ErrorPersists(kinds[..i + 1], kinds[i + 1..]);
    assert kinds[..i + 1] + kinds[i + 1..] == kinds;
  }

  /** Once a line has failed, later lines change nothing. */
  lemma {:induction false} ErrorPersists(xs: seq<LineKind>, ys: seq<LineKind>)
    requires ParseKinds(xs).Failure?
    ensures ParseKinds(xs + ys) == ParseKinds(xs)
    decreases |ys|
  {
    if ys != [] {
      var init := ys[..|ys| - 1];
      assert (xs + ys)[..|xs + ys| - 1] == xs + init;
      ErrorPersists(xs, init);
    } else {
      assert xs + ys == xs;
    }
  }

  lemma {:induction false} SkippedKindInvisible(xs: seq<LineKind>, k: LineKind, ys: seq<LineKind>)
    requires k.Skipped()
    ensures ParseKinds(xs + [k] + ys) == ParseKinds(xs + ys)
    decreases |ys|
  {
    if ys == [] {
      assert (xs + [k] + ys)[..|xs| + 1 - 1] == xs;
      assert xs + [k] + ys == xs + [k];
      assert xs + ys == xs;
    } else {
      var init := ys[..|ys| - 1];
      var last := ys[|ys| - 1];
      assert (xs + [k] + ys)[..|xs + [k] + ys| - 1] == xs + [k] + init;
      assert (xs + ys)[..|xs + ys| - 1] == xs + init;
      assert (xs + [k] + ys)[|xs + [k] + ys| - 1] == last;
      assert (xs + ys)[|xs + ys| - 1] == last;
      SkippedKindInvisible(xs, k, init);
    }
  }

  lemma ClassifyAppend(xs: seq<string>, ys: seq<string>)
    ensures Classify(xs + ys) == Classify(xs) + Classify(ys)
  {
    assert forall i :: 0 <= i < |xs| ==> (xs + ys)[i] == xs[i];
    assert forall i :: |xs| <= i < |xs| + |ys| ==> (xs + ys)[i] == ys[i - |xs|];
  }

  /** A blank line, or one with fewer than three fields, can be removed
      anywhere without changing the outcome. */
  lemma SkippedLineInvisible(xs: seq<string>, line: string, ys: seq<string>)
    requires ClassifyLine(line).Skipped()
    ensures ParseLines(xs + [line] + ys) == ParseLines(xs + ys)
  {
    ClassifyAppend(xs + [line], ys);
    ClassifyAppend(xs, [line]);
    assert Classify([line]) == [ClassifyLine(line)];
    ClassifyAppend(xs, ys);
    SkippedKindInvisible(Classify(xs), ClassifyLine(line), Classify(ys));
  }

  /** Whether a line is skipped depends only on its tab count: an empty line
      splits into one field, so it is also one with fewer than three. */
  lemma SkippedIff(line: string)
    ensures ClassifyLine(line).Skipped() <==> |Split(line, '\t')| < 3
  {
    if line == "" {
      assert Split(line, '\t') == [""];
    }
  }

  /** Reference definition: the rows of the accepted lines, read front to back. */
  function Accepted(kinds: seq<LineKind>): seq<NumstatRow> {
    if kinds == [] then []
    else (if kinds[0].Entry? then [kinds[0].row] else []) + Accepted(kinds[1..])
  }

  lemma {:induction false} AcceptedSnoc(xs: seq<LineKind>, k: LineKind)
    ensures Accepted(xs + [k]) == Accepted(xs) + (if k.Entry? then [k.row] else [])
  {
    if xs != [] {
      assert (xs + [k])[1..] == xs[1..] + [k];
      AcceptedSnoc(xs[1..], k);
    } else {
      assert [k][1..] == [];
    }
  }

  predicate HasBad(kinds: seq<LineKind>) {
    exists i :: 0 <= i < |kinds| && kinds[i].Bad?
  }

  lemma {:induction false} ParseKindsSucceedsIff(kinds: seq<LineKind>)
    ensures ParseKinds(kinds).Success? <==> !HasBad(kinds)
    ensures !HasBad(kinds) ==> ParseKinds(kinds) == Success(Accepted(kinds))
  {
    if kinds != [] {
      var init := kinds[..|kinds| - 1];
      var last := kinds[|kinds| - 1];
      assert kinds == init + [last];
      ParseKindsSucceedsIff(init);
      AcceptedSnoc(init, last);
      assert HasBad(kinds) <==> HasBad(init) || last.Bad? by {
        if HasBad(init) {
          var i :| 0 <= i < |init| && init[i].Bad?;
          assert kinds[i] == init[i];
        }
        if HasBad(kinds) && !last.Bad? {
          var i :| 0 <= i < |kinds| && kinds[i].Bad?;
          assert i < |init| && init[i] == kinds[i];
        }
      }
      if !HasBad(kinds) {
        assert ParseKinds(kinds) == Step(Success(Accepted(init)), last);
        if !last.Entry? {
          assert Accepted(init) + [] == Accepted(init);
        }
      }
    }
  }

  predicate HasBadLine(lines: seq<string>) {
    exists i :: 0 <= i < |lines| && ClassifyLine(lines[i]).Bad?
  }

  /** The parse succeeds exactly when no line is bad, and then yields the
      accepted rows in input order, one per accepted line. */
  lemma ParseLinesSucceedsIff(lines: seq<string>)
    ensures ParseLines(lines).Success? <==> !HasBadLine(lines)
    ensures !HasBadLine(lines) ==> ParseLines(lines) == Success(Accepted(Classify(lines)))
  {
    var kinds := Classify(lines);
    ParseKindsSucceedsIff(kinds);
    if HasBadLine(lines) {
      var i :| 0 <= i < |lines| && ClassifyLine(lines[i]).Bad?;
      assert kinds[i].Bad?;
    }
    if HasBad(kinds) {
      var i :| 0 <= i < |kinds| && kinds[i].Bad?;
      assert ClassifyLine(lines[i]).Bad?;
    }
  }

  lemma FirstBadKindWins(kinds: seq<LineKind>, k: nat)
    requires k < |kinds| && kinds[k].Bad?
    requires forall j :: 0 <= j < k ==> !kinds[j].Bad?
    ensures ParseKinds(kinds) == Failure(kinds[k].error)
  {
    var prefix := kinds[..k];
    assert !HasBad(prefix);
    ParseKindsSucceedsIff(prefix);
    var upto := kinds[..k + 1];
    assert upto[..k] == prefix && upto[k] == kinds[k];
    ErrorPersists(upto, kinds[k + 1..]);
    assert upto + kinds[k + 1..] == kinds;
  }

  /** The error reported is that of the first bad line. */
  lemma FirstErrorWins(lines: seq<string>, k: nat)
    requires k < |lines| && ClassifyLine(lines[k]).Bad?
    requires forall j :: 0 <= j < k ==> !ClassifyLine(lines[j]).Bad?
    ensures ParseLines(lines) == Failure(ClassifyLine(lines[k]).error)
  {
    FirstBadKindWins(Classify(lines), k);
  }

  lemma {:induction false} ErrorFromSomeKind(kinds: seq<LineKind>)
    requires ParseKinds(kinds).Failure?
    ensures exists i :: 0 <= i < |kinds| && kinds[i] == Bad(ParseKinds(kinds).error)
  {
    var init := kinds[..|kinds| - 1];
    if ParseKinds(init).Failure? {
      ErrorFromSomeKind(init);
      var i :| 0 <= i < |init| && init[i] == Bad(ParseKinds(init).error);
      assert kinds[i] == init[i];
    }
  }

  /** Every reported error is the error of some line. */
  lemma ErrorFromSomeLine(lines: seq<string>)
    requires ParseLines(lines).Failure?
    ensures exists i :: 0 <= i < |lines| && ClassifyLine(lines[i]) == Bad(ParseLines(lines).error)
  {
    ErrorFromSomeKind(Classify(lines));
    var i :| 0 <= i < |lines| && Classify(lines)[i] == Bad(ParseLines(lines).error);
  }

  /** files lists the path of every accepted row, in order, and the totals
      are the column sums. */
  lemma {:induction false} StatOfRows(rows: seq<NumstatRow>)
    ensures |Stat(rows).files| == |rows|
    ensures forall k :: 0 <= k < |rows| ==> Stat(rows).files[k] == rows[k].file
    ensures Stat(rows).total == Stat(rows).insertions + Stat(rows).deletions
    ensures rows == [] ==> Stat(rows) == DiffStat([], 0, 0, 0)
  {
    if rows != [] {
      StatOfRows(rows[..|rows| - 1]);
    }
  }

  /** What get_diff_stat returns, in terms of the lines of stdout: an error
      exactly when some line is bad, otherwise the statistic of the accepted
      lines' rows, read front to back. */
  lemma GetDiffStatMeaning(stdout: string)
    ensures GetDiffStat(stdout).Success? <==> !HasBadLine(SplitLines(stdout))
    ensures GetDiffStat(stdout).Success? ==>
      GetDiffStat(stdout).value == Stat(Accepted(Classify(SplitLines(stdout))))
    ensures GetDiffStat(stdout).Failure? ==>
      exists i :: 0 <= i < |SplitLines(stdout)|
        && ClassifyLine(SplitLines(stdout)[i]) == Bad(GetDiffStat(stdout).error)
  {
    ParseLinesSucceedsIff(SplitLines(stdout));
    if GetDiffStat(stdout).Failure? {
      ErrorFromSomeLine(SplitLines(stdout));
    }
  }

  /** A file change as `git diff --numstat` reports it: counts for a text
      file, and "-" in both columns for a binary one. */
  datatype FileChange = Text(added: nat, deleted: nat, path: string) | Binary(path: string)

  /** Git quotes a path holding a tab or a line break, so numstat paths have neither. */
  predicate PlainPath(p: string) {
    forall i :: 0 <= i < |p| ==> p[i] != '\t' && !IsLineBreak(p[i])
  }

  function NumstatLine(c: FileChange): string {
    match c
    case Text(a, d, p) => ShowNat(a) + "\t" + ShowNat(d) + "\t" + p
    case Binary(p) => "-\t-\t" + p
  }

  /** The stdout git prints for the changes: one line each, ending in "\n". */
  function NumstatOutput(cs: seq<FileChange>): string {
    if cs == [] then "" else NumstatLine(cs[0]) + "\n" + NumstatOutput(cs[1..])
  }

  function NumstatLines(cs: seq<FileChange>): (lines: seq<string>)
    ensures |lines| == |cs|
    ensures forall i :: 0 <= i < |cs| ==> lines[i] == NumstatLine(cs[i])
  {
    if cs == [] then [] else [NumstatLine(cs[0])] + NumstatLines(cs[1..])
  }

  /** The rows a fully textual change list should produce. */
  function TextRows(cs: seq<FileChange>): seq<NumstatRow> {
    if cs == [] then []
    else
      (match cs[0] case Text(a, d, p) => [NumstatRow(a, d, p)] case Binary(_) => [])
      + TextRows(cs[1..])
  }

  lemma ClassifyNumstatLine(c: FileChange)
    requires PlainPath(c.path)
    ensures c.Text? ==> ClassifyLine(NumstatLine(c)) == Entry(NumstatRow(c.added, c.deleted, c.path))
    ensures c.Binary? ==> ClassifyLine(NumstatLine(c)) == Bad(InvalidLiteral("-"))
  {
    var cols := match c
      case Text(a, d, p) => [ShowNat(a), ShowNat(d), p]
      case Binary(p) => ["-", "-", p];
    assert cols[1..] == [cols[1], cols[2]] && cols[1..][1..] == [cols[2]];
    assert Join([cols[2]], '\t') == cols[2];
    assert Join([cols[1], cols[2]], '\t') == cols[1] + "\t" + cols[2];
    assert Join(cols, '\t') == cols[0] + "\t" + (cols[1] + "\t" + cols[2]);
    assert Join(cols, '\t') == NumstatLine(c);
    SplitJoin(cols, '\t');
    assert NumstatLine(c) != "";
    if c.Text? {
      ParseShowNat(c.added);
      ParseShowNat(c.deleted);
    } else {
      ParseIntRejects();
    }
  }

  lemma {:induction false} SplitNumstatOutput(cs: seq<FileChange>)
    requires forall i :: 0 <= i < |cs| ==> PlainPath(cs[i].path)
    ensures SplitLines(NumstatOutput(cs)) == NumstatLines(cs)
  {
    if cs != [] {
      var line := NumstatLine(cs[0]);
      assert NoLineBreak(line) by {
        assert PlainPath(cs[0].path);
        match cs[0]
        case Text(a, d, p) =>
          assert line == ShowNat(a) + "\t" + ShowNat(d) + "\t" + p;
        case Binary(p) =>
          assert line == "-\t-\t" + p;
      }
      SplitLinesCons(line, NumstatOutput(cs[1..]));
      SplitNumstatOutput(cs[1..]);
    }
  }

  /** What the parser makes of a change's line. */
  function ExpectedKind(c: FileChange): LineKind {
    match c
    case Text(a, d, p) => Entry(NumstatRow(a, d, p))
    case Binary(_) => Bad(InvalidLiteral("-"))
  }

  lemma ClassifyNumstatLines(cs: seq<FileChange>)
    requires forall i :: 0 <= i < |cs| ==> PlainPath(cs[i].path)
    ensures Classify(NumstatLines(cs)) == seq(|cs|, i requires 0 <= i < |cs| => ExpectedKind(cs[i]))
  {
    forall i | 0 <= i < |cs|
      ensures Classify(NumstatLines(cs))[i] == ExpectedKind(cs[i])
    {
      ClassifyNumstatLine(cs[i]);
    }
  }

  lemma {:induction false} AcceptedExpected(cs: seq<FileChange>)
    ensures Accepted(seq(|cs|, i requires 0 <= i < |cs| => ExpectedKind(cs[i]))) == TextRows(cs)
  {
    if cs != [] {
      var kinds := seq(|cs|, i requires 0 <= i < |cs| => ExpectedKind(cs[i]));
      assert kinds[1..] == seq(|cs[1..]|, i requires 0 <= i < |cs[1..]| => ExpectedKind(cs[1..][i]));
      AcceptedExpected(cs[1..]);
    }
  }

  /** Round trip: parsing git's numstat output for text files gives their
      paths in order and the sums of their counts. */
  lemma NumstatRoundTrip(cs: seq<FileChange>)
    requires forall i :: 0 <= i < |cs| ==> PlainPath(cs[i].path) && cs[i].Text?
    ensures GetDiffStat(NumstatOutput(cs)) == Success(Stat(TextRows(cs)))
  {
    SplitNumstatOutput(cs);
    var lines := NumstatLines(cs);
    forall i | 0 <= i < |lines| ensures !ClassifyLine(lines[i]).Bad? {
      ClassifyNumstatLine(cs[i]);
    }
    ParseLinesSucceedsIff(lines);
    ClassifyNumstatLines(cs);
    AcceptedExpected(cs);
  }

  /** A binary file anywhere in the output makes the parse fail on "-". */
  lemma BinaryChangeFails(cs: seq<FileChange>, k: nat)
    requires forall i :: 0 <= i < |cs| ==> PlainPath(cs[i].path)
    requires k < |cs| && cs[k].Binary?
    ensures GetDiffStat(NumstatOutput(cs)) == Failure(InvalidLiteral("-"))
  {
    SplitNumstatOutput(cs);
    var lines := NumstatLines(cs);
    ClassifyNumstatLine(cs[k]);
    ParseLinesSucceedsIff(lines);
    ErrorFromSomeLine(lines);
    var i :| 0 <= i < |lines| && ClassifyLine(lines[i]) == Bad(ParseLines(lines).error);
    ClassifyNumstatLine(cs[i]);
  }
}
