/** The few Python string operations the core relies on: str.splitlines(),
    str.split(sep) with a one-character separator, and int(s) in base 10. */
module PyStr {
  import opened Wrappers

  /** The code points str.splitlines() breaks at: \n, \r, \v, \f, \x1c-\x1e,
      \x85, U+2028 and U+2029. */
  predicate IsLineBreak(c: char) {
    var n := c as int;
    (10 <= n <= 13) || (28 <= n <= 30) || n == 0x85 || n == 0x2028 || n == 0x2029
  }

  /** The code points int() strips around its argument: below U+007F only
      \t, \n, \v, \f, \r and space (so not U+001C-U+001F, which
      str.isspace() accepts), and above it the characters str.isspace()
      accepts. */
  predicate IsSpace(c: char) {
    var n := c as int;
    (9 <= n <= 13) || n == 32 || n == 0x85 || n == 0xA0 || n == 0x1680
    || (0x2000 <= n <= 0x200A) || n == 0x2028 || n == 0x2029 || n == 0x202F
    || n == 0x205F || n == 0x3000
  }

  predicate IsDigit(c: char) {
    '0' <= c <= '9'
  }

  /** Index of the first line boundary in s, or |s| when there is none. */
  function LineEnd(s: string): (k: nat)
    ensures k <= |s|
    ensures forall i :: 0 <= i < k ==> !IsLineBreak(s[i])
    ensures k < |s| ==> IsLineBreak(s[k])
  {
    if s == [] || IsLineBreak(s[0]) then 0 else 1 + LineEnd(s[1..])
  }

  /** s.splitlines(): the text between boundaries, "\r\n" counting as one
      boundary, and no empty last line after a final boundary. */
  function SplitLines(s: string): (lines: seq<string>)
    ensures forall i, j :: 0 <= i < |lines| && 0 <= j < |lines[i]| ==> !IsLineBreak(lines[i][j])
    decreases |s|
  {
    if s == [] then []
    else
      var k := LineEnd(s);
      if k == |s| then [s]
      else
        var next := if s[k] == '\r' && k + 1 < |s| && s[k + 1] == '\n' then k + 2 else k + 1;
        [s[..k]] + SplitLines(s[next..])
  }

  predicate NoLineBreak(s: string) {
    forall i :: 0 <= i < |s| ==> !IsLineBreak(s[i])
  }

  /** A line followed by "\n" is split off as one line. */
  lemma SplitLinesCons(line: string, rest: string)
    requires NoLineBreak(line)
    ensures SplitLines(line + "\n" + rest) == [line] + SplitLines(rest)
  {
    var s := line + "\n" + rest;
    var k := LineEnd(s);
    assert forall i :: 0 <= i < |line| ==> s[i] == line[i];
    assert IsLineBreak(s[|line|]);
    assert k == |line| && s[k] == '\n';
    assert s[..k] == line;
    assert s[k + 1..] == rest;
  }

  /** Index of the first c in s, or |s| when there is none. */
  function IndexOf(s: string, c: char): (k: nat)
    ensures k <= |s|
    ensures forall i :: 0 <= i < k ==> s[i] != c
    ensures k < |s| ==> s[k] == c
  {
    if s == [] || s[0] == c then 0 else 1 + IndexOf(s[1..], c)
  }

  /** s.split(sep): the pieces between occurrences of sep; n separators give
      n + 1 pieces, so "" gives [""]. */
  function Split(s: string, sep: char): (parts: seq<string>)
    ensures |parts| >= 1
    ensures forall i, j :: 0 <= i < |parts| && 0 <= j < |parts[i]| ==> parts[i][j] != sep
    decreases |s|
  {
    var k := IndexOf(s, sep);
    if k == |s| then [s] else [s[..k]] + Split(s[k + 1..], sep)
  }

  /** sep.join(parts). */
  function Join(parts: seq<string>, sep: char): string
    requires |parts| >= 1
  {
    if |parts| == 1 then parts[0] else parts[0] + [sep] + Join(parts[1..], sep)
  }

  /** Joining the pieces of a split gives back the string. */
  lemma {:induction false} JoinSplit(s: string, sep: char)
    ensures Join(Split(s, sep), sep) == s
    decreases |s|
  {
    var k := IndexOf(s, sep);
    if k < |s| {
      var rest := Split(s[k + 1..], sep);
      var parts := Split(s, sep);
      assert parts == [s[..k]] + rest;
      assert parts[0] == s[..k] && parts[1..] == rest;
      JoinSplit(s[k + 1..], sep);
      assert Join(parts, sep) == s[..k] + [sep] + Join(rest, sep);
      assert s == s[..k] + [sep] + s[k + 1..];
    }
  }

  /** Splitting a join of separator-free pieces gives back the pieces. */
  lemma {:induction false} SplitJoin(parts: seq<string>, sep: char)
    requires |parts| >= 1
    requires forall i, j :: 0 <= i < |parts| && 0 <= j < |parts[i]| ==> parts[i][j] != sep
    ensures Split(Join(parts, sep), sep) == parts
  {
    var s := Join(parts, sep);
    var k := IndexOf(s, sep);
    if |parts| == 1 {
      assert forall i :: 0 <= i < |s| ==> s[i] == parts[0][i];
      assert k == |s|;
    } else {
      var tail := Join(parts[1..], sep);
      assert s == parts[0] + [sep] + tail;
      assert forall i :: 0 <= i < |parts[0]| ==> s[i] == parts[0][i];
      assert s[|parts[0]|] == sep;
      assert k == |parts[0]|;
      assert s[..k] == parts[0];
      assert s[k + 1..] == tail;
      SplitJoin(parts[1..], sep);
      assert parts == [parts[0]] + parts[1..];
    }
  }

  /** s.lstrip() and s.rstrip() over the whitespace int() ignores. */
  function TrimStart(s: string): (t: string)
  {
    if s != [] && IsSpace(s[0]) then TrimStart(s[1..]) else s
  }

  function TrimEnd(s: string): (t: string)
  {
    if s != [] && IsSpace(s[|s| - 1]) then TrimEnd(s[..|s| - 1]) else s
  }

  /** A base-10 literal as int() accepts it once stripped of whitespace and
      sign: ASCII digits, with single underscores allowed between digits. */
  predicate IsNumeral(s: string) {
    |s| > 0 && IsDigit(s[0]) && IsDigit(s[|s| - 1]) && NumeralChars(s) &&
    forall i :: 0 <= i < |s| ==> s[i] == '_' ==> i + 1 < |s| && IsDigit(s[i + 1])
  }

  predicate NumeralChars(s: string) {
    forall i :: 0 <= i < |s| ==> IsDigit(s[i]) || s[i] == '_'
  }

  /** The value of a numeral, most significant digit first, underscores ignored. */
  function NumeralValue(s: string): int
    requires NumeralChars(s)
  {
    if s == [] then 0
    else if s[|s| - 1] == '_' then NumeralValue(s[..|s| - 1])
    else 10 * NumeralValue(s[..|s| - 1]) + (s[|s| - 1] as int - '0' as int)
  }

  /** int(s) for a str argument: None where Python raises ValueError. */
  function ParseInt(s: string): Option<int> {
    var t := TrimEnd(TrimStart(s));
    if t != [] && (t[0] == '+' || t[0] == '-') then
      if IsNumeral(t[1..]) then
        var n := NumeralValue(t[1..]);
        Some(if t[0] == '-' then -n else n)
      else None
    else if IsNumeral(t) then Some(NumeralValue(t))
    else None
  }

  lemma {:induction false} TrimStartSuffix(s: string)
    ensures |TrimStart(s)| <= |s| && TrimStart(s) == s[|s| - |TrimStart(s)|..]
  {
    if s != [] && IsSpace(s[0]) {
      TrimStartSuffix(s[1..]);
    }
  }

  lemma {:induction false} TrimEndPrefix(s: string)
    ensures |TrimEnd(s)| <= |s| && TrimEnd(s) == s[..|TrimEnd(s)|]
  {
    if s != [] && IsSpace(s[|s| - 1]) {
      TrimEndPrefix(s[..|s| - 1]);
    }
  }

  /** int() refuses every text without a decimal digit. */
  lemma ParseIntNeedsDigit(s: string)
    ensures ParseInt(s).Some? ==> exists i :: 0 <= i < |s| && IsDigit(s[i])
  {
    var u := TrimStart(s);
    var t := TrimEnd(u);
    TrimStartSuffix(s);
    TrimEndPrefix(u);
    var off := |s| - |u|;
    if t != [] && (t[0] == '+' || t[0] == '-') {
      if IsNumeral(t[1..]) {
        assert s[off + 1] == u[1] == t[1] == t[1..][0];
      }
    } else if IsNumeral(t) {
      assert s[off] == u[0] == t[0];
    }
  }

  /** int() strips ASCII whitespace but not the separator controls
      U+001C-U+001F: int(" 5\n") is 5, int("5\x1f") raises. */
  lemma ParseIntSpaces()
    ensures ParseInt(" 5\n") == Some(5)
    ensures ParseInt(['5', 31 as char]) == None
  {
    assert TrimStart(" 5\n") == "5\n";
    assert TrimEnd("5\n") == "5";
    assert NumeralValue("5") == 5;
    var x := ['5', 31 as char];
    assert TrimStart(x) == x;
    assert TrimEnd(x) == x;
    assert !IsNumeral(x);
  }

  function DigitChar(d: nat): (c: char)
    requires d < 10
    ensures IsDigit(c) && c as int - '0' as int == d
  {
    ('0' as int + d) as char
  }

  /** str(n) for a non-negative integer: its decimal digits. */
  function ShowNat(n: nat): (s: string)
    ensures |s| > 0 && forall i :: 0 <= i < |s| ==> IsDigit(s[i])
    ensures NumeralValue(s) == n
  {
    if n < 10 then [DigitChar(n)]
    else
      var s := ShowNat(n / 10) + [DigitChar(n % 10)];
      assert s[..|s| - 1] == ShowNat(n / 10);
      s
  }

  /** int(str(n)) == n, and int("-" + str(n)) == -n. */
  lemma ParseShowNat(n: nat)
    ensures ParseInt(ShowNat(n)) == Some(n)
    ensures ParseInt("-" + ShowNat(n)) == Some(-(n as int))
  {
    var s := ShowNat(n);
    TrimNothing(s);
    assert IsNumeral(s);
    var m := "-" + s;
    assert m[|m| - 1] == s[|s| - 1];
    TrimNothing(m);
    assert m[1..] == s;
  }

  /** int() keeps the separator controls U+001C-U+001F: a number followed
      by one of them raises. */
  lemma ParseIntKeepsSeparators(n: nat, c: char)
    requires 28 <= c as int <= 31
    ensures ParseInt(ShowNat(n) + [c]) == None
  {
    var s := ShowNat(n) + [c];
    TrimNothing(s);
    assert !IsNumeral(s) by { assert !IsDigit(s[|s| - 1]); }
    assert !IsNumeral(s[1..]) by { assert s[1..][|s[1..]| - 1] == c; }
  }

  /** int() strips ASCII whitespace around a number. */
  lemma ParseIntStripsAsciiSpace(n: nat, c: char)
    requires c == ' ' || 9 <= c as int <= 13
    ensures ParseInt([c] + ShowNat(n) + [c]) == Some(n)
  {
    var d := ShowNat(n);
    var s := [c] + d + [c];
    assert s[1..] == d + [c];
    assert TrimStart(s) == TrimStart(d + [c]);
    TrimNothing(d);
    assert (d + [c])[0] == d[0];
    assert TrimStart(d + [c]) == d + [c];
    assert (d + [c])[..|d|] == d;
    assert TrimEnd(d + [c]) == TrimEnd(d) == d;
    ParseShowNat(n);
  }

  /** Stripping leaves a string alone that neither starts nor ends with whitespace. */
  lemma TrimNothing(s: string)
    requires s != [] && !IsSpace(s[0]) && !IsSpace(s[|s| - 1])
    ensures TrimEnd(TrimStart(s)) == s
  {
  }

  /** int() rejects git's "-" placeholder and the empty string. */
  lemma ParseIntRejects()
    ensures ParseInt("-") == None
    ensures ParseInt("") == None
  {
    assert TrimEnd(TrimStart("-")) == "-";
    assert "-"[1..] == "";
  }

  /** d occurs in s at index q. */
  predicate MatchAt(s: string, d: string, q: nat) {
    q + |d| <= |s| && s[q..q + |d|] == d
  }

  /** s.find(d, i), with None for -1. */
  function FindFrom(s: string, d: string, i: nat): (r: Option<nat>)
    ensures r.Some? ==> i <= r.value && MatchAt(s, d, r.value)
    decreases |s| - i
  {
    if i + |d| > |s| then None
    else if s[i..i + |d|] == d then Some(i)
    else FindFrom(s, d, i + 1)
  }

  /** s.partition(d) when d occurs: the text before and after its first occurrence. */
  function Partition(s: string, d: string): Option<(string, string)> {
    match FindFrom(s, d, 0)
    case None => None
    case Some(p) => Some((s[..p], s[p + |d|..]))
  }

  lemma {:induction false} FindFromAt(s: string, d: string, i: nat, p: nat)
    requires i <= p && MatchAt(s, d, p)
    requires forall q :: i <= q < p ==> !MatchAt(s, d, q)
    ensures FindFrom(s, d, i) == Some(p)
    decreases p - i
  {
    if i < p {
      assert !MatchAt(s, d, i);
      FindFromAt(s, d, i + 1, p);
    }
  }

  predicate NoStar(s: string) {
    forall i :: 0 <= i < |s| ==> s[i] != '*'
  }

  /** A star-free prefix cannot hide an earlier occurrence of a delimiter
      whose first star sits at index k. */
  lemma PartitionAfterStarFree(a: string, d: string, b: string, k: nat)
    requires NoStar(a)
    requires k < |d| && d[k] == '*' && forall j :: 0 <= j < k ==> d[j] != '*'
    ensures Partition(a + d + b, d) == Some((a, b))
  {
    var s := a + d + b;
    forall q | 0 <= q < |a|
      ensures !MatchAt(s, d, q)
    {
      if q + k < |a| {
        assert s[q + k] == a[q + k];
      } else {
        assert s[q + k] == d[q + k - |a|];
      }
      assert s[q..q + |d|][k] == s[q + k];
    }
    assert s[|a|..|a| + |d|] == d;
    FindFromAt(s, d, 0, |a|);
    assert s[..|a|] == a;
    assert s[|a| + |d|..] == b;
  }
}
