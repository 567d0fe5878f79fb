/**
 * The scenarios of test1.py, stated as lemmas about the model: the sample line parses into its
 * fields, a line in another format is rejected, an agent "-" becomes "", an empty log yields
 * zero counts, and an unparseable line between two good ones is skipped with a warning; and
 * one line beyond them, whose timestamp holds a ']'.
 */
module Scenarios {
  import opened Wrappers
  import opened LogLine
  import opened Analyzer

  const Entry1: LogEntry :=
    LogEntry("192.168.1.1", "01/Jan/2024:00:00:01 +0000", "GET", "/index.html", "HTTP/1.1", "200", "1234",
             "Mozilla/5.0")

  /** The sample line of the tests, written piecewise along the pattern. */
  const Line1: string :=
    "192.168.1.1" + " - - [" + "01/Jan/2024:00:00:01 +0000" + "]" + " " + ("\"" + "GET") + " " + "/index.html"
    + " " + "HTTP/1.1" + "\"" + " " + "200" + " " + "1234" + " " + "\"" + "Mozilla/5.0" + "\""

  /** The same request with the agent "-". */
  const DashLine: string :=
    "192.168.1.1" + " - - [" + "01/Jan/2024:00:00:01 +0000" + "]" + " " + ("\"" + "GET") + " " + "/index.html"
    + " " + "HTTP/1.1" + "\"" + " " + "200" + " " + "1234" + " " + "\"" + "-" + "\""

  /** The second request of the mixed log in the tests. */
  const Entry2: LogEntry :=
    LogEntry("192.168.1.2", "01/Jan/2024:00:00:02 +0000", "POST", "/api/data", "HTTP/1.1", "201", "567",
             "PostmanRuntime/7.32.3")

  const Line2: string :=
    "192.168.1.2" + " - - [" + "01/Jan/2024:00:00:02 +0000" + "]" + " " + ("\"" + "POST") + " " + "/api/data"
    + " " + "HTTP/1.1" + "\"" + " " + "201" + " " + "567" + " " + "\"" + "PostmanRuntime/7.32.3" + "\""

  lemma RequestWords()
    ensures AllIn("192.168.1.1", NonSpace) && AllIn("192.168.1.2", NonSpace)
    ensures AllIn("GET", NonSpace) && AllIn("POST", NonSpace)
  {
  }

  lemma TargetWords()
    ensures AllIn("/index.html", NonSpace) && AllIn("/api/data", NonSpace) && AllIn("HTTP/1.1", NonSpace)
  {
  }

  lemma Timestamps()
    ensures AllIn("01/Jan/2024:00:00:01 +0000", NonNewline) && AllIn("01/Jan/2024:00:00:02 +0000", NonNewline)
  {
  }

  lemma Numbers()
    ensures IsDecimal("200") && IsDecimal("1234") && IsDecimal("201") && IsDecimal("567")
  {
  }

  lemma Agents()
    ensures AllIn("Mozilla/5.0", NonQuote) && AllIn("-", NonQuote) && AllIn("PostmanRuntime/7.32.3", NonQuote)
  {
  }

  /** test_parse_log_line_correct: the sample line yields its eight fields verbatim. */
  lemma ParseSampleLine()
    ensures ParseLogLine(Line1) == Some(Entry1)
  {
    RequestWords();
    TargetWords();
    Timestamps();
    Numbers();
    Agents();
    assert Line1 == Render(Entry1);
    assert Line1[0] == '1' && Line1[|Line1| - 1] == '"';
    TrimTrimmed(Line1);
    ParseFields(Line1, Entry1);
  }

  /** test_parse_log_line_empty_user_agent: an agent "-" is reported as "". */
  lemma ParseDashAgent()
    ensures ParseLogLine(DashLine) == Some(Entry1.(userAgent := ""))
  {
    var g := Entry1.(userAgent := "-");
    RequestWords();
    TargetWords();
    Timestamps();
    Numbers();
    Agents();
    assert DashLine == Render(g);
    assert DashLine[0] == '1' && DashLine[|DashLine| - 1] == '"';
    TrimTrimmed(DashLine);
    ParseFields(DashLine, g);
  }

  /** test_parse_log_line_incorrect: a line in another format is rejected. */
  lemma ParseForeignLine()
    ensures ParseLogLine("некорректная строка лога") == None
  {
    var s := "некорректная строка лога";
    assert s[0] == 'н' && s[|s| - 1] == 'а';
    TrimTrimmed(s);
  }

  /** The first request of the mixed log in the tests. */
  lemma ParseSecondSample()
    ensures ParseLogLine(Line2) == Some(Entry2)
  {
    RequestWords();
    TargetWords();
    Timestamps();
    Numbers();
    Agents();
    assert Line2 == Render(Entry2);
    assert Line2[0] == '1' && Line2[|Line2| - 1] == '"';
    TrimTrimmed(Line2);
    ParseFields(Line2, Entry2);
  }

  /** A request whose timestamp holds a closing bracket. */
  const BracketLine: string :=
    "192.168.1.1" + " - - [" + "01/Jan/2024] [x" + "]" + " " + ("\"" + "GET") + " " + "/index.html"
    + " " + "HTTP/1.1" + "\"" + " " + "200" + " " + "1234" + " " + "\"" + "Mozilla/5.0" + "\""

  /** The datetime group runs up to the last "] " before the request, so it may itself hold ']'. */
  lemma ParseBracketInDatetime()
    ensures ParseLogLine(BracketLine) == Some(Entry1.(datetime := "01/Jan/2024] [x"))
  {
    var g := Entry1.(datetime := "01/Jan/2024] [x");
    RequestWords();
    TargetWords();
    Numbers();
    Agents();
    assert AllIn("01/Jan/2024] [x", NonNewline);
    assert BracketLine == Render(g);
    assert BracketLine[0] == '1' && BracketLine[|BracketLine| - 1] == '"';
    TrimTrimmed(BracketLine);
    ParseFields(BracketLine, g);
  }

  /** The middle line of the mixed log is not blank and does not match. */
  lemma ParseUpperCaseLine()
    ensures !AllIn("НЕКОРРЕКТНАЯ СТРОКА", Space) && ParseLogLine("НЕКОРРЕКТНАЯ СТРОКА") == None
  {
    var s := "НЕКОРРЕКТНАЯ СТРОКА";
    assert s[0] == 'Н' && s[|s| - 1] == 'А';
    TrimTrimmed(s);
  }

  /**
   * test_analyze_file_with_invalid_lines, for any such log: of a good line, a bad line and a good
   * line, two requests are counted and line 2 is reported. `ParseSampleLine`, `ParseUpperCaseLine`
   * and `ParseSecondSample` show that the lines of the test are of these kinds.
   */
  lemma MixedLog(good1: string, bad: string, good2: string)
    requires ParseLogLine(good1).Some? && ParseLogLine(good2).Some?
    requires WithinDigitLimit(ParseLogLine(good1).value.statusCode) && WithinDigitLimit(ParseLogLine(good1).value.responseSize)
    requires WithinDigitLimit(ParseLogLine(good2).value.statusCode) && WithinDigitLimit(ParseLogLine(good2).value.responseSize)
    requires !AllIn(bad, Space) && ParseLogLine(bad).None?
    ensures Summarize(Run(Kinds([good1, bad, good2]))).totalRequests == 2
    ensures Warnings(Kinds([good1, bad, good2])) == [2]
  {
    var lines := [good1, bad, good2];
    ClassifyCases(good1);
    ClassifyCases(bad);
    ClassifyCases(good2);
    KindsAt(lines, 0);
    KindsAt(lines, 1);
    KindsAt(lines, 2);
    MixedCounts(Kinds(lines));
  }

  /** The counting half of `MixedLog`, on the outcomes of the lines. */
  lemma MixedCounts(kinds: seq<LineKind>)
    requires |kinds| == 3 && kinds[0].Accepted? && kinds[1].Malformed? && kinds[2].Accepted?
    ensures Run(kinds).totalRequests == 2
    ensures Warnings(kinds) == [2]
  {
    assert kinds[..1] == [] + [kinds[0]] && kinds[..2] == kinds[..1] + [kinds[1]];
    assert kinds == kinds[..2] + [kinds[2]];
    RunSnoc([], kinds[0]);
    RunSnoc(kinds[..1], kinds[1]);
    RunSnoc(kinds[..2], kinds[2]);
    WarningsSnoc([], kinds[0]);
    WarningsSnoc(kinds[..1], kinds[1]);
    WarningsSnoc(kinds[..2], kinds[2]);
  }

  /**
   * A line that matches but whose size has more digits than int() accepts is reported with its
   * number and counted nowhere, like an unparseable one.
   */
  lemma OverlongSizeLine(line: string)
    requires ParseLogLine(line).Some? && !WithinDigitLimit(ParseLogLine(line).value.responseSize)
    ensures Run(Kinds([line])) == NoStats()
    ensures Warnings(Kinds([line])) == [1]
  {
    ClassifyCases(line);
    KindsAt([line], 0);
    RunSnoc([], Classify(line));
    WarningsSnoc([], Classify(line));
    assert Kinds([line]) == [] + [Classify(line)];
  }

  /** Such lines exist: the sample request with a size of 4301 digits. */
  lemma OverlongSizeExists()
    ensures var g := Entry1.(responseSize := seq(IntMaxStrDigits + 1, _ => '1'));
      ParseLogLine(Render(g)) == Some(g) && !WithinDigitLimit(g.responseSize)
  {
    var g := Entry1.(responseSize := seq(IntMaxStrDigits + 1, _ => '1'));
    RequestWords();
    TargetWords();
    Timestamps();
    Numbers();
    Agents();
    var line := Render(g);
    assert line[0] == '1' && line[|line| - 1] == '"';
    TrimTrimmed(line);
    ParseFields(line, g);
  }

  /** test_analyze_empty_file: no lines, no requests, average 0, empty top lists, no warnings. */
  lemma EmptyLog()
    ensures var r := Summarize(Run(Kinds([])));
      r.totalRequests == 0 && r.avgResponseSize == 0.0 && r.topIps == [] && r.topUserAgents == []
    ensures Warnings(Kinds([])) == []
  {
    NothingAccepted([]);
  }
}
