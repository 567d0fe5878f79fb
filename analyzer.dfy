/**
 * analyze_log_file: one pass over the lines of a log, counting the accepted ones.
 *
 * `Classify` is what the loop body decides about one line and `Run` is the
 * specification of the loop: a left fold of `Step` over the outcomes of the lines.
 * The method `AnalyzeLogFile` is the loop itself, with the counting statements of
 * an accepted line in `CountEntry`; it is proved to compute `Summarize(Run(...))`.
 * The lemmas state what the counters promise about any input.
 */
module Analyzer {
  import opened Wrappers
  import opened LogLine
  import opened Tallies

  /** The running state of the loop: the four counters and the four accumulators. */
  datatype Stats = Stats(
    methods: Tally<string>,
    ips: Tally<string>,
    statuses: Tally<nat>,
    userAgents: Tally<string>,
    totalRequests: nat,
    totalResponseSize: nat,
    error4xx: nat,
    error5xx: nat)

  /** The dictionary analyze_log_file returns. */
  datatype AnalysisResult = AnalysisResult(
    totalRequests: nat,
    topIps: seq<(string, nat)>,
    topUserAgents: seq<(string, nat)>,
    avgResponseSize: real,
    error4xx: nat,
    error5xx: nat,
    statusCounter: Tally<nat>,
    methods: Tally<string>)

  predicate IsClientError(status: nat) {
    400 <= status < 500
  }

  predicate IsServerError(status: nat) {
    500 <= status < 600
  }

  function NoStats(): Stats {
    Stats(Tally([], map[]), Tally([], map[]), Tally([], map[]), Tally([], map[]), 0, 0, 0, 0)
  }

  /** What the loop does with one line: skip it silently, warn about it, or count it. */
  datatype LineKind =
    | Blank
    | Malformed
    | Unconvertible
    | Accepted(entry: LogEntry, statusCode: nat, responseSize: nat)
  {
    /** The outcomes the loop reports with the line's number before skipping it. */
    predicate Warned() {
      Malformed? || Unconvertible?
    }
  }

  /**
   * The branches of the loop body: strip test, parse, conversion of the two numbers with int(),
   * where a conversion that raises ValueError sends the line to the warning of the except clause.
   */
  function Classify(line: string): LineKind {
    if Trim(line) == [] then Blank
    else
      match ParseLogLine(line)
      case None => Malformed
      case Some(e) =>
        if !WithinDigitLimit(e.responseSize) || !WithinDigitLimit(e.statusCode) then Unconvertible
        else Accepted(e, DecimalValue(e.statusCode), DecimalValue(e.responseSize))
  }

  /**
   * A line is skipped silently exactly when it is blank; warned about as malformed exactly when it
   * is not blank but does not match; warned about by the except clause exactly when it parses but
   * a number is too long for int(); and counted otherwise, with the values int() gives.
   */
  lemma ClassifyCases(line: string)
    ensures Classify(line).Blank? <==> AllIn(line, Space)
    ensures Classify(line).Malformed? <==> !AllIn(line, Space) && !exists g :: Matches(Trim(line), g)
    ensures Classify(line).Unconvertible? <==>
      ParseLogLine(line).Some?
      && !(WithinDigitLimit(ParseLogLine(line).value.responseSize) && WithinDigitLimit(ParseLogLine(line).value.statusCode))
    ensures Classify(line).Accepted? <==>
      ParseLogLine(line).Some?
      && WithinDigitLimit(ParseLogLine(line).value.responseSize) && WithinDigitLimit(ParseLogLine(line).value.statusCode)
    ensures Classify(line).Accepted? ==>
      && ParseLogLine(line) == Some(Classify(line).entry)
      && Classify(line).statusCode == DecimalValue(Classify(line).entry.statusCode)
      && Classify(line).responseSize == DecimalValue(Classify(line).entry.responseSize)
  {
    ParseSucceedsIff(line);
  }

  /** The outcome of every line, in order. */
  function Kinds(lines: seq<string>): (r: seq<LineKind>)
    ensures |r| == |lines|
  {
    if lines == [] then [] else Kinds(lines[..|lines| - 1]) + [Classify(lines[|lines| - 1])]
  }

  lemma {:induction false} KindsAt(lines: seq<string>, i: nat)
    requires i < |lines|
    ensures Kinds(lines)[i] == Classify(lines[i])
  {
    if i < |lines| - 1 {
      KindsAt(lines[..|lines| - 1], i);
    }
  }

  /** The counter updates for one accepted line. */
  function Record(st: Stats, e: LogEntry, statusCode: nat, responseSize: nat): Stats {
    Stats(
      methods := st.methods.Add(e.httpMethod),
      ips := st.ips.Add(e.ip),
      statuses := st.statuses.Add(statusCode),
      userAgents := if e.userAgent != "" then st.userAgents.Add(e.userAgent) else st.userAgents,
      totalRequests := st.totalRequests + 1,
      totalResponseSize := st.totalResponseSize + responseSize,
      error4xx := if IsClientError(statusCode) then st.error4xx + 1 else st.error4xx,
      error5xx := if !IsClientError(statusCode) && IsServerError(statusCode) then st.error5xx + 1 else st.error5xx)
  }

  /**
   * An accepted line adds one to the total, to its method, ip and status, and to its agent when
   * that is not empty; adds its size to the size sum; adds one to the 4xx or the 5xx counter when
   * its status is in range; and changes no other count.
   */
  lemma RecordCounts(st: Stats, e: LogEntry, statusCode: nat, responseSize: nat)
    ensures var r := Record(st, e, statusCode, responseSize);
      && r.totalRequests == st.totalRequests + 1
      && r.totalResponseSize == st.totalResponseSize + responseSize
      && r.methods.Get(e.httpMethod) == st.methods.Get(e.httpMethod) + 1
      && (forall m :: m != e.httpMethod ==> r.methods.Get(m) == st.methods.Get(m))
      && r.ips.Get(e.ip) == st.ips.Get(e.ip) + 1
      && (forall a :: a != e.ip ==> r.ips.Get(a) == st.ips.Get(a))
      && r.statuses.Get(statusCode) == st.statuses.Get(statusCode) + 1
      && (forall c :: c != statusCode ==> r.statuses.Get(c) == st.statuses.Get(c))
      && (e.userAgent == "" ==> r.userAgents == st.userAgents)
      && (e.userAgent != "" ==> r.userAgents.Get(e.userAgent) == st.userAgents.Get(e.userAgent) + 1)
      && (forall u :: u != e.userAgent ==> r.userAgents.Get(u) == st.userAgents.Get(u))
      && r.error4xx == st.error4xx + (if IsClientError(statusCode) then 1 else 0)
      && r.error5xx == st.error5xx + (if IsServerError(statusCode) then 1 else 0)
  {
  }

  /** One iteration of the loop: a line that is not counted leaves the state as it is. */
  function Step(st: Stats, kind: LineKind): (r: Stats)
    ensures !kind.Accepted? ==> r == st
  {
    match kind
    case Accepted(e, statusCode, responseSize) => Record(st, e, statusCode, responseSize)
    case _ => st
  }

  /** The state after the loop has consumed lines with these outcomes. */
  function Run(kinds: seq<LineKind>): Stats {
    if kinds == [] then NoStats() else Step(Run(kinds[..|kinds| - 1]), kinds[|kinds| - 1])
  }

  /** The 1-based numbers of the lines that draw a warning. */
  function Warnings(kinds: seq<LineKind>): seq<nat> {
    if kinds == [] then []
    else Warnings(kinds[..|kinds| - 1]) + (if kinds[|kinds| - 1].Warned() then [|kinds|] else [])
  }

  /** The number of accepted lines and the sum of their sizes, counted independently of `Run`. */
  function AcceptedTotals(kinds: seq<LineKind>): (nat, nat) {
    if kinds == [] then (0, 0)
    else
      var rest := AcceptedTotals(kinds[1..]);
      if kinds[0].Accepted? then (rest.0 + 1, rest.1 + kinds[0].responseSize) else rest
  }

  /** The totals of a sequence are those of all but its last outcome, plus that outcome's share. */
  lemma {:induction false} AcceptedTotalsLast(kinds: seq<LineKind>)
    requires kinds != []
    ensures var init, last := AcceptedTotals(kinds[..|kinds| - 1]), kinds[|kinds| - 1];
      AcceptedTotals(kinds) == if last.Accepted? then (init.0 + 1, init.1 + last.responseSize) else init
  {
    var n := |kinds|;
    if n > 1 {
      AcceptedTotalsLast(kinds[1..]);
      assert kinds[1..][..n - 2] == kinds[..n - 1][1..];
    }
  }

  /** total_requests is the number of accepted lines and total_response_size the sum of their sizes. */
  lemma {:induction false} RunCountsAccepted(kinds: seq<LineKind>)
    ensures Run(kinds).totalRequests == AcceptedTotals(kinds).0
    ensures Run(kinds).totalResponseSize == AcceptedTotals(kinds).1
  {
    if kinds != [] {
      var n := |kinds|;
      var prefix, last := kinds[..n - 1], kinds[n - 1];
      RunCountsAccepted(prefix);
      AcceptedTotalsLast(kinds);
      StepTotals(Run(prefix), last);
    }
  }

  /** One step adds one request and the line's size exactly when the line is accepted. */
  lemma StepTotals(st: Stats, kind: LineKind)
    ensures Step(st, kind).totalRequests == st.totalRequests + (if kind.Accepted? then 1 else 0)
    ensures Step(st, kind).totalResponseSize == st.totalResponseSize + (if kind.Accepted? then kind.responseSize else 0)
  {
  }

  /** The average response size, exactly; 0 when nothing was counted. */
  function AverageSize(totalResponseSize: nat, totalRequests: nat): (avg: real)
    ensures totalRequests == 0 ==> avg == 0.0
    ensures totalRequests > 0 ==> avg * totalRequests as real == totalResponseSize as real
    ensures avg >= 0.0
  {
    if totalRequests > 0 then totalResponseSize as real / totalRequests as real else 0.0
  }

  /** The result assembly after the loop. */
  function Summarize(st: Stats): AnalysisResult {
    AnalysisResult(
      totalRequests := st.totalRequests,
      topIps := st.ips.MostCommon(10),
      topUserAgents := st.userAgents.MostCommon(5),
      avgResponseSize := AverageSize(st.totalResponseSize, st.totalRequests),
      error4xx := st.error4xx,
      error5xx := st.error5xx,
      statusCounter := st.statuses,
      methods := st.methods)
  }

  /** The invariants the counters keep together. */
  ghost predicate Consistent(st: Stats) {
    && st.methods.Valid() && st.ips.Valid() && st.statuses.Valid() && st.userAgents.Valid()
    && st.methods.Total() == st.totalRequests
    && st.ips.Total() == st.totalRequests
    && st.statuses.Total() == st.totalRequests
    && st.userAgents.Total() <= st.totalRequests
    && st.error4xx == st.statuses.CountWhere(IsClientError)
    && st.error5xx == st.statuses.CountWhere(IsServerError)
    && st.error4xx + st.error5xx <= st.totalRequests
  }

  lemma StepConsistent(st: Stats, kind: LineKind)
    requires Consistent(st)
    ensures Consistent(Step(st, kind))
  {
    match kind
    case Accepted(e, statusCode, responseSize) =>
      RecordKeepsMethods(st, e, statusCode, responseSize);
      RecordKeepsIps(st, e, statusCode, responseSize);
      RecordKeepsStatuses(st, e, statusCode, responseSize);
      RecordKeepsUserAgents(st, e, statusCode, responseSize);
      RecordKeepsErrors(st, e, statusCode, responseSize);
    case _ =>
  }

  // One lemma per counter: each keeps the counter valid and its total in step with the
  // request total (the agent counter may lag behind it).

  lemma RecordKeepsMethods(st: Stats, e: LogEntry, statusCode: nat, responseSize: nat)
    requires Consistent(st)
    ensures var r := Record(st, e, statusCode, responseSize);
      r.methods.Valid() && r.methods.Total() == r.totalRequests
  {
    AddTotal(st.methods, e.httpMethod);
  }

  lemma RecordKeepsIps(st: Stats, e: LogEntry, statusCode: nat, responseSize: nat)
    requires Consistent(st)
    ensures var r := Record(st, e, statusCode, responseSize);
      r.ips.Valid() && r.ips.Total() == r.totalRequests
  {
    AddTotal(st.ips, e.ip);
  }

  lemma RecordKeepsStatuses(st: Stats, e: LogEntry, statusCode: nat, responseSize: nat)
    requires Consistent(st)
    ensures var r := Record(st, e, statusCode, responseSize);
      r.statuses.Valid() && r.statuses.Total() == r.totalRequests
  {
    AddTotal(st.statuses, statusCode);
  }

  lemma RecordKeepsUserAgents(st: Stats, e: LogEntry, statusCode: nat, responseSize: nat)
    requires Consistent(st)
    ensures var r := Record(st, e, statusCode, responseSize);
      r.userAgents.Valid() && r.userAgents.Total() <= r.totalRequests
  {
    if e.userAgent != "" {
      AddTotal(st.userAgents, e.userAgent);
    }
  }

  /** The error counters stay the counts of the 4xx and 5xx statuses. */
  lemma RecordKeepsErrors(st: Stats, e: LogEntry, statusCode: nat, responseSize: nat)
    requires Consistent(st)
    ensures var r := Record(st, e, statusCode, responseSize);
      && r.error4xx == r.statuses.CountWhere(IsClientError)
      && r.error5xx == r.statuses.CountWhere(IsServerError)
      && r.error4xx + r.error5xx <= r.totalRequests
  {
    AddCountWhere(st.statuses, statusCode, IsClientError);
    AddCountWhere(st.statuses, statusCode, IsServerError);
  }

  /**
   * For any input, the total equals the sum of the method counts, of the ip counts and of the
   * status counts; the error counters are the counts of the 4xx and 5xx statuses; and
   * 4xx + 5xx never exceeds the total.
   */
  lemma {:induction false} RunConsistent(kinds: seq<LineKind>)
    ensures Consistent(Run(kinds))
  {
    if kinds != [] {
      RunConsistent(kinds[..|kinds| - 1]);
      StepConsistent(Run(kinds[..|kinds| - 1]), kinds[|kinds| - 1]);
    }
  }

  /** Deleting a line that is not counted (blank, unparseable or unconvertible) from anywhere in the input changes no counter. */
  lemma {:induction false} RunIgnoresSkippedLine(kinds: seq<LineKind>, i: nat)
    requires i < |kinds| && !kinds[i].Accepted?
    ensures Run(kinds[..i] + kinds[i + 1..]) == Run(kinds)
  {
    var n := |kinds|;
    var prefix, last := kinds[..n - 1], kinds[n - 1];
    assert kinds == prefix + [last];
    RunSnoc(prefix, last);
    if i == n - 1 {
      assert kinds[..i] + kinds[i + 1..] == prefix;
    } else {
      var shorter := prefix[..i] + prefix[i + 1..];
      RunIgnoresSkippedLine(prefix, i);
      DeleteBeforeLast(kinds, i);
      RunSnoc(shorter, last);
    }
  }

  /** Deleting position `i` before the last commutes with appending the last element. */
  lemma DeleteBeforeLast(kinds: seq<LineKind>, i: nat)
    requires i < |kinds| - 1
    ensures kinds[..i] + kinds[i + 1..]
         == (kinds[..|kinds| - 1][..i] + kinds[..|kinds| - 1][i + 1..]) + [kinds[|kinds| - 1]]
  {
  }

  /**
   * Exactly the lines that do not parse or whose numbers int() refuses draw a warning, each
   * carrying its 1-based line number, once, in input order.
   */
  lemma {:induction false} WarningsAreRejectedLines(kinds: seq<LineKind>)
    ensures forall i :: 0 <= i < |kinds| ==> (i + 1 in Warnings(kinds) <==> kinds[i].Warned())
    ensures forall k :: k in Warnings(kinds) ==> 1 <= k <= |kinds|
    ensures forall i, j :: 0 <= i < j < |Warnings(kinds)| ==> Warnings(kinds)[i] < Warnings(kinds)[j]
  {
    if kinds != [] {
      var n := |kinds|;
      var prefix := kinds[..n - 1];
      WarningsAreRejectedLines(prefix);
      var tail := if kinds[n - 1].Warned() then [n] else [];
      var w, wp := Warnings(kinds), Warnings(prefix);
      assert w == wp + tail;
      forall i, j | 0 <= i < j < |w|
        ensures w[i] < w[j]
      {
        if j >= |wp| {
          assert w[j] == n && w[i] == wp[i] && wp[i] in wp;
        }
      }
      forall i | 0 <= i < n - 1
        ensures i + 1 in Warnings(kinds) <==> kinds[i].Warned()
      {
        assert prefix[i] == kinds[i];
      }
    }
  }

  /** When no line is accepted every counter stays empty: total 0, average 0, empty top lists. */
  lemma {:induction false} NothingAccepted(kinds: seq<LineKind>)
    requires forall i :: 0 <= i < |kinds| ==> !kinds[i].Accepted?
    ensures Run(kinds) == NoStats()
    ensures var res := Summarize(Run(kinds));
      res.totalRequests == 0 && res.avgResponseSize == 0.0 && res.topIps == [] && res.topUserAgents == []
  {
    if kinds != [] {
      NothingAccepted(kinds[..|kinds| - 1]);
    }
  }

  /**
   * The loop of analyze_log_file over the lines of a log, followed by the result assembly.
   * Instead of printing a warning for an unparseable line it returns that line's number.
   */
  method AnalyzeLogFile(lines: seq<string>) returns (result: AnalysisResult, warnings: seq<nat>)
    ensures result == Summarize(Run(Kinds(lines)))
    ensures warnings == Warnings(Kinds(lines))
    ensures result.totalRequests == result.methods.Total() == result.statusCounter.Total()
    ensures result.error4xx + result.error5xx <= result.totalRequests
  {
    var stats := NoStats();
    warnings := [];
    for i := 0 to |lines|
      invariant stats == Run(Kinds(lines[..i]))
      invariant warnings == Warnings(Kinds(lines[..i]))
    {
      var lineNum := i + 1;
      var line := lines[i];
      SnocKind(lines, i);
      RunSnoc(Kinds(lines[..i]), Classify(line));
      WarningsSnoc(Kinds(lines[..i]), Classify(line));
      if Trim(line) == [] {
        assert Classify(line) == Blank;
        continue;
      }
      var logEntry := ParseLogLine(line);
      if logEntry.None? {
        assert Classify(line) == Malformed;
        warnings := warnings + [lineNum];
        continue;
      }
      var e := logEntry.value;
      if !WithinDigitLimit(e.responseSize) {
        assert Classify(line) == Unconvertible;
        warnings := warnings + [lineNum];
        continue;
      }
      var responseSize := DecimalValue(e.responseSize);
      if !WithinDigitLimit(e.statusCode) {
        assert Classify(line) == Unconvertible;
        warnings := warnings + [lineNum];
        continue;
      }
      var statusCode := DecimalValue(e.statusCode);
      assert Classify(line) == Accepted(e, statusCode, responseSize);
      stats := CountEntry(stats, e, statusCode, responseSize);
    }
    assert lines[..|lines|] == lines;
    var topIps := stats.ips.MostCommon(10);
    var topUserAgents := stats.userAgents.MostCommon(5);
    var avgResponseSize := AverageSize(stats.totalResponseSize, stats.totalRequests);
    result := AnalysisResult(stats.totalRequests, topIps, topUserAgents, avgResponseSize,
                             stats.error4xx, stats.error5xx, stats.statuses, stats.methods);
    RunConsistent(Kinds(lines));
  }

  /**
   * The counting statements for one accepted line, on the counters as local values: the agent
   * counter only for a non-empty agent, and the 5xx counter only when the 4xx test failed.
   */
  method CountEntry(st: Stats, e: LogEntry, statusCode: nat, responseSize: nat) returns (r: Stats)
    ensures r == Record(st, e, statusCode, responseSize)
  {
    var methodCounter, ipCounter, statusCounter, userAgentCounter := st.methods, st.ips, st.statuses, st.userAgents;
    var totalRequests, totalResponseSize := st.totalRequests, st.totalResponseSize;
    var error4xx, error5xx := st.error4xx, st.error5xx;
    totalRequests := totalRequests + 1;
    totalResponseSize := totalResponseSize + responseSize;
    if e.userAgent != "" {
      userAgentCounter := userAgentCounter.Add(e.userAgent);
    }
    statusCounter := statusCounter.Add(statusCode);
    ipCounter := ipCounter.Add(e.ip);
    methodCounter := methodCounter.Add(e.httpMethod);
    if 400 <= statusCode < 500 {
      error4xx := error4xx + 1;
    } else if 500 <= statusCode < 600 {
      error5xx := error5xx + 1;
    }
    r := Stats(methodCounter, ipCounter, statusCounter, userAgentCounter,
               totalRequests, totalResponseSize, error4xx, error5xx);
  }

  /** Consuming line `i` extends the outcomes by that line's outcome. */
  lemma SnocKind(lines: seq<string>, i: nat)
    requires i < |lines|
    ensures Kinds(lines[..i + 1]) == Kinds(lines[..i]) + [Classify(lines[i])]
  {
    assert lines[..i + 1][..i] == lines[..i];
  }

  /** One more outcome is one more step. */
  lemma RunSnoc(kinds: seq<LineKind>, kind: LineKind)
    ensures Run(kinds + [kind]) == Step(Run(kinds), kind)
  {
    assert (kinds + [kind])[..|kinds|] == kinds;
  }

  /** One more outcome adds its line number to the warnings when it is malformed. */
  lemma WarningsSnoc(kinds: seq<LineKind>, kind: LineKind)
    ensures Warnings(kinds + [kind]) == Warnings(kinds) + (if kind.Warned() then [|kinds| + 1] else [])
  {
    assert (kinds + [kind])[..|kinds|] == kinds;
  }
}
