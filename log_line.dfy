/**
 * One access-log line and its parser, `parse_log_line` in analizator.py.
 *
 * The parser trims the line and matches it against
 *   ^(\S+) - - \[(.*?)\] "(\S+) (\S+) (\S+)" (\d+) (\d+) "([^"]*)"$
 * A match is modelled as a `LogEntry` of the eight groups whose `Render`ing is
 * the trimmed line (`Matches`). `Captures` recovers the groups by peeling the
 * fixed delimiters off from the right; it is sound (its ensures) and complete
 * (`CapturesComplete`), so a line has at most one decomposition and the lazy
 * `(.*?)` of the pattern cannot choose any other.
 */
module LogLine {
  import opened Wrappers

  /** Python's str.isspace(): what `\s` matches and what str.strip() removes. */
  predicate IsSpace(c: char) {
    || c == ' '
    || '\t' <= c <= '\r'
    || '\U{1C}' <= c <= '\U{1F}'
    || c == '\U{85}'
    || c == '\U{A0}'
    || c == '\U{1680}'
    || '\U{2000}' <= c <= '\U{200A}'
    || c == '\U{2028}'
    || c == '\U{2029}'
    || c == '\U{202F}'
    || c == '\U{205F}'
    || c == '\U{3000}'
  }

  /** The character classes the pattern uses: `\s`, `\S`, `\d`, `[^"]` and `.` (no newline). */
  datatype CharClass = Space | NonSpace | Digit | NonQuote | NonNewline

  predicate In(c: char, k: CharClass) {
    match k
    case Space => IsSpace(c)
    case NonSpace => !IsSpace(c)
    case Digit => '0' <= c <= '9'
    case NonQuote => c != '"'
    case NonNewline => c != '\n'
  }

  predicate AllIn(s: string, k: CharClass) {
    forall i :: 0 <= i < |s| ==> In(s[i], k)
  }

  /** The end of the longest prefix of `s` made of class-`k` characters. */
  function RunEnd(s: string, k: CharClass): (e: nat)
    ensures e <= |s|
    ensures forall i :: 0 <= i < e ==> In(s[i], k)
    ensures e == |s| || !In(s[e], k)
  {
    if s == [] || !In(s[0], k) then 0 else 1 + RunEnd(s[1..], k)
  }

  /** The start of the longest suffix of `s` made of class-`k` characters. */
  function RunStart(s: string, k: CharClass): (b: nat)
    ensures b <= |s|
    ensures forall i :: b <= i < |s| ==> In(s[i], k)
    ensures b == 0 || !In(s[b - 1], k)
  {
    if s == [] || !In(s[|s| - 1], k) then |s| else RunStart(s[..|s| - 1], k)
  }

  lemma RunEndIs(s: string, k: CharClass, e: nat)
    requires e <= |s|
    requires forall i :: 0 <= i < e ==> In(s[i], k)
    requires e == |s| || !In(s[e], k)
    ensures RunEnd(s, k) == e
  {
  }

  lemma RunStartIs(s: string, k: CharClass, b: nat)
    requires b <= |s|
    requires forall i :: b <= i < |s| ==> In(s[i], k)
    requires b == 0 || !In(s[b - 1], k)
    ensures RunStart(s, k) == b
  {
  }

  /** str.strip() without arguments: the line without its leading and trailing whitespace. */
  function Trim(s: string): (t: string)
    ensures |t| <= |s|
    ensures t == [] || (!IsSpace(t[0]) && !IsSpace(t[|t| - 1]))
    ensures exists i :: 0 <= i <= |s| - |t| && s[i..i + |t|] == t
                        && AllIn(s[..i], Space) && AllIn(s[i + |t|..], Space)
    ensures t == [] <==> AllIn(s, Space)
  {
    var a := RunEnd(s, Space);
    var rest := s[a..];
    var b := RunStart(rest, Space);
    assert s[a..a + b] == rest[..b];
    assert AllIn(s[..a], Space) && AllIn(s[a + b..], Space);
    rest[..b]
  }

  /** A string that neither starts nor ends with whitespace is its own strip(). */
  lemma TrimTrimmed(s: string)
    requires s == [] || (!IsSpace(s[0]) && !IsSpace(s[|s| - 1]))
    ensures Trim(s) == s
  {
    RunEndIs(s, Space, 0);
    RunStartIs(s, Space, |s|);
  }

  /** Splits `s` as `rest + [delim] + token`, `token` the longest class-`k` suffix of `s`. */
  function SplitLast(s: string, k: CharClass, delim: char): (r: Option<(string, string)>)
    ensures r.Some? ==> s == r.value.0 + [delim] + r.value.1 && AllIn(r.value.1, k)
  {
    var b := RunStart(s, k);
    if 0 < b && s[b - 1] == delim then Some((s[..b - 1], s[b..])) else None
  }

  lemma SplitLastOf(x: string, delim: char, y: string, k: CharClass)
    requires AllIn(y, k) && !In(delim, k)
    ensures SplitLast(x + [delim] + y, k, delim) == Some((x, y))
  {
    var s := x + [delim] + y;
    RunStartIs(s, k, |x| + 1);
    assert s[..|x|] == x && s[|x| + 1..] == y;
  }

  /** Splits `s` as `token + delim + rest`, `token` the longest class-`k` prefix of `s`. */
  function SplitFirst(s: string, k: CharClass, delim: string): (r: Option<(string, string)>)
    ensures r.Some? ==> s == r.value.0 + delim + r.value.1 && AllIn(r.value.0, k)
  {
    var e := RunEnd(s, k);
    if e + |delim| <= |s| && s[e..e + |delim|] == delim then Some((s[..e], s[e + |delim|..])) else None
  }

  lemma SplitFirstOf(x: string, delim: string, y: string, k: CharClass)
    requires AllIn(x, k) && delim != [] && !In(delim[0], k)
    ensures SplitFirst(x + delim + y, k, delim) == Some((x, y))
  {
    var s := x + delim + y;
    RunEndIs(s, k, |x|);
    assert s[..|x|] == x && s[|x|..|x| + |delim|] == delim && s[|x| + |delim|..] == y;
  }

  /** `s` without its last character, provided that character is `c`. */
  function DropLast(s: string, c: char): (r: Option<string>)
    ensures r.Some? ==> s == r.value + [c]
  {
    if s != [] && s[|s| - 1] == c then Some(s[..|s| - 1]) else None
  }

  lemma DropLastOf(x: string, c: char)
    ensures DropLast(x + [c], c) == Some(x)
  {
    assert (x + [c])[..|x|] == x;
  }

  /** The eight fields of a parsed line, all kept as text as parse_log_line returns them. */
  datatype LogEntry = LogEntry(
    ip: string,
    datetime: string,
    httpMethod: string,
    url: string,
    protocol: string,
    statusCode: string,
    responseSize: string,
    userAgent: string)

  /** A non-empty run of ASCII digits: what `(\d+)` captures. */
  predicate IsDecimal(s: string) {
    s != [] && AllIn(s, Digit)
  }

  /** The groups satisfy the classes of their capturing groups in the pattern. */
  predicate WellFormed(g: LogEntry) {
    && g.ip != [] && AllIn(g.ip, NonSpace)
    && AllIn(g.datetime, NonNewline)
    && g.httpMethod != [] && AllIn(g.httpMethod, NonSpace)
    && g.url != [] && AllIn(g.url, NonSpace)
    && g.protocol != [] && AllIn(g.protocol, NonSpace)
    && IsDecimal(g.statusCode)
    && IsDecimal(g.responseSize)
    && AllIn(g.userAgent, NonQuote)
  }

  /** The text the pattern matches with groups `g`. */
  function Render(g: LogEntry): string {
    g.ip + " - - [" + g.datetime + "]" + " " + ("\"" + g.httpMethod) + " " + g.url + " " + g.protocol
    + "\"" + " " + g.statusCode + " " + g.responseSize + " " + "\"" + g.userAgent + "\""
  }

  /** The pattern matches the whole of `s` with groups `g`. */
  predicate Matches(s: string, g: LogEntry) {
    WellFormed(g) && Render(g) == s
  }

  /**
   * The part of the pattern after the request line, peeled from the end of `s`: the closing
   * quote of the request, status, size and quoted agent. Yields the text before it and the
   * three groups.
   */
  function CapturesTrailer(s: string): (r: Option<(string, string, string, string)>)
    ensures r.Some? ==>
      var (head, status, size, agent) := r.value;
      && s == head + "\"" + " " + status + " " + size + " " + "\"" + agent + "\""
      && IsDecimal(status) && IsDecimal(size) && AllIn(agent, NonQuote)
  {
    var x1 :- DropLast(s, '"');
    var agent :- SplitLast(x1, NonQuote, '"');
    var x2 :- DropLast(agent.0, ' ');
    var size :- SplitLast(x2, Digit, ' ');
    var status :- SplitLast(size.0, Digit, ' ');
    var head :- DropLast(status.0, '"');
    if status.1 != [] && size.1 != [] then Some((head, status.1, size.1, agent.1)) else None
  }

  /**
   * The request line inside the quotes, peeled from the end of `s`: method, url and protocol.
   * Yields the text before the space that precedes the opening quote, and the three groups.
   */
  function CapturesRequest(s: string): (r: Option<(string, string, string, string)>)
    ensures r.Some? ==>
      var (head, httpMethod, url, protocol) := r.value;
      && s == head + " " + ("\"" + httpMethod) + " " + url + " " + protocol
      && httpMethod != [] && AllIn(httpMethod, NonSpace)
      && url != [] && AllIn(url, NonSpace) && protocol != [] && AllIn(protocol, NonSpace)
  {
    var protocol :- SplitLast(s, NonSpace, ' ');
    var url :- SplitLast(protocol.0, NonSpace, ' ');
    var verb :- SplitLast(url.0, NonSpace, ' ');
    if 2 <= |verb.1| && verb.1[0] == '"' && url.1 != [] && protocol.1 != [] then
      assert verb.1 == "\"" + verb.1[1..];
      Some((verb.0, verb.1[1..], url.1, protocol.1))
    else
      None
  }

  /** The ip and the bracketed timestamp that open the line. */
  function CapturesHost(s: string): (r: Option<(string, string)>)
    ensures r.Some? ==>
      var (ip, datetime) := r.value;
      && s == ip + " - - [" + datetime + "]"
      && ip != [] && AllIn(ip, NonSpace) && AllIn(datetime, NonNewline)
  {
    var x :- DropLast(s, ']');
    var ip :- SplitFirst(x, NonSpace, " - - [");
    if ip.0 != [] && AllIn(ip.1, NonNewline) then Some(ip) else None
  }

  /** The groups of the match of the pattern against `s`, or None when it does not match. */
  function Captures(s: string): (r: Option<LogEntry>)
    ensures r.Some? ==> Matches(s, r.value)
  {
    var (head, status, size, agent) :- CapturesTrailer(s);
    var (host, httpMethod, url, protocol) :- CapturesRequest(head);
    var (ip, datetime) :- CapturesHost(host);
    Some(LogEntry(ip, datetime, httpMethod, url, protocol, status, size, agent))
  }

  /** `CapturesTrailer` finds every decomposition of the trailer. */
  lemma CapturesTrailerComplete(head: string, status: string, size: string, agent: string)
    requires IsDecimal(status) && IsDecimal(size) && AllIn(agent, NonQuote)
    ensures CapturesTrailer(head + "\"" + " " + status + " " + size + " " + "\"" + agent + "\"")
            == Some((head, status, size, agent))
  {
    var s3 := head + "\"";
    var z2 := s3 + " " + status;
    var x2 := z2 + " " + size;
    var a1 := x2 + " ";
    var x1 := a1 + "\"" + agent;
    DropLastOf(x1, '"');
    SplitLastOf(a1, '"', agent, NonQuote);
    DropLastOf(x2, ' ');
    SplitLastOf(z2, ' ', size, Digit);
    SplitLastOf(s3, ' ', status, Digit);
    DropLastOf(head, '"');
  }

  /** `CapturesRequest` finds every decomposition of the request line. */
  lemma CapturesRequestComplete(head: string, httpMethod: string, url: string, protocol: string)
    requires httpMethod != [] && AllIn(httpMethod, NonSpace)
    requires url != [] && AllIn(url, NonSpace) && protocol != [] && AllIn(protocol, NonSpace)
    ensures CapturesRequest(head + " " + ("\"" + httpMethod) + " " + url + " " + protocol)
            == Some((head, httpMethod, url, protocol))
  {
    var quotedMethod := "\"" + httpMethod;
    var u5 := head + " " + quotedMethod;
    var p4 := u5 + " " + url;
    assert AllIn(quotedMethod, NonSpace);
    assert quotedMethod[1..] == httpMethod;
    SplitLastOf(p4, ' ', protocol, NonSpace);
    SplitLastOf(u5, ' ', url, NonSpace);
    SplitLastOf(head, ' ', quotedMethod, NonSpace);
  }

  /** `CapturesHost` finds every decomposition of the opening part. */
  lemma CapturesHostComplete(ip: string, datetime: string)
    requires ip != [] && AllIn(ip, NonSpace) && AllIn(datetime, NonNewline)
    ensures CapturesHost(ip + " - - [" + datetime + "]") == Some((ip, datetime))
  {
    DropLastOf(ip + " - - [" + datetime, ']');
    SplitFirstOf(ip, " - - [", datetime, NonSpace);
  }

  /** Every decomposition of a line is the one `Captures` finds. */
  lemma CapturesComplete(g: LogEntry)
    requires WellFormed(g)
    ensures Captures(Render(g)) == Some(g)
  {
    var host := g.ip + " - - [" + g.datetime + "]";
    var head := host + " " + ("\"" + g.httpMethod) + " " + g.url + " " + g.protocol;
    CapturesTrailerComplete(head, g.statusCode, g.responseSize, g.userAgent);
    CapturesRequestComplete(host, g.httpMethod, g.url, g.protocol);
    CapturesHostComplete(g.ip, g.datetime);
  }

  /** A line has at most one decomposition into the pattern's groups. */
  lemma MatchUnique(s: string, g1: LogEntry, g2: LogEntry)
    requires Matches(s, g1) && Matches(s, g2)
    ensures g1 == g2
  {
    CapturesComplete(g1);
    CapturesComplete(g2);
  }

  /** parse_log_line: the groups of the trimmed line, with an agent of "-" reported as "". */
  function ParseLogLine(line: string): (r: Option<LogEntry>)
    ensures r.Some? ==> IsDecimal(r.value.statusCode) && IsDecimal(r.value.responseSize)
    ensures r.Some? ==> r.value.userAgent != "-"
    ensures AllIn(line, Space) ==> r == None
  {
    match Captures(Trim(line))
    case None => None
    case Some(g) => Some(g.(userAgent := if g.userAgent == "-" then "" else g.userAgent))
  }

  /** The parser accepts a line exactly when its trimmed text matches the pattern. */
  lemma ParseSucceedsIff(line: string)
    ensures ParseLogLine(line).Some? <==> exists g :: Matches(Trim(line), g)
  {
    if exists g :: Matches(Trim(line), g) {
      var g :| Matches(Trim(line), g);
      CapturesComplete(g);
    }
  }

  /** On a match every field is the captured text verbatim, except that an agent "-" becomes "". */
  lemma ParseFields(line: string, g: LogEntry)
    requires Matches(Trim(line), g)
    ensures ParseLogLine(line) == Some(g.(userAgent := if g.userAgent == "-" then "" else g.userAgent))
  {
    CapturesComplete(g);
  }

  /** Python's int() applied to a run of ASCII digits. */
  function DecimalValue(s: string): nat
    requires AllIn(s, Digit)
  {
    if s == [] then 0 else 10 * DecimalValue(s[..|s| - 1]) + (s[|s| - 1] as int - '0' as int)
  }

  /**
   * CPython's default int_max_str_digits: int() of a decimal string with more digits than this
   * raises ValueError instead of converting it.
   */
  const IntMaxStrDigits: nat := 4300

  /** Whether int() converts the digit run `s` under that limit. */
  predicate WithinDigitLimit(s: string) {
    |s| <= IntMaxStrDigits
  }

  /** Leading zeros do not change the value, so "0404" and "404" are counted as the same status. */
  lemma {:induction false} DecimalValueLeadingZero(s: string)
    requires AllIn(s, Digit)
    ensures DecimalValue("0" + s) == DecimalValue(s)
  {
    if s != [] {
      var n := |s|;
      assert ("0" + s)[..n] == "0" + s[..n - 1];
      DecimalValueLeadingZero(s[..n - 1]);
    }
  }

  /** Python's str() of a non-negative int: its decimal digits, without leading zeros. */
  function DecimalText(n: nat): (s: string)
    ensures IsDecimal(s)
    ensures s[0] != '0' || s == "0"
  {
    var last := ('0' as int + n % 10) as char;
    if n < 10 then [last] else DecimalText(n / 10) + [last]
  }

  /** int(str(n)) == n: reading back the decimal text of a number gives the number. */
  lemma {:induction false} DecimalValueOfText(n: nat)
    ensures DecimalValue(DecimalText(n)) == n
  {
    if n >= 10 {
      var s := DecimalText(n);
      assert s[..|s| - 1] == DecimalText(n / 10);
      DecimalValueOfText(n / 10);
    }
  }

  /** A digit run that does not start with 0 has a positive value. */
  lemma {:induction false} DecimalValuePositive(s: string)
    requires IsDecimal(s) && s[0] != '0'
    ensures DecimalValue(s) > 0
  {
    if |s| > 1 {
      DecimalValuePositive(s[..|s| - 1]);
    }
  }

  /** str(int(s)) == s for a digit run without leading zeros: int() loses nothing but those. */
  lemma {:induction false} DecimalTextOfValue(s: string)
    requires IsDecimal(s) && (s[0] != '0' || s == "0")
    ensures DecimalText(DecimalValue(s)) == s
  {
    var n := |s|;
    if n > 1 {
      var init := s[..n - 1];
      DecimalValuePositive(init);
      DecimalTextOfValue(init);
      var v := DecimalValue(s);
      assert v / 10 == DecimalValue(init) && v % 10 == s[n - 1] as int - '0' as int;
      assert s == init + [s[n - 1]];
    }
  }
}
