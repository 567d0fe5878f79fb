# Access-log analyzer, modelled in Dafny

The analyzer reads a web-server access log line by line. Each line is in the Common Log Format with the
ident and user fields fixed as `-`, followed by a quoted user agent:

    192.168.1.1 - - [01/Jan/2024:00:00:01 +0000] "GET /index.html HTTP/1.1" 200 1234 "Mozilla/5.0"

It skips blank lines. It warns about lines that do not match, and about lines whose numbers `int()` refuses.
For every accepted line it counts:
- the method, the client address and the status code;
- the user agent, when the agent is not empty;
- the number of requests and the sum of the response sizes;
- 4xx and 5xx errors.

At the end it reports:
- the ten most frequent addresses and the five most frequent agents;
- the average response size;
- the status counter and the method counter in full; the address and agent counters appear only
  through their top lists.

The model has four modules:

- `LogLine` (log_line.dfy) is `parse_log_line`. It has:
  - `Trim`, Python's `str.strip()` over Python's whitespace set.
  - `Captures`, which splits a trimmed line into the eight groups of the pattern
    `^(\S+) - - \[(.*?)\] "(\S+) (\S+) (\S+)" (\d+) (\d+) "([^"]*)"$`. It peels the fixed delimiters off
    from the right.
  - `ParseLogLine`, which maps an agent of `-` to the empty string.

  A match is described independently by `Matches(s, g)`: the groups `g` meet the classes of the pattern
  and, rendered with the delimiters, spell `s`. `Captures` is proved sound in its contract and complete in
  `CapturesComplete`. Soundness plus completeness make the decomposition unique (`MatchUnique`), so the
  lazy `(.*?)` cannot choose another split. The timestamp may itself contain `]`.
- `Tallies` (tallies.dfy) covers two things:
  - A `defaultdict(int)` as a value `Tally`: keys in first-insertion order plus their counts. `Add` is
    `d[k] += 1`.
  - `Counter(d).most_common(n)` as `MostCommon`: a stable ranking by count, with ties in insertion order.
- `Analyzer` (analyzer.dfy) is `analyze_log_file`:
  - `Classify` is the loop body's decision about one line. The line can be blank or malformed. It can be
    unconvertible: it parses, but a number has more digits than `int()` accepts (CPython's default limit
    of 4300), so the `except` clause warns about it. Otherwise it is accepted, with its status
    and size as numbers.
  - `Run` folds `Step` over the outcomes. It is the specification of the loop.
  - `Warnings` lists the 1-based numbers of the malformed and unconvertible lines.
  - `Summarize` is the result assembly.
  - The method `AnalyzeLogFile` is the loop itself, over a sequence of lines. It is proved equal to
    `Summarize(Run(...))` and `Warnings(...)`. `CountEntry` holds the counting statements of one accepted
    line. The lemmas state the counters' invariants for every input.
- `Scenarios` (scenarios.dfy) restates the expectations of test1.py as lemmas about the model.

## Model

| member | source | states |
|---|---|---|
| LogLine.IsSpace | analizator.py:12-15 | definition of Python's whitespace set, used by `\s`/`\S` in the pattern and by `strip()`; its properties are in `Trim`, `CapturesRequest`, `CapturesHost` and `ParseSucceedsIff` |
| LogLine.Trim | analizator.py:15 | the result is a contiguous part of the line, with only whitespace cut from either end; it neither starts nor ends with whitespace; it is empty exactly when the whole line is whitespace |
| LogLine.TrimTrimmed | analizator.py:15 | stripping a text that has no whitespace at either end leaves it unchanged |
| LogLine.CapturesTrailer | analizator.py:12 | any split it returns spells the text as head, closing quote, status, size and quoted agent; status and size are digit runs; the agent has no `"` |
| LogLine.CapturesRequest | analizator.py:12 | any split it returns spells the text as head, space, quote, method, url and protocol, the last three non-empty and without whitespace |
| LogLine.CapturesHost | analizator.py:12 | any split it returns spells the text as `ip - - [datetime]`; the ip is non-empty without whitespace; the datetime has no newline |
| LogLine.WellFormed | analizator.py:12 | definition of the character classes of the eight groups; part of `Matches` |
| LogLine.Render | analizator.py:12 | definition of the text the pattern matches with given groups, the fixed delimiters included; part of `Matches` |
| LogLine.Matches | analizator.py:12 | definition of the match relation of the pattern, the independent reference for `Captures`; its properties are in `CapturesComplete`, `MatchUnique` and `ParseSucceedsIff` |
| LogLine.Captures | analizator.py:12-17 | whatever groups it returns match the whole text (soundness) |
| LogLine.CapturesTrailerComplete | analizator.py:12 | every well-formed trailer is split back into exactly its own parts |
| LogLine.CapturesRequestComplete | analizator.py:12 | every well-formed request part is split back into exactly its own parts |
| LogLine.CapturesHostComplete | analizator.py:12 | every well-formed opening part is split back into exactly its ip and datetime, even when the datetime holds `]` |
| LogLine.CapturesComplete | analizator.py:12-15 | for any well-formed groups, the rendered line is matched with exactly those groups (completeness) |
| LogLine.MatchUnique | analizator.py:12 | a line matches the pattern with at most one assignment of groups |
| LogLine.ParseLogLine | analizator.py:8-29 | a parsed line has status and size made of ASCII digits only, so the only way int() can fail on them is the digit limit; the agent is never `-`; an all-whitespace line is rejected |
| LogLine.ParseSucceedsIff | analizator.py:12-17 | the parser accepts a line if and only if its stripped text matches the pattern with some groups |
| LogLine.ParseFields | analizator.py:20-28 | on a match, ip, datetime, method, url, protocol, status and size are the captured texts verbatim; the agent is the captured text, or empty when that text is `-` |
| LogLine.DecimalValue | analizator.py:60-61 | definition of `int()` on an ASCII digit run; its properties are in `DecimalValueOfText`, `DecimalTextOfValue` and `DecimalValueLeadingZero` |
| LogLine.WithinDigitLimit | analizator.py:60-61 | definition of the 4300-digit limit (`IntMaxStrDigits`) under which `int()` converts; its effect is in `Analyzer.ClassifyCases` |
| LogLine.DecimalText | analizator.py:60-61 | Python's `str()` of a non-negative int, the reference `int()` is checked against: a digit run with no leading zero (except "0" itself) |
| LogLine.DecimalValueOfText | analizator.py:60-61 | `int(str(n)) == n` for every natural number n |
| LogLine.DecimalTextOfValue | analizator.py:60-61 | `str(int(s)) == s` for every digit run without leading zeros, so `int()` tells different such runs apart |
| LogLine.DecimalValuePositive | analizator.py:60-61 | a digit run not starting with 0 converts to a positive number |
| LogLine.DecimalValueLeadingZero | analizator.py:60-61 | a leading zero does not change the converted number |
| Tallies.Tally.Add | analizator.py:69-73 | `d[k] += 1` adds one to `k`'s count and leaves every other count alone; a new key is appended to the insertion order; validity is kept |
| Tallies.AddCountWhere | analizator.py:71-82 | counting one more key adds one to every filtered sum of counts that selects that key, and nothing to the others |
| Tallies.AddTotal | analizator.py:69-73 | counting one more key adds exactly one to the sum of all counts |
| Tallies.Tally.Insert | analizator.py:97-100 | inserting a position into a ranked list keeps it ranked and adds exactly that position |
| Tallies.Tally.Ranked | analizator.py:97-100 | all key positions appear once, ordered by count descending and then by first insertion |
| Tallies.Tally.MostCommon | analizator.py:97-100 | the list has min(n, number of distinct keys) entries |
| Tallies.MostCommonEntries | analizator.py:97-100 | every listed pair is a counted key with its actual count, and no key is listed twice |
| Tallies.MostCommonOrder | analizator.py:97-100 | counts never increase along the list, and equal counts appear in first-insertion order |
| Tallies.MostCommonSelectsTop | analizator.py:97-100 | when a key is left out, the list is full and every listed key ranks above it |
| Tallies.MostCommonOmits | analizator.py:97-100 | the case of one left-out key: the list has n entries, each with a count at least the left-out key's, and earlier first insertion on a tie |
| Analyzer.IsClientError | analizator.py:77 | definition of the 4xx range test; its properties are in `RecordCounts` and `RecordKeepsErrors` |
| Analyzer.IsServerError | analizator.py:80 | definition of the 5xx range test; its properties are in `RecordCounts` and `RecordKeepsErrors` |
| Analyzer.NoStats | analizator.py:35-44 | definition of the empty counters and zeroed accumulators the loop starts from; its properties are in `NothingAccepted` and `RunConsistent` |
| Analyzer.Kinds | analizator.py:49-53 | the outcome of every line in enumerate order, one per line; its properties are in `KindsAt`, `WarningsAreRejectedLines` and `AnalyzeLogFile` |
| Analyzer.KindsAt | analizator.py:49-53 | the outcome at position i is the classification of line i, so line numbers and outcomes stay aligned |
| Analyzer.Classify | analizator.py:49-86 | definition of the loop body's decision about one line; its properties are in `ClassifyCases` |
| Analyzer.ClassifyCases | analizator.py:49-86 | a line is skipped silently if and only if it is all whitespace; it is warned about as malformed if and only if it is non-blank and no groups match its stripped text; it is unconvertible (int() raises, so the except clause warns and skips it) if and only if it parses but its size or status has more than 4300 digits; it is counted if and only if it parses with both numbers within that limit, and then with its parsed fields and the int() values of status and size |
| Analyzer.Step | analizator.py:49-86 | a line that is not counted (blank, unparseable or unconvertible) leaves every counter unchanged |
| Analyzer.Record | analizator.py:63-82 | definition of the counter updates for one accepted line; its properties are in `RecordCounts` and the `RecordKeeps*` lemmas |
| Analyzer.RecordCounts | analizator.py:63-82 | an accepted line adds one to the total and to its method, ip and status; adds one to its agent only when that agent is non-empty; adds its size to the size sum; adds one to `error_4xx` for 400-499 and to `error_5xx` for 500-599; no other count changes |
| Analyzer.CountEntry | analizator.py:63-82 | the counting statements of one accepted line, in the source's order, produce exactly the update `Record` describes |
| Analyzer.Run | analizator.py:49-86 | definition of the loop's state after a sequence of lines; its properties are in `RunConsistent`, `RunCountsAccepted`, `RunIgnoresSkippedLine` and `NothingAccepted` |
| Analyzer.Warnings | analizator.py:53-86 | definition of the warned line numbers; its properties are in `WarningsAreRejectedLines` |
| Analyzer.RunCountsAccepted | analizator.py:63-65 | for any input, total_requests is the number of accepted lines and total_response_size the sum of their sizes |
| Analyzer.RecordKeepsMethods | analizator.py:73 | after an accepted line, the method counts still add up to the total |
| Analyzer.RecordKeepsIps | analizator.py:72 | after an accepted line, the ip counts still add up to the total |
| Analyzer.RecordKeepsStatuses | analizator.py:71 | after an accepted line, the status counts still add up to the total |
| Analyzer.RecordKeepsUserAgents | analizator.py:67-69 | after an accepted line, the agent counts add up to at most the total |
| Analyzer.RecordKeepsErrors | analizator.py:77-82 | after an accepted line, error_4xx and error_5xx are still the counts of the 4xx and 5xx statuses, and together they do not exceed the total |
| Analyzer.StepConsistent | analizator.py:50-82 | every iteration preserves the joint invariant of the counters |
| Analyzer.RunConsistent | analizator.py:35-86 | for any input: total == sum of method counts == sum of ip counts == sum of status counts; agent counts sum to at most the total; the error counters count the 4xx and 5xx statuses; 4xx + 5xx <= total |
| Analyzer.RunIgnoresSkippedLine | analizator.py:49-86 | deleting a line that is not counted (blank, unparseable or unconvertible) from anywhere in the input changes no counter |
| Analyzer.WarningsAreRejectedLines | analizator.py:49-86 | line i draws a warning if and only if it is non-blank and unparseable, or parses but holds a number int() refuses; the warnings are 1-based line numbers, strictly increasing, so each line is reported once |
| Analyzer.Summarize | analizator.py:97-115 | definition of the result assembly; its properties are in `AverageSize`, `MostCommon` and the `MostCommon*` lemmas, `NothingAccepted` and `AnalyzeLogFile` |
| Analyzer.AverageSize | analizator.py:103 | the average is 0 with no requests; otherwise, times the request count, it gives the size sum |
| Analyzer.NothingAccepted | analizator.py:97-115 | when no line is accepted, every counter is empty, and the result has total 0, average 0 and empty top lists |
| Analyzer.AnalyzeLogFile | analizator.py:35-115 | the loop and the result assembly compute `Summarize(Run(...))` and the warning list of the input; the total equals the sum of method counts and of status counts; 4xx + 5xx <= total |
| Scenarios.ParseSampleLine | test1.py:14-25 | the sample line parses into its eight fields verbatim |
| Scenarios.ParseForeignLine | test1.py:27-31 | free text is rejected |
| Scenarios.ParseDashAgent | test1.py:33-39 | an agent `-` is reported as the empty string |
| Scenarios.ParseSecondSample | test1.py:107 | the POST line of the mixed log parses into its fields |
| Scenarios.ParseUpperCaseLine | test1.py:106 | the invalid line of the mixed log is neither blank nor parseable |
| Scenarios.ParseBracketInDatetime | analizator.py:12 | a timestamp containing `] [` is still captured whole |
| Scenarios.MixedLog | test1.py:102-116 | a good line, a bad line and a good line give two requests and a warning for line 2 |
| Scenarios.MixedCounts | test1.py:102-116 | accepted, malformed, accepted outcomes give total 2 and warnings [2] |
| Scenarios.OverlongSizeLine | analizator.py:57-86 | a log of one line that parses but whose size exceeds the digit limit counts nothing and warns about line 1 |
| Scenarios.OverlongSizeExists | analizator.py:12-29 | such lines exist: the sample request with a 4301-digit size parses, and its size is over the limit |
| Scenarios.EmptyLog | test1.py:86-97 | an empty log gives total 0, average 0, empty top lists and no warnings |

## Left out

- Reading the file is not modelled: opening it, UTF-8 decoding, `FileNotFoundError` and the generic exception handler with `sys.exit(1)` (analizator.py:47-48, 88-93). The model takes the lines as a sequence of strings. A line may keep its newline, which `strip()` removes.
- The debug prints for accepted lines (analizator.py:76, 78, 81) are left out. They sit inside the try block, so a print that raises `UnicodeEncodeError` (a `ValueError`) on a console that cannot encode its text sends an already counted line to the except clause as well; that is not modelled. The warning print for an unparseable line (analizator.py:55) becomes that line's number in the returned `warnings`.
- The `except (ValueError, KeyError)` branch (analizator.py:84-86) is modelled for the one way the modelled inputs reach it: `int()` refusing a digit run longer than CPython's default `int_max_str_digits` of 4300. `ParseLogLine` guarantees that both texts are ASCII digit runs and every key is present, so `int()` and the dict lookups raise no other `ValueError` or `KeyError`.
- Analyzer.ClassifyCases: the digit limit is fixed at CPython's default of 4300. A limit changed through `sys.set_int_max_str_digits`, `PYTHONINTMAXSTRDIGITS` or `-X int_max_str_digits`, and Python versions without the limit (which convert any length), are not modelled. The warning of the except clause and that of an unparseable line are both modelled as the line's number only, not their different texts.
- LogLine.ParseLogLine: `\d` is modelled as ASCII digits only. Python's `\d` on `str` also matches other Unicode decimal digits, which `int()` accepts too.
- LogLine.ParseFields: an agent captured as the empty text also comes out empty. So the returned agent is empty exactly when the captured text is `-` or empty.
- `print_result` (analizator.py:118-170), main.py and the test runner's own code are not part of this model. They hold formatting and process glue.
- Analyzer.AverageSize: the average is an exact `real`, not a Python float. Float rounding is not modelled, and neither is float overflow: when the quotient at analizator.py:103 is beyond the largest float (about 1.8e308), CPython's `int / int` raises `OverflowError` ("integer division result too large for a float"), where the model returns the exact quotient.
- Analyzer.AnalyzeLogFile: it always returns a result. The source raises an uncaught `OverflowError` at analizator.py:103, outside the try block of lines 47-93, whenever that average overflows a float. One accepted line whose size is above the largest float (about 1.8e308), for example 309 nines (well within the 4300-digit limit), is enough, and then `analyze_log_file` returns nothing.
- The dictionaries are reassigned value `Tally`s, not mutated in place. They are locals of `analyze_log_file` and are never shared, so nothing is lost through aliasing. `dict(status_counter)` and `dict(method_counter)` are returned as `Tally`s, whose insertion order is the iteration order of the returned dict.
- The eight-line log of test1.py:41-84 has no concrete scenario. Its expected counts (8 requests, 2 4xx errors, 1 5xx error, 3 requests from one address) follow from `RunCountsAccepted`, `RunConsistent` and `RecordCounts`, but are not proved for those concrete lines.
