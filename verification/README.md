# Django log analyzer: the handlers report

This project models the core of a small Django log analyzer, `main.py`. The analyzer
reads Django log files and counts the requests of each endpoint at each log level. It
then prints the counts as an aligned text table. The model has three stages.

- **Line matcher** (`LogLine`, pure). `parse_log_line` runs one fixed regular expression
  with the leftmost-first semantics of `re.search`. The pattern is:
  - a level token from `LOG_LEVELS`;
  - a lazy gap with no newline;
  - `django.request:`;
  - one whitespace character;
  - an HTTP method or `Internal Server Error:`;
  - one whitespace character;
  - a path made of `/` followed by a maximal run of non-whitespace.

  The matcher is written out by hand over `string`. Lemmas show three things:
  - it returns exactly the leftmost match, with the shortest gap at that start;
  - a line laid out the way Django writes a request parses to its level and path;
  - a line in which `django.request:` occurs nowhere gives no result.
- **Aggregator** (`Statistics`, imperative). `collect_statistics` is a method whose loop
  increments a nested map. It is proved equal to a fold, `Count`, over the lines of the
  readable files. Lemmas about `Count` say:
  - every cell is the number of request lines for its endpoint and level;
  - the keys are exactly the endpoints seen;
  - every stored count is at least 1;
  - the tables of concatenated line streams add cell by cell;
  - the grand total is the number of request lines.
- **Report formatter** (`Report`, imperative, with `Text` for the string operations it
  uses). `create_report` is a method with the source's nested loops. `col_widths` is an
  `array<nat>` that is widened in place. The method is proved to return `ReportOf(stats)`.
  Lemmas about `ReportOf` say:
  - it has one line per endpoint plus three;
  - the first line is the grand total, then the header, then the endpoint rows in
    ascending `str` order, then the totals row;
  - each total is the sum the source promises;
  - every header and endpoint cell starts at its column's offset in the rendered line.

`Text` models three parts of Python's text handling:
- `str(n)` for a count, with the round trip through `int`;
- the order `sorted()` uses on `str`, a strict total order;
- left-justified padding `f"{s:<{n}}"`, which never truncates and adds only spaces.

The column widths follow the code, not an idealised maximum over all cells. In
main.py:81-86 the width scan for a row runs before each count is appended. So the last
count of an endpoint row (the CRITICAL column) never widens its column. The totals row
never widens any column, because it is appended after the loop. `WidthsOverBounds` and
`WidthsOverTight` state the widths exactly as computed. The inner `enumerate` reuses the
outer loop's `i` (main.py:79,83). The outer `i` is never read, so this has no effect and
is not modelled.

The module `Wrappers` holds the `Option` type. The modules `LogLineExamples`,
`StatisticsExamples` and `ReportExamples` restate cases from the analyzer's tests as
lemmas about the model.

## Model

| member | source | states |
|---|---|---|
| LogLine.IsSpace | main.py:40-41 | Definition: `\s` is a character for which `str.isspace()` holds (tab to carriage return, 0x1C to space, and the Unicode spaces) |
| LogLine.LevelsAreNotPrefixes | main.py:16 | No two different tokens of `LOG_LEVELS` both occur at one position, so the level alternation is deterministic |
| LogLine.LevelAt | main.py:38 | The level alternation at a position yields the level token occurring there, and nothing exactly when no level occurs there |
| LogLine.MethodsAreNotPrefixes | main.py:40 | No two different HTTP method alternatives both occur at one position |
| LogLine.ServerErrorIsNoHttpMethod | main.py:40 | Where `Internal\sServer\sError:` occurs, no HTTP method alternative does |
| LogLine.MethodAt | main.py:40 | The method alternation yields the length of the unique alternative occurring at a position, and nothing when none occurs |
| LogLine.RunEnd | main.py:41 | The end of the maximal run of non-whitespace from a position: nothing before it is whitespace, and it is the line's end or whitespace |
| LogLine.RunEndIsUnique | main.py:41 | Any position bounding a maximal non-whitespace run is the one `RunEnd` finds, so the greedy path is determined |
| LogLine.SpacedEndpointAt | main.py:40-41 | `\s(?P<endpoint>/[^\s]+)` tried at a position captures exactly the path it can match there, or nothing when it cannot |
| LogLine.TailAt | main.py:39-41 | The pattern after the gap matches at a position exactly when its result is a path, and that path is the one captured |
| LogLine.MethodClauseNeedsMethod | main.py:40-41 | The method clause cannot match where no method alternative occurs |
| LogLine.LazyGap | main.py:39 | The lazy gap `.*?` stops at the first position reached over non-newline characters at which the rest of the pattern matches, and fails when there is none |
| LogLine.MatchAt | main.py:38-41 | An attempt at a start position returns a match there with the smallest marker position, and fails exactly when no match starts there |
| LogLine.SearchFrom | main.py:43 | The search from a position returns the match with the smallest start, and among those the smallest marker position, or nothing when none exists |
| LogLine.MatchIsDetermined | main.py:38-41 | The start and the marker position of a match fix its level and its path |
| LogLine.Search | main.py:43 | `log_pattern.search(line)` returns the match with the smallest start and, at that start, the smallest marker position, or nothing when no match exists |
| LogLine.SearchIsLeftmostMatch | main.py:43 | `re.search` returns `m` exactly when `m` is the leftmost match, and nothing exactly when no match exists anywhere in the line |
| LogLine.LeftmostByEarlierAbsence | main.py:43 | A match with no level token before it and no `django.request:` inside its gap is the leftmost match |
| LogLine.Captures | main.py:44 | The dictionary of a match holds exactly the requested groups, the level under `log_level` and the path under `endpoint` |
| LogLine.ParseLogLine | main.py:35-44 | A result holds exactly the requested groups; its level is in `LOG_LEVELS`; its path starts with `/`, has at least two characters and no whitespace |
| LogLine.ParseLogLineIsLeftmostMatch | main.py:43-44 | `parse_log_line` returns `None` exactly when the pattern matches nowhere in the line; otherwise each requested group is that of the leftmost match |
| LogLine.ParseOfLeftmostMatch | main.py:43-44 | With both groups requested, the result is the leftmost match's level and path |
| LogLine.ParseOfSearch | main.py:43-44 | With both groups requested, the result is the level and path of the match `re.search` finds |
| LogLine.MatchNeedsRequestMarker | main.py:39 | A line with no `q` (so no `django.request:`) gives `None` |
| LogLine.NoRequestMarkerNoParse | main.py:39 | A line in which `django.request:` occurs at no position gives `None` |
| LogLine.RequestLayoutLeftmost | main.py:38-43 | In a line laid out as Django logs a request, the match at its level token is the leftmost match |
| LogLine.RequestLayoutParses | main.py:37-44 | A line laid out as Django logs a request parses to its level and its path |
| LogLine.RequestLineHasLayout | main.py:37-42 | A line built from a level-free prefix, a level, `django.request:`, a method, a path and a whitespace-led suffix has the request layout |
| LogLineExamples.PlainGetParses | tests/test_parse_log_line.py:33-38 | `INFO django.request: GET /api/users` parses to level INFO and path `/api/users` |
| LogLineExamples.StampedGetParses | tests/test_parse_log_line.py:11-14 | The time-stamped GET line of the reviews path parses to INFO and `/api/v1/reviews/` |
| LogLineExamples.ServerErrorParses | tests/test_parse_log_line.py:20-23 | The `Internal Server Error:` line parses to ERROR and `/api/v1/checkout/` |
| LogLineExamples.InvalidLineDoesNotMatch | tests/test_parse_log_line.py:41-46 | `Some invalid log line` gives `None` |
| LogLineExamples.SecurityLineDoesNotMatch | tests/test_parse_log_line.py:15 | A `django.security` line gives `None` |
| Statistics.Cell | main.py:89 | Definition: `stats[h].get(lv, 0)`, reading 0 for a missing endpoint or level |
| Statistics.Increment | main.py:61 | `stats[h][lv] += 1` adds `h` to the keys, adds one to that cell and leaves every other cell unchanged |
| Statistics.Event | main.py:59-61 | A line's event, if any, is a well-formed path and a level of `LOG_LEVELS` |
| Statistics.RequestLineEvent | main.py:59-61 | A line laid out as Django logs a request counts once for its path at its level |
| Statistics.Step | main.py:59-61 | One pass of the loop: a line that does not match leaves the table as it was; a request line adds one to its own cell and changes no other |
| Statistics.Count | main.py:51-61 | Definition: the table after the loop has seen the lines, starting from the empty table and taking one `Step` per line in order |
| Statistics.CollectStatistics | main.py:47-63 | An unknown report type ends with status 1 before any line is read; for `handlers` the loop's table is the fold `Count` over the lines of the readable files |
| Statistics.CountCell | main.py:58-61 | Each cell of the table is the number of request lines for that path at that level; a missing cell reads 0 |
| Statistics.CountKeys | main.py:58-61 | The table's keys are exactly the paths of the request lines |
| Statistics.CountIsCounted | main.py:51-61 | Every key is a well-formed path with a non-empty row, every level key is in `LOG_LEVELS`, and every stored count is at least 1 |
| Statistics.OccurrencesAppend | main.py:58-61 | The request lines for a path and level in two concatenated streams are those of each stream added |
| Statistics.CountAppend | main.py:21-25 | The table of two concatenated line streams is the cell-wise sum of their tables |
| Statistics.ReadFiles | main.py:19-32 | The lines read are those of every readable file in turn, as many as they hold together |
| Statistics.CountFiles | main.py:21-25 | Each cell of the table over several files is the sum of that cell over the tables of the readable files |
| Statistics.TableSumIsRequestLines | main.py:89-94 | Summed over every endpoint and level, the table gives the number of request lines |
| Statistics.LevelSumIsLevelLines | main.py:89-91 | Summed over every endpoint, the table's counts at a level give the number of request lines at that level |
| Statistics.TableSumIsTotalsRowSum | main.py:91-99 | The grand total equals the sum of the per-level totals |
| Statistics.RowSumOfLevels | main.py:81-94 | An endpoint's row total is its count at each of the five levels added |
| Statistics.RowSumIncrement | main.py:89-94 | One more request line adds one to its endpoint's row total and nothing to any other row |
| Statistics.LevelSumIncrement | main.py:89-91 | One more request line adds one to its level's total over the endpoints and nothing to the other levels |
| Statistics.TableSumIncrement | main.py:89-94 | One more request line for a listed endpoint adds one to the grand total |
| StatisticsExamples.CountOneMore | main.py:58-61 | One more request line increments exactly its own cell |
| StatisticsExamples.SampleCounts | tests/test_collect_statistics.py:29-37 | The three sample lines give 2 for the reviews path at INFO, 1 for the dashboard at ERROR, and no other path |
| StatisticsExamples.NoLinesNoStatistics | tests/test_collect_statistics.py:40-47 | No lines give an empty table |
| Text.NatToString | main.py:84 | `str(n)` is a non-empty string of decimal digits without a leading zero unless `n` is 0 |
| Text.NatToStringRoundTrip | main.py:104 | The digits `str(n)` writes have the value `n` |
| Text.Below | main.py:69 | Definition: Python's `<` on `str`, comparing code point by code point, a proper prefix first |
| Text.BelowIrreflexive | main.py:69 | No string sorts before itself |
| Text.BelowTransitive | main.py:69 | The `str` order is transitive |
| Text.BelowTotal | main.py:69 | Of two different strings exactly one sorts first, and equal strings are unordered |
| Text.Spaces | main.py:104 | Definition: the string of `n` blanks that padding appends |
| Text.Pad | main.py:104 | Left-justifying keeps the text as the line's start, and the result has the width, or the text's length when the text is longer |
| Text.PadJoin | main.py:104 | Definition: `"".join(...)` of each cell left-justified to its width plus four, the cells and widths taken in pairs |
| Text.PadAddsSpaces | main.py:104 | Left-justifying adds only spaces after the text |
| Text.CellStartsAtOffset | main.py:103-106 | In the joined padded cells, a cell whose predecessors fit their widths plus four starts at the sum of those widths plus four each |
| Text.CellAtOffset | main.py:103-106 | That cell's text is the slice of the joined line at its offset |
| Report.HeaderRow | main.py:74 | Definition: `["HANDLER", *LOG_LEVELS]`, six cells |
| Report.DataRow | main.py:80-90 | Definition: an endpoint's row, its name and then `stats[handler].get(level, 0)` for each level in order, six cells |
| Report.TotalsRow | main.py:99 | Definition: a blank and then, for each level in order, that level's sum over the given endpoints, six cells |
| Report.InitialWidths | main.py:74-76 | The starting widths are the header cells' lengths, 7, 5, 4, 7, 5 and 8 |
| Report.SortedKeys | main.py:69 | `sorted(stats.keys())` lists every key exactly once, in strictly ascending `str` order |
| Report.SortedKeysDistinct | main.py:69 | The sorted keys repeat no key |
| Report.Widen | main.py:83-86 | One width update pass makes every column at least as wide as it was and as the cell under it, and no wider than one of the two |
| Report.WidenColumns | main.py:83-86 | The in-place loop over the row leaves `col_widths` as one `Widen` pass over the old widths |
| Report.ScanRowIsOneWiden | main.py:81-86 | The scans before each of an endpoint's counts amount to one scan of its handler and first four counts |
| Report.WidthsOverBounds | main.py:76-87 | Widths start at the header's and only grow; they cover every handler and DEBUG to ERROR count of every row; the CRITICAL width stays the header's |
| Report.WidthsOverTight | main.py:76-87 | Each width is its header's length or the length of a handler or DEBUG to ERROR count the scan saw in that column |
| Report.AddHandlerRow | main.py:80-96 | An endpoint's turn builds its row (name, then its count at each level, missing levels as 0), widens the widths by the scans, and adds its counts to each level's total and to the grand total |
| Report.AccumulateStep | main.py:79-96 | One endpoint's turn keeps widths, level totals, grand total and rows equal to those over the endpoints handled so far |
| Report.CountsRow | main.py:99 | Definition: `[" "] + [level_counts[lvl] for lvl in LOG_LEVELS]`, with a level never added to read as 0, six cells |
| Report.CountsRowIsTotalsRow | main.py:91-99 | The totals row is a blank and then, for each level in order, the sum of that level over the endpoints; other keys are ignored |
| Report.TotalLine | main.py:108 | Definition: `f"Total requests: {total}\n"` |
| Report.RenderRow | main.py:104 | Definition: one row's cells as `str`, joined by `Text.PadJoin` with the widths |
| Report.RenderRows | main.py:103-106 | Definition: the comprehension that renders every row with the same widths, in order |
| Report.LayoutLines | main.py:103-108 | The report is the total line, then the header, the rows and the last row rendered, in this order |
| Report.ReportOf | main.py:66-108 | Definition: the report on a table, the total line, then the header, the rows of the sorted endpoints and the totals row, all rendered with the final widths |
| Report.ReportLines | main.py:96-108 | The report has one line per endpoint plus three: the grand total, the header, the endpoint rows in sorted order, the totals row |
| Report.CreateReport | main.py:66-108 | `create_report(stats)` returns the report on `stats` |
| Report.DataRowLinesUp | main.py:103-106 | In an endpoint's rendered row, every cell's text starts at its column's offset under the final widths |
| Report.HeaderLinesUp | main.py:103-106 | In the rendered header, every cell's text starts at its column's offset under the final widths |
| Report.ReportTotalIsRequestLines | main.py:108 | For the table of a line stream, the first report line gives the number of request lines |
| Report.DataRowCountsLines | main.py:89-90 | For the table of a line stream, an endpoint's row holds its number of request lines at each level |
| Report.TotalsRowCountsLines | main.py:91-99 | For the table of a line stream, the totals row holds the number of request lines at each level |
| ReportExamples.BasicReportLines | tests/test_create_report.py:10-15 | One handler with 3 INFO and 2 ERROR gives four lines, the first `Total requests: 5` |
| ReportExamples.BasicReport | tests/test_create_report.py:22-29 | That handler's row and the totals row hold 3 under INFO and 2 under ERROR |
| ReportExamples.EmptyReportLines | tests/test_create_report.py:46-51 | An empty table gives three lines, the first `Total requests: 0` |
| ReportExamples.EmptyReport | tests/test_create_report.py:53-59 | An empty table has no endpoint rows and zeros throughout the totals row |

## Left out

- `read_files` (main.py:19-32) is modelled by its output. Each file is given as the lines it yields: all its lines, or, when reading fails part way, `Some` of the lines yielded before the error, or `None` when it cannot be opened. Opening, UTF-8 decoding with replacement and the logged error messages are I/O and are not modelled.
- The reading is lazy in the source and eager in the model. For an unknown report type the source stops before reading, and the model does the same.
- `parse_args_cli`, `main`, `print`, the `logging` configuration and all log messages (main.py:10-14,111-141) are command-line glue and are not modelled. `sys.exit(1)` is the outcome `Exit(1)`.
- The general `re` engine and compiling the pattern are not modelled; only the one fixed pattern is. `\s` is the set of characters for which `str.isspace()` holds.
- `match_groups` is a set of the two group names. The order of the tuple does not change the returned dictionary.
- `sorted()` is modelled by its result. The sort algorithm is not modelled.
- Python's integers are unbounded, like Dafny's, so there is no overflow to model.
- Counts are non-negative: the table's cells and `Report.Entry.Int` are `nat`. `create_report` accepts any `int` count, and a negative one would be written with a minus sign and lower the totals. Such a count cannot be expressed here. The tables `collect_statistics` produces hold only counts of at least 1 (`Statistics.CountIsCounted`).
- Report.DataRowLinesUp: with `Report.HeaderLinesUp`, places every cell of the header and of the endpoint rows, the CRITICAL cells included, at its column's offset. No lemma places the cells of the totals row: its counts never widen the columns, so they line up only when each fits its width plus four.
- Text.Pad: the fact that the padding is all spaces is the separate lemma `Text.PadAddsSpaces`. It is not in `Pad`'s contract.
- The examples from the tests are stated on lines built by `LogLine.RequestLine` from their pieces. The test lines with leading indentation (tests/test_process_file.py) are not restated.
