/**
 * `collect_statistics`: the per-endpoint, per-level counts of the request lines found in
 * the log files. The table is a map from endpoint to a map from level to count; a
 * missing key reads as 0, as with the nested `defaultdict(int)` of the analyzer.
 */
module Statistics {
  import opened Wrappers
  import opened LogLine

  /** `stats`: endpoint, then level, to the number of request lines with both. */
  type Table = map<string, map<string, nat>>

  /** `stats[h].get(lv, 0)`, with a missing endpoint read as an empty row. */
  function Cell(t: Table, h: string, lv: string): nat {
    if h in t && lv in t[h] then t[h][lv] else 0
  }

  /** `stats[h][lv] += 1` on the nested `defaultdict`. */
  function Increment(t: Table, h: string, lv: string): (r: Table)
    ensures r.Keys == t.Keys + {h}
    ensures Cell(r, h, lv) == Cell(t, h, lv) + 1
    ensures forall h', lv' :: (h', lv') != (h, lv) ==> Cell(r, h', lv') == Cell(t, h', lv')
  {
    var row := if h in t then t[h] else map[];
    t[h := row[lv := Cell(t, h, lv) + 1]]
  }

  /**
   * What the loop body takes from one line: the endpoint and the level of a request
   * line, nothing for any other line.
   */
  function Event(line: string): (r: Option<(string, string)>)
    ensures r.Some? ==> IsEndpoint(r.value.0) && r.value.1 in LogLevels
  {
    match ParseLogLine(line, {LogLevel, Endpoint})
    case None => None
    case Some(fields) => Some((fields[Endpoint], fields[LogLevel]))
  }

  /** A request line is counted under its own path and level. */
  lemma RequestLineEvent(pre: string, lv: string, m: string, ep: string, post: string)
    requires forall c :: c in pre ==> c !in LevelInitials
    requires lv in LogLevels && m in MethodsAsLogged && IsEndpoint(ep)
    requires post == [] || IsSpace(post[0])
    ensures Event(RequestLine(pre, lv, m, ep, post)) == Some((ep, lv))
  {
    RequestLineHasLayout(pre, lv, m, ep, post);
    RequestLayoutParses(RequestLine(pre, lv, m, ep, post), |pre|, lv, m, ep);
  }

  /** One iteration of the loop over the lines: a request line adds one to its own cell only. */
  function Step(t: Table, line: string): (r: Table)
    ensures Event(line).None? ==> r == t
    ensures forall h, lv :: Cell(r, h, lv) == Cell(t, h, lv) + (if Event(line) == Some((h, lv)) then 1 else 0)
  {
    match Event(line)
    case None => t
    case Some((h, lv)) => Increment(t, h, lv)
  }

  /** The table after the loop has seen `lines`, starting from the empty `defaultdict`. */
  function Count(lines: seq<string>): Table
    decreases |lines|
  {
    if lines == [] then map[] else Step(Count(lines[..|lines| - 1]), lines[|lines| - 1])
  }

  /** The number of lines of `lines` that are request lines for endpoint `h` at level `lv`. */
  function Occurrences(lines: seq<string>, h: string, lv: string): nat
    decreases |lines|
  {
    if lines == [] then 0
    else Occurrences(lines[..|lines| - 1], h, lv) + (if Event(lines[|lines| - 1]) == Some((h, lv)) then 1 else 0)
  }

  /** The number of request lines in `lines`. */
  function RequestLines(lines: seq<string>): nat
    decreases |lines|
  {
    if lines == [] then 0
    else RequestLines(lines[..|lines| - 1]) + (if Event(lines[|lines| - 1]).Some? then 1 else 0)
  }

  /** Every count of the table is the number of request lines for its endpoint and level. */
  lemma {:induction false} CountCell(lines: seq<string>, h: string, lv: string)
    ensures Cell(Count(lines), h, lv) == Occurrences(lines, h, lv)
    decreases |lines|
  {
    if lines != [] {
      CountCell(lines[..|lines| - 1], h, lv);
    }
  }

  /** The endpoints of the request lines among `lines`. */
  function Endpoints(lines: seq<string>): set<string>
    decreases |lines|
  {
    if lines == [] then {}
    else
      var last := Event(lines[|lines| - 1]);
      Endpoints(lines[..|lines| - 1]) + (if last.Some? then {last.value.0} else {})
  }

  /** The endpoints of the table are exactly those of the request lines. */
  lemma {:induction false} CountKeys(lines: seq<string>)
    ensures Count(lines).Keys == Endpoints(lines)
    decreases |lines|
  {
    if lines != [] {
      CountKeys(lines[..|lines| - 1]);
    }
  }

  /** Every row of the table is keyed by an endpoint and holds positive counts of levels only. */
  ghost predicate Counted(t: Table) {
    forall h :: h in t ==>
      && IsEndpoint(h) && t[h] != map[]
      && (forall lv :: lv in t[h] ==> lv in LogLevels && t[h][lv] >= 1)
  }

  /** The table the loop builds never holds a zero count, a non-level key or a non-endpoint key. */
  lemma {:induction false} CountIsCounted(lines: seq<string>)
    ensures Counted(Count(lines))
    decreases |lines|
  {
    if lines != [] {
      CountIsCounted(lines[..|lines| - 1]);
    }
  }

  /** Counting a concatenation adds the counts of its parts, cell by cell. */
  lemma {:induction false} CountAppend(a: seq<string>, b: seq<string>, h: string, lv: string)
    ensures Cell(Count(a + b), h, lv) == Cell(Count(a), h, lv) + Cell(Count(b), h, lv)
  {
    CountCell(a + b, h, lv);
    CountCell(a, h, lv);
    CountCell(b, h, lv);
    OccurrencesAppend(a, b, h, lv);
  }

  lemma {:induction false} OccurrencesAppend(a: seq<string>, b: seq<string>, h: string, lv: string)
    ensures Occurrences(a + b, h, lv) == Occurrences(a, h, lv) + Occurrences(b, h, lv)
    decreases |b|
  {
    if b != [] {
      var b' := b[..|b| - 1];
      assert (a + b)[..|a + b| - 1] == a + b';
      OccurrencesAppend(a, b', h, lv);
    } else {
      assert a + b == a;
    }
  }

  /** `read_files`: the lines of each file in turn; a file that cannot be read (`None`) adds none. */
  function ReadFiles(files: seq<Option<seq<string>>>): (lines: seq<string>)
    ensures |lines| == TotalLength(files)
    decreases |files|
  {
    if files == [] then []
    else
      var rest := ReadFiles(files[1..]);
      match files[0]
      case None => rest
      case Some(content) => content + rest
  }

  /** The number of lines of the readable files. */
  function TotalLength(files: seq<Option<seq<string>>>): nat
    decreases |files|
  {
    if files == [] then 0
    else
      var here := match files[0] case None => 0 case Some(content) => |content|;
      here + TotalLength(files[1..])
  }

  /** The counts over several files are the sums of the counts over each readable file. */
  lemma {:induction false} CountFiles(files: seq<Option<seq<string>>>, h: string, lv: string)
    ensures Cell(Count(ReadFiles(files)), h, lv) == FileCounts(files, h, lv)
    decreases |files|
  {
    if files != [] {
      CountFiles(files[1..], h, lv);
      match files[0]
      case None =>
      case Some(content) =>
        CountAppend(content, ReadFiles(files[1..]), h, lv);
    }
  }

  /** The sum over the readable files of each file's own count for `h` and `lv`. */
  function FileCounts(files: seq<Option<seq<string>>>, h: string, lv: string): nat
    decreases |files|
  {
    if files == [] then 0
    else
      var here := match files[0] case None => 0 case Some(content) => Cell(Count(content), h, lv);
      here + FileCounts(files[1..], h, lv)
  }

  /** The sum of the counts of endpoint `h` over the levels `lvs`. */
  function RowSum(t: Table, h: string, lvs: seq<string>): nat
    decreases |lvs|
  {
    if lvs == [] then 0 else RowSum(t, h, lvs[..|lvs| - 1]) + Cell(t, h, lvs[|lvs| - 1])
  }

  /** The sum of the counts at level `lv` over the endpoints `hs` (one cell of the totals row). */
  function LevelSum(t: Table, hs: seq<string>, lv: string): nat
    decreases |hs|
  {
    if hs == [] then 0 else LevelSum(t, hs[..|hs| - 1], lv) + Cell(t, hs[|hs| - 1], lv)
  }

  /** The sum over the endpoints `hs` of their counts at the levels `lvs` (the `total` of the report). */
  function TableSum(t: Table, hs: seq<string>, lvs: seq<string>): nat
    decreases |hs|
  {
    if hs == [] then 0 else TableSum(t, hs[..|hs| - 1], lvs) + RowSum(t, hs[|hs| - 1], lvs)
  }

  /** The sum over the levels `lvs` of their totals over the endpoints `hs` (the totals row, added up). */
  function TotalsRowSum(t: Table, hs: seq<string>, lvs: seq<string>): nat
    decreases |lvs|
  {
    if lvs == [] then 0 else TotalsRowSum(t, hs, lvs[..|lvs| - 1]) + LevelSum(t, hs, lvs[|lvs| - 1])
  }

  /** The grand total is also the sum of the totals row. */
  lemma {:induction false} TableSumIsTotalsRowSum(t: Table, hs: seq<string>, lvs: seq<string>)
    ensures TableSum(t, hs, lvs) == TotalsRowSum(t, hs, lvs)
    decreases |hs|
  {
    if hs != [] {
      TableSumIsTotalsRowSum(t, hs[..|hs| - 1], lvs);
      TotalsRowSumSplit(t, hs, lvs);
    } else {
      NoEndpointsNoSum(t, lvs);
    }
  }

  lemma {:induction false} NoEndpointsNoSum(t: Table, lvs: seq<string>)
    ensures TotalsRowSum(t, [], lvs) == 0
    decreases |lvs|
  {
    if lvs != [] {
      NoEndpointsNoSum(t, lvs[..|lvs| - 1]);
    }
  }

  /** Taking the last endpoint out of the totals row takes out its row sum. */
  lemma {:induction false} TotalsRowSumSplit(t: Table, hs: seq<string>, lvs: seq<string>)
    requires hs != []
    ensures TotalsRowSum(t, hs, lvs)
      == TotalsRowSum(t, hs[..|hs| - 1], lvs) + RowSum(t, hs[|hs| - 1], lvs)
    decreases |lvs|
  {
    if lvs != [] {
      TotalsRowSumSplit(t, hs, lvs[..|lvs| - 1]);
    }
  }

  /** No string occurs twice in `s`. */
  predicate Distinct(s: seq<string>) {
    forall i, j :: 0 <= i < j < |s| ==> s[i] != s[j]
  }

  /** One more request line for `h` at a level adds one to the row sum of `h` only. */
  lemma {:induction false} RowSumIncrement(t: Table, h: string, lv: string, h': string, lvs: seq<string>)
    requires Distinct(lvs)
    ensures RowSum(Increment(t, h, lv), h', lvs)
      == RowSum(t, h', lvs) + (if h' == h && lv in lvs then 1 else 0)
    decreases |lvs|
  {
    if lvs != [] {
      var init := lvs[..|lvs| - 1];
      assert Distinct(init);
      RowSumIncrement(t, h, lv, h', init);
      assert lv in lvs <==> lv in init || lv == lvs[|lvs| - 1];
      if lv == lvs[|lvs| - 1] {
        assert lv !in init;
      }
    }
  }

  /** One more request line for an endpoint of `hs` adds one to the table sum over `hs`. */
  lemma {:induction false} TableSumIncrement(t: Table, h: string, lv: string, hs: seq<string>)
    requires Distinct(hs) && lv in LogLevels
    ensures TableSum(Increment(t, h, lv), hs, LogLevels) == TableSum(t, hs, LogLevels) + (if h in hs then 1 else 0)
    decreases |hs|
  {
    if hs != [] {
      var init := hs[..|hs| - 1];
      assert Distinct(init);
      TableSumIncrement(t, h, lv, init);
      LogLevelsDistinct();
      RowSumIncrement(t, h, lv, hs[|hs| - 1], LogLevels);
      assert h in hs <==> h in init || h == hs[|hs| - 1];
      if h == hs[|hs| - 1] {
        assert h !in init;
      }
    }
  }

  /** The row sum over `LOG_LEVELS`, written out. */
  lemma RowSumOfLevels(t: Table, h: string)
    ensures RowSum(t, h, LogLevels) == Cell(t, h, "DEBUG") + Cell(t, h, "INFO") + Cell(t, h, "WARNING")
      + Cell(t, h, "ERROR") + Cell(t, h, "CRITICAL")
  {
    var l := LogLevels;
    assert l[..1][..0] == [];
    assert RowSum(t, h, l[..1]) == Cell(t, h, "DEBUG");
    assert l[..2][..1] == l[..1];
    assert RowSum(t, h, l[..2]) == RowSum(t, h, l[..1]) + Cell(t, h, "INFO");
    assert l[..3][..2] == l[..2];
    assert RowSum(t, h, l[..3]) == RowSum(t, h, l[..2]) + Cell(t, h, "WARNING");
    assert l[..4][..3] == l[..3];
    assert RowSum(t, h, l[..4]) == RowSum(t, h, l[..3]) + Cell(t, h, "ERROR");
    assert l[..4] == l[..|l| - 1];
  }

  lemma LogLevelsDistinct()
    ensures Distinct(LogLevels)
  {
  }

  /**
   * Summed over every endpoint of the table once, the counts add up to the number of
   * request lines: no line is lost or counted twice.
   */
  lemma {:induction false} TableSumIsRequestLines(lines: seq<string>, hs: seq<string>)
    requires Distinct(hs) && forall h :: h in Count(lines) ==> h in hs
    ensures TableSum(Count(lines), hs, LogLevels) == RequestLines(lines)
    decreases |lines|
  {
    if lines == [] {
      EmptyTableSum(hs);
    } else {
      var init := lines[..|lines| - 1];
      var last := lines[|lines| - 1];
      assert forall h :: h in Count(init) ==> h in Count(lines) by {
        match Event(last)
        case None =>
        case Some((h, lv)) =>
      }
      TableSumIsRequestLines(init, hs);
      match Event(last)
      case None =>
      case Some((h, lv)) =>
        TableSumIncrement(Count(init), h, lv, hs);
    }
  }

  /** The number of request lines of `lines` logged at level `lv`. */
  function LevelLines(lines: seq<string>, lv: string): nat
    decreases |lines|
  {
    if lines == [] then 0
    else
      var e := Event(lines[|lines| - 1]);
      LevelLines(lines[..|lines| - 1], lv) + (if e.Some? && e.value.1 == lv then 1 else 0)
  }

  /** One more request line for an endpoint of `hs` adds one to the total of its level only. */
  lemma {:induction false} LevelSumIncrement(t: Table, h: string, lv: string, lv': string, hs: seq<string>)
    requires Distinct(hs)
    ensures LevelSum(Increment(t, h, lv), hs, lv') == LevelSum(t, hs, lv') + (if h in hs && lv' == lv then 1 else 0)
    decreases |hs|
  {
    if hs != [] {
      var init := hs[..|hs| - 1];
      assert Distinct(init);
      LevelSumIncrement(t, h, lv, lv', init);
      assert h in hs <==> h in init || h == hs[|hs| - 1];
      if h == hs[|hs| - 1] {
        assert h !in init;
      }
    }
  }

  /**
   * Summed over every endpoint of the table once, the counts at level `lv` add up to the
   * number of request lines at that level.
   */
  lemma {:induction false} LevelSumIsLevelLines(lines: seq<string>, hs: seq<string>, lv: string)
    requires Distinct(hs) && forall h :: h in Count(lines) ==> h in hs
    ensures LevelSum(Count(lines), hs, lv) == LevelLines(lines, lv)
    decreases |lines|
  {
    if lines == [] {
      EmptyLevelSum(hs, lv);
    } else {
      var init := lines[..|lines| - 1];
      var last := lines[|lines| - 1];
      assert forall h :: h in Count(init) ==> h in Count(lines) by {
        match Event(last)
        case None =>
        case Some((h, l)) =>
      }
      LevelSumIsLevelLines(init, hs, lv);
      match Event(last)
      case None =>
      case Some((h, l)) =>
        LevelSumIncrement(Count(init), h, l, lv, hs);
    }
  }

  lemma {:induction false} EmptyLevelSum(hs: seq<string>, lv: string)
    ensures LevelSum(map[], hs, lv) == 0
    decreases |hs|
  {
    if hs != [] {
      EmptyLevelSum(hs[..|hs| - 1], lv);
    }
  }

  lemma {:induction false} EmptyTableSum(hs: seq<string>)
    ensures TableSum(map[], hs, LogLevels) == 0
    decreases |hs|
  {
    if hs != [] {
      EmptyTableSum(hs[..|hs| - 1]);
      EmptyRowSum(hs[|hs| - 1], LogLevels);
    }
  }

  lemma {:induction false} EmptyRowSum(h: string, lvs: seq<string>)
    ensures RowSum(map[], h, lvs) == 0
    decreases |lvs|
  {
    if lvs != [] {
      EmptyRowSum(h, lvs[..|lvs| - 1]);
    }
  }

  /** What `collect_statistics` ends with: the table, or the exit status of `sys.exit`. */
  datatype Outcome = Stats(table: Table) | Exit(status: nat)

  /** The one report type the analyzer implements. */
  const Handlers: string := "handlers"

  /**
   * `collect_statistics(log_files, report_type)`: an unknown report type ends the program
   * with status 1 before any file is read; otherwise every request line of every readable
   * file adds one to the count of its endpoint and level.
   */
  method CollectStatistics(files: seq<Option<seq<string>>>, reportType: string) returns (r: Outcome)
    ensures reportType != Handlers ==> r == Exit(1)
    ensures reportType == Handlers ==> r == Stats(Count(ReadFiles(files)))
  {
    if reportType != Handlers {
      return Exit(1);
    }
    var stats: Table := map[];
    var lines := ReadFiles(files);
    var i := 0;
    while i < |lines|
      invariant 0 <= i <= |lines|
      invariant stats == Count(lines[..i])
    {
      assert lines[..i + 1][..i] == lines[..i];
      assert Count(lines[..i + 1]) == Step(stats, lines[i]);
      var parsed := ParseLogLine(lines[i], {LogLevel, Endpoint});
      if parsed.Some? {
        if reportType == Handlers {
          stats := Increment(stats, parsed.value[Endpoint], parsed.value[LogLevel]);
        }
      }
      i := i + 1;
    }
    assert lines[..i] == lines;
    return Stats(stats);
  }
}
