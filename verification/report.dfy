/**
 * `create_report`: the text table of the `handlers` report. One line with the grand
 * total, the header row, one row per endpoint in sorted order, and the row of totals per
 * level; every cell is left-justified to its column width plus four.
 */
module Report {
  import opened LogLine
  import opened Statistics
  import opened Text

  /** A cell of a report row: the handler or the blank of the totals row (`str`), or a count (`int`). */
  datatype Entry = Str(s: string) | Int(n: nat)

  /** `str(cell)`. */
  function Show(e: Entry): string {
    match e
    case Str(s) => s
    case Int(n) => NatToString(n)
  }

  /** The number of columns: the handler and one per level. */
  const Columns: nat := 6

  /** `["HANDLER", *LOG_LEVELS]`. */
  function HeaderRow(): (row: seq<Entry>)
    ensures |row| == Columns
  {
    [Str("HANDLER")] + seq(5, k requires 0 <= k < 5 => Str(LogLevels[k]))
  }

  /** The row of endpoint `h`: its name, then its count at each level of `LOG_LEVELS`. */
  function DataRow(t: Table, h: string): (row: seq<Entry>)
    ensures |row| == Columns
  {
    [Str(h)] + seq(5, k requires 0 <= k < 5 => Int(Cell(t, h, LogLevels[k])))
  }

  /** The last row: a blank, then the total of each level over the endpoints `hs`. */
  function TotalsRow(t: Table, hs: seq<string>): (row: seq<Entry>)
    ensures |row| == Columns
  {
    [Str(" ")] + seq(5, k requires 0 <= k < 5 => Int(LevelSum(t, hs, LogLevels[k])))
  }

  /** `[len(h) for h in header]`. */
  function InitialWidths(): (w: seq<nat>)
    ensures w == [7, 5, 4, 7, 5, 8]
  {
    var header := HeaderRow();
    seq(Columns, k requires 0 <= k < Columns => |Show(header[k])|)
  }

  /** The smallest key of `keys` in Python's `str` order. */
  predicate IsLeast(m: string, keys: set<string>) {
    m in keys && forall k :: k in keys ==> k == m || Below(m, k)
  }

  lemma {:induction false} LeastExists(keys: set<string>)
    requires keys != {}
    ensures exists m :: IsLeast(m, keys)
    decreases keys
  {
    var x :| x in keys;
    var rest := keys - {x};
    if rest == {} {
      assert keys == {x};
      assert IsLeast(x, keys);
    } else {
      LeastExists(rest);
      var m :| IsLeast(m, rest);
      BelowTotal(x, m);
      if Below(x, m) {
        forall k | k in keys ensures k == x || Below(x, k) {
          if k != x && k != m {
            BelowTransitive(x, m, k);
          }
        }
        assert IsLeast(x, keys);
      } else {
        assert IsLeast(m, keys);
      }
    }
  }

  lemma LeastUnique(keys: set<string>)
    ensures forall m, m' :: IsLeast(m, keys) && IsLeast(m', keys) ==> m == m'
  {
    forall m, m' | IsLeast(m, keys) && IsLeast(m', keys) ensures m == m' {
      BelowTotal(m, m');
    }
  }

  /** `sorted(stats.keys())`: every key once, in ascending `str` order. */
  function SortedKeys(keys: set<string>): (hs: seq<string>)
    ensures |hs| == |keys|
    ensures forall h :: h in hs <==> h in keys
    ensures forall i, j :: 0 <= i < j < |hs| ==> Below(hs[i], hs[j])
    decreases keys
  {
    if keys == {} then []
    else
      LeastExists(keys);
      LeastUnique(keys);
      var m :| IsLeast(m, keys);
      [m] + SortedKeys(keys - {m})
  }

  /** The sorted keys hold no key twice. */
  lemma SortedKeysDistinct(keys: set<string>)
    ensures Distinct(SortedKeys(keys))
  {
    var hs := SortedKeys(keys);
    forall i, j | 0 <= i < j < |hs| ensures hs[i] != hs[j] {
      BelowIrreflexive(hs[i]);
    }
  }

  /**
   * One pass of the width update over the cells of `row`: each column at least as wide
   * as the cell under it, and no wider than that or than it was.
   */
  function Widen(w: seq<nat>, row: seq<Entry>): (r: seq<nat>)
    requires |row| <= |w|
    ensures |r| == |w|
    ensures forall c :: 0 <= c < |w| ==> w[c] <= r[c]
    ensures forall c :: 0 <= c < |row| ==> |Show(row[c])| <= r[c]
    ensures forall c :: 0 <= c < |w| ==> r[c] == w[c] || (c < |row| && r[c] == |Show(row[c])|)
  {
    seq(|w|, c requires 0 <= c < |w| => if c < |row| && |Show(row[c])| > w[c] then |Show(row[c])| else w[c])
  }

  /**
   * The widths after the first `j` iterations over the levels for one endpoint: the
   * iteration for level `j` scans the row as it stands, the handler and `j` counts.
   */
  function ScanRow(w: seq<nat>, row: seq<Entry>, j: nat): (r: seq<nat>)
    requires j <= |row| <= |w|
    ensures |r| == |w|
  {
    if j == 0 then w else Widen(ScanRow(w, row, j - 1), row[..j])
  }

  /** The widths after the rows of the endpoints `hs`, starting from the header's. */
  function WidthsOver(t: Table, hs: seq<string>): (w: seq<nat>)
    ensures |w| == Columns
    decreases |hs|
  {
    if hs == [] then InitialWidths()
    else ScanRow(WidthsOver(t, hs[..|hs| - 1]), DataRow(t, hs[|hs| - 1]), 5)
  }

  /** `col_widths` once every endpoint has been through the loop. */
  function ColumnWidths(t: Table): (w: seq<nat>)
    ensures |w| == Columns
  {
    WidthsOver(t, SortedKeys(t.Keys))
  }

  /** Widening twice, over a prefix of a row and then over the row, is widening over the row. */
  lemma WidenPrefixThenRow(w: seq<nat>, row: seq<Entry>, j: nat)
    requires j <= |row| <= |w|
    ensures Widen(Widen(w, row[..j]), row) == Widen(w, row)
  {
    var a := Widen(Widen(w, row[..j]), row);
    var b := Widen(w, row);
    forall c | 0 <= c < |w| ensures a[c] == b[c] {
      if c < j {
        assert row[..j][c] == row[c];
      }
    }
  }

  /** The repeated scans of a row's prefixes amount to one scan of the longest prefix. */
  lemma {:induction false} ScanRowIsOneWiden(w: seq<nat>, row: seq<Entry>, j: nat)
    requires j <= |row| <= |w|
    ensures ScanRow(w, row, j) == Widen(w, row[..j])
    decreases j
  {
    if j == 0 {
      assert Widen(w, row[..0]) == w;
    } else {
      ScanRowIsOneWiden(w, row, j - 1);
      assert row[..j][..j - 1] == row[..j - 1];
      WidenPrefixThenRow(w, row[..j], j - 1);
    }
  }

  /** Every handler and count of the rows of `hs`, in the columns HANDLER to ERROR, fits in `w`. */
  predicate Covers(w: seq<nat>, t: Table, hs: seq<string>)
    requires |w| == Columns
  {
    forall k, c :: 0 <= k < |hs| && 0 <= c < Columns - 1 ==> |Show(DataRow(t, hs[k])[c])| <= w[c]
  }

  /** The scan of one more row keeps the earlier rows covered and covers the new one up to ERROR. */
  lemma CoversStep(w0: seq<nat>, w: seq<nat>, t: Table, hs: seq<string>)
    requires hs != [] && |w0| == Columns && Covers(w0, t, hs[..|hs| - 1])
    requires w == Widen(w0, DataRow(t, hs[|hs| - 1])[..Columns - 1])
    ensures w[Columns - 1] == w0[Columns - 1]
    ensures forall c :: 0 <= c < Columns ==> w0[c] <= w[c]
    ensures Covers(w, t, hs)
  {
    var row := DataRow(t, hs[|hs| - 1]);
    forall k, c | 0 <= k < |hs| && 0 <= c < Columns - 1 ensures |Show(DataRow(t, hs[k])[c])| <= w[c] {
      if k < |hs| - 1 {
        assert hs[k] == hs[..|hs| - 1][k];
      } else {
        assert row[..Columns - 1][c] == row[c];
      }
    }
  }

  /**
   * The widths the report uses: each column at least as wide as its header and as every
   * handler and count in the columns HANDLER to ERROR; the CRITICAL column keeps the
   * width of its header, because the scan for a row runs before its last count is added.
   */
  lemma {:induction false} WidthsOverBounds(t: Table, hs: seq<string>)
    ensures var w := WidthsOver(t, hs);
      && w[Columns - 1] == InitialWidths()[Columns - 1]
      && (forall c :: 0 <= c < Columns ==> InitialWidths()[c] <= w[c])
      && Covers(w, t, hs)
    decreases |hs|
  {
    if hs != [] {
      var w0 := WidthsOver(t, hs[..|hs| - 1]);
      WidthsOverBounds(t, hs[..|hs| - 1]);
      ScanRowIsOneWiden(w0, DataRow(t, hs[|hs| - 1]), 5);
      CoversStep(w0, WidthsOver(t, hs), t, hs);
    }
  }

  /** No column is wider than its header or than some cell the scan saw in it. */
  lemma {:induction false} WidthsOverTight(t: Table, hs: seq<string>)
    ensures var w := WidthsOver(t, hs);
      forall c :: 0 <= c < Columns ==>
        w[c] == InitialWidths()[c]
        || exists k :: 0 <= k < |hs| && c < Columns - 1 && w[c] == |Show(DataRow(t, hs[k])[c])|
    decreases |hs|
  {
    if hs != [] {
      var init := hs[..|hs| - 1];
      WidthsOverTight(t, init);
      var w0 := WidthsOver(t, init);
      var row := DataRow(t, hs[|hs| - 1]);
      ScanRowIsOneWiden(w0, row, 5);
      var w := WidthsOver(t, hs);
      forall c | 0 <= c < Columns
        ensures w[c] == InitialWidths()[c]
          || exists k :: 0 <= k < |hs| && c < Columns - 1 && w[c] == |Show(DataRow(t, hs[k])[c])|
      {
        if w[c] == w0[c] {
          if w0[c] != InitialWidths()[c] {
            var k :| 0 <= k < |init| && c < Columns - 1 && w0[c] == |Show(DataRow(t, init[k])[c])|;
            assert hs[k] == init[k];
          }
        } else {
          assert row[..5][c] == row[c];
          assert DataRow(t, hs[|hs| - 1]) == row;
        }
      }
    }
  }

  /** `str(cell)` of every cell of a row. */
  function Texts(row: seq<Entry>): (cells: seq<string>)
    ensures |cells| == |row| && forall k :: 0 <= k < |row| ==> cells[k] == Show(row[k])
  {
    seq(|row|, k requires 0 <= k < |row| => Show(row[k]))
  }

  /** `"".join(f"{cell:<{width + 4}}" for cell, width in zip(row, col_widths))`. */
  function RenderRow(row: seq<Entry>, w: seq<nat>): string {
    PadJoin(Texts(row), w)
  }

  /** When the cells before column `i` fit, the text of cell `i` starts at the column's offset. */
  lemma RenderedCell(row: seq<Entry>, w: seq<nat>, i: nat)
    requires i < |row| && i < |w| && FitsBefore(Texts(row), w, i)
    ensures Offset(w, i) + |Show(row[i])| <= |RenderRow(row, w)|
    ensures RenderRow(row, w)[Offset(w, i)..Offset(w, i) + |Show(row[i])|] == Show(row[i])
  {
    CellAtOffset(Texts(row), w, i);
  }

  /** The cells of a covered endpoint row fit their columns up to ERROR. */
  lemma CoveredRowFits(w: seq<nat>, t: Table, hs: seq<string>, h: string, i: nat)
    requires |w| == Columns && Covers(w, t, hs) && h in hs && i < Columns
    ensures FitsBefore(Texts(DataRow(t, h)), w, i)
  {
    var k :| 0 <= k < |hs| && hs[k] == h;
    var cells := Texts(DataRow(t, h));
    forall c | 0 <= c < i ensures |cells[c]| <= w[c] + 4 {
      assert |Show(DataRow(t, hs[k])[c])| <= w[c];
    }
  }

  /** The header cells fit any widths at least the header's own. */
  lemma HeaderFits(w: seq<nat>, i: nat)
    requires |w| == Columns && i < Columns
    requires forall c :: 0 <= c < Columns ==> InitialWidths()[c] <= w[c]
    ensures FitsBefore(Texts(HeaderRow()), w, i)
  {
    var header := HeaderRow();
    forall c | 0 <= c < i ensures |Texts(header)[c]| <= w[c] + 4 {
      assert |Show(header[c])| == InitialWidths()[c];
    }
  }

  /** In the report's widths the cells of an endpoint's row fit their columns up to ERROR. */
  lemma RowFitsColumnWidths(t: Table, h: string, i: nat)
    requires h in t && i < Columns
    ensures FitsBefore(Texts(DataRow(t, h)), ColumnWidths(t), i)
  {
    var hs := SortedKeys(t.Keys);
    WidthsOverBounds(t, hs);
    CoveredRowFits(ColumnWidths(t), t, hs, h, i);
  }

  /** With the report's widths, every cell of an endpoint's row starts at its column's offset. */
  lemma DataRowLinesUp(t: Table, h: string, i: nat)
    requires h in t && i < Columns
    ensures var w, row := ColumnWidths(t), DataRow(t, h);
      && Offset(w, i) + |Show(row[i])| <= |RenderRow(row, w)|
      && RenderRow(row, w)[Offset(w, i)..Offset(w, i) + |Show(row[i])|] == Show(row[i])
  {
    RowFitsColumnWidths(t, h, i);
    RenderedCell(DataRow(t, h), ColumnWidths(t), i);
  }

  /** With any widths at least the header's own, every header cell starts at its column's offset. */
  lemma HeaderLinesUpIn(w: seq<nat>, i: nat)
    requires |w| == Columns && i < Columns
    requires forall c :: 0 <= c < Columns ==> InitialWidths()[c] <= w[c]
    ensures Offset(w, i) + |Show(HeaderRow()[i])| <= |RenderRow(HeaderRow(), w)|
    ensures RenderRow(HeaderRow(), w)[Offset(w, i)..Offset(w, i) + |Show(HeaderRow()[i])|] == Show(HeaderRow()[i])
  {
    HeaderFits(w, i);
    RenderedCell(HeaderRow(), w, i);
  }

  /** With the report's widths, every cell of the header starts at its column's offset. */
  lemma HeaderLinesUp(t: Table, i: nat)
    requires i < Columns
    ensures var w, row := ColumnWidths(t), HeaderRow();
      && Offset(w, i) + |Show(row[i])| <= |RenderRow(row, w)|
      && RenderRow(row, w)[Offset(w, i)..Offset(w, i) + |Show(row[i])|] == Show(row[i])
  {
    WidthsOverBounds(t, SortedKeys(t.Keys));
    HeaderLinesUpIn(ColumnWidths(t), i);
  }

  /** `level_counts[lv]`, with a missing level read as 0. */
  function Get(m: map<string, nat>, k: string): nat {
    if k in m then m[k] else 0
  }

  /** `[" "] + [level_counts[lvl] for lvl in LOG_LEVELS]`. */
  function CountsRow(levelCounts: map<string, nat>): (row: seq<Entry>)
    ensures |row| == Columns
  {
    [Str(" ")] + seq(5, k requires 0 <= k < 5 => Int(Get(levelCounts, LogLevels[k])))
  }

  /** Level totals that are the sums over the endpoints `hs` make the totals row of `hs`. */
  lemma CountsRowIsTotalsRow(levelCounts: map<string, nat>, t: Table, hs: seq<string>)
    requires forall k :: 0 <= k < 5 ==> Get(levelCounts, LogLevels[k]) == LevelSum(t, hs, LogLevels[k])
    ensures CountsRow(levelCounts) == TotalsRow(t, hs)
  {
    var a, b := CountsRow(levelCounts), TotalsRow(t, hs);
    forall c | 0 <= c < Columns ensures a[c] == b[c] {
    }
  }

  /** The first line of the report: the number of requests counted in the table. */
  function TotalLine(total: nat): string {
    "Total requests: " + NatToString(total) + "\n"
  }

  /** The inner loop of the width update: each column widened to the cell under it. */
  method WidenColumns(colWidths: array<nat>, row: seq<Entry>)
    requires |row| <= colWidths.Length
    modifies colWidths
    ensures colWidths[..] == Widen(old(colWidths[..]), row)
  {
    ghost var w0 := colWidths[..];
    var i := 0;
    while i < |row|
      invariant 0 <= i <= |row|
      invariant forall c :: 0 <= c < colWidths.Length ==>
        colWidths[c] == if c < i && |Show(row[c])| > w0[c] then |Show(row[c])| else w0[c]
    {
      var cellLen := |Show(row[i])|;
      if cellLen > colWidths[i] {
        colWidths[i] := cellLen;
      }
      i := i + 1;
    }
    assert colWidths[..] == Widen(w0, row);
  }

  /**
   * The state of the loop over the levels for endpoint `h` after the first `j` levels:
   * the row holds the handler and `j` counts, the widths were scanned `j` times, and the
   * first `j` levels' counts were added to the level totals and to the grand total.
   */
  ghost predicate RowFilled(t: Table, h: string, j: nat, w0: seq<nat>, row: seq<Entry>, w: seq<nat>,
                            counts0: map<string, nat>, counts: map<string, nat>, total0: nat, total: nat)
    requires j <= 5 && |w0| == Columns
  {
    && row == DataRow(t, h)[..j + 1]
    && w == ScanRow(w0, DataRow(t, h), j)
    && (forall k :: 0 <= k < 5 ==>
         Get(counts, LogLevels[k]) == Get(counts0, LogLevels[k]) + (if k < j then Cell(t, h, LogLevels[k]) else 0))
    && total == total0 + RowSum(t, h, LogLevels[..j])
  }

  /** Widening to the row, then appending the count of level `j`, fills one more level. */
  lemma RowFillStep(t: Table, h: string, j: nat, w0: seq<nat>, row: seq<Entry>, w: seq<nat>,
                    counts0: map<string, nat>, counts: map<string, nat>, total0: nat, total: nat)
    requires j < 5 && |w0| == Columns && RowFilled(t, h, j, w0, row, w, counts0, counts, total0, total)
    ensures var count := Cell(t, h, LogLevels[j]);
      RowFilled(t, h, j + 1, w0, row + [Int(count)], Widen(w, row),
                counts0, counts[LogLevels[j] := Get(counts, LogLevels[j]) + count], total0, total + count)
  {
    var full := DataRow(t, h);
    assert full[..j + 2] == full[..j + 1] + [full[j + 1]];
    assert LogLevels[..j + 1][..j] == LogLevels[..j];
    LogLevelsDistinct();
  }

  /** After the five levels, the row is the endpoint's and every count has been added. */
  lemma RowFilledAll(t: Table, h: string, w0: seq<nat>, row: seq<Entry>, w: seq<nat>,
                     counts0: map<string, nat>, counts: map<string, nat>, total0: nat, total: nat)
    requires |w0| == Columns && RowFilled(t, h, 5, w0, row, w, counts0, counts, total0, total)
    ensures row == DataRow(t, h) && w == ScanRow(w0, row, 5)
    ensures forall k :: 0 <= k < 5 ==> Get(counts, LogLevels[k]) == Get(counts0, LogLevels[k]) + Cell(t, h, LogLevels[k])
    ensures total == total0 + RowSum(t, h, LogLevels)
  {
    assert DataRow(t, h)[..6] == DataRow(t, h);
    assert LogLevels[..5] == LogLevels;
  }

  /**
   * The body of the loop over the sorted handlers for `handler`: for each level in turn,
   * widen the columns to the row as it stands, then append the handler's count at that
   * level and add it to the level's total and to the grand total.
   */
  method AddHandlerRow(colWidths: array<nat>, stats: Table, handler: string, levelCounts: map<string, nat>, total: nat)
    returns (row: seq<Entry>, levelCounts': map<string, nat>, total': nat)
    requires colWidths.Length == Columns
    modifies colWidths
    ensures row == DataRow(stats, handler)
    ensures colWidths[..] == ScanRow(old(colWidths[..]), row, 5)
    ensures forall k :: 0 <= k < 5 ==>
      Get(levelCounts', LogLevels[k]) == Get(levelCounts, LogLevels[k]) + Cell(stats, handler, LogLevels[k])
    ensures total' == total + RowSum(stats, handler, LogLevels)
  {
    ghost var w0 := colWidths[..];
    row := [Str(handler)];
    levelCounts', total' := levelCounts, total;
    assert DataRow(stats, handler)[..1] == row;
    var j := 0;
    while j < |LogLevels|
      invariant 0 <= j <= 5
      invariant RowFilled(stats, handler, j, w0, row, colWidths[..], levelCounts, levelCounts', total, total')
    {
      var level := LogLevels[j];
      ghost var w := colWidths[..];
      WidenColumns(colWidths, row);
      var count := Cell(stats, handler, level);
      RowFillStep(stats, handler, j, w0, row, w, levelCounts, levelCounts', total, total');
      row := row + [Int(count)];
      levelCounts' := levelCounts'[level := Get(levelCounts', level) + count];
      total' := total' + count;
      j := j + 1;
    }
    RowFilledAll(stats, handler, w0, row, colWidths[..], levelCounts, levelCounts', total, total');
  }

  /** The rows of the endpoints `hs`, in order. */
  function DataRows(t: Table, hs: seq<string>): (rows: seq<seq<Entry>>)
    ensures |rows| == |hs|
    decreases |hs|
  {
    if hs == [] then [] else DataRows(t, hs[..|hs| - 1]) + [DataRow(t, hs[|hs| - 1])]
  }

  lemma {:induction false} DataRowsIndex(t: Table, hs: seq<string>, i: nat)
    requires i < |hs|
    ensures DataRows(t, hs)[i] == DataRow(t, hs[i])
    decreases |hs|
  {
    if i < |hs| - 1 {
      DataRowsIndex(t, hs[..|hs| - 1], i);
    }
  }

  /**
   * The state of `create_report` after the first `i` endpoints of `hs`: the widths scanned
   * so far, each level's total and the grand total over those endpoints, and the header
   * followed by their rows.
   */
  ghost predicate Accumulated(t: Table, hs: seq<string>, i: nat, w: seq<nat>, levelCounts: map<string, nat>,
                              total: nat, rows: seq<seq<Entry>>)
    requires i <= |hs|
  {
    && w == WidthsOver(t, hs[..i])
    && (forall k :: 0 <= k < 5 ==> Get(levelCounts, LogLevels[k]) == LevelSum(t, hs[..i], LogLevels[k]))
    && total == TableSum(t, hs[..i], LogLevels)
    && rows == [HeaderRow()] + DataRows(t, hs[..i])
  }

  /** One more endpoint, handled as `AddHandlerRow` does, keeps the state accumulated. */
  lemma AccumulateStep(t: Table, hs: seq<string>, i: nat, w: seq<nat>, levelCounts: map<string, nat>,
                       total: nat, rows: seq<seq<Entry>>,
                       w': seq<nat>, levelCounts': map<string, nat>, total': nat, row: seq<Entry>)
    requires i < |hs| && |w| == Columns && Accumulated(t, hs, i, w, levelCounts, total, rows)
    requires row == DataRow(t, hs[i]) && w' == ScanRow(w, row, 5)
    requires forall k :: 0 <= k < 5 ==>
      Get(levelCounts', LogLevels[k]) == Get(levelCounts, LogLevels[k]) + Cell(t, hs[i], LogLevels[k])
    requires total' == total + RowSum(t, hs[i], LogLevels)
    ensures Accumulated(t, hs, i + 1, w', levelCounts', total', rows + [row])
  {
    PrefixStep(hs, i);
    WidthsStep(t, hs, i);
    LevelsStep(t, hs, i);
    TotalStep(t, hs, i);
    RowsStep(t, hs, i, rows);
  }

  lemma WidthsStep(t: Table, hs: seq<string>, i: nat)
    requires i < |hs| && |hs[..i + 1]| == i + 1 && hs[..i + 1][..i] == hs[..i] && hs[..i + 1][i] == hs[i]
    ensures WidthsOver(t, hs[..i + 1]) == ScanRow(WidthsOver(t, hs[..i]), DataRow(t, hs[i]), 5)
  {
  }

  lemma LevelsStep(t: Table, hs: seq<string>, i: nat)
    requires i < |hs| && |hs[..i + 1]| == i + 1 && hs[..i + 1][..i] == hs[..i] && hs[..i + 1][i] == hs[i]
    ensures forall k :: 0 <= k < 5 ==>
      LevelSum(t, hs[..i + 1], LogLevels[k]) == LevelSum(t, hs[..i], LogLevels[k]) + Cell(t, hs[i], LogLevels[k])
  {
  }

  lemma TotalStep(t: Table, hs: seq<string>, i: nat)
    requires i < |hs| && |hs[..i + 1]| == i + 1 && hs[..i + 1][..i] == hs[..i] && hs[..i + 1][i] == hs[i]
    ensures TableSum(t, hs[..i + 1], LogLevels) == TableSum(t, hs[..i], LogLevels) + RowSum(t, hs[i], LogLevels)
  {
  }

  lemma RowsStep(t: Table, hs: seq<string>, i: nat, rows: seq<seq<Entry>>)
    requires i < |hs| && |hs[..i + 1]| == i + 1 && hs[..i + 1][..i] == hs[..i] && hs[..i + 1][i] == hs[i]
    requires rows == [HeaderRow()] + DataRows(t, hs[..i])
    ensures rows + [DataRow(t, hs[i])] == [HeaderRow()] + DataRows(t, hs[..i + 1])
  {
    assert DataRows(t, hs[..i + 1]) == DataRows(t, hs[..i]) + [DataRow(t, hs[i])];
  }

  /** The first `i + 1` endpoints are the first `i`, then the `i`-th. */
  lemma PrefixStep(hs: seq<string>, i: nat)
    requires i < |hs|
    ensures |hs[..i + 1]| == i + 1 && hs[..i + 1][..i] == hs[..i] && hs[..i + 1][i] == hs[i]
  {
  }

  /** Once every endpoint is handled, the state is that of the whole table. */
  lemma AccumulatedAll(t: Table, hs: seq<string>, w: seq<nat>, levelCounts: map<string, nat>,
                       total: nat, rows: seq<seq<Entry>>)
    requires Accumulated(t, hs, |hs|, w, levelCounts, total, rows)
    ensures w == WidthsOver(t, hs) && total == TableSum(t, hs, LogLevels)
    ensures forall k :: 0 <= k < 5 ==> Get(levelCounts, LogLevels[k]) == LevelSum(t, hs, LogLevels[k])
    ensures rows == [HeaderRow()] + DataRows(t, hs)
  {
    assert hs[..|hs|] == hs;
  }

  /** The first line of a report on the table of `lines` gives the number of request lines. */
  lemma ReportTotalIsRequestLines(lines: seq<string>)
    ensures var t := Count(lines);
      TotalLine(TableSum(t, SortedKeys(t.Keys), LogLevels)) == TotalLine(RequestLines(lines))
  {
    var t := Count(lines);
    SortedKeysDistinct(t.Keys);
    TableSumIsRequestLines(lines, SortedKeys(t.Keys));
  }

  /** In a report on the table of `lines`, the row of `h` counts its request lines at each level. */
  lemma DataRowCountsLines(lines: seq<string>, h: string, k: nat)
    requires k < 5
    ensures DataRow(Count(lines), h)[k + 1] == Int(Occurrences(lines, h, LogLevels[k]))
  {
    CountCell(lines, h, LogLevels[k]);
  }

  /** In a report on the table of `lines`, the totals row counts the request lines of each level. */
  lemma TotalsRowCountsLines(lines: seq<string>, k: nat)
    requires k < 5
    ensures var t := Count(lines);
      TotalsRow(t, SortedKeys(t.Keys))[k + 1] == Int(LevelLines(lines, LogLevels[k]))
  {
    var t := Count(lines);
    SortedKeysDistinct(t.Keys);
    LevelSumIsLevelLines(lines, SortedKeys(t.Keys), LogLevels[k]);
  }

  /** `[... for row in rows]`: every row rendered with the widths `w`. */
  function RenderRows(rows: seq<seq<Entry>>, w: seq<nat>): (lines: seq<string>)
    ensures |lines| == |rows| && forall k :: 0 <= k < |rows| ==> lines[k] == RenderRow(rows[k], w)
  {
    seq(|rows|, k requires 0 <= k < |rows| => RenderRow(rows[k], w))
  }

  /** A first line, then the header, the given rows and a last row, all rendered with `w`. */
  function Layout(first: string, header: seq<Entry>, rows: seq<seq<Entry>>, last: seq<Entry>, w: seq<nat>): seq<string> {
    [first] + RenderRows([header] + rows + [last], w)
  }

  /** The lines of a layout one by one. */
  lemma LayoutLines(first: string, header: seq<Entry>, rows: seq<seq<Entry>>, last: seq<Entry>, w: seq<nat>)
    ensures var report := Layout(first, header, rows, last, w);
      && |report| == |rows| + 3
      && report[0] == first
      && report[1] == RenderRow(header, w)
      && (forall i :: 0 <= i < |rows| ==> report[i + 2] == RenderRow(rows[i], w))
      && report[|rows| + 2] == RenderRow(last, w)
  {
    var all := [header] + rows + [last];
    var lines := RenderRows(all, w);
    assert Layout(first, header, rows, last, w) == [first] + lines;
    assert |all| == |rows| + 2;
    assert all[0] == header;
    assert all[|rows| + 1] == last;
    forall i | 0 <= i < |rows| ensures lines[i + 1] == RenderRow(rows[i], w) {
      assert all[i + 1] == rows[i];
    }
  }

  /**
   * The report on table `t`: the grand total line, then the header, the rows of the
   * endpoints in sorted order and the totals row, rendered with the column widths.
   */
  function ReportOf(t: Table): seq<string> {
    var hs := SortedKeys(t.Keys);
    Layout(TotalLine(TableSum(t, hs, LogLevels)), HeaderRow(), DataRows(t, hs), TotalsRow(t, hs), ColumnWidths(t))
  }

  /** The lines of the report one by one. */
  lemma ReportLines(t: Table)
    ensures var hs, w, report := SortedKeys(t.Keys), ColumnWidths(t), ReportOf(t);
      && |report| == |hs| + 3
      && report[0] == TotalLine(TableSum(t, hs, LogLevels))
      && report[1] == RenderRow(HeaderRow(), w)
      && (forall i :: 0 <= i < |hs| ==> report[i + 2] == RenderRow(DataRow(t, hs[i]), w))
      && report[|hs| + 2] == RenderRow(TotalsRow(t, hs), w)
  {
    var hs, w := SortedKeys(t.Keys), ColumnWidths(t);
    var first, rows, last := TotalLine(TableSum(t, hs, LogLevels)), DataRows(t, hs), TotalsRow(t, hs);
    assert ReportOf(t) == Layout(first, HeaderRow(), rows, last, w);
    LayoutLines(first, HeaderRow(), rows, last, w);
    var report := ReportOf(t);
    forall i | 0 <= i < |hs| ensures report[i + 2] == RenderRow(DataRow(t, hs[i]), w) {
      DataRowsIndex(t, hs, i);
      assert report[i + 2] == RenderRow(rows[i], w);
    }
  }

  /** `create_report(stats)`, proved to produce the report on `stats`. */
  method CreateReport(stats: Table) returns (report: seq<string>)
    ensures report == ReportOf(stats)
  {
    var sortedHandlers := SortedKeys(stats.Keys);
    var levelCounts: map<string, nat> := map[];
    var total: nat := 0;
    var header := HeaderRow();
    var rows: seq<seq<Entry>> := [header];
    var initial := InitialWidths();
    var colWidths := new nat[Columns](c requires 0 <= c < Columns => initial[c]);
    assert colWidths[..] == initial;
    var i := 0;
    while i < |sortedHandlers|
      invariant 0 <= i <= |sortedHandlers|
      invariant Accumulated(stats, sortedHandlers, i, colWidths[..], levelCounts, total, rows)
    {
      ghost var w, counts, sum := colWidths[..], levelCounts, total;
      var row;
      row, levelCounts, total := AddHandlerRow(colWidths, stats, sortedHandlers[i], levelCounts, total);
      AccumulateStep(stats, sortedHandlers, i, w, counts, sum, rows, colWidths[..], levelCounts, total, row);
      rows := rows + [row];
      i := i + 1;
    }
    AccumulatedAll(stats, sortedHandlers, colWidths[..], levelCounts, total, rows);
    var totalByLvlRow := CountsRow(levelCounts);
    CountsRowIsTotalsRow(levelCounts, stats, sortedHandlers);
    rows := rows + [totalByLvlRow];
    var formattedRows := RenderRows(rows, colWidths[..]);
    report := [TotalLine(total)] + formattedRows;
    assert report == Layout(TotalLine(total), header, DataRows(stats, sortedHandlers), totalByLvlRow, colWidths[..]);
  }
}
