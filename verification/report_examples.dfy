/** The report on the sample tables of the analyzer's own test suite. */
module ReportExamples {
  import opened LogLine
  import opened Statistics
  import opened Text
  import opened Report

  /** An empty table: three lines (the total, the header and the totals row), a grand total of 0. */
  lemma EmptyReportLines()
    ensures |ReportOf(map[])| == 3 && ReportOf(map[])[0] == "Total requests: 0\n"
  {
    var t: Table := map[];
    EmptyReport(0);
    ReportLines(t);
  }

  /** An empty table: no endpoint rows, a grand total of 0, and zeros in the totals row. */
  lemma EmptyReport(k: nat)
    requires k < 5
    ensures var t: Table := map[];
      && SortedKeys(t.Keys) == []
      && TotalLine(TableSum(t, SortedKeys(t.Keys), LogLevels)) == "Total requests: 0\n"
      && TotalsRow(t, SortedKeys(t.Keys))[k + 1] == Int(0)
  {
    var t: Table := map[];
    assert t.Keys == {};
    assert NatToString(0) == "0";
  }

  /** The table of the basic case: one handler with 3 INFO and 2 ERROR requests. */
  const Basic: Table := map["handler1" := map["INFO" := 3, "ERROR" := 2]]

  lemma BasicKeys()
    ensures SortedKeys(Basic.Keys) == ["handler1"]
  {
    assert Basic.Keys == {"handler1"};
    var hs := SortedKeys(Basic.Keys);
    assert |hs| == 1 && "handler1" in hs;
  }

  /** The basic case: four lines, the first of them giving a grand total of 5. */
  lemma BasicReportLines()
    ensures |ReportOf(Basic)| == 4 && ReportOf(Basic)[0] == "Total requests: 5\n"
  {
    BasicKeys();
    BasicReport();
    ReportLines(Basic);
  }

  /** The basic case: a grand total of 5, and 3 and 2 under INFO and ERROR in both rows. */
  lemma BasicReport()
    ensures TotalLine(TableSum(Basic, SortedKeys(Basic.Keys), LogLevels)) == "Total requests: 5\n"
    ensures DataRow(Basic, "handler1")[2] == Int(3) && DataRow(Basic, "handler1")[4] == Int(2)
    ensures TotalsRow(Basic, SortedKeys(Basic.Keys))[2] == Int(3)
    ensures TotalsRow(Basic, SortedKeys(Basic.Keys))[4] == Int(2)
  {
    BasicKeys();
    var hs := ["handler1"];
    assert hs[..0] == [];
    RowSumOfLevels(Basic, "handler1");
    assert NatToString(5) == "5";
  }
}
