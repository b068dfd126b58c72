/** The statistics on the sample lines of the analyzer's own test suite. */
module StatisticsExamples {
  import opened Wrappers
  import opened LogLine
  import opened LogLineExamples
  import opened Statistics

  /** The time stamps of the second and third sample lines. */
  const Stamp2: string := "2025-03-28 " + "12:11:57,000 "
  const Stamp3: string := "2025-03-28 " + "12:05:13,000 "

  const Reviews: string := "/api/v1/reviews/"
  const Dashboard: string := "/admin/dashboard/"

  const First: string := RequestLine(Stamp, "INFO", "GET", Reviews, " 204 OK [192.168.1.59]")
  const Second: string := RequestLine(Stamp2, "ERROR", MethodsAsLogged[5], Dashboard, "")
  const Third: string := RequestLine(Stamp3, "INFO", "GET", Reviews, " 201 OK [192.168.1.97]")

  lemma FirstEvent()
    ensures Event(First) == Some((Reviews, "INFO"))
  {
    var post := " 204 OK [192.168.1.59]";
    StampHasNoLevelInitial();
    assert IsEndpoint(Reviews) && IsSpace(post[0]);
    RequestLineEvent(Stamp, "INFO", "GET", Reviews, post);
  }

  lemma Stamp2HasNoLevelInitial()
    ensures forall c :: c in Stamp2 ==> c !in LevelInitials
  {
    assert Stamp2 == "2025-03-28 12:11:57,000 ";
  }

  lemma SecondEvent()
    ensures Event(Second) == Some((Dashboard, "ERROR"))
  {
    Stamp2HasNoLevelInitial();
    assert IsEndpoint(Dashboard);
    RequestLineEvent(Stamp2, "ERROR", MethodsAsLogged[5], Dashboard, "");
  }

  lemma Stamp3HasNoLevelInitial()
    ensures forall c :: c in Stamp3 ==> c !in LevelInitials
  {
    assert Stamp3 == "2025-03-28 12:05:13,000 ";
  }

  lemma ThirdEvent()
    ensures Event(Third) == Some((Reviews, "INFO"))
  {
    var post := " 201 OK [192.168.1.97]";
    Stamp3HasNoLevelInitial();
    assert IsEndpoint(Reviews) && IsSpace(post[0]);
    RequestLineEvent(Stamp3, "INFO", "GET", Reviews, post);
  }

  /** One more line that is a request for `h` at `lv` counts one more for `h` at `lv`. */
  lemma CountOneMore(lines: seq<string>, line: string, h: string, lv: string)
    requires Event(line) == Some((h, lv))
    ensures Count(lines + [line]) == Increment(Count(lines), h, lv)
  {
    assert (lines + [line])[..|lines|] == lines;
  }

  /** Two requests for one path at INFO around a server error on another path. */
  lemma ThreeIncrements(r: string, d: string)
    requires r != d
    ensures var t := Increment(Increment(Increment(map[], r, "INFO"), d, "ERROR"), r, "INFO");
      Cell(t, r, "INFO") == 2 && Cell(t, d, "ERROR") == 1 && t.Keys == {r, d}
  {
  }

  lemma FirstCounted()
    ensures Count([First]) == Increment(map[], Reviews, "INFO")
  {
    FirstEvent();
    CountOneMore([], First, Reviews, "INFO");
    assert [] + [First] == [First];
  }

  lemma SecondCounted()
    ensures Count([First, Second]) == Increment(Count([First]), Dashboard, "ERROR")
  {
    SecondEvent();
    CountOneMore([First], Second, Dashboard, "ERROR");
    assert [First] + [Second] == [First, Second];
  }

  lemma ThirdCounted()
    ensures Count([First, Second, Third]) == Increment(Count([First, Second]), Reviews, "INFO")
  {
    ThirdEvent();
    CountOneMore([First, Second], Third, Reviews, "INFO");
    assert [First, Second] + [Third] == [First, Second, Third];
  }

  /** The sample lines give 2 for the reviews path at INFO and 1 for the dashboard at ERROR. */
  lemma SampleCounts()
    ensures var t := Count([First, Second, Third]);
      Cell(t, Reviews, "INFO") == 2 && Cell(t, Dashboard, "ERROR") == 1 && t.Keys == {Reviews, Dashboard}
  {
    FirstCounted();
    SecondCounted();
    ThirdCounted();
    ThreeIncrements(Reviews, Dashboard);
  }

  /** With no lines to read, the table is empty. */
  lemma NoLinesNoStatistics(files: seq<Option<seq<string>>>)
    requires TotalLength(files) == 0
    ensures Count(ReadFiles(files)) == map[]
  {
  }
}
