/** The matcher on the sample lines of the analyzer's own test suite. */
module LogLineExamples {
  import opened Wrappers
  import opened LogLine

  /** The time stamp Django's formatter writes before the level. */
  const Stamp: string := "2025-03-28 " + "12:44:46,000 "

  lemma StampHasNoLevelInitial()
    ensures forall c :: c in Stamp ==> c !in LevelInitials
  {
    assert Stamp == "2025-03-28 12:44:46,000 ";
  }

  /** `INFO django.request: GET /api/users`: a request line without time stamp or status. */
  lemma PlainGetParses()
    ensures ParseLogLine(RequestLine("", "INFO", "GET", "/api/users", ""), {LogLevel, Endpoint})
      == Some(map[LogLevel := "INFO", Endpoint := "/api/users"])
  {
    var line := RequestLine("", "INFO", "GET", "/api/users", "");
    assert IsEndpoint("/api/users");
    RequestLineHasLayout("", "INFO", "GET", "/api/users", "");
    RequestLayoutParses(line, 0, "INFO", "GET", "/api/users");
  }

  /** A GET line with time stamp, status and client address yields the path without them. */
  lemma StampedGetParses()
    ensures ParseLogLine(RequestLine(Stamp, "INFO", "GET", "/api/v1/reviews/", " 204 OK [192.168.1.59]"),
      {LogLevel, Endpoint}) == Some(map[LogLevel := "INFO", Endpoint := "/api/v1/reviews/"])
  {
    var ep, post := "/api/v1/reviews/", " 204 OK [192.168.1.59]";
    StampHasNoLevelInitial();
    assert IsEndpoint(ep);
    assert IsSpace(post[0]);
    RequestLineHasLayout(Stamp, "INFO", "GET", ep, post);
    RequestLayoutParses(RequestLine(Stamp, "INFO", "GET", ep, post), |Stamp|, "INFO", "GET", ep);
  }

  /** The time stamp of the server error line. */
  const ErrorStamp: string := "2025-03-28 " + "12:26:26,000 "

  lemma ErrorStampHasNoLevelInitial()
    ensures forall c :: c in ErrorStamp ==> c !in LevelInitials
  {
    assert ErrorStamp == "2025-03-28 12:26:26,000 ";
  }

  /** A server error line yields the path after `Internal Server Error:`. */
  lemma ServerErrorParses()
    ensures ParseLogLine(RequestLine(ErrorStamp, "ERROR", MethodsAsLogged[5], "/api/v1/checkout/", " [192.168.1.90]"),
      {LogLevel, Endpoint}) == Some(map[LogLevel := "ERROR", Endpoint := "/api/v1/checkout/"])
  {
    var m, ep, post := MethodsAsLogged[5], "/api/v1/checkout/", " [192.168.1.90]";
    ErrorStampHasNoLevelInitial();
    assert IsEndpoint(ep);
    assert IsSpace(post[0]);
    RequestLineHasLayout(ErrorStamp, "ERROR", m, ep, post);
    RequestLayoutParses(RequestLine(ErrorStamp, "ERROR", m, ep, post), |ErrorStamp|, "ERROR", m, ep);
  }

  /** A line without a level token and request marker yields nothing. */
  lemma InvalidLineDoesNotMatch()
    ensures ParseLogLine("Some invalid log line", {LogLevel, Endpoint}) == None
  {
    MatchNeedsRequestMarker("Some invalid log line");
  }

  /** A `django.security` line of the test suite (written in pieces only to keep the proof small). */
  const SecurityLine: string :=
    "2025-03-28 12:13:21,000 " + "WARNING django.security: " + "ConnectionError: " + "Failed to connect " + "to payment gateway"

  /** A `django.security` line is not a request line. */
  lemma SecurityLineDoesNotMatch()
    ensures ParseLogLine(SecurityLine, {LogLevel, Endpoint}) == None
  {
    MatchNeedsRequestMarker(SecurityLine);
  }
}
