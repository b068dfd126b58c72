/**
 * The line matcher of the analyzer: `parse_log_line` searches one log line for
 * the fixed pattern
 *
 *   (?P<log_level>DEBUG|INFO|WARNING|ERROR|CRITICAL).*?django\.request:
 *   \s(?:GET|POST|PUT|DELETE|PATCH|Internal\sServer\sError:)\s(?P<endpoint>/[^\s]+)
 *
 * with Python's `re.search` semantics (leftmost start, alternatives tried in
 * order, lazy gap, greedy endpoint). The pattern is hand-written here as
 * functions over `string`; `Matches` is the declarative reading of the
 * pattern and `Search` is proved to return its leftmost, shortest-gap match.
 */
module LogLine {
  import opened Wrappers

  /** The severity levels in their fixed report order. */
  const LogLevels: seq<string> := ["DEBUG", "INFO", "WARNING", "ERROR", "CRITICAL"]

  /** The literal `django\.request:` of the pattern. */
  const RequestMarker: string := "django.request:"

  /** The literal HTTP method alternatives, in pattern order. */
  const HttpMethods: seq<string> := ["GET", "POST", "PUT", "DELETE", "PATCH"]

  /** Length of the alternative `Internal\sServer\sError:`. */
  const ServerErrorLength: nat := 22

  /** Python's `\s` on `str` patterns: the characters for which `str.isspace()` holds. */
  predicate IsSpace(c: char) {
    var n := c as int;
    (0x09 <= n <= 0x0D) || (0x1C <= n <= 0x20) || n == 0x85 || n == 0xA0 || n == 0x1680
    || (0x2000 <= n <= 0x200A) || n == 0x2028 || n == 0x2029 || n == 0x202F
    || n == 0x205F || n == 0x3000
  }

  /** `word` occurs in `line` starting at position `p`. */
  predicate HasAt(line: string, p: nat, word: string) {
    p + |word| <= |line| && line[p..p + |word|] == word
  }

  /** An alternation of literal words: the first of `words` that occurs at `p`. */
  function FirstWordAt(line: string, p: nat, words: seq<string>): (r: Option<string>)
    ensures r.Some? ==> r.value in words && HasAt(line, p, r.value)
    ensures r.None? ==> forall w :: w in words ==> !HasAt(line, p, w)
  {
    if words == [] then None
    else if HasAt(line, p, words[0]) then Some(words[0])
    else FirstWordAt(line, p, words[1..])
  }

  /** No level token is a prefix of another: at one position at most one level occurs. */
  lemma LevelsAreNotPrefixes(line: string, p: nat, a: string, b: string)
    requires a in LogLevels && b in LogLevels
    requires HasAt(line, p, a) && HasAt(line, p, b)
    ensures a == b
  {
    assert a[0] == line[p] == b[0];
  }

  /** The group `log_level`: the level alternation tried at position `p`. */
  function LevelAt(line: string, p: nat): (r: Option<string>)
    ensures r.Some? ==> r.value in LogLevels && HasAt(line, p, r.value)
    ensures forall lv :: lv in LogLevels && HasAt(line, p, lv) ==> r == Some(lv)
    ensures r.None? ==> forall lv :: lv in LogLevels ==> !HasAt(line, p, lv)
  {
    var r := FirstWordAt(line, p, LogLevels);
    if r.Some? then
      forall lv | lv in LogLevels && HasAt(line, p, lv) ensures r == Some(lv) {
        LevelsAreNotPrefixes(line, p, lv, r.value);
      }
      r
    else r
  }

  /** The alternative `Internal\sServer\sError:` occurs at `p`. */
  predicate ServerErrorAt(line: string, p: nat) {
    HasAt(line, p, "Internal") && p + 8 < |line| && IsSpace(line[p + 8])
    && HasAt(line, p + 9, "Server") && p + 15 < |line| && IsSpace(line[p + 15])
    && HasAt(line, p + 16, "Error:")
  }

  /** One of the six method/marker alternatives, `n` characters long, occurs at `p`. */
  predicate MethodToken(line: string, p: nat, n: nat) {
    (exists m :: m in HttpMethods && |m| == n && HasAt(line, p, m))
    || (n == ServerErrorLength && ServerErrorAt(line, p))
  }

  /** The six alternatives are pairwise not prefixes of each other. */
  lemma MethodsAreNotPrefixes(line: string, p: nat, a: string, b: string)
    requires a in HttpMethods && b in HttpMethods
    requires HasAt(line, p, a) && HasAt(line, p, b)
    ensures a == b
  {
    assert a[0] == line[p] == b[0];
    assert a[1] == line[p + 1] == b[1];
  }

  /** `Internal\sServer\sError:` and an HTTP method never start at the same position. */
  lemma ServerErrorIsNoHttpMethod(line: string, p: nat, m: string)
    requires m in HttpMethods
    ensures ServerErrorAt(line, p) ==> !HasAt(line, p, m)
  {
    if ServerErrorAt(line, p) {
      assert line[p] == 'I';
    }
  }

  /** The method alternation at `p`: the length of the alternative that matches. */
  function MethodAt(line: string, p: nat): (r: Option<nat>)
    ensures r.Some? ==> MethodToken(line, p, r.value)
    ensures forall n: nat :: MethodToken(line, p, n) ==> r == Some(n)
  {
    match FirstWordAt(line, p, HttpMethods)
    case Some(m) =>
      forall n: nat | MethodToken(line, p, n) ensures Some(|m|) == Some(n) {
        if m' :| m' in HttpMethods && |m'| == n && HasAt(line, p, m') {
          MethodsAreNotPrefixes(line, p, m, m');
        } else {
          ServerErrorIsNoHttpMethod(line, p, m);
        }
      }
      Some(|m|)
    case None =>
      if ServerErrorAt(line, p) then Some(ServerErrorLength) else None
  }

  /** The greedy `[^\s]+`: the end of the maximal run of non-whitespace starting at `p`. */
  function RunEnd(line: string, p: nat): (e: nat)
    requires p <= |line|
    ensures p <= e <= |line|
    ensures forall q :: p <= q < e ==> !IsSpace(line[q])
    ensures e == |line| || IsSpace(line[e])
    decreases |line| - p
  {
    if p < |line| && !IsSpace(line[p]) then RunEnd(line, p + 1) else p
  }

  /** A maximal run of non-whitespace ends at exactly one position. */
  lemma RunEndIsUnique(line: string, p: nat, e: nat)
    requires p <= e <= |line|
    requires forall q :: p <= q < e ==> !IsSpace(line[q])
    requires e == |line| || IsSpace(line[e])
    ensures RunEnd(line, p) == e
  {
  }

  /** The shape of a captured endpoint: `/` then one or more non-whitespace characters. */
  predicate IsEndpoint(ep: string) {
    |ep| >= 2 && ep[0] == '/' && forall q :: 1 <= q < |ep| ==> !IsSpace(ep[q])
  }

  /**
   * `\s(?P<endpoint>/[^\s]+)` matches at `p` and captures `ep`: the greedy group
   * takes the whole run of non-whitespace after the `/`.
   */
  predicate SpacedEndpoint(line: string, p: nat, ep: string) {
    p < |line| && IsSpace(line[p]) && IsEndpoint(ep) && HasAt(line, p + 1, ep)
    && (p + 1 + |ep| == |line| || IsSpace(line[p + 1 + |ep|]))
  }

  /** `\s(?P<endpoint>/[^\s]+)` tried at `p`. */
  function SpacedEndpointAt(line: string, p: nat): (r: Option<string>)
    ensures r.Some? ==> SpacedEndpoint(line, p, r.value)
    ensures forall ep :: SpacedEndpoint(line, p, ep) ==> r == Some(ep)
  {
    if p + 2 < |line| && IsSpace(line[p]) && line[p + 1] == '/' then
      var end := RunEnd(line, p + 2);
      if end == p + 2 then None
      else
        forall ep | SpacedEndpoint(line, p, ep) ensures ep == line[p + 1..end] {
          RunEndIsUnique(line, p + 2, p + 1 + |ep|);
        }
        Some(line[p + 1..end])
    else None
  }

  /** A method alternative `n` characters long at `p`, then whitespace and the endpoint `ep`. */
  predicate MethodThenEndpoint(line: string, p: nat, n: nat, ep: string) {
    MethodToken(line, p, n) && SpacedEndpoint(line, p + n, ep)
  }

  /** `\s(?:GET|...|Internal\sServer\sError:)\s(?P<endpoint>/[^\s]+)` without its first whitespace. */
  ghost predicate MethodClause(line: string, p: nat, ep: string) {
    exists n: nat :: MethodThenEndpoint(line, p, n, ep)
  }

  /**
   * The part of the pattern after the lazy gap matches at `k`, capturing `ep`:
   * `django\.request:`, one whitespace, a method alternative, one whitespace, the endpoint.
   */
  ghost predicate RequestAt(line: string, k: nat, ep: string) {
    HasAt(line, k, RequestMarker) && k + 15 < |line| && IsSpace(line[k + 15])
    && MethodClause(line, k + 16, ep)
  }

  /** `r` is the tail's outcome at `k`: the endpoint it captures, or nothing when it does not match there. */
  ghost predicate TailResult(line: string, k: nat, r: Option<string>) {
    && (r.Some? ==> RequestAt(line, k, r.value))
    && (forall ep :: RequestAt(line, k, ep) ==> r == Some(ep))
  }

  /** The part of the pattern after the lazy gap, tried at position `k`; yields the endpoint. */
  function TailAt(line: string, k: nat): (r: Option<string>)
    ensures TailResult(line, k, r)
  {
    if HasAt(line, k, RequestMarker) && k + 15 < |line| && IsSpace(line[k + 15]) then
      match MethodAt(line, k + 16)
      case None =>
        NoMethodNoTail(line, k);
        None
      case Some(n) =>
        MethodThenTail(line, k, n);
        SpacedEndpointAt(line, k + 16 + n)
    else None
  }

  /** Without a method alternative after `django.request:` and whitespace, the tail fails. */
  lemma NoMethodNoTail(line: string, k: nat)
    requires MethodAt(line, k + 16).None?
    ensures TailResult(line, k, None)
  {
    forall ep ensures !RequestAt(line, k, ep) {
      MethodClauseNeedsMethod(line, k + 16, ep);
    }
  }

  /** The method clause starts with a method alternative. */
  lemma MethodClauseNeedsMethod(line: string, p: nat, ep: string)
    ensures MethodClause(line, p, ep) ==> MethodAt(line, p).Some?
  {
    if MethodClause(line, p, ep) {
      var n :| MethodThenEndpoint(line, p, n, ep);
    }
  }

  /** After the method alternative, the tail captures whatever path follows it. */
  lemma MethodThenTail(line: string, k: nat, n: nat)
    requires HasAt(line, k, RequestMarker) && k + 15 < |line| && IsSpace(line[k + 15])
    requires MethodAt(line, k + 16) == Some(n)
    ensures TailResult(line, k, SpacedEndpointAt(line, k + 16 + n))
  {
    var r := SpacedEndpointAt(line, k + 16 + n);
    forall ep | RequestAt(line, k, ep) ensures r == Some(ep) {
      var n' :| MethodThenEndpoint(line, k + 16, n', ep);
    }
    assert r.Some? ==> MethodThenEndpoint(line, k + 16, n, r.value);
  }

  /** No newline in `line[from..to]`: the lazy `.*?` may span exactly these positions. */
  predicate NoNewline(line: string, from: nat, to: nat) {
    from <= to <= |line| && forall q :: from <= q < to ==> line[q] != '\n'
  }

  /**
   * `r` is the outcome of the lazy gap `.*?` from `p`: the first position reachable over
   * non-newline characters at which the tail matches, or nothing when there is none.
   */
  ghost predicate GapResult(line: string, p: nat, r: Option<nat>) {
    && (r.Some? ==> NoNewline(line, p, r.value) && TailAt(line, r.value).Some?)
    && (r.Some? ==> forall q :: p <= q < r.value ==> TailAt(line, q).None?)
    && (r.None? ==> forall q: nat :: NoNewline(line, p, q) ==> TailAt(line, q).None?)
  }

  /** The lazy gap `.*?` starting at `p`, followed by the tail. */
  function LazyGap(line: string, p: nat): (r: Option<nat>)
    requires p <= |line|
    ensures GapResult(line, p, r)
    decreases |line| - p
  {
    if TailAt(line, p).Some? then
      Some(p)
    else if p < |line| && line[p] != '\n' then
      var r := LazyGap(line, p + 1);
      GapStep(line, p, r);
      r
    else
      GapBlocked(line, p);
      None
  }

  /** When the tail fails at `p`, the gap from `p` ends where the gap from `p + 1` ends. */
  lemma GapStep(line: string, p: nat, r: Option<nat>)
    requires p < |line| && line[p] != '\n' && TailAt(line, p).None? && GapResult(line, p + 1, r)
    ensures GapResult(line, p, r)
  {
    if r.None? {
      forall q: nat | NoNewline(line, p, q) ensures TailAt(line, q).None? {
        if q > p {
          assert NoNewline(line, p + 1, q);
        }
      }
    }
  }

  /** The gap cannot grow past a newline or the end of the line. */
  lemma GapBlocked(line: string, p: nat)
    requires p <= |line| && TailAt(line, p).None? && (p == |line| || line[p] == '\n')
    ensures GapResult(line, p, None)
  {
  }

  /** A match of the whole pattern: the level at `start`, the request marker at `marker`. */
  datatype Match = Match(start: nat, marker: nat, level: string, endpoint: string)

  /** The pattern matches with its level token at `s` and `django.request:` at `k`. */
  ghost predicate Matches(line: string, s: nat, k: nat, lv: string, ep: string) {
    lv in LogLevels && HasAt(line, s, lv) && NoNewline(line, s + |lv|, k) && RequestAt(line, k, ep)
  }

  /** A match has its level at `s` and the given captures. */
  ghost predicate IsMatch(line: string, m: Match) {
    Matches(line, m.start, m.marker, m.level, m.endpoint)
  }

  /** A match starts strictly inside the line: its level token is not empty. */
  lemma MatchStartsInside(line: string, s: nat, k: nat, lv: string, ep: string)
    ensures Matches(line, s, k, lv, ep) ==> s < |line|
  {
    if lv in LogLevels {
      assert |lv| >= 4;
    }
  }

  /**
   * `r` is the outcome of the attempt at start `s`: a match starting at `s` whose gap is
   * the shortest among the matches starting there, or nothing when none starts there.
   */
  ghost predicate AttemptResult(line: string, s: nat, r: Option<Match>) {
    && (r.Some? ==> r.value.start == s && IsMatch(line, r.value))
    && (r.Some? ==> forall k: nat, lv: string, ep: string :: Matches(line, s, k, lv, ep) ==> r.value.marker <= k)
    && (r.None? ==> forall k: nat, lv: string, ep: string :: !Matches(line, s, k, lv, ep))
  }

  /** The regex engine's attempt at start position `s`: the level, then the shortest gap. */
  function MatchAt(line: string, s: nat): (r: Option<Match>)
    requires s <= |line|
    ensures AttemptResult(line, s, r)
  {
    match LevelAt(line, s)
    case None => None
    case Some(lv) =>
      match LazyGap(line, s + |lv|)
      case None =>
        NoGapNoAttempt(line, s, lv);
        None
      case Some(k) =>
        ShortestGapAttempt(line, s, lv, k);
        Some(Match(s, k, lv, TailAt(line, k).value))
  }

  /** When the tail matches after no gap that follows the level, the attempt fails. */
  lemma NoGapNoAttempt(line: string, s: nat, lv: string)
    requires LevelAt(line, s) == Some(lv) && s + |lv| <= |line| && LazyGap(line, s + |lv|).None?
    ensures AttemptResult(line, s, None)
  {
    forall k: nat, lv': string, ep: string ensures !Matches(line, s, k, lv', ep) {
      TailNeedsMatch(line, s, k, lv', ep);
    }
  }

  /** A match at `s` and `k` makes the tail succeed at `k` after the level found at `s`. */
  lemma TailNeedsMatch(line: string, s: nat, k: nat, lv: string, ep: string)
    ensures Matches(line, s, k, lv, ep) ==>
      LevelAt(line, s) == Some(lv) && NoNewline(line, s + |lv|, k) && TailAt(line, k).Some?
  {
  }

  /** The attempt succeeds with the shortest gap after the level. */
  lemma ShortestGapAttempt(line: string, s: nat, lv: string, k: nat)
    requires LevelAt(line, s) == Some(lv) && s + |lv| <= |line| && LazyGap(line, s + |lv|) == Some(k)
    ensures AttemptResult(line, s, Some(Match(s, k, lv, TailAt(line, k).value)))
  {
    forall k': nat, lv': string, ep: string | Matches(line, s, k', lv', ep) ensures k <= k' {
      assert lv' == lv;
      assert TailAt(line, k') == Some(ep);
    }
  }

  /**
   * `r` is what `re.search` reports when it tries the start positions from `s` on:
   * a match starting at `s` or later that no match from `s` on precedes (earlier start,
   * or same start and a shorter gap), or nothing when no match starts at `s` or later.
   */
  ghost predicate FirstFrom(line: string, s: nat, r: Option<Match>) {
    && (r.Some? ==> s <= r.value.start && IsMatch(line, r.value))
    && (r.Some? ==> forall s': nat, k: nat, lv: string, ep: string :: s <= s' && Matches(line, s', k, lv, ep) ==>
         r.value.start < s' || (r.value.start == s' && r.value.marker <= k))
    && (r.None? ==> forall s': nat, k: nat, lv: string, ep: string :: s <= s' ==> !Matches(line, s', k, lv, ep))
  }

  /** `re.search` from start position `s` onward: the first start at which an attempt succeeds. */
  function SearchFrom(line: string, s: nat): (r: Option<Match>)
    requires s <= |line|
    ensures FirstFrom(line, s, r)
    decreases |line| - s
  {
    match MatchAt(line, s)
    case Some(m) =>
      AttemptIsFirst(line, s, m);
      Some(m)
    case None =>
      if s == |line| then
        NoMatchFromEnd(line);
        None
      else
        var r := SearchFrom(line, s + 1);
        SkipFailedAttempt(line, s, r);
        r
  }

  /** A successful attempt at `s` is the first match from `s` on. */
  lemma AttemptIsFirst(line: string, s: nat, m: Match)
    requires s <= |line| && MatchAt(line, s) == Some(m)
    ensures FirstFrom(line, s, Some(m))
  {
  }

  /** No match starts at the end of the line or beyond it. */
  lemma NoMatchFromEnd(line: string)
    ensures FirstFrom(line, |line|, None)
  {
    forall s': nat, k: nat, lv: string, ep: string ensures Matches(line, s', k, lv, ep) ==> s' < |line| {
      MatchStartsInside(line, s', k, lv, ep);
    }
  }

  /** When the attempt at `s` fails, the first match from `s` on is the first one from `s + 1` on. */
  lemma SkipFailedAttempt(line: string, s: nat, r: Option<Match>)
    requires s < |line| && MatchAt(line, s).None? && FirstFrom(line, s + 1, r)
    ensures FirstFrom(line, s, r)
  {
  }

  /** `log_pattern.search(line)`. */
  function Search(line: string): (r: Option<Match>)
    ensures FirstFrom(line, 0, r)
  {
    SearchFrom(line, 0)
  }

  /** `m` is the match `re.search` must report: no match starts earlier, none at its start has a shorter gap. */
  ghost predicate IsLeftmostMatch(line: string, m: Match) {
    IsMatch(line, m)
    && forall s: nat, k: nat, lv: string, ep: string :: Matches(line, s, k, lv, ep) ==>
         m.start < s || (m.start == s && m.marker <= k)
  }

  /** The start and the marker position of a match determine its two captures. */
  lemma {:induction false} MatchIsDetermined(line: string, s: nat, k: nat, lv1: string, ep1: string, lv2: string, ep2: string)
    requires Matches(line, s, k, lv1, ep1) && Matches(line, s, k, lv2, ep2)
    ensures lv1 == lv2 && ep1 == ep2
  {
    assert LevelAt(line, s) == Some(lv1) == Some(lv2);
    assert TailAt(line, k) == Some(ep1) == Some(ep2);
  }

  /** `Search` returns exactly the leftmost, shortest-gap match, and nothing when there is none. */
  lemma SearchIsLeftmostMatch(line: string)
    ensures forall m :: Search(line) == Some(m) <==> IsLeftmostMatch(line, m)
    ensures Search(line).None? <==>
      forall s: nat, k: nat, lv: string, ep: string :: !Matches(line, s, k, lv, ep)
  {
    var r := Search(line);
    forall m | IsLeftmostMatch(line, m) ensures r == Some(m) {
      var m0 := r.value;
      assert m0.start == m.start && m0.marker == m.marker;
      MatchIsDetermined(line, m.start, m.marker, m0.level, m0.endpoint, m.level, m.endpoint);
    }
  }

  /**
   * A match is the leftmost one when no level token occurs before its start and no
   * `django.request:` occurs inside its gap.
   */
  lemma {:induction false} LeftmostByEarlierAbsence(line: string, m: Match)
    requires IsMatch(line, m)
    requires forall s: nat, lv :: s < m.start && lv in LogLevels ==> !HasAt(line, s, lv)
    requires forall q: nat :: m.start + |m.level| <= q < m.marker ==> !HasAt(line, q, RequestMarker)
    ensures IsLeftmostMatch(line, m)
  {
    forall s: nat, k: nat, lv: string, ep: string | Matches(line, s, k, lv, ep)
      ensures m.start < s || (m.start == s && m.marker <= k)
    {
      if s == m.start {
        LevelsAreNotPrefixes(line, s, lv, m.level);
      }
    }
  }

  /** The named groups of the pattern that a caller can ask for. */
  datatype Group = LogLevel | Endpoint

  /**
   * `parse_log_line(line, match_groups)`: `None` when the pattern does not occur in
   * the line, otherwise a dictionary holding exactly the requested groups of the
   * leftmost match.
   */
  function ParseLogLine(line: string, groups: set<Group>): (r: Option<map<Group, string>>)
    ensures r.Some? ==> r.value.Keys == groups
    ensures r.Some? && LogLevel in groups ==> r.value[LogLevel] in LogLevels
    ensures r.Some? && Endpoint in groups ==> IsEndpoint(r.value[Endpoint])
  {
    match Search(line)
    case None => None
    case Some(m) => Some(Captures(m, groups))
  }

  /** `match.groupdict()` restricted to the requested groups. */
  function Captures(m: Match, groups: set<Group>): (r: map<Group, string>)
    ensures r.Keys == groups
    ensures LogLevel in groups ==> r[LogLevel] == m.level
    ensures Endpoint in groups ==> r[Endpoint] == m.endpoint
  {
    map g | g in groups :: if g == LogLevel then m.level else m.endpoint
  }

  lemma MarkerContainsQ(line: string, k: nat)
    requires HasAt(line, k, RequestMarker)
    ensures 'q' in line
  {
    assert line[k + 9] == RequestMarker[9];
  }

  /**
   * `parse_log_line` yields nothing exactly when the pattern occurs nowhere in the line,
   * and otherwise the requested captures of the leftmost, shortest-gap match.
   */
  lemma ParseLogLineIsLeftmostMatch(line: string, groups: set<Group>)
    ensures ParseLogLine(line, groups).None? <==>
      forall s: nat, k: nat, lv: string, ep: string :: !Matches(line, s, k, lv, ep)
    ensures forall m :: IsLeftmostMatch(line, m) ==>
      var r := ParseLogLine(line, groups);
      && r.Some?
      && (LogLevel in groups ==> r.value[LogLevel] == m.level)
      && (Endpoint in groups ==> r.value[Endpoint] == m.endpoint)
  {
    SearchIsLeftmostMatch(line);
  }

  /** The line with leftmost match `m` parses to the level and the endpoint of `m`. */
  lemma ParseOfLeftmostMatch(line: string, m: Match)
    requires IsLeftmostMatch(line, m)
    ensures ParseLogLine(line, {LogLevel, Endpoint}) == Some(map[LogLevel := m.level, Endpoint := m.endpoint])
  {
    SearchFindsLeftmostMatch(line, m);
    ParseOfSearch(line, m);
  }

  lemma SearchFindsLeftmostMatch(line: string, m: Match)
    requires IsLeftmostMatch(line, m)
    ensures Search(line) == Some(m)
  {
    SearchIsLeftmostMatch(line);
  }

  lemma ParseOfSearch(line: string, m: Match)
    requires Search(line) == Some(m)
    ensures ParseLogLine(line, {LogLevel, Endpoint}) == Some(map[LogLevel := m.level, Endpoint := m.endpoint])
  {
    CapturesOfBoth(m);
  }

  lemma CapturesOfBoth(m: Match)
    ensures Captures(m, {LogLevel, Endpoint}) == map[LogLevel := m.level, Endpoint := m.endpoint]
  {
    var c := Captures(m, {LogLevel, Endpoint});
    assert c.Keys == {LogLevel, Endpoint};
  }

  /** Every match contains `django.request:`, so a line without the letter `q` never matches. */
  lemma {:induction false} MatchNeedsRequestMarker(line: string)
    requires 'q' !in line
    ensures ParseLogLine(line, {LogLevel, Endpoint}).None?
  {
    forall s: nat, k: nat, lv: string, ep: string ensures !Matches(line, s, k, lv, ep) {
      if Matches(line, s, k, lv, ep) {
        MarkerContainsQ(line, k);
      }
    }
    ParseLogLineIsLeftmostMatch(line, {LogLevel, Endpoint});
  }

  /** A line in which `django.request:` occurs nowhere gives `None`. */
  lemma NoRequestMarkerNoParse(line: string)
    requires forall k: nat :: !HasAt(line, k, RequestMarker)
    ensures ParseLogLine(line, {LogLevel, Endpoint}).None?
  {
    ParseLogLineIsLeftmostMatch(line, {LogLevel, Endpoint});
  }

  /** The first letters of the level tokens; a level token can only start at one of them. */
  const LevelInitials: set<char> := {'D', 'I', 'W', 'E', 'C'}

  /** The method alternatives as they appear in a line (`\s` written as a space). */
  const MethodsAsLogged: seq<string> := HttpMethods + ["Internal" + " " + "Server" + " " + "Error:"]

  /** `w` occurs right after `a` in `a + w + b`. */
  lemma HasAtJoin(a: string, w: string, b: string)
    ensures HasAt(a + w + b, |a|, w)
  {
    assert (a + w + b)[|a|..|a| + |w|] == w;
  }

  /** `word` occurs at `p` and a space follows it. */
  predicate Spaced(line: string, p: nat, word: string) {
    HasAt(line, p, word) && p + |word| < |line| && line[p + |word|] == ' '
  }

  /** `w` followed by a space occurs right after `a` in `a + w + (" " + b)`. */
  lemma SpacedJoin(a: string, w: string, b: string)
    ensures Spaced(a + w + (" " + b), |a|, w)
  {
    HasAtJoin(a, w, " " + b);
    assert (a + w + (" " + b))[|a| + |w|] == (" " + b)[0];
  }

  /** The level at `s`, then a space. */
  predicate LevelPiece(line: string, s: nat, lv: string) {
    lv in LogLevels && Spaced(line, s, lv)
  }

  /** `django.request:` at `k`, then a space. */
  predicate MarkerPiece(line: string, k: nat) {
    Spaced(line, k, RequestMarker)
  }

  /** A method as logged at `p`, then a space. */
  predicate MethodPiece(line: string, p: nat, m: string) {
    m in MethodsAsLogged && Spaced(line, p, m)
  }

  /** The path at `p`, then the end of the line or whitespace. */
  predicate PathPiece(line: string, p: nat, ep: string) {
    IsEndpoint(ep) && HasAt(line, p, ep) && (p + |ep| == |line| || IsSpace(line[p + |ep|]))
  }

  /** No character before `s` can start a level token. */
  predicate NoLevelInitialBefore(line: string, s: nat) {
    forall q :: 0 <= q < s && q < |line| ==> line[q] !in LevelInitials
  }

  /**
   * The layout of the line Django writes for a request: no level initial before `s`,
   * the level at `s`, a space, `django.request:`, a space, the method or
   * `Internal Server Error:`, a space, the path, then the end of the line or whitespace.
   */
  predicate RequestLayout(line: string, s: nat, lv: string, m: string, ep: string) {
    && NoLevelInitialBefore(line, s)
    && LevelPiece(line, s, lv)
    && MarkerPiece(line, s + |lv| + 1)
    && MethodPiece(line, s + |lv| + 17, m)
    && PathPiece(line, s + |lv| + 18 + |m|, ep)
  }

  /** A method alternative as it appears in a line is matched by the method alternation. */
  lemma MethodAsLoggedIsToken(line: string, p: nat, m: string)
    requires m in MethodsAsLogged && HasAt(line, p, m)
    ensures MethodToken(line, p, |m|)
  {
    if m !in HttpMethods {
      assert m == MethodsAsLogged[5];
      ServerErrorAsLogged(line, p);
    }
  }

  /** `Internal Server Error:` in a line matches the alternative `Internal\sServer\sError:`. */
  lemma ServerErrorAsLogged(line: string, p: nat)
    requires HasAt(line, p, MethodsAsLogged[5])
    ensures ServerErrorAt(line, p)
  {
    var m := MethodsAsLogged[5];
    ServerErrorWords();
    HasAtInside(line, p, m, 0, 8);
    HasAtInside(line, p, m, 9, 15);
    HasAtInside(line, p, m, 16, 22);
    assert line[p + 8] == m[8] && line[p + 15] == m[15];
  }

  /** A piece of a word that occurs at `p` occurs at its offset from `p`. */
  lemma HasAtInside(line: string, p: nat, w: string, i: nat, j: nat)
    requires HasAt(line, p, w) && i <= j <= |w|
    ensures HasAt(line, p + i, w[i..j])
  {
    forall t | 0 <= t < j - i ensures line[p + i..p + j][t] == w[i..j][t] {
      assert w[i + t] == line[p..p + |w|][i + t];
    }
  }

  /** The words and spaces of `Internal Server Error:`. */
  lemma ServerErrorWords()
    ensures var m := MethodsAsLogged[5];
      && |m| == 22 && m[..8] == "Internal" && m[8] == ' '
      && m[9..15] == "Server" && m[15] == ' ' && m[16..] == "Error:"
  {
    var m := MethodsAsLogged[5];
    assert m == "Internal" + " " + "Server" + " " + "Error:";
  }

  /** A method as logged, a space and a path make the method clause. */
  lemma MethodPieces(line: string, p: nat, m: string, e: nat, ep: string)
    requires MethodPiece(line, p, m) && e == p + |m| + 1 && PathPiece(line, e, ep)
    ensures MethodClause(line, p, ep)
  {
    MethodAsLoggedIsToken(line, p, m);
    assert SpacedEndpoint(line, p + |m|, ep);
    assert MethodThenEndpoint(line, p, |m|, ep);
  }

  /** `django.request:`, a space and a method clause make the tail of the pattern. */
  lemma MarkerPieces(line: string, k: nat, p: nat, ep: string)
    requires MarkerPiece(line, k) && p == k + 16 && MethodClause(line, p, ep)
    ensures RequestAt(line, k, ep)
  {
  }

  /** A level, a space and the tail make a match. */
  lemma LevelPieces(line: string, s: nat, lv: string, k: nat, ep: string)
    requires LevelPiece(line, s, lv) && k == s + |lv| + 1 && RequestAt(line, k, ep)
    ensures Matches(line, s, k, lv, ep)
  {
    assert NoNewline(line, s + |lv|, k);
  }

  /** The pieces of a request line make a match at the level. */
  lemma LayoutMatches(line: string, s: nat, lv: string, m: string, ep: string)
    requires RequestLayout(line, s, lv, m, ep)
    ensures IsMatch(line, Match(s, s + |lv| + 1, lv, ep))
  {
    var k, p, e := s + |lv| + 1, s + |lv| + 17, s + |lv| + 18 + |m|;
    assert MethodPiece(line, p, m) && PathPiece(line, e, ep);
    MethodPieces(line, p, m, e, ep);
    MarkerPieces(line, k, p, ep);
    LevelPieces(line, s, lv, k, ep);
  }

  /** No level token starts where no level initial occurs. */
  lemma NoLevelBefore(line: string, s: nat)
    requires NoLevelInitialBefore(line, s)
    ensures forall q: nat, lv | q < s && lv in LogLevels :: !HasAt(line, q, lv)
  {
    forall q: nat, lv | q < s && lv in LogLevels ensures !HasAt(line, q, lv) {
      LevelInitial(lv);
    }
  }

  lemma LevelInitial(lv: string)
    requires lv in LogLevels
    ensures |lv| > 0 && lv[0] in LevelInitials
  {
    assert lv == LogLevels[0] || lv == LogLevels[1] || lv == LogLevels[2]
      || lv == LogLevels[3] || lv == LogLevels[4];
  }

  /** Whitespace right after the level leaves no room for `django.request:` in the gap. */
  lemma SpaceGapIsClear(line: string, p: nat)
    requires p < |line| && line[p] == ' '
    ensures forall q: nat :: p <= q < p + 1 ==> !HasAt(line, q, RequestMarker)
  {
    assert line[p] != RequestMarker[0];
  }

  /** The match of a request line is its leftmost one. */
  lemma {:induction false} RequestLayoutLeftmost(line: string, s: nat, lv: string, m: string, ep: string)
    requires RequestLayout(line, s, lv, m, ep)
    ensures IsLeftmostMatch(line, Match(s, s + |lv| + 1, lv, ep))
  {
    var mt := Match(s, s + |lv| + 1, lv, ep);
    LayoutMatches(line, s, lv, m, ep);
    assert NoLevelInitialBefore(line, s);
    NoLevelBefore(line, s);
    assert line[s + |lv|] == ' ';
    SpaceGapIsClear(line, s + |lv|);
    LeftmostByEarlierAbsence(line, mt);
  }

  /** A request line yields exactly its level and its path. */
  lemma {:induction false} RequestLayoutParses(line: string, s: nat, lv: string, m: string, ep: string)
    requires RequestLayout(line, s, lv, m, ep)
    ensures ParseLogLine(line, {LogLevel, Endpoint}) == Some(map[LogLevel := lv, Endpoint := ep])
  {
    RequestLayoutLeftmost(line, s, lv, m, ep);
    ParseOfLeftmostMatch(line, Match(s, s + |lv| + 1, lv, ep));
  }

  /** The line Django writes for a request: a prefix, the level, the marker, the method, the path, a suffix. */
  function RequestLine(pre: string, lv: string, m: string, ep: string, post: string): string {
    pre + lv + (" " + (RequestMarker + (" " + (m + (" " + (ep + post))))))
  }

  lemma {:induction false} LevelOfLine(pre: string, lv: string, m: string, ep: string, post: string)
    ensures Spaced(RequestLine(pre, lv, m, ep, post), |pre|, lv)
  {
    SpacedJoin(pre, lv, RequestMarker + (" " + (m + (" " + (ep + post)))));
  }

  lemma {:induction false} MarkerOfLine(pre: string, lv: string, m: string, ep: string, post: string)
    ensures Spaced(RequestLine(pre, lv, m, ep, post), |pre| + |lv| + 1, RequestMarker)
  {
    var a := pre + lv + " ";
    SpacedJoin(a, RequestMarker, m + (" " + (ep + post)));
    assert RequestLine(pre, lv, m, ep, post) == a + RequestMarker + (" " + (m + (" " + (ep + post))));
  }

  lemma {:induction false} MethodOfLine(pre: string, lv: string, m: string, ep: string, post: string)
    ensures Spaced(RequestLine(pre, lv, m, ep, post), |pre| + |lv| + 17, m)
  {
    var a := pre + lv + " " + RequestMarker + " ";
    SpacedJoin(a, m, ep + post);
    assert RequestLine(pre, lv, m, ep, post) == a + m + (" " + (ep + post));
  }

  lemma {:induction false} PathOfLine(pre: string, lv: string, m: string, ep: string, post: string)
    ensures var line, e := RequestLine(pre, lv, m, ep, post), |pre| + |lv| + 18 + |m| + |ep|;
      HasAt(line, e - |ep|, ep) && line[e..] == post
  {
    var a := pre + lv + " " + RequestMarker + " " + m + " ";
    HasAtJoin(a, ep, post);
    assert RequestLine(pre, lv, m, ep, post) == a + ep + post;
  }

  /** The line Django writes for a request has the request layout. */
  lemma {:induction false} RequestLineHasLayout(pre: string, lv: string, m: string, ep: string, post: string)
    requires forall c :: c in pre ==> c !in LevelInitials
    requires lv in LogLevels && m in MethodsAsLogged && IsEndpoint(ep)
    requires post == [] || IsSpace(post[0])
    ensures RequestLayout(RequestLine(pre, lv, m, ep, post), |pre|, lv, m, ep)
  {
    var line := RequestLine(pre, lv, m, ep, post);
    var s := |pre|;
    LevelOfLine(pre, lv, m, ep, post);
    MarkerOfLine(pre, lv, m, ep, post);
    MethodOfLine(pre, lv, m, ep, post);
    PathOfLine(pre, lv, m, ep, post);
    var e := s + |lv| + 18 + |m| + |ep|;
    if post != [] {
      assert line[e] == line[e..][0];
    }
    assert PathPiece(line, e - |ep|, ep);
    forall q | 0 <= q < s ensures line[q] !in LevelInitials {
      assert line[q] == pre[q];
    }
  }
}
