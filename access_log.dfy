/**
 * The access-log filter: after each request it logs one line whose level
 * follows the status code, where an SSE stream's own statistics, when the
 * stream recorded them in the per-thread slot, take the place of the HTTP
 * response status. Only the computed level and text are modelled, not the
 * logger that writes them.
 */
module AccessLog {
  import opened Records

  datatype Level = Info | Warn | Error

  /** The statistics an SSE stream records: events sent and the last status. */
  datatype SseStats = SseStats(eventCount: int, lastStatusCode: int)

  /** The parts of the servlet request the log line uses. */
  datatype Request = Request(httpMethod: string, requestUri: string, queryString: Option<string>)

  /** The two loggers of the filter: "RequestLog" before a request, "AccessLog" after it. */
  datatype Logger = RequestLog | AccessLogger

  /** One line handed to a logger at a level. */
  datatype LogEntry = LogEntry(logger: Logger, level: Level, message: string)

  // ---- decimal rendering, as Java's `"" + n` and `%d` -------------------------

  function DigitChar(d: nat): (c: char)
    requires d < 10
    ensures '0' <= c <= '9' && c as int - '0' as int == d
  {
    "0123456789"[d]
  }

  predicate AllDigits(s: string)
  {
    forall i :: 0 <= i < |s| ==> '0' <= s[i] <= '9'
  }

  /** Decimal digits of `n`, without leading zeros. */
  function NatString(n: nat): (s: string)
    ensures |s| >= 1 && AllDigits(s)
    ensures |s| > 1 ==> s[0] != '0'
    decreases n
  {
    if n < 10 then [DigitChar(n)] else NatString(n / 10) + [DigitChar(n % 10)]
  }

  /** The number a string of decimal digits stands for. */
  function ParseNat(s: string): nat
    requires AllDigits(s)
  {
    if s == [] then 0 else ParseNat(s[..|s| - 1]) * 10 + (s[|s| - 1] as int - '0' as int)
  }

  lemma {:induction false} NatStringRoundTrip(n: nat)
    ensures ParseNat(NatString(n)) == n
    decreases n
  {
    if n >= 10 {
      NatStringRoundTrip(n / 10);
      var s := NatString(n);
      assert s[..|s| - 1] == NatString(n / 10);
    }
  }

  /** Java's decimal rendering of an integer: a minus sign, then the digits of the magnitude. */
  function DecimalString(n: int): (s: string)
    ensures n < 0 <==> (|s| > 0 && s[0] == '-')
  {
    if n < 0 then "-" + NatString(-n) else NatString(n)
  }

  /** A decimal integer: digits, optionally after a minus sign. */
  predicate IsDecimal(s: string)
  {
    (|s| > 0 && s[0] == '-' && AllDigits(s[1..])) || AllDigits(s)
  }

  /** The number a rendered integer stands for. */
  function ParseDecimal(s: string): int
    requires IsDecimal(s)
  {
    if |s| > 0 && s[0] == '-' then -(ParseNat(s[1..]) as int) else ParseNat(s) as int
  }

  /** The rendering is faithful: it reads back as the same number. */
  lemma DecimalStringRoundTrip(n: int)
    ensures IsDecimal(DecimalString(n)) && ParseDecimal(DecimalString(n)) == n
  {
    if n < 0 {
      NatStringRoundTrip(-n);
      assert DecimalString(n)[1..] == NatString(-n);
    } else {
      NatStringRoundTrip(n);
    }
  }

  // ---- level, wording and suffix ----------------------------------------------

  /** 4xx is WARN, 5xx and above ERROR, everything else INFO. */
  function LevelFor(status: int): (level: Level)
    ensures level == Warn <==> 400 <= status < 500
    ensures level == Error <==> status >= 500
    ensures level == Info <==> status < 400
  {
    if status >= 400 && status < 500 then Warn
    else if status >= 500 then Error
    else Info
  }

  /** "event" for exactly one event, "events" otherwise. */
  function EventNoun(eventCount: int): (noun: string)
    ensures noun == "event" <==> eventCount == 1
    ensures noun == "events" <==> eventCount != 1
  {
    "event" + (if eventCount == 1 then "" else "s")
  }

  /**
   * `"(%dms)".formatted(executionTimeMs)`: the time in decimal between `(`
   * and `ms)`, reading back as the same number of milliseconds.
   */
  function TimeTakenSuffix(executionTimeMs: int): (s: string)
    ensures |s| >= 4 && s[0] == '(' && HasSuffix(s, "ms)")
    ensures IsDecimal(s[1..|s| - 3]) && ParseDecimal(s[1..|s| - 3]) == executionTimeMs
  {
    var digits := DecimalString(executionTimeMs);
    DecimalStringRoundTrip(executionTimeMs);
    var s := "(" + digits + "ms)";
    assert s[1..|s| - 3] == digits;
    assert s[|s| - 3..] == "ms)";
    s
  }

  /** The status a request is logged with: the stream's last status when stats are set. */
  function LoggedStatus(stats: Option<SseStats>, responseStatus: int): (status: int)
    ensures stats.Some? ==> status == stats.value.lastStatusCode
    ensures stats.None? ==> status == responseStatus
  {
    if stats.Some? then stats.value.lastStatusCode else responseStatus
  }

  /**
   * `(sse: N event(s), status: S) (Tms)` with stats, `(status: S) (Tms)`
   * without: the two forms are told apart by their opening, and both end in
   * the time taken.
   */
  function PostRequestSuffix(stats: Option<SseStats>, responseStatus: int, executionTimeMs: int): (suffix: string)
    ensures HasPrefix(suffix, "(sse: ") <==> stats.Some?
    ensures stats.None? ==> HasPrefix(suffix, "(status: ")
    ensures HasSuffix(suffix, " " + TimeTakenSuffix(executionTimeMs))
  {
    var tail := " " + TimeTakenSuffix(executionTimeMs);
    var statusCode := LoggedStatus(stats, responseStatus);
    match stats
    case Some(st) =>
      var head := "(sse: ";
      var middle := DecimalString(st.eventCount) + " " + EventNoun(st.eventCount)
        + ", status: " + DecimalString(statusCode) + ")";
      Framed(head, middle, tail);
      head + middle + tail
    case None =>
      var head := "(status: ";
      var middle := DecimalString(statusCode) + ")";
      Framed(head, middle, tail);
      assert (head + middle + tail)[2] == 't' != "(sse: "[2];
      head + middle + tail
  }

  lemma Framed(head: string, middle: string, tail: string)
    ensures HasPrefix(head + middle + tail, head) && HasSuffix(head + middle + tail, tail)
  {
    var s := head + middle + tail;
    assert s[..|head|] == head;
    assert s[|s| - |tail|..] == tail;
  }

  predicate HasPrefix(s: string, p: string)
  {
    |p| <= |s| && s[..|p|] == p
  }

  predicate HasSuffix(s: string, p: string)
  {
    |p| <= |s| && s[|s| - |p|..] == p
  }

  /** The query part of the line: empty without a query string, `?query` with one. */
  function QueryPart(request: Request): (q: string)
    ensures request.queryString.None? <==> q == []
    ensures request.queryString.Some? ==> q[0] == '?' && q[1..] == request.queryString.value
  {
    if request.queryString.None? then "" else "?" + request.queryString.value
  }

  /** `logContext`: the line `"{} {}{} {}"` filled with method, URI, query part and suffix. */
  function LogContext(logger: Logger, request: Request, suffix: string, level: Level): (e: LogEntry)
    ensures e.logger == logger && e.level == level
    ensures e.message == request.httpMethod + " " + request.requestUri + QueryPart(request) + " " + suffix
  {
    LogEntry(logger, level, request.httpMethod + " " + request.requestUri + QueryPart(request) + " " + suffix)
  }

  /**
   * `logPreRequest`: INFO on the request logger, with an empty suffix, so its
   * message is the request part that every line about the request starts
   * with: a line with suffix `x` is this message followed by `x`.
   */
  function PreRequestEntry(request: Request): (e: LogEntry)
    ensures e.logger == RequestLog && e.level == Info
    ensures forall logger, suffix, level ::
      LogContext(logger, request, suffix, level).message == e.message + suffix
  {
    LogContext(RequestLog, request, "", Info)
  }

  /**
   * The filter's per-thread state: the SSE statistics slot, initially null.
   * One object stands for the slot of one request-handling thread.
   */
  class AccessLog {
    var sseStats: Option<SseStats>

    constructor ()
      ensures sseStats == None
    {
      sseStats := None;
    }

    /** `updateSseStats`: the slot now holds `value`; nothing else changes. */
    method UpdateSseStats(value: Option<SseStats>)
      modifies this
      ensures sseStats == value
    {
      sseStats := value;
    }

    /**
     * `logPostRequest`: the level and line for a finished request, reading
     * the slot. The level follows the stream's last status when stats are
     * set and the response status otherwise.
     */
    function PostRequestEntry(request: Request, responseStatus: int, executionTimeMs: int): (e: LogEntry)
      reads this
      ensures e.level == LevelFor(LoggedStatus(sseStats, responseStatus))
      ensures e == LogContext(AccessLogger, request, PostRequestSuffix(sseStats, responseStatus, executionTimeMs), e.level)
    {
      var statusCode := LoggedStatus(sseStats, responseStatus);
      LogContext(AccessLogger, request, PostRequestSuffix(sseStats, responseStatus, executionTimeMs), LevelFor(statusCode))
    }

    /**
     * `doFilterInternal`: the line before the request, then the chain, then
     * the line after it. The chain is not modelled; `chainStats` is what it
     * wrote to the slot, if it called `updateSseStats`, and the clock
     * readings are parameters.
     */
    method DoFilterInternal(request: Request, chainStats: Option<Option<SseStats>>, responseStatus: int,
                            startTime: int, endTime: int)
      returns (pre: LogEntry, post: LogEntry)
      modifies this
      ensures pre == PreRequestEntry(request)
      ensures sseStats == (if chainStats.Some? then chainStats.value else old(sseStats))
      ensures post == PostRequestEntry(request, responseStatus, endTime - startTime)
    {
      pre := PreRequestEntry(request);
      if chainStats.Some? {
        UpdateSseStats(chainStats.value);
      }
      post := PostRequestEntry(request, responseStatus, endTime - startTime);
    }
  }

  /** The line after a request is the line before it followed by the post-request suffix. */
  lemma AccessLineExtendsRequestLine(log: AccessLog, request: Request, responseStatus: int, executionTimeMs: int)
    ensures log.PostRequestEntry(request, responseStatus, executionTimeMs).message ==
      PreRequestEntry(request).message + PostRequestSuffix(log.sseStats, responseStatus, executionTimeMs)
  {
  }

  /** `updateSseStats(v)` then `logPostRequest` reads back `v`: its status and its event count. */
  method LogAfterStream(log: AccessLog, stats: SseStats, request: Request, responseStatus: int, executionTimeMs: int)
    returns (e: LogEntry)
    modifies log
    ensures log.sseStats == Some(stats)
    ensures e.level == LevelFor(stats.lastStatusCode)
    ensures e == LogContext(AccessLogger, request, PostRequestSuffix(Some(stats), responseStatus, executionTimeMs), e.level)
  {
    log.UpdateSseStats(Some(stats));
    e := log.PostRequestEntry(request, responseStatus, executionTimeMs);
  }
}
