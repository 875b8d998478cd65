/** The error-report queue: reports wait in `queue`, move to `pending`
    while a send is in flight, and return to the queue when the send
    fails. `retryWait` grows by a random factor on every rescheduled send,
    capped at ten seconds. Promises are opaque handles; `Math.random()` is
    a parameter `random` with 0 <= random < 1. */
module ErrorReporting {
  import opened Wrappers

  const DefaultRequestWait: int := 500
  const MaxRetry: int := 10000

  /** The parts of a thrown error a report keeps. */
  datatype ErrorInfo = ErrorInfo(message: Option<string>, stack: Option<string>)

  type OtherData = map<string, string>

  datatype Report = Report(msg: Option<string>, stack: Option<string>, href: Option<string>, otherData: Option<OtherData>)

  /** `global.BROWSER` and `global.location.href`. */
  datatype Host = Host(browser: bool, href: string)

  datatype ReportingState = ReportingState(
    queue: seq<Report>,
    pending: seq<Report>,
    pendingPromise: Option<nat>,
    retryWait: int)

  const DefaultState: ReportingState := ReportingState([], [], None, DefaultRequestWait)

  datatype ReportingAction =
    | AddErrorReportToQueue(error: Option<ErrorInfo>, otherData: Option<OtherData>)
    | SendErrorReportRequest(promise: nat)
    | SendErrorReportSuccess
    | SendErrorReportFailure
    | ScheduleErrorReport(promise: nat)
    | OtherReportingAction

  /** `formatErrorReport`: message and stack only with an error, the page
      address only in the browser, the extra data as given. */
  function FormatErrorReport(error: Option<ErrorInfo>, otherData: Option<OtherData>, host: Host): (r: Report)
    ensures error.None? ==> r.msg.None? && r.stack.None?
    ensures error.Some? ==> r.msg == error.value.message && r.stack == error.value.stack
    ensures r.href.Some? <==> host.browser
    ensures r.href.Some? ==> r.href.value == host.href
    ensures r.otherData == otherData
  {
    Report(
      if error.Some? then error.value.message else None,
      if error.Some? then error.value.stack else None,
      if host.browser then Some(host.href) else None,
      otherData)
  }

  /** JavaScript's `x | 0` on a finite number: truncate toward zero, then
      wrap into the signed 32-bit range. */
  function ToInt32(x: real): (r: int)
    ensures -0x8000_0000 <= r < 0x8000_0000
    ensures 0.0 <= x < 0x8000_0000 as real ==> r == x.Floor
  {
    var t := if x >= 0.0 then x.Floor else -((-x).Floor);
    var u := t % 0x1_0000_0000;
    if u >= 0x8000_0000 then u - 0x1_0000_0000 else u
  }

  /** The next retry wait: the old one times a factor in [1.25, 1.25 + 1/3),
      truncated, then capped. */
  function NextRetryWait(retryWait: int, random: real): (r: int)
    requires 0.0 <= random < 1.0
    ensures r <= MaxRetry
  {
    var jittered := ToInt32(retryWait as real * (1.25 + random / 3.0));
    if jittered < MaxRetry then jittered else MaxRetry
  }

  function Reduce(s: ReportingState, a: ReportingAction, host: Host, random: real): (r: ReportingState)
    requires 0.0 <= random < 1.0
    // an ADD with neither an error nor extra data changes nothing
    ensures a.AddErrorReportToQueue? && a.error.None? && a.otherData.None? ==> r == s
    ensures a.AddErrorReportToQueue? && (a.error.Some? || a.otherData.Some?) ==>
      r == s.(queue := s.queue + [FormatErrorReport(a.error, a.otherData, host)])
    ensures a.SendErrorReportRequest? ==>
      r == ReportingState([], s.queue, Some(a.promise), s.retryWait)
    ensures a.SendErrorReportSuccess? ==>
      r == ReportingState(s.queue, [], None, DefaultRequestWait)
    ensures a.SendErrorReportFailure? ==>
      r == ReportingState(s.queue + s.pending, [], None, s.retryWait)
    ensures a.ScheduleErrorReport? ==>
      r == s.(pendingPromise := Some(a.promise), retryWait := NextRetryWait(s.retryWait, random))
    ensures a.OtherReportingAction? ==> r == s
  {
    match a
    case AddErrorReportToQueue(error, otherData) =>
      if error.None? && otherData.None? then s
      else s.(queue := s.queue + [FormatErrorReport(error, otherData, host)])
    case SendErrorReportRequest(promise) =>
      s.(pending := s.queue, pendingPromise := Some(promise), queue := [])
    case SendErrorReportSuccess =>
      s.(retryWait := DefaultRequestWait, pending := [], pendingPromise := None)
    case SendErrorReportFailure =>
      s.(pending := [], queue := s.queue + s.pending, pendingPromise := None)
    case ScheduleErrorReport(promise) =>
      s.(pendingPromise := Some(promise), retryWait := NextRetryWait(s.retryWait, random))
    case OtherReportingAction => s
  }

  predicate RandomsInRange(randoms: seq<real>) {
    forall i :: 0 <= i < |randoms| ==> 0.0 <= randoms[i] < 1.0
  }

  /** A run of actions, with the value `Math.random()` gives at each step. */
  function ReduceAll(s: ReportingState, acts: seq<ReportingAction>, host: Host, randoms: seq<real>): ReportingState
    requires |randoms| == |acts| && RandomsInRange(randoms)
    decreases |acts|
  {
    if acts == [] then s
    else ReduceAll(Reduce(s, acts[0], host, randoms[0]), acts[1..], host, randoms[1..])
  }

  /** The reports still owed to the server. */
  function Outstanding(s: ReportingState): multiset<Report> {
    multiset(s.queue) + multiset(s.pending)
  }

  /** A failed send loses no report: pending reports go back to the queue. */
  lemma FailureConserves(s: ReportingState, host: Host, random: real)
    requires 0.0 <= random < 1.0
    ensures var r := Reduce(s, SendErrorReportFailure, host, random);
      |r.queue| + |r.pending| == |s.queue| + |s.pending| && Outstanding(r) == Outstanding(s)
  {
    var r := Reduce(s, SendErrorReportFailure, host, random);
    assert r.queue == s.queue + s.pending;
  }

  /** A send started with nothing pending, when it fails, leaves the queue
      as it was. */
  lemma RequestThenFailureRestores(s: ReportingState, promise: nat, host: Host, r1: real, r2: real)
    requires 0.0 <= r1 < 1.0 && 0.0 <= r2 < 1.0
    requires s.pending == []
    ensures Reduce(Reduce(s, SendErrorReportRequest(promise), host, r1), SendErrorReportFailure, host, r2)
            == s.(pendingPromise := None)
  {
    assert [] + s.queue == s.queue;
  }

  /** A send request replaces `pending` by the queue: reports still pending
      from an earlier send are no longer owed. */
  lemma RequestReplacesPending(s: ReportingState, promise: nat, host: Host, random: real)
    requires 0.0 <= random < 1.0
    ensures Outstanding(Reduce(s, SendErrorReportRequest(promise), host, random)) == multiset(s.queue)
  {
  }

  /** Reports added while a send is in flight end up ahead of the pending
      ones when that send fails. */
  lemma FailureRequeuesBehindNewReports(s: ReportingState, promise: nat, error: ErrorInfo, host: Host,
                                        r1: real, r2: real, r3: real)
    requires 0.0 <= r1 < 1.0 && 0.0 <= r2 < 1.0 && 0.0 <= r3 < 1.0
    requires s.pending == []
    ensures var s1 := Reduce(s, SendErrorReportRequest(promise), host, r1);
      var s2 := Reduce(s1, AddErrorReportToQueue(Some(error), None), host, r2);
      Reduce(s2, SendErrorReportFailure, host, r3).queue == [FormatErrorReport(Some(error), None, host)] + s.queue
  {
    assert [] + [FormatErrorReport(Some(error), None, host)] == [FormatErrorReport(Some(error), None, host)];
  }

  /** Bounds on the jittered product `w * f` for a factor in [1.25, 1.6). */
  lemma ScaleBounds(w: int, f: real, x: real)
    requires DefaultRequestWait <= w <= MaxRetry && 1.25 <= f < 1.6
    requires x == w as real * f
    ensures w as real + 125.0 <= x < 0x8000_0000 as real
  {
    var d := f - 1.25;
    assert x == w as real * 1.25 + w as real * d;
    assert w as real * d >= 0.0;
    assert w as real * d <= 10000.0 * d;
    assert x < 16000.0;
    assert 16000.0 < 0x8000_0000 as real;
  }

  /** Below the cap every rescheduled send waits longer than the last; at
      the cap the wait stays put. */
  lemma RetryWaitGrows(w: int, random: real)
    requires 0.0 <= random < 1.0
    requires DefaultRequestWait <= w <= MaxRetry
    ensures w < MaxRetry ==> w < NextRetryWait(w, random)
    ensures w == MaxRetry ==> NextRetryWait(w, random) == MaxRetry
  {
    var f := 1.25 + random / 3.0;
    var x := w as real * f;
    ScaleBounds(w, f, x);
    assert ToInt32(x) == x.Floor;
    assert x.Floor > w;
  }

  predicate RetryWaitInRange(s: ReportingState) {
    DefaultRequestWait <= s.retryWait <= MaxRetry
  }

  /** From the default state, `retryWait` stays between 500 ms and 10 s
      whatever the actions and random draws. */
  lemma {:induction false} RetryWaitStaysInRange(s: ReportingState, acts: seq<ReportingAction>, host: Host, randoms: seq<real>)
    requires |randoms| == |acts| && RandomsInRange(randoms)
    requires RetryWaitInRange(s)
    ensures RetryWaitInRange(ReduceAll(s, acts, host, randoms))
    decreases |acts|
  {
    if acts != [] {
      var s1 := Reduce(s, acts[0], host, randoms[0]);
      if acts[0].ScheduleErrorReport? {
        RetryWaitGrows(s.retryWait, randoms[0]);
      }
      assert RetryWaitInRange(s1);
      assert RandomsInRange(randoms[1..]) by {
        forall i | 0 <= i < |randoms[1..]| ensures 0.0 <= randoms[1..][i] < 1.0 {
          assert randoms[1..][i] == randoms[i + 1];
        }
      }
      RetryWaitStaysInRange(s1, acts[1..], host, randoms[1..]);
    }
  }

  /** Every run from the default state keeps the wait between 500 ms and
      10 s. */
  lemma DefaultRunsStayInRange(acts: seq<ReportingAction>, host: Host, randoms: seq<real>)
    requires |randoms| == |acts| && RandomsInRange(randoms)
    ensures RetryWaitInRange(ReduceAll(DefaultState, acts, host, randoms))
  {
    RetryWaitStaysInRange(DefaultState, acts, host, randoms);
  }
}
