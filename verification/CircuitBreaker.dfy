/** The circuit breaker of pkg/circuitbreaker/circuit_breaker.go.

    `Breaker` is the value of the fields guarded by the breaker's mutex and `Step` the
    effect of one mutex section.  A run is any sequence of sections: concurrent `Execute`
    calls interleave exactly at section boundaries.  Times are nanoseconds.  A failure
    reads the clock three times (record, failure rate, opening), so its event carries
    three times. */
module CircuitBreaking {
  import opened Common

  datatype State = Closed | HalfOpen | Open

  datatype Config = Config(
    failureThreshold: int,
    successThreshold: int,
    timeout: int,
    maxTimeout: int,
    exponentialBackoff: bool,
    failureRateThreshold: real,
    minRequestThreshold: int,
    timeWindow: int)

  datatype Record = Record(time: int, success: bool)

  datatype Breaker = Breaker(
    state: State,
    failures: int,
    nextAttempt: int,
    total: int,
    succeeded: int,
    failed: int,
    rejected: int,
    consecutiveFailures: int,
    consecutiveSuccesses: int,
    transitions: int,
    window: seq<Record>)

  // Go's zero time.
  const ZERO_TIME := 0

  const INITIAL := Breaker(Closed, 0, ZERO_TIME, 0, 0, 0, 0, 0, 0, 0, [])

  // -------------------------------------------------------------------------------------
  // Windows and failure rates

  /** The records later than `start`, in order. */
  function After(rs: seq<Record>, start: int): seq<Record> {
    if rs == [] then []
    else
      var r := rs[|rs| - 1];
      After(rs[..|rs| - 1], start) + (if r.time > start then [r] else [])
  }

  function FailureCount(rs: seq<Record>): nat {
    if rs == [] then 0
    else FailureCount(rs[..|rs| - 1]) + (if rs[|rs| - 1].success then 0 else 1)
  }

  function FailureRate(rs: seq<Record>): real {
    if rs == [] then 0.0 else FailureCount(rs) as real / |rs| as real
  }

  /** Number of failures at the end of `rs`. */
  function TrailingFailures(rs: seq<Record>): nat {
    if rs == [] || rs[|rs| - 1].success then 0 else 1 + TrailingFailures(rs[..|rs| - 1])
  }

  /** Number of successes at the end of `rs`. */
  function TrailingSuccesses(rs: seq<Record>): nat {
    if rs == [] || !rs[|rs| - 1].success then 0 else 1 + TrailingSuccesses(rs[..|rs| - 1])
  }

  /** Whether the breaker has to open, decided from the full history `h` at time `now`. */
  predicate MustTrip(c: Config, h: seq<Record>, now: int) {
    || TrailingFailures(h) >= c.failureThreshold
    || (|h| >= c.minRequestThreshold
        && FailureRate(After(h, now - c.timeWindow)) >= c.failureRateThreshold)
  }

  // -------------------------------------------------------------------------------------
  // Opening delay

  /** Two's complement wrap-around of Go's int64. */
  function Wrap64(x: int): int {
    (x + INT64_LIMIT) % (2 * INT64_LIMIT) - INT64_LIMIT
  }

  function Pow2(n: nat): nat {
    if n == 0 then 1 else 2 * Pow2(n - 1)
  }

  function Min(a: int, b: int): int {
    if a < b then a else b
  }

  /** `1 << uint(min(failures-1, 10))`; a negative count becomes a huge shift, which is 0. */
  function Multiplier(failures: int): nat {
    if failures < 1 then 0 else Pow2(Min(failures - 1, 10))
  }

  /** How long the breaker stays open when it opens after `failures` failures in a row. */
  function OpenDelay(c: Config, failures: int): int {
    if !c.exponentialBackoff then c.timeout
    else
      var timeout := Wrap64(c.timeout * Multiplier(failures));
      if timeout > c.maxTimeout then c.maxTimeout else timeout
  }

  // -------------------------------------------------------------------------------------
  // The mutex sections

  function SetState(c: Config, b: Breaker, to: State, now: int): Breaker {
    if b.state == to then b
    else
      var b' := b.(state := to, transitions := b.transitions + 1);
      match to
      case Open => b'.(nextAttempt := now + OpenDelay(c, b.failures))
      case Closed => b'.(failures := 0, nextAttempt := ZERO_TIME)
      case HalfOpen => b'.(consecutiveSuccesses := 0)
  }

  predicate Allows(b: Breaker, now: int) {
    b.state == Open ==> now > b.nextAttempt
  }

  function AllowRequest(c: Config, b: Breaker, now: int): Breaker {
    if b.state == Open && Allows(b, now) then SetState(c, b, HalfOpen, now) else b
  }

  function AddWindowRecord(c: Config, window: seq<Record>, r: Record): seq<Record> {
    After(window + [r], r.time - c.timeWindow)
  }

  function RecordSuccess(c: Config, b: Breaker, now: int): Breaker {
    var b' := b.(
      failures := 0,
      total := b.total + 1,
      succeeded := b.succeeded + 1,
      consecutiveFailures := 0,
      consecutiveSuccesses := b.consecutiveSuccesses + 1,
      window := AddWindowRecord(c, b.window, Record(now, true)));
    if b'.state == HalfOpen && b'.consecutiveSuccesses >= c.successThreshold
    then SetState(c, b', Closed, now)
    else b'
  }

  predicate ShouldTrip(c: Config, b: Breaker, now: int) {
    || b.failures >= c.failureThreshold
    || (b.total >= c.minRequestThreshold
        && FailureRate(After(b.window, now - c.timeWindow)) >= c.failureRateThreshold)
  }

  function RecordFailure(c: Config, b: Breaker, recordedAt: int, ratedAt: int, openedAt: int): Breaker {
    var b' := b.(
      failures := b.failures + 1,
      total := b.total + 1,
      failed := b.failed + 1,
      consecutiveFailures := b.consecutiveFailures + 1,
      consecutiveSuccesses := 0,
      window := AddWindowRecord(c, b.window, Record(recordedAt, false)));
    if ShouldTrip(c, b', ratedAt) then SetState(c, b', Open, openedAt) else b'
  }

  function RecordRejection(b: Breaker): Breaker {
    b.(rejected := b.rejected + 1)
  }

  function Reset(b: Breaker): Breaker {
    var transitions := if b.state == Closed then b.transitions else b.transitions + 1;
    INITIAL.(transitions := transitions)
  }

  // -------------------------------------------------------------------------------------
  // Runs

  datatype Event =
    | Allow(call: int, now: int)
    | Success(now: int)
    | Failure(recordedAt: int, ratedAt: int, openedAt: int)
    | Rejection(call: int, now: int)
    | ResetAll(now: int)
  {
    function Begin(): int {
      if Failure? then recordedAt else now
    }
    function End(): int {
      if Failure? then openedAt else now
    }
    /** The result this event records, if any. */
    function Results(): seq<Record> {
      if Success? then [Record(now, true)]
      else if Failure? then [Record(recordedAt, false)]
      else []
    }
  }

  function Step(c: Config, b: Breaker, e: Event): Breaker {
    match e
    case Allow(_, now) => AllowRequest(c, b, now)
    case Success(now) => RecordSuccess(c, b, now)
    case Failure(recordedAt, ratedAt, openedAt) => RecordFailure(c, b, recordedAt, ratedAt, openedAt)
    case Rejection(_, _) => RecordRejection(b)
    case ResetAll(_) => Reset(b)
  }

  function Run(c: Config, es: seq<Event>): Breaker {
    if es == [] then INITIAL
    else Step(c, Run(c, es[..|es| - 1]), es[|es| - 1])
  }

  /** All results recorded since the last reset, never pruned. */
  function History(es: seq<Event>): seq<Record> {
    if es == [] then []
    else
      var e := es[|es| - 1];
      if e.ResetAll? then [] else History(es[..|es| - 1]) + e.Results()
  }

  /** The clock never goes backwards, within one section and between sections. */
  ghost predicate Monotone(es: seq<Event>) {
    && (forall i | 0 <= i < |es| && es[i].Failure? ::
          es[i].recordedAt <= es[i].ratedAt <= es[i].openedAt)
    && (forall i, j | 0 <= i < j < |es| :: es[i].End() <= es[j].Begin())
  }

  lemma RunExtends(c: Config, es: seq<Event>, e: Event)
    ensures Run(c, es + [e]) == Step(c, Run(c, es), e)
    ensures History(es + [e]) == if e.ResetAll? then [] else History(es) + e.Results()
  {
    assert (es + [e])[..|es|] == es;
  }

  // -------------------------------------------------------------------------------------
  // What the counts mean

  /** The positions of the results later than `start`. */
  ghost function Inside(h: seq<Record>, start: int): set<nat> {
    set i: nat | i < |h| && h[i].time > start
  }

  ghost function FailedInside(h: seq<Record>, start: int): set<nat> {
    set i: nat | i < |h| && h[i].time > start && !h[i].success
  }

  /** Filtering keeps every record later than `start` as often as it occurs, and no other. */
  lemma {:induction false} AfterIsFilter(rs: seq<Record>, start: int, r: Record)
    ensures multiset(After(rs, start))[r] == if r.time > start then multiset(rs)[r] else 0
  {
    if rs != [] {
      var front, last := rs[..|rs| - 1], rs[|rs| - 1];
      AfterIsFilter(front, start, r);
      assert rs == front + [last];
    }
  }

  /** The filtered window has as many records, and as many failures, as there are positions inside it. */
  lemma {:induction false} AfterCounts(h: seq<Record>, start: int)
    ensures |After(h, start)| == |Inside(h, start)|
    ensures FailureCount(After(h, start)) == |FailedInside(h, start)|
  {
    hide After, Inside, FailedInside, FailureCount;
    if h == [] {
      NothingInside(start);
      CountsStart(start);
    } else {
      var front, r := h[..|h| - 1], h[|h| - 1];
      AfterCounts(front, start);
      assert front + [r] == h;
      AfterExtends(front, r, start);
      InsideExtends(front, r, start);
      FailedInsideExtends(front, r, start);
      CountsExtend(After(front, start), r);
    }
  }

  lemma NothingInside(start: int)
    ensures Inside([], start) == {} && FailedInside([], start) == {}
  {
  }

  lemma InsideExtends(h: seq<Record>, r: Record, start: int)
    ensures |Inside(h + [r], start)| == |Inside(h, start)| + if r.time > start then 1 else 0
  {
    var all := h + [r];
    assert |h| !in Inside(h, start);
    if r.time > start {
      assert Inside(all, start) == Inside(h, start) + {|h|};
    } else {
      assert Inside(all, start) == Inside(h, start);
    }
  }

  lemma FailedInsideExtends(h: seq<Record>, r: Record, start: int)
    ensures |FailedInside(h + [r], start)| == |FailedInside(h, start)| + if r.time > start && !r.success then 1 else 0
  {
    var all := h + [r];
    assert |h| !in FailedInside(h, start);
    if r.time > start && !r.success {
      assert FailedInside(all, start) == FailedInside(h, start) + {|h|};
    } else {
      assert FailedInside(all, start) == FailedInside(h, start);
    }
  }

  predicate EndsInFailures(h: seq<Record>, n: int) {
    n <= |h| && forall i | |h| - n <= i < |h| && 0 <= i :: !h[i].success
  }

  predicate EndsInSuccesses(h: seq<Record>, n: int) {
    n <= |h| && forall i | |h| - n <= i < |h| && 0 <= i :: h[i].success
  }

  /** A trailing run is at least `n` exactly when the last `n` results are all of its kind. */
  lemma {:induction false} TrailingIff(h: seq<Record>, n: int)
    ensures TrailingFailures(h) >= n <==> EndsInFailures(h, n)
    ensures TrailingSuccesses(h) >= n <==> EndsInSuccesses(h, n)
  {
    if h != [] && n > 0 {
      var front := h[..|h| - 1];
      TrailingIff(front, n - 1);
      assert forall i | 0 <= i < |front| :: front[i] == h[i];
    }
  }

  lemma RateIff(failed: nat, total: nat, threshold: real)
    requires total > 0
    ensures failed as real / total as real >= threshold <==> failed as real >= threshold * total as real
  {
    var rate, t := failed as real / total as real, total as real;
    assert rate * t == failed as real;
    if rate >= threshold {
      assert (rate - threshold) * t >= 0.0;
    } else {
      assert (threshold - rate) * t > 0.0;
    }
  }

  /** The trip rule on a history: the last failureThreshold results failed, or there are enough results and
      the failed share of those inside the window reaches the threshold. */
  ghost predicate TripRule(c: Config, h: seq<Record>, now: int) {
    || EndsInFailures(h, c.failureThreshold)
    || (&& |h| >= c.minRequestThreshold
        && var inside, failed := Inside(h, now - c.timeWindow), FailedInside(h, now - c.timeWindow);
           if inside == {} then c.failureRateThreshold <= 0.0
           else |failed| as real >= c.failureRateThreshold * |inside| as real)
  }

  lemma MustTripIff(c: Config, h: seq<Record>, now: int)
    ensures MustTrip(c, h, now) <==> TripRule(c, h, now)
  {
    hide After, TrailingFailures, FailureCount, EndsInFailures, Inside, FailedInside;
    var start := now - c.timeWindow;
    TrailingIff(h, c.failureThreshold);
    AfterCounts(h, start);
    if Inside(h, start) != {} {
      RateIff(|FailedInside(h, start)|, |Inside(h, start)|, c.failureRateThreshold);
    }
  }

  // -------------------------------------------------------------------------------------
  // The pruned window is the history

  /** Pruning early loses nothing that a later cut-off would keep. */
  lemma {:induction false} AfterAfter(rs: seq<Record>, r: Record, early: int, late: int)
    requires early <= late
    ensures After(After(rs, early), late) == After(rs, late)
    ensures After(After(rs, early) + [r], late) == After(rs + [r], late)
  {
    if rs != [] {
      var n := |rs| - 1;
      AfterAfter(rs[..n], rs[n], early, late);
      assert rs[..n] + [rs[n]] == rs;
      if rs[n].time <= early {
        assert After(rs, early) == After(rs[..n], early);
      }
    }
    AfterExtends(After(rs, early), r, late);
    AfterExtends(rs, r, late);
  }

  lemma AfterExtends(rs: seq<Record>, r: Record, start: int)
    ensures After(rs + [r], start) == if r.time > start then After(rs, start) + [r] else After(rs, start)
  {
    assert (rs + [r])[..|rs|] == rs;
  }

  /** The window the breaker keeps is the full history cut at the time of the newest record. */
  ghost predicate Mirrors(c: Config, b: Breaker, h: seq<Record>) {
    && b.window == (if h == [] then [] else After(h, h[|h| - 1].time - c.timeWindow))
    && b.total == |h|
    && b.failures == b.consecutiveFailures == TrailingFailures(h)
    && b.failed == FailureCount(h)
    && b.succeeded == |h| - FailureCount(h)
  }

  /** The newest record is no later than the start of anything that follows the run. */
  lemma {:induction false} HistoryInThePast(es: seq<Event>, now: int)
    requires forall i | 0 <= i < |es| :: es[i].End() <= now
    requires forall i | 0 <= i < |es| && es[i].Failure? :: es[i].recordedAt <= es[i].ratedAt <= es[i].openedAt
    ensures History(es) != [] ==> History(es)[|History(es)| - 1].time <= now
  {
    if es != [] {
      var n := |es| - 1;
      assert es[n].Results() == [] ==> History(es) == [] || History(es) == History(es[..n]);
      HistoryInThePast(es[..n], now);
    }
  }

  lemma CountsStart(start: int)
    ensures After([], start) == [] && FailureCount([]) == 0 && TrailingFailures([]) == 0
  {
  }

  lemma {:induction false} CountsExtend(rs: seq<Record>, r: Record)
    ensures TrailingFailures(rs + [r]) == if r.success then 0 else TrailingFailures(rs) + 1
    ensures TrailingSuccesses(rs + [r]) == if r.success then TrailingSuccesses(rs) + 1 else 0
    ensures FailureCount(rs + [r]) == FailureCount(rs) + if r.success then 0 else 1
  {
    assert (rs + [r])[..|rs|] == rs;
  }

  lemma {:induction false} WindowStep(c: Config, b: Breaker, h: seq<Record>, r: Record)
    requires Mirrors(c, b, h)
    requires h != [] ==> h[|h| - 1].time <= r.time
    ensures AddWindowRecord(c, b.window, r) == After(h + [r], r.time - c.timeWindow)
  {
    hide After, TrailingFailures, FailureCount;
    if h != [] {
      AfterAfter(h, r, h[|h| - 1].time - c.timeWindow, r.time - c.timeWindow);
    }
  }

  lemma {:induction false} MirrorsResult(c: Config, b: Breaker, h: seq<Record>, e: Event)
    requires Mirrors(c, b, h)
    requires e.Success? || e.Failure?
    requires h != [] ==> h[|h| - 1].time <= e.Begin()
    ensures Mirrors(c, Step(c, b, e), h + e.Results())
  {
    hide OpenDelay, After, AddWindowRecord, ShouldTrip, FailureCount, TrailingFailures;
    WindowStep(c, b, h, e.Results()[0]);
    CountsExtend(h, e.Results()[0]);
  }

  lemma {:induction false} MirrorsStep(c: Config, b: Breaker, h: seq<Record>, e: Event)
    requires Mirrors(c, b, h)
    requires h != [] ==> h[|h| - 1].time <= e.Begin()
    ensures Mirrors(c, Step(c, b, e), if e.ResetAll? then [] else h + e.Results())
  {
    hide OpenDelay, After, AddWindowRecord, ShouldTrip;
    if e.Success? || e.Failure? {
      MirrorsResult(c, b, h, e);
    } else if !e.ResetAll? {
      assert h + e.Results() == h;
    }
  }

  /** After every run, the pruned window, the counters and the failure run are those of the
      full history since the last reset. */
  lemma {:induction false} WindowIsHistory(c: Config, es: seq<Event>)
    requires Monotone(es)
    ensures Mirrors(c, Run(c, es), History(es))
  {
    if es != [] {
      hide Step, Mirrors;
      var n := |es| - 1;
      WindowIsHistory(c, es[..n]);
      HistoryInThePast(es[..n], es[n].Begin());
      MirrorsStep(c, Run(c, es[..n]), History(es[..n]), es[n]);
    }
  }

  /** A failure leaves the breaker open exactly when it already was, or when the rule applied
      to the whole unpruned history says so. */
  lemma TripFromWholeHistory(c: Config, es: seq<Event>, f: Event)
    requires f.Failure? && Monotone(es + [f])
    ensures Run(c, es + [f]).state == Open
       <==> (Run(c, es).state == Open || MustTrip(c, History(es + [f]), f.ratedAt))
  {
    hide OpenDelay, After, AddWindowRecord, FailureRate, Run, History;
    var all := es + [f];
    RunExtends(c, es, f);
    assert Monotone(es) by {
      assert forall i | 0 <= i < |es| :: all[i] == es[i];
    }
    WindowIsHistory(c, es);
    forall i | 0 <= i < |es| ensures es[i].End() <= f.recordedAt {
      assert all[i] == es[i] && all[|es|] == f;
    }
    assert forall i | 0 <= i < |es| && es[i].Failure? :: es[i].recordedAt <= es[i].ratedAt <= es[i].openedAt;
    HistoryInThePast(es, f.recordedAt);
    var h := History(es);
    var r := Record(f.recordedAt, false);
    WindowStep(c, Run(c, es), h, r);
    CountsExtend(h, r);
    assert all[|es|] == f;
    AfterAfter(h + [r], r, f.recordedAt - c.timeWindow, f.ratedAt - c.timeWindow);
  }

  predicate Refuses(c: Config, es: seq<Event>, e: Event) {
    e.Allow? && !Allows(Run(c, es), e.now)
  }

  /** How concurrent calls use the sections: a call asks once, and records a refusal at most once and only
      after its own request was refused. */
  ghost predicate Orderly(c: Config, es: seq<Event>) {
    && (forall i, j | 0 <= i < j < |es| && es[i].Allow? && es[j].Allow? :: es[i].call != es[j].call)
    && (forall i, j | 0 <= i < j < |es| && es[i].Rejection? && es[j].Rejection? :: es[i].call != es[j].call)
    && (forall j | 0 <= j < |es| && es[j].Rejection? ::
          exists i | 0 <= i < j :: Refuses(c, es[..i], es[i]) && es[i].call == es[j].call)
  }

  /** The same in the source's terms: a failure leaves the breaker open exactly when it already was, or the last
      failureThreshold results since the reset failed, or enough results were recorded and the failed share
      of those inside the time window reaches the threshold. */
  lemma TripsExactly(c: Config, es: seq<Event>, f: Event)
    requires f.Failure? && Monotone(es + [f])
    ensures Run(c, es + [f]).state == Open
       <==> (Run(c, es).state == Open || TripRule(c, History(es + [f]), f.ratedAt))
  {
    hide Run, History, Monotone, MustTrip, TripRule;
    TripFromWholeHistory(c, es, f);
    MustTripIff(c, History(es + [f]), f.ratedAt);
  }

  /** A reset closes the breaker and forgets everything but the number of transitions. */
  lemma ResetCloses(c: Config, es: seq<Event>, now: int, e: Event)
    requires e.Allow?
    ensures var b := Run(c, es + [ResetAll(now)]);
      && b.state == Closed && b.window == [] && b.failures == b.consecutiveFailures == b.consecutiveSuccesses == 0
      && b.total == b.succeeded == b.failed == b.rejected == 0
      && b.transitions == Run(c, es).transitions + (if Run(c, es).state == Closed then 0 else 1)
    ensures History(es + [ResetAll(now)]) == []
    ensures !Refuses(c, es + [ResetAll(now)], e)
  {
    RunExtends(c, es, ResetAll(now));
  }

  /** In every run a request is refused exactly when the breaker is open and the next attempt has not passed. */
  lemma RefusedIff(c: Config, es: seq<Event>, e: Event)
    ensures Refuses(c, es, e) <==> e.Allow? && Run(c, es).state == Open && e.now <= Run(c, es).nextAttempt
  {
  }

  /** A breaker that no failure opens refuses nobody. */
  lemma {:induction false} NobodyRefused(c: Config, es: seq<Event>, n: nat)
    requires n <= |es| && forall i | 0 <= i < |es| :: !OpensAt(c, es, i)
    ensures Run(c, es[..n]).state != Open
    ensures n < |es| ==> !Refuses(c, es[..n], es[n])
  {
    if n > 0 {
      NobodyRefused(c, es, n - 1);
      assert !OpensAt(c, es, n - 1);
    }
    hide Run;
  }

  /** Requests refused since the last reset. */
  function Refusals(c: Config, es: seq<Event>): nat {
    if es == [] then 0
    else
      var front, e := es[..|es| - 1], es[|es| - 1];
      if e.ResetAll? then 0 else Refusals(c, front) + (if Refuses(c, front, e) then 1 else 0)
  }

  /** The calls that made them. */
  function RefusedSince(c: Config, es: seq<Event>): set<int> {
    if es == [] then {}
    else
      var front, e := es[..|es| - 1], es[|es| - 1];
      if e.ResetAll? then {} else RefusedSince(c, front) + (if Refuses(c, front, e) then {e.call} else {})
  }

  /** The calls that were refused, before or after the reset, and have not recorded it. */
  function Pending(c: Config, es: seq<Event>): set<int> {
    if es == [] then {}
    else
      var front, e := es[..|es| - 1], es[|es| - 1];
      if Refuses(c, front, e) then Pending(c, front) + {e.call}
      else if e.Rejection? then Pending(c, front) - {e.call}
      else Pending(c, front)
  }

  /** The same, at the last reset. */
  function PendingAtReset(c: Config, es: seq<Event>): set<int> {
    if es == [] then {}
    else
      var front := es[..|es| - 1];
      if es[|es| - 1].ResetAll? then Pending(c, front) else PendingAtReset(c, front)
  }

  /** A call whose request was refused at `i` is pending until it records that. */
  lemma {:induction false} RefusedIsPending(c: Config, es: seq<Event>, i: nat)
    requires i < |es| && Refuses(c, es[..i], es[i])
    requires forall j | i < j < |es| && es[j].Rejection? :: es[j].call != es[i].call
    ensures es[i].call in Pending(c, es)
  {
    hide Run, Allows;
    var n := |es| - 1;
    if i < n {
      assert es[..n][..i] == es[..i] && es[..n][i] == es[i];
      RefusedIsPending(c, es[..n], i);
    }
  }

  /** The calls counted as refused or pending have asked. */
  lemma {:induction false} PendingHaveAsked(c: Config, es: seq<Event>, call: int)
    requires call in RefusedSince(c, es) + Pending(c, es) + PendingAtReset(c, es)
    ensures exists i | 0 <= i < |es| :: es[i].Allow? && es[i].call == call
  {
    hide Run, Allows;
    var n := |es| - 1;
    if call in RefusedSince(c, es[..n]) + Pending(c, es[..n]) + PendingAtReset(c, es[..n]) {
      PendingHaveAsked(c, es[..n], call);
      var i :| 0 <= i < n && es[..n][i].Allow? && es[..n][i].call == call;
      assert es[i].Allow? && es[i].call == call;
    } else {
      assert es[n].Allow? && es[n].call == call;
    }
  }

  lemma OrderlyFront(c: Config, es: seq<Event>)
    requires Orderly(c, es) && es != []
    ensures Orderly(c, es[..|es| - 1])
  {
    hide Run, Allows;
    var front := es[..|es| - 1];
    forall j | 0 <= j < |front| && front[j].Rejection?
      ensures exists i | 0 <= i < j :: Refuses(c, front[..i], front[i]) && front[i].call == front[j].call
    {
      assert es[j] == front[j];
      var i :| 0 <= i < j && Refuses(c, es[..i], es[i]) && es[i].call == es[j].call;
      assert front[..i] == es[..i] && front[i] == es[i];
    }
  }

  /** In an orderly run a new request is of a new call, and a recorded refusal was pending. */
  lemma OrderlyLast(c: Config, es: seq<Event>)
    requires Orderly(c, es) && es != []
    ensures var front, e := es[..|es| - 1], es[|es| - 1];
      && (e.Allow? ==> e.call !in RefusedSince(c, front) + Pending(c, front) + PendingAtReset(c, front))
      && (e.Rejection? ==> e.call in Pending(c, front))
  {
    hide Run, Allows, RefusedSince, Pending, PendingAtReset;
    var front, e := es[..|es| - 1], es[|es| - 1];
    if e.Allow? && e.call in RefusedSince(c, front) + Pending(c, front) + PendingAtReset(c, front) {
      PendingHaveAsked(c, front, e.call);
    }
    if e.Rejection? {
      var i :| 0 <= i < |front| && Refuses(c, es[..i], es[i]) && es[i].call == e.call;
      assert front[..i] == es[..i] && front[i] == es[i];
      RefusedIsPending(c, front, i);
    }
  }

  ghost predicate Counts(c: Config, es: seq<Event>) {
    var refused, pending, before := RefusedSince(c, es), Pending(c, es), PendingAtReset(c, es);
    && pending <= refused + before && refused !! before
    && |refused| == Refusals(c, es)
    && Run(c, es).rejected == |refused + before - pending|
  }

  /** One event in terms of the sets. */
  lemma SetsStep(c: Config, front: seq<Event>, e: Event)
    ensures var es := front + [e];
      var refused, pending, before := RefusedSince(c, front), Pending(c, front), PendingAtReset(c, front);
      && Run(c, es) == Step(c, Run(c, front), e)
      && RefusedSince(c, es)
         == (if e.ResetAll? then {} else if Refuses(c, front, e) then refused + {e.call} else refused)
      && Refusals(c, es)
         == (if e.ResetAll? then 0 else Refusals(c, front) + if Refuses(c, front, e) then 1 else 0)
      && Pending(c, es)
         == (if Refuses(c, front, e) then pending + {e.call} else if e.Rejection? then pending - {e.call} else pending)
      && PendingAtReset(c, es) == (if e.ResetAll? then pending else before)
  {
    hide Step, Allows;
    assert (front + [e])[..|front|] == front;
  }

  lemma StepRejected(c: Config, b: Breaker, e: Event)
    ensures Step(c, b, e).rejected == if e.ResetAll? then 0 else if e.Rejection? then b.rejected + 1 else b.rejected
  {
    hide OpenDelay, AddWindowRecord, ShouldTrip, Allows;
  }

  lemma Asked(refused: set<int>, before: set<int>, pending: set<int>, call: int)
    requires call !in refused + before + pending
    ensures |refused + {call}| == |refused| + 1
    ensures refused + {call} + before - (pending + {call}) == refused + before - pending
  {
  }

  lemma Recorded(all: set<int>, pending: set<int>, call: int)
    requires pending <= all && call in pending
    ensures |all - (pending - {call})| == |all - pending| + 1
  {
    assert all - (pending - {call}) == (all - pending) + {call};
  }

  lemma {:induction false} RunCounts(c: Config, es: seq<Event>)
    requires Orderly(c, es)
    ensures Counts(c, es)
  {
    hide Orderly, Step, Refuses, Run, RefusedSince, Refusals, Pending, PendingAtReset;
    if es == [] {
      NothingCounts(c);
    } else {
      var front, e := es[..|es| - 1], es[|es| - 1];
      assert front + [e] == es;
      SetsStep(c, front, e);
      OrderlyFront(c, es);
      OrderlyLast(c, es);
      RunCounts(c, front);
      StepRejected(c, Run(c, front), e);
      OnlyAsking(c, front, e);
      var refused, pending, before := RefusedSince(c, front), Pending(c, front), PendingAtReset(c, front);
      if Refuses(c, front, e) {
        Asked(refused, before, pending, e.call);
      } else if e.Rejection? {
        Recorded(refused + before, pending, e.call);
      }
    }
  }

  lemma NothingCounts(c: Config)
    ensures Counts(c, [])
  {
  }

  lemma OnlyAsking(c: Config, es: seq<Event>, e: Event)
    ensures Refuses(c, es, e) ==> e.Allow?
  {
  }

  /** However calls interleave, the rejection counter is the number of requests refused since the last reset,
      plus the calls refused before it that had not recorded that then, minus those that have not recorded
      it now; the latter are among the former, so with nobody pending at either time it is exact. */
  lemma RefusalsCounted(c: Config, es: seq<Event>)
    requires Orderly(c, es)
    ensures Pending(c, es) <= RefusedSince(c, es) + PendingAtReset(c, es)
    ensures Run(c, es).rejected == Refusals(c, es) + |PendingAtReset(c, es)| - |Pending(c, es)|
    ensures 0 <= Run(c, es).rejected <= Refusals(c, es) + |PendingAtReset(c, es)|
    ensures Pending(c, es) == PendingAtReset(c, es) == {} ==> Run(c, es).rejected == Refusals(c, es)
  {
    hide Orderly, Run, RefusedSince, Pending, PendingAtReset, Refusals;
    RunCounts(c, es);
    var all, pending := RefusedSince(c, es) + PendingAtReset(c, es), Pending(c, es);
    assert |all| == |RefusedSince(c, es)| + |PendingAtReset(c, es)|;
    assert all == (all - pending) + pending;
  }

  // -------------------------------------------------------------------------------------
  // State changes

  /** The only edges of any run, and what each needs. */
  lemma Edges(c: Config, es: seq<Event>, e: Event)
    requires !e.ResetAll?
    ensures var b, b' := Run(c, es), Run(c, es + [e]);
      && (b.state != b'.state ==>
            || (b.state == Closed && b'.state == Open && e.Failure?)
            || (b.state == Open && b'.state == HalfOpen && e.Allow? && e.now > b.nextAttempt)
            || (b.state == HalfOpen && b'.state == Open && e.Failure?)
            || (b.state == HalfOpen && b'.state == Closed && e.Success?))
      && b'.transitions == b.transitions + (if b.state == b'.state then 0 else 1)
  {
    RunExtends(c, es, e);
    hide Run, History, OpenDelay, After, AddWindowRecord, ShouldTrip;
  }

  lemma OpenStep(c: Config, b: Breaker, e: Event)
    requires b.state == Open && !e.ResetAll? && (e.Allow? ==> e.now <= b.nextAttempt)
    ensures Step(c, b, e).state == Open && Step(c, b, e).nextAttempt == b.nextAttempt
  {
    hide OpenDelay, AddWindowRecord, ShouldTrip;
  }

  lemma {:induction false} OpenStays(c: Config, es: seq<Event>, later: seq<Event>)
    requires Run(c, es).state == Open
    requires forall e <- later :: !e.ResetAll? && (e.Allow? ==> e.now <= Run(c, es).nextAttempt)
    ensures Run(c, es + later).state == Open
    ensures Run(c, es + later).nextAttempt == Run(c, es).nextAttempt
  {
    hide Run, Step;
    if later == [] {
      assert es + later == es;
    } else {
      var front, e := later[..|later| - 1], later[|later| - 1];
      OpenStays(c, es, front);
      assert e in later;
      OpenStep(c, Run(c, es + front), e);
      assert es + later == (es + front) + [e];
      RunExtends(c, es + front, e);
    }
  }

  /** Until a request comes after the next attempt, nothing but a reset moves an open breaker and every
      request is refused, whatever results arrive and however late. */
  lemma OpenHolds(c: Config, es: seq<Event>, later: seq<Event>)
    requires Run(c, es).state == Open
    requires forall e <- later :: !e.ResetAll? && (e.Allow? ==> e.now <= Run(c, es).nextAttempt)
    ensures Run(c, es + later).state == Open
    ensures Run(c, es + later).nextAttempt == Run(c, es).nextAttempt
    ensures forall i | 0 <= i < |later| && later[i].Allow? ::
              !Allows(Run(c, es + later[..i]), later[i].now)
  {
    hide Run, Step;
    OpenStays(c, es, later);
    forall i | 0 <= i < |later| && later[i].Allow?
      ensures !Allows(Run(c, es + later[..i]), later[i].now)
    {
      assert later[i] in later;
      OpenStays(c, es, later[..i]);
    }
  }

  /** The first request after the next attempt goes through and half-opens the breaker, whatever came between
      the opening and it. */
  lemma OpenEnds(c: Config, es: seq<Event>, later: seq<Event>, call: int, now: int)
    requires Run(c, es).state == Open && now > Run(c, es).nextAttempt
    requires forall e <- later :: !e.ResetAll? && (e.Allow? ==> e.now <= Run(c, es).nextAttempt)
    ensures Allows(Run(c, es + later), now)
    ensures Run(c, es + later + [Allow(call, now)]).state == HalfOpen
  {
    hide Run;
    OpenHolds(c, es, later);
    RunExtends(c, es + later, Allow(call, now));
  }

  /** The results recorded since the breaker last entered half-open. */
  function SinceHalfOpen(c: Config, es: seq<Event>): seq<Record> {
    if es == [] then []
    else
      var prefix, e := es[..|es| - 1], es[|es| - 1];
      if Run(c, prefix).state != HalfOpen && Run(c, es).state == HalfOpen then []
      else SinceHalfOpen(c, prefix) + e.Results()
  }

  lemma HalfOpenStep(c: Config, b: Breaker, e: Event)
    requires !e.ResetAll?
    ensures b.state != HalfOpen && Step(c, b, e).state == HalfOpen ==>
              e.Results() == [] && Step(c, b, e).consecutiveSuccesses == 0
    ensures b.state == HalfOpen && Step(c, b, e).state == HalfOpen ==>
              Step(c, b, e).consecutiveSuccesses
              == if e.Success? then b.consecutiveSuccesses + 1
                 else if e.Failure? then 0
                 else b.consecutiveSuccesses
    ensures b.state == HalfOpen ==>
              (Step(c, b, e).state == Closed <==> e.Success? && b.consecutiveSuccesses + 1 >= c.successThreshold)
  {
    hide OpenDelay, AddWindowRecord, ShouldTrip;
  }

  lemma {:induction false} HalfOpenCounter(c: Config, es: seq<Event>)
    ensures Run(c, es).state == HalfOpen ==>
              Run(c, es).consecutiveSuccesses == TrailingSuccesses(SinceHalfOpen(c, es))
  {
    if es != [] && !es[|es| - 1].ResetAll? {
      hide Step;
      var prefix, e := es[..|es| - 1], es[|es| - 1];
      HalfOpenCounter(c, prefix);
      HalfOpenStep(c, Run(c, prefix), e);
      var since := SinceHalfOpen(c, prefix);
      if e.Results() != [] {
        CountsExtend(since, e.Results()[0]);
      } else {
        assert since + e.Results() == since;
      }
    }
  }

  /** From half-open, a result closes the breaker exactly when the results recorded since it
      half-opened now end in at least `successThreshold` successes (and at least one). */
  lemma {:induction false} HalfOpenCloses(c: Config, es: seq<Event>, e: Event)
    requires Run(c, es).state == HalfOpen && !e.ResetAll?
    ensures Run(c, es + [e]).state == Closed
       <==> (e.Success? && TrailingSuccesses(SinceHalfOpen(c, es) + e.Results()) >= c.successThreshold)
  {
    hide Run, Step, SinceHalfOpen, TrailingSuccesses;
    RunExtends(c, es, e);
    HalfOpenCounter(c, es);
    HalfOpenStep(c, Run(c, es), e);
    if e.Success? {
      CountsExtend(SinceHalfOpen(c, es), e.Results()[0]);
    }
  }

  // -------------------------------------------------------------------------------------
  // Failure runs

  /** A closed breaker's failure run is below the threshold. */
  lemma {:induction false} ClosedBelowThreshold(c: Config, es: seq<Event>)
    requires c.failureThreshold >= 1
    ensures Run(c, es).state == Closed ==> Run(c, es).failures < c.failureThreshold
  {
    if es != [] {
      ClosedBelowThreshold(c, es[..|es| - 1]);
    }
  }

  /** Every run keeps closed breakers below the threshold exactly when the threshold is
      positive: with a threshold of zero or less the new breaker is closed at its threshold. */
  lemma ClosedBelowThresholdIff(c: Config)
    ensures c.failureThreshold >= 1
       <==> forall es: seq<Event> :: Run(c, es).state == Closed ==> Run(c, es).failures < c.failureThreshold
  {
    if c.failureThreshold >= 1 {
      forall es: seq<Event>
        ensures Run(c, es).state == Closed ==> Run(c, es).failures < c.failureThreshold
      {
        ClosedBelowThreshold(c, es);
      }
    } else {
      var es: seq<Event> := [];
      assert Run(c, es) == INITIAL;
    }
  }

  // -------------------------------------------------------------------------------------
  // Backoff

  lemma {:induction false} Pow2Monotone(m: nat, n: nat)
    requires m <= n
    ensures 1 <= Pow2(m) <= Pow2(n)
    decreases n
  {
    if m < n {
      Pow2Monotone(m, n - 1);
    } else if n > 0 {
      Pow2Monotone(m - 1, n - 1);
    }
  }

  /** The capped product the backoff is meant to be. */
  function Backoff(c: Config, run: int): int
    requires run >= 1
  {
    Min(c.timeout * Pow2(Min(run - 1, 10)), c.maxTimeout)
  }

  /** The delay is the capped product exactly when the 64-bit product does not wrap, or wraps
      to something no smaller than the cap. */
  lemma OpenDelayExact(c: Config, run: int)
    requires c.exponentialBackoff && c.timeout >= 0 && IsInt64(c.maxTimeout) && run >= 1
    ensures OpenDelay(c, run) == Backoff(c, run)
       <==> (|| IsInt64(c.timeout * Pow2(Min(run - 1, 10)))
             || Wrap64(c.timeout * Pow2(Min(run - 1, 10))) >= c.maxTimeout)
  {
    Pow2Monotone(0, Min(run - 1, 10));
    var product := c.timeout * Pow2(Min(run - 1, 10));
    assert product >= 0;
    assert IsInt64(product) ==> Wrap64(product) == product;
    assert IsInt64(Wrap64(product));
  }

  /** A timeout of 2^53 nanoseconds (104 days) wraps at the eleventh failure: the breaker opens with
      a next attempt in the past. */
  lemma BackoffOverflows(c: Config)
    requires c.exponentialBackoff && c.timeout == 0x20_0000_0000_0000 && 0 <= c.maxTimeout
    ensures OpenDelay(c, 11) == -INT64_LIMIT
    ensures Backoff(c, 11) >= 0
  {
    assert Pow2(10) == 1024 by {
      assert Pow2(5) == 32;
    }
  }

  function Failures(n: nat): seq<Event> {
    seq(n, _ => Failure(0, 0, 0))
  }

  lemma {:induction false} BelowThreshold(c: Config, n: nat)
    requires n < c.failureThreshold && n < c.minRequestThreshold
    ensures Run(c, Failures(n)).state == Closed && Run(c, Failures(n)).failures == Run(c, Failures(n)).total == n
  {
    if n > 0 {
      hide OpenDelay, AddWindowRecord;
      assert Failures(n)[..n - 1] == Failures(n - 1);
      BelowThreshold(c, n - 1);
    }
  }

  /** In a run: such a breaker with a threshold of eleven opens at its eleventh failure with a next attempt in
      the past, so it lets the next request through at once. */
  lemma OverflowOpensInThePast(c: Config, now: int)
    requires c.exponentialBackoff && c.timeout == 0x20_0000_0000_0000 && 0 <= c.maxTimeout
    requires c.failureThreshold == 11 && c.minRequestThreshold > 11 && now >= 0
    ensures var b := Run(c, Failures(11));
      b.state == Open && b.nextAttempt == -INT64_LIMIT && Allows(b, now)
  {
    hide OpenDelay, AddWindowRecord;
    assert Failures(11)[..10] == Failures(10);
    BelowThreshold(c, 10);
    BackoffOverflows(c);
  }

  /** The delays of the first failure runs: the timeout doubles up to the eleventh failure and is capped. */
  lemma DelayTable(c: Config)
    requires SafeBackoff(c)
    ensures OpenDelay(c, 1) == Min(c.timeout, c.maxTimeout)
    ensures OpenDelay(c, 2) == Min(2 * c.timeout, c.maxTimeout)
    ensures OpenDelay(c, 5) == Min(16 * c.timeout, c.maxTimeout)
    ensures forall run | run >= 11 :: OpenDelay(c, run) == Min(1024 * c.timeout, c.maxTimeout)
  {
    hide OpenDelay;
    assert Pow2(4) == 16;
    assert Pow2(10) == 1024 by {
      assert Pow2(5) == 32;
    }
    SafeBackoffIsExact(c, 1);
    SafeBackoffIsExact(c, 2);
    SafeBackoffIsExact(c, 5);
    forall run | run >= 11
      ensures OpenDelay(c, run) == Min(1024 * c.timeout, c.maxTimeout)
    {
      SafeBackoffIsExact(c, run);
    }
  }

  ghost predicate SafeBackoff(c: Config) {
    c.exponentialBackoff && c.timeout >= 0 && IsInt64(c.timeout * 1024)
  }

  lemma SafeBackoffIsExact(c: Config, run: int)
    requires SafeBackoff(c) && run >= 1
    ensures OpenDelay(c, run) == Backoff(c, run)
  {
    var e := Min(run - 1, 10);
    Pow2Monotone(e, 10);
    assert Pow2(10) == 1024 by {
      assert Pow2(5) == 32;
    }
    MulMonotone(c.timeout, Pow2(e), 1024);
    assert Wrap64(c.timeout * Pow2(e)) == c.timeout * Pow2(e);
  }

  lemma SafeDelayGrows(c: Config, m: int, n: int)
    requires SafeBackoff(c) && 1 <= m <= n
    ensures OpenDelay(c, m) <= OpenDelay(c, n)
  {
    hide OpenDelay, Pow2;
    SafeBackoffIsExact(c, m);
    SafeBackoffIsExact(c, n);
    Pow2Monotone(Min(m - 1, 10), Min(n - 1, 10));
    MulMonotone(c.timeout, Pow2(Min(m - 1, 10)), Pow2(Min(n - 1, 10)));
  }

  lemma WrapShrinks(c: Config, k: nat)
    requires c.exponentialBackoff && 0 <= c.timeout && 0 <= c.maxTimeout && 1 <= k <= 10
    requires IsInt64(c.timeout * Pow2(k - 1)) && !IsInt64(c.timeout * Pow2(k))
    ensures OpenDelay(c, k + 1) < 0 <= OpenDelay(c, k)
  {
    hide Pow2, Wrap64;
    Doubling(c.timeout, k);
    WrapsOnce(c.timeout * Pow2(k - 1));
    WrapsOnce(c.timeout * Pow2(k));
  }

  lemma Doubling(x: int, k: nat)
    requires x >= 0 && k >= 1
    ensures 0 <= x * Pow2(k - 1) && x * Pow2(k) == 2 * (x * Pow2(k - 1))
  {
    Pow2Monotone(0, k - 1);
    MulMonotone(x, 0, Pow2(k - 1));
  }

  lemma WrapsOnce(x: int)
    requires 0 <= x < 2 * INT64_LIMIT
    ensures Wrap64(x) == if IsInt64(x) then x else x - 2 * INT64_LIMIT
  {
  }

  /** The first doubling that leaves int64 is a failure count whose delay is below the one before. */
  lemma {:induction false} FirstWrapShrinks(c: Config, k: nat)
    requires c.exponentialBackoff && 0 <= c.timeout && IsInt64(c.timeout) && 0 <= c.maxTimeout
    requires k <= 10 && !IsInt64(c.timeout * Pow2(k))
    ensures exists m | 1 <= m <= k :: OpenDelay(c, m + 1) < OpenDelay(c, m)
  {
    hide OpenDelay;
    assert k > 0;
    if IsInt64(c.timeout * Pow2(k - 1)) {
      WrapShrinks(c, k);
    } else {
      FirstWrapShrinks(c, k - 1);
    }
  }

  /** A longer failure run never gets a shorter delay, exactly when the largest product fits int64. */
  lemma DelayGrowsIff(c: Config)
    requires c.exponentialBackoff && 0 <= c.timeout && IsInt64(c.timeout) && 0 <= c.maxTimeout
    ensures SafeBackoff(c) <==> forall m, n | 1 <= m <= n :: OpenDelay(c, m) <= OpenDelay(c, n)
  {
    hide OpenDelay;
    if SafeBackoff(c) {
      forall m, n | 1 <= m <= n
        ensures OpenDelay(c, m) <= OpenDelay(c, n)
      {
        SafeDelayGrows(c, m, n);
      }
    } else {
      assert Pow2(10) == 1024 by {
        assert Pow2(5) == 32;
      }
      FirstWrapShrinks(c, 10);
      var m :| 1 <= m <= 10 && OpenDelay(c, m + 1) < OpenDelay(c, m);
    }
  }

  /** Event `i` of the run opens the breaker. */
  predicate OpensAt(c: Config, es: seq<Event>, i: nat)
    requires i < |es|
  {
    Run(c, es[..i]).state != Open && Run(c, es[..i + 1]).state == Open
  }

  lemma StepFailures(c: Config, b: Breaker, e: Event)
    ensures Step(c, b, e).failures
         == match e
            case Success(_) => 0
            case Failure(_, _, _) => b.failures + 1
            case ResetAll(_) => 0
            case _ => b.failures
  {
    hide OpenDelay, AddWindowRecord, ShouldTrip;
  }

  lemma {:induction false} FailuresAreTrailing(c: Config, es: seq<Event>)
    ensures Run(c, es).failures == TrailingFailures(History(es))
  {
    hide Step;
    if es != [] {
      var prefix, e := es[..|es| - 1], es[|es| - 1];
      FailuresAreTrailing(c, prefix);
      StepFailures(c, Run(c, prefix), e);
      var h := History(prefix);
      if e.Results() != [] {
        CountsExtend(h, e.Results()[0]);
      } else {
        assert h + e.Results() == h;
      }
    }
  }

  lemma OpeningStep(c: Config, b: Breaker, e: Event)
    requires b.state != Open && Step(c, b, e).state == Open
    ensures e.Failure? && Step(c, b, e).failures == b.failures + 1
    ensures Step(c, b, e).nextAttempt == e.openedAt + OpenDelay(c, b.failures + 1)
  {
    hide OpenDelay, AddWindowRecord, ShouldTrip;
  }

  /** Each opening schedules the next attempt one backoff after the opening, the backoff of
      the failure run in the history; its exponent is between 0 and 10. */
  lemma OpeningDelay(c: Config, es: seq<Event>, i: nat)
    requires i < |es| && OpensAt(c, es, i)
    ensures es[i].Failure?
    ensures var run := TrailingFailures(History(es[..i + 1]));
      && run >= 1
      && 0 <= Min(run - 1, 10) <= 10
      && Run(c, es[..i + 1]).nextAttempt == es[i].openedAt + OpenDelay(c, run)
      && (SafeBackoff(c) ==> Run(c, es[..i + 1]).nextAttempt == es[i].openedAt + Backoff(c, run))
      && (!c.exponentialBackoff ==> Run(c, es[..i + 1]).nextAttempt == es[i].openedAt + c.timeout)
  {
    hide Run, History, TrailingFailures, Backoff, SafeBackoff, Wrap64, Multiplier;
    assert es[..i + 1] == es[..i] + [es[i]];
    RunExtends(c, es[..i], es[i]);
    OpeningStep(c, Run(c, es[..i]), es[i]);
    FailuresAreTrailing(c, es[..i + 1]);
    FailuresAreTrailing(c, es[..i]);
    if SafeBackoff(c) {
      SafeBackoffIsExact(c, TrailingFailures(History(es[..i + 1])));
    }
  }

  lemma {:induction false} FailuresGrow(c: Config, es: seq<Event>, i: nat, j: nat)
    requires i <= j <= |es|
    requires forall k | i <= k < j :: !es[k].Success? && !es[k].ResetAll?
    ensures Run(c, es[..i]).failures <= Run(c, es[..j]).failures
    decreases j
  {
    if i < j {
      FailuresGrow(c, es, i, j - 1);
      assert es[..j] == es[..j - 1] + [es[j - 1]];
      RunExtends(c, es[..j - 1], es[j - 1]);
    }
  }

  /** Openings with no success between them never wait less: the delay of the later one is at
      least that of the earlier one. */
  lemma DelaysNeverShrink(c: Config, es: seq<Event>, i: nat, j: nat)
    requires SafeBackoff(c)
    requires i < j < |es| && OpensAt(c, es, i) && OpensAt(c, es, j)
    requires forall k | i <= k <= j :: !es[k].Success? && !es[k].ResetAll?
    ensures es[i].Failure? && es[j].Failure?
    ensures Run(c, es[..i + 1]).nextAttempt - es[i].openedAt
         <= Run(c, es[..j + 1]).nextAttempt - es[j].openedAt
  {
    hide Run, History, TrailingFailures, OpenDelay;
    OpeningDelay(c, es, i);
    OpeningDelay(c, es, j);
    FailuresAreTrailing(c, es[..i + 1]);
    FailuresAreTrailing(c, es[..j + 1]);
    FailuresGrow(c, es, i + 1, j + 1);
    SafeDelayGrows(c, Run(c, es[..i + 1]).failures, Run(c, es[..j + 1]).failures);
  }

  // -------------------------------------------------------------------------------------
  // The object

  datatype Outcome = Succeeded | Failed | CallerCancelled

  datatype ExecuteResult = Cancelled | Refused | Returned(outcome: Outcome)

  class CircuitBreaker {
    const config: Config
    var state: State
    var failures: int
    var nextAttempt: int
    var totalRequests: int
    var successfulRequests: int
    var failedRequests: int
    var rejectedRequests: int
    var consecutiveFailures: int
    var consecutiveSuccesses: int
    var stateTransitions: int
    var windowRequests: seq<Record>

    ghost function View(): Breaker
      reads this
    {
      Breaker(state, failures, nextAttempt, totalRequests, successfulRequests, failedRequests,
              rejectedRequests, consecutiveFailures, consecutiveSuccesses, stateTransitions,
              windowRequests)
    }

    constructor (config: Config)
      ensures this.config == config
      ensures View() == INITIAL
    {
      this.config := config;
      state, failures, nextAttempt := Closed, 0, ZERO_TIME;
      totalRequests, successfulRequests, failedRequests, rejectedRequests := 0, 0, 0, 0;
      consecutiveFailures, consecutiveSuccesses, stateTransitions := 0, 0, 0;
      windowRequests := [];
    }

    method SetStateTo(newState: State, now: int)
      modifies this
      ensures View() == SetState(config, old(View()), newState, now)
    {
      if state == newState {
        return;
      }
      state := newState;
      match newState {
        case Open =>
          var timeout := config.timeout;
          if config.exponentialBackoff {
            timeout := Wrap64(config.timeout * Multiplier(failures));
            if timeout > config.maxTimeout {
              timeout := config.maxTimeout;
            }
          }
          nextAttempt := now + timeout;
        case Closed =>
          failures := 0;
          nextAttempt := ZERO_TIME;
        case HalfOpen =>
          consecutiveSuccesses := 0;
      }
      stateTransitions := stateTransitions + 1;
    }

    method Allow(now: int) returns (allowed: bool)
      modifies this
      ensures allowed <==> !(old(state) == Open && now <= old(nextAttempt))
      ensures View() == AllowRequest(config, old(View()), now)
    {
      match state {
        case Closed => allowed := true;
        case Open =>
          if now > nextAttempt {
            SetStateTo(HalfOpen, now);
            allowed := true;
          } else {
            allowed := false;
          }
        case HalfOpen => allowed := true;
      }
    }

    /** Appends the record, then rebuilds the window without the records that left it. */
    method AppendToWindow(timestamp: int, success: bool)
      modifies this`windowRequests
      ensures windowRequests == AddWindowRecord(config, old(windowRequests), Record(timestamp, success))
    {
      windowRequests := windowRequests + [Record(timestamp, success)];
      var windowStart := timestamp - config.timeWindow;
      var validRecords := [];
      for i := 0 to |windowRequests|
        invariant validRecords == After(windowRequests[..i], windowStart)
      {
        assert windowRequests[..i + 1][..i] == windowRequests[..i];
        var r := windowRequests[i];
        if r.time > windowStart {
          validRecords := validRecords + [r];
        }
      }
      assert windowRequests[..|windowRequests|] == windowRequests;
      windowRequests := validRecords;
    }

    method CurrentFailureRate(now: int) returns (rate: real)
      ensures rate == FailureRate(After(windowRequests, now - config.timeWindow))
    {
      hide After, FailureCount;
      var windowStart := now - config.timeWindow;
      assert After([], windowStart) == [] && FailureCount([]) == 0 by {
        CountsStart(windowStart);
      }
      var totalRequests, failedRequests := 0, 0;
      for i := 0 to |windowRequests|
        invariant totalRequests == |After(windowRequests[..i], windowStart)|
        invariant failedRequests == FailureCount(After(windowRequests[..i], windowStart))
      {
        var record := windowRequests[i];
        assert windowRequests[..i + 1] == windowRequests[..i] + [record];
        AfterExtends(windowRequests[..i], record, windowStart);
        if record.time > windowStart {
          CountsExtend(After(windowRequests[..i], windowStart), record);
          totalRequests := totalRequests + 1;
          if !record.success {
            failedRequests := failedRequests + 1;
          }
        }
      }
      assert windowRequests[..|windowRequests|] == windowRequests;
      if totalRequests == 0 {
        return 0.0;
      }
      return failedRequests as real / totalRequests as real;
    }

    method Trips(now: int) returns (trip: bool)
      ensures trip == ShouldTrip(config, View(), now)
    {
      if failures >= config.failureThreshold {
        return true;
      }
      if totalRequests >= config.minRequestThreshold {
        var failureRate := CurrentFailureRate(now);
        if failureRate >= config.failureRateThreshold {
          return true;
        }
      }
      return false;
    }

    method Succeed(now: int)
      modifies this
      ensures View() == RecordSuccess(config, old(View()), now)
    {
      hide AddWindowRecord, OpenDelay;
      failures := 0;
      totalRequests := totalRequests + 1;
      successfulRequests := successfulRequests + 1;
      consecutiveFailures := 0;
      consecutiveSuccesses := consecutiveSuccesses + 1;
      AppendToWindow(now, true);
      if state == HalfOpen {
        if consecutiveSuccesses >= config.successThreshold {
          SetStateTo(Closed, now);
        }
      }
    }

    method Fail(recordedAt: int, ratedAt: int, openedAt: int)
      modifies this
      ensures View() == RecordFailure(config, old(View()), recordedAt, ratedAt, openedAt)
    {
      hide After, AddWindowRecord, OpenDelay, FailureRate;
      failures := failures + 1;
      totalRequests := totalRequests + 1;
      failedRequests := failedRequests + 1;
      consecutiveFailures := consecutiveFailures + 1;
      consecutiveSuccesses := 0;
      AppendToWindow(recordedAt, false);
      var trip := Trips(ratedAt);
      if trip {
        SetStateTo(Open, openedAt);
      }
    }

    method Reject()
      modifies this
      ensures View() == RecordRejection(old(View()))
    {
      rejectedRequests := rejectedRequests + 1;
    }

    method ResetBreaker(now: int)
      modifies this
      ensures View() == Reset(old(View()))
    {
      SetStateTo(Closed, now);
      failures, nextAttempt := 0, ZERO_TIME;
      totalRequests, successfulRequests, failedRequests, rejectedRequests := 0, 0, 0, 0;
      consecutiveFailures, consecutiveSuccesses := 0, 0;
      windowRequests := [];
    }

    /** One call with no other call interleaved.  `outcome` is what the protected function
        does; a call the caller had already cancelled, or that fails because its caller
        cancelled it, records nothing. */
    method Execute(call: int, preCancelled: bool, asked: int, outcome: Outcome,
                   recordedAt: int, ratedAt: int, openedAt: int)
      returns (r: ExecuteResult)
      modifies this
      ensures r == if preCancelled then Cancelled
                   else if old(state) == Open && asked <= old(nextAttempt) then Refused
                   else Returned(outcome)
      ensures r.Cancelled? ==> View() == old(View())
      ensures r.Refused? ==>
        View() == Step(config, Step(config, old(View()), Event.Allow(call, asked)), Rejection(call, asked))
      ensures r.Returned? ==>
        var b := Step(config, old(View()), Event.Allow(call, asked));
        View() == match outcome
          case Succeeded => Step(config, b, Success(recordedAt))
          case Failed => Step(config, b, Failure(recordedAt, ratedAt, openedAt))
          case CallerCancelled => b
    {
      if preCancelled {
        return Cancelled;
      }
      var allowed := Allow(asked);
      if !allowed {
        Reject();
        return Refused;
      }
      match outcome {
        case CallerCancelled =>
        case Failed => Fail(recordedAt, ratedAt, openedAt);
        case Succeeded => Succeed(recordedAt);
      }
      return Returned(outcome);
    }
  }
}
