/** The circuit breaker, split at the points where it takes its lock: operations run outside it. */
module CircuitBreakers {
  import opened Reals

  datatype Mode = Closed | Open | HalfOpen

  datatype Breaker = Breaker(failures: int, mode: Mode, openedAt: real)

  datatype Config = Config(threshold: int, recovery: real)

  /** What happens to the shared state, in lock order. Calls in flight finish in any order, or are
      abandoned without an outcome the breaker counts. */
  datatype Event = Enter(now: real) | Succeed | Fail(now: real) | Abandon

  const FRESH: Breaker := Breaker(0, Closed, 0.0)

  predicate Rejected(c: Config, b: Breaker, now: real) {
    b.mode == Open && now - b.openedAt < c.recovery
  }

  function Step(c: Config, b: Breaker, e: Event): Breaker {
    match e
    case Enter(now) => if b.mode == Open && !Rejected(c, b, now) then b.(mode := HalfOpen) else b
    case Succeed => b.(failures := 0, mode := Closed)
    case Fail(now) =>
      if b.failures + 1 >= c.threshold then Breaker(b.failures + 1, Open, now) else b.(failures := b.failures + 1)
    case Abandon => b
  }

  function Run(c: Config, events: seq<Event>): Breaker {
    if events == [] then FRESH else Step(c, Run(c, events[..|events| - 1]), events[|events| - 1])
  }

  /** The number of failed completions since the last successful one. */
  function TrailingFailures(events: seq<Event>): nat {
    if events == [] then 0
    else
      var earlier := TrailingFailures(events[..|events| - 1]);
      match events[|events| - 1]
      case Succeed => 0
      case Fail(_) => earlier + 1
      case _ => earlier
  }

  /** The instant of the last failed completion, if any. */
  function LastFailure(events: seq<Event>): real {
    if events == [] then 0.0
    else if events[|events| - 1].Fail? then events[|events| - 1].now
    else LastFailure(events[..|events| - 1])
  }

  /** A threshold below one behaves like one: the first failure opens the breaker. */
  function Effective(c: Config): int {
    if c.threshold < 1 then 1 else c.threshold
  }

  /** Under any interleaving the counter is the trailing run of failures, the breaker is closed exactly
      while that run is below the threshold, and an opening dates from the last failure. */
  lemma {:induction false} RunMeaning(c: Config, events: seq<Event>)
    ensures Run(c, events).failures == TrailingFailures(events)
    ensures Run(c, events).mode == Closed <==> TrailingFailures(events) < Effective(c)
    ensures Run(c, events).mode != Closed ==> Run(c, events).openedAt == LastFailure(events)
  {
    if events != [] {
      RunMeaning(c, events[..|events| - 1]);
    }
  }

  /** The instants of the events never decrease, and none is later than now: the clock is monotonic and read
      under the lock. */
  predicate Monotonic(events: seq<Event>, now: real) {
    events == [] || (
      var earlier := events[..|events| - 1];
      match events[|events| - 1]
      case Enter(at) => at <= now && Monotonic(earlier, at)
      case Fail(at) => at <= now && Monotonic(earlier, at)
      case _ => Monotonic(earlier, now))
  }

  /** A half-open breaker has waited out its recovery period. */
  lemma {:induction false} HalfOpenRecovered(c: Config, events: seq<Event>, now: real)
    requires Monotonic(events, now)
    ensures Run(c, events).mode == HalfOpen ==> now - Run(c, events).openedAt >= c.recovery
  {
    if events != [] {
      var at := match events[|events| - 1] case Enter(t) => t case Fail(t) => t case _ => now;
      HalfOpenRecovered(c, events[..|events| - 1], at);
    }
  }

  /** Hence a call is turned away exactly when enough failures trail and the last one is recent. */
  lemma RejectedMeaning(c: Config, events: seq<Event>, now: real)
    requires Monotonic(events, now)
    ensures Rejected(c, Run(c, events), now) <==>
      TrailingFailures(events) >= Effective(c) && now - LastFailure(events) < c.recovery
  {
    RunMeaning(c, events);
    HalfOpenRecovered(c, events, now);
  }

  /** A call entered after the last completion, no earlier than a recovery period after the last failure. */
  predicate Probing(c: Config, events: seq<Event>) {
    events != [] &&
    match events[|events| - 1]
    case Enter(now) => now - LastFailure(events) >= c.recovery || Probing(c, events[..|events| - 1])
    case Abandon => Probing(c, events[..|events| - 1])
    case _ => false
  }

  /** A breaker is half open exactly when enough failures trail and a probe was let through since. */
  lemma {:induction false} HalfOpenMeaning(c: Config, events: seq<Event>)
    ensures Run(c, events).mode == HalfOpen <==> TrailingFailures(events) >= Effective(c) && Probing(c, events)
  {
    RunMeaning(c, events);
    if events != [] {
      HalfOpenMeaning(c, events[..|events| - 1]);
      RunMeaning(c, events[..|events| - 1]);
    }
  }

  // ---------------------------------------------------------------- sequential runs that always fail

  /** A call that starts and, if it is let through, fails at `end`. */
  datatype Call = Call(start: real, end: real)

  function Execute(c: Config, b: Breaker, call: Call): Breaker {
    if Rejected(c, b, call.start) then b else Step(c, Step(c, b, Enter(call.start)), Fail(call.end))
  }

  /** How many of the calls reach the operation. */
  function Reaching(c: Config, b: Breaker, calls: seq<Call>): nat
    decreases |calls|
  {
    if calls == [] then 0
    else (if Rejected(c, b, calls[0].start) then 0 else 1) + Reaching(c, Execute(c, b, calls[0]), calls[1..])
  }

  /** Calls one after the other, none starting before `from` or ending after `to`. */
  ghost predicate Sequential(calls: seq<Call>, from: real, to: real)
    decreases |calls|
  {
    if calls == [] then from <= to
    else from <= calls[0].start <= calls[0].end && Sequential(calls[1..], calls[0].end, to)
  }

  lemma {:induction false} SequentialLater(calls: seq<Call>, from: real, later: real, to: real)
    requires Sequential(calls, later, to) && from <= later
    ensures Sequential(calls, from, to)
  {
  }

  lemma {:induction false} SequentialSpan(calls: seq<Call>, from: real, to: real)
    requires Sequential(calls, from, to)
    ensures from <= to
    decreases |calls|
  {
    if calls != [] { SequentialSpan(calls[1..], calls[0].end, to); }
  }

  /** n recovery periods. */
  function Periods(c: Config, n: nat): real {
    n as real * c.recovery
  }

  lemma PeriodsNext(c: Config, n: nat)
    requires c.recovery > 0.0
    ensures Periods(c, 0) == 0.0 && 0.0 <= Periods(c, n) && Periods(c, n + 1) == c.recovery + Periods(c, n)
  {
    MulNonNegative(n as real, c.recovery);
  }

  /** From an open breaker each probe costs a full recovery period. */
  lemma {:induction false} OpenProbes(c: Config, b: Breaker, calls: seq<Call>, to: real)
    requires c.recovery > 0.0 && b.mode == Open && b.failures + 1 >= c.threshold
    requires Sequential(calls, b.openedAt, to)
    ensures Periods(c, Reaching(c, b, calls)) <= to - b.openedAt
    decreases |calls|
  {
    hide Periods;
    PeriodsNext(c, 0);
    if calls != [] {
      if Rejected(c, b, calls[0].start) {
        SequentialLater(calls[1..], b.openedAt, calls[0].end, to);
        OpenProbes(c, b, calls[1..], to);
      } else {
        var next := Execute(c, b, calls[0]);
        OpenProbes(c, next, calls[1..], to);
        PeriodsNext(c, Reaching(c, next, calls[1..]));
      }
    }
  }

  /** From a closed breaker `threshold - failures` calls go through before probing begins. */
  lemma {:induction false} ClosedCalls(c: Config, b: Breaker, calls: seq<Call>, from: real, to: real)
    requires c.recovery > 0.0 && b.mode == Closed && 0 <= b.failures < Effective(c)
    requires Sequential(calls, from, to)
    ensures Periods(c, Reaching(c, b, calls)) <= Periods(c, Effective(c) - b.failures) + (to - from)
    decreases |calls|
  {
    hide Periods;
    PeriodsNext(c, Effective(c) - b.failures - 1);
    if calls != [] {
      var next := Execute(c, b, calls[0]);
      PeriodsNext(c, Reaching(c, next, calls[1..]));
      if next.mode == Open {
        OpenProbes(c, next, calls[1..], to);
      } else {
        ClosedCalls(c, next, calls[1..], calls[0].end, to);
      }
    }
  }

  /** A fresh breaker in front of an operation that always fails for a time D lets through at most
      threshold + D / recovery calls. */
  lemma FailingOperationLoad(c: Config, calls: seq<Call>, from: real, to: real)
    requires c.recovery > 0.0 && Sequential(calls, from, to)
    ensures Reaching(c, FRESH, calls) as real <= Effective(c) as real + (to - from) / c.recovery
  {
    ClosedCalls(c, FRESH, calls, from, to);
    Divide(Reaching(c, FRESH, calls) as real, Effective(c) as real, to - from, c.recovery);
  }

  lemma Divide(x: real, y: real, d: real, r: real)
    requires 0.0 < r && x * r <= y * r + d
    ensures x <= y + d / r
  {
    var q := d / r;
    assert q * r == d;
    if x > y + q { MulPositive(x - (y + q), r); }
  }

  // ---------------------------------------------------------------- the breaker object

  class CircuitBreaker {
    const config: Config
    var failures: int
    var mode: Mode
    var openedAt: real

    function Now(): Breaker
      reads this
    {
      Breaker(failures, mode, openedAt)
    }

    constructor (threshold: int, recovery: real)
      ensures config == Config(threshold, recovery) && Now() == FRESH
    {
      config := Config(threshold, recovery);
      failures, mode, openedAt := 0, Closed, 0.0;
    }

    /** The first locked section of execute: admit the call, or raise CircuitOpenError. */
    method Begin(now: real) returns (admitted: bool)
      modifies this`mode
      ensures admitted <==> !Rejected(config, old(Now()), now)
      ensures Now() == Step(config, old(Now()), Enter(now))
    {
      if mode == Open {
        if now - openedAt < config.recovery { return false; }
        mode := HalfOpen;
      }
      return true;
    }

    /** The locked section after the operation raised. */
    method RecordFailure(now: real)
      modifies this
      ensures Now() == Step(config, old(Now()), Fail(now))
    {
      failures := failures + 1;
      if failures >= config.threshold {
        mode := Open;
        openedAt := now;
      }
    }

    /** The locked section after the operation returned. */
    method RecordSuccess()
      modifies this
      ensures Now() == Step(config, old(Now()), Succeed)
    {
      failures := 0;
      mode := Closed;
    }
  }
}
