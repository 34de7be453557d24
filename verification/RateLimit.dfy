/** The in-memory rate-limit backend: token buckets and sliding-window logs, one of each per key. */
module RateLimit {
  import opened Options
  import opened Reals

  datatype Decision = Decision(allowed: bool, remaining: int, retryAfter: real)

  /** A policy as the registry admits it: positive limit and window, non-negative burst. */
  datatype Policy = Policy(limit: int, windowSeconds: int, burst: int) {
    predicate Valid() {
      limit > 0 && windowSeconds > 0 && burst >= 0
    }

    function Capacity(): int {
      limit + burst
    }

    /** Entries at or before this instant have left the window that ends now. */
    function Horizon(now: real): (h: real)
      ensures h + windowSeconds as real == now
    {
      now - windowSeconds as real
    }

    function Rate(): (r: real)
      requires Valid()
      ensures r > 0.0 && r * windowSeconds as real == limit as real
    {
      limit as real / windowSeconds as real
    }
  }

  // ---------------------------------------------------------------- token bucket

  datatype Level = Level(tokens: real, updated: real)

  /** The tokens that accrue between two instants. */
  function Accrued(p: Policy, since: real, now: real): real
    requires p.Valid()
  {
    (now - since) * p.Rate()
  }

  function Refilled(p: Policy, b: Level, now: real): real
    requires p.Valid()
  {
    Least(p.Capacity() as real, b.tokens + Accrued(p, b.updated, now))
  }

  /** One call: refill, then spend a token or report when one will be there. */
  function TokenStep(p: Policy, b: Level, now: real): (Level, Decision)
    requires p.Valid()
  {
    var tokens := Refilled(p, b, now);
    if tokens >= 1.0 then (Level(tokens - 1.0, now), Decision(true, (tokens - 1.0).Floor, 0.0))
    else (Level(tokens, now), Decision(false, 0, (1.0 - tokens) / p.Rate()))
  }

  function NewLevel(p: Policy, now: real): Level {
    Level(p.Capacity() as real, now)
  }

  ghost predicate Sorted(times: seq<real>) {
    forall i, j :: 0 <= i < j < |times| ==> times[i] <= times[j]
  }

  /** How many calls of a run are admitted within [from, to]. */
  ghost function Admissions(p: Policy, b: Level, times: seq<real>, from: real, to: real): nat
    requires p.Valid()
    decreases |times|
  {
    if times == [] then 0
    else
      var (next, d) := TokenStep(p, b, times[0]);
      (if d.allowed && from <= times[0] <= to then 1 else 0) + Admissions(p, next, times[1..], from, to)
  }

  lemma AccruedAdds(p: Policy, x: real, y: real, z: real)
    requires p.Valid() && x <= y <= z
    ensures Accrued(p, x, y) + Accrued(p, y, z) == Accrued(p, x, z)
    ensures 0.0 <= Accrued(p, x, y) && 0.0 <= Accrued(p, y, z)
  {
    MulNonNegative(y - x, p.Rate());
    MulNonNegative(z - y, p.Rate());
  }

  /** From a level left at time u, later admissions are paid from its tokens and what accrues until `to`. */
  lemma {:induction false} SpentFrom(p: Policy, b: Level, times: seq<real>, from: real, to: real)
    requires p.Valid() && Sorted(times) && 0.0 <= b.tokens && b.updated <= to
    requires forall t :: t in times ==> b.updated <= t
    ensures Admissions(p, b, times, from, to) as real <= b.tokens + Accrued(p, b.updated, to)
    decreases |times|
  {
    hide Accrued;
    AccruedAdds(p, b.updated, to, to);
    if times != [] {
      assert times[0] in times;
      if times[0] <= to {
        var (next, d) := TokenStep(p, b, times[0]);
        AccruedAdds(p, b.updated, times[0], to);
        TailAfter(times);
        SpentFrom(p, next, times[1..], from, to);
      } else {
        NoneAfter(p, b, times, from, to);
      }
    }
  }

  /** What accrues, in the policy's own fields: `limit` tokens a window. */
  lemma AccruedFields(p: Policy, since: real, now: real)
    requires p.Valid()
    ensures Accrued(p, since, now) * p.windowSeconds as real == p.limit as real * (now - since)
  {
    var w, d := p.windowSeconds as real, now - since;
    assert p.Rate() * w == p.limit as real;
    assert (d * p.Rate()) * w == d * (p.Rate() * w);
  }

  lemma AccruedQuotient(p: Policy, since: real, now: real)
    requires p.Valid()
    ensures Accrued(p, since, now) == p.limit as real * (now - since) / p.windowSeconds as real
  {
    AccruedFields(p, since, now);
    DividedBack(Accrued(p, since, now), p.limit as real * (now - since), p.windowSeconds as real);
  }

  lemma DividedBack(x: real, y: real, w: real)
    requires 0.0 < w && x * w == y
    ensures x == y / w
  {
  }

  lemma TailAfter(times: seq<real>)
    requires Sorted(times) && times != []
    ensures Sorted(times[1..]) && forall t :: t in times[1..] ==> times[0] <= t
  {
    forall t | t in times[1..] ensures times[0] <= t {
      var i :| 0 <= i < |times[1..]| && times[1..][i] == t;
      assert times[0] <= times[i + 1];
    }
  }

  lemma {:induction false} NoneAfter(p: Policy, b: Level, times: seq<real>, from: real, to: real)
    requires p.Valid() && Sorted(times) && times != [] && times[0] > to
    ensures Admissions(p, b, times, from, to) == 0
    decreases |times|
  {
    hide Accrued;
    var (next, d) := TokenStep(p, b, times[0]);
    if |times| > 1 { NoneAfter(p, next, times[1..], from, to); }
  }

  /** Over any interval a run admits at most the capacity plus what the rate accrues across it. */
  lemma {:induction false} TokenBound(p: Policy, b: Level, times: seq<real>, from: real, to: real)
    requires p.Valid() && Sorted(times) && from <= to && 0.0 <= b.tokens
    requires forall t :: t in times ==> b.updated <= t
    ensures Admissions(p, b, times, from, to) as real <= p.Capacity() as real + Accrued(p, from, to)
    decreases |times|
  {
    hide Accrued;
    AccruedAdds(p, from, to, to);
    if times != [] {
      assert times[0] in times;
      var (next, d) := TokenStep(p, b, times[0]);
      AccruedAdds(p, b.updated, times[0], times[0]);
      TailAfter(times);
      if times[0] < from {
        TokenBound(p, next, times[1..], from, to);
      } else if times[0] <= to {
        AccruedAdds(p, from, times[0], to);
        SpentFrom(p, next, times[1..], from, to);
      } else {
        NoneAfter(p, b, times, from, to);
      }
    }
  }

  /** The same in the policy's own fields: limit + burst at once, and `limit` more a window. */
  lemma TokenLimit(p: Policy, b: Level, times: seq<real>, from: real, to: real)
    requires p.Valid() && Sorted(times) && from <= to && 0.0 <= b.tokens
    requires forall t :: t in times ==> b.updated <= t
    ensures Admissions(p, b, times, from, to) as real <=
      (p.limit + p.burst) as real + p.limit as real * (to - from) / p.windowSeconds as real
  {
    TokenBound(p, b, times, from, to);
    AccruedQuotient(p, from, to);
    hide Accrued, Admissions;
  }

  /** n calls at one instant. */
  function Burst(n: nat, now: real): (times: seq<real>)
    ensures |times| == n && forall i :: 0 <= i < n ==> times[i] == now
  {
    if n == 0 then [] else [now] + Burst(n - 1, now)
  }

  lemma AccruedNow(p: Policy, now: real)
    requires p.Valid()
    ensures Accrued(p, now, now) == 0.0
  {
  }

  /** Of n calls at once a refilled bucket admits as many as it holds whole tokens. */
  lemma {:induction false} BurstFrom(p: Policy, tokens: real, now: real, n: nat)
    requires p.Valid() && 0.0 <= tokens <= p.Capacity() as real
    ensures Admissions(p, Level(tokens, now), Burst(n, now), now, now) == if n <= tokens.Floor then n else tokens.Floor
  {
    hide Accrued;
    AccruedNow(p, now);
    if n > 0 {
      assert Burst(n, now)[1..] == Burst(n - 1, now);
      BurstFrom(p, if tokens >= 1.0 then tokens - 1.0 else tokens, now, n - 1);
    }
  }

  /** Exactly how many of n calls at once a bucket admits: the tokens left earlier and `limit` a window since,
      up to limit + burst. */
  lemma BurstExact(p: Policy, b: Level, now: real, n: nat)
    requires p.Valid() && 0.0 <= b.tokens && b.updated <= now
    ensures
      var held := Least((p.limit + p.burst) as real,
        b.tokens + p.limit as real * (now - b.updated) / p.windowSeconds as real);
      Admissions(p, b, Burst(n, now), now, now) == if n <= held.Floor then n else held.Floor
  {
    AccruedQuotient(p, b.updated, now);
    BurstRefilled(p, b, now, n);
    hide Accrued, Policy.Rate, Admissions;
  }

  lemma BurstRefilled(p: Policy, b: Level, now: real, n: nat)
    requires p.Valid() && 0.0 <= b.tokens && b.updated <= now
    ensures
      var held := Refilled(p, b, now);
      Admissions(p, b, Burst(n, now), now, now) == if n <= held.Floor then n else held.Floor
  {
    StepRefilled(p, b, now);
    var held := Refilled(p, b, now);
    BurstFrom(p, held, now, n);
    hide Accrued, Refilled, TokenStep, Policy.Rate;
    if n > 0 { assert Burst(n, now)[0] == now; }
  }

  /** A refilled bucket is as good as the one it was refilled from. */
  lemma StepRefilled(p: Policy, b: Level, now: real)
    requires p.Valid() && 0.0 <= b.tokens && b.updated <= now
    ensures 0.0 <= Refilled(p, b, now) <= p.Capacity() as real
    ensures TokenStep(p, b, now) == TokenStep(p, Level(Refilled(p, b, now), now), now)
  {
    AccruedAdds(p, b.updated, now, now);
    AccruedNow(p, now);
    hide Accrued, Policy.Rate;
  }

  /** A fresh bucket admits exactly limit + burst calls at once; an emptied one, exactly `limit` a window later. */
  lemma BurstLimits(p: Policy, now: real, n: nat)
    requires p.Valid()
    ensures Admissions(p, NewLevel(p, now), Burst(n, now), now, now) ==
      if n <= p.limit + p.burst then n else p.limit + p.burst
    ensures
      var later := now + p.windowSeconds as real;
      Admissions(p, Level(0.0, now), Burst(n, later), later, later) == if n <= p.limit then n else p.limit
  {
    WindowAccrues(p, now);
    BurstRefilled(p, NewLevel(p, now), now, n);
    BurstRefilled(p, Level(0.0, now), now + p.windowSeconds as real, n);
    hide Admissions, Accrued;
  }

  /** Nothing accrues at once, and `limit` tokens over a window. */
  lemma WindowAccrues(p: Policy, now: real)
    requires p.Valid()
    ensures Accrued(p, now, now) == 0.0
    ensures Accrued(p, now, now + p.windowSeconds as real) == p.limit as real
  {
    AccruedNow(p, now);
    assert now + p.windowSeconds as real - now == p.windowSeconds as real;
  }

  /** `remaining` is exact: of n further calls at the same instant it says how many are admitted. */
  lemma RemainingExact(p: Policy, b: Level, now: real, n: nat)
    requires p.Valid() && 0.0 <= b.tokens && b.updated <= now
    ensures
      var (next, d) := TokenStep(p, b, now);
      Admissions(p, next, Burst(n, now), now, now) == if n <= d.remaining then n else d.remaining
  {
    AccruedAdds(p, b.updated, now, now);
    var (next, d) := TokenStep(p, b, now);
    BurstFrom(p, next.tokens, now, n);
  }

  /** retryAfter is exact: a lone later call is admitted iff it comes no earlier; in the policy's fields it is the
      time the missing part of a token takes at `limit` a window. */
  lemma TokenRetryExact(p: Policy, b: Level, now: real, later: real)
    requires p.Valid() && now <= later && !TokenStep(p, b, now).1.allowed
    ensures TokenStep(p, b, now).1.retryAfter > 0.0
    ensures TokenStep(p, b, now).1.retryAfter * p.limit as real ==
      (1.0 - TokenStep(p, b, now).0.tokens) * p.windowSeconds as real
    ensures TokenStep(p, TokenStep(p, b, now).0, later).1.allowed <==> later >= now + TokenStep(p, b, now).1.retryAfter
  {
    hide Policy.Rate;
    RatePositive(p);
    var tokens := Refilled(p, b, now);
    RefillTime(1.0 - tokens, later - now, p.Rate());
    WaitFields(1.0 - tokens, p.Rate(), p.limit as real, p.windowSeconds as real);
  }

  lemma WaitFields(missing: real, rate: real, limit: real, window: real)
    requires 0.0 < rate && rate * window == limit
    ensures (missing / rate) * limit == missing * window
  {
    var wait := missing / rate;
    assert wait * rate == missing;
    assert wait * limit == (wait * rate) * window;
  }

  lemma RatePositive(p: Policy)
    requires p.Valid()
    ensures 0.0 < p.Rate() && p.Rate() * p.windowSeconds as real == p.limit as real
  {
  }

  lemma RefillTime(missing: real, elapsed: real, rate: real)
    requires 0.0 < missing && 0.0 < rate
    ensures 0.0 < missing / rate
    ensures elapsed * rate >= missing <==> elapsed >= missing / rate
  {
    var due := missing / rate;
    assert due * rate == missing;
    if elapsed >= due {
      MulLe(due, elapsed, rate);
    } else {
      MulPositive(due - elapsed, rate);
    }
  }

  // ---------------------------------------------------------------- sliding window

  /** How many leading entries have left the window. */
  function Expired(values: seq<real>, horizon: real): (m: nat)
    ensures m <= |values| && forall i :: 0 <= i < m ==> values[i] <= horizon
    ensures m < |values| ==> values[m] > horizon
  {
    if values != [] && values[0] <= horizon then 1 + Expired(values[1..], horizon) else 0
  }

  function Pruned(values: seq<real>, horizon: real): seq<real> {
    values[Expired(values, horizon)..]
  }

  function WindowStep(p: Policy, values: seq<real>, now: real): (seq<real>, Decision)
    requires p.Valid()
  {
    var kept := Pruned(values, p.Horizon(now));
    if |kept| < p.Capacity() then (kept + [now], Decision(true, p.Capacity() - (|kept| + 1), 0.0))
    else
      var wait := kept[0] + p.windowSeconds as real - now;
      (kept, Decision(false, 0, if wait > 0.0 then wait else 0.0))
  }

  lemma WindowStepParts(p: Policy, values: seq<real>, now: real)
    requires p.Valid()
    ensures
      var kept := Pruned(values, p.Horizon(now));
      && (WindowStep(p, values, now).1.allowed <==> |kept| < p.Capacity())
      && WindowStep(p, values, now).1.remaining == (if |kept| < p.Capacity() then p.Capacity() - |kept| - 1 else 0)
      && WindowStep(p, values, now).0 == if |kept| < p.Capacity() then kept + [now] else kept
  {
  }

  /** A run keeps the deque and, beside it, the full history of admission times; the deque starts
      `dropped` places into the history. */
  datatype Log = Log(values: seq<real>, history: seq<real>, dropped: nat)

  ghost function LogStep(p: Policy, log: Log, now: real): Log
    requires p.Valid()
  {
    var (values, d) := WindowStep(p, log.values, now);
    Log(values, if d.allowed then log.history + [now] else log.history,
      log.dropped + Expired(log.values, p.Horizon(now)))
  }

  ghost function LogRun(p: Policy, times: seq<real>): Log
    requires p.Valid()
  {
    if times == [] then Log([], [], 0) else LogStep(p, LogRun(p, times[..|times| - 1]), times[|times| - 1])
  }

  /** How many entries lie in the half-open window (after, upTo]. */
  ghost function InWindow(history: seq<real>, after: real, upTo: real): nat {
    if history == [] then 0
    else
      var last := history[|history| - 1];
      InWindow(history[..|history| - 1], after, upTo) + if after < last <= upTo then 1 else 0
  }

  /** Each admission comes at least a window after the one `capacity` places before it. */
  ghost predicate Spaced(p: Policy, history: seq<real>) {
    forall i, j :: 0 <= j < |history| && 0 <= i < |history| && p.Capacity() + j == i ==>
      history[j] <= p.Horizon(history[i])
  }

  /** The deque is the part of the history that the last prune kept. */
  ghost predicate Tail(log: Log, horizon: real) {
    && log.dropped <= |log.history| && log.values == log.history[log.dropped..]
    && forall i :: 0 <= i < log.dropped ==> log.history[i] <= horizon
  }

  ghost predicate LogInv(p: Policy, log: Log, now: real) {
    && Tail(log, p.Horizon(now)) && Spaced(p, log.history)
    && |log.values| <= p.Capacity()
    && Sorted(log.history) && forall i :: 0 <= i < |log.history| ==> log.history[i] <= now
  }

  /** Pruning leaves exactly the part of the history that lies beyond the new horizon. */
  lemma TailPruned(log: Log, before: real, horizon: real)
    requires Tail(log, before) && before <= horizon && Sorted(log.history)
    ensures
      var cut := log.dropped + Expired(log.values, horizon);
      && Tail(Log(Pruned(log.values, horizon), log.history, cut), horizon)
      && forall i :: cut <= i < |log.history| ==> horizon < log.history[i]
  {
    var m := Expired(log.values, horizon);
    hide Expired;
    assert Pruned(log.values, horizon) == log.history[log.dropped + m..];
    DroppedExpired(log, before, horizon, m);
    hide Pruned;
    if m < |log.values| {
      assert log.values[m] == log.history[log.dropped + m];
      LaterAbove(log.history, log.dropped + m, horizon);
    }
  }

  lemma DroppedExpired(log: Log, before: real, horizon: real, m: nat)
    requires Tail(log, before) && before <= horizon && m <= |log.values| && forall i :: 0 <= i < m ==>
      log.values[i] <= horizon
    ensures forall i :: 0 <= i < log.dropped + m ==> log.history[i] <= horizon
  {
    forall i | 0 <= i < log.dropped + m ensures log.history[i] <= horizon {
      if i >= log.dropped { assert log.history[i] == log.values[i - log.dropped]; }
    }
  }

  lemma LaterAbove(history: seq<real>, cut: nat, horizon: real)
    requires Sorted(history) && cut < |history| && horizon < history[cut]
    ensures forall i :: cut <= i < |history| ==> horizon < history[i]
  {
    forall i | cut <= i < |history| ensures history[cut] <= history[i] {
    }
  }

  lemma SpacedNext(p: Policy, history: seq<real>, cut: nat, now: real)
    requires Spaced(p, history) && cut <= |history| && |history| - cut < p.Capacity()
    requires forall i :: 0 <= i < cut ==> history[i] <= p.Horizon(now)
    ensures Spaced(p, history + [now])
  {
  }

  lemma AppendNow(p: Policy, log: Log, now: real)
    requires p.Valid() && LogInv(p, log, now) && |log.values| < p.Capacity()
    ensures LogInv(p, Log(log.values + [now], log.history + [now], log.dropped), now)
  {
    SpacedNext(p, log.history, log.dropped, now);
    hide Spaced, Policy.Horizon;
    assert (log.history + [now])[log.dropped..] == log.history[log.dropped..] + [now];
  }

  ghost function AfterPrune(p: Policy, log: Log, now: real): Log {
    Log(Pruned(log.values, p.Horizon(now)), log.history, log.dropped + Expired(log.values, p.Horizon(now)))
  }

  lemma KeptInv(p: Policy, log: Log, before: real, now: real)
    requires p.Valid() && LogInv(p, log, before) && before <= now
    ensures LogInv(p, AfterPrune(p, log, now), now)
  {
    TailPruned(log, p.Horizon(before), p.Horizon(now));
    hide Expired, Spaced, Sorted, Policy.Horizon, Tail;
  }

  /** A step prunes, then appends if there is room. */
  lemma LogStepParts(p: Policy, log: Log, now: real)
    requires p.Valid()
    ensures
      var kept := AfterPrune(p, log, now);
      LogStep(p, log, now) ==
        if |kept.values| < p.Capacity() then Log(kept.values + [now], kept.history + [now], kept.dropped) else kept
  {
    WindowStepParts(p, log.values, now);
    hide Expired, Pruned, WindowStep;
  }

  lemma LogStepInv(p: Policy, log: Log, before: real, now: real)
    requires p.Valid() && LogInv(p, log, before) && before <= now
    ensures LogInv(p, LogStep(p, log, now), now)
  {
    hide LogInv, LogStep, AfterPrune;
    LogStepParts(p, log, now);
    KeptInv(p, log, before, now);
    var kept := AfterPrune(p, log, now);
    if |kept.values| < p.Capacity() { AppendNow(p, kept, now); }
  }

  lemma EmptyLog(p: Policy, now: real)
    requires p.Valid()
    ensures LogInv(p, Log([], [], 0), now)
  {
  }

  lemma SortedInit(times: seq<real>)
    requires Sorted(times) && |times| > 1
    ensures Sorted(times[..|times| - 1]) && times[|times| - 2] <= times[|times| - 1]
  {
  }

  lemma {:induction false} LogRunInv(p: Policy, times: seq<real>)
    requires p.Valid() && Sorted(times)
    ensures LogInv(p, LogRun(p, times), if times == [] then 0.0 else times[|times| - 1])
  {
    hide LogInv, LogStep, Sorted;
    if |times| == 1 {
      EmptyLog(p, times[0]);
      LogStepInv(p, Log([], [], 0), times[0], times[0]);
      assert times[..0] == [];
    } else if times != [] {
      var shorter := times[..|times| - 1];
      SortedInit(times);
      LogRunInv(p, shorter);
      LogStepInv(p, LogRun(p, shorter), shorter[|shorter| - 1], times[|times| - 1]);
    } else {
      EmptyLog(p, 0.0);
    }
  }

  lemma {:induction false} InWindowTail(history: seq<real>, m: nat, after: real, upTo: real)
    requires Sorted(history) && m <= |history|
    requires forall i :: 0 <= i < m ==> history[i] <= after
    ensures InWindow(history, after, upTo) <= |history| - m
    ensures (forall i :: m <= i < |history| ==> after < history[i] <= upTo) ==>
      InWindow(history, after, upTo) == |history| - m
  {
    if history != [] {
      var n := |history| - 1;
      InWindowTail(history[..n], if m <= n then m else n, after, upTo);
    }
  }

  /** A call is admitted iff fewer than limit + burst admissions of the whole history lie in its window, and
      `remaining` is what the window still has room for after it. */
  lemma AdmittedByHistory(p: Policy, times: seq<real>, now: real)
    requires p.Valid() && Sorted(times + [now])
    ensures
      var log := LogRun(p, times);
      var d, load := WindowStep(p, log.values, now).1, InWindow(log.history, p.Horizon(now), now);
      && (d.allowed <==> load < p.limit + p.burst)
      && d.remaining == if d.allowed then p.limit + p.burst - load - 1 else 0
  {
    var log := LogRun(p, times);
    assert Sorted(times) by {
      forall i, j | 0 <= i < j < |times| ensures times[i] <= times[j] {
        assert (times + [now])[i] <= (times + [now])[j];
      }
    }
    LogRunInv(p, times);
    hide LogRun, InWindow, WindowStep, LogInv;
    var before := if times == [] then now else times[|times| - 1];
    if times != [] { assert (times + [now])[|times| - 1] <= (times + [now])[|times|]; }
    AdmittedByLog(p, log, before, now);
  }

  lemma AdmittedByLog(p: Policy, log: Log, before: real, now: real)
    requires p.Valid() && LogInv(p, log, before) && before <= now
    ensures
      var d, load := WindowStep(p, log.values, now).1, InWindow(log.history, p.Horizon(now), now);
      && (d.allowed <==> load < p.Capacity())
      && d.remaining == if d.allowed then p.Capacity() - load - 1 else 0
  {
    hide Spaced;
    var horizon := p.Horizon(now);
    TailPruned(log, p.Horizon(before), horizon);
    WindowStepParts(p, log.values, now);
    hide Expired, Sorted, Spaced, InWindow, WindowStep;
    InWindowTail(log.history, log.dropped + Expired(log.values, horizon), horizon, now);
  }

  /** No half-open window of the policy's length ever holds more than the capacity. */
  lemma WindowNeverExceeded(p: Policy, times: seq<real>, end: real)
    requires p.Valid() && Sorted(times)
    ensures InWindow(LogRun(p, times).history, end - p.windowSeconds as real, end) <= p.limit + p.burst
  {
    LogRunInv(p, times);
    SpacedWindow(p, LogRun(p, times).history, end);
  }

  lemma {:induction false} SpacedWindow(p: Policy, history: seq<real>, end: real)
    requires p.Valid() && Sorted(history)
    requires Spaced(p, history)
    ensures InWindow(history, p.Horizon(end), end) <= p.Capacity()
  {
    var n := |history|;
    if n > 0 {
      if history[n - 1] > end {
        SpacedWindow(p, history[..n - 1], end);
      } else if n <= p.Capacity() {
        InWindowTail(history, 0, p.Horizon(end), end);
      } else {
        var m := n - p.Capacity();
        assert p.Capacity() + (m - 1) == n - 1;
        assert history[m - 1] <= p.Horizon(history[n - 1]);
        InWindowTail(history, m, p.Horizon(end), end);
      }
    }
  }

  /** retryAfter is exact: after a denial a lone later call is admitted iff it comes no earlier. */
  lemma WindowRetryExact(p: Policy, values: seq<real>, now: real, later: real)
    requires p.Valid() && |values| <= p.Capacity() && now <= later && !WindowStep(p, values, now).1.allowed
    ensures
      var (denied, d) := WindowStep(p, values, now);
      d.retryAfter > 0.0 && (WindowStep(p, denied, later).1.allowed <==> later >= now + d.retryAfter)
  {
    var (denied, d) := WindowStep(p, values, now);
    assert denied[0] > p.Horizon(now);
    var kept := Pruned(denied, p.Horizon(later));
    if denied[0] <= p.Horizon(later) {
      assert |kept| < |denied|;
    } else {
      assert kept == denied;
    }
  }

  // ---------------------------------------------------------------- the backend object

  class Bucket {
    var tokens: real
    var updated: real

    constructor (tokens: real, updated: real)
      ensures this.tokens == tokens && this.updated == updated
    {
      this.tokens, this.updated := tokens, updated;
    }

    ghost function Holds(): Level
      reads this
    {
      Level(tokens, updated)
    }

    /** Refill up to now, then spend a token if there is a whole one. */
    method Take(p: Policy, now: real) returns (d: Decision)
      requires p.Valid()
      modifies this
      ensures Holds() == TokenStep(p, old(Holds()), now).0 && d == TokenStep(p, old(Holds()), now).1
    {
      hide Accrued, Policy.Rate;
      tokens := Least(p.Capacity() as real, tokens + Accrued(p, updated, now));
      updated := now;
      if tokens >= 1.0 {
        tokens := tokens - 1.0;
        d := Decision(true, tokens.Floor, 0.0);
      } else {
        d := Decision(false, 0, (1.0 - tokens) / p.Rate());
      }
    }
  }

  class MemoryBackend {
    var buckets: map<string, Bucket>
    var windows: map<string, seq<real>>

    /** Distinct keys never share a bucket object. */
    ghost predicate Valid()
      reads this
    {
      forall j, k :: j in buckets && k in buckets && buckets[j] == buckets[k] ==> j == k
    }

    ghost function LevelOf(key: string): Option<Level>
      reads this, buckets.Values
    {
      if key in buckets then Some(buckets[key].Holds()) else None
    }

    ghost function WindowOf(key: string): seq<real>
      reads this
    {
      if key in windows then windows[key] else []
    }

    constructor ()
      ensures Valid() && buckets == map[] && windows == map[]
    {
      buckets, windows := map[], map[];
    }

    method TokenBucket(key: string, p: Policy, now: real) returns (d: Decision)
      requires Valid() && p.Valid()
      modifies this`buckets, buckets.Values
      ensures Valid() && windows == old(windows)
      ensures
        var level := if old(LevelOf(key)).Some? then old(LevelOf(key)).value else NewLevel(p, now);
        LevelOf(key) == Some(TokenStep(p, level, now).0) && d == TokenStep(p, level, now).1
      ensures forall k :: k != key ==> LevelOf(k) == old(LevelOf(k))
    {
      hide TokenStep;
      if key !in buckets {
        var created := new Bucket(p.Capacity() as real, now);
        buckets := buckets[key := created];
      }
      d := buckets[key].Take(p, now);
    }

    method SlidingWindow(key: string, p: Policy, now: real) returns (d: Decision)
      requires p.Valid()
      modifies this`windows
      ensures WindowOf(key) == WindowStep(p, old(WindowOf(key)), now).0
      ensures d == WindowStep(p, old(WindowOf(key)), now).1
      ensures forall k :: k != key ==> WindowOf(k) == old(WindowOf(k))
    {
      var capacity := p.Capacity();
      var values := if key in windows then windows[key] else [];
      ghost var before := values;
      while values != [] && values[0] <= p.Horizon(now)
        invariant Pruned(values, p.Horizon(now)) == Pruned(before, p.Horizon(now))
      {
        values := values[1..];
      }
      if |values| < capacity {
        values := values + [now];
        d := Decision(true, capacity - |values|, 0.0);
      } else {
        var wait := values[0] + p.windowSeconds as real - now;
        d := Decision(false, 0, if wait > 0.0 then wait else 0.0);
      }
      windows := windows[key := values];
    }
  }
}
