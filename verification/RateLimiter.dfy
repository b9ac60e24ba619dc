/**
 The fixed-window limiter, command by command: INCR, then EXPIRE from the caller
 that opened the window. Calls may interleave between the two commands, and a
 caller that stops before its EXPIRE leaves a window that never closes.
 */
module RateLimiter {
  import opened Wrappers
  import R = Redis

  /** One call let through: when its INCR ran, in which window, and whether it opened it. */
  datatype Pass = Pass(time: nat, window: nat, opens: bool)

  /** `starts` holds the time each window was opened; `arming` is an EXPIRE still to come. */
  datatype Limiter = Limiter(store: R.Store, starts: seq<nat>, arming: bool, log: Trace<Pass>)

  datatype Event = Call | Arm | Tick(seconds: nat)

  datatype Rule = Rule(key: string, max: nat, window: nat)

  /** INCR and the comparison with `max`. */
  function AfterIncr(r: Rule, l: Limiter): Limiter
    requires R.Countable(l.store, r.key)
  {
    var count := R.NextCount(l.store, r.key);
    var starts := if count == 1 then l.starts + [l.store.now] else l.starts;
    Limiter(R.Incr(l.store, r.key), starts, l.arming || count == 1,
            if count <= r.max && |starts| > 0 then Then(l.log, Pass(l.store.now, |starts| - 1, count == 1)) else l.log)
  }

  function Step(r: Rule, l: Limiter, e: Event): Limiter {
    match e
    case Call => if R.Countable(l.store, r.key) then AfterIncr(r, l) else l
    case Arm => if l.arming then l.(store := R.Expire(l.store, r.key, r.window), arming := false) else l
    case Tick(seconds) => l.(store := R.Tick(l.store, seconds))
  }

  function Run(r: Rule, store: R.Store, events: Trace<Event>): Limiter {
    match events
    case Start => Limiter(store, [], false, Start)
    case Then(before, e) => Step(r, Run(r, store, before), e)
  }

  // ----- counting in the log -----

  function InWindow(log: Trace<Pass>, w: nat): nat {
    match log
    case Start => 0
    case Then(before, p) => InWindow(before, w) + if p.window == w then 1 else 0
  }

  function Later(log: Trace<Pass>, w: nat): nat {
    match log
    case Start => 0
    case Then(before, p) => Later(before, w) + if p.window == w && !p.opens then 1 else 0
  }

  /** Calls let through in the half-open interval [from, until). */
  function Between(log: Trace<Pass>, from: int, until: int): nat {
    match log
    case Start => 0
    case Then(before, p) => Between(before, from, until) + if from <= p.time < until then 1 else 0
  }

  // ----- the invariant -----

  /** Entries lie in their windows; times and windows never go back. */
  ghost predicate Timely(log: Trace<Pass>, starts: seq<nat>, now: nat) {
    match log
    case Start => true
    case Then(before, p) =>
      && p.window < |starts| && starts[p.window] <= p.time <= now
      && (p.opens ==> p.time == starts[p.window])
      && (p.window + 1 < |starts| ==> p.time <= starts[p.window + 1])
      && Timely(before, starts, p.time)
      && (before.Then? ==> before.event.window <= p.window)
  }

  predicate Spaced(starts: seq<nat>, window: nat) {
    forall i | 0 <= i < |starts| - 1 :: starts[i] + window <= starts[i + 1]
  }

  ghost predicate Counter(r: Rule, l: Limiter) {
    if R.Live(l.store, r.key) then
      && l.store.cells[r.key].value.Number? && l.store.cells[r.key].value.count >= 1 && |l.starts| > 0
      && var c := l.store.cells[r.key].value.count;
      && InWindow(l.log, |l.starts| - 1) == (if c <= r.max then c else r.max)
      && (l.arming <==> l.store.cells[r.key].expiry.None?)
      && (l.store.cells[r.key].expiry.Some? ==> l.starts[|l.starts| - 1] + r.window <= l.store.cells[r.key].expiry.value)
    else
      !l.arming && (|l.starts| > 0 ==> l.starts[|l.starts| - 1] + r.window <= l.store.now)
  }

  ghost predicate Capped(r: Rule, l: Limiter) {
    && (forall w :: InWindow(l.log, w) <= r.max)
    && (forall w :: Later(l.log, w) == if InWindow(l.log, w) == 0 then 0 else InWindow(l.log, w) - 1)
    && (forall w | w >= |l.starts| :: InWindow(l.log, w) == 0)
  }

  ghost predicate Inv(r: Rule, l: Limiter) {
    && Timely(l.log, l.starts, l.store.now) && Spaced(l.starts, r.window)
    && (|l.starts| > 0 ==> l.starts[|l.starts| - 1] <= l.store.now)
    && Counter(r, l) && Capped(r, l)
  }

  lemma {:induction false} TimelyLater(log: Trace<Pass>, starts: seq<nat>, now: nat, later: nat)
    requires Timely(log, starts, now) && now <= later
    ensures Timely(log, starts, later)
  {
  }

  lemma {:induction false} TimelyNewWindow(log: Trace<Pass>, starts: seq<nat>, now: nat, start: nat)
    requires Timely(log, starts, now) && now <= start
    ensures Timely(log, starts + [start], start)
  {
    match log
    case Start =>
    case Then(before, p) =>
      TimelyNewWindow(before, starts, p.time, start);
      TimelyBack(before, starts, start, p.time);
  }

  lemma {:induction false} TimelyBack(log: Trace<Pass>, starts: seq<nat>, start: nat, now: nat)
    requires Timely(log, starts, now) && now <= start
    ensures Timely(log, starts + [start], now)
  {
    if log.Then? {
      TimelyBack(log.before, starts, start, log.event.time);
    }
  }

  lemma CallKeepsCaps(r: Rule, l: Limiter)
    requires Inv(r, l) && R.Countable(l.store, r.key)
    ensures Capped(r, AfterIncr(r, l))
  {
    var l' := AfterIncr(r, l);
    var w := |l'.starts| - 1;
    forall v: nat ensures InWindow(l'.log, v) <= r.max
      && Later(l'.log, v) == (if InWindow(l'.log, v) == 0 then 0 else InWindow(l'.log, v) - 1)
      && (v >= |l'.starts| ==> InWindow(l'.log, v) == 0)
    {
      assert InWindow(l.log, v) <= r.max;
      assert Later(l.log, v) == if InWindow(l.log, v) == 0 then 0 else InWindow(l.log, v) - 1;
    }
  }

  lemma CallKeepsInv(r: Rule, l: Limiter)
    requires Inv(r, l)
    ensures R.Countable(l.store, r.key) && Inv(r, AfterIncr(r, l))
  {
    CallKeepsCaps(r, l);
    if R.NextCount(l.store, r.key) == 1 {
      TimelyNewWindow(l.log, l.starts, l.store.now, l.store.now);
      assert InWindow(l.log, |l.starts|) == 0;
    }
  }

  lemma StepKeepsInv(r: Rule, l: Limiter, e: Event)
    requires Inv(r, l)
    ensures Inv(r, Step(r, l, e))
  {
    match e
    case Call => CallKeepsInv(r, l);
    case Arm =>
    case Tick(seconds) => TimelyLater(l.log, l.starts, l.store.now, l.store.now + seconds);
  }

  lemma {:induction false} EveryRun(r: Rule, store: R.Store, events: Trace<Event>)
    requires !R.Live(store, r.key)
    ensures Inv(r, Run(r, store, events))
  {
    if events.Then? {
      EveryRun(r, store, events.before);
      StepKeepsInv(r, Run(r, store, events.before), events.event);
    }
  }

  // ----- any interval of one window length -----

  function FirstIn(log: Trace<Pass>, from: int, until: int): Option<Pass> {
    match log
    case Start => None
    case Then(before, p) =>
      if FirstIn(before, from, until).Some? then FirstIn(before, from, until)
      else if from <= p.time < until then Some(p) else None
  }

  ghost predicate OnlyWindows(log: Trace<Pass>, from: int, until: int, k: nat, withOpening: bool) {
    match log
    case Start => true
    case Then(before, p) =>
      && OnlyWindows(before, from, until, k, withOpening)
      && (from <= p.time < until ==>
            if withOpening then p.window == k else p.window == k + 1 || (p.window == k && !p.opens))
  }

  lemma {:induction false} CountOne(log: Trace<Pass>, from: int, until: int, k: nat)
    requires OnlyWindows(log, from, until, k, true)
    ensures Between(log, from, until) <= InWindow(log, k)
  {
    if log.Then? {
      CountOne(log.before, from, until, k);
    }
  }

  lemma {:induction false} CountTwo(log: Trace<Pass>, from: int, until: int, k: nat)
    requires OnlyWindows(log, from, until, k, false)
    ensures Between(log, from, until) <= Later(log, k) + InWindow(log, k + 1)
  {
    if log.Then? {
      CountTwo(log.before, from, until, k);
    }
  }

  lemma {:induction false} NothingIn(log: Trace<Pass>, from: int, until: int)
    requires FirstIn(log, from, until).None?
    ensures Between(log, from, until) == 0
  {
    if log.Then? {
      NothingIn(log.before, from, until);
    }
  }

  ghost predicate Member(log: Trace<Pass>, p: Pass) {
    match log
    case Start => false
    case Then(before, q) => p == q || Member(before, p)
  }

  lemma {:induction false} MemberTimely(log: Trace<Pass>, starts: seq<nat>, now: nat, p: Pass)
    requires Timely(log, starts, now) && Member(log, p)
    ensures p.window < |starts| && starts[p.window] <= p.time <= now && (p.opens ==> p.time == starts[p.window])
    ensures p.window + 1 < |starts| ==> p.time <= starts[p.window + 1]
    ensures p.window <= log.event.window
  {
    if p != log.event {
      MemberTimely(log.before, starts, log.event.time, p);
    }
  }

  lemma {:induction false} FirstIsLeast(log: Trace<Pass>, starts: seq<nat>, now: nat, from: int, until: int, p: Pass)
    requires Timely(log, starts, now) && Member(log, p) && from <= p.time < until
    ensures FirstIn(log, from, until).Some? && Member(log, FirstIn(log, from, until).value)
    ensures FirstIn(log, from, until).value.window <= p.window
    ensures from <= FirstIn(log, from, until).value.time < until
  {
    if FirstIn(log.before, from, until).Some? {
      FirstInMember(log.before, from, until);
      MemberTimely(log, starts, now, FirstIn(log.before, from, until).value);
    }
    if p != log.event {
      FirstIsLeast(log.before, starts, log.event.time, from, until, p);
    }
  }

  lemma {:induction false} FirstInMember(log: Trace<Pass>, from: int, until: int)
    requires FirstIn(log, from, until).Some?
    ensures Member(log, FirstIn(log, from, until).value) && from <= FirstIn(log, from, until).value.time < until
  {
    if log.Then? && FirstIn(log.before, from, until).Some? {
      FirstInMember(log.before, from, until);
    }
  }

  lemma {:induction false} OnlyFrom(log: Trace<Pass>, from: int, until: int, k: nat, withOpening: bool)
    requires forall p | Member(log, p) && from <= p.time < until ::
      if withOpening then p.window == k else p.window == k + 1 || (p.window == k && !p.opens)
    ensures OnlyWindows(log, from, until, k, withOpening)
  {
    if log.Then? {
      assert forall p | Member(log.before, p) :: Member(log, p);
      OnlyFrom(log.before, from, until, k, withOpening);
      assert Member(log, log.event);
    }
  }

  lemma {:induction false} SpacedFar(starts: seq<nat>, window: nat, i: nat, j: nat)
    requires Spaced(starts, window) && i < j < |starts|
    ensures starts[i] + window <= starts[j]
    decreases j - i
  {
    if i + 1 < j {
      SpacedFar(starts, window, i + 1, j);
    }
  }

  /** An interval of one window length meets one window, or the tail of one and the next. */
  lemma IntervalBound(r: Rule, l: Limiter, from: int)
    requires Inv(r, l) && r.max >= 1
    ensures Between(l.log, from, from + r.window) <= 2 * r.max - 1
  {
    var until := from + r.window;
    var first := FirstIn(l.log, from, until);
    if first.None? {
      NothingIn(l.log, from, until);
    } else {
      FirstInMember(l.log, from, until);
      var k := first.value.window;
      MemberTimely(l.log, l.starts, l.store.now, first.value);
      var beyond := exists p :: Member(l.log, p) && from <= p.time < until && p.window > k;
      forall p | Member(l.log, p) && from <= p.time < until
        ensures if !beyond then p.window == k else p.window == k + 1 || (p.window == k && !p.opens)
      {
        FirstIsLeast(l.log, l.starts, l.store.now, from, until, p);
        MemberTimely(l.log, l.starts, l.store.now, p);
        if p.window > k + 1 {
          SpacedFar(l.starts, r.window, k + 1, p.window);
        } else if beyond && p.window == k {
          var q :| Member(l.log, q) && from <= q.time < until && q.window > k;
          MemberTimely(l.log, l.starts, l.store.now, q);
          SpacedFar(l.starts, r.window, k, q.window);
        }
      }
      OnlyFrom(l.log, from, until, k, !beyond);
      assert InWindow(l.log, k) <= r.max && InWindow(l.log, k + 1) <= r.max;
      assert Later(l.log, k) == if InWindow(l.log, k) == 0 then 0 else InWindow(l.log, k) - 1;
      if beyond {
        CountTwo(l.log, from, until, k);
      } else {
        CountOne(l.log, from, until, k);
      }
    }
  }

  /** For every arrival sequence: at most `max` calls pass in a window, at most 2 max - 1 in any interval of its length. */
  lemma LimiterBounds(r: Rule, store: R.Store, events: Trace<Event>, from: int, w: nat)
    requires !R.Live(store, r.key)
    ensures var l := Run(r, store, events);
      && InWindow(l.log, w) <= r.max
      && Between(l.log, from, from + r.window) <= (if r.max == 0 then 0 else 2 * r.max - 1)
  {
    EveryRun(r, store, events);
    var l := Run(r, store, events);
    if r.max == 0 {
      EmptyWhenZero(l.log);
    } else {
      IntervalBound(r, l, from);
    }
  }

  lemma {:induction false} EmptyWhenZero(log: Trace<Pass>)
    requires forall w :: InWindow(log, w) == 0
    ensures log == Start
  {
    if log.Then? {
      assert InWindow(log, log.event.window) == InWindow(log.before, log.event.window) + 1;
    }
  }

  // ----- the interval bound is met -----

  function Calls(events: Trace<Event>, n: nat): Trace<Event> {
    if n == 0 then events else Then(Calls(events, n - 1), Call)
  }

  /** Calls inside a live window that still has room all pass. */
  lemma {:induction false} Burst(r: Rule, store: R.Store, events: Trace<Event>, n: nat, from: int, until: int)
    requires var l := Run(r, store, events);
      && R.Live(l.store, r.key) && l.store.cells[r.key].value.Number? && |l.starts| > 0
      && 1 <= l.store.cells[r.key].value.count && l.store.cells[r.key].value.count + n <= r.max
      && from <= l.store.now < until
    ensures var l := Run(r, store, events); var l' := Run(r, store, Calls(events, n));
      && l'.store.now == l.store.now && l'.starts == l.starts && l'.arming == l.arming
      && R.Live(l'.store, r.key)
      && l'.store.cells[r.key] == R.Cell(R.Number(l.store.cells[r.key].value.count + n), l.store.cells[r.key].expiry)
      && Between(l'.log, from, until) == Between(l.log, from, until) + n
  {
    if n > 0 {
      Burst(r, store, events, n - 1, from, until);
    }
  }

  /** One call opens a window; max - 1 more come at its end and max right after it lapses. */
  function Straddling(r: Rule): Trace<Event>
    requires r.max >= 1 && r.window >= 1
  {
    var closing := Then(Then(Then(Start, Call), Arm), Tick(r.window - 1));
    var again := Then(Then(Then(Calls(closing, r.max - 1), Tick(1)), Call), Arm);
    Calls(again, r.max - 1)
  }

  lemma IntervalBoundIsMet(r: Rule)
    requires r.max >= 1 && r.window >= 2
    ensures Between(Run(r, R.Store(map[], 0, 0), Straddling(r)).log, r.window - 1, r.window - 1 + r.window) == 2 * r.max - 1
  {
    var s0, from, until := R.Store(map[], 0, 0), r.window - 1, r.window - 1 + r.window;
    var e1 := Then(Start, Call);
    var e2 := Then(e1, Arm);
    var closing := Then(e2, Tick(r.window - 1));
    assert Run(r, s0, e1).store.cells[r.key] == R.Cell(R.Number(1), None);
    assert Run(r, s0, e1).log == Then(Start, Pass(0, 0, true));
    assert Run(r, s0, e2).store.cells[r.key] == R.Cell(R.Number(1), Some(r.window));
    Burst(r, s0, closing, r.max - 1, from, until);
    var f0 := Calls(closing, r.max - 1);
    var f1 := Then(f0, Tick(1));
    var f2 := Then(f1, Call);
    var again := Then(f2, Arm);
    assert Run(r, s0, f0).starts == [0];
    assert !R.Live(Run(r, s0, f1).store, r.key);
    assert Run(r, s0, f2).store.cells[r.key] == R.Cell(R.Number(1), None);
    assert Between(Run(r, s0, f2).log, from, until) == r.max;
    assert Run(r, s0, again).store.cells[r.key] == R.Cell(R.Number(1), Some(r.window + r.window));
    Burst(r, s0, again, r.max - 1, from, until);
  }

  /** The caller's verdict: a call passes unless `max` calls of the live window passed already. */
  lemma PassesExactly(r: Rule, store: R.Store, events: Trace<Event>)
    requires !R.Live(store, r.key) && r.max >= 1
    ensures var l := Run(r, store, events);
      && R.Countable(l.store, r.key)
      && (R.Live(l.store, r.key) ==> |l.starts| > 0)
      && (R.NextCount(l.store, r.key) <= r.max <==> (R.Live(l.store, r.key) ==> InWindow(l.log, |l.starts| - 1) < r.max))
  {
    EveryRun(r, store, events);
  }

  /** Store after one uninterrupted call. */
  function AfterCall(store: R.Store, key: string, window: nat): R.Store
    requires R.Countable(store, key)
  {
    if R.NextCount(store, key) == 1 then R.Expire(R.Incr(store, key), key, window) else R.Incr(store, key)
  }

  /** An uninterrupted call is INCR directly followed by its EXPIRE. */
  lemma CallIsTwoSteps(r: Rule, l: Limiter)
    requires Inv(r, l) && !l.arming
    ensures R.Countable(l.store, r.key)
    ensures Step(r, Step(r, l, Call), Arm).store == AfterCall(l.store, r.key, r.window)
    ensures R.NextCount(l.store, r.key) <= r.max <==> Step(r, Step(r, l, Call), Arm).log.Then? && Step(r, Step(r, l, Call), Arm).log.before == l.log
  {
    CallKeepsInv(r, l);
    Shorter(l.log);
  }

  function Length(log: Trace<Pass>): nat {
    match log
    case Start => 0
    case Then(before, _) => 1 + Length(before)
  }

  lemma Shorter(log: Trace<Pass>)
    ensures log.Then? ==> log.before != log
  {
    assert log.Then? ==> Length(log) == 1 + Length(log.before);
  }

  // ----- the service method -----

  class Limits {
    const redis: R.RedisService

    constructor (redis: R.RedisService)
      ensures this.redis == redis
    {
      this.redis := redis;
    }

    /** `assertRateLimit`: false stands for the thrown "Too many requests". */
    method AssertRateLimit(key: string, max: nat, windowSeconds: nat) returns (passes: bool)
      requires R.Countable(redis.State(), key)
      modifies redis`cells
      ensures passes <==> R.NextCount(old(redis.State()), key) <= max
      ensures redis.State() == AfterCall(old(redis.State()), key, windowSeconds)
    {
      var count := redis.Increment(key);
      if count == 1 {
        redis.SetExpiry(key, windowSeconds);
      }
      return count <= max;
    }
  }
}
