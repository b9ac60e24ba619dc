/**
 `mapWithConcurrency`: N runners share one cursor over the items. JavaScript only
 switches runner at an await, so a step is what one runner does between two awaits:
 store the outcome it waited for, then test the cursor and claim the next index.
 */
module Concurrency {
  import opened Wrappers

  datatype Settled<+R> = Fulfilled(value: R) | Rejected(reason: string)

  datatype Runner = Unstarted | Working(index: nat) | Finished

  /** `calls` and `writes` record every worker call and every slot write. */
  datatype Pool<+R> = Pool(cursor: nat, results: seq<Option<Settled<R>>>, runners: seq<Runner>, calls: seq<nat>, writes: seq<nat>)

  datatype Event<+R> = Launch(runner: nat) | Settle(runner: nat, outcome: Settled<R>)

  function Max(a: int, b: int): int { if a > b then a else b }

  function Min(a: int, b: int): int { if a < b then a else b }

  function Workers(limit: int, n: nat): nat {
    Max(1, Min(limit, n))
  }

  function Initial<R>(limit: int, n: nat): Pool<R> {
    Pool(0, seq(n, _ => None), seq(Workers(limit, n), _ => Unstarted), [], [])
  }

  /** The loop test of one runner: claim an index and call the worker, or finish. */
  function ClaimNext<R>(p: Pool<R>, r: nat): Pool<R>
    requires r < |p.runners|
  {
    if p.cursor < |p.results| then
      p.(cursor := p.cursor + 1, runners := p.runners[r := Working(p.cursor)], calls := p.calls + [p.cursor])
    else
      p.(runners := p.runners[r := Finished])
  }

  predicate Enabled<R>(p: Pool<R>, e: Event<R>) {
    e.runner < |p.runners| && (if e.Launch? then p.runners[e.runner].Unstarted? else p.runners[e.runner].Working?)
  }

  function Step<R>(p: Pool<R>, e: Event<R>): Pool<R>
    requires Enabled(p, e) && InRange(p)
  {
    match e
    case Launch(r) => ClaimNext(p, r)
    case Settle(r, outcome) =>
      var i := p.runners[r].index;
      ClaimNext(p.(results := p.results[i := Some(outcome)], writes := p.writes + [i]), r)
  }

  predicate InRange<R>(p: Pool<R>) {
    forall r | 0 <= r < |p.runners| && p.runners[r].Working? :: p.runners[r].index < |p.results|
  }

  /** An event that cannot happen changes nothing. */
  function Run<R>(limit: int, n: nat, events: Trace<Event<R>>): Pool<R> {
    match events
    case Start => Initial(limit, n)
    case Then(before, e) =>
      var p := Run(limit, n, before);
      if Enabled(p, e) && InRange(p) then Step(p, e) else p
  }

  /** The steps of a run that happened. */
  function Steps<R>(limit: int, n: nat, events: Trace<Event<R>>): nat {
    match events
    case Start => 0
    case Then(before, e) =>
      var p := Run(limit, n, before);
      Steps(limit, n, before) + if Enabled(p, e) && InRange(p) then 1 else 0
  }

  function Active(runners: seq<Runner>): nat {
    if runners == [] then 0 else Active(runners[1..]) + if runners[0].Finished? then 0 else 1
  }

  function InFlight(runners: seq<Runner>): nat {
    if runners == [] then 0 else InFlight(runners[1..]) + if runners[0].Working? then 1 else 0
  }

  /** Each index below the cursor is either filled or in the hands of exactly one runner; none above it is touched. */
  ghost predicate Inv<R>(p: Pool<R>, limit: int, n: nat) {
    && |p.results| == n && |p.runners| == Workers(limit, n) && p.cursor <= n
    && Apart(p) && Covered(p)
    && (forall i | p.cursor <= i < n :: p.results[i].None?)
    && (forall r | 0 <= r < |p.runners| && p.runners[r].Finished? :: p.cursor == n)
  }

  /** Runners work on different indices, all claimed and still empty. */
  ghost predicate Apart<R>(p: Pool<R>) {
    && (forall r | 0 <= r < |p.runners| && p.runners[r].Working? ::
          p.runners[r].index < p.cursor && p.runners[r].index < |p.results| && p.results[p.runners[r].index].None?)
    && (forall r, s | 0 <= r < s < |p.runners| && p.runners[r].Working? && p.runners[s].Working? ::
          p.runners[r].index != p.runners[s].index)
  }

  ghost predicate Covered<R>(p: Pool<R>) {
    forall i | 0 <= i < p.cursor && i < |p.results| :: p.results[i].Some? || exists r :: 0 <= r < |p.runners| && p.runners[r] == Working(i)
  }

  /** Calls are 0, 1, 2, ... in order; a slot is written once, and only when it holds an outcome. */
  ghost predicate Logged<R>(p: Pool<R>) {
    && |p.calls| == p.cursor && (forall k | 0 <= k < |p.calls| :: p.calls[k] == k)
    && (forall i | i in p.writes :: i < |p.results| && p.results[i].Some?)
    && (forall j, k | 0 <= j < k < |p.writes| :: p.writes[j] != p.writes[k])
    && (forall i | 0 <= i < |p.results| && p.results[i].Some? :: i in p.writes)
  }

  lemma InitialInv<R>(limit: int, n: nat)
    ensures Inv(Initial<R>(limit, n), limit, n) && Logged(Initial<R>(limit, n))
  {
  }

  lemma StepKeepsApart<R>(p: Pool<R>, e: Event<R>)
    requires Apart(p) && InRange(p) && Enabled(p, e)
    requires forall i | p.cursor <= i < |p.results| :: p.results[i].None?
    ensures Apart(Step(p, e))
  {
  }

  lemma StepKeepsCovered<R>(p: Pool<R>, e: Event<R>)
    requires Covered(p) && InRange(p) && Enabled(p, e)
    ensures Covered(Step(p, e))
  {
    var q := Step(p, e);
    forall i | 0 <= i < q.cursor && i < |q.results|
      ensures q.results[i].Some? || exists r :: 0 <= r < |q.runners| && q.runners[r] == Working(i)
    {
      if i < p.cursor && p.results[i].None? {
        var r :| 0 <= r < |p.runners| && p.runners[r] == Working(i);
        assert r == e.runner || q.runners[r] == Working(i);
      } else if i == p.cursor {
        assert q.runners[e.runner] == Working(i);
      }
    }
  }

  lemma StepKeepsInv<R>(p: Pool<R>, e: Event<R>, limit: int, n: nat)
    requires Inv(p, limit, n) && Enabled(p, e)
    ensures Inv(Step(p, e), limit, n)
  {
    StepKeepsApart(p, e);
    StepKeepsCovered(p, e);
  }

  lemma StepKeepsLog<R>(p: Pool<R>, e: Event<R>, limit: int, n: nat)
    requires Inv(p, limit, n) && Logged(p) && Enabled(p, e)
    ensures Logged(Step(p, e))
  {
    var q := Step(p, e);
    if e.Settle? {
      var i := p.runners[e.runner].index;
      assert i !in p.writes;
      assert q.writes == p.writes + [i];
    }
  }

  lemma {:induction false} ActiveUpdate(runners: seq<Runner>, r: nat, x: Runner)
    requires r < |runners| && !runners[r].Finished?
    ensures Active(runners[r := x]) == Active(runners) - if x.Finished? then 1 else 0
  {
    if r == 0 {
      assert runners[r := x][1..] == runners[1..];
    } else {
      ActiveUpdate(runners[1..], r - 1, x);
      assert runners[r := x][1..] == runners[1..][r - 1 := x];
    }
  }

  lemma {:induction false} ActiveBounds(runners: seq<Runner>)
    ensures InFlight(runners) <= Active(runners) <= |runners|
    ensures Active(runners) == 0 <==> forall r | 0 <= r < |runners| :: runners[r].Finished?
  {
    if runners != [] {
      ActiveBounds(runners[1..]);
      assert forall r | 0 < r < |runners| :: runners[r] == runners[1..][r - 1];
    }
  }

  function Remaining<R>(p: Pool<R>): int {
    |p.results| - p.cursor + Active(p.runners)
  }

  /** Progress: every enabled step uses up exactly one unit, so a run has at most n + workers steps. */
  lemma StepProgress<R>(p: Pool<R>, e: Event<R>, limit: int, n: nat)
    requires Inv(p, limit, n) && Enabled(p, e)
    ensures Remaining(Step(p, e)) == Remaining(p) - 1
  {
    ActiveUpdate(p.runners, e.runner, Step(p, e).runners[e.runner]);
  }

  /** Every settled call reports `outcomes(i)` for index i. */
  ghost predicate Honest<R>(p: Pool<R>, outcomes: nat -> Settled<R>) {
    forall i | 0 <= i < |p.results| && p.results[i].Some? :: p.results[i].value == outcomes(i)
  }

  /** In every interleaving: single claims in order, single writes, bounded concurrency, bounded length. */
  lemma {:induction false} EveryInterleaving<R>(limit: int, n: nat, events: Trace<Event<R>>)
    ensures var p := Run(limit, n, events);
      && Inv(p, limit, n) && Logged(p)
      && InFlight(p.runners) <= Max(1, Min(limit, n))
      && Remaining(p) + Steps(limit, n, events) == n + Workers(limit, n) && Remaining(p) >= 0
  {
    var p := Run(limit, n, events);
    match events {
      case Start =>
        InitialInv<R>(limit, n);
        AllUnstarted(p.runners);
      case Then(before, e) =>
        EveryInterleaving(limit, n, before);
        var q := Run(limit, n, before);
        if Enabled(q, e) {
          StepKeepsInv(q, e, limit, n);
          StepKeepsLog(q, e, limit, n);
          StepProgress(q, e, limit, n);
        }
    }
    ActiveBounds(p.runners);
  }

  lemma {:induction false} AllUnstarted(runners: seq<Runner>)
    requires forall r | 0 <= r < |runners| :: runners[r].Unstarted?
    ensures Active(runners) == |runners|
  {
    if runners != [] {
      AllUnstarted(runners[1..]);
    }
  }

  /** The first `k` runners start. */
  function Launches<R>(k: nat): Trace<Event<R>> {
    if k == 0 then Start else Then(Launches<R>(k - 1), Launch(k - 1))
  }

  lemma {:induction false} LaunchesClaim<R>(limit: int, n: nat, k: nat)
    requires k <= Workers(limit, n) && k <= n
    ensures var p := Run<R>(limit, n, Launches<R>(k));
      && |p.runners| == Workers(limit, n) && |p.results| == n && p.cursor == k
      && forall r | 0 <= r < |p.runners| :: p.runners[r] == if r < k then Working(r) else Unstarted
  {
    if k > 0 {
      LaunchesClaim<R>(limit, n, k - 1);
    }
  }

  lemma {:induction false} InFlightCount(runners: seq<Runner>, k: nat)
    requires k <= |runners| && forall r | 0 <= r < |runners| :: runners[r].Working? <==> r < k
    ensures InFlight(runners) == k
  {
    if runners != [] {
      assert forall r | 0 <= r < |runners[1..]| :: runners[1..][r] == runners[r + 1];
      InFlightCount(runners[1..], if k > 0 then k - 1 else 0);
    }
  }

  /** The cap is reached: as many items are in flight at once as the limit and the items allow. */
  lemma CapIsReached<R>(limit: int, n: nat)
    requires n > 0
    ensures InFlight(Run<R>(limit, n, Launches<R>(Workers(limit, n))).runners) == (if limit < 1 then 1 else if limit < n then limit else n)
  {
    LaunchesClaim<R>(limit, n, Workers(limit, n));
    InFlightCount(Run<R>(limit, n, Launches<R>(Workers(limit, n))).runners, Workers(limit, n));
  }

  predicate Ended<R>(p: Pool<R>) {
    forall r | 0 <= r < |p.runners| :: p.runners[r].Finished?
  }

  lemma EndFilled<R>(p: Pool<R>, limit: int, n: nat)
    requires Inv(p, limit, n) && Logged(p) && Ended(p)
    ensures forall i | 0 <= i < n :: p.results[i].Some?
    ensures p.calls == seq(n, i => i) && |p.writes| == n
  {
    assert p.runners[0].Finished?;
    assert forall k | 0 <= k < |p.writes| :: p.writes[k] in p.writes;
    DistinctBelow(p.writes, n);
  }

  /** A run is never stuck before the end, and at the end every index was called and every slot written exactly once. */
  lemma WhenItEnds<R>(limit: int, n: nat, events: Trace<Event<R>>, outcome: Settled<R>)
    ensures var p := Run(limit, n, events);
      !Ended(p) ==> exists r :: 0 <= r < |p.runners| && (Enabled(p, Launch(r)) || Enabled(p, Settle(r, outcome)))
    ensures var p := Run(limit, n, events);
      Ended(p) ==> |p.results| == n && (forall i | 0 <= i < n :: p.results[i].Some?) && p.calls == seq(n, i => i) && |p.writes| == n
  {
    EveryInterleaving(limit, n, events);
    var p := Run(limit, n, events);
    if Ended(p) {
      EndFilled(p, limit, n);
    } else {
      var r :| 0 <= r < |p.runners| && !p.runners[r].Finished?;
      assert Enabled(p, Launch(r)) || Enabled(p, Settle(r, outcome));
    }
  }

  /** Distinct numbers below n that cover all of them are n many. */
  lemma {:induction false} DistinctBelow(xs: seq<nat>, n: nat)
    requires forall j, k | 0 <= j < k < |xs| :: xs[j] != xs[k]
    requires forall k | 0 <= k < |xs| :: xs[k] < n
    requires forall i | 0 <= i < n :: i in xs
    ensures |xs| == n
    decreases n
  {
    if n > 0 {
      assert n - 1 in xs;
      var k :| 0 <= k < |xs| && xs[k] == n - 1;
      var ys := xs[..k] + xs[k + 1..];
      forall i | 0 <= i < n - 1 ensures i in ys {
        assert i in xs;
        var j :| 0 <= j < |xs| && xs[j] == i;
        assert j < k ==> ys[j] == i;
        assert j > k ==> ys[j - 1] == i;
      }
      DistinctBelow(ys, n - 1);
    }
  }

  lemma StepKeepsHonest<R>(p: Pool<R>, e: Event<R>, limit: int, n: nat, outcomes: nat -> Settled<R>)
    requires Inv(p, limit, n) && Enabled(p, e) && Honest(p, outcomes)
    requires e.Settle? ==> e.outcome == outcomes(p.runners[e.runner].index)
    ensures Honest(Step(p, e), outcomes)
  {
  }

  /** The shared variables of one call. */
  class SharedPool<R> {
    var cursor: nat
    const results: array<Option<Settled<R>>>
    var runners: seq<Runner>
    ghost var calls: seq<nat>
    ghost var writes: seq<nat>

    ghost function State(): Pool<R>
      reads this, results
    {
      Pool(cursor, results[..], runners, calls, writes)
    }

    constructor (n: nat, limit: int)
      ensures fresh(results) && State() == Initial<R>(limit, n)
    {
      cursor, calls, writes := 0, [], [];
      results := new Option<Settled<R>>[n](_ => None);
      runners := seq(Workers(limit, n), _ => Unstarted);
    }

    ghost predicate Good(limit: int, n: nat, outcomes: nat -> Settled<R>)
      reads this, results
    {
      Inv(State(), limit, n) && Logged(State()) && Honest(State(), outcomes)
    }

    /** The head of the runner's while loop. */
    method ClaimOrFinish(r: nat)
      requires r < |runners|
      modifies this
      ensures State() == ClaimNext(old(State()), r)
    {
      if cursor < results.Length {
        runners, calls := runners[r := Working(cursor)], calls + [cursor];
        cursor := cursor + 1;
      } else {
        runners := runners[r := Finished];
      }
    }

    method Resume(r: nat, outcome: Settled<R>)
      requires r < |runners| && runners[r].Working? && runners[r].index < results.Length
      requires forall s | 0 <= s < |runners| && runners[s].Working? :: runners[s].index < results.Length
      modifies this, results
      ensures State() == Step(old(State()), Settle(r, outcome))
    {
      var i := runners[r].index;
      results[i] := Some(outcome);
      writes := writes + [i];
      ClaimOrFinish(r);
    }
  }

  lemma StepKeepsGood<R>(p: Pool<R>, e: Event<R>, limit: int, n: nat, outcomes: nat -> Settled<R>)
    requires Inv(p, limit, n) && Logged(p) && Honest(p, outcomes) && Enabled(p, e)
    requires e.Settle? ==> e.outcome == outcomes(p.runners[e.runner].index)
    ensures var q := Step(p, e); Inv(q, limit, n) && Logged(q) && Honest(q, outcomes)
    ensures var q := Step(p, e); 0 <= Remaining(q) < Remaining(p) && InFlight(q.runners) <= Max(1, Min(limit, n))
    ensures var q := Step(p, e); q.calls == p.calls + if q.cursor > p.cursor then [p.cursor] else []
  {
    StepKeepsInv(p, e, limit, n);
    StepKeepsLog(p, e, limit, n);
    StepKeepsHonest(p, e, limit, n, outcomes);
    StepProgress(p, e, limit, n);
    ActiveBounds(Step(p, e).runners);
  }

  /** One turn of the event loop: runner `r` starts, or wakes up with the outcome of its worker call. */
  method Turn<T, R>(pool: SharedPool<R>, r: nat, items: seq<T>, limit: int, worker: (T, nat) -> Settled<R>, ghost outcomes: nat -> Settled<R>)
    requires pool.Good(limit, |items|, outcomes)
    requires r < |pool.runners| && !pool.runners[r].Finished?
    requires forall i | 0 <= i < |items| :: outcomes(i) == worker(items[i], i)
    modifies pool, pool.results
    ensures pool.Good(limit, |items|, outcomes)
    ensures 0 <= Remaining(pool.State()) < old(Remaining(pool.State()))
    ensures InFlight(pool.runners) <= Max(1, Min(limit, |items|))
    ensures pool.calls == old(pool.calls) + if pool.cursor > old(pool.cursor) then [old(pool.cursor)] else []
  {
    if pool.runners[r].Unstarted? {
      StepKeepsGood(pool.State(), Launch(r), limit, |items|, outcomes);
      pool.ClaimOrFinish(r);
    } else {
      var i := pool.runners[r].index;
      var outcome := worker(items[i], i);
      StepKeepsGood(pool.State(), Settle(r, outcome), limit, |items|, outcomes);
      pool.Resume(r, outcome);
    }
  }

  /** Whatever order the worker calls settle in: one outcome per item, in input order, and the call always returns. */
  method MapWithConcurrency<T, R>(items: seq<T>, limit: int, worker: (T, nat) -> Settled<R>)
    returns (results: seq<Settled<R>>, calls: seq<nat>, peak: nat)
    ensures |results| == |items| && forall i | 0 <= i < |items| :: results[i] == worker(items[i], i)
    ensures calls == seq(|items|, i => i)
    ensures peak <= Max(1, Min(limit, |items|))
  {
    var n := |items|;
    ghost var outcomes: nat -> Settled<R> := i => if 0 <= i < |items| then worker(items[i], i) else Rejected("");
    var pool := new SharedPool<R>(n, limit);
    InitialInv<R>(limit, n);
    calls, peak := [], 0;
    while exists r :: 0 <= r < |pool.runners| && !pool.runners[r].Finished?
      invariant fresh(pool) && fresh(pool.results)
      invariant pool.Good(limit, n, outcomes)
      invariant calls == pool.calls && peak <= Max(1, Min(limit, n))
      decreases Remaining(pool.State())
    {
      var r: nat :| r < |pool.runners| && !pool.runners[r].Finished?;
      var claimed := pool.cursor;
      Turn(pool, r, items, limit, worker, outcomes);
      if claimed < pool.cursor {
        calls := calls + [claimed];
      }
      peak := Max(peak, InFlight(pool.runners));
    }
    assert pool.runners[0].Finished?;
    ghost var p := pool.State();
    EndFilled(p, limit, n);
    var slots := pool.results[..];
    assert forall i | 0 <= i < n :: p.results[i].Some?;
    results := seq(n, i requires 0 <= i < |slots| && slots[i].Some? => slots[i].value);
  }
}
