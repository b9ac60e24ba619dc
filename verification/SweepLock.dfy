/**
 The fenced lock that keeps one sweep running at a time, over any number of
 replicas that start, overrun, crash and release late.
 */
module SweepLock {
  import opened Wrappers
  import R = Redis

  const LOCK_KEY: string := "cron:media-cleanup:lock"
  const LOCK_TTL_SECONDS: nat := 1800

  datatype Replica =
    | Idle
    | Sweeping(token: nat, since: nat)
    | Releasing(token: nat)

  /** A sweep that ran to its end. */
  datatype Sweep = Sweep(start: nat, end: nat)

  datatype World = World(store: R.Store, replicas: seq<Replica>, done: seq<Sweep>)

  datatype Event = Begin(replica: nat) | End(replica: nat) | Free(replica: nat) | Crash(replica: nat) | Tick(seconds: nat)

  function Step(w: World, e: Event): World {
    match e
    case Tick(seconds) => w.(store := R.Tick(w.store, seconds))
    case Begin(i) =>
      if i < |w.replicas| && w.replicas[i].Idle? then
        w.(store := R.Acquire(w.store, LOCK_KEY, LOCK_TTL_SECONDS),
           replicas := if R.Live(w.store, LOCK_KEY) then w.replicas
                       else w.replicas[i := Sweeping(w.store.issued, w.store.now)])
      else w
    case End(i) =>
      if i < |w.replicas| && w.replicas[i].Sweeping? then
        w.(replicas := w.replicas[i := Releasing(w.replicas[i].token)],
           done := w.done + [Sweep(w.replicas[i].since, w.store.now)])
      else w
    case Free(i) =>
      if i < |w.replicas| && w.replicas[i].Releasing? then
        w.(store := R.Release(w.store, LOCK_KEY, w.replicas[i].token), replicas := w.replicas[i := Idle])
      else w
    case Crash(i) => if i < |w.replicas| then w.(replicas := w.replicas[i := Idle]) else w
  }

  function Run(s: R.Store, n: nat, events: Trace<Event>): World {
    match events
    case Start => World(s, seq(n, _ => Idle), [])
    case Then(before, e) => Step(Run(s, n, before), e)
  }

  predicate InTime(w: World, r: Replica) {
    r.Sweeping? && w.store.now < r.since + LOCK_TTL_SECONDS
  }

  predicate WithinTtl(x: Sweep) {
    x.end < x.start + LOCK_TTL_SECONDS
  }

  ghost predicate Tokens(w: World) {
    && R.FreshTokens(w.store)
    && (forall i | 0 <= i < |w.replicas| && !w.replicas[i].Idle? :: w.replicas[i].token < w.store.issued)
    && (forall i, j | 0 <= i < j < |w.replicas| && !w.replicas[i].Idle? && !w.replicas[j].Idle? ::
          w.replicas[i].token != w.replicas[j].token)
  }

  /** A sweep inside its TTL still holds the lock, under its own token. */
  ghost predicate Held(w: World) {
    forall i | 0 <= i < |w.replicas| && w.replicas[i].Sweeping? ::
      && w.replicas[i].since <= w.store.now
      && (InTime(w, w.replicas[i]) ==>
            LOCK_KEY in w.store.cells &&
            w.store.cells[LOCK_KEY] == R.Cell(R.Token(w.replicas[i].token), Some(w.replicas[i].since + LOCK_TTL_SECONDS)))
  }

  /** A finished in-time sweep was over before any other in-time sweep began. */
  ghost predicate Apart(w: World) {
    && (forall k | 0 <= k < |w.done| :: w.done[k].start <= w.done[k].end <= w.store.now)
    && (forall k, i | 0 <= k < |w.done| && WithinTtl(w.done[k]) && 0 <= i < |w.replicas| && InTime(w, w.replicas[i]) ::
          w.done[k].end <= w.replicas[i].since)
    && (forall j, k | 0 <= j < k < |w.done| && WithinTtl(w.done[j]) && WithinTtl(w.done[k]) :: w.done[j].end <= w.done[k].start)
  }

  ghost predicate Inv(w: World) {
    Tokens(w) && Held(w) && Apart(w)
  }

  lemma StepKeepsTokens(w: World, e: Event)
    requires Tokens(w)
    ensures Tokens(Step(w, e))
  {
  }

  lemma StepKeepsHeld(w: World, e: Event)
    requires Tokens(w) && Held(w)
    ensures Held(Step(w, e))
  {
  }

  lemma StepKeepsApart(w: World, e: Event)
    requires Tokens(w) && Held(w) && Apart(w)
    ensures Apart(Step(w, e))
  {
    var w' := Step(w, e);
    forall k, i | 0 <= k < |w'.done| && WithinTtl(w'.done[k]) && 0 <= i < |w'.replicas| && InTime(w', w'.replicas[i])
      ensures w'.done[k].end <= w'.replicas[i].since
    {
      if !e.Begin? || i != e.replica || k >= |w.done| {
        assert w'.replicas[i] == w.replicas[i] && InTime(w, w.replicas[i]);
      }
    }
  }

  lemma StepKeepsInv(w: World, e: Event)
    requires Inv(w)
    ensures Inv(Step(w, e))
  {
    StepKeepsTokens(w, e);
    StepKeepsHeld(w, e);
    StepKeepsApart(w, e);
  }

  lemma {:induction false} EveryRun(s: R.Store, n: nat, events: Trace<Event>)
    requires R.FreshTokens(s)
    ensures Inv(Run(s, n, events))
  {
    if events.Then? {
      EveryRun(s, n, events.before);
      StepKeepsInv(Run(s, n, events.before), events.event);
    }
  }

  /** At any moment at most one sweep is inside its TTL, and in-time sweeps never overlapped, whatever overran or released late. */
  lemma SweepsNeverOverlap(s: R.Store, n: nat, events: Trace<Event>)
    requires R.FreshTokens(s)
    ensures var w := Run(s, n, events);
      && (forall i, j | 0 <= i < j < |w.replicas| :: !(InTime(w, w.replicas[i]) && InTime(w, w.replicas[j])))
      && (forall j, k | 0 <= j < k < |w.done| && WithinTtl(w.done[j]) && WithinTtl(w.done[k]) :: w.done[j].end <= w.done[k].start)
  {
    EveryRun(s, n, events);
  }

  /** A release takes the lock away only from the replica that releases. */
  lemma ReleaseIsFenced(s: R.Store, n: nat, events: Trace<Event>, i: nat, j: nat)
    requires R.FreshTokens(s)
    requires var w := Run(s, n, events); i < |w.replicas| && j < |w.replicas| && i != j && w.replicas[i].Releasing?
    ensures var w := Run(s, n, events); var w' := Step(w, Free(i));
      && (InTime(w, w.replicas[j]) ==> R.Get(w'.store, LOCK_KEY) == Some(R.Token(w.replicas[j].token)))
      && (w'.store != w.store ==> R.Get(w.store, LOCK_KEY) == Some(R.Token(w.replicas[i].token)) && !R.Live(w'.store, LOCK_KEY))
  {
    EveryRun(s, n, events);
  }

  // ----- exactly the TTL is needed -----

  /** No sweep is `d` seconds past its start. */
  predicate Prompt(w: World, d: nat) {
    forall i | 0 <= i < |w.replicas| && w.replicas[i].Sweeping? :: w.store.now < w.replicas[i].since + d
  }

  predicate AlwaysPrompt(s: R.Store, n: nat, events: Trace<Event>, d: nat) {
    Prompt(Run(s, n, events), d) && (events.Then? ==> AlwaysPrompt(s, n, events.before, d))
  }

  predicate OneAtATime(w: World) {
    forall i, j | 0 <= i < j < |w.replicas| :: !(w.replicas[i].Sweeping? && w.replicas[j].Sweeping?)
  }

  /** Sweeps that finish within `d` seconds never run at the same time, for any number of replicas. */
  ghost predicate Exclusive(s: R.Store, d: nat) {
    forall n: nat, events | AlwaysPrompt(s, n, events, d) :: OneAtATime(Run(s, n, events))
  }

  /** The lock key is stored without expiry, so no sweep ever starts. */
  predicate HeldForever(s: R.Store) {
    LOCK_KEY in s.cells && s.cells[LOCK_KEY].expiry.None?
  }

  lemma {:induction false} HeldForeverNeverSweeps(s: R.Store, n: nat, events: Trace<Event>)
    requires HeldForever(s)
    ensures var w := Run(s, n, events); HeldForever(w.store) && forall i | 0 <= i < |w.replicas| :: w.replicas[i].Idle?
  {
    if events.Then? {
      HeldForeverNeverSweeps(s, n, events.before);
    }
  }

  /** One replica sweeps for the whole TTL, and the next one begins. */
  function Overrun(wait: nat): Trace<Event> {
    Then(Then(Then(Then(Start, Tick(wait)), Begin(0)), Tick(LOCK_TTL_SECONDS)), Begin(1))
  }

  lemma OverrunOverlaps(s: R.Store, wait: nat, d: nat)
    requires !R.Live(R.Tick(s, wait), LOCK_KEY) && d > LOCK_TTL_SECONDS
    ensures AlwaysPrompt(s, 2, Overrun(wait), d) && !OneAtATime(Run(s, 2, Overrun(wait)))
  {
    var e1 := Then(Start, Tick(wait));
    var e2 := Then(e1, Begin(0));
    var e3 := Then(e2, Tick(LOCK_TTL_SECONDS));
    var began := Sweeping(s.issued, s.now + wait);
    assert Run(s, 2, e1) == World(R.Tick(s, wait), [Idle, Idle], []);
    assert Run(s, 2, e2).replicas == [began, Idle];
    assert Run(s, 2, e3).replicas == [began, Idle] && !R.Live(Run(s, 2, e3).store, LOCK_KEY);
    var w := Run(s, 2, Overrun(wait));
    assert w.replicas == [began, Sweeping(s.issued + 1, s.now + wait + LOCK_TTL_SECONDS)];
    assert w.replicas[0].Sweeping? && w.replicas[1].Sweeping?;
    assert AlwaysPrompt(s, 2, e1, d);
    assert Prompt(Run(s, 2, e2), d) && Prompt(Run(s, 2, e3), d) && Prompt(w, d);
    assert AlwaysPrompt(s, 2, e2, d);
    assert AlwaysPrompt(s, 2, e3, d);
  }

  /** From any store, sweeps that take less than `d` seconds exclude each other exactly when `d` is at most the TTL. */
  lemma ExclusiveExactly(s: R.Store, d: nat)
    requires R.FreshTokens(s)
    ensures Exclusive(s, d) <==> d <= 1800 || HeldForever(s)
  {
    if d <= LOCK_TTL_SECONDS {
      forall n: nat, events | AlwaysPrompt(s, n, events, d) ensures OneAtATime(Run(s, n, events)) {
        SweepsNeverOverlap(s, n, events);
      }
    } else if HeldForever(s) {
      forall n: nat, events ensures OneAtATime(Run(s, n, events)) {
        HeldForeverNeverSweeps(s, n, events);
      }
    } else {
      var wait := if LOCK_KEY in s.cells then s.cells[LOCK_KEY].expiry.value else 0;
      OverrunOverlaps(s, wait, d);
    }
  }
}
