/**
 Password-reset codes: `forgotPassword` issues or re-issues a code, `resetPassword`
 checks a guess, and a failure counter that outlives a re-issue burns the code.
 Each call is one atomic step here.
 */
module ResetCode {
  import opened Wrappers
  import R = Redis
  import L = RateLimiter

  function CodeKey(email: string): string {
    "reset_pass:" + email
  }

  function AttemptsKey(email: string): string {
    CodeKey(email) + ":attempts"
  }

  datatype Config = Config(maxAttempts: nat, ttl: nat)

  predicate Matches(s: R.Store, email: string, guess: string) {
    R.Get(s, CodeKey(email)) == Some(R.Text(guess)) && guess != ""
  }

  function AfterFailure(cfg: Config, s: R.Store, email: string): R.Store
    requires R.Countable(s, AttemptsKey(email))
  {
    var n := R.NextCount(s, AttemptsKey(email));
    var s1 := R.Incr(s, AttemptsKey(email));
    var s2 := if n == 1 then R.Expire(s1, AttemptsKey(email), cfg.ttl) else s1;
    if n >= cfg.maxAttempts then R.Del(R.Del(s2, CodeKey(email)), AttemptsKey(email)) else s2
  }

  /** `wrong` counts the wrong guesses the code issued last has faced. */
  datatype World = World(store: R.Store, wrong: nat)

  /** `known` tells whether the account still exists when the code has matched. */
  datatype Event = Issue(code: string) | Guess(guess: string, known: bool) | Tick(seconds: nat)

  function Step(cfg: Config, email: string, w: World, e: Event): World {
    match e
    case Tick(seconds) => w.(store := R.Tick(w.store, seconds))
    case Issue(code) => World(R.SetEx(w.store, CodeKey(email), R.Text(code), cfg.ttl), 0)
    case Guess(guess, known) =>
      if Matches(w.store, email, guess) then
        if known then w.(store := R.Del(R.Del(w.store, CodeKey(email)), AttemptsKey(email))) else w
      else if R.Countable(w.store, AttemptsKey(email)) then
        World(AfterFailure(cfg, w.store, email), if R.Live(w.store, CodeKey(email)) then w.wrong + 1 else w.wrong)
      else w
  }

  function Run(cfg: Config, email: string, s: R.Store, events: Trace<Event>): World {
    match events
    case Start => World(s, 0)
    case Then(before, e) => Step(cfg, email, Run(cfg, email, s, before), e)
  }

  lemma KeysApart(email: string)
    ensures CodeKey(email) != AttemptsKey(email)
  {
    assert |AttemptsKey(email)| == |CodeKey(email)| + 9;
  }

  /** What one earlier counter window can leave to a code: every guess but the one that opened it and the one that burns. */
  function Carried(cfg: Config): nat {
    if cfg.maxAttempts >= 2 then cfg.maxAttempts - 2 else 0
  }

  predicate CounterOk(cfg: Config, s: R.Store, a: string) {
    a in s.cells ==>
      && s.cells[a].value.Number? && 1 <= s.cells[a].value.count < cfg.maxAttempts
      && s.cells[a].expiry.Some? && s.cells[a].expiry.value <= s.now + cfg.ttl
  }

  /** A live code met at most the window it was issued into, then one more. */
  predicate CodeOk(cfg: Config, w: World, k: string, a: string) {
    && w.wrong <= Carried(cfg) + cfg.maxAttempts
    && (k in w.store.cells ==> w.store.cells[k].expiry.Some? && w.store.cells[k].expiry.value <= w.store.now + cfg.ttl)
    && (R.Live(w.store, k) && w.store.cells[k].expiry.Some? ==>
          if !R.Live(w.store, a) || !w.store.cells[a].value.Number? || w.store.cells[a].expiry.None? then
            w.wrong <= Carried(cfg)
          else if w.store.cells[a].expiry.value < w.store.cells[k].expiry.value then
            w.wrong + 1 <= w.store.cells[a].value.count
          else
            w.wrong <= Carried(cfg) + w.store.cells[a].value.count)
  }

  ghost predicate Inv(cfg: Config, email: string, w: World) {
    CounterOk(cfg, w.store, AttemptsKey(email)) && CodeOk(cfg, w, CodeKey(email), AttemptsKey(email))
  }

  lemma StepKeepsInv(cfg: Config, email: string, w: World, e: Event)
    requires Inv(cfg, email, w) && cfg.maxAttempts >= 1
    ensures Inv(cfg, email, Step(cfg, email, w, e))
  {
    KeysApart(email);
  }

  lemma {:induction false} EveryRun(cfg: Config, email: string, s: R.Store, events: Trace<Event>)
    requires cfg.maxAttempts >= 1 && CodeKey(email) !in s.cells && AttemptsKey(email) !in s.cells
    ensures Inv(cfg, email, Run(cfg, email, s, events))
  {
    if events.Then? {
      EveryRun(cfg, email, s, events.before);
      StepKeepsInv(cfg, email, Run(cfg, email, s, events.before), events.event);
    }
  }

  /** Over every run, a code faces at most max(M, 2M - 2) wrong guesses. */
  lemma WrongGuessBound(cfg: Config, email: string, s: R.Store, events: Trace<Event>)
    requires cfg.maxAttempts >= 1 && CodeKey(email) !in s.cells && AttemptsKey(email) !in s.cells
    ensures var m := cfg.maxAttempts;
      Run(cfg, email, s, events).wrong <= if m >= 2 * m - 2 then m else 2 * m - 2
  {
    EveryRun(cfg, email, s, events);
  }

  /** A consumed code is gone: after a reset no guess matches until a new code is issued. */
  lemma {:induction false} ConsumedUntilReissued(cfg: Config, email: string, s: R.Store, code: string, later: Trace<Event>, guess: string)
    requires Matches(s, email, code)
    requires NoIssue(later)
    ensures !Matches(Run(cfg, email, Step(cfg, email, World(s, 0), Guess(code, true)).store, later).store, email, guess)
    ensures CodeKey(email) !in Run(cfg, email, Step(cfg, email, World(s, 0), Guess(code, true)).store, later).store.cells
  {
    KeysApart(email);
    if later.Then? {
      ConsumedUntilReissued(cfg, email, s, code, later.before, guess);
    }
  }

  predicate NoIssue(events: Trace<Event>) {
    events.Then? ==> !events.event.Issue? && NoIssue(events.before)
  }

  // ----- many accounts -----

  /** What one account does; a tick passes for all. */
  datatype Act = Act(email: string, event: Event)

  function RunAll(cfg: Config, s: R.Store, acts: Trace<Act>): R.Store {
    match acts
    case Start => s
    case Then(before, a) => Step(cfg, a.email, World(RunAll(cfg, s, before), 0), a.event).store
  }

  /** The events one account sees. */
  function Own(acts: Trace<Act>, email: string): Trace<Event> {
    match acts
    case Start => Start
    case Then(before, a) => if a.email == email || a.event.Tick? then Then(Own(before, email), a.event) else Own(before, email)
  }

  /** Neither address is the other one followed by the counter suffix. */
  predicate Unrelated(a: string, b: string) {
    a != b + ":attempts" && b != a + ":attempts"
  }

  predicate AllUnrelated(acts: Trace<Act>, email: string) {
    acts.Then? ==> Unrelated(acts.event.email, email) && AllUnrelated(acts.before, email)
  }

  /** Addresses share a key exactly when they are equal, or one is the other with the counter suffix. */
  lemma EmailKeysApart(a: string, b: string)
    ensures CodeKey(a) == CodeKey(b) <==> a == b
    ensures AttemptsKey(a) == AttemptsKey(b) <==> a == b
    ensures AttemptsKey(a) == CodeKey(b) <==> b == a + ":attempts"
  {
    var n := |CodeKey("")|;
    assert CodeKey(a)[n..] == a && CodeKey(b)[n..] == b;
    assert AttemptsKey(a) == CodeKey(a + ":attempts") && CodeKey(a + ":attempts")[n..] == a + ":attempts";
    assert AttemptsKey(b) == CodeKey(b + ":attempts") && CodeKey(b + ":attempts")[n..] == b + ":attempts";
    assert (a + ":attempts")[..|a + ":attempts"| - 9] == a && (b + ":attempts")[..|b + ":attempts"| - 9] == b;
  }

  predicate SameCell(s: R.Store, t: R.Store, key: string) {
    if key in s.cells then key in t.cells && t.cells[key] == s.cells[key] else key !in t.cells
  }

  /** The stores agree on everything an account's calls look at. */
  predicate SameFor(email: string, s: R.Store, t: R.Store) {
    s.now == t.now && SameCell(s, t, CodeKey(email)) && SameCell(s, t, AttemptsKey(email))
  }

  /** What one account does leaves another's code and counter alone. */
  lemma OtherAccountsUntouched(cfg: Config, s: R.Store, a: Act, email: string)
    requires a.email != email && Unrelated(a.email, email) && !a.event.Tick?
    ensures SameFor(email, s, Step(cfg, a.email, World(s, 0), a.event).store)
    ensures forall guess :: Matches(Step(cfg, a.email, World(s, 0), a.event).store, email, guess) <==> Matches(s, email, guess)
  {
    EmailKeysApart(a.email, email);
    EmailKeysApart(email, a.email);
  }

  lemma StepIsLocal(cfg: Config, email: string, s: R.Store, w: World, e: Event)
    requires SameFor(email, s, w.store)
    ensures SameFor(email, Step(cfg, email, World(s, 0), e).store, Step(cfg, email, w, e).store)
  {
    KeysApart(email);
  }

  /** Among any accounts, each one's code and counter are what its own events alone make of them. */
  lemma {:induction false} AccountsAreIndependent(cfg: Config, s: R.Store, acts: Trace<Act>, email: string)
    requires AllUnrelated(acts, email)
    ensures SameFor(email, RunAll(cfg, s, acts), Run(cfg, email, s, Own(acts, email)).store)
  {
    if acts.Then? {
      var a, before := acts.event, acts.before;
      AccountsAreIndependent(cfg, s, before, email);
      if a.email == email || a.event.Tick? {
        StepIsLocal(cfg, email, RunAll(cfg, s, before), Run(cfg, email, s, Own(before, email)), a.event);
      } else {
        OtherAccountsUntouched(cfg, RunAll(cfg, s, before), a, email);
      }
    }
  }

  /** The code issued last and not used since. */
  function LastCode(events: Trace<Event>): Option<string> {
    match events
    case Start => None
    case Then(before, Issue(code)) => Some(code)
    case Then(before, Guess(guess, known)) => if known && LastCode(before) == Some(guess) then None else LastCode(before)
    case Then(before, Tick(_)) => LastCode(before)
  }

  lemma {:induction false} StoredIsLast(cfg: Config, email: string, s: R.Store, events: Trace<Event>)
    requires CodeKey(email) !in s.cells
    ensures var w := Run(cfg, email, s, events); CodeKey(email) in w.store.cells ==>
      w.store.cells[CodeKey(email)].value.Text? && (R.Live(w.store, CodeKey(email)) ==>
        LastCode(events) == Some(w.store.cells[CodeKey(email)].value.text) || w.store.cells[CodeKey(email)].value.text == "")
  {
    KeysApart(email);
    if events.Then? {
      StoredIsLast(cfg, email, s, events.before);
    }
  }

  /** Whatever other accounts do, a guess for an account matches only the code issued to it last and not used since. */
  lemma OnlyOwnCodeMatches(cfg: Config, s: R.Store, acts: Trace<Act>, email: string, guess: string)
    requires AllUnrelated(acts, email) && CodeKey(email) !in s.cells
    requires Matches(RunAll(cfg, s, acts), email, guess)
    ensures LastCode(Own(acts, email)) == Some(guess)
  {
    AccountsAreIndependent(cfg, s, acts, email);
    StoredIsLast(cfg, email, s, Own(acts, email));
  }

  /** An issued code matches for its whole time, and only it; a wrong guess below the limit leaves it standing. */
  lemma IssuedCodeMatches(cfg: Config, email: string, w: World, code: string, seconds: nat, guess: string)
    requires code != ""
    ensures var w' := Step(cfg, email, Step(cfg, email, w, Issue(code)), Tick(seconds));
      && (Matches(w'.store, email, guess) <==> guess == code && seconds < cfg.ttl)
      && (guess != code && seconds < cfg.ttl && R.Countable(w'.store, AttemptsKey(email)) && R.NextCount(w'.store, AttemptsKey(email)) < cfg.maxAttempts ==>
            Matches(Step(cfg, email, w', Guess(guess, true)).store, email, code))
  {
    KeysApart(email);
  }

  // ----- the bound is met -----

  function Wrongs(events: Trace<Event>, n: nat): Trace<Event> {
    if n == 0 then events else Then(Wrongs(events, n - 1), Guess("", false))
  }

  /** The code lives until `x` and its counter stands at `v` until `e`. */
  predicate Counting(email: string, s: R.Store, x: nat, v: nat, e: nat) {
    R.LiveUntil(s, CodeKey(email), x) && R.LiveUntil(s, AttemptsKey(email), e) && R.Get(s, AttemptsKey(email)) == Some(R.Number(v))
  }

  lemma OneWrong(cfg: Config, email: string, w: World, x: nat, v: nat, e: nat)
    requires Counting(email, w.store, x, v, e) && 1 <= v && v + 1 < cfg.maxAttempts
    ensures var w' := Step(cfg, email, w, Guess("", false));
      w'.wrong == w.wrong + 1 && w'.store.now == w.store.now && Counting(email, w'.store, x, v + 1, e)
  {
    KeysApart(email);
  }

  lemma {:induction false} WrongsInWindow(cfg: Config, email: string, s: R.Store, events: Trace<Event>, n: nat, v: nat, x: nat, e: nat)
    requires Counting(email, Run(cfg, email, s, events).store, x, v, e) && 1 <= v && v + n < cfg.maxAttempts
    ensures var w := Run(cfg, email, s, events); var w' := Run(cfg, email, s, Wrongs(events, n));
      w'.wrong == w.wrong + n && w'.store.now == w.store.now && Counting(email, w'.store, x, v + n, e)
  {
    if n > 0 {
      WrongsInWindow(cfg, email, s, events, n - 1, v, x, e);
      OneWrong(cfg, email, Run(cfg, email, s, Wrongs(events, n - 1)), x, v + n - 1, e);
    }
  }

  function Reissued(code: string): Trace<Event> {
    Then(Then(Then(Start, Guess("", false)), Tick(1)), Issue(code))
  }

  /** A first guess opens the counter, and the code is issued one second into its window. */
  lemma IssuedIntoWindow(cfg: Config, email: string, code: string)
    requires cfg.maxAttempts >= 2 && cfg.ttl >= 2
    ensures var w := Run(cfg, email, R.Store(map[], 0, 0), Reissued(code));
      w.wrong == 0 && w.store.now == 1 && Counting(email, w.store, cfg.ttl + 1, 1, cfg.ttl)
  {
    KeysApart(email);
    var s0, a := R.Store(map[], 0, 0), AttemptsKey(email);
    var t1 := Then(Start, Guess("", false));
    assert Run(cfg, email, s0, t1) == Step(cfg, email, World(s0, 0), Guess("", false));
    assert R.LiveUntil(Run(cfg, email, s0, t1).store, a, cfg.ttl);
  }

  lemma NewWindow(cfg: Config, email: string, w: World, x: nat)
    requires R.LiveUntil(w.store, CodeKey(email), x) && !R.Live(w.store, AttemptsKey(email))
    requires cfg.maxAttempts >= 2 && cfg.ttl > 0
    ensures var w' := Step(cfg, email, w, Guess("", false));
      w'.wrong == w.wrong + 1 && w'.store.now == w.store.now && Counting(email, w'.store, x, 1, w.store.now + cfg.ttl)
  {
    KeysApart(email);
  }

  /** When the first window lapses the code is still alive. */
  function Lapsed(cfg: Config, code: string): Trace<Event>
    requires cfg.maxAttempts >= 2 && cfg.ttl >= 1
  {
    Then(Wrongs(Reissued(code), cfg.maxAttempts - 2), Tick(cfg.ttl - 1))
  }

  lemma FirstWindow(cfg: Config, email: string, code: string)
    requires cfg.maxAttempts >= 2 && cfg.ttl >= 2
    ensures var w := Run(cfg, email, R.Store(map[], 0, 0), Lapsed(cfg, code));
      && w.wrong == cfg.maxAttempts - 2 && w.store.now == cfg.ttl
      && R.LiveUntil(w.store, CodeKey(email), cfg.ttl + 1) && !R.Live(w.store, AttemptsKey(email))
  {
    IssuedIntoWindow(cfg, email, code);
    WrongsInWindow(cfg, email, R.Store(map[], 0, 0), Reissued(code), cfg.maxAttempts - 2, 1, cfg.ttl + 1, cfg.ttl);
  }

  /** A second window fills up to the last guess. */
  function BeforeLast(cfg: Config, code: string): Trace<Event>
    requires cfg.maxAttempts >= 2 && cfg.ttl >= 1
  {
    Wrongs(Then(Lapsed(cfg, code), Guess("", false)), cfg.maxAttempts - 2)
  }

  lemma SecondWindow(cfg: Config, email: string, code: string)
    requires cfg.maxAttempts >= 2 && cfg.ttl >= 2
    ensures var w := Run(cfg, email, R.Store(map[], 0, 0), BeforeLast(cfg, code));
      w.wrong == 2 * cfg.maxAttempts - 3 && Counting(email, w.store, cfg.ttl + 1, cfg.maxAttempts - 1, cfg.ttl + cfg.ttl)
  {
    FirstWindow(cfg, email, code);
    var s0, lapsed := R.Store(map[], 0, 0), Lapsed(cfg, code);
    NewWindow(cfg, email, Run(cfg, email, s0, lapsed), cfg.ttl + 1);
    WrongsInWindow(cfg, email, s0, Then(lapsed, Guess("", false)), cfg.maxAttempts - 2, 1, cfg.ttl + 1, cfg.ttl + cfg.ttl);
  }

  /** The bound is met for every limit of at least two. */
  lemma WrongGuessBoundIsMet(cfg: Config, email: string, code: string)
    requires cfg.maxAttempts >= 2 && cfg.ttl >= 2
    ensures Run(cfg, email, R.Store(map[], 0, 0), Then(BeforeLast(cfg, code), Guess("", false))).wrong == 2 * cfg.maxAttempts - 2
  {
    SecondWindow(cfg, email, code);
  }

  // ----- the service methods -----

  const FORGOT_PASSWORD_REQUESTS_LIMIT: nat := 3
  const FORGOT_PASSWORD_WINDOW_SECONDS: nat := 60

  function ForgotKey(email: string): string {
    "limit:forgot:" + email
  }

  /** The limiter counts each address by itself, apart from all codes and their counters. */
  lemma LimitKeysApart(a: string, b: string)
    ensures ForgotKey(a) == ForgotKey(b) <==> a == b
    ensures ForgotKey(a) != CodeKey(b) && ForgotKey(a) != AttemptsKey(b)
  {
    var n := |ForgotKey("")|;
    assert ForgotKey(a)[n..] == a && ForgotKey(b)[n..] == b;
    assert ForgotKey(a)[0] == 'l' && CodeKey(b)[0] == 'r' && AttemptsKey(b)[0] == 'r';
  }

  datatype User = User(password: string, refreshToken: Option<string>)

  datatype Error = TooManyRequests | InvalidCode

  class PasswordReset {
    const redis: R.RedisService
    const limits: L.Limits
    const cfg: Config
    var users: map<string, User>

    constructor (redis: R.RedisService, cfg: Config, users: map<string, User>)
      ensures this.redis == redis && this.cfg == cfg && this.users == users
      ensures fresh(limits) && limits.redis == redis
    {
      this.redis, this.cfg, this.users := redis, cfg, users;
      limits := new L.Limits(redis);
    }

    /** The limiter runs before the lookup, so unknown addresses are limited alike. */
    method ForgotPassword(email: string, code: string) returns (r: Result<bool, Error>)
      requires limits.redis == redis && R.Countable(redis.State(), ForgotKey(email))
      modifies redis`cells
      ensures r == Err(TooManyRequests) <==> R.NextCount(old(redis.State()), ForgotKey(email)) > 3
      ensures r.Ok? ==> r.value == (email in users)
      ensures var s := L.AfterCall(old(redis.State()), ForgotKey(email), 60);
        redis.State() == if r == Ok(true) then Step(cfg, email, World(s, 0), Issue(code)).store else s
    {
      var passes := limits.AssertRateLimit(ForgotKey(email), FORGOT_PASSWORD_REQUESTS_LIMIT, FORGOT_PASSWORD_WINDOW_SECONDS);
      if !passes {
        return Err(TooManyRequests);
      }
      if email !in users {
        return Ok(false);
      }
      redis.SetWithExpirySeconds(CodeKey(email), R.Text(code), cfg.ttl);
      return Ok(true);
    }

    /** Only a matching code of an existing account changes a user row; it also revokes the refresh token. */
    method ResetPassword(email: string, code: string, hashed: string) returns (r: Result<bool, Error>)
      requires R.Countable(redis.State(), AttemptsKey(email))
      modifies redis`cells, this`users
      ensures r.Ok? <==> Matches(old(redis.State()), email, code) && email in old(users)
      ensures r.Ok? ==> CodeKey(email) !in redis.cells && AttemptsKey(email) !in redis.cells
      ensures Matches(old(redis.State()), email, code) && email !in old(users) ==> redis.State() == old(redis.State())
      ensures users == if r.Ok? then old(users)[email := User(hashed, None)] else old(users)
      ensures redis.State() == Step(cfg, email, World(old(redis.State()), 0), Guess(code, email in old(users))).store
    {
      var stored := redis.GetValue(CodeKey(email));
      if stored != Some(R.Text(code)) || code == "" {
        RegisterResetFailure(email);
        return Err(InvalidCode);
      }
      if email !in users {
        return Err(InvalidCode);
      }
      users := users[email := users[email].(password := hashed)];
      users := users[email := users[email].(refreshToken := None)];
      var _ := redis.Delete(CodeKey(email));
      var _ := redis.Delete(AttemptsKey(email));
      return Ok(true);
    }

    method RegisterResetFailure(email: string)
      requires R.Countable(redis.State(), AttemptsKey(email))
      modifies redis`cells
      ensures redis.State() == AfterFailure(cfg, old(redis.State()), email)
      ensures var n := R.NextCount(old(redis.State()), AttemptsKey(email));
        if n >= cfg.maxAttempts then CodeKey(email) !in redis.cells && AttemptsKey(email) !in redis.cells
        else
          redis.cells - {AttemptsKey(email)} == old(redis.cells) - {AttemptsKey(email)}
          && AttemptsKey(email) in redis.cells && redis.cells[AttemptsKey(email)].value == R.Number(n)
          && (n == 1 ==> redis.cells[AttemptsKey(email)].expiry == Some(redis.now + cfg.ttl))
    {
      var attempts := redis.Increment(AttemptsKey(email));
      if attempts == 1 {
        redis.SetExpiry(AttemptsKey(email), cfg.ttl);
      }
      if attempts >= cfg.maxAttempts {
        var _ := redis.Delete(CodeKey(email));
        var _ := redis.Delete(AttemptsKey(email));
      }
    }
  }
}
