/**
 One OTP session under any interleaving of verify calls. A call is a sequence of
 Redis commands; calls of every kind may arrive on the session's token at any
 time, and each runs its commands one by one between the commands of the others.
 */
module OtpSession {
  import opened Wrappers
  import R = Redis

  datatype Kind = EmailVerify | EmailLogin | PhoneRegister | PhoneLogin

  function TypeName(kind: Kind): string {
    match kind
    case EmailVerify => "email_verify"
    case EmailLogin => "email_login"
    case PhoneRegister => "phone_register"
    case PhoneLogin => "phone_login"
  }

  /** The two phone flows share one key space. */
  function SessionKey(kind: Kind, token: string): string {
    match kind
    case EmailVerify => "email_verify:" + token
    case EmailLogin => "email_login:" + token
    case PhoneRegister => "phone_session:" + token
    case PhoneLogin => "phone_session:" + token
  }

  function AttemptsKey(sessionKey: string): string {
    sessionKey + ":attempts"
  }

  datatype Config = Config(maxAttempts: nat, counterTtl: nat)

  datatype Outcome = Success | NoSession | WrongType | AlreadyUsed | TooManyAttempts | WrongCode | RedisError

  /** The command a call is about to send. */
  datatype Pc = Reading | Consuming | Counting | Bounding(count: int) | Burning | Clearing | Finished(outcome: Outcome)

  datatype Call = Call(kind: Kind, guess: string, pc: Pc)

  function AfterCount(cfg: Config, count: int): Pc {
    if count >= cfg.maxAttempts then Burning else Finished(WrongCode)
  }

  /** One command of one call. */
  function CallStep(cfg: Config, token: string, s: R.Store, c: Call): (R.Store, Call) {
    var key := SessionKey(c.kind, token);
    var attempts := AttemptsKey(key);
    match c.pc
    case Reading => (
      match R.Get(s, key)
      case None => (s, c.(pc := Finished(NoSession)))
      case Some(Payload(kind, otp)) =>
        if kind != TypeName(c.kind) then (s, c.(pc := Finished(WrongType)))
        else (s, c.(pc := if c.guess == otp then Consuming else Counting))
      case Some(_) => (s, c.(pc := Finished(WrongType)))
    )
    case Consuming => (R.Del(s, key), c.(pc := Finished(if R.Live(s, key) then Success else AlreadyUsed)))
    case Counting =>
      if R.Countable(s, attempts) then
        var n := R.NextCount(s, attempts);
        (R.Incr(s, attempts), c.(pc := if n == 1 then Bounding(n) else AfterCount(cfg, n)))
      else (s, c.(pc := Finished(RedisError)))
    case Bounding(n) => (R.Expire(s, attempts, cfg.counterTtl), c.(pc := AfterCount(cfg, n)))
    case Burning => (R.Del(s, key), c.(pc := Clearing))
    case Clearing => (R.Del(s, attempts), c.(pc := Finished(TooManyAttempts)))
    case Finished(_) => (s, c)
  }

  /** `wrong` counts the guesses made at the live session that are not its code. */
  datatype World = World(store: R.Store, calls: seq<Call>, wrong: nat, successes: nat, burned: bool)

  /** `Elsewhere` is one command of any call on another session. */
  datatype Event =
    | Arrive(kind: Kind, guess: string)
    | Advance(call: nat)
    | Tick(seconds: nat)
    | Withdraw
    | Elsewhere(token: string, other: Call)

  datatype Session = Session(kind: Kind, token: string, otp: string, ttl: nat)

  function Key(x: Session): string {
    SessionKey(x.kind, x.token)
  }

  /** A call of the session's kind finds it alive and has another code. */
  predicate WrongGuess(x: Session, s: R.Store, c: Call) {
    c.kind == x.kind && R.Live(s, Key(x)) && c.guess != x.otp
  }

  function Issued(x: Session, s: R.Store): R.Store {
    R.SetEx(s, Key(x), R.Payload(TypeName(x.kind), x.otp), x.ttl)
  }

  /** `Withdraw` is the delete a login issues when its mail cannot be queued. */
  function Step(cfg: Config, x: Session, w: World, e: Event): World {
    match e
    case Arrive(kind, guess) => w.(calls := w.calls + [Call(kind, guess, Reading)])
    case Tick(seconds) => w.(store := R.Tick(w.store, seconds))
    case Withdraw => w.(store := R.Del(w.store, Key(x)))
    case Elsewhere(token, c) => if Unrelated(token, x.token) then w.(store := CallStep(cfg, token, w.store, c).0) else w
    case Advance(i) =>
      if i >= |w.calls| then w
      else
        var c := w.calls[i];
        var n := CallStep(cfg, x.token, w.store, c);
        World(n.0, w.calls[i := n.1],
              if c.pc.Reading? && WrongGuess(x, w.store, c) then w.wrong + 1 else w.wrong,
              if !c.pc.Finished? && n.1.pc == Finished(Success) then w.successes + 1 else w.successes,
              w.burned || c.pc.Burning?)
  }

  function Run(cfg: Config, x: Session, s: R.Store, events: Trace<Event>): World {
    match events
    case Start => World(Issued(x, s), [], 0, 0, false)
    case Then(before, e) => Step(cfg, x, Run(cfg, x, s, before), e)
  }

  /** Ways to count calls: under way, about to count a wrong guess, and `Heavy`. */
  datatype Class = UnderWay | Uncounted | Heavy

  /** Heavy calls are wrong guesses whose count is not among the first maxAttempts - 1. */
  predicate InClass(cfg: Config, k: Class, c: Call) {
    match k
    case UnderWay => !c.pc.Finished?
    case Uncounted => c.pc.Counting?
    case Heavy => c.pc.Counting? || c.pc.Burning? || (c.pc.Bounding? && c.pc.count >= cfg.maxAttempts)
  }

  function Count(cfg: Config, k: Class, calls: seq<Call>): nat {
    if calls == [] then 0 else Count(cfg, k, calls[1..]) + if InClass(cfg, k, calls[0]) then 1 else 0
  }

  /** At no point of the run are more than `k` calls under way. */
  predicate AtMost(cfg: Config, x: Session, s: R.Store, events: Trace<Event>, k: nat) {
    Count(cfg, UnderWay, Run(cfg, x, s, events).calls) <= k && (events.Then? ==> AtMost(cfg, x, s, events.before, k))
  }

  /** Nothing was ever stored under a fresh token. */
  ghost predicate FreshToken(x: Session, s: R.Store) {
    forall kind: Kind :: SessionKey(kind, x.token) !in s.cells && AttemptsKey(SessionKey(kind, x.token)) !in s.cells
  }

  /** A token, or the token with the counter suffix, names no other session's keys. */
  predicate Unrelated(s: string, t: string) {
    s != t && s != t + ":attempts" && t != s + ":attempts"
  }

  /** Sessions of unrelated tokens, of any kinds, share no key. */
  lemma TokensApart(s: string, t: string, a: Kind, b: Kind)
    requires Unrelated(s, t)
    ensures SessionKey(a, s) != SessionKey(b, t) && AttemptsKey(SessionKey(a, s)) != SessionKey(b, t)
    ensures AttemptsKey(SessionKey(a, s)) != AttemptsKey(SessionKey(b, t)) && SessionKey(a, s) != AttemptsKey(SessionKey(b, t))
  {
    assert AttemptsKey(SessionKey(a, s)) == SessionKey(a, s + ":attempts");
    assert AttemptsKey(SessionKey(b, t)) == SessionKey(b, t + ":attempts");
    SuffixApart(s, t);
    KeyNamesToken(a, b, s, t);
    KeyNamesToken(a, b, s + ":attempts", t);
    KeyNamesToken(a, b, s, t + ":attempts");
    KeyNamesToken(a, b, s + ":attempts", t + ":attempts");
  }

  lemma SuffixApart(s: string, t: string)
    requires s != t
    ensures s + ":attempts" != t + ":attempts"
  {
    assert (s + ":attempts")[..|s + ":attempts"| - 9] == s && (t + ":attempts")[..|t + ":attempts"| - 9] == t;
  }

  /** A session key has a prefix for its kind, and then the token. */
  lemma KeyNamesToken(a: Kind, b: Kind, s: string, t: string)
    requires s != t
    ensures SessionKey(a, s) != SessionKey(b, t)
  {
    KindLetters(a, s);
    KindLetters(b, t);
    var n := |SessionKey(a, "")|;
    assert SessionKey(a, s)[n..] == s && SessionKey(a, t)[n..] == t;
  }

  lemma KindLetters(a: Kind, s: string)
    ensures var k := SessionKey(a, s);
      && |k| == |SessionKey(a, "")| + |s| && |k| >= 12
      && k[0] == (if a.EmailVerify? || a.EmailLogin? then 'e' else 'p')
      && (a.EmailVerify? ==> k[6] == 'v') && (a.EmailLogin? ==> k[6] == 'l')
  {
  }

  lemma KeysApart(token: string, a: Kind, b: Kind)
    ensures AttemptsKey(SessionKey(a, token)) != SessionKey(b, token)
    ensures SessionKey(a, token) == SessionKey(b, token) <==>
      a == b || (a.PhoneLogin? && b.PhoneRegister?) || (a.PhoneRegister? && b.PhoneLogin?)
  {
    var ka, kb := SessionKey(a, token), SessionKey(b, token);
    assert AttemptsKey(ka)[0] == ka[0] && AttemptsKey(ka)[6] == ka[6];
    assert a.EmailVerify? ==> ka[0] == 'e' && ka[6] == 'v';
    assert a.EmailLogin? ==> ka[0] == 'e' && ka[6] == 'l';
    assert a.PhoneLogin? || a.PhoneRegister? ==> ka[0] == 'p';
    assert b.EmailVerify? ==> kb[0] == 'e' && kb[6] == 'v';
    assert b.EmailLogin? ==> kb[0] == 'e' && kb[6] == 'l';
    assert b.PhoneLogin? || b.PhoneRegister? ==> kb[0] == 'p';
    assert |AttemptsKey(ka)| == |ka| + 9;
  }

  // ----- the invariant -----

  /** A call of another kind has read nothing it could act on. */
  predicate Harmless(c: Call) {
    c.pc.Reading? || c.pc == Finished(NoSession) || c.pc == Finished(WrongType)
  }

  function CounterValue(x: Session, s: R.Store): int {
    var a := AttemptsKey(Key(x));
    if a in s.cells && s.cells[a].value.Number? then s.cells[a].value.count else 0
  }

  ghost predicate CounterOk(x: Session, s: R.Store) {
    var a := AttemptsKey(Key(x));
    a in s.cells ==> s.cells[a].value.Number? && s.cells[a].value.count >= 1
  }

  /** The counter cannot lapse before a live session does. */
  ghost predicate CounterLasts(x: Session, s: R.Store) {
    var a := AttemptsKey(Key(x));
    R.Live(s, Key(x)) && a in s.cells && s.cells[a].expiry.Some? ==>
      s.cells[Key(x)].expiry.Some? && s.cells[Key(x)].expiry.value <= s.cells[a].expiry.value
  }

  ghost predicate SessionOk(x: Session, issued: nat, s: R.Store) {
    && issued <= s.now
    && (Key(x) in s.cells ==> s.cells[Key(x)] == R.Cell(R.Payload(TypeName(x.kind), x.otp), Some(issued + x.ttl)))
    && (forall kind: Kind | SessionKey(kind, x.token) != Key(x) :: SessionKey(kind, x.token) !in s.cells)
  }

  ghost predicate CallsOk(cfg: Config, x: Session, w: World) {
    forall i | 0 <= i < |w.calls| ::
      && (w.calls[i].kind != x.kind ==> Harmless(w.calls[i]))
      && (w.calls[i].pc.Clearing? ==> w.burned)
      && (w.calls[i].pc.Bounding? ==> w.calls[i].pc.count >= 1)
      && (w.calls[i].pc.Consuming? ==> w.calls[i].guess == x.otp)
  }

  ghost predicate Inv(cfg: Config, x: Session, issued: nat, w: World) {
    && SessionOk(x, issued, w.store) && CounterOk(x, w.store) && CallsOk(cfg, x, w)
    && (w.burned ==> Key(x) !in w.store.cells)
    && (if w.successes == 0 then true else w.successes == 1 && Key(x) !in w.store.cells)
  }

  /** While the session lives, the wrong guesses are those counted below the limit plus the heavy ones. */
  ghost predicate Tallied(cfg: Config, x: Session, w: World) {
    R.Live(w.store, Key(x)) ==>
      var v := CounterValue(x, w.store);
      w.wrong == (if v < cfg.maxAttempts then v else cfg.maxAttempts - 1) + Count(cfg, Heavy, w.calls)
  }

  /** While the session lives, the counter has all wrong guesses but those still to be counted. */
  ghost predicate Balanced(cfg: Config, x: Session, w: World) {
    R.Live(w.store, Key(x)) ==> w.wrong == CounterValue(x, w.store) + Count(cfg, Uncounted, w.calls)
  }

  lemma {:induction false} CountUpdate(cfg: Config, k: Class, calls: seq<Call>, i: nat, c: Call)
    requires i < |calls|
    ensures Count(cfg, k, calls[i := c]) + (if InClass(cfg, k, calls[i]) then 1 else 0)
         == Count(cfg, k, calls) + if InClass(cfg, k, c) then 1 else 0
  {
    if i == 0 {
      assert calls[i := c][1..] == calls[1..];
    } else {
      CountUpdate(cfg, k, calls[1..], i - 1, c);
      assert calls[i := c][1..] == calls[1..][i - 1 := c];
    }
  }

  lemma {:induction false} CountAppend(cfg: Config, k: Class, calls: seq<Call>, c: Call)
    ensures Count(cfg, k, calls + [c]) == Count(cfg, k, calls) + if InClass(cfg, k, c) then 1 else 0
  {
    if calls == [] {
      assert calls + [c] == [c];
    } else {
      CountAppend(cfg, k, calls[1..], c);
      assert (calls + [c])[1..] == calls[1..] + [c];
    }
  }

  lemma {:induction false} CountsUnderWay(cfg: Config, calls: seq<Call>)
    ensures Count(cfg, Uncounted, calls) <= Count(cfg, Heavy, calls) <= Count(cfg, UnderWay, calls)
  {
    if calls != [] {
      CountsUnderWay(cfg, calls[1..]);
    }
  }

  predicate SameCell(s: R.Store, t: R.Store, key: string) {
    if key in s.cells then key in t.cells && t.cells[key] == s.cells[key] else key !in t.cells
  }

  /** Whatever a call on an unrelated token does, every key of this token is left alone. */
  lemma OtherTokensUntouched(cfg: Config, token: string, other: string, s: R.Store, c: Call, kind: Kind)
    requires Unrelated(other, token)
    ensures var t := CallStep(cfg, other, s, c).0;
      t.now == s.now && SameCell(s, t, SessionKey(kind, token)) && SameCell(s, t, AttemptsKey(SessionKey(kind, token)))
  {
    TokensApart(other, token, c.kind, kind);
  }

  /** So the session's own cells are as before. */
  lemma ElsewhereLeaves(cfg: Config, x: Session, w: World, e: Event)
    requires e.Elsewhere?
    ensures var w' := Step(cfg, x, w, e);
      && w' == w.(store := w'.store) && w'.store.now == w.store.now
      && (forall kind :: SameCell(w.store, w'.store, SessionKey(kind, x.token)))
      && SameCell(w.store, w'.store, AttemptsKey(Key(x)))
  {
    if Unrelated(e.token, x.token) {
      forall kind
        ensures SameCell(w.store, CallStep(cfg, e.token, w.store, e.other).0, SessionKey(kind, x.token))
      {
        OtherTokensUntouched(cfg, x.token, e.token, w.store, e.other, kind);
      }
      OtherTokensUntouched(cfg, x.token, e.token, w.store, e.other, x.kind);
    }
  }

  lemma CallStepKeepsInv(cfg: Config, x: Session, issued: nat, w: World, i: nat)
    requires Inv(cfg, x, issued, w) && i < |w.calls|
    ensures Inv(cfg, x, issued, Step(cfg, x, w, Advance(i)))
  {
    var c := w.calls[i];
    KeysApart(x.token, c.kind, x.kind);
    forall kind: Kind ensures AttemptsKey(Key(x)) != SessionKey(kind, x.token) {
      KeysApart(x.token, x.kind, kind);
    }
  }

  lemma StepKeepsInv(cfg: Config, x: Session, issued: nat, w: World, e: Event)
    requires Inv(cfg, x, issued, w)
    ensures Inv(cfg, x, issued, Step(cfg, x, w, e))
  {
    if e.Advance? && e.call < |w.calls| {
      CallStepKeepsInv(cfg, x, issued, w, e.call);
    } else if e.Elsewhere? {
      ElsewhereLeaves(cfg, x, w, e);
    } else if e.Withdraw? {
      KeysApart(x.token, x.kind, x.kind);
    }
  }

  lemma {:induction false} EveryRun(cfg: Config, x: Session, s: R.Store, events: Trace<Event>)
    requires FreshToken(x, s)
    ensures Inv(cfg, x, s.now, Run(cfg, x, s, events))
  {
    if events.Then? {
      EveryRun(cfg, x, s, events.before);
      StepKeepsInv(cfg, x, s.now, Run(cfg, x, s, events.before), events.event);
    } else {
      forall kind: Kind ensures AttemptsKey(SessionKey(kind, x.token)) != Key(x) {
        KeysApart(x.token, kind, x.kind);
      }
    }
  }

  // ----- what the counter's TTL buys -----

  lemma StepKeepsLasting(cfg: Config, x: Session, issued: nat, w: World, e: Event)
    requires Inv(cfg, x, issued, w) && CounterLasts(x, w.store) && x.ttl <= cfg.counterTtl
    ensures CounterLasts(x, Step(cfg, x, w, e).store)
  {
    KeysApart(x.token, x.kind, x.kind);
    if e.Advance? && e.call < |w.calls| {
      KeysApart(x.token, w.calls[e.call].kind, x.kind);
    } else if e.Elsewhere? {
      ElsewhereLeaves(cfg, x, w, e);
    }
  }

  /** Only a guess against the live session counts as wrong. */
  lemma WrongNeedsLive(cfg: Config, x: Session, issued: nat, w: World, e: Event)
    requires Inv(cfg, x, issued, w) && Step(cfg, x, w, e).wrong != w.wrong
    ensures Step(cfg, x, w, e).wrong == w.wrong + 1 && R.Live(Step(cfg, x, w, e).store, Key(x))
  {
    KeysApart(x.token, w.calls[e.call].kind, x.kind);
  }

  /** The tally needs a lasting counter, or a limit of one that no second count can reach. */
  lemma CallStepKeepsTally(cfg: Config, x: Session, issued: nat, w: World, i: nat)
    requires Inv(cfg, x, issued, w) && Tallied(cfg, x, w) && i < |w.calls| && cfg.maxAttempts >= 1
    requires cfg.maxAttempts == 1 || CounterLasts(x, w.store)
    ensures Tallied(cfg, x, Step(cfg, x, w, Advance(i)))
  {
    var c := w.calls[i];
    KeysApart(x.token, x.kind, x.kind);
    KeysApart(x.token, c.kind, x.kind);
    CountUpdate(cfg, Heavy, w.calls, i, CallStep(cfg, x.token, w.store, c).1);
  }

  lemma CallStepKeepsBalance(cfg: Config, x: Session, issued: nat, w: World, i: nat)
    requires Inv(cfg, x, issued, w) && Balanced(cfg, x, w) && i < |w.calls| && CounterLasts(x, w.store)
    ensures Balanced(cfg, x, Step(cfg, x, w, Advance(i)))
  {
    var c := w.calls[i];
    KeysApart(x.token, x.kind, x.kind);
    KeysApart(x.token, c.kind, x.kind);
    CountUpdate(cfg, Uncounted, w.calls, i, CallStep(cfg, x.token, w.store, c).1);
  }

  lemma StepKeepsTally(cfg: Config, x: Session, issued: nat, w: World, e: Event)
    requires Inv(cfg, x, issued, w) && Tallied(cfg, x, w) && cfg.maxAttempts >= 1
    requires cfg.maxAttempts == 1 || CounterLasts(x, w.store)
    ensures Tallied(cfg, x, Step(cfg, x, w, e))
  {
    match e
    case Arrive(kind, guess) => CountAppend(cfg, Heavy, w.calls, Call(kind, guess, Reading));
    case Tick(seconds) =>
    case Withdraw => KeysApart(x.token, x.kind, x.kind);
    case Elsewhere(_, _) => ElsewhereLeaves(cfg, x, w, e);
    case Advance(i) =>
      if i < |w.calls| {
        CallStepKeepsTally(cfg, x, issued, w, i);
      }
  }

  lemma StepKeepsBalance(cfg: Config, x: Session, issued: nat, w: World, e: Event)
    requires Inv(cfg, x, issued, w) && Balanced(cfg, x, w) && CounterLasts(x, w.store)
    ensures Balanced(cfg, x, Step(cfg, x, w, e))
  {
    match e
    case Arrive(kind, guess) => CountAppend(cfg, Uncounted, w.calls, Call(kind, guess, Reading));
    case Tick(seconds) =>
    case Withdraw => KeysApart(x.token, x.kind, x.kind);
    case Elsewhere(_, _) => ElsewhereLeaves(cfg, x, w, e);
    case Advance(i) =>
      if i < |w.calls| {
        CallStepKeepsBalance(cfg, x, issued, w, i);
      }
  }

  lemma {:induction false} EveryRunLasts(cfg: Config, x: Session, s: R.Store, events: Trace<Event>)
    requires FreshToken(x, s) && x.ttl <= cfg.counterTtl
    ensures CounterLasts(x, Run(cfg, x, s, events).store) && Balanced(cfg, x, Run(cfg, x, s, events))
  {
    KeysApart(x.token, x.kind, x.kind);
    if events.Then? {
      EveryRunLasts(cfg, x, s, events.before);
      EveryRun(cfg, x, s, events.before);
      var w := Run(cfg, x, s, events.before);
      StepKeepsLasting(cfg, x, s.now, w, events.event);
      StepKeepsBalance(cfg, x, s.now, w, events.event);
    } else {
      assert AttemptsKey(SessionKey(x.kind, x.token)) !in s.cells;
    }
  }

  lemma {:induction false} EveryRunTallies(cfg: Config, x: Session, s: R.Store, events: Trace<Event>)
    requires FreshToken(x, s) && cfg.maxAttempts >= 1 && (cfg.maxAttempts == 1 || x.ttl <= cfg.counterTtl)
    ensures Tallied(cfg, x, Run(cfg, x, s, events))
  {
    KeysApart(x.token, x.kind, x.kind);
    if events.Then? {
      EveryRunTallies(cfg, x, s, events.before);
      EveryRun(cfg, x, s, events.before);
      if cfg.maxAttempts > 1 {
        EveryRunLasts(cfg, x, s, events.before);
      }
      StepKeepsTally(cfg, x, s.now, Run(cfg, x, s, events.before), events.event);
    } else {
      assert AttemptsKey(SessionKey(x.kind, x.token)) !in s.cells;
    }
  }

  // ----- main results -----

  /** Single use: at most one call succeeds, and none once the session was burned, withdrawn, consumed or has expired. */
  lemma SingleUse(cfg: Config, x: Session, s: R.Store, events: Trace<Event>, e: Event)
    requires FreshToken(x, s)
    ensures var w := Run(cfg, x, s, events); var w' := Run(cfg, x, s, Then(events, e));
      && w'.successes <= 1
      && (w.burned || w.store.now >= s.now + x.ttl || w.successes == 1 || !R.Live(w.store, Key(x)) ==> w'.successes == w.successes)
  {
    EveryRun(cfg, x, s, events);
    EveryRun(cfg, x, s, Then(events, e));
    var w := Run(cfg, x, s, events);
    if e.Advance? && e.call < |w.calls| {
      KeysApart(x.token, w.calls[e.call].kind, x.kind);
    }
  }

  /** A call succeeds only with the session's own code and kind, on the live session. */
  lemma SuccessNeedsTheCode(cfg: Config, x: Session, s: R.Store, events: Trace<Event>, i: nat)
    requires FreshToken(x, s)
    requires var w := Run(cfg, x, s, events); i < |w.calls| && !w.calls[i].pc.Finished?
    requires Step(cfg, x, Run(cfg, x, s, events), Advance(i)).calls[i].pc == Finished(Success)
    ensures var w := Run(cfg, x, s, events);
      && w.calls[i].guess == x.otp && w.calls[i].kind == x.kind
      && R.Get(w.store, Key(x)) == Some(R.Payload(TypeName(x.kind), x.otp)) && w.store.now < s.now + x.ttl
  {
    EveryRun(cfg, x, s, events);
  }

  /** A verify for another kind of session never consumes this one and never counts an attempt. */
  lemma OtherKindsAreHarmless(cfg: Config, x: Session, s: R.Store, events: Trace<Event>, i: nat)
    requires FreshToken(x, s)
    requires var w := Run(cfg, x, s, events); i < |w.calls| && w.calls[i].kind != x.kind
    ensures var w := Run(cfg, x, s, events); var w' := Step(cfg, x, w, Advance(i));
      && w'.store == w.store && w'.successes == w.successes && w'.wrong == w.wrong
      && (w'.calls[i].pc == Finished(NoSession) || w'.calls[i].pc == Finished(WrongType))
  {
    EveryRun(cfg, x, s, events);
    var w := Run(cfg, x, s, events);
    KeysApart(x.token, w.calls[i].kind, x.kind);
    assert TypeName(w.calls[i].kind) != TypeName(x.kind) by { NamesDiffer(w.calls[i].kind, x.kind); }
  }

  lemma NamesDiffer(a: Kind, b: Kind)
    requires a != b
    ensures TypeName(a) != TypeName(b)
  {
    assert |TypeName(EmailVerify)| == 12 && |TypeName(EmailLogin)| == 11 && |TypeName(PhoneRegister)| == 14 && |TypeName(PhoneLogin)| == 11;
    assert TypeName(EmailLogin)[0] == 'e' && TypeName(PhoneLogin)[0] == 'p';
  }

  /** With at most k calls under way at a time a session meets at most maxAttempts - 1 + k wrong guesses. */
  lemma {:induction false} WrongGuessBound(cfg: Config, x: Session, s: R.Store, events: Trace<Event>, k: nat)
    requires FreshToken(x, s) && cfg.maxAttempts >= 1 && (cfg.maxAttempts == 1 || x.ttl <= cfg.counterTtl)
    requires AtMost(cfg, x, s, events, k)
    ensures Run(cfg, x, s, events).wrong <= cfg.maxAttempts - 1 + k
  {
    if events.Then? {
      WrongGuessBound(cfg, x, s, events.before, k);
      EveryRun(cfg, x, s, events.before);
      var w, w' := Run(cfg, x, s, events.before), Run(cfg, x, s, events);
      if w'.wrong != w.wrong {
        WrongNeedsLive(cfg, x, s.now, w, events.event);
        EveryRunTallies(cfg, x, s, events);
        CountsUnderWay(cfg, w'.calls);
      }
    }
  }

  /** Between calls a live session has seen fewer than maxAttempts wrong guesses, and its counter holds their number. */
  lemma CounterOutlivesSession(cfg: Config, x: Session, s: R.Store, events: Trace<Event>)
    requires FreshToken(x, s) && x.ttl <= cfg.counterTtl && cfg.maxAttempts >= 1
    requires Count(cfg, UnderWay, Run(cfg, x, s, events).calls) == 0 && R.Live(Run(cfg, x, s, events).store, Key(x))
    ensures var w := Run(cfg, x, s, events);
      && w.wrong == CounterValue(x, w.store) < cfg.maxAttempts
      && (w.wrong > 0 ==> R.Live(w.store, AttemptsKey(Key(x))))
  {
    EveryRun(cfg, x, s, events);
    EveryRunLasts(cfg, x, s, events);
    EveryRunTallies(cfg, x, s, events);
    CountsUnderWay(cfg, Run(cfg, x, s, events).calls);
  }

  // ----- the bound is met, and it needs the counter's TTL -----

  /** Some run with at most `k` calls under way ends in `w`. */
  ghost predicate Reaches(cfg: Config, x: Session, s: R.Store, k: nat, w: World) {
    exists events :: AtMost(cfg, x, s, events, k) && Run(cfg, x, s, events) == w
  }

  lemma ReachStep(cfg: Config, x: Session, s: R.Store, k: nat, w: World, e: Event)
    requires Reaches(cfg, x, s, k, w) && Count(cfg, UnderWay, Step(cfg, x, w, e).calls) <= k
    ensures Reaches(cfg, x, s, k, Step(cfg, x, w, e))
  {
    var events :| AtMost(cfg, x, s, events, k) && Run(cfg, x, s, events) == w;
    assert Run(cfg, x, s, Then(events, e)) == Step(cfg, x, w, e);
    assert AtMost(cfg, x, s, Then(events, e), k);
  }

  /** The last call sends one command that takes it from `c` to `c'` and the store to `t`. */
  lemma ReachCommand(cfg: Config, x: Session, s: R.Store, k: nat, w: World, cs: seq<Call>, c: Call, t: R.Store, c': Call)
    returns (w': World)
    requires Reaches(cfg, x, s, k, w) && w.calls == cs + [c] && Count(cfg, UnderWay, cs) < k
    requires CallStep(cfg, x.token, w.store, c) == (t, c')
    ensures Reaches(cfg, x, s, k, w') && w'.store == t && w'.calls == cs + [c']
    ensures w'.wrong == w.wrong + if c.pc.Reading? && WrongGuess(x, w.store, c) then 1 else 0
  {
    w' := Step(cfg, x, w, Advance(|cs|));
    assert (cs + [c])[|cs| := c'] == cs + [c'];
    CountAppend(cfg, UnderWay, cs, c');
    ReachStep(cfg, x, s, k, w, Advance(|cs|));
  }

  predicate SessionLive(x: Session, s: R.Store, until: nat) {
    R.LiveUntil(s, Key(x), until) && R.Get(s, Key(x)) == Some(R.Payload(TypeName(x.kind), x.otp))
  }

  /** The counter stands at `v` until `e`; at zero it is absent. */
  predicate CounterAt(x: Session, s: R.Store, v: nat, e: nat) {
    var a := AttemptsKey(Key(x));
    if v == 0 then !R.Live(s, a) else a in s.cells && s.cells[a] == R.Cell(R.Number(v), Some(e)) && s.now < e
  }

  /** The store once a wrong guess has been counted below the limit. */
  function Counted(cfg: Config, x: Session, s: R.Store): R.Store {
    var a := AttemptsKey(Key(x));
    if !R.Countable(s, a) then s
    else if R.NextCount(s, a) == 1 then R.Expire(R.Incr(s, a), a, cfg.counterTtl) else R.Incr(s, a)
  }

  lemma CountedStands(cfg: Config, x: Session, s: R.Store, v: nat, e: nat, until: nat)
    requires SessionLive(x, s, until) && CounterAt(x, s, v, e) && cfg.counterTtl > 0
    ensures var t := Counted(cfg, x, s);
      SessionLive(x, t, until) && CounterAt(x, t, v + 1, if v == 0 then s.now + cfg.counterTtl else e) && t.now == s.now
  {
    KeysApart(x.token, x.kind, x.kind);
  }

  /** One more wrong guess has been compared and is still to be counted. */
  lemma CompareWrong(cfg: Config, x: Session, s: R.Store, k: nat, w: World, until: nat) returns (c: Call, w': World)
    requires Reaches(cfg, x, s, k, w) && SessionLive(x, w.store, until) && Count(cfg, UnderWay, w.calls) < k
    ensures Reaches(cfg, x, s, k, w') && w'.store == w.store && w'.calls == w.calls + [c] && w'.wrong == w.wrong + 1
    ensures c.kind == x.kind && c.pc == Counting
  {
    var guess := x.otp + "x";
    assert |guess| == |x.otp| + 1;
    var arrived := Call(x.kind, guess, Reading);
    CountAppend(cfg, UnderWay, w.calls, arrived);
    ReachStep(cfg, x, s, k, w, Arrive(x.kind, guess));
    c := arrived.(pc := Counting);
    w' := ReachCommand(cfg, x, s, k, Step(cfg, x, w, Arrive(x.kind, guess)), w.calls, arrived, w.store, c);
  }

  /** The commands that count a wrong guess below the limit. */
  lemma CountCommands(cfg: Config, x: Session, s: R.Store, c: Call, v: nat, e: nat) returns (s1: R.Store, c1: Call, c2: Call)
    requires c.kind == x.kind && c.pc == Counting && CounterAt(x, s, v, e) && v + 1 < cfg.maxAttempts
    ensures CallStep(cfg, x.token, s, c) == (s1, c1) && CallStep(cfg, x.token, s1, c1) == (Counted(cfg, x, s), c2)
    ensures !c1.pc.Reading? && c2.pc.Finished?
  {
    s1, c2 := R.Incr(s, AttemptsKey(Key(x))), c.(pc := Finished(WrongCode));
    c1 := if v == 0 then c.(pc := Bounding(1)) else c2;
  }

  lemma GuessWrong(cfg: Config, x: Session, s: R.Store, k: nat, w: World, v: nat, e: nat, until: nat) returns (w': World)
    requires Reaches(cfg, x, s, k, w) && SessionLive(x, w.store, until) && CounterAt(x, w.store, v, e)
    requires Count(cfg, UnderWay, w.calls) == 0 < k && v + 1 < cfg.maxAttempts
    ensures Reaches(cfg, x, s, k, w') && w'.store == Counted(cfg, x, w.store) && w'.wrong == w.wrong + 1
    ensures Count(cfg, UnderWay, w'.calls) == 0
  {
    var c, w1 := CompareWrong(cfg, x, s, k, w, until);
    var s1, c1, c2 := CountCommands(cfg, x, w.store, c, v, e);
    var w2 := ReachCommand(cfg, x, s, k, w1, w.calls, c, s1, c1);
    w' := ReachCommand(cfg, x, s, k, w2, w.calls, c1, Counted(cfg, x, w.store), c2);
    CountAppend(cfg, UnderWay, w.calls, c2);
  }

  lemma GuessOnceMore(cfg: Config, x: Session, s: R.Store, k: nat, w: World, v: nat, e: nat, until: nat) returns (w': World)
    requires Reaches(cfg, x, s, k, w) && SessionLive(x, w.store, until) && CounterAt(x, w.store, v, e)
    requires Count(cfg, UnderWay, w.calls) == 0 < k && v + 1 < cfg.maxAttempts && cfg.counterTtl > 0
    ensures Reaches(cfg, x, s, k, w') && w'.store.now == w.store.now && w'.wrong == w.wrong + 1
    ensures SessionLive(x, w'.store, until) && CounterAt(x, w'.store, v + 1, if v == 0 then w.store.now + cfg.counterTtl else e)
    ensures Count(cfg, UnderWay, w'.calls) == 0
  {
    w' := GuessWrong(cfg, x, s, k, w, v, e, until);
    CountedStands(cfg, x, w.store, v, e, until);
  }

  lemma {:induction false} GuessWrongTimes(cfg: Config, x: Session, s: R.Store, k: nat, n: nat) returns (w: World)
    requires FreshToken(x, s) && n < cfg.maxAttempts && cfg.counterTtl > 0 && x.ttl > 0 && k > 0
    ensures Reaches(cfg, x, s, k, w) && w.store.now == s.now && w.wrong == n && Count(cfg, UnderWay, w.calls) == 0
    ensures SessionLive(x, w.store, s.now + x.ttl) && CounterAt(x, w.store, n, s.now + cfg.counterTtl)
  {
    if n > 0 {
      var before := GuessWrongTimes(cfg, x, s, k, n - 1);
      w := GuessOnceMore(cfg, x, s, k, before, n - 1, s.now + cfg.counterTtl, s.now + x.ttl);
    } else {
      w := JustIssued(cfg, x, s, k);
    }
  }

  lemma JustIssued(cfg: Config, x: Session, s: R.Store, k: nat) returns (w: World)
    requires FreshToken(x, s) && x.ttl > 0
    ensures Reaches(cfg, x, s, k, w) && w.store.now == s.now && w.wrong == 0 && Count(cfg, UnderWay, w.calls) == 0
    ensures SessionLive(x, w.store, s.now + x.ttl) && CounterAt(x, w.store, 0, 0)
  {
    KeysApart(x.token, x.kind, x.kind);
    assert AttemptsKey(SessionKey(x.kind, x.token)) !in s.cells;
    w := World(Issued(x, s), [], 0, 0, false);
    assert AtMost(cfg, x, s, Start, k) && Run(cfg, x, s, Start) == w;
  }

  /** `n` wrong guesses compared together, none counted yet. */
  lemma {:induction false} CompareTogether(cfg: Config, x: Session, s: R.Store, k: nat, w: World, until: nat, n: nat) returns (w': World)
    requires Reaches(cfg, x, s, k, w) && SessionLive(x, w.store, until) && Count(cfg, UnderWay, w.calls) == 0 && n <= k
    ensures Reaches(cfg, x, s, k, w') && w'.store == w.store && w'.wrong == w.wrong + n
    ensures Count(cfg, UnderWay, w'.calls) == n
  {
    w' := w;
    if n > 0 {
      var before := CompareTogether(cfg, x, s, k, w, until, n - 1);
      var c;
      c, w' := CompareWrong(cfg, x, s, k, before, until);
      CountAppend(cfg, UnderWay, before.calls, c);
    }
  }

  /** The bound of `WrongGuessBound` is met for every k. */
  lemma WrongGuessBoundIsMet(cfg: Config, x: Session, s: R.Store, k: nat)
    requires FreshToken(x, s) && cfg.maxAttempts >= 1 && cfg.counterTtl > 0 && x.ttl > 0 && k >= 1
    ensures exists events :: AtMost(cfg, x, s, events, k) && Run(cfg, x, s, events).wrong == cfg.maxAttempts - 1 + k
  {
    var w := GuessWrongTimes(cfg, x, s, k, cfg.maxAttempts - 1);
    var w' := CompareTogether(cfg, x, s, k, w, s.now + x.ttl, k);
    var events :| AtMost(cfg, x, s, events, k) && Run(cfg, x, s, events) == w';
  }

  lemma Lapse(cfg: Config, x: Session, s: R.Store, k: nat, w: World, v: nat, until: nat) returns (w': World)
    requires Reaches(cfg, x, s, k, w) && SessionLive(x, w.store, until) && CounterAt(x, w.store, v, w.store.now + cfg.counterTtl)
    requires v > 0 && w.store.now + cfg.counterTtl < until && Count(cfg, UnderWay, w.calls) == 0
    ensures Reaches(cfg, x, s, k, w') && SessionLive(x, w'.store, until) && CounterAt(x, w'.store, 0, 0)
    ensures w'.wrong == w.wrong && Count(cfg, UnderWay, w'.calls) == 0
  {
    w' := w.(store := R.Tick(w.store, cfg.counterTtl));
    ReachStep(cfg, x, s, k, w, Tick(cfg.counterTtl));
  }

  /** Fill the counter to one below the limit, let it lapse, open a new one, and compare `k` more. */
  lemma LapsedCounterForgets(cfg: Config, x: Session, s: R.Store, k: nat) returns (events: Trace<Event>)
    requires FreshToken(x, s) && cfg.maxAttempts >= 2 && 0 < cfg.counterTtl < x.ttl && k > 0
    ensures AtMost(cfg, x, s, events, k) && Run(cfg, x, s, events).wrong == cfg.maxAttempts + k
  {
    var until := s.now + x.ttl;
    var filled := GuessWrongTimes(cfg, x, s, k, cfg.maxAttempts - 1);
    var lapsed := Lapse(cfg, x, s, k, filled, cfg.maxAttempts - 1, until);
    var w := GuessOnceMore(cfg, x, s, k, lapsed, 0, 0, until);
    var w' := CompareTogether(cfg, x, s, k, w, until, k);
    events :| AtMost(cfg, x, s, events, k) && Run(cfg, x, s, events) == w';
  }

  lemma {:induction false} NoCallsNoGuesses(cfg: Config, x: Session, s: R.Store, events: Trace<Event>)
    requires AtMost(cfg, x, s, events, 0)
    ensures Run(cfg, x, s, events).wrong == 0 && Run(cfg, x, s, events).calls == []
  {
    if events.Then? {
      NoCallsNoGuesses(cfg, x, s, events.before);
    }
  }

  /** Every run with at most `k` calls under way keeps to the bound. */
  ghost predicate Bounded(cfg: Config, x: Session, s: R.Store, k: nat) {
    forall events | AtMost(cfg, x, s, events, k) :: Run(cfg, x, s, events).wrong <= cfg.maxAttempts - 1 + k
  }

  /** The bound holds in every run exactly when the session lives no longer than the counter, the limit is one, or nobody calls. */
  lemma BoundExactly(cfg: Config, x: Session, s: R.Store, k: nat)
    requires FreshToken(x, s) && cfg.maxAttempts >= 1 && cfg.counterTtl > 0
    ensures Bounded(cfg, x, s, k) <==> x.ttl <= cfg.counterTtl || cfg.maxAttempts == 1 || k == 0
  {
    if x.ttl <= cfg.counterTtl || cfg.maxAttempts == 1 {
      forall events | AtMost(cfg, x, s, events, k) ensures Run(cfg, x, s, events).wrong <= cfg.maxAttempts - 1 + k {
        WrongGuessBound(cfg, x, s, events, k);
      }
    } else if k == 0 {
      forall events | AtMost(cfg, x, s, events, 0) ensures Run(cfg, x, s, events).wrong <= cfg.maxAttempts - 1 {
        NoCallsNoGuesses(cfg, x, s, events);
      }
    } else {
      var events := LapsedCounterForgets(cfg, x, s, k);
    }
  }

  // ----- the configured times -----

  /** What the configuration holds for a key: nothing, the text of an environment variable, or a number. */
  datatype Setting = Unset | Environment(text: string) | Numeric(value: int)

  const MAX_ATTEMPTS: nat := 5
  const EMAIL_VERIFY_TTL: nat := 900
  const EMAIL_LOGIN_TTL: nat := 300
  const PHONE_TTL: nat := 180

  /** Only a positive number replaces the default. */
  function ConfigNumber(s: Setting, fallback: nat): nat {
    if s.Numeric? && s.value > 0 then s.value else fallback
  }

  datatype Settings = Settings(maxAttempts: Setting, emailVerify: Setting, emailLogin: Setting, phone: Setting)

  function SessionTtl(kind: Kind, c: Settings): nat {
    match kind
    case EmailVerify => ConfigNumber(c.emailVerify, EMAIL_VERIFY_TTL)
    case EmailLogin => ConfigNumber(c.emailLogin, EMAIL_LOGIN_TTL)
    case PhoneRegister => ConfigNumber(c.phone, PHONE_TTL)
    case PhoneLogin => ConfigNumber(c.phone, PHONE_TTL)
  }

  function Configured(c: Settings): Config {
    Config(ConfigNumber(c.maxAttempts, MAX_ATTEMPTS), ConfigNumber(c.emailVerify, EMAIL_VERIFY_TTL))
  }

  /** For an issued session the bound can only fail with a login or phone TTL configured as a number above the counter's. */
  lemma ConfiguredBound(kind: Kind, c: Settings, x: Session, s: R.Store, k: nat)
    requires FreshToken(x, s) && x.kind == kind && x.ttl == SessionTtl(kind, c)
    ensures Bounded(Configured(c), x, s, k) <==>
      || k == 0 || (c.maxAttempts.Numeric? && c.maxAttempts.value == 1)
      || match kind
         case EmailVerify => true
         case EmailLogin => SessionTtl(EmailLogin, c) <= SessionTtl(EmailVerify, c)
         case _ => SessionTtl(PhoneLogin, c) <= SessionTtl(EmailVerify, c)
  {
    BoundExactly(Configured(c), x, s, k);
  }

  /** Settings that come from the environment are text, so the defaults hold and so does the bound. */
  lemma EnvironmentKeepsTheBound(kind: Kind, c: Settings, x: Session, s: R.Store, events: Trace<Event>, k: nat)
    requires FreshToken(x, s) && x.kind == kind && x.ttl == SessionTtl(kind, c)
    requires !c.maxAttempts.Numeric? && !c.emailVerify.Numeric? && !c.emailLogin.Numeric? && !c.phone.Numeric?
    requires AtMost(Configured(c), x, s, events, k)
    ensures x.ttl == (match kind case EmailVerify => 900 case EmailLogin => 300 case PhoneRegister => 180 case PhoneLogin => 180)
    ensures Configured(c) == Config(5, 900) && Run(Configured(c), x, s, events).wrong <= 4 + k
  {
    WrongGuessBound(Configured(c), x, s, events, k);
  }

  // ----- the service methods -----

  function Rank(pc: Pc): nat {
    match pc
    case Reading => 5
    case Consuming => 1
    case Counting => 4
    case Bounding(_) => 3
    case Burning => 2
    case Clearing => 1
    case Finished(_) => 0
  }

  /** A call that nothing interrupts. */
  function RunCall(cfg: Config, token: string, s: R.Store, c: Call): (R.Store, Outcome)
    decreases Rank(c.pc)
  {
    if c.pc.Finished? then (s, c.pc.outcome)
    else var n := CallStep(cfg, token, s, c); RunCall(cfg, token, n.0, n.1)
  }

  lemma RunCallStep(cfg: Config, token: string, s: R.Store, c: Call)
    ensures RunCall(cfg, token, s, c)
         == if c.pc.Finished? then (s, c.pc.outcome) else RunCall(cfg, token, CallStep(cfg, token, s, c).0, CallStep(cfg, token, s, c).1)
  {
  }

  /** Without interruption a verify succeeds exactly on the live session of its kind with exactly its code; otherwise nothing is consumed unless the limit is reached. */
  lemma SucceedsExactly(cfg: Config, kind: Kind, token: string, submitted: string, s: R.Store)
    ensures var r := RunCall(cfg, token, s, Call(kind, submitted, Reading));
      && (r.1 == Success <==> R.Get(s, SessionKey(kind, token)) == Some(R.Payload(TypeName(kind), submitted)))
      && (r.1 == Success ==> r.0 == R.Del(s, SessionKey(kind, token)))
      && (r.1 == NoSession <==> R.Get(s, SessionKey(kind, token)).None?)
  {
    var key, c := SessionKey(kind, token), Call(kind, submitted, Reading);
    RunCallStep(cfg, token, s, c);
    var n := CallStep(cfg, token, s, c);
    if n.1.pc.Consuming? {
      RunCallStep(cfg, token, n.0, n.1);
    } else if n.1.pc.Counting? {
      CountingFails(cfg, token, n.0, n.1);
    }
  }

  /** A session just issued accepts its code for its whole time, from a call of its kind, and nothing else. */
  lemma IssuedSessionAccepts(cfg: Config, x: Session, s: R.Store, seconds: nat, submitted: string)
    ensures RunCall(cfg, x.token, R.Tick(Issued(x, s), seconds), Call(x.kind, submitted, Reading)).1 == Success
      <==> submitted == x.otp && seconds < x.ttl
  {
    SucceedsExactly(cfg, x.kind, x.token, submitted, R.Tick(Issued(x, s), seconds));
  }

  /** Once a guess has been found wrong the call fails. */
  lemma {:induction false} CountingFails(cfg: Config, token: string, s: R.Store, c: Call)
    requires c.pc.Counting? || c.pc.Bounding? || c.pc.Burning? || c.pc.Clearing? || c.pc == Finished(WrongCode)
             || c.pc == Finished(RedisError) || c.pc == Finished(TooManyAttempts)
    ensures RunCall(cfg, token, s, c).1 in [WrongCode, RedisError, TooManyAttempts]
    decreases Rank(c.pc)
  {
    if !c.pc.Finished? {
      var n := CallStep(cfg, token, s, c);
      CountingFails(cfg, token, n.0, n.1);
    }
  }

  class OtpVerifier {
    const redis: R.RedisService
    const cfg: Config

    constructor (redis: R.RedisService, cfg: Config)
      ensures this.redis == redis && this.cfg == cfg
    {
      this.redis, this.cfg := redis, cfg;
    }

    /** `None` when the codes match, otherwise the reason of the exception. */
    method AssertOtpMatch(kind: Kind, token: string, submitted: string, expected: string) returns (failure: Option<Outcome>)
      requires R.Countable(redis.State(), AttemptsKey(SessionKey(kind, token)))
      modifies redis`cells
      ensures failure.None? <==> submitted == expected
      ensures failure.None? ==> redis.State() == old(redis.State())
      ensures var key := SessionKey(kind, token); var n := R.NextCount(old(redis.State()), AttemptsKey(key));
        failure.Some? ==>
          if n >= cfg.maxAttempts then
            failure.value == TooManyAttempts && key !in redis.cells && AttemptsKey(key) !in redis.cells
          else
            failure.value == WrongCode && redis.cells - {AttemptsKey(key)} == old(redis.cells) - {AttemptsKey(key)}
            && AttemptsKey(key) in redis.cells && redis.cells[AttemptsKey(key)].value == R.Number(n)
            && (n == 1 ==> redis.cells[AttemptsKey(key)].expiry == Some(redis.now + cfg.counterTtl))
      ensures failure.Some? ==>
        (redis.State(), failure.value) == RunCall(cfg, token, old(redis.State()), Call(kind, submitted, Counting))
    {
      if submitted == expected {
        return None;
      }
      var sessionKey := SessionKey(kind, token);
      var attemptsKey := AttemptsKey(sessionKey);
      var attempts := redis.Increment(attemptsKey);
      ghost var next := if attempts == 1 then Bounding(attempts) else AfterCount(cfg, attempts);
      RunCallStep(cfg, token, old(redis.State()), Call(kind, submitted, Counting));
      RunCallStep(cfg, token, redis.State(), Call(kind, submitted, next));
      if attempts == 1 {
        redis.SetExpiry(attemptsKey, cfg.counterTtl);
      }
      RunCallStep(cfg, token, redis.State(), Call(kind, submitted, AfterCount(cfg, attempts)));
      if attempts >= cfg.maxAttempts {
        var _ := redis.Delete(sessionKey);
        RunCallStep(cfg, token, redis.State(), Call(kind, submitted, Clearing));
        var _ := redis.Delete(attemptsKey);
        return Some(TooManyAttempts);
      }
      return Some(WrongCode);
    }

    /** The common shape of the four verify flows, up to the consumption of the session. */
    method Verify(kind: Kind, token: string, otp: string) returns (outcome: Outcome)
      requires R.Countable(redis.State(), AttemptsKey(SessionKey(kind, token)))
      modifies redis`cells
      ensures (redis.State(), outcome) == RunCall(cfg, token, old(redis.State()), Call(kind, otp, Reading))
      ensures outcome == NoSession <==> R.Get(old(redis.State()), SessionKey(kind, token)).None?
      ensures outcome == Success <==> R.Get(old(redis.State()), SessionKey(kind, token)) == Some(R.Payload(TypeName(kind), otp))
    {
      SucceedsExactly(cfg, kind, token, otp, redis.State());
      var key := SessionKey(kind, token);
      var session := redis.GetValue(key);
      if session.None? {
        return NoSession;
      }
      if !session.value.Payload? || session.value.kind != TypeName(kind) {
        return WrongType;
      }
      RunCallStep(cfg, token, redis.State(), Call(kind, otp, Reading));
      var failure := AssertOtpMatch(kind, token, otp, session.value.otp);
      if failure.Some? {
        return failure.value;
      }
      var removed := redis.Delete(key);
      if removed == 0 {
        return AlreadyUsed;
      }
      return Success;
    }
  }
}
