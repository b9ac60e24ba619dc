/**
 The send-once claim of the SMS and mail workers: claim the dedup key with SET NX,
 send, and on failure delete the key, without comparing tokens.
 */
module SendClaims {
  import opened Wrappers
  import R = Redis

  const DEDUP_TTL_SECONDS: nat := 900

  datatype Worker =
    | Ready
    | Sending(token: nat, since: nat)
    | Failing(token: nat, since: nat)   // the send threw, the delete is still to come

  /** One send: when it was claimed, when it ended, and whether its claim was left in place. */
  datatype Send = Send(token: nat, claimed: nat, ended: nat, kept: bool)

  datatype World = World(store: R.Store, workers: seq<Worker>, log: seq<Send>)

  /** A worker that dies mid-send may have sent; its claim stays. */
  datatype Event = Deliver(worker: nat) | Succeed(worker: nat) | Throw(worker: nat) | Unclaim(worker: nat) | Die(worker: nat) | Tick(seconds: nat)

  function Step(key: string, w: World, e: Event): World {
    match e
    case Tick(seconds) => w.(store := R.Tick(w.store, seconds))
    case Deliver(i) =>
      if i < |w.workers| && w.workers[i].Ready? then
        w.(store := R.Acquire(w.store, key, DEDUP_TTL_SECONDS),
           workers := if R.Live(w.store, key) then w.workers else w.workers[i := Sending(w.store.issued, w.store.now)])
      else w
    case Succeed(i) => Finish(w, i, true, Ready)
    case Die(i) => Finish(w, i, true, Ready)
    case Throw(i) =>
      if i < |w.workers| && w.workers[i].Sending? then Finish(w, i, false, Failing(w.workers[i].token, w.workers[i].since)) else w
    case Unclaim(i) =>
      if i < |w.workers| && w.workers[i].Failing? then
        w.(store := R.Del(w.store, key), workers := w.workers[i := Ready])
      else w
  }

  function Finish(w: World, i: nat, kept: bool, next: Worker): World {
    if i < |w.workers| && w.workers[i].Sending? then
      w.(workers := w.workers[i := next],
         log := w.log + [Send(w.workers[i].token, w.workers[i].since, w.store.now, kept)])
    else w
  }

  function Run(key: string, s: R.Store, n: nat, events: Trace<Event>): World {
    match events
    case Start => World(s, seq(n, _ => Ready), [])
    case Then(before, e) => Step(key, Run(key, s, n, before), e)
  }

  /** No worker is `d` seconds past its claim without having settled it. */
  predicate Timely(w: World, d: nat) {
    forall i | 0 <= i < |w.workers| && !w.workers[i].Ready? :: w.store.now < w.workers[i].since + d
  }

  predicate AlwaysTimely(key: string, s: R.Store, n: nat, events: Trace<Event>, d: nat) {
    Timely(Run(key, s, n, events), d) && (events.Then? ==> AlwaysTimely(key, s, n, events.before, d))
  }

  ghost predicate HoldsKey(key: string, w: World, token: nat, since: nat) {
    key in w.store.cells && w.store.cells[key] == R.Cell(R.Token(token), Some(since + DEDUP_TTL_SECONDS))
  }

  ghost predicate Inv(key: string, w: World) {
    && R.FreshTokens(w.store)
    && (forall i | 0 <= i < |w.workers| && !w.workers[i].Ready? ::
          w.workers[i].token < w.store.issued && w.workers[i].since <= w.store.now
          && HoldsKey(key, w, w.workers[i].token, w.workers[i].since))
    && (forall i, j | 0 <= i < j < |w.workers| && !w.workers[i].Ready? && !w.workers[j].Ready? :: w.workers[i].token != w.workers[j].token)
  }

  ghost predicate Sequenced(key: string, w: World) {
    Dated(w) && KeptHolds(key, w) && Earlier(w) && InOrder(w)
  }

  ghost predicate Dated(w: World) {
    forall k | 0 <= k < |w.log| :: w.log[k].token < w.store.issued && w.log[k].claimed <= w.log[k].ended <= w.store.now
  }

  /** A kept claim holds the key to the end of its window. */
  ghost predicate KeptHolds(key: string, w: World) {
    forall k | 0 <= k < |w.log| && w.log[k].kept && w.store.now < w.log[k].claimed + DEDUP_TTL_SECONDS ::
      HoldsKey(key, w, w.log[k].token, w.log[k].claimed)
  }

  /** Every logged send came before the claim a worker holds now, unless it is that worker's own failed send. */
  ghost predicate Earlier(w: World) {
    forall k, i | 0 <= k < |w.log| && 0 <= i < |w.workers| && !w.workers[i].Ready? ::
      if w.log[k].token == w.workers[i].token then w.workers[i].Failing? && !w.log[k].kept
      else After(w.log[k], w.workers[i].since)
  }

  ghost predicate InOrder(w: World) {
    forall j, k | 0 <= j < k < |w.log| :: After(w.log[j], w.log[k].claimed)
  }

  /** `time` comes after the send, and after its window when the claim was kept. */
  predicate After(x: Send, time: nat) {
    x.ended <= time && (x.kept ==> x.claimed + DEDUP_TTL_SECONDS <= time)
  }

  lemma StepKeepsInv(key: string, w: World, e: Event)
    requires Inv(key, w) && Timely(w, DEDUP_TTL_SECONDS)
    ensures Inv(key, Step(key, w, e))
  {
  }

  lemma StepKeepsHolds(key: string, w: World, e: Event)
    requires Inv(key, w) && Timely(w, DEDUP_TTL_SECONDS) && Dated(w) && KeptHolds(key, w) && Earlier(w)
    ensures Dated(Step(key, w, e)) && KeptHolds(key, Step(key, w, e))
  {
  }

  lemma StepKeepsEarlier(key: string, w: World, e: Event)
    requires Inv(key, w) && Timely(w, DEDUP_TTL_SECONDS) && Dated(w) && KeptHolds(key, w) && Earlier(w)
    ensures Earlier(Step(key, w, e))
  {
  }

  lemma StepKeepsOrder(key: string, w: World, e: Event)
    requires Inv(key, w) && Earlier(w) && InOrder(w)
    ensures InOrder(Step(key, w, e))
  {
  }

  lemma StepKeepsSequence(key: string, w: World, e: Event)
    requires Inv(key, w) && Timely(w, DEDUP_TTL_SECONDS) && Sequenced(key, w)
    ensures Sequenced(key, Step(key, w, e))
  {
    StepKeepsHolds(key, w, e);
    StepKeepsEarlier(key, w, e);
    StepKeepsOrder(key, w, e);
  }

  lemma {:induction false} EveryRun(key: string, s: R.Store, n: nat, events: Trace<Event>)
    requires R.FreshTokens(s) && AlwaysTimely(key, s, n, events, DEDUP_TTL_SECONDS)
    ensures Inv(key, Run(key, s, n, events)) && Sequenced(key, Run(key, s, n, events))
  {
    if events.Then? {
      EveryRun(key, s, n, events.before);
      StepKeepsInv(key, Run(key, s, n, events.before), events.event);
      StepKeepsSequence(key, Run(key, s, n, events.before), events.event);
    }
  }

  /** When every claim settles in time: one send at a time, and after a kept claim none until 900 s past it. */
  lemma SendsAreExclusive(key: string, s: R.Store, n: nat, events: Trace<Event>)
    requires R.FreshTokens(s) && AlwaysTimely(key, s, n, events, DEDUP_TTL_SECONDS)
    ensures var w := Run(key, s, n, events);
      && (forall i, j | 0 <= i < j < |w.workers| :: w.workers[i].Ready? || w.workers[j].Ready?)
      && (forall j, k | 0 <= j < k < |w.log| ::
            w.log[j].ended <= w.log[k].claimed && (w.log[j].kept ==> w.log[j].claimed + 900 <= w.log[k].claimed))
      && (forall k, i | 0 <= k < |w.log| && 0 <= i < |w.workers| && w.workers[i].Sending? ::
            w.log[k].ended <= w.workers[i].since && (w.log[k].kept ==> w.log[k].claimed + 900 <= w.workers[i].since))
  {
    EveryRun(key, s, n, events);
    var w := Run(key, s, n, events);
    forall i, j | 0 <= i < j < |w.workers| ensures w.workers[i].Ready? || w.workers[j].Ready? {
      assert !w.workers[i].Ready? ==> HoldsKey(key, w, w.workers[i].token, w.workers[i].since);
      assert !w.workers[j].Ready? ==> HoldsKey(key, w, w.workers[j].token, w.workers[j].since);
    }
  }

  // ----- exactly 900 s are needed -----

  predicate OneAtATime(w: World) {
    forall i, j | 0 <= i < j < |w.workers| :: w.workers[i].Ready? || w.workers[j].Ready?
  }

  /** Claims that settle within `d` seconds are never held by two workers at once, for any number of workers. */
  ghost predicate Exclusive(key: string, s: R.Store, d: nat) {
    forall n: nat, events | AlwaysTimely(key, s, n, events, d) :: OneAtATime(Run(key, s, n, events))
  }

  /** The key is stored without expiry, so no claim ever succeeds. */
  predicate HeldForever(key: string, s: R.Store) {
    key in s.cells && s.cells[key].expiry.None?
  }

  lemma {:induction false} HeldForeverNeverSends(key: string, s: R.Store, n: nat, events: Trace<Event>)
    requires HeldForever(key, s)
    ensures var w := Run(key, s, n, events);
      HeldForever(key, w.store) && forall i | 0 <= i < |w.workers| :: w.workers[i].Ready?
  {
    if events.Then? {
      HeldForeverNeverSends(key, s, n, events.before);
    }
  }

  lemma {:induction false} TimelySooner(key: string, s: R.Store, n: nat, events: Trace<Event>, d: nat)
    requires AlwaysTimely(key, s, n, events, d) && d <= DEDUP_TTL_SECONDS
    ensures AlwaysTimely(key, s, n, events, DEDUP_TTL_SECONDS)
  {
    if events.Then? {
      TimelySooner(key, s, n, events.before, d);
    }
  }

  /** A claim lapses under a slow send and a second worker claims the key. */
  function Lapse(wait: nat): Trace<Event> {
    Then(Then(Then(Then(Start, Tick(wait)), Deliver(0)), Tick(DEDUP_TTL_SECONDS)), Deliver(1))
  }

  lemma SlowSendIsJoined(key: string, s: R.Store, wait: nat, d: nat, n: nat)
    requires !R.Live(R.Tick(s, wait), key) && d > DEDUP_TTL_SECONDS && n >= 2
    ensures var w := Run(key, s, n, Lapse(wait));
      && AlwaysTimely(key, s, n, Lapse(wait), d) && |w.workers| == n
      && w.workers[0] == Sending(s.issued, s.now + wait)
      && w.workers[1] == Sending(s.issued + 1, s.now + wait + DEDUP_TTL_SECONDS)
      && (forall i | 2 <= i < n :: w.workers[i].Ready?)
      && w.store.now == s.now + wait + DEDUP_TTL_SECONDS
  {
    var e1 := Then(Start, Tick(wait));
    var e2 := Then(e1, Deliver(0));
    var e3 := Then(e2, Tick(DEDUP_TTL_SECONDS));
    var ready := Run(key, s, n, Start).workers;
    var w1 := World(R.Tick(s, wait), ready, []);
    assert Run(key, s, n, e1) == Step(key, Run(key, s, n, Start), Tick(wait)) == w1;
    var w2 := Step(key, w1, Deliver(0));
    assert w1.workers[0] == Ready && Run(key, s, n, e2) == w2;
    assert w2.workers == ready[0 := Sending(s.issued, s.now + wait)];
    var w3 := Step(key, w2, Tick(DEDUP_TTL_SECONDS));
    assert Run(key, s, n, e3) == w3 && w3.workers == w2.workers && !R.Live(w3.store, key) && w3.workers[1].Ready?;
    var w4 := Step(key, w3, Deliver(1));
    assert Run(key, s, n, Lapse(wait)) == w4;
    assert Timely(w1, d) && Timely(w2, d) && Timely(w3, d) && Timely(w4, d);
    assert AlwaysTimely(key, s, n, e1, d);
    assert AlwaysTimely(key, s, n, e2, d);
    assert AlwaysTimely(key, s, n, e3, d);
  }

  /** From any store, claims that settle within `d` seconds exclude each other exactly when `d` is at most 900. */
  lemma ExclusiveExactly(key: string, s: R.Store, d: nat)
    requires R.FreshTokens(s)
    ensures Exclusive(key, s, d) <==> d <= 900 || HeldForever(key, s)
  {
    if d <= DEDUP_TTL_SECONDS {
      forall n: nat, events | AlwaysTimely(key, s, n, events, d) ensures OneAtATime(Run(key, s, n, events)) {
        TimelySooner(key, s, n, events, d);
        SendsAreExclusive(key, s, n, events);
      }
    } else if HeldForever(key, s) {
      forall n: nat, events ensures OneAtATime(Run(key, s, n, events)) {
        HeldForeverNeverSends(key, s, n, events);
      }
    } else {
      var wait := if key in s.cells then s.cells[key].expiry.value else 0;
      SlowSendIsJoined(key, s, wait, d, 2);
      assert AlwaysTimely(key, s, 2, Lapse(wait), d);
    }
  }

  /** The slow send then fails: its unfenced delete frees a claim made this very second, and a third worker sends too. */
  lemma SlowFailureFreesAnotherClaim(key: string, s: R.Store, wait: nat, d: nat)
    requires !R.Live(R.Tick(s, wait), key) && d > DEDUP_TTL_SECONDS
    ensures var events := Then(Then(Then(Lapse(wait), Throw(0)), Unclaim(0)), Deliver(2)); var w := Run(key, s, 3, events);
      && AlwaysTimely(key, s, 3, events, d) && |w.workers| == 3
      && w.workers[1].Sending? && w.workers[2].Sending? && w.workers[1].since == w.workers[2].since == w.store.now
  {
    SlowSendIsJoined(key, s, wait, d, 3);
    var e1 := Then(Lapse(wait), Throw(0));
    var e2 := Then(e1, Unclaim(0));
    assert AlwaysTimely(key, s, 3, e1, d) && AlwaysTimely(key, s, 3, e2, d);
    assert !R.Live(Run(key, s, 3, e2).store, key);
  }

  // ----- the processors -----

  function SmsKey(to: string, otp: string): string {
    "sms:sent:" + to + ":" + otp
  }

  function MailKey(template: string, to: string, code: string): string {
    "mail:sent:" + template + ":" + to + ":" + code
  }

  /** A part that can stand before a colon. */
  predicate NoColon(s: string) {
    ':' !in s
  }

  lemma {:induction false} ColonCuts(a: string, b: string, x: string, y: string)
    requires NoColon(a) && NoColon(b)
    ensures a + ":" + x == b + ":" + y <==> a == b && x == y
  {
    var s, t := a + ":" + x, b + ":" + y;
    if a == "" || b == "" {
      assert a == "" ==> s[0] == ':' && s[1..] == x;
      assert b == "" ==> t[0] == ':' && t[1..] == y;
      assert a != "" ==> s[0] == a[0] && a[0] in a;
      assert b != "" ==> t[0] == b[0] && b[0] in b;
    } else {
      ColonCuts(a[1..], b[1..], x, y);
      assert s == [a[0]] + (a[1..] + ":" + x) && t == [b[0]] + (b[1..] + ":" + y);
      assert s[1..] == a[1..] + ":" + x && t[1..] == b[1..] + ":" + y && s[0] == a[0] && t[0] == b[0];
      assert a == [a[0]] + a[1..] && b == [b[0]] + b[1..];
    }
  }

  /** Two messages share a claim exactly when they are the same: another code to the same number is another key. */
  lemma SmsKeysApart(to: string, otp: string, to': string, otp': string)
    requires NoColon(to) && NoColon(to')
    ensures SmsKey(to, otp) == SmsKey(to', otp') <==> to == to' && otp == otp'
  {
    ColonCuts(to, to', otp, otp');
    var n := |"sms:sent:"|;
    assert SmsKey(to, otp)[n..] == to + ":" + otp && SmsKey(to', otp')[n..] == to' + ":" + otp';
  }

  lemma MailKeysApart(template: string, to: string, code: string, template': string, to': string, code': string)
    requires NoColon(template) && NoColon(template') && NoColon(to) && NoColon(to')
    ensures MailKey(template, to, code) == MailKey(template', to', code') <==> template == template' && to == to' && code == code'
  {
    ColonCuts(template, template', to + ":" + code, to' + ":" + code');
    ColonCuts(to, to', code, code');
    var n := |"mail:sent:"|;
    assert MailKey(template, to, code)[n..] == template + ":" + (to + ":" + code);
    assert MailKey(template', to', code')[n..] == template' + ":" + (to' + ":" + code');
  }

  lemma SmsIsNotMail(to: string, otp: string, template: string, to': string, code: string)
    ensures SmsKey(to, otp) != MailKey(template, to', code)
  {
    assert SmsKey(to, otp)[0] == 's' && MailKey(template, to', code)[0] == 'm';
  }

  /** Nothing that happens to one message's claim touches another's. */
  lemma OtherClaimsUntouched(key: string, other: string, w: World, e: Event)
    requires other != key && !e.Tick?
    ensures var s := Step(key, w, e).store;
      s.now == w.store.now && (other in s.cells <==> other in w.store.cells) && (other in s.cells ==> s.cells[other] == w.store.cells[other])
  {
  }

  datatype Message = Sms(to: string, otp: string) | Mail(template: string, to: string, code: string)

  datatype Outcome = Skipped | Delivered | Rethrown

  class SendProcessor {
    const redis: R.RedisService
    /** What was handed to the gateway, in order. */
    var sent: seq<Message>

    constructor (redis: R.RedisService)
      ensures this.redis == redis && sent == []
    {
      this.redis, sent := redis, [];
    }

    /** The two `process` methods after the key is built; `accepts` is the gateway's answer. */
    method ClaimAndSend(key: string, message: Message, accepts: bool) returns (outcome: Outcome)
      modifies this`sent, redis`cells, redis`issued
      ensures outcome.Skipped? <==> R.Live(old(redis.State()), key)
      ensures !outcome.Skipped? ==> (outcome.Delivered? <==> accepts)
      ensures sent == if outcome.Delivered? then old(sent) + [message] else old(sent)
      ensures var w := World(old(redis.State()), [Ready], []);
        redis.State() == if outcome.Rethrown?
          then Step(key, Step(key, Step(key, w, Deliver(0)), Throw(0)), Unclaim(0)).store
          else Step(key, Step(key, w, Deliver(0)), Succeed(0)).store
    {
      var claimed := redis.AcquireLock(key, DEDUP_TTL_SECONDS);
      if claimed.None? {
        return Skipped;
      }
      if !accepts {
        var _ := redis.Delete(key);
        return Rethrown;
      }
      sent := sent + [message];
      return Delivered;
    }

    method ProcessSms(to: string, otp: string, accepts: bool) returns (outcome: Outcome)
      modifies this`sent, redis`cells, redis`issued
      ensures outcome == if R.Live(old(redis.State()), SmsKey(to, otp)) then Skipped else if accepts then Delivered else Rethrown
      ensures sent == if outcome.Delivered? then old(sent) + [Sms(to, otp)] else old(sent)
      ensures outcome.Delivered? ==> R.LiveUntil(redis.State(), SmsKey(to, otp), redis.now + 900)
      ensures outcome.Rethrown? ==> !R.Live(redis.State(), SmsKey(to, otp))
      ensures redis.now == old(redis.now) && redis.cells - {SmsKey(to, otp)} == old(redis.cells) - {SmsKey(to, otp)}
    {
      outcome := ClaimAndSend(SmsKey(to, otp), Sms(to, otp), accepts);
    }

    method ProcessMail(template: string, to: string, code: string, accepts: bool) returns (outcome: Outcome)
      modifies this`sent, redis`cells, redis`issued
      ensures outcome == if R.Live(old(redis.State()), MailKey(template, to, code)) then Skipped else if accepts then Delivered else Rethrown
      ensures sent == if outcome.Delivered? then old(sent) + [Mail(template, to, code)] else old(sent)
      ensures outcome.Delivered? ==> R.LiveUntil(redis.State(), MailKey(template, to, code), redis.now + 900)
      ensures outcome.Rethrown? ==> !R.Live(redis.State(), MailKey(template, to, code))
      ensures redis.now == old(redis.now) && redis.cells - {MailKey(template, to, code)} == old(redis.cells) - {MailKey(template, to, code)}
    {
      outcome := ClaimAndSend(MailKey(template, to, code), Mail(template, to, code), accepts);
    }

    /** A second code to the same number goes out, whatever became of the first. */
    method TwoCodes(to: string, otp: string, other: string) returns (first: Outcome, second: Outcome)
      requires NoColon(to) && otp != other && !R.Live(redis.State(), SmsKey(to, other))
      modifies this`sent, redis`cells, redis`issued
      ensures second == Delivered && sent == old(sent) + (if first == Delivered then [Sms(to, otp)] else []) + [Sms(to, other)]
    {
      SmsKeysApart(to, otp, to, other);
      assert SmsKey(to, other) in redis.cells <==> SmsKey(to, other) in redis.cells - {SmsKey(to, otp)};
      ghost var before := redis.cells - {SmsKey(to, otp)};
      first := ProcessSms(to, otp, true);
      assert redis.cells - {SmsKey(to, otp)} == before;
      assert SmsKey(to, other) in redis.cells <==> SmsKey(to, other) in before;
      assert SmsKey(to, other) in redis.cells ==> redis.cells[SmsKey(to, other)] == before[SmsKey(to, other)];
      second := ProcessSms(to, other, true);
    }
  }
}
