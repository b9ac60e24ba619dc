/**
 The broadcast worker over the real table: the atomic steps of one chunk attempt
 with its row ids, and the processor's methods, each proved to be a run of those steps.
 */
module BroadcastWorker {
  import opened Wrappers
  import opened Inbox
  import P = ChunkProtocol

  datatype LocalizedText = LocalizedText(text: string, byLocale: map<string, string>)

  datatype Recipient = Recipient(userId: UserId, locale: string, pushExternalId: Option<string>)

  datatype Job = Job(broadcastId: string, recipients: seq<Recipient>, title: LocalizedText, body: LocalizedText, attempts: nat)

  datatype Pc =
    | Idle
    | Filtered(toInsert: seq<NewRow>)
    | Stored
    | Listed(pending: map<nat, UserId>)
    | Unpushed(pending: map<nat, UserId>)
    | Pushed(pending: map<nat, UserId>)
    | SentMarked(pending: map<nat, UserId>)
    | Returning(pushed: bool)
    | Done(pushed: bool)
    | Exhausted
    | Closed(marked: bool)

  datatype Chunk = Chunk(pc: Pc, made: nat, pushes: multiset<UserId>, lost: nat)

  function ResolveLocalizedText(text: LocalizedText, locale: string): string {
    if locale in text.byLocale then text.byLocale[locale] else text.text
  }

  /** An empty alias is falsy, like null. */
  predicate HasAlias(r: Recipient) {
    r.pushExternalId.Some? && r.pushExternalId.value != ""
  }

  function Users(job: Job): set<UserId> {
    set r | r in job.recipients :: r.userId
  }

  function Aliased(job: Job): set<UserId> {
    set r | r in job.recipients && HasAlias(r) :: r.userId
  }

  function RowFor(job: Job, r: Recipient): NewRow {
    NewRow(r.userId, Content(ResolveLocalizedText(job.title, r.locale), ResolveLocalizedText(job.body, r.locale)),
           Some(job.broadcastId), Pending)
  }

  function MissingRows(job: Job, recipients: seq<Recipient>, existing: set<UserId>): seq<NewRow> {
    if recipients == [] then []
    else
      (if recipients[0].userId in existing then [] else [RowFor(job, recipients[0])])
      + MissingRows(job, recipients[1..], existing)
  }

  function Targets(job: Job, pending: map<nat, UserId>): set<nat> {
    set id | id in pending && pending[id] in Aliased(job)
  }

  function UsersOf(pending: map<nat, UserId>, ids: set<nat>): set<UserId> {
    set id | id in pending && id in ids :: pending[id]
  }

  function Fail(job: Job, ch: Chunk): Chunk {
    ch.(made := ch.made + 1,
        pc := if ch.made + 1 >= job.attempts then Exhausted else Idle,
        lost := if ch.pc.Pushed? then ch.lost + 1 else ch.lost)
  }

  /** One atomic step. `Stop` is a fault at the await the chunk stands at. */
  function Step(job: Job, t: Table, ch: Chunk, a: P.Action): (Table, Chunk) {
    match a
    case Stop => (
      match ch.pc
      case Done(_) => (t, ch)
      case Closed(_) => (t, ch)
      case Exhausted => (t, ch.(pc := Closed(false)))
      case _ => (t, Fail(job, ch))
    )
    case Go(answer) => (
      match ch.pc
      case Idle => (t, ch.(pc := Filtered(MissingRows(job, job.recipients, Existing(t, job.broadcastId, Users(job))))))
      case Filtered(toInsert) =>
        if Conflicts(t, toInsert) then (t, Fail(job, ch)) else (Inserted(t, toInsert), ch.(pc := Stored))
      case Stored => (t, ch.(pc := Listed(PendingRows(t, job.broadcastId, Users(job)))))
      case Listed(pending) => (
        if Targets(job, pending) == {} then
          (MarkedByIds(t, pending.Keys, Skipped), ch.(pc := Returning(false)))
        else match answer
          case Delivered =>
            (t, ch.(pc := Pushed(pending), pushes := ch.pushes + multiset(UsersOf(pending, Targets(job, pending)))))
          case ProviderSkipped => (t, ch.(pc := Unpushed(pending)))
          case NotDelivered => (t, Fail(job, ch))
      )
      case Unpushed(pending) => (MarkedByIds(t, pending.Keys, Skipped), ch.(pc := Returning(false)))
      case Pushed(pending) => (MarkedByIds(t, Targets(job, pending), Sent), ch.(pc := SentMarked(pending)))
      case SentMarked(pending) =>
        (MarkedByIds(t, pending.Keys - Targets(job, pending), Skipped), ch.(pc := Returning(true)))
      case Returning(pushed) => (t, ch.(pc := Done(pushed)))
      case Exhausted => (PendingFailed(t, job.broadcastId, Users(job)), ch.(pc := Closed(true)))
      case Done(_) => (t, ch)
      case Closed(_) => (t, ch)
    )
  }

  function Run(job: Job, t: Table, ch: Chunk, actions: Trace<P.Action>): (Table, Chunk) {
    match actions
    case Start => (t, ch)
    case Then(before, a) => var s := Run(job, t, ch, before); Step(job, s.0, s.1, a)
  }

  datatype Outcome = Returned(pushed: bool) | Threw

  /** Between attempts, or done. */
  predicate AtRest(n: nat, ch: Chunk) {
    n > 0 && (ch.pc.Idle? || ch.pc.Exhausted? || ch.pc.Done?)
  }

  /** The rest of an attempt after `n` awaits: on to its end, or to the await that faults. */
  function Drive(job: Job, t: Table, ch: Chunk, past: Trace<P.Action>, n: nat, faultAt: nat, answer: P.Answer): Trace<P.Action>
    decreases 8 - n
  {
    if n >= 8 || AtRest(n, Run(job, t, ch, past).1) then past
    else Drive(job, t, ch, Then(past, if n == faultAt then P.Stop else P.Go(answer)), n + 1, faultAt, answer)
  }

  /** One whole attempt. */
  function Attempt(job: Job, t: Table, ch: Chunk, faultAt: nat, answer: P.Answer): Trace<P.Action> {
    Drive(job, t, ch, Start, 0, faultAt, answer)
  }

  /** `past` is how the attempt begins, and `n` awaits of it are over. */
  ghost predicate OnTheWay(job: Job, t: Table, ch: Chunk, past: Trace<P.Action>, n: nat, faultAt: nat, answer: P.Answer, now: (Table, Chunk)) {
    && Attempt(job, t, ch, faultAt, answer) == Drive(job, t, ch, past, n, faultAt, answer)
    && Run(job, t, ch, past) == now
  }

  lemma GoOn(job: Job, t: Table, ch: Chunk, past: Trace<P.Action>, n: nat, faultAt: nat, answer: P.Answer, now: (Table, Chunk), next: (Table, Chunk))
    requires OnTheWay(job, t, ch, past, n, faultAt, answer, now) && n < 8 && n != faultAt && !AtRest(n, now.1)
    requires Step(job, now.0, now.1, P.Go(answer)) == next
    ensures OnTheWay(job, t, ch, Then(past, P.Go(answer)), n + 1, faultAt, answer, next)
  {
  }

  lemma StopHere(job: Job, t: Table, ch: Chunk, past: Trace<P.Action>, n: nat, faultAt: nat, answer: P.Answer, now: (Table, Chunk))
    requires OnTheWay(job, t, ch, past, n, faultAt, answer, now) && n < 8 && n == faultAt && !AtRest(n, now.1)
    requires !now.1.pc.Exhausted? && !now.1.pc.Closed? && !now.1.pc.Done?
    ensures Attempt(job, t, ch, faultAt, answer) == Then(past, P.Stop)
    ensures Run(job, t, ch, Then(past, P.Stop)) == (now.0, Fail(job, now.1))
  {
    var stopped := Then(past, P.Stop);
    assert Run(job, t, ch, stopped) == (now.0, Fail(job, now.1)) && AtRest(n + 1, Fail(job, now.1));
    assert Drive(job, t, ch, stopped, n + 1, faultAt, answer) == stopped;
  }

  lemma Finish(job: Job, t: Table, ch: Chunk, past: Trace<P.Action>, n: nat, faultAt: nat, answer: P.Answer, now: (Table, Chunk))
    requires OnTheWay(job, t, ch, past, n, faultAt, answer, now) && AtRest(n, now.1)
    ensures Attempt(job, t, ch, faultAt, answer) == past && Run(job, t, ch, past) == now
  {
  }

  class NotificationBroadcastProcessor {
    const repo: NotificationRepository

    constructor (repo: NotificationRepository)
      ensures this.repo == repo
    {
      this.repo := repo;
    }

    /** One attempt. `faultAt` is the await that throws before committing; past the last one there is no fault. */
    method Process(job: Job, ghost ch: Chunk, faultAt: nat, answer: P.Answer)
      returns (outcome: Outcome, ghost after: Chunk)
      requires Valid(repo.Contents()) && ch.pc == Idle
      modifies repo
      ensures Valid(repo.Contents())
      ensures Run(job, old(repo.Contents()), ch, Attempt(job, old(repo.Contents()), ch, faultAt, answer)) == (repo.Contents(), after)
      ensures outcome.Returned? ==> after.pc == Done(outcome.pushed) && after.made == ch.made
      ensures outcome.Threw? ==> after.made == ch.made + 1 && (after.pc.Idle? || after.pc.Exhausted?)
    {
      ghost var t0 := repo.Contents();
      var pending;
      ghost var trace;
      pending, trace, after := PersistInbox(job, ch, faultAt, answer);
      if pending.None? {
        outcome := Threw;
      } else {
        outcome, after := PushPending(job, t0, ch, trace, after, pending.value, faultAt, answer);
      }
    }

    /** Phase A and the reading of the rows still PENDING. */
    method PersistInbox(job: Job, ghost ch: Chunk, faultAt: nat, answer: P.Answer)
      returns (pending: Option<map<nat, UserId>>, ghost trace: Trace<P.Action>, ghost after: Chunk)
      requires Valid(repo.Contents()) && ch.pc == Idle
      modifies repo
      ensures Valid(repo.Contents())
      ensures pending.Some? ==> after == ch.(pc := Listed(pending.value))
      ensures pending.Some? ==> OnTheWay(job, old(repo.Contents()), ch, trace, 3, faultAt, answer, (repo.Contents(), after))
      ensures pending.None? ==> after == Fail(job, ch) && trace == Attempt(job, old(repo.Contents()), ch, faultAt, answer)
      ensures pending.None? ==> Run(job, old(repo.Contents()), ch, trace) == (repo.Contents(), after)
    {
      ghost var go, t := P.Go(answer), repo.Contents();
      trace, after := Start, Fail(job, ch);
      if faultAt == 0 {
        StopHere(job, t, ch, trace, 0, faultAt, answer, (t, ch));
        return None, Then(trace, P.Stop), after;
      }
      var existing := repo.FindExistingByBroadcast(job.broadcastId, Users(job));
      var toInsert := MissingRows(job, job.recipients, existing);
      ghost var filtered := ch.(pc := Filtered(toInsert));
      GoOn(job, t, ch, trace, 0, faultAt, answer, (t, ch), (t, filtered));
      trace := Then(trace, go);
      if faultAt == 1 {
        StopHere(job, t, ch, trace, 1, faultAt, answer, (t, filtered));
        return None, Then(trace, P.Stop), after;
      }
      var inserted := repo.BulkInsert(toInsert);
      if inserted.Err? {
        GoOn(job, t, ch, trace, 1, faultAt, answer, (t, filtered), (t, Fail(job, filtered)));
        Finish(job, t, ch, Then(trace, go), 2, faultAt, answer, (t, Fail(job, filtered)));
        return None, Then(trace, go), after;
      }
      ghost var t1, stored := repo.Contents(), ch.(pc := Stored);
      GoOn(job, t, ch, trace, 1, faultAt, answer, (t, filtered), (t1, stored));
      trace := Then(trace, go);
      if faultAt == 2 {
        StopHere(job, t, ch, trace, 2, faultAt, answer, (t1, stored));
        return None, Then(trace, P.Stop), after;
      }
      var found := repo.FindPendingByBroadcast(job.broadcastId, Users(job));
      after := ch.(pc := Listed(found));
      GoOn(job, t, ch, trace, 2, faultAt, answer, (t1, stored), (t1, after));
      return Some(found), Then(trace, go), after;
    }

    /** Phase B: push to the pending targets; without any, or when the provider skips, mark SKIPPED. */
    method PushPending(job: Job, ghost t0: Table, ghost ch0: Chunk, ghost past: Trace<P.Action>, ghost ch: Chunk,
                       pending: map<nat, UserId>, faultAt: nat, answer: P.Answer)
      returns (outcome: Outcome, ghost after: Chunk)
      requires Valid(repo.Contents()) && ch.pc == Listed(pending)
      requires OnTheWay(job, t0, ch0, past, 3, faultAt, answer, (repo.Contents(), ch))
      modifies repo`rows
      ensures Valid(repo.Contents())
      ensures Run(job, t0, ch0, Attempt(job, t0, ch0, faultAt, answer)) == (repo.Contents(), after)
      ensures outcome.Returned? ==> after.pc == Done(outcome.pushed) && after.made == ch.made
      ensures outcome.Threw? ==> after.made == ch.made + 1 && (after.pc.Idle? || after.pc.Exhausted?)
    {
      ghost var go, t := P.Go(answer), repo.Contents();
      if faultAt == 3 {
        StopHere(job, t0, ch0, past, 3, faultAt, answer, (t, ch));
        return Threw, Fail(job, ch);
      }
      var targets := Targets(job, pending);
      if targets == {} {
        outcome, after := SkipAll(job, t0, ch0, past, ch, pending, 3, faultAt, answer);
        return;
      }
      if answer.NotDelivered? {
        GoOn(job, t0, ch0, past, 3, faultAt, answer, (t, ch), (t, Fail(job, ch)));
        Finish(job, t0, ch0, Then(past, go), 4, faultAt, answer, (t, Fail(job, ch)));
        return Threw, Fail(job, ch);
      }
      if answer.Delivered? {
        after := ch.(pc := Pushed(pending), pushes := ch.pushes + multiset(UsersOf(pending, targets)));
        GoOn(job, t0, ch0, past, 3, faultAt, answer, (t, ch), (t, after));
        outcome, after := MarkPushed(job, t0, ch0, Then(past, go), after, pending, faultAt, answer);
        return;
      }
      after := ch.(pc := Unpushed(pending));
      GoOn(job, t0, ch0, past, 3, faultAt, answer, (t, ch), (t, after));
      if faultAt == 4 {
        StopHere(job, t0, ch0, Then(past, go), 4, faultAt, answer, (t, after));
        return Threw, Fail(job, after);
      }
      outcome, after := SkipAll(job, t0, ch0, Then(past, go), after, pending, 4, faultAt, answer);
    }

    /** Everything pending becomes SKIPPED, and the attempt returns. */
    method SkipAll(job: Job, ghost t0: Table, ghost ch0: Chunk, ghost past: Trace<P.Action>, ghost ch: Chunk,
                   pending: map<nat, UserId>, n: nat, faultAt: nat, answer: P.Answer)
      returns (outcome: Outcome, ghost after: Chunk)
      requires Valid(repo.Contents()) && n < 6 && n != faultAt
      requires ch.pc == Unpushed(pending) || (ch.pc == Listed(pending) && Targets(job, pending) == {})
      requires OnTheWay(job, t0, ch0, past, n, faultAt, answer, (repo.Contents(), ch))
      modifies repo`rows
      ensures Valid(repo.Contents())
      ensures Run(job, t0, ch0, Attempt(job, t0, ch0, faultAt, answer)) == (repo.Contents(), after)
      ensures outcome.Returned? ==> after.pc == Done(outcome.pushed) && after.made == ch.made
      ensures outcome.Threw? ==> after.made == ch.made + 1 && (after.pc.Idle? || after.pc.Exhausted?)
    {
      ghost var go, t := P.Go(answer), repo.Contents();
      repo.MarkPushStatusByIds(pending.Keys, Skipped);
      ghost var t1 := repo.Contents();
      after := ch.(pc := Returning(false));
      GoOn(job, t0, ch0, past, n, faultAt, answer, (t, ch), (t1, after));
      ghost var trace := Then(past, go);
      if faultAt == n + 1 {
        StopHere(job, t0, ch0, trace, n + 1, faultAt, answer, (t1, after));
        return Threw, Fail(job, after);
      }
      GoOn(job, t0, ch0, trace, n + 1, faultAt, answer, (t1, after), (t1, after.(pc := Done(false))));
      Finish(job, t0, ch0, Then(trace, go), n + 2, faultAt, answer, (t1, after.(pc := Done(false))));
      return Returned(false), after.(pc := Done(false));
    }

    /** The provider delivered: the targets become SENT, then the pending rows without an alias SKIPPED. */
    method MarkPushed(job: Job, ghost t0: Table, ghost ch0: Chunk, ghost past: Trace<P.Action>, ghost ch: Chunk,
                      pending: map<nat, UserId>, faultAt: nat, answer: P.Answer)
      returns (outcome: Outcome, ghost after: Chunk)
      requires Valid(repo.Contents()) && ch.pc == Pushed(pending)
      requires OnTheWay(job, t0, ch0, past, 4, faultAt, answer, (repo.Contents(), ch))
      modifies repo`rows
      ensures Valid(repo.Contents())
      ensures Run(job, t0, ch0, Attempt(job, t0, ch0, faultAt, answer)) == (repo.Contents(), after)
      ensures outcome.Returned? ==> after.pc == Done(outcome.pushed) && after.made == ch.made
      ensures outcome.Threw? ==> after.made == ch.made + 1 && (after.pc.Idle? || after.pc.Exhausted?)
    {
      ghost var go, t := P.Go(answer), repo.Contents();
      if faultAt == 4 {
        StopHere(job, t0, ch0, past, 4, faultAt, answer, (t, ch));
        return Threw, Fail(job, ch);
      }
      var sentIds := Targets(job, pending);
      repo.MarkPushStatusByIds(sentIds, Sent);
      ghost var t1 := repo.Contents();
      after := ch.(pc := SentMarked(pending));
      GoOn(job, t0, ch0, past, 4, faultAt, answer, (t, ch), (t1, after));
      ghost var trace := Then(past, go);
      if faultAt == 5 {
        StopHere(job, t0, ch0, trace, 5, faultAt, answer, (t1, after));
        return Threw, Fail(job, after);
      }
      outcome, after := SkipRest(job, t0, ch0, trace, after, pending, faultAt, answer);
    }

    /** The second mark, and the return. */
    method SkipRest(job: Job, ghost t0: Table, ghost ch0: Chunk, ghost past: Trace<P.Action>, ghost ch: Chunk,
                    pending: map<nat, UserId>, faultAt: nat, answer: P.Answer)
      returns (outcome: Outcome, ghost after: Chunk)
      requires Valid(repo.Contents()) && ch.pc == SentMarked(pending) && faultAt != 5
      requires OnTheWay(job, t0, ch0, past, 5, faultAt, answer, (repo.Contents(), ch))
      modifies repo`rows
      ensures Valid(repo.Contents())
      ensures Run(job, t0, ch0, Attempt(job, t0, ch0, faultAt, answer)) == (repo.Contents(), after)
      ensures outcome.Returned? ==> after.pc == Done(outcome.pushed) && after.made == ch.made
      ensures outcome.Threw? ==> after.made == ch.made + 1 && (after.pc.Idle? || after.pc.Exhausted?)
    {
      ghost var go, t := P.Go(answer), repo.Contents();
      repo.MarkPushStatusByIds(pending.Keys - Targets(job, pending), Skipped);
      ghost var t1 := repo.Contents();
      after := ch.(pc := Returning(true));
      GoOn(job, t0, ch0, past, 5, faultAt, answer, (t, ch), (t1, after));
      ghost var trace := Then(past, go);
      if faultAt == 6 {
        StopHere(job, t0, ch0, trace, 6, faultAt, answer, (t1, after));
        return Threw, Fail(job, after);
      }
      GoOn(job, t0, ch0, trace, 6, faultAt, answer, (t1, after), (t1, after.(pc := Done(true))));
      Finish(job, t0, ch0, Then(trace, go), 7, faultAt, answer, (t1, after.(pc := Done(true))));
      return Returned(true), after.(pc := Done(true));
    }

    /** The terminal step runs only when the attempts are used up; a failing statement is swallowed. */
    method OnFailed(job: Job, ghost ch: Chunk, attemptsMade: nat, commits: bool)
      returns (ghost after: Chunk)
      requires Valid(repo.Contents()) && ch.made == attemptsMade
      requires ch.pc == if attemptsMade >= job.attempts then Exhausted else Idle
      modifies repo`rows
      ensures Valid(repo.Contents())
      ensures (repo.Contents(), after) == if attemptsMade < job.attempts then (old(repo.Contents()), ch)
        else Step(job, old(repo.Contents()), ch, if commits then P.Go(P.NotDelivered) else P.Stop)
      ensures after.pc == if attemptsMade >= job.attempts then Closed(commits) else Idle
    {
      after := ch;
      if attemptsMade >= job.attempts {
        if commits {
          repo.MarkBroadcastPendingFailed(job.broadcastId, Users(job));
        }
        after := ch.(pc := Closed(commits));
      }
    }
  }
}
