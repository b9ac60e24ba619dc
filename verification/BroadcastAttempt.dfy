/**
 One attempt that nothing interrupts, taken up in any reachable state: whom it
 pushes to, and what it makes of every row.
 */
module BroadcastAttempt {
  import opened Wrappers
  import opened Inbox
  import opened BroadcastWorker
  import opened BroadcastRefinement
  import opened BroadcastFanOut
  import P = ChunkProtocol

  /** A fault position that no attempt reaches. */
  const NEVER: nat := 8

  // ----- in the protocol -----

  /** Users without a settled row. */
  function Left(c: P.Spec, s: P.State): set<UserId> {
    set u | u in c.users && (u !in s.view || s.view[u].status == Pending)
  }

  /** `k` awaits that go well. */
  function Goes(c: P.Spec, s: P.State, answer: P.Answer, k: nat): P.State {
    P.Run(c, s, GoTrace(answer, k))
  }

  function GoTrace(answer: P.Answer, k: nat): Trace<P.Action> {
    if k == 0 then Start else Then(GoTrace(answer, k - 1), P.Go(answer))
  }

  lemma FirstGo(c: P.Spec, s: P.State, answer: P.Answer)
    ensures Goes(c, s, answer, 1) == P.Step(c, s, P.Go(answer))
  {
    assert GoTrace(answer, 1) == Then(Start, P.Go(answer));
    assert P.Run(c, s, Start) == s;
  }

  /** Up to the list of the rows still pending: those are the users left. */
  lemma ThreeGoes(c: P.Spec, s: P.State, answer: P.Answer)
    requires P.WellFormed(c) && P.Shape(c, s) && s.pc == P.Idle
    ensures var s3 := Goes(c, s, answer, 3);
      && s3.pc == P.Listed(Left(c, s)) && s3.view == s.view + P.Fresh(c, c.users - s.view.Keys)
      && s3.made == s.made && s3.pushes == s.pushes && s3.lost == s.lost
  {
    var s1 := P.Step(c, s, P.Go(answer));
    var s2 := P.Step(c, s1, P.Go(answer));
    FirstGo(c, s, answer);
    assert Goes(c, s, answer, 2) == s2;
    assert P.PendingIn(s2.view) == Left(c, s);
  }

  /** What one attempt makes of a user's status. */
  function After(c: P.Spec, s: P.State, answer: P.Answer, u: UserId): Status
    requires u in c.users
  {
    if u in s.view && s.view[u].status != Pending then s.view[u].status
    else if Left(c, s) * c.aliased == {} then Skipped
    else match answer
      case Delivered => if u in c.aliased then Sent else Skipped
      case ProviderSkipped => Skipped
      case NotDelivered => Pending
  }

  /** The number of awaits of an attempt. */
  function Length(c: P.Spec, s: P.State, answer: P.Answer): nat {
    if Left(c, s) * c.aliased == {} then 5
    else match answer
      case Delivered => 7
      case ProviderSkipped => 6
      case NotDelivered => 4
  }

  lemma {:induction false} JoinGoes(answer: P.Answer, j: nat, k: nat)
    ensures GoTrace(answer, j + k) == Join(GoTrace(answer, j), GoTrace(answer, k))
  {
    if k > 0 {
      JoinGoes(answer, j, k - 1);
    }
  }

  lemma GoesMore(c: P.Spec, s: P.State, answer: P.Answer, j: nat, k: nat)
    ensures Goes(c, s, answer, j + k) == Goes(c, Goes(c, s, answer, j), answer, k)
  {
    JoinGoes(answer, j, k);
    P.RunJoin(c, s, GoTrace(answer, j), GoTrace(answer, k));
  }

  /** The rows have been listed: `pending` are the users of the view still PENDING. */
  ghost predicate ListedState(c: P.Spec, s: P.State, pending: set<UserId>) {
    s.pc == P.Listed(pending) && s.view.Keys == c.users && pending == P.PendingIn(s.view)
  }

  /** The view with the status of every pending user replaced. */
  ghost predicate Settles(s: P.State, s': P.State, pending: set<UserId>, sent: set<UserId>) {
    s'.view.Keys == s.view.Keys && forall u | u in s.view ::
      s'.view[u].status == if u !in pending then s.view[u].status else if u in sent then Sent else Skipped
  }

  lemma NobodyToPush(c: P.Spec, s: P.State, pending: set<UserId>, answer: P.Answer)
    requires ListedState(c, s, pending) && pending * c.aliased == {}
    ensures var s' := Goes(c, s, answer, 2);
      s'.pc == P.Done(false) && s'.pushes == s.pushes && Settles(s, s', pending, {})
  {
    FirstGo(c, s, answer);
  }

  lemma ProviderSkips(c: P.Spec, s: P.State, pending: set<UserId>)
    requires ListedState(c, s, pending) && pending * c.aliased != {}
    ensures var s' := Goes(c, s, P.ProviderSkipped, 3);
      s'.pc == P.Done(false) && s'.pushes == s.pushes && Settles(s, s', pending, {})
  {
    var go := P.Go(P.ProviderSkipped);
    FirstGo(c, s, P.ProviderSkipped);
    assert Goes(c, s, P.ProviderSkipped, 2) == P.Step(c, P.Step(c, s, go), go);
  }

  lemma ProviderDelivers(c: P.Spec, s: P.State, pending: set<UserId>)
    requires ListedState(c, s, pending) && pending * c.aliased != {}
    ensures var s' := Goes(c, s, P.Delivered, 4);
      && s'.pc == P.Done(true) && s'.pushes == s.pushes + multiset(pending * c.aliased)
      && Settles(s, s', pending, pending * c.aliased)
  {
    var go := P.Go(P.Delivered);
    var s1 := P.Step(c, s, go);
    var s2 := P.Step(c, s1, go);
    FirstGo(c, s, P.Delivered);
    assert Goes(c, s, P.Delivered, 2) == s2;
    assert Goes(c, s, P.Delivered, 3) == P.Step(c, s2, go);
  }

  lemma RestOfGoes(c: P.Spec, s: P.State, answer: P.Answer)
    requires P.WellFormed(c) && P.Shape(c, s) && s.pc == P.Idle
    ensures var s' := Goes(c, s, answer, Length(c, s, answer));
      && s'.pushes == s.pushes + (if answer.Delivered? then multiset(Left(c, s) * c.aliased) else multiset{})
      && s'.view.Keys == c.users && forall u | u in c.users :: s'.view[u].status == After(c, s, answer, u)
  {
    ThreeGoes(c, s, answer);
    var s3, left := Goes(c, s, answer, 3), Left(c, s);
    GoesMore(c, s, answer, 3, Length(c, s, answer) - 3);
    ListsLeft(c, s, answer);
    if left * c.aliased == {} {
      NobodyToPush(c, s3, left, answer);
    } else {
      match answer
      case Delivered => ProviderDelivers(c, s3, left);
      case ProviderSkipped => ProviderSkips(c, s3, left);
      case NotDelivered => FirstGo(c, s3, answer);
    }
  }

  lemma ListsLeft(c: P.Spec, s: P.State, answer: P.Answer)
    requires P.WellFormed(c) && P.Shape(c, s) && s.pc == P.Idle
    ensures var s3 := Goes(c, s, answer, 3);
      && ListedState(c, s3, Left(c, s))
      && forall u | u in c.users :: s3.view[u].status == if u in Left(c, s) then Pending else s.view[u].status
  {
    ThreeGoes(c, s, answer);
  }

  predicate Resting(pc: P.Pc) {
    pc.Idle? || pc.Exhausted? || pc.Done?
  }

  /** The first three awaits lead away from rest. */
  lemma BusyAtFirst(c: P.Spec, s: P.State, answer: P.Answer, k: nat)
    requires s.pc == P.Idle && 0 < k <= 3
    ensures !Resting(Goes(c, s, answer, k).pc)
  {
    var s1 := P.Step(c, s, P.Go(answer));
    var s2 := P.Step(c, s1, P.Go(answer));
    FirstGo(c, s, answer);
    assert Goes(c, s, answer, 2) == s2;
    assert Goes(c, s, answer, 3) == P.Step(c, s2, P.Go(answer));
  }

  /** The awaits from the list to the end. */
  function ToEnd(c: P.Spec, pending: set<UserId>, answer: P.Answer): nat {
    if pending * c.aliased == {} then 2
    else match answer
      case Delivered => 4
      case ProviderSkipped => 3
      case NotDelivered => 1
  }

  /** From the list on, an attempt rests only at its end. */
  lemma RestsAfter(c: P.Spec, s: P.State, answer: P.Answer, pending: set<UserId>, k: nat)
    requires s.pc == P.Listed(pending) && 0 < k <= ToEnd(c, pending, answer)
    ensures Resting(Goes(c, s, answer, k).pc) <==> k == ToEnd(c, pending, answer)
  {
    var s1 := P.Step(c, s, P.Go(answer));
    FirstGo(c, s, answer);
    if k > 1 {
      var s2 := P.Step(c, s1, P.Go(answer));
      assert Goes(c, s, answer, 2) == s2;
      if k > 2 {
        RestsAfterPush(c, s1, s2, answer);
        assert Goes(c, s, answer, 3) == P.Step(c, s2, P.Go(answer));
        assert Goes(c, s, answer, 4) == P.Step(c, P.Step(c, s2, P.Go(answer)), P.Go(answer));
      }
    }
  }

  lemma RestsAfterPush(c: P.Spec, s1: P.State, s2: P.State, answer: P.Answer)
    requires s2 == P.Step(c, s1, P.Go(answer)) && (s1.pc.Unpushed? || s1.pc.Pushed?)
    ensures var s3 := P.Step(c, s2, P.Go(answer));
      if s1.pc.Unpushed? then s3.pc.Done? else s3.pc.Returning? && P.Step(c, s3, P.Go(answer)).pc.Done?
  {
  }

  lemma RestsAtLength(c: P.Spec, s: P.State, answer: P.Answer, k: nat)
    requires P.WellFormed(c) && P.Shape(c, s) && s.pc == P.Idle && 0 < k <= Length(c, s, answer)
    ensures Resting(Goes(c, s, answer, k).pc) <==> k == Length(c, s, answer)
  {
    if k <= 3 {
      BusyAtFirst(c, s, answer, k);
    } else {
      ThreeGoes(c, s, answer);
      GoesMore(c, s, answer, 3, k - 3);
      RestsAfter(c, Goes(c, s, answer, 3), answer, Left(c, s), k - 3);
    }
  }

  // ----- on the table -----

  /** The chunk on the table is where the protocol has it. */
  ghost predicate Running(job: Job, t: Table, ch: Chunk, s: P.State) {
    Valid(t) && Sim(job, t, ch, s) && P.Shape(SpecOf(job), s) && P.Budget(SpecOf(job), s)
  }

  lemma StepRuns(job: Job, t: Table, ch: Chunk, s: P.State, a: P.Action)
    requires Distinct(job) && Running(job, t, ch, s)
    ensures var n := Step(job, t, ch, a); Running(job, n.0, n.1, P.Step(SpecOf(job), s, a))
  {
    SpecWellFormed(job);
    StepRefines(job, t, ch, s, a);
    P.StepKeepsShape(SpecOf(job), s, a);
  }

  lemma {:induction false} GoesRefined(job: Job, t: Table, ch: Chunk, s: P.State, answer: P.Answer, k: nat)
    requires Distinct(job) && Running(job, t, ch, s)
    ensures var n := Run(job, t, ch, GoTrace(answer, k)); Running(job, n.0, n.1, Goes(SpecOf(job), s, answer, k))
  {
    if k > 0 {
      GoesRefined(job, t, ch, s, answer, k - 1);
      var past := GoTrace(answer, k - 1);
      var n, s' := Run(job, t, ch, past), P.Run(SpecOf(job), s, past);
      StepRuns(job, n.0, n.1, s', P.Go(answer));
      assert GoTrace(answer, k) == Then(past, P.Go(answer));
    }
  }

  lemma RestsTogether(job: Job, t: Table, ch: Chunk, s: P.State)
    requires Sim(job, t, ch, s)
    ensures forall n: nat | n > 0 :: AtRest(n, ch) <==> Resting(s.pc)
  {
  }

  lemma {:induction false} DriveGoes(job: Job, t: Table, ch: Chunk, s: P.State, answer: P.Answer, k: nat)
    requires Distinct(job) && Running(job, t, ch, s) && s.pc == P.Idle && k <= Length(SpecOf(job), s, answer)
    ensures Drive(job, t, ch, GoTrace(answer, k), k, NEVER, answer) == GoTrace(answer, Length(SpecOf(job), s, answer))
    decreases 8 - k
  {
    SpecWellFormed(job);
    GoesRefined(job, t, ch, s, answer, k);
    var n := Run(job, t, ch, GoTrace(answer, k));
    RestsTogether(job, n.0, n.1, Goes(SpecOf(job), s, answer, k));
    if k > 0 {
      RestsAtLength(SpecOf(job), s, answer, k);
    }
    if k < Length(SpecOf(job), s, answer) {
      DriveGoes(job, t, ch, s, answer, k + 1);
    }
  }

  /** The attempt on the table is the attempt of the protocol. */
  lemma AttemptRefines(job: Job, t: Table, ch: Chunk, s: P.State, answer: P.Answer)
    requires Distinct(job) && Running(job, t, ch, s) && s.pc == P.Idle
    ensures var n := Run(job, t, ch, Attempt(job, t, ch, NEVER, answer));
      Sim(job, n.0, n.1, Goes(SpecOf(job), s, answer, Length(SpecOf(job), s, answer)))
  {
    DriveGoes(job, t, ch, s, answer, 0);
    GoesRefined(job, t, ch, s, answer, Length(SpecOf(job), s, answer));
  }

  // ----- main result -----

  /** A row says that the user's delivery is settled. */
  ghost predicate SettledRow(t: Table, b: string, u: UserId) {
    exists id :: IsRow(t, id, b, u) && t.rows[id].status != Pending
  }

  /** The recipient has a push alias; an empty one counts as none. */
  predicate Reachable(r: Recipient) {
    r.pushExternalId.Some? && r.pushExternalId.value != ""
  }

  /** Somebody is left to push to. */
  ghost predicate AnyLeft(job: Job, t: Table) {
    exists r :: r in job.recipients && !SettledRow(t, job.broadcastId, r.userId) && Reachable(r)
  }

  ghost predicate HasStatus(t: Table, b: string, u: UserId, status: Status) {
    exists id :: IsRow(t, id, b, u) && t.rows[id].status == status
  }

  /** The rows of a table whose view is known. */
  lemma ViewSettled(job: Job, t: Table, view: map<UserId, P.Entry>, u: UserId)
    requires ViewOf(t, job.broadcastId, Users(job), view) && u in Users(job)
    ensures SettledRow(t, job.broadcastId, u) <==> u in view && view[u].status != Pending
    ensures forall status :: HasStatus(t, job.broadcastId, u, status) <==> u in view && view[u].status == status
  {
    if u in view {
      var id :| IsRow(t, id, job.broadcastId, u);
      assert view[u] == P.Entry(t.rows[id].content, t.rows[id].status);
    }
  }

  lemma AliasOf(job: Job, r: Recipient)
    requires Distinct(job) && r in job.recipients
    ensures r.userId in Users(job) && (r.userId in Aliased(job) <==> Reachable(r))
  {
    if r.userId in Aliased(job) {
      var q :| q in job.recipients && HasAlias(q) && q.userId == r.userId;
      var i :| 0 <= i < |job.recipients| && job.recipients[i] == r;
      var j :| 0 <= j < |job.recipients| && job.recipients[j] == q;
      assert i == j;
    }
  }

  lemma LeftIsAnyLeft(job: Job, t: Table, s: P.State)
    requires Distinct(job) && ViewOf(t, job.broadcastId, Users(job), s.view)
    ensures Left(SpecOf(job), s) * Aliased(job) != {} <==> AnyLeft(job, t)
  {
    var hit := Left(SpecOf(job), s) * Aliased(job);
    if hit != {} {
      var u :| u in hit;
      var r :| r in job.recipients && HasAlias(r) && r.userId == u;
      ViewSettled(job, t, s.view, u);
      assert r in job.recipients && !SettledRow(t, job.broadcastId, r.userId) && Reachable(r);
    }
    if r :| r in job.recipients && !SettledRow(t, job.broadcastId, r.userId) && Reachable(r) {
      ViewSettled(job, t, s.view, r.userId);
      AliasOf(job, r);
      assert r.userId in hit;
    }
  }

  /**
   In any run, a chunk that takes up an attempt nothing interrupts pushes exactly to the recipients with an
   alias that are left, once each, and settles all that are left by the provider's answer.
   */
  lemma UninterruptedAttempt(jobs: seq<Job>, b: string, w: World, events: Trace<Event>, c: nat, answer: P.Answer, r: Recipient)
    requires Initial(jobs, b, w) && c < |jobs| && r in jobs[c].recipients
    requires var w' := RunWorld(jobs, w, events); |w'.chunks| == |jobs| && w'.chunks[c].pc == Idle
    ensures var w', job := RunWorld(jobs, w, events), jobs[c];
      var n := Run(job, w'.table, w'.chunks[c], Attempt(job, w'.table, w'.chunks[c], NEVER, answer));
      RowAfter(job, w'.table, n.0, answer, r) && PushesAfter(job, w'.table, w'.chunks[c], n.1, answer, r)
  {
    EveryRunRefines(jobs, b, w, events);
    ProtocolInv(jobs, events, c);
    var w', job := RunWorld(jobs, w, events), jobs[c];
    AttemptOutcome(job, w'.table, w'.chunks[c], Protocol(jobs, events, c), answer, r);
  }

  /** What becomes of a recipient's row. */
  ghost predicate RowAfter(job: Job, t: Table, t': Table, answer: P.Answer, r: Recipient) {
    var b, any := job.broadcastId, AnyLeft(job, t);
    if SettledRow(t, b, r.userId) then
      forall status :: HasStatus(t, b, r.userId, status) <==> HasStatus(t', b, r.userId, status)
    else
      HasStatus(t', b, r.userId,
        if any && answer.NotDelivered? then Pending else if any && answer.Delivered? && Reachable(r) then Sent else Skipped)
  }

  /** And how often it is pushed to. */
  ghost predicate PushesAfter(job: Job, t: Table, ch: Chunk, ch': Chunk, answer: P.Answer, r: Recipient) {
    ch'.pushes[r.userId] == ch.pushes[r.userId]
      + if !SettledRow(t, job.broadcastId, r.userId) && answer.Delivered? && Reachable(r) then 1 else 0
  }

  lemma RowFromViews(job: Job, t: Table, t': Table, s: P.State, s': P.State, answer: P.Answer, r: Recipient)
    requires Distinct(job) && r in job.recipients
    requires ViewOf(t, job.broadcastId, Users(job), s.view) && ViewOf(t', job.broadcastId, Users(job), s'.view)
    requires s'.view.Keys == Users(job) && forall u | u in Users(job) :: s'.view[u].status == After(SpecOf(job), s, answer, u)
    ensures RowAfter(job, t, t', answer, r)
  {
    AliasOf(job, r);
    LeftIsAnyLeft(job, t, s);
    ViewSettled(job, t, s.view, r.userId);
    ViewSettled(job, t', s'.view, r.userId);
  }

  lemma PushesFromViews(job: Job, t: Table, ch: Chunk, ch': Chunk, s: P.State, answer: P.Answer, r: Recipient)
    requires Distinct(job) && r in job.recipients && ViewOf(t, job.broadcastId, Users(job), s.view)
    requires ch'.pushes == ch.pushes + if answer.Delivered? then multiset(Left(SpecOf(job), s) * Aliased(job)) else multiset{}
    ensures PushesAfter(job, t, ch, ch', answer, r)
  {
    AliasOf(job, r);
    ViewSettled(job, t, s.view, r.userId);
  }

  lemma AttemptOutcome(job: Job, t: Table, ch: Chunk, s: P.State, answer: P.Answer, r: Recipient)
    requires Distinct(job) && Running(job, t, ch, s) && s.pc == P.Idle && r in job.recipients
    ensures var n := Run(job, t, ch, Attempt(job, t, ch, NEVER, answer));
      RowAfter(job, t, n.0, answer, r) && PushesAfter(job, t, ch, n.1, answer, r)
  {
    var n, s' := Run(job, t, ch, Attempt(job, t, ch, NEVER, answer)), Goes(SpecOf(job), s, answer, Length(SpecOf(job), s, answer));
    SpecWellFormed(job);
    AttemptRefines(job, t, ch, s, answer);
    RestOfGoes(SpecOf(job), s, answer);
    RowFromViews(job, t, n.0, s, s', answer, r);
    PushesFromViews(job, t, ch, n.1, s, answer, r);
  }
}
