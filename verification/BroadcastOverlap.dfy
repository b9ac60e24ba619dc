/**
 What the rest of the broadcast model excludes: two attempts on the same chunk at
 the same time. Two workers on one job share the table; the second one marks by
 ids it read before the first one was done.
 */
module BroadcastOverlap {
  import opened Wrappers
  import opened Inbox
  import opened BroadcastWorker
  import opened BroadcastRefinement
  import opened BroadcastFanOut
  import P = ChunkProtocol

  const NO_ROWS: map<UserId, P.Entry> := map[]

  const WAITING := Chunk(Idle, 0, multiset{}, 0)

  /** No row of the broadcast yet, and two attempts about to begin. */
  ghost predicate TwoAttempts(job: Job, w: World) {
    && Valid(w.table) && Distinct(job) && w.chunks == [WAITING, WAITING]
    && forall id | id in w.table.rows :: w.table.rows[id].broadcastId != Some(job.broadcastId)
  }

  /** Worker 0 inserts the rows and both workers list them as PENDING. */
  function BothList(): Trace<Event> {
    var go := P.Go(P.Delivered);
    Then(Then(Then(AfterFirst(), Event(1, go)), Event(1, go)), Event(1, go))
  }

  /** The table after the first insert: one PENDING row for each recipient. */
  ghost predicate AllPending(job: Job, t: Table) {
    && Valid(t)
    && (forall u | u in Users(job) :: exists id :: IsRow(t, id, job.broadcastId, u))
    && (forall id, u | u in Users(job) && IsRow(t, id, job.broadcastId, u) :: t.rows[id].status == Pending)
  }

  lemma FirstInsert(job: Job, t: Table)
    requires Valid(t) && Distinct(job) && forall id | id in t.rows :: t.rows[id].broadcastId != Some(job.broadcastId)
    ensures var news := MissingRows(job, job.recipients, {});
      Existing(t, job.broadcastId, Users(job)) == {} && !Conflicts(t, news) && AllPending(job, Inserted(t, news))
  {
    var news := MissingRows(job, job.recipients, {});
    MissingRowsExact(job, {});
    NoView(job, t);
    InsertNoConflict(job, t, news, NO_ROWS);
    InsertKeepsValid(t, news);
    InsertView(job, t, news, NO_ROWS);
    FreshIsPending(job, Inserted(t, news));
  }

  lemma NoView(job: Job, t: Table)
    requires forall id | id in t.rows :: t.rows[id].broadcastId != Some(job.broadcastId)
    ensures ViewOf(t, job.broadcastId, Users(job), NO_ROWS) && Existing(t, job.broadcastId, Users(job)) == {}
    ensures Users(job) - NO_ROWS.Keys == Users(job) - {}
  {
  }

  lemma FreshIsPending(job: Job, t: Table)
    requires Valid(t) && ViewOf(t, job.broadcastId, Users(job), NO_ROWS + P.Fresh(SpecOf(job), Users(job) - NO_ROWS.Keys))
    ensures AllPending(job, t)
  {
    var view := NO_ROWS + P.Fresh(SpecOf(job), Users(job) - NO_ROWS.Keys);
    assert view.Keys == Users(job) && forall u | u in view :: view[u].status == Pending;
  }

  lemma {:induction false} NothingMissing(job: Job, recipients: seq<Recipient>, existing: set<UserId>)
    requires forall r | r in recipients :: r.userId in existing
    ensures MissingRows(job, recipients, existing) == []
  {
    if recipients != [] {
      NothingMissing(job, recipients[1..], existing);
    }
  }

  /** The second worker finds every row there, so its insert is empty. */
  lemma SecondInsert(job: Job, t: Table)
    requires AllPending(job, t)
    ensures MissingRows(job, job.recipients, Existing(t, job.broadcastId, Users(job))) == []
    ensures !Conflicts(t, []) && Inserted(t, []) == t
  {
    var existing := Existing(t, job.broadcastId, Users(job));
    forall u | u in Users(job) ensures u in existing {
      var id :| IsRow(t, id, job.broadcastId, u);
    }
    assert forall r | r in job.recipients :: r.userId in Users(job);
    NothingMissing(job, job.recipients, existing);
    assert NewRows(t.nextId, []) == map[] && t.rows + map[] == t.rows;
  }

  /** One step of one of the two workers. */
  lemma Move(job: Job, w: World, events: Trace<Event>, i: nat, a: P.Action, before: World, t: Table, ch: Chunk)
    requires RunWorld([job, job], w, events) == before && i < 2 == |before.chunks|
    requires Step(job, before.table, before.chunks[i], a) == (t, ch)
    ensures RunWorld([job, job], w, Then(events, Event(i, a))) == World(t, before.chunks[i := ch])
  {
  }

  function AfterFirst(): Trace<Event> {
    var go := P.Go(P.Delivered);
    Then(Then(Then(Start, Event(0, go)), Event(0, go)), Event(0, go))
  }

  function ListedBy(job: Job, t: Table): Chunk {
    WAITING.(pc := Listed(PendingRows(t, job.broadcastId, Users(job))))
  }

  lemma FirstLists(job: Job, w: World) returns (t: Table)
    requires TwoAttempts(job, w)
    ensures AllPending(job, t) && RunWorld([job, job], w, AfterFirst()) == World(t, [ListedBy(job, t), WAITING])
  {
    var go, news := P.Go(P.Delivered), MissingRows(job, job.recipients, {});
    FirstInsert(job, w.table);
    t := Inserted(w.table, news);
    var filtered, stored := WAITING.(pc := Filtered(news)), WAITING.(pc := BroadcastWorker.Pc.Stored);
    var e1 := Then(Start, Event(0, go));
    Move(job, w, Start, 0, go, w, w.table, filtered);
    Move(job, w, e1, 0, go, World(w.table, [filtered, WAITING]), t, stored);
    Move(job, w, Then(e1, Event(0, go)), 0, go, World(t, [stored, WAITING]), t, ListedBy(job, t));
  }

  lemma BothWorkersList(job: Job, w: World) returns (t: Table)
    requires TwoAttempts(job, w)
    ensures AllPending(job, t) && RunWorld([job, job], w, BothList()) == World(t, [ListedBy(job, t), ListedBy(job, t)])
  {
    t := FirstLists(job, w);
    SecondInsert(job, t);
    var go, listed := P.Go(P.Delivered), ListedBy(job, t);
    var filtered, stored := WAITING.(pc := Filtered([])), WAITING.(pc := BroadcastWorker.Pc.Stored);
    var e1 := Then(AfterFirst(), Event(1, go));
    Move(job, w, AfterFirst(), 1, go, World(t, [listed, WAITING]), t, filtered);
    Move(job, w, e1, 1, go, World(t, [listed, filtered]), t, stored);
    Move(job, w, Then(e1, Event(1, go)), 1, go, World(t, [listed, stored]), t, listed);
  }

  /** A recipient with an alias is among the targets of both workers. */
  lemma Targeted(job: Job, t: Table, u: UserId) returns (id: nat)
    requires AllPending(job, t) && u in Aliased(job)
    ensures var pending := PendingRows(t, job.broadcastId, Users(job));
      && IsRow(t, id, job.broadcastId, u) && id in pending && pending[id] == u && id in Targets(job, pending)
      && multiset(UsersOf(pending, Targets(job, pending)))[u] == 1
  {
    assert u in Users(job);
    id :| IsRow(t, id, job.broadcastId, u);
    var pending := PendingRows(t, job.broadcastId, Users(job));
    assert id in Targets(job, pending) && u in UsersOf(pending, Targets(job, pending));
  }

  /** Both workers push before either marks. */
  function BothPush(): Trace<Event> {
    Then(Then(BothList(), Event(0, P.Go(P.Delivered))), Event(1, P.Go(P.Delivered)))
  }

  /** Two overlapping attempts push to every recipient with an alias twice, although nothing failed. */
  lemma OverlapPushesTwice(job: Job, w: World, u: UserId)
    requires TwoAttempts(job, w) && u in Aliased(job)
    ensures var w' := RunWorld([job, job], w, BothPush());
      && |w'.chunks| == 2 && w'.chunks[0].lost == 0 && w'.chunks[1].lost == 0
      && w'.chunks[0].pushes[u] + w'.chunks[1].pushes[u] == 2
  {
    var t := BothWorkersList(job, w);
    var id := Targeted(job, t, u);
    var pending := PendingRows(t, job.broadcastId, Users(job));
    var listed := WAITING.(pc := Listed(pending));
    var pushed := WAITING.(pc := Pushed(pending), pushes := multiset{} + multiset(UsersOf(pending, Targets(job, pending))));
    assert RunWorld([job, job], w, Then(BothList(), Event(0, P.Go(P.Delivered)))) == World(t, [pushed, listed]);
    assert RunWorld([job, job], w, BothPush()) == World(t, [pushed, pushed]);
  }

  /** Worker 0 delivers and marks SENT. */
  function FirstSends(): Trace<Event> {
    Then(Then(BothList(), Event(0, P.Go(P.Delivered))), Event(0, P.Go(P.Delivered)))
  }

  /** Worker 1, whose push the provider skips, then marks what it had listed. */
  function SecondSkips(): Trace<Event> {
    Then(Then(FirstSends(), Event(1, P.Go(P.ProviderSkipped))), Event(1, P.Go(P.ProviderSkipped)))
  }

  /** The SENT row of every recipient with an alias becomes SKIPPED again: the mark by id does not test for PENDING. */
  lemma OverlapUnsettles(job: Job, w: World, u: UserId)
    requires TwoAttempts(job, w) && u in Aliased(job)
    ensures var t, t' := RunWorld([job, job], w, FirstSends()).table, RunWorld([job, job], w, SecondSkips()).table;
      exists id :: IsRow(t, id, job.broadcastId, u) && IsRow(t', id, job.broadcastId, u)
        && t.rows[id].status == Sent && t'.rows[id].status == Skipped
  {
    var jobs, go, skip := [job, job], P.Go(P.Delivered), P.Go(P.ProviderSkipped);
    var t := BothWorkersList(job, w);
    var id := Targeted(job, t, u);
    var pending := PendingRows(t, job.broadcastId, Users(job));
    var listed := WAITING.(pc := Listed(pending));
    var pushed := WAITING.(pc := Pushed(pending), pushes := multiset{} + multiset(UsersOf(pending, Targets(job, pending))));
    assert RunWorld(jobs, w, Then(BothList(), Event(0, go))) == World(t, [pushed, listed]);
    var t1, marked := MarkedByIds(t, Targets(job, pending), Sent), pushed.(pc := SentMarked(pending));
    assert RunWorld(jobs, w, FirstSends()) == World(t1, [marked, listed]);
    assert RunWorld(jobs, w, Then(FirstSends(), Event(1, skip))) == World(t1, [marked, WAITING.(pc := Unpushed(pending))]);
    var t2 := MarkedByIds(t1, pending.Keys, Skipped);
    assert RunWorld(jobs, w, SecondSkips()).table == t2;
    assert IsRow(t1, id, job.broadcastId, u) && IsRow(t2, id, job.broadcastId, u);
  }
}
