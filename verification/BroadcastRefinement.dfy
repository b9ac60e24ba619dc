/**
 The worker over the shared table refines the chunk protocol: whatever the other
 chunks do in between, a chunk's rows are what its own steps alone make of them.
 */
module BroadcastRefinement {
  import opened Wrappers
  import opened Inbox
  import opened BroadcastWorker
  import P = ChunkProtocol

  ghost predicate Distinct(job: Job) {
    forall i, j | 0 <= i < j < |job.recipients| :: job.recipients[i].userId != job.recipients[j].userId
  }

  /** The title and the body in the recipient's locale, each by its default where that locale has none. */
  ghost function ContentFor(job: Job, u: UserId): Content
    requires u in Users(job)
  {
    var r :| r in job.recipients && r.userId == u;
    Content(if r.locale in job.title.byLocale then job.title.byLocale[r.locale] else job.title.text,
            if r.locale in job.body.byLocale then job.body.byLocale[r.locale] else job.body.text)
  }

  ghost function SpecOf(job: Job): P.Spec {
    P.Spec(Users(job), Aliased(job), map u | u in Users(job) :: ContentFor(job, u), job.attempts)
  }

  ghost predicate ViewOf(t: Table, b: string, users: set<UserId>, view: map<UserId, P.Entry>) {
    && view.Keys <= users
    && RowsShown(t, b, users, view)
    && (forall u | u in view :: exists id :: IsRow(t, id, b, u))
  }

  ghost predicate RowsShown(t: Table, b: string, users: set<UserId>, view: map<UserId, P.Entry>) {
    forall id, u | u in users && IsRow(t, id, b, u) ::
      u in view && view[u] == P.Entry(t.rows[id].content, t.rows[id].status)
  }

  /** The rows about to be inserted are exactly one PENDING row per missing user. */
  ghost predicate InsertOf(job: Job, news: seq<NewRow>, missing: set<UserId>) {
    && NewsExact(job, news, missing)
    && OneEach(news)
    && (forall u | u in missing :: exists n :: n in news && n.recipient == u)
  }

  ghost predicate OneEach(news: seq<NewRow>) {
    forall i, j | 0 <= i < j < |news| :: news[i].recipient != news[j].recipient
  }

  ghost predicate NewsExact(job: Job, news: seq<NewRow>, missing: set<UserId>) {
    forall n | n in news :: n.recipient in missing && n.recipient in Users(job)
      && n == NewRow(n.recipient, ContentFor(job, n.recipient), Some(job.broadcastId), Pending)
  }

  ghost predicate PendingOf(t: Table, b: string, pending: map<nat, UserId>, users: set<UserId>) {
    && (forall id | id in pending :: pending[id] in users && IsRow(t, id, b, pending[id]))
    && (forall id, u | u in users && IsRow(t, id, b, u) :: id in pending && pending[id] == u)
    && (forall u | u in users :: exists id :: IsRow(t, id, b, u))
  }

  ghost predicate PcOf(job: Job, t: Table, pc: Pc, apc: P.Pc) {
    match pc
    case Idle => apc.Idle?
    case Filtered(news) => apc.Filtered? && InsertOf(job, news, apc.missing)
    case Stored => apc.Stored?
    case Listed(pending) => apc.Listed? && PendingOf(t, job.broadcastId, pending, apc.pending)
    case Unpushed(pending) => apc.Unpushed? && PendingOf(t, job.broadcastId, pending, apc.pending)
    case Pushed(pending) => apc.Pushed? && PendingOf(t, job.broadcastId, pending, apc.pending)
    case SentMarked(pending) => apc.SentMarked? && apc.pending <= Users(job) && PendingOf(t, job.broadcastId, pending, apc.pending)
    case Returning(pushed) => apc == P.Returning(pushed)
    case Done(pushed) => apc == P.Done(pushed)
    case Exhausted => apc.Exhausted?
    case Closed(marked) => apc == P.Closed(marked)
  }

  ghost predicate Sim(job: Job, t: Table, ch: Chunk, s: P.State) {
    && ch.made == s.made && ch.pushes == s.pushes && ch.lost == s.lost
    && ViewOf(t, job.broadcastId, Users(job), s.view)
    && PcOf(job, t, ch.pc, s.pc)
  }

  predicate Mine(r: Row, b: string, users: set<UserId>) {
    r.broadcastId == Some(b) && r.recipient in users
  }

  /** Nothing but the rows of `users` in broadcast `b` differs. */
  ghost predicate OnlyMine(t: Table, t': Table, b: string, users: set<UserId>) {
    && (forall id | id in t.rows && !Mine(t.rows[id], b, users) :: id in t'.rows && t'.rows[id] == t.rows[id])
    && (forall id | id in t'.rows && !Mine(t'.rows[id], b, users) :: id in t.rows && t'.rows[id] == t.rows[id])
  }

  /** Rows are never removed and never change key. */
  ghost predicate KeepsRows(t: Table, t': Table) {
    forall id, b, u | IsRow(t, id, b, u) :: IsRow(t', id, b, u)
  }

  lemma SpecWellFormed(job: Job)
    ensures P.WellFormed(SpecOf(job))
  {
  }

  lemma {:induction false} MissingRowsMembers(job: Job, recipients: seq<Recipient>, existing: set<UserId>)
    ensures forall n | n in MissingRows(job, recipients, existing) ::
      n.recipient !in existing && exists r :: r in recipients && n == RowFor(job, r)
    ensures forall r | r in recipients && r.userId !in existing :: RowFor(job, r) in MissingRows(job, recipients, existing)
  {
    if recipients != [] {
      MissingRowsMembers(job, recipients[1..], existing);
      assert recipients == [recipients[0]] + recipients[1..];
    }
  }

  lemma {:induction false} MissingRowsDistinct(job: Job, recipients: seq<Recipient>, existing: set<UserId>)
    requires forall i, j | 0 <= i < j < |recipients| :: recipients[i].userId != recipients[j].userId
    ensures OneEach(MissingRows(job, recipients, existing))
  {
    if recipients != [] {
      var tail := MissingRows(job, recipients[1..], existing);
      MissingRowsDistinct(job, recipients[1..], existing);
      MissingRowsMembers(job, recipients[1..], existing);
      forall n | n in tail ensures n.recipient != recipients[0].userId {
        var r :| r in recipients[1..] && n == RowFor(job, r);
        var k :| 0 <= k < |recipients[1..]| && recipients[1..][k] == r;
        assert recipients[0].userId != recipients[k + 1].userId;
      }
      assert forall i | 0 <= i < |tail| :: tail[i] in tail;
      if recipients[0].userId !in existing {
        assert MissingRows(job, recipients, existing) == [RowFor(job, recipients[0])] + tail;
      } else {
        assert MissingRows(job, recipients, existing) == tail;
      }
    }
  }

  lemma MissingRowsExact(job: Job, existing: set<UserId>)
    requires Distinct(job)
    ensures InsertOf(job, MissingRows(job, job.recipients, existing), Users(job) - existing)
  {
    var news := MissingRows(job, job.recipients, existing);
    MissingRowsMembers(job, job.recipients, existing);
    MissingRowsDistinct(job, job.recipients, existing);
    forall n | n in news
      ensures n.recipient in Users(job) && n == NewRow(n.recipient, ContentFor(job, n.recipient), Some(job.broadcastId), Pending)
    {
      var r :| r in job.recipients && n == RowFor(job, r);
      ContentUnique(job, r);
    }
    forall u | u in Users(job) - existing ensures exists n :: n in news && n.recipient == u {
      var r :| r in job.recipients && r.userId == u;
      assert RowFor(job, r) in news;
    }
  }

  lemma ContentUnique(job: Job, r: Recipient)
    requires Distinct(job) && r in job.recipients
    ensures ContentFor(job, r.userId) == RowFor(job, r).content
  {
    var r' :| r' in job.recipients && r'.userId == r.userId && ContentFor(job, r.userId) == RowFor(job, r').content;
    var i :| 0 <= i < |job.recipients| && job.recipients[i] == r;
    var j :| 0 <= j < |job.recipients| && job.recipients[j] == r';
    assert i == j;
  }

  lemma ReadExisting(job: Job, t: Table, view: map<UserId, P.Entry>)
    requires ViewOf(t, job.broadcastId, Users(job), view)
    ensures Existing(t, job.broadcastId, Users(job)) == view.Keys
  {
    forall u ensures u in Existing(t, job.broadcastId, Users(job)) <==> u in view.Keys {
      if u in Existing(t, job.broadcastId, Users(job)) {
        var id :| id in t.rows && t.rows[id].broadcastId == Some(job.broadcastId) && t.rows[id].recipient == u && u in Users(job);
        assert IsRow(t, id, job.broadcastId, u);
      }
    }
  }

  lemma InsertNoConflict(job: Job, t: Table, news: seq<NewRow>, view: map<UserId, P.Entry>)
    requires ViewOf(t, job.broadcastId, Users(job), view)
    requires InsertOf(job, news, Users(job) - view.Keys)
    ensures !Conflicts(t, news)
  {
    forall i, id | 0 <= i < |news| && id in t.rows
      ensures !SameKey(news[i], t.rows[id].broadcastId, t.rows[id].recipient)
    {
      assert news[i] in news && news[i].recipient !in view;
      assert !IsRow(t, id, job.broadcastId, news[i].recipient);
    }
    forall i, j | 0 <= i < j < |news|
      ensures !SameKey(news[i], news[j].broadcastId, news[j].recipient)
    {
    }
  }

  lemma InsertViewRow(job: Job, t: Table, news: seq<NewRow>, view: map<UserId, P.Entry>, id: nat, u: UserId)
    requires IdsBelow(t) && RowsShown(t, job.broadcastId, Users(job), view)
    requires NewsExact(job, news, Users(job) - view.Keys)
    requires u in Users(job) && IsRow(Inserted(t, news), id, job.broadcastId, u)
    ensures var view' := view + P.Fresh(SpecOf(job), Users(job) - view.Keys); var t' := Inserted(t, news);
      u in view' && view'[u] == P.Entry(t'.rows[id].content, t'.rows[id].status)
  {
    InsertedRow(t, news, id);
    if id in t.rows {
      assert IsRow(t, id, job.broadcastId, u);
    } else {
      assert news[id - t.nextId] in news;
    }
  }

  lemma InsertViewUser(job: Job, t: Table, news: seq<NewRow>, view: map<UserId, P.Entry>, u: UserId)
    requires IdsBelow(t) && (u in view ==> exists id :: IsRow(t, id, job.broadcastId, u))
    requires InsertOf(job, news, Users(job) - view.Keys) && u in Users(job)
    ensures exists id :: IsRow(Inserted(t, news), id, job.broadcastId, u)
  {
    if u in view {
      var id :| IsRow(t, id, job.broadcastId, u);
      InsertedRow(t, news, id);
      assert IsRow(Inserted(t, news), id, job.broadcastId, u);
    } else {
      assert u in Users(job) - view.Keys;
      var i :| 0 <= i < |news| && news[i].recipient == u;
      assert news[i] in news;
      InsertedNew(t, news, i);
      assert IsRow(Inserted(t, news), t.nextId + i, job.broadcastId, u);
    }
  }

  lemma InsertView(job: Job, t: Table, news: seq<NewRow>, view: map<UserId, P.Entry>)
    requires IdsBelow(t) && ViewOf(t, job.broadcastId, Users(job), view)
    requires InsertOf(job, news, Users(job) - view.Keys)
    ensures ViewOf(Inserted(t, news), job.broadcastId, Users(job), view + P.Fresh(SpecOf(job), Users(job) - view.Keys))
  {
    var b, t' := job.broadcastId, Inserted(t, news);
    var view' := view + P.Fresh(SpecOf(job), Users(job) - view.Keys);
    forall id: nat, u | u in Users(job) && IsRow(t', id, b, u)
      ensures u in view' && view'[u] == P.Entry(t'.rows[id].content, t'.rows[id].status)
    {
      InsertViewRow(job, t, news, view, id, u);
    }
    forall u | u in view' ensures exists id :: IsRow(t', id, b, u) {
      InsertViewUser(job, t, news, view, u);
    }
  }

  lemma InsertOthers(job: Job, t: Table, news: seq<NewRow>, missing: set<UserId>)
    requires IdsBelow(t) && NewsExact(job, news, missing)
    ensures OnlyMine(t, Inserted(t, news), job.broadcastId, Users(job)) && KeepsRows(t, Inserted(t, news))
  {
    var t' := Inserted(t, news);
    forall id: nat
      ensures id in t.rows ==> id in t'.rows && t'.rows[id] == t.rows[id]
      ensures id in t'.rows && id !in t.rows ==> Mine(t'.rows[id], job.broadcastId, Users(job))
    {
      InsertedRow(t, news, id);
      if id in t'.rows && id !in t.rows {
        assert news[id - t.nextId] in news;
      }
    }
  }

  lemma ReadPending(job: Job, t: Table, view: map<UserId, P.Entry>)
    requires ViewOf(t, job.broadcastId, Users(job), view)
    ensures PendingOf(t, job.broadcastId, PendingRows(t, job.broadcastId, Users(job)), P.PendingIn(view))
  {
    var b, pending := job.broadcastId, PendingRows(t, job.broadcastId, Users(job));
    forall id | id in pending ensures pending[id] in P.PendingIn(view) && IsRow(t, id, b, pending[id]) {
      assert IsRow(t, id, b, pending[id]);
    }
  }

  /** The rows of `marked` among the pending ones. */
  ghost predicate IdsFor(pending: map<nat, UserId>, ids: set<nat>, marked: set<UserId>) {
    ids == set id | id in pending && pending[id] in marked
  }

  ghost predicate SameKeys(t: Table, t': Table) {
    forall id, b, u :: IsRow(t', id, b, u) <==> IsRow(t, id, b, u)
  }

  lemma MarkKeys(t: Table, ids: set<nat>, status: Status)
    ensures SameKeys(t, MarkedByIds(t, ids, status))
  {
  }

  /** A view carries over to a table with the same keys, changed row by row as the view is. */
  lemma ViewCarries(t: Table, t': Table, b: string, users: set<UserId>, view: map<UserId, P.Entry>, view': map<UserId, P.Entry>)
    requires ViewOf(t, b, users, view) && SameKeys(t, t') && view'.Keys == view.Keys
    requires RowsShown(t', b, users, view')
    ensures ViewOf(t', b, users, view')
  {
    forall u | u in view' ensures exists id :: IsRow(t', id, b, u) {
      var id :| IsRow(t, id, b, u);
      assert IsRow(t', id, b, u);
    }
  }

  lemma PendingCarries(t: Table, t': Table, b: string, pending: map<nat, UserId>, users: set<UserId>)
    requires PendingOf(t, b, pending, users) && SameKeys(t, t')
    ensures PendingOf(t', b, pending, users)
  {
    forall u | u in users ensures exists id :: IsRow(t', id, b, u) {
      var id :| IsRow(t, id, b, u);
      assert IsRow(t', id, b, u);
    }
  }

  /** Marking the rows of `marked` among the pending ones is marking those users. */
  lemma MarkShows(job: Job, t: Table, view: map<UserId, P.Entry>, pending: map<nat, UserId>, users: set<UserId>,
                  ids: set<nat>, marked: set<UserId>, status: Status)
    requires ViewOf(t, job.broadcastId, Users(job), view) && PendingOf(t, job.broadcastId, pending, users)
    requires marked <= users && IdsFor(pending, ids, marked)
    ensures RowsShown(MarkedByIds(t, ids, status), job.broadcastId, Users(job), P.Mark(view, marked, status))
  {
    var b, t', view' := job.broadcastId, MarkedByIds(t, ids, status), P.Mark(view, marked, status);
    forall id, u | u in Users(job) && IsRow(t', id, b, u)
      ensures u in view' && view'[u] == P.Entry(t'.rows[id].content, t'.rows[id].status)
    {
      assert IsRow(t, id, b, u);
      assert id in ids <==> u in marked;
    }
  }

  lemma MarkOthers(job: Job, t: Table, pending: map<nat, UserId>, users: set<UserId>, ids: set<nat>, marked: set<UserId>, status: Status)
    requires PendingOf(t, job.broadcastId, pending, users) && users <= Users(job) && IdsFor(pending, ids, marked)
    ensures OnlyMine(t, MarkedByIds(t, ids, status), job.broadcastId, Users(job))
  {
    forall id | id in ids && id in t.rows ensures Mine(t.rows[id], job.broadcastId, Users(job)) {
      assert IsRow(t, id, job.broadcastId, pending[id]);
    }
  }

  lemma MarkView(job: Job, t: Table, view: map<UserId, P.Entry>, pending: map<nat, UserId>, users: set<UserId>,
                 ids: set<nat>, marked: set<UserId>, status: Status)
    requires ViewOf(t, job.broadcastId, Users(job), view)
    requires PendingOf(t, job.broadcastId, pending, users) && users <= Users(job)
    requires marked <= users && IdsFor(pending, ids, marked)
    ensures var t' := MarkedByIds(t, ids, status);
      && ViewOf(t', job.broadcastId, Users(job), P.Mark(view, marked, status))
      && PendingOf(t', job.broadcastId, pending, users)
      && OnlyMine(t, t', job.broadcastId, Users(job)) && KeepsRows(t, t')
  {
    var t' := MarkedByIds(t, ids, status);
    MarkKeys(t, ids, status);
    MarkShows(job, t, view, pending, users, ids, marked, status);
    ViewCarries(t, t', job.broadcastId, Users(job), view, P.Mark(view, marked, status));
    PendingCarries(t, t', job.broadcastId, pending, users);
    MarkOthers(job, t, pending, users, ids, marked, status);
  }

  lemma FailShows(job: Job, t: Table, view: map<UserId, P.Entry>)
    requires ViewOf(t, job.broadcastId, Users(job), view)
    ensures var t' := PendingFailed(t, job.broadcastId, Users(job));
      RowsShown(t', job.broadcastId, Users(job), P.Mark(view, P.PendingIn(view), Failed)) && SameKeys(t, t')
  {
    var b, t' := job.broadcastId, PendingFailed(t, job.broadcastId, Users(job));
    var view' := P.Mark(view, P.PendingIn(view), Failed);
    forall id, u | u in Users(job) && IsRow(t', id, b, u)
      ensures u in view' && view'[u] == P.Entry(t'.rows[id].content, t'.rows[id].status)
    {
      assert IsRow(t, id, b, u);
    }
  }

  lemma FailView(job: Job, t: Table, view: map<UserId, P.Entry>)
    requires ViewOf(t, job.broadcastId, Users(job), view)
    ensures var t' := PendingFailed(t, job.broadcastId, Users(job));
      && ViewOf(t', job.broadcastId, Users(job), P.Mark(view, P.PendingIn(view), Failed))
      && OnlyMine(t, t', job.broadcastId, Users(job)) && KeepsRows(t, t')
  {
    FailShows(job, t, view);
    ViewCarries(t, PendingFailed(t, job.broadcastId, Users(job)), job.broadcastId, Users(job), view,
                P.Mark(view, P.PendingIn(view), Failed));
  }

  lemma PushedUsers(job: Job, t: Table, pending: map<nat, UserId>, users: set<UserId>)
    requires PendingOf(t, job.broadcastId, pending, users)
    ensures UsersOf(pending, Targets(job, pending)) == users * Aliased(job)
    ensures IdsFor(pending, Targets(job, pending), users * Aliased(job))
    ensures IdsFor(pending, pending.Keys - Targets(job, pending), users - Aliased(job))
    ensures IdsFor(pending, pending.Keys, users)
    ensures Targets(job, pending) == {} <==> users * Aliased(job) == {}
  {
    forall u | u in users * Aliased(job) ensures u in UsersOf(pending, Targets(job, pending)) {
      var id :| IsRow(t, id, job.broadcastId, u);
      assert id in pending && pending[id] == u;
    }
    forall id | id in Targets(job, pending) ensures pending[id] in users * Aliased(job) {
    }
  }

  /** What one step has to establish, the table's own validity apart. */
  ghost predicate Refined(job: Job, t: Table, ch: Chunk, s: P.State, a: P.Action) {
    var n := Step(job, t, ch, a);
    && Sim(job, n.0, n.1, P.Step(SpecOf(job), s, a))
    && OnlyMine(t, n.0, job.broadcastId, Users(job)) && KeepsRows(t, n.0)
  }

  lemma InsertStep(job: Job, t: Table, ch: Chunk, s: P.State, answer: P.Answer)
    requires IdsBelow(t) && Sim(job, t, ch, s) && P.Shape(SpecOf(job), s) && ch.pc.Filtered?
    ensures !Conflicts(t, ch.pc.toInsert) && Refined(job, t, ch, s, P.Go(answer))
  {
    InsertNoConflict(job, t, ch.pc.toInsert, s.view);
    InsertView(job, t, ch.pc.toInsert, s.view);
    InsertOthers(job, t, ch.pc.toInsert, s.pc.missing);
  }

  /** What a mark by id leaves, for the users marked in the protocol. */
  ghost predicate Marked(job: Job, t: Table, t': Table, pending: map<nat, UserId>, users: set<UserId>, view': map<UserId, P.Entry>) {
    && ViewOf(t', job.broadcastId, Users(job), view') && PendingOf(t', job.broadcastId, pending, users)
    && OnlyMine(t, t', job.broadcastId, Users(job)) && KeepsRows(t, t')
  }

  lemma MarkSentView(job: Job, t: Table, view: map<UserId, P.Entry>, pending: map<nat, UserId>, users: set<UserId>)
    requires ViewOf(t, job.broadcastId, Users(job), view)
    requires PendingOf(t, job.broadcastId, pending, users) && users <= Users(job)
    ensures Marked(job, t, MarkedByIds(t, Targets(job, pending), Sent), pending, users, P.Mark(view, users * Aliased(job), Sent))
  {
    PushedUsers(job, t, pending, users);
    MarkView(job, t, view, pending, users, Targets(job, pending), users * Aliased(job), Sent);
  }

  lemma MarkRestView(job: Job, t: Table, view: map<UserId, P.Entry>, pending: map<nat, UserId>, users: set<UserId>)
    requires ViewOf(t, job.broadcastId, Users(job), view)
    requires PendingOf(t, job.broadcastId, pending, users) && users <= Users(job)
    ensures Marked(job, t, MarkedByIds(t, pending.Keys - Targets(job, pending), Skipped), pending, users,
                   P.Mark(view, users - Aliased(job), Skipped))
  {
    PushedUsers(job, t, pending, users);
    MarkView(job, t, view, pending, users, pending.Keys - Targets(job, pending), users - Aliased(job), Skipped);
  }

  lemma SkipView(job: Job, t: Table, view: map<UserId, P.Entry>, pending: map<nat, UserId>, users: set<UserId>)
    requires ViewOf(t, job.broadcastId, Users(job), view)
    requires PendingOf(t, job.broadcastId, pending, users) && users <= Users(job)
    ensures Marked(job, t, MarkedByIds(t, pending.Keys, Skipped), pending, users, P.Mark(view, users, Skipped))
    ensures Targets(job, pending) == {} <==> users * Aliased(job) == {}
  {
    PushedUsers(job, t, pending, users);
    MarkView(job, t, view, pending, users, pending.Keys, users, Skipped);
  }

  /** The last mark of an attempt. */
  lemma MarkedReturns(job: Job, t: Table, t': Table, ch: Chunk, s: P.State, view': map<UserId, P.Entry>, pushed: bool)
    requires Sim(job, t, ch, s) && ViewOf(t', job.broadcastId, Users(job), view')
    ensures Sim(job, t', ch.(pc := Returning(pushed)), s.(pc := P.Returning(pushed), view := view'))
  {
  }

  lemma MarkSentStep(job: Job, t: Table, ch: Chunk, s: P.State, answer: P.Answer)
    requires Sim(job, t, ch, s) && P.Shape(SpecOf(job), s) && ch.pc.Pushed?
    ensures Refined(job, t, ch, s, P.Go(answer))
  {
    MarkSentView(job, t, s.view, ch.pc.pending, s.pc.pending);
  }

  lemma MarkRestStep(job: Job, t: Table, ch: Chunk, s: P.State, answer: P.Answer)
    requires Sim(job, t, ch, s) && P.Shape(SpecOf(job), s) && ch.pc.SentMarked?
    ensures Refined(job, t, ch, s, P.Go(answer))
  {
    var view' := P.Mark(s.view, s.pc.pending - Aliased(job), Skipped);
    MarkRestView(job, t, s.view, ch.pc.pending, s.pc.pending);
    MarkedReturns(job, t, MarkedByIds(t, ch.pc.pending.Keys - Targets(job, ch.pc.pending), Skipped), ch, s, view', true);
  }

  lemma SkipStep(job: Job, t: Table, ch: Chunk, s: P.State, answer: P.Answer)
    requires Sim(job, t, ch, s) && P.Shape(SpecOf(job), s)
    requires ch.pc.Unpushed? || (ch.pc.Listed? && Targets(job, ch.pc.pending) == {})
    ensures Refined(job, t, ch, s, P.Go(answer))
  {
    SkipView(job, t, s.view, ch.pc.pending, s.pc.pending);
    MarkedReturns(job, t, MarkedByIds(t, ch.pc.pending.Keys, Skipped), ch, s, P.Mark(s.view, s.pc.pending, Skipped), false);
  }

  lemma PushStep(job: Job, t: Table, ch: Chunk, s: P.State, answer: P.Answer)
    requires Sim(job, t, ch, s) && ch.pc.Listed? && Targets(job, ch.pc.pending) != {}
    ensures Refined(job, t, ch, s, P.Go(answer))
  {
    PushedUsers(job, t, ch.pc.pending, s.pc.pending);
  }

  lemma ReadStep(job: Job, t: Table, ch: Chunk, s: P.State, answer: P.Answer)
    requires Distinct(job) && Sim(job, t, ch, s) && P.Shape(SpecOf(job), s) && (ch.pc.Idle? || ch.pc.Stored?)
    ensures Refined(job, t, ch, s, P.Go(answer))
  {
    if ch.pc.Idle? {
      ReadExisting(job, t, s.view);
      MissingRowsExact(job, s.view.Keys);
    } else {
      ReadPending(job, t, s.view);
    }
  }

  /** No step breaks the table, whatever the chunk has read. */
  lemma StepKeepsValid(job: Job, t: Table, ch: Chunk, a: P.Action)
    requires Valid(t)
    ensures Valid(Step(job, t, ch, a).0)
  {
    if a.Go? {
      match ch.pc {
        case Filtered(news) =>
          if !Conflicts(t, news) {
            InsertKeepsValid(t, news);
          }
        case Listed(pending) => MarksKeepValid(t, pending.Keys, Skipped, "", {});
        case Unpushed(pending) => MarksKeepValid(t, pending.Keys, Skipped, "", {});
        case Pushed(pending) => MarksKeepValid(t, Targets(job, pending), Sent, "", {});
        case SentMarked(pending) => MarksKeepValid(t, pending.Keys - Targets(job, pending), Skipped, "", {});
        case Exhausted => MarksKeepValid(t, {}, Sent, job.broadcastId, Users(job));
        case _ =>
      }
    }
  }

  /** One worker step is one protocol step, and touches only its own chunk's rows. */
  lemma StepRefines(job: Job, t: Table, ch: Chunk, s: P.State, a: P.Action)
    requires Valid(t) && Distinct(job) && Sim(job, t, ch, s) && P.Shape(SpecOf(job), s)
    ensures var n := Step(job, t, ch, a);
      && Valid(n.0) && Sim(job, n.0, n.1, P.Step(SpecOf(job), s, a))
      && OnlyMine(t, n.0, job.broadcastId, Users(job)) && KeepsRows(t, n.0)
  {
    StepKeepsValid(job, t, ch, a);
    StepIsRefined(job, t, ch, s, a);
  }

  lemma StepIsRefined(job: Job, t: Table, ch: Chunk, s: P.State, a: P.Action)
    requires IdsBelow(t) && Distinct(job) && Sim(job, t, ch, s) && P.Shape(SpecOf(job), s)
    ensures Refined(job, t, ch, s, a)
  {
    if a.Go? {
      match ch.pc {
        case Idle => ReadStep(job, t, ch, s, a.answer);
        case Filtered(_) => InsertStep(job, t, ch, s, a.answer);
        case Stored => ReadStep(job, t, ch, s, a.answer);
        case Exhausted => FailView(job, t, s.view);
        case Listed(pending) =>
          if Targets(job, pending) == {} {
            SkipStep(job, t, ch, s, a.answer);
          } else {
            PushStep(job, t, ch, s, a.answer);
          }
        case Unpushed(_) => SkipStep(job, t, ch, s, a.answer);
        case Pushed(_) => MarkSentStep(job, t, ch, s, a.answer);
        case SentMarked(_) => MarkRestStep(job, t, ch, s, a.answer);
        case _ =>
      }
    }
  }

  /** What another chunk's step does not touch stays simulated. */
  lemma OtherStepKeepsSim(job: Job, t: Table, t': Table, ch: Chunk, s: P.State, b: string, users: set<UserId>)
    requires Sim(job, t, ch, s) && OnlyMine(t, t', b, users) && KeepsRows(t, t')
    requires job.broadcastId != b || Users(job) !! users
    requires P.Shape(SpecOf(job), s)
    ensures Sim(job, t', ch, s)
  {
    var mine := job.broadcastId;
    assert forall id, u | u in Users(job) :: IsRow(t', id, mine, u) <==> IsRow(t, id, mine, u);
    assert forall id, u | u in Users(job) && IsRow(t', id, mine, u) :: t'.rows[id] == t.rows[id];
    forall u | u in s.view ensures exists id :: IsRow(t', id, mine, u) {
      var id :| IsRow(t, id, mine, u);
      assert IsRow(t', id, mine, u);
    }
    if ch.pc.Listed? || ch.pc.Unpushed? || ch.pc.Pushed? || ch.pc.SentMarked? {
      forall u | u in s.pc.pending ensures exists id :: IsRow(t', id, mine, u) {
        var id :| IsRow(t, id, mine, u);
        assert IsRow(t', id, mine, u);
      }
    }
  }
}
