/**
 The notifications table and the repository in front of it. Every SQL statement
 is one atomic step, so each repository method is one assignment; the functions
 beside the class say what a statement does to the table as a value.
 */
module Inbox {
  import opened Wrappers

  type UserId = int

  datatype Status = Pending | Sent | Failed | Skipped

  /** The localized copy of one row. */
  datatype Content = Content(title: string, body: string)

  datatype NewRow = NewRow(recipient: UserId, content: Content, broadcastId: Option<string>, status: Status)

  /** `stamped` is true when `push_sent_at` is not null. */
  datatype Row = Row(recipient: UserId, content: Content, broadcastId: Option<string>, status: Status, stamped: bool)

  datatype Table = Table(rows: map<nat, Row>, nextId: nat)

  datatype InsertError = UniqueViolation

  predicate IsRow(t: Table, id: nat, b: string, u: UserId) {
    id in t.rows && t.rows[id].broadcastId == Some(b) && t.rows[id].recipient == u
  }

  ghost predicate IdsBelow(t: Table) {
    forall id | id in t.rows :: id < t.nextId
  }

  ghost predicate OneRowEach(t: Table) {
    forall i, j, b, u | IsRow(t, i, b, u) && IsRow(t, j, b, u) :: i == j
  }

  /** Primary key bound, the partial unique index, and no row but a SENT one stamped. */
  ghost predicate Valid(t: Table) {
    && IdsBelow(t) && OneRowEach(t)
    && (forall id | id in t.rows && t.rows[id].stamped :: t.rows[id].status == Sent)
  }

  /** Every SENT row is stamped: so as long as no row is inserted as SENT. */
  ghost predicate SentStamped(t: Table) {
    forall id | id in t.rows && t.rows[id].status == Sent :: t.rows[id].stamped
  }

  function Stored(n: NewRow): Row {
    Row(n.recipient, n.content, n.broadcastId, n.status, false)
  }

  predicate SameKey(a: NewRow, b: Option<string>, u: UserId) {
    a.broadcastId.Some? && a.broadcastId == b && a.recipient == u
  }

  /** The rows break the unique index, against the table or among themselves. */
  predicate Conflicts(t: Table, news: seq<NewRow>) {
    || (exists i, id | 0 <= i < |news| && id in t.rows :: SameKey(news[i], t.rows[id].broadcastId, t.rows[id].recipient))
    || (exists i, j | 0 <= i < j < |news| :: SameKey(news[i], news[j].broadcastId, news[j].recipient))
  }

  /** The serial ids handed to the rows of one insert. */
  predicate NewId(base: nat, count: nat, id: nat) {
    base <= id < base + count
  }

  function NewRows(base: nat, news: seq<NewRow>): map<nat, Row> {
    map id: nat | base <= id < base + |news| && NewId(base, |news|, id) :: Stored(news[id - base])
  }

  function Inserted(t: Table, news: seq<NewRow>): Table {
    Table(t.rows + NewRows(t.nextId, news), t.nextId + |news|)
  }

  function Existing(t: Table, b: string, users: set<UserId>): set<UserId> {
    set id | id in t.rows && t.rows[id].broadcastId == Some(b) && t.rows[id].recipient in users :: t.rows[id].recipient
  }

  function PendingRows(t: Table, b: string, users: set<UserId>): map<nat, UserId> {
    map id | id in t.rows && t.rows[id].broadcastId == Some(b) && t.rows[id].recipient in users && t.rows[id].status == Pending
      :: t.rows[id].recipient
  }

  function MarkedByIds(t: Table, ids: set<nat>, status: Status): Table {
    t.(rows := map id | id in t.rows ::
      if id in ids then t.rows[id].(status := status, stamped := status == Sent) else t.rows[id])
  }

  function PendingFailed(t: Table, b: string, users: set<UserId>): Table {
    t.(rows := map id | id in t.rows ::
      if t.rows[id].broadcastId == Some(b) && t.rows[id].recipient in users && t.rows[id].status == Pending
      then t.rows[id].(status := Failed) else t.rows[id])
  }

  class NotificationRepository {
    var rows: map<nat, Row>
    var nextId: nat

    ghost function Contents(): Table
      reads this
    {
      Table(rows, nextId)
    }

    constructor ()
      ensures Contents() == Table(map[], 0) && Valid(Contents())
    {
      rows, nextId := map[], 0;
    }

    /** All or nothing: a unique violation rejects the whole statement. */
    method BulkInsert(news: seq<NewRow>) returns (r: Result<nat, InsertError>)
      requires Valid(Contents())
      modifies this
      ensures Valid(Contents())
      ensures SentStamped(old(Contents())) && (forall n | n in news :: n.status != Sent) ==> SentStamped(Contents())
      ensures r.Err? <==> Conflicts(old(Contents()), news)
      ensures r.Err? ==> Contents() == old(Contents())
      ensures r.Ok? ==> Contents() == Inserted(old(Contents()), news) && r.value == |news|
    {
      if |news| == 0 {
        assert Inserted(Contents(), news) == Contents();
        return Ok(0);
      }
      if Conflicts(Table(rows, nextId), news) {
        return Err(UniqueViolation);
      }
      InsertKeepsValid(Contents(), news);
      if SentStamped(Contents()) && forall n | n in news :: n.status != Sent {
        InsertKeepsStamps(Contents(), news);
      }
      rows, nextId := rows + NewRows(nextId, news), nextId + |news|;
      r := Ok(|news|);
    }

    method FindExistingByBroadcast(b: string, users: set<UserId>) returns (found: set<UserId>)
      ensures forall u :: u in found <==> u in users && exists id :: IsRow(Contents(), id, b, u)
      ensures found == Existing(Contents(), b, users)
    {
      if users == {} {
        return {};
      }
      found := set id | id in rows && rows[id].broadcastId == Some(b) && rows[id].recipient in users :: rows[id].recipient;
      ghost var t := Contents();
      forall u ensures u in found <==> u in users && exists id :: IsRow(t, id, b, u) {
        if u in found {
          var id :| id in rows && rows[id].broadcastId == Some(b) && rows[id].recipient == u;
          assert IsRow(t, id, b, u);
        }
      }
    }

    method FindPendingByBroadcast(b: string, users: set<UserId>) returns (found: map<nat, UserId>)
      ensures found == PendingRows(Contents(), b, users)
    {
      if users == {} {
        return map[];
      }
      found := map id | id in rows && rows[id].broadcastId == Some(b) && rows[id].recipient in users && rows[id].status == Pending
        :: rows[id].recipient;
    }

    method MarkBroadcastPendingFailed(b: string, users: set<UserId>)
      requires Valid(Contents())
      modifies this`rows
      ensures Valid(Contents())
      ensures SentStamped(old(Contents())) ==> SentStamped(Contents())
      ensures Contents() == PendingFailed(old(Contents()), b, users)
    {
      MarksKeepValid(Contents(), {}, Failed, b, users);
      rows := PendingFailed(Table(rows, nextId), b, users).rows;
    }

    method MarkPushStatusByIds(ids: set<nat>, status: Status)
      requires Valid(Contents())
      modifies this`rows
      ensures Valid(Contents())
      ensures SentStamped(old(Contents())) ==> SentStamped(Contents())
      ensures Contents() == MarkedByIds(old(Contents()), ids, status)
    {
      MarksKeepValid(Contents(), ids, status, "", {});
      if ids == {} {
        assert MarkedByIds(Contents(), ids, status).rows == rows;
        return;
      }
      rows := MarkedByIds(Table(rows, nextId), ids, status).rows;
    }
  }

  /** After an insert a row is an old one, unchanged, or one of the new ones. */
  lemma InsertedRow(t: Table, news: seq<NewRow>, id: nat)
    requires IdsBelow(t)
    ensures var t' := Inserted(t, news);
      && (id in t.rows ==> id in t'.rows && t'.rows[id] == t.rows[id])
      && (id in t'.rows && id !in t.rows ==> t.nextId <= id < t'.nextId && t'.rows[id] == Stored(news[id - t.nextId]))
  {
    assert id < t.nextId ==> !NewId(t.nextId, |news|, id);
  }

  lemma InsertedNew(t: Table, news: seq<NewRow>, i: nat)
    requires i < |news|
    ensures var t' := Inserted(t, news); t.nextId + i in t'.rows && t'.rows[t.nextId + i] == Stored(news[i])
  {
    assert NewId(t.nextId, |news|, t.nextId + i);
  }

  /** Two rows of the table after an insert that share a key are one row. */
  lemma NewKeysDiffer(t: Table, news: seq<NewRow>, i: nat, j: nat, b: string, u: UserId)
    requires Valid(t) && !Conflicts(t, news)
    requires IsRow(Inserted(t, news), i, b, u) && IsRow(Inserted(t, news), j, b, u)
    ensures i == j
  {
    InsertedRow(t, news, i);
    InsertedRow(t, news, j);
    assert i in t.rows ==> IsRow(t, i, b, u);
    assert j in t.rows ==> IsRow(t, j, b, u);
  }

  /** An insert is rejected exactly when it would leave two rows for one (broadcast, recipient). */
  lemma ConflictsExactly(t: Table, news: seq<NewRow>)
    requires Valid(t)
    ensures Conflicts(t, news) <==> !OneRowEach(Inserted(t, news))
  {
    if Conflicts(t, news) {
      ConflictShows(t, news);
    } else {
      InsertKeepsValid(t, news);
    }
  }

  lemma ConflictShows(t: Table, news: seq<NewRow>)
    requires IdsBelow(t) && Conflicts(t, news)
    ensures !OneRowEach(Inserted(t, news))
  {
    var t' := Inserted(t, news);
    if i, id :| 0 <= i < |news| && id in t.rows && SameKey(news[i], t.rows[id].broadcastId, t.rows[id].recipient) {
      InsertedNew(t, news, i);
      InsertedRow(t, news, id);
      var b, u := news[i].broadcastId.value, news[i].recipient;
      assert IsRow(t', id, b, u) && IsRow(t', t.nextId + i, b, u) && id != t.nextId + i;
    } else {
      var i, j :| 0 <= i < j < |news| && SameKey(news[i], news[j].broadcastId, news[j].recipient);
      InsertedNew(t, news, i);
      InsertedNew(t, news, j);
      var b, u := news[i].broadcastId.value, news[i].recipient;
      assert IsRow(t', t.nextId + i, b, u) && IsRow(t', t.nextId + j, b, u);
    }
  }

  lemma InsertKeepsValid(t: Table, news: seq<NewRow>)
    requires Valid(t) && !Conflicts(t, news)
    ensures Valid(Inserted(t, news))
  {
    var t' := Inserted(t, news);
    forall i: nat, j: nat, b, u | IsRow(t', i, b, u) && IsRow(t', j, b, u) ensures i == j {
      NewKeysDiffer(t, news, i, j, b, u);
    }
    forall id: nat | id in t'.rows ensures id < t'.nextId && (t'.rows[id].stamped ==> t'.rows[id].status == Sent) {
      InsertedRow(t, news, id);
    }
  }

  lemma InsertKeepsStamps(t: Table, news: seq<NewRow>)
    requires IdsBelow(t) && SentStamped(t) && forall k | 0 <= k < |news| :: news[k].status != Sent
    ensures SentStamped(Inserted(t, news))
  {
    var t' := Inserted(t, news);
    forall id: nat | id in t'.rows && t'.rows[id].status == Sent ensures t'.rows[id].stamped {
      InsertedRow(t, news, id);
    }
  }

  lemma MarksKeepValid(t: Table, ids: set<nat>, status: Status, b: string, users: set<UserId>)
    requires Valid(t)
    ensures Valid(MarkedByIds(t, ids, status))
    ensures Valid(PendingFailed(t, b, users))
    ensures SentStamped(t) ==> SentStamped(MarkedByIds(t, ids, status)) && SentStamped(PendingFailed(t, b, users))
  {
    var t1, t2 := MarkedByIds(t, ids, status), PendingFailed(t, b, users);
    assert forall id, c, u :: IsRow(t1, id, c, u) <==> IsRow(t, id, c, u);
    assert forall id, c, u :: IsRow(t2, id, c, u) <==> IsRow(t, id, c, u);
  }
}
