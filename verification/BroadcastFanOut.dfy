/**
 A whole broadcast: the producer that cuts it into chunk jobs, and every
 interleaving of the chunk workers over the one notifications table.
 */
module BroadcastFanOut {
  import opened Arithmetic
  import opened Wrappers
  import opened Inbox
  import opened BroadcastWorker
  import opened BroadcastRefinement
  import P = ChunkProtocol

  // ----- the producer -----

  function Chunks(recipients: seq<Recipient>, chunkSize: nat): seq<seq<Recipient>>
    requires chunkSize > 0
  {
    if recipients == [] then []
    else if |recipients| <= chunkSize then [recipients]
    else [recipients[..chunkSize]] + Chunks(recipients[chunkSize..], chunkSize)
  }

  function Flatten(chunks: seq<seq<Recipient>>): seq<Recipient> {
    if chunks == [] then [] else chunks[0] + Flatten(chunks[1..])
  }

  /** Nothing lost, nothing reordered; every piece is full but possibly the last, and none is empty. */
  lemma {:induction false} ChunksCutTheList(recipients: seq<Recipient>, chunkSize: nat)
    requires chunkSize > 0
    ensures Flatten(Chunks(recipients, chunkSize)) == recipients
    ensures var chunks := Chunks(recipients, chunkSize);
      forall i | 0 <= i < |chunks| :: 0 < |chunks[i]| <= chunkSize && (i + 1 < |chunks| ==> |chunks[i]| == chunkSize)
  {
    var chunks := Chunks(recipients, chunkSize);
    if 0 < |recipients| <= chunkSize {
      assert Flatten(chunks) == recipients + Flatten([]);
    } else if recipients != [] {
      ChunksCutTheList(recipients[chunkSize..], chunkSize);
      assert chunks[1..] == Chunks(recipients[chunkSize..], chunkSize);
      assert recipients == recipients[..chunkSize] + recipients[chunkSize..];
    }
  }

  /** The number of jobs is the ceiling of n / chunkSize. */
  lemma {:induction false} ChunkCount(recipients: seq<Recipient>, chunkSize: nat)
    requires chunkSize > 0
    ensures |Chunks(recipients, chunkSize)| == (|recipients| + chunkSize - 1) / chunkSize
  {
    if recipients == [] {
      Quotient(chunkSize - 1, chunkSize, 0, chunkSize - 1);
    } else if |recipients| <= chunkSize {
      Quotient(|recipients| - 1, chunkSize, 0, |recipients| - 1);
      DivideOneMore(|recipients| - 1, chunkSize);
    } else {
      ChunkCount(recipients[chunkSize..], chunkSize);
      DivideOneMore(|recipients| - 1, chunkSize);
    }
  }

  lemma {:induction false} ChunkPosition(recipients: seq<Recipient>, chunkSize: nat, i: nat, k: nat)
    requires chunkSize > 0 && i < |Chunks(recipients, chunkSize)| && k < |Chunks(recipients, chunkSize)[i]|
    ensures i * chunkSize + k < |recipients| && Chunks(recipients, chunkSize)[i][k] == recipients[i * chunkSize + k]
    ensures k < chunkSize
  {
    if |recipients| > chunkSize && i > 0 {
      ChunkPosition(recipients[chunkSize..], chunkSize, i - 1, k);
      assert (i - 1) * chunkSize + chunkSize == i * chunkSize;
    }
  }

  /** The chunks still to come at position `i`. */
  function Rest(recipients: seq<Recipient>, i: nat, chunkSize: nat): seq<seq<Recipient>>
    requires chunkSize > 0
  {
    if i < |recipients| then Chunks(recipients[i..], chunkSize) else []
  }

  function Slice(recipients: seq<Recipient>, i: nat, chunkSize: nat): seq<Recipient>
    requires i < |recipients|
  {
    recipients[i..if i + chunkSize <= |recipients| then i + chunkSize else |recipients|]
  }

  lemma NextChunk(recipients: seq<Recipient>, i: nat, chunkSize: nat)
    requires chunkSize > 0 && i < |recipients|
    ensures Rest(recipients, i, chunkSize) == [Slice(recipients, i, chunkSize)] + Rest(recipients, i + chunkSize, chunkSize)
  {
    var rest := recipients[i..];
    if |rest| > chunkSize {
      assert rest[chunkSize..] == recipients[i + chunkSize..] && rest[..chunkSize] == Slice(recipients, i, chunkSize);
    } else {
      assert rest == Slice(recipients, i, chunkSize) && [rest] + [] == [rest];
    }
  }

  /** `done` are the chunks before position `i`. */
  ghost predicate CutSoFar(recipients: seq<Recipient>, done: seq<seq<Recipient>>, i: nat, chunkSize: nat)
    requires chunkSize > 0
  {
    done + Rest(recipients, i, chunkSize) == Chunks(recipients, chunkSize)
  }

  lemma OneMoreCut(recipients: seq<Recipient>, done: seq<seq<Recipient>>, i: nat, chunkSize: nat)
    requires chunkSize > 0 && i < |recipients| && CutSoFar(recipients, done, i, chunkSize)
    ensures CutSoFar(recipients, done + [Slice(recipients, i, chunkSize)], i + chunkSize, chunkSize)
  {
    NextChunk(recipients, i, chunkSize);
  }

  lemma CutAll(recipients: seq<Recipient>, done: seq<seq<Recipient>>, i: nat, chunkSize: nat)
    requires chunkSize > 0
    ensures CutSoFar(recipients, [], 0, chunkSize)
    ensures i >= |recipients| && CutSoFar(recipients, done, i, chunkSize) ==> done == Chunks(recipients, chunkSize)
  {
    assert recipients[0..] == recipients;
    assert [] + Rest(recipients, 0, chunkSize) == Rest(recipients, 0, chunkSize);
    assert done + [] == done;
  }

  lemma OneMoreJob(b: string, chunks: seq<seq<Recipient>>, slice: seq<Recipient>, title: LocalizedText, body: LocalizedText, attempts: nat)
    ensures JobsFor(b, chunks + [slice], title, body, attempts)
         == JobsFor(b, chunks, title, body, attempts) + [Job(b, slice, title, body, attempts)]
  {
  }

  class NotificationQueueService {
    var queue: seq<Job>

    constructor ()
      ensures queue == []
    {
      queue := [];
    }

    /** Pushes one job per chunk, in order; nothing is queued for an empty list. */
    method EnqueueBroadcast(broadcastId: string, recipients: seq<Recipient>, title: LocalizedText, body: LocalizedText,
                            attempts: nat, chunkSize: nat)
      returns (enqueued: nat, totalRecipients: nat)
      requires chunkSize > 0
      modifies this
      ensures totalRecipients == |recipients| && enqueued == |Chunks(recipients, chunkSize)|
      ensures queue == old(queue) + JobsFor(broadcastId, Chunks(recipients, chunkSize), title, body, attempts)
    {
      if |recipients| == 0 {
        return 0, 0;
      }
      var jobs := Cut(broadcastId, recipients, title, body, attempts, chunkSize);
      queue := queue + jobs;
      return |jobs|, |recipients|;
    }

    /** The chunking loop. */
    method Cut(broadcastId: string, recipients: seq<Recipient>, title: LocalizedText, body: LocalizedText, attempts: nat, chunkSize: nat)
      returns (jobs: seq<Job>)
      requires chunkSize > 0
      ensures jobs == JobsFor(broadcastId, Chunks(recipients, chunkSize), title, body, attempts)
    {
      jobs := [];
      var i := 0;
      ghost var done := [];
      CutAll(recipients, done, 0, chunkSize);
      while i < |recipients|
        invariant 0 <= i && jobs == JobsFor(broadcastId, done, title, body, attempts)
        invariant CutSoFar(recipients, done, i, chunkSize)
        decreases |recipients| - i
      {
        var slice := Slice(recipients, i, chunkSize);
        OneMoreCut(recipients, done, i, chunkSize);
        OneMoreJob(broadcastId, done, slice, title, body, attempts);
        jobs := jobs + [Job(broadcastId, slice, title, body, attempts)];
        done := done + [slice];
        i := i + chunkSize;
      }
      CutAll(recipients, done, i, chunkSize);
    }
  }

  function JobsFor(b: string, chunks: seq<seq<Recipient>>, title: LocalizedText, body: LocalizedText, attempts: nat): seq<Job> {
    seq(|chunks|, i requires 0 <= i < |chunks| => Job(b, chunks[i], title, body, attempts))
  }

  /** Jobs of one broadcast whose recipients are distinct, within and across chunks. */
  ghost predicate OneBroadcast(jobs: seq<Job>, b: string) {
    && (forall i | 0 <= i < |jobs| :: jobs[i].broadcastId == b && Distinct(jobs[i]))
    && (forall i, j | 0 <= i < j < |jobs| :: Users(jobs[i]) !! Users(jobs[j]))
  }

  lemma ProducerMakesOneBroadcast(b: string, recipients: seq<Recipient>, title: LocalizedText, body: LocalizedText,
                                  attempts: nat, chunkSize: nat)
    requires chunkSize > 0
    requires forall i, j | 0 <= i < j < |recipients| :: recipients[i].userId != recipients[j].userId
    ensures OneBroadcast(JobsFor(b, Chunks(recipients, chunkSize), title, body, attempts), b)
  {
    var chunks := Chunks(recipients, chunkSize);
    var jobs := JobsFor(b, chunks, title, body, attempts);
    forall i, x, y | 0 <= i < |jobs| && 0 <= x < y < |chunks[i]| ensures chunks[i][x].userId != chunks[i][y].userId {
      ChunkPosition(recipients, chunkSize, i, x);
      ChunkPosition(recipients, chunkSize, i, y);
    }
    forall i, j | 0 <= i < j < |jobs| ensures Users(jobs[i]) !! Users(jobs[j]) {
      ChunksApart(recipients, chunkSize, i, j);
    }
  }

  lemma ChunksApart(recipients: seq<Recipient>, chunkSize: nat, i: nat, j: nat)
    requires chunkSize > 0 && i < j < |Chunks(recipients, chunkSize)|
    requires forall i, j | 0 <= i < j < |recipients| :: recipients[i].userId != recipients[j].userId
    ensures forall r: Recipient, r': Recipient | r in Chunks(recipients, chunkSize)[i] && r' in Chunks(recipients, chunkSize)[j] :: r.userId != r'.userId
  {
    var chunks := Chunks(recipients, chunkSize);
    forall r: Recipient, r': Recipient | r in chunks[i] && r' in chunks[j] ensures r.userId != r'.userId {
      var x :| 0 <= x < |chunks[i]| && chunks[i][x] == r;
      var y :| 0 <= y < |chunks[j]| && chunks[j][y] == r';
      LaterChunk(recipients, chunkSize, i, x, j, y);
    }
  }

  lemma LaterChunk(recipients: seq<Recipient>, chunkSize: nat, i: nat, x: nat, j: nat, y: nat)
    requires chunkSize > 0 && i < j < |Chunks(recipients, chunkSize)|
    requires x < |Chunks(recipients, chunkSize)[i]| && y < |Chunks(recipients, chunkSize)[j]|
    requires forall i, j | 0 <= i < j < |recipients| :: recipients[i].userId != recipients[j].userId
    ensures Chunks(recipients, chunkSize)[i][x].userId != Chunks(recipients, chunkSize)[j][y].userId
  {
    ChunkPosition(recipients, chunkSize, i, x);
    ChunkPosition(recipients, chunkSize, j, y);
    Before(i, j, chunkSize);
  }

  // ----- the interleaved workers -----

  datatype Event = Event(chunk: nat, action: P.Action)

  datatype World = World(table: Table, chunks: seq<Chunk>)

  function StepWorld(jobs: seq<Job>, w: World, e: Event): World {
    if e.chunk < |jobs| && e.chunk < |w.chunks| then
      var n := Step(jobs[e.chunk], w.table, w.chunks[e.chunk], e.action);
      World(n.0, w.chunks[e.chunk := n.1])
    else w
  }

  function RunWorld(jobs: seq<Job>, w: World, events: Trace<Event>): World {
    match events
    case Start => w
    case Then(before, e) => StepWorld(jobs, RunWorld(jobs, w, before), e)
  }

  /** What chunk `c` itself does in a run. */
  function Own(events: Trace<Event>, c: nat): Trace<P.Action> {
    match events
    case Start => Start
    case Then(before, e) => if e.chunk == c then Then(Own(before, c), e.action) else Own(before, c)
  }

  /** All chunks waiting, and no row of this broadcast yet; other rows are arbitrary. */
  ghost predicate Initial(jobs: seq<Job>, b: string, w: World) {
    && Valid(w.table) && OneBroadcast(jobs, b) && |w.chunks| == |jobs|
    && (forall id | id in w.table.rows :: w.table.rows[id].broadcastId != Some(b))
    && (forall c | 0 <= c < |jobs| :: w.chunks[c] == Chunk(Idle, 0, multiset{}, 0))
  }

  ghost function Protocol(jobs: seq<Job>, events: Trace<Event>, c: nat): P.State
    requires c < |jobs|
  {
    P.Run(SpecOf(jobs[c]), P.Waiting(map[]), Own(events, c))
  }

  ghost predicate WorldSim(jobs: seq<Job>, w: World, events: Trace<Event>) {
    && Valid(w.table) && |w.chunks| == |jobs|
    && forall c | 0 <= c < |jobs| :: Sim(jobs[c], w.table, w.chunks[c], Protocol(jobs, events, c))
  }

  /** Only this broadcast's recipients were touched. */
  ghost predicate Framed(jobs: seq<Job>, b: string, t0: Table, t: Table) {
    && (forall id | id in t0.rows :: id in t.rows && t.rows[id] == t0.rows[id])
    && (forall id | id in t.rows && id !in t0.rows ::
          t.rows[id].broadcastId == Some(b) && exists c :: 0 <= c < |jobs| && t.rows[id].recipient in Users(jobs[c]))
  }

  lemma ProtocolInv(jobs: seq<Job>, events: Trace<Event>, c: nat)
    requires c < |jobs|
    ensures P.Inv(SpecOf(jobs[c]), Protocol(jobs, events, c))
  {
    SpecWellFormed(jobs[c]);
    P.WaitingInv(SpecOf(jobs[c]));
    P.RunKeepsInv(SpecOf(jobs[c]), P.Waiting(map[]), Own(events, c));
  }

  lemma {:induction false} EveryRunRefines(jobs: seq<Job>, b: string, w: World, events: Trace<Event>)
    requires Initial(jobs, b, w)
    ensures WorldSim(jobs, RunWorld(jobs, w, events), events)
    ensures Framed(jobs, b, w.table, RunWorld(jobs, w, events).table)
  {
    if events.Then? {
      EveryRunRefines(jobs, b, w, events.before);
      OneMoreEvent(jobs, b, w.table, RunWorld(jobs, w, events.before), events.before, events.event);
    }
  }

  lemma OneMoreEvent(jobs: seq<Job>, b: string, t0: Table, w: World, past: Trace<Event>, e: Event)
    requires OneBroadcast(jobs, b) && WorldSim(jobs, w, past) && Framed(jobs, b, t0, w.table)
    requires forall id | id in t0.rows :: t0.rows[id].broadcastId != Some(b)
    ensures WorldSim(jobs, StepWorld(jobs, w, e), Then(past, e))
    ensures Framed(jobs, b, t0, StepWorld(jobs, w, e).table)
  {
    if e.chunk < |jobs| {
      var job := jobs[e.chunk];
      ProtocolInv(jobs, past, e.chunk);
      StepRefines(job, w.table, w.chunks[e.chunk], Protocol(jobs, past, e.chunk), e.action);
      var w' := StepWorld(jobs, w, e);
      forall c | 0 <= c < |jobs| ensures Sim(jobs[c], w'.table, w'.chunks[c], Protocol(jobs, Then(past, e), c)) {
        if c != e.chunk {
          ProtocolInv(jobs, past, c);
          OtherStepKeepsSim(jobs[c], w.table, w'.table, w.chunks[c], Protocol(jobs, past, c), b, Users(job));
        }
      }
    }
  }

  // ----- main results for a broadcast -----

  /** Inbox rows of a broadcast without ids and timestamps. */
  function InboxOf(t: Table, b: string): set<(UserId, P.Entry)> {
    set id | id in t.rows && t.rows[id].broadcastId == Some(b) ::
      (t.rows[id].recipient, P.Entry(t.rows[id].content, t.rows[id].status))
  }

  lemma InboxIsViews(jobs: seq<Job>, b: string, w: World, events: Trace<Event>, x: (UserId, P.Entry))
    requires Initial(jobs, b, w)
    ensures x in InboxOf(RunWorld(jobs, w, events).table, b) <==>
      exists c :: 0 <= c < |jobs| && x.0 in Protocol(jobs, events, c).view && Protocol(jobs, events, c).view[x.0] == x.1
  {
    EveryRunRefines(jobs, b, w, events);
    var t := RunWorld(jobs, w, events).table;
    if x in InboxOf(t, b) {
      var id :| id in t.rows && t.rows[id].broadcastId == Some(b) && x == (t.rows[id].recipient, P.Entry(t.rows[id].content, t.rows[id].status));
      assert IsRow(t, id, b, x.0);
    }
    if c :| 0 <= c < |jobs| && x.0 in Protocol(jobs, events, c).view && Protocol(jobs, events, c).view[x.0] == x.1 {
      var id :| IsRow(t, id, b, x.0);
    }
  }

  /** The inbox depends only on what each chunk did by itself, not on how the chunks interleaved. */
  lemma InterleavingDoesNotMatter(jobs: seq<Job>, b: string, w: World, events: Trace<Event>, other: Trace<Event>)
    requires Initial(jobs, b, w)
    requires forall c | 0 <= c < |jobs| :: Own(events, c) == Own(other, c)
    ensures InboxOf(RunWorld(jobs, w, events).table, b) == InboxOf(RunWorld(jobs, w, other).table, b)
  {
    forall x ensures x in InboxOf(RunWorld(jobs, w, events).table, b) <==> x in InboxOf(RunWorld(jobs, w, other).table, b) {
      InboxIsViews(jobs, b, w, events, x);
      InboxIsViews(jobs, b, w, other, x);
      assert forall c | 0 <= c < |jobs| :: Protocol(jobs, events, c) == Protocol(jobs, other, c);
    }
  }

  function Tagged(actions: Trace<P.Action>, c: nat): Trace<Event> {
    match actions
    case Start => Start
    case Then(before, a) => Then(Tagged(before, c), Event(c, a))
  }

  /** The same chunk runs one after another. */
  function ChunkByChunk(events: Trace<Event>, n: nat): Trace<Event> {
    if n == 0 then Start else Join(ChunkByChunk(events, n - 1), Tagged(Own(events, n - 1), n - 1))
  }

  lemma {:induction false} OwnOfJoin(xs: Trace<Event>, ys: Trace<Event>, c: nat)
    ensures Own(Join(xs, ys), c) == Join(Own(xs, c), Own(ys, c))
  {
    if ys.Then? {
      OwnOfJoin(xs, ys.before, c);
    }
  }

  lemma {:induction false} OwnOfTagged(actions: Trace<P.Action>, c: nat, d: nat)
    ensures Own(Tagged(actions, c), d) == if c == d then actions else Start
  {
    if actions.Then? {
      OwnOfTagged(actions.before, c, d);
    }
  }

  lemma {:induction false} JoinStart<T>(xs: Trace<T>)
    ensures Join(Start, xs) == xs
  {
    if xs.Then? {
      JoinStart(xs.before);
    }
  }

  lemma {:induction false} OwnOfChunkByChunk(events: Trace<Event>, n: nat, c: nat)
    ensures Own(ChunkByChunk(events, n), c) == if c < n then Own(events, c) else Start
  {
    if n > 0 {
      OwnOfChunkByChunk(events, n - 1, c);
      OwnOfTagged(Own(events, n - 1), n - 1, c);
      OwnOfJoin(ChunkByChunk(events, n - 1), Tagged(Own(events, n - 1), n - 1), c);
      JoinStart(Own(events, c));
    }
  }

  /** Every interleaving of the chunk workers ends in the inbox of running the chunks one after another. */
  lemma InterleavedEqualsSequential(jobs: seq<Job>, b: string, w: World, events: Trace<Event>)
    requires Initial(jobs, b, w)
    ensures InboxOf(RunWorld(jobs, w, events).table, b)
         == InboxOf(RunWorld(jobs, w, ChunkByChunk(events, |jobs|)).table, b)
  {
    forall c | 0 <= c < |jobs| ensures Own(events, c) == Own(ChunkByChunk(events, |jobs|), c) {
      OwnOfChunkByChunk(events, |jobs|, c);
    }
    InterleavingDoesNotMatter(jobs, b, w, events, ChunkByChunk(events, |jobs|));
  }

  /** In every interleaving: deliveries per recipient against the attempts lost before the SENT mark. */
  lemma PushesInEveryRun(jobs: seq<Job>, b: string, w: World, events: Trace<Event>, c: nat, u: UserId)
    requires Initial(jobs, b, w) && c < |jobs|
    ensures var w' := RunWorld(jobs, w, events); |w'.chunks| == |jobs|
    ensures var w' := RunWorld(jobs, w, events);
      && w'.chunks[c].pushes[u] <= w'.chunks[c].lost + 1
      && (w'.chunks[c].lost == 0 ==> w'.chunks[c].pushes[u] <= 1)
      && (forall id | IsRow(w'.table, id, b, u) && u in Users(jobs[c]) && w'.table.rows[id].status == Sent ::
            w'.chunks[c].pushes[u] >= 1)
  {
    EveryRunRefines(jobs, b, w, events);
    SpecWellFormed(jobs[c]);
    P.PushBound(SpecOf(jobs[c]), Own(events, c), u);
  }

  /** The row of a finished recipient: SENT only with a push alias, SKIPPED otherwise allowed. */
  predicate FinalRow(t: Table, id: nat, b: string, u: UserId, aliased: set<UserId>) {
    IsRow(t, id, b, u) && (t.rows[id].status == Skipped || (t.rows[id].status == Sent && u in aliased))
  }

  /** In every interleaving: one row per (broadcast, recipient), nothing else in the table moves, and what a finished chunk leaves. */
  lemma RowsInEveryRun(jobs: seq<Job>, b: string, w: World, events: Trace<Event>, c: nat)
    requires Initial(jobs, b, w) && c < |jobs|
    ensures var w' := RunWorld(jobs, w, events); |w'.chunks| == |jobs|
    ensures var w' := RunWorld(jobs, w, events);
      && Framed(jobs, b, w.table, w'.table)
      && (forall i, j, d, u | IsRow(w'.table, i, d, u) && IsRow(w'.table, j, d, u) :: i == j)
      && (forall id, u | u in Users(jobs[c]) && IsRow(w'.table, id, b, u) :: w'.table.rows[id].content == ContentFor(jobs[c], u))
      && (w'.chunks[c].pc.Done? ==>
            forall u | u in Users(jobs[c]) :: exists id :: FinalRow(w'.table, id, b, u, Aliased(jobs[c])))
      && (w'.chunks[c].pc == Closed(true) ==>
            forall id, u | u in Users(jobs[c]) && IsRow(w'.table, id, b, u) :: w'.table.rows[id].status != Pending)
  {
    EveryRunRefines(jobs, b, w, events);
    SpecWellFormed(jobs[c]);
    P.Outcome(SpecOf(jobs[c]), Own(events, c));
    var w', s := RunWorld(jobs, w, events), Protocol(jobs, events, c);
    assert Sim(jobs[c], w'.table, w'.chunks[c], s);
    if w'.chunks[c].pc.Done? {
      forall u | u in Users(jobs[c])
        ensures exists id :: FinalRow(w'.table, id, b, u, Aliased(jobs[c]))
      {
        assert u in s.view;
        var id :| IsRow(w'.table, id, b, u);
        assert FinalRow(w'.table, id, b, u, Aliased(jobs[c]));
      }
    }
  }

  /** In every run each row has its recipient's copy: title and body in the recipient's locale, by default where there is none. */
  lemma CopyInEveryRun(jobs: seq<Job>, b: string, w: World, events: Trace<Event>, c: nat, r: Recipient, id: nat)
    requires Initial(jobs, b, w) && c < |jobs| && r in jobs[c].recipients
    requires IsRow(RunWorld(jobs, w, events).table, id, b, r.userId)
    ensures var row, job := RunWorld(jobs, w, events).table.rows[id], jobs[c];
      && row.content.title == (if r.locale in job.title.byLocale then job.title.byLocale[r.locale] else job.title.text)
      && row.content.body == (if r.locale in job.body.byLocale then job.body.byLocale[r.locale] else job.body.text)
  {
    assert r.userId in Users(jobs[c]);
    RowsInEveryRun(jobs, b, w, events, c);
    ContentUnique(jobs[c], r);
  }

  /** The table before a broadcast, with a worker waiting for each of its jobs. */
  ghost predicate Fresh(jobs: seq<Job>, b: string, w: World) {
    && Valid(w.table) && |w.chunks| == |jobs|
    && (forall id | id in w.table.rows :: w.table.rows[id].broadcastId != Some(b))
    && (forall c | 0 <= c < |jobs| :: w.chunks[c] == Chunk(Idle, 0, multiset{}, 0))
  }

  /**
   From the call of the producer to the inbox: in every run of the queued jobs every recipient's row has the
   recipient's copy of the given title and body, no attempt beyond the given number is made, and once all
   jobs are done every recipient has its row, SENT or SKIPPED.
   */
  lemma BroadcastEndToEnd(b: string, recipients: seq<Recipient>, title: LocalizedText, body: LocalizedText, attempts: nat,
                          chunkSize: nat, w: World, events: Trace<Event>, r: Recipient)
    requires chunkSize > 0 && r in recipients
    requires forall i, j | 0 <= i < j < |recipients| :: recipients[i].userId != recipients[j].userId
    requires Fresh(JobsFor(b, Chunks(recipients, chunkSize), title, body, attempts), b, w)
    ensures var w' := RunWorld(JobsFor(b, Chunks(recipients, chunkSize), title, body, attempts), w, events);
      && (forall id | IsRow(w'.table, id, b, r.userId) ::
            && w'.table.rows[id].content.title == (if r.locale in title.byLocale then title.byLocale[r.locale] else title.text)
            && w'.table.rows[id].content.body == (if r.locale in body.byLocale then body.byLocale[r.locale] else body.text))
      && (forall ch | ch in w'.chunks :: ch.made <= if attempts == 0 then 1 else attempts)
      && ((forall ch | ch in w'.chunks :: ch.pc.Done?) ==>
            exists id :: IsRow(w'.table, id, b, r.userId) && w'.table.rows[id].status in {Sent, Skipped})
  {
    var jobs := JobsFor(b, Chunks(recipients, chunkSize), title, body, attempts);
    var w' := RunWorld(jobs, w, events);
    ProducerMakesOneBroadcast(b, recipients, title, body, attempts, chunkSize);
    EveryRunRefines(jobs, b, w, events);
    var c := ChunkOf(recipients, chunkSize, r);
    assert r in jobs[c].recipients && r.userId in Users(jobs[c]);
    forall id | IsRow(w'.table, id, b, r.userId)
      ensures w'.table.rows[id].content.title == (if r.locale in title.byLocale then title.byLocale[r.locale] else title.text)
      ensures w'.table.rows[id].content.body == (if r.locale in body.byLocale then body.byLocale[r.locale] else body.text)
    {
      CopyInEveryRun(jobs, b, w, events, c, r, id);
    }
    forall d | 0 <= d < |jobs| ensures w'.chunks[d].made <= if attempts == 0 then 1 else attempts {
      SpecWellFormed(jobs[d]);
      P.Outcome(SpecOf(jobs[d]), Own(events, d));
    }
    if forall ch | ch in w'.chunks :: ch.pc.Done? {
      RowsInEveryRun(jobs, b, w, events, c);
      assert w'.chunks[c] in w'.chunks;
      var id :| FinalRow(w'.table, id, b, r.userId, Aliased(jobs[c]));
    }
  }

  /** Every recipient is in some chunk. */
  lemma {:induction false} ChunkOf(recipients: seq<Recipient>, chunkSize: nat, r: Recipient) returns (c: nat)
    requires chunkSize > 0 && r in recipients
    ensures c < |Chunks(recipients, chunkSize)| && r in Chunks(recipients, chunkSize)[c]
  {
    c := 0;
    if |recipients| > chunkSize && r !in recipients[..chunkSize] {
      assert recipients == recipients[..chunkSize] + recipients[chunkSize..];
      var d := ChunkOf(recipients[chunkSize..], chunkSize, r);
      c := d + 1;
    }
  }

  lemma {:induction false} RowsAreKept(jobs: seq<Job>, b: string, w: World, events: Trace<Event>, more: Trace<Event>)
    requires Initial(jobs, b, w)
    ensures KeepsRows(RunWorld(jobs, w, events).table, RunWorld(jobs, w, Join(events, more)).table)
  {
    if more.Then? {
      RowsAreKept(jobs, b, w, events, more.before);
      var past := Join(events, more.before);
      EveryRunRefines(jobs, b, w, past);
      var e, w' := more.event, RunWorld(jobs, w, past);
      if e.chunk < |jobs| {
        ProtocolInv(jobs, past, e.chunk);
        StepRefines(jobs[e.chunk], w'.table, w'.chunks[e.chunk], Protocol(jobs, past, e.chunk), e.action);
      }
    }
  }

  /** SENT rows of the broadcast carry their send time. */
  ghost predicate StampedIn(t: Table, b: string) {
    forall id | id in t.rows && t.rows[id].broadcastId == Some(b) && t.rows[id].status == Sent :: t.rows[id].stamped
  }

  lemma StepKeepsStamps(job: Job, t: Table, ch: Chunk, a: P.Action)
    requires IdsBelow(t) && StampedIn(t, job.broadcastId)
    requires ch.pc.Filtered? ==> forall n | n in ch.pc.toInsert :: n.status == Pending
    ensures StampedIn(Step(job, t, ch, a).0, job.broadcastId)
  {
    var t' := Step(job, t, ch, a).0;
    if ch.pc.Filtered? && a.Go? && !Conflicts(t, ch.pc.toInsert) {
      forall id | id in t'.rows && id !in t.rows ensures t'.rows[id].status == Pending {
        InsertedRow(t, ch.pc.toInsert, id);
        assert ch.pc.toInsert[id - t.nextId] in ch.pc.toInsert;
      }
    }
  }

  lemma {:induction false} EveryRunStamps(jobs: seq<Job>, b: string, w: World, events: Trace<Event>)
    requires Initial(jobs, b, w)
    ensures StampedIn(RunWorld(jobs, w, events).table, b)
  {
    if events.Then? {
      EveryRunStamps(jobs, b, w, events.before);
      EveryRunRefines(jobs, b, w, events.before);
      var w', e := RunWorld(jobs, w, events.before), events.event;
      if e.chunk < |jobs| {
        assert Sim(jobs[e.chunk], w'.table, w'.chunks[e.chunk], Protocol(jobs, events.before, e.chunk));
        StepKeepsStamps(jobs[e.chunk], w'.table, w'.chunks[e.chunk], e.action);
      }
    }
  }

  /** The view of a settled recipient is the same in every later state of its chunk. */
  lemma SettledViewsStay(jobs: seq<Job>, events: Trace<Event>, more: Trace<Event>, c: nat, u: UserId)
    requires c < |jobs| && P.Settled(Protocol(jobs, events, c), u)
    ensures var s, s' := Protocol(jobs, events, c), Protocol(jobs, Join(events, more), c);
      P.Settled(s', u) && s'.view[u] == s.view[u]
  {
    SpecWellFormed(jobs[c]);
    ProtocolInv(jobs, events, c);
    OwnOfJoin(events, more, c);
    P.RunJoin(SpecOf(jobs[c]), P.Waiting(map[]), Own(events, c), Own(more, c));
    P.RunKeepsSettled(SpecOf(jobs[c]), Protocol(jobs, events, c), Own(more, c), u);
  }

  /** In every interleaving a row that left PENDING is never changed again, whatever runs later. */
  lemma SettledRowsStay(jobs: seq<Job>, b: string, w: World, events: Trace<Event>, more: Trace<Event>, id: nat)
    requires Initial(jobs, b, w)
    requires var t := RunWorld(jobs, w, events).table; id in t.rows && t.rows[id].broadcastId == Some(b) && t.rows[id].status != Pending
    ensures var t := RunWorld(jobs, w, events).table; var t' := RunWorld(jobs, w, Join(events, more)).table;
      id in t'.rows && t'.rows[id] == t.rows[id]
  {
    EveryRunRefines(jobs, b, w, events);
    EveryRunRefines(jobs, b, w, Join(events, more));
    EveryRunStamps(jobs, b, w, events);
    EveryRunStamps(jobs, b, w, Join(events, more));
    RowsAreKept(jobs, b, w, events, more);
    var t, t' := RunWorld(jobs, w, events).table, RunWorld(jobs, w, Join(events, more)).table;
    var u := t.rows[id].recipient;
    assert IsRow(t, id, b, u) && IsRow(t', id, b, u);
    var c :| 0 <= c < |jobs| && u in Users(jobs[c]);
    SettledViewsStay(jobs, events, more, c, u);
  }

  // ----- outside the assumption: overlapping attempts -----

  /** The mark by id leaves every settled row alone exactly when it names no row settled differently. */
  lemma MarkByIdsSparesSettledIff(t: Table, ids: set<nat>, status: Status)
    requires Valid(t) && SentStamped(t)
    ensures (forall id | id in t.rows && t.rows[id].status != Pending :: MarkedByIds(t, ids, status).rows[id] == t.rows[id])
        <==> (forall id | id in ids && id in t.rows :: t.rows[id].status == Pending || t.rows[id].status == status)
  {
    var t' := MarkedByIds(t, ids, status);
    if forall id | id in t.rows && t.rows[id].status != Pending :: t'.rows[id] == t.rows[id] {
      forall id | id in ids && id in t.rows ensures t.rows[id].status == Pending || t.rows[id].status == status {
        assert t'.rows[id].status == status;
      }
    }
  }
}
