/**
 The retry protocol of one broadcast chunk, without row ids: what an attempt
 knows about recipients between two awaits, and what each atomic statement, push
 or fault does. Attempts on one chunk never overlap; a fault may stop an attempt
 at any await, before or after the statement there committed.
 */
module ChunkProtocol {
  import opened Wrappers
  import opened Inbox

  /** Users of the chunk, those with a push alias, the copy for each, and the attempt budget. */
  datatype Spec = Spec(users: set<UserId>, aliased: set<UserId>, content: map<UserId, Content>, attempts: nat)

  datatype Entry = Entry(content: Content, status: Status)

  datatype Answer = Delivered | ProviderSkipped | NotDelivered

  datatype Action = Go(answer: Answer) | Stop

  datatype Pc =
    | Idle                                // waiting in the queue
    | Filtered(missing: set<UserId>)      // existing rows read
    | Stored                              // missing rows inserted
    | Listed(pending: set<UserId>)        // pending rows read
    | Unpushed(pending: set<UserId>)      // provider skipped the send
    | Pushed(pending: set<UserId>)        // provider delivered, nothing marked yet
    | SentMarked(pending: set<UserId>)    // SENT committed
    | Returning(pushed: bool)             // last mark committed, completion not recorded
    | Done(pushed: bool)
    | Exhausted                           // last attempt failed, terminal step still to run
    | Closed(marked: bool)

  /** `pushes` counts delivered pushes per user; `lost` the attempts stopped between delivery and the SENT mark. */
  datatype State = State(pc: Pc, made: nat, view: map<UserId, Entry>, pushes: multiset<UserId>, lost: nat)

  function Waiting(view: map<UserId, Entry>): State {
    State(Idle, 0, view, multiset{}, 0)
  }

  function PendingIn(view: map<UserId, Entry>): set<UserId> {
    set u | u in view && view[u].status == Pending
  }

  function Mark(view: map<UserId, Entry>, users: set<UserId>, status: Status): map<UserId, Entry> {
    map u | u in view :: if u in users then view[u].(status := status) else view[u]
  }

  function Fresh(c: Spec, missing: set<UserId>): map<UserId, Entry> {
    map u | u in missing && u in c.content :: Entry(c.content[u], Pending)
  }

  function Fail(c: Spec, s: State): State {
    s.(made := s.made + 1,
       pc := if s.made + 1 >= c.attempts then Exhausted else Idle,
       lost := if s.pc.Pushed? then s.lost + 1 else s.lost)
  }

  function Step(c: Spec, s: State, a: Action): State {
    match a
    case Stop => (
      match s.pc
      case Done(_) => s
      case Closed(_) => s
      case Exhausted => s.(pc := Closed(false))
      case _ => Fail(c, s)
    )
    case Go(answer) => (
      match s.pc
      case Idle => s.(pc := Filtered(c.users - s.view.Keys))
      case Filtered(missing) => s.(pc := Stored, view := s.view + Fresh(c, missing))
      case Stored => s.(pc := Listed(PendingIn(s.view)))
      case Listed(pending) => (
        if pending * c.aliased == {} then
          s.(pc := Returning(false), view := Mark(s.view, pending, Skipped))
        else match answer
          case Delivered => s.(pc := Pushed(pending), pushes := s.pushes + multiset(pending * c.aliased))
          case ProviderSkipped => s.(pc := Unpushed(pending))
          case NotDelivered => Fail(c, s)
      )
      case Unpushed(pending) => s.(pc := Returning(false), view := Mark(s.view, pending, Skipped))
      case Pushed(pending) => s.(pc := SentMarked(pending), view := Mark(s.view, pending * c.aliased, Sent))
      case SentMarked(pending) => s.(pc := Returning(true), view := Mark(s.view, pending - c.aliased, Skipped))
      case Returning(pushed) => s.(pc := Done(pushed))
      case Exhausted => s.(pc := Closed(true), view := Mark(s.view, PendingIn(s.view), Failed))
      case Done(_) => s
      case Closed(_) => s
    )
  }

  function Run(c: Spec, s: State, actions: Trace<Action>): State {
    match actions
    case Start => s
    case Then(before, a) => Step(c, Run(c, s, before), a)
  }

  lemma {:induction false} RunJoin(c: Spec, s: State, xs: Trace<Action>, ys: Trace<Action>)
    ensures Run(c, s, Join(xs, ys)) == Run(c, Run(c, s, xs), ys)
  {
    if ys.Then? {
      RunJoin(c, s, xs, ys.before);
    }
  }

  // ----- what every step keeps -----

  predicate Settled(s: State, u: UserId) {
    u in s.view && s.view[u].status != Pending
  }

  predicate IsSent(s: State, u: UserId) {
    u in s.view && s.view[u].status == Sent
  }

  /** The users the provider has been handed in the current attempt, not yet marked. */
  function InFlight(c: Spec, s: State): set<UserId> {
    if s.pc.Pushed? then s.pc.pending * c.aliased else {}
  }

  function Credit(c: Spec, s: State, u: UserId): nat {
    if IsSent(s, u) || u in InFlight(c, s) then 1 else 0
  }

  ghost predicate Shape(c: Spec, s: State) {
    && s.view.Keys <= c.users
    && (forall u | u in s.view :: u in c.content && s.view[u].content == c.content[u])
    && (forall u | u in s.view :: s.view[u].status == Failed ==> s.pc.Closed?)
    && match s.pc
       case Filtered(missing) => missing == c.users - s.view.Keys
       case Stored => s.view.Keys == c.users
       case Listed(pending) => s.view.Keys == c.users && pending == PendingIn(s.view)
       case Unpushed(pending) => s.view.Keys == c.users && pending == PendingIn(s.view)
       case Pushed(pending) => s.view.Keys == c.users && pending == PendingIn(s.view)
       case SentMarked(pending) => s.view.Keys == c.users && PendingIn(s.view) == pending - c.aliased
       case Returning(_) => s.view.Keys == c.users && PendingIn(s.view) == {}
       case Done(_) => s.view.Keys == c.users && PendingIn(s.view) == {}
       case Closed(marked) => marked ==> PendingIn(s.view) == {}
       case _ => true
  }

  ghost predicate Budget(c: Spec, s: State) {
    if s.pc.Exhausted? || s.pc.Closed? then
      s.made == if c.attempts == 0 then 1 else c.attempts
    else
      s.made < if c.attempts == 0 then 1 else c.attempts
  }

  predicate CountedFor(c: Spec, s: State, u: UserId) {
    && Credit(c, s, u) <= s.pushes[u] <= s.lost + Credit(c, s, u)
    && (s.pushes[u] > 0 ==> u in c.users && u in c.aliased)
  }

  ghost predicate Counted(c: Spec, s: State) {
    forall u :: CountedFor(c, s, u)
  }

  ghost predicate WellFormed(c: Spec) {
    c.content.Keys == c.users
  }

  ghost predicate Inv(c: Spec, s: State) {
    Shape(c, s) && Budget(c, s) && Counted(c, s)
  }

  lemma StopKeepsShape(c: Spec, s: State)
    requires Shape(c, s)
    ensures Shape(c, Step(c, s, Stop))
  {
  }

  lemma GoKeepsShape(c: Spec, s: State, answer: Answer)
    requires WellFormed(c) && Shape(c, s)
    ensures Shape(c, Step(c, s, Go(answer)))
  {
    var s' := Step(c, s, Go(answer));
    if s.pc.SentMarked? {
      assert PendingIn(s'.view) == PendingIn(s.view) - (s.pc.pending - c.aliased);
    }
  }

  lemma StepKeepsBudget(c: Spec, s: State, a: Action)
    requires Budget(c, s)
    ensures Budget(c, Step(c, s, a))
  {
  }

  lemma StepKeepsShape(c: Spec, s: State, a: Action)
    requires WellFormed(c) && Shape(c, s) && Budget(c, s)
    ensures Shape(c, Step(c, s, a)) && Budget(c, Step(c, s, a))
  {
    StepKeepsBudget(c, s, a);
    match a
    case Stop => StopKeepsShape(c, s);
    case Go(answer) => GoKeepsShape(c, s, answer);
  }

  /** A recipient whose row left PENDING never changes again. */
  lemma StepKeepsSettled(c: Spec, s: State, a: Action, u: UserId)
    requires WellFormed(c) && Shape(c, s) && Settled(s, u)
    ensures Settled(Step(c, s, a), u) && Step(c, s, a).view[u] == s.view[u]
  {
  }

  lemma StepKeepsCounted(c: Spec, s: State, a: Action, u: UserId)
    requires WellFormed(c) && Shape(c, s) && CountedFor(c, s, u)
    ensures CountedFor(c, Step(c, s, a), u)
  {
    if s.pc.Listed? && u in s.pc.pending {
      assert s.view[u].status == Pending;
    }
  }

  lemma {:induction false} RunKeepsInv(c: Spec, s: State, actions: Trace<Action>)
    requires WellFormed(c) && Inv(c, s)
    ensures Inv(c, Run(c, s, actions))
  {
    if actions.Then? {
      var before := actions.before;
      RunKeepsInv(c, s, before);
      StepKeepsShape(c, Run(c, s, before), actions.event);
      forall u ensures CountedFor(c, Run(c, s, actions), u) {
        StepKeepsCounted(c, Run(c, s, before), actions.event, u);
      }
    }
  }

  lemma {:induction false} RunKeepsSettled(c: Spec, s: State, actions: Trace<Action>, u: UserId)
    requires WellFormed(c) && Inv(c, s) && Settled(s, u)
    ensures Settled(Run(c, s, actions), u) && Run(c, s, actions).view[u] == s.view[u]
  {
    if actions.Then? {
      var before := actions.before;
      RunKeepsSettled(c, s, before, u);
      RunKeepsInv(c, s, before);
      StepKeepsSettled(c, Run(c, s, before), actions.event, u);
    }
  }

  /** A loss is a stop between delivery and the SENT mark, a push an answer that delivers to the listed, and a failed attempt costs one of the budget. */
  lemma WhatCounts(c: Spec, s: State, a: Action)
    ensures var s' := Step(c, s, a);
      && s'.lost == s.lost + (if s.pc.Pushed? && a.Stop? then 1 else 0)
      && (s'.pushes == s.pushes || (s.pc.Listed? && a == Go(Delivered) && s'.pushes == s.pushes + multiset(s.pc.pending * c.aliased)))
      && s.made <= s'.made <= s.made + 1 && (s'.made > s.made ==> a.Stop? || a == Go(NotDelivered))
  {
  }

  lemma WaitingInv(c: Spec)
    requires WellFormed(c)
    ensures Inv(c, Waiting(map[]))
  {
  }

  // ----- main results for one chunk -----

  /** A recipient is pushed at most once per attempt lost after delivery, plus one; SENT means pushed. */
  lemma PushBound(c: Spec, actions: Trace<Action>, u: UserId)
    requires WellFormed(c)
    ensures var s := Run(c, Waiting(map[]), actions);
      && s.pushes[u] <= s.lost + 1
      && (s.lost == 0 ==> s.pushes[u] <= 1)
      && (IsSent(s, u) ==> s.pushes[u] >= 1)
      && (s.pushes[u] > 0 ==> u in c.users * c.aliased)
  {
    WaitingInv(c);
    RunKeepsInv(c, Waiting(map[]), actions);
    var s := Run(c, Waiting(map[]), actions);
    assert CountedFor(c, s, u);
  }

  /** Completion leaves one settled row per recipient; a committed terminal step leaves nothing PENDING. */
  lemma Outcome(c: Spec, actions: Trace<Action>)
    requires WellFormed(c)
    ensures var s := Run(c, Waiting(map[]), actions);
      && (s.pc.Done? ==> s.view.Keys == c.users && forall u | u in c.users ::
            s.view[u].status == Skipped || (s.view[u].status == Sent && u in c.aliased))
      && (s.pc == Closed(true) ==> forall u | u in s.view :: s.view[u].status != Pending)
      && (forall u | u in s.view :: u in c.users && s.view[u].content == c.content[u])
      && s.made <= (if c.attempts == 0 then 1 else c.attempts)
  {
    WaitingInv(c);
    RunKeepsInv(c, Waiting(map[]), actions);
    var s := Run(c, Waiting(map[]), actions);
    forall u | u in s.view
      ensures PendingIn(s.view) == {} ==> s.view[u].status != Pending
      ensures s.view[u].status == Sent ==> u in c.aliased
    {
      assert s.view[u].status == Pending <==> u in PendingIn(s.view);
      assert CountedFor(c, s, u);
    }
  }

  // ----- the bound is met: every stop between delivery and the mark costs one more push -----

  /** An attempt that delivers and stops before the SENT mark. */
  function Delivering(actions: Trace<Action>): Trace<Action> {
    var go := Go(Delivered);
    Then(Then(Then(Then(actions, go), go), go), go)
  }

  function Losses(k: nat): Trace<Action> {
    if k == 0 then Start else Then(Delivering(Losses(k - 1)), Stop)
  }

  /** From a waiting chunk where `u` is still unsettled, one more delivery and one more loss. */
  lemma OneDelivery(c: Spec, s: State, u: UserId)
    requires WellFormed(c) && Inv(c, s) && s.pc == Idle
    requires u in c.users * c.aliased && !Settled(s, u)
    ensures var g := Go(Delivered); var s' := Step(c, Step(c, Step(c, Step(c, s, g), g), g), g);
      && s'.pc.Pushed? && s'.made == s.made && s'.lost == s.lost && s'.pushes[u] == s.pushes[u] + 1
      && !Settled(s', u)
  {
    var g := Go(Delivered);
    var s3 := Step(c, Step(c, Step(c, s, g), g), g);
    assert u in s3.pc.pending * c.aliased;
  }

  lemma DeliveringOnce(c: Spec, actions: Trace<Action>, u: UserId)
    requires WellFormed(c) && u in c.users * c.aliased
    requires Run(c, Waiting(map[]), actions).pc == Idle && !Settled(Run(c, Waiting(map[]), actions), u)
    ensures var s := Run(c, Waiting(map[]), actions); var s' := Run(c, Waiting(map[]), Delivering(actions));
      && s'.pc.Pushed? && s'.made == s.made && s'.lost == s.lost && s'.pushes[u] == s.pushes[u] + 1
      && !Settled(s', u)
  {
    var s := Run(c, Waiting(map[]), actions);
    WaitingInv(c);
    RunKeepsInv(c, Waiting(map[]), actions);
    OneDelivery(c, s, u);
    var g := Go(Delivered);
    assert Run(c, Waiting(map[]), Then(actions, g)) == Step(c, s, g);
    assert Run(c, Waiting(map[]), Then(Then(actions, g), g)) == Step(c, Step(c, s, g), g);
  }

  lemma {:induction false} LossesCount(c: Spec, k: nat, u: UserId)
    requires WellFormed(c) && k < c.attempts && u in c.users * c.aliased
    ensures var s := Run(c, Waiting(map[]), Losses(k));
      s.pc == Idle && s.made == k && s.lost == k && s.pushes[u] == k && !Settled(s, u)
  {
    if k > 0 {
      LossesCount(c, k - 1, u);
      DeliveringOnce(c, Losses(k - 1), u);
      assert Losses(k) == Then(Delivering(Losses(k - 1)), Stop);
    }
  }

  /** The bound of `PushBound` is met for every number of losses the budget allows. */
  lemma PushBoundIsMet(c: Spec, k: nat, u: UserId)
    requires WellFormed(c) && k < c.attempts && u in c.users * c.aliased
    ensures var s := Run(c, Waiting(map[]), Delivering(Losses(k)));
      s.lost == k && s.pushes[u] == k + 1
  {
    LossesCount(c, k, u);
    DeliveringOnce(c, Losses(k), u);
  }
}
