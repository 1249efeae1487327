/** Runs of a thread's message queue: nothing is lost or taken twice, messages that are pending
    together leave in order, and no delayed one leaves early. */
module ThreadQueueRuns {
  import opened Options
  import opened Sequences
  import opened DelayedQueue
  import opened ThreadQueues

  // ---- Whole runs ----

  datatype Op =
    | Arrive(arrival: Arrival)
    | GetOp(wait: int, start: int, rounds: seq<Round>)
    | PeekOp(wait: int, start: int, rounds: seq<Round>)
    | ClearOp(handler: Option<nat>, id: nat)
    | RestartOp

  /** What an operation does: the new state, the messages that leave the queue in their order
      (those disposed of and the one handed out), those cleared, those taken in, the one returned
      to the caller, and the clock. */
  datatype Effect = Effect(
    queue: Queue,
    left: seq<Message>,
    cleared: seq<Message>,
    accepted: seq<Message>,
    returned: Option<Message>,
    clock: int)

  function Returned(r: GetResult): Option<Message> {
    if r.outcome.Got? then Some(r.outcome.message) else None
  }

  function Apply(q: Queue, clock: int, op: Op): Effect {
    match op
    case Arrive(a) => Effect(AfterArrival(q, a), [], [], Accepted(q, a), None, clock)
    case GetOp(wait, start, rounds) =>
      var r := AfterGet(q, wait, start, rounds);
      Effect(r.queue, r.disposed + One(Returned(r)), [], r.accepted, Returned(r), r.now)
    case PeekOp(wait, start, rounds) =>
      var r := AfterPeek(q, wait, start, rounds);
      Effect(r.queue, r.disposed, [], r.accepted, Returned(r), r.now)
    case ClearOp(handler, id) =>
      Effect(AfterClear(q, handler, id), [], Keep(Hits(handler, id), Order(q)), [], None, clock)
    case RestartOp => Effect(q.(stop := false), [], [], [], None, clock)
  }

  /** The queue after a run, everything that has left it, been cleared and been taken in, and
      the clock. */
  datatype History = History(
    queue: Queue,
    left: seq<Message>,
    cleared: seq<Message>,
    accepted: seq<Message>,
    clock: int)

  function Run(q: Queue, clock: int, ops: seq<Op>): History {
    if ops == [] then History(q, [], [], [], clock)
    else
      var h := Run(q, clock, ops[..|ops| - 1]);
      var e := Apply(h.queue, h.clock, ops[|ops| - 1]);
      History(e.queue, h.left + e.left, h.cleared + e.cleared, h.accepted + e.accepted, e.clock)
  }

  lemma StepKeepsWellFormed(q: Queue, clock: int, op: Op)
    requires WellFormed(q)
    ensures WellFormed(Apply(q, clock, op).queue)
  {
    match op
    case Arrive(a) => ArrivalKeepsWellFormed(q, a);
    case GetOp(wait, start, rounds) => GetKeepsWellFormed(q, wait, start, rounds);
    case PeekOp(wait, start, rounds) => GetKeepsWellFormed(q, wait, start, rounds);
    case ClearOp(handler, id) => ClearKeepsWellFormed(q, handler, id);
    case RestartOp =>
  }

  lemma {:induction false} RunKeepsWellFormed(q: Queue, clock: int, ops: seq<Op>)
    requires WellFormed(q)
    ensures WellFormed(Run(q, clock, ops).queue)
    decreases |ops|
  {
    if ops != [] {
      RunKeepsWellFormed(q, clock, ops[..|ops| - 1]);
      var h := Run(q, clock, ops[..|ops| - 1]);
      StepKeepsWellFormed(h.queue, h.clock, ops[|ops| - 1]);
    }
  }

  // ---- Conservation ----

  ghost function Count(s: seq<Message>, x: Message): nat {
    multiset(s)[x]
  }

  lemma CountConcat(s: seq<Message>, t: seq<Message>, x: Message)
    ensures Count(s + t, x) == Count(s, x) + Count(t, x)
  {
  }

  lemma CountNone(x: Message)
    ensures Count([], x) == 0
  {
  }

  ghost function Held(q: Queue, x: Message): nat {
    Count(Order(q), x)
  }

  lemma HeldInParts(q: Queue, x: Message)
    ensures Held(q, x) == Count(One(q.peek), x) + Count(q.ready, x) + Count(Messages(q.schedule), x)
  {
    CountConcat(One(q.peek) + q.ready, Messages(q.schedule), x);
    CountConcat(One(q.peek), q.ready, x);
    hide Count, Messages;
  }

  lemma CountOfInserted(s: seq<Delayed>, d: Delayed, x: Message)
    ensures Count(Messages(InsertByKey(s, d)), x) == Count(Messages(s), x) + Count([d.msg], x)
  {
    MessagesOfInserted(s, d);
  }

  lemma PostConserves(q: Queue, m: Message, x: Message)
    ensures Held(AfterPush(q, m), x) == Held(q, x) + Count([m], x)
  {
    HeldInParts(q, x);
    HeldInParts(q.(ready := q.ready + [m]), x);
    CountConcat(q.ready, [m], x);
    hide Held, Messages, Count;
  }

  lemma DelayConserves(q: Queue, m: Message, runTime: int, x: Message)
    ensures Held(AfterDelayedPush(q, m, runTime), x) == Held(q, x) + Count([m], x)
  {
    HeldInParts(q, x);
    HeldInParts(AfterDelayedPush(q, m, runTime), x);
    CountOfInserted(q.schedule, Delayed(runTime, q.nextNumber, m), x);
    hide Held, Messages, Count, InsertByKey;
  }

  lemma StopConserves(q: Queue, stop: bool, x: Message)
    ensures Held(q.(stop := stop), x) == Held(q, x)
  {
    assert Order(q.(stop := stop)) == Order(q);
  }

  lemma ArrivalConserves(q: Queue, a: Arrival, x: Message)
    ensures Held(AfterArrival(q, a), x) == Held(q, x) + Count(Accepted(q, a), x)
  {
    hide Held, AfterPush, AfterDelayedPush, Count;
    CountNone(x);
    match a
    case Posted(m) => PostConserves(q, m, x);
    case PostedAt(m, runTime) => DelayConserves(q, m, runTime, x);
    case Pushed(m) => PostConserves(q, m, x);
    case PushedAt(m, runTime) => DelayConserves(q, m, runTime, x);
    case QuitAsked => StopConserves(q, true, x);
  }

  lemma {:induction false} ArrivalsConserve(q: Queue, arrivals: seq<Arrival>, x: Message)
    ensures Held(AfterArrivals(q, arrivals), x) == Held(q, x) + Count(AllAccepted(q, arrivals), x)
    decreases |arrivals|
  {
    CountNone(x);
    if arrivals != [] {
      ArrivalConserves(q, arrivals[0], x);
      var next := AfterArrival(q, arrivals[0]);
      ArrivalsConserve(next, arrivals[1..], x);
      CountConcat(Accepted(q, arrivals[0]), AllAccepted(next, arrivals[1..]), x);
    }
    hide Held, Accepted, AfterArrival, Count;
  }

  lemma TakingConserves(q: Queue, x: Message)
    requires q.peek.None?
    ensures var t := TakeReady(q);
            t.queue.peek.None? && Held(q, x) == Count(t.disposed, x) + Count(One(t.message), x) + Held(t.queue, x)
  {
    var t := TakeReady(q);
    HeldInParts(q, x);
    HeldInParts(t.queue, x);
    CountConcat(t.disposed + One(t.message), t.queue.ready, x);
    CountConcat(t.disposed, One(t.message), x);
    hide Messages, TakeReady, Count, Order;
  }

  lemma LookConserves(q: Queue, now: int, rounds: seq<Round>, x: Message)
    requires WellFormed(q) && q.peek.None?
    ensures var l := LookFor(q, now, rounds);
            Held(q, x) + Count(l.accepted, x)
            == Count(l.taken.disposed, x) + Count(One(l.taken.message), x) + Held(l.queue, x)
  {
    hide WellFormed, StrictlySorted, MoveDue, TakeReady, AfterArrivals, AllAccepted, Amid, Order, Count;
    MoveDueKeepsWellFormed(q, now);
    assert Held(MoveDue(q, now), x) == Held(q, x) by {
      assert StrictlySorted(q.schedule) by {
        SortedWhenWellFormed(q);
      }
      MoveDueKeepsOrder(q, now);
    }
    var l := LookFor(q, now, rounds);
    var m, t := l.scanned, l.taken;
    var amid := Amid(m, Between(rounds));
    ArrivalsConserve(m, amid, x);
    ArrivalsKeepPeek(m, amid);
    TakingConserves(AfterArrivals(m, amid), x);
    ArrivalsConserve(t.queue, l.late, x);
    CountConcat(AllAccepted(m, amid), AllAccepted(t.queue, l.late), x);
  }

  lemma SortedWhenWellFormed(q: Queue)
    requires WellFormed(q)
    ensures StrictlySorted(q.schedule)
  {
  }

  /** Of every message: what a waiting Get holds or takes in, it holds still or has let go. */
  ghost predicate GetConservesCount(q: Queue, r: GetResult, x: Message) {
    Held(q, x) + Count(r.accepted, x) == Held(r.queue, x) + Count(r.disposed, x) + Count(One(Returned(r)), x)
  }

  lemma {:induction false} WaitConserves(q: Queue, wait: int, start: int, now: int, rounds: seq<Round>, x: Message)
    requires WellFormed(q) && q.peek.None?
    ensures GetConservesCount(q, WaitForMessage(q, wait, start, now, rounds), x)
    decreases |rounds|
  {
    hide WellFormed, AfterArrivals, AllAccepted, Held, LookFor, Count;
    var l := LookFor(q, now, rounds);
    LookKeepsWellFormed(q, now, rounds);
    LookConserves(q, now, rounds, x);
    CountNone(x);
    if l.taken.message.None? && !l.queue.stop && rounds != [] {
      var arrivals, after := rounds[0].arrivals, AfterArrivals(l.queue, rounds[0].arrivals);
      ArrivalsConserve(l.queue, arrivals, x);
      CountConcat(l.accepted, AllAccepted(l.queue, arrivals), x);
      ArrivalsKeepWellFormed(l.queue, arrivals);
      ArrivalsKeepPeek(l.queue, arrivals);
      WaitConserves(after, wait, start, rounds[0].now, rounds[1..], x);
      var r := WaitForMessage(after, wait, start, rounds[0].now, rounds[1..]);
      RoundConserves(q, l.taken.disposed, l.accepted + AllAccepted(l.queue, arrivals), r, after, x);
    }
  }

  /** A round that takes messages and lets some in, and then goes on waiting. */
  lemma RoundConserves(q: Queue, disposed: seq<Message>, accepted: seq<Message>, r: GetResult, after: Queue, x: Message)
    requires Held(q, x) + Count(accepted, x) == Count(disposed, x) + Held(after, x) && GetConservesCount(after, r, x)
    ensures GetConservesCount(q, r.(disposed := disposed + r.disposed, accepted := accepted + r.accepted), x)
  {
    CountConcat(disposed, r.disposed, x);
    CountConcat(accepted, r.accepted, x);
    hide Held, Count;
  }

  lemma GetConserves(q: Queue, wait: int, start: int, rounds: seq<Round>, x: Message)
    requires WellFormed(q)
    ensures GetConservesCount(q, AfterGet(q, wait, start, rounds), x)
  {
    if q.peek.None? {
      WaitConserves(q, wait, start, start, rounds, x);
    } else {
      HeldInParts(q, x);
      HeldInParts(q.(peek := None), x);
    }
    hide Held;
  }

  lemma GetEmptiesPeek(q: Queue, wait: int, start: int, rounds: seq<Round>)
    requires WellFormed(q)
    ensures AfterGet(q, wait, start, rounds).queue.peek.None?
  {
    if q.peek.None? {
      WaitKeepsWellFormed(q, wait, start, start, rounds);
    }
  }

  lemma PeekConserves(q: Queue, wait: int, start: int, rounds: seq<Round>, x: Message)
    requires WellFormed(q)
    ensures var r := AfterPeek(q, wait, start, rounds);
            Held(q, x) + Count(r.accepted, x) == Held(r.queue, x) + Count(r.disposed, x)
  {
    GetConserves(q, wait, start, rounds, x);
    GetEmptiesPeek(q, wait, start, rounds);
    var r := AfterGet(q, wait, start, rounds);
    HeldInParts(r.queue, x);
    HeldInParts(r.queue.(peek := Returned(r)), x);
    CountNone(x);
    hide Held, AfterGet, Messages, Count;
  }

  lemma ClearConserves(q: Queue, handler: Option<nat>, id: nat, x: Message)
    ensures Held(q, x) == Held(AfterClear(q, handler, id), x) + Count(Keep(Hits(handler, id), Order(q)), x)
  {
    ClearFiltersOrder(q, handler, id);
    KeepCount(Spares(handler, id), Order(q), x);
    KeepCount(Hits(handler, id), Order(q), x);
    hide Order, Keep, AfterClear;
  }

  lemma StepConserves(q: Queue, clock: int, op: Op, x: Message)
    requires WellFormed(q)
    ensures var e := Apply(q, clock, op);
            Held(q, x) + Count(e.accepted, x) == Held(e.queue, x) + Count(e.left, x) + Count(e.cleared, x)
  {
    hide Count, Held, AfterGet, AfterPeek, AfterClear, AfterArrival, WellFormed, Keep;
    CountNone(x);
    match op
    case Arrive(a) => ArrivalConserves(q, a, x);
    case GetOp(wait, start, rounds) =>
      GetConserves(q, wait, start, rounds, x);
      CountConcat(AfterGet(q, wait, start, rounds).disposed, One(Returned(AfterGet(q, wait, start, rounds))), x);
    case PeekOp(wait, start, rounds) => PeekConserves(q, wait, start, rounds, x);
    case ClearOp(handler, id) => ClearConserves(q, handler, id, x);
    case RestartOp => StopConserves(q, false, x);
  }

  lemma {:induction false} RunConservesCount(q: Queue, clock: int, ops: seq<Op>, x: Message)
    requires WellFormed(q)
    ensures var h := Run(q, clock, ops);
            Held(q, x) + Count(h.accepted, x) == Held(h.queue, x) + Count(h.left, x) + Count(h.cleared, x)
    decreases |ops|
  {
    CountNone(x);
    if ops != [] {
      RunConservesCount(q, clock, ops[..|ops| - 1], x);
      RunKeepsWellFormed(q, clock, ops[..|ops| - 1]);
      var h := Run(q, clock, ops[..|ops| - 1]);
      StepConserves(h.queue, h.clock, ops[|ops| - 1], x);
      var e := Apply(h.queue, h.clock, ops[|ops| - 1]);
      CountConcat(h.left, e.left, x);
      CountConcat(h.cleared, e.cleared, x);
      CountConcat(h.accepted, e.accepted, x);
    }
    hide Held, Apply, Count;
  }

  /** In every run each message that was held or taken in is held, has left or was cleared, and
      it is in one of these places only once. */
  lemma RunConserves(q: Queue, clock: int, ops: seq<Op>)
    requires WellFormed(q)
    ensures var h := Run(q, clock, ops);
            multiset(Order(q)) + multiset(h.accepted)
            == multiset(Order(h.queue)) + multiset(h.left) + multiset(h.cleared)
  {
    var h := Run(q, clock, ops);
    var a := multiset(Order(q)) + multiset(h.accepted);
    var b := multiset(Order(h.queue)) + multiset(h.left) + multiset(h.cleared);
    hide Run, Order;
    forall x
      ensures a[x] == b[x]
    {
      RunConservesCount(q, clock, ops, x);
    }
    EqualCounts(a, b);
  }

  // ---- Order ----

  ghost predicate PostsNone(p: Message -> bool, arrivals: seq<Arrival>) {
    forall i :: 0 <= i < |arrivals| ==> arrivals[i].QuitAsked? || !p(arrivals[i].msg)
  }

  ghost predicate RoundPostsNone(p: Message -> bool, round: Round) {
    && (forall k :: 0 <= k < |round.between| ==> PostsNone(p, round.between[k]))
    && PostsNone(p, round.late) && PostsNone(p, round.arrivals)
  }

  ghost predicate RoundsPostNone(p: Message -> bool, rounds: seq<Round>) {
    forall i :: 0 <= i < |rounds| ==> RoundPostsNone(p, rounds[i])
  }

  lemma {:induction false} AmidPostsNone(p: Message -> bool, q: Queue, between: seq<seq<Arrival>>)
    requires forall k :: 0 <= k < |between| ==> PostsNone(p, between[k])
    ensures PostsNone(p, Amid(q, between))
    decreases |between|
  {
    if between != [] && q.ready != [] && q.ready[0].id == DISPOSE {
      AmidPostsNone(p, AfterArrivals(q.(ready := q.ready[1..]), between[0]), between[1..]);
    }
    hide AfterArrivals;
  }

  /** The operation neither brings in nor clears a message of the given kind. */
  ghost predicate Neutral(p: Message -> bool, op: Op) {
    match op
    case Arrive(a) => PostsNone(p, [a])
    case GetOp(_, _, rounds) => RoundsPostNone(p, rounds)
    case PeekOp(_, _, rounds) => RoundsPostNone(p, rounds)
    case ClearOp(handler, id) => forall m :: p(m) ==> !Matches(m, handler, id)
    case RestartOp => true
  }

  ghost function Line(p: Message -> bool, q: Queue): seq<Message> {
    Keep(p, Order(q))
  }

  lemma LineInParts(p: Message -> bool, q: Queue)
    ensures Line(p, q) == Keep(p, One(q.peek)) + Keep(p, q.ready) + Keep(p, Messages(q.schedule))
  {
    KeepConcat(p, One(q.peek) + q.ready, Messages(q.schedule));
    KeepConcat(p, One(q.peek), q.ready);
  }

  lemma {:induction false} InsertKeepsOthers(p: Message -> bool, s: seq<Delayed>, d: Delayed)
    requires !p(d.msg)
    ensures Keep(OnMessage(p), InsertByKey(s, d)) == Keep(OnMessage(p), s)
  {
    if s != [] && Before(d, s[|s| - 1]) {
      InsertKeepsOthers(p, s[..|s| - 1], d);
    }
  }

  lemma PostKeepsLine(p: Message -> bool, q: Queue, m: Message)
    requires !p(m)
    ensures Line(p, AfterPush(q, m)) == Line(p, q)
  {
    LineInParts(p, q);
    LineInParts(p, q.(ready := q.ready + [m]));
    KeepConcat(p, q.ready, [m]);
    KeepOne(p, m);
    hide Line, Keep, Messages;
  }

  lemma DelayKeepsLine(p: Message -> bool, q: Queue, m: Message, runTime: int)
    requires !p(m)
    ensures Line(p, AfterDelayedPush(q, m, runTime)) == Line(p, q)
  {
    var d := Delayed(runTime, q.nextNumber, m);
    LineInParts(p, q);
    LineInParts(p, AfterDelayedPush(q, m, runTime));
    InsertKeepsOthers(p, q.schedule, d);
    MessagesOfKept(p, q.schedule);
    MessagesOfKept(p, InsertByKey(q.schedule, d));
    hide Line, Keep, Messages, InsertByKey;
  }

  lemma ArrivalKeepsLine(p: Message -> bool, q: Queue, a: Arrival)
    requires a.QuitAsked? || !p(a.msg)
    ensures Line(p, AfterArrival(q, a)) == Line(p, q)
  {
    hide AfterPush, AfterDelayedPush, Keep;
    match a
    case Posted(m) => PostKeepsLine(p, q, m);
    case PostedAt(m, runTime) => DelayKeepsLine(p, q, m, runTime);
    case Pushed(m) => PostKeepsLine(p, q, m);
    case PushedAt(m, runTime) => DelayKeepsLine(p, q, m, runTime);
    case QuitAsked => assert Order(q.(stop := true)) == Order(q);
    hide Order;
  }

  lemma {:induction false} ArrivalsKeepLine(p: Message -> bool, q: Queue, arrivals: seq<Arrival>)
    requires PostsNone(p, arrivals)
    ensures Line(p, AfterArrivals(q, arrivals)) == Line(p, q)
    decreases |arrivals|
  {
    if arrivals != [] {
      ArrivalKeepsLine(p, q, arrivals[0]);
      ArrivalsKeepLine(p, AfterArrival(q, arrivals[0]), arrivals[1..]);
    }
    hide Line, AfterArrival;
  }

  lemma LineWithoutPeek(p: Message -> bool, q: Queue)
    requires q.peek.None?
    ensures Line(p, q) == Keep(p, q.ready) + Keep(p, Messages(q.schedule))
  {
    LineInParts(p, q);
    assert Keep(p, []) == [];
    hide Line, Messages;
  }

  lemma TakingTakesFromLine(p: Message -> bool, q: Queue)
    requires q.peek.None?
    ensures var t := TakeReady(q);
            t.queue.peek.None? && Line(p, q) == Keep(p, t.disposed) + Keep(p, One(t.message)) + Line(p, t.queue)
  {
    var t := TakeReady(q);
    LineWithoutPeek(p, q);
    LineWithoutPeek(p, t.queue);
    KeepConcat(p, t.disposed + One(t.message), t.queue.ready);
    KeepConcat(p, t.disposed, One(t.message));
    Regroup(Keep(p, t.disposed) + Keep(p, One(t.message)), Keep(p, t.queue.ready), Keep(p, Messages(q.schedule)));
    hide Messages, TakeReady, StrictlySorted, Order, Keep, Line;
  }

  lemma LookTakesFromLine(p: Message -> bool, q: Queue, now: int, rounds: seq<Round>)
    requires WellFormed(q) && q.peek.None? && RoundsPostNone(p, rounds)
    ensures var l := LookFor(q, now, rounds);
            Line(p, q) == Keep(p, l.taken.disposed) + Keep(p, One(l.taken.message)) + Line(p, l.queue)
  {
    hide WellFormed, StrictlySorted, MoveDue, TakeReady, AfterArrivals, AllAccepted, Amid, Order, Keep, PostsNone;
    MoveDueKeepsWellFormed(q, now);
    assert Line(p, MoveDue(q, now)) == Line(p, q) by {
      assert StrictlySorted(q.schedule) by {
        SortedWhenWellFormed(q);
      }
      MoveDueKeepsOrder(q, now);
    }
    var l := LookFor(q, now, rounds);
    var m := l.scanned;
    var amid := Amid(m, Between(rounds));
    NoneArePosted(p, q, now, rounds);
    hide Line, RoundPostsNone, RoundsPostNone;
    ArrivalsKeepLine(p, m, amid);
    ArrivalsKeepPeek(m, amid);
    TakingTakesFromLine(p, AfterArrivals(m, amid));
    ArrivalsKeepLine(p, l.taken.queue, l.late);
  }

  lemma NoneArePosted(p: Message -> bool, q: Queue, now: int, rounds: seq<Round>)
    requires RoundsPostNone(p, rounds)
    ensures var l := LookFor(q, now, rounds); PostsNone(p, Amid(l.scanned, Between(rounds))) && PostsNone(p, l.late)
  {
    AmidPostsNone(p, MoveDue(q, now), Between(rounds));
    hide MoveDue, Amid, TakeReady, AfterArrivals, AllAccepted;
  }

  ghost predicate LeavesInLine(p: Message -> bool, q: Queue, r: GetResult) {
    Line(p, q) == Keep(p, r.disposed) + Keep(p, One(Returned(r))) + Line(p, r.queue)
  }

  lemma RoundLeavesInLine(
    p: Message -> bool, q: Queue, disposed: seq<Message>, accepted: seq<Message>, r: GetResult, after: Queue)
    requires Line(p, q) == Keep(p, disposed) + Keep(p, []) + Line(p, after) && LeavesInLine(p, after, r)
    ensures LeavesInLine(p, q, r.(disposed := disposed + r.disposed, accepted := accepted + r.accepted))
  {
    KeepConcat(p, disposed, r.disposed);
    KeepConcat(p, disposed, []);
    assert disposed + [] == disposed;
    var a, b, c := Keep(p, disposed), Keep(p, r.disposed), Keep(p, One(Returned(r)));
    Regroup(a, b + c, Line(p, r.queue));
    Regroup(a, b, c);
    hide Line, Keep;
  }

  lemma {:induction false} WaitLeavesInLine(
    p: Message -> bool, q: Queue, wait: int, start: int, now: int, rounds: seq<Round>)
    requires WellFormed(q) && q.peek.None? && RoundsPostNone(p, rounds)
    ensures LeavesInLine(p, q, WaitForMessage(q, wait, start, now, rounds))
    decreases |rounds|
  {
    hide WellFormed, AfterArrivals, AllAccepted, Line, LookFor, PostsNone, Keep;
    var l := LookFor(q, now, rounds);
    LookKeepsWellFormed(q, now, rounds);
    LookTakesFromLine(p, q, now, rounds);
    if l.taken.message.None? && !l.queue.stop && rounds != [] {
      var arrivals, after := rounds[0].arrivals, AfterArrivals(l.queue, rounds[0].arrivals);
      ArrivalsKeepLine(p, l.queue, arrivals);
      ArrivalsKeepWellFormed(l.queue, arrivals);
      ArrivalsKeepPeek(l.queue, arrivals);
      WaitLeavesInLine(p, after, wait, start, rounds[0].now, rounds[1..]);
      var r := WaitForMessage(after, wait, start, rounds[0].now, rounds[1..]);
      RoundLeavesInLine(p, q, l.taken.disposed, l.accepted + AllAccepted(l.queue, arrivals), r, after);
    }
  }

  lemma GetLeavesInLine(p: Message -> bool, q: Queue, wait: int, start: int, rounds: seq<Round>)
    requires WellFormed(q) && RoundsPostNone(p, rounds)
    ensures LeavesInLine(p, q, AfterGet(q, wait, start, rounds))
  {
    if q.peek.None? {
      WaitLeavesInLine(p, q, wait, start, start, rounds);
    } else {
      PeekedLeavesInLine(p, q);
    }
    hide Line, WaitForMessage, Keep, WellFormed;
  }

  lemma PeekedLeavesInLine(p: Message -> bool, q: Queue)
    requires q.peek.Some?
    ensures Line(p, q) == Keep(p, []) + Keep(p, One(q.peek)) + Line(p, q.(peek := None))
  {
    assert Keep(p, []) == [];
    LineInParts(p, q);
    LineWithoutPeek(p, q.(peek := None));
    Regroup(Keep(p, One(q.peek)), Keep(p, q.ready), Keep(p, Messages(q.schedule)));
    hide Line, Messages, Keep;
  }

  lemma PeekKeepsLine(p: Message -> bool, q: Queue, wait: int, start: int, rounds: seq<Round>)
    requires WellFormed(q) && RoundsPostNone(p, rounds)
    ensures var r := AfterPeek(q, wait, start, rounds); Line(p, q) == Keep(p, r.disposed) + Line(p, r.queue)
  {
    assert Keep(p, []) == [];
    GetLeavesInLine(p, q, wait, start, rounds);
    GetEmptiesPeek(q, wait, start, rounds);
    ShowKeepsLine(p, q, AfterGet(q, wait, start, rounds));
    hide Line, AfterGet, Keep, WellFormed, LeavesInLine;
  }

  lemma ShowKeepsLine(p: Message -> bool, q: Queue, r: GetResult)
    requires LeavesInLine(p, q, r) && r.queue.peek.None?
    ensures Line(p, q) == Keep(p, r.disposed) + Line(p, r.queue.(peek := Returned(r)))
  {
    var shown := r.queue.(peek := Returned(r));
    LineWithoutPeek(p, r.queue);
    LineInParts(p, shown);
    var a, b := Keep(p, r.disposed), Keep(p, One(Returned(r)));
    Regroup(b, Keep(p, shown.ready), Keep(p, Messages(shown.schedule)));
    Regroup(a, b, Line(p, r.queue));
    hide Line, Messages, Keep;
  }

  lemma ClearKeepsLine(p: Message -> bool, q: Queue, handler: Option<nat>, id: nat)
    requires forall m :: p(m) ==> !Matches(m, handler, id)
    ensures Line(p, AfterClear(q, handler, id)) == Line(p, q)
  {
    var spares := Spares(handler, id);
    ClearFiltersOrder(q, handler, id);
    KeepCommutes(p, spares, Order(q));
    KeepElements(p, Order(q));
    KeepAll(spares, Keep(p, Order(q)));
    hide AfterClear, Order, Keep;
  }

  lemma StepLeavesInLine(p: Message -> bool, q: Queue, clock: int, op: Op)
    requires WellFormed(q) && Neutral(p, op)
    ensures var e := Apply(q, clock, op); Line(p, q) == Keep(p, e.left) + Line(p, e.queue)
  {
    assert Keep(p, []) == [];
    match op
    case Arrive(a) => assert [a][0] == a; ArrivalKeepsLine(p, q, a);
    case GetOp(wait, start, rounds) =>
      GetLeavesInLine(p, q, wait, start, rounds);
      KeepConcat(p, AfterGet(q, wait, start, rounds).disposed, One(Returned(AfterGet(q, wait, start, rounds))));
    case PeekOp(wait, start, rounds) => PeekKeepsLine(p, q, wait, start, rounds);
    case ClearOp(handler, id) => ClearKeepsLine(p, q, handler, id);
    case RestartOp => assert Order(q.(stop := false)) == Order(q);
    hide AfterGet, AfterPeek, AfterClear, AfterArrival, Order, Keep;
  }

  /** Messages of any kind that are held together leave in the order in which they are held, as
      long as no message of that kind is brought in or cleared. */
  lemma {:induction false} RunLeavesInLine(p: Message -> bool, q: Queue, clock: int, ops: seq<Op>)
    requires WellFormed(q) && forall i :: 0 <= i < |ops| ==> Neutral(p, ops[i])
    ensures var h := Run(q, clock, ops); Line(p, q) == Keep(p, h.left) + Line(p, h.queue)
    decreases |ops|
  {
    assert Keep(p, []) == [];
    hide Line, Apply, Keep, Neutral, WellFormed;
    assert [] + Line(p, q) == Line(p, q);
    if ops != [] {
      var before, op := ops[..|ops| - 1], ops[|ops| - 1];
      RunLeavesInLine(p, q, clock, before);
      RunKeepsWellFormed(q, clock, before);
      var h := Run(q, clock, before);
      var e := Apply(h.queue, h.clock, op);
      StepLeavesInLine(p, h.queue, h.clock, op);
      KeepConcat(p, h.left, e.left);
      Regroup(Keep(p, h.left), Keep(p, e.left), Line(p, e.queue));
    }
  }

  /** The place of a delayed entry in the line of a kind of messages: how many are ahead. */
  ghost function Place(p: Message -> bool, q: Queue, i: nat): nat
    requires i < |q.schedule|
  {
    |Keep(p, One(q.peek) + q.ready + Messages(q.schedule[..i]))|
  }

  /** Of two delayed entries pending together, the one with the earlier run time, or with the
      earlier number for the same run time, is ahead in line; and the messages leave from the
      head of the line, as long as none of their kind is posted or cleared. */
  lemma DelayedLeaveInOrder(q: Queue, clock: int, ops: seq<Op>, i: nat, j: nat, p: Message -> bool)
    requires WellFormed(q) && i < |q.schedule| && j < |q.schedule|
    requires var d, e := q.schedule[i], q.schedule[j];
             d.runTime < e.runTime || (d.runTime == e.runTime && d.number < e.number)
    requires p(q.schedule[i].msg) && p(q.schedule[j].msg) && forall k :: 0 <= k < |ops| ==> Neutral(p, ops[k])
    ensures var line, a, b := Line(p, q), Place(p, q, i), Place(p, q, j);
            a < b < |line| && line[a] == q.schedule[i].msg && line[b] == q.schedule[j].msg
            && Keep(p, Run(q, clock, ops).left) <= line
  {
    InOrderOfKeys(q, i, j);
    PlaceInLine(p, q, i);
    PlaceInLine(p, q, j);
    PlacesGrow(p, q, i, j);
    hide Keep, WellFormed, Order, Neutral, Run, Place;
    RunLeavesInLine(p, q, clock, ops);
  }

  lemma InOrderOfKeys(q: Queue, i: nat, j: nat)
    requires WellFormed(q) && i < |q.schedule| && j < |q.schedule| && Before(q.schedule[i], q.schedule[j])
    ensures i < j
  {
    assert j < i ==> Before(q.schedule[j], q.schedule[i]);
  }

  lemma AheadOf(q: Queue, i: nat)
    requires i < |q.schedule|
    ensures var ahead := One(q.peek) + q.ready + Messages(q.schedule[..i]);
            Order(q) == ahead + [q.schedule[i].msg] + Messages(q.schedule[i + 1..])
  {
    var s := q.schedule;
    assert Messages(s) == Messages(s[..i]) + [s[i].msg] + Messages(s[i + 1..]);
  }

  lemma PlaceInLine(p: Message -> bool, q: Queue, i: nat)
    requires i < |q.schedule| && p(q.schedule[i].msg)
    ensures Place(p, q, i) < |Line(p, q)| && Line(p, q)[Place(p, q, i)] == q.schedule[i].msg
  {
    var ahead, m := One(q.peek) + q.ready + Messages(q.schedule[..i]), q.schedule[i].msg;
    AheadOf(q, i);
    KeepConcat(p, ahead + [m], Messages(q.schedule[i + 1..]));
    KeepConcat(p, ahead, [m]);
    KeepOne(p, m);
    hide Keep, Messages, Order;
  }

  lemma PlacesGrow(p: Message -> bool, q: Queue, i: nat, j: nat)
    requires i < j < |q.schedule| && p(q.schedule[i].msg)
    ensures Place(p, q, i) < Place(p, q, j)
  {
    var s, m := q.schedule, q.schedule[i].msg;
    var ahead := One(q.peek) + q.ready + Messages(s[..i]);
    assert One(q.peek) + q.ready + Messages(s[..j]) == ahead + [m] + Messages(s[i + 1..j]) by {
      assert Messages(s[..j]) == Messages(s[..i]) + [m] + Messages(s[i + 1..j]);
    }
    KeepConcat(p, ahead + [m], Messages(s[i + 1..j]));
    KeepConcat(p, ahead, [m]);
    KeepOne(p, m);
    hide Keep, Messages;
  }

  // ---- Time ----

  /** For each message that is only ever posted with a delay, the time from which it may run. */
  type Due = map<nat, int>

  ghost predicate ArrivalIsDue(due: Due, a: Arrival) {
    match a
    case Posted(m) => m.data !in due
    case PostedAt(m, runTime) => m.data in due ==> runTime == due[m.data]
    case Pushed(m) => m.data !in due
    case PushedAt(m, runTime) => m.data in due ==> runTime == due[m.data]
    case QuitAsked => true
  }

  ghost predicate AllDue(due: Due, arrivals: seq<Arrival>) {
    forall i :: 0 <= i < |arrivals| ==> ArrivalIsDue(due, arrivals[i])
  }

  ghost predicate RoundIsDue(due: Due, round: Round) {
    && (forall k :: 0 <= k < |round.between| ==> AllDue(due, round.between[k]))
    && AllDue(due, round.late) && AllDue(due, round.arrivals)
  }

  lemma {:induction false} AmidIsDue(due: Due, q: Queue, between: seq<seq<Arrival>>)
    requires forall k :: 0 <= k < |between| ==> AllDue(due, between[k])
    ensures AllDue(due, Amid(q, between))
    decreases |between|
  {
    if between != [] && q.ready != [] && q.ready[0].id == DISPOSE {
      AmidIsDue(due, AfterArrivals(q.(ready := q.ready[1..]), between[0]), between[1..]);
    }
    hide AfterArrivals, ArrivalIsDue;
  }

  ghost predicate RoundsInTime(due: Due, now: int, rounds: seq<Round>) {
    && (forall i :: 0 <= i < |rounds| ==> RoundIsDue(due, rounds[i]) && now <= rounds[i].now)
    && (forall i, j :: 0 <= i < j < |rounds| ==> rounds[i].now <= rounds[j].now)
  }

  /** The operation posts at the given times, and its clock readings do not run backwards. */
  ghost predicate InTime(due: Due, clock: int, op: Op) {
    match op
    case Arrive(a) => ArrivalIsDue(due, a)
    case GetOp(_, start, rounds) => clock <= start && RoundsInTime(due, start, rounds)
    case PeekOp(_, start, rounds) => clock <= start && RoundsInTime(due, start, rounds)
    case ClearOp(_, _) => true
    case RestartOp => true
  }

  ghost predicate MayRun(due: Due, m: Message, now: int) {
    m.data in due ==> due[m.data] <= now
  }

  /** Every message that is no longer in the schedule may run, and the others are kept for the
      times they were posted for. */
  ghost predicate Timely(due: Due, q: Queue, now: int) {
    && (q.peek.Some? ==> MayRun(due, q.peek.value, now))
    && (forall m :: m in q.ready ==> MayRun(due, m, now))
    && (forall d :: d in q.schedule ==> (d.msg.data in due ==> d.runTime == due[d.msg.data]))
  }

  lemma {:induction false} ArrivalsStayTimely(due: Due, q: Queue, now: int, arrivals: seq<Arrival>)
    requires Timely(due, q, now) && AllDue(due, arrivals)
    ensures Timely(due, AfterArrivals(q, arrivals), now)
    decreases |arrivals|
  {
    if arrivals != [] {
      ArrivalStaysTimely(due, q, now, arrivals[0]);
      ArrivalsStayTimely(due, AfterArrival(q, arrivals[0]), now, arrivals[1..]);
    }
    hide Timely, AfterArrival, ArrivalIsDue;
  }

  lemma ArrivalStaysTimely(due: Due, q: Queue, now: int, a: Arrival)
    requires Timely(due, q, now) && ArrivalIsDue(due, a)
    ensures Timely(due, AfterArrival(q, a), now)
  {
    if a.PostedAt? || a.PushedAt? {
      InsertedElements(q.schedule, Delayed(a.runTime, q.nextNumber, a.msg));
    }
    hide InsertByKey;
  }

  lemma {:induction false} MoveDueStaysTimely(due: Due, q: Queue, now: int)
    requires Timely(due, q, now)
    ensures Timely(due, MoveDue(q, now), now)
    decreases |q.schedule|
  {
    if q.schedule != [] && q.schedule[0].runTime <= now {
      MoveDueStaysTimely(due, q.(ready := q.ready + [q.schedule[0].msg], schedule := q.schedule[1..]), now);
    }
  }

  lemma TakingStaysTimely(due: Due, q: Queue, now: int)
    requires Timely(due, q, now)
    ensures var t := TakeReady(q);
            Timely(due, t.queue, now) && (t.message.Some? ==> MayRun(due, t.message.value, now))
  {
    hide TakeReady;
    var t := TakeReady(q);
    assert forall x :: x in t.queue.ready ==> x in q.ready;
    assert t.message.Some? ==> t.message.value in One(t.message) && t.message.value in q.ready;
  }

  lemma LookStaysTimely(due: Due, q: Queue, now: int, rounds: seq<Round>)
    requires Timely(due, q, now) && (rounds != [] ==> RoundIsDue(due, rounds[0]))
    ensures var l := LookFor(q, now, rounds);
            Timely(due, l.queue, now) && (l.taken.message.Some? ==> MayRun(due, l.taken.message.value, now))
  {
    hide Timely, MayRun, MoveDue, TakeReady, AfterArrivals, AllAccepted, Amid, AllDue;
    var l := LookFor(q, now, rounds);
    var amid := Amid(l.scanned, Between(rounds));
    assert AllDue(due, []) by {
      NothingIsDue(due);
    }
    MoveDueStaysTimely(due, q, now);
    AmidIsDue(due, l.scanned, Between(rounds));
    ArrivalsStayTimely(due, l.scanned, now, amid);
    TakingStaysTimely(due, AfterArrivals(l.scanned, amid), now);
    ArrivalsStayTimely(due, l.taken.queue, now, l.late);
  }

  lemma NothingIsDue(due: Due)
    ensures AllDue(due, [])
  {
  }

  lemma LaterIsTimely(due: Due, q: Queue, now: int, later: int)
    requires Timely(due, q, now) && now <= later
    ensures Timely(due, q, later)
  {
  }

  lemma {:induction false} WaitStaysTimely(due: Due, q: Queue, wait: int, start: int, now: int, rounds: seq<Round>)
    requires Timely(due, q, now) && RoundsInTime(due, now, rounds)
    ensures var r := WaitForMessage(q, wait, start, now, rounds);
            now <= r.now && Timely(due, r.queue, r.now) && (r.outcome.Got? ==> MayRun(due, r.outcome.message, r.now))
    decreases |rounds|
  {
    hide Timely, LookFor, AfterArrivals, AllAccepted, AllDue, MayRun;
    var l := LookFor(q, now, rounds);
    LookStaysTimely(due, q, now, rounds);
    if l.taken.message.None? && !l.queue.stop && rounds != [] {
      var after := AfterArrivals(l.queue, rounds[0].arrivals);
      ArrivalsStayTimely(due, l.queue, now, rounds[0].arrivals);
      LaterIsTimely(due, after, now, rounds[0].now);
      WaitStaysTimely(due, after, wait, start, rounds[0].now, rounds[1..]);
    }
  }

  lemma StepStaysTimely(due: Due, q: Queue, clock: int, op: Op)
    requires Timely(due, q, clock) && InTime(due, clock, op)
    ensures var e := Apply(q, clock, op);
            Timely(due, e.queue, e.clock) && clock <= e.clock
            && (e.returned.Some? ==> MayRun(due, e.returned.value, e.clock))
  {
    hide WaitForMessage, AfterArrival, RoundsInTime, MayRun;
    match op
    case Arrive(a) => ArrivalStaysTimely(due, q, clock, a);
    case GetOp(wait, start, rounds) => WaitTimelyFrom(due, q, clock, wait, start, rounds);
    case PeekOp(wait, start, rounds) => WaitTimelyFrom(due, q, clock, wait, start, rounds);
    case ClearOp(handler, id) => ClearStaysTimely(due, q, clock, handler, id);
    case RestartOp =>
  }

  lemma ClearStaysTimely(due: Due, q: Queue, now: int, handler: Option<nat>, id: nat)
    requires Timely(due, q, now)
    ensures Timely(due, AfterClear(q, handler, id), now)
  {
    KeepElements(Spares(handler, id), q.ready);
    KeepElements(OnMessage(Spares(handler, id)), q.schedule);
    hide Keep;
  }

  lemma WaitTimelyFrom(due: Due, q: Queue, clock: int, wait: int, start: int, rounds: seq<Round>)
    requires Timely(due, q, clock) && clock <= start && RoundsInTime(due, start, rounds)
    ensures Timely(due, q, start)
    ensures var r := WaitForMessage(q, wait, start, start, rounds);
            clock <= r.now && Timely(due, r.queue, r.now) && (r.outcome.Got? ==> MayRun(due, r.outcome.message, r.now))
  {
    LaterIsTimely(due, q, clock, start);
    WaitStaysTimely(due, q, wait, start, start, rounds);
    hide Timely, WaitForMessage;
  }

  /** All operations of a run are in time, each from the clock that the ones before have read. */
  ghost predicate RunInTime(due: Due, q: Queue, clock: int, ops: seq<Op>) {
    forall i :: 0 <= i < |ops| ==> InTime(due, Run(q, clock, ops[..i]).clock, ops[i])
  }

  lemma {:induction false} RunStaysTimely(due: Due, q: Queue, clock: int, ops: seq<Op>)
    requires Timely(due, q, clock) && RunInTime(due, q, clock, ops)
    ensures Timely(due, Run(q, clock, ops).queue, Run(q, clock, ops).clock)
    decreases |ops|
  {
    if ops != [] {
      var n := |ops| - 1;
      var h := Run(q, clock, ops[..n]);
      assert RunInTime(due, q, clock, ops[..n]) by {
        assert forall i :: 0 <= i < n ==> ops[..n][..i] == ops[..i];
      }
      RunStaysTimely(due, q, clock, ops[..n]);
      assert InTime(due, h.clock, ops[n]);
      StepStaysTimely(due, h.queue, h.clock, ops[n]);
    }
    hide Timely, InTime, Apply;
  }

  /** Starting from an empty queue, no delayed message is handed out or shown before its time. */
  lemma NothingRunsEarly(due: Due, clock: int, ops: seq<Op>, op: Op)
    requires RunInTime(due, Queue(None, [], [], 0, false), clock, ops)
    requires InTime(due, Run(Queue(None, [], [], 0, false), clock, ops).clock, op)
    ensures var h := Run(Queue(None, [], [], 0, false), clock, ops);
            var e := Apply(h.queue, h.clock, op);
            e.returned.Some? ==> MayRun(due, e.returned.value, e.clock)
  {
    var q := Queue(None, [], [], 0, false);
    RunStaysTimely(due, q, clock, ops);
    var h := Run(q, clock, ops);
    StepStaysTimely(due, h.queue, h.clock, op);
    hide *;
  }
}
