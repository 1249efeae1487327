/** A thread's message queue, and the order in which messages leave it: what its operations do to the
    peek slot, the ready messages and the schedule of the delayed ones, and the class that does it
    with a heap. */
module ThreadQueues {
  import opened Options
  import opened Sequences
  import opened DelayedQueue

  const ANY := 0xFFFF_FFFF
  const DISPOSE := 0xFFFF_FFFE
  const FOREVER := -1

  /** A null handler and the reserved identifier each match everything. */
  predicate Matches(m: Message, handler: Option<nat>, id: nat) {
    (handler == None || handler == m.handler) && (id == ANY || id == m.id)
  }

  /** The state of a queue, with the delayed messages in the order in which they are due. */
  datatype Queue = Queue(
    peek: Option<Message>,
    ready: seq<Message>,
    schedule: seq<Delayed>,
    nextNumber: nat,
    stop: bool)

  ghost predicate WellFormed(q: Queue) {
    && StrictlySorted(q.schedule)
    && (forall d :: d in q.schedule ==> d.number < q.nextNumber)
    && (q.peek.Some? ==> q.peek.value.id != DISPOSE)
  }

  // ---- What the operations do ----

  /** What another thread may do while the owner of the queue does not hold its lock: a whole post,
      the push alone of a post that had tested the stop flag before, or a request to quit. */
  datatype Arrival =
    | Posted(msg: Message)
    | PostedAt(msg: Message, runTime: int)
    | Pushed(msg: Message)
    | PushedAt(msg: Message, runTime: int)
    | QuitAsked

  function AfterPush(q: Queue, m: Message): Queue {
    q.(ready := q.ready + [m])
  }

  function AfterDelayedPush(q: Queue, m: Message, runTime: int): Queue {
    q.(schedule := InsertByKey(q.schedule, Delayed(runTime, q.nextNumber, m)), nextNumber := q.nextNumber + 1)
  }

  function AfterArrival(q: Queue, a: Arrival): Queue {
    match a
    case Posted(m) => if q.stop then q else AfterPush(q, m)
    case PostedAt(m, runTime) => if q.stop then q else AfterDelayedPush(q, m, runTime)
    case Pushed(m) => AfterPush(q, m)
    case PushedAt(m, runTime) => AfterDelayedPush(q, m, runTime)
    case QuitAsked => q.(stop := true)
  }

  function AfterArrivals(q: Queue, arrivals: seq<Arrival>): Queue
    decreases |arrivals|
  {
    if arrivals == [] then q else AfterArrivals(AfterArrival(q, arrivals[0]), arrivals[1..])
  }

  /** Once the thread is quitting, a post that has yet to test the flag brings nothing in. */
  predicate Refused(q: Queue, a: Arrival) {
    a.QuitAsked? || (q.stop && (a.Posted? || a.PostedAt?))
  }

  /** The messages that a queue takes in. */
  function Accepted(q: Queue, a: Arrival): seq<Message> {
    if Refused(q, a) then [] else [a.msg]
  }

  function AllAccepted(q: Queue, arrivals: seq<Arrival>): seq<Message>
    decreases |arrivals|
  {
    if arrivals == [] then []
    else Accepted(q, arrivals[0]) + AllAccepted(AfterArrival(q, arrivals[0]), arrivals[1..])
  }

  /** Makes the delayed messages ready whose time has come. */
  function MoveDue(q: Queue, now: int): Queue
    decreases |q.schedule|
  {
    if q.schedule == [] || now < q.schedule[0].runTime then q
    else MoveDue(q.(ready := q.ready + [q.schedule[0].msg], schedule := q.schedule[1..]), now)
  }

  datatype Taken = Taken(queue: Queue, message: Option<Message>, disposed: seq<Message>)

  function One<T>(o: Option<T>): seq<T> {
    if o.Some? then [o.value] else []
  }

  /** Takes the first ready message that is not a request to dispose of an object; those before
      it are carried out on the way. */
  function TakeReady(q: Queue): (t: Taken)
    ensures q.ready == t.disposed + One(t.message) + t.queue.ready
    ensures t.queue == q.(ready := t.queue.ready)
    ensures forall m :: m in t.disposed ==> m.id == DISPOSE
    ensures t.message.Some? ==> t.message.value.id != DISPOSE
    ensures t.message.None? ==> t.queue.ready == []
    decreases |q.ready|
  {
    if q.ready == [] then Taken(q, None, [])
    else
      var rest := q.(ready := q.ready[1..]);
      if q.ready[0].id == DISPOSE then
        var t := TakeReady(rest);
        assert q.ready == [q.ready[0]] + rest.ready;
        t.(disposed := [q.ready[0]] + t.disposed)
      else Taken(rest, Some(q.ready[0]), [])
  }

  /** What happens around one look at the queue and the wait after it, while the lock is not
      held: arrivals after each of the messages disposed of, arrivals between finding the queue
      empty and testing the stop flag, arrivals until the wait returns, whether it succeeded, and
      the clock read after it. */
  datatype Round = Round(
    between: seq<seq<Arrival>>,
    late: seq<Arrival>,
    arrivals: seq<Arrival>,
    ok: bool,
    now: int)

  function Between(rounds: seq<Round>): seq<seq<Arrival>> {
    if rounds == [] then [] else rounds[0].between
  }

  function Late(rounds: seq<Round>): seq<Arrival> {
    if rounds == [] then [] else rounds[0].late
  }

  /** The arrivals among passes that dispose of messages, as far as there are such passes. */
  function Amid(q: Queue, between: seq<seq<Arrival>>): seq<Arrival>
    decreases |between|
  {
    if between == [] || q.ready == [] || q.ready[0].id != DISPOSE then []
    else between[0] + Amid(AfterArrivals(q.(ready := q.ready[1..]), between[0]), between[1..])
  }

  /** The queue at the test of the stop flag, the queue when the due messages had been moved,
      what has been taken after that, what has arrived since the queue was found empty, and all
      that has been let in. */
  datatype Looked = Looked(
    queue: Queue,
    scanned: Queue,
    taken: Taken,
    late: seq<Arrival>,
    accepted: seq<Message>)

  function LookFor(q: Queue, now: int, rounds: seq<Round>): (l: Looked)
    ensures l.taken.message.Some? ==> l.taken.message.value.id != DISPOSE
  {
    var m := MoveDue(q, now);
    var amid := Amid(m, Between(rounds));
    var t := TakeReady(AfterArrivals(m, amid));
    var late := if t.message.Some? then [] else Late(rounds);
    Looked(AfterArrivals(t.queue, late), m, t, late, AllAccepted(m, amid) + AllAccepted(t.queue, late))
  }

  datatype Outcome = Got(message: Message) | Quitting | TimedOut | WaitFailed | StillWaiting

  /** The state and outcome of a Get, the messages disposed of and those taken in on the way,
      and the last reading of the clock. */
  datatype GetResult = GetResult(
    queue: Queue,
    outcome: Outcome,
    disposed: seq<Message>,
    accepted: seq<Message>,
    now: int)

  function WaitForMessage(q: Queue, wait: int, start: int, now: int, rounds: seq<Round>): GetResult
    decreases |rounds|
  {
    var l := LookFor(q, now, rounds);
    var disposed := l.taken.disposed;
    if l.taken.message.Some? then GetResult(l.queue, Got(l.taken.message.value), disposed, l.accepted, now)
    else if l.queue.stop then GetResult(l.queue, Quitting, disposed, l.accepted, now)
    else if rounds == [] then GetResult(l.queue, StillWaiting, disposed, l.accepted, now)
    else
      var after := AfterArrivals(l.queue, rounds[0].arrivals);
      var accepted := l.accepted + AllAccepted(l.queue, rounds[0].arrivals);
      if !rounds[0].ok then GetResult(after, WaitFailed, disposed, accepted, now)
      else if wait != FOREVER && rounds[0].now - start >= wait then
        GetResult(after, TimedOut, disposed, accepted, rounds[0].now)
      else
        var r := WaitForMessage(after, wait, start, rounds[0].now, rounds[1..]);
        r.(disposed := disposed + r.disposed, accepted := accepted + r.accepted)
  }

  function AfterGet(q: Queue, wait: int, start: int, rounds: seq<Round>): GetResult {
    if q.peek.Some? then GetResult(q.(peek := None), Got(q.peek.value), [], [], start)
    else WaitForMessage(q, wait, start, start, rounds)
  }

  function AfterPeek(q: Queue, wait: int, start: int, rounds: seq<Round>): GetResult {
    if q.peek.Some? then GetResult(q, Got(q.peek.value), [], [], start)
    else
      var r := AfterGet(q, wait, start, rounds);
      if r.outcome.Got? then r.(queue := r.queue.(peek := Some(r.outcome.message))) else r
  }

  function Spares(handler: Option<nat>, id: nat): Message -> bool {
    (m: Message) => !Matches(m, handler, id)
  }

  function Hits(handler: Option<nat>, id: nat): Message -> bool {
    (m: Message) => Matches(m, handler, id)
  }

  function OnMessage(p: Message -> bool): Delayed -> bool {
    (d: Delayed) => p(d.msg)
  }

  function AfterClear(q: Queue, handler: Option<nat>, id: nat): Queue {
    var spares := Spares(handler, id);
    Queue(if q.peek.Some? && !spares(q.peek.value) then None else q.peek, Keep(spares, q.ready),
          Keep(OnMessage(spares), q.schedule), q.nextNumber, q.stop)
  }

  // ---- The order in which messages leave ----

  function Messages(s: seq<Delayed>): (r: seq<Message>)
    ensures |r| == |s|
  {
    seq(|s|, i requires 0 <= i < |s| => s[i].msg)
  }

  /** All messages held, in the order in which they are to be handed out. */
  function Order(q: Queue): seq<Message> {
    One(q.peek) + q.ready + Messages(q.schedule)
  }

  function DueBy(now: int): Delayed -> bool {
    (d: Delayed) => d.runTime <= now
  }

  function Lasting(): Message -> bool {
    (m: Message) => m.id != DISPOSE
  }

  /** What can be handed out at a time without waiting. */
  function AvailableAt(q: Queue, now: int): seq<Message> {
    One(q.peek) + Keep(Lasting(), q.ready + Messages(Keep(DueBy(now), q.schedule)))
  }

  lemma {:induction false} MessagesOfKept(p: Message -> bool, s: seq<Delayed>)
    ensures Messages(Keep(OnMessage(p), s)) == Keep(p, Messages(s))
  {
    if s != [] {
      MessagesOfKept(p, s[..|s| - 1]);
      assert Messages(s)[..|s| - 1] == Messages(s[..|s| - 1]);
    }
  }

  /** On a sorted schedule the due messages come first. */
  lemma {:induction false} DueComeFirst(s: seq<Delayed>, now: int)
    requires StrictlySorted(s)
    ensures var due := Keep(DueBy(now), s);
            due == s[..|due|] && forall d :: d in s[|due|..] ==> now < d.runTime
  {
    if s != [] {
      var rest, last := s[..|s| - 1], s[|s| - 1];
      DueComeFirst(rest, now);
      var due := Keep(DueBy(now), rest);
      assert s[|due|..] == rest[|due|..] + [last];
      if |due| < |rest| {
        assert rest[|due|] in rest[|due|..];
        assert Before(s[|due|], last);
      }
    }
  }

  /** Moving until a message is not yet due moves all that are due. */
  lemma {:induction false} MoveDueMovesAllDue(q: Queue, now: int)
    requires StrictlySorted(q.schedule)
    ensures var due := Keep(DueBy(now), q.schedule);
            MoveDue(q, now) == q.(ready := q.ready + Messages(due), schedule := q.schedule[|due|..])
    decreases |q.schedule|
  {
    var s := q.schedule;
    if s == [] || now < s[0].runTime {
      KeepNone(DueBy(now), s);
      assert q.ready + Messages([]) == q.ready;
    } else {
      MoveDueMovesAllDue(q.(ready := q.ready + [s[0].msg], schedule := s[1..]), now);
      FirstIsDue(s, now);
      Regroup(q.ready, [s[0].msg], Messages(Keep(DueBy(now), s[1..])));
      hide Keep, Messages, StrictlySorted;
    }
  }

  lemma FirstIsDue(s: seq<Delayed>, now: int)
    requires s != [] && s[0].runTime <= now
    ensures var due, later := Keep(DueBy(now), s), Keep(DueBy(now), s[1..]);
            |due| == |later| + 1 && Messages(due) == [s[0].msg] + Messages(later) && s[|due|..] == s[1..][|later|..]
  {
    assert s == [s[0]] + s[1..];
    KeepFirst(DueBy(now), s[0], s[1..]);
    FirstMessage(s[0], Keep(DueBy(now), s[1..]));
    hide Keep, Messages;
  }

  lemma FirstMessage(d: Delayed, s: seq<Delayed>)
    ensures Messages([d] + s) == [d.msg] + Messages(s)
  {
  }

  lemma MoveDueKeepsOrder(q: Queue, now: int)
    requires StrictlySorted(q.schedule)
    ensures Order(MoveDue(q, now)) == Order(q)
  {
    MoveDueMovesAllDue(q, now);
    DueComeFirst(q.schedule, now);
    var n := |Keep(DueBy(now), q.schedule)|;
    assert Messages(q.schedule[..n]) + Messages(q.schedule[n..]) == Messages(q.schedule);
  }

  lemma InsertKeepsSorted(s: seq<Delayed>, d: Delayed)
    requires StrictlySorted(s) && forall x :: x in s ==> x.number < d.number
    ensures StrictlySorted(InsertByKey(s, d))
    ensures forall x :: x in InsertByKey(s, d) <==> x in s || x == d
  {
    if s != [] && Before(d, s[|s| - 1]) {
      var rest, last := s[..|s| - 1], s[|s| - 1];
      InsertKeepsSorted(rest, d);
      var r := InsertByKey(rest, d);
      assert forall x :: x in r ==> Before(x, last);
      assert forall i :: 0 <= i < |r| ==> r[i] in r;
      assert s == rest + [last];
    }
  }

  lemma ArrivalKeepsWellFormed(q: Queue, a: Arrival)
    requires WellFormed(q)
    ensures WellFormed(AfterArrival(q, a))
  {
    if a.PostedAt? || a.PushedAt? {
      InsertKeepsSorted(q.schedule, Delayed(a.runTime, q.nextNumber, a.msg));
    }
  }

  lemma {:induction false} ArrivalsKeepWellFormed(q: Queue, arrivals: seq<Arrival>)
    requires WellFormed(q)
    ensures WellFormed(AfterArrivals(q, arrivals))
    decreases |arrivals|
  {
    if arrivals != [] {
      ArrivalKeepsWellFormed(q, arrivals[0]);
      ArrivalsKeepWellFormed(AfterArrival(q, arrivals[0]), arrivals[1..]);
    }
  }

  lemma MoveDueKeepsWellFormed(q: Queue, now: int)
    requires WellFormed(q)
    ensures WellFormed(MoveDue(q, now)) && MoveDue(q, now).peek == q.peek && MoveDue(q, now).stop == q.stop
  {
    MoveDueMovesAllDue(q, now);
  }

  lemma {:induction false} ArrivalsKeepPeek(q: Queue, arrivals: seq<Arrival>)
    ensures AfterArrivals(q, arrivals).peek == q.peek
    decreases |arrivals|
  {
    if arrivals != [] {
      ArrivalsKeepPeek(AfterArrival(q, arrivals[0]), arrivals[1..]);
    }
  }

  lemma TakingKeepsWellFormed(q: Queue)
    requires WellFormed(q)
    ensures WellFormed(TakeReady(q).queue) && TakeReady(q).queue.peek == q.peek
  {
    hide TakeReady, StrictlySorted;
  }

  lemma LookKeepsWellFormed(q: Queue, now: int, rounds: seq<Round>)
    requires WellFormed(q)
    ensures WellFormed(LookFor(q, now, rounds).queue) && LookFor(q, now, rounds).queue.peek == q.peek
  {
    hide WellFormed, MoveDue, Amid, TakeReady, AfterArrivals, AllAccepted;
    MoveDueKeepsWellFormed(q, now);
    var m := MoveDue(q, now);
    var amid := Amid(m, Between(rounds));
    ArrivalsKeepWellFormed(m, amid);
    ArrivalsKeepPeek(m, amid);
    TakingKeepsWellFormed(AfterArrivals(m, amid));
    var t := TakeReady(AfterArrivals(m, amid));
    var late := if t.message.Some? then [] else Late(rounds);
    ArrivalsKeepWellFormed(t.queue, late);
    ArrivalsKeepPeek(t.queue, late);
  }

  lemma {:induction false} WaitKeepsWellFormed(q: Queue, wait: int, start: int, now: int, rounds: seq<Round>)
    requires WellFormed(q)
    ensures WellFormed(WaitForMessage(q, wait, start, now, rounds).queue)
    ensures WaitForMessage(q, wait, start, now, rounds).queue.peek == q.peek
    ensures var o := WaitForMessage(q, wait, start, now, rounds).outcome; o.Got? ==> o.message.id != DISPOSE
    decreases |rounds|
  {
    hide WellFormed, LookFor, AfterArrivals, AllAccepted;
    LookKeepsWellFormed(q, now, rounds);
    var l := LookFor(q, now, rounds);
    if l.taken.message.None? && !l.queue.stop && rounds != [] {
      ArrivalsKeepWellFormed(l.queue, rounds[0].arrivals);
      ArrivalsKeepPeek(l.queue, rounds[0].arrivals);
      WaitKeepsWellFormed(AfterArrivals(l.queue, rounds[0].arrivals), wait, start, rounds[0].now, rounds[1..]);
    }
  }

  // ---- What can be had without waiting ----

  predicate IsImmediate(a: Arrival) {
    a.Posted? || a.Pushed?
  }

  /** The immediate messages that a queue takes in. */
  function Immediate(q: Queue, arrivals: seq<Arrival>): seq<Message>
    decreases |arrivals|
  {
    if arrivals == [] then []
    else
      (if IsImmediate(arrivals[0]) && !Refused(q, arrivals[0]) then [arrivals[0].msg] else [])
      + Immediate(AfterArrival(q, arrivals[0]), arrivals[1..])
  }

  lemma {:induction false} ArrivalsAppend(q: Queue, arrivals: seq<Arrival>)
    ensures AfterArrivals(q, arrivals).ready == q.ready + Immediate(q, arrivals)
    decreases |arrivals|
  {
    if arrivals != [] {
      var next := AfterArrival(q, arrivals[0]);
      ArrivalsAppend(next, arrivals[1..]);
      var first := if IsImmediate(arrivals[0]) && !Refused(q, arrivals[0]) then [arrivals[0].msg] else [];
      Regroup(q.ready, first, Immediate(next, arrivals[1..]));
      assert q.ready + [] == q.ready;
    }
  }

  /** A stopped queue takes in nothing as long as no push is caught behind its test of the flag. */
  lemma {:induction false} StoppedRefusesAll(q: Queue, arrivals: seq<Arrival>)
    requires q.stop && forall i :: 0 <= i < |arrivals| ==> !arrivals[i].Pushed? && !arrivals[i].PushedAt?
    ensures AfterArrivals(q, arrivals) == q && Immediate(q, arrivals) == []
    decreases |arrivals|
  {
    if arrivals != [] {
      assert AfterArrival(q, arrivals[0]) == q;
      StoppedRefusesAll(q, arrivals[1..]);
    }
  }

  lemma {:induction false} StoppedStaysStopped(q: Queue, arrivals: seq<Arrival>)
    requires q.stop
    ensures AfterArrivals(q, arrivals).stop
    decreases |arrivals|
  {
    if arrivals != [] {
      StoppedStaysStopped(AfterArrival(q, arrivals[0]), arrivals[1..]);
    }
  }

  /** What is available is what the due messages make ready, but for the requests to dispose. */
  lemma DueIsAvailable(q: Queue, now: int)
    requires WellFormed(q) && q.peek.None?
    ensures AvailableAt(q, now) == Keep(Lasting(), MoveDue(q, now).ready)
    ensures forall d :: d in MoveDue(q, now).schedule ==> now < d.runTime
  {
    MoveDueMovesAllDue(q, now);
    DueComeFirst(q.schedule, now);
    hide Keep, MoveDue, Messages, StrictlySorted;
  }

  lemma ReadyIsAvailable(q: Queue, now: int)
    requires q.peek.None?
    ensures Keep(Lasting(), q.ready) <= AvailableAt(q, now)
    ensures (forall d :: d in q.schedule ==> now < d.runTime) ==> AvailableAt(q, now) == Keep(Lasting(), q.ready)
  {
    var due := Keep(DueBy(now), q.schedule);
    KeepConcat(Lasting(), q.ready, Messages(due));
    if forall d :: d in q.schedule ==> now < d.runTime {
      KeepNone(DueBy(now), q.schedule);
      assert q.ready + Messages([]) == q.ready;
    }
    hide Keep, Messages;
  }

  /** A look takes the first message that is available, whatever arrives in its course, and
      leaves the others. */
  lemma LookTakesFirst(q: Queue, now: int, rounds: seq<Round>)
    requires WellFormed(q) && q.peek.None?
    ensures var l := LookFor(q, now, rounds);
            var available := AvailableAt(q, now);
            if available != []
            then l.taken.message == Some(available[0]) && available[1..] <= AvailableAt(l.queue, now)
                 && (rounds == [] ==> AvailableAt(l.queue, now) == available[1..])
            else (Between(rounds) == [] ==> l.taken.message == None)
                 && (q.stop ==> l.queue.stop) && (rounds == [] ==> l.queue.stop == q.stop)
  {
    assert Keep(Lasting(), []) == [];
    hide Keep, MoveDue, TakeReady, AvailableAt, WellFormed, StrictlySorted;
    DueIsAvailable(q, now);
    MoveDueKeepsWellFormed(q, now);
    var m := MoveDue(q, now);
    var amid := Amid(m, Between(rounds));
    var c := AfterArrivals(m, amid);
    var t := TakeReady(c);
    ArrivalsAppend(m, amid);
    ArrivalsKeepPeek(m, amid);
    KeepConcat(Lasting(), m.ready, Immediate(m, amid));
    LastingOfTaken(t);
    if q.stop {
      StoppedStaysStopped(m, amid);
      StoppedStaysStopped(t.queue, Late(rounds));
    }
    hide AllAccepted, Amid, Immediate;
    if t.message.Some? {
      ReadyIsAvailable(t.queue, now);
    }
    FirstOfJoined(AvailableAt(q, now), Keep(Lasting(), Immediate(m, amid)), t.message, Keep(Lasting(), t.queue.ready));
  }

  lemma FirstOfJoined(a: seq<Message>, b: seq<Message>, first: Option<Message>, rest: seq<Message>)
    requires a + b == One(first) + rest && (first.None? ==> rest == [])
    ensures a != [] ==> first == Some(a[0]) && a[1..] + b == rest && a[1..] <= rest
    ensures a == [] && b == [] ==> first == None
  {
    if a != [] {
      assert (a + b)[0] == a[0];
      assert (a + b)[1..] == a[1..] + b;
      assert first.Some?;
    }
  }

  lemma LastingOfTaken(t: Taken)
    requires forall m :: m in t.disposed ==> m.id == DISPOSE
    requires t.message.Some? ==> t.message.value.id != DISPOSE
    ensures Keep(Lasting(), t.disposed + One(t.message) + t.queue.ready)
            == One(t.message) + Keep(Lasting(), t.queue.ready)
  {
    KeepConcat(Lasting(), t.disposed + One(t.message), t.queue.ready);
    KeepConcat(Lasting(), t.disposed, One(t.message));
    KeepNone(Lasting(), t.disposed);
    KeepAll(Lasting(), One(t.message));
    hide Keep;
  }

  /** A Get hands out the first message that is available at once, and leaves the others ahead
      of all that arrives meanwhile. With none available it does not wait if the thread is
      quitting: it gives up, unless a message is pushed between two that it disposes of. */
  lemma GetTakesFirst(q: Queue, wait: int, start: int, rounds: seq<Round>)
    requires WellFormed(q)
    ensures var r := AfterGet(q, wait, start, rounds);
            var available := AvailableAt(q, start);
            if available != []
            then r.outcome == Got(available[0]) && r.now == start && available[1..] <= AvailableAt(r.queue, start)
                 && (rounds == [] ==> AvailableAt(r.queue, start) == available[1..])
            else if q.stop then r.outcome == Quitting || (r.outcome.Got? && Between(rounds) != [])
            else rounds == [] ==> r.outcome == StillWaiting
  {
    if q.peek.None? {
      LookTakesFirst(q, start, rounds);
    } else {
      PeekedIsFirst(q, start);
    }
    hide LookFor, AvailableAt, WellFormed;
  }

  lemma PeekedIsFirst(q: Queue, now: int)
    requires q.peek.Some?
    ensures AvailableAt(q, now) == [q.peek.value] + AvailableAt(q.(peek := None), now)
  {
    hide Keep, Messages;
  }

  /** The messages that repeated calls of Get hand out at a time, until there is none. */
  ghost function Drain(q: Queue, now: int): seq<Message>
    requires WellFormed(q)
    decreases |AvailableAt(q, now)|
  {
    var r := AfterGet(q, 0, now, []);
    GetTakesFirst(q, 0, now, []);
    GetKeepsWellFormed(q, 0, now, []);
    if r.outcome.Got? then [r.outcome.message] + Drain(r.queue, now) else []
  }

  lemma GetKeepsWellFormed(q: Queue, wait: int, start: int, rounds: seq<Round>)
    requires WellFormed(q)
    ensures WellFormed(AfterGet(q, wait, start, rounds).queue)
    ensures var o := AfterGet(q, wait, start, rounds).outcome; o.Got? ==> o.message.id != DISPOSE
  {
    if q.peek.None? {
      WaitKeepsWellFormed(q, wait, start, start, rounds);
    }
  }

  /** Draining hands out the peeked, the ready and the due messages in this order, all but the
      requests to dispose, and whether or not the thread is quitting. */
  lemma {:induction false} DrainHandsOutAvailable(q: Queue, now: int)
    requires WellFormed(q)
    ensures Drain(q, now) == AvailableAt(q, now)
    decreases |AvailableAt(q, now)|
  {
    hide AvailableAt, AfterGet, WellFormed;
    GetTakesFirst(q, 0, now, []);
    GetKeepsWellFormed(q, 0, now, []);
    var r := AfterGet(q, 0, now, []);
    if r.outcome.Got? {
      DrainHandsOutAvailable(r.queue, now);
    }
  }

  // ---- Clearing ----

  lemma ClearKeepsWellFormed(q: Queue, handler: Option<nat>, id: nat)
    requires WellFormed(q)
    ensures WellFormed(AfterClear(q, handler, id))
  {
    KeepStrictlySorted(OnMessage(Spares(handler, id)), q.schedule);
    KeepElements(OnMessage(Spares(handler, id)), q.schedule);
  }

  lemma KeepOfOne<T>(p: T -> bool, o: Option<T>)
    ensures Keep(p, One(o)) == if o.Some? && !p(o.value) then [] else One(o)
  {
    if o.Some? {
      KeepOne(p, o.value);
    }
  }

  /** Clearing takes the matching messages out of the order and moves no other. */
  lemma ClearFiltersOrder(q: Queue, handler: Option<nat>, id: nat)
    ensures Order(AfterClear(q, handler, id)) == Keep(Spares(handler, id), Order(q))
  {
    var p := Spares(handler, id);
    KeepConcat(p, One(q.peek) + q.ready, Messages(q.schedule));
    KeepConcat(p, One(q.peek), q.ready);
    KeepOfOne(p, q.peek);
    MessagesOfKept(p, q.schedule);
    hide Keep, Messages;
  }

  /** Clearing and then draining is the same as draining and then leaving out the matches. */
  lemma ClearCommutesWithDrain(q: Queue, handler: Option<nat>, id: nat, now: int)
    requires WellFormed(q) && WellFormed(AfterClear(q, handler, id))
    ensures Drain(AfterClear(q, handler, id), now) == Keep(Spares(handler, id), Drain(q, now))
  {
    DrainHandsOutAvailable(q, now);
    DrainHandsOutAvailable(AfterClear(q, handler, id), now);
    var p := Spares(handler, id);
    var due := Keep(DueBy(now), q.schedule);
    KeepCommutes(OnMessage(p), DueBy(now), q.schedule);
    MessagesOfKept(p, due);
    KeepConcat(p, q.ready, Messages(due));
    KeepCommutes(p, Lasting(), q.ready + Messages(due));
    KeepConcat(p, One(q.peek), Keep(Lasting(), q.ready + Messages(due)));
    KeepOfOne(p, q.peek);
    hide Keep, Messages, Drain;
  }

  // ---- The thread object ----

  /** Pushing an entry with the next number inserts it in the schedule after all that are due
      no later. */
  lemma PushInserts(c: seq<Delayed>, d: Delayed, after: seq<Delayed>)
    requires StrictlySorted(Schedule(c)) && forall x :: x in Schedule(c) ==> x.number < d.number
    requires multiset(after) == multiset(c) + multiset{d}
    ensures Schedule(after) == InsertByKey(Schedule(c), d)
  {
    InsertKeepsSorted(Schedule(c), d);
    ScheduleIsSorted(after);
    SortedIsUnique(Schedule(after), InsertByKey(Schedule(c), d));
  }

  /** Unsigned 32-bit numbers wrap around. */
  function Increment(n: nat): (r: nat)
    ensures n + 1 < 0x1_0000_0000 ==> r == n + 1
  {
    (n + 1) % 0x1_0000_0000
  }

  lemma PushPosts(q: Queue, c: seq<Delayed>, d: Delayed, after: seq<Delayed>)
    requires WellFormed(q) && q.schedule == Schedule(c) && d.number == q.nextNumber
    requires multiset(after) == multiset(c) + multiset{d}
    ensures var r := AfterArrival(q, PushedAt(d.msg, d.runTime));
            WellFormed(r) && r == q.(schedule := Schedule(after), nextNumber := q.nextNumber + 1)
  {
    ArrivalKeepsWellFormed(q, PushedAt(d.msg, d.runTime));
    PushInserts(c, d, after);
  }

  lemma {:induction false} NumberGrowsByArrivals(q: Queue, arrivals: seq<Arrival>)
    ensures AfterArrivals(q, arrivals).nextNumber >= q.nextNumber
    decreases |arrivals|
  {
    if arrivals != [] {
      NumberGrowsByArrivals(AfterArrival(q, arrivals[0]), arrivals[1..]);
    }
  }

  lemma NumberGrowsByLook(q: Queue, now: int, rounds: seq<Round>)
    ensures LookFor(q, now, rounds).queue.nextNumber >= q.nextNumber
  {
    hide MoveDue, Amid, AfterArrivals, AllAccepted, TakeReady;
    MoveDueKeepsTheRest(q, now);
    var l := LookFor(q, now, rounds);
    NumberGrowsByArrivals(l.scanned, Amid(l.scanned, Between(rounds)));
    NumberGrowsByArrivals(l.taken.queue, l.late);
  }

  lemma {:induction false} NumberGrows(q: Queue, wait: int, start: int, now: int, rounds: seq<Round>)
    ensures var r := WaitForMessage(q, wait, start, now, rounds);
            r.queue.nextNumber >= LookFor(q, now, rounds).queue.nextNumber >= q.nextNumber
    decreases |rounds|
  {
    hide LookFor, AfterArrivals, AllAccepted;
    NumberGrowsByLook(q, now, rounds);
    var l := LookFor(q, now, rounds);
    if l.taken.message.None? && !l.queue.stop && rounds != [] {
      NumberGrowsByArrivals(l.queue, rounds[0].arrivals);
      NumberGrows(AfterArrivals(l.queue, rounds[0].arrivals), wait, start, rounds[0].now, rounds[1..]);
    }
  }

  lemma {:induction false} MoveDueKeepsTheRest(q: Queue, now: int)
    ensures var m := MoveDue(q, now); m.nextNumber == q.nextNumber && m.peek == q.peek && m.stop == q.stop
    decreases |q.schedule|
  {
    if q.schedule != [] && q.schedule[0].runTime <= now {
      MoveDueKeepsTheRest(q.(ready := q.ready + [q.schedule[0].msg], schedule := q.schedule[1..]), now);
    }
  }

  lemma PeekedIsWellFormed(q: Queue)
    requires WellFormed(q)
    ensures WellFormed(q.(peek := None))
  {
  }

  lemma PoppedIsWellFormed(q: Queue)
    requires WellFormed(q) && q.schedule != []
    ensures WellFormed(q.(ready := q.ready + [q.schedule[0].msg], schedule := q.schedule[1..]))
  {
  }

  ghost function Disposing(disposed: seq<Message>, t: Taken): Taken {
    t.(disposed := disposed + t.disposed)
  }

  /** What the passes of a look take, with arrivals after each that disposes of a message. */
  function TakeAmid(q: Queue, between: seq<seq<Arrival>>): Taken {
    TakeReady(AfterArrivals(q, Amid(q, between)))
  }

  lemma NoArrivals(q: Queue)
    ensures AfterArrivals(q, []) == q
  {
  }

  lemma {:induction false} ArrivalsInTwoParts(q: Queue, a: seq<Arrival>, b: seq<Arrival>)
    ensures AfterArrivals(q, a + b) == AfterArrivals(AfterArrivals(q, a), b)
    ensures AllAccepted(q, a + b) == AllAccepted(q, a) + AllAccepted(AfterArrivals(q, a), b)
    decreases |a|
  {
    if a == [] {
      assert a + b == b;
    } else {
      assert (a + b)[1..] == a[1..] + b;
      ArrivalsInTwoParts(AfterArrival(q, a[0]), a[1..], b);
    }
  }

  /** Arrivals do not touch the front: taking it before or after them is the same. */
  lemma {:induction false} ArrivalsKeepFront(q: Queue, arrivals: seq<Arrival>)
    requires q.ready != []
    ensures var rest := AfterArrivals(q.(ready := q.ready[1..]), arrivals);
            AfterArrivals(q, arrivals) == rest.(ready := [q.ready[0]] + rest.ready)
    decreases |arrivals|
  {
    var rest := q.(ready := q.ready[1..]);
    assert q.ready == [q.ready[0]] + rest.ready;
    if arrivals != [] {
      var next, after := AfterArrival(q, arrivals[0]), AfterArrival(rest, arrivals[0]);
      assert next.ready[1..] == after.ready && next.ready[0] == q.ready[0];
      assert next.(ready := next.ready[1..]) == after;
      ArrivalsKeepFront(next, arrivals[1..]);
    }
  }

  lemma TakeAmidStep(q: Queue, disposed: seq<Message>, between: seq<seq<Arrival>>)
    ensures Disposing(disposed, TakeAmid(q, between)) ==
            if q.ready == [] then Taken(q, None, disposed)
            else if q.ready[0].id != DISPOSE then Taken(q.(ready := q.ready[1..]), Some(q.ready[0]), disposed)
            else if between == [] then
              Disposing(disposed + [q.ready[0]], TakeAmid(q.(ready := q.ready[1..]), []))
            else
              Disposing(disposed + [q.ready[0]],
                        TakeAmid(AfterArrivals(q.(ready := q.ready[1..]), between[0]), between[1..]))
  {
    if q.ready != [] && q.ready[0].id == DISPOSE && between != [] {
      hide InsertByKey;
      var rest := q.(ready := q.ready[1..]);
      var after := AfterArrivals(rest, between[0]);
      ArrivalsKeepFront(q, Amid(q, between));
      ArrivalsInTwoParts(rest, between[0], Amid(after, between[1..]));
      FrontIsDisposedOf(AfterArrivals(after, Amid(after, between[1..])), q.ready[0], disposed);
      hide TakeReady, AfterArrivals;
    }
  }

  lemma TakingGrowsNumber(q: Queue, between: seq<seq<Arrival>>)
    ensures TakeAmid(q, between).queue.nextNumber >= q.nextNumber
  {
    NumberGrowsByArrivals(q, Amid(q, between));
    hide AfterArrivals, TakeReady, Amid;
  }

  lemma FrontIsDisposedOf(q: Queue, m: Message, disposed: seq<Message>)
    requires m.id == DISPOSE
    ensures Disposing(disposed, TakeReady(q.(ready := [m] + q.ready))) == Disposing(disposed + [m], TakeReady(q))
  {
    var t := TakeReady(q);
    assert ([m] + q.ready)[1..] == q.ready;
    Regroup(disposed, [m], t.disposed);
  }

  lemma {:induction false} MessagesOfInserted(s: seq<Delayed>, d: Delayed)
    ensures multiset(Messages(InsertByKey(s, d))) == multiset(Messages(s)) + multiset{d.msg}
  {
    if s == [] || !Before(d, s[|s| - 1]) {
      assert Messages(s + [d]) == Messages(s) + [d.msg];
    } else {
      var rest, last := s[..|s| - 1], s[|s| - 1];
      MessagesOfInserted(rest, d);
      assert Messages(InsertByKey(rest, d) + [last]) == Messages(InsertByKey(rest, d)) + [last.msg];
      assert Messages(s) == Messages(rest) + [last.msg];
    }
  }

  lemma LastMessage(s: seq<Delayed>)
    requires s != []
    ensures Messages(s) == Messages(s[..|s| - 1]) + [s[|s| - 1].msg]
  {
  }

  lemma {:induction false} MessagesOfSchedule(c: seq<Delayed>)
    ensures multiset(Messages(Schedule(c))) == multiset(Messages(c))
  {
    hide Messages, InsertByKey;
    if c != [] {
      var rest, last := c[..|c| - 1], c[|c| - 1];
      LastMessage(c);
      MessagesOfSchedule(rest);
      MessagesOfInserted(Schedule(rest), last);
      assert Schedule(c) == InsertByKey(Schedule(rest), last);
    }
  }

  /** Looking through the delayed messages in the layout of the heap finds the same ones. */
  lemma RemovedAreHits(q: Queue, c: seq<Delayed>, p: Message -> bool)
    requires q.schedule == Schedule(c) && StrictlySorted(q.schedule)
    ensures multiset(Keep(p, One(q.peek) + q.ready) + Messages(Keep(OnMessage(p), c))) == multiset(Keep(p, Order(q)))
  {
    KeepCommutesWithSchedule(OnMessage(p), c);
    MessagesOfSchedule(Keep(OnMessage(p), c));
    MessagesOfKept(p, Schedule(c));
    KeepConcat(p, One(q.peek) + q.ready, Messages(q.schedule));
    hide Keep, Messages, Schedule;
  }

  /** The result of a Get of which some part lies behind. */
  ghost function Continued(disposed: seq<Message>, accepted: seq<Message>, r: GetResult): GetResult {
    r.(disposed := disposed + r.disposed, accepted := accepted + r.accepted)
  }

  lemma WaitStep(q: Queue, disposed: seq<Message>, accepted: seq<Message>, wait: int, start: int, now: int,
                 rounds: seq<Round>)
    ensures var l := LookFor(q, now, rounds);
            var r := Continued(disposed, accepted, WaitForMessage(q, wait, start, now, rounds));
            var d := disposed + l.taken.disposed;
            var a := accepted + l.accepted;
            l.queue.nextNumber <= r.queue.nextNumber &&
            if l.taken.message.Some? then r == GetResult(l.queue, Got(l.taken.message.value), d, a, now)
            else if l.queue.stop then r == GetResult(l.queue, Quitting, d, a, now)
            else if rounds == [] then r == GetResult(l.queue, StillWaiting, d, a, now)
            else
              var after := AfterArrivals(l.queue, rounds[0].arrivals);
              var all := a + AllAccepted(l.queue, rounds[0].arrivals);
              after.nextNumber <= r.queue.nextNumber &&
              if !rounds[0].ok then r == GetResult(after, WaitFailed, d, all, now)
              else if wait != FOREVER && rounds[0].now - start >= wait then
                r == GetResult(after, TimedOut, d, all, rounds[0].now)
              else r == Continued(d, all, WaitForMessage(after, wait, start, rounds[0].now, rounds[1..]))
  {
    hide LookFor, AfterArrivals, AllAccepted;
    NumberGrows(q, wait, start, now, rounds);
    var l := LookFor(q, now, rounds);
    if l.taken.message.None? && !l.queue.stop && rounds != [] {
      var after := AfterArrivals(l.queue, rounds[0].arrivals);
      NumberGrows(after, wait, start, rounds[0].now, rounds[1..]);
      var r := WaitForMessage(after, wait, start, rounds[0].now, rounds[1..]);
      var more := AllAccepted(l.queue, rounds[0].arrivals);
      Regroup(disposed, l.taken.disposed, r.disposed);
      Regroup(accepted, l.accepted, more);
      Regroup(accepted + l.accepted, more, r.accepted);
      Regroup(accepted, l.accepted + more, r.accepted);
    }
  }

  class Thread {
    const delayedMessages: PriorityQueue
    var fPeekKeep: bool
    var msgPeek: Message
    var messages: seq<Message>
    var delayedNextNum: nat
    var stop: bool

    ghost function View(): Queue
      reads this, delayedMessages
    {
      Queue(if fPeekKeep then Some(msgPeek) else None, messages, Schedule(delayedMessages.container),
            delayedNextNum, stop)
    }

    ghost predicate Valid()
      reads this, delayedMessages
    {
      delayedMessages.Valid() && WellFormed(View()) && delayedNextNum < 0x1_0000_0000
    }

    constructor ()
      ensures Valid() && fresh(delayedMessages) && View() == Queue(None, [], [], 0, false)
    {
      delayedMessages := new PriorityQueue();
      fPeekKeep, msgPeek, messages, delayedNextNum, stop := false, Message(None, 0, 0), [], 0, false;
    }

    function Size(): (n: nat)
      reads this, delayedMessages
      ensures n == |Order(View())|
    {
      assert |Schedule(delayedMessages.container)| == |multiset(Schedule(delayedMessages.container))|;
      assert |delayedMessages.container| == |multiset(delayedMessages.container)|;
      |messages| + |delayedMessages.container| + if fPeekKeep then 1 else 0
    }

    method Post(m: Message)
      requires Valid()
      modifies this
      ensures Valid() && View() == AfterArrival(old(View()), Posted(m))
    {
      if stop {
        return;
      }
      PushMessage(m);
    }

    /** The second half of Post, with the lock held. */
    method PushMessage(m: Message)
      requires Valid()
      modifies this
      ensures Valid() && View() == AfterArrival(old(View()), Pushed(m))
    {
      messages := messages + [m];
    }

    /** The number of the next delayed message must not wrap around to zero. */
    method DoDelayPost(runAt: int, m: Message)
      requires Valid() && AfterArrival(View(), PostedAt(m, runAt)).nextNumber < 0x1_0000_0000
      modifies this, delayedMessages
      ensures Valid() && View() == AfterArrival(old(View()), PostedAt(m, runAt))
    {
      if !stop {
        PushDelayed(runAt, m);
      }
    }

    /** The second half of DoDelayPost, with the lock held. */
    method PushDelayed(runAt: int, m: Message)
      requires Valid() && AfterArrival(View(), PushedAt(m, runAt)).nextNumber < 0x1_0000_0000
      modifies this, delayedMessages
      ensures Valid() && View() == AfterArrival(old(View()), PushedAt(m, runAt))
    {
      ghost var q, c := View(), delayedMessages.container;
      hide AfterArrival, StrictlySorted, WellFormed, InsertByKey, Schedule, HeapFrom;
      delayedMessages.Push(Delayed(runAt, delayedNextNum, m));
      PushPosts(q, c, Delayed(runAt, q.nextNumber, m), delayedMessages.container);
      delayedNextNum := Increment(delayedNextNum);
    }

    method PostDelayed(delay: int, now: int, m: Message)
      requires Valid() && AfterArrival(View(), PostedAt(m, now + delay)).nextNumber < 0x1_0000_0000
      modifies this, delayedMessages
      ensures Valid() && View() == AfterArrival(old(View()), PostedAt(m, now + delay))
    {
      DoDelayPost(now + delay, m);
    }

    method Quit()
      requires Valid()
      modifies this
      ensures Valid() && View() == AfterArrival(old(View()), QuitAsked)
    {
      stop := true;
    }

    method Restart()
      requires Valid()
      modifies this
      ensures Valid() && View() == old(View()).(stop := false)
    {
      stop := false;
    }

    /** What the other threads do while this one waits. */
    method LetArrive(arrivals: seq<Arrival>)
      requires Valid() && AfterArrivals(View(), arrivals).nextNumber < 0x1_0000_0000
      modifies this, delayedMessages
      ensures Valid() && View() == AfterArrivals(old(View()), arrivals)
    {
      for i := 0 to |arrivals|
        invariant Valid() && AfterArrivals(View(), arrivals[i..]) == AfterArrivals(old(View()), arrivals)
      {
        NumberGrowsByArrivals(AfterArrival(View(), arrivals[i]), arrivals[i..][1..]);
        assert arrivals[i..][1..] == arrivals[i + 1..];
        match arrivals[i]
        case Posted(m) => Post(m);
        case PostedAt(m, runTime) => DoDelayPost(runTime, m);
        case Pushed(m) => PushMessage(m);
        case PushedAt(m, runTime) => PushDelayed(runTime, m);
        case QuitAsked => Quit();
      }
    }

    /** The first pass of a Get: makes the delayed messages ready that are due. */
    method MoveDueMessages(msCurrent: int)
      requires Valid()
      modifies this, delayedMessages
      ensures Valid() && View() == MoveDue(old(View()), msCurrent)
    {
      hide InsertByKey, Schedule, HeapFrom, StrictlySorted;
      while !delayedMessages.Empty()
        invariant Valid() && MoveDue(View(), msCurrent) == MoveDue(old(View()), msCurrent)
        decreases |Schedule(delayedMessages.container)|
      {
        ghost var c, q := delayedMessages.container, View();
        TopIsFirst(c);
        var top := delayedMessages.Top();
        if msCurrent < top.runTime {
          break;
        }
        messages := messages + [top.msg];
        delayedMessages.Pop();
        RestOfSchedule(c, delayedMessages.container);
        PoppedIsWellFormed(q);
      }
    }

    /** The passes of a Get: takes the first ready message, carrying out the requests to dispose
        before it. The lock is not held between two passes. */
    method TakeReadyMessage(between: seq<seq<Arrival>>) returns (message: Option<Message>, disposed: seq<Message>)
      requires Valid() && TakeAmid(View(), between).queue.nextNumber < 0x1_0000_0000
      modifies this, delayedMessages
      ensures Valid() && TakeAmid(old(View()), between) == Taken(View(), message, disposed)
    {
      hide TakeAmid, Schedule, HeapFrom, StrictlySorted, AfterArrivals;
      disposed := [];
      var i := 0;
      while |messages| > 0
        invariant Valid() && 0 <= i <= |between|
        invariant Disposing(disposed, TakeAmid(View(), between[i..])) == TakeAmid(old(View()), between)
        decreases |between| - i, |messages|
      {
        TakeAmidStep(View(), disposed, between[i..]);
        var m := messages[0];
        messages := messages[1..];
        if m.id != DISPOSE {
          return Some(m), disposed;
        }
        disposed := disposed + [m];
        if i < |between| {
          TakingGrowsNumber(AfterArrivals(View(), between[i]), between[i + 1..]);
          LetArrive(between[i]);
          i := i + 1;
        }
      }
      TakeAmidStep(View(), disposed, between[i..]);
      message := None;
    }

    /** Returns the peeked message, or waits for one in rounds. */
    method Get(wait: int, start: int, rounds: seq<Round>)
      returns (outcome: Outcome, disposed: seq<Message>, msCurrent: int)
      requires Valid() && AfterGet(View(), wait, start, rounds).queue.nextNumber < 0x1_0000_0000
      modifies this, delayedMessages
      ensures Valid()
      ensures var r := AfterGet(old(View()), wait, start, rounds);
              View() == r.queue && outcome == r.outcome && disposed == r.disposed && msCurrent == r.now
    {
      hide WellFormed, HeapFrom, Schedule, LookFor, WaitForMessage, AfterArrivals, AllAccepted;
      disposed, msCurrent := [], start;
      if fPeekKeep {
        PeekedIsWellFormed(View());
        fPeekKeep := false;
        return Got(msgPeek), disposed, msCurrent;
      }
      ghost var accepted := [];
      var i := 0;
      while true
        invariant Valid() && 0 <= i <= |rounds|
        invariant Continued(disposed, accepted, WaitForMessage(View(), wait, start, msCurrent, rounds[i..]))
                  == WaitForMessage(old(View()), wait, start, start, rounds)
        decreases |rounds| - i
      {
        WaitStep(View(), disposed, accepted, wait, start, msCurrent, rounds[i..]);
        ghost var l := LookFor(View(), msCurrent, rounds[i..]);
        var message, more := Look(msCurrent, rounds[i..]);
        disposed, accepted := disposed + more, accepted + l.accepted;
        if message.Some? {
          return Got(message.value), disposed, msCurrent;
        }
        if stop {
          return Quitting, disposed, msCurrent;
        }
        if i == |rounds| {
          return StillWaiting, disposed, msCurrent;
        }
        var round := rounds[i];
        accepted := accepted + AllAccepted(l.queue, round.arrivals);
        LetArrive(round.arrivals);
        if !round.ok {
          return WaitFailed, disposed, msCurrent;
        }
        msCurrent := round.now;
        if wait != FOREVER && msCurrent - start >= wait {
          return TimedOut, disposed, msCurrent;
        }
        i := i + 1;
      }
    }

    /** One look at the queue, up to the test of the stop flag. */
    method Look(msCurrent: int, rounds: seq<Round>) returns (message: Option<Message>, disposed: seq<Message>)
      requires Valid() && LookFor(View(), msCurrent, rounds).queue.nextNumber < 0x1_0000_0000
      modifies this, delayedMessages
      ensures Valid()
      ensures var l := LookFor(old(View()), msCurrent, rounds);
              View() == l.queue && message == l.taken.message && disposed == l.taken.disposed
    {
      hide WellFormed, HeapFrom, Schedule, MoveDue, Amid, AfterArrivals, AllAccepted, TakeReady;
      ghost var l := LookFor(View(), msCurrent, rounds);
      NumberGrowsByArrivals(l.taken.queue, l.late);
      NoArrivals(l.taken.queue);
      MoveDueMessages(msCurrent);
      message, disposed := TakeReadyMessage(Between(rounds));
      if message.None? {
        LetArrive(Late(rounds));
      }
    }

    method Peek(wait: int, start: int, rounds: seq<Round>)
      returns (outcome: Outcome, disposed: seq<Message>, msCurrent: int)
      requires Valid() && AfterPeek(View(), wait, start, rounds).queue.nextNumber < 0x1_0000_0000
      modifies this, delayedMessages
      ensures Valid()
      ensures var r := AfterPeek(old(View()), wait, start, rounds);
              View() == r.queue && outcome == r.outcome && disposed == r.disposed && msCurrent == r.now
    {
      if fPeekKeep {
        return Got(msgPeek), [], start;
      }
      GetKeepsWellFormed(View(), wait, start, rounds);
      outcome, disposed, msCurrent := Get(wait, start, rounds);
      if outcome.Got? {
        msgPeek := outcome.message;
        fPeekKeep := true;
      }
    }

    /** Removes the matching messages and returns them, in the order in which they are found. */
    method Clear(handler: Option<nat>, id: nat) returns (removed: seq<Message>)
      requires Valid()
      modifies this, delayedMessages
      ensures Valid() && View() == AfterClear(old(View()), handler, id)
      ensures removed == Keep(Hits(handler, id), One(old(View()).peek) + old(messages))
                         + Messages(Keep(OnMessage(Hits(handler, id)), old(delayedMessages.container)))
      ensures multiset(removed) == multiset(Keep(Hits(handler, id), Order(old(View()))))
    {
      hide StrictlySorted, Schedule, HeapFrom, Keep;
      RemovedAreHits(View(), delayedMessages.container, Hits(handler, id));
      removed := [];
      if fPeekKeep && Matches(msgPeek, handler, id) {
        removed := removed + [msgPeek];
        fPeekKeep := false;
      }
      KeepOfOne(Hits(handler, id), old(View()).peek);
      assert removed == Keep(Hits(handler, id), One(old(View()).peek));
      KeepConcat(Hits(handler, id), One(old(View()).peek), messages);
      ClearKeepsWellFormed(old(View()), handler, id);
      hide WellFormed, Messages;
      var ready := ClearReady(handler, id);
      var delayed := ClearDelayed(handler, id);
      removed := removed + ready + delayed;
    }

    method ClearReady(handler: Option<nat>, id: nat) returns (removed: seq<Message>)
      modifies this
      ensures messages == Keep(Spares(handler, id), old(messages))
      ensures removed == Keep(Hits(handler, id), old(messages))
      ensures fPeekKeep == old(fPeekKeep) && msgPeek == old(msgPeek) && stop == old(stop)
      ensures delayedNextNum == old(delayedNextNum)
    {
      removed := [];
      var it := 0;
      ghost var seen := 0;
      while it < |messages|
        invariant 0 <= seen <= |old(messages)| && 0 <= it <= |messages|
        invariant messages[..it] == Keep(Spares(handler, id), old(messages)[..seen])
        invariant messages[it..] == old(messages)[seen..]
        invariant removed == Keep(Hits(handler, id), old(messages)[..seen])
        invariant fPeekKeep == old(fPeekKeep) && msgPeek == old(msgPeek) && stop == old(stop)
        invariant delayedNextNum == old(delayedNextNum)
        decreases |messages| - it
      {
        assert old(messages)[..seen + 1][..seen] == old(messages)[..seen];
        assert messages[it] == old(messages)[seen];
        assert messages[it + 1..] == old(messages)[seen + 1..] by {
          assert messages[it..][1..] == old(messages)[seen..][1..];
        }
        if Matches(messages[it], handler, id) {
          removed := removed + [messages[it]];
          messages := messages[..it] + messages[it + 1..];
        } else {
          it := it + 1;
        }
        seen := seen + 1;
      }
      assert old(messages)[..seen] == old(messages);
    }

    /** Moves the spared entries to the front, cuts off the rest and restores the heap. */
    method ClearDelayed(handler: Option<nat>, id: nat) returns (removed: seq<Message>)
      requires delayedMessages.Valid() && StrictlySorted(Schedule(delayedMessages.container))
      modifies delayedMessages
      ensures delayedMessages.Valid()
      ensures Schedule(delayedMessages.container)
              == Keep(OnMessage(Spares(handler, id)), Schedule(old(delayedMessages.container)))
      ensures removed == Messages(Keep(OnMessage(Hits(handler, id)), old(delayedMessages.container)))
    {
      hide Schedule, HeapFrom, StrictlySorted;
      ghost var c := delayedMessages.container;
      ghost var spares, hits := OnMessage(Spares(handler, id)), OnMessage(Hits(handler, id));
      removed := [];
      var newEnd := 0;
      for it := 0 to |delayedMessages.container|
        invariant newEnd <= it && |delayedMessages.container| == |c|
        invariant delayedMessages.container[..newEnd] == Keep(spares, c[..it])
        invariant delayedMessages.container[it..] == c[it..]
        invariant removed == Messages(Keep(hits, c[..it]))
      {
        assert c[..it + 1][..it] == c[..it];
        var entry := delayedMessages.container[it];
        assert entry == c[it];
        assert delayedMessages.container[it + 1..] == c[it + 1..] by {
          assert delayedMessages.container[it..][1..] == c[it..][1..];
        }
        if Matches(entry.msg, handler, id) {
          removed := removed + [entry.msg];
        } else {
          delayedMessages.container := delayedMessages.container[newEnd := entry];
          newEnd := newEnd + 1;
        }
      }
      assert c[..|c|] == c;
      delayedMessages.container := delayedMessages.container[..newEnd];
      KeepCommutesWithSchedule(spares, c);
      KeepStrictlySorted(spares, Schedule(c));
      ghost var kept := delayedMessages.container;
      delayedMessages.Reheap();
      ScheduleIgnoresLayout(kept, delayedMessages.container);
    }
  }
}
