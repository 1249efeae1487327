/** What callers of a thread's message queue rely on, in terms of handlers, identifiers and times. */
module ThreadQueueUse {
  import opened Options
  import opened Sequences
  import opened DelayedQueue
  import opened ThreadQueues
  import opened ThreadQueueRuns

  // ---- What a clear leaves ----

  function OtherHandler(handler: nat): Message -> bool {
    (m: Message) => m.handler != Some(handler)
  }

  function OtherId(id: nat): Message -> bool {
    (m: Message) => m.id != id
  }

  function OtherHandlerOrId(handler: nat, id: nat): Message -> bool {
    (m: Message) => m.handler != Some(handler) || m.id != id
  }

  /** A clear with no handler and the identifier for any message empties the queue. */
  lemma ClearOfAll(q: Queue)
    ensures Order(AfterClear(q, None, 0xFFFF_FFFF)) == []
  {
    ClearFiltersOrder(q, None, 0xFFFF_FFFF);
    KeepNone(Spares(None, 0xFFFF_FFFF), Order(q));
    hide Keep, Order, AfterClear;
  }

  /** With that identifier, a clear leaves exactly the messages of other handlers, in order. */
  lemma ClearOfHandler(q: Queue, handler: nat)
    ensures Order(AfterClear(q, Some(handler), 0xFFFF_FFFF)) == Keep(OtherHandler(handler), Order(q))
  {
    ClearFiltersOrder(q, Some(handler), 0xFFFF_FFFF);
    KeepSame(Spares(Some(handler), 0xFFFF_FFFF), OtherHandler(handler), Order(q));
    hide Keep, Order, AfterClear;
  }

  /** With no handler and any other identifier, it leaves the messages with different ones. */
  lemma ClearOfId(q: Queue, id: nat)
    requires id != 0xFFFF_FFFF
    ensures Order(AfterClear(q, None, id)) == Keep(OtherId(id), Order(q))
  {
    ClearFiltersOrder(q, None, id);
    KeepSame(Spares(None, id), OtherId(id), Order(q));
    hide Keep, Order, AfterClear;
  }

  /** With both, it leaves the messages that differ in one of them. */
  lemma ClearOfHandlerAndId(q: Queue, handler: nat, id: nat)
    requires id != 0xFFFF_FFFF
    ensures Order(AfterClear(q, Some(handler), id)) == Keep(OtherHandlerOrId(handler, id), Order(q))
  {
    ClearFiltersOrder(q, Some(handler), id);
    KeepSame(Spares(Some(handler), id), OtherHandlerOrId(handler, id), Order(q));
    hide Keep, Order, AfterClear;
  }

  // ---- What can be had ----

  /** The message is ready, or its time has come. */
  ghost predicate IsReadyAt(q: Queue, now: int, m: Message) {
    m in q.ready || exists d :: d in q.schedule && d.msg == m && d.runTime <= now
  }

  /** What can be had at once is the peeked message, and all ready and due messages but the requests
      to dispose of an object. */
  lemma AvailableExactly(q: Queue, now: int, m: Message)
    ensures m in AvailableAt(q, now) <==> q.peek == Some(m) || (m.id != 0xFFFF_FFFE && IsReadyAt(q, now, m))
  {
    var due := Keep(DueBy(now), q.schedule);
    KeepElements(Lasting(), q.ready + Messages(due));
    KeepElements(DueBy(now), q.schedule);
    hide Keep;
    if d :| d in q.schedule && d.msg == m && d.runTime <= now {
      var i :| 0 <= i < |due| && due[i] == d;
      assert Messages(due)[i] == m;
    }
    assert forall i :: 0 <= i < |due| ==> Messages(due)[i] == due[i].msg && due[i] in due;
  }

  /** No Get and no Peek returns a request to dispose, and what they dispose of is nothing else. */
  lemma {:induction false} OnlyRequestsAreDisposedOf(q: Queue, wait: int, start: int, now: int, rounds: seq<Round>)
    requires WellFormed(q)
    ensures var r := WaitForMessage(q, wait, start, now, rounds);
            (r.outcome.Got? ==> r.outcome.message.id != 0xFFFF_FFFE)
            && forall m :: m in r.disposed ==> m.id == 0xFFFF_FFFE
    decreases |rounds|
  {
    hide WellFormed, AfterArrivals, AllAccepted, MoveDue, TakeReady, Amid;
    WaitKeepsWellFormed(q, wait, start, now, rounds);
    LookKeepsWellFormed(q, now, rounds);
    var l := LookFor(q, now, rounds);
    if l.taken.message.None? && !l.queue.stop && rounds != [] {
      ArrivalsKeepWellFormed(l.queue, rounds[0].arrivals);
      OnlyRequestsAreDisposedOf(AfterArrivals(l.queue, rounds[0].arrivals), wait, start, rounds[0].now, rounds[1..]);
    }
  }

  // ---- Peeking ----

  /** A Peek returns what a Get on the same course returns, and puts a message that it gets back in
      front of all others. */
  lemma PeekReturnsAsGet(q: Queue, wait: int, start: int, rounds: seq<Round>)
    requires WellFormed(q)
    ensures var r, g := AfterPeek(q, wait, start, rounds), AfterGet(q, wait, start, rounds);
            r.outcome == g.outcome && r.disposed == g.disposed && r.accepted == g.accepted && r.now == g.now
            && g.queue.peek == None && r.queue == g.queue.(peek := Returned(g))
  {
    GetEmptiesPeek(q, wait, start, rounds);
    hide WaitForMessage, WellFormed;
  }

  /** If something can be had at once, a Peek returns the first of it, and leaves all of it ahead of
      what arrives meanwhile. */
  lemma PeekShowsFirst(q: Queue, wait: int, start: int, rounds: seq<Round>)
    requires WellFormed(q) && AvailableAt(q, start) != []
    ensures var r := AfterPeek(q, wait, start, rounds);
            r.outcome == Got(AvailableAt(q, start)[0]) && AvailableAt(q, start) <= AvailableAt(r.queue, start)
  {
    PeekReturnsAsGet(q, wait, start, rounds);
    GetTakesFirst(q, wait, start, rounds);
    var r := AfterPeek(q, wait, start, rounds);
    hide AfterGet, AfterPeek, AvailableAt, WellFormed;
    PeekedIsFirst(r.queue, start);
    var g := AfterGet(q, wait, start, rounds);
    assert r.queue.(peek := None) == g.queue;
  }

  /** The operation takes no message out of the peek slot. */
  predicate LeavesPeeked(m: Message, op: Op) {
    !op.GetOp? && (op.ClearOp? ==> !Matches(m, op.handler, op.id))
  }

  /** A peeked message stays in front, whatever is posted and however often it is peeked again, until
      a Get returns it or a clear removes it: every Peek, and the next Get, returns it. */
  lemma {:induction false} PeekedStaysFirst(q: Queue, clock: int, ops: seq<Op>, m: Message, wait: int, start: int,
                                            rounds: seq<Round>)
    requires q.peek == Some(m) && forall i :: 0 <= i < |ops| ==> LeavesPeeked(m, ops[i])
    ensures var last := Run(q, clock, ops).queue;
            last.peek == Some(m) && AfterPeek(last, wait, start, rounds).outcome == Got(m)
            && AfterGet(last, wait, start, rounds).outcome == Got(m)
            && AfterGet(last, wait, start, rounds).queue == last.(peek := None)
    decreases |ops|
  {
    if ops != [] {
      PeekedStaysFirst(q, clock, ops[..|ops| - 1], m, wait, start, rounds);
    }
    hide WaitForMessage, InsertByKey, Keep, Order;
  }

  // ---- Limits on the wait ----

  /** Without a limit a Get does not run out of time; with one it does not before its time is up. */
  lemma {:induction false} TimesOutOnlyInTime(q: Queue, wait: int, start: int, now: int, rounds: seq<Round>)
    requires wait == -1 || forall i :: 0 <= i < |rounds| ==> rounds[i].now < start + wait
    ensures WaitForMessage(q, wait, start, now, rounds).outcome != TimedOut
    decreases |rounds|
  {
    hide LookFor, AfterArrivals, AllAccepted;
    var l := LookFor(q, now, rounds);
    if l.taken.message.None? && !l.queue.stop && rounds != [] {
      TimesOutOnlyInTime(AfterArrivals(l.queue, rounds[0].arrivals), wait, start, rounds[0].now, rounds[1..]);
    }
  }

  /** It is not still waiting after a wait that has failed, or at whose end the time is up. */
  lemma {:induction false} LimitEndsTheWait(q: Queue, wait: int, start: int, now: int, rounds: seq<Round>, i: nat)
    requires i < |rounds| && (!rounds[i].ok || (wait != -1 && rounds[i].now >= start + wait))
    ensures var r := WaitForMessage(q, wait, start, now, rounds);
            r.outcome != StillWaiting && (r.outcome == TimedOut ==> r.now >= start + wait)
    decreases |rounds|
  {
    hide LookFor, AfterArrivals, AllAccepted;
    var l := LookFor(q, now, rounds);
    if l.taken.message.None? && !l.queue.stop && i > 0 && rounds[0].ok && (wait == -1 || rounds[0].now < start + wait) {
      LimitEndsTheWait(AfterArrivals(l.queue, rounds[0].arrivals), wait, start, rounds[0].now, rounds[1..], i - 1);
    }
  }

  /** It fails only if a wait has failed. */
  lemma {:induction false} FailsOnlyWithAWait(q: Queue, wait: int, start: int, now: int, rounds: seq<Round>)
    requires forall i :: 0 <= i < |rounds| ==> rounds[i].ok
    ensures WaitForMessage(q, wait, start, now, rounds).outcome != WaitFailed
    decreases |rounds|
  {
    hide LookFor, AfterArrivals, AllAccepted;
    var l := LookFor(q, now, rounds);
    if l.taken.message.None? && !l.queue.stop && rounds != [] {
      FailsOnlyWithAWait(AfterArrivals(l.queue, rounds[0].arrivals), wait, start, rounds[0].now, rounds[1..]);
    }
  }

  // ---- After a Restart ----

  /** A Quit stops the queue from taking in posts, and a Restart lets it take them in again. */
  lemma RestartReopens(q: Queue, clock: int, m: Message)
    ensures var stopped := Apply(q, clock, Arrive(QuitAsked)).queue;
            var reopened := Apply(stopped, clock, RestartOp).queue;
            Apply(stopped, clock, Arrive(Posted(m))).queue == stopped
            && Apply(reopened, clock, Arrive(Posted(m))).queue == q.(ready := q.ready + [m], stop := false)
  {
  }

  // ---- Waiting until a message is due ----

  /** A look that finds nothing takes only requests to dispose away. */
  lemma EmptyLook(q: Queue, now: int)
    requires WellFormed(q) && q.peek.None? && AvailableAt(q, now) == []
    ensures var l, n := LookFor(q, now, []), |Keep(DueBy(now), q.schedule)|;
            l.taken.message.None? && l.queue == q.(ready := [], schedule := q.schedule[n..])
  {
    hide Keep, MoveDue, TakeReady, Messages, AvailableAt, WellFormed, StrictlySorted, DueBy;
    LookTakesFirst(q, now, []);
    SortedWhenWellFormed(q);
    MoveDueMovesAllDue(q, now);
    NoArrivals(TakeReady(MoveDue(q, now)).queue);
    NoArrivals(MoveDue(q, now));
  }

  lemma DueEarlierAndLater(s: seq<Delayed>, now: int, later: int)
    requires StrictlySorted(s) && now <= later
    ensures var due := Keep(DueBy(now), s);
            Keep(DueBy(later), s) == due + Keep(DueBy(later), s[|due|..])
  {
    var due := Keep(DueBy(now), s);
    DueComeFirst(s, now);
    assert s == due + s[|due|..];
    KeepElements(DueBy(now), s);
    KeepAll(DueBy(later), due);
    KeepConcat(DueBy(later), due, s[|due|..]);
    hide Keep, StrictlySorted;
  }

  lemma MessagesInParts(s: seq<Delayed>, t: seq<Delayed>)
    ensures Messages(s + t) == Messages(s) + Messages(t)
  {
  }

  /** A look that finds nothing changes nothing of what is available later. */
  lemma EmptyLookKeepsLater(q: Queue, now: int, later: int)
    requires WellFormed(q) && q.peek.None? && AvailableAt(q, now) == [] && now <= later
    ensures AvailableAt(LookFor(q, now, []).queue, later) == AvailableAt(q, later)
  {
    hide *;
    SortedWhenWellFormed(q);
    EmptyLook(q, now);
    AvailableUnpeeked(q, now);
    AvailableUnpeeked(q, later);
    AvailableUnpeeked(LookFor(q, now, []).queue, later);
    DueEarlierAndLater(q.schedule, now, later);
    var due := Keep(DueBy(now), q.schedule);
    var more := Keep(DueBy(later), q.schedule[|due|..]);
    MessagesInParts(due, more);
    NothingBefore(q.ready, Messages(due), Messages(more));
  }

  lemma AvailableUnpeeked(q: Queue, now: int)
    requires q.peek.None?
    ensures AvailableAt(q, now) == Keep(Lasting(), q.ready + Messages(Keep(DueBy(now), q.schedule)))
  {
    hide Keep, Messages;
  }

  lemma NothingBefore(a: seq<Message>, b: seq<Message>, c: seq<Message>)
    requires Keep(Lasting(), a + b) == []
    ensures Keep(Lasting(), a + (b + c)) == Keep(Lasting(), [] + c)
  {
    Regroup(a, b, c);
    KeepConcat(Lasting(), a + b, c);
    assert [] + c == c;
    hide Keep;
  }

  /** A Get that finds nothing at once, and then waits undisturbed, hands out the first message that
      is available when the wait ends. */
  lemma WaitsForFirst(q: Queue, wait: int, start: int, rounds: seq<Round>)
    requires WellFormed(q) && !q.stop && AvailableAt(q, start) == [] && rounds != []
    requires rounds[0] == Round([], [], [], true, rounds[0].now)
    requires start <= rounds[0].now && (wait == -1 || rounds[0].now < start + wait)
    ensures var available, r := AvailableAt(q, rounds[0].now), AfterGet(q, wait, start, rounds);
            available != [] ==> r.outcome == Got(available[0]) && r.now == rounds[0].now
  {
    assert q.peek.None?;
    hide Keep, LookFor, WaitForMessage, AvailableAt, WellFormed, Messages;
    LookTakesFirst(q, start, []);
    LookKeepsWellFormed(q, start, []);
    EmptyLookKeepsLater(q, start, rounds[0].now);
    UndisturbedRound(q, wait, start, rounds);
    if AvailableAt(q, rounds[0].now) != [] {
      WaitTakesFirst(LookFor(q, start, []).queue, wait, start, rounds[0].now, rounds[1..]);
    }
  }

  lemma UndisturbedRound(q: Queue, wait: int, start: int, rounds: seq<Round>)
    requires rounds != [] && rounds[0] == Round([], [], [], true, rounds[0].now)
    requires var l := LookFor(q, start, []); l.taken.message.None? && !l.queue.stop
    requires wait == -1 || rounds[0].now < start + wait
    ensures var r := WaitForMessage(q, wait, start, start, rounds);
            var rest := WaitForMessage(LookFor(q, start, []).queue, wait, start, rounds[0].now, rounds[1..]);
            r.outcome == rest.outcome && r.now == rest.now
  {
    assert LookFor(q, start, rounds) == LookFor(q, start, []) by {
      hide MoveDue, TakeReady;
    }
    NoArrivals(LookFor(q, start, []).queue);
    hide LookFor, AfterArrivals, AllAccepted;
  }

  lemma WaitTakesFirst(q: Queue, wait: int, start: int, now: int, rounds: seq<Round>)
    requires WellFormed(q) && q.peek.None? && AvailableAt(q, now) != []
    ensures var r := WaitForMessage(q, wait, start, now, rounds);
            r.outcome == Got(AvailableAt(q, now)[0]) && r.now == now
  {
    LookTakesFirst(q, now, rounds);
    hide LookFor, AfterArrivals, AllAccepted, AvailableAt;
  }

  // ---- Posting with a delay ----

  /** The first i entries are due no later than a time, and the others are. */
  predicate DueUpTo(s: seq<Delayed>, i: nat, time: int) {
    && i <= |s| && (forall j :: 0 <= j < i ==> s[j].runTime <= time)
    && (forall j :: i <= j < |s| ==> time < s[j].runTime)
  }

  predicate InOrderOfTime(s: seq<Delayed>) {
    forall j, k :: 0 <= j < k < |s| ==> s[j].runTime <= s[k].runTime
  }

  function PutAt(s: seq<Delayed>, i: nat, d: Delayed): seq<Delayed>
    requires i <= |s|
  {
    s[..i] + [d] + s[i..]
  }

  /** A message that is posted with a delay goes behind all that are due no later, and ahead of all
      that are due later. */
  lemma {:induction false} DelayedPostGoesBehind(s: seq<Delayed>, d: Delayed) returns (i: nat)
    requires InOrderOfTime(s) && forall x :: x in s ==> x.number < d.number
    ensures DueUpTo(s, i, d.runTime) && InsertByKey(s, d) == PutAt(s, i, d)
  {
    hide PutAt, DueUpTo, InsertByKey, InOrderOfTime;
    if s == [] || s[|s| - 1].runTime <= d.runTime {
      i := |s|;
      GoesLast(s, d);
    } else {
      WithoutLast(s, d);
      i := DelayedPostGoesBehind(s[..|s| - 1], d);
      LastStaysLast(s, i, d);
    }
  }

  lemma GoesLast(s: seq<Delayed>, d: Delayed)
    requires InOrderOfTime(s) && (forall x :: x in s ==> x.number < d.number)
    requires s == [] || s[|s| - 1].runTime <= d.runTime
    ensures InsertByKey(s, d) == PutAt(s, |s|, d) && DueUpTo(s, |s|, d.runTime)
  {
    assert s == [] || !Before(d, s[|s| - 1]);
    assert PutAt(s, |s|, d) == s + [d];
  }

  lemma WithoutLast(s: seq<Delayed>, d: Delayed)
    requires s != [] && d.runTime < s[|s| - 1].runTime && InOrderOfTime(s)
    ensures var rest := s[..|s| - 1];
            InsertByKey(s, d) == InsertByKey(rest, d) + [s[|s| - 1]] && InOrderOfTime(rest)
  {
  }

  lemma LastStaysLast(s: seq<Delayed>, i: nat, d: Delayed)
    requires s != [] && d.runTime < s[|s| - 1].runTime && DueUpTo(s[..|s| - 1], i, d.runTime)
    ensures DueUpTo(s, i, d.runTime) && PutAt(s[..|s| - 1], i, d) + [s[|s| - 1]] == PutAt(s, i, d)
  {
  }
}
