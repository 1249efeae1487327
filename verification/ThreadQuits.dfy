/** What a Get leaves behind when it returns without a message from a thread that is to stop. */
module ThreadQuits {
  import opened Options
  import opened Sequences
  import opened DelayedQueue
  import opened ThreadQueues

  /** The last look of a Get that has waited for a number of rounds. */
  function LastLook(q: Queue, wait: int, start: int, now: int, rounds: seq<Round>): Looked
    decreases |rounds|
  {
    var l := LookFor(q, now, rounds);
    if l.taken.message.Some? || l.queue.stop || rounds == [] || !rounds[0].ok
       || (wait != FOREVER && rounds[0].now - start >= wait)
    then l
    else LastLook(AfterArrivals(l.queue, rounds[0].arrivals), wait, start, rounds[0].now, rounds[1..])
  }

  /** Entries that come later have later numbers. */
  lemma {:induction false} NewEntriesHaveNewNumbers(q: Queue, arrivals: seq<Arrival>)
    ensures forall d :: d in AfterArrivals(q, arrivals).schedule ==> d in q.schedule || d.number >= q.nextNumber
    decreases |arrivals|
  {
    if arrivals != [] {
      NewEntriesHaveNewNumbers(AfterArrival(q, arrivals[0]), arrivals[1..]);
      if arrivals[0].PostedAt? || arrivals[0].PushedAt? {
        InsertedElements(q.schedule, Delayed(arrivals[0].runTime, q.nextNumber, arrivals[0].msg));
      }
    }
  }

  /** A message is pushed, or posted before the thread is asked to quit. */
  ghost predicate LandsReady(q: Queue, arrivals: seq<Arrival>) {
    exists i :: 0 <= i < |arrivals| && LandsAt(q, arrivals, i)
  }

  ghost predicate LandsAt(q: Queue, arrivals: seq<Arrival>, i: nat)
    requires i < |arrivals|
  {
    arrivals[i].Pushed?
    || (arrivals[i].Posted? && !q.stop && forall j :: 0 <= j < i ==> !arrivals[j].QuitAsked?)
  }

  lemma {:induction false} LandingIsTaken(q: Queue, arrivals: seq<Arrival>)
    ensures Immediate(q, arrivals) != [] <==> LandsReady(q, arrivals)
    decreases |arrivals|
  {
    if arrivals != [] {
      LandingIsTaken(AfterArrival(q, arrivals[0]), arrivals[1..]);
      FirstOrLater(q, arrivals);
    }
    hide LandsAt, AfterArrival;
  }

  lemma FirstOrLater(q: Queue, arrivals: seq<Arrival>)
    requires arrivals != []
    ensures LandsReady(q, arrivals) <==>
            (IsImmediate(arrivals[0]) && !Refused(q, arrivals[0]))
            || LandsReady(AfterArrival(q, arrivals[0]), arrivals[1..])
  {
    var first, rest := arrivals[0], arrivals[1..];
    var next := AfterArrival(q, first);
    if IsImmediate(first) && !Refused(q, first) {
      assert LandsAt(q, arrivals, 0);
    }
    if LandsReady(next, rest) {
      var i :| 0 <= i < |rest| && LandsAt(next, rest, i);
      assert arrivals[i + 1] == rest[i];
      assert forall j :: 0 < j < i + 1 ==> arrivals[j] == rest[j - 1];
      assert LandsAt(q, arrivals, i + 1);
    }
    if LandsReady(q, arrivals) && !IsImmediate(first) {
      var i :| 0 <= i < |arrivals| && LandsAt(q, arrivals, i);
      assert rest[i - 1] == arrivals[i];
      assert forall j :: 0 <= j < i - 1 ==> rest[j] == arrivals[j + 1];
      assert LandsAt(next, rest, i - 1);
    }
    if LandsReady(q, arrivals) && IsImmediate(first) && Refused(q, first) {
      var i :| 0 <= i < |arrivals| && LandsAt(q, arrivals, i);
      assert rest[i - 1] == arrivals[i];
      assert LandsAt(next, rest, i - 1);
    }
    hide InsertByKey;
  }

  /** What is ready after a look that has found nothing has come since then; so have the delayed
      messages whose time has come. */
  ghost predicate HoldsOnlyLate(l: Looked, now: int) {
    && l.queue == AfterArrivals(l.taken.queue, l.late) && l.queue.peek.None? && l.taken.queue.ready == []
    && (l.queue.ready != [] <==> LandsReady(l.taken.queue, l.late))
    && (forall d :: d in l.queue.schedule ==> now < d.runTime || d.number >= l.scanned.nextNumber)
  }

  lemma LookFindsNothing(q: Queue, now: int, rounds: seq<Round>)
    requires WellFormed(q) && q.peek.None? && LookFor(q, now, rounds).taken.message.None?
    ensures HoldsOnlyLate(LookFor(q, now, rounds), now)
  {
    var l := LookFor(q, now, rounds);
    var m := l.scanned;
    hide MoveDue, Amid, AfterArrivals, AllAccepted, TakeReady, WellFormed, AvailableAt, LandsReady;
    DueIsAvailable(q, now);
    MoveDueKeepsTheRest(q, now);
    NewEntriesHaveNewNumbers(m, Amid(m, Between(rounds)));
    ArrivalsKeepPeek(m, Amid(m, Between(rounds)));
    NumberGrowsByArrivals(m, Amid(m, Between(rounds)));
    ArrivalsAppend(l.taken.queue, l.late);
    ArrivalsKeepPeek(l.taken.queue, l.late);
    LandingIsTaken(l.taken.queue, l.late);
    NewEntriesHaveNewNumbers(l.taken.queue, l.late);
  }

  lemma {:induction false} WaitQuitsAfterLook(q: Queue, wait: int, start: int, now: int, rounds: seq<Round>)
    requires WellFormed(q) && q.peek.None?
    requires WaitForMessage(q, wait, start, now, rounds).outcome.Quitting?
    ensures var r, l := WaitForMessage(q, wait, start, now, rounds), LastLook(q, wait, start, now, rounds);
            r.queue == l.queue && r.queue.stop && HoldsOnlyLate(l, r.now)
    decreases |rounds|
  {
    hide WellFormed, LookFor, AfterArrivals, AllAccepted, HoldsOnlyLate;
    LookKeepsWellFormed(q, now, rounds);
    var l := LookFor(q, now, rounds);
    LookFindsNothing(q, now, rounds);
    if !l.queue.stop {
      ArrivalsKeepWellFormed(l.queue, rounds[0].arrivals);
      ArrivalsKeepPeek(l.queue, rounds[0].arrivals);
      WaitQuitsAfterLook(AfterArrivals(l.queue, rounds[0].arrivals), wait, start, rounds[0].now, rounds[1..]);
    }
  }

  /** A Get that gives up because the thread is quitting leaves a ready message behind if and
      only if one has arrived between finding the queue empty and testing the flag: one that was
      posted before the request to quit, or whose post had tested the flag before. Of the delayed
      messages it leaves only such behind whose time has not come, or that have arrived in the
      course of the last look. */
  lemma QuittingLeavesOnlyLate(q: Queue, wait: int, start: int, rounds: seq<Round>)
    requires WellFormed(q) && AfterGet(q, wait, start, rounds).outcome.Quitting?
    ensures var r, l := AfterGet(q, wait, start, rounds), LastLook(q, wait, start, start, rounds);
            r.queue == l.queue && r.queue.stop && HoldsOnlyLate(l, r.now)
  {
    WaitQuitsAfterLook(q, wait, start, start, rounds);
    hide HoldsOnlyLate, LastLook, WellFormed, WaitForMessage;
  }

  /** The Get returns without a message from a thread that is to stop, although one is ready. */
  predicate LeavesReady(r: GetResult) {
    !r.outcome.Got? && !r.outcome.StillWaiting? && r.queue.stop && r.queue.ready != []
  }

  ghost predicate AllWaitsSucceed(rounds: seq<Round>) {
    forall i :: 0 <= i < |rounds| ==> rounds[i].ok
  }

  /** Nothing arrives between finding the queue empty and testing the stop flag. */
  ghost predicate NothingLate(rounds: seq<Round>) {
    forall i :: 0 <= i < |rounds| ==> rounds[i].late == []
  }

  lemma {:induction false} ForeverEndsByQuitting(q: Queue, start: int, now: int, rounds: seq<Round>)
    requires AllWaitsSucceed(rounds)
    ensures var o := WaitForMessage(q, FOREVER, start, now, rounds).outcome; !o.TimedOut? && !o.WaitFailed?
    decreases |rounds|
  {
    var l := LookFor(q, now, rounds);
    if l.taken.message.None? && !l.queue.stop && rounds != [] {
      ForeverEndsByQuitting(AfterArrivals(l.queue, rounds[0].arrivals), start, rounds[0].now, rounds[1..]);
    }
    hide LookFor, AfterArrivals, AllAccepted;
  }

  /** A Get gives up by quitting if its last look has found nothing and the flag is set then. */
  lemma {:induction false} WaitQuitsExactly(q: Queue, wait: int, start: int, now: int, rounds: seq<Round>)
    ensures var r, l := WaitForMessage(q, wait, start, now, rounds), LastLook(q, wait, start, now, rounds);
            r.outcome.Quitting? <==> l.taken.message.None? && l.queue.stop
    decreases |rounds|
  {
    var l := LookFor(q, now, rounds);
    hide LookFor, AfterArrivals, AllAccepted;
    if l.taken.message.None? && !l.queue.stop && rounds != [] {
      WaitQuitsExactly(AfterArrivals(l.queue, rounds[0].arrivals), wait, start, rounds[0].now, rounds[1..]);
    }
  }

  /** A Get without a time limit leaves a ready message behind exactly on those courses on which
      its last look finds nothing, then a message lands, and then the flag is set. */
  lemma ForeverLeavesReady(q: Queue, start: int, rounds: seq<Round>)
    requires WellFormed(q) && AllWaitsSucceed(rounds)
    ensures var l := LastLook(q, FOREVER, start, start, rounds);
            LeavesReady(AfterGet(q, FOREVER, start, rounds)) <==>
            q.peek.None? && l.taken.message.None? && LandsReady(l.taken.queue, l.late) && l.queue.stop
  {
    ForeverEndsByQuitting(q, start, start, rounds);
    WaitQuitsExactly(q, FOREVER, start, start, rounds);
    if AfterGet(q, FOREVER, start, rounds).outcome.Quitting? {
      QuittingLeavesOnlyLate(q, FOREVER, start, rounds);
    }
    hide LastLook, WellFormed, WaitForMessage, LandsReady;
  }

  lemma {:induction false} LastLookIsNotLate(q: Queue, wait: int, start: int, now: int, rounds: seq<Round>)
    requires NothingLate(rounds)
    ensures LastLook(q, wait, start, now, rounds).late == []
    decreases |rounds|
  {
    var l := LookFor(q, now, rounds);
    assert l.late == [];
    hide LookFor;
    if !(l.taken.message.Some? || l.queue.stop || rounds == [] || !rounds[0].ok
         || (wait != FOREVER && rounds[0].now - start >= wait)) {
      LastLookIsNotLate(AfterArrivals(l.queue, rounds[0].arrivals), wait, start, rounds[0].now, rounds[1..]);
    }
  }

  /** The contract of Quit: every message that is ready is delivered before a Get of a stopped
      thread returns without one. Whatever the other threads do, and with waits that succeed, it
      holds exactly if a message can be had at once; a time limit, or a thread that is stopped
      already, makes no difference. */
  lemma ReadyIsDeliveredExactly(q: Queue, wait: int, start: int, m: Message)
    requires WellFormed(q)
    ensures (forall rounds | AllWaitsSucceed(rounds) :: !LeavesReady(AfterGet(q, wait, start, rounds)))
            <==> AvailableAt(q, start) != []
  {
    forall rounds | AllWaitsSucceed(rounds) && AvailableAt(q, start) != []
      ensures !LeavesReady(AfterGet(q, wait, start, rounds))
    {
      GetTakesFirst(q, wait, start, rounds);
    }
    if AvailableAt(q, start) == [] {
      LateLeavesReady(q, wait, start, Pushed(m));
    }
    hide *;
  }

  /** If no post is caught between its test of the flag and its push, it is enough that the thread
      is stopped already. */
  lemma WholePostsDeliverExactly(q: Queue, wait: int, start: int, m: Message)
    requires WellFormed(q)
    ensures (forall rounds | AllWaitsSucceed(rounds) && WholePosts(rounds) ::
               !LeavesReady(AfterGet(q, wait, start, rounds)))
            <==> q.stop || AvailableAt(q, start) != []
  {
    forall rounds | AllWaitsSucceed(rounds) && WholePosts(rounds) && (q.stop || AvailableAt(q, start) != [])
      ensures !LeavesReady(AfterGet(q, wait, start, rounds))
    {
      StoppedLeavesNothing(q, wait, start, rounds);
    }
    if !(q.stop || AvailableAt(q, start) != []) {
      LateLeavesReady(q, wait, start, Posted(m));
    }
    hide *;
  }

  /** If nothing arrives between the two tests, it is also enough that there is no time limit. */
  lemma PromptTestsDeliverExactly(q: Queue, wait: int, start: int, m: Message)
    requires WellFormed(q)
    ensures (forall rounds | AllWaitsSucceed(rounds) && NothingLate(rounds) ::
               !LeavesReady(AfterGet(q, wait, start, rounds)))
            <==> wait == FOREVER || q.stop || AvailableAt(q, start) != []
  {
    forall rounds | AllWaitsSucceed(rounds) && NothingLate(rounds)
                    && (wait == FOREVER || q.stop || AvailableAt(q, start) != [])
      ensures !LeavesReady(AfterGet(q, wait, start, rounds))
    {
      ReadyIsDelivered(q, wait, start, rounds);
    }
    if !(wait == FOREVER || q.stop || AvailableAt(q, start) != []) {
      TimeLimitLeavesReady(q, wait, start, m);
    }
    hide *;
  }

  ghost predicate Whole(arrivals: seq<Arrival>) {
    forall i :: 0 <= i < |arrivals| ==> !arrivals[i].Pushed? && !arrivals[i].PushedAt?
  }

  /** No post is caught between its test of the flag and its push. */
  ghost predicate WholePosts(rounds: seq<Round>) {
    forall i :: 0 <= i < |rounds| ==>
      Whole(rounds[i].late) && Whole(rounds[i].arrivals)
      && forall k :: 0 <= k < |rounds[i].between| ==> Whole(rounds[i].between[k])
  }

  lemma StoppedLeavesNothing(q: Queue, wait: int, start: int, rounds: seq<Round>)
    requires WellFormed(q) && WholePosts(rounds) && (q.stop || AvailableAt(q, start) != [])
    ensures !LeavesReady(AfterGet(q, wait, start, rounds))
  {
    GetTakesFirst(q, wait, start, rounds);
    var r := AfterGet(q, wait, start, rounds);
    if r.outcome.Quitting? && AvailableAt(q, start) == [] {
      QuittingLeavesOnlyLate(q, wait, start, rounds);
      StoppedLook(q, start, rounds);
      assert LastLook(q, wait, start, start, rounds) == LookFor(q, start, rounds);
    }
    hide LookFor, LastLook, WellFormed, WaitForMessage, AvailableAt;
  }

  lemma StoppedLook(q: Queue, now: int, rounds: seq<Round>)
    requires q.stop && WholePosts(rounds)
    ensures var l := LookFor(q, now, rounds); l.queue.stop && !LandsReady(l.taken.queue, l.late)
  {
    var l := LookFor(q, now, rounds);
    hide MoveDue, Amid, AfterArrivals, AllAccepted, TakeReady;
    MoveDueKeepsTheRest(q, now);
    StoppedStaysStopped(l.scanned, Amid(l.scanned, Between(rounds)));
    StoppedStaysStopped(l.taken.queue, l.late);
    assert Whole(l.late);
  }

  lemma ReadyIsDelivered(q: Queue, wait: int, start: int, rounds: seq<Round>)
    requires WellFormed(q) && AllWaitsSucceed(rounds) && NothingLate(rounds)
    requires wait == FOREVER || q.stop || AvailableAt(q, start) != []
    ensures !LeavesReady(AfterGet(q, wait, start, rounds))
  {
    GetTakesFirst(q, wait, start, rounds);
    if AfterGet(q, wait, start, rounds).outcome.Quitting? {
      QuittingLeavesOnlyLate(q, wait, start, rounds);
      LastLookIsNotLate(q, wait, start, start, rounds);
    } else if wait == FOREVER {
      ForeverEndsByQuitting(q, start, start, rounds);
    }
    hide LastLook, WellFormed, WaitForMessage, AvailableAt;
  }

  /** A message and a request to quit arrive during the wait, and the time is up when it
      returns. */
  function PostAndQuit(m: Message, now: int): Round {
    Round([], [], [Posted(m), QuitAsked], true, now)
  }

  lemma TimeLimitLeavesReady(q: Queue, wait: int, start: int, m: Message)
    requires WellFormed(q) && wait != FOREVER && !q.stop && AvailableAt(q, start) == []
    ensures var rounds := [PostAndQuit(m, if wait > 0 then start + wait else start)];
            AllWaitsSucceed(rounds) && NothingLate(rounds) && AfterGet(q, wait, start, rounds).outcome.TimedOut?
            && LeavesReady(AfterGet(q, wait, start, rounds))
  {
    var rounds := [PostAndQuit(m, if wait > 0 then start + wait else start)];
    GetTakesFirst(q, wait, start, []);
    SameLook(q, start, rounds);
    TwoArrivals(LookFor(q, start, rounds).queue, Posted(m));
    hide LookFor, AfterArrivals, AllAccepted, AvailableAt, WellFormed, Keep;
    OneRoundTimesOut(q, wait, start, rounds[0]);
  }

  lemma OneRoundTimesOut(q: Queue, wait: int, start: int, round: Round)
    requires q.peek.None? && round.ok && wait != FOREVER && round.now - start >= wait
    requires var l := LookFor(q, start, [round]); l.taken.message.None? && !l.queue.stop
    ensures var r := AfterGet(q, wait, start, [round]);
            r.outcome == TimedOut && r.queue == AfterArrivals(LookFor(q, start, [round]).queue, round.arrivals)
  {
    hide LookFor, AfterArrivals, AllAccepted;
  }

  lemma SameLook(q: Queue, now: int, rounds: seq<Round>)
    requires Between(rounds) == [] && Late(rounds) == []
    ensures LookFor(q, now, rounds) == LookFor(q, now, [])
  {
  }

  lemma TwoArrivals(q: Queue, a: Arrival)
    requires IsImmediate(a) && !Refused(q, a)
    ensures AfterArrivals(q, [a, QuitAsked]) == q.(ready := q.ready + [a.msg], stop := true)
  {
    var posted := AfterArrival(q, a);
    assert [a, QuitAsked][1..] == [QuitAsked];
    assert AfterArrivals(posted, [QuitAsked]) == AfterArrivals(posted.(stop := true), []);
  }

  /** A message lands, and then the thread is asked to quit, between the two tests. */
  function LandAndQuit(a: Arrival, now: int): Round {
    Round([], [a, QuitAsked], [], true, now)
  }

  /** Whenever no message can be had at once, an arrival between the two tests is left behind. */
  lemma LateLeavesReady(q: Queue, wait: int, start: int, a: Arrival)
    requires WellFormed(q) && AvailableAt(q, start) == [] && IsImmediate(a) && !Refused(q, a)
    ensures var rounds, r := [LandAndQuit(a, start)], AfterGet(q, wait, start, [LandAndQuit(a, start)]);
            AllWaitsSucceed(rounds) && (a.Posted? ==> WholePosts(rounds)) && r.outcome.Quitting? && LeavesReady(r)
  {
    assert q.peek.None?;
    hide AvailableAt, WellFormed, LookFor, Keep;
    LookTakesFirst(q, start, []);
    LateLook(q, start, [LandAndQuit(a, start)], a);
    OneRoundQuits(q, wait, start, LandAndQuit(a, start));
  }

  lemma OneRoundQuits(q: Queue, wait: int, start: int, round: Round)
    requires q.peek.None?
    requires var l := LookFor(q, start, [round]); l.taken.message.None? && l.queue.stop
    ensures var r := AfterGet(q, wait, start, [round]);
            r.outcome == Quitting && r.queue == LookFor(q, start, [round]).queue
  {
    hide LookFor, AfterArrivals, AllAccepted;
  }

  lemma LateLook(q: Queue, now: int, rounds: seq<Round>, a: Arrival)
    requires Between(rounds) == [] && Late(rounds) == [a, QuitAsked] && IsImmediate(a) && !Refused(q, a)
    requires LookFor(q, now, []).taken.message.None?
    ensures var l := LookFor(q, now, rounds); l.taken.message.None? && l.queue.stop && l.queue.ready == [a.msg]
  {
    var l := LookFor(q, now, rounds);
    assert l.taken == LookFor(q, now, []).taken;
    MoveDueKeepsTheRest(q, now);
    hide MoveDue, TakeReady;
    TwoArrivals(l.taken.queue, a);
  }

  /** Three inputs on which a Get breaks the contract of Quit: a time limit that has run out, and
      even without a limit a post between the two tests, and one that had tested the flag before
      the request to quit and pushes after it. */
  lemma ReadyIsLeftBehind(m: Message)
    ensures var q := Queue(None, [], [], 0, false);
            var timed := AfterGet(q, 10, 0, [PostAndQuit(m, 10)]);
            var late := AfterGet(q, FOREVER, 0, [LandAndQuit(Posted(m), 0)]);
            var caught := AfterGet(q, FOREVER, 0, [Round([], [QuitAsked, Pushed(m)], [], true, 0)]);
            timed.outcome == TimedOut && late.outcome == caught.outcome == Quitting
            && timed.queue == late.queue == caught.queue == q.(ready := [m], stop := true)
  {
    var q := Queue(None, [], [], 0, false);
    var stopped := q.(stop := true);
    TwoArrivals(q, Posted(m));
    assert [QuitAsked, Pushed(m)][1..] == [Pushed(m)];
    assert AfterArrivals(stopped, [Pushed(m)]) == AfterArrivals(stopped.(ready := [m]), []);
    assert LookFor(q, 0, [PostAndQuit(m, 10)]).queue == q;
    assert LookFor(q, 0, [LandAndQuit(Posted(m), 0)]).queue == stopped.(ready := [m]);
    assert LookFor(q, 0, [Round([], [QuitAsked, Pushed(m)], [], true, 0)]).queue == stopped.(ready := [m]);
    hide LookFor, AfterArrivals, AllAccepted;
  }
}
