/** The protocol between message threads, in atomic steps. */
module WakeupProtocol {
  import opened Options

  type Thread = nat

  /** One call of Send, named by its sender and a number. */
  datatype Token = Token(sender: Thread, serial: nat)

  datatype Message = Task | Dispose | SendRequest(token: Token)

  datatype Delayed = Delayed(runTime: int, message: Message)

  datatype Posting = Now(message: Message) | Later(delayed: Delayed)

  /** Where a call returns to: to code that is not in Get, or to a Get that is disposing of a
      message, with the deadline that it has found. */
  datatype Back = ToCaller | ToGet(deadline: Option<int>)

  /** Where a thread is. The deadline is the first run time among the delayed messages when
      Get last scanned them; the token after a post is the Send that made it. */
  datatype Pc =
    | Busy
    | GetScan
    | GetPop(deadline: Option<int>)
    | GetEmpty(deadline: Option<int>)
    | GetWait(deadline: Option<int>)
    | PostTest(target: Thread, posting: Posting, onBehalf: Option<Token>, back: Back)
    | PostPush(target: Thread, posting: Posting, onBehalf: Option<Token>, back: Back)
    | WakeUp(target: Thread, onBehalf: Option<Token>, back: Back)
    | SendCheck(token: Token, waited: bool, back: Back)
    | SendWait(token: Token, back: Back)
    | Reply(token: Token)

  datatype ThreadState = ThreadState(
    messages: seq<Message>,
    delayed: multiset<Delayed>,
    stop: bool,
    event: bool,
    pc: Pc,
    handling: Option<Token>)

  /** How far a Send has got; kept for the proofs only. */
  datatype Stage = Unposted(poster: Thread) | Queued(owner: Thread) | Handled(handler: Thread) | Finished

  /** All threads, the ready flags that are set, and for every Send its stage and how often
      its handler has run. */
  datatype State = State(
    threads: map<Thread, ThreadState>,
    ready: set<Token>,
    stage: map<Token, Stage>,
    runs: map<Token, nat>)

  /** The steps, by any number of threads: posting publishes under the target's lock and then
      signals the target's auto-reset event; Get looks at the queue, lets go of the lock, tests the
      stop flag and then waits; Send posts a request and waits on the sender's own event until the
      handler has set its ready flag. */
  datatype Step =
    | CallGet(t: Thread)
    | Scan(t: Thread, now: int, due: seq<Delayed>, deadline: Option<int>)
    | PopAgain(t: Thread)
    | TestStop(t: Thread)
    | GetWakes(t: Thread, gaveUp: bool)
    | GetTimesOut(t: Thread, gaveUp: bool)
    | CallPost(t: Thread, target: Thread, posting: Posting)
    | CallSend(t: Thread, target: Thread, serial: nat)
    | TestTarget(t: Thread)
    | Push(t: Thread)
    | Wake(t: Thread)
    | Quit(t: Thread, target: Thread)
    | Restart(t: Thread, target: Thread)
    | Clear(t: Thread, target: Thread, messages: seq<Message>, delayed: multiset<Delayed>)
    | ReadReady(t: Thread)
    | SendWakes(t: Thread)
    | HandlerReturns(t: Thread)
    | SetReady(t: Thread)

  function MessagesOf(due: seq<Delayed>): seq<Message> {
    seq(|due|, i requires 0 <= i < |due| => due[i].message)
  }

  function Resume(back: Back): Pc {
    match back
    case ToCaller => Busy
    case ToGet(deadline) => GetPop(deadline)
  }

  function AfterPost(onBehalf: Option<Token>, back: Back): Pc {
    match onBehalf
    case None => Resume(back)
    case Some(token) => SendCheck(token, false, back)
  }

  /** Any code may run when no call is under way, and when Get deletes the data of a message that
      it disposes of. */
  predicate RunsCode(pc: Pc) {
    pc.Busy? || pc.GetPop?
  }

  /** Where a thread returns to from the call that it is in. */
  function BackOf(pc: Pc): Back {
    match pc
    case GetPop(deadline) => ToGet(deadline)
    case PostTest(_, _, _, back) => back
    case PostPush(_, _, _, back) => back
    case WakeUp(_, _, back) => back
    case SendCheck(_, _, back) => back
    case SendWait(_, back) => back
    case _ => ToCaller
  }

  /** What Get does with the front message: a dispose message is deleted and skipped, any
      other is returned and dispatched. */
  function TakeFront(ts: ThreadState, deadline: Option<int>): ThreadState
    requires ts.messages != []
  {
    var rest := ts.(messages := ts.messages[1..]);
    match ts.messages[0]
    case Task => rest.(pc := Busy)
    case Dispose => rest.(pc := GetPop(deadline))
    case SendRequest(token) => rest.(pc := Busy, handling := Some(token))
  }

  function Publish(ts: ThreadState, posting: Posting): ThreadState {
    match posting
    case Now(message) => ts.(messages := ts.messages + [message])
    case Later(delayed) => ts.(delayed := ts.delayed + multiset{delayed})
  }

  ghost predicate Before(deadline: Option<int>, delayed: multiset<Delayed>) {
    exists d :: d in delayed && (deadline.None? || d.runTime < deadline.value)
  }

  function With(s: State, t: Thread, ts: ThreadState): State {
    s.(threads := s.threads[t := ts])
  }

  /** The steps of Get: each one reads and changes only its own thread. */
  ghost predicate GetStep(ts: ThreadState, step: Step, ts': ThreadState) {
    match step
    case CallGet(_) =>
      ts.pc.Busy? && ts.handling.None? && ts' == ts.(pc := GetScan)
    case Scan(_, now, due, deadline) =>
      && ts.pc.GetScan?
      && multiset(due) <= ts.delayed
      && (forall d :: d in due ==> d.runTime <= now)
      && (forall d :: d in ts.delayed - multiset(due) ==> now < d.runTime)
      && !Before(deadline, ts.delayed - multiset(due))
      && (var scanned := ts.(messages := ts.messages + MessagesOf(due), delayed := ts.delayed - multiset(due));
          ts' == if scanned.messages == [] then scanned.(pc := GetEmpty(deadline)) else TakeFront(scanned, deadline))
    case PopAgain(_) =>
      && ts.pc.GetPop?
      && ts' == if ts.messages == [] then ts.(pc := GetEmpty(ts.pc.deadline)) else TakeFront(ts, ts.pc.deadline)
    case TestStop(_) =>
      && ts.pc.GetEmpty?
      && ts' == ts.(pc := if ts.stop then Busy else GetWait(ts.pc.deadline))
    case GetWakes(_, gaveUp) =>
      && ts.pc.GetWait? && ts.event
      && ts' == ts.(event := false, pc := if gaveUp then Busy else GetScan)
    case GetTimesOut(_, gaveUp) =>
      && ts.pc.GetWait?
      && ts' == ts.(pc := if gaveUp then Busy else GetScan)
    case _ => false
  }

  /** Publishing under the target's lock. */
  ghost predicate PushStep(s: State, t: Thread, s': State)
    requires t in s.threads
  {
    var ts := s.threads[t];
    && ts.pc.PostPush? && ts.pc.target in s.threads
    && (var pushed := With(s, ts.pc.target, Publish(s.threads[ts.pc.target], ts.pc.posting));
        var stage := if ts.pc.posting.Now? && ts.pc.posting.message.SendRequest?
                     then s.stage[ts.pc.posting.message.token := Queued(ts.pc.target)] else s.stage;
        s' == With(pushed, t, pushed.threads[t].(pc := WakeUp(ts.pc.target, ts.pc.onBehalf, ts.pc.back))).(stage := stage))
  }

  /** The steps of Post, PostDelayed and PostAt, and the other operations on a target. */
  ghost predicate PostStep(s: State, step: Step, s': State)
    requires step.t in s.threads
  {
    var t := step.t;
    var ts := s.threads[t];
    match step
    case CallPost(_, target, posting) =>
      && RunsCode(ts.pc) && target in s.threads
      && (posting.Now? ==> !posting.message.SendRequest?)
      && (posting.Later? ==> !posting.delayed.message.SendRequest?)
      && s' == With(s, t, ts.(pc := PostTest(target, posting, None, BackOf(ts.pc))))
    case TestTarget(_) =>
      && ts.pc.PostTest? && ts.pc.target in s.threads
      && s' == With(s, t, ts.(pc := if s.threads[ts.pc.target].stop then AfterPost(ts.pc.onBehalf, ts.pc.back)
                                    else PostPush(ts.pc.target, ts.pc.posting, ts.pc.onBehalf, ts.pc.back)))
    case Push(_) => PushStep(s, t, s')
    case Wake(_) =>
      && ts.pc.WakeUp? && ts.pc.target in s.threads
      && (var signalled := With(s, ts.pc.target, s.threads[ts.pc.target].(event := true));
          s' == With(signalled, t, signalled.threads[t].(pc := AfterPost(ts.pc.onBehalf, ts.pc.back))))
    case Quit(_, target) =>
      && RunsCode(ts.pc) && target in s.threads
      && (var stopped := With(s, target, s.threads[target].(stop := true));
          s' == With(stopped, t, stopped.threads[t].(pc := WakeUp(target, None, BackOf(ts.pc)))))
    case Restart(_, target) =>
      && RunsCode(ts.pc) && target in s.threads
      && s' == With(s, target, s.threads[target].(stop := false))
    case Clear(_, target, messages, delayed) =>
      && RunsCode(ts.pc) && target in s.threads
      && multiset(messages) <= multiset(s.threads[target].messages)
      && delayed <= s.threads[target].delayed
      && s' == With(s, target, s.threads[target].(messages := messages, delayed := delayed))
    case _ => false
  }

  /** The steps of Send and of the handler that answers it. */
  ghost predicate SendStep(s: State, step: Step, s': State)
    requires step.t in s.threads
  {
    var t := step.t;
    var ts := s.threads[t];
    match step
    case CallSend(_, target, serial) =>
      && RunsCode(ts.pc) && target in s.threads && target != t && !s.threads[target].stop
      && (var token := Token(t, serial);
          && token !in s.stage
          && s' == With(s, t, ts.(pc := PostTest(target, Now(SendRequest(token)), Some(token), BackOf(ts.pc))))
                   .(stage := s.stage[token := Unposted(t)], runs := s.runs[token := 0]))
    case ReadReady(_) =>
      && ts.pc.SendCheck?
      && s' == With(s, t, ts.(pc := if ts.pc.token !in s.ready then SendWait(ts.pc.token, ts.pc.back)
                                    else if ts.pc.waited then WakeUp(t, None, ts.pc.back)
                                    else Resume(ts.pc.back)))
    case SendWakes(_) =>
      && ts.pc.SendWait? && ts.event
      && s' == With(s, t, ts.(event := false, pc := SendCheck(ts.pc.token, true, ts.pc.back)))
    case HandlerReturns(_) =>
      && ts.pc.Busy? && ts.handling.Some?
      && (var token := ts.handling.value;
          && token in s.runs
          && s' == With(s, t, ts.(pc := Reply(token), handling := None))
                   .(stage := s.stage[token := Finished], runs := s.runs[token := s.runs[token] + 1]))
    case SetReady(_) =>
      && ts.pc.Reply?
      && s' == With(s, t, ts.(pc := WakeUp(ts.pc.token.sender, None, ToCaller))).(ready := s.ready + {ts.pc.token})
    case _ => false
  }

  ghost predicate LocalStep(s: State, step: Step, s': State)
    requires step.t in s.threads
  {
    step.t in s'.threads &&
    var ts, ts' := s.threads[step.t], s'.threads[step.t];
    var stage := if ts.handling.None? && ts'.handling.Some?
                 then s.stage[ts'.handling.value := Handled(step.t)] else s.stage;
    GetStep(ts, step, ts') && s' == With(s, step.t, ts').(stage := stage)
  }

  ghost predicate Next(s: State, step: Step, s': State) {
    step.t in s.threads && (LocalStep(s, step, s') || PostStep(s, step, s') || SendStep(s, step, s'))
  }

  ghost predicate Initial(s: State) {
    && s.ready == {} && s.stage == map[] && s.runs == map[]
    && forall t :: t in s.threads ==>
         var ts := s.threads[t];
         ts.pc == Busy && ts.messages == [] && ts.delayed == multiset{} && ts.handling == None
  }

  ghost predicate IsRun(run: seq<State>, steps: seq<Step>) {
    |run| == |steps| + 1 && Initial(run[0])
    && forall i :: 0 <= i < |steps| ==> Next(run[i], steps[i], run[i + 1])
  }

  // ---- No lost wakeup ----

  /** Someone has published for this thread and not signalled yet, or its event is signalled. */
  ghost predicate WakePending(s: State, t: Thread)
    requires t in s.threads
  {
    s.threads[t].event
    || exists u :: u in s.threads && s.threads[u].pc.WakeUp? && s.threads[u].pc.target == t
  }

  /** A Send that waits may lose the signals of others: it signals its own thread again before it
      returns. */
  predicate WillSignalItself(pc: Pc) {
    pc.SendWait? || (pc.SendCheck? && pc.waited)
  }

  /** Get has looked at the queue, and there is now something that it did not see; also while it
      disposes of a message, and during the calls that are made then. */
  ghost predicate MissedByGet(ts: ThreadState) {
    match ts.pc
    case GetEmpty(deadline) => ts.messages != [] || Before(deadline, ts.delayed)
    case GetWait(deadline) => ts.messages != [] || ts.stop || Before(deadline, ts.delayed)
    case pc => !WillSignalItself(pc) && BackOf(pc).ToGet? && Before(BackOf(pc).deadline, ts.delayed)
  }

  /** The thread has looked, in Get or in Send, and missed something. */
  ghost predicate Missed(s: State, t: Thread)
    requires t in s.threads
  {
    MissedByGet(s.threads[t]) || (s.threads[t].pc.SendWait? && s.threads[t].pc.token in s.ready)
  }

  predicate OwnToken(pc: Pc, t: Thread) {
    match pc
    case SendWait(token, _) => token.sender == t
    case SendCheck(token, _, _) => token.sender == t
    case PostTest(_, _, onBehalf, _) => onBehalf.Some? ==> onBehalf.value.sender == t
    case PostPush(_, _, onBehalf, _) => onBehalf.Some? ==> onBehalf.value.sender == t
    case WakeUp(_, onBehalf, _) => onBehalf.Some? ==> onBehalf.value.sender == t
    case _ => true
  }

  ghost predicate OwnTokens(s: State) {
    forall t :: t in s.threads ==> OwnToken(s.threads[t].pc, t)
  }

  ghost predicate NothingMissed(s: State) {
    OwnTokens(s) && forall t :: t in s.threads && Missed(s, t) ==> WakePending(s, t)
  }

  lemma StepMissesNothing(s: State, step: Step, s': State)
    requires NothingMissed(s) && Next(s, step, s')
    ensures NothingMissed(s')
  {
    hide LocalStep, PostStep, SendStep;
    StepEffect(s, step, s', step.t);
    forall x | x in s'.threads && x != step.t
      ensures s'.threads[x].pc == s.threads[x].pc
    {
      StepEffect(s, step, s', x);
    }
    hide Missed, WakePending, OwnToken;
    forall x | x in s'.threads && Missed(s', x)
      ensures WakePending(s', x)
    {
      NewlyMissed(s, step, s', x);
      if Missed(s, x) {
        WakePendingStays(s, step, s', x);
      }
    }
  }

  lemma {:induction false} RunMissesNothing(run: seq<State>, steps: seq<Step>, i: nat)
    requires IsRun(run, steps) && i < |run|
    ensures NothingMissed(run[i])
    decreases i
  {
    if i > 0 {
      RunMissesNothing(run, steps, i - 1);
      StepMissesNothing(run[i - 1], steps[i - 1], run[i - 1 + 1]);
    }
  }

  /** At any point of any run, for any number of posters: an owner that is committed to its
      wait while there is a message, a stop request or an earlier delayed message, and a sender
      that waits although its reply is ready, will be woken: the event is signalled or some
      thread is between publishing and signalling. */
  lemma NoLostWakeup(run: seq<State>, steps: seq<Step>, i: nat, t: Thread)
    requires IsRun(run, steps) && i < |run| && t in run[i].threads
    ensures var ts := run[i].threads[t];
            ts.pc.GetWait? && (ts.messages != [] || ts.stop || Before(ts.pc.deadline, ts.delayed)) ==>
              WakePending(run[i], t)
    ensures var ts := run[i].threads[t];
            ts.pc.SendWait? && ts.pc.token in run[i].ready ==> WakePending(run[i], t)
  {
    RunMissesNothing(run, steps, i);
    assert MissedByGet(run[i].threads[t]) ==> Missed(run[i], t);
  }

  // ---- Why no step misses anything ----

  /** What Get does to its own thread: it may consume a signal only by waking from its wait,
      it misses nothing that it did not miss before, and it is never about to signal. */
  lemma GetStepEffect(ts: ThreadState, step: Step, ts': ThreadState)
    requires GetStep(ts, step, ts')
    ensures !step.GetWakes? && !step.SendWakes? && ts.event ==> ts'.event
    ensures !ts.pc.WakeUp? && !ts'.pc.WakeUp? && !ts'.pc.SendWait? && !ts'.pc.SendCheck?
    ensures !ts'.pc.PostTest? && !ts'.pc.PostPush?
    ensures MissedByGet(ts') ==> MissedByGet(ts) && !step.GetWakes? && !step.SendWakes?
  {
    hide Before, MessagesOf, OwnToken;
    if step.Scan? {
      LookEffect(ts.(messages := ts.messages + MessagesOf(step.due), delayed := ts'.delayed), step.deadline, ts');
    } else if step.PopAgain? {
      LookEffect(ts, ts.pc.deadline, ts');
    }
    hide TakeFront;
  }

  /** A look at the queue misses what is due before the deadline that it knows, and nothing else. */
  lemma LookEffect(ts: ThreadState, deadline: Option<int>, ts': ThreadState)
    requires ts' == if ts.messages == [] then ts.(pc := GetEmpty(deadline)) else TakeFront(ts, deadline)
    ensures ts'.event == ts.event
    ensures ts'.pc in {Busy, GetPop(deadline), GetEmpty(deadline)}
    ensures MissedByGet(ts') ==> Before(deadline, ts.delayed)
  {
    hide Before;
  }

  /** A look makes ready what it has found due, and takes the front message alone: one that is no
      request to dispose is handed out once, and a request of a Send is then handled. */
  lemma LooksTakeTheFront(ts: ThreadState, step: Step, ts': ThreadState)
    requires GetStep(ts, step, ts') && (step.Scan? || step.PopAgain?)
    ensures var due := if step.Scan? then step.due else [];
            var held := ts.messages + MessagesOf(due);
            ts'.delayed == ts.delayed - multiset(due)
            && if held == [] then ts'.messages == [] && ts'.pc.GetEmpty?
               else ts'.messages == held[1..] && (held[0].Dispose? <==> ts'.pc.GetPop?)
                    && (held[0].SendRequest? ==> ts'.handling == Some(held[0].token))
  {
    assert step.PopAgain? ==> ts.messages + MessagesOf([]) == ts.messages;
    hide Before, MessagesOf;
  }

  /** A pending wakeup stays pending unless its own thread consumes it. */
  lemma WakePendingStays(s: State, step: Step, s': State, x: Thread)
    requires Next(s, step, s') && x in s.threads && WakePending(s, x)
    requires !((step.GetWakes? || step.SendWakes?) && step.t == x)
    ensures x in s'.threads && WakePending(s', x)
  {
    hide LocalStep, PostStep, SendStep;
    StepEffect(s, step, s', x);
    if !s.threads[x].event {
      var u :| u in s.threads && s.threads[u].pc.WakeUp? && s.threads[u].pc.target == x;
      StepEffect(s, step, s', u);
    }
  }

  lemma PostEffect(s: State, step: Step, s': State, x: Thread)
    requires step.t in s.threads && PostStep(s, step, s')
    ensures s'.threads.Keys == s.threads.Keys
    ensures x in s.threads && x != step.t ==> s'.threads[x].pc == s.threads[x].pc
    ensures x in s.threads && s.threads[x].event ==> s'.threads[x].event
  {
  }

  lemma OwnPostEffect(s: State, step: Step, s': State)
    ensures step.t in s.threads && PostStep(s, step, s') ==>
              step.t in s'.threads
              && (OwnToken(s.threads[step.t].pc, step.t) ==> OwnToken(s'.threads[step.t].pc, step.t))
              && var pc := s.threads[step.t].pc; pc.WakeUp? ==> pc.target in s'.threads && s'.threads[pc.target].event
  {
    hide BackOf, Before;
  }

  /** A step of posting returns where its thread came from, and misses no signal on the way. */
  lemma OwnPostReturns(s: State, step: Step, s': State)
    ensures step.t in s.threads && PostStep(s, step, s') ==>
              step.t in s'.threads
              && var a, b := s.threads[step.t].pc, s'.threads[step.t].pc;
                 BackOf(b) == BackOf(a) && !WillSignalItself(a) && !WillSignalItself(b)
                 && !a.GetEmpty? && !a.GetWait? && !b.GetEmpty? && !b.GetWait?
  {
    hide Publish;
  }

  lemma OwnPostDelays(s: State, step: Step, s': State)
    ensures step.t in s.threads && PostStep(s, step, s') && !(step.Clear? && step.target == step.t) ==>
              step.t in s'.threads
              && var a, b := s.threads[step.t], s'.threads[step.t];
                 b.delayed == a.delayed || (b.pc.WakeUp? && b.pc.target == step.t)
  {
    hide Publish, BackOf;
  }

  lemma NewlyMissedByPoster(s: State, step: Step, s': State)
    requires step.t in s.threads && PostStep(s, step, s') && step.t in s'.threads && Missed(s', step.t)
    requires !(step.Clear? && step.target == step.t)
    ensures Missed(s, step.t) || (s'.threads[step.t].pc.WakeUp? && s'.threads[step.t].pc.target == step.t)
  {
    OwnPostReturns(s, step, s');
    OwnPostDelays(s, step, s');
    hide PostStep, Before, BackOf;
  }

  lemma NewlyMissedAfterClear(ts: ThreadState, messages: seq<Message>, delayed: multiset<Delayed>)
    requires multiset(messages) <= multiset(ts.messages) && delayed <= ts.delayed
    requires MissedByGet(ts.(messages := messages, delayed := delayed))
    ensures MissedByGet(ts)
  {
    ClearHidesNothing(ts, messages, delayed);
    hide Before, BackOf;
  }

  lemma SendEffect(s: State, step: Step, s': State)
    requires step.t in s.threads && SendStep(s, step, s')
    ensures s'.threads.Keys == s.threads.Keys && !s.threads[step.t].pc.WakeUp?
    ensures forall x :: x in s.threads && x != step.t ==> s'.threads[x].pc == s.threads[x].pc
    ensures forall x :: x in s.threads && s.threads[x].event && !(step.SendWakes? && step.t == x) ==> s'.threads[x].event
    ensures OwnToken(s.threads[step.t].pc, step.t) ==> OwnToken(s'.threads[step.t].pc, step.t)
  {
  }

  /** What a step does to any thread: a signal goes only to its own waiter, and a thread about to
      wake another stays so until it does. */
  lemma StepEffect(s: State, step: Step, s': State, x: Thread)
    requires Next(s, step, s')
    ensures s'.threads.Keys == s.threads.Keys
    ensures x in s.threads && x != step.t ==> s'.threads[x].pc == s.threads[x].pc
    ensures x in s.threads && s.threads[x].event && !((step.GetWakes? || step.SendWakes?) && step.t == x) ==>
              s'.threads[x].event
    ensures OwnToken(s.threads[step.t].pc, step.t) ==> OwnToken(s'.threads[step.t].pc, step.t)
    ensures var pc := s.threads[step.t].pc; pc.WakeUp? ==> pc.target in s'.threads && s'.threads[pc.target].event
  {
    hide GetStep, PostStep, SendStep;
    if LocalStep(s, step, s') {
      GetStepEffect(s.threads[step.t], step, s'.threads[step.t]);
    } else if PostStep(s, step, s') {
      PostEffect(s, step, s', x);
      OwnPostEffect(s, step, s');
    } else {
      SendEffect(s, step, s');
    }
  }

  /** Whatever a step makes a thread miss, it was missing before, or the step's own thread is
      now about to wake it. */
  lemma NewlyMissed(s: State, step: Step, s': State, x: Thread)
    requires OwnTokens(s) && Next(s, step, s') && x in s'.threads && Missed(s', x)
    ensures x in s.threads
    ensures Missed(s, x) || (s'.threads[step.t].pc.WakeUp? && s'.threads[step.t].pc.target == x)
    ensures !((step.GetWakes? || step.SendWakes?) && step.t == x)
  {
    hide GetStep, PostStep, SendStep;
    if LocalStep(s, step, s') {
      GetStepEffect(s.threads[step.t], step, s'.threads[step.t]);
    } else if PostStep(s, step, s') {
      NewlyMissedByPost(s, step, s', x);
    } else {
      NewlyMissedBySend(s, step, s', x);
    }
  }

  lemma NewlyMissedByPost(s: State, step: Step, s': State, x: Thread)
    requires step.t in s.threads && PostStep(s, step, s') && x in s'.threads && Missed(s', x)
    ensures x in s.threads
    ensures Missed(s, x) || (s'.threads[step.t].pc.WakeUp? && s'.threads[step.t].pc.target == x)
    ensures !step.GetWakes? && !step.SendWakes?
  {
    if step.Clear? && step.target == x {
      var ts := s.threads[x];
      assert s'.threads[x] == ts.(messages := step.messages, delayed := step.delayed);
      if MissedByGet(s'.threads[x]) {
        NewlyMissedAfterClear(ts, step.messages, step.delayed);
      }
    } else if x == step.t {
      NewlyMissedByPoster(s, step, s');
    } else {
      PostStepOtherThread(s, step, s', x);
    }
    hide PostStep, Before, BackOf;
  }

  lemma PostStepOtherThread(s: State, step: Step, s': State, x: Thread)
    ensures step.t in s.threads && PostStep(s, step, s') && x in s'.threads && x != step.t ==>
              step.t in s'.threads && x in s.threads && s'.ready == s.ready && !step.GetWakes? && !step.SendWakes?
              && var a, b := s.threads[x], s'.threads[x];
                 (a.(event := b.event, stop := b.stop) == b && (b.stop ==> a.stop))
                 || (s'.threads[step.t].pc.WakeUp? && s'.threads[step.t].pc.target == x)
                 || (step.Clear? && step.target == x)
  {
  }

  lemma NewlyMissedBySend(s: State, step: Step, s': State, x: Thread)
    requires OwnTokens(s) && step.t in s.threads && SendStep(s, step, s') && x in s'.threads && Missed(s', x)
    ensures x in s.threads
    ensures Missed(s, x) || (s'.threads[step.t].pc.WakeUp? && s'.threads[step.t].pc.target == x)
    ensures !step.GetWakes? && !(step.SendWakes? && step.t == x)
  {
    if x == step.t {
      NewlyMissedBySender(s, step, s');
    } else {
      SendStepOtherThread(s, step, s', x);
    }
    hide SendStep, Before;
  }

  lemma NewlyMissedBySender(s: State, step: Step, s': State)
    requires step.t in s.threads && SendStep(s, step, s') && Missed(s', step.t)
    ensures Missed(s, step.t) || (s'.threads[step.t].pc.WakeUp? && s'.threads[step.t].pc.target == step.t)
    ensures !step.GetWakes? && !step.SendWakes?
  {
    hide Before;
  }

  lemma SendStepOtherThread(s: State, step: Step, s': State, x: Thread)
    ensures step.t in s.threads && SendStep(s, step, s') && x in s'.threads && x != step.t ==>
              x in s.threads && s'.threads[x] == s.threads[x] && !step.GetWakes?
              && (s'.ready == s.ready
                  || exists token :: s'.ready == s.ready + {token} && step.t in s'.threads
                                     && s'.threads[step.t].pc == WakeUp(token.sender, None, ToCaller))
  {
    if step.SetReady? && step.t in s.threads && SendStep(s, step, s') {
      assert s'.ready == s.ready + {s.threads[step.t].pc.token};
    }
  }

  lemma ClearHidesNothing(ts: ThreadState, messages: seq<Message>, delayed: multiset<Delayed>)
    requires multiset(messages) <= multiset(ts.messages) && delayed <= ts.delayed
    ensures messages != [] ==> ts.messages != []
    ensures forall deadline :: Before(deadline, delayed) ==> Before(deadline, ts.delayed)
  {
    if messages != [] {
      assert messages[0] in multiset(messages);
    }
  }
}
