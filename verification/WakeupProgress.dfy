/** No thread is stuck in the protocol: who does not wait can go on, and who has reason to, wakes. */
module WakeupProgress {
  import opened Options
  import opened WakeupProtocol
  import opened SendProtocol

  // ---- Every thread and token that a thread has to do with exists ----

  ghost predicate TargetKnown(s: State, pc: Pc) {
    match pc
    case PostTest(target, _, _, _) => target in s.threads
    case PostPush(target, _, _, _) => target in s.threads
    case WakeUp(target, _, _) => target in s.threads
    case _ => true
  }

  ghost predicate AllKnown(s: State) {
    && (forall token :: token in s.stage ==> token.sender in s.threads)
    && (forall t :: t in s.threads ==> TargetKnown(s, s.threads[t].pc))
  }

  lemma GetStepKnows(s: State, step: Step, s': State)
    requires SendsInOrder(s) && AllKnown(s) && step.t in s.threads && LocalStep(s, step, s')
    ensures AllKnown(s')
  {
    hide GetStep, Placed;
    var ts, ts' := s.threads[step.t], s'.threads[step.t];
    GetStepEffect(ts, step, ts');
    GetStepKeepsPlaced(ts, step, ts', step.t, s.stage);
  }

  lemma PostStepKnows(s: State, step: Step, s': State)
    requires SendsInOrder(s) && AllKnown(s) && step.t in s.threads && PostStep(s, step, s')
    ensures AllKnown(s')
  {
    hide PostStep, SendsInOrder;
    OwnIsPlaced(s, step.t);
    PostAddsNoToken(s, step, s');
    PostGoesToKnown(s, step, s');
    forall x | x in s'.threads
      ensures TargetKnown(s', s'.threads[x].pc)
    {
      PostEffect(s, step, s', x);
    }
  }

  lemma PostAddsNoToken(s: State, step: Step, s': State)
    requires step.t in s.threads && PostStep(s, step, s') && PcPlaced(s.threads[step.t].pc, step.t, s.stage)
    ensures s'.stage.Keys == s.stage.Keys
  {
    hide Publish, BackOf, Before, AfterPost;
  }

  lemma PostGoesToKnown(s: State, step: Step, s': State)
    requires step.t in s.threads && PostStep(s, step, s') && TargetKnown(s, s.threads[step.t].pc)
    ensures s'.threads.Keys == s.threads.Keys && TargetKnown(s, s'.threads[step.t].pc)
  {
    hide Publish, BackOf, Before;
  }

  lemma OwnIsPlaced(s: State, t: Thread)
    requires SendsInOrder(s) && t in s.threads
    ensures PcPlaced(s.threads[t].pc, t, s.stage) && HandlingPlaced(s.threads[t].handling, t, s.stage)
    ensures s.runs.Keys == s.stage.Keys
  {
  }

  lemma SendStepKnows(s: State, step: Step, s': State)
    requires SendsInOrder(s) && AllKnown(s) && step.t in s.threads && SendStep(s, step, s')
    ensures AllKnown(s')
  {
    OwnIsPlaced(s, step.t);
    hide Placed, SendsInOrder, BackOf, Resume;
  }

  lemma {:induction false} RunKnows(run: seq<State>, steps: seq<Step>, i: nat)
    requires IsRun(run, steps) && i < |run|
    ensures AllKnown(run[i])
    decreases i
  {
    if i > 0 {
      RunKnows(run, steps, i - 1);
      RunKeepsSendsInOrder(run, steps, i - 1);
      var s, step, s' := run[i - 1], steps[i - 1], run[i - 1 + 1];
      hide LocalStep, PostStep, SendStep, SendsInOrder, AllKnown;
      if LocalStep(s, step, s') {
        GetStepKnows(s, step, s');
      } else if PostStep(s, step, s') {
        PostStepKnows(s, step, s');
      } else {
        SendStepKnows(s, step, s');
      }
    }
  }

  // ---- Who does not wait can go on ----

  /** The delayed messages whose time has come, in any order. */
  lemma {:induction false} DueOnes(delayed: multiset<Delayed>, now: int) returns (due: seq<Delayed>)
    ensures multiset(due) <= delayed && (forall d :: d in due ==> d.runTime <= now)
    ensures forall d :: d in delayed - multiset(due) ==> now < d.runTime
    decreases |delayed|
  {
    if d :| d in delayed && d.runTime <= now {
      due := DueOnes(delayed - multiset{d}, now);
      assert delayed - multiset{d} - multiset(due) == delayed - multiset(due + [d]);
      due := due + [d];
    } else {
      due := [];
    }
  }

  lemma {:induction false} Earliest(delayed: multiset<Delayed>) returns (deadline: Option<int>)
    ensures !Before(deadline, delayed)
    decreases |delayed|
  {
    deadline := None;
    if d :| d in delayed {
      deadline := Earliest(delayed - multiset{d});
      deadline := Some(if deadline.Some? && deadline.value < d.runTime then deadline.value else d.runTime);
      forall e | e in delayed
        ensures deadline.value <= e.runTime
      {
        assert e == d || e in delayed - multiset{d};
      }
    }
  }

  /** Whatever the clock says, the queue can be scanned. */
  lemma CanScan(ts: ThreadState, t: Thread, now: int) returns (step: Step, ts': ThreadState)
    requires ts.pc.GetScan?
    ensures step.t == t && GetStep(ts, step, ts')
  {
    var due := DueOnes(ts.delayed, now);
    var deadline := Earliest(ts.delayed - multiset(due));
    var scanned := ts.(messages := ts.messages + MessagesOf(due), delayed := ts.delayed - multiset(due));
    step := Scan(t, now, due, deadline);
    ts' := if scanned.messages == [] then scanned.(pc := GetEmpty(deadline)) else TakeFront(scanned, deadline);
    hide Before, MessagesOf, TakeFront;
  }

  lemma GetGoesOn(s: State, t: Thread, now: int) returns (step: Step, s': State)
    requires t in s.threads && (s.threads[t].pc.GetScan? || s.threads[t].pc.GetPop? || s.threads[t].pc.GetEmpty?)
    ensures step.t == t && LocalStep(s, step, s')
  {
    var ts, ts' := s.threads[t], s.threads[t];
    if ts.pc.GetScan? {
      step, ts' := CanScan(ts, t, now);
    } else if ts.pc.GetPop? {
      step := PopAgain(t);
      ts' := if ts.messages == [] then ts.(pc := GetEmpty(ts.pc.deadline)) else TakeFront(ts, ts.pc.deadline);
    } else {
      step := TestStop(t);
      ts' := ts.(pc := if ts.stop then Busy else GetWait(ts.pc.deadline));
    }
    assert GetStep(ts, step, ts');
    hide GetStep;
    s' := With(s, t, ts').(stage := if ts.handling.None? && ts'.handling.Some? then s.stage[ts'.handling.value := Handled(t)]
                                    else s.stage);
  }

  predicate InPost(pc: Pc) {
    pc.PostTest? || pc.PostPush? || pc.WakeUp?
  }

  lemma PostGoesOn(s: State, t: Thread) returns (step: Step, s': State)
    requires t in s.threads && InPost(s.threads[t].pc) && TargetKnown(s, s.threads[t].pc)
    ensures step.t == t && PostStep(s, step, s')
    ensures s.threads[t].pc.WakeUp? ==> step == Wake(t)
  {
    var ts := s.threads[t];
    match ts.pc
    case PostTest(target, posting, onBehalf, back) =>
      step := TestTarget(t);
      s' := With(s, t, ts.(pc := if s.threads[target].stop then AfterPost(onBehalf, back)
                                 else PostPush(target, posting, onBehalf, back)));
    case PostPush(target, posting, onBehalf, back) =>
      step := Push(t);
      var pushed := With(s, target, Publish(s.threads[target], posting));
      var stage := if posting.Now? && posting.message.SendRequest? then s.stage[posting.message.token := Queued(target)]
                   else s.stage;
      s' := With(pushed, t, pushed.threads[t].(pc := WakeUp(target, onBehalf, back))).(stage := stage);
    case WakeUp(target, onBehalf, back) =>
      step := Wake(t);
      var signalled := With(s, target, s.threads[target].(event := true));
      s' := With(signalled, t, signalled.threads[t].(pc := AfterPost(onBehalf, back)));
    hide Publish, AfterPost;
  }

  lemma SendGoesOn(s: State, t: Thread) returns (step: Step, s': State)
    requires t in s.threads
    requires var ts := s.threads[t];
             ts.pc.SendCheck? || ts.pc.Reply? || (ts.pc.Busy? && ts.handling.Some? && ts.handling.value in s.runs)
    ensures step.t == t && SendStep(s, step, s')
  {
    var ts := s.threads[t];
    match ts.pc
    case SendCheck(token, waited, back) =>
      step := ReadReady(t);
      s' := With(s, t, ts.(pc := if token !in s.ready then SendWait(token, back)
                                 else if waited then WakeUp(t, None, back) else Resume(back)));
    case Reply(token) =>
      step := SetReady(t);
      s' := With(s, t, ts.(pc := WakeUp(token.sender, None, ToCaller))).(ready := s.ready + {token});
    case Busy =>
      step := HandlerReturns(t);
      var token := ts.handling.value;
      s' := With(s, t, ts.(pc := Reply(token), handling := None))
            .(stage := s.stage[token := Finished], runs := s.runs[token := s.runs[token] + 1]);
  }

  /** At any point of any run, every thread that does not wait on its event can take a step of its
      own, whatever the others do and whatever the clock says. */
  lemma CanGoOn(run: seq<State>, steps: seq<Step>, i: nat, t: Thread, now: int) returns (step: Step, s': State)
    requires IsRun(run, steps) && i < |run| && t in run[i].threads
    requires !run[i].threads[t].pc.GetWait? && !run[i].threads[t].pc.SendWait?
    ensures step.t == t && Next(run[i], step, s')
  {
    RunKeepsSendsInOrder(run, steps, i);
    RunKnows(run, steps, i);
    var s, pc := run[i], run[i].threads[t].pc;
    OwnIsPlaced(s, t);
    hide LocalStep, PostStep, SendStep, IsRun, SendsInOrder;
    if pc.GetScan? || pc.GetPop? || pc.GetEmpty? {
      step, s' := GetGoesOn(s, t, now);
    } else if InPost(pc) {
      step, s' := PostGoesOn(s, t);
    } else if pc.Busy? && s.threads[t].handling.None? {
      step, s' := CanCallGet(s, t);
    } else {
      step, s' := SendGoesOn(s, t);
    }
  }

  lemma CanCallGet(s: State, t: Thread) returns (step: Step, s': State)
    requires t in s.threads && s.threads[t].pc.Busy? && s.threads[t].handling.None?
    ensures step.t == t && LocalStep(s, step, s')
  {
    step := CallGet(t);
    s' := With(s, t, s.threads[t].(pc := GetScan)).(stage := s.stage);
  }

  // ---- Who has reason to wakes ----

  /** A continuation of a run. */
  ghost predicate IsPath(s: State, path: seq<State>, steps: seq<Step>) {
    && |path| == |steps| + 1 && path[0] == s
    && forall i :: 0 <= i < |steps| ==> Next(path[i], steps[i], path[i + 1])
  }

  /** The event of a thread with a pending wakeup can be signalled, if it is not yet. */
  lemma Signalled(s: State, t: Thread) returns (path: seq<State>, steps: seq<Step>, s': State)
    requires t in s.threads && WakePending(s, t) && AllKnown(s) && !s.threads[t].pc.WakeUp?
    ensures IsPath(s, path, steps) && |steps| <= 1 && path[|path| - 1] == s'
    ensures t in s'.threads && s'.threads[t].event && s'.threads[t].pc == s.threads[t].pc && s.ready <= s'.ready
  {
    if s.threads[t].event {
      path, steps, s' := [s], [], s;
    } else {
      var u :| u in s.threads && s.threads[u].pc.WakeUp? && s.threads[u].pc.target == t;
      var step;
      step, s' := PostGoesOn(s, u);
      StepEffect(s, step, s', t);
      WakeKeepsReady(s, step, s');
      hide Next;
      path, steps := [s, s'], [step];
    }
  }

  lemma WakeKeepsReady(s: State, step: Step, s': State)
    requires step.t in s.threads && PostStep(s, step, s')
    ensures s'.ready == s.ready
  {
    hide Publish, BackOf, AfterPost;
  }

  lemma OneMore(s: State, path: seq<State>, steps: seq<Step>, step: Step, s': State)
    requires IsPath(s, path, steps) && Next(path[|path| - 1], step, s')
    ensures IsPath(s, path + [s'], steps + [step])
  {
    hide Next;
  }

  lemma GetWakesUp(s: State, t: Thread) returns (s': State)
    requires t in s.threads && s.threads[t].pc.GetWait? && s.threads[t].event
    ensures Next(s, GetWakes(t, false), s') && t in s'.threads && s'.threads[t].pc == GetScan
  {
    s' := With(s, t, s.threads[t].(event := false, pc := GetScan)).(stage := s.stage);
    assert LocalStep(s, GetWakes(t, false), s');
    hide LocalStep, PostStep, SendStep;
  }

  /** At any point of any run, a Get that waits although there is a message, a request to quit or an
      earlier delayed message can be back at its scan after two steps: no more is needed than that
      whoever is about to signal it does. */
  lemma WaitingGetScansAgain(run: seq<State>, steps: seq<Step>, i: nat, t: Thread)
    returns (path: seq<State>, more: seq<Step>)
    requires IsRun(run, steps) && i < |run| && t in run[i].threads && run[i].threads[t].pc.GetWait?
    requires var ts := run[i].threads[t]; ts.messages != [] || ts.stop || Before(ts.pc.deadline, ts.delayed)
    ensures IsPath(run[i], path, more) && |more| <= 2
    ensures var last := path[|path| - 1]; t in last.threads && last.threads[t].pc == GetScan
  {
    NoLostWakeup(run, steps, i, t);
    RunKnows(run, steps, i);
    hide IsRun, Next, WakePending, AllKnown;
    var s, s';
    path, more, s := Signalled(run[i], t);
    s' := GetWakesUp(s, t);
    OneMore(run[i], path, more, GetWakes(t, false), s');
    path, more := path + [s'], more + [GetWakes(t, false)];
  }

  lemma SendWakesUp(s: State, t: Thread) returns (s1: State, s2: State)
    requires t in s.threads && s.threads[t].pc.SendWait? && s.threads[t].event && s.threads[t].pc.token in s.ready
    ensures Next(s, SendWakes(t), s1) && Next(s1, ReadReady(t), s2)
    ensures t in s2.threads && s2.threads[t].pc == WakeUp(t, None, s.threads[t].pc.back)
  {
    var ts := s.threads[t];
    s1 := With(s, t, ts.(event := false, pc := SendCheck(ts.pc.token, true, ts.pc.back)));
    s2 := With(s1, t, s1.threads[t].(pc := WakeUp(t, None, ts.pc.back)));
    assert SendStep(s, SendWakes(t), s1) && SendStep(s1, ReadReady(t), s2);
    hide LocalStep, PostStep, SendStep;
  }

  /** A Send that waits although its reply is ready can be past its wait after three steps. */
  lemma WaitingSendReturns(run: seq<State>, steps: seq<Step>, i: nat, t: Thread)
    returns (path: seq<State>, more: seq<Step>)
    requires IsRun(run, steps) && i < |run| && t in run[i].threads && run[i].threads[t].pc.SendWait?
    requires run[i].threads[t].pc.token in run[i].ready
    ensures IsPath(run[i], path, more) && |more| <= 3
    ensures var last := path[|path| - 1];
            t in last.threads && last.threads[t].pc == WakeUp(t, None, run[i].threads[t].pc.back)
  {
    NoLostWakeup(run, steps, i, t);
    RunKnows(run, steps, i);
    hide IsRun, Next, WakePending, AllKnown;
    var s;
    path, more, s := Signalled(run[i], t);
    var s1, s2 := SendWakesUp(s, t);
    OneMore(run[i], path, more, SendWakes(t), s1);
    OneMore(run[i], path + [s1], more + [SendWakes(t)], ReadReady(t), s2);
    path, more := path + [s1] + [s2], more + [SendWakes(t)] + [ReadReady(t)];
  }

  // ---- A handler that has returned is answered ----

  /** The ready flag is set, or the thread that ran the handler is about to set it. */
  ghost predicate Answered(s: State, token: Token) {
    token in s.ready || exists u :: u in s.threads && s.threads[u].pc == Reply(token)
  }

  lemma OnlySetReadyEndsReply(s: State, step: Step, s': State)
    requires Next(s, step, s') && s.threads[step.t].pc.Reply?
    ensures s.threads[step.t].pc.token in s'.ready
  {
    hide Before, MessagesOf, Publish, BackOf;
  }

  lemma ReadyGrows(s: State, step: Step, s': State)
    requires Next(s, step, s')
    ensures s.ready <= s'.ready
  {
    hide GetStep, PostStep;
    if PostStep(s, step, s') {
      WakeKeepsReady(s, step, s');
    }
  }

  lemma AnswerStays(s: State, step: Step, s': State, token: Token)
    requires Next(s, step, s') && Answered(s, token)
    ensures Answered(s', token)
  {
    hide Next;
    ReadyGrows(s, step, s');
    if token !in s.ready {
      var u :| u in s.threads && s.threads[u].pc == Reply(token);
      StepEffect(s, step, s', u);
      if u == step.t {
        OnlySetReadyEndsReply(s, step, s');
      }
    }
  }

  lemma OnlyHandlersFinish(s: State, step: Step, s': State, token: Token)
    requires Next(s, step, s') && token in s'.stage && s'.stage[token] == Finished
    ensures (token in s.stage && s.stage[token] == Finished)
            || (step.t in s'.threads && s'.threads[step.t].pc == Reply(token))
  {
    hide GetStep, Publish, BackOf, Before, AfterPost;
  }

  /** At any point of any run, once the handler of a Send has returned, its ready flag is set, or the
      handler's thread is about to set it; with that the Send can return. */
  lemma {:induction false} FinishedIsAnswered(run: seq<State>, steps: seq<Step>, i: nat, token: Token)
    requires IsRun(run, steps) && i < |run| && token in run[i].stage && run[i].stage[token] == Finished
    ensures Answered(run[i], token)
    decreases i
  {
    if i > 0 {
      var s, step, s' := run[i - 1], steps[i - 1], run[i - 1 + 1];
      assert Next(s, step, s');
      hide Next, IsRun;
      OnlyHandlersFinish(s, step, s', token);
      if token in s.stage && s.stage[token] == Finished {
        FinishedIsAnswered(run, steps, i - 1, token);
        AnswerStays(s, step, s', token);
      }
    }
  }
}
