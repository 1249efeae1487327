/** What a Get leaves behind when it finds the stop flag set, over runs of the protocol: the lock is
    not held between finding the queue empty and testing the flag, so more may have come. */
module WakeupQuits {
  import opened Options
  import opened WakeupProtocol

  /** Step j is the look after which thread t stands before its test of the stop flag at i. */
  ghost predicate IsLastLook(run: seq<State>, steps: seq<Step>, j: nat, i: nat, t: Thread)
    requires |run| == |steps| + 1
  {
    && j < i <= |steps| && steps[j].t == t && (steps[j].Scan? || steps[j].PopAgain?)
    && t in run[j + 1].threads && run[j + 1].threads[t].messages == []
    && forall k :: j < k < i ==> steps[k].t != t
  }

  lemma OnlyLooksFindEmpty(s: State, step: Step, s': State)
    requires Next(s, step, s')
    ensures step.t in s'.threads && s'.threads[step.t].pc.GetEmpty? ==>
              (step.Scan? || step.PopAgain?) && s'.threads[step.t].messages == []
  {
    hide PostStep, SendStep;
    if PostStep(s, step, s') {
      PostsOnlyPush(s, step, s', step.t);
    } else if SendStep(s, step, s') {
      SendsPushNothing(s, step, s', step.t);
    }
  }

  lemma {:induction false} LastLook(run: seq<State>, steps: seq<Step>, i: nat, t: Thread) returns (j: nat)
    requires IsRun(run, steps) && i < |run| && t in run[i].threads && run[i].threads[t].pc.GetEmpty?
    ensures IsLastLook(run, steps, j, i, t)
  {
    hide Next;
    assert i > 0 && |run| == |steps| + 1;
    hide Initial;
    assert Next(run[i - 1], steps[i - 1], run[i]);
    hide IsRun;
    if steps[i - 1].t == t {
      OnlyLooksFindEmpty(run[i - 1], steps[i - 1], run[i]);
      j := i - 1;
    } else {
      StepEffect(run[i - 1], steps[i - 1], run[i], t);
      hide IsLastLook, OwnToken;
      j := LastLook(run, steps, i - 1, t);
      LookStaysLast(run, steps, j, i - 1, t);
    }
  }

  lemma LookStaysLast(run: seq<State>, steps: seq<Step>, j: nat, i: nat, t: Thread)
    requires |run| == |steps| + 1 && IsLastLook(run, steps, j, i, t) && i < |steps| && steps[i].t != t
    ensures IsLastLook(run, steps, j, i + 1, t)
  {
  }

  /** The step publishes a message that is ready at once for thread t. */
  ghost predicate PushesReady(s: State, step: Step, t: Thread) {
    && step.Push? && step.t in s.threads && s.threads[step.t].pc.PostPush?
    && s.threads[step.t].pc.target == t && s.threads[step.t].pc.posting.Now?
  }

  ghost predicate ClearsQueueOf(step: Step, t: Thread) {
    step.Clear? && step.target == t
  }

  /** After the step there is a ready message for thread t: it is pushed, or a clear keeps it. */
  ghost predicate BringsReady(s: State, step: Step, t: Thread) {
    PushesReady(s, step, t) || (ClearsQueueOf(step, t) && step.messages != [])
  }

  /** Only a push for it brings ready messages to a thread that does nothing itself, and only a
      clear takes any away. */
  lemma OthersPushOrClear(s: State, step: Step, s': State, t: Thread)
    requires Next(s, step, s') && t in s.threads && step.t != t
    ensures t in s'.threads
    ensures s'.threads[t].messages != [] <==>
              BringsReady(s, step, t) || (!ClearsQueueOf(step, t) && s.threads[t].messages != [])
  {
    hide PostStep, SendStep;
    if PostStep(s, step, s') {
      PostsOnlyPush(s, step, s', t);
    } else if SendStep(s, step, s') {
      SendsPushNothing(s, step, s', t);
    }
  }

  lemma PostsOnlyPush(s: State, step: Step, s': State, t: Thread)
    ensures step.t in s.threads && PostStep(s, step, s') ==>
              step.t in s'.threads && !s'.threads[step.t].pc.GetEmpty?
              && (t in s.threads && step.t != t ==>
                    t in s'.threads && s'.threads[t].messages ==
                    if ClearsQueueOf(step, t) then step.messages
                    else if PushesReady(s, step, t) then s.threads[t].messages + [s.threads[step.t].pc.posting.message]
                    else s.threads[t].messages)
  {
  }

  lemma SendsPushNothing(s: State, step: Step, s': State, t: Thread)
    ensures step.t in s.threads && SendStep(s, step, s') ==>
              step.t in s'.threads && !s'.threads[step.t].pc.GetEmpty?
              && (t in s.threads && step.t != t ==>
                    !step.Push? && !step.Clear? && t in s'.threads && s'.threads[t].messages == s.threads[t].messages)
  {
  }

  /** Step k brings a ready message to thread t, and nobody clears its queue after that and
      before step i. */
  ghost predicate BroughtLast(run: seq<State>, steps: seq<Step>, k: nat, i: nat, t: Thread)
    requires |run| == |steps| + 1 && k < i <= |steps|
  {
    BringsReady(run[k], steps[k], t) && forall n :: k < n < i ==> !ClearsQueueOf(steps[n], t)
  }

  ghost predicate BroughtSince(run: seq<State>, steps: seq<Step>, j: nat, i: nat, t: Thread)
    requires |run| == |steps| + 1 && j < i <= |steps|
  {
    exists k :: j < k < i && BroughtLast(run, steps, k, i, t)
  }

  lemma BroughtStep(run: seq<State>, steps: seq<Step>, j: nat, i: nat, t: Thread)
    requires |run| == |steps| + 1 && j < i < |steps|
    ensures BroughtSince(run, steps, j, i + 1, t) <==>
              BringsReady(run[i], steps[i], t)
              || (!ClearsQueueOf(steps[i], t) && BroughtSince(run, steps, j, i, t))
  {
    hide BringsReady, ClearsQueueOf;
    if BringsReady(run[i], steps[i], t) {
      assert BroughtLast(run, steps, i, i + 1, t);
    }
    if !ClearsQueueOf(steps[i], t) && BroughtSince(run, steps, j, i, t) {
      var k :| j < k < i && BroughtLast(run, steps, k, i, t);
      assert BroughtLast(run, steps, k, i + 1, t);
    }
    if BroughtSince(run, steps, j, i + 1, t) {
      var k :| j < k < i + 1 && BroughtLast(run, steps, k, i + 1, t);
      assert k < i ==> BroughtLast(run, steps, k, i, t);
    }
  }

  lemma {:induction false} ReadySinceLook(run: seq<State>, steps: seq<Step>, j: nat, i: nat, t: Thread)
    requires IsRun(run, steps) && IsLastLook(run, steps, j, i, t)
    ensures t in run[i].threads
    ensures run[i].threads[t].messages != [] <==> BroughtSince(run, steps, j, i, t)
    decreases i
  {
    hide Next, Initial, BringsReady, ClearsQueueOf;
    if i > j + 1 {
      ReadySinceLook(run, steps, j, i - 1, t);
      assert Next(run[i - 1], steps[i - 1], run[i]);
      OthersPushOrClear(run[i - 1], steps[i - 1], run[i], t);
      BroughtStep(run, steps, j, i - 1, t);
      hide BroughtSince;
    }
  }

  /** A Get that quits leaves a ready message behind if and only if, since that Get's last look,
      some thread has pushed one or kept one when it cleared the queue, and nobody has cleared the
      queue after that. */
  lemma QuittingLeavesWhatWasPushed(run: seq<State>, steps: seq<Step>, i: nat, t: Thread) returns (j: nat)
    requires IsRun(run, steps) && i < |steps| && steps[i] == TestStop(t)
    ensures t in run[i].threads && t in run[i + 1].threads && run[i].threads[t].pc.GetEmpty?
    ensures IsLastLook(run, steps, j, i, t)
    ensures var ts := run[i].threads[t];
            run[i + 1].threads[t].pc == if ts.stop then Busy else GetWait(ts.pc.deadline)
    ensures run[i + 1].threads[t].messages != [] <==> BroughtSince(run, steps, j, i, t)
  {
    assert Next(run[i], steps[i], run[i + 1]);
    assert GetStep(run[i].threads[t], steps[i], run[i + 1].threads[t]);
    hide Next;
    j := LastLook(run, steps, i, t);
    ReadySinceLook(run, steps, j, i, t);
  }

  /** The stop flag of a thread follows the last request: it is set after a Quit, and clear after a
      Restart, until the next one of either. */
  lemma {:induction false} StopFollowsLastRequest(run: seq<State>, steps: seq<Step>, j: nat, i: nat, t: Thread)
    requires IsRun(run, steps) && j < i < |run| && t in run[i].threads
    requires forall k :: j < k < i ==> !((steps[k].Quit? || steps[k].Restart?) && steps[k].target == t)
    ensures steps[j].Quit? && steps[j].target == t ==> run[i].threads[t].stop
    ensures steps[j].Restart? && steps[j].target == t ==> !run[i].threads[t].stop
    decreases i
  {
    hide Next, Initial;
    assert Next(run[i - 1], steps[i - 1], run[i - 1 + 1]);
    StopChanges(run[i - 1], steps[i - 1], run[i], t);
    if j < i - 1 {
      StopFollowsLastRequest(run, steps, j, i - 1, t);
    }
  }

  lemma StopChanges(s: State, step: Step, s': State, t: Thread)
    requires Next(s, step, s') && t in s'.threads
    ensures t in s.threads
    ensures s'.threads[t].stop == if step.Quit? && step.target == t then true
                                  else if step.Restart? && step.target == t then false
                                  else s.threads[t].stop
  {
    hide PostStep, SendStep, GetStep;
    StepEffect(s, step, s', t);
    if PostStep(s, step, s') {
      PostChangesStop(s, step, s', t);
    } else if SendStep(s, step, s') {
      SendKeepsStop(s, step, s', t);
    } else {
      GetKeepsStop(s.threads[step.t], step, s'.threads[step.t]);
    }
  }

  lemma PostChangesStop(s: State, step: Step, s': State, t: Thread)
    ensures step.t in s.threads && PostStep(s, step, s') && t in s.threads && t in s'.threads ==>
              s'.threads[t].stop == if step.Quit? && step.target == t then true
                                    else if step.Restart? && step.target == t then false
                                    else s.threads[t].stop
  {
    hide BackOf, AfterPost;
  }

  lemma SendKeepsStop(s: State, step: Step, s': State, t: Thread)
    ensures step.t in s.threads && SendStep(s, step, s') && t in s.threads && t in s'.threads ==>
              s'.threads[t].stop == s.threads[t].stop && !step.Quit? && !step.Restart?
  {
    hide BackOf, Resume;
  }

  lemma GetKeepsStop(ts: ThreadState, step: Step, ts': ThreadState)
    ensures GetStep(ts, step, ts') ==> ts'.stop == ts.stop && !step.Quit? && !step.Restart?
  {
    hide Before, MessagesOf;
  }

  // ---- Such a run ----

  /** Two threads, no Send. */
  function Both(owner: ThreadState, poster: ThreadState): State {
    State(map[0 := owner, 1 := poster], {}, map[], map[])
  }

  function Idle(pc: Pc): ThreadState {
    ThreadState([], multiset{}, false, false, pc, None)
  }

  lemma WithBoth(a: ThreadState, b: ThreadState, p: ThreadState, q: ThreadState)
    ensures With(Both(a, p), 0, b) == Both(b, p) && With(Both(a, p), 1, q) == Both(a, q)
  {
  }

  /** The owner finds its queue empty; then a message is posted and the owner is asked to quit;
      only then does the owner test the flag. */
  function Straggler(): (seq<State>, seq<Step>) {
    var empty := Idle(GetEmpty(None));
    var posted := empty.(messages := [Task]);
    var woken := posted.(event := true);
    var stopped := woken.(stop := true);
    ([Both(Idle(Busy), Idle(Busy)),
      Both(Idle(GetScan), Idle(Busy)),
      Both(empty, Idle(Busy)),
      Both(empty, Idle(PostTest(0, Now(Task), None, ToCaller))),
      Both(empty, Idle(PostPush(0, Now(Task), None, ToCaller))),
      Both(posted, Idle(WakeUp(0, None, ToCaller))),
      Both(woken, Idle(Busy)),
      Both(stopped, Idle(WakeUp(0, None, ToCaller))),
      Both(stopped.(pc := Busy), Idle(WakeUp(0, None, ToCaller)))],
     [CallGet(0), Scan(0, 0, [], None), CallPost(1, 0, Now(Task)), TestTarget(1), Push(1), Wake(1), Quit(1, 0),
      TestStop(0)])
  }

  lemma OwnerSteps(step: Step, a: ThreadState, b: ThreadState, poster: ThreadState)
    requires step.t == 0 && GetStep(a, step, b) && a.handling.None? && b.handling.None?
    ensures Next(Both(a, poster), step, Both(b, poster))
  {
    WithBoth(a, b, poster, poster);
    var s, s' := Both(a, poster), Both(b, poster);
    assert s.threads[0] == a && s'.threads[0] == b && s.stage == s'.stage;
    assert 0 in s.threads && 0 in s'.threads;
    hide GetStep, PostStep, SendStep, With, Both;
    assert LocalStep(s, step, s');
  }

  lemma EmptyScan()
    ensures GetStep(Idle(GetScan), Scan(0, 0, [], None), Idle(GetEmpty(None)))
  {
    assert MessagesOf([]) == [];
    var scan := Idle(GetScan);
    assert scan.(messages := scan.messages + MessagesOf([]), delayed := scan.delayed - multiset([])) == scan;
  }

  lemma PosterPosts(owner: ThreadState)
    requires !owner.stop
    ensures Next(Both(owner, Idle(Busy)), CallPost(1, 0, Now(Task)),
                 Both(owner, Idle(PostTest(0, Now(Task), None, ToCaller))))
    ensures Next(Both(owner, Idle(PostTest(0, Now(Task), None, ToCaller))), TestTarget(1),
                 Both(owner, Idle(PostPush(0, Now(Task), None, ToCaller))))
  {
    WithBoth(owner, owner, Idle(Busy), Idle(PostTest(0, Now(Task), None, ToCaller)));
    WithBoth(owner, owner, Idle(PostTest(0, Now(Task), None, ToCaller)), Idle(PostPush(0, Now(Task), None, ToCaller)));
    hide LocalStep, SendStep, With, PushStep;
  }

  lemma PosterPushes(owner: ThreadState)
    ensures Next(Both(owner, Idle(PostPush(0, Now(Task), None, ToCaller))), Push(1),
                 Both(owner.(messages := owner.messages + [Task]), Idle(WakeUp(0, None, ToCaller))))
  {
    var pushed := owner.(messages := owner.messages + [Task]);
    var p, q := Idle(PostPush(0, Now(Task), None, ToCaller)), Idle(WakeUp(0, None, ToCaller));
    var s := Both(owner, p);
    WithBoth(owner, pushed, p, p);
    WithBoth(pushed, pushed, p, q);
    hide LocalStep, SendStep, With;
    assert PushStep(s, 1, Both(pushed, q));
  }

  lemma PosterWakes(owner: ThreadState)
    ensures Next(Both(owner, Idle(WakeUp(0, None, ToCaller))), Wake(1), Both(owner.(event := true), Idle(Busy)))
  {
    var woken := owner.(event := true);
    WithBoth(owner, woken, Idle(WakeUp(0, None, ToCaller)), Idle(WakeUp(0, None, ToCaller)));
    WithBoth(woken, woken, Idle(WakeUp(0, None, ToCaller)), Idle(Busy));
    hide LocalStep, SendStep, With, PushStep;
  }

  lemma PosterQuits(owner: ThreadState)
    ensures Next(Both(owner, Idle(Busy)), Quit(1, 0),
                 Both(owner.(stop := true), Idle(WakeUp(0, None, ToCaller))))
  {
    var stopped := owner.(stop := true);
    WithBoth(owner, stopped, Idle(Busy), Idle(Busy));
    WithBoth(stopped, stopped, Idle(Busy), Idle(WakeUp(0, None, ToCaller)));
    hide LocalStep, SendStep, With, PushStep;
  }

  lemma StragglerStarts()
    ensures var (run, steps) := Straggler(); forall i :: 0 <= i < 4 ==> Next(run[i], steps[i], run[i + 1])
  {
    hide Next, Both, PostStep, LocalStep, SendStep;
    EmptyScan();
    OwnerSteps(CallGet(0), Idle(Busy), Idle(GetScan), Idle(Busy));
    OwnerSteps(Scan(0, 0, [], None), Idle(GetScan), Idle(GetEmpty(None)), Idle(Busy));
    PosterPosts(Idle(GetEmpty(None)));
  }

  lemma StragglerEnds()
    ensures var (run, steps) := Straggler(); forall i :: 4 <= i < 8 ==> Next(run[i], steps[i], run[i + 1])
  {
    hide Next, Both, PostStep, LocalStep, SendStep;
    var empty := Idle(GetEmpty(None));
    var posted := empty.(messages := [Task]);
    var woken := posted.(event := true);
    var stopped := woken.(stop := true);
    assert empty.messages + [Task] == [Task];
    PosterPushes(empty);
    PosterWakes(posted);
    PosterQuits(woken);
    OwnerSteps(TestStop(0), stopped, stopped.(pc := Busy), Idle(WakeUp(0, None, ToCaller)));
  }

  /** The contract of Quit promises that a message which is ready is delivered before Get returns;
      here one that was posted before the Quit is not. */
  lemma ReadyIsLeftBehindByQuitting()
    ensures var (run, steps) := Straggler();
            IsRun(run, steps) && steps[7] == TestStop(0)
            && run[8].threads[0].pc == Busy && run[8].threads[0].messages == [Task] && run[8].threads[0].stop
  {
    StragglerStarts();
    StragglerEnds();
    hide Next;
  }
}
