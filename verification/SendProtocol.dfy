/** A Send returns only after its handler has run, exactly once. */
module SendProtocol {
  import opened Options
  import opened WakeupProtocol

  ghost predicate QueuePlaced(messages: seq<Message>, t: Thread, stage: map<Token, Stage>) {
    forall token :: SendRequest(token) in messages ==>
      token in stage && stage[token] == Queued(t) && multiset(messages)[SendRequest(token)] == 1
  }

  predicate PcPlaced(pc: Pc, t: Thread, stage: map<Token, Stage>) {
    match pc
    case PostTest(_, posting, _, _) => PostingPlaced(posting, t, stage)
    case PostPush(_, posting, _, _) => PostingPlaced(posting, t, stage)
    case Reply(token) => token in stage && stage[token] == Finished
    case _ => true
  }

  predicate PostingPlaced(posting: Posting, t: Thread, stage: map<Token, Stage>) {
    match posting
    case Now(SendRequest(token)) => token in stage && stage[token] == Unposted(t)
    case Now(_) => true
    case Later(d) => !d.message.SendRequest?
  }

  predicate HandlingPlaced(handling: Option<Token>, t: Thread, stage: map<Token, Stage>) {
    handling.Some? ==> handling.value in stage && stage[handling.value] == Handled(t)
  }

  /** Every place where a Send's request can be agrees with the stage it has reached, so a
      request is never in two places. */
  ghost predicate Placed(ts: ThreadState, t: Thread, stage: map<Token, Stage>) {
    && QueuePlaced(ts.messages, t, stage)
    && PcPlaced(ts.pc, t, stage)
    && HandlingPlaced(ts.handling, t, stage)
    && (forall d :: d in ts.delayed ==> !d.message.SendRequest?)
    && (InGet(ts.pc) ==> ts.handling.None?)
  }

  predicate InGet(pc: Pc) {
    pc.GetScan? || pc.GetEmpty? || pc.GetWait? || BackOf(pc).ToGet?
  }

  ghost predicate RunsMatchStages(s: State) {
    && s.runs.Keys == s.stage.Keys
    && (forall token :: token in s.stage ==> s.runs[token] == if s.stage[token] == Finished then 1 else 0)
    && (forall token :: token in s.ready ==> token in s.stage && s.stage[token] == Finished)
  }

  ghost predicate SendsInOrder(s: State) {
    RunsMatchStages(s) && forall t :: t in s.threads ==> Placed(s.threads[t], t, s.stage)
  }

  /** A token that is nowhere at this thread may move on without touching the thread. */
  lemma ElsewhereMoves(ts: ThreadState, t: Thread, stage: map<Token, Stage>, token: Token, moved: Stage)
    requires Placed(ts, t, stage)
    requires token in stage ==> stage[token] !in {Unposted(t), Queued(t), Handled(t), Finished}
    ensures Placed(ts, t, stage[token := moved])
  {
  }

  lemma QueueUnaffected(messages: seq<Message>, t: Thread, stage: map<Token, Stage>, token: Token, moved: Stage)
    requires QueuePlaced(messages, t, stage) && (token in stage ==> stage[token] != Queued(t))
    ensures QueuePlaced(messages, t, stage[token := moved])
  {
  }

  lemma QueueAppends(messages: seq<Message>, t: Thread, stage: map<Token, Stage>, more: seq<Message>)
    requires QueuePlaced(messages, t, stage) && forall m :: m in more ==> !m.SendRequest?
    ensures QueuePlaced(messages + more, t, stage)
  {
    forall token | SendRequest(token) in messages + more
      ensures SendRequest(token) in messages && multiset(messages + more)[SendRequest(token)] == 1
    {
      var request := SendRequest(token);
      assert request !in more;
      assert request !in multiset(more);
    }
  }

  lemma QueueAppendsRequest(messages: seq<Message>, t: Thread, stage: map<Token, Stage>, token: Token)
    requires QueuePlaced(messages, t, stage) && token in stage && stage[token] != Queued(t)
    ensures QueuePlaced(messages + [SendRequest(token)], t, stage[token := Queued(t)])
  {
    assert SendRequest(token) !in multiset(messages);
    forall other | SendRequest(other) in messages + [SendRequest(token)] && other != token
      ensures SendRequest(other) in messages
    {
    }
  }

  lemma QueuePops(messages: seq<Message>, t: Thread, stage: map<Token, Stage>)
    requires QueuePlaced(messages, t, stage) && messages != []
    ensures QueuePlaced(messages[1..], t, stage)
    ensures messages[0].SendRequest? ==>
      messages[0].token in stage && stage[messages[0].token] == Queued(t)
      && messages[0] !in messages[1..]
      && QueuePlaced(messages[1..], t, stage[messages[0].token := Handled(t)])
  {
    assert messages == [messages[0]] + messages[1..];
    assert multiset(messages) == multiset{messages[0]} + multiset(messages[1..]);
    assert messages[0] in messages;
  }

  lemma QueueShrinks(messages: seq<Message>, fewer: seq<Message>, t: Thread, stage: map<Token, Stage>)
    requires QueuePlaced(messages, t, stage) && multiset(fewer) <= multiset(messages)
    ensures QueuePlaced(fewer, t, stage)
  {
    forall token | SendRequest(token) in fewer
      ensures SendRequest(token) in messages && multiset(fewer)[SendRequest(token)] == 1
    {
      assert SendRequest(token) in multiset(fewer);
    }
  }

  lemma FrontTaken(ts: ThreadState, deadline: Option<int>, t: Thread, stage: map<Token, Stage>)
    requires Placed(ts, t, stage) && ts.messages != [] && ts.handling.None?
    requires ts.pc.GetScan? || ts.pc.GetPop?
    ensures var ts' := TakeFront(ts, deadline);
            Placed(ts', t, if ts'.handling.Some? then stage[ts'.handling.value := Handled(t)] else stage)
    ensures var ts' := TakeFront(ts, deadline);
            ts'.handling.Some? ==> ts'.handling.value in stage && stage[ts'.handling.value] == Queued(t)
  {
    hide QueuePlaced;
    QueuePops(ts.messages, t, stage);
  }

  /** Get runs no handler yet, and keeps its own thread in order. */
  lemma GetStepKeepsPlaced(ts: ThreadState, step: Step, ts': ThreadState, t: Thread, stage: map<Token, Stage>)
    requires GetStep(ts, step, ts') && Placed(ts, t, stage)
    ensures TakesInto(ts, ts', t, stage)
  {
    if step.Scan? {
      ScanKeepsPlaced(ts, step, ts', t, stage);
    } else if step.PopAgain? {
      if ts.messages != [] {
        FrontTaken(ts, ts.pc.deadline, t, stage);
      }
    }
    hide QueuePlaced, Before, MessagesOf;
  }

  /** A Get may take a request that was queued at this thread, and then starts to handle it. */
  ghost predicate TakesInto(ts: ThreadState, ts': ThreadState, t: Thread, stage: map<Token, Stage>) {
    if ts.handling.None? && ts'.handling.Some? then
      ts'.handling.value in stage && stage[ts'.handling.value] == Queued(t)
      && Placed(ts', t, stage[ts'.handling.value := Handled(t)])
    else Placed(ts', t, stage)
  }

  lemma ScanKeepsPlaced(ts: ThreadState, step: Step, ts': ThreadState, t: Thread, stage: map<Token, Stage>)
    requires GetStep(ts, step, ts') && Placed(ts, t, stage) && step.Scan?
    ensures TakesInto(ts, ts', t, stage)
  {
    var due := step.due;
    var scanned := ts.(messages := ts.messages + MessagesOf(due), delayed := ts.delayed - multiset(due));
    DueArePlain(ts, due);
    hide Before, QueuePlaced, MessagesOf;
    QueueAppends(ts.messages, t, stage, MessagesOf(due));
    assert Placed(scanned, t, stage);
    if scanned.messages != [] {
      FrontTaken(scanned, step.deadline, t, stage);
    }
  }

  lemma DueArePlain(ts: ThreadState, due: seq<Delayed>)
    requires multiset(due) <= ts.delayed && forall d :: d in ts.delayed ==> !d.message.SendRequest?
    ensures forall m :: m in MessagesOf(due) ==> !m.SendRequest?
  {
    forall m | m in MessagesOf(due)
      ensures !m.SendRequest?
    {
      var i :| 0 <= i < |due| && m == due[i].message;
      assert due[i] in multiset(due);
    }
  }

  lemma LocalStepKeepsOrder(s: State, step: Step, s': State)
    requires SendsInOrder(s) && step.t in s.threads && LocalStep(s, step, s')
    ensures SendsInOrder(s')
  {
    hide GetStep;
    var ts, ts' := s.threads[step.t], s'.threads[step.t];
    GetStepKeepsPlaced(ts, step, ts', step.t, s.stage);
    hide Placed;
    if ts.handling.None? && ts'.handling.Some? {
      forall u | u in s'.threads && u != step.t
        ensures Placed(s'.threads[u], u, s'.stage)
      {
        ElsewhereMoves(s.threads[u], u, s.stage, ts'.handling.value, Handled(step.t));
      }
    }
  }

  lemma PushRequestKeepsOrder(s: State, t: Thread, s': State, token: Token)
    requires SendsInOrder(s) && t in s.threads && PushStep(s, t, s')
    requires s.threads[t].pc.posting == Now(SendRequest(token))
    ensures SendsInOrder(s')
  {
    forall u | u in s'.threads
      ensures Placed(s'.threads[u], u, s'.stage)
    {
      PushRequestKeepsPlaced(s, t, s', token, u);
    }
    hide Placed;
  }

  lemma PushRequestKeepsPlaced(s: State, t: Thread, s': State, token: Token, u: Thread)
    requires SendsInOrder(s) && t in s.threads && PushStep(s, t, s') && u in s'.threads
    requires s.threads[t].pc.posting == Now(SendRequest(token))
    ensures Placed(s'.threads[u], u, s'.stage)
  {
    hide QueuePlaced;
    var target := s.threads[t].pc.target;
    if u == target {
      QueueAppendsRequest(s.threads[target].messages, target, s.stage, token);
    } else if u == t {
      QueueUnaffected(s.threads[t].messages, t, s.stage, token, Queued(target));
    }
    if u != t {
      ElsewhereMoves(s.threads[u], u, s.stage, token, Queued(target));
    }
  }

  lemma PushPlainKeepsOrder(s: State, t: Thread, s': State)
    requires SendsInOrder(s) && t in s.threads && PushStep(s, t, s')
    requires var posting := s.threads[t].pc.posting; posting.Later? || !posting.message.SendRequest?
    ensures SendsInOrder(s')
  {
    forall u | u in s'.threads
      ensures Placed(s'.threads[u], u, s'.stage)
    {
      PushPlainKeepsPlaced(s, t, s', u);
    }
    hide Placed;
  }

  lemma PushPlainKeepsPlaced(s: State, t: Thread, s': State, u: Thread)
    requires t in s.threads && PushStep(s, t, s') && u in s'.threads && u in s.threads
    requires var posting := s.threads[t].pc.posting; posting.Later? || !posting.message.SendRequest?
    requires Placed(s.threads[t], t, s.stage) && Placed(s.threads[u], u, s.stage)
    ensures Placed(s'.threads[u], u, s'.stage)
  {
    var ts, pc := s.threads[u], s.threads[t].pc;
    assert s'.threads[u] == (if u == pc.target then Publish(ts, pc.posting) else ts)
                            .(pc := if u == t then WakeUp(pc.target, pc.onBehalf, pc.back) else ts.pc);
    assert pc.posting.Later? ==> !pc.posting.delayed.message.SendRequest?;
    hide PushStep, Placed, Publish;
    PublishKeepsPlaced(ts, pc.posting, u, s.stage);
    if u == t {
      WakerIsPlaced(ts, u, s.stage, WakeUp(pc.target, pc.onBehalf, pc.back));
      WakerIsPlaced(Publish(ts, pc.posting), u, s.stage, WakeUp(pc.target, pc.onBehalf, pc.back));
    }
  }

  lemma PublishKeepsPlaced(ts: ThreadState, posting: Posting, t: Thread, stage: map<Token, Stage>)
    requires Placed(ts, t, stage)
    requires if posting.Now? then !posting.message.SendRequest? else !posting.delayed.message.SendRequest?
    ensures Placed(Publish(ts, posting), t, stage)
  {
    hide QueuePlaced, HandlingPlaced, PcPlaced;
    if posting.Now? {
      QueueAppends(ts.messages, t, stage, [posting.message]);
    }
  }

  lemma WakerIsPlaced(ts: ThreadState, t: Thread, stage: map<Token, Stage>, pc: Pc)
    requires Placed(ts, t, stage) && pc.WakeUp? && BackOf(pc) == BackOf(ts.pc)
    ensures Placed(ts.(pc := pc), t, stage)
  {
  }

  lemma ClearKeepsOrder(s: State, step: Step, s': State)
    requires SendsInOrder(s) && step.Clear? && step.t in s.threads && PostStep(s, step, s')
    ensures SendsInOrder(s')
  {
    hide QueuePlaced;
    QueueShrinks(s.threads[step.target].messages, step.messages, step.target, s.stage);
  }

  /** The remaining posting steps move no message. */
  lemma QuietStepEffect(s: State, step: Step, s': State, u: Thread)
    ensures !step.Push? && !step.Clear? && step.t in s.threads && PostStep(s, step, s') && u in s'.threads ==>
              u in s.threads
              && var a, b := s.threads[u], s'.threads[u];
                 b == a.(event := b.event, stop := b.stop, pc := b.pc) && (b.pc == a.pc || u == step.t)
  {
  }

  lemma QuietStepMovesOwn(s: State, step: Step, s': State)
    requires !step.Push? && !step.Clear? && step.t in s.threads && PostStep(s, step, s')
    ensures s'.stage == s.stage && s'.runs == s.runs && s'.ready == s.ready && step.t in s'.threads
    ensures PcPlaced(s.threads[step.t].pc, step.t, s.stage) ==>
              PcPlaced(s'.threads[step.t].pc, step.t, s.stage)
    ensures InGet(s'.threads[step.t].pc) ==> InGet(s.threads[step.t].pc)
  {
  }

  lemma QuietStepKeepsOrder(s: State, step: Step, s': State)
    requires SendsInOrder(s) && !step.Push? && !step.Clear? && step.t in s.threads && PostStep(s, step, s')
    ensures SendsInOrder(s')
  {
    hide PostStep, Placed;
    QuietStepMovesOwn(s, step, s');
    forall u | u in s'.threads
      ensures Placed(s'.threads[u], u, s'.stage)
    {
      QuietStepKeepsPlaced(s, step, s', u);
    }
  }

  lemma QuietStepKeepsPlaced(s: State, step: Step, s': State, u: Thread)
    requires !step.Push? && !step.Clear? && step.t in s.threads && PostStep(s, step, s')
    requires u in s'.threads && (u in s.threads ==> Placed(s.threads[u], u, s.stage))
    ensures Placed(s'.threads[u], u, s'.stage)
  {
    hide PostStep, QueuePlaced, PcPlaced, HandlingPlaced, InGet;
    QuietStepEffect(s, step, s', u);
    QuietStepMovesOwn(s, step, s');
  }

  lemma PostStepKeepsOrder(s: State, step: Step, s': State)
    requires SendsInOrder(s) && step.t in s.threads && PostStep(s, step, s')
    ensures SendsInOrder(s')
  {
    hide SendsInOrder;
    if step.Push? {
      assert PushStep(s, step.t, s');
      var posting := s.threads[step.t].pc.posting;
      if posting.Now? && posting.message.SendRequest? {
        PushRequestKeepsOrder(s, step.t, s', posting.message.token);
      } else {
        PushPlainKeepsOrder(s, step.t, s');
      }
    } else if step.Clear? {
      ClearKeepsOrder(s, step, s');
    } else {
      QuietStepKeepsOrder(s, step, s');
    }
  }

  lemma CallSendKeepsOrder(s: State, step: Step, s': State)
    requires SendsInOrder(s) && step.CallSend? && step.t in s.threads && SendStep(s, step, s')
    ensures SendsInOrder(s')
  {
    hide QueuePlaced;
    forall u | u in s.threads
      ensures Placed(s.threads[u], u, s'.stage)
    {
      ElsewhereMoves(s.threads[u], u, s.stage, Token(step.t, step.serial), Unposted(step.t));
    }
  }

  lemma HandlerReturnsKeepsOrder(s: State, step: Step, s': State)
    requires SendsInOrder(s) && step.HandlerReturns? && step.t in s.threads && SendStep(s, step, s')
    ensures SendsInOrder(s')
  {
    hide QueuePlaced;
    var token := s.threads[step.t].handling.value;
    QueueUnaffected(s.threads[step.t].messages, step.t, s.stage, token, Finished);
    forall u | u in s'.threads && u != step.t
      ensures Placed(s'.threads[u], u, s'.stage)
    {
      ElsewhereMoves(s.threads[u], u, s.stage, token, Finished);
    }
  }

  lemma SendStepKeepsOrder(s: State, step: Step, s': State)
    requires SendsInOrder(s) && step.t in s.threads && SendStep(s, step, s')
    ensures SendsInOrder(s')
  {
    if step.CallSend? {
      CallSendKeepsOrder(s, step, s');
    } else if step.HandlerReturns? {
      HandlerReturnsKeepsOrder(s, step, s');
    } else {
      WaitingKeepsOrder(s, step, s');
    }
    hide SendStep, SendsInOrder;
  }

  lemma WaitingKeepsOrder(s: State, step: Step, s': State)
    requires SendsInOrder(s) && step.t in s.threads && SendStep(s, step, s')
    requires !step.CallSend? && !step.HandlerReturns?
    ensures SendsInOrder(s')
  {
    hide QueuePlaced, HandlingPlaced;
  }

  lemma {:induction false} RunKeepsSendsInOrder(run: seq<State>, steps: seq<Step>, i: nat)
    requires IsRun(run, steps) && i < |run|
    ensures SendsInOrder(run[i])
    decreases i
  {
    if i > 0 {
      RunKeepsSendsInOrder(run, steps, i - 1);
      var s, step, s' := run[i - 1], steps[i - 1], run[i - 1 + 1];
      hide LocalStep, PostStep, SendStep, SendsInOrder;
      if LocalStep(s, step, s') {
        LocalStepKeepsOrder(s, step, s');
      } else if PostStep(s, step, s') {
        PostStepKeepsOrder(s, step, s');
      } else {
        SendStepKeepsOrder(s, step, s');
      }
    }
  }

  /** A Send that finds its reply ready has had its handler run to the end exactly once. */
  lemma SendReturnsAfterItsHandler(run: seq<State>, steps: seq<Step>, i: nat)
    requires IsRun(run, steps) && i < |steps| && steps[i].ReadReady?
    requires !run[i + 1].threads[steps[i].t].pc.SendWait?
    ensures var token := run[i].threads[steps[i].t].pc.token;
            token in run[i].runs && run[i].runs[token] == 1
  {
    RunKeepsSendsInOrder(run, steps, i);
    assert Next(run[i], steps[i], run[i + 1]);
  }

  /** No handler runs twice for the same Send, at any point of any run. */
  lemma HandlersRunAtMostOnce(run: seq<State>, steps: seq<Step>, i: nat, token: Token)
    requires IsRun(run, steps) && i < |run| && token in run[i].runs
    ensures run[i].runs[token] <= 1
  {
    RunKeepsSendsInOrder(run, steps, i);
  }
}
