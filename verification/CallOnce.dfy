/** One-time initialisation, with a lock that the winner initialises first. */
module CallOnce {
  import opened Options

  type Thread = nat

  /** Where a caller is: the names are what it is about to do. Callers race with a
      compare-exchange, spin until the winner has initialised the lock, and then queue on that
      lock. Every access to shared memory is a step of its own. */
  datatype Pc =
    | TestLoop
    | ReadSwitch
    | CompareExchange
    | InitializeLock
    | EnterFirst
    | StoreTwo
    | CallFunc
    | InFunc
    | StoreThree
    | LeaveFirst
    | EnterAsWaiter
    | LeaveAsWaiter
    | Returned

  datatype State = State(
    status: nat,
    lockInitialized: bool,
    holder: Option<Thread>,
    started: nat,
    finished: nat,
    pcs: map<Thread, Pc>)

  /** The next step of thread t; a thread that wants a held lock has none. */
  ghost predicate Next(s: State, t: Thread, s': State) {
    t in s.pcs &&
    match s.pcs[t]
    case TestLoop => s' == Goto(s, t, if s.status < 3 then ReadSwitch else Returned)
    case ReadSwitch =>
      s' == Goto(s, t, if s.status == 0 then CompareExchange else if s.status == 2 then EnterAsWaiter else TestLoop)
    case CompareExchange =>
      s' == if s.status == 0 then Goto(s, t, InitializeLock).(status := 1) else Goto(s, t, TestLoop)
    case InitializeLock => s' == Goto(s, t, EnterFirst).(lockInitialized := true)
    case EnterFirst => s.holder.None? && s' == Goto(s, t, StoreTwo).(holder := Some(t))
    case StoreTwo => s' == Goto(s, t, CallFunc).(status := 2)
    case CallFunc => s' == Goto(s, t, InFunc).(started := s.started + 1)
    case InFunc => s' == Goto(s, t, StoreThree).(finished := s.finished + 1)
    case StoreThree => s' == Goto(s, t, LeaveFirst).(status := 3)
    case LeaveFirst => s' == Goto(s, t, Returned).(holder := None)
    case EnterAsWaiter => s.holder.None? && s' == Goto(s, t, LeaveAsWaiter).(holder := Some(t))
    case LeaveAsWaiter => s' == Goto(s, t, TestLoop).(holder := None)
    case Returned => false
  }

  function Goto(s: State, t: Thread, pc: Pc): State {
    s.(pcs := s.pcs[t := pc])
  }

  ghost predicate Initial(s: State) {
    s.status == 0 && !s.lockInitialized && s.holder == None && s.started == 0 && s.finished == 0
    && forall t :: t in s.pcs ==> s.pcs[t] == TestLoop
  }

  ghost predicate IsRun(run: seq<State>, who: seq<Thread>) {
    |run| == |who| + 1 && Initial(run[0])
    && forall i :: 0 <= i < |who| ==> Next(run[i], who[i], run[i + 1])
  }

  // ---- The invariant ----

  /** The caller that won the compare-exchange, until it leaves the lock. */
  predicate IsWinner(pc: Pc) {
    pc in {InitializeLock, EnterFirst, StoreTwo, CallFunc, InFunc, StoreThree, LeaveFirst}
  }

  predicate HoldsLock(pc: Pc) {
    pc in {StoreTwo, CallFunc, InFunc, StoreThree, LeaveFirst, LeaveAsWaiter}
  }

  predicate TouchesLock(pc: Pc) {
    HoldsLock(pc) || pc in {EnterFirst, EnterAsWaiter}
  }

  /** The winner's position determines all shared variables but the holder. */
  predicate WinnerAgrees(pc: Pc, s: State) {
    match pc
    case InitializeLock => s.status == 1 && !s.lockInitialized && s.started == 0 && s.finished == 0
    case EnterFirst => s.status == 1 && s.lockInitialized && s.started == 0 && s.finished == 0
    case StoreTwo => s.status == 1 && s.lockInitialized && s.started == 0 && s.finished == 0
    case CallFunc => s.status == 2 && s.lockInitialized && s.started == 0 && s.finished == 0
    case InFunc => s.status == 2 && s.lockInitialized && s.started == 1 && s.finished == 0
    case StoreThree => s.status == 2 && s.lockInitialized && s.started == 1 && s.finished == 1
    case LeaveFirst => s.status == 3 && s.lockInitialized && s.started == 1 && s.finished == 1
    case _ => true
  }

  predicate ThreadAgrees(s: State, t: Thread)
    requires t in s.pcs
  {
    && WinnerAgrees(s.pcs[t], s)
    && (s.pcs[t] in {EnterAsWaiter, LeaveAsWaiter} ==> s.status >= 2)
    && (s.pcs[t] == Returned ==> s.status == 3)
    && (HoldsLock(s.pcs[t]) ==> s.holder == Some(t))
  }

  /** A lock that is held is held by a caller inside it. */
  predicate HolderIsInside(s: State) {
    s.holder.Some? ==> s.holder.value in s.pcs && HoldsLock(s.pcs[s.holder.value])
  }

  predicate SharedAgrees(s: State) {
    && s.status <= 3
    && (s.status == 0 ==> !s.lockInitialized && s.started == 0 && s.finished == 0)
    && (s.status >= 2 ==> s.lockInitialized)
    && (s.status == 3 ==> s.started == 1 && s.finished == 1)
  }

  ghost predicate Invariant(s: State) {
    && SharedAgrees(s) && HolderIsInside(s)
    && (s.status in {1, 2} ==> exists t :: t in s.pcs && IsWinner(s.pcs[t]))
    && (forall t :: t in s.pcs ==> ThreadAgrees(s, t))
    && (forall t, u :: t in s.pcs && u in s.pcs && IsWinner(s.pcs[t]) && IsWinner(s.pcs[u]) ==> t == u)
  }

  lemma OwnThreadAgrees(s: State, t: Thread, s': State)
    requires SharedAgrees(s) && t in s.pcs && ThreadAgrees(s, t) && Next(s, t, s')
    ensures t in s'.pcs && ThreadAgrees(s', t)
  {
  }

  lemma HolderStaysInside(s: State, t: Thread, s': State)
    requires t in s.pcs && ThreadAgrees(s, t) && HolderIsInside(s) && Next(s, t, s')
    ensures HolderIsInside(s')
  {
  }

  lemma OtherThreadAgrees(s: State, t: Thread, s': State, u: Thread)
    requires SharedAgrees(s) && t in s.pcs && ThreadAgrees(s, t) && Next(s, t, s')
    requires u in s.pcs && u != t && ThreadAgrees(s, u) && !(IsWinner(s.pcs[t]) && IsWinner(s.pcs[u]))
    ensures u in s'.pcs && s'.pcs[u] == s.pcs[u] && ThreadAgrees(s', u)
  {
  }

  lemma SharedStateAgrees(s: State, t: Thread, s': State)
    requires SharedAgrees(s) && t in s.pcs && ThreadAgrees(s, t) && Next(s, t, s')
    ensures SharedAgrees(s') && s'.pcs == s.pcs[t := s'.pcs[t]]
    ensures s'.status == s.status || IsWinner(s'.pcs[t])
  {
  }

  lemma StepKeepsInvariant(s: State, t: Thread, s': State)
    requires Invariant(s) && Next(s, t, s')
    ensures Invariant(s')
  {
    assert ThreadAgrees(s, t);
    SharedStateAgrees(s, t, s');
    OwnThreadAgrees(s, t, s');
    OneWinner(s, t, s');
    HolderStaysInside(s, t, s');
    hide Next, IsWinner, SharedAgrees, HolderIsInside;
    forall u | u in s'.pcs
      ensures ThreadAgrees(s', u)
    {
      if u != t {
        OtherThreadAgrees(s, t, s', u);
      }
    }
    hide ThreadAgrees;
  }

  /** There is a winner while the status is in between, and never a second one. */
  lemma OneWinner(s: State, t: Thread, s': State)
    requires Invariant(s) && Next(s, t, s')
    ensures s'.status in {1, 2} ==> exists u :: u in s'.pcs && IsWinner(s'.pcs[u])
    ensures forall u, v :: u in s'.pcs && v in s'.pcs && IsWinner(s'.pcs[u]) && IsWinner(s'.pcs[v]) ==> u == v
  {
    assert ThreadAgrees(s, t);
    SharedStateAgrees(s, t, s');
    assert IsWinner(s'.pcs[t]) && !IsWinner(s.pcs[t]) ==> s.status == 0;
    assert IsWinner(s.pcs[t]) && !IsWinner(s'.pcs[t]) ==> s'.status == 3;
    forall u | u in s.pcs
      ensures s.status == 0 ==> !IsWinner(s.pcs[u])
    {
      assert ThreadAgrees(s, u);
    }
    hide Next, IsWinner, SharedAgrees, ThreadAgrees;
    if s'.status in {1, 2} && !IsWinner(s'.pcs[t]) {
      var w :| w in s.pcs && IsWinner(s.pcs[w]);
      assert IsWinner(s'.pcs[w]);
    }
  }

  lemma {:induction false} RunKeepsInvariant(run: seq<State>, who: seq<Thread>, i: nat)
    requires IsRun(run, who) && i < |run|
    ensures Invariant(run[i])
    decreases i
  {
    if i > 0 {
      RunKeepsInvariant(run, who, i - 1);
      StepKeepsInvariant(run[i - 1], who[i - 1], run[i - 1 + 1]);
    }
  }

  /** At any point of any interleaving: the function has started at most once, no thread is
      at or inside the lock before it is initialised, at most one thread is inside, and a
      caller that has returned finds the function finished. */
  lemma CallOnceIsSafe(run: seq<State>, who: seq<Thread>, i: nat)
    requires IsRun(run, who) && i < |run|
    ensures run[i].finished <= run[i].started <= 1
    ensures forall t :: t in run[i].pcs && TouchesLock(run[i].pcs[t]) ==> run[i].lockInitialized
    ensures forall t, u | t in run[i].pcs && u in run[i].pcs && HoldsLock(run[i].pcs[t]) && HoldsLock(run[i].pcs[u]) ::
              t == u
    ensures forall t :: t in run[i].pcs && run[i].pcs[t] == Returned ==> run[i].finished == 1
  {
    RunKeepsInvariant(run, who, i);
    var s := run[i];
    forall t | t in s.pcs
      ensures ThreadAgrees(s, t)
    {
    }
    if s.status in {1, 2} {
      var w :| w in s.pcs && IsWinner(s.pcs[w]);
      assert ThreadAgrees(s, w);
    }
  }

  // ---- Progress ----

  ghost predicate CanStep(s: State, t: Thread) {
    exists s' :: Next(s, t, s')
  }

  predicate WantsLock(pc: Pc) {
    pc in {EnterFirst, EnterAsWaiter}
  }

  /** Only a caller that wants a lock which is held has to wait. */
  lemma CanStepExactly(s: State, t: Thread)
    requires t in s.pcs
    ensures CanStep(s, t) <==> s.pcs[t] != Returned && (WantsLock(s.pcs[t]) ==> s.holder.None?)
  {
    match s.pcs[t]
    case TestLoop => assert Next(s, t, Goto(s, t, if s.status < 3 then ReadSwitch else Returned));
    case ReadSwitch =>
      assert Next(s, t, Goto(s, t, if s.status == 0 then CompareExchange
                                   else if s.status == 2 then EnterAsWaiter else TestLoop));
    case CompareExchange =>
      assert Next(s, t, if s.status == 0 then Goto(s, t, InitializeLock).(status := 1) else Goto(s, t, TestLoop));
    case InitializeLock => assert Next(s, t, Goto(s, t, EnterFirst).(lockInitialized := true));
    case EnterFirst => assert s.holder.None? ==> Next(s, t, Goto(s, t, StoreTwo).(holder := Some(t)));
    case StoreTwo => assert Next(s, t, Goto(s, t, CallFunc).(status := 2));
    case CallFunc => assert Next(s, t, Goto(s, t, InFunc).(started := s.started + 1));
    case InFunc => assert Next(s, t, Goto(s, t, StoreThree).(finished := s.finished + 1));
    case StoreThree => assert Next(s, t, Goto(s, t, LeaveFirst).(status := 3));
    case LeaveFirst => assert Next(s, t, Goto(s, t, Returned).(holder := None));
    case EnterAsWaiter => assert s.holder.None? ==> Next(s, t, Goto(s, t, LeaveAsWaiter).(holder := Some(t)));
    case LeaveAsWaiter => assert Next(s, t, Goto(s, t, TestLoop).(holder := None));
    case Returned =>
  }

  ghost predicate AllReturned(s: State) {
    forall t :: t in s.pcs ==> s.pcs[t] == Returned
  }

  /** At any point of any interleaving a lock that is held is held by a caller inside it, and as
      long as some caller has not returned, some caller can take a step. */
  lemma NoDeadlock(run: seq<State>, who: seq<Thread>, i: nat)
    requires IsRun(run, who) && i < |run|
    ensures HolderIsInside(run[i])
    ensures AllReturned(run[i]) || exists t :: t in run[i].pcs && CanStep(run[i], t)
  {
    RunKeepsInvariant(run, who, i);
    var s := run[i];
    hide Next, CanStep;
    if !AllReturned(s) {
      var t :| t in s.pcs && s.pcs[t] != Returned;
      var mover := if s.holder.Some? then s.holder.value else t;
      CanStepExactly(s, mover);
    }
  }

  /** A continuation: no more than a run that need not begin at the start. */
  ghost predicate IsPath(run: seq<State>, who: seq<Thread>) {
    |run| == |who| + 1 && forall i :: 0 <= i < |who| ==> Next(run[i], who[i], run[i + 1])
  }

  ghost predicate Leads(s: State, run: seq<State>, who: seq<Thread>, s': State) {
    IsPath(run, who) && run[0] == s && run[|run| - 1] == s'
  }

  lemma StepLeads(s: State, t: Thread, next: State, run: seq<State>, who: seq<Thread>, s': State)
    requires Next(s, t, next) && Leads(next, run, who, s')
    ensures Leads(s, [s] + run, [t] + who, s')
  {
    hide Next;
  }

  lemma PathsLead(s: State, a: seq<State>, who: seq<Thread>, m: State, b: seq<State>, more: seq<Thread>, s': State)
    requires Leads(s, a, who, m) && Leads(m, b, more, s')
    ensures Leads(s, a + b[1..], who + more, s')
  {
    hide Next;
    forall i | 0 <= i < |who + more|
      ensures Next((a + b[1..])[i], (who + more)[i], (a + b[1..])[i + 1])
    {
      if i >= |who| {
        assert (a + b[1..])[i] == b[i - |who|] && (a + b[1..])[i + 1] == b[i - |who| + 1];
      }
    }
  }

  /** Nobody initialises any more, and nobody is inside the lock. */
  ghost predicate Settled(s: State) {
    Invariant(s) && s.status == 3 && s.holder.None? && forall t :: t in s.pcs ==> !IsWinner(s.pcs[t])
  }

  /** How far a caller is from returning, when the function has finished. */
  function Left(pc: Pc): nat {
    match pc
    case EnterAsWaiter => 4
    case LeaveAsWaiter => 3
    case Returned => 0
    case TestLoop => 1
    case _ => 2
  }

  /** A caller alone gets to its return once the function has finished. */
  lemma {:induction false} ReturnsAlone(s: State, t: Thread) returns (run: seq<State>, who: seq<Thread>, s': State)
    requires Invariant(s) && s.status == 3 && t in s.pcs && (s.holder.Some? ==> s.holder == Some(t))
    requires forall u :: u in s.pcs ==> !IsWinner(s.pcs[u])
    ensures Leads(s, run, who, s') && Settled(s') && s'.pcs == s.pcs[t := Returned]
    decreases Left(s.pcs[t])
  {
    assert ThreadAgrees(s, t);
    if s.pcs[t] == Returned {
      run, who, s' := [s], [], s;
      assert s.pcs == s.pcs[t := Returned];
    } else {
      CanStepExactly(s, t);
      var next :| Next(s, t, next);
      StepKeepsInvariant(s, t, next);
      assert next.pcs == s.pcs[t := next.pcs[t]];
      run, who, s' := ReturnsAlone(next, t);
      StepLeads(s, t, next, run, who, s');
      run, who := [s] + run, [t] + who;
    }
  }

  ghost function Unreturned(s: State): set<Thread> {
    set t | t in s.pcs && s.pcs[t] != Returned
  }

  lemma {:induction false} SettledReturn(s: State) returns (run: seq<State>, who: seq<Thread>, s': State)
    requires Settled(s)
    ensures Leads(s, run, who, s') && AllReturned(s')
    decreases |Unreturned(s)|
  {
    if AllReturned(s) {
      run, who, s' := [s], [], s;
    } else {
      var t :| t in s.pcs && s.pcs[t] != Returned;
      var a, first, m := ReturnsAlone(s, t);
      assert Unreturned(m) == Unreturned(s) - {t};
      var b, more;
      b, more, s' := SettledReturn(m);
      PathsLead(s, a, first, m, b, more, s');
      run, who := a + b[1..], first + more;
    }
  }

  /** How far the winner is from leaving the lock. */
  function WinnerLeft(pc: Pc): nat {
    match pc
    case InitializeLock => 7
    case EnterFirst => 6
    case StoreTwo => 5
    case CallFunc => 4
    case InFunc => 3
    case StoreThree => 2
    case LeaveFirst => 1
    case _ => 0
  }

  lemma {:induction false} WinnerSettles(s: State, t: Thread) returns (run: seq<State>, who: seq<Thread>, s': State)
    requires Invariant(s) && t in s.pcs && IsWinner(s.pcs[t])
    ensures Leads(s, run, who, s') && Settled(s')
    decreases WinnerLeft(s.pcs[t])
  {
    assert ThreadAgrees(s, t);
    WinnerIsNotKeptOut(s, t);
    CanStepExactly(s, t);
    var next :| Next(s, t, next);
    StepKeepsInvariant(s, t, next);
    if s.pcs[t] == LeaveFirst {
      run, who, s' := [next], [], next;
    } else {
      run, who, s' := WinnerSettles(next, t);
    }
    StepLeads(s, t, next, run, who, s');
    run, who := [s] + run, [t] + who;
  }

  lemma WinnerIsNotKeptOut(s: State, t: Thread)
    requires Invariant(s) && t in s.pcs
    ensures s.pcs[t] == EnterFirst ==> s.holder.None?
  {
    assert ThreadAgrees(s, t);
  }

  function CallerLeft(pc: Pc): nat {
    match pc
    case TestLoop => 3
    case ReadSwitch => 2
    case CompareExchange => 1
    case _ => 0
  }

  /** Before anyone has won, any caller alone gets to win. */
  lemma {:induction false} CallerWins(s: State, t: Thread) returns (run: seq<State>, who: seq<Thread>, s': State)
    requires Invariant(s) && s.status == 0 && t in s.pcs
    ensures Leads(s, run, who, s') && Invariant(s') && t in s'.pcs && IsWinner(s'.pcs[t])
    decreases CallerLeft(s.pcs[t])
  {
    assert ThreadAgrees(s, t);
    CanStepExactly(s, t);
    var next :| Next(s, t, next);
    StepKeepsInvariant(s, t, next);
    if s.pcs[t] == CompareExchange {
      run, who, s' := [next], [], next;
    } else {
      run, who, s' := CallerWins(next, t);
    }
    StepLeads(s, t, next, run, who, s');
    run, who := [s] + run, [t] + who;
  }

  /** From any state that keeps the invariant the function can be run to its end. */
  lemma CanSettle(s: State, t: Thread) returns (run: seq<State>, who: seq<Thread>, s': State)
    requires Invariant(s) && t in s.pcs
    ensures Leads(s, run, who, s') && Settled(s')
  {
    if w :| w in s.pcs && IsWinner(s.pcs[w]) {
      run, who, s' := WinnerSettles(s, w);
    } else if s.status == 0 {
      var a, first, m := CallerWins(s, t);
      var b, more;
      b, more, s' := WinnerSettles(m, t);
      PathsLead(s, a, first, m, b, more, s');
      run, who := a + b[1..], first + more;
    } else {
      var u := if s.holder.Some? then s.holder.value else t;
      run, who, s' := ReturnsAlone(s, u);
    }
  }

  /** From any point of any interleaving the callers can be run on until all of them have
      returned. */
  lemma AllCanReturn(run: seq<State>, who: seq<Thread>, i: nat)
    returns (path: seq<State>, more: seq<Thread>, s': State)
    requires IsRun(run, who) && i < |run|
    ensures Leads(run[i], path, more, s') && AllReturned(s')
  {
    RunKeepsInvariant(run, who, i);
    var s := run[i];
    if AllReturned(s) {
      return [s], [], s;
    }
    var t :| t in s.pcs && s.pcs[t] != Returned;
    var a, first, m := CanSettle(s, t);
    var b, last;
    b, last, s' := SettledReturn(m);
    PathsLead(s, a, first, m, b, last, s');
    path, more := a + b[1..], first + last;
  }

  /** No waiter gets into the lock while the function runs, so it returns only afterwards. */
  lemma NobodyPassesARunningFunction(run: seq<State>, who: seq<Thread>, i: nat, t: Thread)
    requires IsRun(run, who) && i < |who| && t in run[i].pcs && run[i].pcs[t] == InFunc && who[i] != t
    ensures run[i + 1].holder == Some(t) && run[i + 1].pcs[who[i]] !in {LeaveAsWaiter, Returned}
  {
    RunKeepsInvariant(run, who, i);
    RunKeepsInvariant(run, who, i + 1);
    assert Next(run[i], who[i], run[i + 1]);
  }
}
