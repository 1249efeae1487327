/** An event built from a mutex, a condition variable and a status flag. */
module EventProtocol {
  type Thread = nat

  /** Where a waiter is. Only a waiter that is notified, that wakes by itself or whose time is
      up leaves its sleep, and it goes on only once it has the mutex again. */
  datatype Pc = Outside | Asleep | Notified | Expired

  /** The counters record the signals given and the waits that returned true. */
  datatype State = State(
    manualReset: bool,
    status: bool,
    pcs: map<Thread, Pc>,
    signals: nat,
    successes: nat)

  /** Everything between taking and releasing the mutex is one step, except that a waiter gives
      the mutex up while it sleeps on the condition variable. */
  datatype Step =
    | Set
    | Reset
    | Enter(t: Thread)           // Wait locks the mutex and tests the status
    | Retest(t: Thread)          // a notified waiter has the mutex again and tests the status
    | WakesByItself(t: Thread)
    | TimeIsUp(t: Thread)
    | GivesUp(t: Thread)         // an expired waiter returns false without looking at the status
    | WaitsOn(t: Thread)         // only the warning time was up: it starts the second wait

  /** The test at the top of the wait loop, with the mutex held. */
  function TestStatus(s: State, t: Thread): State {
    if s.status
    then s.(status := s.manualReset, pcs := s.pcs[t := Outside], successes := s.successes + 1)
    else s.(pcs := s.pcs[t := Asleep])
  }

  function Broadcast(pcs: map<Thread, Pc>): map<Thread, Pc> {
    map t | t in pcs :: if pcs[t] == Asleep then Notified else pcs[t]
  }

  ghost predicate Next(s: State, step: Step, s': State) {
    match step
    case Set => s' == s.(status := true, pcs := Broadcast(s.pcs), signals := s.signals + 1)
    case Reset => s' == s.(status := false)
    case Enter(t) => t in s.pcs && s.pcs[t] == Outside && s' == TestStatus(s, t)
    case Retest(t) => t in s.pcs && s.pcs[t] == Notified && s' == TestStatus(s, t)
    case WakesByItself(t) => t in s.pcs && s.pcs[t] == Asleep && s' == s.(pcs := s.pcs[t := Notified])
    case TimeIsUp(t) => t in s.pcs && s.pcs[t] == Asleep && s' == s.(pcs := s.pcs[t := Expired])
    case GivesUp(t) => t in s.pcs && s.pcs[t] == Expired && s' == s.(pcs := s.pcs[t := Outside])
    case WaitsOn(t) => t in s.pcs && s.pcs[t] == Expired && s' == TestStatus(s, t)
  }

  ghost predicate Initial(s: State) {
    s.successes == 0 && s.signals == (if s.status then 1 else 0) && forall t :: t in s.pcs ==> s.pcs[t] == Outside
  }

  ghost predicate IsRun(run: seq<State>, steps: seq<Step>) {
    |run| == |steps| + 1 && Initial(run[0])
    && forall i :: 0 <= i < |steps| ==> Next(run[i], steps[i], run[i + 1])
  }

  ghost predicate Invariant(s: State) {
    && (s.status ==> forall t :: t in s.pcs ==> s.pcs[t] != Asleep)
    && (!s.manualReset ==> s.successes + (if s.status then 1 else 0) <= s.signals)
    && (s.successes > 0 || s.status ==> s.signals > 0)
  }

  lemma {:induction false} RunKeepsInvariant(run: seq<State>, steps: seq<Step>, i: nat)
    requires IsRun(run, steps) && i < |run|
    ensures Invariant(run[i]) && run[i].manualReset == run[0].manualReset
    decreases i
  {
    if i > 0 {
      RunKeepsInvariant(run, steps, i - 1);
      assert Next(run[i - 1], steps[i - 1], run[i - 1 + 1]);
    }
  }

  /** No signal is slept through: while the event is signalled, no waiter is asleep, and the
      next test by any of them succeeds. */
  lemma NoSleeperWhileSignalled(run: seq<State>, steps: seq<Step>, i: nat, t: Thread)
    requires IsRun(run, steps) && i < |run| && t in run[i].pcs && run[i].status
    ensures run[i].pcs[t] != Asleep
    ensures TestStatus(run[i], t).successes == run[i].successes + 1
  {
    RunKeepsInvariant(run, steps, i);
  }

  /** An auto-reset event lets at most one waiter through per signal. */
  lemma OneWaiterPerSignal(run: seq<State>, steps: seq<Step>, i: nat)
    requires IsRun(run, steps) && i < |run| && !run[0].manualReset
    ensures run[i].successes <= run[i].signals
    ensures run[i].successes == run[i].signals ==> !run[i].status
  {
    RunKeepsInvariant(run, steps, i);
  }

  /** A manual-reset event stays signalled from a Set until the next Reset, and whoever tests it
      gets through and leaves it so. */
  lemma {:induction false} StaysSetUntilReset(run: seq<State>, steps: seq<Step>, i: nat, j: nat)
    requires IsRun(run, steps) && run[0].manualReset && i < j < |run| && steps[i].Set?
    requires forall k :: i < k < j ==> !steps[k].Reset?
    ensures run[j].status
    ensures forall t :: t in run[j].pcs ==>
              var tested := TestStatus(run[j], t);
              tested.status && tested.pcs[t] == Outside && tested.successes == run[j].successes + 1
    decreases j
  {
    assert Next(run[j - 1], steps[j - 1], run[j - 1 + 1]);
    RunKeepsInvariant(run, steps, j - 1);
    if i < j - 1 {
      StaysSetUntilReset(run, steps, i, j - 1);
    }
  }

  /** From a Reset until the next Set the event is not signalled, and no wait succeeds; who tests
      it goes to sleep. */
  lemma {:induction false} NoSuccessAfterReset(run: seq<State>, steps: seq<Step>, i: nat, j: nat)
    requires IsRun(run, steps) && i < j < |run| && steps[i].Reset?
    requires forall k :: i < k < j ==> !steps[k].Set?
    ensures !run[j].status && run[j].successes == run[i].successes
    ensures forall t :: t in run[j].pcs ==> TestStatus(run[j], t).pcs[t] == Asleep
    decreases j
  {
    assert Next(run[j - 1], steps[j - 1], run[j - 1 + 1]);
    if i < j - 1 {
      NoSuccessAfterReset(run, steps, i, j - 1);
    }
  }

  /** Whoever gets through an auto-reset event leaves it not signalled, so that nobody else gets
      through before the next Set. */
  lemma {:induction false} NoSuccessAfterSuccess(run: seq<State>, steps: seq<Step>, i: nat, j: nat)
    requires IsRun(run, steps) && !run[0].manualReset && i < j < |run|
    requires run[i + 1].successes > run[i].successes && forall k :: i < k < j ==> !steps[k].Set?
    ensures !run[j].status && run[j].successes == run[i].successes + 1
    decreases j
  {
    assert Next(run[j - 1], steps[j - 1], run[j - 1 + 1]);
    RunKeepsInvariant(run, steps, j - 1);
    if i < j - 1 {
      NoSuccessAfterSuccess(run, steps, i, j - 1);
    }
  }

  /** The step with which a waiter goes on, once it has the mutex. */
  function OwnStep(pc: Pc, t: Thread): Step {
    match pc
    case Outside => Enter(t)
    case Asleep => WakesByItself(t)
    case Notified => Retest(t)
    case Expired => GivesUp(t)
  }

  /** At any point of any run while the event is signalled, every waiter that is let in gets out: with
      success, unless its time was up before. Only those that sleep wait, and a Set wakes them all. */
  lemma WaitersGetOut(run: seq<State>, steps: seq<Step>, i: nat, t: Thread) returns (s': State)
    requires IsRun(run, steps) && i < |run| && t in run[i].pcs && run[i].status
    ensures Next(run[i], OwnStep(run[i].pcs[t], t), s') && s'.pcs[t] == Outside
    ensures run[i].pcs[t] != Expired ==> s'.successes == run[i].successes + 1
  {
    RunKeepsInvariant(run, steps, i);
    var s := run[i];
    s' := if s.pcs[t] == Expired then s.(pcs := s.pcs[t := Outside]) else TestStatus(s, t);
  }

  /** A waiter whose time is up gets out without success, whether or not the event is signalled by
      then; or, after the first of two limits, tests it again. */
  lemma TimeLetsOut(s: State, t: Thread) returns (up: State, out: State)
    requires t in s.pcs && s.pcs[t] == Asleep
    ensures Next(s, TimeIsUp(t), up) && up.pcs == s.pcs[t := Expired] && Next(up, WaitsOn(t), TestStatus(up, t))
    ensures Next(up, GivesUp(t), out) && out.pcs[t] == Outside && out.successes == s.successes
    ensures forall later: State | t in later.pcs && later.pcs[t] == Expired ::
              Next(later, GivesUp(t), later.(pcs := later.pcs[t := Outside]))
  {
    up := s.(pcs := s.pcs[t := Expired]);
    out := up.(pcs := up.pcs[t := Outside]);
  }

  lemma SetWakesAll(s: State) returns (s': State)
    ensures Next(s, Set, s') && s'.status && s'.pcs.Keys == s.pcs.Keys
    ensures forall t :: t in s.pcs ==> s'.pcs[t] == if s.pcs[t] == Asleep then Notified else s.pcs[t]
  {
    s' := s.(status := true, pcs := Broadcast(s.pcs), signals := s.signals + 1);
  }
}
