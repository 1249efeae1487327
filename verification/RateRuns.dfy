/** Whole runs of a rate counter: when its sum overflows, and where its window starts. */
module RateRuns {
  import opened Options
  import opened RateStatisticsModel

  /** What the samples of a log add up to from one time to before another. */
  function Sum(log: seq<Sample>, first: int, last: int): nat {
    Total(log, first, last).sum
  }

  /** The operation is a sample that is accepted and brings the samples then in the window, itself
      among them, to the limit. */
  predicate BringsToLimit(w: Window, log: seq<Sample>, op: Op)
    requires WellFormed(w) && NonNegativeTime(op)
  {
    && op.UpdateOp? && op.now >= w.oldestTime
    && var start := AfterUpdate(w, op.count, op.now).oldestTime;
       Sum(log + [Sample(op.count, op.now)], start, start + w.maxWindow) >= 0x7FFF_FFFF_FFFF_FFFF
  }

  ghost predicate ReachesLimit(maxWindow: nat, ops: seq<Op>, i: nat)
    requires maxWindow > 0 && AllNonNegative(ops) && i < |ops|
  {
    BringsToLimit(RunWindow(Fresh(maxWindow), ops[..i]), RunLog(Fresh(maxWindow), ops[..i]), ops[i])
  }

  ghost predicate ReachesLimitSinceReset(maxWindow: nat, ops: seq<Op>)
    requires maxWindow > 0 && AllNonNegative(ops)
  {
    exists i :: 0 <= i < |ops| && ReachesLimit(maxWindow, ops, i) && NoResetFrom(ops, i)
  }

  predicate NoResetFrom(ops: seq<Op>, i: nat) {
    forall j :: i <= j < |ops| ==> !ops[j].ResetOp?
  }

  lemma AddedOverflows(p: Window, log: seq<Sample>, x: Sample, u: Window)
    requires Agrees(p, log) && Agrees(u, log + [x]) && p.oldestTime <= x.time < p.oldestTime + p.maxWindow
    requires u == Added(p, x.count, x.time - p.oldestTime)
    ensures u.overflow <==>
              p.overflow || Sum(log + [x], u.oldestTime, u.oldestTime + u.maxWindow) >= 0x7FFF_FFFF_FFFF_FFFF
  {
    TotalAppend(log, x, p.oldestTime, p.oldestTime + p.maxWindow);
    hide Total, BucketsAgree;
  }

  lemma UpdateOverflows(w: Window, log: seq<Sample>, count: nat, now: int)
    requires Agrees(w, log) && 0 <= now && w.oldestTime <= now
    ensures var u := AfterUpdate(w, count, now);
            u.overflow <==> w.overflow || Sum(log + [Sample(count, now)], u.oldestTime, u.oldestTime + u.maxWindow)
                                          >= 0x7FFF_FFFF_FFFF_FFFF
  {
    var p := Positioned(w, now);
    assert WellFormed(w);
    PositionedAgrees(w, log, now);
    UpdateAgrees(w, log, count, now);
    assert p.overflow == w.overflow && p.maxWindow == w.maxWindow by {
      hide DropBuckets;
    }
    hide Agrees, Positioned, Added, Sum;
    AddedOverflows(p, log, Sample(count, now), AfterUpdate(w, count, now));
  }

  lemma StepOverflows(w: Window, log: seq<Sample>, op: Op)
    requires Agrees(w, log) && NonNegativeTime(op)
    ensures Apply(w, op).0.overflow <==> !op.ResetOp? && (w.overflow || BringsToLimit(w, log, op))
  {
    assert WellFormed(w);
    hide Agrees, EraseTo, AfterUpdate, Sum, WellFormed, AfterErase, AfterSetWindowSize;
    if op.UpdateOp? && op.now >= w.oldestTime {
      UpdateOverflows(w, log, op.count, op.now);
      UpdateApplied(w, op.count, op.now);
    } else if op.UpdateOp? {
      IgnoredUpdate(w, op.count, op.now);
    } else {
      OthersKeepOverflow(w, op);
    }
    hide Apply;
  }

  lemma IgnoredUpdate(w: Window, count: nat, now: int)
    requires WellFormed(w) && 0 <= now < w.oldestTime
    ensures AfterUpdate(w, count, now) == w
  {
  }

  lemma UpdateApplied(w: Window, count: nat, now: int)
    requires WellFormed(w) && 0 <= now
    ensures Apply(w, UpdateOp(count, now)).0 == AfterUpdate(w, count, now)
    ensures AfterUpdate(w, count, now).maxWindow == w.maxWindow
  {
  }

  lemma OthersKeepOverflow(w: Window, op: Op)
    requires WellFormed(w) && NonNegativeTime(op) && !op.UpdateOp?
    ensures Apply(w, op).0.overflow == (w.overflow && !op.ResetOp?)
  {
    hide DropBuckets;
  }

  lemma LimitStep(maxWindow: nat, ops: seq<Op>)
    requires maxWindow > 0 && AllNonNegative(ops) && ops != []
    ensures var n := |ops| - 1;
            ReachesLimitSinceReset(maxWindow, ops) <==>
              !ops[n].ResetOp? && (ReachesLimit(maxWindow, ops, n) || ReachesLimitSinceReset(maxWindow, ops[..n]))
  {
    var n := |ops| - 1;
    hide ReachesLimit;
    forall i | 0 <= i < n
      ensures ReachesLimit(maxWindow, ops, i) <==> ReachesLimit(maxWindow, ops[..n], i)
      ensures NoResetFrom(ops, i) <==> NoResetFrom(ops[..n], i) && !ops[n].ResetOp?
    {
      EarlierLimit(maxWindow, ops, i);
    }
    assert NoResetFrom(ops, n) <==> !ops[n].ResetOp?;
    hide NoResetFrom;
  }

  lemma EarlierLimit(maxWindow: nat, ops: seq<Op>, i: nat)
    requires maxWindow > 0 && AllNonNegative(ops) && i < |ops| - 1
    ensures var n := |ops| - 1;
            AllNonNegative(ops[..n]) && (ReachesLimit(maxWindow, ops, i) <==> ReachesLimit(maxWindow, ops[..n], i))
            && (NoResetFrom(ops, i) <==> NoResetFrom(ops[..n], i) && !ops[n].ResetOp?)
  {
    hide RunWindow, RunLog, BringsToLimit;
    var n := |ops| - 1;
    assert ops[..n][..i] == ops[..i];
    assert forall j :: i <= j < n ==> ops[..n][j] == ops[j];
  }

  /** For all runs: a counter has overflowed if and only if, since the last Reset, a sample has been
      accepted that brought the samples then in the window to 2^63 - 1. */
  lemma {:induction false} OverflowsExactly(maxWindow: nat, ops: seq<Op>)
    requires maxWindow > 0 && AllNonNegative(ops)
    ensures RunWindow(Fresh(maxWindow), ops).overflow <==> ReachesLimitSinceReset(maxWindow, ops)
    decreases |ops|
  {
    if ops != [] {
      LastStepOverflows(maxWindow, ops);
      LimitStep(maxWindow, ops);
      hide RunWindow, ReachesLimitSinceReset, ReachesLimit;
      OverflowsExactly(maxWindow, ops[..|ops| - 1]);
    }
  }

  lemma LastStepOverflows(maxWindow: nat, ops: seq<Op>)
    requires maxWindow > 0 && AllNonNegative(ops) && ops != []
    ensures var n := |ops| - 1;
            AllNonNegative(ops[..n])
            && (RunWindow(Fresh(maxWindow), ops).overflow <==>
                  !ops[n].ResetOp?
                  && (RunWindow(Fresh(maxWindow), ops[..n]).overflow || ReachesLimit(maxWindow, ops, n)))
  {
    assert WellFormed(Fresh(maxWindow));
    hide Apply, BringsToLimit, Fresh, RunLog, Agrees, WellFormed;
    var n := |ops| - 1;
    RunAgrees(maxWindow, ops[..n]);
    StepOverflows(RunWindow(Fresh(maxWindow), ops[..n]), RunLog(Fresh(maxWindow), ops[..n]), ops[n]);
  }

  // ---- A sum that never reaches the limit ----

  function SumOfAll(log: seq<Sample>): nat {
    if log == [] then 0 else SumOfAll(log[..|log| - 1]) + log[|log| - 1].count
  }

  lemma {:induction false} SumOfSome(log: seq<Sample>, first: int, last: int)
    ensures Sum(log, first, last) <= SumOfAll(log)
  {
    if log != [] {
      SumOfSome(log[..|log| - 1], first, last);
    }
  }

  lemma {:induction false} LogGrows(maxWindow: nat, ops: seq<Op>, i: nat)
    requires maxWindow > 0 && AllNonNegative(ops) && i <= |ops| && NoResetFrom(ops, i)
    ensures SumOfAll(RunLog(Fresh(maxWindow), ops[..i])) <= SumOfAll(RunLog(Fresh(maxWindow), ops))
    decreases |ops|
  {
    hide RunWindow, RunLog, SumOfAll;
    var n := |ops| - 1;
    if i == |ops| {
      assert ops[..i] == ops;
    } else {
      LastLogGrows(maxWindow, ops);
      LogGrows(maxWindow, ops[..n], i);
      assert ops[..n][..i] == ops[..i];
    }
  }

  lemma LastLogGrows(maxWindow: nat, ops: seq<Op>)
    requires maxWindow > 0 && AllNonNegative(ops) && ops != [] && !ops[|ops| - 1].ResetOp?
    ensures AllNonNegative(ops[..|ops| - 1])
    ensures SumOfAll(RunLog(Fresh(maxWindow), ops[..|ops| - 1])) <= SumOfAll(RunLog(Fresh(maxWindow), ops))
  {
    hide RunWindow;
    var n, f := |ops| - 1, Fresh(maxWindow);
    LoggedGrows(RunWindow(f, ops[..n]), RunLog(f, ops[..n]), ops[n]);
    hide SumOfAll, Logged;
  }

  lemma LoggedGrows(w: Window, log: seq<Sample>, op: Op)
    requires !op.ResetOp?
    ensures SumOfAll(log) <= SumOfAll(Logged(w, log, op))
  {
    if op.UpdateOp? {
      assert (log + [Sample(op.count, op.now)])[..|log|] == log;
    }
  }

  /** As long as all samples accepted since the last Reset add up to less than 2^63 - 1, nothing
      overflows, whatever the sizes of the window. */
  lemma NoOverflowBelowLimit(maxWindow: nat, ops: seq<Op>)
    requires maxWindow > 0 && AllNonNegative(ops)
    requires SumOfAll(RunLog(Fresh(maxWindow), ops)) < 0x7FFF_FFFF_FFFF_FFFF
    ensures !RunWindow(Fresh(maxWindow), ops).overflow
  {
    OverflowsExactly(maxWindow, ops);
    hide RunWindow, RunLog, Fresh, ReachesLimit, NoResetFrom, SumOfAll;
    forall i | 0 <= i < |ops| && NoResetFrom(ops, i)
      ensures !ReachesLimit(maxWindow, ops, i)
    {
      LimitIsBelowSum(maxWindow, ops, i);
    }
  }

  lemma LimitIsBelowSum(maxWindow: nat, ops: seq<Op>, i: nat)
    requires maxWindow > 0 && AllNonNegative(ops) && i < |ops| && NoResetFrom(ops, i)
    ensures ReachesLimit(maxWindow, ops, i) ==> SumOfAll(RunLog(Fresh(maxWindow), ops)) >= 0x7FFF_FFFF_FFFF_FFFF
  {
    hide RunWindow, SumOfAll, Sum, AfterUpdate;
    var f := Fresh(maxWindow);
    if ReachesLimit(maxWindow, ops, i) {
      var w, log, op := RunWindow(f, ops[..i]), RunLog(f, ops[..i]), ops[i];
      LogGrows(maxWindow, ops, i + 1);
      assert ops[..i + 1][..i] == ops[..i];
      assert RunLog(f, ops[..i + 1]) == log + [Sample(op.count, op.now)];
      var start := AfterUpdate(w, op.count, op.now).oldestTime;
      SumOfSome(log + [Sample(op.count, op.now)], start, start + maxWindow);
    }
  }

  // ---- A monotonic clock and a fixed window ----

  /** A new counter has the largest window; another size is in force once it has been set, whether
      or not a Reset has come before. */
  lemma WindowOfRun(maxWindow: nat, window: nat, ops: seq<Op>, t: int)
    requires 1 <= window <= maxWindow && Sliding(ops) && 0 <= t
    ensures SlidingRun(maxWindow, maxWindow, ops) == RunWindow(Fresh(maxWindow), ops)
    ensures Apply(Fresh(maxWindow), SetWindowSizeOp(window, t)) == (Fresh(maxWindow).(currentWindow := window), SetOutcome(true))
    ensures forall w, op | WellFormed(w) && w.maxWindow == maxWindow && op == ResetOp :: Apply(w, op).0 == Fresh(maxWindow)
  {
    hide RunWindow;
    assert !Initialized(Fresh(maxWindow).(currentWindow := window));
  }

  /** Some sample has brought the samples offered in the last milliseconds, itself among them, to
      the limit. */
  ghost predicate ReachesLimitWithin(window: nat, ops: seq<Op>) {
    exists i :: 0 <= i < |ops| && ReachesLimitAt(window, ops, i)
  }

  ghost predicate ReachesLimitAt(window: nat, ops: seq<Op>, i: nat)
    requires i < |ops|
  {
    && ops[i].UpdateOp?
    && Sum(Offered(ops[..i + 1]), ops[i].now - window + 1, ops[i].now + 1) >= 0x7FFF_FFFF_FFFF_FFFF
  }

  lemma LimitWithinStep(window: nat, ops: seq<Op>)
    requires ops != []
    ensures var n := |ops| - 1;
            ReachesLimitWithin(window, ops) <==>
              ReachesLimitAt(window, ops, n) || ReachesLimitWithin(window, ops[..n])
  {
    hide ReachesLimitAt;
    var n := |ops| - 1;
    forall i | 0 <= i < n
      ensures ReachesLimitAt(window, ops, i) <==> ReachesLimitAt(window, ops[..n], i)
    {
      EarlierLimitAt(window, ops, i);
    }
  }

  lemma EarlierLimitAt(window: nat, ops: seq<Op>, i: nat)
    requires i < |ops| - 1
    ensures ReachesLimitAt(window, ops, i) <==> ReachesLimitAt(window, ops[..|ops| - 1], i)
  {
    assert ops[..|ops| - 1][..i + 1] == ops[..i + 1];
    hide Sum, Offered;
  }

  /** All samples of the last milliseconds are in the window. */
  lemma WindowHoldsAll(w: Window, log: seq<Sample>, now: int)
    requires Current(w, log, now) && Initialized(w)
    ensures Sum(log, now - w.currentWindow + 1, now + 1) == Sum(log, w.oldestTime, w.oldestTime + w.maxWindow)
  {
    TotalSplit(log, now - w.currentWindow + 1, w.oldestTime, now + 1);
    TotalSplit(log, w.oldestTime, now + 1, w.oldestTime + w.maxWindow);
    hide BucketsAgree;
  }

  lemma SlidingStepOverflows(w: Window, log: seq<Sample>, last: int, op: Op)
    requires Current(w, log, last) && NonNegativeTime(op) && (op.UpdateOp? || op.RateOp?) && last <= op.now
    ensures Apply(w, op).0.overflow <==>
              w.overflow
              || (op.UpdateOp? && Sum(log + [Sample(op.count, op.now)], op.now - w.currentWindow + 1, op.now + 1)
                                  >= 0x7FFF_FFFF_FFFF_FFFF)
  {
    hide Sum, Total, BucketsAgree, DropBuckets;
    StepOverflows(w, log, op);
    if op.UpdateOp? {
      UpdateStaysCurrent(w, log, last, op.count, op.now);
      WindowHoldsAll(AfterUpdate(w, op.count, op.now), log + [Sample(op.count, op.now)], op.now);
    }
  }

  /** With a monotonic clock and a fixed window W, a counter has overflowed if and only if at some
      sample the samples offered in the last W milliseconds, itself among them, reached 2^63 - 1. */
  lemma {:induction false} SlidingOverflowsExactly(maxWindow: nat, window: nat, ops: seq<Op>)
    requires 1 <= window <= maxWindow && Sliding(ops)
    ensures SlidingRun(maxWindow, window, ops).overflow <==> ReachesLimitWithin(window, ops)
    decreases |ops|
  {
    if ops != [] {
      var n := |ops| - 1;
      SlidingPart(ops);
      SlidingOverflowsExactly(maxWindow, window, ops[..n]);
      LimitWithinStep(window, ops);
      hide ReachesLimitWithin;
      LastOverflows(maxWindow, window, ops);
    }
  }

  lemma SlidingPart(ops: seq<Op>)
    requires Sliding(ops) && ops != []
    ensures var before, op := ops[..|ops| - 1], ops[|ops| - 1];
            Sliding(before) && NonNegativeTime(op) && (op.UpdateOp? || op.RateOp?)
            && (if before == [] then 0 else before[|before| - 1].now) <= op.now
  {
  }

  lemma LastOverflows(maxWindow: nat, window: nat, ops: seq<Op>)
    requires 1 <= window <= maxWindow && Sliding(ops) && ops != []
    ensures Sliding(ops[..|ops| - 1])
    ensures SlidingRun(maxWindow, window, ops).overflow <==>
              SlidingRun(maxWindow, window, ops[..|ops| - 1]).overflow || ReachesLimitAt(window, ops, |ops| - 1)
  {
    hide Current, Apply, Sum, SlidingRun, Offered, WellFormed, Sliding;
    var n, before := |ops| - 1, ops[..|ops| - 1];
    SlidingPart(ops);
    LastApplied(maxWindow, window, ops);
    assert ops[..n + 1] == ops;
    SlidingRunIsCurrent(maxWindow, window, before);
    SlidingStepOverflows(SlidingRun(maxWindow, window, before), Offered(before),
                         if before == [] then 0 else before[|before| - 1].now, ops[n]);
  }

  lemma LastApplied(maxWindow: nat, window: nat, ops: seq<Op>)
    requires 1 <= window <= maxWindow && Sliding(ops) && ops != []
    ensures var n := |ops| - 1;
            Sliding(ops[..n]) && SlidingRun(maxWindow, window, ops) == Apply(SlidingRun(maxWindow, window, ops[..n]), ops[n]).0
            && Offered(ops) == if ops[n].UpdateOp? then Offered(ops[..n]) + [Sample(ops[n].count, ops[n].now)]
                               else Offered(ops[..n])
  {
    hide Apply;
  }

  /** The rate after a run of updates and rates, in terms of the samples offered alone: there is one
      if and only if (now - W, now] holds a sample, more than a millisecond has passed since the
      very first sample, the samples are at least two unless the run is as old as the window, and
      no sample has ever brought its window to the limit. It is computed from the sum over
      (now - W, now] and the age of the run, W at most. */
  lemma RateOfSamples(maxWindow: nat, window: nat, ops: seq<Op>, now: int)
    requires 1 <= window <= maxWindow < 0x8000_0000 && Sliding(ops + [RateOp(now)])
    ensures var w, log := SlidingRun(maxWindow, window, ops + [RateOp(now)]), Offered(ops);
            var total := Total(log, now - window + 1, now + 1);
            if log == [] then Available(w, now) == None
            else
              var active := Min(window, now - log[0].time + 1);
              Available(w, now) ==
                if total.samples == 0 || active <= 1 || (total.samples == 1 && active < window)
                   || ReachesLimitWithin(window, ops)
                then None else Some((total.sum, active))
  {
    var all := ops + [RateOp(now)];
    assert all[..|all| - 1] == ops;
    RateOfSlidingRun(maxWindow, window, ops, now);
    SlidingOverflowsExactly(maxWindow, window, all);
    LimitWithinStep(window, all);
    assert !ReachesLimitAt(window, all, |all| - 1);
    hide SlidingRun, Offered, ReachesLimitWithin, Available, Sliding, Total;
  }
}
