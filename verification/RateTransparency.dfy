/** Whether an extra call of Rate, which moves the window of the counter, can be noticed. */
module RateTransparency {
  import opened Options
  import opened RateStatisticsModel

  lemma {:induction false} DropBucketsTwice(w: Window, m: int, n: int)
    requires WellFormed(w) && w.oldestTime <= m <= n
    ensures var once := DropBuckets(w, m).(oldestTime := m);
            DropBuckets(once, n).(oldestTime := n) == DropBuckets(w, n).(oldestTime := n)
    decreases m - w.oldestTime
  {
    if w.numSamples > 0 && w.oldestTime < m {
      DropBucketsTwice(DropOldest(w), m, n);
    } else if w.numSamples <= 0 {
      assert DropBuckets(w, m) == w;
    }
  }

  /** Moving the window start in two stages is the same as moving it at once, even when the
      first stage empties the window. It fails exactly if the second stage asks for an earlier
      start than the first one has reached. */
  lemma EraseTwice(w: Window, m: int, n: int)
    requires WellFormed(w)
    ensures EraseTo(EraseTo(w, m), n) == EraseTo(w, n) <==> !Initialized(w) || m <= w.oldestTime || m <= n
  {
    if Initialized(w) && m > w.oldestTime && m <= n {
      DropBucketsTwice(w, m, n);
    }
    hide DropBuckets;
  }

  function Cons<T>(x: T, s: seq<T>): seq<T> {
    [x] + s
  }

  function Outcomes(w: Window, ops: seq<Op>): seq<Outcome>
    requires WellFormed(w) && AllNonNegative(ops)
    decreases |ops|
  {
    if ops == [] then [] else Cons(Apply(w, ops[0]).1, Outcomes(Apply(w, ops[0]).0, ops[1..]))
  }

  /** The extra Rate moves the window, and the resize would have let it start earlier. */
  predicate RemembersRate(w: Window, now: int, size: int, t: int) {
    Initialized(w) && w.oldestTime < now - w.currentWindow + 1 && t - size < now - w.currentWindow
  }

  /** The operation is no earlier than the extra Rate, and is no resize that remembers it. */
  predicate StartsNoEarlier(w: Window, now: int, op: Op) {
    match op
    case UpdateOp(_, t) => now <= t
    case RateOp(t) => now <= t
    case SetWindowSizeOp(size, t) => now <= t && (0 < size <= w.maxWindow ==> !RemembersRate(w, now, size, t))
    case ResetOp => true
  }

  predicate IsRejected(w: Window, op: Op) {
    op.SetWindowSizeOp? && !(0 < op.size <= w.maxWindow)
  }

  /** An operation after an extra Rate sees the same, and leaves the same; only a rejected one
      leaves the states as far apart as they were. */
  lemma OperationAfterRate(w: Window, now: int, op: Op)
    requires WellFormed(w) && 0 <= now && NonNegativeTime(op) && StartsNoEarlier(w, now, op)
    ensures Apply(AfterErase(w, now), op).1 == Apply(w, op).1
    ensures if IsRejected(w, op) then Apply(w, op).0 == w && Apply(AfterErase(w, now), op).0 == AfterErase(w, now)
            else Apply(AfterErase(w, now), op).0 == Apply(w, op).0
  {
    match op
    case UpdateOp(count, t) => UpdateAfterRate(w, now, count, t);
    case RateOp(t) => EraseTwice(w, now - w.currentWindow + 1, t - w.currentWindow + 1);
    case SetWindowSizeOp(size, t) => ResizeAfterRate(w, now, size, t);
    case ResetOp =>
    hide EraseTo, AfterSetWindowSize, AfterUpdate, RemembersRate;
  }

  lemma UpdateAfterRate(w: Window, now: int, count: nat, t: int)
    requires WellFormed(w) && 0 <= now <= t
    ensures AfterUpdate(AfterErase(w, now), count, t) == AfterUpdate(w, count, t)
  {
    EraseTwice(w, now - w.currentWindow + 1, t - w.currentWindow + 1);
    hide EraseTo, Added;
  }

  lemma ResizeAfterRate(w: Window, now: int, size: int, t: int)
    requires WellFormed(w) && (0 < size <= w.maxWindow ==> !RemembersRate(w, now, size, t))
    ensures AfterSetWindowSize(AfterErase(w, now), size, t).1 == AfterSetWindowSize(w, size, t).1
    ensures AfterSetWindowSize(AfterErase(w, now), size, t).0 ==
            if 0 < size <= w.maxWindow then AfterSetWindowSize(w, size, t).0 else AfterErase(w, now)
  {
    if 0 < size <= w.maxWindow {
      ResizeRemembersRate(w, now, size, t);
    }
    hide EraseTo;
  }

  lemma {:induction false} DropIgnoresWindow(w: Window, start: int, size: nat)
    requires WellFormed(w) && 0 < size <= w.maxWindow
    ensures DropBuckets(w.(currentWindow := size), start) == DropBuckets(w, start).(currentWindow := size)
    decreases start - w.oldestTime
  {
    if w.numSamples > 0 && w.oldestTime < start {
      assert DropOldest(w.(currentWindow := size)) == DropOldest(w).(currentWindow := size);
      DropIgnoresWindow(DropOldest(w), start, size);
    }
  }

  lemma EraseIgnoresWindow(w: Window, start: int, size: nat)
    requires WellFormed(w) && 0 < size <= w.maxWindow
    ensures EraseTo(w.(currentWindow := size), start) == EraseTo(w, start).(currentWindow := size)
  {
    DropIgnoresWindow(w, start, size);
  }

  /** The first operation that is not rejected is no earlier than the extra Rate, and no resize
      that remembers it. */
  predicate FirstMoveIsLater(w: Window, now: int, ops: seq<Op>)
    decreases |ops|
  {
    ops == [] || (StartsNoEarlier(w, now, ops[0]) && (IsRejected(w, ops[0]) ==> FirstMoveIsLater(w, now, ops[1..])))
  }

  /** An extra Rate call changes no later result, as long as the next operation is no earlier
      and is not a resize that remembers it. */
  lemma {:induction false} RateIsTransparent(w: Window, now: int, ops: seq<Op>)
    requires WellFormed(w) && 0 <= now && FirstMoveIsLater(w, now, ops)
    requires AllNonNegative(ops)
    ensures Outcomes(AfterErase(w, now), ops) == Outcomes(w, ops)
    decreases |ops|
  {
    if ops != [] {
      OperationAfterRate(w, now, ops[0]);
      if IsRejected(w, ops[0]) {
        RateIsTransparent(w, now, ops[1..]);
      }
    }
    hide Apply, AfterErase, StartsNoEarlier;
  }

  /** Exactly when a resize leaves a trace of an earlier Rate call: when that call moved the
      window, and the resize would have let it start earlier. */
  lemma ResizeRemembersRate(w: Window, now: int, size: int, t: int)
    requires WellFormed(w) && 0 < size <= w.maxWindow
    ensures AfterSetWindowSize(AfterErase(w, now), size, t).0 != AfterSetWindowSize(w, size, t).0
            <==> RemembersRate(w, now, size, t)
  {
    EraseIgnoresWindow(w, now - w.currentWindow + 1, size);
    EraseTwice(w.(currentWindow := size), now - w.currentWindow + 1, t - size + 1);
    hide EraseTo;
  }

  // ---- What a caller can notice ----

  lemma OutcomesStep(w: Window, op: Op, ops: seq<Op>)
    requires WellFormed(w) && NonNegativeTime(op) && AllNonNegative(ops)
    ensures AllNonNegative(Cons(op, ops))
    ensures Outcomes(w, Cons(op, ops)) == Cons(Apply(w, op).1, Outcomes(Apply(w, op).0, ops))
  {
    assert Cons(op, ops)[1..] == ops;
    assert WellFormed(Apply(w, op).0);
    hide Apply, WellFormed, NonNegativeTime;
  }

  lemma OutcomesEnd(w: Window)
    requires WellFormed(w)
    ensures AllNonNegative([]) && Outcomes(w, []) == []
  {
  }

  /** Windows of the same size that have both overflowed cannot be told apart. */
  lemma {:induction false} OverflowHidesAll(v: Window, w: Window, ops: seq<Op>)
    requires WellFormed(v) && WellFormed(w) && v.maxWindow == w.maxWindow && AllNonNegative(ops)
    requires v == w || (v.overflow && w.overflow)
    ensures Outcomes(v, ops) == Outcomes(w, ops)
    decreases |ops|
  {
    if ops != [] {
      if v != w {
        OverflowHides(v, w, ops[0]);
      }
      hide Apply, NonNegativeTime, WellFormed;
      OverflowHidesAll(Apply(v, ops[0]).0, Apply(w, ops[0]).0, ops[1..]);
    }
  }

  lemma OverflowHides(v: Window, w: Window, op: Op)
    requires WellFormed(v) && WellFormed(w) && v.maxWindow == w.maxWindow && NonNegativeTime(op)
    requires v.overflow && w.overflow
    ensures Apply(v, op).1 == Apply(w, op).1
    ensures op.ResetOp? ==> Apply(v, op).0 == Apply(w, op).0
    ensures !op.ResetOp? ==> Apply(v, op).0.overflow && Apply(w, op).0.overflow
  {
    hide DropBuckets;
  }

  /** Two samples, the second of them empty, make a rate available once the window is longer than
      a millisecond; the rate then shows where the window starts. */
  function Probe(c: nat, t: int): seq<Op> {
    Cons(UpdateOp(c, t), Cons(UpdateOp(0, t), Cons(RateOp(t), [])))
  }

  /** A window that an operation at a time does not move. */
  predicate Placed(w: Window, t: int) {
    && WellFormed(w) && Initialized(w) && 0 <= t && t - w.currentWindow + 1 <= w.oldestTime <= t
    && w.numSamples >= 0 && w.maxWindow < 0x8000_0000
  }

  /** A window on which a probe can be used at a time. */
  predicate Probable(w: Window, t: int) {
    Placed(w, t) && !w.overflow && w.accumulated < INT64_MAX
  }

  predicate Fits(w: Window, c: nat) {
    INT64_MAX - w.accumulated > c
  }

  lemma AddedInPlace(w: Window, c: nat, t: int)
    requires Placed(w, t)
    ensures var (v, outcome) := Apply(w, UpdateOp(c, t));
            && outcome == Silent && Placed(v, t) && v.oldestTime == w.oldestTime && v.numSamples == w.numSamples + 1
            && v.accumulated == (if Fits(w, c) then w.accumulated + c else w.accumulated)
            && v.overflow == (w.overflow || !Fits(w, c))
  {
    assert AfterErase(w, t) == w;
    hide EraseTo;
  }

  /** The rate that a probe finds. */
  function ProbedRate(w: Window, c: nat, t: int): Option<real> {
    var active := t - w.oldestTime + 1;
    if active <= 1 || !Fits(w, c) then None else Some((w.accumulated + c) as real / active as real)
  }

  lemma ProbeShowsStart(w: Window, c: nat, t: int)
    requires Probable(w, t)
    ensures AllNonNegative(Probe(c, t))
    ensures Outcomes(w, Probe(c, t)) == Cons(Silent, Cons(Silent, Cons(RateOutcome(ProbedRate(w, c, t)), [])))
  {
    AddedInPlace(w, c, t);
    var v := Apply(w, UpdateOp(c, t)).0;
    AddedInPlace(v, 0, t);
    var u := Apply(v, UpdateOp(0, t)).0;
    FullRate(u, t);
    hide Available, AfterErase, AfterUpdate, Outcomes, AllNonNegative, Cons, Probe;
    ProbeOutcomes(w, v, u, c, t);
  }

  lemma ProbeOutcomes(w: Window, v: Window, u: Window, c: nat, t: int)
    requires WellFormed(w) && WellFormed(v) && WellFormed(u) && 0 <= t
    requires Apply(w, UpdateOp(c, t)) == (v, Silent) && Apply(v, UpdateOp(0, t)) == (u, Silent)
    ensures AllNonNegative(Probe(c, t))
    ensures Outcomes(w, Probe(c, t))
            == Cons(Silent, Cons(Silent, Cons(RateOutcome(Quotient(Available(AfterErase(u, t), t))), [])))
  {
    hide Cons, Outcomes, AllNonNegative, WellFormed, AfterUpdate, AfterErase, Available, Quotient;
    var x, one := AfterErase(u, t), Cons(RateOp(t), []);
    RateOutcomeIs(u, t);
    hide Apply;
    OutcomesEnd(x);
    OutcomesTo(u, RateOp(t), x, RateOutcome(Quotient(Available(x, t))), []);
    OutcomesTo(v, UpdateOp(0, t), u, Silent, one);
    OutcomesTo(w, UpdateOp(c, t), v, Silent, Cons(UpdateOp(0, t), one));
  }

  lemma RateOutcomeIs(w: Window, t: int)
    requires WellFormed(w) && 0 <= t
    ensures WellFormed(AfterErase(w, t))
    ensures Apply(w, RateOp(t)) == (AfterErase(w, t), RateOutcome(Quotient(Available(AfterErase(w, t), t))))
  {
    hide EraseTo, Available, Quotient;
  }

  lemma OutcomesTo(w: Window, op: Op, v: Window, o: Outcome, ops: seq<Op>)
    requires WellFormed(w) && WellFormed(v) && NonNegativeTime(op) && AllNonNegative(ops) && Apply(w, op) == (v, o)
    ensures AllNonNegative(Cons(op, ops)) && Outcomes(w, Cons(op, ops)) == Cons(o, Outcomes(v, ops))
  {
    OutcomesStep(w, op, ops);
    hide Apply, Outcomes, Cons, WellFormed, AllNonNegative, NonNegativeTime;
  }

  lemma FullRate(w: Window, t: int)
    requires Placed(w, t) && w.numSamples >= 2
    ensures AfterErase(w, t) == w
    ensures var active := t - w.oldestTime + 1;
            Available(w, t) == if active <= 1 || w.overflow then None else Some((w.accumulated, active))
  {
    InInt32(t - w.oldestTime + 1);
    hide DropBuckets, ToInt32;
  }

  /** Equal quotients with a smaller divisor do not stay equal when both sums grow by one. */
  lemma QuotientsPart(a: nat, b: nat, m: nat, n: nat)
    requires m > n > 0 && a as real / m as real == b as real / n as real
    ensures (a + 1) as real / m as real != (b + 1) as real / n as real
    ensures a == b ==> a == 0
  {
    CrossMultiplied(a, m, b, n);
    assert (a + 1) * n == a * n + n && (b + 1) * m == b * m + m;
    assert a > 0 ==> a * m > a * n;
    if (a + 1) as real / m as real == (b + 1) as real / n as real {
      CrossMultiplied(a + 1, m, b + 1, n);
      assert false;
    }
  }

  lemma CrossMultiplied(a: nat, m: nat, b: nat, n: nat)
    requires m > 0 && n > 0 && a as real / m as real == b as real / n as real
    ensures a * n == b * m
  {
    var q := a as real / m as real;
    assert q * m as real == a as real && q * n as real == b as real;
    assert a as real * n as real == b as real * m as real;
  }

  /** Of two windows that end together, the longer of which holds the greater sum, an empty sample
      or a sample of one shows a difference. */
  lemma ProbeTellsApart(v: Window, e: Window, t: int) returns (c: nat)
    requires Probable(v, t) && Probable(e, t) && v.oldestTime < e.oldestTime
    requires v.accumulated >= e.accumulated >= 0
    ensures ProbedRate(v, c, t) != ProbedRate(e, c, t)
  {
    c := 0;
    var m, n := t - v.oldestTime + 1, t - e.oldestTime + 1;
    if n > 1 && ProbedRate(v, 0, t) == ProbedRate(e, 0, t) {
      c := 1;
      QuotientsPart(v.accumulated, e.accumulated, m, n);
    }
    hide WellFormed;
  }

  /** Fewer samples have no greater sum. */
  lemma {:induction false} TotalShrinks(log: seq<Sample>, a: int, b: int, c: int, d: int)
    requires forall x :: x in log && c <= x.time < d ==> a <= x.time < b
    ensures Total(log, c, d).sum <= Total(log, a, b).sum
  {
    if log != [] {
      assert log[|log| - 1] in log;
      TotalShrinks(log[..|log| - 1], a, b, c, d);
    }
  }

  /** What every run keeps: the sum has not reached its limit unless it has overflowed. */
  predicate BelowLimit(w: Window) {
    !w.overflow ==> w.accumulated < INT64_MAX
  }

  lemma EraseLowersSum(w: Window, log: seq<Sample>, start: int)
    requires Agrees(w, log) && !w.overflow
    ensures EraseTo(w, start).accumulated <= w.accumulated && !EraseTo(w, start).overflow
  {
    EraseAgrees(w, log, start);
    var r := EraseTo(w, start);
    assert r.overflow == w.overflow && r.oldestTime >= w.oldestTime;
    TotalShrinks(log, w.oldestTime, w.oldestTime + w.maxWindow, r.oldestTime, r.oldestTime + r.maxWindow);
    hide EraseTo, Total, BucketsAgree;
  }

  lemma StepStaysBelowLimit(w: Window, log: seq<Sample>, op: Op)
    requires Agrees(w, log) && BelowLimit(w) && NonNegativeTime(op)
    ensures BelowLimit(Apply(w, op).0)
  {
    if !w.overflow {
      match op
      case UpdateOp(_, now) => EraseLowersSum(w, log, now - w.currentWindow + 1);
      case RateOp(now) => EraseLowersSum(w, log, now - w.currentWindow + 1);
      case SetWindowSizeOp(size, now) =>
        if 0 < size <= w.maxWindow {
          EraseIgnoresWindow(w, now - size + 1, size);
          EraseLowersSum(w, log, now - size + 1);
        }
      case ResetOp =>
    }
    hide EraseTo, Agrees;
  }

  lemma {:induction false} RunStaysBelowLimit(maxWindow: nat, ops: seq<Op>)
    requires maxWindow > 0 && AllNonNegative(ops)
    ensures BelowLimit(RunWindow(Fresh(maxWindow), ops))
    decreases |ops|
  {
    if ops != [] {
      var before := ops[..|ops| - 1];
      RunStaysBelowLimit(maxWindow, before);
      RunAgrees(maxWindow, before);
      StepStaysBelowLimit(RunWindow(Fresh(maxWindow), before), RunLog(Fresh(maxWindow), before), ops[|ops| - 1]);
    }
    hide Agrees, Apply, BelowLimit;
  }

  /** What a run leads to: a window that agrees with its samples, of a size for which the active
      window fits into an int. */
  ghost predicate Reached(w: Window) {
    BelowLimit(w) && w.maxWindow < 0x8000_0000 && exists log :: Agrees(w, log)
  }

  lemma RunsReach(maxWindow: nat, ops: seq<Op>)
    requires 0 < maxWindow < 0x8000_0000 && AllNonNegative(ops)
    ensures Reached(RunWindow(Fresh(maxWindow), ops))
  {
    RunStaysBelowLimit(maxWindow, ops);
    RunAgrees(maxWindow, ops);
    hide Agrees, BelowLimit;
  }

  /** Some later run gives different results with the extra Rate and without it. */
  ghost predicate NoticedAfter(w: Window, now: int, op: Op)
    requires WellFormed(w) && NonNegativeTime(op)
  {
    exists ops :: AllNonNegative(ops) && AllNonNegative(Cons(op, ops))
                  && Outcomes(AfterErase(w, now), Cons(op, ops)) != Outcomes(w, Cons(op, ops))
  }

  /** A Rate followed by a resize, no earlier, is noticed by some later run if and only if the
      count has not overflowed, the Rate has moved the window, and the resize would have let it
      start earlier. */
  lemma ResizeNoticesRate(w: Window, now: int, size: int, t: int)
    requires Reached(w) && WellFormed(w) && 0 <= now <= t && 0 < size <= w.maxWindow
    ensures NoticedAfter(w, now, SetWindowSizeOp(size, t)) <==> !w.overflow && RemembersRate(w, now, size, t)
  {
    var op := SetWindowSizeOp(size, t);
    var e := AfterErase(w, now);
    hide Outcomes, Agrees, Reached, AfterErase;
    if !w.overflow && RemembersRate(w, now, size, t) {
      var c := ProbeNoticesRate(w, now, size, t);
    } else {
      forall ops | AllNonNegative(ops) && AllNonNegative(Cons(op, ops))
        ensures Outcomes(e, Cons(op, ops)) == Outcomes(w, Cons(op, ops))
      {
        ResizeHidesRate(w, now, size, t, ops);
      }
    }
  }

  lemma ResizeHidesRate(w: Window, now: int, size: int, t: int, ops: seq<Op>)
    requires WellFormed(w) && 0 <= now <= t && 0 < size <= w.maxWindow && AllNonNegative(ops)
    requires w.overflow || !RemembersRate(w, now, size, t)
    ensures AllNonNegative(Cons(SetWindowSizeOp(size, t), ops))
    ensures var all := Cons(SetWindowSizeOp(size, t), ops); Outcomes(AfterErase(w, now), all) == Outcomes(w, all)
  {
    var op := SetWindowSizeOp(size, t);
    OutcomesStep(w, op, ops);
    if w.overflow {
      OverflowHidesAll(AfterErase(w, now), w, Cons(op, ops));
    } else {
      ResizeRemembersRate(w, now, size, t);
      OutcomesStep(AfterErase(w, now), op, ops);
    }
    hide Outcomes, EraseTo, RemembersRate;
  }

  /** Where a window starts after a resize that follows an extra Rate, and where without it. */
  lemma StartsApart(w: Window, now: int, size: int, t: int)
    requires WellFormed(w) && 0 <= now <= t && 0 < size <= w.maxWindow && RemembersRate(w, now, size, t)
    ensures var v, e := AfterSetWindowSize(w, size, t).0, AfterSetWindowSize(AfterErase(w, now), size, t).0;
            Initialized(v) && Initialized(e) && v.currentWindow == e.currentWindow == size
            && t - size + 1 <= v.oldestTime < e.oldestTime <= t
  {
    hide DropBuckets;
  }

  lemma ResizedIsSound(w: Window, log: seq<Sample>, size: int, t: int)
    requires Agrees(w, log) && !w.overflow && w.accumulated < INT64_MAX && 0 < size <= w.maxWindow
    ensures var v := AfterSetWindowSize(w, size, t).0;
            WellFormed(v) && !v.overflow && v.accumulated < INT64_MAX && v.numSamples >= 0 && v.maxWindow == w.maxWindow
            && Agrees(v, log)
  {
    ResizeAgrees(w, log, size, t);
    EraseIgnoresWindow(w, t - size + 1, size);
    EraseLowersSum(w, log, t - size + 1);
    hide EraseTo, BucketsAgree;
  }

  lemma ProbeNoticesRate(w: Window, now: int, size: int, t: int) returns (c: nat)
    requires Reached(w) && WellFormed(w) && 0 <= now <= t && 0 < size <= w.maxWindow
    requires !w.overflow && RemembersRate(w, now, size, t)
    ensures AllNonNegative(Probe(c, t)) && AllNonNegative(Cons(SetWindowSizeOp(size, t), Probe(c, t)))
    ensures var all := Cons(SetWindowSizeOp(size, t), Probe(c, t)); Outcomes(AfterErase(w, now), all) != Outcomes(w, all)
  {
    var op := SetWindowSizeOp(size, t);
    ResizedApart(w, now, size, t);
    var v, e := Apply(w, op).0, Apply(AfterErase(w, now), op).0;
    hide Outcomes, Reached, AfterErase, RemembersRate, Apply, WellFormed;
    c := ProbeTellsApart(v, e, t);
    ProbesDiffer(v, e, c, t);
    OutcomesStep(w, op, Probe(c, t));
    OutcomesStep(AfterErase(w, now), op, Probe(c, t));
    hide Probe;
    var a, b := Outcomes(w, Cons(op, Probe(c, t))), Outcomes(AfterErase(w, now), Cons(op, Probe(c, t)));
    assert a[1..] == Outcomes(v, Probe(c, t)) && b[1..] == Outcomes(e, Probe(c, t));
  }

  lemma ResizedApart(w: Window, now: int, size: int, t: int)
    requires Reached(w) && WellFormed(w) && 0 <= now <= t && 0 < size <= w.maxWindow
    requires !w.overflow && RemembersRate(w, now, size, t)
    ensures WellFormed(AfterErase(w, now))
    ensures var op := SetWindowSizeOp(size, t);
            var v, e := Apply(w, op).0, Apply(AfterErase(w, now), op).0;
            Probable(v, t) && Probable(e, t) && v.oldestTime < e.oldestTime && v.accumulated >= e.accumulated >= 0
  {
    var log :| Agrees(w, log);
    RateAgrees(w, log, now);
    EraseLowersSum(w, log, now - w.currentWindow + 1);
    StartsApart(w, now, size, t);
    ResizedIsSound(w, log, size, t);
    ResizedIsSound(AfterErase(w, now), log, size, t);
    LaterStartLowersSum(AfterSetWindowSize(w, size, t).0, AfterSetWindowSize(AfterErase(w, now), size, t).0, log);
    hide Agrees, EraseTo, RemembersRate;
  }

  lemma LaterStartLowersSum(v: Window, e: Window, log: seq<Sample>)
    requires Agrees(v, log) && Agrees(e, log) && !v.overflow && !e.overflow
    requires v.oldestTime <= e.oldestTime && v.maxWindow == e.maxWindow
    ensures v.accumulated >= e.accumulated >= 0
  {
    hide Total, BucketsAgree;
    TotalShrinks(log, v.oldestTime, v.oldestTime + v.maxWindow, e.oldestTime, e.oldestTime + e.maxWindow);
  }

  lemma ProbesDiffer(v: Window, e: Window, c: nat, t: int)
    requires Probable(v, t) && Probable(e, t) && ProbedRate(v, c, t) != ProbedRate(e, c, t)
    ensures AllNonNegative(Probe(c, t)) && Outcomes(v, Probe(c, t)) != Outcomes(e, Probe(c, t))
  {
    ProbeShowsStart(v, c, t);
    ProbeShowsStart(e, c, t);
    hide Outcomes, Probe, WellFormed, ProbedRate;
    assert Outcomes(v, Probe(c, t))[2] != Outcomes(e, Probe(c, t))[2];
  }

  /** Times do not run backwards, from a given time on. */
  ghost predicate Monotonic(now: int, ops: seq<Op>) {
    && AllNonNegative(ops)
    && (forall i :: 0 <= i < |ops| ==> ops[i].ResetOp? || now <= ops[i].now)
    && (forall i, j :: 0 <= i < j < |ops| ==> ops[i].ResetOp? || ops[j].ResetOp? || ops[i].now <= ops[j].now)
  }

  ghost predicate Noticed(w: Window, now: int)
    requires WellFormed(w)
  {
    exists ops :: Monotonic(now, ops) && Outcomes(AfterErase(w, now), ops) != Outcomes(w, ops)
  }

  /** With a monotonic clock, an extra Rate can be noticed at all if and only if the count has not
      overflowed, the call has moved the window, and the window can still be enlarged. */
  lemma RateIsNoticedExactly(w: Window, now: int)
    requires Reached(w) && WellFormed(w) && 0 <= now
    ensures Noticed(w, now) <==>
            !w.overflow && Initialized(w) && w.oldestTime < now - w.currentWindow + 1 && w.currentWindow < w.maxWindow
  {
    var size := w.currentWindow + 1;
    assert WellFormed(AfterErase(w, now));
    hide Outcomes, Reached, AfterErase;
    if !w.overflow && Initialized(w) && w.oldestTime < now - w.currentWindow + 1 && size <= w.maxWindow {
      var c := ProbeNoticesRate(w, now, size, now);
      ProbeIsMonotonic(c, now, size);
    } else {
      forall ops | Monotonic(now, ops)
        ensures Outcomes(AfterErase(w, now), ops) == Outcomes(w, ops)
      {
        NothingToNotice(w, now, ops);
      }
    }
  }

  lemma ProbeIsMonotonic(c: nat, now: int, size: int)
    requires 0 <= now
    ensures Monotonic(now, Cons(SetWindowSizeOp(size, now), Probe(c, now)))
  {
  }

  lemma NothingToNotice(w: Window, now: int, ops: seq<Op>)
    requires WellFormed(w) && 0 <= now && Monotonic(now, ops)
    requires w.overflow || !Initialized(w) || w.oldestTime >= now - w.currentWindow + 1 || w.currentWindow == w.maxWindow
    ensures Outcomes(AfterErase(w, now), ops) == Outcomes(w, ops)
  {
    if w.overflow {
      OverflowHidesAll(AfterErase(w, now), w, ops);
    } else {
      NothingRemembers(w, now, ops);
      RateIsTransparent(w, now, ops);
    }
    hide Outcomes, EraseTo;
  }

  lemma {:induction false} NothingRemembers(w: Window, now: int, ops: seq<Op>)
    requires WellFormed(w) && Monotonic(now, ops)
    requires !Initialized(w) || w.oldestTime >= now - w.currentWindow + 1 || w.currentWindow == w.maxWindow
    ensures FirstMoveIsLater(w, now, ops)
    decreases |ops|
  {
    if ops != [] {
      NothingRemembers(w, now, ops[1..]);
    }
  }

  /** The shortest such run: a sample at time 0 in a window of 1 is dropped by a Rate at time 1,
      though the window of 3 that is set at that same time would still have counted it at
      time 2. */
  function EnlargingRun(c: nat): (ops: seq<Op>)
    ensures AllNonNegative(ops)
  {
    Cons(SetWindowSizeOp(1, 0), Cons(UpdateOp(c, 0), EnlargingEnd()))
  }

  function EnlargingRunWithRate(c: nat): (ops: seq<Op>)
    ensures AllNonNegative(ops)
  {
    Cons(SetWindowSizeOp(1, 0), Cons(UpdateOp(c, 0), Cons(RateOp(1), EnlargingEnd())))
  }

  function EnlargingEnd(): (ops: seq<Op>)
    ensures AllNonNegative(ops)
  {
    Cons(SetWindowSizeOp(3, 1), Cons(RateOp(2), []))
  }

  /** A counter of at most 3 ms and now 1 ms, with a sample of c at time 0. */
  function Sampled(c: nat): (w: Window)
    ensures WellFormed(w)
  {
    Window([Bucket(c, 1), EMPTY, EMPTY], c, false, 1, 0, 0, 3, 1)
  }

  /** The same after a Rate at time 1. */
  function Erased(): (w: Window)
    ensures WellFormed(w)
  {
    Window([EMPTY, EMPTY, EMPTY], 0, false, 0, 1, 1, 3, 1)
  }

  lemma RateIsNoticedAfterEnlarging(c: nat)
    requires c < INT64_MAX
    ensures Outcomes(Fresh(3), EnlargingRun(c))
            == [SetOutcome(true), Silent, SetOutcome(true), RateOutcome(Some(c as real / 3.0))]
    ensures Outcomes(Fresh(3), EnlargingRunWithRate(c))
            == [SetOutcome(true), Silent, RateOutcome(None), SetOutcome(true), RateOutcome(None)]
  {
    EnlargingOutcomes(c);
    EnlargingOutcomesWithRate(c);
    hide *;
    FourInARow(SetOutcome(true), Silent, SetOutcome(true), RateOutcome(Some(c as real / 3.0)));
    FiveInARow(SetOutcome(true), Silent, RateOutcome(None), SetOutcome(true), RateOutcome(None));
  }

  lemma FourInARow<T>(a: T, b: T, c: T, d: T)
    ensures Cons(a, Cons(b, Cons(c, Cons(d, [])))) == [a, b, c, d]
  {
  }

  lemma FiveInARow<T>(a: T, b: T, c: T, d: T, e: T)
    ensures Cons(a, Cons(b, Cons(c, Cons(d, Cons(e, []))))) == [a, b, c, d, e]
  {
    FourInARow(b, c, d, e);
  }

  lemma EnlargingOutcomes(c: nat)
    requires c < INT64_MAX
    ensures Outcomes(Fresh(3), EnlargingRun(c))
            == Cons(SetOutcome(true), Cons(Silent, Cons(SetOutcome(true), Cons(RateOutcome(Some(c as real / 3.0)), []))))
  {
    EndsWithSample(c);
    hide Fresh, Outcomes, AllNonNegative, WellFormed, Cons, EnlargingEnd;
    StartsWithSample(c, EnlargingEnd());
  }

  lemma EnlargingOutcomesWithRate(c: nat)
    requires c < INT64_MAX
    ensures Outcomes(Fresh(3), EnlargingRunWithRate(c))
            == Cons(SetOutcome(true), Cons(Silent, Cons(RateOutcome(None), Cons(SetOutcome(true), Cons(RateOutcome(None), [])))))
  {
    SampledThenErased(c);
    EndsWithoutSample();
    hide Fresh, Outcomes, AllNonNegative, Apply, WellFormed, Cons, EnlargingEnd;
    OutcomesStep(Sampled(c), RateOp(1), EnlargingEnd());
    StartsWithSample(c, Cons(RateOp(1), EnlargingEnd()));
  }

  lemma StartsWithSample(c: nat, ops: seq<Op>)
    requires c < INT64_MAX && AllNonNegative(ops)
    ensures AllNonNegative(Cons(SetWindowSizeOp(1, 0), Cons(UpdateOp(c, 0), ops)))
    ensures WellFormed(Fresh(3)) && WellFormed(Sampled(c))
    ensures Outcomes(Fresh(3), Cons(SetWindowSizeOp(1, 0), Cons(UpdateOp(c, 0), ops)))
            == Cons(SetOutcome(true), Cons(Silent, Outcomes(Sampled(c), ops)))
  {
    SampledThenErased(c);
    var f := Fresh(3).(currentWindow := 1);
    hide Apply, Fresh, WellFormed, AllNonNegative, Outcomes, Cons;
    OutcomesStep(f, UpdateOp(c, 0), ops);
    OutcomesStep(Fresh(3), SetWindowSizeOp(1, 0), Cons(UpdateOp(c, 0), ops));
  }

  lemma EndsWithSample(c: nat)
    requires c < INT64_MAX
    ensures Outcomes(Sampled(c), EnlargingEnd()) == Cons(SetOutcome(true), Cons(RateOutcome(Some(c as real / 3.0)), []))
  {
    EnlargedWithSample(c, Sampled(c));
    EndsWith(Sampled(c), Sampled(c).(currentWindow := 3), RateOutcome(Some(c as real / 3.0)));
  }

  lemma EndsWithoutSample()
    ensures Outcomes(Erased(), EnlargingEnd()) == Cons(SetOutcome(true), Cons(RateOutcome(None), []))
  {
    EnlargedWithoutSample(Erased());
    EndsWith(Erased(), Erased().(currentWindow := 3), RateOutcome(None));
  }

  lemma EndsWith(w: Window, v: Window, rate: Outcome)
    requires WellFormed(w) && WellFormed(v)
    requires Apply(w, SetWindowSizeOp(3, 1)) == (v, SetOutcome(true)) && Apply(v, RateOp(2)).1 == rate
    ensures Outcomes(w, EnlargingEnd()) == Cons(SetOutcome(true), Cons(rate, []))
  {
    OutcomesEnd(Apply(v, RateOp(2)).0);
    hide Apply, WellFormed, AllNonNegative, Outcomes, Cons;
    OutcomesStep(v, RateOp(2), []);
    OutcomesStep(w, SetWindowSizeOp(3, 1), Cons(RateOp(2), []));
  }

  lemma SampledThenErased(c: nat)
    requires c < INT64_MAX
    ensures var f := Fresh(3).(currentWindow := 1);
            WellFormed(Fresh(3)) && Apply(Fresh(3), SetWindowSizeOp(1, 0)) == (f, SetOutcome(true))
            && WellFormed(f) && Apply(f, UpdateOp(c, 0)) == (Sampled(c), Silent)
    ensures Apply(Sampled(c), RateOp(1)) == (Erased(), RateOutcome(None))
  {
    SampledAtZero(c, Sampled(c));
    ErasedAtOne(c);
    hide DropBuckets;
    assert !Initialized(Fresh(3));
    assert AfterErase(Sampled(c), 1) == Erased();
    hide Total;
  }

  lemma ErasedAtOne(c: nat)
    requires c < INT64_MAX
    ensures AfterErase(Sampled(c), 1) == Erased()
  {
    assert DropOldest(Sampled(c)) == Erased();
    assert DropBuckets(Erased(), 1) == Erased();
    hide DropOldest, Apply, Total;
  }

  lemma SampledAtZero(c: nat, w: Window)
    requires c < INT64_MAX && w == Window([Bucket(c, 1), EMPTY, EMPTY], c, false, 1, 0, 0, 3, 1)
    ensures Apply(Fresh(3).(currentWindow := 1), UpdateOp(c, 0)).0 == w
  {
    var f := Fresh(3).(currentWindow := 1);
    assert f.buckets == [EMPTY, EMPTY, EMPTY];
    assert Positioned(f, 0) == f.(oldestTime := 0);
    hide DropBuckets, EraseTo, AfterErase, Positioned, Fresh;
  }

  lemma EnlargedWithSample(c: nat, w: Window)
    requires c < INT64_MAX && w == Window([Bucket(c, 1), EMPTY, EMPTY], c, false, 1, 0, 0, 3, 1)
    ensures Apply(w, SetWindowSizeOp(3, 1)) == (w.(currentWindow := 3), SetOutcome(true))
    ensures Apply(w.(currentWindow := 3), RateOp(2)).1 == RateOutcome(Some(c as real / 3.0))
  {
    hide DropBuckets;
  }

  lemma EnlargedWithoutSample(e: Window)
    requires e == Window([EMPTY, EMPTY, EMPTY], 0, false, 0, 1, 1, 3, 1)
    ensures Apply(e, SetWindowSizeOp(3, 1)) == (e.(currentWindow := 3), SetOutcome(true))
    ensures Apply(e.(currentWindow := 3), RateOp(2)).1 == RateOutcome(None)
  {
    hide DropBuckets;
  }
}
