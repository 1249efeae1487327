/** The circular array of a rate counter, against the list of samples that it summarises. */
module RateStatisticsModel {
  import opened Options

  const INT64_MAX := 0x7FFF_FFFF_FFFF_FFFF

  datatype Bucket = Bucket(sum: int, samples: int)

  const EMPTY := Bucket(0, 0)

  /** The fields of a counter. A start time of minus the largest window means that no sample
      has arrived since construction or Reset. */
  datatype Window = Window(
    buckets: seq<Bucket>,
    accumulated: int,
    overflow: bool,
    numSamples: int,
    oldestTime: int,
    oldestIndex: nat,
    maxWindow: nat,
    currentWindow: nat)

  predicate WellFormed(w: Window) {
    1 <= w.currentWindow <= w.maxWindow == |w.buckets| && w.oldestIndex < w.maxWindow && w.oldestTime >= 0 - w.maxWindow
  }

  predicate Initialized(w: Window) {
    w.oldestTime != 0 - w.maxWindow
  }

  function Fresh(maxWindow: nat): Window {
    Window(seq(maxWindow, _ => EMPTY), 0, false, 0, 0 - maxWindow, 0, maxWindow, maxWindow)
  }

  // ---- What the operations do ----

  function DropOldest(w: Window): Window
    requires WellFormed(w)
  {
    var bucket := w.buckets[w.oldestIndex];
    w.(accumulated := w.accumulated - bucket.sum,
       numSamples := w.numSamples - bucket.samples,
       buckets := w.buckets[w.oldestIndex := EMPTY],
       oldestIndex := if w.oldestIndex + 1 >= w.maxWindow then 0 else w.oldestIndex + 1,
       oldestTime := w.oldestTime + 1)
  }

  /** Drops buckets until the start is reached or no sample is left. */
  function DropBuckets(w: Window, start: int): (r: Window)
    requires WellFormed(w)
    ensures WellFormed(r) && r.maxWindow == w.maxWindow && r.currentWindow == w.currentWindow
    ensures r.overflow == w.overflow
    decreases start - w.oldestTime
  {
    if w.numSamples > 0 && w.oldestTime < start then DropBuckets(DropOldest(w), start) else w
  }

  function EraseTo(w: Window, start: int): (r: Window)
    requires WellFormed(w)
    ensures WellFormed(r) && r.maxWindow == w.maxWindow && r.currentWindow == w.currentWindow
    ensures r.oldestTime == if Initialized(w) && start > w.oldestTime then start else w.oldestTime
  {
    if !Initialized(w) || start <= w.oldestTime then w else DropBuckets(w, start).(oldestTime := start)
  }

  function AfterErase(w: Window, now: int): Window
    requires WellFormed(w)
  {
    EraseTo(w, now - w.currentWindow + 1)
  }

  /** The window after it has been moved for a sample, and started by the first one. */
  function Positioned(w: Window, now: int): (r: Window)
    requires WellFormed(w) && 0 <= now && w.oldestTime <= now
    ensures WellFormed(r) && r.oldestTime <= now < r.oldestTime + r.currentWindow && Initialized(r)
  {
    var moved := AfterErase(w, now);
    if Initialized(moved) then moved else moved.(oldestTime := now)
  }

  function Slot(w: Window, offset: nat): (i: nat)
    requires WellFormed(w) && offset < w.maxWindow
    ensures i < w.maxWindow
  {
    if w.oldestIndex + offset >= w.maxWindow then w.oldestIndex + offset - w.maxWindow else w.oldestIndex + offset
  }

  /** Adds a sample to the bucket at an offset from the start. */
  function Added(p: Window, count: nat, offset: nat): (r: Window)
    requires WellFormed(p) && offset < p.maxWindow
    ensures WellFormed(r)
  {
    var i := Slot(p, offset);
    var fits := INT64_MAX - p.accumulated > count;
    p.(buckets := p.buckets[i := Bucket(p.buckets[i].sum + count, p.buckets[i].samples + 1)],
       accumulated := if fits then p.accumulated + count else p.accumulated,
       overflow := p.overflow || !fits,
       numSamples := p.numSamples + 1)
  }

  function AfterUpdate(w: Window, count: nat, now: int): Window
    requires WellFormed(w) && 0 <= now
  {
    if now < w.oldestTime then w
    else
      var p := Positioned(w, now);
      Added(p, count, now - p.oldestTime)
  }

  /** The conversion of a 64-bit difference to a 32-bit int. */
  function ToInt32(x: int): int {
    (x + 0x8000_0000) % 0x1_0000_0000 - 0x8000_0000
  }

  lemma InInt32(x: int)
    requires -0x8000_0000 <= x < 0x8000_0000
    ensures ToInt32(x) == x
  {
  }

  /** The accumulated count and the active window that a rate is computed from, if there is
      one. */
  function Available(w: Window, now: int): (r: Option<(int, int)>)
    ensures r.Some? ==> r.value.1 > 1
  {
    var active := ToInt32(now - w.oldestTime + 1);
    if w.numSamples == 0 || active <= 1 || (w.numSamples <= 1 && active < w.currentWindow) || w.overflow
    then None
    else Some((w.accumulated, active))
  }

  function AfterSetWindowSize(w: Window, size: int, now: int): (Window, bool)
    requires WellFormed(w)
  {
    if size <= 0 || size > w.maxWindow then (w, false)
    else (AfterErase(w.(currentWindow := size), now), true)
  }

  lemma EraseMeans(w: Window, now: int)
    requires WellFormed(w)
    ensures var start := now - w.currentWindow + 1;
            AfterErase(w, now) ==
            if !Initialized(w) || start <= w.oldestTime then w else DropBuckets(w, start).(oldestTime := start)
  {
  }

  class RateStatistics {
    const buckets: array<Bucket>
    const maxWindowSize: nat
    var accumulatedCount: int
    var overflow: bool
    var numSamples: int
    var oldestTime: int
    var oldestIndex: nat
    var currentWindowSize: nat

    ghost function View(): Window
      reads this, buckets
    {
      Window(buckets[..], accumulatedCount, overflow, numSamples, oldestTime, oldestIndex, maxWindowSize,
             currentWindowSize)
    }

    ghost predicate Valid()
      reads this, buckets
    {
      WellFormed(View())
    }

    constructor (windowSize: nat)
      requires windowSize > 0
      ensures Valid() && fresh(buckets) && View() == Fresh(windowSize)
    {
      buckets := new Bucket[windowSize](_ => EMPTY);
      maxWindowSize := windowSize;
      accumulatedCount, overflow, numSamples := 0, false, 0;
      oldestTime, oldestIndex, currentWindowSize := 0 - windowSize, 0, windowSize;
      new;
      assert buckets[..] == Fresh(windowSize).buckets;
    }

    predicate IsInitialized()
      reads this
    {
      oldestTime != 0 - maxWindowSize
    }

    method Reset()
      requires Valid()
      modifies this, buckets
      ensures Valid() && View() == Fresh(maxWindowSize)
    {
      accumulatedCount, overflow, numSamples := 0, false, 0;
      oldestTime, oldestIndex, currentWindowSize := 0 - maxWindowSize, 0, maxWindowSize;
      for i := 0 to maxWindowSize
        invariant accumulatedCount == 0 && !overflow && numSamples == 0
        invariant oldestTime == 0 - maxWindowSize && oldestIndex == 0 && currentWindowSize == maxWindowSize
        invariant forall j :: 0 <= j < i ==> buckets[j] == EMPTY
      {
        buckets[i] := EMPTY;
      }
      assert buckets[..] == Fresh(maxWindowSize).buckets;
    }

    method EraseOld(now: int)
      requires Valid()
      modifies this, buckets
      ensures Valid() && View() == AfterErase(old(View()), now)
    {
      EraseMeans(View(), now);
      hide AfterErase, EraseTo, Fresh;
      if !IsInitialized() {
        return;
      }
      var newOldestTime := now - currentWindowSize + 1;
      if newOldestTime <= oldestTime {
        return;
      }
      while numSamples > 0 && oldestTime < newOldestTime
        invariant Valid() && oldestTime <= newOldestTime
        invariant DropBuckets(View(), newOldestTime) == DropBuckets(old(View()), newOldestTime)
        decreases newOldestTime - oldestTime
      {
        ghost var w := View();
        accumulatedCount := accumulatedCount - buckets[oldestIndex].sum;
        numSamples := numSamples - buckets[oldestIndex].samples;
        buckets[oldestIndex] := EMPTY;
        oldestIndex := oldestIndex + 1;
        if oldestIndex >= maxWindowSize {
          oldestIndex := 0;
        }
        oldestTime := oldestTime + 1;
        assert View() == DropOldest(w);
      }
      oldestTime := newOldestTime;
    }

    /** Adds a sample; one that is older than the window is ignored. */
    method Update(count: nat, now: int)
      requires Valid() && 0 <= now
      modifies this, buckets
      ensures Valid() && View() == AfterUpdate(old(View()), count, now)
    {
      if now < oldestTime {
        return;
      }
      EraseOld(now);
      if !IsInitialized() {
        oldestTime := now;
      }
      AddSample(count, now - oldestTime);
    }

    /** The second half of Update: adds the sample to its bucket. */
    method AddSample(count: nat, nowOffset: nat)
      requires Valid() && nowOffset < maxWindowSize
      modifies this, buckets
      ensures Valid() && View() == Added(old(View()), count, nowOffset)
    {
      var index := oldestIndex + nowOffset;
      if index >= maxWindowSize {
        index := index - maxWindowSize;
      }
      buckets[index] := Bucket(buckets[index].sum + count, buckets[index].samples + 1);
      assert buckets[..] == old(buckets[..])[index := buckets[index]];
      if INT64_MAX - accumulatedCount > count {
        accumulatedCount := accumulatedCount + count;
      } else {
        overflow := true;
      }
      numSamples := numSamples + 1;
    }

    /** Moves the window and tells what the rate is to be computed from. */
    method Rate(now: int) returns (r: Option<(int, int)>)
      requires Valid()
      modifies this, buckets
      ensures Valid() && View() == AfterErase(old(View()), now)
      ensures r == Available(View(), now)
    {
      EraseOld(now);
      var activeWindowSize := ToInt32(now - oldestTime + 1);
      if numSamples == 0 || activeWindowSize <= 1 || (numSamples <= 1 && activeWindowSize < currentWindowSize)
         || overflow {
        return None;
      }
      r := Some((accumulatedCount, activeWindowSize));
    }

    method SetWindowSize(windowSize: int, now: int) returns (ok: bool)
      requires Valid()
      modifies this, buckets
      ensures Valid() && (View(), ok) == AfterSetWindowSize(old(View()), windowSize, now)
    {
      if windowSize <= 0 || windowSize > maxWindowSize {
        return false;
      }
      currentWindowSize := windowSize;
      EraseOld(now);
      ok := true;
    }
  }

  // ---- The samples behind the buckets ----

  datatype Sample = Sample(count: nat, time: int)

  /** Sum and number of the samples with a time from a first to before a last instant. */
  function Total(log: seq<Sample>, first: int, last: int): (b: Bucket)
    ensures b.samples >= 0 && b.sum >= 0
    ensures b.samples == 0 ==> b == EMPTY
    ensures b.samples == 0 <==> forall x :: x in log ==> !(first <= x.time < last)
  {
    if log == [] then EMPTY
    else
      var x := log[|log| - 1];
      var rest := Total(log[..|log| - 1], first, last);
      assert log == log[..|log| - 1] + [x];
      if first <= x.time < last then Bucket(rest.sum + x.count, rest.samples + 1) else rest
  }

  lemma TotalAppend(log: seq<Sample>, x: Sample, first: int, last: int)
    ensures Total(log + [x], first, last) ==
            var rest := Total(log, first, last);
            if first <= x.time < last then Bucket(rest.sum + x.count, rest.samples + 1) else rest
  {
    assert (log + [x])[..|log|] == log;
  }

  lemma {:induction false} TotalSplit(log: seq<Sample>, a: int, b: int, c: int)
    requires a <= b <= c
    ensures Total(log, a, c) == Bucket(Total(log, a, b).sum + Total(log, b, c).sum,
                                       Total(log, a, b).samples + Total(log, b, c).samples)
  {
    if log != [] {
      TotalSplit(log[..|log| - 1], a, b, c);
    }
  }

  ghost predicate BucketsAgree(w: Window, log: seq<Sample>)
    requires WellFormed(w)
  {
    forall i :: 0 <= i < w.maxWindow ==>
      w.buckets[Slot(w, i)] == Total(log, w.oldestTime + i, w.oldestTime + i + 1)
  }

  /** The buckets hold exactly the samples of their own milliseconds, the counters all of
      them, and no sample lies beyond the array; the sum is exact until the first overflow. */
  ghost predicate Agrees(w: Window, log: seq<Sample>) {
    && WellFormed(w)
    && (!Initialized(w) ==> log == [] && !w.overflow && w.accumulated == 0 && w.numSamples == 0)
    && BucketsAgree(w, log)
    && (forall x :: x in log ==> x.time < w.oldestTime + w.maxWindow)
    && w.numSamples == Total(log, w.oldestTime, w.oldestTime + w.maxWindow).samples
    && (!w.overflow ==> w.accumulated == Total(log, w.oldestTime, w.oldestTime + w.maxWindow).sum)
  }

  lemma FreshAgrees(maxWindow: nat)
    requires maxWindow > 0
    ensures Agrees(Fresh(maxWindow), [])
  {
  }

  lemma DropOldestBuckets(w: Window, log: seq<Sample>)
    requires WellFormed(w) && Initialized(w) && BucketsAgree(w, log)
    requires forall x :: x in log ==> x.time < w.oldestTime + w.maxWindow
    ensures BucketsAgree(DropOldest(w), log)
  {
    hide Total;
    var d, o := DropOldest(w), w.oldestTime;
    forall i | 0 <= i < w.maxWindow
      ensures d.buckets[Slot(d, i)] == Total(log, d.oldestTime + i, d.oldestTime + i + 1)
    {
      if i < w.maxWindow - 1 {
        assert Slot(d, i) == Slot(w, i + 1) != w.oldestIndex;
        assert w.buckets[Slot(w, i + 1)] == Total(log, o + (i + 1), o + (i + 1) + 1);
      } else {
        assert Slot(d, i) == w.oldestIndex;
      }
    }
  }

  lemma DropOldestAgrees(w: Window, log: seq<Sample>)
    requires Agrees(w, log) && Initialized(w)
    ensures Agrees(DropOldest(w), log)
  {
    var o, m := w.oldestTime, w.maxWindow;
    assert w.buckets[w.oldestIndex] == w.buckets[Slot(w, 0)] == Total(log, o, o + 1);
    DropOldestBuckets(w, log);
    hide BucketsAgree;
    DropOldestTotals(log, o, o + m);
    hide Total;
  }

  lemma DropOldestTotals(log: seq<Sample>, o: int, end: int)
    requires o < end && forall x :: x in log ==> x.time < end
    ensures var rest, first, all := Total(log, o + 1, end + 1), Total(log, o, o + 1), Total(log, o, end);
            rest == Bucket(all.sum - first.sum, all.samples - first.samples)
  {
    assert Total(log, end, end + 1) == EMPTY;
    hide Total;
    TotalSplit(log, o, o + 1, end);
    TotalSplit(log, o + 1, end, end + 1);
  }

  /** Once no sample is left, the start may jump: all buckets are empty, wherever they begin. */
  lemma JumpAgrees(w: Window, log: seq<Sample>, start: int)
    requires Agrees(w, log) && Initialized(w) && w.numSamples == 0 && start >= w.oldestTime
    ensures Agrees(w.(oldestTime := start), log)
  {
    var r := w.(oldestTime := start);
    assert forall x :: x in log ==> x.time < w.oldestTime;
    forall i | 0 <= i < w.maxWindow
      ensures r.buckets[Slot(r, i)] == Total(log, start + i, start + i + 1)
    {
      assert w.buckets[Slot(w, i)] == Total(log, w.oldestTime + i, w.oldestTime + i + 1);
    }
  }

  lemma {:induction false} DropBucketsAgrees(w: Window, log: seq<Sample>, start: int)
    requires Agrees(w, log) && Initialized(w) && w.oldestTime <= start
    ensures Agrees(DropBuckets(w, start).(oldestTime := start), log)
    decreases start - w.oldestTime
  {
    if w.numSamples > 0 && w.oldestTime < start {
      DropOldestAgrees(w, log);
      DropBucketsAgrees(DropOldest(w), log, start);
    } else if w.numSamples == 0 {
      JumpAgrees(w, log, start);
    }
  }

  lemma EraseAgrees(w: Window, log: seq<Sample>, start: int)
    requires Agrees(w, log)
    ensures Agrees(EraseTo(w, start), log)
  {
    if Initialized(w) && start > w.oldestTime {
      DropBucketsAgrees(w, log, start);
    }
  }

  lemma PositionedAgrees(w: Window, log: seq<Sample>, now: int)
    requires Agrees(w, log) && 0 <= now && w.oldestTime <= now
    ensures Agrees(Positioned(w, now), log)
  {
    EraseAgrees(w, log, now - w.currentWindow + 1);
    var moved := AfterErase(w, now);
    if !Initialized(moved) {
      var p := moved.(oldestTime := now);
      forall i | 0 <= i < w.maxWindow
        ensures p.buckets[Slot(p, i)] == Total(log, now + i, now + i + 1)
      {
        assert moved.buckets[Slot(moved, i)] == Total(log, moved.oldestTime + i, moved.oldestTime + i + 1);
      }
    }
  }

  lemma AddAgrees(p: Window, log: seq<Sample>, x: Sample, u: Window)
    requires Agrees(p, log) && Initialized(p) && p.oldestTime <= x.time < p.oldestTime + p.maxWindow
    requires var i := Slot(p, x.time - p.oldestTime);
             u == p.(buckets := p.buckets[i := Bucket(p.buckets[i].sum + x.count, p.buckets[i].samples + 1)],
                     accumulated := u.accumulated, overflow := u.overflow, numSamples := p.numSamples + 1)
    requires !u.overflow ==> !p.overflow && u.accumulated == p.accumulated + x.count
    ensures Agrees(u, log + [x])
  {
    hide Total;
    TotalAppend(log, x, p.oldestTime, p.oldestTime + p.maxWindow);
    forall i | 0 <= i < p.maxWindow
      ensures u.buckets[Slot(u, i)] == Total(log + [x], u.oldestTime + i, u.oldestTime + i + 1)
    {
      assert p.buckets[Slot(p, i)] == Total(log, p.oldestTime + i, p.oldestTime + i + 1);
      TotalAppend(log, x, p.oldestTime + i, p.oldestTime + i + 1);
    }
  }

  lemma UpdateAgrees(w: Window, log: seq<Sample>, count: nat, now: int)
    requires Agrees(w, log) && 0 <= now
    ensures Agrees(AfterUpdate(w, count, now), if now < w.oldestTime then log else log + [Sample(count, now)])
  {
    assert WellFormed(w);
    hide Agrees, EraseTo;
    if now >= w.oldestTime {
      PositionedAgrees(w, log, now);
      AddAgrees(Positioned(w, now), log, Sample(count, now), AfterUpdate(w, count, now));
    }
  }

  lemma RateAgrees(w: Window, log: seq<Sample>, now: int)
    requires Agrees(w, log)
    ensures Agrees(AfterErase(w, now), log)
  {
    EraseAgrees(w, log, now - w.currentWindow + 1);
  }

  lemma ResizeAgrees(w: Window, log: seq<Sample>, size: int, now: int)
    requires Agrees(w, log)
    ensures Agrees(AfterSetWindowSize(w, size, now).0, log)
  {
    hide Total;
    if 0 < size <= w.maxWindow {
      var resized := w.(currentWindow := size);
      assert forall i :: 0 <= i < w.maxWindow ==> Slot(resized, i) == Slot(w, i);
      EraseAgrees(resized, log, now - size + 1);
    }
  }

  // ---- Whole runs ----

  datatype Op =
    | UpdateOp(count: nat, now: int)
    | RateOp(now: int)
    | SetWindowSizeOp(size: int, now: int)
    | ResetOp

  /** What a caller sees of one operation; of a rate, the count per millisecond. */
  datatype Outcome = Silent | RateOutcome(rate: Option<real>) | SetOutcome(ok: bool)

  function Quotient(r: Option<(int, int)>): Option<real>
    requires r.Some? ==> r.value.1 > 1
  {
    if r.Some? then Some(r.value.0 as real / r.value.1 as real) else None
  }

  predicate NonNegativeTime(op: Op) {
    match op
    case UpdateOp(_, now) => 0 <= now
    case RateOp(now) => 0 <= now
    case SetWindowSizeOp(_, now) => 0 <= now
    case ResetOp => true
  }

  function Apply(w: Window, op: Op): (Window, Outcome)
    requires WellFormed(w) && NonNegativeTime(op)
    ensures WellFormed(Apply(w, op).0) && Apply(w, op).0.maxWindow == w.maxWindow
  {
    match op
    case UpdateOp(count, now) => (AfterUpdate(w, count, now), Silent)
    case RateOp(now) => (AfterErase(w, now), RateOutcome(Quotient(Available(AfterErase(w, now), now))))
    case SetWindowSizeOp(size, now) =>
      var (r, ok) := AfterSetWindowSize(w, size, now);
      (r, SetOutcome(ok))
    case ResetOp => (Fresh(w.maxWindow), Silent)
  }

  /** The accepted samples since the last reset. */
  function Logged(w: Window, log: seq<Sample>, op: Op): seq<Sample> {
    match op
    case UpdateOp(count, now) => if now < w.oldestTime then log else log + [Sample(count, now)]
    case ResetOp => []
    case _ => log
  }

  ghost predicate AllNonNegative(ops: seq<Op>) {
    forall i :: 0 <= i < |ops| ==> NonNegativeTime(ops[i])
  }

  ghost function RunWindow(w: Window, ops: seq<Op>): (r: Window)
    requires WellFormed(w) && AllNonNegative(ops)
    ensures WellFormed(r) && r.maxWindow == w.maxWindow
  {
    if ops == [] then w else Apply(RunWindow(w, ops[..|ops| - 1]), ops[|ops| - 1]).0
  }

  ghost function RunLog(w: Window, ops: seq<Op>): seq<Sample>
    requires WellFormed(w) && AllNonNegative(ops)
  {
    if ops == [] then []
    else Logged(RunWindow(w, ops[..|ops| - 1]), RunLog(w, ops[..|ops| - 1]), ops[|ops| - 1])
  }

  /** After every run with non-negative times the buckets and counters agree with the
      samples that were accepted. */
  lemma {:induction false} RunAgrees(maxWindow: nat, ops: seq<Op>)
    requires maxWindow > 0 && AllNonNegative(ops)
    ensures Agrees(RunWindow(Fresh(maxWindow), ops), RunLog(Fresh(maxWindow), ops))
    decreases |ops|
  {
    if ops == [] {
      FreshAgrees(maxWindow);
    } else {
      var before, op := ops[..|ops| - 1], ops[|ops| - 1];
      RunAgrees(maxWindow, before);
      var w, log := RunWindow(Fresh(maxWindow), before), RunLog(Fresh(maxWindow), before);
      hide Agrees, AfterUpdate, AfterErase, AfterSetWindowSize, WellFormed;
      match op
      case UpdateOp(count, now) => UpdateAgrees(w, log, count, now);
      case RateOp(now) => RateAgrees(w, log, now);
      case SetWindowSizeOp(size, now) => ResizeAgrees(w, log, size, now);
      case ResetOp => FreshAgrees(maxWindow);
    }
  }

  // ---- Non-decreasing times and a fixed window: the plain sliding sum ----

  ghost predicate Sliding(ops: seq<Op>) {
    && (forall i :: 0 <= i < |ops| ==> (ops[i].UpdateOp? || ops[i].RateOp?) && NonNegativeTime(ops[i]))
    && (forall i, j :: 0 <= i < j < |ops| ==> ops[i].now <= ops[j].now)
  }

  /** Every sample that was offered, whether accepted or not. */
  function Offered(ops: seq<Op>): seq<Sample> {
    if ops == [] then []
    else
      var rest, op := Offered(ops[..|ops| - 1]), ops[|ops| - 1];
      if op.UpdateOp? then rest + [Sample(op.count, op.now)] else rest
  }

  /** The window starts no later than the last operation, no sample is newer, and none that is
      still within the current window has been dropped. */
  ghost predicate Current(w: Window, log: seq<Sample>, last: int) {
    Agrees(w, log) &&
    (Initialized(w) ==>
       && last - w.currentWindow + 1 <= w.oldestTime <= last
       && (forall x :: x in log ==> x.time <= last)
       && Total(log, last - w.currentWindow + 1, w.oldestTime) == EMPTY)
  }

  /** Moving on in time keeps what the new window needs. */
  lemma EraseStaysCurrent(w: Window, log: seq<Sample>, last: int, now: int)
    requires Current(w, log, last) && last <= now
    ensures Current(AfterErase(w, now), log, now)
  {
    RateAgrees(w, log, now);
    hide DropBuckets;
  }

  lemma UpdateStaysCurrent(w: Window, log: seq<Sample>, last: int, count: nat, now: int)
    requires Current(w, log, last) && last <= now && 0 <= now
    ensures Initialized(w) ==> now >= w.oldestTime
    ensures Current(AfterUpdate(w, count, now), log + [Sample(count, now)], now)
  {
    EraseStaysCurrent(w, log, last, now);
    assert now >= w.oldestTime;
    UpdateAgrees(w, log, count, now);
    var u := AfterUpdate(w, count, now);
    TotalAppend(log, Sample(count, now), now - u.currentWindow + 1, u.oldestTime);
    hide DropBuckets, Total;
  }

  /** A run of updates and rates alone, with a window of a fixed size. */
  ghost function SlidingRun(maxWindow: nat, window: nat, ops: seq<Op>): (w: Window)
    requires 1 <= window <= maxWindow && Sliding(ops)
    ensures WellFormed(w)
  {
    RunWindow(Fresh(maxWindow).(currentWindow := window), ops)
  }

  lemma {:induction false} SlidingRunIsCurrent(maxWindow: nat, window: nat, ops: seq<Op>)
    requires 1 <= window <= maxWindow && Sliding(ops)
    ensures var w := SlidingRun(maxWindow, window, ops);
            w.currentWindow == window
            && Current(w, Offered(ops), if ops == [] then 0 else ops[|ops| - 1].now)
    decreases |ops|
  {
    if ops != [] {
      var before, op := ops[..|ops| - 1], ops[|ops| - 1];
      SlidingRunIsCurrent(maxWindow, window, before);
      var w := SlidingRun(maxWindow, window, before);
      var last := if before == [] then 0 else before[|before| - 1].now;
      hide Current, AfterUpdate, AfterErase;
      match op
      case UpdateOp(count, now) => UpdateStaysCurrent(w, Offered(before), last, count, now);
      case RateOp(now) => EraseStaysCurrent(w, Offered(before), last, now);
    } else {
      FreshAgrees(maxWindow);
    }
  }

  /** With a monotonic clock and a fixed window, the counters behind a rate are the sum and
      number of all samples offered in the half-open interval from now - window to now. */
  lemma RateIsTheSlidingSum(maxWindow: nat, window: nat, ops: seq<Op>, now: int)
    requires 1 <= window <= maxWindow && Sliding(ops + [RateOp(now)])
    ensures var w := SlidingRun(maxWindow, window, ops + [RateOp(now)]);
            var total := Total(Offered(ops), now - window + 1, now + 1);
            w.numSamples == total.samples && (!w.overflow ==> w.accumulated == total.sum)
  {
    RateLeavesCurrent(maxWindow, window, ops, now);
    hide *;
    CurrentTotal(SlidingRun(maxWindow, window, ops + [RateOp(now)]), Offered(ops), now);
  }

  lemma RateLeavesCurrent(maxWindow: nat, window: nat, ops: seq<Op>, now: int)
    requires 1 <= window <= maxWindow && Sliding(ops + [RateOp(now)])
    ensures var w := SlidingRun(maxWindow, window, ops + [RateOp(now)]);
            w.currentWindow == window && Current(w, Offered(ops), now)
  {
    var all := ops + [RateOp(now)];
    SlidingRunIsCurrent(maxWindow, window, all);
    hide Current, SlidingRun;
    assert all[..|all| - 1] == ops;
  }

  lemma CurrentTotal(w: Window, log: seq<Sample>, now: int)
    requires Current(w, log, now)
    ensures var total := Total(log, now - w.currentWindow + 1, now + 1);
            w.numSamples == total.samples && (!w.overflow ==> w.accumulated == total.sum)
  {
    hide BucketsAgree;
    if Initialized(w) {
      TotalSplit(log, now - w.currentWindow + 1, w.oldestTime, now + 1);
      TotalSplit(log, w.oldestTime, now + 1, w.oldestTime + w.maxWindow);
    }
  }

  /** Once the count has overflowed there is no rate until the next Reset. */
  lemma OverflowLasts(w: Window, op: Op)
    requires WellFormed(w) && NonNegativeTime(op) && w.overflow && !op.ResetOp?
    ensures Apply(w, op).0.overflow && (op.RateOp? ==> Apply(w, op).1 == RateOutcome(None))
  {
    hide DropBuckets;
  }

  /** Where the window of a sliding run starts: at its first sample, until that is too old. */
  lemma {:induction false} SlidingStart(maxWindow: nat, window: nat, ops: seq<Op>)
    requires 1 <= window <= maxWindow && Sliding(ops)
    ensures var w, log := SlidingRun(maxWindow, window, ops), Offered(ops);
            w.currentWindow == window && w.maxWindow == maxWindow && (Initialized(w) <==> log != [])
            && (log != [] ==> ops != [] && 0 <= log[0].time <= ops[|ops| - 1].now
                              && w.oldestTime == Max(log[0].time, ops[|ops| - 1].now - window + 1))
    decreases |ops|
  {
    if ops != [] {
      var before := ops[..|ops| - 1];
      SlidingStart(maxWindow, window, before);
      assert before != [] ==> before[|before| - 1] == ops[|ops| - 2];
      StartMoves(SlidingRun(maxWindow, window, before), ops[|ops| - 1]);
    }
    hide Apply, Max, WellFormed;
  }

  function Max(a: int, b: int): int {
    if a < b then b else a
  }

  lemma StartMoves(w: Window, op: Op)
    requires WellFormed(w) && NonNegativeTime(op) && (op.UpdateOp? || op.RateOp?)
    requires Initialized(w) ==> 0 <= w.oldestTime <= op.now
    ensures var r := Apply(w, op).0;
            r.currentWindow == w.currentWindow && r.maxWindow == w.maxWindow
            && r.oldestTime == if Initialized(w) then Max(w.oldestTime, op.now - w.currentWindow + 1)
                               else if op.UpdateOp? then op.now else w.oldestTime
  {
    hide DropBuckets;
  }

  /** With a monotonic clock and a fixed window W, a rate is available if and only if (now - W, now]
      holds a sample, more than a millisecond has passed since the very first sample, the samples
      are at least two unless the run is as old as the window, and nothing has overflowed. It is
      computed from the sum over (now - W, now] and the age of the run, W at most. */
  lemma RateOfSlidingRun(maxWindow: nat, window: nat, ops: seq<Op>, now: int)
    requires 1 <= window <= maxWindow < 0x8000_0000 && Sliding(ops + [RateOp(now)])
    ensures var w, log := SlidingRun(maxWindow, window, ops + [RateOp(now)]), Offered(ops);
            var total := Total(log, now - window + 1, now + 1);
            if log == [] then Available(w, now) == None
            else
              var active := Min(window, now - log[0].time + 1);
              Available(w, now) ==
                if total.samples == 0 || active <= 1 || (total.samples == 1 && active < window) || w.overflow
                then None else Some((total.sum, active))
  {
    var all := ops + [RateOp(now)];
    RateIsTheSlidingSum(maxWindow, window, ops, now);
    SlidingStart(maxWindow, window, all);
    assert Offered(all) == Offered(ops) by {
      assert all[..|all| - 1] == ops;
    }
    if Offered(ops) != [] {
      InInt32(now - SlidingRun(maxWindow, window, all).oldestTime + 1);
    }
    hide SlidingRun, Offered, ToInt32, Sliding;
  }

  function Min(a: int, b: int): int {
    if a < b then a else b
  }
}
