/** A fixed-size ring shared by one producer and one consumer without a lock. */
module SwapQueues {
  /** An index that may have run once past the end of the ring. */
  function Wrap(i: nat, size: nat): (r: nat)
    requires i < 2 * size
    ensures r < size
  {
    if i >= size then i - size else i
  }

  /** n items of a ring of slots, from one slot on. */
  function Ring<T>(slots: seq<T>, from: nat, n: nat): (s: seq<T>)
    requires from < |slots| && n <= |slots|
    ensures |s| == n && forall i :: 0 <= i < n ==> s[i] == slots[Wrap(from + i, |slots|)]
  {
    seq(n, i requires 0 <= i < n => slots[Wrap(from + i, |slots|)])
  }

  lemma RingGrows<T>(slots: seq<T>, from: nat, n: nat, item: T)
    requires from < |slots| && n < |slots|
    ensures Ring(slots[Wrap(from + n, |slots|) := item], from, n + 1) == Ring(slots, from, n) + [item]
  {
  }

  lemma RingShrinks<T>(slots: seq<T>, from: nat, n: nat, item: T)
    requires from < |slots| && 0 < n <= |slots|
    ensures Ring(slots[from := item], Wrap(from + 1, |slots|), n - 1) == Ring(slots, from, n)[1..]
  {
  }

  lemma SwapConserves<T>(slots: seq<T>, i: nat, hand: T)
    requires i < |slots|
    ensures multiset(slots[i := hand]) + multiset{slots[i]} == multiset(slots) + multiset{hand}
  {
  }

  // ---- The queue used by one thread at a time ----

  class SwapQueue<T(0)> {
    const queue: array<T>
    var nextWriteIndex: nat
    var nextReadIndex: nat
    var numElements: nat

    ghost predicate Valid()
      reads this, queue
    {
      && queue.Length > 0 && numElements <= queue.Length
      && nextReadIndex < queue.Length && nextWriteIndex < queue.Length
      && nextWriteIndex == Wrap(nextReadIndex + numElements, queue.Length)
    }

    /** The items in the queue, the next one to be removed first. */
    ghost function Contents(): (s: seq<T>)
      reads this, queue
      requires Valid()
      ensures |s| == numElements
    {
      Ring(queue[..], nextReadIndex, numElements)
    }

    constructor (size: nat, prototype: T)
      requires size > 0
      ensures Valid() && fresh(queue) && Contents() == [] && queue.Length == size
      ensures forall i :: 0 <= i < size ==> queue[i] == prototype
    {
      queue := new T[size](_ => prototype);
      nextWriteIndex, nextReadIndex, numElements := 0, 0, 0;
    }

    method Clear()
      requires Valid()
      modifies this
      ensures Valid() && Contents() == []
    {
      nextReadIndex := nextReadIndex + numElements;
      numElements := 0;
      if nextReadIndex >= queue.Length {
        nextReadIndex := nextReadIndex - queue.Length;
      }
    }

    /** Appends the input unless the queue is full, and hands an unused item back. */
    method Insert(input: T) returns (ok: bool, output: T)
      requires Valid()
      modifies this, queue
      ensures Valid() && ok == (old(|Contents()|) < queue.Length)
      ensures Contents() == if ok then old(Contents()) + [input] else old(Contents())
      ensures multiset(queue[..]) + multiset{output} == old(multiset(queue[..])) + multiset{input}
    {
      if numElements == queue.Length {
        return false, input;
      }
      ghost var before := queue[..];
      RingGrows(before, nextReadIndex, numElements, input);
      SwapConserves(before, nextWriteIndex, input);
      hide Ring;
      output := queue[nextWriteIndex];
      queue[nextWriteIndex] := input;
      assert queue[..] == before[nextWriteIndex := input];
      numElements := numElements + 1;
      nextWriteIndex := nextWriteIndex + 1;
      if nextWriteIndex == queue.Length {
        nextWriteIndex := 0;
      }
      ok := true;
    }

    /** Takes the front item, if any, and leaves the input in its place. */
    method Remove(input: T) returns (ok: bool, output: T)
      requires Valid()
      modifies this, queue
      ensures Valid() && ok == (old(Contents()) != [])
      ensures Contents() == if ok then old(Contents())[1..] else old(Contents())
      ensures output == if ok then old(Contents())[0] else input
      ensures multiset(queue[..]) + multiset{output} == old(multiset(queue[..])) + multiset{input}
    {
      if numElements == 0 {
        return false, input;
      }
      ghost var before := queue[..];
      assert Contents()[0] == queue[nextReadIndex];
      RingShrinks(before, nextReadIndex, numElements, input);
      SwapConserves(before, nextReadIndex, input);
      hide Ring;
      output := queue[nextReadIndex];
      queue[nextReadIndex] := input;
      assert queue[..] == before[nextReadIndex := input];
      numElements := numElements - 1;
      nextReadIndex := nextReadIndex + 1;
      if nextReadIndex == queue.Length {
        nextReadIndex := 0;
      }
      ok := true;
    }

    function SizeAtLeast(): (n: nat)
      reads this, queue
      requires Valid()
      ensures n == |Contents()|
    {
      numElements
    }
  }

  // ---- The queue under concurrency, one atomic step at a time ----
  //
  // Items move by swapping, the shared count is updated before the private index moves on, and
  // the consumer may clear the queue in the middle of an insertion.

  /** Where the producer is in Insert. Before the swap the item is in its hand, then in the
      slot; only after the count has been raised is the item in the queue. */
  datatype Producer<T> = Idle | Loaded(item: T) | Swapped(item: T) | Added

  /** Where the consumer is in Remove or Clear. */
  datatype Consumer = Resting | Seen | Taken | Subtracted | Exchanged(dropped: nat)

  datatype Fate = Delivered | Dropped

  /** The shared and private variables and the two hands, then the history: every item whose
      count was raised, what became of those no longer counted, and what the consumer got. */
  datatype State<T> = State(
    slots: seq<T>,
    numElements: nat,
    writeIndex: nat,
    readIndex: nat,
    producer: Producer<T>,
    consumer: Consumer,
    producerHand: T,
    consumerHand: T,
    inserted: seq<T>,
    fates: seq<Fate>,
    received: seq<T>)

  datatype Step<T> =
    | ProducerFills(item: T)
    | InsertLoad
    | InsertSwap
    | InsertAdd
    | InsertAdvance
    | ConsumerEmpties(item: T)
    | RemoveLoad
    | RemoveSwap
    | RemoveSubtract
    | RemoveAdvance
    | ClearExchange
    | ClearAdvance

  function Advance(index: nat, steps: nat, size: nat): nat {
    if index + steps >= size then index + steps - size else index + steps
  }

  function DroppedFates(n: nat): seq<Fate> {
    seq(n, _ => Dropped)
  }

  /** The steps of Insert; a full queue makes it return at once. */
  ghost predicate ProducerNext<T>(s: State<T>, step: Step<T>, s': State<T>) {
    match step
    case ProducerFills(item) =>
      s.producer.Idle? && s' == s.(producerHand := item)
    case InsertLoad =>
      s.producer.Idle?
      && s' == if s.numElements == |s.slots| then s else s.(producer := Loaded(s.producerHand))
    case InsertSwap =>
      s.producer.Loaded? && s.writeIndex < |s.slots|
      && s' == s.(slots := s.slots[s.writeIndex := s.producerHand], producerHand := s.slots[s.writeIndex],
                  producer := Swapped(s.producer.item))
    case InsertAdd =>
      s.producer.Swapped? && s.writeIndex < |s.slots|
      && s' == s.(numElements := s.numElements + 1, producer := Added,
                  inserted := s.inserted + [s.slots[s.writeIndex]])
    case InsertAdvance =>
      s.producer.Added?
      && s' == s.(writeIndex := if s.writeIndex + 1 == |s.slots| then 0 else s.writeIndex + 1, producer := Idle)
    case _ => false
  }

  /** The steps of Remove and Clear; an empty queue makes Remove return at once. */
  ghost predicate ConsumerNext<T>(s: State<T>, step: Step<T>, s': State<T>) {
    match step
    case ConsumerEmpties(item) =>
      s.consumer.Resting? && s' == s.(consumerHand := item)
    case RemoveLoad =>
      s.consumer.Resting? && s' == if s.numElements == 0 then s else s.(consumer := Seen)
    case RemoveSwap =>
      s.consumer.Seen? && s.readIndex < |s.slots|
      && s' == s.(slots := s.slots[s.readIndex := s.consumerHand], consumerHand := s.slots[s.readIndex],
                  consumer := Taken)
    case RemoveSubtract =>
      s.consumer.Taken? && s.numElements > 0
      && s' == s.(numElements := s.numElements - 1, consumer := Subtracted,
                  fates := s.fates + [Delivered], received := s.received + [s.consumerHand])
    case RemoveAdvance =>
      s.consumer.Subtracted?
      && s' == s.(readIndex := if s.readIndex + 1 == |s.slots| then 0 else s.readIndex + 1, consumer := Resting)
    case ClearExchange =>
      s.consumer.Resting?
      && s' == s.(numElements := 0, consumer := Exchanged(s.numElements),
                  fates := s.fates + DroppedFates(s.numElements))
    case ClearAdvance =>
      s.consumer.Exchanged?
      && s' == s.(readIndex := Advance(s.readIndex, s.consumer.dropped, |s.slots|), consumer := Resting)
    case _ => false
  }

  ghost predicate Next<T>(s: State<T>, step: Step<T>, s': State<T>) {
    ProducerNext(s, step, s') || ConsumerNext(s, step, s')
  }

  ghost predicate Initial<T>(s: State<T>) {
    && |s.slots| > 0 && s.numElements == 0 && s.writeIndex == 0 && s.readIndex == 0
    && s.producer.Idle? && s.consumer.Resting?
    && s.inserted == [] && s.fates == [] && s.received == []
  }

  ghost predicate IsRun<T>(run: seq<State<T>>, steps: seq<Step<T>>) {
    |run| == |steps| + 1 && Initial(run[0])
    && forall i :: 0 <= i < |steps| ==> Next(run[i], steps[i], run[i + 1])
  }

  // ---- The invariant ----

  /** How far the consumer's index lags behind the count. */
  function Lag(c: Consumer): nat {
    match c
    case Subtracted => 1
    case Exchanged(dropped) => dropped
    case _ => 0
  }

  /** The slot of the oldest counted item. */
  function Front<T>(s: State<T>): (f: nat)
    requires s.readIndex + Lag(s.consumer) < 2 * |s.slots|
    ensures f < |s.slots|
  {
    Wrap(s.readIndex + Lag(s.consumer), |s.slots|)
  }

  /** With the items of a ring from one index on, the next item goes to the other one, or has
      been added there already. */
  predicate InStep(size: nat, n: nat, write: nat, read: nat, lag: nat, added: bool) {
    && n <= size && write < size && read < size && lag <= size
    && Wrap(write + (if added then 1 else 0), size) == Wrap(Wrap(read + lag, size) + n, size)
  }

  ghost predicate IndicesAgree<T>(s: State<T>) {
    && InStep(|s.slots|, s.numElements, s.writeIndex, s.readIndex, Lag(s.consumer), s.producer.Added?)
    && (s.producer.Loaded? || s.producer.Swapped? ==> s.numElements < |s.slots|)
    && (s.consumer.Seen? || s.consumer.Taken? ==> s.numElements > 0)
  }

  /** The items that are in the queue. */
  function Queued<T>(s: State<T>): seq<T>
    requires |s.fates| <= |s.inserted|
  {
    s.inserted[|s.fates|..]
  }

  /** Every counted item is in its slot, but for the one in the consumer's hand; an item on its
      way in is in the producer's hand or in the next slot. */
  ghost predicate SlotsAgree<T>(s: State<T>)
    requires IndicesAgree(s)
  {
    && |s.fates| + s.numElements == |s.inserted|
    && (forall i :: (if s.consumer.Taken? then 1 else 0) <= i < s.numElements ==>
          s.slots[Wrap(Front(s) + i, |s.slots|)] == Queued(s)[i])
    && (s.consumer.Taken? ==> s.consumerHand == Queued(s)[0])
    && (s.producer.Loaded? ==> s.producerHand == s.producer.item)
    && (s.producer.Swapped? ==> s.slots[s.writeIndex] == s.producer.item)
  }

  /** The items that were delivered, in the order of insertion. */
  function DeliveredItems<T>(inserted: seq<T>, fates: seq<Fate>): seq<T>
    requires |fates| <= |inserted|
  {
    if fates == [] then []
    else
      var n := |fates| - 1;
      DeliveredItems(inserted, fates[..n]) + if fates[n].Delivered? then [inserted[n]] else []
  }

  ghost predicate Invariant<T>(s: State<T>) {
    IndicesAgree(s) && SlotsAgree(s) && s.received == DeliveredItems(s.inserted, s.fates)
  }

  lemma {:induction false} DeliveredOfPrefix<T>(inserted: seq<T>, more: seq<T>, fates: seq<Fate>)
    requires |fates| <= |inserted|
    ensures DeliveredItems(inserted + more, fates) == DeliveredItems(inserted, fates)
    decreases |fates|
  {
    if fates != [] {
      DeliveredOfPrefix(inserted, more, fates[..|fates| - 1]);
    }
  }

  lemma {:induction false} DroppingDeliversNothing<T>(inserted: seq<T>, fates: seq<Fate>, n: nat)
    requires |fates| + n <= |inserted|
    ensures DeliveredItems(inserted, fates + DroppedFates(n)) == DeliveredItems(inserted, fates)
  {
    if n == 0 {
      assert fates + DroppedFates(0) == fates;
    } else {
      assert (fates + DroppedFates(n))[..|fates| + n - 1] == fates + DroppedFates(n - 1);
      DroppingDeliversNothing(inserted, fates, n - 1);
    }
  }

  lemma WriterAdvances(size: nat, n: nat, write: nat, read: nat, lag: nat)
    requires InStep(size, n, write, read, lag, true)
    ensures InStep(size, n, if write + 1 == size then 0 else write + 1, read, lag, false)
  {
  }

  lemma WriterAdds(size: nat, n: nat, write: nat, read: nat, lag: nat)
    requires InStep(size, n, write, read, lag, false) && n < size
    ensures InStep(size, n + 1, write, read, lag, true)
  {
  }

  lemma ReaderTakes(size: nat, n: nat, write: nat, read: nat, added: bool)
    requires InStep(size, n, write, read, 0, added) && n > 0
    ensures InStep(size, n - 1, write, read, 1, added)
  {
  }

  lemma ReaderDrops(size: nat, n: nat, write: nat, read: nat, added: bool)
    requires InStep(size, n, write, read, 0, added)
    ensures InStep(size, 0, write, read, n, added)
  {
  }

  lemma ReaderAdvances(size: nat, n: nat, write: nat, read: nat, lag: nat, added: bool)
    requires InStep(size, n, write, read, lag, added)
    ensures InStep(size, n, write, Advance(read, lag, size), 0, added)
    ensures lag == 1 ==> Advance(read, lag, size) == if read + 1 == size then 0 else read + 1
  {
  }

  lemma ProducerStaysInStep<T>(s: State<T>, step: Step<T>, s': State<T>)
    requires IndicesAgree(s) && ProducerNext(s, step, s')
    ensures IndicesAgree(s') && |s'.slots| == |s.slots|
  {
    var size, n, write, read, lag := |s.slots|, s.numElements, s.writeIndex, s.readIndex, Lag(s.consumer);
    assert n <= size;
    hide InStep, Wrap, Lag;
    match step
    case InsertAdd => WriterAdds(size, n, write, read, lag);
    case InsertAdvance => WriterAdvances(size, n, write, read, lag);
    case _ =>
  }

  lemma ConsumerStaysInStep<T>(s: State<T>, step: Step<T>, s': State<T>)
    requires IndicesAgree(s) && ConsumerNext(s, step, s')
    ensures IndicesAgree(s') && |s'.slots| == |s.slots|
  {
    var size, n, write, read, lag := |s.slots|, s.numElements, s.writeIndex, s.readIndex, Lag(s.consumer);
    assert n <= size;
    hide InStep, Wrap, Advance;
    match step
    case RemoveSubtract => ReaderTakes(size, n, write, read, s.producer.Added?);
    case RemoveAdvance => ReaderAdvances(size, n, write, read, lag, s.producer.Added?);
    case ClearExchange => ReaderDrops(size, n, write, read, s.producer.Added?);
    case ClearAdvance => ReaderAdvances(size, n, write, read, lag, s.producer.Added?);
    case _ =>
  }

  /** The slot that the producer writes holds no counted item. */
  lemma InsertSwapKeepsSlots<T>(s: State<T>, s': State<T>)
    requires Invariant(s) && ProducerNext(s, InsertSwap, s') && IndicesAgree(s')
    ensures SlotsAgree(s')
  {
    assert Front(s') == Front(s) && s.numElements < |s.slots| && s.writeIndex < |s.slots|;
    hide DeliveredItems, IndicesAgree, Front, Wrap;
    forall i | (if s.consumer.Taken? then 1 else 0) <= i < s.numElements
      ensures s'.slots[Wrap(Front(s') + i, |s'.slots|)] == Queued(s')[i]
    {
      NextSlotIsFree(s, i);
      assert s.slots[Wrap(Front(s) + i, |s.slots|)] == Queued(s)[i];
    }
  }

  lemma NextSlotIsFree<T>(s: State<T>, i: nat)
    requires IndicesAgree(s) && s.producer.Loaded? && i < s.numElements
    ensures Wrap(Front(s) + i, |s.slots|) != s.writeIndex
  {
  }

  /** Raising the count appends the item in the slot behind the queued ones. */
  lemma InsertAddAppends<T>(s: State<T>, s': State<T>)
    requires Invariant(s) && ProducerNext(s, InsertAdd, s') && IndicesAgree(s')
    ensures SlotsAgree(s') && Queued(s') == Queued(s) + [s.producer.item]
  {
    hide DeliveredItems, Front, Wrap, InStep;
    AddKeepsFront(s, s');
    assert Queued(s') == Queued(s) + [s.producer.item];
    forall i | (if s.consumer.Taken? then 1 else 0) <= i < s'.numElements
      ensures s'.slots[Wrap(Front(s') + i, |s'.slots|)] == Queued(s')[i]
    {
      if i < s.numElements {
        assert s.slots[Wrap(Front(s) + i, |s.slots|)] == Queued(s)[i];
      }
    }
    hide IndicesAgree;
  }

  lemma AddKeepsFront<T>(s: State<T>, s': State<T>)
    requires IndicesAgree(s) && ProducerNext(s, InsertAdd, s') && IndicesAgree(s')
    ensures s.readIndex + Lag(s.consumer) < 2 * |s.slots| && s.numElements < |s.slots| && s.writeIndex < |s.slots|
    ensures s'.readIndex + Lag(s'.consumer) < 2 * |s'.slots| && Front(s') == Front(s)
    ensures Wrap(Front(s) + s.numElements, |s.slots|) == s.writeIndex
  {
  }

  /** Steps that touch neither slots nor count leave the counted items where they are. */
  lemma OtherStepsKeepSlots<T>(s: State<T>, step: Step<T>, s': State<T>)
    requires Invariant(s) && Next(s, step, s') && IndicesAgree(s')
    requires !step.InsertSwap? && !step.InsertAdd? && !step.RemoveSwap? && !step.RemoveSubtract? && !step.ClearExchange?
    ensures SlotsAgree(s')
  {
    OtherStepEffect(s, step, s');
    hide DeliveredItems, ProducerNext, ConsumerNext, IndicesAgree, Front;
    forall i | (if s.consumer.Taken? then 1 else 0) <= i < s.numElements
      ensures s'.slots[Wrap(Front(s') + i, |s'.slots|)] == Queued(s')[i]
    {
      assert s.slots[Wrap(Front(s) + i, |s.slots|)] == Queued(s)[i];
    }
  }

  lemma OtherStepEffect<T>(s: State<T>, step: Step<T>, s': State<T>)
    requires IndicesAgree(s) && Next(s, step, s') && IndicesAgree(s')
    requires !step.InsertSwap? && !step.InsertAdd? && !step.RemoveSwap? && !step.RemoveSubtract? && !step.ClearExchange?
    ensures Front(s') == Front(s) && s'.slots == s.slots && s'.numElements == s.numElements
    ensures s'.inserted == s.inserted && s'.fates == s.fates && s'.received == s.received
    ensures s'.consumer.Taken? == s.consumer.Taken? && (s.consumer.Taken? ==> s'.consumerHand == s.consumerHand)
    ensures s'.producer.Swapped? ==> s'.producer == s.producer && s'.writeIndex == s.writeIndex
    ensures s'.producer.Loaded? ==>
              s'.producerHand == s'.producer.item || (s'.producer == s.producer && s'.producerHand == s.producerHand)
  {
  }

  lemma StepKeepsSlots<T>(s: State<T>, step: Step<T>, s': State<T>)
    requires Invariant(s) && Next(s, step, s') && IndicesAgree(s')
    ensures SlotsAgree(s')
  {
    match step
    case InsertSwap => InsertSwapKeepsSlots(s, s');
    case InsertAdd => InsertAddAppends(s, s');
    case RemoveSwap => RemoveSwapKeepsSlots(s, s');
    case RemoveSubtract => RemoveSubtractTakes(s, s');
    case ClearExchange =>
    case _ => OtherStepsKeepSlots(s, step, s');
  }

  lemma StepKeepsDelivery<T>(s: State<T>, step: Step<T>, s': State<T>)
    requires Invariant(s) && Next(s, step, s')
    ensures |s'.fates| <= |s'.inserted| && s'.received == DeliveredItems(s'.inserted, s'.fates)
  {
    hide DeliveredItems, IndicesAgree;
    match step
    case InsertAdd => DeliveredOfPrefix(s.inserted, [s.slots[s.writeIndex]], s.fates);
    case RemoveSubtract => DeliveryDelivers(s.inserted, s.fates);
    case ClearExchange => DroppingDeliversNothing(s.inserted, s.fates, s.numElements);
    case _ =>
  }

  lemma DeliveryDelivers<T>(inserted: seq<T>, fates: seq<Fate>)
    requires |fates| < |inserted|
    ensures DeliveredItems(inserted, fates + [Delivered]) == DeliveredItems(inserted, fates) + [inserted[|fates|]]
  {
    assert (fates + [Delivered])[..|fates|] == fates;
  }

  /** The slot that the consumer writes is that of the oldest item, now in its hand. */
  lemma RemoveSwapKeepsSlots<T>(s: State<T>, s': State<T>)
    requires Invariant(s) && ConsumerNext(s, RemoveSwap, s') && IndicesAgree(s')
    ensures SlotsAgree(s')
  {
    assert s.slots[Wrap(Front(s) + 0, |s.slots|)] == Queued(s)[0];
    assert Front(s') == Front(s) == s.readIndex && s.numElements <= |s.slots|;
    assert s.producer.Swapped? ==> s.writeIndex != s.readIndex;
    hide DeliveredItems, IndicesAgree, Front;
    forall i | 1 <= i < s.numElements
      ensures s'.slots[Wrap(Front(s') + i, |s'.slots|)] == Queued(s')[i]
    {
      assert s.slots[Wrap(Front(s) + i, |s.slots|)] == Queued(s)[i];
    }
  }

  /** Lowering the count takes the oldest item away. */
  lemma RemoveSubtractTakes<T>(s: State<T>, s': State<T>)
    requires Invariant(s) && ConsumerNext(s, RemoveSubtract, s') && IndicesAgree(s')
    ensures SlotsAgree(s') && Queued(s') == Queued(s)[1..]
  {
    hide DeliveredItems, Front, Wrap, InStep;
    SubtractMovesFront(s, s');
    assert Queued(s') == Queued(s)[1..];
    RestOfRing(s.slots, s.readIndex, s.numElements, Queued(s));
    hide IndicesAgree;
  }

  lemma SubtractMovesFront<T>(s: State<T>, s': State<T>)
    requires IndicesAgree(s) && ConsumerNext(s, RemoveSubtract, s') && IndicesAgree(s')
    ensures s.readIndex < |s.slots| && s.numElements <= |s.slots|
    ensures Front(s) == s.readIndex && Front(s') == Wrap(s.readIndex + 1, |s.slots|)
  {
  }

  /** The items after the first one, seen from the slot after the first one. */
  lemma RestOfRing<T>(slots: seq<T>, read: nat, n: nat, items: seq<T>)
    requires 0 < n <= |slots| && read < |slots| && |items| == n
    requires forall i :: 1 <= i < n ==> slots[Wrap(read + i, |slots|)] == items[i]
    ensures forall i :: 0 <= i < n - 1 ==> slots[Wrap(Wrap(read + 1, |slots|) + i, |slots|)] == items[1..][i]
  {
    forall i | 0 <= i < n - 1
      ensures slots[Wrap(Wrap(read + 1, |slots|) + i, |slots|)] == items[1..][i]
    {
      assert Wrap(Wrap(read + 1, |slots|) + i, |slots|) == Wrap(read + (i + 1), |slots|);
    }
  }

  lemma StepKeepsInvariant<T>(s: State<T>, step: Step<T>, s': State<T>)
    requires Invariant(s) && Next(s, step, s')
    ensures Invariant(s')
  {
    if ProducerNext(s, step, s') {
      ProducerStaysInStep(s, step, s');
    } else {
      ConsumerStaysInStep(s, step, s');
    }
    hide IndicesAgree, SlotsAgree, ProducerNext, ConsumerNext, DeliveredItems;
    StepKeepsSlots(s, step, s');
    StepKeepsDelivery(s, step, s');
  }

  lemma {:induction false} RunKeepsInvariant<T>(run: seq<State<T>>, steps: seq<Step<T>>, i: nat)
    requires IsRun(run, steps) && i < |run|
    ensures Invariant(run[i])
    decreases i
  {
    if i > 0 {
      RunKeepsInvariant(run, steps, i - 1);
      StepKeepsInvariant(run[i - 1], steps[i - 1], run[i - 1 + 1]);
    }
  }

  // ---- Refinement of an atomic bounded queue ----

  /** One operation of an atomic queue of bounded capacity, or nothing at all. */
  datatype Operation<T> =
    | Nothing
    | Enqueue(item: T)
    | RejectFull
    | Dequeue(item: T)
    | RejectEmpty
    | DropAll

  ghost predicate AtomicNext<T>(q: seq<T>, capacity: nat, op: Operation<T>, q': seq<T>) {
    match op
    case Nothing => q' == q
    case Enqueue(item) => |q| < capacity && q' == q + [item]
    case RejectFull => |q| == capacity && q' == q
    case Dequeue(item) => |q| > 0 && item == q[0] && q' == q[1..]
    case RejectEmpty => q == [] && q' == q
    case DropAll => q' == []
  }

  /** The operation that a step commits: an insertion at the count update, with the item the
      producer brought; a removal at the count update, with the item the consumer takes away. */
  function Commits<T>(s: State<T>, step: Step<T>): Operation<T> {
    match step
    case InsertLoad => if s.numElements == |s.slots| then RejectFull else Nothing
    case InsertAdd => if s.producer.Swapped? then Enqueue(s.producer.item) else Nothing
    case RemoveLoad => if s.numElements == 0 then RejectEmpty else Nothing
    case RemoveSubtract => Dequeue(s.consumerHand)
    case ClearExchange => DropAll
    case _ => Nothing
  }

  /** Every step of every interleaving is one step of the atomic queue. */
  lemma EveryStepIsAtomic<T>(run: seq<State<T>>, steps: seq<Step<T>>, i: nat)
    requires IsRun(run, steps) && i < |steps|
    ensures |run[i].fates| <= |run[i].inserted| && |run[i + 1].fates| <= |run[i + 1].inserted|
    ensures AtomicNext(Queued(run[i]), |run[i].slots|, Commits(run[i], steps[i]), Queued(run[i + 1]))
  {
    RunKeepsInvariant(run, steps, i);
    RunKeepsInvariant(run, steps, i + 1);
    StepIsAtomic(run[i], steps[i], run[i + 1]);
  }

  lemma StepIsAtomic<T>(s: State<T>, step: Step<T>, s': State<T>)
    requires Invariant(s) && Invariant(s') && Next(s, step, s')
    ensures AtomicNext(Queued(s), |s.slots|, Commits(s, step), Queued(s'))
  {
    match step
    case InsertAdd => InsertAddAppends(s, s');
    case RemoveSubtract => RemoveSubtractTakes(s, s');
    case _ =>
  }

  /** The consumer has received the inserted items in order, without those that a clear
      dropped, and whatever has neither been received nor dropped is still queued. */
  lemma ReceivedInOrder<T>(run: seq<State<T>>, steps: seq<Step<T>>, i: nat)
    requires IsRun(run, steps) && i < |run|
    ensures |run[i].fates| + run[i].numElements == |run[i].inserted|
    ensures run[i].received == DeliveredItems(run[i].inserted, run[i].fates)
  {
    RunKeepsInvariant(run, steps, i);
  }

  /** Between its check and its count update, neither side's slot is the other's. */
  lemma NoSharedSlot<T>(run: seq<State<T>>, steps: seq<Step<T>>, i: nat)
    requires IsRun(run, steps) && i < |run|
    requires run[i].producer.Loaded? || run[i].producer.Swapped?
    requires run[i].consumer.Seen? || run[i].consumer.Taken?
    ensures run[i].writeIndex != run[i].readIndex
  {
    RunKeepsInvariant(run, steps, i);
  }

  function Everything<T>(s: State<T>): multiset<T> {
    multiset(s.slots) + multiset{s.producerHand} + multiset{s.consumerHand}
  }

  /** No item is copied, lost or made up by the queue: slots and hands together always hold
      the same items, until a user changes what is in its own hand. */
  lemma NothingLostOrCopied<T>(s: State<T>, step: Step<T>, s': State<T>)
    requires Next(s, step, s') && !step.ProducerFills? && !step.ConsumerEmpties?
    ensures Everything(s') == Everything(s) && |s'.slots| == |s.slots|
  {
    match step
    case InsertSwap => SwapConserves(s.slots, s.writeIndex, s.producerHand);
    case RemoveSwap => SwapConserves(s.slots, s.readIndex, s.consumerHand);
    case _ =>
  }

  /** The count never leaves its range, at the instants when it is changed. */
  lemma CountStaysInRange<T>(run: seq<State<T>>, steps: seq<Step<T>>, i: nat)
    requires IsRun(run, steps) && i < |steps|
    ensures steps[i].InsertAdd? ==> run[i].numElements < |run[i].slots|
    ensures run[i].consumer.Taken? ==> run[i].numElements > 0
  {
    RunKeepsInvariant(run, steps, i);
    assert Next(run[i], steps[i], run[i + 1]);
  }

  // ---- Progress ----

  /** The step with which a side goes on with an operation. */
  function ProducerStep<T>(p: Producer<T>): Step<T> {
    match p
    case Idle => InsertLoad
    case Loaded(_) => InsertSwap
    case Swapped(_) => InsertAdd
    case Added => InsertAdvance
  }

  function ConsumerStep<T>(c: Consumer): Step<T> {
    match c
    case Resting => RemoveLoad
    case Seen => RemoveSwap
    case Taken => RemoveSubtract
    case Subtracted => RemoveAdvance
    case Exchanged(_) => ClearAdvance
  }

  /** How many steps an operation still takes. */
  function ProducerLeft<T>(p: Producer<T>): nat {
    match p
    case Idle => 0
    case Loaded(_) => 3
    case Swapped(_) => 2
    case Added => 1
  }

  function ConsumerLeft(c: Consumer): nat {
    match c
    case Resting => 0
    case Seen => 3
    case Taken => 2
    case Subtracted => 1
    case Exchanged(_) => 1
  }

  /** Neither side ever waits for the other: at any point of any interleaving the producer can go
      on, and its operation is then one step nearer to its end. */
  lemma ProducerNeverWaits<T>(run: seq<State<T>>, steps: seq<Step<T>>, i: nat) returns (s': State<T>)
    requires IsRun(run, steps) && i < |run|
    ensures Next(run[i], ProducerStep(run[i].producer), s')
    ensures !run[i].producer.Idle? ==> ProducerLeft(s'.producer) == ProducerLeft(run[i].producer) - 1
  {
    RunKeepsInvariant(run, steps, i);
    var s := run[i];
    match s.producer
    case Idle => s' := if s.numElements == |s.slots| then s else s.(producer := Loaded(s.producerHand));
    case Loaded(item) =>
      s' := s.(slots := s.slots[s.writeIndex := s.producerHand], producerHand := s.slots[s.writeIndex],
               producer := Swapped(item));
    case Swapped(_) =>
      s' := s.(numElements := s.numElements + 1, producer := Added, inserted := s.inserted + [s.slots[s.writeIndex]]);
    case Added =>
      s' := s.(writeIndex := if s.writeIndex + 1 == |s.slots| then 0 else s.writeIndex + 1, producer := Idle);
    hide SlotsAgree, Queued, DeliveredItems;
  }

  /** Nor does the consumer, in Remove or in Clear. */
  lemma ConsumerNeverWaits<T>(run: seq<State<T>>, steps: seq<Step<T>>, i: nat) returns (s': State<T>)
    requires IsRun(run, steps) && i < |run|
    ensures Next(run[i], ConsumerStep(run[i].consumer), s')
    ensures !run[i].consumer.Resting? ==> ConsumerLeft(s'.consumer) == ConsumerLeft(run[i].consumer) - 1
  {
    RunKeepsInvariant(run, steps, i);
    var s := run[i];
    match s.consumer
    case Resting => s' := if s.numElements == 0 then s else s.(consumer := Seen);
    case Seen =>
      s' := s.(slots := s.slots[s.readIndex := s.consumerHand], consumerHand := s.slots[s.readIndex],
               consumer := Taken);
    case Taken =>
      s' := s.(numElements := s.numElements - 1, consumer := Subtracted, fates := s.fates + [Delivered],
               received := s.received + [s.consumerHand]);
    case Subtracted =>
      s' := s.(readIndex := if s.readIndex + 1 == |s.slots| then 0 else s.readIndex + 1, consumer := Resting);
    case Exchanged(dropped) => s' := s.(readIndex := Advance(s.readIndex, dropped, |s.slots|), consumer := Resting);
    hide SlotsAgree, Queued, DeliveredItems;
  }

  /** An Insert goes on if and only if there is room when it looks, and a Remove if and only if there
      is an item. */
  lemma LooksDecide<T>(run: seq<State<T>>, steps: seq<Step<T>>, i: nat)
    requires IsRun(run, steps) && i < |steps|
    ensures |run[i].fates| <= |run[i].inserted|
    ensures steps[i].InsertLoad? ==> (run[i + 1].producer.Loaded? <==> |Queued(run[i])| < |run[i].slots|)
    ensures steps[i].RemoveLoad? ==> (run[i + 1].consumer.Seen? <==> Queued(run[i]) != [])
  {
    RunKeepsInvariant(run, steps, i);
    assert Next(run[i], steps[i], run[i + 1]);
  }
}
