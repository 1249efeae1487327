/** A growable buffer against the plain sequence that it holds, and what its growth costs. */
module GrowableBuffers {

  /** The size and capacity of a buffer, and over its whole life the number of elements copied by
      reallocations and the largest size ever asked for. */
  datatype Extent = Extent(size: nat, capacity: nat, copied: nat, largest: nat)

  const EMPTY := Extent(0, 0, 0, 0)

  function Max(a: nat, b: nat): nat {
    if a < b then b else a
  }

  /** After asking for room for a number of elements, with headroom. */
  function Grown(e: Extent, capacity: nat): Extent {
    if capacity <= e.capacity then e.(largest := Max(e.largest, capacity))
    else Extent(e.size, Max(capacity, e.capacity + e.capacity / 2), e.copied + e.size, Max(e.largest, capacity))
  }

  function Resized(e: Extent, size: nat): Extent {
    Grown(e, size).(size := size)
  }

  class Buffer<T(0)> {
    var data: array<T>
    var size: nat
    var capacity: nat
    ghost var copied: nat
    ghost var largest: nat

    ghost function Extents(): Extent
      reads this
    {
      Extent(size, capacity, copied, largest)
    }

    ghost predicate Valid()
      reads this, data
    {
      size <= capacity == data.Length && Economical(Extents())
    }

    ghost function Contents(): seq<T>
      reads this, data
      requires Valid()
    {
      data[..size]
    }

    constructor ()
      ensures Valid() && fresh(data) && Contents() == [] && Extents() == EMPTY
    {
      data := new T[0];
      size, capacity, copied, largest := 0, 0, 0, 0;
    }

    /** Makes room for a number of elements: at least one and a half times as much as before, if
        there is not enough. */
    method EnsureCapacityWithHeadroom(room: nat)
      requires Valid()
      modifies this
      ensures Valid() && Contents() == old(Contents()) && Extents() == Grown(old(Extents()), room)
      ensures data == old(data) || fresh(data)
    {
      GrowthIsEconomical(Extents(), room);
      largest := Max(largest, room);
      if room <= capacity {
        return;
      }
      var newCapacity := if room < capacity + capacity / 2 then capacity + capacity / 2 else room;
      var newData := new T[newCapacity];
      forall i | 0 <= i < size {
        newData[i] := data[i];
      }
      copied := copied + size;
      data := newData;
      capacity := newCapacity;
    }

    method AppendData(items: seq<T>)
      requires Valid()
      modifies this, data
      ensures Valid() && Contents() == old(Contents()) + items
      ensures Extents() == Resized(old(Extents()), old(size) + |items|)
      ensures data == old(data) || fresh(data)
    {
      var newSize := size + |items|;
      ResizingIsEconomical(Extents(), newSize);
      EnsureCapacityWithHeadroom(newSize);
      forall i | 0 <= i < |items| {
        data[size + i] := items[i];
      }
      assert data[..newSize] == old(Contents()) + items;
      size := newSize;
    }

    method SetData(items: seq<T>)
      requires Valid()
      modifies this, data
      ensures Valid() && Contents() == items
      ensures Extents() == Resized(old(Extents()).(size := 0), |items|)
      ensures data == old(data) || fresh(data)
    {
      size := 0;
      AppendData(items);
    }

    /** Keeps the contents up to the new size; what a larger size brings in is not specified. */
    method SetSize(newSize: nat)
      requires Valid()
      modifies this
      ensures Valid() && |Contents()| == newSize
      ensures if newSize <= old(size) then Contents() == old(Contents())[..newSize]
              else Contents()[..old(size)] == old(Contents())
      ensures Extents() == Resized(old(Extents()), newSize)
      ensures data == old(data) || fresh(data)
    {
      ResizingIsEconomical(Extents(), newSize);
      EnsureCapacityWithHeadroom(newSize);
      size := newSize;
    }

    method Clear()
      requires Valid()
      modifies this`size
      ensures Valid() && Contents() == [] && Extents() == old(Extents()).(size := 0)
    {
      size := 0;
    }
  }

  // ---- What growth costs ----

  /** At most three elements have been copied for each place there is, and there are at most
      half as many places again as were ever asked for. */
  predicate Economical(e: Extent) {
    e.size <= e.capacity && e.size <= e.largest && e.copied <= 3 * e.capacity && 2 * e.capacity <= 3 * e.largest
  }

  lemma GrowthIsEconomical(e: Extent, room: nat)
    requires Economical(e)
    ensures Economical(Grown(e, room))
  {
  }

  lemma ResizingIsEconomical(e: Extent, size: nat)
    requires Economical(e)
    ensures Economical(Resized(e, size))
  {
  }

  /** The operations, with the number of elements that they append or set. */
  datatype Op = AppendOp(count: nat) | SetDataOp(count: nat) | SetSizeOp(size: nat) | ClearOp

  function Apply(e: Extent, op: Op): Extent {
    match op
    case AppendOp(count) => Resized(e, e.size + count)
    case SetDataOp(count) => Resized(e.(size := 0), count)
    case SetSizeOp(size) => Resized(e, size)
    case ClearOp => e.(size := 0)
  }

  function Run(ops: seq<Op>): Extent {
    if ops == [] then EMPTY else Apply(Run(ops[..|ops| - 1]), ops[|ops| - 1])
  }

  /** The size after a number of the operations. */
  function SizeAfter(ops: seq<Op>, n: nat): nat
    requires n <= |ops|
  {
    Run(ops[..n]).size
  }

  lemma StepIsEconomical(e: Extent, op: Op)
    requires Economical(e)
    ensures Economical(Apply(e, op)) && Apply(e, op).largest == Max(e.largest, Apply(e, op).size)
  {
  }

  lemma {:induction false} RunIsEconomical(ops: seq<Op>)
    ensures Economical(Run(ops)) && 2 * Run(ops).copied <= 9 * Run(ops).largest
    decreases |ops|
  {
    if ops != [] {
      RunIsEconomical(ops[..|ops| - 1]);
      StepIsEconomical(Run(ops[..|ops| - 1]), ops[|ops| - 1]);
    }
    hide Apply;
  }

  ghost predicate IsPeak(ops: seq<Op>, largest: nat) {
    && (exists n :: 0 <= n <= |ops| && SizeAfter(ops, n) == largest)
    && (forall n :: 0 <= n <= |ops| ==> SizeAfter(ops, n) <= largest)
  }

  lemma {:induction false} LargestIsPeak(ops: seq<Op>)
    ensures IsPeak(ops, Run(ops).largest)
    decreases |ops|
  {
    var last := |ops|;
    assert SizeAfter(ops, last) == Run(ops).size by {
      assert ops[..last] == ops;
    }
    if ops != [] {
      var before := ops[..last - 1];
      LargestIsPeak(before);
      RunIsEconomical(before);
      StepIsEconomical(Run(before), ops[last - 1]);
      forall n: nat | n <= |before|
        ensures SizeAfter(before, n) == SizeAfter(ops, n)
      {
        assert before[..n] == ops[..n];
      }
      hide Apply, Economical, SizeAfter;
    }
  }

  /** Over every run, all copying together is at most four and a half times the largest size
      that was reached, however many operations there are. */
  lemma CopyingIsAmortized(ops: seq<Op>, largest: nat)
    requires IsPeak(ops, largest)
    ensures 2 * Run(ops).copied <= 9 * largest && 2 * Run(ops).capacity <= 3 * largest
  {
    RunIsEconomical(ops);
    LargestIsPeak(ops);
    hide Run, SizeAfter;
  }
}
