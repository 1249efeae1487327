/** The priority queue of delayed messages: a binary heap, and the order in which they are due. */
module DelayedQueue {
  import opened Options
  import opened Sequences

  /** A handler of None is the null pointer; the data stands for the pointer to it. */
  datatype Message = Message(handler: Option<nat>, id: nat, data: nat)

  datatype Delayed = Delayed(runTime: int, number: nat, msg: Message)

  /** The order in which delayed messages are due. In the source a message that is due later
      compares less, so that the greatest one is at the top. */
  predicate Before(a: Delayed, b: Delayed) {
    a.runTime < b.runTime || (a.runTime == b.runTime && a.number < b.number)
  }

  // ---- The schedule: an insertion sort of the entries ----

  function InsertByKey(s: seq<Delayed>, d: Delayed): (r: seq<Delayed>)
    ensures multiset(r) == multiset(s) + multiset{d}
  {
    if s == [] || !Before(d, s[|s| - 1]) then s + [d]
    else
      assert s == s[..|s| - 1] + [s[|s| - 1]];
      InsertByKey(s[..|s| - 1], d) + [s[|s| - 1]]
  }

  function Schedule(c: seq<Delayed>): (r: seq<Delayed>)
    ensures multiset(r) == multiset(c)
  {
    if c == [] then []
    else
      assert c == c[..|c| - 1] + [c[|c| - 1]];
      InsertByKey(Schedule(c[..|c| - 1]), c[|c| - 1])
  }

  ghost predicate Sorted(s: seq<Delayed>) {
    forall i, j :: 0 <= i < j < |s| ==> !Before(s[j], s[i])
  }

  ghost predicate StrictlySorted(s: seq<Delayed>) {
    forall i, j :: 0 <= i < j < |s| ==> Before(s[i], s[j])
  }

  lemma SameElements<T>(s: seq<T>, t: seq<T>)
    requires multiset(s) == multiset(t)
    ensures forall x :: x in s <==> x in t
  {
    assert forall x :: x in s <==> x in multiset(s);
    assert forall x :: x in t <==> x in multiset(t);
  }

  lemma InsertedElements(s: seq<Delayed>, d: Delayed)
    ensures forall x :: x in InsertByKey(s, d) <==> x in s || x == d
  {
    SameElements(InsertByKey(s, d), s + [d]);
  }

  lemma {:induction false} InsertSorts(s: seq<Delayed>, d: Delayed)
    requires Sorted(s)
    ensures Sorted(InsertByKey(s, d))
  {
    if s != [] && Before(d, s[|s| - 1]) {
      var rest, last := s[..|s| - 1], s[|s| - 1];
      InsertSorts(rest, d);
      var r := InsertByKey(rest, d);
      SameElements(r, rest + [d]);
      assert forall x :: x in rest ==> !Before(last, x);
      assert forall x :: x in r ==> !Before(last, x);
      assert forall i :: 0 <= i < |r| ==> r[i] in r;
      hide InsertByKey;
      assert Sorted(r + [last]);
    }
  }

  lemma {:induction false} ScheduleIsSorted(c: seq<Delayed>)
    ensures Sorted(Schedule(c))
  {
    if c != [] {
      ScheduleIsSorted(c[..|c| - 1]);
      InsertSorts(Schedule(c[..|c| - 1]), c[|c| - 1]);
    }
  }

  lemma TailElements<T>(s: seq<T>)
    requires s != []
    ensures multiset(s[1..]) == multiset(s) - multiset{s[0]}
  {
    assert s == [s[0]] + s[1..];
  }

  /** Two sorted arrangements of the same entries with distinct keys are the same sequence. */
  lemma {:induction false} SortedIsUnique(s: seq<Delayed>, t: seq<Delayed>)
    requires Sorted(s) && StrictlySorted(t) && multiset(s) == multiset(t)
    ensures s == t
  {
    SameElements(s, t);
    assert |s| == |multiset(s)| == |t|;
    if s != [] {
      assert s[0] in t && t[0] in s;
      assert s[0] == t[0];
      TailElements(s);
      TailElements(t);
      SortedIsUnique(s[1..], t[1..]);
      assert s == [s[0]] + s[1..] && t == [t[0]] + t[1..];
    }
  }

  /** The schedule does not depend on how the entries are laid out. */
  lemma ScheduleIgnoresLayout(c: seq<Delayed>, d: seq<Delayed>)
    requires multiset(c) == multiset(d) && StrictlySorted(Schedule(c))
    ensures Schedule(d) == Schedule(c)
  {
    ScheduleIsSorted(d);
    SortedIsUnique(Schedule(d), Schedule(c));
  }

  lemma {:induction false} KeepStrictlySorted(p: Delayed -> bool, s: seq<Delayed>)
    requires StrictlySorted(s)
    ensures StrictlySorted(Keep(p, s))
  {
    if s != [] {
      var rest, last := s[..|s| - 1], s[|s| - 1];
      KeepStrictlySorted(p, rest);
      KeepElements(p, rest);
      assert forall x :: x in rest ==> Before(x, last);
      assert forall i :: 0 <= i < |Keep(p, rest)| ==> Keep(p, rest)[i] in Keep(p, rest);
    }
  }

  /** Dropping entries from the array drops them from the schedule and moves no other. */
  lemma KeepCommutesWithSchedule(p: Delayed -> bool, c: seq<Delayed>)
    requires StrictlySorted(Schedule(c))
    ensures Schedule(Keep(p, c)) == Keep(p, Schedule(c))
  {
    KeepPermutation(p, c, Schedule(c));
    KeepStrictlySorted(p, Schedule(c));
    ScheduleIsSorted(Keep(p, c));
    SortedIsUnique(Schedule(Keep(p, c)), Keep(p, Schedule(c)));
  }

  // ---- The heap ----

  function Parent(j: nat): nat
    requires j > 0
  {
    (j - 1) / 2
  }

  /** The heap order between every entry and its parent, for the parents from k on. */
  ghost predicate HeapFrom(c: seq<Delayed>, k: nat) {
    forall j :: 0 < j < |c| && Parent(j) >= k ==> !Before(c[j], c[Parent(j)])
  }

  /** The heap order except between position i and its children. */
  ghost predicate HeapExceptBelow(c: seq<Delayed>, k: nat, i: nat) {
    && (forall j :: 0 < j < |c| && Parent(j) >= k && Parent(j) != i ==> !Before(c[j], c[Parent(j)]))
    && (i > 0 && Parent(i) >= k ==> forall j :: 0 < j < |c| && Parent(j) == i ==> !Before(c[j], c[Parent(i)]))
  }

  /** The heap order except between position i and its parent. */
  ghost predicate HeapExceptAbove(c: seq<Delayed>, i: nat) {
    && (forall j :: 0 < j < |c| && j != i ==> !Before(c[j], c[Parent(j)]))
    && (i > 0 ==> forall j :: 0 < j < |c| && Parent(j) == i ==> !Before(c[j], c[Parent(i)]))
  }

  function Swap(c: seq<Delayed>, i: nat, j: nat): (r: seq<Delayed>)
    requires i < |c| && j < |c|
    ensures |r| == |c| && multiset(r) == multiset(c)
  {
    c[i := c[j]][j := c[i]]
  }

  lemma SwapUp(c: seq<Delayed>, i: nat)
    requires 0 < i < |c| && HeapExceptAbove(c, i) && Before(c[i], c[Parent(i)])
    ensures HeapExceptAbove(Swap(c, i, Parent(i)), Parent(i))
  {
    var p := Parent(i);
    var r := Swap(c, i, p);
    forall j | 0 < j < |r| && j != p
      ensures !Before(r[j], r[Parent(j)])
    {
      if j != i && Parent(j) == p {
        assert !Before(c[j], c[p]);
      }
    }
    forall j | p > 0 && 0 < j < |r| && Parent(j) == p
      ensures !Before(r[j], r[Parent(p)])
    {
      assert !Before(c[p], c[Parent(p)]);
    }
  }

  ghost predicate IsFirstChild(c: seq<Delayed>, i: nat, child: nat) {
    0 < child < |c| && Parent(child) == i && forall j :: 0 < j < |c| && Parent(j) == i ==> !Before(c[j], c[child])
  }

  function EarlierChild(c: seq<Delayed>, left: nat): nat
    requires left < |c|
  {
    if left + 1 < |c| && Before(c[left + 1], c[left]) then left + 1 else left
  }

  lemma EarlierIsFirst(c: seq<Delayed>, i: nat)
    requires 2 * i + 1 < |c|
    ensures IsFirstChild(c, i, EarlierChild(c, 2 * i + 1))
  {
  }

  lemma SwapDown(c: seq<Delayed>, k: nat, i: nat, child: nat)
    requires k <= i && IsFirstChild(c, i, child) && HeapExceptBelow(c, k, i) && Before(c[child], c[i])
    ensures HeapExceptBelow(Swap(c, i, child), k, child)
  {
  }

  lemma ChildIsBelow(c: seq<Delayed>, i: nat, child: nat)
    requires IsFirstChild(c, i, child)
    ensures i < child < |c|
  {
  }

  lemma BeforeItsChildren(c: seq<Delayed>, k: nat, i: nat, child: nat)
    requires IsFirstChild(c, i, child) && HeapExceptBelow(c, k, i) && !Before(c[child], c[i])
    ensures HeapFrom(c, k)
  {
  }

  lemma WithoutChildren(c: seq<Delayed>, k: nat, i: nat)
    requires 2 * i + 1 >= |c| && HeapExceptBelow(c, k, i)
    ensures HeapFrom(c, k)
  {
  }

  lemma {:induction false} RootIsFirst(c: seq<Delayed>, i: nat)
    requires HeapFrom(c, 0) && i < |c|
    ensures !Before(c[i], c[0])
  {
    if i > 0 {
      RootIsFirst(c, Parent(i));
    }
  }

  /** The entry at the top is the first one of the schedule. */
  lemma TopIsFirst(c: seq<Delayed>)
    requires HeapFrom(c, 0) && c != [] && StrictlySorted(Schedule(c))
    ensures Schedule(c) != [] && c[0] == Schedule(c)[0]
  {
    var s := Schedule(c);
    SameElements(c, s);
    assert c[0] in s && s != [];
    assert s[0] in c;
    var i :| 0 <= i < |c| && c[i] == s[0];
    RootIsFirst(c, i);
  }

  lemma RestOfSchedule(c: seq<Delayed>, d: seq<Delayed>)
    requires StrictlySorted(Schedule(c)) && Schedule(c) != []
    requires multiset(d) + multiset{Schedule(c)[0]} == multiset(c)
    ensures Schedule(d) == Schedule(c)[1..]
  {
    var s := Schedule(c);
    TailElements(s);
    ScheduleIsSorted(d);
    assert StrictlySorted(s[1..]);
    hide *;
    assert multiset(d) == multiset(s[1..]);
    SortedIsUnique(Schedule(d), s[1..]);
  }

  class PriorityQueue {
    var container: seq<Delayed>

    ghost predicate Valid()
      reads this
    {
      HeapFrom(container, 0)
    }

    constructor ()
      ensures Valid() && container == []
    {
      container := [];
    }

    predicate Empty()
      reads this
    {
      container == []
    }

    function Top(): Delayed
      reads this
      requires !Empty()
    {
      container[0]
    }

    method Push(d: Delayed)
      requires Valid()
      modifies this
      ensures Valid() && multiset(container) == multiset(old(container)) + multiset{d}
    {
      container := container + [d];
      var i := |container| - 1;
      while i > 0 && Before(container[i], container[Parent(i)])
        invariant 0 <= i < |container| && HeapExceptAbove(container, i)
        invariant multiset(container) == multiset(old(container)) + multiset{d}
      {
        SwapUp(container, i);
        container := Swap(container, i, Parent(i));
        i := Parent(i);
      }
    }

    /** Lets the entry at a position sink to its place among the entries below it. */
    method SiftDown(k: nat)
      requires k < |container| && HeapFrom(container, k + 1)
      modifies this
      ensures HeapFrom(container, k) && multiset(container) == multiset(old(container))
      ensures |container| == |old(container)|
    {
      hide Before;
      var i := k;
      assert HeapExceptBelow(container, k, i);
      hide HeapExceptBelow, HeapFrom, IsFirstChild, EarlierChild, Swap;
      while 2 * i + 1 < |container|
        invariant k <= i < |container| == |old(container)| && HeapExceptBelow(container, k, i)
        invariant multiset(container) == multiset(old(container))
        decreases |container| - i
      {
        var child := EarlierChild(container, 2 * i + 1);
        EarlierIsFirst(container, i);
        ChildIsBelow(container, i, child);
        if !Before(container[child], container[i]) {
          BeforeItsChildren(container, k, i, child);
          return;
        }
        SwapDown(container, k, i, child);
        container := Swap(container, i, child);
        i := child;
      }
      WithoutChildren(container, k, i);
    }

    /** Removes the top entry: the last one takes its place and sinks. */
    method Pop()
      requires Valid() && !Empty()
      modifies this
      ensures Valid() && multiset(container) + multiset{old(Top())} == multiset(old(container))
    {
      var last := |container| - 1;
      ghost var c := container;
      container := Swap(container, 0, last)[..last];
      assert Swap(c, 0, last) == container + [c[0]];
      if !Empty() {
        SiftDown(0);
      }
    }

    /** Makes a heap of a container in any order. */
    method Reheap()
      modifies this
      ensures Valid() && multiset(container) == multiset(old(container))
    {
      var k := |container| / 2;
      while k > 0
        invariant 0 <= k <= |container| / 2 && HeapFrom(container, k)
        invariant multiset(container) == multiset(old(container))
      {
        k := k - 1;
        SiftDown(k);
      }
    }
  }
}
