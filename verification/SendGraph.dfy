/** The graph of who sends to whom, kept by the thread manager to catch send cycles. */
module SendGraph {

  /** A thread is identified by its address, which also orders it in the ordered sets. */
  type Thread = nat

  type Graph = map<Thread, set<Thread>>

  function Targets(g: Graph, x: Thread): set<Thread> {
    if x in g then g[x] else {}
  }

  ghost predicate SameEdges(g: Graph, h: Graph) {
    forall x :: Targets(g, x) == Targets(h, x)
  }

  // ---- Walks and cycles ----

  ghost predicate IsWalk(g: Graph, w: seq<Thread>) {
    |w| > 0 && forall i :: 0 <= i < |w| - 1 ==> w[i + 1] in Targets(g, w[i])
  }

  ghost predicate Reaches(g: Graph, x: Thread, y: Thread) {
    exists w :: IsWalk(g, w) && w[0] == x && w[|w| - 1] == y
  }

  /** No walk of at least one edge comes back to where it started. */
  ghost predicate Acyclic(g: Graph) {
    forall w :: IsWalk(g, w) && |w| > 1 ==> w[0] != w[|w| - 1]
  }

  lemma ReachesSelf(g: Graph, x: Thread)
    ensures Reaches(g, x, x)
  {
    assert IsWalk(g, [x]);
  }

  lemma ReachesEdge(g: Graph, x: Thread, y: Thread)
    requires y in Targets(g, x)
    ensures Reaches(g, x, y)
  {
    assert IsWalk(g, [x, y]);
  }

  lemma ReachesTransitive(g: Graph, x: Thread, y: Thread, z: Thread)
    requires Reaches(g, x, y) && Reaches(g, y, z)
    ensures Reaches(g, x, z)
  {
    var u :| IsWalk(g, u) && u[0] == x && u[|u| - 1] == y;
    var v :| IsWalk(g, v) && v[0] == y && v[|v| - 1] == z;
    var w := u + v[1..];
    forall i | 0 <= i < |w| - 1
      ensures w[i + 1] in Targets(g, w[i])
    {
      if i >= |u| - 1 {
        assert w[i] == v[i - (|u| - 1)];
      }
    }
    assert IsWalk(g, w);
  }

  /** In an acyclic graph no edge leads to a thread that leads back. */
  lemma AcyclicEdge(g: Graph, x: Thread, y: Thread)
    requires Acyclic(g) && y in Targets(g, x)
    ensures !Reaches(g, y, x)
  {
    if Reaches(g, y, x) {
      var v :| IsWalk(g, v) && v[0] == y && v[|v| - 1] == x;
      assert IsWalk(g, [x] + v);
    }
  }

  lemma SameEdgesSameWalks(g: Graph, h: Graph)
    requires SameEdges(g, h)
    ensures Acyclic(g) <==> Acyclic(h)
    ensures forall x, y :: Reaches(g, x, y) <==> Reaches(h, x, y)
  {
    assert forall w :: IsWalk(g, w) <==> IsWalk(h, w);
  }

  /** Fewer edges, no new cycles. */
  lemma SubgraphAcyclic(g: Graph, h: Graph)
    requires Acyclic(g) && forall x :: Targets(h, x) <= Targets(g, x)
    ensures Acyclic(h)
  {
    forall w | IsWalk(h, w)
      ensures IsWalk(g, w)
    {
    }
  }

  lemma FirstEdge(g: Graph, w: seq<Thread>)
    requires IsWalk(g, w) && |w| > 1
    ensures w[1] in Targets(g, w[0])
  {
    assert w[0 + 1] in Targets(g, w[0]);
  }

  lemma EdgelessAcyclic(g: Graph)
    requires forall x :: Targets(g, x) == {}
    ensures Acyclic(g)
  {
    forall w | IsWalk(g, w) && |w| > 1
      ensures w[0] != w[|w| - 1]
    {
      FirstEdge(g, w);
    }
  }

  function AddEdge(g: Graph, x: Thread, y: Thread): Graph {
    g[x := Targets(g, x) + {y}]
  }

  /** A walk that uses the new edge splits at its first use. */
  lemma {:induction false} WalkAvoidsOrUses(g: Graph, x: Thread, y: Thread, w: seq<Thread>)
    requires IsWalk(AddEdge(g, x, y), w)
    ensures IsWalk(g, w) || (Reaches(g, w[0], x) && Reaches(g, y, w[|w| - 1]))
            || (Reaches(g, w[0], x) && Reaches(g, y, x))
    decreases |w|
  {
    if |w| > 1 {
      var v := w[1..];
      WalkAvoidsOrUses(g, x, y, v);
      if w[1] in Targets(g, w[0]) {
        ReachesEdge(g, w[0], w[1]);
        if IsWalk(g, v) {
          forall i | 0 <= i < |w| - 1
            ensures w[i + 1] in Targets(g, w[i])
          {
            if i > 0 {
              assert v[i - 1 + 1] in Targets(g, v[i - 1]);
            }
          }
        } else {
          ReachesTransitive(g, w[0], w[1], x);
        }
      } else {
        ReachesSelf(g, x);
        if IsWalk(g, v) {
          assert Reaches(g, y, w[|w| - 1]);
        }
      }
    }
  }

  /** An edge closes a cycle exactly when its target already leads to its source. */
  lemma AddEdgeAcyclic(g: Graph, x: Thread, y: Thread)
    requires Acyclic(g)
    ensures Acyclic(AddEdge(g, x, y)) <==> !Reaches(g, y, x)
  {
    var h := AddEdge(g, x, y);
    if Reaches(g, y, x) {
      var v :| IsWalk(g, v) && v[0] == y && v[|v| - 1] == x;
      assert IsWalk(h, [x] + v);
    } else {
      forall w | IsWalk(h, w) && |w| > 1
        ensures w[0] != w[|w| - 1]
      {
        WalkAvoidsOrUses(g, x, y, w);
        if w[0] == w[|w| - 1] && !IsWalk(g, w) {
          ReachesTransitive(g, y, w[0], x);
        }
      }
    }
  }

  // ---- Why the search ends: ranks and the number of walks ----

  ghost function Nodes(g: Graph): set<Thread> {
    set x, y | x in g && y in g[x] :: y
  }

  ghost function Reach(g: Graph, x: Thread): set<Thread> {
    {x} + set y | y in Nodes(g) && Reaches(g, x, y)
  }

  lemma ReachExact(g: Graph, x: Thread, y: Thread)
    ensures y in Reach(g, x) <==> Reaches(g, x, y)
  {
    ReachesSelf(g, x);
    if Reaches(g, x, y) && x != y {
      var w :| IsWalk(g, w) && w[0] == x && w[|w| - 1] == y;
      assert w[|w| - 2 + 1] in Targets(g, w[|w| - 2]);
    }
  }

  ghost function Rank(g: Graph, x: Thread): nat {
    |Reach(g, x)|
  }

  lemma SubsetSize<T>(a: set<T>, b: set<T>)
    requires a < b
    ensures |a| < |b|
  {
    assert b == a + (b - a);
    assert b - a != {};
  }

  lemma RankDecreases(g: Graph, x: Thread, y: Thread)
    requires Acyclic(g) && y in Targets(g, x)
    ensures Rank(g, y) < Rank(g, x)
  {
    AcyclicEdge(g, x, y);
    ReachesEdge(g, x, y);
    forall z | z in Reach(g, y)
      ensures z in Reach(g, x)
    {
      ReachExact(g, y, z);
      ReachesTransitive(g, x, y, z);
      ReachExact(g, x, z);
    }
    ReachExact(g, y, x);
    ReachExact(g, x, x);
    ReachesSelf(g, x);
    SubsetSize(Reach(g, y), Reach(g, x));
  }

  lemma {:induction false} HasLeast(s: set<Thread>, x: Thread)
    requires x in s
    ensures exists z :: z in s && forall y :: y in s ==> z <= y
    decreases x
  {
    if y :| y in s && y < x {
      HasLeast(s, y);
    } else {
      assert forall y :: y in s ==> x <= y;
    }
  }

  function Least(s: set<Thread>): (x: Thread)
    requires s != {}
    ensures x in s && forall y :: y in s ==> x <= y
  {
    var some :| some in s;
    HasLeast(s, some);
    var x :| x in s && forall y :: y in s ==> x <= y;
    x
  }

  /** The elements of an ordered set, in the order of iteration. */
  function Ascending(s: set<Thread>): (q: seq<Thread>)
    ensures forall x :: x in q <==> x in s
    ensures forall i, j :: 0 <= i < j < |q| ==> q[i] < q[j]
  {
    if s == {} then []
    else
      var x := Least(s);
      var q := Ascending(s - {x});
      assert forall y :: y in q ==> x < y;
      assert forall y :: y in [x] + q <==> y == x || y in q;
      [x] + q
  }

  ghost function MaxRank(g: Graph, s: seq<Thread>): (m: nat)
    ensures forall x :: x in s ==> Rank(g, x) <= m
    ensures s == [] ==> m == 0
    ensures s != [] ==> exists x :: x in s && m == Rank(g, x)
  {
    if s == [] then 0
    else if Rank(g, s[0]) >= MaxRank(g, s[1..]) then Rank(g, s[0])
    else MaxRank(g, s[1..])
  }

  lemma MaxRankTargets(g: Graph, x: Thread)
    requires Acyclic(g)
    ensures MaxRank(g, Ascending(Targets(g, x))) < Rank(g, x)
  {
    forall y | y in Ascending(Targets(g, x))
      ensures Rank(g, y) < Rank(g, x)
    {
      RankDecreases(g, x, y);
    }
    assert x in Reach(g, x);
  }

  /** The number of walks that start at one of the given threads. */
  ghost function Walks(g: Graph, s: seq<Thread>): nat
    requires Acyclic(g)
    decreases MaxRank(g, s), |s|
  {
    if s == [] then 0
    else
      MaxRankTargets(g, s[0]);
      assert MaxRank(g, s[1..]) <= MaxRank(g, s) by {
        assert forall x :: x in s[1..] ==> x in s;
      }
      1 + Walks(g, Ascending(Targets(g, s[0]))) + Walks(g, s[1..])
  }

  lemma {:induction false} WalksConcat(g: Graph, s: seq<Thread>, t: seq<Thread>)
    requires Acyclic(g)
    ensures Walks(g, s + t) == Walks(g, s) + Walks(g, t)
    decreases |s|
  {
    if s == [] {
      assert s + t == t;
    } else {
      assert (s + t)[1..] == s[1..] + t;
      WalksConcat(g, s[1..], t);
    }
  }

  lemma NoWalks(g: Graph)
    requires Acyclic(g)
    ensures Walks(g, []) == 0
  {
  }

  /** Replacing one pending thread by its targets uses up exactly one walk. */
  lemma WorklistStep(g: Graph, list: seq<Thread>, i: nat)
    requires Acyclic(g) && i < |list|
    ensures var targets := Ascending(Targets(g, list[i]));
            Walks(g, (list + targets)[i + 1..]) + 1 == Walks(g, list[i..])
            && (list + targets)[..i + 1] == list[..i] + [list[i]]
  {
    hide Targets, Ascending, MaxRank, Rank, Acyclic;
    var targets := Ascending(Targets(g, list[i]));
    assert (list + targets)[i + 1..] == list[i + 1..] + targets;
    assert list[i..][1..] == list[i + 1..];
    WalksConcat(g, list[i + 1..], targets);
  }

  // ---- Completeness of the search ----

  ghost predicate ClosedUnderTargets(g: Graph, s: seq<Thread>) {
    forall x, y :: x in s && y in Targets(g, x) ==> y in s
  }

  lemma {:induction false} ClosedContainsWalk(g: Graph, s: seq<Thread>, w: seq<Thread>)
    requires ClosedUnderTargets(g, s) && IsWalk(g, w) && w[0] in s
    ensures w[|w| - 1] in s
    decreases |w|
  {
    if |w| > 1 {
      assert w[0 + 1] in Targets(g, w[0]);
      ClosedContainsWalk(g, s, w[1..]);
    }
  }

  lemma ClosedContainsReachable(g: Graph, s: seq<Thread>, x: Thread)
    requires ClosedUnderTargets(g, s) && x in s
    ensures forall y :: Reaches(g, x, y) ==> y in s
  {
    forall y | Reaches(g, x, y)
      ensures y in s
    {
      var w :| IsWalk(g, w) && w[0] == x && w[|w| - 1] == y;
      ClosedContainsWalk(g, s, w);
    }
  }

  class ThreadManager {
    var sendGraph: Graph

    constructor ()
      ensures Acyclic(sendGraph) && forall x :: Targets(sendGraph, x) == {}
    {
      sendGraph := map[];
      new;
      EdgelessAcyclic(sendGraph);
    }

    /** The search keeps no visited set: its list grows to one entry for every walk from the
        target, so it ends only because the graph has no cycle. It accepts the edge exactly
        when the edge closes no cycle. */
    method RegisterSendAndCheckForCycles(source: Thread, target: Thread)
      returns (ok: bool, allTargets: seq<Thread>)
      requires Acyclic(sendGraph)
      modifies this
      ensures ok <==> Acyclic(AddEdge(old(sendGraph), source, target))
      ensures ok <==> !Reaches(old(sendGraph), target, source)
      ensures SameEdges(sendGraph, if ok then AddEdge(old(sendGraph), source, target) else old(sendGraph))
      ensures Acyclic(sendGraph)
      ensures forall x :: x in allTargets <==> Reaches(old(sendGraph), target, x)
      ensures |allTargets| == Walks(old(sendGraph), [target])
    {
      hide Reaches, Walks, Acyclic;
      ghost var g := sendGraph;
      allTargets := [target];
      var i := 0;
      ReachesSelf(g, target);
      while i < |allTargets|
        invariant 0 <= i <= |allTargets| && target in allTargets
        invariant SameEdges(sendGraph, g)
        invariant i + Walks(g, allTargets[i..]) == Walks(g, [target])
        invariant forall x :: x in allTargets ==> Reaches(g, target, x)
        invariant forall x, y :: x in allTargets[..i] && y in Targets(g, x) ==> y in allTargets
        decreases Walks(g, allTargets[i..])
      {
        var x := allTargets[i];
        if x !in sendGraph {
          sendGraph := sendGraph[x := {}];
        }
        var targets := Ascending(sendGraph[x]);
        assert sendGraph[x] == Targets(g, x);
        forall y | y in targets
          ensures Reaches(g, target, y)
        {
          ReachesEdge(g, x, y);
          ReachesTransitive(g, target, x, y);
        }
        WorklistStep(g, allTargets, i);
        allTargets := allTargets + targets;
        i := i + 1;
      }
      assert allTargets[..i] == allTargets && allTargets[i..] == [];
      NoWalks(g);
      ClosedContainsReachable(g, allTargets, target);
      AddEdgeAcyclic(g, source, target);
      ok := source !in allTargets;
      if ok {
        ghost var before := sendGraph;
        sendGraph := sendGraph[source := Targets(sendGraph, source) + {target}];
        ghost var h := AddEdge(g, source, target);
        forall x
          ensures Targets(sendGraph, x) == Targets(h, x)
        {
          assert Targets(before, x) == Targets(g, x);
        }
        SameEdgesSameWalks(h, sendGraph);
      } else {
        SameEdgesSameWalks(g, sendGraph);
      }
    }

    /** Forgets a thread: no edge leaves or enters it, every other edge stays. */
    method RemoveFromSendGraph(thread: Thread)
      requires Acyclic(sendGraph)
      modifies this
      ensures Acyclic(sendGraph)
      ensures forall x :: Targets(sendGraph, x) == if x == thread then {} else old(Targets(sendGraph, x)) - {thread}
    {
      ghost var g := sendGraph;
      var rest := sendGraph.Keys;
      while rest != {}
        invariant rest <= sendGraph.Keys <= g.Keys
        invariant forall x :: x in rest ==> Targets(sendGraph, x) == Targets(g, x)
        invariant forall x :: x !in rest ==>
          Targets(sendGraph, x) == if x == thread then {} else Targets(g, x) - {thread}
        decreases |rest|
      {
        var x := Least(rest);
        if x == thread {
          sendGraph := sendGraph - {x};
        } else {
          sendGraph := sendGraph[x := sendGraph[x] - {thread}];
        }
        rest := rest - {x};
      }
      SubgraphAcyclic(g, sendGraph);
    }
  }

  // ---- Threads blocked in Send ----

  /** The registered sends, and for each thread that waits in Send the thread it waits on. */
  datatype Sends = Sends(graph: Graph, blocked: map<Thread, Thread>)

  datatype Event =
    | SendStarts(source: Thread, target: Thread)
    | SendReturns(source: Thread)
    | ThreadRemoved(thread: Thread)

  /** What one event does. A send to the running thread itself never blocks, a send that
      would close a cycle aborts the program, and no thread goes away while it is party to a
      send. */
  ghost predicate Next(s: Sends, e: Event, t: Sends) {
    match e
    case SendStarts(source, target) =>
      && source != target && source !in s.blocked
      && !Reaches(s.graph, target, source)
      && SameEdges(t.graph, AddEdge(s.graph, source, target))
      && t.blocked == s.blocked[source := target]
    case SendReturns(source) =>
      && source in s.blocked
      && t == s.(blocked := s.blocked - {source})
    case ThreadRemoved(thread) =>
      && thread !in s.blocked && thread !in s.blocked.Values
      && (forall x :: Targets(t.graph, x) == if x == thread then {} else Targets(s.graph, x) - {thread})
      && t.blocked == s.blocked
  }

  /** An event can happen exactly if its thread is not blocked or is, as the case may be, and a Send
      also must not go to its own thread or close a cycle. */
  lemma HappensExactly(s: Sends, e: Event)
    ensures (exists t :: Next(s, e, t)) <==>
              match e
              case SendStarts(source, target) =>
                source != target && source !in s.blocked && !Reaches(s.graph, target, source)
              case SendReturns(source) => source in s.blocked
              case ThreadRemoved(thread) => thread !in s.blocked && thread !in s.blocked.Values
  {
    hide Reaches;
    match e
    case SendStarts(source, target) =>
      var t := Sends(AddEdge(s.graph, source, target), s.blocked[source := target]);
      assert source != target && source !in s.blocked && !Reaches(s.graph, target, source) ==> Next(s, e, t);
    case SendReturns(source) =>
      assert source in s.blocked ==> Next(s, e, s.(blocked := s.blocked - {source}));
    case ThreadRemoved(thread) =>
      var g := map x | x in s.graph && x != thread :: s.graph[x] - {thread};
      assert thread !in s.blocked && thread !in s.blocked.Values ==> Next(s, e, s.(graph := g));
  }

  ghost predicate Initial(s: Sends) {
    (forall x :: Targets(s.graph, x) == {}) && s.blocked == map[]
  }

  ghost predicate IsRun(run: seq<Sends>, events: seq<Event>) {
    |run| == |events| + 1 && Initial(run[0])
    && forall i :: 0 <= i < |events| ==> Next(run[i], events[i], run[i + 1])
  }

  /** Every thread that waits does so along a registered edge, and these form no cycle. */
  ghost predicate BlockedAlongEdges(s: Sends) {
    Acyclic(s.graph) && forall x :: x in s.blocked ==> s.blocked[x] in Targets(s.graph, x)
  }

  lemma StepKeepsBlockedAlongEdges(s: Sends, e: Event, t: Sends)
    requires BlockedAlongEdges(s) && Next(s, e, t)
    ensures BlockedAlongEdges(t)
  {
    match e
    case SendStarts(source, target) =>
      AddEdgeAcyclic(s.graph, source, target);
      SameEdgesSameWalks(t.graph, AddEdge(s.graph, source, target));
    case SendReturns(source) =>
    case ThreadRemoved(thread) =>
      SubgraphAcyclic(s.graph, t.graph);
      forall x | x in t.blocked
        ensures t.blocked[x] in Targets(t.graph, x)
      {
        assert s.blocked[x] in s.blocked.Values;
      }
  }

  lemma {:induction false} RunKeepsBlockedAlongEdges(run: seq<Sends>, events: seq<Event>, i: nat)
    requires IsRun(run, events) && i < |run|
    ensures BlockedAlongEdges(run[i])
    decreases i
  {
    if i == 0 {
      EdgelessAcyclic(run[0].graph);
    } else {
      RunKeepsBlockedAlongEdges(run, events, i - 1);
      StepKeepsBlockedAlongEdges(run[i - 1], events[i - 1], run[i - 1 + 1]);
    }
  }

  lemma {:induction false} LowestRank(g: Graph, s: set<Thread>) returns (x: Thread)
    requires s != {}
    ensures x in s && forall y :: y in s ==> Rank(g, x) <= Rank(g, y)
  {
    x :| x in s;
    var lower := set y | y in s && Rank(g, y) < Rank(g, x);
    assert forall y :: y in s && Rank(g, y) < Rank(g, x) ==> y in lower;
    if lower != {} {
      x := LowestRank(g, lower);
    }
  }

  /** No deadlock at any point of any run: among any threads blocked in Send, one waits on a
      thread outside that group; with all of them, on a thread that is not blocked. */
  lemma NoSendDeadlock(run: seq<Sends>, events: seq<Event>, i: nat, group: set<Thread>)
    requires IsRun(run, events) && i < |run|
    requires group != {} && group <= run[i].blocked.Keys
    ensures exists x :: x in group && run[i].blocked[x] !in group
  {
    RunKeepsBlockedAlongEdges(run, events, i);
    var x := LowestRank(run[i].graph, group);
    RankDecreases(run[i].graph, x, run[i].blocked[x]);
  }

  /** Following who waits on whom always ends, at a thread that is free to run. */
  lemma {:induction false} WaitingEndsAtRunningThread(s: Sends, x: Thread) returns (chain: seq<Thread>)
    requires BlockedAlongEdges(s)
    ensures |chain| > 0 && chain[0] == x && chain[|chain| - 1] !in s.blocked
    ensures forall i :: 0 <= i < |chain| - 1 ==> chain[i] in s.blocked && chain[i + 1] == s.blocked[chain[i]]
    decreases Rank(s.graph, x)
  {
    if x !in s.blocked {
      return [x];
    }
    RankDecreases(s.graph, x, s.blocked[x]);
    var rest := WaitingEndsAtRunningThread(s, s.blocked[x]);
    chain := [x] + rest;
  }

  /** The Sends return one after the other, each from a thread that is not blocked then. */
  ghost predicate ReturnInTurn(path: seq<Sends>, order: seq<Thread>) {
    |path| == |order| + 1
    && forall i :: 0 <= i < |order| ==>
         order[i] in path[i].blocked && path[i].blocked[order[i]] !in path[i].blocked
         && Next(path[i], SendReturns(order[i]), path[i + 1])
  }

  /** All Sends that are under way can return, in an order in which each waits for a running thread. */
  lemma {:induction false} AllSendsCanReturn(s: Sends) returns (path: seq<Sends>, order: seq<Thread>)
    requires BlockedAlongEdges(s)
    ensures ReturnInTurn(path, order) && path[0] == s && path[|path| - 1] == s.(blocked := map[])
    ensures |order| == |s.blocked| && |path| == |order| + 1
    decreases |s.blocked|
  {
    hide Acyclic, ReturnInTurn, Next, BlockedAlongEdges;
    if s.blocked == map[] {
      path, order := [s], [];
      NobodyReturns(s);
    } else {
      var x, rest := OneSendReturns(s);
      var later, more := AllSendsCanReturn(rest);
      FirstReturns(s, x, later, more);
      path, order := [s] + later, [x] + more;
    }
  }

  lemma NobodyReturns(s: Sends)
    ensures ReturnInTurn([s], [])
  {
  }

  /** Some Send waits for a thread that is not blocked; it can return. */
  lemma OneSendReturns(s: Sends) returns (x: Thread, rest: Sends)
    requires BlockedAlongEdges(s) && s.blocked != map[]
    ensures x in s.blocked && s.blocked[x] !in s.blocked && Next(s, SendReturns(x), rest) && BlockedAlongEdges(rest)
    ensures rest.(blocked := map[]) == s.(blocked := map[]) && |rest.blocked| == |s.blocked| - 1
  {
    assert exists y :: y in s.blocked;
    x := LowestRank(s.graph, s.blocked.Keys);
    RankDecreases(s.graph, x, s.blocked[x]);
    hide Acyclic, Rank;
    rest := s.(blocked := s.blocked - {x});
    assert rest.blocked.Keys == s.blocked.Keys - {x};
    KeysCount(s.blocked);
    KeysCount(rest.blocked);
  }

  lemma FirstReturns(s: Sends, x: Thread, path: seq<Sends>, order: seq<Thread>)
    requires ReturnInTurn(path, order) && x in s.blocked && s.blocked[x] !in s.blocked
    requires Next(s, SendReturns(x), path[0])
    ensures ReturnInTurn([s] + path, [x] + order)
  {
    hide Next;
  }

  lemma KeysCount<K, V>(m: map<K, V>)
    ensures |m| == |m.Keys|
  {
  }
}
