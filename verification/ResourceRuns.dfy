/** Whole runs of the deadlock manager: what every reachable resource graph satisfies, and that
    resources are granted in the order in which they were asked for. */
module ResourceRuns {
  import opened Common
  import opened WaitForGraph
  import opened ResourceRules
  import opened ResourceProofs

  /** What the kernel makes happen: a process asks for a resource, or is killed (as a deadlock
      victim, or after a crash) with its resources handed over, or is given a priority. */
  datatype Event = Ask(p: int, r: int) | Kill(p: int) | Prioritise(p: int, v: int)

  ghost predicate Legal(g: Graph, e: Event) {
    match e
    case Ask(p, r) => MayAsk(g, p, r)
    case _ => true
  }

  function Step(g: Graph, e: Event): Graph
    requires |g.queue| == g.m && |g.prio| == g.n
  {
    match e
    case Ask(p, r) => Request(g, p, r).0
    case Kill(p) => Resolve(g, p)
    case Prioritise(p, v) => SetPriority(g, p, v)
  }

  ghost predicate Run(gs: seq<Graph>, es: seq<Event>) {
    && |gs| == |es| + 1
    && Consistent(gs[0]) && Settled(gs[0])
    && forall i :: 0 <= i < |es| ==> Linked(gs[i], es[i], gs[i + 1])
  }

  ghost predicate Linked(g: Graph, e: Event, h: Graph) {
    Legal(g, e) && (|g.queue| == g.m && |g.prio| == g.n ==> h == Step(g, e))
  }

  lemma StepKeeps(g: Graph, e: Event)
    requires Consistent(g) && Settled(g) && Legal(g, e)
    ensures Consistent(Step(g, e)) && Settled(Step(g, e))
  {
    match e
    case Ask(p, r) =>
      RequestKeepsIffMayAsk(g, p, r);
    case Kill(p) =>
      if 0 <= p < g.n {
        ResolveKeeps(g, p);
      }
    case Prioritise(p, v) =>
      assert forall r :: 0 <= r < g.m ==> SettledAt(g, r) && SettledAt(SetPriority(g, p, v), r);
  }

  /** In every state of every run each resource is free or held by exactly one process, the queues
      hold exactly the waiting processes, and nobody waits for a free resource. */
  lemma {:induction false} RunKeeps(gs: seq<Graph>, es: seq<Event>, i: nat)
    requires Run(gs, es) && i < |gs|
    ensures Consistent(gs[i]) && Settled(gs[i])
  {
    if i > 0 {
      RunKeeps(gs, es, i - 1);
      assert Linked(gs[i - 1], es[i - 1], gs[i]);
      StepKeeps(gs[i - 1], es[i - 1]);
    }
  }

  // ----- first come, first served

  /** The part of a queue that comes before p. */
  function AheadOf(q: seq<int>, p: int): seq<int> {
    if q == [] || q[0] == p then [] else [q[0]] + AheadOf(q[1..], p)
  }

  /** p waits for r, and q neither holds r nor stands before p in the queue. */
  ghost predicate ComesAfter(g: Graph, p: int, q: int, r: int)
    requires |g.queue| == g.m
  {
    && 0 <= r < g.m && p != q
    && p in g.queue[r] && p in g.active
    && (q, r) !in g.held && q !in AheadOf(g.queue[r], p)
  }

  lemma {:induction false} AheadOfAppended(q: seq<int>, p: int, x: int)
    requires p in q
    ensures AheadOf(q + [x], p) == AheadOf(q, p)
  {
    if q[0] != p {
      assert (q + [x])[1..] == q[1..] + [x];
      assert p in q[1..];
      AheadOfAppended(q[1..], p, x);
    }
  }

  lemma {:induction false} AheadOfLive(q: seq<int>, active: set<int>, p: int)
    requires p in q && p in active
    ensures p in Live(q, active)
    ensures forall x :: x in AheadOf(Live(q, active), p) ==> x in AheadOf(q, p)
  {
    if q[0] == p {
      assert Live(q, active)[0] == p;
    } else {
      assert p in q[1..];
      AheadOfLive(q[1..], active, p);
      var rest := Live(q[1..], active);
      assert AheadOf(q, p) == [q[0]] + AheadOf(q[1..], p);
      if q[0] in active {
        assert Live(q, active)[1..] == rest;
        assert AheadOf(Live(q, active), p) == [q[0]] + AheadOf(rest, p);
      } else {
        assert Live(q, active) == rest;
      }
    }
  }

  lemma WakeInOrder(g: Graph, s: int, p: int, q: int, r: int)
    requires Consistent(g) && ComesAfter(g, p, q, r)
    ensures ComesAfter(Wake(g, s), p, q, r) || (p, r) in Wake(g, s).held
  {
    if s == r {
      var live := Live(g.queue[r], g.active);
      AheadOfLive(g.queue[r], g.active, p);
      if r in g.free && live[0] != p {
        assert AheadOf(live, p)[0] == live[0];
        assert live[0] in AheadOf(live, p);
        assert forall x :: x in AheadOf(live[1..], p) ==> x in AheadOf(live, p);
        assert live == [live[0]] + live[1..];
      }
    }
  }

  ghost predicate GrantedOrFirst(g: Graph, p: int, q: int, r: int) {
    Consistent(g) && ((p, r) in g.held || ComesAfter(g, p, q, r))
  }

  lemma WakeInOrder'(g: Graph, s: int, p: int, q: int, r: int)
    requires 0 <= s < g.m && GrantedOrFirst(g, p, q, r)
    ensures GrantedOrFirst(Wake(g, s), p, q, r)
  {
    WakeKeeps(g, s);
    if ComesAfter(g, p, q, r) {
      WakeInOrder(g, s, p, q, r);
    }
  }

  lemma {:induction false} WakeAllInOrder(g: Graph, k: nat, p: int, q: int, r: int)
    requires |g.queue| == g.m && k <= g.m && GrantedOrFirst(g, p, q, r)
    ensures GrantedOrFirst(WakeAll(g, k), p, q, r)
  {
    hide Consistent, GrantedOrFirst, Wake;
    if k > 0 {
      WakeAllInOrder(g, k - 1, p, q, r);
      WakeInOrder'(WakeAll(g, k - 1), k - 1, p, q, r);
    }
  }

  lemma StepInOrder(g: Graph, e: Event, p: int, q: int, r: int)
    requires Consistent(g) && Settled(g) && Legal(g, e) && ComesAfter(g, p, q, r)
    ensures var h := Step(g, e);
            p !in h.active || (p, r) in h.held || ComesAfter(h, p, q, r)
  {
    assert SettledAt(g, r);
    match e
    case Ask(x, s) =>
      AheadOfAppended(g.queue[r], p, x);
    case Kill(x) =>
      if 0 <= x < g.n {
        ResolveKeeps(g, x);
        CleanupKeeps(g, x);
      }
      if 0 <= x < g.n && x != p {
        assert ComesAfter(Cleanup(g, x), p, q, r);
        WakeAllInOrder(Cleanup(g, x), g.m, p, q, r);
      }
    case Prioritise(x, v) =>
  }

  /** No overtaking: as long as p has neither been given r nor been killed, no process that was not
      already ahead of p in the queue of r gets r. */
  lemma {:induction false} NoOvertaking(gs: seq<Graph>, es: seq<Event>, i: nat, p: int, q: int, r: int)
    requires Run(gs, es) && i < |gs| && ComesAfter(gs[0], p, q, r)
    requires forall j :: 0 <= j <= i ==> p in gs[j].active && (p, r) !in gs[j].held
    ensures Consistent(gs[i]) && ComesAfter(gs[i], p, q, r)
  {
    if i > 0 {
      NoOvertaking(gs, es, i - 1, p, q, r);
      RunKeeps(gs, es, i - 1);
      RunKeeps(gs, es, i);
      assert Linked(gs[i - 1], es[i - 1], gs[i]);
      StepInOrder(gs[i - 1], es[i - 1], p, q, r);
    }
  }

  // ----- what the operations do not promise

  /** Releasing a resource does not wake its waiters: it leaves a settled graph settled exactly when
      nobody waits for it. */
  lemma ReleaseDoesNotWake(g: Graph, p: int, r: int)
    requires Consistent(g) && Settled(g) && (p, r) in g.held
    ensures Consistent(Release(g, p, r))
    ensures Settled(Release(g, p, r)) <==> g.queue[r] == []
  {
    var h := Release(g, p, r);
    assert SettledAt(g, r);
    if g.queue[r] != [] {
      assert !SettledAt(h, r);
    }
    forall s | 0 <= s < g.m && (s != r || g.queue[r] == [])
      ensures SettledAt(h, s)
    {
      assert SettledAt(g, s);
    }
  }

  /** Processes 1 and 2 wait for each other; the less important process 0 only waits for 1. */
  ghost function OffCycleExample(): Graph {
    Graph(3, 2, {(1, 0), (2, 1)}, {(0, 0), (1, 1), (2, 0)}, {}, {0, 1, 2}, [[0, 2], [1]], [3, 0, 0])
  }

  /** What comes before the example: 1 and 2 each hold one resource. */
  ghost function OffCycleHeld(): Graph {
    Graph(3, 2, {(1, 0), (2, 1)}, {}, {}, {1, 2}, [[], []], [3, 0, 0])
  }

  lemma InitSmall()
    ensures Init(3, 2) == Graph(3, 2, {}, {}, {0, 1}, {}, [[], []], [0, 0, 0])
  {
    assert Interval(2) == {0, 1};
  }

  ghost function OffCycleFirst(): Graph {
    Graph(3, 2, {(1, 0)}, {}, {1}, {1}, [[], []], [3, 0, 0])
  }

  lemma FirstTaken()
    ensures Linked(Init(3, 2).(prio := [3, 0, 0]), Ask(1, 0), OffCycleFirst())
  {
    InitSmall();
    hide Init;
  }

  lemma SecondTaken()
    ensures Linked(OffCycleFirst(), Ask(2, 1), OffCycleHeld())
  {
  }

  lemma OffCycleStart() returns (gs: seq<Graph>, es: seq<Event>)
    ensures Run(gs, es) && gs[0] == Init(3, 2) && |es| == 3 && gs[3] == OffCycleHeld()
  {
    var g0 := Init(3, 2);
    var g1 := g0.(prio := [3, 0, 0]);
    gs := [g0, g1, OffCycleFirst(), OffCycleHeld()];
    es := [Prioritise(0, 3), Ask(1, 0), Ask(2, 1)];
    InitConsistent(3, 2);
    InitSmall();
    hide Consistent, Settled, Init, OffCycleFirst, OffCycleHeld;
    assert Linked(g0, es[0], g1);
    hide Linked;
    FirstTaken();
    SecondTaken();
  }

  /** Now 0 and 2 ask for the first resource and 1 for the second. */
  lemma OffCycleEnd() returns (gs: seq<Graph>, es: seq<Event>)
    ensures |gs| == |es| + 1 == 4 && gs[0] == OffCycleHeld() && gs[3] == OffCycleExample()
    ensures forall i :: 0 <= i < 3 ==> Linked(gs[i], es[i], gs[i + 1])
  {
    var g0 := OffCycleHeld();
    var g1 := g0.(asked := {(0, 0)}, active := {0, 1, 2}, queue := [[0], []]);
    var g2 := g1.(asked := {(0, 0), (2, 0)}, queue := [[0, 2], []]);
    gs := [g0, g1, g2, OffCycleExample()];
    es := [Ask(0, 0), Ask(2, 0), Ask(1, 1)];
    assert [] + [0] == [0] && [0] + [2] == [0, 2] && [] + [1] == [1];
    assert [[], []][0 := [0]] == [[0], []] && [[0], []][0 := [0, 2]] == [[0, 2], []];
    assert [[0, 2], []][1 := [1]] == [[0, 2], [1]];
    assert Linked(g0, es[0], g1);
    assert Linked(g1, es[1], g2);
    assert Linked(g2, es[2], gs[3]);
  }

  /** The kernel can bring the example about. */
  lemma OffCycleReachable() returns (gs: seq<Graph>, es: seq<Event>)
    ensures Run(gs, es) && gs[0] == Init(3, 2) && gs[|es|] == OffCycleExample()
  {
    var gs1, es1 := OffCycleStart();
    var gs2, es2 := OffCycleEnd();
    gs, es := gs1[..3] + gs2, es1 + es2;
    hide Consistent, Settled, Linked;
    assert gs[3] == gs1[3];
    forall i | 0 <= i < |es|
      ensures Linked(gs[i], es[i], gs[i + 1])
    {
      assert i < 3 ==> Linked(gs1[i], es1[i], gs1[i + 1]);
      assert i >= 3 ==> Linked(gs2[i - 3], es2[i - 3], gs2[i - 2]);
    }
  }

  lemma OffCycleEdges()
    ensures var g := OffCycleExample(); Edge(g, 0, 1) && Edge(g, 1, 2) && Edge(g, 2, 1)
    ensures forall p :: !Edge(OffCycleExample(), p, 0)
  {
  }

  lemma OffCycleDoomed()
    ensures Doomed(OffCycleExample()) == {0, 1, 2}
  {
    hide Edge;
    var g := OffCycleExample();
    var t := {0, 1, 2};
    OffCycleEdges();
    assert WaitsInside(g, t, 0) && WaitsInside(g, t, 1) && WaitsInside(g, t, 2);
    TrapIsDoomed(g, t);
  }

  lemma OffCycleVictim()
    requires Shaped(OffCycleExample())
    ensures IsVictim(OffCycleExample(), 0) && !OnCycle(OffCycleExample(), 0)
  {
    OffCycleDoomed();
    OffCycleEdges();
    hide Edge, Doomed;
    if OnCycle(OffCycleExample(), 0) {
      OnCycleIsAwaited(OffCycleExample(), 0);
    }
  }

  /** A victim need not be part of a cycle: a run that ends in a graph whose victim is on none. */
  lemma VictimOffCycle() returns (gs: seq<Graph>, es: seq<Event>, v: int)
    ensures Run(gs, es) && gs[0] == Init(3, 2) && Consistent(gs[|es|])
    ensures IsVictim(gs[|es|], v) && !OnCycle(gs[|es|], v)
  {
    gs, es := OffCycleReachable();
    v := 0;
    RunKeeps(gs, es, |es|);
    OffCycleVictim();
  }
}
