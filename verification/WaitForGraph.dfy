/** The resource graph of the deadlock manager as a value, and the theory of cycles in its wait-for graph. */
module WaitForGraph {
  import opened Common

  /** What the allocation and request matrices, counters, flags and wait queues of the
      deadlock manager say: which process holds or asks for which resource, which resources are
      free, which processes are active, who queues for what. */
  datatype Graph = Graph(
    n: nat,                     // number of process slots
    m: nat,                     // number of resources
    held: set<(int, int)>,      // (pid, rid): allocation[pid][rid] is 1
    asked: set<(int, int)>,     // (pid, rid): request[pid][rid] is 1
    free: set<int>,             // rid: available[rid] is 1
    active: set<int>,
    queue: seq<seq<int>>,       // one FIFO of pids per resource
    prio: seq<int>)

  /** p waits for q: p asks for a resource that another, active process q holds. */
  ghost predicate Edge(g: Graph, p: int, q: int) {
    q in g.active && p != q && exists r :: 0 <= r < g.m && (p, r) in g.asked && (q, r) in g.held
  }

  ghost predicate Walk(g: Graph, w: seq<int>) {
    |w| > 0 && forall i :: 0 <= i < |w| - 1 ==> Edge(g, w[i], w[i + 1])
  }

  lemma WalkExtends(g: Graph, w: seq<int>, q: int)
    requires Walk(g, w) && Edge(g, w[|w| - 1], q)
    ensures Walk(g, w + [q])
  {
  }

  ghost predicate WalkFromTo(g: Graph, w: seq<int>, u: int, v: int) {
    Walk(g, w) && w[0] == u && w[|w| - 1] == v
  }

  ghost predicate Reaches(g: Graph, u: int, v: int) {
    exists w :: WalkFromTo(g, w, u, v)
  }

  ghost predicate OnCycle(g: Graph, v: int) {
    exists w :: |w| > 1 && WalkFromTo(g, w, v, v)
  }

  ghost predicate HasCycle(g: Graph) {
    exists v :: OnCycle(g, v)
  }

  /** A process that waits, directly or not, on a cycle: it can never proceed by itself. */
  ghost predicate LeadsToCycle(g: Graph, u: int) {
    exists v :: Reaches(g, u, v) && OnCycle(g, v)
  }

  ghost function Doomed(g: Graph): set<int> {
    set p | p in g.active && LeadsToCycle(g, p)
  }

  // ----- one step along an edge

  lemma LeadsOn(g: Graph, p: int) returns (q: int)
    requires LeadsToCycle(g, p)
    ensures Edge(g, p, q) && LeadsToCycle(g, q)
  {
    var v :| Reaches(g, p, v) && OnCycle(g, v);
    var w :| WalkFromTo(g, w, p, v);
    if |w| == 1 {
      w :| |w| > 1 && WalkFromTo(g, w, v, v);
    }
    q := w[1];
    assert Edge(g, w[0], w[1]);
    assert WalkFromTo(g, w[1..], q, v);
  }

  /** A process none of whose successors leads to a cycle does not lead to one either. */
  lemma LeadsNowhere(g: Graph, p: int)
    requires forall q :: Edge(g, p, q) ==> !LeadsToCycle(g, q)
    ensures !LeadsToCycle(g, p)
  {
    if LeadsToCycle(g, p) {
      var q := LeadsOn(g, p);
    }
  }

  /** The last step of a depth-first search: a walk whose last process waits for one of the walk. */
  lemma BackEdge(g: Graph, w: seq<int>, q: int)
    requires Walk(g, w) && q in w && Edge(g, w[|w| - 1], q)
    ensures forall p :: p in w ==> LeadsToCycle(g, p)
  {
    var k :| 0 <= k < |w| && w[k] == q;
    assert |w[k..] + [q]| > 1 && WalkFromTo(g, w[k..] + [q], q, q);
    forall p | p in w
      ensures LeadsToCycle(g, p)
    {
      var i :| 0 <= i < |w| && w[i] == p;
      assert WalkFromTo(g, w[i..] + [q], p, q);
      assert Reaches(g, p, q) && OnCycle(g, q);
    }
  }

  // ----- sets in which everybody waits for somebody of the set

  ghost predicate WaitsInside(g: Graph, t: set<int>, p: int) {
    exists q :: q in t && Edge(g, p, q)
  }

  ghost predicate Trap(g: Graph, t: set<int>) {
    forall p {:trigger WaitsInside(g, t, p)} :: p in t ==> WaitsInside(g, t, p)
  }

  lemma {:induction false} WalkInTrap(g: Graph, t: set<int>, p: int, k: nat) returns (w: seq<int>)
    requires Trap(g, t) && p in t
    ensures |w| == k + 1 && Walk(g, w) && w[0] == p
    ensures forall i :: 0 <= i < |w| ==> w[i] in t
    decreases k
  {
    if k == 0 {
      return [p];
    }
    assert WaitsInside(g, t, p);
    var q :| q in t && Edge(g, p, q);
    var rest := WalkInTrap(g, t, q, k - 1);
    w := [p] + rest;
  }

  /** Everybody in a finite set without a way out leads to a cycle. */
  lemma TrapLeadsToCycle(g: Graph, t: set<int>, p: int)
    requires Trap(g, t) && p in t
    ensures LeadsToCycle(g, p)
  {
    var w := WalkInTrap(g, t, p, |t|);
    if Distinct(w) {
      PigeonholeSet(w, t);
      assert false;
    }
    var i, j :| 0 <= i < j < |w| && w[i] == w[j];
    assert WalkFromTo(g, w[..i + 1], p, w[i]);
    assert |w[i..j + 1]| > 1 && WalkFromTo(g, w[i..j + 1], w[i], w[i]);
    assert Reaches(g, p, w[i]) && OnCycle(g, w[i]);
  }

  lemma DoomedIsTrap(g: Graph)
    ensures Trap(g, Doomed(g))
  {
    forall p | p in Doomed(g)
      ensures WaitsInside(g, Doomed(g), p)
    {
      var q := LeadsOn(g, p);
    }
  }

  /** Doomed is such a set of active processes, and holds every other one. */
  lemma DoomedIsLargestTrap(g: Graph)
    ensures Trap(g, Doomed(g)) && Doomed(g) <= g.active
    ensures forall t {:trigger Trap(g, t)} :: Trap(g, t) && t <= g.active ==> t <= Doomed(g)
  {
    DoomedIsTrap(g);
    forall t | Trap(g, t) && t <= g.active
      ensures t <= Doomed(g)
    {
      TrapIsDoomed(g, t);
    }
  }

  lemma TrapIsDoomed(g: Graph, t: set<int>)
    requires Trap(g, t) && t <= g.active
    ensures t <= Doomed(g)
  {
    forall p | p in t
      ensures p in Doomed(g)
    {
      TrapLeadsToCycle(g, t, p);
    }
  }

  lemma OnCycleIsDoomed(g: Graph, v: int)
    requires OnCycle(g, v)
    ensures v in Doomed(g)
  {
    var w :| |w| > 1 && WalkFromTo(g, w, v, v);
    assert Edge(g, w[|w| - 2], w[|w| - 1]);
    assert WalkFromTo(g, [v], v, v);
  }

  lemma OnCycleIsAwaited(g: Graph, v: int)
    requires OnCycle(g, v)
    ensures exists p :: Edge(g, p, v)
  {
    var w :| |w| > 1 && WalkFromTo(g, w, v, v);
    assert Edge(g, w[|w| - 2], w[|w| - 1]);
  }

  lemma NoCycleIffNoneDoomed(g: Graph)
    ensures HasCycle(g) <==> Doomed(g) != {}
  {
    if HasCycle(g) {
      var v :| OnCycle(g, v);
      OnCycleIsDoomed(g, v);
    }
    if Doomed(g) != {} {
      var p :| p in Doomed(g);
    }
  }

  // ----- without a cycle there is an order in which everybody can finish

  /** Each process of the order waits only for processes that come before it. */
  ghost predicate CompletionOrder(g: Graph, order: seq<int>) {
    && Distinct(order)
    && forall i, q :: 0 <= i < |order| && Edge(g, order[i], q) ==> q in order[..i]
  }

  lemma {:induction false} OrderOf(g: Graph, todo: set<int>, done: seq<int>) returns (order: seq<int>)
    requires !HasCycle(g)
    requires todo + Elements(done) == g.active && todo !! Elements(done)
    requires CompletionOrder(g, done)
    ensures CompletionOrder(g, order) && Elements(order) == g.active
    decreases |todo|
  {
    if todo == {} {
      return done;
    }
    NoCycleIffNoneDoomed(g);
    if Trap(g, todo) {
      TrapIsDoomed(g, todo);
      assert false;
    }
    var p :| p in todo && !WaitsInside(g, todo, p);
    forall q | Edge(g, p, q)
      ensures q in done
    {
      assert q in g.active && q !in todo;
    }
    OrderSnoc(g, done, p);
    assert Elements(done + [p]) == Elements(done) + {p};
    hide CompletionOrder, Elements;
    order := OrderOf(g, todo - {p}, done + [p]);
  }

  lemma OrderSnoc(g: Graph, done: seq<int>, p: int)
    requires CompletionOrder(g, done) && p !in done && forall q :: Edge(g, p, q) ==> q in done
    ensures CompletionOrder(g, done + [p])
  {
    var next := done + [p];
    forall i, q | 0 <= i < |next| && Edge(g, next[i], q)
      ensures q in next[..i]
    {
      if i < |done| {
        assert next[..i] == done[..i];
      } else {
        assert next[..i] == done;
      }
    }
  }

  /** No cycle: all active processes can be lined up so that each waits only for earlier ones.
      A cycle: they cannot. */
  lemma CompletionOrderIffNoCycle(g: Graph)
    ensures !HasCycle(g) <==> exists order :: CompletionOrder(g, order) && Elements(order) == g.active
  {
    if !HasCycle(g) {
      var order := OrderOf(g, g.active, []);
    }
    forall order | CompletionOrder(g, order) && Elements(order) == g.active
      ensures !HasCycle(g)
    {
      OrderRulesOutCycle(g, order);
    }
  }

  lemma OrderRulesOutCycle(g: Graph, order: seq<int>)
    requires CompletionOrder(g, order) && Elements(order) == g.active
    ensures !HasCycle(g)
  {
    NobodyDoomedInOrder(g, order, |order|);
    assert order[..|order|] == order;
    assert forall p :: p in g.active <==> p in order;
    NoCycleIffNoneDoomed(g);
  }

  lemma {:induction false} NobodyDoomedInOrder(g: Graph, order: seq<int>, k: nat)
    requires CompletionOrder(g, order) && k <= |order|
    ensures forall p :: p in order[..k] ==> !LeadsToCycle(g, p)
    decreases k
  {
    if k > 0 {
      NobodyDoomedInOrder(g, order, k - 1);
      assert order[..k] == order[..k - 1] + [order[k - 1]];
      if LeadsToCycle(g, order[k - 1]) {
        var q := LeadsOn(g, order[k - 1]);
        assert false;
      }
    }
  }
}
