/** What it means for the processes that a detection finds nothing: all of them can finish. */
module Completion {
  import opened WaitForGraph
  import opened ResourceRules
  import opened ResourceProofs

  /** p asks for nothing, so it can run to its end. */
  ghost predicate CanFinish(g: Graph, p: int) {
    p in g.active && forall r :: (p, r) !in g.asked
  }

  /** One process after another runs to its end, and what it held is handed on. */
  ghost predicate Finishing(gs: seq<Graph>, ps: seq<int>) {
    && |gs| == |ps| + 1
    && (forall i :: 0 <= i < |gs| ==> Consistent(gs[i]) && Settled(gs[i]))
    && (forall i :: 0 <= i < |ps| ==> CanFinish(gs[i], ps[i]) && gs[i + 1] == Resolve(gs[i], ps[i]))
  }

  ghost predicate AllFinish(g: Graph, gs: seq<Graph>, ps: seq<int>) {
    Finishing(gs, ps) && gs[0] == g && gs[|ps|].active == {}
  }

  /** In a settled graph a process that waits for nobody asks for nothing. */
  lemma WaitsForNobody(g: Graph, p: int)
    requires Consistent(g) && Settled(g) && p in g.active && forall q :: !Edge(g, p, q)
    ensures CanFinish(g, p)
  {
    forall r
      ensures (p, r) !in g.asked
    {
      if (p, r) in g.asked {
        assert SettledAt(g, r);
        var q :| (q, r) in g.held;
        assert Edge(g, p, q);
      }
    }
  }

  lemma SomebodyCanFinish(g: Graph) returns (p: int)
    requires Consistent(g) && Settled(g) && !HasCycle(g) && g.active != {}
    ensures CanFinish(g, p)
  {
    NoCycleIffNoneDoomed(g);
    if Trap(g, g.active) {
      TrapIsDoomed(g, g.active);
      assert false;
    }
    p :| p in g.active && !WaitsInside(g, g.active, p);
    WaitsForNobody(g, p);
  }

  lemma {:induction false} FinishAll(g: Graph) returns (gs: seq<Graph>, ps: seq<int>)
    requires Consistent(g) && Settled(g) && !HasCycle(g)
    ensures AllFinish(g, gs, ps)
    decreases |g.active|
  {
    if g.active == {} {
      return [g], [];
    }
    var p := SomebodyCanFinish(g);
    var h := Resolve(g, p);
    ResolveKeeps(g, p);
    ResolveShrinksDoomed(g, p);
    NoCycleIffNoneDoomed(g);
    NoCycleIffNoneDoomed(h);
    SubsetSize(h.active, g.active - {p});
    gs, ps := FinishAll(h);
    FinishFirst(g, p, gs, ps);
    gs, ps := [g] + gs, [p] + ps;
  }

  lemma FinishFirst(g: Graph, p: int, gs: seq<Graph>, ps: seq<int>)
    requires Consistent(g) && Settled(g) && CanFinish(g, p) && AllFinish(Resolve(g, p), gs, ps)
    ensures AllFinish(g, [g] + gs, [p] + ps)
  {
    hide Consistent, Settled, CanFinish, Resolve;
  }

  /** The end of a process that can finish helps nobody who is doomed. */
  lemma FinishKeepsDoomed(g: Graph, p: int)
    requires Consistent(g) && CanFinish(g, p)
    ensures Doomed(g) <= Doomed(Resolve(g, p))
  {
    var h, t := Resolve(g, p), Doomed(g);
    ResolveKeeps(g, p);
    CleanupKeeps(g, p);
    DoomedIsTrap(g);
    forall x | x in t
      ensures WaitsInside(h, t, x) && x != p
    {
      var y := LeadsOn(g, x);
      var z := LeadsOn(g, y);
      var r :| 0 <= r < g.m && (x, r) in g.asked && (y, r) in g.held;
      var s :| 0 <= s < g.m && (y, s) in g.asked;
      assert x != p && y != p;
      assert (y, r) in h.held && (x, r) in h.asked;
      assert Edge(h, x, y);
    }
    TrapIsDoomed(h, t);
  }

  lemma {:induction false} DoomedToTheEnd(gs: seq<Graph>, ps: seq<int>, i: nat)
    requires Finishing(gs, ps) && i < |gs|
    ensures Doomed(gs[0]) <= Doomed(gs[i])
  {
    if i > 0 {
      DoomedToTheEnd(gs, ps, i - 1);
      assert CanFinish(gs[i - 1], ps[i - 1]) && gs[i] == Resolve(gs[i - 1], ps[i - 1]);
      FinishKeepsDoomed(gs[i - 1], ps[i - 1]);
    }
  }

  /** The wait-for graph has no cycle exactly when all processes can finish one after another, each
      having been given by then all that it asked for. */
  lemma NoCycleIffAllCanFinish(g: Graph)
    requires Consistent(g) && Settled(g)
    ensures !HasCycle(g) <==> exists gs, ps :: AllFinish(g, gs, ps)
  {
    if !HasCycle(g) {
      var gs, ps := FinishAll(g);
    }
    forall gs, ps | AllFinish(g, gs, ps)
      ensures !HasCycle(g)
    {
      DoomedToTheEnd(gs, ps, |ps|);
      NoCycleIffNoneDoomed(g);
    }
  }
}
