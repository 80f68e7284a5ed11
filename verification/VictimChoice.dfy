/** When the victim of a detection is itself part of a cycle. */
module VictimChoice {
  import opened Common
  import opened WaitForGraph
  import opened ResourceRules
  import opened ResourceProofs

  /** No process that cannot proceed is waited for by two others that cannot: the stuck processes
      form rings without tails. */
  ghost predicate NoTails(g: Graph) {
    forall p, q, v :: p in Doomed(g) && q in Doomed(g) && Edge(g, p, v) && Edge(g, q, v) ==> p == q
  }

  // ----- every process waits for at most one other

  lemma OneSuccessor(g: Graph, p: int, u: int, v: int)
    requires Consistent(g) && Edge(g, p, u) && Edge(g, p, v)
    ensures u == v
  {
  }

  lemma {:induction false} SameWalk(g: Graph, w: seq<int>, x: seq<int>, i: nat)
    requires Consistent(g) && Walk(g, w) && Walk(g, x) && w[0] == x[0] && i < |w| && i < |x|
    ensures w[i] == x[i]
  {
    if i > 0 {
      SameWalk(g, w, x, i - 1);
      assert Edge(g, w[i - 1], w[i]) && Edge(g, x[i - 1], x[i]);
      OneSuccessor(g, w[i - 1], w[i], x[i]);
    }
  }

  /** Two closed walks from v come back to v from the same process. */
  lemma {:induction false} SameReturn(g: Graph, v: int, w: seq<int>, x: seq<int>)
    requires Consistent(g) && 1 < |w| <= |x| && WalkFromTo(g, w, v, v) && WalkFromTo(g, x, v, v)
    ensures w[|w| - 2] == x[|x| - 2]
    decreases |w| + |x|
  {
    var k := |w| - 1;
    SameWalk(g, w, x, k);
    SameWalk(g, w, x, k - 1);
    if k < |x| - 1 {
      var y := x[k..];
      assert WalkFromTo(g, y, v, v) && y[|y| - 2] == x[|x| - 2];
      if |w| <= |y| {
        SameReturn(g, v, w, y);
      } else {
        SameReturn(g, v, y, w);
      }
    }
  }

  /** A process on a cycle that waits for v closes a walk from v. */
  lemma CycleThrough(g: Graph, p: int, v: int) returns (w: seq<int>)
    requires Consistent(g) && OnCycle(g, p) && Edge(g, p, v)
    ensures |w| > 1 && WalkFromTo(g, w, v, v) && w[|w| - 2] == p
  {
    var c :| |c| > 1 && WalkFromTo(g, c, p, p);
    assert Edge(g, c[0], c[1]);
    OneSuccessor(g, p, v, c[1]);
    w := c[1..] + [v];
  }

  lemma TwoOnCycle(g: Graph, p: int, q: int, v: int)
    requires Consistent(g) && OnCycle(g, p) && OnCycle(g, q) && Edge(g, p, v) && Edge(g, q, v)
    ensures p == q
  {
    var w := CycleThrough(g, p, v);
    var x := CycleThrough(g, q, v);
    if |w| <= |x| {
      SameReturn(g, v, w, x);
    } else {
      SameReturn(g, v, x, w);
    }
  }

  // ----- without tails everybody who is stuck is on a cycle

  lemma {:induction false} BackToStart(g: Graph, w: seq<int>, i: nat, j: nat)
    requires NoTails(g) && Walk(g, w) && i < j < |w| && w[i] == w[j]
    requires forall k :: 0 <= k < |w| ==> w[k] in Doomed(g)
    ensures OnCycle(g, w[0])
    decreases i
  {
    if i > 0 {
      assert Edge(g, w[i - 1], w[i]) && Edge(g, w[j - 1], w[j]);
      BackToStart(g, w, i - 1, j - 1);
    } else {
      assert |w[..j + 1]| > 1 && WalkFromTo(g, w[..j + 1], w[0], w[0]);
    }
  }

  lemma NoTailsOnCycle(g: Graph, p: int)
    requires NoTails(g) && p in Doomed(g)
    ensures OnCycle(g, p)
  {
    DoomedIsTrap(g);
    var w := WalkInTrap(g, Doomed(g), p, |Doomed(g)|);
    if Distinct(w) {
      PigeonholeSet(w, Doomed(g));
      assert false;
    }
    var i, j :| 0 <= i < j < |w| && w[i] == w[j];
    BackToStart(g, w, i, j);
  }

  /** The victim is on a cycle exactly when every stuck process off the cycles is outranked by one on
      a cycle. */
  lemma VictimOnCycleIff(g: Graph, v: int)
    requires Consistent(g) && IsVictim(g, v)
    ensures OnCycle(g, v) <==>
            forall p :: p in Doomed(g) && !OnCycle(g, p) ==> OutrankedOnCycle(g, p)
  {
    if OnCycle(g, v) {
      forall p | p in Doomed(g) && !OnCycle(g, p)
        ensures OutrankedOnCycle(g, p)
      {
        assert Outranks(g, v, p);
      }
    }
  }

  ghost predicate OutrankedOnCycle(g: Graph, p: int)
    requires Consistent(g) && p in Doomed(g)
  {
    exists q :: q in Doomed(g) && OnCycle(g, q) && Outranks(g, q, p)
  }

  // ----- the priorities decide who is the victim, not who is stuck

  lemma PrioritiesDoNotMatter(g: Graph, prio: seq<int>)
    ensures var h := g.(prio := prio);
            Doomed(h) == Doomed(g) && forall v :: OnCycle(h, v) <==> OnCycle(g, v)
  {
    var h := g.(prio := prio);
    assert forall p, q :: Edge(h, p, q) <==> Edge(g, p, q);
    assert forall w :: Walk(h, w) <==> Walk(g, w);
    assert forall w, u, v :: WalkFromTo(h, w, u, v) <==> WalkFromTo(g, w, u, v);
    assert forall u, v :: Reaches(h, u, v) <==> Reaches(g, u, v);
    assert forall v :: OnCycle(h, v) <==> OnCycle(g, v);
    assert forall u :: LeadsToCycle(h, u) <==> LeadsToCycle(g, u);
  }

  /** Whoever is stuck becomes the victim if it is the least important of all. */
  lemma AnyCanBeVictim(g: Graph, p: int) returns (prio: seq<int>)
    requires Consistent(g) && p in Doomed(g)
    ensures |prio| == g.n && Consistent(g.(prio := prio)) && IsVictim(g.(prio := prio), p)
  {
    prio := seq(g.n, i => if i == p then 1 else 0);
    PrioritiesDoNotMatter(g, prio);
  }

  /** The victim is on a cycle whatever the priorities are ... */
  ghost predicate VictimsOnCycles(g: Graph)
    requires Consistent(g)
  {
    forall prio, v :: |prio| == g.n && IsVictimUnder(g, prio, v) ==> OnCycle(g, v)
  }

  ghost predicate IsVictimUnder(g: Graph, prio: seq<int>, v: int)
    requires Consistent(g) && |prio| == g.n
  {
    IsVictim(g.(prio := prio), v)
  }

  /** ... exactly when no two stuck processes wait for the same one. */
  lemma VictimsOnCyclesIffNoTails(g: Graph)
    requires Consistent(g)
    ensures VictimsOnCycles(g) <==> NoTails(g)
  {
    if NoTails(g) {
      forall prio, v | |prio| == g.n && IsVictimUnder(g, prio, v)
        ensures OnCycle(g, v)
      {
        PrioritiesDoNotMatter(g, prio);
        NoTailsOnCycle(g, v);
      }
    }
    if VictimsOnCycles(g) {
      forall p, q, v | p in Doomed(g) && q in Doomed(g) && Edge(g, p, v) && Edge(g, q, v)
        ensures p == q
      {
        var prio := AnyCanBeVictim(g, p);
        assert IsVictimUnder(g, prio, p);
        prio := AnyCanBeVictim(g, q);
        assert IsVictimUnder(g, prio, q);
        TwoOnCycle(g, p, q, v);
      }
    }
  }
}
