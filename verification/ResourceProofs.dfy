/** The operations of the deadlock manager keep the resource graph consistent. */
module ResourceProofs {
  import opened Common
  import opened WaitForGraph
  import opened ResourceRules

  lemma InitConsistent(n: nat, m: nat)
    ensures Consistent(Init(n, m)) && Settled(Init(n, m)) && !HasCycle(Init(n, m))
  {
    NoCycleIffNoneDoomed(Init(n, m));
  }

  lemma QueuingKeeps(g: Graph, p: int, r: int)
    requires Consistent(g) && NotWaiting(g, p) && InRange(g, p, r) && (p, r) !in g.held && r !in g.free
    ensures |g.queue[r]| < g.n && Consistent(Request(g, p, r).0)
  {
    var h := Request(g, p, r).0;
    PigeonholeMissing(g.queue[r], g.n, p);
    assert h.queue[r] == g.queue[r] + [p];
    assert forall x :: x in h.queue[r] <==> x in g.queue[r] || x == p;
    assert forall s :: 0 <= s < g.m && s != r ==> h.queue[s] == g.queue[s];
    assert QueuesAgree(h);
  }

  lemma RequestKeeps(g: Graph, p: int, r: int)
    requires Consistent(g) && NotWaiting(g, p)
    ensures Consistent(Request(g, p, r).0)
    ensures Settled(g) ==> Settled(Request(g, p, r).0)
    ensures InRange(g, p, r) && (p, r) !in g.held && r !in g.free ==> |g.queue[r]| < g.n
  {
    var h := Request(g, p, r).0;
    if InRange(g, p, r) && (p, r) !in g.held && r !in g.free {
      QueuingKeeps(g, p, r);
    }
    forall s | 0 <= s < g.m && SettledAt(g, s)
      ensures SettledAt(h, s)
    {
      assert s == r || h.queue[s] == g.queue[s];
    }
  }

  /** A request of a process that is free to grant keeps everything, even if the process waits for
      something else. */
  lemma GrantKeeps(g: Graph, p: int, r: int)
    requires Consistent(g) && Settled(g) && InRange(g, p, r) && r in g.free
    ensures Consistent(Request(g, p, r).0)
  {
    assert SettledAt(g, r);
    forall s | 0 <= s < g.m
      ensures forall x :: x in g.queue[s] ==> x in g.active
    {
      assert SettledAt(g, s);
    }
  }

  /** Somebody who waits already is entered a second time, or waits for two resources. */
  lemma AskingTwice(g: Graph, p: int, r: int)
    requires Consistent(g) && Settled(g) && !MayAsk(g, p, r)
    ensures !Consistent(Request(g, p, r).0)
  {
    var h := Request(g, p, r).0;
    var s :| 0 <= s < g.m && p in g.queue[s];
    assert SettledAt(g, s) && (p, s) in h.asked && (p, r) in h.asked;
    if s == r {
      var q :| (q, r) in g.held;
      PigeonholeMissing(g.queue[r], g.n, q);
      var i :| 0 <= i < |g.queue[r]| && g.queue[r][i] == p;
      assert h.queue[r] == g.queue[r] + [p];
      assert h.queue[r][i] == h.queue[r][|g.queue[r]|];
    }
  }

  /** In a settled graph a request keeps everything exactly when it does not make a process wait that
      waits already. */
  lemma RequestKeepsIffMayAsk(g: Graph, p: int, r: int)
    requires Consistent(g) && Settled(g)
    ensures Consistent(Request(g, p, r).0) <==> MayAsk(g, p, r)
    ensures MayAsk(g, p, r) ==> Settled(Request(g, p, r).0)
  {
    var h := Request(g, p, r).0;
    if !MayAsk(g, p, r) {
      AskingTwice(g, p, r);
    } else if InRange(g, p, r) && r in g.free {
      GrantKeeps(g, p, r);
      assert forall s :: 0 <= s < g.m && SettledAt(g, s) ==> SettledAt(h, s);
    } else if NotWaiting(g, p) {
      RequestKeeps(g, p, r);
    }
  }

  /** When a request keeps the graph consistent, settled or not. */
  lemma RequestKeepsIf(g: Graph, p: int, r: int)
    requires Consistent(g)
    ensures NotWaiting(g, p) || (Settled(g) && MayAsk(g, p, r)) ==> Consistent(Request(g, p, r).0)
  {
    if NotWaiting(g, p) {
      RequestKeeps(g, p, r);
    } else if Settled(g) {
      RequestKeepsIffMayAsk(g, p, r);
    }
  }

  // ----- waking one queue

  lemma {:induction false} LiveMembers(q: seq<int>, active: set<int>)
    ensures forall x :: x in Live(q, active) <==> x in q && x in active
    ensures Distinct(q) ==> Distinct(Live(q, active))
    ensures |Live(q, active)| <= |q|
  {
    if q != [] {
      LiveMembers(q[1..], active);
      assert q == [q[0]] + q[1..];
    }
  }

  lemma {:induction false} LiveBelow(q: seq<int>, active: set<int>, n: nat)
    requires Below(q, n)
    ensures Below(Live(q, active), n)
  {
    if q != [] {
      LiveBelow(q[1..], active, n);
    }
  }

  /** What waking the queue of r does to everything but the queue itself. */
  ghost predicate WokenFrom(g: Graph, h: Graph) {
    && h.n == g.n && h.m == g.m && h.active == g.active && h.prio == g.prio
    && g.held <= h.held && h.asked <= g.asked && h.free <= g.free
    && (forall a :: a in h.held && a !in g.held ==> a in g.asked && a !in h.asked)
    && (forall a :: a in g.asked && a !in h.asked ==> a in h.held)
  }

  lemma WakeQueues(g: Graph, r: int)
    requires Consistent(g) && 0 <= r < g.m
    ensures forall s :: 0 <= s < g.m ==> Distinct(Wake(g, r).queue[s]) && Below(Wake(g, r).queue[s], g.n)
  {
    var live := Live(g.queue[r], g.active);
    LiveMembers(g.queue[r], g.active);
    LiveBelow(g.queue[r], g.active, g.n);
    assert live != [] ==> Below(live[1..], g.n) && Distinct(live[1..]);
    forall s | 0 <= s < g.m
      ensures Distinct(Wake(g, r).queue[s]) && Below(Wake(g, r).queue[s], g.n)
    {
      if s != r {
        assert Wake(g, r).queue[s] == g.queue[s];
      }
    }
  }

  lemma WakeDrops(g: Graph, r: int)
    requires Consistent(g) && 0 <= r < g.m
    requires Live(g.queue[r], g.active) == [] || r !in g.free
    ensures Consistent(Wake(g, r)) && WokenFrom(g, Wake(g, r)) && SettledAt(Wake(g, r), r)
  {
    LiveMembers(g.queue[r], g.active);
    WakeQueues(g, r);
  }

  lemma WakeGrants(g: Graph, r: int)
    requires Consistent(g) && 0 <= r < g.m
    requires Live(g.queue[r], g.active) != [] && r in g.free
    ensures Consistent(Wake(g, r)) && WokenFrom(g, Wake(g, r)) && SettledAt(Wake(g, r), r)
  {
    var h := Wake(g, r);
    var live := Live(g.queue[r], g.active);
    LiveMembers(g.queue[r], g.active);
    WakeQueues(g, r);
    var w := live[0];
    assert w in live && (w, r) in g.asked;
    assert forall x :: x in live <==> x == w || x in live[1..];
    assert w !in live[1..];
    assert Shaped(h) && Conserved(h);
  }

  lemma WakeKeeps(g: Graph, r: int)
    requires Consistent(g) && 0 <= r < g.m
    ensures Consistent(Wake(g, r)) && WokenFrom(g, Wake(g, r)) && SettledAt(Wake(g, r), r)
    ensures forall s :: 0 <= s < g.m && SettledAt(g, s) ==> SettledAt(Wake(g, r), s)
  {
    if Live(g.queue[r], g.active) == [] || r !in g.free {
      WakeDrops(g, r);
    } else {
      WakeGrants(g, r);
    }
    forall s | 0 <= s < g.m && s != r && SettledAt(g, s)
      ensures SettledAt(Wake(g, r), s)
    {
      assert Wake(g, r).queue[s] == g.queue[s];
    }
  }

  // ----- waking all queues, killing a process

  lemma WokenFromTransitive(f: Graph, g: Graph, h: Graph)
    requires WokenFrom(f, g) && WokenFrom(g, h)
    ensures WokenFrom(f, h)
  {
  }

  /** The state after waking the queues below k. */
  ghost predicate WokenUpTo(g: Graph, h: Graph, k: nat) {
    && Consistent(h) && WokenFrom(g, h)
    && forall r :: 0 <= r < k <= h.m ==> SettledAt(h, r)
  }

  lemma WokenNothing(g: Graph)
    requires Consistent(g)
    ensures WokenUpTo(g, g, 0)
  {
  }

  lemma WakeOneMore(g: Graph, h: Graph, k: nat)
    requires WokenUpTo(g, h, k) && k < h.m
    ensures WokenUpTo(g, Wake(h, k), k + 1)
  {
    WakeKeeps(h, k);
    WokenFromTransitive(g, h, Wake(h, k));
  }

  lemma {:induction false} WakeAllKeeps(g: Graph, k: nat)
    requires Consistent(g) && |g.queue| == g.m && k <= g.m
    ensures WokenUpTo(g, WakeAll(g, k), k)
  {
    hide Consistent, WokenUpTo, Wake, WokenFrom, SettledAt;
    if k == 0 {
      WokenNothing(g);
    } else {
      WakeAllKeeps(g, k - 1);
      WakeOneMore(g, WakeAll(g, k - 1), k - 1);
    }
  }

  /** Waking the queues below k does not change who is to be given a resource r from k on; those
      below k have been given theirs. */
  lemma {:induction false} WakeAllLeaves(g: Graph, k: nat, r: int)
    requires |g.queue| == g.m && k <= g.m && 0 <= r < g.m
    ensures WakeAll(g, k).active == g.active
    ensures r >= k ==> WakeAll(g, k).queue[r] == g.queue[r] && WokenBy(WakeAll(g, k), r) == WokenBy(g, r)
    ensures forall p :: (p, r) in WakeAll(g, k).held <==> (p, r) in g.held || (r < k && p in WokenBy(g, r))
  {
    if k > 0 {
      WakeAllLeaves(g, k - 1, r);
      var h := WakeAll(g, k - 1);
      LiveMembers(h.queue[k - 1], h.active);
    }
  }

  lemma WokenInTurn(g: Graph, r: int)
    requires |g.queue| == g.m && 0 <= r < g.m
    ensures WokenBy(WakeAll(g, r), r) == WokenBy(g, r)
  {
    WakeAllLeaves(g, r, r);
  }

  lemma CleanupKeeps(g: Graph, p: int)
    requires Consistent(g) && 0 <= p < g.n
    ensures Consistent(Cleanup(g, p))
    ensures forall a :: a in Cleanup(g, p).held <==> a in g.held && a.0 != p
    ensures forall a :: a in Cleanup(g, p).asked <==> a in g.asked && a.0 != p
  {
  }

  /** Killing a process leaves a consistent graph in which no free resource has a waiter. */
  lemma ResolveKeeps(g: Graph, p: int)
    requires Consistent(g) && 0 <= p < g.n
    ensures var h := Resolve(g, p);
            Consistent(h) && Settled(h) && h.active == g.active - {p} && WokenFrom(Cleanup(g, p), h)
  {
    CleanupKeeps(g, p);
    WakeAllKeeps(Cleanup(g, p), g.m);
  }

  /** A kill takes the killed process out of the set of doomed processes and puts nobody in:
      whoever is given a resource has no request left. */
  lemma ResolveShrinksDoomed(g: Graph, p: int)
    requires Consistent(g) && 0 <= p < g.n
    ensures Doomed(Resolve(g, p)) <= Doomed(g) - {p}
  {
    var c, h := Cleanup(g, p), Resolve(g, p);
    ResolveKeeps(g, p);
    CleanupKeeps(g, p);
    var t := Doomed(h);
    forall x | x in t
      ensures WaitsInside(g, t, x)
    {
      var y := LeadsOn(h, x);
      var z := LeadsOn(h, y);
      var r :| 0 <= r < h.m && (x, r) in h.asked && (y, r) in h.held;
      var r' :| 0 <= r' < h.m && (y, r') in h.asked && (z, r') in h.held;
      assert (y, r) !in h.asked;
      assert (y, r) in c.held;
      assert Edge(g, x, y);
    }
    TrapIsDoomed(g, t);
  }

  // ----- detect, resolve, detect, resolve, ...

  /** The process i is preferred to j as a victim: less important, or as important with a larger pid. */
  ghost predicate Outranks(g: Graph, i: int, j: int)
    requires 0 <= i < |g.prio| && 0 <= j < |g.prio|
  {
    g.prio[i] > g.prio[j] || (g.prio[i] == g.prio[j] && i > j)
  }

  ghost predicate IsVictim(g: Graph, v: int)
    requires Shaped(g)
  {
    v in Doomed(g) && forall p :: p in Doomed(g) && p != v ==> Outranks(g, v, p)
  }

  /** A history of detections, each followed by the kill of its victim. */
  ghost predicate ResolvingRun(gs: seq<Graph>, vs: seq<int>) {
    && |gs| == |vs| + 1
    && (forall i :: 0 <= i < |gs| ==> Consistent(gs[i]))
    && (forall i :: 0 <= i < |vs| ==> IsVictim(gs[i], vs[i]) && gs[i + 1] == Resolve(gs[i], vs[i]))
  }

  lemma {:induction false} EachRoundSavesOne(gs: seq<Graph>, vs: seq<int>, i: nat)
    requires ResolvingRun(gs, vs) && i < |gs|
    ensures Doomed(gs[i]) <= Doomed(gs[0]) && |Doomed(gs[i])| + i <= |Doomed(gs[0])|
    ensures forall j :: 0 <= j < i ==> vs[j] in Doomed(gs[0]) && vs[j] !in Doomed(gs[i])
  {
    if i > 0 {
      EachRoundSavesOne(gs, vs, i - 1);
      var g, v := gs[i - 1], vs[i - 1];
      assert IsVictim(g, v) && gs[i] == Resolve(g, v);
      ResolveShrinksDoomed(g, v);
      SubsetSize(Doomed(gs[i]), Doomed(g) - {v});
    }
  }

  lemma {:induction false} SubsetSize<T>(a: set<T>, b: set<T>)
    requires a <= b
    ensures |a| <= |b|
  {
    if a != {} {
      var x :| x in a;
      SubsetSize(a - {x}, b - {x});
    }
  }

  /** Detect-and-resolve ends: no history of rounds is longer than the number of processes that
      lead to a cycle at its start; one that is as long has removed every cycle, and so has one that
      cannot be continued. The victims are different processes, all doomed from the start. */
  lemma DetectResolveTerminates(gs: seq<Graph>, vs: seq<int>)
    requires ResolvingRun(gs, vs)
    ensures |vs| <= |Doomed(gs[0])|
    ensures Distinct(vs) && forall j :: 0 <= j < |vs| ==> vs[j] in Doomed(gs[0])
    ensures |vs| == |Doomed(gs[0])| ==> !HasCycle(gs[|vs|])
    ensures (forall v :: !IsVictim(gs[|vs|], v)) ==> !HasCycle(gs[|vs|])
  {
    var last := gs[|vs|];
    EachRoundSavesOne(gs, vs, |vs|);
    NoCycleIffNoneDoomed(last);
    forall i, j | 0 <= i < j < |vs|
      ensures vs[i] != vs[j]
    {
      EachRoundSavesOne(gs, vs, j);
      assert IsVictim(gs[j], vs[j]);
    }
    if HasCycle(last) {
      var v := VictimExists(last, Doomed(last));
      assert IsVictim(last, v);
    }
  }

  lemma {:induction false} VictimExists(g: Graph, t: set<int>) returns (v: int)
    requires t != {} && |g.prio| == g.n
    requires (forall p :: p in g.active ==> 0 <= p < g.n) && forall p :: p in t ==> p in g.active
    ensures v in t && forall p :: p in t && p != v ==> Outranks(g, v, p)
    decreases |t|
  {
    var u :| u in t;
    if t == {u} {
      return u;
    }
    var w := VictimExists(g, t - {u});
    v := if Outranks(g, w, u) then w else u;
    assert forall p :: p in t ==> p == u || p in t - {u};
  }
}
