/** What each operation of the deadlock manager answers and does, said of the processes and resources. */
module ResourceOutcomes {
  import opened Common
  import opened WaitForGraph
  import opened ResourceRules
  import opened ResourceProofs

  /** Nothing but who holds what, who asks for what and who queues where differs, and that only for the
      pair (p, r). */
  ghost predicate OnlyFor(g: Graph, h: Graph, p: int, r: int) {
    && h.n == g.n && h.m == g.m && h.prio == g.prio && |h.queue| == |g.queue|
    && (forall a :: a != (p, r) ==> (a in h.held <==> a in g.held) && (a in h.asked <==> a in g.asked))
    && (forall s :: s != r ==> (s in h.free <==> s in g.free))
    && (forall x :: x != p ==> (x in h.active <==> x in g.active))
    && (forall s :: 0 <= s < |g.queue| && s != r ==> h.queue[s] == g.queue[s])
  }

  /** deadlock_request: 0 to exactly those who did not hold the resource and hold it now, which are those for
      whom it was free; 1 to those who held it; -1 to the others, who stand at the end of the queue from
      now on, as long as it has room. */
  lemma RequestOutcome(g: Graph, p: int, r: int)
    requires |g.queue| == g.m
    ensures var (h, code) := Request(g, p, r);
            && (code == 0 <==> (p, r) !in g.held && (p, r) in h.held)
            && (code == 0 <==> 0 <= p < g.n && 0 <= r < g.m && (p, r) !in g.held && r in g.free)
            && (code == 1 <==> 0 <= p < g.n && 0 <= r < g.m && (p, r) in g.held)
            && (code == 0 || code == 1 || code == -1)
            && (code == 0 ==> r !in h.free && (p, r) !in h.asked && p in h.active && h.queue[r] == g.queue[r])
            && (code == 1 || !(0 <= p < g.n && 0 <= r < g.m) ==> h == g)
            && (code == -1 && 0 <= p < g.n && 0 <= r < g.m ==>
                  && (p, r) in h.asked && p in h.active && h.held == g.held && h.free == g.free
                  && h.queue[r] == g.queue[r] + (if |g.queue[r]| < g.n then [p] else []))
            && (h == g || (0 <= r < g.m && OnlyFor(g, h, p, r)))
  {
  }

  /** deadlock_alloc */
  lemma AllocOutcome(g: Graph, p: int, r: int)
    requires |g.queue| == g.m
    ensures var (h, code) := Alloc(g, p, r);
            && (code == 0 <==> 0 <= p < g.n && 0 <= r < g.m && r in g.free)
            && (code == 0 || code == -1) && (code == -1 ==> h == g)
            && (code == 0 ==>
                  && (p, r) in h.held && r !in h.free && (p, r) !in h.asked && p in h.active
                  && h.queue == g.queue && OnlyFor(g, h, p, r))
  {
  }

  /** deadlock_release: who holds a resource gives it back, and nobody gets it. */
  lemma ReleaseOutcome(g: Graph, p: int, r: int)
    requires Consistent(g)
    ensures var h := Release(g, p, r);
            && ((p, r) !in g.held ==> h == g)
            && ((p, r) in g.held ==>
                  && r in h.free && (forall q :: (q, r) !in h.held) && h.asked == g.asked
                  && h.active == g.active && h.queue == g.queue && OnlyFor(g, h, p, r))
  {
  }

  /** deadlock_set_priority */
  lemma PriorityOutcome(g: Graph, p: int, v: int)
    requires |g.prio| == g.n
    ensures var h := SetPriority(g, p, v);
            && (!(0 <= p < g.n) ==> h == g)
            && (0 <= p < g.n ==>
                  && |h.prio| == g.n && h.prio[p] == v && h == g.(prio := h.prio)
                  && forall q :: 0 <= q < g.n && q != p ==> h.prio[q] == g.prio[q])
  {
  }

  // ----- waking

  /** x stands before y in the queue q. */
  ghost predicate Before(q: seq<int>, x: int, y: int) {
    exists i, j :: 0 <= i < j < |q| && q[i] == x && q[j] == y
  }

  lemma {:induction false} LiveOrder(q: seq<int>, active: set<int>, i: int, j: int)
    requires 0 <= i < j < |Live(q, active)|
    ensures Before(q, Live(q, active)[i], Live(q, active)[j])
  {
    var l, rest := Live(q, active), Live(q[1..], active);
    LiveMembers(q[1..], active);
    if q[0] in active && i == 0 {
      assert l[j] == rest[j - 1] && rest[j - 1] in rest;
      var k :| 0 <= k < |q[1..]| && q[1..][k] == l[j];
      assert q[0] == l[0] && q[k + 1] == l[j];
    } else {
      var d := if q[0] in active then 1 else 0;
      LiveOrder(q[1..], active, i - d, j - d);
      var a, b :| 0 <= a < b < |q[1..]| && q[1..][a] == rest[i - d] && q[1..][b] == rest[j - d];
      assert q[a + 1] == l[i] && q[b + 1] == l[j];
    }
  }

  /** deadlock_wake_waiters: if r is free and somebody active waits for it, it goes to the one of them who
      stands first, who is reported; otherwise nobody gets anything. */
  lemma WakeOutcome(g: Graph, r: int)
    requires Consistent(g) && 0 <= r < g.m
    ensures var h, q, got := Wake(g, r), g.queue[r], WokenBy(g, r);
            && (got != [] <==> r in g.free && SomebodyWaits(q, g.active))
            && (got != [] ==>
                  && |got| == 1 && got[0] in q && got[0] in g.active
                  && (forall x :: x in q && x in g.active && x != got[0] ==> Before(q, got[0], x))
                  && h.held == g.held + {(got[0], r)} && h.asked == g.asked - {(got[0], r)}
                  && h.free == g.free - {r})
            && (got == [] ==> h.held == g.held && h.asked == g.asked && h.free == g.free)
            && h.active == g.active && h.prio == g.prio && h.n == g.n && h.m == g.m
  {
    var q, live, got := g.queue[r], Live(g.queue[r], g.active), WokenBy(g, r);
    LiveHead(q, g.active);
    if got != [] {
      FirstLive(q, g.active);
    }
    hide QueuesAgree, Conserved, Live, Before;
  }

  ghost predicate SomebodyWaits(q: seq<int>, active: set<int>) {
    exists x :: x in q && x in active
  }

  lemma LiveHead(q: seq<int>, active: set<int>)
    ensures Live(q, active) != [] ==> Live(q, active)[0] in q && Live(q, active)[0] in active
    ensures Live(q, active) != [] <==> SomebodyWaits(q, active)
  {
    LiveMembers(q, active);
    if Live(q, active) != [] {
      var x := Live(q, active)[0];
      assert x in Live(q, active);
      assert x in q && x in active;
    }
    if SomebodyWaits(q, active) {
      var x :| x in q && x in active;
      assert x in Live(q, active);
    }
  }

  lemma FirstLive(q: seq<int>, active: set<int>)
    requires Live(q, active) != []
    ensures var l := Live(q, active)[0];
            forall x :: x in q && x in active && x != l ==> Before(q, l, x)
  {
    var live := Live(q, active);
    LiveMembers(q, active);
    forall x | x in q && x in active && x != live[0]
      ensures Before(q, live[0], x)
    {
      var k :| 0 <= k < |live| && live[k] == x;
      LiveOrder(q, active, 0, k);
    }
  }

  /** Who remains in the queue is active and was not given r, and keeps its place; the other queues are as
      before. */
  lemma WokenQueue(g: Graph, r: int)
    requires Consistent(g) && 0 <= r < g.m
    ensures var h, q, got := Wake(g, r), g.queue[r], WokenBy(g, r);
            && |h.queue| == g.m
            && (forall x :: x in h.queue[r] <==> x in q && x in g.active && x !in got)
            && (forall i, j :: 0 <= i < j < |h.queue[r]| ==> Before(q, h.queue[r][i], h.queue[r][j]))
            && (forall s :: 0 <= s < g.m && s != r ==> h.queue[s] == g.queue[s])
  {
    hide Consistent, Live, Before, Wake, WokenBy;
    WokenParts(g, r);
    var h, q, live, got := Wake(g, r), g.queue[r], Live(g.queue[r], g.active), WokenBy(g, r);
    var d := |got|;
    LiveMembers(q, g.active);
    forall i, j | 0 <= i < j < |h.queue[r]|
      ensures Before(q, h.queue[r][i], h.queue[r][j])
    {
      LiveOrder(q, g.active, i + d, j + d);
    }
    RestOf(live, d);
  }

  lemma WokenParts(g: Graph, r: int)
    requires Consistent(g) && 0 <= r < g.m
    ensures |g.queue| == g.m
    ensures var h, live, got := Wake(g, r), Live(g.queue[r], g.active), WokenBy(g, r);
            && Distinct(g.queue[r]) && |got| <= |live| && got == live[..|got|]
            && |h.queue| == g.m && h.queue[r] == live[|got|..]
            && (forall s :: 0 <= s < g.m && s != r ==> h.queue[s] == g.queue[s])
  {
  }

  lemma RestOf(s: seq<int>, d: nat)
    requires Distinct(s) && d <= |s|
    ensures forall x :: x in s[d..] <==> x in s && x !in s[..d]
  {
    assert s == s[..d] + s[d..];
  }

  // ----- killing

  /** deadlock_cleanup_process: p holds nothing, asks for nothing and is inactive, what it held is free, and
      nobody else is concerned. */
  lemma CleanupOutcome(g: Graph, p: int)
    requires Consistent(g)
    ensures var h := Cleanup(g, p);
            && (!(0 <= p < g.n) ==> h == g)
            && (0 <= p < g.n ==>
                  && (forall a :: a in h.held <==> a in g.held && a.0 != p)
                  && (forall a :: a in h.asked <==> a in g.asked && a.0 != p)
                  && (forall r :: r in h.free <==> r in g.free || (p, r) in g.held)
                  && h.active == g.active - {p}
                  && h.queue == g.queue && h.prio == g.prio && h.n == g.n && h.m == g.m)
  {
    if 0 <= p < g.n {
      CleanupKeeps(g, p);
      forall r | r in Cleanup(g, p).free && r !in g.free
        ensures (p, r) in g.held
      {
        var a :| a in g.held && a.0 == p && a.1 == r;
        assert a == (p, r);
      }
      forall r | (p, r) in g.held
        ensures r in Cleanup(g, p).free
      {
        assert (p, r).1 == r && r < g.m;
      }
    }
  }

  /** deadlock_resolve: the killed process is out, and each of its resources goes to the active process that
      stands first in its queue; whoever held something else keeps it, and nobody else is given anything. */
  lemma ResolveOutcome(g: Graph, p: int, r: int)
    requires Consistent(g) && Settled(g) && 0 <= p < g.n && 0 <= r < g.m
    ensures var h, q := Resolve(g, p), g.queue[r];
            && h.active == g.active - {p} && (p, r) !in h.held && (p, r) !in h.asked
            && (forall x :: (x, r) in h.held && (x, r) !in g.held ==> (p, r) in g.held && FirstWaiting(q, x, p))
            && (forall x :: (x, r) in g.held && x != p ==> (x, r) in h.held)
            && ((p, r) in g.held && (exists x :: x in q && x != p) ==> exists x :: (x, r) in h.held)
            && (r in h.free <==> r in g.free || ((p, r) in g.held && forall x :: x in q ==> x == p))
  {
    var c, h := Cleanup(g, p), Resolve(g, p);
    CleanupOutcome(g, p);
    CleanupKeeps(g, p);
    ResolveKeeps(g, p);
    WakeAllLeaves(c, g.m, r);
    WakeOutcome(c, r);
    assert SettledAt(g, r) && SettledAt(h, r);
    var got := WokenBy(c, r);
    assert forall x :: (x, r) in h.held <==> (x, r) in c.held || x in got;
  }

  /** x is the first in the queue, not counting p. */
  ghost predicate FirstWaiting(q: seq<int>, x: int, p: int) {
    x in q && x != p && forall y :: y in q && y != p && y != x ==> Before(q, x, y)
  }

  /** deadlock_init: one unit of each resource is free, nobody is active, holds, asks or waits. */
  lemma InitOutcome(n: nat, m: nat)
    ensures var g := Init(n, m);
            && g.n == n && g.m == m && |g.queue| == m && |g.prio| == n
            && g.held == {} && g.asked == {} && g.active == {}
            && (forall r :: 0 <= r < m ==> r in g.free && g.queue[r] == [])
            && (forall p :: 0 <= p < n ==> g.prio[p] == 0)
  {
  }
}
