/** What each operation of the deadlock manager does to the resource graph, the invariants
    they keep, and what follows for whole runs. */
module ResourceRules {
  import opened Common
  import opened WaitForGraph

  const GRANTED := 0
  const ALREADY_HELD := 1
  const REFUSED := -1

  // ----- the operations

  predicate InRange(g: Graph, p: int, r: int) {
    0 <= p < g.n && 0 <= r < g.m
  }

  ghost function Init(n: nat, m: nat): Graph {
    Graph(n, m, {}, {}, Interval(m), {}, seq(m, _ => []), seq(n, _ => 0))
  }

  /** Hands the free resource r to p. */
  function Grant(g: Graph, p: int, r: int): Graph {
    g.(held := g.held + {(p, r)}, asked := g.asked - {(p, r)}, free := g.free - {r}, active := g.active + {p})
  }

  function Alloc(g: Graph, p: int, r: int): (Graph, int) {
    if InRange(g, p, r) && r in g.free then (Grant(g, p, r), GRANTED) else (g, REFUSED)
  }

  function Request(g: Graph, p: int, r: int): (Graph, int)
    requires |g.queue| == g.m
  {
    if !InRange(g, p, r) then (g, REFUSED)
    else if (p, r) in g.held then (g, ALREADY_HELD)
    else
      var asking := g.(asked := g.asked + {(p, r)}, active := g.active + {p});
      if r in g.free then (Grant(asking, p, r), GRANTED)
      else if |g.queue[r]| < g.n then (asking.(queue := g.queue[r := g.queue[r] + [p]]), REFUSED)
      else (asking, REFUSED)
  }

  function Release(g: Graph, p: int, r: int): Graph {
    if InRange(g, p, r) && (p, r) in g.held then g.(held := g.held - {(p, r)}, free := g.free + {r}) else g
  }

  /** The resources below k are taken from p and its requests for them dropped. */
  function Strip(g: Graph, p: int, k: nat): Graph {
    g.(held := (set a | a in g.held && !(a.0 == p && a.1 < k)),
       asked := (set a | a in g.asked && !(a.0 == p && a.1 < k)),
       free := g.free + (set a | a in g.held && a.0 == p && a.1 < k :: a.1))
  }

  function Cleanup(g: Graph, p: int): Graph {
    if 0 <= p < g.n then Strip(g, p, g.m).(active := g.active - {p}) else g
  }

  /** The waiting processes that are still active, in order. */
  function Live(q: seq<int>, active: set<int>): seq<int> {
    if q == [] then []
    else (if q[0] in active then [q[0]] else []) + Live(q[1..], active)
  }

  /** Waking the queue of r drops inactive processes and hands a free r to the first of the others. */
  function Wake(g: Graph, r: int): Graph
    requires |g.queue| == g.m
  {
    if !(0 <= r < g.m) then g
    else
      var live := Live(g.queue[r], g.active);
      if live != [] && r in g.free
      then Grant(g, live[0], r).(queue := g.queue[r := live[1..]])
      else g.(queue := g.queue[r := live])
  }

  /** Who is given r, and reported, when its queue is woken. */
  function WokenBy(g: Graph, r: int): seq<int>
    requires |g.queue| == g.m
  {
    if !(0 <= r < g.m) then []
    else
      var live := Live(g.queue[r], g.active);
      if live != [] && r in g.free then [live[0]] else []
  }

  function WakeAll(g: Graph, k: nat): (h: Graph)
    requires |g.queue| == g.m && k <= g.m
    ensures |h.queue| == h.m && h.m == g.m && h.n == g.n && h.prio == g.prio
  {
    if k == 0 then g else Wake(WakeAll(g, k - 1), k - 1)
  }

  /** Kills p: everything it held goes to whoever waits longest. */
  function Resolve(g: Graph, p: int): Graph
    requires |g.queue| == g.m
  {
    if 0 <= p < g.n then WakeAll(Cleanup(g, p), g.m) else g
  }

  function SetPriority(g: Graph, p: int, v: int): Graph
    requires |g.prio| == g.n
  {
    if 0 <= p < g.n then g.(prio := g.prio[p := v]) else g
  }

  // ----- the invariants

  ghost predicate Shaped(g: Graph) {
    && |g.queue| == g.m && |g.prio| == g.n
    && (forall p, r :: (p, r) in g.held ==> InRange(g, p, r) && p in g.active)
    && (forall p, r :: (p, r) in g.asked ==> InRange(g, p, r) && p in g.active)
    && (forall r :: r in g.free ==> 0 <= r < g.m)
    && (forall p :: p in g.active ==> 0 <= p < g.n)
  }

  /** Each resource is either free or held, and by one process only. */
  ghost predicate Conserved(g: Graph) {
    && (forall p, q, r :: (p, r) in g.held && (q, r) in g.held ==> p == q)
    && (forall p, r :: (p, r) in g.held ==> r !in g.free)
    && (forall r :: 0 <= r < g.m && r !in g.free ==> exists p :: (p, r) in g.held)
  }

  /** The active processes in the queue of r are exactly those that ask for r, each there once;
      nobody asks for two resources or for one that it holds. */
  ghost predicate QueuesAgree(g: Graph)
    requires |g.queue| == g.m
  {
    && (forall r :: 0 <= r < g.m ==> Distinct(g.queue[r]) && Below(g.queue[r], g.n))
    && (forall p, r :: 0 <= r < g.m ==> ((p, r) in g.asked <==> p in g.active && p in g.queue[r]))
    && (forall p, r, r' :: (p, r) in g.asked && (p, r') in g.asked ==> r == r')
    && (forall p, r :: (p, r) in g.asked ==> (p, r) !in g.held)
  }

  ghost predicate Consistent(g: Graph) {
    Shaped(g) && Conserved(g) && QueuesAgree(g)
  }

  ghost predicate SettledAt(g: Graph, r: int)
    requires 0 <= r < |g.queue|
  {
    && (forall p :: p in g.queue[r] ==> p in g.active)
    && (g.queue[r] != [] ==> r !in g.free)
  }

  /** Nobody waits for a free resource, and the queues hold no dead process. */
  ghost predicate Settled(g: Graph)
    requires |g.queue| == g.m
  {
    forall r :: 0 <= r < g.m ==> SettledAt(g, r)
  }

  ghost predicate NotWaiting(g: Graph, p: int) {
    forall r :: 0 <= r < |g.queue| ==> p !in g.queue[r]
  }

  /** p would not be made to wait, or stands in no queue yet. */
  ghost predicate MayAsk(g: Graph, p: int, r: int) {
    InRange(g, p, r) && (p, r) !in g.held && r !in g.free ==> NotWaiting(g, p)
  }
}
