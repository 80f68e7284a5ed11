/** The deadlock manager of src/deadlock.c: matrices, counters and wait queues updated in place.
    The ghost field graph is the resource graph that they represent. */
module DeadlockManager {
  import opened Common
  import opened WaitForGraph
  import opened ResourceRules
  import opened ResourceProofs
  import opened ResourceOutcomes

  lemma {:induction false} LiveSnoc(q: seq<int>, active: set<int>, i: nat)
    requires i < |q|
    ensures Live(q[..i + 1], active) == Live(q[..i], active) + (if q[i] in active then [q[i]] else [])
  {
    if i > 0 {
      LiveSnoc(q[1..], active, i - 1);
      assert q[..i + 1][1..] == q[1..][..i];
      assert q[..i][1..] == q[1..][..i - 1];
    }
  }

  /** Who has been handed r after the first i entries of its queue were looked at: the first active
      process among them, if r is free ... */
  function OfferedTo(graph: Graph, r: int, i: nat): seq<int>
    requires |graph.queue| == graph.m && 0 <= r < graph.m && i <= |graph.queue[r]|
  {
    var live := Live(graph.queue[r][..i], graph.active);
    if live != [] && r in graph.free then [live[0]] else []
  }

  /** ... the graph by then ... */
  function Offered(graph: Graph, r: int, i: nat): Graph
    requires |graph.queue| == graph.m && 0 <= r < graph.m && i <= |graph.queue[r]|
  {
    var to := OfferedTo(graph, r, i);
    if to != [] then Grant(graph, to[0], r) else graph
  }

  /** ... and what is left in the row, with crossed out entries. */
  ghost predicate Marked(graph: Graph, r: int, i: nat, marks: seq<int>)
    requires |graph.queue| == graph.m && 0 <= r < graph.m && i <= |graph.queue[r]|
  {
    var live := Live(graph.queue[r][..i], graph.active);
    |marks| == i && OfferedTo(graph, r, i) + Packed(marks) == live
  }

  /** Looking at one more entry of the queue. */
  lemma OfferNext(graph: Graph, r: int, i: nat)
    requires |graph.queue| == graph.m && 0 <= r < graph.m && i < |graph.queue[r]|
    ensures var x, h := graph.queue[r][i], Offered(graph, r, i);
            var granted := x in graph.active && r in h.free;
            && h.active == graph.active && h.queue == graph.queue
            && OfferedTo(graph, r, i + 1) == OfferedTo(graph, r, i) + (if granted then [x] else [])
            && Offered(graph, r, i + 1) == (if granted then Grant(h, x, r) else h)
            && (granted ==> h == graph && Live(graph.queue[r][..i], graph.active) == [])
  {
    var q := graph.queue[r];
    LiveSnoc(q, graph.active, i);
    LiveMembers(q[..i], graph.active);
  }

  lemma OfferStep(graph: Graph, r: int, i: nat, marks: seq<int>)
    requires Consistent(graph) && 0 <= r < graph.m && i < |graph.queue[r]| && Marked(graph, r, i, marks)
    ensures var x, h := graph.queue[r][i], Offered(graph, r, i);
            var granted := x in graph.active && r in h.free;
            && 0 <= x < graph.n && h.active == graph.active
            && Marked(graph, r, i + 1, marks + [if x !in graph.active || granted then -1 else x])
            && OfferedTo(graph, r, i + 1) == OfferedTo(graph, r, i) + (if granted then [x] else [])
            && Offered(graph, r, i + 1) == (if granted then Grant(h, x, r) else h)
            && (granted ==> (x, r) !in h.held)
  {
    var x := graph.queue[r][i];
    QueuedNotHolding(graph, r, x);
    hide Consistent, Live, Packed, Grant;
    OfferNext(graph, r, i);
    LiveSnoc(graph.queue[r], graph.active, i);
    PackedSnoc(marks, -1);
    PackedSnoc(marks, x);
    var to, rest := OfferedTo(graph, r, i), Packed(marks);
    assert to + rest == Live(graph.queue[r][..i], graph.active);
    assert to + (rest + [x]) == (to + rest) + [x];
    assert [x] + [] == [x];
  }

  lemma QueuedNotHolding(graph: Graph, r: int, x: int)
    requires Consistent(graph) && 0 <= r < graph.m && x in graph.queue[r]
    ensures 0 <= x < graph.n && (x in graph.active ==> (x, r) !in graph.held)
  {
  }

  lemma OfferedAll(graph: Graph, r: int, marks: seq<int>)
    requires Consistent(graph) && 0 <= r < graph.m && Marked(graph, r, |graph.queue[r]|, marks)
    ensures var h := Offered(graph, r, |graph.queue[r]|);
            && h.(queue := h.queue[r := Packed(marks)]) == Wake(graph, r)
            && OfferedTo(graph, r, |graph.queue[r]|) == WokenBy(graph, r)
  {
    assert graph.queue[r][..|graph.queue[r]|] == graph.queue[r];
    var live, to := Live(graph.queue[r], graph.active), WokenBy(graph, r);
    assert to + Packed(marks) == live;
    assert Packed(marks) == live[|to|..];
  }

  class ResourceManager {
    const procCount: nat
    const resourceCount: nat
    const allocation: array2<int>
    const request: array2<int>
    const available: array<int>
    const active: array<bool>
    const waitPid: array2<int>
    const waitCount: array<int>
    const priority: array<int>
    ghost var graph: Graph

    predicate Separate() {
      && request != allocation && waitPid != allocation && waitPid != request
      && available != waitCount && priority != available && priority != waitCount
    }

    /** The matrices, counters and flags say what graph says. */
    ghost predicate Tables()
      reads this, allocation, request, available, active, priority
    {
      && allocation.Length0 == procCount && allocation.Length1 == resourceCount
      && request.Length0 == procCount && request.Length1 == resourceCount && available.Length == resourceCount
      && active.Length == procCount && priority.Length == procCount && Separate()
      && graph.n == procCount && graph.m == resourceCount && |graph.queue| == resourceCount && |graph.prio| == procCount
      && (forall p, r :: 0 <= p < procCount && 0 <= r < resourceCount ==>
            allocation[p, r] == (if (p, r) in graph.held then 1 else 0))
      && (forall p, r :: 0 <= p < procCount && 0 <= r < resourceCount ==>
            request[p, r] == (if (p, r) in graph.asked then 1 else 0))
      && (forall r :: 0 <= r < resourceCount ==> available[r] == (if r in graph.free then 1 else 0))
      && (forall p :: 0 <= p < procCount ==> active[p] == (p in graph.active))
      && (forall p :: 0 <= p < procCount ==> priority[p] == graph.prio[p])
    }

    ghost predicate RowIs(r: int, q: seq<int>)
      requires 0 <= r < resourceCount
      reads waitPid
    {
      && waitPid.Length0 == resourceCount && waitPid.Length1 == procCount && |q| <= procCount
      && forall i :: 0 <= i < |q| ==> waitPid[r, i] == q[i]
    }

    /** The rows hold these queues. */
    ghost predicate Queues(queue: seq<seq<int>>)
      reads waitPid, waitCount
    {
      && waitPid.Length0 == resourceCount && waitPid.Length1 == procCount && waitCount.Length == resourceCount
      && |queue| == resourceCount
      && forall r :: 0 <= r < resourceCount ==> RowIs(r, queue[r]) && waitCount[r] == |queue[r]|
    }

    ghost predicate Valid()
      reads this, allocation, request, available, active, priority, waitPid, waitCount
    {
      Tables() && Queues(graph.queue) && Consistent(graph)
    }

    /** deadlock_init: every resource free, nobody active, nobody waiting. */
    constructor (procs: nat, resources: nat)
      ensures Valid() && procCount == procs && resourceCount == resources && graph == Init(procs, resources)
      ensures fresh(allocation) && fresh(request) && fresh(available) && fresh(active)
      ensures fresh(waitPid) && fresh(waitCount) && fresh(priority)
    {
      procCount, resourceCount := procs, resources;
      allocation := new int[procs, resources]((i, j) => 0);
      request := new int[procs, resources]((i, j) => 0);
      available := new int[resources](i => 1);
      active := new bool[procs](i => false);
      waitPid := new int[resources, procs]((i, j) => -1);
      waitCount := new int[resources](i => 0);
      priority := new int[procs](i => 0);
      graph := Init(procs, resources);
      new;
      InitConsistent(procs, resources);
    }

    method SetPriority(pid: int, v: int)
      requires Valid()
      modifies priority, this`graph
      ensures Valid() && graph == ResourceRules.SetPriority(old(graph), pid, v)
    {
      if 0 <= pid < procCount {
        priority[pid] := v;
        graph := ResourceRules.SetPriority(graph, pid, v);
      }
    }

    method Alloc(pid: int, rid: int) returns (code: int)
      requires Tables() && ((pid, rid) in graph.held ==> rid !in graph.free)
      modifies allocation, request, available, active, this`graph
      ensures Tables() && (graph, code) == ResourceRules.Alloc(old(graph), pid, rid)
    {
      if !(0 <= pid < procCount) || !(0 <= rid < resourceCount) || available[rid] <= 0 {
        return REFUSED;
      }
      available[rid] := available[rid] - 1;
      graph := graph.(free := graph.free - {rid});
      allocation[pid, rid] := allocation[pid, rid] + 1;
      graph := graph.(held := graph.held + {(pid, rid)});
      request[pid, rid] := 0;
      graph := graph.(asked := graph.asked - {(pid, rid)});
      active[pid] := true;
      graph := graph.(active := graph.active + {pid});
      return GRANTED;
    }

    /** deadlock_request: 0 newly allocated, 1 already held, -1 refused and queued. */
    method Request(pid: int, rid: int) returns (code: int)
      requires Valid()
      modifies allocation, request, available, active, waitPid, waitCount, this`graph
      ensures Tables() && Queues(graph.queue) && (graph, code) == ResourceRules.Request(old(graph), pid, rid)
      ensures code == 0 <==> (pid, rid) !in old(graph).held && (pid, rid) in graph.held
      ensures code == 1 <==> 0 <= pid < procCount && 0 <= rid < resourceCount && (pid, rid) in old(graph).held
      ensures code == 0 || code == 1 || code == -1
      ensures old(NotWaiting(graph, pid) || (Settled(graph) && MayAsk(graph, pid, rid))) ==> Valid()
    {
      RequestKeepsIf(graph, pid, rid);
      RequestOutcome(graph, pid, rid);
      assert (pid, rid) in graph.held ==> rid !in graph.free;
      hide Consistent, Settled, NotWaiting, MayAsk;
      if !(0 <= pid < procCount) || !(0 <= rid < resourceCount) {
        return REFUSED;
      }
      if allocation[pid, rid] > 0 {
        return ALREADY_HELD;
      }
      Ask(pid, rid);
      if available[rid] > 0 {
        code := Alloc(pid, rid);
        return;
      }
      if waitCount[rid] < procCount {
        hide Tables;
        Join(pid, rid);
      }
      return REFUSED;
    }

    /** The first two stores of deadlock_request. */
    method Ask(pid: int, rid: int)
      requires Tables() && InRange(graph, pid, rid)
      modifies request, active, this`graph
      ensures Tables()
      ensures graph == old(graph).(asked := old(graph).asked + {(pid, rid)}, active := old(graph).active + {pid})
    {
      request[pid, rid] := 1;
      active[pid] := true;
      graph := graph.(asked := graph.asked + {(pid, rid)}, active := graph.active + {pid});
    }

    /** The entry into the wait queue. */
    method Join(pid: int, rid: int)
      requires Tables() && Queues(graph.queue) && 0 <= rid < resourceCount && |graph.queue[rid]| < procCount
      modifies waitPid, waitCount, this`graph
      ensures Tables() && Queues(graph.queue)
      ensures graph == old(graph).(queue := old(graph).queue[rid := old(graph).queue[rid] + [pid]])
    {
      waitPid[rid, waitCount[rid]] := pid;
      waitCount[rid] := waitCount[rid] + 1;
      graph := graph.(queue := graph.queue[rid := graph.queue[rid] + [pid]]);
    }

    /** deadlock_release: gives rid back; whoever waits for it is not woken. */
    method Release(pid: int, rid: int)
      requires Tables() && ((pid, rid) in graph.held ==> rid !in graph.free)
      modifies allocation, available, this`graph
      ensures Tables() && graph == ResourceRules.Release(old(graph), pid, rid)
    {
      if !(0 <= pid < procCount) || !(0 <= rid < resourceCount) || allocation[pid, rid] <= 0 {
        return;
      }
      allocation[pid, rid] := allocation[pid, rid] - 1;
      available[rid] := available[rid] + 1;
      graph := graph.(held := graph.held - {(pid, rid)}, free := graph.free + {rid});
    }

    /** The body of the loop of deadlock_cleanup_process. */
    method TakeBack(pid: int, r: int)
      requires Tables() && InRange(graph, pid, r) && ((pid, r) in graph.held ==> r !in graph.free)
      modifies allocation, request, available, this`graph
      ensures Tables()
      ensures var h := ResourceRules.Release(old(graph), pid, r); graph == h.(asked := h.asked - {(pid, r)})
    {
      while allocation[pid, r] > 0
        invariant Tables()
        invariant graph == old(graph) || (graph == ResourceRules.Release(old(graph), pid, r) && (pid, r) !in graph.held)
        decreases allocation[pid, r]
      {
        Release(pid, r);
      }
      request[pid, r] := 0;
      graph := graph.(asked := graph.asked - {(pid, r)});
    }

    method Cleanup(pid: int)
      requires Valid()
      modifies allocation, request, available, active, this`graph
      ensures Valid() && graph == ResourceRules.Cleanup(old(graph), pid)
    {
      if !(0 <= pid < procCount) {
        return;
      }
      ghost var g0 := graph;
      CleanupKeeps(g0, pid);
      hide Queues;
      for r := 0 to resourceCount
        invariant Tables() && graph == Strip(g0, pid, r)
      {
        hide Tables, Strip, Consistent;
        StripNext(g0, pid, r);
        TakeBack(pid, r);
      }
      hide Consistent;
      Deactivate(pid);
    }

    method Deactivate(pid: int)
      requires Tables() && 0 <= pid < procCount
      modifies active, this`graph
      ensures Tables() && graph == old(graph).(active := old(graph).active - {pid})
    {
      active[pid] := false;
      graph := graph.(active := graph.active - {pid});
    }

    /** The row of rid: i entries looked at, the rest as in the queue q. */
    ghost predicate RowMarked(rid: int, i: nat, marks: seq<int>, q: seq<int>)
      requires 0 <= rid < resourceCount && i <= |q|
      reads this, waitPid
    {
      && |marks| == i && |q| <= procCount && waitPid.Length0 == resourceCount && waitPid.Length1 == procCount
      && (forall j :: 0 <= j < i ==> waitPid[rid, j] == marks[j])
      && (forall j :: i <= j < |q| ==> waitPid[rid, j] == q[j])
    }

    ghost predicate OtherRows(g0: Graph, rid: int)
      reads this, waitPid, waitCount
    {
      && |g0.queue| == resourceCount == waitPid.Length0 == waitCount.Length && waitPid.Length1 == procCount
      && forall r :: 0 <= r < resourceCount && r != rid ==> RowIs(r, g0.queue[r]) && waitCount[r] == |g0.queue[r]|
    }

    /** One turn of the first loop of deadlock_wake_waiters. */
    method Offer(rid: int, i: int, ghost g0: Graph, ghost marks: seq<int>)
      returns (granted: bool, ghost marks': seq<int>)
      requires Consistent(g0) && 0 <= rid < g0.m == resourceCount && g0.n == procCount && 0 <= i < |g0.queue[rid]|
      requires Tables() && RowMarked(rid, i, marks, g0.queue[rid]) && OtherRows(g0, rid)
      requires Marked(g0, rid, i, marks) && graph == Offered(g0, rid, i)
      modifies allocation, request, available, active, waitPid, this`graph
      ensures Tables() && RowMarked(rid, i + 1, marks', g0.queue[rid]) && OtherRows(g0, rid)
      ensures Marked(g0, rid, i + 1, marks') && graph == Offered(g0, rid, i + 1)
      ensures OfferedTo(g0, rid, i + 1) == OfferedTo(g0, rid, i) + (if granted then [g0.queue[rid][i]] else [])
    {
      hide Consistent, Marked, Offered, OfferedTo;
      granted := false;
      var wpid := waitPid[rid, i];
      OfferStep(g0, rid, i, marks);
      assert wpid == g0.queue[rid][i];
      if wpid < 0 {
        return;
      }
      if !active[wpid] {
        waitPid[rid, i] := -1;
      } else if available[rid] > 0 {
        var code := Alloc(wpid, rid);
        waitPid[rid, i] := -1;
        granted := true;
      }
      marks' := marks + [waitPid[rid, i]];
    }

    /** The second loop of deadlock_wake_waiters: closes the gaps in the row of rid. */
    method Compact(rid: int, ghost marks: seq<int>)
      requires waitPid.Length0 == resourceCount && waitPid.Length1 == procCount && waitCount.Length == resourceCount
      requires 0 <= rid < resourceCount
      requires waitCount[rid] == |marks| && RowIs(rid, marks)
      modifies waitPid, waitCount
      ensures waitCount[rid] == |Packed(marks)| && RowIs(rid, Packed(marks))
      ensures forall r, j :: 0 <= r < resourceCount && r != rid && 0 <= j < procCount ==>
                waitPid[r, j] == old(waitPid[r, j])
      ensures forall r :: 0 <= r < resourceCount && r != rid ==> waitCount[r] == old(waitCount[r])
    {
      var w := 0;
      for i := 0 to waitCount[rid]
        invariant waitCount[rid] == |marks| && w == |Packed(marks[..i])| <= i
        invariant forall r :: 0 <= r < resourceCount ==> waitCount[r] == old(waitCount[r])
        invariant forall j :: 0 <= j < w ==> waitPid[rid, j] == Packed(marks[..i])[j]
        invariant forall j :: i <= j < |marks| ==> waitPid[rid, j] == marks[j]
        invariant forall r, j :: 0 <= r < resourceCount && r != rid && 0 <= j < procCount ==>
                    waitPid[r, j] == old(waitPid[r, j])
      {
        PackedSnoc(marks[..i], marks[i]);
        assert marks[..i + 1] == marks[..i] + [marks[i]];
        if waitPid[rid, i] >= 0 {
          waitPid[rid, w] := waitPid[rid, i];
          w := w + 1;
        }
      }
      assert marks[..|marks|] == marks;
      waitCount[rid] := w;
    }

    method CompactRow(rid: int, ghost g0: Graph, ghost marks: seq<int>)
      requires 0 <= rid < resourceCount && Tables() && OtherRows(g0, rid)
      requires waitCount[rid] == |marks| && RowIs(rid, marks) && graph.queue == g0.queue
      modifies waitPid, waitCount, this`graph
      ensures Tables() && Queues(graph.queue) && graph == old(graph).(queue := old(graph).queue[rid := Packed(marks)])
    {
      Compact(rid, marks);
      assert OtherRows(g0, rid);
      graph := graph.(queue := graph.queue[rid := Packed(marks)]);
    }

    /** The first loop of deadlock_wake_waiters. */
    method OfferAll(rid: int) returns (woken: seq<int>, ghost marks: seq<int>)
      requires Valid() && 0 <= rid < resourceCount
      modifies allocation, request, available, active, waitPid, this`graph
      ensures Tables() && RowIs(rid, marks) && OtherRows(old(graph), rid) && waitCount[rid] == |marks|
      ensures graph.queue == old(graph).queue
      ensures Marked(old(graph), rid, |old(graph).queue[rid]|, marks)
      ensures graph == Offered(old(graph), rid, |old(graph).queue[rid]|)
      ensures woken == OfferedTo(old(graph), rid, |old(graph).queue[rid]|)
    {
      ghost var g0 := graph;
      woken, marks := [], [];
      for i := 0 to waitCount[rid]
        invariant Tables() && waitCount[rid] == |g0.queue[rid]|
        invariant RowMarked(rid, i, marks, g0.queue[rid]) && OtherRows(g0, rid)
        invariant Marked(g0, rid, i, marks) && graph == Offered(g0, rid, i)
        invariant woken == OfferedTo(g0, rid, i)
      {
        hide Tables, OtherRows, Consistent, Marked, Offered, OfferedTo;
        var wpid := waitPid[rid, i];
        var granted;
        granted, marks := Offer(rid, i, g0, marks);
        if granted {
          woken := woken + [wpid];
        }
      }
    }

    /** deadlock_wake_waiters: crosses out the dead, hands the resource to the first of the others
        (which is reported), and closes the gaps. */
    method WakeWaiters(rid: int) returns (woken: seq<int>)
      requires Valid()
      modifies allocation, request, available, active, waitPid, waitCount, this`graph
      ensures Valid() && graph == Wake(old(graph), rid)
      ensures woken == WokenBy(old(graph), rid)
    {
      woken := [];
      if !(0 <= rid < resourceCount) {
        return;
      }
      hide Tables, Queues, OtherRows, Consistent, Marked, Offered, OfferedTo, Wake, WokenBy;
      assert |graph.queue| == graph.m == resourceCount;
      ghost var g0 := graph;
      WakeKeeps(g0, rid);
      ghost var marks;
      woken, marks := OfferAll(rid);
      OfferedAll(g0, rid, marks);
      CompactRow(rid, g0, marks);
    }

    /** The loop of deadlock_resolve. */
    method WakeQueues(ghost g1: Graph) returns (woken: seq<seq<int>>)
      requires Valid() && graph == g1 && |g1.queue| == g1.m == resourceCount
      modifies allocation, request, available, active, waitPid, waitCount, this`graph
      ensures Valid() && graph == WakeAll(g1, resourceCount)
      ensures |woken| == resourceCount && forall r :: 0 <= r < resourceCount ==> woken[r] == WokenBy(g1, r)
    {
      hide Tables, Queues, Consistent, Wake, WokenBy;
      woken := [];
      for r := 0 to resourceCount
        invariant Valid() && graph == WakeAll(g1, r)
        invariant |woken| == r && forall s :: 0 <= s < r ==> woken[s] == WokenBy(g1, s)
      {
        WokenInTurn(g1, r);
        var w := WakeWaiters(r);
        woken := woken + [w];
      }
    }

    /** deadlock_resolve. The kernel also does exactly this when a process crashes. */
    method Resolve(pid: int) returns (woken: seq<seq<int>>)
      requires Valid()
      modifies allocation, request, available, active, waitPid, waitCount, this`graph
      ensures Valid() && graph == ResourceRules.Resolve(old(graph), pid)
      ensures |woken| == if 0 <= pid < procCount then resourceCount else 0
      ensures forall r :: 0 <= r < |woken| ==> woken[r] == WokenBy(ResourceRules.Cleanup(old(graph), pid), r)
    {
      woken := [];
      if !(0 <= pid < procCount) {
        return;
      }
      Cleanup(pid);
      woken := WakeQueues(graph);
    }

    /** How many units of r the processes below k hold. */
    function UnitsHeld(r: int, k: nat): int
      requires 0 <= r < allocation.Length1 && k <= allocation.Length0
      reads allocation
    {
      if k == 0 then 0 else UnitsHeld(r, k - 1) + allocation[k - 1, r]
    }

    lemma {:induction false} UnitsHeldBy(r: int, k: nat)
      requires Valid() && 0 <= r < resourceCount && k <= procCount
      ensures UnitsHeld(r, k) == if exists p :: p < k && (p, r) in graph.held then 1 else 0
    {
      if k > 0 {
        UnitsHeldBy(r, k - 1);
        assert (k - 1, r) in graph.held ==> forall p :: p < k - 1 ==> (p, r) !in graph.held;
      }
    }

    /** No unit of a resource is lost or made: what is available and what is allocated add up to one. */
    lemma UnitsConserved(r: int)
      requires Valid() && 0 <= r < resourceCount
      ensures available[r] + UnitsHeld(r, procCount) == 1
    {
      UnitsHeldBy(r, procCount);
    }

    // ----- detection

    predicate HasOutgoingRequest(pid: int)
      requires Valid()
      reads this, allocation, request, available, active, priority, waitPid, waitCount
      ensures HasOutgoingRequest(pid) <==> exists r :: (pid, r) in graph.asked
      ensures HasOutgoingRequest(pid) ==> 0 <= pid < procCount && active[pid] && pid in graph.active
    {
      0 <= pid < procCount && active[pid] && exists r :: 0 <= r < resourceCount && request[pid, r] > 0
    }

    /** The bookkeeping of the search: path is the recursion stack, and whoever was visited and left
        again does not lead to a cycle. */
    ghost predicate Searching(visited: array<bool>, inStack: array<bool>, path: seq<int>)
      reads this, visited, inStack
    {
      && visited.Length == inStack.Length == procCount
      && (forall p :: p in path ==> 0 <= p < procCount && p in graph.active)
      && (forall p :: 0 <= p < procCount ==> inStack[p] == (p in path))
      && (forall p :: 0 <= p < procCount && inStack[p] ==> visited[p])
      && (forall p :: 0 <= p < procCount && visited[p] && !inStack[p] ==> !LeadsToCycle(graph, p))
    }

    ghost function Unvisited(visited: array<bool>): set<int>
      requires visited.Length == procCount
      reads visited
    {
      set p | 0 <= p < procCount && !visited[p]
    }

    /** The processes that pid waits for through the resources below r, and through r itself those
        below q, have been dealt with. */
    ghost predicate Explored(visited: array<bool>, inStack: array<bool>, pid: int, r: int, q: int)
      requires visited.Length == inStack.Length == procCount
      reads this, visited, inStack
    {
      forall r', q' {:trigger (pid, r') in graph.asked, (q', r') in graph.held} ::
        && (pid, r') in graph.asked && (q', r') in graph.held && q' in graph.active && q' != pid
        && 0 <= r' < resourceCount && 0 <= q' < procCount && (r' < r || (r' == r && q' < q))
        ==> visited[q'] && !inStack[q']
    }

    lemma AllExplored(visited: array<bool>, inStack: array<bool>, path: seq<int>, pid: int)
      requires Valid() && Searching(visited, inStack, path) && Explored(visited, inStack, pid, resourceCount, 0)
      ensures !LeadsToCycle(graph, pid)
    {
      forall q | Edge(graph, pid, q)
        ensures !LeadsToCycle(graph, q)
      {
        assert visited[q] && !inStack[q];
      }
      LeadsNowhere(graph, pid);
    }

    /** dfs_cycle: true exactly when the search below pid runs into the recursion stack; the stack is
        then left as it is, and everybody on it leads to a cycle. */
    method DfsCycle(pid: int, visited: array<bool>, inStack: array<bool>, ghost path: seq<int>) returns (found: bool)
      requires Valid() && 0 <= pid < procCount && pid in graph.active
      requires visited != inStack && visited != active && inStack != active
      requires Searching(visited, inStack, path) && !visited[pid] && Walk(graph, path + [pid])
      modifies visited, inStack
      ensures forall p :: 0 <= p < procCount && old(visited[p]) ==> visited[p]
      ensures visited[pid]
      ensures !found ==> Searching(visited, inStack, path)
      ensures found ==> inStack[pid] && forall p :: 0 <= p < procCount && old(inStack[p]) ==> inStack[p]
      ensures found ==> forall p :: 0 <= p < procCount && inStack[p] ==> p in graph.active && LeadsToCycle(graph, p)
      decreases Unvisited(visited), 0
    {
      hide Consistent, Queues, Walk, LeadsToCycle;
      Push(pid, visited, inStack, path);
      ghost var path' := path + [pid];
      for r := 0 to resourceCount
        invariant Searching(visited, inStack, path') && Explored(visited, inStack, pid, r, 0)
        invariant forall p :: 0 <= p < procCount && (old(visited[p]) || p == pid) ==> visited[p]
      {
        if request[pid, r] <= 0 {
          continue;
        }
        for q := 0 to procCount
          invariant Searching(visited, inStack, path') && Explored(visited, inStack, pid, r, q)
          invariant forall p :: 0 <= p < procCount && (old(visited[p]) || p == pid) ==> visited[p]
        {
          assert pid in old(Unvisited(visited)) && pid !in Unvisited(visited);
          var below := Follow(pid, r, q, visited, inStack, path');
          if below {
            return true;
          }
        }
      }
      AllExplored(visited, inStack, path', pid);
      Pop(pid, visited, inStack, path);
      return false;
    }

    /** The body of the inner loop of dfs_cycle: looks at process q, which may hold the resource r that
        pid asks for. */
    method Follow(pid: int, r: int, q: int, visited: array<bool>, inStack: array<bool>, ghost path: seq<int>)
      returns (found: bool)
      requires Valid() && 0 <= q < procCount && 0 <= r < resourceCount && (pid, r) in graph.asked
      requires visited != inStack && visited != active && inStack != active
      requires Searching(visited, inStack, path) && Walk(graph, path) && path[|path| - 1] == pid
      requires Explored(visited, inStack, pid, r, q)
      modifies visited, inStack
      ensures forall p :: 0 <= p < procCount && old(visited[p]) ==> visited[p]
      ensures !found ==> Searching(visited, inStack, path) && Explored(visited, inStack, pid, r, q + 1)
      ensures found ==> forall p :: 0 <= p < procCount && old(inStack[p]) ==> inStack[p]
      ensures found ==> forall p :: 0 <= p < procCount && inStack[p] ==> p in graph.active && LeadsToCycle(graph, p)
      decreases Unvisited(visited), 1
    {
      hide Consistent, Queues, Walk, LeadsToCycle;
      if !active[q] || q == pid || allocation[q, r] <= 0 {
        return false;
      }
      assert Edge(graph, pid, q);
      if !visited[q] {
        WalkExtends(graph, path, q);
        found := DfsCycle(q, visited, inStack, path);
      } else if inStack[q] {
        BackEdge(graph, path, q);
        return true;
      } else {
        return false;
      }
    }

    /** pid is entered into the search, and onto its stack. */
    method Push(pid: int, visited: array<bool>, inStack: array<bool>, ghost path: seq<int>)
      requires Searching(visited, inStack, path) && visited != inStack
      requires 0 <= pid < procCount && pid in graph.active && !visited[pid]
      modifies visited, inStack
      ensures Searching(visited, inStack, path + [pid])
      ensures forall p :: 0 <= p < procCount ==> visited[p] == (old(visited[p]) || p == pid)
      ensures forall p :: 0 <= p < procCount ==> inStack[p] == (old(inStack[p]) || p == pid)
    {
      visited[pid] := true;
      inStack[pid] := true;
    }

    /** pid, which does not lead to a cycle, is taken off the stack. */
    method Pop(pid: int, visited: array<bool>, inStack: array<bool>, ghost path: seq<int>)
      requires Searching(visited, inStack, path + [pid]) && visited != inStack
      requires 0 <= pid < procCount && pid !in path && !LeadsToCycle(graph, pid)
      modifies inStack
      ensures Searching(visited, inStack, path)
    {
      assert forall p :: p in path + [pid] <==> p in path || p == pid;
      inStack[pid] := false;
    }

    /** victim is the best choice among the doomed processes of the given set, or -1 if there is none. */
    ghost predicate BestOf(victim: int, doomed: set<int>)
      requires |graph.prio| == procCount && forall p :: p in doomed ==> 0 <= p < procCount
      reads this
    {
      if victim < 0 then doomed == {}
      else victim in doomed && forall p :: p in doomed && p != victim ==> Outranks(graph, victim, p)
    }

    ghost function DoomedBelow(k: int): set<int>
      reads this
    {
      set p | p in Doomed(graph) && p < k
    }

    ghost function OnStack(inStack: array<bool>, k: int): set<int>
      requires k <= inStack.Length
      reads inStack
    {
      set p | 0 <= p < k && inStack[p]
    }

    /** The loop of deadlock_detect over the recursion stack left by a successful search. */
    method PickVictim(inStack: array<bool>, best: int, ghost seen: set<int>) returns (victim: int)
      requires Valid() && inStack.Length == procCount && -1 <= best < procCount
      requires (forall p :: p in seen ==> 0 <= p < procCount) && BestOf(best, seen)
      requires forall p :: 0 <= p < procCount && inStack[p] ==> p in graph.active
      ensures -1 <= victim < procCount
      ensures BestOf(victim, seen + OnStack(inStack, procCount))
    {
      victim := best;
      for i := 0 to procCount
        invariant -1 <= victim < procCount && BestOf(victim, seen + OnStack(inStack, i))
      {
        assert OnStack(inStack, i + 1) == OnStack(inStack, i) + (if inStack[i] then {i} else {});
        if inStack[i] && active[i] {
          if victim < 0 || priority[i] > priority[victim] || (priority[i] == priority[victim] && i > victim) {
            victim := i;
          }
        }
      }
    }

    /** One search of deadlock_detect, from cleared arrays. */
    method SearchFrom(pid: int) returns (cycle: bool, inStack: array<bool>)
      requires Valid() && 0 <= pid < procCount && pid in graph.active
      ensures fresh(inStack) && inStack.Length == procCount
      ensures cycle <==> pid in Doomed(graph)
      ensures cycle ==> inStack[pid] && forall p :: 0 <= p < procCount && inStack[p] ==> p in Doomed(graph)
    {
      var visited := new bool[procCount](i => false);
      inStack := new bool[procCount](i => false);
      cycle := DfsCycle(pid, visited, inStack, []);
    }

    /** One turn of the loop of deadlock_detect. */
    method Consider(pid: int, best: int, ghost seen: set<int>) returns (victim: int, ghost seen': set<int>)
      requires Valid() && 0 <= pid < procCount && -1 <= best < procCount
      requires DoomedBelow(pid) <= seen <= Doomed(graph) && BestOf(best, seen)
      ensures -1 <= victim < procCount && DoomedBelow(pid + 1) <= seen' <= Doomed(graph) && BestOf(victim, seen')
    {
      victim, seen' := best, seen;
      DoomedAsks(graph, pid);
      if active[pid] && HasOutgoingRequest(pid) {
        var cycle, inStack := SearchFrom(pid);
        if cycle {
          victim := PickVictim(inStack, victim, seen);
          seen' := seen + OnStack(inStack, procCount);
        }
      }
    }

    /** deadlock_detect: finds a victim exactly when the wait-for graph has a cycle, and the victim is
        then the least important process, with the largest pid, of all that lead to a cycle. */
    method Detect() returns (found: bool, victim: int)
      requires Valid()
      ensures found <==> HasCycle(graph)
      ensures found ==> IsVictim(graph, victim)
    {
      victim := -1;
      ghost var seen: set<int> := {};
      for pid := 0 to procCount
        invariant -1 <= victim < procCount && DoomedBelow(pid) <= seen <= Doomed(graph) && BestOf(victim, seen)
      {
        victim, seen := Consider(pid, victim, seen);
      }
      found := victim >= 0;
      assert DoomedBelow(procCount) == Doomed(graph);
      NoCycleIffNoneDoomed(graph);
    }

    /** What the kernel does every ten ticks: if there is a cycle, kill the victim. */
    method DetectAndResolve() returns (found: bool, victim: int)
      requires Valid()
      modifies allocation, request, available, active, waitPid, waitCount, this`graph
      ensures Valid() && (found <==> HasCycle(old(graph)))
      ensures if found then IsVictim(old(graph), victim) && graph == ResourceRules.Resolve(old(graph), victim)
              else graph == old(graph)
      ensures found ==> Settled(graph) && Doomed(graph) <= Doomed(old(graph)) - {victim}
    {
      ghost var g0 := graph;
      found, victim := Detect();
      if found {
        ResolveShrinksDoomed(g0, victim);
        ResolveKeeps(g0, victim);
        var woken := Resolve(victim);
      }
    }
  }

  lemma DoomedAsks(graph: Graph, p: int)
    ensures p in Doomed(graph) ==> exists r :: (p, r) in graph.asked
  {
    if p in Doomed(graph) {
      var q := LeadsOn(graph, p);
    }
  }

  lemma StripNext(graph: Graph, p: int, r: nat)
    requires Consistent(graph) && InRange(graph, p, r)
    ensures (p, r) in Strip(graph, p, r).held ==> r !in Strip(graph, p, r).free
    ensures var h := ResourceRules.Release(Strip(graph, p, r), p, r);
            h.(asked := h.asked - {(p, r)}) == Strip(graph, p, r + 1)
  {
  }
}
