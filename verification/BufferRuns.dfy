/** Whole runs of the bounded buffer: items come out in the order in which they went in, and so do the
    processes that wait. */
module BufferRuns {
  import opened Common
  import opened BufferRules

  datatype Op =
    | ProduceOp(item: int, pid: int)
    | ConsumeOp(pid: int)
    | RemoveOp(pid: int)
    | ReleaseOp(pid: int)
    | WakeOp

  /** A process was made to wait; it may have been removed since. */
  datatype Join = Join(pid: int, removed: bool)

  /** What has happened at one condition: who was made to wait, and who was reported as woken. */
  datatype Line = Line(joins: seq<Join>, woken: seq<int>)

  /** The buffer and what has been observed from outside: items accepted and handed out, and the lines
      of those who wait for space and of those who wait for an item. */
  datatype Log = Log(b: Buffer, produced: seq<int>, consumed: seq<int>, space: Line, item: Line)

  ghost predicate Legal(l: Log, op: Op) {
    match op
    case ProduceOp(_, pid) => 0 <= pid < l.b.procs
    case ConsumeOp(pid) => 0 <= pid < l.b.procs
    case _ => true
  }

  /** pid is made to wait, unless it stands in the queue q already. */
  function Joins(l: Line, q: seq<int>, pid: int): Line {
    if pid in q then l else l.(joins := l.joins + [Join(pid, false)])
  }

  function Wakes(l: Line, pids: seq<int>): Line {
    l.(woken := l.woken + pids)
  }

  /** The last join of pid is marked as removed. */
  function Cross(js: seq<Join>, pid: int): seq<Join> {
    if js == [] then []
    else
      var k := |js| - 1;
      if js[k] == Join(pid, false) then js[..k] + [Join(pid, true)] else Cross(js[..k], pid) + [js[k]]
  }

  /** pid is removed, if it stands in the queue q. */
  function Leaves(l: Line, q: seq<int>, pid: int): Line {
    if pid in q then l.(joins := Cross(l.joins, pid)) else l
  }

  function Step(l: Log, op: Op): Log {
    match op
    case ProduceOp(item, pid) =>
      var (b, ok, woken) := Produce(l.b, item, pid);
      if ok then Log(b, l.produced + [item], l.consumed, l.space, Wakes(l.item, woken))
      else Log(b, l.produced, l.consumed, Joins(l.space, l.b.notFull, pid), l.item)
    case ConsumeOp(pid) =>
      var (b, got, woken) := Consume(l.b, pid);
      if got.Some? then Log(b, l.produced, l.consumed + [got.value], Wakes(l.space, woken), l.item)
      else Log(b, l.produced, l.consumed, l.space, Joins(l.item, l.b.notEmpty, pid))
    case RemoveOp(pid) =>
      Log(RemovePid(l.b, pid), l.produced, l.consumed,
          Leaves(l.space, l.b.notFull, pid), Leaves(l.item, l.b.notEmpty, pid))
    case ReleaseOp(pid) => l.(b := ReleaseMutex(l.b, pid))
    case WakeOp =>
      var (b, forItem, forSpace, _) := WakeWaiters(l.b);
      Log(b, l.produced, l.consumed, Wakes(l.space, forSpace), Wakes(l.item, forItem))
  }

  /** Those who were made to wait and were not removed, in the order in which they came. */
  function Staying(js: seq<Join>): seq<int> {
    if js == [] then []
    else
      var k := |js| - 1;
      Staying(js[..k]) + (if js[k].removed then [] else [js[k].pid])
  }

  /** Of those who were made to wait and not removed, the first have been woken, in order and each once,
      and the others are those in the queue q. */
  ghost predicate Served(l: Line, q: seq<int>) {
    Staying(l.joins) == l.woken + q
  }

  /** Everything accepted was handed out, in order, or is still there; and likewise for those who wait. */
  ghost predicate Conserved(l: Log) {
    && Quiet(l.b)
    && l.produced == l.consumed + l.b.items
    && Served(l.space, l.b.notFull)
    && Served(l.item, l.b.notEmpty)
  }

  // ----- single operations

  /** In a quiet buffer the mutex is never refused. An item that is stored wakes the first of those who wait
      for one, and nobody else; a call fails only because the buffer is full, and its caller then waits for
      space. */
  lemma ProduceOutcome(b: Buffer, item: int, pid: int)
    requires Quiet(b) && 0 <= pid < b.procs
    ensures var (c, ok, woken) := Produce(b, item, pid);
            && Quiet(c) && c.size == b.size && (ok <==> |b.items| < b.size) && |woken| <= MAX_WAKE
            && (ok ==> c.items == b.items + [item] && c.notFull == b.notFull && b.notEmpty == woken + c.notEmpty)
            && (ok && b.notEmpty != [] ==> woken == [b.notEmpty[0]] && c.notEmpty == b.notEmpty[1..])
            && (ok && b.notEmpty == [] ==> woken == [] && c.notEmpty == [])
            && (!ok ==> c == b.(notFull := Lined(b.notFull, pid)) && woken == [])
  {
    NobodyTurnedAway(b.notFull, b.procs, b.threads, pid);
  }

  function Lined(q: seq<int>, pid: int): seq<int> {
    if pid in q then q else q + [pid]
  }

  /** The mirror image: an item that is taken wakes the first of those who wait for space. */
  lemma ConsumeOutcome(b: Buffer, pid: int)
    requires Quiet(b) && 0 <= pid < b.procs
    ensures var (c, got, woken) := Consume(b, pid);
            && Quiet(c) && c.size == b.size && (got.Some? <==> b.items != []) && |woken| <= MAX_WAKE
            && (got.Some? ==> b.items == [got.value] + c.items && c.notEmpty == b.notEmpty)
            && (got.Some? ==> b.notFull == woken + c.notFull)
            && (got.Some? && b.notFull != [] ==> woken == [b.notFull[0]] && c.notFull == b.notFull[1..])
            && (got.Some? && b.notFull == [] ==> woken == [] && c.notFull == [])
            && (got == None ==> c == b.(notEmpty := Lined(b.notEmpty, pid)) && woken == [])
  {
    NobodyTurnedAway(b.notEmpty, b.procs, b.threads, pid);
  }

  /** After the kernel's wake-up step nobody waits for an item while there is one or for space while there
      is some; and all who waited so were reported, in the order in which they came. */
  lemma WakeOutcome(b: Buffer)
    requires Quiet(b)
    ensures var (c, forItem, forSpace, forMutex) := WakeWaiters(b);
            && Quiet(c) && c.items == b.items && c.size == b.size && forMutex == []
            && (c.items != [] ==> c.notEmpty == []) && (|c.items| < c.size ==> c.notFull == [])
            && b.notEmpty == forItem + c.notEmpty && b.notFull == forSpace + c.notFull
            && (c.items == [] ==> forItem == []) && (|c.items| == c.size ==> forSpace == [])
  {
    Pigeonhole(b.notEmpty, b.procs);
    Pigeonhole(b.notFull, b.procs);
  }

  lemma JoinServed(l: Line, q: seq<int>, pid: int)
    requires Served(l, q)
    ensures Served(Joins(l, q, pid), Lined(q, pid))
  {
    assert (l.joins + [Join(pid, false)])[..|l.joins|] == l.joins;
  }

  lemma WakeServed(l: Line, woken: seq<int>, q: seq<int>)
    requires Served(l, woken + q)
    ensures Served(Wakes(l, woken), q)
  {
  }

  lemma SameSnoc(a: seq<int>, x: int, b: seq<int>, y: int)
    requires a + [x] == b + [y]
    ensures a == b && x == y
  {
    assert (a + [x])[..|a|] == a && (b + [y])[..|b|] == b;
    assert (a + [x])[|a|] == x && (b + [y])[|b|] == y;
    assert |a + [x]| == |b + [y]|;
  }

  /** Whoever is removed leaves the queue and nobody else does. */
  lemma {:induction false} CrossServed(js: seq<Join>, woken: seq<int>, q: seq<int>, procs: nat, pid: int)
    requires QueueOk(q, procs) && pid in q && Staying(js) == woken + q
    ensures Staying(Cross(js, pid)) == woken + Purge(q, pid)
  {
    var k, n := |js| - 1, |q| - 1;
    var rest := q[..n];
    assert q == rest + [q[n]];
    if js[k].removed {
      CrossServed(js[..k], woken, q, procs, pid);
    } else {
      assert Staying(js[..k]) + [js[k].pid] == (woken + rest) + [q[n]];
      SameSnoc(Staying(js[..k]), js[k].pid, woken + rest, q[n]);
      if js[k].pid == pid {
        PurgeTakesOne(rest, procs, pid);
      } else {
        CrossServed(js[..k], woken, rest, procs, pid);
      }
    }
  }

  lemma LeaveServed(l: Line, q: seq<int>, procs: nat, pid: int)
    requires QueueOk(q, procs) && Served(l, q)
    ensures Served(Leaves(l, q, pid), Purge(q, pid))
  {
    if pid in q {
      CrossServed(l.joins, l.woken, q, procs, pid);
    } else {
      PurgeTakesOne(q, procs, pid);
    }
  }

  // ----- whole runs

  lemma ProduceKeeps(l: Log, item: int, pid: int)
    requires Conserved(l) && Legal(l, ProduceOp(item, pid))
    ensures Conserved(Step(l, ProduceOp(item, pid)))
  {
    var (c, ok, woken) := Produce(l.b, item, pid);
    ProduceOutcome(l.b, item, pid);
    hide Produce, Quiet, Served;
    if ok {
      WakeServed(l.item, woken, c.notEmpty);
      assert l.consumed + l.b.items + [item] == l.consumed + (l.b.items + [item]);
    } else {
      JoinServed(l.space, l.b.notFull, pid);
    }
  }

  lemma ConsumeKeeps(l: Log, pid: int)
    requires Conserved(l) && Legal(l, ConsumeOp(pid))
    ensures Conserved(Step(l, ConsumeOp(pid)))
  {
    var (c, got, woken) := Consume(l.b, pid);
    ConsumeOutcome(l.b, pid);
    hide Consume, Quiet, Served;
    if got.Some? {
      WakeServed(l.space, woken, c.notFull);
      assert l.consumed + [got.value] + c.items == l.consumed + ([got.value] + c.items);
    } else {
      JoinServed(l.item, l.b.notEmpty, pid);
    }
  }

  lemma RemoveKeeps(l: Log, pid: int)
    requires Conserved(l)
    ensures Conserved(Step(l, RemoveOp(pid)))
  {
    PurgeDistinct(l.b.notFull, l.b.procs, pid);
    PurgeDistinct(l.b.notEmpty, l.b.procs, pid);
    LeaveServed(l.space, l.b.notFull, l.b.procs, pid);
    LeaveServed(l.item, l.b.notEmpty, l.b.procs, pid);
    hide QueueOk, Served, Leaves;
    assert Purge(l.b.lockers, pid) == [];
  }

  lemma WakeKeeps(l: Log)
    requires Conserved(l)
    ensures Conserved(Step(l, WakeOp))
  {
    var (c, forItem, forSpace, _) := WakeWaiters(l.b);
    WakeOutcome(l.b);
    hide WakeWaiters, Quiet, Served;
    WakeServed(l.item, forItem, c.notEmpty);
    WakeServed(l.space, forSpace, c.notFull);
  }

  /** There is no mutex to release between calls. */
  lemma ReleaseKeeps(l: Log, pid: int)
    requires Conserved(l)
    ensures Step(l, ReleaseOp(pid)) == l
  {
  }

  lemma StepKeeps(l: Log, op: Op)
    requires Conserved(l) && Legal(l, op)
    ensures Conserved(Step(l, op))
  {
    hide Conserved, Step;
    match op
    case ProduceOp(item, pid) => ProduceKeeps(l, item, pid);
    case ConsumeOp(pid) => ConsumeKeeps(l, pid);
    case RemoveOp(pid) => RemoveKeeps(l, pid);
    case ReleaseOp(pid) => ReleaseKeeps(l, pid);
    case WakeOp => WakeKeeps(l);
  }

  ghost predicate Run(ls: seq<Log>, ops: seq<Op>) {
    && |ls| == |ops| + 1
    && forall i :: 0 <= i < |ops| ==> Legal(ls[i], ops[i]) && ls[i + 1] == Step(ls[i], ops[i])
  }

  function Empty(size: nat, procs: nat, threads: nat): Log {
    Log(Init(size, procs, threads), [], [], Line([], []), Line([], []))
  }

  /** Over every run from an empty buffer: what was produced is what was consumed followed by what the
      buffer holds, never more than fits; the mutex is free between calls; and at each condition those
      made to wait and not removed are woken in the order in which they came, each once, or still wait. */
  lemma {:induction false} RunConserves(ls: seq<Log>, ops: seq<Op>, size: nat, procs: nat, threads: nat, i: nat)
    requires Run(ls, ops) && i < |ls| && procs <= threads && ls[0] == Empty(size, procs, threads)
    ensures Conserved(ls[i])
  {
    if i > 0 {
      RunConserves(ls, ops, size, procs, threads, i - 1);
      StepKeeps(ls[i - 1], ops[i - 1]);
    }
  }

  /** First in, first out: the k-th item that comes out is the k-th that went in. */
  lemma FirstInFirstOut(ls: seq<Log>, ops: seq<Op>, size: nat, procs: nat, threads: nat, i: nat, k: nat)
    requires Run(ls, ops) && i < |ls| && procs <= threads && ls[0] == Empty(size, procs, threads)
    requires k < |ls[i].consumed|
    ensures k < |ls[i].produced| && ls[i].consumed[k] == ls[i].produced[k]
    ensures |ls[i].produced| - |ls[i].consumed| <= ls[i].b.size
  {
    RunConserves(ls, ops, size, procs, threads, i);
  }

  /** First come, first served: the k-th process woken from a condition is the k-th that was made to wait
      there and not removed. */
  lemma FirstComeFirstServed(ls: seq<Log>, ops: seq<Op>, size: nat, procs: nat, threads: nat, i: nat)
    requires Run(ls, ops) && i < |ls| && procs <= threads && ls[0] == Empty(size, procs, threads)
    ensures ls[i].space.woken <= Staying(ls[i].space.joins)
    ensures ls[i].item.woken <= Staying(ls[i].item.joins)
    ensures |Staying(ls[i].space.joins)| - |ls[i].space.woken| <= ls[i].b.procs
    ensures |Staying(ls[i].item.joins)| - |ls[i].item.woken| <= ls[i].b.procs
  {
    RunConserves(ls, ops, size, procs, threads, i);
    Pigeonhole(ls[i].b.notFull, ls[i].b.procs);
    Pigeonhole(ls[i].b.notEmpty, ls[i].b.procs);
  }

  /** The first of those who were made to wait, have not been removed, and are not woken yet. */
  function NextInLine(l: Line): seq<int> {
    var staying := Staying(l.joins);
    if |l.woken| < |staying| then [staying[|l.woken|]] else []
  }

  /** No signal is lost: over every run an item that is accepted wakes the next of those who wait for one,
      and an item that is handed out the next of those who wait for space; a call that fails wakes nobody,
      and its caller is made to wait if it does not wait already. */
  lemma EveryItemSignals(ls: seq<Log>, ops: seq<Op>, size: nat, procs: nat, threads: nat, i: nat)
    requires Run(ls, ops) && i < |ops| && procs <= threads && ls[0] == Empty(size, procs, threads)
    ensures var l, k := ls[i], ls[i + 1];
            && (ops[i].ProduceOp? && |l.b.items| < l.b.size ==>
                  && k.produced == l.produced + [ops[i].item] && k.consumed == l.consumed
                  && k.item == Line(l.item.joins, l.item.woken + NextInLine(l.item)) && k.space == l.space)
            && (ops[i].ConsumeOp? && l.b.items != [] ==>
                  && k.consumed == l.consumed + [l.b.items[0]] && k.produced == l.produced
                  && k.space == Line(l.space.joins, l.space.woken + NextInLine(l.space)) && k.item == l.item)
            && (ops[i].ProduceOp? && |l.b.items| >= l.b.size ==>
                  && k.produced == l.produced && k.consumed == l.consumed && k.item == l.item
                  && k.space == Line(l.space.joins + Newly(l.b.notFull, ops[i].pid), l.space.woken))
            && (ops[i].ConsumeOp? && l.b.items == [] ==>
                  && k.produced == l.produced && k.consumed == l.consumed && k.space == l.space
                  && k.item == Line(l.item.joins + Newly(l.b.notEmpty, ops[i].pid), l.item.woken))
  {
    var l := ls[i];
    RunConserves(ls, ops, size, procs, threads, i);
    assert Legal(l, ops[i]) && ls[i + 1] == Step(l, ops[i]);
    if ops[i].ProduceOp? {
      ProduceOutcome(l.b, ops[i].item, ops[i].pid);
      NextIsFirst(l.item, l.b.notEmpty);
    } else if ops[i].ConsumeOp? {
      ConsumeOutcome(l.b, ops[i].pid);
      NextIsFirst(l.space, l.b.notFull);
    }
    hide Produce, Consume, Quiet, Served, NextInLine, Run;
    assert l.space.joins + [] == l.space.joins && l.item.joins + [] == l.item.joins;
  }

  function Newly(q: seq<int>, pid: int): seq<Join> {
    if pid in q then [] else [Join(pid, false)]
  }

  lemma NextIsFirst(l: Line, q: seq<int>)
    requires Served(l, q)
    ensures NextInLine(l) == if q == [] then [] else [q[0]]
  {
  }
}
