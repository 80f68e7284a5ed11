/** Whole runs of the scheduler: where threads are, how long they wait, and at which level. */
module SchedulerRuns {
  import opened Common
  import opened ReadyQueues
  import opened SchedulerRules
  import opened SchedulerProofs

  // ----- positions in queues

  lemma PositionAppend(q: seq<int>, more: seq<int>, t: int)
    requires t in q
    ensures PositionOf(q + more, t) == PositionOf(q, t)
  {
    var k := PositionOf(q, t);
    assert (q + more)[k] == t;
    assert forall i :: 0 <= i < k ==> (q + more)[i] == q[i];
  }

  lemma PositionDrop(q: seq<int>, x: int, t: int)
    requires t in q && t != x
    ensures t in Drop(q, x) && PositionOf(Drop(q, x), t) <= PositionOf(q, t)
  {
    if x in q {
      var k, j := PositionOf(q, t), PositionOf(q, x);
      assert Drop(q, x)[if k < j then k else k - 1] == t;
    }
  }

  // ----- how far a waiting thread is from being dispatched

  function AtLeast1(x: int): int {
    if x >= 1 then x else 1
  }

  /** Ticks until the next boost, the boosting tick included, when the next tick has number now. */
  function TicksToBoost(s: Sched, now: int): int {
    if s.lastBoost == 0 then (if now == 0 then BOOST_INTERVAL + 2 else BOOST_INTERVAL + 1)
    else AtLeast1(s.lastBoost + BOOST_INTERVAL - now + 1)
  }

  function WaitRR(s: Sched, t: int): int {
    RR_QUANTUM * PositionOf(s.rr, t) + AtLeast1(s.quantum)
  }

  function WaitQ0(s: Sched, t: int): int {
    Q0_QUANTUM * PositionOf(s.q0, t) + AtLeast1(s.quantum)
  }

  /** No thread in the top queue waits longer than this. */
  function WorstQ0(s: Sched): int {
    Q0_QUANTUM * (s.cap - 1) + Q2_QUANTUM
  }

  /** The number of ticks within which the queued thread t is dispatched. */
  function WaitBound(s: Sched, now: int, t: int): int {
    if s.mode == RR then WaitRR(s, t)
    else if t in s.q0 then WaitQ0(s, t)
    else TicksToBoost(s, now) + WorstQ0(s)
  }

  /** From s to h the thread t has come closer by d at least (in the queues of lower levels it just
      stays where it is). */
  ghost predicate Closer(s: Sched, h: Sched, t: int, d: int) {
    && h.mode == s.mode && h.cap == s.cap
    && (t in s.rr ==> t in h.rr && WaitRR(h, t) <= WaitRR(s, t) - d)
    && (t in s.q0 ==> t in h.q0 && WaitQ0(h, t) <= WaitQ0(s, t) - d)
    && (t in s.q1 ==> t in h.q1)
    && (t in s.q2 ==> t in h.q2)
  }

  /** Threads were only appended to queues. */
  ghost predicate Appended(s: Sched, b: Sched) {
    s.rr <= b.rr && s.q0 <= b.q0 && s.q1 <= b.q1 && s.q2 <= b.q2
    && b.mode == s.mode && b.cap == s.cap
  }

  lemma AppendedKeepsPosition(s: Sched, b: Sched, t: int)
    requires Appended(s, b)
    ensures t in s.rr ==> t in b.rr && PositionOf(b.rr, t) == PositionOf(s.rr, t)
    ensures t in s.q0 ==> t in b.q0 && PositionOf(b.q0, t) == PositionOf(s.q0, t)
    ensures t in s.q1 ==> t in b.q1
    ensures t in s.q2 ==> t in b.q2
  {
  }

  ghost predicate ModesSeparate(s: Sched) {
    (s.mode == RR ==> s.q0 == s.q1 == s.q2 == []) && (s.mode == MLFQ ==> s.rr == [])
  }

  /** Whatever was appended before a dispatch, a waiting thread comes closer or is dispatched. */
  lemma TakeAfterAppend(s: Sched, b: Sched, t: int)
    requires Shaped(b) && ModesSeparate(b) && Queued(s, t) && Appended(s, b)
    ensures Take(b).current == Some(t) || Closer(s, Take(b), t, 1)
  {
    AppendedKeepsPosition(s, b, t);
    hide Shaped;
  }

  lemma NextAdvances(s: Sched, t: int)
    requires Shaped(s) && ModesSeparate(s) && Queued(s, t)
    ensures Next(s).current == Some(t) || Closer(s, Next(s), t, 1)
  {
    TakeAfterAppend(s, Requeue(s), t);
  }

  // ----- one operation

  /** The operations on the scheduler, as the kernel calls them. The tick counter belongs to the kernel. */
  datatype Op = AddOp(t: int) | BlockOp(t: int) | UnblockOp(t: int) | TerminateOp(t: int) | NextOp | TickOp

  datatype System = System(s: Sched, now: nat)

  /** The kernel adds and unblocks only threads that exist and are not the current one. */
  ghost predicate Legal(c: System, op: Op) {
    match op
    case AddOp(t) => Known(c.s, t) && c.s.current != Some(t)
    case UnblockOp(t) => Known(c.s, t) && c.s.current != Some(t)
    case BlockOp(t) => Known(c.s, t)
    case TerminateOp(t) => Known(c.s, t)
    case _ => true
  }

  ghost function Step(c: System, op: Op): System
    requires Shaped(c.s) && Legal(c, op)
  {
    match op
    case AddOp(t) => c.(s := Add(c.s, t))
    case BlockOp(t) => c.(s := BlockThread(c.s, t))
    case UnblockOp(t) => c.(s := UnblockThread(c.s, t))
    case TerminateOp(t) => c.(s := Terminate(c.s, t))
    case NextOp => c.(s := Next(c.s))
    case TickOp => System(Tick(c.s, c.now), c.now + 1)
  }

  lemma StepKeeps(c: System, op: Op)
    requires Consistent(c.s) && Legal(c, op)
    ensures Consistent(Step(c, op).s)
  {
    match op
    case AddOp(t) => AddKeeps(c.s, t);
    case BlockOp(t) => BlockThreadKeeps(c.s, t);
    case UnblockOp(t) => UnblockThreadKeeps(c.s, t);
    case TerminateOp(t) => TerminateKeeps(c.s, t);
    case NextOp => NextKeeps(c.s);
    case TickOp => TickKeeps(c.s, c.now);
  }

  lemma TurnAdvances(s: Sched, t: int)
    requires Consistent(s) && Queued(s, t)
    ensures Turn(s).current == Some(t) || Closer(s, Turn(s), t, 1)
  {
    if s.current == None {
      NextAdvances(s, t);
    } else if s.quantum <= 1 {
      ExpiryAdvances(s, t);
    }
  }

  lemma ExpiryAdvances(s: Sched, t: int)
    requires Consistent(s) && Queued(s, t) && s.current.Some? && s.quantum <= 1
    ensures Turn(s).current == Some(t) || Closer(s, Turn(s), t, 1)
  {
    if s.mode == RR {
      ExpiryRRAdvances(s, t);
    } else {
      var b := PushReady(s, s.current.value, LevelBelow(s));
      PushAppends(s, s.current.value, LevelBelow(s));
      ExpiryKeeps(s);
      hide Consistent, Turn, Queued, Closer, Take, PushReady;
      TakeAfterAppend(s, b, t);
    }
  }

  lemma ExpiryRRAdvances(s: Sched, t: int)
    requires Consistent(s) && Queued(s, t) && s.current.Some? && s.quantum <= 1 && s.mode == RR
    ensures Turn(s).current == Some(t) || Closer(s, Turn(s), t, 1)
  {
    ExpiryRR(s);
    NextAdvances(Spent(s), t);
    hide Turn, Next;
  }

  lemma PushAppends(s: Sched, t: int, l: int)
    requires Shaped(s) && ModesSeparate(s) && Known(s, t) && 0 <= l <= 2 && s.mode == MLFQ
    ensures Appended(s, PushReady(s, t, l)) && ModesSeparate(PushReady(s, t, l))
  {
  }

  lemma BoostAdvances(s: Sched, now: int, t: int)
    requires Consistent(s) && Queued(s, t) && s.mode == MLFQ
    ensures var h := Boost(s, now);
            t in h.q0 && WaitQ0(h, t) <= WorstQ0(s) && (t in s.q0 ==> WaitQ0(h, t) == WaitQ0(s, t))
  {
    QueuesFit(s);
    assert s.rr + s.q0 + s.q1 + s.q2 == s.q0 + s.q1 + s.q2;
    BoostPosition(s, now, t);
  }

  lemma BoostPosition(s: Sched, now: int, t: int)
    requires s.mode == MLFQ && s.rr == [] && Queued(s, t) && s.quantum <= Q2_QUANTUM
    requires |s.q0 + s.q1 + s.q2| <= s.cap
    ensures var h := Boost(s, now);
            t in h.q0 && WaitQ0(h, t) <= WorstQ0(s) && (t in s.q0 ==> WaitQ0(h, t) == WaitQ0(s, t))
  {
    var h := Boost(s, now);
    assert t in h.q0;
    if t in s.q0 {
      PositionAppend(s.q0, s.q1 + s.q2, t);
      assert h.q0 == s.q0 + (s.q1 + s.q2);
    }
  }

  lemma WaitQ0Bounded(s: Sched, t: int)
    requires Consistent(s) && t in s.q0
    ensures WaitQ0(s, t) <= WorstQ0(s)
  {
    QueuesFit(s);
    assert |s.q0| <= |s.rr + s.q0 + s.q1 + s.q2|;
  }

  lemma TickAdvances(s: Sched, now: nat, t: int)
    requires Consistent(s) && Queued(s, t)
    ensures var h := Tick(s, now);
            h.current == Some(t) || (Queued(h, t) && WaitBound(h, now + 1, t) <= WaitBound(s, now, t) - 1)
  {
    var m := Marked(s, now);
    CountersKeep(s, s.switches, m.lastBoost, s.boosts);
    MarkedTurn(m, now, t);
    assert WaitBound(m, now, t) == WaitBound(s, now, t);
  }

  lemma MarkedTurn(m: Sched, now: nat, t: int)
    requires Consistent(m) && Queued(m, t) && (m.mode == MLFQ && now != 0 ==> m.lastBoost != 0)
    ensures var h := if BoostDue(m, now) then Boost(Turn(m), now) else Turn(m);
            h.current == Some(t) || (Queued(h, t) && WaitBound(h, now + 1, t) <= WaitBound(m, now, t) - 1)
  {
    TurnKeeps(m);
    TurnAdvances(m, t);
    TurnKeepsClock(m);
    if Turn(m).current != Some(t) {
      AfterTurn(m, Turn(m), now, t);
    }
  }

  lemma AfterTurn(m: Sched, b: Sched, now: nat, t: int)
    requires Closer(m, b, t, 1) && Queued(m, t) && ModesSeparate(m) && Consistent(b) && SameClock(m, b)
    requires m.mode == MLFQ && now != 0 ==> m.lastBoost != 0
    ensures var h := if BoostDue(m, now) then Boost(b, now) else b;
            Queued(h, t) && WaitBound(h, now + 1, t) <= WaitBound(m, now, t) - 1
  {
    if t in b.q0 {
      WaitQ0Bounded(b, t);
    }
    if BoostDue(m, now) {
      BoostAdvances(b, now, t);
    }
  }

  /** t is not the thread that the operation takes off the scheduler. */
  predicate Spares(op: Op, t: int) {
    op != BlockOp(t) && op != TerminateOp(t)
  }

  /** What Drop means for the position of another thread. */
  ghost predicate Ahead(q: seq<int>, d: seq<int>, t: int) {
    t in q ==> t in d && PositionOf(d, t) <= PositionOf(q, t)
  }

  lemma DropAhead(q: seq<int>, x: int, t: int)
    requires t != x
    ensures Ahead(q, Drop(q, x), t)
  {
    if t in q { PositionDrop(q, x, t); }
  }

  lemma DequeueNotWorse(s: Sched, x: int, t: int)
    requires t != x
    ensures Closer(s, Dequeue(s, x), t, 0)
  {
    DropAhead(s.rr, x, t);
    DropAhead(s.q0, x, t);
    DropAhead(s.q1, x, t);
    DropAhead(s.q2, x, t);
    hide Drop, PositionOf;
  }

  lemma BlockNotWorse(s: Sched, x: int, t: int)
    requires Consistent(s) && Known(s, x) && Queued(s, t) && t != x
    ensures BlockThread(s, x).current == Some(t) || Closer(s, BlockThread(s, x), t, 0)
  {
    if s.st[x] == Blocked {
    } else if s.current == Some(x) {
      NextAdvances(Parked(s, x), t);
    } else {
      DequeueNotWorse(s.(st := s.st[x := Blocked]), x, t);
    }
  }

  lemma AddNotWorse(s: Sched, x: int, t: int)
    requires Shaped(s) && Known(s, x) && Queued(s, t)
    ensures Closer(s, Add(s, x), t, 0)
  {
    assert Appended(s, Add(s, x));
    AppendedKeepsPosition(s, Add(s, x), t);
  }

  lemma AddClock(s: Sched, x: int)
    requires Shaped(s) && Known(s, x)
    ensures SameClock(s, Add(s, x))
  {
  }

  lemma UnblockClock(s: Sched, x: int)
    requires Shaped(s) && Known(s, x)
    ensures SameClock(s, UnblockThread(s, x))
  {
    hide Add;
    AddClock(Readied(s, x), x);
  }

  lemma BlockClock(s: Sched, x: int)
    requires Shaped(s) && Known(s, x)
    ensures SameClock(s, BlockThread(s, x))
  {
  }

  lemma TerminateClock(s: Sched, x: int)
    requires Known(s, x)
    ensures SameClock(s, Terminate(s, x))
  {
    hide Drop;
  }

  /** Only ticks move the boost clock. */
  lemma OnlyTicksBoost(c: System, op: Op)
    requires Consistent(c.s) && Legal(c, op) && op != TickOp
    ensures SameClock(c.s, Step(c, op).s)
  {
    match op
    case AddOp(x) => AddClock(c.s, x);
    case BlockOp(x) => BlockClock(c.s, x);
    case UnblockOp(x) => UnblockClock(c.s, x);
    case TerminateOp(x) => TerminateClock(c.s, x);
    case NextOp => NextClock(c.s);
  }

  /** A queued thread that stays where its position brings it closer waits no longer than before. */
  lemma CloserBounds(s: Sched, h: Sched, now: int, t: int)
    requires Closer(s, h, t, 0) && Queued(s, t) && ModesSeparate(s) && Consistent(h) && h.lastBoost == s.lastBoost
    ensures Queued(h, t) && WaitBound(h, now, t) <= WaitBound(s, now, t)
  {
  }

  /** The measure behind starvation freedom: no operation that spares the queued thread t moves it
      away from its dispatch, and every tick brings it closer. */
  lemma StepAdvances(c: System, op: Op, t: int)
    requires Consistent(c.s) && Legal(c, op) && Queued(c.s, t) && Spares(op, t)
    ensures var d := Step(c, op);
            d.s.current == Some(t) ||
            (Queued(d.s, t) && WaitBound(d.s, d.now, t) <= WaitBound(c.s, c.now, t) - (if op == TickOp then 1 else 0))
  {
    if op == TickOp {
      TickAdvances(c.s, c.now, t);
    } else {
      StepKeeps(c, op);
      OtherNotWorse(c, op, t);
      OnlyTicksBoost(c, op);
      var h := Step(c, op).s;
      if h.current != Some(t) {
        CloserBounds(c.s, h, c.now, t);
      }
    }
  }

  lemma OtherNotWorse(c: System, op: Op, t: int)
    requires Consistent(c.s) && Legal(c, op) && Queued(c.s, t) && Spares(op, t) && op != TickOp
    ensures var h := Step(c, op).s;
            h.current == Some(t) || Closer(c.s, h, t, 0)
  {
    assert ModesSeparate(c.s) && Shaped(c.s);
    match op
    case AddOp(x) => AddNotWorse(c.s, x, t);
    case BlockOp(x) => BlockNotWorse(c.s, x, t);
    case UnblockOp(x) =>
      AddNotWorse(c.s, x, t);
      AddNotWorse(c.s.(st := c.s.st[x := Ready]), x, t);
    case TerminateOp(x) =>
      DequeueNotWorse(if c.s.current == Some(x) then c.s.(current := None) else c.s, x, t);
    case NextOp => NextAdvances(c.s, t);
  }

  // ----- runs

  ghost predicate Linked(c: System, op: Op, d: System) {
    Legal(c, op) && (Shaped(c.s) ==> d == Step(c, op))
  }

  ghost predicate Run(cs: seq<System>, ops: seq<Op>) {
    |cs| == |ops| + 1 && Consistent(cs[0].s) && forall i :: 0 <= i < |ops| ==> Linked(cs[i], ops[i], cs[i + 1])
  }

  function Ticks(ops: seq<Op>): nat {
    if ops == [] then 0 else Ticks(ops[..|ops| - 1]) + (if ops[|ops| - 1] == TickOp then 1 else 0)
  }

  lemma {:induction false} RunKeeps(cs: seq<System>, ops: seq<Op>, i: nat)
    requires Run(cs, ops) && i < |cs|
    ensures Consistent(cs[i].s)
  {
    if i > 0 {
      RunKeeps(cs, ops, i - 1);
      assert Linked(cs[i - 1], ops[i - 1], cs[i]);
      StepKeeps(cs[i - 1], ops[i - 1]);
    }
  }

  lemma LinkAdvances(c: System, op: Op, d: System, t: int)
    requires Consistent(c.s) && Linked(c, op, d) && Queued(c.s, t) && Spares(op, t) && d.s.current != Some(t)
    ensures Queued(d.s, t)
    ensures WaitBound(d.s, d.now, t) <= WaitBound(c.s, c.now, t) - (if op == TickOp then 1 else 0)
  {
    hide Consistent, Legal, Step, WaitBound, Queued;
    ConsistentBasics(c.s);
    StepAdvances(c, op, t);
  }

  lemma TicksStep(ops: seq<Op>, i: nat)
    requires 0 < i <= |ops|
    ensures Ticks(ops[..i]) == Ticks(ops[..i - 1]) + (if ops[i - 1] == TickOp then 1 else 0)
  {
    assert ops[..i][..i - 1] == ops[..i - 1];
  }

  lemma {:induction false} WaitShrinks(cs: seq<System>, ops: seq<Op>, i: nat, t: int)
    requires Run(cs, ops) && i < |cs| && Queued(cs[0].s, t)
    requires forall j :: 0 <= j < i ==> Spares(ops[j], t)
    requires forall j :: 0 <= j <= i ==> cs[j].s.current != Some(t)
    ensures Queued(cs[i].s, t)
    ensures WaitBound(cs[i].s, cs[i].now, t) + Ticks(ops[..i]) <= WaitBound(cs[0].s, cs[0].now, t)
  {
    hide Consistent, WaitBound, Queued, Linked, Ticks, Spares;
    if i == 0 {
      NoTicks(ops);
    } else {
      WaitShrinks(cs, ops, i - 1, t);
      RunKeeps(cs, ops, i - 1);
      LinkAdvances(cs[i - 1], ops[i - 1], cs[i], t);
      TicksStep(ops, i);
    }
  }

  lemma NoTicks(ops: seq<Op>)
    ensures Ticks(ops[..0]) == 0
  {
  }

  /** Nobody starves, under round robin or under the feedback queues: a queued thread that is not
      itself blocked or terminated is dispatched before WaitBound ticks have passed, whatever else
      happens. */
  lemma DispatchedInTime(cs: seq<System>, ops: seq<Op>, t: int)
    requires Run(cs, ops) && Queued(cs[0].s, t)
    requires forall j :: 0 <= j < |ops| ==> Spares(ops[j], t)
    requires Ticks(ops) >= WaitBound(cs[0].s, cs[0].now, t)
    ensures exists j :: 0 <= j < |cs| && cs[j].s.current == Some(t)
  {
    if forall j :: 0 <= j < |cs| ==> cs[j].s.current != Some(t) {
      WaitShrinks(cs, ops, |ops|, t);
      assert ops[..|ops|] == ops;
      WaitPositive(cs[|ops|], t);
    }
  }

  lemma WaitPositive(c: System, t: int)
    requires Queued(c.s, t)
    ensures WaitBound(c.s, c.now, t) >= 1 || WorstQ0(c.s) < 0
  {
  }

  // ----- the bound in terms of the number of threads alone

  /** The boost clock is not ahead of the kernel's, and a round robin quantum is one. */
  ghost predicate Timed(c: System) {
    c.s.lastBoost <= c.now && (c.s.mode == RR ==> c.s.quantum <= RR_QUANTUM)
  }

  lemma QuantumAfterNext(s: Sched)
    requires Shaped(s) && s.mode == RR
    ensures Next(s).quantum == s.quantum || Next(s).quantum == RR_QUANTUM
  {
  }

  lemma QuantumAfterTurn(s: Sched)
    requires Shaped(s) && s.mode == RR
    ensures Turn(s).quantum <= s.quantum || Turn(s).quantum == RR_QUANTUM
  {
    QuantumAfterNext(s);
    QuantumAfterNext(Spent(s));
    hide Next;
  }

  lemma QuantumAfterStep(c: System, op: Op)
    requires Consistent(c.s) && Legal(c, op) && c.s.mode == RR
    ensures var q := Step(c, op).s.quantum; q <= c.s.quantum || q <= RR_QUANTUM
  {
    hide Consistent, Next, Turn, Drop;
    ConsistentBasics(c.s);
    match op
    case BlockOp(x) => QuantumAfterNext(Parked(c.s, x));
    case NextOp => QuantumAfterNext(c.s);
    case TickOp => QuantumAfterTurn(Marked(c.s, c.now));
    case _ =>
  }

  lemma StepTimed(c: System, op: Op)
    requires Consistent(c.s) && Legal(c, op) && Timed(c)
    ensures Timed(Step(c, op))
  {
    ModeKept(c, op);
    if c.s.mode == RR {
      QuantumAfterStep(c, op);
    }
    if op == TickOp {
      TurnKeepsClock(Marked(c.s, c.now));
      hide Turn;
    } else {
      OnlyTicksBoost(c, op);
    }
  }

  lemma {:induction false} RunTimed(cs: seq<System>, ops: seq<Op>, i: nat)
    requires Run(cs, ops) && i < |cs| && Timed(cs[0])
    ensures Timed(cs[i]) && cs[i].s.mode == cs[0].s.mode && cs[i].s.cap == cs[0].s.cap
  {
    if i > 0 {
      RunTimed(cs, ops, i - 1);
      RunKeeps(cs, ops, i - 1);
      assert Linked(cs[i - 1], ops[i - 1], cs[i]);
      hide Consistent, Step, Legal, Timed;
      ModeKept(cs[i - 1], ops[i - 1]);
      StepTimed(cs[i - 1], ops[i - 1]);
    }
  }

  /** 4 ticks for each thread under round robin; under the feedback queues 32 ticks until everybody is in
      the top queue, then 2 for each thread and 6 more. */
  function LongestWait(mode: Mode, cap: nat): int {
    if mode == RR then 4 * cap else 32 + 2 * cap + 6
  }

  lemma WaitBoundAtMost(c: System, t: int)
    requires Consistent(c.s) && Queued(c.s, t) && Timed(c)
    ensures WaitBound(c.s, c.now, t) <= LongestWait(c.s.mode, c.s.cap)
  {
    QueuesFit(c.s);
    assert |c.s.rr| <= |c.s.rr + c.s.q0 + c.s.q1 + c.s.q2|;
    if t in c.s.q0 {
      WaitQ0Bounded(c.s, t);
    }
  }

  lemma RunSuffix(cs: seq<System>, ops: seq<Op>, i: nat)
    requires Run(cs, ops) && i < |cs|
    ensures Run(cs[i..], ops[i..])
  {
    RunKeeps(cs, ops, i);
    forall j | 0 <= j < |ops[i..]|
      ensures Linked(cs[i..][j], ops[i..][j], cs[i..][j + 1])
    {
      assert Linked(cs[i + j], ops[i + j], cs[i + j + 1]);
    }
  }

  /** Nobody ever starves: in a run of a new scheduler, a thread that is queued at some point and from
      then on neither blocked nor terminated is dispatched before LongestWait more ticks have passed. */
  lemma NobodyStarves(cs: seq<System>, ops: seq<Op>, mode: Mode, cap: nat, prio: seq<Priority>, i: nat, t: int)
    requires Run(cs, ops) && cs[0] == System(Init(mode, cap, prio), 0)
    requires i < |cs| && Queued(cs[i].s, t) && forall j :: i <= j < |ops| ==> Spares(ops[j], t)
    requires Ticks(ops[i..]) >= LongestWait(mode, cap)
    ensures exists j :: i <= j < |cs| && cs[j].s.current == Some(t)
  {
    RunTimed(cs, ops, i);
    RunKeeps(cs, ops, i);
    RunSuffix(cs, ops, i);
    WaitBoundAtMost(cs[i], t);
    DispatchedInTime(cs[i..], ops[i..], t);
    var k :| 0 <= k < |cs[i..]| && cs[i..][k].s.current == Some(t);
    assert cs[i + k].s.current == Some(t);
  }

  // ----- one place for each thread

  ghost function AllQueued(s: Sched): seq<int> {
    s.rr + s.q0 + s.q1 + s.q2
  }

  ghost predicate OnePlaceEach(s: Sched) {
    var all := AllQueued(s);
    && Distinct(all)
    && (forall t :: t in all ==> Known(s, t) && s.st[t] == Ready && s.current != Some(t))
    && (forall t :: Known(s, t) && s.st[t] == Running <==> s.current == Some(t))
    && (forall t :: t in s.table ==> Known(s, t) && (s.st[t] == Ready ==> t in all))
  }

  /** In every state of every run a thread occupies at most one queue slot and the current thread
      none; who waits is ready, at the level of its queue; blocked and finished threads are nowhere; and
      every thread that was added and is ready waits: nobody was lost, no queue overflowed. */
  lemma SingleLocation(cs: seq<System>, ops: seq<Op>, i: nat)
    requires Run(cs, ops) && i < |cs|
    ensures var s := cs[i].s;
            && Consistent(s) && OnePlaceEach(s)
            && |AllQueued(s)| + (if s.current.Some? then 1 else 0) <= |s.st| <= s.cap
            && (s.mode == MLFQ ==> forall t, l :: 0 <= l <= 2 && t in Queue(s, l) ==> Known(s, t) && s.level[t] == l)
  {
    RunKeeps(cs, ops, i);
    var s := cs[i].s;
    QueuesFit(s);
    assert forall t :: t in AllQueued(s) <==> Queued(s, t);
    hide Distinct, Below;
    assert forall t :: Queued(s, t) ==> Waiting(s, t);
  }

  // ----- levels

  function Min2(l: int): int {
    if l < 2 then l else 2
  }

  lemma TakeLevel(s: Sched)
    requires Shaped(s)
    ensures Take(s).level == s.level
  {
  }

  lemma NextLevel(s: Sched)
    requires Consistent(s)
    ensures Next(s).level == s.level
  {
  }

  lemma TurnLevel(s: Sched, t: int)
    requires Consistent(s) && Known(s, t)
    ensures Turn(s).level[t] ==
            if s.mode == MLFQ && s.current == Some(t) && s.quantum <= 1 then Min2(s.level[t] + 1) else s.level[t]
  {
    hide Consistent, Next;
    ConsistentBasics(s);
    if s.current == None {
      NextLevel(s);
    } else if s.quantum > 1 {
    } else if s.mode == RR {
      QuantumKeeps(s, s.quantum - 1);
      NextLevel(Spent(s));
    } else {
      ExpiryLevel(s, t);
    }
  }

  lemma ExpiryLevel(s: Sched, t: int)
    requires Consistent(s) && Known(s, t) && s.mode == MLFQ && s.current.Some? && s.quantum <= 1
    ensures Turn(s).level[t] == if s.current == Some(t) then Min2(s.level[t] + 1) else s.level[t]
  {
    ExpiryKeeps(s);
    hide Consistent, Take, Turn;
    TakeLevel(PushReady(s, s.current.value, LevelBelow(s)));
  }

  /** A tick demotes the thread whose quantum ends by one level, and a boosting tick then raises
      everybody who waits to the top; it changes no other level. */
  lemma TickLevels(s: Sched, now: nat, t: int)
    requires Consistent(s) && Known(s, t)
    ensures var h := Tick(s, now);
            var expires := s.mode == MLFQ && s.current == Some(t) && s.quantum <= 1;
            var boosted := BoostDue(Marked(s, now), now) && t in h.q0;
            h.level[t] == if boosted then 0 else if expires then Min2(s.level[t] + 1) else s.level[t]
  {
    var m := Marked(s, now);
    CountersKeep(s, s.switches, m.lastBoost, s.boosts);
    TurnLevel(m, t);
    TurnKeeps(m);
    if s.mode == MLFQ {
      BoostLevel(Turn(m), now, t);
    }
  }

  lemma BoostLevel(s: Sched, now: int, t: int)
    requires Consistent(s) && Known(s, t) && s.mode == MLFQ
    ensures Boost(s, now).level[t] == if t in Boost(s, now).q0 then 0 else s.level[t]
  {
    assert t in s.q0 ==> s.level[t] == 0;
  }

  /** Apart from ticks a level is only ever set when a thread is added for the first time. */
  lemma OtherLevels(c: System, op: Op, t: int)
    requires Consistent(c.s) && Legal(c, op) && op != TickOp && Known(c.s, t)
    ensures Step(c, op).s.level[t] ==
            if c.s.mode == MLFQ && (op == AddOp(t) || op == UnblockOp(t)) then LevelFor(c.s, t) else c.s.level[t]
  {
    match op
    case AddOp(x) => AddLevel(c.s, x, t);
    case BlockOp(x) => BlockLevel(c.s, x);
    case UnblockOp(x) => UnblockLevel(c.s, x, t);
    case TerminateOp(x) =>
    case NextOp => NextLevel(c.s);
  }

  lemma AddLevel(s: Sched, x: int, t: int)
    requires Shaped(s) && Known(s, t) && Known(s, x) && QueuesOk(s)
    ensures Add(s, x).level[t] == if s.mode == MLFQ && x == t then LevelFor(s, t) else s.level[t]
  {
  }

  lemma UnblockLevel(s: Sched, x: int, t: int)
    requires Consistent(s) && Known(s, t) && Known(s, x)
    ensures UnblockThread(s, x).level[t] == if s.mode == MLFQ && x == t then LevelFor(s, t) else s.level[t]
  {
  }

  lemma BlockLevel(s: Sched, x: int)
    requires Consistent(s) && Known(s, x)
    ensures BlockThread(s, x).level == s.level
  {
  }

  /** A thread that is blocked or done. */
  ghost predicate Off(s: Sched, t: int) {
    Known(s, t) && (s.st[t] == Blocked || s.st[t] == Done)
  }

  predicate BringsBack(op: Op, t: int) {
    op == AddOp(t) || op == UnblockOp(t)
  }

  /** A dispatch concerns queued threads and the current one only. */
  lemma NextElsewhere(s: Sched, t: int)
    requires Shaped(s) && Known(s, t) && !Queued(s, t) && s.current != Some(t)
    ensures Next(s).st[t] == s.st[t]
  {
    hide Requeue, Take, Queued;
    RequeueElsewhere(s, t);
    TakeElsewhere(Requeue(s), t);
  }

  lemma RequeueElsewhere(s: Sched, t: int)
    requires Shaped(s) && Known(s, t) && !Queued(s, t) && s.current != Some(t)
    ensures var h := Requeue(s); h.st[t] == s.st[t] && !Queued(h, t)
  {
  }

  lemma TakeElsewhere(s: Sched, t: int)
    requires Shaped(s) && Known(s, t) && !Queued(s, t)
    ensures Take(s).st[t] == s.st[t]
  {
  }

  lemma DemoteElsewhere(s: Sched, t: int)
    requires Shaped(s) && Known(s, t) && !Queued(s, t) && s.current != Some(t)
    ensures var h := Demote(s); h.st[t] == s.st[t] && !Queued(h, t) && h.current == s.current
  {
  }

  lemma TurnElsewhere(s: Sched, t: int)
    requires Shaped(s) && Known(s, t) && !Queued(s, t) && s.current != Some(t)
    ensures Turn(s).st[t] == s.st[t]
  {
    hide Shaped, Queued, Next, Demote;
    QuantumDoesNotMatter(s, s.quantum - 1, t);
    if s.current == None {
      NextElsewhere(s, t);
    } else {
      ExpiryElsewhere(Spent(s), t);
    }
  }

  lemma QuantumDoesNotMatter(s: Sched, quantum: int, t: int)
    ensures Shaped(s) ==> Shaped(s.(quantum := quantum))
    ensures Queued(s.(quantum := quantum), t) <==> Queued(s, t)
  {
  }

  lemma ExpiryElsewhere(b: Sched, t: int)
    requires Shaped(b) && Known(b, t) && !Queued(b, t) && b.current != Some(t)
    ensures Next(Demote(b)).st[t] == b.st[t]
  {
    hide Queued, Next, Demote;
    DemoteElsewhere(b, t);
    NextElsewhere(Demote(b), t);
  }

  lemma OffIsNowhere(s: Sched, t: int)
    requires Consistent(s) && Off(s, t)
    ensures Shaped(s) && !Queued(s, t) && s.current != Some(t)
  {
  }

  lemma OffStaysOff(c: System, op: Op, t: int)
    requires Consistent(c.s) && Legal(c, op) && Off(c.s, t) && !BringsBack(op, t)
    ensures Off(Step(c, op).s, t)
  {
    hide Consistent, Next, Turn, Drop, Add;
    OffIsNowhere(c.s, t);
    match op
    case AddOp(x) => AddElsewhere(c.s, x, t);
    case UnblockOp(x) => AddElsewhere(Readied(c.s, x), x, t);
    case BlockOp(x) => NextElsewhere(Parked(c.s, x), t);
    case TerminateOp(x) =>
    case NextOp => NextElsewhere(c.s, t);
    case TickOp => TurnElsewhere(Marked(c.s, c.now), t);
  }

  lemma AddElsewhere(s: Sched, x: int, t: int)
    requires Shaped(s) && Known(s, x) && Known(s, t) && x != t
    ensures Add(s, x).st[t] == s.st[t]
  {
  }

  /** The state in which blocking the current thread x looks for the next one. */
  function Parked(s: Sched, x: int): Sched
    requires Shaped(s) && Known(s, x)
  {
    s.(current := None, st := s.st[x := Blocked],
       level := if s.mode == MLFQ then s.level[x := s.currentQueue] else s.level)
  }

  lemma OffKeepsLevel(c: System, op: Op, t: int)
    requires Consistent(c.s) && Legal(c, op) && Off(c.s, t) && !BringsBack(op, t)
    ensures Off(Step(c, op).s, t) && Step(c, op).s.level[t] == c.s.level[t]
  {
    OffStaysOff(c, op, t);
    StepKeeps(c, op);
    if op == TickOp {
      TickLevels(c.s, c.now, t);
    } else {
      OtherLevels(c, op, t);
    }
  }

  /** Over every run: a thread that is off after a steps keeps its level as long as it is off, whatever the
      others do and however many boosts there are. */
  lemma {:induction false} LevelWhileOff(cs: seq<System>, ops: seq<Op>, a: nat, i: nat, t: int)
    requires Run(cs, ops) && a <= i < |cs| && Off(cs[a].s, t)
    requires forall j :: a <= j < i ==> !BringsBack(ops[j], t)
    ensures Consistent(cs[a].s) && Consistent(cs[i].s) && Off(cs[i].s, t)
    ensures cs[i].s.level[t] == cs[a].s.level[t] && cs[i].s.mode == cs[a].s.mode
    decreases i
  {
    RunKeeps(cs, ops, i);
    if i > a {
      LevelWhileOff(cs, ops, a, i - 1, t);
      hide Consistent, Linked, Off;
      OffLink(cs[i - 1], ops[i - 1], cs[i], t);
    } else {
      RunKeeps(cs, ops, a);
    }
  }

  lemma OffLink(c: System, op: Op, d: System, t: int)
    requires Consistent(c.s) && Linked(c, op, d) && Off(c.s, t) && !BringsBack(op, t)
    ensures Off(d.s, t) && d.s.level[t] == c.s.level[t] && d.s.mode == c.s.mode
  {
    hide Consistent, Legal, Step;
    ConsistentBasics(c.s);
    OffKeepsLevel(c, op, t);
    ModeKept(c, op);
  }

  /** Unblocking puts a thread that is off at the end of the queue of its level. */
  lemma UnblockReturnsToLevel(s: Sched, t: int)
    requires Consistent(s) && Off(s, t) && s.mode == MLFQ && s.level[t] >= 0
    ensures var h := UnblockThread(s, t);
            h.level == s.level && Queue(h, s.level[t]) == Queue(s, s.level[t]) + [t]
  {
    NotQueuedIsLoose(s, t);
    Room(s, Queue(s, s.level[t]), t);
    assert s.level[t := s.level[t]] == s.level;
  }

  lemma BlockTurnsOff(s: Sched, t: int)
    requires Consistent(s) && Known(s, t)
    ensures Off(BlockThread(s, t), t) && BlockThread(s, t).level == s.level
  {
    BlockLevel(s, t);
    BlockThreadKeeps(s, t);
    if s.st[t] != Blocked && s.current == Some(t) {
      NextElsewhere(Parked(s, t), t);
    }
  }

  /** Over every run: a thread that is blocked in step a, and brought back by the unblock in step b and not
      before, goes to the end of the queue of the level at which it was blocked. */
  lemma BlockedComesBack(cs: seq<System>, ops: seq<Op>, a: nat, b: nat, t: int)
    requires Run(cs, ops) && a < b < |ops| && ops[a] == BlockOp(t) && ops[b] == UnblockOp(t)
    requires forall j :: a < j < b ==> !BringsBack(ops[j], t)
    requires cs[a].s.mode == MLFQ && Known(cs[a].s, t) && |cs[a].s.level| == |cs[a].s.st| && cs[a].s.level[t] >= 0
    ensures Known(cs[b + 1].s, t) && |cs[b + 1].s.level| == |cs[b + 1].s.st|
    ensures var l := cs[a].s.level[t];
            && 0 <= l <= 2 && cs[b + 1].s.level[t] == l
            && Queue(cs[b + 1].s, l) == Queue(cs[b].s, l) + [t]
  {
    RunKeeps(cs, ops, a);
    assert Linked(cs[a], ops[a], cs[a + 1]) && Linked(cs[b], ops[b], cs[b + 1]);
    hide Consistent, Linked, Run, Off, Queue, BringsBack;
    BlockStep(cs[a], cs[a + 1], t);
    LevelWhileOff(cs, ops, a + 1, b, t);
    UnblockStep(cs[b], cs[b + 1], t);
  }

  lemma BlockStep(c: System, d: System, t: int)
    requires Consistent(c.s) && Linked(c, BlockOp(t), d)
    ensures Off(d.s, t) && |d.s.level| == |d.s.st| && d.s.level == c.s.level && d.s.mode == c.s.mode
  {
    BlockTurnsOff(c.s, t);
    ModeKept(c, BlockOp(t));
  }

  lemma UnblockStep(c: System, d: System, t: int)
    requires Consistent(c.s) && Linked(c, UnblockOp(t), d) && Off(c.s, t) && c.s.mode == MLFQ && c.s.level[t] >= 0
    ensures var l := c.s.level[t];
            && 0 <= l <= 2 && Known(d.s, t) && |d.s.level| == |d.s.st| && d.s.level == c.s.level
            && Queue(d.s, l) == Queue(c.s, l) + [t]
  {
    UnblockReturnsToLevel(c.s, t);
  }

  // ----- the number of boosts

  /** Ticks 0 to now - 1 have passed since the scheduler was initialised. */
  ghost predicate BoostClock(s: Sched, now: nat) {
    if now <= 1 then s.lastBoost == 0 && s.boosts == 0
    else s.boosts == (now - 2) / 30 && s.lastBoost == 1 + 30 * ((now - 2) / 30)
  }

  lemma TickBoostClock(c: System)
    requires Consistent(c.s) && c.s.mode == MLFQ && BoostClock(c.s, c.now)
    ensures BoostClock(Step(c, TickOp).s, c.now + 1)
  {
    var m := Marked(c.s, c.now);
    CountersKeep(c.s, c.s.switches, m.lastBoost, c.s.boosts);
    TurnKeepsClock(m);
    hide Turn, ConsistentBut;
  }

  /** After ticks 0 to now - 1 of a run that starts with a new feedback scheduler there have been
      (now - 2) / 30 boosts. */
  lemma {:induction false} BoostCount(cs: seq<System>, ops: seq<Op>, i: nat)
    requires Run(cs, ops) && i < |cs|
    requires cs[0].s.mode == MLFQ && cs[0].now == 0 && cs[0].s.lastBoost == 0 && cs[0].s.boosts == 0
    ensures cs[i].s.mode == MLFQ && cs[i].now == Ticks(ops[..i]) && BoostClock(cs[i].s, cs[i].now)
  {
    if i > 0 {
      BoostCount(cs, ops, i - 1);
      RunKeeps(cs, ops, i - 1);
      TicksStep(ops, i);
      hide Consistent, Linked, Ticks, BoostClock;
      BoostStep(cs[i - 1], ops[i - 1], cs[i]);
    }
  }

  lemma BoostStep(c: System, op: Op, d: System)
    requires Consistent(c.s) && Linked(c, op, d) && c.s.mode == MLFQ && BoostClock(c.s, c.now)
    ensures d.s.mode == MLFQ && d.now == c.now + (if op == TickOp then 1 else 0) && BoostClock(d.s, d.now)
  {
    hide Consistent, Legal;
    ConsistentBasics(c.s);
    ModeKept(c, op);
    hide BoostClock, Step;
    if op == TickOp {
      TickBoostClock(c);
    } else {
      OnlyTicksBoost(c, op);
      SameBoostClock(c.s, d.s, c.now);
    }
    NextNow(c, op);
  }

  lemma SameBoostClock(s: Sched, h: Sched, now: nat)
    requires SameClock(s, h) && BoostClock(s, now)
    ensures BoostClock(h, now)
  {
  }

  lemma NextNow(c: System, op: Op)
    requires Shaped(c.s) && Legal(c, op)
    ensures Step(c, op).now == c.now + (if op == TickOp then 1 else 0)
  {
  }

  lemma ModeKept(c: System, op: Op)
    requires Consistent(c.s) && Legal(c, op)
    ensures Step(c, op).s.mode == c.s.mode && Step(c, op).s.cap == c.s.cap
  {
  }
}
