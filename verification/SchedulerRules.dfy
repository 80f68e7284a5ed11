/** The scheduler as a value: round robin, or three feedback queues with quanta, demotion and a
    periodic boost. Threads are named by their tid, an index into the kernel's thread table. */
module SchedulerRules {
  import opened Common
  import opened ReadyQueues

  const RR_QUANTUM := 4
  const Q0_QUANTUM := 2
  const Q1_QUANTUM := 4
  const Q2_QUANTUM := 8
  const BOOST_INTERVAL := 30

  datatype Mode = RR | MLFQ
  datatype Priority = CRITICAL | HIGH | NORMAL | LOW
  datatype ThreadState = Ready | Running | Blocked | Done

  datatype Sched = Sched(
    mode: Mode,
    cap: nat,                    // slots of a ready queue, and the largest number of threads
    rr: seq<int>,
    q0: seq<int>, q1: seq<int>, q2: seq<int>,
    current: Option<int>,
    quantum: int,                // quantum_remaining
    switches: int,
    currentQueue: int,
    lastBoost: int,
    boosts: int,
    table: seq<int>,             // the threads ever added
    st: seq<ThreadState>,
    level: seq<int>,             // mlfq_level, -1 before the first add
    prio: seq<Priority>)

  function Quantum(level: int): int {
    if level == 0 then Q0_QUANTUM else if level == 1 then Q1_QUANTUM else Q2_QUANTUM
  }

  function LevelOfPriority(p: Priority): int {
    match p
    case CRITICAL => 0
    case HIGH => 0
    case NORMAL => 1
    case LOW => 2
  }

  /** What no operation changes. */
  predicate SameFrame(s: Sched, h: Sched) {
    h.mode == s.mode && h.cap == s.cap && |h.st| == |s.st| && |h.level| == |s.level| && h.prio == s.prio
  }

  predicate Known(s: Sched, t: int) {
    0 <= t < |s.st|
  }

  /** The numbers are in range: what the operations need to be defined. */
  ghost predicate Shaped(s: Sched) {
    && 0 <= s.currentQueue <= 2
    && |s.st| == |s.level| == |s.prio|
    && (forall t :: Known(s, t) ==> -1 <= s.level[t] <= 2)
    && (forall t :: t in s.rr ==> Known(s, t))
    && (forall t :: t in s.q0 ==> Known(s, t))
    && (forall t :: t in s.q1 ==> Known(s, t))
    && (forall t :: t in s.q2 ==> Known(s, t))
    && (s.current.Some? ==> Known(s, s.current.value))
  }

  ghost predicate Queued(s: Sched, t: int) {
    t in s.rr || t in s.q0 || t in s.q1 || t in s.q2
  }

  function Queue(s: Sched, i: int): seq<int> {
    if i == 0 then s.q0 else if i == 1 then s.q1 else s.q2
  }

  function SetQueue(s: Sched, i: int, q: seq<int>): (h: Sched)
    ensures SameFrame(s, h)
  {
    if i == 0 then s.(q0 := q) else if i == 1 then s.(q1 := q) else s.(q2 := q)
  }

  function LevelFor(s: Sched, t: int): (l: int)
    requires Shaped(s) && Known(s, t)
    ensures 0 <= l <= 2
  {
    if s.level[t] >= 0 then s.level[t] else LevelOfPriority(s.prio[t])
  }

  function Push(q: seq<int>, t: int, cap: nat): seq<int> {
    if |q| >= cap || t in q then q else q + [t]
  }

  function Drop(q: seq<int>, t: int): seq<int> {
    if t in q then Without(q, PositionOf(q, t)) else q
  }

  /** t is pushed onto the queue of level l and is ready. */
  function PushReady(s: Sched, t: int, l: int): (h: Sched)
    requires Shaped(s) && Known(s, t) && 0 <= l <= 2
    ensures Shaped(h) && SameFrame(s, h)
  {
    SetQueue(s, l, Push(Queue(s, l), t, s.cap)).(level := s.level[t := l], st := s.st[t := Ready])
  }

  /** The thread table takes in a new thread while it has room. */
  function Register(s: Sched, t: int): (h: Sched)
    ensures SameFrame(s, h)
  {
    s.(table := if t in s.table || |s.table| >= s.cap then s.table else s.table + [t])
  }

  function AddRR(s: Sched, t: int): (h: Sched)
    requires Known(s, t)
    ensures SameFrame(s, h)
  {
    if t in s.rr || |s.rr| >= s.cap then s
    else Register(s.(rr := s.rr + [t], st := s.st[t := Ready]), t)
  }

  function AddMLFQ(s: Sched, t: int): (h: Sched)
    requires Shaped(s) && Known(s, t)
    ensures SameFrame(s, h)
  {
    var l := LevelFor(s, t);
    if t in Queue(s, l) then s else Register(PushReady(s, t, l), t)
  }

  /** scheduler_add */
  function Add(s: Sched, t: int): (h: Sched)
    requires Shaped(s) && Known(s, t)
    ensures SameFrame(s, h)
  {
    if s.mode == RR then AddRR(s, t) else AddMLFQ(s, t)
  }

  predicate CurrentRuns(s: Sched)
    requires Shaped(s)
  {
    s.current.Some? && s.st[s.current.value] == Running
  }

  /** The running thread goes back to the end of its queue. */
  function Requeue(s: Sched): (h: Sched)
    requires Shaped(s)
    ensures Shaped(h) && SameFrame(s, h)
  {
    if !CurrentRuns(s) then s
    else
      var c := s.current.value;
      if s.mode == RR then s.(rr := s.rr + [c], st := s.st[c := Ready]) else PushReady(s, c, LevelFor(s, c))
  }

  /** next becomes the current thread. */
  function Dispatch(s: Sched, next: int): Sched
    requires Known(s, next)
  {
    s.(current := Some(next),
       switches := if s.current == Some(next) then s.switches else s.switches + 1,
       st := s.st[next := Running])
  }

  /** The highest queue that is not empty, or 3. */
  function Chosen(s: Sched): int {
    if s.q0 != [] then 0 else if s.q1 != [] then 1 else if s.q2 != [] then 2 else 3
  }

  function TakeRR(s: Sched): (h: Sched)
    requires s.rr != [] && Known(s, s.rr[0])
    ensures SameFrame(s, h)
  {
    Dispatch(s, s.rr[0]).(rr := s.rr[1..], quantum := RR_QUANTUM)
  }

  function TakeFrom(s: Sched, i: int): (h: Sched)
    requires Queue(s, i) != [] && Known(s, Queue(s, i)[0])
    ensures SameFrame(s, h)
  {
    SetQueue(Dispatch(s, Queue(s, i)[0]), i, Queue(s, i)[1..]).(currentQueue := i, quantum := Quantum(i))
  }

  /** The head of the chosen queue is taken off it and becomes current. */
  function Take(s: Sched): (h: Sched)
    requires Shaped(s)
    ensures SameFrame(s, h)
  {
    if s.mode == RR then (if s.rr == [] then s else TakeRR(s))
    else if Chosen(s) == 3 then s else TakeFrom(s, Chosen(s))
  }

  /** scheduler_next */
  function Next(s: Sched): (h: Sched)
    requires Shaped(s)
    ensures SameFrame(s, h)
  {
    if (s.mode == RR && s.rr == []) || (s.mode == MLFQ && Chosen(s) == 3) then s
    else Take(Requeue(s))
  }

  /** Takes t out of the first queue that holds it. */
  function Dequeue(s: Sched, t: int): (h: Sched)
    ensures SameFrame(s, h) && h.st == s.st
  {
    if s.mode == RR then s.(rr := Drop(s.rr, t))
    else if t in s.q0 then s.(q0 := Drop(s.q0, t))
    else if t in s.q1 then s.(q1 := Drop(s.q1, t))
    else s.(q2 := Drop(s.q2, t))
  }

  /** scheduler_block */
  function Block(s: Sched, t: int): (h: Sched)
    requires Shaped(s) && Known(s, t)
    ensures SameFrame(s, h)
  {
    if s.st[t] == Done then s
    else if s.current == Some(t) then
      Next(s.(current := None, level := if s.mode == MLFQ then s.level[t := s.currentQueue] else s.level))
    else Dequeue(s, t)
  }

  /** The kernel's block_thread: mark it blocked, then take it off the scheduler. */
  function BlockThread(s: Sched, t: int): (h: Sched)
    requires Shaped(s) && Known(s, t)
    ensures SameFrame(s, h)
  {
    if s.st[t] == Blocked then s else Block(s.(st := s.st[t := Blocked]), t)
  }

  function Readied(s: Sched, t: int): (h: Sched)
    requires Known(s, t)
    ensures SameFrame(s, h) && h.current == s.current && (Shaped(s) ==> Shaped(h))
  {
    if s.st[t] == Blocked then s.(st := s.st[t := Ready]) else s
  }

  /** The kernel's unblock_thread. */
  function UnblockThread(s: Sched, t: int): (h: Sched)
    requires Shaped(s) && Known(s, t)
    ensures SameFrame(s, h)
  {
    Add(Readied(s, t), t)
  }

  function StopCurrent(s: Sched, t: int): (h: Sched)
    ensures SameFrame(s, h) && h.st == s.st
  {
    if s.current == Some(t) then s.(current := None) else s
  }

  /** scheduler_terminate */
  function Terminate(s: Sched, t: int): (h: Sched)
    requires Known(s, t)
    ensures SameFrame(s, h)
  {
    Dequeue(StopCurrent(s, t), t).(st := s.st[t := Done])
  }

  /** scheduler_priority_boost: everybody waiting in the lower queues moves to the end of the top one. */
  function Boost(s: Sched, now: int): (h: Sched)
    ensures SameFrame(s, h)
  {
    if s.mode == RR then s
    else
      s.(lastBoost := now, boosts := s.boosts + 1,
         q0 := s.q0 + s.q1 + s.q2, q1 := [], q2 := [],
         level := Raised(s.level, s.q1 + s.q2))
  }

  function Raised(level: seq<int>, ts: seq<int>): (r: seq<int>)
    ensures |r| == |level|
    ensures forall t :: 0 <= t < |level| ==> r[t] == if t in ts then 0 else level[t]
  {
    seq(|level|, t requires 0 <= t < |level| => if t in ts then 0 else level[t])
  }

  predicate BoostDue(s: Sched, now: int) {
    s.mode == MLFQ && now - s.lastBoost >= BOOST_INTERVAL
  }

  /** At the end of its quantum a running thread moves one queue down. */
  function Demote(s: Sched): (h: Sched)
    requires Shaped(s)
    ensures Shaped(h) && SameFrame(s, h)
  {
    if s.mode == MLFQ && CurrentRuns(s)
    then PushReady(s, s.current.value, if s.currentQueue + 1 > 2 then 2 else s.currentQueue + 1)
    else s
  }

  /** One tick of the quantum has passed. */
  function Spent(s: Sched): (h: Sched)
    requires Shaped(s)
    ensures Shaped(h) && SameFrame(s, h)
  {
    s.(quantum := s.quantum - 1)
  }

  /** scheduler_tick without the boost. */
  function Turn(s: Sched): (h: Sched)
    requires Shaped(s)
    ensures SameFrame(s, h)
  {
    if s.current == None then Next(s)
    else
      var b := Spent(s);
      if b.quantum <= 0 then Next(Demote(b)) else b
  }

  function Marked(s: Sched, now: int): Sched {
    if s.mode == MLFQ && s.lastBoost == 0 then s.(lastBoost := now) else s
  }

  function Tick(s: Sched, now: int): (h: Sched)
    requires Shaped(s)
    ensures SameFrame(s, h)
  {
    var b := Turn(Marked(s, now));
    if BoostDue(Marked(s, now), now) then Boost(b, now) else b
  }

  // ----- the invariant

  ghost predicate Waiting(s: Sched, t: int) {
    Known(s, t) && s.st[t] == Ready && t in s.table && s.current != Some(t)
  }

  ghost predicate QueuesOk(s: Sched)
    requires |s.level| == |s.st|
  {
    && (s.mode == RR ==> s.q0 == [] && s.q1 == [] && s.q2 == [])
    && (s.mode == MLFQ ==> s.rr == [])
    && Distinct(s.rr) && Distinct(s.q0) && Distinct(s.q1) && Distinct(s.q2)
    && (forall t :: t in s.rr ==> Waiting(s, t))
    && (forall t :: t in s.q0 ==> Waiting(s, t) && s.level[t] == 0)
    && (forall t :: t in s.q1 ==> Waiting(s, t) && s.level[t] == 1)
    && (forall t :: t in s.q2 ==> Waiting(s, t) && s.level[t] == 2)
  }

  ghost predicate CurrentOk(s: Sched)
    requires |s.level| == |s.st|
  {
    && (s.current.Some? ==> var c := s.current.value;
          && Known(s, c) && s.st[c] == Running && c in s.table
          && (s.mode == MLFQ ==> s.level[c] == s.currentQueue && s.quantum >= 1))
    && s.quantum <= Q2_QUANTUM
  }

  /** Only the current thread runs, and every thread ever added that is ready is queued; the threads
      in loose (taken out of their place by an operation under way) are neither. */
  ghost predicate PlacesOk(s: Sched, loose: set<int>) {
    && (forall t :: t in loose ==> !Queued(s, t) && s.current != Some(t))
    && (forall t :: Known(s, t) && t !in loose && s.st[t] == Running ==> s.current == Some(t))
    && (forall t :: Known(s, t) && t !in loose && s.st[t] == Ready && t in s.table ==> Queued(s, t))
  }

  ghost predicate TableOk(s: Sched) {
    Distinct(s.table) && Below(s.table, |s.st|) && |s.st| <= s.cap
  }

  ghost predicate ConsistentBut(s: Sched, loose: set<int>) {
    Shaped(s) && QueuesOk(s) && CurrentOk(s) && PlacesOk(s, loose) && TableOk(s)
  }

  ghost predicate Consistent(s: Sched) {
    ConsistentBut(s, {})
  }
}
