/** Every operation of the scheduler keeps its invariant. */
module SchedulerProofs {
  import opened Common
  import opened SchedulerRules

  /** A new scheduler that knows some threads but was given none of them yet. */
  function Init(mode: Mode, cap: nat, prio: seq<Priority>): Sched {
    Sched(mode, cap, [], [], [], [], None, if mode == RR then RR_QUANTUM else Q0_QUANTUM, 0, 0, 0, 0, [],
          seq(|prio|, _ => Ready), seq(|prio|, _ => -1), prio)
  }

  lemma InitConsistent(mode: Mode, cap: nat, prio: seq<Priority>)
    requires |prio| <= cap
    ensures Consistent(Init(mode, cap, prio))
  {
  }

  /** A queue that does not hold the known thread t has room for it. */
  lemma Room(s: Sched, q: seq<int>, t: int)
    requires Known(s, t) && |s.st| <= s.cap
    requires Distinct(q) && t !in q && forall x :: x in q ==> Known(s, x)
    ensures |q| < s.cap
  {
    assert forall i :: 0 <= i < |q| ==> q[i] in q;
    PigeonholeMissing(q, |s.st|, t);
  }

  lemma DropKeeps(q: seq<int>, t: int)
    requires Distinct(q)
    ensures Distinct(Drop(q, t))
    ensures forall x :: x in Drop(q, t) <==> x in q && x != t
  {
  }

  lemma DistinctAppend(q: seq<int>, t: int)
    requires Distinct(q) && t !in q
    ensures Distinct(q + [t]) && forall x :: x in q + [t] <==> x in q || x == t
  {
  }

  lemma DistinctTail(q: seq<int>)
    requires Distinct(q) && q != []
    ensures Distinct(q[1..]) && forall x :: x in q[1..] <==> x in q && x != q[0]
  {
    assert q == [q[0]] + q[1..];
  }

  // ----- the moves that all operations are made of

  /** A loose thread takes its place at the end of a queue. */
  lemma EnterRR(s: Sched, t: int)
    requires ConsistentBut(s, {t}) && Known(s, t) && t in s.table && s.mode == RR
    ensures Consistent(s.(rr := s.rr + [t], st := s.st[t := Ready]))
  {
    hide Distinct, Below;
    DistinctAppend(s.rr, t);
  }

  function Entered(s: Sched, t: int, l: int): Sched
    requires Known(s, t) && |s.level| == |s.st|
  {
    SetQueue(s, l, Queue(s, l) + [t]).(level := s.level[t := l], st := s.st[t := Ready])
  }

  lemma EnterQueues(s: Sched, t: int, l: int)
    requires ConsistentBut(s, {t}) && Known(s, t) && t in s.table && 0 <= l <= 2 && s.mode == MLFQ
    ensures QueuesOk(Entered(s, t, l))
  {
    var h := Entered(s, t, l);
    DistinctAppend(Queue(s, l), t);
    assert forall x :: x != t && Waiting(s, x) ==> Waiting(h, x) && h.level[x] == s.level[x];
    assert Waiting(h, t) && h.level[t] == l;
    hide Distinct, TableOk, Waiting;
  }

  lemma EnterMLFQ(s: Sched, t: int, l: int)
    requires ConsistentBut(s, {t}) && Known(s, t) && t in s.table && 0 <= l <= 2 && s.mode == MLFQ
    ensures Consistent(Entered(s, t, l))
  {
    EnterQueues(s, t, l);
    DistinctAppend(Queue(s, l), t);
    hide Distinct, Below, QueuesOk;
  }

  /** With no current thread, a loose one becomes current. */
  lemma StartKeeps(s: Sched, t: int, h: Sched)
    requires ConsistentBut(s, {t}) && Known(s, t) && t in s.table && s.current == None
    requires s.mode == MLFQ ==> 0 <= s.level[t] <= 2
    requires s.mode == MLFQ ==> h.currentQueue == s.level[t] && h.quantum == Quantum(s.level[t])
    requires s.mode == RR ==> h.currentQueue == s.currentQueue && h.quantum == RR_QUANTUM
    requires h == s.(current := Some(t), st := s.st[t := Running], switches := h.switches,
                     currentQueue := h.currentQueue, quantum := h.quantum)
    ensures Consistent(h)
  {
    hide Distinct, Below;
  }

  /** A thread is taken out of the queue it waits in, which becomes d. */
  lemma LeaveRR(s: Sched, t: int, d: seq<int>)
    requires Consistent(s) && t in s.rr
    requires Distinct(d) && forall x :: x in d <==> x in s.rr && x != t
    ensures Waiting(s, t) && ConsistentBut(s.(rr := d), {t})
  {
    hide Distinct, Below;
  }

  lemma LeaveMLFQ(s: Sched, i: int, t: int, d: seq<int>)
    requires Consistent(s) && 0 <= i <= 2 && t in Queue(s, i)
    requires Distinct(d) && forall x :: x in d <==> x in Queue(s, i) && x != t
    ensures Waiting(s, t) && s.level[t] == i && ConsistentBut(SetQueue(s, i, d), {t})
  {
    assert forall x :: Waiting(SetQueue(s, i, d), x) <==> Waiting(s, x);
    assert Waiting(s, t) && s.level[t] == i;
    hide Distinct, Below, Waiting;
  }

  lemma NotQueuedIsLoose(s: Sched, t: int)
    requires Consistent(s) && s.current != Some(t) && !Queued(s, t)
    ensures ConsistentBut(s, {t})
  {
  }

  lemma DequeueKeeps(s: Sched, t: int)
    requires Consistent(s) && s.current != Some(t)
    ensures ConsistentBut(Dequeue(s, t), {t})
  {
    assert Distinct(s.rr) && Distinct(s.q0) && Distinct(s.q1) && Distinct(s.q2);
    assert if s.mode == RR then s.q0 == s.q1 == s.q2 == [] else s.rr == [];
    hide ConsistentBut, Distinct;
    if !Queued(s, t) {
      NotQueuedIsLoose(s, t);
    } else if t in s.rr {
      DropKeeps(s.rr, t);
      LeaveRR(s, t, Drop(s.rr, t));
    } else {
      var i := if t in s.q0 then 0 else if t in s.q1 then 1 else 2;
      DropKeeps(Queue(s, i), t);
      LeaveMLFQ(s, i, t, Drop(Queue(s, i), t));
    }
  }

  // ----- the operations

  lemma AddLoose(s: Sched, t: int)
    requires ConsistentBut(s, {t}) && Known(s, t)
    ensures Consistent(Add(s, t)) && Queued(Add(s, t), t)
  {
    if s.mode == RR {
      var b := Register(s, t);
      Room(s, s.rr, t);
      RegisterKeeps(s, t);
      hide ConsistentBut;
      EnterRR(b, t);
      assert Add(s, t) == b.(rr := b.rr + [t], st := b.st[t := Ready]);
    } else {
      AddLooseMLFQ(s, t);
    }
  }

  lemma AddLooseMLFQ(s: Sched, t: int)
    requires ConsistentBut(s, {t}) && Known(s, t) && s.mode == MLFQ
    ensures Consistent(Add(s, t)) && Queued(Add(s, t), t)
  {
    var b, l := Register(s, t), LevelFor(s, t);
    Room(s, Queue(s, l), t);
    RegisterKeeps(s, t);
    hide ConsistentBut;
    EnterMLFQ(b, t, l);
    assert Add(s, t) == Entered(b, t, l);
  }

  lemma AddKeeps(s: Sched, t: int)
    requires Consistent(s) && Known(s, t) && s.current != Some(t)
    ensures Consistent(Add(s, t)) && Queued(Add(s, t), t)
  {
    if Queued(s, t) {
      assert Add(s, t) == s;
    } else {
      NotQueuedIsLoose(s, t);
      AddLoose(s, t);
    }
  }

  /** The thread table has room for every known thread. */
  lemma RegisterKeeps(s: Sched, t: int)
    requires ConsistentBut(s, {t}) && Known(s, t)
    ensures ConsistentBut(Register(s, t), {t}) && t in Register(s, t).table
    ensures t !in s.table ==> |s.table| < s.cap
  {
    if t !in s.table {
      Room(s, s.table, t);
      DistinctAppend(s.table, t);
    }
  }

  /** A running thread that is put back leaves nobody current. */
  lemma ParkKeeps(s: Sched)
    requires Consistent(s) && s.current.Some?
    ensures ConsistentBut(s.(current := None), {s.current.value})
  {
    hide Distinct, Below;
  }

  lemma TakeKeeps(s: Sched)
    requires Consistent(s) && s.current == None
    requires if s.mode == RR then s.rr != [] else Chosen(s) < 3
    ensures Consistent(Take(s))
  {
    if s.mode == RR {
      DistinctTail(s.rr);
      LeaveRR(s, s.rr[0], s.rr[1..]);
      StartKeeps(s.(rr := s.rr[1..]), s.rr[0], Take(s));
    } else {
      var i := Chosen(s);
      var q := Queue(s, i);
      DistinctTail(q);
      LeaveMLFQ(s, i, q[0], q[1..]);
      StartKeeps(SetQueue(s, i, q[1..]), q[0], Take(s));
    }
  }

  /** The running thread enters the queue of level l (which only matters for the feedback queues) and
      the next one is taken. */
  lemma SwitchKeeps(s: Sched, l: int)
    requires Consistent(s) && s.current.Some? && 0 <= l <= 2
    ensures var c := s.current.value;
            var b := s.(current := None);
            s.mode == RR ==> Consistent(b.(rr := s.rr + [c], st := s.st[c := Ready]))
    ensures var c := s.current.value;
            s.mode == MLFQ ==> PushReady(s, c, l) == Entered(s, c, l)
    ensures var c := s.current.value;
            s.mode == MLFQ ==> Consistent(PushReady(s, c, l).(current := None))
  {
    var c := s.current.value;
    ParkKeeps(s);
    if s.mode == RR {
      EnterRR(s.(current := None), c);
    } else {
      EnterMLFQ(s.(current := None), c, l);
      Room(s, Queue(s, l), c);
    }
  }

  /** Counting switches and noting the boost tick do not matter to the invariant. */
  lemma CountersKeep(s: Sched, switches: int, lastBoost: int, boosts: int)
    requires Consistent(s)
    ensures Consistent(s.(switches := switches, lastBoost := lastBoost, boosts := boosts))
  {
    hide Distinct, Below;
  }

  /** A thread that is nowhere may be given a state that is nowhere. */
  lemma RestKeeps(s: Sched, t: int, x: ThreadState)
    requires ConsistentBut(s, {t}) && Known(s, t) && (x == Blocked || x == Done)
    ensures Consistent(s.(st := s.st[t := x]))
  {
    hide Distinct, Below;
  }

  /** The running thread, if any, is put back at level l, and the next one taken. */
  lemma RotateKeeps(s: Sched, l: int)
    requires Consistent(s) && s.current.Some? && 0 <= l <= 2
    ensures var c := s.current.value;
            var b := if s.mode == RR then s.(rr := s.rr + [c], st := s.st[c := Ready]) else PushReady(s, c, l);
            Shaped(b) && Consistent(Take(b))
  {
    hide Distinct, Below, QueuesOk, PlacesOk, CurrentOk, TableOk;
    var c := s.current.value;
    var b := if s.mode == RR then s.(rr := s.rr + [c], st := s.st[c := Ready]) else PushReady(s, c, l);
    var n := b.(current := None);
    SwitchKeeps(s, l);
    TakeKeeps(n);
    assert Take(b) == Take(n).(switches := Take(b).switches);
    CountersKeep(Take(n), Take(b).switches, Take(n).lastBoost, Take(n).boosts);
  }

  /** Whoever is next stays queued when the running thread is put back. */
  lemma RequeueKeepsReady(s: Sched)
    requires Shaped(s)
    ensures s.mode == RR && s.rr != [] ==> Requeue(s).rr != []
    ensures s.mode == MLFQ && Chosen(s) != 3 ==> Chosen(Requeue(s)) != 3 && HeadKnown(Requeue(s), Chosen(Requeue(s)))
  {
  }

  predicate HeadKnown(s: Sched, i: int) {
    Queue(s, i) != [] && Known(s, Queue(s, i)[0])
  }

  lemma BlockedShaped(s: Sched, t: int)
    requires Shaped(s) && Known(s, t)
    ensures Shaped(s.(st := s.st[t := Blocked]))
  {
  }

  lemma NextKeeps(s: Sched)
    requires Consistent(s)
    ensures Consistent(Next(s))
  {
    if (s.mode == RR && s.rr == []) || (s.mode == MLFQ && Chosen(s) == 3) {
    } else if s.current == None {
      TakeKeeps(s);
    } else {
      RotateKeeps(s, LevelFor(s, s.current.value));
    }
  }

  lemma BlockThreadKeeps(s: Sched, t: int)
    requires Consistent(s) && Known(s, t)
    ensures Consistent(BlockThread(s, t))
  {
    if s.st[t] == Blocked {
    } else if s.current == Some(t) {
      ParkKeeps(s);
      var b := s.(current := None, st := s.st[t := Blocked]);
      RestKeeps(s.(current := None), t, Blocked);
      assert s.mode == MLFQ ==> s.level[t := s.currentQueue] == s.level;
      NextKeeps(b);
    } else {
      DequeueKeeps(s, t);
      RestKeeps(Dequeue(s, t), t, Blocked);
    }
  }

  lemma UnblockThreadKeeps(s: Sched, t: int)
    requires Consistent(s) && Known(s, t) && s.current != Some(t)
    ensures Consistent(UnblockThread(s, t)) && Queued(UnblockThread(s, t), t)
  {
    if s.st[t] == Blocked {
      NotQueuedIsLoose(s, t);
      LooseState(s, t, Ready);
      AddLoose(s.(st := s.st[t := Ready]), t);
    } else {
      AddKeeps(s, t);
    }
  }

  /** Adding keeps everything exactly when the thread is not the current one, which would be queued as
      well. */
  lemma AddKeepsIffNotCurrent(s: Sched, t: int)
    requires Consistent(s) && Known(s, t)
    ensures Consistent(Add(s, t)) <==> s.current != Some(t)
  {
    if s.current != Some(t) {
      AddKeeps(s, t);
    } else if s.mode == RR {
      Room(s, s.rr, t);
      assert Add(s, t).st[t] == Ready;
    } else {
      Room(s, Queue(s, LevelFor(s, t)), t);
      assert Add(s, t).st[t] == Ready;
    }
  }

  lemma UnblockKeepsIffNotCurrent(s: Sched, t: int)
    requires Consistent(s) && Known(s, t)
    ensures Consistent(UnblockThread(s, t)) <==> s.current != Some(t)
  {
    if s.current != Some(t) {
      UnblockThreadKeeps(s, t);
    } else {
      AddKeepsIffNotCurrent(s, t);
    }
  }

  lemma LooseState(s: Sched, t: int, x: ThreadState)
    requires ConsistentBut(s, {t}) && Known(s, t)
    ensures ConsistentBut(s.(st := s.st[t := x]), {t})
  {
    hide Distinct, Below;
  }

  lemma TerminateKeeps(s: Sched, t: int)
    requires Consistent(s) && Known(s, t)
    ensures Consistent(Terminate(s, t))
  {
    if s.current == Some(t) {
      ParkKeeps(s);
      assert Dequeue(s.(current := None), t) == s.(current := None);
      RestKeeps(s.(current := None), t, Done);
    } else {
      DequeueKeeps(s, t);
      RestKeeps(Dequeue(s, t), t, Done);
    }
  }

  // ----- ticks

  /** All waiting threads stand in one line at most as long as there are threads; there is one place
      less if somebody is running. */
  lemma QueuesFit(s: Sched)
    requires Consistent(s)
    ensures Distinct(s.rr + s.q0 + s.q1 + s.q2) && |s.rr + s.q0 + s.q1 + s.q2| <= |s.st| <= s.cap
    ensures s.current.Some? ==> |s.rr + s.q0 + s.q1 + s.q2| < |s.st|
  {
    var all := s.rr + s.q0 + s.q1 + s.q2;
    assert forall t :: t in all ==> Queued(s, t);
    assert forall i :: 0 <= i < |all| ==> all[i] in all;
    QueuesDisjoint(s);
    Pigeonhole(all, |s.st|);
    if s.current.Some? {
      PigeonholeMissing(all, |s.st|, s.current.value);
    }
  }

  lemma DistinctConcat(a: seq<int>, b: seq<int>)
    requires Distinct(a) && Distinct(b) && forall x :: x in a ==> x !in b
    ensures Distinct(a + b)
  {
    forall i, j | 0 <= i < j < |a + b|
      ensures (a + b)[i] != (a + b)[j]
    {
      if i < |a| <= j {
        assert a[i] in a && b[j - |a|] in b;
      }
    }
  }

  lemma QueuesDisjoint(s: Sched)
    requires Consistent(s)
    ensures Distinct(s.rr + s.q0 + s.q1 + s.q2) && Distinct(s.q0 + s.q1 + s.q2)
  {
    hide Distinct;
    DistinctConcat(s.q0, s.q1);
    DistinctConcat(s.q0 + s.q1, s.q2);
    if s.mode == MLFQ {
      assert s.rr + s.q0 + s.q1 + s.q2 == s.q0 + s.q1 + s.q2;
    } else {
      assert s.rr + s.q0 + s.q1 + s.q2 == s.rr;
    }
  }

  // ----- the draining loops of a boost

  /** The head of queue i moves to the end of the top queue. */
  function MovedUp(s: Sched, i: int): Sched
    requires 1 <= i <= 2 && Queue(s, i) != [] && 0 <= Queue(s, i)[0] < |s.level|
  {
    var t := Queue(s, i)[0];
    SetQueue(s, i, Queue(s, i)[1..]).(q0 := s.q0 + [t], level := s.level[t := 0])
  }

  /** moved is what has gone from the lower queues of s0 to the end of the top one. */
  ghost predicate Draining(s0: Sched, s: Sched, moved: seq<int>) {
    && Shaped(s0) && Distinct(s0.q0 + s0.q1 + s0.q2) && |s0.q0 + s0.q1 + s0.q2| <= s0.cap
    && s0.q0 + s0.q1 + s0.q2 == s.q0 + s.q1 + s.q2 && s.q0 == s0.q0 + moved && |s.level| == |s0.level|
    && (forall t :: 0 <= t < |s.level| ==> s.level[t] == if t in moved then 0 else s0.level[t])
    && s == s0.(q0 := s.q0, q1 := s.q1, q2 := s.q2, level := s.level)
  }

  predicate NextToDrain(s: Sched, i: int) {
    (i == 1 && s.q1 != []) || (i == 2 && s.q1 == [] && s.q2 != [])
  }

  /** A thread still in a lower queue fits at the end of the top one. */
  lemma FitsOnTop(s0: Sched, s: Sched, moved: seq<int>, i: int)
    requires Draining(s0, s, moved) && NextToDrain(s, i)
    ensures |s.q0| < s.cap && Queue(s, i)[0] !in s.q0 && 0 <= Queue(s, i)[0] < |s.level|
  {
    var all := s.q0 + s.q1 + s.q2;
    assert all[|s.q0|] == Queue(s, i)[0];
    assert forall k :: 0 <= k < |s.q0| ==> all[k] == s.q0[k];
    assert all[|s.q0|] in s0.q0 + s0.q1 + s0.q2;
  }

  lemma DrainStep(s0: Sched, s: Sched, moved: seq<int>, i: int)
    requires Draining(s0, s, moved) && NextToDrain(s, i) && 0 <= Queue(s, i)[0] < |s.level|
    ensures Draining(s0, MovedUp(s, i), moved + [Queue(s, i)[0]])
  {
  }

  lemma Drained(s0: Sched, s: Sched, moved: seq<int>)
    requires Draining(s0, s, moved) && s.q1 == [] && s.q2 == [] && s0.mode == MLFQ
    ensures s == Boost(s0, s.lastBoost).(boosts := s0.boosts) && s.lastBoost == s0.lastBoost
  {
    var all := s0.q0 + s0.q1 + s0.q2;
    assert s.q0 == all;
    assert moved == s.q0[|s0.q0|..] == s0.q1 + s0.q2;
    assert s.level == Raised(s0.level, s0.q1 + s0.q2);
  }

  lemma BoostKeeps(s: Sched, now: int)
    requires Consistent(s)
    ensures Consistent(Boost(s, now))
  {
    QueuesDisjoint(s);
    hide Distinct, Below;
    assert forall x :: x in s.q0 + s.q1 + s.q2 <==> x in s.q0 || x in s.q1 || x in s.q2;
    assert forall x :: x in s.q1 + s.q2 <==> x in s.q1 || x in s.q2;
  }

  lemma ExpiryRR(s: Sched)
    requires Consistent(s) && s.current.Some? && s.mode == RR && s.quantum <= 1
    ensures Turn(s) == Next(Spent(s)) && Consistent(Turn(s))
  {
    hide Consistent, Next;
    ConsistentBasics(s);
    var b := Spent(s);
    QuantumKeeps(s, b.quantum);
    NextKeeps(b);
  }

  lemma ConsistentBasics(s: Sched)
    requires Consistent(s)
    ensures Shaped(s) && s.quantum <= Q2_QUANTUM && (s.current.Some? ==> CurrentRuns(s))
  {
  }

  lemma TurnKeeps(s: Sched)
    requires Consistent(s)
    ensures Consistent(Turn(s))
  {
    hide Consistent, Next;
    ConsistentBasics(s);
    if s.current == None {
      NextKeeps(s);
    } else if s.quantum > 1 {
      QuantumKeeps(s, s.quantum - 1);
    } else if s.mode == RR {
      ExpiryRR(s);
    } else {
      ExpiryKeeps(s);
    }
  }

  function LevelBelow(s: Sched): int {
    if s.currentQueue + 1 > 2 then 2 else s.currentQueue + 1
  }

  lemma NextIsTake(s: Sched, quantum: int)
    requires Shaped(s) && s.mode == MLFQ && Chosen(s) < 3 && !CurrentRuns(s)
    ensures Next(s.(quantum := quantum)) == Take(s)
  {
  }

  /** In the feedback queues the end of a quantum puts the running thread one queue down and takes the
      first of the highest queue. */
  lemma ExpiryIsRotation(s: Sched)
    requires Shaped(s) && s.mode == MLFQ && s.quantum <= 1 && CurrentRuns(s)
    requires var q := Queue(s, LevelBelow(s)); s.current.value !in q && |q| < s.cap
    ensures Turn(s) == Take(PushReady(s, s.current.value, LevelBelow(s)))
  {
    hide Shaped, Next, Demote, Take, PushReady, Queue;
    NextAfterDemotion(s);
  }

  lemma NextAfterDemotion(s: Sched)
    requires Shaped(s) && s.mode == MLFQ && CurrentRuns(s)
    requires var q := Queue(s, LevelBelow(s)); s.current.value !in q && |q| < s.cap
    ensures Next(Demote(Spent(s))) == Take(PushReady(s, s.current.value, LevelBelow(s)))
  {
    PushedIsReady(s, LevelBelow(s));
    DemotePushes(s);
    hide Shaped, Next, Demote, Take, PushReady, Chosen;
    NextIsTake(PushReady(s, s.current.value, LevelBelow(s)), s.quantum - 1);
  }

  lemma DemotePushes(s: Sched)
    requires Shaped(s) && s.mode == MLFQ && CurrentRuns(s)
    ensures Demote(Spent(s)) == PushReady(s, s.current.value, LevelBelow(s)).(quantum := s.quantum - 1)
  {
  }

  lemma PushedIsReady(s: Sched, l: int)
    requires Shaped(s) && CurrentRuns(s) && 0 <= l <= 2
    requires s.current.value !in Queue(s, l) && |Queue(s, l)| < s.cap
    ensures var d := PushReady(s, s.current.value, l); Chosen(d) < 3 && !CurrentRuns(d)
  {
    assert |Queue(PushReady(s, s.current.value, l), l)| > 0;
  }

  lemma ExpiryKeeps(s: Sched)
    requires Consistent(s) && s.current.Some? && s.mode == MLFQ && s.quantum <= 1
    ensures Turn(s) == Take(PushReady(s, s.current.value, LevelBelow(s))) && Consistent(Turn(s))
  {
    Room(s, Queue(s, LevelBelow(s)), s.current.value);
    ExpiryIsRotation(s);
    RotateKeeps(s, LevelBelow(s));
  }

  lemma QuantumKeeps(s: Sched, quantum: int)
    requires Consistent(s) && quantum <= Q2_QUANTUM && (s.mode == MLFQ && s.current.Some? ==> quantum >= 1)
    ensures Consistent(s.(quantum := quantum))
  {
    hide Distinct, Below;
  }

  lemma TickKeeps(s: Sched, now: int)
    requires Consistent(s)
    ensures Consistent(Tick(s, now))
  {
    var m := Marked(s, now);
    CountersKeep(s, s.switches, m.lastBoost, s.boosts);
    TurnKeeps(m);
    BoostKeeps(Turn(m), now);
  }

  // ----- the boost clock

  ghost predicate SameClock(s: Sched, h: Sched) {
    h.lastBoost == s.lastBoost && h.boosts == s.boosts
  }

  lemma NextClock(s: Sched)
    requires Shaped(s)
    ensures SameClock(s, Next(s))
  {
  }

  lemma TurnKeepsClock(s: Sched)
    requires Shaped(s)
    ensures SameClock(s, Turn(s))
  {
    hide Next;
    NextClock(s);
    NextClock(Demote(Spent(s)));
  }
}
