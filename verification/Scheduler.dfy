/** The scheduler of src/scheduler.c: thread control blocks, a ring for round robin, three rings for
    the feedback queues. The ghost field sched is the scheduler as a value. */
module Schedulers {
  import opened Common
  import opened ReadyQueues
  import opened SchedulerRules
  import opened SchedulerProofs

  /** The fields of a thread control block that the scheduler uses. */
  class Thread {
    const tid: int
    const priority: Priority
    var state: ThreadState
    var mlfqLevel: int

    constructor (tid: int, priority: Priority)
      ensures this.tid == tid && this.priority == priority && state == Ready && mlfqLevel == -1
    {
      this.tid, this.priority := tid, priority;
      state, mlfqLevel := Ready, -1;
    }
  }

  class Scheduler {
    const capacity: nat
    const threads: seq<Thread>            // the kernel's thread table
    const rr: ReadyQueue<Thread?>
    const q0: ReadyQueue<Thread?>         // the three feedback queues
    const q1: ReadyQueue<Thread?>
    const q2: ReadyQueue<Thread?>
    const table: array<Thread?>
    const mode: Mode
    var tableCount: int
    var current: Thread?
    var quantumRemaining: int
    var contextSwitches: int
    var currentQueue: int
    var lastBoostTick: int
    var boostCount: int
    ghost var sched: Sched

    /** Everything that an operation may change. */
    ghost function Parts(): set<object> {
      {this, rr, rr.slots, q0, q0.slots, q1, q1.slots, q2, q2.slots, table} + set t | t in threads
    }

    function Ring(i: int): ReadyQueue<Thread?> {
      if i == 0 then q0 else if i == 1 then q1 else q2
    }

    ghost predicate Fixed() {
      && capacity > 0 && |threads| <= capacity && (forall i :: 0 <= i < |threads| ==> threads[i].tid == i)
      && rr != q0 && rr != q1 && rr != q2 && q0 != q1 && q0 != q2 && q1 != q2
      && rr.slots != q0.slots && rr.slots != q1.slots && rr.slots != q2.slots
      && q0.slots != q1.slots && q0.slots != q2.slots && q1.slots != q2.slots
      && table != rr.slots && table != q0.slots && table != q1.slots && table != q2.slots
      && table.Length == capacity
    }

    /** The ring q holds the threads with these tids, in order. */
    ghost predicate Holds(q: ReadyQueue<Thread?>, tids: seq<int>)
      reads q, q.slots
    {
      && q.Valid() && q.slots.Length == capacity && |q.items| == |tids|
      && forall i :: 0 <= i < |tids| ==> 0 <= tids[i] < |threads| && q.items[i] == threads[tids[i]]
    }

    ghost predicate Rings()
      reads this, rr, rr.slots, q0, q0.slots, q1, q1.slots, q2, q2.slots
    {
      Holds(rr, sched.rr) && Holds(q0, sched.q0) && Holds(q1, sched.q1) && Holds(q2, sched.q2)
    }

    /** The threads' control blocks say this. */
    ghost predicate Blocks(st: seq<ThreadState>, level: seq<int>, prio: seq<Priority>)
      reads threads
    {
      && |st| == |level| == |prio| == |threads|
      && forall t :: 0 <= t < |threads| ==>
           threads[t].state == st[t] && threads[t].mlfqLevel == level[t] && threads[t].priority == prio[t]
    }

    ghost predicate Scalars()
      reads this
    {
      && sched.mode == mode && sched.cap == capacity
      && (if current == null then sched.current == None else Mine(current) && sched.current == Some(current.tid))
      && sched.quantum == quantumRemaining && sched.switches == contextSwitches && sched.currentQueue == currentQueue
      && sched.lastBoost == lastBoostTick && sched.boosts == boostCount
    }

    /** The thread table lists these threads. */
    ghost predicate Listed(tids: seq<int>)
      reads this`tableCount, table
    {
      && tableCount == |tids| <= table.Length
      && forall i :: 0 <= i < |tids| ==> 0 <= tids[i] < |threads| && table[i] == threads[tids[i]]
    }

    ghost predicate Mine(t: Thread) {
      0 <= t.tid < |threads| && threads[t.tid] == t
    }

    /** The rings, control blocks and counters say what sched says. */
    ghost predicate Represents()
      reads Parts()
    {
      && Fixed() && Rings() && Scalars()
      && Blocks(sched.st, sched.level, sched.prio) && Listed(sched.table)
    }

    ghost predicate Valid()
      reads Parts()
    {
      Represents() && Consistent(sched)
    }

    /** scheduler_init. The state is consistent by InitConsistent. */
    constructor (mode: Mode, threads: seq<Thread>, capacity: nat, ghost prio: seq<Priority>)
      requires capacity > 0 && |threads| <= capacity && |prio| == |threads|
      requires forall i :: 0 <= i < |threads| ==> threads[i].tid == i && threads[i].priority == prio[i]
      requires forall i :: 0 <= i < |threads| ==> threads[i].state == Ready && threads[i].mlfqLevel == -1
      ensures Represents() && this.mode == mode && this.threads == threads && this.capacity == capacity
      ensures sched == Init(mode, capacity, prio)
      ensures fresh(rr) && fresh(rr.slots) && fresh(q0) && fresh(q0.slots) && fresh(table)
      ensures fresh(q1) && fresh(q1.slots) && fresh(q2) && fresh(q2.slots)
    {
      this.mode, this.threads, this.capacity := mode, threads, capacity;
      rr := new ReadyQueue(capacity, null);
      q0 := new ReadyQueue(capacity, null);
      q1 := new ReadyQueue(capacity, null);
      q2 := new ReadyQueue(capacity, null);
      table := new Thread?[capacity](i => null);
      tableCount, current, contextSwitches, currentQueue, lastBoostTick, boostCount := 0, null, 0, 0, 0, 0;
      quantumRemaining := if mode == RR then RR_QUANTUM else Q0_QUANTUM;
      sched := Init(mode, capacity, prio);
      new;
      hide Represents;
      NewRepresents(prio);
    }

    ghost predicate IsNew(q: ReadyQueue<Thread?>)
      reads q, q.slots
    {
      q.Valid() && q.items == [] && q.slots.Length == capacity
    }

    lemma NewRepresents(prio: seq<Priority>)
      requires Fixed() && sched == Init(mode, capacity, prio) && |prio| == |threads| && Scalars() && tableCount == 0
      requires IsNew(rr) && IsNew(q0) && IsNew(q1) && IsNew(q2)
      requires forall i :: 0 <= i < |threads| ==>
                 threads[i].state == Ready && threads[i].mlfqLevel == -1 && threads[i].priority == prio[i]
      ensures Represents()
    {
    }

    // ----- what the value says about the fields

    lemma StateIs(t: Thread)
      requires Represents() && Mine(t)
      ensures Known(sched, t.tid) && t.state == sched.st[t.tid]
    {
    }

    lemma CurrentIs(t: Thread)
      requires Represents() && Mine(t)
      ensures sched.current == Some(t.tid) <==> current == t
    {
    }

    // ----- on one ring

    lemma HeldPosition(q: ReadyQueue<Thread?>, tids: seq<int>, t: Thread)
      requires Fixed() && Holds(q, tids) && Mine(t)
      ensures t in q.items <==> t.tid in tids
      ensures PositionOf(q.items, t) == PositionOf(tids, t.tid)
    {
    }

    method PushOn(q: ReadyQueue<Thread?>, t: Thread, ghost tids: seq<int>)
      requires Fixed() && Holds(q, tids) && Mine(t)
      modifies q, q.slots
      ensures Holds(q, Push(tids, t.tid, capacity))
    {
      HeldPosition(q, tids, t);
      q.Push(t);
    }

    method DropFrom(q: ReadyQueue<Thread?>, t: Thread, ghost tids: seq<int>) returns (found: bool)
      requires Fixed() && Holds(q, tids) && Mine(t)
      modifies q, q.slots
      ensures found == (t.tid in tids) && Holds(q, Drop(tids, t.tid))
    {
      HeldPosition(q, tids, t);
      found := q.Remove(t);
    }

    // ----- on one control block

    method SetState(t: Thread, x: ThreadState)
      requires Represents() && Mine(t)
      modifies t`state, this`sched
      ensures Represents() && sched == old(sched).(st := old(sched).st[t.tid := x])
    {
      hide Holds, Listed;
      t.state := x;
      sched := sched.(st := sched.st[t.tid := x]);
    }

    method SetLevel(t: Thread, l: int)
      requires Represents() && Mine(t)
      modifies t`mlfqLevel, this`sched
      ensures Represents() && sched == old(sched).(level := old(sched).level[t.tid := l])
    {
      hide Holds, Listed;
      t.mlfqLevel := l;
      sched := sched.(level := sched.level[t.tid := l]);
    }

    method PushRing(t: Thread, l: int)
      requires Represents() && Mine(t) && 0 <= l <= 2
      modifies Ring(l), Ring(l).slots, this`sched
      ensures Represents() && sched == SetQueue(old(sched), l, Push(Queue(old(sched), l), t.tid, capacity))
    {
      hide Push, Blocks, Listed, Holds;
      PushOn(Ring(l), t, Queue(sched, l));
      sched := SetQueue(sched, l, Push(Queue(sched, l), t.tid, capacity));
    }

    method PushReady(t: Thread, l: int)
      requires Represents() && Shaped(sched) && Mine(t) && 0 <= l <= 2
      modifies Ring(l), Ring(l).slots, t, this`sched
      ensures Represents() && sched == SchedulerRules.PushReady(old(sched), t.tid, l)
    {
      assert sched.cap == capacity;
      hide Represents, Push;
      PushRing(t, l);
      SetLevel(t, l);
      SetState(t, Ready);
    }

    /** What a level of -1 stands for. */
    method LevelOf(t: Thread) returns (l: int)
      requires Represents() && Shaped(sched) && Mine(t)
      ensures l == LevelFor(sched, t.tid)
    {
      l := if t.mlfqLevel >= 0 then t.mlfqLevel else LevelOfPriority(t.priority);
    }

    method Register(t: Thread)
      requires Represents() && Mine(t)
      modifies table, this`tableCount, this`sched
      ensures Represents()
      ensures sched == SchedulerRules.Register(old(sched), t.tid)
    {
      hide Holds, Blocks;
      var found := false;
      for i := 0 to tableCount
        invariant !found && forall j :: 0 <= j < i ==> sched.table[j] != t.tid
      {
        if table[i] == t {
          found := true;
          break;
        }
      }
      if !found && tableCount < table.Length {
        table[tableCount] := t;
        tableCount := tableCount + 1;
        sched := sched.(table := sched.table + [t.tid]);
      }
    }

    method InRing(t: Thread, l: int) returns (found: bool)
      requires Represents() && Mine(t)
      ensures found == (t.tid in (if l < 0 then sched.rr else Queue(sched, l)))
    {
      var q := if l < 0 then rr else Ring(l);
      var slot := q.Find(t);
      HeldPosition(q, if l < 0 then sched.rr else Queue(sched, l), t);
      found := slot >= 0;
    }

    method AppendRR(t: Thread)
      requires Represents() && Mine(t) && |sched.rr| < capacity
      modifies rr, rr.slots, this`sched
      ensures Represents() && sched == old(sched).(rr := old(sched).rr + [t.tid])
    {
      hide Blocks, Listed;
      rr.Append(t);
      sched := sched.(rr := sched.rr + [t.tid]);
    }

    // ----- the operations

    /** Whether t may not be added to the round robin. */
    method RefusedRR(t: Thread) returns (refused: bool)
      requires Represents() && Mine(t)
      ensures refused == (t.tid in sched.rr || |sched.rr| >= sched.cap) && sched.cap == capacity
    {
      var found := InRing(t, -1);
      refused := found || rr.count >= capacity;
    }

    method AddRR(t: Thread)
      requires Represents() && Mine(t) && mode == RR
      modifies rr, rr.slots, table, t, this
      ensures Represents() && sched == SchedulerRules.AddRR(old(sched), t.tid)
    {
      assert sched.mode == mode;
      hide Represents;
      var refused := RefusedRR(t);
      if refused {
        return;
      }
      AppendRR(t);
      SetState(t, Ready);
      Register(t);
    }

    method AddMLFQ(t: Thread)
      requires Represents() && Shaped(sched) && Mine(t) && mode == MLFQ
      modifies q0, q0.slots, q1, q1.slots, q2, q2.slots, table, t, this
      ensures Represents() && sched == SchedulerRules.AddMLFQ(old(sched), t.tid)
    {
      assert sched.cap == capacity && sched.mode == mode;
      hide Represents, SchedulerRules.PushReady;
      var l := LevelOf(t);
      var found := InRing(t, l);
      if found {
        return;
      }
      PushReady(t, l);
      Register(t);
    }

    /** scheduler_add */
    method Add(t: Thread)
      requires Represents() && Shaped(sched) && Mine(t)
      modifies Parts()
      ensures Represents() && sched == SchedulerRules.Add(old(sched), t.tid)
      ensures old(Consistent(sched)) ==> (Valid() <==> old(sched).current != Some(t.tid))
    {
      if Consistent(sched) {
        assert Known(sched, t.tid);
        AddKeepsIffNotCurrent(sched, t.tid);
      }
      assert sched.mode == mode;
      hide Represents, SchedulerRules.AddRR, SchedulerRules.AddMLFQ;
      if mode == RR {
        AddRR(t);
      } else {
        AddMLFQ(t);
      }
    }

    method Requeue()
      requires Represents() && Shaped(sched) && (mode == RR && CurrentRuns(sched) ==> |sched.rr| < capacity)
      modifies Parts()
      ensures Represents() && sched == SchedulerRules.Requeue(old(sched)) && current == old(current)
    {
      assert sched.mode == mode && sched.cap == capacity;
      assert if current == null then sched.current == None
             else Mine(current) && sched.current == Some(current.tid) && current.state == sched.st[current.tid];
      hide Represents, Push;
      if current != null && current.state == Running {
        if mode == RR {
          var c := current;
          SetState(c, Ready);
          AppendRR(c);
        } else {
          var l := LevelOf(current);
          PushReady(current, l);
        }
      }
    }

    /** The new current thread starts to run. */
    method Dispatch(t: Thread)
      requires Represents() && Mine(t)
      modifies this, t
      ensures Represents() && sched == SchedulerRules.Dispatch(old(sched), t.tid)
      ensures currentQueue == old(currentQueue) == sched.currentQueue
    {
      hide Holds, Listed;
      if current != t {
        contextSwitches := contextSwitches + 1;
      }
      current := t;
      t.state := Running;
      sched := SchedulerRules.Dispatch(sched, t.tid);
    }

    method PopFrom(q: ReadyQueue<Thread?>, ghost tids: seq<int>) returns (t: Thread)
      requires Fixed() && Holds(q, tids) && tids != []
      modifies q
      ensures Holds(q, tids[1..]) && Mine(t) && t.tid == tids[0]
    {
      assert q.items[0] == threads[tids[0]];
      t := q.Pop();
    }

    method PopRR() returns (t: Thread)
      requires Represents() && sched.rr != []
      modifies rr, this`sched
      ensures Represents() && Mine(t) && t.tid == old(sched).rr[0] && sched == old(sched).(rr := old(sched).rr[1..])
    {
      hide Blocks, Listed, Holds;
      t := PopFrom(rr, sched.rr);
      sched := sched.(rr := sched.rr[1..]);
    }

    method PopRing(i: int) returns (t: Thread)
      requires Represents() && 0 <= i <= 2 && Queue(sched, i) != []
      modifies Ring(i), this`sched
      ensures Represents() && Mine(t) && t.tid == Queue(old(sched), i)[0]
      ensures sched == SetQueue(old(sched), i, Queue(old(sched), i)[1..])
    {
      hide Blocks, Listed, Holds;
      t := PopFrom(Ring(i), Queue(sched, i));
      sched := SetQueue(sched, i, Queue(sched, i)[1..]);
    }

    method TakeRR()
      requires Represents() && sched.rr != [] && Known(sched, sched.rr[0])
      modifies Parts()
      ensures Represents() && sched == SchedulerRules.TakeRR(old(sched))
    {
      hide Represents;
      var t := PopRR();
      Dispatch(t);
      SetSlice(currentQueue, RR_QUANTUM);
    }

    method TakeMLFQ(i: int)
      requires Represents() && 0 <= i <= 2 && HeadKnown(sched, i)
      modifies Parts()
      ensures Represents() && sched == TakeFrom(old(sched), i)
    {
      hide Represents;
      var t := PopRing(i);
      Dispatch(t);
      SetSlice(i, Quantum(i));
    }

    method SetSlice(i: int, quantum: int)
      requires Represents()
      modifies this
      ensures Represents() && sched == old(sched).(currentQueue := i, quantum := quantum)
      ensures currentQueue == i && quantumRemaining == quantum
    {
      hide Holds, Blocks, Listed;
      currentQueue, quantumRemaining := i, quantum;
      sched := sched.(currentQueue := i, quantum := quantum);
    }

    /** The first of the three queues that is not empty, or 3. */
    method FirstReady() returns (i: int)
      requires Represents()
      ensures i == Chosen(sched)
      ensures 0 <= i <= 3 && (i == 0 <==> sched.q0 != [])
      ensures i == 1 <==> sched.q0 == [] && sched.q1 != []
      ensures i == 2 <==> sched.q0 == [] && sched.q1 == [] && sched.q2 != []
    {
      i := 0;
      while i < 3
        invariant 0 <= i <= 3 && (i > 0 ==> sched.q0 == []) && (i > 1 ==> sched.q1 == []) && (i > 2 ==> sched.q2 == [])
      {
        if Ring(i).count > 0 {
          return;
        }
        i := i + 1;
      }
    }

    /** scheduler_next; the result is the field current. */
    method Next()
      requires Represents() && Shaped(sched) && (mode == RR && CurrentRuns(sched) ==> |sched.rr| < capacity)
      modifies Parts()
      ensures Represents() && sched == SchedulerRules.Next(old(sched))
      ensures old(Consistent(sched)) ==> Valid()
    {
      if Consistent(sched) {
        NextKeeps(sched);
      }
      assert sched.mode == mode && rr.count == |sched.rr|;
      hide Represents, Consistent, Shaped, SchedulerRules.Next;
      if mode == RR {
        if rr.count > 0 {
          NextRR();
        }
      } else {
        NextMLFQ();
      }
    }

    method NextRR()
      requires Represents() && Shaped(sched) && mode == RR && sched.rr != []
      requires CurrentRuns(sched) ==> |sched.rr| < capacity
      modifies Parts()
      ensures Represents() && sched == SchedulerRules.Next(old(sched))
    {
      assert sched.mode == mode;
      RequeueKeepsReady(sched);
      hide Represents, SchedulerRules.Requeue, SchedulerRules.TakeRR;
      Requeue();
      TakeRR();
    }

    method NextMLFQ()
      requires Represents() && Shaped(sched) && mode == MLFQ
      modifies Parts()
      ensures Represents() && sched == SchedulerRules.Next(old(sched))
    {
      assert sched.mode == mode;
      hide Represents, SchedulerRules.Requeue, Take;
      var ready := FirstReady();
      if ready == 3 {
        return;
      }
      SwitchMLFQ();
    }

    method SwitchMLFQ()
      requires Represents() && Shaped(sched) && mode == MLFQ && Chosen(sched) != 3
      modifies Parts()
      ensures Represents() && sched == Take(SchedulerRules.Requeue(old(sched)))
    {
      assert sched.mode == mode;
      RequeueKeepsReady(sched);
      hide Represents, HeadKnown, SchedulerRules.Requeue, TakeFrom;
      Requeue();
      var chosen := FirstReady();
      TakeMLFQ(chosen);
    }

    method DropRing(t: Thread, i: int) returns (found: bool)
      requires Represents() && Mine(t) && 0 <= i <= 2
      modifies Ring(i), Ring(i).slots, this`sched
      ensures Represents() && found == (t.tid in Queue(old(sched), i))
      ensures sched == SetQueue(old(sched), i, Drop(Queue(old(sched), i), t.tid))
    {
      hide Drop, Blocks, Listed, Holds;
      found := DropFrom(Ring(i), t, Queue(sched, i));
      sched := SetQueue(sched, i, Drop(Queue(sched, i), t.tid));
    }

    method DropRR(t: Thread)
      requires Represents() && Mine(t)
      modifies rr, rr.slots, this`sched
      ensures Represents() && sched == old(sched).(rr := Drop(old(sched).rr, t.tid))
    {
      hide Drop, Blocks, Listed, Holds;
      var found := DropFrom(rr, t, sched.rr);
      sched := sched.(rr := Drop(sched.rr, t.tid));
    }

    method Dequeue(t: Thread)
      requires Represents() && Mine(t)
      modifies Parts()
      ensures Represents() && sched == SchedulerRules.Dequeue(old(sched), t.tid)
    {
      assert sched.mode == mode;
      hide Represents;
      if mode == RR {
        DropRR(t);
      } else {
        ghost var s0 := sched;
        for i := 0 to 3
          invariant Represents() && sched == s0
          invariant (i > 0 ==> t.tid !in sched.q0) && (i > 1 ==> t.tid !in sched.q1) && (i > 2 ==> t.tid !in sched.q2)
        {
          var found := DropRing(t, i);
          if found {
            break;
          }
        }
      }
    }

    /** scheduler_block */
    method Block(t: Thread)
      requires Represents() && Shaped(sched) && Mine(t)
      modifies Parts()
      ensures Represents() && sched == SchedulerRules.Block(old(sched), t.tid)
    {
      assert sched.mode == mode && sched.currentQueue == currentQueue && t.state == sched.st[t.tid];
      assert sched.current == Some(t.tid) <==> current == t;
      hide Represents, SchedulerRules.Next, SchedulerRules.Dequeue;
      if t.state == Done {
        return;
      }
      if mode == MLFQ && current == t {
        SetLevel(t, currentQueue);
      }
      if current == t {
        ClearCurrent();
        Next();
      } else {
        Dequeue(t);
      }
    }

    method ClearCurrent()
      requires Represents()
      modifies this
      ensures Represents() && sched == old(sched).(current := None)
    {
      hide Holds, Blocks, Listed;
      current := null;
      sched := sched.(current := None);
    }

    /** The kernel's block_thread: the thread is marked blocked and leaves the scheduler. */
    method BlockThread(t: Thread)
      requires Valid() && Mine(t)
      modifies Parts()
      ensures Valid() && sched == SchedulerRules.BlockThread(old(sched), t.tid)
    {
      BlockThreadKeeps(sched, t.tid);
      assert Shaped(sched);
      hide Represents, Consistent, Shaped, SchedulerRules.Block;
      StateIs(t);
      if t.state == Blocked {
        return;
      }
      BlockedShaped(sched, t.tid);
      SetState(t, Blocked);
      Block(t);
    }

    /** The kernel's unblock_thread. */
    method UnblockThread(t: Thread)
      requires Valid() && Mine(t)
      modifies Parts()
      ensures Represents() && sched == SchedulerRules.UnblockThread(old(sched), t.tid)
      ensures Valid() <==> old(sched).current != Some(t.tid)
    {
      assert Shaped(sched) && Known(sched, t.tid);
      UnblockKeepsIffNotCurrent(sched, t.tid);
      hide Represents, Consistent, Shaped, SchedulerRules.Add, Readied;
      MakeReady(t);
      Add(t);
    }

    method MakeReady(t: Thread)
      requires Represents() && Mine(t)
      modifies t`state, this`sched
      ensures Represents() && sched == Readied(old(sched), t.tid)
    {
      hide Holds, Listed;
      assert t.state == sched.st[t.tid];
      if t.state == Blocked {
        SetState(t, Ready);
      }
    }

    /** scheduler_terminate */
    method Terminate(t: Thread)
      requires Valid() && Mine(t)
      modifies Parts()
      ensures Valid() && sched == SchedulerRules.Terminate(old(sched), t.tid)
    {
      hide Represents, Consistent, StopCurrent, SchedulerRules.Dequeue;
      StateIs(t);
      TerminateKeeps(sched, t.tid);
      Stop(t);
      Dequeue(t);
      SetState(t, Done);
    }

    method Stop(t: Thread)
      requires Represents() && Mine(t)
      modifies this
      ensures Represents() && sched == StopCurrent(old(sched), t.tid)
    {
      hide Represents;
      CurrentIs(t);
      if current == t {
        ClearCurrent();
      }
    }

    /** One turn of the draining loop of scheduler_priority_boost. */
    method MoveUp(i: int)
      requires Represents() && 1 <= i <= 2 && Queue(sched, i) != [] && 0 <= Queue(sched, i)[0] < |sched.level|
      requires |sched.q0| < capacity && Queue(sched, i)[0] !in sched.q0
      modifies Parts()
      ensures Represents() && sched == MovedUp(old(sched), i)
    {
      hide Represents;
      var t := PopRing(i);
      SetLevel(t, 0);
      PushRing(t, 0);
    }

    method DrainOne(i: int, ghost s0: Sched, ghost moved: seq<int>) returns (ghost moved': seq<int>)
      requires Represents() && Draining(s0, sched, moved)
      requires NextToDrain(sched, i)
      modifies Parts()
      ensures Represents() && Draining(s0, sched, moved')
      ensures if i == 1 then sched.q1 == old(sched).q1[1..] && sched.q2 == old(sched).q2
              else sched.q1 == [] && sched.q2 == old(sched).q2[1..]
    {
      FitsOnTop(s0, sched, moved, i);
      DrainStep(s0, sched, moved, i);
      hide Represents, Distinct, Draining;
      moved' := moved + [Queue(sched, i)[0]];
      MoveUp(i);
    }

    method NoteBoost(tick: int)
      requires Represents()
      modifies this
      ensures Represents() && sched == old(sched).(lastBoost := tick, boosts := old(sched).boosts + 1)
    {
      hide Holds, Blocks, Listed;
      lastBoostTick := tick;
      boostCount := boostCount + 1;
      sched := sched.(lastBoost := tick, boosts := sched.boosts + 1);
    }

    method RingEmpty(i: int) returns (empty: bool)
      requires Represents() && 0 <= i <= 2
      ensures empty == (Queue(sched, i) == [])
    {
      empty := Ring(i).count <= 0;
    }

    /** The inner draining loop. */
    method DrainRing(i: int, ghost s0: Sched, ghost moved: seq<int>) returns (ghost moved': seq<int>)
      requires Represents() && Draining(s0, sched, moved)
      requires i == 1 || (i == 2 && sched.q1 == [])
      modifies Parts()
      ensures Represents() && Draining(s0, sched, moved')
      ensures sched.q1 == [] && (i == 2 ==> sched.q2 == [])
    {
      hide Represents, Distinct, Draining;
      moved' := moved;
      var empty := RingEmpty(i);
      while !empty
        invariant Represents() && Draining(s0, sched, moved') && empty == (Queue(sched, i) == [])
        invariant i == 2 ==> sched.q1 == []
        decreases |Queue(sched, i)|
      {
        moved' := DrainOne(i, s0, moved');
        empty := RingEmpty(i);
      }
    }

    lemma LinesFit()
      requires Valid()
      ensures Distinct(sched.q0 + sched.q1 + sched.q2) && |sched.q0 + sched.q1 + sched.q2| <= capacity
      ensures sched.current.Some? ==> |sched.rr| < capacity
    {
      QueuesFit(sched);
      QueuesDisjoint(sched);
      assert sched.rr + sched.q0 + sched.q1 + sched.q2 == sched.rr + (sched.q0 + sched.q1 + sched.q2);
    }

    /** The two draining loops. */
    method DrainAll(ghost s0: Sched)
      requires Represents() && sched == s0 && Shaped(sched) && sched.mode == MLFQ
      requires Distinct(s0.q0 + s0.q1 + s0.q2) && |s0.q0 + s0.q1 + s0.q2| <= capacity
      modifies Parts()
      ensures Represents() && sched.lastBoost == s0.lastBoost
      ensures sched == SchedulerRules.Boost(s0, sched.lastBoost).(boosts := s0.boosts)
    {
      ghost var moved := [];
      assert sched.cap == capacity && sched.q0 + [] == sched.q0;
      assert Draining(s0, sched, []);
      hide Represents, Distinct;
      for i := 1 to 3
        invariant Represents() && Draining(s0, sched, moved)
        invariant (i > 1 ==> sched.q1 == []) && (i > 2 ==> sched.q2 == [])
      {
        hide Draining;
        moved := DrainRing(i, s0, moved);
      }
      Drained(s0, sched, moved);
    }

    /** scheduler_priority_boost */
    method Boost(tick: int)
      requires Valid()
      modifies Parts()
      ensures Valid() && sched == SchedulerRules.Boost(old(sched), tick)
    {
      BoostKeeps(sched, tick);
      LinesFit();
      assert sched.mode == mode && Shaped(sched);
      hide Represents, Consistent, Distinct, SchedulerRules.Boost;
      RaiseAll(tick);
    }

    method RaiseAll(tick: int)
      requires Represents() && Shaped(sched)
      requires Distinct(sched.q0 + sched.q1 + sched.q2) && |sched.q0 + sched.q1 + sched.q2| <= capacity
      modifies Parts()
      ensures Represents() && sched == SchedulerRules.Boost(old(sched), tick)
    {
      assert sched.mode == mode;
      hide Represents, Distinct;
      if mode != MLFQ {
        return;
      }
      NoteBoost(tick);
      DrainAll(sched);
    }

    /** The demotion in scheduler_tick. */
    method Demote()
      requires Represents() && Shaped(sched)
      modifies Parts()
      ensures Represents() && sched == SchedulerRules.Demote(old(sched))
    {
      assert sched.mode == mode && sched.currentQueue == currentQueue;
      assert if current == null then sched.current == None
             else Mine(current) && sched.current == Some(current.tid) && current.state == sched.st[current.tid];
      hide Represents, SchedulerRules.PushReady;
      if mode == MLFQ && current != null && current.state == Running {
        var next := currentQueue + 1;
        if next > 2 {
          next := 2;
        }
        PushReady(current, next);
      }
    }

    method CountDown() returns (expired: bool)
      requires Represents()
      modifies this
      ensures Represents() && sched == old(sched).(quantum := old(sched).quantum - 1) && expired == (sched.quantum <= 0)
    {
      hide Holds, Blocks, Listed;
      quantumRemaining := quantumRemaining - 1;
      sched := sched.(quantum := quantumRemaining);
      expired := quantumRemaining <= 0;
    }

    method Mark(tick: int) returns (due: bool)
      requires Represents()
      modifies this
      ensures Represents() && sched == Marked(old(sched), tick) && due == BoostDue(sched, tick)
    {
      hide Holds, Blocks, Listed;
      if mode == MLFQ && lastBoostTick == 0 {
        lastBoostTick := tick;
        sched := sched.(lastBoost := tick);
      }
      due := mode == MLFQ && tick - lastBoostTick >= BOOST_INTERVAL;
    }

    method Expire()
      requires Represents() && Shaped(sched) && (mode == RR ==> |sched.rr| < capacity)
      modifies Parts()
      ensures Represents() && sched == SchedulerRules.Next(SchedulerRules.Demote(old(sched)))
    {
      assert sched.mode == mode;
      hide Represents, SchedulerRules.Next;
      Demote();
      Next();
    }

    /** The part of scheduler_tick between looking at the boost clock and boosting. */
    method Turn() returns (switched: int)
      requires Represents() && Shaped(sched) && (mode == RR && sched.current.Some? ==> |sched.rr| < capacity)
      modifies Parts()
      ensures Represents() && sched == SchedulerRules.Turn(old(sched))
      ensures switched == if old(sched).current == None || old(sched).quantum <= 1 then 1 else 0
    {
      assert current == null <==> sched.current == None;
      assert Shaped(Spent(sched));
      hide Represents, Shaped, SchedulerRules.Next, SchedulerRules.Demote, ConsistentBut;
      if current == null {
        Next();
        return 1;
      }
      var expired := CountDown();
      if !expired {
        return 0;
      }
      Expire();
      return 1;
    }

    /** scheduler_tick */
    method Tick(tick: int) returns (switched: int)
      requires Valid()
      modifies Parts()
      ensures Valid() && sched == SchedulerRules.Tick(old(sched), tick)
      ensures switched == if old(sched).current == None || old(sched).quantum <= 1 then 1 else 0
    {
      CountersKeep(sched, sched.switches, Marked(sched, tick).lastBoost, sched.boosts);
      TurnKeeps(Marked(sched, tick));
      LinesFit();
      assert Shaped(Marked(sched, tick));
      hide Represents, Consistent, Shaped, SchedulerRules.Turn, SchedulerRules.Boost;
      var due := Mark(tick);
      switched := Turn();
      if due {
        Boost(tick);
      }
    }
  }
}
