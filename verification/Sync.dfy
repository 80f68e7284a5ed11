/** Mutex, condition variables and bounded buffer of src/sync.c. */
module Sync {
  import opened Common
  import opened BufferRules

  /** The wait_queue array and wait_count of a mutex or a condition variable. */
  class WaitQueue {
    const slots: array<int>
    var count: int
    ghost var ids: seq<int>

    ghost predicate Valid()
      reads this, slots
    {
      0 <= count <= slots.Length && slots[..count] == ids
    }

    constructor (capacity: nat)
      ensures Valid() && ids == [] && slots.Length == capacity && fresh(slots)
    {
      slots := new int[capacity](i => -1);
      count, ids := 0, [];
    }

    /** Enters pid unless it is there already or the queue is full. */
    method Enter(pid: int)
      requires Valid()
      modifies this, slots
      ensures Valid() && ids == Join(old(ids), pid, slots.Length)
    {
      for i := 0 to count
        invariant forall j :: 0 <= j < i ==> ids[j] != pid
      {
        assert slots[i] == ids[i];
        if slots[i] == pid {
          return;
        }
      }
      if count < slots.Length {
        slots[count] := pid;
        count := count + 1;
        ids := ids + [pid];
      }
    }

    /** Takes the first id out and moves the others up; -1 if there is none. */
    method Leave() returns (pid: int)
      requires Valid()
      modifies this, slots
      ensures Valid() && ids == Tail(old(ids)) && pid == if old(ids) == [] then -1 else old(ids)[0]
    {
      if count <= 0 {
        return -1;
      }
      pid := slots[0];
      ghost var q := ids;
      for i := 1 to count
        invariant count == |q| && ids == q
        invariant forall j :: 0 <= j < i - 1 ==> slots[j] == q[j + 1]
        invariant forall j :: i - 1 <= j < count ==> slots[j] == q[j]
      {
        slots[i - 1] := slots[i];
      }
      count := count - 1;
      ids := ids[1..];
    }

    /** cond_broadcast: reports at most max ids, and empties the queue. */
    method LeaveAll(max: nat) returns (pids: seq<int>)
      requires Valid()
      modifies this
      ensures Valid() && ids == [] && pids == Reported(old(ids), max)
    {
      pids := [];
      var i := 0;
      while i < count && |pids| < max
        invariant 0 <= i <= count && |pids| == i <= max && pids == ids[..i]
      {
        pids := pids + [slots[i]];
        i := i + 1;
      }
      count, ids := 0, [];
    }

    /** The two loops of buffer_remove_pid on one queue: crossing out, then closing the gaps. */
    method Remove(pid: int)
      requires Valid()
      modifies this, slots
      ensures Valid() && ids == Purge(old(ids), pid)
    {
      ghost var q := ids;
      for i := 0 to count
        invariant count == |q|
        invariant forall j :: 0 <= j < count ==> slots[j] == if j < i && q[j] == pid then -1 else q[j]
      {
        if slots[i] == pid {
          slots[i] := -1;
        }
      }
      var w := 0;
      for i := 0 to count
        invariant count == |q| && 0 <= w <= i && slots[..w] == Purge(q[..i], pid)
        invariant forall j :: i <= j < count ==> slots[j] == if q[j] == pid then -1 else q[j]
      {
        assert q[..i + 1][..i] == q[..i];
        if slots[i] >= 0 {
          slots[w] := slots[i];
          w := w + 1;
        }
      }
      assert q[..count] == q;
      count := w;
      ids := Purge(q, pid);
    }
  }

  class Mutex {
    var locked: bool
    var ownerPid: int
    const waiting: WaitQueue

    ghost predicate Valid()
      reads this, waiting, waiting.slots
    {
      waiting.Valid()
    }

    /** Who holds the mutex. */
    ghost function Owner(): Option<int>
      reads this
    {
      if locked then Some(ownerPid) else None
    }

    constructor (capacity: nat)
      ensures Valid() && Owner() == None && waiting.ids == [] && waiting.slots.Length == capacity
      ensures fresh(waiting) && fresh(waiting.slots)
    {
      locked, ownerPid := false, -1;
      waiting := new WaitQueue(capacity);
    }

    /** mutex_lock: whether the mutex was free; if not, the caller waits. */
    method Lock(pid: int) returns (ok: bool)
      requires Valid()
      modifies this, waiting, waiting.slots
      ensures Valid() && ok == (old(Owner()) == None)
      ensures Owner() == if ok then Some(pid) else old(Owner())
      ensures waiting.ids == if ok then old(waiting.ids) else Join(old(waiting.ids), pid, waiting.slots.Length)
    {
      if !locked {
        locked, ownerPid := true, pid;
        return true;
      }
      waiting.Enter(pid);
      return false;
    }

    /** mutex_unlock: the mutex is free; the first waiter, or -1, is reported. */
    method Unlock() returns (wake: int)
      requires Valid()
      modifies this, waiting, waiting.slots
      ensures Valid() && Owner() == None && waiting.ids == Tail(old(waiting.ids))
      ensures wake == if old(waiting.ids) == [] then -1 else old(waiting.ids)[0]
    {
      wake := waiting.Leave();
      locked, ownerPid := false, -1;
    }
  }

  class BoundedBuffer {
    const buffer: array<int>
    var in_: int
    var out: int
    var count: int
    const mutex: Mutex
    const notFull: WaitQueue
    const notEmpty: WaitQueue
    ghost var items: seq<int>

    ghost predicate Fixed() {
      && buffer.Length > 0 && notFull.slots.Length == notEmpty.slots.Length
      && notFull != notEmpty && notFull != mutex.waiting && notEmpty != mutex.waiting
      && buffer != notFull.slots && buffer != notEmpty.slots && buffer != mutex.waiting.slots
      && notFull.slots != notEmpty.slots
      && notFull.slots != mutex.waiting.slots && notEmpty.slots != mutex.waiting.slots
    }

    ghost function Parts(): set<object> {
      {this, buffer, mutex, mutex.waiting, mutex.waiting.slots, notFull, notFull.slots, notEmpty, notEmpty.slots}
    }

    /** The items are the count slots of the ring from out on. */
    ghost predicate Valid()
      reads Parts()
    {
      && Fixed() && mutex.Valid() && notFull.Valid() && notEmpty.Valid()
      && 0 <= out < buffer.Length && 0 <= count <= buffer.Length && |items| == count
      && in_ == Around(count) && forall i :: 0 <= i < count ==> buffer[Around(i)] == items[i]
    }

    function Around(i: int): int
      reads this
    {
      if out + i < buffer.Length then out + i else out + i - buffer.Length
    }

    /** The buffer as a value. */
    ghost function Value(): Buffer
      reads Parts()
    {
      Buffer(buffer.Length, mutex.waiting.slots.Length, notFull.slots.Length, items, mutex.Owner(),
             mutex.waiting.ids, notFull.ids, notEmpty.ids)
    }

    /** buffer_init */
    constructor (size: nat, procs: nat, threads: nat)
      requires size > 0
      ensures Valid() && Value() == Init(size, procs, threads) && fresh(Parts())
    {
      buffer := new int[size](i => 0);
      in_, out, count, items := 0, 0, 0, [];
      mutex := new Mutex(procs);
      notFull := new WaitQueue(threads);
      notEmpty := new WaitQueue(threads);
    }

    /** cond_wait: gives the mutex up and waits. */
    method Wait(q: WaitQueue, pid: int)
      requires Valid() && (q == notFull || q == notEmpty)
      modifies mutex, mutex.waiting, mutex.waiting.slots, q, q.slots
      ensures Valid() && mutex.Owner() == None && mutex.waiting.ids == Tail(old(mutex.waiting.ids))
      ensures q.ids == Join(old(q.ids), pid, q.slots.Length)
      ensures q == notFull ==> notEmpty.ids == old(notEmpty.ids)
      ensures q == notEmpty ==> notFull.ids == old(notFull.ids)
    {
      var wake := mutex.Unlock();
      q.Enter(pid);
    }

    method Put(item: int)
      requires Valid() && count < buffer.Length
      modifies this, buffer
      ensures Valid() && items == old(items) + [item]
    {
      buffer[in_] := item;
      in_ := Modulo(in_ + 1, buffer.Length);
      count := count + 1;
      items := items + [item];
    }

    method Take() returns (item: int)
      requires Valid() && count > 0
      modifies this
      ensures Valid() && old(items) == [item] + items
    {
      item := buffer[out];
      ghost var before := items;
      out := Modulo(out + 1, buffer.Length);
      count := count - 1;
      items := items[1..];
      assert forall i :: 0 <= i < count ==> items[i] == before[i + 1];
    }

    /** How buffer_produce and buffer_consume end: cond_signal, then mutex_unlock. */
    method SignalAndUnlock(q: WaitQueue) returns (wake: seq<int>)
      requires Valid() && AllNatural() && (q == notFull || q == notEmpty)
      modifies mutex, mutex.waiting, mutex.waiting.slots, q, q.slots
      ensures Valid() && wake == Head(old(q.ids)) + Head(old(mutex.waiting.ids))
      ensures mutex.Owner() == None && mutex.waiting.ids == Tail(old(mutex.waiting.ids)) && q.ids == Tail(old(q.ids))
      ensures q == notFull ==> notEmpty.ids == old(notEmpty.ids)
      ensures q == notEmpty ==> notFull.ids == old(notFull.ids)
    {
      wake := [];
      var wp := q.Leave();
      if wp >= 0 {
        wake := wake + [wp];
      }
      wp := mutex.Unlock();
      if wp >= 0 && |wake| < MAX_WAKE {
        wake := wake + [wp];
      }
    }

    /** buffer_produce: whether the item was stored, and who is to be woken. */
    method Produce(item: int, pid: int) returns (ok: bool, wake: seq<int>)
      requires Valid() && AllNatural()
      modifies Parts()
      ensures Valid() && (Value(), ok, wake) == BufferRules.Produce(old(Value()), item, pid)
    {
      hide BufferRules.ProduceLocked;
      var locked := AskMutex(pid);
      if !locked {
        return false, [];
      }
      ok, wake := ProduceLocked(item, pid);
    }

    /** How both operations start: mutex_lock. */
    method AskMutex(pid: int) returns (locked: bool)
      requires Valid()
      modifies mutex, mutex.waiting, mutex.waiting.slots
      ensures Valid() && (Value(), locked) == MutexLock(old(Value()), pid)
      ensures old(AllNatural()) && locked ==> AllNatural()
    {
      locked := mutex.Lock(pid);
    }

    method ProduceLocked(item: int, pid: int) returns (ok: bool, wake: seq<int>)
      requires Valid() && AllNatural()
      modifies Parts()
      ensures Valid() && (Value(), ok, wake) == BufferRules.ProduceLocked(old(Value()), item, pid)
    {
      wake := [];
      if count >= buffer.Length {
        Wait(notFull, pid);
        return false, [];
      }
      Put(item);
      wake := SignalAndUnlock(notEmpty);
      return true, wake;
    }

    /** buffer_consume: the item taken, if there was one, and who is to be woken. */
    method Consume(pid: int) returns (got: Option<int>, wake: seq<int>)
      requires Valid() && AllNatural()
      modifies Parts()
      ensures Valid() && (Value(), got, wake) == BufferRules.Consume(old(Value()), pid)
    {
      hide BufferRules.ConsumeLocked;
      var locked := AskMutex(pid);
      if !locked {
        return None, [];
      }
      got, wake := ConsumeLocked(pid);
    }

    method ConsumeLocked(pid: int) returns (got: Option<int>, wake: seq<int>)
      requires Valid() && AllNatural()
      modifies Parts()
      ensures Valid() && (Value(), got, wake) == BufferRules.ConsumeLocked(old(Value()), pid)
    {
      wake := [];
      if count <= 0 {
        Wait(notEmpty, pid);
        return None, [];
      }
      var item := Take();
      wake := SignalAndUnlock(notFull);
      return Some(item), wake;
    }

    /** Process ids are not negative: -1 stands for nobody. */
    ghost predicate AllNatural()
      reads Parts()
    {
      && (notFull.ids != [] ==> notFull.ids[0] >= 0) && (notEmpty.ids != [] ==> notEmpty.ids[0] >= 0)
      && (mutex.waiting.ids != [] ==> mutex.waiting.ids[0] >= 0)
    }

    /** buffer_remove_pid */
    method RemovePid(pid: int)
      requires Valid()
      modifies Parts()
      ensures Valid() && Value() == BufferRules.RemovePid(old(Value()), pid)
    {
      notFull.Remove(pid);
      notEmpty.Remove(pid);
      mutex.waiting.Remove(pid);
    }

    /** buffer_release_mutex */
    method ReleaseMutex(pid: int)
      requires Valid()
      modifies Parts()
      ensures Valid() && Value() == BufferRules.ReleaseMutex(old(Value()), pid)
    {
      if mutex.locked && mutex.ownerPid == pid {
        var wake := mutex.Unlock();
      }
    }

    /** The kernel's wake_buffer_waiters; procs is the size of the array it collects waiters in. The
        results are those woken from the two conditions and from the mutex. */
    method WakeWaiters(procs: nat) returns (forItem: seq<int>, forSpace: seq<int>, forMutex: seq<int>)
      requires Valid() && procs == mutex.waiting.slots.Length
      modifies Parts()
      ensures Valid() && (Value(), forItem, forSpace, forMutex) == BufferRules.WakeWaiters(old(Value()))
    {
      forItem, forSpace, forMutex := [], [], [];
      if count > 0 {
        forItem := notEmpty.LeaveAll(procs);
      }
      if count < buffer.Length {
        forSpace := notFull.LeaveAll(procs);
      }
      if !mutex.locked && mutex.waiting.count > 0 {
        var wpid := mutex.waiting.Leave();
        forMutex := [wpid];
      }
    }
  }
}
