/** The bounded buffer with its mutex and condition variables, as a value. */
module BufferRules {
  import opened Common

  const MAX_WAKE := 4

  datatype Buffer = Buffer(
    size: nat,                  // RING_BUFFER_SIZE
    procs: nat,                 // MAX_PROCS: slots of the mutex queue
    threads: nat,               // MAX_THREADS: slots of a condition queue
    items: seq<int>,
    owner: Option<int>,         // who holds the mutex
    lockers: seq<int>,          // who waits for the mutex
    notFull: seq<int>,          // who waits for space
    notEmpty: seq<int>)         // who waits for an item

  function Init(size: nat, procs: nat, threads: nat): Buffer {
    Buffer(size, procs, threads, [], None, [], [], [])
  }

  /** A wait queue takes in nobody twice, and nobody when it is full. */
  function Join(q: seq<int>, pid: int, slots: nat): seq<int> {
    if pid in q || |q| >= slots then q else q + [pid]
  }

  function Tail(q: seq<int>): seq<int> {
    if q == [] then [] else q[1..]
  }

  /** The first of a queue, if any. */
  function Head(q: seq<int>): seq<int> {
    if q == [] then [] else [q[0]]
  }

  function MutexLock(b: Buffer, pid: int): (Buffer, bool) {
    if b.owner == None then (b.(owner := Some(pid)), true)
    else (b.(lockers := Join(b.lockers, pid, b.procs)), false)
  }

  function MutexUnlock(b: Buffer): Buffer {
    b.(owner := None, lockers := Tail(b.lockers))
  }

  /** buffer_produce: whether the item was stored, and who is woken. */
  function Produce(b: Buffer, item: int, pid: int): (Buffer, bool, seq<int>) {
    var (l, locked) := MutexLock(b, pid);
    if locked then ProduceLocked(l, item, pid) else (l, false, [])
  }

  /** buffer_produce, once the mutex is held. */
  function ProduceLocked(l: Buffer, item: int, pid: int): (Buffer, bool, seq<int>) {
    if |l.items| >= l.size then
      var u := MutexUnlock(l);
      (u.(notFull := Join(u.notFull, pid, u.threads)), false, [])
    else
      var p := l.(items := l.items + [item], notEmpty := Tail(l.notEmpty));
      (MutexUnlock(p), true, Head(l.notEmpty) + Head(p.lockers))
  }

  /** buffer_consume: the item taken, if any, and who is woken. */
  function Consume(b: Buffer, pid: int): (Buffer, Option<int>, seq<int>) {
    var (l, locked) := MutexLock(b, pid);
    if locked then ConsumeLocked(l, pid) else (l, None, [])
  }

  /** buffer_consume, once the mutex is held. */
  function ConsumeLocked(l: Buffer, pid: int): (Buffer, Option<int>, seq<int>) {
    if |l.items| == 0 then
      var u := MutexUnlock(l);
      (u.(notEmpty := Join(u.notEmpty, pid, u.threads)), None, [])
    else
      var p := l.(items := l.items[1..], notFull := Tail(l.notFull));
      (MutexUnlock(p), Some(l.items[0]), Head(l.notFull) + Head(p.lockers))
  }

  /** q without pid and without negative entries. */
  function Purge(q: seq<int>, pid: int): seq<int> {
    if q == [] then []
    else Purge(q[..|q| - 1], pid) + (if q[|q| - 1] >= 0 && q[|q| - 1] != pid then [q[|q| - 1]] else [])
  }

  /** buffer_remove_pid */
  function RemovePid(b: Buffer, pid: int): Buffer {
    b.(notFull := Purge(b.notFull, pid), notEmpty := Purge(b.notEmpty, pid), lockers := Purge(b.lockers, pid))
  }

  /** buffer_release_mutex */
  function ReleaseMutex(b: Buffer, pid: int): Buffer {
    if b.owner == Some(pid) then MutexUnlock(b) else b
  }

  /** What cond_broadcast reports when there is room for max waiters; it empties the queue anyway. */
  function Reported(q: seq<int>, max: nat): seq<int> {
    if |q| <= max then q else q[..max]
  }

  /** The kernel's wake_buffer_waiters, and who it wakes: those waiting for an item, those waiting for
      space, and the first of those waiting for the mutex. */
  function WakeWaiters(b: Buffer): (Buffer, seq<int>, seq<int>, seq<int>) {
    var e := if |b.items| > 0 then b.(notEmpty := []) else b;
    var f := if |b.items| < b.size then e.(notFull := []) else e;
    var m := if f.owner == None then f.(lockers := Tail(f.lockers)) else f;
    (m, if |b.items| > 0 then Reported(b.notEmpty, b.procs) else [],
     if |b.items| < b.size then Reported(b.notFull, b.procs) else [],
     if f.owner == None then Head(f.lockers) else [])
  }

  // ----- the invariant at call boundaries

  ghost predicate QueueOk(q: seq<int>, procs: nat) {
    Distinct(q) && Below(q, procs)
  }

  /** Nobody holds the mutex or waits for it; every wait queue holds different process ids; the buffer
      holds no more than it can. */
  ghost predicate Quiet(b: Buffer) {
    && b.owner == None && b.lockers == [] && |b.items| <= b.size && b.procs <= b.threads
    && QueueOk(b.notFull, b.procs) && QueueOk(b.notEmpty, b.procs)
  }

  /** In a quiet buffer somebody who has to wait gets into the queue, and a broadcast reports everybody. */
  lemma NobodyTurnedAway(q: seq<int>, procs: nat, threads: nat, pid: int)
    requires QueueOk(q, procs) && procs <= threads && 0 <= pid < procs
    ensures QueueOk(Join(q, pid, threads), procs) && pid in Join(q, pid, threads)
    ensures Join(q, pid, threads) == if pid in q then q else q + [pid]
    ensures Reported(q, procs) == q
  {
    Pigeonhole(q, procs);
    if pid !in q {
      PigeonholeMissing(q, procs, pid);
    }
  }

  lemma {:induction false} PurgeMembers(q: seq<int>, procs: nat, pid: int)
    requires Below(q, procs)
    ensures Below(Purge(q, pid), procs)
    ensures forall x :: x in Purge(q, pid) <==> x in q && x != pid
  {
    if q != [] {
      var r := q[..|q| - 1];
      PurgeMembers(r, procs, pid);
      assert forall x :: x in q <==> x in r || x == q[|q| - 1];
    }
  }

  lemma {:induction false} PurgeDistinct(q: seq<int>, procs: nat, pid: int)
    requires QueueOk(q, procs)
    ensures QueueOk(Purge(q, pid), procs)
  {
    PurgeMembers(q, procs, pid);
    if q != [] {
      var r, x := q[..|q| - 1], q[|q| - 1];
      PurgeDistinct(r, procs, pid);
      PurgeMembers(r, procs, pid);
      assert x !in Purge(r, pid);
    }
  }

  /** Only pid itself leaves the queue; the others keep their order. */
  lemma {:induction false} PurgeTakesOne(q: seq<int>, procs: nat, pid: int)
    requires QueueOk(q, procs)
    ensures pid !in q ==> Purge(q, pid) == q
    ensures forall k :: 0 <= k < |q| && q[k] == pid ==> Purge(q, pid) == q[..k] + q[k + 1..]
  {
    if q != [] {
      var r, x := q[..|q| - 1], q[|q| - 1];
      PurgeTakesOne(r, procs, pid);
      assert q == r + [x] && x !in r && x >= 0;
      forall k | 0 <= k < |q| && q[k] == pid
        ensures Purge(q, pid) == q[..k] + q[k + 1..]
      {
        if k < |r| {
          assert r[k] == pid;
          assert q[..k] + q[k + 1..] == r[..k] + r[k + 1..] + [x];
        }
      }
    }
  }

  // ----- single calls, in any state

  /** The waiters of q but the first. */
  ghost predicate FirstLeft(q: seq<int>, rest: seq<int>) {
    if q == [] then rest == [] else q == [q[0]] + rest
  }

  /** mutex_lock: whoever finds the mutex free has it; the others wait, each once, while there is room. */
  lemma LockOutcome(b: Buffer, pid: int)
    ensures var (c, ok) := MutexLock(b, pid);
            && (ok <==> b.owner == None)
            && (ok ==> c == b.(owner := Some(pid)))
            && (!ok ==> c == b.(lockers := c.lockers))
            && (!ok && (pid in b.lockers || |b.lockers| >= b.procs) ==> c.lockers == b.lockers)
            && (!ok && pid !in b.lockers && |b.lockers| < b.procs ==> c.lockers == b.lockers + [pid])
  {
  }

  /** mutex_unlock */
  lemma UnlockOutcome(b: Buffer)
    ensures var c := MutexUnlock(b);
            c.owner == None && FirstLeft(b.lockers, c.lockers) && c == b.(owner := None, lockers := c.lockers)
  {
  }

  /** buffer_release_mutex */
  lemma ReleaseMutexOutcome(b: Buffer, pid: int)
    ensures var c := ReleaseMutex(b, pid);
            && (b.owner != Some(pid) ==> c == b)
            && (b.owner == Some(pid) ==>
                  c.owner == None && FirstLeft(b.lockers, c.lockers) && c == b.(owner := None, lockers := c.lockers))
  {
  }

  /** buffer_produce by somebody who finds the mutex free and the buffer not full: the item is last, and woken
      are the first who waits for an item and the first who waits for the mutex, in this order. */
  lemma StoreOutcome(b: Buffer, item: int, pid: int)
    requires b.owner == None && |b.items| < b.size
    ensures var (c, ok, woken) := Produce(b, item, pid);
            && ok && c.items == b.items + [item] && c.owner == None && c.notFull == b.notFull
            && FirstLeft(b.notEmpty, c.notEmpty) && FirstLeft(b.lockers, c.lockers)
            && woken == b.notEmpty[..if b.notEmpty == [] then 0 else 1] + b.lockers[..if b.lockers == [] then 0 else 1]
            && c.size == b.size && c.procs == b.procs && c.threads == b.threads
  {
  }

  /** buffer_consume by somebody who finds the mutex free and the buffer not empty. */
  lemma FetchOutcome(b: Buffer, pid: int)
    requires b.owner == None && b.items != []
    ensures var (c, got, woken) := Consume(b, pid);
            && got == Some(b.items[0]) && c.items == b.items[1..] && c.owner == None && c.notEmpty == b.notEmpty
            && FirstLeft(b.notFull, c.notFull) && FirstLeft(b.lockers, c.lockers)
            && woken == b.notFull[..if b.notFull == [] then 0 else 1] + b.lockers[..if b.lockers == [] then 0 else 1]
            && c.size == b.size && c.procs == b.procs && c.threads == b.threads
  {
  }

  /** q with pid at its end, if it is not there yet and there is room. */
  ghost predicate Entered(q: seq<int>, pid: int, slots: nat, next: seq<int>) {
    if pid in q || |q| >= slots then next == q else next == q + [pid]
  }

  /** Both calls when they cannot be served: somebody who finds the mutex held waits for it; otherwise, for
      space or for an item, and the first who waits for the mutex leaves its queue without being woken. */
  lemma RefusedOutcome(b: Buffer, item: int, pid: int)
    ensures b.owner.Some? ==>
              var (c, ok, woken) := Produce(b, item, pid);
              && !ok && woken == [] && c == b.(lockers := c.lockers) && Entered(b.lockers, pid, b.procs, c.lockers)
              && Consume(b, pid) == (c, None, [])
    ensures b.owner == None && |b.items| >= b.size ==>
              var (c, ok, woken) := Produce(b, item, pid);
              && !ok && woken == [] && c == b.(notFull := c.notFull, lockers := c.lockers)
              && Entered(b.notFull, pid, b.threads, c.notFull) && FirstLeft(b.lockers, c.lockers)
    ensures b.owner == None && b.items == [] ==>
              var (c, got, woken) := Consume(b, pid);
              && got == None && woken == [] && c == b.(notEmpty := c.notEmpty, lockers := c.lockers)
              && Entered(b.notEmpty, pid, b.threads, c.notEmpty) && FirstLeft(b.lockers, c.lockers)
  {
  }

  /** The kernel's wake-up step: a queue whose condition holds is emptied, and as many of it reported as
      there is room for; of those who wait for a free mutex the first is reported. */
  lemma WakeUpOutcome(b: Buffer)
    ensures var (c, forItem, forSpace, forMutex) := WakeWaiters(b);
            && c == b.(notEmpty := c.notEmpty, notFull := c.notFull, lockers := c.lockers)
            && (if b.items == [] then c.notEmpty == b.notEmpty && forItem == []
                else c.notEmpty == [] && forItem <= b.notEmpty
                     && |forItem| == if |b.notEmpty| <= b.procs then |b.notEmpty| else b.procs)
            && (if |b.items| >= b.size then c.notFull == b.notFull && forSpace == []
                else c.notFull == [] && forSpace <= b.notFull
                     && |forSpace| == if |b.notFull| <= b.procs then |b.notFull| else b.procs)
            && (if b.owner.Some? then c.lockers == b.lockers && forMutex == []
                else FirstLeft(b.lockers, c.lockers) && forMutex == b.lockers[..|b.lockers| - |c.lockers|])
  {
  }

  /** buffer_init */
  lemma InitOutcome(size: nat, procs: nat, threads: nat)
    ensures var b := Init(size, procs, threads);
            && b.size == size && b.procs == procs && b.threads == threads && b.owner == None
            && b.items == [] && b.lockers == [] && b.notFull == [] && b.notEmpty == []
  {
  }
}
