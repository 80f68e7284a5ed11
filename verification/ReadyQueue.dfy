/** The circular ready queues of src/scheduler.c. The ghost field items is the queue as a sequence. */
module ReadyQueues {
  import opened Common

  function PositionOf<T(==)>(q: seq<T>, t: T): (k: nat)
    ensures k <= |q|
    ensures k < |q| <==> t in q
    ensures k < |q| ==> q[k] == t
    ensures forall i :: 0 <= i < k ==> q[i] != t
  {
    if q == [] || q[0] == t then 0 else 1 + PositionOf(q[1..], t)
  }

  /** q without its element at position k. */
  function Without<T>(q: seq<T>, k: nat): (r: seq<T>)
    requires k < |q|
    ensures |r| == |q| - 1 && forall i :: 0 <= i < |r| ==> r[i] == if i < k then q[i] else q[i + 1]
  {
    q[..k] + q[k + 1..]
  }

  /** The slot i places after slot h in a ring of n slots. */
  function Around(h: int, i: int, n: int): int {
    if h + i < n then h + i else h + i - n
  }

  class ReadyQueue<T(==)> {
    const slots: array<T>
    var head: int
    var count: int
    ghost var items: seq<T>

    ghost predicate Valid()
      reads this, slots
    {
      && 0 <= head < slots.Length && 0 <= count <= slots.Length && |items| == count
      && forall i :: 0 <= i < count ==> slots[Around(head, i, slots.Length)] == items[i]
    }

    constructor (capacity: nat, filler: T)
      requires capacity > 0
      ensures Valid() && fresh(slots) && slots.Length == capacity && items == []
    {
      slots := new T[capacity](i => filler);
      head, count, items := 0, 0, [];
    }

    /** find_in_queue: the slot of t, or -1. */
    method Find(t: T) returns (slot: int)
      requires Valid()
      ensures if t in items then slot == Around(head, PositionOf(items, t), slots.Length) else slot == -1
    {
      for i := 0 to count
        invariant forall j :: 0 <= j < i ==> items[j] != t
      {
        slot := Modulo(head + i, slots.Length);
        if slots[slot] == t {
          assert items[i] == t && PositionOf(items, t) == i;
          return;
        }
      }
      return -1;
    }

    /** queue_remove_at: the element in that slot goes, the others keep their order. */
    method RemoveAt(slot: int, ghost k: nat)
      requires Valid() && k < |items| && slot == Around(head, k, slots.Length)
      modifies this, slots
      ensures Valid() && items == Without(old(items), k)
    {
      if count <= 0 {
        return;
      }
      if slot == head {
        head := Modulo(head + 1, slots.Length);
        count := count - 1;
        items := items[1..];
        return;
      }
      ShiftDown(slot, k);
      count := count - 1;
      items := Without(items, k);
    }

    /** The shifting loop of queue_remove_at. */
    method ShiftDown(slot: int, ghost k: nat)
      requires Valid() && k < |items| && slot == Around(head, k, slots.Length)
      modifies slots
      ensures forall p :: 0 <= p < count - 1 ==>
                slots[Around(head, p, slots.Length)] == Without(items, k)[p]
    {
      ghost var n := slots.Length;
      var tail := Modulo(head + count - 1, slots.Length);
      var i := slot;
      ghost var j := k;
      while i != tail
        invariant k <= j < count && i == Around(head, j, n)
        invariant forall p :: k <= p < j ==> slots[Around(head, p, n)] == items[p + 1]
        invariant forall p :: 0 <= p < k || j <= p < count ==> slots[Around(head, p, n)] == items[p]
        decreases count - j
      {
        var next := Modulo(i + 1, slots.Length);
        assert next == Around(head, j + 1, n) && slots[next] == items[j + 1];
        slots[i] := slots[next];
        i := next;
        j := j + 1;
      }
    }

    /** The unguarded append of scheduler_next. */
    method Append(t: T)
      requires Valid() && count < slots.Length
      modifies this, slots
      ensures Valid() && items == old(items) + [t]
    {
      var tail := Modulo(head + count, slots.Length);
      slots[tail] := t;
      count := count + 1;
      items := items + [t];
    }

    /** queue_push: appends unless the queue is full or t is in it. */
    method Push(t: T)
      requires Valid()
      modifies this, slots
      ensures Valid()
      ensures items == (if |old(items)| >= slots.Length || t in old(items) then old(items) else old(items) + [t])
    {
      if count >= slots.Length {
        return;
      }
      var found := Find(t);
      if found >= 0 {
        return;
      }
      Append(t);
    }

    /** queue_pop on a queue that is not empty. */
    method Pop() returns (t: T)
      requires Valid() && count > 0
      modifies this
      ensures Valid() && old(items) == [t] + items
    {
      t := slots[head];
      head := Modulo(head + 1, slots.Length);
      count := count - 1;
      items := items[1..];
    }

    /** Find and remove_at as block and terminate use them. */
    method Remove(t: T) returns (found: bool)
      requires Valid()
      modifies this, slots
      ensures Valid() && found == (t in old(items))
      ensures items == (if found then Without(old(items), PositionOf(old(items), t)) else old(items))
    {
      var slot := Find(t);
      found := slot >= 0;
      if found {
        RemoveAt(slot, PositionOf(items, t));
      }
    }
  }
}
