/** Paged memory as a value: a frame table, a page table for each process, and eviction of the least
    recently used page. Processes are named by their pid, an index into the kernel's process table. */
module PagingRules {

  datatype Mem = Mem(
    frames: seq<int>,          // pid of the owner, or -1
    pages: seq<int>,           // which page of the owner
    last: seq<int>,            // tick of the last access
    free: int,                 // free_frame_count
    tick: int,
    table: seq<seq<int>>,      // page_table of each process: frame, or -1
    used: seq<int>)            // pages_used of each process

  /** Where a page was taken from, if it was. */
  datatype Eviction = NoEviction | Evicted(pid: int, page: int, frame: int)

  ghost predicate Shaped(m: Mem, pageCount: nat) {
    && |m.frames| == |m.pages| == |m.last| && |m.table| == |m.used|
    && forall p :: 0 <= p < |m.table| ==> |m.table[p]| == pageCount
  }

  // ----- the invariant

  ghost predicate FrameOk(m: Mem, pageCount: nat, f: int)
    requires Shaped(m, pageCount) && 0 <= f < |m.frames|
  {
    m.frames[f] == -1 ||
      (0 <= m.frames[f] < |m.table| && 0 <= m.pages[f] < pageCount && m.table[m.frames[f]][m.pages[f]] == f)
  }

  ghost predicate PageOk(m: Mem, pageCount: nat, p: int, g: int)
    requires Shaped(m, pageCount) && 0 <= p < |m.table| && 0 <= g < pageCount
  {
    var f := m.table[p][g];
    f == -1 || (0 <= f < |m.frames| && m.frames[f] == p && m.pages[f] == g)
  }

  ghost function FreeFrames(frames: seq<int>): set<int> {
    set f | 0 <= f < |frames| && frames[f] == -1
  }

  ghost function Mapped(row: seq<int>): set<int> {
    set g | 0 <= g < |row| && row[g] != -1
  }

  /** Frame f holds page g of process p exactly when p's page table says so, and the counters count. */
  ghost predicate Inverse(m: Mem, pageCount: nat) {
    && Shaped(m, pageCount)
    && (forall f {:trigger FrameOk(m, pageCount, f)} :: 0 <= f < |m.frames| ==> FrameOk(m, pageCount, f))
    && (forall p, g {:trigger PageOk(m, pageCount, p, g)} ::
          0 <= p < |m.table| && 0 <= g < pageCount ==> PageOk(m, pageCount, p, g))
    && m.free == |FreeFrames(m.frames)|
    && forall p :: 0 <= p < |m.table| ==> m.used[p] == |Mapped(m.table[p])|
  }

  // ----- the operations

  /** find_free_frame: the lowest free frame from f on, or -1. */
  function FindFree(frames: seq<int>, f: nat): (r: int)
    requires f <= |frames|
    ensures r == -1 ==> forall i :: f <= i < |frames| ==> frames[i] != -1
    ensures r != -1 ==> f <= r < |frames| && frames[r] == -1 && forall i :: f <= i < r ==> frames[i] != -1
    decreases |frames| - f
  {
    if f == |frames| then -1 else if frames[f] == -1 then f else FindFree(frames, f + 1)
  }

  /** The lowest of the frames with the earliest last access. */
  ghost predicate IsOldest(last: seq<int>, f: int) {
    && 0 <= f < |last|
    && (forall i :: 0 <= i < |last| ==> last[f] <= last[i])
    && (forall i :: 0 <= i < f ==> last[f] < last[i])
  }

  function Oldest(last: seq<int>): (f: int)
    requires last != []
    ensures IsOldest(last, f)
  {
    if |last| == 1 then 0
    else
      var n := |last| - 1;
      var f := Oldest(last[..n]);
      assert forall i :: 0 <= i < n ==> last[..n][i] == last[i];
      if last[n] < last[f] then n else f
  }

  /** Page g of process p is put into frame f. */
  function Place(m: Mem, pageCount: nat, p: int, g: int, f: int): Mem
    requires Shaped(m, pageCount) && 0 <= p < |m.table| && 0 <= g < pageCount && 0 <= f < |m.frames|
  {
    m.(frames := m.frames[f := p], pages := m.pages[f := g], last := m.last[f := m.tick],
       table := m.table[p := m.table[p][g := f]], used := m.used[p := m.used[p] + 1])
  }

  /** mem_allocate_page: the frame, or -1 for a page number out of range. The page table of the process
      that lost a page is left as it was. */
  function Allocate(m: Mem, pageCount: nat, p: int, g: int): (Mem, int, Eviction)
    requires Shaped(m, pageCount) && 0 <= p < |m.table| && |m.frames| > 0
  {
    if !(0 <= g < pageCount) then (m, -1, NoEviction)
    else if m.table[p][g] != -1 then (m, m.table[p][g], NoEviction)
    else
      var f := FindFree(m.frames, 0);
      if f >= 0 then (Place(m, pageCount, p, g, f).(free := m.free - 1), f, NoEviction)
      else
        var v := Oldest(m.last);
        (Place(m, pageCount, p, g, v), v, Evicted(m.frames[v], m.pages[v], v))
  }

  /** The kernel's repair: the page that was evicted is unmapped in its owner's page table. */
  function Repair(m: Mem, pageCount: nat, e: Eviction): Mem
    requires Shaped(m, pageCount)
  {
    if e.Evicted? && 0 <= e.pid < |m.table| && 0 <= e.page < pageCount
    then m.(table := m.table[e.pid := m.table[e.pid][e.page := -1]], used := m.used[e.pid := m.used[e.pid] - 1])
    else m
  }

  /** complete_page_faults, for one fault: allocate, then repair. */
  function Fault(m: Mem, pageCount: nat, p: int, g: int): Mem
    requires Shaped(m, pageCount) && 0 <= p < |m.table| && |m.frames| > 0
  {
    var (a, f, e) := Allocate(m, pageCount, p, g);
    Repair(a, pageCount, e)
  }

  /** Division and remainder of C, which truncate towards zero. */
  function CDiv(a: int, b: int): int
    requires b > 0
  {
    if a >= 0 then a / b else -((-a) / b)
  }

  function CMod(a: int, b: int): int
    requires b > 0
  {
    a - b * CDiv(a, b)
  }

  /** mem_access: the physical address, or -1. */
  function Access(m: Mem, pageCount: nat, pageSize: nat, p: int, addr: int): (Mem, int)
    requires Shaped(m, pageCount) && 0 <= p < |m.table| && pageSize > 0
  {
    var g := CDiv(addr, pageSize);
    if !(0 <= g < pageCount) || m.table[p][g] == -1 then (m, -1)
    else
      var f := m.table[p][g];
      (if 0 <= f < |m.last| then m.(last := m.last[f := m.tick]) else m, f * pageSize + CMod(addr, pageSize))
  }

  /** mem_free_process */
  function FreeProcess(m: Mem, pageCount: nat, p: int): Mem
    requires Shaped(m, pageCount) && 0 <= p < |m.table|
  {
    m.(frames := seq(|m.frames|, f requires 0 <= f < |m.frames| => if m.frames[f] == p then -1 else m.frames[f]),
       pages := seq(|m.pages|, f requires 0 <= f < |m.pages| =>
         if f < |m.frames| && m.frames[f] == p then -1 else m.pages[f]),
       free := m.free + CountOwned(m.frames, p, |m.frames|),
       table := m.table[p := seq(pageCount, _ => -1)], used := m.used[p := 0])
  }

  /** How many of the first k frames p owns. */
  function CountOwned(frames: seq<int>, p: int, k: nat): nat
    requires k <= |frames|
  {
    if k == 0 then 0 else CountOwned(frames, p, k - 1) + (if frames[k - 1] == p then 1 else 0)
  }
}
