/** Physical memory and page tables of src/memory.c, with the page fault completion of src/kernel.c.
    The ghost field mem is memory as a value. */
module Paging {
  import opened Common
  import opened PagingRules
  import opened PagingProofs

  /** The fields of a process control block that paging uses. */
  class Process {
    const pid: int
    const pageTable: array<int>
    var pagesUsed: int

    ghost predicate IsNew(pageCount: nat)
      reads this, pageTable
    {
      pagesUsed == 0 && pageTable.Length == pageCount && forall g :: 0 <= g < pageCount ==> pageTable[g] == -1
    }

    constructor (pid: int, pageCount: nat)
      ensures this.pid == pid && fresh(pageTable) && IsNew(pageCount)
    {
      this.pid := pid;
      pageTable := new int[pageCount](i => -1);
      pagesUsed := 0;
    }
  }

  class PhysicalMemory {
    const pageCount: nat
    const pageSize: nat
    const procs: seq<Process>              // the kernel's process table
    const frames: array<int>
    const framePages: array<int>
    const lastAccess: array<int>
    var freeFrameCount: int
    var currentTick: int
    ghost var mem: Mem

    ghost predicate Fixed() {
      && frames.Length == framePages.Length == lastAccess.Length > 0 && pageSize > 0
      && frames != framePages && frames != lastAccess && framePages != lastAccess
      && (forall p :: 0 <= p < |procs| ==> procs[p].pid == p && OwnTable(procs[p].pageTable))
      && (forall p, q :: 0 <= p < q < |procs| ==> procs[p].pageTable != procs[q].pageTable)
    }

    ghost predicate OwnTable(t: array<int>) {
      t.Length == pageCount && t != frames && t != framePages && t != lastAccess
    }

    ghost function Tables(): set<object> {
      set p: Process | p in procs :: p.pageTable
    }

    ghost predicate RowIs(p: int, row: seq<int>, used: int)
      requires 0 <= p < |procs|
      reads procs, Tables()
    {
      assert procs[p] in procs;
      procs[p].pageTable[..] == row && procs[p].pagesUsed == used
    }

    /** The arrays and counters say what mem says. */
    ghost predicate Represents()
      reads this, frames, framePages, lastAccess, procs, Tables()
    {
      && Fixed() && frames[..] == mem.frames && framePages[..] == mem.pages && lastAccess[..] == mem.last
      && freeFrameCount == mem.free && currentTick == mem.tick && |mem.table| == |mem.used| == |procs|
      && forall p :: 0 <= p < |procs| ==> RowIs(p, mem.table[p], mem.used[p])
    }

    ghost predicate Valid()
      reads this, frames, framePages, lastAccess, procs, Tables()
    {
      Represents() && Inverse(mem, pageCount)
    }

    ghost predicate Mine(p: Process) {
      0 <= p.pid < |procs| && procs[p.pid] == p
    }

    /** mem_init, for processes whose page tables are still empty. */
    constructor (frameCount: nat, pageCount: nat, pageSize: nat, procs: seq<Process>)
      requires frameCount > 0 && pageSize > 0
      requires forall p :: 0 <= p < |procs| ==> procs[p].pid == p && procs[p].IsNew(pageCount)
      requires forall p, q :: 0 <= p < q < |procs| ==> procs[p].pageTable != procs[q].pageTable
      ensures Valid() && mem == Init(frameCount, pageCount, |procs|) && this.procs == procs
      ensures this.pageCount == pageCount && this.pageSize == pageSize
      ensures fresh(frames) && fresh(framePages) && fresh(lastAccess)
    {
      this.pageCount, this.pageSize, this.procs := pageCount, pageSize, procs;
      frames := new int[frameCount](i => -1);
      framePages := new int[frameCount](i => -1);
      lastAccess := new int[frameCount](i => 0);
      freeFrameCount, currentTick := frameCount, 0;
      mem := Init(frameCount, pageCount, |procs|);
      new;
      InitInverse(frameCount, pageCount, |procs|);
      forall p | 0 <= p < |procs|
        ensures RowIs(p, mem.table[p], mem.used[p])
      {
        assert procs[p].pageTable[..] == seq(pageCount, _ => -1);
      }
    }

    /** mem_set_tick */
    method SetTick(tick: int)
      requires Valid()
      modifies this
      ensures Valid() && mem == old(mem).(tick := tick)
    {
      currentTick := tick;
      ghost var before := mem;
      mem := mem.(tick := tick);
      forall f | 0 <= f < |mem.frames| ensures FrameOk(mem, pageCount, f) { assert FrameOk(before, pageCount, f); }
      forall p, g | 0 <= p < |mem.table| && 0 <= g < pageCount ensures PageOk(mem, pageCount, p, g) {
        assert PageOk(before, pageCount, p, g);
      }
    }

    /** find_free_frame */
    method FindFreeFrame() returns (f: int)
      ensures f == FindFree(frames[..], 0)
    {
      f := 0;
      while f < frames.Length
        invariant 0 <= f <= frames.Length && FindFree(frames[..], 0) == FindFree(frames[..], f)
      {
        if frames[f] == -1 {
          return;
        }
        f := f + 1;
      }
      f := -1;
    }

    /** select_lru_victim: the first of the frames with the earliest access. */
    method SelectVictim() returns (oldest: int)
      requires lastAccess.Length > 0
      ensures oldest == Oldest(lastAccess[..])
    {
      oldest := 0;
      var oldestTick := lastAccess[0];
      for i := 1 to lastAccess.Length
        invariant 0 <= oldest < i && oldestTick == lastAccess[oldest] && oldest == Oldest(lastAccess[..i])
      {
        assert lastAccess[..i + 1][..i] == lastAccess[..i];
        if lastAccess[i] < oldestTick {
          oldestTick := lastAccess[i];
          oldest := i;
        }
      }
      assert lastAccess[..] == lastAccess[..lastAccess.Length];
    }

    /** The stores at the end of mem_allocate_page. */
    method PutPage(p: Process, page: int, f: int)
      requires Represents() && Shaped(mem, pageCount) && Mine(p) && 0 <= page < pageCount && 0 <= f < frames.Length
      modifies frames, framePages, lastAccess, p, p.pageTable, this`mem
      ensures Represents() && mem == Place(old(mem), pageCount, p.pid, page, f)
    {
      ghost var before := mem;
      frames[f] := p.pid;
      framePages[f] := page;
      lastAccess[f] := currentTick;
      p.pageTable[page] := f;
      p.pagesUsed := p.pagesUsed + 1;
      mem := Place(mem, pageCount, p.pid, page, f);
      forall q | 0 <= q < |procs|
        ensures RowIs(q, mem.table[q], mem.used[q])
      {
        assert old(RowIs(q, before.table[q], before.used[q]));
      }
    }

    /** mem_allocate_page: the frame that holds the page afterwards, or -1; and what was evicted for it.
        The page table of a process that lost a page is not corrected here. */
    method AllocatePage(p: Process, page: int) returns (frame: int, eviction: Eviction)
      requires Represents() && Shaped(mem, pageCount) && Mine(p)
      modifies frames, framePages, lastAccess, p, p.pageTable, this
      ensures Represents() && Shaped(mem, pageCount)
      ensures (mem, frame, eviction) == Allocate(old(mem), pageCount, p.pid, page)
      ensures frame == -1 || frame == p.pageTable[page]
      ensures (exists i :: 0 <= i < frames.Length && old(frames[i]) == -1) && 0 <= page < pageCount
                && old(p.pageTable[page]) == -1 ==>
                0 <= frame < frames.Length && old(frames[frame]) == -1
                && forall i :: 0 <= i < frame ==> old(frames[i]) != -1
    {
      assert RowIs(p.pid, mem.table[p.pid], mem.used[p.pid]);
      eviction := NoEviction;
      if page < 0 || page >= pageCount {
        return -1, eviction;
      }
      if p.pageTable[page] != -1 {
        return p.pageTable[page], eviction;
      }
      frame := FindFreeFrame();
      if frame < 0 {
        frame := SelectVictim();
        eviction := Evicted(frames[frame], framePages[frame], frame);
      } else {
        freeFrameCount := freeFrameCount - 1;
        mem := mem.(free := mem.free - 1);
      }
      PutPage(p, page, frame);
      assert RowIs(p.pid, mem.table[p.pid], mem.used[p.pid]);
    }

    /** complete_page_faults, for one pending fault: whoever lost its page is told, be it the faulting
        process itself. */
    method CompleteFault(p: Process, page: int)
      requires Valid() && Mine(p)
      modifies this, frames, framePages, lastAccess, procs, Tables()
      ensures Valid() && mem == Fault(old(mem), pageCount, p.pid, page)
    {
      FaultKeeps(mem, pageCount, p.pid, page);
      EvictedInRange(mem, pageCount, p.pid, page);
      var frame, eviction := AllocatePage(p, page);
      if eviction.Evicted? {
        if 0 <= eviction.pid < |procs| && eviction.page >= 0 {
          Unmap(procs[eviction.pid], eviction);
        }
      }
    }

    method Unmap(victim: Process, e: Eviction)
      requires Represents() && Shaped(mem, pageCount) && Mine(victim)
      requires e.Evicted? && e.pid == victim.pid && 0 <= e.page < pageCount
      modifies victim, victim.pageTable, this`mem
      ensures Represents() && mem == Repair(old(mem), pageCount, e)
    {
      ghost var before := mem;
      victim.pageTable[e.page] := -1;
      victim.pagesUsed := victim.pagesUsed - 1;
      mem := Repair(mem, pageCount, e);
      forall q | 0 <= q < |procs|
        ensures RowIs(q, mem.table[q], mem.used[q])
      {
        assert old(RowIs(q, before.table[q], before.used[q]));
      }
    }

    /** mem_access: the physical address, or -1, with the page that is missing if that is why. */
    method Access(p: Process, addr: int) returns (physical: int, faultPage: Option<int>)
      requires Valid() && Mine(p)
      modifies lastAccess, this`mem
      ensures Valid() && (mem, physical) == PagingRules.Access(old(mem), pageCount, pageSize, p.pid, addr)
      ensures var g := CDiv(addr, pageSize);
              faultPage == if 0 <= g < pageCount && mem.table[p.pid][g] == -1 then Some(g) else None
    {
      AccessKeeps(mem, pageCount, pageSize, p.pid, addr);
      assert RowIs(p.pid, mem.table[p.pid], mem.used[p.pid]);
      var page := CDiv(addr, pageSize);
      var offset := CMod(addr, pageSize);
      if page < 0 || page >= pageCount {
        return -1, None;
      }
      if p.pageTable[page] == -1 {
        return -1, Some(page);
      }
      var frame := p.pageTable[page];
      assert PageOk(mem, pageCount, p.pid, page);
      Stamp(frame);
      return frame * pageSize + offset, None;
    }

    method Stamp(frame: int)
      requires Represents() && 0 <= frame < lastAccess.Length
      modifies lastAccess, this`mem
      ensures Represents() && mem == old(mem).(last := old(mem).last[frame := old(mem).tick])
    {
      ghost var before := mem;
      lastAccess[frame] := currentTick;
      mem := mem.(last := mem.last[frame := mem.tick]);
      forall q | 0 <= q < |procs|
        ensures RowIs(q, mem.table[q], mem.used[q])
      {
        assert old(RowIs(q, before.table[q], before.used[q]));
      }
    }

    /** mem_free_process */
    method FreeProcess(p: Process)
      requires Valid() && Mine(p)
      modifies frames, framePages, p, p.pageTable, this
      ensures Valid() && mem == PagingRules.FreeProcess(old(mem), pageCount, p.pid)
    {
      FreeProcessKeeps(mem, pageCount, p.pid);
      ghost var m0 := mem;
      FreeFramesOf(p);
      ClearTable(p);
      p.pagesUsed := 0;
      mem := PagingRules.FreeProcess(m0, pageCount, p.pid);
      forall q | 0 <= q < |procs|
        ensures RowIs(q, mem.table[q], mem.used[q])
      {
        assert q != p.pid ==> old(RowIs(q, m0.table[q], m0.used[q]));
      }
    }

    /** The memset of the page table. */
    method ClearTable(p: Process)
      requires Fixed() && Mine(p)
      modifies p.pageTable
      ensures p.pageTable[..] == seq(pageCount, _ => -1)
    {
      for g := 0 to p.pageTable.Length
        invariant forall k :: 0 <= k < g ==> p.pageTable[k] == -1
      {
        p.pageTable[g] := -1;
      }
    }

    /** The loop of mem_free_process over the frames. */
    method FreeFramesOf(p: Process)
      requires Valid() && Mine(p)
      modifies frames, framePages, this`freeFrameCount
      ensures var h := PagingRules.FreeProcess(mem, pageCount, p.pid);
              frames[..] == h.frames && framePages[..] == h.pages && freeFrameCount == h.free
    {
      ghost var h := PagingRules.FreeProcess(mem, pageCount, p.pid);
      for i := 0 to frames.Length
        invariant forall k :: 0 <= k < i ==> frames[k] == h.frames[k] && framePages[k] == h.pages[k]
        invariant forall k :: i <= k < frames.Length ==> frames[k] == mem.frames[k] && framePages[k] == mem.pages[k]
        invariant freeFrameCount == mem.free + CountOwned(mem.frames, p.pid, i)
      {
        if frames[i] == p.pid {
          frames[i] := -1;
          framePages[i] := -1;
          freeFrameCount := freeFrameCount + 1;
        }
      }
    }

    /** mem_get_page_count counts the mapped pages, which is what pages_used says. */
    method PageCount(p: Process) returns (count: int)
      requires Valid() && Mine(p)
      ensures count == |Mapped(mem.table[p.pid])| == p.pagesUsed
    {
      assert RowIs(p.pid, mem.table[p.pid], mem.used[p.pid]);
      ghost var row := mem.table[p.pid];
      assert p.pageTable[..] == row && |row| == pageCount && |Mapped(row)| == p.pagesUsed;
      hide Represents, Inverse, Mapped;
      count := 0;
      NoneMapped();
      for i := 0 to pageCount
        invariant count == |Mapped(row[..i])|
      {
        MappedNext(row, i);
        if p.pageTable[i] != -1 {
          count := count + 1;
        }
      }
      assert row[..pageCount] == row;
    }
  }
}
