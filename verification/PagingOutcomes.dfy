/** What each operation of the pager answers and does, said of frames, pages and processes. */
module PagingOutcomes {
  import opened Common
  import opened PagingRules
  import opened PagingProofs

  /** Every entry of the page tables but that of page g of process p is as before. */
  ghost predicate OtherEntries(m: Mem, h: Mem, n: nat, p: int, g: int)
    requires Shaped(m, n) && Shaped(h, n)
  {
    && |h.table| == |m.table|
    && forall q, k :: 0 <= q < |m.table| && 0 <= k < n && !(q == p && k == g) ==> h.table[q][k] == m.table[q][k]
  }

  /** Every frame but f is as before. */
  ghost predicate OtherFrames(m: Mem, h: Mem, f: int)
    requires |m.frames| == |m.pages| == |m.last|
  {
    && |h.frames| == |h.pages| == |h.last| == |m.frames|
    && forall i :: 0 <= i < |m.frames| && i != f ==>
         h.frames[i] == m.frames[i] && h.pages[i] == m.pages[i] && h.last[i] == m.last[i]
  }

  /** mem_allocate_page, for a page that needs no frame: it is out of range, or has one. */
  lemma NothingToAllocate(m: Mem, n: nat, p: int, g: int)
    requires Shaped(m, n) && 0 <= p < |m.table| && |m.frames| > 0
    requires 0 <= g < n ==> m.table[p][g] != -1
    ensures var (h, f, e) := Allocate(m, n, p, g);
            && h == m && e == NoEviction
            && f == (if 0 <= g < n then m.table[p][g] else -1)
  {
  }

  /** mem_allocate_page, for a page that needs one: the lowest free frame; or, when none is free, the lowest
      of those with the earliest stamp, whose page is reported. The frame belongs to the page and carries
      the current tick, and no other frame and no other entry is touched. */
  lemma AllocateOutcome(m: Mem, n: nat, p: int, g: int)
    requires Shaped(m, n) && 0 <= p < |m.table| && |m.frames| > 0 && 0 <= g < n && m.table[p][g] == -1
    ensures var (h, f, e) := Allocate(m, n, p, g);
            && 0 <= f < |m.frames| && Shaped(h, n)
            && h.frames[f] == p && h.pages[f] == g && h.last[f] == m.tick && h.table[p][g] == f
            && OtherFrames(m, h, f) && OtherEntries(m, h, n, p, g) && h.tick == m.tick
            && (forall q :: 0 <= q < |m.used| ==> h.used[q] == m.used[q] + (if q == p then 1 else 0))
    ensures var (h, f, e) := Allocate(m, n, p, g);
            (exists i :: 0 <= i < |m.frames| && m.frames[i] == -1) ==>
              && m.frames[f] == -1 && (forall i :: 0 <= i < f ==> m.frames[i] != -1)
              && e == NoEviction && h.free == m.free - 1
    ensures var (h, f, e) := Allocate(m, n, p, g);
            (forall i :: 0 <= i < |m.frames| ==> m.frames[i] != -1) ==>
              && (forall i :: 0 <= i < |m.frames| ==> m.last[f] <= m.last[i])
              && (forall i :: 0 <= i < f ==> m.last[f] < m.last[i])
              && e == Evicted(m.frames[f], m.pages[f], f) && h.free == m.free
  {
    var f := FindFree(m.frames, 0);
    hide FindFree, Oldest;
  }

  predicate Concerned(e: Eviction, p: int, g: int, q: int, k: int) {
    (q == p && k == g) || (e.Evicted? && q == e.pid && k == e.page)
  }

  /** The kernel's completion of a fault: afterwards the page has the frame that mem_allocate_page chose, and
      the page that lost it, if any, has none; nobody else gains or loses a page. */
  lemma FaultOutcome(m: Mem, n: nat, p: int, g: int)
    requires Inverse(m, n) && 0 <= p < |m.table| && |m.frames| > 0 && 0 <= g < n && m.table[p][g] == -1
    ensures var (a, f, e) := Allocate(m, n, p, g);
            var h := Fault(m, n, p, g);
            && Shaped(h, n) && |h.table| == |m.table| && 0 <= f < |m.frames| && h.table[p][g] == f
            && h.frames == a.frames && h.pages == a.pages && h.last == a.last && h.free == a.free && h.tick == m.tick
            && (e.Evicted? ==> 0 <= e.pid < |m.table| && 0 <= e.page < n && m.table[e.pid][e.page] == f)
            && (e.Evicted? ==> h.table[e.pid][e.page] == -1)
            && forall q, k :: 0 <= q < |m.table| && 0 <= k < n && !Concerned(e, p, g, q, k) ==>
                 h.table[q][k] == m.table[q][k]
  {
    AllocateOutcome(m, n, p, g);
    var (a, f, e) := Allocate(m, n, p, g);
    if e.Evicted? {
      assert FrameOk(m, n, f);
    }
    hide Allocate, Place;
  }

  /** Completing a fault of a page that is out of range, or that has a frame by then, does nothing. */
  lemma NoFaultOutcome(m: Mem, n: nat, p: int, g: int)
    requires Shaped(m, n) && 0 <= p < |m.table| && |m.frames| > 0
    requires 0 <= g < n ==> m.table[p][g] != -1
    ensures Fault(m, n, p, g) == m
  {
    NothingToAllocate(m, n, p, g);
  }

  /** mem_access: an address whose page has a frame is translated, and the frame carries the current tick; any
      other gives -1. Nothing else changes. For an address from zero on, the page is the quotient and the
      offset the remainder of its division by the page size. */
  lemma AccessOutcome(m: Mem, n: nat, size: nat, p: int, addr: int)
    requires Inverse(m, n) && 0 <= p < |m.table| && size > 0
    ensures var (h, x) := Access(m, n, size, p, addr);
            && (!Translated(m, n, size, p, addr) ==> h == m && x == -1)
            && (Translated(m, n, size, p, addr) ==>
                  var f := m.table[p][CDiv(addr, size)];
                  && 0 <= f < |m.frames| && h == m.(last := h.last) && OtherFrames(m, h, f) && h.last[f] == m.tick
                  && (addr >= 0 ==> x == f * size + addr % size))
    ensures addr >= 0 ==> CDiv(addr, size) == addr / size
    ensures addr < 0 ==> CDiv(addr, size) <= 0 && (CDiv(addr, size) == 0 <==> -addr < size)
  {
    if Translated(m, n, size, p, addr) {
      assert PageOk(m, n, p, CDiv(addr, size));
      TranslationReaches(m, n, size, p, addr);
    }
    if addr < 0 {
      NegativePage(addr, size);
    }
  }

  lemma NegativePage(addr: int, size: nat)
    requires addr < 0 < size
    ensures CDiv(addr, size) <= 0 && (CDiv(addr, size) == 0 <==> -addr < size)
  {
    var q := (-addr) / size;
    assert -addr == size * q + (-addr) % size;
    if q >= 1 {
      assert size * q >= size;
    } else {
      assert q == 0;
    }
  }

  /** mem_free_process: the process has no page, the frames it had are free and all others as before, and so
      are the page tables of the others. */
  lemma FreeProcessOutcome(m: Mem, n: nat, p: int)
    requires Inverse(m, n) && 0 <= p < |m.table|
    ensures var h := FreeProcess(m, n, p);
            && Shaped(h, n) && |h.frames| == |m.frames| && |h.table| == |m.table|
            && (forall g :: 0 <= g < n ==> h.table[p][g] == -1) && h.used[p] == 0
            && (forall q :: 0 <= q < |m.table| && q != p ==> h.table[q] == m.table[q] && h.used[q] == m.used[q])
            && (forall f :: 0 <= f < |m.frames| ==>
                  && h.frames[f] == (if m.frames[f] == p then -1 else m.frames[f])
                  && h.pages[f] == (if m.frames[f] == p then -1 else m.pages[f]))
            && h.last == m.last && h.tick == m.tick
            && h.free == m.free + |set f | 0 <= f < |m.frames| && m.frames[f] == p|
  {
    CountOwnedIsSize(m.frames, p, |m.frames|);
  }

  /** mem_init, with the page tables that a new process has: every frame is free, no page has one, and all
      stamps are 0. */
  lemma InitOutcome(frames: nat, n: nat, procs: nat)
    ensures var m := Init(frames, n, procs);
            && |m.frames| == |m.pages| == |m.last| == m.free == frames && |m.table| == |m.used| == procs && m.tick == 0
            && (forall f :: 0 <= f < frames ==> m.frames[f] == -1 && m.pages[f] == -1 && m.last[f] == 0)
            && (forall p, g :: 0 <= p < procs && 0 <= g < n ==> |m.table[p]| == n && m.table[p][g] == -1)
            && (forall p :: 0 <= p < procs ==> m.used[p] == 0)
  {
  }
}
