/** Page tables and frame table stay inverse to each other. */
module PagingProofs {
  import opened Common
  import opened PagingRules

  /** Memory after mem_init. */
  function Init(frames: nat, n: nat, procs: nat): Mem {
    Mem(seq(frames, _ => -1), seq(frames, _ => -1), seq(frames, _ => 0), frames, 0,
        seq(procs, _ => seq(n, _ => -1)), seq(procs, _ => 0))
  }

  lemma InitInverse(frames: nat, n: nat, procs: nat)
    ensures Inverse(Init(frames, n, procs), n)
  {
    var m := Init(frames, n, procs);
    EmptyCounts(frames, n);
    hide FreeFrames, Mapped;
    assert forall p :: 0 <= p < procs ==> m.table[p] == seq(n, _ => -1);
    assert forall f :: 0 <= f < frames ==> m.frames[f] == -1;
  }

  lemma EmptyCounts(frames: nat, n: nat)
    ensures |FreeFrames(seq(frames, _ => -1))| == frames && Mapped(seq(n, _ => -1)) == {}
  {
    assert FreeFrames(seq(frames, _ => -1)) == Interval(frames);
  }

  /** A page that is not mapped goes into a free frame. */
  lemma PlaceFree(m: Mem, n: nat, p: int, g: int, f: int)
    requires Inverse(m, n) && 0 <= p < |m.table| && 0 <= g < n && m.table[p][g] == -1
    requires 0 <= f < |m.frames| && m.frames[f] == -1
    ensures Inverse(Place(m, n, p, g, f).(free := m.free - 1), n)
  {
    var h := Place(m, n, p, g, f).(free := m.free - 1);
    forall i | 0 <= i < |h.frames|
      ensures FrameOk(h, n, i)
    {
      assert FrameOk(m, n, i);
    }
    forall q, k | 0 <= q < |h.table| && 0 <= k < n
      ensures PageOk(h, n, q, k)
    {
      assert PageOk(m, n, q, k);
    }
    assert FreeFrames(h.frames) == FreeFrames(m.frames) - {f};
    assert f in FreeFrames(m.frames);
    assert Mapped(h.table[p]) == Mapped(m.table[p]) + {g};
  }

  /** A page that is not mapped takes the place of another, whose owner is told; the owner may be the
      same process. */
  lemma PlaceEvicting(m: Mem, n: nat, p: int, g: int, f: int)
    requires Inverse(m, n) && 0 <= p < |m.table| && 0 <= g < n && m.table[p][g] == -1
    requires 0 <= f < |m.frames| && m.frames[f] != -1
    ensures Inverse(Repair(Place(m, n, p, g, f), n, Evicted(m.frames[f], m.pages[f], f)), n)
  {
    var q, k := m.frames[f], m.pages[f];
    assert FrameOk(m, n, f);
    var h := Repair(Place(m, n, p, g, f), n, Evicted(q, k, f));
    forall i | 0 <= i < |h.frames|
      ensures FrameOk(h, n, i)
    {
      assert FrameOk(m, n, i);
    }
    forall x, y | 0 <= x < |h.table| && 0 <= y < n
      ensures PageOk(h, n, x, y)
    {
      assert PageOk(m, n, x, y);
    }
    assert FreeFrames(h.frames) == FreeFrames(m.frames);
    CountsAfterEviction(m.table[p], m.table[q], g, k, f);
    hide Mapped;
    assert if q == p then h.table[p] == m.table[p][g := f][k := -1]
           else h.table[p] == m.table[p][g := f] && h.table[q] == m.table[q][k := -1];
  }

  /** Mapping one page and unmapping another. */
  lemma CountsAfterEviction(row: seq<int>, other: seq<int>, g: int, k: int, f: int)
    requires 0 <= g < |row| && row[g] == -1 && 0 <= k < |other| && other[k] != -1 && f != -1
    ensures |Mapped(row[g := f])| == |Mapped(row)| + 1 && |Mapped(other[k := -1])| == |Mapped(other)| - 1
    ensures row == other ==> |Mapped(row[g := f][k := -1])| == |Mapped(row)|
  {
    assert Mapped(row[g := f]) == Mapped(row) + {g};
    assert Mapped(other[k := -1]) == Mapped(other) - {k};
    if row == other {
      assert Mapped(row[g := f][k := -1]) == Mapped(row) + {g} - {k};
    }
  }

  /** Completing a page fault keeps the tables inverse, whoever loses a page; it loses one only when no
      frame is free, and then the lowest of those with the earliest last access. */
  lemma FaultKeeps(m: Mem, n: nat, p: int, g: int)
    requires Inverse(m, n) && 0 <= p < |m.table| && |m.frames| > 0
    ensures Inverse(Fault(m, n, p, g), n)
    ensures 0 <= g < n ==> Fault(m, n, p, g).table[p][g] != -1
  {
    if 0 <= g < n && m.table[p][g] == -1 {
      var f := FindFree(m.frames, 0);
      if f >= 0 {
        PlaceFree(m, n, p, g, f);
      } else {
        var v := Oldest(m.last);
        assert FrameOk(m, n, v);
        PlaceEvicting(m, n, p, g, v);
      }
    }
  }

  lemma EvictedInRange(m: Mem, n: nat, p: int, g: int)
    requires Inverse(m, n) && 0 <= p < |m.table| && |m.frames| > 0
    ensures var e := Allocate(m, n, p, g).2; e.Evicted? ==> 0 <= e.pid < |m.table| && 0 <= e.page < n
  {
    var e := Allocate(m, n, p, g).2;
    if e.Evicted? {
      assert FrameOk(m, n, e.frame);
    }
  }

  lemma AccessKeeps(m: Mem, n: nat, size: nat, p: int, addr: int)
    requires Inverse(m, n) && 0 <= p < |m.table| && size > 0
    ensures Inverse(Access(m, n, size, p, addr).0, n)
  {
    var h := Access(m, n, size, p, addr).0;
    forall f | 0 <= f < |h.frames|
      ensures FrameOk(h, n, f)
    {
      assert FrameOk(m, n, f);
    }
    forall q, k | 0 <= q < |h.table| && 0 <= k < n
      ensures PageOk(h, n, q, k)
    {
      assert PageOk(m, n, q, k);
    }
  }

  lemma {:induction false} CountOwnedIsSize(frames: seq<int>, p: int, k: nat)
    requires k <= |frames|
    ensures CountOwned(frames, p, k) == |set f | 0 <= f < k && frames[f] == p|
  {
    var t := set f | 0 <= f < k && frames[f] == p;
    if k == 0 {
      assert t == {};
    } else {
      CountOwnedIsSize(frames, p, k - 1);
      var u := set f | 0 <= f < k - 1 && frames[f] == p;
      assert t == if frames[k - 1] == p then u + {k - 1} else u;
    }
  }

  lemma FreeProcessKeeps(m: Mem, n: nat, p: int)
    requires Inverse(m, n) && 0 <= p < |m.table|
    ensures Inverse(FreeProcess(m, n, p), n)
  {
    var h := FreeProcess(m, n, p);
    forall f | 0 <= f < |h.frames|
      ensures FrameOk(h, n, f)
    {
      assert FrameOk(m, n, f);
    }
    forall q, k | 0 <= q < |h.table| && 0 <= k < n
      ensures PageOk(h, n, q, k)
    {
      assert PageOk(m, n, q, k);
    }
    var owned := set f | 0 <= f < |m.frames| && m.frames[f] == p;
    CountOwnedIsSize(m.frames, p, |m.frames|);
    assert FreeFrames(h.frames) == FreeFrames(m.frames) + owned;
    assert FreeFrames(m.frames) !! owned;
    assert Mapped(h.table[p]) == {};
  }

  // ----- translation

  lemma SameFrameSamePage(m: Mem, n: nat, p: int, g: int, q: int, k: int)
    requires Inverse(m, n) && 0 <= p < |m.table| && 0 <= q < |m.table| && 0 <= g < n && 0 <= k < n
    requires m.table[p][g] == m.table[q][k] != -1
    ensures p == q && g == k
  {
    assert PageOk(m, n, p, g) && PageOk(m, n, q, k);
  }

  /** The frame in which a translated address lies: the one of its page, or for a negative address the
      one before, since just below zero the truncating division still finds page 0. */
  function Reached(m: Mem, n: nat, size: nat, p: int, addr: int): int
    requires Shaped(m, n) && 0 <= p < |m.table| && size > 0 && 0 <= CDiv(addr, size) < n
  {
    m.table[p][CDiv(addr, size)] - (if addr < 0 then 1 else 0)
  }

  predicate Translated(m: Mem, n: nat, size: nat, p: int, addr: int)
    requires Shaped(m, n) && 0 <= p < |m.table| && size > 0
  {
    0 <= CDiv(addr, size) < n && m.table[p][CDiv(addr, size)] != -1
  }

  lemma TranslationReaches(m: Mem, n: nat, size: nat, p: int, addr: int)
    requires Inverse(m, n) && 0 <= p < |m.table| && size > 0 && Translated(m, n, size, p, addr)
    ensures var f, x := Reached(m, n, size, p, addr), Access(m, n, size, p, addr).1;
            f * size <= x < (f + 1) * size && x == f * size + (if addr < 0 then addr + size else addr % size)
  {
    var g := CDiv(addr, size);
    var f := m.table[p][g];
    assert (f + 1) * size == f * size + size && (f - 1) * size == f * size - size;
    if addr < 0 {
      assert g == 0 && CMod(addr, size) == addr;
      assert -addr == size * ((-addr) / size) + (-addr) % size;
    } else {
      assert CMod(addr, size) == addr % size;
    }
  }

  /** A translated address lies in the frame of its page exactly when the virtual address is not
      negative. */
  lemma TranslationStaysInFrame(m: Mem, n: nat, size: nat, p: int, addr: int)
    requires Inverse(m, n) && 0 <= p < |m.table| && size > 0 && Translated(m, n, size, p, addr)
    ensures var f := m.table[p][CDiv(addr, size)];
            0 <= f < |m.frames| && (f * size <= Access(m, n, size, p, addr).1 < (f + 1) * size <==> addr >= 0)
  {
    assert PageOk(m, n, p, CDiv(addr, size));
    TranslationReaches(m, n, size, p, addr);
  }

  /** Two translations that give the same physical address are of the same process and the same virtual
      address exactly when both addresses are negative or neither is. */
  lemma TranslationInjective(m: Mem, n: nat, size: nat, p: int, a: int, q: int, b: int)
    requires Inverse(m, n) && 0 <= p < |m.table| && 0 <= q < |m.table| && size > 0
    requires Access(m, n, size, p, a).1 == Access(m, n, size, q, b).1 >= 0
    ensures (p == q && a == b) <==> (a >= 0 <==> b >= 0)
  {
    TranslationReaches(m, n, size, p, a);
    TranslationReaches(m, n, size, q, b);
    SameBlock(Reached(m, n, size, p, a), Reached(m, n, size, q, b), size, Access(m, n, size, p, a).1);
    if a >= 0 <==> b >= 0 {
      SameFrameSamePage(m, n, p, CDiv(a, size), q, CDiv(b, size));
      assert a >= 0 ==> a == size * (a / size) + a % size && b == size * (b / size) + b % size;
    }
  }

  lemma SameBlock(f: int, e: int, size: nat, x: int)
    requires f * size <= x < (f + 1) * size && e * size <= x < (e + 1) * size
    ensures f == e
  {
  }

  // ----- counting mapped pages

  lemma NoneMapped()
    ensures Mapped([]) == {}
  {
  }

  lemma MappedNext(row: seq<int>, i: nat)
    requires i < |row|
    ensures |Mapped(row[..i + 1])| == |Mapped(row[..i])| + (if row[i] != -1 then 1 else 0)
  {
    assert Mapped(row[..i + 1]) == Mapped(row[..i]) + (if row[i] != -1 then {i} else {});
  }
}
