/** Whole runs of the pager: the page evicted is the one not touched for longest. */
module PagingRuns {
  import opened Common
  import opened PagingRules
  import opened PagingProofs

  /** A page fault is completed, a page is accessed, a process ends, or the clock is set. */
  datatype Event = Complete(p: int, g: int) | Load(p: int, addr: int) | Exit(p: int) | Clock(t: int)

  datatype Touch = Touch(p: int, g: int, tick: int)

  /** The pager, all touches of pages so far, and the pages in memory in the order in which a list that
      moves each touched page to its front and drops its last entry would keep them. */
  datatype World = World(m: Mem, history: seq<Touch>, recent: seq<(int, int)>)

  datatype Sizes = Sizes(pageCount: nat, pageSize: nat)

  ghost predicate Legal(w: World, z: Sizes, e: Event) {
    && Shaped(w.m, z.pageCount) && |w.m.frames| > 0 && z.pageSize > 0
    && match e
       case Complete(p, _) => 0 <= p < |w.m.table|
       case Load(p, _) => 0 <= p < |w.m.table|
       case Exit(p) => 0 <= p < |w.m.table|
       case Clock(_) => true
  }

  /** The page an event touches. */
  function Touched(w: World, z: Sizes, e: Event): Option<(int, int)>
    requires Legal(w, z, e)
  {
    match e
    case Complete(p, g) => if 0 <= g < z.pageCount && w.m.table[p][g] == -1 then Some((p, g)) else None
    case Load(p, addr) =>
      var g := CDiv(addr, z.pageSize);
      if 0 <= g < z.pageCount && w.m.table[p][g] != -1 then Some((p, g)) else None
    case _ => None
  }

  function WithoutPage<T(==)>(s: seq<T>, x: T): seq<T> {
    if s == [] then [] else (if s[0] == x then [] else [s[0]]) + WithoutPage(s[1..], x)
  }

  function NotOf(s: seq<(int, int)>, p: int): seq<(int, int)> {
    if s == [] then [] else (if s[0].0 == p then [] else [s[0]]) + NotOf(s[1..], p)
  }

  function Step(w: World, z: Sizes, e: Event): World
    requires Legal(w, z, e)
  {
    var t := Touched(w, z, e);
    var history := if t.Some? then w.history + [Touch(t.value.0, t.value.1, w.m.tick)] else w.history;
    match e
    case Complete(p, g) =>
      var full := |w.recent| == |w.m.frames| && w.recent != [];
      var recent := if t == None then w.recent
                    else [(p, g)] + (if full then w.recent[..|w.recent| - 1] else w.recent);
      World(Fault(w.m, z.pageCount, p, g), history, recent)
    case Load(p, addr) =>
      var recent := if t == None then w.recent else [t.value] + WithoutPage(w.recent, t.value);
      World(Access(w.m, z.pageCount, z.pageSize, p, addr).0, history, recent)
    case Exit(p) => World(FreeProcess(w.m, z.pageCount, p), history, NotOf(w.recent, p))
    case Clock(t') => w.(m := w.m.(tick := t'))
  }

  /** The tick of the last touch of a page. */
  function LastTick(h: seq<Touch>, p: int, g: int): Option<int> {
    if h == [] then None
    else
      var t := h[|h| - 1];
      if t.p == p && t.g == g then Some(t.tick) else LastTick(h[..|h| - 1], p, g)
  }

  lemma LastTickAppend(h: seq<Touch>, t: Touch, p: int, g: int)
    ensures LastTick(h + [t], p, g) == if t.p == p && t.g == g then Some(t.tick) else LastTick(h, p, g)
  {
    assert (h + [t])[..|h|] == h;
  }

  ghost predicate Stamped(w: World, f: int)
    requires 0 <= f < |w.m.frames| == |w.m.pages| == |w.m.last|
  {
    w.m.frames[f] != -1 ==> LastTick(w.history, w.m.frames[f], w.m.pages[f]) == Some(w.m.last[f])
  }

  /** The tables are inverse, and every frame in use carries the tick of its page's last touch. */
  ghost predicate Good(w: World, z: Sizes) {
    && Inverse(w.m, z.pageCount)
    && forall f {:trigger Stamped(w, f)} :: 0 <= f < |w.m.frames| ==> Stamped(w, f)
  }

  lemma StepInverse(w: World, z: Sizes, e: Event)
    requires Good(w, z) && Legal(w, z, e)
    ensures Inverse(Step(w, z, e).m, z.pageCount)
  {
    match e
    case Complete(p, g) => FaultKeeps(w.m, z.pageCount, p, g);
    case Load(p, addr) => AccessKeeps(w.m, z.pageCount, z.pageSize, p, addr);
    case Exit(p) => FreeProcessKeeps(w.m, z.pageCount, p);
    case Clock(t) => ClockKeeps(w.m, z.pageCount, t);
  }

  lemma ClockKeeps(m: Mem, n: nat, t: int)
    requires Inverse(m, n)
    ensures Inverse(m.(tick := t), n)
  {
    var h := m.(tick := t);
    forall f | 0 <= f < |h.frames| ensures FrameOk(h, n, f) { assert FrameOk(m, n, f); }
    forall p, g | 0 <= p < |h.table| && 0 <= g < n ensures PageOk(h, n, p, g) { assert PageOk(m, n, p, g); }
  }

  lemma StepKeeps(w: World, z: Sizes, e: Event)
    requires Good(w, z) && Legal(w, z, e)
    ensures Good(Step(w, z, e), z)
  {
    StepInverse(w, z, e);
    var v := Step(w, z, e);
    forall f | 0 <= f < |v.m.frames|
      ensures Stamped(v, f)
    {
      assert Stamped(w, f) && FrameOk(w.m, z.pageCount, f);
      if v.history != w.history {
        LastTickAppend(w.history, v.history[|w.history|], v.m.frames[f], v.m.pages[f]);
        var t := Touched(w, z, e).value;
        if e.Load? {
          assert PageOk(w.m, z.pageCount, t.0, t.1);
        }
      }
    }
  }

  // ----- the page that is evicted

  /** A page is taken away only when every frame is in use; it is then the one whose last touch is
      earliest, and of several the one in the lowest frame. */
  lemma EvictsLeastRecentlyUsed(w: World, z: Sizes, p: int, g: int)
    requires Good(w, z) && Legal(w, z, Complete(p, g))
    ensures var e := Allocate(w.m, z.pageCount, p, g).2;
            e.Evicted? <==> Touched(w, z, Complete(p, g)).Some? && FreeFrames(w.m.frames) == {}
    ensures var e := Allocate(w.m, z.pageCount, p, g).2;
            e.Evicted? ==>
              && 0 <= e.frame < |w.m.frames| && w.m.frames[e.frame] == e.pid && w.m.pages[e.frame] == e.page
              && LastTick(w.history, e.pid, e.page).Some?
              && (forall f :: 0 <= f < |w.m.frames| ==>
                   && LastTick(w.history, w.m.frames[f], w.m.pages[f]).Some?
                   && LastTick(w.history, e.pid, e.page).value <= LastTick(w.history, w.m.frames[f], w.m.pages[f]).value
                   && (f < e.frame ==>
                        LastTick(w.history, e.pid, e.page).value <
                        LastTick(w.history, w.m.frames[f], w.m.pages[f]).value))
  {
    var e := Allocate(w.m, z.pageCount, p, g).2;
    var free := FindFree(w.m.frames, 0);
    if free >= 0 {
      assert free in FreeFrames(w.m.frames);
    }
    if e.Evicted? {
      forall f | 0 <= f < |w.m.frames|
        ensures LastTick(w.history, w.m.frames[f], w.m.pages[f]) == Some(w.m.last[f])
      {
        assert Stamped(w, f) && FrameOk(w.m, z.pageCount, f);
      }
    }
  }

  // ----- eviction and the list of recently used pages

  function FrameOf(m: Mem, x: (int, int)): int {
    if 0 <= x.0 < |m.table| && 0 <= x.1 < |m.table[x.0]| then m.table[x.0][x.1] else -1
  }

  predicate InMemory(m: Mem, x: (int, int)) {
    FrameOf(m, x) != -1
  }

  /** The tick in the frame of a page. */
  function Stamp(m: Mem, x: (int, int)): int {
    if 0 <= FrameOf(m, x) < |m.last| then m.last[FrameOf(m, x)] else 0
  }

  /** The list holds exactly the pages in memory, most recently touched first. */
  ghost predicate RecentOk(w: World, z: Sizes)
    requires Shaped(w.m, z.pageCount)
  {
    && (forall i :: 0 <= i < |w.recent| ==> InMemory(w.m, w.recent[i]))
    && (forall x {:trigger InMemory(w.m, x)} :: InMemory(w.m, x) ==> x in w.recent)
    && (forall i, j :: 0 <= i < j < |w.recent| ==> Stamp(w.m, w.recent[i]) > Stamp(w.m, w.recent[j]))
  }

  /** The clock is past every page in memory. */
  ghost predicate ClockAhead(m: Mem)
    requires |m.frames| == |m.last|
  {
    forall f :: 0 <= f < |m.frames| && m.frames[f] != -1 ==> m.last[f] < m.tick
  }

  /** The frames of the listed pages. */
  function FramesOf(m: Mem, r: seq<(int, int)>): seq<int> {
    seq(|r|, i requires 0 <= i < |r| => FrameOf(m, r[i]))
  }

  lemma ListedFrame(w: World, z: Sizes, i: int)
    requires Inverse(w.m, z.pageCount) && RecentOk(w, z) && 0 <= i < |w.recent|
    ensures var f := FramesOf(w.m, w.recent)[i];
            0 <= f < |w.m.frames| && w.m.frames[f] != -1 && w.m.last[f] == Stamp(w.m, w.recent[i])
  {
    assert InMemory(w.m, w.recent[i]);
    assert PageOk(w.m, z.pageCount, w.recent[i].0, w.recent[i].1);
  }

  lemma FrameListed(w: World, z: Sizes, f: int)
    requires Inverse(w.m, z.pageCount) && RecentOk(w, z) && 0 <= f < |w.m.frames| && w.m.frames[f] != -1
    ensures f in FramesOf(w.m, w.recent)
  {
    var x := (w.m.frames[f], w.m.pages[f]);
    assert FrameOk(w.m, z.pageCount, f);
    assert InMemory(w.m, x);
    var i :| 0 <= i < |w.recent| && w.recent[i] == x;
    assert FramesOf(w.m, w.recent)[i] == f;
  }

  /** The list is as long as there are frames in use. */
  lemma RecentCount(w: World, z: Sizes)
    requires Inverse(w.m, z.pageCount) && RecentOk(w, z)
    ensures |w.recent| + |FreeFrames(w.m.frames)| == |w.m.frames|
  {
    var fs := FramesOf(w.m, w.recent);
    forall i | 0 <= i < |fs|
      ensures 0 <= fs[i] < |w.m.frames| && w.m.frames[fs[i]] != -1 && w.m.last[fs[i]] == Stamp(w.m, w.recent[i])
    {
      ListedFrame(w, z, i);
    }
    forall f | 0 <= f < |w.m.frames| && w.m.frames[f] != -1
      ensures f in fs
    {
      FrameListed(w, z, f);
    }
    hide Inverse, InMemory, FramesOf;
    assert Distinct(fs);
    DistinctCount(fs);
    assert Elements(fs) + FreeFrames(w.m.frames) == Interval(|w.m.frames|);
    assert Elements(fs) !! FreeFrames(w.m.frames);
  }

  /** With distinct ticks the evicted page is the last of the list. */
  lemma EvictsListTail(w: World, z: Sizes, p: int, g: int)
    requires Good(w, z) && RecentOk(w, z) && Legal(w, z, Complete(p, g))
    ensures var e := Allocate(w.m, z.pageCount, p, g).2;
            e.Evicted? ==> w.recent != [] && w.recent[|w.recent| - 1] == (e.pid, e.page)
    ensures Allocate(w.m, z.pageCount, p, g).2.Evicted? <==>
              Touched(w, z, Complete(p, g)).Some? && |w.recent| == |w.m.frames|
  {
    var m, n, r := w.m, z.pageCount, w.recent;
    var e := Allocate(m, n, p, g).2;
    EvictsLeastRecentlyUsed(w, z, p, g);
    RecentCount(w, z);
    if e.Evicted? {
      var x := (e.pid, e.page);
      assert FrameOk(m, n, e.frame);
      assert InMemory(m, x) && x in r;
      var i :| 0 <= i < |r| && r[i] == x;
      var y := r[|r| - 1];
      assert InMemory(m, y) && PageOk(m, n, y.0, y.1);
      assert m.last[e.frame] <= m.last[m.table[y.0][y.1]];
      assert forall k :: 0 <= k < |r| - 1 ==> Stamp(m, r[k]) > Stamp(m, r[|r| - 1]);
    }
  }

  // ----- the list is kept up to date

  lemma {:induction false} WithoutPageKeepsOrder(m: Mem, s: seq<(int, int)>, x: (int, int))
    requires forall i, j :: 0 <= i < j < |s| ==> Stamp(m, s[i]) > Stamp(m, s[j])
    ensures var r := WithoutPage(s, x);
            && (forall y :: y in r <==> y in s && y != x)
            && forall i, j :: 0 <= i < j < |r| ==> Stamp(m, r[i]) > Stamp(m, r[j])
  {
    if s != [] {
      WithoutPageKeepsOrder(m, s[1..], x);
      assert s == [s[0]] + s[1..];
      var r := WithoutPage(s[1..], x);
      assert forall i :: 0 <= i < |r| ==> r[i] in s[1..];
    }
  }

  lemma {:induction false} NotOfKeepsOrder(m: Mem, s: seq<(int, int)>, p: int)
    requires forall i, j :: 0 <= i < j < |s| ==> Stamp(m, s[i]) > Stamp(m, s[j])
    ensures var r := NotOf(s, p);
            && (forall y :: y in r <==> y in s && y.0 != p)
            && forall i, j :: 0 <= i < j < |r| ==> Stamp(m, r[i]) > Stamp(m, r[j])
  {
    if s != [] {
      NotOfKeepsOrder(m, s[1..], p);
      assert s == [s[0]] + s[1..];
      var r := NotOf(s[1..], p);
      assert forall i :: 0 <= i < |r| ==> r[i] in s[1..];
    }
  }

  /** The new list: a page with a new stamp in front of pages that keep their older ones. */
  lemma PushFront(m: Mem, h: Mem, n: nat, rest: seq<(int, int)>, x: (int, int))
    requires forall i, j :: 0 <= i < j < |rest| ==> Stamp(m, rest[i]) > Stamp(m, rest[j])
    requires forall y :: y in rest ==> Stamp(h, y) == Stamp(m, y) < Stamp(h, x)
    ensures var r := [x] + rest; forall i, j :: 0 <= i < j < |r| ==> Stamp(h, r[i]) > Stamp(h, r[j])
  {
  }

  /** Whether the clock is past all pages in memory when an event touches one: no two touches then carry
      the same tick. */
  ghost predicate FreshTick(w: World, z: Sizes, e: Event)
    requires Legal(w, z, e)
  {
    Touched(w, z, e).Some? ==> ClockAhead(w.m)
  }

  /** What a touch does to the stamps: x gets the current tick, the pages of rest keep theirs. */
  lemma StampsKept(m: Mem, n: nat, h: Mem, rest: seq<(int, int)>, x: (int, int))
    requires Inverse(m, n) && Inverse(h, n) && ClockAhead(m)
    requires |h.table| == |m.table| && InMemory(h, x)
    requires 0 <= FrameOf(h, x) < |m.last| && h.last == m.last[FrameOf(h, x) := m.tick]
    requires forall y :: y in rest ==> InMemory(m, y) && y != x && FrameOf(h, y) == FrameOf(m, y)
    ensures forall y :: y in rest ==> Stamp(h, y) == Stamp(m, y) < Stamp(h, x)
  {
    forall y | y in rest
      ensures Stamp(h, y) == Stamp(m, y) < Stamp(h, x)
    {
      assert PageOk(m, n, y.0, y.1) && PageOk(h, n, y.0, y.1) && PageOk(h, n, x.0, x.1);
    }
  }

  /** A touch of x moves it to the front of the others that stay. */
  lemma TouchRecent(w: World, z: Sizes, v: World, rest: seq<(int, int)>, x: (int, int))
    requires Inverse(w.m, z.pageCount) && Inverse(v.m, z.pageCount) && ClockAhead(w.m)
    requires |v.m.table| == |w.m.table| && InMemory(v.m, x) && v.recent == [x] + rest
    requires 0 <= FrameOf(v.m, x) < |w.m.last| && v.m.last == w.m.last[FrameOf(v.m, x) := w.m.tick]
    requires forall i, j :: 0 <= i < j < |rest| ==> Stamp(w.m, rest[i]) > Stamp(w.m, rest[j])
    requires forall y :: y in rest ==>
               InMemory(w.m, y) && InMemory(v.m, y) && y != x && FrameOf(v.m, y) == FrameOf(w.m, y)
    requires forall y {:trigger InMemory(v.m, y)} :: InMemory(v.m, y) && y != x ==> y in rest
    ensures RecentOk(v, z)
  {
    StampsKept(w.m, z.pageCount, v.m, rest, x);
    PushFront(w.m, v.m, z.pageCount, rest, x);
    hide Inverse;
    forall i | 0 <= i < |v.recent|
      ensures InMemory(v.m, v.recent[i])
    {
      assert i > 0 ==> v.recent[i] == rest[i - 1] && rest[i - 1] in rest;
    }
  }

  lemma LoadRecent(w: World, z: Sizes, p: int, addr: int)
    requires Good(w, z) && RecentOk(w, z) && Legal(w, z, Load(p, addr)) && FreshTick(w, z, Load(p, addr))
    ensures Inverse(Step(w, z, Load(p, addr)).m, z.pageCount) && RecentOk(Step(w, z, Load(p, addr)), z)
  {
    var e := Load(p, addr);
    var v := Step(w, z, e);
    StepInverse(w, z, e);
    if Touched(w, z, e).Some? {
      var x := Touched(w, z, e).value;
      var rest := WithoutPage(w.recent, x);
      assert PageOk(w.m, z.pageCount, x.0, x.1);
      WithoutPageKeepsOrder(w.m, w.recent, x);
      assert v.m.table == w.m.table;
      forall y | InMemory(v.m, y) && y != x
        ensures y in rest
      {
        assert InMemory(w.m, y);
      }
      TouchRecent(w, z, v, rest, x);
    }
  }

  /** What a completed fault does to the page tables. */
  lemma FaultFrames(m: Mem, n: nat, p: int, g: int)
    requires Inverse(m, n) && 0 <= p < |m.table| && |m.frames| > 0 && 0 <= g < n && m.table[p][g] == -1
    ensures var (a, f, e) := Allocate(m, n, p, g);
            var h := Fault(m, n, p, g);
            && |h.table| == |m.table| && Shaped(h, n) && 0 <= f < |m.last| && h.last == m.last[f := m.tick]
            && FrameOf(h, (p, g)) == f
            && (e.Evicted? ==> InMemory(m, (e.pid, e.page)) && FrameOf(h, (e.pid, e.page)) == -1)
            && forall y :: y != (p, g) && (e.Evicted? ==> y != (e.pid, e.page)) ==> FrameOf(h, y) == FrameOf(m, y)
  {
    var (a, f, e) := Allocate(m, n, p, g);
    if e.Evicted? {
      assert FrameOk(m, n, f);
    }
  }

  lemma CompleteRecent(w: World, z: Sizes, p: int, g: int)
    requires Good(w, z) && RecentOk(w, z) && Legal(w, z, Complete(p, g)) && FreshTick(w, z, Complete(p, g))
    ensures Inverse(Step(w, z, Complete(p, g)).m, z.pageCount) && RecentOk(Step(w, z, Complete(p, g)), z)
  {
    var e := Complete(p, g);
    var v := Step(w, z, e);
    StepInverse(w, z, e);
    if Touched(w, z, e).Some? {
      var out := Allocate(w.m, z.pageCount, p, g).2;
      EvictsListTail(w, z, p, g);
      var rest := if out.Evicted? then w.recent[..|w.recent| - 1] else w.recent;
      FaultFrames(w.m, z.pageCount, p, g);
      assert v.recent == [(p, g)] + rest;
      RestStays(w, z, v, rest, (p, g), out);
      TouchRecent(w, z, v, rest, (p, g));
    }
  }

  /** The pages that stay are those of the list but the evicted one. */
  lemma RestStays(w: World, z: Sizes, v: World, rest: seq<(int, int)>, x: (int, int), out: Eviction)
    requires Shaped(w.m, z.pageCount) && RecentOk(w, z) && !InMemory(w.m, x)
    requires out.Evicted? ==> w.recent != [] && w.recent[|w.recent| - 1] == (out.pid, out.page)
    requires rest == if out.Evicted? then w.recent[..|w.recent| - 1] else w.recent
    requires out.Evicted? ==> FrameOf(v.m, (out.pid, out.page)) == -1
    requires forall y :: y != x && (out.Evicted? ==> y != (out.pid, out.page)) ==> FrameOf(v.m, y) == FrameOf(w.m, y)
    ensures forall y :: y in rest ==>
               InMemory(w.m, y) && InMemory(v.m, y) && y != x && FrameOf(v.m, y) == FrameOf(w.m, y)
    ensures forall y {:trigger InMemory(v.m, y)} :: InMemory(v.m, y) && y != x ==> y in rest
  {
    hide FrameOf;
    assert forall i :: 0 <= i < |w.recent| - 1 ==> Stamp(w.m, w.recent[i]) > Stamp(w.m, w.recent[|w.recent| - 1]);
    assert forall i :: 0 <= i < |rest| ==> rest[i] == w.recent[i];
    assert out.Evicted? ==> w.recent == rest + [(out.pid, out.page)];
    forall y | InMemory(v.m, y) && y != x
      ensures y in rest
    {
      assert InMemory(w.m, y);
    }
  }

  lemma ExitRecent(w: World, z: Sizes, p: int)
    requires Good(w, z) && RecentOk(w, z) && Legal(w, z, Exit(p))
    ensures Inverse(Step(w, z, Exit(p)).m, z.pageCount) && RecentOk(Step(w, z, Exit(p)), z)
  {
    var v := Step(w, z, Exit(p));
    StepInverse(w, z, Exit(p));
    NotOfKeepsOrder(w.m, w.recent, p);
    forall i | 0 <= i < |v.recent|
      ensures InMemory(v.m, v.recent[i]) && Stamp(v.m, v.recent[i]) == Stamp(w.m, v.recent[i])
    {
      assert v.recent[i] in v.recent && v.recent[i] in w.recent;
    }
    forall y | InMemory(v.m, y)
      ensures y in v.recent
    {
      assert InMemory(w.m, y);
    }
  }

  lemma StepRecent(w: World, z: Sizes, e: Event)
    requires Good(w, z) && RecentOk(w, z) && Legal(w, z, e) && FreshTick(w, z, e)
    ensures Good(Step(w, z, e), z) && RecentOk(Step(w, z, e), z)
  {
    StepKeeps(w, z, e);
    match e
    case Complete(p, g) => CompleteRecent(w, z, p, g);
    case Load(p, addr) => LoadRecent(w, z, p, addr);
    case Exit(p) => ExitRecent(w, z, p);
    case Clock(t) =>
      var v := Step(w, z, e);
      forall y | InMemory(v.m, y)
        ensures y in v.recent
      {
        assert InMemory(w.m, y);
      }
      assert forall y :: Stamp(v.m, y) == Stamp(w.m, y);
  }

  // ----- runs

  ghost predicate Linked(w: World, z: Sizes, e: Event, v: World) {
    Legal(w, z, e) && v == Step(w, z, e)
  }

  /** A run of the pager from power-on. */
  ghost predicate Run(ws: seq<World>, es: seq<Event>, z: Sizes, frames: nat, procs: nat) {
    && |ws| == |es| + 1 && ws[0] == World(Init(frames, z.pageCount, procs), [], [])
    && forall i :: 0 <= i < |es| ==> Linked(ws[i], z, es[i], ws[i + 1])
  }

  lemma InitGood(frames: nat, z: Sizes, procs: nat)
    ensures var w := World(Init(frames, z.pageCount, procs), [], []); Good(w, z) && RecentOk(w, z)
  {
    var m := Init(frames, z.pageCount, procs);
    InitInverse(frames, z.pageCount, procs);
    hide Inverse;
    assert forall p :: 0 <= p < procs ==> m.table[p] == seq(z.pageCount, _ => -1);
    assert forall f :: 0 <= f < frames ==> m.frames[f] == -1;
  }

  /** In every state of every run frame table and page tables are inverse to each other, the counters
      are the true counts, and so every eviction takes the least recently used page. */
  lemma {:induction false} RunKeeps(ws: seq<World>, es: seq<Event>, z: Sizes, frames: nat, procs: nat, i: nat)
    requires Run(ws, es, z, frames, procs) && i < |ws|
    ensures Good(ws[i], z)
  {
    if i == 0 {
      InitGood(frames, z, procs);
    } else {
      RunKeeps(ws, es, z, frames, procs, i - 1);
      assert Linked(ws[i - 1], z, es[i - 1], ws[i]);
      StepKeeps(ws[i - 1], z, es[i - 1]);
    }
  }

  /** Along a run whose touches carry different, growing ticks, the pager agrees with the list that moves
      each touched page to its front and drops its last entry when memory is full. */
  lemma {:induction false} RefinesList(ws: seq<World>, es: seq<Event>, z: Sizes, frames: nat, procs: nat, i: nat)
    requires Run(ws, es, z, frames, procs) && i < |ws|
    requires forall j :: 0 <= j < i ==> Linked(ws[j], z, es[j], ws[j + 1]) && FreshTick(ws[j], z, es[j])
    ensures Good(ws[i], z) && RecentOk(ws[i], z)
  {
    if i == 0 {
      InitGood(frames, z, procs);
    } else {
      RefinesList(ws, es, z, frames, procs, i - 1);
      assert Linked(ws[i - 1], z, es[i - 1], ws[i]);
      StepRecent(ws[i - 1], z, es[i - 1]);
    }
  }
}
