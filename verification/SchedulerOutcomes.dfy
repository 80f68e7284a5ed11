/** What each operation of the scheduler does to the threads, said in terms of who runs and of the line of
    those who wait. */
module SchedulerOutcomes {
  import opened Common
  import opened ReadyQueues
  import opened SchedulerRules
  import opened SchedulerProofs

  /** Everybody who waits, from the first of the highest queue to the last of the lowest. */
  ghost function Line(s: Sched): seq<int> {
    s.rr + s.q0 + s.q1 + s.q2
  }

  /** The line when a thread goes to the end of the queue of level l. */
  ghost function LineWith(s: Sched, t: int, l: int): seq<int> {
    if s.mode == RR then s.rr + [t]
    else if l == 0 then s.q0 + [t] + s.q1 + s.q2
    else if l == 1 then s.q0 + s.q1 + [t] + s.q2
    else s.q0 + s.q1 + s.q2 + [t]
  }

  /** q without t. */
  ghost function Except(q: seq<int>, t: int): seq<int> {
    if q == [] then [] else (if q[0] == t then [] else [q[0]]) + Except(q[1..], t)
  }

  /** How many ticks a thread may run that is dispatched at level l. */
  ghost function Slice(mode: Mode, l: int): int {
    if mode == RR then 4 else if l == 0 then 2 else if l == 1 then 4 else 8
  }

  /** The threads are in the same states, but for those named. */
  ghost predicate StatesBut(s: Sched, h: Sched, changed: set<int>) {
    |h.st| == |s.st| && forall t :: 0 <= t < |s.st| && t !in changed ==> h.st[t] == s.st[t]
  }

  /** No thread is added, no level changed and no boost noted. */
  ghost predicate Untouched(s: Sched, h: Sched) {
    && h.mode == s.mode && h.cap == s.cap && h.table == s.table && h.level == s.level && h.prio == s.prio
    && h.lastBoost == s.lastBoost && h.boosts == s.boosts
  }

  /** The first of the line is dispatched, with the full slice of its level; the others stay in line. */
  ghost predicate Served(s: Sched, h: Sched, line: seq<int>) {
    && line != [] && 0 <= line[0] < |h.st| && |h.level| == |h.st|
    && h.current == Some(line[0]) && h.st[line[0]] == Running && Line(h) == line[1..]
    && h.quantum == Slice(h.mode, h.level[line[0]])
    && h.switches == s.switches + (if s.current == Some(line[0]) then 0 else 1)
  }

  // ----- dispatching

  lemma FirstInLine(a: seq<int>, b: seq<int>, c: seq<int>)
    requires a + b + c != []
    ensures a != [] ==> (a + b + c)[0] == a[0] && (a + b + c)[1..] == a[1..] + b + c
    ensures a == [] && b != [] ==> (a + b + c)[0] == b[0] && (a + b + c)[1..] == a + b[1..] + c
    ensures a == [] && b == [] ==> c != [] && (a + b + c)[0] == c[0] && (a + b + c)[1..] == a + b + c[1..]
  {
  }

  lemma OneMode(s: Sched)
    requires Consistent(s)
    ensures s.mode == RR ==> Line(s) == s.rr && s.q0 == [] && s.q1 == [] && s.q2 == []
    ensures s.mode == MLFQ ==> Line(s) == s.q0 + s.q1 + s.q2 && s.rr == []
  {
    assert if s.mode == RR then s.q0 == [] && s.q1 == [] && s.q2 == [] else s.rr == [];
    hide Consistent;
    if s.mode == RR {
      assert s.rr + [] == s.rr;
    } else {
      assert [] + s.q0 == s.q0;
    }
  }

  /** Where the first of the line comes from. */
  lemma HeadOfLine(b: Sched)
    requires Consistent(b) && b.mode == MLFQ && Line(b) != []
    ensures Known(b, Line(b)[0]) && |b.level| == |b.st| && Chosen(b) == b.level[Line(b)[0]]
    ensures 0 <= Chosen(b) <= 2 && Queue(b, Chosen(b)) != [] && Queue(b, Chosen(b))[0] == Line(b)[0]
    ensures Line(SetQueue(b, Chosen(b), Queue(b, Chosen(b))[1..])) == Line(b)[1..]
  {
    OneMode(b);
    FirstInLine(b.q0, b.q1, b.q2);
    hide Distinct, PlacesOk, CurrentOk, TableOk;
  }

  lemma TakeServes(b: Sched)
    requires Consistent(b) && b.current == None && Line(b) != []
    ensures Served(b, Take(b), Line(b)) && Untouched(b, Take(b)) && StatesBut(b, Take(b), {Line(b)[0]})
  {
    hide Consistent;
    OneMode(b);
    ConsistentBasics(b);
    if b.mode == MLFQ {
      HeadOfLine(b);
      TakeChosen(b);
    } else {
      FirstKnown(b);
      TakeFirst(b);
    }
  }

  lemma FirstKnown(b: Sched)
    requires Shaped(b) && b.rr != []
    ensures Known(b, b.rr[0])
  {
    assert b.rr[0] in b.rr;
  }

  lemma TakeFirst(b: Sched)
    requires Shaped(b) && b.mode == RR && b.current == None && b.rr != []
    requires b.q0 == [] && b.q1 == [] && b.q2 == [] && Line(b) == b.rr
    requires Known(b, b.rr[0]) && |b.level| == |b.st|
    ensures Served(b, Take(b), Line(b)) && Untouched(b, Take(b)) && StatesBut(b, Take(b), {Line(b)[0]})
  {
    assert Line(Take(b)) == b.rr[1..];
    hide Shaped;
  }

  lemma TakeChosen(b: Sched)
    requires Shaped(b) && b.mode == MLFQ && b.current == None && Line(b) != []
    requires Known(b, Line(b)[0]) && |b.level| == |b.st| && Chosen(b) == b.level[Line(b)[0]] && 0 <= Chosen(b) <= 2
    requires Queue(b, Chosen(b)) != [] && Queue(b, Chosen(b))[0] == Line(b)[0]
    requires Line(SetQueue(b, Chosen(b), Queue(b, Chosen(b))[1..])) == Line(b)[1..]
    ensures Served(b, Take(b), Line(b)) && Untouched(b, Take(b)) && StatesBut(b, Take(b), {Line(b)[0]})
  {
    hide Shaped;
  }

  /** The running thread goes to the end of the queue of level l. */
  function PutBack(s: Sched, l: int): (b: Sched)
    requires Shaped(s) && s.current.Some? && 0 <= l <= 2
    ensures Shaped(b) && SameFrame(s, b)
  {
    var c := s.current.value;
    if s.mode == RR then s.(rr := s.rr + [c], st := s.st[c := Ready]) else PushReady(s, c, l)
  }

  lemma PutBackLine(s: Sched, l: int)
    requires Consistent(s) && s.current.Some? && 0 <= l <= 2
    ensures var c, b := s.current.value, PutBack(s, l);
            var n := b.(current := None);
            && Known(s, c) && Shaped(b) && Consistent(n) && Line(n) == LineWith(s, c, l) != []
            && StatesBut(s, n, {c}) && n.st[c] == Ready && n.switches == s.switches && b.current == s.current
            && Untouched(if s.mode == RR then s else s.(level := s.level[c := l]), n)
  {
    hide Consistent, Shaped;
    OneMode(s);
    ConsistentBasics(s);
    CurrentLevel(s);
    SwitchKeeps(s, l);
    if s.mode == MLFQ {
      EnteredLine(s, s.current.value, l);
      assert PutBack(s, l) == Entered(s, s.current.value, l);
      hide PushReady;
    }
  }

  lemma EnteredLine(s: Sched, t: int, l: int)
    requires Known(s, t) && |s.level| == |s.st| && 0 <= l <= 2 && s.rr == [] && s.mode == MLFQ
    ensures Line(Entered(s, t, l)) == LineWith(s, t, l)
  {
    assert l == 0 ==> s.rr + (s.q0 + [t]) + s.q1 + s.q2 == s.q0 + [t] + s.q1 + s.q2;
    assert l == 1 ==> s.rr + s.q0 + (s.q1 + [t]) + s.q2 == s.q0 + s.q1 + [t] + s.q2;
    assert l == 2 ==> s.rr + s.q0 + s.q1 + (s.q2 + [t]) == s.q0 + s.q1 + s.q2 + [t];
  }

  /** Who was current before matters only to the switch counter. */
  lemma TakeCounts(b: Sched)
    requires Shaped(b) && Consistent(b.(current := None)) && Line(b) != []
    ensures var h, k := Take(b), Take(b.(current := None));
            && h == k.(switches := h.switches) && Line(h) == Line(k)
            && h.switches == b.switches + (if b.current == Some(Line(b)[0]) then 0 else 1)
  {
    var n := b.(current := None);
    OneMode(n);
    if b.mode == MLFQ {
      HeadOfLine(n);
    }
    hide Consistent, Shaped;
  }

  /** ... and the first of the line is served. */
  lemma RotateServes(s: Sched, l: int)
    requires Consistent(s) && s.current.Some? && 0 <= l <= 2
    ensures var c, h := s.current.value, Take(PutBack(s, l));
            && Known(s, c) && Served(s, h, LineWith(s, c, l))
            && StatesBut(s, h, {c, LineWith(s, c, l)[0]})
            && h.st[c] == (if LineWith(s, c, l)[0] == c then Running else Ready)
            && Untouched(if s.mode == RR then s else s.(level := s.level[c := l]), h)
  {
    PutBackLine(s, l);
    hide Consistent, Shaped, LineWith, PutBack, Take;
    var b := PutBack(s, l);
    TakeServes(b.(current := None));
    TakeCounts(b);
  }

  /** What happens to a running thread c that is put back at level l while the first of the line is served. */
  ghost predicate Rotated(s: Sched, h: Sched, c: int, l: int) {
    && 0 <= c < |s.st| == |s.level| && LineWith(s, c, l) != [] && Served(s, h, LineWith(s, c, l))
    && StatesBut(s, h, {c, LineWith(s, c, l)[0]})
    && h.st[c] == (if LineWith(s, c, l)[0] == c then Running else Ready)
  }

  /** scheduler_next: with nobody waiting nothing happens; otherwise the running thread, if there is one,
      goes to the end of its own queue and the first of the line is served. */
  lemma NextOutcome(s: Sched)
    requires Consistent(s)
    ensures var h := Next(s);
            && (Line(s) == [] ==> h == s)
            && (Line(s) != [] ==> Untouched(s, h))
            && (Line(s) != [] && s.current == None ==>
                  Served(s, h, Line(s)) && StatesBut(s, h, {Line(s)[0]}))
            && (Line(s) != [] && s.current.Some? ==>
                  var c := s.current.value; Known(s, c) && |s.level| == |s.st| && Rotated(s, h, c, s.level[c]))
  {
    OneMode(s);
    ConsistentBasics(s);
    if Line(s) == [] {
    } else if s.current == None {
      TakeServes(s);
      NextTakes(s);
    } else {
      var c := s.current.value;
      CurrentLevel(s);
      hide Consistent, Shaped, Take, PutBack, Served, StatesBut;
      RotateServes(s, LevelFor(s, c));
      NextRotates(s);
      assert s.mode == MLFQ ==> s.level[c := LevelFor(s, c)] == s.level;
    }
  }

  lemma CurrentLevel(s: Sched)
    requires Consistent(s) && s.current.Some?
    ensures Known(s, s.current.value) && |s.level| == |s.st|
    ensures s.mode == MLFQ ==> s.level[s.current.value] == s.currentQueue == LevelFor(s, s.current.value)
  {
  }

  lemma NextTakes(s: Sched)
    requires Shaped(s) && s.current == None
    ensures Next(s) == Take(s)
  {
  }

  lemma NextRotates(s: Sched)
    requires Consistent(s) && s.current.Some? && Line(s) != []
    ensures Next(s) == Take(PutBack(s, LevelFor(s, s.current.value)))
  {
    OneMode(s);
    ConsistentBasics(s);
    hide Consistent, Shaped, Take, PushReady;
  }

  /** Said of the queues: nobody is dispatched while somebody of a higher level could be, and of those of
      its level it is the first; the running thread competes as the last of its own level. */
  lemma HighestFirst(s: Sched)
    requires Consistent(s) && s.mode == MLFQ && (s.q0 != [] || s.q1 != [] || s.q2 != [])
    ensures Next(s).current.Some? && Shaped(s)
    ensures var c := Next(s).current.value;
            && Known(s, c) && (Queued(s, c) || s.current == Some(c))
            && (forall t :: Queued(s, t) || s.current == Some(t) ==> Known(s, t) && s.level[c] <= s.level[t])
            && (s.level[c] == 0 ==> if s.q0 != [] then c == s.q0[0] else s.current == Some(c))
            && (s.level[c] == 1 ==> if s.q1 != [] then c == s.q1[0] else s.current == Some(c))
            && (s.level[c] == 2 ==> if s.q2 != [] then c == s.q2[0] else s.current == Some(c))
  {
    OneMode(s);
    NextOutcome(s);
    if s.current.Some? {
      CurrentLevel(s);
    }
    hide Next, Distinct, TableOk, PlacesOk;
  }

  // ----- ticks

  /** What a boost does: all who wait are in the top queue, in the order of the line; only their levels
      change, and the clock. */
  lemma BoostOutcome(s: Sched, now: int)
    requires Consistent(s) && s.mode == MLFQ
    ensures var h := Boost(s, now);
            && h.q0 == Line(h) == Line(s) && h.q1 == [] && h.q2 == [] && h.rr == s.rr
            && h.current == s.current && h.st == s.st && h.quantum == s.quantum && h.switches == s.switches
            && h.table == s.table && h.currentQueue == s.currentQueue
            && h.lastBoost == now && h.boosts == s.boosts + 1 && |h.level| == |s.level|
            && forall t :: 0 <= t < |s.level| ==> h.level[t] == if t in Line(s) then 0 else s.level[t]
  {
    OneMode(s);
    assert forall t :: t in s.q0 ==> s.level[t] == 0;
    assert forall t :: t in Line(s) <==> t in s.q0 || t in s.q1 + s.q2;
    hide Consistent;
  }

  /** A tick without its boost. */
  lemma TurnOutcome(s: Sched)
    requires Consistent(s)
    ensures s.current == None ==> Turn(s) == Next(s)
    ensures s.current.Some? && s.quantum > 1 ==> Turn(s) == s.(quantum := s.quantum - 1)
    ensures s.current.Some? && s.quantum <= 1 && s.mode == RR && Line(s) == [] ==>
              Turn(s) == s.(quantum := s.quantum - 1)
    ensures s.current.Some? && s.quantum <= 1 && (s.mode == MLFQ || Line(s) != []) ==>
              var c := s.current.value;
              var l := if s.mode == RR then 0 else if s.level[c] + 1 > 2 then 2 else s.level[c] + 1;
              && Rotated(s, Turn(s), c, l)
              && Untouched(if s.mode == RR then s else s.(level := s.level[c := l]), Turn(s))
  {
    ConsistentBasics(s);
    if s.current.Some? && s.quantum <= 1 {
      CurrentLevel(s);
      if s.mode == MLFQ {
        ExpiryInQueues(s);
      } else {
        ExpiryInTurn(s);
      }
    }
    hide Consistent, Shaped, Next, Demote, Served, StatesBut, LineWith, Untouched;
  }

  lemma ExpiryInQueues(s: Sched)
    requires Consistent(s) && s.current.Some? && s.quantum <= 1 && s.mode == MLFQ
    ensures var c := s.current.value;
            && Known(s, c) && |s.level| == |s.st|
            && var l := if s.level[c] + 1 > 2 then 2 else s.level[c] + 1;
            && Rotated(s, Turn(s), c, l)
            && Untouched(s.(level := s.level[c := l]), Turn(s))
  {
    ConsistentBasics(s);
    CurrentLevel(s);
    ExpiryKeeps(s);
    hide Consistent, Shaped, Take, Turn, Served, StatesBut, LineWith, Untouched, PushReady;
    RotateServes(s, LevelBelow(s));
  }

  lemma ExpiryInTurn(s: Sched)
    requires Consistent(s) && s.current.Some? && s.quantum <= 1 && s.mode == RR
    ensures Line(s) == [] ==> Turn(s) == s.(quantum := s.quantum - 1)
    ensures Line(s) != [] ==>
              Known(s, s.current.value) && |s.level| == |s.st| && Rotated(s, Turn(s), s.current.value, 0)
              && Untouched(s, Turn(s))
  {
    ConsistentBasics(s);
    CurrentLevel(s);
    hide Consistent, Shaped, Next, Turn, Served, StatesBut, LineWith;
    ExpiryRR(s);
    QuantumKeeps(s, s.quantum - 1);
    NextOutcome(Spent(s));
    SpentLines(s, Turn(s));
  }

  lemma SpentLines(s: Sched, h: Sched)
    requires Shaped(s) && s.current.Some? && s.mode == RR
    ensures Line(Spent(s)) == Line(s)
    ensures forall l :: Rotated(Spent(s), h, s.current.value, l) ==> Rotated(s, h, s.current.value, 0)
    ensures Untouched(Spent(s), h) ==> Untouched(s, h)
  {
  }

  /** The tick of number now comes at least 30 ticks after the last boost, or after the first tick that was
      not 0. */
  ghost predicate Boosts(s: Sched, now: int) {
    s.mode == MLFQ && s.lastBoost != 0 && now - s.lastBoost >= 30
  }

  /** Who runs, who waits in which order, and what is counted is as after the tick without its boost. */
  ghost predicate SameScene(s: Sched, h: Sched) {
    && h.current == s.current && Line(h) == Line(s) && h.st == s.st && h.quantum == s.quantum
    && h.switches == s.switches && h.table == s.table && h.mode == s.mode && |h.level| == |s.level|
  }

  /** The first tick that is not 0 starts the boost clock. */
  function Clocked(s: Sched, now: int): Sched {
    s.(lastBoost := if s.mode == MLFQ && s.lastBoost == 0 then now else s.lastBoost)
  }

  lemma TickScene(s: Sched, now: int)
    requires Consistent(s)
    ensures Consistent(Clocked(s, now)) && Consistent(Turn(Clocked(s, now)))
    ensures var b, h := Turn(Clocked(s, now)), Tick(s, now);
            && SameScene(b, h)
            && (forall t :: 0 <= t < |b.level| ==>
                  h.level[t] == if Boosts(s, now) && t in Line(b) then 0 else b.level[t])
            && (Boosts(s, now) ==> h.q0 == Line(h) && h.q1 == [] && h.q2 == [])
            && h.boosts == s.boosts + (if Boosts(s, now) then 1 else 0)
            && h.lastBoost == (if Boosts(s, now) then now else Clocked(s, now).lastBoost)
  {
    var m := Clocked(s, now);
    CountersKeep(s, s.switches, m.lastBoost, s.boosts);
    hide Consistent, Turn, Line;
    ConsistentBasics(s);
    TurnKeeps(m);
    TurnKeepsClock(m);
    if Boosts(s, now) {
      BoostOutcome(Turn(m), now);
    }
  }

  /** scheduler_tick: with nobody running the first of the line is served; a thread with slice left runs on;
      one whose slice ends goes one queue down and back in line, unless round robin has nobody else; then
      a boost takes place if it is due. */
  lemma TickOutcome(s: Sched, now: int)
    requires Consistent(s)
    ensures var h := Tick(s, now);
            && (s.current == None && Line(s) == [] ==> h.current == None && Line(h) == [] && h.st == s.st)
            && (s.current == None && Line(s) != [] ==>
                  Served(s, h, Line(s)) && StatesBut(s, h, {Line(s)[0]}))
            && (s.current.Some? && (s.quantum > 1 || (s.mode == RR && Line(s) == [])) ==>
                  && h.current == s.current && Line(h) == Line(s) && h.st == s.st
                  && h.quantum == s.quantum - 1 && h.switches == s.switches)
            && (s.current.Some? && s.quantum <= 1 && (s.mode == MLFQ || Line(s) != []) ==>
                  var c := s.current.value; Known(s, c) && |s.level| == |s.st| && Rotated(s, h, c, LevelAfter(s, c)))
  {
    ConsistentBasics(s);
    if s.current.Some? {
      CurrentLevel(s);
    }
    hide Consistent, Tick, LineWith, StatesBut, Served;
    if if s.current == None then Line(s) == [] else s.quantum > 1 || (s.mode == RR && Line(s) == []) {
      TickRunsOn(s, now);
    } else {
      TickServes(s, now);
    }
  }

  lemma TickRunsOn(s: Sched, now: int)
    requires Consistent(s)
    requires if s.current == None then Line(s) == [] else s.quantum > 1 || (s.mode == RR && Line(s) == [])
    ensures var h := Tick(s, now);
            && h.current == s.current && Line(h) == Line(s) && h.st == s.st && h.switches == s.switches
            && h.quantum == s.quantum - (if s.current == None then 0 else 1)
  {
    var m := Clocked(s, now);
    TickScene(s, now);
    TurnOutcome(m);
    NextOutcome(m);
    hide Consistent, Turn, Next, Tick, Boosts, Rotated, Served, Untouched;
  }

  /** The line that a tick serves. */
  ghost function LineOfTick(s: Sched): seq<int>
    requires Shaped(s)
  {
    if s.current == None then Line(s) else LineWith(s, s.current.value, LevelAfter(s, s.current.value))
  }

  lemma TickServes(s: Sched, now: int)
    requires Consistent(s) && Shaped(s)
    requires if s.current == None then Line(s) != [] else s.quantum <= 1 && (s.mode == MLFQ || Line(s) != [])
    ensures LineOfTick(s) != [] && Served(s, Tick(s, now), LineOfTick(s))
    ensures s.current == None ==> StatesBut(s, Tick(s, now), {Line(s)[0]})
    ensures s.current.Some? ==> Rotated(s, Tick(s, now), s.current.value, LevelAfter(s, s.current.value))
  {
    hide Consistent, Shaped, Turn, Tick, Boosts, Served, Line, LineWith, LineOfTick, LevelAfter;
    var m := Clocked(s, now);
    TickScene(s, now);
    ClockLines(s, now);
    TurnServes(m);
    ServedScene(s, m, Turn(m), Tick(s, now), LineOfTick(s));
  }

  lemma ClockLines(s: Sched, now: int)
    requires Shaped(s)
    ensures Shaped(Clocked(s, now)) && Line(Clocked(s, now)) == Line(s)
    ensures LineOfTick(Clocked(s, now)) == LineOfTick(s)
    ensures |s.level| == |s.st| && (s.current.Some? ==> Known(s, s.current.value))
    ensures s.current.Some? ==>
              LevelAfter(Clocked(s, now), s.current.value) == LevelAfter(s, s.current.value)
    ensures s.current.Some? ==>
              && LineOfTick(s) == LineWith(s, s.current.value, LevelAfter(s, s.current.value))
              && LineOfTick(s) == LineWith(Clocked(s, now), s.current.value, LevelAfter(s, s.current.value))
    ensures s.current == None ==> LineOfTick(s) == Line(s)
  {
  }

  lemma TurnServes(m: Sched)
    requires Consistent(m) && Shaped(m)
    requires if m.current == None then Line(m) != [] else m.quantum <= 1 && (m.mode == MLFQ || Line(m) != [])
    ensures LineOfTick(m) != [] && Served(m, Turn(m), LineOfTick(m))
    ensures m.current == None ==> StatesBut(m, Turn(m), {Line(m)[0]})
    ensures m.current.Some? ==> Rotated(m, Turn(m), m.current.value, LevelAfter(m, m.current.value))
  {
    TurnOutcome(m);
    NextOutcome(m);
    hide Consistent, Shaped, Turn, Next, Served, LineWith, Untouched;
  }

  lemma ServedScene(s: Sched, m: Sched, b: Sched, h: Sched, line: seq<int>)
    requires Consistent(b) && Served(m, b, line) && SameScene(b, h)
    requires s.switches == m.switches && s.current == m.current
    requires forall t :: 0 <= t < |b.level| && t !in Line(b) ==> h.level[t] == b.level[t]
    ensures Served(s, h, line)
  {
    assert forall t :: t in Line(b) ==> Queued(b, t);
  }

  /** The level to which a thread goes whose slice ends. */
  function LevelAfter(s: Sched, c: int): int
    requires 0 <= c < |s.level|
  {
    if s.mode == RR then 0 else if s.level[c] + 1 > 2 then 2 else s.level[c] + 1
  }

  /** The same when the slice of a running thread ends: it competes as the last of the level below. */
  lemma HighestFirstInTick(s: Sched, now: int)
    requires Consistent(s) && s.mode == MLFQ && s.current.Some? && s.quantum <= 1
    ensures Tick(s, now).current.Some? && Shaped(s)
    ensures var r, c := s.current.value, Tick(s, now).current.value;
            var l := if s.level[r] == 0 then 1 else 2;
            && Known(s, c) && (Queued(s, c) || c == r)
            && (forall t :: Queued(s, t) ==> Known(s, t) && (if c == r then l else s.level[c]) <= s.level[t])
            && (if c == r then l else s.level[c]) <= l
            && (s.q0 != [] ==> c == s.q0[0])
            && (s.q0 == [] && s.q1 != [] ==> c == s.q1[0])
            && (s.q0 == [] && s.q1 == [] && (l == 1 || s.q2 == []) ==> c == r)
            && (s.q0 == [] && s.q1 == [] && l == 2 && s.q2 != [] ==> c == s.q2[0])
  {
    OneMode(s);
    CurrentLevel(s);
    TickOutcome(s, now);
    RunningNotQueued(s);
    hide Tick, Distinct, TableOk, PlacesOk;
  }

  lemma RunningNotQueued(s: Sched)
    requires Consistent(s) && s.current.Some?
    ensures !Queued(s, s.current.value)
  {
  }

  // ----- the other operations

  lemma {:induction false} ExceptAppend(a: seq<int>, b: seq<int>, t: int)
    ensures Except(a + b, t) == Except(a, t) + Except(b, t)
  {
    if a == [] {
      assert a + b == b;
    } else {
      ExceptFirst(a, t);
      ExceptFirst(a + b, t);
      SplitFirst(a, b);
      hide Except;
      ExceptAppend(a[1..], b, t);
      Associate(if a[0] == t then [] else [a[0]], Except(a[1..], t), Except(b, t));
    }
  }

  lemma SplitFirst(a: seq<int>, b: seq<int>)
    requires a != []
    ensures a + b != [] && (a + b)[0] == a[0] && (a + b)[1..] == a[1..] + b
  {
  }

  lemma Associate(a: seq<int>, b: seq<int>, c: seq<int>)
    ensures a + (b + c) == (a + b) + c
  {
  }

  lemma ExceptFirst(q: seq<int>, t: int)
    requires q != []
    ensures Except(q, t) == (if q[0] == t then [] else [q[0]]) + Except(q[1..], t)
  {
  }

  lemma {:induction false} ExceptAbsent(q: seq<int>, t: int)
    requires t !in q
    ensures Except(q, t) == q
  {
    if q != [] {
      ExceptAbsent(q[1..], t);
    }
  }

  lemma DropIsExcept(q: seq<int>, t: int)
    requires Distinct(q)
    ensures Drop(q, t) == Except(q, t)
  {
    hide Distinct, Except;
    if t in q {
      var k := PositionOf(q, t);
      OnlyOnce(q, k);
      ExceptAround(q[..k], t, q[k + 1..]);
    } else {
      ExceptAbsent(q, t);
    }
  }

  lemma OnlyOnce(q: seq<int>, k: nat)
    requires Distinct(q) && k < |q|
    ensures q[k] !in q[..k] && q[k] !in q[k + 1..] && q == q[..k] + [q[k]] + q[k + 1..]
  {
  }

  lemma ExceptAround(a: seq<int>, t: int, b: seq<int>)
    requires t !in a && t !in b
    ensures Except(a + [t] + b, t) == a + b
  {
    hide Except;
    ExceptAppend(a + [t], b, t);
    ExceptAppend(a, [t], t);
    ExceptAbsent(a, t);
    ExceptAbsent(b, t);
    ExceptOnly(t);
    assert a + [] == a;
  }

  lemma ExceptOnly(t: int)
    ensures Except([t], t) == []
  {
  }

  lemma ExceptLine(s: Sched, t: int)
    ensures Except(Line(s), t) == Except(s.rr, t) + Except(s.q0, t) + Except(s.q1, t) + Except(s.q2, t)
  {
    ExceptAppend(s.rr + s.q0 + s.q1, s.q2, t);
    ExceptAppend(s.rr + s.q0, s.q1, t);
    ExceptAppend(s.rr, s.q0, t);
  }

  /** Taking a thread out of its queue. */
  lemma DequeueOutcome(s: Sched, t: int)
    requires Consistent(s)
    ensures var h := Dequeue(s, t);
            && Line(h) == Except(Line(s), t)
            && h == s.(rr := h.rr, q0 := h.q0, q1 := h.q1, q2 := h.q2)
  {
    ExceptLine(s, t);
    DropIsExcept(s.rr, t);
    DropIsExcept(s.q0, t);
    DropIsExcept(s.q1, t);
    DropIsExcept(s.q2, t);
    if t !in s.q0 { ExceptAbsent(s.q0, t); }
    if t !in s.q1 { ExceptAbsent(s.q1, t); }
    if t !in s.q2 { ExceptAbsent(s.q2, t); }
    AtOneLevel(s, t);
    hide Consistent, Drop, Except;
  }

  lemma AtOneLevel(s: Sched, t: int)
    requires Consistent(s)
    ensures Distinct(s.rr) && Distinct(s.q0) && Distinct(s.q1) && Distinct(s.q2)
    ensures t in s.q0 ==> t !in s.q1 && t !in s.q2
    ensures t in s.q1 ==> t !in s.q2
    ensures s.mode == RR ==> s.q0 == [] && s.q1 == [] && s.q2 == []
    ensures s.mode == MLFQ ==> s.rr == []
  {
  }

  /** scheduler_terminate: the thread is done and in no queue; it does not run, and nobody takes its place
      yet. */
  lemma TerminateOutcome(s: Sched, t: int)
    requires Consistent(s) && Known(s, t)
    ensures var h := Terminate(s, t);
            && h.st == s.st[t := Done] && Line(h) == Except(Line(s), t)
            && h.current == (if s.current == Some(t) then None else s.current)
            && h.quantum == s.quantum && h.switches == s.switches && Untouched(s, h)
  {
    DequeueOutcome(s, t);
    var d := Dequeue(s, t);
    assert Dequeue(StopCurrent(s, t), t) == d.(current := if s.current == Some(t) then None else s.current);
    hide Consistent, Except;
  }

  /** block_thread: a running thread gives way to the first of the line, and does not enter it; one that
      waits leaves the line. */
  lemma BlockOutcome(s: Sched, t: int)
    requires Consistent(s) && Known(s, t)
    ensures var h := BlockThread(s, t);
            && Untouched(s, h)
            && (s.st[t] == Blocked ==> h == s)
            && (s.st[t] != Blocked && s.current != Some(t) ==>
                  && h.st == s.st[t := Blocked] && Line(h) == Except(Line(s), t)
                  && h.current == s.current && h.quantum == s.quantum && h.switches == s.switches)
            && (s.current == Some(t) && Line(s) == [] ==>
                  && h.st == s.st[t := Blocked] && Line(h) == [] && h.current == None
                  && h.switches == s.switches)
            && (s.current == Some(t) && Line(s) != [] ==>
                  Served(s, h, Line(s)) && StatesBut(s, h, {t, Line(s)[0]}) && h.st[t] == Blocked)
  {
    ConsistentBasics(s);
    if s.st[t] == Blocked {
      BlockedIsOff(s, t);
    } else if s.current == Some(t) {
      BlockCurrentOutcome(s, t);
    } else {
      DequeueOutcome(s, t);
      var b := s.(st := s.st[t := Blocked]);
      assert Dequeue(b, t) == Dequeue(s, t).(st := b.st);
      hide Consistent, Except, Dequeue, Next, Shaped;
    }
  }

  lemma BlockedIsOff(s: Sched, t: int)
    requires Consistent(s) && Known(s, t) && s.st[t] == Blocked
    ensures s.current != Some(t) && !Queued(s, t)
  {
  }

  /** The running thread t is blocked and nobody runs yet. */
  function Halted(s: Sched, t: int): Sched
    requires Known(s, t)
  {
    s.(current := None, st := s.st[t := Blocked])
  }

  lemma BlockIsNext(s: Sched, t: int)
    requires Consistent(s) && Known(s, t) && s.current == Some(t)
    ensures s.st[t] == Running && t !in Line(s) && Consistent(Halted(s, t)) && Line(Halted(s, t)) == Line(s)
    ensures BlockThread(s, t) == Next(Halted(s, t))
  {
    ParkKeeps(s);
    CurrentLevel(s);
    RestKeeps(s.(current := None), t, Blocked);
    assert s.mode == MLFQ ==> s.level[t := s.currentQueue] == s.level;
    assert forall x :: x in Line(s) ==> Queued(s, x);
    hide Next;
  }

  lemma BlockCurrentOutcome(s: Sched, t: int)
    requires Consistent(s) && Known(s, t) && s.current == Some(t)
    ensures var h := BlockThread(s, t);
            && s.st[t] == Running && Untouched(s, h)
            && (Line(s) == [] ==> h == Halted(s, t))
            && (Line(s) != [] ==>
                  Served(s, h, Line(s)) && StatesBut(s, h, {t, Line(s)[0]}) && h.st[t] == Blocked)
  {
    hide Consistent, Next, BlockThread, Line, LineWith, Served, Rotated;
    ConsistentBasics(s);
    BlockIsNext(s, t);
    ConsistentBasics(Halted(s, t));
    NextOutcome(Halted(s, t));
    assert Line(s) != [] ==> Line(s)[0] in Line(s);
    if Served(Halted(s, t), BlockThread(s, t), Line(s)) {
      ServedAfterHalt(s, t, BlockThread(s, t));
    }
  }

  lemma ServedAfterHalt(s: Sched, t: int, h: Sched)
    requires Known(s, t) && s.current == Some(t) && t !in Line(s) && Served(Halted(s, t), h, Line(s))
    ensures Served(s, h, Line(s))
  {
    assert Line(s)[0] in Line(s);
  }

  /** scheduler_add of a thread that does not wait yet: it is ready, and last of its queue; the first time,
      CRITICAL and HIGH go to the top queue, NORMAL to the middle one and LOW to the bottom one. */
  lemma AddOutcome(s: Sched, t: int)
    requires Consistent(s) && Known(s, t) && s.current != Some(t)
    ensures Shaped(s) && (Queued(s, t) ==> Add(s, t) == s)
    ensures !Queued(s, t) ==>
              var h := Add(s, t);
              && Entry(s, h, t) && h.st == s.st[t := Ready]
              && h.table == (if t in s.table then s.table else s.table + [t])
  {
    ConsistentBasics(s);
    if Queued(s, t) {
      QueuedAtLevel(s, t);
    } else {
      NotQueuedIsLoose(s, t);
      AddFromLoose(s, t);
      hide Consistent, ConsistentBut, Shaped, Add;
    }
  }

  lemma QueuedAtLevel(s: Sched, t: int)
    requires Consistent(s) && Queued(s, t)
    ensures s.mode == RR ==> t in s.rr
    ensures s.mode == MLFQ ==> Known(s, t) && t in Queue(s, LevelFor(s, t))
  {
  }

  /** t stands at the end of its queue, and nothing else is different but its state and the thread table. */
  ghost predicate Entry(s: Sched, h: Sched, t: int) {
    && 0 <= t < |s.level| == |s.prio|
    && h.current == s.current && h.quantum == s.quantum && h.switches == s.switches
    && h.lastBoost == s.lastBoost && h.boosts == s.boosts && h.currentQueue == s.currentQueue
    && (if s.mode == RR then
          h.rr == s.rr + [t] && h.q0 == s.q0 && h.q1 == s.q1 && h.q2 == s.q2 && h.level == s.level
        else
          var l := if s.level[t] >= 0 then s.level[t]
                   else if s.prio[t] == CRITICAL || s.prio[t] == HIGH then 0
                   else if s.prio[t] == NORMAL then 1 else 2;
          && h.rr == s.rr && h.level == s.level[t := l]
          && h.q0 == (if l == 0 then s.q0 + [t] else s.q0)
          && h.q1 == (if l == 1 then s.q1 + [t] else s.q1)
          && h.q2 == (if l == 2 then s.q2 + [t] else s.q2))
  }

  /** unblock_thread: the same. */
  lemma UnblockOutcome(s: Sched, t: int)
    requires Consistent(s) && Known(s, t) && s.current != Some(t)
    ensures Shaped(s) && (Queued(s, t) ==> UnblockThread(s, t) == s)
    ensures !Queued(s, t) ==>
              var h := UnblockThread(s, t);
              && Entry(s, h, t) && h.st == s.st[t := Ready]
              && h.table == (if t in s.table then s.table else s.table + [t])
  {
    hide Consistent, ConsistentBut, Shaped, Add;
    ConsistentBasics(s);
    if s.st[t] == Blocked {
      BlockedIsOff(s, t);
      NotQueuedIsLoose(s, t);
      LooseState(s, t, Ready);
      AddFromLoose(s.(st := s.st[t := Ready]), t);
    } else {
      AddOutcome(s, t);
    }
  }

  lemma AddFromLoose(s: Sched, t: int)
    requires ConsistentBut(s, {t}) && Known(s, t)
    ensures var h := Add(s, t);
            && !Queued(s, t) && Entry(s, h, t) && h.st == s.st[t := Ready]
            && h.table == (if t in s.table then s.table else s.table + [t])
  {
    RegisterKeeps(s, t);
    if s.mode == RR {
      Room(s, s.rr, t);
      hide QueuesOk, CurrentOk, TableOk, Shaped;
    } else {
      AddQueueOutcome(s, t);
      hide QueuesOk, CurrentOk, TableOk, Shaped, AddMLFQ;
    }
  }

  lemma AddQueueOutcome(s: Sched, t: int)
    requires ConsistentBut(s, {t}) && Known(s, t) && s.mode == MLFQ && Shaped(s)
    requires t !in s.table ==> |s.table| < s.cap
    ensures var h := AddMLFQ(s, t);
            && Entry(s, h, t) && h.st == s.st[t := Ready]
            && h.table == (if t in s.table then s.table else s.table + [t])
  {
    Room(s, Queue(s, LevelFor(s, t)), t);
    hide QueuesOk, CurrentOk, TableOk, Shaped;
  }

  /** scheduler_init: nobody waits or runs, and the first slice is 4 ticks, or 2 under the feedback queues. */
  lemma InitOutcome(mode: Mode, cap: nat, prio: seq<Priority>)
    ensures var s := Init(mode, cap, prio);
            && Line(s) == [] && s.current == None && s.table == [] && |s.st| == |s.level| == |prio|
            && s.quantum == (if mode == RR then 4 else 2) && s.switches == 0 && s.boosts == 0 && s.lastBoost == 0
            && forall t :: 0 <= t < |prio| ==> s.st[t] == Ready && s.level[t] == -1
  {
  }

  /** Blocking the running thread dispatches the first of the highest queue that is not empty. */
  lemma HighestFirstInBlock(s: Sched, t: int)
    requires Consistent(s) && s.mode == MLFQ && s.current == Some(t) && (s.q0 != [] || s.q1 != [] || s.q2 != [])
    ensures Known(s, t) && Shaped(s) && BlockThread(s, t).current.Some?
    ensures var c := BlockThread(s, t).current.value;
            && Queued(s, c) && Known(s, c) && (forall x :: Queued(s, x) ==> Known(s, x) && s.level[c] <= s.level[x])
            && c == (if s.q0 != [] then s.q0[0] else if s.q1 != [] then s.q1[0] else s.q2[0])
  {
    OneMode(s);
    CurrentLevel(s);
    BlockOutcome(s, t);
    hide BlockThread, Distinct, TableOk, PlacesOk;
  }
}
