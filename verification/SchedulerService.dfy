/** Whole runs of the scheduler: how long a dispatched thread runs, and what is counted as a switch. */
module SchedulerService {
  import opened Common
  import opened SchedulerRules
  import opened SchedulerProofs
  import opened SchedulerOutcomes
  import opened SchedulerRuns

  // ----- the switch counter

  /** Another thread runs after the step than before it. */
  predicate Switched(c: System, d: System) {
    d.s.current.Some? && d.s.current != c.s.current
  }

  lemma ServedCounts(s: Sched, h: Sched, line: seq<int>)
    requires Served(s, h, line)
    ensures h.switches == s.switches + (if h.current.Some? && h.current != s.current then 1 else 0)
  {
  }

  /** Every operation adds one to the counter exactly if it makes another thread run. */
  lemma StepSwitches(c: System, op: Op)
    requires Consistent(c.s) && Legal(c, op)
    ensures var d := Step(c, op); d.s.switches == c.s.switches + (if Switched(c, d) then 1 else 0)
  {
    ConsistentBasics(c.s);
    var h := Step(c, op).s;
    forall line | Served(c.s, h, line)
      ensures h.switches == c.s.switches + (if Switched(c, Step(c, op)) then 1 else 0)
    {
      ServedCounts(c.s, h, line);
    }
    hide Consistent, Shaped, Served, StatesBut, Tick, Next, BlockThread, Terminate, UnblockThread, Add, Line, LineWith;
    match op
    case AddOp(t) => AddOutcome(c.s, t);
    case UnblockOp(t) => UnblockOutcome(c.s, t);
    case BlockOp(t) => BlockOutcome(c.s, t);
    case TerminateOp(t) => TerminateOutcome(c.s, t);
    case NextOp => NextOutcome(c.s);
    case TickOp => TickOutcome(c.s, c.now);
  }

  /** How many of the first k steps made another thread run. */
  function Switches(cs: seq<System>, k: nat): nat
    requires k < |cs|
  {
    if k == 0 then 0 else Switches(cs, k - 1) + (if Switched(cs[k - 1], cs[k]) then 1 else 0)
  }

  /** Over every run the counter counts the steps that made another thread run. */
  lemma {:induction false} SwitchCount(cs: seq<System>, ops: seq<Op>, i: nat)
    requires Run(cs, ops) && i < |cs|
    ensures cs[i].s.switches == cs[0].s.switches + Switches(cs, i)
  {
    if i > 0 {
      SwitchCount(cs, ops, i - 1);
      RunKeeps(cs, ops, i - 1);
      assert Linked(cs[i - 1], ops[i - 1], cs[i]);
      ConsistentBasics(cs[i - 1].s);
      hide Consistent, Shaped, Legal, Step, Switched;
      StepSwitches(cs[i - 1], ops[i - 1]);
    }
  }

  // ----- how long a thread runs

  /** The step does not take the processor from the running thread t, unless it is a tick that ends its
      slice. */
  predicate LeavesRunning(op: Op, t: int) {
    op != NextOp && op != BlockOp(t) && op != TerminateOp(t)
  }

  /** Whoever begins to run has a full slice. */
  lemma DispatchSlice(c: System, op: Op, t: int)
    requires Consistent(c.s) && Legal(c, op) && c.s.current != Some(t) && Step(c, op).s.current == Some(t)
    ensures var h := Step(c, op).s;
            Known(h, t) && |h.level| == |h.st| && h.quantum == Slice(h.mode, h.level[t])
  {
    ConsistentBasics(c.s);
    var h := Step(c, op).s;
    forall line | Served(c.s, h, line)
      ensures Known(h, t) && |h.level| == |h.st| && h.quantum == Slice(h.mode, h.level[t])
    {
    }
    hide Consistent, Shaped, Served, Slice, StatesBut, Line, LineWith;
    hide Tick, Next, BlockThread, Terminate, UnblockThread, Add;
    match op
    case AddOp(x) => AddOutcome(c.s, x);
    case UnblockOp(x) => UnblockOutcome(c.s, x);
    case BlockOp(x) => BlockOutcome(c.s, x);
    case TerminateOp(x) => TerminateOutcome(c.s, x);
    case NextOp => NextOutcome(c.s);
    case TickOp => TickOutcome(c.s, c.now);
  }

  /** One step of a running thread that is left alone. */
  lemma StepRunsOn(c: System, op: Op, t: int)
    requires Consistent(c.s) && Legal(c, op) && c.s.current == Some(t) && LeavesRunning(op, t)
    requires op == TickOp ==> c.s.quantum > 1
    ensures var h := Step(c, op).s;
            h.current == Some(t) && h.quantum == c.s.quantum - (if op == TickOp then 1 else 0)
  {
    ConsistentBasics(c.s);
    hide Consistent, Shaped, Served, Rotated, StatesBut, Tick, Next, BlockThread, Terminate, UnblockThread, Add, Line;
    match op
    case AddOp(x) => AddOutcome(c.s, x);
    case UnblockOp(x) => UnblockOutcome(c.s, x);
    case BlockOp(x) => BlockOutcome(c.s, x);
    case TerminateOp(x) => TerminateOutcome(c.s, x);
    case TickOp => TickOutcome(c.s, c.now);
  }

  lemma StepKeepsLevel(c: System, op: Op, t: int)
    requires Consistent(c.s) && Legal(c, op) && c.s.current == Some(t) && LeavesRunning(op, t)
    requires op == TickOp ==> c.s.quantum > 1
    ensures Known(c.s, t) && |c.s.level| == |c.s.st| && Step(c, op).s.level[t] == c.s.level[t]
  {
    CurrentLevel(c.s);
    StepRunsOn(c, op, t);
    StepKeeps(c, op);
    if op == TickOp {
      TickLevels(c.s, c.now, t);
    } else {
      OtherLevels(c, op, t);
    }
  }

  /** Over every run: a thread that runs after a steps, with its slice not used up by the ticks since then,
      still runs, unless it was blocked or terminated or another dispatch was asked for. */
  lemma {:induction false} RunsOn(cs: seq<System>, ops: seq<Op>, a: nat, i: nat, t: int)
    requires Run(cs, ops) && a <= i < |cs| && cs[a].s.current == Some(t)
    requires forall j :: a <= j < i ==> LeavesRunning(ops[j], t)
    requires i == a || Ticks(ops[a..i]) < cs[a].s.quantum
    ensures Consistent(cs[a].s) && Consistent(cs[i].s) && Known(cs[a].s, t) && Known(cs[i].s, t)
    ensures cs[i].s.current == Some(t) && cs[i].s.quantum == cs[a].s.quantum - Ticks(ops[a..i])
    ensures cs[i].s.level[t] == cs[a].s.level[t] && cs[i].s.mode == cs[a].s.mode
    decreases i
  {
    hide Consistent, Linked, Ticks, LeavesRunning;
    RunKeeps(cs, ops, a);
    RunKeeps(cs, ops, i);
    CurrentLevel(cs[a].s);
    TicksBetween(ops, a, i);
    if i > a {
      RunsOn(cs, ops, a, i - 1, t);
      RunLink(cs[i - 1], ops[i - 1], cs[i], t);
    }
  }

  lemma TicksBetween(ops: seq<Op>, a: nat, i: nat)
    requires a <= i <= |ops|
    ensures i == a ==> Ticks(ops[a..i]) == 0
    ensures i > a ==> Ticks(ops[a..i]) == Ticks(ops[a..i - 1]) + (if ops[i - 1] == TickOp then 1 else 0)
  {
    if i > a {
      assert ops[a..i][..i - a - 1] == ops[a..i - 1];
    }
  }

  lemma RunLink(c: System, op: Op, d: System, t: int)
    requires Consistent(c.s) && Linked(c, op, d) && c.s.current == Some(t) && LeavesRunning(op, t)
    requires op == TickOp ==> c.s.quantum > 1
    ensures d.s.current == Some(t) && d.s.quantum == c.s.quantum - (if op == TickOp then 1 else 0)
    ensures Known(c.s, t) && Known(d.s, t) && |d.s.level| == |d.s.st| && |c.s.level| == |c.s.st|
    ensures d.s.level[t] == c.s.level[t] && d.s.mode == c.s.mode
  {
    ConsistentBasics(c.s);
    StepKeeps(c, op);
    StepRunsOn(c, op, t);
    StepKeepsLevel(c, op, t);
    ModeKept(c, op);
    CurrentLevel(d.s);
  }

  /** Over every run: a thread that begins to run in step a and is left alone runs for 4 ticks in round robin,
      and for 2, 4 or 8 ticks under the feedback queues, depending on its level: until then it is current;
      the last of these ticks puts it behind those who wait at its new level or above. */
  lemma FullSlice(cs: seq<System>, ops: seq<Op>, a: nat, i: nat, t: int)
    requires Run(cs, ops) && a < i < |cs|
    requires cs[a].s.current != Some(t) && cs[a + 1].s.current == Some(t)
    requires forall j :: a < j < i ==> LeavesRunning(ops[j], t)
    requires Known(cs[a + 1].s, t) && |cs[a + 1].s.level| == |cs[a + 1].s.st|
    requires var slice := if cs[a + 1].s.mode == RR then 4
                          else if cs[a + 1].s.level[t] == 0 then 2
                          else if cs[a + 1].s.level[t] == 1 then 4 else 8;
             Ticks(ops[a + 1..i]) < slice
    ensures cs[i].s.current == Some(t) && Known(cs[i].s, t) && |cs[i].s.level| == |cs[i].s.st|
    ensures var slice := if cs[a + 1].s.mode == RR then 4
                         else if cs[a + 1].s.level[t] == 0 then 2
                         else if cs[a + 1].s.level[t] == 1 then 4 else 8;
            i < |ops| && ops[i] == TickOp && Ticks(ops[a + 1..i]) == slice - 1 ==> SliceEnds(cs[i].s, cs[i + 1].s, t)
  {
    RunKeeps(cs, ops, a);
    assert Linked(cs[a], ops[a], cs[a + 1]);
    ConsistentBasics(cs[a].s);
    DispatchSlice(cs[a], ops[a], t);
    hide Consistent, Shaped, Legal, Step;
    RunsOn(cs, ops, a + 1, i, t);
    CurrentLevel(cs[i].s);
    if i < |ops| && ops[i] == TickOp && cs[i].s.quantum == 1 {
      assert Linked(cs[i], ops[i], cs[i + 1]);
      LastTick(cs[i], cs[i + 1], t);
    }
  }

  /** The thread t, whose slice ends, goes on running only if nobody waits at its new level or above; else
      it waits, and the first of the line runs. */
  ghost predicate SliceEnds(s: Sched, h: Sched, t: int)
    requires 0 <= t < |s.level|
  {
    && |h.level| == |s.level|
    && (s.mode == RR && Line(s) == [] ==> h.current == Some(t))
    && (s.mode == RR && Line(s) != [] ==> h.current == Some(Line(s)[0]) && Line(h) == Line(s)[1..] + [t])
    && (s.mode == MLFQ ==>
          var l := if s.level[t] == 0 then 1 else 2;
          && (h.current == Some(t) <==> s.q0 == [] && s.q1 == [] && (l == 1 || s.q2 == []))
          && (h.current != Some(t) ==>
                h.current == Some(if s.q0 != [] then s.q0[0] else if s.q1 != [] then s.q1[0] else s.q2[0])))
  }

  lemma LastTick(c: System, d: System, t: int)
    requires Consistent(c.s) && Linked(c, TickOp, d) && c.s.current == Some(t) && c.s.quantum == 1
    requires Known(c.s, t) && |c.s.level| == |c.s.st|
    ensures SliceEnds(c.s, d.s, t)
  {
    ConsistentBasics(c.s);
    StepKeeps(c, TickOp);
    hide Consistent, Shaped, Tick;
    if c.s.mode == MLFQ {
      LastTickQueues(c.s, c.now, t);
    } else {
      LastTickRing(c.s, c.now, t);
    }
  }

  lemma LastTickQueues(s: Sched, now: nat, t: int)
    requires Consistent(s) && s.current == Some(t) && s.quantum == 1 && s.mode == MLFQ
    requires Known(s, t) && |s.level| == |s.st|
    ensures SliceEnds(s, Tick(s, now), t)
  {
    ConsistentBasics(s);
    RunningNotQueued(s);
    HighestFirstInTick(s, now);
    hide Consistent, Shaped, Tick;
  }

  lemma LastTickRing(s: Sched, now: nat, t: int)
    requires Consistent(s) && s.current == Some(t) && s.quantum == 1 && s.mode == RR
    requires Known(s, t) && |s.level| == |s.st|
    ensures SliceEnds(s, Tick(s, now), t)
  {
    OneMode(s);
    TickOutcome(s, now);
    hide Consistent, Tick, StatesBut;
    if Line(s) != [] {
      assert LineWith(s, t, 0) == Line(s) + [t];
    }
  }
}
