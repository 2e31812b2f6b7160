/** The pool in time: a slot is one unit of its capacity. A cell starts as soon as a slot is free, and time passes only
    when all slots are busy or no cell is left; so every timed run is a greedy schedule. */
module Timing {
  import opened Wrappers
  import opened Schedule
  import Config
  import Pool
  import RunLoop
  import Service

  /** The clock, the number of jobs started, and per slot the end of the job it runs. */
  datatype State = State(clock: real, next: nat, ends: seq<Option<real>>)

  datatype Step = Begin | End(slot: nat)

  /** Job `k` starts on slot `f[k]`. */
  ghost predicate Next(d: seq<real>, p: nat, f: seq<nat>, s: State, step: Step, t: State)
    requires |f| == |d| && |s.ends| == p
  {
    match step
    case Begin =>
      && s.next < |d| && f[s.next] < p && s.ends[f[s.next]].None?
      && t == s.(ends := s.ends[f[s.next] := Some(s.clock + d[s.next])], next := s.next + 1)
    case End(q) =>
      && q < p && s.ends[q].Some?
      && (s.next < |d| ==> forall r :: 0 <= r < p ==> s.ends[r].Some?)
      && (forall r :: 0 <= r < p && s.ends[r].Some? ==> s.ends[q].value <= s.ends[r].value)
      && t == s.(clock := s.ends[q].value, ends := s.ends[q := None])
  }

  ghost predicate Run(d: seq<real>, p: nat, f: seq<nat>, states: seq<State>, steps: seq<Step>)
    requires |f| == |d|
  {
    && |states| == |steps| + 1 && states[0] == State(0.0, 0, seq(p, _ => None))
    && (forall k :: 0 <= k < |states| ==> |states[k].ends| == p)
    && (forall k :: 0 <= k < |steps| ==> Next(d, p, f, states[k], steps[k], states[k + 1]))
  }

  predicate Over(d: seq<real>, s: State) {
    s.next == |d| && forall q :: 0 <= q < |s.ends| ==> s.ends[q].None?
  }

  function Busy(ends: seq<Option<real>>): nat {
    if ends == [] then 0 else Busy(ends[..|ends| - 1]) + if ends[|ends| - 1].Some? then 1 else 0
  }

  /** Some slot is free exactly when fewer jobs are in flight than there are slots. */
  lemma {:induction false} FreeSlot(ends: seq<Option<real>>)
    ensures (exists q :: 0 <= q < |ends| && ends[q].None?) <==> Busy(ends) < |ends|
    ensures Busy(ends) <= |ends|
  {
    if ends != [] {
      var front := ends[..|ends| - 1];
      FreeSlot(front);
      if q :| 0 <= q < |front| && front[q].None? {
        assert ends[q].None?;
      }
      if q :| 0 <= q < |ends| && ends[q].None? && q < |front| {
        assert front[q].None?;
      }
    }
  }

  // ---- What holds along a run -----------------------------------------------

  /** Some job of those started ends at `e`. */
  ghost predicate EndOf(d: seq<real>, f: seq<nat>, n: nat, e: real)
    requires |f| == |d|
  {
    exists j: nat :: j < n && j < |d| && FinishAt(d, f, j) == e
  }

  /** A slot's load is the end of its job, or at most the clock; while cells are left a free slot was freed just now. */
  ghost predicate SlotOk(d: seq<real>, f: seq<nat>, s: State, q: nat)
    requires |f| == |d| && s.next <= |d| && q < |s.ends|
  {
    var load := Load(d, f, s.next, q);
    match s.ends[q]
    case Some(e) => load == e && e >= s.clock && EndOf(d, f, s.next, e)
    case None => load <= s.clock && (s.next < |d| ==> load == s.clock)
  }

  ghost predicate LeastAt(d: seq<real>, p: nat, f: seq<nat>, k: nat)
    requires |f| == |d| && k < |d|
  {
    f[k] < p && forall q: nat :: q < p ==> Load(d, f, k, f[k]) <= Load(d, f, k, q)
  }

  ghost predicate Inv(d: seq<real>, p: nat, f: seq<nat>, s: State)
    requires |f| == |d|
  {
    && |s.ends| == p && s.next <= |d|
    && (forall q: nat :: q < p ==> SlotOk(d, f, s, q))
    && (forall k: nat :: k < s.next ==> LeastAt(d, p, f, k))
  }

  lemma BeginKeeps(d: seq<real>, p: nat, f: seq<nat>, s: State, t: State)
    requires |f| == |d| && Durations(d) && Inv(d, p, f, s) && Next(d, p, f, s, Begin, t)
    ensures Inv(d, p, f, t)
  {
    var k := s.next;
    assert SlotOk(d, f, s, f[k]);
    forall q: nat | q < p ensures Load(d, f, k, f[k]) <= Load(d, f, k, q) {
      assert SlotOk(d, f, s, q);
    }
    assert LeastAt(d, p, f, k);
    forall q: nat | q < p ensures SlotOk(d, f, t, q) {
      assert SlotOk(d, f, s, q);
      if q == f[k] {
        assert FinishAt(d, f, k) == s.clock + d[k];
        assert EndOf(d, f, t.next, s.clock + d[k]);
      } else if s.ends[q].Some? {
        EndLater(d, f, s.next, s.ends[q].value);
      }
    }
  }

  lemma EndLater(d: seq<real>, f: seq<nat>, n: nat, e: real)
    requires |f| == |d| && EndOf(d, f, n, e)
    ensures EndOf(d, f, n + 1, e)
  {
    var j: nat :| j < n && j < |d| && FinishAt(d, f, j) == e;
    assert j < n + 1;
  }

  lemma EndKeeps(d: seq<real>, p: nat, f: seq<nat>, s: State, t: State, q: nat)
    requires |f| == |d| && Inv(d, p, f, s) && Next(d, p, f, s, End(q), t)
    ensures Inv(d, p, f, t) && EndOf(d, f, t.next, t.clock)
  {
    assert SlotOk(d, f, s, q);
    forall r: nat | r < p ensures SlotOk(d, f, t, r) {
      assert SlotOk(d, f, s, r);
    }
  }

  lemma {:induction false} InvAlways(d: seq<real>, p: nat, f: seq<nat>, states: seq<State>, steps: seq<Step>, k: nat)
    requires |f| == |d| && Durations(d) && Run(d, p, f, states, steps) && k < |states|
    ensures Inv(d, p, f, states[k])
    ensures k > 0 && steps[k - 1].End? ==> EndOf(d, f, states[k].next, states[k].clock)
    decreases k
  {
    if k > 0 {
      InvAlways(d, p, f, states, steps, k - 1);
      assert Next(d, p, f, states[k - 1], steps[k - 1], states[k - 1 + 1]);
      match steps[k - 1]
      case Begin => BeginKeeps(d, p, f, states[k - 1], states[k]);
      case End(q) => EndKeeps(d, p, f, states[k - 1], states[k], q);
    }
  }

  // ---- Every timed run is greedy --------------------------------------------

  /** A start leaves a slot busy, so a run ends with an end. */
  lemma LastStep(d: seq<real>, p: nat, f: seq<nat>, s: State, step: Step, t: State)
    requires |f| == |d| && |s.ends| == p && Next(d, p, f, s, step, t)
    ensures Over(d, t) ==> step.End?
  {
    if step.Begin? {
      assert t.ends[f[s.next]].Some?;
    }
  }

  /** A run that is over placed its jobs greedily, and its clock shows the end of the job it waited for. */
  lemma RunIsGreedy(d: seq<real>, p: nat, f: seq<nat>, states: seq<State>, steps: seq<Step>) returns (j: nat)
    requires |f| == |d| > 0 && Durations(d) && Run(d, p, f, states, steps) && Over(d, states[|steps|])
    ensures Greedy(d, p, f) && WaitsFor(d, f, j, states[|steps|].clock)
  {
    var (n, s) := (|steps|, states[|steps|]);
    InvAlways(d, p, f, states, steps, n);
    if n > 0 {
      LastStep(d, p, f, states[n - 1], steps[n - 1], states[n - 1 + 1]);
    }
    assert EndOf(d, f, s.next, s.clock);
    j :| j < s.next && j < |d| && FinishAt(d, f, j) == s.clock;
    forall k: nat, q: nat {:trigger Load(d, f, k, q)} | k < |d| && q < p ensures Load(d, f, k, f[k]) <= Load(d, f, k, q) {
      assert LeastAt(d, p, f, k);
    }
    forall k | 0 <= k < |d| ensures f[k] < p && FinishAt(d, f, k) <= s.clock {
      assert LeastAt(d, p, f, k);
      assert SlotOk(d, f, s, f[k]);
      LoadGrows(d, f, k + 1, |d|, f[k]);
    }
  }

  /** A timed run of the cells' own order ends within 4/3 - 1/(3p) of any schedule of them, whenever they take as long
      as estimated. */
  lemma TimedRunBound(cells: seq<Config.Cell>, profile: Config.Profile, d: seq<real>, p: nat, f: seq<nat>,
                      states: seq<State>, steps: seq<Step>, g: seq<nat>, best: real)
    requires cells != [] && forall i :: 0 <= i < |cells| ==> cells[i].memoryMb > 0
    requires |f| == |d| == |LongestFirst(cells, profile)|
    requires forall k :: 0 <= k < |d| ==> d[k] == Estimate(profile)(LongestFirst(cells, profile)[k])
    requires Run(d, p, f, states, steps) && Over(d, states[|steps|]) && p > 0 && Fits(d, p, g, best)
    ensures 3.0 * p as real * states[|steps|].clock <= (4 * p - 1) as real * best
  {
    var m := states[|steps|].clock;
    hide Greedy, WaitsFor, Run, Over, Fits;
    var ordered := LongestFirst(cells, profile);
    SameCells(cells, profile);
    assert Durations(d);
    assert |ordered| > 0 by {
      assert |multiset(ordered)| == |multiset(cells)|;
    }
    var j := RunIsGreedy(d, p, f, states, steps);
    RunOrderBound(cells, profile, d, p, f, j, m, g, best);
  }

  // ---- Timed runs and runs of the pool --------------------------------------

  /** Whether a step starts a cell (`true`) or ends one (`false`), or neither. A failure has no counterpart in time. */
  function Turn(step: Pool.Step): seq<bool> {
    match step
    case Start => [true]
    case Finish(_, _) => [false]
    case _ => []
  }

  function Turns(steps: seq<Pool.Step>): seq<bool> {
    if steps == [] then [] else Turns(steps[..|steps| - 1]) + Turn(steps[|steps| - 1])
  }

  function TimedTurns(steps: seq<Step>): seq<bool> {
    if steps == [] then [] else TimedTurns(steps[..|steps| - 1]) + [steps[|steps| - 1].Begin?]
  }

  function Starts(turns: seq<bool>): (n: nat)
    ensures n <= |turns|
  {
    if turns == [] then 0 else Starts(turns[..|turns| - 1]) + if turns[|turns| - 1] then 1 else 0
  }

  /** After `turns`, `next` cells have started and `n` of them are in flight. */
  predicate Occupied(turns: seq<bool>, next: nat, n: int) {
    next == Starts(turns) && n + |turns| == 2 * next
  }

  lemma OccupiedPush(turns: seq<bool>, next: nat, n: int, start: bool)
    requires Occupied(turns, next, n)
    ensures if start then Occupied(turns + [start], next + 1, n + 1) else Occupied(turns + [start], next, n - 1)
  {
    assert (turns + [start])[..|turns|] == turns;
  }

  lemma LastTurn(steps: seq<Pool.Step>, k: nat)
    requires k < |steps|
    ensures Turns(steps[..k + 1]) == Turns(steps[..k]) + Turn(steps[k])
  {
    assert steps[..k + 1][..k] == steps[..k];
  }

  lemma LastTimedTurn(steps: seq<Step>, k: nat)
    requires k < |steps|
    ensures TimedTurns(steps[..k + 1]) == TimedTurns(steps[..k]) + [steps[k].Begin?]
  {
    assert steps[..k + 1][..k] == steps[..k];
  }

  lemma {:induction false} BusySet(ends: seq<Option<real>>, q: nat, e: Option<real>)
    requires q < |ends|
    ensures Busy(ends[q := e]) == Busy(ends) - (if ends[q].Some? then 1 else 0) + (if e.Some? then 1 else 0)
    decreases |ends|
  {
    var n := |ends| - 1;
    if q < n {
      BusySet(ends[..n], q, e);
      assert ends[q := e][..n] == ends[..n][q := e];
    } else {
      assert ends[q := e][..n] == ends[..n];
    }
  }

  lemma {:induction false} NoneBusy(ends: seq<Option<real>>)
    requires forall q :: 0 <= q < |ends| ==> ends[q].None?
    ensures Busy(ends) == 0
  {
    if ends != [] {
      NoneBusy(ends[..|ends| - 1]);
    }
  }

  lemma TimedTurn(d: seq<real>, p: nat, f: seq<nat>, s: State, step: Step, t: State)
    requires |f| == |d| && |s.ends| == p && Next(d, p, f, s, step, t)
    ensures if step.Begin? then t.next == s.next + 1 && Busy(t.ends) == Busy(s.ends) + 1
            else t.next == s.next && Busy(t.ends) == Busy(s.ends) - 1
  {
    hide Busy;
    match step
    case Begin => BusySet(s.ends, f[s.next], Some(s.clock + d[s.next]));
    case End(q) => BusySet(s.ends, q, None);
  }

  lemma {:induction false} TimedOccupancy(d: seq<real>, p: nat, f: seq<nat>, states: seq<State>, steps: seq<Step>, k: nat)
    requires |f| == |d| && Run(d, p, f, states, steps) && k <= |steps|
    ensures Occupied(TimedTurns(steps[..k]), states[k].next, Busy(states[k].ends))
    decreases k
  {
    hide TimedTurns, Occupied, Busy, Next;
    if k == 0 {
      NoneBusy(states[0].ends);
      NoTurns();
    } else {
      TimedOccupancy(d, p, f, states, steps, k - 1);
      var (s, step) := (states[k - 1], steps[k - 1]);
      assert Next(d, p, f, s, step, states[k - 1 + 1]);
      TimedTurn(d, p, f, s, step, states[k]);
      LastTimedTurn(steps, k - 1);
      OccupiedPush(TimedTurns(steps[..k - 1]), s.next, Busy(s.ends), step.Begin?);
    }
  }

  lemma NoTurns()
    ensures Occupied(TimedTurns([]), 0, 0) && Occupied(Turns([]), 0, 0)
  {
  }

  lemma PoolTurn(plan: Pool.Plan, s: Pool.State, step: Pool.Step, t: Pool.State)
    requires |s.cells| == |plan.cells| && Pool.Next(plan, s, step, t) && !t.failed
    ensures !s.failed && t.next == s.next + (if Turn(step) == [true] then 1 else 0)
    ensures Pool.InFlight(t.cells) ==
      Pool.InFlight(s.cells) + (if Turn(step) == [true] then 1 else if Turn(step) == [false] then -1 else 0)
  {
    hide Service.GuardOf, RunLoop.CellRecord, Pool.Allowed, RunLoop.AllRows, Pool.InFlight, Pool.Settled;
    match step
    case Start => Pool.InFlightSet(s.cells, s.next, t.cells[s.next]);
    case Finish(i, _) => Pool.InFlightSet(s.cells, i, t.cells[i]);
    case Act(i, _) => Pool.InFlightSet(s.cells, i, t.cells[i]);
    case Drain =>
  }

  lemma {:induction false} PoolOccupancy(plan: Pool.Plan, states: seq<Pool.State>, steps: seq<Pool.Step>, k: nat)
    requires Pool.Run(plan, states, steps) && k <= |steps| && !states[k].failed
    ensures Occupied(Turns(steps[..k]), states[k].next, Pool.InFlight(states[k].cells))
    decreases k
  {
    hide Pool.Next, Pool.InFlight, Turns, Occupied;
    if k == 0 {
      Pool.NoneInFlight(states[0].cells);
      NoTurns();
    } else {
      var (s, step) := (states[k - 1], steps[k - 1]);
      assert Pool.Next(plan, s, step, states[k - 1 + 1]);
      PoolTurn(plan, s, step, states[k]);
      PoolOccupancy(plan, states, steps, k - 1);
      LastTurn(steps, k - 1);
      var before := Turns(steps[..k - 1]);
      if step.Start? || step.Finish? {
        OccupiedPush(before, s.next, Pool.InFlight(s.cells), step.Start?);
        assert Turn(step) == [step.Start?];
      } else {
        assert before + Turn(step) == before;
      }
    }
  }

  /** A pool without a limit has a slot for every cell. */
  predicate SlotsOf(plan: Pool.Plan, p: nat) {
    if plan.pool == 0 then p >= |plan.cells| else p == plan.pool
  }

  /** A run of the pool and a timed run that have started and ended cells in the same order are at the same cell with
      the same number in flight, and the pool may start its next cell exactly when the timed run has a slot for it. */
  lemma PoolInTime(plan: Pool.Plan, states: seq<Pool.State>, steps: seq<Pool.Step>, k: nat,
                   d: seq<real>, p: nat, f: seq<nat>, timed: seq<State>, timedSteps: seq<Step>, m: nat)
    requires Pool.Run(plan, states, steps) && k <= |steps| && !states[k].failed
    requires |f| == |d| == |plan.cells| && SlotsOf(plan, p) && Run(d, p, f, timed, timedSteps) && m <= |timedSteps|
    requires Turns(steps[..k]) == TimedTurns(timedSteps[..m])
    ensures states[k].next == timed[m].next && Pool.InFlight(states[k].cells) == Busy(timed[m].ends)
    ensures (exists t :: Pool.Next(plan, states[k], Pool.Start, t))
       <==> timed[m].next < |d| && exists q :: 0 <= q < p && timed[m].ends[q].None?
  {
    hide Pool.Next, Pool.InFlight, Busy, Turns, TimedTurns, Next, Starts;
    PoolOccupancy(plan, states, steps, k);
    TimedOccupancy(d, p, f, timed, timedSteps, m);
    FreeSlot(timed[m].ends);
    MayStart(plan, states, steps, k);
  }

  lemma MayStart(plan: Pool.Plan, states: seq<Pool.State>, steps: seq<Pool.Step>, k: nat)
    requires Pool.Run(plan, states, steps) && k < |states| && !states[k].failed
    ensures var s := states[k];
      (exists t :: Pool.Next(plan, s, Pool.Start, t)) <==>
        s.next < |plan.cells| && (plan.pool == 0 || Pool.InFlight(s.cells) < plan.pool)
  {
    hide Pool.AllOk, Pool.Counted, Pool.Blocks, Pool.Remnant, Pool.InFlight;
    Pool.InvAlways(plan, states, steps, k);
    var s := states[k];
    if s.next < |s.cells| && (plan.pool == 0 || Pool.InFlight(s.cells) < plan.pool) {
      assert Pool.Next(plan, s, Pool.Start, s.(cells := s.cells[s.next := Pool.Running([])], next := s.next + 1));
    }
  }
}
