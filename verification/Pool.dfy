/** The pool of cells as a state machine: cells interleave at their awaits, the first
    failure drops every cell in flight, and the queue of leaked versions is drained before
    the run returns. A cell's own history is the one `RunLoop.RunCell` produces. */
module Pool {
  import opened Wrappers
  import opened Service
  import opened RunLoop
  import Config

  /** A cell between two steps, with its history. `Dropped` cells were in flight when a
      sibling failed. */
  datatype CellState =
    | Waiting
    | Running(log: seq<Event>)
    | Done(log: seq<Event>)
    | Errored(log: seq<Event>)
    | Dropped(log: seq<Event>)
  {
    function History(): seq<Event> {
      if Waiting? then [] else log
    }
  }

  /** What a run is given: cells in start order, the profile, the pool size (0 sets no limit). */
  datatype Plan = Plan(cells: seq<Config.Cell>, profile: Config.Profile, pool: nat) {
    function CountsOf(i: nat): Config.Counts
      requires i < |cells|
    {
      cells[i].Iterations(profile)
    }

    function Invocations(i: nat): (n: nat)
      requires i < |cells|
      ensures n >= 2
    {
      CountsOf(i).cold * (1 + CountsOf(i).warm)
    }
  }

  /** `file` holds one block of rows per written cell, `remnant` what a failed write left
      behind, `recorded` the writer's row counter. */
  datatype State = State(
    cells: seq<CellState>, next: nat, failed: bool,
    queue: seq<(nat, nat)>, drained: seq<(nat, nat)>,
    file: seq<(nat, seq<Row>)>, remnant: seq<Row>, recorded: nat)

  datatype Step =
    | Start
    | Act(cell: nat, event: Event)
    | Finish(cell: nat, windows: seq<Window>)
    | Fail(cell: nat, windows: seq<Window>, leftover: seq<Row>)
    | Drain

  // ---- Steps ----------------------------------------------------------------

  /** A cell may do `e` next: its guard allows it, and the service can answer so. */
  predicate Allowed(log: seq<Event>, e: Event) {
    !Cut(e) && Possible(log, e) && GuardStep(GuardOf(log), e) != Broken
  }

  function InFlight(cells: seq<CellState>): nat {
    if cells == [] then 0
    else InFlight(cells[..|cells| - 1]) + if cells[|cells| - 1].Running? then 1 else 0
  }

  /** Dropping a running cell runs its guard's drop if the guard is still armed. */
  function Drop(c: CellState): CellState {
    if !c.Running? then c
    else
      match GuardOf(c.log)
      case Armed(v) => Dropped(c.log + [Leaked(v)])
      case Deleting(v) => Dropped(c.log + [Leaked(v)])
      case _ => Dropped(c.log)
  }

  function DropAll(cells: seq<CellState>): (out: seq<CellState>)
    ensures |out| == |cells|
  {
    seq(|cells|, i requires 0 <= i < |cells| => Drop(cells[i]))
  }

  /** The versions that dropping the cells leaks, with their cells. */
  function Leaks(cells: seq<CellState>): seq<(nat, nat)> {
    if cells == [] then []
    else
      var n := |cells| - 1;
      Leaks(cells[..n]) + LeakOf(cells[n], n)
  }

  function LeakOf(c: CellState, i: nat): seq<(nat, nat)> {
    if !c.Running? then []
    else
      match GuardOf(c.log)
      case Armed(v) => [(i, v)]
      case Deleting(v) => [(i, v)]
      case _ => []
  }

  /** A failed cell leaves nothing in the file, or the first rows of its whole clean record. */
  ghost predicate PartOfCell(cell: Config.Cell, counts: Config.Counts, log: seq<Event>, ws: seq<Window>, leftover: seq<Row>) {
    leftover != [] ==> CellRecord(cell, counts, log, ws) && leftover <= AllRows(cell, ws)
  }

  ghost predicate Next(plan: Plan, s: State, step: Step, t: State)
    requires |s.cells| == |plan.cells|
  {
    match step
    case Start =>
      && !s.failed && s.next < |s.cells| && s.cells[s.next].Waiting? && (plan.pool == 0 || InFlight(s.cells) < plan.pool)
      && t == s.(cells := s.cells[s.next := Running([])], next := s.next + 1)
    case Act(i, e) =>
      && !s.failed && i < |s.cells| && s.cells[i].Running? && Allowed(s.cells[i].log, e)
      && t == s.(cells := s.cells[i := Running(s.cells[i].log + [e])])
    case Finish(i, ws) =>
      && !s.failed && i < |s.cells| && s.cells[i].Running? && GuardOf(s.cells[i].log) == Idle
      && CellRecord(plan.cells[i], plan.CountsOf(i), s.cells[i].log, ws)
      && t == s.(cells := s.cells[i := Done(s.cells[i].log)],
                 file := s.file + [(i, AllRows(plan.cells[i], ws))],
                 recorded := s.recorded + |AllRows(plan.cells[i], ws)|)
    case Fail(i, ws, leftover) =>
      && !s.failed && i < |s.cells| && s.cells[i].Running? && GuardOf(s.cells[i].log) == Idle
      && PartOfCell(plan.cells[i], plan.CountsOf(i), s.cells[i].log, ws, leftover)
      && t == s.(cells := DropAll(s.cells[i := Errored(s.cells[i].log)]),
                 queue := s.queue + Leaks(s.cells[i := Errored(s.cells[i].log)]),
                 failed := true, remnant := leftover)
    case Drain =>
      && Settled(s) && s.queue != []
      && t == s.(queue := s.queue[1..], drained := s.drained + [s.queue[0]])
  }

  /** No cell runs any more and none will start. */
  predicate Settled(s: State) {
    InFlight(s.cells) == 0 && (s.failed || s.next == |s.cells|)
  }

  /** The run has returned. */
  predicate Returned(s: State) {
    Settled(s) && s.queue == []
  }

  function Init(plan: Plan): State {
    State(seq(|plan.cells|, i => Waiting), 0, false, [], [], [], [], 0)
  }

  ghost predicate Run(plan: Plan, states: seq<State>, steps: seq<Step>) {
    && |states| == |steps| + 1 && states[0] == Init(plan)
    && (forall k :: 0 <= k < |states| ==> |states[k].cells| == |plan.cells|)
    && (forall k :: 0 <= k < |steps| ==> Next(plan, states[k], steps[k], states[k + 1]))
  }

  // ---- One cell's versions --------------------------------------------------

  function Deletes(log: seq<Event>, v: nat): nat {
    if log == [] then 0
    else Deletes(log[..|log| - 1], v) + if log[|log| - 1] == DeleteStarted(v) then 1 else 0
  }

  function LeakCount(log: seq<Event>, v: nat): nat {
    if log == [] then 0
    else LeakCount(log[..|log| - 1], v) + if log[|log| - 1] == Leaked(v) then 1 else 0
  }

  lemma LogGrew(log: seq<Event>, e: Event)
    ensures GuardOf(log + [e]) == GuardStep(GuardOf(log), e)
    ensures forall v :: Deletes(log + [e], v) == Deletes(log, v) + if e == DeleteStarted(v) then 1 else 0
    ensures forall v :: LeakCount(log + [e], v) == LeakCount(log, v) + if e == Leaked(v) then 1 else 0
    ensures forall v: nat :: Handed(log + [e], v) <==> Handed(log, v) || Hands(e, v)
  {
    assert (log + [e])[..|log|] == log;
    forall v: nat
      ensures Handed(log + [e], v) <==> Handed(log, v) || Hands(e, v)
    {
      if i :| 0 <= i < |log| && Hands(log[i], v) {
        assert Hands((log + [e])[i], v);
      }
      if Hands(e, v) {
        assert Hands((log + [e])[|log|], v);
      }
    }
  }

  /** Where each version stands: untouched before it is handed back, under its guard, or
      deleted once inline, leaked once, or both (cut during the inline delete). */
  ghost predicate Accounted(log: seq<Event>) {
    && GuardOf(log) != Broken
    && (GuardOf(log).Armed? || GuardOf(log).Deleting? ==> Handed(log, GuardOf(log).version))
    && forall v :: Fate(log, v)
  }

  ghost predicate Fate(log: seq<Event>, v: nat) {
    var (d, l) := (Deletes(log, v), LeakCount(log, v));
    if !Handed(log, v) then d == 0 && l == 0
    else if GuardOf(log) == Armed(v) then d == 0 && l == 0
    else if GuardOf(log) == Deleting(v) then d == 1 && l == 0
    else d <= 1 && l <= 1 && d + l >= 1
  }

  lemma AccountedNext(log: seq<Event>, e: Event)
    requires Accounted(log) && GuardStep(GuardOf(log), e) != Broken
    requires e.Published? && e.published.Ok? ==> !Handed(log, e.published.value)
    ensures Accounted(log + [e])
  {
    LogGrew(log, e);
    forall v: nat
      ensures Fate(log + [e], v)
    {
      FateNext(log, e, v);
    }
  }

  lemma FateNext(log: seq<Event>, e: Event, v: nat)
    requires Accounted(log) && GuardStep(GuardOf(log), e) != Broken
    requires e.Published? && e.published.Ok? ==> !Handed(log, e.published.value)
    ensures Fate(log + [e], v)
  {
    hide Deletes, LeakCount, Handed, GuardOf;
    LogGrew(log, e);
    assert Fate(log, v);
    assert Handed(log + [e], v) <==> Handed(log, v) || Hands(e, v);
    assert e.Leaked? || e.DeleteStarted? ==> Fate(log, e.version);
  }

  /** A history that ends with its guard unbroken never broke it. */
  lemma {:induction false} GuardNeverBroke(log: seq<Event>, n: nat)
    requires GuardOf(log) != Broken && n <= |log|
    ensures GuardOf(log[..n]) != Broken
    ensures n < |log| ==> GuardStep(GuardOf(log[..n]), log[n]) != Broken
    decreases |log|
  {
    if n < |log| {
      var pre := log[..|log| - 1];
      assert GuardOf(pre) != Broken;
      if n < |pre| {
        GuardNeverBroke(pre, n);
        assert pre[..n] == log[..n];
      } else {
        assert pre == log[..n];
      }
    } else {
      assert log[..n] == log;
    }
  }

  /** Event by event, `log` is something its pool cell may do. */
  ghost predicate LegalHistory(log: seq<Event>) {
    forall n :: 0 <= n < |log| ==> Allowed(log[..n], log[n])
  }

  /** So is every history that `RunCell` can leave without being cancelled. */
  lemma HistoryIsLegal(log: seq<Event>)
    requires Uncut([], log) && GuardOf(log) != Broken
    ensures LegalHistory(log)
  {
    hide Possible;
    forall n | 0 <= n < |log| ensures Allowed(log[..n], log[n]) {
      GuardNeverBroke(log, n);
      assert Answered(log, n);
    }
  }

  /** A history that `RunCell` leaves when it is cancelled is a legal one up to the await it was dropped at, and
      then, without the event that was cut off, exactly what the pool's drop makes of the running cell. The versions
      it leaked are the ones the pool queues. */
  lemma CancelledIsDrop(log: seq<Event>, versions: seq<nat>, i: nat) returns (n: nat)
    requires CutOff([], log, versions) && GuardOf(log) != Broken
    ensures n < |log| && Cut(log[n]) && LegalHistory(log[..n])
    ensures Drop(Running(log[..n])) == CellState.Dropped(log[..n] + log[n + 1..])
    ensures LeakOf(Running(log[..n]), i) == seq(|versions|, k requires 0 <= k < |versions| => (i, versions[k]))
  {
    n :| CutOffAt([], log, n, versions);
    GuardNeverBroke(log, n);
    forall k {:trigger Answered(log[..n], k)} | 0 <= k < n ensures Answered(log[..n], k) {
      AnsweredLater(log[..n], log, k);
    }
    HistoryIsLegal(log[..n]);
    hide GuardOf, LegalHistory;
    var g := GuardOf(log[..n]);
    if Held(g) == [] {
      assert log[..n] + log[n + 1..] == log[..n];
    }
  }

  // ---- The invariant --------------------------------------------------------

  function Occurs(q: seq<(nat, nat)>, x: (nat, nat)): nat {
    multiset(q)[x]
  }

  ghost predicate CellOk(c: CellState) {
    && Accounted(c.History())
    && ((c.Done? || c.Errored? || c.Dropped?) ==> GuardOf(c.log) == Idle)
    && (!c.Dropped? ==> forall v :: LeakCount(c.History(), v) == 0)
  }

  /** Rows of the cells written so far. */
  function Written(plan: Plan, cells: seq<CellState>): nat
    requires |cells| <= |plan.cells|
  {
    if cells == [] then 0
    else Written(plan, cells[..|cells| - 1]) + if cells[|cells| - 1].Done? then plan.Invocations(|cells| - 1) else 0
  }

  /** Rows planned for the first `n` cells. */
  function Planned(plan: Plan, n: nat): nat
    requires n <= |plan.cells|
  {
    if n == 0 then 0 else Planned(plan, n - 1) + plan.Invocations(n - 1)
  }

  /** A written block is a whole clean cell, resting on that cell's own history. */
  ghost predicate Block(plan: Plan, cells: seq<CellState>, b: (nat, seq<Row>))
    requires |cells| == |plan.cells|
  {
    && b.0 < |cells| && cells[b.0].Done?
    && exists ws :: CellRecord(plan.cells[b.0], plan.CountsOf(b.0), cells[b.0].log, ws) && b.1 == AllRows(plan.cells[b.0], ws)
  }

  /** The file is exactly the written cells, one block each. */
  ghost predicate Blocks(plan: Plan, cells: seq<CellState>, file: seq<(nat, seq<Row>)>)
    requires |cells| == |plan.cells|
  {
    && (forall k :: 0 <= k < |file| ==> Block(plan, cells, file[k]))
    && (forall j, k :: 0 <= j < k < |file| ==> file[j].0 != file[k].0)
    && (forall i :: 0 <= i < |cells| && cells[i].Done? ==> exists k :: 0 <= k < |file| && file[k].0 == i)
  }

  /** What follows the blocks is part of one failed cell's clean record. */
  ghost predicate Remnant(plan: Plan, cells: seq<CellState>, remnant: seq<Row>)
    requires |cells| == |plan.cells|
  {
    remnant != [] ==> exists i, ws ::
      0 <= i < |cells| && cells[i].Errored? && PartOfCell(plan.cells[i], plan.CountsOf(i), cells[i].log, ws, remnant)
  }

  /** Every version leaked by a drop is in the queue or drained, once per leak. */
  ghost predicate Counted(s: State) {
    forall i: nat, v: nat ::
      Occurs(s.queue + s.drained, (i, v)) == if i < |s.cells| then LeakCount(s.cells[i].History(), v) else 0
  }

  ghost predicate AllOk(cells: seq<CellState>) {
    forall i :: 0 <= i < |cells| ==> CellOk(cells[i])
  }

  ghost predicate Shape(plan: Plan, s: State) {
    && |s.cells| == |plan.cells| && s.next <= |s.cells|
    && (forall i :: 0 <= i < |s.cells| ==> (s.cells[i].Waiting? <==> i >= s.next))
    && (plan.pool == 0 || InFlight(s.cells) <= plan.pool)
    && (s.failed ==> InFlight(s.cells) == 0 && exists i :: 0 <= i < |s.cells| && s.cells[i].Errored?)
    && (!s.failed ==> s.remnant == [] && forall i :: 0 <= i < |s.cells| ==> !s.cells[i].Errored? && !s.cells[i].Dropped?)
  }

  ghost predicate Inv(plan: Plan, s: State) {
    && Shape(plan, s) && AllOk(s.cells) && Counted(s)
    && s.recorded == Written(plan, s.cells)
    && Blocks(plan, s.cells, s.file) && Remnant(plan, s.cells, s.remnant)
  }

  // ---- Preservation, part by part -------------------------------------------

  lemma {:induction false} InFlightSet(cells: seq<CellState>, i: nat, c: CellState)
    requires i < |cells|
    ensures InFlight(cells[i := c]) == InFlight(cells) - (if cells[i].Running? then 1 else 0) + (if c.Running? then 1 else 0)
    ensures cells[i].Running? ==> InFlight(cells) >= 1
    decreases |cells|
  {
    var n := |cells| - 1;
    if i < n {
      InFlightSet(cells[..n], i, c);
      assert cells[i := c][..n] == cells[..n][i := c];
    } else {
      assert cells[i := c][..n] == cells[..n];
    }
  }

  lemma {:induction false} NoneInFlight(cells: seq<CellState>)
    requires forall i :: 0 <= i < |cells| ==> !cells[i].Running?
    ensures InFlight(cells) == 0
  {
    if cells != [] {
      NoneInFlight(cells[..|cells| - 1]);
    }
  }

  lemma {:induction false} SomeInFlight(cells: seq<CellState>, i: nat)
    requires i < |cells| && InFlight(cells) == 0
    ensures !cells[i].Running?
    decreases |cells|
  {
    if i < |cells| - 1 {
      SomeInFlight(cells[..|cells| - 1], i);
    }
  }

  lemma {:induction false} WrittenSet(plan: Plan, cells: seq<CellState>, i: nat, c: CellState)
    requires i < |cells| <= |plan.cells|
    ensures Written(plan, cells[i := c]) ==
      Written(plan, cells) - (if cells[i].Done? then plan.Invocations(i) else 0) + (if c.Done? then plan.Invocations(i) else 0)
    decreases |cells|
  {
    var n := |cells| - 1;
    if i < n {
      WrittenSet(plan, cells[..n], i, c);
      assert cells[i := c][..n] == cells[..n][i := c];
    } else {
      assert cells[i := c][..n] == cells[..n];
    }
  }

  lemma {:induction false} WrittenSame(plan: Plan, cells: seq<CellState>, other: seq<CellState>)
    requires |cells| == |other| <= |plan.cells|
    requires forall i :: 0 <= i < |cells| ==> (cells[i].Done? <==> other[i].Done?)
    ensures Written(plan, cells) == Written(plan, other)
    decreases |cells|
  {
    if cells != [] {
      var n := |cells| - 1;
      forall i | 0 <= i < n
        ensures cells[..n][i].Done? <==> other[..n][i].Done?
      {
        assert cells[i].Done? <==> other[i].Done?;
      }
      WrittenSame(plan, cells[..n], other[..n]);
    }
  }

  /** Dropping everything puts each armed version in the queue once. */
  lemma {:induction false} LeaksCounted(cells: seq<CellState>, i: nat, v: nat)
    ensures Occurs(Leaks(cells), (i, v)) == if i < |cells| then Occurs(LeakOf(cells[i], i), (i, v)) else 0
    decreases |cells|
  {
    if cells != [] {
      var n := |cells| - 1;
      LeaksCounted(cells[..n], i, v);
      var (front, last) := (Leaks(cells[..n]), LeakOf(cells[n], n));
      assert multiset(front + last) == multiset(front) + multiset(last);
      assert i != n ==> Occurs(last, (i, v)) == 0;
    }
  }

  lemma LeakedByDrop(c: CellState, i: nat, v: nat)
    requires !c.Running? || GuardOf(c.log) != Broken
    ensures Occurs(LeakOf(c, i), (i, v)) == LeakCount(Drop(c).History(), v) - LeakCount(c.History(), v)
  {
    hide LeakCount, Handed, Deletes;
    var g := if c.Running? then GuardOf(c.log) else Idle;
    if g.Armed? || g.Deleting? {
      var w := g.version;
      LogGrew(c.log, Leaked(w));
      assert Drop(c).History() == c.log + [Leaked(w)];
      assert LeakOf(c, i) == [(i, w)];
    } else {
      assert Drop(c).History() == c.History();
      assert LeakOf(c, i) == [];
    }
  }

  lemma DropOk(c: CellState)
    requires CellOk(c)
    ensures CellOk(Drop(c)) && !Drop(c).Running?
  {
    if c.Running? {
      var g := GuardOf(c.log);
      hide Accounted, LeakCount, GuardOf;
      if g.Armed? || g.Deleting? {
        AccountedNext(c.log, Leaked(g.version));
        LogGrew(c.log, Leaked(g.version));
      } else {
        AccountedGuard(c.log);
      }
    }
  }

  lemma AccountedGuard(log: seq<Event>)
    requires Accounted(log)
    ensures GuardOf(log) != Broken
  {
  }

  lemma EmptyHistory()
    ensures CellOk(Running([])) && CellOk(Waiting)
  {
  }

  /** Blocks only look at the written cells. */
  lemma BlocksSame(plan: Plan, cells: seq<CellState>, other: seq<CellState>, file: seq<(nat, seq<Row>)>)
    requires |cells| == |other| == |plan.cells| && Blocks(plan, cells, file)
    requires forall i :: 0 <= i < |cells| ==> (cells[i].Done? <==> other[i].Done?) && (cells[i].Done? ==> cells[i] == other[i])
    ensures Blocks(plan, other, file)
  {
    hide CellRecord, AllRows;
    forall k | 0 <= k < |file|
      ensures Block(plan, other, file[k])
    {
      assert Block(plan, cells, file[k]);
    }
  }

  lemma StartKeeps(plan: Plan, s: State, t: State)
    requires Inv(plan, s) && Next(plan, s, Start, t)
    ensures Inv(plan, t)
  {
    hide Blocks, CellOk;
    InFlightSet(s.cells, s.next, Running([]));
    WrittenSet(plan, s.cells, s.next, Running([]));
    EmptyHistory();
    BlocksSame(plan, s.cells, t.cells, s.file);
  }

  /** The queue's account moves only with the leak counts. */
  lemma CountedSame(s: State, t: State)
    requires Counted(s) && t.queue == s.queue && t.drained == s.drained && |t.cells| == |s.cells|
    requires forall i, v: nat :: 0 <= i < |s.cells| ==> LeakCount(t.cells[i].History(), v) == LeakCount(s.cells[i].History(), v)
    ensures Counted(t)
  {
    hide LeakCount;
    forall j: nat, v: nat
      ensures Occurs(t.queue + t.drained, (j, v)) == if j < |t.cells| then LeakCount(t.cells[j].History(), v) else 0
    {
      assert Occurs(s.queue + s.drained, (j, v)) == if j < |s.cells| then LeakCount(s.cells[j].History(), v) else 0;
    }
  }

  lemma ActCell(log: seq<Event>, e: Event)
    requires CellOk(Running(log)) && Allowed(log, e)
    ensures CellOk(Running(log + [e]))
    ensures forall v: nat :: LeakCount(log + [e], v) == LeakCount(log, v)
  {
    hide Accounted, LeakCount, Handed, GuardOf;
    AccountedNext(log, e);
    LogGrew(log, e);
    forall v: nat
      ensures LeakCount(log + [e], v) == LeakCount(log, v) == 0
    {
      assert LeakCount(Running(log).History(), v) == 0;
    }
  }

  lemma ActKeeps(plan: Plan, s: State, t: State, i: nat, e: Event)
    requires Inv(plan, s) && Next(plan, s, Act(i, e), t)
    ensures Inv(plan, t)
  {
    hide Blocks, CellOk, LeakCount, Allowed;
    var log := s.cells[i].log;
    assert CellOk(s.cells[i]);
    InFlightSet(s.cells, i, Running(log + [e]));
    WrittenSet(plan, s.cells, i, Running(log + [e]));
    ActCell(log, e);
    BlocksSame(plan, s.cells, t.cells, s.file);
    CountedSame(s, t);
  }

  lemma FinishKeeps(plan: Plan, s: State, t: State, i: nat, ws: seq<Window>)
    requires Inv(plan, s) && Next(plan, s, Finish(i, ws), t)
    ensures Inv(plan, t)
  {
    hide Accounted, CellRecord, AllRows, Blocks, LeakCount, Written, InFlight, GuardOf;
    var log := s.cells[i].log;
    InFlightSet(s.cells, i, Done(log));
    WrittenSet(plan, s.cells, i, Done(log));
    assert CellOk(s.cells[i]);
    CellLength(plan, i, log, ws);
    BlockAdded(plan, s.cells, i, log, ws, s.file);
    CountedSame(s, t);
  }

  lemma CellLength(plan: Plan, i: nat, log: seq<Event>, ws: seq<Window>)
    requires i < |plan.cells| && CellRecord(plan.cells[i], plan.CountsOf(i), log, ws)
    ensures |AllRows(plan.cells[i], ws)| == plan.Invocations(i)
  {
    hide Recorded, AllRows, Place, CpuHistory;
    WrittenCell(plan.cells[i], plan.CountsOf(i), log, ws, 0, 0);
  }

  lemma BlockAdded(plan: Plan, cells: seq<CellState>, i: nat, log: seq<Event>, ws: seq<Window>, file: seq<(nat, seq<Row>)>)
    requires |cells| == |plan.cells| && i < |cells| && cells[i] == Running(log)
    requires Blocks(plan, cells, file) && CellRecord(plan.cells[i], plan.CountsOf(i), log, ws)
    ensures Blocks(plan, cells[i := Done(log)], file + [(i, AllRows(plan.cells[i], ws))])
  {
    hide Recorded, CpuHistory, AllRows;
    var later, all := cells[i := Done(log)], file + [(i, AllRows(plan.cells[i], ws))];
    forall k | 0 <= k < |all|
      ensures Block(plan, later, all[k])
    {
      if k < |file| {
        assert Block(plan, cells, file[k]) && all[k] == file[k];
      }
    }
    forall j | 0 <= j < |later| && later[j].Done?
      ensures exists k :: 0 <= k < |all| && all[k].0 == j
    {
      if j == i {
        assert all[|file|].0 == i;
      } else {
        var k :| 0 <= k < |file| && file[k].0 == j;
        assert all[k] == file[k];
      }
    }
  }

  lemma FailKeeps(plan: Plan, s: State, t: State, i: nat, ws: seq<Window>, leftover: seq<Row>)
    requires Inv(plan, s) && Next(plan, s, Fail(i, ws, leftover), t)
    ensures Inv(plan, t)
  {
    hide CellOk, Blocks, LeakCount, Occurs, Leaks, PartOfCell, Written, InFlight, Counted;
    var cells := s.cells[i := Errored(s.cells[i].log)];
    assert CellOk(s.cells[i]);
    ErroredOk(s.cells[i].log);
    forall j | 0 <= j < |cells|
      ensures CellOk(t.cells[j]) && !t.cells[j].Running?
    {
      DropOk(cells[j]);
    }
    NoneInFlight(t.cells);
    WrittenSame(plan, s.cells, t.cells);
    BlocksSame(plan, s.cells, t.cells, s.file);
    assert t.cells[i].Errored? && t.cells[i].log == s.cells[i].log;
    FailCounted(s, cells, t);
  }

  lemma ErroredOk(log: seq<Event>)
    requires CellOk(Running(log)) && GuardOf(log) == Idle
    ensures CellOk(Errored(log))
  {
    hide Accounted, LeakCount, GuardOf;
    assert Running(log).History() == Errored(log).History();
  }

  lemma FailCounted(s: State, cells: seq<CellState>, t: State)
    requires Counted(s) && |cells| == |s.cells| && AllOk(cells)
    requires forall j :: 0 <= j < |cells| ==> cells[j].History() == s.cells[j].History()
    requires t.cells == DropAll(cells) && t.queue == s.queue + Leaks(cells) && t.drained == s.drained
    ensures Counted(t)
  {
    hide LeakCount, Leaks;
    forall j: nat, v: nat
      ensures Occurs(t.queue + t.drained, (j, v)) == if j < |t.cells| then LeakCount(t.cells[j].History(), v) else 0
    {
      assert Occurs(s.queue + s.drained, (j, v)) == if j < |s.cells| then LeakCount(s.cells[j].History(), v) else 0;
      LeaksCounted(cells, j, v);
      if j < |cells| {
        assert CellOk(cells[j]);
        LeakedByDrop(cells[j], j, v);
      }
      assert multiset(s.queue + Leaks(cells) + s.drained) == multiset(s.queue) + multiset(Leaks(cells)) + multiset(s.drained);
      assert multiset(s.queue + s.drained) == multiset(s.queue) + multiset(s.drained);
    }
  }

  lemma DrainKeeps(plan: Plan, s: State, t: State)
    requires Inv(plan, s) && Next(plan, s, Drain, t)
    ensures Inv(plan, t)
  {
    hide CellOk, Blocks, Remnant, Written, InFlight, LeakCount, Occurs;
    assert s.queue == [s.queue[0]] + s.queue[1..];
    Drained(s.queue[0], s.queue[1..], s.drained);
  }

  lemma Drained(x: (nat, nat), queue: seq<(nat, nat)>, drained: seq<(nat, nat)>)
    ensures forall y :: Occurs([x] + queue + drained, y) == Occurs(queue + (drained + [x]), y)
  {
    assert multiset([x] + queue + drained) == multiset(queue + (drained + [x]));
  }

  lemma InitHolds(plan: Plan)
    ensures Inv(plan, Init(plan))
  {
    var s := Init(plan);
    EmptyHistory();
    NoneInFlight(s.cells);
    NothingWritten(plan, s.cells);
  }

  lemma {:induction false} NothingWritten(plan: Plan, cells: seq<CellState>)
    requires |cells| <= |plan.cells| && forall i :: 0 <= i < |cells| ==> cells[i].Waiting?
    ensures Written(plan, cells) == 0
  {
    if cells != [] {
      NothingWritten(plan, cells[..|cells| - 1]);
    }
  }

  /** The invariant holds along every run: any interleaving, any failure, any answers. */
  lemma {:induction false} InvAlways(plan: Plan, states: seq<State>, steps: seq<Step>, k: nat)
    requires Run(plan, states, steps) && k < |states|
    ensures Inv(plan, states[k])
    decreases k
  {
    if k == 0 {
      InitHolds(plan);
    } else {
      hide Inv;
      InvAlways(plan, states, steps, k - 1);
      var (s, t) := (states[k - 1], states[k]);
      assert Next(plan, s, steps[k - 1], t);
      match steps[k - 1]
      case Start => StartKeeps(plan, s, t);
      case Act(i, e) => ActKeeps(plan, s, t, i, e);
      case Finish(i, ws) => FinishKeeps(plan, s, t, i, ws);
      case Fail(i, ws, leftover) => FailKeeps(plan, s, t, i, ws, leftover);
      case Drain => DrainKeeps(plan, s, t);
    }
  }

  // ---- Main results ---------------------------------------------------------

  /** Deletes started for a version of a cell, inline and by the drain together. */
  function DeletesStarted(s: State, i: nat, v: nat): nat
    requires i < |s.cells|
  {
    Deletes(s.cells[i].History(), v) + Occurs(s.drained, (i, v))
  }

  /** When a run has returned, every version that was handed back has had one delete
      started, or two if the drop came during the inline delete of a cell that a sibling's
      failure cancelled; no other version was touched. */
  lemma EveryVersionReclaimed(plan: Plan, states: seq<State>, steps: seq<Step>, i: nat, v: nat)
    requires Run(plan, states, steps) && i < |plan.cells|
    requires Returned(states[|states| - 1])
    ensures var s := states[|states| - 1];
      if Handed(s.cells[i].History(), v) then
        && 1 <= DeletesStarted(s, i, v) <= 2
        && (!s.cells[i].Dropped? ==> DeletesStarted(s, i, v) == 1)
        && (DeletesStarted(s, i, v) == 2 ==> Deletes(s.cells[i].History(), v) == 1 && Occurs(s.drained, (i, v)) == 1)
      else DeletesStarted(s, i, v) == 0
  {
    var s := states[|states| - 1];
    InvAlways(plan, states, steps, |states| - 1);
    SomeInFlight(s.cells, i);
    assert CellOk(s.cells[i]);
    assert s.queue + s.drained == s.drained;
    assert Occurs(s.drained, (i, v)) == LeakCount(s.cells[i].History(), v);
    assert Fate(s.cells[i].History(), v);
    EmptyHistory();
  }

  lemma {:induction false} WrittenAtMost(plan: Plan, cells: seq<CellState>)
    requires |cells| <= |plan.cells|
    ensures Written(plan, cells) <= Planned(plan, |cells|)
    ensures (forall i :: 0 <= i < |cells| ==> cells[i].Done?) ==> Written(plan, cells) == Planned(plan, |cells|)
    ensures forall i :: 0 <= i < |cells| && !cells[i].Done? ==> Written(plan, cells) < Planned(plan, |cells|)
  {
    if cells != [] {
      WrittenAtMost(plan, cells[..|cells| - 1]);
      assert forall i :: 0 <= i < |cells| - 1 ==> cells[..|cells| - 1][i] == cells[i];
    }
  }

  /** A returned run recorded all planned rows exactly when it did not fail, and strictly
      fewer when it did. The file is one whole block per finished cell either way, followed after a failure by at
      most the first rows of the failed cell's own clean record. */
  lemma RecordedExactlyWhenOk(plan: Plan, states: seq<State>, steps: seq<Step>)
    requires Run(plan, states, steps) && Returned(states[|states| - 1])
    ensures var s := states[|states| - 1];
      && s.recorded <= Planned(plan, |plan.cells|)
      && (s.recorded == Planned(plan, |plan.cells|) <==> !s.failed)
      && Blocks(plan, s.cells, s.file) && Remnant(plan, s.cells, s.remnant)
      && (!s.failed ==> s.remnant == [] && forall i :: 0 <= i < |s.cells| ==> s.cells[i].Done?)
  {
    hide CellOk, Counted, Blocks, Remnant, Written, InFlight, Next;
    var s := states[|states| - 1];
    InvAlways(plan, states, steps, |states| - 1);
    WrittenAtMost(plan, s.cells);
    forall i | 0 <= i < |s.cells|
      ensures !s.cells[i].Running?
    {
      SomeInFlight(s.cells, i);
    }
  }

  /** At every moment at most `pool` cells are in flight, if there is a limit, and cells start in plan order. */
  lemma PoolBound(plan: Plan, states: seq<State>, steps: seq<Step>, k: nat, i: nat, j: nat)
    requires Run(plan, states, steps) && k < |states| && i < j < |plan.cells|
    ensures plan.pool > 0 ==> InFlight(states[k].cells) <= plan.pool
    ensures !states[k].cells[j].Waiting? ==> !states[k].cells[i].Waiting?
  {
    InvAlways(plan, states, steps, k);
  }
}
