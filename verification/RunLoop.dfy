/** The run loop of one cell: four nested levels of retry around cold and warm invokes,
    with rows that survive a failed attempt and a guard that survives cancellation. */
module RunLoop {
  import opened Wrappers
  import opened Service
  import opened Evidence
  import Config
  import Recorder
  import Report

  const MAX_COLD_FORCE_ATTEMPTS: nat := 6
  const MAX_CYCLE_ATTEMPTS: nat := 4
  const MAX_CELL_ATTEMPTS: nat := 3

  // ---- Rows -----------------------------------------------------------------

  datatype Row = Row(cell: Config.Cell, cycle: nat, idx: nat, isCold: bool, nonce: nat, report: Report.Report, hostCpu: Option<string>)

  predicate EnvelopeOk(p: Payload) {
    p.Envelope? && p.statusCode.Some? && 200 <= p.statusCode.value < 300
  }

  /** `check_platform_ok`: status 200, no function error, and a 2xx envelope behind HTTP. */
  predicate PlatformOk(cell: Config.Cell, r: Reply) {
    r.status == 200 && !r.functionError && (cell.scenario.IsHttpFronted() ==> EnvelopeOk(r.payload))
  }

  predicate Clean(cell: Config.Cell, r: Reply) {
    PlatformOk(cell, r) && r.report.Success?
  }

  /** The cold marker a cell's first invoke must carry: a restore on SnapStart. */
  predicate ColdReply(cell: Config.Cell, r: Reply)
    requires Clean(cell, r)
  {
    if cell.snapstart then r.report.value.restoreMs.Some? else r.report.value.IsCold()
  }

  function BuildRow(cell: Config.Cell, cycle: nat, idx: nat, isCold: bool, nonce: nat, report: Report.Report): Row {
    Row(cell, cycle, idx, isCold, nonce, report, None)
  }

  lemma CleanIsRead(cell: Config.Cell, r: Reply)
    requires Clean(cell, r)
    ensures r.report.Success?
  {
  }

  lemma CleanExactly(cell: Config.Cell, r: Reply)
    ensures Clean(cell, r) <==> Accepted(cell.scenario, r)
  {
  }

  datatype HostCpu = Reported(cpu: string) | Recycled | NoLine | CpuFailed

  /** What the extra invoke after the measured ones amounts to. */
  function CpuOf(cell: Config.Cell, asked: Outcome<Reply>): HostCpu {
    match asked
    case Ok(r) =>
      if !Clean(cell, r) then CpuFailed
      else if r.report.value.IsCold() then Recycled
      else (match r.hostCpu case Some(cpu) => Reported(cpu) case None => NoLine)
    case _ => CpuFailed
  }

  lemma CpuExactly(cell: Config.Cell, asked: Outcome<Reply>)
    ensures CpuOf(cell, asked).Recycled? <==> AskedCold(cell.scenario, asked)
    ensures CpuOf(cell, asked).Reported? <==> AskedCpuLine(cell.scenario, asked).Some?
    ensures CpuOf(cell, asked).Reported? ==> AskedCpuLine(cell.scenario, asked) == Some(CpuOf(cell, asked).cpu)
  {
    hide Clean, Accepted;
    if asked.Ok? {
      CleanExactly(cell, asked.value);
    }
  }

  datatype CycleOutcome = Complete(rows: seq<Row>, cpu: HostCpu) | WarmRecycled(idx: nat)

  // ---- What a recorded cycle rests on ---------------------------------------

  /** A stretch of the history: one forced or published cold start, then the recorded
      invokes and the host-CPU invoke back to back on the same target. */
  datatype Window = Window(at: nat, nonce: nat, target: Option<nat>, replies: seq<Reply>, asked: Outcome<Reply>) {
    function Opening(): Event {
      match target
      case Some(v) => Published(nonce, Ok(v))
      case None => Forced(nonce, Ok(()))
    }

    function Events(): seq<Event> {
      [Opening()] + Invokes(target, replies) + [AskedCpu(target, asked)]
    }

    function End(): nat {
      at + |replies| + 2
    }
  }

  function Invokes(target: Option<nat>, replies: seq<Reply>): (es: seq<Event>)
    ensures |es| == |replies|
  {
    seq(|replies|, i requires 0 <= i < |replies| => Invoked(target, Ok(replies[i])))
  }

  /** The first reply is cold, the others are warm, and none is a platform failure. */
  predicate Series(cell: Config.Cell, replies: seq<Reply>) {
    && (forall i :: 0 <= i < |replies| ==> Clean(cell, replies[i]))
    && (|replies| > 0 ==> ColdReply(cell, replies[0]))
    && (forall i :: 0 < i < |replies| ==> !replies[i].report.value.IsCold())
  }

  ghost predicate Witnessed(cell: Config.Cell, warm: nat, log: seq<Event>, w: Window) {
    && |w.replies| == 1 + warm && Series(cell, w.replies)
    && (w.target.Some? <==> cell.snapstart)
    && !w.asked.Cancelled?
    && w.End() <= |log| && log[w.at..w.End()] == w.Events()
  }

  function CycleRows(cell: Config.Cell, cycle: nat, nonce: nat, replies: seq<Reply>): (rows: seq<Row>)
    requires forall i :: 0 <= i < |replies| ==> Clean(cell, replies[i])
    ensures |rows| == |replies|
  {
    seq(|replies|, i requires 0 <= i < |replies| =>
      assert Clean(cell, replies[i]);
      BuildRow(cell, cycle, i, i == 0, nonce, replies[i].report.value))
  }

  function Stamp(rows: seq<Row>, cpu: HostCpu): (out: seq<Row>)
    ensures |out| == |rows|
  {
    if cpu.Reported? then seq(|rows|, i requires 0 <= i < |rows| => rows[i].(hostCpu := Some(cpu.cpu))) else rows
  }

  function StampedRows(cell: Config.Cell, cycle: nat, w: Window): seq<Row>
    requires Series(cell, w.replies)
  {
    Stamp(CycleRows(cell, cycle, w.nonce, w.replies), CpuOf(cell, w.asked))
  }

  ghost predicate AllSeries(cell: Config.Cell, ws: seq<Window>) {
    forall i :: 0 <= i < |ws| ==> Series(cell, ws[i].replies)
  }

  /** The rows of cycles 0, 1, ... in order. */
  ghost function AllRows(cell: Config.Cell, ws: seq<Window>): seq<Row>
    requires AllSeries(cell, ws)
  {
    if ws == [] then []
    else AllRows(cell, ws[..|ws| - 1]) + StampedRows(cell, |ws| - 1, ws[|ws| - 1])
  }

  /** The windows lie in the history in cycle order, without overlap, each with a nonce
      younger than the one before. */
  ghost predicate Recorded(cell: Config.Cell, warm: nat, log: seq<Event>, ws: seq<Window>) {
    && (forall i :: 0 <= i < |ws| ==> Witnessed(cell, warm, log, ws[i]))
    && (forall i, j :: 0 <= i < j < |ws| ==> ws[i].End() <= ws[j].at && ws[i].nonce < ws[j].nonce)
  }

  /** A cycle without a host CPU either had its extra invoke land cold or follows a
      cycle that reported one. */
  ghost predicate CpuHistory(cell: Config.Cell, ws: seq<Window>) {
    forall i :: 0 <= i < |ws| ==>
      var cpu := CpuOf(cell, ws[i].asked);
      cpu.Reported? || cpu.Recycled? || exists j :: 0 <= j < i && CpuOf(cell, ws[j].asked).Reported?
  }

  lemma WitnessedLater(cell: Config.Cell, warm: nat, log: seq<Event>, later: seq<Event>, w: Window)
    requires Witnessed(cell, warm, log, w) && log <= later
    ensures Witnessed(cell, warm, later, w)
  {
    assert later[w.at..w.End()] == log[w.at..w.End()];
  }

  lemma RecordedLater(cell: Config.Cell, warm: nat, log: seq<Event>, later: seq<Event>, ws: seq<Window>)
    requires Recorded(cell, warm, log, ws) && log <= later
    ensures Recorded(cell, warm, later, ws)
  {
    forall i | 0 <= i < |ws|
      ensures Witnessed(cell, warm, later, ws[i])
    {
      WitnessedLater(cell, warm, log, later, ws[i]);
    }
  }

  lemma {:induction false} CpuSeen(cell: Config.Cell, ws: seq<Window>)
    requires AllSeries(cell, ws) && forall i :: 0 <= i < |ws| ==> |ws[i].replies| > 0
    ensures (exists r :: r in AllRows(cell, ws) && r.hostCpu.Some?)
       <==> (exists j :: 0 <= j < |ws| && CpuOf(cell, ws[j].asked).Reported?)
  {
    if ws != [] {
      var pre, last := ws[..|ws| - 1], ws[|ws| - 1];
      CpuSeen(cell, pre);
      var rows := StampedRows(cell, |ws| - 1, last);
      assert forall r :: r in AllRows(cell, ws) <==> r in AllRows(cell, pre) || r in rows;
      assert rows[0] in rows;
      if CpuOf(cell, last.asked).Reported? {
        assert rows[0].hostCpu.Some?;
        assert CpuOf(cell, ws[|ws| - 1].asked).Reported?;
      }
      if j :| 0 <= j < |pre| && CpuOf(cell, pre[j].asked).Reported? {
        assert CpuOf(cell, ws[j].asked).Reported?;
      }
    }
  }

  // ---- The cost of a call ---------------------------------------------------

  /** Most events of a kind that one call of `RunOneCycle` can cause. */
  function PerCall(cell: Config.Cell, warm: nat, k: Kind): nat {
    match k
    case Force => if cell.snapstart then 0 else MAX_CYCLE_ATTEMPTS * MAX_COLD_FORCE_ATTEMPTS
    case Publish => if cell.snapstart then MAX_CYCLE_ATTEMPTS else 0
    case Invoke => MAX_CYCLE_ATTEMPTS * PerAttempt(cell, warm, Invoke) + 1
    case Delete => if cell.snapstart then MAX_CYCLE_ATTEMPTS else 0
    case Leak => if cell.snapstart then 1 else 0
    case Other => 0
  }

  /** The same for one attempt at a cycle, host-CPU invoke apart. */
  function PerAttempt(cell: Config.Cell, warm: nat, k: Kind): nat {
    match k
    case Force => if cell.snapstart then 0 else MAX_COLD_FORCE_ATTEMPTS
    case Publish => if cell.snapstart then 1 else 0
    case Invoke => if cell.snapstart then 1 + warm else MAX_COLD_FORCE_ATTEMPTS + warm
    case Delete => if cell.snapstart then 1 else 0
    case Leak => 0
    case Other => 0
  }

  /** Between two histories, at most `n(k)` events of every counted kind. */
  ghost predicate Cost(before: seq<Event>, after: seq<Event>, n: Kind -> nat) {
    && before <= after
    && forall k :: k != Other ==> Count(after, k) <= Count(before, k) + n(k)
  }

  // ---- The warm tail --------------------------------------------------------

  method CollectWarmInvokes(aws: Aws, cell: Config.Cell, warm: nat, cycle: nat, nonce: nat, target: Option<nat>, rows: seq<Row>,
                            ghost cold: Reply)
    returns (r: Outcome<Option<nat>>, out: seq<Row>, ghost replies: seq<Reply>)
    requires Clean(cell, cold) && ColdReply(cell, cold) && rows == CycleRows(cell, cycle, nonce, [cold])
    requires aws.log != [] && aws.log[|aws.log| - 1] == Invoked(target, Ok(cold))
    modifies aws`log
    ensures r == Ok(None) ==>
      && |replies| == 1 + warm && Series(cell, replies) && replies[0] == cold
      && aws.log == old(aws.log) + Invokes(target, replies[1..])
      && out == CycleRows(cell, cycle, nonce, replies)
    ensures r.Ok? && r.value.Some? ==>
      1 <= r.value.value <= warm && |old(aws.log)| < |aws.log| && LostWarm(cell.scenario, aws.log, |aws.log| - 1)
    ensures r.Err? ==> |old(aws.log)| < |aws.log| && Trouble(cell.scenario, aws.log, |aws.log| - 1)
    ensures Stopped(old(aws.log), aws.log, r.Cancelled?)
    ensures GuardOf(aws.log) == GuardOf(old(aws.log))
    ensures Cost(old(aws.log), aws.log, (k: Kind) => if k == Invoke then warm else 0)
  {
    hide Count, GuardOf, IsRead, Stopped, Clean, Accepted;
    NotStopped(aws.log);
    replies := [cold];
    out := rows;
    for idx := 1 to warm + 1
      invariant |replies| == idx && Series(cell, replies) && replies[0] == cold
      invariant aws.log == old(aws.log) + Invokes(target, replies[1..]) && aws.log[|aws.log| - 1].Invoked?
      invariant out == CycleRows(cell, cycle, nonce, replies)
      invariant Stopped(old(aws.log), aws.log, false)
      invariant GuardOf(aws.log) == GuardOf(old(aws.log))
      invariant forall k :: Count(aws.log, k) == Count(old(aws.log), k) + if k == Invoke then idx - 1 else 0
    {
      ghost var before := aws.log;
      var res := aws.InvokeTail(target);
      StoppedOne(old(aws.log), before, aws.log, Invoked(target, res));
      if !res.Ok? {
        return if res.Err? then Err else Cancelled, out, replies;
      }
      CleanExactly(cell, res.value);
      if !Clean(cell, res.value) {
        return Err, out, replies;
      }
      CleanIsRead(cell, res.value);
      var report := res.value.report.value;
      if report.IsCold() {
        return Ok(Some(idx)), out, replies;
      }
      out := out + [BuildRow(cell, cycle, idx, false, nonce, report)];
      assert out == CycleRows(cell, cycle, nonce, replies + [res.value]);
      assert (replies + [res.value])[1..] == replies[1..] + [res.value];
      assert Invokes(target, replies[1..] + [res.value]) == Invokes(target, replies[1..]) + [Invoked(target, res)];
      replies := replies + [res.value];
    }
    return Ok(None), out, replies;
  }

  // ---- The cold start -------------------------------------------------------

  /** One force and the invoke behind it; `None` when the invoke landed warm. */
  method ForceOnce(aws: Aws, cell: Config.Cell) returns (r: Outcome<Option<nat>>, cold: Reply)
    modifies aws`log, aws`nonces
    ensures aws.nonces >= old(aws.nonces)
    ensures r.Ok? ==> Clean(cell, cold) && (r.value.Some? <==> cold.report.value.IsCold())
    ensures r.Ok? ==> exists nonce :: aws.log == old(aws.log) + [Forced(nonce, Ok(())), Invoked(None, Ok(cold))]
    ensures r.Ok? && r.value.Some? ==>
      && old(aws.nonces) <= r.value.value < aws.nonces
      && aws.log == old(aws.log) + [Forced(r.value.value, Ok(())), Invoked(None, Ok(cold))]
    ensures r.Err? ==> |old(aws.log)| < |aws.log| && Trouble(cell.scenario, aws.log, |aws.log| - 1)
    ensures Stopped(old(aws.log), aws.log, r.Cancelled?)
    ensures GuardOf(aws.log) == GuardOf(old(aws.log))
    ensures forall k :: k != Other ==>
      Count(old(aws.log), k) <= Count(aws.log, k) <= Count(old(aws.log), k) + if k == Force || k == Invoke then 1 else 0
  {
    hide Count, GuardOf, IsRead, Stopped;
    NotStopped(aws.log);
    cold := Reply(0, false, "", Failure, None, NoPayload);
    var nonce := aws.FreshNonce();
    var forced := aws.ForceCold(nonce);
    StoppedOne(old(aws.log), old(aws.log), aws.log, Forced(nonce, forced));
    ghost var mid := aws.log;
    if !forced.Ok? {
      return if forced.Err? then Err else Cancelled, cold;
    }
    assert forced.value == ();
    var res := aws.InvokeTail(None);
    StoppedOne(old(aws.log), mid, aws.log, Invoked(None, res));
    if !res.Ok? {
      return if res.Err? then Err else Cancelled, cold;
    }
    cold := res.value;
    CleanExactly(cell, cold);
    if !Clean(cell, cold) {
      return Err, cold;
    }
    return Ok(if cold.report.value.IsCold() then Some(nonce) else None), cold;
  }

  method ForceColdInvoke(aws: Aws, cell: Config.Cell, cycle: nat)
    returns (r: Outcome<(nat, Row)>, ghost cold: Reply)
    modifies aws`log, aws`nonces
    ensures aws.nonces >= old(aws.nonces)
    ensures r.Ok? ==>
      && Clean(cell, cold) && cold.report.value.IsCold()
      && r.value.1 == BuildRow(cell, cycle, 0, true, r.value.0, cold.report.value)
      && old(aws.nonces) <= r.value.0 < aws.nonces
      && |aws.log| >= |old(aws.log)| + 2
      && aws.log[|aws.log| - 2..] == [Forced(r.value.0, Ok(())), Invoked(None, Ok(cold))]
    ensures Stopped(old(aws.log), aws.log, r.Cancelled?)
    ensures GuardOf(aws.log) == GuardOf(old(aws.log))
    ensures Cost(old(aws.log), aws.log, (k: Kind) => if k == Force || k == Invoke then MAX_COLD_FORCE_ATTEMPTS else 0)
    ensures r.Err? ==> AttemptFailed(cell.scenario, aws.log, |old(aws.log)|)
  {
    hide Count, GuardOf, IsRead, Clean, Stopped, AttemptFailed, Trouble, Accepted;
    NotStopped(aws.log);
    cold := Reply(0, false, "", Failure, None, NoPayload);
    for attempt := 1 to MAX_COLD_FORCE_ATTEMPTS + 1
      invariant Stopped(old(aws.log), aws.log, false)
      invariant old(aws.log) <= aws.log && GuardOf(aws.log) == GuardOf(old(aws.log))
      invariant |aws.log| == |old(aws.log)| + 3 * (attempt - 1)
      invariant forall k :: 0 <= k < attempt - 1 ==> WarmRound(cell.scenario, aws.log, |old(aws.log)| + 3 * k)
      invariant forall k :: k != Other ==>
        Count(aws.log, k) <= Count(old(aws.log), k) + if k == Force || k == Invoke then attempt - 1 else 0
      invariant aws.nonces >= old(aws.nonces)
    {
      ghost var before := aws.log;
      var forced, reply := ForceOnce(aws, cell);
      cold := reply;
      StoppedAfter(old(aws.log), before, aws.log, forced.Cancelled?);
      if !forced.Ok? {
        if forced.Err? {
          TroubleLater(cell.scenario, aws.log, aws.log, |old(aws.log)|, |aws.log| - 1);
        }
        return if forced.Err? then Err else Cancelled, cold;
      }
      CleanExactly(cell, reply);
      if forced.value.Some? {
        var nonce := forced.value.value;
        return Ok((nonce, ColdRow(cell, cycle, nonce, reply))), cold;
      }
      ghost var invoked := aws.log;
      var slept := aws.Sleep();
      StoppedOne(old(aws.log), invoked, aws.log, Slept(slept));
      if slept.Cancelled? {
        return Cancelled, cold;
      }
      OneMoreRound(cell.scenario, before, aws.log, |old(aws.log)|, attempt - 1);
    }
    SixRounds(cell.scenario, aws.log, |old(aws.log)|);
    return Err, cold;
  }

  function ColdRow(cell: Config.Cell, cycle: nat, nonce: nat, r: Reply): Row
    requires Clean(cell, r)
  {
    BuildRow(cell, cycle, 0, true, nonce, r.report.value)
  }

  /** Ends a clean cycle with one unrecorded invoke; only a cancellation is not kept. */
  method ReportHostCpu(aws: Aws, cell: Config.Cell, target: Option<nat>, rows: seq<Row>)
    returns (r: Outcome<CycleOutcome>, ghost asked: Outcome<Reply>)
    modifies aws`log
    ensures Grew(old(aws.log), aws.log, AskedCpu(target, asked))
    ensures Stopped(old(aws.log), aws.log, r.Cancelled?)
    ensures r == if asked.Cancelled? then Cancelled else Ok(Complete(rows, CpuOf(cell, asked)))
  {
    hide IsRead;
    var res := aws.InvokeHostCpu(target);
    NotStopped(old(aws.log));
    StoppedOne(old(aws.log), old(aws.log), aws.log, AskedCpu(target, res));
    asked := res;
    if res.Cancelled? {
      return Cancelled, asked;
    }
    var cpu: HostCpu;
    if res.Err? || !Clean(cell, res.value) {
      cpu := CpuFailed;
    } else if res.value.report.value.IsCold() {
      cpu := Recycled;
    } else {
      match res.value.hostCpu
      case Some(line) => cpu := Reported(line);
      case None => cpu := NoLine;
    }
    return Ok(Complete(rows, cpu)), asked;
  }

  // ---- One attempt at a cycle -----------------------------------------------

  /** What a clean attempt leaves behind, wherever its window lies. */
  ghost predicate Completed(cell: Config.Cell, warm: nat, cycle: nat, log: seq<Event>, o: CycleOutcome, w: Window) {
    && Witnessed(cell, warm, log, w)
    && o == Complete(CycleRows(cell, cycle, w.nonce, w.replies), CpuOf(cell, w.asked))
  }

  method TryOneLatestCycle(aws: Aws, cell: Config.Cell, warm: nat, cycle: nat)
    returns (r: Outcome<CycleOutcome>, ghost w: Window)
    requires !cell.snapstart
    modifies aws`log, aws`nonces
    ensures aws.nonces >= old(aws.nonces)
    ensures r.Ok? && r.value.Complete? ==>
      && Completed(cell, warm, cycle, aws.log, r.value, w)
      && w.at >= |old(aws.log)| && old(aws.nonces) <= w.nonce < aws.nonces
    ensures Stopped(old(aws.log), aws.log, r.Cancelled?)
    ensures GuardOf(aws.log) == GuardOf(old(aws.log))
    ensures Cost(old(aws.log), aws.log, k => PerAttempt(cell, warm, k)
              + if k == Invoke && !(r.Ok? && r.value.WarmRecycled?) then 1 else 0)
    ensures r.Err? ==> AttemptFailed(cell.scenario, aws.log, |old(aws.log)|)
    ensures r.Ok? && r.value.WarmRecycled? ==> AttemptLost(cell.scenario, aws.log, |old(aws.log)|)
  {
    hide Count, GuardOf, IsRead, Stopped, AttemptFailed, AttemptLost, Trouble, LostWarm;
    w := Window(0, 0, None, [], Err);
    var forced, cold := ForceColdInvoke(aws, cell, cycle);
    if !forced.Ok? {
      return if forced.Err? then Err else Cancelled, w;
    }
    var (nonce, coldRow) := forced.value;
    ghost var at := |aws.log| - 2;
    ghost var started := aws.log;
    var recycled, rows, replies := CollectWarmInvokes(aws, cell, warm, cycle, nonce, None, [coldRow], cold);
    StoppedAfter(old(aws.log), started, aws.log, recycled.Cancelled?);
    if !recycled.Ok? {
      if recycled.Err? {
        TroubleLater(cell.scenario, aws.log, aws.log, |old(aws.log)|, |aws.log| - 1);
      }
      return if recycled.Err? then Err else Cancelled, w;
    }
    if recycled.value.Some? {
      LostLater(cell.scenario, aws.log, aws.log, |old(aws.log)|, |aws.log| - 1);
      return Ok(WarmRecycled(recycled.value.value)), w;
    }
    ghost var warmed := aws.log;
    var o, asked := ReportHostCpu(aws, cell, None, rows);
    StoppedAfter(old(aws.log), warmed, aws.log, o.Cancelled?);
    w := Window(at, nonce, None, replies, asked);
    if o.Ok? {
      WindowClosed(started, aws.log, w);
    }
    return o, w;
  }

  /** The pieces of a window make the window. */
  lemma WindowClosed(started: seq<Event>, log: seq<Event>, w: Window)
    requires |w.replies| > 0 && |started| >= 2 && w.at == |started| - 2
    requires started[w.at..] == [w.Opening(), Invoked(w.target, Ok(w.replies[0]))]
    requires log == started + Invokes(w.target, w.replies[1..]) + [AskedCpu(w.target, w.asked)]
    ensures w.End() == |log| && log[w.at..w.End()] == w.Events()
  {
    var first := Invoked(w.target, Ok(w.replies[0]));
    assert Invokes(w.target, w.replies) == [first] + Invokes(w.target, w.replies[1..]);
    assert log[w.at..] == started[w.at..] + Invokes(w.target, w.replies[1..]) + [AskedCpu(w.target, w.asked)];
    assert log[w.at..w.End()] == log[w.at..];
  }

  /** Deletes a published version when the cycle that owns it is dropped at an await. */
  class VersionGuard {
    var version: Option<nat>

    constructor (v: nat)
      ensures version == Some(v)
    {
      version := Some(v);
    }

    method Disarm()
      modifies this
      ensures version == None
    {
      version := None;
    }

    /** Runs when the guard goes out of scope. */
    method Drop(aws: Aws)
      modifies this, aws`log, aws`leaked
      ensures version == None
      ensures old(version).Some? ==>
        Grew(old(aws.log), aws.log, Leaked(old(version).value)) && aws.leaked == old(aws.leaked) + [old(version).value]
      ensures old(version).None? ==> aws.log == old(aws.log) && aws.leaked == old(aws.leaked)
    {
      if version.Some? {
        aws.DropGuard(version.value);
        version := None;
      }
    }
  }

  method RunSnapstartInvokes(aws: Aws, cell: Config.Cell, warm: nat, cycle: nat, nonce: nat, version: nat)
    returns (r: Outcome<CycleOutcome>, ghost w: Window)
    requires cell.snapstart
    requires |aws.log| > 0 && aws.log[|aws.log| - 1] == Published(nonce, Ok(version))
    modifies aws`log
    ensures r.Ok? && r.value.Complete? ==>
      Completed(cell, warm, cycle, aws.log, r.value, w) && w.at == |old(aws.log)| - 1 && w.nonce == nonce && w.target == Some(version)
    ensures Stopped(old(aws.log), aws.log, r.Cancelled?)
    ensures GuardOf(aws.log) == GuardOf(old(aws.log))
    ensures Cost(old(aws.log), aws.log, (k: Kind) =>
      if k == Invoke then 1 + warm + (if r.Ok? && r.value.WarmRecycled? then 0 else 1) else 0)
    ensures r.Err? ==> AttemptFailed(cell.scenario, aws.log, |old(aws.log)|)
    ensures r.Ok? && r.value.WarmRecycled? ==> AttemptLost(cell.scenario, aws.log, |old(aws.log)|)
  {
    hide Count, GuardOf, IsRead, Stopped, AttemptFailed, AttemptLost, LostWarm, Accepted;
    NotStopped(aws.log);
    w := Window(0, 0, None, [], Err);
    ghost var at := |aws.log| - 1;
    var res := aws.InvokeTail(Some(version));
    StoppedOne(old(aws.log), old(aws.log), aws.log, Invoked(Some(version), res));
    if !res.Ok? {
      if res.Err? {
        TroubleLater(cell.scenario, aws.log, aws.log, |old(aws.log)|, |aws.log| - 1);
      }
      return if res.Err? then Err else Cancelled, w;
    }
    CleanExactly(cell, res.value);
    if !Clean(cell, res.value) {
      TroubleLater(cell.scenario, aws.log, aws.log, |old(aws.log)|, |aws.log| - 1);
      return Err, w;
    }
    var report := res.value.report.value;
    if report.restoreMs.None? {
      TroubleLater(cell.scenario, aws.log, aws.log, |old(aws.log)|, |aws.log| - 1);
      return Err, w;
    }
    ghost var started := aws.log;
    var rows := [BuildRow(cell, cycle, 0, true, nonce, report)];
    var recycled, out, replies := CollectWarmInvokes(aws, cell, warm, cycle, nonce, Some(version), rows, res.value);
    StoppedAfter(old(aws.log), started, aws.log, recycled.Cancelled?);
    if !recycled.Ok? {
      if recycled.Err? {
        TroubleLater(cell.scenario, aws.log, aws.log, |old(aws.log)|, |aws.log| - 1);
      }
      return if recycled.Err? then Err else Cancelled, w;
    }
    if recycled.value.Some? {
      LostLater(cell.scenario, aws.log, aws.log, |old(aws.log)|, |aws.log| - 1);
      return Ok(WarmRecycled(recycled.value.value)), w;
    }
    ghost var warmed := aws.log;
    var o, asked := ReportHostCpu(aws, cell, Some(version), out);
    StoppedAfter(old(aws.log), warmed, aws.log, o.Cancelled?);
    w := Window(at, nonce, Some(version), replies, asked);
    if o.Ok? {
      WindowClosed(started, aws.log, w);
    }
    return o, w;
  }

  /** Publishes a version, invokes it under the guard, deletes it. The guard is armed only
      once the version has been handed back and disarmed only once the delete returned. */
  method TryOneSnapstartCycle(aws: Aws, cell: Config.Cell, warm: nat, cycle: nat)
    returns (r: Outcome<CycleOutcome>, ghost w: Window)
    requires cell.snapstart && GuardOf(aws.log) == Idle
    modifies aws
    ensures aws.nonces >= old(aws.nonces)
    ensures r.Ok? && r.value.Complete? ==>
      && Completed(cell, warm, cycle, aws.log, r.value, w)
      && w.at >= |old(aws.log)| && old(aws.nonces) <= w.nonce < aws.nonces
    ensures Ended(old(aws.log), aws.log, old(aws.leaked), aws.leaked, r.Cancelled?)
    ensures GuardOf(aws.log) == Idle
    ensures !r.Cancelled? ==> aws.leaked == old(aws.leaked) && Count(aws.log, Leak) == Count(old(aws.log), Leak)
    ensures Count(aws.log, Leak) - Count(old(aws.log), Leak) == |aws.leaked| - |old(aws.leaked)| <= 1
    ensures Cost(old(aws.log), aws.log, k => PerAttempt(cell, warm, k)
              + (if k == Invoke && !(r.Ok? && r.value.WarmRecycled?) then 1 else 0)
              + (if k == Leak && r.Cancelled? then 1 else 0))
    ensures r.Err? ==> AttemptFailed(cell.scenario, aws.log, |old(aws.log)|)
    ensures r.Ok? && r.value.WarmRecycled? ==> AttemptLost(cell.scenario, aws.log, |old(aws.log)|)
  {
    hide Count, GuardOf, Completed, Stopped, Ended, AttemptFailed, AttemptLost;
    NotStopped(aws.log);
    w := Window(0, 0, None, [], Err);
    var nonce := aws.FreshNonce();
    var published := aws.PublishColdVersion(nonce);
    StoppedOne(old(aws.log), old(aws.log), aws.log, Published(nonce, published));
    if !published.Ok? {
      EndedIdle(old(aws.log), aws.log, aws.leaked, published.Cancelled?);
      if published.Err? {
        TroubleLater(cell.scenario, aws.log, aws.log, |old(aws.log)|, |aws.log| - 1);
      }
      return if published.Err? then Err else Cancelled, w;
    }
    var version := published.value;
    var guard := new VersionGuard(version);
    ghost var armed := aws.log;
    var outcome, window := RunSnapstartInvokes(aws, cell, warm, cycle, nonce, version);
    ghost var before := aws.log;
    CountGrows(old(aws.log), before, Leak);
    StoppedAfter(old(aws.log), armed, aws.log, outcome.Cancelled?);
    var cut := EndSnapstartCycle(aws, guard, version, outcome.Cancelled?, old(aws.log));
    if cut {
      return Cancelled, window;
    }
    if outcome.Err? {
      AttemptFailedLater(cell.scenario, before, aws.log, |armed|, |old(aws.log)|);
    } else if outcome.value.WarmRecycled? {
      AttemptLostLater(cell.scenario, before, aws.log, |armed|, |old(aws.log)|);
    } else {
      CompletedLater(cell, warm, cycle, before, aws.log, outcome.value, window);
    }
    return outcome, window;
  }

  lemma CompletedLater(cell: Config.Cell, warm: nat, cycle: nat, log: seq<Event>, later: seq<Event>, o: CycleOutcome, w: Window)
    requires Completed(cell, warm, cycle, log, o, w) && log <= later
    ensures Completed(cell, warm, cycle, later, o, w)
  {
    WitnessedLater(cell, warm, log, later, w);
  }

  /** The end of a guarded cycle: a cancelled one drops its armed guard, any other one
      awaits the delete, during which it can still be cancelled. */
  method EndSnapstartCycle(aws: Aws, guard: VersionGuard, version: nat, cancelled: bool, ghost start: seq<Event>) returns (cut: bool)
    requires GuardOf(aws.log) == Armed(version) && guard.version == Some(version)
    requires Stopped(start, aws.log, cancelled)
    modifies guard, aws`log, aws`leaked
    ensures GuardOf(aws.log) == Idle && old(aws.log) <= aws.log && guard.version == None
    ensures Ended(start, aws.log, old(aws.leaked), aws.leaked, cut)
    ensures cancelled ==> cut
    ensures aws.leaked == if cut then old(aws.leaked) + [version] else old(aws.leaked)
    ensures Count(aws.log, Leak) == Count(old(aws.log), Leak) + if cut then 1 else 0
    ensures Count(aws.log, Delete) == Count(old(aws.log), Delete) + if cancelled then 0 else 1
    ensures forall k :: k != Leak && k != Delete && k != Other ==> Count(aws.log, k) == Count(old(aws.log), k)
  {
    hide Count, GuardOf, Stopped, Ended;
    if cancelled {
      EndedLeak(start, aws.log, aws.leaked, version);
      guard.Drop(aws);
      return true;
    }
    ghost var before := aws.log;
    var deleted := aws.DeleteVersion(version);
    StoppedOne(start, before, before + [DeleteStarted(version)], DeleteStarted(version));
    assert aws.log == before + [DeleteStarted(version)] + [DeleteEnded(version, deleted)];
    StoppedOne(start, before + [DeleteStarted(version)], aws.log, DeleteEnded(version, deleted));
    if deleted.Cancelled? {
      EndedLeak(start, aws.log, aws.leaked, version);
      guard.Drop(aws);
      return true;
    }
    EndedIdle(start, aws.log, aws.leaked, false);
    guard.Disarm();
    guard.Drop(aws);
    return false;
  }

  method TryOneCycle(aws: Aws, cell: Config.Cell, warm: nat, cycle: nat)
    returns (r: Outcome<CycleOutcome>, ghost w: Window)
    requires GuardOf(aws.log) == Idle
    modifies aws
    ensures aws.nonces >= old(aws.nonces)
    ensures r.Ok? && r.value.Complete? ==>
      && Completed(cell, warm, cycle, aws.log, r.value, w)
      && w.at >= |old(aws.log)| && old(aws.nonces) <= w.nonce < aws.nonces
    ensures Ended(old(aws.log), aws.log, old(aws.leaked), aws.leaked, r.Cancelled?)
    ensures GuardOf(aws.log) == Idle
    ensures Cost(old(aws.log), aws.log, k => PerAttempt(cell, warm, k)
              + (if k == Invoke && !(r.Ok? && r.value.WarmRecycled?) then 1 else 0)
              + (if k == Leak && cell.snapstart && r.Cancelled? then 1 else 0))
    ensures r.Err? ==> AttemptFailed(cell.scenario, aws.log, |old(aws.log)|)
    ensures r.Ok? && r.value.WarmRecycled? ==> AttemptLost(cell.scenario, aws.log, |old(aws.log)|)
  {
    hide AttemptFailed, AttemptLost;
    if cell.snapstart {
      r, w := TryOneSnapstartCycle(aws, cell, warm, cycle);
    } else {
      r, w := TryOneLatestCycle(aws, cell, warm, cycle);
      EndedIdle(old(aws.log), aws.log, aws.leaked, r.Cancelled?);
    }
  }

  /** Re-runs the whole cycle while a warm invoke keeps landing cold. */
  method RunOneCycle(aws: Aws, cell: Config.Cell, warm: nat, cycle: nat)
    returns (r: Outcome<(seq<Row>, HostCpu)>, ghost w: Window)
    requires GuardOf(aws.log) == Idle
    modifies aws
    ensures aws.nonces >= old(aws.nonces)
    ensures r.Ok? ==>
      && Completed(cell, warm, cycle, aws.log, Complete(r.value.0, r.value.1), w)
      && w.at >= |old(aws.log)| && old(aws.nonces) <= w.nonce < aws.nonces
    ensures Ended(old(aws.log), aws.log, old(aws.leaked), aws.leaked, r.Cancelled?)
    ensures GuardOf(aws.log) == Idle
    ensures Cost(old(aws.log), aws.log, k => PerCall(cell, warm, k))
    ensures r.Err? ==> CycleFailed(cell.scenario, aws.log, |old(aws.log)|)
  {
    hide Count, GuardOf, Completed, Ended, AttemptFailed, AttemptLost, LostAt;
    NotEnded(aws.log, aws.leaked);
    ghost var lost: seq<nat> := [];
    NotLost(cell.scenario, aws.log);
    w := Window(0, 0, None, [], Err);
    for attempt := 1 to MAX_CYCLE_ATTEMPTS + 1
      invariant Ended(old(aws.log), aws.log, old(aws.leaked), aws.leaked, false)
      invariant old(aws.log) <= aws.log && GuardOf(aws.log) == Idle
      invariant aws.leaked == old(aws.leaked) && aws.nonces >= old(aws.nonces)
      invariant |lost| == attempt - 1 && LostAt(cell.scenario, aws.log, |old(aws.log)|, lost)
      invariant forall k :: k != Other ==>
        Count(aws.log, k) <= Count(old(aws.log), k) + (attempt - 1) * PerAttempt(cell, warm, k)
    {
      forall k
        ensures attempt * PerAttempt(cell, warm, k) == (attempt - 1) * PerAttempt(cell, warm, k) + PerAttempt(cell, warm, k)
        ensures attempt * PerAttempt(cell, warm, k) <= MAX_CYCLE_ATTEMPTS * PerAttempt(cell, warm, k)
      {
        BillsAdd(attempt - 1, 1, PerAttempt(cell, warm, k));
        BillsAdd(attempt, MAX_CYCLE_ATTEMPTS - attempt, PerAttempt(cell, warm, k));
      }
      ghost var before := aws.log;
      var o;
      o, w := TryOneCycle(aws, cell, warm, cycle);
      EndedAfter(old(aws.log), before, aws.log, old(aws.leaked), aws.leaked, o.Cancelled?);
      if !o.Ok? {
        if o.Err? {
          AttemptFailedLater(cell.scenario, aws.log, aws.log, |before|, |old(aws.log)|);
        }
        return if o.Err? then Err else Cancelled, w;
      }
      if o.value.Complete? {
        return Ok((o.value.rows, o.value.cpu)), w;
      }
      ghost var tried := aws.log;
      var slept := aws.Sleep();
      EndedOne(old(aws.log), tried, aws.log, Slept(slept), aws.leaked);
      if slept.Cancelled? {
        return Cancelled, w;
      }
      AttemptLostLater(cell.scenario, tried, aws.log, |before|, |before|);
      lost := LostOnceMore(cell.scenario, before, aws.log, |old(aws.log)|, |before|, lost);
    }
    return Err, w;
  }

  // ---- The cell -------------------------------------------------------------

  /** Whether a cycle is kept: a missing CPU line or a failed extra invoke fails the cell
      until it has reported a CPU once; a cold extra invoke never does. */
  predicate Keeps(cpu: HostCpu, seen: bool) {
    cpu.Reported? || cpu.Recycled? || seen
  }

  method ApplyHostCpu(rows: seq<Row>, cpu: HostCpu, cpuSeen: bool) returns (r: Result<seq<Row>>)
    ensures r == if Keeps(cpu, cpuSeen) then Success(Stamp(rows, cpu)) else Failure
  {
    match cpu
    case Reported(name) =>
      var out: seq<Row> := [];
      for i := 0 to |rows|
        invariant out == Stamp(rows, cpu)[..i]
      {
        out := out + [rows[i].(hostCpu := Some(name))];
      }
      assert out == Stamp(rows, cpu);
      return Success(out);
    case Recycled => return Success(rows);
    case NoLine =>
      if !cpuSeen {
        return Failure;
      }
      return Success(rows);
    case CpuFailed =>
      if !cpuSeen {
        return Failure;
      }
      return Success(rows);
  }

  /** The two values that survive a failed attempt at a cell, with the windows of the
      history they rest on and the number of cycle calls made so far. */
  class Progress {
    var cycle: nat
    var rows: seq<Row>
    ghost var start: nat
    ghost var windows: seq<Window>
    ghost var calls: nat

    constructor (ghost begin: nat)
      ensures cycle == 0 && rows == [] && windows == [] && calls == 0 && start == begin
    {
      cycle, rows, windows, calls, start := 0, [], [], 0, begin;
    }

    ghost predicate Holds(aws: Aws, cell: Config.Cell, counts: Config.Counts)
      reads this, aws
    {
      cycle == |windows| <= counts.cold && Kept(cell, counts.warm, start, aws.log, aws.nonces, rows, windows)
    }
  }

  /** The rows are exactly those of the clean cycles so far, each resting on a stretch of
      the history since the cell began. */
  ghost predicate Kept(cell: Config.Cell, warm: nat, start: nat, log: seq<Event>, nonces: nat, rows: seq<Row>, ws: seq<Window>) {
    && Recorded(cell, warm, log, ws) && AllSeries(cell, ws) && CpuHistory(cell, ws)
    && rows == AllRows(cell, ws)
    && start <= |log|
    && (forall i :: 0 <= i < |ws| ==> start <= ws[i].at && ws[i].nonce < nonces)
  }

  lemma KeptLater(cell: Config.Cell, warm: nat, start: nat, log: seq<Event>, nonces: nat, rows: seq<Row>, ws: seq<Window>,
                  later: seq<Event>, more: nat)
    requires Kept(cell, warm, start, log, nonces, rows, ws) && log <= later && nonces <= more
    ensures Kept(cell, warm, start, later, more, rows, ws)
  {
    RecordedLater(cell, warm, log, later, ws);
  }

  lemma KeptNext(cell: Config.Cell, warm: nat, start: nat, log: seq<Event>, nonces: nat, rows: seq<Row>, ws: seq<Window>,
                 later: seq<Event>, more: nat, cycleRows: seq<Row>, cpu: HostCpu, w: Window, seen: bool)
    requires Kept(cell, warm, start, log, nonces, rows, ws) && log <= later && nonces <= w.nonce < more
    requires Completed(cell, warm, |ws|, later, Complete(cycleRows, cpu), w) && |log| <= w.at
    requires Keeps(cpu, seen) && (seen <==> exists r :: r in rows && r.hostCpu.Some?)
    ensures Kept(cell, warm, start, later, more, rows + Stamp(cycleRows, cpu), ws + [w])
  {
    hide Witnessed, Series, Recorded, CpuHistory, CycleRows, Stamp, CpuOf, AllRows, AllSeries, Keeps;
    WindowAdded(cell, warm, log, later, ws, w, seen);
    CompletedRows(cell, warm, |ws|, later, cycleRows, cpu, w);
    hide StampedRows, Completed;
    forall i | 0 <= i < |ws + [w]| ensures start <= (ws + [w])[i].at && (ws + [w])[i].nonce < more {
      assert i < |ws| ==> (ws + [w])[i] == ws[i];
    }
  }

  lemma CompletedRows(cell: Config.Cell, warm: nat, cycle: nat, log: seq<Event>, cycleRows: seq<Row>, cpu: HostCpu, w: Window)
    requires Completed(cell, warm, cycle, log, Complete(cycleRows, cpu), w)
    ensures Witnessed(cell, warm, log, w) && Series(cell, w.replies)
    ensures Stamp(cycleRows, cpu) == StampedRows(cell, cycle, w) && cpu == CpuOf(cell, w.asked)
  {
    hide Stamp, CpuOf, CycleRows;
  }

  /** A completed cycle joins the ones before it. */
  lemma WindowAdded(cell: Config.Cell, warm: nat, before: seq<Event>, log: seq<Event>, ws: seq<Window>, w: Window, seen: bool)
    requires Recorded(cell, warm, before, ws) && before <= log && AllSeries(cell, ws)
    requires Witnessed(cell, warm, log, w) && |before| <= w.at
    requires forall i :: 0 <= i < |ws| ==> ws[i].nonce < w.nonce
    requires CpuHistory(cell, ws) && Keeps(CpuOf(cell, w.asked), seen)
    requires seen <==> exists r :: r in AllRows(cell, ws) && r.hostCpu.Some?
    ensures AllSeries(cell, ws + [w]) && Recorded(cell, warm, log, ws + [w])
    ensures AllRows(cell, ws + [w]) == AllRows(cell, ws) + StampedRows(cell, |ws|, w)
    ensures CpuHistory(cell, ws + [w])
  {
    hide Witnessed, CycleRows, CpuHistory, Keeps, CpuOf, StampedRows;
    RecordedLater(cell, warm, before, log, ws);
    assert (ws + [w])[..|ws|] == ws;
    assert Witnessed(cell, warm, log, w);
    RecordedAdd(cell, warm, before, log, ws, w);
    CpuSeenWarm(cell, warm, before, ws);
    CpuHistoryAdd(cell, ws, w, seen);
  }

  lemma RecordedAdd(cell: Config.Cell, warm: nat, before: seq<Event>, log: seq<Event>, ws: seq<Window>, w: Window)
    requires Recorded(cell, warm, before, ws) && Recorded(cell, warm, log, ws)
    requires Witnessed(cell, warm, log, w) && |before| <= w.at
    requires forall i :: 0 <= i < |ws| ==> ws[i].nonce < w.nonce
    ensures AllSeries(cell, ws + [w]) && Recorded(cell, warm, log, ws + [w])
  {
    forall i | 0 <= i < |ws|
      ensures ws[i].End() <= |before| && Series(cell, ws[i].replies)
    {
      assert Witnessed(cell, warm, before, ws[i]);
    }
    assert Series(cell, w.replies);
  }

  lemma CpuSeenWarm(cell: Config.Cell, warm: nat, log: seq<Event>, ws: seq<Window>)
    requires Recorded(cell, warm, log, ws) && AllSeries(cell, ws)
    ensures (exists r :: r in AllRows(cell, ws) && r.hostCpu.Some?)
       <==> (exists j :: 0 <= j < |ws| && CpuOf(cell, ws[j].asked).Reported?)
  {
    forall i | 0 <= i < |ws|
      ensures |ws[i].replies| > 0
    {
      assert Witnessed(cell, warm, log, ws[i]);
    }
    CpuSeen(cell, ws);
  }

  lemma CpuHistoryAdd(cell: Config.Cell, ws: seq<Window>, w: Window, seen: bool)
    requires CpuHistory(cell, ws) && Keeps(CpuOf(cell, w.asked), seen)
    requires seen <==> exists j :: 0 <= j < |ws| && CpuOf(cell, ws[j].asked).Reported?
    ensures CpuHistory(cell, ws + [w])
  {
    hide CpuOf;
    var all := ws + [w];
    assert forall j :: 0 <= j < |ws| ==> all[j] == ws[j];
    forall i | 0 <= i < |all|
      ensures var cpu := CpuOf(cell, all[i].asked);
        cpu.Reported? || cpu.Recycled? || exists j :: 0 <= j < i && CpuOf(cell, all[j].asked).Reported?
    {
      if i < |ws| {
        if !CpuOf(cell, ws[i].asked).Reported? && !CpuOf(cell, ws[i].asked).Recycled? {
          var j :| 0 <= j < i && CpuOf(cell, ws[j].asked).Reported?;
          assert CpuOf(cell, all[j].asked).Reported?;
        }
      } else if seen {
        var j :| 0 <= j < |ws| && CpuOf(cell, ws[j].asked).Reported?;
        assert CpuOf(cell, all[j].asked).Reported?;
      }
    }
  }

  /** Between two histories, at most what `n` cycle calls can cost. */
  ghost predicate Within(before: seq<Event>, after: seq<Event>, cell: Config.Cell, warm: nat, n: nat) {
    && before <= after
    && forall k :: k != Other ==> Count(after, k) <= Count(before, k) + n * PerCall(cell, warm, k)
  }

  lemma WithinNothing(log: seq<Event>, cell: Config.Cell, warm: nat)
    ensures Within(log, log, cell, warm, 0)
  {
  }

  lemma WithinAdds(a: seq<Event>, b: seq<Event>, c: seq<Event>, cell: Config.Cell, warm: nat, m: nat, n: nat)
    requires Within(a, b, cell, warm, m) && Within(b, c, cell, warm, n)
    ensures Within(a, c, cell, warm, m + n)
  {
    forall k | k != Other
      ensures Count(c, k) <= Count(a, k) + (m + n) * PerCall(cell, warm, k)
    {
      BillsAdd(m, n, PerCall(cell, warm, k));
    }
  }

  lemma WithinMore(a: seq<Event>, b: seq<Event>, cell: Config.Cell, warm: nat, m: nat, most: nat)
    requires Within(a, b, cell, warm, m) && m <= most
    ensures Within(a, b, cell, warm, most)
  {
    forall k | k != Other
      ensures Count(b, k) <= Count(a, k) + most * PerCall(cell, warm, k)
    {
      BillsAdd(m, most - m, PerCall(cell, warm, k));
    }
  }

  lemma BillsAdd(m: nat, n: nat, unit: nat)
    ensures m * unit + n * unit == (m + n) * unit
    ensures m * unit <= (m + n) * unit
  {
  }

  /** The last cycle call of `log`, since `from`, failed: the cycle did, or its extra invoke reported no CPU and no cycle
      kept before it had one. */
  ghost predicate CallFailed(scenario: Config.Scenario, log: seq<Event>, from: nat, ws: seq<Window>) {
    || CycleFailed(scenario, log, from)
    || (exists i :: from <= i < |log| && NoCpu(scenario, log, i) && NoneBefore(scenario, ws, i))
  }

  ghost predicate NoneBefore(scenario: Config.Scenario, ws: seq<Window>, i: nat) {
    forall j :: 0 <= j < |ws| && ws[j].at < i ==> AskedCpuLine(scenario, ws[j].asked).None?
  }

  /** Cycle calls failed one after the other, at the ends of `logs`. */
  ghost predicate CallsFailed(scenario: Config.Scenario, start: nat, logs: seq<seq<Event>>, log: seq<Event>, ws: seq<Window>) {
    forall k :: 0 <= k < |logs| ==> FailedAt(scenario, start, logs, k, log, ws)
  }

  ghost predicate FailedAt(scenario: Config.Scenario, start: nat, logs: seq<seq<Event>>, k: nat, log: seq<Event>, ws: seq<Window>)
    requires k < |logs|
  {
    && logs[k] <= log && (k > 0 ==> |logs[k - 1]| <= |logs[k]|)
    && CallFailed(scenario, logs[k], if k == 0 then start else |logs[k - 1]|, ws)
  }

  lemma CallFailedLater(scenario: Config.Scenario, log: seq<Event>, from: nat, start: nat, ws: seq<Window>, more: seq<Window>)
    requires CallFailed(scenario, log, from, ws) && start <= from
    requires ws <= more && forall j :: |ws| <= j < |more| ==> more[j].at >= |log|
    ensures CallFailed(scenario, log, start, more)
  {
    hide NoCpu, AskedCpuLine;
    if CycleFailed(scenario, log, from) {
      CycleFailedSince(scenario, log, from, start);
    } else {
      var i :| from <= i < |log| && NoCpu(scenario, log, i) && NoneBefore(scenario, ws, i);
      assert NoneBefore(scenario, more, i);
    }
  }

  lemma CallsFailedLater(scenario: Config.Scenario, start: nat, logs: seq<seq<Event>>, log: seq<Event>, later: seq<Event>,
                         ws: seq<Window>, more: seq<Window>)
    requires CallsFailed(scenario, start, logs, log, ws) && log <= later
    requires ws <= more && forall j :: |ws| <= j < |more| ==> more[j].at >= |log|
    ensures CallsFailed(scenario, start, logs, later, more)
  {
    hide CallFailed;
    forall k | 0 <= k < |logs|
      ensures FailedAt(scenario, start, logs, k, later, more)
    {
      assert FailedAt(scenario, start, logs, k, log, ws);
      var from := if k == 0 then start else |logs[k - 1]|;
      CallFailedLater(scenario, logs[k], from, from, ws, more);
    }
  }

  /** One more failed call. */
  lemma OneMoreFailed(scenario: Config.Scenario, start: nat, logs: seq<seq<Event>>, before: seq<Event>, log: seq<Event>,
                      ws: seq<Window>, more: seq<Window>)
    requires CallsFailed(scenario, start, logs, before, ws) && before <= log && start <= |before|
    requires ws <= more && forall j :: |ws| <= j < |more| ==> more[j].at >= |before|
    requires CallFailed(scenario, log, |before|, more)
    ensures CallsFailed(scenario, start, logs + [log], log, more)
  {
    hide CallFailed;
    CallsFailedLater(scenario, start, logs, before, log, ws, more);
    var n := |logs|;
    assert n > 0 ==> FailedAt(scenario, start, logs, n - 1, before, ws);
    CallFailedLater(scenario, log, |before|, if n == 0 then start else |logs[n - 1]|, more, more);
    var all := logs + [log];
    forall k | 0 <= k < |all|
      ensures FailedAt(scenario, start, all, k, log, more)
    {
      assert k < n ==> FailedAt(scenario, start, logs, k, log, more);
    }
  }

  /** A completed cycle that is not kept had no CPU, and none was seen before. */
  lemma NotKept(cell: Config.Cell, warm: nat, before: seq<Event>, rows: seq<Row>, ws: seq<Window>, cycle: nat, log: seq<Event>,
                cycleRows: seq<Row>, cpu: HostCpu, w: Window, from: nat)
    requires Recorded(cell, warm, before, ws) && AllSeries(cell, ws) && rows == AllRows(cell, ws)
    requires Completed(cell, warm, cycle, log, Complete(cycleRows, cpu), w) && from <= w.at
    requires !Keeps(cpu, exists r :: r in rows && r.hostCpu.Some?)
    ensures CallFailed(cell.scenario, log, from, ws)
  {
    hide Series, CycleRows, AllRows, AllSeries, Recorded, AskedCpuLine, AskedCold, CpuOf, CycleFailed;
    CpuSeenWarm(cell, warm, before, ws);
    forall j | 0 <= j < |ws| ensures AskedCpuLine(cell.scenario, ws[j].asked).None? {
      CpuExactly(cell, ws[j].asked);
    }
    CpuExactly(cell, w.asked);
    SliceIndex(log, w.at, |w.replies| + 2, |w.replies| + 1);
    assert NoCpu(cell.scenario, log, w.End() - 1) && NoneBefore(cell.scenario, ws, w.End() - 1);
  }

  /** One more cycle: kept with its CPU, or nothing changes but the cost. */
  method RunNextCycle(aws: Aws, cell: Config.Cell, counts: Config.Counts, p: Progress) returns (r: Outcome<()>)
    requires GuardOf(aws.log) == Idle && p.Holds(aws, cell, counts) && p.cycle < counts.cold
    modifies aws, p
    ensures p.Holds(aws, cell, counts) && p.start == old(p.start) && p.calls == old(p.calls) + 1
    ensures p.cycle == old(p.cycle) + (if r.Ok? then 1 else 0)
    ensures r.Ok? ==> |p.windows| > 0 && p.windows[..|p.windows| - 1] == old(p.windows)
    ensures r.Ok? ==> p.windows[|p.windows| - 1].at >= |old(aws.log)|
    ensures r.Err? ==> CallFailed(cell.scenario, aws.log, |old(aws.log)|, p.windows)
    ensures !r.Ok? ==> p.windows == old(p.windows) && p.rows == old(p.rows)
    ensures Ended(old(aws.log), aws.log, old(aws.leaked), aws.leaked, r.Cancelled?)
    ensures GuardOf(aws.log) == Idle && Within(old(aws.log), aws.log, cell, counts.warm, 1)
  {
    hide Kept, Completed, Stamp, Count, GuardOf, PerCall, CycleFailed, NoCpu, Keeps;
    ghost var log, nonces, ws := aws.log, aws.nonces, p.windows;
    var o, w := RunOneCycle(aws, cell, counts.warm, p.cycle);
    p.calls := p.calls + 1;
    if !o.Ok? {
      KeptLater(cell, counts.warm, p.start, log, nonces, p.rows, ws, aws.log, aws.nonces);
      return if o.Err? then Err else Cancelled;
    }
    var cpuSeen := exists row :: row in p.rows && row.hostCpu.Some?;
    var kept := ApplyHostCpu(o.value.0, o.value.1, cpuSeen);
    if kept.Failure? {
      KeptIsRecorded(cell, counts.warm, p.start, log, nonces, p.rows, ws);
      NotKept(cell, counts.warm, log, p.rows, ws, p.cycle, aws.log, o.value.0, o.value.1, w, |log|);
      KeptLater(cell, counts.warm, p.start, log, nonces, p.rows, ws, aws.log, aws.nonces);
      return Err;
    }
    KeptNext(cell, counts.warm, p.start, log, nonces, p.rows, ws, aws.log, aws.nonces, o.value.0, o.value.1, w, cpuSeen);
    p.rows := p.rows + kept.value;
    p.cycle := p.cycle + 1;
    p.windows := p.windows + [w];
    return Ok(());
  }

  lemma KeptIsRecorded(cell: Config.Cell, warm: nat, start: nat, log: seq<Event>, nonces: nat, rows: seq<Row>, ws: seq<Window>)
    requires Kept(cell, warm, start, log, nonces, rows, ws)
    ensures Recorded(cell, warm, log, ws) && AllSeries(cell, ws) && rows == AllRows(cell, ws)
  {
  }

  /** Runs the remaining cycles; on an error the progress is exactly the clean prefix. */
  method RunCycles(aws: Aws, cell: Config.Cell, counts: Config.Counts, p: Progress) returns (r: Outcome<()>)
    requires GuardOf(aws.log) == Idle && p.Holds(aws, cell, counts)
    modifies aws, p
    ensures p.Holds(aws, cell, counts) && old(p.cycle) <= p.cycle && old(p.windows) <= p.windows && p.start == old(p.start)
    ensures old(aws.log) <= aws.log
    ensures forall j :: |old(p.windows)| <= j < |p.windows| ==> p.windows[j].at >= |old(aws.log)|
    ensures r.Ok? <==> p.cycle == counts.cold
    ensures r.Err? ==> CallFailed(cell.scenario, aws.log, |old(aws.log)|, p.windows)
    ensures p.calls == old(p.calls) + (p.cycle - old(p.cycle)) + (if r.Ok? then 0 else 1)
    ensures Ended(old(aws.log), aws.log, old(aws.leaked), aws.leaked, r.Cancelled?)
    ensures GuardOf(aws.log) == Idle && Within(old(aws.log), aws.log, cell, counts.warm, p.calls - old(p.calls))
  {
    hide Kept, Within, GuardOf, Ended, CallFailed;
    NotEnded(aws.log, aws.leaked);
    WithinNothing(aws.log, cell, counts.warm);
    while p.cycle < counts.cold
      invariant p.Holds(aws, cell, counts) && old(p.cycle) <= p.cycle && old(p.windows) <= p.windows && p.start == old(p.start)
      invariant forall j :: |old(p.windows)| <= j < |p.windows| ==> p.windows[j].at >= |old(aws.log)|
      invariant old(aws.log) <= aws.log
      invariant p.calls == old(p.calls) + (p.cycle - old(p.cycle))
      invariant Ended(old(aws.log), aws.log, old(aws.leaked), aws.leaked, false)
      invariant GuardOf(aws.log) == Idle && aws.leaked == old(aws.leaked)
      invariant Within(old(aws.log), aws.log, cell, counts.warm, p.calls - old(p.calls))
      decreases counts.cold - p.cycle
    {
      ghost var made, before := p.calls - old(p.calls), aws.log;
      var next := RunNextCycle(aws, cell, counts, p);
      WithinAdds(old(aws.log), before, aws.log, cell, counts.warm, made, 1);
      EndedAfter(old(aws.log), before, aws.log, old(aws.leaked), aws.leaked, next.Cancelled?);
      if !next.Ok? {
        if next.Err? {
          CallFailedLater(cell.scenario, aws.log, |before|, |old(aws.log)|, p.windows, p.windows);
        }
        return if next.Err? then Err else Cancelled;
      }
    }
    return Ok(());
  }

  /** A back-off sleep changes nothing but the history. */
  method Pause(aws: Aws, cell: Config.Cell, warm: nat, ghost start: nat, ghost rows: seq<Row>, ghost ws: seq<Window>)
    returns (slept: Outcome<()>)
    requires GuardOf(aws.log) == Idle && Kept(cell, warm, start, aws.log, aws.nonces, rows, ws)
    modifies aws`log
    ensures Kept(cell, warm, start, aws.log, aws.nonces, rows, ws)
    ensures GuardOf(aws.log) == GuardOf(old(aws.log)) && Within(old(aws.log), aws.log, cell, warm, 0)
    ensures Ended(old(aws.log), aws.log, aws.leaked, aws.leaked, slept.Cancelled?)
    ensures !slept.Err?
  {
    slept := aws.Sleep();
    NotEnded(old(aws.log), aws.leaked);
    EndedOne(old(aws.log), old(aws.log), aws.log, Slept(slept), aws.leaked);
    KeptLater(cell, warm, start, old(aws.log), aws.nonces, rows, ws, aws.log, aws.nonces);
  }

  lemma NoneFailed(scenario: Config.Scenario, log: seq<Event>)
    ensures CallsFailed(scenario, |log|, [], log, [])
  {
  }

  lemma KeptNothing(cell: Config.Cell, warm: nat, log: seq<Event>, nonces: nat)
    ensures Kept(cell, warm, |log|, log, nonces, [], [])
  {
  }

  lemma KeptCell(cell: Config.Cell, counts: Config.Counts, start: nat, log: seq<Event>, nonces: nat, rows: seq<Row>, ws: seq<Window>)
    requires Kept(cell, counts.warm, start, log, nonces, rows, ws) && |ws| == counts.cold
    ensures CellRecord(cell, counts, log, ws) && AllSeries(cell, ws) && rows == AllRows(cell, ws)
    ensures forall i :: 0 <= i < |ws| ==> start <= ws[i].at
  {
  }

  /** Everything a written cell rests on. */
  ghost predicate CellRecord(cell: Config.Cell, counts: Config.Counts, log: seq<Event>, ws: seq<Window>) {
    |ws| == counts.cold && Recorded(cell, counts.warm, log, ws) && AllSeries(cell, ws) && CpuHistory(cell, ws)
  }

  /** Runs a cell with up to three attempts that resume where the last one failed, and
      hands the writer the whole cell or nothing. Whatever the service answers, the cost
      of the retries is additive: at most two more cycle calls than there are cycles. */
  method RunCell(aws: Aws, cell: Config.Cell, profile: Config.Profile, writer: Recorder.ResultsWriter<Row>)
    returns (r: Outcome<()>, ghost ws: seq<Window>)
    requires GuardOf(aws.log) == Idle && writer.Valid()
    modifies aws, writer
    ensures writer.Valid() && GuardOf(aws.log) == Idle
    ensures Ended(old(aws.log), aws.log, old(aws.leaked), aws.leaked, r.Cancelled?)
    ensures r.Ok? ==>
      && CellRecord(cell, cell.Iterations(profile), aws.log, ws)
      && (forall i :: 0 <= i < |ws| ==> |old(aws.log)| <= ws[i].at)
      && writer.lines == old(writer.lines) + AllRows(cell, ws)
      && writer.flushed == |writer.lines|
      && writer.rows == old(writer.rows) + |AllRows(cell, ws)|
    ensures !r.Ok? ==> writer.rows == old(writer.rows)
    ensures r.Err? && writer.lines != old(writer.lines) ==>
      && CellRecord(cell, cell.Iterations(profile), aws.log, ws)
      && (forall i :: 0 <= i < |ws| ==> |old(aws.log)| <= ws[i].at)
      && old(writer.lines) <= writer.lines <= old(writer.lines) + AllRows(cell, ws)
    ensures r.Cancelled? ==> writer.lines == old(writer.lines) && writer.flushed == old(writer.flushed)
    ensures r.Err? ==>
      || (writer.refused == old(writer.refused) + 1 && CellRecord(cell, cell.Iterations(profile), aws.log, ws))
      || (exists logs :: |logs| == 3 && CallsFailed(cell.scenario, |old(aws.log)|, logs, aws.log, ws))
    ensures Within(old(aws.log), aws.log, cell, cell.Iterations(profile).warm, cell.Iterations(profile).cold + 2)
  {
    hide Kept, Within, GuardOf, CellRecord, AllRows, Ended, CallFailed, CallsFailed;
    NotEnded(aws.log, aws.leaked);
    var counts := cell.Iterations(profile);
    var p := new Progress(|aws.log|);
    ws := [];
    ghost var failed: seq<seq<Event>> := [];
    NoneFailed(cell.scenario, aws.log);
    KeptNothing(cell, counts.warm, aws.log, aws.nonces);
    WithinNothing(aws.log, cell, counts.warm);
    for attempt := 1 to MAX_CELL_ATTEMPTS + 1
      invariant p.Holds(aws, cell, counts) && p.start == |old(aws.log)|
      invariant p.calls == p.cycle + attempt - 1 && (attempt > 1 ==> p.cycle < counts.cold)
      invariant Ended(old(aws.log), aws.log, old(aws.leaked), aws.leaked, false)
      invariant GuardOf(aws.log) == Idle && aws.leaked == old(aws.leaked)
      invariant Within(old(aws.log), aws.log, cell, counts.warm, p.calls)
      invariant unchanged(writer)
      invariant |failed| == attempt - 1 && CallsFailed(cell.scenario, |old(aws.log)|, failed, aws.log, p.windows)
      invariant old(aws.log) <= aws.log
    {
      ghost var calls, before, windows := p.calls, aws.log, p.windows;
      var done := RunCycles(aws, cell, counts, p);
      WithinAdds(old(aws.log), before, aws.log, cell, counts.warm, calls, p.calls - calls);
      WithinMore(old(aws.log), aws.log, cell, counts.warm, p.calls, counts.cold + 2);
      EndedAfter(old(aws.log), before, aws.log, old(aws.leaked), aws.leaked, done.Cancelled?);
      if done.Ok? {
        KeptCell(cell, counts, p.start, aws.log, aws.nonces, p.rows, p.windows);
        var written := writer.WriteCell(p.rows);
        return if written then Ok(()) else Err, p.windows;
      }
      if done.Cancelled? {
        return Cancelled, [];
      }
      OneMoreFailed(cell.scenario, |old(aws.log)|, failed, before, aws.log, windows, p.windows);
      failed := failed + [aws.log];
      if attempt < MAX_CELL_ATTEMPTS {
        ghost var tried := aws.log;
        var slept := Pause(aws, cell, counts.warm, p.start, p.rows, p.windows);
        WithinAdds(old(aws.log), tried, aws.log, cell, counts.warm, p.calls, 0);
        WithinMore(old(aws.log), aws.log, cell, counts.warm, p.calls, counts.cold + 2);
        EndedAfter(old(aws.log), tried, aws.log, aws.leaked, aws.leaked, slept.Cancelled?);
        if slept.Cancelled? {
          return Cancelled, [];
        }
        CallsFailedLater(cell.scenario, |old(aws.log)|, failed, tried, aws.log, p.windows, p.windows);
      }
    }
    WithinMore(old(aws.log), aws.log, cell, counts.warm, p.calls, counts.cold + 2);
    return Err, p.windows;
  }

  /** The cost of a whole cell in numbers, from the bound `RunCell` keeps whatever the service answers. */
  lemma CellCost(before: seq<Event>, after: seq<Event>, cell: Config.Cell, cold: nat, warm: nat)
    requires Within(before, after, cell, warm, cold + 2)
    ensures !cell.snapstart ==>
      && Count(after, Force) - Count(before, Force) <= 24 * (cold + 2)
      && Count(after, Invoke) - Count(before, Invoke) <= (cold + 2) * (4 * (6 + warm) + 1)
      && Count(after, Publish) == Count(before, Publish)
    ensures cell.snapstart ==>
      && Count(after, Publish) - Count(before, Publish) <= 4 * (cold + 2)
      && Count(after, Invoke) - Count(before, Invoke) <= (cold + 2) * (4 * (1 + warm) + 1)
      && Count(after, Delete) - Count(before, Delete) <= 4 * (cold + 2)
      && Count(after, Force) == Count(before, Force)
  {
    hide Count, Within;
    var invokes := if cell.snapstart then 4 * (1 + warm) + 1 else 4 * (6 + warm) + 1;
    KindCost(before, after, cell, warm, cold + 2, Invoke, invokes);
    KindCost(before, after, cell, warm, cold + 2, Force, if cell.snapstart then 0 else 24);
    KindCost(before, after, cell, warm, cold + 2, Publish, if cell.snapstart then 4 else 0);
    KindCost(before, after, cell, warm, cold + 2, Delete, if cell.snapstart then 4 else 0);
  }

  lemma KindCost(before: seq<Event>, after: seq<Event>, cell: Config.Cell, warm: nat, n: nat, k: Kind, unit: nat)
    requires Within(before, after, cell, warm, n) && k != Other && PerCall(cell, warm, k) == unit
    ensures Count(before, k) <= Count(after, k) <= Count(before, k) + n * unit
  {
    hide Count, PerCall;
    CountGrows(before, after, k);
  }

  // ---- What a reader of the file can rely on --------------------------------

  /** Place of row `i` of cycle `c`. */
  function Place(c: nat, i: nat, warm: nat): nat {
    c * (1 + warm) + i
  }

  lemma {:induction false} AllLength(cell: Config.Cell, warm: nat, ws: seq<Window>)
    requires AllSeries(cell, ws) && forall i :: 0 <= i < |ws| ==> |ws[i].replies| == 1 + warm
    ensures |AllRows(cell, ws)| == |ws| * (1 + warm)
  {
    if ws != [] {
      hide Series, StampedRows;
      AllLength(cell, warm, ws[..|ws| - 1]);
      StampedLength(cell, |ws| - 1, ws[|ws| - 1]);
      BillsAdd(|ws| - 1, 1, 1 + warm);
    }
  }

  /** The rows of cycle `c` follow those of the cycles before it. */
  lemma {:induction false} RowsOfCycle(cell: Config.Cell, ws: seq<Window>, c: nat)
    requires AllSeries(cell, ws) && c < |ws|
    ensures var (front, rows) := (AllRows(cell, ws[..c]), StampedRows(cell, c, ws[c]));
      front + rows <= AllRows(cell, ws)
    decreases |ws|
  {
    hide Series, StampedRows;
    var n := |ws| - 1;
    if c < n {
      RowsOfCycle(cell, ws[..n], c);
      assert ws[..n][..c] == ws[..c];
    }
  }

  lemma StampedLength(cell: Config.Cell, c: nat, w: Window)
    requires Series(cell, w.replies)
    ensures |StampedRows(cell, c, w)| == |w.replies|
  {
  }

  /** A written cell is cycles 0 to cold - 1 in order, each one cold row and then warm rows
      1 to warm, with the cold marker (a restore on SnapStart) on the first row only, and
      one nonce and one host CPU for the whole cycle. */
  lemma WrittenCell(cell: Config.Cell, counts: Config.Counts, log: seq<Event>, ws: seq<Window>, c: nat, i: nat)
    requires CellRecord(cell, counts, log, ws) && c < counts.cold && i <= counts.warm
    ensures |AllRows(cell, ws)| == counts.cold * (1 + counts.warm)
    ensures Place(c, i, counts.warm) < |AllRows(cell, ws)|
    ensures var row := AllRows(cell, ws)[Place(c, i, counts.warm)];
      && row.cell == cell && row.cycle == c && row.idx == i && row.nonce == ws[c].nonce
      && (row.isCold <==> i == 0) && (row.isCold <==> Marked(row.report))
      && (row.isCold && cell.snapstart ==> row.report.restoreMs.Some?)
      && log[ws[c].at + 1 + i] == Invoked(ws[c].target, Ok(ws[c].replies[i]))
      && Accepted(cell.scenario, ws[c].replies[i]) && row.report == ws[c].replies[i].report.value
      && row.hostCpu == AskedCpuLine(cell.scenario, ws[c].asked)
  {
    hide AllRows, StampedRows, Place, Witnessed;
    var w := ws[c];
    assert Witnessed(cell, counts.warm, log, w);
    RowAt(cell, counts.warm, log, ws, c, i);
    StampedRow(cell, counts.warm, log, c, w, i);
  }

  /** The stretch of history behind cycle `c` of a written cell: its own force, or its own published version, then its
      invokes, and the extra one, all back to back on one target. */
  lemma CycleHistory(cell: Config.Cell, counts: Config.Counts, log: seq<Event>, ws: seq<Window>, c: nat)
    requires CellRecord(cell, counts, log, ws) && c < counts.cold
    ensures |ws[c].replies| == 1 + counts.warm && ws[c].at + counts.warm + 2 < |log|
    ensures if cell.snapstart then ws[c].target.Some? && log[ws[c].at] == Published(ws[c].nonce, Ok(ws[c].target.value))
            else ws[c].target.None? && log[ws[c].at] == Forced(ws[c].nonce, Ok(()))
    ensures forall i :: 0 <= i <= counts.warm ==> log[ws[c].at + 1 + i] == Invoked(ws[c].target, Ok(ws[c].replies[i]))
    ensures log[ws[c].at + counts.warm + 2] == AskedCpu(ws[c].target, ws[c].asked)
  {
    assert Witnessed(cell, counts.warm, log, ws[c]);
    hide Witnessed;
    WindowHistory(cell, counts.warm, log, ws[c]);
  }

  lemma WindowHistory(cell: Config.Cell, warm: nat, log: seq<Event>, w: Window)
    requires Witnessed(cell, warm, log, w)
    ensures |w.replies| == 1 + warm && w.at + warm + 2 < |log|
    ensures if cell.snapstart then w.target.Some? && log[w.at] == Published(w.nonce, Ok(w.target.value))
            else w.target.None? && log[w.at] == Forced(w.nonce, Ok(()))
    ensures forall i :: 0 <= i <= warm ==> log[w.at + 1 + i] == Invoked(w.target, Ok(w.replies[i]))
    ensures log[w.at + warm + 2] == AskedCpu(w.target, w.asked)
  {
    hide Series;
    SliceIndex(log, w.at, warm + 3, 0);
    SliceIndex(log, w.at, warm + 3, warm + 2);
    forall i | 0 <= i <= warm ensures log[w.at + 1 + i] == Invoked(w.target, Ok(w.replies[i])) {
      SliceIndex(log, w.at, warm + 3, 1 + i);
      EventAt(w, i);
    }
  }

  lemma EventAt(w: Window, i: nat)
    requires i < |w.replies|
    ensures |w.Events()| == |w.replies| + 2 && w.Events()[1 + i] == Invoked(w.target, Ok(w.replies[i]))
  {
  }

  lemma RowAt(cell: Config.Cell, warm: nat, log: seq<Event>, ws: seq<Window>, c: nat, i: nat)
    requires Recorded(cell, warm, log, ws) && AllSeries(cell, ws) && c < |ws| && i <= warm
    ensures |AllRows(cell, ws)| == |ws| * (1 + warm) && Place(c, i, warm) < |AllRows(cell, ws)|
    ensures |StampedRows(cell, c, ws[c])| == 1 + warm
    ensures AllRows(cell, ws)[Place(c, i, warm)] == StampedRows(cell, c, ws[c])[i]
  {
    hide AllRows, StampedRows;
    forall j | 0 <= j < |ws|
      ensures |ws[j].replies| == 1 + warm
    {
      assert Witnessed(cell, warm, log, ws[j]);
    }
    AllLength(cell, warm, ws);
    AllLength(cell, warm, ws[..c]);
    StampedLength(cell, c, ws[c]);
    RowsOfCycle(cell, ws, c);
    var front, rows := AllRows(cell, ws[..c]), StampedRows(cell, c, ws[c]);
    assert (front + rows)[|front| + i] == rows[i];
  }

  lemma SliceIndex<T>(s: seq<T>, at: nat, len: nat, i: nat)
    requires at + len <= |s| && i < len
    ensures s[at + i] == s[at..at + len][i]
  {
  }

  lemma StampedRow(cell: Config.Cell, warm: nat, log: seq<Event>, c: nat, w: Window, i: nat)
    requires Witnessed(cell, warm, log, w) && i <= warm
    ensures |StampedRows(cell, c, w)| == 1 + warm && w.at + 1 + i < |log|
    ensures log[w.at + 1 + i] == Invoked(w.target, Ok(w.replies[i]))
    ensures var row := StampedRows(cell, c, w)[i];
      && row.cell == cell && row.cycle == c && row.idx == i && row.nonce == w.nonce
      && (row.isCold <==> i == 0) && (row.isCold <==> Marked(row.report))
      && (row.isCold && cell.snapstart ==> row.report.restoreMs.Some?)
      && Accepted(cell.scenario, w.replies[i]) && row.report == w.replies[i].report.value
      && row.hostCpu == AskedCpuLine(cell.scenario, w.asked)
  {
    hide Accepted, CpuOf, AskedCpuLine;
    CleanExactly(cell, w.replies[i]);
    CpuExactly(cell, w.asked);
    SliceIndex(log, w.at, |w.replies| + 2, 1 + i);
    assert Clean(cell, w.replies[i]);
  }

  /** No two cycles of a written cell share a nonce, and a later cycle's invokes come
      after all of an earlier one's. */
  lemma CyclesApart(cell: Config.Cell, counts: Config.Counts, log: seq<Event>, ws: seq<Window>, b: nat, c: nat, i: nat, j: nat)
    requires CellRecord(cell, counts, log, ws) && b < c < counts.cold && i <= counts.warm && j <= counts.warm
    ensures Place(b, i, counts.warm) < Place(c, j, counts.warm) < |AllRows(cell, ws)|
    ensures AllRows(cell, ws)[Place(b, i, counts.warm)].nonce < AllRows(cell, ws)[Place(c, j, counts.warm)].nonce
    ensures ws[b].at + 1 + i < ws[c].at + 1 + j
  {
    hide AllRows, Place;
    WrittenCell(cell, counts, log, ws, b, i);
    WrittenCell(cell, counts, log, ws, c, j);
    RowsBefore(b, c, i, j, counts.warm);
  }

  lemma RowsBefore(b: nat, c: nat, i: nat, j: nat, warm: nat)
    requires b < c && i <= warm
    ensures Place(b, i, warm) < Place(c, j, warm)
  {
    BillsAdd(b + 1, c - b - 1, 1 + warm);
    BillsAdd(b, 1, 1 + warm);
  }

  /** In the rows themselves: a cycle without a host CPU had its extra invoke land cold, or
      an earlier row of the cell carries one. */
  lemma MissingCpu(cell: Config.Cell, counts: Config.Counts, log: seq<Event>, ws: seq<Window>, c: nat, i: nat)
    requires CellRecord(cell, counts, log, ws) && c < counts.cold && i <= counts.warm
    requires Place(c, i, counts.warm) < |AllRows(cell, ws)|
    requires AllRows(cell, ws)[Place(c, i, counts.warm)].hostCpu.None?
    ensures AskedCold(cell.scenario, ws[c].asked)
         || exists k :: 0 <= k < Place(c, 0, counts.warm) && k < |AllRows(cell, ws)| && AllRows(cell, ws)[k].hostCpu.Some?
  {
    hide AllRows, Recorded, Place, CpuOf, AskedCpuLine, AskedCold;
    WrittenCell(cell, counts, log, ws, c, i);
    CpuExactly(cell, ws[c].asked);
    if !AskedCold(cell.scenario, ws[c].asked) {
      var b :| 0 <= b < c && CpuOf(cell, ws[b].asked).Reported?;
      CpuExactly(cell, ws[b].asked);
      WrittenCell(cell, counts, log, ws, b, 0);
      RowsBefore(b, c, 0, 0, counts.warm);
      var k := Place(b, 0, counts.warm);
      assert AllRows(cell, ws)[k].hostCpu.Some?;
    }
  }
}
