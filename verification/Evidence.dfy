/** What the history of a cell shows by itself: which replies count, and what it takes for a cell to give up. Nothing
    here refers to the run loop, which is proved against it. */
module Evidence {
  import opened Wrappers
  import opened Service
  import Config
  import Report

  // ---- Single answers -------------------------------------------------------

  /** The invoke went through to a handler that succeeded, and its tail has a report: outer status 200, no function
      error, and behind an HTTP front a 2xx status in the body. */
  predicate Accepted(scenario: Config.Scenario, r: Reply) {
    && r.status == 200 && !r.functionError && r.report.Success?
    && (scenario.Smithy? || scenario.SmithyFull? ==>
          r.payload.Envelope? && r.payload.statusCode.Some? && r.payload.statusCode.value / 100 == 2)
  }

  /** A cold start of either kind. */
  predicate Marked(r: Report.Report) {
    r.initMs.Some? || r.restoreMs.Some?
  }

  /** The extra invoke landed cold. */
  predicate AskedCold(scenario: Config.Scenario, asked: Outcome<Reply>) {
    asked.Ok? && Accepted(scenario, asked.value) && Marked(asked.value.report.value)
  }

  /** The host CPU that the extra invoke reported, if it landed on the sandbox of the cycle. */
  function AskedCpuLine(scenario: Config.Scenario, asked: Outcome<Reply>): Option<string> {
    match asked
    case Ok(r) => if Accepted(scenario, r) && !Marked(r.report.value) then r.hostCpu else None
    case _ => None
  }

  // ---- Why an attempt at a cycle ends ---------------------------------------

  /** A failed call, a reply that does not count, or a new version whose first invoke was no restore. */
  ghost predicate Trouble(scenario: Config.Scenario, log: seq<Event>, i: nat)
    requires i < |log|
  {
    match log[i]
    case Forced(_, r) => r.Err?
    case Published(_, r) => r.Err?
    case Invoked(_, Err) => true
    case Invoked(_, Ok(r)) =>
      !Accepted(scenario, r) || (i > 0 && log[i - 1].Published? && r.report.value.restoreMs.None?)
    case _ => false
  }

  /** A force and its invoke went through, but the invoke landed warm, and a back-off followed. */
  ghost predicate WarmRound(scenario: Config.Scenario, log: seq<Event>, at: nat) {
    && at + 3 <= |log| && log[at].Forced? && log[at].forced.Ok?
    && log[at + 1].Invoked? && log[at + 1].reply.Ok?
    && Accepted(scenario, log[at + 1].reply.value) && !Marked(log[at + 1].reply.value.report.value)
    && log[at + 2].Slept? && log[at + 2].slept.Ok?
  }

  /** Six such rounds back to back. */
  ghost predicate StayedWarm(scenario: Config.Scenario, log: seq<Event>, at: nat) {
    forall k :: 0 <= k < 6 ==> WarmRound(scenario, log, at + 3 * k)
  }

  /** An invoke that should have been warm landed cold. */
  ghost predicate LostWarm(scenario: Config.Scenario, log: seq<Event>, i: nat)
    requires i < |log|
  {
    && log[i].Invoked? && log[i].reply.Ok? && i > 0 && log[i - 1].Invoked?
    && Accepted(scenario, log[i].reply.value) && Marked(log[i].reply.value.report.value)
  }

  ghost predicate AttemptFailed(scenario: Config.Scenario, log: seq<Event>, from: nat) {
    || (exists i :: from <= i < |log| && Trouble(scenario, log, i))
    || (exists at :: from <= at && StayedWarm(scenario, log, at))
  }

  ghost predicate AttemptLost(scenario: Config.Scenario, log: seq<Event>, from: nat) {
    exists i :: from <= i < |log| && LostWarm(scenario, log, i)
  }

  /** The sandbox was lost at all of `ps`, in this order. */
  ghost predicate LostAt(scenario: Config.Scenario, log: seq<Event>, from: nat, ps: seq<nat>) {
    && (forall k :: 0 <= k < |ps| ==> from <= ps[k] < |log| && LostWarm(scenario, log, ps[k]))
    && (forall j, k :: 0 <= j < k < |ps| ==> ps[j] < ps[k])
  }

  /** An attempt failed, or four attempts lost their sandbox. */
  ghost predicate CycleFailed(scenario: Config.Scenario, log: seq<Event>, from: nat) {
    || AttemptFailed(scenario, log, from)
    || (exists ps :: |ps| == 4 && LostAt(scenario, log, from, ps))
  }

  /** The extra invoke reported no CPU, and not because it landed cold. */
  ghost predicate NoCpu(scenario: Config.Scenario, log: seq<Event>, i: nat)
    requires i < |log|
  {
    log[i].AskedCpu? && !AskedCold(scenario, log[i].reply) && AskedCpuLine(scenario, log[i].reply).None?
  }

  lemma TroubleLater(scenario: Config.Scenario, log: seq<Event>, later: seq<Event>, from: nat, i: nat)
    requires log <= later && from <= i < |log| && Trouble(scenario, log, i)
    ensures AttemptFailed(scenario, later, from)
  {
    assert Trouble(scenario, later, i);
  }

  lemma LostLater(scenario: Config.Scenario, log: seq<Event>, later: seq<Event>, from: nat, i: nat)
    requires log <= later && from <= i < |log| && LostWarm(scenario, log, i)
    ensures AttemptLost(scenario, later, from)
  {
    assert LostWarm(scenario, later, i);
  }

  lemma AttemptFailedLater(scenario: Config.Scenario, log: seq<Event>, later: seq<Event>, from: nat, start: nat)
    requires log <= later && start <= from && AttemptFailed(scenario, log, from)
    ensures AttemptFailed(scenario, later, start)
  {
    if i :| from <= i < |log| && Trouble(scenario, log, i) {
      TroubleLater(scenario, log, later, start, i);
    } else {
      var at :| from <= at && StayedWarm(scenario, log, at);
      forall k | 0 <= k < 6 ensures WarmRound(scenario, later, at + 3 * k) {
        assert WarmRound(scenario, log, at + 3 * k);
      }
      assert StayedWarm(scenario, later, at);
    }
  }

  lemma AttemptLostLater(scenario: Config.Scenario, log: seq<Event>, later: seq<Event>, from: nat, start: nat)
    requires log <= later && start <= from && AttemptLost(scenario, log, from)
    ensures AttemptLost(scenario, later, start)
  {
    var i :| from <= i < |log| && LostWarm(scenario, log, i);
    LostLater(scenario, log, later, start, i);
  }

  lemma CycleFailedSince(scenario: Config.Scenario, log: seq<Event>, from: nat, start: nat)
    requires start <= from && CycleFailed(scenario, log, from)
    ensures CycleFailed(scenario, log, start)
  {
    if AttemptFailed(scenario, log, from) {
      AttemptFailedLater(scenario, log, log, from, start);
    } else {
      var ps :| |ps| == 4 && LostAt(scenario, log, from, ps);
      assert LostAt(scenario, log, start, ps);
    }
  }

  lemma OneMoreRound(scenario: Config.Scenario, log: seq<Event>, later: seq<Event>, start: nat, n: nat)
    requires log <= later && WarmRound(scenario, later, start + 3 * n)
    requires forall k :: 0 <= k < n ==> WarmRound(scenario, log, start + 3 * k)
    ensures forall k :: 0 <= k < n + 1 ==> WarmRound(scenario, later, start + 3 * k)
  {
    forall k | 0 <= k < n ensures WarmRound(scenario, later, start + 3 * k) {
      assert WarmRound(scenario, log, start + 3 * k);
    }
  }

  lemma SixRounds(scenario: Config.Scenario, log: seq<Event>, start: nat)
    requires forall k :: 0 <= k < 6 ==> WarmRound(scenario, log, start + 3 * k)
    ensures AttemptFailed(scenario, log, start)
  {
    assert StayedWarm(scenario, log, start);
  }

  lemma NotLost(scenario: Config.Scenario, log: seq<Event>)
    ensures LostAt(scenario, log, |log|, [])
  {
  }

  lemma LostOnceMore(scenario: Config.Scenario, log: seq<Event>, later: seq<Event>, start: nat, from: nat, ps: seq<nat>) returns (all: seq<nat>)
    requires log <= later && start <= from && LostAt(scenario, log, start, ps) && |log| <= from
    requires AttemptLost(scenario, later, from)
    ensures LostAt(scenario, later, start, all) && |all| == |ps| + 1
  {
    var i :| from <= i < |later| && LostWarm(scenario, later, i);
    all := ps + [i];
    forall k | 0 <= k < |ps| ensures LostWarm(scenario, later, ps[k]) {
      assert LostWarm(scenario, log, ps[k]);
    }
  }
}
