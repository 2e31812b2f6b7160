/** The Lambda service as one cell's run loop sees it: an adversary that answers every
    awaited call as it likes, including by having the caller cancelled at that await.
    Everything that happens is kept in a history. */
module Service {
  import opened Wrappers
  import Report

  /** The response body, as far as the HTTP-envelope check reads it. */
  datatype Payload = NoPayload | NotJson | Envelope(statusCode: Option<int>)

  /** One invoke's answer and what the driver read from its log tail. The adversary may send any tail. */
  datatype Reply = Reply(
    status: int, functionError: bool, tail: string,
    report: Result<Report.Report>, hostCpu: Option<string>, payload: Payload)

  /** How a log tail is read. */
  function ReadTail(status: int, functionError: bool, tail: string, payload: Payload): Reply {
    Reply(status, functionError, tail, Report.ParseReport(tail), Report.ParseHostCpu(tail), payload)
  }

  predicate IsRead(r: Reply) {
    r == ReadTail(r.status, r.functionError, r.tail, r.payload)
  }

  datatype Event =
    | Forced(nonce: nat, forced: Outcome<()>)
    | Published(nonce: nat, published: Outcome<nat>)
    | Invoked(target: Option<nat>, reply: Outcome<Reply>)
    | AskedCpu(target: Option<nat>, reply: Outcome<Reply>)
    | DeleteStarted(version: nat)
    | DeleteEnded(version: nat, ended: Outcome<()>)
    | Slept(slept: Outcome<()>)
    | Leaked(version: nat)

  // ---- What is counted ------------------------------------------------------

  datatype Kind = Force | Publish | Invoke | Delete | Leak | Other

  function KindOf(e: Event): Kind {
    match e
    case Forced(_, _) => Force
    case Published(_, _) => Publish
    case Invoked(_, _) => Invoke
    case AskedCpu(_, _) => Invoke
    case DeleteStarted(_) => Delete
    case Leaked(_) => Leak
    case _ => Other
  }

  function Count(log: seq<Event>, k: Kind): nat {
    if log == [] then 0
    else Count(log[..|log| - 1], k) + (if KindOf(log[|log| - 1]) == k then 1 else 0)
  }

  lemma {:induction false} CountGrows(before: seq<Event>, after: seq<Event>, k: Kind)
    requires before <= after
    ensures Count(before, k) <= Count(after, k)
    decreases |after|
  {
    if |before| < |after| {
      CountGrows(before, after[..|after| - 1], k);
    } else {
      assert before == after;
    }
  }

  // ---- The version guard ----------------------------------------------------

  /** State of the drop guard of a SnapStart cycle: `Armed` once the version is handed
      back, `Deleting` while the inline delete is awaited. */
  datatype Guard = Idle | Armed(version: nat) | Deleting(version: nat) | Broken

  function GuardStep(g: Guard, e: Event): Guard {
    match e
    case Published(_, Ok(v)) => if g.Idle? then Armed(v) else Broken
    case DeleteStarted(v) => if g == Armed(v) then Deleting(v) else Broken
    case DeleteEnded(v, r) => if g != Deleting(v) then Broken else if r.Cancelled? then g else Idle
    case Leaked(v) => if g == Armed(v) || g == Deleting(v) then Idle else Broken
    case _ => g
  }

  function GuardOf(log: seq<Event>): Guard {
    if log == [] then Idle else GuardStep(GuardOf(log[..|log| - 1]), log[|log| - 1])
  }

  /** Events that only a dropped future produces. */
  predicate Cut(e: Event) {
    match e
    case Leaked(_) => true
    case Forced(_, r) => r.Cancelled?
    case Published(_, r) => r.Cancelled?
    case Invoked(_, r) => r.Cancelled?
    case AskedCpu(_, r) => r.Cancelled?
    case DeleteEnded(_, r) => r.Cancelled?
    case Slept(r) => r.Cancelled?
    case DeleteStarted(_) => false
  }

  /** A reply in the event is what its tail reads as. */
  predicate Read(e: Event) {
    (e.Invoked? || e.AskedCpu?) && e.reply.Ok? ==> IsRead(e.reply.value)
  }

  predicate Hands(e: Event, v: nat) {
    e.Published? && e.published == Ok(v)
  }

  /** The version has been handed back by `publish_cold_version`. */
  predicate Handed(log: seq<Event>, v: nat) {
    exists i :: 0 <= i < |log| && Hands(log[i], v)
  }

  /** The service never hands back a version twice: each publish of a function takes the next number. */
  predicate Possible(log: seq<Event>, e: Event) {
    Read(e) && (e.Published? && e.published.Ok? ==> !Handed(log, e.published.value))
  }

  /** Event `i` is a call that was not cut off, with an answer the service can give. */
  predicate Answered(log: seq<Event>, i: nat)
    requires i < |log|
  {
    !Cut(log[i]) && Possible(log[..i], log[i])
  }

  lemma AnsweredLater(log: seq<Event>, later: seq<Event>, i: nat)
    requires log <= later && i < |log|
    ensures Answered(later, i) == Answered(log, i)
  {
    assert later[..i] == log[..i];
  }

  /** Between two histories, every call was answered. */
  ghost predicate Uncut(before: seq<Event>, after: seq<Event>) {
    before <= after && forall i {:trigger Answered(after, i)} :: |before| <= i < |after| ==> Answered(after, i)
  }

  /** Since `before` nothing was cut off but, if `cancelled`, the last event. */
  ghost predicate Stopped(before: seq<Event>, after: seq<Event>, cancelled: bool) {
    if cancelled then |before| < |after| && before <= after && CutAt(before, after, |after| - 1) else Uncut(before, after)
  }

  /** Event `n` is the first to be cut off. */
  ghost predicate CutAt(before: seq<Event>, after: seq<Event>, n: nat)
    requires n < |after|
  {
    Cut(after[n]) && !after[n].Leaked? && forall i {:trigger Answered(after, i)} :: |before| <= i < n ==> Answered(after, i)
  }

  /** The version a guard would queue if it were dropped now. */
  function Held(g: Guard): seq<nat> {
    match g
    case Armed(v) => [v]
    case Deleting(v) => [v]
    case _ => []
  }

  function LeakEvents(versions: seq<nat>): seq<Event> {
    seq(|versions|, i requires 0 <= i < |versions| => Leaked(versions[i]))
  }

  /** Since `before` the history ran uncut up to `n`, its event `n` was cut off, and what its guard held just
      before, `versions`, was leaked. */
  ghost predicate CutOffAt(before: seq<Event>, after: seq<Event>, n: nat, versions: seq<nat>) {
    && |before| <= n < |after| && before <= after && CutAt(before, after, n)
    && versions == Held(GuardOf(after[..n])) && after[n + 1..] == LeakEvents(versions)
  }

  ghost predicate CutOff(before: seq<Event>, after: seq<Event>, versions: seq<nat>) {
    exists n: nat :: CutOffAt(before, after, n, versions)
  }

  /** How a stretch of history ends, with the queue of leaked versions before and now: uncut and nothing leaked, or
      cut off at an await, with what the guard held there leaked. */
  ghost predicate Ended(before: seq<Event>, after: seq<Event>, leaked: seq<nat>, now: seq<nat>, cancelled: bool) {
    if cancelled then leaked <= now && CutOff(before, after, now[|leaked|..])
    else Uncut(before, after) && now == leaked
  }

  lemma NotStopped(log: seq<Event>)
    ensures Stopped(log, log, false)
  {
  }

  lemma StoppedOne(start: seq<Event>, before: seq<Event>, after: seq<Event>, e: Event)
    requires Stopped(start, before, false) && after == before + [e] && !e.Leaked? && Possible(before, e)
    ensures Stopped(start, after, Cut(e)) && start <= after
  {
    hide Possible;
    assert after[..|before|] == before;
    forall i {:trigger Answered(after, i)} | |start| <= i < |before| ensures Answered(after, i) {
      AnsweredLater(before, after, i);
    }
  }

  lemma StoppedAfter(a: seq<Event>, b: seq<Event>, c: seq<Event>, cancelled: bool)
    requires Stopped(a, b, false) && Stopped(b, c, cancelled)
    ensures Stopped(a, c, cancelled) && a <= c
  {
    hide Answered;
    forall i {:trigger Answered(c, i)} | |a| <= i < |b| ensures Answered(c, i) {
      AnsweredLater(b, c, i);
    }
  }

  /** An event that is cut off leaves the guard as it was. */
  lemma CutKeepsGuard(before: seq<Event>, after: seq<Event>)
    requires Stopped(before, after, true) && GuardOf(after) != Broken
    ensures GuardOf(after[..|after| - 1]) == GuardOf(after)
  {
  }

  /** With nothing under the guard nothing is leaked. */
  lemma EndedIdle(before: seq<Event>, after: seq<Event>, leaked: seq<nat>, cancelled: bool)
    requires Stopped(before, after, cancelled) && GuardOf(after) == Idle
    ensures Ended(before, after, leaked, leaked, cancelled)
  {
    if cancelled {
      CutKeepsGuard(before, after);
      assert leaked[|leaked|..] == [];
      assert CutOffAt(before, after, |after| - 1, []);
    }
  }

  /** A guard dropped right after the cut leaks its version. */
  lemma EndedLeak(before: seq<Event>, cut: seq<Event>, leaked: seq<nat>, v: nat)
    requires Stopped(before, cut, true) && (GuardOf(cut) == Armed(v) || GuardOf(cut) == Deleting(v))
    ensures Ended(before, cut + [Leaked(v)], leaked, leaked + [v], true)
  {
    CutKeepsGuard(before, cut);
    var (n, after) := (|cut| - 1, cut + [Leaked(v)]);
    assert after[..n] == cut[..n] && after[n] == cut[n] && after[n + 1..] == [Leaked(v)];
    assert (leaked + [v])[|leaked|..] == [v];
    forall i {:trigger Answered(after, i)} | |before| <= i < n ensures Answered(after, i) {
      AnsweredLater(cut, after, i);
    }
    assert CutOffAt(before, after, n, [v]);
  }

  lemma NotEnded(log: seq<Event>, leaked: seq<nat>)
    ensures Ended(log, log, leaked, leaked, false)
  {
  }

  /** One event outside a guard. */
  lemma EndedOne(a: seq<Event>, b: seq<Event>, c: seq<Event>, e: Event, leaked: seq<nat>)
    requires Ended(a, b, leaked, leaked, false) && c == b + [e] && !e.Leaked? && Possible(b, e) && GuardOf(c) == Idle
    ensures Ended(a, c, leaked, leaked, Cut(e)) && a <= c
  {
    StoppedOne(a, b, c, e);
    EndedIdle(a, c, leaked, Cut(e));
  }

  lemma EndedAfter(a: seq<Event>, b: seq<Event>, c: seq<Event>, leaked: seq<nat>, now: seq<nat>, cancelled: bool)
    requires Ended(a, b, leaked, leaked, false) && Ended(b, c, leaked, now, cancelled)
    ensures Ended(a, c, leaked, now, cancelled) && a <= c
    ensures !cancelled ==> now == leaked
  {
    if cancelled {
      var n: nat :| CutOffAt(b, c, n, now[|leaked|..]);
      forall i {:trigger Answered(c, i)} | |a| <= i < n ensures Answered(c, i) {
        if i < |b| {
          AnsweredLater(b, c, i);
        }
      }
      assert CutOffAt(a, c, n, now[|leaked|..]);
    } else {
      StoppedAfter(a, b, c, false);
    }
  }

  /** `after` is `before` with one more event. */
  ghost predicate Grew(before: seq<Event>, after: seq<Event>, e: Event) {
    && after == before + [e]
    && GuardOf(after) == GuardStep(GuardOf(before), e)
    && forall k :: Count(after, k) == Count(before, k) + (if KindOf(e) == k then 1 else 0)
  }

  lemma Grown(before: seq<Event>, e: Event)
    ensures Grew(before, before + [e], e)
  {
    assert (before + [e])[..|before|] == before;
  }

  // ---- The calls ------------------------------------------------------------

  class Aws {
    var log: seq<Event>
    /** Nonces handed out so far: distinct, as version-4 UUIDs are taken to be. */
    var nonces: nat
    /** Versions whose guard was dropped while armed. */
    var leaked: seq<nat>

    constructor ()
      ensures log == [] && leaked == []
    {
      log := [];
      nonces := 0;
      leaked := [];
    }

    method FreshNonce() returns (n: nat)
      modifies this`nonces
      ensures n == old(nonces) && nonces == n + 1
    {
      n := nonces;
      nonces := nonces + 1;
    }

    method ForceCold(nonce: nat) returns (r: Outcome<()>)
      modifies this`log
      ensures Grew(old(log), log, Forced(nonce, r))
    {
      r := *;
      Grown(log, Forced(nonce, r));
      log := log + [Forced(nonce, r)];
    }

    method PublishColdVersion(nonce: nat) returns (r: Outcome<nat>)
      modifies this`log
      ensures Grew(old(log), log, Published(nonce, r)) && Possible(old(log), Published(nonce, r))
    {
      r := *;
      if r.Ok? && Handed(log, r.value) {
        r := Err;
      }
      Grown(log, Published(nonce, r));
      log := log + [Published(nonce, r)];
    }

    /** What comes back from an invoke: an error, a cancellation, or any status, tail and payload. */
    method Answer() returns (r: Outcome<Reply>)
      ensures r.Ok? ==> IsRead(r.value)
    {
      hide Report.ParseReport, Report.ParseHostCpu;
      var failed: bool, cut: bool := *, *;
      if failed {
        return if cut then Cancelled else Err;
      }
      var status: int, functionError: bool, tail: string, payload: Payload := *, *, *, *;
      r := Ok(ReadTail(status, functionError, tail, payload));
    }

    method InvokeTail(target: Option<nat>) returns (r: Outcome<Reply>)
      modifies this`log
      ensures Grew(old(log), log, Invoked(target, r))
      ensures r.Ok? ==> IsRead(r.value)
    {
      r := Answer();
      Grown(log, Invoked(target, r));
      log := log + [Invoked(target, r)];
    }

    method InvokeHostCpu(target: Option<nat>) returns (r: Outcome<Reply>)
      modifies this`log
      ensures Grew(old(log), log, AskedCpu(target, r))
      ensures r.Ok? ==> IsRead(r.value)
    {
      r := Answer();
      Grown(log, AskedCpu(target, r));
      log := log + [AskedCpu(target, r)];
    }

    method Sleep() returns (r: Outcome<()>)
      modifies this`log
      ensures !r.Err? && Grew(old(log), log, Slept(r))
    {
      var cut: bool := *;
      r := if cut then Cancelled else Ok(());
      Grown(log, Slept(r));
      log := log + [Slept(r)];
    }

    method DeleteVersion(version: nat) returns (r: Outcome<()>)
      modifies this`log
      ensures log == old(log) + [DeleteStarted(version), DeleteEnded(version, r)]
      ensures GuardOf(log) == GuardStep(GuardStep(GuardOf(old(log)), DeleteStarted(version)), DeleteEnded(version, r))
      ensures forall k :: Count(log, k) == Count(old(log), k) + (if k == Delete then 1 else if k == Other then 1 else 0)
    {
      r := *;
      Grown(log, DeleteStarted(version));
      log := log + [DeleteStarted(version)];
      Grown(log, DeleteEnded(version, r));
      log := log + [DeleteEnded(version, r)];
    }

    /** The guard's drop: an armed guard hands its version to the drain queue. */
    method DropGuard(version: nat)
      modifies this`log, this`leaked
      ensures Grew(old(log), log, Leaked(version))
      ensures leaked == old(leaked) + [version]
    {
      Grown(log, Leaked(version));
      log := log + [Leaked(version)];
      leaked := leaked + [version];
    }
  }
}
