/** The settle protocol of a function's configuration: read the revision, bump one
    variable, poll until the revision moved and the status is Successful, then publish.

    The service keeps a history of configurations. Updates register and settle at times of
    its choosing, and a read may return any configuration no older than the last one read. */
module ControlPlane {
  import opened Wrappers

  const COLD_NONCE := "COLD_NONCE"
  const POLL_MAX_ATTEMPTS: nat := 600

  type Env = map<string, string>

  datatype Status = InProgress | Successful | UpdateFailed | Unreported
  datatype Activity = Active | Pending | Failed

  /** One configuration as `GetFunction` reports it. `update` counts the updates behind it,
      which no reader sees; revision ids are numbered in order of creation. */
  datatype Snap = Snap(revision: nat, update: nat, status: Status, activity: Activity, env: Env)

  // ---- What the service may do ----------------------------------------------

  /** A pending update moves on: same update, same environment, maybe a new revision id. */
  predicate Settles(a: Snap, b: Snap) {
    !a.status.Successful? && b.update == a.update && b.env == a.env && b.revision >= a.revision
  }

  /** A new update registers, under an id never used before. */
  predicate Registers(a: Snap, b: Snap) {
    b.update == a.update + 1 && b.revision > a.revision
  }

  predicate Legal(h: seq<Snap>) {
    && h != []
    && forall i :: 0 <= i < |h| - 1 ==> Settles(h[i], h[i + 1]) || Registers(h[i], h[i + 1])
  }

  function Last<T>(h: seq<T>): T
    requires h != []
  {
    h[|h| - 1]
  }

  /** `later` continues `h` without a new update. */
  predicate OnlySettled(h: seq<Snap>, later: seq<Snap>)
    requires h != []
  {
    Legal(later) && h <= later && Last(later).update == Last(h).update
  }

  /** `env` without the nonce, which every bump must leave alone. */
  function Deployed(env: Env): Env {
    env - {COLD_NONCE}
  }

  /** That is: they have the same variables, with the same values, but for the nonce. */
  lemma DeployedExactly(a: Env, b: Env)
    ensures Deployed(a) == Deployed(b) <==>
      forall key :: key != "COLD_NONCE" ==> (key in a <==> key in b) && (key in a ==> a[key] == b[key])
  {
    if Deployed(a) == Deployed(b) {
      forall key | key != "COLD_NONCE"
        ensures (key in a <==> key in b) && (key in a ==> a[key] == b[key])
      {
        assert (key in a <==> key in Deployed(a)) && (key in b <==> key in Deployed(b));
      }
    }
  }

  // ---- Properties of histories ----------------------------------------------

  lemma {:induction false} Monotone(h: seq<Snap>, i: nat, j: nat)
    requires Legal(h) && i <= j < |h|
    ensures h[i].revision <= h[j].revision && h[i].update <= h[j].update
    ensures h[i].update == h[j].update ==> h[i].env == h[j].env
    ensures h[i].update < h[j].update ==> h[i].revision < h[j].revision
    decreases j
  {
    if i < j {
      Monotone(h, i, j - 1);
      assert Settles(h[j - 1], h[j - 1 + 1]) || Registers(h[j - 1], h[j - 1 + 1]);
    }
  }

  /** A settled configuration stays the last one until the next update. */
  lemma {:induction false} SettledStays(h: seq<Snap>, i: nat)
    requires Legal(h) && i < |h| && h[i].status.Successful? && h[i].update == Last(h).update
    ensures i == |h| - 1
  {
    if i < |h| - 1 {
      assert Settles(h[i], h[i + 1]) || Registers(h[i], h[i + 1]);
      Monotone(h, i + 1, |h| - 1);
    }
  }

  lemma SettledTrans(h: seq<Snap>, k: seq<Snap>, l: seq<Snap>)
    requires h != [] && OnlySettled(h, k) && OnlySettled(k, l)
    ensures OnlySettled(h, l)
  {
  }

  /** The readiness test on one polled configuration. */
  predicate Accepts(s: Snap, prev: Option<nat>) {
    && s.activity.Active?
    && (s.status.Successful? || (prev.None? && s.status.Unreported?))
    && (prev.Some? ==> s.revision != prev.value)
  }

  /** The heart of the protocol: if no revision came between the one read before the
      update and the update itself, then any later read that passes the test sees this
      update, settled. */
  lemma AcceptedIsOurs(h: seq<Snap>, pre: nat, registered: nat, i: nat)
    requires Legal(h) && pre < registered < |h| && pre <= i < |h|
    requires h[registered - 1].revision == h[pre].revision
    requires h[registered].update == Last(h).update
    requires Accepts(h[i], Some(h[pre].revision))
    ensures h[i].update == h[registered].update && h[i].status.Successful?
  {
    if i < registered {
      Monotone(h, pre, i);
      Monotone(h, i, registered - 1);
    } else {
      Monotone(h, registered, i);
      Monotone(h, i, |h| - 1);
    }
  }

  /** A pre-read that saw the last update settled, which is what `Remote.Current` says, lets
      no later read pass before the new update. */
  lemma SettledPreReadIsGood(h: seq<Snap>, pre: nat, registered: nat, i: nat)
    requires Legal(h) && pre < registered < |h| && h[registered - 1].update < h[registered].update
    requires h[pre].status.Successful? && h[pre].update == h[registered - 1].update
    requires pre <= i < |h| && Accepts(h[i], Some(h[pre].revision))
    ensures pre == registered - 1 && h[i].update >= h[registered].update
  {
    assert Legal(h[..registered]);
    SettledStays(h[..registered], pre);
    if i >= registered {
      Monotone(h, registered, i);
    }
  }

  /** The history went on from `h` to a next update at `registered`, and a read at `i` passes the test against the
      pre-read at `pre` although it does not see that update. */
  ghost predicate StaleAccept(h: seq<Snap>, pre: nat, later: seq<Snap>, registered: nat, i: nat)
    requires h != [] && pre < |h|
  {
    && Legal(later) && h <= later && |h| <= registered < |later|
    && later[registered - 1].update == Last(h).update && Registers(later[registered - 1], later[registered])
    && pre <= i < |later| && Accepts(later[i], Some(h[pre].revision)) && later[i].update < later[registered].update
  }

  /** After a pre-read, no way in which the service can go on makes the next update's poll accept a stale state, if and
      only if the last update has settled and nothing since the pre-read passes the test. A settled pre-read of the last
      update, which is what `Remote.Current` says, meets this. */
  lemma NeverStaleExactly(h: seq<Snap>, pre: nat)
    requires Legal(h) && pre < |h|
    ensures (forall later, registered, i :: !StaleAccept(h, pre, later, registered, i))
       <==> Last(h).status.Successful? && forall i :: pre <= i < |h| ==> !Accepts(h[i], Some(h[pre].revision))
    ensures h[pre].status.Successful? && h[pre].update == Last(h).update ==>
      forall later, registered, i :: !StaleAccept(h, pre, later, registered, i)
  {
    hide StaleAccept;
    if Last(h).status.Successful? && forall i :: pre <= i < |h| ==> !Accepts(h[i], Some(h[pre].revision)) {
      forall later, registered, i | StaleAccept(h, pre, later, registered, i) ensures false {
        SettledNeverStale(h, pre, later, registered, i);
      }
    } else {
      StaleContinuation(h, pre);
    }
    if h[pre].status.Successful? && h[pre].update == Last(h).update {
      SettledStays(h, pre);
    }
  }

  lemma SettledNeverStale(h: seq<Snap>, pre: nat, later: seq<Snap>, registered: nat, i: nat)
    requires Legal(h) && pre < |h| && StaleAccept(h, pre, later, registered, i)
    requires Last(h).status.Successful?
    ensures pre <= i < |h| && Accepts(h[i], Some(h[pre].revision))
  {
    if i >= registered {
      Monotone(later, registered, i);
    } else if i >= |h| {
      Monotone(later, |h| - 1, i);
      Monotone(later, i, registered - 1);
      assert Legal(later[..i + 1]);
      SettledStays(later[..i + 1], |h| - 1);
    }
  }

  /** An acceptable configuration is read late, or the pending update settles just before the next one. */
  lemma StaleContinuation(h: seq<Snap>, pre: nat)
    requires Legal(h) && pre < |h|
    requires !Last(h).status.Successful? || exists i :: pre <= i < |h| && Accepts(h[i], Some(h[pre].revision))
    ensures exists later, registered, i :: StaleAccept(h, pre, later, registered, i)
  {
    var z := Last(h);
    Monotone(h, pre, |h| - 1);
    if i: nat :| pre <= i < |h| && Accepts(h[i], Some(h[pre].revision)) {
      Monotone(h, i, |h| - 1);
      var later := h + [Snap(z.revision + 1, z.update + 1, InProgress, Active, map[])];
      assert StaleAccept(h, pre, later, |h|, i);
    } else {
      var later := h + [z.(revision := z.revision + 1, status := Successful, activity := Active),
                        Snap(z.revision + 2, z.update + 1, InProgress, Active, map[])];
      assert StaleAccept(h, pre, later, |h| + 1, |h|);
    }
  }

  /** Without the revision test a poll accepts the previous update's settled state. */
  lemma StaleAcceptWithoutRevision()
    ensures exists h: seq<Snap>, i ::
      && Legal(h) && |h| == 2 && h[1].update == h[0].update + 1
      && 0 <= i < |h| && Accepts(h[i], None) && h[i].update < Last(h).update
  {
    var h := [Snap(0, 0, Successful, Active, map[]), Snap(1, 1, InProgress, Active, map[])];
    assert Legal(h) && Accepts(h[0], None);
  }

  /** A bump as its reads and its update lie in the history; one that failed accepted nothing. */
  datatype BumpTrace = BumpTrace(pre: nat, registered: nat, accepted: Option<nat>)

  ghost predicate Traced(h: seq<Snap>, b: BumpTrace) {
    && b.pre < b.registered < |h| && Registers(h[b.registered - 1], h[b.registered])
    && (b.accepted.Some? ==> b.pre <= b.accepted.value < |h| && Accepts(h[b.accepted.value], Some(h[b.pre].revision)))
  }

  /** With it, a bump that fails after its update registered can make the next one read a stale configuration first and
      then accept the failed bump's update for its own. */
  lemma StaleAcceptAfterStalePreRead()
    ensures exists h: seq<Snap>, first: BumpTrace, second: BumpTrace ::
      && Legal(h) && Traced(h, first) && Traced(h, second)
      && h[first.pre].status.Successful? && first.pre == first.registered - 1 && first.accepted.None?
      && first.pre <= second.pre && first.registered < second.registered
      && second.accepted.Some? && h[second.accepted.value].update == h[first.registered].update < h[second.registered].update
  {
    var h := [Snap(0, 0, Successful, Active, map[]), Snap(1, 1, InProgress, Active, map[]),
              Snap(2, 1, Successful, Active, map[]), Snap(3, 2, InProgress, Active, map[])];
    var first, second := BumpTrace(0, 1, None), BumpTrace(0, 3, Some(2));
    assert Legal(h) && Traced(h, first) && Traced(h, second);
  }

  // ---- The remote function --------------------------------------------------

  /** A published version keeps the configuration it was published from. */
  datatype Version = Version(env: Env)

  ghost predicate Seen(h: seq<Snap>, env: Env) {
    exists i :: 0 <= i < |h| && h[i].env == env
  }

  /** Every version was published from some configuration of the history. */
  ghost predicate Sourced(versions: seq<Version>, h: seq<Snap>) {
    forall v :: 0 <= v < |versions| ==> Seen(h, versions[v].env)
  }

  lemma SourcedLater(versions: seq<Version>, h: seq<Snap>, later: seq<Snap>)
    requires Sourced(versions, h) && h <= later
    ensures Sourced(versions, later)
  {
    forall v | 0 <= v < |versions|
      ensures Seen(later, versions[v].env)
    {
      assert Seen(h, versions[v].env);
      var i :| 0 <= i < |h| && h[i].env == versions[v].env;
      assert later[i] == h[i];
    }
  }

  /** No configuration so far carries the nonce. */
  predicate Unused(h: seq<Snap>, nonce: string) {
    forall i :: 0 <= i < |h| ==> !(COLD_NONCE in h[i].env && h[i].env[COLD_NONCE] == nonce)
  }

  /** `later` brought no nonce but `nonce` into use. */
  ghost predicate OnlyNonce(h: seq<Snap>, later: seq<Snap>, nonce: string) {
    forall x :: x != nonce && Unused(h, x) ==> Unused(later, x)
  }

  lemma SettlingUsesNone(h: seq<Snap>, later: seq<Snap>, x: string)
    requires h != [] && OnlySettled(h, later) && Unused(h, x)
    ensures Unused(later, x)
  {
    forall i | 0 <= i < |later|
      ensures !(COLD_NONCE in later[i].env && later[i].env[COLD_NONCE] == x)
    {
      if i >= |h| {
        Monotone(later, |h| - 1, i);
        Monotone(later, i, |later| - 1);
      } else {
        assert later[i] == h[i];
      }
    }
  }

  /** A bump's history: settling, perhaps the update under the new nonce, and settling again. */
  lemma BumpUsesOne(h0: seq<Snap>, h2: seq<Snap>, h3: seq<Snap>, env: Env, nonce: string)
    requires h0 != [] && OnlyUpdate(h0, h2, env) && (h3 == h2 || OnlySettled(h2, h3))
    requires COLD_NONCE in env && env[COLD_NONCE] == nonce
    ensures OnlyNonce(h0, h3, nonce)
  {
    forall x | x != nonce && Unused(h0, x)
      ensures Unused(h3, x)
    {
      if OnlySettled(h0, h2) {
        SettlingUsesNone(h0, h2, x);
      } else {
        SettlingUsesNone(h0, h2[..|h2| - 1], x);
        assert forall i :: 0 <= i < |h2| - 1 ==> h2[i] == h2[..|h2| - 1][i];
      }
      if h3 != h2 {
        SettlingUsesNone(h2, h3, x);
      }
    }
  }

  /** From `h` to `later` only settling happened, and at the end perhaps one update to `env`. */
  ghost predicate OnlyUpdate(h: seq<Snap>, later: seq<Snap>, env: Env)
    requires h != []
  {
    OnlySettled(h, later) || (|later| > |h| && OnlySettled(h, later[..|later| - 1]) && Last(later).env == env)
  }

  lemma UpdateRegistered(h: seq<Snap>, next: Snap)
    requires Legal(h) && Registers(Last(h), next) && Deployed(next.env) == Deployed(Last(h).env)
    requires forall i, j :: 0 <= i < |h| && 0 <= j < |h| ==> Deployed(h[i].env) == Deployed(h[j].env)
    ensures var later := h + [next];
      Legal(later) && forall i, j :: 0 <= i < |later| && 0 <= j < |later| ==> Deployed(later[i].env) == Deployed(later[j].env)
  {
    hide Deployed;
  }

  /** One read of a version: its number, how many versions there were, and the answer. `Pending` stands for every
      state but the other two. */
  datatype Poll = Poll(version: nat, known: nat, answer: Outcome<Option<(Activity, bool)>>) {
    predicate Shows(state: Activity) {
      answer.Ok? && answer.value.Some? && answer.value.value.0 == state
    }

    /** Active with its snapshot. */
    predicate Ready() {
      Shows(Active) && answer.value.value.1
    }
  }

  /** From poll `from` on, all are of `version`, and all but the last showed it pending. */
  ghost predicate Waited(polls: seq<Poll>, from: nat, version: nat) {
    forall i :: from <= i < |polls| ==> polls[i].version == version && (i < |polls| - 1 ==> polls[i].Shows(Pending))
  }

  /** The wait for a version cannot go on: a call failed, the version did, or it is active without its snapshot; or
      all polls are used up. */
  ghost predicate WaitOver(polls: seq<Poll>, from: nat) {
    from < |polls| &&
    var last := polls[|polls| - 1];
    || last.answer.Err? || (last.answer.Ok? && last.answer.value.None?)
    || last.Shows(Failed) || (last.Shows(Active) && !last.Ready())
    || (last.Shows(Pending) && |polls| == from + 600)
  }

  /** A read that leaves it open whether an update has settled. */
  predicate Undecided(read: Outcome<Option<Snap>>, prev: Option<nat>) {
    read.Ok? && read.value.Some? &&
    var s := read.value.value;
    && !s.status.UpdateFailed?
    && !(s.activity.Active? && prev != Some(s.revision) && (s.status.Successful? || (s.status.Unreported? && prev.None?)))
  }

  /** The reads since `from` cannot go on: a call failed or brought no configuration or a failed update; or all are used
      up. */
  ghost predicate ReadingOver(answers: seq<Outcome<Option<Snap>>>, from: nat, prev: Option<nat>) {
    from < |answers| &&
    match answers[|answers| - 1]
    case Err => true
    case Ok(None) => true
    case Ok(Some(s)) => s.status.UpdateFailed? || (Undecided(Ok(Some(s)), prev) && |answers| == from + 600)
    case Cancelled => false
  }

  class Remote {
    var history: seq<Snap>
    /** Index of the last configuration read: reads never go back. */
    var seen: nat
    /** Published versions; number `n` is at index `n - 1`. */
    var versions: seq<Version>
    /** What every read of the function answered. */
    var answers: seq<Outcome<Option<Snap>>>
    /** What every read of a version answered. */
    var polls: seq<Poll>

    ghost predicate Valid()
      reads this`history, this`seen, this`versions
    {
      && Legal(history) && seen < |history|
      && (forall i, j :: 0 <= i < |history| && 0 <= j < |history| ==> Deployed(history[i].env) == Deployed(history[j].env))
      && Sourced(versions, history)
    }

    /** The last read saw the final state of the last update. */
    ghost predicate Current()
      reads this`history, this`seen, this`versions
      requires Valid()
    {
      history[seen].status.Successful? && history[seen].update == Last(history).update
    }

    /** A function right after its deploy settled. */
    constructor (env: Env)
      ensures Valid() && Current() && Deployed(Last(history).env) == Deployed(env) && versions == []
    {
      history := [Snap(0, 0, Successful, Active, env)];
      seen, versions, answers, polls := 0, [], [], [];
    }

    /** Time passes: the service settles what it likes. */
    method Advance()
      requires Valid()
      modifies this`history
      ensures Valid() && OnlySettled(old(history), history)
    {
      var more: seq<Snap> := *;
      var later := history + more;
      if OnlySettled(history, later) {
        forall i | 0 <= i < |later|
          ensures Deployed(later[i].env) == Deployed(Last(history).env)
        {
          if i >= |history| {
            Monotone(later, |history| - 1, i);
            Monotone(later, i, |later| - 1);
          } else {
            assert later[i] == history[i];
          }
        }
        SourcedLater(versions, history, later);
        history := later;
      }
    }

    /** `GetFunction`: an error, an answer without a configuration, or a configuration no
        older than the last one read. */
    method GetFunction() returns (r: Outcome<Option<Snap>>)
      requires Valid()
      modifies this`history, this`seen, this`answers
      ensures Valid() && OnlySettled(old(history), history) && old(seen) <= seen
      ensures r.Ok? && r.value.Some? ==> r.value.value == history[seen]
      ensures answers == old(answers) + [r]
    {
      Advance();
      var failed: bool, cut: bool, i: int := *, *, *;
      if failed {
        r := if cut then Cancelled else Err;
      } else if seen <= i < |history| {
        seen := i;
        r := Ok(Some(history[i]));
      } else {
        r := Ok(None);
      }
      answers := answers + [r];
    }

    /** `GetFunction` on a published version: an error, an answer without a configuration, or any state, with whether
        its snapshot is applied. */
    method GetVersion(version: nat) returns (r: Outcome<Option<(Activity, bool)>>)
      modifies this`polls
      ensures polls == old(polls) + [Poll(version, |versions|, r)]
    {
      r := *;
      polls := polls + [Poll(version, |versions|, r)];
    }

    /** `UpdateFunctionConfiguration`: replaces the whole environment. An error may be
        reported whether or not the update was applied; success means it was. */
    method UpdateEnvironment(env: Env) returns (r: Outcome<()>)
      requires Valid() && Deployed(env) == Deployed(Last(history).env)
      modifies this`history
      ensures Valid() && old(history) <= history && OnlyUpdate(old(history), history, env)
      ensures r.Ok? ==> |history| > |old(history)| && OnlySettled(old(history), history[..|history| - 1])
                        && Registers(history[|history| - 2], Last(history)) && Last(history).env == env
    {
      hide Legal, Deployed, Sourced;
      Advance();
      var lost: bool, failed: bool, cut: bool := *, *, *;
      if lost {
        return if cut then Cancelled else Err;
      }
      var gap: nat, status: Status, activity: Activity := *, *, *;
      var revision := Last(history).revision + 1 + if gap >= 0 then gap else 0;
      var next := history + [Snap(revision, Last(history).update + 1, status, activity, env)];
      UpdateRegistered(history, Last(next));
      assert next[..|next| - 1] == history;
      SourcedLater(versions, history, next);
      history := next;
      return if failed then (if cut then Cancelled else Err) else Ok(());
    }

    /** `PublishVersion`: a new number for a changed configuration, the previous number for
        an unchanged one. The answer may lack a number. */
    method PublishVersion() returns (r: Outcome<Option<nat>>)
      requires Valid()
      modifies this`history, this`versions
      ensures Valid() && OnlySettled(old(history), history)
      ensures old(versions) <= versions <= old(versions) + [Version(Last(history).env)]
      ensures r.Ok? && r.value.Some? ==>
        && 1 <= r.value.value <= |versions| && versions[r.value.value - 1].env == Last(history).env
        && (r.value.value <= |old(versions)| <==> old(versions) != [] && Last(old(versions)) == Version(Last(history).env))
    {
      Advance();
      var lost: bool, failed: bool, blank: bool, cut: bool := *, *, *, *;
      if lost {
        return if cut then Cancelled else Err;
      }
      if versions == [] || versions[|versions| - 1] != Version(Last(history).env) {
        versions := versions + [Version(Last(history).env)];
      }
      if failed {
        return if cut then Cancelled else Err;
      }
      return Ok(if blank then None else Some(|versions|));
    }
  }

  // ---- The driver's side ----------------------------------------------------

  /** Polls until the function is active with a settled update under another revision. It gives up only when a call
      fails, brings no configuration or a failed update, or after all polls. */
  method WaitReady(f: Remote, prev: Option<nat>) returns (r: Outcome<()>)
    requires f.Valid()
    modifies f`history, f`seen, f`answers
    ensures f.Valid() && OnlySettled(old(f.history), f.history) && old(f.seen) <= f.seen
    ensures r.Ok? ==> Accepts(f.history[f.seen], prev)
    ensures old(f.answers) <= f.answers && |f.answers| <= |old(f.answers)| + 600
    ensures forall i :: |old(f.answers)| <= i < |f.answers| - 1 ==> Undecided(f.answers[i], prev)
    ensures r.Err? ==> ReadingOver(f.answers, |old(f.answers)|, prev)
  {
    hide Legal;
    for n := 0 to POLL_MAX_ATTEMPTS
      invariant f.Valid() && OnlySettled(old(f.history), f.history) && old(f.seen) <= f.seen
      invariant old(f.answers) <= f.answers && |f.answers| == |old(f.answers)| + n
      invariant forall i :: |old(f.answers)| <= i < |f.answers| ==> Undecided(f.answers[i], prev)
    {
      ghost var before := f.history;
      var out := f.GetFunction();
      SettledTrans(old(f.history), before, f.history);
      if !out.Ok? {
        return if out.Err? then Err else Cancelled;
      }
      if out.value.None? {
        return Err;
      }
      var cfg := out.value.value;
      if cfg.status.UpdateFailed? {
        return Err;
      }
      var active := cfg.activity.Active?;
      var settled := cfg.status.Successful? || (prev.None? && cfg.status.Unreported?);
      var advanced := prev.None? || cfg.revision != prev.value;
      if active && settled && advanced {
        return Ok(());
      }
      var cut: bool := *;
      if cut {
        return Cancelled;
      }
    }
    return Err;
  }

  /** Where a bump read and registered: indices into the history. */
  datatype Bump = Bump(pre: nat, registered: nat)

  /** Bumps only the nonce and waits for that update to settle. Whatever fails, the rest of
      the environment is untouched. On success the new nonce is in the last update, and the
      poll saw that very update settle, provided the revision read first was still current
      when the update registered; after a settled update it always is. */
  method BumpColdNonce(f: Remote, nonce: string) returns (r: Outcome<()>, ghost b: Bump)
    requires f.Valid()
    modifies f`history, f`seen, f`answers
    ensures f.Valid() && old(f.history) <= f.history && OnlyNonce(old(f.history), f.history, nonce)
    ensures r.Ok? ==>
      && old(f.seen) <= b.pre < b.registered < |f.history| && b.registered >= |old(f.history)|
      && f.history[b.registered].update == Last(f.history).update == f.history[b.registered - 1].update + 1
      && Last(f.history).env == f.history[b.pre].env[COLD_NONCE := nonce]
    ensures r.Ok? && f.history[b.registered - 1].revision == f.history[b.pre].revision ==> f.Current()
    ensures r.Ok? && old(f.Current()) ==> f.Current()
  {
    hide Legal, Sourced, Accepts, Deployed, Unused, OnlyNonce;
    b := Bump(0, 0);
    ghost var h0, seen0, current := f.history, f.seen, f.Current();
    var out := f.GetFunction();
    SettlingIsNoUpdate(h0, f.history, nonce);
    if !out.Ok? {
      return if out.Err? then Err else Cancelled, b;
    }
    if out.value.None? {
      return Err, b;
    }
    var pre := out.value.value;
    ghost var p, h1 := f.seen, f.history;
    var vars := pre.env[COLD_NONCE := nonce];
    BumpKeepsDeployed(pre.env, nonce);
    var cut: bool := *;
    if cut {
      return Cancelled, b;
    }
    var updated := f.UpdateEnvironment(vars);
    UpdateUsesOne(h0, h1, f.history, f.history, vars, nonce);
    if !updated.Ok? {
      return if updated.Err? then Err else Cancelled, b;
    }
    ghost var h2 := f.history;
    b := Bump(p, |h2| - 1);
    var ready := WaitReady(f, Some(pre.revision));
    UpdateUsesOne(h0, h1, h2, f.history, vars, nonce);
    if !ready.Ok? {
      return if ready.Err? then Err else Cancelled, b;
    }
    BumpSettled(h0, h1, h2, f.history, seen0, p, f.seen, current);
    return Ok(()), b;
  }

  lemma SettlingIsNoUpdate(h: seq<Snap>, later: seq<Snap>, nonce: string)
    requires h != [] && OnlySettled(h, later)
    ensures OnlyNonce(h, later, nonce)
  {
    forall x | x != nonce && Unused(h, x)
      ensures Unused(later, x)
    {
      SettlingUsesNone(h, later, x);
    }
  }

  lemma UpdateUsesOne(h0: seq<Snap>, h1: seq<Snap>, h2: seq<Snap>, h3: seq<Snap>, env: Env, nonce: string)
    requires h0 != [] && OnlySettled(h0, h1) && OnlyUpdate(h1, h2, env) && (h3 == h2 || OnlySettled(h2, h3))
    requires COLD_NONCE in env && env[COLD_NONCE] == nonce
    ensures OnlyNonce(h0, h3, nonce)
  {
    SettlingIsNoUpdate(h0, h1, nonce);
    BumpUsesOne(h1, h2, h3, env, nonce);
  }

  lemma BumpKeepsDeployed(env: Env, nonce: string)
    ensures Deployed(env[COLD_NONCE := nonce]) == Deployed(env)
  {
  }

  /** From the stages of a bump's history to what its success means. */
  lemma BumpSettled(h0: seq<Snap>, h1: seq<Snap>, h2: seq<Snap>, h3: seq<Snap>, seen0: nat, pre: nat, seen: nat, current: bool)
    requires Legal(h0) && OnlySettled(h0, h1) && seen0 < |h0| && seen0 <= pre < |h1|
    requires |h2| > |h1| && Legal(h2) && OnlySettled(h1, h2[..|h2| - 1]) && Registers(h2[|h2| - 2], Last(h2))
    requires OnlySettled(h2, h3) && pre <= seen < |h3| && Accepts(h3[seen], Some(h1[pre].revision))
    requires current <==> h0[seen0].status.Successful? && h0[seen0].update == Last(h0).update
    ensures var u := |h2| - 1;
      && h3[u].update == Last(h3).update == h3[u - 1].update + 1 && Last(h3).env == h2[u].env
      && h3[pre] == h1[pre]
      && (h3[u - 1].revision == h3[pre].revision ==> h3[seen].status.Successful? && h3[seen].update == Last(h3).update)
      && (current ==> h3[u - 1].revision == h3[pre].revision)
  {
    var u := |h2| - 1;
    Monotone(h3, u, |h3| - 1);
    if h3[u - 1].revision == h3[pre].revision {
      AcceptedIsOurs(h3, pre, u, seen);
    }
    if current {
      SettledStays(h2[..u], seen0);
    }
  }

  /** Polls a version until it is active with its snapshot. It gives up only when a call fails, the version does or is
      active without its snapshot, or after all polls. */
  method WaitVersionActive(f: Remote, version: nat) returns (r: Outcome<()>)
    modifies f`polls
    ensures old(f.polls) <= f.polls && Waited(f.polls, |old(f.polls)|, version)
    ensures forall i :: |old(f.polls)| <= i < |f.polls| ==> f.polls[i].known == |f.versions|
    ensures r.Ok? ==> |old(f.polls)| < |f.polls| && f.polls[|f.polls| - 1].Ready()
    ensures r.Err? ==> WaitOver(f.polls, |old(f.polls)|)
  {
    for n := 0 to POLL_MAX_ATTEMPTS
      invariant old(f.polls) <= f.polls && |f.polls| == |old(f.polls)| + n
      invariant forall i :: |old(f.polls)| <= i < |f.polls| ==>
        f.polls[i].version == version && f.polls[i].known == |f.versions| && f.polls[i].Shows(Pending)
    {
      var out := f.GetVersion(version);
      if !out.Ok? {
        return if out.Err? then Err else Cancelled;
      }
      if out.value.None? {
        return Err;
      }
      var (state, optimized) := out.value.value;
      match state {
        case Active =>
          if !optimized {
            return Err;
          }
          return Ok(());
        case Failed => return Err;
        case Pending =>
      }
      var cut: bool := *;
      if cut {
        return Cancelled;
      }
    }
    return Err;
  }

  /** Publishes a version under a nonce never used before. A version handed back is new,
      and carries the deployed environment with that nonce. */
  method PublishColdVersion(f: Remote, nonce: string) returns (r: Outcome<nat>)
    requires f.Valid() && Unused(f.history, nonce)
    modifies f
    ensures f.Valid() && old(f.history) <= f.history && old(f.versions) <= f.versions
    ensures OnlyNonce(old(f.history), f.history, nonce)
    ensures r.Ok? && old(f.Current()) ==> f.Current()
    ensures r.Ok? ==>
      && r.value == |old(f.versions)| + 1 == |f.versions|
      && Deployed(f.versions[r.value - 1].env) == Deployed(old(f.history[0].env))
      && COLD_NONCE in f.versions[r.value - 1].env && f.versions[r.value - 1].env[COLD_NONCE] == nonce
    ensures old(f.polls) <= f.polls
    ensures r.Ok? ==> |old(f.polls)| < |f.polls| && Waited(f.polls, |old(f.polls)|, r.value)
                      && f.polls[|f.polls| - 1].Ready() && f.polls[|f.polls| - 1].known == r.value
  {
    hide Legal, Unused, Accepts, Sourced, OnlyNonce;
    ghost var h0, v0 := f.history, f.versions;
    VersionsUnused(h0, v0, nonce);
    var bumped, b := BumpColdNonce(f, nonce);
    if !bumped.Ok? {
      return if bumped.Err? then Err else Cancelled;
    }
    var cut: bool := *;
    if cut {
      return Cancelled;
    }
    ghost var h1 := f.history;
    var published := f.PublishVersion();
    SameEnvironment(h1, f.history);
    SettlingKeepsNonces(h0, h1, f.history, nonce);
    if !published.Ok? {
      return if published.Err? then Err else Cancelled;
    }
    if published.value.None? {
      return Err;
    }
    var version := published.value.value;
    var active := WaitVersionActive(f, version);
    if !active.Ok? {
      return if active.Err? then Err else Cancelled;
    }
    return Ok(version);
  }

  lemma SameEnvironment(h: seq<Snap>, later: seq<Snap>)
    requires h != [] && OnlySettled(h, later)
    ensures Last(later).env == Last(h).env
  {
    Monotone(later, |h| - 1, |later| - 1);
  }

  lemma SettlingKeepsNonces(h: seq<Snap>, later: seq<Snap>, last: seq<Snap>, nonce: string)
    requires OnlyNonce(h, later, nonce) && later != [] && OnlySettled(later, last)
    ensures OnlyNonce(h, last, nonce)
  {
    SettlingIsNoUpdate(later, last, nonce);
  }

  lemma VersionsUnused(h: seq<Snap>, versions: seq<Version>, nonce: string)
    requires Unused(h, nonce) && Sourced(versions, h)
    ensures forall v :: 0 <= v < |versions| ==> !(COLD_NONCE in versions[v].env && versions[v].env[COLD_NONCE] == nonce)
  {
    forall v | 0 <= v < |versions|
      ensures !(COLD_NONCE in versions[v].env && versions[v].env[COLD_NONCE] == nonce)
    {
      var i :| 0 <= i < |h| && h[i].env == versions[v].env;
    }
  }

  /** One cold start: a bump alone, or a bump and a publish. */
  datatype Op = ColdBump(nonce: string) | ColdPublish(nonce: string)

  /** Nonces are used once. */
  ghost predicate UsedOnce(ops: seq<Op>) {
    forall i, j :: 0 <= i < j < |ops| ==> ops[i].nonce != ops[j].nonce
  }

  /** `v` numbers a version that carries the deployed environment with the operation's nonce. */
  predicate Carries(versions: seq<Version>, v: nat, deployed: Env, nonce: string) {
    && 1 <= v <= |versions| && Deployed(versions[v - 1].env) == deployed
    && COLD_NONCE in versions[v - 1].env && versions[v - 1].env[COLD_NONCE] == nonce
  }

  /** The versions handed back so far: for publishes only, each above `least` and above all earlier ones. */
  ghost predicate Issued(ops: seq<Op>, handed: seq<Option<nat>>, versions: seq<Version>, least: nat, deployed: Env) {
    && |handed| <= |ops|
    && (forall i :: 0 <= i < |handed| && handed[i].Some? ==>
          ops[i].ColdPublish? && handed[i].value > least && Carries(versions, handed[i].value, deployed, ops[i].nonce))
    && (forall i, j :: 0 <= i < j < |handed| && handed[i].Some? && handed[j].Some? ==> handed[i].value < handed[j].value)
  }

  /** Since poll `from`, a poll made after version `v` was there found it active with its snapshot. */
  ghost predicate SeenReady(polls: seq<Poll>, from: nat, v: nat) {
    exists i :: from <= i < |polls| && polls[i].version == v <= polls[i].known && polls[i].Ready()
  }

  /** Every version handed back was. */
  ghost predicate AllReady(handed: seq<Option<nat>>, polls: seq<Poll>, from: nat) {
    forall i :: 0 <= i < |handed| && handed[i].Some? ==> SeenReady(polls, from, handed[i].value)
  }

  lemma AllReadyNext(handed: seq<Option<nat>>, next: Option<nat>, before: seq<Poll>, after: seq<Poll>, from: nat)
    requires AllReady(handed, before, from) && before <= after
    requires next.Some? ==> SeenReady(after, from, next.value)
    ensures AllReady(handed + [next], after, from)
  {
    forall i | 0 <= i < |handed| && handed[i].Some?
      ensures SeenReady(after, from, handed[i].value)
    {
      assert SeenReady(before, from, handed[i].value);
      var k :| from <= k < |before| && before[k].version == handed[i].value <= before[k].known && before[k].Ready();
      assert after[k] == before[k];
    }
  }

  lemma IssuedNext(ops: seq<Op>, handed: seq<Option<nat>>, before: seq<Version>, after: seq<Version>, least: nat, deployed: Env, next: Option<nat>)
    requires Issued(ops, handed, before, least, deployed) && before <= after && least <= |before| && |handed| < |ops|
    requires next.Some? ==> ops[|handed|].ColdPublish? && next.value == |before| + 1
                            && Carries(after, next.value, deployed, ops[|handed|].nonce)
    ensures Issued(ops, handed + [next], after, least, deployed)
  {
    var all := handed + [next];
    forall i | 0 <= i < |all| && all[i].Some?
      ensures ops[i].ColdPublish? && all[i].value > least && Carries(after, all[i].value, deployed, ops[i].nonce)
      ensures i < |handed| ==> all[i].value <= |before|
    {
      if i < |handed| {
        assert all[i] == handed[i] && Carries(before, handed[i].value, deployed, ops[i].nonce);
      }
    }
  }

  /** Any number of bumps and publishes under distinct new nonces, whatever fails in between: every variable but
      the nonce keeps its deployed value throughout the whole history; the version numbers handed back are new, strictly
      increasing, and each version carries the deployed environment with its own nonce; and while all succeed, each
      update has settled. */
  method BumpAndPublishMany(f: Remote, ops: seq<Op>) returns (handed: seq<Option<nat>>, allOk: bool)
    requires f.Valid() && f.Current()
    requires UsedOnce(ops) && forall i :: 0 <= i < |ops| ==> Unused(f.history, ops[i].nonce)
    modifies f
    ensures f.Valid() && old(f.history) <= f.history && old(f.versions) <= f.versions
    ensures forall i :: 0 <= i < |f.history| ==> Deployed(f.history[i].env) == Deployed(old(f.history[0].env))
    ensures |handed| == |ops| && Issued(ops, handed, f.versions, |old(f.versions)|, Deployed(old(f.history[0].env)))
    ensures AllReady(handed, f.polls, |old(f.polls)|)
    ensures allOk ==> f.Current() && forall i :: 0 <= i < |ops| ==> (handed[i].Some? <==> ops[i].ColdPublish?)
  {
    hide Legal, Unused, Sourced, Issued, OnlyNonce, AllReady, Waited;
    ghost var (least, deployed) := (|f.versions|, Deployed(f.history[0].env));
    handed, allOk := [], true;
    assert Issued(ops, [], f.versions, least, deployed) by {
      NoneIssued(ops, f.versions, least, deployed);
    }
    assert AllReady([], f.polls, |f.polls|) by {
      NoneHanded(f.polls);
    }
    for n := 0 to |ops|
      invariant old(f.polls) <= f.polls && AllReady(handed, f.polls, |old(f.polls)|)
      invariant f.Valid() && old(f.history) <= f.history && old(f.versions) <= f.versions
      invariant |handed| == n && Issued(ops, handed, f.versions, least, deployed)
      invariant allOk ==> f.Current() && forall i :: 0 <= i < n ==> (handed[i].Some? <==> ops[i].ColdPublish?)
      invariant forall i :: n <= i < |ops| ==> Unused(f.history, ops[i].nonce)
    {
      ghost var (h, versions, polls) := (f.history, f.versions, f.polls);
      assert h[0] == old(f.history[0]);
      var next: Option<nat> := None;
      match ops[n] {
        case ColdBump(nonce) =>
          var r, b := BumpColdNonce(f, nonce);
          allOk := allOk && r.Ok?;
        case ColdPublish(nonce) =>
          var r := PublishColdVersion(f, nonce);
          allOk := allOk && r.Ok?;
          if r.Ok? {
            next := Some(r.value);
            LastPollReady(f.polls, |old(f.polls)|, |polls|, r.value);
          }
      }
      forall i | n < i < |ops|
        ensures Unused(f.history, ops[i].nonce)
      {
        OnlyNonceAt(h, f.history, ops[n].nonce, ops[i].nonce);
      }
      AllReadyNext(handed, next, polls, f.polls, |old(f.polls)|);
      IssuedNext(ops, handed, versions, f.versions, least, deployed, next);
      handed := handed + [next];
    }
    assert f.history[0] == old(f.history[0]);
  }

  lemma LastPollReady(polls: seq<Poll>, from: nat, entry: nat, v: nat)
    requires from <= entry < |polls| && Waited(polls, entry, v)
    requires polls[|polls| - 1].Ready() && v <= polls[|polls| - 1].known
    ensures SeenReady(polls, from, v)
  {
    assert polls[|polls| - 1].version == v;
  }

  lemma NoneHanded(polls: seq<Poll>)
    ensures AllReady([], polls, |polls|)
  {
  }

  lemma NoneIssued(ops: seq<Op>, versions: seq<Version>, least: nat, deployed: Env)
    ensures Issued(ops, [], versions, least, deployed)
  {
  }

  lemma OnlyNonceAt(h: seq<Snap>, later: seq<Snap>, nonce: string, x: string)
    requires OnlyNonce(h, later, nonce) && x != nonce && Unused(h, x)
    ensures Unused(later, x)
  {
  }
}
