/** The planned-invocation bookkeeping of a run: cells tallied into buckets by their
    resolved counts, and the terminal status derived from the pool's outcome. */
module Planner {
  import Config
  import Pool
  import Schedule

  /** Cells that resolved to one pair of counts, and the invocations they contribute. */
  datatype Bucket = Bucket(functions: nat, invocations: nat)

  /** Invocations of one cell with these counts. */
  function Each(key: Config.Counts): nat {
    key.cold * (1 + key.warm)
  }

  function CellsWith(plan: Pool.Plan, n: nat, key: Config.Counts): nat
    requires n <= |plan.cells|
  {
    if n == 0 then 0
    else CellsWith(plan, n - 1, key) + if plan.CountsOf(n - 1) == key then 1 else 0
  }

  /** Invocations of the first `n` cells whose counts are among `keys`. */
  ghost function PlannedIn(plan: Pool.Plan, n: nat, keys: set<Config.Counts>): nat
    requires n <= |plan.cells|
  {
    if n == 0 then 0
    else PlannedIn(plan, n - 1, keys) + if plan.CountsOf(n - 1) in keys then plan.Invocations(n - 1) else 0
  }

  lemma {:induction false} PlannedInAdd(plan: Pool.Plan, n: nat, keys: set<Config.Counts>, key: Config.Counts)
    requires n <= |plan.cells| && key !in keys
    ensures PlannedIn(plan, n, keys + {key}) == PlannedIn(plan, n, keys) + CellsWith(plan, n, key) * Each(key)
  {
    if n > 0 {
      PlannedInAdd(plan, n - 1, keys, key);
      Distribute(CellsWith(plan, n - 1, key), Each(key));
    }
  }

  lemma {:induction false} PlannedInAll(plan: Pool.Plan, n: nat, keys: set<Config.Counts>)
    requires n <= |plan.cells| && forall i :: 0 <= i < n ==> plan.CountsOf(i) in keys
    ensures PlannedIn(plan, n, keys) == Pool.Planned(plan, n)
  {
    if n > 0 {
      PlannedInAll(plan, n - 1, keys);
    }
  }

  lemma {:induction false} PlannedInNone(plan: Pool.Plan, n: nat)
    requires n <= |plan.cells|
    ensures PlannedIn(plan, n, {}) == 0
  {
    if n > 0 {
      PlannedInNone(plan, n - 1);
    }
  }

  /** Each bucket counts the cells that resolved to it, and its invocations are that many
      times the bucket's own product. */
  ghost predicate Tallied(plan: Pool.Plan, n: nat, buckets: map<Config.Counts, Bucket>)
    requires n <= |plan.cells|
  {
    && (forall i :: 0 <= i < n ==> plan.CountsOf(i) in buckets)
    && (forall key :: key in buckets ==>
          && buckets[key].functions == CellsWith(plan, n, key) > 0
          && buckets[key].invocations == buckets[key].functions * Each(key))
    && (forall key :: key !in buckets ==> CellsWith(plan, n, key) == 0)
  }

  lemma Distribute(n: nat, each: nat)
    ensures (n + 1) * each == n * each + each
  {
  }

  lemma TalliedNext(plan: Pool.Plan, n: nat, buckets: map<Config.Counts, Bucket>)
    requires n < |plan.cells| && Tallied(plan, n, buckets)
    ensures var key := plan.CountsOf(n);
      var entry := if key in buckets then buckets[key] else Bucket(0, 0);
      Tallied(plan, n + 1, buckets[key := Bucket(entry.functions + 1, entry.invocations + Each(key))])
  {
    hide Each, Config.Cell.Iterations;
    var key := plan.CountsOf(n);
    var entry := if key in buckets then buckets[key] else Bucket(0, 0);
    Distribute(entry.functions, Each(key));
  }

  lemma NoneTallied(plan: Pool.Plan)
    ensures Tallied(plan, 0, map[])
  {
  }

  method TallyBuckets(plan: Pool.Plan) returns (buckets: map<Config.Counts, Bucket>)
    ensures Tallied(plan, |plan.cells|, buckets)
  {
    hide *;
    buckets := map[];
    NoneTallied(plan);
    for n := 0 to |plan.cells|
      invariant Tallied(plan, n, buckets)
    {
      var key := plan.CountsOf(n);
      var entry := if key in buckets then buckets[key] else Bucket(0, 0);
      TalliedNext(plan, n, buckets);
      buckets := buckets[key := Bucket(entry.functions + 1, entry.invocations + Each(key))];
    }
  }

  /** The bucket tallies sum to the rows the cells of the run will write. */
  method SumBuckets(plan: Pool.Plan, buckets: map<Config.Counts, Bucket>) returns (planned: nat)
    requires Tallied(plan, |plan.cells|, buckets)
    ensures planned == Pool.Planned(plan, |plan.cells|)
  {
    planned := 0;
    var left := buckets.Keys;
    PlannedInNone(plan, |plan.cells|);
    assert buckets.Keys - left == {};
    while left != {}
      invariant left <= buckets.Keys
      invariant planned == PlannedIn(plan, |plan.cells|, buckets.Keys - left)
      decreases left
    {
      var key :| key in left;
      PlannedInAdd(plan, |plan.cells|, buckets.Keys - left, key);
      assert buckets.Keys - left + {key} == buckets.Keys - (left - {key});
      planned := planned + buckets[key].invocations;
      left := left - {key};
    }
    assert buckets.Keys - left == buckets.Keys;
    PlannedInAll(plan, |plan.cells|, buckets.Keys);
  }

  datatype RunStatus = Ok | Failed

  datatype Meta = Meta(status: RunStatus, planned: nat, recorded: nat)

  /** The terminal metadata of a returned run. */
  function Finish(planned: nat, s: Pool.State): Meta {
    Meta(if s.failed then Failed else Ok, planned, s.recorded)
  }

  /** A reader of the metadata can tell a complete dataset from a truncated one. */
  lemma StatusTellsCompleteness(plan: Pool.Plan, states: seq<Pool.State>, steps: seq<Pool.Step>, planned: nat)
    requires Pool.Run(plan, states, steps) && Pool.Returned(states[|states| - 1])
    requires planned == Pool.Planned(plan, |plan.cells|)
    ensures var meta := Finish(planned, states[|states| - 1]);
      && (meta.status.Ok? <==> meta.recorded == meta.planned)
      && (meta.status.Failed? <==> meta.recorded < meta.planned)
  {
    Pool.RecordedExactlyWhenOk(plan, states, steps);
  }

  // ---- Order of the cells ---------------------------------------------------

  function Sum(cells: seq<Config.Cell>, profile: Config.Profile): nat {
    if cells == [] then 0 else Sum(cells[..|cells| - 1], profile) + Each(cells[|cells| - 1].Iterations(profile))
  }

  lemma {:induction false} PlannedIsSum(cells: seq<Config.Cell>, profile: Config.Profile, pool: nat, n: nat)
    requires n <= |cells|
    ensures Pool.Planned(Pool.Plan(cells, profile, pool), n) == Sum(cells[..n], profile)
  {
    if n > 0 {
      PlannedIsSum(cells, profile, pool, n - 1);
      assert cells[..n][..n - 1] == cells[..n - 1];
    }
  }

  lemma {:induction false} SumConcat(a: seq<Config.Cell>, b: seq<Config.Cell>, profile: Config.Profile)
    ensures Sum(a + b, profile) == Sum(a, profile) + Sum(b, profile)
  {
    if b == [] {
      assert a + b == a;
    } else {
      SumConcat(a, b[..|b| - 1], profile);
      assert (a + b)[..|a + b| - 1] == a + b[..|b| - 1];
    }
  }

  lemma WithoutOne<T>(u: seq<T>, x: T, v: seq<T>)
    ensures multiset(u + v) == multiset(u + [x] + v) - multiset{x}
  {
    assert multiset(u + [x] + v) == multiset(u) + multiset{x} + multiset(v);
    assert multiset(u + v) == multiset(u) + multiset(v);
  }

  lemma RestsEqual<T>(a: seq<T>, b: seq<T>, front: seq<T>, x: T, u: seq<T>, v: seq<T>)
    requires a == front + [x] + [] && b == u + [x] + v && multiset(a) == multiset(b)
    ensures multiset(front) == multiset(u + v)
  {
    WithoutOne(front, x, []);
    WithoutOne(u, x, v);
    assert front + [] == front;
  }

  lemma {:induction false} SumAnyOrder(a: seq<Config.Cell>, b: seq<Config.Cell>, profile: Config.Profile)
    requires multiset(a) == multiset(b)
    ensures Sum(a, profile) == Sum(b, profile)
    decreases |a|
  {
    hide *;
    if a == [] {
      assert |multiset(b)| == 0;
      assert b == [];
    } else {
      var (front, x) := (a[..|a| - 1], a[|a| - 1]);
      assert a == front + [x] + [] && front == front + [];
      var k := PlaceOf(a, b, x);
      var (u, v) := (b[..k], b[k + 1..]);
      assert b == u + [x] + v;
      RestsEqual(a, b, front, x, u, v);
      SumAnyOrder(front, u + v, profile);
      SumWithout(front, x, [], profile);
      SumWithout(u, x, v, profile);
    }
  }

  lemma PlaceOf<T>(a: seq<T>, b: seq<T>, x: T) returns (k: nat)
    requires multiset(a) == multiset(b) && x in a
    ensures k < |b| && b[k] == x
  {
    assert x in multiset(a);
    assert x in b;
    k :| k < |b| && b[k] == x;
  }

  lemma SumWithout(u: seq<Config.Cell>, x: Config.Cell, v: seq<Config.Cell>, profile: Config.Profile)
    ensures Sum(u + [x] + v, profile) == Sum(u + v, profile) + Sum([x], profile)
  {
    hide *;
    SumConcat(u, v, profile);
    SumConcat(u, [x], profile);
    SumConcat(u + [x], v, profile);
  }

  /** The tally is made in the order of the matrix and the cells run longest first; the status tells completeness
      all the same. */
  lemma StatusOfRun(cells: seq<Config.Cell>, profile: Config.Profile, pool: nat, states: seq<Pool.State>, steps: seq<Pool.Step>, planned: nat)
    requires forall i :: 0 <= i < |cells| ==> cells[i].memoryMb > 0
    requires Pool.Run(Pool.Plan(Schedule.LongestFirst(cells, profile), profile, pool), states, steps)
    requires Pool.Returned(states[|states| - 1])
    requires planned == Pool.Planned(Pool.Plan(cells, profile, pool), |cells|)
    ensures var meta := Finish(planned, states[|states| - 1]);
      && (meta.status.Ok? <==> meta.recorded == meta.planned)
      && (meta.status.Failed? <==> meta.recorded < meta.planned)
  {
    hide Pool.Run, Pool.Returned, Sum;
    var order := Schedule.LongestFirst(cells, profile);
    Schedule.SameCells(cells, profile);
    SumAnyOrder(cells, order, profile);
    PlannedIsSum(cells, profile, pool, |cells|);
    PlannedIsSum(order, profile, pool, |order|);
    assert cells[..|cells|] == cells && order[..|order|] == order;
    StatusTellsCompleteness(Pool.Plan(order, profile, pool), states, steps, planned);
  }
}
