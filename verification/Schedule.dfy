/** The order in which cells start and what it costs: a stable longest-first sort, and the
    guarantees of a pool whose next cell starts on the slot that frees first. Times are
    exact; rounding of the estimates is not modelled. */
module Schedule {
  import Config

  // ---- Longest first --------------------------------------------------------

  function PerInvoke(s: Config.Scenario): real {
    match s
    case Batch => 0.3
    case ThreeClient => 0.05
    case SmithyFull => 0.05
    case OneClient => 0.04
    case Hello => 0.03
    case Smithy => 0.03
    case LetterCount => 0.02
    case Cache => 0.02
    case Authz => 0.015
  }

  /** Rough run time of a cell, in seconds. */
  function ExpectedSecs(c: Config.Cell, profile: Config.Profile): (secs: real)
    requires c.memoryMb > 0
    ensures secs > 0.0
  {
    var counts := c.Iterations(profile);
    var share := (if c.memoryMb < 1769 then c.memoryMb else 1769) as real / 1769.0;
    var perCold := if c.snapstart then 45.0 else 2.0;
    counts.cold as real * perCold + counts.cold as real * (1.0 + counts.warm as real) * PerInvoke(c.scenario) / share
  }

  predicate Descending<T>(s: seq<T>, key: T -> real) {
    forall i, j :: 0 <= i < j < |s| ==> key(s[i]) >= key(s[j])
  }

  /** The elements with one key, in order. */
  function WithKey<T>(s: seq<T>, key: T -> real, k: real): seq<T> {
    if s == [] then []
    else if key(s[0]) == k then [s[0]] + WithKey(s[1..], key, k)
    else WithKey(s[1..], key, k)
  }

  /** Places an element before the first one that is not longer. */
  function InsertStable<T>(x: T, s: seq<T>, key: T -> real): seq<T> {
    if s == [] || key(s[0]) <= key(x) then [x] + s else [s[0]] + InsertStable(x, s[1..], key)
  }

  function SortStable<T>(s: seq<T>, key: T -> real): seq<T> {
    if s == [] then [] else InsertStable(s[0], SortStable(s[1..], key), key)
  }

  function LongestFirst(cells: seq<Config.Cell>, profile: Config.Profile): seq<Config.Cell>
    requires forall i :: 0 <= i < |cells| ==> cells[i].memoryMb > 0
  {
    SortStable(cells, Estimate(profile))
  }

  function Estimate(profile: Config.Profile): Config.Cell -> real {
    (c: Config.Cell) => if c.memoryMb > 0 then ExpectedSecs(c, profile) else 0.0
  }

  /** The part of an estimate that the forced cold starts take. */
  function Forcing(c: Config.Cell, profile: Config.Profile): real {
    c.Iterations(profile).cold as real * if c.snapstart then 45.0 else 2.0
  }

  /** The part that the invokes take on a full CPU. */
  function Invoking(c: Config.Cell, profile: Config.Profile): real {
    c.Iterations(profile).cold as real * (1.0 + c.Iterations(profile).warm as real) * PerInvoke(c.scenario)
  }

  lemma OverShare(work: real, m: int)
    requires 0 < m && work >= 0.0
    ensures var share := (if m < 1769 then m else 1769) as real / 1769.0;
      share > 0.0 && work / share == work * 1769.0 / (if m < 1769 then m else 1769) as real
  {
  }

  lemma LargerDivisor(x: real, m: int, n: int)
    requires x >= 0.0 && 0 < m <= n
    ensures x / m as real >= x / n as real
  {
    assert x / n as real * m as real <= x / n as real * n as real;
  }

  lemma Parts(c: Config.Cell, profile: Config.Profile)
    requires c.memoryMb > 0
    ensures Invoking(c, profile) >= 0.0
    ensures ExpectedSecs(c, profile) == AtMemory(Forcing(c, profile), Invoking(c, profile) * 1769.0, c.memoryMb)
  {
    OverShare(Invoking(c, profile), c.memoryMb);
  }

  function Times(x: real, n: int): real {
    x * n as real
  }

  /** A cell with less memory is never estimated shorter while its counts are the same, and from a full CPU on memory
      makes no difference; below that, the invokes take inversely as long. */
  lemma LessMemoryLonger(c: Config.Cell, m: int, profile: Config.Profile)
    requires 0 < m <= c.memoryMb && c.(memoryMb := m).Iterations(profile) == c.Iterations(profile)
    ensures ExpectedSecs(c.(memoryMb := m), profile) >= ExpectedSecs(c, profile)
    ensures m >= 1769 ==> ExpectedSecs(c.(memoryMb := m), profile) == ExpectedSecs(c, profile)
    ensures c.memoryMb <= 1769 ==>
      Times(ExpectedSecs(c.(memoryMb := m), profile) - Forcing(c, profile), m)
      == Times(ExpectedSecs(c, profile) - Forcing(c, profile), c.memoryMb)
  {
    hide *;
    var d := c.(memoryMb := m);
    Parts(c, profile);
    Parts(d, profile);
    SameParts(c, m, profile);
    var (forcing, work) := (Forcing(c, profile), Invoking(c, profile) * 1769.0);
    MemoryLaw(forcing, work, m, c.memoryMb);
  }

  lemma SameParts(c: Config.Cell, m: int, profile: Config.Profile)
    requires c.(memoryMb := m).Iterations(profile) == c.Iterations(profile)
    ensures Forcing(c.(memoryMb := m), profile) == Forcing(c, profile)
    ensures Invoking(c.(memoryMb := m), profile) == Invoking(c, profile)
  {
  }

  function AtMemory(forcing: real, work: real, m: int): real
    requires m > 0
  {
    forcing + work / (if m < 1769 then m else 1769) as real
  }

  lemma MemoryLaw(forcing: real, work: real, m: int, n: int)
    requires work >= 0.0 && 0 < m <= n
    ensures AtMemory(forcing, work, m) >= AtMemory(forcing, work, n)
    ensures m >= 1769 ==> AtMemory(forcing, work, m) == AtMemory(forcing, work, n)
    ensures n <= 1769 ==> Times(AtMemory(forcing, work, m) - forcing, m) == Times(AtMemory(forcing, work, n) - forcing, n)
  {
    LargerDivisor(work, if m < 1769 then m else 1769, if n < 1769 then n else 1769);
    if n <= 1769 {
      TimesBack(work, m);
      TimesBack(work, n);
      assert AtMemory(forcing, work, m) - forcing == work / m as real;
      assert AtMemory(forcing, work, n) - forcing == work / n as real;
    }
  }

  lemma TimesBack(x: real, m: int)
    requires 0 < m
    ensures x / m as real * m as real == x
  {
  }

  /** Few Python cycles on little memory. */
  predicate StarvedPython(c: Config.Cell) {
    c.lang.Python? && c.memoryMb <= 256
  }

  lemma BatchAtLeast(c: Config.Cell)
    requires c.Valid() && c.scenario.Batch? && 0 < c.memoryMb <= 512
    ensures ExpectedSecs(c, Config.Full) > if StarvedPython(c) then 2093.0 else 2500.0
  {
    Parts(c, Config.Full);
    var work := Invoking(c, Config.Full);
    assert if StarvedPython(c) then work == 301.5 else if c.snapstart then work == 603.0 else work == 904.5;
    assert Forcing(c, Config.Full) >= if c.snapstart then 450.0 else 10.0;
    hide ExpectedSecs, Forcing, Invoking;
    LargerDivisor(work * 1769.0, c.memoryMb, if StarvedPython(c) then 256 else 512);
  }

  lemma OthersAtMost(c: Config.Cell)
    requires c.Valid() && !c.scenario.Batch? && c.memoryMb >= 128
    ensures ExpectedSecs(c, Config.Full) < if c.snapstart then 2300.0 else 2085.0
  {
    Parts(c, Config.Full);
    var (work, forcing) := (Invoking(c, Config.Full), Forcing(c, Config.Full));
    assert c.snapstart ==> (forcing <= 225.0 && work <= 150.1) || (forcing <= 450.0 && work <= 25.5);
    assert !c.snapstart ==> (forcing <= 10.0 && work <= 150.1) || (forcing <= 100.0 && work <= 127.5);
    hide ExpectedSecs, Forcing, Invoking;
    LargerDivisor(work * 1769.0, 128, if c.memoryMb < 1769 then c.memoryMb else 1769);
  }

  /** In a full run no other cell starts before a `batch` cell on at most 512 MB, from the least memory there is; a
      SnapStart cell may start before a starved Python one. */
  lemma LowMemoryBatchFirst(cells: seq<Config.Cell>, i: nat, j: nat)
    requires forall k :: 0 <= k < |cells| ==> cells[k].Valid() && cells[k].memoryMb >= 128
    requires var order := LongestFirst(cells, Config.Full);
      && i < |order| && j < |order| && order[i].scenario.Batch? && order[i].memoryMb <= 512 && !order[j].scenario.Batch?
      && !(StarvedPython(order[i]) && order[j].snapstart)
    ensures i < j
  {
    var order, key := LongestFirst(cells, Config.Full), Estimate(Config.Full);
    SortIsStable(cells, key);
    hide SortStable, ExpectedSecs, StarvedPython;
    forall k | 0 <= k < |order| ensures order[k] in cells {
      assert order[k] in multiset(order);
    }
    BatchAtLeast(order[i]);
    OthersAtMost(order[j]);
    assert key(order[i]) > key(order[j]);
  }

  lemma {:induction false} InsertContents<T(!new)>(x: T, s: seq<T>, key: T -> real)
    ensures multiset(InsertStable(x, s, key)) == multiset(s) + multiset{x}
    ensures forall y :: y in InsertStable(x, s, key) ==> y in s || y == x
  {
    if s != [] && key(s[0]) > key(x) {
      InsertContents(x, s[1..], key);
      assert s == [s[0]] + s[1..];
    }
  }

  lemma {:induction false} InsertDescends<T(!new)>(x: T, s: seq<T>, key: T -> real)
    requires Descending(s, key)
    ensures Descending(InsertStable(x, s, key), key)
  {
    if s != [] && key(s[0]) > key(x) {
      var rest := InsertStable(x, s[1..], key);
      assert InsertStable(x, s, key) == [s[0]] + rest;
      InsertDescends(x, s[1..], key);
      InsertContents(x, s[1..], key);
      forall j | 0 <= j < |rest|
        ensures key(s[0]) >= key(rest[j])
      {
        assert rest[j] in rest;
      }
    }
  }

  lemma {:induction false} InsertOrder<T(!new)>(x: T, s: seq<T>, key: T -> real, k: real)
    requires Descending(s, key)
    ensures WithKey(InsertStable(x, s, key), key, k) == (if key(x) == k then [x] else []) + WithKey(s, key, k)
  {
    var out := InsertStable(x, s, key);
    if s == [] || key(s[0]) <= key(x) {
      assert out[1..] == s;
    } else {
      InsertOrder(x, s[1..], key, k);
      assert out[1..] == InsertStable(x, s[1..], key);
    }
  }

  /** The sort is a permutation, longest first, and keeps the order of equal estimates. */
  lemma {:induction false} SortIsStable<T(!new)>(s: seq<T>, key: T -> real)
    ensures Descending(SortStable(s, key), key)
    ensures multiset(SortStable(s, key)) == multiset(s)
    ensures forall k :: WithKey(SortStable(s, key), key, k) == WithKey(s, key, k)
  {
    if s != [] {
      SortIsStable(s[1..], key);
      InsertDescends(s[0], SortStable(s[1..], key), key);
      InsertContents(s[0], SortStable(s[1..], key), key);
      assert s == [s[0]] + s[1..];
      forall k
        ensures WithKey(SortStable(s, key), key, k) == WithKey(s, key, k)
      {
        InsertOrder(s[0], SortStable(s[1..], key), key, k);
      }
    }
  }

  /** And it is the only sequence with these properties. */
  lemma {:induction false} StableSortUnique<T(!new)>(a: seq<T>, b: seq<T>, key: T -> real)
    requires Descending(a, key) && Descending(b, key)
    requires forall k :: WithKey(a, key, k) == WithKey(b, key, k)
    ensures a == b
    decreases |a|
  {
    HeadPresent(a, key);
    HeadPresent(b, key);
    if a != [] && b != [] {
      HeadIsLongest(a, b, key);
      HeadIsLongest(b, a, key);
      assert WithKey(a, key, key(a[0])) == WithKey(b, key, key(a[0]));
      forall k
        ensures WithKey(a[1..], key, k) == WithKey(b[1..], key, k)
      {
        assert WithKey(a, key, k) == WithKey(b, key, k);
        if key(a[0]) == k {
          assert WithKey(a[1..], key, k) == WithKey(a, key, k)[1..];
          assert WithKey(b[1..], key, k) == WithKey(b, key, k)[1..];
        }
      }
      StableSortUnique(a[1..], b[1..], key);
    }
  }

  lemma HeadPresent<T(!new)>(s: seq<T>, key: T -> real)
    ensures s != [] ==> WithKey(s, key, key(s[0])) != []
  {
  }

  lemma HeadIsLongest<T(!new)>(a: seq<T>, b: seq<T>, key: T -> real)
    requires a != [] && b != [] && Descending(b, key)
    requires forall k :: WithKey(a, key, k) == WithKey(b, key, k)
    ensures key(b[0]) >= key(a[0])
  {
    assert WithKey(a, key, key(a[0])) == WithKey(b, key, key(a[0])) != [];
    WithKeyMember(b, key, key(a[0]));
  }

  lemma {:induction false} WithKeyMember<T(!new)>(s: seq<T>, key: T -> real, k: real)
    requires WithKey(s, key, k) != []
    ensures exists i :: 0 <= i < |s| && key(s[i]) == k
  {
    if key(s[0]) != k {
      WithKeyMember(s[1..], key, k);
      var i :| 0 <= i < |s[1..]| && key(s[1..][i]) == k;
      assert key(s[i + 1]) == k;
    }
  }

  /** The order is of the same cells. */
  lemma SameCells(cells: seq<Config.Cell>, profile: Config.Profile)
    requires forall i :: 0 <= i < |cells| ==> cells[i].memoryMb > 0
    ensures multiset(LongestFirst(cells, profile)) == multiset(cells)
  {
    SortIsStable(cells, Estimate(profile));
  }

  // ---- List scheduling on a pool --------------------------------------------

  predicate Durations(d: seq<real>) {
    forall k :: 0 <= k < |d| ==> d[k] >= 0.0
  }

  /** `f` puts each job on one of `p` slots. */
  predicate Assigns(d: seq<real>, p: nat, f: seq<nat>) {
    |f| == |d| && forall k :: 0 <= k < |f| ==> f[k] < p
  }

  /** Time a slot is busy with the first `n` jobs. */
  function Load(d: seq<real>, f: seq<nat>, n: nat, q: nat): real
    requires n <= |d| && n <= |f|
  {
    if n == 0 then 0.0 else Load(d, f, n - 1, q) + if f[n - 1] == q then d[n - 1] else 0.0
  }

  function Total(d: seq<real>, n: nat): real
    requires n <= |d|
  {
    if n == 0 then 0.0 else Total(d, n - 1) + d[n - 1]
  }

  /** Busy time of the first `p` slots together. */
  function SumLoads(d: seq<real>, f: seq<nat>, n: nat, p: nat): real
    requires n <= |d| && n <= |f|
  {
    if p == 0 then 0.0 else SumLoads(d, f, n, p - 1) + Load(d, f, n, p - 1)
  }

  /** Every job starts on a slot that is free no later than any other. */
  predicate Greedy(d: seq<real>, p: nat, f: seq<nat>) {
    && Assigns(d, p, f)
    && forall k: nat, q: nat {:trigger Load(d, f, k, q)} :: k < |d| && q < p ==> Load(d, f, k, f[k]) <= Load(d, f, k, q)
  }

  /** When job `k` ends. */
  function FinishAt(d: seq<real>, f: seq<nat>, k: nat): real
    requires k < |d| && k < |f|
  {
    Load(d, f, k, f[k]) + d[k]
  }

  /** The run is over at `m`, and job `j` is what it waited for. */
  predicate WaitsFor(d: seq<real>, f: seq<nat>, j: nat, m: real)
    requires |f| == |d|
  {
    j < |d| && FinishAt(d, f, j) == m && forall k :: 0 <= k < |d| ==> FinishAt(d, f, k) <= m
  }

  /** No slot is busy beyond `m`. */
  predicate Fits(d: seq<real>, p: nat, f: seq<nat>, m: real) {
    Assigns(d, p, f) && forall q :: 0 <= q < p ==> Load(d, f, |d|, q) <= m
  }

  lemma {:induction false} LoadsSum(d: seq<real>, f: seq<nat>, n: nat, p: nat)
    requires Assigns(d, p, f) && n <= |d|
    ensures SumLoads(d, f, n, p) == Total(d, n)
  {
    if n == 0 {
      NoLoad(d, f, p);
    } else {
      LoadsSum(d, f, n - 1, p);
      OneMore(d, f, n - 1, p);
    }
  }

  lemma {:induction false} NoLoad(d: seq<real>, f: seq<nat>, p: nat)
    requires |f| == |d|
    ensures SumLoads(d, f, 0, p) == 0.0
  {
    if p > 0 {
      NoLoad(d, f, p - 1);
    }
  }

  lemma {:induction false} OneMore(d: seq<real>, f: seq<nat>, n: nat, p: nat)
    requires |f| == |d| && n < |d|
    ensures SumLoads(d, f, n + 1, p) == SumLoads(d, f, n, p) + if f[n] < p then d[n] else 0.0
  {
    if p > 0 {
      OneMore(d, f, n, p - 1);
    }
  }

  lemma {:induction false} LoadGrows(d: seq<real>, f: seq<nat>, m: nat, n: nat, q: nat)
    requires |f| == |d| && Durations(d) && m <= n <= |d|
    ensures 0.0 <= Load(d, f, m, q) <= Load(d, f, n, q)
    decreases n
  {
    if m < n {
      LoadGrows(d, f, m, n - 1, q);
    } else if m > 0 {
      LoadGrows(d, f, m - 1, m - 1, q);
    }
  }

  lemma {:induction false} TotalGrows(d: seq<real>, m: nat, n: nat)
    requires Durations(d) && m <= n <= |d|
    ensures Total(d, m) <= Total(d, n)
  {
    if m < n {
      TotalGrows(d, m, n - 1);
    }
  }

  lemma {:induction false} SumAtLeast(d: seq<real>, f: seq<nat>, n: nat, p: nat, low: real)
    requires |f| == |d| && n <= |d| && forall q :: 0 <= q < p ==> low <= Load(d, f, n, q)
    ensures p as real * low <= SumLoads(d, f, n, p)
  {
    if p > 0 {
      SumAtLeast(d, f, n, p - 1, low);
      assert p as real * low == (p - 1) as real * low + low;
    }
  }

  lemma {:induction false} SumAtMost(d: seq<real>, f: seq<nat>, n: nat, p: nat, high: real)
    requires |f| == |d| && n <= |d| && forall q :: 0 <= q < p ==> Load(d, f, n, q) <= high
    ensures SumLoads(d, f, n, p) <= p as real * high
  {
    if p > 0 {
      SumAtMost(d, f, n, p - 1, high);
      assert p as real * high == (p - 1) as real * high + high;
    }
  }

  /** A job that fits somewhere fits in the whole. */
  lemma JobFits(d: seq<real>, p: nat, f: seq<nat>, m: real, k: nat)
    requires Durations(d) && Fits(d, p, f, m) && k < |d|
    ensures d[k] <= m
  {
    LoadGrows(d, f, 0, k, f[k]);
    LoadGrows(d, f, k + 1, |d|, f[k]);
  }

  lemma TotalFits(d: seq<real>, p: nat, f: seq<nat>, m: real)
    requires Fits(d, p, f, m)
    ensures Total(d, |d|) <= p as real * m
  {
    LoadsSum(d, f, |d|, p);
    SumAtMost(d, f, |d|, p, m);
  }

  /** The makespan of a pool of `p` slots is bounded by the average load and the job it
      waited for: p * m <= total + (p - 1) * d[j], for every list and every tie. */
  lemma LastFinisherBound(d: seq<real>, p: nat, f: seq<nat>, j: nat, m: real)
    requires p > 0 && Durations(d) && Greedy(d, p, f) && WaitsFor(d, f, j, m)
    ensures p as real * m <= Total(d, |d|) + (p - 1) as real * d[j]
  {
    var start := Load(d, f, j, f[j]);
    SumAtLeast(d, f, j, p, start);
    LoadsSum(d, f, j, p);
    TotalGrows(d, j + 1, |d|);
    Spread(p as real, start, d[j]);
  }

  lemma Spread(p: real, a: real, b: real)
    ensures p * (a + b) == p * a + (p - 1.0) * b + b
  {
  }

  /** Whatever the order, the pool finishes within 2 - 1/p of any schedule at all. */
  lemma GrahamAnyOrder(d: seq<real>, p: nat, f: seq<nat>, j: nat, m: real, g: seq<nat>, best: real)
    requires p > 0 && Durations(d) && Greedy(d, p, f) && WaitsFor(d, f, j, m) && Fits(d, p, g, best)
    ensures p as real * m <= (2 * p - 1) as real * best
  {
    hide Greedy, Fits, Total, Durations;
    LastFinisherBound(d, p, f, j, m);
    TotalFits(d, p, g, best);
    JobFits(d, p, g, best, j);
    hide *;
    Casts(p);
    AnyOrder(p as real, m, d[j], best, Total(d, |d|));
  }

  lemma Casts(p: nat)
    requires p > 0
    ensures p as real >= 1.0 && (p - 1) as real == p as real - 1.0
    ensures (2 * p - 1) as real == 2.0 * p as real - 1.0 && (4 * p - 1) as real == 4.0 * p as real - 1.0
  {
  }

  lemma AnyOrder(p: real, m: real, last: real, best: real, total: real)
    requires p >= 1.0 && p * m <= total + (p - 1.0) * last && total <= p * best && last <= best
    ensures p * m <= (2.0 * p - 1.0) * best
  {
    Scale(p - 1.0, last, best);
    Collect(p, best);
  }

  lemma Scale(c: real, a: real, b: real)
    requires c >= 0.0 && a <= b
    ensures c * a <= c * b
  {
  }

  lemma Collect(p: real, x: real)
    ensures p * x + (p - 1.0) * x == (2.0 * p - 1.0) * x
  {
  }

  // ---- Longest first: the 4/3 bound -----------------------------------------

  predicate Sorted(d: seq<real>) {
    forall i, j :: 0 <= i < j < |d| ==> d[i] >= d[j]
  }

  /** How many of the first `n` jobs a slot gets. */
  function Jobs(f: seq<nat>, n: nat, q: nat): nat
    requires n <= |f|
  {
    if n == 0 then 0 else Jobs(f, n - 1, q) + if f[n - 1] == q then 1 else 0
  }

  function SumJobs(f: seq<nat>, n: nat, p: nat): nat
    requires n <= |f|
  {
    if p == 0 then 0 else SumJobs(f, n, p - 1) + Jobs(f, n, p - 1)
  }

  lemma {:induction false} JobsSum(f: seq<nat>, n: nat, p: nat)
    requires n <= |f| && forall k :: 0 <= k < n ==> f[k] < p
    ensures SumJobs(f, n, p) == n
  {
    if n == 0 {
      NoJobs(f, p);
    } else {
      JobsSum(f, n - 1, p);
      OneMoreJob(f, n - 1, p);
    }
  }

  lemma {:induction false} NoJobs(f: seq<nat>, p: nat)
    ensures SumJobs(f, 0, p) == 0
  {
    if p > 0 {
      NoJobs(f, p - 1);
    }
  }

  lemma {:induction false} OneMoreJob(f: seq<nat>, n: nat, p: nat)
    requires n < |f|
    ensures SumJobs(f, n + 1, p) == SumJobs(f, n, p) + if f[n] < p then 1 else 0
  {
    if p > 0 {
      OneMoreJob(f, n, p - 1);
    }
  }

  /** Slots among the first `p` that have exactly one of the first `n` jobs. */
  ghost function Singles(f: seq<nat>, n: nat, p: nat): set<nat>
    requires n <= |f|
  {
    set q: nat | q < p && Jobs(f, n, q) == 1
  }

  /** Slots among the first `p` that have at most one of the first `n` jobs. */
  ghost function Light(f: seq<nat>, n: nat, p: nat): set<nat>
    requires n <= |f|
  {
    set q: nat | q < p && Jobs(f, n, q) <= 1
  }

  /** With no slot idle, all but the single slots have two jobs or more. */
  lemma {:induction false} BusyCount(f: seq<nat>, n: nat, p: nat)
    requires n <= |f| && forall q :: 0 <= q < p ==> Jobs(f, n, q) >= 1
    ensures SumJobs(f, n, p) + |Singles(f, n, p)| >= 2 * p
  {
    if p > 0 {
      BusyCount(f, n, p - 1);
      var last := p - 1;
      if Jobs(f, n, last) == 1 {
        assert Singles(f, n, p) == Singles(f, n, last) + {last};
      } else {
        assert Singles(f, n, p) == Singles(f, n, last);
      }
    }
  }

  /** With no slot above two jobs, all but the light slots have exactly two. */
  lemma {:induction false} SparseCount(f: seq<nat>, n: nat, p: nat)
    requires n <= |f| && forall q :: 0 <= q < p ==> Jobs(f, n, q) <= 2
    ensures SumJobs(f, n, p) + |Light(f, n, p)| <= 2 * p
  {
    if p > 0 {
      SparseCount(f, n, p - 1);
      var last := p - 1;
      if Jobs(f, n, last) <= 1 {
        assert Light(f, n, p) == Light(f, n, last) + {last};
      } else {
        assert Light(f, n, p) == Light(f, n, last);
      }
    }
  }

  /** Last of the first `n` jobs on a slot. */
  function LastJob(f: seq<nat>, n: nat, q: nat): (k: nat)
    requires n <= |f| && Jobs(f, n, q) >= 1
    ensures k < n && f[k] == q
  {
    if f[n - 1] == q then n - 1 else LastJob(f, n - 1, q)
  }

  /** A slot with one job is busy exactly with that job. */
  lemma {:induction false} SoleLoad(d: seq<real>, f: seq<nat>, n: nat, q: nat)
    requires |f| == |d| && n <= |d|
    ensures Jobs(f, n, q) == 0 ==> Load(d, f, n, q) == 0.0
    ensures Jobs(f, n, q) == 1 ==> Load(d, f, n, q) == d[LastJob(f, n, q)]
  {
    if n > 0 {
      SoleLoad(d, f, n - 1, q);
    }
  }

  /** Jobs of at least `low` fill a slot at least in proportion. */
  lemma {:induction false} LoadPerJob(d: seq<real>, f: seq<nat>, n: nat, q: nat, low: real)
    requires |f| == |d| && n <= |d| && forall k :: 0 <= k < n ==> low <= d[k]
    ensures Jobs(f, n, q) as real * low <= Load(d, f, n, q)
  {
    if n > 0 {
      LoadPerJob(d, f, n - 1, q, low);
      OneMoreTimes(Jobs(f, n - 1, q), low);
    }
  }

  /** A slot with the job `b` and at least one more carries `d[b]` and a further `low`. */
  lemma {:induction false} LoadWith(d: seq<real>, f: seq<nat>, n: nat, b: nat, low: real)
    requires |f| == |d| && b < n <= |d| && low >= 0.0 && forall k :: 0 <= k < n ==> low <= d[k]
    ensures Jobs(f, n, f[b]) >= 1
    ensures d[b] <= Load(d, f, n, f[b])
    ensures Jobs(f, n, f[b]) >= 2 ==> d[b] + low <= Load(d, f, n, f[b])
    decreases n
  {
    if b < n - 1 {
      LoadWith(d, f, n - 1, b, low);
      assert low <= d[n - 1];
    } else {
      LoadPerJob(d, f, b, f[b], low);
      AtLeastOne(Jobs(f, b, f[b]), low, Load(d, f, b, f[b]));
    }
  }

  lemma AtLeastOne(k: nat, low: real, load: real)
    requires low >= 0.0 && k as real * low <= load
    ensures load >= 0.0 && (k >= 1 ==> low <= load)
  {
    if k >= 1 {
      assert k as real == (k - 1) as real + 1.0;
      assert k as real * low == (k - 1) as real * low + low;
    }
  }

  lemma OneMoreTimes(k: nat, low: real)
    ensures (k + 1) as real * low == k as real * low + low
  {
    assert (k + 1) as real == k as real + 1.0;
  }

  /** Two different jobs on one slot are at least two jobs. */
  lemma {:induction false} TwoJobs(f: seq<nat>, n: nat, a: nat, b: nat)
    requires a < b < n <= |f| && f[a] == f[b]
    ensures Jobs(f, n, f[b]) >= 2
    decreases n
  {
    if b < n - 1 {
      TwoJobs(f, n - 1, a, b);
    } else {
      HasJob(f, b, a);
    }
  }

  lemma {:induction false} HasJob(f: seq<nat>, n: nat, a: nat)
    requires a < n <= |f|
    ensures Jobs(f, n, f[a]) >= 1
  {
    if a < n - 1 {
      HasJob(f, n - 1, a);
    }
  }

  /** An injective image is no smaller. */
  lemma {:induction false} ImageSize(s: set<nat>, image: set<nat>, h: nat --> nat)
    requires forall x :: x in s ==> h.requires(x) && h(x) in image
    requires forall x, y :: x in s && y in s && h(x) == h(y) ==> x == y
    ensures |s| <= |image|
    decreases |s|
  {
    if s != {} {
      var x :| x in s;
      ImageSize(s - {x}, image - {h(x)}, h);
    }
  }

  /** Jobs longer than a third of `best` cannot be packed more tightly than the greedy pool
      packs them: if job `j` is the shortest so far, it ends by `best`. */
  lemma LongJobsPackWell(d: seq<real>, p: nat, f: seq<nat>, j: nat, g: seq<nat>, best: real)
    requires p > 0 && Durations(d) && Sorted(d) && Greedy(d, p, f) && Fits(d, p, g, best)
    requires j < |d| && 3.0 * d[j] > best
    ensures FinishAt(d, f, j) <= best
  {
    if FinishAt(d, f, j) > best {
      var n := j + 1;
      forall q | 0 <= q < p
        ensures Jobs(f, j, q) >= 1
      {
        SoleLoad(d, f, j, q);
        JobFits(d, p, g, best, j);
        assert Load(d, f, j, f[j]) <= Load(d, f, j, q);
      }
      forall q | 0 <= q < p
        ensures Jobs(g, n, q) <= 2
      {
        AtMostTwo(d, p, g, best, n, q, d[j]);
      }
      SinglesAreLight(d, p, f, j, g, best);
      BusyCount(f, j, p);
      JobsSum(f, j, p);
      SparseCount(g, n, p);
      JobsSum(g, n, p);
    }
  }

  lemma AtMostTwo(d: seq<real>, p: nat, g: seq<nat>, best: real, n: nat, q: nat, low: real)
    requires Durations(d) && Fits(d, p, g, best) && n <= |d| && q < p
    requires 3.0 * low > best && low >= 0.0 && forall k :: 0 <= k < n ==> low <= d[k]
    ensures Jobs(g, n, q) <= 2
  {
    LoadPerJob(d, g, n, q, low);
    LoadGrows(d, g, n, |d|, q);
    assert Load(d, g, |d|, q) <= best;
    ThreeTooMany(Jobs(g, n, q), low, best);
  }

  lemma ThreeTooMany(n: nat, low: real, best: real)
    requires low >= 0.0 && 3.0 * low > best && n as real * low <= best
    ensures n <= 2
  {
    if n >= 3 {
      Scale(low, 3.0, n as real);
    }
  }

  /** A job alone on its greedy slot is too long to share a slot within `best`, and no two
      such jobs share one: there are at least as many light slots as single ones. */
  lemma SinglesAreLight(d: seq<real>, p: nat, f: seq<nat>, j: nat, g: seq<nat>, best: real)
    requires p > 0 && Durations(d) && Sorted(d) && Greedy(d, p, f) && Fits(d, p, g, best)
    requires j < |d| && FinishAt(d, f, j) > best
    ensures |Singles(f, j, p)| <= |Light(g, j + 1, p)|
  {
    var n := j + 1;
    var h := (q: nat) requires Jobs(f, j, q) >= 1 => g[LastJob(f, j, q)];
    forall q | q in Singles(f, j, p)
      ensures h(q) in Light(g, n, p)
    {
      var b := LastJob(f, j, q);
      SoleLoad(d, f, j, q);
      assert Load(d, f, j, f[j]) <= Load(d, f, j, q);
      LoadWith(d, g, n, b, d[j]);
      LoadGrows(d, g, n, |d|, g[b]);
    }
    forall q, r | q in Singles(f, j, p) && r in Singles(f, j, p) && h(q) == h(r)
      ensures q == r
    {
      var (b, c) := (LastJob(f, j, q), LastJob(f, j, r));
      assert g[b] in Light(g, n, p);
      if b < c {
        TwoJobs(g, n, b, c);
      } else if c < b {
        TwoJobs(g, n, c, b);
      }
    }
    ImageSize(Singles(f, j, p), Light(g, n, p), h);
  }

  /** Started longest first, the pool finishes within 4/3 - 1/(3p) of any schedule:
      3 * p * m <= (4 * p - 1) * best. */
  lemma GrahamLongestFirst(d: seq<real>, p: nat, f: seq<nat>, j: nat, m: real, g: seq<nat>, best: real)
    requires p > 0 && Durations(d) && Sorted(d)
    requires Greedy(d, p, f) && WaitsFor(d, f, j, m) && Fits(d, p, g, best)
    ensures 3.0 * p as real * m <= (4 * p - 1) as real * best
  {
    hide Greedy, Fits, Total, Sorted;
    JobFits(d, p, g, best, j);
    Casts(p);
    if 3.0 * d[j] > best {
      LongJobsPackWell(d, p, f, j, g, best);
      assert 0.0 <= d[j] <= best;
      hide *;
      LongLast(p as real, m, best);
    } else {
      LastFinisherBound(d, p, f, j, m);
      TotalFits(d, p, g, best);
      hide *;
      Thirds(p as real, m, d[j], best, Total(d, |d|));
    }
  }

  lemma LongLast(p: real, m: real, best: real)
    requires p >= 1.0 && m <= best && best >= 0.0
    ensures 3.0 * p * m <= (4.0 * p - 1.0) * best
  {
    Scale(3.0 * p, m, best);
    Scale(best, 3.0 * p, 4.0 * p - 1.0);
    assert best * (3.0 * p) == 3.0 * p * best && best * (4.0 * p - 1.0) == (4.0 * p - 1.0) * best;
  }

  lemma Thirds(p: real, m: real, last: real, best: real, total: real)
    requires p * m <= total + (p - 1.0) * last && total <= p * best
    requires p >= 1.0 && 3.0 * last <= best
    ensures 3.0 * p * m <= (4.0 * p - 1.0) * best
  {
    Scale(p - 1.0, 3.0 * last, best);
    assert (p - 1.0) * (3.0 * last) == 3.0 * ((p - 1.0) * last);
    assert (4.0 * p - 1.0) * best == 3.0 * (p * best) + (p - 1.0) * best;
  }

  /** The cells' order meets that bound whenever they take as long as estimated. */
  lemma RunOrderBound(cells: seq<Config.Cell>, profile: Config.Profile, d: seq<real>, p: nat, f: seq<nat>, j: nat, m: real, g: seq<nat>, best: real)
    requires forall i :: 0 <= i < |cells| ==> cells[i].memoryMb > 0
    requires |d| == |LongestFirst(cells, profile)|
    requires forall k :: 0 <= k < |d| ==> d[k] == Estimate(profile)(LongestFirst(cells, profile)[k])
    requires p > 0 && Greedy(d, p, f) && WaitsFor(d, f, j, m) && Fits(d, p, g, best)
    ensures 3.0 * p as real * m <= (4 * p - 1) as real * best
  {
    SortIsStable(cells, Estimate(profile));
    GrahamLongestFirst(d, p, f, j, m, g, best);
  }
}
