/** Order statistics of the probe's timing samples, in exact arithmetic. */
module Stats {
  import opened Wrappers
  import Report

  // ---- Sorting --------------------------------------------------------------

  predicate Ascending(s: seq<real>) {
    forall i, j :: 0 <= i < j < |s| ==> s[i] <= s[j]
  }

  function Insert(x: real, s: seq<real>): (r: seq<real>)
    ensures |r| == |s| + 1
  {
    if s == [] || x <= s[0] then [x] + s else [s[0]] + Insert(x, s[1..])
  }

  function Sort(s: seq<real>): (r: seq<real>)
    ensures |r| == |s|
  {
    if s == [] then [] else Insert(s[0], Sort(s[1..]))
  }

  lemma {:induction false} InsertContents(x: real, s: seq<real>)
    ensures multiset(Insert(x, s)) == multiset(s) + multiset{x}
    ensures forall y :: y in Insert(x, s) ==> y == x || y in s
  {
    if s != [] && x > s[0] {
      InsertContents(x, s[1..]);
      assert s == [s[0]] + s[1..];
    }
  }

  lemma {:induction false} InsertSorted(x: real, s: seq<real>)
    requires Ascending(s)
    ensures Ascending(Insert(x, s))
  {
    if s != [] && x > s[0] {
      InsertSorted(x, s[1..]);
      InsertContents(x, s[1..]);
      var rest := Insert(x, s[1..]);
      forall i | 0 <= i < |rest|
        ensures s[0] <= rest[i]
      {
        assert rest[i] in rest;
      }
    }
  }

  lemma {:induction false} SortSorts(s: seq<real>)
    ensures Ascending(Sort(s))
    ensures multiset(Sort(s)) == multiset(s)
  {
    if s != [] {
      SortSorts(s[1..]);
      InsertSorted(s[0], Sort(s[1..]));
      InsertContents(s[0], Sort(s[1..]));
      assert s == [s[0]] + s[1..];
    }
  }

  lemma HeadLeast(a: seq<real>, x: real)
    requires Ascending(a) && a != [] && x in a
    ensures a[0] <= x
  {
  }

  lemma TailMultiset(a: seq<real>)
    requires a != []
    ensures Ascending(a) ==> Ascending(a[1..])
    ensures multiset(a[1..]) == multiset(a) - multiset{a[0]}
  {
    assert a == [a[0]] + a[1..];
  }

  lemma HeadsEqual(a: seq<real>, b: seq<real>)
    requires Ascending(a) && Ascending(b) && multiset(a) == multiset(b) && a != []
    ensures b != [] && a[0] == b[0]
  {
    assert a[0] in multiset(b);
    assert b[0] in multiset(a);
    HeadLeast(a, b[0]);
    HeadLeast(b, a[0]);
  }

  lemma {:induction false} SortedUnique(a: seq<real>, b: seq<real>)
    requires Ascending(a) && Ascending(b) && multiset(a) == multiset(b)
    ensures a == b
    decreases |a|
  {
    hide Ascending;
    if a == [] {
      assert |b| == |multiset(b)| == |multiset(a)| == 0;
    } else {
      HeadsEqual(a, b);
      TailMultiset(a);
      TailMultiset(b);
      SortedUnique(a[1..], b[1..]);
      Whole(a);
      Whole(b);
    }
  }

  lemma Whole(a: seq<real>)
    requires a != []
    ensures a == [a[0]] + a[1..]
  {
  }

  /** The order statistics depend only on the multiset of samples. */
  lemma OrderDoesNotMatter(a: seq<real>, b: seq<real>)
    requires multiset(a) == multiset(b)
    ensures Sort(a) == Sort(b)
  {
    SortSorts(a);
    SortSorts(b);
    SortedUnique(Sort(a), Sort(b));
  }

  // ---- Counting -------------------------------------------------------------

  /** Samples at or below `x`. */
  function AtMost(s: seq<real>, x: real): (n: nat)
    ensures n <= |s|
  {
    if s == [] then 0 else AtMost(s[1..], x) + if s[0] <= x then 1 else 0
  }

  /** Samples at or above `x`. */
  function AtLeast(s: seq<real>, x: real): (n: nat)
    ensures n <= |s|
  {
    if s == [] then 0 else AtLeast(s[1..], x) + if s[0] >= x then 1 else 0
  }

  lemma {:induction false} InsertCounts(y: real, s: seq<real>, x: real)
    ensures AtMost(Insert(y, s), x) == AtMost(s, x) + if y <= x then 1 else 0
    ensures AtLeast(Insert(y, s), x) == AtLeast(s, x) + if y >= x then 1 else 0
  {
    if s == [] || y <= s[0] {
      assert ([y] + s)[1..] == s;
    } else {
      InsertCounts(y, s[1..], x);
      assert ([s[0]] + Insert(y, s[1..]))[1..] == Insert(y, s[1..]);
    }
  }

  lemma {:induction false} SortCounts(s: seq<real>, x: real)
    ensures AtMost(Sort(s), x) == AtMost(s, x) && AtLeast(Sort(s), x) == AtLeast(s, x)
  {
    if s != [] {
      SortCounts(s[1..], x);
      InsertCounts(s[0], Sort(s[1..]), x);
    }
  }

  /** In a sorted sequence the rank of a value brackets the counts around it. */
  lemma {:induction false} RankCounts(s: seq<real>, k: nat, x: real)
    requires Ascending(s) && k < |s|
    ensures x >= s[k] ==> AtMost(s, x) >= k + 1
    ensures x < s[k] ==> AtMost(s, x) <= k
    ensures x <= s[k] ==> AtLeast(s, x) >= |s| - k
  {
    if k > 0 {
      RankCounts(s[1..], k - 1, x);
      AllAbove(s[1..], x);
    } else {
      AllAbove(s, x);
    }
  }

  lemma {:induction false} AllAbove(s: seq<real>, x: real)
    requires Ascending(s)
    ensures s != [] && x < s[0] ==> AtMost(s, x) == 0
    ensures s != [] && x <= s[0] ==> AtLeast(s, x) == |s|
  {
    if s != [] {
      AllAbove(s[1..], x);
    }
  }

  lemma {:induction false} CountsMonotone(a: seq<real>, b: seq<real>, x: real)
    requires |a| == |b| && forall i :: 0 <= i < |a| ==> a[i] <= b[i]
    ensures AtMost(b, x) <= AtMost(a, x)
  {
    if a != [] {
      CountsMonotone(a[1..], b[1..], x);
    }
  }

  /** Order statistics are monotone: lowering samples one by one lowers every rank. */
  lemma RanksMonotone(a: seq<real>, b: seq<real>, k: nat)
    requires |a| == |b| && k < |a| && forall i :: 0 <= i < |a| ==> a[i] <= b[i]
    ensures Sort(a)[k] <= Sort(b)[k]
  {
    var y := Sort(b)[k];
    SortSorts(a);
    SortSorts(b);
    RankCounts(Sort(b), k, y);
    RankCounts(Sort(a), k, y);
    SortCounts(a, y);
    SortCounts(b, y);
    CountsMonotone(a, b, y);
  }

  // ---- The statistics -------------------------------------------------------

  /** `sort_by` on a slice. */
  method SortInPlace(v: array<real>)
    modifies v
    ensures v[..] == Sort(old(v[..]))
  {
    var sorted := Sort(v[..]);
    forall i | 0 <= i < v.Length {
      v[i] := sorted[i];
    }
    assert v[..] == sorted;
  }

  /** Mean of the two central ranks, which coincide for an odd count. */
  function MedianOf(s: seq<real>): real
    requires s != []
  {
    (Sort(s)[(|s| - 1) / 2] + Sort(s)[|s| / 2]) / 2.0
  }

  function Ceil(x: real): int {
    -(-x).Floor
  }

  /** `q` of `n` samples. */
  function Share(q: real, n: nat): real {
    q * n as real
  }

  function RankOf(n: nat, q: real): (k: nat)
    requires n > 0 && 0.0 < q <= 1.0
    ensures k < n
  {
    Scaled(q, n);
    Ceil(Share(q, n)) - 1
  }

  lemma Scaled(q: real, n: nat)
    requires n > 0 && 0.0 < q <= 1.0
    ensures 0.0 < Share(q, n) <= n as real
    ensures 1 <= Ceil(Share(q, n)) <= n
  {
  }

  function PercentileOf(s: seq<real>, q: real): real
    requires s != [] && 0.0 < q <= 1.0
  {
    Sort(s)[RankOf(|s|, q)]
  }

  method Median(v: array<real>) returns (m: real)
    requires v.Length > 0
    modifies v
    ensures v[..] == Sort(old(v[..]))
    ensures m == MedianOf(old(v[..]))
  {
    SortInPlace(v);
    var n := v.Length;
    if n % 2 == 1 {
      m := v[n / 2];
    } else {
      m := (v[n / 2 - 1] + v[n / 2]) / 2.0;
    }
  }

  /** The sample at rank ceil(q * n), counting from 1 in sorted order. */
  method Percentile(v: array<real>, q: real) returns (m: real)
    requires v.Length > 0 && 0.0 < q <= 1.0
    modifies v
    ensures v[..] == Sort(old(v[..]))
    ensures m == PercentileOf(old(v[..]), q)
  {
    hide Ceil, Sort, Share;
    SortInPlace(v);
    var rank := Ceil(Share(q, v.Length));
    Scaled(q, v.Length);
    m := v[(if rank >= 1 then rank else 1) - 1];
  }

  lemma PercentileIsSmallest(s: seq<real>, q: real)
    requires s != [] && 0.0 < q <= 1.0
    ensures PercentileOf(s, q) in s
    ensures AtMost(s, PercentileOf(s, q)) as real >= Share(q, |s|)
    ensures forall x :: x < PercentileOf(s, q) ==> (AtMost(s, x) as real) < Share(q, |s|)
  {
    var k := RankOf(|s|, q);
    SortSorts(s);
    var m := Sort(s)[k];
    assert m in multiset(Sort(s));
    RankCounts(Sort(s), k, m);
    SortCounts(s, m);
    CeilIs(Share(q, |s|));
    forall x | x < m
      ensures (AtMost(s, x) as real) < Share(q, |s|)
    {
      RankCounts(Sort(s), k, x);
      SortCounts(s, x);
    }
  }

  lemma CeilIs(x: real)
    ensures (Ceil(x) - 1) as real < x <= Ceil(x) as real
  {
  }

  /** At least half of the samples lie on each side of the median. */
  lemma MedianSplits(s: seq<real>)
    requires s != []
    ensures 2 * AtMost(s, MedianOf(s)) >= |s| && 2 * AtLeast(s, MedianOf(s)) >= |s|
  {
    var (lo, hi) := ((|s| - 1) / 2, |s| / 2);
    SortSorts(s);
    HalfRanks(|s|);
    BetweenRanks(s);
    hide *;
    var m := MedianOf(s);
    RankCounts(Sort(s), lo, m);
    RankCounts(Sort(s), hi, m);
    SortCounts(s, m);
  }

  lemma HalfRanks(n: nat)
    requires n > 0
    ensures (n - 1) / 2 + n / 2 == n - 1
    ensures (n - 1) / 2 <= n / 2 < n && 2 * ((n - 1) / 2 + 1) >= n && 2 * (n - n / 2) >= n
  {
  }

  lemma BetweenRanks(s: seq<real>)
    requires s != []
    ensures Sort(s)[(|s| - 1) / 2] <= MedianOf(s) <= Sort(s)[|s| / 2]
  {
    SortSorts(s);
    hide Sort;
    HalfRanks(|s|);
  }

  /** Every sample put through an order-keeping or an order-reversing line, `a * x + c` with `a` 1 or -1. */
  ghost predicate Moved(s: seq<real>, t: seq<real>, flip: bool, c: real) {
    |t| == |s| && forall i :: 0 <= i < |s| ==> t[i] == if flip then c - s[i] else s[i] + c
  }

  function Reversed(s: seq<real>): (r: seq<real>)
    ensures |r| == |s| && forall i :: 0 <= i < |s| ==> r[i] == s[|s| - 1 - i]
    ensures multiset(r) == multiset(s)
  {
    if s == [] then []
    else
      assert s == [s[0]] + s[1..];
      Reversed(s[1..]) + [s[0]]
  }

  function Dropped(s: seq<real>, k: nat): (r: seq<real>)
    requires k < |s|
    ensures multiset(s) == multiset(r) + multiset{s[k]} && |r| == |s| - 1
  {
    assert s == s[..k] + [s[k]] + s[k + 1..];
    s[..k] + s[k + 1..]
  }

  lemma MovedDropped(s: seq<real>, t: seq<real>, k: nat, flip: bool, c: real)
    requires k < |s| && Moved(s, t, flip, c)
    ensures Moved(Dropped(s, k), Dropped(t, k), flip, c)
  {
  }

  lemma DropSame(s: seq<real>, t: seq<real>, k: nat)
    requires s != [] && k < |t| && s[0] == t[k]
    ensures multiset(s) == multiset(t) <==> multiset(Dropped(s, 0)) == multiset(Dropped(t, k))
  {
    hide Dropped;
    var (d, e) := (multiset(Dropped(s, 0)), multiset(Dropped(t, k)));
    assert d == multiset(s) - multiset{s[0]} && e == multiset(t) - multiset{s[0]};
  }

  /** Moving all samples moves their multiset. */
  lemma {:induction false} MovedSame(s: seq<real>, t: seq<real>, u: seq<real>, v: seq<real>, flip: bool, c: real)
    requires multiset(s) == multiset(u) && Moved(s, t, flip, c) && Moved(u, v, flip, c)
    ensures multiset(t) == multiset(v)
    decreases |s|
  {
    if s == [] {
      assert |u| == |multiset(u)| == 0;
    } else {
      assert s[0] in multiset(u);
      var k :| 0 <= k < |u| && u[k] == s[0];
      assert t[0] == v[k];
      MovedDropped(s, t, 0, flip, c);
      MovedDropped(u, v, k, flip, c);
      hide Moved, Dropped;
      DropSame(s, u, k);
      DropSame(t, v, k);
      MovedSame(Dropped(s, 0), Dropped(t, 0), Dropped(u, k), Dropped(v, k), flip, c);
    }
  }

  function Move(s: seq<real>, flip: bool, c: real): (t: seq<real>)
    ensures Moved(s, t, flip, c)
  {
    seq(|s|, i requires 0 <= i < |s| => if flip then c - s[i] else s[i] + c)
  }

  /** The sorted samples move along, and are turned round by a flip. */
  lemma SortMoves(s: seq<real>, t: seq<real>, flip: bool, c: real)
    requires Moved(s, t, flip, c)
    ensures Sort(t) == if flip then Reversed(Move(Sort(s), flip, c)) else Move(Sort(s), flip, c)
  {
    hide Sort, Move, Reversed;
    var u := Move(Sort(s), flip, c);
    SortSorts(s);
    SortSorts(t);
    MovedSame(s, t, Sort(s), u, flip, c);
    var sorted := if flip then Reversed(u) else u;
    assert Ascending(sorted);
    SortedUnique(Sort(t), sorted);
  }

  /** The median moves with the samples, and a flip flips it. Between the two central ranks only their mean does both. */
  lemma MedianMoves(s: seq<real>, t: seq<real>, flip: bool, c: real)
    requires s != [] && Moved(s, t, flip, c)
    ensures MedianOf(t) == if flip then c - MedianOf(s) else MedianOf(s) + c
  {
    hide Sort, Move, Reversed;
    SortMoves(s, t, flip, c);
    HalfRanks(|s|);
    CentreMoves(Sort(s), flip, c, (|s| - 1) / 2, |s| / 2);
  }

  lemma CentreMoves(a: seq<real>, flip: bool, c: real, lo: nat, hi: nat)
    requires lo + hi == |a| - 1
    ensures var b := if flip then Reversed(Move(a, flip, c)) else Move(a, flip, c);
      |b| == |a| && b[lo] + b[hi] == if flip then c - a[lo] + (c - a[hi]) else a[lo] + c + (a[hi] + c)
  {
    hide Move, Reversed;
  }

  // ---- Spread, aggregation, the caller's warm wait --------------------------

  predicate IsSpread(s: seq<real>, min: real, max: real) {
    min in s && max in s && forall x :: x in s ==> min <= x <= max
  }

  /** Folds of minimum and maximum. */
  method Spread(v: array<real>) returns (min: real, max: real)
    requires v.Length > 0
    ensures IsSpread(v[..], min, max)
  {
    min, max := v[0], v[0];
    for i := 1 to v.Length
      invariant min in v[..i] && max in v[..i]
      invariant forall k :: 0 <= k < i ==> min <= v[k] <= max
    {
      assert v[..i + 1] == v[..i] + [v[i]];
      min := if v[i] < min then v[i] else min;
      max := if v[i] > max then v[i] else max;
    }
    assert v[..v.Length] == v[..];
  }

  /** The published percentiles are ordered, within the spread, for every sample count. */
  lemma PercentilesOrdered(s: seq<real>, min: real, max: real)
    requires s != [] && IsSpread(s, min, max)
    ensures min <= MedianOf(s) <= PercentileOf(s, 0.9) <= PercentileOf(s, 0.99) <= max
  {
    SortSorts(s);
    var t := Sort(s);
    forall k | 0 <= k < |t|
      ensures min <= t[k] <= max
    {
      assert t[k] in multiset(t);
      assert t[k] in s;
    }
    RankRises(|s|);
  }

  lemma RankRises(n: nat)
    requires n > 0
    ensures n / 2 <= RankOf(n, 0.9) <= RankOf(n, 0.99)
  {
    CeilIs(0.9 * n as real);
    CeilIs(0.99 * n as real);
  }

  datatype CallerWarm = CallerWarm(n: nat, p50: real, p90: real, p99: real, min: real, max: real)

  method SampleCallerWarm(walls: array<real>) returns (c: CallerWarm)
    requires walls.Length > 0
    modifies walls
    ensures c.n == walls.Length && IsSpread(old(walls[..]), c.min, c.max)
    ensures c.p50 == MedianOf(old(walls[..]))
    ensures c.p90 == PercentileOf(old(walls[..]), 0.9) && c.p99 == PercentileOf(old(walls[..]), 0.99)
    ensures c.min <= c.p50 <= c.p90 <= c.p99 <= c.max
  {
    ghost var s := walls[..];
    var min, max := Spread(walls);
    var p50 := Median(walls);
    SortSorts(s);
    OrderDoesNotMatter(Sort(s), s);
    var p90 := Percentile(walls, 0.9);
    var p99 := Percentile(walls, 0.99);
    PercentilesOrdered(s, min, max);
    c := CallerWarm(walls.Length, p50, p90, p99, min, max);
  }

  datatype Sample = Sample(wCold: real, init: real, coldDuration: real, warmRtt: real, wWarm: real, residual: real)

  /** Wall clock less handler time, clamped at zero. */
  function Net(wall: real, duration: real): real {
    if wall - duration > 0.0 then wall - duration else 0.0
  }

  function Nets(walls: seq<real>, durations: seq<real>): (r: seq<real>)
    requires |walls| == |durations|
    ensures |r| == |walls|
  {
    seq(|walls|, i requires 0 <= i < |walls| => Net(walls[i], durations[i]))
  }

  /** Each is what the wall time has over the duration, or nothing if it has nothing over it. */
  ghost predicate NetOfHandler(nets: seq<real>, warm: nat -> Timed, n: nat)
    requires forall i: nat :: i < n ==> warm(i).Some?
  {
    && |nets| == n
    && forall i: nat :: i < n ==>
      var (report, wall) := warm(i).value;
      && nets[i] >= 0.0 && nets[i] + report.durationMs >= wall
      && (nets[i] == 0.0 || nets[i] + report.durationMs == wall)
  }

  const MAX_COLD_FORCE_ATTEMPTS: nat := 6

  /** A timed invoke that came back clean, with its wall time; `None` stands for any error on the way. */
  type Timed = Option<(Report.Report, real)>

  /** Try `k` is the first whose report has an init duration, and none before it failed. */
  ghost predicate ColdAt(tries: nat -> Timed, k: nat) {
    && k < MAX_COLD_FORCE_ATTEMPTS && tries(k).Some? && tries(k).value.0.initMs.Some?
    && forall j: nat :: j < k ==> tries(j).Some? && tries(j).value.0.initMs.None?
  }

  /** Forces the function cold until an invoke reports an init duration; a restore does not count. */
  method ForceCold(tries: nat -> Timed) returns (r: Result<(Report.Report, real)>, ghost k: nat)
    ensures r.Success? ==> ColdAt(tries, k) && r.value == tries(k).value
    ensures r.Failure? ==> forall j: nat :: !ColdAt(tries, j)
  {
    k := 0;
    for attempt := 0 to MAX_COLD_FORCE_ATTEMPTS
      invariant forall j: nat :: j < attempt ==> tries(j).Some? && tries(j).value.0.initMs.None?
    {
      var res := tries(attempt);
      if res.None? {
        return Failure, k;
      }
      if res.value.0.initMs.Some? {
        return Success(res.value), attempt;
      }
    }
    return Failure, k;
  }

  /** The first `n` warm invokes all came back clean and warm. */
  ghost predicate WarmUpTo(warm: nat -> Timed, n: nat) {
    forall i: nat :: i < n ==> warm(i).Some? && !warm(i).value.0.IsCold()
  }

  function Walls(warm: nat -> Timed, n: nat): (r: seq<real>)
    requires forall i: nat :: i < n ==> warm(i).Some?
    ensures |r| == n && forall i: nat :: i < n ==> r[i] == warm(i).value.1
  {
    seq(n, i requires 0 <= i < n => warm(i).value.1)
  }

  function Durations(warm: nat -> Timed, n: nat): (r: seq<real>)
    requires forall i: nat :: i < n ==> warm(i).Some?
    ensures |r| == n && forall i: nat :: i < n ==> r[i] == warm(i).value.0.durationMs
  {
    seq(n, i requires 0 <= i < n => warm(i).value.0.durationMs)
  }

  /** A cold sample: one forced cold invoke, then `n` warm ones. It fails exactly when no cold start could be forced or
      a warm invoke failed or landed cold; otherwise its terms add up, the round trip being net of handler time. */
  method TakeSample(tries: nat -> Timed, warm: nat -> Timed, n: nat) returns (r: Result<Sample>, ghost k: nat)
    requires n > 0
    requires forall i: nat :: warm(i).Some? ==> warm(i).value.1 >= 0.0 && warm(i).value.0.durationMs >= 0.0
    ensures r.Success? <==> (exists c: nat :: ColdAt(tries, c)) && WarmUpTo(warm, n)
    ensures r.Success? ==>
      && ColdAt(tries, k) && r.value.wCold == tries(k).value.1
      && r.value.init == tries(k).value.0.initMs.value && r.value.coldDuration == tries(k).value.0.durationMs
    ensures r.Success? ==>
      && (exists nets :: |nets| > 0 && NetOfHandler(nets, warm, n) && r.value.warmRtt == MedianOf(nets))
      && r.value.wWarm == MedianOf(Walls(warm, n)) && 0.0 <= r.value.warmRtt <= r.value.wWarm
    ensures r.Success? ==> r.value.wCold == r.value.init + r.value.coldDuration + r.value.warmRtt + r.value.residual
  {
    var cold;
    cold, k := ForceCold(tries);
    if cold.Failure? {
      return Failure, k;
    }
    var (report, wCold) := cold.value;
    var nets, walls := new real[n](_ => 0.0), new real[n](_ => 0.0);
    for i := 0 to n
      invariant WarmUpTo(warm, i)
      invariant forall j: nat :: j < i ==> walls[j] == warm(j).value.1 && nets[j] == Net(walls[j], warm(j).value.0.durationMs)
    {
      var res := warm(i);
      if res.None? || res.value.0.IsCold() {
        return Failure, k;
      }
      walls[i] := res.value.1;
      nets[i] := Net(res.value.1, res.value.0.durationMs);
    }
    ghost var (ws, ds) := (Walls(warm, n), Durations(warm, n));
    assert walls[..] == ws && nets[..] == Nets(ws, ds);
    WarmRttBounded(ws, ds);
    assert NetOfHandler(Nets(ws, ds), warm, n);
    var warmRtt := Median(nets);
    var wWarm := Median(walls);
    r := Success(Sample(wCold, report.initMs.value, report.durationMs, warmRtt, wWarm,
                        wCold - report.initMs.value - report.durationMs - warmRtt));
  }

  /** Netting out the handler never exceeds the caller's wait, rank by rank. */
  lemma WarmRttBounded(walls: seq<real>, durations: seq<real>)
    requires |walls| == |durations| > 0
    requires forall i :: 0 <= i < |walls| ==> walls[i] >= 0.0 && durations[i] >= 0.0
    ensures 0.0 <= MedianOf(Nets(walls, durations)) <= MedianOf(walls)
  {
    var nets := Nets(walls, durations);
    RanksMonotone(nets, walls, (|walls| - 1) / 2);
    RanksMonotone(nets, walls, |walls| / 2);
    SortSorts(nets);
    forall k | 0 <= k < |nets|
      ensures Sort(nets)[k] >= 0.0
    {
      assert Sort(nets)[k] in multiset(Sort(nets));
      assert Sort(nets)[k] in nets;
    }
  }

  // ---- Aggregation ----------------------------------------------------------

  function Column(samples: seq<Sample>, term: Sample -> real): (r: seq<real>)
    ensures |r| == |samples| && forall i :: 0 <= i < |samples| ==> r[i] == term(samples[i])
  {
    seq(|samples|, i requires 0 <= i < |samples| => term(samples[i]))
  }

  method CollectTerm(samples: seq<Sample>, term: Sample -> real) returns (v: array<real>)
    ensures fresh(v) && v[..] == Column(samples, term)
  {
    v := new real[|samples|](_ => 0.0);
    for i := 0 to |samples|
      invariant forall j :: 0 <= j < i ==> v[j] == term(samples[j])
    {
      v[i] := term(samples[i]);
    }
  }

  datatype Aggregated = Aggregated(
    nSamples: nat, wColdP50: real, wColdMin: real, wColdMax: real, initP50: real, coldDurP50: real, warmRttP50: real,
    wWarmP50: real, wWarmMin: real, wWarmMax: real, residualP50: real, residualMin: real, residualMax: real)

  const W_COLD: Sample -> real := (s: Sample) => s.wCold
  const INIT_TIME: Sample -> real := (s: Sample) => s.init
  const COLD_DURATION: Sample -> real := (s: Sample) => s.coldDuration
  const WARM_RTT: Sample -> real := (s: Sample) => s.warmRtt
  const W_WARM: Sample -> real := (s: Sample) => s.wWarm
  const RESIDUAL: Sample -> real := (s: Sample) => s.residual

  /** Every field is the median or the spread of its own term. */
  ghost predicate Summarises(a: Aggregated, samples: seq<Sample>)
    requires samples != []
  {
    && a.nSamples == |samples|
    && a.wColdP50 == MedianOf(Column(samples, W_COLD)) && IsSpread(Column(samples, W_COLD), a.wColdMin, a.wColdMax)
    && a.initP50 == MedianOf(Column(samples, INIT_TIME)) && a.coldDurP50 == MedianOf(Column(samples, COLD_DURATION))
    && a.warmRttP50 == MedianOf(Column(samples, WARM_RTT))
    && a.wWarmP50 == MedianOf(Column(samples, W_WARM)) && IsSpread(Column(samples, W_WARM), a.wWarmMin, a.wWarmMax)
    && a.residualP50 == MedianOf(Column(samples, RESIDUAL)) && IsSpread(Column(samples, RESIDUAL), a.residualMin, a.residualMax)
  }

  method Aggregate(samples: seq<Sample>) returns (a: Aggregated)
    requires samples != []
    ensures Summarises(a, samples)
  {
    hide MedianOf, IsSpread, Column;
    var wColdP50, wColdMin, wColdMax := TermSummary(samples, W_COLD);
    var initP50, _, _ := TermSummary(samples, INIT_TIME);
    var coldDurP50, _, _ := TermSummary(samples, COLD_DURATION);
    var warmRttP50, _, _ := TermSummary(samples, WARM_RTT);
    var wWarmP50, wWarmMin, wWarmMax := TermSummary(samples, W_WARM);
    var residualP50, residualMin, residualMax := TermSummary(samples, RESIDUAL);
    a := Aggregated(|samples|, wColdP50, wColdMin, wColdMax, initP50, coldDurP50, warmRttP50, wWarmP50, wWarmMin, wWarmMax,
                    residualP50, residualMin, residualMax);
  }

  /** In the fields of the samples themselves. */
  lemma AggregateFields(samples: seq<Sample>, a: Aggregated, wColds: seq<real>, inits: seq<real>, colds: seq<real>,
                        rtts: seq<real>, waits: seq<real>, residuals: seq<real>)
    requires samples != [] && Summarises(a, samples)
    requires |wColds| == |inits| == |colds| == |rtts| == |waits| == |residuals| == |samples|
    requires forall i :: 0 <= i < |samples| ==>
      samples[i] == Sample(wColds[i], inits[i], colds[i], rtts[i], waits[i], residuals[i])
    ensures a.wColdP50 == MedianOf(wColds) && IsSpread(wColds, a.wColdMin, a.wColdMax)
    ensures a.initP50 == MedianOf(inits) && a.coldDurP50 == MedianOf(colds) && a.warmRttP50 == MedianOf(rtts)
    ensures a.wWarmP50 == MedianOf(waits) && IsSpread(waits, a.wWarmMin, a.wWarmMax)
    ensures a.residualP50 == MedianOf(residuals) && IsSpread(residuals, a.residualMin, a.residualMax)
  {
    hide MedianOf, IsSpread;
    assert Column(samples, W_COLD) == wColds && Column(samples, INIT_TIME) == inits;
    assert Column(samples, COLD_DURATION) == colds && Column(samples, WARM_RTT) == rtts;
    assert Column(samples, W_WARM) == waits && Column(samples, RESIDUAL) == residuals;
  }

  /** One term: its spread, and then its median, which sorts the copy. */
  method TermSummary(samples: seq<Sample>, term: Sample -> real) returns (p50: real, min: real, max: real)
    requires samples != []
    ensures p50 == MedianOf(Column(samples, term)) && IsSpread(Column(samples, term), min, max)
  {
    var v := CollectTerm(samples, term);
    min, max := Spread(v);
    p50 := Median(v);
  }

  /** Each median lies within its spread, and the median round trip still does not exceed the median wait, although the
      medians may come from different samples. */
  lemma AggregateConsistent(samples: seq<Sample>, a: Aggregated)
    requires samples != [] && Summarises(a, samples)
    requires forall i :: 0 <= i < |samples| ==> 0.0 <= samples[i].warmRtt <= samples[i].wWarm
    ensures a.wColdMin <= a.wColdP50 <= a.wColdMax && a.residualMin <= a.residualP50 <= a.residualMax
    ensures a.wWarmMin <= a.wWarmP50 <= a.wWarmMax && a.warmRttP50 <= a.wWarmP50
  {
    var (rtts, waits) := (Column(samples, WARM_RTT), Column(samples, W_WARM));
    PercentilesOrdered(Column(samples, W_COLD), a.wColdMin, a.wColdMax);
    PercentilesOrdered(Column(samples, RESIDUAL), a.residualMin, a.residualMax);
    PercentilesOrdered(waits, a.wWarmMin, a.wWarmMax);
    RanksMonotone(rtts, waits, (|rtts| - 1) / 2);
    RanksMonotone(rtts, waits, |rtts| / 2);
  }
}
