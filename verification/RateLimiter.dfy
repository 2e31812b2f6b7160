/** The issue-rate limiter: each acquirer reserves the next slot under the lock. Times are
    whole nanoseconds; sleeping until a slot may wake late but never early. */
module RateLimiter {

  const SECOND: nat := 1_000_000_000

  /** `Duration::from_secs(1) / max_tps`, which truncates. */
  function Interval(maxTps: nat): nat
    requires maxTps > 0
  {
    SECOND / maxTps
  }

  /** Slots given to acquirers in the order they take the lock, with the clock each reads. */
  function Reserve(next: int, d: nat, arrivals: seq<int>): (slots: seq<int>)
    ensures |slots| == |arrivals|
    decreases |arrivals|
  {
    if arrivals == [] then []
    else
      var at := if next >= arrivals[0] then next else arrivals[0];
      [at] + Reserve(at + d, d, arrivals[1..])
  }

  class Limiter {
    const interval: nat
    var nextSlot: int
    ghost const start: int
    /** Clock readings and slots so far, in lock order. */
    ghost var arrivals: seq<int>
    ghost var slots: seq<int>

    /** All acquisitions so far form one reservation run. */
    ghost predicate Valid()
      reads this
    {
      && slots == Reserve(start, interval, arrivals)
      && nextSlot == if slots == [] then start else slots[|slots| - 1] + interval
    }

    constructor PerSecond(maxTps: nat, now: int)
      requires maxTps > 0
      ensures Valid() && interval == Interval(maxTps) && start == now && arrivals == []
    {
      interval := SECOND / maxTps;
      nextSlot := now;
      start, arrivals, slots := now, [], [];
    }

    /** The part of an acquisition done under the lock. */
    method Acquire(now: int) returns (at: int)
      requires Valid()
      modifies this
      ensures Valid() && arrivals == old(arrivals) + [now] && slots == old(slots) + [at]
      ensures at >= now && at >= old(nextSlot) && (at == now || at == old(nextSlot))
    {
      at := if nextSlot >= now then nextSlot else now;
      ReserveNext(start, interval, arrivals, now);
      nextSlot := at + interval;
      arrivals := arrivals + [now];
      slots := slots + [at];
    }
  }

  lemma {:induction false} ReserveNext(next: int, d: nat, arrivals: seq<int>, now: int)
    ensures var slots := Reserve(next, d, arrivals);
      var free := if slots == [] then next else slots[|slots| - 1] + d;
      Reserve(next, d, arrivals + [now]) == slots + [if free >= now then free else now]
    decreases |arrivals|
  {
    if arrivals != [] {
      var at := if next >= arrivals[0] then next else arrivals[0];
      ReserveNext(at + d, d, arrivals[1..], now);
      assert (arrivals + [now])[1..] == arrivals[1..] + [now];
    }
  }

  // ---- What a reservation run guarantees ------------------------------------

  /** A schedule that keeps the spacing and nobody's slot before they came. */
  predicate KeepsSpacing(next: int, d: nat, arrivals: seq<int>, t: seq<int>) {
    && |t| == |arrivals|
    && (|t| > 0 ==> t[0] >= next)
    && (forall i :: 0 <= i < |t| ==> t[i] >= arrivals[i])
    && (forall i :: 0 <= i < |t| - 1 ==> t[i + 1] >= t[i] + d)
  }

  /** The slots are such a schedule. */
  lemma {:induction false} SlotsAreSchedule(next: int, d: nat, arrivals: seq<int>)
    ensures KeepsSpacing(next, d, arrivals, Reserve(next, d, arrivals))
    decreases |arrivals|
  {
    if arrivals != [] {
      var at := if next >= arrivals[0] then next else arrivals[0];
      var rest := Reserve(at + d, d, arrivals[1..]);
      SlotsAreSchedule(at + d, d, arrivals[1..]);
      assert forall i :: 0 <= i < |rest| ==> rest[i] >= arrivals[1..][i] == arrivals[i + 1];
    }
  }

  /** And they are the earliest one, for every acquirer at once. */
  lemma {:induction false} SlotsAreEarliest(next: int, d: nat, arrivals: seq<int>, t: seq<int>, i: nat)
    requires KeepsSpacing(next, d, arrivals, t) && i < |t|
    ensures Reserve(next, d, arrivals)[i] <= t[i]
    decreases i
  {
    var at := if next >= arrivals[0] then next else arrivals[0];
    if i > 0 {
      assert KeepsSpacing(at + d, d, arrivals[1..], t[1..]);
      SlotsAreEarliest(at + d, d, arrivals[1..], t[1..], i - 1);
    }
  }

  /** Any two slots are at least one interval per acquirer apart. */
  lemma {:induction false} SlotsApart(next: int, d: nat, arrivals: seq<int>, i: nat, j: nat)
    requires i <= j < |arrivals|
    ensures Reserve(next, d, arrivals)[j] - Reserve(next, d, arrivals)[i] >= (j - i) * d
    decreases j
  {
    hide Reserve;
    SlotsAreSchedule(next, d, arrivals);
    if i < j {
      SlotsApart(next, d, arrivals, i, j - 1);
      Plus(j - 1 - i, d);
      assert Reserve(next, d, arrivals)[j - 1 + 1] >= Reserve(next, d, arrivals)[j - 1] + d;
    }
  }

  lemma Plus(n: int, d: int)
    ensures (n + 1) * d == n * d + d
  {
  }

  /** Slots in the half-open window from `a` of width `w`. */
  function InWindow(slots: seq<int>, a: int, w: int): nat {
    if slots == [] then 0
    else InWindow(slots[..|slots| - 1], a, w) + if a <= slots[|slots| - 1] < a + w then 1 else 0
  }

  function CeilDiv(w: int, d: nat): int
    requires d > 0
  {
    (w + d - 1) / d
  }

  predicate Spaced(slots: seq<int>, d: nat) {
    forall i, j :: 0 <= i < j < |slots| ==> slots[j] >= slots[i] + d
  }

  lemma {:induction false} NarrowWindow(slots: seq<int>, a: int, w: int, v: int)
    requires v <= w && forall i :: 0 <= i < |slots| ==> slots[i] < a + v
    ensures InWindow(slots, a, w) == InWindow(slots, a, v)
  {
    if slots != [] {
      NarrowWindow(slots[..|slots| - 1], a, w, v);
    }
  }

  lemma {:induction false} WindowCount(slots: seq<int>, d: nat, a: int, w: int)
    requires d > 0 && Spaced(slots, d)
    ensures w <= 0 ==> InWindow(slots, a, w) == 0
    ensures w > 0 ==> InWindow(slots, a, w) <= CeilDiv(w, d)
    decreases |slots|
  {
    if slots != [] {
      var pre, last := slots[..|slots| - 1], slots[|slots| - 1];
      if a <= last < a + w {
        var v := last - d + 1 - a;
        NarrowWindow(pre, a, w, v);
        WindowCount(pre, d, a, v);
        CeilStep(v, w, d);
      } else {
        WindowCount(pre, d, a, w);
      }
    }
    if w > 0 {
      CeilPositive(w, d);
    }
  }

  lemma CeilStep(v: int, w: int, d: nat)
    requires d > 0 && v + d <= w
    ensures v > 0 ==> CeilDiv(v, d) + 1 <= CeilDiv(w, d)
  {
    if v > 0 {
      var (x, y) := (v + d - 1, w + d - 1);
      assert x + d <= y;
      assert (x / d) * d <= x && (x / d + 1) * d <= y;
      QuotientAtLeast(y, d, x / d + 1);
    }
  }

  lemma CancelLess(k: int, m: int, d: nat)
    requires k * d < m * d
    ensures k < m
  {
    ProductsOrdered(m, k, d);
  }

  lemma QuotientAtLeast(y: int, d: nat, k: int)
    requires d > 0 && k * d <= y
    ensures k <= y / d
  {
    assert y < (y / d + 1) * d;
    CancelLess(k, y / d + 1, d);
  }

  lemma CeilPositive(w: int, d: nat)
    requires d > 0 && w > 0
    ensures CeilDiv(w, d) >= 1
  {
    QuotientAtLeast(w + d - 1, d, 1);
  }

  lemma ProductsOrdered(m: int, n: int, d: nat)
    ensures m <= n ==> m * d <= n * d
    ensures 1 * d == d
  {
  }

  /** In any window of `w` nanoseconds at most ceil(w / d) requests may start. */
  lemma WindowBound(next: int, d: nat, arrivals: seq<int>, a: int, w: nat)
    requires d > 0 && w > 0
    ensures InWindow(Reserve(next, d, arrivals), a, w) <= CeilDiv(w, d)
  {
    hide Reserve, InWindow, CeilDiv;
    var slots := Reserve(next, d, arrivals);
    forall i, j | 0 <= i < j < |slots|
      ensures slots[j] >= slots[i] + d
    {
      SlotsApart(next, d, arrivals, i, j);
      ProductsOrdered(1, j - i, d);
    }
    WindowCount(slots, d, a, w);
  }

  function Together(n: nat): (z: seq<int>)
    ensures |z| == n
  {
    seq(n, _ => 0)
  }

  /** `n` acquirers that come at once get slots 0, d, 2d, ... */
  lemma {:induction false} BurstSlots(d: nat, n: nat, k: nat)
    requires k < n
    ensures Reserve(0, d, Together(n))[k] == k * d
  {
    BurstFrom(0, d, n, k);
  }

  lemma {:induction false} BurstFrom(at: nat, d: nat, n: nat, k: nat)
    requires k < n
    ensures Reserve(at, d, Together(n))[k] == at + k * d
    decreases n
  {
    assert Together(n)[1..] == Together(n - 1);
    if k > 0 {
      BurstFrom(at + d, d, n - 1, k - 1);
      assert k * d == (k - 1) * d + d;
    }
  }

  lemma {:induction false} AllInWindow(slots: seq<int>, a: int, w: int)
    requires forall i :: 0 <= i < |slots| ==> a <= slots[i] < a + w
    ensures InWindow(slots, a, w) == |slots|
  {
    if slots != [] {
      AllInWindow(slots[..|slots| - 1], a, w);
    }
  }

  /** The documented ceiling, `maxTps` starts in any one second, is kept by every run
      exactly when `maxTps` divides a second into whole nanoseconds; otherwise the
      truncated interval lets one more request into some window. */
  lemma CeilingKeptExactly(maxTps: nat)
    requires maxTps > 0
    ensures (forall next: int, arrivals: seq<int>, a: int ::
               InWindow(Reserve(next, Interval(maxTps), arrivals), a, SECOND) <= maxTps)
       <==> SECOND % maxTps == 0
  {
    var d := Interval(maxTps);
    if SECOND % maxTps == 0 {
      assert maxTps * d == SECOND;
      Divides(maxTps, d);
      forall next: int, arrivals: seq<int>, a: int
        ensures InWindow(Reserve(next, d, arrivals), a, SECOND) <= maxTps
      {
        WindowBound(next, d, arrivals, a, SECOND);
      }
    } else {
      BurstOverflows(maxTps);
    }
  }

  lemma Divides(n: nat, d: nat)
    requires n > 0 && n * d == SECOND
    ensures d > 0 && CeilDiv(SECOND, d) == n
  {
    Quotient(n, d, d - 1);
  }

  lemma Quotient(n: nat, d: nat, r: nat)
    requires r < d
    ensures (n * d + r) / d == n
  {
    QuotientAtLeast(n * d + r, d, n);
    assert (n * d + r) / d * d < (n + 1) * d;
    CancelLess((n * d + r) / d, n + 1, d);
  }

  /** One more than `maxTps` acquirers at once all start within the second. */
  lemma BurstOverflows(maxTps: nat)
    requires maxTps > 0 && SECOND % maxTps != 0
    ensures InWindow(Reserve(0, Interval(maxTps), Together(maxTps + 1)), 0, SECOND) == maxTps + 1
  {
    hide Reserve, InWindow;
    var d := Interval(maxTps);
    var slots := Reserve(0, d, Together(maxTps + 1));
    assert maxTps * d < SECOND;
    forall k | 0 <= k < |slots|
      ensures 0 <= slots[k] < SECOND
    {
      BurstSlots(d, maxTps + 1, k);
      ProductsOrdered(k, maxTps, d);
    }
    AllInWindow(slots, 0, SECOND);
  }

  const LOG_GROUP_DELETE_TPS: nat := 8
  const CONTROL_PLANE_TPS: nat := 12

  /** Log-group deletes keep to 8 in any second; control-plane calls can reach 13, and
      never more. */
  lemma ConfiguredRates(next: int, arrivals: seq<int>, a: int)
    ensures InWindow(Reserve(next, Interval(LOG_GROUP_DELETE_TPS), arrivals), a, SECOND) <= 8
    ensures InWindow(Reserve(next, Interval(CONTROL_PLANE_TPS), arrivals), a, SECOND) <= 13
    ensures InWindow(Reserve(0, Interval(CONTROL_PLANE_TPS), Together(13)), 0, SECOND) == 13
  {
    CeilingKeptExactly(LOG_GROUP_DELETE_TPS);
    WindowBound(next, Interval(CONTROL_PLANE_TPS), arrivals, a, SECOND);
    BurstOverflows(CONTROL_PLANE_TPS);
  }
}
