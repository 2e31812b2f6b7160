/** The cache scenario's retained ring: a fixed number of buffers, some of them replaced on every invoke. */
module Ring {

  /** The last of the writes `1..t` to land on slot `p`, writes going round `n` slots; 0 if none did. */
  function LastWrite(p: nat, t: nat, n: nat): (w: nat)
    requires n >= 1
    ensures w <= t && (w > 0 ==> w % n == p)
  {
    if t == 0 then 0 else if t % n == p then t else LastWrite(p, t - 1, n)
  }

  /** Once round the ring, every slot has been written. */
  lemma {:induction false} WrittenWithinARound(p: nat, t: nat, n: nat)
    requires p < n && t >= n
    ensures LastWrite(p, t, n) > t - n
  {
    var w := t - (t - p) % n;
    assert w % n == p by {
      var q := (t - p) / n;
      assert w == q * n + p;
      ModOf(q, p, n);
    }
    LastIsLatest(p, t, n, w);
  }

  lemma ModOf(q: int, p: nat, n: nat)
    requires p < n
    ensures (q * n + p) % n == p
  {
    var v := q * n + p;
    assert v == v / n * n + v % n;
    assert (q - v / n) * n == q * n - v / n * n;
    ProductBound(q - v / n, n);
  }

  lemma ProductBound(x: int, n: nat)
    ensures x >= 1 ==> x * n >= n
    ensures x <= -1 ==> x * n + n <= 0
  {
    if x >= 1 {
      assert x * n == (x - 1) * n + n && (x - 1) * n >= 0;
    }
    if x <= -1 {
      assert x * n + n == (x + 1) * n && (x + 1) * n <= 0;
    }
  }

  lemma {:induction false} LastIsLatest(p: nat, t: nat, n: nat, w: int)
    requires n >= 1 && 0 < w <= t && w % n == p
    ensures LastWrite(p, t, n) >= w
  {
    if t % n != p {
      LastIsLatest(p, t - 1, n, w);
    }
  }

  /** The first byte of a buffer put there by write `w`, writes being numbered within an invoke from 0. */
  function FirstByte(w: nat, p: nat, churn: nat): (b: nat)
    requires churn >= 1
    ensures b < 256
  {
    if w == 0 then p % 256 else (w - 1) % churn % 256
  }

  /** An allocated buffer: its serial number, 0 for the first ones, and its first byte. */
  datatype Buffer = Buffer(serial: nat, first: nat)

  function Scan(live: seq<Buffer>, i: nat): nat
    decreases |live| - i
  {
    if i >= |live| then 0 else live[i].first + Scan(live, i + 10)
  }

  /** The first bytes of the slots below `n` whose number ends in 0. */
  function EveryTenth(live: seq<Buffer>, n: nat): nat
    requires n <= |live|
  {
    if n == 0 then 0 else EveryTenth(live, n - 1) + if (n - 1) % 10 == 0 then live[n - 1].first else 0
  }

  /** The checksum is the sum over these. */
  lemma ScanIsEveryTenth(live: seq<Buffer>)
    ensures Scan(live, 0) == EveryTenth(live, |live|)
  {
    ScanFrom(live, 0);
  }

  lemma {:induction false} ScanFrom(live: seq<Buffer>, i: nat)
    requires i % 10 == 0
    ensures i <= |live| ==> EveryTenth(live, i) + Scan(live, i) == EveryTenth(live, |live|)
    decreases |live| - i
  {
    if i < |live| {
      var next := if i + 10 <= |live| then i + 10 else |live|;
      NothingBetween(live, i, next);
      ScanFrom(live, i + 10);
    }
  }

  lemma {:induction false} NothingBetween(live: seq<Buffer>, i: nat, n: nat)
    requires i % 10 == 0 && i < n <= i + 10 && n <= |live|
    ensures EveryTenth(live, n) == EveryTenth(live, i) + live[i].first
  {
    if n > i + 1 {
      NothingBetween(live, i, n - 1);
    }
  }

  /** The slots after `t` writes: each holds the very buffer that the last write to land on it put there. */
  function Contents(entries: nat, churn: nat, t: nat): (live: seq<Buffer>)
    requires entries >= 1 && churn >= 1
    ensures |live| == entries
    ensures forall p :: 0 <= p < entries ==>
      live[p] == Buffer(LastWrite(p, t, entries), FirstByte(LastWrite(p, t, entries), p, churn))
  {
    seq(entries, p requires 0 <= p < entries => Buffer(LastWrite(p, t, entries), FirstByte(LastWrite(p, t, entries), p, churn)))
  }

  /** The module state: the ring and its cursor. */
  class State {
    const entries: nat
    const churn: nat
    const live: array<Buffer>
    var rot: nat
    /** Buffers allocated since the start. */
    var serials: nat
    ghost var calls: nat

    ghost predicate Valid()
      reads this, live
    {
      AfterWrites(calls * churn)
    }

    constructor (entries: nat, churn: nat)
      requires entries >= 1 && churn >= 1
      ensures Valid() && calls == 0 && rot == 0 && fresh(live)
      ensures this.entries == entries && this.churn == churn
    {
      this.entries, this.churn := entries, churn;
      var slots := new Buffer[entries](_ => Buffer(0, 0));
      for i := 0 to entries
        invariant forall p :: 0 <= p < i ==> slots[p] == Buffer(0, p % 256)
      {
        slots[i] := Buffer(0, i % 256);
      }
      live, rot, serials, calls := slots, 0, 0, 0;
      new;
      assert 0 * churn == 0;
    }

    /** One invoke: replaces `churn` buffers, then sums every tenth first byte. */
    method ChurnAndScan() returns (sum: nat)
      requires Valid()
      modifies this, live
      ensures Valid() && calls == old(calls) + 1
      ensures sum == Scan(Contents(entries, churn, calls * churn), 0)
    {
      hide Contents, Scan;
      ghost var t := calls * churn;
      for c := 0 to churn
        invariant AfterWrites(t + c) && calls == old(calls)
      {
        ModOf(old(calls), c, churn);
        Replace(c, t + c);
      }
      calls := calls + 1;
      NextCall(old(calls), churn);
      sum := ScanLive();
    }

    /** After `t` writes. */
    ghost predicate AfterWrites(t: nat)
      reads this, live
    {
      && entries >= 1 && churn >= 1 && live.Length == entries
      && rot == t % entries && serials == t && live[..] == Contents(entries, churn, t)
    }

    /** The body of the churning loop: a new buffer in the next slot. */
    method Replace(c: nat, ghost t: nat)
      requires AfterWrites(t) && c == t % churn
      modifies this`rot, this`serials, live
      ensures AfterWrites(t + 1)
    {
      hide Contents;
      NextSlot(t, entries);
      WriteLands(entries, churn, t);
      ghost var before := live[..];
      rot := (rot + 1) % entries;
      serials := serials + 1;
      live[rot] := Buffer(serials, c % 256);
      assert live[..] == before[rot := Buffer(serials, c % 256)];
    }

    /** The scanning loop. */
    method ScanLive() returns (sum: nat)
      ensures sum == Scan(live[..], 0)
    {
      sum := 0;
      var i := 0;
      while i < live.Length
        invariant sum + Scan(live[..], i) == Scan(live[..], 0)
        decreases live.Length - i
      {
        sum := sum + live[i].first;
        i := i + 10;
      }
    }
  }

  lemma NextCall(calls: nat, churn: nat)
    ensures (calls + 1) * churn == calls * churn + churn
  {
  }

  lemma NextSlot(t: nat, n: nat)
    requires n >= 1
    ensures (t % n + 1) % n == (t + 1) % n
  {
    ModShift(t % n + 1, t / n, n);
    assert t + 1 == (t % n + 1) + t / n * n;
  }

  /** The write after `t` others changes its slot alone. */
  lemma WriteLands(entries: nat, churn: nat, t: nat)
    requires entries >= 1 && churn >= 1
    ensures Contents(entries, churn, t + 1) == Contents(entries, churn, t)[(t + 1) % entries := Buffer(t + 1, t % churn % 256)]
  {
  }

  /** None of the first buffers is in the ring exactly when the writes have gone round it. */
  lemma FirstBuffersGone(s: State)
    requires s.Valid()
    ensures (forall p :: 0 <= p < s.live.Length ==> s.live[p].serial > 0) <==> s.calls * s.churn >= s.entries
  {
    var t := s.calls * s.churn;
    forall p | 0 <= p < s.entries ensures s.live[p].serial == LastWrite(p, t, s.entries) {
      assert s.live[..][p] == Contents(s.entries, s.churn, t)[p];
    }
    if t >= s.entries {
      forall p | 0 <= p < s.entries ensures s.live[p].serial > 0 {
        WrittenWithinARound(p, t, s.entries);
      }
    } else {
      NotYetRound(s.entries, t);
      assert s.live[0].serial == 0;
    }
  }

  lemma NotYetRound(entries: nat, t: nat)
    requires entries >= 1 && t < entries
    ensures LastWrite(0, t, entries) == 0
  {
    var w := LastWrite(0, t, entries);
    ModOf(0, w, entries);
    assert w % entries == w;
  }

  /** No buffer is in two slots, and every one was put there within the last round of writes. */
  lemma BuffersDiffer(s: State, p: nat, q: nat)
    requires s.Valid() && p < q < s.entries && s.calls * s.churn >= s.entries
    ensures s.live[p].serial != s.live[q].serial
    ensures s.serials - s.entries < s.live[p].serial <= s.serials
  {
    var t := s.calls * s.churn;
    assert s.live[..][p] == Contents(s.entries, s.churn, t)[p];
    assert s.live[..][q] == Contents(s.entries, s.churn, t)[q];
    WrittenWithinARound(p, t, s.entries);
    WrittenWithinARound(q, t, s.entries);
  }

  /** When `churn` divides the ring, a slot is always rewritten at the same place within a call, so from the first
      full round on the first bytes, and the checksum with them, are the same after every call. */
  lemma SteadyContents(entries: nat, churn: nat, t: nat, u: nat)
    requires churn >= 1 && entries >= 1 && entries % churn == 0
    requires t >= entries && u >= entries
    ensures forall p :: 0 <= p < entries ==> Contents(entries, churn, t)[p].first == Contents(entries, churn, u)[p].first
    ensures Scan(Contents(entries, churn, t), 0) == Scan(Contents(entries, churn, u), 0)
  {
    var (a, b) := (Contents(entries, churn, t), Contents(entries, churn, u));
    forall p | 0 <= p < entries ensures a[p].first == b[p].first {
      WrittenWithinARound(p, t, entries);
      WrittenWithinARound(p, u, entries);
      SamePlace(LastWrite(p, t, entries), p, entries, churn);
      SamePlace(LastWrite(p, u, entries), p, entries, churn);
    }
    ScanOfFirst(a, b, 0);
  }

  lemma {:induction false} ScanOfFirst(a: seq<Buffer>, b: seq<Buffer>, i: nat)
    requires |a| == |b| && forall p :: 0 <= p < |a| ==> a[p].first == b[p].first
    ensures Scan(a, i) == Scan(b, i)
    decreases |a| - i
  {
    if i < |a| {
      ScanOfFirst(a, b, i + 10);
    }
  }

  lemma SamePlace(w: nat, p: nat, entries: nat, churn: nat)
    requires churn >= 1 && entries >= 1 && entries % churn == 0 && w > 0 && w % entries == p
    ensures (w - 1) % churn == (p - 1) % churn
  {
    var (q, r) := (w / entries, entries / churn);
    assert w == q * entries + p && entries == r * churn;
    assert q * entries == (q * r) * churn;
    ModShift(p - 1, q * r, churn);
    assert w - 1 == (p - 1) + (q * r) * churn;
  }

  lemma ModShift(a: int, k: int, n: nat)
    requires n >= 1
    ensures (a + k * n) % n == a % n
  {
    var d := a / n;
    assert a + k * n == (d + k) * n + a % n;
    ModOf(d + k, a % n, n);
  }

  const ENTRIES := 200_000
  const CHURN := 40_000

  /** In both handlers, from the fifth invoke on. */
  lemma SteadyFromFifthCall(calls: nat)
    requires calls >= 5
    ensures Scan(Contents(ENTRIES, CHURN, calls * CHURN), 0) == Scan(Contents(ENTRIES, CHURN, 5 * CHURN), 0)
  {
    SteadyContents(ENTRIES, CHURN, calls * CHURN, 5 * CHURN);
  }
}
