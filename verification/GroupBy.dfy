/** The batch handlers' group-by, with 64-bit sums in Go and exact ones in Python, against the plain "filter by key,
    then fold" of the records. */
module GroupBy {
  import opened Payload
  import opened Text
  import opened Wrappers

  datatype Entry<V> = Entry(key: string, value: V)
  datatype Agg<V> = Agg(sum: V, count: nat)
  datatype Group<V> = Group(key: string, sum: V, count: nat)
  datatype Response<V> = Response(records: nat, groups: nat, total: V, perGroup: seq<Group<V>>)

  /** How a language adds up values. */
  datatype Sums<!V> = Sums(zero: V, add: (V, V) -> V)

  // ---- Filter, then fold ----------------------------------------------------

  function Only<V>(rs: seq<Entry<V>>, key: string): seq<Entry<V>> {
    if rs == [] then []
    else Only(rs[..|rs| - 1], key) + if rs[|rs| - 1].key == key then [rs[|rs| - 1]] else []
  }

  function Sum<V>(rs: seq<Entry<V>>, m: Sums<V>): V {
    if rs == [] then m.zero else m.add(Sum(rs[..|rs| - 1], m), rs[|rs| - 1].value)
  }

  lemma SumPush<V>(rs: seq<Entry<V>>, r: Entry<V>, m: Sums<V>)
    ensures Sum(rs + [r], m) == m.add(Sum(rs, m), r.value)
  {
    assert (rs + [r])[..|rs|] == rs;
  }

  lemma OnlyPush<V>(rs: seq<Entry<V>>, r: Entry<V>, key: string)
    ensures Only(rs + [r], key) == if r.key == key then Only(rs, key) + [r] else Only(rs, key)
  {
    assert (rs + [r])[..|rs|] == rs;
    assert Only(rs, key) + [] == Only(rs, key);
  }

  function Keys<V>(rs: seq<Entry<V>>): set<string> {
    set i | 0 <= i < |rs| :: rs[i].key
  }

  lemma KeysPush<V>(rs: seq<Entry<V>>, r: Entry<V>)
    ensures Keys(rs + [r]) == Keys(rs) + {r.key}
  {
    var all := rs + [r];
    assert forall i :: 0 <= i < |rs| ==> all[i] == rs[i];
    assert all[|rs|] == r;
    forall k | k in Keys(rs) ensures k in Keys(all) {
      var i :| 0 <= i < |rs| && rs[i].key == k;
      assert all[i].key == k;
    }
  }

  lemma {:induction false} OnlyNone<V>(rs: seq<Entry<V>>, key: string)
    requires key !in Keys(rs)
    ensures Only(rs, key) == []
  {
    if rs != [] {
      var (front, last) := (rs[..|rs| - 1], rs[|rs| - 1]);
      assert rs == front + [last];
      KeysPush(front, last);
      OnlyNone(front, key);
    }
  }

  // ---- The accumulators -----------------------------------------------------

  ghost predicate Holds<V>(a: Agg<V>, rs: seq<Entry<V>>, key: string, m: Sums<V>) {
    a.sum == Sum(Only(rs, key), m) && a.count == |Only(rs, key)|
  }

  /** One accumulator per key, with the sum and the count of its records. */
  ghost predicate Accumulated<V>(groups: map<string, Agg<V>>, rs: seq<Entry<V>>, m: Sums<V>) {
    groups.Keys == Keys(rs) && forall key :: key in groups ==> Holds(groups[key], rs, key, m)
  }

  function Added<V>(a: Agg<V>, value: V, m: Sums<V>): Agg<V> {
    Agg(m.add(a.sum, value), a.count + 1)
  }

  function Entered<V>(groups: map<string, Agg<V>>, r: Entry<V>, m: Sums<V>): map<string, Agg<V>> {
    groups[r.key := Added(if r.key in groups then groups[r.key] else Agg(m.zero, 0), r.value, m)]
  }

  lemma HoldsStep<V>(a: Agg<V>, rs: seq<Entry<V>>, r: Entry<V>, key: string, m: Sums<V>)
    requires Holds(a, rs, key, m)
    ensures Holds(if r.key == key then Added(a, r.value, m) else a, rs + [r], key, m)
  {
    hide Only, Sum;
    OnlyPush(rs, r, key);
    SumPush(Only(rs, key), r, m);
  }

  lemma HoldsNone<V>(rs: seq<Entry<V>>, key: string, m: Sums<V>)
    requires key !in Keys(rs)
    ensures Holds(Agg(m.zero, 0), rs, key, m)
  {
    OnlyNone(rs, key);
  }

  /** One record added to its accumulator, a new one if the key is new, leaves the others as they are. */
  lemma AccumulateStep<V>(groups: map<string, Agg<V>>, rs: seq<Entry<V>>, r: Entry<V>, m: Sums<V>)
    requires Accumulated(groups, rs, m)
    ensures Accumulated(Entered(groups, r, m), rs + [r], m)
  {
    hide Keys, Holds, Added;
    var a := if r.key in groups then groups[r.key] else Agg(m.zero, 0);
    KeysPush(rs, r);
    if r.key !in groups {
      HoldsNone(rs, r.key, m);
    }
    var next := Entered(groups, r, m);
    forall key | key in next ensures Holds(next[key], rs + [r], key, m) {
      HoldsStep(if key == r.key then a else groups[key], rs, r, key, m);
    }
  }

  lemma NothingAccumulated<V>(m: Sums<V>)
    ensures Accumulated(map[], [], m) && Sum([], m) == m.zero
  {
    assert Keys<V>([]) == {};
  }

  // ---- Answers --------------------------------------------------------------

  /** One entry per group, in some order. */
  ghost predicate Lists<V>(perGroup: seq<Group<V>>, groups: map<string, Agg<V>>) {
    && |perGroup| == |groups|
    && (forall i, j :: 0 <= i < j < |perGroup| ==> perGroup[i].key != perGroup[j].key)
    && forall i :: 0 <= i < |perGroup| ==>
      perGroup[i].key in groups && Agg(perGroup[i].sum, perGroup[i].count) == groups[perGroup[i].key]
  }

  /** The answer for `rs`: every key once, with the sum and count of its records. */
  ghost predicate Answers<V>(resp: Response<V>, rs: seq<Entry<V>>, m: Sums<V>) {
    && resp.records == |rs| && resp.groups == |resp.perGroup| == |Keys(rs)| && resp.total == Sum(rs, m)
    && (forall i, j :: 0 <= i < j < |resp.perGroup| ==> resp.perGroup[i].key != resp.perGroup[j].key)
    && forall i :: 0 <= i < |resp.perGroup| ==>
      resp.perGroup[i].key in Keys(rs) && Holds(Agg(resp.perGroup[i].sum, resp.perGroup[i].count), rs, resp.perGroup[i].key, m)
  }

  lemma ListsAnswers<V>(resp: Response<V>, groups: map<string, Agg<V>>, rs: seq<Entry<V>>, m: Sums<V>)
    requires Accumulated(groups, rs, m) && Lists(resp.perGroup, groups)
    requires resp.records == |rs| && resp.groups == |groups| && resp.total == Sum(rs, m)
    ensures Answers(resp, rs, m)
  {
    hide Holds, Sum, Keys;
    assert groups.Keys == Keys(rs) && |groups| == |groups.Keys|;
    forall i | 0 <= i < |resp.perGroup|
      ensures Holds(Agg(resp.perGroup[i].sum, resp.perGroup[i].count), rs, resp.perGroup[i].key, m)
    {
      var key := resp.perGroup[i].key;
      assert groups[key] == Agg(resp.perGroup[i].sum, resp.perGroup[i].count);
    }
  }

  // ---- The Go handler -------------------------------------------------------

  type Int64 = x: int | -0x8000_0000_0000_0000 <= x < 0x8000_0000_0000_0000

  /** Two's complement wrap-around. */
  function Wrap64(n: int): (w: Int64)
    ensures -0x8000_0000_0000_0000 <= n < 0x8000_0000_0000_0000 ==> w == n
  {
    (n + 0x8000_0000_0000_0000) % 0x1_0000_0000_0000_0000 - 0x8000_0000_0000_0000
  }

  function AddInt64(a: Int64, b: Int64): Int64 {
    Wrap64(a + b)
  }

  const GO: Sums<Int64> := Sums(0, AddInt64)

  /** After decoding. */
  method ProcessBatch(records: seq<Entry<Int64>>) returns (resp: Response<Int64>)
    ensures Answers(resp, records, GO)
  {
    hide Accumulated, Sum, Wrap64, Answers, Lists;
    var groups: map<string, Agg<Int64>> := map[];
    var total: Int64 := 0;
    assert records[..0] == [];
    NothingAccumulated(GO);
    for i := 0 to |records|
      invariant Accumulated(groups, records[..i], GO)
      invariant total == Sum(records[..i], GO)
    {
      var r := records[i];
      ghost var before := groups;
      assert records[..i + 1] == records[..i] + [r];
      AccumulateStep(before, records[..i], r, GO);
      SumPush(records[..i], r, GO);
      if r.key !in groups {
        groups := groups[r.key := Agg(0, 0)];
      }
      var a := groups[r.key];
      groups := groups[r.key := Agg(AddInt64(a.sum, r.value), a.count + 1)];
      assert groups == Entered(before, r, GO);
      total := AddInt64(total, r.value);
    }
    assert records[..|records|] == records;
    var perGroup := ListGroups(groups);
    resp := Response(|records|, |groups|, total, perGroup);
    ListsAnswers(resp, groups, records, GO);
  }

  /** Go walks a map in no particular order. */
  method ListGroups<V>(groups: map<string, Agg<V>>) returns (perGroup: seq<Group<V>>)
    ensures Lists(perGroup, groups)
  {
    perGroup := [];
    var rest := groups.Keys;
    while rest != {}
      invariant rest <= groups.Keys && |perGroup| + |rest| == |groups|
      invariant forall i :: 0 <= i < |perGroup| ==> perGroup[i].key !in rest
      invariant forall i :: 0 <= i < |perGroup| ==>
        perGroup[i].key in groups && Agg(perGroup[i].sum, perGroup[i].count) == groups[perGroup[i].key]
      invariant forall i, j :: 0 <= i < j < |perGroup| ==> perGroup[i].key != perGroup[j].key
      decreases |rest|
    {
      var key :| key in rest;
      rest := rest - {key};
      perGroup := perGroup + [Group(key, groups[key].sum, groups[key].count)];
    }
  }

  // ---- The Python handler ---------------------------------------------------

  const PYTHON: Sums<real> := Sums(0.0, (a: real, b: real) => a + b)

  /** A member of a decoded object. Python's `bool` is an `int`, and is told apart. */
  datatype Value = Integer(n: int) | Float(x: real) | Boolean(b: bool) | Str(s: string) | Other

  predicate IsNumber(v: Value) {
    v.Integer? || v.Float?
  }

  /** A decoded array element: an object with perhaps a `key` and perhaps a `value`, or something else. */
  datatype Item = Dict(key: Option<Value>, value: Option<Value>) | NotDict

  predicate WellFormed(item: Item) {
    item.Dict? && item.key.Some? && item.key.value.Str? && item.value.Some? && IsNumber(item.value.value)
  }

  function AsEntry(item: Item): Entry<real>
    requires WellFormed(item)
  {
    Entry(item.key.value.s, match item.value.value case Integer(n) => n as real case Float(x) => x)
  }

  function AsEntries(items: seq<Item>): (rs: seq<Entry<real>>)
    requires forall i :: 0 <= i < |items| ==> WellFormed(items[i])
    ensures |rs| == |items| && forall i :: 0 <= i < |items| ==> rs[i] == AsEntry(items[i])
  {
    if items == [] then [] else AsEntries(items[..|items| - 1]) + [AsEntry(items[|items| - 1])]
  }

  /** What an item adds to a total, read off the item itself. */
  function Worth(item: Item): real {
    match item
    case Dict(_, Some(Integer(n))) => n as real
    case Dict(_, Some(Float(x))) => x
    case _ => 0.0
  }

  function Total(items: seq<Item>): real {
    if items == [] then 0.0 else Total(items[..|items| - 1]) + Worth(items[|items| - 1])
  }

  /** The items with one key. */
  function Having(items: seq<Item>, key: string): seq<Item> {
    if items == [] then []
    else
      var last := items[|items| - 1];
      Having(items[..|items| - 1], key) + if last.Dict? && last.key == Some(Str(key)) then [last] else []
  }

  /** The answer in terms of the items: all of them counted and added up, and per group those with its key. */
  ghost predicate AddsUp(resp: Response<real>, items: seq<Item>) {
    && resp.records == |items| && resp.total == Total(items)
    && forall g :: 0 <= g < |resp.perGroup| ==>
      var some := Having(items, resp.perGroup[g].key);
      |some| > 0 && resp.perGroup[g].count == |some| && resp.perGroup[g].sum == Total(some)
  }

  lemma {:induction false} EntriesTotal(items: seq<Item>)
    requires forall i :: 0 <= i < |items| ==> WellFormed(items[i])
    ensures Sum(AsEntries(items), PYTHON) == Total(items)
  {
    if items != [] {
      var front := items[..|items| - 1];
      EntriesTotal(front);
      SumPush(AsEntries(front), AsEntry(items[|items| - 1]), PYTHON);
    }
  }

  /** The items with a key are well formed, and their entries are the entries with that key. */
  ghost predicate Alike(items: seq<Item>, key: string)
    requires forall i :: 0 <= i < |items| ==> WellFormed(items[i])
  {
    var some := Having(items, key);
    && (forall i :: 0 <= i < |some| ==> WellFormed(some[i]))
    && AsEntries(some) == Only(AsEntries(items), key)
  }

  lemma {:induction false} EntriesHaving(items: seq<Item>, key: string)
    requires forall i :: 0 <= i < |items| ==> WellFormed(items[i])
    ensures Alike(items, key)
  {
    if items != [] {
      hide WellFormed, Alike;
      var (front, last) := (items[..|items| - 1], items[|items| - 1]);
      EntriesHaving(front, key);
      assert items == front + [last];
      HavingOneMore(front, last, key);
    }
  }

  lemma HavingOneMore(front: seq<Item>, last: Item, key: string)
    requires (forall i :: 0 <= i < |front| ==> WellFormed(front[i])) && WellFormed(last)
    requires Alike(front, key)
    ensures Alike(front + [last], key)
  {
    hide AsEntries, AsEntry, WellFormed, Having, Only;
    EntryKey(last);
    EntriesPush(front, last);
    HavingPush(front, last, key);
    OnlyPush(AsEntries(front), AsEntry(last), key);
    if last.key == Some(Str(key)) {
      EntriesPush(Having(front, key), last);
    }
  }

  lemma EntryKey(item: Item)
    requires WellFormed(item)
    ensures item.Dict? && item.key == Some(Str(AsEntry(item).key))
  {
  }

  lemma EntriesPush(items: seq<Item>, item: Item)
    requires (forall i :: 0 <= i < |items| ==> WellFormed(items[i])) && WellFormed(item)
    ensures AsEntries(items + [item]) == AsEntries(items) + [AsEntry(item)]
  {
  }

  lemma HavingPush(items: seq<Item>, item: Item, key: string)
    ensures Having(items + [item], key) ==
      if item.Dict? && item.key == Some(Str(key)) then Having(items, key) + [item] else Having(items, key)
  {
    assert (items + [item])[..|items|] == items;
    assert Having(items, key) + [] == Having(items, key);
  }

  lemma AnswerAddsUp(resp: Response<real>, items: seq<Item>)
    requires forall i :: 0 <= i < |items| ==> WellFormed(items[i])
    requires Answers(resp, AsEntries(items), PYTHON)
    ensures AddsUp(resp, items)
  {
    hide AsEntries, Sum, Only, Total, Having, WellFormed;
    EntriesTotal(items);
    forall g | 0 <= g < |resp.perGroup|
      ensures var some := Having(items, resp.perGroup[g].key);
        |some| > 0 && resp.perGroup[g].count == |some| && resp.perGroup[g].sum == Total(some)
    {
      var key := resp.perGroup[g].key;
      EntriesHaving(items, key);
      EntriesTotal(Having(items, key));
      OnlySome(AsEntries(items), key);
    }
  }

  lemma {:induction false} OnlySome<V>(rs: seq<Entry<V>>, key: string)
    requires key in Keys(rs)
    ensures |Only(rs, key)| > 0
  {
    if rs[|rs| - 1].key != key {
      var front := rs[..|rs| - 1];
      KeysPush(front, rs[|rs| - 1]);
      assert rs == front + [rs[|rs| - 1]];
      OnlySome(front, key);
    }
  }

  datatype Handled = Answer(response: Response<real>) | Malformed(index: nat)

  /** After decoding: the first malformed record is an error, and otherwise groups are listed in the order their keys
      first appear. */
  method Handle(items: seq<Item>) returns (h: Handled, ghost firsts: seq<nat>)
    ensures h.Malformed? <==> exists i :: 0 <= i < |items| && !WellFormed(items[i])
    ensures h.Malformed? ==> h.index < |items| && !WellFormed(items[h.index])
    ensures h.Malformed? ==> forall i :: 0 <= i < h.index ==> WellFormed(items[i])
    ensures h.Answer? ==> Answers(h.response, AsEntries(items), PYTHON)
    ensures h.Answer? ==> SeenInOrder(h.response.perGroup, AsEntries(items), firsts)
    ensures h.Answer? ==> AddsUp(h.response, items)
  {
    hide Accumulated, Sum, Answers, Ordered, SeenInOrder, Lists, AsEntries, AsEntry, AddsUp;
    var groups: map<string, Agg<real>> := map[];
    var order: seq<string> := [];
    var total := 0.0;
    firsts := [];
    ghost var done: seq<Entry<real>> := [];
    NothingAccumulated(PYTHON);
    NothingOrdered();
    assert groups.Keys == {};
    for i := 0 to |items|
      invariant forall j :: 0 <= j < i ==> WellFormed(items[j])
      invariant |done| == i && forall j :: 0 <= j < i ==> done[j] == AsEntry(items[j])
      invariant Accumulated(groups, done, PYTHON) && total == Sum(done, PYTHON)
      invariant Ordered(order, groups.Keys, done, firsts)
    {
      var item := items[i];
      if item.NotDict? || item.key.None? || !item.key.value.Str? || item.value.None? {
        return Malformed(i), firsts;
      }
      var v := item.value.value;
      if !(v.Integer? || v.Float? || v.Boolean?) || v.Boolean? {
        return Malformed(i), firsts;
      }
      var r := AsEntry(items[i]);
      ghost var before := groups;
      AccumulateStep(before, done, r, PYTHON);
      OrderStep(order, before.Keys, done, firsts, r);
      SumPush(done, r, PYTHON);
      if r.key !in groups {
        order := order + [r.key];
        firsts := firsts + [i];
      }
      groups := Update(groups, r);
      done := done + [r];
      total := total + r.value;
    }
    assert done == AsEntries(items);
    OrderedKeys(order, groups.Keys, done, firsts);
    var perGroup := ListInOrder(groups, order);
    OrderedLists(order, groups, done, firsts, perGroup);
    h := Answer(Response(|items|, |groups|, total, perGroup));
    ListsAnswers(h.response, groups, done, PYTHON);
    AnswerAddsUp(h.response, items);
  }

  /** The accumulator's update in the loop. */
  method Update(groups: map<string, Agg<real>>, r: Entry<real>) returns (next: map<string, Agg<real>>)
    ensures next == Entered(groups, r, PYTHON) && next.Keys == groups.Keys + {r.key}
    ensures r.key in groups ==> next.Keys == groups.Keys
  {
    next := groups;
    if r.key !in next {
      next := next[r.key := Agg(0.0, 0)];
    }
    var a := next[r.key];
    next := next[r.key := Agg(a.sum + r.value, a.count + 1)];
    assert next == Entered(groups, r, PYTHON);
  }

  /** Python walks a dict in insertion order. */
  method ListInOrder(groups: map<string, Agg<real>>, order: seq<string>) returns (perGroup: seq<Group<real>>)
    requires forall i :: 0 <= i < |order| ==> order[i] in groups
    ensures |perGroup| == |order|
    ensures forall i :: 0 <= i < |order| ==> perGroup[i] == Group(order[i], groups[order[i]].sum, groups[order[i]].count)
  {
    perGroup := [];
    for i := 0 to |order|
      invariant |perGroup| == i
      invariant forall j :: 0 <= j < i ==> perGroup[j] == Group(order[j], groups[order[j]].sum, groups[order[j]].count)
    {
      perGroup := perGroup + [Group(order[i], groups[order[i]].sum, groups[order[i]].count)];
    }
  }

  /** `order` is the keys without repetition, each at the place it was first seen. */
  ghost predicate Ordered<V>(order: seq<string>, keys: set<string>, rs: seq<Entry<V>>, firsts: seq<nat>) {
    && |firsts| == |order|
    && (forall i :: 0 <= i < |order| ==> order[i] in keys && firsts[i] < |rs| && rs[firsts[i]].key == order[i])
    && (forall i, k :: 0 <= i < |order| && 0 <= k < firsts[i] && k < |rs| ==> rs[k].key != order[i])
    && (forall i, j :: 0 <= i < j < |order| ==> firsts[i] < firsts[j])
    && (forall key :: key in keys <==> key in order)
    && (forall k :: 0 <= k < |rs| ==> rs[k].key in keys)
  }

  /** Entry `i` has the key first seen at record `firsts[i]`, and these places ascend. */
  ghost predicate SeenInOrder<V>(perGroup: seq<Group<V>>, rs: seq<Entry<V>>, firsts: seq<nat>) {
    && |firsts| == |perGroup|
    && (forall i :: 0 <= i < |perGroup| ==> firsts[i] < |rs| && rs[firsts[i]].key == perGroup[i].key)
    && (forall i, k :: 0 <= i < |perGroup| && 0 <= k < firsts[i] && k < |rs| ==> rs[k].key != perGroup[i].key)
    && (forall i, j :: 0 <= i < j < |perGroup| ==> firsts[i] < firsts[j])
  }

  lemma NothingOrdered()
    ensures Ordered<real>([], {}, [], [])
  {
  }

  lemma OrderStep<V>(order: seq<string>, keys: set<string>, rs: seq<Entry<V>>, firsts: seq<nat>, r: Entry<V>)
    requires Ordered(order, keys, rs, firsts)
    ensures r.key in keys ==> Ordered(order, keys, rs + [r], firsts)
    ensures r.key !in keys ==> Ordered(order + [r.key], keys + {r.key}, rs + [r], firsts + [|rs|])
  {
  }

  lemma OrderedKeys<V>(order: seq<string>, keys: set<string>, rs: seq<Entry<V>>, firsts: seq<nat>)
    requires Ordered(order, keys, rs, firsts)
    ensures forall i :: 0 <= i < |order| ==> order[i] in keys
    ensures |order| == |keys|
    ensures forall i, j :: 0 <= i < j < |order| ==> order[i] != order[j]
  {
    forall i, j | 0 <= i < j < |order| ensures order[i] != order[j] {
      assert rs[firsts[i]].key != order[j];
    }
    DistinctCount(order);
    assert keys == set k | k in order;
  }

  lemma OrderedLists(order: seq<string>, groups: map<string, Agg<real>>, rs: seq<Entry<real>>, firsts: seq<nat>, perGroup: seq<Group<real>>)
    requires Ordered(order, groups.Keys, rs, firsts) && |perGroup| == |order|
    requires forall i :: 0 <= i < |order| ==> order[i] in groups && perGroup[i] == Group(order[i], groups[order[i]].sum, groups[order[i]].count)
    ensures Lists(perGroup, groups) && SeenInOrder(perGroup, rs, firsts)
  {
    OrderedKeys(order, groups.Keys, rs, firsts);
    assert |groups| == |groups.Keys|;
  }

  lemma {:induction false} DistinctCount(order: seq<string>)
    requires forall i, j :: 0 <= i < j < |order| ==> order[i] != order[j]
    ensures |set k | k in order| == |order|
  {
    if order == [] {
      assert (set k | k in order) == {};
    } else {
      var rest := order[..|order| - 1];
      DistinctCount(rest);
      assert order == rest + [order[|order| - 1]];
      assert (set k | k in order) == (set k | k in rest) + {order[|order| - 1]};
    }
  }

  // ---- Totals ---------------------------------------------------------------

  /** Order and grouping of additions do not matter. */
  ghost predicate Lawful<V(!new)>(m: Sums<V>) {
    && (forall a, b, c :: m.add(m.add(a, b), c) == m.add(a, m.add(b, c)))
    && (forall a, b :: m.add(a, b) == m.add(b, a))
    && (forall a :: m.add(a, m.zero) == a)
  }

  /** Wrapping after each addition or once at the end makes no difference. */
  lemma WrapOnce(a: int, b: int)
    ensures Wrap64(Wrap64(a) + b) == Wrap64(a + b)
  {
    var q := (a + 0x8000_0000_0000_0000) / 0x1_0000_0000_0000_0000;
    assert Wrap64(a) == a - q * 0x1_0000_0000_0000_0000;
    WholeTurns(a + b + 0x8000_0000_0000_0000, q);
  }

  lemma WholeTurns(n: int, q: int)
    ensures (n - q * 0x1_0000_0000_0000_0000) % 0x1_0000_0000_0000_0000 == n % 0x1_0000_0000_0000_0000
  {
    var m := 0x1_0000_0000_0000_0000;
    var d := n / m;
    assert n - q * m == (d - q) * m + n % m;
  }

  lemma SumsLawful()
    ensures Lawful(GO) && Lawful(PYTHON)
  {
    hide Wrap64;
    forall a: Int64, b: Int64, c: Int64 ensures GO.add(GO.add(a, b), c) == GO.add(a, GO.add(b, c)) {
      WrapOnce(a + b, c);
      WrapOnce(b + c, a);
      assert Wrap64(b + c) + a == a + Wrap64(b + c) && a + b + c == b + c + a;
    }
  }

  lemma Swap<V(!new)>(m: Sums<V>, a: V, b: V, c: V)
    requires Lawful(m)
    ensures m.add(m.add(a, b), c) == m.add(m.add(a, c), b)
    ensures m.add(m.add(a, b), c) == m.add(a, m.add(b, c))
  {
    assert m.add(m.add(a, b), c) == m.add(a, m.add(b, c));
    assert m.add(m.add(a, c), b) == m.add(a, m.add(c, b));
    assert m.add(b, c) == m.add(c, b);
  }

  function SumOfGroups<V>(perGroup: seq<Group<V>>, m: Sums<V>): V {
    if perGroup == [] then m.zero else m.add(SumOfGroups(perGroup[..|perGroup| - 1], m), perGroup[|perGroup| - 1].sum)
  }

  function CountOfGroups<V>(perGroup: seq<Group<V>>): nat {
    if perGroup == [] then 0 else CountOfGroups(perGroup[..|perGroup| - 1]) + perGroup[|perGroup| - 1].count
  }

  /** The fold over keys that the groups' sums and counts are compared with. */
  function SumByKeys<V>(keys: seq<string>, rs: seq<Entry<V>>, m: Sums<V>): V {
    if keys == [] then m.zero else m.add(SumByKeys(keys[..|keys| - 1], rs, m), Sum(Only(rs, keys[|keys| - 1]), m))
  }

  function CountByKeys<V>(keys: seq<string>, rs: seq<Entry<V>>): nat {
    if keys == [] then 0 else CountByKeys(keys[..|keys| - 1], rs) + |Only(rs, keys[|keys| - 1])|
  }

  /** Adding a record adds its value to exactly one of distinct keys, if its key is among them. */
  lemma {:induction false} ByKeysPush<V(!new)>(keys: seq<string>, rs: seq<Entry<V>>, r: Entry<V>, m: Sums<V>)
    requires Lawful(m) && forall i, j :: 0 <= i < j < |keys| ==> keys[i] != keys[j]
    ensures SumByKeys(keys, rs + [r], m) == if r.key in keys then m.add(SumByKeys(keys, rs, m), r.value) else SumByKeys(keys, rs, m)
    ensures CountByKeys(keys, rs + [r]) == CountByKeys(keys, rs) + if r.key in keys then 1 else 0
  {
    hide Lawful, Only, Sum;
    if keys != [] {
      var (front, last) := (keys[..|keys| - 1], keys[|keys| - 1]);
      ByKeysPush(front, rs, r, m);
      OnlyPush(rs, r, last);
      SumPush(Only(rs, last), r, m);
      assert keys == front + [last] && last !in front;
      AddOnce(m, SumByKeys(front, rs, m), Sum(Only(rs, last), m), r.value, r.key in front, r.key == last);
      assert r.key in keys <==> r.key in front || r.key == last;
    }
  }

  lemma AddOnce<V(!new)>(m: Sums<V>, s: V, t: V, v: V, first: bool, second: bool)
    requires Lawful(m) && !(first && second)
    ensures m.add(if first then m.add(s, v) else s, if second then m.add(t, v) else t)
         == if first || second then m.add(m.add(s, t), v) else m.add(s, t)
  {
    Swap(m, s, v, t);
    Swap(m, s, t, v);
  }

  /** Every record is counted under exactly one key. */
  lemma {:induction false} ByKeysTotal<V(!new)>(keys: seq<string>, rs: seq<Entry<V>>, m: Sums<V>)
    requires Lawful(m) && forall i, j :: 0 <= i < j < |keys| ==> keys[i] != keys[j]
    requires forall i :: 0 <= i < |rs| ==> rs[i].key in keys
    ensures SumByKeys(keys, rs, m) == Sum(rs, m)
    ensures CountByKeys(keys, rs) == |rs|
  {
    if rs == [] {
      ByKeysNone(keys, m);
    } else {
      var (front, r) := (rs[..|rs| - 1], rs[|rs| - 1]);
      assert rs == front + [r];
      ByKeysTotal(keys, front, m);
      ByKeysPush(keys, front, r, m);
    }
  }

  lemma {:induction false} ByKeysNone<V(!new)>(keys: seq<string>, m: Sums<V>)
    requires Lawful(m)
    ensures SumByKeys(keys, [], m) == m.zero && CountByKeys<V>(keys, []) == 0
  {
    if keys != [] {
      ByKeysNone(keys[..|keys| - 1], m);
      assert m.add(m.zero, m.zero) == m.zero;
    }
  }

  function KeysOf<V>(perGroup: seq<Group<V>>): (keys: seq<string>)
    ensures |keys| == |perGroup| && forall i :: 0 <= i < |keys| ==> keys[i] == perGroup[i].key
  {
    if perGroup == [] then [] else KeysOf(perGroup[..|perGroup| - 1]) + [perGroup[|perGroup| - 1].key]
  }

  lemma {:induction false} GroupsByKeys<V>(perGroup: seq<Group<V>>, rs: seq<Entry<V>>, m: Sums<V>)
    requires forall i :: 0 <= i < |perGroup| ==> Holds(Agg(perGroup[i].sum, perGroup[i].count), rs, perGroup[i].key, m)
    ensures CountOfGroups(perGroup) == CountByKeys(KeysOf(perGroup), rs)
    ensures SumOfGroups(perGroup, m) == SumByKeys(KeysOf(perGroup), rs, m)
  {
    hide Only, Sum;
    if perGroup != [] {
      var (front, last) := (perGroup[..|perGroup| - 1], perGroup[|perGroup| - 1]);
      GroupsByKeys(front, rs, m);
      var keys := KeysOf(perGroup);
      assert keys[..|keys| - 1] == KeysOf(front) && keys[|keys| - 1] == last.key;
      assert Holds(Agg(last.sum, last.count), rs, last.key, m);
    }
  }

  /** In any answer the counts add up to the records and the sums to the total, added as the language adds. */
  lemma GroupsAddUp<V(!new)>(resp: Response<V>, rs: seq<Entry<V>>, m: Sums<V>)
    requires Answers(resp, rs, m) && Lawful(m)
    ensures CountOfGroups(resp.perGroup) == resp.records
    ensures SumOfGroups(resp.perGroup, m) == resp.total
  {
    hide Holds, Sum, Only, SumByKeys, CountByKeys, SumOfGroups, CountOfGroups, Lawful;
    var keys := KeysOf(resp.perGroup);
    GroupsByKeys(resp.perGroup, rs, m);
    DistinctCount(keys);
    var listed := set k | k in keys;
    assert listed <= Keys(rs);
    SameSize(listed, Keys(rs));
    forall i | 0 <= i < |rs| ensures rs[i].key in keys {
      assert rs[i].key in Keys(rs);
    }
    ByKeysTotal(keys, rs, m);
  }

  lemma SameSize<T>(a: set<T>, b: set<T>)
    requires a <= b && |a| == |b|
    ensures a == b
  {
    assert b == a + (b - a);
  }

  // ---- The two languages ----------------------------------------------------

  function IntSum(rs: seq<Entry<Int64>>): int {
    if rs == [] then 0 else IntSum(rs[..|rs| - 1]) + rs[|rs| - 1].value
  }

  /** Go's sums are the exact ones, wrapped once. */
  lemma {:induction false} GoSumsWrap(rs: seq<Entry<Int64>>)
    ensures Sum(rs, GO) == Wrap64(IntSum(rs))
  {
    hide Wrap64;
    if rs == [] {
      assert Wrap64(0) == 0;
    } else {
      GoSumsWrap(rs[..|rs| - 1]);
      WrapOnce(IntSum(rs[..|rs| - 1]), rs[|rs| - 1].value);
    }
  }

  /** The same integer records as Python sees them. */
  function Reals(rs: seq<Entry<Int64>>): (out: seq<Entry<real>>)
    ensures |out| == |rs| && forall i :: 0 <= i < |rs| ==> out[i] == Entry(rs[i].key, rs[i].value as real)
  {
    if rs == [] then [] else Reals(rs[..|rs| - 1]) + [Entry(rs[|rs| - 1].key, rs[|rs| - 1].value as real)]
  }

  /** Python's sums are the exact ones. */
  lemma {:induction false} PythonSumsExact(rs: seq<Entry<Int64>>)
    ensures Sum(Reals(rs), PYTHON) == IntSum(rs) as real
  {
    if rs != [] {
      PythonSumsExact(rs[..|rs| - 1]);
      assert Reals(rs)[..|rs| - 1] == Reals(rs[..|rs| - 1]);
    }
  }

  lemma {:induction false} OnlyReals(rs: seq<Entry<Int64>>, key: string)
    ensures Only(Reals(rs), key) == Reals(Only(rs, key))
  {
    if rs != [] {
      var (front, last) := (rs[..|rs| - 1], rs[|rs| - 1]);
      OnlyReals(front, key);
      assert Reals(rs)[..|rs| - 1] == Reals(front);
      var some := Only(front, key);
      if last.key == key {
        assert (some + [last])[..|some|] == some;
      } else {
        assert some + [] == some && Reals(some) + [] == Reals(some);
      }
    }
  }

  /** On integer records the two handlers agree on counts, and on every sum that stays within 64 bits. */
  lemma HandlersAgree(go: Response<Int64>, py: Response<real>, rs: seq<Entry<Int64>>, i: nat, j: nat)
    requires Answers(go, rs, GO) && Answers(py, Reals(rs), PYTHON)
    requires i < |go.perGroup| && j < |py.perGroup| && go.perGroup[i].key == py.perGroup[j].key
    ensures go.records == py.records && go.groups == py.groups && go.perGroup[i].count == py.perGroup[j].count
    ensures -0x8000_0000_0000_0000 <= IntSum(rs) < 0x8000_0000_0000_0000 ==> go.total as real == py.total
    ensures var s := IntSum(Only(rs, go.perGroup[i].key));
      -0x8000_0000_0000_0000 <= s < 0x8000_0000_0000_0000 ==> go.perGroup[i].sum as real == py.perGroup[j].sum
  {
    hide Sum, Only, Wrap64, IntSum;
    var key := go.perGroup[i].key;
    GoSumsWrap(rs);
    GoSumsWrap(Only(rs, key));
    PythonSumsExact(rs);
    OnlyReals(rs, key);
    PythonSumsExact(Only(rs, key));
    EqualKeys(rs, Reals(rs));
  }

  // ---- The seeded batch -----------------------------------------------------

  /** The first `n` seeded records. */
  function Seeded(cardinality: nat, n: nat): (rs: seq<Entry<int>>)
    requires cardinality >= 1
    ensures |rs| == n
    ensures forall i :: 0 <= i < n ==> rs[i] == Entry(BatchRecord(cardinality, i).key, BatchRecord(cardinality, i).value)
  {
    if n == 0 then []
    else Seeded(cardinality, n - 1) + [Entry(BatchRecord(cardinality, n - 1).key, BatchRecord(cardinality, n - 1).value)]
  }

  lemma SeedKeysDiffer(cardinality: nat, i: nat, j: nat)
    requires cardinality >= 1
    ensures BatchRecord(cardinality, i).key == BatchRecord(cardinality, j).key <==> i % cardinality == j % cardinality
  {
    hide Padded, ParseNat;
    var (a, b) := (Padded(i % cardinality, 4), Padded(j % cardinality, 4));
    ParsePadded(i % cardinality, 4);
    ParsePadded(j % cardinality, 4);
    assert ("k" + a)[1..] == a && ("k" + b)[1..] == b;
  }

  /** The key of record `n` is new exactly while `n` is below the cardinality. */
  lemma SeededKey(cardinality: nat, n: nat)
    requires cardinality >= 1
    ensures BatchRecord(cardinality, n).key in Keys(Seeded(cardinality, n)) <==> n >= cardinality
  {
    var (rs, key) := (Seeded(cardinality, n), BatchRecord(cardinality, n).key);
    hide BatchRecord, Padded;
    Small(n, cardinality);
    forall k: nat | k < n ensures n < cardinality ==> rs[k].key != key {
      SeedKeysDiffer(cardinality, k, n);
      Small(k, cardinality);
    }
    if n >= cardinality {
      var k := n % cardinality;
      Small(k, cardinality);
      SeedKeysDiffer(cardinality, k, n);
      assert rs[k].key == key;
    }
  }

  /** The first `n` seeded records have as many keys as fit: all of them once `n` reaches the cardinality. */
  lemma {:induction false} SeededGroups(cardinality: nat, n: nat)
    requires cardinality >= 1
    ensures |Keys(Seeded(cardinality, n))| == if n < cardinality then n else cardinality
  {
    hide BatchRecord, Keys;
    if n == 0 {
      NoKeys();
    } else {
      SeededGroups(cardinality, n - 1);
      var (front, r) := (Seeded(cardinality, n - 1), BatchRecord(cardinality, n - 1));
      KeysPush(front, Entry(r.key, r.value));
      SeededKey(cardinality, n - 1);
      if n > cardinality {
        assert Keys(Seeded(cardinality, n)) == Keys(front);
      }
    }
  }

  lemma NoKeys()
    ensures Keys<int>([]) == {}
  {
  }

  function DecodeRecords(parts: seq<string>): Option<seq<Entry<int>>> {
    if parts == [] then Some([])
    else match DecodeRecords(parts[..|parts| - 1])
      case None => None
      case Some(rs) =>
        match DecodeRecord(parts[|parts| - 1])
        case None => None
        case Some(r) => Some(rs + [Entry(r.key, r.value)])
  }

  /** A compact batch as records. */
  function DecodeBatch(payload: string): Option<seq<Entry<int>>> {
    match DecodeArray(payload)
    case None => None
    case Some(parts) => DecodeRecords(parts)
  }

  lemma {:induction false} SeededDecodes(cardinality: nat, n: nat)
    requires cardinality >= 1
    ensures DecodeRecords(Entries(BatchEntryOf(cardinality), n)) == Some(Seeded(cardinality, n))
  {
    hide BatchEntry, DecodeRecord, BatchRecord, DecodeRecords;
    if n == 0 {
      NothingDecoded();
    } else {
      SeededDecodes(cardinality, n - 1);
      BatchEntryReads(cardinality, n - 1);
      var entry := BatchEntryOf(cardinality);
      DecodePush(Entries(entry, n - 1), Seeded(cardinality, n - 1), entry(n - 1), BatchRecord(cardinality, n - 1));
    }
  }

  lemma NothingDecoded()
    ensures DecodeRecords([]) == Some([])
  {
  }

  lemma DecodePush(parts: seq<string>, rs: seq<Entry<int>>, last: string, r: Record)
    requires DecodeRecords(parts) == Some(rs) && DecodeRecord(last) == Some(r)
    ensures DecodeRecords(parts + [last]) == Some(rs + [Entry(r.key, r.value)])
  {
    hide DecodeRecord;
    assert (parts + [last])[..|parts|] == parts;
  }

  /** Any answer for records with the seeded keys has `min(n, cardinality)` groups. */
  lemma SeededAnswer<V>(cardinality: nat, n: nat, rs: seq<Entry<V>>, resp: Response<V>, m: Sums<V>)
    requires cardinality >= 1 && |rs| == n && Keys(rs) == Keys(Seeded(cardinality, n))
    requires Answers(resp, rs, m)
    ensures resp.records == n && resp.groups == if n < cardinality then n else cardinality
  {
    hide BatchRecord, Holds, Sum, Keys;
    SeededGroups(cardinality, n);
  }

  /** The records as Go decodes them, into 64-bit values. */
  function AsGo(rs: seq<Entry<int>>): (out: seq<Entry<Int64>>)
    requires forall i :: 0 <= i < |rs| ==> -0x8000_0000_0000_0000 <= rs[i].value < 0x8000_0000_0000_0000
    ensures |out| == |rs| && forall i :: 0 <= i < |rs| ==> out[i].key == rs[i].key && out[i].value == rs[i].value
  {
    seq(|rs|, i requires 0 <= i < |rs| => Entry(rs[i].key, rs[i].value))
  }

  /** The same as Python decodes them. */
  function AsPython(rs: seq<Entry<int>>): seq<Item> {
    seq(|rs|, i requires 0 <= i < |rs| => Dict(Some(Str(rs[i].key)), Some(Integer(rs[i].value))))
  }

  /** What the first `n` seeded values add up to. */
  function SeededTotal(n: nat): nat {
    if n == 0 then 0 else SeededTotal(n - 1) + ((n - 1) % 997 + 1)
  }

  lemma {:induction false} SeededSum(cardinality: nat, n: nat)
    requires cardinality >= 1
    ensures forall i :: 0 <= i < n ==> 1 <= Seeded(cardinality, n)[i].value <= 997
    ensures IntSum(AsGo(Seeded(cardinality, n))) == SeededTotal(n)
  {
    hide Padded;
    if n > 0 {
      SeededSum(cardinality, n - 1);
      var (rs, front) := (Seeded(cardinality, n), Seeded(cardinality, n - 1));
      assert AsGo(rs)[..n - 1] == AsGo(front);
    }
  }

  /** Records with positive values add up to no less than some of them do. */
  lemma {:induction false} OnlyBelow(rs: seq<Entry<Int64>>, key: string)
    requires forall i :: 0 <= i < |rs| ==> rs[i].value >= 0
    ensures 0 <= IntSum(Only(rs, key)) <= IntSum(rs)
  {
    if rs != [] {
      var (front, last) := (rs[..|rs| - 1], rs[|rs| - 1]);
      OnlyBelow(front, key);
      var some := Only(front, key);
      if last.key == key {
        assert (some + [last])[..|some|] == some;
      } else {
        assert some + [] == some;
      }
    }
  }

  /** The two answers for seeded records agree, group by group. */
  lemma SeededAgree(cardinality: nat, n: nat, go: Response<Int64>, py: Response<real>)
    requires cardinality >= 1
    requires forall i :: 0 <= i < n ==> 1 <= Seeded(cardinality, n)[i].value <= 997
    requires Answers(go, AsGo(Seeded(cardinality, n)), GO)
    requires Answers(py, AsEntries(AsPython(Seeded(cardinality, n))), PYTHON)
    ensures py.total == SeededTotal(n) as real
    ensures SeededTotal(n) < 0x8000_0000_0000_0000 ==> go.total == SeededTotal(n) && SameSums(go, py)
  {
    hide Answers, Sum, Only, Wrap64, IntSum, Seeded, SeededTotal, SameSums;
    var rs := Seeded(cardinality, n);
    SeededSum(cardinality, n);
    assert AsEntries(AsPython(rs)) == Reals(AsGo(rs));
    PythonSumsExact(AsGo(rs));
    GoSumsWrap(AsGo(rs));
    TotalsOf(go, AsGo(rs), GO);
    TotalsOf(py, Reals(AsGo(rs)), PYTHON);
    if SeededTotal(n) < 0x8000_0000_0000_0000 {
      InRange(SeededTotal(n));
      AllAgree(go, py, AsGo(rs));
    }
  }

  lemma TotalsOf<V>(resp: Response<V>, rs: seq<Entry<V>>, m: Sums<V>)
    requires Answers(resp, rs, m)
    ensures resp.total == Sum(rs, m)
  {
  }

  lemma InRange(n: int)
    requires 0 <= n < 0x8000_0000_0000_0000
    ensures Wrap64(n) == n
  {
  }

  ghost predicate SameSums(go: Response<Int64>, py: Response<real>) {
    forall i, j :: 0 <= i < |go.perGroup| && 0 <= j < |py.perGroup| && go.perGroup[i].key == py.perGroup[j].key ==>
      go.perGroup[i].count == py.perGroup[j].count && go.perGroup[i].sum as real == py.perGroup[j].sum
  }

  lemma AllAgree(go: Response<Int64>, py: Response<real>, rs: seq<Entry<Int64>>)
    requires Answers(go, rs, GO) && Answers(py, Reals(rs), PYTHON)
    requires (forall i :: 0 <= i < |rs| ==> rs[i].value >= 0) && IntSum(rs) < 0x8000_0000_0000_0000
    ensures SameSums(go, py)
  {
    hide Answers, IntSum, Only;
    forall i, j | 0 <= i < |go.perGroup| && 0 <= j < |py.perGroup| && go.perGroup[i].key == py.perGroup[j].key
      ensures go.perGroup[i].count == py.perGroup[j].count && go.perGroup[i].sum as real == py.perGroup[j].sum
    {
      HandlersAgree(go, py, rs, i, j);
      OnlyBelow(rs, go.perGroup[i].key);
    }
  }

  /** The driver seeds a batch, and each handler decodes and groups it. For every size and cardinality all of it
      succeeds: the payload decodes to the first `n` seeded records, `n` the least count that reaches the size, and
      both answers have `n` records and `min(n, cardinality)` groups. */
  method SeedThenGroup(minBytes: nat, cardinality: nat) returns (payload: string, go: Response<Int64>, py: Handled, ghost n: nat)
    requires cardinality >= 1
    ensures Least(BatchEntryOf(cardinality), minBytes, n) && DecodeBatch(payload) == Some(Seeded(cardinality, n))
    ensures go.records == n && go.groups == if n < cardinality then n else cardinality
    ensures py.Answer? && py.response.records == go.records && py.response.groups == go.groups
    ensures py.response.total == SeededTotal(n) as real
    ensures SeededTotal(n) < 0x8000_0000_0000_0000 ==> go.total == SeededTotal(n) && SameSums(go, py.response)
  {
    hide IntSum, SeededTotal, SameSums, AddsUp, Least, BatchEntryOf, BatchRecord, DecodeArray, DecodeRecords, DecodeRecord, Seeded, Answers, SeenInOrder, Entries, Keys;
    payload, n := GenerateBatchPayload(minBytes, cardinality);
    SeededDecodes(cardinality, n);
    SeededSum(cardinality, n);
    var records := DecodeBatch(payload).value;
    go := ProcessBatch(AsGo(records));
    EqualKeys(AsGo(records), records);
    SeededAnswer(cardinality, n, AsGo(records), go, GO);
    ghost var firsts;
    py, firsts := Handle(AsPython(records));
    EqualKeys(AsEntries(AsPython(records)), records);
    SeededAnswer(cardinality, n, AsEntries(AsPython(records)), py.response, PYTHON);
    SeededAgree(cardinality, n, go, py.response);
  }

  lemma EqualKeys<V, W>(rs: seq<Entry<V>>, ss: seq<Entry<W>>)
    requires |rs| == |ss| && forall i :: 0 <= i < |rs| ==> rs[i].key == ss[i].key
    ensures Keys(rs) == Keys(ss)
  {
    forall k ensures k in Keys(rs) <==> k in Keys(ss) {
      if k in Keys(rs) {
        var i :| 0 <= i < |rs| && rs[i].key == k;
        assert ss[i].key == k;
      }
      if k in Keys(ss) {
        var i :| 0 <= i < |ss| && ss[i].key == k;
        assert rs[i].key == k;
      }
    }
  }

  lemma Small(k: nat, n: nat)
    requires n >= 1
    ensures k < n ==> k % n == k
    ensures k % n < n
  {
  }
}
