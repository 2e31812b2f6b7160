/** Publishing the site and pruning its old assets.

    The bucket is a map from key to object. Each put and each delete may be the last one a publish gets
    to make, so every early return below is a place where a publish can stop. */
module SiteAssets {
  import opened SiteNames

  /** What a key holds: an asset, a page naming the assets it loads, or the manifest of a build. */
  datatype Object = Asset | Page(refs: set<string>) | Manifest(text: string)

  type Bucket = map<string, Object>

  /** Keys the second sync pass owns. */
  predicate IsUnhashed(key: string) {
    EndsWith(key, ".html") || key in {"robots.txt", "sitemap.xml", "favicon.svg", "apple-touch-icon.png"}
  }

  /** The two passes share no key, neither owns a manifest, and outside `_deploys/` they own every key. */
  lemma KeySpaces(key: string)
    ensures !(IsAsset(key) && IsUnhashed(key))
    ensures IsManifest(key) ==> !IsAsset(key) && !IsUnhashed(key)
    ensures StartsWith(key, MANIFEST_PREFIX) || IsAsset(key) || IsUnhashed(key)
  {
    LastChar(key, MANIFEST_SUFFIX);
    LastChar(key, ".html");
    if IsManifest(key) {
      assert key[0] == '_';
    }
  }

  lemma LastChar(s: string, suffix: string)
    requires suffix != ""
    ensures EndsWith(s, suffix) ==> s != "" && s[|s| - 1] == suffix[|suffix| - 1]
  {
    if EndsWith(s, suffix) {
      assert s[|s| - 1] == s[|s| - |suffix|..][|suffix| - 1];
    }
  }

  /** A built site: its asset keys, and per page the assets the page loads. */
  datatype Build = Build(assets: set<string>, pages: map<string, set<string>>) {
    predicate Valid() {
      && (forall a :: a in assets ==> IsAsset(a) && CleanKey(a))
      && (forall p :: p in pages ==> IsUnhashed(p) && pages[p] <= assets)
    }
  }

  // ---- What the bucket promises ---------------------------------------------

  function TextOf(b: Bucket, key: string): string {
    if key in b && b[key].Manifest? then b[key].text else ""
  }

  function Manifests(b: Bucket): set<string> {
    set m | m in b && IsManifest(m)
  }

  function Later(ms: set<string>, key: string): set<string> {
    set m | m in ms && Less(key, m)
  }

  /** `key` is one of the newest `k` of the manifests `ms`. */
  predicate Recent(ms: set<string>, key: string, k: nat) {
    key in ms && |Later(ms, key)| < k
  }

  ghost predicate Typed(b: Bucket) {
    && (forall key :: key in b && b[key].Manifest? ==> IsManifest(key) && forall a :: a in Listed(b[key].text) ==> IsAsset(a))
    && (forall key :: key in b && b[key].Page? ==> IsUnhashed(key) && forall a :: a in b[key].refs ==> IsAsset(a))
    && (forall key :: key in b && IsManifest(key) ==> b[key].Manifest?)
  }

  /** Every asset listed by one of the newest `k` manifests is there. */
  ghost predicate Kept(b: Bucket, k: nat) {
    forall m, a :: Recent(Manifests(b), m, k) && a in Listed(TextOf(b, m)) ==> a in b
  }

  /** Some manifest lists all of `refs`. */
  ghost predicate Recorded(b: Bucket, refs: set<string>) {
    exists m :: m in Manifests(b) && forall a :: a in refs ==> a in Listed(TextOf(b, m))
  }

  /** Every asset a live page loads is there, and the build it came from is recorded. */
  ghost predicate Live(b: Bucket) {
    forall p :: p in b && b[p].Page? ==> b[p].refs <= b.Keys && Recorded(b, b[p].refs)
  }

  ghost predicate Sound(b: Bucket, k: nat) {
    Typed(b) && Kept(b, k) && Live(b)
  }

  /** What pruning with `keep` has to spare. */
  function Referenced(b: Bucket, local: set<string>, keep: nat): set<string> {
    local + set m, a | m in Manifests(b) && Recent(Manifests(b), m, keep) && a in Listed(TextOf(b, m)) :: a
  }

  /** What pruning with `keep` removes: nothing before `keep` manifests exist, and then the assets neither
      the local build nor a kept manifest lists, and the manifests older than the newest `keep`. */
  function Doomed(b: Bucket, local: set<string>, keep: nat): set<string> {
    if |Manifests(b)| < keep then {}
    else (set a | a in b && IsAsset(a) && a !in Referenced(b, local, keep))
         + set m | m in Manifests(b) && !Recent(Manifests(b), m, keep)
  }

  // ---- What each single write keeps -----------------------------------------

  lemma StillRecorded(b: Bucket, c: Bucket, refs: set<string>)
    requires Recorded(b, refs)
    requires forall m :: m in Manifests(b) ==> m in c && c[m] == b[m]
    ensures Recorded(c, refs)
  {
    var m :| m in Manifests(b) && forall a :: a in refs ==> a in Listed(TextOf(b, m));
    assert m in Manifests(c) && TextOf(c, m) == TextOf(b, m);
  }

  /** A write or delete that leaves assets and manifests alone, or adds an asset, changes no manifest. */
  lemma SameManifests(b: Bucket, c: Bucket)
    requires forall m :: IsManifest(m) ==> (m in b <==> m in c) && (m in b ==> b[m] == c[m])
    ensures Manifests(b) == Manifests(c)
    ensures forall m :: m in Manifests(b) ==> TextOf(b, m) == TextOf(c, m)
  {
  }

  lemma PutAssetKeeps(b: Bucket, key: string, k: nat)
    requires Sound(b, k) && IsAsset(key)
    ensures Sound(b[key := Asset], k)
  {
    hide IsAsset, IsManifest, IsUnhashed, Listed;
    var c := b[key := Asset];
    KeySpaces(key);
    SameManifests(b, c);
    forall p | p in c && c[p].Page? ensures c[p].refs <= c.Keys && Recorded(c, c[p].refs) {
      assert b[p].refs <= b.Keys;
      StillRecorded(b, c, b[p].refs);
    }
  }

  lemma PutPageKeeps(b: Bucket, key: string, refs: set<string>, k: nat)
    requires Sound(b, k) && IsUnhashed(key)
    requires refs <= b.Keys && Recorded(b, refs) && forall a :: a in refs ==> IsAsset(a)
    ensures Sound(b[key := Page(refs)], k)
  {
    hide IsAsset, IsManifest, IsUnhashed, Listed;
    var c := b[key := Page(refs)];
    KeySpaces(key);
    SameManifests(b, c);
    forall p | p in c && c[p].Page? ensures c[p].refs <= c.Keys && Recorded(c, c[p].refs) {
      StillRecorded(b, c, c[p].refs);
    }
  }

  lemma DropPageKeeps(b: Bucket, key: string, k: nat)
    requires Sound(b, k) && IsUnhashed(key)
    ensures Sound(b - {key}, k)
  {
    hide IsAsset, IsManifest, IsUnhashed, Listed;
    var c := b - {key};
    KeySpaces(key);
    SameManifests(b, c);
    forall m, a | Recent(Manifests(c), m, k) && a in Listed(TextOf(c, m)) ensures a in c {
      assert a in b && b[m].Manifest? && IsAsset(a);
    }
    forall p | p in c && c[p].Page? ensures c[p].refs <= c.Keys && Recorded(c, c[p].refs) {
      assert b[p].refs <= b.Keys;
      StillRecorded(b, c, c[p].refs);
    }
  }

  /** A manifest that sorts after all others pushes each of them one place down. */
  lemma NewestFirst(ms: set<string>, key: string, m: string)
    requires forall x :: x in ms ==> Less(x, key)
    ensures key !in ms && Later(ms + {key}, key) == {}
    ensures m in ms ==> |Later(ms + {key}, m)| == |Later(ms, m)| + 1
  {
    hide Less;
    forall x | x in ms + {key} ensures !Less(key, x) {
      LessIsStrict(key);
      if x in ms {
        NotBoth(x, key);
      }
    }
    LessIsStrict(key);
    if m in ms {
      assert Later(ms + {key}, m) == Later(ms, m) + {key};
    }
  }

  lemma PutManifestKeeps(b: Bucket, key: string, text: string, k: nat)
    requires Sound(b, k) && IsManifest(key)
    requires forall m :: m in Manifests(b) ==> Less(m, key)
    requires forall a :: a in Listed(text) ==> a in b && IsAsset(a)
    ensures Sound(b[key := Manifest(text)], k)
    ensures Manifests(b[key := Manifest(text)]) == Manifests(b) + {key}
    ensures Later(Manifests(b) + {key}, key) == {}
  {
    hide IsAsset, IsManifest, IsUnhashed, Listed, Less, Later;
    var c := b[key := Manifest(text)];
    var ms := Manifests(b);
    NewestFirst(ms, key, key);
    KeySpaces(key);
    assert key !in b;
    assert Manifests(c) == ms + {key};
    assert Typed(c);
    forall m, a | Recent(Manifests(c), m, k) && a in Listed(TextOf(c, m)) ensures a in c {
      if m != key {
        NewestFirst(ms, key, m);
        assert Recent(ms, m, k) && TextOf(c, m) == TextOf(b, m);
      }
    }
    forall p | p in c && c[p].Page? ensures c[p].refs <= c.Keys && Recorded(c, c[p].refs) {
      assert b[p].refs <= b.Keys;
      StillRecorded(b, c, b[p].refs);
    }
  }

  // ---- What pruning keeps ---------------------------------------------------

  /** Kept manifests have only kept manifests after them, so removing expired ones moves none of them,
      and no expired manifest becomes recent. */
  lemma RankAfterPrune(ms: set<string>, gone: set<string>, m: string, keep: nat)
    requires |ms| >= keep >= 1
    requires forall g :: g in gone && g in ms ==> !Recent(ms, g, keep)
    ensures Recent(ms - gone, m, keep) ==> Recent(ms, m, keep)
    ensures Recent(ms, m, keep) ==> m in ms - gone && Later(ms - gone, m) == Later(ms, m)
  {
    hide Less;
    if Recent(ms, m, keep) {
      forall g | g in Later(ms, m) ensures g !in gone {
        LaterShrinks(ms, m, g);
        CardinalitySubset(Later(ms, g), Later(ms, m));
      }
      assert Later(ms - gone, m) == Later(ms, m);
    } else if m in ms - gone {
      LaterSurvivors(ms, gone, m, keep);
    }
  }

  lemma LaterShrinks(ms: set<string>, m: string, g: string)
    requires Less(m, g)
    ensures Later(ms, g) <= Later(ms, m)
  {
    forall x | x in Later(ms, g) ensures x in Later(ms, m) {
      LessTrans(m, g, x);
    }
  }

  lemma {:induction false} CardinalitySubset<T>(a: set<T>, b: set<T>)
    requires a <= b
    ensures |a| <= |b|
  {
    assert b == a + (b - a);
  }

  /** A manifest that is not among the newest `keep` has `keep` recent ones after it. */
  lemma {:induction false} LaterSurvivors(ms: set<string>, gone: set<string>, m: string, keep: nat)
    requires m in ms && |Later(ms, m)| >= keep
    requires forall g :: g in gone && g in ms ==> !Recent(ms, g, keep)
    ensures |Later(ms - gone, m)| >= keep
  {
    hide Less;
    forall x, y | x in Later(ms, m) && y in ms && Less(x, y) ensures y in Later(ms, m) {
      LessTrans(m, x, y);
    }
    var newest := NewestOf(ms, Later(ms, m), keep);
    assert newest <= Later(ms - gone, m);
    CardinalitySubset(newest, Later(ms - gone, m));
  }

  /** `n` recent manifests can be picked from any up-closed set of at least `n` manifests. */
  lemma {:induction false} NewestOf(ms: set<string>, up: set<string>, n: nat) returns (newest: set<string>)
    requires up <= ms && |up| >= n
    requires forall x, y :: x in up && y in ms && Less(x, y) ==> y in up
    ensures newest <= up && |newest| == n
    ensures forall x :: x in newest ==> Recent(ms, x, n)
    decreases |up|
  {
    hide Less;
    if |up| == n {
      newest := up;
      forall x | x in newest ensures Recent(ms, x, n) {
        LessIsStrict(x);
        assert Later(ms, x) <= up - {x};
        CardinalitySubset(Later(ms, x), up - {x});
      }
    } else {
      var oldest := Oldest(up);
      forall x, y | x in up - {oldest} && y in ms && Less(x, y) ensures y in up - {oldest} {
        if y == oldest {
          LessTrans(oldest, x, oldest);
          LessIsStrict(oldest);
        }
      }
      newest := NewestOf(ms, up - {oldest}, n);
    }
  }

  lemma {:induction false} Oldest(up: set<string>) returns (oldest: string)
    requires up != {}
    ensures oldest in up && forall x :: x in up && x != oldest ==> Less(oldest, x)
    decreases |up|
  {
    hide Less;
    oldest :| oldest in up;
    if up != {oldest} {
      var other := Oldest(up - {oldest});
      LessTotal(oldest, other);
      if Less(other, oldest) {
        oldest := other;
      } else {
        forall x | x in up && x != oldest ensures Less(oldest, x) {
          if x != other {
            LessTrans(oldest, other, x);
          }
        }
      }
    }
  }

  /** However little of the pruning gets done, the bucket stays sound, for any number of builds up to
      `keep`, once the live pages are those of the newest recorded build. */
  lemma PruneKeeps(b: Bucket, local: set<string>, keep: nat, gone: set<string>, top: string, k: nat)
    requires Sound(b, k) && 1 <= keep && k <= keep
    requires gone <= Doomed(b, local, keep)
    requires top in Manifests(b) && Later(Manifests(b), top) == {}
    requires forall a :: a in local ==> a in Listed(TextOf(b, top))
    requires forall p :: p in b && b[p].Page? ==> b[p].refs <= local
    ensures Sound(b - gone, k)
  {
    if gone != {} {
      PruneKeepsKept(b, local, keep, gone, k);
      var (c, ms) := (b - gone, Manifests(b));
      hide IsAsset, IsManifest, IsUnhashed, Listed, Less;
      assert Recent(ms, top, keep);
      forall g | g in gone ensures g != top && g !in local {
        KeySpaces(g);
      }
      forall p | p in c && c[p].Page? ensures c[p].refs <= c.Keys && Recorded(c, c[p].refs) {
        assert b[p].refs <= b.Keys && b[p].refs <= local;
        assert top in Manifests(c) && TextOf(c, top) == TextOf(b, top);
      }
    } else {
      assert b - gone == b;
    }
  }

  lemma PruneKeepsKept(b: Bucket, local: set<string>, keep: nat, gone: set<string>, k: nat)
    requires Typed(b) && Kept(b, k) && 1 <= keep && k <= keep
    requires gone <= Doomed(b, local, keep) && gone != {}
    ensures Typed(b - gone) && Kept(b - gone, k)
  {
    hide IsAsset, IsManifest, IsUnhashed, Listed, Less;
    var (c, ms) := (b - gone, Manifests(b));
    var ns := Manifests(c);
    assert ns == ms - gone;
    forall g | g in gone && g in ms ensures !Recent(ms, g, keep) {
      KeySpaces(g);
    }
    forall m, a | Recent(ns, m, k) && a in Listed(TextOf(c, m)) ensures a in c {
      RankAfterPrune(ms, gone, m, keep);
      assert Recent(ms, m, k) && TextOf(c, m) == TextOf(b, m);
      assert a in Referenced(b, local, keep);
      KeySpaces(a);
    }
  }

  /** After a pruning that got through, no manifest left in the bucket lists a missing asset. */
  lemma PruneSettles(b: Bucket, local: set<string>, keep: nat, n: nat)
    requires Sound(b, keep) && |Manifests(b)| >= keep >= 1
    ensures Kept(b - Doomed(b, local, keep), n)
    ensures forall m :: m in Manifests(b - Doomed(b, local, keep)) <==> Recent(Manifests(b), m, keep)
  {
    hide IsAsset, IsManifest, IsUnhashed, Listed, Less;
    var gone := Doomed(b, local, keep);
    var (c, ms) := (b - gone, Manifests(b));
    forall m ensures m in Manifests(c) <==> Recent(ms, m, keep) {
      KeySpaces(m);
    }
    forall m, a | Recent(Manifests(c), m, n) && a in Listed(TextOf(c, m)) ensures a in c {
      assert Recent(ms, m, keep) && TextOf(c, m) == TextOf(b, m);
      assert a in b && a in Referenced(b, local, keep);
      KeySpaces(a);
      assert IsAsset(a);
    }
  }

  /** Why no more than `keep` builds are promised: pruning deletes assets before manifests, so one that stops
      between the two can leave a manifest beyond the newest `keep` whose asset is gone. */
  lemma LostBeyondKeep(b: Bucket, local: set<string>, keep: nat, k: nat, m: string, a: string)
    requires Typed(b) && Recent(Manifests(b), m, k) && a in Listed(TextOf(b, m))
    requires a in Doomed(b, local, keep)
    ensures Recent(Manifests(b - {a}), m, k) && !Kept(b - {a}, k)
    ensures k > keep
  {
    hide IsAsset, IsManifest, IsUnhashed, Listed, Less;
    var c := b - {a};
    KeySpaces(a);
    assert IsAsset(a);
    SameManifests(b, c);
    assert a in Listed(TextOf(c, m)) && a !in c;
    assert a !in Referenced(b, local, keep);
    assert !Recent(Manifests(b), m, keep);
  }

  // ---- The script's own steps -----------------------------------------------

  predicate InNameOrder(s: seq<string>) {
    forall i, j :: 0 <= i < j < |s| ==> Less(s[i], s[j])
  }

  /** Python's `sorted` on distinct keys. */
  method SortKeys(keys: set<string>) returns (s: seq<string>)
    ensures InNameOrder(s)
    ensures forall key :: key in s <==> key in keys
  {
    hide Less;
    s := [];
    var rest := keys;
    while rest != {}
      invariant InNameOrder(s)
      invariant forall key :: key in keys <==> key in s || key in rest
      invariant forall i, key :: 0 <= i < |s| && key in rest ==> Less(s[i], key)
      decreases |rest|
    {
      var first := First(rest);
      s, rest := s + [first], rest - {first};
    }
  }

  method First(keys: set<string>) returns (first: string)
    requires keys != {}
    ensures first in keys && forall key :: key in keys && key != first ==> Less(first, key)
  {
    hide Less;
    first :| first in keys;
    var rest := keys - {first};
    while rest != {}
      invariant first in keys && first !in rest && rest <= keys
      invariant forall key :: key in keys - rest && key != first ==> Less(first, key)
      decreases |rest|
    {
      var key :| key in rest;
      rest := rest - {key};
      LessTotal(first, key);
      if Less(key, first) {
        forall other | other in keys - rest && other != key ensures Less(key, other) {
          if other != first {
            LessTrans(key, first, other);
          }
        }
        first := key;
      }
    }
  }

  function Elements(s: seq<string>): set<string> {
    set x | x in s
  }

  lemma ElementsConcat(s: seq<string>, t: seq<string>)
    ensures Elements(s + t) == Elements(s) + Elements(t)
  {
  }

  /** In name order, what follows a manifest is exactly the rest of the list. */
  lemma {:induction false} RankInOrder(s: seq<string>, i: nat)
    requires InNameOrder(s) && i < |s|
    ensures |Later(Elements(s), s[i])| == |s| - 1 - i
    decreases |s| - i
  {
    hide Less;
    var ms := Elements(s);
    LessIsStrict(s[i]);
    forall x | x in s ensures x in Later(ms, s[i]) <==> x in s[i + 1..] {
      var j :| 0 <= j < |s| && s[j] == x;
      if j < i {
        NotBoth(s[j], s[i]);
      } else if j > i {
        assert x == s[i + 1..][j - i - 1];
      }
      if x in s[i + 1..] {
        var l :| 0 <= l < |s| - i - 1 && s[i + 1..][l] == x;
        assert s[i + 1 + l] == x;
      }
    }
    if i + 1 < |s| {
      RankInOrder(s, i + 1);
      LessIsStrict(s[i + 1]);
      forall x | x in Later(ms, s[i + 1]) ensures x in Later(ms, s[i]) {
        LessTrans(s[i], s[i + 1], x);
      }
      forall x | x in Later(ms, s[i]) ensures x == s[i + 1] || x in Later(ms, s[i + 1]) {
        var j :| 0 <= j < |s| - i - 1 && s[i + 1..][j] == x;
        assert x == s[i + 1 + j];
      }
      assert Later(ms, s[i]) == Later(ms, s[i + 1]) + {s[i + 1]};
    } else {
      assert Later(ms, s[i]) == {};
    }
  }

  lemma NotBoth(a: string, b: string)
    requires Less(a, b)
    ensures !Less(b, a)
  {
    LessIsStrict(a);
    if Less(b, a) {
      LessTrans(a, b, a);
    }
  }

  /** So the slice `[-keep:]` of the sorted names is the newest `keep`. */
  lemma SliceIsRecent(s: seq<string>, keep: nat)
    requires InNameOrder(s) && |s| >= keep
    ensures forall m :: m in s[|s| - keep..] <==> Recent(Elements(s), m, keep)
    ensures forall m :: m in s[..|s| - keep] <==> m in s && !Recent(Elements(s), m, keep)
  {
    hide Less, InNameOrder;
    var cut := |s| - keep;
    assert forall i :: cut <= i < |s| ==> s[i] == s[cut..][i - cut];
    assert forall i :: 0 <= i < cut ==> s[i] == s[..cut][i];
    forall i | 0 <= i < |s| ensures Recent(Elements(s), s[i], keep) <==> i >= cut {
      RankInOrder(s, i);
    }
  }

  lemma {:induction false} ElementsCount(s: seq<string>)
    requires InNameOrder(s)
    ensures |Elements(s)| == |s|
  {
    if s == [] {
      assert Elements(s) == {};
    } else {
      RankInOrder(s, 0);
      LessIsStrict(s[0]);
      forall x | x in s && x != s[0] ensures Less(s[0], x) {
        var j :| 0 <= j < |s| && s[j] == x;
      }
      assert Elements(s) == Later(Elements(s), s[0]) + {s[0]};
    }
  }

  /** Outside the second pass's keys nothing differs. */
  ghost predicate SameOutside(b: Bucket, c: Bucket) {
    forall key :: !IsUnhashed(key) ==> (key in b <==> key in c) && (key in b ==> b[key] == c[key])
  }

  /** The bucket has exactly the build's pages, but for `puts` still to be written and `drops` still to be deleted. */
  ghost predicate PagesUpTo(b: Bucket, pages: map<string, set<string>>, puts: set<string>, drops: set<string>) {
    && (forall p :: p in pages && p !in puts ==> p in b && b[p] == Page(pages[p]))
    && (forall p :: p in b && IsUnhashed(p) ==> p in pages || p in drops)
    && (forall p :: p in drops ==> IsUnhashed(p) && p !in pages)
  }

  /** No page the build has is lost, each one is the build's or as it was, and nothing else is new or different. */
  ghost predicate PartlyLive(b: Bucket, c: Bucket, pages: map<string, set<string>>) {
    && (forall p :: p in b && p in pages ==> p in c)
    && (forall p :: p in c ==> (p in pages && c[p] == Page(pages[p])) || (p in b && c[p] == b[p]))
  }

  /** A second pass over `start` with `puts` and `drops` to come, on a bucket that has the build's assets recorded. */
  ghost predicate GoingLive(start: Bucket, b: Bucket, build: Build, puts: set<string>, drops: set<string>, k: nat) {
    && Sound(b, k) && Manifests(b) == Manifests(start)
    && build.assets <= b.Keys && Recorded(b, build.assets)
    && SameOutside(start, b) && PartlyLive(start, b, build.pages)
    && PagesUpTo(b, build.pages, puts, drops)
  }

  lemma NotYetLive(b: Bucket, build: Build, puts: set<string>, drops: set<string>, k: nat)
    requires Sound(b, k) && build.assets <= b.Keys && Recorded(b, build.assets)
    requires puts == set p | p in build.pages && !(p in b && b[p] == Page(build.pages[p]))
    requires drops == set p | p in b && IsUnhashed(p) && p !in build.pages
    ensures GoingLive(b, b, build, puts, drops, k)
  {
    hide IsUnhashed, Sound, Recorded;
  }

  lemma PutStep(start: Bucket, b: Bucket, build: Build, puts: set<string>, drops: set<string>, p: string, k: nat)
    requires GoingLive(start, b, build, puts, drops, k) && build.Valid() && p in build.pages
    ensures GoingLive(start, b[p := Page(build.pages[p])], build, puts - {p}, drops, k)
  {
    hide IsAsset, IsManifest, IsUnhashed, Listed, Less, Sound, Manifests, Recorded;
    var c := b[p := Page(build.pages[p])];
    RecordedLess(b, build.assets, build.pages[p]);
    PutPageKeeps(b, p, build.pages[p], k);
    PageStep(b, c, p, build.assets);
  }

  lemma DropStep(start: Bucket, b: Bucket, build: Build, puts: set<string>, drops: set<string>, p: string, k: nat)
    requires GoingLive(start, b, build, puts, drops, k) && build.Valid() && p in drops
    ensures GoingLive(start, b - {p}, build, puts, drops - {p}, k)
  {
    hide IsAsset, IsManifest, IsUnhashed, Listed, Less, Sound, Manifests, Recorded;
    DropPageKeeps(b, p, k);
    PageStep(b, b - {p}, p, build.assets);
  }

  /** The site bucket and the clock that names its manifests. */
  class Site {
    var bucket: Bucket
    var clock: Time

    /** `k` is the number of builds whose assets are promised to stay. */
    ghost predicate Valid(k: nat)
      reads this
    {
      Sound(bucket, k) && clock.Valid() && ClockAhead(bucket, clock)
    }

    static ghost predicate ClockAhead(b: Bucket, t: Time) {
      forall m :: m in Manifests(b) ==> m == ManifestKey(t) || Less(m, ManifestKey(t))
    }

    /** An empty bucket. */
    constructor (now: Time)
      requires now.Valid()
      ensures forall k :: Valid(k)
      ensures bucket == map[] && clock == now
    {
      bucket, clock := map[], now;
    }

    /** First sync pass: puts assets and never deletes. */
    method Upload(build: Build, ghost k: nat) returns (ok: bool, ghost sent: set<string>)
      requires Valid(k) && build.Valid()
      modifies this`bucket
      ensures Valid(k)
      ensures sent <= build.assets && (ok ==> sent == build.assets)
      ensures bucket == old(bucket) + map a | a in sent :: Asset
      ensures Manifests(bucket) == Manifests(old(bucket))
    {
      hide IsAsset, IsManifest, IsUnhashed, Listed, Less, Sound, Manifests;
      var todo := build.assets;
      sent := {};
      SentNone(bucket, sent);
      while todo != {}
        invariant todo + sent == build.assets
        invariant Valid(k) && Manifests(bucket) == Manifests(old(bucket))
        invariant bucket == old(bucket) + map a | a in sent :: Asset
        decreases |todo|
      {
        if * {
          return false, sent;
        }
        var a :| a in todo;
        todo := todo - {a};
        PutAssetKeeps(bucket, a, k);
        KeySpaces(a);
        ghost var before := bucket;
        bucket := bucket[a := Asset];
        SameManifestsAfterPut(before, a);
        SentOne(old(bucket), sent, a);
        sent := sent + {a};
      }
      return true, sent;
    }

    /** Writes the manifest of the build, named by the time. */
    method Record(build: Build, now: Time, ghost k: nat) returns (ok: bool)
      requires Valid(k) && build.Valid() && build.assets <= bucket.Keys
      requires now.Valid() && Before(clock, now)
      modifies this
      ensures Valid(k)
      ensures ok ==> build.assets != {} && clock == now
      ensures ok ==> Elements(Listed(TextOf(bucket, ManifestKey(now)))) == build.assets
      ensures ok ==> bucket == old(bucket)[ManifestKey(now) := Manifest(TextOf(bucket, ManifestKey(now)))]
      ensures ok ==> Later(Manifests(bucket), ManifestKey(now)) == {}
      ensures ok ==> |Manifests(bucket)| == |Manifests(old(bucket))| + 1
      ensures !ok ==> bucket == old(bucket) && clock == old(clock)
    {
      var stopped: bool := *;
      if build.assets == {} || stopped {
        return false;
      }
      var sorted := SortKeys(build.assets);
      var text := ManifestText(sorted);
      ManifestRoundTrip(sorted);
      hide IsAsset, IsManifest, IsUnhashed, Listed, Less, ManifestText, ManifestKey, Before;
      assert Elements(Listed(text)) == build.assets;
      var key := ManifestKey(now);
      ManifestOrder(clock, now);
      forall m | m in Manifests(bucket) ensures Less(m, key) {
        if m != ManifestKey(clock) {
          LessTrans(m, ManifestKey(clock), key);
        }
      }
      forall a | a in Listed(text) ensures a in bucket && IsAsset(a) {
        assert a in Elements(Listed(text));
      }
      PutManifestKeeps(bucket, key, text, k);
      NewestFirst(Manifests(bucket), key, key);
      bucket, clock := bucket[key := Manifest(text)], now;
      return true;
    }

    /** Second sync pass: puts the pages that changed and deletes those the build does not have, in any order. */
    method GoLive(build: Build, ghost k: nat) returns (ok: bool)
      requires Valid(k) && build.Valid()
      requires build.assets <= bucket.Keys && Recorded(bucket, build.assets)
      modifies this`bucket
      ensures Valid(k)
      ensures SameOutside(old(bucket), bucket) && PartlyLive(old(bucket), bucket, build.pages)
      ensures ok ==> PagesUpTo(bucket, build.pages, {}, {})
    {
      hide IsAsset, IsManifest, IsUnhashed, Listed, Less, Sound, Manifests, Recorded, SameOutside, PartlyLive, PagesUpTo, GoingLive;
      var puts := set p | p in build.pages && !(p in bucket && bucket[p] == Page(build.pages[p]));
      var drops := set p | p in bucket && IsUnhashed(p) && p !in build.pages;
      NotYetLive(bucket, build, puts, drops, k);
      while puts + drops != {}
        invariant puts <= build.pages.Keys
        invariant GoingLive(old(bucket), bucket, build, puts, drops, k)
        decreases |puts| + |drops|
      {
        if * {
          WentLive(old(bucket), bucket, build, puts, drops, k);
          return false;
        }
        var p :| p in puts + drops;
        if p in puts {
          PutStep(old(bucket), bucket, build, puts, drops, p, k);
          puts := puts - {p};
          bucket := bucket[p := Page(build.pages[p])];
        } else {
          DropStep(old(bucket), bucket, build, puts, drops, p, k);
          drops := drops - {p};
          bucket := bucket - {p};
        }
      }
      assert puts == {} && drops == {};
      WentLive(old(bucket), bucket, build, puts, drops, k);
      return true;
    }

    /** Deletes in batches of 1000. S3 may delete any part of a batch and report errors for the rest. */
    method DeleteKeys(keys: seq<string>) returns (ok: bool, ghost gone: set<string>)
      modifies this`bucket
      ensures gone <= Elements(keys) && (ok ==> gone == Elements(keys))
      ensures bucket == old(bucket) - gone
    {
      gone := {};
      var i := 0;
      while i < |keys|
        invariant 0 <= i <= |keys|
        invariant gone == Elements(keys[..i])
        invariant bucket == old(bucket) - gone
      {
        var end := if i + 1000 <= |keys| then i + 1000 else |keys|;
        var batch := keys[i..end];
        var refused: set<string> := *;
        var done := Elements(batch) - refused;
        bucket := bucket - done;
        gone := gone + done;
        assert keys == keys[..i] + batch + keys[end..];
        ElementsConcat(keys[..i], batch);
        ElementsConcat(keys[..i] + batch, keys[end..]);
        if done != Elements(batch) {
          return false, gone;
        }
        assert keys[..end] == keys[..i] + batch;
        i := end;
      }
      assert keys[..i] == keys;
      return true, gone;
    }

    /** Deletes what the newest `keep` manifests and the local build do not reference. */
    method Prune(build: Build, keep: nat) returns (ok: bool, ghost gone: set<string>)
      requires Typed(bucket) && keep >= 1
      modifies this`bucket
      ensures gone <= Doomed(old(bucket), build.assets, keep)
      ensures bucket == old(bucket) - gone
      ensures ok ==> build.assets != {} && gone == Doomed(old(bucket), build.assets, keep)
      ensures ok && |Manifests(old(bucket))| >= keep ==> |Manifests(bucket)| == keep && LeftExactly(old(bucket), bucket, build)
      ensures |Manifests(old(bucket))| < keep ==> bucket == old(bucket)
    {
      hide IsAsset, IsManifest, IsUnhashed, Listed, Less, Typed, InNameOrder;
      gone := {};
      assert bucket == old(bucket) - gone;
      var stopped: bool := *;
      if build.assets == {} || stopped {
        return false, gone;
      }
      var referenced := build.assets;
      var manifests := SortKeys(set m | m in bucket && IsManifest(m));
      assert Elements(manifests) == Manifests(bucket);
      ElementsCount(manifests);
      if |manifests| < keep {
        return true, gone;
      }
      var kept, expired := manifests[|manifests| - keep..], manifests[..|manifests| - keep];
      SliceIsRecent(manifests, keep);
      var i := 0;
      while i < |kept|
        invariant 0 <= i <= |kept| && bucket == old(bucket)
        invariant forall a :: a in referenced <==> a in build.assets || exists j :: 0 <= j < i && a in Listed(TextOf(bucket, kept[j]))
      {
        if * {
          return false, gone;
        }
        referenced := referenced + set a | a in Listed(TextOf(bucket, kept[i]));
        i := i + 1;
      }
      ReferencedByKept(bucket, build.assets, keep, kept, referenced);
      var stale := SortKeys(set a | a in bucket && IsAsset(a) && a !in referenced);
      ok, gone := DeleteKeys(stale + expired);
      assert Elements(stale + expired) == Doomed(old(bucket), build.assets, keep);
      InOrderTail(manifests, |manifests| - keep);
      PruneLeaves(old(bucket), build, keep, kept);
    }
  }

  /** The manifests left are newer than those gone, and the assets left are those of the build and those that a manifest
      still there lists. */
  ghost predicate LeftExactly(b: Bucket, c: Bucket, build: Build) {
    && (forall m, g :: m in Manifests(c) && g in Manifests(b) && g !in Manifests(c) ==> Less(g, m))
    && (forall a :: a in b && IsAsset(a) ==>
          (a in c <==> a in build.assets || exists m :: m in Manifests(c) && a in Listed(TextOf(c, m))))
  }

  /** No asset is left that neither the build nor a manifest lists. */
  ghost predicate NoneStale(b: Bucket, build: Build) {
    forall a :: a in b && IsAsset(a) ==> a in build.assets || exists m :: m in Manifests(b) && a in Listed(TextOf(b, m))
  }

  lemma LeftNotStale(b: Bucket, c: Bucket, build: Build)
    requires LeftExactly(b, c, build) && c.Keys <= b.Keys
    ensures NoneStale(c, build)
  {
    hide IsAsset, IsManifest, Listed, Less;
  }

  /** From the slice of kept names to what a complete pruning leaves. */
  lemma PruneLeaves(b: Bucket, build: Build, keep: nat, kept: seq<string>)
    requires |Manifests(b)| >= keep >= 1 && |kept| == keep && InNameOrder(kept)
    requires forall m :: m in kept <==> Recent(Manifests(b), m, keep)
    ensures var c := b - Doomed(b, build.assets, keep);
      |Manifests(c)| == keep && LeftExactly(b, c, build)
  {
    hide IsAsset, IsManifest, IsUnhashed, Listed, Less, InNameOrder;
    var c := b - Doomed(b, build.assets, keep);
    forall m ensures m in Manifests(c) <==> m in kept {
      KeySpaces(m);
    }
    assert Manifests(c) == Elements(kept);
    ElementsCount(kept);
    forall m, g | m in Manifests(c) && g in Manifests(b) && g !in Manifests(c) ensures Less(g, m) {
      RecentIsNewer(Manifests(b), m, g, keep);
    }
    forall a | a in b && IsAsset(a)
      ensures a in c <==> a in build.assets || exists m :: m in Manifests(c) && a in Listed(TextOf(c, m))
    {
      KeySpaces(a);
      if m :| m in Manifests(c) && a in Listed(TextOf(c, m)) {
        assert TextOf(c, m) == TextOf(b, m) && a in Referenced(b, build.assets, keep);
      }
      if a in Referenced(b, build.assets, keep) && a !in build.assets {
        var m :| m in Manifests(b) && Recent(Manifests(b), m, keep) && a in Listed(TextOf(b, m));
        assert m in Manifests(c) && TextOf(c, m) == TextOf(b, m);
      }
    }
  }

  lemma RecentIsNewer(ms: set<string>, m: string, g: string, keep: nat)
    requires Recent(ms, m, keep) && g in ms && !Recent(ms, g, keep)
    ensures Less(g, m)
  {
    hide Less;
    LessTotal(m, g);
    if Less(m, g) {
      LaterShrinks(ms, m, g);
      CardinalitySubset(Later(ms, g), Later(ms, m));
    }
  }

  lemma InOrderTail(s: seq<string>, n: nat)
    requires InNameOrder(s) && n <= |s|
    ensures InNameOrder(s[n..])
  {
    hide Less;
  }

  lemma WentLive(start: Bucket, b: Bucket, build: Build, puts: set<string>, drops: set<string>, k: nat)
    requires GoingLive(start, b, build, puts, drops, k)
    ensures Sound(b, k) && Manifests(b) == Manifests(start)
    ensures SameOutside(start, b) && PartlyLive(start, b, build.pages) && PagesUpTo(b, build.pages, puts, drops)
  {
  }

  lemma SentNone(b: Bucket, none: set<string>)
    requires none == {}
    ensures b == b + map a | a in none :: Asset
  {
  }

  lemma SentOne(b: Bucket, sent: set<string>, a: string)
    ensures (b + map x | x in sent :: Asset)[a := Asset] == b + map x | x in sent + {a} :: Asset
  {
  }

  lemma SameManifestsAfterPut(b: Bucket, key: string)
    requires IsAsset(key)
    ensures Manifests(b[key := Asset]) == Manifests(b)
  {
    KeySpaces(key);
    hide IsAsset, IsManifest;
  }

  /** Writing or dropping one page changes neither assets nor manifests. */
  lemma PageStep(b: Bucket, c: Bucket, p: string, assets: set<string>)
    requires IsUnhashed(p) && forall key :: key != p ==> (key in b <==> key in c) && (key in b ==> b[key] == c[key])
    requires assets <= b.Keys && Recorded(b, assets) && forall a :: a in assets ==> IsAsset(a)
    ensures assets <= c.Keys && Recorded(c, assets) && Manifests(c) == Manifests(b)
  {
    hide IsAsset, IsManifest, IsUnhashed, Listed;
    KeySpaces(p);
    SameManifests(b, c);
    StillRecorded(b, c, assets);
  }

  lemma RecordedLess(b: Bucket, refs: set<string>, fewer: set<string>)
    requires Recorded(b, refs) && fewer <= refs
    ensures Recorded(b, fewer)
  {
    var m :| m in Manifests(b) && forall a :: a in refs ==> a in Listed(TextOf(b, m));
  }

  lemma ReferencedByKept(b: Bucket, local: set<string>, keep: nat, kept: seq<string>, referenced: set<string>)
    requires forall m :: m in kept <==> Recent(Manifests(b), m, keep)
    requires forall a :: a in referenced <==> a in local || exists j :: 0 <= j < |kept| && a in Listed(TextOf(b, kept[j]))
    ensures referenced == Referenced(b, local, keep)
  {
    hide IsManifest, Listed, Less, Later;
    forall a | a in referenced ensures a in Referenced(b, local, keep) {
      if a !in local {
        var j :| 0 <= j < |kept| && a in Listed(TextOf(b, kept[j]));
        assert kept[j] in kept;
      }
    }
    forall a | a in Referenced(b, local, keep) ensures a in referenced {
      if a !in local {
        var m :| m in Manifests(b) && Recent(Manifests(b), m, keep) && a in Listed(TextOf(b, m));
        assert m in kept;
      }
    }
  }

  // ---- Runs of publishes ----------------------------------------------------

  datatype Publishing = Publishing(build: Build, now: Time, keep: nat)

  /** The key is a page or an asset the build does not have, or a manifest that at least `keep - 1` others follow. */
  ghost predicate Spent(b: Bucket, build: Build, keep: nat, key: string)
    requires keep >= 1
  {
    || (IsUnhashed(key) && key !in build.pages)
    || (IsAsset(key) && key !in build.assets)
    || (IsManifest(key) && !Recent(Manifests(b), key, keep - 1))
  }

  /** Only spent keys went from `b` to `c`. */
  ghost predicate OnlySpent(b: Bucket, c: Bucket, build: Build, keep: nat)
    requires keep >= 1
  {
    forall key :: key in b && key !in c ==> Spent(b, build, keep, key)
  }

  /** One publish. Wherever it stops, only spent keys are gone and the bucket is sound; if it gets through,
      the live pages are the build's and all its assets are there. */
  method Publish(site: Site, job: Publishing, ghost k: nat) returns (ok: bool)
    requires site.Valid(k) && job.build.Valid()
    requires job.now.Valid() && Before(site.clock, job.now)
    requires 1 <= job.keep && k <= job.keep
    modifies site
    ensures site.Valid(k)
    ensures site.clock == old(site.clock) || site.clock == job.now
    ensures OnlySpent(old(site.bucket), site.bucket, job.build, job.keep)
    ensures ok ==> job.build.assets <= site.bucket.Keys
    ensures ok ==> PagesUpTo(site.bucket, job.build.pages, {}, {})
    ensures ok && |Manifests(old(site.bucket))| + 1 >= job.keep ==>
      |Manifests(site.bucket)| == job.keep && NoneStale(site.bucket, job.build)
  {
    hide IsAsset, IsManifest, IsUnhashed, Listed, Less, Sound, Before, Manifests, SameOutside, PartlyLive, PagesUpTo, Doomed;
    var b := job.build;
    ghost var sent, start := {}, site.bucket;
    ok, sent := site.Upload(b, k);
    if !ok {
      return;
    }
    ghost var uploaded := site.bucket;
    ok := site.Record(b, job.now, k);
    if !ok {
      return;
    }
    ghost var (recorded, top) := (site.bucket, ManifestKey(job.now));
    TopListed(recorded, b.assets, top);
    ok := site.GoLive(b, k);
    ghost var live := site.bucket;
    RemovedByGoLive(start, uploaded, recorded, live, sent, top, b, job.keep);
    // Invalidating the cache changes nothing in the bucket.
    var invalidated: bool := *;
    if !ok || !invalidated {
      return false;
    }
    SoundIsTyped(live, k);
    ghost var gone;
    ok, gone := site.Prune(b, job.keep);
    TopStays(recorded, live, b.assets, top);
    PublishPruned(live, b, job.keep, gone, top, k);
    RemovedByPrune(start, live, top, b, job.keep, gone);
    if ok && |Manifests(live)| >= job.keep {
      LeftNotStale(live, site.bucket, b);
    }
  }

  lemma TopListed(b: Bucket, assets: set<string>, top: string)
    requires top in b && IsManifest(top) && Elements(Listed(TextOf(b, top))) == assets
    ensures Recorded(b, assets)
    ensures top in Manifests(b) && forall a :: a in assets ==> a in Listed(TextOf(b, top))
  {
    hide IsManifest, Listed;
    forall a | a in assets ensures a in Listed(TextOf(b, top)) {
      assert a in Elements(Listed(TextOf(b, top)));
    }
    assert top in Manifests(b);
  }

  lemma TopStays(b: Bucket, c: Bucket, assets: set<string>, top: string)
    requires SameOutside(b, c) && assets <= b.Keys && forall a :: a in assets ==> IsAsset(a)
    ensures Manifests(c) == Manifests(b) && forall m :: m in Manifests(b) ==> TextOf(c, m) == TextOf(b, m)
    ensures assets <= c.Keys
  {
    hide IsAsset, IsManifest, IsUnhashed;
    forall key ensures IsManifest(key) || IsAsset(key) ==> !IsUnhashed(key) {
      KeySpaces(key);
    }
    SameManifests(b, c);
  }

  lemma RemovedByGoLive(start: Bucket, uploaded: Bucket, recorded: Bucket, live: Bucket, sent: set<string>, top: string, b: Build, keep: nat)
    requires uploaded == start + map a | a in sent :: Asset
    requires recorded.Keys == uploaded.Keys + {top} && IsManifest(top)
    requires SameOutside(recorded, live) && PartlyLive(recorded, live, b.pages)
    requires b.Valid() && sent <= b.assets && keep >= 1
    ensures OnlySpent(start, live, b, keep)
    ensures Manifests(live) <= Manifests(start) + {top}
    ensures start.Keys <= live.Keys + set p | p in start && IsUnhashed(p) && p !in b.pages
  {
    hide IsAsset, IsManifest, IsUnhashed;
    forall a | a in sent ensures !IsManifest(a) {
      KeySpaces(a);
    }
    forall m | m in Manifests(live) ensures m in Manifests(start) + {top} {
      KeySpaces(m);
    }
  }

  lemma RemovedByPrune(start: Bucket, live: Bucket, top: string, b: Build, keep: nat, gone: set<string>)
    requires keep >= 1 && gone <= Doomed(live, b.assets, keep) && b.Valid()
    requires Manifests(live) <= Manifests(start) + {top}
    requires start.Keys <= live.Keys + set p | p in start && IsUnhashed(p) && p !in b.pages
    ensures OnlySpent(start, live - gone, b, keep)
  {
    hide IsAsset, IsManifest, IsUnhashed;
    forall key | key in start && key !in live - gone
      ensures Spent(start, b, keep, key)
    {
      if key in gone && key in Manifests(live) && !Recent(Manifests(live), key, keep) {
        RankBeforeRecord(Manifests(start), Manifests(live), top, key, keep);
      }
    }
  }

  lemma SoundIsTyped(b: Bucket, k: nat)
    requires Sound(b, k)
    ensures Typed(b)
  {
  }

  /** A manifest outside the newest `keep` was outside the newest `keep - 1` before the last one was added. */
  lemma RankBeforeRecord(ms: set<string>, ns: set<string>, top: string, key: string, keep: nat)
    requires keep >= 1 && key in ns && !Recent(ns, key, keep) && ns <= ms + {top}
    ensures !Recent(ms, key, keep - 1)
  {
    hide Less;
    assert Later(ns, key) <= Later(ms, key) + {top};
    CardinalitySubset(Later(ns, key), Later(ms, key) + {top});
  }

  /** The state in which a publish prunes meets what pruning needs. */
  lemma PublishPruned(live: Bucket, b: Build, keep: nat, gone: set<string>, top: string, k: nat)
    requires Sound(live, k) && b.Valid() && 1 <= keep && k <= keep
    requires gone <= Doomed(live, b.assets, keep)
    requires top in Manifests(live) && Later(Manifests(live), top) == {}
    requires forall a :: a in b.assets ==> a in Listed(TextOf(live, top))
    requires b.assets <= live.Keys && PagesUpTo(live, b.pages, {}, {})
    ensures Sound(live - gone, k) && Manifests(live - gone) <= Manifests(live)
    ensures b.assets <= (live - gone).Keys && PagesUpTo(live - gone, b.pages, {}, {})
  {
    hide IsAsset, IsManifest, IsUnhashed, Listed, Less;
    forall p | p in live && live[p].Page? ensures live[p].refs <= b.assets {
      assert IsUnhashed(p);
    }
    PruneKeeps(live, b.assets, keep, gone, top, k);
    forall a | a in gone ensures a !in b.assets && !IsUnhashed(a) {
      KeySpaces(a);
    }
  }

  predicate NotAfter(a: Time, b: Time) {
    a == b || Before(a, b)
  }

  lemma BeforeTrans(a: Time, b: Time, c: Time)
    requires NotAfter(a, b) && Before(b, c)
    ensures Before(a, c)
  {
  }

  /** Any number of publishes, each of which may stop anywhere, and each with its own `keep`. */
  method PublishAll(site: Site, jobs: seq<Publishing>, ghost k: nat)
    requires site.Valid(k)
    requires forall i :: 0 <= i < |jobs| ==> jobs[i].build.Valid() && jobs[i].now.Valid() && 1 <= jobs[i].keep && k <= jobs[i].keep
    requires jobs != [] ==> Before(site.clock, jobs[0].now)
    requires forall i :: 0 < i < |jobs| ==> Before(jobs[i - 1].now, jobs[i].now)
    modifies site
    ensures site.Valid(k)
  {
    hide Before;
    ghost var latest := site.clock;
    for i := 0 to |jobs|
      invariant site.Valid(k) && NotAfter(site.clock, latest)
      invariant i < |jobs| ==> Before(latest, jobs[i].now)
    {
      BeforeTrans(site.clock, latest, jobs[i].now);
      var _ := Publish(site, jobs[i], k);
      latest := jobs[i].now;
    }
  }
}
