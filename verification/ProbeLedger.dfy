/** The scaling probe's clean-up: every function, staged zip and image tag it learns it has created is deleted
    once, by the creator itself or by the teardown of the ledger, whatever step fails. */
module ProbeLedger {
  import opened Text
  import opened Wrappers
  import Config

  datatype Resource = Function(name: string) | Zip(key: string) | Image(tag: string)

  /** How a create call ends: done, refused because the new role has not propagated, or any other error. */
  datatype CreateReply = Done | RoleNotReady | Failed

  const ROLE_PROPAGATION_MAX_ATTEMPTS := 30

  /** What happens at one step of a run: the reply, and whether a create that was answered `Failed` landed all the same. */
  datatype Answer = Answer(reply: CreateReply, landed: bool)

  /** The account, and everything else that can fail, as an adversary who has written down all answers beforehand. */
  class Cloud {
    const script: nat -> Answer
    var at: nat                             // answers given so far
    ghost var made: multiset<Resource>      // what exists or existed through this run
    ghost var acked: multiset<Resource>     // creations that were answered Done
    ghost var lost: seq<Resource>           // creations that landed but were answered Failed
    ghost var deleted: multiset<Resource>   // delete calls started
    ghost var creates: nat                  // create calls started

    ghost predicate Valid()
      reads this`made, this`acked, this`lost
    {
      made == acked + multiset(lost)
    }

    constructor (script: nat -> Answer)
      ensures Valid() && made == acked == deleted == multiset{} && lost == [] && creates == 0
      ensures this.script == script && at == 0
    {
      this.script, at := script, 0;
      made, acked, lost, deleted, creates := multiset{}, multiset{}, [], multiset{}, 0;
    }

    method Create(r: Resource) returns (reply: CreateReply)
      requires Valid()
      modifies this
      ensures Valid() && creates == old(creates) + 1 && deleted == old(deleted) && at == old(at) + 1
      ensures reply == script(old(at)).reply
      ensures acked == if reply.Done? then old(acked) + multiset{r} else old(acked)
      ensures lost == if script(old(at)) == Answer(Failed, true) then old(lost) + [r] else old(lost)
    {
      var answer := script(at);
      creates, at := creates + 1, at + 1;
      MadeMore(acked, lost, r);
      if answer.reply.Done? {
        made, acked := made + multiset{r}, acked + multiset{r};
      } else if answer == Answer(Failed, true) {
        made, lost := made + multiset{r}, lost + [r];
      }
      return answer.reply;
    }

    /** Anything that creates nothing and may fail: a build, a readiness wait, sampling, writing a file. */
    method Try() returns (ok: bool)
      modifies this`at
      ensures ok == script(old(at)).reply.Done? && at == old(at) + 1
      ensures !ok ==> NotDone(script, old(at), at)
    {
      ok := script(at).reply.Done?;
      at := at + 1;
    }

    method Delete(r: Resource) returns (ok: bool)
      requires Valid()
      modifies this`deleted, this`at
      ensures Valid() && deleted == old(deleted) + multiset{r} && at == old(at) + 1
    {
      deleted := deleted + multiset{r};
      ok := Try();
    }
  }

  lemma MadeMore(acked: multiset<Resource>, lost: seq<Resource>, r: Resource)
    ensures acked + multiset(lost) + multiset{r} == acked + multiset{r} + multiset(lost)
    ensures acked + multiset(lost) + multiset{r} == acked + multiset(lost + [r])
  {
  }

  /** Everything acknowledged is deleted, except what is `held` for a later teardown. */
  ghost predicate Balanced(cloud: Cloud, held: multiset<Resource>)
    reads cloud`made, cloud`acked, cloud`lost, cloud`deleted
  {
    cloud.Valid() && cloud.acked == cloud.deleted + held
  }

  /** Some step in between was not answered `Done`. */
  ghost predicate NotDone(script: nat -> Answer, from: nat, to: nat) {
    exists k :: from <= k < to && !script(k).reply.Done?
  }

  lemma NotDoneWithin(script: nat -> Answer, a: nat, b: nat, c: nat, d: nat)
    requires a <= b && c <= d && NotDone(script, b, c)
    ensures NotDone(script, a, d)
  {
    var k :| b <= k < c && !script(k).reply.Done?;
  }

  /** One create call. */
  method Make(cloud: Cloud, r: Resource, ghost held: multiset<Resource>) returns (reply: CreateReply)
    requires Balanced(cloud, held)
    modifies cloud
    ensures Balanced(cloud, if reply.Done? then held + multiset{r} else held)
    ensures cloud.creates == old(cloud.creates) + 1 && cloud.deleted == old(cloud.deleted) && cloud.at == old(cloud.at) + 1
    ensures reply == cloud.script(old(cloud.at)).reply
    ensures !reply.Done? ==> NotDone(cloud.script, old(cloud.at), cloud.at)
    ensures cloud.lost == if cloud.script(old(cloud.at)) == Answer(Failed, true) then old(cloud.lost) + [r] else old(cloud.lost)
  {
    reply := cloud.Create(r);
    if reply.Done? {
      assert old(cloud.acked) + multiset{r} == cloud.deleted + (held + multiset{r});
    }
  }

  /** Create call `k` succeeds, and all before it were refused for the role. */
  ghost predicate CreatedAt(script: nat -> Answer, at: nat, k: nat) {
    script(at + k).reply.Done? && forall j: nat :: j < k ==> Refused(script, at, j)
  }

  predicate Refused(script: nat -> Answer, at: nat, j: nat) {
    script(at + j).reply.RoleNotReady?
  }

  /** Refusals up to call `n`, and then another error, or nothing but refusals. */
  lemma NotCreated(script: nat -> Answer, at: nat, n: nat)
    requires forall j: nat :: j < n ==> Refused(script, at, j)
    requires !script(at + n).reply.Done? && (Refused(script, at, n) ==> n + 1 == 30)
    ensures forall k: nat :: k < 30 ==> !CreatedAt(script, at, k)
  {
    forall k: nat | k < 30 ensures !CreatedAt(script, at, k) {
      assert k < n ==> Refused(script, at, k);
    }
  }

  /** At most 30 create calls; the creation is acknowledged exactly when this returns true, and it does exactly when one
      of the calls succeeds with only refusals for the role before it. */
  method RetryCreateRolePropagation(cloud: Cloud, r: Resource, ghost held: multiset<Resource>) returns (ok: bool)
    requires Balanced(cloud, held)
    modifies cloud
    ensures Balanced(cloud, if ok then held + multiset{r} else held)
    ensures ok <==> exists k: nat :: k < 30 && CreatedAt(cloud.script, old(cloud.at), k)
    ensures cloud.script(old(cloud.at)) == Answer(Failed, true) ==> !ok && cloud.lost == old(cloud.lost) + [r]
    ensures old(cloud.creates) < cloud.creates <= old(cloud.creates) + ROLE_PROPAGATION_MAX_ATTEMPTS
    ensures old(cloud.at) < cloud.at && (!ok ==> NotDone(cloud.script, old(cloud.at), cloud.at))
    ensures ok ==> cloud.deleted == old(cloud.deleted)
  {
    hide Balanced;
    var attempt := 0;
    while true
      invariant Balanced(cloud, held) && cloud.deleted == old(cloud.deleted)
      invariant if attempt == 0 then cloud.at == old(cloud.at) && cloud.lost == old(cloud.lost)
        else cloud.script(old(cloud.at)) != Answer(Failed, true)
      invariant cloud.at == old(cloud.at) + attempt
      invariant forall j: nat :: j < attempt ==> Refused(cloud.script, old(cloud.at), j)
      invariant 0 <= attempt < ROLE_PROPAGATION_MAX_ATTEMPTS && cloud.creates == old(cloud.creates) + attempt
      decreases ROLE_PROPAGATION_MAX_ATTEMPTS - attempt
    {
      attempt := attempt + 1;
      var reply := Make(cloud, r, held);
      if reply.Done? {
        assert CreatedAt(cloud.script, old(cloud.at), attempt - 1);
        return true;
      }
      if reply.RoleNotReady? && attempt < ROLE_PROPAGATION_MAX_ATTEMPTS {
        continue;
      }
      NotCreated(cloud.script, old(cloud.at), attempt - 1);
      assert !cloud.script(cloud.at - 1).reply.Done?;
      return false;
    }
  }

  function StagedKey(name: string): string {
    "lambda-code/" + name + ".zip"
  }

  /** The zip is staged, and then the function is created although the call fails. */
  predicate LosesFunction(script: nat -> Answer, at: nat) {
    script(at).reply.Done? && script(at + 1) == Answer(Failed, true)
  }

  /** Creates the function and hands back its staged zip, or leaves nothing acknowledged behind. */
  method CreateFunctionFromZip(cloud: Cloud, name: string, ghost held: multiset<Resource>) returns (r: Result<string>)
    requires Balanced(cloud, held)
    modifies cloud
    ensures r.Success? ==> r.value == StagedKey(name) && Balanced(cloud, held + multiset{Function(name), Zip(r.value)})
    ensures r.Success? ==> cloud.deleted == old(cloud.deleted)
    ensures r.Failure? ==> Balanced(cloud, held)
    ensures old(cloud.at) < cloud.at && (r.Failure? ==> NotDone(cloud.script, old(cloud.at), cloud.at))
    ensures LosesFunction(cloud.script, old(cloud.at)) ==> r.Failure? && cloud.lost == old(cloud.lost) + [Function(name)]
  {
    var key := StagedKey(name);
    hide Balanced, NotDone;
    var staged := Make(cloud, Zip(key), held);
    if !staged.Done? {
      NotDoneWithin(cloud.script, old(cloud.at), cloud.at - 1, cloud.at, cloud.at);
      return Failure;
    }
    ghost var stagedAt := cloud.at;
    var created := RetryCreateRolePropagation(cloud, Function(name), held + multiset{Zip(key)});
    ghost var createdAt := cloud.at;
    if !created {
      Release(cloud, Zip(key), held);
      NotDoneWithin(cloud.script, old(cloud.at), stagedAt, createdAt, cloud.at);
      return Failure;
    }
    var ready := cloud.Try();
    if !ready {
      Release(cloud, Function(name), held + multiset{Zip(key)});
      Release(cloud, Zip(key), held);
      NotDoneWithin(cloud.script, old(cloud.at), createdAt, createdAt + 1, cloud.at);
      return Failure;
    }
    assert held + multiset{Zip(key)} + multiset{Function(name)} == held + multiset{Function(name), Zip(key)};
    return Success(key);
  }

  /** Creates the function, or leaves nothing acknowledged behind. */
  method CreateFunctionFromImage(cloud: Cloud, name: string, ghost held: multiset<Resource>) returns (ok: bool)
    requires Balanced(cloud, held)
    modifies cloud
    ensures Balanced(cloud, if ok then held + multiset{Function(name)} else held)
    ensures ok ==> cloud.deleted == old(cloud.deleted)
    ensures old(cloud.at) < cloud.at && (!ok ==> NotDone(cloud.script, old(cloud.at), cloud.at))
  {
    hide NotDone;
    ok := RetryCreateRolePropagation(cloud, Function(name), held);
    if !ok {
      return;
    }
    ghost var createdAt := cloud.at;
    ok := cloud.Try();
    if !ok {
      var _ := cloud.Delete(Function(name));
      NotDoneWithin(cloud.script, old(cloud.at), createdAt, createdAt + 1, cloud.at);
    }
  }

  // ---- Zip families ---------------------------------------------------------

  function SynthFunctionName(family: string, sizeMb: nat): string {
    "lambdabench-synthdl-" + family + "-" + NatToString(sizeMb) + "mb"
  }

  /** Different families or sizes have different functions, and none of them is a cell's. */
  lemma NamesApart(family: string, mb: nat, other: string, otherMb: nat, cell: Config.Cell)
    ensures SynthFunctionName(family, mb) == SynthFunctionName(other, otherMb) ==> family == other && mb == otherMb
    ensures SynthFunctionName(family, mb) != cell.FunctionName()
  {
    var stem := "lambdabench-synthdl-";
    var (s, t) := (stem + family + "-", stem + other + "-");
    var (a, b) := (s + NatToString(mb), t + NatToString(otherMb));
    assert SynthFunctionName(family, mb) == a + "mb" && SynthFunctionName(other, otherMb) == b + "mb";
    CellNameStarts(cell);
    assert SynthFunctionName(family, mb)[12] == 's';
    hide NatToString;
    if a + "mb" == b + "mb" {
      assert a == (a + "mb")[..|a|] && b == (b + "mb")[..|b|];
      TrailingNumeral(s, mb, t, otherMb);
      assert family == s[|stem|..|s| - 1] && other == t[|stem|..|t| - 1];
    }
  }

  lemma CellNameStarts(cell: Config.Cell)
    ensures |cell.FunctionName()| > 12 && cell.FunctionName()[12] == cell.lang.AsStr()[0]
  {
    hide NatToString;
    var parts := cell.NameParts();
    assert parts[0] == "lambdabench" && parts[1] == cell.lang.AsStr();
    assert Join(parts, '-') == parts[0] + ['-'] + (parts[1] + ['-'] + Join(parts[1..][1..], '-'));
  }

  /** What a list of (function, staged key) stands for. */
  ghost function HeldZips(created: seq<(string, string)>): multiset<Resource> {
    if created == [] then multiset{}
    else multiset{Function(created[0].0)} + (multiset{Zip(created[0].1)} + HeldZips(created[1..]))
  }

  ghost function HeldFunctions(names: seq<string>): multiset<Resource> {
    if names == [] then multiset{} else multiset{Function(names[0])} + HeldFunctions(names[1..])
  }

  ghost function HeldImages(tags: seq<string>): multiset<Resource> {
    if tags == [] then multiset{} else multiset{Image(tags[0])} + HeldImages(tags[1..])
  }

  lemma {:induction false} HeldZipsPush(created: seq<(string, string)>, name: string, key: string)
    ensures HeldZips(created + [(name, key)]) == HeldZips(created) + multiset{Function(name), Zip(key)}
  {
    if created != [] {
      assert (created + [(name, key)])[1..] == created[1..] + [(name, key)];
      HeldZipsPush(created[1..], name, key);
    }
  }

  lemma {:induction false} HeldFunctionsPush(names: seq<string>, name: string)
    ensures HeldFunctions(names + [name]) == HeldFunctions(names) + multiset{Function(name)}
  {
    if names != [] {
      assert (names + [name])[1..] == names[1..] + [name];
      HeldFunctionsPush(names[1..], name);
    }
  }

  lemma {:induction false} HeldImagesPush(tags: seq<string>, tag: string)
    ensures HeldImages(tags + [tag]) == HeldImages(tags) + multiset{Image(tag)}
  {
    if tags != [] {
      assert (tags + [tag])[1..] == tags[1..] + [tag];
      HeldImagesPush(tags[1..], tag);
    }
  }

  /** Deletes one held resource. Whether the call succeeds does not matter: it is started. */
  method Release(cloud: Cloud, r: Resource, ghost held: multiset<Resource>)
    requires Balanced(cloud, held + multiset{r})
    modifies cloud
    ensures Balanced(cloud, held)
    ensures cloud.acked == old(cloud.acked) && cloud.lost == old(cloud.lost) && cloud.at == old(cloud.at) + 1
  {
    var _ := cloud.Delete(r);
  }

  lemma Front(held: multiset<Resource>, r: Resource, rest: multiset<Resource>)
    ensures held + (multiset{r} + rest) == held + rest + multiset{r}
  {
  }

  lemma Back(held: multiset<Resource>, a: multiset<Resource>, r: Resource)
    ensures held + a + multiset{r} == held + (a + multiset{r})
  {
  }

  /** The list of created (function, staged key) pairs. */
  class ZipLedger {
    var created: seq<(string, string)>

    constructor ()
      ensures created == []
    {
      created := [];
    }

    method Push(name: string, key: string)
      modifies this
      ensures created == old(created) + [(name, key)]
      ensures HeldZips(created) == HeldZips(old(created)) + multiset{Function(name), Zip(key)}
    {
      HeldZipsPush(created, name, key);
      created := created + [(name, key)];
    }
  }

  /** One size of one family: built, created, entered in the ledger, sampled. */
  method SampleOne(cloud: Cloud, family: string, mb: nat, ledger: ZipLedger, ghost held: multiset<Resource>) returns (ok: bool)
    requires Balanced(cloud, held + HeldZips(ledger.created))
    modifies cloud, ledger
    ensures Balanced(cloud, held + HeldZips(ledger.created))
    ensures old(cloud.at) < cloud.at && (!ok ==> NotDone(cloud.script, old(cloud.at), cloud.at))
    ensures LosesBuilt(cloud.script, old(cloud.at)) ==>
      !ok && cloud.lost == old(cloud.lost) + [Function(SynthFunctionName(family, mb))]
  {
    hide Balanced, HeldZips, SynthFunctionName, NotDone;
    ok := cloud.Try();
    if !ok {
      return;
    }
    ghost var builtAt := cloud.at;
    var name := SynthFunctionName(family, mb);
    var key := CreateFunctionFromZip(cloud, name, held + HeldZips(ledger.created));
    if key.Failure? {
      NotDoneWithin(cloud.script, old(cloud.at), builtAt, cloud.at, cloud.at);
      return false;
    }
    ghost var before := HeldZips(ledger.created);
    ledger.Push(name, key.value);
    assert held + before + multiset{Function(name), Zip(key.value)} == held + HeldZips(ledger.created);
    ok := cloud.Try();
    if !ok {
      NotDoneWithin(cloud.script, old(cloud.at), cloud.at - 1, cloud.at, cloud.at);
    }
  }

  /** The package is built and staged, and then the function is created although the call fails. */
  predicate LosesBuilt(script: nat -> Answer, at: nat) {
    script(at).reply.Done? && LosesFunction(script, at + 1)
  }

  /** Deploys and samples every family at every size. On any failure the ledger still holds exactly what is to be deleted. */
  method SampleAll(cloud: Cloud, families: seq<string>, sizes: seq<nat>, ledger: ZipLedger, ghost held: multiset<Resource>)
    returns (r: Result<seq<(string, nat)>>)
    requires Balanced(cloud, held + HeldZips(ledger.created))
    modifies cloud, ledger
    ensures Balanced(cloud, held + HeldZips(ledger.created))
    ensures r.Success? ==> |r.value| == |families| * |sizes|
    ensures r.Success? ==> forall f, s :: 0 <= f < |families| && 0 <= s < |sizes| ==> GridIndex(f, s, |sizes|) < |r.value| && r.value[GridIndex(f, s, |sizes|)] == (families[f], sizes[s])
    ensures old(cloud.at) <= cloud.at && (r.Failure? ==> NotDone(cloud.script, old(cloud.at), cloud.at))
    ensures families != [] && sizes != [] && LosesBuilt(cloud.script, old(cloud.at)) ==>
      r.Failure? && cloud.lost == old(cloud.lost) + [Function(SynthFunctionName(families[0], sizes[0]))]
  {
    hide Balanced, HeldZips, Grid, SynthFunctionName, LosesBuilt, NotDone;
    ghost var (at, lost) := (cloud.at, cloud.lost);
    ghost var first := families != [] && sizes != [] && LosesBuilt(cloud.script, at);
    NoneYet(families, sizes);
    var out: seq<(string, nat)> := [];
    for f := 0 to |families|
      invariant Balanced(cloud, held + HeldZips(ledger.created))
      invariant Grid(out, families, sizes, f, 0) && at <= cloud.at
      invariant first ==> f == 0 && cloud.at == at && cloud.lost == lost
    {
      for s := 0 to |sizes|
        invariant Balanced(cloud, held + HeldZips(ledger.created))
        invariant Grid(out, families, sizes, f, s) && at <= cloud.at
        invariant first ==> f == 0 && s == 0 && cloud.at == at && cloud.lost == lost
      {
        ghost var before := cloud.at;
        var sampled := SampleOne(cloud, families[f], sizes[s], ledger, held);
        if !sampled {
          NotDoneWithin(cloud.script, at, before, cloud.at, cloud.at);
          return Failure;
        }
        GridStep(out, families, sizes, f, s);
        out := out + [(families[f], sizes[s])];
      }
      RowDone(out, families, sizes, f);
    }
    GridDone(out, families, sizes);
    return Success(out);
  }

  // ---- Order of the samples -------------------------------------------------

  function GridIndex(f: nat, s: nat, width: nat): (k: nat) {
    f * width + s
  }

  /** `out` holds the samples of all families before `f`, and of family `f` the first `s` sizes, in order. */
  ghost predicate Grid(out: seq<(string, nat)>, families: seq<string>, sizes: seq<nat>, f: nat, s: nat) {
    && f <= |families| && s <= |sizes| && |out| == GridIndex(f, s, |sizes|)
    && forall g, t :: 0 <= g < |families| && 0 <= t < |sizes| && (g < f || (g == f && t < s)) ==>
      GridIndex(g, t, |sizes|) < |out| && out[GridIndex(g, t, |sizes|)] == (families[g], sizes[t])
  }

  lemma NoneYet(families: seq<string>, sizes: seq<nat>)
    ensures Grid([], families, sizes, 0, 0)
  {
  }

  lemma GridStep(out: seq<(string, nat)>, families: seq<string>, sizes: seq<nat>, f: nat, s: nat)
    requires Grid(out, families, sizes, f, s) && f < |families| && s < |sizes|
    ensures Grid(out + [(families[f], sizes[s])], families, sizes, f, s + 1)
  {
  }

  lemma RowDone(out: seq<(string, nat)>, families: seq<string>, sizes: seq<nat>, f: nat)
    requires Grid(out, families, sizes, f, |sizes|) && f < |families|
    ensures Grid(out, families, sizes, f + 1, 0)
  {
    assert (f + 1) * |sizes| == f * |sizes| + |sizes|;
  }

  lemma GridDone(out: seq<(string, nat)>, families: seq<string>, sizes: seq<nat>)
    requires Grid(out, families, sizes, |families|, 0)
    ensures |out| == |families| * |sizes|
    ensures forall f, s :: 0 <= f < |families| && 0 <= s < |sizes| ==> GridIndex(f, s, |sizes|) < |out| && out[GridIndex(f, s, |sizes|)] == (families[f], sizes[s])
  {
  }

  /** One function delete and one zip delete per entry. */
  method TeardownSynthetic(cloud: Cloud, created: seq<(string, string)>, ghost held: multiset<Resource>)
    requires Balanced(cloud, held + HeldZips(created))
    modifies cloud
    ensures Balanced(cloud, held)
    ensures cloud.acked == old(cloud.acked) && cloud.lost == old(cloud.lost) && old(cloud.at) <= cloud.at
  {
    if created == [] {
      assert held + HeldZips(created) == held;
      return;
    }
    hide Balanced;
    for i := 0 to |created|
      invariant Balanced(cloud, held + HeldZips(created[i..]))
      invariant cloud.acked == old(cloud.acked) && cloud.lost == old(cloud.lost) && old(cloud.at) <= cloud.at
    {
      assert created[i..][1..] == created[i + 1..];
      var (f, z) := (Function(created[i].0), Zip(created[i].1));
      ghost var rest := HeldZips(created[i + 1..]);
      Front(held, f, multiset{z} + rest);
      Release(cloud, f, held + (multiset{z} + rest));
      Front(held, z, rest);
      Release(cloud, z, held + rest);
    }
  }

  // ---- Image family ---------------------------------------------------------

  /** The lists of created functions and of pushed tags. */
  class ImageLedger {
    var fns: seq<string>
    var tags: seq<string>

    constructor ()
      ensures fns == [] && tags == []
    {
      fns, tags := [], [];
    }

    ghost function Held(): multiset<Resource>
      reads this
    {
      HeldFunctions(fns) + HeldImages(tags)
    }

    method PushFunction(name: string)
      modifies this`fns
      ensures Held() == old(Held()) + multiset{Function(name)}
    {
      HeldFunctionsPush(fns, name);
      fns := fns + [name];
    }

    method PushTag(tag: string)
      modifies this`tags
      ensures Held() == old(Held()) + multiset{Image(tag)}
    {
      HeldImagesPush(tags, tag);
      tags := tags + [tag];
    }
  }

  function ImageTag(sizeMb: nat, arch: string, nonce: string): string {
    "synthdl-image-" + NatToString(sizeMb) + "mb-" + arch + "-" + nonce
  }

  /** Images of different sizes have different tags. */
  lemma TagsApart(mb: nat, other: nat, arch: string, nonce: string)
    ensures ImageTag(mb, arch, nonce) == ImageTag(other, arch, nonce) ==> mb == other
  {
    var (stem, rest) := ("synthdl-image-", "mb-" + arch + "-" + nonce);
    var (a, b) := (NatToString(mb) + rest, NatToString(other) + rest);
    assert ImageTag(mb, arch, nonce) == stem + a && ImageTag(other, arch, nonce) == stem + b;
    hide NatToString;
    if stem + a == stem + b {
      assert a == (stem + a)[|stem|..] && b == (stem + b)[|stem|..];
      LeadingNumeral(mb, rest, other, rest);
    }
  }

  /** Pushes one image. The tag enters the ledger before its size is read, so a failed read does not lose it. */
  method BuildAndPushImage(cloud: Cloud, sizeMb: nat, arch: string, nonce: string, ledger: ImageLedger, ghost held: multiset<Resource>)
    returns (r: Result<string>)
    requires Balanced(cloud, held + ledger.Held())
    modifies cloud, ledger
    ensures Balanced(cloud, held + ledger.Held())
    ensures r.Success? ==> r.value == ImageTag(sizeMb, arch, nonce) && ledger.Held() == old(ledger.Held()) + multiset{Image(r.value)}
    ensures old(cloud.at) < cloud.at && (r.Failure? ==> NotDone(cloud.script, old(cloud.at), cloud.at))
  {
    hide Balanced, ImageLedger.Held, ImageTag, NotDone;
    var built := cloud.Try();
    if !built {
      NotDoneWithin(cloud.script, old(cloud.at), cloud.at - 1, cloud.at, cloud.at);
      return Failure;
    }
    var tag := ImageTag(sizeMb, arch, nonce);
    var pushed := Make(cloud, Image(tag), held + ledger.Held());
    if !pushed.Done? {
      NotDoneWithin(cloud.script, old(cloud.at), cloud.at - 1, cloud.at, cloud.at);
      return Failure;
    }
    ghost var before := ledger.Held();
    ledger.PushTag(tag);
    Back(held, before, Image(tag));
    var measured := cloud.Try();
    if !measured {
      NotDoneWithin(cloud.script, old(cloud.at), cloud.at - 1, cloud.at, cloud.at);
      return Failure;
    }
    return Success(tag);
  }

  /** Per size one image, and from it one function that leaves the padding alone and one that reads it. */
  method SampleAllImages(cloud: Cloud, arch: string, nonce: string, sizes: seq<nat>, ledger: ImageLedger, ghost held: multiset<Resource>)
    returns (ok: bool)
    requires Balanced(cloud, held + ledger.Held())
    modifies cloud, ledger
    ensures Balanced(cloud, held + ledger.Held())
    ensures ok ==> ledger.Held() == old(ledger.Held()) + ImagesOf(arch, nonce, sizes)
    ensures old(cloud.at) <= cloud.at && (!ok ==> NotDone(cloud.script, old(cloud.at), cloud.at))
  {
    assert ImagesOf(arch, nonce, sizes[..0]) == multiset{};
    hide ImagesOf, ImageLedger.Held, NotDone;
    for i := 0 to |sizes|
      invariant Balanced(cloud, held + ledger.Held())
      invariant ledger.Held() == old(ledger.Held()) + ImagesOf(arch, nonce, sizes[..i]) && old(cloud.at) <= cloud.at
    {
      ghost var before := cloud.at;
      ok := SampleOneSize(cloud, arch, nonce, sizes[i], ledger, held);
      if !ok {
        NotDoneWithin(cloud.script, old(cloud.at), before, cloud.at, cloud.at);
        return;
      }
      ImagesUpTo(arch, nonce, sizes, i);
    }
    assert sizes[..|sizes|] == sizes;
    return true;
  }

  /** The body of the loop over sizes. */
  method SampleOneSize(cloud: Cloud, arch: string, nonce: string, mb: nat, ledger: ImageLedger, ghost held: multiset<Resource>)
    returns (ok: bool)
    requires Balanced(cloud, held + ledger.Held())
    modifies cloud, ledger
    ensures Balanced(cloud, held + ledger.Held())
    ensures ok ==> ledger.Held() == old(ledger.Held()) + ImagesOfSize(arch, nonce, mb)
    ensures old(cloud.at) < cloud.at && (!ok ==> NotDone(cloud.script, old(cloud.at), cloud.at))
  {
    hide ImageLedger.Held, NotDone;
    var tag := BuildAndPushImage(cloud, mb, arch, nonce, ledger, held);
    if tag.Failure? {
      return false;
    }
    ghost var pushedAt := cloud.at;
    ok := DeployAndSample(cloud, SynthFunctionName("image-untouched", mb), ledger, held);
    if !ok {
      NotDoneWithin(cloud.script, old(cloud.at), pushedAt, cloud.at, cloud.at);
      return;
    }
    ghost var deployedAt := cloud.at;
    ok := DeployAndSample(cloud, SynthFunctionName("image-touched", mb), ledger, held);
    if !ok {
      NotDoneWithin(cloud.script, old(cloud.at), deployedAt, cloud.at, cloud.at);
    }
  }

  ghost function ImagesOfSize(arch: string, nonce: string, mb: nat): multiset<Resource> {
    multiset{Image(ImageTag(mb, arch, nonce))} + multiset{Function(SynthFunctionName("image-untouched", mb))}
    + multiset{Function(SynthFunctionName("image-touched", mb))}
  }

  lemma ImagesUpTo(arch: string, nonce: string, sizes: seq<nat>, i: nat)
    requires i < |sizes|
    ensures ImagesOf(arch, nonce, sizes[..i + 1]) == ImagesOf(arch, nonce, sizes[..i]) + ImagesOfSize(arch, nonce, sizes[i])
  {
    assert sizes[..i + 1][..i] == sizes[..i];
  }

  /** What the image family leaves for teardown when it gets through. */
  ghost function ImagesOf(arch: string, nonce: string, sizes: seq<nat>): multiset<Resource> {
    if sizes == [] then multiset{}
    else ImagesOf(arch, nonce, sizes[..|sizes| - 1]) + ImagesOfSize(arch, nonce, sizes[|sizes| - 1])
  }

  method DeployAndSample(cloud: Cloud, name: string, ledger: ImageLedger, ghost held: multiset<Resource>) returns (ok: bool)
    requires Balanced(cloud, held + ledger.Held())
    modifies cloud, ledger
    ensures Balanced(cloud, held + ledger.Held())
    ensures ok ==> ledger.Held() == old(ledger.Held()) + multiset{Function(name)}
    ensures old(cloud.at) < cloud.at && (!ok ==> NotDone(cloud.script, old(cloud.at), cloud.at))
  {
    hide Balanced, ImageLedger.Held, NotDone;
    ok := CreateFunctionFromImage(cloud, name, held + ledger.Held());
    if !ok {
      return;
    }
    ledger.PushFunction(name);
    Back(held, old(ledger.Held()), Function(name));
    ok := cloud.Try();
    if !ok {
      NotDoneWithin(cloud.script, old(cloud.at), cloud.at - 1, cloud.at, cloud.at);
    }
  }

  method TeardownSyntheticImages(cloud: Cloud, fns: seq<string>, tags: seq<string>, ghost held: multiset<Resource>)
    requires Balanced(cloud, held + (HeldFunctions(fns) + HeldImages(tags)))
    modifies cloud
    ensures Balanced(cloud, held)
    ensures cloud.acked == old(cloud.acked) && cloud.lost == old(cloud.lost) && old(cloud.at) <= cloud.at
  {
    if fns == [] && tags == [] {
      assert held + (HeldFunctions(fns) + HeldImages(tags)) == held;
      return;
    }
    hide Balanced;
    ghost var both := held + HeldImages(tags);
    assert held + (HeldFunctions(fns) + HeldImages(tags)) == both + HeldFunctions(fns);
    for i := 0 to |fns|
      invariant Balanced(cloud, both + HeldFunctions(fns[i..]))
      invariant cloud.acked == old(cloud.acked) && cloud.lost == old(cloud.lost) && old(cloud.at) <= cloud.at
    {
      assert fns[i..][1..] == fns[i + 1..];
      Front(both, Function(fns[i]), HeldFunctions(fns[i + 1..]));
      Release(cloud, Function(fns[i]), both + HeldFunctions(fns[i + 1..]));
    }
    for i := 0 to |tags|
      invariant Balanced(cloud, held + HeldImages(tags[i..]))
      invariant cloud.acked == old(cloud.acked) && cloud.lost == old(cloud.lost) && old(cloud.at) <= cloud.at
    {
      assert tags[i..][1..] == tags[i + 1..];
      Front(held, Image(tags[i]), HeldImages(tags[i + 1..]));
      Release(cloud, Image(tags[i]), held + HeldImages(tags[i + 1..]));
    }
  }

  /** The image part of a probe: the teardown runs before the outcome of the sampling is looked at. */
  method RunSyntheticImage(cloud: Cloud, arch: string, nonce: string, sizes: seq<nat>, ghost held: multiset<Resource>) returns (ok: bool)
    requires Balanced(cloud, held)
    modifies cloud
    ensures Balanced(cloud, held)
    ensures old(cloud.at) <= cloud.at && (!ok ==> NotDone(cloud.script, old(cloud.at), cloud.at))
  {
    hide NotDone, Balanced, ImagesOf, SynthFunctionName;
    var prepared := cloud.Try();
    if !prepared {
      return false;
    }
    var ledger := new ImageLedger();
    assert held + ledger.Held() == held;
    hide HeldFunctions, HeldImages;
    ghost var preparedAt := cloud.at;
    ok := SampleAllImages(cloud, arch, nonce, sizes, ledger, held);
    ghost var sampledAt := cloud.at;
    TeardownSyntheticImages(cloud, ledger.fns, ledger.tags, held);
    if ok {
      ok := cloud.Try();
      if !ok {
        NotDoneWithin(cloud.script, old(cloud.at), cloud.at - 1, cloud.at, cloud.at);
      }
    } else {
      NotDoneWithin(cloud.script, old(cloud.at), preparedAt, sampledAt, cloud.at);
    }
  }

  /** The probe is prepared, the first package built and staged, and its function is created although the call fails. */
  predicate FirstIsLost(script: nat -> Answer, at: nat) {
    script(at).reply.Done? && LosesBuilt(script, at + 1)
  }

  /** A whole scaling probe, from an account where nothing of it exists. However it ends, the deletes started are
      exactly the acknowledged creations, each once, so what is left over is exactly what was lost. */
  method RunSynthetic(cloud: Cloud, arch: string, nonce: string, sizes: seq<nat>, withImage: bool) returns (ok: bool)
    requires cloud.Valid() && cloud.acked == cloud.deleted
    modifies cloud
    ensures cloud.deleted == cloud.acked
    ensures cloud.made == cloud.deleted + multiset(cloud.lost)
    ensures cloud.made == cloud.deleted <==> cloud.lost == []
    ensures !ok ==> NotDone(cloud.script, old(cloud.at), cloud.at)
    ensures sizes != [] && FirstIsLost(cloud.script, old(cloud.at)) ==>
      !ok && cloud.lost == old(cloud.lost) + [Function(SynthFunctionName("python", sizes[0]))]
  {
    assert Balanced(cloud, multiset{});
    FirstLost(cloud.script, cloud.at);
    hide SynthFunctionName, LosesBuilt, Balanced, NotDone, FirstIsLost;
    var ledger := new ZipLedger();
    assert multiset{} + HeldZips(ledger.created) == multiset{};
    hide HeldZips;
    var prepared := cloud.Try();
    if prepared {
      ghost var preparedAt := cloud.at;
      var result := SampleAll(cloud, ["python", "rust"], sizes, ledger, multiset{});
      ghost var sampledAt := cloud.at;
      TeardownSynthetic(cloud, ledger.created, multiset{});
      ok := result.Success?;
      if ok {
        ok := cloud.Try();
        if !ok {
          NotDoneWithin(cloud.script, old(cloud.at), cloud.at - 1, cloud.at, cloud.at);
        }
      } else {
        NotDoneWithin(cloud.script, old(cloud.at), preparedAt, sampledAt, cloud.at);
      }
      if ok && withImage {
        ghost var writtenAt := cloud.at;
        ok := RunSyntheticImage(cloud, arch, nonce, sizes, multiset{});
        if !ok {
          NotDoneWithin(cloud.script, old(cloud.at), writtenAt, cloud.at, cloud.at);
        }
      }
    } else {
      ok := false;
    }
    BalancedMeans(cloud);
  }

  lemma FirstLost(script: nat -> Answer, at: nat)
    ensures FirstIsLost(script, at) ==> script(at).reply.Done? && LosesBuilt(script, at + 1)
  {
  }

  lemma BalancedMeans(cloud: Cloud)
    requires Balanced(cloud, multiset{})
    ensures cloud.deleted == cloud.acked && cloud.made == cloud.deleted + multiset(cloud.lost)
    ensures cloud.made == cloud.deleted <==> cloud.lost == []
  {
    NothingLost(cloud.made, cloud.deleted, cloud.lost);
  }

  /** It does happen: if the first create call takes effect and fails, its function is never deleted. */
  method LeavesFunctionBehind(arch: string, nonce: string, sizes: seq<nat>) returns (cloud: Cloud)
    requires sizes != []
    ensures fresh(cloud) && var f := Function(SynthFunctionName("python", sizes[0])); cloud.made[f] == cloud.deleted[f] + 1
  {
    cloud := new Cloud((i: nat) => if i == 3 then Answer(Failed, true) else Answer(Done, false));
    var ok := RunSynthetic(cloud, arch, nonce, sizes, false);
    assert cloud.lost == [Function(SynthFunctionName("python", sizes[0]))];
  }

  lemma NothingLost(made: multiset<Resource>, deleted: multiset<Resource>, lost: seq<Resource>)
    requires made == deleted + multiset(lost)
    ensures made == deleted <==> lost == []
  {
    if lost != [] {
      assert lost[0] in multiset(lost);
      assert made[lost[0]] > deleted[lost[0]];
    }
  }
}
