/** The benchmark matrix: cells, their iteration counts, names and artifacts. */
module Config {
  import opened Wrappers
  import opened Text

  datatype Lang = Rust | Node | Java | Python | Go {
    function AsStr(): string {
      match this
      case Rust => "rust"
      case Node => "node"
      case Java => "java"
      case Python => "python"
      case Go => "go"
    }
  }

  datatype Scenario = Hello | Smithy | OneClient | ThreeClient | SmithyFull | LetterCount | Authz | Batch | Cache {
    function AsStr(): string {
      match this
      case Hello => "hello"
      case Smithy => "smithy"
      case OneClient => "oneclient"
      case ThreeClient => "threeclient"
      case SmithyFull => "smithyfull"
      case LetterCount => "lettercount"
      case Authz => "authz"
      case Batch => "batch"
      case Cache => "cache"
    }

    predicate IsHttpFronted() {
      Smithy? || SmithyFull?
    }

    function FullBaseCounts(lang: Lang, memoryMb: int): Counts {
      var starvedPython := lang.Python? && memoryMb <= 256;
      if LetterCount? && starvedPython then Counts(5, 300)
      else if Cache? || LetterCount? || Authz? then Counts(5, 1500)
      else if Batch? && starvedPython then Counts(5, 200)
      else if Batch? then Counts(15, 200)
      else FULL_LIGHT_COUNTS
    }
  }

  datatype Arch = Arm64 | X86 {
    function AsStr(): string {
      if Arm64? then "arm64" else "x86_64"
    }
  }

  datatype Opt = O3 | Oz {
    function AsStr(): string {
      if O3? then "o3" else "oz"
    }
  }

  datatype Jitter = On | Off

  datatype Profile = Full | Smoke

  /** Cold cycles and warm invokes per cycle. */
  datatype Counts = Counts(cold: nat, warm: nat)

  const PREFIX := "lambdabench"
  const FULL_LIGHT_COUNTS := Counts(50, 50)
  const SMOKE_COUNTS := Counts(2, 2)
  const SNAPSTART_COLD_CYCLES: nat := 10

  datatype Cell = Cell(lang: Lang, scenario: Scenario, arch: Arch, memoryMb: int, opt: Option<Opt>, snapstart: bool, jitter: Option<Jitter>)
  {
    predicate IsJitterAb() {
      lang.Rust? && opt == Some(O3) && (scenario.OneClient? || scenario.LetterCount?)
    }

    /** The structural invariants asserted on every generated cell. */
    predicate Valid() {
      && (opt.Some? <==> lang.Rust?)
      && (jitter.Some? <==> lang.Rust?)
      && (snapstart ==> lang.Java?)
      && (jitter == Some(On) ==> IsJitterAb())
    }

    /** Every cell is planned at least two cold cycles. */
    function Iterations(profile: Profile): (c: Counts)
      ensures c.cold >= 2
      ensures snapstart ==> c.cold <= SNAPSTART_COLD_CYCLES
    {
      var base :=
        if profile.Smoke? then SMOKE_COUNTS
        else if IsJitterAb() then FULL_LIGHT_COUNTS
        else scenario.FullBaseCounts(lang, memoryMb);
      if snapstart && base.cold > SNAPSTART_COLD_CYCLES then base.(cold := SNAPSTART_COLD_CYCLES) else base
    }

    function NameParts(): (parts: seq<string>)
      ensures |parts| >= 5
    {
      [PREFIX, lang.AsStr(), scenario.AsStr(), arch.AsStr()]
      + (if opt.Some? then [opt.value.AsStr()] else [])
      + (if snapstart then ["snap"] else [])
      + (if jitter == Some(On) then ["jitter"] else [])
      + [if memoryMb < 0 then "-" + NatToString(-memoryMb) else NatToString(memoryMb)]
    }

    function FunctionName(): string {
      Join(NameParts(), '-')
    }

    function ArtifactKeyOf(): ArtifactKey {
      ArtifactKey(lang, scenario, if ArchSignificant(lang, scenario) then arch else Arm64, opt, jitter)
    }
  }

  /** What makes counts comparable: a smoke run treats all cells alike; the two halves of a jitter pair, and the pairs
      of both scenarios, are sampled alike; SnapStart takes at most 10 cold cycles, never more than the same cell
      without it, and the same warm ones. */
  lemma FairCounts(c: Cell, d: Cell, profile: Profile, jitter: Option<Jitter>)
    requires c.Valid() && d.Valid()
    ensures c.Iterations(Smoke) == d.Iterations(Smoke)
    ensures c.(jitter := jitter).Iterations(profile) == c.Iterations(profile)
    ensures c.IsJitterAb() && d.IsJitterAb() ==> c.Iterations(profile) == d.Iterations(profile)
    ensures var (with_, without) := (c.(snapstart := true).Iterations(profile), c.(snapstart := false).Iterations(profile));
      && with_.warm == without.warm && with_.cold <= without.cold
      && (with_.cold == without.cold || with_.cold == SNAPSTART_COLD_CYCLES)
  {
  }

  /** The invocations that a full run plans for a cell: the light scenarios and the jitter pairs take 50 cold starts with
      50 warm invokes each, the heavy ones fewer cold starts with more, and SnapStart at most 10 cold starts. */
  lemma FullInvocations(c: Cell)
    requires c.Valid()
    ensures var n := c.Iterations(Full).cold * (1 + c.Iterations(Full).warm);
      match c.scenario
      case LetterCount =>
        n == if c.IsJitterAb() then 2550 else if c.lang.Python? && c.memoryMb <= 256 then 1505 else 7505
      case Cache => n == 7505
      case Authz => n == 7505
      case Batch => n == if c.lang.Python? && c.memoryMb <= 256 then 1005 else if c.snapstart then 2010 else 3015
      case _ => n == if c.snapstart then 510 else 2550
  {
  }

  predicate ArchSignificant(lang: Lang, scenario: Scenario) {
    lang.Rust? || lang.Go? || (lang.Python? && scenario.Authz?)
  }

  datatype ArtifactKey = ArtifactKey(lang: Lang, scenario: Scenario, arch: Arch, opt: Option<Opt>, jitter: Option<Jitter>)
  {
    /** Keys that some valid cell can have. */
    predicate Reachable() {
      && (opt.Some? <==> lang.Rust?)
      && (jitter.Some? <==> lang.Rust?)
      && (!ArchSignificant(lang, scenario) ==> arch.Arm64?)
    }

    function LabelParts(): (parts: seq<string>)
      ensures |parts| >= 2
    {
      match lang
      case Rust =>
        ["rust", scenario.AsStr(), arch.AsStr(), if opt.Some? then opt.value.AsStr() else "o3"]
        + (if jitter == Some(On) then ["jitter"] else [])
      case Node => ["node", scenario.AsStr()]
      case Java => ["java", scenario.AsStr()]
      case Go => ["go", scenario.AsStr(), arch.AsStr()]
      case Python =>
        if ArchSignificant(Python, scenario) then ["python", scenario.AsStr(), arch.AsStr()]
        else ["python", scenario.AsStr()]
    }

    function Label(): string {
      Join(LabelParts(), '-')
    }
  }

  // ---- Reading names back ---------------------------------------------------

  function ParseLang(s: string): Option<Lang> {
    if s == "rust" then Some(Rust) else if s == "node" then Some(Node) else if s == "java" then Some(Java)
    else if s == "python" then Some(Python) else if s == "go" then Some(Go) else None
  }

  function ParseScenario(s: string): Option<Scenario> {
    if s == "hello" then Some(Hello) else if s == "smithy" then Some(Smithy)
    else if s == "oneclient" then Some(OneClient) else if s == "threeclient" then Some(ThreeClient)
    else if s == "smithyfull" then Some(SmithyFull) else if s == "lettercount" then Some(LetterCount)
    else if s == "authz" then Some(Authz) else if s == "batch" then Some(Batch)
    else if s == "cache" then Some(Cache) else None
  }

  function ParseArch(s: string): Option<Arch> {
    if s == "arm64" then Some(Arm64) else if s == "x86_64" then Some(X86) else None
  }

  lemma EnumsReadBack(l: Lang, sc: Scenario, a: Arch)
    ensures ParseLang(l.AsStr()) == Some(l) && ParseScenario(sc.AsStr()) == Some(sc) && ParseArch(a.AsStr()) == Some(a)
    ensures '-' !in l.AsStr() && '-' !in sc.AsStr() && '-' !in a.AsStr()
  {
  }

  /** Decoder for function names: the segments after the architecture are the optional
      opt level, `snap` and `jitter` tags, then the memory size. */
  function DecodeName(name: string): Option<Cell> {
    DecodeNameParts(Split(name, '-'))
  }

  function DecodeNameParts(parts: seq<string>): Option<Cell> {
    if |parts| < 5 then None
    else
      var (lang, scenario, arch) := (ParseLang(parts[1]), ParseScenario(parts[2]), ParseArch(parts[3]));
      var memory := ParseNat(parts[|parts| - 1]);
      var tags := parts[4..|parts| - 1];
      if parts[0] != PREFIX || lang.None? || scenario.None? || arch.None? || memory.None? then None
      else
        Some(Cell(lang.value, scenario.value, arch.value, memory.value,
                  if "o3" in tags then Some(O3) else if "oz" in tags then Some(Oz) else None,
                  "snap" in tags,
                  if lang.value.Rust? then Some(if "jitter" in tags then On else Off) else None))
  }

  /** A deployed function name determines its cell. */
  lemma NameRoundTrip(c: Cell)
    requires c.Valid() && c.memoryMb >= 0
    ensures DecodeName(c.FunctionName()) == Some(c)
  {
    NamePartsReadBack(c);
    SplitJoined(c.NameParts(), '-');
  }

  lemma NamePartsReadBack(c: Cell)
    requires c.Valid() && c.memoryMb >= 0
    ensures DecodeNameParts(c.NameParts()) == Some(c)
    ensures forall i :: 0 <= i < |c.NameParts()| ==> '-' !in c.NameParts()[i]
  {
    var tags := Tags(c);
    var memory := NatToString(c.memoryMb);
    PartsShape(c);
    EnumsReadBack(c.lang, c.scenario, c.arch);
    ParsePrintedNat(c.memoryMb);
    ShapeReadBack(c.lang.AsStr(), c.scenario.AsStr(), c.arch.AsStr(), tags, memory);
    TagsReadBack(c, tags);
    PartsPlain(c);
    assert c.jitter.Some? ==> c.jitter.value.On? || c.jitter.value.Off?;
    hide Tags, NatToString, ParseLang, ParseScenario, ParseArch, ParseNat, DecodeNameParts, Cell.NameParts, Lang.AsStr, Scenario.AsStr, Arch.AsStr;
  }

  /** The optional segments of a name. */
  function Tags(c: Cell): seq<string> {
    (if c.opt.Some? then [c.opt.value.AsStr()] else []) + (if c.snapstart then ["snap"] else [])
    + (if c.jitter == Some(On) then ["jitter"] else [])
  }

  lemma PartsShape(c: Cell)
    requires c.memoryMb >= 0
    ensures c.NameParts() == [PREFIX, c.lang.AsStr(), c.scenario.AsStr(), c.arch.AsStr()] + Tags(c) + [NatToString(c.memoryMb)]
  {
    hide NatToString, Lang.AsStr, Scenario.AsStr, Arch.AsStr, Opt.AsStr;
  }

  lemma ShapeReadBack(lang: string, scenario: string, arch: string, tags: seq<string>, memory: string)
    requires ParseLang(lang).Some? && ParseScenario(scenario).Some? && ParseArch(arch).Some? && ParseNat(memory).Some?
    ensures DecodeNameParts([PREFIX, lang, scenario, arch] + tags + [memory]) ==
      Some(Cell(ParseLang(lang).value, ParseScenario(scenario).value, ParseArch(arch).value, ParseNat(memory).value,
                if "o3" in tags then Some(O3) else if "oz" in tags then Some(Oz) else None,
                "snap" in tags,
                if ParseLang(lang).value.Rust? then Some(if "jitter" in tags then On else Off) else None))
  {
    hide ParseLang, ParseScenario, ParseArch, ParseNat;
    var parts := [PREFIX, lang, scenario, arch] + tags + [memory];
    assert parts[4..|parts| - 1] == tags && parts[|parts| - 1] == memory;
  }

  lemma PartsPlain(c: Cell)
    requires c.memoryMb >= 0
    ensures forall i :: 0 <= i < |c.NameParts()| ==> '-' !in c.NameParts()[i]
  {
    EnumsReadBack(c.lang, c.scenario, c.arch);
    var memory := NatToString(c.memoryMb);
    assert '-' !in memory && '-' !in PREFIX;
    TagsPlain(c);
    PartsShape(c);
    var (head, tags) := ([PREFIX, c.lang.AsStr(), c.scenario.AsStr(), c.arch.AsStr()], Tags(c));
    hide *;
    forall i | 0 <= i < |c.NameParts()| ensures '-' !in c.NameParts()[i] {
      assert (head + tags + [memory])[i] == if i < 4 then head[i] else if i < 4 + |tags| then tags[i - 4] else memory;
    }
  }

  lemma TagsPlain(c: Cell)
    ensures forall i :: 0 <= i < |Tags(c)| ==> '-' !in Tags(c)[i]
  {
    assert '-' !in "o3" && '-' !in "oz" && '-' !in "snap" && '-' !in "jitter";
  }

  lemma TagsReadBack(c: Cell, tags: seq<string>)
    requires c.Valid()
    requires tags == Tags(c)
    ensures "o3" in tags <==> c.opt == Some(O3)
    ensures "oz" in tags <==> c.opt == Some(Oz)
    ensures "snap" in tags <==> c.snapstart
    ensures "jitter" in tags <==> c.jitter == Some(On)
  {
    assert "o3" != "oz" && |"snap"| == 4 && |"jitter"| == 6 && "o3"[1] != "oz"[1];
  }

  function DecodeLabel(text: string): Option<ArtifactKey> {
    DecodeLabelParts(Split(text, '-'))
  }

  function DecodeLabelParts(parts: seq<string>): Option<ArtifactKey> {
    if |parts| < 2 || ParseLang(parts[0]).None? || ParseScenario(parts[1]).None? then None
    else
      var (lang, scenario) := (ParseLang(parts[0]).value, ParseScenario(parts[1]).value);
      var arch := if |parts| > 2 && ParseArch(parts[2]).Some? then ParseArch(parts[2]).value else Arm64;
      if lang.Rust? then
        if |parts| < 4 then None
        else Some(ArtifactKey(lang, scenario, arch, Some(if parts[3] == "o3" then O3 else Oz), Some(if |parts| > 4 then On else Off)))
      else Some(ArtifactKey(lang, scenario, arch, None, None))
  }

  /** Artifact labels of reachable keys are distinct: each can be read back. */
  lemma LabelRoundTrip(k: ArtifactKey)
    requires k.Reachable()
    ensures DecodeLabel(k.Label()) == Some(k)
  {
    LabelPartsReadBack(k);
    SplitJoined(k.LabelParts(), '-');
  }

  lemma LabelPartsReadBack(k: ArtifactKey)
    requires k.Reachable()
    ensures DecodeLabelParts(k.LabelParts()) == Some(k)
    ensures forall i :: 0 <= i < |k.LabelParts()| ==> '-' !in k.LabelParts()[i]
  {
    EnumsReadBack(k.lang, k.scenario, k.arch);
    assert '-' !in "o3" && '-' !in "oz" && '-' !in "jitter";
    assert "o3"[1] != "oz"[1];
    assert ParseLang("rust") == Some(Rust) && '-' !in Rust.AsStr();
    assert ParseLang("node") == Some(Node) && '-' !in Node.AsStr();
    assert ParseLang("java") == Some(Java) && '-' !in Java.AsStr();
    assert ParseLang("go") == Some(Go) && '-' !in Go.AsStr();
    assert ParseLang("python") == Some(Python) && '-' !in Python.AsStr();
    assert k.jitter.Some? ==> k.jitter.value.On? || k.jitter.value.Off?;
  }

  lemma CellKeyReachable(c: Cell)
    requires c.Valid()
    ensures c.ArtifactKeyOf().Reachable()
  {
  }

  // ---- The artifacts of a run -----------------------------------------------

  predicate NoDuplicates<T(==)>(s: seq<T>) {
    forall i, j :: 0 <= i < j < |s| ==> s[i] != s[j]
  }

  /** `out` lists the distinct keys of `cells`, each at the place of its first cell. */
  ghost predicate FirstSeen(cells: seq<Cell>, out: seq<ArtifactKey>) {
    && NoDuplicates(out)
    && (forall i :: 0 <= i < |cells| ==> cells[i].ArtifactKeyOf() in out)
    && exists first: seq<nat> :: |first| == |out| && FirstCells(cells, out, first)
  }

  /** `first[k]` is the first cell with key `out[k]`, and these cells are in order. */
  ghost predicate FirstCells(cells: seq<Cell>, out: seq<ArtifactKey>, first: seq<nat>)
    requires |first| == |out|
  {
    && (forall k :: 0 <= k < |first| ==> first[k] < |cells| && cells[first[k]].ArtifactKeyOf() == out[k])
    && (forall k, i :: 0 <= k < |first| && 0 <= i < first[k] && i < |cells| ==> cells[i].ArtifactKeyOf() != out[k])
    && (forall j, k :: 0 <= j < k < |first| ==> first[j] < first[k])
  }

  method UniqueArtifacts(cells: seq<Cell>) returns (out: seq<ArtifactKey>)
    ensures FirstSeen(cells, out)
  {
    var seen: set<ArtifactKey> := {};
    ghost var first: seq<nat> := [];
    out := [];
    for n := 0 to |cells|
      invariant seen == set k | k in out
      invariant NoDuplicates(out)
      invariant forall i :: 0 <= i < n ==> cells[i].ArtifactKeyOf() in out
      invariant |first| == |out| && FirstCells(cells, out, first)
      invariant forall k :: 0 <= k < |first| ==> first[k] < n
    {
      var key := cells[n].ArtifactKeyOf();
      if key !in seen {
        seen := seen + {key};
        out := out + [key];
        first := first + [n];
      }
    }
  }

  datatype Sizes = Sizes(zip: nat, unzipped: nat)

  /** `sizes` holds exactly the items' names, each with the sizes found under its label. */
  ghost predicate SizedBy<K(!new)>(table: map<string, Sizes>, items: seq<K>, name: K -> string, key: K -> string, sizes: map<string, Sizes>) {
    && (forall i :: 0 <= i < |items| ==> key(items[i]) in table)
    && (forall i :: 0 <= i < |items| ==> name(items[i]) in sizes)
    && (forall n :: n in sizes ==> exists i :: 0 <= i < |items| && name(items[i]) == n)
    && (Distinct(items, name) ==> forall i :: 0 <= i < |items| ==> sizes[name(items[i])] == table[key(items[i])])
  }

  /** Equal names only on equal items. */
  ghost predicate Distinct<K(!new)>(items: seq<K>, name: K -> string) {
    forall i, j :: 0 <= i < |items| && 0 <= j < |items| && name(items[i]) == name(items[j]) ==> items[i] == items[j]
  }

  lemma SizedByNext<K(!new)>(table: map<string, Sizes>, items: seq<K>, name: K -> string, key: K -> string, sizes: map<string, Sizes>, c: K)
    requires SizedBy(table, items, name, key, sizes) && key(c) in table
    ensures SizedBy(table, items + [c], name, key, sizes[name(c) := table[key(c)]])
  {
    var all := items + [c];
    var next := sizes[name(c) := table[key(c)]];
    assert all[|items|] == c && forall i :: 0 <= i < |items| ==> all[i] == items[i];
    forall n | n in next
      ensures exists i :: 0 <= i < |all| && name(all[i]) == n
    {
      if n in sizes {
        var i :| 0 <= i < |items| && name(items[i]) == n;
        assert name(all[i]) == n;
      } else {
        assert name(all[|items|]) == n;
      }
    }
    if Distinct(all, name) {
      forall i, j | 0 <= i < |items| && 0 <= j < |items| && name(items[i]) == name(items[j])
        ensures items[i] == items[j]
      {
        assert all[i] == all[j];
      }
      assert Distinct(items, name);
    }
  }

  const NAME: Cell -> string := (c: Cell) => c.FunctionName()
  const LABEL: Cell -> string := (c: Cell) => c.ArtifactKeyOf().Label()
  const KEY_LABEL: ArtifactKey -> string := (k: ArtifactKey) => k.Label()

  method SizesByName<K(!new)>(table: map<string, Sizes>, items: seq<K>, name: K -> string, key: K -> string)
    returns (r: Result<map<string, Sizes>>)
    ensures r.Success? <==> forall i :: 0 <= i < |items| ==> key(items[i]) in table
    ensures r.Success? ==> SizedBy(table, items, name, key, r.value)
  {
    var sizes: map<string, Sizes> := map[];
    for n := 0 to |items|
      invariant SizedBy(table, items[..n], name, key, sizes)
    {
      if key(items[n]) !in table {
        return Failure;
      }
      SizedByNext(table, items[..n], name, key, sizes, items[n]);
      assert items[..n] + [items[n]] == items[..n + 1];
      sizes := sizes[name(items[n]) := table[key(items[n])]];
    }
    assert items[..|items|] == items;
    return Success(sizes);
  }

  /** Looks up every cell's artifact by label; a miss fails the whole map. */
  method SizesFromArtifacts(artifacts: map<string, Sizes>, cells: seq<Cell>) returns (r: Result<map<string, Sizes>>)
    ensures r.Success? <==> forall i :: 0 <= i < |cells| ==> LABEL(cells[i]) in artifacts
    ensures r.Success? ==> SizedBy(artifacts, cells, NAME, LABEL, r.value)
  {
    r := SizesByName(artifacts, cells, NAME, LABEL);
  }

  /** No two valid cells share a function name. */
  lemma NamesDistinct(cells: seq<Cell>)
    requires forall i :: 0 <= i < |cells| ==> cells[i].Valid() && cells[i].memoryMb >= 0
    ensures Distinct(cells, NAME)
  {
    forall i, j | 0 <= i < |cells| && 0 <= j < |cells| && NAME(cells[i]) == NAME(cells[j])
      ensures cells[i] == cells[j]
    {
      NameRoundTrip(cells[i]);
      NameRoundTrip(cells[j]);
    }
  }

  /** The artifact table: each key's build stored under its label, in build order. */
  function ByLabel<K>(keys: seq<K>, text: K -> string, built: map<K, Sizes>): map<string, Sizes>
    requires forall i :: 0 <= i < |keys| ==> keys[i] in built
  {
    if keys == [] then map[]
    else ByLabel(keys[..|keys| - 1], text, built)[text(keys[|keys| - 1]) := built[keys[|keys| - 1]]]
  }

  lemma {:induction false} NothingOverwritten<K(!new)>(keys: seq<K>, text: K -> string, built: map<K, Sizes>)
    requires forall i :: 0 <= i < |keys| ==> keys[i] in built
    requires NoDuplicates(keys) && Distinct(keys, text)
    ensures |ByLabel(keys, text, built)| == |keys|
    ensures forall i :: 0 <= i < |keys| ==>
      text(keys[i]) in ByLabel(keys, text, built) && ByLabel(keys, text, built)[text(keys[i])] == built[keys[i]]
    ensures forall l :: l in ByLabel(keys, text, built) ==> exists i :: 0 <= i < |keys| && text(keys[i]) == l
  {
    if keys != [] {
      var pre, last := keys[..|keys| - 1], keys[|keys| - 1];
      assert keys == pre + [last];
      NothingOverwritten(pre, text, built);
      var table := ByLabel(pre, text, built);
      var after := table[text(last) := built[last]];
      assert ByLabel(keys, text, built) == after;
      assert text(last) !in table;
      hide *;
      forall i | 0 <= i < |keys| ensures text(keys[i]) in after && after[text(keys[i])] == built[keys[i]] {
        if i < |pre| {
          assert keys[i] == pre[i] && text(pre[i]) in table;
        }
      }
      forall l | l in after
        ensures exists i :: 0 <= i < |keys| && text(keys[i]) == l
      {
        if l in table {
          var i :| 0 <= i < |pre| && text(pre[i]) == l;
          assert keys[i] == pre[i];
        } else {
          assert text(keys[|pre|]) == l;
        }
      }
    }
  }

  /** Two cells share an artifact exactly when they differ in nothing that goes into its bytes: native binaries and the
      Python bundle with a native wheel are built per architecture, everything else once. */
  lemma SharedExactly(c: Cell, d: Cell)
    requires c.Valid() && d.Valid()
    ensures LABEL(c) == LABEL(d) <==>
      && c.lang == d.lang && c.scenario == d.scenario && c.opt == d.opt && c.jitter == d.jitter
      && match c.lang
         case Rust => c.arch == d.arch
         case Go => c.arch == d.arch
         case Python => c.scenario.Authz? ==> c.arch == d.arch
         case _ => true
  {
    var (k, l) := (c.ArtifactKeyOf(), d.ArtifactKeyOf());
    CellKeyReachable(c);
    CellKeyReachable(d);
    LabelRoundTrip(k);
    LabelRoundTrip(l);
    hide ArtifactKey.Label, ArtifactKey.LabelParts;
    assert LABEL(c) == k.Label() && LABEL(d) == l.Label();
  }

  /** Building one artifact per unique key, stored by label, keeps every artifact apart,
      and looking a cell's artifact up by label finds the one built for its own key. */
  lemma EveryCellFindsItsArtifact(cells: seq<Cell>, keys: seq<ArtifactKey>, built: map<ArtifactKey, Sizes>)
    requires forall i :: 0 <= i < |cells| ==> cells[i].Valid()
    requires FirstSeen(cells, keys)
    requires forall i :: 0 <= i < |keys| ==> keys[i] in built
    ensures |ByLabel(keys, KEY_LABEL, built)| == |keys|
    ensures forall i :: 0 <= i < |cells| ==>
      var key := cells[i].ArtifactKeyOf();
      && key in built && LABEL(cells[i]) in ByLabel(keys, KEY_LABEL, built)
      && ByLabel(keys, KEY_LABEL, built)[LABEL(cells[i])] == built[key]
  {
    forall i | 0 <= i < |keys|
      ensures keys[i].Reachable()
    {
      var first: seq<nat> :| |first| == |keys| && FirstCells(cells, keys, first);
      CellKeyReachable(cells[first[i]]);
    }
    forall i, j | 0 <= i < |keys| && 0 <= j < |keys| && KEY_LABEL(keys[i]) == KEY_LABEL(keys[j])
      ensures keys[i] == keys[j]
    {
      LabelRoundTrip(keys[i]);
      LabelRoundTrip(keys[j]);
    }
    NothingOverwritten(keys, KEY_LABEL, built);
    forall i | 0 <= i < |cells|
      ensures LABEL(cells[i]) == KEY_LABEL(cells[i].ArtifactKeyOf())
    {
    }
  }
}
