/** The REPORT-line parser of a Lambda log tail.

    The three regular expressions are kept as data and run by a matcher with the
    regex crate's leftmost-first rules: alternatives in order of preference, greedy
    repetition longest first, lazy repetition shortest first. */
module Report {
  import opened Wrappers
  import opened Text

  // ---- The pattern language -------------------------------------------------

  datatype Class = Hex | Decimal | Numeral | Space

  predicate In(c: char, cls: Class) {
    match cls
    case Hex => IsDigit(c) || 'a' <= c <= 'f' || 'A' <= c <= 'F' || c == '-'
    case Decimal => IsDigit(c) || c == '.'
    case Numeral => IsDigit(c)
    case Space => c == ' ' || '\t' <= c <= '\r'
  }

  datatype Name = Rid | Dur | Billed | MemSize | MaxMem | Marker | BilledPrefix

  datatype Pattern =
    | End
    | Lit(text: string, rest: Pattern)
    | Many(cls: Class, min: nat, name: Option<Name>, rest: Pattern)
    | Lazy(rest: Pattern)
    | Maybe(text: string, prefix: Name, rest: Pattern)

  /** A successful match: where it ended and what each named group captured. */
  datatype Hit = Hit(end: nat, groups: map<Name, string>)

  predicate At(s: string, p: nat, word: string) {
    p + |word| <= |s| && forall i :: 0 <= i < |word| ==> s[p + i] == word[i]
  }

  /** Length of the run of class characters starting at `p`. */
  function Run(cls: Class, s: string, p: nat): (n: nat)
    ensures p <= |s| ==> p + n <= |s|
    decreases |s| - p
  {
    if p < |s| && In(s[p], cls) then 1 + Run(cls, s, p + 1) else 0
  }

  function Match(pat: Pattern, s: string, p: nat): (r: Option<Hit>)
    requires p <= |s|
    ensures r.Some? ==> p <= r.value.end <= |s|
    decreases pat, |s| - p
  {
    match pat
    case End => Some(Hit(p, map[]))
    case Lit(text, rest) =>
      if At(s, p, text) then Match(rest, s, p + |text|) else None
    case Many(cls, min, name, rest) =>
      if Run(cls, s, p) < min then None else Greedy(pat, s, p, Run(cls, s, p))
    case Lazy(rest) =>
      (match Match(rest, s, p)
       case Some(h) => Some(h)
       case None => if p < |s| && s[p] != '\n' then Match(pat, s, p + 1) else None)
    case Maybe(text, prefix, rest) =>
      var taken := if At(s, p, text) then Match(rest, s, p + |text|) else None;
      match taken
      case Some(h) => Some(h.(groups := h.groups[prefix := text]))
      case None => Match(rest, s, p)
  }

  /** Greedy repetition: `n` characters if the rest then matches, else fewer. */
  function Greedy(pat: Pattern, s: string, p: nat, n: nat): (r: Option<Hit>)
    requires pat.Many? && pat.min <= n && p + n <= |s|
    ensures r.Some? ==> p <= r.value.end <= |s|
    decreases pat, 0, n
  {
    match Match(pat.rest, s, p + n)
    case Some(h) =>
      Some(if pat.name.Some? then h.(groups := h.groups[pat.name.value := s[p..p + n]]) else h)
    case None => if n > pat.min then Greedy(pat, s, p, n - 1) else None
  }

  /** Leftmost match at or after `from`, with its start. */
  function Search(pat: Pattern, s: string, from: nat): (r: Option<(nat, Hit)>)
    requires from <= |s|
    ensures r.Some? ==> from <= r.value.0 <= r.value.1.end <= |s|
    ensures r.Some? ==> Match(pat, s, r.value.0) == Some(r.value.1)
    decreases |s| - from
  {
    match Match(pat, s, from)
    case Some(h) => Some((from, h))
    case None => if from < |s| then Search(pat, s, from + 1) else None
  }

  // ---- The expressions ------------------------------------------------------

  function Quantity(caption: string, cls: Class, name: Name, unit: string, rest: Pattern): Pattern {
    Lit(caption, Many(Space, 0, None, Many(cls, 1, Some(name), Many(Space, 0, None, Lit(unit, rest)))))
  }

  const REQUEST := "REPORT RequestId:"

  const REPORT_PATTERN: Pattern :=
    Lit(REQUEST, Many(Space, 0, None, Many(Hex, 1, Some(Rid), Many(Space, 1, None, Lazy(AFTER_ID)))))
  const AFTER_ID: Pattern :=
    Quantity("Duration:", Decimal, Dur, "ms", Many(Space, 1, None, AFTER_DURATION))
  const AFTER_DURATION: Pattern :=
    Quantity("Billed Duration:", Decimal, Billed, "ms", Many(Space, 1, None, AFTER_BILLED))
  const AFTER_BILLED: Pattern :=
    Quantity("Memory Size:", Numeral, MemSize, "MB", Many(Space, 1, None, AFTER_MEMORY))
  const AFTER_MEMORY: Pattern := Quantity("Max Memory Used:", Numeral, MaxMem, "MB", End)

  const INIT := "Init Duration:"
  const RESTORE := "Restore Duration:"

  function MarkerPattern(word: string): Pattern {
    Maybe("Billed ", BilledPrefix, MarkerTail(word))
  }

  function MarkerTail(word: string): Pattern {
    Quantity(word, Decimal, Marker, "ms", End)
  }

  // ---- The parser -----------------------------------------------------------

  datatype Report = Report(
    requestId: string, durationMs: real, billedMs: real, memorySizeMb: nat, maxMemoryUsedMb: nat,
    initMs: Option<real>, restoreMs: Option<real>)
  {
    predicate IsCold() {
      initMs.Some? || restoreMs.Some?
    }
  }

  function Pow10(n: nat): (r: real)
    ensures r > 0.0
  {
    if n == 0 then 1.0 else 10.0 * Pow10(n - 1)
  }

  /** `str::parse::<f64>` on text of digits and dots: at most one dot and at least
      one digit. The value is exact; rounding to the nearest float is not modelled. */
  function ParseDecimal(s: string): Option<real> {
    var parts := Split(s, '.');
    if |parts| > 2 || !(forall i :: 0 <= i < |parts| ==> AllDigits(parts[i])) then None
    else if |parts| == 1 then
      if s == "" || !AllDigits(s) then None else Some(DigitsValue(s) as real)
    else if parts[0] == "" && parts[1] == "" then None
    else Some(DigitsValue(parts[0]) as real + DigitsValue(parts[1]) as real / Pow10(|parts[1]|))
  }

  const I64_MAX: nat := 0x7FFF_FFFF_FFFF_FFFF

  /** `str::parse::<i64>` on digits. */
  function ParseI64(s: string): Option<nat> {
    match ParseNat(s)
    case Some(n) => if n <= I64_MAX then Some(n) else None
    case None => None
  }

  /** A marker match takes at least its word and always captures its number. */
  lemma MarkerHit(word: string, s: string, p: nat)
    requires p <= |s| && Match(MarkerPattern(word), s, p).Some?
    ensures var h := Match(MarkerPattern(word), s, p).value;
      h.end >= p + |word| && Marker in h.groups
  {
    MarkerTailHit(word, s, p);
    if p + 7 <= |s| {
      MarkerTailHit(word, s, p + 7);
    }
  }

  lemma MarkerTailHit(word: string, s: string, p: nat)
    requires p <= |s|
    ensures var m := Match(MarkerTail(word), s, p);
      m.Some? ==> m.value.end >= p + |word| && Marker in m.value.groups
  {
    var unit := Many(Space, 0, None, Lit("ms", End));
    var number := Many(Decimal, 1, Some(Marker), unit);
    if At(s, p, word) {
      forall q | 0 <= q <= |s| && Match(number, s, q).Some?
        ensures Marker in Match(number, s, q).value.groups
      {
        GreedyNames(number, Marker, s, q, Run(Decimal, s, q));
      }
      var q := p + |word|;
      GreedyKeeps(Many(Space, 0, None, number), Marker, s, q, Run(Space, s, q));
    }
  }

  lemma {:induction false} GreedyNames(pat: Pattern, name: Name, s: string, p: nat, n: nat)
    requires pat.Many? && pat.name == Some(name) && pat.min <= n && p + n <= |s|
    ensures Greedy(pat, s, p, n).Some? ==> name in Greedy(pat, s, p, n).value.groups
    decreases n
  {
    if Match(pat.rest, s, p + n).None? && n > pat.min {
      GreedyNames(pat, name, s, p, n - 1);
    }
  }

  lemma {:induction false} GreedyKeeps(pat: Pattern, name: Name, s: string, p: nat, n: nat)
    requires pat.Many? && pat.name.None? && pat.min <= n && p + n <= |s|
    requires forall q :: 0 <= q <= |s| && Match(pat.rest, s, q).Some? ==> name in Match(pat.rest, s, q).value.groups
    ensures Greedy(pat, s, p, n).Some? ==> name in Greedy(pat, s, p, n).value.groups
    decreases n
  {
    if Match(pat.rest, s, p + n).None? && n > pat.min {
      GreedyKeeps(pat, name, s, p, n - 1);
    }
  }

  /** First match of the marker expression, from `from` on, that is not preceded by
      "Billed "; matches do not overlap. */
  function FirstUnbilled(word: string, s: string, from: nat): Option<string>
    requires from <= |s|
    requires word != ""
    decreases |s| - from
  {
    match Search(MarkerPattern(word), s, from)
    case None => None
    case Some((start, h)) =>
      MarkerHit(word, s, start);
      if BilledPrefix in h.groups then FirstUnbilled(word, s, h.end) else Some(h.groups[Marker])
  }

  /** An absent marker is fine; a present one must be a number. */
  function MarkerValue(word: string, line: string): Result<Option<real>>
    requires word != ""
  {
    match FirstUnbilled(word, line, 0)
    case None => Success(None)
    case Some(text) =>
      match ParseDecimal(text)
      case Some(v) => Success(Some(v))
      case None => Failure
  }

  function Field<T>(groups: map<Name, string>, name: Name, parse: string -> Option<T>): Result<T> {
    if name in groups then
      match parse(groups[name])
      case Some(v) => Success(v)
      case None => Failure
    else Failure
  }

  function ParseLine(line: string): Result<Report> {
    match Search(REPORT_PATTERN, line, 0)
    case None => Failure
    case Some((_, h)) =>
      var init :- MarkerValue(INIT, line);
      var restore :- MarkerValue(RESTORE, line);
      var rid :- Field(h.groups, Rid, s => Some(s));
      var dur :- Field(h.groups, Dur, ParseDecimal);
      var billed :- Field(h.groups, Billed, ParseDecimal);
      var size :- Field(h.groups, MemSize, ParseI64);
      var used :- Field(h.groups, MaxMem, ParseI64);
      Success(Report(rid, dur, billed, size, used, init, restore))
  }

  predicate Contains(s: string, word: string) {
    exists p :: 0 <= p <= |s| && At(s, p, word)
  }

  /** `str::lines`: split at newlines, one carriage return dropped before each of them, no
      final empty line. */
  function Lines(s: string): seq<string> {
    var parts := Split(s, '\n');
    var (done, last) := (parts[..|parts| - 1], parts[|parts| - 1]);
    DropReturns(done) + if last == "" then [] else [last]
  }

  function DropReturns(lines: seq<string>): seq<string> {
    if lines == [] then [] else [DropReturn(lines[0])] + DropReturns(lines[1..])
  }

  function DropReturn(l: string): string {
    if l != "" && l[|l| - 1] == '\r' then l[..|l| - 1] else l
  }

  /** The last line that contains the REPORT prefix. */
  function LastReportLine(lines: seq<string>): Option<string> {
    if lines == [] then None
    else if Contains(lines[|lines| - 1], REQUEST) then Some(lines[|lines| - 1])
    else LastReportLine(lines[..|lines| - 1])
  }

  function ParseReport(tail: string): Result<Report> {
    match LastReportLine(Lines(tail))
    case None => Failure
    case Some(line) => ParseLine(line)
  }

  // ---- The host-CPU line ----------------------------------------------------

  const CPU_MARK := "LAMBDABENCH_CPU "

  /** Text after the first occurrence of `word` at or after `from`. */
  function AfterFirst(s: string, word: string, from: nat): Option<string>
    requires from <= |s|
    decreases |s| - from
  {
    if At(s, from, word) then Some(s[from + |word|..])
    else if from < |s| then AfterFirst(s, word, from + 1)
    else None
  }

  function TrimStart(s: string): string {
    if s != "" && In(s[0], Space) then TrimStart(s[1..]) else s
  }

  function TrimEnd(s: string): string {
    if s != "" && In(s[|s| - 1], Space) then TrimEnd(s[..|s| - 1]) else s
  }

  function LastCpu(lines: seq<string>): Option<string> {
    if lines == [] then None
    else
      match AfterFirst(lines[|lines| - 1], CPU_MARK, 0)
      case Some(text) =>
        var cpu := TrimEnd(TrimStart(text));
        if cpu != "" then Some(cpu) else LastCpu(lines[..|lines| - 1])
      case None => LastCpu(lines[..|lines| - 1])
  }

  function ParseHostCpu(tail: string): Option<string> {
    LastCpu(Lines(tail))
  }
}
