/** A printer for REPORT lines and the proof that the parser inverts it, whatever
    the order of the cold markers and the unknown fields around them. */
module ReportRoundTrip {
  import opened Wrappers
  import opened Text
  import opened Report

  // ---- The printer ----------------------------------------------------------

  datatype Decimals = Decimals(whole: nat, frac: string) {
    predicate Valid() {
      AllDigits(frac)
    }

    function Value(): real
      requires Valid()
    {
      if frac == "" then whole as real else whole as real + DigitsValue(frac) as real / Pow10(|frac|)
    }

    function Print(): string {
      if frac == "" then NatToString(whole) else NatToString(whole) + "." + frac
    }
  }

  /** A field after the mandatory ones: a cold marker, real or billed, or text that
      mentions neither marker. */
  datatype Trailing =
    | Cold(restored: bool, billed: bool, value: Decimals)
    | Other(text: string)
  {
    predicate Valid() {
      match this
      case Cold(_, _, v) => v.Valid()
      case Other(t) => Plain(t) && !Contains(t, INIT) && !Contains(t, RESTORE)
    }

    function Print(): string {
      match this
      case Cold(r, b, v) =>
        (if b then "Billed " else "") + Measure(if r then "Restore Duration:" else "Init Duration:", v.Print(), "ms")
      case Other(t) => t
    }
  }

  /** Request ids are hexadecimal digits and dashes. */
  predicate IdChar(c: char) {
    '0' <= c <= '9' || 'a' <= c <= 'f' || 'A' <= c <= 'F' || c == '-'
  }

  predicate Plain(t: string) {
    '\t' !in t && '\n' !in t && '\r' !in t
  }

  function Measure(caption: string, value: string, unit: string): string {
    caption + " " + value + " " + unit
  }

  datatype Printed = Printed(rid: string, dur: Decimals, billed: Decimals, size: nat, used: nat, fields: seq<Trailing>) {
    predicate Valid() {
      && rid != "" && (forall i :: 0 <= i < |rid| ==> IdChar(rid[i]))
      && dur.Valid() && billed.Valid() && size <= I64_MAX && used <= I64_MAX
      && forall i :: 0 <= i < |fields| ==> fields[i].Valid()
    }

    function Head(): string {
      "REPORT RequestId:" + " " + rid
    }

    function Mandatory(): seq<string> {
      [Measure("Duration:", dur.Print(), "ms"), Measure("Billed Duration:", billed.Print(), "ms"),
       Measure("Memory Size:", NatToString(size), "MB"), Measure("Max Memory Used:", NatToString(used), "MB")]
    }

    function Print(): string {
      Head() + Tabbed(Mandatory()) + Tabbed(Texts(fields))
    }

    /** What the parser is expected to recover. */
    function Fields(): Report
      requires Valid()
    {
      Report(rid, dur.Value(), billed.Value(), size, used, Unbilled(fields, false), Unbilled(fields, true))
    }
  }

  function Texts(fields: seq<Trailing>): seq<string> {
    seq(|fields|, i requires 0 <= i < |fields| => fields[i].Print())
  }

  function Tabbed(parts: seq<string>): string {
    if parts == [] then "" else "\t" + parts[0] + Tabbed(parts[1..])
  }

  /** Value of the first marker of the kind that is not a billed one. */
  function Unbilled(fields: seq<Trailing>, restored: bool): Option<real>
    requires forall i :: 0 <= i < |fields| ==> fields[i].Valid()
  {
    match FirstCold(fields, restored)
    case None => None
    case Some(v) => Some(v.Value())
  }

  function FirstCold(fields: seq<Trailing>, restored: bool): (r: Option<Decimals>)
    requires forall i :: 0 <= i < |fields| ==> fields[i].Valid()
    ensures r.Some? ==> r.value.Valid()
    ensures r.Some? <==> exists i :: 0 <= i < |fields| && fields[i].Cold? && !fields[i].billed && fields[i].restored == restored
  {
    if fields == [] then None
    else if
      assert fields[0].Valid();
      fields[0].Cold? && !fields[0].billed && fields[0].restored == restored then Some(fields[0].value)
    else
      assert forall i :: 1 <= i < |fields| ==> fields[i] == fields[1..][i - 1];
      FirstCold(fields[1..], restored)
  }

  // ---- Numbers --------------------------------------------------------------

  lemma ParsePrintedDecimal(d: Decimals)
    requires d.Valid()
    ensures ParseDecimal(d.Print()) == Some(d.Value())
  {
    var w := NatToString(d.whole);
    ParsePrintedNat(d.whole);
    assert '.' !in w && '.' !in d.frac;
    SplitPiece(w, '.', d.frac);
    SplitPiece(d.frac, '.', "");
    if d.frac != "" {
      assert d.Print() == w + ['.'] + d.frac;
      assert Split(d.Print(), '.') == [w, d.frac];
    }
  }

  lemma DecimalChars(d: Decimals)
    requires d.Valid()
    ensures d.Print() != "" && forall i :: 0 <= i < |d.Print()| ==> In(d.Print()[i], Decimal)
  {
  }

  // ---- Matching one piece at a time -----------------------------------------

  lemma {:induction false} RunIs(cls: Class, s: string, p: nat, n: nat)
    requires p + n <= |s|
    requires forall i :: p <= i < p + n ==> In(s[i], cls)
    requires p + n < |s| ==> !In(s[p + n], cls)
    ensures Run(cls, s, p) == n
    decreases n
  {
    if n > 0 {
      RunIs(cls, s, p + 1, n - 1);
    }
  }

  /** Greedy repetition that takes the whole run at the first try. */
  lemma ManyStep(cls: Class, min: nat, name: Option<Name>, rest: Pattern, s: string, p: nat, n: nat)
    requires p + n <= |s| && min <= n
    requires forall i :: p <= i < p + n ==> In(s[i], cls)
    requires p + n < |s| ==> !In(s[p + n], cls)
    requires Match(rest, s, p + n).Some?
    ensures var h := Match(rest, s, p + n).value;
      Match(Many(cls, min, name, rest), s, p) ==
      Some(if name.Some? then h.(groups := h.groups[name.value := s[p..p + n]]) else h)
  {
    RunIs(cls, s, p, n);
  }

  /** Where the parts of a two-part text stand. */
  lemma AtParts(s: string, p: nat, a: string, b: string)
    requires At(s, p, a + b)
    ensures At(s, p, a) && At(s, p + |a|, b)
  {
    assert forall i :: 0 <= i < |a| ==> (a + b)[i] == a[i];
    assert forall i :: 0 <= i < |b| ==> (a + b)[|a| + i] == b[i];
    forall i | 0 <= i < |b|
      ensures s[p + |a| + i] == b[i]
    {
      assert s[p + (|a| + i)] == (a + b)[|a| + i];
    }
  }

  lemma AtChar(s: string, p: nat, word: string, i: nat)
    requires i < |word|
    ensures At(s, p, word) ==> p + i < |s| && s[p + i] == word[i]
  {
  }

  lemma MeasureParts(s: string, p: nat, caption: string, value: string, unit: string)
    requires At(s, p, Measure(caption, value, unit))
    ensures At(s, p, caption) && At(s, p + |caption|, " ") && At(s, p + |caption| + 1, value)
    ensures At(s, p + |caption| + 1 + |value|, " ") && At(s, p + |caption| + 1 + |value| + 1, unit)
    ensures |Measure(caption, value, unit)| == |caption| + 1 + |value| + 1 + |unit|
  {
    AtParts(s, p, caption + " " + value + " ", unit);
    AtParts(s, p, caption + " " + value, " ");
    AtParts(s, p, caption + " ", value);
    AtParts(s, p, caption, " ");
  }

  lemma QuantityStep(caption: string, cls: Class, name: Name, unit: string, rest: Pattern, s: string, p: nat, value: string)
    requires cls == Decimal || cls == Numeral
    requires value != "" && forall i :: 0 <= i < |value| ==> In(value[i], cls)
    requires unit == "ms" || unit == "MB"
    requires At(s, p, Measure(caption, value, unit))
    requires Match(rest, s, p + |Measure(caption, value, unit)|).Some?
    ensures var h := Match(rest, s, p + |Measure(caption, value, unit)|).value;
      Match(Quantity(caption, cls, name, unit, rest), s, p) == Some(h.(groups := h.groups[name := value]))
  {
    hide Match, Greedy, Run;
    MeasureParts(s, p, caption, value, unit);
    var v := p + |caption| + 1;
    var u := v + |value|;
    AtChar(s, v, value, 0);
    AtChar(s, u, " ", 0);
    AtChar(s, u + 1, unit, 0);
    AtChar(s, v - 1, " ", 0);
    var tail := Many(Space, 0, None, Lit(unit, rest));
    var number := Many(cls, 1, Some(name), tail);
    LitStep(unit, rest, s, u + 1);
    ManyStep(Space, 0, None, Lit(unit, rest), s, u, 1);
    NumberStep(cls, name, tail, s, v, value);
    ManyStep(Space, 0, None, number, s, v - 1, 1);
    LitStep(caption, Many(Space, 0, None, number), s, p);
  }

  lemma LitStep(text: string, rest: Pattern, s: string, p: nat)
    requires At(s, p, text)
    ensures Match(Lit(text, rest), s, p) == Match(rest, s, p + |text|)
  {
  }

  lemma NumberStep(cls: Class, name: Name, rest: Pattern, s: string, p: nat, value: string)
    requires value != "" && forall i :: 0 <= i < |value| ==> In(value[i], cls)
    requires At(s, p, value) && (p + |value| < |s| ==> !In(s[p + |value|], cls))
    requires Match(rest, s, p + |value|).Some?
    ensures var h := Match(rest, s, p + |value|).value;
      Match(Many(cls, 1, Some(name), rest), s, p) == Some(h.(groups := h.groups[name := value]))
  {
    forall i | p <= i < p + |value|
      ensures In(s[i], cls)
    {
      assert s[p + (i - p)] == value[i - p];
    }
    ManyStep(cls, 1, Some(name), rest, s, p, |value|);
    assert s[p..p + |value|] == value;
  }

  // ---- The layout of a printed line -----------------------------------------

  lemma TabbedParts(s: string, p: nat, parts: seq<string>)
    requires parts != [] && At(s, p, Tabbed(parts))
    ensures At(s, p, "\t" + parts[0]) && At(s, p + 1 + |parts[0]|, Tabbed(parts[1..]))
    ensures |Tabbed(parts)| == 1 + |parts[0]| + |Tabbed(parts[1..])|
  {
    AtParts(s, p, "\t" + parts[0], Tabbed(parts[1..]));
  }

  lemma AfterTab(s: string, p: nat, text: string)
    requires At(s, p, "\t" + text)
    ensures p < |s| && s[p] == '\t' && At(s, p + 1, text)
  {
    AtParts(s, p, "\t", text);
    AtChar(s, p, "\t", 0);
  }

  // ---- The mandatory fields -------------------------------------------------

  /** One mandatory field behind its tab, ending at `e`. */
  lemma FieldStep(s: string, p: nat, caption: string, cls: Class, name: Name, unit: string, rest: Pattern, value: string, e: nat)
    requires At(s, p, "\t" + Measure(caption, value, unit)) && e == p + 1 + |Measure(caption, value, unit)|
    requires cls == Decimal || cls == Numeral
    requires value != "" && forall i :: 0 <= i < |value| ==> In(value[i], cls)
    requires unit == "ms" || unit == "MB"
    requires caption != "" && !In(caption[0], Space)
    requires e <= |s| && Match(rest, s, e).Some?
    ensures var h := Match(rest, s, e).value;
      var q := Quantity(caption, cls, name, unit, rest);
      && p + 1 <= |s|
      && Match(q, s, p + 1) == Some(h.(groups := h.groups[name := value]))
      && Match(Many(Space, 1, None, q), s, p) == Match(q, s, p + 1)
      && s[p] == '\t' && At(s, p + 1, caption)
  {
    AfterTab(s, p, Measure(caption, value, unit));
    QuantityStep(caption, cls, name, unit, rest, s, p + 1, value);
    MeasureParts(s, p + 1, caption, value, unit);
    AtChar(s, p + 1, caption, 0);
    ManyStep(Space, 1, None, Quantity(caption, cls, name, unit, rest), s, p, 1);
  }

  ghost predicate LaidOut(r: Printed, s: string, p0: nat, p1: nat, p2: nat, p3: nat, p4: nat) {
    && At(s, 0, r.Head()) && p0 == |r.Head()|
    && At(s, p0, "\t" + r.Mandatory()[0]) && p1 == p0 + 1 + |r.Mandatory()[0]|
    && At(s, p1, "\t" + r.Mandatory()[1]) && p2 == p1 + 1 + |r.Mandatory()[1]|
    && At(s, p2, "\t" + r.Mandatory()[2]) && p3 == p2 + 1 + |r.Mandatory()[2]|
    && At(s, p3, "\t" + r.Mandatory()[3]) && p4 == p3 + 1 + |r.Mandatory()[3]|
    && p4 <= |s|
  }

  lemma FourParts(s: string, p: nat, q: seq<string>) returns (p1: nat, p2: nat, p3: nat, p4: nat)
    requires |q| == 4 && At(s, p, Tabbed(q))
    ensures At(s, p, "\t" + q[0]) && p1 == p + 1 + |q[0]|
    ensures At(s, p1, "\t" + q[1]) && p2 == p1 + 1 + |q[1]|
    ensures At(s, p2, "\t" + q[2]) && p3 == p2 + 1 + |q[2]|
    ensures At(s, p3, "\t" + q[3]) && p4 == p3 + 1 + |q[3]| == p + |Tabbed(q)|
  {
    p1 := p + 1 + |q[0]|;
    p2 := p1 + 1 + |q[1]|;
    p3 := p2 + 1 + |q[2]|;
    p4 := p3 + 1 + |q[3]|;
    TabbedParts(s, p, q);
    TabbedParts(s, p1, q[1..]);
    assert q[1..][1..] == q[2..];
    TabbedParts(s, p2, q[2..]);
    assert q[2..][1..] == q[3..];
    TabbedParts(s, p3, q[3..]);
    assert q[3..][1..] == [];
  }

  lemma MandatoryMatches(r: Printed, s: string, p0: nat, p1: nat, p2: nat, p3: nat, p4: nat)
    requires r.Valid() && LaidOut(r, s, p0, p1, p2, p3, p4)
    ensures var m := Match(REPORT_PATTERN, s, 0);
      m.Some? && m.value.groups == map[Rid := r.rid, Dur := r.dur.Print(), Billed := r.billed.Print(),
                                       MemSize := NatToString(r.size), MaxMem := NatToString(r.used)]
  {
    AfterIdMatches(r, s, p0, p1, p2, p3, p4);
    hide Match, At, NatToString, Decimals.Print, Printed.Head, Printed.Mandatory, REPORT_PATTERN, AFTER_ID;
    HeadStep(r, s);
  }

  lemma AfterIdMatches(r: Printed, s: string, p0: nat, p1: nat, p2: nat, p3: nat, p4: nat)
    requires r.Valid() && LaidOut(r, s, p0, p1, p2, p3, p4)
    ensures p0 + 1 < |s| && s[p0] == '\t' && s[p0 + 1] == 'D'
    ensures var m := Match(AFTER_ID, s, p0 + 1);
      m.Some? && m.value.groups == map[Dur := r.dur.Print(), Billed := r.billed.Print(),
                                       MemSize := NatToString(r.size), MaxMem := NatToString(r.used)]
  {
    DecimalChars(r.dur);
    DecimalChars(r.billed);
    hide Match, Greedy, Run, At, Measure, NatToString, Decimals.Print, Printed.Head, REPORT_PATTERN, AFTER_ID, AFTER_BILLED, In;
    SizesMatch(s, p2, NatToString(r.size), p3, NatToString(r.used), p4);
    TimesMatch(s, p0, r.dur.Print(), p1, r.billed.Print(), p2);
  }

  lemma SizesMatch(s: string, p2: nat, size: string, p3: nat, used: string, p4: nat)
    requires size != "" && AllDigits(size) && used != "" && AllDigits(used)
    requires At(s, p2, "\t" + Measure("Memory Size:", size, "MB")) && p3 == p2 + 1 + |Measure("Memory Size:", size, "MB")|
    requires At(s, p3, "\t" + Measure("Max Memory Used:", used, "MB")) && p4 == p3 + 1 + |Measure("Max Memory Used:", used, "MB")|
    requires p4 <= |s|
    ensures var m := Match(Many(Space, 1, None, AFTER_BILLED), s, p2);
      m.Some? && m.value.groups == map[MemSize := size, MaxMem := used]
  {
    assert Match(End, s, p4) == Some(Hit(p4, map[]));
    FieldStep(s, p3, "Max Memory Used:", Numeral, MaxMem, "MB", End, used, p4);
    FieldStep(s, p2, "Memory Size:", Numeral, MemSize, "MB", Many(Space, 1, None, AFTER_MEMORY), size, p3);
  }

  lemma TimesMatch(s: string, p0: nat, dur: string, p1: nat, billed: string, p2: nat)
    requires dur != "" && (forall i :: 0 <= i < |dur| ==> In(dur[i], Decimal))
    requires billed != "" && (forall i :: 0 <= i < |billed| ==> In(billed[i], Decimal))
    requires At(s, p0, "\t" + Measure("Duration:", dur, "ms")) && p1 == p0 + 1 + |Measure("Duration:", dur, "ms")|
    requires At(s, p1, "\t" + Measure("Billed Duration:", billed, "ms")) && p2 == p1 + 1 + |Measure("Billed Duration:", billed, "ms")|
    requires p2 <= |s| && Match(Many(Space, 1, None, AFTER_BILLED), s, p2).Some?
    ensures p0 + 1 < |s| && s[p0] == '\t' && s[p0 + 1] == 'D'
    ensures var h := Match(Many(Space, 1, None, AFTER_BILLED), s, p2).value;
      Match(AFTER_ID, s, p0 + 1) == Some(h.(groups := h.groups[Billed := billed][Dur := dur]))
  {
    FieldStep(s, p1, "Billed Duration:", Decimal, Billed, "ms", Many(Space, 1, None, AFTER_BILLED), billed, p2);
    FieldStep(s, p0, "Duration:", Decimal, Dur, "ms", Many(Space, 1, None, AFTER_DURATION), dur, p1);
    AtChar(s, p0 + 1, "Duration:", 0);
    assert AFTER_DURATION == Quantity("Billed Duration:", Decimal, Billed, "ms", Many(Space, 1, None, AFTER_BILLED));
    assert AFTER_ID == Quantity("Duration:", Decimal, Dur, "ms", Many(Space, 1, None, AFTER_DURATION));
  }

  lemma HeadStep(r: Printed, s: string)
    requires r.Valid() && At(s, 0, r.Head())
    requires |r.Head()| + 1 < |s| && s[|r.Head()|] == '\t' && s[|r.Head()| + 1] == 'D'
    requires Match(AFTER_ID, s, |r.Head()| + 1).Some?
    ensures var h := Match(AFTER_ID, s, |r.Head()| + 1).value;
      Match(REPORT_PATTERN, s, 0) == Some(h.(groups := h.groups[Rid := r.rid]))
  {
    var n := |REQUEST|;
    var rest := Many(Space, 1, None, Lazy(AFTER_ID));
    AtParts(s, 0, REQUEST + " ", r.rid);
    AtParts(s, 0, REQUEST, " ");
    AtChar(s, n, " ", 0);
    AtChar(s, n + 1, r.rid, 0);
    assert Match(Lazy(AFTER_ID), s, |r.Head()| + 1) == Match(AFTER_ID, s, |r.Head()| + 1);
    ManyStep(Space, 1, None, Lazy(AFTER_ID), s, |r.Head()|, 1);
    NumberStep(Hex, Rid, rest, s, n + 1, r.rid);
    ManyStep(Space, 0, None, Many(Hex, 1, Some(Rid), rest), s, n, 1);
  }

  // ---- The cold markers -----------------------------------------------------

  lemma {:induction false} SearchSkips(pat: Pattern, s: string, from: nat, to: nat)
    requires from <= to <= |s|
    requires forall p :: from <= p < to ==> Match(pat, s, p).None?
    ensures Search(pat, s, from) == Search(pat, s, to)
    decreases |s| - from
  {
    if from < to {
      SearchSkips(pat, s, from + 1, to);
    }
  }

  /** Without the word at `p`, or "Billed " there and the word behind it, no match. */
  lemma NoWordNoMatch(word: string, s: string, p: nat)
    requires p <= |s|
    requires !At(s, p, word) && !(At(s, p, "Billed ") && At(s, p + 7, word))
    ensures Match(MarkerPattern(word), s, p).None?
  {
  }

  /** A tab-delimited chunk without the word holds no match. */
  lemma SkipChunk(word: string, s: string, a: nat, chunk: string)
    requires word == INIT || word == RESTORE
    requires At(s, a, chunk) && (a + |chunk| == |s| || s[a + |chunk|] == '\t')
    requires !Contains(chunk, word)
    ensures FirstUnbilled(word, s, a) == FirstUnbilled(word, s, a + |chunk|)
  {
    var b := a + |chunk|;
    forall p | a <= p < b
      ensures Match(MarkerPattern(word), s, p).None?
    {
      WordNotInChunk(word, s, a, chunk, p);
      if p + 7 < b {
        WordNotInChunk(word, s, a, chunk, p + 7);
      } else if p + 7 == b {
        AtChar(s, b, word, 0);
      } else {
        AtChar(s, p, "Billed ", b - p);
      }
      NoWordNoMatch(word, s, p);
    }
    SearchSkips(MarkerPattern(word), s, a, b);
  }

  lemma WordNotInChunk(word: string, s: string, a: nat, chunk: string, p: nat)
    requires word == INIT || word == RESTORE
    requires At(s, a, chunk) && (a + |chunk| == |s| || s[a + |chunk|] == '\t')
    requires !Contains(chunk, word) && a <= p < a + |chunk|
    ensures !At(s, p, word)
  {
    var b := a + |chunk|;
    if p + |word| <= b {
      assert !At(chunk, p - a, word);
      var i :| 0 <= i < |word| && chunk[p - a + i] != word[i];
      assert s[a + (p - a + i)] == chunk[p - a + i];
    } else {
      AtChar(s, p, word, b - p);
    }
  }

  lemma MissingChar(chunk: string, word: string, k: nat)
    requires k < |word| && word[k] !in chunk
    ensures !Contains(chunk, word)
  {
    forall p | 0 <= p <= |chunk|
      ensures !At(chunk, p, word)
    {
      AtChar(chunk, p, word, k);
    }
  }

  /** One marker field: a billed one is stepped over, a real one is the answer. */
  lemma MarkerField(s: string, a: nat, f: Trailing)
    requires f.Cold? && f.Valid() && At(s, a, "\t" + f.Print())
    ensures var word := if f.restored then RESTORE else INIT;
      FirstUnbilled(word, s, a) ==
      if f.billed then FirstUnbilled(word, s, a + 1 + |f.Print()|) else Some(f.value.Print())
  {
    hide At, Trailing.Print, Decimals.Print, Measure, FirstUnbilled, In;
    DecimalChars(f.value);
    AfterTab(s, a, f.Print());
    ColdPrint(f);
    hide *;
    MarkerText(if f.restored then RESTORE else INIT, s, a, f.value.Print(), f.billed, f.Print());
  }

  lemma MarkerText(word: string, s: string, a: nat, value: string, billed: bool, text: string)
    requires word == INIT || word == RESTORE
    requires value != "" && forall i :: 0 <= i < |value| ==> In(value[i], Decimal)
    requires a < |s| && s[a] == '\t' && At(s, a + 1, text)
    requires var marker := Measure(word, value, "ms");
      if billed then text == "Billed " + marker && |text| == 7 + |marker| else text == marker
    ensures FirstUnbilled(word, s, a) == if billed then FirstUnbilled(word, s, a + 1 + |text|) else Some(value)
  {
    hide *;
    if billed {
      AtParts(s, a + 1, "Billed ", Measure(word, value, "ms"));
      BilledStep(word, s, a, value);
    } else {
      UnbilledStep(word, s, a, value);
    }
  }

  lemma ColdPrint(f: Trailing)
    requires f.Cold?
    ensures var text := Measure(if f.restored then RESTORE else INIT, f.value.Print(), "ms");
      if f.billed then f.Print() == "Billed " + text && |f.Print()| == 7 + |text| else f.Print() == text
  {
  }

  lemma BilledStep(word: string, s: string, a: nat, value: string)
    requires word == INIT || word == RESTORE
    requires value != "" && forall i :: 0 <= i < |value| ==> In(value[i], Decimal)
    requires a < |s| && s[a] == '\t' && At(s, a + 1, "Billed ") && At(s, a + 8, Measure(word, value, "ms"))
    ensures FirstUnbilled(word, s, a) == FirstUnbilled(word, s, a + 8 + |Measure(word, value, "ms")|)
  {
    SkipTab(word, s, a);
    TailHere(word, s, a + 8, value);
    MarkerHere(word, s, a + 1, true);
  }

  lemma UnbilledStep(word: string, s: string, a: nat, value: string)
    requires word == INIT || word == RESTORE
    requires value != "" && forall i :: 0 <= i < |value| ==> In(value[i], Decimal)
    requires a < |s| && s[a] == '\t' && At(s, a + 1, Measure(word, value, "ms"))
    ensures FirstUnbilled(word, s, a) == Some(value)
  {
    SkipTab(word, s, a);
    TailHere(word, s, a + 1, value);
    AtChar(s, a + 1, word, 0);
    AtChar(s, a + 1, "Billed ", 0);
    MarkerHere(word, s, a + 1, false);
  }

  lemma SkipTab(word: string, s: string, a: nat)
    requires word == INIT || word == RESTORE
    requires a < |s| && s[a] == '\t'
    ensures FirstUnbilled(word, s, a) == FirstUnbilled(word, s, a + 1)
  {
    NotAtTab(word, s, a);
    SearchSkips(MarkerPattern(word), s, a, a + 1);
  }

  lemma TailHere(word: string, s: string, m: nat, value: string)
    requires word == INIT || word == RESTORE
    requires value != "" && forall i :: 0 <= i < |value| ==> In(value[i], Decimal)
    requires At(s, m, Measure(word, value, "ms"))
    ensures Match(MarkerTail(word), s, m) == Some(Hit(m + |Measure(word, value, "ms")|, map[Marker := value]))
    ensures At(s, m, word)
  {
    var e := m + |Measure(word, value, "ms")|;
    assert Match(End, s, e) == Some(Hit(e, map[]));
    QuantityStep(word, Decimal, Marker, "ms", End, s, m, value);
    MeasureParts(s, m, word, value, "ms");
  }

  lemma NotAtTab(word: string, s: string, a: nat)
    requires word == INIT || word == RESTORE
    requires a < |s| && s[a] == '\t'
    ensures Match(MarkerPattern(word), s, a).None?
  {
    AtChar(s, a, word, 0);
    AtChar(s, a, "Billed ", 0);
    NoWordNoMatch(word, s, a);
  }

  lemma MarkerHere(word: string, s: string, p: nat, billed: bool)
    requires p <= |s| && word != "" && (billed <==> At(s, p, "Billed "))
    requires var q := if billed then p + 7 else p;
      q <= |s| && Match(MarkerTail(word), s, q).Some? && BilledPrefix !in Match(MarkerTail(word), s, q).value.groups
      && Marker in Match(MarkerTail(word), s, q).value.groups
    ensures var h := Match(MarkerTail(word), s, if billed then p + 7 else p).value;
      FirstUnbilled(word, s, p) == if billed then FirstUnbilled(word, s, h.end) else Some(h.groups[Marker])
  {
    var h := Match(MarkerTail(word), s, if billed then p + 7 else p).value;
    assert Match(MarkerPattern(word), s, p) ==
      Some(if billed then h.(groups := h.groups[BilledPrefix := "Billed "]) else h);
    assert Search(MarkerPattern(word), s, p).value.0 == p;
  }

  lemma {:induction false} FieldsScan(s: string, a: nat, fields: seq<Trailing>, restored: bool)
    requires forall i :: 0 <= i < |fields| ==> fields[i].Valid()
    requires At(s, a, Tabbed(Texts(fields))) && a + |Tabbed(Texts(fields))| == |s|
    ensures var found := FirstCold(fields, restored);
      FirstUnbilled(if restored then RESTORE else INIT, s, a) ==
      if found.Some? then Some(found.value.Print()) else None
    decreases |fields|
  {
    hide FirstUnbilled, Contains, At, Tabbed, Texts, Trailing.Print, Decimals.Print;
    if fields == [] {
      NoFields();
      EndOfLine(if restored then RESTORE else INIT, s);
    } else {
      FirstField(s, a, fields);
      FieldsScan(s, a + 1 + |fields[0].Print()|, fields[1..], restored);
      PassField(s, a, fields[0], restored);
    }
  }

  lemma NoFields()
    ensures Tabbed(Texts([])) == ""
  {
  }

  lemma FirstField(s: string, a: nat, fields: seq<Trailing>)
    requires fields != [] && At(s, a, Tabbed(Texts(fields))) && a + |Tabbed(Texts(fields))| == |s|
    ensures At(s, a, "\t" + fields[0].Print())
    ensures var (b, rest) := (a + 1 + |fields[0].Print()|, Tabbed(Texts(fields[1..])));
      At(s, b, rest) && b + |rest| == |s| && (b == |s| || s[b] == '\t')
  {
    hide Trailing.Print;
    var rest := fields[1..];
    assert Texts(fields)[1..] == Texts(rest) && Texts(fields)[0] == fields[0].Print();
    TabbedParts(s, a, Texts(fields));
    if rest != [] {
      AtChar(s, a + 1 + |fields[0].Print()|, Tabbed(Texts(rest)), 0);
    }
  }

  /** One field on the way: an unbilled marker of the kind is found, anything else is passed over. */
  lemma PassField(s: string, a: nat, f: Trailing, restored: bool)
    requires f.Valid() && At(s, a, "\t" + f.Print())
    requires var b := a + 1 + |f.Print()|; b == |s| || (b < |s| && s[b] == '\t')
    ensures var word := if restored then RESTORE else INIT;
      FirstUnbilled(word, s, a) ==
      if f.Cold? && f.restored == restored && !f.billed then Some(f.value.Print())
      else FirstUnbilled(word, s, a + 1 + |f.Print()|)
  {
    hide FirstUnbilled, Contains;
    if f.Cold? && f.restored == restored {
      MarkerField(s, a, f);
    } else {
      FieldWithout(f, restored);
      SkipChunk(if restored then RESTORE else INIT, s, a, "\t" + f.Print());
    }
  }

  lemma EndOfLine(word: string, s: string)
    requires word == INIT || word == RESTORE
    ensures FirstUnbilled(word, s, |s|) == None
  {
    NoWordNoMatch(word, s, |s|);
  }

  /** A field of the other kind does not mention the word. */
  lemma FieldWithout(f: Trailing, restored: bool)
    requires f.Valid() && !(f.Cold? && f.restored == restored)
    ensures !Contains("\t" + f.Print(), if restored then RESTORE else INIT)
  {
    if f.Cold? {
      OtherMarker(f.value, f.billed, restored);
    } else {
      BehindTab(f.text, if restored then RESTORE else INIT);
    }
  }

  lemma OtherMarker(v: Decimals, billed: bool, restored: bool)
    requires v.Valid()
    ensures !Contains("\t" + Cold(!restored, billed, v).Print(), if restored then RESTORE else INIT)
  {
    var c := if restored then 'R' else 'I';
    DecimalChars(v);
    var other := if restored then INIT else RESTORE;
    assert c !in other;
    MeasureWithout(other, v.Print(), "ms", c);
    var m := Measure(other, v.Print(), "ms");
    assert c !in m;
    assert c !in "Billed " + m;
    MissingChar("\t" + Cold(!restored, billed, v).Print(), if restored then RESTORE else INIT, 0);
  }

  lemma BehindTab(t: string, word: string)
    requires word != "" && word[0] != '\t' && !Contains(t, word)
    ensures !Contains("\t" + t, word)
  {
    var chunk := "\t" + t;
    forall p | 0 <= p <= |chunk|
      ensures !At(chunk, p, word)
    {
      AtChar(chunk, p, word, 0);
      if p > 0 && p + |word| <= |chunk| {
        assert !At(t, p - 1, word);
        var i :| 0 <= i < |word| && t[p - 1 + i] != word[i];
        assert chunk[p + i] == t[p - 1 + i];
      }
    }
  }

  lemma FourFields(r: Printed)
    ensures |r.Mandatory()| == 4
  {
  }

  lemma TabAfter(s: string, p: nat, parts: seq<string>)
    requires parts != [] && At(s, p, Tabbed(parts))
    ensures p < |s| && s[p] == '\t'
  {
    TabbedParts(s, p, parts);
    AfterTab(s, p, parts[0]);
  }

  /** The mandatory fields mention neither marker, so the scan starts after them. */
  lemma BaseScan(r: Printed, s: string, p4: nat, restored: bool)
    requires r.Valid() && At(s, 0, r.Head()) && At(s, |r.Head()|, Tabbed(r.Mandatory()))
    requires p4 == |r.Head()| + |Tabbed(r.Mandatory())| && (p4 == |s| || s[p4] == '\t')
    ensures FirstUnbilled(if restored then RESTORE else INIT, s, 0) == FirstUnbilled(if restored then RESTORE else INIT, s, p4)
  {
    hide *;
    var word := if restored then RESTORE else INIT;
    FourFields(r);
    TabAfter(s, |r.Head()|, r.Mandatory());
    HeadScan(r, s, word);
    MandatoryScan(r, s, word);
  }

  lemma HeadScan(r: Printed, s: string, word: string)
    requires r.Valid() && (word == INIT || word == RESTORE)
    requires At(s, 0, r.Head()) && |r.Head()| < |s| && s[|r.Head()|] == '\t'
    ensures FirstUnbilled(word, s, 0) == FirstUnbilled(word, s, |r.Head()|)
  {
    hide *;
    HeadWithout(r, word == RESTORE);
    SkipChunk(word, s, 0, r.Head());
  }

  lemma MandatoryScan(r: Printed, s: string, word: string)
    requires r.Valid() && (word == INIT || word == RESTORE) && At(s, |r.Head()|, Tabbed(r.Mandatory()))
    requires var p4 := |r.Head()| + |Tabbed(r.Mandatory())|; p4 == |s| || s[p4] == '\t'
    ensures FirstUnbilled(word, s, |r.Head()|) == FirstUnbilled(word, s, |r.Head()| + |Tabbed(r.Mandatory())|)
  {
    FourFields(r);
    hide *;
    MandatoryWithout(r, word == RESTORE);
    PartsScan(word, s, |r.Head()|, r.Mandatory());
  }

  lemma {:induction false} PartsScan(word: string, s: string, a: nat, parts: seq<string>)
    requires word == INIT || word == RESTORE
    requires At(s, a, Tabbed(parts)) && (a + |Tabbed(parts)| == |s| || s[a + |Tabbed(parts)|] == '\t')
    requires forall k :: 0 <= k < |parts| ==> !Contains("\t" + parts[k], word)
    ensures FirstUnbilled(word, s, a) == FirstUnbilled(word, s, a + |Tabbed(parts)|)
    decreases |parts|
  {
    if parts != [] {
      TabbedParts(s, a, parts);
      var b := a + 1 + |parts[0]|;
      if |parts| > 1 {
        TabbedParts(s, b, parts[1..]);
        AfterTab(s, b, parts[1]);
      }
      SkipChunk(word, s, a, "\t" + parts[0]);
      PartsScan(word, s, b, parts[1..]);
    }
  }

  /** 'n' and 'o' are not hexadecimal digits. */
  lemma HeadWithout(r: Printed, restored: bool)
    requires r.Valid()
    ensures !Contains(r.Head(), if restored then RESTORE else INIT)
  {
    if restored {
      assert RESTORE[4] == 'o' && 'o' !in r.rid;
      MissingChar(r.Head(), RESTORE, 4);
    } else {
      assert INIT[1] == 'n' && 'n' !in r.rid;
      MissingChar(r.Head(), INIT, 1);
    }
  }

  lemma MandatoryWithout(r: Printed, restored: bool)
    requires r.Valid()
    ensures forall k :: 0 <= k < 4 ==> !Contains("\t" + r.Mandatory()[k], if restored then RESTORE else INIT)
  {
    DecimalChars(r.dur);
    DecimalChars(r.billed);
    hide Contains, Measure, RESTORE, INIT;
    CaptionWithout("Duration:", r.dur.Print(), "ms", restored);
    CaptionWithout("Billed Duration:", r.billed.Print(), "ms", restored);
    CaptionWithout("Memory Size:", NatToString(r.size), "MB", restored);
    CaptionWithout("Max Memory Used:", NatToString(r.used), "MB", restored);
  }

  lemma CaptionWithout(caption: string, value: string, unit: string, restored: bool)
    requires caption in {"Duration:", "Billed Duration:", "Memory Size:", "Max Memory Used:"} && (unit == "ms" || unit == "MB")
    requires forall i :: 0 <= i < |value| ==> In(value[i], Decimal)
    ensures !Contains("\t" + Measure(caption, value, unit), if restored then RESTORE else INIT)
  {
    hide Contains, Measure;
    MeasureWithout(caption, value, unit, if restored then 'R' else 'I');
    MissingChar("\t" + Measure(caption, value, unit), if restored then RESTORE else INIT, 0);
  }

  lemma MeasureWithout(caption: string, value: string, unit: string, c: char)
    requires c == 'R' || c == 'I'
    requires c !in caption && c !in unit && forall i :: 0 <= i < |value| ==> In(value[i], Decimal)
    ensures c !in Measure(caption, value, unit) && c !in "\t" + Measure(caption, value, unit)
  {
    assert c !in value;
  }

  lemma MarkerRecovered(r: Printed, s: string, p4: nat, restored: bool)
    requires r.Valid() && At(s, 0, r.Head()) && At(s, |r.Head()|, Tabbed(r.Mandatory()))
    requires p4 == |r.Head()| + |Tabbed(r.Mandatory())|
    requires At(s, p4, Tabbed(Texts(r.fields))) && p4 + |Tabbed(Texts(r.fields))| == |s|
    ensures MarkerValue(if restored then RESTORE else INIT, s) == Success(Unbilled(r.fields, restored))
  {
    if r.fields != [] {
      AtChar(s, p4, Tabbed(Texts(r.fields)), 0);
    }
    BaseScan(r, s, p4, restored);
    FieldsScan(s, p4, r.fields, restored);
    if FirstCold(r.fields, restored).Some? {
      ParsePrintedDecimal(FirstCold(r.fields, restored).value);
    }
  }

  // ---- Main results ---------------------------------------------------------

  lemma PrintParts(r: Printed)
    ensures var (s, m) := (r.Print(), Tabbed(r.Mandatory()));
      && At(s, 0, r.Head()) && At(s, |r.Head()|, m) && At(s, |r.Head()| + |m|, Tabbed(Texts(r.fields)))
      && |s| == |r.Head()| + |m| + |Tabbed(Texts(r.fields))|
  {
    var s, h, m := r.Print(), r.Head(), Tabbed(r.Mandatory());
    assert At(s, 0, (h + m) + Tabbed(Texts(r.fields)));
    AtParts(s, 0, h + m, Tabbed(Texts(r.fields)));
    AtParts(s, 0, h, m);
  }

  /** Parsing inverts printing, for every line the printer can produce. */
  lemma LineRoundTrip(r: Printed)
    requires r.Valid()
    ensures ParseLine(r.Print()) == Success(r.Fields())
  {
    var s := r.Print();
    var rest := Tabbed(Texts(r.fields));
    PrintParts(r);
    var p1, p2, p3, p4 := FourParts(s, |r.Head()|, r.Mandatory());
    MandatoryMatches(r, s, |r.Head()|, p1, p2, p3, p4);
    MarkerRecovered(r, s, p4, false);
    MarkerRecovered(r, s, p4, true);
    ParsePrintedDecimal(r.dur);
    ParsePrintedDecimal(r.billed);
    ParsePrintedNat(r.size);
    ParsePrintedNat(r.used);
    GroupsDecide(r, s, Match(REPORT_PATTERN, s, 0).value);
  }

  lemma GroupsDecide(r: Printed, s: string, h: Hit)
    requires r.Valid() && Match(REPORT_PATTERN, s, 0) == Some(h)
    requires h.groups == map[Rid := r.rid, Dur := r.dur.Print(), Billed := r.billed.Print(),
                             MemSize := NatToString(r.size), MaxMem := NatToString(r.used)]
    requires MarkerValue(INIT, s) == Success(Unbilled(r.fields, false))
    requires MarkerValue(RESTORE, s) == Success(Unbilled(r.fields, true))
    requires ParseDecimal(r.dur.Print()) == Some(r.dur.Value())
    requires ParseDecimal(r.billed.Print()) == Some(r.billed.Value())
    requires ParseNat(NatToString(r.size)) == Some(r.size) && ParseNat(NatToString(r.used)) == Some(r.used)
    ensures ParseLine(s) == Success(r.Fields())
  {
    MatchAtStart(s, h);
    hide Search, Match, MarkerValue, ParseDecimal, Unbilled, NatToString, ParseNat, Decimals.Print;
    GroupsRead(r, h.groups);
    LineBuilt(s, h, r.rid, r.dur.Value(), r.billed.Value(), r.size, r.used, Unbilled(r.fields, false), Unbilled(r.fields, true));
  }

  lemma MatchAtStart(s: string, h: Hit)
    requires Match(REPORT_PATTERN, s, 0) == Some(h)
    ensures Search(REPORT_PATTERN, s, 0) == Some((0, h))
  {
    hide Match, REPORT_PATTERN;
  }

  lemma GroupsRead(r: Printed, groups: map<Name, string>)
    requires r.Valid()
    requires groups == map[Rid := r.rid, Dur := r.dur.Print(), Billed := r.billed.Print(),
                           MemSize := NatToString(r.size), MaxMem := NatToString(r.used)]
    requires ParseDecimal(r.dur.Print()) == Some(r.dur.Value())
    requires ParseDecimal(r.billed.Print()) == Some(r.billed.Value())
    requires ParseNat(NatToString(r.size)) == Some(r.size) && ParseNat(NatToString(r.used)) == Some(r.used)
    ensures Field(groups, Rid, s => Some(s)) == Success(r.rid)
    ensures Field(groups, Dur, ParseDecimal) == Success(r.dur.Value())
    ensures Field(groups, Billed, ParseDecimal) == Success(r.billed.Value())
    ensures Field(groups, MemSize, ParseI64) == Success(r.size)
    ensures Field(groups, MaxMem, ParseI64) == Success(r.used)
  {
    hide ParseDecimal, NatToString, ParseNat, Decimals.Print, Decimals.Value;
  }

  lemma LineBuilt(s: string, h: Hit, rid: string, dur: real, billed: real, size: nat, used: nat, init: Option<real>, restore: Option<real>)
    requires Search(REPORT_PATTERN, s, 0) == Some((0, h))
    requires Field(h.groups, Rid, t => Some(t)) == Success(rid)
    requires Field(h.groups, Dur, ParseDecimal) == Success(dur) && Field(h.groups, Billed, ParseDecimal) == Success(billed)
    requires Field(h.groups, MemSize, ParseI64) == Success(size) && Field(h.groups, MaxMem, ParseI64) == Success(used)
    requires MarkerValue(INIT, s) == Success(init) && MarkerValue(RESTORE, s) == Success(restore)
    ensures ParseLine(s).Success? && ParseLine(s).value == Report(rid, dur, billed, size, used, init, restore)
  {
    hide Search, MarkerValue, Field, ParseDecimal, ParseI64, REPORT_PATTERN;
  }

  /** A line reads as cold exactly when an unbilled marker was printed on it. */
  lemma ColdExactly(r: Printed)
    requires r.Valid()
    ensures ParseLine(r.Print()).Success?
    ensures ParseLine(r.Print()).value.IsCold()
       <==> exists i :: 0 <= i < |r.fields| && r.fields[i].Cold? && !r.fields[i].billed
  {
    LineRoundTrip(r);
    if i :| 0 <= i < |r.fields| && r.fields[i].Cold? && !r.fields[i].billed {
      assert FirstCold(r.fields, r.fields[i].restored).Some?;
    }
  }

  function Unlines(lines: seq<string>): string {
    if lines == [] then "" else lines[0] + "\n" + Unlines(lines[1..])
  }

  /** Lines that end in newlines, and then `end`, split into the lines and `end`. */
  lemma {:induction false} SplitUnlines(lines: seq<string>, end: string)
    requires (forall i :: 0 <= i < |lines| ==> '\n' !in lines[i]) && '\n' !in end
    ensures Split(Unlines(lines) + end, '\n') == lines + [end]
  {
    if lines == [] {
      SplitPiece(end, '\n', "");
      assert Unlines(lines) + end == end;
    } else {
      SplitUnlines(lines[1..], end);
      SplitPiece(lines[0], '\n', Unlines(lines[1..]) + end);
      assert Unlines(lines) + end == lines[0] + "\n" + (Unlines(lines[1..]) + end);
    }
  }

  lemma LinesRoundTrip(lines: seq<string>, end: string)
    requires (forall i :: 0 <= i < |lines| ==> '\n' !in lines[i]) && '\n' !in end
    ensures Lines(Unlines(lines) + end) == DropReturns(lines) + if end == "" then [] else [end]
  {
    SplitUnlines(lines, end);
    var parts := Split(Unlines(lines) + end, '\n');
    assert parts[|parts| - 1] == end && parts[..|parts| - 1] == lines;
  }

  lemma {:induction false} DroppedParts(pre: seq<string>, line: string, post: seq<string>)
    ensures DropReturns(pre + [line] + post) == DropReturns(pre) + [DropReturn(line)] + DropReturns(post)
  {
    hide DropReturn;
    DroppedConcat([line], post);
    DroppedConcat(pre, [line] + post);
    assert DropReturns([]) == [];
    Regroup(pre, [line], post);
  }

  lemma {:induction false} DroppedConcat(a: seq<string>, b: seq<string>)
    ensures DropReturns(a + b) == DropReturns(a) + DropReturns(b)
  {
    hide DropReturn;
    if a == [] {
      assert a + b == b;
    } else {
      DroppedConcat(a[1..], b);
      assert (a + b)[1..] == a[1..] + b;
    }
  }

  /** Dropping a carriage return puts no REPORT prefix into a line. */
  lemma {:induction false} DroppedWithout(lines: seq<string>)
    requires forall i :: 0 <= i < |lines| ==> !Contains(lines[i], REQUEST)
    ensures forall i :: 0 <= i < |DropReturns(lines)| ==> !Contains(DropReturns(lines)[i], REQUEST)
  {
    if lines != [] {
      DroppedWithout(lines[1..]);
      PrefixWithout(lines[0], DropReturn(lines[0]));
    }
  }

  lemma PrefixWithout(l: string, d: string)
    requires !Contains(l, REQUEST) && d <= l
    ensures !Contains(d, REQUEST)
  {
    forall p | 0 <= p <= |d|
      ensures !At(d, p, REQUEST)
    {
      assert !At(l, p, REQUEST);
      AtPrefix(d, l, p, REQUEST);
    }
  }

  lemma AtPrefix(d: string, l: string, p: nat, word: string)
    requires d <= l
    ensures At(d, p, word) ==> At(l, p, word)
  {
    if At(d, p, word) {
      assert l[p..p + |word|] == d[p..p + |word|];
    }
  }

  lemma {:induction false} LastWins(pre: seq<string>, line: string, post: seq<string>)
    requires Contains(line, REQUEST)
    requires forall i :: 0 <= i < |post| ==> !Contains(post[i], REQUEST)
    ensures LastReportLine(pre + [line] + post) == Some(line)
    decreases |post|
  {
    var all := pre + [line] + post;
    if post == [] {
      assert all[|all| - 1] == line;
    } else {
      assert all[|all| - 1] == post[|post| - 1];
      assert all[..|all| - 1] == pre + [line] + post[..|post| - 1];
      LastWins(pre, line, post[..|post| - 1]);
    }
  }

  /** In a whole log tail the last REPORT line wins, and it is read back exactly: with either line ending and anything
      without the prefix behind it, or as the last line without an ending. */
  lemma TailRoundTrip(tail: string, pre: seq<string>, r: Printed, ending: string, post: seq<string>, end: string)
    requires r.Valid() && (ending == "" || ending == "\r")
    requires forall i :: 0 <= i < |pre| ==> '\n' !in pre[i]
    requires forall i :: 0 <= i < |post| ==> '\n' !in post[i] && !Contains(post[i], REQUEST)
    requires '\n' !in end && !Contains(end, REQUEST)
    requires tail == Unlines(pre + [r.Print() + ending] + post) + end || tail == Unlines(pre) + r.Print()
    ensures ParseReport(tail) == Success(r.Fields())
  {
    hide Unlines, Printed.Print, ParseReport, ParseLine, Contains;
    PrintNoBreaks(r);
    PrintHasRequest(r);
    if tail == Unlines(pre) + r.Print() {
      UnendedLineParsed(pre, r.Print());
    } else {
      LastLineParsed(pre, r.Print(), ending, post, end);
    }
    LineRoundTrip(r);
  }

  /** A tail without a REPORT line is an error. */
  lemma NoReportLine(lines: seq<string>, end: string)
    requires forall i :: 0 <= i < |lines| ==> '\n' !in lines[i] && !Contains(lines[i], REQUEST)
    requires '\n' !in end && !Contains(end, REQUEST)
    ensures ParseReport(Unlines(lines) + end).Failure?
  {
    hide Contains, Unlines, Lines, DropReturns, LastReportLine, ParseLine;
    LinesRoundTrip(lines, end);
    DroppedWithout(lines);
    NoneChosen(DropReturns(lines) + if end == "" then [] else [end]);
  }

  lemma {:induction false} NoneChosen(lines: seq<string>)
    requires forall i :: 0 <= i < |lines| ==> !Contains(lines[i], REQUEST)
    ensures LastReportLine(lines) == None
    decreases |lines|
  {
    if lines != [] {
      NoneChosen(lines[..|lines| - 1]);
    }
  }

  /** Whole numbers are read exactly, and refused from 2^63 on. */
  lemma WholeNumbers(n: nat)
    ensures ParseI64(NatToString(n)) == if n < 0x8000_0000_0000_0000 then Some(n) else None
  {
    ParsePrintedNat(n);
  }

  lemma UnendedLineParsed(pre: seq<string>, line: string)
    requires NoBreaks(line) && Contains(line, REQUEST)
    requires forall i :: 0 <= i < |pre| ==> '\n' !in pre[i]
    ensures ParseReport(Unlines(pre) + line) == ParseLine(line)
  {
    hide Unlines, Lines, LastReportLine, ParseReport, ParseLine;
    assert line != "";
    LinesRoundTrip(pre, line);
    LastWins(DropReturns(pre), line, []);
    assert DropReturns(pre) + [line] + [] == DropReturns(pre) + [line];
    LineChosen(Unlines(pre) + line, line);
  }

  lemma PrintHasRequest(r: Printed)
    ensures Contains(r.Print(), REQUEST)
  {
    PrintParts(r);
    AtParts(r.Print(), 0, REQUEST + " ", r.rid);
    AtParts(r.Print(), 0, REQUEST, " ");
  }

  lemma LastLineParsed(pre: seq<string>, line: string, ending: string, post: seq<string>, end: string)
    requires NoBreaks(line) && Contains(line, REQUEST) && (ending == "" || ending == "\r")
    requires forall i :: 0 <= i < |pre| ==> '\n' !in pre[i]
    requires forall i :: 0 <= i < |post| ==> '\n' !in post[i] && !Contains(post[i], REQUEST)
    requires '\n' !in end && !Contains(end, REQUEST)
    ensures ParseReport(Unlines(pre + [line + ending] + post) + end) == ParseLine(line)
  {
    hide *;
    DropsEnding(line, ending);
    var lines := pre + [line + ending] + post;
    var last := if end == "" then [] else [end];
    Without(pre, line + ending, post);
    LinesRoundTrip(lines, end);
    DroppedParts(pre, line + ending, post);
    DroppedWithout(post);
    var after := DropReturns(post) + last;
    forall i | 0 <= i < |after| ensures !Contains(after[i], REQUEST) {
      assert i < |DropReturns(post)| ==> after[i] == DropReturns(post)[i];
    }
    LastWins(DropReturns(pre), line, after);
    Regroup(DropReturns(pre) + [line], DropReturns(post), last);
    LineChosen(Unlines(lines) + end, line);
  }

  lemma Without(pre: seq<string>, line: string, post: seq<string>)
    requires '\n' !in line
    requires (forall i :: 0 <= i < |pre| ==> '\n' !in pre[i]) && (forall i :: 0 <= i < |post| ==> '\n' !in post[i])
    ensures forall i :: 0 <= i < |pre + [line] + post| ==> '\n' !in (pre + [line] + post)[i]
  {
    hide *;
    var all := pre + [line] + post;
    forall i | 0 <= i < |all| ensures '\n' !in all[i] {
      assert all[i] == if i < |pre| then pre[i] else if i == |pre| then line else post[i - |pre| - 1];
    }
  }

  lemma Regroup(a: seq<string>, b: seq<string>, c: seq<string>)
    ensures a + b + c == a + (b + c)
  {
  }

  lemma DropsEnding(line: string, ending: string)
    requires NoBreaks(line) && (ending == "" || ending == "\r")
    ensures DropReturn(line + ending) == line && '\n' !in line + ending
  {
  }

  lemma LineChosen(tail: string, line: string)
    requires LastReportLine(Lines(tail)) == Some(line)
    ensures ParseReport(tail) == ParseLine(line)
  {
  }

  predicate NoBreaks(s: string) {
    '\n' !in s && '\r' !in s
  }

  lemma NoBreaksConcat(a: string, b: string)
    requires NoBreaks(a) && NoBreaks(b)
    ensures NoBreaks(a + b)
  {
  }

  lemma MeasureNoBreaks(caption: string, value: string, unit: string)
    requires NoBreaks(caption) && NoBreaks(unit) && forall i :: 0 <= i < |value| ==> In(value[i], Decimal)
    ensures NoBreaks(Measure(caption, value, unit))
  {
    assert NoBreaks(value);
  }

  lemma TrailingNoBreaks(f: Trailing)
    requires f.Valid()
    ensures NoBreaks(f.Print())
  {
    if f.Cold? {
      DecimalChars(f.value);
      MeasureNoBreaks(if f.restored then RESTORE else INIT, f.value.Print(), "ms");
      NoBreaksConcat("Billed ", Measure(if f.restored then RESTORE else INIT, f.value.Print(), "ms"));
    }
  }

  lemma PrintNoBreaks(r: Printed)
    requires r.Valid()
    ensures NoBreaks(r.Print())
  {
    var h, m, t := r.Head(), Tabbed(r.Mandatory()), Tabbed(Texts(r.fields));
    assert NoBreaks(r.rid);
    NoBreaksConcat(REQUEST + " ", r.rid);
    MandatoryNoBreaks(r);
    forall i | 0 <= i < |r.fields|
      ensures NoBreaks(Texts(r.fields)[i])
    {
      TrailingNoBreaks(r.fields[i]);
    }
    TabbedNoBreaks(Texts(r.fields));
    NoBreaksConcat(h, m);
    NoBreaksConcat(h + m, t);
  }

  lemma MandatoryNoBreaks(r: Printed)
    requires r.Valid()
    ensures NoBreaks(Tabbed(r.Mandatory()))
  {
    DecimalChars(r.dur);
    DecimalChars(r.billed);
    MeasureNoBreaks("Duration:", r.dur.Print(), "ms");
    MeasureNoBreaks("Billed Duration:", r.billed.Print(), "ms");
    MeasureNoBreaks("Memory Size:", NatToString(r.size), "MB");
    MeasureNoBreaks("Max Memory Used:", NatToString(r.used), "MB");
    TabbedNoBreaks(r.Mandatory());
  }

  lemma {:induction false} TabbedNoBreaks(parts: seq<string>)
    requires forall i :: 0 <= i < |parts| ==> NoBreaks(parts[i])
    ensures NoBreaks(Tabbed(parts))
  {
    if parts != [] {
      TabbedNoBreaks(parts[1..]);
    }
  }
}
