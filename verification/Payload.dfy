/** The seeded payloads: a JSON array grown entry by entry, and a reader that gets its entries back. */
module Payload {
  import opened Text
  import opened Wrappers

  // ---- The array ------------------------------------------------------------

  function Entries(entry: nat -> string, n: nat): (parts: seq<string>)
    ensures |parts| == n && forall i :: 0 <= i < n ==> parts[i] == entry(i)
  {
    if n == 0 then [] else Entries(entry, n - 1) + [entry(n - 1)]
  }

  /** The first `n` entries between an opening bracket and commas, not yet closed. */
  function Open(entry: nat -> string, n: nat): string {
    "[" + Join(Entries(entry, n), ',')
  }

  function Closed(entry: nat -> string, n: nat): string {
    Open(entry, n) + "]"
  }

  lemma {:induction false} JoinPush(parts: seq<string>, last: string)
    ensures Join(parts + [last], ',') == if parts == [] then last else Join(parts, ',') + "," + last
  {
    if |parts| == 0 {
      assert parts + [last] == [last];
    } else if |parts| == 1 {
      assert (parts + [last])[1..] == [last];
    } else {
      JoinPush(parts[1..], last);
      assert (parts + [last])[1..] == parts[1..] + [last];
    }
  }

  lemma OpenPush(entry: nat -> string, n: nat)
    ensures Open(entry, n + 1) == Open(entry, n) + (if n > 0 then "," else "") + entry(n)
  {
    JoinPush(Entries(entry, n), entry(n));
    var before := Join(Entries(entry, n), ',');
    if n == 0 {
      assert Open(entry, 0) + "" + entry(0) == "[" + entry(0);
    } else {
      assert "[" + (before + "," + entry(n)) == "[" + before + "," + entry(n);
    }
  }

  /** `n` is the least number of entries whose unclosed text has `minBytes`. */
  ghost predicate Least(entry: nat -> string, minBytes: nat, n: nat) {
    |Open(entry, n)| >= minBytes && forall m :: 0 <= m < n ==> |Open(entry, m)| < minBytes
  }

  /** Some array of entries closes to exactly `minBytes`. */
  ghost predicate ClosesTo(entry: nat -> string, minBytes: nat) {
    exists m: nat :: |Closed(entry, m)| == minBytes
  }

  /** Ends the array at the least number of entries whose unclosed text has `minBytes`. That is also the least whose
      closed text has it if and only if no number of entries closes to exactly that size. */
  method BuildJsonArray(minBytes: nat, entry: nat -> string) returns (out: string, ghost n: nat)
    ensures out == Closed(entry, n) && |out| > minBytes
    ensures Least(entry, minBytes, n)
    ensures (forall m :: 0 <= m < n ==> |Closed(entry, m)| < minBytes) <==> !ClosesTo(entry, minBytes)
  {
    out := "[";
    var i := 0;
    assert Open(entry, 0) == "[";
    while |out| < minBytes
      invariant out == Open(entry, i)
      invariant forall m :: 0 <= m < i ==> |Open(entry, m)| < minBytes
      decreases minBytes - |out|, if i == 0 then 1 else 0
    {
      OpenPush(entry, i);
      if i > 0 {
        out := out + ",";
      }
      out := out + entry(i);
      i := i + 1;
    }
    out := out + "]";
    n := i;
    ShortestExactly(entry, minBytes, n);
  }

  lemma {:induction false} OpenGrows(entry: nat -> string, m: nat, n: nat)
    requires m <= n
    ensures |Open(entry, m)| <= |Open(entry, n)|
    decreases n
  {
    if m < n {
      OpenGrows(entry, m, n - 1);
      OpenPush(entry, n - 1);
    }
  }

  /** The size is tested before the bracket is added. */
  lemma ShortestExactly(entry: nat -> string, minBytes: nat, n: nat)
    requires Least(entry, minBytes, n)
    ensures (forall m :: 0 <= m < n ==> |Closed(entry, m)| < minBytes) <==> !ClosesTo(entry, minBytes)
  {
    forall m: nat | |Closed(entry, m)| == minBytes ensures m < n {
      if m >= n {
        OpenGrows(entry, n, m);
      }
    }
    if m: nat :| m < n && |Closed(entry, m)| >= minBytes {
      assert |Open(entry, m)| < minBytes;
      assert |Closed(entry, m)| == minBytes;
    }
  }

  /** For every cardinality there is such a size: one batch record closes to it, and two are written. */
  lemma OneEntryTooMany(cardinality: nat, n: nat)
    requires cardinality >= 1 && Least(BatchEntryOf(cardinality), |Closed(BatchEntryOf(cardinality), 1)|, n)
    ensures n == 2
  {
    var entry := BatchEntryOf(cardinality);
    hide BatchEntryOf;
    OpenPush(entry, 0);
    OpenPush(entry, 1);
    hide Open;
    OpenGrows(entry, 0, 1);
    assert |Open(entry, 1)| < |Closed(entry, 1)| <= |Open(entry, 2)|;
  }

  // ---- Reading it back ------------------------------------------------------

  /** The first place of `c`. */
  function Find(s: string, c: char): (k: Option<nat>)
    ensures k.Some? ==> k.value < |s| && s[k.value] == c
  {
    if s == "" then None
    else if s[0] == c then Some(0)
    else match Find(s[1..], c)
      case None => None
      case Some(k) => Some(k + 1)
  }

  lemma {:induction false} FindsFirst(a: string, c: char, b: string)
    requires c !in a
    ensures Find(a + [c] + b, c) == Some(|a|)
  {
    if a != "" {
      FindsFirst(a[1..], c, b);
      assert (a + [c] + b)[1..] == a[1..] + [c] + b;
    }
  }

  /** Where the value begun at the front ends: `depth` brackets are open, and `quoted` says whether a string is.
      A backslash in a string hides the character behind it. */
  function ValueEnd(s: string, depth: nat, quoted: bool): (n: Option<nat>)
    ensures n.Some? ==> 0 < n.value <= |s|
    decreases |s|
  {
    if s == "" then None
    else if quoted then
      if s[0] == '\\' then (if |s| == 1 then None else Shift(2, ValueEnd(s[2..], depth, true)))
      else if s[0] != '"' then Shift(1, ValueEnd(s[1..], depth, true))
      else if depth == 0 then Some(1)
      else Shift(1, ValueEnd(s[1..], depth, false))
    else if s[0] == '"' then Shift(1, ValueEnd(s[1..], depth, true))
    else if s[0] in {'{', '['} then Shift(1, ValueEnd(s[1..], depth + 1, false))
    else if depth == 0 then None
    else if s[0] !in {'}', ']'} then Shift(1, ValueEnd(s[1..], depth, false))
    else if depth == 1 then Some(1)
    else Shift(1, ValueEnd(s[1..], depth - 1, false))
  }

  function Shift(k: nat, n: Option<nat>): Option<nat> {
    match n
    case None => None
    case Some(v) => Some(k + v)
  }

  lemma {:induction false} EndAppended(s: string, depth: nat, quoted: bool, t: string)
    requires ValueEnd(s, depth, quoted).Some?
    ensures ValueEnd(s + t, depth, quoted) == ValueEnd(s, depth, quoted)
    decreases |s|
  {
    assert (s + t)[1..] == s[1..] + t;
    if quoted && s[0] == '\\' {
      assert (s + t)[2..] == s[2..] + t;
      EndAppended(s[2..], depth, true, t);
    } else if quoted {
      if s[0] != '"' {
        EndAppended(s[1..], depth, true, t);
      } else if depth > 0 {
        EndAppended(s[1..], depth, false, t);
      }
    } else if s[0] == '"' {
      EndAppended(s[1..], depth, true, t);
    } else if s[0] in {'{', '['} {
      EndAppended(s[1..], depth + 1, false, t);
    } else if s[0] !in {'}', ']'} {
      EndAppended(s[1..], depth, false, t);
    } else if depth > 1 {
      EndAppended(s[1..], depth - 1, false, t);
    }
  }

  /** Length of the string or the object at the front, whatever strings, escapes, arrays and objects are inside. */
  function ElementLength(s: string): (n: Option<nat>)
    ensures n.Some? ==> 0 < n.value <= |s|
  {
    if s == "" || s[0] !in {'"', '{'} then None else ValueEnd(s, 0, false)
  }

  predicate IsElement(e: string) {
    ElementLength(e) == Some(|e|)
  }

  lemma ElementInFront(e: string, t: string)
    requires IsElement(e)
    ensures ElementLength(e + t) == Some(|e|)
  {
    EndAppended(e, 0, false, t);
  }

  function ElementsFrom(s: string): Option<seq<string>>
    decreases |s|
  {
    match ElementLength(s)
    case None => None
    case Some(n) =>
      if s[n..] == "]" then Some([s[..n]])
      else if |s| == n || s[n] != ',' then None
      else match ElementsFrom(s[n + 1..])
        case None => None
        case Some(rest) => Some([s[..n]] + rest)
  }

  /** The elements of a compact array. */
  function DecodeArray(s: string): Option<seq<string>> {
    if s == "[]" then Some([])
    else if s == "" || s[0] != '[' then None
    else ElementsFrom(s[1..])
  }

  lemma OneElement(e: string)
    requires IsElement(e)
    ensures ElementsFrom(e + "]") == Some([e])
  {
    ElementInFront(e, "]");
    assert (e + "]")[|e|..] == "]" && (e + "]")[..|e|] == e;
  }

  lemma NextElement(e: string, t: string, rest: seq<string>)
    requires IsElement(e) && ElementsFrom(t) == Some(rest)
    ensures ElementsFrom(e + "," + t) == Some([e] + rest)
  {
    var s := e + "," + t;
    assert s == e + ("," + t);
    ElementInFront(e, "," + t);
    assert s[|e|] == ',' && s[|e| + 1..] == t && s[..|e|] == e;
    assert s[|e|..][0] != ']';
  }

  lemma {:induction false} JoinedElements(parts: seq<string>)
    requires parts != [] && forall i :: 0 <= i < |parts| ==> IsElement(parts[i])
    ensures ElementsFrom(Join(parts, ',') + "]") == Some(parts)
  {
    hide IsElement, ElementsFrom;
    if |parts| == 1 {
      OneElement(parts[0]);
      assert parts == [parts[0]];
    } else {
      var t := Join(parts[1..], ',') + "]";
      JoinedElements(parts[1..]);
      NextElement(parts[0], t, parts[1..]);
      assert Join(parts, ',') + "]" == parts[0] + "," + t;
      assert parts == [parts[0]] + parts[1..];
    }
  }

  /** Whatever the entries, reading the array gives back exactly the entries written. */
  lemma ArrayRoundTrip(entry: nat -> string, n: nat)
    requires forall i: nat :: i < n ==> IsElement(entry(i))
    ensures DecodeArray(Closed(entry, n)) == Some(Entries(entry, n))
  {
    hide IsElement, Join;
    var s := Closed(entry, n);
    if n > 0 {
      var parts := Entries(entry, n);
      forall i | 0 <= i < n ensures IsElement(parts[i]) {
        assert IsElement(entry(i));
      }
      JoinedElements(parts);
      assert s[1..] == Join(parts, ',') + "]";
      assert ElementsFrom("]") == None;
    } else {
      NothingClosed(entry);
    }
  }

  lemma NothingClosed(entry: nat -> string)
    ensures Closed(entry, 0) == "[]"
  {
  }

  // ---- Batch records --------------------------------------------------------

  datatype Record = Record(key: string, value: int)

  /** The `i`-th record of the seeded batch. */
  function BatchRecord(cardinality: nat, i: nat): Record
    requires cardinality >= 1
  {
    Record("k" + Padded(i % cardinality, 4), i % 997 + 1)
  }

  const KEY_PART := "{\"key\":\""
  const VALUE_PART := "\",\"value\":"

  function BatchEntry(cardinality: nat, i: nat): string
    requires cardinality >= 1
  {
    KEY_PART + "k" + Padded(i % cardinality, 4) + VALUE_PART + NatToString(i % 997 + 1) + "}"
  }

  /** Reads a record in the form the seed writes. */
  function DecodeRecord(s: string): Option<Record> {
    if |s| < 9 || s[..8] != KEY_PART || s[|s| - 1] != '}' then None
    else
      var body := s[8..|s| - 1];
      match Find(body, '"')
      case None => None
      case Some(q) =>
        if |body| < q + 10 || body[q..q + 10] != VALUE_PART then None
        else match ParseNat(body[q + 10..])
          case None => None
          case Some(value) => Some(Record(body[..q], value))
  }

  /** Text without quotes and backslashes, in ASCII. */
  predicate PlainText(s: string) {
    forall i :: 0 <= i < |s| ==> s[i] != '"' && s[i] != '\\' && s[i] < '\U{80}'
  }

  lemma PlainParts(a: string, b: string)
    requires PlainText(a) && PlainText(b)
    ensures PlainText(a + b)
  {
  }

  /** PlainText text inside a string is passed over. */
  lemma {:induction false} PassPlain(text: string, rest: string, depth: nat)
    requires PlainText(text)
    ensures ValueEnd(text + rest, depth, true) == Shift(|text|, ValueEnd(rest, depth, true))
  {
    if text == "" {
      assert text + rest == rest;
    } else {
      PassPlain(text[1..], rest, depth);
      assert (text + rest)[1..] == text[1..] + rest;
    }
  }

  /** A plain string is one element. */
  lemma QuotedIsElement(text: string)
    requires PlainText(text)
    ensures IsElement("\"" + text + "\"")
  {
    var s := "\"" + text + "\"";
    PassPlain(text, "\"", 0);
    assert s[1..] == text + "\"";
  }

  /** A plain string inside an object is passed over. */
  lemma PassString(text: string, rest: string, depth: nat)
    requires PlainText(text) && depth >= 1
    ensures ValueEnd("\"" + text + "\"" + rest, depth, false) == Shift(|text| + 2, ValueEnd(rest, depth, false))
  {
    var s := "\"" + text + "\"" + rest;
    assert s[1..] == text + ("\"" + rest);
    PassPlain(text, "\"" + rest, depth);
    assert ("\"" + rest)[1..] == rest;
  }

  /** So is text without quotes and brackets. */
  lemma {:induction false} PassBetween(text: string, rest: string, depth: nat)
    requires depth >= 1 && forall i :: 0 <= i < |text| ==> text[i] !in {'"', '{', '[', '}', ']'}
    ensures ValueEnd(text + rest, depth, false) == Shift(|text|, ValueEnd(rest, depth, false))
  {
    if text == "" {
      assert text + rest == rest;
    } else {
      PassBetween(text[1..], rest, depth);
      assert (text + rest)[1..] == text[1..] + rest;
    }
  }

  lemma DigitsOnly(s: string, c: char)
    requires AllDigits(s) && !IsDigit(c)
    ensures c !in s
  {
  }

  lemma RecordReads(key: string, digits: string, value: nat)
    requires '"' !in key && ParseNat(digits) == Some(value)
    ensures DecodeRecord(KEY_PART + key + VALUE_PART + digits + "}") == Some(Record(key, value))
  {
    hide ParseNat, Find;
    var s := KEY_PART + key + VALUE_PART + digits + "}";
    var body := key + VALUE_PART + digits;
    assert s == KEY_PART + body + "}";
    assert s[..8] == KEY_PART && s[8..|s| - 1] == body && s[|s| - 1] == '}';
    var rest := VALUE_PART[1..] + digits;
    assert body == key + ['"'] + rest;
    FindsFirst(key, '"', rest);
    assert body[|key|..|key| + 10] == VALUE_PART && body[|key| + 10..] == digits && body[..|key|] == key;
  }

  /** What follows each of the record's strings. */
  lemma RecordIsElement(key: string, digits: string)
    requires PlainText(key) && AllDigits(digits)
    ensures IsElement(KEY_PART + key + VALUE_PART + digits + "}")
  {
    hide ValueEnd, PlainText;
    LastBrace();
    PassBetween(digits, "}", 1);
    PlainNames();
    var r3 := digits + "}";
    var r2 := PassField("value", ":", r3);
    var r1 := PassField(key, ",", r2);
    var r0 := PassField("key", ":", r1);
    FirstBrace(r0);
    RecordText(key, digits);
  }

  /** A string and one more character inside an object are passed over. */
  lemma PassField(text: string, mark: string, rest: string) returns (all: string)
    requires PlainText(text) && (mark == ":" || mark == ",")
    ensures all == "\"" + text + "\"" + mark + rest
    ensures ValueEnd(all, 1, false) == Shift(|text| + 3, ValueEnd(rest, 1, false)) && |all| == |text| + 3 + |rest|
  {
    hide ValueEnd, PlainText;
    all := "\"" + text + "\"" + mark + rest;
    PassBetween(mark, rest, 1);
    PassString(text, mark + rest, 1);
    assert all == "\"" + text + "\"" + (mark + rest);
  }

  lemma RecordText(key: string, digits: string)
    ensures KEY_PART + key + VALUE_PART + digits + "}" ==
      "{" + ("\"" + "key" + "\"" + ":" + ("\"" + key + "\"" + "," + ("\"" + "value" + "\"" + ":" + (digits + "}"))))
  {
  }

  lemma LastBrace()
    ensures ValueEnd("}", 1, false) == Some(1)
  {
  }

  lemma FirstBrace(rest: string)
    ensures ValueEnd("{" + rest, 0, false) == Shift(1, ValueEnd(rest, 1, false))
  {
    assert ("{" + rest)[1..] == rest;
  }

  lemma PlainNames()
    ensures PlainText("key") && PlainText("value")
  {
  }

  lemma BatchEntryReads(cardinality: nat, i: nat)
    requires cardinality >= 1
    ensures IsElement(BatchEntry(cardinality, i))
    ensures DecodeRecord(BatchEntry(cardinality, i)) == Some(BatchRecord(cardinality, i))
  {
    var (pad, value) := (Padded(i % cardinality, 4), NatToString(i % 997 + 1));
    var key := "k" + pad;
    assert PlainText("k") && PlainText(pad);
    PlainParts("k", pad);
    DigitsOnly(pad, '"');
    hide Padded, NatToString, DecodeRecord, IsElement, ParseNat, PlainText;
    ParsePrintedNat(i % 997 + 1);
    RecordReads(key, value, i % 997 + 1);
    RecordIsElement(key, value);
    assert KEY_PART + "k" + pad == KEY_PART + key;
  }

  function BatchEntryOf(cardinality: nat): nat -> string
    requires cardinality >= 1
  {
    (i: nat) => BatchEntry(cardinality, i)
  }

  /** The payload reads back as the first `n` records, `n` being the least count whose unclosed text has `minBytes`. */
  method GenerateBatchPayload(minBytes: nat, cardinality: nat) returns (out: string, ghost n: nat)
    requires cardinality >= 1
    ensures DecodeArray(out) == Some(Entries(BatchEntryOf(cardinality), n)) && |out| > minBytes
    ensures forall i: nat :: i < n ==> DecodeRecord(BatchEntryOf(cardinality)(i)) == Some(BatchRecord(cardinality, i))
    ensures Least(BatchEntryOf(cardinality), minBytes, n)
  {
    hide Open, Closed, DecodeArray, IsElement, BatchEntry, DecodeRecord, Least;
    var entry := BatchEntryOf(cardinality);
    out, n := BuildJsonArray(minBytes, entry);
    forall i: nat | i < n ensures IsElement(entry(i)) && DecodeRecord(entry(i)) == Some(BatchRecord(cardinality, i)) {
      BatchEntryReads(cardinality, i);
    }
    ArrayRoundTrip(entry, n);
  }

  // ---- Letter counting ------------------------------------------------------

  const WORDS := ["alpha", "bravo", "charlie", "delta", "echo", "foxtrot", "golf", "hotel"]

  const LETTER_TAIL := " the quick" + " brown fox" + " jumps over" + " the lazy dog" + " record"

  /** The text of the `i`-th string of the seeded letter-count document. */
  function LetterText(i: nat): string {
    WORDS[i % 8] + " " + WORDS[i / 8 % 8] + " " + WORDS[i / 64 % 8] + LETTER_TAIL + NatToString(i)
  }

  function LetterEntry(i: nat): string {
    "\"" + LetterText(i) + "\""
  }

  lemma WordsPlain(w: nat)
    requires w < 8
    ensures PlainText(WORDS[w])
  {
    match w
    case 0 => assert WORDS[0] == "alpha";
    case 1 => assert WORDS[1] == "bravo";
    case 2 => assert WORDS[2] == "charlie";
    case 3 => assert WORDS[3] == "delta";
    case 4 => assert WORDS[4] == "echo";
    case 5 => assert WORDS[5] == "foxtrot";
    case 6 => assert WORDS[6] == "golf";
    case _ => assert WORDS[7] == "hotel";
  }

  lemma TailPlain()
    ensures PlainText(LETTER_TAIL) && PlainText(" ")
  {
    assert PlainText(" the quick");
    assert PlainText(" brown fox");
    assert PlainText(" jumps over");
    assert PlainText(" the lazy dog");
    assert PlainText(" record");
  }

  /** Every text is plain, so its entry is one element, and the check that it is ASCII always passes. */
  lemma LetterEntryReads(i: nat)
    ensures PlainText(LetterText(i)) && IsElement(LetterEntry(i))
    ensures LetterEntry(i)[1..|LetterEntry(i)| - 1] == LetterText(i)
  {
    var (a, b, c, d) := (WORDS[i % 8], WORDS[i / 8 % 8], WORDS[i / 64 % 8], NatToString(i));
    assert PlainText(d);
    WordsPlain(i % 8);
    WordsPlain(i / 8 % 8);
    WordsPlain(i / 64 % 8);
    TailPlain();
    hide PlainText, NatToString, IsElement;
    PlainParts(a, " ");
    PlainParts(a + " ", b);
    PlainParts(a + " " + b, " ");
    PlainParts(a + " " + b + " ", c);
    PlainParts(a + " " + b + " " + c, LETTER_TAIL);
    PlainParts(a + " " + b + " " + c + LETTER_TAIL, d);
    QuotedIsElement(LetterText(i));
  }

  /** No two entries are the same text, and their three leading words repeat exactly every 512 entries. */
  lemma LettersDiffer(i: nat, j: nat)
    ensures LetterText(i) == LetterText(j) ==> i == j
    ensures |Split(LetterText(i), ' ')| >= 3 && |Split(LetterText(j), ' ')| >= 3
    ensures Split(LetterText(i), ' ')[..3] == Split(LetterText(j), ' ')[..3] <==> i % 512 == j % 512
  {
    LeadingWords(i);
    LeadingWords(j);
    WordsDiffer(i % 8, j % 8);
    WordsDiffer(i / 8 % 8, j / 8 % 8);
    WordsDiffer(i / 64 % 8, j / 64 % 8);
    Octal(i);
    Octal(j);
    if LetterText(i) == LetterText(j) {
      var (s, t) := (LetterFront(i), LetterFront(j));
      TailEnds(i);
      TailEnds(j);
      TrailingNumeral(s, i, t, j);
    }
  }

  function LetterFront(i: nat): string {
    WORDS[i % 8] + " " + WORDS[i / 8 % 8] + " " + WORDS[i / 64 % 8] + LETTER_TAIL
  }

  lemma TailEnds(i: nat)
    ensures LetterText(i) == LetterFront(i) + NatToString(i)
    ensures LetterFront(i) != "" && LetterFront(i)[|LetterFront(i)| - 1] == 'd'
  {
  }

  /** Three octal digits. */
  lemma Octal(i: nat)
    ensures i % 512 == i / 64 % 8 * 64 + i / 8 % 8 * 8 + i % 8
  {
    var (a, r) := (i / 8, i % 8);
    var (b, s) := (a / 8, a % 8);
    By64(i, b, 8 * s + r);
    var (q, t) := (b / 8, b % 8);
    By512(i, q, 64 * t + 8 * s + r);
  }

  lemma By64(i: nat, q: nat, low: nat)
    requires i == 64 * q + low && low < 64
    ensures i / 64 == q
  {
  }

  lemma By512(i: nat, q: nat, low: nat)
    requires i == 512 * q + low && low < 512
    ensures i % 512 == low
  {
  }

  lemma WordsDiffer(a: nat, b: nat)
    requires a < 8 && b < 8
    ensures WORDS[a] == WORDS[b] <==> a == b
    ensures ' ' !in WORDS[a]
  {
    assert forall k :: 0 <= k < 8 ==> WORDS[k] != "" && WORDS[k][0] == ['a', 'b', 'c', 'd', 'e', 'f', 'g', 'h'][k];
  }

  lemma LeadingWords(i: nat)
    ensures |Split(LetterText(i), ' ')| >= 3
    ensures Split(LetterText(i), ' ')[..3] == [WORDS[i % 8], WORDS[i / 8 % 8], WORDS[i / 64 % 8]]
  {
    var (a, b, c) := (WORDS[i % 8], WORDS[i / 8 % 8], WORDS[i / 64 % 8]);
    WordsDiffer(i % 8, 0);
    WordsDiffer(i / 8 % 8, 0);
    WordsDiffer(i / 64 % 8, 0);
    TailStarts();
    hide Split, NatToString, WORDS, LETTER_TAIL;
    Spaced(a, b, c, LETTER_TAIL, LETTER_TAIL[1..], NatToString(i));
    ThreeWords(a, b, c, LETTER_TAIL[1..] + NatToString(i));
  }

  lemma TailStarts()
    ensures LETTER_TAIL != "" && LETTER_TAIL == " " + LETTER_TAIL[1..]
  {
  }

  lemma Spaced(a: string, b: string, c: string, tail: string, rest: string, n: string)
    requires tail == " " + rest
    ensures a + " " + b + " " + c + tail + n == a + " " + (b + " " + (c + " " + (rest + n)))
  {
  }

  lemma ThreeWords(a: string, b: string, c: string, rest: string)
    requires ' ' !in a && ' ' !in b && ' ' !in c
    ensures var parts := Split(a + " " + (b + " " + (c + " " + rest)), ' ');
      |parts| >= 3 && parts[..3] == [a, b, c]
  {
    hide Split;
    SplitPiece(a, ' ', b + " " + (c + " " + rest));
    SplitPiece(b, ' ', c + " " + rest);
    SplitPiece(c, ' ', rest);
  }

  function LetterEntryOf(): nat -> string {
    (i: nat) => LetterEntry(i)
  }

  method GenerateLetterCountPayload(minBytes: nat) returns (out: string, ghost n: nat)
    ensures DecodeArray(out) == Some(Entries(LetterEntryOf(), n)) && |out| > minBytes
    ensures Least(LetterEntryOf(), minBytes, n)
  {
    hide Open, Closed, DecodeArray, IsElement, LetterEntry, Least, PlainText;
    var entry := LetterEntryOf();
    out, n := BuildJsonArray(minBytes, entry);
    forall i: nat | i < n ensures IsElement(entry(i)) {
      LetterEntryReads(i);
    }
    ArrayRoundTrip(entry, n);
  }
}
