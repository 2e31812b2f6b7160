/** Keys of the site bucket: which are content-hashed assets, how manifests are named, and
    why their name order is their time order. */
module SiteNames {
  import opened Text

  const MANIFEST_PREFIX := "_deploys/"
  const MANIFEST_SUFFIX := ".txt"

  predicate StartsWith(s: string, prefix: string) {
    prefix <= s
  }

  predicate EndsWith(s: string, suffix: string) {
    |suffix| <= |s| && s[|s| - |suffix|..] == suffix
  }

  /** True for keys in the content-hashed key space. */
  predicate IsAsset(key: string) {
    && !StartsWith(key, MANIFEST_PREFIX) && !EndsWith(key, ".html")
    && key !in {"robots.txt", "sitemap.xml", "favicon.svg", "apple-touch-icon.png"}
  }

  predicate IsManifest(key: string) {
    StartsWith(key, MANIFEST_PREFIX) && EndsWith(key, MANIFEST_SUFFIX)
  }

  // ---- Name order -----------------------------------------------------------

  /** Order of strings by code point. */
  predicate Less(a: string, b: string) {
    if b == "" then false
    else if a == "" then true
    else a[0] < b[0] || (a[0] == b[0] && Less(a[1..], b[1..]))
  }

  lemma {:induction false} LessIsStrict(a: string)
    ensures !Less(a, a)
  {
    if a != "" {
      LessIsStrict(a[1..]);
    }
  }

  lemma {:induction false} LessTrans(a: string, b: string, c: string)
    requires Less(a, b) && Less(b, c)
    ensures Less(a, c)
  {
    if a != "" && a[0] == b[0] == c[0] {
      LessTrans(a[1..], b[1..], c[1..]);
    }
  }

  lemma {:induction false} LessTotal(a: string, b: string)
    ensures a == b || Less(a, b) || Less(b, a)
  {
    if a != "" && b != "" && a[0] == b[0] {
      LessTotal(a[1..], b[1..]);
      assert a == [a[0]] + a[1..] && b == [b[0]] + b[1..];
    }
  }

  /** Behind parts of equal length, order is decided part by part. */
  lemma {:induction false} LessByParts(p: string, q: string, x: string, y: string)
    requires |p| == |q|
    ensures Less(p + x, q + y) <==> Less(p, q) || (p == q && Less(x, y))
  {
    if p == "" {
      assert p + x == x && q + y == y;
    } else {
      LessByParts(p[1..], q[1..], x, y);
      assert (p + x)[1..] == p[1..] + x && (q + y)[1..] == q[1..] + y;
      assert p == [p[0]] + p[1..] && q == [q[0]] + q[1..];
    }
  }

  // ---- Stamps ---------------------------------------------------------------

  /** A UTC time to the microsecond. */
  datatype Time = Time(year: nat, month: nat, day: nat, hour: nat, minute: nat, second: nat, micro: nat) {
    predicate Valid() {
      1000 <= year < 10000 && month < 100 && day < 100 && hour < 100 && minute < 100 && second < 100 && micro < 1_000_000
    }
  }

  function FieldLimit(w: nat): (r: nat)
    ensures r > 0
  {
    if w == 0 then 1 else 10 * FieldLimit(w - 1)
  }

  /** `n` in exactly `w` digits. */
  function Fixed(n: nat, w: nat): (s: string)
    ensures |s| == w
  {
    if w == 0 then "" else Fixed(n / 10, w - 1) + [DigitChar(n % 10)]
  }

  lemma {:induction false} FixedOrder(a: nat, b: nat, w: nat)
    requires a < FieldLimit(w) && b < FieldLimit(w)
    ensures Less(Fixed(a, w), Fixed(b, w)) <==> a < b
    ensures Fixed(a, w) == Fixed(b, w) <==> a == b
  {
    if w > 0 {
      FixedOrder(a / 10, b / 10, w - 1);
      var (x, y) := (DigitChar(a % 10), DigitChar(b % 10));
      LessByParts(Fixed(a / 10, w - 1), Fixed(b / 10, w - 1), [x], [y]);
      assert Fixed(a, w)[..w - 1] == Fixed(a / 10, w - 1) && Fixed(a, w)[w - 1] == x;
      assert Fixed(b, w)[..w - 1] == Fixed(b / 10, w - 1) && Fixed(b, w)[w - 1] == y;
      assert Less([x], [y]) <==> x < y;
    }
  }

  /** `%Y%m%dT%H%M%S%fZ` */
  function Stamp(t: Time): string {
    Fixed(t.year, 4) + (Fixed(t.month, 2) + (Fixed(t.day, 2) + ("T" + (Fixed(t.hour, 2)
      + (Fixed(t.minute, 2) + (Fixed(t.second, 2) + (Fixed(t.micro, 6) + "Z")))))))
  }

  function ManifestKey(t: Time): (key: string)
    ensures IsManifest(key)
  {
    var key := MANIFEST_PREFIX + (Stamp(t) + MANIFEST_SUFFIX);
    assert key[|key| - 4..] == MANIFEST_SUFFIX;
    key
  }

  predicate Before(a: Time, b: Time) {
    a.year < b.year || (a.year == b.year && (a.month < b.month || (a.month == b.month && (a.day < b.day || (a.day == b.day
      && (a.hour < b.hour || (a.hour == b.hour && (a.minute < b.minute || (a.minute == b.minute
      && (a.second < b.second || (a.second == b.second && a.micro < b.micro)))))))))))
  }

  lemma Widths()
    ensures FieldLimit(2) == 100 && FieldLimit(4) == 10000 && FieldLimit(6) == 1_000_000
  {
  }

  /** One fixed-width field in front of the rest of the stamp. */
  lemma FieldOrder(a: nat, b: nat, w: nat, x: string, y: string)
    requires a < FieldLimit(w) && b < FieldLimit(w)
    ensures Less(Fixed(a, w) + x, Fixed(b, w) + y) <==> a < b || (a == b && Less(x, y))
  {
    FixedOrder(a, b, w);
    LessByParts(Fixed(a, w), Fixed(b, w), x, y);
  }

  /** Name order of the stamps is time order. */
  lemma StampOrder(a: Time, b: Time)
    requires a.Valid() && b.Valid()
    ensures Less(Stamp(a), Stamp(b)) <==> Before(a, b)
  {
    hide Less, Fixed, FieldLimit;
    Widths();
    var (a7, b7) := (Fixed(a.micro, 6) + "Z", Fixed(b.micro, 6) + "Z");
    var (a6, b6) := (Fixed(a.second, 2) + a7, Fixed(b.second, 2) + b7);
    var (a5, b5) := (Fixed(a.minute, 2) + a6, Fixed(b.minute, 2) + b6);
    var (a4, b4) := (Fixed(a.hour, 2) + a5, Fixed(b.hour, 2) + b5);
    var (a3, b3) := ("T" + a4, "T" + b4);
    var (a2, b2) := (Fixed(a.day, 2) + a3, Fixed(b.day, 2) + b3);
    var (a1, b1) := (Fixed(a.month, 2) + a2, Fixed(b.month, 2) + b2);
    LessIsStrict("Z");
    FieldOrder(a.micro, b.micro, 6, "Z", "Z");
    FieldOrder(a.second, b.second, 2, a7, b7);
    FieldOrder(a.minute, b.minute, 2, a6, b6);
    FieldOrder(a.hour, b.hour, 2, a5, b5);
    LessIsStrict("T");
    LessByParts("T", "T", a4, b4);
    FieldOrder(a.day, b.day, 2, a3, b3);
    FieldOrder(a.month, b.month, 2, a2, b2);
    FieldOrder(a.year, b.year, 4, a1, b1);
  }

  lemma {:induction false} StampLength(t: Time)
    ensures |Stamp(t)| == 22
  {
  }

  /** So the manifests of later builds sort later. */
  lemma ManifestOrder(a: Time, b: Time)
    requires a.Valid() && b.Valid()
    ensures Less(ManifestKey(a), ManifestKey(b)) <==> Before(a, b)
  {
    StampOrder(a, b);
    StampLength(a);
    StampLength(b);
    LessIsStrict(MANIFEST_PREFIX);
    LessIsStrict(MANIFEST_SUFFIX);
    LessByParts(MANIFEST_PREFIX, MANIFEST_PREFIX, Stamp(a) + MANIFEST_SUFFIX, Stamp(b) + MANIFEST_SUFFIX);
    LessByParts(Stamp(a), Stamp(b), MANIFEST_SUFFIX, MANIFEST_SUFFIX);
  }

  // ---- Manifest text --------------------------------------------------------

  /** The characters `splitlines` breaks at. */
  predicate IsBreak(c: char) {
    c == '\n' || c == '\r' || c == '\U{0B}' || c == '\U{0C}' || '\U{1C}' <= c <= '\U{1E}' || c == '\U{85}'
    || c == '\U{2028}' || c == '\U{2029}'
  }

  predicate CleanKey(key: string) {
    key != "" && forall i :: 0 <= i < |key| ==> !IsBreak(key[i])
  }

  /** One key per line. */
  function ManifestText(keys: seq<string>): string {
    if keys == [] then "" else keys[0] + "\n" + ManifestText(keys[1..])
  }

  /** The non-empty lines of a text, with a line begun so far. */
  function LinesFrom(text: string, line: string): seq<string> {
    if text == "" then (if line == "" then [] else [line])
    else if IsBreak(text[0]) then (if line == "" then [] else [line]) + LinesFrom(text[1..], "")
    else LinesFrom(text[1..], line + [text[0]])
  }

  function Listed(text: string): seq<string> {
    LinesFrom(text, "")
  }

  lemma {:induction false} LineRead(line: string, done: string, rest: string)
    requires forall i :: 0 <= i < |line| ==> !IsBreak(line[i])
    requires done + line != ""
    ensures LinesFrom(line + "\n" + rest, done) == [done + line] + LinesFrom(rest, "")
    decreases |line|
  {
    var text := line + "\n" + rest;
    if line == "" {
      assert text[0] == '\n' && text[1..] == rest;
      assert done + line == done;
    } else {
      assert text[0] == line[0] && text[1..] == line[1..] + "\n" + rest;
      LineRead(line[1..], done + [line[0]], rest);
      assert done + [line[0]] + line[1..] == done + line;
    }
  }

  /** Reading a manifest gives back the keys that were written. */
  lemma {:induction false} ManifestRoundTrip(keys: seq<string>)
    requires forall i :: 0 <= i < |keys| ==> CleanKey(keys[i])
    ensures Listed(ManifestText(keys)) == keys
  {
    if keys != [] {
      ManifestRoundTrip(keys[1..]);
      LineRead(keys[0], "", ManifestText(keys[1..]));
      assert "" + keys[0] == keys[0];
    }
  }
}
