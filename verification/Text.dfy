/** Decimal numerals and separated lists, the two text formats the driver's names,
    log lines and payloads are made of. */
module Text {
  import opened Wrappers

  predicate IsDigit(c: char) {
    '0' <= c <= '9'
  }

  predicate AllDigits(s: string) {
    forall i :: 0 <= i < |s| ==> IsDigit(s[i])
  }

  function DigitValue(c: char): (d: nat)
    requires IsDigit(c)
    ensures d < 10
  {
    (c - '0') as nat
  }

  function DigitChar(d: nat): (c: char)
    requires d < 10
    ensures IsDigit(c) && DigitValue(c) == d
  {
    '0' + d as char
  }

  /** The value of a digit string, leading zeros allowed; the empty string is 0. */
  function DigitsValue(s: string): nat
    requires AllDigits(s)
  {
    if s == "" then 0 else DigitsValue(s[..|s| - 1]) * 10 + DigitValue(s[|s| - 1])
  }

  /** Decimal numeral without leading zeros. */
  function NatToString(n: nat): (s: string)
    ensures s != "" && AllDigits(s)
  {
    if n < 10 then [DigitChar(n)] else NatToString(n / 10) + [DigitChar(n % 10)]
  }

  function ParseNat(s: string): Option<nat> {
    if s != "" && AllDigits(s) then Some(DigitsValue(s)) else None
  }

  lemma {:induction false} ParsePrintedNat(n: nat)
    ensures ParseNat(NatToString(n)) == Some(n)
  {
    var s := NatToString(n);
    if n < 10 {
      assert s[..|s| - 1] == "" && DigitsValue("") == 0 && s[|s| - 1] == DigitChar(n);
    } else {
      ParsePrintedNat(n / 10);
      assert s[..|s| - 1] == NatToString(n / 10);
    }
  }

  /** Numeral left-padded with zeros to `width`, never truncated. */
  function Padded(n: nat, width: nat): (s: string)
    ensures s != "" && AllDigits(s)
    ensures |s| >= width
  {
    Zeros(if |NatToString(n)| < width then width - |NatToString(n)| else 0) + NatToString(n)
  }

  function Zeros(n: nat): (s: string)
    ensures |s| == n && AllDigits(s)
  {
    if n == 0 then "" else "0" + Zeros(n - 1)
  }

  lemma {:induction false} LeadingZeros(n: nat, s: string)
    requires AllDigits(s)
    ensures DigitsValue(Zeros(n) + s) == DigitsValue(s)
    decreases n, |s|
  {
    if s == "" {
      if n > 0 {
        assert Zeros(n)[..n - 1] == Zeros(n - 1) by { ZerosAre(n); ZerosAre(n - 1); }
        ZerosAre(n);
        LeadingZeros(n - 1, "");
        assert Zeros(n - 1) + "" == Zeros(n - 1) && Zeros(n) + "" == Zeros(n);
      } else {
        assert Zeros(0) + s == s;
      }
    } else {
      var t := Zeros(n) + s;
      assert t[..|t| - 1] == Zeros(n) + s[..|s| - 1];
      LeadingZeros(n, s[..|s| - 1]);
    }
  }

  lemma {:induction false} ZerosAre(n: nat)
    ensures forall i :: 0 <= i < n ==> Zeros(n)[i] == '0'
  {
    if n > 0 {
      ZerosAre(n - 1);
    }
  }

  lemma ParsePadded(n: nat, width: nat)
    ensures ParseNat(Padded(n, width)) == Some(n)
  {
    ParsePrintedNat(n);
    LeadingZeros(if |NatToString(n)| < width then width - |NatToString(n)| else 0, NatToString(n));
  }

  lemma ConcatAt(a: string, b: string, k: nat)
    requires k < |a| + |b|
    ensures (a + b)[k] == if k < |a| then a[k] else b[k - |a|]
  {
  }

  lemma FrontAtLeast(s: string, d: string, t: string, e: string)
    requires AllDigits(d) && t != "" && !IsDigit(t[|t| - 1]) && s + d == t + e
    ensures |s| >= |t|
  {
    ConcatAt(t, e, |t| - 1);
    ConcatAt(s, d, |t| - 1);
  }

  lemma DigitsAtLeast(d: string, s: string, e: string, t: string)
    requires AllDigits(e) && s != "" && !IsDigit(s[0]) && d + s == e + t
    ensures |d| >= |e|
  {
    ConcatAt(d, s, |d|);
    ConcatAt(e, t, |d|);
  }

  /** A numeral at the end of a text can be told from what precedes it, if that does not end in a digit. */
  lemma TrailingNumeral(s: string, m: nat, t: string, n: nat)
    requires s != "" && t != "" && !IsDigit(s[|s| - 1]) && !IsDigit(t[|t| - 1])
    requires s + NatToString(m) == t + NatToString(n)
    ensures m == n && s == t
  {
    var (d, e, all) := (NatToString(m), NatToString(n), s + NatToString(m));
    hide NatToString;
    ParsePrintedNat(m);
    ParsePrintedNat(n);
    FrontAtLeast(s, d, t, e);
    FrontAtLeast(t, e, s, d);
    assert s == all[..|s|] && t == all[..|t|] && d == all[|s|..] && e == all[|t|..];
  }

  /** So can a numeral at the start, from what follows it. */
  lemma LeadingNumeral(m: nat, s: string, n: nat, t: string)
    requires s != "" && t != "" && !IsDigit(s[0]) && !IsDigit(t[0])
    requires NatToString(m) + s == NatToString(n) + t
    ensures m == n && s == t
  {
    var (d, e, all) := (NatToString(m), NatToString(n), NatToString(m) + s);
    hide NatToString;
    ParsePrintedNat(m);
    ParsePrintedNat(n);
    DigitsAtLeast(d, s, e, t);
    DigitsAtLeast(e, t, d, s);
    assert d == all[..|d|] && e == all[..|e|] && s == all[|d|..] && t == all[|e|..];
  }

  /** Pieces joined with a one-character separator between them. */
  function Join(parts: seq<string>, sep: char): string {
    if |parts| == 0 then ""
    else if |parts| == 1 then parts[0]
    else parts[0] + [sep] + Join(parts[1..], sep)
  }

  /** Splits at every separator; always at least one piece. */
  function Split(s: string, sep: char): (parts: seq<string>)
    ensures |parts| >= 1
  {
    if s == "" then [""]
    else
      var rest := Split(s[1..], sep);
      if s[0] == sep then [""] + rest else [[s[0]] + rest[0]] + rest[1..]
  }

  lemma {:induction false} SplitPiece(piece: string, sep: char, rest: string)
    requires sep !in piece
    ensures Split(piece, sep) == [piece]
    ensures Split(piece + [sep] + rest, sep) == [piece] + Split(rest, sep)
  {
    var s := piece + [sep] + rest;
    if piece == "" {
      assert s[1..] == rest;
    } else {
      SplitPiece(piece[1..], sep, rest);
      assert s[1..] == piece[1..] + [sep] + rest;
      assert piece == [piece[0]] + piece[1..];
    }
  }

  lemma {:induction false} SplitJoined(parts: seq<string>, sep: char)
    requires |parts| >= 1
    requires forall i :: 0 <= i < |parts| ==> sep !in parts[i]
    ensures Split(Join(parts, sep), sep) == parts
  {
    if |parts| == 1 {
      SplitPiece(parts[0], sep, "");
    } else {
      SplitPiece(parts[0], sep, Join(parts[1..], sep));
      SplitJoined(parts[1..], sep);
    }
  }
}
