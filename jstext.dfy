/**
 * The JavaScript string operations the modelled code relies on: `trim`, `join`,
 * `startsWith`/`endsWith` and the rendering of non-negative integers in a radix.
 */
module JsText {

  /** The characters JavaScript's `trim` removes and `\s` matches (WhiteSpace and LineTerminator). */
  predicate IsWhitespace(c: char) {
    c == '\t' || c == '\n' || c == '\U{000B}' || c == '\U{000C}' || c == '\r' || c == ' '
    || c == '\U{00A0}' || c == '\U{1680}' || ('\U{2000}' <= c <= '\U{200A}')
    || c == '\U{2028}' || c == '\U{2029}' || c == '\U{202F}' || c == '\U{205F}'
    || c == '\U{3000}' || c == '\U{FEFF}'
  }

  function TrimStart(s: string): (r: string)
    ensures |r| <= |s| && r == s[|s| - |r|..]
    ensures r == [] || !IsWhitespace(r[0])
    ensures forall i :: 0 <= i < |s| - |r| ==> IsWhitespace(s[i])
  {
    if |s| > 0 && IsWhitespace(s[0]) then TrimStart(s[1..]) else s
  }

  function TrimEnd(s: string): (r: string)
    ensures |r| <= |s| && r == s[..|r|]
    ensures r == [] || !IsWhitespace(r[|r| - 1])
    ensures forall i :: |r| <= i < |s| ==> IsWhitespace(s[i])
  {
    if |s| > 0 && IsWhitespace(s[|s| - 1]) then TrimEnd(s[..|s| - 1]) else s
  }

  /** `s.trim()`: `s` without its leading and trailing whitespace. */
  function Trim(s: string): (r: string)
    ensures |r| <= |s|
    ensures var a := |s| - |TrimStart(s)|; a + |r| <= |s| && r == s[a..a + |r|]
    ensures r == [] || (!IsWhitespace(r[0]) && !IsWhitespace(r[|r| - 1]))
  {
    var t := TrimStart(s);
    var r := TrimEnd(t);
    assert r != [] ==> r[0] == t[0];
    r
  }

  /** A string `trim` leaves alone. */
  predicate IsTrimmed(s: string) {
    s == [] || (!IsWhitespace(s[0]) && !IsWhitespace(s[|s| - 1]))
  }

  lemma TrimmedFixed(s: string)
    requires IsTrimmed(s)
    ensures Trim(s) == s
  {
  }

  /** Trimming twice is trimming once. */
  lemma TrimIdempotent(s: string)
    ensures IsTrimmed(Trim(s)) && Trim(Trim(s)) == Trim(s)
  {
    TrimmedFixed(Trim(s));
  }

  /** A string of whitespace only trims to the empty string. */
  lemma {:induction false} TrimBlank(s: string)
    requires forall i :: 0 <= i < |s| ==> IsWhitespace(s[i])
    ensures Trim(s) == []
  {
    if |s| > 0 {
      TrimBlank(s[1..]);
    }
  }

  /** `parts.join(sep)`. */
  function Join(parts: seq<string>, sep: string): (r: string)
    ensures |parts| == 1 ==> r == parts[0]
    ensures |parts| == 0 ==> r == []
    ensures |parts| > 0 ==> |parts[0]| <= |r| && r[..|parts[0]|] == parts[0]
  {
    if |parts| == 0 then []
    else if |parts| == 1 then parts[0]
    else parts[0] + sep + Join(parts[1..], sep)
  }

  predicate StartsWith(s: string, prefix: string) {
    |prefix| <= |s| && s[..|prefix|] == prefix
  }

  predicate EndsWith(s: string, suffix: string) {
    |suffix| <= |s| && s[|s| - |suffix|..] == suffix
  }

  /** The digit character `Number.prototype.toString` uses for `d`, up to radix 36. */
  function DigitChar(d: nat): (c: char)
    requires d < 36
    ensures ('0' <= c <= '9') || ('a' <= c <= 'z')
  {
    if d < 10 then ('0' as int + d) as char else ('a' as int + d - 10) as char
  }

  /** The value of a digit character, or 36 for a character that is not one. */
  function DigitValue(c: char): (d: nat)
    ensures d <= 36
    ensures d < 36 ==> DigitChar(d) == c
  {
    if '0' <= c <= '9' then (c - '0') as nat
    else if 'a' <= c <= 'z' then (c - 'a') as nat + 10
    else 36
  }

  lemma DigitRoundTrip(d: nat)
    requires d < 36
    ensures DigitValue(DigitChar(d)) == d
  {
  }

  lemma DivStep(n: nat, radix: nat)
    requires 2 <= radix <= n
    ensures 1 <= n / radix < n && n % radix < radix
    ensures n == (n / radix) * radix + n % radix
  {
    var q, d := n / radix, n % radix;
    assert n == radix * q + d;
    assert radix * q >= 2 * q;
  }

  /** `n.toString(radix)` for a non-negative integer `n`. */
  function NatToString(n: nat, radix: nat): (r: string)
    requires 2 <= radix <= 36
    ensures |r| >= 1
    ensures n >= radix ==> r[0] != '0'
    ensures n < radix ==> r == [DigitChar(n)]
  {
    if n < radix then [DigitChar(n)]
    else
      DivStep(n, radix);
      NatToString(n / radix, radix) + [DigitChar(n % radix)]
  }

  /** The value of a string of digits in `radix`: the inverse of `NatToString`. */
  function ParseNat(s: string, radix: nat): nat {
    if |s| == 0 then 0
    else
      var high := ParseNat(s[..|s| - 1], radix);
      MulNat(high, radix);
      high * radix + (DigitValue(s[|s| - 1]) % 36)
  }

  lemma MulNat(a: nat, b: nat)
    ensures a * b >= 0
  {
  }

  lemma ParseNatSnoc(t: string, c: char, radix: nat)
    ensures ParseNat(t + [c], radix) == ParseNat(t, radix) * radix + DigitValue(c) % 36
  {
    assert (t + [c])[..|t|] == t;
  }

  lemma {:induction false} ParseNatToString(n: nat, radix: nat)
    requires 2 <= radix <= 36
    ensures ParseNat(NatToString(n, radix), radix) == n
  {
    if n < radix {
      DigitRoundTrip(n);
      assert [DigitChar(n)][..0] == [];
    } else {
      DivStep(n, radix);
      var q, d := n / radix, n % radix;
      var t := NatToString(q, radix);
      var c := DigitChar(d);
      NatToStringStep(n, radix);
      ParseNatToString(q, radix);
      DigitRoundTrip(d);
      ParseStep(t, c, radix, q, d);
    }
  }

  lemma ParseStep(t: string, c: char, radix: nat, q: nat, d: nat)
    requires ParseNat(t, radix) == q && DigitValue(c) == d && d < 36
    ensures ParseNat(t + [c], radix) == q * radix + d
  {
    ParseNatSnoc(t, c, radix);
  }

  lemma NatToStringStep(n: nat, radix: nat)
    requires 2 <= radix <= n && radix <= 36
    ensures n % radix < radix
    ensures NatToString(n, radix) == NatToString(n / radix, radix) + [DigitChar(n % radix)]
  {
  }

  /** Distinct numbers are rendered differently in any radix. */
  lemma NatToStringInjective(m: nat, n: nat, radix: nat)
    requires 2 <= radix <= 36
    requires NatToString(m, radix) == NatToString(n, radix)
    ensures m == n
  {
    ParseNatToString(m, radix);
    ParseNatToString(n, radix);
  }

  /** `String(n)` for a non-negative integer. */
  function Decimal(n: nat): (r: string)
    ensures |r| >= 1
  {
    NatToString(n, 10)
  }
}
