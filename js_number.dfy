/**
 * The two JavaScript number conversions the pagination hook relies on:
 * `parseInt(s, 10)` (ECMAScript section 19.2.5, "parseInt ( string, radix )")
 * and `String(n)` for an integral number (section 6.1.6.1.20, "Number::toString").
 *
 * A JavaScript number that holds an integer is modelled as `Some(n)` with
 * unbounded `n`; NaN is `None`.
 */
module JsNumber {
  import opened Wrappers

  /** StrWhiteSpaceChar: WhiteSpace (TAB, VT, FF, ZWNBSP and every Zs space) or a LineTerminator. */
  predicate IsWhiteSpace(c: char) {
    || c == '\t' || c == '\U{B}' || c == '\U{C}' || c == '\U{FEFF}'
    || c == ' ' || c == '\U{A0}' || c == '\U{1680}' || ('\U{2000}' <= c <= '\U{200A}')
    || c == '\U{202F}' || c == '\U{205F}' || c == '\U{3000}'
    || c == '\n' || c == '\r' || c == '\U{2028}' || c == '\U{2029}'
  }

  /** A radix-10 digit: only the ASCII digits count. */
  predicate IsDigit(c: char) {
    '0' <= c <= '9'
  }

  predicate AllDigits(s: string) {
    forall i :: 0 <= i < |s| ==> IsDigit(s[i])
  }

  predicate AllWhiteSpace(s: string) {
    forall i :: 0 <= i < |s| ==> IsWhiteSpace(s[i])
  }

  /** Drops the leading white space, as step 2 of ECMAScript's parseInt does. */
  function TrimStart(s: string): (r: string)
  {
    if |s| > 0 && IsWhiteSpace(s[0]) then TrimStart(s[1..]) else s
  }

  /** The longest prefix of `s` made of digits: the digit scan of parseInt, steps 11 to 13. */
  function LeadingDigits(s: string): (r: string)
    ensures AllDigits(r)
  {
    if |s| > 0 && IsDigit(s[0]) then [s[0]] + LeadingDigits(s[1..]) else []
  }

  function DigitValue(c: char): (d: nat)
    requires IsDigit(c)
    ensures d < 10
  {
    (c as int) - ('0' as int)
  }

  function DigitChar(d: nat): (c: char)
    requires d < 10
    ensures IsDigit(c) && DigitValue(c) == d
  {
    ('0' as int + d) as char
  }

  /** The mathematical value of a string of decimal digits, most significant first. */
  function DecimalValue(ds: string): nat
    requires AllDigits(ds)
  {
    if ds == [] then 0 else DecimalValue(ds[..|ds| - 1]) * 10 + DigitValue(ds[|ds| - 1])
  }

  /**
   * `parseInt(s, 10)`: skip leading white space, take an optional sign, then the
   * longest run of digits; no digits at all gives NaN.  (A "-0" result is the
   * integer 0 here.)
   */
  function ParseInt(s: string): Option<int> {
    ParseSigned(TrimStart(s))
  }

  /**
   * The sign handling of parseInt (steps 3 to 5) and its value (steps 14 to 16),
   * on a string that no longer starts with white space; with radix 10 the radix
   * steps change nothing.
   */
  function ParseSigned(t: string): Option<int> {
    if |t| > 0 && t[0] == '-' then
      match ParseDigits(t[1..])
      case None => None
      case Some(v) => Some(-v)
    else if |t| > 0 && t[0] == '+' then ParseDigits(t[1..])
    else ParseDigits(t)
  }

  /** The value of the leading digits of `u`, or NaN when `u` does not start with a digit. */
  function ParseDigits(u: string): Option<int> {
    var digits := LeadingDigits(u);
    if digits == [] then None else Some(DecimalValue(digits))
  }

  /** The shortest decimal numeral of `n`: digits only, no leading zero. */
  function NatToDecimal(n: nat): (r: string)
    ensures |r| > 0 && AllDigits(r)
    ensures r[0] != '0' || n == 0
  {
    if n < 10 then [DigitChar(n)] else NatToDecimal(n / 10) + [DigitChar(n % 10)]
  }

  /** The numeral `String(n)` writes denotes `n`. */
  lemma {:induction false} NatToDecimalValue(n: nat)
    ensures DecimalValue(NatToDecimal(n)) == n
  {
    var r := NatToDecimal(n);
    if n >= 10 {
      NatToDecimalValue(n / 10);
      assert r[..|r| - 1] == NatToDecimal(n / 10);
    }
  }

  /** `String(n)` for an integral number or NaN. */
  function NumberToString(n: Option<int>): (r: string)
    ensures n.None? ==> r == "NaN"
    ensures n.Some? && n.value >= 0 ==> r == NatToDecimal(n.value)
    ensures n.Some? && n.value < 0 ==> r == "-" + NatToDecimal(-n.value)
  {
    match n
    case None => "NaN"
    case Some(k) => if k < 0 then "-" + NatToDecimal(-k) else NatToDecimal(k)
  }

  lemma {:induction false} TrimStartSkips(ws: string, s: string)
    requires AllWhiteSpace(ws)
    requires s == [] || !IsWhiteSpace(s[0])
    ensures TrimStart(ws + s) == s
  {
    if ws == [] {
      assert ws + s == s;
    } else {
      assert (ws + s)[1..] == ws[1..] + s;
      TrimStartSkips(ws[1..], s);
    }
  }

  lemma {:induction false} LeadingDigitsStops(ds: string, rest: string)
    requires AllDigits(ds)
    requires rest == [] || !IsDigit(rest[0])
    ensures LeadingDigits(ds + rest) == ds
  {
    if ds == [] {
      assert ds + rest == rest;
    } else {
      assert (ds + rest)[1..] == ds[1..] + rest;
      LeadingDigitsStops(ds[1..], rest);
    }
  }

  /**
   * `parseInt` reads back a decimal numeral written by `String(n)`, even after
   * leading white space and before any trailing text that does not start with
   * a digit ("15abc" parses as 15).
   */
  lemma ParseIntReadsNumeral(ws: string, n: int, rest: string)
    requires AllWhiteSpace(ws)
    requires rest == [] || !IsDigit(rest[0])
    ensures ParseInt(ws + (NumberToString(Some(n)) + rest)) == Some(n)
  {
    var t := NumberToString(Some(n)) + rest;
    if n < 0 {
      ParseSignedReadsNegative(-n, rest);
    } else {
      ParseSignedReadsUnsigned(n, rest);
    }
    assert ParseSigned(t) == Some(n) && !IsWhiteSpace(t[0]);
    TrimStartSkips(ws, t);
  }

  lemma ParseDigitsReadsNumeral(m: nat, rest: string)
    requires rest == [] || !IsDigit(rest[0])
    ensures ParseDigits(NatToDecimal(m) + rest) == Some(m)
  {
    LeadingDigitsStops(NatToDecimal(m), rest);
    NatToDecimalValue(m);
  }

  lemma ParseSignedReadsNegative(m: nat, rest: string)
    requires rest == [] || !IsDigit(rest[0])
    ensures !IsWhiteSpace(("-" + NatToDecimal(m) + rest)[0])
    ensures ParseSigned("-" + NatToDecimal(m) + rest) == Some(-(m as int))
  {
    var ds := NatToDecimal(m);
    var t := "-" + ds + rest;
    assert t[0] == '-';
    assert t[1..] == ds + rest;
    ParseDigitsReadsNumeral(m, rest);
  }

  lemma ParseSignedReadsUnsigned(m: nat, rest: string)
    requires rest == [] || !IsDigit(rest[0])
    ensures |NatToDecimal(m) + rest| > 0 && !IsWhiteSpace((NatToDecimal(m) + rest)[0])
    ensures ParseSigned(NatToDecimal(m) + rest) == Some(m)
  {
    var ds := NatToDecimal(m);
    assert (ds + rest)[0] == ds[0];
    ParseDigitsReadsNumeral(m, rest);
  }

  /** Formatting then parsing is the identity, NaN included. */
  lemma ParseIntNumberToString(n: Option<int>)
    ensures ParseInt(NumberToString(n)) == n
  {
    match n
    case None =>
      ParseIntNaN();
    case Some(k) =>
      ParseIntReadsNumeral([], k, []);
      assert [] + (NumberToString(n) + []) == NumberToString(n);
  }

  /** `parseInt(String(NaN))`, that is `parseInt("NaN")`, is NaN again. */
  lemma ParseIntNaN()
    ensures ParseInt("NaN") == None
  {
    var s := "NaN";
    assert !IsWhiteSpace(s[0]);
    assert TrimStart(s) == s;
    assert LeadingDigits(s) == [];
  }

  /** A few numerals, for the worked examples of the pagination hook. */
  lemma SmallNumerals()
    ensures NatToDecimal(0) == "0" && NatToDecimal(2) == "2" && NatToDecimal(3) == "3"
    ensures NatToDecimal(5) == "5" && NatToDecimal(10) == "10" && NatToDecimal(15) == "15"
    ensures NatToDecimal(20) == "20"
  {
    assert NatToDecimal(1) == "1";
    assert NatToDecimal(10) == NatToDecimal(1) + [DigitChar(0)];
    assert NatToDecimal(15) == NatToDecimal(1) + [DigitChar(5)];
    assert NatToDecimal(20) == NatToDecimal(2) + [DigitChar(0)];
  }

  /** The two literals the pagination hook falls back to. */
  lemma ParseIntDefaults()
    ensures ParseInt("0") == Some(0)
    ensures ParseInt("10") == Some(10)
  {
    SmallNumerals();
    ParseIntNumberToString(Some(0));
    ParseIntNumberToString(Some(10));
  }

  lemma {:induction false} TrimStartKeepsNoDigits(s: string)
    requires forall i :: 0 <= i < |s| ==> !IsDigit(s[i])
    ensures forall i :: 0 <= i < |TrimStart(s)| ==> !IsDigit(TrimStart(s)[i])
  {
    if |s| > 0 && IsWhiteSpace(s[0]) {
      TrimStartKeepsNoDigits(s[1..]);
    }
  }

  /** A string without any digit parses as NaN ("abc", "", "NaN", "-"). */
  lemma ParseIntNoDigits(s: string)
    requires forall i :: 0 <= i < |s| ==> !IsDigit(s[i])
    ensures ParseInt(s) == None
  {
    var t := TrimStart(s);
    TrimStartKeepsNoDigits(s);
    if |t| > 0 && (t[0] == '-' || t[0] == '+') {
      assert t[1..] == [] || !IsDigit(t[1..][0]);
    }
  }
}
