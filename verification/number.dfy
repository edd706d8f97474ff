/**
 * JavaScript numbers as the hooks use them: `parseFloat` on an incoming
 * message, and the decimal rendering of whole numbers by `toString` and
 * template literals. Values are mathematical reals; binary rounding of
 * IEEE doubles is not modelled.
 */
module Number {
  import opened Text

  /** A JavaScript number: a finite value, an infinity, or NaN. */
  datatype Num = Finite(value: real) | Infinite(negative: bool) | NaN

  predicate IsDigit(c: char) {
    '0' <= c <= '9'
  }

  predicate AllDigits(d: string) {
    forall k :: 0 <= k < |d| ==> IsDigit(d[k])
  }

  function DigitValue(c: char): (v: nat)
    requires IsDigit(c)
    ensures v < 10
  {
    c as int - '0' as int
  }

  function DigitChar(v: nat): (c: char)
    requires v < 10
    ensures IsDigit(c) && DigitValue(c) == v
  {
    (v + '0' as int) as char
  }

  /** The value of a string of decimal digits, most significant first. */
  function DigitsValue(d: string): nat
    requires AllDigits(d)
  {
    if |d| == 0 then 0 else DigitsValue(d[..|d| - 1]) * 10 + DigitValue(d[|d| - 1])
  }

  /** Ten to the power `e`, for any integer `e`. */
  function Pow10(e: int): (r: real)
    ensures r > 0.0
    decreases if e < 0 then -e else e
  {
    if e == 0 then 1.0
    else if e > 0 then 10.0 * Pow10(e - 1)
    else Pow10(e + 1) / 10.0
  }

  /** The end of the longest run of digits that starts at index `i`. */
  function DigitRunEnd(s: string, i: nat): (j: nat)
    requires i <= |s|
    ensures i <= j <= |s|
    ensures forall k :: i <= k < j ==> IsDigit(s[k])
    ensures j == |s| || !IsDigit(s[j])
    decreases |s| - i
  {
    if i < |s| && IsDigit(s[i]) then DigitRunEnd(s, i + 1) else i
  }

  /** Where the unsigned part of a literal starts: after one optional `+` or `-`. */
  function SignEnd(s: string): (i: nat)
    ensures i <= |s|
  {
    if |s| > 0 && (s[0] == '+' || s[0] == '-') then 1 else 0
  }

  /**
   * The exponent of an `ExponentPart` starting at index `k`: `e` or `E`,
   * an optional sign and at least one digit. Anything shorter is not part
   * of the literal and counts as exponent 0.
   */
  function ExponentAt(s: string, k: nat): int
    requires k <= |s|
  {
    if k < |s| && (s[k] == 'e' || s[k] == 'E') then
      var p := k + 1;
      var neg := p < |s| && s[p] == '-';
      var q := if p < |s| && (s[p] == '+' || s[p] == '-') then p + 1 else p;
      var r := DigitRunEnd(s, q);
      var v: int := if r == q then 0 else DigitsValue(s[q..r]);
      if neg then -v else v
    else 0
  }

  /** `t` starts with the word `Infinity`, compared character by character. */
  predicate StartsWithInfinity(t: string) {
    && |t| >= 8
    && t[0] == 'I' && t[1] == 'n' && t[2] == 'f' && t[3] == 'i'
    && t[4] == 'n' && t[5] == 'i' && t[6] == 't' && t[7] == 'y'
  }

  /** The pieces of the literal a string starts with, as the scanner reads them. */
  datatype Literal =
    | NoLiteral
    | InfinityLiteral(negative: bool)
    | DecimalLiteral(negative: bool, whole: string, fraction: string, exponent: int)
  {
    /** A decimal literal has at least one digit, and only digits in its two digit runs. */
    predicate Valid() {
      DecimalLiteral? ==> AllDigits(whole) && AllDigits(fraction) && |whole| + |fraction| > 0
    }
  }

  /**
   * The longest prefix of `s` that is a `StrDecimalLiteral`: an optional
   * sign, then `Infinity`, or digits with an optional fraction and an
   * optional exponent.
   */
  function ScanLiteral(s: string): (l: Literal)
    ensures l.Valid()
  {
    var i := SignEnd(s);
    var neg := i == 1 && s[0] == '-';
    if StartsWithInfinity(s[i..]) then InfinityLiteral(neg)
    else
      var j := DigitRunEnd(s, i);
      var f := if j < |s| && s[j] == '.' then j + 1 else j;
      var k := DigitRunEnd(s, f);
      if j == i && k == f then NoLiteral
      else DecimalLiteral(neg, s[i..j], s[f..k], ExponentAt(s, k))
  }

  /** The number a scanned literal denotes; no literal is NaN. */
  function LiteralValue(l: Literal): Num
    requires l.Valid()
  {
    match l
    case NoLiteral => NaN
    case InfinityLiteral(neg) => Infinite(neg)
    case DecimalLiteral(neg, w, f, e) =>
      var v := (DigitsValue(w) as real + DigitsValue(f) as real * Pow10(-|f|)) * Pow10(e);
      Finite(if neg then -v else v)
  }

  /** The value of the longest numeric prefix of `s`, or NaN when there is none. */
  function ParsePrefix(s: string): Num
  {
    LiteralValue(ScanLiteral(s))
  }

  /** `parseFloat(s)`: leading white space is skipped, then the longest numeric prefix is read. */
  function ParseFloat(s: string): Num
  {
    ParsePrefix(TrimStart(s))
  }

  /**
   * The grammar's view of when a numeric prefix exists: after the optional
   * sign comes `Infinity`, a digit, or a dot followed by a digit.
   */
  predicate StartsNumeric(s: string) {
    var t := s[SignEnd(s)..];
    || StartsWithInfinity(t)
    || (|t| > 0 && IsDigit(t[0]))
    || (|t| > 1 && t[0] == '.' && IsDigit(t[1]))
  }

  /** The scanner finds a literal exactly when the grammar sees a numeric prefix. */
  lemma ScanFindsLiteralIff(s: string)
    ensures ScanLiteral(s).NoLiteral? <==> !StartsNumeric(s)
  {
    var i := SignEnd(s);
    var t := s[i..];
    if !StartsWithInfinity(t) {
      var j := DigitRunEnd(s, i);
      if |t| > 0 && IsDigit(t[0]) {
        assert s[i] == t[0];
      } else {
        assert j == i;
        if |t| > 1 && t[0] == '.' && IsDigit(t[1]) {
          assert s[i] == '.' && s[i + 1] == t[1];
          assert DigitRunEnd(s, i + 1) > i + 1;
        } else if i < |s| && s[i] == '.' {
          assert i + 1 == |s| || s[i + 1] == t[1];
        }
      }
    }
  }

  /** `parseFloat` is NaN exactly when, after leading white space, no numeric prefix starts. */
  lemma ParseFloatNaNIff(s: string)
    ensures ParseFloat(s).NaN? <==> !StartsNumeric(TrimStart(s))
  {
    ScanFindsLiteralIff(TrimStart(s));
  }

  /** Every digit of `s[..j]` as a fact about `s` itself. */
  lemma DigitsOfPrefix(s: string, i: nat, j: nat)
    requires i <= j <= |s| && AllDigits(s[i..j])
    ensures forall k :: i <= k < j ==> IsDigit(s[k])
  {
    forall k | i <= k < j
      ensures IsDigit(s[k])
    {
      assert s[k] == s[i..j][k - i];
    }
  }

  /**
   * Scanning stops at the first character that cannot continue a literal:
   * after a run of digits, anything but a digit, `.`, `e` or `E` ends it.
   */
  lemma ScanIntegerPrefix(s: string, j: nat)
    requires 0 < j <= |s| && AllDigits(s[..j])
    requires j < |s| ==> !IsDigit(s[j]) && s[j] != '.' && s[j] != 'e' && s[j] != 'E'
    ensures ScanLiteral(s) == DecimalLiteral(false, s[..j], "", 0)
  {
    assert s[0] == s[..j][0];
    assert SignEnd(s) == 0 && s[0..] == s;
    assert !StartsWithInfinity(s);
    assert s[0..j] == s[..j];
    DigitsOfPrefix(s, 0, j);
    assert DigitRunEnd(s, 0) == j;
  }

  /** A whole string `digits.digits` scans as both digit runs, with no exponent. */
  lemma ScanDecimal(s: string, j: nat)
    requires 0 < j < |s| && AllDigits(s[..j]) && s[j] == '.' && AllDigits(s[j + 1..])
    ensures ScanLiteral(s) == DecimalLiteral(false, s[..j], s[j + 1..], 0)
  {
    assert s[0] == s[..j][0];
    assert SignEnd(s) == 0 && s[0..] == s;
    assert !StartsWithInfinity(s);
    assert s[0..j] == s[..j] && s[j + 1..|s|] == s[j + 1..];
    DigitsOfPrefix(s, 0, j);
    DigitsOfPrefix(s, j + 1, |s|);
    assert DigitRunEnd(s, 0) == j;
    assert DigitRunEnd(s, j + 1) == |s|;
  }

  /** The values of the two decimal literals used as examples below. */
  lemma ExampleLiteralValues()
    ensures LiteralValue(DecimalLiteral(false, "120", "5", 0)) == Finite(120.5)
    ensures LiteralValue(DecimalLiteral(false, "42", "0", 0)) == Finite(42.0)
  {
    assert "120"[..2] == "12" && "12"[..1] == "1" && "1"[..0] == "" && "5"[..0] == "";
    assert DigitsValue("120") == 120 && DigitsValue("5") == 5;
    assert "42"[..1] == "4" && "4"[..0] == "" && "0"[..0] == "";
    assert DigitsValue("42") == 42 && DigitsValue("0") == 0;
    assert Pow10(-1) == 0.1 && Pow10(0) == 1.0;
  }

  /** A resistance-only message with a fractional part reads as its decimal value. */
  lemma ParseFloatReadsDecimal()
    ensures ParseFloat("120.5") == Finite(120.5)
  {
    var r := "120.5";
    assert ScanLiteral(TrimStart(r)) == DecimalLiteral(false, "120", "5", 0) by {
      assert TrimStart(r) == r;
      assert r[..3] == "120" && r[4..] == "5";
      ScanDecimal(r, 3);
    }
    ExampleLiteralValues();
  }

  /** A placeholder message `42.0` reads as forty-two. */
  lemma ParseFloatReadsWhole()
    ensures ParseFloat("42.0") == Finite(42.0)
  {
    var f := "42.0";
    assert ScanLiteral(TrimStart(f)) == DecimalLiteral(false, "42", "0", 0) by {
      assert TrimStart(f) == f;
      assert f[..2] == "42" && f[3..] == "0";
      ScanDecimal(f, 2);
    }
    ExampleLiteralValues();
  }

  /** A five-field message is not split on commas: only its first field is read. */
  lemma ParseFloatFiveFields()
    ensures ParseFloat("1,2,3,4,56.7") == Finite(1.0)
  {
    LeadingFieldRead("1,2,3,4,56.7");
  }

  /**
   * The proof of `ParseFloatFiveFields`, over a name for the message: with
   * the literal behind a parameter, the solver unfolds `ParseFloat` only as
   * far as the proof steps ask, instead of evaluating it on the literal.
   */
  lemma LeadingFieldRead(m: string)
    requires m == "1,2,3,4,56.7"
    ensures ParseFloat(m) == Finite(1.0)
  {
    assert TrimStart(m) == m;
    assert m[..1] == "1" && "1"[..0] == "";
    ScanIntegerPrefix(m, 1);
    assert DigitsValue("1") == 1 && DigitsValue("") == 0;
  }

  /** The empty message, a word and a lone dot all read as NaN. */
  lemma ParseFloatRejects()
    ensures ParseFloat("").NaN? && ParseFloat("abc").NaN? && ParseFloat(".").NaN?
  {
    RejectedMessages("", "abc", ".");
  }

  /**
   * The proof of `ParseFloatRejects`, over names for the three messages,
   * for the same reason as `LeadingFieldRead`: it keeps the literals from
   * being evaluated eagerly.
   */
  lemma RejectedMessages(e: string, w: string, d: string)
    requires e == "" && w == "abc" && d == "."
    ensures ParseFloat(e).NaN? && ParseFloat(w).NaN? && ParseFloat(d).NaN?
  {
    ParseFloatNaNIff(e);
    NoNumericPrefix(w);
    NoNumericPrefix(d);
  }

  /** A message starting with a character that is no sign, digit, dot or `I` has no number. */
  lemma NoNumericPrefix(s: string)
    requires |s| > 0 && !IsWhiteSpace(s[0]) && !IsDigit(s[0])
    requires s[0] != '+' && s[0] != '-' && s[0] != 'I'
    requires s[0] == '.' ==> |s| == 1 || !IsDigit(s[1])
    ensures ParseFloat(s).NaN?
  {
    assert TrimStart(s) == s;
    assert SignEnd(s) == 0 && s[0..] == s;
    ScanFindsLiteralIff(s);
  }

  /** The decimal digits of `n` without leading zeros: `n.toString()`. */
  function NatToString(n: nat): (s: string)
    ensures |s| >= 1 && AllDigits(s)
    ensures DigitsValue(s) == n
    ensures |s| == 1 || s[0] != '0'
  {
    if n < 10 then [DigitChar(n)]
    else
      var s := NatToString(n / 10) + [DigitChar(n % 10)];
      assert s[..|s| - 1] == NatToString(n / 10);
      s
  }

  /** The decimal rendering of a whole number, with a `-` when negative. */
  function IntToString(i: int): (s: string)
    ensures |s| >= 1
    ensures '\n' !in s && ',' !in s && ' ' !in s
  {
    var d := if i < 0 then "-" + NatToString(-i) else NatToString(i);
    assert forall k :: 0 <= k < |d| ==> d[k] == '-' || IsDigit(d[k]);
    d
  }

  /** A minus sign followed by digits to the end scans as a negative whole literal. */
  lemma ScanNegativeInteger(s: string)
    requires |s| > 1 && s[0] == '-' && AllDigits(s[1..])
    ensures ScanLiteral(s) == DecimalLiteral(true, s[1..], "", 0)
  {
    assert SignEnd(s) == 1;
    assert !StartsWithInfinity(s[1..]) by {
      assert IsDigit(s[1..][0]);
    }
    DigitsOfPrefix(s, 1, |s|);
    assert DigitRunEnd(s, 1) == |s|;
    assert s[1..|s|] == s[1..];
  }

  /** A whole literal denotes the value of its digits, negated when it carries a minus sign. */
  lemma WholeLiteralValue(d: string, neg: bool)
    requires |d| > 0 && AllDigits(d)
    ensures LiteralValue(DecimalLiteral(neg, d, "", 0)) == Finite(if neg then -(DigitsValue(d) as real) else DigitsValue(d) as real)
  {
    assert DigitsValue("") == 0 && Pow10(0) == 1.0;
  }

  /** A printed natural number has no leading white space. */
  lemma NaturalNotIndented(n: nat)
    ensures TrimStart(NatToString(n)) == NatToString(n)
  {
    assert IsDigit(NatToString(n)[0]);
  }

  /** A printed natural number scans as one whole literal. */
  lemma NaturalScansWhole(n: nat)
    ensures ScanLiteral(NatToString(n)) == DecimalLiteral(false, NatToString(n), "", 0)
  {
    var s := NatToString(n);
    ScanIntegerPrefix(s, |s|);
    assert s[..|s|] == s;
  }

  /** Text that starts with a whole literal and has no leading white space parses to that literal's value. */
  lemma ParseWhole(s: string, d: string, neg: bool)
    requires |d| > 0 && AllDigits(d)
    requires TrimStart(s) == s && ScanLiteral(s) == DecimalLiteral(neg, d, "", 0)
    ensures ParseFloat(s) == Finite(if neg then -(DigitsValue(d) as real) else DigitsValue(d) as real)
  {
    WholeLiteralValue(d, neg);
  }

  /** A printed natural number parses back to itself. */
  lemma NaturalRoundTrip(i: int)
    requires i >= 0
    ensures ParseFloat(IntToString(i)) == Finite(i as real)
  {
    var s := NatToString(i);
    assert IntToString(i) == s;
    NaturalNotIndented(i);
    NaturalScansWhole(i);
    ParseWhole(s, s, false);
  }

  /** A printed negative number has no leading white space. */
  lemma NegativeNotIndented(n: nat)
    ensures TrimStart("-" + NatToString(n)) == "-" + NatToString(n)
  {
    assert ("-" + NatToString(n))[0] == '-';
  }

  /** A minus sign and the digits of a natural number scan as one negative whole literal. */
  lemma NegativeScansWhole(n: nat)
    ensures ScanLiteral("-" + NatToString(n)) == DecimalLiteral(true, NatToString(n), "", 0)
  {
    var s := "-" + NatToString(n);
    assert s[1..] == NatToString(n);
    ScanNegativeInteger(s);
  }

  /** A printed negative number, a minus sign and the digits of its magnitude, parses back to itself. */
  lemma NegativeRoundTrip(i: int)
    requires i < 0
    ensures ParseFloat(IntToString(i)) == Finite(i as real)
  {
    NegativeNotIndented(-i);
    NegativeScansWhole(-i);
    ParseWhole("-" + NatToString(-i), NatToString(-i), true);
    NegativePrinted(i);
  }

  /** A negative number prints as a minus sign and the digits of its magnitude. */
  lemma NegativePrinted(i: int)
    requires i < 0
    ensures IntToString(i) == "-" + NatToString(-i)
  {
  }

  /** Printing a whole number and parsing it back with `parseFloat` gives the number. */
  lemma IntToStringRoundTrip(i: int)
    ensures ParseFloat(IntToString(i)) == Finite(i as real)
  {
    if i < 0 {
      NegativeRoundTrip(i);
    } else {
      NaturalRoundTrip(i);
    }
  }
}
