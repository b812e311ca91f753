/**
 The number tokens of section 6 of RFC 8259 as a pattern, and what a token is worth
 (cpp/update_flow_core/flow_json.cpp:284-336 and 647-704): the scanner is proved against the
 pattern, the digit loop against the value in decimal notation.
 */
module JsonNumbers {
  import opened JsonText
  import opened Wrappers

  // ----- the grammar ---------------------------------------------------------------------

  predicate AllDigits(s: string) {
    forall i :: 0 <= i < |s| ==> IsDigit(s[i])
  }

  /** The parts of a token, as written. */
  datatype Token = Token(negative: bool, whole: string, fraction: string, exponent: string)

  predicate IsInt(s: string) {
    s == "0" || (s != "" && AllDigits(s) && s[0] != '0')
  }

  predicate IsFraction(s: string) {
    s == "" || (|s| >= 2 && s[0] == '.' && AllDigits(s[1..]))
  }

  predicate IsExponent(s: string) {
    s == "" || ((s[0] == 'e' || s[0] == 'E') && SkipSign(s[1..]) != "" && AllDigits(SkipSign(s[1..])))
  }

  predicate IsToken(t: Token) {
    IsInt(t.whole) && IsFraction(t.fraction) && IsExponent(t.exponent)
  }

  function Text(t: Token): string {
    (if t.negative then "-" else "") + t.whole + t.fraction + t.exponent
  }

  /** Nothing at the head of rest could have gone on with the token. */
  predicate Stops(t: Token, rest: string) {
    && !StartsWithDigit(rest)
    && (t.exponent == "" ==> !StartsWith(rest, 'e') && !StartsWith(rest, 'E'))
    && (t.exponent == "" && t.fraction == "" ==> !StartsWith(rest, '.'))
  }

  // ----- the scanner ---------------------------------------------------------------------

  lemma {:induction false} DigitsSkipped(ds: string, rest: string)
    requires AllDigits(ds) && !StartsWithDigit(rest)
    ensures SkipDigits(ds + rest) == rest
  {
    if ds == "" {
      assert ds + rest == rest;
    } else {
      assert (ds + rest)[1..] == ds[1..] + rest;
      DigitsSkipped(ds[1..], rest);
    }
  }

  lemma {:induction false} SkippedAreDigits(s: string) returns (ds: string)
    ensures s == ds + SkipDigits(s) && AllDigits(ds) && !StartsWithDigit(SkipDigits(s))
    ensures StartsWithDigit(s) ==> ds != ""
  {
    if StartsWithDigit(s) {
      var tail := SkippedAreDigits(s[1..]);
      ds := [s[0]] + tail;
    } else {
      ds := "";
    }
  }

  lemma IntScan(s: string, whole: string, rest: string)
    requires IsInt(whole) && s == whole + rest && !StartsWithDigit(rest)
    ensures SkipInteger(s) == Some(rest)
  {
    assert s[1..] == whole[1..] + rest;
    DigitsSkipped(whole[1..], rest);
  }

  lemma FractionScan(s: string, fraction: string, rest: string)
    requires IsFraction(fraction) && s == fraction + rest && !StartsWithDigit(rest)
    requires fraction == "" ==> !StartsWith(rest, '.')
    ensures SkipFraction(s) == Some(rest)
  {
    if fraction == "" {
      assert s == rest;
    } else {
      var ds := fraction[1..];
      assert s[0] == fraction[0] && s[1..] == ds + rest && s[1..][0] == ds[0];
      DigitsSkipped(ds, rest);
    }
  }

  lemma ExponentScan(s: string, exponent: string, rest: string)
    requires IsExponent(exponent) && s == exponent + rest && !StartsWithDigit(rest)
    requires exponent == "" ==> !StartsWith(rest, 'e') && !StartsWith(rest, 'E')
    ensures SkipExponent(s) == Some(rest)
  {
    if exponent == "" {
      assert s == rest;
    } else {
      var t, ds := exponent[1..], SkipSign(exponent[1..]);
      assert s[0] == exponent[0] && s[1..] == t + rest;
      SignSkipped(t, rest);
      assert (ds + rest)[0] == ds[0];
      DigitsSkipped(ds, rest);
    }
  }

  lemma SignSkipped(t: string, rest: string)
    requires t != ""
    ensures SkipSign(t + rest) == SkipSign(t) + rest
  {
    assert (t + rest)[0] == t[0] && (t + rest)[1..] == t[1..] + rest;
  }

  /** A token in front of something that cannot go on with it is scanned. */
  lemma TokenIsScanned(t: Token, rest: string)
    requires IsToken(t) && Stops(t, rest)
    ensures SkipNumber(Text(t) + rest) == Some(rest)
  {
    hide SkipInteger, SkipFraction, SkipExponent, IsInt, IsFraction, IsExponent, SkipSign;
    var s := Text(t) + rest;
    var unsigned := t.whole + (t.fraction + (t.exponent + rest));
    IntStart(t.whole);
    if t.negative {
      assert s == "-" + unsigned;
    } else {
      assert s == unsigned && s[0] == t.whole[0];
    }
    assert (if StartsWith(s, '-') then s[1..] else s) == unsigned;
    ExponentHead(t.exponent, rest);
    FractionHead(t.fraction, t.exponent + rest);
    IntScan(unsigned, t.whole, t.fraction + (t.exponent + rest));
    FractionScan(t.fraction + (t.exponent + rest), t.fraction, t.exponent + rest);
    ExponentScan(t.exponent + rest, t.exponent, rest);
  }

  lemma IntStart(whole: string)
    requires IsInt(whole)
    ensures whole != "" && IsDigit(whole[0])
  {
  }

  lemma ExponentHead(exponent: string, rest: string)
    requires IsExponent(exponent)
    ensures exponent != "" ==> !StartsWithDigit(exponent + rest) && !StartsWith(exponent + rest, '.')
    ensures exponent == "" ==> exponent + rest == rest
  {
  }

  lemma FractionHead(fraction: string, rest: string)
    requires IsFraction(fraction)
    ensures fraction != "" ==> !StartsWithDigit(fraction + rest)
    ensures fraction == "" ==> fraction + rest == rest
  {
  }

  lemma ScannedInt(s: string) returns (whole: string)
    requires SkipInteger(s).Some?
    ensures IsInt(whole) && s == whole + SkipInteger(s).value && !StartsWithDigit(SkipInteger(s).value)
  {
    if StartsWith(s, '0') {
      whole := "0";
    } else {
      var tail := SkippedAreDigits(s[1..]);
      whole := [s[0]] + tail;
    }
  }

  lemma ScannedFraction(s: string) returns (fraction: string)
    requires SkipFraction(s).Some? && !StartsWithDigit(s)
    ensures IsFraction(fraction) && s == fraction + SkipFraction(s).value && !StartsWithDigit(SkipFraction(s).value)
    ensures fraction == "" ==> !StartsWith(s, '.')
  {
    if StartsWith(s, '.') {
      var ds := SkippedAreDigits(s[1..]);
      fraction := ['.'] + ds;
    } else {
      fraction := "";
    }
  }

  lemma ScannedExponent(s: string) returns (exponent: string)
    requires SkipExponent(s).Some? && !StartsWithDigit(s)
    ensures IsExponent(exponent) && s == exponent + SkipExponent(s).value && !StartsWithDigit(SkipExponent(s).value)
    ensures exponent == "" ==> !StartsWith(s, 'e') && !StartsWith(s, 'E')
  {
    if StartsWith(s, 'e') || StartsWith(s, 'E') {
      exponent := ScannedMark(s);
    } else {
      exponent := "";
    }
  }

  lemma ScannedMark(s: string) returns (exponent: string)
    requires SkipExponent(s).Some? && (StartsWith(s, 'e') || StartsWith(s, 'E'))
    ensures exponent != "" && IsExponent(exponent)
    ensures s == exponent + SkipExponent(s).value && !StartsWithDigit(SkipExponent(s).value)
  {
    hide SkipDigits;
    var t := s[1..];
    var ds := SkippedAreDigits(SkipSign(t));
    var signed := ds;
    if SkipSign(t) != t {
      signed := [t[0]] + ds;
      assert signed[1..] == ds && t == [t[0]] + SkipSign(t);
    } else {
      assert ds[0] == t[0];
    }
    exponent := [s[0]] + signed;
    assert exponent[1..] == signed && SkipSign(signed) == ds;
    assert t == signed + SkipDigits(SkipSign(t));
  }

  lemma ScannedToken(s: string) returns (t: Token)
    requires SkipNumber(s).Some?
    ensures IsToken(t) && Stops(t, SkipNumber(s).value) && s == Text(t) + SkipNumber(s).value
  {
    hide SkipInteger, SkipFraction, SkipExponent, IsInt, IsFraction, IsExponent;
    var negative := StartsWith(s, '-');
    var u := if negative then s[1..] else s;
    var v := SkipInteger(u).value;
    var w := SkipFraction(v).value;
    var whole := ScannedInt(u);
    var fraction := ScannedFraction(v);
    var exponent := ScannedExponent(w);
    t := Token(negative, whole, fraction, exponent);
    var rest := SkipNumber(s).value;
    assert w == exponent + rest && v == fraction + w && u == whole + v;
    SignInFront(s, u, negative);
    TextIs(t, rest, v, w, u);
    EmptyPart(exponent, rest, w);
    EmptyPart(fraction, w, v);
  }

  lemma SignInFront(s: string, u: string, negative: bool)
    requires negative == StartsWith(s, '-') && u == if negative then s[1..] else s
    ensures s == (if negative then "-" else "") + u
  {
  }

  lemma TextIs(t: Token, rest: string, v: string, w: string, u: string)
    requires w == t.exponent + rest && v == t.fraction + w && u == t.whole + v
    ensures Text(t) + rest == (if t.negative then "-" else "") + u
  {
    assert t.whole + t.fraction + t.exponent + rest == u;
    if !t.negative {
      assert Text(t) == t.whole + t.fraction + t.exponent;
    }
  }

  lemma EmptyPart(part: string, rest: string, s: string)
    requires s == part + rest
    ensures part == "" ==> s == rest
  {
  }

  /**
   The scanner accepts exactly the numbers of the grammar: it stops at rest if and only if a
   token lies in front of rest, and rest does not go on with it.
   */
  lemma NumberScanMatches(s: string, rest: string)
    ensures SkipNumber(s) == Some(rest) <==> exists t: Token :: IsToken(t) && Stops(t, rest) && s == Text(t) + rest
  {
    hide SkipInteger, SkipFraction, SkipExponent, IsInt, IsFraction, IsExponent;
    if SkipNumber(s) == Some(rest) {
      var t := ScannedToken(s);
    }
    if t: Token :| IsToken(t) && Stops(t, rest) && s == Text(t) + rest {
      TokenIsScanned(t, rest);
    }
  }

  // ----- what a token is worth ---------------------------------------------------------------

  /** The number that starts with v and goes on with the digits of s. */
  function Numeral(v: nat, s: string): nat
    requires AllDigits(s)
    decreases |s|
  {
    if s == "" then v else Numeral(10 * v + (s[0] as nat - '0' as nat), s[1..])
  }

  function FractionDigits(t: Token): (ds: string)
    requires IsToken(t)
    ensures AllDigits(ds)
  {
    if t.fraction == "" then "" else t.fraction[1..]
  }

  function ExponentDigits(t: Token): (ds: string)
    requires IsToken(t)
    ensures AllDigits(ds)
  {
    if t.exponent == "" then "" else SkipSign(t.exponent[1..])
  }

  /** The digits before and after the point, as one number. */
  function Significand(t: Token): nat
    requires IsToken(t)
  {
    Numeral(0, t.whole + FractionDigits(t))
  }

  /** The written exponent. */
  function Exponent(t: Token): int
    requires IsToken(t)
  {
    var value: int := Numeral(0, ExponentDigits(t));
    if t.exponent != "" && StartsWith(t.exponent[1..], '-') then -value else value
  }

  /** The value of a token in decimal notation. */
  function Worth(t: Token): real
    requires IsToken(t)
  {
    var value := Scale(Significand(t), Exponent(t) - |FractionDigits(t)|);
    if t.negative then -value else value
  }

  lemma {:induction false} NumeralGrows(v: nat, s: string)
    requires AllDigits(s)
    ensures Numeral(v, s) >= v
    decreases |s|
  {
    if s != "" {
      NumeralGrows(10 * v + (s[0] as nat - '0' as nat), s[1..]);
    }
  }

  lemma {:induction false} NumeralSplit(v: nat, a: string, b: string)
    requires AllDigits(a) && AllDigits(b)
    ensures AllDigits(a + b) && Numeral(v, a + b) == Numeral(Numeral(v, a), b)
    decreases |a|
  {
    if a == "" {
      assert a + b == b;
    } else {
      assert (a + b)[1..] == a[1..] + b && (a + b)[0] == a[0];
      NumeralSplit(10 * v + (a[0] as nat - '0' as nat), a[1..], b);
    }
  }

  function PowerOfTen(n: nat): (p: nat)
    ensures p > 0
  {
    if n == 0 then 1 else 10 * PowerOfTen(n - 1)
  }

  lemma {:induction false} PowersGrow(m: nat, n: nat)
    requires m <= n
    ensures PowerOfTen(m) <= PowerOfTen(n)
  {
    if m < n {
      PowersGrow(m, n - 1);
    }
  }

  /** The count of gathered digits is the length of the significand. */
  predicate Counted(d: Decimal) {
    d.significand < PowerOfTen(d.digits) && (d.digits > 0 ==> d.significand >= PowerOfTen(d.digits - 1))
  }

  /** As long as the number has at most 19 digits, the digit loop loses none. */
  lemma {:induction false} DigitsGathered(d: Decimal, ds: string, tail: string) returns (e: Decimal)
    requires AllDigits(ds) && Counted(d) && Numeral(d.significand, ds) < PowerOfTen(19)
    ensures FoldDigits(d, ds + tail) == FoldDigits(e, tail) && Counted(e)
    ensures e.significand == Numeral(d.significand, ds) && e.fraction == d.fraction
    ensures e.exponent == if d.fraction then d.exponent - |ds| else d.exponent
    decreases |ds|
  {
    hide FoldDigits, FoldDigit, Counted, PowerOfTen;
    if ds == "" {
      assert ds + tail == tail;
      e := d;
    } else {
      var v := 10 * d.significand + (ds[0] as nat - '0' as nat);
      NumeralGrows(v, ds[1..]);
      OneGathered(d, ds[0]);
      OneFolded(d, ds[0], ds[1..] + tail);
      assert ds + tail == [ds[0]] + (ds[1..] + tail);
      e := DigitsGathered(FoldDigit(d, ds[0]), ds[1..], tail);
    }
  }

  lemma OneFolded(d: Decimal, c: char, rest: string)
    requires IsDigit(c)
    ensures FoldDigits(d, [c] + rest) == FoldDigits(FoldDigit(d, c), rest)
  {
    hide FoldDigit;
    assert ([c] + rest)[1..] == rest;
  }

  lemma OneGathered(d: Decimal, c: char)
    requires IsDigit(c) && Counted(d) && 10 * d.significand + (c as nat - '0' as nat) < PowerOfTen(19)
    ensures var e := FoldDigit(d, c);
            && Counted(e) && e.significand == 10 * d.significand + (c as nat - '0' as nat)
            && e.exponent == (if d.fraction then d.exponent - 1 else d.exponent) && e.fraction == d.fraction
  {
    if d.digits >= 19 {
      PowersGrow(18, d.digits - 1);
      assert false;
    }
  }

  lemma {:induction false} ExponentGathered(value: nat, ds: string)
    requires AllDigits(ds) && Numeral(value, ds) < 1000000
    ensures FoldExponent(value, ds) == Numeral(value, ds)
    decreases |ds|
  {
    if ds != "" {
      NumeralGrows(10 * value + (ds[0] as nat - '0' as nat), ds[1..]);
      ExponentGathered(10 * value + (ds[0] as nat - '0' as nat), ds[1..]);
    }
  }

  lemma ExponentRead(t: Token)
    requires IsToken(t) && Numeral(0, ExponentDigits(t)) < 1000000
    ensures ExponentPart(t.exponent) == Exponent(t)
  {
    ExponentGathered(0, ExponentDigits(t));
  }

  lemma PartsGathered(t: Token) returns (e: Decimal)
    requires IsToken(t) && Significand(t) < PowerOfTen(19)
    ensures FoldDigits(Decimal(0, 0, 0, false), t.whole + t.fraction + t.exponent) == (e, t.exponent)
    ensures e.significand == Significand(t) && e.exponent == -|FractionDigits(t)|
  {
    hide FoldDigits, FoldDigit, IsExponent, IsInt, Counted, Numeral;
    var zero, fd := Decimal(0, 0, 0, false), FractionDigits(t);
    WholeIsDigits(t.whole);
    NumeralSplit(0, t.whole, fd);
    NumeralGrows(Numeral(0, t.whole), fd);
    NothingGathered();
    var w := DigitsGathered(zero, t.whole, t.fraction + t.exponent);
    assert t.whole + t.fraction + t.exponent == t.whole + (t.fraction + t.exponent);
    ExponentStops(t.exponent);
    if t.fraction == "" {
      assert t.fraction + t.exponent == t.exponent;
      assert t.whole + fd == t.whole;
      e := w;
    } else {
      PointRead(w, t.fraction, t.exponent);
      e := DigitsGathered(w.(fraction := true), fd, t.exponent);
    }
  }

  lemma NothingGathered()
    ensures Counted(Decimal(0, 0, 0, false))
  {
  }

  lemma WholeIsDigits(s: string)
    requires IsInt(s)
    ensures AllDigits(s)
  {
  }

  lemma ExponentStops(s: string)
    requires IsExponent(s)
    ensures forall d :: FoldDigits(d, s) == (d, s)
  {
  }

  lemma PointRead(d: Decimal, fraction: string, tail: string)
    requires IsFraction(fraction) && fraction != ""
    ensures FoldDigits(d, fraction + tail) == FoldDigits(d.(fraction := true), fraction[1..] + tail)
    ensures Counted(d) ==> Counted(d.(fraction := true))
  {
    assert (fraction + tail)[0] == '.' && (fraction + tail)[1..] == fraction[1..] + tail;
  }

  /**
   The number read for a token of at most 19 significant digits, and an exponent below a
   million, is exactly what the token is worth.
   */
  lemma TokenValue(t: Token)
    requires IsToken(t) && Significand(t) < PowerOfTen(19) && Numeral(0, ExponentDigits(t)) < 1000000
    ensures DecimalValue(Text(t)) == Worth(t)
  {
    hide FoldDigits, IsToken, ExponentPart, Exponent, Significand, FractionDigits, Scale, PowerOfTen;
    var token, unsigned := Text(t), t.whole + t.fraction + t.exponent;
    var e := PartsGathered(t);
    ExponentRead(t);
    WholeStart(t);
    if t.negative {
      assert token == "-" + unsigned && token[1..] == unsigned;
    } else {
      assert token == unsigned && token[0] == t.whole[0];
    }
    NothingScaled(Exponent(t) - |FractionDigits(t)|);
  }

  lemma WholeStart(t: Token)
    requires IsToken(t)
    ensures t.whole != "" && t.whole[0] != '-'
  {
  }

  lemma NothingScaled(exponent: int)
    ensures Scale(0, exponent) == 0.0
  {
  }

  // ----- what is printed is a number ------------------------------------------------------------

  lemma {:induction false} LastDigitsAre(d: nat, n: nat)
    ensures AllDigits(LastDigits(d, n))
  {
    if n > 0 {
      LastDigitsAre(d / 10, n - 1);
      DigitIs(d % 10);
    }
  }

  lemma DigitIs(d: nat)
    requires d < 10
    ensures IsDigit(DigitChar(d)) && (d > 0 ==> DigitChar(d) != '0')
  {
  }

  /** The first of n digits is not a zero when the number needs all of them. */
  lemma {:induction false} FirstDigit(d: nat, n: nat)
    requires n > 0 && PowerOfTen(n - 1) <= d < PowerOfTen(n)
    ensures LastDigits(d, n)[0] != '0'
  {
    if n == 1 {
      DigitIs(d);
      assert LastDigits(d / 10, 0) == "";
    } else {
      FirstDigit(d / 10, n - 1);
    }
  }

  lemma SixteenZeros()
    ensures PowerOfTen(16) == E16 && PowerOfTen(17) == 10 * E16
  {
    assert PowerOfTen(4) == 10000;
    assert PowerOfTen(8) == 100000000;
    assert PowerOfTen(12) == 1000000000000;
  }

  lemma SignificantIs(x: real)
    requires x > 0.0
    ensures var ds := Significant(x).0; |ds| == 17 && AllDigits(ds) && ds[0] != '0'
  {
    hide Scientific, LastDigits, PowerOfTen, Rounded;
    SixteenZeros();
    var d := Rounded(Scientific(x).0 * E16 as real);
    RoundedIs(Scientific(x).0);
    LastDigitsAre(E16, 17);
    LastDigitsAre(d, 17);
    if d >= 10 * E16 {
      FirstDigit(E16, 17);
    } else {
      FirstDigit(d, 17);
    }
  }

  lemma RoundedIs(m: real)
    requires m >= 1.0
    ensures Rounded(m * E16 as real) >= E16
  {
    assert m * E16 as real >= E16 as real;
  }

  lemma {:induction false} ZerosAreDigits(n: nat)
    ensures AllDigits(Zeros(n))
  {
    if n > 0 {
      ZerosAreDigits(n - 1);
    }
  }

  lemma {:induction false} PrintedDigits(n: nat)
    ensures AllDigits(Digits(n))
  {
    DigitIs(n % 10);
    if n >= 10 {
      PrintedDigits(n / 10);
    }
  }

  lemma FractionIs(digits: string)
    requires AllDigits(digits)
    ensures IsFraction(FractionText(digits))
  {
  }

  lemma ExponentIs(e: int)
    ensures IsExponent(ExponentText(e))
  {
    var n: nat := if e < 0 then -e else e;
    PrintedDigits(n);
    var ds := (if n < 10 then "0" else "") + Digits(n);
    var sign := if e < 0 then "-" else "+";
    assert ExponentText(e)[1..] == sign + ds;
    assert (sign + ds)[1..] == ds;
  }

  /** Every positive number prints as a token without a sign. */
  lemma GeneralIsToken(x: real) returns (t: Token)
    requires x > 0.0
    ensures IsToken(t) && !t.negative && Text(t) == PrintGeneral(x)
  {
    hide Significant, FractionText, ExponentText, IsFraction, IsExponent;
    SignificantIs(x);
    var (ds, e) := Significant(x);
    if e < -4 || e > 16 {
      t := Token(false, ds[..1], FractionText(ds[1..]), ExponentText(e));
      FractionIs(ds[1..]);
      ExponentIs(e);
    } else if e >= 0 {
      t := Token(false, ds[..e + 1], FractionText(ds[e + 1..]), "");
      FractionIs(ds[e + 1..]);
      NoExponent();
    } else {
      var digits := Zeros(-e - 1) + ds;
      t := Token(false, "0", FractionText(digits), "");
      ZerosAreDigits(-e - 1);
      FractionIs(digits);
      NoExponent();
    }
  }

  lemma NoExponent()
    ensures IsExponent("")
  {
  }

  /** Whatever number is printed, a number of the grammar is what is written. */
  lemma PrintsToken(n: real) returns (t: Token)
    ensures IsToken(t) && Text(t) == PrintNumber(n)
  {
    hide PrintGeneral;
    if SafeInteger(n) {
      var k := n.Floor;
      t := IntegerToken(k);
    } else {
      assert n != 0.0;
      var u := GeneralIsToken(if n < 0.0 then -n else n);
      t := u.(negative := n < 0.0);
      assert Text(t) == (if n < 0.0 then "-" else "") + Text(u);
    }
  }

  lemma {:induction false} LeadingDigit(n: nat)
    ensures Digits(n)[0] == '0' ==> Digits(n) == "0"
  {
    DigitIs(n % 10);
    if n >= 10 {
      LeadingDigit(n / 10);
      NotZero(n / 10);
    }
  }

  lemma {:induction false} NotZero(n: nat)
    requires n > 0
    ensures Digits(n)[0] != '0'
  {
    if n < 10 {
      DigitIs(n);
    } else {
      NotZero(n / 10);
    }
  }

  lemma IntegerToken(k: int) returns (t: Token)
    ensures t == Token(k < 0, Digits(if k < 0 then -k else k), "", "")
    ensures IsToken(t) && Text(t) == PrintInteger(k)
  {
    hide Digits;
    var n: nat := if k < 0 then -k else k;
    t := Token(k < 0, Digits(n), "", "");
    PrintedDigits(n);
    LeadingDigit(n);
  }
}
