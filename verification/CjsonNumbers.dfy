/** What counts as a number and which one it is: numerals in their parts, and `strtod` on them. */
module CjsonNumbers {
  import opened CjsonParse

  // ----- Numerals

  datatype Exponential = Exponential(mark: char, sign: string, digits: string)

  /** Sign, digits before and behind a point, and a power of ten, all but some digits optional. */
  datatype Numeral = Numeral(sign: string, whole: string, point: bool, fraction: string, power: seq<Exponential>)

  predicate AllDigits(s: string) { forall k :: 0 <= k < |s| ==> IsDigit(s[k]) }

  predicate IsSign(s: string) { s == "" || s == "+" || s == "-" }

  predicate WellFormed(n: Numeral) {
    && IsSign(n.sign) && AllDigits(n.whole) && AllDigits(n.fraction) && (n.point || n.fraction == "")
    && |n.whole| + |n.fraction| > 0
    && |n.power| <= 1
    && forall k :: 0 <= k < |n.power| ==> PowerOk(n.power[k])
  }

  predicate PowerOk(p: Exponential) {
    (p.mark == 'e' || p.mark == 'E') && IsSign(p.sign) && AllDigits(p.digits) && p.digits != ""
  }

  function PowerText(n: Numeral): string {
    if n.power == [] then "" else [n.power[0].mark] + (n.power[0].sign + n.power[0].digits)
  }

  function PointText(n: Numeral): string { if n.point then ['.'] + n.fraction else "" }

  function Spelling(n: Numeral): string { n.sign + (n.whole + (PointText(n) + PowerText(n))) }

  function Power(n: Numeral): int {
    if n.power == [] then 0
    else
      var e: int := Natural(n.power[0].digits);
      if n.power[0].sign == "-" then -e else e
  }

  /** The number, without rounding. */
  function Value(n: Numeral): real {
    var magnitude := (Natural(n.whole) as real + Natural(n.fraction) as real / Pow10(|n.fraction|)) * Pow10(Power(n));
    if n.sign == "-" then -magnitude else magnitude
  }

  /** `rest` does not go on with anything that would make the numeral longer. */
  predicate Ends(n: Numeral, rest: string) {
    if n.power != [] then Digits(rest) == 0
    else if n.point then Digits(rest) == 0 && Exponent(rest).1 == 0
    else Digits(rest) == 0 && !Starts(rest, '.') && Exponent(rest).1 == 0
  }

  // ----- Arithmetic

  lemma {:induction false} Pow10Up(a: int)
    ensures Pow10(a + 1) == 10.0 * Pow10(a)
  {
    if a < 0 { assert Pow10(a) == Pow10(a + 1) / 10.0; }
  }

  function Times(x: real, y: real): real { x * y }

  lemma TenTimes(x: real, y: real)
    ensures Times(x, 10.0 * y) == 10.0 * Times(x, y)
  {
  }

  lemma {:induction false} Pow10Adds(a: int, b: nat)
    ensures Pow10(a + b) == Times(Pow10(a), Pow10(b))
  {
    if b > 0 {
      hide Times;
      Pow10Adds(a, b - 1);
      Pow10Up(a + b - 1);
      Pow10Up(b - 1);
      TenTimes(Pow10(a), Pow10(b - 1));
      hide Pow10;
    } else {
      assert Pow10(0) == 1.0;
    }
  }

  /** One more digit. */
  lemma NaturalStep(s: string)
    requires AllDigits(s) && s != []
    ensures var n := |s| - 1; Natural(s) as real == 10.0 * (Natural(s[..n]) as real) + DigitOf(s[n]) as real
  {
  }

  function DigitOf(c: char): nat
    requires IsDigit(c)
  {
    (c - '0') as nat
  }

  lemma {:induction false} NaturalJoins(s: string, t: string)
    requires AllDigits(s) && AllDigits(t)
    ensures Natural(s + t) as real == Times(Natural(s) as real, Pow10(|t|)) + Natural(t) as real
  {
    if t == [] {
      assert s + t == s && Pow10(0) == 1.0;
    } else {
      hide Natural, Times, DigitOf;
      var n := |t| - 1;
      assert (s + t)[..|s + t| - 1] == s + t[..n] && (s + t)[|s + t| - 1] == t[n];
      NaturalJoins(s, t[..n]);
      NaturalStep(s + t);
      NaturalStep(t);
      Pow10Up(n);
      hide Pow10;
      TenTimes(Natural(s) as real, Pow10(n));
    }
  }

  /** Shifting the point makes no difference. */
  lemma MantissaScales(n: Numeral)
    requires WellFormed(n)
    ensures Scaled(n.sign == "-", Natural(n.whole + n.fraction), Power(n) - |n.fraction|) == Value(n)
  {
    hide Natural, Pow10, Power;
    var p, e := |n.fraction|, Power(n);
    NaturalJoins(n.whole, n.fraction);
    Pow10Adds(e - p, p);
    Distribute(Natural(n.whole) as real, Natural(n.fraction) as real, Pow10(p), Pow10(e - p), Pow10(e));
    Negated(Natural(n.whole + n.fraction) as real, Pow10(e - p));
  }

  lemma Negated(x: real, y: real)
    ensures (-x) * y == -(x * y)
  {
  }

  lemma Distribute(w: real, f: real, p: real, q: real, r: real)
    requires p > 0.0 && r == q * p
    ensures (w * p + f) * q == (w + f / p) * r
  {
    var g := f / p;
    assert f == g * p;
    assert (w * p + g * p) * q == (w + g) * (q * p);
  }

  // ----- Reading

  lemma {:induction false} DigitsThen(d: string, rest: string)
    requires AllDigits(d) && Digits(rest) == 0
    ensures Digits(d + rest) == |d|
  {
    if d == [] {
      assert d + rest == rest;
    } else {
      assert (d + rest)[1..] == d[1..] + rest;
      DigitsThen(d[1..], rest);
    }
  }

  lemma {:induction false} DigitsAreDigits(s: string)
    ensures AllDigits(s[..Digits(s)]) && Digits(s[Digits(s)..]) == 0
  {
    if s != [] && IsDigit(s[0]) {
      DigitsAreDigits(s[1..]);
      var n := Digits(s[1..]);
      assert s[..n + 1] == [s[0]] + s[1..][..n] && s[n + 1..] == s[1..][n..];
    }
  }

  lemma ExponentReads(p: Exponential, rest: string)
    requires PowerOk(p) && Digits(rest) == 0
    ensures var text := [p.mark] + (p.sign + p.digits);
      Exponent(text + rest) == (if p.sign == "-" then -(Natural(p.digits) as int) else Natural(p.digits), |text|)
  {
    hide Natural, Exponent, Digits;
    var d := p.digits + rest;
    DigitsThen(p.digits, rest);
    Cut(p.sign, d);
    Cut(p.digits, rest);
    FirstDigit(p, rest);
    ExponentOf(p.mark, p.sign + d, p.sign, d, p.digits);
    Gathered(p.mark, p.sign, p.digits, rest);
  }

  lemma Cut(a: string, b: string)
    ensures (a + b)[|a|..] == b && (a + b)[..|a|] == a
  {
  }

  lemma Gathered(mark: char, sign: string, digits: string, rest: string)
    ensures [mark] + (sign + digits) + rest == [mark] + (sign + (digits + rest))
  {
  }

  lemma FirstDigit(p: Exponential, rest: string)
    requires PowerOk(p)
    ensures p.digits != "" && IsDigit(p.digits[0]) && (p.digits + rest)[0] == p.digits[0]
  {
  }

  lemma ExponentOf(mark: char, t: string, sign: string, d: string, digits: string)
    requires (mark == 'e' || mark == 'E') && IsSign(sign) && t == sign + d && t[|sign|..] == d
    requires digits != "" && IsDigit(digits[0]) && d != "" && d[0] == digits[0]
    requires |digits| == Digits(d) && d[..Digits(d)] == digits
    ensures Exponent([mark] + t)
         == (if sign == "-" then -(Natural(digits) as int) else Natural(digits), 1 + |sign| + |digits|)
  {
    hide Digits, Natural;
    var s := [mark] + t;
    assert s[1..] == t && t[0] == if sign == "" then d[0] else sign[0];
  }

  lemma FromPowerReads(n: Numeral, rest: string)
    requires WellFormed(n) && Ends(n, rest)
    ensures FromPower(n.sign == "-", n.whole, n.fraction, PowerText(n) + rest) == Numeric(Value(n), |PowerText(n)|)
  {
    hide Exponent, Natural, Scaled, Value, Digits;
    MantissaScales(n);
    if n.power == [] {
      assert PowerText(n) + rest == rest;
      NoExponent(rest);
    } else {
      ExponentReads(n.power[0], rest);
    }
  }

  lemma NoExponent(s: string)
    ensures Exponent(s).1 == 0 ==> Exponent(s).0 == 0
  {
  }

  /** What stands behind a run of digits is no digit. */
  lemma NoMoreDigits(n: Numeral, rest: string)
    requires WellFormed(n) && Ends(n, rest)
    ensures Digits(PowerText(n) + rest) == 0 && Digits(PointText(n) + (PowerText(n) + rest)) == 0
    ensures Starts(PointText(n) + (PowerText(n) + rest), '.') <==> n.point
  {
    var u := PowerText(n) + rest;
    if n.power == [] { assert u == rest; }
    if !n.point { assert PointText(n) + u == u; }
  }

  lemma FromPointReads(n: Numeral, rest: string)
    requires WellFormed(n) && Ends(n, rest)
    ensures FromPoint(n.sign == "-", n.whole, PointText(n) + (PowerText(n) + rest))
         == Numeric(Value(n), |PointText(n)| + |PowerText(n)|)
  {
    hide FromPower, Value, Digits, Ends, PowerText;
    var u := PowerText(n) + rest;
    var t := PointText(n) + u;
    NoMoreDigits(n, rest);
    FromPowerReads(n, rest);
    if n.point {
      var v := n.fraction + u;
      assert t[1..] == v && v[..|n.fraction|] == n.fraction && v[|n.fraction|..] == u;
      DigitsThen(n.fraction, u);
    } else {
      assert t == u;
    }
  }

  lemma FromWholeReads(n: Numeral, rest: string)
    requires WellFormed(n) && Ends(n, rest)
    ensures FromWhole(n.sign == "-", n.whole + (PointText(n) + (PowerText(n) + rest)))
         == Numeric(Value(n), |n.whole| + |PointText(n)| + |PowerText(n)|)
  {
    hide FromPoint, Value, Digits, Ends, PowerText, PointText;
    var t := PointText(n) + (PowerText(n) + rest);
    NoMoreDigits(n, rest);
    FromPointReads(n, rest);
    DigitsThen(n.whole, t);
    assert (n.whole + t)[..|n.whole|] == n.whole && (n.whole + t)[|n.whole|..] == t;
  }

  /** `strtod` takes a numeral that ends there, all of it, for its value. */
  lemma StrtodReads(n: Numeral, rest: string)
    requires WellFormed(n) && Ends(n, rest)
    ensures Strtod(Spelling(n) + rest) == Numeric(Value(n), |Spelling(n)|)
  {
    hide FromWhole, Value, Digits, Ends, PowerText, PointText;
    var s := n.whole + (PointText(n) + (PowerText(n) + rest));
    FromWholeReads(n, rest);
    SignedText(n, rest);
    assert (n.sign + s)[|n.sign|..] == s;
    assert Spelling(n) + rest == n.sign + s;
  }

  lemma SignedText(n: Numeral, rest: string)
    requires WellFormed(n) && Ends(n, rest)
    ensures var s := n.sign + (n.whole + (PointText(n) + (PowerText(n) + rest)));
      (Signed(s) <==> n.sign != "") && (Starts(s, '-') <==> n.sign == "-")
  {
    hide Digits, Ends, PowerText;
    var t := n.whole + (PointText(n) + (PowerText(n) + rest));
    if n.sign == "" {
      assert n.sign + t == t;
      if n.whole != "" { assert t[0] == n.whole[0] && IsDigit(n.whole[0]); }
    }
  }

  lemma WholeValue(n: Numeral)
    requires WellFormed(n) && !n.point && n.power == []
    ensures Value(n) == if n.sign == "-" then -(Natural(n.whole) as real) else Natural(n.whole) as real
  {
    assert Pow10(0) == 1.0 && Natural("") == 0;
  }

  /** A sign and digits are a whole number. */
  lemma WholeReads(sign: string, digits: string)
    requires IsSign(sign) && AllDigits(digits) && digits != ""
    ensures Strtod(sign + digits)
         == Numeric(if sign == "-" then -(Natural(digits) as real) else Natural(digits) as real, |sign + digits|)
  {
    hide Strtod, Value, Natural;
    var n := Numeral(sign, digits, false, "", []);
    WholeValue(n);
    assert Spelling(n) == sign + digits && Spelling(n) + "" == sign + digits;
    StrtodReads(n, "");
  }

  // ----- Nothing but numerals is taken

  lemma SignTaken(s: string) returns (sign: string, rest: string)
    ensures IsSign(sign) && (sign != "" <==> Signed(s)) && (sign == "-" <==> Starts(s, '-')) && s == sign + rest
  {
    sign := if Starts(s, '-') then "-" else if Starts(s, '+') then "+" else "";
    rest := s[|sign|..];
  }

  lemma DigitsTaken(s: string) returns (digits: string, rest: string)
    ensures s == digits + rest && |digits| == Digits(s) && AllDigits(digits) && Digits(rest) == 0
  {
    digits, rest := s[..Digits(s)], s[Digits(s)..];
    DigitsAreDigits(s);
  }

  /** Where there is an exponent, the mark and at least one digit. */
  lemma PowerThere(s: string, t: string, sign: string, d: string)
    requires s != [] && s == [s[0]] + t && t == sign + d && (sign != "" <==> Signed(t)) && IsSign(sign)
    ensures Exponent(s).1 > 0 ==> (s[0] == 'e' || s[0] == 'E') && Digits(d) > 0
  {
    hide Digits;
    assert s[1..] == t && t[|sign|..] == d;
  }

  /** The exponent at the start of a text, in its parts. */
  lemma PowerTaken(s: string) returns (power: seq<Exponential>, rest: string)
    ensures |power| <= 1 && (forall k :: 0 <= k < |power| ==> PowerOk(power[k]))
    ensures power == [] ==> Exponent(s).1 == 0 && rest == s
    ensures power != [] ==>
      s == [power[0].mark] + (power[0].sign + power[0].digits) + rest && Digits(rest) == 0
  {
    if Exponent(s).1 == 0 { return [], s; }
    hide Digits, Exponent;
    var t := s[1..];
    var sign, d := SignTaken(t);
    PowerThere(s, t, sign, d);
    var digits;
    digits, rest := DigitsTaken(d);
    power := [Exponential(s[0], sign, digits)];
    Rejoined(s, t, sign, d, digits, rest);
  }

  lemma Rejoined(s: string, t: string, sign: string, d: string, digits: string, rest: string)
    requires s != [] && s == [s[0]] + t && t == sign + d && d == digits + rest
    ensures s == [s[0]] + (sign + digits) + rest
  {
  }

  /** From a point on, if there is one. */
  lemma PointTaken(sign: string, whole: string, s: string) returns (n: Numeral, rest: string)
    requires IsSign(sign) && AllDigits(whole) && Digits(s) == 0
    requires whole != "" || (Starts(s, '.') && Digits(s[1..]) > 0)
    ensures n.sign == sign && n.whole == whole && WellFormed(n) && Ends(n, rest)
    ensures s == PointText(n) + (PowerText(n) + rest)
  {
    hide Digits, Exponent;
    var point, fraction, u := Starts(s, '.'), "", s;
    if point {
      fraction, u := DigitsTaken(s[1..]);
      assert s == ['.'] + s[1..];
      assert s == (['.'] + fraction) + u;
    }
    var power;
    power, rest := PowerTaken(u);
    n := Numeral(sign, whole, point, fraction, power);
    assert u == PowerText(n) + rest;
  }

  /** Whatever `strtod` takes is a numeral that ends there. */
  lemma StrtodTakesNumerals(s: string) returns (n: Numeral, rest: string)
    requires Strtod(s).Numeric?
    ensures WellFormed(n) && s == Spelling(n) + rest && Ends(n, rest)
    ensures Strtod(s) == Numeric(Value(n), |Spelling(n)|)
  {
    hide Digits, Strtod, Ends, WellFormed, PowerText, PointText, Value, AllDigits, Spelling, Signed, IsSign;
    var sign, t := SignTaken(s);
    var whole, u := DigitsTaken(t);
    SomeDigits(s, sign, t, whole, u);
    n, rest := PointTaken(sign, whole, u);
    SpelledOut(n, rest, s, t, u);
    StrtodReads(n, rest);
  }

  lemma SpelledOut(n: Numeral, rest: string, s: string, t: string, u: string)
    requires s == n.sign + t && t == n.whole + u && u == PointText(n) + (PowerText(n) + rest)
    ensures s == Spelling(n) + rest
  {
    hide PointText, PowerText;
  }

  /** A number has a digit before the point or behind it. */
  lemma SomeDigits(s: string, sign: string, t: string, whole: string, u: string)
    requires Strtod(s).Numeric? && s == sign + t && IsSign(sign) && (sign != "" <==> Signed(s))
    requires t == whole + u && |whole| == Digits(t)
    ensures whole != "" || (Starts(u, '.') && Digits(u[1..]) > 0)
  {
    hide Digits, FromPower;
    assert s[|sign|..] == t && t[..|whole|] == whole && t[|whole|..] == u;
  }

  // ----- parse_number

  lemma NumberChars(n: Numeral)
    requires WellFormed(n)
    ensures forall k :: 0 <= k < |Spelling(n)| ==> NumberChar(Spelling(n)[k])
  {
    assert forall c :: c in n.sign || c in n.whole || c in PointText(n) || c in PowerText(n) ==> NumberChar(c);
  }

  /** A numeral of at most 63 characters with nothing like a number behind it is read for its value. */
  lemma ReadsNumerals(n: Numeral, rest: string)
    requires WellFormed(n) && |Spelling(n)| <= 63 && Follows(rest)
    ensures ReadNumber(Spelling(n) + rest) == Numeric(Value(n), |Spelling(n)|)
  {
    hide Spelling, Value, Strtod, WellFormed, NumberChar;
    NumberChars(n);
    RunStops(Spelling(n), rest, 63);
    assert (Spelling(n) + rest)[..|Spelling(n)|] == Spelling(n) && Spelling(n) + [] == Spelling(n);
    StrtodReads(n, []);
  }

  /** What is read for a number is a numeral of at most 63 characters, and the number is its value. */
  lemma ReadIsNumeral(s: string) returns (n: Numeral)
    requires ReadNumber(s).Numeric?
    ensures WellFormed(n) && |Spelling(n)| <= 63 && |Spelling(n)| <= |s| && s[..|Spelling(n)|] == Spelling(n)
    ensures ReadNumber(s) == Numeric(Value(n), |Spelling(n)|)
  {
    hide Spelling, Value, Strtod, WellFormed, Ends;
    var run := s[..NumberRun(s, 63)];
    var rest;
    n, rest := StrtodTakesNumerals(run);
    assert run[..|Spelling(n)|] == Spelling(n);
  }
}
