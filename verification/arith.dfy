/**
 * The numeric helpers of parser.c: operate_values and evaluate_condition,
 * over the C library's atof and snprintf("%.2f") modelled on exact reals.
 */
module Arith {
  import opened Wrappers
  import opened CType
  import opened Tokens
  import opened Faults

  function DigitVal(c: char): nat
    requires IsDigit(c)
  {
    (c as int) - ('0' as int)
  }

  function DigitChar(d: nat): (c: char)
    requires d < 10
    ensures IsDigit(c) && DigitVal(c) == d
  {
    (('0' as int) + d) as char
  }

  /** The value of a string of decimal digits, most significant first. */
  function DigitsValue(s: string): nat
    requires AllDigits(s)
    decreases |s|
  {
    if |s| == 0 then 0 else DigitsValue(s[..|s| - 1]) * 10 + DigitVal(s[|s| - 1])
  }

  /** The value of a string of digits read after a decimal point. */
  function FractionValue(s: string): real
    requires AllDigits(s)
    decreases |s|
  {
    if |s| == 0 then 0.0 else (DigitVal(s[0]) as real + FractionValue(s[1..])) / 10.0
  }

  function Pow10(n: nat): (r: nat)
    ensures r > 0
  {
    if n == 0 then 1 else 10 * Pow10(n - 1)
  }

  /** Ten to an integer power, as a real. */
  function Scale10(e: int): real {
    if e >= 0 then Pow10(e) as real else 1.0 / (Pow10(-e) as real)
  }

  /** The end of the run of blanks starting at i. */
  function SpaceSpan(s: string, i: nat): (j: nat)
    requires i <= |s|
    ensures i <= j <= |s|
    ensures !IsSpace(Peek(s, j))
    decreases |s| - i
  {
    if i < |s| && IsSpace(s[i]) then SpaceSpan(s, i + 1) else i
  }

  /** The exponent suffix at i (`e` or `E`, an optional sign, at least one digit), or 0 without one. */
  function Exponent(s: string, i: nat): int
    requires i <= |s|
  {
    if Peek(s, i) == 'e' || Peek(s, i) == 'E' then
      var signed := Peek(s, i + 1) == '+' || Peek(s, i + 1) == '-';
      var j := if signed then i + 2 else i + 1;
      var k := DigitSpan(s, j);
      if k == j then 0
      else if Peek(s, i + 1) == '-' then -(DigitsValue(s[j..k]) as int)
      else DigitsValue(s[j..k])
    else 0
  }

  /**
   * atof: skip leading blanks, read an optional sign, then an unsigned
   * decimal; a text with no digits reads as zero.
   */
  function Atof(s: string): real {
    var i := SpaceSpan(s, 0);
    var signed := Peek(s, i) == '-' || Peek(s, i) == '+';
    var u := Unsigned(s, if signed then i + 1 else i);
    if Peek(s, i) == '-' then -u else u
  }

  /** Digits with an optional fraction and an optional exponent, from j on; zero with no digits. */
  function Unsigned(s: string, j: nat): real
    requires j <= |s|
  {
    var k := DigitSpan(s, j);
    var point := Peek(s, k) == '.';
    var m := if point then DigitSpan(s, k + 1) else k;
    if k == j && (!point || m == k + 1) then 0.0
    else
      var fraction := if point then FractionValue(s[k + 1..m]) else 0.0;
      (DigitsValue(s[j..k]) as real + fraction) * Scale10(Exponent(s, m))
  }

  /** A natural number in decimal, without leading zeros. */
  function NatText(n: nat): (r: string)
    ensures |r| > 0 && AllDigits(r)
    ensures r[0] == '0' <==> n == 0
    ensures r[0] == '0' ==> |r| == 1
  {
    if n < 10 then [DigitChar(n)] else NatText(n / 10) + [DigitChar(n % 10)]
  }

  /** |x| * 100 rounded to the nearest integer, ties to even, as printf rounds. */
  function Cents(x: real): nat {
    var y := if x < 0.0 then -x * 100.0 else x * 100.0;
    var f := y.Floor;
    var d := y - f as real;
    if d > 0.5 || (d == 0.5 && f % 2 == 1) then (f + 1) as nat else f as nat
  }

  /**
   * The shape of a `"%.2f"` rendering: an optional minus sign, a non-empty
   * whole part without leading zeros, a point, and exactly two digits.
   */
  predicate TwoDecimals(s: string) {
    var w := if |s| > 0 && s[0] == '-' then 1 else 0;
    && |s| >= w + 4
    && AllDigits(s[w..|s| - 3]) && s[|s| - 3] == '.' && AllDigits(s[|s| - 2..])
    && (s[w] == '0' ==> |s| == w + 4)
  }

  /** snprintf("%.2f"): optional minus sign, whole part, point, exactly two decimals. */
  function Fmt2(x: real): (r: string)
    ensures TwoDecimals(r)
    ensures r[0] == '-' <==> x < 0.0
  {
    var c := Cents(x);
    var sign := if x < 0.0 then "-" else "";
    TwoDecimalsOf(sign, NatText(c / 100), DigitChar(c % 100 / 10), DigitChar(c % 10));
    sign + NatText(c / 100) + "." + [DigitChar(c % 100 / 10), DigitChar(c % 10)]
  }

  /** A sign, a whole part without leading zeros, a point and two digits have the TwoDecimals shape. */
  lemma TwoDecimalsOf(sign: string, whole: string, a: char, b: char)
    requires sign == "" || sign == "-"
    requires |whole| > 0 && AllDigits(whole) && (whole[0] == '0' ==> |whole| == 1)
    requires IsDigit(a) && IsDigit(b)
    ensures var r := sign + whole + "." + [a, b];
      TwoDecimals(r) && (r[0] == '-' <==> sign == "-")
  {
    var r := sign + whole + "." + [a, b];
    assert r[|sign|..|r| - 3] == whole;
    assert r[|r| - 2..] == [a, b];
    assert r[|sign|] == whole[0];
  }

  /** x rounded to two decimal places, the value Fmt2 prints. */
  function Round2(x: real): real {
    var c := Cents(x) as real / 100.0;
    if x < 0.0 then -c else c
  }

  predicate IsArithOp(op: Kind) {
    op == Plus || op == Minus || op == Multiply || op == Divide
  }

  function Apply(op: Kind, a: real, b: real): real
    requires IsArithOp(op)
    requires op == Divide ==> b != 0.0
  {
    match op
    case Plus => a + b
    case Minus => a - b
    case Multiply => a * b
    case Divide => a / b
  }

  /** A computed text and whether the division diagnostic was written. */
  datatype Computed = Computed(text: string, divByZero: bool)

  /**
   * operate_values: both texts go through atof first (a NULL there is a
   * fault); an operator other than + - * / and a division by zero both give
   * the text "0"; otherwise the result is printed with two decimals.
   */
  function OperateValues(v1: Option<string>, v2: Option<string>, op: Kind): (r: Outcome<Computed>)
    ensures r.Ok? <==> v1.Some? && v2.Some?
    ensures r.Ok? ==> (r.value.divByZero <==> op == Divide && Atof(v2.value) == 0.0)
    ensures r.Ok? ==> (r.value.text == "0" <==> !IsArithOp(op) || r.value.divByZero)
    ensures r.Ok? && IsArithOp(op) && !r.value.divByZero ==>
      r.value.text == Fmt2(Apply(op, Atof(v1.value), Atof(v2.value)))
    ensures r.Ok? && IsArithOp(op) && !r.value.divByZero ==>
      Atof(r.value.text) == Round2(Apply(op, Atof(v1.value), Atof(v2.value)))
  {
    if v1.None? || v2.None? then Fail(NullNumber)
    else
      var a := Atof(v1.value);
      var b := Atof(v2.value);
      if !IsArithOp(op) then Ok(Computed("0", false))
      else if op == Divide && b == 0.0 then Ok(Computed("0", true))
      else
        var t := Fmt2(Apply(op, a, b));
        AtofFmt2(Apply(op, a, b));
        Ok(Computed(t, false))
  }

  /**
   * evaluate_condition: both texts go through atof first; only `<` and `>`
   * can be true, and they compare the two numbers.
   */
  function EvaluateCondition(left: Option<string>, op: Kind, right: Option<string>): (r: Outcome<bool>)
    ensures r.Ok? <==> left.Some? && right.Some?
    ensures r.Ok? && r.value ==> op == Less || op == Greater
    ensures r.Ok? && op == Less ==> (r.value <==> Atof(left.value) < Atof(right.value))
    ensures r.Ok? && op == Greater ==> (r.value <==> Atof(left.value) > Atof(right.value))
  {
    if left.None? || right.None? then Fail(NullNumber)
    else
      var a := Atof(left.value);
      var b := Atof(right.value);
      Ok(match op
         case Less => a < b
         case Greater => a > b
         case _ => false)
  }

  // ---------------------------------------------------------------------
  // Reading printed numbers back

  /** Digits followed by a non-digit: the run is exactly the digits. */
  lemma {:induction false} DigitsValueNatText(n: nat)
    ensures DigitsValue(NatText(n)) == n
  {
    var s := NatText(n);
    if n >= 10 {
      assert s[..|s| - 1] == NatText(n / 10);
      DigitsValueNatText(n / 10);
    }
  }

  /** An unsigned decimal with a fraction part and nothing after it. */
  lemma UnsignedDecimal(s: string, j: nat, d: string, f: string)
    requires |d| > 0 && AllDigits(d) && AllDigits(f)
    requires j <= |s| && s[j..] == d + "." + f
    ensures Unsigned(s, j) == DigitsValue(d) as real + FractionValue(f)
  {
    var k := j + |d|;
    assert s[j..k] == d;
    assert s[k] == '.';
    DigitSpanExact(s, j, k);
    assert s[k + 1..|s|] == f;
    DigitSpanExact(s, k + 1, |s|);
    assert Exponent(s, |s|) == 0;
    UnsignedWithPoint(s, j, k, |s|);
  }

  /** Digits from j to k, a point, digits to m and no exponent read as the whole part plus the fraction. */
  lemma UnsignedWithPoint(s: string, j: nat, k: nat, m: nat)
    requires j < k < m <= |s| && s[k] == '.'
    requires DigitSpan(s, j) == k && DigitSpan(s, k + 1) == m
    requires Exponent(s, m) == 0
    ensures AllDigits(s[k + 1..m])
    ensures Unsigned(s, j) == DigitsValue(s[j..k]) as real + FractionValue(s[k + 1..m])
  {
    assert Scale10(0) == 1.0;
  }

  /** A text without a single digit, such as a bare name, reads as zero. */
  lemma AtofWithoutDigits(s: string)
    requires forall k :: 0 <= k < |s| ==> !IsDigit(s[k])
    ensures Atof(s) == 0.0
  {
    var i := SpaceSpan(s, 0);
    var j := if Peek(s, i) == '-' || Peek(s, i) == '+' then i + 1 else i;
    assert DigitSpan(s, j) == j;
    assert j + 1 <= |s| ==> DigitSpan(s, j + 1) == j + 1;
  }

  /** atof of an optionally negated decimal with a fraction part. */
  lemma AtofDecimal(s: string, neg: bool, d: string, f: string)
    requires |d| > 0 && AllDigits(d) && AllDigits(f)
    requires s == (if neg then "-" else "") + d + "." + f
    ensures Atof(s) == if neg then -(DigitsValue(d) as real + FractionValue(f))
                       else DigitsValue(d) as real + FractionValue(f)
  {
    if neg {
      AtofNegatedDecimal(s, d, f);
    } else {
      AtofPlainDecimal(s, d, f);
    }
  }

  /** atof of `-d.f`. */
  lemma AtofNegatedDecimal(s: string, d: string, f: string)
    requires |d| > 0 && AllDigits(d) && AllDigits(f)
    requires s == "-" + d + "." + f
    ensures Atof(s) == -(DigitsValue(d) as real + FractionValue(f))
  {
    assert s[0] == '-' && s[1..] == d + "." + f;
    AtofNegated(s);
    UnsignedDecimal(s, 1, d, f);
  }

  /** atof of `d.f`. */
  lemma AtofPlainDecimal(s: string, d: string, f: string)
    requires |d| > 0 && AllDigits(d) && AllDigits(f)
    requires s == d + "." + f
    ensures Atof(s) == DigitsValue(d) as real + FractionValue(f)
  {
    assert IsDigit(s[0]) && s[0..] == d + "." + f;
    AtofFromDigit(s);
    UnsignedDecimal(s, 0, d, f);
  }

  /** A text opening with a minus sign reads as the negated number after it. */
  lemma AtofNegated(s: string)
    requires |s| > 0 && s[0] == '-'
    ensures Atof(s) == -Unsigned(s, 1)
  {
    assert SpaceSpan(s, 0) == 0;
  }

  /** A text opening with a digit reads as the unsigned number it starts with. */
  lemma AtofFromDigit(s: string)
    requires |s| > 0 && IsDigit(s[0])
    ensures Atof(s) == Unsigned(s, 0)
  {
    assert SpaceSpan(s, 0) == 0;
  }

  /** Two digits after the point read as hundredths. */
  lemma FractionTwoDigits(a: nat, b: nat)
    requires a < 10 && b < 10
    ensures FractionValue([DigitChar(a), DigitChar(b)]) == (10 * a + b) as real / 100.0
  {
    var f := [DigitChar(a), DigitChar(b)];
    assert f[1..] == [DigitChar(b)];
    assert [DigitChar(b)][1..] == [];
    assert FractionValue([DigitChar(b)]) == b as real / 10.0;
    assert FractionValue(f) == (a as real + b as real / 10.0) / 10.0;
  }

  /** Printing with two decimals and reading back with atof gives x rounded to two decimals. */
  lemma AtofFmt2(x: real)
    ensures Atof(Fmt2(x)) == Round2(x)
  {
    var c := Cents(x);
    var q := c / 100;
    var d := NatText(q);
    var f := [DigitChar(c % 100 / 10), DigitChar(c % 10)];
    AtofDecimal(Fmt2(x), x < 0.0, d, f);
    DigitsValueNatText(q);
    FractionTwoDigits(c % 100 / 10, c % 10);
    CentsDecimal(c);
  }

  /** A count of hundredths is its whole part plus its two decimal digits over a hundred. */
  lemma CentsDecimal(c: nat)
    ensures (c / 100) as real + (10 * (c % 100 / 10) + c % 10) as real / 100.0 == c as real / 100.0
  {
    var q := c / 100;
    var r := c % 100;
    assert 10 * (r / 10) + r % 10 == r;
    assert c % 10 == r % 10;
    assert (100 * q + r) as real == 100.0 * (q as real) + r as real;
  }

  /** Rounding to two decimals moves a value by at most half a hundredth. */
  lemma Round2Close(x: real)
    ensures -0.005 <= Round2(x) - x <= 0.005
  {
  }

  /**
   * An arithmetic result, printed by operate_values and read back by the
   * next atof, is within half a hundredth of the exact result.
   */
  lemma OperateValuesClose(x: string, y: string, op: Kind)
    requires IsArithOp(op) && !(op == Divide && Atof(y) == 0.0)
    ensures var e := Apply(op, Atof(x), Atof(y));
      -0.005 <= Atof(OperateValues(Some(x), Some(y), op).value.text) - e <= 0.005
  {
    Round2Close(Apply(op, Atof(x), Atof(y)));
  }

  /** Whole numbers print exactly: the loop counters of `for` read back unchanged. */
  lemma Round2Whole(n: int)
    ensures Round2(n as real) == n as real
  {
    var a := if n < 0 then -n else n;
    var y := (a * 100) as real;
    assert y == if n < 0 then -(n as real) * 100.0 else (n as real) * 100.0;
    assert y.Floor == a * 100;
    assert Cents(n as real) == a * 100;
  }

  /** A digit string reads as its decimal value. */
  lemma AtofDigits(s: string)
    requires |s| > 0 && AllDigits(s)
    ensures Atof(s) == DigitsValue(s) as real
  {
    DigitSpanExact(s, 0, |s|);
    assert s[0..|s|] == s;
    assert SpaceSpan(s, 0) == 0;
    assert Exponent(s, |s|) == 0;
    assert Scale10(0) == 1.0;
  }
}
