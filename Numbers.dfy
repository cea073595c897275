/**
 * Numeric parsing and rounding as the report performs them: `to_float`
 * (a leading-number regular expression followed by Python's `float`) and
 * Python's built-in `round`, which rounds halves to the even neighbour.
 * Focal lengths are exact reals here, not IEEE doubles.
 */
module Numbers {
  import opened Wrappers

  predicate IsDigit(c: char)
  {
    '0' <= c <= '9'
  }

  /** The character class `[\d.]` of the pattern `([\d.]+)`. */
  predicate NumChar(c: char)
  {
    IsDigit(c) || c == '.'
  }

  predicate AllNumChars(s: string)
  {
    forall i :: 0 <= i < |s| ==> NumChar(s[i])
  }

  predicate AllDigits(s: string)
  {
    forall i :: 0 <= i < |s| ==> IsDigit(s[i])
  }

  /**
   * What `num.match(text)` captures: the greedy match anchored at the start,
   * i.e. the longest prefix of `text` made of digits and dots.
   */
  function LeadingRun(text: string): (run: string)
    ensures |run| <= |text| && run == text[..|run|]
    ensures AllNumChars(run)
    ensures |run| < |text| ==> !NumChar(text[|run|])
  {
    if text != [] && NumChar(text[0]) then [text[0]] + LeadingRun(text[1..]) else []
  }

  function DotCount(s: string): nat
  {
    if s == [] then 0 else (if s[0] == '.' then 1 else 0) + DotCount(s[1..])
  }

  /** The digits of `s` with its dots removed. */
  function DigitsOnly(s: string): (r: string)
    requires AllNumChars(s)
    ensures AllDigits(r)
    ensures |r| == |s| - DotCount(s)
  {
    if s == [] then [] else (if s[0] == '.' then [] else [s[0]]) + DigitsOnly(s[1..])
  }

  /** The number of characters after the first dot of `s` (0 without a dot). */
  function FracLen(s: string): (n: nat)
    ensures n < |s| || n == 0
  {
    if s == [] then 0 else if s[0] == '.' then |s| - 1 else FracLen(s[1..])
  }

  function Pow10(n: nat): (p: nat)
    ensures p >= 1
  {
    if n == 0 then 1 else 10 * Pow10(n - 1)
  }

  function DigitValue(c: char): (d: nat)
    requires IsDigit(c)
    ensures d < 10
  {
    c as int - '0' as int
  }

  function DigitChar(d: nat): (c: char)
    requires d < 10
    ensures IsDigit(c) && DigitValue(c) == d
  {
    ('0' as int + d) as char
  }

  /** The value of a string of decimal digits, most significant first. */
  function IntVal(ds: string): nat
    requires AllDigits(ds)
  {
    if ds == [] then 0 else 10 * IntVal(ds[..|ds| - 1]) + DigitValue(ds[|ds| - 1])
  }

  /** The decimal representation of `n` without leading zeros. */
  function Digits(n: nat): (ds: string)
    ensures ds != [] && AllDigits(ds)
  {
    if n < 10 then [DigitChar(n)] else Digits(n / 10) + [DigitChar(n % 10)]
  }

  /**
   * A run of digits and dots that Python's `float` accepts: at most one dot
   * and at least one digit ("35", "3.5", ".5" and "35." all qualify;
   * "." and "1.2.3" make `float` raise ValueError).
   */
  predicate FloatLiteral(run: string)
  {
    DotCount(run) <= 1 && DotCount(run) < |run|
  }

  /** The value `float` gives such a run: its digits scaled by its fraction length. */
  function LiteralValue(run: string): (v: real)
    requires AllNumChars(run) && FloatLiteral(run)
    ensures v >= 0.0
  {
    IntVal(DigitsOnly(run)) as real / Pow10(FracLen(run)) as real
  }

  /** `s or ""`: a missing value reads as the empty string. */
  function TextOf(s: Option<string>): string
  {
    if s.Some? then s.value else ""
  }

  /** `to_float` does not raise on `s`: the run it hands to `float` is a float literal. */
  predicate Parsable(s: Option<string>)
  {
    var run := LeadingRun(TextOf(s));
    run == [] || FloatLiteral(run)
  }

  /**
   * `to_float(s)`: None when the value is missing, empty, or does not start
   * with a digit or a dot; otherwise the value of the leading number.
   */
  function ToFloat(s: Option<string>): (r: Option<real>)
    requires Parsable(s)
    ensures r.None? <==> (s.None? || s.value == [] || !NumChar(s.value[0]))
    ensures r.Some? ==> r.value >= 0.0
    ensures r.Some? ==> r.value == LiteralValue(LeadingRun(s.value))
  {
    var run := LeadingRun(TextOf(s));
    if run == [] then None else Some(LiteralValue(run))
  }

  /** The run ends where the digits and dots end; what follows is never read. */
  lemma {:induction false} LeadingRunStops(run: string, rest: string)
    requires AllNumChars(run)
    requires rest == [] || !NumChar(rest[0])
    ensures LeadingRun(run + rest) == run
  {
    if run != [] {
      assert (run + rest)[1..] == run[1..] + rest;
      LeadingRunStops(run[1..], rest);
    } else {
      assert run + rest == rest;
    }
  }

  /** Trailing unit text such as " mm" does not change what `to_float` returns. */
  lemma TrailingTextIgnored(run: string, rest: string)
    requires AllNumChars(run)
    requires rest == [] || !NumChar(rest[0])
    ensures Parsable(Some(run + rest)) <==> Parsable(Some(run))
    ensures Parsable(Some(run)) ==> ToFloat(Some(run + rest)) == ToFloat(Some(run))
  {
    LeadingRunStops(run, rest);
    LeadingRunStops(run, []);
    assert run + [] == run;
  }

  lemma {:induction false} DigitsHaveNoDot(ds: string)
    requires AllDigits(ds)
    ensures DotCount(ds) == 0 && FracLen(ds) == 0 && DigitsOnly(ds) == ds
  {
    if ds != [] {
      DigitsHaveNoDot(ds[1..]);
      assert ds == [ds[0]] + ds[1..];
    }
  }

  lemma {:induction false} IntValOfDigits(n: nat)
    ensures IntVal(Digits(n)) == n
  {
    if n >= 10 {
      var ds := Digits(n);
      assert ds[..|ds| - 1] == Digits(n / 10);
      IntValOfDigits(n / 10);
    }
  }

  /**
   * Parsing inverts printing: the decimal digits of a whole number of
   * millimetres, followed by any text that does not start with a digit or a
   * dot, parse back to that number.
   */
  lemma ToFloatOfDigits(n: nat, rest: string)
    requires rest == [] || !NumChar(rest[0])
    ensures Parsable(Some(Digits(n) + rest))
    ensures ToFloat(Some(Digits(n) + rest)) == Some(n as real)
  {
    var ds := Digits(n);
    LeadingRunStops(ds, rest);
    DigitsHaveNoDot(ds);
    IntValOfDigits(n);
  }

  lemma {:induction false} DotCountAppend(a: string, b: string)
    ensures DotCount(a + b) == DotCount(a) + DotCount(b)
  {
    if a != [] {
      assert (a + b)[1..] == a[1..] + b;
      DotCountAppend(a[1..], b);
    } else {
      assert a + b == b;
    }
  }

  /** Removing the dots of a concatenation removes them from each part. */
  lemma {:induction false} DigitsOnlyAppend(a: string, b: string)
    requires AllNumChars(a) && AllNumChars(b)
    ensures AllNumChars(a + b)
    ensures DigitsOnly(a + b) == DigitsOnly(a) + DigitsOnly(b)
  {
    if a != [] {
      assert (a + b)[1..] == a[1..] + b;
      DigitsOnlyAppend(a[1..], b);
    } else {
      assert a + b == b;
    }
  }

  /** After a dot-free integer part, the fraction is everything past the dot. */
  lemma {:induction false} FracLenAfterDot(a: string, f: string)
    requires DotCount(a) == 0
    ensures FracLen(a + "." + f) == |f|
  {
    if a != [] {
      assert (a + "." + f)[1..] == a[1..] + "." + f;
      FracLenAfterDot(a[1..], f);
    } else {
      assert a + "." + f == "." + f;
    }
  }

  /** Appending digits shifts the value left by that many decimal places. */
  lemma {:induction false} IntValAppend(a: string, b: string)
    requires AllDigits(a) && AllDigits(b)
    ensures AllDigits(a + b)
    ensures IntVal(a + b) == IntVal(a) * Pow10(|b|) + IntVal(b)
    decreases |b|
  {
    if b == [] {
      assert a + b == a;
    } else {
      var ab, init := a + b, b[..|b| - 1];
      var d := DigitValue(b[|b| - 1]);
      assert ab[..|ab| - 1] == a + init;
      assert ab[|ab| - 1] == b[|b| - 1];
      IntValAppend(a, init);
      assert IntVal(ab) == 10 * IntVal(a + init) + d;
      assert IntVal(b) == 10 * IntVal(init) + d;
      ShiftDigit(IntVal(a), IntVal(init), Pow10(|init|), d);
    }
  }

  lemma ShiftDigit(x: nat, r: nat, q: nat, d: nat)
    ensures 10 * (x * q + r) + d == x * (10 * q) + (10 * r + d)
  {
  }

  /**
   * The value of a decimal literal with one dot, as `float` reads it: the
   * integer part plus the fraction digits divided by ten to their number
   * ("34.5" is 34 + 5/10, ".5" is 5/10, "35." is 35).
   */
  lemma LiteralValueOfDecimal(a: string, f: string)
    requires AllDigits(a) && AllDigits(f) && |a| + |f| >= 1
    ensures AllNumChars(a + "." + f) && FloatLiteral(a + "." + f)
    ensures LiteralValue(a + "." + f) == IntVal(a) as real + IntVal(f) as real / Pow10(|f|) as real
  {
    DecimalParts(a, f);
    IntValAppend(a, f);
    ShiftedValue(IntVal(a + f), IntVal(a), IntVal(f), Pow10(|f|));
  }

  /** The digits, dot count and fraction length of `a + "." + f`. */
  lemma DecimalParts(a: string, f: string)
    requires AllDigits(a) && AllDigits(f)
    ensures AllNumChars(a + "." + f)
    ensures DotCount(a + "." + f) == 1 && FracLen(a + "." + f) == |f|
    ensures DigitsOnly(a + "." + f) == a + f
  {
    DigitsHaveNoDot(a);
    DecimalDigits(a, f);
    DecimalDots(a, f);
    FracLenAfterDot(a, f);
  }

  lemma DecimalDigits(a: string, f: string)
    requires AllDigits(a) && AllDigits(f)
    ensures AllNumChars(a + "." + f)
    ensures DigitsOnly(a + "." + f) == a + f
  {
    var ad := a + ".";
    DigitsHaveNoDot(a);
    DigitsHaveNoDot(f);
    assert DigitsOnly(".") == [];
    DigitsOnlyAppend(a, ".");
    assert DigitsOnly(ad) == a;
    DigitsOnlyAppend(ad, f);
  }

  lemma DecimalDots(a: string, f: string)
    requires AllDigits(a) && AllDigits(f)
    ensures DotCount(a + "." + f) == 1
  {
    DigitsHaveNoDot(a);
    DigitsHaveNoDot(f);
    assert DotCount(".") == 1;
    DotCountAppend(a, ".");
    DotCountAppend(a + ".", f);
  }

  lemma ShiftedValue(v: nat, x: nat, y: nat, p: nat)
    requires p >= 1 && v == x * p + y
    ensures v as real / p as real == x as real + y as real / p as real
  {
    assert v as real == x as real * p as real + y as real;
  }

  /**
   * Parsing inverts printing for decimal lengths such as "34.5 mm": the digits
   * of n, a dot and fraction digits, followed by non-numeric text, parse to
   * n plus the fraction.
   */
  lemma ToFloatOfDecimal(n: nat, f: string, rest: string)
    requires AllDigits(f)
    requires rest == [] || !NumChar(rest[0])
    ensures Parsable(Some(Digits(n) + "." + f + rest))
    ensures ToFloat(Some(Digits(n) + "." + f + rest)) == Some(n as real + IntVal(f) as real / Pow10(|f|) as real)
  {
    DecimalValue(n, f);
    ToFloatOfRun(Digits(n) + "." + f, rest, n as real + IntVal(f) as real / Pow10(|f|) as real);
  }

  /** A float literal followed by non-numeric text parses to the literal's value. */
  lemma ToFloatOfRun(run: string, rest: string, v: real)
    requires AllNumChars(run) && run != [] && FloatLiteral(run) && LiteralValue(run) == v
    requires rest == [] || !NumChar(rest[0])
    ensures Parsable(Some(run + rest)) && ToFloat(Some(run + rest)) == Some(v)
  {
    LeadingRunStops(run, rest);
  }

  /** The value of the number matched in a decimal length. */
  lemma DecimalValue(n: nat, f: string)
    requires AllDigits(f)
    ensures AllNumChars(Digits(n) + "." + f) && FloatLiteral(Digits(n) + "." + f)
    ensures LiteralValue(Digits(n) + "." + f) == n as real + IntVal(f) as real / Pow10(|f|) as real
  {
    LiteralValueOfDecimal(Digits(n), f);
    IntValOfDigits(n);
  }

  /** Decimal example: "23.0 mm" gives 23.0. */
  lemma ToFloatDecimalExample()
    ensures Parsable(Some("23.0 mm")) && ToFloat(Some("23.0 mm")) == Some(23.0)
  {
    assert Digits(23) == "23";
    assert IntVal("0") == 0 && Pow10(|"0"|) == 10;
    assert "23.0 mm" == Digits(23) + "." + "0" + " mm";
    ToFloatOfDecimal(23, "0", " mm");
    assert 23 as real + 0 as real / 10 as real == 23.0;
  }

  /** Decimal example: "34.5 mm" gives 34.5. */
  lemma ToFloatHalfExample()
    ensures Parsable(Some("34.5 mm")) && ToFloat(Some("34.5 mm")) == Some(34.5)
  {
    assert Digits(34) == "34";
    assert IntVal("5") == 5 && Pow10(|"5"|) == 10;
    assert "34.5 mm" == Digits(34) + "." + "5" + " mm";
    ToFloatOfDecimal(34, "5", " mm");
    assert 34 as real + 5 as real / 10 as real == 34.5;
  }

  /** The documented example: "35 mm" gives 35.0. */
  lemma ToFloatExample()
    ensures Parsable(Some("35 mm")) && ToFloat(Some("35 mm")) == Some(35.0)
  {
    assert Digits(35) == "35";
    assert "35 mm" == Digits(35) + " mm";
    ToFloatOfDigits(35, " mm");
  }

  /**
   * Python's `round(x)` on a float: the nearest integer, and of two equally
   * near integers the even one.
   */
  function Round(x: real): (n: int)
    ensures -0.5 <= n as real - x <= 0.5
    ensures (n as real - x == 0.5 || x - n as real == 0.5) ==> n % 2 == 0
  {
    var f := x.Floor;
    var d := x - f as real;
    if d < 0.5 then f
    else if d > 0.5 then f + 1
    else if f % 2 == 0 then f
    else f + 1
  }

  /** Halves round to even: 34.5 rounds down to 34 and 35.5 rounds up to 36. */
  lemma RoundHalfEven()
    ensures Round(34.5) == 34 && Round(35.5) == 36
  {
    assert (34.5).Floor == 34;
    assert (35.5).Floor == 35;
  }
}
