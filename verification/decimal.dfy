/**
 * Decimal integers as text: Python's `str(n)` for an `int`, and the literal
 * grammar `int(token)` accepts (an optional sign, then digits that single
 * underscores may separate), plus the 64-bit range a pandas `astype(int)`
 * column holds.
 */
module Decimal {
  import opened Wrappers

  predicate IsDigit(c: char) {
    '0' <= c <= '9'
  }

  function DigitChar(d: nat): (c: char)
    requires d < 10
    ensures IsDigit(c) && (c as int) - ('0' as int) == d
  {
    (('0' as int) + d) as char
  }

  /** Decimal digits of a natural number, most significant first, no leading zero. */
  function NatToString(n: nat): (s: string)
    ensures |s| > 0
    ensures forall i :: 0 <= i < |s| ==> IsDigit(s[i])
    ensures s[0] == '0' ==> n == 0
  {
    if n < 10 then [DigitChar(n)] else NatToString(n / 10) + [DigitChar(n % 10)]
  }

  /** `str(n)` for a Python `int`. */
  function FormatInt(n: int): (s: string)
    ensures |s| > 0
    ensures forall i :: 0 <= i < |s| ==> IsDigit(s[i]) || (i == 0 && s[i] == '-')
    ensures (s[0] == '-') <==> n < 0
    ensures n == 0 ==> s == "0"
    ensures n > 0 ==> s[0] != '0'
    ensures n < 0 ==> |s| > 1 && s[1] != '0'
  {
    if n < 0 then "-" + NatToString(-n) else NatToString(n)
  }

  /** The digit part of a Python integer literal: `digit ("_"? digit)*`. */
  predicate IsDigitRun(s: string) {
    && |s| > 0
    && IsDigit(s[0])
    && IsDigit(s[|s| - 1])
    && (forall i :: 0 <= i < |s| ==> IsDigit(s[i]) || s[i] == '_')
    && (forall i :: 0 <= i < |s| - 1 ==> IsDigit(s[i]) || IsDigit(s[i + 1]))
  }

  /** Value of a digit run, underscores ignored. */
  function DigitsValue(s: string): nat
  {
    if |s| == 0 then 0
    else
      var last := s[|s| - 1];
      var init := DigitsValue(s[..|s| - 1]);
      if IsDigit(last) then init * 10 + ((last as int) - ('0' as int)) else init
  }

  /**
   * `int(token)` on a token that holds no whitespace: `None` stands for the
   * `ValueError` Python raises on anything that is not an integer literal.
   * A literal is a digit run, or one sign followed by a digit run.
   */
  function ParseDecimal(t: string): (r: Option<int>)
    ensures IsDigitRun(t) ==> r == Some(DigitsValue(t))
    ensures |t| > 0 && t[0] == '+' && IsDigitRun(t[1..]) ==> r == Some(DigitsValue(t[1..]))
    ensures |t| > 0 && t[0] == '-' && IsDigitRun(t[1..]) ==> r == Some(-(DigitsValue(t[1..]) as int))
    ensures r.Some? ==> |t| > 0
    ensures r.Some? && (t[0] == '-' || t[0] == '+') ==> IsDigitRun(t[1..])
    ensures r.Some? && t[0] != '-' && t[0] != '+' ==> IsDigitRun(t)
  {
    if |t| > 0 && (t[0] == '-' || t[0] == '+') then
      if IsDigitRun(t[1..]) then
        var magnitude: int := DigitsValue(t[1..]);
        Some(if t[0] == '-' then -magnitude else magnitude)
      else None
    else if IsDigitRun(t) then Some(DigitsValue(t))
    else None
  }

  const Int64Min: int := -0x8000_0000_0000_0000
  const Int64Max: int := 0x7FFF_FFFF_FFFF_FFFF

  /**
   * One cell of `column.astype(int)`: the literal must parse and fit the
   * 64-bit integer column, otherwise the conversion raises.
   */
  function ToInt64(t: string): (r: Option<int>)
    ensures IsDigitRun(t) ==>
      r == (if DigitsValue(t) <= Int64Max then Some(DigitsValue(t)) else None)
    ensures |t| > 0 && t[0] == '+' && IsDigitRun(t[1..]) ==>
      r == (if DigitsValue(t[1..]) <= Int64Max then Some(DigitsValue(t[1..])) else None)
    ensures |t| > 0 && t[0] == '-' && IsDigitRun(t[1..]) ==>
      r == (if DigitsValue(t[1..]) <= -Int64Min then Some(-(DigitsValue(t[1..]) as int)) else None)
    ensures !IsDigitRun(t) && !(|t| > 0 && (t[0] == '-' || t[0] == '+') && IsDigitRun(t[1..])) ==>
      r == None
    ensures r.Some? ==> Int64Min <= r.value <= Int64Max
  {
    match ParseDecimal(t)
    case Some(v) => if Int64Min <= v <= Int64Max then Some(v) else None
    case None => None
  }

  /** A leading zero does not change the value of a digit run. */
  lemma {:induction false} DigitsValueLeadingZero(s: string)
    ensures DigitsValue("0" + s) == DigitsValue(s)
  {
    if |s| > 0 {
      var z := "0" + s;
      assert z[..|z| - 1] == "0" + s[..|s| - 1];
      DigitsValueLeadingZero(s[..|s| - 1]);
    }
  }

  /** An underscore between digits does not change the value of a digit run. */
  lemma {:induction false} DigitsValueUnderscore(a: string, b: string)
    ensures DigitsValue(a + "_" + b) == DigitsValue(a + b)
  {
    if |b| == 0 {
      assert (a + "_" + b)[..|a| + 1 - 1] == a;
      assert a + b == a;
    } else {
      var u := a + "_" + b;
      var v := a + b;
      assert u[..|u| - 1] == a + "_" + b[..|b| - 1];
      assert v[..|v| - 1] == a + b[..|b| - 1];
      DigitsValueUnderscore(a, b[..|b| - 1]);
    }
  }

  lemma {:induction false} DigitsValueOfNat(n: nat)
    ensures DigitsValue(NatToString(n)) == n
  {
    var s := NatToString(n);
    if n >= 10 {
      DigitsValueOfNat(n / 10);
      assert s[..|s| - 1] == NatToString(n / 10);
    }
  }

  /** `int(str(n)) == n`: every integer survives a trip through its text. */
  lemma {:induction false} ParseFormat(n: int)
    ensures ParseDecimal(FormatInt(n)) == Some(n)
  {
    var m: nat := if n < 0 then -n else n;
    DigitsValueOfNat(m);
    var d := NatToString(m);
    assert IsDigitRun(d);
    if n < 0 {
      assert FormatInt(n)[1..] == d;
    }
  }

  /** A 64-bit value in the column is read back unchanged. */
  lemma {:induction false} ToInt64Format(n: int)
    requires Int64Min <= n <= Int64Max
    ensures ToInt64(FormatInt(n)) == Some(n)
  {
    ParseFormat(n);
  }

  /** A value outside the 64-bit range does not convert from its `str(n)` text. */
  lemma {:induction false} ToInt64OutOfRange(n: int)
    requires n < Int64Min || Int64Max < n
    ensures ToInt64(FormatInt(n)) == None
  {
    ParseFormat(n);
  }

  /**
   * The literal forms `int` accepts beyond `str(n)`: an explicit plus sign,
   * leading zeros and single underscores between digits; a doubled,
   * leading or trailing underscore and a doubled sign are refused.
   */
  lemma LiteralForms()
    ensures ToInt64("+7") == Some(7)
    ensures ToInt64("007") == Some(7)
    ensures ToInt64("1_000") == Some(1000)
    ensures ToInt64("-0") == Some(0)
    ensures ToInt64("1__0") == None
    ensures ToInt64("_1") == None
    ensures ToInt64("1_") == None
    ensures ToInt64("+-1") == None
  {
    assert IsDigitRun("7");
    assert IsDigitRun("007");
    assert IsDigitRun("1_000");
    assert "0" + ("0" + "7") == "007";
    DigitsValueLeadingZero("0" + "7");
    DigitsValueLeadingZero("7");
    assert "1" + "_" + "000" == "1_000";
    DigitsValueUnderscore("1", "000");
    assert ("1" + "000")[..3] == "100" && ("100")[..2] == "10" && ("10")[..1] == "1";
    assert IsDigitRun("0");
    assert !IsDigit('_') && !IsDigit('-') && !IsDigit('+');
    assert ("1__0")[1] == '_' && ("1__0")[2] == '_';
  }
}
