/** The token classifiers of StringParser.kt (isInteger, isDouble, isBoolean,
    String.type()) and the text-to-value conversions the engine applies after them. */
module Classify {
  import opened Types
  import opened Text

  /** Where the digits of an integer text start: after an optional leading '-'. */
  function DigitsStart(s: string): nat
    requires |s| > 0
  {
    if s[0] == '-' then 1 else 0
  }

  /** The texts isInteger accepts: an optional '-' followed by one or more ASCII digits. */
  predicate IsIntegerText(s: string) {
    |s| > 0 && DigitsStart(s) < |s| &&
    forall i :: DigitsStart(s) <= i < |s| ==> IsDigit(s[i])
  }

  /** isInteger: a scan over the characters after the optional sign. */
  method IsInteger(s: string) returns (r: bool)
    ensures r <==> IsIntegerText(s)
  {
    if |s| == 0 {
      return false;
    }
    var i := 0;
    if s[0] == '-' {
      if |s| == 1 {
        return false;
      }
      i := 1;
    }
    while i < |s|
      invariant DigitsStart(s) <= i <= |s|
      invariant forall k :: DigitsStart(s) <= k < i ==> IsDigit(s[k])
    {
      if s[i] < '0' || s[i] > '9' {
        return false;
      }
      i := i + 1;
    }
    return true;
  }

  /** The texts isDouble accepts: non-empty, every character a '.' or an ASCII digit,
      except that the very first one may be '-'. So "-", "." and "1.2.3" pass. */
  predicate IsDoubleText(s: string) {
    |s| > 0 &&
    forall i :: 0 <= i < |s| ==> s[i] == '.' || IsDigit(s[i]) || (i == 0 && s[i] == '-')
  }

  /** isDouble: one pass with the `pass` and `hasNegative` flags; a second '-', or a '-'
      whose first occurrence is not at index 0, ends the scan with false. */
  method IsDouble(s: string) returns (r: bool)
    ensures r <==> IsDoubleText(s)
  {
    if |s| == 0 {
      return false;
    }
    var pass := true;
    var hasNegative := false;
    for i := 0 to |s|
      invariant hasNegative <==> 0 < i && s[0] == '-'
      invariant forall k :: 0 < k < i ==> s[k] != '-'
      invariant pass <==> forall k :: 0 <= k < i && s[k] != '.' && s[k] != '-' ==> IsDigit(s[k])
    {
      var c := s[i];
      if c == '.' {
        continue;
      }
      if !hasNegative && c == '-' && IndexOf(s, c) == 0 {
        hasNegative := true;
        continue;
      } else if (hasNegative && c == '-') || (c == '-' && IndexOf(s, c) != 0) {
        assert !IsDoubleText(s) by { assert i != 0 && s[i] == '-'; }
        return false;
      }
      pass := pass && IsDigit(c);
    }
    return pass;
  }

  /** isBoolean: "true" or "false" in any letter case. */
  predicate IsBoolean(s: string) {
    EqualsIgnoreCase(s, "true") || EqualsIgnoreCase(s, "false")
  }

  /** Every text isInteger accepts, isDouble accepts too. */
  lemma IntegerIsDouble(s: string)
    requires IsIntegerText(s)
    ensures IsDoubleText(s)
  {
  }

  /** String.type(): Boolean first, then Double, then Int, else String. Since every
      integer text is a double text, INT is never the answer, and OPTIONAL never is. */
  function TypeOf(s: string): (r: ArgumentType)
    ensures r == BooleanArg || r == DoubleArg || r == StringArg
    ensures r == BooleanArg <==> IsBoolean(s)
    ensures r == DoubleArg <==> !IsBoolean(s) && IsDoubleText(s)
  {
    if IsBoolean(s) then BooleanArg
    else if IsDoubleText(s) then DoubleArg
    else if IsIntegerText(s) then (IntegerIsDouble(s); IntArg)
    else StringArg
  }

  /** A token marked as a double-quoted run ("str_" prefix) always classifies as STRING. */
  lemma MarkedIsString(s: string)
    requires StartsWith(s, "str_")
    ensures TypeOf(s) == StringArg
  {
    assert s[3] == '_';
    assert !IsDoubleText(s) by { assert !IsDigit(s[3]); }
    assert !EqualsIgnoreCase(s, "true") by {
      if |s| == 4 { assert UpperChar(s[0]) != UpperChar("true"[0]); }
    }
    assert !EqualsIgnoreCase(s, "false") by {
      if |s| == 5 { assert UpperChar(s[0]) != UpperChar("false"[0]); }
    }
  }

  lemma TypeOfExamples()
    ensures TypeOf("5") == DoubleArg
    ensures TypeOf("-") == DoubleArg
    ensures TypeOf("1.2.3") == DoubleArg
    ensures TypeOf("TrUe") == BooleanArg
    ensures TypeOf("1-2") == StringArg
    ensures TypeOf("--1") == StringArg
    ensures TypeOf("") == StringArg
  {
    assert !IsBoolean("1.2.3") by { assert UpperChar("1.2.3"[0]) != UpperChar("false"[0]); }
    assert !IsDoubleText("1-2") by { assert "1-2"[1] == '-'; }
    assert !IsDoubleText("--1") by { assert "--1"[1] == '-'; }
  }

  /** String.toBoolean(): "true" in any letter case. */
  predicate ToBoolean(s: string) {
    EqualsIgnoreCase(s, "true")
  }

  /** A boolean token has four or five letters; it reads as true exactly when it is not
      some casing of "false", so every boolean token yields the value it spells. */
  lemma BooleanTokens(s: string)
    ensures IsBoolean(s) ==> |s| == 4 || |s| == 5
    ensures IsBoolean(s) ==> (ToBoolean(s) <==> !EqualsIgnoreCase(s, "false"))
    ensures ToBoolean(s) ==> IsBoolean(s)
  {
  }

  /** isBoolean ignores letter case and nothing else. */
  lemma BooleanExamples()
    ensures IsBoolean("TRUE") && ToBoolean("TRUE")
    ensures IsBoolean("fAlSe") && !ToBoolean("fAlSe")
    ensures !IsBoolean("yes") && !IsBoolean("1") && !IsBoolean("true ")
  {
    assert UpperChar('f') == UpperChar('F');
    assert UpperChar("true "[0]) != UpperChar("false"[0]);
  }

  predicate AllDigits(ds: string) {
    forall i :: 0 <= i < |ds| ==> IsDigit(ds[i])
  }

  /** The value of a string of decimal digits. */
  function DigitsValue(ds: string): nat
    requires AllDigits(ds)
  {
    if |ds| == 0 then 0
    else DigitsValue(ds[..|ds| - 1]) * 10 + (ds[|ds| - 1] as int - '0' as int)
  }

  function Pow10(n: nat): (r: nat)
    ensures r >= 1
  {
    if n == 0 then 1 else 10 * Pow10(n - 1)
  }

  /** The value an integer text denotes. */
  function IntegerValue(s: string): int
    requires IsIntegerText(s)
  {
    var v: int := DigitsValue(s[DigitsStart(s)..]);
    if s[0] == '-' then -v else v
  }

  const MinInt: int := -0x8000_0000
  const MaxInt: int := 0x7FFF_FFFF

  /** String.toInt() on a text isInteger accepted: its value when that fits in 32 bits,
      otherwise a NumberFormatException. */
  function ToInt(s: string): (r: Result<int, Fault>)
    requires IsIntegerText(s)
    ensures r.Ok? <==> MinInt <= IntegerValue(s) <= MaxInt
    ensures r.Ok? ==> r.value == IntegerValue(s)
    ensures r.Err? ==> r.error == NumberFormat(s)
  {
    var v := IntegerValue(s);
    if MinInt <= v <= MaxInt then Ok(v) else Err(NumberFormat(s))
  }

  /** A text isDouble accepted that Double.parseDouble also accepts: at least one digit
      and at most one '.'. */
  predicate ParsesAsDouble(s: string) {
    (exists i :: 0 <= i < |s| && IsDigit(s[i])) &&
    forall i, j :: 0 <= i < j < |s| && s[i] == '.' ==> s[j] != '.'
  }

  /** A double text without its leading '-'. */
  function Unsigned(s: string): (body: string)
    requires IsDoubleText(s)
    ensures forall i :: 0 <= i < |body| && body[i] != '.' ==> IsDigit(body[i])
  {
    if s[0] == '-' then
      assert forall i :: 0 <= i < |s| - 1 ==> s[1..][i] == s[i + 1];
      s[1..]
    else s
  }

  /** The digits before the first '.' followed by the digits after it. */
  lemma WholeFracDigits(body: string, k: int)
    requires forall i :: 0 <= i < |body| && body[i] != '.' ==> IsDigit(body[i])
    requires k == IndexOf(body, '.')
    ensures AllDigits((if k < 0 then body else body[..k]) + (if k < 0 then "" else RemoveChar(body[k + 1..], '.')))
  {
    if k < 0 {
      forall i | 0 <= i < |body| ensures IsDigit(body[i]) {
        assert body[i] in body;
      }
      assert body + "" == body;
    } else {
      var whole := body[..k];
      var frac := RemoveChar(body[k + 1..], '.');
      RemoveKeepsDigits(body[k + 1..]);
      assert AllDigits(whole) by {
        forall i | 0 <= i < k ensures IsDigit(whole[i]) {
          assert whole[i] == body[i];
        }
      }
      forall i | 0 <= i < |whole + frac| ensures IsDigit((whole + frac)[i]) {
        if i < k { assert (whole + frac)[i] == whole[i]; }
        else { assert (whole + frac)[i] == frac[i - k]; }
      }
    }
  }

  /** The exact decimal value of a double text with at most one '.'. */
  function DecimalValue(s: string): real
    requires IsDoubleText(s)
  {
    var body := Unsigned(s);
    var k := IndexOf(body, '.');
    var whole := if k < 0 then body else body[..k];
    var frac := if k < 0 then "" else RemoveChar(body[k + 1..], '.');
    WholeFracDigits(body, k);
    var v := (DigitsValue(whole + frac) as real) / (Pow10(|frac|) as real);
    if s[0] == '-' then -v else v
  }

  lemma {:induction false} RemoveKeepsDigits(t: string)
    requires forall i :: 0 <= i < |t| && t[i] != '.' ==> IsDigit(t[i])
    ensures AllDigits(RemoveChar(t, '.'))
  {
    if |t| > 0 {
      RemoveKeepsDigits(t[1..]);
    }
  }

  /** String.toDouble() on a text isDouble accepted: its value, or a NumberFormatException
      for "-", ".", "1.2.3" and every other text without a digit or with a second '.'.
      The value is the exact decimal; rounding to the nearest double is not modelled. */
  function ToDouble(s: string): (r: Result<real, Fault>)
    requires IsDoubleText(s)
    ensures r.Ok? <==> ParsesAsDouble(s)
    ensures r.Ok? ==> r.value == DecimalValue(s)
    ensures r.Err? ==> r.error == NumberFormat(s)
  {
    if ParsesAsDouble(s) then Ok(DecimalValue(s)) else Err(NumberFormat(s))
  }

  /** "-" passes isDouble and classifies as DOUBLE, yet converting it fails. */
  lemma LoneMinusFailsConversion()
    ensures IsDoubleText("-") && ToDouble("-") == Err(NumberFormat("-"))
  {
  }

  /** On an integer text, toDouble agrees with toInt's value. */
  lemma IntegerToDouble(s: string)
    requires IsIntegerText(s)
    ensures ToDouble(s) == Ok(IntegerValue(s) as real)
  {
    var body := if s[0] == '-' then s[1..] else s;
    assert body == s[DigitsStart(s)..];
    assert '.' !in body by {
      forall i | 0 <= i < |body| ensures body[i] != '.' {
        assert body[i] == s[i + DigitsStart(s)];
      }
    }
    assert body + "" == body;
    assert ParsesAsDouble(s) by {
      assert IsDigit(s[DigitsStart(s)]);
    }
  }
}
