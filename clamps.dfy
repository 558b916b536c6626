/** strEscape, strClamp, doubleClamp and intClamp of StringParser.kt. */
module Clamps {
  import opened Types
  import opened Text

  const StrPrefix := "str_"

  /** strEscape: drops the "str_" marker a double-quoted token carries. */
  function StrEscape(s: string): (r: string)
    ensures StartsWith(s, StrPrefix) ==> StrPrefix + r == s
    ensures !StartsWith(s, StrPrefix) ==> r == s
  {
    if StartsWith(s, StrPrefix) then s[4..] else s
  }

  /** Marking and escaping are inverse: strEscape undoes the tokenizer's "str_" prefix. */
  lemma EscapeUndoesMark(x: string)
    ensures StrEscape(StrPrefix + x) == x
  {
    assert (StrPrefix + x)[..4] == StrPrefix;
  }

  /** strClamp: a required clamp rejects a length outside [min, max]; otherwise a string
      longer than max is cut to its first max characters and a shorter one is kept as it is.
      Cutting at a negative max fails inside the JVM. */
  function StrClamp(s: string, c: StringClamp): (r: Result<string, Fault>)
    ensures c.required && (|s| < c.min || |s| > c.max) ==> r == Err(StringClampViolation(c, s))
    ensures (!c.required || c.min <= |s| <= c.max) && 0 <= c.max ==>
              r.Ok? && r.value == s[..if |s| <= c.max then |s| else c.max]
    ensures r.Ok? ==> r.value <= s && |r.value| <= |s|
    ensures c.min <= |s| <= c.max ==> r == Ok(s)
    ensures !c.required && c.max < 0 ==> r == Err(RangeFault(c.max, |s|))
  {
    if (|s| > c.max || |s| < c.min) && c.required then Err(StringClampViolation(c, s))
    else if |s| > c.max then (if c.max < 0 then Err(RangeFault(c.max, |s|)) else Ok(s[..c.max]))
    else Ok(s)
  }

  /** The outcome of doubleClamp: an error for a required clamp the value falls outside of,
      otherwise the value saturated at the nearer bound. */
  function DoubleClampOf(x: real, c: DigitClamp): (r: Result<real, Fault>)
    ensures r.Err? <==> c.required && (x < c.min || x > c.max)
    ensures r.Err? ==> r.error == DigitClampViolation(c, DoubleNumber(x))
    ensures r.Ok? && c.min <= c.max ==> c.min <= r.value <= c.max
    ensures c.min <= x <= c.max ==> r == Ok(x)
    ensures r.Ok? && x < c.min ==> r.value == c.min
    ensures r.Ok? && c.min <= x && c.max < x ==> r.value == c.max
  {
    if (x > c.max || x < c.min) && c.required then Err(DigitClampViolation(c, DoubleNumber(x)))
    else if x < c.min then Ok(c.min)
    else if x > c.max then Ok(c.max)
    else Ok(x)
  }

  /** doubleClamp, which reassigns its local `nnum`. */
  method DoubleClamp(num: real, c: DigitClamp) returns (r: Result<real, Fault>)
    ensures r == DoubleClampOf(num, c)
  {
    var nnum := num;
    if (nnum > c.max || nnum < c.min) && c.required {
      return Err(DigitClampViolation(c, DoubleNumber(num)));
    }
    if nnum < c.min {
      nnum := c.min;
    } else if nnum > c.max {
      nnum := c.max;
    }
    return Ok(nnum);
  }

  /** Long.toInt(): keeps the low 32 bits, as a signed value. */
  function Wrap32(n: int): (r: int)
    ensures -0x8000_0000 <= r < 0x8000_0000
    ensures -0x8000_0000 <= n < 0x8000_0000 ==> r == n
    ensures (r - n) % 0x1_0000_0000 == 0
  {
    (n + 0x8000_0000) % 0x1_0000_0000 - 0x8000_0000
  }

  /** Math.round(x).toInt(): floor(x + 1/2), then narrowed to 32 bits. */
  function RoundToInt(x: real): (r: int)
    ensures -0x8000_0000 <= r < 0x8000_0000
    ensures -0x8000_0000 <= (x + 0.5).Floor < 0x8000_0000 ==> r as real - 0.5 <= x < r as real + 0.5
    ensures (r - (x + 0.5).Floor) % 0x1_0000_0000 == 0
  {
    Wrap32((x + 0.5).Floor)
  }

  /** A bound of 1e10 is outside the Int range: it rounds to 10000000000, whose low
      32 bits are 1410065408. */
  lemma RoundWrapsExample()
    ensures RoundToInt(10_000_000_000.0) == 1410065408
  {
    assert (10_000_000_000.0 + 0.5).Floor == 10_000_000_000;
  }

  /** The outcome of intClamp: like DoubleClampOf on the bounds rounded to integers. */
  function IntClampOf(n: int, c: DigitClamp): (r: Result<int, Fault>)
    ensures var lo, hi := RoundToInt(c.min), RoundToInt(c.max);
      && (r.Err? <==> c.required && (n < lo || n > hi))
      && (r.Err? ==> r.error == DigitClampViolation(c, IntNumber(n)))
      && (r.Ok? && lo <= hi ==> lo <= r.value <= hi)
      && (lo <= n <= hi ==> r == Ok(n))
      && (r.Ok? && n < lo ==> r.value == lo)
      && (r.Ok? && lo <= n && hi < n ==> r.value == hi)
  {
    var hi := RoundToInt(c.max);
    var lo := RoundToInt(c.min);
    if (n > hi || n < lo) && c.required then Err(DigitClampViolation(c, IntNumber(n)))
    else if n < lo then Ok(lo)
    else if n > hi then Ok(hi)
    else Ok(n)
  }

  /** intClamp, which reassigns its local `nnum`. */
  method IntClamp(num: int, c: DigitClamp) returns (r: Result<int, Fault>)
    ensures r == IntClampOf(num, c)
  {
    var nnum := num;
    var max := RoundToInt(c.max);
    var min := RoundToInt(c.min);
    if (nnum > max || nnum < min) && c.required {
      return Err(DigitClampViolation(c, IntNumber(num)));
    }
    if nnum < min {
      nnum := min;
    } else if nnum > max {
      nnum := max;
    }
    return Ok(nnum);
  }

  /** A StringClamp(required = true, min = 2, max = 4) rejects "a" and "abcdef";
      with required = false, "abcdef" is cut to "abcd" and "a" is kept. */
  lemma StringClampExamples()
    ensures StrClamp("a", StringClamp(true, 2, 4)).Err?
    ensures StrClamp("abcdef", StringClamp(true, 2, 4)).Err?
    ensures StrClamp("abcdef", StringClamp(false, 2, 4)) == Ok("abcd")
    ensures StrClamp("a", StringClamp(false, 2, 4)) == Ok("a")
  {
    assert "abcdef"[..4] == "abcd";
  }

  /** The default DigitClamp saturates 15 to 10 and never fails. */
  lemma DefaultDigitClampSaturates()
    ensures DoubleClampOf(15.0, DefaultDigitClamp) == Ok(10.0)
    ensures IntClampOf(15, DefaultDigitClamp) == Ok(10)
    ensures forall x :: DoubleClampOf(x, DefaultDigitClamp).Ok?
  {
    assert RoundToInt(10.0) == 10;
    assert RoundToInt(0.0) == 0;
  }
}
