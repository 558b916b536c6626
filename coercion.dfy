/** The arity check and the per-parameter coercion of parseArguments: each argument token
    after the command word becomes a tagged value of its parameter's type, or the call
    reports a mismatch, or it fails with the exception the source throws. */
module Coercion {
  import opened Types
  import opened Text
  import opened Utility
  import opened Classify
  import opened Clamps
  import opened Tokenizer

  /** withoutOptionals(): the parameters whose type is not Optional, in order. */
  function WithoutOptionals(ps: seq<Param>): (r: seq<Param>)
    ensures |r| + OptionalCount(ps) == |ps|
    ensures forall p :: p in r <==> p in ps && p.ty.Plain?
  {
    if |ps| == 0 then []
    else (if ps[0].ty.Opt? then [] else [ps[0]]) + WithoutOptionals(ps[1..])
  }

  /** generateArgumentTypes(): each token paired with its classification. */
  function GenerateArgumentTypes(args: seq<string>): (r: seq<(string, ArgumentType)>)
    ensures |r| == |args|
    ensures forall k :: 0 <= k < |args| ==> r[k].0 == args[k] && r[k].1 == TypeOf(args[k])
  {
    seq(|args|, k requires 0 <= k < |args| => (args[k], TypeOf(args[k])))
  }

  /** Kotlin's rendering of Pair(a, b). */
  function PairText(a: string, b: string): string {
    "(" + a + ", " + b + ")"
  }

  /** Kotlin's rendering of a list whose elements render as `items`. */
  function ListText(items: seq<string>): string {
    "[" + Join(items, ", ") + "]"
  }

  /** The list of (token, type) pairs in a mismatch report; the form with optionals
      shows each token with its "str_" marker removed. */
  function RequestedText(args: seq<string>, escape: bool): string {
    var types := GenerateArgumentTypes(args);
    ListText(seq(|types|, k requires 0 <= k < |types| =>
      PairText(if escape then StrEscape(types[k].0) else types[k].0, SentenceForm(Name(types[k].1)))))
  }

  const MismatchHead := "[a|m]: "

  /** The second component parseArguments returns on an arity mismatch. */
  function MismatchMessage(args: seq<string>, withOptionals: bool): (m: string)
    ensures StartsWith(m, MismatchHead)
    ensures withOptionals ==> StartsWith(m, MismatchHead + "*contains optionals* [")
    ensures !withOptionals ==> StartsWith(m, MismatchHead + "[")
  {
    if withOptionals then MismatchHead + "*contains optionals* " + RequestedText(args, true)
    else MismatchHead + RequestedText(args, false)
  }

  /** Applies the optional string clamp. */
  function ClampString(s: string, c: Option<StringClamp>): Result<string, Fault> {
    if c.Some? then StrClamp(s, c.value) else Ok(s)
  }

  /** Applies the optional digit clamp to an Int. */
  function ClampInt(n: int, c: Option<DigitClamp>): Result<int, Fault> {
    if c.Some? then IntClampOf(n, c.value) else Ok(n)
  }

  /** Applies the optional digit clamp to a Double. */
  function ClampDouble(x: real, c: Option<DigitClamp>): Result<real, Fault> {
    if c.Some? then DoubleClampOf(x, c.value) else Ok(x)
  }

  /** The tag of a value for an Optional<k> parameter: the token, then " Optional<k>". */
  function OptionalTag(tok: string, k: Kind): string {
    tok + " Optional<" + KotlinName(k) + ">"
  }

  /** The tag of a value converted to k for a non-optional parameter: the token, then " [k]". */
  function GivenTag(tok: string, k: Kind): string {
    tok + " [" + KotlinName(k) + "]"
  }

  /** The argument for an Optional<k> parameter given token tok: the first alternative
      whose classifier accepts tok and whose k agrees; Strings are unmarked and clamped,
      numbers clamped by the parameter's digit clamp. */
  function CoerceOptional(tok: string, p: Param): (r: Result<Arg, Fault>)
    requires p.ty.Opt?
    ensures r.Ok? ==> r.value.value.Present?
    ensures r.Ok? ==> r.value.tag == OptionalTag(tok, p.ty.kind)
  {
    var k := p.ty.kind;
    if IsBoolean(tok) && k == Bool then
      Ok(Arg(OptionalTag(tok, Bool), Present(BoolVal(ToBoolean(tok)))))
    else if IsDoubleText(tok) && k == Dbl then
      match ToDouble(tok)
      case Err(e) => Err(e)
      case Ok(d) =>
        match ClampDouble(d, p.digitClamp)
        case Err(e) => Err(e)
        case Ok(x) => Ok(Arg(OptionalTag(tok, Dbl), Present(DoubleVal(x))))
    else if IsIntegerText(tok) && k == Int then
      match ToInt(tok)
      case Err(e) => Err(e)
      case Ok(n) =>
        match ClampInt(n, p.digitClamp)
        case Err(e) => Err(e)
        case Ok(m) => Ok(Arg(OptionalTag(tok, Int), Present(IntVal(m))))
    else if k == Str then
      match ClampString(StrEscape(tok), p.stringClamp)
      case Err(e) => Err(e)
      case Ok(s) => Ok(Arg(OptionalTag(tok, Str), Present(StringVal(s))))
    else Err(InvalidParameters(tok, p.ty))
  }

  /** InvalidParametersException is thrown exactly when the token's classifier disagrees
      with the optional's content type; a String content accepts every token. */
  lemma InvalidParametersIff(tok: string, p: Param)
    requires p.ty.Opt?
    ensures CoerceOptional(tok, p) == Err(InvalidParameters(tok, p.ty)) <==>
              match p.ty.kind
              case Bool => !IsBoolean(tok)
              case Dbl => !IsDoubleText(tok)
              case Int => !IsIntegerText(tok)
              case Str => false
  {
  }

  /** A boolean token for Optional<Boolean> and any token for an unclamped Optional<String>
      are always accepted, the latter with its "str_" marker removed. */
  lemma OptionalAccepts(tok: string, p: Param)
    requires p.ty.Opt?
    ensures p.ty.kind == Str && p.stringClamp.None? ==>
              CoerceOptional(tok, p) == Ok(Arg(OptionalTag(tok, Str), Present(StringVal(StrEscape(tok)))))
    ensures p.ty.kind == Bool && IsBoolean(tok) ==>
              CoerceOptional(tok, p) == Ok(Arg(OptionalTag(tok, Bool), Present(BoolVal(ToBoolean(tok)))))
  {
  }

  /** The value of an Optional<Int>, Optional<Double> or Optional<String> argument: the
      token's number (after the Int range check or the Double parse) clamped by the
      parameter's digit clamp, or the unmarked token clamped by its string clamp. */
  lemma OptionalValues(tok: string, p: Param)
    requires p.ty.Opt?
    ensures p.ty.kind == Int && IsIntegerText(tok) ==>
              CoerceOptional(tok, p) ==
                if !(MinInt <= IntegerValue(tok) <= MaxInt) then Err(NumberFormat(tok))
                else match ClampInt(IntegerValue(tok), p.digitClamp)
                     case Ok(n) => Ok(Arg(OptionalTag(tok, Int), Present(IntVal(n))))
                     case Err(e) => Err(e)
    ensures p.ty.kind == Dbl && IsDoubleText(tok) ==>
              CoerceOptional(tok, p) ==
                if !ParsesAsDouble(tok) then Err(NumberFormat(tok))
                else match ClampDouble(DecimalValue(tok), p.digitClamp)
                     case Ok(x) => Ok(Arg(OptionalTag(tok, Dbl), Present(DoubleVal(x))))
                     case Err(e) => Err(e)
    ensures p.ty.kind == Str ==>
              CoerceOptional(tok, p) ==
                match ClampString(StrEscape(tok), p.stringClamp)
                case Ok(s) => Ok(Arg(OptionalTag(tok, Str), Present(StringVal(s))))
                case Err(e) => Err(e)
  {
  }

  /** The digit clamp of an Optional<Int> position: "15" under the default clamp becomes 10. */
  lemma OptionalIntClamped()
    ensures CoerceOptional("15", Param(Opt(Int), Some(DefaultDigitClamp), None)) == Ok(Arg("15 Optional<Int>", Present(IntVal(10))))
  {
    assert IsIntegerText("15") by { assert "15"[0..] == "15"; }
    assert IntegerValue("15") == 15 by {
      assert "15"[0..] == "15";
      assert "15"[..1] == "1" && DigitsValue("1"[..0]) == 0;
    }
    DefaultDigitClampSaturates();
    assert ClampInt(15, Some(DefaultDigitClamp)) == Ok(10);
    assert OptionalTag("15", Int) == "15 Optional<Int>";
  }

  /** The string clamp of an Optional<String> position: a double-quoted "abcdef" clamped to
      at most 4 characters arrives unmarked and cut to "abcd". */
  lemma OptionalStringClamped()
    ensures CoerceOptional("str_abcdef", Param(Opt(Str), None, Some(StringClamp(false, 2, 4)))) ==
              Ok(Arg("str_abcdef Optional<String>", Present(StringVal("abcd"))))
  {
    var p := Param(Opt(Str), None, Some(StringClamp(false, 2, 4)));
    assert StrPrefix + "abcdef" == "str_abcdef";
    EscapeUndoesMark("abcdef");
    StringClampExamples();
    assert ClampString(StrEscape("str_abcdef"), p.stringClamp) == Ok("abcd");
    assert OptionalTag("str_abcdef", Str) == "str_abcdef Optional<String>";
    OptionalValues("str_abcdef", p);
  }

  /** The argument for a non-optional parameter: Boolean if tok is a boolean, else Double
      if it is a double text and the parameter is not Int, else Int if it is an integer
      text, else String. Only in the branch with optionals (`escape`) is a String unmarked
      and clamped; no digit clamp applies here. */
  function CoerceGiven(tok: string, p: Param, escape: bool): (r: Result<Arg, Fault>)
    ensures r.Ok? ==> r.value.value.Given?
    ensures r.Err? ==> r.error.NumberFormat? || (escape && p.stringClamp.Some? && (r.error.StringClampViolation? || r.error.RangeFault?))
    ensures IsBoolean(tok) ==> r == Ok(Arg(GivenTag(tok, Bool), Given(BoolVal(ToBoolean(tok)))))
  {
    if IsBoolean(tok) then
      Ok(Arg(GivenTag(tok, Bool), Given(BoolVal(ToBoolean(tok)))))
    else if IsDoubleText(tok) && p.ty != Plain(Int) then
      match ToDouble(tok)
      case Err(e) => Err(e)
      case Ok(d) => Ok(Arg(GivenTag(tok, Dbl), Given(DoubleVal(d))))
    else if IsIntegerText(tok) then
      match ToInt(tok)
      case Err(e) => Err(e)
      case Ok(n) => Ok(Arg(GivenTag(tok, Int), Given(IntVal(n))))
    else if escape then
      match ClampString(StrEscape(tok), p.stringClamp)
      case Err(e) => Err(e)
      case Ok(s) => Ok(Arg(GivenTag(tok, Str), Given(StringVal(s))))
    else
      Ok(Arg(GivenTag(tok, Str), Given(StringVal(tok))))
  }

  /** The value of an argument for a non-optional parameter: "Double unless Int" -- a
      double text for any parameter but an Int one is parsed as a Double; an Int parameter
      takes an integer text in the Int range; any other non-boolean token is a String, which
      only the branch with optionals unmarks and string-clamps. */
  lemma GivenValues(tok: string, p: Param, escape: bool)
    ensures !IsBoolean(tok) && IsDoubleText(tok) && p.ty != Plain(Int) ==>
              CoerceGiven(tok, p, escape) ==
                if ParsesAsDouble(tok) then Ok(Arg(GivenTag(tok, Dbl), Given(DoubleVal(DecimalValue(tok)))))
                else Err(NumberFormat(tok))
    ensures p.ty == Plain(Int) && IsIntegerText(tok) ==>
              CoerceGiven(tok, p, escape) ==
                if MinInt <= IntegerValue(tok) <= MaxInt then Ok(Arg(GivenTag(tok, Int), Given(IntVal(IntegerValue(tok)))))
                else Err(NumberFormat(tok))
    ensures !IsBoolean(tok) && (if p.ty == Plain(Int) then !IsIntegerText(tok) else !IsDoubleText(tok)) ==>
              CoerceGiven(tok, p, escape) ==
                if !escape then Ok(Arg(GivenTag(tok, Str), Given(StringVal(tok))))
                else match ClampString(StrEscape(tok), p.stringClamp)
                     case Ok(s) => Ok(Arg(GivenTag(tok, Str), Given(StringVal(s))))
                     case Err(e) => Err(e)
  {
  }

  /** Outside Optional positions the digit clamp is never consulted, and without optional
      parameters the string clamp is not either. */
  lemma GivenIgnoresClamps(tok: string, p: Param, d: Option<DigitClamp>, c: Option<StringClamp>, escape: bool)
    ensures CoerceGiven(tok, p.(digitClamp := d), escape) == CoerceGiven(tok, p, escape)
    ensures CoerceGiven(tok, p.(stringClamp := c), false) == CoerceGiven(tok, p, false)
  {
  }

  /** The classification, not the parameter's type, picks the value: "5" for a String
      parameter is the Double 5.0. */
  lemma GivenDoubleForString()
    ensures CoerceGiven("5", Param(Plain(Str), None, None), false) == Ok(Arg("5 [Double]", Given(DoubleVal(5.0))))
  {
    assert IsIntegerText("5") by { assert "5"[0..] == "5"; }
    assert IntegerValue("5") == 5 by { assert DigitsValue("5"[..0]) == 0; assert "5"[0..] == "5"; }
    IntegerToDouble("5");
    assert !IsBoolean("5");
    assert GivenTag("5", Dbl) == "5 [Double]";
  }

  /** "1.5" for an Int parameter is not an integer text, so it is passed on as the String "1.5". */
  lemma GivenStringForInt()
    ensures CoerceGiven("1.5", Param(Plain(Int), None, None), false) == Ok(Arg("1.5 [String]", Given(StringVal("1.5"))))
  {
    assert !IsIntegerText("1.5") by { assert "1.5"[0..] == "1.5"; assert !IsDigit("1.5"[1]); }
    assert !IsBoolean("1.5");
    assert GivenTag("1.5", Str) == "1.5 [String]";
  }

  /** "-" is a double text, so for a String parameter it fails the Double conversion. */
  lemma GivenLoneMinusFails()
    ensures CoerceGiven("-", Param(Plain(Str), None, None), true) == Err(NumberFormat("-"))
  {
    assert !IsBoolean("-");
    LoneMinusFailsConversion();
  }

  /** The argument for parameter p at position i. With optionals, a parameter past the
      last token is Optional.empty() when it is optional, and an index fault otherwise. */
  function CoerceAt(args: seq<string>, p: Param, i: nat, withOptionals: bool): (r: Result<Arg, Fault>)
    ensures i >= |args| && p.ty.Opt? && withOptionals ==> r == Ok(Arg("Optional<>", Empty))
    ensures i >= |args| && (p.ty.Plain? || !withOptionals) ==> r == Err(RangeFault(i, |args|))
  {
    if i >= |args| then (if p.ty.Opt? && withOptionals then Ok(Arg("Optional<>", Empty)) else Err(RangeFault(i, |args|)))
    else if withOptionals then (if p.ty.Opt? then CoerceOptional(args[i], p) else CoerceGiven(args[i], p, true))
    else CoerceGiven(args[i], p, false)
  }

  /** The pairs for the first n parameters, stopping at the first fault as the source's
      loop does when an exception leaves it. */
  function CoercePrefix(args: seq<string>, ps: seq<Param>, n: nat, withOptionals: bool): (r: Result<seq<Arg>, Fault>)
    requires n <= |ps|
    ensures r.Ok? ==> |r.value| == n
    ensures r.Ok? ==> forall k :: 0 <= k < n ==> CoerceAt(args, ps[k], k, withOptionals) == Ok(r.value[k])
  {
    if n == 0 then Ok([])
    else match CoercePrefix(args, ps, n - 1, withOptionals)
      case Err(e) => Err(e)
      case Ok(xs) =>
        match CoerceAt(args, ps[n - 1], n - 1, withOptionals)
        case Err(e) => Err(e)
        case Ok(a) => Ok(xs + [a])
  }

  /** One more parameter: a fault so far stays, otherwise its coercion decides. */
  lemma PrefixStep(args: seq<string>, ps: seq<Param>, n: nat, w: bool)
    requires 0 < n <= |ps|
    ensures CoercePrefix(args, ps, n - 1, w).Err? ==> CoercePrefix(args, ps, n, w) == CoercePrefix(args, ps, n - 1, w)
    ensures CoercePrefix(args, ps, n - 1, w).Ok? && CoerceAt(args, ps[n - 1], n - 1, w).Err? ==>
              CoercePrefix(args, ps, n, w) == Err(CoerceAt(args, ps[n - 1], n - 1, w).error)
  {
  }

  /** Once a fault occurs, later parameters are not looked at: it is the final fault. */
  lemma {:induction false} FirstFaultStops(args: seq<string>, ps: seq<Param>, n: nat, m: nat, w: bool)
    requires n <= m <= |ps| && CoercePrefix(args, ps, n, w).Err?
    ensures CoercePrefix(args, ps, m, w) == CoercePrefix(args, ps, n, w)
    decreases m - n
  {
    if n < m {
      FirstFaultStops(args, ps, n, m - 1, w);
    }
  }

  /** The two successful outcomes of parseArguments: the pairs ("Success") or a mismatch report. */
  datatype Parsed = Success(pairs: seq<Arg>) | Mismatch(message: string)

  function Lift(r: Result<seq<Arg>, Fault>): (p: Result<Parsed, Fault>)
    ensures p.Ok? ==> p.value.Success?
  {
    if r.Ok? then Ok(Success(r.value)) else Err(r.error)
  }

  /** parseArguments(str, catalyst, method) on a handler with parameters ps. */
  function Parse(line: string, catalystLength: nat, ps: seq<Param>): (r: Result<Parsed, Fault>)
    requires catalystLength <= |line|
    ensures r.Ok? && r.value.Mismatch? ==> StartsWith(r.value.message, MismatchHead)
  {
    ParseTokens(ArgumentTokens(line, catalystLength), ps)
  }

  /** What parseArguments does once the argument tokens are known. */
  function ParseTokens(args: seq<string>, ps: seq<Param>): (r: Result<Parsed, Fault>)
    ensures r.Ok? && r.value.Mismatch? ==> StartsWith(r.value.message, MismatchHead)
  {
    if HasOptionals(ps) then
      if |ps| != |args| && |WithoutOptionals(ps)| != |args| then Ok(Mismatch(MismatchMessage(args, true)))
      else Lift(CoercePrefix(args, ps, |ps|, true))
    else if |ps| != |args| then Ok(Mismatch(MismatchMessage(args, false)))
    else Lift(CoercePrefix(args, ps, |ps|, false))
  }

  /** parseArguments: tokenizes, checks the arity and fills `pairs` one parameter at a time. */
  method ParseArguments(line: string, catalyst: string, ps: seq<Param>) returns (r: Result<Parsed, Fault>)
    requires |catalyst| <= |line|
    ensures r == Parse(line, |catalyst|, ps)
  {
    var all := Arguments(line, |catalyst|);
    var arguments := if |all| == 0 then [] else all[1..];
    assert arguments == ArgumentTokens(line, |catalyst|);
    r := ParseTokensLoop(arguments, ps);
  }

  /** The body of parseArguments after `arguments` is computed. */
  method ParseTokensLoop(arguments: seq<string>, ps: seq<Param>) returns (r: Result<Parsed, Fault>)
    ensures r == ParseTokens(arguments, ps)
  {
    var pairs: seq<Arg> := [];
    var withOptionals := HasOptionals(ps);
    if withOptionals {
      if |ps| != |arguments| && |WithoutOptionals(ps)| != |arguments| {
        return Ok(Mismatch(MismatchMessage(arguments, true)));
      }
    } else if |ps| != |arguments| {
      return Ok(Mismatch(MismatchMessage(arguments, false)));
    }
    ParseFits(arguments, ps);
    for i := 0 to |ps|
      invariant CoercePrefix(arguments, ps, i, withOptionals) == Ok(pairs)
    {
      var a := CoerceAt(arguments, ps[i], i, withOptionals);
      PrefixStep(arguments, ps, i + 1, withOptionals);
      if a.Err? {
        FirstFaultStops(arguments, ps, i + 1, |ps|, withOptionals);
        return Err(a.error);
      }
      PrefixGrows(arguments, ps, i, withOptionals);
      pairs := pairs + [a.value];
    }
    return Ok(Success(pairs));
  }

  /** When the token count fits, the parse is the lifted fill of every parameter. */
  lemma ParseFits(args: seq<string>, ps: seq<Param>)
    ensures HasOptionals(ps) && (|ps| == |args| || |WithoutOptionals(ps)| == |args|) ==>
              ParseTokens(args, ps) == Lift(CoercePrefix(args, ps, |ps|, true))
    ensures !HasOptionals(ps) && |ps| == |args| ==>
              ParseTokens(args, ps) == Lift(CoercePrefix(args, ps, |ps|, false))
  {
  }

  /** A fill that succeeds on one more parameter appends that parameter's pair. */
  lemma PrefixGrows(args: seq<string>, ps: seq<Param>, i: nat, w: bool)
    requires i < |ps| && CoercePrefix(args, ps, i, w).Ok? && CoerceAt(args, ps[i], i, w).Ok?
    ensures CoercePrefix(args, ps, i + 1, w) == Ok(CoercePrefix(args, ps, i, w).value + [CoerceAt(args, ps[i], i, w).value])
  {
  }

  // ---- Properties of parseArguments ----

  /** A mismatch is reported exactly when the token count fits neither the full parameter
      list nor (with optionals) the list without its optional parameters. */
  lemma MismatchIff(args: seq<string>, ps: seq<Param>)
    ensures ParseTokens(args, ps).Ok? && ParseTokens(args, ps).value.Mismatch? <==>
              |ps| != |args| && (!HasOptionals(ps) || |ps| - OptionalCount(ps) != |args|)
    ensures ParseTokens(args, ps).Ok? && ParseTokens(args, ps).value.Mismatch? ==>
              ParseTokens(args, ps).value.message == MismatchMessage(args, HasOptionals(ps))
  {
    var w := HasOptionals(ps);
    var fits := if w then |ps| == |args| || |WithoutOptionals(ps)| == |args| else |ps| == |args|;
    if fits {
      assert ParseTokens(args, ps) == Lift(CoercePrefix(args, ps, |ps|, w));
    } else {
      assert ParseTokens(args, ps) == Ok(Mismatch(MismatchMessage(args, w)));
    }
  }

  /** A successful parse yields one pair per parameter, each the coercion of its position;
      a parameter without a token is an omitted optional and yields Optional.empty(). */
  lemma SuccessShape(args: seq<string>, ps: seq<Param>)
    requires ParseTokens(args, ps).Ok? && ParseTokens(args, ps).value.Success?
    ensures var pairs := ParseTokens(args, ps).value.pairs;
      && |pairs| == |ps|
      && (forall k :: 0 <= k < |ps| ==> CoerceAt(args, ps[k], k, HasOptionals(ps)) == Ok(pairs[k]))
      && (forall k :: 0 <= k < |ps| && k >= |args| ==> ps[k].ty.Opt? && pairs[k] == Arg("Optional<>", Empty))
      && (forall k :: 0 <= k < |ps| && ps[k].ty.Plain? ==> pairs[k].value.Given?)
      && (forall k :: 0 <= k < |ps| && ps[k].ty.Opt? ==> !pairs[k].value.Given?)
  {
    var w := HasOptionals(ps);
    var pairs := ParseTokens(args, ps).value.pairs;
    assert CoercePrefix(args, ps, |ps|, w) == Ok(pairs);
    forall k | 0 <= k < |ps| ensures ps[k].ty.Opt? ==> !pairs[k].value.Given? {
      if ps[k].ty.Opt? {
        assert w by { HasOptionalsIff(ps); }
      }
    }
  }

  /** Without optional parameters, a token is passed on as it is: a double-quoted run
      keeps its "str_" marker and no string clamp applies. */
  lemma PlainBranchKeepsMarker(x: string, p: Param)
    ensures CoerceGiven(StrPrefix + x, p, false) == Ok(Arg(GivenTag(StrPrefix + x, Str), Given(StringVal(StrPrefix + x))))
  {
    MarkedIsString(StrPrefix + x);
    assert StartsWith(StrPrefix + x, "str_") by { assert (StrPrefix + x)[..4] == StrPrefix; }
  }

  /** With optional parameters, a double-quoted run reaches a String parameter unmarked. */
  lemma OptionalsBranchUnmarks(x: string, p: Param)
    requires p.stringClamp.None?
    ensures CoerceGiven(StrPrefix + x, p, true) == Ok(Arg(GivenTag(StrPrefix + x, Str), Given(StringVal(x))))
    ensures p.ty.Opt? && p.ty.kind == Str ==>
              CoerceOptional(StrPrefix + x, p) == Ok(Arg(OptionalTag(StrPrefix + x, Str), Present(StringVal(x))))
  {
    assert StartsWith(StrPrefix + x, "str_") by { assert (StrPrefix + x)[..4] == StrPrefix; }
    MarkedIsString(StrPrefix + x);
    EscapeUndoesMark(x);
  }

  /** Omitted optionals must trail: with (Optional<Int>, Int) a single token fills the
      optional one and the Int parameter then has no token. */
  lemma LeadingOptionalFaults(tok: string)
    requires IsIntegerText(tok) && MinInt <= IntegerValue(tok) <= MaxInt
    ensures var ps := [Param(Opt(Int), None, None), Param(Plain(Int), None, None)];
      CoercePrefix([tok], ps, 2, true) == Err(RangeFault(1, 1))
  {
    var ps := [Param(Opt(Int), None, None), Param(Plain(Int), None, None)];
    assert IsDoubleText(tok);
    assert CoercePrefix([tok], ps, 1, true).Ok?;
  }

  /** Parameter k fails with e, and every parameter before it is coerced. */
  predicate FailsFirstAt(args: seq<string>, ps: seq<Param>, k: nat, w: bool, e: Fault)
    requires k < |ps|
  {
    CoerceAt(args, ps[k], k, w) == Err(e) && forall j :: 0 <= j < k ==> CoerceAt(args, ps[j], j, w).Ok?
  }

  /** The fault a parse ends with is the one of the first parameter that fails. */
  lemma {:induction false} FaultIsFirst(args: seq<string>, ps: seq<Param>, n: nat, w: bool)
    requires n <= |ps| && CoercePrefix(args, ps, n, w).Err?
    ensures exists k: nat :: k < n && FailsFirstAt(args, ps, k, w, CoercePrefix(args, ps, n, w).error)
  {
    if CoercePrefix(args, ps, n - 1, w).Err? {
      FaultIsFirst(args, ps, n - 1, w);
      var k: nat :| k < n - 1 && FailsFirstAt(args, ps, k, w, CoercePrefix(args, ps, n - 1, w).error);
      FaultCarried(args, ps, n, w, k);
    } else {
      FaultAtLast(args, ps, n, w);
    }
  }

  /** A fault already present after n - 1 parameters is the fault after n. */
  lemma FaultCarried(args: seq<string>, ps: seq<Param>, n: nat, w: bool, k: nat)
    requires 0 < n <= |ps| && k < n - 1 && CoercePrefix(args, ps, n - 1, w).Err?
    requires FailsFirstAt(args, ps, k, w, CoercePrefix(args, ps, n - 1, w).error)
    ensures FailsFirstAt(args, ps, k, w, CoercePrefix(args, ps, n, w).error)
  {
    PrefixStep(args, ps, n, w);
  }

  /** When the first n - 1 parameters coerce and the first n do not, parameter n - 1 fails first. */
  lemma FaultAtLast(args: seq<string>, ps: seq<Param>, n: nat, w: bool)
    requires 0 < n <= |ps| && CoercePrefix(args, ps, n, w).Err? && CoercePrefix(args, ps, n - 1, w).Ok?
    ensures FailsFirstAt(args, ps, n - 1, w, CoercePrefix(args, ps, n, w).error)
  {
    var xs := CoercePrefix(args, ps, n - 1, w).value;
    forall j | 0 <= j < n - 1 ensures CoerceAt(args, ps[j], j, w).Ok? {
      assert CoerceAt(args, ps[j], j, w) == Ok(xs[j]);
    }
  }

  /** The demo handler doTest(testOne: Int, testTwo: Optional<Int>). */
  const DemoParams := [Param(Plain(Int), None, None), Param(Opt(Int), None, None)]

  lemma DemoScanOne()
    ensures Scan(".test 5", 0) == [Span(0, 5), Span(6, 7)]
  {
    var s := ".test 5";
    assert RunEnd(s, 5) == 5 && RunEnd(s, 0) == 5;
    assert RunEnd(s, 6) == 7;
    assert FindFrom(s, 7) == None;
    assert FindFrom(s, 5) == Some(Span(6, 7));
    assert FindFrom(s, 0) == Some(Span(0, 5));
  }

  lemma DemoScanTwo()
    ensures Scan(".test 5 7", 0) == [Span(0, 5), Span(6, 7), Span(8, 9)]
  {
    var t := ".test 5 7";
    assert RunEnd(t, 5) == 5 && RunEnd(t, 0) == 5;
    assert RunEnd(t, 7) == 7 && RunEnd(t, 6) == 7;
    assert RunEnd(t, 8) == 9;
    assert FindFrom(t, 9) == None;
    assert FindFrom(t, 7) == Some(Span(8, 9));
    assert FindFrom(t, 5) == Some(Span(6, 7));
    assert FindFrom(t, 0) == Some(Span(0, 5));
  }

  lemma DemoMarksOne()
    ensures Marks(".test 5", [Span(0, 5), Span(6, 7)]) == [".test", "5"]
  {
    var s := ".test 5";
    var ms := [Span(0, 5), Span(6, 7)];
    assert s[0..5] == ".test" && '"' !in ".test";
    assert s[6..7] == "5" && '"' !in "5";
    assert ms[1..] == [Span(6, 7)];
    assert Marks(s, ms[1..]) == ["5"];
  }

  lemma DemoMarksTwo()
    ensures Marks(".test 5 7", [Span(0, 5), Span(6, 7), Span(8, 9)]) == [".test", "5", "7"]
  {
    var t := ".test 5 7";
    var ns := [Span(0, 5), Span(6, 7), Span(8, 9)];
    assert t[0..5] == ".test" && '"' !in ".test";
    assert t[6..7] == "5" && '"' !in "5";
    assert t[8..9] == "7" && '"' !in "7";
    assert ns[1..][1..] == ns[2..];
    assert Marks(t, ns[2..]) == ["7"];
    assert ns[1..][0] == Span(6, 7);
    assert Marks(t, ns[1..]) == ["5", "7"];
  }

  lemma DemoTokens()
    ensures ArgumentTokens(".test 5", 1) == ["5"]
    ensures ArgumentTokens(".test 5 7", 1) == ["5", "7"]
  {
    DemoScanOne();
    DemoScanTwo();
    DemoMarksOne();
    DemoMarksTwo();
  }

  lemma DemoArity()
    ensures HasOptionals(DemoParams) && |WithoutOptionals(DemoParams)| == 1
  {
    assert OptionalCount(DemoParams[1..][1..]) == 0;
  }

  lemma SmallIntegers()
    ensures IsIntegerText("5") && IntegerValue("5") == 5 && !IsBoolean("5")
    ensures IsIntegerText("7") && IntegerValue("7") == 7 && !IsBoolean("7")
  {
    assert DigitsValue("5"[..0]) == 0;
    assert DigitsValue("7"[..0]) == 0;
    assert "5"[0..] == "5";
    assert "7"[0..] == "7";
  }

  lemma DemoFirstArgument()
    ensures CoerceAt(["5"], DemoParams[0], 0, true) == Ok(Arg("5 [Int]", Given(IntVal(5))))
    ensures CoerceAt(["5", "7"], DemoParams[0], 0, true) == Ok(Arg("5 [Int]", Given(IntVal(5))))
    ensures CoerceAt(["5", "7"], DemoParams[1], 1, true) == Ok(Arg("7 Optional<Int>", Present(IntVal(7))))
  {
    SmallIntegers();
    assert GivenTag("5", Int) == "5 [Int]";
    assert OptionalTag("7", Int) == "7 Optional<Int>";
  }

  lemma DemoParseOne()
    ensures ParseTokens(["5"], DemoParams) == Ok(Success([Arg("5 [Int]", Given(IntVal(5))), Arg("Optional<>", Empty)]))
  {
    DemoArity();
    DemoFirstArgument();
    var a := Arg("5 [Int]", Given(IntVal(5)));
    assert CoercePrefix(["5"], DemoParams, 0, true) == Ok([]);
    assert [] + [a] == [a];
    assert CoercePrefix(["5"], DemoParams, 1, true) == Ok([a]);
    var b := Arg("Optional<>", Empty);
    assert CoerceAt(["5"], DemoParams[1], 1, true) == Ok(b);
    assert CoercePrefix(["5"], DemoParams, 2, true) == Ok([a] + [b]);
    assert [a] + [b] == [a, b];
  }

  lemma DemoParseTwo()
    ensures ParseTokens(["5", "7"], DemoParams) ==
              Ok(Success([Arg("5 [Int]", Given(IntVal(5))), Arg("7 Optional<Int>", Present(IntVal(7)))]))
  {
    DemoArity();
    DemoFirstArgument();
    var a := Arg("5 [Int]", Given(IntVal(5)));
    assert CoercePrefix(["5", "7"], DemoParams, 0, true) == Ok([]);
    assert [] + [a] == [a];
    assert CoercePrefix(["5", "7"], DemoParams, 1, true) == Ok([a]);
    var b := Arg("7 Optional<Int>", Present(IntVal(7)));
    assert CoercePrefix(["5", "7"], DemoParams, 2, true) == Ok([a] + [b]);
    assert [a] + [b] == [a, b];
  }

  /** ".test 5" calls doTest(5, Optional.empty()); ".test 5 7" calls doTest(5, Optional.of(7));
      ".test" alone fits neither arity and is reported as a mismatch. */
  lemma DemoParses()
    ensures Parse(".test 5", 1, DemoParams) ==
              Ok(Success([Arg("5 [Int]", Given(IntVal(5))), Arg("Optional<>", Empty)]))
    ensures Parse(".test 5 7", 1, DemoParams) ==
              Ok(Success([Arg("5 [Int]", Given(IntVal(5))), Arg("7 Optional<Int>", Present(IntVal(7)))]))
    ensures ParseTokens([], DemoParams).Ok? && ParseTokens([], DemoParams).value.Mismatch?
  {
    DemoTokens();
    DemoArity();
    DemoParseOne();
    DemoParseTwo();
  }
}
