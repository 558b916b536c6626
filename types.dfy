/** The values the command engine works on: the parameter shape of a handler,
    the clamp annotations, the typed arguments it produces and the ways it fails. */
module Types {

  datatype Option<T> = None | Some(value: T) {
    function GetOr(default: T): T {
      if Some? then value else default
    }
  }

  datatype Result<T, E> = Ok(value: T) | Err(error: E)

  /** The ArgumentType enumeration of StringParser.kt. */
  datatype ArgumentType = BooleanArg | DoubleArg | IntArg | StringArg | OptionalArg

  /** The enum constant's `name`. */
  function Name(t: ArgumentType): (r: string)
    ensures |r| > 0
  {
    match t
    case BooleanArg => "BOOLEAN"
    case DoubleArg => "DOUBLE"
    case IntArg => "INT"
    case StringArg => "STRING"
    case OptionalArg => "OPTIONAL"
  }

  /** The primitive types a handler parameter, or the content of an optional one, may have. */
  datatype Kind = Bool | Dbl | Int | Str

  /** A parameter type: `Boolean`, `Double`, `Int`, `String` or `Optional<` one of them `>`. */
  datatype ParamType = Plain(kind: Kind) | Opt(kind: Kind)

  /** What KType.superType() yields for Optional<k>, and KType.argtype() for a plain k. */
  function KindType(k: Kind): ArgumentType {
    match k
    case Bool => BooleanArg
    case Dbl => DoubleArg
    case Int => IntArg
    case Str => StringArg
  }

  /** The last dot-separated segment of a plain parameter's Kotlin type name (kotlin.Int and so on). */
  function KotlinName(k: Kind): string {
    match k
    case Bool => "Boolean"
    case Dbl => "Double"
    case Int => "Int"
    case Str => "String"
  }

  /** The StringClamp annotation: a length bound on a string parameter. */
  datatype StringClamp = StringClamp(required: bool, min: int, max: int)

  /** The DigitClamp annotation: a value bound on a numeric parameter. */
  datatype DigitClamp = DigitClamp(required: bool, min: real, max: real)

  /** `@DigitClamp()` with every field at its declared default. */
  const DefaultDigitClamp := DigitClamp(false, 0.0, 10.0)

  /** One declared parameter of a handler with the clamp annotations found on it. */
  datatype Param = Param(ty: ParamType, digitClamp: Option<DigitClamp>, stringClamp: Option<StringClamp>)

  /** A function annotated with `@Command`: its rendering as text, the aliases of the
      annotation, its value parameters (the receiver left out) and the outcome of invoke's
      return-type test, which decides whether the call's result text is passed on. */
  datatype Handler = Handler(name: string, aliases: seq<string>, params: seq<Param>, returnsString: bool)

  /** The identity of a registered object's class. */
  datatype ClassId = ClassId(simpleName: string)

  /** A registered object: its class and an identity distinguishing instances of one class. */
  datatype Instance = Instance(cls: ClassId, id: nat)

  /** A converted argument value. */
  datatype Datum = BoolVal(b: bool) | DoubleVal(d: real) | IntVal(n: int) | StringVal(s: string)

  /** A value passed to a handler: a plain one, Optional.of(...) or Optional.empty(). */
  datatype Value = Given(datum: Datum) | Present(datum: Datum) | Empty

  /** One entry of the coerced argument list: the tag it is recorded under and its value. */
  datatype Arg = Arg(tag: string, value: Value)

  /** The number a DigitClampException reports. */
  datatype Number = IntNumber(n: int) | DoubleNumber(d: real)

  /** The exceptions the engine raises and `execute` catches. */
  datatype Fault =
    | StringClampViolation(stringClamp: StringClamp, str: string)   // StringClampException
    | DigitClampViolation(digitClamp: DigitClamp, num: Number)      // DigitClampException
    | InvalidParameters(provided: string, expected: ParamType)      // InvalidParametersException
    | NumberFormat(token: string)                                   // toInt / toDouble rejects the text
    | RangeFault(index: int, length: int)                           // an index or size the JVM rejects
    | InvalidInstance(cls: ClassId)                                 // InvalidInstanceException
    | Raised(message: Option<string>)                               // an exception out of the handler

  /** What invoking a handler does: it returns a string (or nothing useful) or throws. */
  datatype Outcome = Returned(text: string) | Threw(message: Option<string>)
}
