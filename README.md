# command-manager-2 in Dafny

A model of the command engine of haze/command-manager-2, a small Kotlin library. A
`CommandManager` has a catalyst prefix, such as ".", and a registry. The registry holds,
per class, the object first registered for it and its `@Command`-annotated functions.

`execute(input)` takes one input line and goes through these steps:
- It checks the catalyst.
- It reads the alias after the catalyst and looks up the first handler carrying that
  alias, ignoring case.
- It tokenizes the line with the regular expression `[^\s"']+|"([^"]*)"|'([^']*)'`.
- It classifies every token (Boolean, Double, Int, String).
- It checks the arity against the handler's parameters. The number of tokens after the
  alias must equal either the number of all parameters or the number of non-optional
  ones, so the `Optional` parameters are omitted all together or not at all.
- It turns each token into a value. For a non-optional parameter the token's
  classification picks the value, not the parameter's type: a boolean text gives a
  Boolean; a double text gives a Double unless the parameter is an Int; an integer text
  for an Int parameter gives an Int; any other token gives a String. An `Optional`
  parameter takes only a token its content type's classifier accepts.
- The `@DigitClamp` annotation applies only in `Optional<Int>` and `Optional<Double>`
  positions. The `@StringClamp` annotation applies only when the handler has optional
  parameters. A handler without optional parameters gets no clamp at all.
- It calls the handler. When the return-type test of `invoke` holds, it replies with the
  handler's result text; otherwise it replies "".

Each failure becomes the text `execute` replies with.

Files and modules:
- `text.dfy` (`Text`): the JVM string operations the code relies on (ignore-case
  comparison, `split`, `trim`, `isBlank`, `indexOf`, `joinToString`).
- `types.dfy` (`Types`): the entities.
  - the `ArgumentType` enum
  - parameter types, clamps, handlers, classes and instances
  - the typed values and the faults (the exceptions).
- `utility.dfy` (`Utility`): `Utility.kt`.
- `classify.dfy`, `clamps.dfy`, `tokenizer.dfy` and `coercion.dfy` (`Classify`, `Clamps`,
  `Tokenizer`, `Coercion`):
  - the classifiers
  - the clamp and escape helpers
  - the `arguments` tokenizer
  - `parseArguments` of `StringParser.kt`.
- `dispatch.dfy` (`Dispatch`): the value-level meaning of lookup, `usage`, `compile`,
  `invoke` and `execute`.
- `manager.dfy` (`Manager`): the class `CommandManager`. Its fields are updated by
  `Register`, and its imperative methods are each proved equal to the `Dispatch` function
  they implement.

The Kotlin loops are kept as loops. They are the nested loops of `methodFromName` and
`findCommandClass`, the `find()` loops of `arguments`, the character scans of `isInteger`
and `isDouble`, the parameter loop of `parseArguments`, and the builder loop of `usage`.

Where the code departs from what its names suggest, the model follows the code:
- Registering a class a second time replaces its handler list rather than adding to it.
- The result `execute` returns is the untrimmed handler result; it is only tested for
  blankness after trimming.
- A token's value follows its classification rather than its parameter's declared type:
  "5" reaches a String parameter as the Double 5.0, and "1.5" reaches an Int parameter as
  the String "1.5".
- Clamps are not applied everywhere they are declared. A digit clamp on a non-optional
  parameter is ignored, and no clamp applies to a handler without optional parameters.

## Model

| member | source | states |
|---|---|---|
| Utility.SentenceForm | src/pw/haze/command/util/Utility.kt:21 | the result has the input's length, the first character upper-cased and every other character lower-cased |
| Utility.SentenceFormIdempotent | src/pw/haze/command/util/Utility.kt:21 | sentence casing twice is sentence casing once |
| Utility.SentenceFormOfNames | src/pw/haze/command/util/Utility.kt:21 | sentence casing turns each enum name BOOLEAN, DOUBLE, INT, STRING into the Kotlin type name Boolean, Double, Int, String |
| Utility.OptionalCount | src/pw/haze/command/util/Utility.kt:20 | the number of Optional parameters never exceeds the number of parameters |
| Utility.HasOptionalsIff | src/pw/haze/command/util/Utility.kt:19-20 | hasOptionals holds exactly when some parameter has an Optional type |
| Utility.FindFirst | src/pw/haze/command/util/Utility.kt:22-27 | empty exactly when no element satisfies the predicate; otherwise the element at the first index that does |
| Classify.IsInteger | src/pw/haze/command/parse/StringParser.kt:238-251 | true exactly for a non-empty text of ASCII digits with one optional leading '-' |
| Classify.BooleanTokens | src/pw/haze/command/parse/StringParser.kt:273 | a boolean token has four or five letters; toBoolean holds exactly for the boolean tokens that are not a casing of "false", and only for boolean tokens |
| Classify.BooleanExamples | src/pw/haze/command/parse/StringParser.kt:273 | isBoolean ignores letter case and nothing else: "TRUE" and "fAlSe" are booleans, "yes", "1" and "true " are not |
| Classify.IsDouble | src/pw/haze/command/parse/StringParser.kt:254-269 | true exactly for a non-empty text of '.' and digits with at most a leading '-', so "-", "." and "1.2.3" pass |
| Classify.TypeOf | src/pw/haze/command/parse/StringParser.kt:61-70 | BOOLEAN exactly for a boolean text; DOUBLE exactly for a non-boolean double text; INT and OPTIONAL are never returned |
| Classify.MarkedIsString | src/pw/haze/command/parse/StringParser.kt:61-70 | a token carrying the "str_" marker classifies as STRING |
| Classify.TypeOfExamples | src/pw/haze/command/parse/StringParser.kt:61-70 | "5", "-" and "1.2.3" are DOUBLE, "TrUe" is BOOLEAN, and "1-2", "--1" and "" are STRING |
| Classify.ToInt | src/pw/haze/command/parse/StringParser.kt:200 | toInt succeeds exactly when the text's value lies in the 32-bit range and yields that value; otherwise a NumberFormatException |
| Classify.ToDouble | src/pw/haze/command/parse/StringParser.kt:198 | toDouble on an isDouble text succeeds exactly when it has a digit and at most one '.': its decimal value; otherwise a NumberFormatException |
| Classify.LoneMinusFailsConversion | src/pw/haze/command/parse/StringParser.kt:177 | "-" passes isDouble, yet converting it throws |
| Classify.IntegerToDouble | src/pw/haze/command/parse/StringParser.kt:198 | an integer text converts to the double of its integer value |
| Clamps.StrEscape | src/pw/haze/command/parse/StringParser.kt:93 | a text with the "str_" prefix loses exactly that prefix; any other text is unchanged |
| Clamps.EscapeUndoesMark | src/pw/haze/command/parse/StringParser.kt:93 | escaping undoes the tokenizer's marker: StrEscape("str_" + x) == x |
| Clamps.StrClamp | src/pw/haze/command/parse/StringParser.kt:95-101 | a required clamp rejects a length outside [min, max]; otherwise the text is cut to max characters, and a text within the bounds is unchanged; the result is a prefix of the input; a non-required clamp with a negative max fails with the index fault `removeRange` throws |
| Clamps.DoubleClampOf | src/pw/haze/command/parse/StringParser.kt:103-111 | fails exactly for a required clamp and an out-of-range value; otherwise the value saturated at the nearer bound, and a value within the bounds unchanged |
| Clamps.DoubleClamp | src/pw/haze/command/parse/StringParser.kt:103-111 | the method that reassigns nnum computes DoubleClampOf |
| Clamps.Wrap32 | src/pw/haze/command/parse/StringParser.kt:115-116 | Long.toInt keeps a 32-bit signed value congruent to its input modulo 2^32 (its low 32 bits) and leaves values in range unchanged |
| Clamps.IntClampOf | src/pw/haze/command/parse/StringParser.kt:113-123 | the same as DoubleClampOf, on the bounds rounded by Math.round and narrowed to Int |
| Clamps.RoundToInt | src/pw/haze/command/parse/StringParser.kt:115-116 | Math.round(x).toInt(): within the Int range, the integer nearest x with halves rounded up; always a 32-bit value congruent to floor(x + 1/2) modulo 2^32 |
| Clamps.RoundWrapsExample | src/pw/haze/command/parse/StringParser.kt:115 | a bound of 1e10 narrows to 1410065408 |
| Clamps.IntClamp | src/pw/haze/command/parse/StringParser.kt:113-123 | the method that reassigns nnum computes IntClampOf |
| Clamps.StringClampExamples | src/pw/haze/command/parse/StringParser.kt:95-101 | a required clamp of 2..4 rejects "a" and "abcdef"; a non-required one cuts "abcdef" to "abcd" and keeps "a" |
| Clamps.DefaultDigitClampSaturates | src/pw/haze/command/util/DigitClamp.kt:7 | the default clamp (0..10, not required) never fails and saturates 15 to 10 |
| Tokenizer.MatchAt | src/pw/haze/command/parse/StringParser.kt:126 | no match starts at an index exactly when it holds whitespace or a quote with no partner after it |
| Tokenizer.FindFrom | src/pw/haze/command/parse/StringParser.kt:141 | find() reports the first index at or after the position where a match starts, with everything before it skippable; none when everything is skippable |
| Tokenizer.Scan | src/pw/haze/command/parse/StringParser.kt:141 | repeated find() yields matches inside the line, in increasing order and without overlap |
| Tokenizer.Marks | src/pw/haze/command/parse/StringParser.kt:142-145 | one rewritten group per match, each the match's text with '"' removed and "str_" prepended when it has a '"' |
| Tokenizer.Find | src/pw/haze/command/parse/StringParser.kt:141 | the stepping search computes FindFrom |
| Tokenizer.Occurrences | src/pw/haze/command/parse/StringParser.kt:131-136 | the counting loop returns the number of matches in the line |
| Tokenizer.Groups | src/pw/haze/command/parse/StringParser.kt:141-147 | the second find() loop collects the rewritten group of every match, in order |
| Tokenizer.Arguments | src/pw/haze/command/parse/StringParser.kt:125-150 | one match gives the line minus the catalyst's length; otherwise the rewritten groups |
| Tokenizer.Tokenize | src/pw/haze/command/parse/StringParser.kt:125-150 | one token per match; a line holding exactly one match gives the single token of the line minus the catalyst's length; otherwise each token is its match's rewritten group |
| Tokenizer.ArgumentTokens | src/pw/haze/command/parse/StringParser.kt:154 | one argument token per match after the first; with two or more matches, argument k is the rewritten group of match k + 1 |
| Tokenizer.ScanShapes | src/pw/haze/command/parse/StringParser.kt:126 | every match is a maximal bare run, a "..." run or a '...' run |
| Tokenizer.ScanGaps | src/pw/haze/command/parse/StringParser.kt:126 | a character no match covers is whitespace or an unpartnered quote: nothing else is dropped |
| Tokenizer.MarkBare | src/pw/haze/command/parse/StringParser.kt:143-144 | a bare run is kept as it is |
| Tokenizer.MarkDoubleQuoted | src/pw/haze/command/parse/StringParser.kt:143-144 | a "..." run becomes "str_" followed by its inside |
| Tokenizer.MarkSingleQuoted | src/pw/haze/command/parse/StringParser.kt:143-144 | a '...' run without '"' keeps its quotes and gets no marker |
| Tokenizer.OneMatchNoArguments | src/pw/haze/command/parse/StringParser.kt:139 | a line with a single match has no argument tokens |
| Tokenizer.QuotedExample | src/pw/haze/command/parse/StringParser.kt:125-150 | `.cmd "a b" c` tokenizes to .cmd, str_a b, c |
| Coercion.WithoutOptionals | src/pw/haze/command/parse/StringParser.kt:91 | keeps exactly the non-Optional parameters; their number plus optionalCount is the parameter count |
| Coercion.GenerateArgumentTypes | src/pw/haze/command/parse/StringParser.kt:152 | pairs each token, in order, with its classification |
| Coercion.MismatchMessage | src/pw/haze/command/parse/StringParser.kt:158-219 | every report starts with "[a|m]: "; the report with optionals continues "*contains optionals* [" and the plain one continues with the "[" of its pair list |
| Coercion.CoerceOptional | src/pw/haze/command/parse/StringParser.kt:171-193 | an accepted token yields a present Optional tagged "<token> Optional<Kind>" |
| Coercion.OptionalValues | src/pw/haze/command/parse/StringParser.kt:176-190 | an Optional<Int> integer token is its value clamped by the digit clamp, or a NumberFormat fault outside the Int range; an Optional<Double> double token is its decimal value clamped by the digit clamp, or a NumberFormat fault when it does not parse; an Optional<String> token is its unmarked text clamped by the string clamp |
| Coercion.OptionalIntClamped | src/pw/haze/command/parse/StringParser.kt:181-184 | "15" for Optional<Int> under the default digit clamp becomes 10 |
| Coercion.OptionalStringClamped | src/pw/haze/command/parse/StringParser.kt:185-190 | a double-quoted "abcdef" for an Optional<String> clamped to at most 4 characters arrives unmarked as "abcd" |
| Coercion.InvalidParametersIff | src/pw/haze/command/parse/StringParser.kt:174-192 | InvalidParametersException is thrown exactly when the token's classifier disagrees with the optional's content type; Optional<String> accepts every token |
| Coercion.OptionalAccepts | src/pw/haze/command/parse/StringParser.kt:185-190 | a boolean token for Optional<Boolean> gives its value; any token for an unclamped Optional<String> gives its unmarked text |
| Coercion.CoerceGiven | src/pw/haze/command/parse/StringParser.kt:195-231 | every value is a given one; a boolean token gives a Boolean; the only faults are number formats and, in the branch with optionals, string clamps |
| Coercion.GivenValues | src/pw/haze/command/parse/StringParser.kt:195-231 | Double unless Int: a non-boolean double text for any parameter but an Int one is its decimal value as a Double, or a NumberFormat fault when it does not parse; an integer text for an Int parameter is its Int, or a NumberFormat fault outside the Int range; any other non-boolean token is a String, kept as it is without optionals and unmarked and string-clamped with them |
| Coercion.GivenIgnoresClamps | src/pw/haze/command/parse/StringParser.kt:195-231 | a non-optional parameter's digit clamp never changes its value, and without optionals neither does its string clamp |
| Coercion.GivenDoubleForString | src/pw/haze/command/parse/StringParser.kt:197-198 | "5" for a String parameter is the Double 5.0 tagged "5 [Double]" |
| Coercion.GivenStringForInt | src/pw/haze/command/parse/StringParser.kt:197-206 | "1.5" for an Int parameter is the String "1.5" tagged "1.5 [String]" |
| Coercion.GivenLoneMinusFails | src/pw/haze/command/parse/StringParser.kt:197-198 | "-" for a String parameter fails the Double conversion with a NumberFormat fault |
| Coercion.CoerceAt | src/pw/haze/command/parse/StringParser.kt:167-170 | past the last token, an optional parameter gets Optional.empty() tagged "Optional<>"; a plain one gets an index fault |
| Coercion.CoercePrefix | src/pw/haze/command/parse/StringParser.kt:163-210 | a successful fill has one pair per parameter, each the coercion of its own position |
| Coercion.FirstFaultStops | src/pw/haze/command/parse/StringParser.kt:163-210 | once a parameter fails, later parameters do not change the outcome |
| Coercion.FaultIsFirst | src/pw/haze/command/parse/StringParser.kt:163-210 | the fault of a failed fill is that of the first parameter that fails, with every earlier one coerced |
| Coercion.Parse | src/pw/haze/command/parse/StringParser.kt:89-234 | a mismatch outcome carries a report starting with the mismatch header |
| Coercion.ParseTokens | src/pw/haze/command/parse/StringParser.kt:158-233 | a mismatch outcome carries a report starting with the mismatch header |
| Coercion.ParseArguments | src/pw/haze/command/parse/StringParser.kt:154 | tokenizing and dropping the command word, then the parameter loop, computes Parse |
| Coercion.ParseTokensLoop | src/pw/haze/command/parse/StringParser.kt:158-233 | the arity checks and the loop that adds one pair per parameter, leaving at the first exception, compute ParseTokens |
| Coercion.MismatchIff | src/pw/haze/command/parse/StringParser.kt:158-219 | a mismatch is reported exactly when the token count equals neither the parameter count nor, with optionals, the count without them; the report is that of the branch taken |
| Coercion.SuccessShape | src/pw/haze/command/parse/StringParser.kt:163-211 | a success has one pair per parameter; parameters past the tokens are omitted optionals; plain parameters get given values and optional ones never do |
| Coercion.PlainBranchKeepsMarker | src/pw/haze/command/parse/StringParser.kt:228-229 | without optionals a double-quoted token reaches its parameter still marked "str_" |
| Coercion.OptionalsBranchUnmarks | src/pw/haze/command/parse/StringParser.kt:202-205 | with optionals a double-quoted token reaches a String parameter unmarked |
| Coercion.LeadingOptionalFaults | src/pw/haze/command/parse/StringParser.kt:167-170 | for (Optional<Int>, Int) one integer token fills the optional, and the Int parameter then fails with an index fault |
| Coercion.DemoParses | src/pw/haze/command/test/Main.kt:12-26 | ".test 5" gives (5, Optional.empty()), ".test 5 7" gives (5, Optional.of(7)), and no tokens at all is a mismatch |
| Dispatch.FirstWithAlias | src/pw/haze/command/CommandManager.kt:129-135 | none exactly when no handler carries the alias; otherwise the handler at the first index carrying it |
| Dispatch.FirstWithAliasAppend | src/pw/haze/command/CommandManager.kt:129-130 | searching class lists one after another searches the first list, then the rest |
| Dispatch.AliasCaseInsensitive | src/pw/haze/command/CommandManager.kt:125 | aliases equal up to letter case find the same handler |
| Dispatch.OwnerOf | src/pw/haze/command/CommandManager.kt:99-106 | the owner found is registered and lists the handler; none exactly when no class lists it |
| Dispatch.FlattenedHasOwner | src/pw/haze/command/CommandManager.kt:99-106 | every registered handler has an owning class |
| Dispatch.LookupOf | src/pw/haze/command/CommandManager.kt:108-119 | a found handler is the first in registry order carrying the alias, and its class is registered and lists it; no handler with the alias replies "Function for command ... not found." |
| Dispatch.LookupFindsOwner | src/pw/haze/command/CommandManager.kt:108-119 | lookup fails exactly when no handler carries the alias, and then replies "Function for command ... not found."; a found handler is the first with the alias, and its class is registered |
| Dispatch.OptionalParamName | src/pw/haze/command/CommandManager.kt:62-63 | an Optional<k> parameter is written Optional<k's Kotlin name> |
| Dispatch.UsageOf | src/pw/haze/command/CommandManager.kt:56-69 | usage fails exactly for a handler without parameters, with the index fault of replace(-2, 0); otherwise it ends with "."; a single parameter is its name and "." |
| Dispatch.AppendedJoin | src/pw/haze/command/CommandManager.kt:60-67 | cutting the last ", " off the builder gives the names joined by ", " |
| Dispatch.UsageExample | src/pw/haze/command/CommandManager.kt:56-69 | the demo handler's usage is "Int, Optional<Int>." |
| Dispatch.ToMapIsReference | src/pw/haze/command/CommandManager.kt:139 | toMap keeps each tag once, in first-occurrence order, with the value of its last occurrence |
| Dispatch.PutReplaces | src/pw/haze/command/CommandManager.kt:139 | a put of a present tag replaces its value in place; a new tag goes last |
| Dispatch.ToMapDistinct | src/pw/haze/command/CommandManager.kt:139 | with pairwise different tags, toMap keeps every pair in order |
| Dispatch.CompileDistinct | src/pw/haze/command/CommandManager.kt:139 | with pairwise different tags, compile passes every value in order |
| Dispatch.CompileCollapses | src/pw/haze/command/CommandManager.kt:139 | two equal tokens for two Int parameters, or two omitted optionals, collapse into a single value |
| Dispatch.Compile | src/pw/haze/command/CommandManager.kt:139 | compile never yields more values than pairs, and yields at least one when there is a pair |
| Dispatch.InvokeOf | src/pw/haze/command/CommandManager.kt:138-157 | a class without an instance fails with InvalidInstanceException; a handler whose return-type test fails contributes "" |
| Dispatch.InvalidParametersMessage | src/pw/haze/command/CommandManager.kt:22-25 | the InvalidParametersException message quotes the supplied token, then its classification, before the expected type |
| Dispatch.JavaTypeName | src/pw/haze/command/CommandManager.kt:22-25 | the expected type is written as the Java type name: an Optional as java.util.Optional of the boxed type; Boolean, Double and Int as the primitive names boolean, double, int; String as java.lang.String |
| Dispatch.FaultReplyExamples | src/pw/haze/command/CommandManager.kt:85-95 | the catch block replies with the library exceptions' own text, with "Exception Caught: Null Message!" for a null message, and with the JVM's description otherwise |
| Dispatch.InvokeReply | src/pw/haze/command/CommandManager.kt:80-81 | a blank handler result replies "", any other replies the result untrimmed |
| Dispatch.CommandWord | src/pw/haze/command/CommandManager.kt:74 | the alias is the first ' '-separated piece minus the catalyst's length, and contains no ' '; a shorter piece is an index fault |
| Dispatch.CommandWordFits | src/pw/haze/command/CommandManager.kt:73-74 | a catalyst without spaces that starts the input always leaves an alias |
| Dispatch.MismatchHasColon | src/pw/haze/command/CommandManager.kt:79 | a mismatch report always has a second ':'-separated piece |
| Dispatch.MismatchReceived | src/pw/haze/command/CommandManager.kt:79 | the mismatch reply quotes the usage line and, as "received", the report after its "[a|m]:" head up to the next ':', trimmed |
| Dispatch.ExecuteReplies | src/pw/haze/command/CommandManager.kt:71-97 | an unknown alias replies "Function for command ... not found."; a known one always has its class and replies with the outcome of parsing its arguments |
| Dispatch.ExecuteOf | src/pw/haze/command/CommandManager.kt:71-97 | an input that does not start with the catalyst (ignoring case) replies "Supplied command does not start with catalyst, ...", and one whose first piece is shorter than the catalyst replies the index fault's description |
| Dispatch.ParsedReplies | src/pw/haze/command/CommandManager.kt:78-95 | an exception replies with its message; a mismatch replies with the usage and the report; a success replies with the handler's text unless it is blank, a missing instance's message, or the handler exception's message or "Exception Caught: Null Message!" |
| Dispatch.TrimIdempotentBlank | src/pw/haze/command/CommandManager.kt:81 | trimming does not change whether a text is blank |
| Manager.ContainsIgnoreCase | src/pw/haze/command/CommandManager.kt:123-127 | true exactly when some alias equals the looked-up text ignoring case |
| Manager.CommandManager.constructor | src/pw/haze/command/CommandManager.kt:27-29 | a manager with the given catalyst and an empty registry |
| Manager.CommandManager.Default | src/pw/haze/command/CommandManager.kt:31 | a manager with catalyst "." and an empty registry |
| Manager.CommandManager.Register | src/pw/haze/command/CommandManager.kt:48-54 | the class joins the registry order once; a first instance is stored and later ones ignored; the handler list is replaced; the registry stays consistent |
| Manager.RegisterTwice | src/pw/haze/command/CommandManager.kt:48-54 | registering a second object of a registered class leaves the registry as the first registration made it |
| Manager.ValidFindsInstance | src/pw/haze/command/CommandManager.kt:141-149 | in a registry kept valid by Register, a class a lookup finds has an instance of that class, so the "has no found instance!" reply cannot occur |
| Manager.CommandManager.MethodFromName | src/pw/haze/command/CommandManager.kt:121-136 | the nested loops return the first handler, class by class, carrying the alias |
| Manager.CommandManager.FindCommandClass | src/pw/haze/command/CommandManager.kt:99-106 | the nested loops return OwnerOf, the first class listing the handler |
| Manager.OwnerIsFirst | src/pw/haze/command/CommandManager.kt:99-106 | a class listing the handler, with no class before it listing it, is its owner |
| Manager.CommandManager.PairFromName | src/pw/haze/command/CommandManager.kt:108-119 | computes the lookup outcome LookupOf, about which LookupFindsOwner is proved |
| Manager.CommandManager.Usage | src/pw/haze/command/CommandManager.kt:56-69 | the builder loop gives the parameter names joined by ", " and closed by "."; with no parameters the replace fails |
| Manager.CommandManager.Invoke | src/pw/haze/command/CommandManager.kt:138-157 | computes InvokeOf: instance lookup, compile, call, String result or "" |
| Manager.CommandManager.Execute | src/pw/haze/command/CommandManager.kt:71-97 | computes ExecuteOf on the registry; replies the not-a-command text to input without the catalyst |

## Left out

- Reflection is not modelled. Each handler is a `Handler` value with:
  - its name
  - its `@Command` aliases
  - its parameter types: `Boolean`, `Double`, `Int`, `String` or `Optional` of one of them
  - its clamp annotations
  - the outcome of the return-type test of `invoke`.

  The model does not cover the type-name parsing of `argtype`, `superType` and `isOptional`, the annotation lookups, or parameter types other than these.
- The `desc` field of `@Command` is not modelled. Nothing in the engine reads it.
- Handler receivers are not modelled. `isKotlinFunction` drops the receiver parameter. In the model, `params` lists only the parameters the tokens fill.
- The handler call is a parameter, `call`: `method.call` is reflective and outside the model. The message of a `Threw` outcome stands for the message of the exception as it reaches `execute`.
- The return-type test of `invoke` (`method.returnType == String.javaClass.kotlin.defaultType`)
  is abstracted as the `returnsString` flag, which stands for the outcome of that test, not for
  the handler's declared type. On a plain reading, `String.javaClass` is the class of `String`'s
  companion object, so the test would never hold and every successful `execute` would reply "".
  The model covers that reading when every handler has `returnsString` false
  (`Dispatch.InvokeOf`), and it does not decide between the readings.
- A `null` String result of a handler is not modelled.
- Messages the JVM composes are supplied by a parameter, `describe`. These are the messages of index faults, of NumberFormatException, and of the clamp exceptions, whose texts interpolate the annotation object.
- `KFunction.toString()` is not modelled. The "Class for function ... not found." reply names the handler by its `name` field. `Dispatch.LookupFindsOwner` proves this reply cannot occur.
- `instFromClass` searches the instance map as a sequence for an equal key. The model uses a map lookup, which finds the same entry.
- String lengths, `substring(catalyst.length)`, `removeRange` and the string clamp count
  UTF-16 code units on the JVM. The model counts characters. The two differ for characters
  outside the Basic Multilingual Plane: a clamp to at most 4 cuts three emoji (6 code units)
  in the source and keeps them in the model.
- Manager.CommandManager.Register: the handler list is a parameter. The source derives it
  from the object's class, and the model does not tie the two together.
- Case folding, whitespace (`trim`, `isBlank`) and `Character.isDigit` are ASCII-only. The JVM also folds and classifies non-ASCII characters.
- Classify.ToDouble: the value of an accepted double text is its exact decimal value. The IEEE rounding and range of `Double` are not modelled.
- Clamps.RoundToInt: `Math.round` saturates at the `Long` range; the model does not.
- The `println` calls of `parseArguments` and the demo's `main` are output only and are not modelled.
- Coercion.ParseArguments requires the catalyst to be no longer than the line. Its only caller, `execute`, passes a line that starts with the catalyst. A direct call with a shorter line would fail in the source's `substring`.
- Concurrency and the JVM's exception objects themselves are not modelled. An exception is the `Fault` value it carries.
