/** The value-level meaning of CommandManager: handler lookup over the registry,
    the usage line, argument compilation through toMap() and the text execute returns. */
module Dispatch {
  import opened Types
  import opened Text
  import opened Utility
  import opened Classify
  import opened Coercion

  // ---- Handler lookup ----

  /** The handler list registered for class c, or none. */
  function HandlersOf(commands: map<ClassId, seq<Handler>>, c: ClassId): seq<Handler> {
    if c in commands then commands[c] else []
  }

  /** Every registered handler: class by class in insertion order, each list in order. */
  function Flatten(classes: seq<ClassId>, commands: map<ClassId, seq<Handler>>): seq<Handler> {
    if |classes| == 0 then []
    else Flatten(classes[..|classes| - 1], commands) + HandlersOf(commands, classes[|classes| - 1])
  }

  /** The alias array of the handler's @Command contains look, ignoring case. */
  predicate HasAlias(h: Handler, look: string) {
    exists k :: 0 <= k < |h.aliases| && EqualsIgnoreCase(h.aliases[k], look)
  }

  /** The first handler in hs carrying the alias. */
  function FirstWithAlias(hs: seq<Handler>, alias: string): (r: Option<Handler>)
    ensures r.None? <==> forall k :: 0 <= k < |hs| ==> !HasAlias(hs[k], alias)
    ensures r.Some? ==> exists k :: 0 <= k < |hs| && hs[k] == r.value && HasAlias(hs[k], alias) &&
                                    forall j :: 0 <= j < k ==> !HasAlias(hs[j], alias)
  {
    if |hs| == 0 then None
    else if HasAlias(hs[0], alias) then Some(hs[0])
    else
      var r := FirstWithAlias(hs[1..], alias);
      assert forall k :: 1 <= k < |hs| ==> hs[k] == hs[1..][k - 1];
      r
  }

  /** Searching a concatenation searches the first part, then the second. */
  lemma {:induction false} FirstWithAliasAppend(a: seq<Handler>, b: seq<Handler>, alias: string)
    ensures FirstWithAlias(a + b, alias) ==
              if FirstWithAlias(a, alias).Some? then FirstWithAlias(a, alias) else FirstWithAlias(b, alias)
  {
    if |a| > 0 {
      assert (a + b)[1..] == a[1..] + b;
      FirstWithAliasAppend(a[1..], b, alias);
    } else {
      assert a + b == b;
    }
  }

  /** Aliases equal up to letter case find the same handler. */
  lemma AliasCaseInsensitive(hs: seq<Handler>, a: string, b: string)
    requires EqualsIgnoreCase(a, b)
    ensures FirstWithAlias(hs, a) == FirstWithAlias(hs, b)
  {
    forall h: Handler ensures HasAlias(h, a) <==> HasAlias(h, b) {
      if HasAlias(h, a) {
        var k :| 0 <= k < |h.aliases| && EqualsIgnoreCase(h.aliases[k], a);
        EqualsIgnoreCaseTransitive(h.aliases[k], a, b);
      }
      if HasAlias(h, b) {
        var k :| 0 <= k < |h.aliases| && EqualsIgnoreCase(h.aliases[k], b);
        EqualsIgnoreCaseSymmetric(a, b);
        EqualsIgnoreCaseTransitive(h.aliases[k], b, a);
      }
    }
    FirstSame(hs, a, b);
  }

  lemma {:induction false} FirstSame(hs: seq<Handler>, a: string, b: string)
    requires forall h: Handler :: HasAlias(h, a) <==> HasAlias(h, b)
    ensures FirstWithAlias(hs, a) == FirstWithAlias(hs, b)
  {
    if |hs| > 0 {
      FirstSame(hs[1..], a, b);
    }
  }

  /** findCommandClass: the first class, in insertion order, whose list holds h. */
  function OwnerOf(classes: seq<ClassId>, commands: map<ClassId, seq<Handler>>, h: Handler): (r: Option<ClassId>)
    ensures r.Some? ==> r.value in classes && h in HandlersOf(commands, r.value)
    ensures r.None? <==> forall k :: 0 <= k < |classes| ==> h !in HandlersOf(commands, classes[k])
  {
    if |classes| == 0 then None
    else if h in HandlersOf(commands, classes[0]) then Some(classes[0])
    else
      var r := OwnerOf(classes[1..], commands, h);
      assert forall k :: 1 <= k < |classes| ==> classes[k] == classes[1..][k - 1];
      r
  }

  /** Every handler the registry lists has an owner. */
  lemma {:induction false} FlattenedHasOwner(classes: seq<ClassId>, commands: map<ClassId, seq<Handler>>, h: Handler)
    requires h in Flatten(classes, commands)
    ensures OwnerOf(classes, commands, h).Some?
  {
    var n := |classes|;
    var last := classes[n - 1];
    if h in HandlersOf(commands, last) {
      assert classes[n - 1] == last;
    } else {
      FlattenedHasOwner(classes[..n - 1], commands, h);
      var c := OwnerOf(classes[..n - 1], commands, h).value;
      var k :| 0 <= k < n - 1 && classes[..n - 1][k] == c;
      assert classes[k] == c;
    }
  }

  /** The outcome of pairFromName: the class and handler, or the reply text. */
  datatype Lookup = Found(cls: ClassId, handler: Handler) | Missing(message: string)

  function LookupOf(classes: seq<ClassId>, commands: map<ClassId, seq<Handler>>, command: string): (r: Lookup)
    ensures r.Found? ==> Some(r.handler) == FirstWithAlias(Flatten(classes, commands), command)
    ensures r.Found? ==> r.cls in classes && r.handler in HandlersOf(commands, r.cls)
    ensures FirstWithAlias(Flatten(classes, commands), command).None? ==>
              r == Missing("Function for command " + command + " not found.")
  {
    match FirstWithAlias(Flatten(classes, commands), command)
    case None => Missing("Function for command " + command + " not found.")
    case Some(h) =>
      match OwnerOf(classes, commands, h)
      case None => Missing("Class for function " + h.name + " [" + command + "] not found.")
      case Some(c) => Found(c, h)
  }

  /** A found alias always has its class: the "Class for function" reply cannot occur,
      and the handler found is the first carrying the alias. */
  lemma LookupFindsOwner(classes: seq<ClassId>, commands: map<ClassId, seq<Handler>>, command: string)
    ensures var hs := Flatten(classes, commands);
      && (LookupOf(classes, commands, command).Missing? <==> FirstWithAlias(hs, command).None?)
      && (LookupOf(classes, commands, command).Missing? ==>
            LookupOf(classes, commands, command).message == "Function for command " + command + " not found.")
      && (LookupOf(classes, commands, command).Found? ==>
            Some(LookupOf(classes, commands, command).handler) == FirstWithAlias(hs, command) &&
            LookupOf(classes, commands, command).cls in classes)
  {
    var hs := Flatten(classes, commands);
    var f := FirstWithAlias(hs, command);
    if f.Some? {
      FlattenedHasOwner(classes, commands, f.value);
    }
  }

  // ---- usage ----

  /** The text usage prints for one parameter. */
  function ParamName(p: Param): string {
    if p.ty.Opt? then "Optional<" + SentenceForm(Name(KindType(p.ty.kind))) + ">" else KotlinName(p.ty.kind)
  }

  /** An Optional<k> parameter is named after k's Kotlin type. */
  lemma OptionalParamName(k: Kind)
    ensures ParamName(Param(Opt(k), None, None)) == "Optional<" + KotlinName(k) + ">"
  {
    SentenceFormOfNames(k);
  }

  /** The parameter names, in order. */
  function ParamNames(ps: seq<Param>): (r: seq<string>)
    ensures |r| == |ps| && forall k :: 0 <= k < |ps| ==> r[k] == ParamName(ps[k])
  {
    seq(|ps|, k requires 0 <= k < |ps| => ParamName(ps[k]))
  }

  /** usage(func): the parameter names joined by ", " and closed by "."; on a handler
      without parameters the tail edit replace(-2, 0, ".") fails. */
  function UsageOf(ps: seq<Param>): (r: Result<string, Fault>)
    ensures r.Err? <==> |ps| == 0
    ensures r.Err? ==> r.error == RangeFault(-2, 0)
    ensures r.Ok? ==> |r.value| > 0 && r.value[|r.value| - 1] == '.'
    ensures |ps| == 1 ==> r == Ok(ParamName(ps[0]) + ".")
  {
    if |ps| == 0 then Err(RangeFault(-2, 0)) else Ok(Join(ParamNames(ps), ", ") + ".")
  }

  /** What the builder holds after appending name + ", " for each name. */
  function Appended(names: seq<string>): (r: string)
    ensures |names| > 0 ==> |r| >= 2
  {
    if |names| == 0 then "" else Appended(names[..|names| - 1]) + names[|names| - 1] + ", "
  }

  /** Cutting the last ", " off the builder leaves the names joined by ", ". */
  lemma {:induction false} AppendedJoin(names: seq<string>)
    requires |names| > 0
    ensures Appended(names)[..|Appended(names)| - 2] == Join(names, ", ")
  {
    var n := |names|;
    if n == 1 {
      assert Appended(names) == "" + names[0] + ", ";
    } else {
      var init := names[..n - 1];
      AppendedJoin(init);
      JoinSnoc(init, names[n - 1], ", ");
      var a := Appended(init);
      assert Appended(names) == a + names[n - 1] + ", ";
      assert a == a[..|a| - 2] + ", ";
      assert Appended(names)[..|Appended(names)| - 2] == a[..|a| - 2] + ", " + names[n - 1];
      assert init + [names[n - 1]] == names;
    }
  }

  lemma {:induction false} JoinSnoc(parts: seq<string>, x: string, sep: string)
    requires |parts| > 0
    ensures Join(parts + [x], sep) == Join(parts, sep) + sep + x
  {
    if |parts| == 1 {
      assert (parts + [x])[1..] == [x];
    } else {
      assert (parts + [x])[1..] == parts[1..] + [x];
      JoinSnoc(parts[1..], x, sep);
    }
  }

  /** The handler from the demo program is used as Int, Optional<Int>. */
  lemma UsageExample()
    ensures UsageOf(DemoParams) == Ok("Int, Optional<Int>.")
  {
    OptionalParamName(Int);
    assert ParamName(DemoParams[0]) == "Int";
    assert ParamName(DemoParams[1]) == "Optional<Int>";
    assert ParamNames(DemoParams) == ["Int", "Optional<Int>"];
    assert Join(["Int", "Optional<Int>"], ", ") == "Int" + ", " + "Optional<Int>";
    assert |DemoParams| == 2;
    assert UsageOf(DemoParams) == Ok(Join(["Int", "Optional<Int>"], ", ") + ".");
    assert "Int" + ", " + "Optional<Int>" + "." == "Int, Optional<Int>.";
    assert ParamNames(DemoParams)[1..] == ["Optional<Int>"];
  }

  // ---- compile: args.toMap().values ----

  /** LinkedHashMap.put on an entry list with distinct tags: a present tag gets the new
      value where it stands; a new tag goes last. */
  function Put(m: seq<Arg>, a: Arg): seq<Arg> {
    if |m| == 0 then [a]
    else if m[0].tag == a.tag then [a] + m[1..]
    else [m[0]] + Put(m[1..], a)
  }

  /** args.toMap(): puts every pair in order. */
  function ToMap(args: seq<Arg>): seq<Arg> {
    if |args| == 0 then [] else Put(ToMap(args[..|args| - 1]), args[|args| - 1])
  }

  function Values(m: seq<Arg>): (r: seq<Value>)
    ensures |r| == |m| && forall k :: 0 <= k < |m| ==> r[k] == m[k].value
  {
    seq(|m|, k requires 0 <= k < |m| => m[k].value)
  }

  /** compile(args): the values of the map built from the tagged arguments. */
  function Compile(args: seq<Arg>): (r: seq<Value>)
    ensures |r| <= |args| && (|args| > 0 ==> |r| > 0)
  {
    ToMapLength(args);
    Values(ToMap(args))
  }

  /** toMap has at most one entry per pair, and at least one when there is a pair. */
  lemma {:induction false} ToMapLength(args: seq<Arg>)
    ensures |ToMap(args)| <= |args| && (|args| > 0 ==> |ToMap(args)| > 0)
  {
    if |args| > 0 {
      ToMapLength(args[..|args| - 1]);
      PutLength(ToMap(args[..|args| - 1]), args[|args| - 1]);
    }
  }

  /** Put keeps the entry count or adds one entry. */
  lemma {:induction false} PutLength(m: seq<Arg>, a: Arg)
    ensures |Put(m, a)| == |m| || |Put(m, a)| == |m| + 1
    ensures |Put(m, a)| > 0
  {
    if |m| > 0 && m[0].tag != a.tag {
      PutLength(m[1..], a);
    }
  }

  // The reference meaning of toMap().values.

  function Tags(args: seq<Arg>): (r: seq<string>)
    ensures |r| == |args| && forall k :: 0 <= k < |args| ==> r[k] == args[k].tag
  {
    seq(|args|, k requires 0 <= k < |args| => args[k].tag)
  }

  /** The tags, each once, in the order they first occur. */
  function DistinctTags(args: seq<Arg>): seq<string> {
    if |args| == 0 then []
    else
      var d := DistinctTags(args[..|args| - 1]);
      if args[|args| - 1].tag in d then d else d + [args[|args| - 1].tag]
  }

  /** The value of the last pair carrying tag t. */
  function LastValue(args: seq<Arg>, t: string): Value
    requires t in Tags(args)
  {
    var n := |args|;
    if args[n - 1].tag == t then args[n - 1].value
    else
      assert t in Tags(args[..n - 1]) by {
        var k :| 0 <= k < n && Tags(args)[k] == t;
        assert Tags(args[..n - 1])[k] == t;
      }
      LastValue(args[..n - 1], t)
  }

  predicate Distinct(ts: seq<string>) {
    forall i, j :: 0 <= i < j < |ts| ==> ts[i] != ts[j]
  }

  lemma {:induction false} DistinctTagsFacts(args: seq<Arg>)
    ensures Distinct(DistinctTags(args))
    ensures forall t :: t in DistinctTags(args) <==> t in Tags(args)
  {
    if |args| > 0 {
      var n := |args|;
      DistinctTagsFacts(args[..n - 1]);
      forall t ensures t in Tags(args) <==> t in Tags(args[..n - 1]) || t == args[n - 1].tag {
        if t in Tags(args) {
          var k :| 0 <= k < n && Tags(args)[k] == t;
          if k < n - 1 { assert Tags(args[..n - 1])[k] == t; }
        }
        if t in Tags(args[..n - 1]) {
          var k :| 0 <= k < n - 1 && Tags(args[..n - 1])[k] == t;
          assert Tags(args)[k] == t;
        }
        if t == args[n - 1].tag { assert Tags(args)[n - 1] == t; }
      }
    }
  }

  /** The entries toMap produces: each tag once, in first-occurrence order, with the value
      of its last occurrence. */
  function Reference(args: seq<Arg>): (r: seq<Arg>)
  {
    DistinctTagsFacts(args);
    var d := DistinctTags(args);
    seq(|d|, k requires 0 <= k < |d| => Arg(d[k], LastValue(args, d[k])))
  }

  /** toMap agrees with the reference meaning. */
  lemma {:induction false} ToMapIsReference(args: seq<Arg>)
    ensures ToMap(args) == Reference(args)
  {
    if |args| > 0 {
      var n := |args|;
      var init := args[..n - 1];
      var a := args[n - 1];
      ToMapIsReference(init);
      DistinctTagsFacts(init);
      DistinctTagsFacts(args);
      var m := Reference(init);
      var d := DistinctTags(init);
      assert a.tag in Tags(args) by { assert Tags(args)[n - 1] == a.tag; }
      forall t | t in Tags(init)
        ensures t in Tags(args) && LastValue(args, t) == (if t == a.tag then a.value else LastValue(init, t))
      {
        var k :| 0 <= k < n - 1 && Tags(init)[k] == t;
        assert Tags(args)[k] == t;
      }
      PutReplaces(m, a, d);
      var r := Reference(args);
      if a.tag in d {
        assert DistinctTags(args) == d;
        forall k | 0 <= k < |d| ensures Put(m, a)[k] == r[k] {
          assert d[k] in Tags(init);
        }
      } else {
        assert DistinctTags(args) == d + [a.tag];
        forall k | 0 <= k < |d| ensures Put(m, a)[k] == r[k] {
          assert d[k] in Tags(init);
        }
        assert Put(m, a)[|d|] == r[|d|];
      }
    }
  }

  /** Put on entries whose tags are d: replaces the value under a's tag, or appends a. */
  lemma {:induction false} PutReplaces(m: seq<Arg>, a: Arg, d: seq<string>)
    requires |m| == |d| && Distinct(d) && forall k :: 0 <= k < |m| ==> m[k].tag == d[k]
    ensures a.tag in d ==> Put(m, a) == seq(|m|, k requires 0 <= k < |m| => if d[k] == a.tag then a else m[k])
    ensures a.tag !in d ==> Put(m, a) == m + [a]
  {
    if |m| > 0 {
      PutReplaces(m[1..], a, d[1..]);
      if d[0] == a.tag {
        assert a.tag !in d[1..] by {
          forall k | 0 <= k < |d[1..]| ensures d[1..][k] != a.tag { assert d[k + 1] == d[1..][k]; }
        }
      }
    }
  }

  /** Put of a tag no entry has appends the pair. */
  lemma {:induction false} PutFresh(m: seq<Arg>, a: Arg)
    requires forall k :: 0 <= k < |m| ==> m[k].tag != a.tag
    ensures Put(m, a) == m + [a]
  {
    if |m| > 0 {
      PutFresh(m[1..], a);
      assert m == [m[0]] + m[1..];
    }
  }

  /** With pairwise different tags, toMap keeps every pair in order. */
  lemma {:induction false} ToMapDistinct(args: seq<Arg>)
    requires Distinct(Tags(args))
    ensures ToMap(args) == args
  {
    if |args| > 0 {
      var n := |args|;
      var init := args[..n - 1];
      assert Distinct(Tags(init)) by {
        forall i, j | 0 <= i < j < |init| ensures Tags(init)[i] != Tags(init)[j] {
          assert Tags(args)[i] != Tags(args)[j];
        }
      }
      ToMapDistinct(init);
      forall k | 0 <= k < |init| ensures init[k].tag != args[n - 1].tag {
        assert Tags(args)[k] != Tags(args)[n - 1];
      }
      PutFresh(init, args[n - 1]);
      assert init + [args[n - 1]] == args;
    }
  }

  /** With pairwise different tags, compile passes every value in order. */
  lemma CompileDistinct(args: seq<Arg>)
    requires Distinct(Tags(args))
    ensures Compile(args) == Values(args)
  {
    ToMapDistinct(args);
  }

  /** Two identical tokens for two Int parameters collapse into one argument, and so do
      two omitted optionals. */
  lemma CompileCollapses()
    ensures Compile([Arg("5 [Int]", Given(IntVal(5))), Arg("5 [Int]", Given(IntVal(5)))]) == [Given(IntVal(5))]
    ensures Compile([Arg("1 [Int]", Given(IntVal(1))), Arg("Optional<>", Empty), Arg("Optional<>", Empty)]) ==
              [Given(IntVal(1)), Empty]
  {
    var a := Arg("5 [Int]", Given(IntVal(5)));
    assert [a, a][..1] == [a];
    assert ToMap([a]) == [a];
    var b := Arg("1 [Int]", Given(IntVal(1)));
    var e := Arg("Optional<>", Empty);
    assert [b, e, e][..2] == [b, e];
    assert [b, e][..1] == [b];
    assert ToMap([b]) == [b];
    assert b.tag != e.tag by { assert b.tag[0] != e.tag[0]; }
    assert Put([b], e) == [b] + Put([], e);
    assert ToMap([b, e]) == [b, e];
    assert Put([b, e], e) == [b] + Put([e], e);
  }

  // ---- execute ----

  /** The reply when the input lacks the catalyst. */
  function NotACommand(catalyst: string): string {
    "Supplied command does not start with catalyst, \"" + catalyst + "\"."
  }

  const NullMessage := "Exception Caught: Null Message!"

  /** The `javaType.typeName` of a parameter type. */
  function JavaTypeName(t: ParamType): (r: string)
    ensures t.Opt? ==> StartsWith(r, "java.util.Optional<java.lang.")
    ensures t.Plain? && t.kind != Str ==> r == Lower(KotlinName(t.kind))
    ensures t.kind == Str ==> r == (if t.Opt? then "java.util.Optional<java.lang.String>" else "java.lang.String")
  {
    var boxed := match t.kind
      case Bool => "java.lang.Boolean"
      case Dbl => "java.lang.Double"
      case Int => "java.lang.Integer"
      case Str => "java.lang.String";
    if t.Opt? then "java.util.Optional<" + boxed + ">"
    else match t.kind
      case Bool => "boolean"
      case Dbl => "double"
      case Int => "int"
      case Str => "java.lang.String"
  }

  const IvpHead := "[IVP]: Invalid Parameters! Was supplied \""

  /** InvalidParametersException.message: quotes the supplied token, then its classification,
      and ends with the Java type the parameter expected. */
  function InvalidParametersMessage(provided: string, expected: ParamType): (r: string)
    ensures StartsWith(r, IvpHead + provided + "\" [String]{" + Name(TypeOf(provided)) + "}, expected ")
  {
    IvpHead + provided + "\" [String]{" + Name(TypeOf(provided)) + "}, expected " + JavaTypeName(expected)
  }

  /** The reply for a caught exception: its message, or the null-message text. Messages the
      JVM composes (index faults, number formats, clamp reports) come from `describe`. */
  function FaultReply(f: Fault, describe: Fault -> string): string {
    match f
    case InvalidParameters(p, t) => InvalidParametersMessage(p, t)
    case InvalidInstance(c) => "Class " + c.simpleName + " has no found instance!"
    case Raised(m) => m.GetOr(NullMessage)
    case _ => describe(f)
  }

  /** The reply for an arity mismatch. */
  function MismatchReply(usage: string, message: string): string
    requires StartsWith(message, MismatchHead)
  {
    MismatchHasColon(message);
    "Argument Mismatch: Required = \"" + usage + "\", received = \"" + Trim(Split(message, ':')[1]) + "\"    "
  }

  /** The replies to the exceptions execute catches: the two the library throws itself
      carry their own text, a null message becomes the fixed text, and a JVM one is described. */
  lemma FaultReplyExamples(describe: Fault -> string)
    ensures FaultReply(InvalidInstance(ClassId("Test")), describe) == "Class " + "Test" + " has no found instance!"
    ensures FaultReply(Raised(None), describe) == "Exception Caught: Null Message!"
    ensures FaultReply(Raised(Some("boom")), describe) == "boom"
    ensures FaultReply(NumberFormat("-"), describe) == describe(NumberFormat("-"))
  {
  }

  /** The mismatch reply quotes the usage line and, as "received", the report after its
      "[a|m]:" head up to the next ':', trimmed; a ':' inside a token cuts the report short. */
  lemma MismatchReceived(usage: string, m: string)
    requires StartsWith(m, MismatchHead)
    ensures var body := m[|MismatchHead| - 1..];
      MismatchReply(usage, m) ==
        "Argument Mismatch: Required = \"" + usage + "\", received = \"" +
        Trim(if ':' in body then body[..IndexOf(body, ':')] else body) + "\"    "
  {
    assert m[..5] == MismatchHead[..5];
    assert ':' !in m[..5];
    assert m[5] == ':';
    assert IndexOf(m, ':') == 5;
  }

  /** invoke: looks the instance up, compiles the arguments and calls the handler; a
      handler whose return-type test fails contributes "". */
  function InvokeOf(instances: map<ClassId, Instance>, c: ClassId, h: Handler, pairs: seq<Arg>,
                    call: (Instance, Handler, seq<Value>) -> Outcome): (r: Result<string, Fault>)
    ensures c !in instances ==> r == Err(InvalidInstance(c))
    ensures r.Ok? && !h.returnsString ==> r.value == ""
  {
    if c !in instances then Err(InvalidInstance(c))
    else match call(instances[c], h, Compile(pairs))
      case Threw(m) => Err(Raised(m))
      case Returned(t) => Ok(if h.returnsString then t else "")
  }

  /** The alias in the input: its first ' '-separated piece without the catalyst's length
      of leading characters, or an index fault when that piece is shorter. */
  function CommandWord(input: string, catalyst: string): (r: Result<string, Fault>)
    ensures r.Ok? ==> |catalyst| <= |Split(input, ' ')[0]| &&
                      Split(input, ' ')[0] == Split(input, ' ')[0][..|catalyst|] + r.value
    ensures r.Ok? ==> ' ' !in r.value
    ensures r.Err? ==> r.error == RangeFault(|catalyst|, |Split(input, ' ')[0]|)
  {
    var first := Split(input, ' ')[0];
    if |first| < |catalyst| then Err(RangeFault(|catalyst|, |first|)) else Ok(first[|catalyst|..])
  }

  /** A catalyst without a space always fits in the first piece of an input it starts. */
  lemma CommandWordFits(input: string, catalyst: string)
    requires StartsWithIgnoreCase(input, catalyst) && ' ' !in catalyst
    ensures CommandWord(input, catalyst).Ok?
  {
    forall i | 0 <= i < |catalyst| ensures input[i] != ' ' {
      assert UpperChar(input[..|catalyst|][i]) == UpperChar(catalyst[i]);
      assert catalyst[i] in catalyst;
    }
  }

  /** execute(input) on a registry: the text handed back to the caller. */
  function ExecuteOf(catalyst: string, classes: seq<ClassId>, commands: map<ClassId, seq<Handler>>,
                     instances: map<ClassId, Instance>, input: string,
                     call: (Instance, Handler, seq<Value>) -> Outcome, describe: Fault -> string): (r: string)
    ensures !StartsWithIgnoreCase(input, catalyst) ==> r == NotACommand(catalyst)
    ensures StartsWithIgnoreCase(input, catalyst) && CommandWord(input, catalyst).Err? ==>
              r == describe(RangeFault(|catalyst|, |Split(input, ' ')[0]|))
  {
    if !StartsWithIgnoreCase(input, catalyst) then NotACommand(catalyst)
    else
      match CommandWord(input, catalyst)
      case Err(f) => FaultReply(f, describe)
      case Ok(command) =>
        match LookupOf(classes, commands, command)
        case Missing(message) => message
        case Found(c, h) => ParsedReply(Parse(input, |catalyst|, h.params), instances, c, h, call, describe)
  }

  /** The reply once the handler is found and its arguments parsed. */
  function ParsedReply(parsed: Result<Parsed, Fault>, instances: map<ClassId, Instance>, c: ClassId, h: Handler,
                       call: (Instance, Handler, seq<Value>) -> Outcome, describe: Fault -> string): string
    requires parsed.Ok? && parsed.value.Mismatch? ==> StartsWith(parsed.value.message, MismatchHead)
  {
    match parsed
    case Err(f) => FaultReply(f, describe)
    case Ok(Mismatch(m)) =>
      (match UsageOf(h.params)
       case Err(f) => FaultReply(f, describe)
       case Ok(u) => MismatchReply(u, m))
    case Ok(Success(pairs)) => InvokeReply(InvokeOf(instances, c, h, pairs, call), describe)
  }

  /** The reply for the outcome of invoke: a blank result becomes "". */
  function InvokeReply(invoked: Result<string, Fault>, describe: Fault -> string): (r: string)
    ensures invoked.Ok? && IsBlank(invoked.value) ==> r == ""
    ensures invoked.Ok? && !IsBlank(invoked.value) ==> r == invoked.value
  {
    match invoked
    case Err(f) => FaultReply(f, describe)
    case Ok(ret) =>
      TrimIdempotentBlank(ret);
      if IsBlank(Trim(ret)) then "" else ret
  }

  /** A mismatch message always has a second ':'-separated piece. */
  lemma MismatchHasColon(m: string)
    requires StartsWith(m, MismatchHead)
    ensures |Split(m, ':')| >= 2
  {
    assert m[5] == ':';
  }

  /** What execute replies, case by case, once the input starts with the catalyst and
      its alias has been read. */
  lemma ExecuteReplies(catalyst: string, classes: seq<ClassId>, commands: map<ClassId, seq<Handler>>,
                       instances: map<ClassId, Instance>, input: string,
                       call: (Instance, Handler, seq<Value>) -> Outcome, describe: Fault -> string)
    requires StartsWithIgnoreCase(input, catalyst) && CommandWord(input, catalyst).Ok?
    ensures var out := ExecuteOf(catalyst, classes, commands, instances, input, call, describe);
            var alias := CommandWord(input, catalyst).value;
            var found := FirstWithAlias(Flatten(classes, commands), alias);
      && (found.None? ==> out == "Function for command " + alias + " not found.")
      && (found.Some? ==> OwnerOf(classes, commands, found.value).Some?)
      && (found.Some? ==>
            out == ParsedReply(Parse(input, |catalyst|, found.value.params), instances,
                               OwnerOf(classes, commands, found.value).value, found.value, call, describe))
  {
    var alias := CommandWord(input, catalyst).value;
    LookupFindsOwner(classes, commands, alias);
  }

  /** The reply to parsed arguments: an exception's reply; for a mismatch the usage line and
      the report; otherwise the call's reply. */
  lemma ParsedReplies(parsed: Result<Parsed, Fault>, instances: map<ClassId, Instance>, c: ClassId, h: Handler,
                      call: (Instance, Handler, seq<Value>) -> Outcome, describe: Fault -> string)
    requires parsed.Ok? && parsed.value.Mismatch? ==> StartsWith(parsed.value.message, MismatchHead)
    ensures var out := ParsedReply(parsed, instances, c, h, call, describe);
      && (parsed.Err? ==> out == FaultReply(parsed.error, describe))
      && (parsed.Ok? && parsed.value.Mismatch? && |h.params| > 0 ==>
            out == MismatchReply(Join(ParamNames(h.params), ", ") + ".", parsed.value.message))
      && (parsed.Ok? && parsed.value.Mismatch? && |h.params| == 0 ==> out == describe(RangeFault(-2, 0)))
      && (parsed.Ok? && parsed.value.Success? && c !in instances ==>
            out == "Class " + c.simpleName + " has no found instance!")
      && (parsed.Ok? && parsed.value.Success? && c in instances ==>
            match call(instances[c], h, Compile(parsed.value.pairs))
            case Returned(t) => out == if h.returnsString && !IsBlank(t) then t else ""
            case Threw(m) => out == m.GetOr(NullMessage))
  {
    if parsed.Ok? && parsed.value.Success? && c in instances {
      match call(instances[c], h, Compile(parsed.value.pairs))
      case Returned(t) =>
        TrimBlank("");
      case Threw(m) =>
    }
  }

  /** Trimming does not change whether the text is blank. */
  lemma TrimIdempotentBlank(t: string)
    ensures IsBlank(Trim(t)) <==> IsBlank(t)
  {
    TrimBlank(t);
    TrimBlank(Trim(t));
  }
}
