/** The CommandManager class: the registry of handler lists and instances, and the
    methods that look handlers up and execute input lines against it. */
module Manager {
  import opened Types
  import opened Text
  import opened Coercion
  import opened Dispatch

  /** containsIgnoreCase, the local helper of methodFromName. */
  method ContainsIgnoreCase(aliases: seq<string>, look: string) returns (b: bool)
    ensures b <==> exists k :: 0 <= k < |aliases| && EqualsIgnoreCase(aliases[k], look)
  {
    for i := 0 to |aliases|
      invariant forall k :: 0 <= k < i ==> !EqualsIgnoreCase(aliases[k], look)
    {
      if EqualsIgnoreCase(aliases[i], look) {
        return true;
      }
    }
    return false;
  }

  /** Flattening a prefix of one more class appends that class's list. */
  lemma FlattenStep(classes: seq<ClassId>, commands: map<ClassId, seq<Handler>>, i: nat)
    requires i < |classes|
    ensures Flatten(classes[..i + 1], commands) == Flatten(classes[..i], commands) + HandlersOf(commands, classes[i])
  {
    assert classes[..i + 1][..i] == classes[..i];
  }

  /** The registered handlers are those of the first i classes followed by the rest. */
  lemma {:induction false} FlattenSplit(classes: seq<ClassId>, commands: map<ClassId, seq<Handler>>, i: nat)
    requires i <= |classes|
    ensures Flatten(classes, commands) == Flatten(classes[..i], commands) + Flatten(classes[i..], commands)
    decreases |classes|
  {
    if i < |classes| {
      var n := |classes|;
      FlattenSplit(classes[..n - 1], commands, i);
      assert classes[..n - 1][..i] == classes[..i];
      assert classes[i..][..n - i - 1] == classes[..n - 1][i..];
    } else {
      assert classes[..i] == classes;
    }
  }

  /** The first handler of a list with the alias is at the first index carrying it. */
  lemma FirstAt(hs: seq<Handler>, alias: string, j: nat)
    requires j < |hs| && HasAlias(hs[j], alias) && forall k :: 0 <= k < j ==> !HasAlias(hs[k], alias)
    ensures FirstWithAlias(hs, alias) == Some(hs[j])
  {
  }

  /** The first handler carrying the alias in the first class list that has one: none in
      the lists before class i, none before index j of class i's list. */
  lemma FoundAt(classes: seq<ClassId>, commands: map<ClassId, seq<Handler>>, alias: string, i: nat, j: nat)
    requires i < |classes| && FirstWithAlias(Flatten(classes[..i], commands), alias) == None
    requires var hs := HandlersOf(commands, classes[i]);
      j < |hs| && HasAlias(hs[j], alias) && forall k :: 0 <= k < j ==> !HasAlias(hs[k], alias)
    ensures FirstWithAlias(Flatten(classes, commands), alias) == Some(HandlersOf(commands, classes[i])[j])
  {
    var list := HandlersOf(commands, classes[i]);
    FlattenStep(classes, commands, i);
    FirstAt(list, alias, j);
    FlattenSplit(classes, commands, i + 1);
    FirstWithAliasAppend(Flatten(classes[..i], commands), list, alias);
    FirstWithAliasAppend(Flatten(classes[..i + 1], commands), Flatten(classes[i + 1..], commands), alias);
  }

  /** A class list with no handler carrying the alias extends the alias-free prefix. */
  lemma NoneThrough(classes: seq<ClassId>, commands: map<ClassId, seq<Handler>>, alias: string, i: nat)
    requires i < |classes| && FirstWithAlias(Flatten(classes[..i], commands), alias) == None
    requires var hs := HandlersOf(commands, classes[i]);
      forall k :: 0 <= k < |hs| ==> !HasAlias(hs[k], alias)
    ensures FirstWithAlias(Flatten(classes[..i + 1], commands), alias) == None
  {
    FlattenStep(classes, commands, i);
    FirstWithAliasAppend(Flatten(classes[..i], commands), HandlersOf(commands, classes[i]), alias);
  }

  class CommandManager {
    /** The prefix every command line starts with. */
    const catalyst: string
    /** The key order shared by both LinkedHashMaps: classes in first-registration order. */
    var classes: seq<ClassId>
    /** commands: each registered class's @Command functions. */
    var commands: map<ClassId, seq<Handler>>
    /** instances: the object first registered for each class. */
    var instances: map<ClassId, Instance>

    ghost predicate Valid()
      reads this
    {
      && (forall i, j :: 0 <= i < j < |classes| ==> classes[i] != classes[j])
      && (forall c :: c in commands <==> c in classes)
      && (forall c :: c in instances <==> c in classes)
      && (forall c :: c in instances ==> instances[c].cls == c)
    }

    constructor(catalyst: string)
      ensures Valid()
      ensures this.catalyst == catalyst && classes == [] && commands == map[] && instances == map[]
    {
      this.catalyst := catalyst;
      classes := [];
      commands := map[];
      instances := map[];
    }

    /** The secondary constructor: the catalyst ".". */
    constructor Default()
      ensures Valid()
      ensures catalyst == "." && classes == [] && commands == map[] && instances == map[]
    {
      catalyst := ".";
      classes := [];
      commands := map[];
      instances := map[];
    }

    /** register(obj): stores obj only if its class has no instance yet, and (re)places the
        class's handler list; a class keeps the position of its first registration. */
    method Register(obj: Instance, annotated: seq<Handler>)
      requires Valid()
      modifies this
      ensures Valid()
      ensures classes == if obj.cls in old(classes) then old(classes) else old(classes) + [obj.cls]
      ensures instances == if obj.cls in old(instances) then old(instances) else old(instances)[obj.cls := obj]
      ensures commands == old(commands)[obj.cls := annotated]
    {
      var clazz := obj.cls;
      if clazz !in instances {
        instances := instances[clazz := obj];
      }
      if clazz !in classes {
        classes := classes + [clazz];
      }
      commands := commands[clazz := annotated];
    }

    /** methodFromName(alias): the first handler, class by class and then in list order,
        whose aliases contain `alias` ignoring case. */
    method MethodFromName(alias: string) returns (r: Option<Handler>)
      ensures r == FirstWithAlias(Flatten(classes, commands), alias)
    {
      for i := 0 to |classes|
        invariant FirstWithAlias(Flatten(classes[..i], commands), alias) == None
      {
        var list := HandlersOf(commands, classes[i]);
        for j := 0 to |list|
          invariant forall k :: 0 <= k < j ==> !HasAlias(list[k], alias)
        {
          var found := ContainsIgnoreCase(list[j].aliases, alias);
          if found {
            FoundAt(classes, commands, alias, i, j);
            return Some(list[j]);
          }
        }
        NoneThrough(classes, commands, alias, i);
      }
      assert classes[..|classes|] == classes;
      return None;
    }

    /** findCommandClass(func): the first class whose handler list holds func. */
    method FindCommandClass(func: Handler) returns (r: Option<ClassId>)
      ensures r == OwnerOf(classes, commands, func)
    {
      for i := 0 to |classes|
        invariant forall k :: 0 <= k < i ==> func !in HandlersOf(commands, classes[k])
      {
        var funcs := HandlersOf(commands, classes[i]);
        for j := 0 to |funcs|
          invariant func !in funcs[..j]
        {
          if funcs[j] == func {
            OwnerIsFirst(classes, commands, func, i);
            return Some(classes[i]);
          }
        }
        assert funcs[..|funcs|] == funcs;
      }
      return None;
    }

    /** pairFromName(command): the handler for the alias and its class, or the reply for
        an alias no handler has. */
    method PairFromName(command: string) returns (r: Lookup)
      ensures r == LookupOf(classes, commands, command)
    {
      var func := MethodFromName(command);
      if func.Some? {
        var clazz := FindCommandClass(func.value);
        if clazz.Some? {
          return Found(clazz.value, func.value);
        } else {
          return Missing("Class for function " + func.value.name + " [" + command + "] not found.");
        }
      } else {
        return Missing("Function for command " + command + " not found.");
      }
    }

    /** usage(func): appends each parameter's name and ", ", then replaces the last two
        characters by "."; the replace fails on an empty builder. */
    method Usage(params: seq<Param>) returns (r: Result<string, Fault>)
      ensures r == UsageOf(params)
    {
      var builder := "";
      var names := ParamNames(params);
      for i := 0 to |params|
        invariant builder == Appended(names[..i])
      {
        assert names[..i + 1][..i] == names[..i];
        builder := builder + ParamName(params[i]) + ", ";
      }
      assert names[..|params|] == names;
      if |builder| < 2 {
        return Err(RangeFault(|builder| - 2, |builder|));
      }
      AppendedJoin(names);
      return Ok(builder[..|builder| - 2] + ".");
    }

    /** invoke(methodData, args): the instance of the class, the compiled arguments, and
        the handler's result when it returns String, else "". */
    method Invoke(clazz: ClassId, handler: Handler, args: seq<Arg>,
                  call: (Instance, Handler, seq<Value>) -> Outcome) returns (r: Result<string, Fault>)
      ensures r == InvokeOf(instances, clazz, handler, args, call)
    {
      if clazz !in instances {
        return Err(InvalidInstance(clazz));
      }
      var inst := instances[clazz];
      var compiledArgs := Compile(args);
      var outcome := call(inst, handler, compiledArgs);
      if outcome.Threw? {
        return Err(Raised(outcome.message));
      }
      if handler.returnsString {
        return Ok(outcome.text);
      }
      return Ok("");
    }

    /** execute(input): the reply text for one input line. Each exception the steps raise
        is caught and turned into its reply. */
    method Execute(input: string, call: (Instance, Handler, seq<Value>) -> Outcome,
                   describe: Fault -> string) returns (out: string)
      ensures out == ExecuteOf(catalyst, classes, commands, instances, input, call, describe)
      ensures !StartsWithIgnoreCase(input, catalyst) ==> out == NotACommand(catalyst)
    {
      if !StartsWithIgnoreCase(input, catalyst) {
        return NotACommand(catalyst);
      }
      var first := Split(input, ' ')[0];
      if |first| < |catalyst| {
        return FaultReply(RangeFault(|catalyst|, |first|), describe);
      }
      var command := first[|catalyst|..];
      var commandPair := PairFromName(command);
      if commandPair.Missing? {
        return commandPair.message;
      }
      var func := commandPair.handler;
      var argPair := ParseArguments(input, catalyst, func.params);
      if argPair.Err? {
        return FaultReply(argPair.error, describe);
      }
      if argPair.value.Mismatch? {
        var usage := Usage(func.params);
        if usage.Err? {
          return FaultReply(usage.error, describe);
        }
        return MismatchReply(usage.value, argPair.value.message);
      }
      var ret := Invoke(commandPair.cls, func, argPair.value.pairs, call);
      if ret.Err? {
        return FaultReply(ret.error, describe);
      }
      return if IsBlank(Trim(ret.value)) then "" else ret.value;
    }
  }

  /** A class holding func, with none before it holding func, is the owner. */
  lemma OwnerIsFirst(classes: seq<ClassId>, commands: map<ClassId, seq<Handler>>, h: Handler, i: nat)
    requires i < |classes| && h in HandlersOf(commands, classes[i])
    requires forall k :: 0 <= k < i ==> h !in HandlersOf(commands, classes[k])
    ensures OwnerOf(classes, commands, h) == Some(classes[i])
    decreases i
  {
    if i > 0 {
      OwnerIsFirst(classes[1..], commands, h, i - 1);
    }
  }

  /** Registering keeps the first instance: registering a second object of the same class
      leaves the registry as the first registration made it. */
  method RegisterTwice(catalyst: string, a: Instance, b: Instance, hs: seq<Handler>)
    returns (m: CommandManager)
    requires a.cls == b.cls
    ensures m.Valid()
    ensures m.classes == [a.cls] && m.instances == map[a.cls := a] && m.commands == map[a.cls := hs]
  {
    m := new CommandManager(catalyst);
    m.Register(a, hs);
    m.Register(b, hs);
  }

  /** In a valid registry every class a lookup finds has an instance of that class, so
      execute never replies that a found class has no instance. */
  lemma ValidFindsInstance(m: CommandManager, command: string)
    requires m.Valid()
    ensures var l := LookupOf(m.classes, m.commands, command);
      l.Found? ==> l.cls in m.instances && m.instances[l.cls].cls == l.cls
  {
  }
}
