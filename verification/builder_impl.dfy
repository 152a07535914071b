/**
 * The builder implementation of lib/yargs/yargs-builder.impl.ts. The functions
 * of this module state what each step registers on the yargs instance (and the
 * error it throws, if any); the methods of YargsBuilderImpl perform the steps
 * on an Argv event log and are proved to append exactly that.
 */
module BuilderImpl {
  import opened Js
  import opened Yargs
  import Helpers

  // The descriptor labels of lib/types.ts.
  const CommandName := "name"
  const Descendants := "_children"
  const CommandOptions := "Arguments"
  const ElementLabel := "_"
  const ValidationGroups := "ArgumentGroups"

  /** What the builder throws. */
  datatype Error =
    | PositionalNotDefined(argument: string)
      /** `R.split(' ')` applied to a value without a `split` method */
    | NoSplitMethod
      /** `argumentsMap[argument]` when there is no Arguments node */
    | ReadOfUndefined(key: string)
    | CommandsNotFound(path: string)
    | CommandsMalformed(path: string)

  /** The events a step appends to the instance, and what it throws. */
  datatype Trace = Trace(events: seq<Event>, error: Option<Error>)

  // ---------------------------------------------------------------------------
  // Locating descendants

  /** `el[elementLabel] === kind` */
  predicate IsKind(el: Json, kind: string)
  {
    Get(el, ElementLabel) == Some(Str(kind))
  }

  /** No node before position `i` is of the kind, and the one at `i` is. */
  predicate FirstOfKind(descendants: seq<Json>, i: nat, kind: string)
    requires i < |descendants|
  {
    IsKind(descendants[i], kind) && forall k :: 0 <= k < i ==> !IsKind(descendants[k], kind)
  }

  /** `findDescendant(kind, descendants)`: the first node of that kind, if any. */
  function FindDescendant(descendant: string, descendants: seq<Json>): Option<Json>
  {
    if descendants == [] then None
    else if IsKind(descendants[0], descendant) then Some(descendants[0])
    else FindDescendant(descendant, descendants[1..])
  }

  // ---------------------------------------------------------------------------
  // The positional definition

  /** The positional tokens: `R.split(' ')(positionalStr)`, no tokens when undefined. */
  function PositionalTokens(positionalStr: Option<Json>): Result<seq<string>, Error>
  {
    match positionalStr
    case None => Success([])
    case Some(Str(s)) => Success(Split(s, ' '))
    case Some(_) => Failure(NoSplitMethod)
  }

  /** As written: `R.split(' ')` of an undefined `positional` throws as well. */
  function PositionalTokensAsWritten(positionalStr: Option<Json>): Result<seq<string>, Error>
  {
    match positionalStr
    case Some(Str(s)) => Success(Split(s, ' '))
    case _ => Failure(NoSplitMethod)
  }

  /** `R.defaultTo(false, R.prop('optional')(definition))`, read for truthiness. */
  predicate OptionalFlag(definition: Json)
  {
    match Get(definition, "optional")
    case None => false
    case Some(v) => Truthy(v)
  }

  /** The trimmed token: `[name]` for an optional argument, `<name>` otherwise. */
  function Marker(argument: string, definition: Json): string
  {
    if OptionalFlag(definition) then "[" + argument + "]" else "<" + argument + ">"
  }

  /** `positional(instance, argument, definition)`: registers only when the
      definition has an own key named like the argument. */
  function PositionalRegistration(argument: string, definition: Json): seq<Event>
  {
    match Get(definition, argument)
    case Some(d) => [Event.Positional(argument, d)]
    case None => []
  }

  /** The argument's definition is present and an object. */
  predicate Defined(argumentsMap: Option<Json>, argument: string)
  {
    argumentsMap.Some? && Get(argumentsMap.value, argument).Some? &&
    IsObject(Get(argumentsMap.value, argument).value)
  }

  /** The accumulated markers, the positional registrations made so far, and
      the error once one is thrown. */
  datatype Decoration = Decoration(markers: string, registered: seq<Event>, error: Option<Error>)

  /** One step of the reduce inside `positionalDef`. */
  function DecorateStep(acc: Decoration, argument: string, argumentsMap: Option<Json>): Decoration
  {
    if acc.error.Some? then acc
    else if argumentsMap.None? then acc.(error := Some(ReadOfUndefined(argument)))
    else
      match Get(argumentsMap.value, argument)
      case Some(definition) =>
        if IsObject(definition) then
          Decoration(acc.markers + Marker(argument, definition),
                     acc.registered + PositionalRegistration(argument, definition), None)
        else acc.(error := Some(PositionalNotDefined(argument)))
      case None => acc.(error := Some(PositionalNotDefined(argument)))
  }

  /** The reduce over the tokens, left to right. */
  function Decorate(tokens: seq<string>, argumentsMap: Option<Json>): Decoration
  {
    if tokens == [] then Decoration("", [], None)
    else DecorateStep(Decorate(tokens[..|tokens| - 1], argumentsMap), tokens[|tokens| - 1], argumentsMap)
  }

  /** Once a token throws, later tokens change nothing. */
  lemma {:induction false} DecorateErrorPersists(tokens: seq<string>, argumentsMap: Option<Json>, k: nat)
    requires k <= |tokens|
    requires Decorate(tokens[..k], argumentsMap).error.Some?
    ensures Decorate(tokens, argumentsMap) == Decorate(tokens[..k], argumentsMap)
    decreases |tokens| - k
  {
    if k < |tokens| {
      var init := tokens[..|tokens| - 1];
      assert init[..k] == tokens[..k];
      DecorateErrorPersists(init, argumentsMap, k);
    } else {
      assert tokens[..k] == tokens;
    }
  }

  /** One more token is one more step of the reduce. */
  lemma DecoratePrefix(tokens: seq<string>, argumentsMap: Option<Json>, i: nat)
    requires i < |tokens|
    ensures Decorate(tokens[..i + 1], argumentsMap) ==
            DecorateStep(Decorate(tokens[..i], argumentsMap), tokens[i], argumentsMap)
  {
    assert tokens[..i + 1][..i] == tokens[..i];
  }

  // ---------------------------------------------------------------------------
  // Options and validation groups

  /** `pickNonPositionalArguments`: the properties whose key is none of the
      space-separated tokens, values unchanged, order kept. */
  function PickNonPositionalArguments(props: seq<Prop>, positionalDef: string): (r: seq<Prop>)
    ensures forall p :: p in r <==> p in props && p.key !in Split(positionalDef, ' ')
  {
    DropKeys(props, Split(positionalDef, ' '))
  }

  function DropKeys(props: seq<Prop>, keys: seq<string>): (r: seq<Prop>)
    ensures |r| <= |props|
    ensures forall p :: p in r <==> p in props && p.key !in keys
  {
    if props == [] then []
    else
      var rest := DropKeys(props[1..], keys);
      assert forall p :: p in props <==> p == props[0] || p in props[1..];
      if props[0].key in keys then rest else [props[0]] + rest
  }

  /** What `handleOptions(yin, commandArgumentsObj, positionalDef)` registers. */
  function OptionsRegistration(commandArgumentsObj: Option<Json>, positionalDef: string): seq<Event>
  {
    match commandArgumentsObj
    case Some(node) =>
      if IsObject(node) then
        match Get(node, Descendants)
        case Some(Obj(_)) => [Event.Options(PickNonPositionalArguments(node.props, positionalDef))]
        case _ => []
      else []
    case None => []
  }

  /** `argumentRef.name` */
  function RefName(argumentRef: Json): Option<Json>
  {
    Get(argumentRef, "name")
  }

  /** `argumentRefA.name === argumentRefB.name` */
  predicate RefEquals(argumentRefA: Json, argumentRefB: Json)
  {
    StrictEquals(RefName(argumentRefA), RefName(argumentRefB))
  }

  predicate IsConstraintKind(validatorType: Option<Json>)
  {
    validatorType == Some(Str("Conflicts")) || validatorType == Some(Str("Implies"))
  }

  function PairEvent(validatorType: Option<Json>, pair: (Option<Json>, Option<Json>)): Event
  {
    if validatorType == Some(Str("Conflicts")) then Event.Conflicts(pair.0, pair.1)
    else Event.Implies(pair.0, pair.1)
  }

  /** The registrations of the pairs, in order. */
  function PairEvents(validatorType: Option<Json>, pairs: seq<(Option<Json>, Option<Json>)>): seq<Event>
  {
    if pairs == [] then []
    else PairEvents(validatorType, pairs[..|pairs| - 1]) + [PairEvent(validatorType, pairs[|pairs| - 1])]
  }

  lemma PairEventsPrefix(validatorType: Option<Json>, pairs: seq<(Option<Json>, Option<Json>)>, j: nat)
    requires j < |pairs|
    ensures PairEvents(validatorType, pairs[..j + 1]) ==
            PairEvents(validatorType, pairs[..j]) + [PairEvent(validatorType, pairs[j])]
  {
    assert pairs[..j + 1][..j] == pairs[..j];
  }

  /** The pairs of argument-ref names of a group's children, as
      `uniquePairs(refs, ref => ref.name, refEquals)` returns them. */
  function RefPairs(refs: seq<Json>): seq<(Option<Json>, Option<Json>)>
  {
    Helpers.PairsAsWritten(refs, RefName, RefEquals)
  }

  /** The pairs of distinct argument-ref names, once each: what the group is
      meant to register. */
  function RefPairsDeduped(refs: seq<Json>): seq<(Option<Json>, Option<Json>)>
  {
    Helpers.OrderedPairs(Helpers.UniqWith(refs, RefEquals), RefName)
  }

  /** What one validation group registers. */
  function GroupRegistrations(validator: Json): seq<Event>
  {
    match Get(validator, Descendants)
    case Some(Arr(refs)) =>
      var validatorType := Get(validator, ElementLabel);
      if IsConstraintKind(validatorType) then PairEvents(validatorType, RefPairs(refs)) else []
    case _ => []
  }

  /** What one validation group would register with deduplicated pairs. */
  function GroupRegistrationsDeduped(validator: Json): seq<Event>
  {
    match Get(validator, Descendants)
    case Some(Arr(refs)) =>
      var validatorType := Get(validator, ElementLabel);
      if IsConstraintKind(validatorType) then PairEvents(validatorType, RefPairsDeduped(refs)) else []
    case _ => []
  }

  /** What the groups register, one after another. */
  function GroupsRegistrations(groups: seq<Json>): seq<Event>
  {
    FlatMap(GroupRegistrations, groups)
  }

  /** What `handleValidationGroups(yin, argumentGroupsObj)` registers. */
  function ValidationRegistrations(argumentGroupsObj: Option<Json>): seq<Event>
  {
    match argumentGroupsObj
    case Some(node) =>
      if IsObject(node) then
        match Get(node, Descendants)
        case Some(Arr(groups)) => GroupsRegistrations(groups)
        case _ => []
      else []
    case None => []
  }

  // ---------------------------------------------------------------------------
  // The command

  /** What `command(instance, adaptedCommand)` registers and throws, given the
      outcome of splitting its positional directive. */
  function CommandTraceWith(adaptedCommand: Json, tokens: Result<seq<string>, Error>): Trace
  {
    match Get(adaptedCommand, Descendants)
    case Some(Arr(descendants)) =>
      (match tokens
       case Failure(e) => Trace([], Some(e))
       case Success(ts) =>
         DecoratedTrace(adaptedCommand, descendants, Decorate(ts, FindDescendant(CommandOptions, descendants))))
    case _ => Trace([], None)
  }

  /** The command once its positional tokens are decorated: the positional
      registrations, then the command itself unless a token threw. */
  function DecoratedTrace(adaptedCommand: Json, descendants: seq<Json>, d: Decoration): Trace
  {
    if d.error.Some? then Trace(d.registered, d.error)
    else
      var positionalDef := ToDisplay(Get(adaptedCommand, CommandName)) + " " + d.markers;
      var usage := if Has(adaptedCommand, "positional") then Some(Str(positionalDef))
                   else Get(adaptedCommand, CommandName);
      Trace(d.registered + [Event.Command(usage, Get(adaptedCommand, "description"),
                                         BuilderRegistrations(descendants, positionalDef))], None)
  }

  /** What the builder callback registers on the instance it is handed. */
  function BuilderRegistrations(descendants: seq<Json>, positionalDef: string): seq<Event>
  {
    OptionsRegistration(FindDescendant(CommandOptions, descendants), positionalDef) +
    ValidationRegistrations(FindDescendant(ValidationGroups, descendants))
  }

  function CommandTrace(adaptedCommand: Json): Trace
  {
    CommandTraceWith(adaptedCommand, PositionalTokens(Get(adaptedCommand, "positional")))
  }

  function CommandTraceAsWritten(adaptedCommand: Json): Trace
  {
    CommandTraceWith(adaptedCommand, PositionalTokensAsWritten(Get(adaptedCommand, "positional")))
  }

  /** What `buildCommand(instance, adaptedCommand, fail)` registers: the fail
      hook, then the command. */
  function BuildCommandTrace(adaptedCommand: Json): Trace
  {
    Trace([FailHandler] + CommandTrace(adaptedCommand).events, CommandTrace(adaptedCommand).error)
  }

  lemma CommandTraceOfTokensFailure(adaptedCommand: Json, descendants: seq<Json>)
    requires Get(adaptedCommand, Descendants) == Some(Arr(descendants))
    requires PositionalTokens(Get(adaptedCommand, "positional")).Failure?
    ensures CommandTrace(adaptedCommand) == Trace([], Some(PositionalTokens(Get(adaptedCommand, "positional")).error))
  {
  }

  lemma CommandTraceOfTokens(adaptedCommand: Json, descendants: seq<Json>)
    requires Get(adaptedCommand, Descendants) == Some(Arr(descendants))
    requires PositionalTokens(Get(adaptedCommand, "positional")).Success?
    ensures CommandTrace(adaptedCommand) ==
            DecoratedTrace(adaptedCommand, descendants,
                           Decorate(PositionalTokens(Get(adaptedCommand, "positional")).value,
                                    FindDescendant(CommandOptions, descendants)))
  {
  }

  class YargsBuilderImpl {
    constructor ()
    {
    }

    method BuildCommand(instance: Argv, adaptedCommand: Json) returns (error: Option<Error>)
      modifies instance
      ensures instance.events == old(instance.events) + BuildCommandTrace(adaptedCommand).events
      ensures error == BuildCommandTrace(adaptedCommand).error
    {
      instance.Fail();
      error := Command(instance, adaptedCommand);
      AppendAssociates(old(instance.events), [FailHandler], CommandTrace(adaptedCommand).events);
    }

    method Command(instance: Argv, adaptedCommand: Json) returns (error: Option<Error>)
      modifies instance
      ensures instance.events == old(instance.events) + CommandTrace(adaptedCommand).events
      ensures error == CommandTrace(adaptedCommand).error
    {
      var name := Get(adaptedCommand, CommandName);
      var description := Get(adaptedCommand, "description");
      var descendants := Get(adaptedCommand, Descendants);
      if descendants.Some? && descendants.value.Arr? {
        var commandArguments := FindDescendant(CommandOptions, descendants.value.items);
        ghost var tokens := PositionalTokens(Get(adaptedCommand, "positional"));
        var positionalDef := PositionalDef(instance, name, Get(adaptedCommand, "positional"), commandArguments);
        if tokens.Failure? {
          CommandTraceOfTokensFailure(adaptedCommand, descendants.value.items);
        } else {
          CommandTraceOfTokens(adaptedCommand, descendants.value.items);
        }
        if positionalDef.Failure? {
          return Some(positionalDef.error);
        }
        var positionalCommandDef := name;
        if Has(adaptedCommand, "positional") {
          positionalCommandDef := Some(Str(positionalDef.value));
        }
        var registrations := Builder(descendants.value.items, positionalDef.value);
        ghost var registered := Decorate(tokens.value, commandArguments).registered;
        instance.Command(positionalCommandDef, description, registrations);
        AppendAssociates(old(instance.events), registered, [Event.Command(positionalCommandDef, description, registrations)]);
      }
      return None;
    }

    /** The builder callback handed to `instance.command`, run against a fresh
        instance: the options, then the validation groups. */
    method Builder(descendants: seq<Json>, positionalDef: string) returns (registrations: seq<Event>)
      ensures registrations == BuilderRegistrations(descendants, positionalDef)
    {
      var yin := new Argv();
      var commandArguments := FindDescendant(CommandOptions, descendants);
      HandleOptions(yin, commandArguments, positionalDef);
      var validationGroups := FindDescendant(ValidationGroups, descendants);
      HandleValidationGroups(yin, validationGroups);
      registrations := yin.events;
    }

    method PositionalDef(instance: Argv, commandName: Option<Json>, positionalStr: Option<Json>,
                         argumentsMap: Option<Json>) returns (result: Result<string, Error>)
      modifies instance
      ensures match PositionalTokens(positionalStr)
        case Failure(e) => result == Failure(e) && instance.events == old(instance.events)
        case Success(tokens) =>
          var d := Decorate(tokens, argumentsMap);
          && instance.events == old(instance.events) + d.registered
          && result == if d.error.Some? then Failure(d.error.value)
                       else Success(ToDisplay(commandName) + " " + d.markers)
    {
      var positionalArguments: seq<string>;
      match positionalStr {
        case None =>
          positionalArguments := [];
        case Some(Str(s)) =>
          positionalArguments := Split(s, ' ');
        case Some(_) =>
          return Failure(NoSplitMethod);
      }
      var def, error := DecorateTokens(instance, positionalArguments, argumentsMap);
      if error.Some? {
        return Failure(error.value);
      }
      return Success(ToDisplay(commandName) + " " + def);
    }

    /** The reduce of `positionalDef` over the tokens: each defined token is
        registered and its marker appended, and the first undefined one throws. */
    method DecorateTokens(instance: Argv, positionalArguments: seq<string>, argumentsMap: Option<Json>)
      returns (def: string, error: Option<Error>)
      modifies instance
      ensures error.None? ==> def == Decorate(positionalArguments, argumentsMap).markers
      ensures error == Decorate(positionalArguments, argumentsMap).error
      ensures instance.events == old(instance.events) + Decorate(positionalArguments, argumentsMap).registered
    {
      ghost var acc := Decoration("", [], None);
      def := "";
      var i := 0;
      assert positionalArguments[..0] == [];
      while i < |positionalArguments|
        invariant 0 <= i <= |positionalArguments|
        invariant acc == Decorate(positionalArguments[..i], argumentsMap)
        invariant acc.error.None? && def == acc.markers
        invariant instance.events == old(instance.events) + acc.registered
      {
        var argument := positionalArguments[i];
        DecoratePrefix(positionalArguments, argumentsMap, i);
        if argumentsMap.None? {
          DecorateErrorPersists(positionalArguments, argumentsMap, i + 1);
          return def, Some(ReadOfUndefined(argument));
        }
        var argumentDef := Get(argumentsMap.value, argument);
        if argumentDef.Some? && IsObject(argumentDef.value) {
          var marker := if OptionalFlag(argumentDef.value) then "[" + argument + "]" else "<" + argument + ">";
          AppendAssociates(old(instance.events), acc.registered, PositionalRegistration(argument, argumentDef.value));
          Positional(instance, argument, argumentDef.value);
          def := def + marker;
          acc := Decoration(acc.markers + marker, acc.registered + PositionalRegistration(argument, argumentDef.value), None);
        } else {
          DecorateErrorPersists(positionalArguments, argumentsMap, i + 1);
          return def, Some(PositionalNotDefined(argument));
        }
        i := i + 1;
      }
      assert positionalArguments[..i] == positionalArguments;
      return def, None;
    }

    method Positional(instance: Argv, argumentName: string, commandArgumentsObj: Json)
      modifies instance
      ensures instance.events == old(instance.events) + PositionalRegistration(argumentName, commandArgumentsObj)
    {
      if Has(commandArgumentsObj, argumentName) {
        var def := Get(commandArgumentsObj, argumentName).value;
        instance.Positional(argumentName, def);
      }
    }

    method HandleOptions(instance: Argv, commandArgumentsObj: Option<Json>, positionalDef: string)
      modifies instance
      ensures instance.events == old(instance.events) + OptionsRegistration(commandArgumentsObj, positionalDef)
    {
      if commandArgumentsObj.Some? && IsObject(commandArgumentsObj.value) {
        var argumentsDescendants := Get(commandArgumentsObj.value, Descendants);
        if argumentsDescendants.Some? && IsObject(argumentsDescendants.value) && !argumentsDescendants.value.Arr? {
          var nonPositional := PickNonPositionalArguments(commandArgumentsObj.value.props, positionalDef);
          instance.Options(nonPositional);
        }
      }
    }

    method HandleValidationGroups(instance: Argv, argumentGroupsObj: Option<Json>)
      modifies instance
      ensures instance.events == old(instance.events) + ValidationRegistrations(argumentGroupsObj)
    {
      if argumentGroupsObj.Some? && IsObject(argumentGroupsObj.value) {
        var groupsDescendants := Get(argumentGroupsObj.value, Descendants);
        if groupsDescendants.Some? && groupsDescendants.value.Arr? {
          HandleGroups(instance, groupsDescendants.value.items);
        }
      }
    }

    /** The reduce of `handleValidationGroups` over the groups, in order. */
    method HandleGroups(instance: Argv, groups: seq<Json>)
      modifies instance
      ensures instance.events == old(instance.events) + GroupsRegistrations(groups)
    {
      for g := 0 to |groups|
        invariant instance.events == old(instance.events) + GroupsRegistrations(groups[..g])
      {
        FlatMapPrefix(GroupRegistrations, groups, g);
        AppendAssociates(old(instance.events), GroupsRegistrations(groups[..g]), GroupRegistrations(groups[g]));
        HandleValidator(instance, groups[g]);
      }
      assert groups[..|groups|] == groups;
    }

    /** The reduce callback of `handleValidationGroups` for one group. */
    method HandleValidator(instance: Argv, validator: Json)
      modifies instance
      ensures instance.events == old(instance.events) + GroupRegistrations(validator)
    {
      var validatorDescendants := Get(validator, Descendants);
      if validatorDescendants.Some? && validatorDescendants.value.Arr? {
        var validatorType := Get(validator, ElementLabel);
        if IsConstraintKind(validatorType) {
          var pairs := Helpers.UniquePairs(validatorDescendants.value.items, RefName, RefEquals);
          for j := 0 to |pairs|
            invariant instance.events == old(instance.events) + PairEvents(validatorType, pairs[..j])
          {
            PairEventsPrefix(validatorType, pairs, j);
            AppendAssociates(old(instance.events), PairEvents(validatorType, pairs[..j]), [PairEvent(validatorType, pairs[j])]);
            if validatorType == Some(Str("Conflicts")) {
              instance.Conflicts(pairs[j].0, pairs[j].1);
            } else {
              instance.Implies(pairs[j].0, pairs[j].1);
            }
          }
          assert pairs[..|pairs|] == pairs;
        }
      }
    }
  }
}
