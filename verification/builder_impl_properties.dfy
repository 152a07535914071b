/**
 * What the builder implementation promises about a command descriptor: which
 * node `findDescendant` picks, when the positional directive throws and what
 * it builds, what the options registration keeps, and which constraints a
 * validation group registers.
 */
module BuilderImplProperties {
  import opened Js
  import opened Yargs
  import opened BuilderImpl
  import Helpers

  // ---------------------------------------------------------------------------
  // findDescendant

  /** `findDescendant` finds nothing exactly when no node is of the kind. */
  lemma {:induction false} FindDescendantNone(kind: string, descendants: seq<Json>)
    ensures FindDescendant(kind, descendants).None? <==>
            forall k :: 0 <= k < |descendants| ==> !IsKind(descendants[k], kind)
  {
    if descendants != [] {
      FindDescendantNone(kind, descendants[1..]);
      assert forall k :: 1 <= k < |descendants| ==> descendants[k] == descendants[1..][k - 1];
    }
  }

  /** The first node of the kind is the one found, whatever follows it. */
  lemma {:induction false} FindDescendantFirst(kind: string, descendants: seq<Json>, i: nat)
    requires i < |descendants| && FirstOfKind(descendants, i, kind)
    ensures FindDescendant(kind, descendants) == Some(descendants[i])
  {
    if i > 0 {
      assert !IsKind(descendants[0], kind);
      assert FirstOfKind(descendants[1..], i - 1, kind) by {
        forall k | 0 <= k < i - 1
          ensures !IsKind(descendants[1..][k], kind)
        {
          assert descendants[1..][k] == descendants[k + 1];
        }
      }
      FindDescendantFirst(kind, descendants[1..], i - 1);
    }
  }

  /** What `findDescendant` finds is the first node of the kind. */
  lemma {:induction false} FindDescendantFound(kind: string, descendants: seq<Json>)
    requires FindDescendant(kind, descendants).Some?
    ensures exists i :: 0 <= i < |descendants| && FirstOfKind(descendants, i, kind) &&
                        FindDescendant(kind, descendants) == Some(descendants[i])
  {
    if IsKind(descendants[0], kind) {
      assert FirstOfKind(descendants, 0, kind);
    } else {
      FindDescendantFound(kind, descendants[1..]);
      var i :| 0 <= i < |descendants[1..]| && FirstOfKind(descendants[1..], i, kind) &&
               FindDescendant(kind, descendants[1..]) == Some(descendants[1..][i]);
      assert FirstOfKind(descendants, i + 1, kind) by {
        forall k | 1 <= k < i + 1
          ensures !IsKind(descendants[k], kind)
        {
          assert descendants[k] == descendants[1..][k - 1];
        }
      }
    }
  }

  // ---------------------------------------------------------------------------
  // positionalDef

  /** The marker a defined token contributes (nothing for an undefined one). */
  function MarkerOf(argumentsMap: Option<Json>, argument: string): string
  {
    if Defined(argumentsMap, argument) then Marker(argument, Get(argumentsMap.value, argument).value) else ""
  }

  /** The registration a defined token makes (nothing for an undefined one). */
  function RegistrationOf(argumentsMap: Option<Json>, argument: string): seq<Event>
  {
    if Defined(argumentsMap, argument) then PositionalRegistration(argument, Get(argumentsMap.value, argument).value)
    else []
  }

  /** The reduce over the tokens succeeds exactly when every token is defined
      as an object in the arguments map. */
  lemma DecorateSucceedsIff(tokens: seq<string>, argumentsMap: Option<Json>)
    ensures Decorate(tokens, argumentsMap).error.None? <==>
            forall i :: 0 <= i < |tokens| ==> Defined(argumentsMap, tokens[i])
  {
    if Decorate(tokens, argumentsMap).error.None? {
      DecorateSuccessDefined(tokens, argumentsMap);
    } else {
      DecorateFailureUndefined(tokens, argumentsMap);
    }
  }

  /** A reduce that did not throw met only defined tokens. */
  lemma {:induction false} DecorateSuccessDefined(tokens: seq<string>, argumentsMap: Option<Json>)
    requires Decorate(tokens, argumentsMap).error.None?
    ensures forall i :: 0 <= i < |tokens| ==> Defined(argumentsMap, tokens[i])
  {
    if tokens != [] {
      var init := tokens[..|tokens| - 1];
      var last := tokens[|tokens| - 1];
      assert Decorate(tokens, argumentsMap) == DecorateStep(Decorate(init, argumentsMap), last, argumentsMap);
      DecorateStepSucceeds(Decorate(init, argumentsMap), last, argumentsMap);
      assert Decorate(init, argumentsMap).error.None? && Defined(argumentsMap, last);
      DecorateSuccessDefined(init, argumentsMap);
      forall i | 0 <= i < |tokens|
        ensures Defined(argumentsMap, tokens[i])
      {
        if i < |init| {
          assert tokens[i] == init[i];
        }
      }
    }
  }

  /** A reduce that threw met an undefined token. */
  lemma {:induction false} DecorateFailureUndefined(tokens: seq<string>, argumentsMap: Option<Json>)
    requires Decorate(tokens, argumentsMap).error.Some?
    ensures exists i :: 0 <= i < |tokens| && !Defined(argumentsMap, tokens[i])
  {
    var init := tokens[..|tokens| - 1];
    DecorateStepSucceeds(Decorate(init, argumentsMap), tokens[|tokens| - 1], argumentsMap);
    if Decorate(init, argumentsMap).error.Some? {
      DecorateFailureUndefined(init, argumentsMap);
      var i :| 0 <= i < |init| && !Defined(argumentsMap, init[i]);
      assert tokens[i] == init[i];
    } else {
      assert !Defined(argumentsMap, tokens[|tokens| - 1]);
    }
  }

  /** One step succeeds exactly when the steps before it did and its token is defined. */
  lemma DecorateStepSucceeds(acc: Decoration, argument: string, argumentsMap: Option<Json>)
    ensures DecorateStep(acc, argument, argumentsMap).error.None? <==>
            acc.error.None? && Defined(argumentsMap, argument)
  {
  }

  /** The first undefined token decides the error: reading from a missing
      Arguments node, or an argument not defined as an object. The positional
      registrations made before it stay made. */
  lemma {:induction false} DecorateFirstFailure(tokens: seq<string>, argumentsMap: Option<Json>, k: nat)
    requires k < |tokens|
    requires forall i :: 0 <= i < k ==> Defined(argumentsMap, tokens[i])
    requires !Defined(argumentsMap, tokens[k])
    ensures Decorate(tokens, argumentsMap).error ==
            Some(if argumentsMap.None? then ReadOfUndefined(tokens[k]) else PositionalNotDefined(tokens[k]))
    ensures Decorate(tokens, argumentsMap).registered == Decorate(tokens[..k], argumentsMap).registered
  {
    DecorateSucceedsIff(tokens[..k], argumentsMap);
    DecoratePrefix(tokens, argumentsMap, k);
    DecorateErrorPersists(tokens, argumentsMap, k + 1);
  }

  function Markers(tokens: seq<string>, argumentsMap: Option<Json>): seq<string>
  {
    seq(|tokens|, i requires 0 <= i < |tokens| => MarkerOf(argumentsMap, tokens[i]))
  }

  function Registrations(tokens: seq<string>, argumentsMap: Option<Json>): seq<seq<Event>>
  {
    seq(|tokens|, i requires 0 <= i < |tokens| => RegistrationOf(argumentsMap, tokens[i]))
  }

  /** On success the definition is every token's marker in order, with no
      separator, and the positional registrations are every token's, in order. */
  lemma {:induction false} DecorateOutput(tokens: seq<string>, argumentsMap: Option<Json>)
    requires Decorate(tokens, argumentsMap).error.None?
    ensures Decorate(tokens, argumentsMap).markers == Flatten(Markers(tokens, argumentsMap))
    ensures Decorate(tokens, argumentsMap).registered == Flatten(Registrations(tokens, argumentsMap))
  {
    if tokens != [] {
      var init := tokens[..|tokens| - 1];
      DecorateOutput(init, argumentsMap);
      assert Markers(tokens, argumentsMap)[..|tokens| - 1] == Markers(init, argumentsMap);
      assert Registrations(tokens, argumentsMap)[..|tokens| - 1] == Registrations(init, argumentsMap);
    }
  }

  /** The markers of tokens without spaces have no spaces either. */
  lemma {:induction false} DecorateMarkersHaveNoSpace(tokens: seq<string>, argumentsMap: Option<Json>)
    requires forall i :: 0 <= i < |tokens| ==> ' ' !in tokens[i]
    ensures ' ' !in Decorate(tokens, argumentsMap).markers
  {
    if tokens != [] {
      var init := tokens[..|tokens| - 1];
      DecorateMarkersHaveNoSpace(init, argumentsMap);
    }
  }

  /** `copy` with `positional: "from to"`, `from` required and `to` optional. */
  function CopyArguments(): Json
  {
    Obj([Prop("_", Str("Arguments")),
         Prop("from", Obj([])),
         Prop("to", Obj([Prop("optional", Bool(true))]))])
  }

  /** The directive "from to" names the tokens `from` and `to`. */
  lemma CopyTokens()
    ensures Split("from to", ' ') == ["from", "to"]
  {
    assert "from to" == "from" + [' '] + "to";
    SplitAfterPiece("from", "to", ' ');
    SplitNoSeparator("to", ' ');
  }

  /** The tokens `from` and `to` become the definition `<from>[to]`; neither
      definition has a key named like its argument, so nothing is registered
      positionally. */
  lemma CopyPositionalDefinition()
    ensures Decorate(["from", "to"], Some(CopyArguments())) == Decoration("<from>[to]", [], None)
  {
    var tokens := ["from", "to"];
    var m := Some(CopyArguments());
    assert Get(CopyArguments(), "from") == Some(Obj([]));
    assert Get(CopyArguments(), "to") == Some(Obj([Prop("optional", Bool(true))]));
    assert tokens[..0] == [] && tokens[..2] == tokens;
    DecoratePrefix(tokens, m, 0);
    assert Decorate(tokens[..1], m) == Decoration("<from>", [], None);
    DecoratePrefix(tokens, m, 1);
  }

  /** A token with no definition throws naming the token. */
  lemma UndefinedPositionalThrows()
    ensures Decorate(["from", "into"], Some(CopyArguments())).error == Some(PositionalNotDefined("into"))
  {
    var tokens := ["from", "into"];
    assert Lookup(CopyArguments().props, "into") == None;
    DecorateFirstFailure(tokens, Some(CopyArguments()), 1);
  }

  /** Definitions are looked up on the Arguments node itself: one nested under
      its `_children` is not seen, and the token throws. */
  lemma NestedDefinitionIsNotSeen()
    ensures Decorate(["from"], Some(Obj([Prop("_", Str("Arguments")),
                                         Prop("_children", Obj([Prop("from", Obj([]))]))]))).error
            == Some(PositionalNotDefined("from"))
  {
    var m := Obj([Prop("_", Str("Arguments")), Prop("_children", Obj([Prop("from", Obj([]))]))]);
    assert Get(m, "from") == None;
    DecorateFirstFailure(["from"], Some(m), 0);
  }

  // ---------------------------------------------------------------------------
  // command

  /** A command's step fails exactly when its directive cannot be split or
      one of its tokens is not defined in the command's Arguments node. */
  lemma CommandSucceedsIff(adaptedCommand: Json, descendants: seq<Json>)
    requires Get(adaptedCommand, Descendants) == Some(Arr(descendants))
    ensures CommandTrace(adaptedCommand).error.None? <==>
            var tokens := PositionalTokens(Get(adaptedCommand, "positional"));
            && tokens.Success?
            && forall i :: 0 <= i < |tokens.value| ==>
                 Defined(FindDescendant(CommandOptions, descendants), tokens.value[i])
  {
    var tokens := PositionalTokens(Get(adaptedCommand, "positional"));
    if tokens.Success? {
      DecorateSucceedsIff(tokens.value, FindDescendant(CommandOptions, descendants));
    }
  }

  /** A command throws only one of the positional errors. */
  lemma {:induction false} DecorateErrorKinds(tokens: seq<string>, argumentsMap: Option<Json>)
    ensures Decorate(tokens, argumentsMap).error.Some? ==>
            Decorate(tokens, argumentsMap).error.value.PositionalNotDefined? ||
            Decorate(tokens, argumentsMap).error.value.ReadOfUndefined?
  {
    if tokens != [] {
      DecorateErrorKinds(tokens[..|tokens| - 1], argumentsMap);
    }
  }

  lemma CommandErrorKinds(adaptedCommand: Json)
    ensures CommandTrace(adaptedCommand).error.Some? ==>
            var e := CommandTrace(adaptedCommand).error.value;
            e.PositionalNotDefined? || e.ReadOfUndefined? || e.NoSplitMethod?
  {
    match Get(adaptedCommand, Descendants)
    case Some(Arr(descendants)) =>
      var tokens := PositionalTokens(Get(adaptedCommand, "positional"));
      if tokens.Success? {
        DecorateErrorKinds(tokens.value, FindDescendant(CommandOptions, descendants));
      }
    case _ =>
  }

  /** As written, a command without a `positional` key throws: its missing
      directive is handed to `R.split`. */
  lemma MissingPositionalThrowsAsWritten(adaptedCommand: Json, descendants: seq<Json>)
    requires Get(adaptedCommand, Descendants) == Some(Arr(descendants))
    requires !Has(adaptedCommand, "positional")
    ensures CommandTraceAsWritten(adaptedCommand) == Trace([], Some(NoSplitMethod))
  {
  }

  /** A command without a `positional` key is registered under its bare name,
      with the definition `name ` handed to the builder callback. */
  lemma BareUsageWithoutPositional(adaptedCommand: Json, descendants: seq<Json>)
    requires Get(adaptedCommand, Descendants) == Some(Arr(descendants))
    requires !Has(adaptedCommand, "positional")
    ensures CommandTrace(adaptedCommand) ==
            Trace([Event.Command(Get(adaptedCommand, CommandName), Get(adaptedCommand, "description"),
                                 BuilderRegistrations(descendants, ToDisplay(Get(adaptedCommand, CommandName)) + " "))],
                  None)
  {
    assert Get(adaptedCommand, "positional") == None;
    assert Decorate([], FindDescendant(CommandOptions, descendants)) == Decoration("", [], None);
    assert ToDisplay(Get(adaptedCommand, CommandName)) + " " + "" == ToDisplay(Get(adaptedCommand, CommandName)) + " ";
  }

  /** With a directive, the command is registered under `name markers`, after
      the positional registrations. */
  lemma UsageWithPositional(adaptedCommand: Json, descendants: seq<Json>, directive: string)
    requires Get(adaptedCommand, Descendants) == Some(Arr(descendants))
    requires Get(adaptedCommand, "positional") == Some(Str(directive))
    requires Decorate(Split(directive, ' '), FindDescendant(CommandOptions, descendants)).error.None?
    ensures var d := Decorate(Split(directive, ' '), FindDescendant(CommandOptions, descendants));
            var usage := ToDisplay(Get(adaptedCommand, CommandName)) + " " + Flatten(Markers(Split(directive, ' '), FindDescendant(CommandOptions, descendants)));
            CommandTrace(adaptedCommand).events ==
            Flatten(Registrations(Split(directive, ' '), FindDescendant(CommandOptions, descendants))) +
            [Event.Command(Some(Str(usage)), Get(adaptedCommand, "description"), BuilderRegistrations(descendants, usage))]
  {
    DecorateOutput(Split(directive, ' '), FindDescendant(CommandOptions, descendants));
  }

  /** A command whose children are not an array registers nothing and throws nothing. */
  lemma NonArrayChildrenRegisterNothing(adaptedCommand: Json)
    requires !(Get(adaptedCommand, Descendants).Some? && Get(adaptedCommand, Descendants).value.Arr?)
    ensures CommandTrace(adaptedCommand) == Trace([], None)
    ensures CommandTraceAsWritten(adaptedCommand) == Trace([], None)
  {
  }

  // ---------------------------------------------------------------------------
  // handleOptions

  /**
   * The options handed to yargs are picked against the definition
   * `name markers`, which splits into the name and the markers: a positional
   * argument's own key is dropped only if it equals one of those two, so
   * `from` stays among the options of `copy <from>[to]`.
   */
  lemma PickAgainstDefinition(props: seq<Prop>, name: string, markers: string)
    requires ' ' !in name && ' ' !in markers
    ensures forall p :: p in PickNonPositionalArguments(props, name + " " + markers) <==>
                        p in props && p.key != name && p.key != markers
  {
    SplitAfterPiece(name, markers, ' ');
    SplitNoSeparator(markers, ' ');
    assert name + " " + markers == name + [' '] + markers;
  }

  /**
   * The options picked against the definition `positionalDef` builds from a
   * directive: only the keys equal to the name or to the concatenated markers
   * are dropped, since neither contains a space.
   */
  lemma PickAgainstDecoration(props: seq<Prop>, name: string, directive: string, argumentsMap: Option<Json>)
    requires ' ' !in name
    ensures var markers := Decorate(Split(directive, ' '), argumentsMap).markers;
            forall p :: p in PickNonPositionalArguments(props, name + " " + markers) <==>
                        p in props && p.key != name && p.key != markers
  {
    DecorateMarkersHaveNoSpace(Split(directive, ' '), argumentsMap);
    PickAgainstDefinition(props, name, Decorate(Split(directive, ' '), argumentsMap).markers);
  }

  /** `pickBy` over a concatenation picks from each part, in order. */
  lemma {:induction false} DropKeysAppend(first: seq<Prop>, second: seq<Prop>, keys: seq<string>)
    ensures DropKeys(first + second, keys) == DropKeys(first, keys) + DropKeys(second, keys)
  {
    if first == [] {
      assert first + second == second;
    } else {
      assert (first + second)[0] == first[0];
      assert (first + second)[1..] == first[1..] + second;
      DropKeysAppend(first[1..], second, keys);
    }
  }

  /** Properties none of whose keys is listed are all kept, in order. */
  lemma {:induction false} DropKeysNone(props: seq<Prop>, keys: seq<string>)
    requires forall p :: p in props ==> p.key !in keys
    ensures DropKeys(props, keys) == props
  {
    if props != [] {
      assert forall p :: p in props[1..] ==> p in props;
      DropKeysNone(props[1..], keys);
      assert [props[0]] + props[1..] == props;
    }
  }

  /** One property is kept exactly when its key is not listed. */
  lemma DropKeysOne(prop: Prop, keys: seq<string>)
    ensures DropKeys([prop], keys) == if prop.key in keys then [] else [prop]
  {
    assert [prop][1..] == [];
  }

  lemma CopyKeepsPositionalOptions()
    ensures Prop("from", Obj([])) in PickNonPositionalArguments(CopyArguments().props, "copy" + " " + "<from>[to]")
    ensures Prop("to", Obj([Prop("optional", Bool(true))])) in
            PickNonPositionalArguments(CopyArguments().props, "copy" + " " + "<from>[to]")
  {
    PickAgainstDefinition(CopyArguments().props, "copy", "<from>[to]");
    assert CopyArguments().props[1] == Prop("from", Obj([]));
    assert CopyArguments().props[2] == Prop("to", Obj([Prop("optional", Bool(true))]));
  }

  /** An object node whose `_children` is an object registers one `options`
      call with its non-positional properties. */
  lemma OptionsOfObjectWithChildren(node: Json, positionalDef: string)
    requires node.Obj? && Get(node, Descendants).Some? && Get(node, Descendants).value.Obj?
    ensures OptionsRegistration(Some(node), positionalDef)
            == [Event.Options(PickNonPositionalArguments(node.props, positionalDef))]
  {
  }

  /** The `copy` Arguments node with an (empty) `_children` object, which is
      what lets `handleOptions` register anything. */
  function CopyArgumentsWithChildren(): Json
  {
    Obj([Prop("_", Str("Arguments")),
         Prop("_children", Obj([])),
         Prop("from", Obj([])),
         Prop("to", Obj([Prop("optional", Bool(true))]))])
  }

  /** `handleOptions` on that node against `copy <from>[to]` registers one
      `options` call carrying EVERY own property of the node: the label `_`,
      `_children`, and the positional `from` and `to`, because the picked-out
      keys are the tokens `copy` and `<from>[to]`. */
  lemma CopyOptionsRegistersEveryProperty()
    ensures OptionsRegistration(Some(CopyArgumentsWithChildren()), "copy" + " " + "<from>[to]")
            == [Event.Options(CopyArgumentsWithChildren().props)]
  {
    var node := CopyArgumentsWithChildren();
    CopyUsageTokens();
    CopyDropsNothing();
    assert PickNonPositionalArguments(node.props, "copy" + " " + "<from>[to]") == node.props;
    OptionsOfObjectWithChildren(node, "copy" + " " + "<from>[to]");
  }

  /** The usage string `copy <from>[to]` splits into the command name and
      the markers. */
  lemma CopyUsageTokens()
    ensures Split("copy" + " " + "<from>[to]", ' ') == ["copy", "<from>[to]"]
  {
    assert "copy" + " " + "<from>[to]" == "copy" + [' '] + "<from>[to]";
    SplitTwoPieces("copy", "<from>[to]", ' ');
  }

  /** No key of the node is the command name or the markers. */
  lemma CopyDropsNothing()
    ensures DropKeys(CopyArgumentsWithChildren().props, ["copy", "<from>[to]"])
            == CopyArgumentsWithChildren().props
  {
    var props := CopyArgumentsWithChildren().props;
    var keys := ["copy", "<from>[to]"];
    assert props[2].key[0] != "copy"[0];
    assert forall p :: p in props ==> p.key !in keys;
    DropKeysNone(props, keys);
  }

  // ---------------------------------------------------------------------------
  // handleValidationGroups

  /** The registrations of the groups of a concatenation are those of each part. */
  lemma GroupsAccumulate(first: seq<Json>, second: seq<Json>)
    ensures GroupsRegistrations(first + second) == GroupsRegistrations(first) + GroupsRegistrations(second)
  {
    FlatMapAppend(GroupRegistrations, first, second);
  }

  /** One registration per pair, in the order of the pairs. */
  lemma {:induction false} PairEventsAt(validatorType: Option<Json>, pairs: seq<(Option<Json>, Option<Json>)>, k: nat)
    requires k < |pairs|
    ensures |PairEvents(validatorType, pairs)| == |pairs|
    ensures PairEvents(validatorType, pairs)[k] == PairEvent(validatorType, pairs[k])
  {
    var init := pairs[..|pairs| - 1];
    if k < |init| {
      PairEventsAt(validatorType, init, k);
    } else {
      PairEventsLength(validatorType, init);
    }
  }

  lemma {:induction false} PairEventsLength(validatorType: Option<Json>, pairs: seq<(Option<Json>, Option<Json>)>)
    ensures |PairEvents(validatorType, pairs)| == |pairs|
  {
    if pairs != [] {
      PairEventsLength(validatorType, pairs[..|pairs| - 1]);
    }
  }

  /**
   * As written, a Conflicts group of three or more argument refs, `m` of them
   * with distinct names, registers RowStart(m, n) conflicts: the `i`-th
   * distinct ref is coupled with every ref after position `i` of the original
   * children, including refs of the same name.
   */
  lemma ConflictsGroupAsWritten(validator: Json, refs: seq<Json>, i: nat, j: nat)
    requires Get(validator, Descendants) == Some(Arr(refs))
    requires Get(validator, ElementLabel) == Some(Str("Conflicts"))
    requires |refs| >= 3
    requires i < |Helpers.UniqWith(refs, RefEquals)| && i < j < |refs|
    ensures var u := Helpers.UniqWith(refs, RefEquals);
            && |GroupRegistrations(validator)| == Helpers.RowStart(|u|, |refs|)
            && Helpers.PairIndex(i, j, |refs|) < |GroupRegistrations(validator)|
            && GroupRegistrations(validator)[Helpers.PairIndex(i, j, |refs|)] == Event.Conflicts(RefName(u[i]), RefName(refs[j]))
  {
    Helpers.PairsAsWrittenCount(refs, RefName, RefEquals);
    Helpers.PairsAsWrittenAt(refs, RefName, RefEquals, i, j);
    PairEventsAt(Some(Str("Conflicts")), RefPairs(refs), Helpers.PairIndex(i, j, |refs|));
  }

  /** As written, a group of exactly two refs registers their one pair, even
      when both refs carry the same name. */
  lemma TwoRefsGiveOnePair(validator: Json, refs: seq<Json>)
    requires Get(validator, Descendants) == Some(Arr(refs))
    requires IsConstraintKind(Get(validator, ElementLabel))
    requires |refs| == 2
    ensures GroupRegistrations(validator) ==
            [PairEvent(Get(validator, ElementLabel), (RefName(refs[0]), RefName(refs[1])))]
  {
    var validatorType := Get(validator, ElementLabel);
    var pairs := RefPairs(refs);
    Helpers.TwoElementsGiveOnePair(refs, RefName, RefEquals);
    assert pairs == [(RefName(refs[0]), RefName(refs[1]))];
    assert pairs[..|pairs| - 1] == [];
    assert PairEvents(validatorType, pairs) == PairEvents(validatorType, []) + [PairEvent(validatorType, pairs[0])];
  }

  /** When no two refs of a group share a name, the group registers the same
      constraints as written and deduplicated. */
  lemma DistinctRefsAgree(validator: Json, refs: seq<Json>)
    requires Get(validator, Descendants) == Some(Arr(refs))
    requires Helpers.NoDuplicates(refs, RefEquals)
    ensures GroupRegistrations(validator) == GroupRegistrationsDeduped(validator)
  {
    Helpers.DistinctElementsGiveOrderedPairs(refs, RefName, RefEquals);
  }

  function RefNamed(name: string): Json
  {
    Obj([Prop("name", Str(name))])
  }

  function ConflictsOf(refs: seq<Json>): Json
  {
    Obj([Prop(ElementLabel, Str("Conflicts")), Prop(Descendants, Arr(refs))])
  }

  /** Two refs named `a` make `a` conflict with itself as written; the
      deduplicated group registers nothing. */
  lemma SameNameConflictsItself()
    ensures GroupRegistrations(ConflictsOf([RefNamed("a"), RefNamed("a")])) ==
            [Event.Conflicts(Some(Str("a")), Some(Str("a")))]
    ensures GroupRegistrationsDeduped(ConflictsOf([RefNamed("a"), RefNamed("a")])) == []
  {
    var refs := [RefNamed("a"), RefNamed("a")];
    var validator := ConflictsOf(refs);
    var props := validator.props;
    assert props[0].key == "_" && props[1].key == "_children";
    assert Descendants != "_" by { assert Descendants[1] != "_"[0] || |Descendants| != 1; }
    assert props[1..][1..] == [];
    assert Lookup(props, Descendants) == Lookup(props[1..], Descendants);
    assert Get(validator, Descendants) == Some(Arr(refs));
    assert Get(validator, ElementLabel) == Some(Str("Conflicts"));
    assert RefName(RefNamed("a")) == Some(Str("a"));
    TwoRefsGiveOnePair(validator, refs);
    var one := [RefNamed("a")];
    assert refs[..1] == one && one[..0] == [];
    assert RefEquals(RefNamed("a"), RefNamed("a"));
    assert Helpers.UniqWith(one, RefEquals) == one;
    assert Helpers.IncludesWith(RefEquals, RefNamed("a"), one);
    assert Helpers.UniqWith(refs, RefEquals) == one;
    Helpers.ShortSequenceHasNoPairs(one, RefName, RefEquals);
    assert RefPairsDeduped(refs) == [];
  }

  /**
   * With deduplicated pairs, a Conflicts group over argument refs with `m`
   * distinct names registers m(m-1)/2 conflicts; the one at PairIndex(i, j, m)
   * couples the i-th and j-th distinct names, which are never the same name.
   */
  lemma ConflictsGroup(validator: Json, refs: seq<Json>, i: nat, j: nat)
    requires Get(validator, Descendants) == Some(Arr(refs))
    requires Get(validator, ElementLabel) == Some(Str("Conflicts"))
    requires i < j < |Helpers.UniqWith(refs, RefEquals)|
    ensures var u := Helpers.UniqWith(refs, RefEquals);
            && 2 * |GroupRegistrationsDeduped(validator)| == |u| * (|u| - 1)
            && Helpers.PairIndex(i, j, |u|) < |GroupRegistrationsDeduped(validator)|
            && GroupRegistrationsDeduped(validator)[Helpers.PairIndex(i, j, |u|)] == Event.Conflicts(RefName(u[i]), RefName(u[j]))
            && !StrictEquals(RefName(u[j]), RefName(u[i]))
  {
    var u := Helpers.UniqWith(refs, RefEquals);
    Helpers.DedupedPairsAreDistinct(refs, RefName, RefEquals, i, j);
    Helpers.OrderedPairsCount(u, RefName);
    PairEventsAt(Some(Str("Conflicts")), RefPairsDeduped(refs), Helpers.PairIndex(i, j, |u|));
  }

  /** A group of any other kind registers nothing, as written or deduplicated. */
  lemma OtherGroupsRegisterNothing(validator: Json)
    requires !IsConstraintKind(Get(validator, ElementLabel))
    ensures GroupRegistrations(validator) == []
    ensures GroupRegistrationsDeduped(validator) == []
  {
  }
}
