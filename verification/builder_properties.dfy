/**
 * What `buildAllCommands` promises: where the collective is looked up, that
 * its commands are built in order with the first throw ending the build, and
 * which inputs give which of its two errors.
 */
module BuilderProperties {
  import opened Js
  import opened Yargs
  import opened BuilderImpl
  import opened Builder
  import BuilderImplProperties

  // ---------------------------------------------------------------------------
  // Locating the collective

  /** Following a path in two parts is following the first, then the second. */
  lemma {:induction false} ViewConcat(first: seq<string>, second: seq<string>, target: Option<Json>)
    ensures View(first + second, target) == View(second, View(first, target))
  {
    if first == [] {
      assert first + second == second;
    } else if target.Some? {
      assert (first + second)[1..] == first[1..] + second;
      ViewConcat(first[1..], second, Get(target.value, first[0]));
    } else {
      ViewNone(second);
    }
  }

  /** Nothing is found below a missing step. */
  lemma {:induction false} ViewNone(keys: seq<string>)
    ensures View(keys, None) == None
  {
  }

  /** A path without a slash names one property of the container. */
  lemma CollectiveKey(container: Json, key: string)
    requires '/' !in key
    ensures Collective(container, key) == Get(container, key)
  {
    SplitNoSeparator(key, '/');
    assert View([key], Some(container)) == View([], Get(container, key));
  }

  /** `first/rest` looks `rest` up inside the `first` property of the container. */
  lemma CollectiveNested(container: Json, first: string, rest: string)
    requires '/' !in first
    ensures Collective(container, first + "/" + rest) == View(Split(rest, '/'), Get(container, first))
  {
    assert first + "/" + rest == first + ['/'] + rest;
    SplitAfterPiece(first, rest, '/');
    ViewConcat([first], Split(rest, '/'), Some(container));
  }

  /** The commands of `{ cli: { commands: [...] } }` at the path `cli/commands`. */
  lemma NestedCollective(commands: seq<Json>)
    ensures Collective(Obj([Prop("cli", Obj([Prop("commands", Arr(commands))]))]), "cli" + "/" + "commands")
            == Some(Arr(commands))
  {
    var container := Obj([Prop("cli", Obj([Prop("commands", Arr(commands))]))]);
    CollectiveNested(container, "cli", "commands");
    SplitNoSeparator("commands", '/');
  }

  // ---------------------------------------------------------------------------
  // Steps chained on one instance

  /** Chaining a concatenation chains the first part, then the second, unless
      the first part threw. */
  lemma {:induction false} ChainAppend(first: seq<Trace>, second: seq<Trace>)
    requires Chain(first).error.None?
    ensures Chain(first + second) == Trace(Chain(first).events + Chain(second).events, Chain(second).error)
  {
    if second == [] {
      assert first + second == first;
    } else {
      var init := second[..|second| - 1];
      var last := second[|second| - 1];
      ChainAppend(first, init);
      assert (first + second)[..|first + second| - 1] == first + init;
      assert (first + second)[|first + second| - 1] == last;
      if Chain(init).error.None? {
        AppendAssociates(Chain(first).events, Chain(init).events, last.events);
      }
    }
  }

  /** A chain succeeds exactly when every step does. */
  lemma {:induction false} ChainSucceedsIff(traces: seq<Trace>)
    ensures Chain(traces).error.None? <==> forall i :: 0 <= i < |traces| ==> traces[i].error.None?
  {
    if traces != [] {
      var init := traces[..|traces| - 1];
      ChainSucceedsIff(init);
      assert forall i :: 0 <= i < |init| ==> init[i] == traces[i];
    }
  }

  /** The error of a chain is the error of one of its steps. */
  lemma {:induction false} ChainErrorFrom(traces: seq<Trace>)
    requires Chain(traces).error.Some?
    ensures exists i :: 0 <= i < |traces| && Chain(traces).error == traces[i].error
  {
    var init := traces[..|traces| - 1];
    if Chain(init).error.Some? {
      ChainErrorFrom(init);
      var i :| 0 <= i < |init| && Chain(init).error == init[i].error;
      assert init[i] == traces[i];
    } else {
      assert Chain(traces).error == traces[|traces| - 1].error;
    }
  }

  /** The first step that throws decides the error; the steps before it stay
      registered, and so does what it registered before throwing. */
  lemma ChainFirstFailure(traces: seq<Trace>, k: nat)
    requires k < |traces|
    requires forall i :: 0 <= i < k ==> traces[i].error.None?
    requires traces[k].error.Some?
    ensures Chain(traces).error == traces[k].error
    ensures Chain(traces).events == Chain(traces[..k]).events + traces[k].events
  {
    ChainSucceedsIff(traces[..k]);
    assert traces[..k + 1][..k] == traces[..k];
    ChainErrorPersists(traces, k + 1);
  }

  function EventsOf(traces: seq<Trace>): seq<seq<Event>>
  {
    seq(|traces|, i requires 0 <= i < |traces| => traces[i].events)
  }

  /** A chain that does not throw registers every step's events, in order. */
  lemma {:induction false} ChainInOrder(traces: seq<Trace>)
    requires Chain(traces).error.None?
    ensures Chain(traces).events == Flatten(EventsOf(traces))
  {
    if traces != [] {
      var init := traces[..|traces| - 1];
      ChainInOrder(init);
      assert EventsOf(traces)[..|traces| - 1] == EventsOf(init);
    }
  }

  // ---------------------------------------------------------------------------
  // The reduce over the commands

  /** Building a concatenation builds the first part, then the second, unless
      the first part threw. */
  lemma FoldCommandsAppend(first: seq<Json>, second: seq<Json>)
    requires FoldCommands(first).error.None?
    ensures FoldCommands(first + second) ==
            Trace(FoldCommands(first).events + FoldCommands(second).events, FoldCommands(second).error)
  {
    MapAppend(BuildCommandTrace, first, second);
    ChainAppend(CommandTraces(first), CommandTraces(second));
  }

  /** The build succeeds exactly when every command builds. */
  lemma FoldCommandsSucceedsIff(commands: seq<Json>)
    ensures FoldCommands(commands).error.None? <==>
            forall i :: 0 <= i < |commands| ==> BuildCommandTrace(commands[i]).error.None?
  {
    ChainSucceedsIff(CommandTraces(commands));
    assert forall i :: 0 <= i < |commands| ==> CommandTraces(commands)[i] == BuildCommandTrace(commands[i]);
  }

  /** The first command that throws decides the error; the commands before it
      stay registered, and so does what it registered before throwing. */
  lemma FoldCommandsFirstFailure(commands: seq<Json>, k: nat)
    requires k < |commands|
    requires forall i :: 0 <= i < k ==> BuildCommandTrace(commands[i]).error.None?
    requires BuildCommandTrace(commands[k]).error.Some?
    ensures FoldCommands(commands).error == BuildCommandTrace(commands[k]).error
    ensures FoldCommands(commands).events == FoldCommands(commands[..k]).events + BuildCommandTrace(commands[k]).events
  {
    ChainFirstFailure(CommandTraces(commands), k);
    MapPrefix(BuildCommandTrace, commands, k);
  }

  /** When every command builds, the instance receives each command's
      registrations in the order of the collective. */
  lemma FoldCommandsInOrder(commands: seq<Json>)
    requires FoldCommands(commands).error.None?
    ensures FoldCommands(commands).events == Flatten(EventsOf(CommandTraces(commands)))
  {
    ChainInOrder(CommandTraces(commands));
  }

  /** The reduce only ever throws a command's own error. */
  lemma FoldCommandsErrorKinds(commands: seq<Json>)
    ensures FoldCommands(commands).error.Some? ==>
            var e := FoldCommands(commands).error.value;
            e.PositionalNotDefined? || e.ReadOfUndefined? || e.NoSplitMethod?
  {
    if FoldCommands(commands).error.Some? {
      ChainErrorFrom(CommandTraces(commands));
      var i :| 0 <= i < |commands| && FoldCommands(commands).error == CommandTraces(commands)[i].error;
      assert CommandTraces(commands)[i] == BuildCommandTrace(commands[i]);
      BuilderImplProperties.CommandErrorKinds(commands[i]);
    }
  }

  // ---------------------------------------------------------------------------
  // buildAllCommands

  /** "Couldn't find commands" exactly when the path leads nowhere or to a
      falsy value; then nothing is registered. */
  lemma BuildAllNotFoundIff(container: Json, path: string)
    ensures BuildAllTrace(container, path).error == Some(CommandsNotFound(path)) <==>
            Collective(container, path).None? || !Truthy(Collective(container, path).value)
    ensures BuildAllTrace(container, path).error == Some(CommandsNotFound(path)) ==>
            BuildAllTrace(container, path).events == []
  {
    match Collective(container, path)
    case None =>
    case Some(collective) =>
      if collective.Arr? {
        FoldCommandsErrorKinds(collective.items);
      } else if collective.Obj? {
        FoldCommandsErrorKinds(Values(collective.props));
      }
  }

  /** "is malformed" exactly when the path leads to a truthy value that is
      neither an array nor an object: `true`, a non-zero number or a
      non-empty string. */
  lemma BuildAllMalformedIff(container: Json, path: string)
    ensures BuildAllTrace(container, path).error == Some(CommandsMalformed(path)) <==>
            Collective(container, path).Some? && Truthy(Collective(container, path).value) &&
            !IsObject(Collective(container, path).value)
  {
    match Collective(container, path)
    case None =>
    case Some(collective) =>
      if collective.Arr? {
        FoldCommandsErrorKinds(collective.items);
      } else if collective.Obj? {
        FoldCommandsErrorKinds(Values(collective.props));
      }
  }

  /** An object collective builds its property values in enumeration order,
      just as an array of those values would. */
  lemma ObjectCollectiveInKeyOrder(container: Json, path: string, props: seq<Prop>)
    requires Collective(container, path) == Some(Obj(props))
    ensures FoldCommands(Values(props)).error.None? ==>
            BuildAllTrace(container, path).events == Flatten(EventsOf(CommandTraces(Values(props))))
    ensures BuildAllTrace(container, path).error.None? <==>
            forall i :: 0 <= i < |props| ==> BuildCommandTrace(props[i].value).error.None?
  {
    FoldCommandsSucceedsIff(Values(props));
    if FoldCommands(Values(props)).error.None? {
      FoldCommandsInOrder(Values(props));
    }
  }
}
